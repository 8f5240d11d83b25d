/**
 * The AI service that writes code from documentation and repairs code that failed: the instructions
 * chosen for the language, the question asked, and the code returned from the streamed reply.
 */
module AiAssist {
  import opened Wrappers
  import opened Text
  import opened JsValue
  import opened CodeAssist

  const MySqlGenerateMessage :=
    "You are an expert MySQL database developer. Generate clean, efficient, and working SQL queries based on the documentation provided. Focus on writing optimized queries following best practices. Include necessary CREATE TABLE statements if needed."
  const MySqlImproveMessage :=
    "You are an expert MySQL database developer. Fix and optimize the SQL query while maintaining its original functionality. Consider query performance and best practices. Provide only the corrected SQL without explanations."
  const ExpertOpening := "You are an expert "
  const GenerateInstructions := " developer. Generate clean, efficient, and working code based on the documentation provided. Focus only on the implementation, no explanations needed."
  const ImproveInstructions := " developer and debugger. Fix the code while maintaining its original functionality. Provide only the corrected code without explanations."

  /** The instructions for `generateCodeImplementation`: SQL-specific for `mysql`, else naming the language. */
  function GenerateSystemMessage(language: string): string {
    if language == "mysql" then MySqlGenerateMessage
    else ExpertOpening + language + GenerateInstructions
  }

  /** The instructions for `improveCode`: SQL-specific for `mysql`, else naming the language. */
  function ImproveSystemMessage(language: string): string {
    if language == "mysql" then MySqlImproveMessage
    else ExpertOpening + language + ImproveInstructions
  }

  /** Every language other than MySQL gets the generic instructions, which name it right after the opening. */
  lemma SystemMessagesNameLanguage(language: string)
    requires language != "mysql"
    ensures StartsWith(GenerateSystemMessage(language), ExpertOpening + language)
    ensures StartsWith(ImproveSystemMessage(language), ExpertOpening + language)
  {
    StartsWithAppend(ExpertOpening + language, GenerateInstructions);
    StartsWithAppend(ExpertOpening + language, ImproveInstructions);
  }

  /** Generic instructions for two languages are the same only when the languages are. */
  lemma GenericMessagesDistinguishLanguages(l1: string, l2: string)
    requires l1 != "mysql" && l2 != "mysql"
    requires GenerateSystemMessage(l1) == GenerateSystemMessage(l2) || ImproveSystemMessage(l1) == ImproveSystemMessage(l2)
    ensures l1 == l2
  {
    SystemMessagesNameLanguage(l1);
    SystemMessagesNameLanguage(l2);
    if l1 != l2 {
      if GenerateSystemMessage(l1) == GenerateSystemMessage(l2) {
        SameOpeningSameLanguage(l1, l2, GenerateInstructions);
      } else {
        SameOpeningSameLanguage(l1, l2, ImproveInstructions);
      }
    }
  }

  /** Two texts `o + l + t` with the same opening and tail are equal only for the same `l`. */
  lemma SameOpeningSameLanguage(l1: string, l2: string, tail: string)
    requires ExpertOpening + l1 + tail == ExpertOpening + l2 + tail
    ensures l1 == l2
  {
    var n := |ExpertOpening|;
    assert |l1| == |l2|;
    assert l1 == (ExpertOpening + l1 + tail)[n..n + |l1|];
    assert l2 == (ExpertOpening + l2 + tail)[n..n + |l2|];
  }

  const DocumentationOpening := "Based on this documentation:\n\n"

  /** What `generateCodeImplementation` asks for after the documentation. */
  function GenerateRequest(language: string): string {
    var what := if language == "mysql" then "SQL query" else "code implementation";
    var only := if language == "mysql" then "SQL" else "code";
    "\n\nGenerate a working " + what + " in " + language + ". Only provide the " + only + ", no explanations."
  }

  /** The question of `generateCodeImplementation`: the documentation, and what to produce in which language. */
  function GenerateQuestion(documentation: string, language: string): string {
    DocumentationOpening + documentation + GenerateRequest(language)
  }

  const CodeLabel := " that produced the following error:\n\nCode:\n"
  const ErrorLabel := "\n\nError:\n"

  /** What precedes the code in the question of `improveCode`: what to fix, in which language. */
  function FixOpening(language: string): string {
    "Fix this " + language + " " + (if language == "mysql" then "query" else "code") + CodeLabel
  }

  /** What follows the error in the question of `improveCode`: what to give back. */
  function FixClosing(language: string): string {
    "\n\nProvide only the corrected " + (if language == "mysql" then "SQL" else "code") + ", no explanations."
  }

  /** The question of `improveCode`: the code and the error it produced. */
  function ImproveQuestion(code: string, language: string, error: string): string {
    FixOpening(language) + code + ErrorLabel + error + FixClosing(language)
  }

  /** The documentation is passed on whole in the question. */
  lemma GenerateQuestionCarriesDocumentation(documentation: string, language: string)
    ensures Contains(GenerateQuestion(documentation, language), documentation)
  {
    ContainsMiddle(DocumentationOpening, documentation, GenerateRequest(language));
  }

  /** The code and the error are passed on whole in the question. */
  lemma ImproveQuestionCarriesCodeAndError(code: string, language: string, error: string)
    ensures Contains(ImproveQuestion(code, language, error), code)
    ensures Contains(ImproveQuestion(code, language, error), error)
  {
    CarriesBoth(FixOpening(language), code, ErrorLabel, error, FixClosing(language));
  }

  /** Both inner parts of `a + p + m + q + b` occur in it. */
  lemma CarriesBoth(a: string, p: string, m: string, q: string, b: string)
    ensures Contains(a + p + m + q + b, p) && Contains(a + p + m + q + b, q)
  {
    assert a + p + m + q + b == a + p + (m + q + b);
    ContainsMiddle(a, p, m + q + b);
    ContainsMiddle(a + p + m, q, b);
  }

  /** The result of `generateCodeImplementation` and `improveCode`. */
  datatype CodeResult = Code(code: string) | CodeError(error: Json)

  /**
   * The shaping both functions share: a thrown error reports its message or `thrownFallback`; a status
   * other than 200 reports `statusMessage`; otherwise the streamed text, trimmed, is the code.
   */
  function ShapeCode(outcome: Result<Reply, Thrown>, decode: string -> Result<Json, string>,
                     statusMessage: string, thrownFallback: string): (r: CodeResult)
    requires statusMessage != "" && thrownFallback != ""
    ensures outcome.Success? ==> (r.Code? <==> outcome.value.status == 200)
    ensures outcome.Success? && outcome.value.status != 200 ==> r == CodeError(JString(statusMessage))
    ensures outcome.Failure? ==> r.CodeError? && Truthy(Some(r.error))
    ensures outcome.Failure? ==> r == CodeError(ThrownMessage(outcome.error, thrownFallback))
    ensures r.Code? ==> Trim(r.code) == r.code
  {
    match outcome
    case Failure(e) => CodeError(ThrownMessage(e, thrownFallback))
    case Success(reply) =>
      if reply.status != 200 then CodeError(JString(statusMessage))
      else
        var text := StreamContent(Chunks(reply.data), decode);
        TrimIdempotent(text);
        Code(Trim(text))
  }

  /** `generateCodeImplementation` once the request has settled. */
  function GenerateCodeImplementation(outcome: Result<Reply, Thrown>, decode: string -> Result<Json, string>): (r: CodeResult)
    ensures outcome.Success? && outcome.value.status != 200 ==>
              r == CodeError(JString("Failed to generate code implementation"))
    ensures outcome.Failure? && !Truthy(outcome.error.responseMessage) && !Truthy(outcome.error.message) ==>
              r == CodeError(JString("Failed to generate code"))
    ensures outcome.Failure? ==> r == CodeError(ThrownMessage(outcome.error, "Failed to generate code"))
    ensures r.Code? ==> Trim(r.code) == r.code
  {
    ShapeCode(outcome, decode, "Failed to generate code implementation", "Failed to generate code")
  }

  /** `improveCode` once the request has settled. */
  function ImproveCode(outcome: Result<Reply, Thrown>, decode: string -> Result<Json, string>): (r: CodeResult)
    ensures outcome.Success? && outcome.value.status != 200 ==> r == CodeError(JString("Failed to improve code"))
    ensures outcome.Failure? && !Truthy(outcome.error.responseMessage) && !Truthy(outcome.error.message) ==>
              r == CodeError(JString("Failed to improve code"))
    ensures outcome.Failure? ==> r == CodeError(ThrownMessage(outcome.error, "Failed to improve code"))
    ensures r.Code? ==> Trim(r.code) == r.code
  {
    ShapeCode(outcome, decode, "Failed to improve code", "Failed to improve code")
  }

  /** A reply with status 200 gives the streamed text, trimmed; white space around chunks is dropped. */
  lemma CodeIsTrimmedStream(reply: Reply, decode: string -> Result<Json, string>)
    requires reply.status == 200
    ensures GenerateCodeImplementation(Success(reply), decode) == Code(Trim(StreamContent(Chunks(reply.data), decode)))
    ensures ImproveCode(Success(reply), decode) == Code(Trim(StreamContent(Chunks(reply.data), decode)))
  {
  }
}
