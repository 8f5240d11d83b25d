/**
 * Quiz generation: cleaning the generated text of markdown code fences, decoding it, and checking
 * the structure of the decoded quiz before it is handed to the quiz screen.
 */
module QuizService {
  import opened Wrappers
  import opened Text
  import opened JsValue

  // ---------------------------------------------------------------------------------------------
  // Cleaning.

  /**
   * `s.replace(new RegExp(marker + '\n?', 'g'), '')`: scanning from the left, every occurrence of the
   * marker is deleted together with one newline directly after it.
   */
  function RemoveMarker(s: string, marker: string): (r: string)
    requires marker != []
    ensures |r| <= |s|
    decreases |s|
  {
    if s == [] then []
    else if StartsWith(s, marker) then
      var rest := s[|marker|..];
      RemoveMarker(if rest != [] && rest[0] == '\n' then rest[1..] else rest, marker)
    else [s[0]] + RemoveMarker(s[1..], marker)
  }

  /** The cleaning of the generated text: drop the json fences, then every remaining fence, then trim. */
  function CleanQuizContent(s: string): string {
    Trim(RemoveMarker(RemoveMarker(s, "```json"), "```"))
  }

  /** Text without the marker is left as it is. */
  lemma {:induction false} RemoveMarkerAbsent(s: string, marker: string)
    requires marker != []
    requires !Contains(s, marker)
    ensures RemoveMarker(s, marker) == s
    decreases |s|
  {
    if s != [] {
      RemoveMarkerAbsent(s[1..], marker);
      assert s == [s[0]] + s[1..];
    }
  }

  /**
   * Removing fences never creates a new one: the result holds no three backticks in a row. Along the
   * way, a result that starts with a backtick (or two) comes from a text that does too.
   */
  lemma {:induction false} NoFenceLeft(s: string)
    ensures var r := RemoveMarker(s, "```");
            && !Contains(r, "```")
            && (r != [] && r[0] == '`' ==> s != [] && s[0] == '`')
            && (StartsWith(r, "``") ==> StartsWith(s, "``"))
    decreases |s|
  {
    if s != [] {
      if StartsWith(s, "```") {
        var rest := s[3..];
        NoFenceLeft(if rest != [] && rest[0] == '\n' then rest[1..] else rest);
      } else {
        NoFenceLeft(s[1..]);
        KeptCharStep(s, RemoveMarker(s, "```"), RemoveMarker(s[1..], "```"));
      }
    }
  }

  /**
   * A character kept in front of a fence-free rest whose leading backticks come from the text's own:
   * no fence is formed, and leading backticks still come from the text.
   */
  lemma KeptCharStep(s: string, r: string, r': string)
    requires s != [] && !StartsWith(s, "```") && r == [s[0]] + r'
    requires !Contains(r', "```")
    requires r' != [] && r'[0] == '`' ==> |s| > 1 && s[1] == '`'
    requires StartsWith(r', "``") ==> StartsWith(s[1..], "``")
    ensures !Contains(r, "```")
    ensures StartsWith(r, "``") ==> StartsWith(s, "``")
  {
    assert r[1..] == r';
    if StartsWith(r, "``") {
      assert r'[0] == '`';
    }
    assert !StartsWith(r, "```");
  }

  /** A longer pattern occurs only where its prefix does. */
  lemma {:induction false} ContainsPrefixOf(s: string, p: string, q: string)
    ensures Contains(s, p + q) ==> Contains(s, p)
    decreases |s|
  {
    if StartsWith(s, p + q) {
      assert s[..|p|] == (p + q)[..|p|];
    } else if s != [] {
      ContainsPrefixOf(s[1..], p, q);
    }
  }

  /** Anything found in a slice is found in the whole text. */
  lemma ContainsSlice(s: string, a: nat, b: nat, p: string)
    requires a <= b <= |s|
    requires Contains(s[a..b], p)
    ensures Contains(s, p)
  {
    var t := s[a..b];
    var i := ContainsWitness(t, p);
    forall j | 0 <= j < |p|
      ensures s[a + i..a + i + |p|][j] == p[j]
    {
      assert t[i + j] == s[a + i + j];
    }
    ContainsAt(s, p, a + i);
  }

  /** Trimming keeps a contiguous part of the text. */
  lemma TrimIsSlice(s: string) returns (a: nat, b: nat)
    ensures a <= b <= |s| && Trim(s) == s[a..b]
  {
    var t := TrimStart(s);
    TrimStartSpec(s);
    TrimEndSpec(t);
    a := |s| - |t|;
    b := a + |TrimEnd(t)|;
    assert t[..|TrimEnd(t)|] == s[a..b];
  }

  /** The cleaned text holds no code fence at all. */
  lemma CleanRemovesFences(s: string)
    ensures !Contains(CleanQuizContent(s), "```")
  {
    var x := RemoveMarker(RemoveMarker(s, "```json"), "```");
    NoFenceLeft(RemoveMarker(s, "```json"));
    var a, b := TrimIsSlice(x);
    if Contains(x[a..b], "```") {
      ContainsSlice(x, a, b, "```");
    }
  }

  /** Text without any fence is only trimmed. */
  lemma CleanPlainText(s: string)
    requires !Contains(s, "```")
    ensures CleanQuizContent(s) == Trim(s)
  {
    ContainsPrefixOf(s, "```", "json");
    assert "```" + "json" == "```json";
    RemoveMarkerAbsent(s, "```json");
    RemoveMarkerAbsent(s, "```");
  }

  // ---------------------------------------------------------------------------------------------
  // Validation.

  const ParseErrorPrefix := "Failed to parse quiz data: "

  /** The check of one question (`index` counts from 0; messages count from 1); None when it passes. */
  function QuestionError(q: Json, index: nat): (e: Option<string>)
  {
    if q.JNull? then Some("Cannot read properties of null (reading 'question')")
    else
      var question, options, answer := Member(q, "question").value, Member(q, "options").value,
                                        Member(q, "correctAnswer").value;
      var name := "Question " + NatToString(index + 1);
      if !Truthy(question) || !Truthy(options) || !Truthy(answer) then
        Some(name + " is missing required fields")
      else if !options.value.JArray? || |options.value.items| != 4 then
        Some(name + " must have exactly 4 options")
      else if !Includes(options.value.items, answer.value) then
        Some(name + "'s correct answer must match one of its options")
      else None
  }

  /** A question that passes: an object with a question, exactly four options, and an answer among them. */
  predicate WellFormedQuestion(q: Json) {
    && q.JObject?
    && "question" in q.fields && Truthy(Some(q.fields["question"]))
    && "options" in q.fields && q.fields["options"].JArray? && |q.fields["options"].items| == 4
    && "correctAnswer" in q.fields && Truthy(Some(q.fields["correctAnswer"]))
    && Includes(q.fields["options"].items, q.fields["correctAnswer"])
  }

  /** A question passes exactly when it is well formed. */
  lemma QuestionErrorSpec(q: Json, index: nat)
    ensures QuestionError(q, index).None? <==> WellFormedQuestion(q)
  {
  }

  /** The error of a failing question (other than `null`) names its position, counted from 1. */
  lemma QuestionErrorNamesPosition(q: Json, index: nat)
    requires QuestionError(q, index).Some? && !q.JNull?
    ensures StartsWith(QuestionError(q, index).value, "Question " + NatToString(index + 1))
  {
    var name := "Question " + NatToString(index + 1);
    var question, options, answer := Member(q, "question").value, Member(q, "options").value,
                                      Member(q, "correctAnswer").value;
    if !Truthy(question) || !Truthy(options) || !Truthy(answer) {
      StartsWithAppend(name, " is missing required fields");
    } else if !options.value.JArray? || |options.value.items| != 4 {
      StartsWithAppend(name, " must have exactly 4 options");
    } else {
      StartsWithAppend(name, "'s correct answer must match one of its options");
    }
  }

  /** The error of the first failing question from `from` on, or None when all pass. */
  function FirstError(items: seq<Json>, from: nat): Option<string>
    requires from <= |items|
    decreases |items| - from
  {
    if from == |items| then None
    else if QuestionError(items[from], from).Some? then QuestionError(items[from], from)
    else FirstError(items, from + 1)
  }

  /** None exactly when every question passes; otherwise the error of the first question that fails. */
  lemma {:induction false} FirstErrorSpec(items: seq<Json>, from: nat)
    requires from <= |items|
    ensures FirstError(items, from).None? <==>
              forall k :: from <= k < |items| ==> QuestionError(items[k], k).None?
    ensures FirstError(items, from).Some? ==>
              exists k :: from <= k < |items| && FirstError(items, from) == QuestionError(items[k], k)
                          && forall j :: from <= j < k ==> QuestionError(items[j], j).None?
    decreases |items| - from
  {
    if from < |items| && QuestionError(items[from], from).None? {
      FirstErrorSpec(items, from + 1);
      if FirstError(items, from).Some? {
        var k :| from + 1 <= k < |items| && FirstError(items, from + 1) == QuestionError(items[k], k)
                 && forall j :: from + 1 <= j < k ==> QuestionError(items[j], j).None?;
        assert forall j :: from <= j < k ==> QuestionError(items[j], j).None?;
      }
    }
  }

  /** The `forEach` over the questions, which throws on the first one that fails. */
  method CheckQuestions(items: seq<Json>) returns (error: Option<string>)
    ensures error == FirstError(items, 0)
  {
    var index := 0;
    while index < |items|
      invariant 0 <= index <= |items|
      invariant FirstError(items, 0) == FirstError(items, index)
    {
      var e := QuestionError(items[index], index);
      if e.Some? {
        return e;
      }
      index := index + 1;
    }
    return None;
  }

  /** The structural checks on the decoded value, in the order the source makes them. */
  function ValidateQuiz(data: Json, questionCount: nat): Result<Json, string> {
    if !data.JArray? then Failure("Quiz data is not an array")
    else if |data.items| != questionCount then
      Failure("Quiz must have exactly " + NatToString(questionCount) + " questions")
    else match FirstError(data.items, 0)
      case Some(e) => Failure(e)
      case None => Success(data)
  }

  /**
   * `generateQuiz` once the text is generated (`content` is `response?.content`): no content, a value
   * that is not text, an undecodable text or a malformed quiz is an error; otherwise the decoded value.
   */
  function QuizOutcome(content: Option<Json>, questionCount: nat, decode: string -> Result<Json, string>)
    : Result<Json, string>
  {
    if !Truthy(content) then Failure("No content in response")
    else if !content.value.JString? then Failure("cleanContent.replace is not a function")
    else match decode(CleanQuizContent(content.value.s))
      case Failure(e) => Failure(ParseErrorPrefix + e)
      case Success(data) =>
        match ValidateQuiz(data, questionCount)
        case Failure(e) => Failure(ParseErrorPrefix + e)
        case Success(quiz) => Success(quiz)
  }

  /** `generateQuiz` after the request: clean, decode, check the shape and each question in turn. */
  method GenerateQuiz(content: Option<Json>, questionCount: nat, decode: string -> Result<Json, string>)
    returns (r: Result<Json, string>)
    ensures r == QuizOutcome(content, questionCount, decode)
  {
    if !Truthy(content) {
      return Failure("No content in response");
    }
    if !content.value.JString? {
      return Failure("cleanContent.replace is not a function");
    }
    var cleanContent := CleanQuizContent(content.value.s);
    var decoded := decode(cleanContent);
    if decoded.Failure? {
      return Failure(ParseErrorPrefix + decoded.error);
    }
    var quizData := decoded.value;
    if !quizData.JArray? {
      return Failure(ParseErrorPrefix + "Quiz data is not an array");
    }
    if |quizData.items| != questionCount {
      var message := "Quiz must have exactly " + NatToString(questionCount) + " questions";
      return Failure(ParseErrorPrefix + message);
    }
    var error := CheckQuestions(quizData.items);
    if error.Some? {
      return Failure(ParseErrorPrefix + error.value);
    }
    return Success(quizData);
  }

  /**
   * A quiz is accepted exactly when the content is text that decodes, after cleaning, to an array of
   * `questionCount` well-formed questions; the accepted value is the decoded one, unchanged.
   */
  lemma AcceptedQuizzes(content: Option<Json>, questionCount: nat, decode: string -> Result<Json, string>)
    ensures var r := QuizOutcome(content, questionCount, decode);
            r.Success? <==>
              && Truthy(content) && content.value.JString?
              && decode(CleanQuizContent(content.value.s)).Success?
              && var data := decode(CleanQuizContent(content.value.s)).value;
                 && data.JArray? && |data.items| == questionCount
                 && forall k :: 0 <= k < |data.items| ==> WellFormedQuestion(data.items[k])
    ensures var r := QuizOutcome(content, questionCount, decode);
            r.Success? ==> r.value == decode(CleanQuizContent(content.value.s)).value
  {
    if Truthy(content) && content.value.JString? {
      var d := decode(CleanQuizContent(content.value.s));
      if d.Success? && d.value.JArray? {
        var items := d.value.items;
        FirstErrorSpec(items, 0);
        forall k | 0 <= k < |items|
          ensures QuestionError(items[k], k).None? <==> WellFormedQuestion(items[k])
        {
          QuestionErrorSpec(items[k], k);
        }
      }
    }
  }

  /** The count is checked before any question: a wrong count is reported whatever the questions are. */
  lemma CountCheckedFirst(data: Json, questionCount: nat)
    requires data.JArray? && |data.items| != questionCount
    ensures ValidateQuiz(data, questionCount) ==
              Failure("Quiz must have exactly " + NatToString(questionCount) + " questions")
  {
  }

  /** The first failing question decides the error, whatever follows it. */
  lemma FirstFailureDecides(data: Json, questionCount: nat, k: nat)
    requires data.JArray? && |data.items| == questionCount
    requires k < |data.items| && QuestionError(data.items[k], k).Some?
    requires forall j :: 0 <= j < k ==> QuestionError(data.items[j], j).None?
    ensures ValidateQuiz(data, questionCount) == Failure(QuestionError(data.items[k], k).value)
  {
    FirstErrorAt(data.items, 0, k);
  }

  lemma {:induction false} FirstErrorAt(items: seq<Json>, from: nat, k: nat)
    requires from <= k < |items| && QuestionError(items[k], k).Some?
    requires forall j :: from <= j < k ==> QuestionError(items[j], j).None?
    ensures FirstError(items, from) == QuestionError(items[k], k)
    decreases k - from
  {
    if from < k {
      FirstErrorAt(items, from + 1, k);
    }
  }

  /** Every error raised after the text was read carries the parse-error prefix. */
  lemma ErrorsArePrefixed(content: Option<Json>, questionCount: nat, decode: string -> Result<Json, string>)
    requires Truthy(content) && content.value.JString?
    ensures var r := QuizOutcome(content, questionCount, decode);
            r.Failure? ==> StartsWith(r.error, ParseErrorPrefix)
  {
    var r := QuizOutcome(content, questionCount, decode);
    if r.Failure? {
      assert r.error[..|ParseErrorPrefix|] == ParseErrorPrefix;
    }
  }
}
