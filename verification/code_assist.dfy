/**
 * The code assistant service: reading the generative model's streamed reply (one JSON chunk per line,
 * each optionally behind `data: `) into one text, and shaping that text into the assistance or
 * debugging result shown to the user.
 */
module CodeAssist {
  import opened Wrappers
  import opened Text
  import opened JsValue

  // ---------------------------------------------------------------------------------------------
  // The streamed reply.

  /** `lines.filter(Boolean)`: the non-empty lines, in order. */
  function NonEmpty(lines: seq<string>): (r: seq<string>)
    ensures |r| <= |lines|
    ensures forall k :: 0 <= k < |r| ==> r[k] != ""
  {
    if lines == [] then []
    else (if lines[0] != "" then [lines[0]] else []) + NonEmpty(lines[1..])
  }

  /** The chunks of a streamed reply: its non-empty lines. */
  function Chunks(text: string): seq<string> {
    NonEmpty(Split(text, '\n'))
  }

  /** `chunk.replace(/^data: /, '')`: one leading `data: ` is removed. */
  function StripDataPrefix(chunk: string): string {
    if StartsWith(chunk, "data: ") then chunk[6..] else chunk
  }

  /**
   * What one chunk adds to the reply: the `content` of its decoded value when that is truthy, as text;
   * nothing when it does not decode or decodes to `null` (the error is caught and the chunk skipped).
   */
  function ChunkText(chunk: string, decode: string -> Result<Json, string>): string {
    match decode(StripDataPrefix(chunk))
    case Failure(_) => ""
    case Success(data) =>
      match Member(data, "content")
      case Failure(_) => ""
      case Success(content) => if Truthy(content) then ToJsString(content.value) else ""
  }

  /** `ChunkText` for a fixed decoder, as a function of the chunk. */
  function Contribution(decode: string -> Result<Json, string>): string -> string {
    chunk => ChunkText(chunk, decode)
  }

  /** The texts `f` gives the chunks, appended in order. */
  function Joined(chunks: seq<string>, f: string -> string): string {
    if chunks == [] then "" else Joined(chunks[..|chunks| - 1], f) + f(chunks[|chunks| - 1])
  }

  /** The text of a sequence of chunks: their contributions, in order. */
  function StreamContent(chunks: seq<string>, decode: string -> Result<Json, string>): string {
    Joined(chunks, Contribution(decode))
  }

  /** Taking one more chunk adds its contribution at the end. */
  lemma StreamStep(chunks: seq<string>, i: nat, decode: string -> Result<Json, string>)
    requires i < |chunks|
    ensures StreamContent(chunks[..i + 1], decode) == StreamContent(chunks[..i], decode) + ChunkText(chunks[i], decode)
  {
    assert chunks[..i + 1][..i] == chunks[..i];
  }

  /** The body of the loop's `try`: the text one chunk adds, nothing when it fails. */
  method ReadChunk(chunk: string, decode: string -> Result<Json, string>) returns (piece: string)
    ensures piece == ChunkText(chunk, decode)
  {
    piece := "";
    var parsed := decode(StripDataPrefix(chunk));
    if parsed.Success? {
      var content := Member(parsed.value, "content");
      if content.Success? && Truthy(content.value) {
        piece := ToJsString(content.value.value);
      }
    }
  }

  /**
   * `parseStreamedResponse`: the chunks' contents appended one after the other; a chunk that fails
   * contributes nothing and does not stop the loop.
   */
  method ParseStreamedResponse(text: string, decode: string -> Result<Json, string>) returns (fullContent: string)
    ensures fullContent == StreamContent(Chunks(text), decode)
  {
    var chunks := Chunks(text);
    fullContent := "";
    var i := 0;
    while i < |chunks|
      invariant 0 <= i <= |chunks|
      invariant fullContent == StreamContent(chunks[..i], decode)
    {
      StreamStep(chunks, i, decode);
      var piece := ReadChunk(chunks[i], decode);
      fullContent := fullContent + piece;
      i := i + 1;
    }
    assert chunks[..|chunks|] == chunks;
  }

  /** Empty lines are never chunks, and every non-empty line is one. */
  lemma {:induction false} ChunkMembership(lines: seq<string>, line: string)
    ensures line in NonEmpty(lines) <==> line in lines && line != ""
    decreases |lines|
  {
    if lines != [] {
      ChunkMembership(lines[1..], line);
      assert lines == [lines[0]] + lines[1..];
    }
  }

  /** Filtering keeps the order: the chunks of two runs of lines are the chunks of each, one after the other. */
  lemma {:induction false} NonEmptyAppend(a: seq<string>, b: seq<string>)
    ensures NonEmpty(a + b) == NonEmpty(a) + NonEmpty(b)
    decreases |a|
  {
    if a == [] {
      assert a + b == b;
    } else {
      assert (a + b)[0] == a[0] && (a + b)[1..] == a[1..] + b;
      NonEmptyAppend(a[1..], b);
    }
  }

  /** Joining two runs of chunks joins each, one after the other. */
  lemma {:induction false} JoinedAppend(a: seq<string>, b: seq<string>, f: string -> string)
    ensures Joined(a + b, f) == Joined(a, f) + Joined(b, f)
    decreases |b|
  {
    if b == [] {
      assert a + b == a;
      assert Joined(a, f) + Joined(b, f) == Joined(a, f);
    } else {
      var b', last := b[..|b| - 1], b[|b| - 1];
      assert (a + b)[..|a + b| - 1] == a + b' && (a + b)[|a + b| - 1] == last;
      JoinedAppend(a, b', f);
      var x, y, z := Joined(a, f), Joined(b', f), f(last);
      assert (x + y) + z == x + (y + z);
    }
  }

  /** The text of two runs of chunks is the text of the first followed by the text of the second. */
  lemma StreamAppend(a: seq<string>, b: seq<string>, decode: string -> Result<Json, string>)
    ensures StreamContent(a + b, decode) == StreamContent(a, decode) + StreamContent(b, decode)
  {
    JoinedAppend(a, b, Contribution(decode));
  }

  /** A chunk that does not decode is skipped: the chunks around it contribute as if it were absent. */
  lemma UndecodableChunkSkipped(a: seq<string>, chunk: string, b: seq<string>, decode: string -> Result<Json, string>)
    requires decode(StripDataPrefix(chunk)).Failure?
    ensures StreamContent(a + [chunk] + b, decode) == StreamContent(a, decode) + StreamContent(b, decode)
  {
    StreamAppend(a + [chunk], b, decode);
    assert (a + [chunk])[..|a + [chunk]| - 1] == a;
  }

  /** A chunk decoding to an object with text content contributes exactly that text. */
  lemma ContentChunk(chunk: string, s: string, decode: string -> Result<Json, string>)
    requires decode(StripDataPrefix(chunk)) == Success(JObject(map["content" := JString(s)]))
    ensures ChunkText(chunk, decode) == s
  {
  }

  /** Only one leading `data: ` is removed: text that itself starts with `data: ` keeps it. */
  lemma StripOnce(rest: string)
    ensures StripDataPrefix("data: " + rest) == rest
  {
    StartsWithAppend("data: ", rest);
  }

  /** A chunk without the prefix is decoded as it is. */
  lemma StripNothing(chunk: string)
    requires !StartsWith(chunk, "data: ")
    ensures StripDataPrefix(chunk) == chunk
  {
  }

  // ---------------------------------------------------------------------------------------------
  // Shaping the results.

  /** The reply of a request that did not throw: its status and its body as text. */
  datatype Reply = Reply(status: int, data: string)

  /** A request that threw: `error.response?.data?.message` and `error.message`. */
  datatype Thrown = Thrown(responseMessage: Option<Json>, message: Option<Json>)

  /** `error.response?.data?.message || error.message || fallback`. */
  function ThrownMessage(e: Thrown, fallback: string): (r: Json)
    ensures Truthy(e.responseMessage) ==> Some(r) == e.responseMessage
    ensures !Truthy(e.responseMessage) && Truthy(e.message) ==> Some(r) == e.message
    ensures !Truthy(e.responseMessage) && !Truthy(e.message) ==> r == JString(fallback)
  {
    OrElse(e.responseMessage, OrElse(e.message, JString(fallback)))
  }

  /** The result of `getCodeAssistance`. */
  datatype Assistance =
    | Assistance(explanation: Json, codeChanges: Json, tips: Json)
    | AssistanceError(error: Json)

  const AssistanceFailed := "Failed to get assistance"

  /**
   * `getCodeAssistance` once the request has settled: a reply with status 200 always succeeds, with
   * the decoded fields (defaults `''`, `null`, `[]`) or, when the text does not decode to a value
   * whose fields can be read, the text itself as the explanation.
   */
  function GetCodeAssistance(outcome: Result<Reply, Thrown>, decode: string -> Result<Json, string>): (r: Assistance)
    ensures outcome.Success? ==> (r.Assistance? <==> outcome.value.status == 200)
    ensures outcome.Success? && outcome.value.status != 200 ==> r == AssistanceError(JString(AssistanceFailed))
    ensures outcome.Failure? ==> r.AssistanceError? && Truthy(Some(r.error))
    ensures outcome.Failure? ==> r == AssistanceError(ThrownMessage(outcome.error, AssistanceFailed))
    ensures r.Assistance? ==> Truthy(Some(r.tips)) && (r.codeChanges.JNull? || Truthy(Some(r.codeChanges)))
  {
    match outcome
    case Failure(e) => AssistanceError(ThrownMessage(e, AssistanceFailed))
    case Success(reply) =>
      if reply.status != 200 then AssistanceError(JString(AssistanceFailed))
      else
        var content := StreamContent(Chunks(reply.data), decode);
        var parsed := decode(content);
        if parsed.Failure? || parsed.value.JNull? then Assistance(JString(content), JNull, JArray([]))
        else
          Assistance(OrElse(Member(parsed.value, "explanation").value, JString("")),
                     OrElse(Member(parsed.value, "codeChanges").value, JNull),
                     OrElse(Member(parsed.value, "tips").value, JArray([])))
  }

  /** Content that does not decode, or decodes to `null`, is shown whole as the explanation. */
  lemma RawContentExplains(reply: Reply, decode: string -> Result<Json, string>)
    requires reply.status == 200
    requires var content := StreamContent(Chunks(reply.data), decode);
             decode(content).Failure? || decode(content) == Success(JNull)
    ensures GetCodeAssistance(Success(reply), decode) ==
              Assistance(JString(StreamContent(Chunks(reply.data), decode)), JNull, JArray([]))
  {
  }

  /** Decoded content keeps its truthy fields; a field that is absent or falsy takes its default. */
  lemma DecodedAssistance(reply: Reply, decode: string -> Result<Json, string>, fields: map<string, Json>)
    requires reply.status == 200
    requires decode(StreamContent(Chunks(reply.data), decode)) == Success(JObject(fields))
    ensures var r := GetCodeAssistance(Success(reply), decode);
            && r.Assistance?
            && ("explanation" in fields && Truthy(Some(fields["explanation"])) ==> r.explanation == fields["explanation"])
            && (!("explanation" in fields && Truthy(Some(fields["explanation"]))) ==> r.explanation == JString(""))
            && ("codeChanges" in fields && Truthy(Some(fields["codeChanges"])) ==> r.codeChanges == fields["codeChanges"])
            && (!("codeChanges" in fields && Truthy(Some(fields["codeChanges"]))) ==> r.codeChanges == JNull)
            && ("tips" in fields && Truthy(Some(fields["tips"])) ==> r.tips == fields["tips"])
            && (!("tips" in fields && Truthy(Some(fields["tips"]))) ==> r.tips == JArray([]))
  {
  }

  /** The result of `debugCode`. */
  datatype Debugging =
    | Debugging(errorExplanation: Json, solution: Json, fixedCode: Json)
    | DebuggingError(error: Json)

  const DebugFailed := "Failed to debug code"

  /**
   * `debugCode` once the request has settled, shaped as `getCodeAssistance` is: defaults `''`, `''`,
   * `null`, and the undecodable text as the error explanation.
   */
  function DebugCode(outcome: Result<Reply, Thrown>, decode: string -> Result<Json, string>): (r: Debugging)
    ensures outcome.Success? ==> (r.Debugging? <==> outcome.value.status == 200)
    ensures outcome.Success? && outcome.value.status != 200 ==> r == DebuggingError(JString(DebugFailed))
    ensures outcome.Failure? ==> r.DebuggingError? && Truthy(Some(r.error))
    ensures outcome.Failure? ==> r == DebuggingError(ThrownMessage(outcome.error, DebugFailed))
    ensures r.Debugging? ==> r.fixedCode.JNull? || Truthy(Some(r.fixedCode))
  {
    match outcome
    case Failure(e) => DebuggingError(ThrownMessage(e, DebugFailed))
    case Success(reply) =>
      if reply.status != 200 then DebuggingError(JString(DebugFailed))
      else
        var content := StreamContent(Chunks(reply.data), decode);
        var parsed := decode(content);
        if parsed.Failure? || parsed.value.JNull? then Debugging(JString(content), JString(""), JNull)
        else
          Debugging(OrElse(Member(parsed.value, "errorExplanation").value, JString("")),
                    OrElse(Member(parsed.value, "solution").value, JString("")),
                    OrElse(Member(parsed.value, "fixedCode").value, JNull))
  }

  /** Content that does not decode, or decodes to `null`, is shown whole as the error explanation. */
  lemma RawContentExplainsError(reply: Reply, decode: string -> Result<Json, string>)
    requires reply.status == 200
    requires var content := StreamContent(Chunks(reply.data), decode);
             decode(content).Failure? || decode(content) == Success(JNull)
    ensures DebugCode(Success(reply), decode) ==
              Debugging(JString(StreamContent(Chunks(reply.data), decode)), JString(""), JNull)
  {
  }

  /** Decoded content keeps its truthy fields; a field that is absent or falsy takes its default. */
  lemma DecodedDebugging(reply: Reply, decode: string -> Result<Json, string>, fields: map<string, Json>)
    requires reply.status == 200
    requires decode(StreamContent(Chunks(reply.data), decode)) == Success(JObject(fields))
    ensures var r := DebugCode(Success(reply), decode);
            && r.Debugging?
            && ("errorExplanation" in fields && Truthy(Some(fields["errorExplanation"])) ==>
                  r.errorExplanation == fields["errorExplanation"])
            && (!("errorExplanation" in fields && Truthy(Some(fields["errorExplanation"]))) ==>
                  r.errorExplanation == JString(""))
            && ("solution" in fields && Truthy(Some(fields["solution"])) ==> r.solution == fields["solution"])
            && (!("solution" in fields && Truthy(Some(fields["solution"]))) ==> r.solution == JString(""))
            && ("fixedCode" in fields && Truthy(Some(fields["fixedCode"])) ==> r.fixedCode == fields["fixedCode"])
            && (!("fixedCode" in fields && Truthy(Some(fields["fixedCode"]))) ==> r.fixedCode == JNull)
  {
  }
}
