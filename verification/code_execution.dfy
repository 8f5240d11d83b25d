/**
 * Running code through the remote execution service: the boilerplate added around Java, C and C++
 * snippets, the request sent, the mapping of the service's reply to a result, and the list of
 * supported languages.
 */
module CodeExecution {
  import opened Wrappers
  import opened Text
  import opened JsValue

  // ---------------------------------------------------------------------------------------------
  // Languages.

  /** The keys of the language table, in their declaration order. */
  const LanguageKeys: seq<string> :=
    ["python", "javascript", "typescript", "java", "cpp", "c", "ruby", "rust", "go", "php", "mysql"]

  /** The version requested for each language. */
  const LanguageVersions: map<string, string> :=
    map["python" := "3.10.0", "javascript" := "18.15.0", "typescript" := "5.0.3", "java" := "19.0.2",
        "cpp" := "10.2.0", "c" := "10.2.0", "ruby" := "3.2.1", "rust" := "1.68.2", "go" := "1.19.5",
        "php" := "8.2.3", "mysql" := "latest"]

  /** The keys listed are exactly the languages of the table. */
  lemma KeysAreTableDomain()
    ensures forall k :: 0 <= k < |LanguageKeys| ==> LanguageKeys[k] in LanguageVersions
    ensures forall l :: l in LanguageVersions ==> l in LanguageKeys
  {
  }

  /** A language as offered to the user. */
  datatype Language = Language(id: string, name: string, version: string)

  /** `s.charAt(0).toUpperCase() + s.slice(1)`. */
  function Capitalize(s: string): (r: string)
    ensures |r| == |s|
    ensures s != [] ==> r[0] == UpperChar(s[0]) && r[1..] == s[1..]
  {
    if s == [] then [] else [UpperChar(s[0])] + s[1..]
  }

  /** The entries for languages of a version table, in the order given. */
  function Entries(table: map<string, string>, ids: seq<string>): (r: seq<Language>)
    requires forall k :: 0 <= k < |ids| ==> ids[k] in table
    ensures |r| == |ids|
    ensures forall k :: 0 <= k < |ids| ==> r[k].id == ids[k] && r[k].name == Capitalize(ids[k]) && r[k].version == table[ids[k]]
  {
    if ids == [] then [] else [Language(ids[0], Capitalize(ids[0]), table[ids[0]])] + Entries(table, ids[1..])
  }

  /** The runtime names the service lists that a version table knows, in the service's order. */
  function KnownRuntimes(table: map<string, string>, runtimes: seq<string>): (r: seq<string>)
    ensures forall k :: 0 <= k < |r| ==> r[k] in table
  {
    if runtimes == [] then []
    else (if runtimes[0] in table then [runtimes[0]] else []) + KnownRuntimes(table, runtimes[1..])
  }

  /** The entry added by hand after the service's list. */
  const MySqlEntry := Language("mysql", "MySQL", "latest")

  /**
   * The list offered for a version table whose keys, in order, are `keys`: with the service's runtime
   * names, the known ones followed by MySQL; without them (None: the request or the list failed), one
   * entry per key.
   */
  function LanguagesFrom(table: map<string, string>, keys: seq<string>, runtimes: Option<seq<string>>): seq<Language>
    requires forall k :: 0 <= k < |keys| ==> keys[k] in table
  {
    match runtimes
    case None => Entries(table, keys)
    case Some(names) => Entries(table, KnownRuntimes(table, names)) + [MySqlEntry]
  }

  /** `getSupportedLanguages`, for the application's language table. */
  function SupportedLanguages(runtimes: Option<seq<string>>): seq<Language> {
    KeysAreTableDomain();
    LanguagesFrom(LanguageVersions, LanguageKeys, runtimes)
  }

  /** A listed runtime is kept exactly when the table knows it. */
  lemma {:induction false} KnownRuntimesMembership(table: map<string, string>, runtimes: seq<string>, id: string)
    ensures id in KnownRuntimes(table, runtimes) <==> id in runtimes && id in table
    decreases |runtimes|
  {
    if runtimes != [] {
      KnownRuntimesMembership(table, runtimes[1..], id);
      assert runtimes == [runtimes[0]] + runtimes[1..];
    }
  }

  /**
   * Without the service, the list has one entry per key, in the keys' order, with the capitalised key
   * as name and the table's version.
   */
  lemma FallbackList(table: map<string, string>, keys: seq<string>)
    requires forall k :: 0 <= k < |keys| ==> keys[k] in table
    ensures var r := LanguagesFrom(table, keys, None);
            && |r| == |keys|
            && forall k :: 0 <= k < |r| ==>
                 && r[k].id == keys[k]
                 && r[k].name == Capitalize(keys[k])
                 && r[k].version == table[keys[k]]
  {
  }

  /**
   * With the service, the list ends with MySQL; a language comes before it exactly when the service
   * lists it and the table knows it, and every such entry carries the table's version.
   */
  lemma {:induction false} ServiceList(table: map<string, string>, keys: seq<string>, names: seq<string>, id: string)
    requires forall k :: 0 <= k < |keys| ==> keys[k] in table
    ensures var r := LanguagesFrom(table, keys, Some(names));
            && r[|r| - 1] == MySqlEntry
            && ((exists k :: 0 <= k < |r| - 1 && r[k].id == id) <==> id in names && id in table)
            && forall k :: 0 <= k < |r| - 1 ==> r[k].id in table && r[k].version == table[r[k].id]
  {
    var known := KnownRuntimes(table, names);
    var r := LanguagesFrom(table, keys, Some(names));
    var e := Entries(table, known);
    assert r == e + [MySqlEntry];
    KnownRuntimesMembership(table, names, id);
    if id in known {
      var k :| 0 <= k < |known| && known[k] == id;
      assert r[k].id == id;
    }
  }

  // ---------------------------------------------------------------------------------------------
  // Boilerplate.

  const JavaHead := "\npublic " + "class Main" + " {\n    public static void main(String[] args) {\n        "
  const JavaTail := "\n    }\n}"
  const CppHead := "#include" + " <iostream>\nusing namespace std;\n\nint main() {\n    "
  const CHead := "#include" + " <stdio.h>\n\nint main() {\n    "
  const MainTail := "\n    return 0;\n}"

  /** The wrappers contain what switches wrapping off: `class Main` for Java, `#include` for C and C++. */
  lemma HeadsCarryMarkers()
    ensures Contains(JavaHead, "class Main")
    ensures Contains(CppHead, "#include") && Contains(CHead, "#include")
  {
    ContainsMiddle("\npublic ", "class Main", " {\n    public static void main(String[] args) {\n        ");
    StartContained("#include", " <iostream>\nusing namespace std;\n\nint main() {\n    ");
    StartContained("#include", " <stdio.h>\n\nint main() {\n    ");
  }

  /**
   * `addLanguageBoilerplate`: Java code without `class Main`, and C or C++ code without `#include`,
   * is wrapped; everything else is returned as it is.
   */
  function AddLanguageBoilerplate(code: string, language: string): string {
    if language == "java" && !Contains(code, "class Main") then JavaHead + code + JavaTail
    else if language == "cpp" && !Contains(code, "#include") then CppHead + code + MainTail
    else if language == "c" && !Contains(code, "#include") then CHead + code + MainTail
    else code
  }

  /** The code is wrapped exactly when it is Java without `class Main` or C/C++ without `#include`. */
  lemma BoilerplateWhen(code: string, language: string)
    ensures AddLanguageBoilerplate(code, language) != code <==>
              || (language == "java" && !Contains(code, "class Main"))
              || ((language == "cpp" || language == "c") && !Contains(code, "#include"))
  {
  }

  /** Whatever is added, the code appears in the result unchanged. */
  lemma BoilerplateKeepsCode(code: string, language: string)
    ensures Contains(AddLanguageBoilerplate(code, language), code)
  {
    if language == "java" && !Contains(code, "class Main") {
      ContainsMiddle(JavaHead, code, JavaTail);
    } else if language == "cpp" && !Contains(code, "#include") {
      ContainsMiddle(CppHead, code, MainTail);
    } else if language == "c" && !Contains(code, "#include") {
      ContainsMiddle(CHead, code, MainTail);
    } else {
      ContainsAt(code, code, 0);
    }
  }

  /** A text contains its own beginning. */
  lemma StartContained(p: string, s: string)
    ensures Contains(p + s, p)
  {
    StartsWithAppend(p, s);
  }

  /** What the head of a text contains, the whole text contains. */
  lemma HeadContained(head: string, rest: string, marker: string)
    requires Contains(head, marker)
    ensures Contains(head + rest, marker)
  {
    var i := ContainsWitness(head, marker);
    assert (head + rest)[i..i + |marker|] == head[i..i + |marker|];
    ContainsAt(head + rest, marker, i);
  }

  /** Adding boilerplate twice adds it once. */
  lemma BoilerplateIdempotent(code: string, language: string)
    ensures var r := AddLanguageBoilerplate(code, language);
            AddLanguageBoilerplate(r, language) == r
  {
    HeadsCarryMarkers();
    if language == "java" && !Contains(code, "class Main") {
      HeadContained(JavaHead, code + JavaTail, "class Main");
      assert JavaHead + code + JavaTail == JavaHead + (code + JavaTail);
    } else if language == "cpp" && !Contains(code, "#include") {
      HeadContained(CppHead, code + MainTail, "#include");
      assert CppHead + code + MainTail == CppHead + (code + MainTail);
    } else if language == "c" && !Contains(code, "#include") {
      HeadContained(CHead, code + MainTail, "#include");
      assert CHead + code + MainTail == CHead + (code + MainTail);
    }
  }

  // ---------------------------------------------------------------------------------------------
  // Execution.

  /** The body posted to the execution service; the version is undefined for a language outside the table. */
  datatype RunRequest = RunRequest(language: string, version: Option<string>, content: string)

  /** The result handed back: the output shown, or the error shown. */
  datatype Execution = Ran(output: Json) | Failed(error: Json)

  const MySqlPreview :=
    "MySQL query validation successful.\nNote: This is a preview mode. The query will be executed in your database when integrated."
  const NoOutputMessage := "Program executed successfully with no output."
  const ExecutionFailedMessage := "Failed to execute code. Please try again."

  /** The request `executeCode` posts for a language other than MySQL. */
  function RequestFor(code: string, language: string): (q: RunRequest)
    ensures q.language == language && Contains(q.content, code)
    ensures q.version.Some? <==> language in LanguageVersions
  {
    BoilerplateKeepsCode(code, language);
    RunRequest(language,
               if language in LanguageVersions then Some(LanguageVersions[language]) else None,
               AddLanguageBoilerplate(code, language))
  }

  /**
   * `executeCode`. `post` stands for the request: the reply's `data`, or, when the request throws, the
   * error's `response.data.message` (None when there is none). Reading `data.run.stderr` from a reply
   * without a `run` object throws as well, and that error carries no response.
   */
  function ExecuteCode(code: string, language: string, post: RunRequest -> Result<Json, Option<Json>>): (r: Execution)
    ensures language == "mysql" ==> r == Ran(JString(MySqlPreview))
    ensures r.Ran? ==> Truthy(Some(r.output))
    ensures r.Failed? ==> Truthy(Some(r.error))
    ensures language != "mysql" && post(RequestFor(code, language)).Failure? ==>
              r == Failed(OrElse(post(RequestFor(code, language)).error, JString(ExecutionFailedMessage)))
    ensures language != "mysql" && post(RequestFor(code, language)).Success? ==>
              var data := post(RequestFor(code, language)).value;
              (data.JNull? || Member(data, "run").value.None? || Member(data, "run").value.value.JNull? ==>
                 r == Failed(JString(ExecutionFailedMessage)))
  {
    if language == "mysql" then Ran(JString(MySqlPreview))
    else
      match post(RequestFor(code, language))
      case Failure(message) => Failed(OrElse(message, JString(ExecutionFailedMessage)))
      case Success(data) =>
        var run := Member(data, "run");
        if run.Failure? || run.value.None? || run.value.value.JNull? then
          Failed(JString(ExecutionFailedMessage))
        else
          var stderr := Member(run.value.value, "stderr").value;
          if Truthy(stderr) then Failed(stderr.value)
          else Ran(OrElse(Member(run.value.value, "stdout").value, JString(NoOutputMessage)))
  }

  /** MySQL makes no request: the result does not depend on the service at all. */
  lemma MySqlMakesNoRequest(code: string, post1: RunRequest -> Result<Json, Option<Json>>,
                            post2: RunRequest -> Result<Json, Option<Json>>)
    ensures ExecuteCode(code, "mysql", post1) == ExecuteCode(code, "mysql", post2)
  {
  }

  /**
   * For a reply whose `run` object is present: a non-empty error stream fails with that stream; otherwise
   * the output is shown, or the no-output message when it is empty.
   */
  lemma ExecuteCodeReply(code: string, language: string, post: RunRequest -> Result<Json, Option<Json>>,
                         stdout: string, stderr: string)
    requires language != "mysql"
    requires post(RequestFor(code, language)) ==
               Success(JObject(map["run" := JObject(map["stdout" := JString(stdout), "stderr" := JString(stderr)])]))
    ensures stderr != "" ==> ExecuteCode(code, language, post) == Failed(JString(stderr))
    ensures stderr == "" && stdout != "" ==> ExecuteCode(code, language, post) == Ran(JString(stdout))
    ensures stderr == "" && stdout == "" ==> ExecuteCode(code, language, post) == Ran(JString(NoOutputMessage))
  {
  }
}
