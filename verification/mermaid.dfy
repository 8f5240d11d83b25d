/**
 * The chart text handed to the diagram renderer: the code fence the generator may wrap it in is
 * removed, the text trimmed, and a top-down graph header put in front when it lacks one.
 */
module Mermaid {
  import opened Wrappers
  import opened Text

  const OpeningFence := "```mermaid"
  const ClosingFence := "```"
  const GraphHeader := "graph TD"

  /** `replace(/^```mermaid\n?/, '')`: the opening fence, with the newline after it when there is one, only at the start. */
  function StripOpeningFence(chart: string): string {
    if StartsWith(chart, OpeningFence + "\n") then chart[|OpeningFence| + 1..]
    else if StartsWith(chart, OpeningFence) then chart[|OpeningFence|..]
    else chart
  }

  /** `replace(/```$/, '')`: the closing fence, only as the last three characters, and once. */
  function StripClosingFence(chart: string): string {
    if EndsWith(chart, ClosingFence) then chart[..|chart| - |ClosingFence|] else chart
  }

  /** The chart with its fences removed and trimmed. */
  function CleanChart(chart: string): string {
    Trim(StripClosingFence(StripOpeningFence(chart)))
  }

  /**
   * The text `renderChart` renders: nothing for an empty chart; otherwise the cleaned chart, behind
   * `graph TD` and a newline unless it already starts with `graph TD`.
   */
  function ProcessChart(chart: string): (r: Option<string>)
    ensures r.None? <==> chart == ""
    ensures r.Some? ==> StartsWith(r.value, GraphHeader)
  {
    if chart == "" then None
    else
      var processed := CleanChart(chart);
      if StartsWith(processed, GraphHeader) then Some(processed)
      else
        StartsWithAppend(GraphHeader, "\n" + processed);
        assert GraphHeader + "\n" + processed == GraphHeader + ("\n" + processed);
        Some(GraphHeader + "\n" + processed)
  }

  /** The header is added exactly when the cleaned chart lacks it, so it is never doubled. */
  lemma HeaderNotDuplicated(chart: string)
    requires chart != ""
    ensures StartsWith(CleanChart(chart), GraphHeader) ==> ProcessChart(chart) == Some(CleanChart(chart))
    ensures !StartsWith(CleanChart(chart), GraphHeader) ==> ProcessChart(chart) == Some(GraphHeader + "\n" + CleanChart(chart))
  {
  }

  /** The opening fence is removed with the newline after it. */
  lemma OpeningFenceWithNewline(rest: string)
    ensures StripOpeningFence(OpeningFence + "\n" + rest) == rest
  {
    StartsWithAppend(OpeningFence + "\n", rest);
  }

  /** Without a newline after it, the opening fence alone is removed. */
  lemma OpeningFenceAlone(rest: string)
    requires rest == [] || rest[0] != '\n'
    ensures StripOpeningFence(OpeningFence + rest) == rest
  {
    var s := OpeningFence + rest;
    StartsWithAppend(OpeningFence, rest);
  }

  /** A fence that is not at the very start stays. */
  lemma OpeningFenceOnlyAtStart(chart: string)
    requires !StartsWith(chart, OpeningFence)
    ensures StripOpeningFence(chart) == chart
  {
  }

  /** Exactly one closing fence is removed, even when another comes before it. */
  lemma ClosingFenceOnce(rest: string)
    ensures StripClosingFence(rest + ClosingFence) == rest
  {
    EndsWithAppend(rest, ClosingFence);
    assert (rest + ClosingFence)[..|rest|] == rest;
  }

  /** A closing fence that is not at the very end stays. */
  lemma ClosingFenceOnlyAtEnd(chart: string)
    requires !EndsWith(chart, ClosingFence)
    ensures StripClosingFence(chart) == chart
  {
  }
}
