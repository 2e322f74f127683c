/** The structured result of a campaign analysis: default substitution on
    construction, the markdown text shown to the user, and the dictionary
    form.
 */
module Response {
  import opened Wrappers
  import opened Strings

  const NoSummary := "No summary available"
  const NoHistory := "No change history available"

  const SummaryHeading := "**Summary:**\n"
  const HistoryHeading := "**\U{1F4CB} Change History:**\n"
  const InsightsHeading := "**\U{1F4A1} Key Insights:**\n"

  datatype AnalysisResponse = AnalysisResponse(
    summary: string,
    changeHistory: string,
    keyInsights: seq<string>,
    rawResponse: Option<string>)

  /** An optional list is truthy when it is present and not empty. */
  predicate TruthyList(o: Option<seq<string>>) {
    o.Some? && |o.value| > 0
  }

  /** The constructor: a falsy summary, history or insight list is replaced
      by its default; the raw response is kept as given. */
  function Make(summary: Option<string>, changeHistory: Option<string>,
                keyInsights: Option<seq<string>>, rawResponse: Option<string>): (r: AnalysisResponse)
    ensures Truthy(summary) ==> r.summary == summary.value
    ensures !Truthy(summary) ==> r.summary == NoSummary
    ensures Truthy(changeHistory) ==> r.changeHistory == changeHistory.value
    ensures !Truthy(changeHistory) ==> r.changeHistory == NoHistory
    ensures TruthyList(keyInsights) ==> r.keyInsights == keyInsights.value
    ensures !TruthyList(keyInsights) ==> r.keyInsights == []
    ensures r.rawResponse == rawResponse
    ensures r.summary != "" && r.changeHistory != ""
  {
    AnalysisResponse(
      OrElse(summary, NoSummary),
      OrElse(changeHistory, NoHistory),
      if TruthyList(keyInsights) then keyInsights.value else [],
      rawResponse)
  }

  /** The response built with no arguments. */
  function Default(): AnalysisResponse {
    Make(None, None, None, None)
  }

  /** Building again from a built response's own fields changes nothing. */
  lemma MakeIsStable(summary: Option<string>, changeHistory: Option<string>,
                     keyInsights: Option<seq<string>>, rawResponse: Option<string>)
    ensures var r := Make(summary, changeHistory, keyInsights, rawResponse);
      Make(Some(r.summary), Some(r.changeHistory), Some(r.keyInsights), r.rawResponse) == r
  {
  }

  // ---------------------------------------------------------------------
  // to_formatted_text

  function SummarySection(r: AnalysisResponse): string {
    SummaryHeading + r.summary + "\n\n"
  }

  /** The history section is shown unless the history is empty or the
      placeholder. */
  function HistorySection(r: AnalysisResponse): (s: string)
    ensures s == "" <==> r.changeHistory == "" || r.changeHistory == NoHistory
    ensures s != "" ==> StartsWith(s, HistoryHeading)
  {
    if r.changeHistory != "" && r.changeHistory != NoHistory then
      var s := HistoryHeading + r.changeHistory + "\n\n";
      assert s[..|HistoryHeading|] == HistoryHeading;
      s
    else ""
  }

  function Bullet(insight: string): string {
    "• " + insight + "\n"
  }

  /** The bullet lines of the insights, in order. */
  function Bullets(insights: seq<string>): (r: seq<string>)
    ensures |r| == |insights|
    ensures forall i :: 0 <= i < |r| ==> r[i] == Bullet(insights[i])
  {
    seq(|insights|, i requires 0 <= i < |insights| => Bullet(insights[i]))
  }

  /** The insights section is shown exactly when there are insights. */
  function InsightsSection(r: AnalysisResponse): (s: string)
    ensures s == "" <==> |r.keyInsights| == 0
    ensures s != "" ==> StartsWith(s, InsightsHeading) && EndsWith(s, "\n")
  {
    if |r.keyInsights| > 0 then
      var s := InsightsHeading + Concat(Bullets(r.keyInsights)) + "\n";
      assert s[..|InsightsHeading|] == InsightsHeading;
      assert s[|s| - 1..] == "\n";
      s
    else ""
  }

  /** The markdown text, built up the way the display code appends to it. */
  method ToFormattedText(r: AnalysisResponse) returns (text: string)
    ensures text == SummarySection(r) + HistorySection(r) + InsightsSection(r)
    ensures StartsWith(text, SummaryHeading + r.summary + "\n\n")
  {
    text := SummaryHeading + r.summary + "\n\n";
    if r.changeHistory != "" && r.changeHistory != NoHistory {
      text := text + HistoryHeading;
      text := text + r.changeHistory + "\n\n";
    }
    assert text == SummarySection(r) + HistorySection(r);
    if |r.keyInsights| > 0 {
      text := text + InsightsHeading;
      var bullets := BulletText(r.keyInsights);
      text := text + bullets + "\n";
    }
    assert text == SummarySection(r) + HistorySection(r) + InsightsSection(r);
    assert text[..|SummarySection(r)|] == SummarySection(r);
  }

  /** The bullet lines joined, accumulated one insight at a time. */
  method BulletText(insights: seq<string>) returns (bullets: string)
    ensures bullets == Concat(Bullets(insights))
  {
    bullets := "";
    var i := 0;
    while i < |insights|
      invariant 0 <= i <= |insights|
      invariant bullets == Concat(Bullets(insights)[..i])
    {
      ConcatSnoc(Bullets(insights), i);
      bullets := bullets + Bullet(insights[i]);
      i := i + 1;
    }
    assert Bullets(insights)[..i] == Bullets(insights);
  }

  /** A response built with no arguments formats to its summary alone. */
  lemma DefaultText()
    ensures SummarySection(Default()) + HistorySection(Default()) + InsightsSection(Default())
         == SummaryHeading + NoSummary + "\n\n"
  {
    var d := Default();
    assert d == AnalysisResponse(NoSummary, NoHistory, [], None);
    assert HistorySection(d) == "" && InsightsSection(d) == "";
    assert SummarySection(d) + "" + "" == SummarySection(d);
  }

  /** The history section never shows the placeholder: a response built
      without a history has none. */
  lemma NoHistoryWithoutOne(summary: Option<string>, keyInsights: Option<seq<string>>, rawResponse: Option<string>)
    ensures HistorySection(Make(summary, None, keyInsights, rawResponse)) == ""
    ensures HistorySection(Make(summary, Some(""), keyInsights, rawResponse)) == ""
  {
  }

  // ---------------------------------------------------------------------
  // to_dict

  /** A value of the dictionary form. */
  datatype DictValue = Text(s: string) | TextList(items: seq<string>) | NoneValue

  const DictKeys: set<string> := {"summary", "change_history", "key_insights", "raw_response"}

  function ToDict(r: AnalysisResponse): (d: map<string, DictValue>)
    ensures d.Keys == DictKeys
    ensures d["summary"] == Text(r.summary) && d["change_history"] == Text(r.changeHistory)
    ensures d["key_insights"] == TextList(r.keyInsights)
    ensures d["raw_response"] == if r.rawResponse.Some? then Text(r.rawResponse.value) else NoneValue
  {
    map[
      "summary" := Text(r.summary),
      "change_history" := Text(r.changeHistory),
      "key_insights" := TextList(r.keyInsights),
      "raw_response" := if r.rawResponse.Some? then Text(r.rawResponse.value) else NoneValue]
  }

  /** Reads a response back from its dictionary form. */
  function FromDict(d: map<string, DictValue>): Option<AnalysisResponse> {
    if DictKeys <= d.Keys && d["summary"].Text? && d["change_history"].Text?
       && d["key_insights"].TextList? && !d["raw_response"].TextList?
    then
      Some(AnalysisResponse(
        d["summary"].s,
        d["change_history"].s,
        d["key_insights"].items,
        if d["raw_response"].Text? then Some(d["raw_response"].s) else None))
    else None
  }

  /** The dictionary form loses nothing. */
  lemma DictRoundTrip(r: AnalysisResponse)
    ensures FromDict(ToDict(r)) == Some(r)
  {
  }
}
