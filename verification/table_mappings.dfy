/** The registry of change-log tables the application offers, their display
    names, and the automatic name clean-up used for tables without one. */
module TableMappings {
  import opened Strings

  /** The tables offered for selection, in the order they are offered. */
  const AvailableTables: seq<string> := [
    "sp_campaign_details_v2_changes_log",
    "sp_campaign_targeting_v2_changes_log",
    "sp_campaign_creative_v2_changes_log",
    "sp_campaign_budget_v2_changes_log"
  ]

  /** Hand-written display names. */
  const TableDisplayNames: map<string, string> := map[
    "sp_campaign_details_v2_changes_log" := "Campaign Details",
    "sp_campaign_targeting_v2_changes_log" := "Campaign Targeting",
    "sp_campaign_creative_v2_changes_log" := "Campaign Creative",
    "sp_campaign_budget_v2_changes_log" := "Campaign Budget"
  ]

  const LogSuffix := "_changes_log"

  /** The clean-up applied to a table name that has no hand-written display
      name: drop every "_changes_log", turn every underscore into a space,
      then title-case. The same clean-up labels per-table counts in the
      summary statistics text. */
  function CleanTableName(table: string): string {
    Title(Replace(Replace(table, LogSuffix, ""), "_", " "))
  }

  /** The display name of a table. */
  function GetDisplayName(table: string): (r: string)
    ensures table in TableDisplayNames ==> r == TableDisplayNames[table]
    ensures table !in TableDisplayNames ==> r == CleanTableName(table)
  {
    if table in TableDisplayNames then TableDisplayNames[table] else CleanTableName(table)
  }

  /** The UI choices: one (display name, table) pair per available table,
      in the same order. */
  function GetTableChoices(): (r: seq<(string, string)>)
    ensures |r| == |AvailableTables|
    ensures forall i :: 0 <= i < |r| ==> r[i].1 == AvailableTables[i]
    ensures forall i :: 0 <= i < |r| ==> r[i].0 == GetDisplayName(AvailableTables[i])
  {
    seq(|AvailableTables|, i requires 0 <= i < |AvailableTables| =>
      (GetDisplayName(AvailableTables[i]), AvailableTables[i]))
  }

  /** The cleaned-up name has no underscore left, has the length of the name
      with every "_changes_log" dropped, and keeps every non-letter of that
      shortened name where it was (underscores having become spaces). */
  lemma CleanTableNameShape(table: string)
    ensures var stem := Replace(table, LogSuffix, "");
      var r := CleanTableName(table);
      && |r| == |stem|
      && (forall i :: 0 <= i < |r| ==> r[i] != '_')
      && (forall i :: 0 <= i < |r| && stem[i] == '_' ==> r[i] == ' ')
      && (forall i :: 0 <= i < |r| && !IsLetter(stem[i]) && stem[i] != '_' ==> r[i] == stem[i])
  {
    var stem := Replace(table, LogSuffix, "");
    var spaced := Replace(stem, "_", " ");
    ReplaceChar(stem, '_', ' ');
    assert "_" == ['_'] && " " == [' '];
    TitleShape(spaced, false);
    var r := CleanTableName(table);
    forall i | 0 <= i < |r|
      ensures r[i] != '_'
    {
      if IsLetter(spaced[i]) {
        assert IsLetter(r[i]) by {
          var wordStart := if i == 0 then true else !IsLetter(spaced[i - 1]);
          assert r[i] == if wordStart then ToUpper(spaced[i]) else ToLower(spaced[i]);
        }
      }
    }
  }

  /** Every available table has a hand-written display name, so no choice
      ever shows the automatic clean-up. */
  lemma ChoicesUseHandWrittenNames()
    ensures forall t :: t in AvailableTables ==> t in TableDisplayNames
    ensures forall i :: 0 <= i < |GetTableChoices()| ==>
      GetTableChoices()[i] == (TableDisplayNames[AvailableTables[i]], AvailableTables[i])
  {
  }
}
