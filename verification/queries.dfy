/** Change records as the campaign-changes query returns them, their grouping
    into sessions that share an exact (update time, update user) pair, the
    plain-text narrative of those sessions, and the summary statistics.

    Timestamps are integers: only their order matters here. A nullable column
    is an Option; like pandas' `groupby`, `nunique` and `value_counts`, the
    model skips records whose grouping or counted column is null.
 */
module Queries {
  import opened Wrappers
  import opened Strings
  import Tally

  /** One row of a change-log table. */
  datatype ChangeRecord = ChangeRecord(
    campaignId: int,
    fieldName: Option<string>,
    oldValue: Option<string>,
    newValue: Option<string>,
    updateTime: Option<int>,
    updateUser: Option<string>)

  /** The per-field part of a record kept inside a group. */
  datatype FieldChange = FieldChange(
    fieldName: Option<string>,
    oldValue: Option<string>,
    newValue: Option<string>)

  /** A grouping key: an update time and an update user. */
  type Key = (int, string)

  /** All records of one (update time, update user) pair. */
  datatype ChangeGroup = ChangeGroup(
    updateTime: int,
    updateUser: string,
    campaignId: int,
    changesCount: nat,
    changes: seq<FieldChange>)
  {
    function Key(): Key {
      (updateTime, updateUser)
    }
  }

  function FieldChangeOf(c: ChangeRecord): FieldChange {
    FieldChange(c.fieldName, c.oldValue, c.newValue)
  }

  function Project(cs: seq<ChangeRecord>): (r: seq<FieldChange>)
    ensures |r| == |cs|
    ensures forall i :: 0 <= i < |cs| ==> r[i] == FieldChangeOf(cs[i])
  {
    seq(|cs|, i requires 0 <= i < |cs| => FieldChangeOf(cs[i]))
  }

  // ---------------------------------------------------------------------
  // Keys

  /** A record takes part in grouping only when both key columns are set. */
  predicate IsKeyed(c: ChangeRecord) {
    c.updateTime.Some? && c.updateUser.Some?
  }

  predicate HasKey(c: ChangeRecord, k: Key) {
    c.updateTime == Some(k.0) && c.updateUser == Some(k.1)
  }

  /** The number of records that take part in grouping. */
  function CountKeyed(cs: seq<ChangeRecord>): nat
    decreases |cs|
  {
    if |cs| == 0 then 0 else (if IsKeyed(cs[0]) then 1 else 0) + CountKeyed(cs[1..])
  }

  /** The records carrying key `k`, in input order: each as often as it
      occurs in `cs`. */
  function Members(cs: seq<ChangeRecord>, k: Key): (r: seq<ChangeRecord>)
    ensures |r| <= |cs|
    ensures forall c :: c in r ==> c in cs && HasKey(c, k)
    ensures (exists c :: c in cs && HasKey(c, k)) ==> |r| > 0
    decreases |cs|
  {
    if |cs| == 0 then []
    else
      var rest := Members(cs[1..], k);
      assert forall c :: c in cs && c != cs[0] ==> c in cs[1..];
      MemberOf(cs[0], k) + rest
  }

  /** Every record carrying key `k` is a member exactly as often as it
      occurs in `cs`, and no other record is. */
  lemma {:induction false} MembersCount(cs: seq<ChangeRecord>, k: Key)
    ensures forall c :: multiset(Members(cs, k))[c] == if HasKey(c, k) then multiset(cs)[c] else 0
    decreases |cs|
  {
    if |cs| > 0 {
      MembersCount(cs[1..], k);
      assert cs == [cs[0]] + cs[1..];
      assert multiset(cs) == multiset{cs[0]} + multiset(cs[1..]);
      assert multiset(Members(cs, k)) == multiset(MemberOf(cs[0], k)) + multiset(Members(cs[1..], k));
    }
  }

  /** The record itself when it carries key `k`. */
  function MemberOf(c: ChangeRecord, k: Key): seq<ChangeRecord> {
    if HasKey(c, k) then [c] else []
  }

  /** Selecting the members of a concatenation concatenates the selections,
      so members keep their input order. */
  lemma {:induction false} MembersAppend(a: seq<ChangeRecord>, b: seq<ChangeRecord>, k: Key)
    ensures Members(a + b, k) == Members(a, k) + Members(b, k)
    decreases |a|
  {
    if |a| == 0 {
      assert a + b == b;
    } else {
      assert (a + b)[0] == a[0];
      assert (a + b)[1..] == a[1..] + b;
      MembersAppend(a[1..], b, k);
      var head := MemberOf(a[0], k);
      calc {
        Members(a + b, k);
        head + Members(a[1..] + b, k);
        head + (Members(a[1..], k) + Members(b, k));
        (head + Members(a[1..], k)) + Members(b, k);
      }
    }
  }

  predicate Distinct(ks: seq<Key>) {
    forall i, j :: 0 <= i < j < |ks| ==> ks[i] != ks[j]
  }

  /** The keys that occur in `cs`, each once. */
  function DistinctKeys(cs: seq<ChangeRecord>): (r: seq<Key>)
    ensures Distinct(r)
    ensures forall k :: k in r <==> exists c :: c in cs && HasKey(c, k)
    decreases |cs|
  {
    if |cs| == 0 then []
    else
      var rest := DistinctKeys(cs[1..]);
      assert forall c :: c in cs <==> c == cs[0] || c in cs[1..];
      var c := cs[0];
      if IsKeyed(c) then
        var k0 := (c.updateTime.value, c.updateUser.value);
        assert HasKey(c, k0);
        assert forall k :: HasKey(c, k) ==> k == k0;
        if k0 !in rest then [k0] + rest else rest
      else
        assert forall k :: !HasKey(c, k);
        rest
  }

  // ---------------------------------------------------------------------
  // Order of groups: newest first; equal times by ascending user, which is
  // the order pandas visits the groups in before the stable sort on time.

  predicate KeyBefore(a: Key, b: Key) {
    a.0 > b.0 || (a.0 == b.0 && StrLess(a.1, b.1))
  }

  lemma KeyBeforeIrreflexive(a: Key)
    ensures !KeyBefore(a, a)
  {
    StrLessIrreflexive(a.1);
  }

  lemma KeyBeforeTransitive(a: Key, b: Key, c: Key)
    requires KeyBefore(a, b) && KeyBefore(b, c)
    ensures KeyBefore(a, c)
  {
    if a.0 == b.0 && b.0 == c.0 {
      StrLessTransitive(a.1, b.1, c.1);
    }
  }

  lemma KeyBeforeTotal(a: Key, b: Key)
    requires a != b
    ensures KeyBefore(a, b) || KeyBefore(b, a)
  {
    if a.0 == b.0 {
      StrLessTotal(a.1, b.1);
    }
  }

  predicate StrictlySorted(ks: seq<Key>) {
    forall i, j :: 0 <= i < j < |ks| ==> KeyBefore(ks[i], ks[j])
  }

  lemma BeforeHeadBeforeAll(k: Key, ks: seq<Key>)
    requires StrictlySorted(ks) && |ks| > 0 && KeyBefore(k, ks[0])
    ensures forall j :: 0 <= j < |ks| ==> KeyBefore(k, ks[j])
  {
    forall j | 0 < j < |ks|
      ensures KeyBefore(k, ks[j])
    {
      KeyBeforeTransitive(k, ks[0], ks[j]);
    }
  }

  /** Inserts a key into a sequence sorted by `KeyBefore`. */
  function InsertKey(k: Key, ks: seq<Key>): seq<Key>
    decreases |ks|
  {
    if |ks| == 0 then [k]
    else if KeyBefore(k, ks[0]) then [k] + ks
    else [ks[0]] + InsertKey(k, ks[1..])
  }

  lemma {:induction false} InsertKeyPermutes(k: Key, ks: seq<Key>)
    ensures multiset(InsertKey(k, ks)) == multiset(ks) + multiset{k}
    decreases |ks|
  {
    if |ks| > 0 && !KeyBefore(k, ks[0]) {
      InsertKeyPermutes(k, ks[1..]);
      assert ks == [ks[0]] + ks[1..];
    }
  }

  lemma SortedTail(ks: seq<Key>)
    requires StrictlySorted(ks) && |ks| > 0
    ensures StrictlySorted(ks[1..])
  {
    forall i, j | 0 <= i < j < |ks| - 1
      ensures KeyBefore(ks[1..][i], ks[1..][j])
    {
      assert ks[1..][i] == ks[i + 1] && ks[1..][j] == ks[j + 1];
    }
  }

  /** `x` followed by a sorted sequence whose every element comes after `x`
      is sorted. */
  lemma SortedCons(x: Key, ks: seq<Key>)
    requires StrictlySorted(ks)
    requires forall j :: 0 <= j < |ks| ==> KeyBefore(x, ks[j])
    ensures StrictlySorted([x] + ks)
  {
    var r := [x] + ks;
    forall i, j | 0 <= i < j < |r|
      ensures KeyBefore(r[i], r[j])
    {
      assert r[j] == ks[j - 1];
      if i > 0 {
        assert r[i] == ks[i - 1];
      }
    }
  }

  /** Inserting a new key keeps the sequence strictly sorted. */
  lemma {:induction false} InsertKeySorted(k: Key, ks: seq<Key>)
    requires StrictlySorted(ks) && k !in ks
    ensures StrictlySorted(InsertKey(k, ks))
    decreases |ks|
  {
    if |ks| == 0 {
    } else if KeyBefore(k, ks[0]) {
      BeforeHeadBeforeAll(k, ks);
      SortedCons(k, ks);
    } else {
      KeyBeforeTotal(k, ks[0]);
      var tail := ks[1..];
      SortedTail(ks);
      InsertKeySorted(k, tail);
      InsertKeyPermutes(k, tail);
      var rest := InsertKey(k, tail);
      forall j | 0 <= j < |rest|
        ensures KeyBefore(ks[0], rest[j])
      {
        assert rest[j] in multiset(rest);
        if rest[j] != k {
          assert rest[j] in multiset(tail);
          var m :| 0 <= m < |tail| && tail[m] == rest[j];
          assert ks[m + 1] == rest[j];
        }
      }
      SortedCons(ks[0], rest);
    }
  }

  /** Sorts keys by insertion. */
  function SortKeys(ks: seq<Key>): seq<Key>
    decreases |ks|
  {
    if |ks| == 0 then [] else InsertKey(ks[0], SortKeys(ks[1..]))
  }

  /** Sorting distinct keys gives the same keys, strictly sorted. */
  lemma {:induction false} SortKeysSpec(ks: seq<Key>)
    requires Distinct(ks)
    ensures StrictlySorted(SortKeys(ks))
    ensures multiset(SortKeys(ks)) == multiset(ks)
    decreases |ks|
  {
    if |ks| > 0 {
      assert ks == [ks[0]] + ks[1..];
      assert Distinct(ks[1..]) by {
        forall i, j | 0 <= i < j < |ks| - 1
          ensures ks[1..][i] != ks[1..][j]
        {
          assert ks[1..][i] == ks[i + 1] && ks[1..][j] == ks[j + 1];
        }
      }
      SortKeysSpec(ks[1..]);
      var rest := SortKeys(ks[1..]);
      assert ks[0] !in rest by {
        assert ks[0] !in multiset(ks[1..]);
      }
      InsertKeySorted(ks[0], rest);
      InsertKeyPermutes(ks[0], rest);
    }
  }

  /** The keys of the records, newest first, equal times by ascending user. */
  function GroupKeys(cs: seq<ChangeRecord>): (ks: seq<Key>)
    ensures StrictlySorted(ks)
    ensures forall k :: k in ks <==> exists c :: c in cs && HasKey(c, k)
  {
    var dk := DistinctKeys(cs);
    SortKeysSpec(dk);
    var ks := SortKeys(dk);
    assert forall k :: k in ks <==> k in dk by {
      forall k
        ensures k in ks <==> k in dk
      {
        assert k in ks <==> k in multiset(ks);
        assert k in dk <==> k in multiset(dk);
      }
    }
    ks
  }

  // ---------------------------------------------------------------------
  // group_changes_by_time

  /** The group of key `k`: its records in input order, the campaign of the
      first of them. */
  function GroupOf(cs: seq<ChangeRecord>, k: Key): ChangeGroup
    requires |Members(cs, k)| > 0
  {
    var ms := Members(cs, k);
    ChangeGroup(k.0, k.1, ms[0].campaignId, |ms|, Project(ms))
  }

  function GroupAll(cs: seq<ChangeRecord>, ks: seq<Key>): (r: seq<ChangeGroup>)
    requires forall k :: k in ks ==> |Members(cs, k)| > 0
    ensures |r| == |ks|
    ensures forall i :: 0 <= i < |ks| ==> r[i] == GroupOf(cs, ks[i])
    decreases |ks|
  {
    if |ks| == 0 then [] else [GroupOf(cs, ks[0])] + GroupAll(cs, ks[1..])
  }

  /** Groups records by their exact (update time, update user) pair, newest
      group first; records with a null time or user are in no group. */
  function GroupChangesByTime(cs: seq<ChangeRecord>): (r: seq<ChangeGroup>)
    ensures |cs| == 0 ==> r == []
    ensures |r| == |GroupKeys(cs)|
    ensures forall i :: 0 <= i < |r| ==> r[i].Key() == GroupKeys(cs)[i]
  {
    if |cs| == 0 then [] else GroupAll(cs, GroupKeys(cs))
  }

  /** Each group holds exactly the records of its key, in input order: its
      count is the number of those records, its campaign that of the first. */
  lemma GroupContents(cs: seq<ChangeRecord>, i: nat)
    requires i < |GroupChangesByTime(cs)|
    ensures var g := GroupChangesByTime(cs)[i];
      var ms := Members(cs, g.Key());
      && |ms| > 0
      && g.changesCount == |g.changes| == |ms|
      && g.changes == Project(ms)
      && g.campaignId == ms[0].campaignId
  {
    var ks := GroupKeys(cs);
    assert ks[i] in ks;
    assert GroupChangesByTime(cs) == GroupAll(cs, ks);
  }

  /** Groups come newest first, and no two groups share a key. */
  lemma GroupsOrderedAndDistinct(cs: seq<ChangeRecord>)
    ensures var r := GroupChangesByTime(cs);
      && (forall i, j :: 0 <= i < j < |r| ==> r[i].updateTime >= r[j].updateTime)
      && (forall i, j :: 0 <= i < j < |r| ==> r[i].Key() != r[j].Key())
  {
    var r := GroupChangesByTime(cs);
    var ks := GroupKeys(cs);
    forall i, j | 0 <= i < j < |r|
      ensures r[i].updateTime >= r[j].updateTime && r[i].Key() != r[j].Key()
    {
      assert KeyBefore(ks[i], ks[j]);
      KeyBeforeIrreflexive(ks[i]);
    }
  }

  /** Every record with a non-null time and user belongs to a group, and
      every group's key is carried by some record. */
  lemma GroupsCoverKeyedRecords(cs: seq<ChangeRecord>)
    ensures var r := GroupChangesByTime(cs);
      && (forall c :: c in cs && IsKeyed(c) ==>
            exists i :: 0 <= i < |r| && HasKey(c, r[i].Key()))
      && (forall i :: 0 <= i < |r| ==> exists c :: c in cs && HasKey(c, r[i].Key()))
  {
    var r := GroupChangesByTime(cs);
    var ks := GroupKeys(cs);
    forall c | c in cs && IsKeyed(c)
      ensures exists i :: 0 <= i < |r| && HasKey(c, r[i].Key())
    {
      var k := (c.updateTime.value, c.updateUser.value);
      assert HasKey(c, k);
      assert k in ks;
      var i :| 0 <= i < |ks| && ks[i] == k;
      assert r[i].Key() == k;
    }
    forall i | 0 <= i < |r|
      ensures exists c :: c in cs && HasKey(c, r[i].Key())
    {
      assert ks[i] in ks;
    }
  }

  function SumCounts(gs: seq<ChangeGroup>): nat
    decreases |gs|
  {
    if |gs| == 0 then 0 else gs[0].changesCount + SumCounts(gs[1..])
  }

  /** The number of records carrying one of the keys `ks`. */
  function SumMembers(cs: seq<ChangeRecord>, ks: seq<Key>): nat
    decreases |ks|
  {
    if |ks| == 0 then 0 else |Members(cs, ks[0])| + SumMembers(cs, ks[1..])
  }

  /** The number of records whose key is among `ks`. */
  function CountKeyedIn(cs: seq<ChangeRecord>, ks: seq<Key>): nat
    decreases |cs|
  {
    if |cs| == 0 then 0
    else
      var c := cs[0];
      (if IsKeyed(c) && (c.updateTime.value, c.updateUser.value) in ks then 1 else 0)
      + CountKeyedIn(cs[1..], ks)
  }

  /** A record matches at most one key of a duplicate-free key list. */
  lemma {:induction false} MatchesOnce(c: ChangeRecord, ks: seq<Key>)
    requires Distinct(ks)
    ensures SumMembers([c], ks) ==
      if IsKeyed(c) && (c.updateTime.value, c.updateUser.value) in ks then 1 else 0
    decreases |ks|
  {
    if |ks| > 0 {
      assert Distinct(ks[1..]) by {
        assert forall i, j :: 0 <= i < j < |ks| - 1 ==> ks[1..][i] == ks[i + 1] && ks[1..][j] == ks[j + 1];
      }
      MatchesOnce(c, ks[1..]);
      assert [c][1..] == [];
      assert |Members([c], ks[0])| == if HasKey(c, ks[0]) then 1 else 0;
      if HasKey(c, ks[0]) {
        assert ks[0] !in ks[1..];
      }
    }
  }

  lemma {:induction false} SumMembersSplit(c: ChangeRecord, cs: seq<ChangeRecord>, ks: seq<Key>)
    ensures SumMembers([c] + cs, ks) == SumMembers([c], ks) + SumMembers(cs, ks)
    decreases |ks|
  {
    if |ks| > 0 {
      SumMembersSplit(c, cs, ks[1..]);
      assert ([c] + cs)[1..] == cs;
      assert [c][1..] == [];
    }
  }

  lemma {:induction false} SumMembersCountsKeyed(cs: seq<ChangeRecord>, ks: seq<Key>)
    requires Distinct(ks)
    ensures SumMembers(cs, ks) == CountKeyedIn(cs, ks)
    decreases |cs|
  {
    if |cs| == 0 {
      SumMembersOfNothing(ks);
    } else {
      assert cs == [cs[0]] + cs[1..];
      SumMembersSplit(cs[0], cs[1..], ks);
      MatchesOnce(cs[0], ks);
      SumMembersCountsKeyed(cs[1..], ks);
    }
  }

  lemma {:induction false} SumMembersOfNothing(ks: seq<Key>)
    ensures SumMembers([], ks) == 0
    decreases |ks|
  {
    if |ks| > 0 {
      SumMembersOfNothing(ks[1..]);
    }
  }

  lemma {:induction false} CountKeyedInAll(cs: seq<ChangeRecord>, ks: seq<Key>)
    requires forall c :: c in cs && IsKeyed(c) ==> (c.updateTime.value, c.updateUser.value) in ks
    ensures CountKeyedIn(cs, ks) == CountKeyed(cs)
    decreases |cs|
  {
    if |cs| > 0 {
      CountKeyedInAll(cs[1..], ks);
    }
  }

  lemma {:induction false} SumCountsGroupAll(cs: seq<ChangeRecord>, ks: seq<Key>)
    requires forall k :: k in ks ==> |Members(cs, k)| > 0
    ensures SumCounts(GroupAll(cs, ks)) == SumMembers(cs, ks)
    decreases |ks|
  {
    if |ks| > 0 {
      SumCountsGroupAll(cs, ks[1..]);
      assert GroupAll(cs, ks)[1..] == GroupAll(cs, ks[1..]);
    }
  }

  /** Partition: every record with a non-null time and user lands in exactly
      one group, so the group sizes add up to the number of such records. */
  lemma GroupingIsPartition(cs: seq<ChangeRecord>)
    ensures SumCounts(GroupChangesByTime(cs)) == CountKeyed(cs)
  {
    if |cs| > 0 {
      var ks := GroupKeys(cs);
      assert Distinct(ks) by {
        forall i, j | 0 <= i < j < |ks|
          ensures ks[i] != ks[j]
        {
          KeyBeforeIrreflexive(ks[i]);
        }
      }
      assert GroupChangesByTime(cs) == GroupAll(cs, ks);
      SumCountsGroupAll(cs, ks);
      SumMembersCountsKeyed(cs, ks);
      forall c | c in cs && IsKeyed(c)
        ensures (c.updateTime.value, c.updateUser.value) in ks
      {
        assert HasKey(c, (c.updateTime.value, c.updateUser.value));
      }
      CountKeyedInAll(cs, ks);
    }
  }

  /** Every field change shown in a group comes from an input record whose
      time and user are exactly the group's. */
  lemma GroupMembersCarryTheKey(cs: seq<ChangeRecord>)
    ensures var r := GroupChangesByTime(cs);
      forall i, j :: 0 <= i < |r| && 0 <= j < |r[i].changes| ==>
        exists c :: c in cs && HasKey(c, r[i].Key()) && FieldChangeOf(c) == r[i].changes[j]
  {
    var r := GroupChangesByTime(cs);
    forall i, j | 0 <= i < |r| && 0 <= j < |r[i].changes|
      ensures exists c :: c in cs && HasKey(c, r[i].Key()) && FieldChangeOf(c) == r[i].changes[j]
    {
      var ms := Members(cs, r[i].Key());
      assert ms[j] in ms;
    }
  }

  /** Groups of the same update time are listed by ascending user name. */
  lemma EqualTimesByUser(cs: seq<ChangeRecord>)
    ensures var r := GroupChangesByTime(cs);
      forall i, j :: 0 <= i < j < |r| && r[i].updateTime == r[j].updateTime ==>
        StrLess(r[i].updateUser, r[j].updateUser)
  {
  }

  // ---------------------------------------------------------------------
  // format_changes_for_ai

  const NoChangesText := "No changes found for this campaign."

  const HeaderLead := "Campaign Changes Analysis:\nTotal change sessions: "

  function Header(sessions: nat): string {
    HeaderLead + NatToString(sessions) + "\n\n"
  }

  /** One field change: a falsy old or new value reads "[empty]", any other
      value is quoted verbatim. */
  function ChangeLine(ch: FieldChange): string {
    "    - " + ch.fieldName.GetOr("None") + ": '" + OrElse(ch.oldValue, "[empty]")
    + "' → '" + OrElse(ch.newValue, "[empty]") + "'\n"
  }

  function ChangeLines(chs: seq<FieldChange>): string
    decreases |chs|
  {
    if |chs| == 0 then "" else ChangeLine(chs[0]) + ChangeLines(chs[1..])
  }

  /** The opening line of the block numbered `n`. */
  function SessionHead(n: nat): string {
    "Session " + NatToString(n) + ":\n"
  }

  /** The time, user, change count and change lines of a group. */
  function SessionBody(g: ChangeGroup): string {
    "  Time: " + IntToString(g.updateTime) + "\n"
    + "  User: " + g.updateUser + "\n"
    + "  Changes: " + NatToString(g.changesCount) + " fields modified\n"
    + ChangeLines(g.changes) + "\n"
  }

  /** The block of the group numbered `n`. */
  function SessionBlock(n: nat, g: ChangeGroup): string {
    SessionHead(n) + SessionBody(g)
  }

  /** The blocks of the groups, numbered 1, 2, ... in list order. */
  function SessionBlocks(gs: seq<ChangeGroup>): (r: seq<string>)
    ensures |r| == |gs|
    ensures forall i :: 0 <= i < |gs| ==> r[i] == SessionBlock(i + 1, gs[i])
  {
    seq(|gs|, i requires 0 <= i < |gs| => SessionBlock(i + 1, gs[i]))
  }

  /** The block numbered `n` opens with "Session n:". */
  lemma SessionBlockOpens(n: nat, g: ChangeGroup)
    ensures StartsWith(SessionBlock(n, g), "Session " + NatToString(n) + ":\n")
  {
    assert SessionBlock(n, g)[..|SessionHead(n)|] == SessionHead(n);
  }

  /** Renders the groups as the numbered narrative given to the model. */
  method FormatChangesForAi(gs: seq<ChangeGroup>) returns (text: string)
    ensures |gs| == 0 ==> text == NoChangesText
    ensures |gs| > 0 ==> text == Header(|gs|) + Concat(SessionBlocks(gs))
  {
    if |gs| == 0 {
      return NoChangesText;
    }
    var blocks := SessionBlocks(gs);
    var body := "";
    var i := 0;
    assert blocks[..0] == [];
    while i < |gs|
      invariant 0 <= i <= |gs|
      invariant body == Concat(blocks[..i])
    {
      ConcatSnoc(blocks, i);
      body := body + blocks[i];
      i := i + 1;
    }
    assert blocks[..i] == blocks;
    text := Header(|gs|) + body;
  }

  /** The session count in the narrative's header reads back as the number
      of groups, and a narrative of groups is never the no-changes text. */
  lemma SessionCountReadsBack(gs: seq<ChangeGroup>, n: nat, rest: string)
    requires |gs| > 0
    requires Header(|gs|) + Concat(SessionBlocks(gs)) == HeaderLead + NatToString(n) + "\n" + rest
    ensures n == |gs|
    ensures Header(|gs|) + Concat(SessionBlocks(gs)) != NoChangesText
  {
    NumberAfterLead(HeaderLead, |gs|, "\n\n", Concat(SessionBlocks(gs)), n, "\n", rest);
    assert |NoChangesText| < |HeaderLead|;
  }

  /** A number between a fixed lead and a non-digit reads back. */
  lemma NumberAfterLead(p: string, a: nat, x: string, c: string, b: nat, y: string, d: string)
    requires |p| > 0 && |x| > 0 && |y| > 0 && !IsDigit(x[0]) && !IsDigit(y[0])
    ensures p + NatToString(a) + x + c == p + NatToString(b) + y + d ==> a == b
    ensures |p + NatToString(a) + x + c| > |p|
  {
    var sa, sb := NatToString(a), NatToString(b);
    assert p + sa + x + c == p + (sa + (x + c));
    assert p + sb + y + d == p + (sb + (y + d));
    if p + sa + x + c == p + sb + y + d {
      assert (p + (sa + (x + c)))[|p|..] == sa + (x + c);
      assert (p + (sb + (y + d)))[|p|..] == sb + (y + d);
      NumberThenNonDigit(a, b, x + c, y + d);
    }
  }

  // ---------------------------------------------------------------------
  // get_campaign_summary_stats

  /** The span of update times: the earliest and latest present time, or
      pandas' "not a time" when every time is null. */
  datatype DateRange = Span(earliest: int, latest: int) | NotATime

  /** The statistics dictionary; the three optional entries are missing when
      there are no records. */
  datatype SummaryStats = SummaryStats(
    totalChanges: nat,
    uniqueFields: nat,
    uniqueUsers: nat,
    dateRange: Option<DateRange>,
    mostChangedFields: Option<seq<(string, nat)>>,
    usersActivity: Option<seq<(string, nat)>>)

  /** The non-null field names of the records, in order. */
  function FieldNames(cs: seq<ChangeRecord>): (r: seq<string>)
    ensures forall n :: n in r <==> exists c :: c in cs && c.fieldName == Some(n)
    ensures |r| <= |cs|
    decreases |cs|
  {
    if |cs| == 0 then []
    else
      assert forall c :: c in cs <==> c == cs[0] || c in cs[1..];
      (if cs[0].fieldName.Some? then [cs[0].fieldName.value] else []) + FieldNames(cs[1..])
  }

  /** The non-null update users of the records, in order. */
  function Users(cs: seq<ChangeRecord>): (r: seq<string>)
    ensures forall n :: n in r <==> exists c :: c in cs && c.updateUser == Some(n)
    ensures |r| <= |cs|
    decreases |cs|
  {
    if |cs| == 0 then []
    else
      assert forall c :: c in cs <==> c == cs[0] || c in cs[1..];
      (if cs[0].updateUser.Some? then [cs[0].updateUser.value] else []) + Users(cs[1..])
  }

  /** The present update times. */
  function Times(cs: seq<ChangeRecord>): (r: seq<int>)
    ensures forall t :: t in r <==> exists c :: c in cs && c.updateTime == Some(t)
    decreases |cs|
  {
    if |cs| == 0 then []
    else
      assert forall c :: c in cs <==> c == cs[0] || c in cs[1..];
      (if cs[0].updateTime.Some? then [cs[0].updateTime.value] else []) + Times(cs[1..])
  }

  function Min(ts: seq<int>): (m: int)
    requires |ts| > 0
    ensures m in ts && forall t :: t in ts ==> m <= t
    decreases |ts|
  {
    if |ts| == 1 then ts[0]
    else
      assert forall t :: t in ts <==> t == ts[0] || t in ts[1..];
      var m := Min(ts[1..]);
      if ts[0] <= m then ts[0] else m
  }

  function Max(ts: seq<int>): (m: int)
    requires |ts| > 0
    ensures m in ts && forall t :: t in ts ==> t <= m
    decreases |ts|
  {
    if |ts| == 1 then ts[0]
    else
      assert forall t :: t in ts <==> t == ts[0] || t in ts[1..];
      var m := Max(ts[1..]);
      if ts[0] >= m then ts[0] else m
  }

  function DateRangeOf(cs: seq<ChangeRecord>): (r: DateRange)
    ensures r.NotATime? <==> forall c :: c in cs ==> c.updateTime.None?
    ensures r.Span? ==>
      && r.earliest <= r.latest
      && (exists c :: c in cs && c.updateTime == Some(r.earliest))
      && (exists c :: c in cs && c.updateTime == Some(r.latest))
      && (forall c :: c in cs && c.updateTime.Some? ==>
            r.earliest <= c.updateTime.value <= r.latest)
  {
    var ts := Times(cs);
    assert forall c :: c in cs && c.updateTime.Some? ==> c.updateTime.value in ts;
    if |ts| == 0 then
      NotATime
    else
      assert ts[0] in ts;
      assert forall c :: c in cs && c.updateTime.Some? ==> c.updateTime.value in ts;
      Span(Min(ts), Max(ts))
  }

  /** The summary statistics of the records: totals, distinct non-null
      field names and users, the span of update times, the five most changed
      fields and every user's number of changes. */
  function GetCampaignSummaryStats(cs: seq<ChangeRecord>): (r: SummaryStats)
    ensures |cs| == 0 ==> r == SummaryStats(0, 0, 0, None, None, None)
    ensures |cs| > 0 ==>
      && r.totalChanges == |cs|
      && r.uniqueFields <= r.totalChanges
      && r.uniqueUsers <= r.totalChanges
      && r.dateRange == Some(DateRangeOf(cs))
      && r.mostChangedFields.Some? && |r.mostChangedFields.value| <= 5
      && r.usersActivity.Some?
  {
    if |cs| == 0 then SummaryStats(0, 0, 0, None, None, None)
    else
      SummaryStats(
        |cs|,
        |Tally.Distinct(FieldNames(cs))|,
        |Tally.Distinct(Users(cs))|,
        Some(DateRangeOf(cs)),
        Some(Tally.Head(Tally.ValueCounts(FieldNames(cs)), 5)),
        Some(Tally.ValueCounts(Users(cs))))
  }

  /** The distinct-field and distinct-user totals count exactly the distinct
      non-null names, and the field frequencies list each changed field with
      its true count, most frequent first. */
  lemma SummaryStatsCounts(cs: seq<ChangeRecord>)
    requires |cs| > 0
    ensures var r := GetCampaignSummaryStats(cs);
      && r.uniqueFields == |Tally.Distinct(FieldNames(cs))|
      && r.uniqueUsers == |Tally.Distinct(Users(cs))|
      && (forall n :: n in Tally.Distinct(FieldNames(cs)) <==>
            exists c :: c in cs && c.fieldName == Some(n))
      && Tally.CountsDescending(r.mostChangedFields.value)
      && (forall q :: q in r.mostChangedFields.value ==>
            q.1 == Tally.Count(FieldNames(cs), q.0) > 0)
      && Tally.SumCounts(r.usersActivity.value) == |Users(cs)|
  {
    var fs := FieldNames(cs);
    TopCountsTrue(fs, 5);
    Tally.ValueCountsSum(Users(cs));
  }

  /** The first `n` value counts are descending and each is a true,
      positive count. */
  lemma TopCountsTrue(xs: seq<string>, n: nat)
    ensures var top := Tally.Head(Tally.ValueCounts(xs), n);
      && Tally.CountsDescending(top)
      && forall q :: q in top ==> q.1 == Tally.Count(xs, q.0) > 0
  {
    Tally.ValueCountsSpec(xs);
    var vc := Tally.ValueCounts(xs);
    var top := Tally.Head(vc, n);
    forall q | q in top
      ensures q in vc
    {
      var i :| 0 <= i < |top| && top[i] == q;
    }
  }
}
