/** Turning raw change sessions into the session and entry records the
    analysis works on: bookkeeping fields are dropped, field names and users
    fall back to alternatives, and sessions left without entries disappear.

    Who performed a change is decided by a helper whose body is not part of
    this model; it is the parameter `performerOf`.
 */
module CampaignService {
  import opened Wrappers
  import opened Strings

  /** One raw change: the keys the conversion reads, and every other key
      (which only the performer helper may look at). */
  datatype RawChange = RawChange(
    fieldName: Slot,
    field: Slot,
    oldValue: Slot,
    newValue: Slot,
    others: map<string, Slot>)

  /** One raw session; `changes` is `None` when the key is missing. */
  datatype RawSession = RawSession(date: string, time: string, user: string, changes: Option<seq<RawChange>>)

  datatype ChangeEntry = ChangeEntry(timestamp: string, user: string, field: string, oldValue: string, newValue: string)

  datatype ChangeSession = ChangeSession(timestamp: string, user: string, entries: seq<ChangeEntry>)

  /** `get_performer_or_user(ch)`: a user name, or a falsy result. */
  type PerformerOf = RawChange -> Option<string>

  /** Fields that record who changed what and when rather than a change. */
  const SkipFields: set<string> := {"performer", "update_user", "update_time"}

  /** The field name: `field_name` if truthy, else `field` if truthy, else
      "unknown_field". */
  function ResolveFieldName(ch: RawChange): (r: string)
    ensures ch.fieldName.IsTruthy() ==> r == ch.fieldName.s
    ensures !ch.fieldName.IsTruthy() && ch.field.IsTruthy() ==> r == ch.field.s
    ensures !ch.fieldName.IsTruthy() && !ch.field.IsTruthy() ==> r == "unknown_field"
    ensures r != ""
  {
    if ch.fieldName.IsTruthy() then ch.fieldName.s
    else if ch.field.IsTruthy() then ch.field.s
    else "unknown_field"
  }

  /** Whether a change survives as an entry. */
  predicate Kept(ch: RawChange) {
    ResolveFieldName(ch) !in SkipFields
  }

  /** The timestamp of a session's start, to the minute with zero seconds. */
  function SessionTimestamp(sess: RawSession): (r: string)
    ensures StartsWith(r, sess.date + " " + sess.time) && EndsWith(r, ":00")
    ensures |r| == |sess.date| + |sess.time| + 4
  {
    var r := sess.date + " " + sess.time + ":00";
    assert r[..|sess.date + " " + sess.time|] == sess.date + " " + sess.time;
    assert r[|r| - 3..] == ":00";
    r
  }

  /** The entry of one kept change. The user is the performer when there is
      a truthy one, else the session's user; a missing value becomes "" and
      a None value "None". */
  function EntryOf(ch: RawChange, timestamp: string, sessionUser: string, performerOf: PerformerOf): (r: ChangeEntry)
    ensures r.timestamp == timestamp
    ensures r.field == ResolveFieldName(ch)
    ensures Truthy(performerOf(ch)) ==> r.user == performerOf(ch).value
    ensures !Truthy(performerOf(ch)) ==> r.user == sessionUser
    ensures ch.oldValue.Absent? ==> r.oldValue == ""
    ensures ch.oldValue.Null? ==> r.oldValue == "None"
    ensures ch.oldValue.Str? ==> r.oldValue == ch.oldValue.s
    ensures ch.newValue.Absent? ==> r.newValue == ""
    ensures ch.newValue.Null? ==> r.newValue == "None"
    ensures ch.newValue.Str? ==> r.newValue == ch.newValue.s
  {
    ChangeEntry(
      timestamp,
      OrElse(performerOf(ch), sessionUser),
      ResolveFieldName(ch),
      ch.oldValue.StrOf(""),
      ch.newValue.StrOf(""))
  }

  /** The changes that survive, in input order. */
  function KeptChanges(chs: seq<RawChange>): (r: seq<RawChange>)
    ensures |r| <= |chs|
    ensures forall ch :: ch in r <==> ch in chs && Kept(ch)
    decreases |chs|
  {
    if |chs| == 0 then []
    else
      assert forall ch :: ch in chs <==> ch == chs[0] || ch in chs[1..];
      KeptOf(chs[0]) + KeptChanges(chs[1..])
  }

  /** Every kept change survives exactly as often as it occurs, and no
      other change does. */
  lemma {:induction false} KeptChangesCount(chs: seq<RawChange>)
    ensures forall ch :: multiset(KeptChanges(chs))[ch] == if Kept(ch) then multiset(chs)[ch] else 0
    decreases |chs|
  {
    if |chs| > 0 {
      KeptChangesCount(chs[1..]);
      assert chs == [chs[0]] + chs[1..];
      assert multiset(chs) == multiset{chs[0]} + multiset(chs[1..]);
      assert multiset(KeptChanges(chs)) == multiset(KeptOf(chs[0])) + multiset(KeptChanges(chs[1..]));
    }
  }

  /** The change itself when it is kept. */
  function KeptOf(ch: RawChange): seq<RawChange> {
    if Kept(ch) then [ch] else []
  }

  /** Filtering a concatenation concatenates the filtered parts, so kept
      changes keep their input order. */
  lemma {:induction false} KeptChangesAppend(a: seq<RawChange>, b: seq<RawChange>)
    ensures KeptChanges(a + b) == KeptChanges(a) + KeptChanges(b)
    decreases |a|
  {
    if |a| == 0 {
      assert a + b == b;
    } else {
      assert (a + b)[0] == a[0];
      assert (a + b)[1..] == a[1..] + b;
      KeptChangesAppend(a[1..], b);
      var head := KeptOf(a[0]);
      calc {
        KeptChanges(a + b);
        head + KeptChanges(a[1..] + b);
        head + (KeptChanges(a[1..]) + KeptChanges(b));
        (head + KeptChanges(a[1..])) + KeptChanges(b);
      }
    }
  }

  /** The entries of a session's changes. */
  function Entries(chs: seq<RawChange>, timestamp: string, sessionUser: string, performerOf: PerformerOf): seq<ChangeEntry>
    decreases |chs|
  {
    if |chs| == 0 then []
    else
      (if Kept(chs[0]) then [EntryOf(chs[0], timestamp, sessionUser, performerOf)] else [])
      + Entries(chs[1..], timestamp, sessionUser, performerOf)
  }

  /** The converted session, or `None` when no change survives. */
  function SessionOf(sess: RawSession, performerOf: PerformerOf): Option<ChangeSession> {
    var ts := SessionTimestamp(sess);
    var entries := Entries(sess.changes.GetOr([]), ts, sess.user, performerOf);
    if |entries| == 0 then None else Some(ChangeSession(ts, sess.user, entries))
  }

  /** The converted session as a list of at most one session. */
  function Converted(sess: RawSession, performerOf: PerformerOf): (r: seq<ChangeSession>)
    ensures |r| <= 1
  {
    var s := SessionOf(sess, performerOf);
    if s.Some? then [s.value] else []
  }

  function BuildChangeSessions(sessions: seq<RawSession>, performerOf: PerformerOf): (r: seq<ChangeSession>)
    ensures |r| <= |sessions|
    decreases |sessions|
  {
    if |sessions| == 0 then []
    else Converted(sessions[0], performerOf) + BuildChangeSessions(sessions[1..], performerOf)
  }

  /** There is one entry per kept change, in the same order, and each is
      that change's entry: no entry for a skipped field. */
  lemma {:induction false} EntriesFollowKeptChanges(chs: seq<RawChange>, timestamp: string, sessionUser: string,
                                                    performerOf: PerformerOf)
    ensures var es := Entries(chs, timestamp, sessionUser, performerOf);
      var ks := KeptChanges(chs);
      && |es| == |ks|
      && (forall i :: 0 <= i < |es| ==> es[i] == EntryOf(ks[i], timestamp, sessionUser, performerOf))
      && (forall i :: 0 <= i < |es| ==> es[i].field !in SkipFields && es[i].timestamp == timestamp)
    decreases |chs|
  {
    if |chs| > 0 {
      EntriesFollowKeptChanges(chs[1..], timestamp, sessionUser, performerOf);
      var es := Entries(chs, timestamp, sessionUser, performerOf);
      var ks := KeptChanges(chs);
      var es1 := Entries(chs[1..], timestamp, sessionUser, performerOf);
      var ks1 := KeptChanges(chs[1..]);
      if Kept(chs[0]) {
        assert es == [EntryOf(chs[0], timestamp, sessionUser, performerOf)] + es1;
        assert ks == [chs[0]] + ks1;
        forall i | 0 <= i < |es|
          ensures es[i] == EntryOf(ks[i], timestamp, sessionUser, performerOf)
        {
          if i > 0 {
            assert es[i] == es1[i - 1] && ks[i] == ks1[i - 1];
          }
        }
        assert ks[0] in ks;
      } else {
        assert es == es1 && ks == ks1;
      }
      forall i | 0 <= i < |es|
        ensures es[i].field !in SkipFields
      {
        assert ks[i] in ks;
      }
    }
  }

  /** Converting sessions one after another is converting them together:
      surviving sessions keep their input order. */
  lemma {:induction false} BuildChangeSessionsAppend(s1: seq<RawSession>, s2: seq<RawSession>, performerOf: PerformerOf)
    ensures BuildChangeSessions(s1 + s2, performerOf)
         == BuildChangeSessions(s1, performerOf) + BuildChangeSessions(s2, performerOf)
    decreases |s1|
  {
    if |s1| == 0 {
      assert s1 + s2 == s2;
    } else {
      assert (s1 + s2)[0] == s1[0];
      assert (s1 + s2)[1..] == s1[1..] + s2;
      BuildChangeSessionsAppend(s1[1..], s2, performerOf);
      var head := Converted(s1[0], performerOf);
      calc {
        BuildChangeSessions(s1 + s2, performerOf);
        head + BuildChangeSessions(s1[1..] + s2, performerOf);
        head + (BuildChangeSessions(s1[1..], performerOf) + BuildChangeSessions(s2, performerOf));
        (head + BuildChangeSessions(s1[1..], performerOf)) + BuildChangeSessions(s2, performerOf);
      }
    }
  }

  /** A single session is converted to a session carrying its timestamp and
      user and exactly the entries of its kept changes, or dropped when none
      of its changes is kept (also when it has no changes key at all). */
  lemma OneSession(sess: RawSession, performerOf: PerformerOf)
    ensures var r := BuildChangeSessions([sess], performerOf);
      var ks := KeptChanges(sess.changes.GetOr([]));
      && (|ks| == 0 <==> r == [])
      && (|ks| > 0 ==> |r| == 1 && r[0].timestamp == SessionTimestamp(sess) && r[0].user == sess.user
                       && |r[0].entries| == |ks|
                       && r[0].entries == Entries(sess.changes.GetOr([]), SessionTimestamp(sess), sess.user, performerOf))
      && (sess.changes.None? ==> r == [])
  {
    EntriesFollowKeptChanges(sess.changes.GetOr([]), SessionTimestamp(sess), sess.user, performerOf);
    assert [sess][1..] == [];
  }

  /** Every converted session has at least one entry, and every entry of it
      carries the session's timestamp and none names a skipped field. */
  lemma {:induction false} SessionsAreNonEmpty(sessions: seq<RawSession>, performerOf: PerformerOf)
    ensures forall s :: s in BuildChangeSessions(sessions, performerOf) ==>
      |s.entries| > 0 && forall e :: e in s.entries ==> e.timestamp == s.timestamp && e.field !in SkipFields
    decreases |sessions|
  {
    if |sessions| > 0 {
      SessionsAreNonEmpty(sessions[1..], performerOf);
      var sess := sessions[0];
      var ts := SessionTimestamp(sess);
      EntriesFollowKeptChanges(sess.changes.GetOr([]), ts, sess.user, performerOf);
      var es := Entries(sess.changes.GetOr([]), ts, sess.user, performerOf);
      assert forall e :: e in es ==> e.timestamp == ts && e.field !in SkipFields;
    }
  }
}
