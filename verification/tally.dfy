/** Counting occurrences of strings and ordering the counts, as pandas'
    `value_counts` and the per-table tally of the summary text do. */
module Tally {

  /** How often `x` occurs in `xs`. */
  function Count(xs: seq<string>, x: string): nat
    decreases |xs|
  {
    if |xs| == 0 then 0 else (if xs[0] == x then 1 else 0) + Count(xs[1..], x)
  }

  lemma {:induction false} CountPositive(xs: seq<string>, x: string)
    ensures Count(xs, x) > 0 <==> x in xs
    decreases |xs|
  {
    if |xs| > 0 {
      CountPositive(xs[1..], x);
      assert x in xs <==> xs[0] == x || x in xs[1..];
    }
  }

  predicate NoDup(ns: seq<string>) {
    forall i, j :: 0 <= i < j < |ns| ==> ns[i] != ns[j]
  }

  /** The distinct values of `xs` in order of first appearance. */
  function Distinct(xs: seq<string>): (r: seq<string>)
    ensures NoDup(r)
    ensures forall x :: x in r <==> x in xs
    ensures |r| <= |xs|
    decreases |xs|
  {
    if |xs| == 0 then []
    else
      var front := xs[..|xs| - 1];
      var last := xs[|xs| - 1];
      assert xs == front + [last];
      assert forall x :: x in xs <==> x in front || x == last;
      var d := Distinct(front);
      if last in d then d else d + [last]
  }

  type Tally = (string, nat)

  predicate CountsDescending(ps: seq<Tally>) {
    forall i, j :: 0 <= i < j < |ps| ==> ps[i].1 >= ps[j].1
  }

  predicate NamesDistinct(ps: seq<Tally>) {
    forall i, j :: 0 <= i < j < |ps| ==> ps[i].0 != ps[j].0
  }

  /** Inserts a tally in front of every tally whose count is not larger:
      among equal counts, the tally inserted last comes first. */
  function InsertByCount(p: Tally, ps: seq<Tally>): seq<Tally>
    decreases |ps|
  {
    if |ps| == 0 then [p]
    else if p.1 >= ps[0].1 then [p] + ps
    else [ps[0]] + InsertByCount(p, ps[1..])
  }

  /** A stable sort by descending count: `ps[0]` is inserted into the sorted
      rest ahead of its ties, so equal counts keep their input order. */
  function SortByCount(ps: seq<Tally>): seq<Tally>
    decreases |ps|
  {
    if |ps| == 0 then [] else InsertByCount(ps[0], SortByCount(ps[1..]))
  }

  lemma {:induction false} InsertByCountPermutes(p: Tally, ps: seq<Tally>)
    ensures multiset(InsertByCount(p, ps)) == multiset(ps) + multiset{p}
    decreases |ps|
  {
    if |ps| > 0 && p.1 < ps[0].1 {
      InsertByCountPermutes(p, ps[1..]);
      assert ps == [ps[0]] + ps[1..];
    }
  }

  /** A tally followed by sorted tallies of other names and no larger
      counts is sorted. */
  lemma TallyCons(x: Tally, ps: seq<Tally>)
    requires CountsDescending(ps) && NamesDistinct(ps)
    requires forall j :: 0 <= j < |ps| ==> ps[j].1 <= x.1 && ps[j].0 != x.0
    ensures CountsDescending([x] + ps) && NamesDistinct([x] + ps)
  {
    var r := [x] + ps;
    forall i, j | 0 <= i < j < |r|
      ensures r[i].1 >= r[j].1 && r[i].0 != r[j].0
    {
      assert r[j] == ps[j - 1];
      if i > 0 {
        assert r[i] == ps[i - 1];
      }
    }
  }

  /** What a tally of other name and smaller count is inserted into, past
      the first of sorted distinct tallies, stays below that first one. */
  lemma BelowFirst(p: Tally, ps: seq<Tally>, rest: seq<Tally>)
    requires |ps| > 0 && CountsDescending(ps) && NamesDistinct(ps)
    requires p.1 < ps[0].1 && p.0 != ps[0].0
    requires multiset(rest) == multiset(ps[1..]) + multiset{p}
    ensures forall j :: 0 <= j < |rest| ==> rest[j].1 <= ps[0].1 && rest[j].0 != ps[0].0
  {
    var tail := ps[1..];
    forall j | 0 <= j < |rest|
      ensures rest[j].1 <= ps[0].1 && rest[j].0 != ps[0].0
    {
      assert rest[j] in multiset(rest);
      if rest[j] != p {
        assert rest[j] in multiset(tail);
        var m :| 0 <= m < |tail| && tail[m] == rest[j];
        assert ps[m + 1] == rest[j];
      }
    }
  }

  lemma {:induction false} InsertByCountSorted(p: Tally, ps: seq<Tally>)
    requires CountsDescending(ps) && NamesDistinct(ps)
    requires forall q :: q in ps ==> q.0 != p.0
    ensures CountsDescending(InsertByCount(p, ps)) && NamesDistinct(InsertByCount(p, ps))
    decreases |ps|
  {
    if |ps| > 0 {
      if p.1 >= ps[0].1 {
        assert forall j :: 0 <= j < |ps| ==> ps[j] in ps;
        TallyCons(p, ps);
      } else {
        var tail := ps[1..];
        assert forall q :: q in tail ==> q in ps;
        assert CountsDescending(tail) && NamesDistinct(tail) by {
          assert forall i :: 0 <= i < |tail| ==> tail[i] == ps[i + 1];
        }
        InsertByCountSorted(p, tail);
        InsertByCountPermutes(p, tail);
        var rest := InsertByCount(p, tail);
        assert ps[0] in ps;
        BelowFirst(p, ps, rest);
        TallyCons(ps[0], rest);
      }
    }
  }

  /** Sorting distinct-named tallies gives the same tallies, counts
      descending. */
  lemma {:induction false} SortByCountSpec(ps: seq<Tally>)
    requires NamesDistinct(ps)
    ensures CountsDescending(SortByCount(ps)) && NamesDistinct(SortByCount(ps))
    ensures multiset(SortByCount(ps)) == multiset(ps)
    decreases |ps|
  {
    if |ps| > 0 {
      var tail := ps[1..];
      assert ps == [ps[0]] + tail;
      assert NamesDistinct(tail) by {
        assert forall i :: 0 <= i < |tail| ==> tail[i] == ps[i + 1];
      }
      SortByCountSpec(tail);
      var rest := SortByCount(tail);
      forall q | q in rest
        ensures q.0 != ps[0].0
      {
        assert q in multiset(tail);
        var m :| 0 <= m < |tail| && tail[m] == q;
        assert ps[m + 1] == q;
      }
      InsertByCountSorted(ps[0], rest);
      InsertByCountPermutes(ps[0], rest);
    }
  }

  /** Each of `ns` with its number of occurrences in `xs`. */
  function Tallies(xs: seq<string>, ns: seq<string>): (r: seq<Tally>)
    ensures |r| == |ns|
    ensures forall i :: 0 <= i < |ns| ==> r[i] == (ns[i], Count(xs, ns[i]))
  {
    seq(|ns|, i requires 0 <= i < |ns| => (ns[i], Count(xs, ns[i])))
  }

  /** Every distinct value once with its number of occurrences, most
      frequent first, ties in order of first appearance. */
  function ValueCounts(xs: seq<string>): seq<Tally> {
    SortByCount(Tallies(xs, Distinct(xs)))
  }

  /** The value counts list each value of `xs` exactly once with its true
      count, most frequent first. */
  lemma ValueCountsSpec(xs: seq<string>)
    ensures var r := ValueCounts(xs);
      && CountsDescending(r) && NamesDistinct(r)
      && (forall q: Tally :: q in r <==> q.0 in xs && q.1 == Count(xs, q.0))
      && (forall q :: q in r ==> q.1 > 0)
  {
    var ns := Distinct(xs);
    var ts := Tallies(xs, ns);
    assert NamesDistinct(ts);
    SortByCountSpec(ts);
    var r := ValueCounts(xs);
    assert forall q :: q in r <==> q in ts by {
      forall q
        ensures q in r <==> q in ts
      {
        assert q in r <==> q in multiset(r);
        assert q in ts <==> q in multiset(ts);
      }
    }
    forall q | q in r
      ensures q.1 > 0
    {
      CountPositive(xs, q.0);
    }
    forall q: Tally | q.0 in xs && q.1 == Count(xs, q.0)
      ensures q in r
    {
      var i :| 0 <= i < |ns| && ns[i] == q.0;
      assert ts[i] == q;
    }
  }

  /** The first `n` entries (pandas' `head(n)`, Python's `[:n]`). */
  function Head<T>(ps: seq<T>, n: nat): (r: seq<T>)
    ensures |r| == if |ps| <= n then |ps| else n
    ensures forall i :: 0 <= i < |r| ==> r[i] == ps[i]
  {
    if |ps| <= n then ps else ps[..n]
  }

  /** The first `n` value counts are the most frequent values: a value left
      out occurs no more often than any value listed. */
  lemma TopCountsAreMostFrequent(xs: seq<string>, n: nat, name: string)
    requires name in xs
    requires forall q :: q in Head(ValueCounts(xs), n) ==> q.0 != name
    ensures forall q :: q in Head(ValueCounts(xs), n) ==> Count(xs, name) <= q.1
  {
    ValueCountsSpec(xs);
    var vc := ValueCounts(xs);
    var p := (name, Count(xs, name));
    assert p in vc;
    var j :| 0 <= j < |vc| && vc[j] == p;
    var top := Head(vc, n);
    assert forall m :: 0 <= m < |top| ==> top[m] in top;
    PastTheHead(vc, n, j);
  }

  /** In descending counts, an entry not among the first `n` has a count no
      larger than any of them. */
  lemma PastTheHead(vc: seq<Tally>, n: nat, j: nat)
    requires CountsDescending(vc) && |Head(vc, n)| <= j < |vc|
    ensures forall q :: q in Head(vc, n) ==> vc[j].1 <= q.1
  {
    var top := Head(vc, n);
    forall q | q in top
      ensures vc[j].1 <= q.1
    {
      var i :| 0 <= i < |top| && top[i] == q;
      assert vc[i] == q;
    }
  }

  // ---------------------------------------------------------------------
  // The counts add up to the number of values

  function SumCounts(ps: seq<Tally>): nat
    decreases |ps|
  {
    if |ps| == 0 then 0 else ps[0].1 + SumCounts(ps[1..])
  }

  lemma {:induction false} SumCountsAppend(a: seq<Tally>, b: seq<Tally>)
    ensures SumCounts(a + b) == SumCounts(a) + SumCounts(b)
    decreases |a|
  {
    if |a| == 0 {
      assert a + b == b;
    } else {
      assert (a + b)[1..] == a[1..] + b;
      SumCountsAppend(a[1..], b);
    }
  }

  /** Reordering tallies does not change their sum. */
  lemma {:induction false} SumCountsPermutation(a: seq<Tally>, b: seq<Tally>)
    requires multiset(a) == multiset(b)
    ensures SumCounts(a) == SumCounts(b)
    decreases |a|
  {
    if |a| == 0 {
      assert |b| == |multiset(b)| == 0;
    } else {
      assert a[0] in multiset(b);
      var j :| 0 <= j < |b| && b[j] == a[0];
      SumCountsRemove(b, j);
      MultisetRemove(b, j);
      assert a == [a[0]] + a[1..];
      assert multiset(a[1..]) == multiset(a) - multiset{a[0]};
      SumCountsPermutation(a[1..], b[..j] + b[j + 1..]);
    }
  }

  /** Taking out the tally at `j` takes out one copy of it. */
  lemma MultisetRemove(b: seq<Tally>, j: nat)
    requires j < |b|
    ensures multiset(b[..j] + b[j + 1..]) == multiset(b) - multiset{b[j]}
  {
    var pre, post := b[..j], b[j + 1..];
    assert b == pre + [b[j]] + post;
  }

  /** Taking out the tally at `j` takes out its count. */
  lemma SumCountsRemove(b: seq<Tally>, j: nat)
    requires j < |b|
    ensures SumCounts(b) == b[j].1 + SumCounts(b[..j] + b[j + 1..])
  {
    var pre, post := b[..j], b[j + 1..];
    var tail := [b[j]] + post;
    assert b == pre + tail;
    SumCountsAppend(pre, tail);
    SumCountsAppend(pre, post);
    assert tail[1..] == post;
  }

  /** The number of values of `xs` that are among `ns`. */
  function CountIn(xs: seq<string>, ns: seq<string>): nat
    decreases |xs|
  {
    if |xs| == 0 then 0 else (if xs[0] in ns then 1 else 0) + CountIn(xs[1..], ns)
  }

  lemma {:induction false} TalliesOfOne(x: string, rest: seq<string>, ns: seq<string>)
    requires NoDup(ns)
    ensures SumCounts(Tallies([x] + rest, ns)) ==
      (if x in ns then 1 else 0) + SumCounts(Tallies(rest, ns))
    decreases |ns|
  {
    if |ns| > 0 {
      var tail := ns[1..];
      assert NoDup(tail) by {
        assert forall i :: 0 <= i < |tail| ==> tail[i] == ns[i + 1];
      }
      TalliesOfOne(x, rest, tail);
      assert Tallies([x] + rest, ns)[1..] == Tallies([x] + rest, tail);
      assert Tallies(rest, ns)[1..] == Tallies(rest, tail);
      assert ([x] + rest)[1..] == rest;
      assert x in ns <==> x == ns[0] || x in tail;
      assert x == ns[0] ==> x !in tail;
    }
  }

  lemma {:induction false} TalliesOfNothing(ns: seq<string>)
    ensures SumCounts(Tallies([], ns)) == 0
    decreases |ns|
  {
    if |ns| > 0 {
      TalliesOfNothing(ns[1..]);
      assert Tallies([], ns)[1..] == Tallies([], ns[1..]);
    }
  }

  lemma {:induction false} SumTalliesCountIn(xs: seq<string>, ns: seq<string>)
    requires NoDup(ns)
    ensures SumCounts(Tallies(xs, ns)) == CountIn(xs, ns)
    decreases |xs|
  {
    if |xs| == 0 {
      TalliesOfNothing(ns);
    } else {
      assert xs == [xs[0]] + xs[1..];
      TalliesOfOne(xs[0], xs[1..], ns);
      SumTalliesCountIn(xs[1..], ns);
    }
  }

  lemma {:induction false} CountInAll(xs: seq<string>, ns: seq<string>)
    requires forall x :: x in xs ==> x in ns
    ensures CountIn(xs, ns) == |xs|
    decreases |xs|
  {
    if |xs| > 0 {
      CountInAll(xs[1..], ns);
    }
  }

  /** Partition: the value counts add up to the number of values. */
  lemma ValueCountsSum(xs: seq<string>)
    ensures SumCounts(ValueCounts(xs)) == |xs|
  {
    var ns := Distinct(xs);
    var ts := Tallies(xs, ns);
    assert NamesDistinct(ts);
    SortByCountSpec(ts);
    SumCountsPermutation(ValueCounts(xs), ts);
    SumTalliesCountIn(xs, ns);
    CountInAll(xs, ns);
  }

  // ---------------------------------------------------------------------
  // Ties keep the order of first appearance

  /** The position of the first `x` in `s`, or `|s|` when there is none. */
  function IndexOf<T(==)>(s: seq<T>, x: T): (r: nat)
    ensures r <= |s|
    ensures r < |s| <==> x in s
    ensures r < |s| ==> s[r] == x
    ensures forall m :: 0 <= m < r ==> s[m] != x
    decreases |s|
  {
    if |s| == 0 then 0 else if s[0] == x then 0 else 1 + IndexOf(s[1..], x)
  }

  /** Among equal counts, `r` lists tallies in the order they have in `ps`. */
  predicate TiesFollow(r: seq<Tally>, ps: seq<Tally>) {
    forall i, j :: 0 <= i < j < |r| && r[i].1 == r[j].1 ==> IndexOf(ps, r[i]) < IndexOf(ps, r[j])
  }

  /** Inserting puts the tally right after the tallies of larger count. */
  lemma {:induction false} InsertByCountAt(p: Tally, ps: seq<Tally>) returns (k: nat)
    ensures k <= |ps| && InsertByCount(p, ps) == ps[..k] + [p] + ps[k..]
    ensures forall i :: 0 <= i < k ==> ps[i].1 > p.1
    decreases |ps|
  {
    if |ps| == 0 || p.1 >= ps[0].1 {
      k := 0;
      assert ps[..0] == [] && ps[0..] == ps;
    } else {
      var k' := InsertByCountAt(p, ps[1..]);
      k := k' + 1;
      assert ps[..k] == [ps[0]] + ps[1..][..k'];
      assert ps[k..] == ps[1..][k'..];
    }
  }

  /** Inserting a tally that comes before every other in `order` keeps
      ties in `order`'s order. */
  lemma InsertByCountStable(p: Tally, sorted: seq<Tally>, order: seq<Tally>)
    requires TiesFollow(sorted, order)
    requires forall q :: q in sorted ==> IndexOf(order, p) < IndexOf(order, q)
    ensures TiesFollow(InsertByCount(p, sorted), order)
  {
    var k := InsertByCountAt(p, sorted);
    var r := InsertByCount(p, sorted);
    forall i, j | 0 <= i < j < |r| && r[i].1 == r[j].1
      ensures IndexOf(order, r[i]) < IndexOf(order, r[j])
    {
      if i == k {
        assert r[j] == sorted[j - 1] && sorted[j - 1] in sorted;
      } else if i < k {
        assert r[i] == sorted[i];
        if j > k {
          assert r[j] == sorted[j - 1];
        } else {
          assert r[j] == sorted[j];
        }
      } else {
        assert r[i] == sorted[i - 1] && r[j] == sorted[j - 1];
      }
    }
  }

  /** The sort is stable: tallies of equal count keep their input order. */
  lemma {:induction false} SortByCountStable(ps: seq<Tally>)
    requires NamesDistinct(ps)
    ensures TiesFollow(SortByCount(ps), ps)
    decreases |ps|
  {
    if |ps| > 0 {
      var p, tail := ps[0], ps[1..];
      assert NamesDistinct(tail) by {
        assert forall i :: 0 <= i < |tail| ==> tail[i] == ps[i + 1];
      }
      SortByCountStable(tail);
      SortByCountSpec(tail);
      var sorted := SortByCount(tail);
      forall q | q in sorted
        ensures IndexOf(ps, q) == 1 + IndexOf(tail, q)
      {
        assert q in multiset(tail);
        var m :| 0 <= m < |tail| && tail[m] == q;
        assert ps[m + 1] == q;
      }
      assert TiesFollow(sorted, ps) by {
        assert forall i :: 0 <= i < |sorted| ==> sorted[i] in sorted;
      }
      InsertByCountStable(p, sorted, ps);
    }
  }

  /** A tally's place among the tallies is its name's place among the
      names. */
  lemma TallyIndex(xs: seq<string>, ns: seq<string>, q: Tally)
    requires q in Tallies(xs, ns)
    ensures IndexOf(Tallies(xs, ns), q) == IndexOf(ns, q.0)
  {
    var ts := Tallies(xs, ns);
    var a := IndexOf(ts, q);
    assert ns[a] == q.0;
    forall m | 0 <= m < a
      ensures ns[m] != q.0
    {
      assert ts[m] != q;
    }
  }

  lemma {:induction false} IndexOfAppend<T>(s: seq<T>, t: seq<T>, x: T)
    ensures x in s ==> IndexOf(s + t, x) == IndexOf(s, x)
    ensures x !in s ==> IndexOf(s + t, x) == |s| + IndexOf(t, x)
    decreases |s|
  {
    if |s| == 0 {
      assert s + t == t;
    } else {
      assert (s + t)[1..] == s[1..] + t;
      IndexOfAppend(s[1..], t, x);
    }
  }

  /** The distinct values come in the order in which each first occurs. */
  lemma {:induction false} DistinctFirstAppearance(xs: seq<string>, a: string, b: string)
    requires a in xs && b in xs
    ensures IndexOf(Distinct(xs), a) < IndexOf(Distinct(xs), b) <==> IndexOf(xs, a) < IndexOf(xs, b)
    decreases |xs|
  {
    var front, last := xs[..|xs| - 1], xs[|xs| - 1];
    assert xs == front + [last];
    var d := Distinct(front);
    IndexOfAppend(front, [last], a);
    IndexOfAppend(front, [last], b);
    if last !in d {
      IndexOfAppend(d, [last], a);
      IndexOfAppend(d, [last], b);
    }
    if a in front && b in front {
      DistinctFirstAppearance(front, a, b);
    }
  }

  /** Values of equal count are listed in the order in which they first
      occur in `xs`. */
  lemma ValueCountsTieOrder(xs: seq<string>)
    ensures var r := ValueCounts(xs);
      forall i, j :: 0 <= i < j < |r| && r[i].1 == r[j].1 ==> IndexOf(xs, r[i].0) < IndexOf(xs, r[j].0)
  {
    var ns := Distinct(xs);
    var ts := Tallies(xs, ns);
    assert NamesDistinct(ts);
    SortByCountSpec(ts);
    SortByCountStable(ts);
    var r := ValueCounts(xs);
    forall i, j | 0 <= i < j < |r| && r[i].1 == r[j].1
      ensures IndexOf(xs, r[i].0) < IndexOf(xs, r[j].0)
    {
      assert r[i] in multiset(ts) && r[j] in multiset(ts);
      TallyIndex(xs, ns, r[i]);
      TallyIndex(xs, ns, r[j]);
      DistinctFirstAppearance(xs, r[i].0, r[j].0);
    }
  }
}
