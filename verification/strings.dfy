/** Python string behaviour the rest of the model relies on: prefix tests,
    `str.replace`, `str.title`, `str.join`, slicing with a possibly negative
    bound, decimal rendering (plain and with `{:,}` thousands separators) and
    the code-point order Python uses to compare and sort strings.
 */
module Strings {

  predicate StartsWith(s: string, prefix: string) {
    |prefix| <= |s| && s[..|prefix|] == prefix
  }

  predicate EndsWith(s: string, suffix: string) {
    |suffix| <= |s| && s[|s| - |suffix|..] == suffix
  }

  /** `s[:k]` for any integer `k`: a negative bound counts from the end. */
  function SliceTo(s: string, k: int): (r: string)
    ensures 0 <= k <= |s| ==> r == s[..k]
    ensures k >= |s| ==> r == s
    ensures k < 0 && -k <= |s| ==> r == s[..|s| + k]
    ensures k < 0 && -k > |s| ==> r == ""
  {
    if k >= |s| then s
    else if k >= 0 then s[..k]
    else if |s| + k >= 0 then s[..|s| + k]
    else ""
  }

  // ---------------------------------------------------------------------
  // str.replace

  /** `s.replace(pat, rep)`: scans left to right and replaces every
      non-overlapping occurrence of `pat`; the replacement text is never
      rescanned. */
  function Replace(s: string, pat: string, rep: string): string
    requires |pat| > 0
    decreases |s|
  {
    if |s| < |pat| then s
    else if s[..|pat|] == pat then rep + Replace(s[|pat|..], pat, rep)
    else [s[0]] + Replace(s[1..], pat, rep)
  }

  /** Replacing one character by another maps the string position by
      position: same length, every `c` becomes `d`, everything else stays. */
  lemma {:induction false} ReplaceChar(s: string, c: char, d: char)
    ensures |Replace(s, [c], [d])| == |s|
    ensures forall i :: 0 <= i < |s| ==>
      Replace(s, [c], [d])[i] == (if s[i] == c then d else s[i])
    decreases |s|
  {
    if |s| >= 1 {
      ReplaceChar(s[1..], c, d);
      var r := Replace(s, [c], [d]);
      var tail := Replace(s[1..], [c], [d]);
      if s[..1] == [c] {
        assert r == [d] + tail;
      } else {
        assert r == [s[0]] + tail;
      }
      assert forall i :: 1 <= i < |s| ==> r[i] == tail[i - 1];
    }
  }

  /** Removing a pattern never lengthens a string, and leaves a string
      without the pattern's first character untouched. */
  lemma {:induction false} ReplaceByEmptyShrinks(s: string, pat: string)
    requires |pat| > 0
    ensures |Replace(s, pat, "")| <= |s|
    ensures (forall i :: 0 <= i < |s| ==> s[i] != pat[0]) ==> Replace(s, pat, "") == s
    decreases |s|
  {
    if |s| >= |pat| {
      if s[..|pat|] == pat {
        ReplaceByEmptyShrinks(s[|pat|..], pat);
        assert s[0] == pat[0];
      } else {
        ReplaceByEmptyShrinks(s[1..], pat);
      }
    }
  }

  // ---------------------------------------------------------------------
  // str.title

  predicate IsUpper(c: char) { 'A' <= c <= 'Z' }
  predicate IsLower(c: char) { 'a' <= c <= 'z' }
  predicate IsLetter(c: char) { IsUpper(c) || IsLower(c) }

  function ToUpper(c: char): char {
    if IsLower(c) then (c as int - 'a' as int + 'A' as int) as char else c
  }

  function ToLower(c: char): char {
    if IsUpper(c) then (c as int - 'A' as int + 'a' as int) as char else c
  }

  /** `str.title` from a position whose predecessor was (or was not) a cased
      character: a letter after a non-letter is upper-cased, a letter after
      a letter is lower-cased, every other character is kept. */
  function TitleFrom(s: string, afterCased: bool): string
    decreases |s|
  {
    if |s| == 0 then ""
    else
      var c := s[0];
      var c' := if !IsLetter(c) then c else if afterCased then ToLower(c) else ToUpper(c);
      [c'] + TitleFrom(s[1..], IsLetter(c))
  }

  function Title(s: string): string {
    TitleFrom(s, false)
  }

  /** Title-casing keeps the length, keeps every non-letter where it was, and
      turns letters into letters of the same word position: the first letter
      of a word is upper case, the others lower case. */
  lemma {:induction false} TitleShape(s: string, afterCased: bool)
    ensures |TitleFrom(s, afterCased)| == |s|
    ensures forall i :: 0 <= i < |s| && !IsLetter(s[i]) ==> TitleFrom(s, afterCased)[i] == s[i]
    ensures forall i :: 0 <= i < |s| && IsLetter(s[i]) ==>
      var wordStart := if i == 0 then !afterCased else !IsLetter(s[i - 1]);
      TitleFrom(s, afterCased)[i] == if wordStart then ToUpper(s[i]) else ToLower(s[i])
    decreases |s|
  {
    if |s| > 0 {
      TitleShape(s[1..], IsLetter(s[0]));
      var r := TitleFrom(s, afterCased);
      var tail := TitleFrom(s[1..], IsLetter(s[0]));
      assert forall i :: 1 <= i < |s| ==> r[i] == tail[i - 1];
      assert forall i :: 1 <= i < |s| ==> s[1..][i - 1] == s[i];
    }
  }

  // ---------------------------------------------------------------------
  // str.join

  /** `sep.join(parts)`. */
  function Join(sep: string, parts: seq<string>): string
    decreases |parts|
  {
    if |parts| == 0 then ""
    else if |parts| == 1 then parts[0]
    else parts[0] + sep + Join(sep, parts[1..])
  }

  // ---------------------------------------------------------------------
  // Decimal rendering

  function Digit(d: nat): (c: char)
    requires d < 10
    ensures '0' <= c <= '9'
  {
    "0123456789"[d]
  }

  predicate IsDigit(c: char) { '0' <= c <= '9' }

  /** `str(n)` for a non-negative integer. */
  function NatToString(n: nat): (r: string)
    ensures |r| >= 1
    ensures forall i :: 0 <= i < |r| ==> IsDigit(r[i])
    decreases n
  {
    if n < 10 then [Digit(n)] else NatToString(n / 10) + [Digit(n % 10)]
  }

  /** `str(i)` for any integer. */
  function IntToString(i: int): string {
    if i < 0 then "-" + NatToString(-i) else NatToString(i)
  }

  /** Three digits with leading zeros, for one thousands group. */
  function Pad3(m: nat): (r: string)
    requires m < 1000
    ensures |r| == 3
    ensures forall i :: 0 <= i < 3 ==> IsDigit(r[i])
  {
    [Digit(m / 100), Digit(m / 10 % 10), Digit(m % 10)]
  }

  /** `f"{n:,}"` for a non-negative integer: groups of three digits
      separated by commas. */
  function NatWithCommas(n: nat): string
    decreases n
  {
    if n < 1000 then NatToString(n) else NatWithCommas(n / 1000) + "," + Pad3(n % 1000)
  }

  /** `f"{i:,}"` for any integer. */
  function IntWithCommas(i: int): string {
    if i < 0 then "-" + NatWithCommas(-i) else NatWithCommas(i)
  }

  function RemoveCommas(s: string): string
    decreases |s|
  {
    if |s| == 0 then ""
    else (if s[0] == ',' then "" else [s[0]]) + RemoveCommas(s[1..])
  }

  lemma {:induction false} RemoveCommasAppend(a: string, b: string)
    ensures RemoveCommas(a + b) == RemoveCommas(a) + RemoveCommas(b)
    decreases |a|
  {
    if |a| == 0 {
      assert a + b == b;
    } else {
      assert (a + b)[0] == a[0];
      assert (a + b)[1..] == a[1..] + b;
      RemoveCommasAppend(a[1..], b);
    }
  }

  lemma {:induction false} RemoveCommasOfDigits(s: string)
    requires forall i :: 0 <= i < |s| ==> IsDigit(s[i])
    ensures RemoveCommas(s) == s
    decreases |s|
  {
    if |s| > 0 {
      RemoveCommasOfDigits(s[1..]);
    }
  }

  /** Appending three digits to the decimal form of `q >= 1` writes `q * 1000 + m`. */
  lemma NatToStringThousands(q: nat, m: nat)
    requires q >= 1 && m < 1000
    ensures NatToString(q * 1000 + m) == NatToString(q) + Pad3(m)
  {
    var n := q * 1000 + m;
    var n1 := q * 100 + m / 10;
    var n2 := q * 10 + m / 100;
    assert n / 10 == n1 && n % 10 == m % 10;
    assert n1 / 10 == n2 && n1 % 10 == m / 10 % 10;
    assert n2 / 10 == q && n2 % 10 == m / 100;
    assert NatToString(n) == NatToString(n1) + [Digit(m % 10)];
    assert NatToString(n1) == NatToString(n2) + [Digit(m / 10 % 10)];
    assert NatToString(n2) == NatToString(q) + [Digit(m / 100)];
  }

  /** Deleting the separators from `f"{n:,}"` gives back `str(n)`. */
  lemma {:induction false} CommasOnlySeparate(n: nat)
    ensures RemoveCommas(NatWithCommas(n)) == NatToString(n)
    decreases n
  {
    if n < 1000 {
      RemoveCommasOfDigits(NatToString(n));
    } else {
      var q, m := n / 1000, n % 1000;
      var head := NatWithCommas(q);
      var tail := Pad3(m);
      assert NatWithCommas(n) == head + "," + tail;
      CommasOnlySeparate(q);
      RemoveCommasAppend(head + ",", tail);
      RemoveCommasAppend(head, ",");
      assert RemoveCommas(",") == "";
      RemoveCommasOfDigits(tail);
      assert RemoveCommas(NatWithCommas(n)) == NatToString(q) + tail;
      assert n == q * 1000 + m;
      NatToStringThousands(q, m);
    }
  }

  // ---------------------------------------------------------------------
  // Code-point order of strings (Python's `<` on str, used by `sorted`)

  predicate StrLess(a: string, b: string)
    decreases |a|
  {
    |b| > 0 && (|a| == 0 || a[0] < b[0] || (a[0] == b[0] && StrLess(a[1..], b[1..])))
  }

  lemma {:induction false} StrLessIrreflexive(a: string)
    ensures !StrLess(a, a)
    decreases |a|
  {
    if |a| > 0 {
      StrLessIrreflexive(a[1..]);
    }
  }

  lemma {:induction false} StrLessTransitive(a: string, b: string, c: string)
    requires StrLess(a, b) && StrLess(b, c)
    ensures StrLess(a, c)
    decreases |a|
  {
    if |a| > 0 && a[0] == b[0] && b[0] == c[0] {
      StrLessTransitive(a[1..], b[1..], c[1..]);
    }
  }

  lemma {:induction false} StrLessTotal(a: string, b: string)
    requires a != b
    ensures StrLess(a, b) || StrLess(b, a)
    decreases |a|
  {
    if |a| > 0 && |b| > 0 && a[0] == b[0] {
      assert a == [a[0]] + a[1..] && b == [b[0]] + b[1..];
      StrLessTotal(a[1..], b[1..]);
    }
  }

  predicate StrictlyIncreasing(ss: seq<string>) {
    forall i, j :: 0 <= i < j < |ss| ==> StrLess(ss[i], ss[j])
  }

  /** Inserts a string into a strictly increasing sequence, unless present. */
  function InsertUnique(x: string, ss: seq<string>): seq<string>
    decreases |ss|
  {
    if |ss| == 0 then [x]
    else if x == ss[0] then ss
    else if StrLess(x, ss[0]) then [x] + ss
    else [ss[0]] + InsertUnique(x, ss[1..])
  }

  /** Python's `sorted(set(xs))`. */
  function SortedUnique(xs: seq<string>): seq<string>
    decreases |xs|
  {
    if |xs| == 0 then [] else InsertUnique(xs[0], SortedUnique(xs[1..]))
  }

  lemma IncreasingCons(x: string, ss: seq<string>)
    requires StrictlyIncreasing(ss)
    requires forall j :: 0 <= j < |ss| ==> StrLess(x, ss[j])
    ensures StrictlyIncreasing([x] + ss)
  {
    var r := [x] + ss;
    forall i, j | 0 <= i < j < |r|
      ensures StrLess(r[i], r[j])
    {
      assert r[j] == ss[j - 1];
      if i > 0 {
        assert r[i] == ss[i - 1];
      }
    }
  }

  lemma {:induction false} InsertUniqueSpec(x: string, ss: seq<string>)
    requires StrictlyIncreasing(ss)
    ensures StrictlyIncreasing(InsertUnique(x, ss))
    ensures forall y :: y in InsertUnique(x, ss) <==> y in ss || y == x
    decreases |ss|
  {
    if |ss| > 0 && x != ss[0] {
      var tail := ss[1..];
      assert forall y :: y in ss <==> y == ss[0] || y in tail;
      if StrLess(x, ss[0]) {
        forall j | 0 <= j < |ss|
          ensures StrLess(x, ss[j])
        {
          if j > 0 {
            StrLessTransitive(x, ss[0], ss[j]);
          }
        }
        IncreasingCons(x, ss);
      } else {
        StrLessTotal(x, ss[0]);
        assert StrictlyIncreasing(tail) by {
          assert forall i :: 0 <= i < |tail| ==> tail[i] == ss[i + 1];
        }
        InsertUniqueSpec(x, tail);
        var rest := InsertUnique(x, tail);
        forall j | 0 <= j < |rest|
          ensures StrLess(ss[0], rest[j])
        {
          assert rest[j] in rest;
          if rest[j] != x {
            var m :| 0 <= m < |tail| && tail[m] == rest[j];
            assert ss[m + 1] == rest[j];
          }
        }
        IncreasingCons(ss[0], rest);
      }
    }
  }

  /** `sorted(set(xs))` lists every value of `xs` once, in increasing order. */
  lemma {:induction false} SortedUniqueSpec(xs: seq<string>)
    ensures StrictlyIncreasing(SortedUnique(xs))
    ensures forall y :: y in SortedUnique(xs) <==> y in xs
    decreases |xs|
  {
    if |xs| > 0 {
      SortedUniqueSpec(xs[1..]);
      InsertUniqueSpec(xs[0], SortedUnique(xs[1..]));
      assert forall y :: y in xs <==> y == xs[0] || y in xs[1..];
    }
  }

  /** A strictly increasing sequence has no repeated element. */
  lemma IncreasingHasNoRepeats(ss: seq<string>)
    requires StrictlyIncreasing(ss)
    ensures forall i, j :: 0 <= i < j < |ss| ==> ss[i] != ss[j]
  {
    forall i, j | 0 <= i < j < |ss|
      ensures ss[i] != ss[j]
    {
      StrLessIrreflexive(ss[i]);
    }
  }

  // ---------------------------------------------------------------------
  // Concatenation and reading decimals back

  /** `"".join(ss)`. */
  function Concat(ss: seq<string>): string
    decreases |ss|
  {
    if |ss| == 0 then "" else ss[0] + Concat(ss[1..])
  }

  lemma {:induction false} ConcatSnoc(ss: seq<string>, i: nat)
    requires i < |ss|
    ensures Concat(ss[..i + 1]) == Concat(ss[..i]) + ss[i]
    decreases i
  {
    if i > 0 {
      assert ss[..i + 1][1..] == ss[1..][..i];
      assert ss[..i][1..] == ss[1..][..i - 1];
      ConcatSnoc(ss[1..], i - 1);
    } else {
      assert ss[..1][1..] == [];
    }
  }

  function DigitValue(c: char): nat {
    if IsDigit(c) then (c as int - '0' as int) as nat else 0
  }

  /** `int(s)` for a string of decimal digits. */
  function ParseNat(s: string): nat
    decreases |s|
  {
    if |s| == 0 then 0 else 10 * ParseNat(s[..|s| - 1]) + DigitValue(s[|s| - 1])
  }

  /** Reading a rendered number back gives the number. */
  lemma {:induction false} ParseNatToString(n: nat)
    ensures ParseNat(NatToString(n)) == n
    decreases n
  {
    var s := NatToString(n);
    if n < 10 {
      assert s[..0] == [];
    } else {
      ParseNatToString(n / 10);
      assert s[..|s| - 1] == NatToString(n / 10);
    }
  }

  /** Two numbers render alike only when they are equal. */
  lemma NatToStringInjective(a: nat, b: nat)
    requires NatToString(a) == NatToString(b)
    ensures a == b
  {
    ParseNatToString(a);
    ParseNatToString(b);
  }

  /** The number of leading decimal digits. */
  function DigitRun(s: string): nat
    decreases |s|
  {
    if |s| > 0 && IsDigit(s[0]) then 1 + DigitRun(s[1..]) else 0
  }

  lemma {:induction false} DigitRunOf(ds: string, x: string)
    requires forall i :: 0 <= i < |ds| ==> IsDigit(ds[i])
    requires |x| > 0 && !IsDigit(x[0])
    ensures DigitRun(ds + x) == |ds|
    decreases |ds|
  {
    if |ds| == 0 {
      assert ds + x == x;
    } else {
      assert (ds + x)[1..] == ds[1..] + x;
      DigitRunOf(ds[1..], x);
    }
  }

  /** A rendered number followed by a non-digit can be split off again: the
      digits before the first non-digit are the number. */
  lemma NumberThenNonDigit(a: nat, b: nat, x: string, y: string)
    requires |x| > 0 && |y| > 0 && !IsDigit(x[0]) && !IsDigit(y[0])
    requires NatToString(a) + x == NatToString(b) + y
    ensures a == b && x == y
  {
    var sa := NatToString(a);
    var sb := NatToString(b);
    var whole := sa + x;
    DigitRunOf(sa, x);
    DigitRunOf(sb, y);
    assert sa == whole[..|sa|] == sb;
    NatToStringInjective(a, b);
    assert x == whole[|sa|..] == y;
  }

  /** `t in s` for strings: `t` occurs somewhere in `s`. */
  predicate Contains(s: string, t: string)
    decreases |s|
  {
    StartsWith(s, t) || (|s| > 0 && Contains(s[1..], t))
  }

  lemma {:induction false} ContainsMiddle(a: string, t: string, b: string)
    ensures Contains(a + t + b, t)
    decreases |a|
  {
    if |a| == 0 {
      assert a + t + b == t + b;
      assert (t + b)[..|t|] == t;
    } else {
      assert (a + t + b)[1..] == a[1..] + t + b;
      ContainsMiddle(a[1..], t, b);
    }
  }

  /** A strictly increasing listing has as many entries as the set it lists:
      Python's `len(set(xs))` is the length of `sorted(set(xs))`. */
  lemma {:induction false} IncreasingListsItsSet(ss: seq<string>)
    requires StrictlyIncreasing(ss)
    ensures |set x | x in ss| == |ss|
    decreases |ss|
  {
    if |ss| > 0 {
      var tail := ss[1..];
      assert StrictlyIncreasing(tail) by {
        assert forall i :: 0 <= i < |tail| ==> tail[i] == ss[i + 1];
      }
      IncreasingListsItsSet(tail);
      assert ss[0] !in tail by {
        IncreasingHasNoRepeats(ss);
        assert forall i :: 0 <= i < |tail| ==> tail[i] == ss[i + 1];
      }
      assert (set x | x in ss) == {ss[0]} + (set x | x in tail);
    }
  }
}
