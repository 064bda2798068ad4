/**
 * The string operations the ingestion scripts rely on: `str.split`, the
 * `[-2]` component of an S3 common prefix, Python's ordering of `str`
 * (used by `sorted`), slicing `[:10]`, and `int()`/`str()` on integers.
 */
module Text {
  import opened Wrappers

  // ---------------------------------------------------------------------
  // str.split(sep) for a one-character separator

  /** The parts of `s` between occurrences of `sep`, as Python's `s.split(sep)`. */
  function Split(s: string, sep: char): (parts: seq<string>)
    ensures |parts| >= 1
    ensures |parts| == 1 <==> sep !in s
    decreases |s|
  {
    if s == [] then [[]]
    else
      var rest := Split(s[1..], sep);
      if s[0] == sep then [[]] + rest
      else [[s[0]] + rest[0]] + rest[1..]
  }

  /** `sep.join(parts)`. */
  function Join(parts: seq<string>, sep: char): string
    requires |parts| >= 1
  {
    if |parts| == 1 then parts[0] else parts[0] + [sep] + Join(parts[1..], sep)
  }

  /** Splitting loses nothing: joining the parts back gives the original string. */
  lemma {:induction false} JoinSplit(s: string, sep: char)
    ensures Join(Split(s, sep), sep) == s
    decreases |s|
  {
    if s != [] {
      var x := s[1..];
      assert s == [s[0]] + x;
      JoinSplit(x, sep);
      if s[0] == sep {
        SplitConsSep(x, sep);
        JoinConsEmpty(Split(x, sep), sep);
      } else {
        SplitConsOther(s[0], x, sep);
        JoinGlue(s[0], Split(x, sep), sep);
      }
    }
  }

  lemma JoinConsEmpty(parts: seq<string>, sep: char)
    requires |parts| >= 1
    ensures Join([[]] + parts, sep) == [sep] + Join(parts, sep)
  {
    assert ([[]] + parts)[1..] == parts;
  }

  lemma JoinGlue(c: char, parts: seq<string>, sep: char)
    requires |parts| >= 1
    ensures Join([[c] + parts[0]] + parts[1..], sep) == [c] + Join(parts, sep)
  {
    var glued := [[c] + parts[0]] + parts[1..];
    if |parts| > 1 {
      assert glued[1..] == parts[1..];
      assert [c] + parts[0] + [sep] + Join(parts[1..], sep) == [c] + (parts[0] + [sep] + Join(parts[1..], sep));
    }
  }

  /** No part contains the separator. */
  lemma {:induction false} SplitPartsHaveNoSep(s: string, sep: char)
    ensures forall i :: 0 <= i < |Split(s, sep)| ==> sep !in Split(s, sep)[i]
    decreases |s|
  {
    if s != [] {
      SplitPartsHaveNoSep(s[1..], sep);
      var rest := Split(s[1..], sep);
      if s[0] != sep {
        assert forall i :: 1 <= i < |Split(s, sep)| ==> Split(s, sep)[i] == rest[i];
        assert Split(s, sep)[0] == [s[0]] + rest[0];
      }
    }
  }

  lemma SplitConsSep(x: string, sep: char)
    ensures Split([sep] + x, sep) == [[]] + Split(x, sep)
  {
    assert ([sep] + x)[1..] == x;
  }

  lemma SplitConsOther(c: char, x: string, sep: char)
    requires c != sep
    ensures Split([c] + x, sep) == [[c] + Split(x, sep)[0]] + Split(x, sep)[1..]
  {
    assert ([c] + x)[1..] == x;
  }

  /** Splitting at one separator splits the two sides independently. */
  lemma {:induction false} SplitAround(s: string, t: string, sep: char)
    ensures Split(s + [sep] + t, sep) == Split(s, sep) + Split(t, sep)
    decreases |s|
  {
    if s == [] {
      assert s + [sep] + t == [sep] + t;
      SplitConsSep(t, sep);
    } else {
      var x := s[1..];
      assert s == [s[0]] + x;
      assert s + [sep] + t == [s[0]] + (x + [sep] + t);
      SplitAround(x, t, sep);
      SplitAroundStep(s[0], x, t, sep);
    }
  }

  /** The step of SplitAround: one more character in front. */
  lemma SplitAroundStep(c: char, x: string, t: string, sep: char)
    requires Split(x + [sep] + t, sep) == Split(x, sep) + Split(t, sep)
    ensures Split([c] + (x + [sep] + t), sep) == Split([c] + x, sep) + Split(t, sep)
  {
    if c != sep {
      SplitAroundOther(c, x + [sep] + t, x, Split(t, sep), sep);
    } else {
      SplitAroundSep(x + [sep] + t, x, Split(t, sep), sep);
    }
  }

  lemma SplitAroundSep(y: string, x: string, b: seq<string>, sep: char)
    requires Split(y, sep) == Split(x, sep) + b
    ensures Split([sep] + y, sep) == Split([sep] + x, sep) + b
  {
    SplitConsSep(y, sep);
    SplitConsSep(x, sep);
    assert [[]] + (Split(x, sep) + b) == ([[]] + Split(x, sep)) + b;
  }

  lemma SplitAroundOther(c: char, y: string, x: string, b: seq<string>, sep: char)
    requires c != sep
    requires Split(y, sep) == Split(x, sep) + b
    ensures Split([c] + y, sep) == Split([c] + x, sep) + b
  {
    SplitConsOther(c, y, sep);
    SplitConsOther(c, x, sep);
    GlueFront([c], Split(x, sep), b);
  }

  /** Prefixing the first part of a concatenation of part lists. */
  lemma GlueFront(p: string, a: seq<string>, b: seq<string>)
    requires |a| >= 1
    ensures [p + (a + b)[0]] + (a + b)[1..] == ([p + a[0]] + a[1..]) + b
  {
    assert (a + b)[0] == a[0];
    assert (a + b)[1..] == a[1..] + b;
  }

  lemma {:induction false} SplitWithoutSep(d: string, sep: char)
    requires sep !in d
    ensures Split(d, sep) == [d]
    decreases |d|
  {
    if d != [] {
      assert sep !in d[1..] by {
        forall i | 0 <= i < |d[1..]| ensures d[1..][i] != sep { assert d[1..][i] == d[i + 1]; }
      }
      SplitWithoutSep(d[1..], sep);
      assert d == [d[0]] + d[1..];
    }
  }

  /**
   * `prefix.split("/")[-2]`: the folder name of an S3 common prefix such
   * as "perturbations_travaux_temps_reel/2025-11-03/". Python raises
   * IndexError when there is no "/" at all; that is None here.
   */
  function FolderName(prefix: string): (r: Option<string>)
    ensures r.Some? <==> '/' in prefix
  {
    var parts := Split(prefix, '/');
    if |parts| >= 2 then Some(parts[|parts| - 2]) else None
  }

  /** The folder name of "<parent>/<d>/" is `d`, whatever the parent holds. */
  lemma FolderNameOfCommonPrefix(parent: string, d: string)
    requires '/' !in d
    ensures FolderName(parent + "/" + d + "/") == Some(d)
  {
    SplitAround(parent, d + "/", '/');
    SplitAround(d, "", '/');
    SplitWithoutSep(d, '/');
    assert d + "/" == d + ['/'] + "";
    assert parent + "/" + d + "/" == parent + ['/'] + (d + "/");
  }

  // ---------------------------------------------------------------------
  // Python's ordering of str: lexicographic by code point

  /** Python's `a < b` on strings. */
  predicate Less(a: string, b: string)
    decreases |a|
  {
    if a == [] then b != []
    else b != [] && (a[0] < b[0] || (a[0] == b[0] && Less(a[1..], b[1..])))
  }

  lemma {:induction false} LessIrreflexive(a: string)
    ensures !Less(a, a)
    decreases |a|
  {
    if a != [] { LessIrreflexive(a[1..]); }
  }

  lemma {:induction false} LessAsymmetric(a: string, b: string)
    requires Less(a, b)
    ensures !Less(b, a)
    decreases |a|
  {
    if a != [] && b != [] && a[0] == b[0] { LessAsymmetric(a[1..], b[1..]); }
  }

  lemma {:induction false} LessTransitive(a: string, b: string, c: string)
    requires Less(a, b) && Less(b, c)
    ensures Less(a, c)
    decreases |a|
  {
    if a != [] && a[0] == b[0] && b[0] == c[0] { LessTransitive(a[1..], b[1..], c[1..]); }
  }

  lemma {:induction false} LessTotal(a: string, b: string)
    requires a != b
    ensures Less(a, b) || Less(b, a)
    decreases |a|
  {
    if a != [] && b != [] && a[0] == b[0] {
      assert a == [a[0]] + a[1..] && b == [b[0]] + b[1..];
      LessTotal(a[1..], b[1..]);
    }
  }

  predicate StrictlySorted(r: seq<string>) {
    forall i, j :: 0 <= i < j < |r| ==> Less(r[i], r[j])
  }

  predicate IsLeast(m: string, s: set<string>) {
    m in s && forall x :: x in s && x != m ==> Less(m, x)
  }

  lemma {:induction false} LeastExists(s: set<string>)
    requires s != {}
    ensures exists m :: IsLeast(m, s)
    decreases |s|
  {
    var x :| x in s;
    if s - {x} == {} {
      assert s == {x};
      assert IsLeast(x, s);
    } else {
      LeastExists(s - {x});
      var m :| IsLeast(m, s - {x});
      if Less(x, m) {
        forall y | y in s && y != x ensures Less(x, y) {
          if y != m { LessTransitive(x, m, y); }
        }
        assert IsLeast(x, s);
      } else {
        LessTotal(x, m);
        assert IsLeast(m, s);
      }
    }
  }

  lemma LeastUnique(a: string, b: string, s: set<string>)
    requires IsLeast(a, s) && IsLeast(b, s)
    ensures a == b
  {
    if a != b { LessAsymmetric(a, b); }
  }

  /** `sorted(s)` for a set of strings: the elements in ascending order. */
  ghost function SortedOf(s: set<string>): (r: seq<string>)
    ensures StrictlySorted(r)
    ensures |r| == |s|
    ensures forall x :: x in r <==> x in s
    decreases |s|
  {
    if s == {} then []
    else
      LeastExists(s);
      var m :| IsLeast(m, s);
      var r := SortedOf(s - {m});
      SortedCons(m, r, s);
      [m] + r
  }

  /** The least element in front of the sorted rest is the sorted whole. */
  lemma SortedCons(m: string, r: seq<string>, s: set<string>)
    requires IsLeast(m, s)
    requires StrictlySorted(r) && |r| == |s - {m}| && forall x :: x in r <==> x in s - {m}
    ensures StrictlySorted([m] + r) && |[m] + r| == |s|
    ensures forall x :: x in [m] + r <==> x in s
  {
    assert forall j :: 0 <= j < |r| ==> r[j] in r && r[j] in s - {m};
    assert forall j :: 0 <= j < |r| ==> Less(m, r[j]);
    assert forall i :: 0 < i < |[m] + r| ==> ([m] + r)[i] == r[i - 1];
  }

  /** Taking the least element off the front of what remains to be sorted. */
  lemma SortedOfLeast(done: seq<string>, rest: set<string>, m: string, s: set<string>)
    requires done + SortedOf(rest) == SortedOf(s)
    requires IsLeast(m, rest)
    ensures (done + [m]) + SortedOf(rest - {m}) == SortedOf(s)
  {
    forall m' | IsLeast(m', rest) ensures m' == m { LeastUnique(m', m, rest); }
    assert SortedOf(rest) == [m] + SortedOf(rest - {m});
  }

  /** The least element of a non-empty set, by a linear scan. */
  method Least(s: set<string>) returns (m: string)
    requires s != {}
    ensures IsLeast(m, s)
  {
    m :| m in s;
    var rest := s - {m};
    while rest != {}
      invariant rest <= s && m in s && m !in rest
      invariant forall x :: x in s && x !in rest && x != m ==> Less(m, x)
      decreases |rest|
    {
      var y :| y in rest;
      if Less(y, m) {
        forall x | x in s && x !in rest && x != y ensures Less(y, x) {
          if x != m { LessTransitive(y, m, x); }
        }
        m := y;
      } else if y != m {
        LessTotal(y, m);
      }
      rest := rest - {y};
    }
  }

  /** Python's built-in `sorted` applied to a set of strings. */
  method Sort(s: set<string>) returns (r: seq<string>)
    ensures r == SortedOf(s)
  {
    r := [];
    var rest := s;
    while rest != {}
      invariant rest <= s
      invariant r + SortedOf(rest) == SortedOf(s)
      decreases |rest|
    {
      var m := Least(rest);
      SortedOfLeast(r, rest, m, s);
      r := r + [m];
      rest := rest - {m};
    }
  }

  // ---------------------------------------------------------------------
  // str(x)[:10], str(int), int(str)

  /** `s[:n]` for n >= 0. */
  function Take(s: string, n: nat): (r: string)
    ensures |r| == if |s| < n then |s| else n
    ensures r <= s
  {
    if |s| <= n then s else s[..n]
  }

  predicate IsDigit(c: char) { '0' <= c <= '9' }

  predicate AllDigits(s: string) { forall i :: 0 <= i < |s| ==> IsDigit(s[i]) }

  function DigitValue(c: char): nat requires IsDigit(c) { (c - '0') as nat }

  function DigitChar(d: nat): (c: char)
    requires d < 10
    ensures IsDigit(c) && DigitValue(c) == d
  {
    ('0' as int + d) as char
  }

  /** The value of a string of decimal digits, most significant first. */
  function DigitsValue(s: string): nat
    requires AllDigits(s)
    decreases |s|
  {
    if s == [] then 0 else DigitsValue(s[..|s| - 1]) * 10 + DigitValue(s[|s| - 1])
  }

  /** `str(n)` for a natural number. */
  function NatToText(n: nat): (s: string)
    ensures s != [] && AllDigits(s)
    decreases n
  {
    if n < 10 then [DigitChar(n)] else NatToText(n / 10) + [DigitChar(n % 10)]
  }

  /** `str(i)` for an integer. */
  function IntToText(i: int): string {
    if i < 0 then "-" + NatToText(-i) else NatToText(i)
  }

  /** `int(s)` for an optionally signed run of ASCII digits; None where Python raises. */
  function ParseInt(s: string): Option<int> {
    if s != [] && (s[0] == '-' || s[0] == '+') then
      var ds := s[1..];
      if ds != [] && AllDigits(ds) then
        var v: int := DigitsValue(ds);
        Some(if s[0] == '-' then -v else v)
      else None
    else if s != [] && AllDigits(s) then Some(DigitsValue(s))
    else None
  }

  lemma {:induction false} DigitsOfNat(n: nat)
    ensures DigitsValue(NatToText(n)) == n
    decreases n
  {
    if n >= 10 {
      DigitsOfNat(n / 10);
      var s := NatToText(n);
      assert s[..|s| - 1] == NatToText(n / 10);
    }
  }

  /** `int(str(i)) == i`. */
  lemma IntTextRoundTrip(i: int)
    ensures ParseInt(IntToText(i)) == Some(i)
  {
    var s := IntToText(i);
    if i < 0 {
      DigitsOfNat(-i);
      assert s[0] == '-';
      assert s[1..] == NatToText(-i);
    } else {
      DigitsOfNat(i);
      assert IsDigit(s[0]);
    }
  }
}
