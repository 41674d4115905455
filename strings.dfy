/**
 Text helpers shared by the model: prefix and suffix tests, whitespace
 trimming (JavaScript `trim`, Python `strip`), ASCII case mapping, decimal
 rendering, and the code-point lexicographic order Python's `sorted` uses on
 strings, with an insertion that keeps a list sorted and duplicate-free,
 and an order-keeping filter over sequences.
 */
module Strings {

  predicate StartsWith(s: string, prefix: string) {
    |prefix| <= |s| && s[..|prefix|] == prefix
  }

  predicate EndsWith(s: string, suffix: string) {
    |suffix| <= |s| && s[|s| - |suffix|..] == suffix
  }

  /** The elements of `s` that satisfy `keep`, in their order, repeats kept
      (a list comprehension with a condition). */
  function Filter<T>(s: seq<T>, keep: T -> bool): seq<T>
  {
    if s == [] then [] else (if keep(s[0]) then [s[0]] else []) + Filter(s[1..], keep)
  }

  lemma {:induction false} FilterMembers<T>(s: seq<T>, keep: T -> bool)
    ensures |Filter(s, keep)| <= |s|
    ensures forall x :: x in Filter(s, keep) <==> x in s && keep(x)
  {
    if s != [] {
      FilterMembers(s[1..], keep);
      assert s == [s[0]] + s[1..];
    }
  }

  lemma FilterCons<T>(x: T, t: seq<T>, keep: T -> bool)
    ensures Filter([x] + t, keep) == (if keep(x) then [x] else []) + Filter(t, keep)
  {
    assert ([x] + t)[1..] == t;
  }

  lemma {:induction false} FilterAppend<T>(a: seq<T>, b: seq<T>, keep: T -> bool)
    ensures Filter(a + b, keep) == Filter(a, keep) + Filter(b, keep)
  {
    if a == [] {
      assert a + b == b;
    } else {
      var x, t := a[0], a[1..];
      FilterAppend(t, b, keep);
      assert a == [x] + t;
      assert a + b == [x] + (t + b);
      FilterCons(x, t, keep);
      FilterCons(x, t + b, keep);
      var h := if keep(x) then [x] else [];
      assert h + (Filter(t, keep) + Filter(b, keep)) == (h + Filter(t, keep)) + Filter(b, keep);
    }
  }

  /** A prefix of a sequence stays a prefix when the sequence is extended. */
  lemma PrefixExtends<T>(a: seq<T>, b: seq<T>, c: seq<T>)
    requires a <= b
    ensures a <= b + c
  {
    assert (b + c)[..|b|] == b;
  }

  /** The two whitespace tables in play: JavaScript's `trim` and Python's `str.strip`. */
  datatype Lang = JavaScript | Python

  /** Whitespace as `lang` trims it: the characters both languages share, plus
      U+FEFF for JavaScript and U+001C..U+001F and U+0085 for Python. */
  predicate IsSpace(c: char, lang: Lang) {
    c == ' ' || c == '\t' || c == '\n' || c == '\r' || c == '\U{B}' || c == '\U{C}'
    || c == '\U{A0}' || c == '\U{1680}' || ('\U{2000}' <= c <= '\U{200A}')
    || c == '\U{2028}' || c == '\U{2029}' || c == '\U{202F}' || c == '\U{205F}' || c == '\U{3000}'
    || (lang == JavaScript && c == '\U{FEFF}')
    || (lang == Python && (('\U{1C}' <= c <= '\U{1F}') || c == '\U{85}'))
  }

  function TrimStart(s: string, lang: Lang): (r: string)
    ensures |r| <= |s|
  {
    if s != [] && IsSpace(s[0], lang) then TrimStart(s[1..], lang) else s
  }

  function TrimEnd(s: string, lang: Lang): (r: string)
    ensures |r| <= |s|
  {
    if s != [] && IsSpace(s[|s| - 1], lang) then TrimEnd(s[..|s| - 1], lang) else s
  }

  /** Trimming the start removes exactly a run of leading whitespace. */
  lemma {:induction false} TrimStartSpec(s: string, lang: Lang)
    ensures var r := TrimStart(s, lang);
      && r == s[|s| - |r|..]
      && (r != [] ==> !IsSpace(r[0], lang))
      && forall k :: 0 <= k < |s| - |r| ==> IsSpace(s[k], lang)
  {
    if s != [] && IsSpace(s[0], lang) {
      TrimStartSpec(s[1..], lang);
      var r := TrimStart(s, lang);
      forall k | 0 <= k < |s| - |r| ensures IsSpace(s[k], lang) {
        if k > 0 { assert s[k] == s[1..][k - 1]; }
      }
    }
  }

  /** Trimming the end removes exactly a run of trailing whitespace. */
  lemma {:induction false} TrimEndSpec(s: string, lang: Lang)
    ensures var r := TrimEnd(s, lang);
      && r == s[..|r|]
      && (r != [] ==> !IsSpace(r[|r| - 1], lang))
      && forall k :: |r| <= k < |s| ==> IsSpace(s[k], lang)
  {
    if s != [] && IsSpace(s[|s| - 1], lang) {
      TrimEndSpec(s[..|s| - 1], lang);
      var r := TrimEnd(s, lang);
      assert s[..|s| - 1][..|r|] == s[..|r|];
    }
  }

  /** Removes leading and trailing whitespace (`trim` / `strip()`). */
  function Trim(s: string, lang: Lang): string {
    TrimEnd(TrimStart(s, lang), lang)
  }

  /** A string with no whitespace at either end is left as it is. */
  lemma TrimFixed(s: string, lang: Lang)
    requires s != [] ==> !IsSpace(s[0], lang) && !IsSpace(s[|s| - 1], lang)
    ensures Trim(s, lang) == s
  {
  }

  /** Trimming leaves a contiguous slice of the input, and everything cut
      off before and after it is whitespace. */
  lemma TrimIsSlice(s: string, lang: Lang)
    ensures exists a, b :: (0 <= a <= b <= |s| && Trim(s, lang) == s[a..b]
      && (forall k :: 0 <= k < a ==> IsSpace(s[k], lang))
      && (forall k :: b <= k < |s| ==> IsSpace(s[k], lang)))
  {
    var t := TrimStart(s, lang);
    var r := TrimEnd(t, lang);
    TrimStartSpec(s, lang);
    TrimEndSpec(t, lang);
    var a := |s| - |t|;
    var b := a + |r|;
    assert r == s[a..b];
    forall k | b <= k < |s|
      ensures IsSpace(s[k], lang)
    {
      assert s[k] == t[k - a];
    }
  }

  /** Trimming leaves no whitespace at either end, so trimming twice changes nothing. */
  lemma TrimIdempotent(s: string, lang: Lang)
    ensures Trim(s, lang) != [] ==> !IsSpace(Trim(s, lang)[0], lang) && !IsSpace(Trim(s, lang)[|Trim(s, lang)| - 1], lang)
    ensures Trim(Trim(s, lang), lang) == Trim(s, lang)
  {
    var t := TrimStart(s, lang);
    var r := TrimEnd(t, lang);
    TrimStartSpec(s, lang);
    TrimEndSpec(t, lang);
    if r != [] {
      assert r[0] == t[0];
    }
    TrimFixed(r, lang);
  }

  function LowerChar(c: char): char {
    if 'A' <= c <= 'Z' then (c as int + 32) as char else c
  }

  function UpperChar(c: char): char {
    if 'a' <= c <= 'z' then (c as int - 32) as char else c
  }

  /** ASCII lower-casing. */
  function Lower(s: string): (r: string)
    ensures |r| == |s| && forall k :: 0 <= k < |s| ==> r[k] == LowerChar(s[k])
  {
    seq(|s|, k requires 0 <= k < |s| => LowerChar(s[k]))
  }

  /** ASCII upper-casing. */
  function Upper(s: string): (r: string)
    ensures |r| == |s| && forall k :: 0 <= k < |s| ==> r[k] == UpperChar(s[k])
  {
    seq(|s|, k requires 0 <= k < |s| => UpperChar(s[k]))
  }

  function DigitChar(d: nat): char
    requires d < 10
  {
    "0123456789"[d]
  }

  /** Decimal rendering of a natural number, without leading zeros. */
  function Decimal(n: nat): (r: string)
    ensures 1 <= |r|
    ensures n < 10 <==> |r| == 1
    ensures n < 100 ==> |r| <= 2
    decreases n
  {
    if n < 10 then [DigitChar(n)] else Decimal(n / 10) + [DigitChar(n % 10)]
  }

  /** Python's `format(n, '02d')` for a natural number: at least two digits,
      padded with a leading zero. */
  function ZeroPad2(n: nat): (r: string)
    ensures n < 100 ==> |r| == 2
    ensures n < 10 ==> r == ['0', DigitChar(n)]
    ensures 10 <= n ==> r == Decimal(n)
  {
    if n < 10 then "0" + Decimal(n) else Decimal(n)
  }

  /** Below 100, the padded rendering is the tens digit and the units digit. */
  lemma TwoDigits(n: nat)
    requires n < 100
    ensures ZeroPad2(n) == [DigitChar(n / 10), DigitChar(n % 10)]
  {
    if 10 <= n {
      assert Decimal(n) == Decimal(n / 10) + [DigitChar(n % 10)];
      assert Decimal(n / 10) == [DigitChar(n / 10)];
    } else {
      assert Decimal(n) == [DigitChar(n)];
    }
  }

  lemma DigitCharInjective(x: nat, y: nat)
    requires x < 10 && y < 10 && DigitChar(x) == DigitChar(y)
    ensures x == y
  {
  }

  lemma ZeroPad2Injective(a: nat, b: nat)
    requires a < 100 && b < 100 && ZeroPad2(a) == ZeroPad2(b)
    ensures a == b
  {
    TwoDigits(a);
    TwoDigits(b);
    DigitCharInjective(a / 10, b / 10);
    DigitCharInjective(a % 10, b % 10);
  }

  /** Strict code-point lexicographic order, as Python compares strings. */
  predicate Less(a: string, b: string)
    decreases |a|
  {
    if a == [] then b != []
    else if b == [] then false
    else if a[0] != b[0] then a[0] < b[0]
    else Less(a[1..], b[1..])
  }

  lemma {:induction false} LessIrreflexive(a: string)
    ensures !Less(a, a)
    decreases |a|
  {
    if a != [] {
      LessIrreflexive(a[1..]);
    }
  }

  lemma {:induction false} LessTransitive(a: string, b: string, c: string)
    requires Less(a, b) && Less(b, c)
    ensures Less(a, c)
    decreases |a|
  {
    if a != [] && a[0] == b[0] && b[0] == c[0] {
      LessTransitive(a[1..], b[1..], c[1..]);
    }
  }

  lemma {:induction false} LessTotal(a: string, b: string)
    requires a != b
    ensures Less(a, b) || Less(b, a)
    decreases |a|
  {
    if a != [] && b != [] && a[0] == b[0] {
      assert a == [a[0]] + a[1..] && b == [b[0]] + b[1..];
      LessTotal(a[1..], b[1..]);
    }
  }

  /** Ascending and free of duplicates. */
  predicate StrictlySorted(s: seq<string>) {
    forall i, j :: 0 <= i < j < |s| ==> Less(s[i], s[j])
  }

  /** Places `x` into a strictly sorted list unless it is already there. */
  function Insert(s: seq<string>, x: string): (r: seq<string>)
    requires StrictlySorted(s)
    ensures StrictlySorted(r)
    ensures forall y :: y in r <==> y in s || y == x
  {
    if s == [] then [x]
    else if x == s[0] then s
    else if Less(x, s[0]) then
      InsertFront(s, x)
    else
      var rest := Insert(s[1..], x);
      assert Less(s[0], x) by { LessTotal(x, s[0]); }
      forall j | 0 <= j < |rest| ensures Less(s[0], rest[j]) {
        assert rest[j] in s[1..] || rest[j] == x;
      }
      [s[0]] + rest
  }

  function InsertFront(s: seq<string>, x: string): (r: seq<string>)
    requires StrictlySorted(s) && s != [] && Less(x, s[0])
    ensures r == [x] + s && StrictlySorted(r)
  {
    forall j | 0 < j < |s| ensures Less(x, s[j]) {
      LessTransitive(x, s[0], s[j]);
    }
    [x] + s
  }

  /** The head of a strictly sorted list is below every other element. */
  lemma HeadIsLeast(s: seq<string>, y: string)
    requires StrictlySorted(s) && y in s && y != s[0]
    ensures Less(s[0], y)
  {
    var j :| 0 <= j < |s| && s[j] == y;
  }

  /** Two strictly sorted lists with the same elements are the same list:
      the sorted, de-duplicated listing of a set is unique. */
  lemma {:induction false} StrictlySortedUnique(s: seq<string>, t: seq<string>)
    requires StrictlySorted(s) && StrictlySorted(t)
    requires forall y :: y in s <==> y in t
    ensures s == t
    decreases |s|
  {
    if s != [] { assert s[0] in t; }
    if t != [] { assert t[0] in s; }
    if s != [] && t != [] {
      if s[0] != t[0] {
        HeadIsLeast(s, t[0]);
        HeadIsLeast(t, s[0]);
        LessTransitive(s[0], t[0], s[0]);
        LessIrreflexive(s[0]);
      }
      forall y ensures y in s[1..] <==> y in t[1..] {
        if y in s[1..] {
          var j :| 1 <= j < |s| && s[j] == y;
          assert Less(s[0], s[j]);
          if y == s[0] { LessIrreflexive(y); }
          assert y in t;
          var k :| 0 <= k < |t| && t[k] == y;
          assert t[1..][k - 1] == y;
        }
        if y in t[1..] {
          var j :| 1 <= j < |t| && t[j] == y;
          assert Less(t[0], t[j]);
          if y == t[0] { LessIrreflexive(y); }
          assert y in s;
          var k :| 0 <= k < |s| && s[k] == y;
          assert s[1..][k - 1] == y;
        }
      }
      StrictlySortedUnique(s[1..], t[1..]);
    }
  }
}
