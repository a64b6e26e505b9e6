/** Text as the analysis core reads and prints it: ASCII case, positional numerals, paths and string order. */
module Text {
  import opened Basics

  // ----- characters -----

  predicate IsDigit(c: char) {
    '0' <= c <= '9'
  }

  predicate IsLowerHex(c: char) {
    IsDigit(c) || 'a' <= c <= 'f'
  }

  predicate IsHexDigit(c: char) {
    IsLowerHex(c) || 'A' <= c <= 'F'
  }

  predicate IsAscii(s: string) {
    forall i | 0 <= i < |s| :: s[i] as int < 128
  }

  predicate AllLowerHex(s: string) {
    forall i | 0 <= i < |s| :: IsLowerHex(s[i])
  }

  /** A non-empty run of lower-case hexadecimal digits. */
  predicate IsHex(s: string) {
    s != "" && AllLowerHex(s)
  }

  predicate IsHash(s: string) {
    |s| == 64 && IsHex(s)
  }

  function LowerChar(c: char): char {
    if 'A' <= c <= 'Z' then (c as int + 32) as char else c
  }

  function Lower(s: string): (r: string)
    ensures |r| == |s|
    ensures forall i | 0 <= i < |s| :: r[i] == LowerChar(s[i])
  {
    seq(|s|, i requires 0 <= i < |s| => LowerChar(s[i]))
  }

  lemma LowerAppend(a: string, b: string)
    ensures Lower(a + b) == Lower(a) + Lower(b)
  {
  }

  // ----- positional numerals -----

  datatype Radix = Decimal | Hexadecimal

  function Base(radix: Radix): (b: nat)
    ensures b == 10 || b == 16
  {
    if radix.Decimal? then 10 else 16
  }

  predicate IsNumeral(c: char, radix: Radix) {
    if radix.Decimal? then IsDigit(c) else IsHexDigit(c)
  }

  predicate AllNumerals(s: string, radix: Radix) {
    forall i | 0 <= i < |s| :: IsNumeral(s[i], radix)
  }

  function DigitValue(c: char): (d: nat)
    requires IsHexDigit(c)
    ensures d < 16
    ensures IsDigit(c) <==> d < 10
  {
    if IsDigit(c) then c as int - '0' as int
    else if 'a' <= c <= 'f' then c as int - 'a' as int + 10
    else c as int - 'A' as int + 10
  }

  function DigitChar(d: nat): (c: char)
    requires d < 16
    ensures IsLowerHex(c) && DigitValue(c) == d
  {
    if d < 10 then ('0' as int + d) as char else ('a' as int + d - 10) as char
  }

  function Shift(n: nat, radix: Radix): nat {
    if radix.Decimal? then n / 10 else n / 16
  }

  function LastDigit(n: nat, radix: Radix): nat {
    if radix.Decimal? then n % 10 else n % 16
  }

  function Scale(n: nat, radix: Radix): nat {
    if radix.Decimal? then n * 10 else n * 16
  }

  /** The shortest numeral of `n`, in lower case. */
  function Numeral(n: nat, radix: Radix): (s: string)
    ensures s != "" && AllNumerals(s, radix) && AllLowerHex(s)
    ensures s[0] == '0' ==> s == "0"
    ensures s[0] == '0' <==> n == 0
    decreases n
  {
    if n < Base(radix) then [DigitChar(n)]
    else Numeral(Shift(n, radix), radix) + [DigitChar(LastDigit(n, radix))]
  }

  function ValueOf(s: string, radix: Radix): nat
    requires AllNumerals(s, radix)
  {
    if s == "" then 0
    else Scale(ValueOf(s[..|s| - 1], radix), radix) + DigitValue(s[|s| - 1])
  }

  lemma {:induction false} NumeralRoundTrip(n: nat, radix: Radix)
    ensures ValueOf(Numeral(n, radix), radix) == n
    decreases n
  {
    var s := Numeral(n, radix);
    if n < Base(radix) {
      assert s[..0] == "";
    } else {
      NumeralRoundTrip(Shift(n, radix), radix);
      assert s[..|s| - 1] == Numeral(Shift(n, radix), radix);
    }
  }

  /** `NumeralRoundTrip` read backwards: a numeral determines its number. */
  lemma NumeralInjective(a: nat, b: nat, radix: Radix)
    requires Numeral(a, radix) == Numeral(b, radix)
    ensures a == b
  {
    NumeralRoundTrip(a, radix);
    NumeralRoundTrip(b, radix);
  }

  function Power16(k: nat): (p: nat)
    ensures p > 0
  {
    if k == 0 then 1 else 16 * Power16(k - 1)
  }

  lemma {:induction false} HexWidth(n: nat, k: nat)
    requires n < Power16(k) && k > 0
    ensures |Numeral(n, Hexadecimal)| <= k
    decreases k
  {
    if n >= 16 {
      HexWidth(n / 16, k - 1);
    }
  }

  /** Rust's unsigned `from_str_radix` / `parse`: an optional plus sign, then digits, below `bound`. */
  function ParseUnsigned(s: string, radix: Radix, bound: nat): Option<nat> {
    var body := if s != "" && s[0] == '+' then s[1..] else s;
    if body == "" || !AllNumerals(body, radix) || ValueOf(body, radix) >= bound then None
    else Some(ValueOf(body, radix))
  }

  /** Rust's `{:x}` with the `0x` prefix. */
  function FormatHex(n: nat): string {
    "0x" + Numeral(n, Hexadecimal)
  }

  function Zeros(k: nat): (s: string)
    ensures |s| == k && forall i | 0 <= i < k :: s[i] == '0'
  {
    seq(k, _ => '0')
  }

  /** Rust's `{:0width$x}`: zeros on the left up to `width`. */
  function Padded(n: nat, width: nat): string {
    var s := Numeral(n, Hexadecimal);
    if |s| >= width then s else Zeros(width - |s|) + s
  }

  lemma {:induction false} ZerosAreWorthless(k: nat, s: string)
    requires AllNumerals(s, Hexadecimal)
    ensures AllNumerals(Zeros(k) + s, Hexadecimal)
    ensures ValueOf(Zeros(k) + s, Hexadecimal) == ValueOf(s, Hexadecimal)
    decreases k + |s|
  {
    var t := Zeros(k) + s;
    if s != "" {
      ZerosAreWorthless(k, s[..|s| - 1]);
      assert t[..|t| - 1] == Zeros(k) + s[..|s| - 1];
    } else if k > 0 {
      ZerosAreWorthless(k - 1, "");
      assert t[..|t| - 1] == Zeros(k - 1) + "";
      assert DigitValue('0') == 0;
    }
  }

  lemma PaddedShape(n: nat, width: nat)
    requires n < Power16(width) && width > 0
    ensures |Padded(n, width)| == width && AllLowerHex(Padded(n, width))
    ensures AllNumerals(Padded(n, width), Hexadecimal)
    ensures ValueOf(Padded(n, width), Hexadecimal) == n
  {
    HexWidth(n, width);
    NumeralRoundTrip(n, Hexadecimal);
    var s := Numeral(n, Hexadecimal);
    if |s| < width {
      ZerosAreWorthless(width - |s|, s);
    }
  }

  /** Fixed-width numerals followed by anything split back into their number and the rest. */
  lemma PaddedSplits(a: nat, b: nat, width: nat, restA: string, restB: string)
    requires width > 0 && a < Power16(width) && b < Power16(width)
    requires Padded(a, width) + restA == Padded(b, width) + restB
    ensures a == b && restA == restB
  {
    PaddedShape(a, width);
    PaddedShape(b, width);
    assert Padded(a, width) == (Padded(a, width) + restA)[..width];
    assert Padded(b, width) == (Padded(b, width) + restB)[..width];
    assert restA == (Padded(a, width) + restA)[width..];
    assert restB == (Padded(b, width) + restB)[width..];
  }

  // ----- prefixes, suffixes, paths -----

  predicate StartsWith(s: string, prefix: string) {
    prefix <= s
  }

  predicate EndsWith(s: string, suffix: string) {
    |suffix| <= |s| && s[|s| - |suffix|..] == suffix
  }

  function TrimStartMatches(s: string, prefix: string): string
    requires prefix != ""
  {
    if prefix <= s then TrimStartMatches(s[|prefix|..], prefix) else s
  }

  function TrimEndSlashes(s: string): string {
    if s != "" && s[|s| - 1] == '/' then TrimEndSlashes(s[..|s| - 1]) else s
  }

  /** The part after the last character that satisfies `isSeparator`. */
  function AfterLast(s: string, isSeparator: char -> bool): string {
    if s == "" then ""
    else if isSeparator(s[|s| - 1]) then ""
    else AfterLast(s[..|s| - 1], isSeparator) + [s[|s| - 1]]
  }

  function Basename(s: string): string {
    AfterLast(s, c => c == '/' || c == '\\')
  }

  /** A file name without regard to letter case. */
  function LowerBasename(s: string): string {
    Lower(Basename(s))
  }

  // ----- the order of Rust strings, which UTF-8 makes the order of code points -----

  predicate LexLess(a: string, b: string) {
    if b == "" then false
    else if a == "" then true
    else a[0] < b[0] || (a[0] == b[0] && LexLess(a[1..], b[1..]))
  }

  lemma {:induction false} LexIrreflexive(a: string)
    ensures !LexLess(a, a)
  {
    if a != "" {
      LexIrreflexive(a[1..]);
    }
  }

  lemma {:induction false} LexTransitive(a: string, b: string, c: string)
    requires LexLess(a, b) && LexLess(b, c)
    ensures LexLess(a, c)
  {
    if a != "" && a[0] == b[0] && b[0] == c[0] {
      LexTransitive(a[1..], b[1..], c[1..]);
    }
  }

  lemma {:induction false} LexTotal(a: string, b: string)
    ensures a == b || LexLess(a, b) || LexLess(b, a)
  {
    if a != "" && b != "" && a[0] == b[0] {
      LexTotal(a[1..], b[1..]);
      assert a == [a[0]] + a[1..] && b == [b[0]] + b[1..];
    }
  }

  /** Adjacent comparison, as `windows(2)` tests it. */
  predicate SortedUnique(s: seq<string>) {
    forall i | 0 < i < |s| :: LexLess(s[i - 1], s[i])
  }

  lemma {:induction false} SortedUniqueOrdered(s: seq<string>, i: nat, j: nat)
    requires SortedUnique(s) && i < j < |s|
    ensures LexLess(s[i], s[j])
    decreases j - i
  {
    if i + 1 < j {
      SortedUniqueOrdered(s, i, j - 1);
      assert LexLess(s[j - 1], s[j]);
      LexTransitive(s[i], s[j - 1], s[j]);
    } else {
      assert LexLess(s[j - 1], s[j]);
    }
  }

  lemma SortedUniqueSnoc(s: seq<string>, x: string)
    requires SortedUnique(s) && (s == [] || LexLess(s[|s| - 1], x))
    ensures SortedUnique(s + [x])
  {
    hide LexLess;
  }

  lemma SortedUniqueDistinct(s: seq<string>)
    requires SortedUnique(s)
    ensures Distinct(s)
  {
    forall i, j | 0 <= i < j < |s|
      ensures s[i] != s[j]
    {
      SortedUniqueOrdered(s, i, j);
      LexIrreflexive(s[i]);
    }
  }

  function InsertSorted(x: string, s: seq<string>): (r: seq<string>)
    requires SortedUnique(s) && x !in s
    ensures SortedUnique(r)
    ensures r != [] && (r[0] == x || (s != [] && r[0] == s[0]))
    ensures forall y :: y in r <==> y == x || y in s
  {
    if s == [] then [x]
    else if LexLess(x, s[0]) then
      assert forall i | 0 < i < |s| + 1 :: LexLess(([x] + s)[i - 1], ([x] + s)[i]) by {
        forall i | 0 < i < |s| + 1
          ensures LexLess(([x] + s)[i - 1], ([x] + s)[i])
        {
          if i > 1 {
            assert LexLess(s[i - 2], s[i - 1]);
          }
        }
      }
      [x] + s
    else
      assert LexLess(s[0], x) by {
        LexTotal(s[0], x);
      }
      assert forall i | 0 < i < |s| - 1 :: LexLess(s[1..][i - 1], s[1..][i]) by {
        forall i | 0 < i < |s| - 1
          ensures LexLess(s[1..][i - 1], s[1..][i])
        {
          assert LexLess(s[i], s[i + 1]);
        }
      }
      var rest := InsertSorted(x, s[1..]);
      assert LexLess(s[0], rest[0]) by {
        if rest[0] != x {
          assert rest[0] == s[1];
          assert LexLess(s[1 - 1], s[1]);
        }
      }
      var r := [s[0]] + rest;
      assert forall i | 0 < i < |r| :: LexLess(r[i - 1], r[i]) by {
        forall i | 0 < i < |r|
          ensures LexLess(r[i - 1], r[i])
        {
          if i > 1 {
            assert LexLess(rest[i - 2], rest[i - 1]);
          }
        }
      }
      r
  }

  /** The elements of a set in ascending order: the iteration order of a sorted set or of sorted keys. */
  ghost function Ascending(s: set<string>): (r: seq<string>)
    ensures SortedUnique(r)
    ensures forall x :: x in r <==> x in s
  {
    if s == {} then []
    else
      var x :| x in s;
      InsertSorted(x, Ascending(s - {x}))
  }

  /** There is only one ascending enumeration of a set. */
  lemma {:induction false} AscendingUnique(a: seq<string>, b: seq<string>)
    requires SortedUnique(a) && SortedUnique(b)
    requires forall x :: x in a <==> x in b
    ensures a == b
  {
    assert a == [] <==> b == [] by {
      assert a != [] ==> a[0] in b;
      assert b != [] ==> b[0] in a;
    }
    if a != [] {
      FirstIsLeast(a, b);
      TailOfAscending(a);
      TailOfAscending(b);
      AscendingUnique(a[1..], b[1..]);
      assert a == [a[0]] + a[1..] && b == [b[0]] + b[1..];
    }
  }

  lemma FirstIsLeast(a: seq<string>, b: seq<string>)
    requires SortedUnique(a) && SortedUnique(b) && a != [] && b != []
    requires forall x :: x in a <==> x in b
    ensures a[0] == b[0]
  {
    assert b[0] in a && a[0] in b;
    var i :| 0 <= i < |a| && a[i] == b[0];
    var j :| 0 <= j < |b| && b[j] == a[0];
    if i > 0 && j > 0 {
      SortedUniqueOrdered(a, 0, i);
      SortedUniqueOrdered(b, 0, j);
      LexTransitive(a[0], b[0], a[0]);
      LexIrreflexive(a[0]);
    }
  }

  lemma TailOfAscending(a: seq<string>)
    requires SortedUnique(a) && a != []
    ensures SortedUnique(a[1..])
    ensures forall x :: x in a[1..] <==> x in a && x != a[0]
  {
    forall i | 0 < i < |a| - 1
      ensures LexLess(a[1..][i - 1], a[1..][i])
    {
      assert LexLess(a[i], a[i + 1]);
    }
    forall x | x in a && x != a[0]
      ensures x in a[1..]
    {
      var i :| 0 <= i < |a| && a[i] == x;
      assert a[1..][i - 1] == x;
    }
    SortedUniqueDistinct(a);
  }

  method SortStrings(s: set<string>) returns (r: seq<string>)
    ensures r == Ascending(s)
  {
    r := [];
    var left := s;
    while left != {}
      invariant left <= s
      invariant SortedUnique(r)
      invariant forall x :: x in r <==> x in s && x !in left
      decreases left
    {
      var x :| x in left;
      r := InsertSorted(x, r);
      left := left - {x};
    }
    AscendingUnique(r, Ascending(s));
  }
}
