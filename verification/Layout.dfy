/** Where modules lie in memory: reading their addresses, and finding the module of an instruction. */
module Layout {
  import opened Basics
  import opened Text
  import opened Json

  // ----- reading addresses -----

  /** The planner's reading of an address text: hexadecimal after `0x` or `0X`, otherwise decimal. */
  function AddressText(s: string): Option<u64> {
    if "0x" <= s || "0X" <= s then ParseUnsigned(s[2..], Hexadecimal, U64_BOUND)
    else ParseUnsigned(s, Decimal, U64_BOUND)
  }

  /** The same for a JSON value, which may also be an unsigned integer. */
  function Address(v: Json): Option<u64> {
    if AsU64(v).Some? then AsU64(v)
    else if v.Str? then AddressText(v.s)
    else None
  }

  /** The assembler's reading of an address text: always hexadecimal. */
  function HexText(s: string): Option<u64> {
    ParseUnsigned(TrimStartMatches(s, "0x"), Hexadecimal, U64_BOUND)
  }

  lemma HexDigitsAreNoPrefix(s: string)
    requires AllNumerals(if s != "" && s[0] == '+' then s[1..] else s, Hexadecimal)
    ensures TrimStartMatches(s, "0x") == s
  {
    assert |s| > 1 ==> IsHexDigit(s[1]);
  }

  /** A printed address reads back under both readings. */
  lemma PrintedAddress(n: u64)
    ensures AddressText(FormatHex(n)) == Some(n)
    ensures HexText(FormatHex(n)) == Some(n)
  {
    var digits := Numeral(n, Hexadecimal);
    NumeralRoundTrip(n, Hexadecimal);
    assert FormatHex(n)[2..] == digits;
    assert "0x" <= FormatHex(n);
    assert digits[0] != '+';
    HexDigitsAreNoPrefix(digits);
  }

  function Body(s: string): string {
    if s != "" && s[0] == '+' then s[1..] else s
  }

  /**
   The two readings agree on a text exactly when it is `0x` and hexadecimal digits, or a bare decimal
   below ten (leading zeros apart): anything longer without prefix means two different addresses.
   */
  lemma ReadingsAgree(s: string)
    ensures (AddressText(s).Some? && AddressText(s) == HexText(s)) <==>
              || ("0x" <= s && ParseUnsigned(s[2..], Hexadecimal, U64_BOUND).Some?)
              || (ParseUnsigned(s, Decimal, 10).Some?)
  {
    if "0x" <= s {
      assert s[1] == 'x' && !IsDigit('x');
      assert !AllNumerals(Body(s), Decimal);
      if ParseUnsigned(s[2..], Hexadecimal, U64_BOUND).Some? {
        HexDigitsAreNoPrefix(s[2..]);
      }
    } else if "0X" <= s {
      assert s[1] == 'X' && !IsHexDigit('X');
      assert Body(s) == s;
      assert !AllNumerals(s, Decimal) && !AllNumerals(s, Hexadecimal);
    } else if AllNumerals(Body(s), Decimal) {
      assert AllNumerals(Body(s), Hexadecimal);
      HexDigitsAreNoPrefix(s);
      DecimalBelowHex(Body(s));
    }
  }

  lemma {:induction false} DecimalBelowHex(s: string)
    requires AllNumerals(s, Decimal)
    ensures AllNumerals(s, Hexadecimal)
    ensures ValueOf(s, Decimal) < 10 ==> ValueOf(s, Hexadecimal) == ValueOf(s, Decimal)
    ensures ValueOf(s, Decimal) >= 10 ==> ValueOf(s, Hexadecimal) > ValueOf(s, Decimal)
  {
    if s != "" {
      DecimalBelowHex(s[..|s| - 1]);
    }
  }

  /** Without a prefix the readings part: the planner would place this module at 10, the assembler at 16. */
  lemma ReadingsDisagree()
    ensures AddressText("10") == Some(10) && HexText("10") == Some(16)
  {
    assert "10"[..1] == "1" && "1"[..0] == "";
    HexDigitsAreNoPrefix("10");
    assert ValueOf("1", Decimal) == 1 && ValueOf("1", Hexadecimal) == 1;
  }

  // ----- extents -----

  /** The addresses a module occupies. */
  datatype Extent = Extent(base: u64, size: u32)

  predicate Inside(e: Extent, pc: u64) {
    e.base <= pc < e.base + e.size
  }

  /** The first extent that holds `pc`, in the order of the modules. */
  function FirstMatch(extents: seq<Extent>, pc: u64): (r: Option<nat>)
    ensures r.Some? ==> r.value < |extents| && Inside(extents[r.value], pc)
    ensures r.Some? ==> forall i | 0 <= i < r.value :: !Inside(extents[i], pc)
    ensures r.None? ==> forall i | 0 <= i < |extents| :: !Inside(extents[i], pc)
  {
    if extents == [] then None
    else
      match FirstMatch(extents[..|extents| - 1], pc)
      case Some(i) => Some(i)
      case None => if Inside(extents[|extents| - 1], pc) then Some(|extents| - 1) else None
  }

  predicate Apart(a: Extent, b: Extent) {
    a.size == 0 || b.size == 0 || a.base + a.size <= b.base || b.base + b.size <= a.base
  }

  ghost predicate PairwiseApart(extents: seq<Extent>) {
    forall i, j | 0 <= i < j < |extents| :: Apart(extents[i], extents[j])
  }

  // ----- the sorted table -----

  datatype Range = Range(base: int, end: int, index: nat)

  function RangeOf(extents: seq<Extent>, i: nat): Range
    requires i < |extents|
  {
    Range(extents[i].base, extents[i].base + extents[i].size, i)
  }

  predicate RangeBelow(a: Range, b: Range) {
    a.base < b.base || (a.base == b.base && (a.end < b.end || (a.end == b.end && a.index < b.index)))
  }

  function InsertRange(r: Range, s: seq<Range>): seq<Range> {
    if s == [] || RangeBelow(r, s[0]) then [r] + s else [s[0]] + InsertRange(r, s[1..])
  }

  /** The non-empty ranges of the first `n` modules, in ascending order. */
  function SortedRanges(extents: seq<Extent>, n: nat): seq<Range>
    requires n <= |extents|
  {
    if n == 0 then []
    else
      var rest := SortedRanges(extents, n - 1);
      if extents[n - 1].size == 0 then rest else InsertRange(RangeOf(extents, n - 1), rest)
  }

  function Table(extents: seq<Extent>): seq<Range> {
    SortedRanges(extents, |extents|)
  }

  /** `windows(2)`: each range ends before the next begins. */
  predicate NoOverlap(s: seq<Range>) {
    forall i | 0 < i < |s| :: s[i - 1].end <= s[i].base
  }

  function FindRange(s: seq<Range>, pc: u64): Option<nat> {
    if s == [] then None
    else if s[0].base <= pc < s[0].end then Some(s[0].index)
    else FindRange(s[1..], pc)
  }

  ghost predicate Ascends(s: seq<Range>) {
    forall i, j | 0 <= i < j < |s| :: RangeBelow(s[i], s[j])
  }

  ghost predicate Lists(s: seq<Range>, extents: seq<Extent>, n: nat)
    requires n <= |extents|
  {
    && (forall r | r in s :: r.index < n && extents[r.index].size > 0 && r == RangeOf(extents, r.index))
    && (forall i | 0 <= i < n && extents[i].size > 0 :: RangeOf(extents, i) in s)
  }

  lemma {:induction false} InsertedRange(r: Range, s: seq<Range>)
    requires Ascends(s) && forall x | x in s :: x.index != r.index
    ensures Ascends(InsertRange(r, s))
    ensures forall x :: x in InsertRange(r, s) <==> x == r || x in s
  {
    if s != [] && !RangeBelow(r, s[0]) {
      assert s == [s[0]] + s[1..];
      InsertedRange(r, s[1..]);
      var t := InsertRange(r, s[1..]);
      forall j | 0 <= j < |t|
        ensures RangeBelow(s[0], t[j])
      {
        assert t[j] in t;
        if t[j] != r {
          var k :| 0 <= k < |s[1..]| && s[1..][k] == t[j];
          assert s[k + 1] == t[j];
        }
      }
    } else if s != [] {
      forall j | 0 <= j < |s|
        ensures RangeBelow(r, s[j])
      {
      }
    }
  }

  lemma {:induction false} SortedRangesListed(extents: seq<Extent>, n: nat)
    requires n <= |extents|
    ensures Ascends(SortedRanges(extents, n)) && Lists(SortedRanges(extents, n), extents, n)
  {
    hide InsertRange, Ascends;
    if n > 0 {
      SortedRangesListed(extents, n - 1);
      if extents[n - 1].size > 0 {
        InsertedRange(RangeOf(extents, n - 1), SortedRanges(extents, n - 1));
      }
    } else {
      NothingAscends();
    }
  }

  lemma NothingAscends()
    ensures Ascends([])
  {
  }

  lemma {:induction false} NoOverlapFar(s: seq<Range>, i: nat, j: nat)
    requires NoOverlap(s) && i < j < |s|
    requires forall r | r in s :: r.base < r.end
    ensures s[i].end <= s[j].base
    decreases j - i
  {
    assert s[j] in s && s[j - 1] in s;
    assert s[j - 1].end <= s[j].base;
    if i + 1 < j {
      NoOverlapFar(s, i, j - 1);
    }
  }

  lemma NoOverlapApart(extents: seq<Extent>, s: seq<Range>, i: nat, j: nat)
    requires i < j < |extents| && extents[i].size > 0 && extents[j].size > 0
    requires Lists(s, extents, |extents|) && NoOverlap(s)
    ensures Apart(extents[i], extents[j])
  {
    var x, y := RangeOf(extents, i), RangeOf(extents, j);
    assert x in s && y in s;
    var a :| 0 <= a < |s| && s[a] == x;
    var b :| 0 <= b < |s| && s[b] == y;
    if a < b {
      NoOverlapFar(s, a, b);
    } else {
      NoOverlapFar(s, b, a);
    }
  }

  /** Comparing neighbours in the sorted table decides whether any two modules overlap. */
  lemma NeighboursDecide(extents: seq<Extent>)
    ensures NoOverlap(Table(extents)) <==> PairwiseApart(extents)
  {
    var s := Table(extents);
    SortedRangesListed(extents, |extents|);
    if NoOverlap(s) {
      forall i, j | 0 <= i < j < |extents|
        ensures Apart(extents[i], extents[j])
      {
        if extents[i].size > 0 && extents[j].size > 0 {
          NoOverlapApart(extents, s, i, j);
        }
      }
    }
    if PairwiseApart(extents) {
      forall i | 0 < i < |s|
        ensures s[i - 1].end <= s[i].base
      {
        assert s[i - 1] in s && s[i] in s && RangeBelow(s[i - 1], s[i]);
        var p, q := s[i - 1].index, s[i].index;
        assert p != q;
        assert Apart(extents[if p < q then p else q], extents[if p < q then q else p]);
      }
    }
  }

  lemma {:induction false} FindRangeSound(s: seq<Range>, pc: u64)
    ensures match FindRange(s, pc)
            case Some(i) => exists r :: r in s && r.base <= pc < r.end && r.index == i
            case None => forall r | r in s :: !(r.base <= pc < r.end)
  {
    if s != [] {
      FindRangeSound(s[1..], pc);
      assert s == [s[0]] + s[1..];
    }
  }

  /** When no modules overlap, the sorted table, a first-match scan, and any other scan find the same module. */
  lemma LookupUnique(extents: seq<Extent>, pc: u64)
    requires PairwiseApart(extents)
    ensures FindRange(Table(extents), pc) == FirstMatch(extents, pc)
    ensures forall i | 0 <= i < |extents| && Inside(extents[i], pc) :: FirstMatch(extents, pc) == Some(i)
  {
    hide SortedRanges, FindRange;
    var s := Table(extents);
    SortedRangesListed(extents, |extents|);
    FindRangeSound(s, pc);
    forall i, j | 0 <= i < j < |extents|
      ensures !(Inside(extents[i], pc) && Inside(extents[j], pc))
    {
      assert Apart(extents[i], extents[j]);
    }
    match FindRange(s, pc) {
      case Some(i) =>
        var r :| r in s && r.base <= pc < r.end && r.index == i;
        assert Inside(extents[i], pc);
      case None =>
        forall i | 0 <= i < |extents|
          ensures !Inside(extents[i], pc)
        {
          if extents[i].size > 0 {
            assert RangeOf(extents, i) in s;
          }
        }
    }
  }
}
