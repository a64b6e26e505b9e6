/** A reader of JSON text (RFC 8259): the grammar that the strict reader runs on. */
module JsonText {
  import opened Basics
  import opened Text
  import opened Json
  import opened CanonicalJson
  import Utf8

  datatype Parsed<+T> = Parsed(value: T, rest: string)

  predicate IsSpace(c: char) {
    c == ' ' || c == '\n' || c == '\t' || c == '\r'
  }

  function SkipSpace(s: string): (r: string)
    ensures |r| <= |s|
  {
    if s != "" && IsSpace(s[0]) then SkipSpace(s[1..]) else s
  }

  function TakeDigits(s: string): (d: string)
    ensures d <= s && AllNumerals(d, Decimal)
  {
    if s != "" && IsDigit(s[0]) then [s[0]] + TakeDigits(s[1..]) else ""
  }

  // ----- strings -----

  function CodeUnit(s: string): Result<nat> {
    if |s| < 4 || !AllNumerals(s[..4], Hexadecimal) then Failure else Success(ValueOf(s[..4], Hexadecimal))
  }

  /** The character named by a `\u` escape whose digits start `s`; halves of a surrogate pair only together. */
  function UnicodeEscape(s: string): (r: Result<Parsed<char>>)
    ensures r.Success? ==> |r.value.rest| < |s|
  {
    var high :- CodeUnit(s);
    if 0xD800 <= high < 0xDC00 then
      if |s| < 10 || s[4] != '\\' || s[5] != 'u' then Failure
      else
        var low :- CodeUnit(s[6..]);
        if !(0xDC00 <= low < 0xE000) then Failure
        else
          var n := 0x1_0000 + (high - 0xD800) * 0x400 + (low - 0xDC00);
          Success(Parsed(n as char, s[10..]))
    else if !Utf8.IsScalar(high) then Failure
    else Success(Parsed(high as char, s[4..]))
  }

  /** The character after a backslash. */
  function ParseEscape(s: string): (r: Result<Parsed<char>>)
    ensures r.Success? ==> |r.value.rest| < |s|
  {
    if s == "" then Failure
    else if s[0] == '"' || s[0] == '\\' || s[0] == '/' then Success(Parsed(s[0], s[1..]))
    else if s[0] == 'b' then Success(Parsed('\U{0008}', s[1..]))
    else if s[0] == 'f' then Success(Parsed('\U{000C}', s[1..]))
    else if s[0] == 'n' then Success(Parsed('\n', s[1..]))
    else if s[0] == 'r' then Success(Parsed('\r', s[1..]))
    else if s[0] == 't' then Success(Parsed('\t', s[1..]))
    else if s[0] == 'u' then UnicodeEscape(s[1..])
    else Failure
  }

  /** The rest of a string after its opening quote. */
  function ParseString(s: string): (r: Result<Parsed<string>>)
    ensures r.Success? ==> |r.value.rest| < |s|
    decreases |s|
  {
    if s == "" then Failure
    else if s[0] == '"' then Success(Parsed("", s[1..]))
    else if s[0] == '\\' then
      var c :- ParseEscape(s[1..]);
      var tail :- ParseString(c.rest);
      Success(Parsed([c.value] + tail.value, tail.rest))
    else if s[0] < ' ' then Failure
    else
      var tail :- ParseString(s[1..]);
      Success(Parsed([s[0]] + tail.value, tail.rest))
  }

  // ----- numbers -----

  /** What follows the integer part when it is a fraction or an exponent, or `s` itself when there is none. */
  function SkipExponent(s: string): (r: Result<string>)
    ensures r.Success? ==> |r.value| <= |s|
  {
    if s != "" && (s[0] == 'e' || s[0] == 'E') then
      var t := s[1..];
      var u := if t != "" && (t[0] == '+' || t[0] == '-') then t[1..] else t;
      var digits := TakeDigits(u);
      if digits == "" then Failure else Success(u[|digits|..])
    else Success(s)
  }

  function SkipFraction(s: string): (r: Result<string>)
    ensures r.Success? ==> |r.value| <= |s|
  {
    if s != "" && s[0] == '.' then
      var digits := TakeDigits(s[1..]);
      if digits == "" then Failure else SkipExponent(s[1 + |digits|..])
    else SkipExponent(s)
  }

  predicate HoldsInteger(negative: bool, n: nat) {
    if negative then 0 < n <= 0x8000_0000_0000_0000 else n < U64_BOUND
  }

  /** A number after its sign; without fraction and exponent it is an integer unless it is `-0` or out of range. */
  function ParseMagnitude(u: string, negative: bool): (r: Result<Parsed<Doc>>)
    ensures r.Success? ==> |r.value.rest| < |u|
  {
    var digits := TakeDigits(u);
    if digits == "" || (|digits| > 1 && digits[0] == '0') then Failure
    else
      var after := u[|digits|..];
      var rest :- SkipFraction(after);
      var n: int := ValueOf(digits, Decimal);
      if |rest| < |after| || !HoldsInteger(negative, n) then Success(Parsed(DFloat, rest))
      else Success(Parsed(DInt(if negative then -n else n), rest))
  }

  function ParseNumber(s: string): (r: Result<Parsed<Doc>>)
    ensures r.Success? ==> |r.value.rest| < |s|
  {
    if s != "" && s[0] == '-' then ParseMagnitude(s[1..], true) else ParseMagnitude(s, false)
  }

  // ----- values -----

  function Literal(s: string, word: string, d: Doc): (r: Result<Parsed<Doc>>)
    requires word != ""
    ensures r.Success? ==> |r.value.rest| < |s|
  {
    if word <= s then Success(Parsed(d, s[|word|..])) else Failure
  }

  /** A value and what follows it; `depth` bounds how many more arrays and objects may be open at once. */
  function ParseValue(s: string, depth: nat): (r: Result<Parsed<Doc>>)
    ensures r.Success? ==> |r.value.rest| < |s|
    decreases |s|, 0
  {
    var t := SkipSpace(s);
    if t == "" then Failure
    else if t[0] == 'n' then Literal(t, "null", DNull)
    else if t[0] == 't' then Literal(t, "true", DBool(true))
    else if t[0] == 'f' then Literal(t, "false", DBool(false))
    else if t[0] == '"' then
      var p :- ParseString(t[1..]);
      Success(Parsed(DStr(p.value), p.rest))
    else if t[0] == '[' then
      if depth == 0 then Failure else ParseArray(t[1..], depth - 1)
    else if t[0] == '{' then
      if depth == 0 then Failure else ParseObject(t[1..], depth - 1)
    else ParseNumber(t)
  }

  function ParseArray(s: string, depth: nat): (r: Result<Parsed<Doc>>)
    ensures r.Success? ==> |r.value.rest| < |s|
    decreases |s|, 3
  {
    var t := SkipSpace(s);
    if t != "" && t[0] == ']' then Success(Parsed(DArr([]), t[1..]))
    else
      var p :- ParseItems(s, depth);
      Success(Parsed(DArr(p.value), p.rest))
  }

  /** One or more items and the closing bracket. */
  function ParseItems(s: string, depth: nat): (r: Result<Parsed<seq<Doc>>>)
    ensures r.Success? ==> |r.value.rest| < |s|
    decreases |s|, 2
  {
    var head :- ParseValue(s, depth);
    var t := SkipSpace(head.rest);
    if t == "" then Failure
    else if t[0] == ']' then Success(Parsed([head.value], t[1..]))
    else if t[0] == ',' then
      var tail :- ParseItems(t[1..], depth);
      Success(Parsed([head.value] + tail.value, tail.rest))
    else Failure
  }

  function ParseObject(s: string, depth: nat): (r: Result<Parsed<Doc>>)
    ensures r.Success? ==> |r.value.rest| < |s|
    decreases |s|, 3
  {
    var t := SkipSpace(s);
    if t != "" && t[0] == '}' then Success(Parsed(DObj([]), t[1..]))
    else
      var p :- ParseMembers(s, depth);
      Success(Parsed(DObj(p.value), p.rest))
  }

  function ParseMember(s: string, depth: nat): (r: Result<Parsed<Member>>)
    ensures r.Success? ==> |r.value.rest| < |s|
    decreases |s|, 1
  {
    var t := SkipSpace(s);
    if t == "" || t[0] != '"' then Failure
    else
      var key :- ParseString(t[1..]);
      var u := SkipSpace(key.rest);
      if u == "" || u[0] != ':' then Failure
      else
        var p :- ParseValue(u[1..], depth);
        Success(Parsed(Member(key.value, p.value), p.rest))
  }

  /** One or more members and the closing brace. */
  function ParseMembers(s: string, depth: nat): (r: Result<Parsed<seq<Member>>>)
    ensures r.Success? ==> |r.value.rest| < |s|
    decreases |s|, 2
  {
    var head :- ParseMember(s, depth);
    var t := SkipSpace(head.rest);
    if t == "" then Failure
    else if t[0] == '}' then Success(Parsed([head.value], t[1..]))
    else if t[0] == ',' then
      var tail :- ParseMembers(t[1..], depth);
      Success(Parsed([head.value] + tail.value, tail.rest))
    else Failure
  }

  /** A whole document: one value and nothing but space after it. */
  function ParseDocument(s: string, depth: nat): Result<Doc> {
    var p :- ParseValue(s, depth);
    if SkipSpace(p.rest) == "" then Success(p.value) else Failure
  }

  // ----- every printed document parses back -----

  predicate Printable(d: Doc) {
    match d
    case DFloat => false
    case DArr(items) => forall i | 0 <= i < |items| :: Printable(items[i])
    case DObj(members) => forall i | 0 <= i < |members| :: Printable(members[i].value)
    case _ => true
  }

  /** How many arrays and objects of `d` are open at once. */
  function Nesting(d: Doc): nat {
    match d
    case DArr(items) => 1 + ItemsNesting(items)
    case DObj(members) => 1 + MembersNesting(members)
    case _ => 0
  }

  function Max(a: nat, b: nat): nat {
    if a < b then b else a
  }

  function ItemsNesting(items: seq<Doc>): nat {
    if items == [] then 0 else Max(Nesting(items[0]), ItemsNesting(items[1..]))
  }

  function MembersNesting(members: seq<Member>): nat {
    if members == [] then 0 else Max(Nesting(members[0].value), MembersNesting(members[1..]))
  }

  lemma {:induction false} StringParses(s: string, rest: string)
    ensures ParseString(Escape(s) + "\"" + rest) == Success(Parsed(s, rest))
  {
    var text := Escape(s) + "\"" + rest;
    if s == "" {
      assert text == "\"" + rest;
      assert text[1..] == rest;
    } else {
      var after := Escape(s[1..]) + "\"" + rest;
      assert text == EscapeChar(s[0]) + after;
      StringParses(s[1..], rest);
      EscapeParses(s[0], after);
      assert s == [s[0]] + s[1..];
    }
  }

  /** An escaped character reads back as itself, whatever comes next. */
  lemma EscapeParses(c: char, after: string)
    ensures ParseString(EscapeChar(c) + after) ==
            match ParseString(after)
            case Failure => Failure
            case Success(p) => Success(Parsed([c] + p.value, p.rest))
  {
    var text := EscapeChar(c) + after;
    if |EscapeChar(c)| == 1 {
      assert text[0] == c && text[1..] == after;
    } else {
      assert text[0] == '\\' && text[1..] == EscapeChar(c)[1..] + after;
      if |EscapeChar(c)| == 2 {
        ShortEscapeParses(c, after);
      } else {
        ControlParses(c, after);
      }
    }
  }

  lemma ShortEscapeParses(c: char, after: string)
    requires |EscapeChar(c)| == 2
    ensures ParseEscape(EscapeChar(c)[1..] + after) == Success(Parsed(c, after))
  {
    var s := EscapeChar(c)[1..] + after;
    assert s[1..] == after;
  }

  lemma ValueOfSnoc(s: string, c: char)
    requires AllNumerals(s, Hexadecimal) && IsHexDigit(c)
    ensures ValueOf(s + [c], Hexadecimal) == 16 * ValueOf(s, Hexadecimal) + DigitValue(c)
  {
    assert (s + [c])[..|s|] == s;
  }

  lemma UnitParses(hi: char, lo: char, after: string)
    requires IsHexDigit(hi) && IsHexDigit(lo)
    ensures CodeUnit(['0', '0', hi, lo] + after) == Success(16 * DigitValue(hi) + DigitValue(lo))
  {
    var digits := ['0', '0', hi, lo];
    assert (digits + after)[..4] == digits;
    ValueOfSnoc("", '0');
    ValueOfSnoc("0", '0');
    ValueOfSnoc("00", hi);
    ValueOfSnoc("00" + [hi], lo);
    assert "" + ['0'] == "0" && "0" + ['0'] == "00" && "00" + [hi] + [lo] == digits;
  }

  lemma ControlParses(c: char, after: string)
    requires c < ' ' && |EscapeChar(c)| > 2
    ensures ParseEscape(EscapeChar(c)[1..] + after) == Success(Parsed(c, after))
  {
    var hi, lo := DigitChar(c as int / 16), DigitChar(c as int % 16);
    var s := EscapeChar(c)[1..] + after;
    assert s[0] == 'u';
    assert s[1..] == ['0', '0', hi, lo] + after;
    UnitParses(hi, lo, after);
    assert s[1..][4..] == after;
    assert UnicodeEscape(s[1..]) == Success(Parsed(c, after));
  }

  /** What may follow a printed value: the end or a closing or separating character. */
  predicate Delimited(rest: string) {
    rest == "" || rest[0] == ',' || rest[0] == ']' || rest[0] == '}'
  }

  lemma {:induction false} DigitsTaken(digits: string, rest: string)
    requires AllNumerals(digits, Decimal) && (rest == "" || !IsDigit(rest[0]))
    ensures TakeDigits(digits + rest) == digits
  {
    if digits == "" {
      assert digits + rest == rest;
    } else {
      assert (digits + rest)[1..] == digits[1..] + rest;
      DigitsTaken(digits[1..], rest);
    }
  }

  lemma MagnitudeParses(n: int, negative: bool, rest: string)
    requires n >= 0 && HoldsInteger(negative, n) && Delimited(rest)
    ensures ParseMagnitude(Numeral(n, Decimal) + rest, negative) == Success(Parsed(DInt(if negative then -n else n), rest))
  {
    var digits := Numeral(n, Decimal);
    DigitsTaken(digits, rest);
    NumeralRoundTrip(n, Decimal);
    assert (digits + rest)[|digits|..] == rest;
    assert SkipFraction(rest) == Success(rest);
  }

  lemma Holds(n: JsonInt)
    ensures HoldsInteger(n < 0, if n < 0 then -n else n)
  {
  }

  lemma IntParses(n: JsonInt, rest: string)
    requires Delimited(rest)
    ensures ParseNumber(IntText(n) + rest) == Success(Parsed(DInt(n), rest))
  {
    hide ParseMagnitude, Numeral, HoldsInteger;
    if n < 0 {
      Holds(n);
      MagnitudeParses(-n, true, rest);
      Rest('-', Numeral(-n, Decimal), rest);
    } else {
      Holds(n);
      MagnitudeParses(n, false, rest);
      assert (IntText(n) + rest)[0] == Numeral(n, Decimal)[0];
    }
  }

  /** The first character tells the parser which kind of value follows. */
  lemma PrintStarts(d: Doc)
    requires Printable(d)
    ensures Print(d) != "" && !IsSpace(Print(d)[0]) && Print(d)[0] != ']' && Print(d)[0] != '}'
  {
  }

  /** A literal word, where the first character selects it. */
  lemma LiteralParses(word: string, rest: string, d: Doc, depth: nat)
    requires (word == "null" && d == DNull) || (word == "true" && d == DBool(true)) || (word == "false" && d == DBool(false))
    ensures ParseValue(word + rest, depth) == Success(Parsed(d, rest))
  {
    hide ParseString, ParseArray, ParseObject, ParseNumber;
    var s := word + rest;
    assert s[0] == word[0] && s[|word|..] == rest;
    assert SkipSpace(s) == s;
  }

  lemma IntStarts(n: JsonInt)
    ensures IntText(n) != "" && (IntText(n)[0] == '-' || IsDigit(IntText(n)[0]))
  {
  }

  lemma IntParsesAsValue(n: JsonInt, rest: string, depth: nat)
    requires Delimited(rest)
    ensures ParseValue(IntText(n) + rest, depth) == Success(Parsed(DInt(n), rest))
  {
    hide IntText, ParseNumber, ParseString, ParseArray, ParseObject, Literal;
    IntParses(n, rest);
    IntStarts(n);
    var s := IntText(n) + rest;
    assert s[0] == IntText(n)[0];
    assert SkipSpace(s) == s;
  }

  lemma ScalarParses(d: Doc, rest: string, depth: nat)
    requires d.DNull? || d.DBool? || d.DInt?
    requires Delimited(rest)
    ensures ParseValue(Print(d) + rest, depth) == Success(Parsed(d, rest))
  {
    hide ParseValue, IntText;
    match d {
      case DInt(n) => IntParsesAsValue(n, rest, depth);
      case DNull => LiteralParses("null", rest, DNull, depth);
      case DBool(b) => LiteralParses(if b then "true" else "false", rest, d, depth);
    }
  }

  lemma TextParses(text: string, rest: string, depth: nat)
    ensures ParseValue(Quote(text) + rest, depth) == Success(Parsed(DStr(text), rest))
  {
    var s := Quote(text) + rest;
    assert SkipSpace(s) == s && s[0] == '"';
    assert s[1..] == Escape(text) + "\"" + rest;
    StringParses(text, rest);
  }

  lemma OpenArray(body: string, depth: nat)
    requires depth > 0
    ensures ParseValue("[" + body, depth) == ParseArray(body, depth - 1)
  {
    var s := "[" + body;
    assert SkipSpace(s) == s && s[0] == '[' && s[1..] == body;
  }

  lemma OpenObject(body: string, depth: nat)
    requires depth > 0
    ensures ParseValue("{" + body, depth) == ParseObject(body, depth - 1)
  {
    var s := "{" + body;
    assert SkipSpace(s) == s && s[0] == '{' && s[1..] == body;
  }

  lemma {:induction false} PrintedParses(d: Doc, rest: string, depth: nat)
    requires Printable(d) && Nesting(d) <= depth && Delimited(rest)
    ensures ParseValue(Print(d) + rest, depth) == Success(Parsed(d, rest))
    decreases d, 1
  {
    hide ParseValue, ParseArray, ParseObject, PrintItems, PrintMembers, Quote;
    match d {
      case DArr(items) =>
        assert Print(d) + rest == "[" + (PrintItems(items) + ("]" + rest));
        OpenArray(PrintItems(items) + ("]" + rest), depth);
        ArrayParses(items, rest, depth - 1);
      case DObj(members) =>
        assert Print(d) + rest == "{" + (PrintMembers(members) + ("}" + rest));
        OpenObject(PrintMembers(members) + ("}" + rest), depth);
        ObjectParses(members, rest, depth - 1);
      case DStr(text) =>
        TextParses(text, rest, depth);
      case _ =>
        ScalarParses(d, rest, depth);
    }
  }

  lemma {:induction false} ArrayParses(items: seq<Doc>, rest: string, depth: nat)
    requires Printable(DArr(items)) && ItemsNesting(items) <= depth
    ensures ParseArray(PrintItems(items) + ("]" + rest), depth) == Success(Parsed(DArr(items), rest))
    decreases items, 2
  {
    if items == [] {
      assert PrintItems(items) + ("]" + rest) == "]" + rest;
      assert ("]" + rest)[1..] == rest;
    } else {
      PrintStarts(items[0]);
      ItemsParse(items, rest, depth);
    }
  }

  /** Separators and closing marks are not white space. */
  lemma Delimiters(rest: string)
    ensures SkipSpace("," + rest) == "," + rest && ("," + rest)[1..] == rest
    ensures SkipSpace("]" + rest) == "]" + rest && ("]" + rest)[1..] == rest
    ensures SkipSpace("}" + rest) == "}" + rest && ("}" + rest)[1..] == rest
  {
  }

  lemma ItemsFit(items: seq<Doc>, depth: nat)
    requires items != [] && Printable(DArr(items)) && ItemsNesting(items) <= depth
    ensures Printable(items[0]) && Nesting(items[0]) <= depth
    ensures |items| > 1 ==> Printable(DArr(items[1..])) && ItemsNesting(items[1..]) <= depth
  {
  }

  lemma {:induction false} ItemsParse(items: seq<Doc>, rest: string, depth: nat)
    requires items != [] && Printable(DArr(items)) && ItemsNesting(items) <= depth
    ensures ParseItems(PrintItems(items) + ("]" + rest), depth) == Success(Parsed(items, rest))
    decreases items, 0
  {
    hide ParseValue, Print, SkipSpace, Nesting, Printable;
    Delimiters(rest);
    ItemsFit(items, depth);
    var s := PrintItems(items) + ("]" + rest);
    if |items| == 1 {
      PrintedParses(items[0], "]" + rest, depth);
      assert items == [items[0]];
    } else {
      var more := PrintItems(items[1..]) + ("]" + rest);
      assert s == Print(items[0]) + ("," + more);
      PrintedParses(items[0], "," + more, depth);
      Delimiters(more);
      ItemsParse(items[1..], rest, depth);
      assert items == [items[0]] + items[1..];
    }
  }

  lemma {:induction false} ObjectParses(members: seq<Member>, rest: string, depth: nat)
    requires Printable(DObj(members)) && MembersNesting(members) <= depth
    ensures ParseObject(PrintMembers(members) + ("}" + rest), depth) == Success(Parsed(DObj(members), rest))
    decreases members, 2
  {
    if members == [] {
      assert PrintMembers(members) + ("}" + rest) == "}" + rest;
      assert ("}" + rest)[1..] == rest;
    } else {
      assert PrintMember(members[0])[0] == '"';
      assert PrintMembers(members)[..1] == PrintMember(members[0])[..1];
      MembersParse(members, rest, depth);
    }
  }

  lemma MemberText(m: Member, rest: string)
    ensures (PrintMember(m) + rest)[0] == '"'
    ensures (PrintMember(m) + rest)[1..] == Escape(m.key) + "\"" + (":" + Print(m.value) + rest)
    ensures (":" + Print(m.value) + rest)[1..] == Print(m.value) + rest
  {
    hide Print, Escape;
    var key, value := Escape(m.key) + "\"", Print(m.value);
    Rest('"', key, ":" + value);
    Rest('"', key + (":" + value), rest);
    Rest(':', value, rest);
    assert PrintMember(m) == "\"" + key + (":" + value);
    assert key + (":" + value) + rest == key + (":" + value + rest);
  }

  /** Everything after a leading character. */
  lemma Rest(c: char, s: string, t: string)
    ensures [c] + s + t == [c] + (s + t) && ([c] + s + t)[0] == c && ([c] + s + t)[1..] == s + t
  {
  }

  lemma {:induction false} MemberParses(m: Member, rest: string, depth: nat)
    requires Printable(m.value) && Nesting(m.value) <= depth && Delimited(rest)
    ensures ParseMember(PrintMember(m) + rest, depth) == Success(Parsed(m, rest))
    decreases m, 0
  {
    var s := PrintMember(m) + rest;
    var tail := ":" + Print(m.value) + rest;
    MemberText(m, rest);
    assert SkipSpace(s) == s;
    StringParses(m.key, tail);
    assert SkipSpace(tail) == tail;
    PrintedParses(m.value, rest, depth);
  }

  lemma {:induction false} MembersParse(members: seq<Member>, rest: string, depth: nat)
    requires members != [] && Printable(DObj(members)) && MembersNesting(members) <= depth
    ensures ParseMembers(PrintMembers(members) + ("}" + rest), depth) == Success(Parsed(members, rest))
    decreases members, 1
  {
    hide ParseMember, PrintMember;
    var s := PrintMembers(members) + ("}" + rest);
    if |members| == 1 {
      MemberParses(members[0], "}" + rest, depth);
      assert SkipSpace("}" + rest) == "}" + rest && ("}" + rest)[1..] == rest;
      assert members == [members[0]];
    } else {
      var more := PrintMembers(members[1..]) + ("}" + rest);
      assert s == PrintMember(members[0]) + ("," + more);
      MemberParses(members[0], "," + more, depth);
      assert SkipSpace("," + more) == "," + more && ("," + more)[1..] == more;
      MembersParse(members[1..], rest, depth);
      assert members == [members[0]] + members[1..];
    }
  }

  /** Printing is injective on documents, and a printed document is a whole document. */
  lemma DocumentParses(d: Doc, depth: nat)
    requires Printable(d) && Nesting(d) <= depth
    ensures ParseDocument(Print(d), depth) == Success(d)
  {
    PrintedParses(d, "", depth);
    assert Print(d) + "" == Print(d);
  }
}
