/** The canonical byte form of frozen JSON (`qai-json-v1`) and the encoder that writes it. */
module CanonicalJson {
  import opened Basics
  import opened Text
  import opened Json
  import Utf8

  const MAX_SAFE_INTEGER: int := 9_007_199_254_740_991

  /** JSON text as a syntax tree: members in document order, duplicates and all. */
  datatype Doc =
    | DNull
    | DBool(b: bool)
    | DInt(n: JsonInt)
    | DFloat
    | DStr(s: string)
    | DArr(items: seq<Doc>)
    | DObj(members: seq<Member>)

  datatype Member = Member(key: string, value: Doc)

  // ----- printing -----

  /** The escapes of RFC 8259 section 7 that the encoder uses: two-character forms where they exist. */
  function EscapeChar(c: char): string {
    if c == '"' then "\\\""
    else if c == '\\' then "\\\\"
    else if c == '\U{0008}' then "\\b"
    else if c == '\t' then "\\t"
    else if c == '\n' then "\\n"
    else if c == '\U{000C}' then "\\f"
    else if c == '\r' then "\\r"
    else if c < ' ' then "\\u00" + [DigitChar(c as int / 16), DigitChar(c as int % 16)]
    else [c]
  }

  function Escape(s: string): string {
    if s == "" then "" else EscapeChar(s[0]) + Escape(s[1..])
  }

  function Quote(s: string): string {
    "\"" + Escape(s) + "\""
  }

  function IntText(n: int): string {
    if n < 0 then "-" + Numeral(-n, Decimal) else Numeral(n, Decimal)
  }

  function Print(d: Doc): string {
    match d
    case DNull => "null"
    case DBool(b) => if b then "true" else "false"
    case DInt(n) => IntText(n)
    case DFloat => ""
    case DStr(s) => Quote(s)
    case DArr(items) => "[" + PrintItems(items) + "]"
    case DObj(members) => "{" + PrintMembers(members) + "}"
  }

  function PrintItems(items: seq<Doc>): string {
    if items == [] then ""
    else if |items| == 1 then Print(items[0])
    else Print(items[0]) + "," + PrintItems(items[1..])
  }

  function PrintMembers(members: seq<Member>): string {
    if members == [] then ""
    else if |members| == 1 then PrintMember(members[0])
    else PrintMember(members[0]) + "," + PrintMembers(members[1..])
  }

  function PrintMember(m: Member): string {
    Quote(m.key) + ":" + Print(m.value)
  }

  // ----- canonical form of a value -----

  /** The document of a value: members in ascending key order. */
  ghost function DocOf(v: Json): Doc {
    match v
    case Null => DNull
    case Bool(b) => DBool(b)
    case Int(n) => DInt(n)
    case Float => DFloat
    case Str(s) => DStr(s)
    case Arr(items) => DArr(seq(|items|, i requires 0 <= i < |items| => DocOf(items[i])))
    case Obj(members) =>
      var keys := Ascending(members.Keys);
      DObj(seq(|keys|, i requires 0 <= i < |keys| => Member(keys[i], DocOf(members[keys[i]]))))
  }

  ghost predicate Encodable(v: Json) {
    match v
    case Int(n) => -MAX_SAFE_INTEGER <= n <= MAX_SAFE_INTEGER
    case Float => false
    case Arr(items) => forall i | 0 <= i < |items| :: Encodable(items[i])
    case Obj(members) => forall k | k in members :: IsAscii(k) && Encodable(members[k])
    case _ => true
  }

  ghost function CanonicalText(v: Json): string {
    Print(DocOf(v))
  }

  /** What `canonical_bytes` returns: an error for keys beyond ASCII, unsafe integers and floats. */
  ghost function CanonicalBytes(v: Json): Result<seq<Utf8.byte>> {
    if Encodable(v) then Success(Utf8.Encode(CanonicalText(v))) else Failure
  }

  // ----- the encoder -----

  /** The growing output of the encoder; `text` is what the bytes spell. */
  class ByteBuffer {
    var bytes: seq<Utf8.byte>
    ghost var text: string

    ghost predicate Valid()
      reads this
    {
      bytes == Utf8.Encode(text)
    }

    constructor ()
      ensures Valid() && text == ""
    {
      bytes := [];
      text := "";
    }

    method Push(more: string)
      requires Valid()
      modifies this
      ensures Valid() && text == old(text) + more
    {
      Utf8.EncodeAppend(text, more);
      bytes := bytes + Utf8.Encode(more);
      text := text + more;
    }
  }

  lemma {:induction false} PrintItemsSnoc(items: seq<Doc>, last: Doc)
    ensures PrintItems(items + [last]) == PrintItems(items) + (if items == [] then "" else ",") + Print(last)
  {
    hide Print;
    if |items| > 1 {
      PrintItemsSnoc(items[1..], last);
      assert (items + [last])[1..] == items[1..] + [last];
    } else if |items| == 1 {
      assert (items + [last])[1..] == [last];
    }
  }

  lemma {:induction false} PrintMembersSnoc(members: seq<Member>, last: Member)
    ensures PrintMembers(members + [last]) == PrintMembers(members) + (if members == [] then "" else ",") + PrintMember(last)
  {
    hide PrintMember;
    if |members| > 1 {
      PrintMembersSnoc(members[1..], last);
      assert (members + [last])[1..] == members[1..] + [last];
    } else if |members| == 1 {
      assert (members + [last])[1..] == [last];
    }
  }

  lemma Regroup(a: string, b: string, c: string, d: string)
    ensures a + b + c + d == a + (b + c + d)
  {
  }

  lemma ItemsStep(start: string, docs: seq<Doc>, i: nat)
    requires i < |docs|
    ensures start + PrintItems(docs[..i + 1]) ==
            start + PrintItems(docs[..i]) + (if i > 0 then "," else "") + Print(docs[i])
  {
    PrintItemsSnoc(docs[..i], docs[i]);
    assert docs[..i + 1] == docs[..i] + [docs[i]];
    Regroup(start, PrintItems(docs[..i]), if i > 0 then "," else "", Print(docs[i]));
  }

  lemma MembersStep(start: string, docs: seq<Member>, i: nat)
    requires i < |docs|
    ensures start + PrintMembers(docs[..i + 1]) ==
            start + PrintMembers(docs[..i]) + (if i > 0 then "," else "") + Quote(docs[i].key) + ":" + Print(docs[i].value)
  {
    PrintMembersSnoc(docs[..i], docs[i]);
    assert docs[..i + 1] == docs[..i] + [docs[i]];
    Regroup(start, PrintMembers(docs[..i]), if i > 0 then "," else "", PrintMember(docs[i]));
    Regroup(start + PrintMembers(docs[..i]) + (if i > 0 then "," else ""), Quote(docs[i].key), ":", Print(docs[i].value));
  }

  method EncodeArray(v: Json, out: ByteBuffer) returns (ok: bool)
    requires v.Arr? && out.Valid()
    modifies out
    ensures out.Valid()
    ensures ok <==> Encodable(v)
    ensures ok ==> out.text == old(out.text) + CanonicalText(v)
    decreases v, 0
  {
    var items := v.items;
    ghost var docs := DocOf(v).items;
    out.Push("[");
    ghost var start := out.text;
    var i := 0;
    while i < |items|
      invariant 0 <= i <= |items| == |docs| && out.Valid()
      invariant forall j | 0 <= j < i :: Encodable(items[j])
      invariant out.text == start + PrintItems(docs[..i])
    {
      ItemsStep(start, docs, i);
      out.Push(if i > 0 then "," else "");
      ok := Encode(items[i], out);
      if !ok {
        return;
      }
      i := i + 1;
    }
    assert docs[..|items|] == docs;
    out.Push("]");
    Regroup(old(out.text), "[", PrintItems(docs), "]");
    ok := true;
  }

  method EncodeMember(v: Json, key: string, first: bool, out: ByteBuffer) returns (ok: bool)
    requires v.Obj? && key in v.members && out.Valid()
    modifies out
    ensures out.Valid()
    ensures ok <==> Encodable(v.members[key])
    ensures ok ==> out.text == old(out.text) + (if first then "" else ",") + Quote(key) + ":" + CanonicalText(v.members[key])
    decreases v, 0
  {
    out.Push(if first then "" else ",");
    out.Push(Quote(key));
    out.Push(":");
    ok := Encode(v.members[key], out);
  }

  /** The members of an object, in the order of `keys`. */
  ghost function MembersOf(v: Json, keys: seq<string>): seq<Member>
    requires v.Obj? && forall i | 0 <= i < |keys| :: keys[i] in v.members
  {
    seq(|keys|, i requires 0 <= i < |keys| => Member(keys[i], DocOf(v.members[keys[i]])))
  }

  method EncodeMembers(v: Json, keys: seq<string>, out: ByteBuffer) returns (ok: bool)
    requires v.Obj? && out.Valid() && forall i | 0 <= i < |keys| :: keys[i] in v.members
    modifies out
    ensures out.Valid()
    ensures ok <==> forall i | 0 <= i < |keys| :: Encodable(v.members[keys[i]])
    ensures ok ==> out.text == old(out.text) + PrintMembers(MembersOf(v, keys))
    decreases v, 1
  {
    hide Encodable, PrintMembers, Quote, Print;
    ghost var docs, start := MembersOf(v, keys), out.text;
    NoMembers(docs);
    for i := 0 to |keys|
      invariant out.Valid()
      invariant forall j | 0 <= j < i :: Encodable(v.members[keys[j]])
      invariant out.text == start + PrintMembers(docs[..i])
    {
      MembersStep(start, docs, i);
      ghost var next := start + PrintMembers(docs[..i + 1]);
      ok := EncodeMember(v, keys[i], i == 0, out);
      if !ok {
        return;
      }
      assert out.text == next;
    }
    assert docs[..|keys|] == docs;
    ok := true;
  }

  lemma NoMembers(docs: seq<Member>)
    ensures docs[..0] == [] && PrintMembers([]) == ""
  {
  }

  lemma ObjectParts(v: Json)
    requires v.Obj?
    ensures Encodable(v) <==> forall k | k in v.members :: IsAscii(k) && Encodable(v.members[k])
    ensures forall k | k in Ascending(v.members.Keys) :: k in v.members
    ensures CanonicalText(v) == "{" + PrintMembers(MembersOf(v, Ascending(v.members.Keys))) + "}"
  {
  }

  method EncodeObject(v: Json, out: ByteBuffer) returns (ok: bool)
    requires v.Obj? && out.Valid()
    modifies out
    ensures out.Valid()
    ensures ok <==> Encodable(v)
    ensures ok ==> out.text == old(out.text) + CanonicalText(v)
    decreases v, 2
  {
    ObjectParts(v);
    hide Encodable, CanonicalText, PrintMembers, IsAscii, MembersOf, Utf8.Encode;
    if k :| k in v.members && !IsAscii(k) {
      return false;
    }
    var keys := SortStrings(v.members.Keys);
    assert forall i | 0 <= i < |keys| :: keys[i] in keys;
    out.Push("{");
    ok := EncodeMembers(v, keys, out);
    assert forall k | k in v.members :: k in keys;
    if !ok {
      return;
    }
    out.Push("}");
    Regroup(old(out.text), "{", PrintMembers(MembersOf(v, keys)), "}");
  }

  /** Appends the canonical form of `v`; after a failure the caller throws the buffer away. */
  method Encode(v: Json, out: ByteBuffer) returns (ok: bool)
    requires out.Valid()
    modifies out
    ensures out.Valid()
    ensures ok <==> Encodable(v)
    ensures ok ==> out.text == old(out.text) + CanonicalText(v)
    decreases v, 3
  {
    match v {
      case Obj(_) =>
        ok := EncodeObject(v, out);
      case Arr(_) =>
        ok := EncodeArray(v, out);
      case Int(n) =>
        if n < -MAX_SAFE_INTEGER || n > MAX_SAFE_INTEGER {
          return false;
        }
        out.Push(IntText(n));
        ok := true;
      case Float =>
        ok := false;
      case Null =>
        out.Push("null");
        ok := true;
      case Bool(b) =>
        out.Push(if b then "true" else "false");
        ok := true;
      case Str(s) =>
        out.Push(Quote(s));
        ok := true;
    }
  }

  method EncodeCanonical(v: Json) returns (r: Result<seq<Utf8.byte>>)
    ensures r == CanonicalBytes(v)
  {
    var out := new ByteBuffer();
    var ok := Encode(v, out);
    assert "" + CanonicalText(v) == CanonicalText(v);
    r := if ok then Success(out.bytes) else Failure;
  }
}
