/** The strict reader of frozen JSON, and the laws that tie it to the canonical encoder. */
module StrictJson {
  import opened Basics
  import opened Text
  import opened Json
  import opened CanonicalJson
  import opened JsonText
  import Utf8

  const MAX_INPUT_BYTES: int := 64 * 1024 * 1024

  // ----- the visitor that builds values -----

  function ToValue(d: Doc): Result<Json> {
    match d
    case DNull => Success(Null)
    case DBool(b) => Success(Bool(b))
    case DInt(n) => Success(Int(n))
    case DFloat => Failure
    case DStr(s) => Success(Str(s))
    case DArr(items) =>
      var values :- ToValues(items);
      Success(Arr(values))
    case DObj(members) =>
      var entries :- ToEntries(members);
      Success(Obj(entries))
  }

  function ToValues(items: seq<Doc>): (r: Result<seq<Json>>)
    ensures r.Success? ==> |r.value| == |items|
  {
    if items == [] then Success([])
    else
      var init :- ToValues(items[..|items| - 1]);
      var last :- ToValue(items[|items| - 1]);
      Success(init + [last])
  }

  function ToEntries(members: seq<Member>): Result<map<string, Json>> {
    if members == [] then Success(map[])
    else
      var init :- ToEntries(members[..|members| - 1]);
      var m := members[|members| - 1];
      var value :- ToValue(m.value);
      if m.key in init then Failure else Success(init[m.key := value])
  }

  method VisitSeq(items: seq<Doc>) returns (r: Result<Json>)
    ensures r == ToValue(DArr(items))
  {
    var values: seq<Json> := [];
    var i := 0;
    while i < |items|
      invariant 0 <= i <= |items|
      invariant ToValues(items[..i]) == Success(values)
    {
      assert items[..i + 1][..i] == items[..i];
      var next := ToValue(items[i]);
      if next.Failure? {
        FailedPrefix(items, i + 1);
        return Failure;
      }
      values := values + [next.value];
      i := i + 1;
    }
    assert items[..i] == items;
    r := Success(Arr(values));
  }

  method VisitMap(members: seq<Member>) returns (r: Result<Json>)
    ensures r == ToValue(DObj(members))
  {
    var values: map<string, Json> := map[];
    var i := 0;
    while i < |members|
      invariant 0 <= i <= |members|
      invariant ToEntries(members[..i]) == Success(values)
    {
      assert members[..i + 1][..i] == members[..i];
      var next := ToValue(members[i].value);
      if next.Failure? || members[i].key in values {
        FailedEntries(members, i + 1);
        return Failure;
      }
      values := values[members[i].key := next.value];
      i := i + 1;
    }
    assert members[..i] == members;
    r := Success(Obj(values));
  }

  lemma {:induction false} FailedPrefix(items: seq<Doc>, i: nat)
    requires i <= |items| && ToValues(items[..i]).Failure?
    ensures ToValues(items).Failure?
  {
    if i < |items| {
      assert items[..|items| - 1][..i] == items[..i];
      FailedPrefix(items[..|items| - 1], i);
    } else {
      assert items[..i] == items;
    }
  }

  lemma {:induction false} FailedEntries(members: seq<Member>, i: nat)
    requires i <= |members| && ToEntries(members[..i]).Failure?
    ensures ToEntries(members).Failure?
  {
    if i < |members| {
      assert members[..|members| - 1][..i] == members[..i];
      FailedEntries(members[..|members| - 1], i);
    } else {
      assert members[..i] == members;
    }
  }

  // ----- the strict reader -----

  /** `strict_json`; `depth` is the nesting the underlying parser allows. */
  ghost function Read(bytes: seq<Utf8.byte>, depth: nat): Result<Json> {
    if |bytes| > MAX_INPUT_BYTES then Failure
    else
      var text :- Utf8.Decode(bytes);
      var doc :- ParseDocument(text, depth);
      var value :- ToValue(doc);
      var _ :- CanonicalBytes(value);
      Success(value)
  }

  method StrictRead(bytes: seq<Utf8.byte>, depth: nat) returns (r: Result<Json>)
    ensures r == Read(bytes, depth)
  {
    if |bytes| > MAX_INPUT_BYTES {
      return Failure;
    }
    var text :- Utf8.Decode(bytes);
    var doc :- ParseDocument(text, depth);
    var value :- ToValue(doc);
    var _ :- EncodeCanonical(value);
    r := Success(value);
  }

  // ----- the value of a document's canonical form is the value itself -----

  lemma {:induction false} DocOfValue(v: Json)
    requires Encodable(v)
    ensures Printable(DocOf(v)) && ToValue(DocOf(v)) == Success(v)
  {
    match v {
      case Arr(items) =>
        var docs := DocOf(v).items;
        forall i | 0 <= i < |items|
          ensures Printable(docs[i]) && ToValue(docs[i]) == Success(items[i])
        {
          DocOfValue(items[i]);
        }
        ValuesOf(docs, items);
      case Obj(members) =>
        var docs := DocOf(v).members;
        var keys := Ascending(members.Keys);
        SortedUniqueDistinct(keys);
        forall i | 0 <= i < |docs|
          ensures docs[i].key == keys[i] && keys[i] in members && Printable(docs[i].value)
          ensures ToValue(docs[i].value) == Success(members[keys[i]])
        {
          assert keys[i] in keys;
          DocOfValue(members[keys[i]]);
        }
        EntriesOf(docs, keys, members);
        assert members == map k | k in keys :: members[k];
      case _ =>
    }
  }

  lemma {:induction false} ValuesOf(docs: seq<Doc>, values: seq<Json>)
    requires |docs| == |values|
    requires forall i | 0 <= i < |docs| :: ToValue(docs[i]) == Success(values[i])
    ensures ToValues(docs) == Success(values)
  {
    if docs != [] {
      var n := |docs| - 1;
      ValuesOf(docs[..n], values[..n]);
      assert values == values[..n] + [values[n]];
    }
  }

  lemma {:induction false} EntriesOf(docs: seq<Member>, keys: seq<string>, members: map<string, Json>)
    requires |docs| == |keys| && Distinct(keys)
    requires forall i | 0 <= i < |docs| :: keys[i] in members
    requires forall i | 0 <= i < |docs| :: docs[i].key == keys[i] && ToValue(docs[i].value) == Success(members[keys[i]])
    ensures ToEntries(docs) == Success(map k | k in keys :: members[k])
  {
    hide ToValue;
    if docs != [] {
      var n := |docs| - 1;
      EntriesOf(docs[..n], keys[..n], members);
      OneMoreKey(keys, members);
    }
  }

  lemma OneMoreKey(keys: seq<string>, members: map<string, Json>)
    requires keys != [] && Distinct(keys) && forall i | 0 <= i < |keys| :: keys[i] in members
    ensures var n := |keys| - 1;
            && keys[n] !in keys[..n]
            && (map k | k in keys :: members[k]) == (map k | k in keys[..n] :: members[k])[keys[n] := members[keys[n]]]
  {
    var n := |keys| - 1;
    assert keys == keys[..n] + [keys[n]];
  }

  // ----- the laws -----

  ghost function Depth(v: Json): nat {
    Nesting(DocOf(v))
  }

  /** Reading undoes encoding for every value the encoder accepts and the reader's limits admit. */
  lemma RoundTrip(v: Json, depth: nat)
    requires Encodable(v)
    requires Depth(v) <= depth && |CanonicalBytes(v).value| <= MAX_INPUT_BYTES
    ensures Read(CanonicalBytes(v).value, depth) == Success(v)
  {
    DocOfValue(v);
    Utf8.RoundTrip(CanonicalText(v));
    DocumentParses(DocOf(v), depth);
  }

  /** Canonical bytes determine the value: no limit on depth or size. */
  lemma CanonicalInjective(v: Json, w: Json)
    requires Encodable(v) && Encodable(w)
    ensures CanonicalBytes(v) == CanonicalBytes(w) <==> v == w
  {
    if CanonicalBytes(v) == CanonicalBytes(w) {
      DocOfValue(v);
      DocOfValue(w);
      Utf8.RoundTrip(CanonicalText(v));
      Utf8.RoundTrip(CanonicalText(w));
      var depth := Max(Depth(v), Depth(w));
      DocumentParses(DocOf(v), depth);
      DocumentParses(DocOf(w), depth);
    }
  }

  /** A document that repeats a member name in some object, at any depth. */
  predicate RepeatsName(d: Doc) {
    match d
    case DArr(items) => exists i | 0 <= i < |items| :: RepeatsName(items[i])
    case DObj(members) =>
      || (exists i, j | 0 <= i < j < |members| :: members[i].key == members[j].key)
      || (exists i | 0 <= i < |members| :: RepeatsName(members[i].value))
    case _ => false
  }

  /** A document that holds, at any depth, a number that is not an integer of the value type. */
  predicate HasFloat(d: Doc) {
    match d
    case DFloat => true
    case DArr(items) => exists i | 0 <= i < |items| :: HasFloat(items[i])
    case DObj(members) => exists i | 0 <= i < |members| :: HasFloat(members[i].value)
    case _ => false
  }

  /** The visitor refuses exactly the documents with a repeated name or a float. */
  lemma {:induction false} VisitorRefusals(d: Doc)
    ensures ToValue(d).Failure? <==> RepeatsName(d) || HasFloat(d)
  {
    match d {
      case DArr(items) =>
        forall i | 0 <= i < |items|
          ensures ToValue(items[i]).Failure? <==> RepeatsName(items[i]) || HasFloat(items[i])
        {
          VisitorRefusals(items[i]);
        }
        ValuesFail(items);
      case DObj(members) =>
        forall i | 0 <= i < |members|
          ensures ToValue(members[i].value).Failure? <==> RepeatsName(members[i].value) || HasFloat(members[i].value)
        {
          VisitorRefusals(members[i].value);
        }
        EntriesFail(members);
      case _ =>
    }
  }

  lemma {:induction false} ValuesFail(items: seq<Doc>)
    ensures ToValues(items).Failure? <==> exists i | 0 <= i < |items| :: ToValue(items[i]).Failure?
  {
    if items != [] {
      var n := |items| - 1;
      ValuesFail(items[..n]);
      assert forall i | 0 <= i < n :: items[..n][i] == items[i];
    }
  }

  lemma {:induction false} EntriesFail(members: seq<Member>)
    ensures ToEntries(members).Failure? <==>
              || (exists i, j | 0 <= i < j < |members| :: members[i].key == members[j].key)
              || (exists i | 0 <= i < |members| :: ToValue(members[i].value).Failure?)
    ensures ToEntries(members).Success? ==>
              forall k :: k in ToEntries(members).value <==> exists i | 0 <= i < |members| :: members[i].key == k
  {
    hide ToValue;
    if members != [] {
      var n := |members| - 1;
      EntriesFail(members[..n]);
      assert forall i | 0 <= i < n :: members[..n][i] == members[i];
      if ToEntries(members[..n]).Success? {
        var init := ToEntries(members[..n]).value;
        if members[n].key in init {
          var i :| 0 <= i < n && members[..n][i].key == members[n].key;
          assert members[i].key == members[n].key;
        }
      }
    }
  }

  /** Names repeated at any depth, floats, unsafe integers and names beyond ASCII are refused, and nothing else is. */
  lemma ReadAccepts(bytes: seq<Utf8.byte>, depth: nat)
    ensures Read(bytes, depth).Success? <==>
              && |bytes| <= MAX_INPUT_BYTES
              && Utf8.Decode(bytes).Success?
              && var parsed := ParseDocument(Utf8.Decode(bytes).value, depth);
              && parsed.Success?
              && !RepeatsName(parsed.value)
              && !HasFloat(parsed.value)
              && (ToValue(parsed.value).Success? ==> Encodable(ToValue(parsed.value).value))
  {
    if Utf8.Decode(bytes).Success? {
      var parsed := ParseDocument(Utf8.Decode(bytes).value, depth);
      if parsed.Success? {
        VisitorRefusals(parsed.value);
      }
    }
  }

  /** Position `i` goes to `p[i]`, and `q` brings it back. */
  predicate ThereAndBack(p: seq<nat>, q: seq<nat>, i: nat) {
    i < |p| && p[i] < |q| && q[p[i]] == i
  }

  /** The positions `p` put a list of this length in another order, and `q` back. */
  predicate IsReorder(p: seq<nat>, q: seq<nat>, n: nat) {
    && |p| == |q| == n
    && (forall i: nat | i < n :: ThereAndBack(p, q, i))
    && (forall i: nat | i < n :: ThereAndBack(q, p, i))
  }

  /** The same document, but for the order in which members are written, at every depth. */
  ghost predicate Reordered(a: Doc, b: Doc)
    decreases a, 1
  {
    match (a, b)
    case (DArr(xs), DArr(ys)) => |xs| == |ys| && forall i | 0 <= i < |xs| :: Reordered(xs[i], ys[i])
    case (DObj(xs), DObj(ys)) => |xs| == |ys| && exists p, q | IsReorder(p, q, |xs|) :: ReorderedMembers(a, xs, ys, p)
    case _ => a == b
  }

  /** Every member of the object `a` stands in the other list where `p` says. */
  ghost predicate ReorderedMembers(a: Doc, xs: seq<Member>, ys: seq<Member>, p: seq<nat>)
    requires a == DObj(xs)
    decreases a, 0
  {
    |p| == |xs| && forall i | 0 <= i < |xs| ::
      p[i] < |ys| && xs[i].key == ys[p[i]].key && Reordered(xs[i].value, ys[p[i]].value)
  }

  /** The order of members, at any depth at once, changes neither acceptance nor the value, hence not the canonical bytes. */
  lemma {:induction false} InsertionOrderIrrelevant(a: Doc, b: Doc)
    requires Reordered(a, b)
    ensures ToValue(a) == ToValue(b)
    decreases a
  {
    hide ThereAndBack;
    match (a, b) {
      case (DArr(xs), DArr(ys)) =>
        forall i | 0 <= i < |xs|
          ensures ToValue(xs[i]) == ToValue(ys[i])
        {
          InsertionOrderIrrelevant(xs[i], ys[i]);
        }
        SameValues(xs, ys);
      case (DObj(xs), DObj(ys)) =>
        var p, q :| IsReorder(p, q, |xs|) && ReorderedMembers(a, xs, ys, p);
        forall i: nat | i < |xs|
          ensures SameAt(xs, ys, p, i)
        {
          InsertionOrderIrrelevant(xs[i].value, ys[p[i]].value);
        }
        hide IsReorder;
        SameEntries(xs, ys, p, q);
      case _ =>
    }
  }

  /** The `i`-th member has the name and the value of the one that `p` says. */
  predicate SameAt(xs: seq<Member>, ys: seq<Member>, p: seq<nat>, i: nat) {
    i < |xs| && i < |p| && p[i] < |ys| && xs[i].key == ys[p[i]].key && ToValue(xs[i].value) == ToValue(ys[p[i]].value)
  }

  ghost predicate AllSame(xs: seq<Member>, ys: seq<Member>, p: seq<nat>) {
    forall i: nat | i < |xs| :: SameAt(xs, ys, p, i)
  }

  lemma {:induction false} SameValues(xs: seq<Doc>, ys: seq<Doc>)
    requires |xs| == |ys| && forall i | 0 <= i < |xs| :: ToValue(xs[i]) == ToValue(ys[i])
    ensures ToValues(xs) == ToValues(ys)
  {
    if xs != [] {
      SameValues(xs[..|xs| - 1], ys[..|ys| - 1]);
    }
  }

  lemma AllSameBack(xs: seq<Member>, ys: seq<Member>, p: seq<nat>, q: seq<nat>)
    requires |xs| == |ys| && IsReorder(p, q, |xs|) && AllSame(xs, ys, p)
    ensures IsReorder(q, p, |ys|) && AllSame(ys, xs, q)
  {
    hide ToValue;
    forall j: nat | j < |ys|
      ensures SameAt(ys, xs, q, j)
    {
      assert ThereAndBack(q, p, j);
      assert SameAt(xs, ys, p, q[j]);
    }
  }

  /** What is refused in one order is refused in the other. */
  lemma RefusalKept(xs: seq<Member>, ys: seq<Member>, p: seq<nat>, q: seq<nat>)
    requires |xs| == |ys| && IsReorder(p, q, |xs|) && AllSame(xs, ys, p)
    ensures ToEntries(xs).Failure? ==> ToEntries(ys).Failure?
  {
    hide ToValue, ToEntries;
    EntriesFail(xs);
    EntriesFail(ys);
    if i: nat, j: nat :| i < j < |xs| && xs[i].key == xs[j].key {
      assert ThereAndBack(p, q, i) && ThereAndBack(p, q, j);
      assert SameAt(xs, ys, p, i) && SameAt(xs, ys, p, j);
      var k, l := if p[i] < p[j] then p[i] else p[j], if p[i] < p[j] then p[j] else p[i];
      assert 0 <= k < l < |ys| && ys[k].key == ys[l].key;
    }
    if i: nat :| i < |xs| && ToValue(xs[i].value).Failure? {
      assert SameAt(xs, ys, p, i);
    }
  }

  /** A member read in one order is read in the other, with the same value. */
  lemma EntryKept(xs: seq<Member>, ys: seq<Member>, p: seq<nat>, k: string)
    requires AllSame(xs, ys, p) && ToEntries(xs).Success? && ToEntries(ys).Success? && k in ToEntries(xs).value
    ensures k in ToEntries(ys).value && ToEntries(ys).value[k] == ToEntries(xs).value[k]
  {
    hide ToValue, ToEntries;
    EntriesHold(xs);
    EntriesHold(ys);
    var m :| m in xs && m.key == k;
    var i: nat :| i < |xs| && xs[i] == m;
    assert SameAt(xs, ys, p, i);
    assert ys[p[i]] in ys;
  }

  lemma SameEntries(xs: seq<Member>, ys: seq<Member>, p: seq<nat>, q: seq<nat>)
    requires |xs| == |ys| && IsReorder(p, q, |xs|) && forall i: nat | i < |xs| :: SameAt(xs, ys, p, i)
    ensures ToEntries(xs) == ToEntries(ys)
  {
    hide ToValue, ToEntries, IsReorder, SameAt;
    AllSameBack(xs, ys, p, q);
    hide AllSame;
    RefusalKept(xs, ys, p, q);
    RefusalKept(ys, xs, q, p);
    if ToEntries(xs).Success? {
      var x, y := ToEntries(xs).value, ToEntries(ys).value;
      forall k | k in x
        ensures k in y && x[k] == y[k]
      {
        EntryKept(xs, ys, p, k);
      }
      forall k | k in y
        ensures k in x
      {
        EntryKept(ys, xs, q, k);
      }
      assert x == y;
    }
  }

  lemma {:induction false} EntriesHold(members: seq<Member>)
    requires ToEntries(members).Success?
    ensures var r := ToEntries(members).value;
            && (forall m | m in members :: m.key in r && ToValue(m.value) == Success(r[m.key]))
            && (forall k | k in r :: exists m :: m in members && m.key == k)
  {
    if members != [] {
      var n := |members| - 1;
      EntriesHold(members[..n]);
      assert members == members[..n] + [members[n]];
    }
  }
}
