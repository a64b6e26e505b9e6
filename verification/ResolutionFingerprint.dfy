/** The digests that name a frozen resolution and a run, studied on the bytes that are hashed. */
module ResolutionFingerprint {
  import opened Basics
  import opened Json
  import opened CanonicalJson
  import StrictJson
  import Utf8

  /** The module fields that count as resolution evidence. */
  const PROJECTED_FIELDS: seq<string> := [
    "module_index", "identity", "state", "candidates_complete",
    "candidate_pair_ids", "unavailable_pair_ids", "selected_pair_id", "reason"
  ]

  function Project(m: Json): Json {
    Obj(map k | k in PROJECTED_FIELDS :: Index(m, k))
  }

  function SortKey(m: Json): Option<u64> {
    AsU64(Index(m, "module_index"))
  }

  /** The order of optional integers: nothing comes first. */
  predicate KeyBelow(a: Option<u64>, b: Option<u64>) {
    match (a, b)
    case (None, Some(_)) => true
    case (Some(x), Some(y)) => x < y
    case (_, None) => false
  }

  /** Puts `m` after every element of `sorted` whose key is not above its own. */
  function InsertByKey(m: Json, sorted: seq<Json>): (r: seq<Json>)
    ensures forall x :: x in r <==> x == m || x in sorted
  {
    if sorted == [] || !KeyBelow(SortKey(m), SortKey(sorted[|sorted| - 1])) then sorted + [m]
    else
      var n := |sorted| - 1;
      assert sorted == sorted[..n] + [sorted[n]];
      InsertByKey(m, sorted[..n]) + [sorted[n]]
  }

  /** A stable sort by module index. */
  function SortByIndex(modules: seq<Json>): (r: seq<Json>)
    ensures forall x :: x in r <==> x in modules
  {
    if modules == [] then []
    else
      var n := |modules| - 1;
      assert modules == modules[..n] + [modules[n]];
      InsertByKey(modules[n], SortByIndex(modules[..n]))
  }

  function Projections(modules: seq<Json>): seq<Json> {
    seq(|modules|, i requires 0 <= i < |modules| => Project(modules[i]))
  }

  function Evidence(manifest: Json, modules: seq<Json>): Json {
    Arr([
      Str("resolution-evidence-v1"),
      Index(manifest, "dump_sha256"),
      Index(manifest, "inspector_version"),
      Index(manifest, "selection_version"),
      Arr(SortByIndex(Projections(modules)))
    ])
  }

  /** The bytes whose digest is the resolution fingerprint. */
  ghost function Preimage(manifest: Json): Result<seq<Utf8.byte>> {
    match GetArray(manifest, "modules")
    case None => Failure
    case Some(modules) => CanonicalBytes(Evidence(manifest, modules))
  }

  /** The inner loop: one field after the other. */
  method ProjectModule(m: Json) returns (projected: Json)
    ensures projected == Project(m)
  {
    var selected: map<string, Json> := map[];
    for k := 0 to |PROJECTED_FIELDS|
      invariant selected == map key | key in PROJECTED_FIELDS[..k] :: Index(m, key)
    {
      assert PROJECTED_FIELDS[..k + 1] == PROJECTED_FIELDS[..k] + [PROJECTED_FIELDS[k]];
      selected := selected[PROJECTED_FIELDS[k] := Index(m, PROJECTED_FIELDS[k])];
    }
    assert PROJECTED_FIELDS[..|PROJECTED_FIELDS|] == PROJECTED_FIELDS;
    projected := Obj(selected);
  }

  method ResolutionPreimage(manifest: Json) returns (r: Result<seq<Utf8.byte>>)
    ensures r == Preimage(manifest)
  {
    hide Project, CanonicalBytes, SortByIndex;
    var listed := GetArray(manifest, "modules");
    if listed.None? {
      return Failure;
    }
    var modules: seq<Json> := [];
    for i := 0 to |listed.value|
      invariant modules == Projections(listed.value[..i])
    {
      var projected := ProjectModule(listed.value[i]);
      modules := modules + [projected];
    }
    assert listed.value[..|listed.value|] == listed.value;
    r := EncodeCanonical(Arr([
      Str("resolution-evidence-v1"),
      Index(manifest, "dump_sha256"),
      Index(manifest, "inspector_version"),
      Index(manifest, "selection_version"),
      Arr(SortByIndex(modules))
    ]));
  }

  // ----- when two manifests have the same fingerprint -----

  ghost predicate DistinctIndexes(modules: seq<Json>) {
    forall i, j | 0 <= i < j < |modules| :: SortKey(modules[i]) != SortKey(modules[j])
  }

  ghost predicate SameProjection(a: Json, b: Json) {
    forall k | k in PROJECTED_FIELDS :: Index(a, k) == Index(b, k)
  }

  ghost predicate Covers(a: seq<Json>, b: seq<Json>) {
    forall x | x in a :: exists y :: y in b && SameProjection(x, y)
  }

  /** Equal Dump hash, versions, and projected fields module by module, in whatever order the modules stand. */
  ghost predicate SameEvidence(a: Json, b: Json)
    requires GetArray(a, "modules").Some? && GetArray(b, "modules").Some?
  {
    && Index(a, "dump_sha256") == Index(b, "dump_sha256")
    && Index(a, "inspector_version") == Index(b, "inspector_version")
    && Index(a, "selection_version") == Index(b, "selection_version")
    && Covers(GetArray(a, "modules").value, GetArray(b, "modules").value)
    && Covers(GetArray(b, "modules").value, GetArray(a, "modules").value)
  }

  lemma ProjectionEquality(a: Json, b: Json)
    ensures Project(a) == Project(b) <==> SameProjection(a, b)
  {
    if Project(a) == Project(b) {
      forall k | k in PROJECTED_FIELDS
        ensures Index(a, k) == Index(b, k)
      {
        assert Project(a).members[k] == Index(a, k) && Project(b).members[k] == Index(b, k);
      }
    }
    if SameProjection(a, b) {
      assert Project(a).members == Project(b).members;
    }
  }

  lemma ProjectionKey(m: Json)
    ensures SortKey(Project(m)) == SortKey(m)
  {
    assert "module_index" == PROJECTED_FIELDS[0];
    assert Project(m).members["module_index"] == Index(m, "module_index");
  }

  ghost predicate Ordered(s: seq<Json>) {
    forall i, j | 0 <= i < j < |s| :: KeyBelow(SortKey(s[i]), SortKey(s[j]))
  }

  lemma {:induction false} InsertOrdered(m: Json, s: seq<Json>)
    requires Ordered(s) && forall x | x in s :: SortKey(x) != SortKey(m)
    ensures Ordered(InsertByKey(m, s))
  {
    if s != [] {
      var n := |s| - 1;
      assert s[n] in s;
      if KeyBelow(SortKey(m), SortKey(s[n])) {
        InsertOrdered(m, s[..n]);
        var r := InsertByKey(m, s[..n]);
        forall i | 0 <= i < |r|
          ensures KeyBelow(SortKey(r[i]), SortKey(s[n]))
        {
          assert r[i] in r;
        }
      }
    }
  }

  lemma {:induction false} SortOrdered(s: seq<Json>)
    requires DistinctIndexes(s)
    ensures Ordered(SortByIndex(s))
  {
    if s != [] {
      var n := |s| - 1;
      SortOrdered(s[..n]);
      forall x | x in SortByIndex(s[..n])
        ensures SortKey(x) != SortKey(s[n])
      {
        assert x in s[..n];
      }
      InsertOrdered(s[n], SortByIndex(s[..n]));
    }
  }

  lemma {:induction false} OrderedUnique(a: seq<Json>, b: seq<Json>)
    requires Ordered(a) && Ordered(b)
    requires forall x :: x in a <==> x in b
    ensures a == b
  {
    assert a == [] <==> b == [] by {
      assert a != [] ==> a[0] in b;
      assert b != [] ==> b[0] in a;
    }
    if a != [] {
      assert a[0] in b && b[0] in a;
      assert a[0] == b[0];
      forall x
        ensures x in a[1..] <==> x in b[1..]
      {
        assert x in a[1..] ==> x in a && x != a[0];
        assert x in b[1..] ==> x in b && x != b[0];
        assert a == [a[0]] + a[1..] && b == [b[0]] + b[1..];
      }
      OrderedUnique(a[1..], b[1..]);
      assert a == [a[0]] + a[1..] && b == [b[0]] + b[1..];
    }
  }

  lemma ProjectionsCover(a: seq<Json>, b: seq<Json>)
    ensures Covers(a, b) <==> forall x | x in Projections(a) :: x in Projections(b)
  {
    var p, q := Projections(a), Projections(b);
    if Covers(a, b) {
      forall i | 0 <= i < |p|
        ensures p[i] in q
      {
        assert a[i] in a;
        var y :| y in b && SameProjection(a[i], y);
        var j :| 0 <= j < |b| && b[j] == y;
        ProjectionEquality(a[i], y);
        assert q[j] == p[i];
      }
    }
    if forall x | x in p :: x in q {
      forall i | 0 <= i < |a|
        ensures exists y :: y in b && SameProjection(a[i], y)
      {
        assert p[i] in q;
        var j :| 0 <= j < |q| && q[j] == p[i];
        ProjectionEquality(a[i], b[j]);
        assert b[j] in b;
      }
    }
  }

  lemma ProjectionsDistinct(modules: seq<Json>)
    requires DistinctIndexes(modules)
    ensures DistinctIndexes(Projections(modules))
  {
    forall i | 0 <= i < |modules|
      ensures SortKey(Projections(modules)[i]) == SortKey(modules[i])
    {
      ProjectionKey(modules[i]);
    }
  }

  /**
   Two resolutions hash the same bytes exactly when they hold the same evidence: the order of the
   modules and every other field of a module, evidence and review references among them, never matter.
   */
  lemma PreimageEquality(a: Json, b: Json)
    requires GetArray(a, "modules").Some? && GetArray(b, "modules").Some?
    requires DistinctIndexes(GetArray(a, "modules").value) && DistinctIndexes(GetArray(b, "modules").value)
    requires Preimage(a).Success? && Preimage(b).Success?
    ensures Preimage(a) == Preimage(b) <==> SameEvidence(a, b)
  {
    var ma, mb := GetArray(a, "modules").value, GetArray(b, "modules").value;
    var sa, sb := SortByIndex(Projections(ma)), SortByIndex(Projections(mb));
    StrictJson.CanonicalInjective(Evidence(a, ma), Evidence(b, mb));
    ProjectionsCover(ma, mb);
    ProjectionsCover(mb, ma);
    ProjectionsDistinct(ma);
    ProjectionsDistinct(mb);
    SortOrdered(Projections(ma));
    SortOrdered(Projections(mb));
    if Preimage(a) == Preimage(b) {
      var x, y := Evidence(a, ma).items, Evidence(b, mb).items;
      assert x[1] == y[1] && x[2] == y[2] && x[3] == y[3] && x[4] == y[4];
      assert sa == sb;
      assert forall p :: p in Projections(ma) <==> p in Projections(mb);
    }
    if SameEvidence(a, b) {
      OrderedUnique(sa, sb);
    }
  }

  // ----- the run key -----

  function RunKeyEvidence(run: Json): Json {
    Arr([
      Str("qa-run-key-v1"),
      Index(run, "occurrence_id"),
      Index(run, "resolution_evidence_fingerprint"),
      Index(run, "context_sha256"),
      Str("2.0"),
      Str("evidence-v1"),
      Index(run, "demand_generation"),
      Index(run, "retry_attempt")
    ])
  }

  /** The idempotency key separates runs by these five facts and by nothing else. */
  lemma RunKeyEquality(a: Json, b: Json)
    requires Encodable(RunKeyEvidence(a)) && Encodable(RunKeyEvidence(b))
    ensures CanonicalBytes(RunKeyEvidence(a)) == CanonicalBytes(RunKeyEvidence(b)) <==>
              && Index(a, "occurrence_id") == Index(b, "occurrence_id")
              && Index(a, "resolution_evidence_fingerprint") == Index(b, "resolution_evidence_fingerprint")
              && Index(a, "context_sha256") == Index(b, "context_sha256")
              && Index(a, "demand_generation") == Index(b, "demand_generation")
              && Index(a, "retry_attempt") == Index(b, "retry_attempt")
  {
    StrictJson.CanonicalInjective(RunKeyEvidence(a), RunKeyEvidence(b));
    var x, y := RunKeyEvidence(a).items, RunKeyEvidence(b).items;
    if x == y {
      assert x[1] == y[1] && x[2] == y[2] && x[3] == y[3] && x[6] == y[6] && x[7] == y[7];
    }
  }
}
