/** Whether a returned frame may speak for a requested one: the module test of the legacy reply parser. */
module ReplyProvenance {
  import opened Basics
  import opened Text
  import opened Json
  import opened Evidence
  import opened Frames

  // ----- addresses and ids -----

  function HexAddress(v: Json): Option<u64> {
    if AsU64(v).Some? then AsU64(v)
    else
      var s :- AsStr(v);
      ParseUnsigned(TrimStartMatches(TrimStartMatches(s, "0x"), "0X"), Hexadecimal, U64_BOUND)
  }

  function FieldAddress(v: Json, key: string): Option<u64> {
    var x :- Get(v, key);
    HexAddress(x)
  }

  /** The hexadecimal digits of an id, in lower case. */
  function NormalId(s: string): string {
    if s == "" then "" else (if IsHexDigit(s[0]) then [LowerChar(s[0])] else "") + NormalId(s[1..])
  }

  predicate Contains(base: u64, size: u64, address: u64) {
    base <= address < SaturatingAdd(base, size)
  }

  /** The numeric base of a captured module; an unreadable one counts as zero. */
  function BaseOf(m: InspectModule): u64 {
    match ParseHex(m.imageBase)
    case Some(base) => base
    case None => 0
  }

  // ----- the claim -----

  /** A returned frame, the address it gives, and the requested frame with its captured module. */
  datatype Claim = Claim(
    reply: Json, frame: Json, responded: u64, requested: u64, raw: UnwindFrame, known: Option<InspectModule>)

  /** What is known about the module of the requested frame: the walker's word first, then the dump's. */
  datatype Wanted = Wanted(codeId: Option<string>, debugId: Option<string>, base: Option<u64>, size: Option<u64>)

  function WantedOf(c: Claim): Wanted {
    var image := c.raw.image;
    Wanted(
      OrElse(if image.Some? then image.value.codeId else None, if c.known.Some? then Some(c.known.value.codeId) else None),
      OrElse(if image.Some? then image.value.debugId else None, if c.known.Some? then c.known.value.debugId else None),
      if image.Some? then Some(image.value.imageBase) else if c.known.Some? then Some(BaseOf(c.known.value)) else None,
      if image.Some? then Some(image.value.imageSize) else if c.known.Some? then Some(c.known.value.imageSize) else None)
  }

  function WantedName(c: Claim): Option<string> {
    if c.raw.image.Some? then Some(c.raw.image.value.codeFile)
    else if c.known.Some? then Some(c.known.value.codeFile)
    else None
  }

  // ----- modules of the reply -----

  /** A module of the reply gives a range that holds one of the two addresses. */
  predicate Around(c: Claim, m: Json) {
    var base, size := FieldAddress(m, "image_addr"), FieldAddress(m, "image_size");
    base.Some? && size.Some?
    && (Contains(base.value, size.value, c.responded) || Contains(base.value, size.value, c.requested))
  }

  /** A module of the reply that gives part of a range must give one around the addresses. */
  predicate RangeOk(c: Claim, m: Json) {
    Get(m, "image_addr").Some? || Get(m, "image_size").Some? ==> Around(c, m)
  }

  predicate SameId(a: string, b: string) {
    NormalId(a) == NormalId(b)
  }

  /** The same image: by debug id when both sides know one, otherwise by code id and exact range. */
  predicate SameImage(w: Wanted, m: Json) {
    var debug, code := GetStr(m, "debug_id"), GetStr(m, "code_id");
    if w.debugId.Some? && debug.Some? then SameId(w.debugId.value, debug.value)
    else
      && w.codeId.Some? && code.Some? && SameId(w.codeId.value, code.value)
      && w.base.Some? && FieldAddress(m, "image_addr") == w.base
      && w.size.Some? && FieldAddress(m, "image_size") == w.size
  }

  predicate IdentityMatches(c: Claim, m: Json) {
    RangeOk(c, m) && SameImage(WantedOf(c), m)
  }

  // ----- finding the module -----

  predicate HasPath(m: Json, path: string) {
    var file := GetStr(m, "code_file");
    file.Some? && Lower(file.value) == Lower(path)
  }

  predicate HasName(m: Json, path: string) {
    var file := GetStr(m, "code_file");
    file.Some? && LowerBasename(file.value) == LowerBasename(path)
  }

  /** The indexes below `n` of the modules that satisfy `p`, in ascending order. */
  function Where(modules: seq<Json>, p: Json -> bool, n: nat): (r: seq<nat>)
    requires n <= |modules|
    ensures forall i: nat :: i in r <==> i < n && p(modules[i])
    ensures Distinct(r)
  {
    if n == 0 then []
    else
      var init := Where(modules, p, n - 1);
      assert forall k | 0 <= k < |init| :: init[k] in init;
      init + (if p(modules[n - 1]) then [n - 1] else [])
  }

  function Ranged(c: Claim, modules: seq<Json>): (r: seq<nat>)
    ensures forall i: nat :: i in r <==> i < |modules| && Around(c, modules[i])
    ensures Distinct(r)
  {
    Where(modules, (m: Json) => Around(c, m), |modules|)
  }

  function NamedLike(modules: seq<Json>, path: string): (r: seq<nat>)
    ensures forall i: nat :: i in r <==> i < |modules| && HasName(modules[i], path)
  {
    Where(modules, (m: Json) => HasName(m, path), |modules|)
  }

  /** The modules that a path may mean: those with this very path, else by name, else by address, else by both. */
  function Meant(c: Claim, modules: seq<Json>, path: string): (r: seq<nat>)
    ensures forall i | i in r :: i < |modules|
  {
    var exact := Where(modules, (m: Json) => HasPath(m, path), |modules|);
    if exact != [] then exact
    else
      var named, ranged := NamedLike(modules, path), Ranged(c, modules);
      if |named| == 1 then named
      else if named == [] then ranged
      else if ranged == [] then named
      else Where(modules, (m: Json) => HasName(m, path) && Around(c, m), |modules|)
  }

  const PATH_FIELDS: seq<string> := ["package", "module", "code_file"]

  /** The paths that a frame gives in the first `n` fields; a path that is no text spoils it. */
  function PathsOf(frame: Json, n: nat): Option<seq<string>>
    requires n <= |PATH_FIELDS|
  {
    if n == 0 then Some([])
    else
      var init :- PathsOf(frame, n - 1);
      match Get(frame, PATH_FIELDS[n - 1])
      case None => Some(init)
      case Some(Null) => Some(init)
      case Some(v) =>
        var path :- AsStr(v);
        Some(init + [path])
  }

  /** The module that all paths mean, or without paths the only one around the addresses. */
  predicate Means(c: Claim, modules: seq<Json>, paths: seq<string>, i: nat) {
    if paths == [] then Ranged(c, modules) == [i] else forall k | 0 <= k < |paths| :: Meant(c, modules, paths[k]) == [i]
  }

  /** The frame speaks for the requested frame. */
  predicate Accepted(c: Claim) {
    match PathsOf(c.frame, |PATH_FIELDS|)
    case None => false
    case Some(paths) =>
      match GetArray(c.reply, "modules")
      case None => NamesAgree(c, paths)
      case Some(modules) =>
        if modules == [] then NamesAgree(c, paths)
        else exists i | 0 <= i < |modules| :: Means(c, modules, paths, i) && IdentityMatches(c, modules[i])
  }

  /** Without a module list every path must have the requested module's own file name. */
  predicate NamesAgree(c: Claim, paths: seq<string>) {
    forall k | 0 <= k < |paths| :: WantedName(c).Some? && LowerBasename(paths[k]) == LowerBasename(WantedName(c).value)
  }

  // ----- the loops -----

  lemma {:induction false} SpoiltPaths(frame: Json, i: nat, n: nat)
    requires i <= n <= |PATH_FIELDS| && PathsOf(frame, i).None?
    ensures PathsOf(frame, n).None?
    decreases n - i
  {
    if i < n {
      SpoiltPaths(frame, i + 1, n);
    }
  }

  method CollectPaths(frame: Json) returns (paths: Option<seq<string>>)
    ensures paths == PathsOf(frame, |PATH_FIELDS|)
  {
    var found: seq<string> := [];
    for k := 0 to |PATH_FIELDS|
      invariant PathsOf(frame, k) == Some(found)
    {
      var field := Get(frame, PATH_FIELDS[k]);
      if field.None? || field.value.Null? {
        continue;
      }
      if !field.value.Str? {
        SpoiltPaths(frame, k + 1, |PATH_FIELDS|);
        return None;
      }
      found := found + [field.value.s];
    }
    paths := Some(found);
  }

  /** The loop over the paths: all of them must mean one and the same module. */
  method SelectModule(c: Claim, modules: seq<Json>, paths: seq<string>) returns (selected: Option<nat>)
    ensures forall i: nat :: selected == Some(i) <==> Means(c, modules, paths, i)
  {
    hide Meant, Ranged;
    selected := None;
    for k := 0 to |paths|
      invariant selected.None? <==> k == 0
      invariant selected.Some? ==> forall j | 0 <= j < k :: Meant(c, modules, paths[j]) == [selected.value]
    {
      var meant := Meant(c, modules, paths[k]);
      if |meant| != 1 || (selected.Some? && selected.value != meant[0]) {
        forall i: nat
          ensures !Means(c, modules, paths, i)
        {
          assert Meant(c, modules, paths[k]) == meant;
          if selected.Some? {
            assert Meant(c, modules, paths[0]) == [selected.value];
          }
        }
        return None;
      }
      assert meant == [meant[0]];
      selected := Some(meant[0]);
    }
    if paths == [] {
      var ranged := Ranged(c, modules);
      if |ranged| == 1 {
        assert ranged == [ranged[0]];
        selected := Some(ranged[0]);
      }
    } else {
      assert Meant(c, modules, paths[0]) == [selected.value];
    }
  }

  /** `response_provenance_matches` */
  method MatchProvenance(c: Claim) returns (ok: bool)
    ensures ok <==> Accepted(c)
  {
    hide PathsOf, IdentityMatches, Means, NamesAgree;
    var paths := CollectPaths(c.frame);
    if paths.None? {
      return false;
    }
    var modules := GetArray(c.reply, "modules");
    if modules.None? || modules.value == [] {
      return NamesAgree(c, paths.value);
    }
    var selected := SelectModule(c, modules.value, paths.value);
    match selected {
      case None => ok := false;
      case Some(i) =>
        MeansInRange(c, modules.value, paths.value, i);
        ok := IdentityMatches(c, modules.value[i]);
    }
  }

  lemma MeansInRange(c: Claim, modules: seq<Json>, paths: seq<string>, i: nat)
    requires Means(c, modules, paths, i)
    ensures i < |modules|
  {
    assert i in [i];
    if paths == [] {
      assert i in Ranged(c, modules);
    } else {
      assert Meant(c, modules, paths[0]) == [i];
    }
  }

  // ----- what acceptance means -----

  /** The modules that a reply lists, if it lists any. */
  predicate Lists(c: Claim, modules: seq<Json>) {
    GetArray(c.reply, "modules") == Some(modules) && modules != []
  }

  /**
   No name suffices: against a reply that lists modules, none of them with the debug id of the requested
   module, no frame speaks for it, whatever paths and addresses it gives.
   */
  lemma NamesNeverSuffice(c: Claim, modules: seq<Json>)
    requires Lists(c, modules) && WantedOf(c).debugId.Some?
    requires forall i | 0 <= i < |modules| ::
               GetStr(modules[i], "debug_id").Some? && !SameId(GetStr(modules[i], "debug_id").value, WantedOf(c).debugId.value)
    ensures !Accepted(c)
  {
    hide Means, PathsOf, RangeOk, NamesAgree, WantedOf;
  }

  /** Without a path a frame speaks exactly for the only listed module around its addresses, if that is the requested image. */
  lemma PathlessFrames(c: Claim, modules: seq<Json>)
    requires Lists(c, modules) && forall k | 0 <= k < |PATH_FIELDS| :: Get(c.frame, PATH_FIELDS[k]).None?
    ensures Accepted(c) <==>
              exists i: nat | i < |modules| ::
                && Around(c, modules[i]) && (forall j: nat | j < |modules| && Around(c, modules[j]) :: j == i)
                && SameImage(WantedOf(c), modules[i])
  {
    hide SameImage, Around;
    NoPaths(c.frame);
    forall i: nat | i < |modules|
      ensures Ranged(c, modules) == [i] <==>
                Around(c, modules[i]) && forall j: nat | j < |modules| && Around(c, modules[j]) :: j == i
    {
      OnlyOne(c, modules, i);
    }
  }

  lemma NoPaths(frame: Json)
    requires forall k | 0 <= k < |PATH_FIELDS| :: Get(frame, PATH_FIELDS[k]).None?
    ensures PathsOf(frame, |PATH_FIELDS|) == Some([])
  {
    assert PathsOf(frame, 1) == Some([]) && PathsOf(frame, 2) == Some([]) && PathsOf(frame, 3) == Some([]);
  }

  lemma OnlyOne(c: Claim, modules: seq<Json>, i: nat)
    requires i < |modules|
    ensures Ranged(c, modules) == [i] <==>
              Around(c, modules[i]) && forall j: nat | j < |modules| && Around(c, modules[j]) :: j == i
  {
    hide Around, Ranged;
    var r := Ranged(c, modules);
    if r == [i] {
      assert i in r && forall j: nat | j in r :: j == i;
    }
    if Around(c, modules[i]) && forall j: nat | j < |modules| && Around(c, modules[j]) :: j == i {
      assert i in r;
      Single(r, i);
    }
  }

  /** Ids are compared by their digits alone: case and separators, such as dashes, do not matter. */
  lemma {:induction false} IdsIgnoreForm(s: string, t: string, separator: char)
    requires !IsHexDigit(separator)
    ensures SameId(Lower(s + t), s + [separator] + t)
  {
    if s == "" {
      assert "" + [separator] + t == [separator] + t && ([separator] + t)[1..] == t && "" + t == t;
      CaseIgnored(t);
    } else {
      IdsIgnoreForm(s[1..], t, separator);
      assert (s + [separator] + t)[1..] == s[1..] + [separator] + t;
      assert Lower(s + t)[1..] == Lower(s[1..] + t);
    }
  }

  lemma {:induction false} CaseIgnored(s: string)
    ensures NormalId(Lower(s)) == NormalId(s)
  {
    if s != "" {
      CaseIgnored(s[1..]);
      assert Lower(s)[1..] == Lower(s[1..]);
    }
  }

  /** A renamed folder does not matter when the listed file name is unique. */
  lemma RenamedFolder(c: Claim, modules: seq<Json>, path: string, i: nat)
    requires Lists(c, modules) && i < |modules| && PathsOf(c.frame, |PATH_FIELDS|) == Some([path])
    requires forall j | 0 <= j < |modules| :: HasName(modules[j], path) <==> j == i
    ensures Accepted(c) <==> IdentityMatches(c, modules[i])
  {
    hide IdentityMatches, HasName, PathsOf;
    NamedOnce(c, modules, path, i);
    assert Means(c, modules, [path], i);
    forall j: nat | Means(c, modules, [path], j)
      ensures j == i
    {
      assert Meant(c, modules, [path][0]) == [j];
    }
  }

  lemma NamedOnce(c: Claim, modules: seq<Json>, path: string, i: nat)
    requires i < |modules| && forall j | 0 <= j < |modules| :: HasName(modules[j], path) <==> j == i
    ensures Meant(c, modules, path) == [i]
  {
    forall j: nat | j < |modules| && HasPath(modules[j], path)
      ensures j == i
    {
      SamePathSameName(modules[j], path);
      assert HasName(modules[j], path);
    }
    hide HasPath, HasName;
    var exact := Where(modules, (m: Json) => HasPath(m, path), |modules|);
    Single(exact, i);
    var named := NamedLike(modules, path);
    assert i in named;
    Single(named, i);
  }

  lemma Single(r: seq<nat>, i: nat)
    requires Distinct(r) && forall j | j in r :: j == i
    ensures r == [] || r == [i]
  {
    assert |r| > 1 ==> r[0] != r[1];
    forall k | 0 <= k < |r|
      ensures r[k] == i
    {
      assert r[k] in r;
    }
  }

  lemma SamePathSameName(m: Json, path: string)
    requires HasPath(m, path)
    ensures HasName(m, path)
  {
    LowerKeepsName(GetStr(m, "code_file").value);
    LowerKeepsName(path);
  }

  lemma {:induction false} LowerKeepsName(s: string)
    ensures Lower(Basename(s)) == Basename(Lower(s))
  {
    if s != "" && !(s[|s| - 1] == '/' || s[|s| - 1] == '\\') {
      LowerKeepsName(s[..|s| - 1]);
      assert Lower(s)[..|s| - 1] == Lower(s[..|s| - 1]);
      LowerAppend(Basename(s[..|s| - 1]), [s[|s| - 1]]);
    }
  }
}
