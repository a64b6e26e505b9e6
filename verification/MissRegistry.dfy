/** The gateway's registry of public symbol files known to be missing, and its append-only log. */
module MissRegistry {
  import opened Basics
  import opened Text
  import opened Json

  /** How the gateway's language folds case character by character, and which characters it counts as white or alphanumeric. */
  datatype Alphabet = Alphabet(fold: char -> string, white: char -> bool, alnum: char -> bool)

  datatype Identity = Identity(file: string, id: string)

  const MICROSOFT_SOURCE_ID := "crash-cap:microsoft"

  predicate IsSeparator(c: char) {
    c == '/' || c == '\\'
  }

  function Fold(a: Alphabet, s: string): string {
    if s == "" then "" else a.fold(s[0]) + Fold(a, s[1..])
  }

  function Alnums(a: Alphabet, s: string): string {
    if s == "" then "" else (if a.alnum(s[0]) then [s[0]] else "") + Alnums(a, s[1..])
  }

  function StripStart(a: Alphabet, s: string): string {
    if s != "" && a.white(s[0]) then StripStart(a, s[1..]) else s
  }

  function StripEnd(a: Alphabet, s: string): string {
    if s != "" && a.white(s[|s| - 1]) then StripEnd(a, s[..|s| - 1]) else s
  }

  function Strip(a: Alphabet, s: string): string {
    StripEnd(a, StripStart(a, s))
  }

  /** `_module_symbol_identity` */
  function IdentityOf(a: Alphabet, m: Json): Option<Identity> {
    var file :- GetStr(m, "debug_file");
    var id :- GetStr(m, "debug_id");
    var identity := Identity(Fold(a, AfterLast(Strip(a, file), IsSeparator)), Alnums(a, Fold(a, id)));
    if identity.file == "" || identity.id == "" then None else Some(identity)
  }

  function EntryOf(x: Identity): Json {
    Obj(map["debug_file" := Str(x.file), "debug_id" := Str(x.id), "source_id" := Str(MICROSOFT_SOURCE_ID)])
  }

  /** What the JSON parser makes of a line; nothing when it refuses the line. */
  type Line = Option<Json>

  /** The identity that a line of a registry file tells, if any. */
  function LoadedFrom(a: Alphabet, line: Line): Option<Identity> {
    var entry :- line;
    if GetStr(entry, "source_id") == Some(MICROSOFT_SOURCE_ID) then IdentityOf(a, entry) else None
  }

  function Loaded(a: Alphabet, lines: seq<Line>): set<Identity> {
    set i | 0 <= i < |lines| && LoadedFrom(a, lines[i]).Some? :: LoadedFrom(a, lines[i]).value
  }

  // ----- the file -----

  /** What follows the last line break of a file: nothing, blanks, or a text, which the parser may accept. */
  datatype Rest = Ended | Blank | Text(reading: Line)

  datatype RegistryFile = RegistryFile(lines: seq<Line>, rest: Rest)
  {
    /** The lines as they are read: an unfinished last line counts as one. */
    function Read(): seq<Line> {
      match rest
      case Ended => lines
      case Blank => lines + [None]
      case Text(reading) => lines + [reading]
    }
  }

  /** How far the write of an entry came: not at all, into its text, or up to its line break. */
  datatype Piece = Nothing | Part | AllButBreak

  /** A write that fails after some entries, within the next one. */
  datatype Tear = Tear(entries: nat, piece: Piece)

  /**
   An entry and its line break at the end of a file. Behind an unfinished text it makes one line that is no
   JSON: complete JSON with more behind it, or incomplete JSON that an entry cannot complete.
   */
  function WriteEntry(file: RegistryFile, x: Identity): RegistryFile {
    RegistryFile(file.lines + [if file.rest.Text? then None else Some(EntryOf(x))], Ended)
  }

  function WritePiece(file: RegistryFile, x: Identity, piece: Piece): RegistryFile {
    match piece
    case Nothing => file
    case Part => file.(rest := Text(None))
    case AllButBreak => file.(rest := Text(if file.rest.Text? then None else Some(EntryOf(x))))
  }

  function WriteEntries(file: RegistryFile, xs: seq<Identity>): RegistryFile {
    if xs == [] then file else WriteEntry(WriteEntries(file, xs[..|xs| - 1]), xs[|xs| - 1])
  }

  /** An append, which may be torn. */
  function Append(file: RegistryFile, xs: seq<Identity>, tear: Option<Tear>): RegistryFile {
    if tear.Some? && tear.value.entries < |xs| then
      var k := tear.value.entries;
      WritePiece(WriteEntries(file, xs[..k]), xs[k], tear.value.piece)
    else WriteEntries(file, xs)
  }

  // ----- what a response contributes -----

  /** Absent, null, or the given text. */
  predicate AbsentOr(v: Json, key: string, text: string) {
    Index(v, key) == Null || Index(v, key) == Str(text)
  }

  function MissingIn(a: Alphabet, m: Json): Option<Identity> {
    if GetStr(m, "debug_status") == Some("missing") then IdentityOf(a, m) else None
  }

  /** The identities that the first `n` modules report missing, in order of their first mention. */
  function MissingOf(a: Alphabet, modules: seq<Json>, n: nat): (r: seq<Identity>)
    requires n <= |modules|
    ensures Distinct(r)
  {
    if n == 0 then []
    else
      var init := MissingOf(a, modules, n - 1);
      match MissingIn(a, modules[n - 1])
      case None => init
      case Some(x) => if x in init then init else init + [x]
  }

  function Candidates(a: Alphabet, payload: Json): (r: seq<Identity>)
    ensures Distinct(r)
  {
    match GetArray(payload, "modules")
    case None => []
    case Some(modules) => if AbsentOr(payload, "status", "completed") then MissingOf(a, modules, |modules|) else []
  }

  function Unknown(candidates: seq<Identity>, known: set<Identity>): (r: seq<Identity>)
    ensures forall x :: x in r <==> x in candidates && x !in known
    ensures Distinct(candidates) ==> Distinct(r)
  {
    if candidates == [] then []
    else
      var init, last := candidates[..|candidates| - 1], candidates[|candidates| - 1];
      assert candidates == init + [last];
      Unknown(init, known) + (if last in known then [] else [last])
  }

  function AsSet(xs: seq<Identity>): set<Identity> {
    set x | x in xs
  }

  // ----- the registry -----

  /** The state of a registry: what it knows, and its file. */
  datatype Registry = Registry(known: set<Identity>, file: RegistryFile)

  function Opened(a: Alphabet, seed: seq<Line>, file: RegistryFile): Registry {
    Registry(Loaded(a, seed) + Loaded(a, file.Read()), file)
  }

  /** A completed response is recorded; the append to the file may be torn. */
  function Recorded(a: Alphabet, r: Registry, payload: Json, tear: Option<Tear>): Registry {
    var unseen := Unknown(Candidates(a, payload), r.known);
    Registry(r.known + AsSet(unseen), if unseen == [] then r.file else Append(r.file, unseen, tear))
  }

  class MissLog {
    const alphabet: Alphabet
    var known: set<Identity>
    var file: RegistryFile

    ghost function State(): Registry
      reads this
    {
      Registry(known, file)
    }

    constructor (alphabet: Alphabet, seed: seq<Line>, existing: RegistryFile)
      ensures this.alphabet == alphabet
      ensures State() == Opened(alphabet, seed, existing)
    {
      this.alphabet := alphabet;
      known := {};
      file := existing;
      new;
      Load(seed);
      Load(existing.Read());
    }

    method Load(entries: seq<Line>)
      modifies this`known
      ensures known == old(known) + Loaded(alphabet, entries)
    {
      for i := 0 to |entries|
        invariant known == old(known) + Loaded(alphabet, entries[..i])
      {
        var identity := LoadedFrom(alphabet, entries[i]);
        assert Loaded(alphabet, entries[..i + 1]) ==
               Loaded(alphabet, entries[..i]) + (if identity.Some? then {identity.value} else {}) by {
          LoadedSnoc(alphabet, entries[..i], entries[i]);
          assert entries[..i + 1] == entries[..i] + [entries[i]];
        }
        if identity.Some? {
          known := known + {identity.value};
        }
      }
      assert entries[..|entries|] == entries;
    }

    method Contains(m: Json) returns (r: bool)
      ensures r <==> IdentityOf(alphabet, m).Some? && IdentityOf(alphabet, m).value in known
    {
      var identity := IdentityOf(alphabet, m);
      r := identity.Some? && identity.value in known;
    }

    /** The modules of a response, before the lock is taken. */
    method CollectCandidates(payload: Json) returns (candidates: seq<Identity>)
      ensures candidates == Candidates(alphabet, payload)
    {
      hide MissingIn, Distinct;
      candidates := [];
      var modules := GetArray(payload, "modules");
      if !AbsentOr(payload, "status", "completed") || modules.None? {
        return;
      }
      for i := 0 to |modules.value|
        invariant candidates == MissingOf(alphabet, modules.value, i)
      {
        var identity := MissingIn(alphabet, modules.value[i]);
        if identity.Some? && identity.value !in candidates {
          candidates := candidates + [identity.value];
        }
      }
    }

    /** `record_completed_response`: what was unknown is appended to the file and known from then on. */
    method RecordCompletedResponse(payload: Json, tear: Option<Tear>) returns (added: nat)
      modifies this
      ensures State() == Recorded(alphabet, old(State()), payload, tear)
      ensures added == |Unknown(Candidates(alphabet, payload), old(known))|
    {
      var candidates := CollectCandidates(payload);
      var unseen := Unknown(candidates, known);
      if unseen == [] {
        assert AsSet(unseen) == {};
        return 0;
      }
      var i := 0;
      while i < |unseen| && !(tear.Some? && tear.value.entries == i)
        invariant i <= |unseen| && (tear.Some? ==> i <= tear.value.entries)
        invariant file == WriteEntries(old(file), unseen[..i]) && known == old(known)
        decreases |unseen| - i
      {
        assert unseen[..i + 1][..i] == unseen[..i];
        file := WriteEntry(file, unseen[i]);
        i := i + 1;
      }
      if i < |unseen| {
        file := WritePiece(file, unseen[i], tear.value.piece);
      } else {
        assert unseen[..i] == unseen;
      }
      known := known + (set x | x in unseen);
      added := |unseen|;
    }
  }

  lemma LoadedSnoc(a: Alphabet, lines: seq<Line>, last: Line)
    ensures Loaded(a, lines + [last]) ==
            Loaded(a, lines) + (if LoadedFrom(a, last).Some? then {LoadedFrom(a, last).value} else {})
  {
    var all := lines + [last];
    forall x
      ensures x in Loaded(a, all) <==> x in Loaded(a, lines) || LoadedFrom(a, last) == Some(x)
    {
      if LoadedFrom(a, last) == Some(x) {
        assert LoadedFrom(a, all[|lines|]) == Some(x);
      }
      if x in Loaded(a, lines) {
        var i :| 0 <= i < |lines| && LoadedFrom(a, lines[i]) == Some(x);
        assert LoadedFrom(a, all[i]) == Some(x);
      }
    }
  }
}
