/** Which module paths a request may look up at Microsoft, and the glob patterns that admit exactly them. */
module PathPatterns {
  import opened Basics
  import opened Text
  import opened Json
  import opened MissRegistry

  // ----- literal patterns -----

  function Slashes(s: string): string {
    if s == "" then "" else [if s[0] == '\\' then '/' else s[0]] + Slashes(s[1..])
  }

  /** The pattern of one character: wildcards and brackets stand in a class of their own. */
  function Quoted(c: char): string {
    if c == '*' || c == '?' || c == '[' || c == ']' then ['[', c, ']'] else [c]
  }

  function Quote(s: string): string {
    if s == "" then "" else Quoted(s[0]) + Quote(s[1..])
  }

  /** `_literal_path_pattern` */
  function LiteralPattern(s: string): string {
    Quote(Slashes(s))
  }

  /** What a glob pattern matches: any run, any character, a class of one character, or the character itself. */
  predicate Matches(pattern: string, text: string)
    decreases |pattern| + |text|
  {
    if pattern == "" then text == ""
    else if pattern[0] == '*' then Matches(pattern[1..], text) || (text != "" && Matches(pattern, text[1..]))
    else if pattern[0] == '?' then text != "" && Matches(pattern[1..], text[1..])
    else if pattern[0] == '[' && |pattern| >= 3 && pattern[2] == ']' then
      text != "" && text[0] == pattern[1] && Matches(pattern[3..], text[1..])
    else text != "" && text[0] == pattern[0] && Matches(pattern[1..], text[1..])
  }

  lemma {:induction false} QuoteMatches(s: string, text: string)
    ensures Matches(Quote(s), text) <==> text == s
    decreases |s|
  {
    if s != "" {
      var p, rest := Quote(s), Quote(s[1..]);
      assert p == Quoted(s[0]) + rest;
      if |Quoted(s[0])| == 3 {
        assert p[0] == '[' && p[1] == s[0] && p[2] == ']' && p[3..] == rest;
      } else {
        assert p[0] == s[0] && p[1..] == rest;
      }
      if text != "" {
        QuoteMatches(s[1..], text[1..]);
        assert text == [text[0]] + text[1..] && s == [s[0]] + s[1..];
      }
    }
  }

  /** A literal pattern matches one text only: the path with forward slashes. */
  lemma LiteralMatches(path: string, text: string)
    ensures Matches(LiteralPattern(path), text) <==> text == Slashes(path)
  {
    QuoteMatches(Slashes(path), text);
  }

  // ----- the patterns of a request -----

  predicate Truthy(v: Json) {
    match v
    case Null => false
    case Bool(b) => b
    case Int(n) => n != 0
    case Float => true
    case Str(s) => s != ""
    case Arr(items) => items != []
    case Obj(members) => members != map[]
  }

  /** `debug_file or code_file` */
  function PathOf(m: Json): Json {
    if Truthy(Index(m, "debug_file")) then Index(m, "debug_file") else Index(m, "code_file")
  }

  predicate IsEligible(m: Json) {
    m.Obj? && AbsentOr(m, "type", "pe")
  }

  predicate IsKnown(a: Alphabet, known: set<Identity>, m: Json) {
    IdentityOf(a, m).Some? && IdentityOf(a, m).value in known
  }

  /** The pattern of a module's path, when it has one. */
  function PatternOf(a: Alphabet, m: Json): Option<string> {
    var path :- AsStr(PathOf(m));
    if Strip(a, path) == "" then None else Some(LiteralPattern(Strip(a, path)))
  }

  /** A module that may have to be looked up. */
  predicate Asks(a: Alphabet, known: set<Identity>, m: Json) {
    IsEligible(m) && !IsKnown(a, known, m)
  }

  /** What the patterns of the first `n` modules must be. */
  ghost predicate AdmitsFirst(a: Alphabet, known: set<Identity>, modules: seq<Json>, n: nat, patterns: set<string>)
    requires n <= |modules|
  {
    && (forall i | 0 <= i < n && Asks(a, known, modules[i]) ::
          PatternOf(a, modules[i]).Some? && PatternOf(a, modules[i]).value in patterns)
    && (forall p | p in patterns ::
          exists i | 0 <= i < n :: Asks(a, known, modules[i]) && PatternOf(a, modules[i]) == Some(p))
  }

  /** Nothing is filtered for lack of a module list, of an eligible module, or of an unknown module's path. */
  ghost predicate FailsOpen(a: Alphabet, known: set<Identity>, payload: Json) {
    match GetArray(payload, "modules")
    case None => true
    case Some(modules) =>
      || (forall i | 0 <= i < |modules| :: !IsEligible(modules[i]))
      || (exists i | 0 <= i < |modules| :: Asks(a, known, modules[i]) && PatternOf(a, modules[i]).None?)
  }

  /**
   `_microsoft_path_patterns`: either nothing is filtered, or the sorted patterns are exactly those of the
   unknown modules, so that an unknown module is never left out and a known one is not asked for again.
   */
  method MicrosoftPathPatterns(payload: Json, registry: MissLog) returns (r: Option<seq<string>>)
    ensures r.None? <==> FailsOpen(registry.alphabet, registry.known, payload)
    ensures r.Some? ==>
              && GetArray(payload, "modules").Some?
              && var modules := GetArray(payload, "modules").value;
              exists patterns: set<string> ::
                r.value == Ascending(patterns)
                && AdmitsFirst(registry.alphabet, registry.known, modules, |modules|, patterns)
  {
    hide IsKnown, PatternOf, IsEligible;
    var modules := GetArray(payload, "modules");
    if modules.None? || modules.value == [] {
      return None;
    }
    var eligible, patterns: set<string> := 0, {};
    for i := 0 to |modules.value|
      invariant eligible == 0 <==> forall j | 0 <= j < i :: !IsEligible(modules.value[j])
      invariant AdmitsFirst(registry.alphabet, registry.known, modules.value, i, patterns)
      invariant eligible >= 0
    {
      var m := modules.value[i];
      if !IsEligible(m) {
        continue;
      }
      eligible := eligible + 1;
      var known := registry.Contains(m);
      assert known <==> IsKnown(registry.alphabet, registry.known, m) by { KnownIs(registry.alphabet, registry.known, m); }
      if known {
        continue;
      }
      var pattern := PatternOf(registry.alphabet, m);
      if pattern.None? {
        assert Asks(registry.alphabet, registry.known, modules.value[i]);
        return None;
      }
      patterns := patterns + {pattern.value};
    }
    if eligible == 0 {
      return None;
    }
    var sorted := SortStrings(patterns);
    r := Some(sorted);
  }

  lemma KnownIs(a: Alphabet, known: set<Identity>, m: Json)
    ensures IsKnown(a, known, m) <==> IdentityOf(a, m).Some? && IdentityOf(a, m).value in known
  {
  }
}
