/** What the registry of missing files knows and logs over whole runs, and when reopening it restores what it knew. */
module MissLaws {
  import opened Basics
  import opened Text
  import opened Json
  import opened MissRegistry

  // ----- runs -----

  /** One call that changes the registry; queries change nothing, and the lock makes calls atomic. */
  datatype Call = Call(payload: Json, tear: Option<Tear>)

  function After(a: Alphabet, r: Registry, calls: seq<Call>): Registry {
    if calls == [] then r
    else
      var last := calls[|calls| - 1];
      Recorded(a, After(a, r, calls[..|calls| - 1]), last.payload, last.tear)
  }

  /** The identities that a run appends or tries to append, in order. */
  function Attempted(a: Alphabet, r: Registry, calls: seq<Call>): seq<Identity> {
    if calls == [] then []
    else
      var init, last := calls[..|calls| - 1], calls[|calls| - 1];
      Attempted(a, r, init) + Unknown(Candidates(a, last.payload), After(a, r, init).known)
  }

  predicate NoTear(calls: seq<Call>) {
    forall i | 0 <= i < |calls| :: calls[i].tear.None?
  }

  /** Some call reports this identity missing. */
  ghost predicate Reported(a: Alphabet, calls: seq<Call>, x: Identity) {
    exists i | 0 <= i < |calls| :: x in Candidates(a, calls[i].payload)
  }

  function EntryLines(xs: seq<Identity>): seq<Line> {
    seq(|xs|, i requires 0 <= i < |xs| => Some(EntryOf(xs[i])))
  }

  /** How often an entry can be read in these lines. */
  function Occurs(lines: seq<Line>, e: Json): nat {
    multiset(lines)[Some(e)]
  }

  /** `later` keeps the finished lines of `file`, and says at most what `file` says and one entry for each identity. */
  ghost predicate Extended(file: RegistryFile, later: RegistryFile, xs: seq<Identity>) {
    && file.lines <= later.lines
    && forall e :: Occurs(later.Read(), e) <= Occurs(file.Read(), e) + Occurs(EntryLines(xs), e)
  }

  lemma OccursMore(lines: seq<Line>, last: Line, e: Json)
    ensures Occurs(lines + [last], e) == Occurs(lines, e) + (if last == Some(e) then 1 else 0)
  {
  }

  function OneMore(file: RegistryFile, x: Identity, piece: Option<Piece>): RegistryFile {
    match piece
    case None => WriteEntry(file, x)
    case Some(p) => WritePiece(file, x, p)
  }

  lemma ReadsOneMore(file: RegistryFile, x: Identity, piece: Option<Piece>, e: Json)
    ensures Occurs(OneMore(file, x, piece).Read(), e) <= Occurs(file.Read(), e) + (if e == EntryOf(x) then 1 else 0)
    ensures file.lines <= OneMore(file, x, piece).lines
  {
    hide Occurs, EntryOf;
    OccursMore(file.lines, None, e);
    OccursMore(file.lines, Some(EntryOf(x)), e);
    if file.rest.Text? {
      OccursMore(file.lines, file.rest.reading, e);
    }
  }

  lemma EntriesExtended(file: RegistryFile, later: RegistryFile, xs: seq<Identity>, x: Identity, piece: Option<Piece>)
    requires Extended(file, later, xs)
    ensures Extended(file, OneMore(later, x, piece), xs + [x])
  {
    hide Occurs, EntryOf, OneMore;
    assert EntryLines(xs + [x]) == EntryLines(xs) + [Some(EntryOf(x))];
    forall e
      ensures Occurs(OneMore(later, x, piece).Read(), e) <= Occurs(file.Read(), e) + Occurs(EntryLines(xs + [x]), e)
    {
      OccursMore(EntryLines(xs), Some(EntryOf(x)), e);
      ReadsOneMore(later, x, piece, e);
      assert Occurs(later.Read(), e) <= Occurs(file.Read(), e) + Occurs(EntryLines(xs), e);
    }
    ReadsOneMore(later, x, piece, Null);
  }

  lemma {:induction false} WrittenExtended(file: RegistryFile, xs: seq<Identity>)
    ensures Extended(file, WriteEntries(file, xs), xs)
  {
    hide Occurs;
    if xs != [] {
      var init, last := xs[..|xs| - 1], xs[|xs| - 1];
      WrittenExtended(file, init);
      EntriesExtended(file, WriteEntries(file, init), init, last, None);
      assert xs == init + [last];
    }
  }

  lemma MoreEntries(file: RegistryFile, later: RegistryFile, xs: seq<Identity>, more: seq<Identity>)
    requires Extended(file, later, xs)
    ensures Extended(file, later, xs + more)
  {
    assert EntryLines(xs + more) == EntryLines(xs) + EntryLines(more);
    forall e
      ensures Occurs(EntryLines(xs + more), e) >= Occurs(EntryLines(xs), e)
    {
    }
  }

  lemma AppendExtended(file: RegistryFile, xs: seq<Identity>, tear: Option<Tear>)
    ensures Extended(file, Append(file, xs, tear), xs)
  {
    hide Extended, WriteEntries;
    if tear.Some? && tear.value.entries < |xs| {
      var k := tear.value.entries;
      WrittenExtended(file, xs[..k]);
      EntriesExtended(file, WriteEntries(file, xs[..k]), xs[..k], xs[k], Some(tear.value.piece));
      MoreEntries(file, Append(file, xs, tear), xs[..k] + [xs[k]], xs[k + 1..]);
      assert xs == xs[..k] + [xs[k]] + xs[k + 1..];
    } else {
      WrittenExtended(file, xs);
    }
  }

  lemma ExtendedTwice(first: RegistryFile, second: RegistryFile, third: RegistryFile, xs: seq<Identity>, ys: seq<Identity>)
    requires Extended(first, second, xs) && Extended(second, third, ys)
    ensures Extended(first, third, xs + ys)
  {
    assert EntryLines(xs + ys) == EntryLines(xs) + EntryLines(ys);
    forall e
      ensures Occurs(third.Read(), e) <= Occurs(first.Read(), e) + Occurs(EntryLines(xs + ys), e)
    {
      assert Occurs(EntryLines(xs + ys), e) == Occurs(EntryLines(xs), e) + Occurs(EntryLines(ys), e);
      assert Occurs(third.Read(), e) <= Occurs(second.Read(), e) + Occurs(EntryLines(ys), e);
    }
  }

  lemma {:induction false} WrittenTwice(file: RegistryFile, xs: seq<Identity>, ys: seq<Identity>)
    ensures WriteEntries(file, xs + ys) == WriteEntries(WriteEntries(file, xs), ys)
  {
    if ys == [] {
      assert xs + ys == xs;
    } else {
      WrittenTwice(file, xs, ys[..|ys| - 1]);
      assert (xs + ys)[..|xs + ys| - 1] == xs + ys[..|ys| - 1];
    }
  }

  /** What relates the end of a run to its start and to the identities it tried to append. */
  ghost predicate Tracks(r: Registry, end: Registry, attempted: seq<Identity>, healthy: bool) {
    && end.known == r.known + AsSet(attempted)
    && Distinct(attempted) && (forall x | x in attempted :: x !in r.known)
    && Extended(r.file, end.file, attempted)
    && (healthy ==> end.file == WriteEntries(r.file, attempted))
  }

  lemma OneMoreCall(
    r: Registry, before: Registry, attempted: seq<Identity>, healthy: bool, unseen: seq<Identity>, tear: Option<Tear>)
    requires Tracks(r, before, attempted, healthy)
    requires Distinct(unseen) && forall x | x in unseen :: x !in before.known
    ensures var file := if unseen == [] then before.file else Append(before.file, unseen, tear);
            Tracks(r, Registry(before.known + AsSet(unseen), file), attempted + unseen, healthy && tear.None?)
  {
    hide Extended, WriteEntries, Append;
    DistinctAppend(attempted, unseen, before.known);
    if unseen == [] {
      assert attempted + unseen == attempted;
    } else {
      AppendExtended(before.file, unseen, tear);
      ExtendedTwice(r.file, before.file, Append(before.file, unseen, tear), attempted, unseen);
      HealthyAppend(before.file, unseen, tear);
      WrittenTwice(r.file, attempted, unseen);
    }
  }

  lemma HealthyAppend(file: RegistryFile, xs: seq<Identity>, tear: Option<Tear>)
    ensures tear.None? ==> Append(file, xs, tear) == WriteEntries(file, xs)
  {
  }

  /**
   Over every run, with appends torn anywhere: what is known is what was known at the start and what the run
   tried to append; no identity is tried twice or was known before; finished lines stay as they are, and the
   file says nothing but what it said and at most one entry for each of them.
   */
  lemma {:induction false} RunLaws(a: Alphabet, r: Registry, calls: seq<Call>)
    ensures Tracks(r, After(a, r, calls), Attempted(a, r, calls), NoTear(calls))
  {
    hide Candidates, Distinct, Unknown, AsSet, NoTear, Append, WriteEntries;
    if calls == [] {
      NothingTracked(r);
    } else {
      hide Tracks;
      var init, last := calls[..|calls| - 1], calls[|calls| - 1];
      RunLaws(a, r, init);
      var before := After(a, r, init);
      var unseen := Unknown(Candidates(a, last.payload), before.known);
      OneMoreCall(r, before, Attempted(a, r, init), NoTear(init), unseen, last.tear);
      StillNoTear(calls);
    }
  }

  lemma StillNoTear(calls: seq<Call>)
    requires calls != []
    ensures NoTear(calls) <==> NoTear(calls[..|calls| - 1]) && calls[|calls| - 1].tear.None?
  {
  }

  lemma NothingTracked(r: Registry)
    ensures NoTear([]) && Tracks(r, r, [], true)
  {
    assert EntryLines([]) == [];
    assert r.known + AsSet([]) == r.known;
  }

  lemma DistinctAppend(xs: seq<Identity>, ys: seq<Identity>, known: set<Identity>)
    requires Distinct(xs) && Distinct(ys)
    requires (forall x | x in xs :: x in known) && (forall y | y in ys :: y !in known)
    ensures Distinct(xs + ys)
  {
    var all := xs + ys;
    forall i, j | 0 <= i < j < |all|
      ensures all[i] != all[j]
    {
      if i < |xs| <= j {
        assert xs[i] in xs && ys[j - |xs|] in ys;
      }
    }
  }

  /** What a run tries to append is what its calls report missing and the registry did not know. */
  lemma {:induction false} AttemptedAre(a: Alphabet, r: Registry, calls: seq<Call>)
    ensures forall x :: x in Attempted(a, r, calls) <==> Reported(a, calls, x) && x !in r.known
  {
    hide Candidates, Tracks, Recorded;
    if calls != [] {
      var init, last := calls[..|calls| - 1], calls[|calls| - 1];
      AttemptedAre(a, r, init);
      RunLaws(a, r, init);
      KnownSoFar(r, After(a, r, init), Attempted(a, r, init), NoTear(init));
      forall x
        ensures Reported(a, calls, x) <==> Reported(a, init, x) || x in Candidates(a, last.payload)
      {
        if Reported(a, init, x) {
          var i :| 0 <= i < |init| && x in Candidates(a, init[i].payload);
          assert calls[i] == init[i];
        }
        if x in Candidates(a, last.payload) {
          assert calls[|calls| - 1] == last;
        }
      }
    }
  }

  lemma KnownSoFar(r: Registry, end: Registry, attempted: seq<Identity>, healthy: bool)
    requires Tracks(r, end, attempted, healthy)
    ensures forall x :: x in end.known <==> x in r.known || x in attempted
  {
  }

  // ----- reloading -----

  /**
   True of the language's own functions: folded characters fold to themselves, and folding neither makes
   nor removes white space or separators.
   */
  ghost predicate Sane(a: Alphabet) {
    && (forall c, i | 0 <= i < |a.fold(c)| :: a.fold(a.fold(c)[i]) == [a.fold(c)[i]])
    && (forall c :: a.fold(c) != "")
    && (forall c :: a.white(c) ==> a.fold(c) == [c])
    && (forall c, i | 0 <= i < |a.fold(c)| :: a.white(a.fold(c)[i]) ==> a.white(c))
    && (forall c, i | 0 <= i < |a.fold(c)| :: IsSeparator(a.fold(c)[i]) ==> IsSeparator(c))
  }

  predicate Folded(a: Alphabet, s: string) {
    forall i | 0 <= i < |s| :: a.fold(s[i]) == [s[i]]
  }

  lemma {:induction false} FoldFixes(a: Alphabet, s: string)
    requires Folded(a, s)
    ensures Fold(a, s) == s
  {
    if s != "" {
      FoldFixes(a, s[1..]);
      assert s == [s[0]] + s[1..];
    }
  }

  lemma {:induction false} FoldIsFolded(a: Alphabet, s: string)
    requires Sane(a)
    ensures Folded(a, Fold(a, s))
    ensures s != "" ==> Fold(a, s) != ""
    ensures (forall i | 0 <= i < |s| :: !IsSeparator(s[i])) ==> forall i | 0 <= i < |Fold(a, s)| :: !IsSeparator(Fold(a, s)[i])
    ensures s != "" && !a.white(s[|s| - 1]) ==> !a.white(Fold(a, s)[|Fold(a, s)| - 1])
  {
    if s != "" {
      FoldIsFolded(a, s[1..]);
      assert forall i | 0 < i < |s| :: s[i] == s[1..][i - 1];
      assert forall i | 0 <= i < |a.fold(s[0])| :: a.fold(a.fold(s[0])[i]) == [a.fold(s[0])[i]];
    }
  }

  lemma {:induction false} AlnumsFixed(a: Alphabet, s: string)
    requires Folded(a, s)
    ensures Folded(a, Alnums(a, s)) && Alnums(a, Alnums(a, s)) == Alnums(a, s)
  {
    if s != "" {
      AlnumsFixed(a, s[1..]);
      var rest := Alnums(a, s[1..]);
      if a.alnum(s[0]) {
        assert ([s[0]] + rest)[1..] == rest;
      } else {
        assert Alnums(a, s) == rest;
      }
    }
  }

  lemma {:induction false} LastPart(s: string)
    ensures var r := AfterLast(s, IsSeparator);
            && (forall i | 0 <= i < |r| :: !IsSeparator(r[i]))
            && (r != "" ==> s != "" && r[|r| - 1] == s[|s| - 1])
            && ((forall i | 0 <= i < |s| :: !IsSeparator(s[i])) ==> r == s)
  {
    if s != "" && !IsSeparator(s[|s| - 1]) {
      LastPart(s[..|s| - 1]);
      assert s == s[..|s| - 1] + [s[|s| - 1]];
    }
  }

  lemma {:induction false} StripEndEnds(a: Alphabet, s: string)
    ensures var r := StripEnd(a, s); r != "" ==> !a.white(r[|r| - 1])
    ensures s != "" && !a.white(s[|s| - 1]) ==> StripEnd(a, s) == s
  {
    if s != "" && a.white(s[|s| - 1]) {
      StripEndEnds(a, s[..|s| - 1]);
    }
  }

  lemma {:induction false} StripStartKeepsEnd(a: Alphabet, s: string)
    requires s != "" && !a.white(s[|s| - 1])
    ensures var r := StripStart(a, s);
            && r != "" && r[|r| - 1] == s[|s| - 1]
            && (a.white(s[0]) <==> r != s)
            && (forall i | 0 <= i < |r| :: r[i] in s)
            && |r| <= |s|
  {
    if a.white(s[0]) {
      assert |s| > 1;
      StripStartKeepsEnd(a, s[1..]);
      assert forall c | c in s[1..] :: c in s;
    }
  }

  /** The form in which a logged identity comes back: without white space at the start of its name. */
  function Reloaded(a: Alphabet, x: Identity): Identity {
    x.(file := StripStart(a, x.file))
  }

  /** What every identity is like. */
  ghost predicate IsIdentity(a: Alphabet, x: Identity) {
    && x.file != "" && x.id != ""
    && Folded(a, x.file) && !a.white(x.file[|x.file| - 1]) && (forall i | 0 <= i < |x.file| :: !IsSeparator(x.file[i]))
    && Folded(a, x.id) && Alnums(a, x.id) == x.id
  }

  lemma IdentityShape(a: Alphabet, m: Json)
    requires Sane(a) && IdentityOf(a, m).Some?
    ensures IsIdentity(a, IdentityOf(a, m).value)
  {
    hide Sane, Strip, Fold, Alnums, AfterLast;
    var file, id := GetStr(m, "debug_file").value, GetStr(m, "debug_id").value;
    var stripped := Strip(a, file);
    assert stripped != "" ==> !a.white(stripped[|stripped| - 1]) by {
      assert stripped == StripEnd(a, StripStart(a, file)) by { StripIs(a, file); }
      StripEndEnds(a, StripStart(a, file));
    }
    var part := AfterLast(stripped, IsSeparator);
    LastPart(stripped);
    FoldIsFolded(a, part);
    FoldIsFolded(a, id);
    AlnumsFixed(a, Fold(a, id));
    assert part != "" by { FoldOfNothing(a); }
  }

  lemma StripIs(a: Alphabet, s: string)
    ensures Strip(a, s) == StripEnd(a, StripStart(a, s))
  {
  }

  lemma FoldOfNothing(a: Alphabet)
    ensures Fold(a, "") == ""
  {
  }

  lemma EntryReloads(a: Alphabet, x: Identity)
    requires IsIdentity(a, x)
    ensures LoadedFrom(a, Some(EntryOf(x))) == Some(Reloaded(a, x))
  {
    hide Fold, Alnums, StripEnd, StripStart, AfterLast;
    StripStartKeepsEnd(a, x.file);
    var s := StripStart(a, x.file);
    StripEndEnds(a, s);
    assert forall i | 0 <= i < |s| :: s[i] in x.file;
    LastPart(s);
    FoldFixes(a, s);
    FoldFixes(a, x.id);
  }

  lemma {:induction false} MissingShape(a: Alphabet, modules: seq<Json>, n: nat)
    requires Sane(a) && n <= |modules|
    ensures forall x | x in MissingOf(a, modules, n) :: IsIdentity(a, x)
  {
    hide Sane, IsIdentity, IdentityOf;
    if n > 0 {
      MissingShape(a, modules, n - 1);
      if MissingIn(a, modules[n - 1]).Some? {
        IdentityShape(a, modules[n - 1]);
      }
    }
  }

  lemma {:induction false} AttemptedShape(a: Alphabet, r: Registry, calls: seq<Call>)
    requires Sane(a)
    ensures forall x | x in Attempted(a, r, calls) :: IsIdentity(a, x)
  {
    hide Sane, IsIdentity, MissingOf, Recorded;
    if calls != [] {
      var init, last := calls[..|calls| - 1], calls[|calls| - 1];
      AttemptedShape(a, r, init);
      var modules := GetArray(last.payload, "modules");
      if modules.Some? {
        MissingShape(a, modules.value, |modules.value|);
      }
    }
  }

  lemma {:induction false} LoadedAppend(a: Alphabet, lines: seq<Line>, xs: seq<Identity>)
    requires forall x | x in xs :: IsIdentity(a, x)
    ensures forall y :: y in Loaded(a, lines + EntryLines(xs)) <==>
                        y in Loaded(a, lines) || exists x :: x in xs && y == Reloaded(a, x)
  {
    hide IsIdentity, EntryOf, LoadedFrom, Reloaded;
    if xs == [] {
      assert lines + EntryLines(xs) == lines;
    } else {
      var init, last := xs[..|xs| - 1], xs[|xs| - 1];
      assert xs == init + [last] && last in xs && forall x | x in init :: x in xs;
      LoadedAppend(a, lines, init);
      assert lines + EntryLines(xs) == (lines + EntryLines(init)) + [Some(EntryOf(last))];
      LoadedSnoc(a, lines + EntryLines(init), Some(EntryOf(last)));
      EntryReloads(a, last);
      forall y
        ensures y in Loaded(a, lines + EntryLines(xs)) <==>
                y in Loaded(a, lines) || exists x :: x in xs && y == Reloaded(a, x)
      {
        assert y in Loaded(a, lines + EntryLines(xs)) <==> y in Loaded(a, lines + EntryLines(init)) || y == Reloaded(a, last);
      }
    }
  }

  /** What a file without tears holds in the end: behind an unfinished text the first entry is lost with it. */
  lemma {:induction false} WrittenLines(file: RegistryFile, xs: seq<Identity>)
    requires xs != []
    ensures WriteEntries(file, xs).Read() ==
            if file.rest.Text? then file.lines + [None] + EntryLines(xs[1..]) else file.lines + EntryLines(xs)
    ensures WriteEntries(file, xs).rest == Ended
  {
    var init, last := xs[..|xs| - 1], xs[|xs| - 1];
    if init == [] {
      assert WriteEntries(file, init) == file && xs[1..] == [];
      assert EntryLines(xs) == [Some(EntryOf(last))] && EntryLines(xs[1..]) == [];
    } else {
      WrittenLines(file, init);
      assert xs[1..] == init[1..] + [last];
      assert EntryLines(xs) == EntryLines(init) + [Some(EntryOf(last))];
      assert EntryLines(xs[1..]) == EntryLines(init[1..]) + [Some(EntryOf(last))];
    }
  }

  lemma BlankSaysNothing(a: Alphabet, file: RegistryFile)
    ensures Loaded(a, file.lines) <= Loaded(a, file.Read())
    ensures !file.rest.Text? ==> Loaded(a, file.lines) == Loaded(a, file.Read())
    ensures Loaded(a, file.lines + [None]) == Loaded(a, file.lines)
  {
    LoadedSnoc(a, file.lines, None);
    if file.rest.Text? {
      LoadedSnoc(a, file.lines, file.rest.reading);
    }
  }

  /** An identity whose file name starts with white space. */
  predicate StartsWhite(a: Alphabet, x: Identity) {
    x.file != "" && a.white(x.file[0])
  }

  lemma {:induction false} ReloadedStarts(a: Alphabet, s: string)
    ensures StripStart(a, s) != "" ==> !a.white(StripStart(a, s)[0])
  {
    if s != "" && a.white(s[0]) {
      ReloadedStarts(a, s[1..]);
    }
  }

  /**
   After a run without tears, opening the seed and the file again gives the same set exactly when, for every
   identity that the calls report missing and the registry did not know, the file did not end in an unfinished
   text and the name does not start with white space.
   */
  lemma ReloadAgrees(a: Alphabet, seed: seq<Line>, file: RegistryFile, calls: seq<Call>)
    requires Sane(a) && NoTear(calls)
    ensures var start := Opened(a, seed, file);
            var end := After(a, start, calls);
            Opened(a, seed, end.file).known == end.known <==>
              forall x | Reported(a, calls, x) && x !in start.known :: !file.rest.Text? && !StartsWhite(a, x)
  {
    hide Sane, After, Attempted, Loaded, StripStart, IsIdentity, WriteEntries, Reported, Extended;
    var start := Opened(a, seed, file);
    var end, attempted := After(a, start, calls), Attempted(a, start, calls);
    RunLaws(a, start, calls);
    AttemptedAre(a, start, calls);
    AttemptedShape(a, start, calls);
    var again := Opened(a, seed, end.file).known;
    BlankSaysNothing(a, file);
    forall x | x in attempted
      ensures Reloaded(a, x) == x <==> !StartsWhite(a, x)
      ensures !StartsWhite(a, Reloaded(a, x))
    {
      ReloadedWhen(a, x);
    }
    if attempted == [] {
      NothingWritten(file);
    } else {
      WrittenLines(file, attempted);
      assert attempted[0] in attempted && forall x | x in attempted[1..] :: x in attempted;
      LoadedAppend(a, file.lines + [None], attempted[1..]);
      LoadedAppend(a, file.lines, attempted);
      if x :| x in attempted && StartsWhite(a, x) {
        assert x !in again && x in end.known;
      } else if file.rest.Text? {
        FirstIsNotLater(attempted);
        assert attempted[0] !in again && attempted[0] in end.known;
      } else {
        forall y
          ensures y in again <==> y in end.known
        {
          if y in attempted {
            assert Reloaded(a, y) == y;
          }
        }
      }
    }
  }

  lemma NothingWritten(file: RegistryFile)
    ensures WriteEntries(file, []) == file
  {
  }

  lemma FirstIsNotLater(xs: seq<Identity>)
    requires Distinct(xs) && xs != []
    ensures xs[0] !in xs[1..]
  {
  }

  /** Whatever is torn, opening again never knows an identity that was not known or reported missing before. */
  lemma NothingInvented(a: Alphabet, seed: seq<Line>, file: RegistryFile, calls: seq<Call>)
    requires Sane(a)
    ensures var start := Opened(a, seed, file);
            var end := After(a, start, calls);
            forall x | x in Opened(a, seed, end.file).known ::
              x in start.known || exists y :: Reported(a, calls, y) && y !in start.known && x == Reloaded(a, y)
  {
    hide Sane, After, Attempted, IsIdentity, WriteEntries, Reported, EntryOf, LoadedFrom, Reloaded;
    var start := Opened(a, seed, file);
    var end, attempted := After(a, start, calls), Attempted(a, start, calls);
    RunLaws(a, start, calls);
    AttemptedAre(a, start, calls);
    AttemptedShape(a, start, calls);
    forall x | x in Opened(a, seed, end.file).known && x !in start.known
      ensures exists y :: Reported(a, calls, y) && y !in start.known && x == Reloaded(a, y)
    {
      var lines := end.file.Read();
      var i :| 0 <= i < |lines| && LoadedFrom(a, lines[i]) == Some(x);
      ReadableLine(a, lines[i], x);
      var e := lines[i].value;
      OccursWhen(lines, e);
      OccursWhen(file.Read(), e);
      OccursWhen(EntryLines(attempted), e);
      assert Some(e) !in file.Read();
      var k :| 0 <= k < |attempted| && EntryLines(attempted)[k] == Some(e);
      EntryReloads(a, attempted[k]);
      assert attempted[k] in attempted;
    }
  }

  lemma ReadableLine(a: Alphabet, line: Line, x: Identity)
    requires LoadedFrom(a, line) == Some(x)
    ensures line.Some?
  {
  }

  lemma OccursWhen(lines: seq<Line>, e: Json)
    ensures Occurs(lines, e) > 0 <==> Some(e) in lines
  {
  }

  lemma ReloadedWhen(a: Alphabet, x: Identity)
    requires IsIdentity(a, x)
    ensures Reloaded(a, x) == x <==> !StartsWhite(a, x)
    ensures !StartsWhite(a, Reloaded(a, x))
  {
    hide StripStart;
    StripStartKeepsEnd(a, x.file);
    ReloadedStarts(a, x.file);
  }

  // ----- both failures occur -----

  /** Characters that fold to themselves, one white character, and dashes that do not count. */
  function PlainAlphabet(): Alphabet {
    Alphabet(c => [c], c => c == ' ', c => c != '-')
  }

  lemma PlainIsSane()
    ensures Sane(PlainAlphabet())
  {
  }

  /** A completed reply that misses one symbol file. */
  function MissReply(path: string): Json {
    Obj(map["modules" := Arr([Obj(map[
      "debug_file" := Str(path), "debug_id" := Str("1"), "debug_status" := Str("missing")])])])
  }

  lemma {:induction false} AfterSeparator(folder: string, name: string)
    requires forall i | 0 <= i < |name| :: !IsSeparator(name[i])
    ensures AfterLast(folder + "/" + name, IsSeparator) == name
  {
    var s := folder + "/" + name;
    if name != "" {
      AfterSeparator(folder, name[..|name| - 1]);
      assert s[..|s| - 1] == folder + "/" + name[..|name| - 1];
      assert name == name[..|name| - 1] + [name[|name| - 1]];
    }
  }

  lemma MissReported(folder: string, name: string)
    requires folder != "" && folder[0] != ' ' && name != "" && name[|name| - 1] != ' '
    requires forall i | 0 <= i < |name| :: !IsSeparator(name[i])
    ensures Candidates(PlainAlphabet(), MissReply(folder + "/" + name)) == [Identity(name, "1")]
  {
    hide AfterLast, Fold;
    var a, path, reply := PlainAlphabet(), folder + "/" + name, MissReply(folder + "/" + name);
    AfterSeparator(folder, name);
    assert Strip(a, path) == path;
    FoldFixes(a, name);
    FoldFixes(a, "1");
    assert Alnums(a, "1") == "1";
    var modules := reply.members["modules"].items;
    assert IdentityOf(a, modules[0]) == Some(Identity(name, "1"));
    assert MissingIn(a, modules[0]) == Some(Identity(name, "1"));
    assert MissingOf(a, modules, 0) == [] && MissingOf(a, modules, 1) == [Identity(name, "1")];
  }

  /** A file name that starts with white space is known as such but comes back without it. */
  lemma WhiteNameChanges()
    ensures Sane(PlainAlphabet())
    ensures var start := Opened(PlainAlphabet(), [], RegistryFile([], Ended));
            var end := After(PlainAlphabet(), start, [Call(MissReply("x/ y.pdb"), None)]);
            end.known == {Identity(" y.pdb", "1")}
            && Opened(PlainAlphabet(), [], end.file).known == {Identity("y.pdb", "1")}
  {
    hide Candidates, Loaded, PlainAlphabet, Reloaded, IsIdentity, MissReply, EntryOf;
    var a, x := PlainAlphabet(), Identity(" y.pdb", "1");
    var start := Opened(a, [], RegistryFile([], Ended));
    NothingLoaded(a);
    PlainIsSane();
    MissReported("x", " y.pdb");
    assert "x" + "/" + " y.pdb" == "x/ y.pdb";
    OneCall(a, start, MissReply("x/ y.pdb"), x);
    WhiteShape();
    OneLoaded(a, x);
    assert WriteEntry(RegistryFile([], Ended), x).Read() == [Some(EntryOf(x))];
  }

  lemma NothingLoaded(a: Alphabet)
    ensures Loaded(a, []) == {}
  {
  }

  lemma WhiteShape()
    ensures IsIdentity(PlainAlphabet(), Identity(" y.pdb", "1"))
    ensures Reloaded(PlainAlphabet(), Identity(" y.pdb", "1")) == Identity("y.pdb", "1")
  {
    assert " y.pdb"[1..] == "y.pdb";
    assert Alnums(PlainAlphabet(), "1") == "1";
  }

  lemma OneCall(a: Alphabet, start: Registry, payload: Json, x: Identity)
    requires Candidates(a, payload) == [x] && x !in start.known
    ensures After(a, start, [Call(payload, None)]) == Registry(start.known + {x}, WriteEntry(start.file, x))
  {
    hide Candidates;
    var calls := [Call(payload, None)];
    assert calls[..0] == [] && After(a, start, []) == start;
    assert [x][..0] == [] && Unknown([], start.known) == [] && Unknown([x], start.known) == [x];
    assert AsSet([x]) == {x};
    assert WriteEntries(start.file, [x]) == WriteEntry(WriteEntries(start.file, []), x);
  }

  lemma OneLoaded(a: Alphabet, x: Identity)
    requires IsIdentity(a, x)
    ensures Loaded(a, [Some(EntryOf(x))]) == {Reloaded(a, x)}
  {
    hide IsIdentity, EntryOf, Reloaded;
    EntryReloads(a, x);
    var line := Some(EntryOf(x));
    assert [line][0] == line;
    assert forall y :: y in Loaded(a, [line]) <==> LoadedFrom(a, line) == Some(y);
  }

  /** Behind an unfinished last line the first new entry is lost, and the line with it. */
  lemma BothLost(a: Alphabet, kept: Identity, x: Identity, payload: Json)
    requires IsIdentity(a, kept) && Reloaded(a, kept) == kept && Candidates(a, payload) == [x] && x != kept
    ensures var start := Opened(a, [], RegistryFile([], Text(Some(EntryOf(kept)))));
            var end := After(a, start, [Call(payload, None)]);
            end.known == {kept, x} && Opened(a, [], end.file).known == {}
  {
    hide Candidates, LoadedFrom, Loaded, EntryOf, IsIdentity, Reloaded;
    var start := Opened(a, [], RegistryFile([], Text(Some(EntryOf(kept)))));
    NothingLoaded(a);
    OneLoaded(a, kept);
    assert start.file.Read() == [Some(EntryOf(kept))];
    OneCall(a, start, payload, x);
    assert WriteEntry(start.file, x).Read() == RegistryFile([], Ended).lines + [None];
    BlankSaysNothing(a, RegistryFile([], Ended));
  }

  /** A registry that was interrupted within its last line break, and one new missing file: both are forgotten. */
  lemma UnfinishedLineLoses()
    ensures Sane(PlainAlphabet())
    ensures var kept, missed := Identity("old.pdb", "1"), Identity("y.pdb", "1");
            var start := Opened(PlainAlphabet(), [], RegistryFile([], Text(Some(EntryOf(kept)))));
            var end := After(PlainAlphabet(), start, [Call(MissReply("x/y.pdb"), None)]);
            end.known == {kept, missed} && Opened(PlainAlphabet(), [], end.file).known == {}
  {
    hide Candidates, PlainAlphabet, EntryOf, MissReply, IsIdentity, Reloaded, After, Opened;
    PlainIsSane();
    MissReported("x", "y.pdb");
    assert "x" + "/" + "y.pdb" == "x/y.pdb";
    KeptShape();
    BothLost(PlainAlphabet(), Identity("old.pdb", "1"), Identity("y.pdb", "1"), MissReply("x/y.pdb"));
  }

  lemma KeptShape()
    ensures IsIdentity(PlainAlphabet(), Identity("old.pdb", "1"))
    ensures Reloaded(PlainAlphabet(), Identity("old.pdb", "1")) == Identity("old.pdb", "1")
    ensures Identity("old.pdb", "1") != Identity("y.pdb", "1")
  {
    assert Alnums(PlainAlphabet(), "1") == "1";
    assert "old.pdb"[0] != "y.pdb"[0];
  }
}
