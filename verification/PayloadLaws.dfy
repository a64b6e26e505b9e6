/** Exactly when a fingerprint payload can be read in one way only. */
module PayloadLaws {
  import opened Text
  import opened Frames
  import opened FrameLaws

  /** What a payload spells: workspace, exception code, access type, fault debug id, and the tokens. */
  datatype Reading = Reading(workspace: string, code: string, access: string, fault: string, tokens: seq<Token>)

  function Spelled(r: Reading): string {
    Payload(r.workspace, r.code, r.access, r.fault, r.tokens)
  }

  predicate OneLineReading(r: Reading) {
    OneLineTokens(r.tokens) && OneLineEach([r.workspace, r.code, r.access, r.fault])
  }

  // ----- counting line breaks -----

  function Breaks(s: string): nat {
    if s == "" then 0 else (if s[0] == '\n' then 1 else 0) + Breaks(s[1..])
  }

  lemma {:induction false} BreaksAppend(a: string, b: string)
    ensures Breaks(a + b) == Breaks(a) + Breaks(b)
  {
    if a == "" {
      assert a + b == b;
    } else {
      assert (a + b)[1..] == a[1..] + b;
      BreaksAppend(a[1..], b);
    }
  }

  lemma {:induction false} NoBreaks(s: string)
    ensures Breaks(s) == 0 <==> OneLine(s)
  {
    if s != "" {
      NoBreaks(s[1..]);
      assert s == [s[0]] + s[1..];
    }
  }

  function TotalBreaks(lines: seq<string>): nat {
    if lines == [] then 0 else Breaks(lines[0]) + TotalBreaks(lines[1..])
  }

  lemma {:induction false} JoinBreaks(lines: seq<string>)
    requires lines != []
    ensures Breaks(JoinLines(lines)) == |lines| - 1 + TotalBreaks(lines)
  {
    if |lines| > 1 {
      JoinBreaks(lines[1..]);
      BreaksAppend(lines[0] + "\n", JoinLines(lines[1..]));
      BreaksAppend(lines[0], "\n");
      assert "\n"[1..] == "";
    }
  }

  lemma {:induction false} NoTotalBreaks(lines: seq<string>)
    ensures TotalBreaks(lines) == 0 <==> OneLineEach(lines)
  {
    if lines != [] {
      NoTotalBreaks(lines[1..]);
      NoBreaks(lines[0]);
      assert lines == [lines[0]] + lines[1..];
    }
  }

  lemma {:induction false} TokenLinesCount(tokens: seq<Token>)
    ensures |TokenLines(tokens)| == 3 * |tokens|
    ensures OneLineEach(TokenLines(tokens)) ==> OneLineTokens(tokens)
  {
    if tokens != [] {
      TokenLinesCount(tokens[1..]);
      var rest, all := TokenLines(tokens[1..]), TokenLines(tokens);
      assert forall i | 0 <= i < |rest| :: rest[i] == all[i + 3];
      assert tokens == [tokens[0]] + tokens[1..];
      if OneLineEach(all) {
        assert OneLine(all[0]) && OneLine(all[1]);
        assert forall i | 0 < i < |tokens| :: tokens[i] == tokens[1..][i - 1];
      }
    }
  }

  /** The line breaks of a payload: those between its lines, and those within its fields. */
  lemma PayloadBreaks(r: Reading)
    requires r.tokens != []
    ensures Breaks(Spelled(r)) >= 3 + 3 * |r.tokens|
    ensures Breaks(Spelled(r)) == 3 + 3 * |r.tokens| <==> OneLineReading(r)
  {
    var lines := PayloadLines(r.workspace, r.code, r.access, r.fault, r.tokens);
    PayloadJoins(r.workspace, r.code, r.access, r.fault, r.tokens);
    JoinBreaks(lines);
    NoTotalBreaks(lines);
    TokenLinesCount(r.tokens);
    var head, tail := [r.workspace, r.code, r.access, r.fault], TokenLines(r.tokens);
    assert lines == head + tail;
    if OneLineReading(r) {
      TokenLinesOneLine(r.tokens);
      assert forall i | 0 <= i < |lines| :: lines[i] == if i < 4 then head[i] else tail[i - 4];
    }
    if OneLineEach(lines) {
      assert forall i | 0 <= i < 4 :: head[i] == lines[i];
      assert forall i | 0 <= i < |tail| :: tail[i] == lines[i + 4];
    }
  }

  // ----- other readings -----

  /** Two tokens are read as one, whose name takes up the first bucket and the second debug id. */
  function Swallow(a: Token, b: Token): Token {
    Token(a.debugId, a.functionName + "\n" + FormatHex(a.bucket) + "\n" + b.debugId + "\n" + b.functionName, b.bucket)
  }

  lemma SwallowSpells(a: Token, b: Token)
    ensures TokenText(Swallow(a, b)) == TokenText(a) + "\n" + TokenText(b)
  {
    var x, y, z, u := a.debugId + "\n", a.functionName, "\n" + FormatHex(a.bucket) + "\n" + b.debugId + "\n", b.functionName;
    assert TokenText(a) + "\n" + TokenText(b) == x + (y + z + u) + "\n" + FormatHex(b.bucket);
    assert Swallow(a, b).functionName == y + z + u;
  }

  lemma ManyTokensReadAsFewer(r: Reading)
    requires |r.tokens| > 1
    ensures var other := r.(tokens := [Swallow(r.tokens[0], r.tokens[1])] + r.tokens[2..]);
            other != r && Spelled(other) == Spelled(r)
  {
    var first, rest := Swallow(r.tokens[0], r.tokens[1]), r.tokens[2..];
    var other := [first] + rest;
    SwallowSpells(r.tokens[0], r.tokens[1]);
    var texts := TokenTexts(r.tokens);
    assert texts[0] == TokenText(r.tokens[0]) && texts[1..][0] == TokenText(r.tokens[1]);
    assert texts[1..][1..] == TokenTexts(rest);
    assert TokenTexts(other)[1..] == TokenTexts(rest);
    if rest == [] {
      assert JoinLines(texts) == TokenText(r.tokens[0]) + "\n" + TokenText(r.tokens[1]);
    } else {
      var tail := JoinLines(TokenTexts(rest));
      assert JoinLines(texts[1..]) == TokenText(r.tokens[1]) + "\n" + tail;
      assert JoinLines(texts) == TokenText(r.tokens[0]) + "\n" + (TokenText(r.tokens[1]) + "\n" + tail);
      assert JoinLines(TokenTexts(other)) == TokenText(first) + "\n" + tail;
    }
  }

  /** A text with a line break, in two parts. */
  lemma SplitAtBreak(s: string) returns (u: string, v: string)
    requires !OneLine(s)
    ensures s == u + "\n" + v
  {
    var i :| 0 <= i < |s| && s[i] == '\n';
    u, v := s[..i], s[i + 1..];
  }

  /** The six fields of a payload with one token. */
  function Fields(r: Reading): seq<string>
    requires |r.tokens| == 1
  {
    [r.workspace, r.code, r.access, r.fault, r.tokens[0].debugId, r.tokens[0].functionName]
  }

  function FromFields(fields: seq<string>, bucket: nat): Reading
    requires |fields| == 6
  {
    Reading(fields[0], fields[1], fields[2], fields[3], [Token(fields[4], fields[5], bucket)])
  }

  lemma OneTokenSpells(fields: seq<string>, bucket: nat)
    requires |fields| == 6
    ensures Spelled(FromFields(fields, bucket)) == JoinLines(fields) + "\n" + FormatHex(bucket)
  {
    var r := FromFields(fields, bucket);
    PayloadJoins(r.workspace, r.code, r.access, r.fault, r.tokens);
    assert TokenLines(r.tokens[1..]) == [];
    assert PayloadLines(r.workspace, r.code, r.access, r.fault, r.tokens) == fields + [FormatHex(bucket)];
    JoinAppend(fields, [FormatHex(bucket)]);
  }

  lemma Prefixed(p: string, lines: seq<string>)
    requires lines != []
    ensures JoinLines([p + lines[0]] + lines[1..]) == p + JoinLines(lines)
  {
    var longer := [p + lines[0]] + lines[1..];
    assert longer[1..] == lines[1..];
    if |lines| > 1 {
      var rest := JoinLines(lines[1..]);
      assert JoinLines(longer) == p + lines[0] + "\n" + rest;
      assert JoinLines(lines) == lines[0] + "\n" + rest;
      Regroup(p, lines[0], rest);
    }
  }

  lemma Regroup(p: string, a: string, rest: string)
    ensures p + a + "\n" + rest == p + (a + "\n" + rest)
  {
  }

  /** The part of a line after a line break may as well begin the next line. */
  lemma {:induction false} PassForward(f: seq<string>, i: nat, u: string, v: string)
    requires i + 1 < |f| && f[i] == u + "\n" + v
    ensures JoinLines(f[i := u][i + 1 := v + "\n" + f[i + 1]]) == JoinLines(f)
  {
    var g := f[i := u][i + 1 := v + "\n" + f[i + 1]];
    if i == 0 {
      var rest := JoinLines(f[1..]);
      assert g[1..] == [v + "\n" + f[1..][0]] + f[1..][1..];
      Prefixed(v + "\n", f[1..]);
      assert JoinLines(g) == u + "\n" + (v + "\n" + rest);
      assert JoinLines(f) == u + "\n" + v + "\n" + rest;
    } else {
      PassForward(f[1..], i - 1, u, v);
      assert g[1..] == f[1..][i - 1 := u][i := v + "\n" + f[i + 1]];
    }
  }

  /** The part of a line before a line break may as well end the line before it. */
  lemma PassBack(f: seq<string>, i: nat, u: string, v: string)
    requires i + 1 < |f| && f[i + 1] == u + "\n" + v
    ensures JoinLines(f[i := f[i] + "\n" + u][i + 1 := v]) == JoinLines(f)
  {
    var g := f[i := f[i] + "\n" + u][i + 1 := v];
    PassForward(g, i, f[i], u);
    assert g[i := f[i]][i + 1 := u + "\n" + g[i + 1]] == f;
  }

  lemma OneTokenWithBreakReadsTwice(r: Reading)
    requires |r.tokens| == 1 && !OneLineReading(r)
    ensures exists other: Reading :: other != r && other.tokens != [] && Spelled(other) == Spelled(r)
  {
    var f, bucket := Fields(r), r.tokens[0].bucket;
    assert r == FromFields(f, bucket) by { assert r.tokens == [r.tokens[0]]; }
    var i := BreakAt(r);
    var u, v := SplitAtBreak(f[i]);
    var g := if i < 5 then f[i := u][i + 1 := v + "\n" + f[i + 1]] else f[4 := f[4] + "\n" + u][5 := v];
    if i < 5 {
      PassForward(f, i, u, v);
      assert |g[i]| < |f[i]|;
    } else {
      PassBack(f, 4, u, v);
      assert |g[5]| < |f[5]|;
    }
    OneTokenSpells(f, bucket);
    OneTokenSpells(g, bucket);
    var other := FromFields(g, bucket);
    assert Fields(other) == g;
    assert other != r && other.tokens != [] && Spelled(other) == Spelled(r);
  }

  lemma BreakAt(r: Reading) returns (i: nat)
    requires |r.tokens| == 1 && !OneLineReading(r)
    ensures i < 6 && !OneLine(Fields(r)[i])
  {
    var head := [r.workspace, r.code, r.access, r.fault];
    if !OneLineEach(head) {
      i :| 0 <= i < 4 && !OneLine(head[i]);
      assert Fields(r)[i] == head[i];
    } else if !OneLine(r.tokens[0].debugId) {
      i := 4;
    } else {
      i := 5;
    }
  }

  /**
   A payload can be read in one way only exactly when it spells a single token and no field contains a line
   break: more tokens read as fewer with a longer name, and a line break lets a field end early.
   */
  lemma ReadsOneWay(r: Reading)
    requires r.tokens != []
    ensures (forall other: Reading | other.tokens != [] && Spelled(other) == Spelled(r) :: other == r) <==>
              |r.tokens| == 1 && OneLineReading(r)
  {
    if |r.tokens| > 1 {
      ManyTokensReadAsFewer(r);
      var other := r.(tokens := [Swallow(r.tokens[0], r.tokens[1])] + r.tokens[2..]);
      assert other.tokens != [] && Spelled(other) == Spelled(r) && other != r;
    } else if !OneLineReading(r) {
      OneTokenWithBreakReadsTwice(r);
    } else {
      forall other: Reading | other.tokens != [] && Spelled(other) == Spelled(r)
        ensures other == r
      {
        PayloadBreaks(r);
        PayloadBreaks(other);
        PayloadInjective(r.workspace, r.code, r.access, r.fault, r.tokens,
                         other.workspace, other.code, other.access, other.fault, other.tokens);
      }
    }
  }

  /** Among readings without line breaks in their fields every payload is read in one way, with any number of tokens. */
  lemma OneLineReadingsDiffer(a: Reading, b: Reading)
    requires a.tokens != [] && b.tokens != [] && OneLineReading(a) && OneLineReading(b)
    ensures Spelled(a) == Spelled(b) <==> a == b
  {
    PayloadInjective(a.workspace, a.code, a.access, a.fault, a.tokens, b.workspace, b.code, b.access, b.fault, b.tokens);
  }

  // ----- readings that an assembly can produce -----

  /** Only function names are free text: ids, codes and access types never contain line breaks. */
  predicate Produced(r: Reading) {
    && r.tokens != [] && OneLineEach([r.workspace, r.code, r.access, r.fault])
    && forall i | 0 <= i < |r.tokens| :: OneLine(r.tokens[i].debugId)
  }

  /** What stands between the first debug id and the last bucket. */
  function Stem(tokens: seq<Token>): string
    requires tokens != []
  {
    if |tokens| == 1 then tokens[0].functionName
    else
      tokens[0].functionName + "\n" + FormatHex(tokens[0].bucket) + "\n" + tokens[1].debugId + "\n" + Stem(tokens[1..])
  }

  function LastBucket(tokens: seq<Token>): nat
    requires tokens != []
  {
    tokens[|tokens| - 1].bucket
  }

  lemma {:induction false} StemSpells(tokens: seq<Token>)
    requires tokens != []
    ensures JoinLines(TokenTexts(tokens)) == tokens[0].debugId + "\n" + (Stem(tokens) + "\n" + FormatHex(LastBucket(tokens)))
  {
    var id, name, hex := tokens[0].debugId, tokens[0].functionName, FormatHex(tokens[0].bucket);
    if |tokens| == 1 {
      Regroup(id + "\n", name, hex);
    } else {
      StemSpells(tokens[1..]);
      assert TokenTexts(tokens)[1..] == TokenTexts(tokens[1..]);
      var rest := Stem(tokens[1..]) + "\n" + FormatHex(LastBucket(tokens));
      assert JoinLines(TokenTexts(tokens)) == id + "\n" + name + "\n" + hex + "\n" + (tokens[1].debugId + "\n" + rest);
      Nested(id, name, hex, tokens[1].debugId, Stem(tokens[1..]), FormatHex(LastBucket(tokens)));
    }
  }

  lemma Nested(a: string, b: string, c: string, d: string, e: string, f: string)
    ensures a + "\n" + b + "\n" + c + "\n" + (d + "\n" + (e + "\n" + f)) ==
            a + "\n" + (b + "\n" + c + "\n" + d + "\n" + e + "\n" + f)
  {
  }

  lemma SplitLast(a: string, x: string, b: string, y: string)
    requires OneLine(x) && OneLine(y) && a + "\n" + x == b + "\n" + y
    ensures a == b && x == y
  {
    var s, t := a + "\n" + x, b + "\n" + y;
    assert s[|a|] == '\n' && forall i | |a| < i < |s| :: s[i] != '\n';
    assert t[|b|] == '\n' && forall i | |b| < i < |t| :: t[i] != '\n';
    assert |a| == |b|;
    assert a == s[..|a|] && b == t[..|b|];
    assert x == s[|a| + 1..] && y == t[|b| + 1..];
  }

  lemma HexIsOneLine(n: nat)
    ensures OneLine(FormatHex(n))
  {
    var hex := FormatHex(n);
    assert forall i | 2 <= i < |hex| :: hex[i] == Numeral(n, Hexadecimal)[i - 2];
  }

  /** The payload with its one-line fields first. */
  lemma HeadFirst(r: Reading)
    requires r.tokens != []
    ensures Spelled(r) ==
            r.workspace + "\n" + (r.code + "\n" + (r.access + "\n" + (r.fault + "\n" + (r.tokens[0].debugId + "\n"
            + (Stem(r.tokens) + "\n" + FormatHex(LastBucket(r.tokens)))))))
  {
    StemSpells(r.tokens);
    Unnest(r.workspace, r.code, r.access, r.fault, JoinLines(TokenTexts(r.tokens)));
  }

  lemma Unnest(a: string, b: string, c: string, d: string, e: string)
    ensures a + "\n" + b + "\n" + c + "\n" + d + "\n" + e == a + "\n" + (b + "\n" + (c + "\n" + (d + "\n" + e)))
  {
  }

  /** Two readings share a payload exactly when they agree on everything but where their tokens begin and end. */
  lemma SharedPayload(a: Reading, b: Reading)
    requires Produced(a) && Produced(b)
    ensures Spelled(a) == Spelled(b) <==>
              && a.workspace == b.workspace && a.code == b.code && a.access == b.access && a.fault == b.fault
              && a.tokens[0].debugId == b.tokens[0].debugId
              && Stem(a.tokens) == Stem(b.tokens) && LastBucket(a.tokens) == LastBucket(b.tokens)
  {
    hide Stem, Spelled, FormatHex, OneLine;
    HeadFirst(a);
    HeadFirst(b);
    var x5 := Stem(a.tokens) + "\n" + FormatHex(LastBucket(a.tokens));
    var y5 := Stem(b.tokens) + "\n" + FormatHex(LastBucket(b.tokens));
    var x4, y4 := a.tokens[0].debugId + "\n" + x5, b.tokens[0].debugId + "\n" + y5;
    var x3, y3 := a.fault + "\n" + x4, b.fault + "\n" + y4;
    var x2, y2 := a.access + "\n" + x3, b.access + "\n" + y3;
    var x1, y1 := a.code + "\n" + x2, b.code + "\n" + y2;
    if Spelled(a) == Spelled(b) {
      var ha, hb := [a.workspace, a.code, a.access, a.fault], [b.workspace, b.code, b.access, b.fault];
      assert OneLine(ha[0]) && OneLine(ha[1]) && OneLine(ha[2]) && OneLine(ha[3]);
      assert OneLine(hb[0]) && OneLine(hb[1]) && OneLine(hb[2]) && OneLine(hb[3]);
      SplitFirst(a.workspace, b.workspace, x1, y1);
      SplitFirst(a.code, b.code, x2, y2);
      SplitFirst(a.access, b.access, x3, y3);
      SplitFirst(a.fault, b.fault, x4, y4);
      SplitFirst(a.tokens[0].debugId, b.tokens[0].debugId, x5, y5);
      HexIsOneLine(LastBucket(a.tokens));
      HexIsOneLine(LastBucket(b.tokens));
      SplitLast(Stem(a.tokens), FormatHex(LastBucket(a.tokens)), Stem(b.tokens), FormatHex(LastBucket(b.tokens)));
      SameBucket(LastBucket(a.tokens), LastBucket(b.tokens));
    }
  }

  lemma SameBucket(a: nat, b: nat)
    requires FormatHex(a) == FormatHex(b)
    ensures a == b
  {
    assert FormatHex(a)[2..] == Numeral(a, Hexadecimal) && FormatHex(b)[2..] == Numeral(b, Hexadecimal);
    NumeralInjective(a, b, Hexadecimal);
  }

  /** The name holds the end of one token and the beginning of another. */
  ghost predicate HasSeam(name: string) {
    exists before: string, bucket: nat, id: string, rest: string :: SeamAt(name, before, bucket, id, rest)
  }

  predicate SeamAt(name: string, before: string, bucket: nat, id: string, rest: string) {
    OneLine(id) && name == before + "\n" + FormatHex(bucket) + "\n" + id + "\n" + rest
  }

  /**
   Among the readings that an assembly can produce, a payload is read in one way only exactly when it spells
   one token whose name holds no seam: a line with a bucket between two line breaks, then a line, then a break.
   */
  lemma ProducedReadsOneWay(r: Reading)
    requires Produced(r)
    ensures (forall other: Reading | Produced(other) && Spelled(other) == Spelled(r) :: other == r) <==>
              |r.tokens| == 1 && !HasSeam(r.tokens[0].functionName)
  {
    hide FormatHex, Spelled;
    if |r.tokens| > 1 {
      ManyTokensReadAsFewer(r);
      var other := r.(tokens := [Swallow(r.tokens[0], r.tokens[1])] + r.tokens[2..]);
      assert Produced(other) && Spelled(other) == Spelled(r) && other != r;
    } else if HasSeam(r.tokens[0].functionName) {
      var before: string, bucket: nat, id: string, rest: string :| SeamAt(r.tokens[0].functionName, before, bucket, id, rest);
      var other := r.(tokens := [Token(r.tokens[0].debugId, before, bucket), Token(id, rest, r.tokens[0].bucket)]);
      assert other.tokens[1..] == [other.tokens[1]];
      SharedPayload(other, r);
      assert Produced(other) && Spelled(other) == Spelled(r) && other != r;
    } else {
      forall other: Reading | Produced(other) && Spelled(other) == Spelled(r)
        ensures other == r
      {
        SharedPayload(other, r);
        LongStemHasSeam(other.tokens);
        assert |other.tokens| == 1;
        assert other.tokens == [other.tokens[0]] && r.tokens == [r.tokens[0]];
      }
    }
  }

  lemma LongStemHasSeam(tokens: seq<Token>)
    requires tokens != [] && forall i | 0 <= i < |tokens| :: OneLine(tokens[i].debugId)
    ensures |tokens| > 1 ==> HasSeam(Stem(tokens))
  {
    if |tokens| > 1 {
      assert SeamAt(Stem(tokens), tokens[0].functionName, tokens[0].bucket, tokens[1].debugId, Stem(tokens[1..]));
    }
  }
}
