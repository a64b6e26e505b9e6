/** Laws of the quality scores and of the exact fingerprint. */
module FrameLaws {
  import opened Text
  import opened Frames

  // ----- scores -----

  lemma {:induction false} CountMonotone<T(!new)>(s: seq<T>, p: T -> bool, q: T -> bool)
    requires forall x :: p(x) ==> q(x)
    ensures Count(s, p) <= Count(s, q)
  {
    if s != [] {
      CountMonotone(s[..|s| - 1], p, q);
    }
  }

  lemma RatioInRange(part: real, whole: nat)
    requires 0.0 <= part <= whole as real
    ensures 0.0 <= Ratio(part, whole) <= 1.0
  {
    if whole != 0 {
      var w := whole as real;
      assert part / w * w == part;
      assert part / w <= 1.0 by {
        if part / w > 1.0 {
          assert part / w * w > w;
        }
      }
    }
  }

  /** Every score of every analysis lies between zero and one, and so does their weighted sum. */
  lemma ScoresInRange(threads: seq<ThreadInfo>, modules: seq<ModuleInfo>)
    ensures var q := QualityOf(threads, modules);
            && 0.0 <= q.symbolCoverage <= 1.0
            && 0.0 <= q.unwindReliability <= 1.0
            && 0.0 <= q.artifactCompleteness <= 1.0
            && 0.0 <= Score(q) <= 1.0
  {
    hide Physical, TotalWeight, Ratio, Count;
    var scored := ScoredThread(threads);
    var frames := if scored.Some? then Physical(scored.value.frames) else [];
    CountMonotone(frames, (f: FrameInfo) => Identifiable(f) && Symbolized(f), Identifiable);
    CountMonotone(modules, (m: ModuleInfo) => m.inApp && m.status == "matched", (m: ModuleInfo) => m.inApp);
    RatioInRange(Count(frames, (f: FrameInfo) => Identifiable(f) && Symbolized(f)) as real, Count(frames, Identifiable));
    RatioInRange(TotalWeight(frames), |frames|);
    RatioInRange(Count(modules, (m: ModuleInfo) => m.inApp && m.status == "matched") as real,
                 Count(modules, (m: ModuleInfo) => m.inApp));
  }

  // ----- which frames the fingerprint looks at -----

  /** Eligibility looks one frame ahead at most. */
  lemma EligibleLocal(frames: seq<FrameInfo>, more: seq<FrameInfo>, i: nat)
    requires i + 1 < |frames| && frames <= more
    ensures Eligible(frames, i) == Eligible(more, i)
  {
  }

  lemma {:induction false} FreshIndexesLocal(frames: seq<FrameInfo>, more: seq<FrameInfo>, n: nat)
    requires n < |frames| && frames <= more
    ensures FreshIndexes(frames, n) == FreshIndexes(more, n)
  {
    hide Eligible;
    if n > 0 {
      FreshIndexesLocal(frames, more, n - 1);
      forall i | 0 <= i < n
        ensures Eligible(frames, i) == Eligible(more, i)
      {
        EligibleLocal(frames, more, i);
      }
    }
  }

  /**
   Once five frames are selected, nothing beyond the frame after the fifth matters: `frames` may be cut
   there and continued in any way.
   */
  lemma SelectionIgnoresTail(frames: seq<FrameInfo>, fifth: nat, tail: seq<FrameInfo>)
    requires fifth + 2 <= |frames|
    requires |FreshIndexes(frames, fifth + 1)| == MAX_SELECTED
    ensures Selected(frames[..fifth + 2] + tail) == Selected(frames)
  {
    hide Eligible;
    var head := frames[..fifth + 2];
    var other := head + tail;
    FreshIndexesLocal(head, frames, fifth + 1);
    FreshIndexesLocal(head, other, fifth + 1);
    FreshPrefix(frames, fifth + 1, |frames|);
    FreshPrefix(other, fifth + 1, |other|);
    var at := FreshIndexes(frames, fifth + 1);
    assert FirstFive(FreshIndexes(frames, |frames|)) == at;
    assert FirstFive(FreshIndexes(other, |other|)) == at;
  }

  /** The selected frames are eligible, at most five, with pairwise distinct addresses. */
  lemma SelectedFrames(frames: seq<FrameInfo>)
    ensures |Selected(frames)| <= MAX_SELECTED
    ensures forall j, k | 0 <= j < k < |Selected(frames)| ::
              Selected(frames)[j].instructionAddr != Selected(frames)[k].instructionAddr
    ensures forall f | f in Selected(frames) ::
              f in frames && f.inApp && !Denied(f) && f.trust != "unknown"
  {
    hide Denied;
    FreshIndexesAre(frames, |frames|);
    var at := FirstFive(FreshIndexes(frames, |frames|));
    assert forall k | 0 <= k < |at| :: at[k] in FreshIndexes(frames, |frames|);
    forall j, k | 0 <= j < k < |at|
      ensures frames[at[j]].instructionAddr != frames[at[k]].instructionAddr
    {
      assert Fresh(frames, at[k]) && Fresh(frames, at[j]);
    }
    forall k | 0 <= k < |at|
      ensures frames[at[k]].inApp && !Denied(frames[at[k]]) && frames[at[k]].trust != "unknown"
    {
      assert Eligible(frames, at[k]);
    }
  }

  // ----- the payload -----

  predicate OneLine(s: string) {
    '\n' !in s
  }

  function TokenLines(tokens: seq<Token>): seq<string> {
    if tokens == [] then []
    else [tokens[0].debugId, tokens[0].functionName, FormatHex(tokens[0].bucket)] + TokenLines(tokens[1..])
  }

  function PayloadLines(workspace: string, code: string, access: string, faultDebugId: string, tokens: seq<Token>): seq<string> {
    [workspace, code, access, faultDebugId] + TokenLines(tokens)
  }

  predicate OneLineEach(lines: seq<string>) {
    forall i | 0 <= i < |lines| :: OneLine(lines[i])
  }

  lemma {:induction false} JoinAppend(a: seq<string>, b: seq<string>)
    requires a != [] && b != []
    ensures JoinLines(a + b) == JoinLines(a) + "\n" + JoinLines(b)
  {
    if |a| == 1 {
      assert (a + b)[1..] == b;
    } else {
      JoinAppend(a[1..], b);
      assert (a + b)[1..] == a[1..] + b;
    }
  }

  lemma {:induction false} TokensJoin(tokens: seq<Token>)
    requires tokens != []
    ensures TokenLines(tokens) != [] && JoinLines(TokenTexts(tokens)) == JoinLines(TokenLines(tokens))
  {
    var first := [tokens[0].debugId, tokens[0].functionName, FormatHex(tokens[0].bucket)];
    JoinThree(tokens[0].debugId, tokens[0].functionName, FormatHex(tokens[0].bucket));
    assert TokenTexts(tokens)[1..] == TokenTexts(tokens[1..]);
    if |tokens| == 1 {
      assert TokenLines(tokens) == first;
    } else {
      TokensJoin(tokens[1..]);
      JoinAppend(first, TokenLines(tokens[1..]));
    }
  }

  lemma JoinThree(a: string, b: string, c: string)
    ensures JoinLines([a, b, c]) == a + "\n" + b + "\n" + c
  {
    assert [a, b, c][1..] == [b, c] && [b, c][1..] == [c];
    assert JoinLines([b, c]) == b + "\n" + c;
    assert a + "\n" + (b + "\n" + c) == a + "\n" + b + "\n" + c;
  }

  lemma PayloadJoins(workspace: string, code: string, access: string, faultDebugId: string, tokens: seq<Token>)
    requires tokens != []
    ensures Payload(workspace, code, access, faultDebugId, tokens) == JoinLines(PayloadLines(workspace, code, access, faultDebugId, tokens))
  {
    TokensJoin(tokens);
    var head := [workspace, code, access, faultDebugId];
    JoinAppend(head, TokenLines(tokens));
    JoinAppend([workspace], [code, access, faultDebugId]);
    JoinThree(code, access, faultDebugId);
    assert head == [workspace] + [code, access, faultDebugId];
  }

  function LineLength(s: string): nat {
    if s == "" || s[0] == '\n' then 0 else 1 + LineLength(s[1..])
  }

  lemma {:induction false} LineLengthOf(line: string, tail: string)
    requires OneLine(line) && (tail == "" || tail[0] == '\n')
    ensures LineLength(line + tail) == |line|
  {
    if line == "" {
      assert line + tail == tail;
    } else {
      assert (line + tail)[1..] == line[1..] + tail;
      LineLengthOf(line[1..], tail);
    }
  }

  lemma SplitFirst(a: string, b: string, x: string, y: string)
    requires OneLine(a) && OneLine(b) && a + "\n" + x == b + "\n" + y
    ensures a == b && x == y
  {
    var s, t := a + "\n" + x, b + "\n" + y;
    LineLengthOf(a, "\n" + x);
    LineLengthOf(b, "\n" + y);
    assert s == a + ("\n" + x) && t == b + ("\n" + y);
    assert a == s[..|a|] && b == t[..|b|];
    assert x == s[|a| + 1..] && y == t[|b| + 1..];
  }

  /** The first line of joined lines, and whether more follow. */
  lemma FirstLine(lines: seq<string>)
    requires lines != [] && OneLineEach(lines)
    ensures LineLength(JoinLines(lines)) == |lines[0]|
    ensures |lines| == 1 <==> |JoinLines(lines)| == |lines[0]|
  {
    if |lines| == 1 {
      LineLengthOf(lines[0], "");
      assert lines[0] + "" == lines[0];
    } else {
      LineLengthOf(lines[0], "\n" + JoinLines(lines[1..]));
      assert JoinLines(lines) == lines[0] + ("\n" + JoinLines(lines[1..]));
    }
  }

  lemma {:induction false} JoinInjective(a: seq<string>, b: seq<string>)
    requires a != [] && b != [] && OneLineEach(a) && OneLineEach(b)
    requires JoinLines(a) == JoinLines(b)
    ensures a == b
  {
    FirstLine(a);
    FirstLine(b);
    if |a| > 1 {
      SplitFirst(a[0], b[0], JoinLines(a[1..]), JoinLines(b[1..]));
      JoinInjective(a[1..], b[1..]);
      assert a == [a[0]] + a[1..] && b == [b[0]] + b[1..];
    }
  }

  lemma {:induction false} TokenLinesInjective(s: seq<Token>, t: seq<Token>)
    requires TokenLines(s) == TokenLines(t)
    ensures s == t
  {
    if s != [] && t != [] {
      var a, b := TokenLines(s), TokenLines(t);
      assert a[0] == s[0].debugId && a[1] == s[0].functionName && a[2] == FormatHex(s[0].bucket);
      assert b[0] == t[0].debugId && b[1] == t[0].functionName && b[2] == FormatHex(t[0].bucket);
      assert a[2][2..] == Numeral(s[0].bucket, Hexadecimal) && b[2][2..] == Numeral(t[0].bucket, Hexadecimal);
      NumeralInjective(s[0].bucket, t[0].bucket, Hexadecimal);
      assert a[3..] == TokenLines(s[1..]) && b[3..] == TokenLines(t[1..]);
      TokenLinesInjective(s[1..], t[1..]);
      assert s == [s[0]] + s[1..] && t == [t[0]] + t[1..];
    }
  }

  predicate OneLineTokens(tokens: seq<Token>) {
    forall i | 0 <= i < |tokens| :: OneLine(tokens[i].debugId) && OneLine(tokens[i].functionName)
  }

  lemma {:induction false} TokenLinesOneLine(tokens: seq<Token>)
    requires OneLineTokens(tokens)
    ensures OneLineEach(TokenLines(tokens))
  {
    if tokens != [] {
      TokenLinesOneLine(tokens[1..]);
      var hex := FormatHex(tokens[0].bucket);
      assert forall i | 2 <= i < |hex| :: hex[i] == Numeral(tokens[0].bucket, Hexadecimal)[i - 2];
      assert OneLine(hex);
    }
  }

  /** Without line breaks inside its fields, a payload tells every field and the whole token list. */
  lemma PayloadInjective(
    workspace: string, code: string, access: string, fault: string, tokens: seq<Token>,
    workspace': string, code': string, access': string, fault': string, tokens': seq<Token>)
    requires tokens != [] && OneLineTokens(tokens) && OneLineEach([workspace, code, access, fault])
    requires tokens' != [] && OneLineTokens(tokens') && OneLineEach([workspace', code', access', fault'])
    ensures Payload(workspace, code, access, fault, tokens) == Payload(workspace', code', access', fault', tokens') <==>
              workspace == workspace' && code == code' && access == access' && fault == fault' && tokens == tokens'
  {
    var a := PayloadLines(workspace, code, access, fault, tokens);
    var b := PayloadLines(workspace', code', access', fault', tokens');
    PayloadJoins(workspace, code, access, fault, tokens);
    PayloadJoins(workspace', code', access', fault', tokens');
    TokenLinesOneLine(tokens);
    TokenLinesOneLine(tokens');
    if Payload(workspace, code, access, fault, tokens) == Payload(workspace', code', access', fault', tokens') {
      JoinInjective(a, b);
      assert a[0] == b[0] && a[1] == b[1] && a[2] == b[2] && a[3] == b[3];
      assert a[4..] == TokenLines(tokens) && b[4..] == TokenLines(tokens');
      TokenLinesInjective(tokens, tokens');
    }
  }
}
