/** `wrapTextWithBold`: the field's word tokens filled greedily into lines
    by a running width, each line then collapsed into style runs. */
module WrapBold {
  import opened Text
  import opened Tokens
  import opened Segments

  /** A token measured in its own face. */
  function TokenWidth(fonts: Fonts, t: WordToken, size: int): real {
    FaceOf(fonts, t.bold)(t.text, size)
  }

  /** The gap between two tokens: a space in the regular face. */
  function SpaceWidth(fonts: Fonts, size: int): real {
    fonts.regular(" ", size)
  }

  /** The accounted width of a line of tokens: the first token's width, then
      for each further token a regular space plus that token's width, added
      in the order the loop adds them. */
  function AccWidth(line: seq<WordToken>, fonts: Fonts, size: int): real {
    if |line| == 0 then 0.0
    else if |line| == 1 then TokenWidth(fonts, line[0], size)
    else AccWidth(line[..|line| - 1], fonts, size) + (SpaceWidth(fonts, size) + TokenWidth(fonts, line[|line| - 1], size))
  }

  /** `addedWidth`: what appending `t` to the line `current` costs. */
  function Added(current: seq<WordToken>, t: WordToken, fonts: Fonts, size: int): real {
    if |current| > 0 then SpaceWidth(fonts, size) + TokenWidth(fonts, t, size) else TokenWidth(fonts, t, size)
  }

  lemma {:induction false} AccSnoc(current: seq<WordToken>, t: WordToken, fonts: Fonts, size: int)
    ensures AccWidth(current + [t], fonts, size) == AccWidth(current, fonts, size) + Added(current, t, fonts, size)
  {
    assert (current + [t])[..|current|] == current;
  }

  /** The sum of the tokens' widths, each in its own face. */
  function TokenSum(line: seq<WordToken>, fonts: Fonts, size: int): real {
    if line == [] then 0.0 else TokenSum(line[..|line| - 1], fonts, size) + TokenWidth(fonts, line[|line| - 1], size)
  }

  /** The accounted width is the token widths plus one space per gap. */
  lemma {:induction false} AccWidthClosedForm(line: seq<WordToken>, fonts: Fonts, size: int)
    requires line != []
    ensures AccWidth(line, fonts, size) == TokenSum(line, fonts, size) + (|line| - 1) as real * SpaceWidth(fonts, size)
    decreases |line|
  {
    var n := |line|;
    if n == 1 {
      assert line[..0] == [];
    } else {
      AccWidthClosedForm(line[..n - 1], fonts, size);
      var sw := SpaceWidth(fonts, size);
      assert (n - 2) as real * sw + sw == (n - 1) as real * sw;
    }
  }

  // ---- the fill ----

  /** The fill loop's state: the finished lines (as tokens) and
      `currentLineTokens`; `currentLineWidth` is the latter's `AccWidth`. */
  datatype LineState = LineState(lines: seq<seq<WordToken>>, current: seq<WordToken>)

  /** One iteration of the fill loop. */
  function BreakStep(st: LineState, t: WordToken, fonts: Fonts, size: int, maxWidth: real): LineState {
    if AccWidth(st.current, fonts, size) + Added(st.current, t, fonts, size) <= maxWidth then
      LineState(st.lines, st.current + [t])
    else
      LineState(if |st.current| > 0 then st.lines + [st.current] else st.lines, [t])
  }

  /** The fill loop run over `tokens`. */
  function Break(tokens: seq<WordToken>, fonts: Fonts, size: int, maxWidth: real): LineState {
    if tokens == [] then LineState([], [])
    else BreakStep(Break(tokens[..|tokens| - 1], fonts, size, maxWidth), tokens[|tokens| - 1], fonts, size, maxWidth)
  }

  /** The lines of tokens once the last line, if not empty, is pushed. */
  function TokenLines(tokens: seq<WordToken>, fonts: Fonts, size: int, maxWidth: real): seq<seq<WordToken>> {
    AllLines(Break(tokens, fonts, size, maxWidth))
  }

  /** Each line of tokens collapsed into style runs. */
  function SegLines(lines: seq<seq<WordToken>>): (r: seq<seq<TextSegment>>)
    ensures |r| == |lines| && forall k :: 0 <= k < |lines| ==> r[k] == Segs(lines[k])
  {
    if lines == [] then [] else SegLines(lines[..|lines| - 1]) + [Segs(lines[|lines| - 1])]
  }

  /** `wrapTextWithBold(text, maxWidth, size / 4, font, fontBold)`. */
  function WrapBold(text: string, maxWidth: real, size: int, fonts: Fonts): seq<seq<TextSegment>> {
    SegLines(TokenLines(Tokenize(text), fonts, size, maxWidth))
  }

  /** `wrapTextWithBold`: tokenize, then fill keeping a running width. */
  method WrapTextWithBold(text: string, maxWidth: real, size: int, fonts: Fonts)
    returns (lines: seq<seq<TextSegment>>)
    ensures lines == WrapBold(text, maxWidth, size, fonts)
  {
    var tokens := ParseTextToWordTokens(text);
    lines := [];
    ghost var tokenLines: seq<seq<WordToken>> := [];
    var currentLineTokens: seq<WordToken> := [];
    var currentLineWidth := 0.0;
    for i := 0 to |tokens|
      invariant LineState(tokenLines, currentLineTokens) == Break(tokens[..i], fonts, size, maxWidth)
      invariant currentLineWidth == AccWidth(currentLineTokens, fonts, size)
      invariant lines == SegLines(tokenLines)
    {
      tokenLines, currentLineTokens, currentLineWidth, lines :=
        FillStep(tokens, i, fonts, size, maxWidth, tokenLines, currentLineTokens, currentLineWidth, lines);
    }
    assert tokens[..|tokens|] == tokens;
    if |currentLineTokens| > 0 {
      var segments := TokensToSegments(currentLineTokens);
      SegLinesSnoc(tokenLines, currentLineTokens);
      lines := lines + [segments];
    }
  }

  /** One iteration of the fill loop of `wrapTextWithBold`: the token fits
      on the current line, or that line (when not empty) is finished and the
      token opens the next one. */
  method FillStep(tokens: seq<WordToken>, i: nat, fonts: Fonts, size: int, maxWidth: real,
                  ghost tokenLines: seq<seq<WordToken>>, currentLineTokens: seq<WordToken>,
                  currentLineWidth: real, lines: seq<seq<TextSegment>>)
    returns (ghost tokenLines': seq<seq<WordToken>>, currentLineTokens': seq<WordToken>,
             currentLineWidth': real, lines': seq<seq<TextSegment>>)
    requires i < |tokens|
    requires LineState(tokenLines, currentLineTokens) == Break(tokens[..i], fonts, size, maxWidth)
    requires currentLineWidth == AccWidth(currentLineTokens, fonts, size)
    requires lines == SegLines(tokenLines)
    ensures LineState(tokenLines', currentLineTokens') == Break(tokens[..i + 1], fonts, size, maxWidth)
    ensures currentLineWidth' == AccWidth(currentLineTokens', fonts, size)
    ensures lines' == SegLines(tokenLines')
  {
    var token := tokens[i];
    BreakSnoc(tokens, i, fonts, size, maxWidth);
    ghost var st := LineState(tokenLines, currentLineTokens);
    var tokenWidth := TokenWidth(fonts, token, size);
    var spaceWidth := SpaceWidth(fonts, size);
    var addedWidth := if |currentLineTokens| > 0 then spaceWidth + tokenWidth else tokenWidth;
    AccSnoc(currentLineTokens, token, fonts, size);
    if currentLineWidth + addedWidth <= maxWidth {
      assert BreakStep(st, token, fonts, size, maxWidth) == LineState(tokenLines, currentLineTokens + [token]);
      tokenLines', lines' := tokenLines, lines;
      currentLineTokens' := currentLineTokens + [token];
      currentLineWidth' := currentLineWidth + addedWidth;
    } else {
      assert BreakStep(st, token, fonts, size, maxWidth)
             == LineState(if |currentLineTokens| > 0 then tokenLines + [currentLineTokens] else tokenLines, [token]);
      tokenLines', lines' := tokenLines, lines;
      if |currentLineTokens| > 0 {
        var segments := TokensToSegments(currentLineTokens);
        SegLinesSnoc(tokenLines, currentLineTokens);
        lines' := lines + [segments];
        tokenLines' := tokenLines + [currentLineTokens];
      }
      currentLineTokens' := [token];
      currentLineWidth' := tokenWidth;
    }
  }

  lemma {:induction false} BreakSnoc(tokens: seq<WordToken>, i: nat, fonts: Fonts, size: int, maxWidth: real)
    requires i < |tokens|
    ensures Break(tokens[..i + 1], fonts, size, maxWidth)
            == BreakStep(Break(tokens[..i], fonts, size, maxWidth), tokens[i], fonts, size, maxWidth)
  {
    assert tokens[..i + 1][..i] == tokens[..i];
  }

  lemma {:induction false} SegLinesSnoc(lines: seq<seq<WordToken>>, line: seq<WordToken>)
    ensures SegLines(lines + [line]) == SegLines(lines) + [Segs(line)]
  {
    assert (lines + [line])[..|lines|] == lines;
  }

  // ---- what the fill guarantees ----

  /** The lines' tokens, one line after another. */
  function Flatten(lines: seq<seq<WordToken>>): seq<WordToken> {
    if lines == [] then [] else Flatten(lines[..|lines| - 1]) + lines[|lines| - 1]
  }

  lemma {:induction false} FlattenSnoc(lines: seq<seq<WordToken>>, line: seq<WordToken>)
    ensures Flatten(lines + [line]) == Flatten(lines) + line
  {
    assert (lines + [line])[..|lines|] == lines;
  }

  /** The state holds exactly `tokens`, in order, with no empty finished
      line, and a non-empty current line once a token has been read. */
  predicate Covers(st: LineState, tokens: seq<WordToken>) {
    && (forall k :: 0 <= k < |st.lines| ==> st.lines[k] != [])
    && Flatten(st.lines) + st.current == tokens
    && (tokens != [] ==> st.current != [])
  }

  /** The fill keeps every token, in order, and opens no empty line. */
  lemma {:induction false} BreakCovers(tokens: seq<WordToken>, fonts: Fonts, size: int, maxWidth: real)
    ensures Covers(Break(tokens, fonts, size, maxWidth), tokens)
    decreases |tokens|
  {
    if tokens != [] {
      var init, t := tokens[..|tokens| - 1], tokens[|tokens| - 1];
      BreakCovers(init, fonts, size, maxWidth);
      LastSplit(tokens);
      StepCovers(Break(init, fonts, size, maxWidth), init, t, fonts, size, maxWidth);
    }
  }

  /** One step of the fill keeps the tokens read so far, plus the new one. */
  lemma {:induction false} StepCovers(st: LineState, init: seq<WordToken>, t: WordToken, fonts: Fonts, size: int, maxWidth: real)
    requires Covers(st, init)
    ensures Covers(BreakStep(st, t, fonts, size, maxWidth), init + [t])
  {
    if AccWidth(st.current, fonts, size) + Added(st.current, t, fonts, size) <= maxWidth {
      AppendAssoc(Flatten(st.lines), st.current, [t]);
    } else if |st.current| > 0 {
      FlattenSnoc(st.lines, st.current);
    }
  }

  /** Every prefix of two or more tokens of a line was accepted by the width
      test, so its accounted width is at most `maxWidth`. */
  predicate PrefixesFit(line: seq<WordToken>, fonts: Fonts, size: int, maxWidth: real) {
    forall j :: 2 <= j <= |line| ==> AccWidth(line[..j], fonts, size) <= maxWidth
  }

  lemma {:induction false} PrefixesFitSnoc(line: seq<WordToken>, t: WordToken, fonts: Fonts, size: int, maxWidth: real)
    requires PrefixesFit(line, fonts, size, maxWidth)
    requires |line| > 0 ==> AccWidth(line + [t], fonts, size) <= maxWidth
    ensures PrefixesFit(line + [t], fonts, size, maxWidth)
  {
    forall j | 2 <= j <= |line + [t]|
      ensures AccWidth((line + [t])[..j], fonts, size) <= maxWidth
    {
      if j <= |line| {
        assert (line + [t])[..j] == line[..j];
      } else {
        assert (line + [t])[..j] == line + [t];
      }
    }
  }

  /** Every line the fill builds has all its prefixes accepted. */
  lemma {:induction false} BreakFits(tokens: seq<WordToken>, fonts: Fonts, size: int, maxWidth: real)
    ensures var st := Break(tokens, fonts, size, maxWidth);
            && (forall k :: 0 <= k < |st.lines| ==> PrefixesFit(st.lines[k], fonts, size, maxWidth))
            && PrefixesFit(st.current, fonts, size, maxWidth)
    decreases |tokens|
  {
    if tokens != [] {
      var init := tokens[..|tokens| - 1];
      var t := tokens[|tokens| - 1];
      BreakFits(init, fonts, size, maxWidth);
      var st := Break(init, fonts, size, maxWidth);
      AccSnoc(st.current, t, fonts, size);
      if AccWidth(st.current, fonts, size) + Added(st.current, t, fonts, size) <= maxWidth {
        PrefixesFitSnoc(st.current, t, fonts, size, maxWidth);
      } else {
        PrefixesFitSnoc([], t, fonts, size, maxWidth);
        assert [] + [t] == [t];
      }
    }
  }

  /** A line is closed only when the next token would not have fitted: each
      finished line with the first token of the line after it is wider than
      `maxWidth`. */
  predicate BreaksForced(lines: seq<seq<WordToken>>, fonts: Fonts, size: int, maxWidth: real)
    requires forall k :: 0 <= k < |lines| ==> lines[k] != []
  {
    forall k :: 0 <= k < |lines| - 1 ==> AccWidth(lines[k] + [lines[k + 1][0]], fonts, size) > maxWidth
  }

  /** The lines a fill state stands for once its current line is pushed. */
  function AllLines(st: LineState): seq<seq<WordToken>> {
    if |st.current| > 0 then st.lines + [st.current] else st.lines
  }

  /** What the fill keeps true about its state between tokens. */
  predicate ForcedState(st: LineState, fonts: Fonts, size: int, maxWidth: real) {
    && (st.current == [] ==> st.lines == [])
    && (forall k :: 0 <= k < |AllLines(st)| ==> AllLines(st)[k] != [])
    && BreaksForced(AllLines(st), fonts, size, maxWidth)
  }

  lemma {:induction false} BreakMaximal(tokens: seq<WordToken>, fonts: Fonts, size: int, maxWidth: real)
    ensures ForcedState(Break(tokens, fonts, size, maxWidth), fonts, size, maxWidth)
    decreases |tokens|
  {
    if tokens != [] {
      var init := tokens[..|tokens| - 1];
      BreakMaximal(init, fonts, size, maxWidth);
      MaximalStep(Break(init, fonts, size, maxWidth), tokens[|tokens| - 1], fonts, size, maxWidth);
    }
  }

  lemma {:induction false} MaximalStep(st: LineState, t: WordToken, fonts: Fonts, size: int, maxWidth: real)
    requires ForcedState(st, fonts, size, maxWidth)
    ensures ForcedState(BreakStep(st, t, fonts, size, maxWidth), fonts, size, maxWidth)
  {
    AccSnoc(st.current, t, fonts, size);
    if |st.current| > 0 {
      assert forall k :: 0 <= k < |st.lines| ==> st.lines[k] == AllLines(st)[k];
    }
    if AccWidth(st.current, fonts, size) + Added(st.current, t, fonts, size) <= maxWidth {
      if |st.current| > 0 {
        ExtendLast(st.lines, st.current, t, fonts, size, maxWidth);
      } else {
        assert AllLines(BreakStep(st, t, fonts, size, maxWidth)) == [[] + [t]];
      }
    } else if |st.current| > 0 {
      CloseLine(st.lines, st.current, t, fonts, size, maxWidth);
    } else {
      assert AllLines(BreakStep(st, t, fonts, size, maxWidth)) == [[t]];
    }
  }

  lemma {:induction false} ExtendLast(lines: seq<seq<WordToken>>, current: seq<WordToken>, t: WordToken,
                   fonts: Fonts, size: int, maxWidth: real)
    requires current != [] && forall k :: 0 <= k < |lines| ==> lines[k] != []
    requires BreaksForced(lines + [current], fonts, size, maxWidth)
    ensures forall k :: 0 <= k < |lines + [current + [t]]| ==> (lines + [current + [t]])[k] != []
    ensures BreaksForced(lines + [current + [t]], fonts, size, maxWidth)
  {
    var a, b := lines + [current], lines + [current + [t]];
    assert forall k :: 0 <= k < |lines| ==> a[k] == b[k];
    assert a[|lines|][0] == b[|lines|][0];
  }

  lemma {:induction false} CloseLine(lines: seq<seq<WordToken>>, current: seq<WordToken>, t: WordToken,
                  fonts: Fonts, size: int, maxWidth: real)
    requires current != [] && forall k :: 0 <= k < |lines| ==> lines[k] != []
    requires BreaksForced(lines + [current], fonts, size, maxWidth)
    requires AccWidth(current + [t], fonts, size) > maxWidth
    ensures forall k :: 0 <= k < |lines + [current] + [[t]]| ==> (lines + [current] + [[t]])[k] != []
    ensures BreaksForced(lines + [current] + [[t]], fonts, size, maxWidth)
  {
    var a, b := lines + [current], lines + [current] + [[t]];
    assert forall k :: 0 <= k < |a| ==> a[k] == b[k];
  }

  /** The fill's result as a declarative property: the lines are non-empty,
      hold the tokens in order, every line had all its prefixes accepted, and
      every line break was forced by the next token. */
  predicate IsGreedyPartition(tokens: seq<WordToken>, lines: seq<seq<WordToken>>,
                              fonts: Fonts, size: int, maxWidth: real) {
    && (forall k :: 0 <= k < |lines| ==> lines[k] != [])
    && Flatten(lines) == tokens
    && (forall k :: 0 <= k < |lines| ==> PrefixesFit(lines[k], fonts, size, maxWidth))
    && BreaksForced(lines, fonts, size, maxWidth)
  }

  /** The fill's lines are a greedy partition of the tokens. */
  lemma {:induction false} TokenLinesGreedy(tokens: seq<WordToken>, fonts: Fonts, size: int, maxWidth: real)
    ensures IsGreedyPartition(tokens, TokenLines(tokens, fonts, size, maxWidth), fonts, size, maxWidth)
  {
    BreakCovers(tokens, fonts, size, maxWidth);
    BreakFits(tokens, fonts, size, maxWidth);
    BreakMaximal(tokens, fonts, size, maxWidth);
    var st := Break(tokens, fonts, size, maxWidth);
    assert TokenLines(tokens, fonts, size, maxWidth) == AllLines(st);
    if |st.current| > 0 {
      FlattenSnoc(st.lines, st.current);
    } else {
      assert Flatten(st.lines) + [] == Flatten(st.lines);
    }
  }

  lemma {:induction false} FlattenCons(lines: seq<seq<WordToken>>)
    requires lines != []
    ensures Flatten(lines) == lines[0] + Flatten(lines[1..])
    decreases |lines|
  {
    var n := |lines|;
    if n == 1 {
      assert lines[..0] == [] && lines[1..] == [];
    } else {
      var init := lines[..n - 1];
      FlattenCons(init);
      assert init[1..] == lines[1..][..n - 2];
      assert lines[1..][n - 2] == lines[n - 1];
      AppendAssoc(lines[0], Flatten(init[1..]), lines[n - 1]);
    }
  }

  lemma {:induction false} FlattenLength(lines: seq<seq<WordToken>>)
    requires forall k :: 0 <= k < |lines| ==> lines[k] != []
    ensures |Flatten(lines)| >= |lines|
    decreases |lines|
  {
    if lines != [] {
      FlattenLength(lines[..|lines| - 1]);
    }
  }

  /** A greedy partition of a token list is unique: any two are equal. */
  lemma {:induction false} GreedyUnique(tokens: seq<WordToken>, a: seq<seq<WordToken>>, b: seq<seq<WordToken>>,
                                        fonts: Fonts, size: int, maxWidth: real)
    requires IsGreedyPartition(tokens, a, fonts, size, maxWidth)
    requires IsGreedyPartition(tokens, b, fonts, size, maxWidth)
    ensures a == b
    decreases |tokens|
  {
    if tokens == [] {
      FlattenLength(a);
      FlattenLength(b);
      assert |a| == 0 && |b| == 0;
    } else {
      var n := SameFirstLine(tokens, a, b, fonts, size, maxWidth);
      GreedyUnique(tokens[n..], a[1..], b[1..], fonts, size, maxWidth);
      assert a == [a[0]] + a[1..] && b == [b[0]] + b[1..];
    }
  }

  /** Two greedy partitions of the same tokens open with the same line, and
      what follows it is a greedy partition of the remaining tokens. */
  lemma {:induction false} SameFirstLine(tokens: seq<WordToken>, a: seq<seq<WordToken>>, b: seq<seq<WordToken>>,
                                         fonts: Fonts, size: int, maxWidth: real) returns (n: nat)
    requires tokens != []
    requires IsGreedyPartition(tokens, a, fonts, size, maxWidth)
    requires IsGreedyPartition(tokens, b, fonts, size, maxWidth)
    ensures a != [] && b != [] && a[0] == b[0]
    ensures 0 < n == |a[0]| <= |tokens|
    ensures IsGreedyPartition(tokens[n..], a[1..], fonts, size, maxWidth)
    ensures IsGreedyPartition(tokens[n..], b[1..], fonts, size, maxWidth)
  {
    FlattenLength(a);
    FlattenLength(b);
    FlattenCons(a);
    FlattenCons(b);
    FirstLinesAgree(tokens, a, b, fonts, size, maxWidth);
    FirstLinesAgree(tokens, b, a, fonts, size, maxWidth);
    n := |a[0]|;
    assert a[0] == tokens[..n] == b[0];
    GreedyTail(tokens, a, fonts, size, maxWidth);
    GreedyTail(tokens, b, fonts, size, maxWidth);
  }

  /** The first line of one greedy partition is no shorter than the other's:
      a shorter first line would have been closed although the next token
      fitted. */
  lemma {:induction false} FirstLinesAgree(tokens: seq<WordToken>, a: seq<seq<WordToken>>, b: seq<seq<WordToken>>,
                        fonts: Fonts, size: int, maxWidth: real)
    requires tokens != []
    requires IsGreedyPartition(tokens, a, fonts, size, maxWidth)
    requires IsGreedyPartition(tokens, b, fonts, size, maxWidth)
    requires a != [] && b != []
    requires Flatten(a) == a[0] + Flatten(a[1..]) && Flatten(b) == b[0] + Flatten(b[1..])
    ensures |a[0]| >= |b[0]|
  {
    if |a[0]| < |b[0]| {
      ShorterLineCouldGrow(tokens, a, b, fonts, size, maxWidth);
      assert false;
    }
  }

  /** If one partition's first line is shorter than another's, the token
      after it still fitted on it. */
  lemma {:induction false} ShorterLineCouldGrow(tokens: seq<WordToken>, a: seq<seq<WordToken>>, b: seq<seq<WordToken>>,
                             fonts: Fonts, size: int, maxWidth: real)
    requires a != [] && b != [] && forall k :: 0 <= k < |a| ==> a[k] != []
    requires tokens == a[0] + Flatten(a[1..]) && tokens == b[0] + Flatten(b[1..])
    requires PrefixesFit(b[0], fonts, size, maxWidth)
    requires |a[0]| < |b[0]|
    ensures |a| > 1 && AccWidth(a[0] + [a[1][0]], fonts, size) <= maxWidth
  {
    var n, m := |a[0]|, |b[0]|;
    PrefixOf(a[0], Flatten(a[1..]), tokens);
    PrefixOf(b[0], Flatten(b[1..]), tokens);
    var rest := a[1..];
    assert |Flatten(rest)| == |tokens| - n > 0;
    assert rest != [];
    assert rest[0] == a[1] && a[1] != [];
    FlattenCons(rest);
    var next := a[1][0];
    assert tokens[n] == next;
    TakeSnoc(tokens, n);
    assert b[0][..n + 1] == tokens[..n + 1];
    assert 2 <= n + 1 <= m;
  }

  lemma {:induction false} PrefixOf<T>(x: seq<T>, y: seq<T>, z: seq<T>)
    requires z == x + y
    ensures x == z[..|x|] && y == z[|x|..]
  {
  }

  /** What follows the first line of a greedy partition is a greedy partition
      of the remaining tokens. */
  lemma {:induction false} GreedyTail(tokens: seq<WordToken>, a: seq<seq<WordToken>>, fonts: Fonts, size: int, maxWidth: real)
    requires IsGreedyPartition(tokens, a, fonts, size, maxWidth) && a != []
    requires Flatten(a) == a[0] + Flatten(a[1..])
    ensures IsGreedyPartition(tokens[|a[0]|..], a[1..], fonts, size, maxWidth)
  {
    assert tokens[|a[0]|..] == Flatten(a[1..]);
    var t := a[1..];
    assert forall k :: 0 <= k < |t| ==> t[k] == a[k + 1];
  }

  /** The fill is characterised by the greedy property: a partition of the
      tokens is greedy exactly when it is the one the fill produces. */
  lemma {:induction false} GreedyCharacterisation(tokens: seq<WordToken>, lines: seq<seq<WordToken>>,
                               fonts: Fonts, size: int, maxWidth: real)
    ensures IsGreedyPartition(tokens, lines, fonts, size, maxWidth)
            <==> lines == TokenLines(tokens, fonts, size, maxWidth)
  {
    TokenLinesGreedy(tokens, fonts, size, maxWidth);
    if IsGreedyPartition(tokens, lines, fonts, size, maxWidth) {
      GreedyUnique(tokens, lines, TokenLines(tokens, fonts, size, maxWidth), fonts, size, maxWidth);
    }
  }

  /** `wrapTextWithBold`'s lines: none is empty, together they hold the
      tokens in order, there are no more lines than tokens, no tokens give no
      lines, and a line is wider than `maxWidth` only when it holds a single
      token. */
  lemma {:induction false} TokenLinesShape(tokens: seq<WordToken>, fonts: Fonts, size: int, maxWidth: real)
    ensures var lines := TokenLines(tokens, fonts, size, maxWidth);
            && (forall k :: 0 <= k < |lines| ==> lines[k] != [])
            && Flatten(lines) == tokens
            && |lines| <= |tokens|
            && (tokens == [] ==> lines == [])
            && (forall k :: 0 <= k < |lines| ==>
                  AccWidth(lines[k], fonts, size) <= maxWidth || |lines[k]| == 1)
  {
    var lines := TokenLines(tokens, fonts, size, maxWidth);
    TokenLinesGreedy(tokens, fonts, size, maxWidth);
    FlattenLength(lines);
    forall k | 0 <= k < |lines|
      ensures AccWidth(lines[k], fonts, size) <= maxWidth || |lines[k]| == 1
    {
      assert PrefixesFit(lines[k], fonts, size, maxWidth);
      assert lines[k][..|lines[k]|] == lines[k];
    }
  }

  /** Each wrapped line's runs spell its tokens joined with single spaces,
      adjacent runs differ in style, and no line is empty. */
  lemma {:induction false} WrapBoldLines(text: string, maxWidth: real, size: int, fonts: Fonts)
    ensures var lines := TokenLines(Tokenize(text), fonts, size, maxWidth);
            var segLines := WrapBold(text, maxWidth, size, fonts);
            && |segLines| == |lines| <= |Tokenize(text)|
            && forall k :: 0 <= k < |segLines| ==>
                 && segLines[k] != []
                 && Concat(SegTexts(segLines[k])) == JoinSp(Texts(lines[k]))
                 && (forall j :: 0 < j < |segLines[k]| ==> segLines[k][j - 1].bold != segLines[k][j].bold)
  {
    var lines := TokenLines(Tokenize(text), fonts, size, maxWidth);
    TokenLinesShape(Tokenize(text), fonts, size, maxWidth);
    forall k | 0 <= k < |lines|
      ensures Concat(SegTexts(Segs(lines[k]))) == JoinSp(Texts(lines[k]))
      ensures forall j :: 0 < j < |Segs(lines[k])| ==> Segs(lines[k])[j - 1].bold != Segs(lines[k])[j].bold
    {
      SegsText(lines[k]);
      SegsShape(lines[k]);
    }
  }
}
