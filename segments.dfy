/** `tokensToSegments` and `getSegmentedTextWidth`: a line's word tokens
    collapsed into runs of one style, and the width of such a run list. */
module Segments {
  import opened Text
  import opened Tokens

  /** The two embedded faces, Noto Sans Regular and Noto Sans Bold. */
  datatype Fonts = Fonts(regular: Face, bold: Face)

  /** The face a token or segment with this bold flag is drawn in. */
  function FaceOf(fonts: Fonts, bold: bool): Face {
    if bold then fonts.bold else fonts.regular
  }

  /** `tokensToSegments` as a function: each token joins the last run when
      its bold flag matches, and otherwise opens a new run that starts with
      the separating space. */
  function Segs(ts: seq<WordToken>): (r: seq<TextSegment>)
    ensures |r| <= |ts| && (ts != [] ==> |r| > 0)
    ensures ts != [] ==> r[|r| - 1].bold == ts[|ts| - 1].bold
  {
    if |ts| == 0 then []
    else if |ts| == 1 then [TextSegment(ts[0].text, ts[0].bold)]
    else
      var s := Segs(ts[..|ts| - 1]);
      var t := ts[|ts| - 1];
      var last := s[|s| - 1];
      if t.bold == last.bold then s[..|s| - 1] + [TextSegment(last.text + " " + t.text, last.bold)]
      else s + [TextSegment(" " + t.text, t.bold)]
  }

  /** `tokensToSegments`. */
  method TokensToSegments(tokens: seq<WordToken>) returns (segments: seq<TextSegment>)
    ensures segments == Segs(tokens)
  {
    if |tokens| == 0 {
      return [];
    }
    segments := [];
    var currentText := tokens[0].text;
    var currentBold := tokens[0].bold;
    for i := 1 to |tokens|
      invariant Segs(tokens[..i]) == segments + [TextSegment(currentText, currentBold)]
    {
      TakeSnoc(tokens, i);
      segments, currentText, currentBold := AddToken(tokens[..i], tokens[i], segments, currentText, currentBold);
    }
    assert tokens[..|tokens|] == tokens;
    segments := segments + [TextSegment(currentText, currentBold)];
  }

  /** The loop body of `tokensToSegments`: a token of the open run's style
      extends it, any other closes it and opens a run with the space. */
  method AddToken(ghost done: seq<WordToken>, token: WordToken, segments: seq<TextSegment>,
                  currentText: string, currentBold: bool)
    returns (segments': seq<TextSegment>, currentText': string, currentBold': bool)
    requires done != [] && Segs(done) == segments + [TextSegment(currentText, currentBold)]
    ensures Segs(done + [token]) == segments' + [TextSegment(currentText', currentBold')]
  {
    SegsSnoc(done, token, segments, TextSegment(currentText, currentBold));
    if token.bold == currentBold {
      segments', currentText', currentBold' := segments, currentText + " " + token.text, currentBold;
    } else {
      segments' := segments + [TextSegment(currentText, currentBold)];
      currentText', currentBold' := " " + token.text, token.bold;
    }
  }

  /** One more token: it extends the last run or opens a new one. */
  lemma {:induction false} SegsSnoc(ts: seq<WordToken>, t: WordToken, head: seq<TextSegment>, last: TextSegment)
    requires ts != [] && Segs(ts) == head + [last]
    ensures t.bold == last.bold ==> Segs(ts + [t]) == head + [TextSegment(last.text + " " + t.text, last.bold)]
    ensures t.bold != last.bold ==> Segs(ts + [t]) == head + [last] + [TextSegment(" " + t.text, t.bold)]
  {
    assert (ts + [t])[..|ts|] == ts;
    var s := Segs(ts);
    assert s[..|s| - 1] == head && s[|s| - 1] == last;
  }

  /** The segments' texts, in order. */
  function SegTexts(segs: seq<TextSegment>): (r: seq<string>)
    ensures |r| == |segs| && forall k :: 0 <= k < |segs| ==> r[k] == segs[k].text
  {
    if segs == [] then [] else SegTexts(segs[..|segs| - 1]) + [segs[|segs| - 1].text]
  }

  /** Adjacent segments differ in style, and every segment after the first
      begins with a space. */
  predicate Shaped(segs: seq<TextSegment>) {
    && (forall k :: 0 < k < |segs| ==> segs[k - 1].bold != segs[k].bold)
    && (forall k :: 0 < k < |segs| ==> segs[k].text != "" && segs[k].text[0] == ' ')
  }

  /** Adjacent segments always differ in style, and every segment after the
      first begins with the space that separated its first token from the
      token before. */
  lemma {:induction false} SegsShape(ts: seq<WordToken>)
    ensures Shaped(Segs(ts))
    decreases |ts|
  {
    var n := |ts|;
    if n > 1 {
      var init := ts[..n - 1];
      SegsShape(init);
      LastSplit(ts);
      SegsShapeStep(init, ts[n - 1]);
    }
  }

  lemma {:induction false} SegsShapeStep(init: seq<WordToken>, t: WordToken)
    requires init != [] && Shaped(Segs(init))
    ensures Shaped(Segs(init + [t]))
  {
    var s := Segs(init);
    var head, last := s[..|s| - 1], s[|s| - 1];
    assert s == head + [last];
    assert (init + [t])[..|init|] == init;
    SegsSnoc(init, t, head, last);
    if t.bold == last.bold {
      ShapedExtend(head, last, t.text);
    } else {
      ShapedOpen(s, TextSegment(" " + t.text, t.bold));
    }
  }

  /** Extending the last segment keeps the shape. */
  lemma {:induction false} ShapedExtend(head: seq<TextSegment>, last: TextSegment, w: string)
    requires Shaped(head + [last])
    ensures Shaped(head + [TextSegment(last.text + " " + w, last.bold)])
  {
    var s, r := head + [last], head + [TextSegment(last.text + " " + w, last.bold)];
    assert forall k :: 0 <= k < |head| ==> r[k] == s[k];
    if |head| > 0 {
      assert r[|head|].text[0] == s[|head|].text[0];
    }
  }

  /** A segment of the other style that starts with a space keeps the shape. */
  lemma {:induction false} ShapedOpen(s: seq<TextSegment>, x: TextSegment)
    requires Shaped(s) && s != [] && x.bold != s[|s| - 1].bold && x.text != "" && x.text[0] == ' '
    ensures Shaped(s + [x])
  {
    var r := s + [x];
    assert forall k :: 0 <= k < |s| ==> r[k] == s[k];
  }

  /** The runs hold exactly the tokens' texts joined with single spaces. */
  lemma {:induction false} SegsText(ts: seq<WordToken>)
    ensures Concat(SegTexts(Segs(ts))) == JoinSp(Texts(ts))
    decreases |ts|
  {
    var n := |ts|;
    if n == 1 {
      SegTextsSnoc([], TextSegment(ts[0].text, ts[0].bold));
    } else if n > 1 {
      var init := ts[..n - 1];
      SegsText(init);
      LastSplit(ts);
      SegsTextStep(init, ts[n - 1]);
    }
  }

  lemma {:induction false} SegsTextStep(init: seq<WordToken>, t: WordToken)
    requires init != [] && Concat(SegTexts(Segs(init))) == JoinSp(Texts(init))
    ensures Concat(SegTexts(Segs(init + [t]))) == JoinSp(Texts(init + [t]))
  {
    var s := Segs(init);
    var head, last := s[..|s| - 1], s[|s| - 1];
    assert s == head + [last];
    SegsSnoc(init, t, head, last);
    assert (init + [t])[..|init|] == init;
    assert Texts(init + [t]) == Texts(init) + [t.text];
    JoinSpSnoc(Texts(init), t.text);
    if t.bold == last.bold {
      TextExtend(head, last, t.text);
    } else {
      TextOpen(s, t);
    }
  }

  lemma {:induction false} TextExtend(head: seq<TextSegment>, last: TextSegment, w: string)
    ensures Concat(SegTexts(head + [TextSegment(last.text + " " + w, last.bold)]))
            == Concat(SegTexts(head + [last])) + " " + w
  {
    SegTextsSnoc(head, last);
    SegTextsSnoc(head, TextSegment(last.text + " " + w, last.bold));
    Assoc4(Concat(SegTexts(head)), last.text, " ", w);
  }

  lemma {:induction false} TextOpen(s: seq<TextSegment>, t: WordToken)
    ensures Concat(SegTexts(s + [TextSegment(" " + t.text, t.bold)])) == Concat(SegTexts(s)) + " " + t.text
  {
    SegTextsSnoc(s, TextSegment(" " + t.text, t.bold));
    AppendAssoc(Concat(SegTexts(s)), " ", t.text);
  }

  lemma {:induction false} SegTextsSnoc(segs: seq<TextSegment>, x: TextSegment)
    ensures Concat(SegTexts(segs + [x])) == Concat(SegTexts(segs)) + x.text
  {
    assert (segs + [x])[..|segs|] == segs;
    assert SegTexts(segs + [x]) == SegTexts(segs) + [x.text];
    ConcatSnoc(SegTexts(segs), x.text);
  }

  /** One character as drawn: the character and whether the bold face draws it. */
  datatype StyledChar = StyledChar(c: char, bold: bool)

  /** `s` drawn in one style. */
  function Paint(s: string, bold: bool): (r: seq<StyledChar>)
    ensures |r| == |s| && forall i :: 0 <= i < |s| ==> r[i] == StyledChar(s[i], bold)
  {
    if s == "" then [] else Paint(s[..|s| - 1], bold) + [StyledChar(s[|s| - 1], bold)]
  }

  lemma {:induction false} PaintAppend(a: string, b: string, bold: bool)
    ensures Paint(a + b, bold) == Paint(a, bold) + Paint(b, bold)
  {
    var l, r := Paint(a + b, bold), Paint(a, bold) + Paint(b, bold);
    assert forall i :: 0 <= i < |l| ==> l[i] == r[i];
  }

  /** The segments as drawn, character by character. */
  function Styled(segs: seq<TextSegment>): seq<StyledChar> {
    if segs == [] then []
    else Styled(segs[..|segs| - 1]) + Paint(segs[|segs| - 1].text, segs[|segs| - 1].bold)
  }

  /** The reference rendering of a line of tokens: each token in its own
      style, with the space before a token in that token's style. */
  function StyledJoin(ts: seq<WordToken>): seq<StyledChar> {
    if |ts| == 0 then []
    else if |ts| == 1 then Paint(ts[0].text, ts[0].bold)
    else StyledJoin(ts[..|ts| - 1]) + Paint(" " + ts[|ts| - 1].text, ts[|ts| - 1].bold)
  }

  /** Collapsing into runs changes no character and no character's style. */
  lemma {:induction false} SegsStyled(ts: seq<WordToken>)
    ensures Styled(Segs(ts)) == StyledJoin(ts)
    decreases |ts|
  {
    var n := |ts|;
    if n == 1 {
      StyledSnoc([], TextSegment(ts[0].text, ts[0].bold));
    } else if n > 1 {
      var init := ts[..n - 1];
      SegsStyled(init);
      LastSplit(ts);
      SegsStyledStep(init, ts[n - 1]);
    }
  }

  lemma {:induction false} SegsStyledStep(init: seq<WordToken>, t: WordToken)
    requires init != [] && Styled(Segs(init)) == StyledJoin(init)
    ensures Styled(Segs(init + [t])) == StyledJoin(init + [t])
  {
    var s := Segs(init);
    var head, last := s[..|s| - 1], s[|s| - 1];
    assert s == head + [last];
    assert (init + [t])[..|init|] == init;
    SegsSnoc(init, t, head, last);
    if t.bold == last.bold {
      StyledExtend(head, last, t);
    } else {
      StyledSnoc(s, TextSegment(" " + t.text, t.bold));
    }
  }

  /** Extending the last run by a token of its own style paints the space
      and the token in that style. */
  lemma {:induction false} StyledExtend(head: seq<TextSegment>, last: TextSegment, t: WordToken)
    requires t.bold == last.bold
    ensures Styled(head + [TextSegment(last.text + " " + t.text, last.bold)])
            == Styled(head + [last]) + Paint(" " + t.text, t.bold)
  {
    var merged := TextSegment(last.text + " " + t.text, last.bold);
    StyledSnoc(head, merged);
    AppendAssoc(last.text, " ", t.text);
    PaintAppend(last.text, " " + t.text, t.bold);
    StyledSnoc(head, last);
    Reassociate(Styled(head + [merged]), Styled(head), Paint(last.text, last.bold),
                Paint(" " + t.text, t.bold), Styled(head + [last]));
  }

  lemma {:induction false} Reassociate<T>(x: seq<T>, a: seq<T>, p: seq<T>, t: seq<T>, y: seq<T>)
    requires x == a + (p + t) && y == a + p
    ensures x == y + t
  {
  }

  lemma {:induction false} StyledSnoc(segs: seq<TextSegment>, x: TextSegment)
    ensures Styled(segs + [x]) == Styled(segs) + Paint(x.text, x.bold)
  {
    assert (segs + [x])[..|segs|] == segs;
  }

  // ---- getSegmentedTextWidth ----

  /** The width of a run list: each run measured in its own face. */
  function SegWidth(segs: seq<TextSegment>, size: int, fonts: Fonts): real {
    if segs == [] then 0.0
    else SegWidth(segs[..|segs| - 1], size, fonts) + FaceOf(fonts, segs[|segs| - 1].bold)(segs[|segs| - 1].text, size)
  }

  /** `getSegmentedTextWidth`. */
  method GetSegmentedTextWidth(segments: seq<TextSegment>, size: int, fonts: Fonts) returns (totalWidth: real)
    ensures totalWidth == SegWidth(segments, size, fonts)
  {
    totalWidth := 0.0;
    for i := 0 to |segments|
      invariant totalWidth == SegWidth(segments[..i], size, fonts)
    {
      assert segments[..i + 1][..i] == segments[..i];
      var seg := segments[i];
      totalWidth := totalWidth + FaceOf(fonts, seg.bold)(seg.text, size);
    }
    assert segments[..|segments|] == segments;
  }

  /** The width of two run lists one after the other is the sum of their
      widths. */
  lemma {:induction false} SegWidthAppend(a: seq<TextSegment>, b: seq<TextSegment>, size: int, fonts: Fonts)
    ensures SegWidth(a + b, size, fonts) == SegWidth(a, size, fonts) + SegWidth(b, size, fonts)
    decreases |b|
  {
    if b == [] {
      assert a + b == a;
    } else {
      var n := |b|;
      assert (a + b)[..|a + b| - 1] == a + b[..n - 1];
      assert (a + b)[|a + b| - 1] == b[n - 1];
      SegWidthAppend(a, b[..n - 1], size, fonts);
    }
  }
}
