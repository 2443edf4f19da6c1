/** `wrapTextWithFont`: plain text split at whitespace, punctuation-only
    words glued to the word before them, then a greedy fill in which every
    candidate line is measured as a whole string in one face. */
module WrapFont {
  import opened Text

  // ---- the punctuation pass over the split words ----

  /** The words after the punctuation pass: a word made only of `.,;:!?`
      is appended to the word before it. */
  function MergeWords(ws: seq<string>): seq<string> {
    if ws == [] then []
    else
      var m := MergeWords(ws[..|ws| - 1]);
      var w := ws[|ws| - 1];
      if PunctOnly(w) && |m| > 0 then m[..|m| - 1] + [m[|m| - 1] + w] else m + [w]
  }

  /** The first loop of `wrapTextWithFont`. */
  method MergePunctuationWords(rawWords: seq<string>) returns (words: seq<string>)
    ensures words == MergeWords(rawWords)
  {
    words := [];
    for i := 0 to |rawWords|
      invariant words == MergeWords(rawWords[..i])
    {
      var word := rawWords[i];
      assert rawWords[..i + 1][..i] == rawWords[..i];
      if PunctOnly(word) && |words| > 0 {
        words := words[|words| - 1 := words[|words| - 1] + word];
        assert words == words[..|words| - 1] + [words[|words| - 1]];
      } else {
        words := words + [word];
      }
    }
    assert rawWords[..|rawWords|] == rawWords;
  }

  /** No word holds whitespace. */
  predicate AllNoSpace(ws: seq<string>) {
    forall k :: 0 <= k < |ws| ==> NoSpace(ws[k])
  }

  /** No word is empty. */
  predicate AllNonEmpty(ws: seq<string>) {
    forall k :: 0 <= k < |ws| ==> ws[k] != ""
  }

  /** The punctuation pass never adds words, and keeps them non-empty and
      free of whitespace when they were. */
  lemma {:induction false} MergeWordsClean(ws: seq<string>)
    ensures |MergeWords(ws)| <= |ws|
    ensures AllNoSpace(ws) ==> AllNoSpace(MergeWords(ws))
    ensures AllNonEmpty(ws) ==> AllNonEmpty(MergeWords(ws))
    decreases |ws|
  {
    if ws != [] {
      var n := |ws|;
      MergeWordsClean(ws[..n - 1]);
      LastSplit(ws);
      MergeCleanStep(ws[..n - 1], ws[n - 1]);
    }
  }

  lemma {:induction false} MergeCleanStep(init: seq<string>, w: string)
    requires |MergeWords(init)| <= |init|
    requires AllNoSpace(init) ==> AllNoSpace(MergeWords(init))
    requires AllNonEmpty(init) ==> AllNonEmpty(MergeWords(init))
    ensures |MergeWords(init + [w])| <= |init + [w]|
    ensures AllNoSpace(init + [w]) ==> AllNoSpace(MergeWords(init + [w]))
    ensures AllNonEmpty(init + [w]) ==> AllNonEmpty(MergeWords(init + [w]))
  {
    var ws := init + [w];
    var m := MergeWords(init);
    assert ws[..|ws| - 1] == init && ws[|ws| - 1] == w;
    assert AllNoSpace(ws) ==> AllNoSpace(init) && NoSpace(w) by {
      assert forall k :: 0 <= k < |init| ==> init[k] == ws[k];
    }
    assert AllNonEmpty(ws) ==> AllNonEmpty(init) && w != "" by {
      assert forall k :: 0 <= k < |init| ==> init[k] == ws[k];
    }
    if PunctOnly(w) && |m| > 0 {
      var u := m[|m| - 1];
      if AllNoSpace(ws) {
        NoSpaceAppend(u, w);
      }
      SnocAll(m[..|m| - 1], u + w, m);
    } else {
      SnocAll(m, w, m);
    }
  }

  /** What holds of every word of `m` but its last and of `x` holds of
      every word of `m[..|m| - 1] + [x]`, and likewise for `m + [x]`. */
  lemma {:induction false} SnocAll(head: seq<string>, x: string, m: seq<string>)
    requires head == m || (m != [] && head == m[..|m| - 1])
    ensures AllNoSpace(m) && NoSpace(x) ==> AllNoSpace(head + [x])
    ensures AllNonEmpty(m) && x != "" ==> AllNonEmpty(head + [x])
  {
    var r := head + [x];
    assert forall k :: 0 <= k < |head| ==> r[k] == m[k];
  }

  /** The punctuation pass loses no character and changes no order. */
  lemma {:induction false} MergeWordsText(ws: seq<string>)
    ensures Concat(MergeWords(ws)) == Concat(ws)
    decreases |ws|
  {
    if ws != [] {
      var n := |ws|;
      var init := ws[..n - 1];
      MergeWordsText(init);
      var m := MergeWords(init);
      var w := ws[n - 1];
      assert ws == init + [w];
      ConcatSnoc(init, w);
      if PunctOnly(w) && |m| > 0 {
        var u := m[|m| - 1];
        var head := m[..|m| - 1];
        assert MergeWords(ws) == head + [u + w];
        assert m == head + [u];
        ConcatSnoc(head, u);
        ConcatSnoc(head, u + w);
        AppendAssoc(Concat(head), u, w);
      } else {
        ConcatSnoc(m, w);
      }
    }
  }

  /** After the punctuation pass no word but the first is punctuation only,
      provided no word after the first is empty. */
  lemma {:induction false} MergeWordsNoLeadingPunct(ws: seq<string>)
    requires forall k :: 0 < k < |ws| ==> ws[k] != ""
    ensures forall k :: 1 <= k < |MergeWords(ws)| ==> !PunctOnly(MergeWords(ws)[k])
    decreases |ws|
  {
    if ws != [] {
      var n := |ws|;
      MergeWordsNoLeadingPunct(ws[..n - 1]);
      var m := MergeWords(ws[..n - 1]);
      var w := ws[n - 1];
      if PunctOnly(w) && |m| > 1 {
        var u := m[|m| - 1];
        MergedNonEmpty(ws[..n - 1]);
        assert !PunctOnly(u) && u != "";
        var i :| 0 <= i < |u| && !IsPunct(u[i]);
        assert (u + w)[i] == u[i];
      }
    }
  }

  /** A merged word past the first is never empty when no input word past the
      first is. */
  lemma {:induction false} MergedNonEmpty(ws: seq<string>)
    requires forall k :: 0 < k < |ws| ==> ws[k] != ""
    ensures forall k :: 1 <= k < |MergeWords(ws)| ==> MergeWords(ws)[k] != ""
    decreases |ws|
  {
    if ws != [] {
      MergedNonEmpty(ws[..|ws| - 1]);
    }
  }

  /** For the words `split(/\s+/)` yields — only the first and the last can
      be empty — only the first merged word can be punctuation only, so
      punctuation never opens a later line. */
  lemma {:induction false} SplitWordsNoLeadingPunct(text: string)
    ensures forall k :: 1 <= k < |MergeWords(SplitWs(text))| ==> !PunctOnly(MergeWords(SplitWs(text))[k])
  {
    var ws := SplitWs(text);
    var n := |ws|;
    SplitWsPieces(text);
    if ws[n - 1] == "" && n > 1 {
      var init := ws[..n - 1];
      assert ws == init + [""];
      MergeWordsNoLeadingPunct(init);
      assert !PunctOnly("");
      assert MergeWords(ws) == MergeWords(init) + [""];
    } else {
      MergeWordsNoLeadingPunct(ws);
    }
  }

  // ---- the greedy fill ----

  /** The fill loop's locals: the finished lines and `currentLine`. */
  datatype FillState = FillState(lines: seq<string>, current: string)

  /** One iteration of the fill loop. `currentLine` is tested for
      truthiness, so an empty current line counts as no line at all. */
  function FillStep(st: FillState, word: string, font: Face, size: int, maxWidth: real): FillState {
    var testLine := if st.current != "" then st.current + " " + word else word;
    if font(testLine, size) <= maxWidth then FillState(st.lines, testLine)
    else FillState(if st.current != "" then st.lines + [st.current] else st.lines, word)
  }

  /** The fill loop run over `words`. */
  function Fill(words: seq<string>, font: Face, size: int, maxWidth: real): FillState {
    if words == [] then FillState([], "")
    else FillStep(Fill(words[..|words| - 1], font, size, maxWidth), words[|words| - 1], font, size, maxWidth)
  }

  /** The lines once the last current line, if not empty, is pushed. */
  function Flush(st: FillState): seq<string> {
    if st.current != "" then st.lines + [st.current] else st.lines
  }

  /** The lines `wrapTextWithFont` returns for already merged words. */
  function FillLines(words: seq<string>, font: Face, size: int, maxWidth: real): seq<string> {
    Flush(Fill(words, font, size, maxWidth))
  }

  /** `wrapTextWithFont(text, maxWidth, size / 4, font)`. */
  function WrapFont(text: string, maxWidth: real, size: int, font: Face): seq<string> {
    FillLines(MergeWords(SplitWs(text)), font, size, maxWidth)
  }

  /** `wrapTextWithFont`: the punctuation pass, then the fill loop. */
  method WrapTextWithFont(text: string, maxWidth: real, size: int, font: Face) returns (lines: seq<string>)
    ensures lines == WrapFont(text, maxWidth, size, font)
  {
    var rawWords := SplitWs(text);
    var words := MergePunctuationWords(rawWords);
    lines := [];
    var currentLine := "";
    for i := 0 to |words|
      invariant FillState(lines, currentLine) == Fill(words[..i], font, size, maxWidth)
    {
      var word := words[i];
      assert words[..i + 1][..i] == words[..i];
      var testLine := if currentLine != "" then currentLine + " " + word else word;
      var testWidth := font(testLine, size);
      if testWidth <= maxWidth {
        currentLine := testLine;
      } else {
        if currentLine != "" {
          lines := lines + [currentLine];
        }
        currentLine := word;
      }
    }
    assert words[..|words|] == words;
    if currentLine != "" {
      lines := lines + [currentLine];
    }
  }

  /** What the fill loop keeps true: no finished line is empty, every line
      (finished or current) fits or is one of the words, and the lines are no
      more than the words consumed. */
  lemma {:induction false} FillInvariant(words: seq<string>, font: Face, size: int, maxWidth: real)
    ensures var st := Fill(words, font, size, maxWidth);
            && (forall k :: 0 <= k < |st.lines| ==> st.lines[k] != "")
            && (forall k :: 0 <= k < |st.lines| ==> font(st.lines[k], size) <= maxWidth || st.lines[k] in words)
            && (st.current == "" || font(st.current, size) <= maxWidth || st.current in words)
            && |st.lines| + (if st.current != "" then 1 else 0) <= |words|
    decreases |words|
  {
    if words != [] {
      var init := words[..|words| - 1];
      var w := words[|words| - 1];
      FillInvariant(init, font, size, maxWidth);
      assert forall x :: x in init ==> x in words;
      assert w in words;
    }
  }

  /** `wrapTextWithFont` never returns an empty line; each line measures at
      most `maxWidth` unless it is a single (merged) word; there are no more
      lines than words, and no words give no lines. */
  lemma {:induction false} FillLinesShape(words: seq<string>, font: Face, size: int, maxWidth: real)
    ensures var lines := FillLines(words, font, size, maxWidth);
            && (forall k :: 0 <= k < |lines| ==> lines[k] != "")
            && (forall k :: 0 <= k < |lines| ==> font(lines[k], size) <= maxWidth || lines[k] in words)
            && |lines| <= |words|
  {
    FillInvariant(words, font, size, maxWidth);
  }

  /** With no empty word, the fill only chooses where the line breaks go:
      joining the lines with single spaces gives the words joined with single
      spaces. */
  lemma {:induction false} FillJoin(words: seq<string>, font: Face, size: int, maxWidth: real)
    requires forall k :: 0 <= k < |words| ==> words[k] != ""
    ensures words != [] ==> Fill(words, font, size, maxWidth).current != ""
    ensures JoinSp(FillLines(words, font, size, maxWidth)) == JoinSp(words)
    decreases |words|
  {
    if words != [] {
      var n := |words|;
      var init := words[..n - 1];
      var w := words[n - 1];
      FillJoin(init, font, size, maxWidth);
      assert words == init + [w];
      var st := Fill(init, font, size, maxWidth);
      if init == [] {
        assert st == FillState([], "");
      } else {
        JoinSpSnoc(init, w);
        var line := st.lines + [st.current];
        assert JoinSp(line) == JoinSp(init);
        if font(st.current + " " + w, size) <= maxWidth {
          JoinGrow(st.lines, st.current, w);
        } else {
          JoinSpSnoc(line, w);
        }
      }
    }
  }

  /** Extending the last line by a word extends the joined text by that word. */
  lemma {:induction false} JoinGrow(lines: seq<string>, current: string, w: string)
    ensures JoinSp(lines + [current + " " + w]) == JoinSp(lines + [current]) + " " + w
  {
    assert (lines + [current + " " + w])[..|lines|] == lines;
    assert (lines + [current])[..|lines|] == lines;
    if lines != [] {
      AppendAssoc(JoinSp(lines) + " ", current + " ", w);
      AppendAssoc(JoinSp(lines) + " ", current, " ");
    }
  }

  /** For text that starts and ends with a non-space character, the wrapped
      lines joined with single spaces are the merged words joined with single
      spaces, and apart from whitespace they hold exactly the text's
      characters, in order. */
  lemma {:induction false} WrapFontKeepsText(text: string, maxWidth: real, size: int, font: Face)
    requires text != "" && !IsSpace(text[0]) && !IsSpace(text[|text| - 1])
    ensures JoinSp(WrapFont(text, maxWidth, size, font)) == JoinSp(MergeWords(SplitWs(text)))
    ensures RemoveSpaces(JoinSp(WrapFont(text, maxWidth, size, font))) == RemoveSpaces(text)
  {
    var words := MergeWords(SplitWs(text));
    SplitWordsClean(text);
    SplitWsPieces(text);
    FillJoin(words, font, size, maxWidth);
    RemoveSpacesJoin(words);
    MergeWordsText(SplitWs(text));
  }

  /** Text with no whitespace at either end splits into non-empty words. */
  lemma {:induction false} SplitWordsClean(text: string)
    requires text != "" && !IsSpace(text[0]) && !IsSpace(text[|text| - 1])
    ensures forall k :: 0 <= k < |MergeWords(SplitWs(text))| ==> MergeWords(SplitWs(text))[k] != ""
    ensures forall k :: 0 <= k < |MergeWords(SplitWs(text))| ==> NoSpace(MergeWords(SplitWs(text))[k])
  {
    var raw := SplitWs(text);
    SplitWsPieces(text);
    assert forall k :: 0 <= k < |raw| ==> raw[k] != "";
    MergeWordsClean(raw);
  }

  /** Empty text gives no lines. */
  lemma {:induction false} WrapFontEmpty(maxWidth: real, size: int, font: Face)
    ensures WrapFont("", maxWidth, size, font) == []
  {
    assert SplitWs("") == [""];
    assert MergeWords([""]) == [""];
    assert Fill([""], font, size, maxWidth).current == "";
  }
}
