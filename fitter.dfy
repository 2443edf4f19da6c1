/** `findOptimalFontSize` and `calculateSectionLines`: the predicted height
    of a label's text at a candidate size, and the search from 14 pt down to
    3 pt in quarter-point steps for the largest size whose text fits.

    Sizes are counted in quarter points (`q` stands for `q / 4` pt), so the
    candidates 14, 13.75, ..., 3 are the integers 56 down to 12. */
module Fitter {
  import opened Text
  import opened WrapFont
  import opened Segments
  import opened WrapBold
  import opened Label

  const MaxSize: int := 56
  const MinSize: int := 12

  /** The gap a separator line takes (2 pt before, 1 pt after). */
  const SeparatorHeight: real := 3.0

  /** `size * 1.15` for a size of `q` quarter points. */
  function LineHeight(q: int): real {
    q as real / 4.0 * 1.15
  }

  /** A block of `lines` lines. */
  function BlockHeight(lines: nat, lineHeight: real): real {
    lines as real * lineHeight
  }

  /** The title is set one point larger than the body. */
  function TitleSize(q: int): int {
    q + 4
  }

  /** The height the label's text would take at size `q`: the wrapped title
      (bold face, one point larger) with 2 pt padding, the ingredients, the
      nutrition table, the storage note when there is one, and the producer;
      every block but the last is followed by a separator gap. */
  function PredictedHeight(data: LabelData, contentWidth: real, fonts: Fonts, headers: Headers, q: int): real {
    var lineHeight := LineHeight(q);
    var titleLines := WrapFont.WrapFont(data.nazev, contentWidth, TitleSize(q), fonts.bold);
    var title := BlockHeight(|titleLines|, LineHeight(TitleSize(q))) + 2.0 + SeparatorHeight;
    var slozeniLines := WrapBold.WrapBold(headers.slozeni + " " + data.slozeni, contentWidth, q, fonts);
    var withSlozeni := title + (BlockHeight(|slozeniLines|, lineHeight) + SeparatorHeight);
    var nutriLines := WrapFont.WrapFont(headers.nutricniHodnoty + " " + data.nutricniHodnoty, contentWidth, q, fonts.regular);
    var withNutri := withSlozeni + (BlockHeight(|nutriLines|, lineHeight) + SeparatorHeight);
    var withInfo :=
      if HasStorage(data) then
        withNutri + (BlockHeight(|WrapFont.WrapFont(data.skladovani.value, contentWidth, q, fonts.regular)|, lineHeight) + SeparatorHeight)
      else withNutri;
    var vyrobceLines := WrapFont.WrapFont(headers.vyrobce + " " + data.vyrobce, contentWidth, q, fonts.regular);
    withInfo + BlockHeight(|vyrobceLines|, lineHeight)
  }

  /** The predicted heights of one label at every size. */
  function Heights(data: LabelData, contentWidth: real, fonts: Fonts, headers: Headers): int -> real {
    q => PredictedHeight(data, contentWidth, fonts, headers, q)
  }

  /** The size test, with 5 pt kept for the starting offset and a margin. */
  predicate Fits(height: int -> real, availableHeight: real, q: int) {
    height(q) + 5.0 <= availableHeight
  }

  /** The search from `q` downwards: the first candidate that fits, or the
      minimum when none does. */
  function FitFrom(height: int -> real, availableHeight: real, q: int): int
    decreases q
  {
    if q < MinSize then MinSize
    else if Fits(height, availableHeight, q) then q
    else FitFrom(height, availableHeight, q - 1)
  }

  /** The search from `q` returns a candidate no larger than `q` that fits,
      with every candidate between it and `q` failing; or, when no candidate
      from `q` down fits, the minimum. */
  lemma {:induction false} FitFromSpec(height: int -> real, availableHeight: real, q: int)
    requires q >= MinSize - 1
    ensures var r := FitFrom(height, availableHeight, q);
            && MinSize <= r
            && (q >= MinSize ==> r <= q)
            && (forall p :: r < p <= q ==> !Fits(height, availableHeight, p))
            && (Fits(height, availableHeight, r)
                || (r == MinSize && forall p :: MinSize <= p <= q ==> !Fits(height, availableHeight, p)))
    decreases q
  {
    if q >= MinSize && !Fits(height, availableHeight, q) {
      FitFromSpec(height, availableHeight, q - 1);
    }
  }

  /** `findOptimalFontSize`, in quarter points: the largest candidate whose
      text fits, every larger candidate failing, or the minimum when none
      fits. */
  method FindOptimalFontSize(data: LabelData, contentWidth: real, availableHeight: real, fonts: Fonts, headers: Headers)
    returns (size: int)
    ensures MinSize <= size <= MaxSize
    ensures forall p :: size < p <= MaxSize ==> !Fits(Heights(data, contentWidth, fonts, headers), availableHeight, p)
    ensures Fits(Heights(data, contentWidth, fonts, headers), availableHeight, size)
            || (size == MinSize
                && forall p :: MinSize <= p <= MaxSize ==> !Fits(Heights(data, contentWidth, fonts, headers), availableHeight, p))
  {
    ghost var height := Heights(data, contentWidth, fonts, headers);
    size := MaxSize;
    while size >= MinSize
      invariant MinSize - 1 <= size <= MaxSize
      invariant forall p :: size < p <= MaxSize ==> !Fits(height, availableHeight, p)
    {
      var totalHeight := MeasureLabel(data, contentWidth, fonts, headers, size);
      assert height(size) == totalHeight;
      if totalHeight + 5.0 <= availableHeight {
        return;
      }
      SearchStep(height, availableHeight, size);
      size := size - 1;
    }
    return MinSize;
  }

  /** A failed candidate extends the run of failures down to it. */
  lemma {:induction false} SearchStep(height: int -> real, availableHeight: real, size: int)
    requires forall p :: size < p <= MaxSize ==> !Fits(height, availableHeight, p)
    requires !Fits(height, availableHeight, size)
    ensures forall p :: size - 1 < p <= MaxSize ==> !Fits(height, availableHeight, p)
  {
  }

  /** One iteration's measurement: the body of the search loop up to the
      size test, wrapping every block with the line-wrapping routines. */
  method MeasureLabel(data: LabelData, contentWidth: real, fonts: Fonts, headers: Headers, size: int)
    returns (totalHeight: real)
    ensures totalHeight == PredictedHeight(data, contentWidth, fonts, headers, size)
  {
    var lineHeight := LineHeight(size);
    var titleSize := TitleSize(size);
    var titleLineHeight := LineHeight(titleSize);
    var titleLines := WrapTextWithFont(data.nazev, contentWidth, titleSize, fonts.bold);
    totalHeight := BlockHeight(|titleLines|, titleLineHeight) + 2.0 + SeparatorHeight;
    var slozeniLines := WrapTextWithBold(headers.slozeni + " " + data.slozeni, contentWidth, size, fonts);
    totalHeight := totalHeight + (BlockHeight(|slozeniLines|, lineHeight) + SeparatorHeight);
    var nutriLines := WrapTextWithFont(headers.nutricniHodnoty + " " + data.nutricniHodnoty, contentWidth, size, fonts.regular);
    totalHeight := totalHeight + (BlockHeight(|nutriLines|, lineHeight) + SeparatorHeight);
    if HasStorage(data) {
      var infoLines := WrapTextWithFont(data.skladovani.value, contentWidth, size, fonts.regular);
      totalHeight := totalHeight + (BlockHeight(|infoLines|, lineHeight) + SeparatorHeight);
    }
    var vyrobceLines := WrapTextWithFont(headers.vyrobce + " " + data.vyrobce, contentWidth, size, fonts.regular);
    totalHeight := totalHeight + BlockHeight(|vyrobceLines|, lineHeight);
  }

  /** The chosen size as a function: the search from the largest candidate. */
  function OptimalSize(height: int -> real, availableHeight: real): int {
    FitFrom(height, availableHeight, MaxSize)
  }

  /** The search's contract pins its result down: a size meeting it is the
      search function's size. */
  lemma {:induction false} FindOptimalAgrees(height: int -> real, availableHeight: real, size: int)
    requires MinSize <= size <= MaxSize
    requires forall p :: size < p <= MaxSize ==> !Fits(height, availableHeight, p)
    requires Fits(height, availableHeight, size)
             || (size == MinSize && forall p :: MinSize <= p <= MaxSize ==> !Fits(height, availableHeight, p))
    ensures size == OptimalSize(height, availableHeight)
  {
    FitFromSpec(height, availableHeight, MaxSize);
  }

  /** More room never gives a smaller size. */
  lemma {:induction false} FitFromMonotone(height: int -> real, h1: real, h2: real, q: int)
    requires h1 <= h2
    ensures FitFrom(height, h1, q) <= FitFrom(height, h2, q)
    decreases q
  {
    if q >= MinSize && !Fits(height, h1, q) {
      if Fits(height, h2, q) {
        FitFromSpec(height, h1, q - 1);
      } else {
        FitFromMonotone(height, h1, h2, q - 1);
      }
    }
  }

  lemma {:induction false} OptimalSizeMonotone(height: int -> real, h1: real, h2: real)
    requires h1 <= h2
    ensures OptimalSize(height, h1) <= OptimalSize(height, h2)
  {
    FitFromMonotone(height, h1, h2, MaxSize);
  }

  // ---- calculateSectionLines ----

  /** `calculateSectionLines`: the lines a section takes when its bold
      `prefix` shares the first line with the text. */
  function SectionLines(prefix: string, text: string, maxWidth: real, q: int, fonts: Fonts): (r: nat)
    ensures r >= 1
    ensures var lines := WrapFont.WrapFont(text, maxWidth, q, fonts.regular);
            (lines == [] ==> r == 1)
            && (lines != [] ==> r == |lines| || r == |lines| + 1)
            && (lines != [] && r == |lines| + 1
                <==> lines != [] && fonts.regular(lines[0], q) > maxWidth - fonts.bold(prefix, q) - 2.0)
  {
    var firstLineWidth := maxWidth - fonts.bold(prefix, q) - 2.0;
    var allLines := WrapFont.WrapFont(text, maxWidth, q, fonts.regular);
    if |allLines| == 0 then 1
    else if fonts.regular(allLines[0], q) <= firstLineWidth then |allLines|
    else |WrapFont.WrapFont(text, maxWidth, q, fonts.regular)| + 1
  }

  /** A section takes at most one line more than it has words. */
  lemma {:induction false} SectionLinesBound(prefix: string, text: string, maxWidth: real, q: int, fonts: Fonts)
    ensures SectionLines(prefix, text, maxWidth, q, fonts) <= |MergeWords(SplitWs(text))| + 1
  {
    FillLinesShape(MergeWords(SplitWs(text)), fonts.regular, q, maxWidth);
  }
}
