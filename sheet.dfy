/** `generateLabelsPDF` without the drawing: the requests expanded into one
    label per copy, the number of sheets, and the grid cell each label is
    drawn in. A sheet holds 24 positions, numbered row by row from the top
    left; position `p` of the whole run is on sheet `p / 24`. */
module Sheet {
  import opened Label

  // ---- flattening the requests ----

  /** How many times `for (i = 0; i < quantity; i++)` runs for an integer
      quantity. */
  function Copies(quantity: int): nat {
    if quantity > 0 then quantity else 0
  }

  function Repeat(x: LabelData, n: nat): (r: seq<LabelData>)
    ensures |r| == n && forall i :: 0 <= i < n ==> r[i] == x
  {
    seq(n, _ => x)
  }

  /** The requests expanded: each request's label once per copy, requests in
      order. */
  function Expand(labels: seq<LabelRequest>): seq<LabelData> {
    if labels == [] then []
    else Expand(labels[..|labels| - 1]) + Repeat(labels[|labels| - 1].data, Copies(labels[|labels| - 1].quantity))
  }

  /** The sum of the requests' copy counts. */
  function TotalCopies(labels: seq<LabelRequest>): nat {
    if labels == [] then 0 else TotalCopies(labels[..|labels| - 1]) + Copies(labels[|labels| - 1].quantity)
  }

  /** The flattening loops of `generateLabelsPDF`. */
  method FlattenLabels(labels: seq<LabelRequest>) returns (allLabels: seq<LabelData>)
    ensures allLabels == Expand(labels)
  {
    allLabels := [];
    for j := 0 to |labels|
      invariant allLabels == Expand(labels[..j])
    {
      var req := labels[j];
      assert labels[..j + 1][..j] == labels[..j];
      var i := 0;
      while i < req.quantity
        invariant 0 <= i <= Copies(req.quantity)
        invariant allLabels == Expand(labels[..j]) + Repeat(req.data, i)
      {
        assert Repeat(req.data, i + 1) == Repeat(req.data, i) + [req.data];
        allLabels := allLabels + [req.data];
        i := i + 1;
      }
    }
    assert labels[..|labels|] == labels;
  }

  /** There is one label per copy. */
  lemma {:induction false} ExpandLength(labels: seq<LabelRequest>)
    ensures |Expand(labels)| == TotalCopies(labels)
    decreases |labels|
  {
    if labels != [] {
      ExpandLength(labels[..|labels| - 1]);
    }
  }

  /** The copies of request `j` sit together, in request order: they fill
      the positions from the copy count of the requests before it onwards. */
  lemma {:induction false} ExpandOrder(labels: seq<LabelRequest>, j: nat, c: nat)
    requires j < |labels| && c < Copies(labels[j].quantity)
    ensures TotalCopies(labels[..j]) + c < |Expand(labels)|
    ensures Expand(labels)[TotalCopies(labels[..j]) + c] == labels[j].data
    decreases |labels|
  {
    var n := |labels|;
    var init := labels[..n - 1];
    ExpandLength(init);
    ExpandLength(labels);
    if j < n - 1 {
      assert init[..j] == labels[..j];
      ExpandOrder(init, j, c);
    } else {
      assert init == labels[..j];
    }
  }

  /** Each request's block starts where the previous one ends. */
  lemma {:induction false} BlocksContiguous(labels: seq<LabelRequest>, j: nat)
    requires j < |labels|
    ensures TotalCopies(labels[..j + 1]) == TotalCopies(labels[..j]) + Copies(labels[j].quantity)
  {
    assert labels[..j + 1][..j] == labels[..j];
  }

  // ---- sheets and cells ----

  /** `Math.ceil(n / 24)` for an integer `n`: the least sheet count whose
      positions reach `n`. */
  function PagesFor(n: int): (r: int)
    ensures (r - 1) * PerPage < n <= r * PerPage
  {
    if n >= 0 then (n + PerPage - 1) / PerPage else -((-n) / PerPage)
  }

  /** A drawn label: the sheet, the grid row (0 at the top) and column, the
      label and the headers it is drawn with. */
  datatype Draw = Draw(page: nat, row: nat, col: nat, data: LabelData, headers: Headers)

  /** The cell of position `p`: the sheet, the row and the column. */
  function Cell(p: nat): (r: (nat, nat, nat))
    ensures r.1 < Rows && r.2 < Cols
    ensures r.0 * PerPage + r.1 * Cols + r.2 == p
  {
    (p / PerPage, (p % PerPage) / Cols, (p % PerPage) % Cols)
  }

  /** The position of a cell, as the placement loop computes it. */
  function Position(page: nat, row: nat, col: nat): nat {
    page * PerPage + row * Cols + col
  }

  /** Cells and positions are inverse to each other. */
  lemma {:induction false} CellOfPosition(page: nat, row: nat, col: nat)
    requires row < Rows && col < Cols
    ensures Cell(Position(page, row, col)) == (page, row, col)
  {
    var p := Position(page, row, col);
    var r := Cell(p);
    assert r.0 * 24 + (r.1 * 8 + r.2) == page * 24 + (row * 8 + col);
  }

  /** The label `data` drawn at position `p`. */
  function DrawAt(p: nat, data: LabelData, headers: Headers): Draw {
    Draw(Cell(p).0, Cell(p).1, Cell(p).2, data, headers)
  }

  /** How many labels the placement loop has drawn after visiting `visited`
      positions, when the first label goes to `first` and there are `total`
      labels. */
  function Drawn(visited: int, first: nat, total: nat): nat {
    if visited <= first then 0
    else if visited - first >= total then total
    else visited - first
  }

  /** The positions from `first` on, one label each, while labels last. */
  predicate PlacedFrom(draws: seq<Draw>, all: seq<LabelData>, first: nat, headers: Headers) {
    && |draws| <= |all|
    && forall i :: 0 <= i < |draws| ==> draws[i] == DrawAt(first + i, all[i], headers)
  }

  /** What the placement loops draw: over `pages` sheets, the labels in
      order at the positions from `max(0, startIndex)` on, as many as fit. */
  function Placements(all: seq<LabelData>, startIndex: int, pages: nat, headers: Headers): (r: seq<Draw>)
    ensures PlacedFrom(r, all, if startIndex > 0 then startIndex else 0, headers)
    ensures |r| == Drawn(pages * PerPage, if startIndex > 0 then startIndex else 0, |all|)
  {
    var first: nat := if startIndex > 0 then startIndex else 0;
    var count := Drawn(pages * PerPage, first, |all|);
    seq(count, i requires 0 <= i < count => DrawAt(first + i, all[i], headers))
  }

  /** The sheet loop of `generateLabelsPDF`: `pages` sheets added, and one
      draw per label placed. */
  method PlaceLabels(allLabels: seq<LabelData>, startIndex: int, headers: Headers)
    returns (pages: nat, draws: seq<Draw>)
    ensures pages == if PagesFor(startIndex + |allLabels|) > 0 then PagesFor(startIndex + |allLabels|) else 0
    ensures draws == Placements(allLabels, startIndex, pages, headers)
  {
    var first: nat := if startIndex > 0 then startIndex else 0;
    var totalPages := PagesFor(startIndex + |allLabels|);
    var labelIndex := 0;
    draws := [];
    pages := 0;
    var pageNum := 0;
    while pageNum < totalPages
      invariant pages == pageNum
      invariant pageNum <= (if totalPages > 0 then totalPages else 0)
      invariant labelIndex == Drawn(pageNum * PerPage, first, |allLabels|)
      invariant |draws| == labelIndex && PlacedFrom(draws, allLabels, first, headers)
    {
      pages := pages + 1;
      var row := 0;
      while row < Rows
        invariant row <= Rows
        invariant labelIndex == Drawn(pageNum * PerPage + row * Cols, first, |allLabels|)
        invariant |draws| == labelIndex && PlacedFrom(draws, allLabels, first, headers)
      {
        var col := 0;
        while col < Cols
          invariant col <= Cols
          invariant labelIndex == Drawn(Position(pageNum, row, col), first, |allLabels|)
          invariant |draws| == labelIndex && PlacedFrom(draws, allLabels, first, headers)
        {
          labelIndex, draws := PlaceCell(allLabels, startIndex, first, headers, pageNum, row, col, labelIndex, draws);
          col := col + 1;
        }
        row := row + 1;
      }
      pageNum := pageNum + 1;
    }
    PlacementsEqual(draws, allLabels, startIndex, pages, headers);
  }

  /** The body of the column loop: the cell at `row`, `col` of sheet
      `pageNum` takes the next label exactly when its position is not before
      the start and labels remain. */
  method PlaceCell(allLabels: seq<LabelData>, startIndex: int, first: nat, headers: Headers,
                   pageNum: nat, row: nat, col: nat, labelIndex: nat, draws: seq<Draw>)
    returns (labelIndex': nat, draws': seq<Draw>)
    requires first == if startIndex > 0 then startIndex else 0
    requires row < Rows && col < Cols
    requires labelIndex == Drawn(Position(pageNum, row, col), first, |allLabels|)
    requires |draws| == labelIndex && PlacedFrom(draws, allLabels, first, headers)
    ensures labelIndex' == Drawn(Position(pageNum, row, col + 1), first, |allLabels|)
    ensures |draws'| == labelIndex' && PlacedFrom(draws', allLabels, first, headers)
  {
    var position := pageNum * PerPage + row * Cols + col;
    assert Position(pageNum, row, col + 1) == position + 1;
    DrawnStep(position, first, |allLabels|, startIndex);
    if position < startIndex || labelIndex >= |allLabels| {
      // this position stays blank
      labelIndex', draws' := labelIndex, draws;
    } else {
      PlacedSnoc(draws, allLabels, first, headers, pageNum, row, col);
      var data := allLabels[labelIndex];
      draws' := draws + [Draw(pageNum, row, col, data, headers)];
      labelIndex' := labelIndex + 1;
    }
  }

  /** One visited position: it takes the next label exactly when it is not
      before the start and labels remain. */
  lemma {:induction false} DrawnStep(position: nat, first: nat, total: nat, startIndex: int)
    requires first == if startIndex > 0 then startIndex else 0
    ensures position < startIndex || Drawn(position, first, total) >= total
            ==> Drawn(position + 1, first, total) == Drawn(position, first, total)
    ensures !(position < startIndex || Drawn(position, first, total) >= total)
            ==> Drawn(position + 1, first, total) == Drawn(position, first, total) + 1
                && position == first + Drawn(position, first, total)
  {
  }

  /** Drawing the next label at the next position keeps the placement. */
  lemma {:induction false} PlacedSnoc(draws: seq<Draw>, all: seq<LabelData>, first: nat, headers: Headers, page: nat, row: nat, col: nat)
    requires PlacedFrom(draws, all, first, headers) && |draws| < |all|
    requires row < Rows && col < Cols && Position(page, row, col) == first + |draws|
    ensures PlacedFrom(draws + [Draw(page, row, col, all[|draws|], headers)], all, first, headers)
  {
    CellOfPosition(page, row, col);
  }

  lemma {:induction false} PlacementsEqual(draws: seq<Draw>, all: seq<LabelData>, startIndex: int, pages: nat, headers: Headers)
    requires |draws| == Drawn(pages * PerPage, if startIndex > 0 then startIndex else 0, |all|)
    requires PlacedFrom(draws, all, if startIndex > 0 then startIndex else 0, headers)
    ensures draws == Placements(all, startIndex, pages, headers)
  {
    var r := Placements(all, startIndex, pages, headers);
    assert |draws| == |r|;
    assert forall i :: 0 <= i < |r| ==> draws[i] == r[i];
  }

  /** `generateLabelsPDF`, as written: the first label goes to position
      `startPosition - 1`. */
  method GenerateLabelsPdf(labels: seq<LabelRequest>, startPosition: int, language: Language)
    returns (pages: nat, draws: seq<Draw>)
    ensures var total := TotalCopies(labels);
            pages == if PagesFor(startPosition - 1 + total) > 0 then PagesFor(startPosition - 1 + total) else 0
    ensures draws == Placements(Expand(labels), startPosition - 1, pages, HeadersFor(language))
  {
    var headers := HeadersFor(language);
    var allLabels := FlattenLabels(labels);
    ExpandLength(labels);
    var startIndex := startPosition - 1;
    pages, draws := PlaceLabels(allLabels, startIndex, headers);
  }

  // ---- what the placement guarantees ----

  /** From a start position of 1 or more, every label is drawn exactly once,
      label `i` at position `startPosition - 1 + i`, and the last sheet is
      not empty unless there are no labels at all. */
  lemma {:induction false} PlacementExact(all: seq<LabelData>, startIndex: int, headers: Headers)
    requires startIndex >= 0
    ensures var pages := PagesFor(startIndex + |all|);
            var draws := Placements(all, startIndex, pages, headers);
            && pages >= 0
            && |draws| == |all|
            && (forall i :: 0 <= i < |all| ==> draws[i] == DrawAt(startIndex + i, all[i], headers))
            && (|all| > 0 ==> (pages - 1) * PerPage < startIndex + |all|)
  {
  }

  /** Every draw lands on one of the sheets added. */
  lemma {:induction false} PlacementsOnPages(all: seq<LabelData>, startIndex: int, pages: nat, headers: Headers)
    ensures var draws := Placements(all, startIndex, pages, headers);
            forall i :: 0 <= i < |draws| ==> draws[i].page < pages
  {
    var draws := Placements(all, startIndex, pages, headers);
    var first: nat := if startIndex > 0 then startIndex else 0;
    forall i | 0 <= i < |draws|
      ensures draws[i].page < pages
    {
      assert draws[i] == DrawAt(first + i, all[i], headers);
      PageOf(first + i, pages);
    }
  }

  lemma {:induction false} PageOf(p: nat, pages: nat)
    requires p < pages * PerPage
    ensures Cell(p).0 < pages
  {
  }

  /** The position a draw went to. */
  function DrawPosition(d: Draw): nat {
    Position(d.page, d.row, d.col)
  }

  /** Placed labels go to increasing positions, none of them before the
      start, so no cell is used twice. */
  lemma {:induction false} PlacementsOrdered(all: seq<LabelData>, startIndex: int, pages: nat, headers: Headers)
    ensures var draws := Placements(all, startIndex, pages, headers);
            && (forall i :: 0 <= i < |draws| ==> DrawPosition(draws[i]) >= startIndex)
            && (forall i, j :: 0 <= i < j < |draws| ==> DrawPosition(draws[i]) < DrawPosition(draws[j]))
  {
    var draws := Placements(all, startIndex, pages, headers);
    var first: nat := if startIndex > 0 then startIndex else 0;
    forall i | 0 <= i < |draws|
      ensures DrawPosition(draws[i]) == first + i
    {
      var c := Cell(first + i);
      assert draws[i] == DrawAt(first + i, all[i], headers);
    }
  }

  /** The cells two different labels go to differ. */
  lemma {:induction false} PlacementsDistinctCells(all: seq<LabelData>, startIndex: int, pages: nat, headers: Headers, i: nat, j: nat)
    requires var draws := Placements(all, startIndex, pages, headers);
             i < j < |draws|
    ensures var draws := Placements(all, startIndex, pages, headers);
            (draws[i].page, draws[i].row, draws[i].col) != (draws[j].page, draws[j].row, draws[j].col)
  {
    PlacementsOrdered(all, startIndex, pages, headers);
  }

  // ---- the start position of 0 or less ----

  /** As written, a start position with `startPosition - 1 + total <= 0`
      gives no sheet and draws nothing, however many labels there are. */
  lemma {:induction false} NonPositiveStartDropsLabels(labels: seq<LabelRequest>, startPosition: int, headers: Headers)
    requires startPosition - 1 + TotalCopies(labels) <= 0
    ensures PagesFor(startPosition - 1 + TotalCopies(labels)) <= 0
    ensures Placements(Expand(labels), startPosition - 1, 0, headers) == []
  {
  }

  /** A cleared start field (`startPosition` 0) with one label of one copy:
      no sheet, and the label is never drawn. */
  lemma {:induction false} ClearedStartDropsLabel(data: LabelData, headers: Headers)
    ensures var labels := [LabelRequest(data, 1)];
            && TotalCopies(labels) == 1
            && PagesFor(0 - 1 + TotalCopies(labels)) == 0
            && Placements(Expand(labels), 0 - 1, 0, headers) == []
  {
    var labels := [LabelRequest(data, 1)];
    assert labels[..0] == [];
    NonPositiveStartDropsLabels(labels, 0, headers);
  }

  /** `generateLabelsPDF` with the start index clamped at 0, as the start
      field's minimum of 1 intends: every label is drawn exactly once, label
      `i` at position `max(0, startPosition - 1) + i`. */
  method GenerateLabelsPdfClamped(labels: seq<LabelRequest>, startPosition: int, language: Language)
    returns (pages: nat, draws: seq<Draw>)
    ensures |draws| == |Expand(labels)| == TotalCopies(labels)
    ensures var first := if startPosition > 1 then startPosition - 1 else 0;
            forall i :: 0 <= i < |draws| ==> draws[i] == DrawAt(first + i, Expand(labels)[i], HeadersFor(language))
    ensures forall i :: 0 <= i < |draws| ==> draws[i].page < pages
  {
    var headers := HeadersFor(language);
    var allLabels := FlattenLabels(labels);
    ExpandLength(labels);
    var startIndex := if startPosition - 1 > 0 then startPosition - 1 else 0;
    pages, draws := PlaceLabels(allLabels, startIndex, headers);
    PlacementExact(allLabels, startIndex, headers);
    PlacementsOnPages(allLabels, startIndex, pages, headers);
  }
}
