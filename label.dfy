/** The sheet geometry, the label record and the per-language section
    headers of the label generator. Lengths are in PostScript points and are
    taken as exact reals. */
module Label {
  import opened Text

  /** A4 landscape. */
  const A4Width: real := 841.89
  const A4Height: real := 595.28

  const MmToPt: real := 2.83465
  /** One label is 36 mm wide and 70 mm high. */
  const LabelWidth: real := 36.0 * MmToPt
  const LabelHeight: real := 70.0 * MmToPt

  /** The grid: 8 columns by 3 rows, 24 labels to a sheet. */
  const Cols: nat := 8
  const Rows: nat := 3
  const PerPage: nat := Cols * Rows

  /** The grid is centred on the sheet. */
  const MarginX: real := (A4Width - Cols as real * LabelWidth) / 2.0
  const MarginY: real := (A4Height - Rows as real * LabelHeight) / 2.0

  /** The lower-left corner of the cell in `row` (0 at the top) and `col`
      (0 at the left): every cell lies on the sheet, inside the margins, and
      touches its right and lower neighbours without overlapping them. */
  function CellOrigin(row: nat, col: nat): (r: (real, real))
    requires row < Rows && col < Cols
    ensures 0.0 < MarginX <= r.0 && r.0 + LabelWidth <= A4Width - MarginX
    ensures 0.0 < MarginY <= r.1 && r.1 + LabelHeight <= A4Height - MarginY
    ensures row == 0 ==> r.1 + LabelHeight == A4Height - MarginY
    ensures row == Rows - 1 ==> r.1 == MarginY
  {
    Scaled(row, col);
    (MarginX + col as real * LabelWidth, A4Height - MarginY - (row + 1) as real * LabelHeight)
  }

  /** Neighbouring cells touch: the next column starts where this cell ends,
      and the next row ends where this cell starts. */
  lemma {:induction false} CellsAdjacent(row: nat, col: nat)
    requires row < Rows && col < Cols
    ensures col + 1 < Cols ==> CellOrigin(row, col + 1).0 == CellOrigin(row, col).0 + LabelWidth
    ensures row + 1 < Rows ==> CellOrigin(row + 1, col).1 + LabelHeight == CellOrigin(row, col).1
  {
    Scaled(row, col);
  }

  /** The cell offsets with the label size written out, so that they are
      linear in the row and the column. */
  lemma {:induction false} Scaled(row: nat, col: nat)
    ensures LabelWidth == 102.0474 && LabelHeight == 198.4255
    ensures MarginX == 12.7554 && MarginY == 0.00175
    ensures col as real * LabelWidth == col as real * 102.0474
    ensures (col + 1) as real * LabelWidth == (col + 1) as real * 102.0474
    ensures (row + 1) as real * LabelHeight == (row + 1) as real * 198.4255
    ensures (row + 2) as real * LabelHeight == (row + 2) as real * 198.4255
  {
  }

  /** `LabelData`: the product name, its ingredients (bold spans marked with
      `**`), the nutrition table, the optional storage note and the
      producer. */
  datatype LabelData = LabelData(
    nazev: string,
    slozeni: string,
    nutricniHodnoty: string,
    skladovani: Option<string>,
    vyrobce: string)

  /** `LabelRequest`: a label (the `label` field) and how many copies of it
      to print. */
  datatype LabelRequest = LabelRequest(data: LabelData, quantity: int)

  /** The storage note is printed only when it is present and not empty. */
  predicate HasStorage(l: LabelData) {
    l.skladovani.Some? && l.skladovani.value != ""
  }

  /** `LabelLanguage`. */
  datatype Language = Cs | Pl | Sk

  /** The three section headers: ingredients, nutrition, producer. */
  datatype Headers = Headers(slozeni: string, nutricniHodnoty: string, vyrobce: string)

  /** `labelHeaders[language]`: each header is a non-empty label ending in a
      colon, with no whitespace at either end and no `*`, so the tokenizer
      never takes part of it for bold markup. */
  function HeadersFor(language: Language): (h: Headers)
    ensures IsHeader(h.slozeni) && IsHeader(h.nutricniHodnoty) && IsHeader(h.vyrobce)
  {
    match language
    case Cs => CzechHeadersOk(); CzechHeaders
    case Pl => PolishHeadersOk(); PolishHeaders
    case Sk => SlovakHeadersOk(); SlovakHeaders
  }

  const CzechHeaders: Headers := Headers("Složení:", "Nutriční hodnoty (100g):", "Výrobce:")
  const PolishHeaders: Headers := Headers("Składniki:", "Wartości odżywcze (na 100 g):", "Producent:")
  const SlovakHeaders: Headers := Headers("Zloženie:", "Nutričné hodnoty (na 100g):", "Výrobca:")

  lemma {:induction false} CzechHeadersOk()
    ensures IsHeader(CzechHeaders.slozeni) && IsHeader(CzechHeaders.nutricniHodnoty) && IsHeader(CzechHeaders.vyrobce)
  {
  }

  lemma {:induction false} PolishHeadersOk()
    ensures IsHeader(PolishHeaders.slozeni) && IsHeader(PolishHeaders.nutricniHodnoty) && IsHeader(PolishHeaders.vyrobce)
  {
  }

  lemma {:induction false} SlovakHeadersOk()
    ensures IsHeader(SlovakHeaders.slozeni) && IsHeader(SlovakHeaders.nutricniHodnoty) && IsHeader(SlovakHeaders.vyrobce)
  {
  }

  predicate IsHeader(s: string) {
    && |s| > 1
    && s[|s| - 1] == ':'
    && !IsSpace(s[0])
    && !IsSpace(s[|s| - 2])
    && NoStar(s)
  }
}
