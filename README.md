# Label layout engine of vsebezlepku-orders, in Dafny

This project models the layout core of `src/lib/pdf.ts`, the part of the shop's
order tool that turns product labels into printable A4 sheets of 8 × 3 stickers.
It covers:

- **Text** (`text.dfy`): the character classes the engine relies on (ECMAScript
  `\s`, the punctuation class `[.,;:!?]`), `split(/\s+/)` and `join(" ")`.
- **Label** (`label.dfy`): the sheet and grid constants, the label record and the
  per-language section headers `labelHeaders`.
- **Tokens** (`tokens.dfy`): the rich-text tokenizer `parseTextToWordTokens`,
  which turns a field with `**bold**` spans into word tokens. It also covers the
  older splitter `parseTextWithBold`, which the engine does not call. A
  `regex.exec` loop is modelled as a function over the remaining text: where
  nothing matches, the search moves on one character. The proofs include two
  round trips: tokens written back as markup come back unchanged, and the
  segments of the older splitter written back as markup give back the text.
- **Segments** (`segments.dfy`): `tokensToSegments` and `getSegmentedTextWidth`.
- **WrapFont** (`wrap_font.dfy`): `wrapTextWithFont`. Whitespace splitting is
  the function `Text.SplitWs`, as the source calls the built-in `split`;
  punctuation merging and the greedy line fill are each a method over a loop,
  proved against a specification function.
- **WrapBold** (`wrap_bold.dfy`): `wrapTextWithBold`. The greedy fill is proved
  against a fold. It is also characterised declaratively: it produces the one
  partition of the tokens into lines in which every line of two or more tokens
  fits (a single token wider than the line stays on a line of its own, over
  width, as in the source) and every break is forced.
- **Fitter** (`fitter.dfy`): `findOptimalFontSize` and `calculateSectionLines`.
- **Sheet** (`sheet.dfy`): the flattening and placement loops of
  `generateLabelsPDF`.

Modelling choices:

- **Font sizes** are counted in quarter points. The candidates 14, 13.75, …, 3
  pt are the integers 56 down to 12, so the search loop is an integer loop with
  the same candidates in the same order.
- **Fonts:** a face's `widthOfTextAtSize` is a function parameter of type
  `(string, int) -> real`. Nothing is required of it, so every property holds
  for any font metrics.
- **Lengths** are exact reals.
- **Integers:** the request quantity and the start position are unbounded
  integers.

## Model

| member | source | states |
|---|---|---|
| Text.SplitWs | src/lib/pdf.ts:118 | `split(/\s+/)` always yields at least one piece |
| Text.SplitWsPieces | src/lib/pdf.ts:118 | the pieces hold no whitespace; only the first and last may be empty, each exactly when the text starts or ends with whitespace (or is empty); a single piece only for text without whitespace; together the pieces hold exactly the non-space characters, in order; joined by single spaces they give the text with every whitespace run collapsed to one space |
| Text.PiecesUnique | src/lib/pdf.ts:118 | that characterisation fixes the cut: two lists of pieces that both satisfy it for the same text are equal |
| Text.PiecesDetermineSplit | src/lib/pdf.ts:118 | any list of pieces satisfying the characterisation is exactly what `split(/\s+/)` returns |
| Text.JoinSpInjective | src/lib/pdf.ts:118 | `join(" ")` is injective on words without whitespace, so the split is determined by its characterisation |
| Text.SplitJoin | src/lib/pdf.ts:118-134 | `split(/\s+/)` undoes joining with single spaces, as a line joins its words, on words without whitespace of which only the first and last may be empty |
| Text.SplitWsStep | src/lib/pdf.ts:118 | one more character keeps the split's characterisation |
| Label.Scaled | src/lib/pdf.ts:24-36 | a label is 102.0474 × 198.4255 pt and the centring margins are 12.7554 pt and 0.00175 pt |
| Label.CellOrigin | src/lib/pdf.ts:643-644 | every cell lies on the A4 sheet inside the margins; the top row touches the top margin and the bottom row the bottom margin |
| Label.CellsAdjacent | src/lib/pdf.ts:643-644 | neighbouring cells touch: the next column starts where a cell ends, the next row ends where it starts |
| Label.HeadersFor | src/lib/pdf.ts:54-74 | every language's three headers are non-empty, end in a colon, have no whitespace next to either end and contain no `*` |
| Label.CzechHeadersOk | src/lib/pdf.ts:59-63 | the Czech headers are well-formed headers |
| Label.PolishHeadersOk | src/lib/pdf.ts:64-68 | the Polish headers are well-formed headers |
| Label.SlovakHeadersOk | src/lib/pdf.ts:69-73 | the Slovak headers are well-formed headers |
| Tokens.StarFreeLen | src/lib/pdf.ts:158 | `[^*]+` consumes the longest prefix without `*`: it stops at the first `*` or the end |
| Tokens.WordLen | src/lib/pdf.ts:158 | `[^*\s]+` consumes the longest prefix of word characters |
| Tokens.BoldSpanAt | src/lib/pdf.ts:158 | a bold span is longer than its four markers and lies within the text |
| Tokens.BoldSpanShape | src/lib/pdf.ts:158 | a bold span is `**`, a run without `*`, `**`; where `**` opens the text and no span is found, the run is empty, unclosed or closed by a single `*` |
| Tokens.MatchAt | src/lib/pdf.ts:158 | a match always consumes at least one character |
| Tokens.MatchAtShape | src/lib/pdf.ts:158-168 | a match yields a well-formed token; it is bold exactly when a bold span opens the text; a bold match covers its markup and a plain one a maximal run of word characters; with no match, the text opens with `*` or whitespace |
| Tokens.ScanWellFormed | src/lib/pdf.ts:161-169 | every token the `exec` loop collects is non-empty, has no `*`, and has no whitespace unless bold |
| Tokens.CollectMatches | src/lib/pdf.ts:161-169 | the `exec` loop collects exactly the left-to-right matches |
| Tokens.ExecAt | src/lib/pdf.ts:161-169 | one `exec` step advances the search and keeps collected-plus-remaining equal to all matches |
| Tokens.ScanFrom | src/lib/pdf.ts:161-169 | a match at the search position contributes its token, and the search resumes after it |
| Tokens.ScanSkip | src/lib/pdf.ts:161-169 | with no match at the search position the search moves on by one character |
| Tokens.ScanStep | src/lib/pdf.ts:161-169 | a match at the start of the text is the first token, and the rest is scanned after it |
| Tokens.ScanAfterSpace | src/lib/pdf.ts:158 | leading whitespace yields no token |
| Tokens.MergePunctuation | src/lib/pdf.ts:172-179 | the merge loop computes the punctuation pass |
| Tokens.ParseTextToWordTokens | src/lib/pdf.ts:156-182 | the result is the tokenizer's function of the text; every token is well-formed; no token after the first is punctuation only; the merge keeps the collected text, character for character |
| Tokens.MergeKeepsWellFormed | src/lib/pdf.ts:172-179 | the punctuation pass never adds tokens and keeps every token well-formed |
| Tokens.PunctClean | src/lib/pdf.ts:174 | text matching `/^[.,;:!?]+$/` holds neither `*` nor whitespace |
| Tokens.MergeLeavesNoLeadingPunct | src/lib/pdf.ts:172-179 | after the pass, tokens stay non-empty and none after the first is punctuation only |
| Tokens.MergeKeepsText | src/lib/pdf.ts:172-179 | the pass loses no character and changes no order |
| Tokens.MergeKeepsFlags | src/lib/pdf.ts:172-179 | the merged tokens are, one for one, the first token and every later token that is not punctuation only, each with its own bold flag and its own text at the front: punctuation joins the token before it, which keeps its flag |
| Tokens.MergeIdentity | src/lib/pdf.ts:172-179 | tokens with no bare punctuation after the first pass through unchanged |
| Tokens.MatchEncoded | src/lib/pdf.ts:158 | a well-formed token's markup, followed by whitespace or the end, is matched as exactly that token |
| Tokens.MatchBold | src/lib/pdf.ts:158 | `**text**` is matched as the bold token `text` |
| Tokens.MatchPlain | src/lib/pdf.ts:158 | a plain word followed by whitespace or the end is matched whole |
| Tokens.ScanRender | src/lib/pdf.ts:161-169 | scanning well-formed tokens written as markup with single spaces gives the tokens back |
| Tokens.TokenizeRender | src/lib/pdf.ts:156-182 | round trip of `parseTextToWordTokens`: well-formed tokens, none after the first bare punctuation, come back unchanged from their markup, bold flags included |
| Tokens.ScanWithoutSpans | src/lib/pdf.ts:158-169 | where no `**…**` span matches anywhere, stray and unpaired asterisks are dropped: no token is bold, and the tokens hold exactly the characters other than `*` and whitespace, in order |
| Tokens.NoPairNoSpan | src/lib/pdf.ts:158-169 | text in which no two `*` are adjacent has no bold span anywhere |
| Tokens.ScanSplitsAtSpace | src/lib/pdf.ts:158-169 | text without `*` before whitespace tokenizes separately from what follows, so a section header cannot change how its field is read |
| Tokens.SpanAt | src/lib/pdf.ts:85 | a span found at a position is longer than its markers and ends within the text |
| Tokens.SpanAtAgrees | src/lib/pdf.ts:85 | the span test at an absolute position agrees with the pattern tried on the suffix |
| Tokens.FindBold | src/lib/pdf.ts:85-89 | `exec` from `lastIndex` reports a span at or after it, within the text |
| Tokens.FindBoldSpan | src/lib/pdf.ts:85-89 | the reported span is really there |
| Tokens.FindBoldLeftmost | src/lib/pdf.ts:85-89 | the reported span is the leftmost one, and when none is reported there is none |
| Tokens.SpanShape | src/lib/pdf.ts:85 | a reported span is `**`, a run without `*`, `**` |
| Tokens.BoldSplitStep | src/lib/pdf.ts:89-97 | one iteration emits the plain text before the span (if any), then the span's inside as bold, and resumes after the span |
| Tokens.BoldSplitRoundTrip | src/lib/pdf.ts:83-103 | the segments of `parseTextWithBold`, with bold ones re-wrapped in `**`, give back the text |
| Tokens.BoldSplitSegments | src/lib/pdf.ts:83-103 | no segment is empty and no bold segment holds `*` |
| Tokens.ParseTextWithBold | src/lib/pdf.ts:83-103 | the loop computes the splitter's function of the text |
| Tokens.PushSpan | src/lib/pdf.ts:91-95 | the plain text before a match is pushed only when non-empty, then the bold inside |
| Tokens.FinalPart | src/lib/pdf.ts:99-101 | after the last match the rest of the text is a final plain segment, if non-empty |
| Segments.Segs | src/lib/pdf.ts:221-241 | runs are no more than tokens, at least one for a non-empty line, and the last run has the last token's style |
| Segments.TokensToSegments | src/lib/pdf.ts:221-241 | the loop computes the run function |
| Segments.AddToken | src/lib/pdf.ts:229-236 | a token of the open run's style extends it, any other closes it and opens a new run |
| Segments.SegsSnoc | src/lib/pdf.ts:230-236 | one more token extends the last run with a space, or opens a run starting with the space |
| Segments.SegsShape | src/lib/pdf.ts:221-241 | adjacent runs differ in style, and every run after the first begins with a space |
| Segments.SegsText | src/lib/pdf.ts:221-241 | the runs hold exactly the tokens' texts joined with single spaces |
| Segments.SegsStyled | src/lib/pdf.ts:221-241 | against an independent per-token rendering: no character and no character's style changes |
| Segments.GetSegmentedTextWidth | src/lib/pdf.ts:106-112 | the loop sums each run's width in its own face |
| Segments.SegWidthAppend | src/lib/pdf.ts:106-112 | the width of two run lists in sequence is the sum of their widths |
| WrapFont.MergePunctuationWords | src/lib/pdf.ts:121-128 | the first loop computes the punctuation pass over the words |
| WrapFont.MergeWordsClean | src/lib/pdf.ts:121-128 | the pass never adds words, and keeps them non-empty and free of whitespace when they were |
| WrapFont.MergeWordsText | src/lib/pdf.ts:121-128 | the pass loses no character and changes no order |
| WrapFont.MergeWordsNoLeadingPunct | src/lib/pdf.ts:121-128 | after the pass no word but the first is punctuation only, given no empty words after the first |
| WrapFont.MergedNonEmpty | src/lib/pdf.ts:121-128 | the pass leaves no empty word after the first |
| WrapFont.SplitWordsNoLeadingPunct | src/lib/pdf.ts:118-128 | for any text, no merged word but the first is punctuation only |
| WrapFont.SplitWordsClean | src/lib/pdf.ts:118-128 | text without whitespace at either end gives non-empty words without whitespace |
| WrapFont.WrapTextWithFont | src/lib/pdf.ts:116-148 | the method computes the wrapper's function of the text |
| WrapFont.FillInvariant | src/lib/pdf.ts:133-144 | the fill keeps finished lines non-empty, each within the width or a single over-long word, and never has more lines than words |
| WrapFont.FillLinesShape | src/lib/pdf.ts:130-147 | every line returned is non-empty and fits the width unless it is one over-long word; no more lines than words |
| WrapFont.FillJoin | src/lib/pdf.ts:130-147 | for non-empty words, the lines joined with spaces are the words joined with spaces |
| WrapFont.WrapFontKeepsText | src/lib/pdf.ts:116-148 | for text without whitespace at either end, the lines hold the merged words, and apart from whitespace exactly the text's characters, in order |
| WrapFont.WrapFontEmpty | src/lib/pdf.ts:116-148 | empty text gives no lines |
| WrapBold.AccSnoc | src/lib/pdf.ts:196-200 | adding a token grows the running width by its width, plus a space width unless the line was empty |
| WrapBold.AccWidthClosedForm | src/lib/pdf.ts:192-200 | the running width is the sum of token widths in their faces plus one space per gap |
| WrapBold.SegLines | src/lib/pdf.ts:204-214 | each finished line is converted to runs, line by line |
| WrapBold.WrapTextWithBold | src/lib/pdf.ts:185-218 | the method computes the wrapper's function of the text |
| WrapBold.FillStep | src/lib/pdf.ts:192-210 | one iteration keeps the line state, the running width and the converted lines in step with the fold |
| WrapBold.BreakSnoc | src/lib/pdf.ts:192-210 | the fold over one more token is one more step |
| WrapBold.BreakCovers | src/lib/pdf.ts:185-215 | finished lines are non-empty and, with the open line, hold the tokens in order |
| WrapBold.BreakFits | src/lib/pdf.ts:196-200 | every prefix of every line longer than one token fits the width |
| WrapBold.BreakMaximal | src/lib/pdf.ts:198-209 | every line break was forced: the next token did not fit |
| WrapBold.TokenLinesGreedy | src/lib/pdf.ts:185-218 | the lines are a greedy partition of the tokens |
| WrapBold.GreedyUnique | src/lib/pdf.ts:185-218 | any two greedy partitions of the same tokens are equal |
| WrapBold.GreedyCharacterisation | src/lib/pdf.ts:185-218 | a list of lines is a greedy partition of the tokens if and only if it is what the wrapper returns |
| WrapBold.TokenLinesShape | src/lib/pdf.ts:185-218 | lines are non-empty, hold the tokens in order, are no more than the tokens, none for no tokens, and each fits or is one token |
| WrapBold.WrapBoldLines | src/lib/pdf.ts:185-218 | one run list per token line, each non-empty, holding the line's texts joined with spaces, adjacent runs in different styles |
| Fitter.FitFromSpec | src/lib/pdf.ts:283-321 | the search returns the first fitting candidate, every larger one failing, or the minimum when none fits |
| Fitter.FindOptimalFontSize | src/lib/pdf.ts:272-322 | the size is in range; every larger candidate fails; it fits, or it is 3 pt and no candidate fits |
| Fitter.SearchStep | src/lib/pdf.ts:283 | a failed candidate extends the run of failures |
| Fitter.MeasureLabel | src/lib/pdf.ts:284-313 | one iteration's height: title, ingredients, nutrition, storage when present, producer, with the separator gaps |
| Fitter.FindOptimalAgrees | src/lib/pdf.ts:272-322 | the method's contract determines its result: it equals the search function |
| Fitter.FitFromMonotone | src/lib/pdf.ts:283-321 | more room never yields a smaller size |
| Fitter.OptimalSizeMonotone | src/lib/pdf.ts:272-322 | more available height never yields a smaller size |
| Fitter.SectionLines | src/lib/pdf.ts:244-269 | at least one line; one for no lines; the wrapped count, plus one exactly when the first line does not fit beside the bold prefix |
| Fitter.SectionLinesBound | src/lib/pdf.ts:244-269 | a section takes at most one line more than it has words |
| Sheet.Repeat | src/lib/pdf.ts:618-620 | the inner loop pushes the label `quantity` times |
| Sheet.FlattenLabels | src/lib/pdf.ts:615-621 | the loops build each request's label once per copy, in request order |
| Sheet.ExpandLength | src/lib/pdf.ts:615-623 | `totalLabels` is the sum of the copy counts |
| Sheet.ExpandOrder | src/lib/pdf.ts:615-621 | copy `c` of request `j` sits right after the copies of the requests before it |
| Sheet.BlocksContiguous | src/lib/pdf.ts:617-621 | each request's block starts where the previous one ends |
| Sheet.PagesFor | src/lib/pdf.ts:626 | `Math.ceil(n / 24)`: the least sheet count whose positions reach `n`, for any integer `n` |
| Sheet.Cell | src/lib/pdf.ts:635 | the cell of a position is within the grid and maps back to the position |
| Sheet.CellOfPosition | src/lib/pdf.ts:635 | positions and cells are inverse to each other |
| Sheet.Placements | src/lib/pdf.ts:628-649 | the labels in order at the positions from `max(0, startIndex)` on, as many as the sheets hold |
| Sheet.PlaceLabels | src/lib/pdf.ts:622-649 | the sheet loop adds `max(0, ceil((startIndex + total) / 24))` sheets and draws exactly the placements |
| Sheet.PlaceCell | src/lib/pdf.ts:635-646 | a cell takes the next label exactly when it is not before the start and labels remain |
| Sheet.DrawnStep | src/lib/pdf.ts:637-641 | one visited position draws one label or none, by the same two tests |
| Sheet.GenerateLabelsPdf | src/lib/pdf.ts:601-652 | as written: the sheet count from `startPosition - 1` and the placements of the flattened labels with the language's headers |
| Sheet.PlacementExact | src/lib/pdf.ts:622-649 | from a start index of 0 or more, every label is drawn exactly once, label `i` at position `startIndex + i`, and the last sheet is used |
| Sheet.PlacementsOnPages | src/lib/pdf.ts:626-649 | every draw lands on a sheet that was added |
| Sheet.PlacementsOrdered | src/lib/pdf.ts:635-641 | labels go to strictly increasing positions, none before the start |
| Sheet.PlacementsDistinctCells | src/lib/pdf.ts:635-646 | two labels never share a cell |
| Sheet.NonPositiveStartDropsLabels | src/lib/pdf.ts:624-626 | as written, when `startPosition - 1 + total <= 0`, no sheet is added and nothing is drawn |
| Sheet.ClearedStartDropsLabel | src/lib/pdf.ts:624-626 | as written, start position 0 with one label gives no sheet and the label is lost |
| Sheet.GenerateLabelsPdfClamped | src/lib/pdf.ts:624 | with the start index clamped at 0, every label is drawn exactly once, in order, on a sheet that was added |

## Left out

- `drawLabel` is left out: painting the text, separators and borders through
  pdf-lib, and its own line layout, which does not always agree with the height
  the size search predicts. The model keeps only which label is drawn in which
  cell, with which headers.
- `loadFonts`, embedding the fonts, `PDFDocument` and saving the document are
  left out. They are I/O; the two faces are parameters.
- **Font metrics** are not modelled: a face is any function from text and size
  to a width.
- **Floating point** is not modelled: lengths, widths and the size arithmetic
  are exact. Rounding in `size * 1.15` or in a width comparison can change
  results close to a boundary.
- The punctuation pass of the tokenizer is modelled on values. In the source,
  `merged[merged.length - 1].text += token.text` changes the token object that
  the `tokens` array also holds. Nothing reads that array afterwards, so no
  result changes.
- **Non-integer quantities and start positions** are not modelled: they are
  integers here. In JavaScript a fractional quantity runs the copy loop
  `ceil(quantity)` times, and a missing or NaN value stops the loop at once.
- The route handlers, the scrapers, the Gmail client, the page component, the
  userscript and the test script are not part of this model.
- Font sizes are counted in quarter points. The source
  steps a floating-point size by 0.25, which is exact in binary, so the
  candidates are the same.

## Findings

| source | as written | input that shows it | evidently intended | confidence | as-written member | corrected member |
|---|---|---|---|---|---|---|
| src/lib/pdf.ts:624-626 | `startIndex = startPosition - 1` is used unclamped. A start position of 0 or less makes `startIndex` negative, so the sheet count `ceil((startIndex + total) / 24)` comes out too small and labels are never drawn. The start field of the page has `min={1}`, but clearing it sends `Number("") == 0`. | one request with quantity 1, `startPosition` 0: zero sheets, the label is not drawn | the first label goes to position `max(0, startPosition - 1)` and every label is drawn exactly once | not executed | Sheet.ClearedStartDropsLabel | Sheet.GenerateLabelsPdfClamped |

`Sheet.GenerateLabelsPdf` models the code as written, and
`Sheet.NonPositiveStartDropsLabels` states the general case of the finding.
