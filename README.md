# Numbered card sheets: a Dafny model

This project models the two scripts of *Generador de imágenes numeradas en PDF*.
Both lay out copies of a card image in a `rows × columns` grid on printable
sheets and number the cards of a range `start..end`.

- `enumerar_version_sin_numeros.py` is the page generator.
  - `create_single_page_numbers` pastes one copy per cell, row by row. Each
    copy carries the zero-padded text `f"{n:0{zero_pad}d}"`. The page is saved
    as `page_{start:03d}_{end:03d}.png`.
  - `generate_pages_range` cuts the range into blocks of `rows * columns`
    numbers and makes one page per block.
  - `combine_page_pngs_to_pdf` globs `page_*.png`, sorts the names, and puts
    the images into one PDF. When nothing matches it does nothing.
- `enumerar.py` is the numbered-cards script. `create_numbered_cards` builds:
  - sheets of blank front copies;
  - the same number of back sheets, each copy showing `str(n)` centred and
    moved down by `y_offset`;
  - a PDF that alternates front and back sheets.

The model is organised in modules:

- `Wrappers`: the `Option` and `Result` types.
- `Decimal`: `str(n)` and the zero-padded format, with a parser as their
  partner.
- `StrOrder`: Python's string `<` and `sorted()` on names.
- `Grid`: cell geometry, and how the number range is cut into per-page blocks.
  Both scripts share it.
- `PageNumbering`: the page generator.
- `NumberedCards`: the cards script.

How the model stands for the source:

- The loops are methods with invariants.
  - The page, sheet and interleaving loops are each proved equal to a function
    that describes the saved result (`PageOf`, `PagesFor`, `SheetTiles`,
    `SheetsFor`, `Alternate`, `DeckOf`). The properties are lemmas about
    those functions.
  - The combiner is specified by what `sorted()` promises: a sorted
    permutation of the matching names, which `StrOrder.SortedUnique` shows is
    unique. Its image-loading loop is specified by the opener applied to each
    path in turn.
- An image is the position where it is pasted. A page or sheet is its size,
  its tiles and its file name.
- The size of the drawn text (`textbbox`) is the parameter
  `measure: string -> Box`.
- The folder listing is a parameter. Opening an image file is the parameter
  `open: string -> Image`.

## Model

| member | source | states |
|---|---|---|
| Decimal.Digits | enumerar.py:84 | `str(n)` of a non-negative number is a non-empty run of digits, with a leading '0' only for 0 |
| Decimal.Str | enumerar.py:84 | `str(n)`: a '-' for a negative number, then the digits of its magnitude; no `ensures`, its meaning is stated by `Digits` and `StrRoundTrip` |
| Decimal.FormatInt | enumerar_version_sin_numeros.py:66 | `f"{n:0{w}d}"`, with the sign counted toward the width; no `ensures`, its contract is `FormatIntShape` and `FormatIntRoundTrip` |
| Decimal.FormatIntShape | enumerar_version_sin_numeros.py:66 | the zero-padded label is `zero_pad` characters long, or as long as `str(n)` if that is longer; it is digits only, after a '-' for a negative number |
| Decimal.FormatIntRoundTrip | enumerar_version_sin_numeros.py:66 | every zero-padded label reads back as the number it shows, for every width and sign |
| Decimal.FormatIntInjective | enumerar_version_sin_numeros.py:66 | two different numbers never get the same label |
| Decimal.FormatIntWidth | enumerar_version_sin_numeros.py:94 | a number in `0 .. 10^w - 1` padded to `w >= 1` is exactly `w` digits worth that number (for `w = 3`: the numbers 0..999) |
| Decimal.StrRoundTrip | enumerar.py:84 | `str(n)` is the zero-width format and reads back as `n` |
| StrOrder.LexLess | enumerar_version_sin_numeros.py:129 | Python's `<` on `str`: code points compared left to right, a proper prefix first; no `ensures`, its order properties are `LexIrreflexive`, `LexAsymmetric`, `LexTransitive` and `LexTotal` |
| StrOrder.LexTotal | enumerar_version_sin_numeros.py:129 | two different names are always ordered one way or the other by Python's `<` |
| StrOrder.LexTransitive | enumerar_version_sin_numeros.py:129 | Python's `<` on strings is transitive |
| StrOrder.LexNumeralOrder | enumerar_version_sin_numeros.py:94 | on digit strings of equal length, text order is exactly numeric order (both directions) |
| StrOrder.SortStrings | enumerar_version_sin_numeros.py:129 | `sorted()` returns a non-decreasing list with the same elements and multiplicities |
| StrOrder.SortedUnique | enumerar_version_sin_numeros.py:129 | any two sorted permutations of one list are equal, so a sorted permutation is the one `sorted()` returns |
| Grid.PageWidth | enumerar_version_sin_numeros.py:29 | `columns * iw + (columns + 1) * spacing` (also `card_width`, enumerar.py:19); what it bounds is stated by `CellInsidePage` |
| Grid.PageHeight | enumerar_version_sin_numeros.py:30 | `rows * ih + (rows + 1) * spacing` (also `card_height`, enumerar.py:20); what it bounds is stated by `CellInsidePage` |
| Grid.CellX | enumerar_version_sin_numeros.py:59 | the left edge of cell `i`, column `i % columns` (also enumerar.py:47); placement stated by `CellInsidePage` and `CellsApart` |
| Grid.CellY | enumerar_version_sin_numeros.py:60 | the top edge of cell `i`, row `i // columns` (also enumerar.py:48); placement stated by `CellInsidePage` and `CellsApart` |
| Grid.CellInGrid | enumerar_version_sin_numeros.py:57-58 | for a slot `i < rows*columns`, `i // columns` is a row in range, `i % columns` a column in range, and `i == row*columns + col` |
| Grid.CellRowMajor | enumerar_version_sin_numeros.py:57-58 | each cell (row, col) is reached by exactly slot `row*columns + col`: the fill is row-major |
| Grid.CellInsidePage | enumerar_version_sin_numeros.py:29-30 | every cell of `page_w × page_h` lies inside the page with at least `spacing` pixels to every edge |
| Grid.CellsApart | enumerar_version_sin_numeros.py:57-60 | two different cells are at least `spacing` apart horizontally or vertically, so copies never overlap |
| Grid.FillCount | enumerar_version_sin_numeros.py:53-55 | the page loop pastes at most `rows*columns` copies, never past `end`, and stops early only when it passes `end` |
| Grid.Chunks | enumerar_version_sin_numeros.py:106-122 | the blocks `[n, min(n + per - 1, end)]` the loop visits; no `ensures`, its contract is `ChunksBounds`, `ChunksPartition`, `ChunkCount` and `ChunksCoverRange` |
| Grid.ChunksWithin | enumerar_version_sin_numeros.py:107-122 | the `while n <= end` loop exactly as written, for at most `fuel` rounds, with no guard on `per`; what it does is stated by `EmptyGridNeverFinishes` and `ChunksWithinAgrees` |
| Grid.EmptyGridNeverFinishes | enumerar_version_sin_numeros.py:106-108 | with `rows * columns == 0` and `start <= end`, the loop has not ended after any number of rounds |
| Grid.ChunksWithinAgrees | enumerar_version_sin_numeros.py:108-122 | with at least one cell, the loop ends within `end - start + 1` rounds and visits exactly the blocks of `Chunks` |
| Grid.ChunkAt | enumerar_version_sin_numeros.py:109-122 | block `j` is `[n + j*per, min(n + j*per + per - 1, end)]` |
| Grid.ChunksBounds | enumerar_version_sin_numeros.py:106-109 | every block lies within `start..end`, is non-empty and has at most `per_page` numbers |
| Grid.ChunkCount | enumerar_version_sin_numeros.py:106-122 | there are `ceil((end - start + 1) / per_page)` blocks, or none for an empty range |
| Grid.ChunksPartition | enumerar_version_sin_numeros.py:107-122 | the blocks start at `start`, end at `end`, each starts right after the previous one ends, and all but the last are full |
| Grid.ChunksIncreasing | enumerar_version_sin_numeros.py:107-122 | a later block holds only larger numbers |
| Grid.LastChunkSize | enumerar_version_sin_numeros.py:109 | the last block holds `(end - start + 1) % per_page` numbers, or `per_page` when that is 0 |
| Grid.ChunksCoverRange | enumerar_version_sin_numeros.py:107-122 | the blocks, read in order, list `start..end` exactly once each |
| PageNumbering.PageOf | enumerar_version_sin_numeros.py:52-92 | the page the function saves: `page_w × page_h`, copy `k` in cell `k` labelled `start + k`, while the page has room and `start + k <= end`; no `ensures`, stated by `PageStamp`, `StampInside` and `StampsApart` |
| PageNumbering.CreateSinglePageNumbers | enumerar_version_sin_numeros.py:29-94 | the loop builds the page `PageOf`: size from lines 29-30, copy `k` in cell `k` labelled `start + k`, the file name of line 94 |
| PageNumbering.PageFileName | enumerar_version_sin_numeros.py:94 | `f"page_{start:03d}_{end:03d}.png"`, the width-3 case of `PaddedPageFileName`; stated by `PageFileNamesDistinct`, `PageFileNameOrder` and `PageFileNameMatches` |
| PageNumbering.PaddedPageFileName | enumerar_version_sin_numeros.py:94 | the same name with both numbers padded to any width; its order is stated by `PaddedPageFileNameOrder` |
| PageNumbering.PageStamp | enumerar_version_sin_numeros.py:53-66 | copy `k` of a page exists only for `k < rows*columns` and `start + k <= end`, and sits in cell `k` showing `start + k` |
| PageNumbering.StampInside | enumerar_version_sin_numeros.py:57-66 | each copy lies inside the page, `spacing` from every edge, and its label reads back as a number of `start..end` |
| PageNumbering.StampsApart | enumerar_version_sin_numeros.py:57-60 | two copies of one page never overlap |
| PageNumbering.PagesFor | enumerar_version_sin_numeros.py:108-122 | one page per block, in block order; no `ensures`, stated by `PageCount`, `PagesFullButLast` and `PagesCoverRange` |
| PageNumbering.GeneratePagesRange | enumerar_version_sin_numeros.py:102-122 | the `while n <= end` loop makes one page per block, in order: `PagesFor(Chunks(start, end, rows*columns))` |
| PageNumbering.PageCount | enumerar_version_sin_numeros.py:106-122 | `ceil((end - start + 1) / (rows*columns))` pages are made |
| PageNumbering.PagesFullButLast | enumerar_version_sin_numeros.py:106-122 | every page is full except the last, which holds the remainder, or a full page when there is none |
| PageNumbering.PagesCoverRange | enumerar_version_sin_numeros.py:106-122 | across the pages the labels are `start..end` formatted, each once and in order; there are `end - start + 1` of them |
| PageNumbering.NoUnderscoreInNumber | enumerar_version_sin_numeros.py:94 | a formatted number never contains '_', so the '_' of the page name separates start from end |
| PageNumbering.PageFileNamesDistinct | enumerar_version_sin_numeros.py:94 | pages with different starts get different file names |
| PageNumbering.PaddedPageFileNameOrder | enumerar_version_sin_numeros.py:94 | when both starts fit in the padding width, names compare as strings exactly as their starts compare as numbers |
| PageNumbering.PageFileNameOrder | enumerar_version_sin_numeros.py:94 | for starts in 0..999, page names compare as strings exactly as their starts compare as numbers |
| PageNumbering.PageFileNameOrderPast999 | enumerar_version_sin_numeros.py:94 | past 999 the name order breaks: `page_1000_1008.png` sorts before `page_100_108.png` |
| PageNumbering.GlobMatch | enumerar_version_sin_numeros.py:129 | `glob(prefix + "*.png")` on one name: the prefix, anything, then ".png", with no leading '.' matched by the wildcard; its use is stated by `Matches` |
| PageNumbering.Matches | enumerar_version_sin_numeros.py:129 | the glob keeps exactly the listed names that match `prefix*.png`, and keeps a listing whose names all match |
| PageNumbering.PageFileNameMatches | enumerar_version_sin_numeros.py:129 | every page file name matches `page_*.png` |
| PageNumbering.OpenImages | enumerar_version_sin_numeros.py:134-137 | the loop yields one image per path, image `k` being path `k` opened, in path order |
| PageNumbering.CombinePagePngsToPdf | enumerar_version_sin_numeros.py:125-141 | `png_paths` is a sorted permutation of the matching names (`sorted()`'s result, by `SortedUnique`); no document exactly when nothing matches; otherwise page `k` is `png_paths[k]` opened |
| PageNumbering.PageFileNames | enumerar_version_sin_numeros.py:94 | the names the range saves, in saving order; stated by `PageFileNamesSorted` and `PagesOutOfOrderPast999` |
| PageNumbering.PaddedPageFileNames | enumerar_version_sin_numeros.py:94 | the same names padded to any width; stated by `PaddedPageFileNamesSorted` |
| PageNumbering.PageFilesMatch | enumerar_version_sin_numeros.py:129 | a folder that holds only the page files of a range is matched in full |
| PageNumbering.PageFileNamesSorted | enumerar_version_sin_numeros.py:129 | the names of a range within 0..999, in the order they are generated, are already sorted |
| PageNumbering.PaddedPageFileNamesSorted | enumerar_version_sin_numeros.py:129 | padded to a width that `end` fits in, the generated names are already sorted, for any range of non-negative numbers |
| PageNumbering.PagesOutOfOrderPast999 | enumerar_version_sin_numeros.py:94 | numbering 1..1008 on a 3×3 grid gives 112 pages; page 12 is `page_100_108.png`, page 112 is `page_1000_1008.png`, and the names as generated are not sorted |
| PageNumbering.CombinedDocumentFollowsPages | enumerar_version_sin_numeros.py:125-141 | for a folder holding the pages of one range within 0..999, the sorted paths, and so the pages of the document, are the pages in the order they were generated |
| NumberedCards.CentredLabel | enumerar.py:87-90 | `((img_width - w) // 2, (img_height - h) // 2 + y_offset)` for the measured text; no `ensures`, its centring is stated by `CentringBalanced` |
| NumberedCards.SheetFileName | enumerar.py:100 | `f"front_card_{n}.png"` (line 55) or `f"back_card_{n}.png"`; stated by `SheetFileNameRoundTrip` and `SheetFileNamesDistinct` |
| NumberedCards.SheetTiles | enumerar.py:71-97 | the copies of one sheet: copy `k` in cell `k` for card `first + k`, blank on the front, captioned `str(first + k)` on the back; no `ensures`, stated by `FillSheet`, `TileInside`, `TilesApart` and `BackMirrorsFront` |
| NumberedCards.FillSheet | enumerar.py:71-97 | the inner loop (and its front twin, lines 40-52) gives copy `k` in cell `k` for card `first + k`, until the sheet is full or `end` is passed; the counter moves on by the number of copies |
| NumberedCards.SheetsFor | enumerar.py:61-104 | one sheet per block, numbered from 1; no `ensures`, stated by `DeckShape`, `SheetsFullButLast`, `TilesTotal` and `BackLabelsCoverRange` |
| NumberedCards.BuildSheets | enumerar.py:61-104 | one `while current_number <= end` loop (and its front twin, lines 31-59): one sheet per block, numbered 1, 2, …, named `{side}_card_{n}.png` |
| NumberedCards.Alternate | enumerar.py:110-113 | front, back, front, back, … for as many pairs as the shorter list; no `ensures`, its meaning is `AlternateIndex` |
| NumberedCards.AlternateIndex | enumerar.py:109-113 | the alternated list has twice as many entries as the shorter list; entry `2k` is front `k` and entry `2k+1` is back `k` |
| NumberedCards.Interleave | enumerar.py:110-113 | the `zip` loop builds the alternated list |
| NumberedCards.CreateNumberedCards | enumerar.py:31-116 | fails exactly when the range is empty, where `intercalated_images[0]` has nothing to index; otherwise returns the front sheets, the back sheets and the alternated document |
| NumberedCards.DeckOf | enumerar.py:31-113 | the front sheets, the back sheets and their alternation; no `ensures`, stated by `DeckShape` |
| NumberedCards.DeckShape | enumerar.py:61-113 | each side gets `ceil(L / (rows*columns))` sheets and the document twice as many pages, with front `k+1` followed by back `k+1` |
| NumberedCards.SheetsFullButLast | enumerar.py:40-42 | every sheet is full except the last, which holds the remainder, or a full sheet when there is none |
| NumberedCards.TileInside | enumerar.py:19-20 | every copy lies inside its `card_width × card_height` sheet, `spacing` from every edge |
| NumberedCards.TilesApart | enumerar.py:45-48 | two copies on one sheet never overlap |
| NumberedCards.BackMirrorsFront | enumerar.py:61-63 | the counter restarts, so back sheet `j` has its copies in the same cells as front sheet `j`; front copies are blank, back copies numbered |
| NumberedCards.BackLabelsCoverRange | enumerar.py:84 | the back copies show `str(start)`, …, `str(end)`, each once and in order, each reading back as its number |
| NumberedCards.TilesTotal | enumerar.py:36-52 | each side holds exactly one copy per card of `start..end` |
| NumberedCards.CentringBalanced | enumerar.py:87-90 | the gaps left and right of the text differ by at most one pixel, as do those above and below before `y_offset`; the text starts inside the copy exactly when it fits |
| NumberedCards.SheetFileNameRoundTrip | enumerar.py:100 | a sheet file name (front or back, line 55 or 100) gives back its side and its number |
| NumberedCards.SheetFileNamesDistinct | enumerar.py:55 | no two saved sheets share a file name |

## Left out

- Pixel work is not modelled: opening, converting, copying, pasting, drawing text, the stroke, saving PNG and PDF files, and making folders. A page or sheet is its size, its copies' positions, its labels and its file name.
- Fonts and `textbbox` are not modelled. The text size is the `measure` parameter.
- The two label positions of `create_single_page_numbers` (lines 44-48 and 69-87) are not modelled. They come from float products of the relative positions, and from the font size.
- `print`, and the removal of old per-page PDFs (lines 144-149), are not modelled.
- `os.path.join(output_folder, …)` is not modelled: not for the saved page and sheet names (enumerar_version_sin_numeros.py:94, enumerar.py:55 and 100), and not for the glob pattern (line 129). Names are bare, and the listing holds bare names. A common folder prefix does not change the order (`StrOrder.LexCommonPrefix`).
- Glob metacharacters inside `pattern_prefix` are not modelled.
- The example calls at module level and under `__main__` are not modelled.
- The letter-size thumbnail of `enumerar.py` (lines 5-16) is not modelled. The tile size in `Layout` is the front image's size after any thumbnail. `Image.ANTIALIAS` and the division in that branch are not modelled either.
- The back image is pasted at its own size (line 82), while positions and centring use the front image's size. Copies carry only a position, so the back image's size is not modelled.
- A `spacing` negative enough to make the page width or height negative is not modelled as an error. Pillow's `Image.new` raises `ValueError` there (enumerar_version_sin_numeros.py:31, enumerar.py:38 and 69). The model returns a page or sheet with that negative size. Every geometry lemma requires `spacing >= 0`.
- `rows` and `columns` are `nat`. The model does not cover negative grid dimensions.
- `zero_pad` is a `nat`. A negative width is a format error in Python and is not modelled.
- PageNumbering.GeneratePagesRange: requires `rows*columns >= 1` unless the range is empty. Otherwise the Python loop never ends, because `n` never grows (see Findings).
- NumberedCards.BuildSheets: requires `rows*columns >= 1` unless the range is empty. Otherwise the Python loop never ends, because the counter never advances.
- NumberedCards.CreateNumberedCards: same requirement as BuildSheets, for the same reason.
- PageNumbering.PageFileNameOrder: holds only for starts in 0..999. `PageFileNameOrderPast999` shows that a four-digit start breaks the order.
- PageNumbering.CombinedDocumentFollowsPages: holds only for ranges within 0..999, for the same reason.

## Findings

| source | as written | input that shows it | evidently intended | confidence | as-written member | corrected member |
|---|---|---|---|---|---|---|
| enumerar_version_sin_numeros.py:94 | numbers padded to 3 digits, then the names sorted as strings (line 129) | `start=1`, `end=1008`, 3×3 grid: page 112 `page_1000_1008.png` sorts before page 12 `page_100_108.png` | the combined PDF lists the pages in numeric order, as the docstring at line 126 says | not executed; proved for this input | PageNumbering.PagesOutOfOrderPast999 | PageNumbering.PaddedPageFileNamesSorted |
| enumerar_version_sin_numeros.py:106-122 | `n += per_page` with `per_page = rows * columns`, no check that it is positive (the same at enumerar.py:36-59 and 67-104) | `rows=0`, `columns=3`, `start=1`, `end=1`: `n` stays 1 and the loop never ends | a grid of at least one cell, so the loop ends after at most `end - start + 1` rounds | not executed; proved for every fuel | Grid.EmptyGridNeverFinishes | Grid.ChunksWithinAgrees |
