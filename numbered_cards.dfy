/** The numbered-cards script (`create_numbered_cards`): sheets of
    `rows × columns` copies of a front image, then the same number of sheets
    of copies of a back image each showing its number, centred and moved down
    by `yOffset`, and one document alternating front and back sheets.
    An image is its position on the sheet; the text size the font gives is the
    `measure` parameter, standing for `textbbox`. */
module NumberedCards {
  import opened Wrappers
  import opened Decimal
  import opened Grid

  datatype Side = Front | Back

  /** What `textbbox((0, 0), text)` returns: left, top, right, bottom. */
  datatype Box = Box(left: int, top: int, right: int, bottom: int)

  /** `text` drawn with its top-left corner at (x, y) inside a back copy. */
  datatype Label = Label(text: string, x: int, y: int)

  /** A copy of the front or back image pasted at (x, y) on a sheet; only back
      copies carry a number. */
  datatype Tile = Tile(x: int, y: int, side: Side, caption: Option<Label>)

  datatype Sheet = Sheet(fileName: string, width: int, height: int, tiles: seq<Tile>)

  /** The saved front sheets, the saved back sheets and the pages of the PDF. */
  datatype Deck = Deck(front: seq<Sheet>, back: seq<Sheet>, document: seq<Sheet>)

  /** `intercalated_images[0]` on an empty list. */
  datatype CardsError = EmptyDocument

  function SidePrefix(side: Side): string
  {
    if side == Front then "front_card_" else "back_card_"
  }

  /** `f"front_card_{card_count}.png"` and `f"back_card_{card_count}.png"`. */
  function SheetFileName(side: Side, number: int): string
  {
    SidePrefix(side) + Str(number) + ".png"
  }

  /** Where the text goes inside a copy: the image size minus the text size,
      halved with Python's floor division, then `yOffset` lower. */
  function CentredLabel(l: Layout, text: string, box: Box, yOffset: int): Label
  {
    var w, h := box.right - box.left, box.bottom - box.top;
    Label(text, (l.tileWidth - w) / 2, (l.tileHeight - h) / 2 + yOffset)
  }

  /** Copy `k` of a sheet, standing for the card numbered `n`. */
  function TileAt(side: Side, l: Layout, k: nat, n: int, yOffset: int, measure: string -> Box): Tile
    requires l.columns > 0
  {
    var caption := if side == Front then None else Some(CentredLabel(l, Str(n), measure(Str(n)), yOffset));
    Tile(CellX(l, k), CellY(l, k), side, caption)
  }

  /** The copies on a sheet whose first card is `first`, when the last card is `end`. */
  function SheetTiles(side: Side, l: Layout, first: int, end: int, yOffset: int, measure: string -> Box): seq<Tile>
  {
    var count := FillCount(first, end, Capacity(l));
    seq(count, k requires 0 <= k < count => TileAt(side, l, k, first + k, yOffset, measure))
  }

  /** The sheet numbered `number` holding the cards of block `c`. */
  function SheetOf(side: Side, l: Layout, c: Chunk, number: int, yOffset: int, measure: string -> Box): Sheet
  {
    Sheet(SheetFileName(side, number), PageWidth(l), PageHeight(l), SheetTiles(side, l, c.first, c.last, yOffset, measure))
  }

  /** One sheet per block, numbered on from `number`. */
  function SheetsFrom(side: Side, l: Layout, cs: seq<Chunk>, number: int, yOffset: int, measure: string -> Box): seq<Sheet>
  {
    seq(|cs|, j requires 0 <= j < |cs| => SheetOf(side, l, cs[j], number + j, yOffset, measure))
  }

  /** The sheets of one side for the cards `start..end`, numbered from 1. */
  function SheetsFor(side: Side, l: Layout, start: int, end: int, yOffset: int, measure: string -> Box): seq<Sheet>
    requires Capacity(l) >= 1 || end < start
  {
    SheetsFrom(side, l, Chunks(start, end, Capacity(l)), 1, yOffset, measure)
  }

  /** Copy `k` of a sheet sits in cell `k` and stands for card `first + k`. */
  lemma SheetTile(side: Side, l: Layout, first: int, last: int, yOffset: int, measure: string -> Box, k: nat)
    requires k < |SheetTiles(side, l, first, last, yOffset, measure)|
    ensures l.columns > 0 && k < Capacity(l) && first + k <= last
    ensures SheetTiles(side, l, first, last, yOffset, measure)[k] == TileAt(side, l, k, first + k, yOffset, measure)
  {
    CapacityPositive(l);
    assert k < FillCount(first, last, Capacity(l));
    assert l.columns > 0;
  }

  /** Stopping at `end` fills a sheet as far as stopping at the end of its block. */
  lemma SheetTilesClamp(side: Side, l: Layout, first: int, end: int, yOffset: int, measure: string -> Box)
    requires Capacity(l) >= 1
    ensures SheetTiles(side, l, first, end, yOffset, measure)
         == SheetTiles(side, l, first, Min(first + Capacity(l) - 1, end), yOffset, measure)
  {
    assert FillCount(first, end, Capacity(l)) == FillCount(first, Min(first + Capacity(l) - 1, end), Capacity(l));
  }

  /** One round of the sheet loop: the sheet filled from `current` is the one
      of the next block, and the counter it leaves behind starts the blocks
      after it. */
  lemma SheetStep(side: Side, l: Layout, cs: seq<Chunk>, i: nat, current: int, end: int, yOffset: int, measure: string -> Box)
    requires Capacity(l) >= 1 && current <= end && i <= |cs| && Chunks(current, end, Capacity(l)) == cs[i..]
    ensures i < |cs|
    ensures SheetTiles(side, l, current, end, yOffset, measure) == SheetTiles(side, l, cs[i].first, cs[i].last, yOffset, measure)
    ensures Chunks(current + |SheetTiles(side, l, current, end, yOffset, measure)|, end, Capacity(l)) == cs[i + 1..]
  {
    ChunkStep(cs, i, current, end, Capacity(l));
    SheetTilesClamp(side, l, current, end, yOffset, measure);
    var next := current + |SheetTiles(side, l, current, end, yOffset, measure)|;
    ChunksPastEnd(next, current + Capacity(l), end, Capacity(l));
  }

  lemma SheetsAppend(side: Side, l: Layout, cs: seq<Chunk>, sheets: seq<Sheet>, sheet: Sheet, yOffset: int, measure: string -> Box)
    requires |sheets| < |cs|
    requires forall j :: 0 <= j < |sheets| ==> sheets[j] == SheetOf(side, l, cs[j], 1 + j, yOffset, measure)
    requires sheet.fileName == SheetFileName(side, |sheets| + 1)
    requires sheet.width == PageWidth(l) && sheet.height == PageHeight(l)
    requires sheet.tiles == SheetTiles(side, l, cs[|sheets|].first, cs[|sheets|].last, yOffset, measure)
    ensures forall j :: 0 <= j < |sheets| + 1 ==> (sheets + [sheet])[j] == SheetOf(side, l, cs[j], 1 + j, yOffset, measure)
  {
  }

  /** Sheet `j` of a side holds block `j` and is numbered `j + 1`. */
  lemma SheetIndex(side: Side, l: Layout, start: int, end: int, yOffset: int, measure: string -> Box, j: nat)
    requires Capacity(l) >= 1 || end < start
    requires j < |SheetsFor(side, l, start, end, yOffset, measure)|
    ensures var c := Chunks(start, end, Capacity(l))[j];
      && 1 <= Size(c) <= Capacity(l)
      && SheetsFor(side, l, start, end, yOffset, measure)[j] == SheetOf(side, l, c, 1 + j, yOffset, measure)
  {
    ChunksBounds(start, end, Capacity(l));
  }

  lemma TilesAppend(side: Side, l: Layout, first: int, yOffset: int, measure: string -> Box, tiles: seq<Tile>, t: Tile)
    requires l.columns > 0
    requires forall k :: 0 <= k < |tiles| ==> tiles[k] == TileAt(side, l, k, first + k, yOffset, measure)
    requires t == TileAt(side, l, |tiles|, first + |tiles|, yOffset, measure)
    ensures forall k :: 0 <= k < |tiles| + 1 ==> (tiles + [t])[k] == TileAt(side, l, k, first + k, yOffset, measure)
  {
  }

  /** Copies that agree with a sheet's copies one by one are its copies. */
  lemma SheetTilesAre(side: Side, l: Layout, first: int, last: int, yOffset: int, measure: string -> Box, tiles: seq<Tile>)
    requires |tiles| == FillCount(first, last, Capacity(l))
    requires forall k :: 0 <= k < |tiles| ==> tiles[k] == TileAt(side, l, k, first + k, yOffset, measure)
    ensures tiles == SheetTiles(side, l, first, last, yOffset, measure)
  {
    var t := SheetTiles(side, l, first, last, yOffset, measure);
    forall k | 0 <= k < |tiles| ensures tiles[k] == t[k] {
      SheetTile(side, l, first, last, yOffset, measure, k);
    }
  }

  /** The inner `for i in range(rows * columns)` loop: pastes a copy per cell,
      row by row, until the sheet is full or the counter passes `end`, and
      returns the advanced counter. */
  method FillSheet(side: Side, l: Layout, first: int, end: int, yOffset: int, measure: string -> Box)
    returns (tiles: seq<Tile>, next: int)
    ensures tiles == SheetTiles(side, l, first, end, yOffset, measure)
    ensures next == first + |tiles|
  {
    tiles := [];
    next := first;
    var i := 0;
    CapacityPositive(l);
    while i < l.rows * l.columns
      invariant 0 <= i <= Capacity(l)
      invariant next == first + i
      invariant i == 0 || next - 1 <= end
      invariant |tiles| == i
      invariant forall k :: 0 <= k < i ==> tiles[k] == TileAt(side, l, k, first + k, yOffset, measure)
    {
      if next > end {
        break;
      }
      var row := i / l.columns;
      var col := i % l.columns;
      var x := col * l.tileWidth + (col + 1) * l.spacing;
      var y := row * l.tileHeight + (row + 1) * l.spacing;
      var tile: Tile;
      if side == Front {
        tile := Tile(x, y, Front, None);
      } else {
        var text := Str(next);
        var box := measure(text);
        var textWidth, textHeight := box.right - box.left, box.bottom - box.top;
        var textX := (l.tileWidth - textWidth) / 2;
        var textY := (l.tileHeight - textHeight) / 2 + yOffset;
        tile := Tile(x, y, Back, Some(Label(text, textX, textY)));
      }
      TilesAppend(side, l, first, yOffset, measure, tiles, tile);
      tiles := tiles + [tile];
      next := next + 1;
      i := i + 1;
    }
    SheetTilesAre(side, l, first, end, yOffset, measure, tiles);
  }

  /** One of the two `while current_number <= end` loops: the counter restarts
      at `start` and `card_count` at 1, and each round fills and saves one sheet. */
  method BuildSheets(side: Side, l: Layout, start: int, end: int, yOffset: int, measure: string -> Box)
    returns (sheets: seq<Sheet>)
    requires Capacity(l) >= 1 || end < start
    ensures sheets == SheetsFor(side, l, start, end, yOffset, measure)
  {
    var sheetWidth := l.columns * l.tileWidth + (l.columns + 1) * l.spacing;
    var sheetHeight := l.rows * l.tileHeight + (l.rows + 1) * l.spacing;
    var current := start;
    var cardCount := 1;
    sheets := [];
    ghost var cs := Chunks(start, end, Capacity(l));
    while current <= end
      invariant Capacity(l) >= 1 || current > end
      invariant |sheets| <= |cs|
      invariant cardCount == |sheets| + 1
      invariant Chunks(current, end, Capacity(l)) == cs[|sheets|..]
      invariant forall j :: 0 <= j < |sheets| ==> sheets[j] == SheetOf(side, l, cs[j], 1 + j, yOffset, measure)
      decreases end - current
    {
      SheetStep(side, l, cs, |sheets|, current, end, yOffset, measure);
      var tiles, next := FillSheet(side, l, current, end, yOffset, measure);
      var sheet := Sheet(SheetFileName(side, cardCount), sheetWidth, sheetHeight, tiles);
      SheetsAppend(side, l, cs, sheets, sheet, yOffset, measure);
      sheets := sheets + [sheet];
      current := next;
      cardCount := cardCount + 1;
    }
    assert |sheets| == |cs|;
  }

  /** Front, back, front, back, … for as many pairs as the shorter list has:
      what `zip` and the two `append`s build. */
  function Alternate<T>(front: seq<T>, back: seq<T>): seq<T>
    decreases |front|
  {
    if front == [] || back == [] then [] else [front[0], back[0]] + Alternate(front[1..], back[1..])
  }

  lemma {:induction false} AlternateIndex<T>(front: seq<T>, back: seq<T>)
    ensures |Alternate(front, back)| == 2 * Min(|front|, |back|)
    ensures forall k :: 0 <= k < Min(|front|, |back|) ==>
      Alternate(front, back)[2 * k] == front[k] && Alternate(front, back)[2 * k + 1] == back[k]
    decreases |front|
  {
    if front != [] && back != [] {
      var r, t := Alternate(front, back), Alternate(front[1..], back[1..]);
      AlternateIndex(front[1..], back[1..]);
      assert r == [front[0], back[0]] + t;
      forall k | 1 <= k < Min(|front|, |back|)
        ensures r[2 * k] == front[k] && r[2 * k + 1] == back[k]
      {
        assert r[2 * k] == t[2 * (k - 1)] && r[2 * k + 1] == t[2 * (k - 1) + 1];
      }
    }
  }

  /** The `for front, back in zip(front_cards, back_cards)` loop. */
  method Interleave<T>(front: seq<T>, back: seq<T>) returns (r: seq<T>)
    ensures r == Alternate(front, back)
  {
    r := [];
    var i := 0;
    assert front[i..] == front && back[i..] == back;
    while i < |front| && i < |back|
      invariant 0 <= i <= |front| && i <= |back|
      invariant Alternate(front, back) == r + Alternate(front[i..], back[i..])
    {
      assert front[i..][1..] == front[i + 1..] && back[i..][1..] == back[i + 1..];
      r := r + [front[i], back[i]];
      i := i + 1;
    }
  }

  /** What a successful run leaves behind. */
  function DeckOf(l: Layout, start: int, end: int, yOffset: int, measure: string -> Box): Deck
    requires Capacity(l) >= 1 || end < start
  {
    var front := SheetsFor(Front, l, start, end, yOffset, measure);
    var back := SheetsFor(Back, l, start, end, yOffset, measure);
    Deck(front, back, Alternate(front, back))
  }

  /** `create_numbered_cards`: the front sheets, then the back sheets, then the
      alternating document; with no card to print the document has no first
      page and the run fails. */
  method CreateNumberedCards(l: Layout, start: int, end: int, yOffset: int, measure: string -> Box)
    returns (result: Result<Deck, CardsError>)
    requires Capacity(l) >= 1 || end < start
    ensures result.Failure? <==> end < start
    ensures result.Success? ==> result.value == DeckOf(l, start, end, yOffset, measure)
  {
    var frontCards := BuildSheets(Front, l, start, end, yOffset, measure);
    var backCards := BuildSheets(Back, l, start, end, yOffset, measure);
    var intercalated := Interleave(frontCards, backCards);
    AlternateIndex(frontCards, backCards);
    if |intercalated| == 0 {
      return Failure(EmptyDocument);
    }
    var document := [intercalated[0]] + intercalated[1..];
    assert document == intercalated;
    result := Success(Deck(frontCards, backCards, document));
  }

  // ---------------------------------------------------------------- properties

  /** Each side gets `ceil((end - start + 1) / (rows * columns))` sheets, and the
      document twice as many pages, front and back of sheet `k` side by side. */
  lemma DeckShape(l: Layout, start: int, end: int, yOffset: int, measure: string -> Box)
    requires Capacity(l) >= 1
    ensures var d := DeckOf(l, start, end, yOffset, measure);
      var n := CeilDiv(end - start + 1, Capacity(l));
      && |d.front| == n && |d.back| == n && |d.document| == 2 * n
      && forall k :: 0 <= k < n ==>
           && d.document[2 * k] == d.front[k] && d.document[2 * k + 1] == d.back[k]
           && d.document[2 * k].fileName == SheetFileName(Front, k + 1)
           && d.document[2 * k + 1].fileName == SheetFileName(Back, k + 1)
  {
    var d := DeckOf(l, start, end, yOffset, measure);
    ChunkCount(start, end, Capacity(l));
    AlternateIndex(d.front, d.back);
  }

  /** Every sheet is full except the last, which holds
      `(end - start + 1) % (rows * columns)` copies, or a full sheet when that is 0. */
  lemma SheetsFullButLast(side: Side, l: Layout, start: int, end: int, yOffset: int, measure: string -> Box)
    requires Capacity(l) >= 1 && start <= end
    ensures var sheets := SheetsFor(side, l, start, end, yOffset, measure);
      var total, cap := end - start + 1, Capacity(l);
      && |sheets| >= 1
      && (forall j :: 0 <= j < |sheets| - 1 ==> |sheets[j].tiles| == cap)
      && |sheets[|sheets| - 1].tiles| == if total % cap == 0 then cap else total % cap
  {
    ChunksPartition(start, end, Capacity(l));
    LastChunkSize(start, end, Capacity(l));
    SheetSizes(side, l, Chunks(start, end, Capacity(l)), 1, yOffset, measure);
  }

  /** Each sheet holds as many copies as its block has cards. */
  lemma SheetSizes(side: Side, l: Layout, cs: seq<Chunk>, number: int, yOffset: int, measure: string -> Box)
    requires forall j :: 0 <= j < |cs| ==> 1 <= Size(cs[j]) <= Capacity(l)
    ensures |SheetsFrom(side, l, cs, number, yOffset, measure)| == |cs|
    ensures forall j :: 0 <= j < |cs| ==> |SheetsFrom(side, l, cs, number, yOffset, measure)[j].tiles| == Size(cs[j])
  {
    forall j | 0 <= j < |cs| ensures |SheetsFrom(side, l, cs, number, yOffset, measure)[j].tiles| == Size(cs[j]) {
      assert SheetsFrom(side, l, cs, number, yOffset, measure)[j] == SheetOf(side, l, cs[j], number + j, yOffset, measure);
      assert FillCount(cs[j].first, cs[j].last, Capacity(l)) == Size(cs[j]);
    }
  }

  /** The first sheet holds the first block; the others are numbered on from it. */
  lemma SheetsFromTail(side: Side, l: Layout, cs: seq<Chunk>, number: int, yOffset: int, measure: string -> Box)
    requires cs != []
    ensures SheetsFrom(side, l, cs, number, yOffset, measure)[0] == SheetOf(side, l, cs[0], number, yOffset, measure)
    ensures SheetsFrom(side, l, cs, number, yOffset, measure)[1..] == SheetsFrom(side, l, cs[1..], number + 1, yOffset, measure)
  {
    var a, b := SheetsFrom(side, l, cs, number, yOffset, measure)[1..], SheetsFrom(side, l, cs[1..], number + 1, yOffset, measure);
    assert |a| == |b|;
    forall k | 0 <= k < |a| ensures a[k] == b[k] {
      assert a[k] == SheetOf(side, l, cs[k + 1], number + k + 1, yOffset, measure);
    }
  }

  /** Copy `k` of sheet `j` lies inside the sheet, `spacing` from every edge. */
  lemma TileInside(side: Side, l: Layout, start: int, end: int, yOffset: int, measure: string -> Box, j: nat, k: nat)
    requires Capacity(l) >= 1 && l.spacing >= 0
    requires j < |SheetsFor(side, l, start, end, yOffset, measure)|
    requires k < |SheetsFor(side, l, start, end, yOffset, measure)[j].tiles|
    ensures var s := SheetsFor(side, l, start, end, yOffset, measure)[j];
      && l.spacing <= s.tiles[k].x && s.tiles[k].x + l.tileWidth + l.spacing <= s.width
      && l.spacing <= s.tiles[k].y && s.tiles[k].y + l.tileHeight + l.spacing <= s.height
  {
    var c := Chunks(start, end, Capacity(l))[j];
    SheetIndex(side, l, start, end, yOffset, measure, j);
    SheetTile(side, l, c.first, c.last, yOffset, measure, k);
    CellInsidePage(l, k);
  }

  /** Two copies on one sheet never overlap. */
  lemma TilesApart(side: Side, l: Layout, start: int, end: int, yOffset: int, measure: string -> Box, j: nat, i: nat, k: nat)
    requires Capacity(l) >= 1 && l.spacing >= 0 && i != k
    requires j < |SheetsFor(side, l, start, end, yOffset, measure)|
    requires i < |SheetsFor(side, l, start, end, yOffset, measure)[j].tiles|
    requires k < |SheetsFor(side, l, start, end, yOffset, measure)[j].tiles|
    ensures var t := SheetsFor(side, l, start, end, yOffset, measure)[j].tiles;
      || t[i].x + l.tileWidth <= t[k].x || t[k].x + l.tileWidth <= t[i].x
      || t[i].y + l.tileHeight <= t[k].y || t[k].y + l.tileHeight <= t[i].y
  {
    var c := Chunks(start, end, Capacity(l))[j];
    SheetIndex(side, l, start, end, yOffset, measure, j);
    SheetTile(side, l, c.first, c.last, yOffset, measure, i);
    SheetTile(side, l, c.first, c.last, yOffset, measure, k);
    CellsApart(l, i, k);
  }

  /** Because the counter restarts, back sheet `j` has its copies in the very
      cells of front sheet `j`; front copies are blank, back copies numbered. */
  lemma BackMirrorsFront(l: Layout, start: int, end: int, yOffset: int, measure: string -> Box)
    requires Capacity(l) >= 1 || end < start
    ensures var f, b := SheetsFor(Front, l, start, end, yOffset, measure), SheetsFor(Back, l, start, end, yOffset, measure);
      && |f| == |b|
      && forall j :: 0 <= j < |f| ==>
           && |f[j].tiles| == |b[j].tiles|
           && forall k :: 0 <= k < |f[j].tiles| ==>
                && f[j].tiles[k].x == b[j].tiles[k].x && f[j].tiles[k].y == b[j].tiles[k].y
                && f[j].tiles[k].caption.None? && b[j].tiles[k].caption.Some?
  {
    var f, b := SheetsFor(Front, l, start, end, yOffset, measure), SheetsFor(Back, l, start, end, yOffset, measure);
    forall j, k | 0 <= j < |f| && 0 <= k < |f[j].tiles|
      ensures |f[j].tiles| == |b[j].tiles|
      ensures f[j].tiles[k].x == b[j].tiles[k].x && f[j].tiles[k].y == b[j].tiles[k].y
      ensures f[j].tiles[k].caption.None? && b[j].tiles[k].caption.Some?
    {
      var c := Chunks(start, end, Capacity(l))[j];
      SheetIndex(Front, l, start, end, yOffset, measure, j);
      SheetIndex(Back, l, start, end, yOffset, measure, j);
      SheetTile(Front, l, c.first, c.last, yOffset, measure, k);
      SheetTile(Back, l, c.first, c.last, yOffset, measure, k);
    }
  }

  /** The text a copy shows, if any. */
  function LabelText(t: Tile): string
  {
    if t.caption.Some? then t.caption.value.text else ""
  }

  function SheetTexts(s: Sheet): seq<string>
  {
    seq(|s.tiles|, k requires 0 <= k < |s.tiles| => LabelText(s.tiles[k]))
  }

  /** The texts of all copies, sheet after sheet. */
  function AllTexts(sheets: seq<Sheet>): seq<string>
  {
    if sheets == [] then [] else SheetTexts(sheets[0]) + AllTexts(sheets[1..])
  }

  function StrAll(ns: seq<int>): seq<string>
  {
    seq(|ns|, i requires 0 <= i < |ns| => Str(ns[i]))
  }

  lemma StrAllAppend(a: seq<int>, b: seq<int>)
    ensures StrAll(a + b) == StrAll(a) + StrAll(b)
  {
    var x, y := StrAll(a + b), StrAll(a) + StrAll(b);
    assert |x| == |y|;
    forall i | 0 <= i < |x| ensures x[i] == y[i] {
      if i < |a| { assert (a + b)[i] == a[i]; } else { assert (a + b)[i] == b[i - |a|]; }
    }
  }

  lemma SheetTextsRange(l: Layout, c: Chunk, number: int, yOffset: int, measure: string -> Box)
    requires 1 <= Size(c) <= Capacity(l)
    ensures SheetTexts(SheetOf(Back, l, c, number, yOffset, measure)) == StrAll(Range(c.first, c.last))
  {
    var a, b := SheetTexts(SheetOf(Back, l, c, number, yOffset, measure)), StrAll(Range(c.first, c.last));
    assert |a| == |b|;
    forall k | 0 <= k < |a| ensures a[k] == b[k] {
      SheetTile(Back, l, c.first, c.last, yOffset, measure, k);
    }
  }

  lemma {:induction false} TextsOfSheets(l: Layout, cs: seq<Chunk>, number: int, yOffset: int, measure: string -> Box)
    requires forall j :: 0 <= j < |cs| ==> 1 <= Size(cs[j]) <= Capacity(l)
    ensures AllTexts(SheetsFrom(Back, l, cs, number, yOffset, measure)) == StrAll(Numbers(cs))
  {
    if cs != [] {
      SheetsFromTail(Back, l, cs, number, yOffset, measure);
      TextsOfSheets(l, cs[1..], number + 1, yOffset, measure);
      SheetTextsRange(l, cs[0], number, yOffset, measure);
      StrAllAppend(Range(cs[0].first, cs[0].last), Numbers(cs[1..]));
    }
  }

  /** The back copies show `str(start)`, `str(start + 1)`, …, `str(end)`, each
      once and in order, each reading back as its number; so there are
      `end - start + 1` cards on each side. */
  lemma BackLabelsCoverRange(l: Layout, start: int, end: int, yOffset: int, measure: string -> Box)
    requires Capacity(l) >= 1
    ensures var texts := AllTexts(SheetsFor(Back, l, start, end, yOffset, measure));
      && texts == StrAll(Range(start, end))
      && |texts| == (if end < start then 0 else end - start + 1)
      && forall i :: 0 <= i < |texts| ==> ParseDecimal(texts[i]) == Some(start + i)
  {
    ChunksCoverRange(start, end, Capacity(l));
    ChunksBounds(start, end, Capacity(l));
    TextsOfSheets(l, Chunks(start, end, Capacity(l)), 1, yOffset, measure);
    var texts := AllTexts(SheetsFor(Back, l, start, end, yOffset, measure));
    forall i | 0 <= i < |texts| ensures ParseDecimal(texts[i]) == Some(start + i) {
      StrRoundTrip(start + i);
    }
  }

  /** The number of copies on a list of sheets. */
  function TileCount(sheets: seq<Sheet>): nat
  {
    if sheets == [] then 0 else |sheets[0].tiles| + TileCount(sheets[1..])
  }

  lemma {:induction false} TileCountOfSheets(side: Side, l: Layout, cs: seq<Chunk>, number: int, yOffset: int, measure: string -> Box)
    requires forall j :: 0 <= j < |cs| ==> 1 <= Size(cs[j]) <= Capacity(l)
    ensures TileCount(SheetsFrom(side, l, cs, number, yOffset, measure)) == |Numbers(cs)|
  {
    if cs != [] {
      SheetsFromTail(side, l, cs, number, yOffset, measure);
      SheetSizes(side, l, cs, number, yOffset, measure);
      TileCountOfSheets(side, l, cs[1..], number + 1, yOffset, measure);
    }
  }

  /** Each side holds exactly one copy per card of `start..end`. */
  lemma TilesTotal(side: Side, l: Layout, start: int, end: int, yOffset: int, measure: string -> Box)
    requires Capacity(l) >= 1
    ensures TileCount(SheetsFor(side, l, start, end, yOffset, measure)) == if end < start then 0 else end - start + 1
  {
    ChunksCoverRange(start, end, Capacity(l));
    ChunksBounds(start, end, Capacity(l));
    TileCountOfSheets(side, l, Chunks(start, end, Capacity(l)), 1, yOffset, measure);
  }

  /** The number drawn on a copy is centred: the gap left of it and the gap
      right of it differ by at most one pixel (the right one taking the odd
      pixel), likewise above and below before `yOffset` moves it; and it starts
      inside the copy exactly when it is no wider than the copy. */
  lemma CentringBalanced(l: Layout, text: string, box: Box, yOffset: int)
    ensures var lb, w, h := CentredLabel(l, text, box, yOffset), box.right - box.left, box.bottom - box.top;
      var left, right := lb.x, l.tileWidth - w - lb.x;
      var top, bottom := lb.y - yOffset, l.tileHeight - h - (lb.y - yOffset);
      && left <= right <= left + 1
      && top <= bottom <= top + 1
      && (left >= 0 <==> w <= l.tileWidth)
      && (top >= 0 <==> h <= l.tileHeight)
  {
  }

  // ---------------------------------------------------------------- file names

  /** `s` without the leading `p`, if it starts with `p`. */
  function StripPrefix(p: string, s: string): Option<string>
  {
    if |s| >= |p| && s[..|p|] == p then Some(s[|p|..]) else None
  }

  lemma StripPrefixOf(p: string, d: string)
    ensures StripPrefix(p, p + d) == Some(d)
  {
    assert (p + d)[..|p|] == p && (p + d)[|p|..] == d;
  }

  /** Reads a sheet's side and number back from its file name: the side from
      the first letter, then the prefix of that side, a number and ".png". */
  function ParseSheetFileName(name: string): Option<(Side, int)>
  {
    if |name| < 4 || name[|name| - 4..] != ".png" then None
    else
      var stem := name[..|name| - 4];
      var side := if |stem| > 0 && stem[0] == 'f' then Front else Back;
      match StripPrefix(SidePrefix(side), stem)
      case None => None
      case Some(digits) =>
        match ParseDecimal(digits)
        case None => None
        case Some(n) => Some((side, n))
  }

  lemma SplitExtension(stem: string)
    ensures var name := stem + ".png";
      |name| >= 4 && name[|name| - 4..] == ".png" && name[..|name| - 4] == stem
  {
  }

  /** A sheet's file name tells its side and its number. */
  lemma SheetFileNameRoundTrip(side: Side, number: int)
    ensures ParseSheetFileName(SheetFileName(side, number)) == Some((side, number))
  {
    var p, d := SidePrefix(side), Str(number);
    SplitExtension(p + d);
    assert (p + d)[0] == p[0];
    StripPrefixOf(p, d);
    StrRoundTrip(number);
  }

  /** No two saved sheets share a file name: the sides use different prefixes
      and each side numbers its sheets 1, 2, …. */
  lemma SheetFileNamesDistinct(side1: Side, n1: int, side2: Side, n2: int)
    requires side1 != side2 || n1 != n2
    ensures SheetFileName(side1, n1) != SheetFileName(side2, n2)
  {
    SheetFileNameRoundTrip(side1, n1);
    SheetFileNameRoundTrip(side2, n2);
  }
}
