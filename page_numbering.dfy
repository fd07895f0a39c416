/** The page generator: one page of `rows × columns` copies of a tile, each
    stamped with its zero-padded number (`create_single_page_numbers`), the
    pages for a whole range (`generate_pages_range`), and the combiner that
    puts the saved page files in order (`combine_page_pngs_to_pdf`).
    A page is its size, its stamped tiles and the name it is saved under. */
module PageNumbering {
  import opened Wrappers
  import opened Decimal
  import opened StrOrder
  import opened Grid

  /** A tile pasted with its top-left corner at (x, y), showing `text`. */
  datatype Stamp = Stamp(x: int, y: int, text: string)

  datatype Page = Page(width: int, height: int, stamps: seq<Stamp>, fileName: string)

  /** `f"page_{start:0{width}d}_{end:0{width}d}.png"` */
  function PaddedPageFileName(start: int, end: int, width: nat): string
  {
    "page_" + FormatInt(start, width) + "_" + FormatInt(end, width) + ".png"
  }

  /** `f"page_{start:03d}_{end:03d}.png"` */
  function PageFileName(start: int, end: int): string
  {
    PaddedPageFileName(start, end, 3)
  }

  /** Tile `k` of the grid, showing the number `n`. */
  function StampAt(l: Layout, k: nat, n: int, zeroPad: nat): Stamp
    requires l.columns > 0
  {
    Stamp(CellX(l, k), CellY(l, k), FormatInt(n, zeroPad))
  }

  /** The page that `create_single_page_numbers(start, end)` saves. */
  function PageOf(l: Layout, start: int, end: int, zeroPad: nat): Page
  {
    var count := FillCount(start, end, Capacity(l));
    Page(PageWidth(l), PageHeight(l),
         seq(count, k requires 0 <= k < count => StampAt(l, k, start + k, zeroPad)),
         PageFileName(start, end))
  }

  /** Stamp `k` of a page is the tile of cell `k` showing `start + k`. */
  lemma PageStamp(l: Layout, start: int, end: int, zeroPad: nat, k: nat)
    requires k < |PageOf(l, start, end, zeroPad).stamps|
    ensures l.columns > 0 && k < Capacity(l) && start + k <= end
    ensures PageOf(l, start, end, zeroPad).stamps[k] == StampAt(l, k, start + k, zeroPad)
  {
    CapacityPositive(l);
    assert k < FillCount(start, end, Capacity(l));
    assert l.columns > 0;
  }

  lemma StampsAppend(l: Layout, start: int, zeroPad: nat, stamps: seq<Stamp>, s: Stamp)
    requires l.columns > 0
    requires forall k :: 0 <= k < |stamps| ==> stamps[k] == StampAt(l, k, start + k, zeroPad)
    requires s == StampAt(l, |stamps|, start + |stamps|, zeroPad)
    ensures forall k :: 0 <= k < |stamps| + 1 ==> (stamps + [s])[k] == StampAt(l, k, start + k, zeroPad)
  {
  }

  /** Stamps that agree with a page's stamps one by one are its stamps. */
  lemma PageStamps(l: Layout, start: int, end: int, zeroPad: nat, stamps: seq<Stamp>)
    requires |stamps| == FillCount(start, end, Capacity(l))
    requires forall k :: 0 <= k < |stamps| ==> stamps[k] == StampAt(l, k, start + k, zeroPad)
    ensures stamps == PageOf(l, start, end, zeroPad).stamps
  {
    var p := PageOf(l, start, end, zeroPad).stamps;
    forall k | 0 <= k < |stamps| ensures stamps[k] == p[k] {
      PageStamp(l, start, end, zeroPad, k);
    }
  }

  /** `create_single_page_numbers`: the counter starts at `start` and, tile by
      tile in row-major order, is stamped and advanced until the grid is full
      or the counter passes `end`. */
  method CreateSinglePageNumbers(l: Layout, start: int, end: int, zeroPad: nat) returns (page: Page)
    ensures page == PageOf(l, start, end, zeroPad)
  {
    var pageW := l.columns * l.tileWidth + (l.columns + 1) * l.spacing;
    var pageH := l.rows * l.tileHeight + (l.rows + 1) * l.spacing;
    var stamps: seq<Stamp> := [];
    var current := start;
    var i := 0;
    CapacityPositive(l);
    while i < l.rows * l.columns
      invariant 0 <= i <= Capacity(l)
      invariant current == start + i
      invariant i == 0 || current - 1 <= end
      invariant |stamps| == i
      invariant forall k :: 0 <= k < i ==> stamps[k] == StampAt(l, k, start + k, zeroPad)
    {
      if current > end {
        break;
      }
      var r := i / l.columns;
      var c := i % l.columns;
      var x := c * l.tileWidth + (c + 1) * l.spacing;
      var y := r * l.tileHeight + (r + 1) * l.spacing;
      var text := FormatInt(current, zeroPad);
      StampsAppend(l, start, zeroPad, stamps, Stamp(x, y, text));
      stamps := stamps + [Stamp(x, y, text)];
      current := current + 1;
      i := i + 1;
    }
    PageStamps(l, start, end, zeroPad, stamps);
    page := Page(pageW, pageH, stamps, PageFileName(start, end));
  }

  /** Tile `k` of a page lies inside the page, `spacing` from every edge, and
      shows a number of the page's range, `start + k`, as text that reads back. */
  lemma StampInside(l: Layout, start: int, end: int, zeroPad: nat, k: nat)
    requires l.spacing >= 0 && k < |PageOf(l, start, end, zeroPad).stamps|
    ensures var p := PageOf(l, start, end, zeroPad);
      && l.spacing <= p.stamps[k].x && p.stamps[k].x + l.tileWidth + l.spacing <= p.width
      && l.spacing <= p.stamps[k].y && p.stamps[k].y + l.tileHeight + l.spacing <= p.height
      && start <= start + k <= end
      && ParseDecimal(p.stamps[k].text) == Some(start + k)
  {
    PageStamp(l, start, end, zeroPad, k);
    CellInsidePage(l, k);
    FormatIntRoundTrip(start + k, zeroPad);
  }

  /** Two tiles of one page never overlap. */
  lemma StampsApart(l: Layout, start: int, end: int, zeroPad: nat, i: nat, j: nat)
    requires l.spacing >= 0 && i != j
    requires i < |PageOf(l, start, end, zeroPad).stamps| && j < |PageOf(l, start, end, zeroPad).stamps|
    ensures var s := PageOf(l, start, end, zeroPad).stamps;
      || s[i].x + l.tileWidth <= s[j].x || s[j].x + l.tileWidth <= s[i].x
      || s[i].y + l.tileHeight <= s[j].y || s[j].y + l.tileHeight <= s[i].y
  {
    PageStamp(l, start, end, zeroPad, i);
    PageStamp(l, start, end, zeroPad, j);
    CellsApart(l, i, j);
  }

  /** The pages of a range: one per block of `rows * columns` numbers. */
  function PagesFor(l: Layout, cs: seq<Chunk>, zeroPad: nat): seq<Page>
  {
    seq(|cs|, j requires 0 <= j < |cs| => PageOf(l, cs[j].first, cs[j].last, zeroPad))
  }

  /** `generate_pages_range`: `n` steps through `start, start + per, …` while
      `n <= end`, and each step makes the page for `[n, min(n + per - 1, end)]`.
      With `rows * columns == 0` and `start <= end` the source loops forever. */
  method GeneratePagesRange(l: Layout, start: int, end: int, zeroPad: nat) returns (pages: seq<Page>)
    requires Capacity(l) >= 1 || end < start
    ensures pages == PagesFor(l, Chunks(start, end, Capacity(l)), zeroPad)
  {
    var perPage := l.rows * l.columns;
    var n := start;
    pages := [];
    ghost var cs := Chunks(start, end, perPage);
    while n <= end
      invariant perPage >= 1 || n > end
      invariant |pages| <= |cs|
      invariant Chunks(n, end, perPage) == cs[|pages|..]
      invariant forall j :: 0 <= j < |pages| ==> pages[j] == PageOf(l, cs[j].first, cs[j].last, zeroPad)
      decreases end - n
    {
      var chunkEnd := Min(n + perPage - 1, end);
      ChunkStep(cs, |pages|, n, end, perPage);
      var page := CreateSinglePageNumbers(l, n, chunkEnd, zeroPad);
      PagesAppend(l, cs, zeroPad, pages, page);
      pages := pages + [page];
      n := n + perPage;
    }
    assert |pages| == |cs|;
    PagesAre(l, cs, zeroPad, pages);
  }

  lemma PagesAppend(l: Layout, cs: seq<Chunk>, zeroPad: nat, pages: seq<Page>, page: Page)
    requires |pages| < |cs|
    requires forall j :: 0 <= j < |pages| ==> pages[j] == PageOf(l, cs[j].first, cs[j].last, zeroPad)
    requires page == PageOf(l, cs[|pages|].first, cs[|pages|].last, zeroPad)
    ensures forall j :: 0 <= j < |pages| + 1 ==> (pages + [page])[j] == PageOf(l, cs[j].first, cs[j].last, zeroPad)
  {
  }

  /** Pages that agree with the pages of the blocks one by one are those pages. */
  lemma PagesAre(l: Layout, cs: seq<Chunk>, zeroPad: nat, pages: seq<Page>)
    requires |pages| == |cs|
    requires forall j :: 0 <= j < |pages| ==> pages[j] == PageOf(l, cs[j].first, cs[j].last, zeroPad)
    ensures pages == PagesFor(l, cs, zeroPad)
  {
  }

  lemma PagesForTail(l: Layout, cs: seq<Chunk>, zeroPad: nat)
    requires cs != []
    ensures PagesFor(l, cs, zeroPad)[0] == PageOf(l, cs[0].first, cs[0].last, zeroPad)
    ensures PagesFor(l, cs, zeroPad)[1..] == PagesFor(l, cs[1..], zeroPad)
  {
    var a, b := PagesFor(l, cs, zeroPad)[1..], PagesFor(l, cs[1..], zeroPad);
    assert |a| == |b|;
    forall k | 0 <= k < |a| ensures a[k] == b[k] {
      assert a[k] == PageOf(l, cs[k + 1].first, cs[k + 1].last, zeroPad);
    }
  }

  /** Page `j` holds block `j`, one stamp per number of the block. */
  lemma PageIndex(l: Layout, cs: seq<Chunk>, zeroPad: nat, j: nat)
    requires j < |cs| && 1 <= Size(cs[j]) <= Capacity(l)
    ensures PagesFor(l, cs, zeroPad)[j] == PageOf(l, cs[j].first, cs[j].last, zeroPad)
    ensures |PagesFor(l, cs, zeroPad)[j].stamps| == Size(cs[j])
  {
    assert FillCount(cs[j].first, cs[j].last, Capacity(l)) == Size(cs[j]);
  }

  /** A range gives `ceil((end - start + 1) / (rows * columns))` pages, none
      when `end < start`. */
  lemma PageCount(l: Layout, start: int, end: int, zeroPad: nat)
    requires Capacity(l) >= 1
    ensures |PagesFor(l, Chunks(start, end, Capacity(l)), zeroPad)| == CeilDiv(end - start + 1, Capacity(l))
  {
    ChunkCount(start, end, Capacity(l));
  }

  /** Every page is full except the last, which holds
      `(end - start + 1) % (rows * columns)` stamps, or a full page when that is 0. */
  lemma PagesFullButLast(l: Layout, start: int, end: int, zeroPad: nat)
    requires Capacity(l) >= 1 && start <= end
    ensures var pages := PagesFor(l, Chunks(start, end, Capacity(l)), zeroPad);
      var total, cap := end - start + 1, Capacity(l);
      && |pages| >= 1
      && (forall j :: 0 <= j < |pages| - 1 ==> |pages[j].stamps| == cap)
      && |pages[|pages| - 1].stamps| == if total % cap == 0 then cap else total % cap
  {
    var cs := Chunks(start, end, Capacity(l));
    ChunksPartition(start, end, Capacity(l));
    LastChunkSize(start, end, Capacity(l));
    PageSizes(l, cs, zeroPad);
  }

  /** Each page holds as many stamps as its block has numbers. */
  lemma PageSizes(l: Layout, cs: seq<Chunk>, zeroPad: nat)
    requires forall j :: 0 <= j < |cs| ==> 1 <= Size(cs[j]) <= Capacity(l)
    ensures |PagesFor(l, cs, zeroPad)| == |cs|
    ensures forall j :: 0 <= j < |cs| ==> |PagesFor(l, cs, zeroPad)[j].stamps| == Size(cs[j])
  {
    forall j | 0 <= j < |cs| ensures |PagesFor(l, cs, zeroPad)[j].stamps| == Size(cs[j]) {
      PageIndex(l, cs, zeroPad, j);
    }
  }

  /** The label texts of one page, tile by tile. */
  function PageLabels(p: Page): seq<string>
  {
    seq(|p.stamps|, k requires 0 <= k < |p.stamps| => p.stamps[k].text)
  }

  /** The label texts of a list of pages, page after page. */
  function AllLabels(pages: seq<Page>): seq<string>
  {
    if pages == [] then [] else PageLabels(pages[0]) + AllLabels(pages[1..])
  }

  function FormatAll(ns: seq<int>, zeroPad: nat): seq<string>
  {
    seq(|ns|, i requires 0 <= i < |ns| => FormatInt(ns[i], zeroPad))
  }

  lemma FormatAllAppend(a: seq<int>, b: seq<int>, zeroPad: nat)
    ensures FormatAll(a + b, zeroPad) == FormatAll(a, zeroPad) + FormatAll(b, zeroPad)
  {
    var x, y := FormatAll(a + b, zeroPad), FormatAll(a, zeroPad) + FormatAll(b, zeroPad);
    assert |x| == |y|;
    forall i | 0 <= i < |x| ensures x[i] == y[i] {
      if i < |a| { assert (a + b)[i] == a[i]; } else { assert (a + b)[i] == b[i - |a|]; }
    }
  }

  /** A page whose block fits the grid shows its whole block, in order. */
  lemma PageLabelsRange(l: Layout, first: int, last: int, zeroPad: nat)
    requires 1 <= last - first + 1 <= Capacity(l)
    ensures PageLabels(PageOf(l, first, last, zeroPad)) == FormatAll(Range(first, last), zeroPad)
  {
    var p := PageOf(l, first, last, zeroPad);
    var a, b := PageLabels(p), FormatAll(Range(first, last), zeroPad);
    assert |a| == |b|;
    forall k | 0 <= k < |a| ensures a[k] == b[k] {
      PageStamp(l, first, last, zeroPad, k);
    }
  }

  lemma {:induction false} LabelsOfPages(l: Layout, cs: seq<Chunk>, zeroPad: nat)
    requires forall j :: 0 <= j < |cs| ==> 1 <= Size(cs[j]) <= Capacity(l)
    ensures AllLabels(PagesFor(l, cs, zeroPad)) == FormatAll(Numbers(cs), zeroPad)
  {
    if cs != [] {
      PagesForTail(l, cs, zeroPad);
      LabelsOfPages(l, cs[1..], zeroPad);
      PageLabelsRange(l, cs[0].first, cs[0].last, zeroPad);
      FormatAllAppend(Range(cs[0].first, cs[0].last), Numbers(cs[1..]), zeroPad);
    }
  }

  /** Across all pages the labels are `start, start + 1, …, end`, each exactly
      once and in order, each reading back as its number. */
  lemma PagesCoverRange(l: Layout, start: int, end: int, zeroPad: nat)
    requires Capacity(l) >= 1
    ensures var labels := AllLabels(PagesFor(l, Chunks(start, end, Capacity(l)), zeroPad));
      && labels == FormatAll(Range(start, end), zeroPad)
      && |labels| == (if end < start then 0 else end - start + 1)
      && forall i :: 0 <= i < |labels| ==> ParseDecimal(labels[i]) == Some(start + i)
  {
    ChunksCoverRange(start, end, Capacity(l));
    ChunksBounds(start, end, Capacity(l));
    LabelsOfPages(l, Chunks(start, end, Capacity(l)), zeroPad);
    var labels := AllLabels(PagesFor(l, Chunks(start, end, Capacity(l)), zeroPad));
    forall i | 0 <= i < |labels| ensures ParseDecimal(labels[i]) == Some(start + i) {
      assert labels[i] == FormatInt(Range(start, end)[i], zeroPad) == FormatInt(start + i, zeroPad);
      FormatIntRoundTrip(start + i, zeroPad);
    }
  }

  // ---------------------------------------------------------------- file names

  lemma NoUnderscoreInNumber(n: int, width: nat)
    ensures '_' !in FormatInt(n, width)
  {
    var r := FormatInt(n, width);
    FormatIntShape(n, width);
    if n < 0 {
      assert r == [r[0]] + r[1..];
    }
  }

  /** The name after "page_": the start label, '_', then the rest. */
  lemma PageFileNameParts(s: int, e: int, w: nat)
    ensures PaddedPageFileName(s, e, w) == "page_" + (FormatInt(s, w) + ['_'] + (FormatInt(e, w) + ".png"))
    ensures PaddedPageFileName(s, e, w) == "page_" + (FormatInt(s, w) + ("_" + FormatInt(e, w) + ".png"))
  {
    Regroup("page_", FormatInt(s, w), "_", FormatInt(e, w), ".png");
  }

  lemma Regroup(p: string, a: string, u: string, b: string, q: string)
    ensures p + a + u + b + q == p + (a + u + (b + q))
    ensures p + a + u + b + q == p + (a + (u + b + q))
  {
  }

  /** A shared prefix can be cancelled. */
  lemma PrefixCancels(p: string, x: string, y: string)
    ensures p + x == p + y ==> x == y
  {
    assert (p + x)[|p|..] == x && (p + y)[|p|..] == y;
  }

  /** Pages that start at different numbers are saved under different names. */
  lemma PageFileNamesDistinct(s1: int, e1: int, s2: int, e2: int)
    requires s1 != s2
    ensures PageFileName(s1, e1) != PageFileName(s2, e2)
  {
    var a1, a2 := FormatInt(s1, 3), FormatInt(s2, 3);
    var r1, r2 := FormatInt(e1, 3) + ".png", FormatInt(e2, 3) + ".png";
    PageFileNameParts(s1, e1, 3);
    PageFileNameParts(s2, e2, 3);
    if a1 + ['_'] + r1 == a2 + ['_'] + r2 {
      NoUnderscoreInNumber(s1, 3);
      NoUnderscoreInNumber(s2, 3);
      SplitAtSeparator(a1, r1, a2, r2, '_');
      FormatIntInjective(s1, s2, 3);
    }
    PrefixCancels("page_", a1 + ['_'] + r1, a2 + ['_'] + r2);
  }

  /** When every start fits in the padding width, sorting the names as
      strings sorts the pages by their starting number. */
  lemma PaddedPageFileNameOrder(s1: int, e1: int, s2: int, e2: int, w: nat)
    requires w >= 1 && 0 <= s1 < Pow10(w) && 0 <= s2 < Pow10(w) && s1 != s2
    ensures LexLess(PaddedPageFileName(s1, e1, w), PaddedPageFileName(s2, e2, w)) <==> s1 < s2
  {
    var a1, a2 := FormatInt(s1, w), FormatInt(s2, w);
    var r1, r2 := "_" + FormatInt(e1, w) + ".png", "_" + FormatInt(e2, w) + ".png";
    PageFileNameParts(s1, e1, w);
    PageFileNameParts(s2, e2, w);
    LexCommonPrefix("page_", a1 + r1, a2 + r2);
    FormatIntWidth(s1, w);
    FormatIntWidth(s2, w);
    LexEqualLengthHead(a1, r1, a2, r2);
    LexNumeralOrder(a1, a2);
  }

  /** For page starts 0..999, sorting the names as strings sorts the pages by
      their starting number: the "alphabetical (numeric)" order the combiner
      relies on. */
  lemma PageFileNameOrder(s1: int, e1: int, s2: int, e2: int)
    requires 0 <= s1 <= 999 && 0 <= s2 <= 999 && s1 != s2
    ensures LexLess(PageFileName(s1, e1), PageFileName(s2, e2)) <==> s1 < s2
  {
    assert Pow10(3) == 1000;
    PaddedPageFileNameOrder(s1, e1, s2, e2, 3);
  }

  lemma FourDigitLabel()
    ensures FormatInt(1000, 3) == "1000" && FormatInt(100, 3) == "100"
  {
    assert Digits(1000) == Digits(100) + "0";
    assert Digits(100) == Digits(10) + "0";
    assert Digits(10) == Digits(1) + "0";
  }

  /** "page_1000…" sorts before "page_100_…", whatever follows. */
  lemma LongerStartSortsFirst(r1: string, r2: string)
    requires |r2| > 0 && r2[0] == '_'
    ensures LexLess("page_" + ("1000" + r1), "page_" + ("100" + r2))
  {
    LexCommonPrefix("page_", "1000" + r1, "100" + r2);
    assert "1000" + r1 == "100" + ("0" + r1);
    LexCommonPrefix("100", "0" + r1, r2);
    assert ("0" + r1)[0] == '0';
  }

  /** Past 999 the padding no longer keeps the names in numeric order: the
      page starting at 1000 sorts before the one starting at 100. */
  lemma PageFileNameOrderPast999()
    ensures LexLess(PageFileName(1000, 1008), PageFileName(100, 108))
  {
    FourDigitLabel();
    PageFileNameParts(1000, 1008, 3);
    PageFileNameParts(100, 108, 3);
    LongerStartSortsFirst("_" + FormatInt(1008, 3) + ".png", "_" + FormatInt(108, 3) + ".png");
  }

  // ---------------------------------------------------------------- combiner

  /** Whether `name` in the output folder matches `glob(prefix + "*.png")`;
      the wildcard does not match a leading '.'. */
  predicate GlobMatch(prefix: string, name: string)
  {
    && |name| >= |prefix| + 4
    && name[..|prefix|] == prefix
    && name[|name| - 4..] == ".png"
    && (prefix == [] ==> name[0] != '.')
  }

  /** The folder entries that match, in listing order. */
  function Matches(listing: seq<string>, prefix: string): (r: seq<string>)
    ensures forall x :: x in r <==> x in listing && GlobMatch(prefix, x)
    ensures (forall x :: x in listing ==> GlobMatch(prefix, x)) ==> r == listing
  {
    if listing == [] then []
    else
      assert listing == [listing[0]] + listing[1..];
      (if GlobMatch(prefix, listing[0]) then [listing[0]] else []) + Matches(listing[1..], prefix)
  }

  /** The `for p in png_paths` loop: opens each path in turn, `open` standing
      for `Image.open(p).convert("RGB")`, and keeps the images in path order. */
  method OpenImages<Image>(paths: seq<string>, open: string -> Image) returns (images: seq<Image>)
    ensures |images| == |paths|
    ensures forall k :: 0 <= k < |paths| ==> images[k] == open(paths[k])
  {
    images := [];
    for i := 0 to |paths|
      invariant |images| == i
      invariant forall k :: 0 <= k < i ==> images[k] == open(paths[k])
    {
      images := images + [open(paths[i])];
    }
  }

  /** `combine_page_pngs_to_pdf`: `pngPaths` is the sorted glob result; no
      document when it is empty, otherwise one document whose pages are the
      images of those files in that order, the first one followed by the rest. */
  method CombinePagePngsToPdf<Image>(listing: seq<string>, prefix: string, open: string -> Image)
    returns (pngPaths: seq<string>, document: Option<seq<Image>>)
    ensures Sorted(pngPaths) && multiset(pngPaths) == multiset(Matches(listing, prefix))
    ensures document.None? <==> Matches(listing, prefix) == []
    ensures document.Some? ==>
      && |document.value| == |pngPaths|
      && forall k :: 0 <= k < |pngPaths| ==> document.value[k] == open(pngPaths[k])
  {
    var matches := Matches(listing, prefix);
    pngPaths := SortStrings(matches);
    if |pngPaths| == 0 {
      assert |multiset(matches)| == 0;
      return pngPaths, None;
    }
    var images := OpenImages(pngPaths, open);
    var first, rest := images[0], images[1..];
    assert [first] + rest == images;
    document := Some([first] + rest);
  }

  /** The names saved for the blocks `cs` with the numbers padded to `width`,
      in the order they are saved. */
  function PaddedPageFileNames(cs: seq<Chunk>, width: nat): seq<string>
  {
    seq(|cs|, j requires 0 <= j < |cs| => PaddedPageFileName(cs[j].first, cs[j].last, width))
  }

  /** The names `generate_pages_range` saves, in the order it saves them. */
  function PageFileNames(cs: seq<Chunk>): seq<string>
  {
    PaddedPageFileNames(cs, 3)
  }

  lemma PageFileNameMatches(s: int, e: int)
    ensures GlobMatch("page_", PageFileName(s, e))
  {
    var mid := FormatInt(s, 3) + "_" + FormatInt(e, 3);
    var n := "page_" + mid + ".png";
    assert n == PageFileName(s, e);
    assert n[..5] == "page_";
    assert n[|n| - 4..] == ".png";
  }

  /** A folder holding only page files is matched in full. */
  lemma PageFilesMatch(cs: seq<Chunk>, listing: seq<string>)
    requires multiset(listing) == multiset(PageFileNames(cs))
    ensures Matches(listing, "page_") == listing
  {
    var names := PageFileNames(cs);
    forall x | x in listing ensures GlobMatch("page_", x) {
      assert x in multiset(names);
      var j :| 0 <= j < |names| && names[j] == x;
      PageFileNameMatches(cs[j].first, cs[j].last);
    }
  }

  /** Padded to a width that every number of the range fits in, the names
      come out sorted in the order they are generated. */
  lemma PaddedPageFileNamesSorted(per: int, start: int, end: int, width: nat)
    requires per >= 1 && width >= 1 && 0 <= start && end < Pow10(width)
    ensures Sorted(PaddedPageFileNames(Chunks(start, end, per), width))
  {
    var cs := Chunks(start, end, per);
    var names := PaddedPageFileNames(cs, width);
    ChunksBounds(start, end, per);
    forall i, j | 0 <= i < j < |names| ensures !LexLess(names[j], names[i]) {
      ChunksIncreasing(start, end, per, i, j);
      PaddedPageFileNameOrder(cs[i].first, cs[i].last, cs[j].first, cs[j].last, width);
      LexAsymmetric(names[i], names[j]);
    }
  }

  /** The names of a range whose numbers stay below 1000 come out sorted. */
  lemma PageFileNamesSorted(per: int, start: int, end: int)
    requires per >= 1 && 0 <= start && end <= 999
    ensures Sorted(PageFileNames(Chunks(start, end, per)))
  {
    assert Pow10(3) == 1000;
    PaddedPageFileNamesSorted(per, start, end, 3);
  }

  /** Numbering 1..1008 on a 3 × 3 grid: page 12 (`page_100_108.png`) is made
      before page 112 (`page_1000_1008.png`) but sorts after it, so the names
      as generated are not sorted and the combined document reorders them. */
  lemma PagesOutOfOrderPast999()
    ensures var names := PageFileNames(Chunks(1, 1008, 9));
      && |names| == 112
      && names[11] == PageFileName(100, 108) && names[111] == PageFileName(1000, 1008)
      && !Sorted(names)
  {
    ChunkCount(1, 1008, 9);
    ChunkAt(1, 1008, 9, 11);
    ChunkAt(1, 1008, 9, 111);
    PageFileNameOrderPast999();
  }

  /** When the folder holds exactly the pages of one range whose numbers stay
      below 1000, the sorted paths the combiner opens (and so the pages of its
      document) are the pages in the order they were generated. */
  lemma CombinedDocumentFollowsPages(per: int, start: int, end: int, listing: seq<string>, pngPaths: seq<string>)
    requires per >= 1 && 0 <= start && end <= 999
    requires multiset(listing) == multiset(PageFileNames(Chunks(start, end, per)))
    requires Sorted(pngPaths) && multiset(pngPaths) == multiset(Matches(listing, "page_"))
    ensures pngPaths == PageFileNames(Chunks(start, end, per))
  {
    PageFilesMatch(Chunks(start, end, per), listing);
    PageFileNamesSorted(per, start, end);
    SortedUnique(pngPaths, PageFileNames(Chunks(start, end, per)));
  }
}
