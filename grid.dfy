/** The layout arithmetic both scripts share: the size of a page holding a
    rows × columns grid of equal tiles, where tile `i` goes (row-major), how
    many numbers one page takes, and how `[start, end]` is cut into pages. */
module Grid {
  import opened Wrappers
  import opened Decimal

  function Min(a: int, b: int): int { if a < b then a else b }

  /** `rows` × `columns` tiles of `tileWidth` × `tileHeight` pixels, with
      `spacing` pixels between tiles and around the outside. */
  datatype Layout = Layout(rows: nat, columns: nat, tileWidth: nat, tileHeight: nat, spacing: int)

  /** Numbers that fit on one page: `rows * columns`. */
  function Capacity(l: Layout): nat { l.rows * l.columns }

  lemma CapacityPositive(l: Layout)
    ensures Capacity(l) > 0 ==> l.rows > 0 && l.columns > 0
  {
  }

  function PageWidth(l: Layout): int { l.columns * l.tileWidth + (l.columns + 1) * l.spacing }

  function PageHeight(l: Layout): int { l.rows * l.tileHeight + (l.rows + 1) * l.spacing }

  function CellRow(l: Layout, i: nat): nat
    requires l.columns > 0
  {
    i / l.columns
  }

  function CellColumn(l: Layout, i: nat): nat
    requires l.columns > 0
  {
    i % l.columns
  }

  /** Left edge of tile `i`: `c * iw + (c + 1) * spacing`. */
  function CellX(l: Layout, i: nat): int
    requires l.columns > 0
  {
    var c := CellColumn(l, i);
    c * l.tileWidth + (c + 1) * l.spacing
  }

  /** Top edge of tile `i`: `r * ih + (r + 1) * spacing`. */
  function CellY(l: Layout, i: nat): int
    requires l.columns > 0
  {
    var r := CellRow(l, i);
    r * l.tileHeight + (r + 1) * l.spacing
  }

  // ---------------------------------------------------------------- arithmetic

  /** Euclidean quotient and remainder are the only ones. */
  lemma DivModUnique(x: int, d: int, q: int, r: int)
    requires d >= 1 && 0 <= r < d && x == q * d + r
    ensures x / d == q && x % d == r
  {
    var q0, r0 := x / d, x % d;
    assert x == q0 * d + r0;
    if q0 < q {
      MulLeq(q0 + 1, q, d);
      assert false;
    } else if q < q0 {
      MulLeq(q + 1, q0, d);
      assert false;
    }
  }

  lemma ModShift(x: int, d: int)
    requires d >= 1
    ensures (x + d) % d == x % d
  {
    DivModUnique(x + d, d, x / d + 1, x % d);
  }

  /** Tiles at columns (rows) `a < b` leave at least `spacing` between them;
      with `b` the column count, tile `a` ends `spacing` before the page edge. */
  lemma PitchGap(a: nat, b: nat, w: nat, s: nat)
    requires a < b
    ensures a * w + (a + 1) * s + w + s <= b * w + (b + 1) * s
  {
    MulLeq(a + 1, b, w);
    MulLeq(a + 2, b + 1, s);
    assert a * w + w == (a + 1) * w;
    assert (a + 1) * s + s == (a + 2) * s;
  }

  // ---------------------------------------------------------------- geometry

  /** Tile `i` of a page sits at row `i / columns`, column `i % columns`,
      inside the grid, and the tiles are numbered row by row. */
  lemma CellInGrid(l: Layout, i: nat)
    requires l.columns > 0 && i < Capacity(l)
    ensures CellRow(l, i) < l.rows && CellColumn(l, i) < l.columns
    ensures i == CellRow(l, i) * l.columns + CellColumn(l, i)
  {
    var q := i / l.columns;
    if q >= l.rows {
      MulLeq(l.rows, q, l.columns);
      assert false;
    }
  }

  /** Reading the grid row by row: row `r`, column `c` is tile `r * columns + c`. */
  lemma CellRowMajor(l: Layout, r: nat, c: nat)
    requires r < l.rows && c < l.columns
    ensures r * l.columns + c < Capacity(l)
    ensures CellRow(l, r * l.columns + c) == r && CellColumn(l, r * l.columns + c) == c
  {
    MulLeq(r + 1, l.rows, l.columns);
    DivModUnique(r * l.columns + c, l.columns, r, c);
  }

  /** With non-negative spacing every tile lies inside the page with at
      least `spacing` pixels to each edge. */
  lemma CellInsidePage(l: Layout, i: nat)
    requires l.columns > 0 && i < Capacity(l) && l.spacing >= 0
    ensures l.spacing <= CellX(l, i) && CellX(l, i) + l.tileWidth + l.spacing <= PageWidth(l)
    ensures l.spacing <= CellY(l, i) && CellY(l, i) + l.tileHeight + l.spacing <= PageHeight(l)
  {
    CellInGrid(l, i);
    var r, c := CellRow(l, i), CellColumn(l, i);
    PitchGap(c, l.columns, l.tileWidth, l.spacing);
    PitchGap(r, l.rows, l.tileHeight, l.spacing);
    MulLeq(1, c + 1, l.spacing);
    MulLeq(1, r + 1, l.spacing);
  }

  /** Two different tiles of one page never overlap: they are at least
      `spacing` apart horizontally or vertically. */
  lemma CellsApart(l: Layout, i: nat, j: nat)
    requires l.columns > 0 && i < Capacity(l) && j < Capacity(l) && i != j && l.spacing >= 0
    ensures || CellX(l, i) + l.tileWidth + l.spacing <= CellX(l, j)
            || CellX(l, j) + l.tileWidth + l.spacing <= CellX(l, i)
            || CellY(l, i) + l.tileHeight + l.spacing <= CellY(l, j)
            || CellY(l, j) + l.tileHeight + l.spacing <= CellY(l, i)
  {
    CellInGrid(l, i);
    CellInGrid(l, j);
    var ri, ci, rj, cj := CellRow(l, i), CellColumn(l, i), CellRow(l, j), CellColumn(l, j);
    if ci < cj {
      PitchGap(ci, cj, l.tileWidth, l.spacing);
    } else if cj < ci {
      PitchGap(cj, ci, l.tileWidth, l.spacing);
    } else if ri < rj {
      PitchGap(ri, rj, l.tileHeight, l.spacing);
    } else {
      assert rj < ri;
      PitchGap(rj, ri, l.tileHeight, l.spacing);
    }
  }

  // ---------------------------------------------------------------- filling a page

  /** How many numbers, counting up from `first`, one page of `capacity`
      tiles stamps before the counter passes `last`: the most it can take. */
  function FillCount(first: int, last: int, capacity: nat): (n: nat)
    ensures n <= capacity
    ensures n > 0 ==> first + n - 1 <= last
    ensures n == capacity || first + n > last
  {
    if last < first then 0 else Min(capacity, last - first + 1)
  }

  // ---------------------------------------------------------------- pagination

  /** The numbers `first..last` one page shows. */
  datatype Chunk = Chunk(first: int, last: int)

  function Size(c: Chunk): int { c.last - c.first + 1 }

  /** The blocks `[n, min(n + per - 1, end)]` that a `while n <= end` loop
      advancing `n` by `per` visits. */
  function Chunks(n: int, end: int, per: int): seq<Chunk>
    requires per >= 1 || n > end
    decreases if n <= end then end - n + 1 else 0
  {
    if n > end then [] else [Chunk(n, Min(n + per - 1, end))] + Chunks(n + per, end, per)
  }

  /** Every block lies within `[n, end]`, is non-empty and holds at most `per` numbers. */
  predicate BlocksWithin(cs: seq<Chunk>, n: int, end: int, per: int)
  {
    forall j :: 0 <= j < |cs| ==> n <= cs[j].first <= cs[j].last <= end && 1 <= Size(cs[j]) <= per
  }

  lemma {:induction false} ChunksBounds(n: int, end: int, per: int)
    requires per >= 1 || n > end
    ensures BlocksWithin(Chunks(n, end, per), n, end, per)
    decreases if n <= end then end - n + 1 else 0
  {
    if n <= end {
      var cs, rest := Chunks(n, end, per), Chunks(n + per, end, per);
      ChunksBounds(n + per, end, per);
      assert cs == [Chunk(n, Min(n + per - 1, end))] + rest;
      forall j | 0 <= j < |cs| ensures n <= cs[j].first <= cs[j].last <= end && 1 <= Size(cs[j]) <= per {
        if j > 0 {
          assert cs[j] == rest[j - 1];
        } else {
          assert cs[j] == Chunk(n, Min(n + per - 1, end));
        }
      }
    }
  }

  /** One step of the loop that `Chunks` describes: when the blocks still to
      visit are `cs[i..]`, the next is `cs[i]` and the rest are `cs[i + 1..]`. */
  lemma ChunkStep(cs: seq<Chunk>, i: nat, n: int, end: int, per: int)
    requires per >= 1 && n <= end && i <= |cs| && Chunks(n, end, per) == cs[i..]
    ensures i < |cs| && cs[i] == Chunk(n, Min(n + per - 1, end))
    ensures Chunks(n + per, end, per) == cs[i + 1..]
  {
    assert cs[i..] == [Chunk(n, Min(n + per - 1, end))] + Chunks(n + per, end, per);
    assert cs[i + 1..] == cs[i..][1..];
  }

  /** Past `end` there is nothing left to visit, wherever the counter stands. */
  lemma ChunksPastEnd(a: int, b: int, end: int, per: int)
    ensures a > end && b > end ==> Chunks(a, end, per) == [] == Chunks(b, end, per)
  {
  }

  /** Block `j` starts `j * per` numbers after `n`. */
  lemma {:induction false} ChunkAt(n: int, end: int, per: int, j: nat)
    requires per >= 1 && j < |Chunks(n, end, per)|
    ensures Chunks(n, end, per)[j] == Chunk(n + j * per, Min(n + j * per + per - 1, end))
    decreases j
  {
    var cs, rest := Chunks(n, end, per), Chunks(n + per, end, per);
    assert cs == [Chunk(n, Min(n + per - 1, end))] + rest;
    if j > 0 {
      ChunkAt(n + per, end, per, j - 1);
      assert cs[j] == rest[j - 1];
      assert n + per + (j - 1) * per == n + j * per;
    }
  }

  /** The `while n <= end` loop exactly as written, run for at most `fuel`
      rounds: None when it has not finished by then. Nothing stops it from
      taking a step of `per <= 0`. */
  function ChunksWithin(n: int, end: int, per: int, fuel: nat): Option<seq<Chunk>>
    decreases fuel
  {
    if n > end then Some([])
    else if fuel == 0 then None
    else
      match ChunksWithin(n + per, end, per, fuel - 1)
      case None => None
      case Some(rest) => Some([Chunk(n, Min(n + per - 1, end))] + rest)
  }

  /** With `rows * columns == 0` and a non-empty range the loop never ends:
      `n` never moves, however many rounds it is given. */
  lemma {:induction false} EmptyGridNeverFinishes(n: int, end: int, fuel: nat)
    requires n <= end
    ensures ChunksWithin(n, end, 0, fuel) == None
  {
    if fuel > 0 {
      EmptyGridNeverFinishes(n, end, fuel - 1);
    }
  }

  /** With at least one cell per page the loop ends within `end - n + 1`
      rounds, and its blocks are `Chunks(n, end, per)`. */
  lemma {:induction false} ChunksWithinAgrees(n: int, end: int, per: int, fuel: nat)
    requires per >= 1 && fuel > end - n
    ensures ChunksWithin(n, end, per, fuel) == Some(Chunks(n, end, per))
    decreases fuel
  {
    if n <= end {
      ChunksWithinAgrees(n + per, end, per, fuel - 1);
    }
  }

  /** Ceiling of `total / per`, and no pages for an empty range. */
  function CeilDiv(total: int, per: int): (q: nat)
    requires per >= 1
    ensures total <= 0 ==> q == 0
    ensures total > 0 ==> (q - 1) * per < total <= q * per
  {
    if total <= 0 then 0
    else
      var k := (total - 1) / per;
      assert k * per + (total - 1) % per == total - 1;
      assert (k + 1) * per == k * per + per;
      k + 1
  }

  lemma CeilDivUnique(total: int, per: int, q: nat)
    requires per >= 1 && total > 0 && (q - 1) * per < total <= q * per
    ensures CeilDiv(total, per) == q
  {
    var q0 := CeilDiv(total, per);
    if q0 < q {
      MulLeq(q0, q - 1, per);
      assert false;
    } else if q < q0 {
      MulLeq(q, q0 - 1, per);
      assert false;
    }
  }

  /** One more full page of `per` numbers adds one to the ceiling. */
  lemma CeilStep(total: int, per: int, m: int)
    requires (m - 1) * per < total - per <= m * per
    ensures m * per < total <= (m + 1) * per
  {
    assert (m + 1) * per == m * per + per && (m - 1) * per == m * per - per;
  }

  /** The page count is the ceiling of `(end - n + 1) / per`. */
  lemma {:induction false} ChunkCount(n: int, end: int, per: int)
    requires per >= 1
    ensures |Chunks(n, end, per)| == CeilDiv(end - n + 1, per)
    decreases if n <= end then end - n + 1 else 0
  {
    if n <= end {
      var total := end - n + 1;
      var m := |Chunks(n + per, end, per)|;
      ChunkCount(n + per, end, per);
      if total - per > 0 {
        CeilStep(total, per, m);
        CeilDivUnique(total, per, m + 1);
      } else {
        CeilDivUnique(total, per, 1);
      }
    }
  }

  /** The pages partition `[n, end]`: the first starts at `n`, the last ends at
      `end`, each starts right after the previous one ends, and every page but
      the last is full. */
  lemma {:induction false} ChunksPartition(n: int, end: int, per: int)
    requires per >= 1 && n <= end
    ensures var cs := Chunks(n, end, per);
      && |cs| >= 1 && cs[0].first == n && cs[|cs| - 1].last == end
      && (forall j :: 0 <= j < |cs| - 1 ==> cs[j + 1].first == cs[j].last + 1 && Size(cs[j]) == per)
    decreases end - n
  {
    var cs := Chunks(n, end, per);
    if n + per <= end {
      var rest := Chunks(n + per, end, per);
      assert cs == [Chunk(n, n + per - 1)] + rest;
      ChunksPartition(n + per, end, per);
      assert cs[1..] == rest;
      forall j | 0 <= j < |cs| - 1
        ensures cs[j + 1].first == cs[j].last + 1 && Size(cs[j]) == per
      {
        if j > 0 { assert cs[j] == rest[j - 1] && cs[j + 1] == rest[j]; }
      }
    } else {
      assert Chunks(n + per, end, per) == [];
      assert cs == [Chunk(n, end)];
    }
  }

  /** Later pages show larger numbers. */
  lemma {:induction false} ChunksIncreasing(n: int, end: int, per: int, i: nat, j: nat)
    requires per >= 1 && i < j < |Chunks(n, end, per)|
    ensures Chunks(n, end, per)[i].last < Chunks(n, end, per)[j].first
    decreases j - i
  {
    ChunksPartition(n, end, per);
    if i + 1 < j {
      ChunksIncreasing(n, end, per, i, j - 1);
    }
  }

  /** The last page holds `(end - n + 1) % per` numbers, or a full page when
      that remainder is 0. */
  lemma {:induction false} LastChunkSize(n: int, end: int, per: int)
    requires per >= 1 && n <= end
    ensures var cs := Chunks(n, end, per);
      |cs| >= 1 && Size(cs[|cs| - 1]) == if (end - n + 1) % per == 0 then per else (end - n + 1) % per
    decreases end - n
  {
    var total := end - n + 1;
    var cs := Chunks(n, end, per);
    if n + per <= end {
      var rest := Chunks(n + per, end, per);
      assert cs == [Chunk(n, n + per - 1)] + rest;
      LastChunkSize(n + per, end, per);
      assert cs[|cs| - 1] == rest[|rest| - 1];
      ModShift(total - per, per);
    } else {
      assert Chunks(n + per, end, per) == [];
      assert cs == [Chunk(n, end)];
      if total < per {
        DivModUnique(total, per, 0, total);
      } else {
        DivModUnique(total, per, 1, 0);
      }
    }
  }

  /** The integers `first..last`, in order. */
  function Range(first: int, last: int): (r: seq<int>)
    ensures |r| == if last < first then 0 else last - first + 1
    ensures forall k :: 0 <= k < |r| ==> r[k] == first + k
  {
    if last < first then [] else seq(last - first + 1, k => first + k)
  }

  /** The numbers of the pages, page after page. */
  function Numbers(cs: seq<Chunk>): seq<int>
  {
    if cs == [] then [] else Range(cs[0].first, cs[0].last) + Numbers(cs[1..])
  }

  lemma RangeSplit(a: int, m: int, b: int)
    requires a <= m + 1 <= b + 1
    ensures Range(a, m) + Range(m + 1, b) == Range(a, b)
  {
    var s, t := Range(a, m) + Range(m + 1, b), Range(a, b);
    assert |s| == |t|;
    forall k | 0 <= k < |s| ensures s[k] == t[k] {
      if k >= |Range(a, m)| { assert s[k] == Range(m + 1, b)[k - |Range(a, m)|]; }
    }
  }

  /** Page after page, the numbers are exactly `n..end`: no gap, no repeat. */
  lemma {:induction false} ChunksCoverRange(n: int, end: int, per: int)
    requires per >= 1
    ensures Numbers(Chunks(n, end, per)) == Range(n, end)
    decreases if n <= end then end - n + 1 else 0
  {
    if n <= end {
      var cs, rest := Chunks(n, end, per), Chunks(n + per, end, per);
      var m := Min(n + per - 1, end);
      assert cs == [Chunk(n, m)] + rest;
      assert cs[0] == Chunk(n, m) && cs[1..] == rest;
      assert Numbers(cs) == Range(n, m) + Numbers(rest);
      ChunksCoverRange(n + per, end, per);
      if m < end {
        RangeSplit(n, m, end);
      } else {
        assert Range(n + per, end) == [];
        assert Range(n, m) + [] == Range(n, end);
      }
    }
  }
}
