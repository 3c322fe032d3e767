/** The tile resolver of `calcAllVisibleTiles`: the inclusive grid of slippy-map
    tile indices between the tile holding the viewport's north-west corner and
    the tile holding its south-east corner. The corner indices come from the
    Web Mercator formulas on floating-point coordinates; the model takes them
    as integers. */
module Tiles {

  /** An `(x, y)` tile index pair, as pushed onto `xYPairs`. */
  datatype Tile = Tile(x: int, y: int)

  /** Tile indices of the north-west and south-east viewport corners at one zoom. */
  datatype Corners = Corners(nwX: int, nwY: int, seX: int, seY: int)

  predicate InBox(t: Tile, c: Corners) {
    c.nwX <= t.x <= c.seX && c.nwY <= t.y <= c.seY
  }

  /** x-major order, y ascending within one x. */
  predicate Before(a: Tile, b: Tile) {
    a.x < b.x || (a.x == b.x && a.y < b.y)
  }

  /** The pairs `(x, lo), (x, lo + 1), ..., (x, hi)`. */
  function Column(x: int, lo: int, hi: int): seq<Tile>
    decreases hi - lo
  {
    if hi < lo then [] else Column(x, lo, hi - 1) + [Tile(x, hi)]
  }

  /** The whole grid, one column per x from `nwX` to `seX`. */
  function Grid(c: Corners): seq<Tile>
    decreases c.seX - c.nwX
  {
    if c.seX < c.nwX then [] else Grid(c.(seX := c.seX - 1)) + Column(c.seX, c.nwY, c.seY)
  }

  /** `calcAllVisibleTiles` after its corner computation: two nested loops push
      every pair of the grid. */
  method CalcAllVisibleTiles(c: Corners) returns (pairs: seq<Tile>)
    ensures pairs == Grid(c)
  {
    pairs := [];
    var x := c.nwX;
    while x <= c.seX
      invariant c.nwX <= x && (x <= c.seX + 1 || x == c.nwX)
      invariant pairs == Grid(c.(seX := x - 1))
      decreases c.seX - x
    {
      var y := c.nwY;
      while y <= c.seY
        invariant c.nwY <= y && (y <= c.seY + 1 || y == c.nwY)
        invariant pairs == Grid(c.(seX := x - 1)) + Column(x, c.nwY, y - 1)
        decreases c.seY - y
      {
        pairs := pairs + [Tile(x, y)];
        y := y + 1;
      }
      assert Column(x, c.nwY, y - 1) == Column(x, c.nwY, c.seY);
      x := x + 1;
    }
    assert c.(seX := x - 1) == c || Grid(c) == [];
  }

  lemma {:induction false} ColumnContents(x: int, lo: int, hi: int)
    ensures forall t :: t in Column(x, lo, hi) <==> t.x == x && lo <= t.y <= hi
    ensures |Column(x, lo, hi)| == if hi < lo then 0 else hi - lo + 1
    ensures forall i, j :: 0 <= i < j < |Column(x, lo, hi)| ==> Column(x, lo, hi)[i].y < Column(x, lo, hi)[j].y
    decreases hi - lo
  {
    if lo <= hi {
      ColumnContents(x, lo, hi - 1);
    }
  }

  /** The grid holds exactly the pairs inside the corner box. */
  lemma {:induction false} GridContents(c: Corners)
    ensures forall t :: t in Grid(c) <==> InBox(t, c)
    decreases c.seX - c.nwX
  {
    if c.nwX <= c.seX {
      GridContents(c.(seX := c.seX - 1));
      ColumnContents(c.seX, c.nwY, c.seY);
    }
  }

  /** The grid is listed x-major with y ascending, so no pair occurs twice. */
  lemma {:induction false} GridOrdered(c: Corners)
    ensures forall i, j :: 0 <= i < j < |Grid(c)| ==> Before(Grid(c)[i], Grid(c)[j])
    decreases c.seX - c.nwX
  {
    if c.nwX <= c.seX {
      var prev := c.(seX := c.seX - 1);
      GridOrdered(prev);
      GridContents(prev);
      ColumnContents(c.seX, c.nwY, c.seY);
      var g, col := Grid(prev), Column(c.seX, c.nwY, c.seY);
      forall i, j | 0 <= i < j < |g + col|
        ensures Before((g + col)[i], (g + col)[j])
      {
        if j < |g| {
        } else if i < |g| {
          assert g[i] in g && col[j - |g|] in col;
        } else {
          assert (g + col)[i] == col[i - |g|];
        }
      }
    }
  }

  lemma GridDistinct(c: Corners)
    ensures forall i, j :: 0 <= i < |Grid(c)| && 0 <= j < |Grid(c)| && i != j ==> Grid(c)[i] != Grid(c)[j]
  {
    GridOrdered(c);
    forall i, j | 0 <= i < |Grid(c)| && 0 <= j < |Grid(c)| && i != j
      ensures Grid(c)[i] != Grid(c)[j]
    {
      if i < j {
        assert Before(Grid(c)[i], Grid(c)[j]);
      } else {
        assert Before(Grid(c)[j], Grid(c)[i]);
      }
    }
  }

  /** The grid has `(seX - nwX + 1) * (seY - nwY + 1)` pairs, and none when the
      corners are crossed (a viewport spanning the antimeridian). */
  lemma {:induction false} GridLength(c: Corners)
    ensures |Grid(c)| == if c.nwX <= c.seX && c.nwY <= c.seY then (c.seX - c.nwX + 1) * (c.seY - c.nwY + 1) else 0
    decreases c.seX - c.nwX
  {
    if c.nwX <= c.seX {
      var prev := c.(seX := c.seX - 1);
      GridLength(prev);
      ColumnContents(c.seX, c.nwY, c.seY);
      if c.nwY <= c.seY {
        var h := c.seY - c.nwY + 1;
        assert (c.seX - c.nwX) * h + h == (c.seX - c.nwX + 1) * h;
      }
    }
  }

  /** A viewport inside one tile resolves to exactly that tile. */
  lemma SingleTile(x: int, y: int)
    ensures Grid(Corners(x, y, x, y)) == [Tile(x, y)]
  {
    GridLength(Corners(x, y, x, y));
    GridContents(Corners(x, y, x, y));
    assert Tile(x, y) in Grid(Corners(x, y, x, y));
  }
}
