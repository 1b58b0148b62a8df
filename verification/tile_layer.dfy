/** The collision layer of the tile map and the rectangle query over it
    (`DigGame.getTiles`).

    A layer is a finite map from integer cell coordinates to the tile held
    there; a coordinate that is not a key holds no cell (libGDX's `getCell`
    returning null, which is also what it returns outside the map). Clearing
    a cell (`setCell(x, y, null)`) removes its key. */
module TileLayer {
  import opened Geometry

  type TileId = nat
  type Cell = (int, int)
  type Layer = map<Cell, TileId>

  /** The unit rectangle `getTiles` builds for the cell at (x, y). */
  function UnitTile(x: int, y: int): Rect {
    Rect(x as real, y as real, 1.0, 1.0)
  }

  /** The cell whose unit rectangle has `t` as lower-left corner. */
  function CellAt(t: Rect): Cell {
    (t.x.Floor, t.y.Floor)
  }

  lemma CellAtUnitTile(x: int, y: int)
    ensures CellAt(UnitTile(x, y)) == (x, y)
  {
  }

  predicate InSpan(c: Cell, startX: int, startY: int, endX: int, endY: int) {
    startX <= c.0 <= endX && startY <= c.1 <= endY
  }

  /** Row-major order: by row (y) first, then by column (x). */
  predicate RowMajorBefore(a: Cell, b: Cell) {
    a.1 < b.1 || (a.1 == b.1 && a.0 < b.0)
  }

  /** Every element is the unit rectangle of a present cell of the span. */
  ghost predicate TilesSound(tiles: seq<Rect>, layer: Layer,
                             startX: int, startY: int, endX: int, endY: int)
  {
    forall i :: 0 <= i < |tiles| ==>
      && tiles[i] == UnitTile(CellAt(tiles[i]).0, CellAt(tiles[i]).1)
      && CellAt(tiles[i]) in layer
      && InSpan(CellAt(tiles[i]), startX, startY, endX, endY)
  }

  /** Every present cell of the span is among the elements. */
  ghost predicate TilesComplete(tiles: seq<Rect>, layer: Layer,
                                startX: int, startY: int, endX: int, endY: int)
  {
    forall x, y :: startX <= x <= endX && startY <= y <= endY && (x, y) in layer ==>
      UnitTile(x, y) in tiles
  }

  /** The elements' cells are strictly increasing in row-major order. */
  ghost predicate RowMajorOrdered(tiles: seq<Rect>) {
    forall i, j :: 0 <= i < j < |tiles| ==> RowMajorBefore(CellAt(tiles[i]), CellAt(tiles[j]))
  }

  /** What a correct answer to the query is: exactly the present cells of
      the inclusive span, each as its unit rectangle, in row-major order. */
  ghost predicate IsTileQuery(tiles: seq<Rect>, layer: Layer,
                              startX: int, startY: int, endX: int, endY: int)
  {
    && TilesSound(tiles, layer, startX, startY, endX, endY)
    && TilesComplete(tiles, layer, startX, startY, endX, endY)
    && RowMajorOrdered(tiles)
  }

  /** The present cells of row y between columns startX and endX, left to
      right (the inner loop of `getTiles`). */
  function RowTiles(layer: Layer, y: int, startX: int, endX: int): seq<Rect>
    decreases endX - startX
  {
    if endX < startX then []
    else RowTiles(layer, y, startX, endX - 1)
         + (if (endX, y) in layer then [UnitTile(endX, y)] else [])
  }

  /** The present cells of the inclusive span, rows bottom to top, each row
      left to right (the two loops of `getTiles`). */
  function TilesIn(layer: Layer, startX: int, startY: int, endX: int, endY: int): seq<Rect>
    decreases endY - startY
  {
    if endY < startY then []
    else TilesIn(layer, startX, startY, endX, endY - 1) + RowTiles(layer, endY, startX, endX)
  }

  /** The row query: exactly the present cells of row y between the two
      columns, left to right. */
  ghost predicate IsRowQuery(row: seq<Rect>, layer: Layer, y: int, startX: int, endX: int) {
    && (forall i :: 0 <= i < |row| ==>
          && row[i] == UnitTile(CellAt(row[i]).0, y)
          && CellAt(row[i]).1 == y
          && CellAt(row[i]) in layer
          && startX <= CellAt(row[i]).0 <= endX)
    && (forall x :: startX <= x <= endX && (x, y) in layer ==> UnitTile(x, y) in row)
    && (forall i, j :: 0 <= i < j < |row| ==> CellAt(row[i]).0 < CellAt(row[j]).0)
  }

  lemma {:induction false} RowTilesSpec(layer: Layer, y: int, startX: int, endX: int)
    ensures IsRowQuery(RowTiles(layer, y, startX, endX), layer, y, startX, endX)
    decreases endX - startX
  {
    if endX >= startX {
      RowTilesSpec(layer, y, startX, endX - 1);
      var prefix := RowTiles(layer, y, startX, endX - 1);
      var row := RowTiles(layer, y, startX, endX);
      assert row == prefix + (if (endX, y) in layer then [UnitTile(endX, y)] else []);
      CellAtUnitTile(endX, y);
      forall i | 0 <= i < |row|
        ensures && row[i] == UnitTile(CellAt(row[i]).0, y)
                && CellAt(row[i]).1 == y
                && CellAt(row[i]) in layer
                && startX <= CellAt(row[i]).0 <= endX
      {
        if i < |prefix| {
          assert row[i] == prefix[i];
        }
      }
      forall x | startX <= x <= endX && (x, y) in layer
        ensures UnitTile(x, y) in row
      {
        if x < endX {
          assert UnitTile(x, y) in prefix;
        } else {
          assert row[|row| - 1] == UnitTile(x, y);
        }
      }
    }
  }

  /** Every tile of the reference query is the unit rectangle of a present
      cell of the span. */
  lemma {:induction false} TilesInSound(layer: Layer, startX: int, startY: int, endX: int, endY: int)
    ensures TilesSound(TilesIn(layer, startX, startY, endX, endY), layer, startX, startY, endX, endY)
    decreases endY - startY
  {
    if endY >= startY {
      TilesInSound(layer, startX, startY, endX, endY - 1);
      RowTilesSpec(layer, endY, startX, endX);
      var lower := TilesIn(layer, startX, startY, endX, endY - 1);
      var row := RowTiles(layer, endY, startX, endX);
      var all := TilesIn(layer, startX, startY, endX, endY);
      assert all == lower + row;
      forall i | 0 <= i < |all|
        ensures && all[i] == UnitTile(CellAt(all[i]).0, CellAt(all[i]).1)
                && CellAt(all[i]) in layer
                && InSpan(CellAt(all[i]), startX, startY, endX, endY)
      {
        if i >= |lower| {
          var k := i - |lower|;
          assert all[i] == row[k];
          assert row[k] == UnitTile(CellAt(row[k]).0, endY) && CellAt(row[k]).1 == endY;
        } else {
          assert all[i] == lower[i];
        }
      }
    }
  }

  /** The reference query misses no present cell of the span. */
  lemma {:induction false} TilesInComplete(layer: Layer, startX: int, startY: int, endX: int, endY: int)
    ensures TilesComplete(TilesIn(layer, startX, startY, endX, endY), layer, startX, startY, endX, endY)
    decreases endY - startY
  {
    if endY >= startY {
      TilesInComplete(layer, startX, startY, endX, endY - 1);
      RowTilesSpec(layer, endY, startX, endX);
      var lower := TilesIn(layer, startX, startY, endX, endY - 1);
      var row := RowTiles(layer, endY, startX, endX);
      var all := TilesIn(layer, startX, startY, endX, endY);
      assert all == lower + row;
      forall x, y | startX <= x <= endX && startY <= y <= endY && (x, y) in layer
        ensures UnitTile(x, y) in all
      {
        if y < endY {
          assert UnitTile(x, y) in lower;
        } else {
          assert UnitTile(x, y) in row;
        }
      }
    }
  }

  /** The reference query lists rows bottom to top, each left to right. */
  lemma {:induction false} TilesInOrdered(layer: Layer, startX: int, startY: int, endX: int, endY: int)
    ensures RowMajorOrdered(TilesIn(layer, startX, startY, endX, endY))
    decreases endY - startY
  {
    if endY >= startY {
      TilesInOrdered(layer, startX, startY, endX, endY - 1);
      TilesInSound(layer, startX, startY, endX, endY - 1);
      RowTilesSpec(layer, endY, startX, endX);
      var lower := TilesIn(layer, startX, startY, endX, endY - 1);
      var row := RowTiles(layer, endY, startX, endX);
      var all := TilesIn(layer, startX, startY, endX, endY);
      assert all == lower + row;
      forall i, j | 0 <= i < j < |all|
        ensures RowMajorBefore(CellAt(all[i]), CellAt(all[j]))
      {
        if j < |lower| {
          assert all[i] == lower[i] && all[j] == lower[j];
        } else if i < |lower| {
          assert all[i] == lower[i];
          assert all[j] == row[j - |lower|];
        } else {
          assert all[i] == row[i - |lower|];
          assert all[j] == row[j - |lower|];
        }
      }
    }
  }

  /** The reference query answers exactly the present cells of the span,
      in row-major order, and empty whenever start > end on either axis. */
  lemma {:induction false} TilesInSpec(layer: Layer, startX: int, startY: int, endX: int, endY: int)
    ensures IsTileQuery(TilesIn(layer, startX, startY, endX, endY), layer, startX, startY, endX, endY)
    ensures endX < startX || endY < startY ==> TilesIn(layer, startX, startY, endX, endY) == []
  {
    TilesInSound(layer, startX, startY, endX, endY);
    TilesInComplete(layer, startX, startY, endX, endY);
    TilesInOrdered(layer, startX, startY, endX, endY);
    if endX < startX {
      TilesInNoCells(layer, startX, startY, endX, endY);
    }
  }

  /** `getTiles` as the source writes it: y in the outer loop, x in the
      inner loop, appending a unit rectangle for every present cell. */
  method GetTiles(layer: Layer, startX: int, startY: int, endX: int, endY: int)
    returns (tiles: seq<Rect>)
    ensures tiles == TilesIn(layer, startX, startY, endX, endY)
    ensures IsTileQuery(tiles, layer, startX, startY, endX, endY)
  {
    tiles := [];
    var y := startY;
    while y <= endY
      invariant startY <= y
      invariant y <= endY + 1 || y == startY
      invariant tiles == TilesIn(layer, startX, startY, endX, y - 1)
      decreases endY - y
    {
      var x := startX;
      while x <= endX
        invariant startX <= x
        invariant x <= endX + 1 || x == startX
        invariant tiles == TilesIn(layer, startX, startY, endX, y - 1) + RowTiles(layer, y, startX, x - 1)
        decreases endX - x
      {
        if (x, y) in layer {
          tiles := tiles + [UnitTile(x, y)];
        }
        x := x + 1;
      }
      assert RowTiles(layer, y, startX, x - 1) == RowTiles(layer, y, startX, endX);
      y := y + 1;
    }
    TilesInSpec(layer, startX, startY, endX, endY);
  }

  /** Clearing a cell (`setCell(x, y, null)`) loses that cell only and
      leaves every other cell as it was. */
  lemma ClearCell(layer: Layer, c: Cell)
    ensures (layer - {c}).Keys == layer.Keys - {c}
    ensures |layer.Keys - (layer - {c}).Keys| <= 1
    ensures forall d :: d in layer - {c} ==> (layer - {c})[d] == layer[d]
  {
    assert layer.Keys - (layer - {c}).Keys <= {c};
  }

  /** A query never reports a cell that is not in the layer: once a cell is
      cleared, no later query can collide with it. */
  lemma ClearedCellNotQueried(layer: Layer, c: Cell, startX: int, startY: int, endX: int, endY: int)
    requires c !in layer
    ensures forall i :: 0 <= i < |TilesIn(layer, startX, startY, endX, endY)| ==>
              CellAt(TilesIn(layer, startX, startY, endX, endY)[i]) != c
  {
    TilesInSpec(layer, startX, startY, endX, endY);
  }

  lemma {:induction false} RowTilesNoCells(layer: Layer, y: int, startX: int, endX: int)
    requires forall x :: startX <= x <= endX ==> (x, y) !in layer
    ensures RowTiles(layer, y, startX, endX) == []
    decreases endX - startX
  {
    if endX >= startX {
      RowTilesNoCells(layer, y, startX, endX - 1);
    }
  }

  /** A span that holds no cell yields no tiles. */
  lemma {:induction false} TilesInNoCells(layer: Layer, startX: int, startY: int, endX: int, endY: int)
    requires forall x, y :: startX <= x <= endX && startY <= y <= endY ==> (x, y) !in layer
    ensures TilesIn(layer, startX, startY, endX, endY) == []
    decreases endY - startY
  {
    if endY >= startY {
      TilesInNoCells(layer, startX, startY, endX, endY - 1);
      RowTilesNoCells(layer, endY, startX, endX);
    }
  }
}
