/** Rectangular pictures and the two ways a rectangle of one is moved: `tile` copies
    it out row by row, `put_tile` writes it back (`Surface` in
    `crates/services/desk/src/tiles.rs`). The console's canvases are pictures too. */
module Pictures {
  import opened Bytes
  import opened Tiles

  datatype Picture<T> = Picture(width: nat, height: nat, rows: seq<seq<T>>)

  predicate Shaped<T>(p: Picture<T>)
  {
    |p.rows| == p.height && forall y :: 0 <= y < p.height ==> |p.rows[y]| == p.width
  }

  predicate On<T>(p: Picture<T>, x: nat, y: nat)
  {
    x < p.width && y < p.height
  }

  function At<T>(p: Picture<T>, x: nat, y: nat): T
    requires Shaped(p) && On(p, x, y)
  {
    p.rows[y][x]
  }

  predicate Inside<T>(p: Picture<T>, r: Rect)
  {
    r.x + r.w <= p.width && r.y + r.h <= p.height
  }

  /** A picture of one colour. */
  function Filled<T>(width: nat, height: nat, v: T): (p: Picture<T>)
    ensures Shaped(p) && p.width == width && p.height == height
    ensures forall x: nat, y: nat :: On(p, x, y) ==> At(p, x, y) == v
  {
    Picture(width, height, seq(height, y => seq(width, x => v)))
  }

  lemma Extensional<T>(p: Picture<T>, q: Picture<T>)
    requires Shaped(p) && Shaped(q) && p.width == q.width && p.height == q.height
    requires forall x: nat, y: nat :: On(p, x, y) ==> At(p, x, y) == At(q, x, y)
    ensures p == q
  {
    forall y: nat | y < p.height ensures p.rows[y] == q.rows[y] {
      forall x: nat | x < p.width ensures p.rows[y][x] == q.rows[y][x] {
        assert On(p, x, y) && At(p, x, y) == At(q, x, y);
      }
    }
  }

  /** The first `n` rows of a rectangle, one after another. */
  function TileRows<T>(p: Picture<T>, r: Rect, n: nat): (out: seq<T>)
    requires Shaped(p) && Inside(p, r) && n <= r.h
    ensures |out| == n * r.w
  {
    if n == 0 then []
    else
      assert n * r.w == (n - 1) * r.w + r.w;
      TileRows(p, r, n - 1) + p.rows[r.y + n - 1][r.x..r.x + r.w]
  }

  function Tile<T>(p: Picture<T>, r: Rect): (out: seq<T>)
    requires Shaped(p) && Inside(p, r)
    ensures |out| == r.w * r.h
  {
    MulCommutes(r.w, r.h);
    TileRows(p, r, r.h)
  }

  lemma Slot(w: nat, h: nat, i: nat, j: nat)
    requires i < w && j < h
    ensures 0 <= j * w && j * w + i < h * w && (j + 1) * w == j * w + w <= h * w
  {
    MulOrder(j + 1, h, w);
  }

  /** Where a pixel of a rectangle lies in its flat form. */
  function Index(r: Rect, x: nat, y: nat): (k: nat)
    requires Covers(r, x, y)
    ensures k < r.w * r.h
  {
    Slot(r.w, r.h, x - r.x, y - r.y);
    MulCommutes(r.w, r.h);
    (y - r.y) * r.w + (x - r.x)
  }

  lemma {:induction false} TileRowAt<T>(p: Picture<T>, r: Rect, n: nat, i: nat, j: nat)
    requires Shaped(p) && Inside(p, r) && i < r.w && j < n <= r.h
    ensures j * r.w + i < n * r.w && TileRows(p, r, n)[j * r.w + i] == p.rows[r.y + j][r.x + i]
  {
    var before, last := TileRows(p, r, n - 1), p.rows[r.y + n - 1][r.x..r.x + r.w];
    assert TileRows(p, r, n) == before + last;
    hide TileRows;
    Slot(r.w, n, i, j);
    if j < n - 1 {
      TileRowAt(p, r, n - 1, i, j);
    } else {
      SecondPart(before, last, j * r.w + i, i);
    }
  }

  lemma SecondPart<T>(a: seq<T>, b: seq<T>, k: nat, i: nat)
    requires k == |a| + i && i < |b|
    ensures (a + b)[k] == b[i]
  {
  }

  lemma TileAt<T>(p: Picture<T>, r: Rect, x: nat, y: nat)
    requires Shaped(p) && Inside(p, r) && Covers(r, x, y)
    ensures Tile(p, r)[Index(r, x, y)] == At(p, x, y)
  {
    TileRowAt(p, r, r.h, x - r.x, y - r.y);
    MulCommutes(r.w, r.h);
  }

  /** Two copies are the same exactly when the pictures agree on the rectangle. */
  lemma TileSame<T>(p: Picture<T>, q: Picture<T>, r: Rect)
    requires Shaped(p) && Shaped(q) && Inside(p, r) && Inside(q, r)
    ensures Tile(p, r) == Tile(q, r)
            <==> forall x: nat, y: nat | Covers(r, x, y) :: At(p, x, y) == At(q, x, y)
  {
    if Tile(p, r) == Tile(q, r) {
      forall x: nat, y: nat | Covers(r, x, y) ensures At(p, x, y) == At(q, x, y) {
        TileAt(p, r, x, y);
        TileAt(q, r, x, y);
      }
    } else if forall x: nat, y: nat | Covers(r, x, y) :: At(p, x, y) == At(q, x, y) {
      RowsSame(p, q, r, r.h);
    }
  }

  lemma {:induction false} RowsSame<T>(p: Picture<T>, q: Picture<T>, r: Rect, n: nat)
    requires Shaped(p) && Shaped(q) && Inside(p, r) && Inside(q, r) && n <= r.h
    requires forall x: nat, y: nat | Covers(r, x, y) :: At(p, x, y) == At(q, x, y)
    ensures TileRows(p, r, n) == TileRows(q, r, n)
  {
    if n > 0 {
      RowsSame(p, q, r, n - 1);
      RowSame(p, q, r, r.y + n - 1);
    }
  }

  lemma RowSame<T>(p: Picture<T>, q: Picture<T>, r: Rect, y: nat)
    requires Shaped(p) && Shaped(q) && Inside(p, r) && Inside(q, r) && r.y <= y < r.y + r.h
    requires forall x: nat, y: nat | Covers(r, x, y) :: At(p, x, y) == At(q, x, y)
    ensures p.rows[y][r.x..r.x + r.w] == q.rows[y][r.x..r.x + r.w]
  {
    var here, there := p.rows[y][r.x..r.x + r.w], q.rows[y][r.x..r.x + r.w];
    forall i | 0 <= i < r.w ensures here[i] == there[i] {
      assert Covers(r, r.x + i, y) && At(p, r.x + i, y) == At(q, r.x + i, y);
    }
  }

  /** One row of a picture after a rectangle was written into it. */
  function PutRow<T>(row: seq<T>, y: nat, r: Rect, pixels: seq<T>): (out: seq<T>)
    requires r.x + r.w <= |row| && |pixels| == r.w * r.h
    ensures |out| == |row|
  {
    if r.y <= y < r.y + r.h then
      RowSlots(r, y);
      row[..r.x] + pixels[(y - r.y) * r.w..(y - r.y + 1) * r.w] + row[r.x + r.w..]
    else row
  }

  lemma RowSlots(r: Rect, y: nat)
    requires r.y <= y < r.y + r.h
    ensures 0 <= (y - r.y) * r.w <= (y - r.y + 1) * r.w <= r.w * r.h
    ensures (y - r.y + 1) * r.w - (y - r.y) * r.w == r.w
  {
    MulOrder(y - r.y + 1, r.h, r.w);
    MulCommutes(r.w, r.h);
    assert (y - r.y + 1) * r.w == (y - r.y) * r.w + r.w;
  }

  /** The picture with the rectangle replaced. */
  function Put<T>(p: Picture<T>, r: Rect, pixels: seq<T>): (q: Picture<T>)
    requires Shaped(p) && Inside(p, r) && |pixels| == r.w * r.h
    ensures Shaped(q) && q.width == p.width && q.height == p.height
  {
    Picture(p.width, p.height, seq(p.height, y requires 0 <= y < p.height => PutRow(p.rows[y], y, r, pixels)))
  }

  lemma PutAt<T>(p: Picture<T>, r: Rect, pixels: seq<T>, x: nat, y: nat)
    requires Shaped(p) && Inside(p, r) && |pixels| == r.w * r.h && On(p, x, y)
    ensures At(Put(p, r, pixels), x, y) == if Covers(r, x, y) then pixels[Index(r, x, y)] else At(p, x, y)
  {
    var row := p.rows[y];
    assert At(Put(p, r, pixels), x, y) == PutRow(row, y, r, pixels)[x];
    if r.y <= y < r.y + r.h {
      RowSlots(r, y);
      var middle := pixels[(y - r.y) * r.w..(y - r.y + 1) * r.w];
      assert PutRow(row, y, r, pixels) == row[..r.x] + middle + row[r.x + r.w..];
      if Covers(r, x, y) {
        assert middle[x - r.x] == pixels[Index(r, x, y)];
      }
    }
  }

  /** Copying a rectangle back where it came from changes nothing, and a copy put
      down reads back as itself. */
  lemma TilePut<T>(p: Picture<T>, r: Rect, q: Picture<T>)
    requires Shaped(p) && Shaped(q) && Inside(p, r) && Inside(q, r)
    ensures Tile(Put(p, r, Tile(q, r)), r) == Tile(q, r)
    ensures Put(p, r, Tile(p, r)) == p
  {
    var put, same := Put(p, r, Tile(q, r)), Put(p, r, Tile(p, r));
    forall x: nat, y: nat | Covers(r, x, y) ensures At(put, x, y) == At(q, x, y) {
      PutAt(p, r, Tile(q, r), x, y);
      TileAt(q, r, x, y);
    }
    TileSame(put, q, r);
    forall x: nat, y: nat | On(p, x, y) ensures At(same, x, y) == At(p, x, y) {
      PutAt(p, r, Tile(p, r), x, y);
      if Covers(r, x, y) {
        TileAt(p, r, x, y);
      }
    }
    Extensional(same, p);
  }

  /** `Surface::tile`: refused outside the surface. */
  method CopyTile<T>(p: Picture<T>, r: Rect) returns (out: Option<seq<T>>)
    requires Shaped(p)
    ensures out == if Inside(p, r) then Some(Tile(p, r)) else None
  {
    if r.x + r.w > p.width || r.y + r.h > p.height {
      return None;
    }
    var pixels: seq<T> := [];
    for row := 0 to r.h
      invariant pixels == TileRows(p, r, row)
    {
      pixels := pixels + p.rows[r.y + row][r.x..r.x + r.w];
    }
    out := Some(pixels);
  }

  /** `Surface::put_tile`: refused outside the surface or with the wrong number of pixels. */
  method PutTile<T>(p: Picture<T>, r: Rect, pixels: seq<T>) returns (q: Option<Picture<T>>)
    requires Shaped(p)
    ensures q == if Inside(p, r) && |pixels| == r.w * r.h then Some(Put(p, r, pixels)) else None
  {
    if r.x + r.w > p.width || r.y + r.h > p.height || |pixels| != r.w * r.h {
      return None;
    }
    var rows := p.rows;
    for row := 0 to r.h
      invariant |rows| == p.height
      invariant forall y :: 0 <= y < r.y + row ==> rows[y] == PutRow(p.rows[y], y, r, pixels)
      invariant forall y :: r.y + row <= y < p.height ==> rows[y] == p.rows[y]
    {
      var y := r.y + row;
      RowSlots(r, y);
      rows := rows[y := rows[y][..r.x] + pixels[row * r.w..(row + 1) * r.w] + rows[y][r.x + r.w..]];
    }
    q := Some(Picture(p.width, p.height, rows));
    assert rows == Put(p, r, pixels).rows;
  }
}
