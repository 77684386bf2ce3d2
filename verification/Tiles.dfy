/** The tile grid and the tile payloads of the desktop stream: the encoder the
    agent runs (`crates/services/desk/src/tiles.rs`) and the decoder the console
    runs (`tileBounds`, `expandTile`, `screenPixels` in `sites/console/app.js`). */
module Tiles {
  import opened Bytes

  datatype Bgra = Bgra(b: Byte, g: Byte, r: Byte, a: Byte)
  datatype Rgba = Rgba(r: Byte, g: Byte, b: Byte, a: Byte)

  const RAW: Byte := 0x00
  const RLE: Byte := 0x01
  const UNCHANGED: Byte := 0x02
  const SOLID: Byte := 0x03
  const MAX_TILE_PIXELS := 16384

  // ---- the grid ----

  datatype Rect = Rect(x: nat, y: nat, w: nat, h: nat)

  function Ceil(size: nat, edge: nat): nat
    requires edge > 0
  {
    (size + edge - 1) / edge
  }

  /** The pixel rectangle a tile covers, clipped to the display, or nothing for a
      coordinate outside the grid. */
  function TileBounds(edge: nat, width: nat, height: nat, col: nat, row: nat): (r: Option<Rect>)
  {
    if edge == 0 || width == 0 || height == 0 then None
    else if col >= Ceil(width, edge) || row >= Ceil(height, edge) then None
    else
      TileInside(edge, width, col);
      TileInside(edge, height, row);
      var x, y := col * edge, row * edge;
      Some(Rect(x, y, Min(edge, width - x), Min(edge, height - y)))
  }

  function Min(a: nat, b: nat): nat
  {
    if a <= b then a else b
  }

  predicate Covers(rect: Rect, x: nat, y: nat)
  {
    rect.x <= x < rect.x + rect.w && rect.y <= y < rect.y + rect.h
  }

  lemma TileInside(edge: nat, size: nat, at: nat)
    requires edge > 0 && at < Ceil(size, edge)
    ensures at * edge < size
  {
    var up := size + edge - 1;
    assert (at + 1) * edge <= (up / edge) * edge <= up by {
      MulOrder(at + 1, up / edge, edge);
      DivBounds(up, edge);
    }
    assert (at + 1) * edge == at * edge + edge;
  }

  lemma MulOrder(a: nat, b: nat, c: nat)
    requires a <= b
    ensures a * c <= b * c
  {
  }

  lemma DivBounds(n: nat, d: nat)
    requires d > 0
    ensures (n / d) * d <= n < (n / d) * d + d
  {
  }

  /** `at` is the strip of width `edge` that holds `p`. */
  lemma StripOf(edge: nat, at: nat, p: nat)
    requires edge > 0
    ensures at * edge <= p < at * edge + edge <==> at == p / edge
  {
    DivBounds(p, edge);
    if at < p / edge {
      MulOrder(at + 1, p / edge, edge);
      assert (at + 1) * edge == at * edge + edge;
    } else if p / edge < at {
      MulOrder(p / edge + 1, at, edge);
      assert (p / edge + 1) * edge == (p / edge) * edge + edge;
    }
  }

  lemma StripInGrid(edge: nat, size: nat, p: nat)
    requires edge > 0 && p < size
    ensures p / edge < Ceil(size, edge)
  {
    var up := size + edge - 1;
    DivBounds(p, edge);
    if p / edge >= up / edge {
      MulOrder(up / edge, p / edge, edge);
      DivBounds(up, edge);
    }
  }

  /** Every pixel of the display lies in exactly one tile: the one its coordinates
      divide to. */
  lemma TilePartition(edge: nat, width: nat, height: nat, x: nat, y: nat, col: nat, row: nat)
    requires edge > 0 && x < width && y < height
    ensures TileBounds(edge, width, height, x / edge, y / edge).Some?
    ensures var bounds := TileBounds(edge, width, height, col, row);
            bounds.Some? && Covers(bounds.value, x, y) <==> col == x / edge && row == y / edge
  {
    StripInGrid(edge, width, x);
    StripInGrid(edge, height, y);
    StripOf(edge, col, x);
    StripOf(edge, row, y);
  }

  /** The widths of the first `n` strips across `size`. */
  function StripSum(edge: nat, size: nat, n: nat): nat
    requires edge > 0 && n <= Ceil(size, edge)
  {
    if n == 0 then 0
    else
      TileInside(edge, size, n - 1);
      StripSum(edge, size, n - 1) + Min(edge, size - (n - 1) * edge)
  }

  lemma {:induction false} StripSumIs(edge: nat, size: nat, n: nat)
    requires edge > 0 && n <= Ceil(size, edge)
    ensures StripSum(edge, size, n) == Min(n * edge, size)
    ensures n == Ceil(size, edge) ==> StripSum(edge, size, n) == size
  {
    if n > 0 {
      StripSumIs(edge, size, n - 1);
      TileInside(edge, size, n - 1);
      assert n * edge == (n - 1) * edge + edge;
      if n == Ceil(size, edge) {
        DivBounds(size + edge - 1, edge);
      }
    } else if size > 0 {
      StripInGrid(edge, size, 0);
    }
  }

  function Area(tile: Option<Rect>): nat
  {
    if tile == None then 0 else tile.value.w * tile.value.h
  }

  /** The areas of the tiles in the first `rows` rows, counted tile by tile. */
  function RowArea(edge: nat, width: nat, height: nat, row: nat, cols: nat): nat
    requires edge > 0 && width > 0 && height > 0 && row < Ceil(height, edge) && cols <= Ceil(width, edge)
  {
    if cols == 0 then 0
    else RowArea(edge, width, height, row, cols - 1) + Area(TileBounds(edge, width, height, cols - 1, row))
  }

  function GridArea(edge: nat, width: nat, height: nat, rows: nat): nat
    requires edge > 0 && width > 0 && height > 0 && rows <= Ceil(height, edge)
  {
    if rows == 0 then 0
    else GridArea(edge, width, height, rows - 1) + RowArea(edge, width, height, rows - 1, Ceil(width, edge))
  }

  lemma {:induction false} RowAreaIs(edge: nat, width: nat, height: nat, row: nat, cols: nat)
    requires edge > 0 && width > 0 && height > 0 && row < Ceil(height, edge) && cols <= Ceil(width, edge)
    ensures row * edge < height
    ensures RowArea(edge, width, height, row, cols) == StripSum(edge, width, cols) * Min(edge, height - row * edge)
  {
    TileInside(edge, height, row);
    if cols > 0 {
      RowAreaIs(edge, width, height, row, cols - 1);
      TileInside(edge, width, cols - 1);
      Distribute(StripSum(edge, width, cols - 1), Min(edge, width - (cols - 1) * edge), Min(edge, height - row * edge));
    }
  }

  lemma Distribute(a: nat, b: nat, c: nat)
    ensures (a + b) * c == a * c + b * c
  {
  }

  lemma {:induction false} GridAreaIs(edge: nat, width: nat, height: nat, rows: nat)
    requires edge > 0 && width > 0 && height > 0 && rows <= Ceil(height, edge)
    ensures GridArea(edge, width, height, rows) == StripSum(edge, height, rows) * width
  {
    if rows > 0 {
      RowAreaIs(edge, width, height, rows - 1, Ceil(width, edge));
      StripSumIs(edge, width, Ceil(width, edge));
      var below, strip := StripSum(edge, height, rows - 1), Min(edge, height - (rows - 1) * edge);
      assert StripSum(edge, height, rows) == below + strip;
      assert GridArea(edge, width, height, rows)
          == GridArea(edge, width, height, rows - 1) + RowArea(edge, width, height, rows - 1, Ceil(width, edge));
      hide *;
      GridAreaIs(edge, width, height, rows - 1);
      Distribute(below, strip, width);
      MulCommutes(strip, width);
    }
  }

  lemma MulCommutes(a: nat, b: nat)
    ensures a * b == b * a
  {
  }

  /** The areas of all the tiles add up to the display's. */
  lemma TileAreas(edge: nat, width: nat, height: nat)
    requires edge > 0 && width > 0 && height > 0
    ensures GridArea(edge, width, height, Ceil(height, edge)) == width * height
  {
    GridAreaIs(edge, width, height, Ceil(height, edge));
    StripSumIs(edge, height, Ceil(height, edge));
    MulCommutes(width, height);
  }

  // ---- tight BGRA ----

  function Flat(pixels: seq<Bgra>): (bytes: seq<Byte>)
    ensures |bytes| == 4 * |pixels|
  {
    if pixels == [] then []
    else [pixels[0].b, pixels[0].g, pixels[0].r, pixels[0].a] + Flat(pixels[1..])
  }

  lemma {:induction false} FlatAppend(xs: seq<Bgra>, ys: seq<Bgra>)
    ensures Flat(xs + ys) == Flat(xs) + Flat(ys)
  {
    if xs == [] {
      assert xs + ys == ys;
    } else {
      var head := [xs[0].b, xs[0].g, xs[0].r, xs[0].a];
      calc {
        Flat(xs + ys);
      ==  { assert (xs + ys)[1..] == xs[1..] + ys; }
        head + Flat(xs[1..] + ys);
      ==  { FlatAppend(xs[1..], ys); }
        head + (Flat(xs[1..]) + Flat(ys));
      ==  { SeqAssociative(head, Flat(xs[1..]), Flat(ys)); }
        Flat(xs) + Flat(ys);
      }
    }
  }

  lemma {:induction false} FlatAt(pixels: seq<Bgra>, k: nat)
    requires k < |pixels|
    ensures Flat(pixels)[4 * k] == pixels[k].b && Flat(pixels)[4 * k + 1] == pixels[k].g
    ensures Flat(pixels)[4 * k + 2] == pixels[k].r && Flat(pixels)[4 * k + 3] == pixels[k].a
  {
    if k > 0 {
      FlatAt(pixels[1..], k - 1);
      assert Flat(pixels)[4..] == Flat(pixels[1..]);
    }
  }

  // ---- the encoder ----

  function Copies(p: Bgra, n: nat): (s: seq<Bgra>)
    ensures |s| == n
  {
    seq(n, _ => p)
  }

  predicate Uniform(tile: seq<Bgra>)
  {
    forall k :: 0 <= k < |tile| ==> tile[k] == tile[0]
  }

  /** `count` copies of `current` are pending; `rest` has not been read. */
  function RleFrom(current: Bgra, count: nat, rest: seq<Bgra>): seq<Byte>
    requires 0 < count < 256
    decreases |rest|
  {
    if rest == [] then [count] + Flat([current])
    else if rest[0] == current && count < 255 then RleFrom(current, count + 1, rest[1..])
    else [count] + Flat([current]) + RleFrom(rest[0], 1, rest[1..])
  }

  function Rle(tile: seq<Bgra>): seq<Byte>
  {
    if tile == [] then [] else RleFrom(tile[0], 1, tile[1..])
  }

  /** Whichever of the encodings is smallest, or nothing for a tile that is empty or
      larger than any legal one. */
  function EncodeTile(tile: seq<Bgra>): Option<(Byte, seq<Byte>)>
  {
    if tile == [] || |tile| > MAX_TILE_PIXELS then None
    else if Uniform(tile) then Some((SOLID, Flat(tile[..1])))
    else if |Rle(tile)| < 4 * |tile| then Some((RLE, Rle(tile)))
    else Some((RAW, Flat(tile)))
  }

  method RleEncode(tile: seq<Bgra>) returns (out: seq<Byte>)
    ensures out == Rle(tile)
  {
    out := [];
    if tile == [] {
      return;
    }
    var current, count := tile[0], 1;
    var i := 1;
    while i < |tile|
      invariant 1 <= i <= |tile| && 0 < count < 256
      invariant out + RleFrom(current, count, tile[i..]) == Rle(tile)
    {
      assert tile[i..][0] == tile[i] && tile[i..][1..] == tile[i + 1..];
      if tile[i] == current && count < 255 {
        count := count + 1;
      } else {
        SeqAssociative(out, [count] + Flat([current]), RleFrom(tile[i], 1, tile[i + 1..]));
        out := out + ([count] + Flat([current]));
        current, count := tile[i], 1;
      }
      i := i + 1;
    }
    assert tile[i..] == [];
    out := out + ([count] + Flat([current]));
  }

  // ---- the decoder ----

  function Repeat(payload: seq<Byte>, at: nat, n: nat): (out: seq<Byte>)
    requires at + 4 <= |payload|
    ensures |out| == 4 * n
  {
    if n == 0 then [] else payload[at..at + 4] + Repeat(payload, at, n - 1)
  }

  /** The runs from `read` on, which must fill exactly `needed` bytes. */
  function Runs(payload: seq<Byte>, read: nat, needed: nat): (r: Option<seq<Byte>>)
    requires read <= |payload| && (|payload| - read) % 5 == 0
    ensures r.Some? ==> |r.value| == needed
    decreases |payload| - read
  {
    if read == |payload| then (if needed == 0 then Some([]) else None)
    else
      var count: nat := payload[read];
      if count == 0 || count * 4 > needed then None
      else
        var rest := Runs(payload, read + 5, needed - count * 4);
        if rest.None? then None else Some(Repeat(payload, read + 1, count) + rest.value)
  }

  /** A payload expanded to tight BGRA, or nothing for anything that does not come
      to exactly the pixels the grid says are there. */
  function Expanded(encoding: Byte, payload: seq<Byte>, pixels: nat): (r: Option<seq<Byte>>)
    ensures r.Some? ==> pixels > 0 && |r.value| == 4 * pixels
  {
    if pixels == 0 then None
    else if encoding == RAW then (if |payload| == 4 * pixels then Some(payload) else None)
    else if encoding == SOLID then (if |payload| == 4 then Some(Repeat(payload, 0, pixels)) else None)
    else if encoding == RLE then
      (if |payload| == 0 || |payload| % 5 != 0 then None else Runs(payload, 0, 4 * pixels))
    else None
  }

  lemma {:induction false} RepeatIsCopies(payload: seq<Byte>, at: nat, n: nat, p: Bgra)
    requires at + 4 <= |payload| && payload[at..at + 4] == Flat([p])
    ensures Repeat(payload, at, n) == Flat(Copies(p, n))
  {
    if n > 0 {
      RepeatIsCopies(payload, at, n - 1, p);
      assert Copies(p, n) == [p] + Copies(p, n - 1);
      assert Copies(p, n)[1..] == Copies(p, n - 1);
      assert Flat([p]) == [p.b, p.g, p.r, p.a];
    }
  }

  /** Reading the runs written from some point on gives back what was pending and
      everything after it. */
  lemma {:induction false} RunsInvert(done: seq<Byte>, current: Bgra, count: nat, rest: seq<Bgra>)
    requires 0 < count < 256
    ensures |RleFrom(current, count, rest)| % 5 == 0 && |RleFrom(current, count, rest)| > 0
    ensures Runs(done + RleFrom(current, count, rest), |done|, 4 * (count + |rest|)) == Some(Flat(Copies(current, count) + rest))
    decreases |rest|
  {
    var record := [count] + Flat([current]);
    hide Runs, Flat, Repeat;
    if rest == [] {
      RunsRecord(done, record, [], current, count, 4 * count);
      assert record + [] == record && Copies(current, count) + rest == Copies(current, count);
      assert Flat(Copies(current, count)) + [] == Flat(Copies(current, count));
    } else if rest[0] == current && count < 255 {
      RunsInvert(done, current, count + 1, rest[1..]);
      assert Copies(current, count + 1) + rest[1..] == Copies(current, count) + rest;
    } else {
      var more := RleFrom(rest[0], 1, rest[1..]);
      assert RleFrom(current, count, rest) == record + more && Copies(rest[0], 1) + rest[1..] == rest;
      hide *;
      RunsInvert(done + record, rest[0], 1, rest[1..]);
      RunsRecord(done, record, more, current, count, 4 * (count + |rest|));
      SeqAssociative(done, record, more);
      FlatAppend(Copies(current, count), rest);
    }
  }

  /** One record read off the front. */
  lemma RunsRecord(done: seq<Byte>, record: seq<Byte>, more: seq<Byte>, p: Bgra, count: nat, needed: nat)
    requires 0 < count < 256 && record == [count] + Flat([p]) && |more| % 5 == 0 && count * 4 <= needed
    ensures |record| == 5
    ensures var payload := done + (record + more);
            var rest := Runs(payload, |done| + 5, needed - count * 4);
            Runs(payload, |done|, needed) == if rest.None? then None else Some(Flat(Copies(p, count)) + rest.value)
    ensures more == [] && needed == count * 4 ==> Runs(done + (record + more), |done| + 5, 0) == Some([])
  {
    var payload := done + (record + more);
    assert Flat([p]) == [p.b, p.g, p.r, p.a];
    assert payload[|done|] == count && payload[|done| + 1..|done| + 5] == Flat([p]);
    RepeatIsCopies(payload, |done| + 1, count, p);
  }

  /** The console's decoder inverts the agent's encoder: whatever encoding it chose. */
  lemma TileRoundTrip(tile: seq<Bgra>)
    requires 0 < |tile| <= MAX_TILE_PIXELS
    ensures EncodeTile(tile).Some?
    ensures var (encoding, payload) := EncodeTile(tile).value;
            encoding != UNCHANGED && Expanded(encoding, payload, |tile|) == Some(Flat(tile))
  {
    if Uniform(tile) {
      SolidRoundTrip(tile);
    } else {
      RleRoundTrip(tile);
    }
  }

  /** The encoding chosen is no longer than either of the others. */
  lemma EncodeSmallest(tile: seq<Bgra>)
    requires 0 < |tile| <= MAX_TILE_PIXELS
    ensures EncodeTile(tile).Some?
    ensures var payload := EncodeTile(tile).value.1; |payload| <= |Rle(tile)| && |payload| <= |Flat(tile)|
    ensures Uniform(tile) ==> EncodeTile(tile).value.0 == SOLID && |EncodeTile(tile).value.1| == 4
  {
    RunsInvert([], tile[0], 1, tile[1..]);
  }

  lemma SolidRoundTrip(tile: seq<Bgra>)
    requires tile != [] && Uniform(tile)
    ensures Expanded(SOLID, Flat(tile[..1]), |tile|) == Some(Flat(tile))
  {
    assert tile == Copies(tile[0], |tile|) && tile[..1] == [tile[0]];
    assert Flat(tile[..1])[0..4] == Flat([tile[0]]);
    RepeatIsCopies(Flat(tile[..1]), 0, |tile|, tile[0]);
  }

  lemma RleRoundTrip(tile: seq<Bgra>)
    requires tile != []
    ensures Expanded(RLE, Rle(tile), |tile|) == Some(Flat(tile))
  {
    RunsInvert([], tile[0], 1, tile[1..]);
    assert [] + Rle(tile) == Rle(tile);
    assert Copies(tile[0], 1) + tile[1..] == tile;
  }

  method ExpandTile(encoding: Byte, payload: seq<Byte>, pixels: nat) returns (r: Option<seq<Byte>>)
    ensures r == Expanded(encoding, payload, pixels)
  {
    if pixels == 0 {
      return None;
    }
    var needed := pixels * 4;
    if encoding == RAW {
      return if |payload| == needed then Some(payload) else None;
    }
    if encoding == SOLID {
      if |payload| != 4 {
        return None;
      }
      var out := FillPixel(payload, 0, pixels);
      return Some(out);
    }
    if encoding == RLE {
      if |payload| == 0 || |payload| % 5 != 0 {
        return None;
      }
      var runs := ExpandRuns(payload, needed);
      return runs;
    }
    return None;
  }

  lemma RunsTurn(payload: seq<Byte>, read: nat, needed: nat)
    requires read <= |payload| && (|payload| - read) % 5 == 0
    ensures if read == |payload| then Runs(payload, read, needed) == if needed == 0 then Some([]) else None
            else var count: nat := payload[read];
                 if count == 0 || count * 4 > needed then Runs(payload, read, needed) == None
                 else var rest := Runs(payload, read + 5, needed - count * 4);
                      Runs(payload, read, needed)
                      == if rest.None? then None else Some(Repeat(payload, read + 1, count) + rest.value)
  {
  }

  /** What the decoder has to return, given what it has written and what is left. */
  function Behind(out: seq<Byte>, rest: Option<seq<Byte>>): Option<seq<Byte>>
  {
    if rest.None? then None else Some(out + rest.value)
  }

  method ExpandRuns(payload: seq<Byte>, needed: nat) returns (r: Option<seq<Byte>>)
    requires |payload| % 5 == 0
    ensures r == Runs(payload, 0, needed)
  {
    hide Runs, Repeat;
    var out: seq<Byte> := [];
    var read := 0;
    ghost var goal := Runs(payload, 0, needed);
    assert goal.Some? ==> [] + goal.value == goal.value;
    while read < |payload|
      invariant 0 <= read <= |payload| && (|payload| - read) % 5 == 0 && |out| <= needed
      invariant goal == Behind(out, Runs(payload, read, needed - |out|))
    {
      RunsTurn(payload, read, needed - |out|);
      var count: nat := payload[read];
      if count == 0 {
        return None;
      }
      if |out| + count * 4 > needed {
        return None;
      }
      var run := FillPixel(payload, read + 1, count);
      BehindTurn(out, run, Runs(payload, read + 5, needed - |out| - count * 4));
      out := out + run;
      read := read + 5;
    }
    RunsTurn(payload, read, needed - |out|);
    assert out + [] == out;
    r := if |out| == needed then Some(out) else None;
  }

  lemma BehindTurn(out: seq<Byte>, run: seq<Byte>, rest: Option<seq<Byte>>)
    ensures Behind(out, Behind(run, rest)) == Behind(out + run, rest)
  {
    if rest.Some? {
      SeqAssociative(out, run, rest.value);
    }
  }

  method FillPixel(payload: seq<Byte>, at: nat, n: nat) returns (out: seq<Byte>)
    requires at + 4 <= |payload|
    ensures out == Repeat(payload, at, n)
  {
    out := [];
    for k := 0 to n
      invariant out == Repeat(payload, at, k)
    {
      out := payload[at..at + 4] + out;
    }
  }

  /** One run, record and pixels: a count of at most 255, then blue, green, red and alpha. */
  lemma RunRecord(p: Bgra, n: nat)
    requires 0 < n <= 255
    ensures Rle(Copies(p, n)) == [n, p.b, p.g, p.r, p.a]
    ensures Expanded(1, [n, p.b, p.g, p.r, p.a], n) == Some(Flat(Copies(p, n)))
  {
    RunFrom(p, 1, n);
    assert Copies(p, n)[1..] == Copies(p, n - 1) && Copies(p, n)[0] == p;
    RleRoundTrip(Copies(p, n));
  }

  lemma {:induction false} RunFrom(p: Bgra, count: nat, n: nat)
    requires 0 < count <= n <= 255
    ensures RleFrom(p, count, Copies(p, n - count)) == [n, p.b, p.g, p.r, p.a]
    decreases n - count
  {
    assert Flat([p]) == [p.b, p.g, p.r, p.a];
    if count < n {
      var rest := Copies(p, n - count);
      assert rest[0] == p && rest[1..] == Copies(p, n - (count + 1));
      RunFrom(p, count + 1, n);
    }
  }

  /** Which payloads of the two plain encodings expand, and to what. */
  lemma ExpandsExactly(payload: seq<Byte>, pixels: nat)
    requires pixels > 0
    ensures Expanded(0, payload, pixels) == if |payload| == 4 * pixels then Some(payload) else None
    ensures Expanded(3, payload, pixels).Some? <==> |payload| == 4
    ensures |payload| == 4 ==> forall j :: 0 <= j < 4 * pixels ==> Expanded(3, payload, pixels).value[j] == payload[j % 4]
    ensures Expanded(2, payload, pixels) == None
    ensures forall code: Byte :: code > 3 ==> Expanded(code, payload, pixels) == None
  {
    if |payload| == 4 {
      RepeatAt(payload, pixels);
    }
  }

  lemma {:induction false} RepeatAt(payload: seq<Byte>, n: nat)
    requires |payload| == 4
    ensures forall j :: 0 <= j < 4 * n ==> Repeat(payload, 0, n)[j] == payload[j % 4]
  {
    if n > 0 {
      RepeatAt(payload, n - 1);
      assert payload[0..4] == payload;
      forall j | 0 <= j < 4 * n ensures Repeat(payload, 0, n)[j] == payload[j % 4] {
        if j >= 4 {
          assert Repeat(payload, 0, n)[j] == Repeat(payload, 0, n - 1)[j - 4] && (j - 4) % 4 == j % 4;
        }
      }
    }
  }

  /** Which encoding a tile gets: 3 if all of it is one pixel, 1 if the runs are shorter
      than the pixels, 0 otherwise; none for no pixels or more than 16384. */
  lemma ChoosesExactly(tile: seq<Bgra>)
    ensures EncodeTile(tile) == None <==> tile == [] || |tile| > 16384
    ensures EncodeTile(tile).Some? ==>
              var (code, payload) := EncodeTile(tile).value;
              && (code == 3 <==> forall k :: 0 <= k < |tile| ==> tile[k] == tile[0])
              && (code == 3 ==> payload == [tile[0].b, tile[0].g, tile[0].r, tile[0].a])
              && (code == 1 ==> payload == Rle(tile) && |payload| < 4 * |tile|)
              && (code != 3 && code != 1 ==> code == 0 && payload == Flat(tile) && |Rle(tile)| >= 4 * |tile|)
  {
    if tile != [] {
      assert Flat(tile[..1]) == [tile[0].b, tile[0].g, tile[0].r, tile[0].a];
    }
  }

  // ---- what the canvas is given ----

  function Opaque(p: Bgra): Rgba
  {
    Rgba(p.r, p.g, p.b, 255)
  }

  /** Pixel `k` of a tight RGBA buffer, as a canvas reads it. */
  function CanvasPixel(bytes: seq<Byte>, k: nat): Rgba
    requires 4 * k + 3 < |bytes|
  {
    Rgba(bytes[4 * k], bytes[4 * k + 1], bytes[4 * k + 2], bytes[4 * k + 3])
  }

  /** Tight BGRA as the RGBA a canvas takes, forced opaque. */
  method ScreenPixels(bgra: seq<Byte>) returns (out: seq<Byte>)
    ensures |out| == |bgra|
    ensures forall k :: 0 <= k && 4 * k + 3 < |bgra| ==>
              && out[4 * k] == bgra[4 * k + 2] && out[4 * k + 1] == bgra[4 * k + 1]
              && out[4 * k + 2] == bgra[4 * k] && out[4 * k + 3] == 255
    ensures forall j :: |bgra| / 4 * 4 <= j < |bgra| ==> out[j] == 0
  {
    var pixels := new Byte[|bgra|](_ => 0);
    var at := 0;
    while at + 3 < |bgra|
      invariant 0 <= at <= |bgra| && at % 4 == 0
      invariant forall k :: 0 <= k && 4 * k + 3 < at ==>
                  && pixels[4 * k] == bgra[4 * k + 2] && pixels[4 * k + 1] == bgra[4 * k + 1]
                  && pixels[4 * k + 2] == bgra[4 * k] && pixels[4 * k + 3] == 255
      invariant forall j :: at <= j < |bgra| ==> pixels[j] == 0
    {
      pixels[at], pixels[at + 1], pixels[at + 2], pixels[at + 3] := bgra[at + 2], bgra[at + 1], bgra[at], 255;
      at := at + 4;
    }
    out := pixels[..];
  }

  function Screened(bgra: seq<Byte>): (out: seq<Rgba>)
    ensures |out| == |bgra| / 4
  {
    seq(|bgra| / 4, k requires 0 <= k < |bgra| / 4 => Opaque(Bgra(bgra[4 * k], bgra[4 * k + 1], bgra[4 * k + 2], bgra[4 * k + 3])))
  }

  lemma ScreenedFlat(pixels: seq<Bgra>)
    ensures |Screened(Flat(pixels))| == |pixels|
    ensures forall k :: 0 <= k < |pixels| ==> Screened(Flat(pixels))[k] == Opaque(pixels[k])
  {
    forall k | 0 <= k < |pixels| ensures Screened(Flat(pixels))[k] == Opaque(pixels[k]) {
      FlatAt(pixels, k);
    }
  }
}
