/** The picture half of the remote-desktop viewer: tiles are painted into a buffer
    nobody sees, and the shown canvas changes only when a frame ends
    (`beginFrame`, `paintTile`, `endFrame` and `onDeskFrame` in `sites/console/app.js`). */
module DeskView {
  import opened Bytes
  import opened Tiles
  import opened Pictures
  import Wire = DeskWire

  type Canvas = Picture<Rgba>

  const CLEAR := Rgba(0, 0, 0, 0)

  datatype View = View(
    edge: nat, monitor: Byte, geometry: Option<(nat, nat)>, canvas: Canvas, buffer: Canvas,
    sequence: Option<nat>, gaps: nat, asked: nat, open: bool)

  /** The page as it loads: a 16 by 9 placeholder, a buffer of a canvas's default size, and
      no socket. `open` is whether there is one that can be written to. */
  const START := View(0, 0, None, Filled(16, 9, CLEAR), Filled(300, 150, CLEAR), None, 0, 0, false)

  function SequenceGap(previous: Option<nat>, sequence: nat): nat
  {
    if previous == None || sequence <= previous.value + 1 then 0 else sequence - (previous.value + 1)
  }

  /** A whole frame is asked for, if there is anything to ask it on. */
  function Asked(v: View): View
  {
    if v.open then v.(asked := v.asked + 1, sequence := None) else v
  }

  // ---- one message at a time ----

  function Begun(v: View, monitor: Byte, sequence: nat, width: nat, height: nat, keyframe: bool): View
  {
    var begun := v.(monitor := monitor, gaps := v.gaps + SequenceGap(v.sequence, sequence),
                    sequence := Some(sequence), geometry := Some((width, height)));
    if v.canvas.width == width && v.canvas.height == height then begun
    else
      var resized := begun.(canvas := Filled(width, height, CLEAR), buffer := Filled(width, height, CLEAR));
      if keyframe then resized else Asked(resized)
  }

  /** What holds of the two canvases after every message: the buffer covers what is
      shown, its pixels are opaque or were never painted, and nothing is shown where
      nothing was painted. */
  ghost predicate Valid(v: View)
  {
    && Shaped(v.canvas) && Shaped(v.buffer)
    && v.canvas.width <= v.buffer.width && v.canvas.height <= v.buffer.height
    && (v.geometry.Some? ==> v.geometry.value == (v.canvas.width, v.canvas.height))
    && forall x: nat, y: nat | On(v.canvas, x, y) ::
         On(v.buffer, x, y) && (At(v.buffer, x, y).a == 255 || (At(v.buffer, x, y) == CLEAR && At(v.canvas, x, y) == CLEAR))
  }

  /** The rectangle a tile message would paint, if the viewer takes it at all. */
  function Target(v: View, m: Wire.Message): (r: Option<Rect>)
    requires m.Tile?
    ensures Valid(v) && r.Some? ==> Inside(v.canvas, r.value) && Inside(v.buffer, r.value)
  {
    if v.geometry == None || m.monitor != v.monitor || m.encoding == UNCHANGED then None
    else TileBounds(v.edge, v.geometry.value.0, v.geometry.value.1, m.col, m.row)
  }

  function Painted(v: View, m: Wire.Message): View
    requires Valid(v) && m.Tile?
  {
    var target := Target(v, m);
    if target == None then v
    else
      var r := target.value;
      var pixels := Expanded(m.encoding, m.payload, r.w * r.h);
      if pixels == None then v else v.(buffer := Put(v.buffer, r, Screened(pixels.value)))
  }

  /** `drawImage` of the buffer over the canvas: a pixel never painted leaves what is there. */
  function Composite(buffer: Canvas, canvas: Canvas): (out: Canvas)
    requires Shaped(buffer) && Shaped(canvas)
    ensures Shaped(out) && out.width == canvas.width && out.height == canvas.height
  {
    Picture(canvas.width, canvas.height,
            seq(canvas.height, y requires 0 <= y < canvas.height =>
              seq(canvas.width, x requires 0 <= x < canvas.width =>
                if On(buffer, x, y) && At(buffer, x, y).a != 0 then At(buffer, x, y) else At(canvas, x, y))))
  }

  function Ended(v: View): View
    requires Valid(v)
  {
    if v.buffer.width > 0 && v.buffer.height > 0 then v.(canvas := Composite(v.buffer, v.canvas)) else v
  }

  function Apply(v: View, m: Wire.Message): View
    requires Valid(v)
  {
    match m
    case Hello(_, edge, _, _, monitors) => v.(edge := edge, monitor := if monitors == [] then 0 else monitors[0].id)
    case FrameBegin(monitor, sequence, width, height, keyframe) => Begun(v, monitor, sequence, width, height, keyframe)
    case Tile(_, _, _, _, _) => Painted(v, m)
    case FrameEnd(_) => Ended(v)
    case _ => v
  }

  /** One arrival. Bytes that are no message change nothing. */
  function Heard(v: View, bytes: seq<Byte>): View
    requires Valid(v)
  {
    var m := Wire.Decoded(bytes);
    if m == None then v else Apply(v, m.value)
  }

  // ---- every message keeps the canvases in step ----

  lemma BegunValid(v: View, monitor: Byte, sequence: nat, width: nat, height: nat, keyframe: bool)
    requires Valid(v)
    ensures Valid(Begun(v, monitor, sequence, width, height, keyframe))
  {
    if v.canvas.width != width || v.canvas.height != height {
      var clear := Filled(width, height, CLEAR);
      forall x: nat, y: nat | On(clear, x, y) ensures At(clear, x, y) == CLEAR {
      }
    }
  }

  lemma PaintedValid(v: View, m: Wire.Message)
    requires Valid(v) && m.Tile?
    ensures Valid(Painted(v, m))
    ensures Painted(v, m) == v.(buffer := Painted(v, m).buffer)
  {
    var target := Target(v, m);
    if target.Some? {
      var r := target.value;
      var pixels := Expanded(m.encoding, m.payload, r.w * r.h);
      if pixels.Some? {
        var shown := Screened(pixels.value);
        hide Expanded, Target, Put, Screened;
        forall x: nat, y: nat | On(v.canvas, x, y)
          ensures At(Put(v.buffer, r, shown), x, y).a == 255 || At(Put(v.buffer, r, shown), x, y) == At(v.buffer, x, y)
        {
          ShownOpaque(v.buffer, r, pixels.value, x, y);
        }
      }
    }
  }

  lemma ShownOpaque(buffer: Canvas, r: Rect, bgra: seq<Byte>, x: nat, y: nat)
    requires Shaped(buffer) && Inside(buffer, r) && |Screened(bgra)| == r.w * r.h && On(buffer, x, y)
    ensures var now := At(Put(buffer, r, Screened(bgra)), x, y); now.a == 255 || now == At(buffer, x, y)
  {
    PutAt(buffer, r, Screened(bgra), x, y);
    hide Put, Index;
  }

  lemma CompositeAt(buffer: Canvas, canvas: Canvas, x: nat, y: nat)
    requires Shaped(buffer) && Shaped(canvas) && On(canvas, x, y)
    ensures At(Composite(buffer, canvas), x, y)
         == if On(buffer, x, y) && At(buffer, x, y).a != 0 then At(buffer, x, y) else At(canvas, x, y)
  {
  }

  /** At the end of a frame the operator sees exactly what was painted. */
  lemma EndShows(v: View)
    requires Valid(v)
    ensures Valid(Ended(v))
    ensures Ended(v) == v.(canvas := Ended(v).canvas)
    ensures Ended(v).canvas.width == v.canvas.width && Ended(v).canvas.height == v.canvas.height
    ensures forall x: nat, y: nat | On(v.canvas, x, y) :: At(Ended(v).canvas, x, y) == At(v.buffer, x, y)
  {
    if v.buffer.width > 0 && v.buffer.height > 0 {
      var shown := Composite(v.buffer, v.canvas);
      forall x: nat, y: nat | On(v.canvas, x, y) ensures At(shown, x, y) == At(v.buffer, x, y) {
        CompositeAt(v.buffer, v.canvas, x, y);
      }
    }
  }

  lemma ApplyValid(v: View, m: Wire.Message)
    requires Valid(v)
    ensures Valid(Apply(v, m))
  {
    match m
    case FrameBegin(monitor, sequence, width, height, keyframe) => BegunValid(v, monitor, sequence, width, height, keyframe);
    case Tile(_, _, _, _, _) => PaintedValid(v, m);
    case FrameEnd(_) => EndShows(v);
    case _ =>
  }

  // ---- what one message does ----

  /** The start of a frame: its monitor and size are taken, the frames missed are counted,
      and a new size clears both canvases and, if the frame is only a difference, asks for
      a whole one, which forgets the sequence. */
  lemma BeginsExactly(v: View, monitor: Byte, sequence: nat, width: nat, height: nat, keyframe: bool)
    ensures var now := Begun(v, monitor, sequence, width, height, keyframe);
            var fits, missed := v.canvas.width == width && v.canvas.height == height,
                                v.sequence.Some? && sequence > v.sequence.value + 1;
            && now.monitor == monitor && now.geometry == Some((width, height)) && now.edge == v.edge && now.open == v.open
            && now.gaps == (if missed then v.gaps + sequence - v.sequence.value - 1 else v.gaps)
            && (if !fits && !keyframe && v.open then now.asked == v.asked + 1 && now.sequence == None
                else now.asked == v.asked && now.sequence == Some(sequence))
            && (if fits then now.canvas == v.canvas && now.buffer == v.buffer
                else now.canvas == now.buffer == Filled(width, height, Rgba(0, 0, 0, 0)))
  {
  }

  /** A greeting gives the edge of the tiles, and the first monitor is the one watched. */
  lemma HelloExactly(v: View, m: Wire.Message)
    requires Valid(v) && m.Hello?
    ensures Apply(v, m) == v.(edge := m.edge, monitor := if |m.monitors| > 0 then m.monitors[0].id else 0)
  {
  }

  /** A tile before any frame, of another monitor, of the kind that says nothing changed,
      outside the grid, or whose payload is not exactly the tile, paints nothing. */
  lemma TileIgnored(v: View, m: Wire.Message)
    requires Valid(v) && m.Tile?
    requires || v.geometry == None || m.monitor != v.monitor || m.encoding == 2
             || TileBounds(v.edge, v.geometry.value.0, v.geometry.value.1, m.col, m.row) == None
             || var r := TileBounds(v.edge, v.geometry.value.0, v.geometry.value.1, m.col, m.row).value;
                Expanded(m.encoding, m.payload, r.w * r.h) == None
    ensures Apply(v, m) == v
  {
    hide Expanded, TileBounds;
  }

  /** Any other tile paints the buffer inside its rectangle, row by row, with the red, the
      green and the blue of its pixels, opaque, and leaves the rest. */
  lemma TilePaints(v: View, m: Wire.Message, r: Rect, bgra: seq<Byte>, x: nat, y: nat)
    requires Valid(v) && m.Tile? && v.geometry.Some? && m.monitor == v.monitor && m.encoding != 2
    requires TileBounds(v.edge, v.geometry.value.0, v.geometry.value.1, m.col, m.row) == Some(r)
    requires Expanded(m.encoding, m.payload, r.w * r.h) == Some(bgra) && On(v.buffer, x, y)
    ensures Apply(v, m) == v.(buffer := Apply(v, m).buffer) && PaintedAt(v.buffer, Apply(v, m).buffer, r, bgra, x, y)
  {
    assert Target(v, m) == Some(r);
    hide Expanded, TileBounds, Put, Screened, PaintedAt;
    PutPaints(v.buffer, r, bgra, x, y);
  }

  ghost predicate PaintedAt(before: Canvas, after: Canvas, r: Rect, bgra: seq<Byte>, x: nat, y: nat)
    requires Shaped(before) && On(before, x, y)
  {
    && Shaped(after) && On(after, x, y)
    && if r.x <= x < r.x + r.w && r.y <= y < r.y + r.h then
         var k := (y - r.y) * r.w + (x - r.x);
         0 <= k && 4 * k + 3 < |bgra| && At(after, x, y) == Rgba(bgra[4 * k + 2], bgra[4 * k + 1], bgra[4 * k], 255)
       else At(after, x, y) == At(before, x, y)
  }

  lemma PutPaints(buffer: Canvas, r: Rect, bgra: seq<Byte>, x: nat, y: nat)
    requires Shaped(buffer) && Inside(buffer, r) && |bgra| == 4 * (r.w * r.h) && On(buffer, x, y)
    ensures PaintedAt(buffer, Put(buffer, r, Screened(bgra)), r, bgra, x, y)
  {
    PutAt(buffer, r, Screened(bgra), x, y);
    hide Put;
    if Covers(r, x, y) {
      ScreenedAt(bgra, Index(r, x, y));
    }
  }

  lemma ScreenedAt(bgra: seq<Byte>, k: nat)
    requires 4 * k + 3 < |bgra|
    ensures k < |Screened(bgra)| && Screened(bgra)[k] == Rgba(bgra[4 * k + 2], bgra[4 * k + 1], bgra[4 * k], 255)
  {
  }

  // ---- a whole run of arrivals ----

  ghost function HeardAll(v: View, arrivals: seq<seq<Byte>>): (out: View)
    requires Valid(v)
    ensures Valid(out)
  {
    if arrivals == [] then v
    else
      var before := HeardAll(v, arrivals[..|arrivals| - 1]);
      HeardValid(before, arrivals[|arrivals| - 1]);
      Heard(before, arrivals[|arrivals| - 1])
  }

  lemma HeardValid(v: View, bytes: seq<Byte>)
    requires Valid(v)
    ensures Valid(Heard(v, bytes))
  {
    var m := Wire.Decoded(bytes);
    if m.Some? {
      ApplyValid(v, m.value);
    }
  }

  /** Nothing is shown: the state of a canvas that was just resized. */
  predicate AllClear(canvas: Canvas)
  {
    canvas == Filled(canvas.width, canvas.height, CLEAR)
  }

  predicate Ends(bytes: seq<Byte>)
  {
    var m := Wire.Decoded(bytes);
    m.Some? && m.value.FrameEnd?
  }

  /** Between frame ends, however many bytes of whatever kind arrive, the operator
      sees the last ended frame or, after a change of size, an empty canvas: never
      part of a frame. */
  lemma {:induction false} NeverPartlyPainted(v: View, arrivals: seq<seq<Byte>>)
    requires Valid(v)
    requires forall k :: 0 <= k < |arrivals| ==> !Ends(arrivals[k])
    ensures HeardAll(v, arrivals).canvas == v.canvas || AllClear(HeardAll(v, arrivals).canvas)
  {
    if arrivals != [] {
      var last := arrivals[|arrivals| - 1];
      NeverPartlyPainted(v, arrivals[..|arrivals| - 1]);
      assert !Ends(last);
      OneArrival(HeardAll(v, arrivals[..|arrivals| - 1]), last);
    }
  }

  lemma OneArrival(v: View, bytes: seq<Byte>)
    requires Valid(v) && !Ends(bytes)
    ensures Heard(v, bytes).canvas == v.canvas || AllClear(Heard(v, bytes).canvas)
  {
    var m := Wire.Decoded(bytes);
    hide Wire.Decoded;
    if m.Some? && m.value.Tile? {
      PaintedValid(v, m.value);
    }
  }

  // ---- the viewer as it runs ----

  /** The pixels of an `ImageData`. */
  function ImagePixels(bytes: seq<Byte>): (out: seq<Rgba>)
    ensures |out| == |bytes| / 4
  {
    seq(|bytes| / 4, k requires 0 <= k < |bytes| / 4 => CanvasPixel(bytes, k))
  }

  /** The image handed to the canvas is the tile, opaque. */
  lemma ImageIs(bgra: seq<Byte>, image: seq<Byte>)
    requires |image| == |bgra|
    requires forall k :: 0 <= k && 4 * k + 3 < |bgra| ==>
               && image[4 * k] == bgra[4 * k + 2] && image[4 * k + 1] == bgra[4 * k + 1]
               && image[4 * k + 2] == bgra[4 * k] && image[4 * k + 3] == 255
    ensures ImagePixels(image) == Screened(bgra)
  {
    var shown, wanted := ImagePixels(image), Screened(bgra);
    forall k | 0 <= k < |shown| ensures shown[k] == wanted[k] {
      assert 4 * k + 3 < |bgra|;
    }
  }

  /** A tile's payload as image data, if it expands to exactly the tile. */
  method TileImage(encoding: Byte, payload: seq<Byte>, pixels: nat) returns (image: Option<seq<Byte>>)
    ensures var bgra := Expanded(encoding, payload, pixels);
            if bgra == None then image == None else image.Some? && ImagePixels(image.value) == Screened(bgra.value)
  {
    hide Expanded, Screened, ImagePixels;
    var bgra := ExpandTile(encoding, payload, pixels);
    if bgra == None {
      return None;
    }
    var out := ScreenPixels(bgra.value);
    ImageIs(bgra.value, out);
    image := Some(out);
  }

  class DeskViewer {
    var edge: nat
    var monitor: Byte
    var geometry: Option<(nat, nat)>
    var canvas: Canvas
    var buffer: Canvas
    var sequence: Option<nat>
    var gaps: nat
    var asked: nat
    var open: bool

    function Seen(): View
      reads this
    {
      View(edge, monitor, geometry, canvas, buffer, sequence, gaps, asked, open)
    }

    constructor ()
      ensures Seen() == START && Valid(Seen())
      ensures canvas.width == 16 && canvas.height == 9 && buffer.width == 300 && buffer.height == 150 && geometry == None && !open
    {
      edge, monitor, geometry, sequence, gaps, asked, open := 0, 0, None, None, 0, 0, false;
      canvas, buffer := Filled(16, 9, CLEAR), Filled(300, 150, CLEAR);
    }

    method AskFullFrame()
      modifies this
      ensures Seen() == Asked(old(Seen()))
    {
      if !open {
        return;
      }
      asked := asked + 1;
      sequence := None;
    }

    method BeginFrame(frame: Wire.Message)
      requires frame.FrameBegin? && Valid(Seen())
      modifies this
      ensures Seen() == Begun(old(Seen()), frame.monitor, frame.sequence, frame.width, frame.height, frame.keyframe)
      ensures Valid(Seen())
      ensures var resized := old(canvas.width) != frame.width || old(canvas.height) != frame.height;
              if resized && !frame.keyframe && open then asked == old(asked) + 1 && sequence == None
              else asked == old(asked) && sequence == Some(frame.sequence)
    {
      BegunValid(Seen(), frame.monitor, frame.sequence, frame.width, frame.height, frame.keyframe);
      hide Valid, Filled, SequenceGap;
      if frame.monitor != monitor {
        monitor := frame.monitor;
      }
      gaps := gaps + SequenceGap(sequence, frame.sequence);
      sequence := Some(frame.sequence);
      geometry := Some((frame.width, frame.height));
      if canvas.width == frame.width && canvas.height == frame.height {
        return;
      }
      canvas := Filled(frame.width, frame.height, CLEAR);
      buffer := Filled(frame.width, frame.height, CLEAR);
      if !frame.keyframe {
        AskFullFrame();
      }
    }

    method PaintTile(tile: Wire.Message)
      requires tile.Tile? && Valid(Seen())
      modifies this
      ensures Seen() == Painted(old(Seen()), tile)
      ensures Valid(Seen())
    {
      PaintedValid(Seen(), tile);
      hide Expanded, Put, Screened, ImagePixels;
      if geometry == None || tile.monitor != monitor {
        return;
      }
      if tile.encoding == UNCHANGED {
        return;
      }
      var bounds := TileBounds(edge, geometry.value.0, geometry.value.1, tile.col, tile.row);
      if bounds == None {
        return;
      }
      assert bounds == Target(Seen(), tile);
      hide TileBounds, Valid;
      var r := bounds.value;
      var image := TileImage(tile.encoding, tile.payload, r.w * r.h);
      if image == None {
        return;
      }
      buffer := Put(buffer, r, ImagePixels(image.value));
    }

    method EndFrame()
      requires Valid(Seen())
      modifies this
      ensures Seen() == Ended(old(Seen()))
      ensures Valid(Seen())
    {
      EndShows(Seen());
      if buffer.width > 0 && buffer.height > 0 {
        canvas := Composite(buffer, canvas);
      }
    }

    method OnDeskFrame(bytes: seq<Byte>)
      requires Valid(Seen())
      modifies this
      ensures Seen() == Heard(old(Seen()), bytes)
      ensures Valid(Seen())
    {
      HeardValid(Seen(), bytes);
      var message := Wire.DeskMessage(bytes);
      if message == None {
        return;
      }
      hide Wire.Decoded;
      match message.value {
        case Hello(_, e, _, _, monitors) =>
          edge := e;
          monitor := if |monitors| > 0 then monitors[0].id else 0;
        case FrameBegin(_, _, _, _, _) =>
          BeginFrame(message.value);
        case Tile(_, _, _, _, _) =>
          PaintTile(message.value);
        case FrameEnd(_) =>
          EndFrame();
        case _ =>
      }
    }
  }
}
