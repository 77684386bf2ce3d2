/** What the viewer shows after any run of the agent: the theorems about the screen
    replica. A run is any sequence of captured frames, each with whatever the link
    took of it, and of moments at which the agent forgot the client. */
module ReplicaRuns {
  import opened Bytes
  import opened Tiles
  import opened Pictures
  import opened DeskView
  import opened ScreenReplica
  import Wire = DeskWire

  // ---- tiles on the viewer's side and on the agent's ----

  predicate Attuned(v: View, monitor: Byte, edge: nat, cur: Surface)
  {
    v.edge == edge && v.monitor == monitor && v.geometry == Some((cur.width, cur.height))
  }

  /** `w` is `v` with the pixels of these cells painted, and nothing else changed. */
  ghost predicate PaintedOver(v: View, w: View, edge: nat, cur: Surface, cells: set<Cell>)
    requires edge > 0 && Shaped(cur) && Valid(v)
  {
    && Valid(w) && w == v.(buffer := w.buffer) && SameSize(v.canvas, cur)
    && forall x: nat, y: nat | On(cur, x, y) ::
         At(w.buffer, x, y) == if CellOf(edge, x, y) in cells then Opaque(At(cur, x, y)) else At(v.buffer, x, y)
  }

  lemma TileHeard(v: View, monitor: Byte, edge: nat, cur: Surface, c: Cell)
    requires Valid(v) && Attuned(v, monitor, edge, cur)
    requires LegalEdge(edge) && Capturable(cur) && InGrid(edge, cur, c)
    ensures Inside(v.buffer, Bounds(edge, cur, c))
    ensures var tile := Tile(cur, Bounds(edge, cur, c));
            |Screened(Flat(tile))| == |tile|
            && Heard(v, TileBytes(monitor, edge, cur, c)) == v.(buffer := Put(v.buffer, Bounds(edge, cur, c), Screened(Flat(tile))))
  {
    var u, r := UpdateFor(edge, cur, c), Bounds(edge, cur, c);
    var m, tile := TileMessage(monitor, u), Tile(cur, r);
    TileFits(monitor, edge, cur, c);
    Encodable(edge, cur, c);
    TileRoundTrip(tile);
    assert Wire.Decoded(TileBytes(monitor, edge, cur, c)) == Some(m) by { Wire.WireRoundTrip(m); }
    hide Wire.Decoded, Wire.Encode, EncodeTile, Expanded, Tile, Put, Screened;
    assert Target(v, m) == Some(r);
    assert Expanded(m.encoding, m.payload, r.w * r.h) == Some(Flat(tile));
  }

  lemma PaintOne(v: View, monitor: Byte, edge: nat, cur: Surface, c: Cell)
    requires Valid(v) && Attuned(v, monitor, edge, cur)
    requires LegalEdge(edge) && Capturable(cur) && InGrid(edge, cur, c)
    ensures PaintedOver(v, Heard(v, TileBytes(monitor, edge, cur, c)), edge, cur, {c})
  {
    var bytes := TileBytes(monitor, edge, cur, c);
    HeardValid(v, bytes);
    TileHeard(v, monitor, edge, cur, c);
    hide Heard, TileBytes, Tile, Put;
    var r := Bounds(edge, cur, c);
    var tile := Tile(cur, r);
    ScreenedFlat(tile);
    hide Screened, Bounds;
    forall x: nat, y: nat | On(cur, x, y)
      ensures At(Heard(v, bytes).buffer, x, y) == if CellOf(edge, x, y) == c then Opaque(At(cur, x, y)) else At(v.buffer, x, y)
    {
      CellCovers(edge, cur, c, x, y);
      PutAt(v.buffer, r, Screened(Flat(tile)), x, y);
      if CellOf(edge, x, y) == c {
        TileAt(cur, r, x, y);
      }
    }
  }

  function Among(cells: seq<Cell>): set<Cell>
  {
    set c | c in cells
  }

  lemma {:induction false} PaintCells(v: View, monitor: Byte, edge: nat, cur: Surface, cells: seq<Cell>)
    requires Valid(v) && Attuned(v, monitor, edge, cur)
    requires LegalEdge(edge) && Capturable(cur) && AllInGrid(edge, cur, cells)
    ensures PaintedOver(v, HeardAll(v, TilesBytes(monitor, edge, cur, cells)), edge, cur, Among(cells))
  {
    hide PaintedOver, Valid, HeardAll, TilesBytes, TileBytes, Heard, Among, Attuned, InGrid, Capturable, LegalEdge;
    if cells == [] {
      PaintNone(v, monitor, edge, cur);
    } else {
      var front, last := cells[..|cells| - 1], cells[|cells| - 1];
      TilesTurn(v, monitor, edge, cur, cells);
      AmongTurn(cells);
      PaintCells(v, monitor, edge, cur, front);
      PaintNext(v, HeardAll(v, TilesBytes(monitor, edge, cur, front)), monitor, edge, cur, Among(front), last);
    }
  }

  lemma PaintNone(v: View, monitor: Byte, edge: nat, cur: Surface)
    requires Valid(v) && Attuned(v, monitor, edge, cur) && LegalEdge(edge) && Capturable(cur)
    ensures PaintedOver(v, HeardAll(v, TilesBytes(monitor, edge, cur, [])), edge, cur, Among([]))
  {
  }

  lemma AmongTurn(cells: seq<Cell>)
    requires cells != []
    ensures Among(cells) == Among(cells[..|cells| - 1]) + {cells[|cells| - 1]}
  {
    assert cells == cells[..|cells| - 1] + [cells[|cells| - 1]];
  }

  lemma PaintNext(v: View, w: View, monitor: Byte, edge: nat, cur: Surface, cells: set<Cell>, c: Cell)
    requires Valid(v) && Attuned(v, monitor, edge, cur) && LegalEdge(edge) && Capturable(cur) && InGrid(edge, cur, c)
    requires Valid(w) && PaintedOver(v, w, edge, cur, cells)
    ensures PaintedOver(v, Heard(w, TileBytes(monitor, edge, cur, c)), edge, cur, cells + {c})
  {
    assert Attuned(w, monitor, edge, cur) by { hide Valid, On, CellOf; }
    hide PaintedOver, Valid, Heard, TileBytes, Attuned;
    PaintOne(w, monitor, edge, cur, c);
    PaintedMore(v, w, Heard(w, TileBytes(monitor, edge, cur, c)), edge, cur, cells, c);
  }

  lemma TilesTurn(v: View, monitor: Byte, edge: nat, cur: Surface, cells: seq<Cell>)
    requires Valid(v) && LegalEdge(edge) && Capturable(cur) && AllInGrid(edge, cur, cells) && cells != []
    ensures var front, last := cells[..|cells| - 1], cells[|cells| - 1];
            HeardAll(v, TilesBytes(monitor, edge, cur, cells))
            == Heard(HeardAll(v, TilesBytes(monitor, edge, cur, front)), TileBytes(monitor, edge, cur, last))
  {
    hide Valid, Heard, TileBytes;
    var before := TilesBytes(monitor, edge, cur, cells[..|cells| - 1]);
    assert (before + [TileBytes(monitor, edge, cur, cells[|cells| - 1])])[..|before|] == before;
  }

  lemma PaintedMore(v: View, w: View, x: View, edge: nat, cur: Surface, cells: set<Cell>, c: Cell)
    requires edge > 0 && Shaped(cur) && Valid(v) && Valid(w)
    requires PaintedOver(v, w, edge, cur, cells) && PaintedOver(w, x, edge, cur, {c})
    ensures PaintedOver(v, x, edge, cur, cells + {c})
  {
    hide Valid;
  }

  lemma {:induction false} PutCellsAt(model: Surface, edge: nat, cur: Surface, cells: seq<Cell>, x: nat, y: nat)
    requires edge > 0 && Capturable(cur) && Capturable(model) && SameSize(model, cur) && AllInGrid(edge, cur, cells) && On(cur, x, y)
    ensures At(PutCells(model, edge, cur, cells), x, y)
         == if CellOf(edge, x, y) in cells then At(cur, x, y) else At(model, x, y)
  {
    if cells != [] {
      var front, last := cells[..|cells| - 1], cells[|cells| - 1];
      var r := Bounds(edge, cur, last);
      assert cells == front + [last];
      PutCellsAt(model, edge, cur, front, x, y);
      CellCovers(edge, cur, last, x, y);
      PutAt(PutCells(model, edge, cur, front), r, Tile(cur, r), x, y);
      if Covers(r, x, y) {
        TileAt(cur, r, x, y);
      }
    }
  }

  // ---- what the two ends agree on ----

  /** A cell delivered since the model was last reset is painted as the model has it;
      any other is blank in the model, whatever the viewer still shows there. */
  ghost predicate InStep(model: Surface, buffer: Canvas, painted: set<Cell>, edge: nat)
    requires edge > 0 && Shaped(model) && Shaped(buffer)
    requires model.width <= buffer.width && model.height <= buffer.height
  {
    forall x: nat, y: nat | On(model, x, y) ::
      if CellOf(edge, x, y) in painted then At(buffer, x, y) == Opaque(At(model, x, y)) else At(model, x, y) == ZERO
  }

  ghost predicate Synced(a: Agent, v: View, painted: set<Cell>)
  {
    && Ready(a) && Valid(v) && v.edge == a.edge
    && (a.framesSent < Wire.EXACT && v.sequence.Some? ==> v.sequence.value == a.framesSent)
    && (a.model.Some? ==> Attuned(v, a.monitor, a.edge, a.model.value) && InStep(a.model.value, v.buffer, painted, a.edge))
  }

  /** The operator sees everything that was painted. */
  ghost predicate Shown(v: View)
    requires Valid(v)
  {
    forall x: nat, y: nat | On(v.canvas, x, y) :: At(v.canvas, x, y) == At(v.buffer, x, y)
  }

  // ---- one event of a run ----

  datatype Event =
    | Frame(monitor: Byte, cur: Surface, looked: Option<set<Cell>>, link: Link)
    | Forget

  predicate Legal(e: Event)
  {
    e.Frame? ==> Capturable(e.cur)
  }

  function AgentStep(a: Agent, e: Event): (out: Agent)
    requires Ready(a) && Legal(e)
    ensures Ready(out)
  {
    match e
    case Frame(monitor, cur, looked, link) => Sent(a, monitor, cur, looked, link)
    case Forget => Forgot(a)
  }

  function WireStep(a: Agent, e: Event): seq<seq<Byte>>
    requires Ready(a) && Legal(e)
  {
    match e
    case Frame(monitor, cur, looked, link) => OnWire(a, monitor, cur, looked, link)
    case Forget => []
  }

  /** The cells delivered since the model was last reset. */
  function PaintedStep(a: Agent, painted: set<Cell>, e: Event): set<Cell>
    requires Ready(a) && Legal(e)
  {
    match e
    case Frame(monitor, cur, looked, link) =>
      (if Reusable(a, monitor, cur) then painted else {}) + Among(Delivered(a, monitor, cur, looked, link))
    case Forget => {}
  }

  /** Whether the last frame that was begun also ended. */
  predicate ShownStep(a: Agent, shown: bool, e: Event)
    requires Ready(a) && Legal(e)
  {
    if e.Frame? && Starts(a, e.monitor, e.cur, e.looked, e.link) then e.link.end else shown
  }

  lemma BeginHeard(a: Agent, v: View, monitor: Byte, cur: Surface)
    requires Ready(a) && Capturable(cur) && Valid(v)
    ensures Heard(v, BeginBytes(a, monitor, cur))
         == Begun(v, monitor, Wire.Rounded(Next(a.framesSent)), cur.width, cur.height, Decided(a, monitor, cur).keyframe)
    ensures Next(a.framesSent) < Wire.EXACT ==> Wire.Rounded(Next(a.framesSent)) == Next(a.framesSent)
  {
    var m := Wire.FrameBegin(monitor, Next(a.framesSent), cur.width, cur.height, Decided(a, monitor, cur).keyframe);
    assert Wire.Fits(m);
    Wire.WireRoundTrip(m);
    Wire.RoundedExactly(Next(a.framesSent));
    assert Wire.Decoded(BeginBytes(a, monitor, cur)) == Some(Wire.AsNumbers(m));
    hide Wire.Decoded, Wire.Encode, Begun;
  }

  lemma EndHeard(a: Agent, v: View)
    requires Ready(a) && Valid(v)
    ensures Heard(v, EndBytes(a)) == Ended(v)
  {
    var m := Wire.FrameEnd(Next(a.framesSent));
    assert Wire.Fits(m);
    Wire.WireRoundTrip(m);
    assert Wire.Decoded(EndBytes(a)) == Some(Wire.FrameEnd(Wire.Rounded(Next(a.framesSent))));
    hide Wire.Decoded, Wire.Encode, Ended;
  }

  /** A frame begins: the viewer is set for its size, and in step with the picture
      the agent starts it from. */
  lemma BeginStep(a: Agent, v: View, painted: set<Cell>, monitor: Byte, cur: Surface)
    requires Synced(a, v, painted) && Capturable(cur)
    ensures var w := Heard(v, BeginBytes(a, monitor, cur));
            var now := if Reusable(a, monitor, cur) then painted else {};
            && Valid(w) && Attuned(w, monitor, a.edge, cur) && SameSize(w.canvas, cur)
            && InStep(Base(a, monitor, cur), w.buffer, now, a.edge)
            && (Next(a.framesSent) < Wire.EXACT ==> w.sequence == Some(Next(a.framesSent)) && w.gaps == v.gaps)
            && (if SameSize(v.canvas, cur) then w.buffer == v.buffer && w.canvas == v.canvas
                else w.buffer == w.canvas == Filled(cur.width, cur.height, CLEAR))
  {
    var keyframe := Decided(a, monitor, cur).keyframe;
    BeginHeard(a, v, monitor, cur);
    hide Heard, BeginBytes, Wire.Rounded;
    BegunValid(v, monitor, Wire.Rounded(Next(a.framesSent)), cur.width, cur.height, keyframe);
    if !Reusable(a, monitor, cur) {
      assert Base(a, monitor, cur) == Filled(cur.width, cur.height, ZERO) && keyframe;
    }
  }

  lemma {:induction false} HeardAppend(v: View, xs: seq<seq<Byte>>, ys: seq<seq<Byte>>)
    requires Valid(v)
    ensures HeardAll(v, xs + ys) == HeardAll(HeardAll(v, xs), ys)
  {
    if ys == [] {
      assert xs + ys == xs;
    } else {
      var front, last := ys[..|ys| - 1], ys[|ys| - 1];
      assert (xs + ys)[..|xs + ys| - 1] == xs + front && (xs + ys)[|xs + ys| - 1] == last;
      hide Heard;
      HeardAppend(v, xs, front);
    }
  }

  lemma HeardOne(v: View, bytes: seq<Byte>)
    requires Valid(v)
    ensures HeardAll(v, [bytes]) == Heard(v, bytes)
  {
    assert [bytes][..0] == [] && HeardAll(v, []) == v;
    hide Heard;
  }

  /** The viewer in the middle of a frame: its header and the tiles that went out. */
  lemma BodyHeard(a: Agent, v: View, monitor: Byte, cur: Surface, cells: seq<Cell>)
    requires Ready(a) && Valid(v) && Capturable(cur) && AllInGrid(a.edge, cur, cells)
    ensures var begun := Heard(v, BeginBytes(a, monitor, cur));
            Valid(begun)
            && HeardAll(v, [BeginBytes(a, monitor, cur)] + TilesBytes(monitor, a.edge, cur, cells))
               == HeardAll(begun, TilesBytes(monitor, a.edge, cur, cells))
  {
    HeardValid(v, BeginBytes(a, monitor, cur));
    hide BeginBytes, TilesBytes, Heard;
    HeardOne(v, BeginBytes(a, monitor, cur));
    HeardAppend(v, [BeginBytes(a, monitor, cur)], TilesBytes(monitor, a.edge, cur, cells));
  }

  lemma TailHeard(a: Agent, v: View, body: seq<seq<Byte>>, end: bool)
    requires Ready(a) && Valid(v)
    ensures HeardAll(v, body + (if end then [EndBytes(a)] else []))
         == if end then Ended(HeardAll(v, body)) else HeardAll(v, body)
  {
    hide EndBytes, Heard, Ended;
    if end {
      HeardAppend(v, body, [EndBytes(a)]);
      HeardOne(HeardAll(v, body), EndBytes(a));
      EndHeard(a, HeardAll(v, body));
    } else {
      assert body + [] == body;
    }
  }

  /** Painting cells of `cur` on the one side and putting them on the other keeps the
      two in step. */
  lemma TilesInStep(base: Surface, begun: View, w: View, edge: nat, cur: Surface, now: set<Cell>, cells: seq<Cell>)
    requires edge > 0 && Capturable(cur) && Capturable(base) && SameSize(base, cur) && AllInGrid(edge, cur, cells)
    requires Valid(begun) && SameSize(begun.canvas, cur) && InStep(base, begun.buffer, now, edge)
    requires PaintedOver(begun, w, edge, cur, Among(cells))
    ensures InStep(PutCells(base, edge, cur, cells), w.buffer, now + Among(cells), edge)
  {
    var model := PutCells(base, edge, cur, cells);
    hide PutCells;
    forall x: nat, y: nat | On(model, x, y)
      ensures if CellOf(edge, x, y) in now + Among(cells) then At(w.buffer, x, y) == Opaque(At(model, x, y))
              else At(model, x, y) == ZERO
    {
      PutCellsAt(base, edge, cur, cells, x, y);
    }
  }

  /** A cell that was not delivered holds what it held, or nothing if the size changed. */
  ghost predicate Untouched(v: View, w: View, edge: nat, cells: set<Cell>)
    requires edge > 0 && Valid(v) && Valid(w)
  {
    forall x: nat, y: nat | On(w.canvas, x, y) && CellOf(edge, x, y) !in cells ::
      At(w.buffer, x, y) == if SameSize(v.canvas, w.canvas) then At(v.buffer, x, y) else CLEAR
  }

  lemma FrameStep(a: Agent, v: View, painted: set<Cell>, monitor: Byte, cur: Surface, looked: Option<set<Cell>>, link: Link)
    requires Synced(a, v, painted) && Capturable(cur) && Starts(a, monitor, cur, looked, link)
    ensures var e := Frame(monitor, cur, looked, link);
            var w := HeardAll(v, WireStep(a, e));
            && Synced(AgentStep(a, e), w, PaintedStep(a, painted, e))
            && SameSize(w.canvas, cur)
            && (link.end ==> Shown(w))
            && Untouched(v, w, a.edge, Among(Delivered(a, monitor, cur, looked, link)))
            && (AgentStep(a, e).framesSent < Wire.EXACT ==> w.gaps == v.gaps)
  {
    var cells := Delivered(a, monitor, cur, looked, link);
    var now := if Reusable(a, monitor, cur) then painted else {};
    var begun := Heard(v, BeginBytes(a, monitor, cur));
    var body := [BeginBytes(a, monitor, cur)] + TilesBytes(monitor, a.edge, cur, cells);
    var e := Frame(monitor, cur, looked, link);
    var after := AgentStep(a, e);
    assert WireStep(a, e) == body + (if link.end then [EndBytes(a)] else []);
    assert after.model == Some(PutCells(Base(a, monitor, cur), a.edge, cur, cells)) && after.monitor == monitor;
    assert after.framesSent == Next(a.framesSent) && after.edge == a.edge && Ready(after);
    assert PaintedStep(a, painted, e) == now + Among(cells);
    BeginStep(a, v, painted, monitor, cur);
    BodyHeard(a, v, monitor, cur, cells);
    PaintCells(begun, monitor, a.edge, cur, cells);
    TailHeard(a, v, body, link.end);
    var painting := HeardAll(v, body);
    hide Heard, HeardAll, BeginBytes, EndBytes, TilesBytes, Sent, OnWire, Delivered, Offered, Starts, Among;
    hide Decided, PutCells, Base;
    hide AgentStep, WireStep, PaintedStep;
    TilesInStep(Base(a, monitor, cur), begun, painting, a.edge, cur, now, cells);
    EndShows(painting);
    hide Ended;
    FrameEnds(after, v, begun, painting, Ended(painting), cur, now + Among(cells), Among(cells));
  }

  /** Showing the buffer changes nothing the two ends agree on. */
  lemma FrameEnds(after: Agent, v: View, begun: View, painting: View, ended: View, cur: Surface, painted: set<Cell>,
                  cells: set<Cell>)
    requires Ready(after) && Capturable(cur) && after.model.Some? && SameSize(after.model.value, cur)
    requires Valid(v) && Valid(begun) && Valid(painting) && Valid(ended)
    requires Attuned(begun, after.monitor, after.edge, cur) && SameSize(begun.canvas, cur)
    requires after.framesSent < Wire.EXACT ==> begun.sequence == Some(after.framesSent)
    requires begun.buffer == if SameSize(v.canvas, cur) then v.buffer else Filled(cur.width, cur.height, CLEAR)
    requires PaintedOver(begun, painting, after.edge, cur, cells)
    requires InStep(after.model.value, painting.buffer, painted, after.edge)
    requires ended == painting.(canvas := ended.canvas) && SameSize(ended.canvas, painting.canvas)
    requires forall x: nat, y: nat | On(painting.canvas, x, y) :: At(ended.canvas, x, y) == At(painting.buffer, x, y)
    ensures Synced(after, painting, painted) && Synced(after, ended, painted) && Shown(ended)
    ensures Untouched(v, painting, after.edge, cells) && Untouched(v, ended, after.edge, cells)
  {
  }

  lemma StepSynced(a: Agent, v: View, painted: set<Cell>, shown: bool, e: Event)
    requires Synced(a, v, painted) && Legal(e) && (shown ==> Shown(v))
    ensures var w := HeardAll(v, WireStep(a, e));
            && Synced(AgentStep(a, e), w, PaintedStep(a, painted, e))
            && (ShownStep(a, shown, e) ==> Shown(w))
            && (AgentStep(a, e).framesSent < Wire.EXACT ==> w.gaps == v.gaps)
            && a.framesSent <= AgentStep(a, e).framesSent
  {
    if e.Frame? && Starts(a, e.monitor, e.cur, e.looked, e.link) {
      FrameStep(a, v, painted, e.monitor, e.cur, e.looked, e.link);
    } else if e.Frame? {
      hide Offered;
      assert WireStep(a, e) == [] && HeardAll(v, []) == v;
      if Reusable(a, e.monitor, e.cur) {
        NothingDelivered(a, e.monitor, e.cur, e.looked, e.link);
        assert PaintedStep(a, painted, e) == painted;
      }
    } else {
      assert WireStep(a, e) == [] && HeardAll(v, []) == v;
    }
  }

  lemma NothingDelivered(a: Agent, monitor: Byte, cur: Surface, looked: Option<set<Cell>>, link: Link)
    requires Ready(a) && Capturable(cur) && !Starts(a, monitor, cur, looked, link)
    ensures Delivered(a, monitor, cur, looked, link) == []
  {
  }

  // ---- every run ----

  ghost predicate AllLegal(es: seq<Event>)
  {
    forall k :: 0 <= k < |es| ==> Legal(es[k])
  }

  ghost function AgentAfter(a: Agent, es: seq<Event>): (out: Agent)
    requires Ready(a) && AllLegal(es)
    ensures Ready(out)
    decreases |es|
  {
    if es == [] then a else AgentStep(AgentAfter(a, es[..|es| - 1]), es[|es| - 1])
  }

  ghost function WireAfter(a: Agent, es: seq<Event>): seq<seq<Byte>>
    requires Ready(a) && AllLegal(es)
    decreases |es|
  {
    if es == [] then []
    else WireAfter(a, es[..|es| - 1]) + WireStep(AgentAfter(a, es[..|es| - 1]), es[|es| - 1])
  }

  ghost function PaintedAfter(a: Agent, painted: set<Cell>, es: seq<Event>): set<Cell>
    requires Ready(a) && AllLegal(es)
    decreases |es|
  {
    if es == [] then painted
    else PaintedStep(AgentAfter(a, es[..|es| - 1]), PaintedAfter(a, painted, es[..|es| - 1]), es[|es| - 1])
  }

  ghost predicate ShownAfter(a: Agent, shown: bool, es: seq<Event>)
    requires Ready(a) && AllLegal(es)
    decreases |es|
  {
    if es == [] then shown
    else ShownStep(AgentAfter(a, es[..|es| - 1]), ShownAfter(a, shown, es[..|es| - 1]), es[|es| - 1])
  }

  /** After any run, hearing everything that went out: the two ends agree, what was
      painted is shown if the last frame begun was ended, and no gap was counted. */
  lemma {:induction false} RunSynced(a: Agent, v: View, painted: set<Cell>, shown: bool, es: seq<Event>)
    requires Synced(a, v, painted) && AllLegal(es) && (shown ==> Shown(v))
    ensures var w := HeardAll(v, WireAfter(a, es));
            && Synced(AgentAfter(a, es), w, PaintedAfter(a, painted, es))
            && (ShownAfter(a, shown, es) ==> Shown(w))
            && (AgentAfter(a, es).framesSent < Wire.EXACT ==> w.gaps == v.gaps)
            && a.framesSent <= AgentAfter(a, es).framesSent
    decreases |es|
  {
    if es != [] {
      var front, last := es[..|es| - 1], es[|es| - 1];
      RunSynced(a, v, painted, shown, front);
      hide AgentStep, WireStep, PaintedStep, ShownStep, Synced, HeardAll, Shown;
      var mid, before := AgentAfter(a, front), HeardAll(v, WireAfter(a, front));
      StepSynced(mid, before, PaintedAfter(a, painted, front), ShownAfter(a, shown, front), last);
      HeardAppend(v, WireAfter(a, front), WireStep(mid, last));
    }
  }

  // ---- when the picture is the far screen's ----

  /** The far surface as a canvas shows it: opaque, channels swapped. */
  function OpaqueOf(cur: Surface): (out: Canvas)
    requires Shaped(cur)
    ensures Shaped(out) && SameSize(out, cur)
    ensures forall x: nat, y: nat | On(cur, x, y) :: At(out, x, y) == Opaque(At(cur, x, y))
  {
    Picture(cur.width, cur.height,
            seq(cur.height, y requires 0 <= y < cur.height =>
              seq(cur.width, x requires 0 <= x < cur.width => Opaque(At(cur, x, y)))))
  }

  /** The canvas has the surface's size, and at every pixel its red, green and blue, fully
      opaque. */
  ghost predicate Mirrors(canvas: Canvas, cur: Surface)
    requires Shaped(canvas) && Shaped(cur)
  {
    && canvas.width == cur.width && canvas.height == cur.height
    && forall x: nat, y: nat | On(cur, x, y) ::
         && canvas.rows[y][x].r == cur.rows[y][x].r && canvas.rows[y][x].g == cur.rows[y][x].g
         && canvas.rows[y][x].b == cur.rows[y][x].b && canvas.rows[y][x].a == 255
  }

  lemma MirrorsExactly(canvas: Canvas, cur: Surface)
    requires Shaped(canvas) && Shaped(cur)
    ensures canvas == OpaqueOf(cur) <==> Mirrors(canvas, cur)
  {
    var other := OpaqueOf(cur);
    if canvas == other {
      forall x: nat, y: nat | On(cur, x, y)
        ensures && canvas.rows[y][x].r == cur.rows[y][x].r && canvas.rows[y][x].g == cur.rows[y][x].g
                && canvas.rows[y][x].b == cur.rows[y][x].b && canvas.rows[y][x].a == 255
      {
        assert At(other, x, y) == Opaque(At(cur, x, y));
      }
    }
    hide OpaqueOf;
    if Mirrors(canvas, cur) {
      forall x: nat, y: nat | On(canvas, x, y) ensures At(canvas, x, y) == At(other, x, y) {
        assert On(cur, x, y);
      }
      Extensional(canvas, other);
    }
  }

  /** The damage, where it is known, names every cell that differs from the model. */
  ghost predicate DamageCovers(a: Agent, monitor: Byte, cur: Surface, looked: Option<set<Cell>>)
    requires Ready(a) && Capturable(cur)
  {
    Reusable(a, monitor, cur) && looked.Some? ==>
      forall c: Cell | InGrid(a.edge, cur, c) ::
        Tile(a.model.value, Bounds(a.edge, cur, c)) != Tile(cur, Bounds(a.edge, cur, c)) ==> c in looked.value
  }

  /** The link took every tile that was offered. */
  ghost predicate Complete(a: Agent, e: Event)
    requires Ready(a) && Legal(e) && e.Frame?
  {
    && (Offered(a, e.monitor, e.cur, e.looked) == []
        || (e.link.begin && |Offered(a, e.monitor, e.cur, e.looked)| <= e.link.tiles))
    && DamageCovers(a, e.monitor, e.cur, e.looked)
  }

  lemma OfferedIs(a: Agent, monitor: Byte, cur: Surface, looked: Option<set<Cell>>, c: Cell)
    requires Ready(a) && Capturable(cur) && InGrid(a.edge, cur, c)
    ensures c in Offered(a, monitor, cur, looked)
            <==> Differs(Decided(a, monitor, cur).model, cur, a.edge, looked, c)
  {
    SelectIs(Decided(a, monitor, cur).model, cur, a.edge, looked, Grid(a.edge, cur), c);
    GridIs(a.edge, cur, c);
  }

  /** A pixel the frame did not offer is already as the model has it. */
  lemma NotOffered(a: Agent, monitor: Byte, cur: Surface, looked: Option<set<Cell>>, x: nat, y: nat)
    requires Ready(a) && Capturable(cur) && On(cur, x, y) && DamageCovers(a, monitor, cur, looked)
    ensures InGrid(a.edge, cur, CellOf(a.edge, x, y))
    ensures CellOf(a.edge, x, y) !in Offered(a, monitor, cur, looked)
            ==> Reusable(a, monitor, cur) && At(a.model.value, x, y) == At(cur, x, y)
  {
    StripInGrid(a.edge, cur.width, x);
    StripInGrid(a.edge, cur.height, y);
    var c := CellOf(a.edge, x, y);
    OfferedIs(a, monitor, cur, looked, c);
    if c !in Offered(a, monitor, cur, looked) {
      CellCovers(a.edge, cur, c, x, y);
      hide Offered, Tile, Bounds;
      assert Reusable(a, monitor, cur);
      TileSame(a.model.value, cur, Bounds(a.edge, cur, c));
      assert Covers(Bounds(a.edge, cur, c), x, y);
    }
  }

  /** After a complete frame the agent's model is the captured picture itself. */
  lemma Settles(a: Agent, e: Event)
    requires Ready(a) && Legal(e) && e.Frame? && Complete(a, e)
    ensures AgentStep(a, e).model == Some(e.cur) && AgentStep(a, e).monitor == e.monitor
  {
    var offered := Offered(a, e.monitor, e.cur, e.looked);
    hide Offered;
    forall x: nat, y: nat | On(e.cur, x, y)
      ensures CellOf(a.edge, x, y) !in offered ==> Reusable(a, e.monitor, e.cur) && At(a.model.value, x, y) == At(e.cur, x, y)
    {
      NotOffered(a, e.monitor, e.cur, e.looked, x, y);
    }
    hide DamageCovers;
    if offered == [] {
      assert On(e.cur, 0, 0);
      Extensional(a.model.value, e.cur);
    } else {
      assert offered[..|offered|] == offered && Delivered(a, e.monitor, e.cur, e.looked, e.link) == offered;
      var model := PutCells(Base(a, e.monitor, e.cur), a.edge, e.cur, offered);
      hide PutCells;
      forall x: nat, y: nat | On(e.cur, x, y) ensures At(model, x, y) == At(e.cur, x, y) {
        PutCellsAt(Base(a, e.monitor, e.cur), a.edge, e.cur, offered, x, y);
      }
      Extensional(model, e.cur);
    }
  }

  /** When the two ends agree and all is shown, the canvas is the model exactly if
      every cell the viewer was never sent is opaque black. */
  lemma ShowsModel(a: Agent, v: View, painted: set<Cell>)
    requires Synced(a, v, painted) && a.model.Some? && Shown(v)
    ensures v.canvas == OpaqueOf(a.model.value)
            <==> forall x: nat, y: nat | On(v.canvas, x, y) ::
                   CellOf(a.edge, x, y) in painted || At(v.canvas, x, y) == Opaque(ZERO)
  {
    var model := a.model.value;
    var opaque_ := OpaqueOf(model);
    if forall x: nat, y: nat | On(v.canvas, x, y) :: CellOf(a.edge, x, y) in painted || At(v.canvas, x, y) == Opaque(ZERO) {
      forall x: nat, y: nat | On(v.canvas, x, y) ensures At(v.canvas, x, y) == At(opaque_, x, y) {
        assert On(model, x, y);
      }
      Extensional(v.canvas, opaque_);
    } else {
      var x: nat, y: nat :| On(v.canvas, x, y) && CellOf(a.edge, x, y) !in painted && At(v.canvas, x, y) != Opaque(ZERO);
      assert On(model, x, y);
    }
  }

  /** The state of both ends after a run and one more event. */
  lemma AndThen(a: Agent, painted: set<Cell>, shown: bool, es: seq<Event>, e: Event)
    requires Ready(a) && AllLegal(es) && Legal(e)
    ensures AllLegal(es + [e])
    ensures AgentAfter(a, es + [e]) == AgentStep(AgentAfter(a, es), e)
    ensures PaintedAfter(a, painted, es + [e]) == PaintedStep(AgentAfter(a, es), PaintedAfter(a, painted, es), e)
    ensures ShownAfter(a, shown, es + [e]) == ShownStep(AgentAfter(a, es), ShownAfter(a, shown, es), e)
  {
    hide AgentStep, PaintedStep, ShownStep;
    assert (es + [e])[..|es + [e]| - 1] == es;
  }

  /** Before the frame the viewer already had opaque black here, on a screen this size. */
  predicate BlackBefore(before: View, cur: Surface, x: nat, y: nat)
    requires Shaped(before.buffer)
  {
    SameSize(before.canvas, cur) && On(before.buffer, x, y) && At(before.buffer, x, y) == Rgba(0, 0, 0, 255)
  }

  /** A frame leaves a cell it did not deliver black exactly if it was black before. */
  lemma StaysBlack(a: Agent, v: View, painted: set<Cell>, e: Event, x: nat, y: nat)
    requires Synced(a, v, painted) && Legal(e) && e.Frame? && Complete(a, e) && On(e.cur, x, y)
    requires CellOf(a.edge, x, y) !in PaintedStep(a, painted, e)
    ensures var w := HeardAll(v, WireStep(a, e));
            && SameSize(w.canvas, e.cur) && On(w.buffer, x, y)
            && (At(w.buffer, x, y) == Opaque(ZERO) <==> BlackBefore(v, e.cur, x, y))
  {
    var w := HeardAll(v, WireStep(a, e));
    if Starts(a, e.monitor, e.cur, e.looked, e.link) {
      FrameStep(a, v, painted, e.monitor, e.cur, e.looked, e.link);
      assert CellOf(a.edge, x, y) !in Among(Delivered(a, e.monitor, e.cur, e.looked, e.link));
      hide HeardAll, WireStep, AgentStep, PaintedStep, Synced, Delivered, Starts, Complete;
    } else {
      assert WireStep(a, e) == [] && HeardAll(v, []) == v;
      NotOffered(a, e.monitor, e.cur, e.looked, x, y);
      hide HeardAll, WireStep;
    }
  }

  /** The exact condition, over every run, read off what was there before the frame and
      what the frame delivers: after a complete frame that is shown, the canvas is the
      far surface if and only if each of its cells was delivered since the model was
      last reset, or was already opaque black on a screen of this size. A cell that was
      not delivered is blank on the far screen. */
  lemma ReplicaExactly(a: Agent, v: View, shown: bool, es: seq<Event>, e: Event)
    requires Synced(a, v, {}) && (shown ==> Shown(v))
    requires AllLegal(es) && Legal(e) && e.Frame? && Complete(AgentAfter(a, es), e)
    requires AllLegal(es + [e]) && ShownAfter(a, shown, es + [e])
    ensures var before, w := HeardAll(v, WireAfter(a, es)), HeardAll(v, WireAfter(a, es + [e]));
            var painted := PaintedStep(AgentAfter(a, es), PaintedAfter(a, {}, es), e);
            && SameSize(w.canvas, e.cur)
            && (w.canvas == OpaqueOf(e.cur)
                <==> forall x: nat, y: nat | On(e.cur, x, y) :: CellOf(a.edge, x, y) in painted || BlackBefore(before, e.cur, x, y))
            && forall x: nat, y: nat | On(e.cur, x, y) :: CellOf(a.edge, x, y) in painted || At(e.cur, x, y) == ZERO
  {
    var mid, before := AgentAfter(a, es), HeardAll(v, WireAfter(a, es));
    AndThen(a, {}, shown, es, e);
    WireThen(a, es, e);
    RunSynced(a, v, {}, shown, es);
    RunSynced(a, v, {}, shown, es + [e]);
    EdgeStays(a, es);
    HeardAppend(v, WireAfter(a, es), WireStep(mid, e));
    assert Ready(mid) && Valid(v);
    hide *;
    FrameExactly(mid, before, PaintedAfter(a, {}, es), e);
  }

  /** One complete frame, from any state the two ends agree in, if it leaves all shown. */
  lemma FrameExactly(a: Agent, v: View, painted: set<Cell>, e: Event)
    requires Synced(a, v, painted) && Legal(e) && e.Frame? && Complete(a, e)
    requires var w := HeardAll(v, WireStep(a, e)); Synced(AgentStep(a, e), w, PaintedStep(a, painted, e)) && Shown(w)
    ensures var w, now := HeardAll(v, WireStep(a, e)), PaintedStep(a, painted, e);
            && SameSize(w.canvas, e.cur)
            && (w.canvas == OpaqueOf(e.cur)
                <==> forall x: nat, y: nat | On(e.cur, x, y) :: CellOf(a.edge, x, y) in now || BlackBefore(v, e.cur, x, y))
            && forall x: nat, y: nat | On(e.cur, x, y) :: CellOf(a.edge, x, y) in now || At(e.cur, x, y) == ZERO
  {
    var w, now := HeardAll(v, WireStep(a, e)), PaintedStep(a, painted, e);
    Settles(a, e);
    assert AgentStep(a, e).edge == a.edge;
    hide HeardAll, WireStep, AgentStep, PaintedStep, Complete, BlackBefore, OpaqueOf;
    forall x: nat, y: nat | On(e.cur, x, y) && CellOf(a.edge, x, y) !in now
      ensures At(w.canvas, x, y) == Opaque(ZERO) <==> BlackBefore(v, e.cur, x, y)
    {
      StaysBlack(a, v, painted, e, x, y);
    }
    ShowsExactly(AgentStep(a, e), w, now, e.cur, v);
  }

  lemma ShowsExactly(a: Agent, w: View, painted: set<Cell>, cur: Surface, before: View)
    requires Synced(a, w, painted) && Shown(w) && a.model == Some(cur) && Shaped(before.buffer)
    requires forall x: nat, y: nat | On(cur, x, y) && CellOf(a.edge, x, y) !in painted ::
               At(w.canvas, x, y) == Opaque(ZERO) <==> BlackBefore(before, cur, x, y)
    ensures && SameSize(w.canvas, cur)
            && (w.canvas == OpaqueOf(cur)
                <==> forall x: nat, y: nat | On(cur, x, y) :: CellOf(a.edge, x, y) in painted || BlackBefore(before, cur, x, y))
            && forall x: nat, y: nat | On(cur, x, y) :: CellOf(a.edge, x, y) in painted || At(cur, x, y) == ZERO
  {
    ShowsModel(a, w, painted);
    hide BlackBefore, OpaqueOf, Opaque;
  }

  lemma {:induction false} EdgeStays(a: Agent, es: seq<Event>)
    requires Ready(a) && AllLegal(es)
    ensures AgentAfter(a, es).edge == a.edge
    decreases |es|
  {
    if es != [] {
      EdgeStays(a, es[..|es| - 1]);
    }
  }

  /** No keyframe of the run was cut short. */
  ghost predicate Whole(a: Agent, e: Event)
    requires Ready(a) && Legal(e)
  {
    e.Frame? && !Reusable(a, e.monitor, e.cur) && Starts(a, e.monitor, e.cur, e.looked, e.link)
    ==> |Offered(a, e.monitor, e.cur, e.looked)| <= e.link.tiles
  }

  ghost predicate WholeRun(a: Agent, es: seq<Event>)
    requires Ready(a) && AllLegal(es)
    decreases |es|
  {
    es == [] || (WholeRun(a, es[..|es| - 1]) && Whole(AgentAfter(a, es[..|es| - 1]), es[|es| - 1]))
  }

  ghost predicate Covered(a: Agent, painted: set<Cell>)
  {
    a.model.Some? ==> forall c: Cell | InGrid(a.edge, a.model.value, c) :: c in painted
  }

  lemma StepCovered(a: Agent, painted: set<Cell>, e: Event)
    requires Ready(a) && Legal(e) && Whole(a, e) && Covered(a, painted)
    ensures Covered(AgentStep(a, e), PaintedStep(a, painted, e))
  {
    if e.Frame? && Starts(a, e.monitor, e.cur, e.looked, e.link) && !Reusable(a, e.monitor, e.cur) {
      var offered := Offered(a, e.monitor, e.cur, e.looked);
      assert offered[..|offered|] == offered && Delivered(a, e.monitor, e.cur, e.looked, e.link) == offered;
      forall c: Cell | InGrid(a.edge, e.cur, c) ensures c in offered {
        OfferedIs(a, e.monitor, e.cur, e.looked, c);
      }
    }
  }

  lemma {:induction false} RunCovered(a: Agent, painted: set<Cell>, es: seq<Event>)
    requires Ready(a) && AllLegal(es) && WholeRun(a, es) && Covered(a, painted)
    ensures Covered(AgentAfter(a, es), PaintedAfter(a, painted, es))
    decreases |es|
  {
    if es != [] {
      RunCovered(a, painted, es[..|es| - 1]);
      hide Covered, Whole, AgentStep, PaintedStep;
      StepCovered(AgentAfter(a, es[..|es| - 1]), PaintedAfter(a, painted, es[..|es| - 1]), es[|es| - 1]);
    }
  }

  /** The replica: over every run in which no keyframe was cut short, whatever else
      the link refused, a complete frame that is shown leaves the far surface on the
      canvas, pixel for pixel. */
  lemma Replica(a: Agent, v: View, shown: bool, es: seq<Event>, e: Event)
    requires Synced(a, v, {}) && a.model == None && (shown ==> Shown(v))
    requires AllLegal(es) && Legal(e) && e.Frame? && Complete(AgentAfter(a, es), e)
    requires AllLegal(es + [e]) && ShownAfter(a, shown, es + [e]) && WholeRun(a, es + [e])
    ensures HeardAll(v, WireAfter(a, es + [e])).canvas == OpaqueOf(e.cur)
    ensures Mirrors(HeardAll(v, WireAfter(a, es + [e])).canvas, e.cur)
  {
    MirrorsExactly(HeardAll(v, WireAfter(a, es + [e])).canvas, e.cur);
    AndThen(a, {}, shown, es, e);
    Settles(AgentAfter(a, es), e);
    ReplicaExactly(a, v, shown, es, e);
    RunCovered(a, {}, es + [e]);
    EdgeStays(a, es + [e]);
    var w, painted := HeardAll(v, WireAfter(a, es + [e])), PaintedAfter(a, {}, es + [e]);
    hide AgentAfter, WireAfter, PaintedAfter, HeardAll, ShownAfter, AgentStep, PaintedStep, ShownStep, Complete, WholeRun;
    forall x: nat, y: nat | On(e.cur, x, y) ensures CellOf(a.edge, x, y) in painted {
      PixelInGrid(a.edge, e.cur, x, y);
    }
    hide *;
  }

  lemma PixelInGrid(edge: nat, cur: Surface, x: nat, y: nat)
    requires edge > 0 && On(cur, x, y)
    ensures InGrid(edge, cur, CellOf(edge, x, y))
  {
    StripInGrid(edge, cur.width, x);
    StripInGrid(edge, cur.height, y);
  }

  // ---- the failing family ----

  /** A keyframe of a blank picture that the link took no tile of leaves the old
      picture on the canvas, and no later frame of it sends anything at all. */
  lemma CutShort(a: Agent, v: View, painted: set<Cell>, monitor: Byte, cur: Surface, later: Option<set<Cell>>)
    requires Synced(a, v, painted) && Shown(v) && Capturable(cur) && SameSize(v.canvas, cur)
    requires cur == Filled(cur.width, cur.height, ZERO) && !Reusable(a, monitor, cur)
    ensures var e := Frame(monitor, cur, None, Link(true, 0, true));
            && HeardAll(v, WireStep(a, e)).canvas == v.canvas
            && Offered(AgentStep(a, e), monitor, cur, later) == []
  {
    var link := Link(true, 0, true);
    var e := Frame(monitor, cur, None, link);
    assert InGrid(a.edge, cur, (0, 0)) by {
      StripInGrid(a.edge, cur.width, 0);
      StripInGrid(a.edge, cur.height, 0);
    }
    OfferedIs(a, monitor, cur, None, (0, 0));
    assert Starts(a, monitor, cur, None, link) && Delivered(a, monitor, cur, None, link) == [];
    FrameStep(a, v, painted, monitor, cur, None, link);
    var w, after := HeardAll(v, WireStep(a, e)), AgentStep(a, e);
    assert after.model == Some(cur) && after.monitor == monitor && !after.keyframe;
    hide WireStep, AgentStep, HeardAll, Delivered, Starts, Synced;
    assert w.canvas == v.canvas by {
      forall x: nat, y: nat | On(v.canvas, x, y) ensures At(w.canvas, x, y) == At(v.canvas, x, y) {
        assert At(w.buffer, x, y) == At(v.buffer, x, y);
      }
      Extensional(w.canvas, v.canvas);
    }
    NothingMore(after, monitor, cur, later);
  }

  /** An agent whose model is the picture has nothing to offer of it. */
  lemma NothingMore(a: Agent, monitor: Byte, cur: Surface, looked: Option<set<Cell>>)
    requires Ready(a) && Capturable(cur) && Reusable(a, monitor, cur) && a.model == Some(cur)
    ensures Offered(a, monitor, cur, looked) == []
  {
    var offered := Offered(a, monitor, cur, looked);
    hide Offered;
    if offered != [] {
      assert InGrid(a.edge, cur, offered[0]) && offered[0] in offered;
      OfferedIs(a, monitor, cur, looked, offered[0]);
    }
  }

  // ---- frames that are not shown ----

  /** A frame begun whose end the link refused changes nothing the operator sees, or
      clears a canvas of another size. */
  lemma EndRefused(a: Agent, v: View, painted: set<Cell>, e: Event)
    requires Synced(a, v, painted) && Legal(e) && e.Frame? && Starts(a, e.monitor, e.cur, e.looked, e.link) && !e.link.end
    ensures HeardAll(v, WireStep(a, e)).canvas
         == if SameSize(v.canvas, e.cur) then v.canvas else Filled(e.cur.width, e.cur.height, CLEAR)
  {
    var cells := Delivered(a, e.monitor, e.cur, e.looked, e.link);
    var body := [BeginBytes(a, e.monitor, e.cur)] + TilesBytes(e.monitor, a.edge, e.cur, cells);
    assert WireStep(a, e) == body + [] == body;
    BeginStep(a, v, painted, e.monitor, e.cur);
    BodyHeard(a, v, e.monitor, e.cur, cells);
    hide Heard, HeardAll, BeginBytes, TilesBytes, WireStep, Delivered, Starts, Filled, SameSize;
    PaintCells(Heard(v, BeginBytes(a, e.monitor, e.cur)), e.monitor, a.edge, e.cur, cells);
  }

  /** Whether the frame puts anything on the canvas. */
  predicate Shows(a: Agent, e: Event)
    requires Ready(a) && Legal(e) && e.Frame?
  {
    Starts(a, e.monitor, e.cur, e.looked, e.link) && e.link.end
  }

  /** After a frame that is not shown, of any size, whole or cut short, the far surface is
      on the canvas exactly if it was there before. */
  lemma UnshownExactly(a: Agent, v: View, painted: set<Cell>, e: Event)
    requires Synced(a, v, painted) && Legal(e) && e.Frame? && !Shows(a, e)
    ensures HeardAll(v, WireStep(a, e)).canvas == OpaqueOf(e.cur) <==> v.canvas == OpaqueOf(e.cur)
  {
    if Starts(a, e.monitor, e.cur, e.looked, e.link) {
      EndRefused(a, v, painted, e);
      hide HeardAll, WireStep, Starts;
      var empty := Filled(e.cur.width, e.cur.height, CLEAR);
      assert empty != OpaqueOf(e.cur) by {
        assert At(empty, 0, 0) == CLEAR && At(OpaqueOf(e.cur), 0, 0) == Opaque(At(e.cur, 0, 0));
      }
    } else {
      assert WireStep(a, e) == [] && HeardAll(v, []) == v;
    }
  }

  /** A complete frame whose end was lost is not sent again: the agent has nothing more
      to offer of this picture, and the canvas stays as it was, or clear, until some
      later frame is begun and ended. */
  lemma EndLost(a: Agent, v: View, painted: set<Cell>, e: Event, later: Option<set<Cell>>)
    requires Synced(a, v, painted) && Legal(e) && e.Frame? && Complete(a, e) && !e.link.end
    ensures HeardAll(v, WireStep(a, e)).canvas == OpaqueOf(e.cur) <==> v.canvas == OpaqueOf(e.cur)
    ensures Offered(AgentStep(a, e), e.monitor, e.cur, later) == []
  {
    UnshownExactly(a, v, painted, e);
    Settles(a, e);
    var after := AgentStep(a, e);
    assert !after.keyframe by { hide HeardAll, WireStep; }
    hide AgentStep, HeardAll, WireStep, Complete;
    NothingMore(after, e.monitor, e.cur, later);
  }

  /** Over every run, the last frame begun not ended: the far surface is on the canvas
      exactly if it was there before the last frame. */
  lemma UnshownRun(a: Agent, v: View, shown: bool, es: seq<Event>, e: Event)
    requires Synced(a, v, {}) && (shown ==> Shown(v)) && AllLegal(es) && Legal(e) && e.Frame?
    requires AllLegal(es + [e]) && !ShownAfter(a, shown, es + [e])
    ensures HeardAll(v, WireAfter(a, es + [e])).canvas == OpaqueOf(e.cur)
            <==> HeardAll(v, WireAfter(a, es)).canvas == OpaqueOf(e.cur)
  {
    var mid, before := AgentAfter(a, es), HeardAll(v, WireAfter(a, es));
    AndThen(a, {}, shown, es, e);
    assert !Shows(mid, e);
    WireThen(a, es, e);
    RunSynced(a, v, {}, shown, es);
    HeardAppend(v, WireAfter(a, es), WireStep(mid, e));
    hide AgentAfter, WireAfter, PaintedAfter, HeardAll, ShownAfter, WireStep, Shows, Synced;
    UnshownExactly(mid, before, PaintedAfter(a, {}, es), e);
  }

  /** Every complete frame of every run, decided from what was there before it: if the
      last frame begun was ended, by the cells delivered and the cells already black; if
      not, by whether the far surface was on the canvas already. */
  lemma CanvasExactly(a: Agent, v: View, shown: bool, es: seq<Event>, e: Event)
    requires Synced(a, v, {}) && (shown ==> Shown(v))
    requires AllLegal(es) && Legal(e) && e.Frame? && Complete(AgentAfter(a, es), e) && AllLegal(es + [e])
    ensures var before, w := HeardAll(v, WireAfter(a, es)), HeardAll(v, WireAfter(a, es + [e]));
            var painted := PaintedStep(AgentAfter(a, es), PaintedAfter(a, {}, es), e);
            w.canvas == OpaqueOf(e.cur) <==>
            if ShownAfter(a, shown, es + [e])
            then forall x: nat, y: nat | On(e.cur, x, y) :: CellOf(a.edge, x, y) in painted || BlackBefore(before, e.cur, x, y)
            else before.canvas == OpaqueOf(e.cur)
  {
    if ShownAfter(a, shown, es + [e]) {
      ReplicaExactly(a, v, shown, es, e);
    } else {
      UnshownRun(a, v, shown, es, e);
    }
    hide *;
  }

  // ---- from the opening of a session ----

  function Fresh(edge: nat): Agent
  {
    Agent(edge, None, 0, true, 0)
  }

  /** A page that has just loaded and heard the opening statement is in step with an
      agent that has just started. */
  lemma Opening(hello: Wire.Message)
    requires hello.Hello? && Wire.Fits(hello) && LegalEdge(hello.edge)
    ensures Valid(START)
    ensures var v := Heard(START, Wire.Encode(hello));
            Synced(Fresh(hello.edge), v, {}) && Shown(v) && v.canvas == START.canvas && v.buffer == START.buffer
  {
    Wire.WireRoundTrip(hello);
    assert Wire.Decoded(Wire.Encode(hello)) == Some(hello);
    hide Wire.Decoded, Wire.Encode;
  }

  /** `handOver`: everything about the stream is fresh but the pixels, and, if the last
      stream was still up, the display they belong to. */
  function HandedOver(v: View, up: bool): View
  {
    if up then START.(canvas := v.canvas, buffer := v.buffer, geometry := v.geometry, monitor := v.monitor)
    else START.(canvas := v.canvas, buffer := v.buffer)
  }

  lemma HandOverExactly(v: View, up: bool)
    ensures var w := HandedOver(v, up);
            && w.canvas == v.canvas && w.buffer == v.buffer && w.edge == 0 && w.sequence == None && !w.open
            && w.gaps == 0 && w.asked == 0
            && (if up then w.geometry == v.geometry && w.monitor == v.monitor else w.geometry == None && w.monitor == 0)
  {
  }

  /** A later stream of the same page starts in step with a fresh agent as well, with
      the last picture still on the canvas. */
  lemma Reopening(v: View, up: bool, hello: Wire.Message)
    requires Valid(v) && hello.Hello? && Wire.Fits(hello) && LegalEdge(hello.edge)
    ensures Valid(HandedOver(v, up))
    ensures var w := Heard(HandedOver(v, up).(open := true), Wire.Encode(hello));
            Synced(Fresh(hello.edge), w, {}) && w.canvas == v.canvas && w.buffer == v.buffer && (Shown(v) ==> Shown(w))
  {
    Wire.WireRoundTrip(hello);
    assert Wire.Decoded(Wire.Encode(hello)) == Some(hello);
    hide Wire.Decoded, Wire.Encode;
  }

  const RED := Bgra(0, 0, 255, 255)

  /** A session whose picture is wrong for good. A red screen is shown, the client
      asks for a whole frame, the screen has gone blank, and the link takes the
      header but no tile: every later frame of the blank screen is complete, and the
      canvas stays red. */
  lemma StaleRun(a: Agent, v: View, e: Event)
    requires Synced(a, v, {}) && a.model == None && a.edge == 16 && Shown(v)
    requires e == Frame(0, Filled(16, 16, ZERO), None, Link(true, 1, true))
    ensures var red := Frame(0, Filled(16, 16, RED), None, Link(true, 1, true));
            var es := [red] + [Forget] + [e.(link := Link(true, 0, true))];
            && AllLegal(es) && AllLegal(es + [e])
            && Complete(AgentAfter(a, es), e) && ShownAfter(a, true, es + [e])
            && HeardAll(v, WireAfter(a, es + [e])).canvas == OpaqueOf(red.cur) != OpaqueOf(e.cur)
  {
    var red := Frame(0, Filled(16, 16, RED), None, Link(true, 1, true));
    var cut := e.(link := Link(true, 0, true));
    var one, two, three := [red], [red] + [Forget], [red] + [Forget] + [cut];
    RedShown(a, v, red);
    AndThen(a, {}, true, one, Forget);
    AndThen(a, {}, true, two, cut);
    AndThen(a, {}, true, three, e);
    RunSynced(a, v, {}, true, two);
    WireThen(a, one, Forget);
    WireThen(a, two, cut);
    WireThen(a, three, e);
    assert WireAfter(a, one) + [] == WireAfter(a, one);
    var held := AgentAfter(a, two);
    assert held.model == None;
    var w := HeardAll(v, WireAfter(a, two));
    assert w.canvas == OpaqueOf(red.cur);
    CutShort(held, w, PaintedAfter(a, {}, two), 0, e.cur, None);
    HeardAppend(v, WireAfter(a, two), WireStep(held, cut));
    assert Offered(AgentAfter(a, three), 0, e.cur, None) == [];
    assert WireAfter(a, three) + [] == WireAfter(a, three);
    assert At(OpaqueOf(red.cur), 0, 0) == Opaque(RED) && At(OpaqueOf(e.cur), 0, 0) == Opaque(ZERO) by {
      assert On(red.cur, 0, 0) && On(e.cur, 0, 0);
    }
  }

  lemma WireThen(a: Agent, es: seq<Event>, e: Event)
    requires Ready(a) && AllLegal(es) && Legal(e)
    ensures AllLegal(es + [e])
    ensures WireAfter(a, es + [e]) == WireAfter(a, es) + WireStep(AgentAfter(a, es), e)
  {
    hide AgentStep, WireStep;
    assert (es + [e])[..|es + [e]| - 1] == es;
  }

  lemma OneTile(a: Agent, cur: Surface)
    requires Ready(a) && a.model == None && a.edge == 16 && Capturable(cur) && cur.width == 16 && cur.height == 16
    ensures Offered(a, 0, cur, None) == [(0, 0)]
  {
    assert Ceil(16, 16) == 1;
    assert Cells(1, 1) == Cells(1, 0) + [(0, 0)] == [(0, 0)];
    var grid := Grid(16, cur);
    assert grid == [(0, 0)] && grid[..0] == [] && grid[..1] == grid;
    hide Grid, Cells, Bounds, Tile;
    SelectTurn(None, cur, 16, None, grid, 0);
  }

  lemma RedShown(a: Agent, v: View, red: Event)
    requires Synced(a, v, {}) && a.model == None && a.edge == 16 && Shown(v)
    requires red == Frame(0, Filled(16, 16, RED), None, Link(true, 1, true))
    ensures AllLegal([red]) && ShownAfter(a, true, [red])
    ensures HeardAll(v, WireAfter(a, [red])).canvas == OpaqueOf(red.cur)
  {
    OneTile(a, red.cur);
    hide Offered, Filled, HeardAll, WireAfter, Synced, OpaqueOf;
    AndThen(a, {}, true, [], red);
    assert [] + [red] == [red] && [red][..0] == [];
    Replica(a, v, true, [], red);
  }
}
