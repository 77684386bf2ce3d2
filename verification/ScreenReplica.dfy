/** The agent's half of the desktop stream (`send_frame`, `changed_tiles` and
    `request_full_frame` in `crates/services/screen/src/agent.rs`), and what the
    viewer's canvas shows after any run of it: a replica of the far screen kept by
    differences, over a link that may stop taking messages at any point of a frame. */
module ScreenReplica {
  import opened Bytes
  import opened Tiles
  import opened Pictures
  import D = Damage
  import Wire = DeskWire

  type Surface = Picture<Bgra>
  type Cell = (nat, nat)

  const ZERO := Bgra(0, 0, 0, 0)
  const MAX_SIDE := 32768

  /** What the agent remembers: the picture it believes the client holds. */
  datatype Agent = Agent(edge: nat, model: Option<Surface>, monitor: Byte, keyframe: bool, framesSent: nat)

  /** What the link takes of one frame: the header, so many tiles, the end. */
  datatype Link = Link(begin: bool, tiles: nat, end: bool)

  predicate LegalEdge(edge: nat)
  {
    edge == 16 || edge == 32 || edge == 64 || edge == 128
  }

  predicate Capturable(cur: Surface)
  {
    Shaped(cur) && 0 < cur.width <= MAX_SIDE && 0 < cur.height <= MAX_SIDE
  }

  predicate SameSize<S, T>(p: Picture<S>, q: Picture<T>)
  {
    p.width == q.width && p.height == q.height
  }

  ghost predicate Ready(a: Agent)
  {
    && LegalEdge(a.edge) && a.framesSent < Wire.U64
    && (a.keyframe <==> a.model.None?)
    && (a.model.Some? ==> Capturable(a.model.value))
  }

  // ---- the grid of a surface ----

  function Cells(cols: nat, rows: nat): seq<Cell>
  {
    if rows == 0 then [] else Cells(cols, rows - 1) + seq(cols, k requires 0 <= k < cols => (k, rows - 1))
  }

  lemma {:induction false} CellsAre(cols: nat, rows: nat, c: Cell)
    ensures c in Cells(cols, rows) <==> c.0 < cols && c.1 < rows
  {
    if rows > 0 {
      CellsAre(cols, rows - 1, c);
      var line: seq<Cell> := seq(cols, k requires 0 <= k < cols => (k, rows - 1));
      if c.0 < cols && c.1 == rows - 1 {
        assert line[c.0] == c;
      }
    }
  }

  predicate InGrid(edge: nat, cur: Surface, c: Cell)
  {
    edge > 0 && cur.width > 0 && cur.height > 0 && c.0 < Ceil(cur.width, edge) && c.1 < Ceil(cur.height, edge)
  }

  function Bounds(edge: nat, cur: Surface, c: Cell): (r: Rect)
    requires InGrid(edge, cur, c)
    ensures Inside(cur, r) && 0 < r.w <= edge && 0 < r.h <= edge
  {
    TileInside(edge, cur.width, c.0);
    TileInside(edge, cur.height, c.1);
    TileBounds(edge, cur.width, cur.height, c.0, c.1).value
  }

  function CellOf(edge: nat, x: nat, y: nat): Cell
    requires edge > 0
  {
    (x / edge, y / edge)
  }

  lemma CellCovers(edge: nat, cur: Surface, c: Cell, x: nat, y: nat)
    requires InGrid(edge, cur, c) && On(cur, x, y)
    ensures Covers(Bounds(edge, cur, c), x, y) <==> c == CellOf(edge, x, y)
    ensures InGrid(edge, cur, CellOf(edge, x, y))
  {
    TilePartition(edge, cur.width, cur.height, x, y, c.0, c.1);
  }

  predicate AllInGrid(edge: nat, cur: Surface, cells: seq<Cell>)
  {
    forall k :: 0 <= k < |cells| ==> InGrid(edge, cur, cells[k])
  }

  function Grid(edge: nat, cur: Surface): (cells: seq<Cell>)
    requires edge > 0 && Capturable(cur)
    ensures AllInGrid(edge, cur, cells)
  {
    var cols, rows := Ceil(cur.width, edge), Ceil(cur.height, edge);
    assert AllInGrid(edge, cur, Cells(cols, rows)) by {
      forall k | 0 <= k < |Cells(cols, rows)| ensures InGrid(edge, cur, Cells(cols, rows)[k]) {
        CellsAre(cols, rows, Cells(cols, rows)[k]);
      }
    }
    Cells(cols, rows)
  }

  lemma GridIs(edge: nat, cur: Surface, c: Cell)
    requires edge > 0 && Capturable(cur)
    ensures c in Grid(edge, cur) <==> InGrid(edge, cur, c)
  {
    CellsAre(Ceil(cur.width, edge), Ceil(cur.height, edge), c);
  }

  // ---- which tiles a frame offers ----

  predicate Comparable(previous: Option<Surface>, cur: Surface)
  {
    Capturable(cur) && (previous.Some? ==> Capturable(previous.value) && SameSize(previous.value, cur))
  }

  /** A tile is offered when there is nothing to compare with, or when it was looked
      at and is not what the client holds. `looked` is the damage, if it is known. */
  predicate Differs(previous: Option<Surface>, cur: Surface, edge: nat, looked: Option<set<Cell>>, c: Cell)
    requires Comparable(previous, cur) && InGrid(edge, cur, c)
  {
    previous == None
    || ((looked == None || c in looked.value)
        && Tile(previous.value, Bounds(edge, cur, c)) != Tile(cur, Bounds(edge, cur, c)))
  }

  function Select(previous: Option<Surface>, cur: Surface, edge: nat, looked: Option<set<Cell>>, cells: seq<Cell>)
    : (out: seq<Cell>)
    requires Comparable(previous, cur) && AllInGrid(edge, cur, cells)
    ensures AllInGrid(edge, cur, out)
  {
    if cells == [] then []
    else
      var kept, last := Select(previous, cur, edge, looked, cells[..|cells| - 1]), cells[|cells| - 1];
      if Differs(previous, cur, edge, looked, last) then kept + [last] else kept
  }

  lemma {:induction false} SelectIs(previous: Option<Surface>, cur: Surface, edge: nat, looked: Option<set<Cell>>,
                                    cells: seq<Cell>, c: Cell)
    requires Comparable(previous, cur) && AllInGrid(edge, cur, cells) && InGrid(edge, cur, c)
    ensures c in Select(previous, cur, edge, looked, cells) <==> c in cells && Differs(previous, cur, edge, looked, c)
  {
    if cells != [] {
      hide Differs;
      var front, last := cells[..|cells| - 1], cells[|cells| - 1];
      assert cells == front + [last];
      SelectIs(previous, cur, edge, looked, front, c);
    }
  }

  datatype Update = Update(cell: Cell, encoding: Byte, payload: seq<Byte>)

  /** A legal tile always has an encoding, no longer than its pixels. */
  lemma Encodable(edge: nat, cur: Surface, c: Cell)
    requires LegalEdge(edge) && Capturable(cur) && InGrid(edge, cur, c)
    ensures var tile := Tile(cur, Bounds(edge, cur, c));
            0 < |tile| <= MAX_TILE_PIXELS && EncodeTile(tile).Some? && |EncodeTile(tile).value.1| <= 4 * |tile|
  {
    var r := Bounds(edge, cur, c);
    MulOrder(r.w, edge, r.h);
    MulOrder(r.h, edge, edge);
    MulCommutes(edge, r.h);
    MulPositive(r.w, r.h);
  }

  lemma MulPositive(a: nat, b: nat)
    requires a > 0 && b > 0
    ensures a * b > 0
  {
  }

  function UpdateFor(edge: nat, cur: Surface, c: Cell): (u: Update)
    requires LegalEdge(edge) && Capturable(cur) && InGrid(edge, cur, c)
    ensures u.cell == c && |u.payload| <= 4 * MAX_TILE_PIXELS
  {
    Encodable(edge, cur, c);
    var (encoding, payload) := EncodeTile(Tile(cur, Bounds(edge, cur, c))).value;
    Update(c, encoding, payload)
  }

  /** One update for each of these cells, in their order. */
  predicate Described(updates: seq<Update>, edge: nat, cur: Surface, cells: seq<Cell>)
    requires LegalEdge(edge) && Capturable(cur)
  {
    AllInGrid(edge, cur, cells) && |updates| == |cells|
    && forall k :: 0 <= k < |cells| ==> updates[k] == UpdateFor(edge, cur, cells[k])
  }

  lemma DescribedTurn(updates: seq<Update>, edge: nat, cur: Surface, cells: seq<Cell>, c: Cell)
    requires LegalEdge(edge) && Capturable(cur) && InGrid(edge, cur, c)
    requires Described(updates, edge, cur, cells)
    ensures Described(updates + [UpdateFor(edge, cur, c)], edge, cur, cells + [c])
  {
    hide UpdateFor, InGrid, Capturable;
  }

  lemma SelectTurn(previous: Option<Surface>, cur: Surface, edge: nat, looked: Option<set<Cell>>, cells: seq<Cell>, k: nat)
    requires Comparable(previous, cur) && AllInGrid(edge, cur, cells) && k < |cells|
    ensures Select(previous, cur, edge, looked, cells[..k + 1])
         == Select(previous, cur, edge, looked, cells[..k])
            + (if Differs(previous, cur, edge, looked, cells[k]) then [cells[k]] else [])
  {
    hide Differs;
    assert cells[..k + 1][..k] == cells[..k];
  }

  method ChangedTile(previous: Option<Surface>, cur: Surface, edge: nat, looked: Option<set<Cell>>, c: Cell)
    returns (u: Option<Update>)
    requires LegalEdge(edge) && Comparable(previous, cur) && InGrid(edge, cur, c)
    ensures u == if Differs(previous, cur, edge, looked, c) then Some(UpdateFor(edge, cur, c)) else None
  {
    var bounds := Bounds(edge, cur, c);
    var tile := CopyTile(cur, bounds);
    if previous.Some? {
      if looked.Some? && c !in looked.value {
        return None;
      }
      var held := CopyTile(previous.value, bounds);
      if held == tile {
        return None;
      }
    }
    Encodable(edge, cur, c);
    var (encoding, payload) := EncodeTile(tile.value).value;
    u := Some(Update(c, encoding, payload));
  }

  /** `diff` and the damage-driven form of it: one update for every cell selected. */
  method ChangedTiles(previous: Option<Surface>, cur: Surface, edge: nat, looked: Option<set<Cell>>)
    returns (updates: seq<Update>)
    requires LegalEdge(edge) && Comparable(previous, cur)
    ensures Described(updates, edge, cur, Select(previous, cur, edge, looked, Grid(edge, cur)))
  {
    updates := [];
    var grid := Grid(edge, cur);
    assert Select(previous, cur, edge, looked, grid[..0]) == [];
    hide Select, Grid, Differs, UpdateFor, Described, InGrid, Capturable;
    for k := 0 to |grid|
      invariant Described(updates, edge, cur, Select(previous, cur, edge, looked, grid[..k]))
    {
      SelectTurn(previous, cur, edge, looked, grid, k);
      var u := ChangedTile(previous, cur, edge, looked, grid[k]);
      if u.Some? {
        DescribedTurn(updates, edge, cur, Select(previous, cur, edge, looked, grid[..k]), grid[k]);
        updates := updates + [u.value];
      }
    }
    assert grid[..|grid|] == grid;
  }

  // ---- one frame ----

  function TileMessage(monitor: Byte, u: Update): Wire.Message
  {
    Wire.Tile(monitor, u.cell.0, u.cell.1, u.encoding, u.payload)
  }

  lemma TileFits(monitor: Byte, edge: nat, cur: Surface, c: Cell)
    requires LegalEdge(edge) && Capturable(cur) && InGrid(edge, cur, c)
    ensures Wire.Fits(TileMessage(monitor, UpdateFor(edge, cur, c)))
  {
    var u := UpdateFor(edge, cur, c);
    TileInside(edge, cur.width, c.0);
    TileInside(edge, cur.height, c.1);
    MulOrder(1, edge, c.0);
    MulOrder(1, edge, c.1);
    MulCommutes(edge, c.0);
    MulCommutes(edge, c.1);
  }

  function TileBytes(monitor: Byte, edge: nat, cur: Surface, c: Cell): seq<Byte>
    requires LegalEdge(edge) && Capturable(cur) && InGrid(edge, cur, c)
  {
    TileFits(monitor, edge, cur, c);
    Wire.Encode(TileMessage(monitor, UpdateFor(edge, cur, c)))
  }

  function TilesBytes(monitor: Byte, edge: nat, cur: Surface, cells: seq<Cell>): (out: seq<seq<Byte>>)
    requires LegalEdge(edge) && Capturable(cur) && AllInGrid(edge, cur, cells)
    ensures |out| == |cells|
  {
    if cells == [] then []
    else TilesBytes(monitor, edge, cur, cells[..|cells| - 1]) + [TileBytes(monitor, edge, cur, cells[|cells| - 1])]
  }

  /** The client model after tiles of `cur` went out. */
  function PutCells(model: Surface, edge: nat, cur: Surface, cells: seq<Cell>): (out: Surface)
    requires Capturable(cur) && Capturable(model) && SameSize(model, cur) && AllInGrid(edge, cur, cells)
    ensures Capturable(out) && SameSize(out, cur)
  {
    if cells == [] then model
    else
      var r := Bounds(edge, cur, cells[|cells| - 1]);
      Put(PutCells(model, edge, cur, cells[..|cells| - 1]), r, Tile(cur, r))
  }

  predicate Reusable(a: Agent, monitor: Byte, cur: Surface)
  {
    a.model.Some? && a.monitor == monitor && SameSize(a.model.value, cur) && !a.keyframe
  }

  function Forgot(a: Agent): Agent
  {
    a.(model := None, keyframe := true)
  }

  /** The agent once it has decided whether its model describes this picture. */
  function Decided(a: Agent, monitor: Byte, cur: Surface): (d: Agent)
    requires Ready(a) && Capturable(cur)
    ensures Ready(d) && Comparable(d.model, cur) && d.monitor == monitor && d.edge == a.edge && d.framesSent == a.framesSent
  {
    if Reusable(a, monitor, cur) then a else Forgot(a).(monitor := monitor)
  }

  function Offered(a: Agent, monitor: Byte, cur: Surface, looked: Option<set<Cell>>): (cells: seq<Cell>)
    requires Ready(a) && Capturable(cur)
    ensures AllInGrid(a.edge, cur, cells)
  {
    Select(Decided(a, monitor, cur).model, cur, a.edge, looked, Grid(a.edge, cur))
  }

  function Next(framesSent: nat): nat
  {
    if framesSent + 1 < Wire.U64 then framesSent + 1 else framesSent
  }

  function BeginBytes(a: Agent, monitor: Byte, cur: Surface): seq<Byte>
    requires Ready(a) && Capturable(cur)
  {
    Wire.Encode(Wire.FrameBegin(monitor, Next(a.framesSent), cur.width, cur.height, Decided(a, monitor, cur).keyframe))
  }

  function EndBytes(a: Agent): seq<Byte>
    requires Ready(a)
  {
    Wire.Encode(Wire.FrameEnd(Next(a.framesSent)))
  }

  /** The cells a frame delivers: those the link took of those it offers. */
  function Delivered(a: Agent, monitor: Byte, cur: Surface, looked: Option<set<Cell>>, link: Link): (cells: seq<Cell>)
    requires Ready(a) && Capturable(cur)
    ensures AllInGrid(a.edge, cur, cells)
    ensures |cells| <= link.tiles && cells <= Offered(a, monitor, cur, looked)
  {
    var offered := Offered(a, monitor, cur, looked);
    if link.begin then offered[..Min(link.tiles, |offered|)] else []
  }

  predicate Starts(a: Agent, monitor: Byte, cur: Surface, looked: Option<set<Cell>>, link: Link)
    requires Ready(a) && Capturable(cur)
  {
    Offered(a, monitor, cur, looked) != [] && link.begin
  }

  /** The picture the model starts a frame from. */
  function Base(a: Agent, monitor: Byte, cur: Surface): (model: Surface)
    requires Ready(a) && Capturable(cur)
    ensures Capturable(model) && SameSize(model, cur)
  {
    var d := Decided(a, monitor, cur);
    if d.model.Some? then d.model.value else Filled(cur.width, cur.height, ZERO)
  }

  function Sent(a: Agent, monitor: Byte, cur: Surface, looked: Option<set<Cell>>, link: Link): (out: Agent)
    requires Ready(a) && Capturable(cur)
    ensures Ready(out) && out.edge == a.edge
  {
    var d := Decided(a, monitor, cur);
    if !Starts(a, monitor, cur, looked, link) then d
    else
      d.(model := Some(PutCells(Base(a, monitor, cur), a.edge, cur, Delivered(a, monitor, cur, looked, link))),
         keyframe := false, framesSent := Next(a.framesSent))
  }

  function OnWire(a: Agent, monitor: Byte, cur: Surface, looked: Option<set<Cell>>, link: Link): seq<seq<Byte>>
    requires Ready(a) && Capturable(cur)
  {
    if !Starts(a, monitor, cur, looked, link) then []
    else
      ([BeginBytes(a, monitor, cur)] + TilesBytes(monitor, a.edge, cur, Delivered(a, monitor, cur, looked, link)))
      + (if link.end then [EndBytes(a)] else [])
  }

  /** Which edges the grid may have, and which pictures are taken. */
  lemma Accepts(edge: nat, cur: Surface)
    ensures LegalEdge(edge) <==> edge in {16, 32, 64, 128}
    ensures Capturable(cur) <==> Shaped(cur) && 1 <= cur.width <= 32768 && 1 <= cur.height <= 32768
  {
  }

  /** Tiles go out row by row from the top, and from the left in each row. */
  lemma {:induction false} RowMajor(cols: nat, rows: nat, col: nat, row: nat)
    requires col < cols && row < rows
    ensures 0 <= row * cols + col < |Cells(cols, rows)| == rows * cols && Cells(cols, rows)[row * cols + col] == (col, row)
    decreases rows
  {
    CellCount(cols, rows - 1);
    CellCount(cols, rows);
    Slot(cols, rows, col, row);
    if row < rows - 1 {
      RowMajor(cols, rows - 1, col, row);
    }
  }

  lemma {:induction false} CellCount(cols: nat, rows: nat)
    ensures |Cells(cols, rows)| == rows * cols
  {
    if rows > 0 {
      CellCount(cols, rows - 1);
      assert rows * cols == (rows - 1) * cols + cols;
    }
  }

  /** The header and the end of a frame, as a viewer reads them: the next number, the
      picture's size, and whether the viewer starts afresh, which it does unless the agent
      holds a model of this monitor and this size and no whole frame was asked for. */
  lemma HeaderExactly(a: Agent, monitor: Byte, cur: Surface)
    requires Ready(a) && Capturable(cur) && a.framesSent + 1 < 9007199254740992
    ensures Wire.Decoded(BeginBytes(a, monitor, cur))
         == Some(Wire.FrameBegin(monitor, a.framesSent + 1, cur.width, cur.height,
                                 !(a.model.Some? && a.monitor == monitor && a.model.value.width == cur.width
                                   && a.model.value.height == cur.height && !a.keyframe)))
    ensures Wire.Decoded(EndBytes(a)) == Some(Wire.FrameEnd(a.framesSent + 1))
  {
    var begin := Wire.FrameBegin(monitor, Next(a.framesSent), cur.width, cur.height, Decided(a, monitor, cur).keyframe);
    hide Wire.Decoded, Wire.Encode;
    Wire.WireRoundTrip(begin);
    Wire.WireRoundTrip(Wire.FrameEnd(Next(a.framesSent)));
  }

  /** Frames are numbered one after another, as far as the counter goes. */
  lemma NextExactly(framesSent: nat)
    ensures framesSent < 0xFFFF_FFFF_FFFF_FFFF ==> Next(framesSent) == framesSent + 1
    ensures Next(0xFFFF_FFFF_FFFF_FFFF) == 0xFFFF_FFFF_FFFF_FFFF
  {
  }

  /** What a link takes of a frame: nothing if no tile differs or the header is refused;
      otherwise the header, the first tiles in order as far as it takes them, and the end. */
  lemma WireExactly(a: Agent, monitor: Byte, cur: Surface, looked: Option<set<Cell>>, link: Link)
    requires Ready(a) && Capturable(cur)
    ensures var out, offered := OnWire(a, monitor, cur, looked, link), Offered(a, monitor, cur, looked);
            if offered == [] || !link.begin then out == []
            else
              var n := if link.tiles < |offered| then link.tiles else |offered|;
              && |out| == 1 + n + (if link.end then 1 else 0) && out[0] == BeginBytes(a, monitor, cur)
              && (link.end ==> out[n + 1] == EndBytes(a))
              && forall k :: 0 <= k < n ==> out[k + 1] == TileBytes(monitor, a.edge, cur, offered[k])
  {
    hide BeginBytes, EndBytes, TileBytes, Offered, TilesBytes;
    var offered := Offered(a, monitor, cur, looked);
    if offered != [] && link.begin {
      var cells := Delivered(a, monitor, cur, looked, link);
      forall k | 0 <= k < |cells| ensures TilesBytes(monitor, a.edge, cur, cells)[k] == TileBytes(monitor, a.edge, cur, cells[k]) {
        TilesAt(monitor, a.edge, cur, cells, k);
      }
    }
  }

  lemma {:induction false} TilesAt(monitor: Byte, edge: nat, cur: Surface, cells: seq<Cell>, k: nat)
    requires LegalEdge(edge) && Capturable(cur) && AllInGrid(edge, cur, cells) && k < |cells|
    ensures TilesBytes(monitor, edge, cur, cells)[k] == TileBytes(monitor, edge, cur, cells[k])
  {
    hide TileBytes;
    if k < |cells| - 1 {
      TilesAt(monitor, edge, cur, cells[..|cells| - 1], k);
    }
  }

  /** One tile, as a viewer reads it. */
  lemma TileExactly(monitor: Byte, edge: nat, cur: Surface, c: Cell)
    requires LegalEdge(edge) && Capturable(cur) && InGrid(edge, cur, c)
    ensures var coded := EncodeTile(Tile(cur, Bounds(edge, cur, c)));
            coded.Some?
            && Wire.Decoded(TileBytes(monitor, edge, cur, c)) == Some(Wire.Tile(monitor, c.0, c.1, coded.value.0, coded.value.1))
  {
    Encodable(edge, cur, c);
    TileFits(monitor, edge, cur, c);
    hide Wire.Decoded, Wire.Encode, EncodeTile, Tile, Bounds;
    Wire.WireRoundTrip(TileMessage(monitor, UpdateFor(edge, cur, c)));
  }

  lemma OneMoreTile(monitor: Byte, edge: nat, model: Surface, cur: Surface, cells: seq<Cell>, k: nat)
    requires LegalEdge(edge) && Capturable(cur) && Capturable(model) && SameSize(model, cur)
    requires AllInGrid(edge, cur, cells) && k < |cells|
    ensures TilesBytes(monitor, edge, cur, cells[..k + 1])
         == TilesBytes(monitor, edge, cur, cells[..k]) + [TileBytes(monitor, edge, cur, cells[k])]
    ensures var r := Bounds(edge, cur, cells[k]);
            PutCells(model, edge, cur, cells[..k + 1]) == Put(PutCells(model, edge, cur, cells[..k]), r, Tile(cur, r))
  {
    hide TileBytes, Bounds, Put, Tile;
    assert cells[..k + 1][..k] == cells[..k];
  }

  /** The tiles of a frame, in order, until the link takes no more: the model advances
      only for those that went out. */
  method SendTiles(monitor: Byte, edge: nat, cur: Surface, model: Surface, updates: seq<Update>, ghost cells: seq<Cell>,
                   room: nat) returns (out: seq<seq<Byte>>, held: Surface)
    requires LegalEdge(edge) && Capturable(cur) && Capturable(model) && SameSize(model, cur)
    requires Described(updates, edge, cur, cells)
    ensures out == TilesBytes(monitor, edge, cur, cells[..Min(room, |cells|)])
    ensures held == PutCells(model, edge, cur, cells[..Min(room, |cells|)])
  {
    out, held := [], model;
    var delivered: nat := 0;
    hide EncodeTile, Wire.Encode, Put, Tile, Bounds, Wire.Fits, UpdateFor;
    while delivered < |updates| && delivered < room
      invariant delivered <= |updates| && delivered <= room
      invariant held == PutCells(model, edge, cur, cells[..delivered])
      invariant out == TilesBytes(monitor, edge, cur, cells[..delivered])
    {
      var u := updates[delivered];
      OneMoreTile(monitor, edge, model, cur, cells, delivered);
      TileFits(monitor, edge, cur, u.cell);
      out := out + [Wire.Encode(TileMessage(monitor, u))];
      var bounds := Bounds(edge, cur, u.cell);
      var pixels := CopyTile(cur, bounds);
      var put := PutTile(held, bounds, pixels.value);
      held := put.value;
      delivered := delivered + 1;
    }
  }

  // ---- the hint across frames ----

  function LookedAt(hint: D.Hint, edge: nat, cur: Surface): Option<set<Cell>>
    requires edge > 0
  {
    D.Looked(hint, edge, cur.width, cur.height)
  }

  /** What is still suspected once a frame was sent, in full, in part or not at all. */
  function SentHint(a: Agent, monitor: Byte, cur: Surface, hint: D.Hint, link: Link): D.Hint
    requires Ready(a) && Capturable(cur)
  {
    var offered := Offered(a, monitor, cur, LookedAt(hint, a.edge, cur));
    if offered == [] then D.CLEAR_HINT
    else if !link.begin then hint
    else if |offered| <= link.tiles then D.CLEAR_HINT
    else D.WHOLE_FRAME
  }

  class Streamer {
    const edge: nat
    const hint: D.DamageHint
    var model: Option<Surface>
    var monitor: Byte
    var keyframe: bool
    var framesSent: nat

    function State(): Agent
      reads this
    {
      Agent(edge, model, monitor, keyframe, framesSent)
    }

    constructor (edge: nat)
      requires LegalEdge(edge)
      ensures State() == Agent(edge, None, 0, true, 0) && Ready(State())
      ensures fresh(hint) && hint.State() == D.CLEAR_HINT
    {
      this.edge := edge;
      hint := new D.DamageHint();
      model, monitor, keyframe, framesSent := None, 0, true, 0;
    }

    method RequestFullFrame()
      requires Ready(State())
      modifies this, hint
      ensures State() == Forgot(old(State())) && Ready(State()) && hint.State() == D.CLEAR_HINT
    {
      keyframe := true;
      model := None;
      hint.Clear();
    }

    /** The screen in front is no longer the one the client holds. */
    method Lose()
      requires Ready(State())
      modifies this
      ensures State() == Forgot(old(State())) && Ready(State()) && hint.State() == old(hint.State())
    {
      model := None;
      keyframe := true;
    }

    /** A captured frame: its damage is merged, and what the link takes of it is sent. */
    method Shoot(monitor: Byte, cur: Surface, damage: D.Report, link: Link) returns (out: seq<seq<Byte>>)
      requires Ready(State()) && Capturable(cur)
      modifies this, hint
      ensures var merged := D.Merged(old(hint.State()), damage);
              var looked := LookedAt(merged, edge, cur);
              && State() == Sent(old(State()), monitor, cur, looked, link)
              && out == OnWire(old(State()), monitor, cur, looked, link)
              && hint.State() == SentHint(old(State()), monitor, cur, merged, link)
    {
      hint.Merge(damage);
      hide Sent, OnWire, SentHint, D.Merged, LookedAt;
      out := SendFrame(monitor, cur, link);
    }

    /** `out` is what the link took, in order. */
    method SendFrame(monitor: Byte, cur: Surface, link: Link) returns (out: seq<seq<Byte>>)
      requires Ready(State()) && Capturable(cur)
      modifies this, hint
      ensures var looked := LookedAt(old(hint.State()), edge, cur);
              && State() == Sent(old(State()), monitor, cur, looked, link)
              && out == OnWire(old(State()), monitor, cur, looked, link)
      ensures hint.State() == SentHint(old(State()), monitor, cur, old(hint.State()), link)
    {
      ghost var a := State();
      var looked := LookedAt(hint.State(), edge, cur);
      Decide(monitor, cur);
      var updates := ChangedTiles(model, cur, edge, looked);
      ghost var offered := Offered(a, monitor, cur, looked);
      assert |updates| == |offered|;
      hide Offered, Decided, LookedAt, Described;
      if |updates| == 0 {
        assert Sent(a, monitor, cur, looked, link) == Decided(a, monitor, cur) && OnWire(a, monitor, cur, looked, link) == [];
        out := [];
        hint.Clear();
        return;
      }
      if !link.begin {
        out := [];
        return;
      }
      out := SendBody(a, monitor, cur, looked, updates, link);
      if |updates| <= link.tiles {
        hint.Clear();
      } else {
        hint.Widen();
      }
    }

    /** Whether the model describes this picture; if not it is forgotten. */
    method Decide(monitor: Byte, cur: Surface)
      requires Ready(State()) && Capturable(cur)
      modifies this
      ensures State() == Decided(old(State()), monitor, cur)
    {
      var reusable := model.Some? && this.monitor == monitor && model.value.width == cur.width
                      && model.value.height == cur.height && !keyframe;
      if !reusable {
        model := None;
        this.monitor := monitor;
        keyframe := true;
      }
    }

    /** The header, the tiles the link takes, and the end. */
    method SendBody(ghost a: Agent, monitor: Byte, cur: Surface, ghost looked: Option<set<Cell>>, updates: seq<Update>,
                    link: Link)
      returns (out: seq<seq<Byte>>)
      requires Ready(a) && Capturable(cur) && State() == Decided(a, monitor, cur) && a.edge == edge && LegalEdge(edge)
      requires Starts(a, monitor, cur, looked, link) && Described(updates, edge, cur, Offered(a, monitor, cur, looked))
      modifies this
      ensures State() == Sent(a, monitor, cur, looked, link)
      ensures out == OnWire(a, monitor, cur, looked, link)
    {
      hide TilesBytes, PutCells, Offered, UpdateFor, InGrid, Wire.Encode;
      ghost var offered := Offered(a, monitor, cur, looked);
      var wasKeyframe, sequence := keyframe, Next(framesSent);
      out := [Wire.Encode(Wire.FrameBegin(monitor, sequence, cur.width, cur.height, wasKeyframe))];
      var held := if model.Some? then model.value else Filled(cur.width, cur.height, ZERO);
      var tiles;
      tiles, held := SendTiles(monitor, edge, cur, held, updates, offered, link.tiles);
      out := out + tiles;
      if link.end {
        out := out + [Wire.Encode(Wire.FrameEnd(sequence))];
      }
      model := Some(held);
      framesSent := sequence;
      keyframe := false;
    }
  }
}
