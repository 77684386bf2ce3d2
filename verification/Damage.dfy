/** What a capture says has changed, and the hint the agent makes of it (`Damage::tiles` and
    `collect_tiles` in `crates/services/desk/src/tiles.rs`, `DamageHint` in
    `crates/services/screen/src/agent.rs`). */
module Damage {
  import opened Bytes
  import opened Tiles

  type Cell = (nat, nat)

  const MAX_HINT_RECTS := 256

  /** A rectangle as a capture reports it: it may lie partly or wholly off the screen. */
  datatype Region = Region(x: int, y: int, w: nat, h: nat)

  datatype Move = Move(source: Region, dest: Region)

  datatype Report = Report(moves: seq<Move>, dirty: seq<Region>)

  const NOTHING := Report([], [])

  predicate Holds(r: Region, x: nat, y: nat)
  {
    r.x <= x < r.x + r.w && r.y <= y < r.y + r.h
  }

  /** The pixel lies in something that changed, or where something moved to. */
  predicate InReport(d: Report, x: nat, y: nat)
  {
    || (exists k :: 0 <= k < |d.moves| && Holds(d.moves[k].dest, x, y))
    || (exists k :: 0 <= k < |d.dirty| && Holds(d.dirty[k], x, y))
  }

  /** What a report of one thing names, and that reports add up. */
  lemma ReportExactly(source: Region, dest: Region, a: Report, b: Report, x: nat, y: nat)
    ensures InReport(Report([Move(source, dest)], []), x, y)
            <==> dest.x <= x < dest.x + dest.w && dest.y <= y < dest.y + dest.h
    ensures InReport(Report([], [dest]), x, y) <==> dest.x <= x < dest.x + dest.w && dest.y <= y < dest.y + dest.h
    ensures InReport(Report(a.moves + b.moves, a.dirty + b.dirty), x, y) <==> InReport(a, x, y) || InReport(b, x, y)
  {
    assert [Move(source, dest)][0].dest == dest && [dest][0] == dest;
    var moves, dirty := a.moves + b.moves, a.dirty + b.dirty;
    assert forall k :: 0 <= k < |a.moves| ==> moves[k] == a.moves[k];
    assert forall k :: 0 <= k < |b.moves| ==> moves[|a.moves| + k] == b.moves[k];
    assert forall k :: 0 <= k < |a.dirty| ==> dirty[k] == a.dirty[k];
    assert forall k :: 0 <= k < |b.dirty| ==> dirty[|a.dirty| + k] == b.dirty[k];
  }

  // ---- which tiles a region touches ----

  function Clip(v: int, limit: nat): (c: nat)
    ensures c <= limit
  {
    if v < 0 then 0 else if v > limit then limit else v
  }

  /** `collect_tiles`: clipped to the display before dividing. */
  function Touched(edge: nat, width: nat, height: nat, r: Region): (cells: set<Cell>)
    requires edge > 0
  {
    var left, top := Clip(r.x, width), Clip(r.y, height);
    var right, bottom := Clip(r.x + r.w, width), Clip(r.y + r.h, height);
    if r.w == 0 || r.h == 0 || left >= right || top >= bottom then {}
    else
      set col: nat, row: nat |
        left / edge <= col <= (right - 1) / edge && top / edge <= row <= (bottom - 1) / edge :: (col, row)
  }

  lemma Between(edge: nat, low: nat, x: nat, high: nat)
    requires edge > 0 && low <= x <= high
    ensures low / edge <= x / edge <= high / edge
  {
    DivOrder(edge, low, x);
    DivOrder(edge, x, high);
  }

  lemma DivOrder(edge: nat, a: nat, b: nat)
    requires edge > 0 && a <= b
    ensures a / edge <= b / edge
  {
    DivBounds(a, edge);
    DivBounds(b, edge);
    if b / edge < a / edge {
      MulOrder(b / edge + 1, a / edge, edge);
    }
  }

  /** A cell of the range a stretch divides to holds some point of the stretch. */
  lemma Reached(edge: nat, low: nat, high: nat, at: nat) returns (x: nat)
    requires edge > 0 && low <= high && low / edge <= at <= high / edge
    ensures low <= x <= high && x / edge == at
  {
    DivBounds(low, edge);
    DivBounds(high, edge);
    if at == low / edge {
      x := low;
    } else {
      x := at * edge;
      StripStart(edge, low, high, low / edge, high / edge, at);
      StripOf(edge, at, x);
    }
  }

  lemma StripStart(edge: nat, low: nat, high: nat, first: nat, last: nat, at: nat)
    requires low < first * edge + edge && last * edge <= high && first < at <= last
    ensures low <= at * edge <= high
  {
    MulOrder(first + 1, at, edge);
    MulOrder(at, last, edge);
    assert (first + 1) * edge == first * edge + edge;
  }

  /** A region touches exactly the tiles that hold one of its pixels on the display. */
  lemma TouchedExactly(edge: nat, width: nat, height: nat, r: Region, c: Cell)
    requires edge > 0
    ensures c in Touched(edge, width, height, r)
            <==> exists x: nat, y: nat :: x < width && y < height && Holds(r, x, y) && (x / edge, y / edge) == c
  {
    var left, top := Clip(r.x, width), Clip(r.y, height);
    var right, bottom := Clip(r.x + r.w, width), Clip(r.y + r.h, height);
    if x: nat, y: nat :| x < width && y < height && Holds(r, x, y) && (x / edge, y / edge) == c {
      Between(edge, left, x, right - 1);
      Between(edge, top, y, bottom - 1);
    }
    if c in Touched(edge, width, height, r) {
      var x := Reached(edge, left, right - 1, c.0);
      var y := Reached(edge, top, bottom - 1, c.1);
      assert x < width && y < height && Holds(r, x, y) && (x / edge, y / edge) == c;
    }
  }

  function TouchedBy(edge: nat, width: nat, height: nat, d: Report): set<Cell>
    requires edge > 0
  {
    (set k, c | 0 <= k < |d.moves| && c in Touched(edge, width, height, d.moves[k].dest) :: c)
    + (set k, c | 0 <= k < |d.dirty| && c in Touched(edge, width, height, d.dirty[k]) :: c)
  }

  /** So a reported pixel's tile is looked at. */
  lemma ReportedIsTouched(edge: nat, width: nat, height: nat, d: Report, x: nat, y: nat)
    requires edge > 0 && x < width && y < height && InReport(d, x, y)
    ensures (x / edge, y / edge) in TouchedBy(edge, width, height, d)
  {
    hide Touched;
    if k :| 0 <= k < |d.moves| && Holds(d.moves[k].dest, x, y) {
      TouchedExactly(edge, width, height, d.moves[k].dest, (x / edge, y / edge));
    } else {
      var k :| 0 <= k < |d.dirty| && Holds(d.dirty[k], x, y);
      TouchedExactly(edge, width, height, d.dirty[k], (x / edge, y / edge));
    }
  }

  /** A report touches exactly the tiles that hold one of its pixels on the display. */
  lemma TouchedByExactly(edge: nat, width: nat, height: nat, d: Report, c: Cell)
    requires edge > 0
    ensures c in TouchedBy(edge, width, height, d)
            <==> exists x: nat, y: nat :: x < width && y < height && InReport(d, x, y) && (x / edge, y / edge) == c
  {
    if c in TouchedBy(edge, width, height, d) {
      hide Touched;
      if k :| 0 <= k < |d.moves| && c in Touched(edge, width, height, d.moves[k].dest) {
        TouchedExactly(edge, width, height, d.moves[k].dest, c);
        var x: nat, y: nat :| x < width && y < height && Holds(d.moves[k].dest, x, y) && (x / edge, y / edge) == c;
        assert InReport(d, x, y);
      } else {
        var k :| 0 <= k < |d.dirty| && c in Touched(edge, width, height, d.dirty[k]);
        TouchedExactly(edge, width, height, d.dirty[k], c);
        var x: nat, y: nat :| x < width && y < height && Holds(d.dirty[k], x, y) && (x / edge, y / edge) == c;
        assert InReport(d, x, y);
      }
    }
    if x: nat, y: nat :| x < width && y < height && InReport(d, x, y) && (x / edge, y / edge) == c {
      ReportedIsTouched(edge, width, height, d, x, y);
    }
  }

  // ---- the hint ----

  /** What may differ from what the client holds, or that anything may. */
  datatype Hint = Hint(damage: Report, whole: bool)

  const CLEAR_HINT := Hint(NOTHING, false)
  const WHOLE_FRAME := Hint(NOTHING, true)

  function Merged(h: Hint, d: Report): Hint
  {
    if h.whole then h
    else if d.dirty == [] && d.moves == [] then WHOLE_FRAME
    else if |h.damage.dirty| + |d.dirty| > MAX_HINT_RECTS || |h.damage.moves| + |d.moves| > MAX_HINT_RECTS then WHOLE_FRAME
    else Hint(Report(h.damage.moves + d.moves, h.damage.dirty + d.dirty), false)
  }

  predicate Suspects(h: Hint, x: nat, y: nat)
  {
    h.whole || InReport(h.damage, x, y)
  }

  /** Merging forgets nothing: what was suspected stays so, and what the report names
      is; a report that names nothing makes everything suspect. */
  lemma MergedSuspects(h: Hint, d: Report, x: nat, y: nat)
    ensures Suspects(h, x, y) ==> Suspects(Merged(h, d), x, y)
    ensures InReport(d, x, y) || d == NOTHING ==> Suspects(Merged(h, d), x, y)
  {
    var m := Merged(h, d).damage;
    if !Merged(h, d).whole {
      if k :| 0 <= k < |h.damage.moves| && Holds(h.damage.moves[k].dest, x, y) {
        assert m.moves[k] == h.damage.moves[k];
      }
      if k :| 0 <= k < |h.damage.dirty| && Holds(h.damage.dirty[k], x, y) {
        assert m.dirty[k] == h.damage.dirty[k];
      }
      if k :| 0 <= k < |d.moves| && Holds(d.moves[k].dest, x, y) {
        assert m.moves[|h.damage.moves| + k] == d.moves[k];
      }
      if k :| 0 <= k < |d.dirty| && Holds(d.dirty[k], x, y) {
        assert m.dirty[|h.damage.dirty| + k] == d.dirty[k];
      }
    }
  }

  /** Everything is suspect exactly if it was, or the report names nothing, or there are
      more than 256 of a kind to remember; otherwise what was suspect and what is named. */
  lemma MergedExactly(h: Hint, d: Report)
    ensures Merged(h, d).whole
            <==> h.whole || (|d.moves| == 0 && |d.dirty| == 0)
                 || |h.damage.dirty| + |d.dirty| > 256 || |h.damage.moves| + |d.moves| > 256
    ensures !Merged(h, d).whole ==>
              forall x: nat, y: nat :: InReport(Merged(h, d).damage, x, y) <==> InReport(h.damage, x, y) || InReport(d, x, y)
  {
    if !Merged(h, d).whole {
      forall x: nat, y: nat
        ensures InReport(Merged(h, d).damage, x, y) <==> InReport(h.damage, x, y) || InReport(d, x, y)
      {
        ReportExactly(Region(0, 0, 0, 0), Region(0, 0, 0, 0), h.damage, d, x, y);
      }
    }
  }

  /** The tiles to compare: all of them, or those the damage touches. */
  function Looked(h: Hint, edge: nat, width: nat, height: nat): Option<set<Cell>>
    requires edge > 0
  {
    if h.whole then None else Some(TouchedBy(edge, width, height, h.damage))
  }

  class DamageHint {
    var damage: Report
    var whole: bool

    function State(): Hint
      reads this
    {
      Hint(damage, whole)
    }

    constructor ()
      ensures State() == CLEAR_HINT
    {
      damage, whole := NOTHING, false;
    }

    method Merge(d: Report)
      modifies this
      ensures State() == Merged(old(State()), d)
      ensures forall x: nat, y: nat :: (old(Suspects(State(), x, y)) || InReport(d, x, y) ==> Suspects(State(), x, y))
    {
      forall x: nat, y: nat ensures (Suspects(State(), x, y) || InReport(d, x, y) ==> Suspects(Merged(State(), d), x, y)) {
        MergedSuspects(State(), d, x, y);
      }
      hide InReport, Suspects;
      if whole {
        return;
      }
      if |d.dirty| == 0 && |d.moves| == 0 {
        whole, damage := true, NOTHING;
        return;
      }
      if |damage.dirty| + |d.dirty| > MAX_HINT_RECTS || |damage.moves| + |d.moves| > MAX_HINT_RECTS {
        whole, damage := true, NOTHING;
        return;
      }
      damage := Report(damage.moves + d.moves, damage.dirty + d.dirty);
    }

    method Clear()
      modifies this
      ensures State() == CLEAR_HINT
    {
      whole, damage := false, NOTHING;
    }

    method Widen()
      modifies this
      ensures State() == WHOLE_FRAME
    {
      damage, whole := NOTHING, true;
    }
  }
}
