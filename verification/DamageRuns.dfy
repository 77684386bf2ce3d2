/** The damage hint over whole runs of captures: that comparing only the tiles the hint
    names loses nothing, although frames are refused, cut short and forgotten in between
    (`tick` and `send_frame` in `crates/services/screen/src/agent.rs`). */
module DamageRuns {
  import opened Bytes
  import opened Tiles
  import opened Pictures
  import opened DeskView
  import opened ScreenReplica
  import opened ReplicaRuns
  import D = Damage

  /** The agent, its hint, the last picture it took, and the last picture the capture
      layer handed it, which may be one it could not take. */
  datatype Rig = Rig(agent: Agent, hint: D.Hint, last: Option<(Byte, Surface)>, seen: Option<(Byte, Surface)>)

  datatype Shot =
    | Capture(monitor: Byte, cur: Surface, damage: D.Report, link: Link)
    | Torn(monitor: Byte, cur: Surface, damage: D.Report)   // a frame that is refused, and its report with it
    | Ask                                                   // the client wants a whole frame
    | Lost                                                  // the screen in front is another one

  predicate Takeable(s: Shot)
  {
    s.Capture? || s.Torn? ==> Capturable(s.cur)
  }

  function HintFor(r: Rig, s: Shot): D.Hint
    requires s.Capture?
  {
    D.Merged(r.hint, s.damage)
  }

  function EventOf(r: Rig, s: Shot): (e: Event)
    requires Ready(r.agent) && Takeable(s) && !s.Torn?
    ensures Legal(e)
  {
    if s.Capture? then Frame(s.monitor, s.cur, LookedAt(HintFor(r, s), r.agent.edge, s.cur), s.link) else Forget
  }

  function RigStep(r: Rig, s: Shot): (out: Rig)
    requires Ready(r.agent) && Takeable(s)
    ensures Ready(out.agent) && out.agent == if s.Torn? then r.agent else AgentStep(r.agent, EventOf(r, s))
  {
    match s
    case Capture(monitor, cur, _, link) =>
      var now := Some((monitor, cur));
      Rig(AgentStep(r.agent, EventOf(r, s)), SentHint(r.agent, monitor, cur, HintFor(r, s), link), now, now)
    case Torn(monitor, cur, _) => r.(seen := Some((monitor, cur)))
    case Ask => Rig(AgentStep(r.agent, EventOf(r, s)), D.CLEAR_HINT, r.last, r.seen)
    case Lost => Rig(AgentStep(r.agent, EventOf(r, s)), r.hint, r.last, r.seen)
  }

  /** What each shot leaves: a capture is sent and settles the hint, a torn frame is only
      seen, a request for a whole frame forgets the model and the hint with it, and the
      loss of the screen forgets the model and keeps the hint. */
  lemma RigExactly(r: Rig, s: Shot)
    requires Ready(r.agent) && Takeable(s)
    ensures s.Capture? ==>
              var merged := D.Merged(r.hint, s.damage);
              && RigStep(r, s).agent == Sent(r.agent, s.monitor, s.cur, LookedAt(merged, r.agent.edge, s.cur), s.link)
              && RigStep(r, s).hint == SentHint(r.agent, s.monitor, s.cur, merged, s.link)
              && RigStep(r, s).last == RigStep(r, s).seen == Some((s.monitor, s.cur))
    ensures s.Torn? ==> RigStep(r, s) == r.(seen := Some((s.monitor, s.cur)))
    ensures s.Ask? ==>
              RigStep(r, s) == r.(agent := r.agent.(model := None, keyframe := true), hint := D.Hint(D.Report([], []), false))
    ensures s.Lost? ==> RigStep(r, s) == r.(agent := r.agent.(model := None, keyframe := true))
  {
    hide Sent, SentHint, LookedAt, D.Merged;
  }

  /** A report that names anything names every pixel that is not as it was in the earlier
      picture of this display. */
  ghost predicate Names(earlier: Option<(Byte, Surface)>, monitor: Byte, cur: Surface, damage: D.Report)
  {
    earlier.Some? && earlier.value.0 == monitor && Shaped(earlier.value.1) && Shaped(cur)
    && SameSize(earlier.value.1, cur) && damage != D.NOTHING ==>
      forall x: nat, y: nat | On(cur, x, y) :: At(earlier.value.1, x, y) == At(cur, x, y) || D.InReport(damage, x, y)
  }

  /** What the hint needs: a report against the last picture that was taken. */
  ghost predicate Honest(last: Option<(Byte, Surface)>, s: Shot)
  {
    s.Capture? ==> Names(last, s.monitor, s.cur, s.damage)
  }

  /** What the capture layer promises: a report against the frame before, taken or not. */
  ghost predicate Reported(seen: Option<(Byte, Surface)>, s: Shot)
  {
    s.Capture? || s.Torn? ==> Names(seen, s.monitor, s.cur, s.damage)
  }

  /** Whatever differs between what the client holds and what was last captured is
      still suspected. */
  ghost predicate Owes(r: Rig)
  {
    && Ready(r.agent)
    && (r.agent.model.Some? ==>
          && r.last.Some? && Capturable(r.last.value.1) && r.agent.monitor == r.last.value.0
          && SameSize(r.agent.model.value, r.last.value.1)
          && forall x: nat, y: nat | On(r.last.value.1, x, y) ::
               At(r.agent.model.value, x, y) == At(r.last.value.1, x, y) || D.Suspects(r.hint, x, y))
  }

  /** So it is suspected of the new picture too, once the report is merged. */
  lemma MergedOwes(r: Rig, s: Shot, x: nat, y: nat)
    requires Owes(r) && Takeable(s) && s.Capture? && Honest(r.last, s) && Reusable(r.agent, s.monitor, s.cur) && On(s.cur, x, y)
    ensures At(r.agent.model.value, x, y) == At(s.cur, x, y) || D.Suspects(HintFor(r, s), x, y)
  {
    D.MergedSuspects(r.hint, s.damage, x, y);
    hide D.Merged, D.Suspects, D.InReport;
    assert On(r.last.value.1, x, y);
  }

  /** Comparing only the tiles the hint names misses none that differs. */
  lemma HonestCovers(r: Rig, s: Shot)
    requires Owes(r) && Takeable(s) && s.Capture? && Honest(r.last, s)
    ensures DamageCovers(r.agent, s.monitor, s.cur, LookedAt(HintFor(r, s), r.agent.edge, s.cur))
  {
    var a, cur, hint := r.agent, s.cur, HintFor(r, s);
    if Reusable(a, s.monitor, cur) && !hint.whole {
      forall c: Cell | InGrid(a.edge, cur, c) && Tile(a.model.value, Bounds(a.edge, cur, c)) != Tile(cur, Bounds(a.edge, cur, c))
        ensures c in LookedAt(hint, a.edge, cur).value
      {
        CellNamed(r, s, c);
      }
    }
  }

  lemma CellNamed(r: Rig, s: Shot, c: Cell)
    requires Owes(r) && Takeable(s) && s.Capture? && Honest(r.last, s) && Reusable(r.agent, s.monitor, s.cur)
    requires InGrid(r.agent.edge, s.cur, c) && !HintFor(r, s).whole
    requires var bounds := Bounds(r.agent.edge, s.cur, c); Tile(r.agent.model.value, bounds) != Tile(s.cur, bounds)
    ensures c in LookedAt(HintFor(r, s), r.agent.edge, s.cur).value
  {
    var edge, model, cur, hint := r.agent.edge, r.agent.model.value, s.cur, HintFor(r, s);
    var bounds := Bounds(edge, cur, c);
    TileSame(model, cur, bounds);
    hide Tile, Bounds, D.Touched, D.InReport, D.Merged, Owes, Honest;
    var x: nat, y: nat :| Covers(bounds, x, y) && At(model, x, y) != At(cur, x, y);
    assert On(cur, x, y);
    MergedOwes(r, s, x, y);
    D.ReportedIsTouched(edge, cur.width, cur.height, hint.damage, x, y);
    CellCovers(edge, cur, c, x, y);
  }

  lemma StepOwes(r: Rig, s: Shot)
    requires Owes(r) && Takeable(s) && Honest(r.last, s)
    ensures Owes(RigStep(r, s))
  {
    if s.Capture? {
      HonestCovers(r, s);
      var e := EventOf(r, s);
      var offered := Offered(r.agent, s.monitor, s.cur, e.looked);
      if offered == [] || (s.link.begin && |offered| <= s.link.tiles) {
        assert Complete(r.agent, e);
        Settles(r.agent, e);
        hide AgentStep, SentHint, Offered, Honest;
      } else if s.link.begin {
        assert RigStep(r, s).hint == D.WHOLE_FRAME;
        assert AgentStep(r.agent, e).monitor == s.monitor && SameSize(AgentStep(r.agent, e).model.value, s.cur);
        hide AgentStep, SentHint, Offered, Honest, HintFor;
      } else {
        assert AgentStep(r.agent, e) == Decided(r.agent, s.monitor, s.cur) && RigStep(r, s).hint == HintFor(r, s);
        hide AgentStep, SentHint, Offered, HintFor;
        if Reusable(r.agent, s.monitor, s.cur) {
          forall x: nat, y: nat | On(s.cur, x, y)
            ensures At(r.agent.model.value, x, y) == At(s.cur, x, y) || D.Suspects(HintFor(r, s), x, y)
          {
            MergedOwes(r, s, x, y);
          }
        }
      }
    }
  }

  // ---- runs of captures ----

  ghost predicate AllTakeable(shots: seq<Shot>)
  {
    forall k :: 0 <= k < |shots| ==> Takeable(shots[k])
  }

  ghost function RigAfter(r: Rig, shots: seq<Shot>): (out: Rig)
    requires Ready(r.agent) && AllTakeable(shots)
    ensures Ready(out.agent)
    decreases |shots|
  {
    if shots == [] then r else RigStep(RigAfter(r, shots[..|shots| - 1]), shots[|shots| - 1])
  }

  ghost function EventsOf(r: Rig, shots: seq<Shot>): (es: seq<Event>)
    requires Ready(r.agent) && AllTakeable(shots)
    ensures AllLegal(es)
    decreases |shots|
  {
    if shots == [] then []
    else
      var before, s := EventsOf(r, shots[..|shots| - 1]), shots[|shots| - 1];
      if s.Torn? then before else before + [EventOf(RigAfter(r, shots[..|shots| - 1]), s)]
  }

  ghost predicate ReportedRun(r: Rig, shots: seq<Shot>)
    requires Ready(r.agent) && AllTakeable(shots)
    decreases |shots|
  {
    || shots == []
    || (ReportedRun(r, shots[..|shots| - 1]) && Reported(RigAfter(r, shots[..|shots| - 1]).seen, shots[|shots| - 1]))
  }

  ghost predicate HonestRun(r: Rig, shots: seq<Shot>)
    requires Ready(r.agent) && AllTakeable(shots)
    decreases |shots|
  {
    shots == [] || (HonestRun(r, shots[..|shots| - 1]) && Honest(RigAfter(r, shots[..|shots| - 1]).last, shots[|shots| - 1]))
  }

  /** The runs of the replica are the runs of the rig. */
  lemma {:induction false} SameAgent(r: Rig, shots: seq<Shot>)
    requires Ready(r.agent) && AllTakeable(shots)
    ensures AgentAfter(r.agent, EventsOf(r, shots)) == RigAfter(r, shots).agent
    decreases |shots|
  {
    if shots != [] {
      var front := shots[..|shots| - 1];
      SameAgent(r, front);
      hide AgentStep, RigStep, EventOf;
      if !shots[|shots| - 1].Torn? {
        AndThen(r.agent, {}, false, EventsOf(r, front), EventOf(RigAfter(r, front), shots[|shots| - 1]));
      }
    }
  }

  lemma {:induction false} RunOwes(r: Rig, shots: seq<Shot>)
    requires Owes(r) && AllTakeable(shots) && HonestRun(r, shots)
    ensures Owes(RigAfter(r, shots))
    decreases |shots|
  {
    if shots != [] {
      RunOwes(r, shots[..|shots| - 1]);
      hide Owes, RigStep, Honest;
      StepOwes(RigAfter(r, shots[..|shots| - 1]), shots[|shots| - 1]);
    }
  }

  /** The link took the frame whole, if there was anything of it to take. */
  ghost predicate TakenWhole(a: Agent, e: Event)
    requires Ready(a) && Legal(e) && e.Frame?
  {
    var offered := Offered(a, e.monitor, e.cur, e.looked);
    offered == [] || (e.link.begin && |offered| <= e.link.tiles)
  }

  /** The replica from captures: with reports that name what changed, and no keyframe
      cut short, a frame the link took whole and that is shown leaves the far surface
      on the canvas, whatever was merged, refused, cut short or forgotten before. */
  lemma ReplicaOfCaptures(edge: nat, v: View, shown: bool, shots: seq<Shot>, s: Shot)
    requires var r := Rig(Fresh(edge), D.CLEAR_HINT, None, None);
             && LegalEdge(edge) && Synced(r.agent, v, {}) && (shown ==> Shown(v))
             && AllTakeable(shots) && HonestRun(r, shots) && s.Capture? && Takeable(s) && Honest(RigAfter(r, shots).last, s)
    requires var r := Rig(Fresh(edge), D.CLEAR_HINT, None, None);
             var es, e := EventsOf(r, shots), EventOf(RigAfter(r, shots), s);
             && TakenWhole(RigAfter(r, shots).agent, e)
             && AllLegal(es + [e]) && ShownAfter(r.agent, shown, es + [e]) && WholeRun(r.agent, es + [e])
    ensures var r := Rig(Fresh(edge), D.CLEAR_HINT, None, None);
            var es, e := EventsOf(r, shots), EventOf(RigAfter(r, shots), s);
            HeardAll(v, WireAfter(r.agent, es + [e])).canvas == OpaqueOf(s.cur)
  {
    var r := Rig(Fresh(edge), D.CLEAR_HINT, None, None);
    var es, e := EventsOf(r, shots), EventOf(RigAfter(r, shots), s);
    SameAgent(r, shots);
    RunOwes(r, shots);
    HonestCovers(RigAfter(r, shots), s);
    assert Complete(AgentAfter(r.agent, es), e);
    hide AgentAfter, WireAfter, HeardAll, ShownAfter, WholeRun, Complete, Synced, RigAfter, EventsOf, HonestRun, Owes, Honest;
    Replica(r.agent, v, shown, es, e);
  }

  // ---- frames that could not be taken ----

  /** While no frame is torn, what the capture layer promises is what the hint needs. */
  lemma {:induction false} NoneTornHonest(r: Rig, shots: seq<Shot>)
    requires Ready(r.agent) && AllTakeable(shots) && r.seen == r.last && ReportedRun(r, shots)
    requires forall k :: 0 <= k < |shots| ==> !shots[k].Torn?
    ensures HonestRun(r, shots) && RigAfter(r, shots).seen == RigAfter(r, shots).last
    decreases |shots|
  {
    if shots != [] {
      NoneTornHonest(r, shots[..|shots| - 1]);
      hide AgentStep, EventOf, SentHint, Names;
    }
  }

  /** After a torn frame it is not: the next report must also name what the lost one
      named, or name nothing and so make everything suspect. */
  lemma RepeatedIsHonest(last: Option<(Byte, Surface)>, torn: Shot, s: Shot)
    requires torn.Torn? && s.Capture? && torn.monitor == s.monitor && Shaped(torn.cur) && SameSize(torn.cur, s.cur)
    requires Reported(last, torn) && Reported(Some((torn.monitor, torn.cur)), s)
    requires s.damage == D.NOTHING
             || (torn.damage != D.NOTHING
                 && forall x: nat, y: nat :: D.InReport(torn.damage, x, y) ==> D.InReport(s.damage, x, y))
    ensures Honest(last, s)
  {
    hide D.InReport;
  }

  /** Exactly when a frame the link took whole leaves nothing behind unsuspected: when the
      hint, with its report merged, named every tile that differed from the client's. */
  lemma OwesExactly(r: Rig, s: Shot)
    requires Ready(r.agent) && Takeable(s) && s.Capture? && TakenWhole(r.agent, EventOf(r, s))
    ensures Owes(RigStep(r, s)) <==> DamageCovers(r.agent, s.monitor, s.cur, LookedAt(HintFor(r, s), r.agent.edge, s.cur))
  {
    var e := EventOf(r, s);
    if DamageCovers(r.agent, s.monitor, s.cur, e.looked) {
      assert Complete(r.agent, e);
      Settles(r.agent, e);
      hide AgentStep, SentHint, Offered;
    } else {
      var c: Cell :| InGrid(r.agent.edge, s.cur, c) && c !in e.looked.value
                     && Tile(r.agent.model.value, Bounds(r.agent.edge, s.cur, c)) != Tile(s.cur, Bounds(r.agent.edge, s.cur, c));
      NotCovered(r, s, c);
    }
  }

  lemma NotCovered(r: Rig, s: Shot, c: Cell)
    requires Ready(r.agent) && Takeable(s) && s.Capture? && TakenWhole(r.agent, EventOf(r, s))
    requires Reusable(r.agent, s.monitor, s.cur) && !HintFor(r, s).whole && InGrid(r.agent.edge, s.cur, c)
    requires c !in LookedAt(HintFor(r, s), r.agent.edge, s.cur).value
    requires var bounds := Bounds(r.agent.edge, s.cur, c); Tile(r.agent.model.value, bounds) != Tile(s.cur, bounds)
    ensures !Owes(RigStep(r, s))
  {
    var edge, model, cur, e := r.agent.edge, r.agent.model.value, s.cur, EventOf(r, s);
    var next := RigStep(r, s);
    TileSame(model, cur, Bounds(edge, cur, c));
    var x: nat, y: nat :| Covers(Bounds(edge, cur, c), x, y) && At(model, x, y) != At(cur, x, y);
    OfferedIs(r.agent, s.monitor, cur, e.looked, c);
    CellCovers(edge, cur, c, x, y);
    var cells := Delivered(r.agent, s.monitor, cur, e.looked, s.link);
    assert c !in cells;
    PutCellsAt(model, edge, cur, cells, x, y);
    assert next.hint == D.CLEAR_HINT && next.last == Some((s.monitor, cur));
    assert Base(r.agent, s.monitor, cur) == model;
    assert next.agent.model == Some(PutCells(model, edge, cur, cells)) || next.agent.model == Some(model);
    hide RigStep, Tile, Bounds, PutCells, Offered, Delivered, EventOf;
    assert At(next.agent.model.value, x, y) != At(cur, x, y) && On(cur, x, y);
    assert !D.Suspects(D.CLEAR_HINT, x, y);
  }

  // ---- a run in which a torn frame's damage is lost ----

  function Halved(): (p: Surface)
    ensures Shaped(p) && p.width == 32 && p.height == 16
    ensures forall x: nat, y: nat | On(p, x, y) :: At(p, x, y) == if x < 16 then RED else ZERO
  {
    Picture(32, 16, seq(16, y => seq(32, x => if x < 16 then RED else ZERO)))
  }

  function Dirty(x: nat): D.Report
  {
    D.Report([], [D.Region(x, 0, 16, 16)])
  }

  lemma DirtyIs(left: nat, x: nat, y: nat)
    requires y < 16
    ensures D.InReport(Dirty(left), x, y) <==> left <= x < left + 16
  {
    if left <= x < left + 16 {
      assert D.Holds(Dirty(left).dirty[0], x, y);
    }
  }

  /** A blank screen is shown, its left half turns red in a frame that is torn, its right
      half in the next: every report names what changed since the frame before it, the
      link takes everything, and the left half is suspected no more. */
  lemma TornRun() returns (shots: seq<Shot>)
    ensures var r := Rig(Fresh(16), D.CLEAR_HINT, None, None);
            AllTakeable(shots) && Owes(r) && ReportedRun(r, shots) && !Owes(RigAfter(r, shots))
  {
    var r0 := Rig(Fresh(16), D.CLEAR_HINT, None, None);
    var blank, red: Surface := Filled(32, 16, ZERO), Filled(32, 16, RED);
    var s0, r1 := Blanked(r0, blank);
    var s1 := Torn(0, Halved(), Dirty(0));
    var r2 := RigStep(r1, s1);
    var n := |Offered(r2.agent, 0, red, LookedAt(D.Merged(r2.hint, Dirty(16)), 16, red))|;
    var s2 := Capture(0, red, Dirty(16), Link(true, n, true));
    MissedHalf(r2, blank, s2);
    HalvesReported(blank, red);
    shots := [s0, s1, s2];
    ThreeShots(r0, s0, s1, s2);
    hide RigStep, Owes, Names, Fresh;
  }

  /** The first frame of a blank screen, taken whole. */
  lemma Blanked(r: Rig, blank: Surface) returns (s: Shot, next: Rig)
    requires r == Rig(Fresh(16), D.CLEAR_HINT, None, None) && blank == Filled(32, 16, ZERO)
    ensures s.Capture? && Takeable(s) && s.monitor == 0 && s.cur == blank && Owes(r) && next == RigStep(r, s)
    ensures next.agent.model == Some(blank) && next.agent.monitor == 0 && !next.agent.keyframe && next.agent.edge == 16
    ensures next.hint == D.CLEAR_HINT && next.last == next.seen == Some((0, blank))
  {
    var n := |Offered(r.agent, 0, blank, LookedAt(D.Merged(r.hint, D.NOTHING), 16, blank))|;
    s := Capture(0, blank, D.NOTHING, Link(true, n, true));
    next := RigStep(r, s);
    var e := EventOf(r, s);
    assert InGrid(16, blank, (0, 0)) by { PixelInGrid(16, blank, 0, 0); }
    OfferedIs(r.agent, 0, blank, e.looked, (0, 0));
    assert Complete(r.agent, e);
    Settles(r.agent, e);
    hide Offered, Filled;
  }

  /** Only the right half is looked at, although the left differs. */
  lemma MissedHalf(r: Rig, blank: Surface, s: Shot)
    requires blank == Filled(32, 16, ZERO) && Ready(r.agent) && r.hint == D.CLEAR_HINT && r.agent.edge == 16
    requires r.agent.model == Some(blank) && r.agent.monitor == 0 && !r.agent.keyframe
    requires s.Capture? && s.monitor == 0 && s.cur == Filled(32, 16, RED) && s.damage == Dirty(16)
    requires s.link.begin && s.link.tiles >= |Offered(r.agent, 0, s.cur, LookedAt(D.Merged(r.hint, Dirty(16)), 16, s.cur))|
    ensures Takeable(s) && !Owes(RigStep(r, s))
  {
    var c: Cell := (0, 0);
    assert InGrid(16, s.cur, c) by { PixelInGrid(16, s.cur, 0, 0); }
    var bounds := Bounds(16, s.cur, c);
    assert Covers(bounds, 0, 0) by { CellCovers(16, s.cur, c, 0, 0); }
    assert At(blank, 0, 0) != At(s.cur, 0, 0);
    TileSame(blank, s.cur, bounds);
    var hint := HintFor(r, s);
    assert hint.damage.dirty == [D.Region(16, 0, 16, 16)] && hint.damage.moves == [] && !hint.whole;
    D.TouchedExactly(16, 32, 16, D.Region(16, 0, 16, 16), c);
    assert c !in D.TouchedBy(16, 32, 16, hint.damage) by { hide D.Touched; }
    hide Filled, Offered, Tile, Bounds;
    NotCovered(r, s, c);
  }

  lemma HalvesReported(blank: Surface, red: Surface)
    requires blank == Filled(32, 16, ZERO) && red == Filled(32, 16, RED)
    ensures Names(Some((0, blank)), 0, Halved(), Dirty(0)) && Names(Some((0, Halved())), 0, red, Dirty(16))
  {
    var half := Halved();
    hide Halved, Filled;
    forall x: nat, y: nat | On(red, x, y)
      ensures At(blank, x, y) == At(half, x, y) || D.InReport(Dirty(0), x, y)
      ensures At(half, x, y) == At(red, x, y) || D.InReport(Dirty(16), x, y)
    {
      DirtyIs(0, x, y);
      DirtyIs(16, x, y);
    }
    hide D.InReport;
  }

  lemma ThreeShots(r: Rig, s0: Shot, s1: Shot, s2: Shot)
    requires Ready(r.agent) && Takeable(s0) && Takeable(s1) && Takeable(s2)
    ensures var shots := [s0, s1, s2];
            var r1 := RigStep(r, s0);
            var r2 := RigStep(r1, s1);
            && AllTakeable(shots) && RigAfter(r, shots) == RigStep(r2, s2)
            && (Reported(r.seen, s0) && Reported(r1.seen, s1) && Reported(r2.seen, s2) ==> ReportedRun(r, shots))
  {
    hide RigStep, Reported, Takeable;
    var shots := [s0, s1, s2];
    assert shots[..2] == [s0, s1] && [s0, s1][..1] == [s0] && [s0][..0] == [];
    assert AllTakeable([s0]) && AllTakeable([s0, s1]);
    assert RigAfter(r, []) == r;
    assert RigAfter(r, [s0]) == RigStep(r, s0);
    assert RigAfter(r, [s0, s1]) == RigStep(RigStep(r, s0), s1);
    assert ReportedRun(r, []);
    assert Reported(r.seen, s0) ==> ReportedRun(r, [s0]);
  }
}
