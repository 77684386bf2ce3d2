/** The upload queue over sessions: what ends one, what it leaves on the network, and
    what the next one adds to it. */
module UploadRuns {
  import opened UploadQueue

  /** The rows the page holds, and the requests on the network whose rows it forgot. */
  datatype Queue = Queue(rows: Rows, orphans: seq<Transfer>)

  /** What befalls the queue: something within a session, an answer of 401 to a row's
      request, a sign-out, or the end of a request without a row (an answer, or a
      failure as status zero). */
  datatype Happening =
    | Row(event: Event)
    | Unauthorised(row: nat)
    | SignOut
    | OrphanEnds(orphan: nat, status: nat)

  const EMPTY := Queue([], [])

  /** The requests the browser has on the network. */
  function OnNetwork(q: Queue): nat
  {
    LiveFrom(q.rows, 0) + |q.orphans|
  }

  predicate Possible(q: Queue, h: Happening)
  {
    match h
    case Row(_) => true
    case Unauthorised(i) => i < |q.rows| && q.rows[i].live
    case SignOut => true
    case OrphanEnds(k, _) => k < |q.orphans|
  }

  /** Whether the session ends with this. */
  predicate Ends(h: Happening)
  {
    h.Unauthorised? || h.SignOut? || (h.OrphanEnds? && h.status == 401)
  }

  /** The rows as the end of the session finds them. */
  function Found(q: Queue, h: Happening): Rows
    requires Possible(q, h)
  {
    if h.Unauthorised? then Answered401(q.rows, h.row) else q.rows
  }

  /** The orphans that are still there once the request in question is over. */
  function Others(q: Queue, h: Happening): seq<Transfer>
    requires Possible(q, h)
  {
    if h.OrphanEnds? then q.orphans[..h.orphan] + q.orphans[h.orphan + 1..] else q.orphans
  }

  /** One happening; one that cannot happen changes nothing. The handler of a request
      whose row is gone still pumps, and still ends the session on a 401. */
  function Happen(q: Queue, h: Happening): Queue
  {
    if !Possible(q, h) then q
    else if h.Row? then Queue(Apply(q.rows, h.event), q.orphans)
    else if Ends(h) then Queue([], Others(q, h) + Orphans(AbandonFrom(Found(q, h), 0)))
    else Queue(Pump(q.rows), Others(q, h))
  }

  function RunAll(q: Queue, hs: seq<Happening>): Queue
    decreases |hs|
  {
    if hs == [] then q else RunAll(Happen(q, hs[0]), hs[1..])
  }

  /** What each happening does. The end of a session forgets every row, and adds what the
      aborting left on the network to the requests without one; after an answer of 401 the
      row it belongs to has no request to abort. */
  lemma HappensExactly(q: Queue, e: Event, i: nat, status: nat)
    ensures Happen(q, Row(e)) == Queue(Apply(q.rows, e), q.orphans)
    ensures Happen(q, SignOut) == Queue([], q.orphans + Orphans(AbandonFrom(q.rows, 0)))
    ensures i < |q.rows| && q.rows[i].live ==>
              Happen(q, Unauthorised(i))
              == Queue([], q.orphans + Orphans(AbandonFrom(q.rows[i := q.rows[i].(live := false)], 0)))
    ensures i < |q.orphans| ==>
              var others := q.orphans[..i] + q.orphans[i + 1..];
              Happen(q, OrphanEnds(i, status))
              == if status == 401 then Queue([], others + Orphans(AbandonFrom(q.rows, 0))) else Queue(Pump(q.rows), others)
  {
    hide Orphans, AbandonFrom, Pump;
  }

  // ---- what is on the network ----

  lemma {:induction false} OrphansAreLive(rows: Rows, i: nat)
    requires i <= |rows|
    ensures |Orphans(rows[i..])| == LiveFrom(rows, i)
    decreases |rows| - i
  {
    if i < |rows| {
      OrphansAreLive(rows, i + 1);
      assert rows[i..][0] == rows[i] && rows[i..][1..] == rows[i + 1..];
    }
  }

  lemma {:induction false} NoIdle(rows: Rows, i: nat)
    requires i <= |rows| && Valid(rows)
    ensures IdleFrom(rows, i) == 0
    decreases |rows| - i
  {
    if i < |rows| {
      NoIdle(rows, i + 1);
    }
  }

  /** Nothing is on the network but the rows that say they are sending and the orphans,
      so never more than three beyond the orphans. */
  lemma Network(q: Queue)
    requires Valid(q.rows)
    ensures OnNetwork(q) == Count(q.rows, Sending) + |q.orphans| <= 3 + |q.orphans|
  {
    NoIdle(q.rows, 0);
    SendingIs(q.rows, 0);
    assert q.rows[0..] == q.rows;
  }

  lemma FoundBudgeted(q: Queue, h: Happening)
    requires Valid(q.rows) && Possible(q, h)
    ensures Budgeted(Found(q, h))
  {
    if h.Unauthorised? {
      CountUpdate(q.rows, h.row, q.rows[h.row].(live := false), Sending);
    }
  }

  lemma {:induction false} AbandonBudgeted(rows: Rows, i: nat)
    requires i <= |rows| && Budgeted(rows)
    ensures Budgeted(AbandonFrom(rows, i))
    decreases |rows| - i
  {
    if i == |rows| {
      AbandonEnd(rows);
    } else {
      AbandonTurn(rows, i);
      hide AbandonFrom, Aborted, Budgeted;
      if rows[i].live {
        AbortedBudgeted(rows, i);
        AbandonBudgeted(Aborted(rows, i), i + 1);
      } else {
        AbandonBudgeted(rows, i + 1);
      }
    }
  }

  /** The end of a session adds at most three orphans, and adds none exactly when what
      it found was clean. */
  lemma EndLeaves(q: Queue, h: Happening)
    requires Valid(q.rows) && Possible(q, h) && Ends(h)
    ensures var left := Orphans(AbandonFrom(Found(q, h), 0));
            && Happen(q, h) == Queue([], Others(q, h) + left)
            && |left| <= 3
            && (left == [] <==> Clean(Found(q, h)))
  {
    var rows := Found(q, h);
    FoundBudgeted(q, h);
    AbandonExactly(rows);
    AbandonBudgeted(rows, 0);
    var last := AbandonFrom(rows, 0);
    OrphansAreLive(last, 0);
    SendingIs(last, 0);
    assert last[0..] == last;
    hide AbandonFrom, Clean;
  }

  lemma HappenValid(q: Queue, h: Happening)
    requires Valid(q.rows)
    ensures Valid(Happen(q, h).rows)
  {
    if Possible(q, h) {
      if h.Row? {
        ApplyValid(q.rows, h.event);
      } else if Ends(h) {
        AllStoppedValid([]);
      } else {
        PumpValid(q.rows);
      }
    }
  }

  /** In every state any run over any number of sessions can reach, at most three rows
      are sending, each with its request on the network, and what else is there is
      orphans. */
  lemma {:induction false} EveryState(q: Queue, hs: seq<Happening>)
    requires Valid(q.rows)
    ensures var now := RunAll(q, hs);
            && Valid(now.rows)
            && OnNetwork(now) == Count(now.rows, Sending) + |now.orphans| <= UPLOAD_CONCURRENCY + |now.orphans|
    decreases |hs|
  {
    if hs == [] {
      Network(q);
    } else {
      HappenValid(q, hs[0]);
      EveryState(Happen(q, hs[0]), hs[1..]);
    }
  }

  // ---- when the budget holds ----

  /** Every end of a session in the run found its rows clean. */
  ghost predicate EndsClean(q: Queue, hs: seq<Happening>)
    decreases |hs|
  {
    hs == [] ||
    (&& (Possible(q, hs[0]) && Ends(hs[0]) ==> Clean(Found(q, hs[0])))
     && EndsClean(Happen(q, hs[0]), hs[1..]))
  }

  /** No state of the run has an orphan. */
  predicate NeverOrphaned(q: Queue, hs: seq<Happening>)
    decreases |hs|
  {
    q.orphans == [] && (hs != [] ==> NeverOrphaned(Happen(q, hs[0]), hs[1..]))
  }

  /** No state of the run has more than three requests on the network. */
  predicate WithinBudget(q: Queue, hs: seq<Happening>)
    decreases |hs|
  {
    OnNetwork(q) <= 3 && (hs != [] ==> WithinBudget(Happen(q, hs[0]), hs[1..]))
  }

  lemma OneMore(q: Queue, h: Happening)
    requires Valid(q.rows) && q.orphans == []
    ensures Happen(q, h).orphans == [] <==> (Possible(q, h) && Ends(h) ==> Clean(Found(q, h)))
  {
    if Possible(q, h) && Ends(h) {
      EndLeaves(q, h);
    }
  }

  /** A run leaves no orphan at any moment if and only if every session it ends is
      ended clean; and then three is the most that is ever on the network. */
  lemma {:induction false} NeverOrphanedExactly(q: Queue, hs: seq<Happening>)
    requires Valid(q.rows) && q.orphans == []
    ensures NeverOrphaned(q, hs) <==> EndsClean(q, hs)
    ensures EndsClean(q, hs) ==> WithinBudget(q, hs)
    decreases |hs|
  {
    Network(q);
    if hs != [] {
      var next := Happen(q, hs[0]);
      HappenValid(q, hs[0]);
      OneMore(q, hs[0]);
      hide Happen, OnNetwork, Clean;
      if next.orphans == [] {
        NeverOrphanedExactly(next, hs[1..]);
      } else {
        assert !NeverOrphaned(next, hs[1..]);
      }
    }
  }

  // ---- a run that goes over ----

  function Within(events: seq<Event>): (hs: seq<Happening>)
    ensures |hs| == |events|
  {
    if events == [] then [] else [Row(events[0])] + Within(events[1..])
  }

  lemma {:induction false} SameSession(q: Queue, events: seq<Event>)
    ensures RunAll(q, Within(events)) == Queue(Run(q.rows, events), q.orphans)
    decreases |events|
  {
    if events != [] {
      assert Within(events)[1..] == Within(events[1..]);
      SameSession(Happen(q, Row(events[0])), events[1..]);
    }
  }

  lemma {:induction false} RunOn(q: Queue, first: seq<Happening>, second: seq<Happening>)
    ensures RunAll(q, first + second) == RunAll(RunAll(q, first), second)
    decreases |first|
  {
    if first == [] {
      assert first + second == second;
    } else {
      assert (first + second)[1..] == first[1..] + second;
      RunOn(Happen(q, first[0]), first[1..], second);
    }
  }

  lemma ThreeStarted() returns (events: seq<Event>)
    ensures Valid(Run([], events)) && Count(Run([], events), Sending) == 3
  {
    var add := Enqueue(true, true);
    RunThree(add);
    var q := [Waits(1), Waits(2), Waits(3)];
    PumpThree(q);
    events := [add, add, add] + [Begin];
    RunTwice([], [add, add, add], [Begin]);
    assert Run(q, [Begin]) == Run(Pump(q), []) == Pump(q);
    RunValid([], events);
    var s := Pump(q);
    assert s == [s[0], s[1]] + [s[2]] && [s[0], s[1]] == [s[0]] + [s[1]];
    CountAppend([s[0], s[1]], s[2], Sending);
    CountAppend([s[0]], s[1], Sending);
  }

  /** Everything cancelled and then cleared leaves no row. */
  lemma {:induction false} NoneLeft(rows: Rows)
    requires forall k :: 0 <= k < |rows| ==> !TransferLive(rows[k].phase)
    ensures LiveRows(rows) == []
  {
    if rows != [] {
      NoneLeft(rows[1..]);
    }
  }

  lemma StartOver(rows: Rows)
    requires Valid(rows)
    ensures Run(rows, [CancelAll, ClearFinished]) == []
  {
    var all := CancelFrom(rows, 0);
    CancelAllExact(rows);
    NoneLeft(all);
    assert [CancelAll, ClearFinished][1..] == [ClearFinished] && [ClearFinished][1..] == [];
    hide CancelFrom, LiveRows;
    assert Run(rows, [CancelAll, ClearFinished]) == Run(all, [ClearFinished]) == Run(LiveRows(all), []);
  }

  /** Some use of the session puts more than three requests on the network. */
  ghost predicate CanGoOver(q: Queue)
  {
    exists events: seq<Event> :: OnNetwork(RunAll(q, Within(events))) > UPLOAD_CONCURRENCY
  }

  /** Exactly when a session can be taken over the budget: when it began with a forgotten
      request still on the network. */
  lemma OverBudgetExactly(q: Queue)
    requires Valid(q.rows)
    ensures CanGoOver(q) <==> q.orphans != []
  {
    if q.orphans == [] {
      forall events: seq<Event> ensures OnNetwork(RunAll(q, Within(events))) <= UPLOAD_CONCURRENCY {
        SameSession(q, events);
        EveryState(q, Within(events));
      }
    } else {
      var three := ThreeStarted();
      var events := [CancelAll, ClearFinished] + three;
      StartOver(q.rows);
      RunTwice(q.rows, [CancelAll, ClearFinished], three);
      SameSession(q, events);
      var now := Queue(Run([], three), q.orphans);
      Network(now);
      assert RunAll(q, Within(events)) == now;
    }
  }

  /** A session that ends with an addressable row waiting in front of three that are
      sending, and then a session that starts three: more than three on the network. */
  lemma OverBudgetRun() returns (hs: seq<Happening>)
    ensures OnNetwork(RunAll(EMPTY, hs)) > UPLOAD_CONCURRENCY
  {
    var first := OrphanRun();
    var second := ThreeStarted();
    var before := Queue(Run([], first), []);
    SameSession(EMPTY, first);
    var between := Happen(before, SignOut);
    assert between == Queue([], Orphans(AbandonFrom(before.rows, 0)));
    SameSession(between, second);
    var last := Queue(Run([], second), between.orphans);
    Network(last);
    assert RunAll(before, [SignOut]) == RunAll(between, []) == between;
    RunOn(before, [SignOut], Within(second));
    RunOn(EMPTY, Within(first), [SignOut] + Within(second));
    hs := Within(first) + ([SignOut] + Within(second));
  }
}
