/** The console's upload queue (`sites/console/app.js`): a scheduler with a budget
    of three, retries, and cancellation that re-enters the scheduler, because
    aborting a request runs its handler before `abort()` returns. */
module UploadQueue {

  const UPLOAD_CONCURRENCY := 3

  datatype Phase = Queued | Sending | Done | Collided | Refused | Cancelled

  /** One row. `live` says its request is on the network; `addressable` whether a
      URL can name it, which is fixed when it is queued. */
  datatype Transfer = Transfer(id: nat, phase: Phase, live: bool, addressable: bool, replace: bool)

  type Rows = seq<Transfer>

  predicate TransferLive(phase: Phase)
  {
    phase == Queued || phase == Sending
  }

  predicate TransferRetryable(phase: Phase)
  {
    phase == Refused || phase == Cancelled || phase == Collided
  }

  function Count(rows: Rows, phase: Phase): nat
  {
    if rows == [] then 0 else (if rows[0].phase == phase then 1 else 0) + Count(rows[1..], phase)
  }

  // ---- the scheduler ----

  /** `beginUpload`: a row no URL can name is left as it is. */
  function Begun(t: Transfer): Transfer
  {
    if t.addressable then t.(phase := Sending, live := true) else t
  }

  /** The scheduler's walk over the rest of the list, with `running` counted so far:
      a begun row costs one whether or not beginning it did anything. */
  function PumpFrom(rows: Rows, running: nat): (r: Rows)
    ensures |r| == |rows|
  {
    if rows == [] || running >= UPLOAD_CONCURRENCY then rows
    else if rows[0].phase != Queued then [rows[0]] + PumpFrom(rows[1..], running)
    else [Begun(rows[0])] + PumpFrom(rows[1..], running + 1)
  }

  function Pump(rows: Rows): Rows
  {
    PumpFrom(rows, Count(rows, Sending))
  }

  /** How many queued rows precede position `i`. */
  function QueuedBefore(rows: Rows, i: nat): nat
    requires i <= |rows|
  {
    Count(rows[..i], Queued)
  }

  lemma {:induction false} PumpFromAt(rows: Rows, running: nat, i: nat)
    requires i < |rows|
    ensures PumpFrom(rows, running)[i] ==
            if rows[i].phase == Queued && running + QueuedBefore(rows, i) < UPLOAD_CONCURRENCY then Begun(rows[i]) else rows[i]
  {
    if running < UPLOAD_CONCURRENCY {
      if i > 0 {
        assert rows[..i][1..] == rows[1..][..i - 1];
        PumpFromAt(rows[1..], running + (if rows[0].phase == Queued then 1 else 0), i - 1);
      }
    }
  }

  /** What a pump does, row by row: the queued rows that fit what is left of the
      budget, oldest first, are begun; every other row is untouched. */
  lemma PumpAt(rows: Rows, i: nat)
    requires i < |rows|
    ensures Pump(rows)[i] ==
            if rows[i].phase == Queued && Count(rows, Sending) + QueuedBefore(rows, i) < UPLOAD_CONCURRENCY
            then Begun(rows[i]) else rows[i]
  {
    PumpFromAt(rows, Count(rows, Sending), i);
  }

  lemma PumpFromTurn(rows: Rows, running: nat, phase: Phase)
    requires rows != [] && running < UPLOAD_CONCURRENCY
    ensures var t := rows[0];
            var now, next := if t.phase == Queued then Begun(t) else t, running + (if t.phase == Queued then 1 else 0);
            Count(PumpFrom(rows, running), phase) == (if now.phase == phase then 1 else 0) + Count(PumpFrom(rows[1..], next), phase)
  {
    var next := running + (if rows[0].phase == Queued then 1 else 0);
    assert PumpFrom(rows, running)[1..] == PumpFrom(rows[1..], next);
  }

  lemma {:induction false} PumpFromBounds(rows: Rows, running: nat)
    ensures var room := if running < UPLOAD_CONCURRENCY then UPLOAD_CONCURRENCY - running else 0;
            Count(rows, Sending) <= Count(PumpFrom(rows, running), Sending) <= Count(rows, Sending) + room
  {
    if rows != [] && running < UPLOAD_CONCURRENCY {
      PumpFromTurn(rows, running, Sending);
      hide PumpFrom;
      PumpFromBounds(rows[1..], running + (if rows[0].phase == Queued then 1 else 0));
    }
  }

  lemma {:induction false} PumpFromCount(rows: Rows, running: nat)
    requires AllAddressable(rows) && running < UPLOAD_CONCURRENCY
    ensures var begun := Min(UPLOAD_CONCURRENCY - running, Count(rows, Queued));
            && Count(PumpFrom(rows, running), Sending) == Count(rows, Sending) + begun
            && Count(PumpFrom(rows, running), Queued) == Count(rows, Queued) - begun
  {
    if rows != [] {
      var next := running + (if rows[0].phase == Queued then 1 else 0);
      PumpFromTurn(rows, running, Sending);
      PumpFromTurn(rows, running, Queued);
      if next < UPLOAD_CONCURRENCY {
        hide PumpFrom;
        PumpFromCount(rows[1..], next);
      }
    }
  }

  function Min(a: nat, b: nat): nat
  {
    if a <= b then a else b
  }

  /** Every row waiting in the queue can be named by a URL. */
  predicate AllAddressable(rows: Rows)
  {
    forall i :: 0 <= i < |rows| && rows[i].phase == Queued ==> rows[i].addressable
  }

  /** A row is on the network exactly while it is sending, and at most three are. */
  ghost predicate Valid(rows: Rows)
  {
    && Count(rows, Sending) <= 3
    && (forall i :: 0 <= i < |rows| ==> (rows[i].live <==> rows[i].phase == Sending))
  }

  lemma PumpValid(rows: Rows)
    requires Valid(rows)
    ensures Valid(Pump(rows))
  {
    PumpFromBounds(rows, Count(rows, Sending));
    forall i | 0 <= i < |rows| ensures Pump(rows)[i].live <==> Pump(rows)[i].phase == Sending {
      PumpAt(rows, i);
    }
  }

  /** The scheduler keeps the budget full: when every queued row is addressable,
      after a pump three are sending or none waits, and nothing was started while
      an older row was left waiting. */
  lemma PumpSaturates(rows: Rows)
    requires Valid(rows) && AllAddressable(rows)
    ensures Count(Pump(rows), Sending) == 3 || Count(Pump(rows), Queued) == 0
    ensures forall i, j :: 0 <= i < j < |rows| && rows[j] != Pump(rows)[j] ==> Pump(rows)[i].phase != Queued
  {
    if Count(rows, Sending) < UPLOAD_CONCURRENCY {
      PumpFromCount(rows, Count(rows, Sending));
    }
    forall i, j | 0 <= i < j < |rows| && rows[j] != Pump(rows)[j] ensures Pump(rows)[i].phase != Queued {
      PumpAt(rows, i);
      PumpAt(rows, j);
      QueuedBeforeGrows(rows, i, j);
    }
  }

  lemma {:induction false} QueuedBeforeGrows(rows: Rows, i: nat, j: nat)
    requires i < j <= |rows|
    ensures QueuedBefore(rows, j) >= QueuedBefore(rows, i) + (if rows[i].phase == Queued then 1 else 0)
  {
    if i == 0 {
      assert rows[..j][0] == rows[0] && rows[..0] == [];
    } else {
      assert rows[..j][1..] == rows[1..][..j - 1] && rows[..i][1..] == rows[1..][..i - 1];
      QueuedBeforeGrows(rows[1..], i - 1, j - 1);
    }
  }

  lemma QueuedBeforeNext(rows: Rows, i: nat)
    requires i < |rows|
    ensures QueuedBefore(rows, i + 1) == QueuedBefore(rows, i) + (if rows[i].phase == Queued then 1 else 0)
  {
    CountAppend(rows[..i], rows[i], Queued);
    assert rows[..i + 1] == rows[..i] + [rows[i]];
  }

  /** Past the point where the budget is spent, a pump changes nothing. */
  lemma PumpRest(rows: Rows, i: nat)
    requires i <= |rows| && (i < |rows| ==> Count(rows, Sending) + QueuedBefore(rows, i) >= UPLOAD_CONCURRENCY)
    ensures forall k :: i <= k < |rows| ==> Pump(rows)[k] == rows[k]
  {
    forall k | i <= k < |rows| ensures Pump(rows)[k] == rows[k] {
      PumpAt(rows, k);
      if i < k {
        QueuedBeforeGrows(rows, i, k);
      }
    }
  }

  /** Position `i` holds a queued row the next pump will spend budget on. */
  ghost predicate InReach(rows: Rows, i: nat)
  {
    i < |rows| && rows[i].phase == Queued && Count(rows, Sending) + QueuedBefore(rows, i) < UPLOAD_CONCURRENCY
  }

  /** A row no URL can name will use up budget that an addressable row behind it is waiting for. */
  ghost predicate Blocked(rows: Rows)
  {
    && (exists k: nat :: InReach(rows, k) && !rows[k].addressable)
    && (exists i: nat :: i < |rows| && rows[i].phase == Queued && rows[i].addressable && !InReach(rows, i))
  }

  /** Budget spent on rows that cannot start. */
  function Wasted(rows: Rows, running: nat): nat
  {
    if rows == [] || running >= UPLOAD_CONCURRENCY then 0
    else if rows[0].phase != Queued then Wasted(rows[1..], running)
    else (if rows[0].addressable then 0 else 1) + Wasted(rows[1..], running + 1)
  }

  lemma {:induction false} PumpFromSending(rows: Rows, running: nat)
    requires running <= UPLOAD_CONCURRENCY
    ensures Count(PumpFrom(rows, running), Sending) + Wasted(rows, running)
         == Count(rows, Sending) + Min(UPLOAD_CONCURRENCY - running, Count(rows, Queued))
  {
    if rows != [] && running < UPLOAD_CONCURRENCY {
      var tail := PumpFrom(rows[1..], running + (if rows[0].phase == Queued then 1 else 0));
      PumpFromSending(rows[1..], running + (if rows[0].phase == Queued then 1 else 0));
      assert PumpFrom(rows, running)[1..] == tail;
    }
  }

  lemma {:induction false} WastedAt(rows: Rows, running: nat)
    ensures Wasted(rows, running) > 0 <==>
            exists k: nat :: k < |rows| && rows[k].phase == Queued && !rows[k].addressable
                             && running + QueuedBefore(rows, k) < UPLOAD_CONCURRENCY
  {
    if rows != [] && running < UPLOAD_CONCURRENCY {
      var next := running + (if rows[0].phase == Queued then 1 else 0);
      WastedAt(rows[1..], next);
      assert forall k :: 0 < k < |rows| ==> rows[..k][1..] == rows[1..][..k - 1];
      assert forall k :: 0 < k < |rows| ==> running + QueuedBefore(rows, k) == next + QueuedBefore(rows[1..], k - 1);
      assert QueuedBefore(rows, 0) == 0;
      if Wasted(rows[1..], next) > 0 {
        var k: nat :| k < |rows[1..]| && rows[1..][k].phase == Queued && !rows[1..][k].addressable
                      && next + QueuedBefore(rows[1..], k) < UPLOAD_CONCURRENCY;
        assert rows[k + 1] == rows[1..][k] && running + QueuedBefore(rows, k + 1) < UPLOAD_CONCURRENCY;
      }
      if k: nat :| k < |rows| && rows[k].phase == Queued && !rows[k].addressable
                   && running + QueuedBefore(rows, k) < UPLOAD_CONCURRENCY {
        if k > 0 {
          assert rows[k] == rows[1..][k - 1] && next + QueuedBefore(rows[1..], k - 1) < UPLOAD_CONCURRENCY;
        }
      }
    }
  }

  /** Exactly when a pump leaves the budget unfilled with work waiting. */
  lemma PumpFillsExactly(rows: Rows)
    requires Valid(rows)
    ensures Count(Pump(rows), Sending) == UPLOAD_CONCURRENCY
            || (forall i :: 0 <= i < |rows| && Pump(rows)[i].phase == Queued ==> !Pump(rows)[i].addressable)
       <==> !Blocked(rows)
  {
    var running := Count(rows, Sending);
    PumpFromSending(rows, running);
    WastedAt(rows, running);
    forall i | 0 <= i < |rows|
      ensures Pump(rows)[i].phase == Queued && Pump(rows)[i].addressable
         <==> rows[i].phase == Queued && rows[i].addressable && !InReach(rows, i)
    {
      PumpAt(rows, i);
    }
    if i: nat :| i < |rows| && rows[i].phase == Queued && rows[i].addressable && !InReach(rows, i) {
      QueuedBeforeGrows(rows, i, |rows|);
      assert rows[..|rows|] == rows;
      assert Count(rows, Queued) > UPLOAD_CONCURRENCY - running;
    }
    if k: nat :| InReach(rows, k) && !rows[k].addressable {
      assert Wasted(rows, running) > 0;
    }
  }

  // ---- cancellation, which re-enters the scheduler ----

  function Stopped(t: Transfer): Transfer
  {
    t.(phase := Cancelled, live := false)
  }

  /** `request.abort()`: a live request runs its abort handler, which pumps, before
      the call returns; one that has already finished runs nothing. */
  function Aborted(rows: Rows, i: nat): (r: Rows)
    requires i < |rows|
    ensures |r| == |rows|
  {
    if rows[i].live then Pump(rows[i := Stopped(rows[i])]) else rows
  }

  function CancelOne(rows: Rows, i: nat): (r: Rows)
    requires i < |rows|
    ensures |r| == |rows|
  {
    if rows[i].phase == Queued then rows[i := rows[i].(phase := Cancelled)]
    else if rows[i].phase == Sending then Aborted(rows, i)
    else rows
  }

  function CancelFrom(rows: Rows, i: nat): (r: Rows)
    requires i <= |rows|
    ensures |r| == |rows|
    decreases |rows| - i
  {
    if i == |rows| then rows
    else CancelFrom(if TransferLive(rows[i].phase) then CancelOne(rows, i) else rows, i + 1)
  }

  /** `now` is `was` with every live row before `i` stopped, and perhaps some queued
      rows after it begun meanwhile. */
  ghost predicate CancelledUpTo(was: Rows, now: Rows, i: nat)
  {
    && |now| == |was| && i <= |was|
    && (forall k :: 0 <= k < i ==> now[k] == if TransferLive(was[k].phase) then Stopped(was[k]) else was[k])
    && (forall k :: i <= k < |was| ==> now[k] == was[k] || (was[k].phase == Queued && now[k] == Begun(was[k])))
  }

  lemma {:induction false} CancelFromExact(was: Rows, now: Rows, i: nat)
    requires Valid(was) && CancelledUpTo(was, now, i)
    ensures CancelledUpTo(was, CancelFrom(now, i), |was|)
    decreases |was| - i
  {
    if i < |was| {
      var next := if TransferLive(now[i].phase) then CancelOne(now, i) else now;
      if now[i].phase == Sending {
        forall k | 0 <= k < |was|
          ensures next[k] == now[i := Stopped(now[i])][k] || (k > i && next[k] == Begun(now[k]) && now[k].phase == Queued)
        {
          PumpAt(now[i := Stopped(now[i])], k);
        }
      }
      CancelFromExact(was, next, i + 1);
    }
  }

  /** Cancelling everything, although each abort starts another transfer in the
      middle of the loop, comes to the same as stopping every live row at once. */
  lemma CancelAllExact(rows: Rows)
    requires Valid(rows)
    ensures forall k :: 0 <= k < |rows| ==>
              CancelFrom(rows, 0)[k] == if TransferLive(rows[k].phase) then Stopped(rows[k]) else rows[k]
  {
    CancelFromExact(rows, rows, 0);
  }

  // ---- abandonment at the end of a session ----

  function AbandonFrom(rows: Rows, i: nat): (r: Rows)
    requires i <= |rows|
    ensures |r| == |rows|
    decreases |rows| - i
  {
    if i == |rows| then rows
    else AbandonFrom(if rows[i].phase == Sending then Aborted(rows, i) else rows, i + 1)
  }

  /** What is left on the network once the list has been emptied. */
  function Orphans(rows: Rows): seq<Transfer>
  {
    if rows == [] then [] else (if rows[0].live then [rows[0]] else []) + Orphans(rows[1..])
  }

  predicate NoneLive(rows: Rows)
  {
    forall k :: 0 <= k < |rows| ==> !rows[k].live
  }

  lemma {:induction false} OrphansEmpty(rows: Rows)
    ensures Orphans(rows) == [] <==> NoneLive(rows)
  {
    if rows != [] {
      OrphansEmpty(rows[1..]);
      assert NoneLive(rows) <==> !rows[0].live && NoneLive(rows[1..]);
    }
  }

  /** At the moment of abandoning, a row may say it is sending with its request
      already finished: the one whose 401 ended the session. */
  ghost predicate Budgeted(rows: Rows)
  {
    && Count(rows, Sending) <= UPLOAD_CONCURRENCY
    && (forall i :: 0 <= i < |rows| && rows[i].live ==> rows[i].phase == Sending)
  }

  /** No addressable row waits in front of one that is on the network. */
  ghost predicate Ordered(rows: Rows)
  {
    forall q, l :: 0 <= q < l < |rows| && rows[l].live ==> !(rows[q].phase == Queued && rows[q].addressable)
  }

  lemma {:induction false} CountUpdate(rows: Rows, i: nat, t: Transfer, phase: Phase)
    requires i < |rows|
    ensures var out, into := if rows[i].phase == phase then 1 else 0, if t.phase == phase then 1 else 0;
            Count(rows[i := t], phase) == Count(rows, phase) - out + into
  {
    if i == 0 {
      assert rows[0 := t][1..] == rows[1..];
    } else {
      assert rows[i := t][1..] == rows[1..][i - 1 := t];
      CountUpdate(rows[1..], i - 1, t, phase);
    }
  }

  lemma AbortedBudgeted(rows: Rows, i: nat)
    requires Budgeted(rows) && i < |rows|
    ensures Budgeted(Aborted(rows, i))
  {
    if rows[i].live {
      var stopped := rows[i := Stopped(rows[i])];
      CountUpdate(rows, i, Stopped(rows[i]), Sending);
      PumpFromBounds(stopped, Count(stopped, Sending));
      forall k | 0 <= k < |rows| && Pump(stopped)[k].live ensures Pump(stopped)[k].phase == Sending {
        PumpAt(stopped, k);
      }
    }
  }

  // ---- what abandoning leaves behind, exactly ----

  /** A row that waits and can be started. */
  predicate Wanting(t: Transfer)
  {
    t.phase == Queued && t.addressable
  }

  /** Rows on the network from `i` on. */
  function LiveFrom(rows: Rows, i: nat): nat
    requires i <= |rows|
    decreases |rows| - i
  {
    if i == |rows| then 0 else (if rows[i].live then 1 else 0) + LiveFrom(rows, i + 1)
  }

  /** Rows from `i` on that say they are sending and are not. */
  function IdleFrom(rows: Rows, i: nat): nat
    requires i <= |rows|
    decreases |rows| - i
  {
    if i == |rows| then 0 else (if rows[i].phase == Sending && !rows[i].live then 1 else 0) + IdleFrom(rows, i + 1)
  }

  /** Rows in front of `k` that wait although no URL can name them. */
  function StuckBefore(rows: Rows, k: nat): nat
    requires k <= |rows|
  {
    if k == 0 then 0 else StuckBefore(rows, k - 1) + (if rows[k - 1].phase == Queued && !rows[k - 1].addressable then 1 else 0)
  }

  ghost predicate AnyLive(rows: Rows, i: nat, k: nat)
    requires k <= |rows|
  {
    exists j :: i <= j < k && rows[j].live
  }

  /** The row will not be left on the network by a loop that has come to `i`: the rows
      no URL can name keep it waiting, or nothing behind it is aborted, or it is started
      while the loop is still in front of it. */
  ghost predicate Cleared(rows: Rows, i: nat, k: nat)
    requires i <= |rows| && k < |rows|
  {
    var idle, stuck, behind := IdleFrom(rows, 0), StuckBefore(rows, k), LiveFrom(rows, if k < i then i else k + 1);
    || idle + stuck >= UPLOAD_CONCURRENCY
    || behind == 0
    || (AnyLive(rows, i, k) && idle + stuck + behind < UPLOAD_CONCURRENCY)
  }

  ghost predicate CleanFrom(rows: Rows, i: nat)
    requires i <= |rows|
  {
    forall k :: 0 <= k < |rows| && Wanting(rows[k]) ==> Cleared(rows, i, k)
  }

  ghost predicate Clean(rows: Rows)
  {
    CleanFrom(rows, 0)
  }

  lemma {:induction false} SendingIs(rows: Rows, i: nat)
    requires i <= |rows| && Budgeted(rows)
    ensures Count(rows[i..], Sending) == LiveFrom(rows, i) + IdleFrom(rows, i)
    decreases |rows| - i
  {
    if i < |rows| {
      assert rows[i..][0] == rows[i] && rows[i..][1..] == rows[i + 1..];
      hide Budgeted;
      SendingIs(rows, i + 1);
      assert rows[i].live ==> rows[i].phase == Sending by { LiveIsSending(rows, i); }
    }
  }

  lemma LiveIsSending(rows: Rows, i: nat)
    requires Budgeted(rows) && i < |rows|
    ensures rows[i].live ==> rows[i].phase == Sending
  {
  }

  lemma {:induction false} SameLive(a: Rows, b: Rows, i: nat)
    requires i <= |a| == |b| && forall k :: i <= k < |a| ==> a[k].live == b[k].live
    ensures LiveFrom(a, i) == LiveFrom(b, i)
    decreases |a| - i
  {
    if i < |a| {
      SameLive(a, b, i + 1);
    }
  }

  lemma {:induction false} SameIdle(a: Rows, b: Rows, i: nat)
    requires i <= |a| == |b|
    requires forall k :: i <= k < |a| ==> ((a[k].phase == Sending && !a[k].live) <==> (b[k].phase == Sending && !b[k].live))
    ensures IdleFrom(a, i) == IdleFrom(b, i)
    decreases |a| - i
  {
    if i < |a| {
      SameIdle(a, b, i + 1);
    }
  }

  lemma {:induction false} SameStuck(a: Rows, b: Rows, k: nat)
    requires k <= |a| == |b|
    requires forall j :: 0 <= j < k ==>
               ((a[j].phase == Queued && !a[j].addressable) <==> (b[j].phase == Queued && !b[j].addressable))
    ensures StuckBefore(a, k) == StuckBefore(b, k)
  {
    if k > 0 {
      SameStuck(a, b, k - 1);
    }
  }

  lemma {:induction false} StuckGrows(rows: Rows, i: nat, j: nat)
    requires i <= j <= |rows|
    ensures StuckBefore(rows, i) <= StuckBefore(rows, j)
  {
    if i < j {
      StuckGrows(rows, i, j - 1);
    }
  }

  lemma {:induction false} LiveGrows(rows: Rows, i: nat, j: nat)
    requires i <= j <= |rows|
    ensures LiveFrom(rows, j) <= LiveFrom(rows, i)
    ensures (forall k :: i <= k < j ==> !rows[k].live) ==> LiveFrom(rows, i) == LiveFrom(rows, j)
    ensures LiveFrom(rows, j) == 0 ==> forall k :: j <= k < |rows| ==> !rows[k].live
    decreases |rows| - i
  {
    if i < j {
      LiveGrows(rows, i + 1, j);
    } else if i < |rows| {
      LiveGrows(rows, i + 1, i + 1);
    }
  }

  /** The queued rows in front of `k`: at least the stuck ones, and only those if none
      of them could be started. */
  lemma {:induction false} QueuedIsStuck(rows: Rows, k: nat)
    requires k <= |rows|
    ensures QueuedBefore(rows, k) >= StuckBefore(rows, k)
    ensures (forall j :: 0 <= j < k ==> !Wanting(rows[j])) ==> QueuedBefore(rows, k) == StuckBefore(rows, k)
  {
    if k == 0 {
      assert rows[..0] == [];
    } else {
      QueuedIsStuck(rows, k - 1);
      QueuedBeforeNext(rows, k - 1);
      hide QueuedBefore;
    }
  }

  function FirstWanting(rows: Rows, i: nat): (q: nat)
    requires i <= |rows|
    ensures i <= q <= |rows| && (q < |rows| ==> Wanting(rows[q]))
    ensures forall k :: i <= k < q ==> !Wanting(rows[k])
    decreases |rows| - i
  {
    if i == |rows| || Wanting(rows[i]) then i else FirstWanting(rows, i + 1)
  }

  /** The rows after `i` was aborted, and which of them the pump could reach. */
  ghost predicate After(rows: Rows, i: nat, stopped: Rows, next: Rows)
  {
    && Budgeted(rows) && i < |rows| == |next| && rows[i].live && stopped == rows[i := Stopped(rows[i])]
    && (forall k :: 0 <= k < i ==> !rows[k].live)
    && (forall k :: 0 <= k < |rows| ==> next[k] == if InReach(stopped, k) then Begun(stopped[k]) else stopped[k])
  }

  lemma AfterAborted(rows: Rows, i: nat)
    requires Budgeted(rows) && i < |rows| && rows[i].live && forall k :: 0 <= k < i ==> !rows[k].live
    ensures After(rows, i, rows[i := Stopped(rows[i])], Aborted(rows, i))
  {
    AbortedAt(rows, i);
    hide InReach, Aborted;
  }

  /** What the pump reaches: rows that wait, in front of a budget of three. */
  lemma ReachIs(rows: Rows, i: nat, stopped: Rows, next: Rows, k: nat)
    requires After(rows, i, stopped, next) && k < |rows|
    ensures InReach(stopped, k) <==>
            && rows[k].phase == Queued
            && IdleFrom(rows, 0) + LiveFrom(rows, i + 1) + QueuedBefore(stopped, k) < UPLOAD_CONCURRENCY
    ensures rows[k].phase == Queued ==> k != i && stopped[k] == rows[k]
  {
    SendingIs(rows, 0);
    CountUpdate(rows, i, Stopped(rows[i]), Sending);
    LiveGrows(rows, 0, i);
    assert rows[0..] == rows && rows[i].phase == Sending;
    hide Count, QueuedBefore;
  }

  /** Each other row is as it was, or it waited and was started. */
  lemma OtherRow(rows: Rows, i: nat, stopped: Rows, next: Rows, j: nat)
    requires After(rows, i, stopped, next) && j < |rows| && j != i
    ensures next[j] == rows[j] || (Wanting(rows[j]) && InReach(stopped, j) && next[j] == Begun(rows[j]))
    ensures rows[j].live ==> next[j].live
    ensures !InReach(stopped, j) ==> next[j] == rows[j]
  {
    LiveIsSending(rows, j);
    assert stopped[j] == rows[j];
  }

  /** Nothing is lost or found but the rows aborted and begun. */
  lemma AfterKeeps(rows: Rows, i: nat, stopped: Rows, next: Rows, k: nat)
    requires After(rows, i, stopped, next) && k < |rows|
    ensures IdleFrom(next, 0) == IdleFrom(rows, 0) && StuckBefore(next, k) == StuckBefore(rows, k)
    ensures StuckBefore(stopped, k) == StuckBefore(rows, k)
  {
    assert rows[i].phase == Sending && next[i] == stopped[i] by { LiveIsSending(rows, i); }
    forall j | 0 <= j < |rows| && j != i
      ensures stopped[j] == rows[j] && (next[j] == rows[j] || (Wanting(rows[j]) && next[j] == Begun(rows[j])))
    {
      OtherRow(rows, i, stopped, next, j);
    }
    hide InReach, After, Budgeted;
    SameIdle(rows, next, 0);
    SameStuck(rows, next, k);
    SameStuck(rows, stopped, k);
  }

  /** Where a row that could be started is not reached, no later row is. */
  lemma NoneLater(rows: Rows, i: nat, stopped: Rows, next: Rows, k: nat)
    requires After(rows, i, stopped, next) && k < |rows| && Wanting(rows[k]) && !InReach(stopped, k)
    ensures forall j :: k < j < |rows| ==> !InReach(stopped, j)
  {
    ReachIs(rows, i, stopped, next, k);
    forall j | k < j < |rows| ensures !InReach(stopped, j) {
      ReachIs(rows, i, stopped, next, j);
      QueuedBeforeGrows(stopped, k, j);
    }
  }

  /** If no row up to `k` that could be started is reached, the stuck rows in front of
      `k` fill the budget. */
  lemma NoneReached(rows: Rows, i: nat, stopped: Rows, next: Rows, k: nat)
    requires After(rows, i, stopped, next) && k < |rows| && Wanting(rows[k])
    requires forall j :: 0 <= j <= k && Wanting(rows[j]) ==> !InReach(stopped, j)
    ensures IdleFrom(rows, 0) + LiveFrom(rows, i + 1) + StuckBefore(rows, k) >= UPLOAD_CONCURRENCY
  {
    var q := FirstWanting(rows, 0);
    assert q <= k;
    ReachIs(rows, i, stopped, next, q);
    AfterKeeps(rows, i, stopped, next, q);
    assert forall j :: 0 <= j < q ==> !Wanting(stopped[j]);
    QueuedIsStuck(stopped, q);
    StuckGrows(rows, q, k);
    hide After, InReach;
    assert Wanting(rows[q]) && !InReach(stopped, q);
  }

  /** A row behind the loop that is reached is left on the network. */
  lemma LeftBehind(rows: Rows, i: nat, stopped: Rows, next: Rows, k: nat)
    requires After(rows, i, stopped, next) && k < i && Wanting(rows[k]) && InReach(stopped, k)
    ensures !NoneLive(AbandonFrom(next, i + 1)) && !CleanFrom(rows, i)
  {
    ReachIs(rows, i, stopped, next, k);
    AfterKeeps(rows, i, stopped, next, k);
    QueuedIsStuck(stopped, k);
    AbandonKeeps(next, i + 1, k);
    assert AbandonFrom(next, i + 1)[k].live;
    assert !Cleared(rows, i, k);
  }

  /** Some row behind the loop is reached. */
  ghost predicate Overtaken(rows: Rows, i: nat, stopped: Rows)
    requires i <= |rows|
  {
    exists k: nat :: k < i && Wanting(rows[k]) && InReach(stopped, k)
  }

  lemma OvertakenIsLeft(rows: Rows, i: nat, stopped: Rows, next: Rows)
    requires After(rows, i, stopped, next) && Overtaken(rows, i, stopped)
    ensures !NoneLive(AbandonFrom(next, i + 1)) && !CleanFrom(rows, i)
  {
    var k: nat :| k < i && Wanting(rows[k]) && InReach(stopped, k);
    LeftBehind(rows, i, stopped, next, k);
    hide *;
  }

  /** A row that is reached in front of the loop is cleared. */
  lemma ReachedIsCleared(rows: Rows, i: nat, stopped: Rows, next: Rows, k: nat)
    requires After(rows, i, stopped, next) && i < k < |rows| && Wanting(rows[k]) && InReach(stopped, k)
    ensures Cleared(rows, i, k) && !Wanting(next[k])
  {
    ReachIs(rows, i, stopped, next, k);
    AfterKeeps(rows, i, stopped, next, k);
    QueuedIsStuck(stopped, k);
    LiveGrows(rows, i + 1, k + 1);
    assert AnyLive(rows, i, k);
  }

  /** A row in front of the loop that is not reached is as it was. */
  lemma AheadKept(rows: Rows, i: nat, stopped: Rows, next: Rows, k: nat)
    requires After(rows, i, stopped, next) && i < k < |rows| && Wanting(rows[k]) && !InReach(stopped, k)
    requires forall j :: 0 <= j < i && Wanting(rows[j]) ==> !InReach(stopped, j)
    ensures Wanting(next[k]) && (Cleared(rows, i, k) <==> Cleared(next, i + 1, k))
  {
    NoneLater(rows, i, stopped, next, k);
    AfterKeeps(rows, i, stopped, next, k);
    forall j | k < j < |rows| ensures next[j] == rows[j] {
      OtherRow(rows, i, stopped, next, j);
    }
    SameLive(rows, next, k + 1);
    assert AnyLive(rows, i, k);
    OtherRow(rows, i, stopped, next, k);
    if !AnyLive(next, i + 1, k) {
      forall j | i < j < k ensures !rows[j].live && (Wanting(rows[j]) ==> !InReach(stopped, j)) {
        OtherRow(rows, i, stopped, next, j);
        assert !next[j].live;
      }
      assert !rows[k].live by { LiveIsSending(rows, k); }
      LiveGrows(rows, i + 1, k + 1);
      NoneReached(rows, i, stopped, next, k);
    }
  }

  /** So is a row behind the loop that is not reached. */
  lemma BehindKept(rows: Rows, i: nat, stopped: Rows, next: Rows, k: nat)
    requires After(rows, i, stopped, next) && k < i && Wanting(rows[k])
    requires forall j :: 0 <= j < i && Wanting(rows[j]) ==> !InReach(stopped, j)
    ensures Wanting(next[k]) && (Cleared(rows, i, k) <==> Cleared(next, i + 1, k))
  {
    AfterKeeps(rows, i, stopped, next, k);
    NoneReached(rows, i, stopped, next, k);
    if LiveFrom(next, i + 1) == 0 {
      LiveGrows(next, i + 1, i + 1);
      forall j | i < j < |rows| ensures !rows[j].live {
        OtherRow(rows, i, stopped, next, j);
      }
      LiveGrows(rows, i + 1, |rows|);
    }
  }

  lemma CleanPasses(rows: Rows, i: nat, stopped: Rows, next: Rows)
    requires After(rows, i, stopped, next) && !Overtaken(rows, i, stopped)
    ensures CleanFrom(rows, i) <==> CleanFrom(next, i + 1)
    ensures forall k :: 0 <= k < i + 1 ==> !next[k].live
  {
    assert forall j :: 0 <= j < i && Wanting(rows[j]) ==> !InReach(stopped, j);
    forall k | 0 <= k < i + 1 ensures !next[k].live {
      assert Begun(stopped[k]) == stopped[k] || Wanting(rows[k]) || !InReach(stopped, k);
    }
    forall k | 0 <= k < |rows|
      ensures (Wanting(rows[k]) ==> Cleared(rows, i, k)) <==> (Wanting(next[k]) ==> Cleared(next, i + 1, k))
    {
      assert Wanting(next[k]) ==> Wanting(rows[k]);
      assert Wanting(rows[k]) ==> k != i by { LiveIsSending(rows, i); }
      hide Cleared, InReach, After;
      if Wanting(rows[k]) {
        if k < i {
          BehindKept(rows, i, stopped, next, k);
        } else if InReach(stopped, k) {
          ReachedIsCleared(rows, i, stopped, next, k);
        } else {
          AheadKept(rows, i, stopped, next, k);
        }
      }
    }
    hide Cleared, Wanting, InReach, After;
  }

  lemma StillClean(rows: Rows, i: nat)
    requires i < |rows| && !rows[i].live
    ensures CleanFrom(rows, i) <==> CleanFrom(rows, i + 1)
  {
    forall k | 0 <= k < |rows| ensures Cleared(rows, i, k) <==> Cleared(rows, i + 1, k) {
      LiveGrows(rows, i, i + 1);
      assert AnyLive(rows, i, k) <==> AnyLive(rows, i + 1, k);
    }
  }

  lemma AbandonTurn(rows: Rows, i: nat)
    requires i < |rows| && Budgeted(rows)
    ensures AbandonFrom(rows, i) == AbandonFrom(if rows[i].live then Aborted(rows, i) else rows, i + 1)
  {
  }

  lemma AbandonEnd(rows: Rows)
    ensures AbandonFrom(rows, |rows|) == rows && CleanFrom(rows, |rows|)
  {
  }

  lemma {:induction false} AbandonFromExactly(rows: Rows, i: nat)
    requires i <= |rows| && Budgeted(rows)
    requires forall k :: 0 <= k < i ==> !rows[k].live
    ensures NoneLive(AbandonFrom(rows, i)) <==> CleanFrom(rows, i)
    decreases |rows| - i
  {
    if i == |rows| {
      AbandonEnd(rows);
    } else {
      AbandonTurn(rows, i);
      hide AbandonFrom, CleanFrom, Aborted, Budgeted, After, Overtaken;
      if !rows[i].live {
        StillClean(rows, i);
        AbandonFromExactly(rows, i + 1);
      } else {
        var stopped, next := rows[i := Stopped(rows[i])], Aborted(rows, i);
        AfterAborted(rows, i);
        AbortedBudgeted(rows, i);
        if Overtaken(rows, i, stopped) {
          OvertakenIsLeft(rows, i, stopped, next);
        } else {
          CleanPasses(rows, i, stopped, next);
          AbandonFromExactly(next, i + 1);
        }
      }
    }
  }

  /** Exactly when abandoning leaves nothing on the network, for every queue: each row
      that waits and could be started is kept waiting by rows no URL can name, or has
      nothing on the network behind it, or has something in front of it and, with what
      is behind it and the rows no URL can name in front of it, fits the budget. */
  lemma AbandonExactly(rows: Rows)
    requires Budgeted(rows)
    ensures Orphans(AbandonFrom(rows, 0)) == [] <==> Clean(rows)
  {
    AbandonFromExactly(rows, 0);
    OrphansEmpty(AbandonFrom(rows, 0));
  }

  /** In particular when no addressable queued row stands in front of a sending one. */
  lemma AbandonSafe(rows: Rows)
    requires Budgeted(rows) && Ordered(rows)
    ensures Orphans(AbandonFrom(rows, 0)) == []
  {
    forall k | 0 <= k < |rows| && Wanting(rows[k]) ensures Cleared(rows, 0, k) {
      LiveGrows(rows, k + 1, |rows|);
    }
    AbandonExactly(rows);
  }

  lemma {:induction false} NoneQueued(rows: Rows)
    requires forall k :: 0 <= k < |rows| ==> rows[k].phase != Queued
    ensures Count(rows, Queued) == 0
  {
    if rows != [] {
      NoneQueued(rows[1..]);
    }
  }

  /** Once behind the loop, a live row stays on the network. */
  lemma {:induction false} AbandonKeeps(rows: Rows, i: nat, k: nat)
    requires k < i <= |rows| && rows[k].live && rows[k].phase == Sending
    ensures AbandonFrom(rows, i)[k].live
    decreases |rows| - i
  {
    if i < |rows| {
      var next := if rows[i].phase == Sending then Aborted(rows, i) else rows;
      if rows[i].phase == Sending && rows[i].live {
        PumpAt(rows[i := Stopped(rows[i])], k);
      }
      AbandonKeeps(next, i + 1, k);
    }
  }

  lemma AbortedAt(rows: Rows, i: nat)
    requires i < |rows| && rows[i].live
    ensures var stopped := rows[i := Stopped(rows[i])];
            forall k :: 0 <= k < |rows| ==> Aborted(rows, i)[k] == if InReach(stopped, k) then Begun(stopped[k]) else stopped[k]
  {
    var stopped := rows[i := Stopped(rows[i])];
    assert Aborted(rows, i) == Pump(stopped);
    hide Aborted, Pump, Count, Begun, Stopped;
    forall k | 0 <= k < |rows|
      ensures Aborted(rows, i)[k] == if InReach(stopped, k) then Begun(stopped[k]) else stopped[k]
    {
      PumpAt(stopped, k);
    }
  }

  // ---- the queue as the object the page holds ----

  /** What an answered request comes to. 401 is not here: it ends the session. */
  function Answer(status: nat): Phase
  {
    if 200 <= status < 300 then Done else if status == 409 then Collided else Refused
  }

  function Landed(rows: Rows, i: nat, phase: Phase): Rows
    requires i < |rows|
  {
    Pump(rows[i := rows[i].(phase := phase, live := false)])
  }

  /** The request is over, and the row does not know. */
  function Answered401(rows: Rows, i: nat): Rows
    requires i < |rows|
  {
    rows[i := rows[i].(live := false)]
  }

  function Retried(rows: Rows, i: nat, replace: bool): Rows
    requires i < |rows|
  {
    if TransferRetryable(rows[i].phase) then Pump(rows[i := rows[i].(phase := Queued, live := false, replace := replace)]) else rows
  }

  /** The rows that still have somewhere to go, in order. */
  function LiveRows(rows: Rows): Rows
  {
    if rows == [] then [] else (if TransferLive(rows[0].phase) then [rows[0]] else []) + LiveRows(rows[1..])
  }

  function Entered(serial: nat, addressable: bool, fits: bool, replace: bool): Transfer
  {
    Transfer(serial + 1, if addressable && fits then Queued else Refused, false, addressable, replace)
  }

  /** What an answer makes of the row that was sending, and of the others: they are as
      they were, or begun. */
  lemma LandsExactly(rows: Rows, i: nat, status: nat)
    requires i < |rows|
    ensures var now := Landed(rows, i, Answer(status));
            && |now| == |rows| && !now[i].live && now[i].id == rows[i].id
            && (200 <= status <= 299 ==> now[i].phase == Done)
            && (status == 409 ==> now[i].phase == Collided)
            && ((status < 200 || status > 299) && status != 409 ==> now[i].phase == Refused)
            && forall k :: 0 <= k < |rows| && k != i ==>
                 now[k] == rows[k] || (rows[k].phase == Queued && now[k] == rows[k].(phase := Sending, live := true))
  {
    var row := rows[i].(phase := Answer(status), live := false);
    forall k | 0 <= k < |rows|
      ensures Landed(rows, i, Answer(status))[k] == rows[i := row][k]
              || (k != i && rows[k].phase == Queued && Landed(rows, i, Answer(status))[k] == Begun(rows[k]))
    {
      PumpAt(rows[i := row], k);
    }
  }

  /** Which rows can be tried again, and what becomes of them: they wait, or are begun. */
  lemma RetriesExactly(rows: Rows, i: nat, replace: bool)
    requires i < |rows|
    ensures var phase, now := rows[i].phase, Retried(rows, i, replace);
            && (phase == Queued || phase == Sending || phase == Done ==> now == rows)
            && (phase == Refused || phase == Cancelled || phase == Collided ==>
                  && |now| == |rows| && now[i].replace == replace && now[i].id == rows[i].id
                  && (if now[i].live then now[i].phase == Sending && rows[i].addressable else now[i].phase == Queued))
  {
    PumpAt(rows[i := rows[i].(phase := Queued, live := false, replace := replace)], i);
  }

  class Uploads {
    var uploads: Rows
    var serial: nat
    var orphans: seq<Transfer>

    constructor ()
      ensures uploads == [] && serial == 0 && orphans == [] && Valid(uploads)
    {
      uploads, serial, orphans := [], 0, [];
    }

    /** Puts one file in the queue, or refuses it on the spot: no URL can name it,
        or it is over a ceiling known before a byte moves. */
    method EnqueueUpload(addressable: bool, fits: bool, replace: bool)
      requires Valid(uploads)
      modifies this
      ensures serial == old(serial) + 1
      ensures uploads == old(uploads)
                         + [Transfer(serial, if addressable && fits then Queued else Refused, false, addressable, replace)]
      ensures Valid(uploads) && orphans == old(orphans)
    {
      serial := serial + 1;
      var transfer := Transfer(serial, Queued, false, addressable, replace);
      if !addressable {
        transfer := transfer.(phase := Refused);
      } else if !fits {
        transfer := transfer.(phase := Refused);
      }
      CountAppend(uploads, transfer, Sending);
      uploads := uploads + [transfer];
    }

    method BeginUpload(i: nat)
      requires i < |uploads|
      modifies this`uploads
      ensures uploads == old(uploads)[i := Begun(old(uploads)[i])]
    {
      if !uploads[i].addressable {
        return;
      }
      uploads := uploads[i := uploads[i].(phase := Sending, live := true)];
    }

    method PumpUploads()
      modifies this`uploads
      ensures uploads == Pump(old(uploads))
      ensures Valid(old(uploads)) ==> Valid(uploads)
    {
      ghost var start := uploads;
      if Valid(start) {
        PumpValid(start);
      }
      var running: nat := CountSending(uploads);
      var i := 0;
      assert start[..0] == [];
      while i < |uploads| && running < UPLOAD_CONCURRENCY
        invariant 0 <= i <= |uploads| == |start| && running == Count(start, Sending) + QueuedBefore(start, i)
        invariant forall k :: 0 <= k < i ==> uploads[k] == Pump(start)[k]
        invariant forall k :: i <= k < |start| ==> uploads[k] == start[k]
      {
        PumpAt(start, i);
        QueuedBeforeNext(start, i);
        if uploads[i].phase == Queued {
          BeginUpload(i);
          running := running + 1;
        }
        i := i + 1;
      }
      PumpRest(start, i);
    }

    /** A request was answered. An answer of 401 ends the session, with the row still
        saying it is sending. */
    method OnLoad(i: nat, status: nat)
      requires Valid(uploads) && i < |uploads| && uploads[i].live
      modifies this`uploads, this`orphans
      ensures Valid(uploads)
      ensures status != 401 ==> uploads == Landed(old(uploads), i, Answer(status)) && orphans == old(orphans)
      ensures status != 401 ==>
                |uploads| == |old(uploads)| && !uploads[i].live
                && uploads[i].phase == if 200 <= status <= 299 then Done else if status == 409 then Collided else Refused
      ensures status == 401 ==>
                uploads == []
                && orphans == old(orphans) + Orphans(AbandonFrom(old(uploads)[i := old(uploads)[i].(live := false)], 0))
    {
      if status == 401 {
        uploads := uploads[i := uploads[i].(live := false)];
        CountUpdate(old(uploads), i, uploads[i], Sending);
        AbandonUploads();
        return;
      }
      LandsExactly(uploads, i, status);
      CountUpdate(uploads, i, uploads[i].(phase := Answer(status), live := false), Sending);
      uploads := uploads[i := uploads[i].(phase := Answer(status), live := false)];
      PumpUploads();
    }

    method OnError(i: nat)
      requires Valid(uploads) && i < |uploads| && uploads[i].live
      modifies this`uploads
      ensures uploads == Landed(old(uploads), i, Refused) && Valid(uploads)
    {
      CountUpdate(uploads, i, uploads[i].(phase := Refused, live := false), Sending);
      uploads := uploads[i := uploads[i].(phase := Refused, live := false)];
      PumpUploads();
    }

    /** `request.abort()`, handler included. */
    method Abort(i: nat)
      requires i < |uploads|
      modifies this`uploads
      ensures uploads == Aborted(old(uploads), i)
    {
      if uploads[i].live {
        uploads := uploads[i := Stopped(uploads[i])];
        PumpUploads();
      }
    }

    method CancelUpload(i: nat)
      requires i < |uploads|
      modifies this`uploads
      ensures uploads == CancelOne(old(uploads), i)
      ensures Valid(old(uploads)) ==> Valid(uploads)
    {
      if Valid(uploads) {
        ApplyValid(uploads, Cancel(i));
      }
      if uploads[i].phase == Queued {
        uploads := uploads[i := uploads[i].(phase := Cancelled)];
        return;
      }
      if uploads[i].phase == Sending {
        Abort(i);
      }
    }

    method CancelAllUploads()
      requires Valid(uploads)
      modifies this`uploads
      ensures uploads == CancelFrom(old(uploads), 0)
      ensures forall k :: 0 <= k < |uploads| ==> !uploads[k].live && !TransferLive(uploads[k].phase)
      ensures Valid(uploads)
    {
      ApplyValid(uploads, CancelAll);
      ghost var start := uploads;
      var n := |uploads|;
      for i := 0 to n
        invariant |uploads| == n == |start| && CancelFrom(uploads, i) == CancelFrom(start, 0)
      {
        if TransferLive(uploads[i].phase) {
          CancelUpload(i);
        }
      }
      CancelAllExact(start);
    }

    method RetryUpload(i: nat, replace: bool)
      requires Valid(uploads) && i < |uploads|
      modifies this`uploads
      ensures uploads == Retried(old(uploads), i, replace) && Valid(uploads)
    {
      if !TransferRetryable(uploads[i].phase) {
        return;
      }
      CountUpdate(uploads, i, uploads[i].(phase := Queued, live := false, replace := replace), Sending);
      uploads := uploads[i := uploads[i].(phase := Queued, live := false, replace := replace)];
      PumpUploads();
    }

    /** The end of the session: abort what is sending, then forget every row. What
        the loop's own aborts started behind it is no longer anybody's to abort. */
    method AbandonUploads()
      requires Budgeted(uploads)
      modifies this`uploads, this`orphans
      ensures uploads == []
      ensures orphans == old(orphans) + Orphans(AbandonFrom(old(uploads), 0))
      ensures orphans == old(orphans) <==> Clean(old(uploads))
    {
      ghost var start := uploads;
      var i := 0;
      while i < |uploads|
        invariant 0 <= i <= |uploads| == |start| && AbandonFrom(uploads, i) == AbandonFrom(start, 0)
        invariant orphans == old(orphans)
      {
        if uploads[i].phase == Sending {
          Abort(i);
        }
        i := i + 1;
      }
      AbandonExactly(start);
      orphans := orphans + Orphans(uploads);
      uploads := [];
    }

    /** The end of a request whose row is gone, as an answer or (status zero) a failure:
        its handler does all it would have done, to the rows there are now. */
    method OnOrphan(k: nat, status: nat)
      requires Valid(uploads) && k < |orphans|
      modifies this`uploads, this`orphans
      ensures var rest := old(orphans)[..k] + old(orphans)[k + 1..];
              && Valid(uploads)
              && (status != 401 ==> uploads == Pump(old(uploads)) && orphans == rest)
              && (status == 401 ==> uploads == [] && orphans == rest + Orphans(AbandonFrom(old(uploads), 0)))
    {
      orphans := orphans[..k] + orphans[k + 1..];
      if status == 401 {
        AbandonUploads();
        return;
      }
      PumpUploads();
    }

    method ClearFinishedUploads()
      requires Valid(uploads)
      modifies this`uploads
      ensures uploads == LiveRows(old(uploads)) && Valid(uploads)
    {
      ghost var start := uploads;
      var at := |uploads|;
      assert start[at..] == [] && start[..at] + [] == start;
      while at > 0
        invariant 0 <= at <= |start| && uploads == start[..at] + LiveRows(start[at..])
      {
        at := at - 1;
        LiveRowsTurn(start, at, LiveRows(start[at + 1..]));
        hide LiveRows;
        if !TransferLive(uploads[at].phase) {
          uploads := uploads[..at] + uploads[at + 1..];
        }
      }
      assert start[0..] == start && [] + LiveRows(start) == LiveRows(start);
      LiveRowsValid(start);
    }
  }

  lemma LiveRowsTurn(rows: Rows, at: nat, later: Rows)
    requires at < |rows| && later == LiveRows(rows[at + 1..])
    ensures var now := rows[..at + 1] + later;
            && now[at] == rows[at]
            && rows[..at] + LiveRows(rows[at..]) == if TransferLive(rows[at].phase) then now else now[..at] + now[at + 1..]
  {
    assert rows[at..][0] == rows[at] && rows[at..][1..] == rows[at + 1..];
    if TransferLive(rows[at].phase) {
      assert LiveRows(rows[at..]) == [rows[at]] + later;
    } else {
      assert LiveRows(rows[at..]) == [] + later == later;
    }
    hide LiveRows;
    assert rows[..at + 1] == rows[..at] + [rows[at]];
    Joined(rows[..at], rows[at], later);
  }

  lemma Joined(front: Rows, t: Transfer, later: Rows)
    ensures var now := front + [t] + later;
            now[|front|] == t && now[..|front|] == front && now[|front| + 1..] == later && now == front + ([t] + later)
  {
  }

  method CountSending(rows: Rows) returns (n: nat)
    ensures n == Count(rows, Sending)
  {
    n := 0;
    assert rows[..0] == [];
    for i := 0 to |rows|
      invariant n == Count(rows[..i], Sending)
    {
      CountAppend(rows[..i], rows[i], Sending);
      assert rows[..i + 1] == rows[..i] + [rows[i]];
      if rows[i].phase == Sending {
        n := n + 1;
      }
    }
    assert rows[..|rows|] == rows;
  }

  lemma {:induction false} CountAppend(rows: Rows, t: Transfer, phase: Phase)
    ensures Count(rows + [t], phase) == Count(rows, phase) + (if t.phase == phase then 1 else 0)
  {
    if rows != [] {
      CountAppend(rows[1..], t, phase);
      assert (rows + [t])[1..] == rows[1..] + [t];
    }
  }

  lemma {:induction false} LiveRowsValid(rows: Rows)
    ensures Count(LiveRows(rows), Sending) == Count(rows, Sending)
    ensures forall k :: 0 <= k < |LiveRows(rows)| ==> LiveRows(rows)[k] in rows && TransferLive(LiveRows(rows)[k].phase)
  {
    if rows != [] {
      var tail := LiveRows(rows[1..]);
      LiveRowsValid(rows[1..]);
      if TransferLive(rows[0].phase) {
        assert LiveRows(rows)[0] == rows[0] && LiveRows(rows)[1..] == tail;
      } else {
        assert LiveRows(rows) == tail;
      }
      forall k | 0 <= k < |LiveRows(rows)| ensures LiveRows(rows)[k] in rows && TransferLive(LiveRows(rows)[k].phase) {
        if TransferLive(rows[0].phase) && k > 0 {
          assert LiveRows(rows)[k] == tail[k - 1];
        }
      }
    }
  }

  // ---- every run ----

  datatype Event =
    | Enqueue(addressable: bool, fits: bool)
    | Begin
    | Load(row: nat, status: nat)
    | Fail(row: nat)
    | Cancel(row: nat)
    | CancelAll
    | Retry(row: nat, replace: bool)
    | ClearFinished

  /** One event of a session, as the methods above carry it out; an event about a row
      that is not there, or an answer to a request that is not live, cannot happen.
      What ends a session is in `UploadRuns`. */
  function Apply(rows: Rows, e: Event): Rows
  {
    match e
    case Enqueue(addressable, fits) => rows + [Entered(|rows|, addressable, fits, false)]
    case Begin => Pump(rows)
    case Load(i, status) => if i < |rows| && rows[i].live && status != 401 then Landed(rows, i, Answer(status)) else rows
    case Fail(i) => if i < |rows| && rows[i].live then Landed(rows, i, Refused) else rows
    case Cancel(i) => if i < |rows| then CancelOne(rows, i) else rows
    case CancelAll => CancelFrom(rows, 0)
    case Retry(i, replace) => if i < |rows| then Retried(rows, i, replace) else rows
    case ClearFinished => LiveRows(rows)
  }

  /** What each event does to the rows, before the pump that follows it. */
  lemma AppliesExactly(rows: Rows, i: nat, status: nat, addressable: bool, fits: bool, replace: bool)
    ensures Apply(rows, Enqueue(addressable, fits))
         == rows + [Transfer(|rows| + 1, if addressable && fits then Queued else Refused, false, addressable, false)]
    ensures i < |rows| && rows[i].live ==>
              && Apply(rows, Fail(i)) == Pump(rows[i := rows[i].(phase := Refused, live := false)])
              && (200 <= status <= 299 ==> Apply(rows, Load(i, status)) == Pump(rows[i := rows[i].(phase := Done, live := false)]))
              && Apply(rows, Load(i, 409)) == Pump(rows[i := rows[i].(phase := Collided, live := false)])
              && ((status < 200 || status > 299) && status != 409 && status != 401 ==>
                    Apply(rows, Load(i, status)) == Apply(rows, Fail(i)))
    ensures i < |rows| && rows[i].phase == Queued ==> Apply(rows, Cancel(i)) == rows[i := rows[i].(phase := Cancelled)]
    ensures i < |rows| && rows[i].phase == Sending && rows[i].live ==>
              Apply(rows, Cancel(i)) == Pump(rows[i := rows[i].(phase := Cancelled, live := false)])
    ensures i < |rows| && rows[i].phase in {Refused, Cancelled, Collided} ==>
              Apply(rows, Retry(i, replace)) == Pump(rows[i := rows[i].(phase := Queued, live := false, replace := replace)])
    ensures i < |rows| && rows[i].phase in {Done, Refused, Cancelled, Collided} ==> Apply(rows, Cancel(i)) == rows
    ensures i < |rows| && rows[i].phase in {Queued, Sending, Done} ==> Apply(rows, Retry(i, replace)) == rows
    ensures Apply(rows, Begin) == Pump(rows)
  {
    hide Pump;
  }

  /** Clearing keeps the rows that wait or are sending, in their order. */
  lemma ClearsExactly(t: Transfer, rows: Rows)
    ensures Apply([t] + rows, ClearFinished)
         == (if t.phase == Queued || t.phase == Sending then [t] else []) + Apply(rows, ClearFinished)
    ensures Apply([], ClearFinished) == []
  {
    assert ([t] + rows)[1..] == rows;
  }

  function Run(rows: Rows, events: seq<Event>): Rows
    decreases |events|
  {
    if events == [] then rows else Run(Apply(rows, events[0]), events[1..])
  }

  lemma ReplacedValid(rows: Rows, i: nat, t: Transfer)
    requires Valid(rows) && i < |rows| && t.phase != Sending && !t.live
    ensures Valid(rows[i := t])
  {
    CountUpdate(rows, i, t, Sending);
  }

  lemma {:induction false} AllStoppedValid(rows: Rows)
    requires forall k :: 0 <= k < |rows| ==> rows[k].phase != Sending && !rows[k].live
    ensures Valid(rows)
  {
    if rows != [] {
      AllStoppedValid(rows[1..]);
    }
  }

  lemma ApplyValid(rows: Rows, e: Event)
    requires Valid(rows)
    ensures Valid(Apply(rows, e))
  {
    match e
    case Enqueue(addressable, fits) => CountAppend(rows, Entered(|rows|, addressable, fits, false), Sending);
    case Begin => PumpValid(rows);
    case Load(i, status) =>
      if i < |rows| && rows[i].live && status != 401 {
        ReplacedValid(rows, i, rows[i].(phase := Answer(status), live := false));
        PumpValid(rows[i := rows[i].(phase := Answer(status), live := false)]);
      }
    case Fail(i) =>
      if i < |rows| && rows[i].live {
        ReplacedValid(rows, i, rows[i].(phase := Refused, live := false));
        PumpValid(rows[i := rows[i].(phase := Refused, live := false)]);
      }
    case Cancel(i) =>
      if i < |rows| {
        ReplacedValid(rows, i, Stopped(rows[i]));
        PumpValid(rows[i := Stopped(rows[i])]);
      }
    case CancelAll =>
      CancelAllExact(rows);
      AllStoppedValid(CancelFrom(rows, 0));
    case Retry(i, replace) =>
      if i < |rows| {
        ReplacedValid(rows, i, rows[i].(phase := Queued, live := false, replace := replace));
        PumpValid(rows[i := rows[i].(phase := Queued, live := false, replace := replace)]);
      }
    case ClearFinished => LiveRowsValid(rows);
  }

  /** In every state of a session at most three rows are sending, and a row has its
      request on the network exactly while it is. */
  lemma {:induction false} RunValid(rows: Rows, events: seq<Event>)
    requires Valid(rows)
    ensures Valid(Run(rows, events))
    decreases |events|
  {
    if events != [] {
      ApplyValid(rows, events[0]);
      RunValid(Apply(rows, events[0]), events[1..]);
    }
  }

  /** Three names no URL can carry, retried, and then an ordinary file: nothing is
      sending, the file waits, and no pump will ever start it. */
  lemma StarvedRun() returns (events: seq<Event>)
    ensures var rows := Run([], events);
            |rows| == 4 && rows[3].phase == Queued && rows[3].addressable
            && Count(rows, Sending) == 0 && Pump(rows) == rows && Blocked(rows)
  {
    var r0: Rows := [];
    var r1 := OneMoreStuck(r0);
    RefusedThenRetried(r0);
    var r2 := OneMoreStuck(r1);
    RefusedThenRetried(r1);
    var r3 := OneMoreStuck(r2);
    RefusedThenRetried(r2);
    var file := Enqueue(true, true);
    var rows := r3 + [Transfer(4, Queued, false, true, false)];
    assert rows[..0] == [] && rows[..3] == r3;
    CountAppend(r3, rows[3], Sending);
    CountAppend(r3, rows[3], Queued);
    assert Apply(r3, file) == rows && Run(rows, []) == rows;
    var again := (k: nat) => [Enqueue(false, true), Retry(k, false)];
    assert Run(r3, [file]) == rows;
    RunTwice(r2, again(2), [file]);
    RunTwice(r1, again(1), again(2) + [file]);
    RunTwice(r0, again(0), again(1) + (again(2) + [file]));
    events := again(0) + (again(1) + (again(2) + [file]));
    assert InReach(rows, 0) && !InReach(rows, 3);
    forall i | 0 <= i < 4 ensures Pump(rows)[i] == rows[i] {
      PumpAt(rows, i);
    }
  }

  lemma {:induction false} RunTwice(rows: Rows, first: seq<Event>, second: seq<Event>)
    ensures Run(rows, first + second) == Run(Run(rows, first), second)
    decreases |first|
  {
    if first == [] {
      assert first + second == second;
    } else {
      assert (first + second)[1..] == first[1..] + second;
      RunTwice(Apply(rows, first[0]), first[1..], second);
    }
  }

  /** Rows that wait although no URL can name them, and nothing else. */
  ghost predicate AllStuck(rows: Rows)
  {
    forall k :: 0 <= k < |rows| ==> rows[k] == Transfer(k + 1, Queued, false, false, false)
  }

  lemma {:induction false} StuckCounts(rows: Rows)
    requires forall k :: 0 <= k < |rows| ==> rows[k].phase == Queued
    ensures Count(rows, Queued) == |rows| && Count(rows, Sending) == 0
  {
    if rows != [] {
      StuckCounts(rows[1..]);
    }
  }

  /** A refused name and its retry, as one more row that waits. */
  function OneMoreStuck(rows: Rows): Rows
  {
    Run(rows, [Enqueue(false, true), Retry(|rows|, false)])
  }

  lemma RefusedThenRetried(rows: Rows)
    requires AllStuck(rows)
    ensures var after := OneMoreStuck(rows);
            AllStuck(after) && |after| == |rows| + 1 && Count(after, Queued) == |after| && Count(after, Sending) == 0
  {
    var n := |rows|;
    var entered := rows + [Transfer(n + 1, Refused, false, false, false)];
    var waiting := entered[n := entered[n].(phase := Queued)];
    var events := [Enqueue(false, true), Retry(n, false)];
    assert Apply(rows, events[0]) == entered;
    forall i | 0 <= i < |waiting| ensures Pump(waiting)[i] == waiting[i] {
      PumpAt(waiting, i);
    }
    var after := Pump(waiting);
    assert after == waiting;
    StuckCounts(after);
    assert events[1..] == [Retry(n, false)] && [Retry(n, false)][1..] == [];
    assert Apply(entered, Retry(n, false)) == after;
    assert Run(entered, [Retry(n, false)]) == Run(after, []) == after;
  }

  function Waits(k: nat): Transfer { Transfer(k, Queued, false, true, false) }

  function Sends(k: nat): Transfer { Transfer(k, Sending, true, true, false) }

  lemma FirstMadeToWait()
    ensures var s4 := [Sends(1), Sends(2), Sends(3), Waits(4)];
            Run(s4, [Cancel(0), Retry(0, false)]) == [Waits(1), Sends(2), Sends(3), Sends(4)]
  {
    var s4 := [Sends(1), Sends(2), Sends(3), Waits(4)];
    var stopped := [Stopped(Sends(1)), Sends(2), Sends(3), Waits(4)];
    assert s4[0 := Stopped(s4[0])] == stopped;
    var three := [Stopped(Sends(1)), Sends(2), Sends(3), Sends(4)];
    FourCounts(stopped);
    forall i | 0 <= i < 4 ensures Pump(stopped)[i] == three[i] {
      PumpAt(stopped, i);
    }
    assert Apply(s4, Cancel(0)) == three;
    var waiting := [Waits(1), Sends(2), Sends(3), Sends(4)];
    assert three[0 := Waits(1)] == waiting;
    FourCounts(waiting);
    forall i | 0 <= i < 4 ensures Pump(waiting)[i] == waiting[i] {
      PumpAt(waiting, i);
    }
    hide Pump, Count, QueuedBefore;
    assert Apply(three, Retry(0, false)) == waiting;
    assert [Cancel(0), Retry(0, false)][1..] == [Retry(0, false)];
    assert Run(three, [Retry(0, false)]) == Run(waiting, []) == waiting;
  }

  /** Four files, the first cancelled to let the fourth start, then retried: it waits
      in front of three that are sending, and ending the session now leaves a
      request on the network that no row stands for. */
  lemma OrphanRun() returns (events: seq<Event>)
    ensures var rows := Run([], events);
            Valid(rows) && AllAddressable(rows) && !Clean(rows) && Orphans(AbandonFrom(rows, 0)) != []
  {
    var add := Enqueue(true, true);
    var filling, swap := [add, add, add], [Cancel(0), Retry(0, false)];
    RunThree(add);
    var q := [Waits(1), Waits(2), Waits(3)];
    PumpThree(q);
    var s3 := [Sends(1), Sends(2), Sends(3)];
    var s4 := [Sends(1), Sends(2), Sends(3), Waits(4)];
    assert Apply(q, Begin) == s3 && Apply(s3, add) == s4;
    FirstMadeToWait();
    assert [Begin, add][1..] == [add];
    assert Run(s3, [add]) == Run(s4, []) == s4;
    RunTwice(q, [Begin, add], swap);
    RunTwice([], filling, [Begin, add] + swap);
    events := filling + ([Begin, add] + swap);
    RunValid([], events);
    LeftWaiting();
    hide Clean, AbandonFrom;
  }

  lemma LeftWaiting()
    ensures var rows := [Waits(1), Sends(2), Sends(3), Sends(4)];
            Budgeted(rows) && !Clean(rows) && Orphans(AbandonFrom(rows, 0)) != []
  {
    var rows := [Waits(1), Sends(2), Sends(3), Sends(4)];
    FourCounts(rows);
    FourIdle(rows);
    FirstIsLeft(rows);
    AbandonExactly(rows);
  }

  /** A row that waits in front of everything on the network is left there. */
  lemma FirstIsLeft(rows: Rows)
    requires |rows| >= 2 && Wanting(rows[0]) && rows[1].live && IdleFrom(rows, 0) == 0
    ensures !Clean(rows)
  {
    assert !AnyLive(rows, 0, 0) && StuckBefore(rows, 0) == 0 && LiveFrom(rows, 1) >= 1;
    assert !Cleared(rows, 0, 0);
  }

  lemma FourIdle(r: Rows)
    requires |r| == 4 && forall k :: 0 <= k < 4 ==> (r[k].phase == Sending ==> r[k].live)
    ensures IdleFrom(r, 0) == 0
  {
    assert IdleFrom(r, 4) == 0 && IdleFrom(r, 3) == 0 && IdleFrom(r, 2) == 0 && IdleFrom(r, 1) == 0;
  }

  lemma FourCounts(r: Rows)
    requires |r| == 4
    ensures Count(r, Sending) == (if r[0].phase == Sending then 1 else 0) + (if r[1].phase == Sending then 1 else 0)
                                 + (if r[2].phase == Sending then 1 else 0) + (if r[3].phase == Sending then 1 else 0)
    ensures QueuedBefore(r, 0) == 0
    ensures r[0].phase != Queued && r[1].phase != Queued && r[2].phase != Queued ==> QueuedBefore(r, 3) == 0
  {
    assert r == [r[0], r[1], r[2]] + [r[3]] && [r[0], r[1], r[2]] == [r[0], r[1]] + [r[2]] && [r[0], r[1]] == [r[0]] + [r[1]];
    CountAppend([r[0], r[1], r[2]], r[3], Sending);
    CountAppend([r[0], r[1]], r[2], Sending);
    CountAppend([r[0]], r[1], Sending);
    assert r[..0] == [];
    if r[0].phase != Queued && r[1].phase != Queued && r[2].phase != Queued {
      NoneQueued(r[..3]);
    }
  }

  lemma PumpThree(q: Rows)
    requires |q| == 3 && forall k :: 0 <= k < 3 ==> q[k].phase == Queued
    ensures Pump(q) == [Begun(q[0]), Begun(q[1]), Begun(q[2])]
  {
    StuckCounts(q);
    forall i | 0 <= i < 3 ensures Pump(q)[i] == Begun(q[i]) {
      StuckCounts(q[..i]);
      PumpAt(q, i);
    }
  }

  lemma RunThree(add: Event)
    requires add == Enqueue(true, true)
    ensures Run([], [add, add, add]) == [Waits(1), Waits(2), Waits(3)]
  {
    var e := [add, add, add];
    assert e[1..] == [add, add] && e[1..][1..] == [add] && [add][1..] == [];
    assert Apply([], add) == [Waits(1)];
    assert Apply([Waits(1)], add) == [Waits(1), Waits(2)];
    assert Apply([Waits(1), Waits(2)], add) == [Waits(1), Waits(2), Waits(3)];
    assert Run([Waits(1), Waits(2)], [add]) == Run([Waits(1), Waits(2), Waits(3)], []);
  }
}
