/** The single-flight poller of the console and of the home page (`schedule`, `poll` and the
    places that call them in `sites/console/app.js` and `sites/home/app.js`), beside the stream
    that pushes snapshots to the console. The home page is the page that is never left and
    that nothing is pushed to. */
module Poller {
  import opened Bytes

  datatype Source = Reply | Pushed

  /** What was put on the page: where it came from, and which state of the daemon it is. */
  datatype Shown = Shown(source: Source, version: nat)

  /** `timer` is the delay of the armed timer. `started` and `finished` count refreshes,
      `applied` is which refresh each reply put on the page came from, `asks` is how many
      refreshes had started at each poll a live page was asked for, and `shown` is
      everything that was put on the page. */
  datatype Page = Page(
    live: bool, inFlight: bool, pollAgain: bool, timer: Option<nat>,
    started: nat, finished: nat, applied: seq<nat>, asks: seq<nat>, shown: seq<Shown>)

  const LOADED := Page(false, false, false, None, 0, 0, [], [], [])

  function Scheduled(p: Page, delay: nat): Page
  {
    p.(timer := Some(delay))
  }

  function Polled(p: Page): Page
  {
    if !p.live then p
    else
      var asked := p.(asks := p.asks + [p.started]);
      if p.inFlight then asked.(pollAgain := true) else asked.(inFlight := true, started := p.started + 1)
  }

  /** The refresh settles, however it went; `delay` is the ordinary cadence. */
  function Settled(p: Page, delay: nat): Page
  {
    if !p.inFlight then p
    else
      var done := p.(inFlight := false, finished := p.finished + 1);
      if p.live then Scheduled(done.(pollAgain := false), if p.pollAgain then 0 else delay) else done
  }

  /** The reply of refresh number `started` is put on the page. */
  function Replied(p: Page, version: nat): Page
  {
    p.(applied := p.applied + [p.started], shown := p.shown + [Shown(Reply, version)])
  }

  function Announced(p: Page, version: nat): Page
  {
    p.(shown := p.shown + [Shown(Pushed, version)])
  }

  /** The daemon's answer to the refresh in flight. */
  datatype Answer = Awaited | Given(version: nat) | Taken

  /** The page, the daemon's state as the number of changes it has been through, its
      answer to the refresh in flight, and the snapshots it has pushed that have not
      arrived. A stream keeps their order. */
  datatype World = World(page: Page, version: nat, answer: Answer, wire: seq<nat>)

  const START := World(LOADED, 0, Awaited, [])

  datatype Event =
    | Change                     // something happens at the daemon
    | Fire                       // the timer goes off
    | Call                       // a poll right after a command, or on coming back to the page
    | Respond                    // the daemon reads its state for the refresh in flight
    | Apply                      // the refresh in flight puts what it was told on the page
    | Settle(delay: nat)
    | Push                       // the daemon sends a snapshot down the stream
    | Arrive                     // the oldest of them reaches the page
    | Reschedule(delay: nat)     // the stream came or went, so the cadence changed
    | Drop                       // the stream is gone, with what was on it
    | Leave
    | Enter

  function Step(w: World, e: Event): World
  {
    var p := w.page;
    match e
    case Change => w.(version := w.version + 1)
    case Fire => if p.timer == None then w else w.(page := Polled(p.(timer := None)))
    case Call => w.(page := Polled(p))
    case Respond => if p.inFlight && w.answer == Awaited then w.(answer := Given(w.version)) else w
    case Apply => if w.answer.Given? then w.(page := Replied(p, w.answer.version), answer := Taken) else w
    case Settle(delay) => w.(page := Settled(p, delay), answer := Awaited)
    case Push => if p.live then w.(wire := w.wire + [w.version]) else w
    case Arrive => if w.wire == [] then w else w.(page := Announced(p, w.wire[0]), wire := w.wire[1..])
    case Reschedule(delay) => if p.live then w.(page := Scheduled(p, delay)) else w
    case Drop => w.(wire := [])
    case Leave => w.(page := p.(live := false, timer := None), wire := [])
    case Enter => w.(page := Polled(p.(live := true)))
  }

  function Run(events: seq<Event>): World
    decreases |events|
  {
    if events == [] then START else Step(Run(events[..|events| - 1]), events[|events| - 1])
  }

  /** A refresh is in flight with another to follow, or one is due. */
  predicate Coming(p: Page)
  {
    (p.inFlight && p.pollAgain) || p.timer.Some?
  }

  predicate Ordered(s: seq<nat>)
  {
    forall i, j :: 0 <= i < j < |s| ==> s[i] <= s[j]
  }

  predicate Sound(p: Page)
  {
    // at most one refresh at a time
    && p.started == p.finished + (if p.inFlight then 1 else 0)
    // a live page has a refresh in flight or a timer armed
    && (p.live ==> p.inFlight || p.timer.Some?)
    && (!p.live ==> p.timer == None)
    // a poll asked for is followed by a refresh that starts after it was asked for
    && (forall k :: 0 <= k < |p.asks| ==> p.asks[k] < p.started || (p.asks[k] == p.started && (p.live ==> Coming(p))))
    // what is on the page comes from refreshes in the order they were started
    && Ordered(p.applied) && (forall k :: 0 <= k < |p.applied| ==> p.applied[k] <= p.started)
    && (p.pollAgain && !p.inFlight ==> !p.live)
  }

  /** Sound, or sound but for the timer that just went off or the page just entered. */
  predicate Startable(p: Page)
  {
    Sound(p) || (p.timer == None && Sound(p.(timer := Some(0)))) || Sound(p.(live := false))
  }

  lemma PolledSound(p: Page)
    requires Startable(p)
    ensures Sound(Polled(p))
  {
  }

  lemma FiredStartable(p: Page)
    requires Sound(p) && p.timer.Some?
    ensures Startable(p.(timer := None))
  {
    assert Sound(p.(timer := Some(0)));
    assert p.(timer := None).(timer := Some(0)) == p.(timer := Some(0));
  }

  lemma SettledSound(p: Page, delay: nat)
    requires Sound(p)
    ensures Sound(Settled(p, delay))
  {
  }

  lemma RepliedSound(p: Page, version: nat)
    requires Sound(p)
    ensures Sound(Replied(p, version)) && Sound(Announced(p, version))
  {
  }

  predicate Newest(shown: seq<Shown>, source: Source, version: nat)
  {
    forall k :: 0 <= k < |shown| && shown[k].source == source ==> shown[k].version <= version
  }

  /** Each source, by itself, only moves the page forward. */
  predicate Forward(shown: seq<Shown>)
  {
    forall j, k :: 0 <= j < k < |shown| && shown[j].source == shown[k].source ==> shown[j].version <= shown[k].version
  }

  predicate Fair(w: World)
  {
    && Sound(w.page)
    && (!w.page.inFlight ==> w.answer == Awaited)
    && Newest(w.page.shown, Reply, w.version) && Newest(w.page.shown, Pushed, w.version)
    && (w.answer.Given? ==> w.answer.version <= w.version && Newest(w.page.shown, Reply, w.answer.version))
    && Ordered(w.wire)
    && (forall k :: 0 <= k < |w.wire| ==> w.wire[k] <= w.version && Newest(w.page.shown, Pushed, w.wire[k]))
    && Forward(w.page.shown)
  }

  lemma StepSound(w: World, e: Event)
    requires Fair(w)
    ensures Sound(Step(w, e).page)
  {
    var p := w.page;
    match e
    case Fire =>
      if p.timer.Some? {
        FiredStartable(p);
        PolledSound(p.(timer := None));
      }
    case Call => PolledSound(p);
    case Enter =>
      assert p.live || p.(live := false) == p;
      PolledSound(p.(live := true));
    case Apply =>
      if w.answer.Given? {
        RepliedSound(p, w.answer.version);
      }
    case Arrive =>
      if w.wire != [] {
        RepliedSound(p, w.wire[0]);
      }
    case Settle(delay) => SettledSound(p, delay);
    case _ =>
  }

  lemma PolledShows(p: Page)
    ensures Polled(p).shown == p.shown && (p.inFlight ==> Polled(p).inFlight)
  {
  }

  lemma ArriveFair(w: World)
    requires Fair(w) && w.wire != []
    ensures Fair(Step(w, Arrive))
  {
    StepSound(w, Arrive);
    hide Sound, Polled;
    var v, shown := w.wire[0], w.page.shown;
    assert Newest(shown, Pushed, v);
    forall k | 0 <= k < |w.wire| - 1 ensures v <= w.wire[1..][k] == w.wire[k + 1] <= w.version {
    }
    assert Ordered(w.wire[1..]);
  }

  lemma ApplyFair(w: World)
    requires Fair(w)
    ensures Fair(Step(w, Apply))
  {
    StepSound(w, Apply);
    hide Sound, Polled;
  }

  lemma StepFair(w: World, e: Event)
    requires Fair(w)
    ensures Fair(Step(w, e))
  {
    if e.Arrive? && w.wire != [] {
      ArriveFair(w);
    } else if e.Apply? {
      ApplyFair(w);
    } else {
      OtherFair(w, e);
    }
    hide *;
  }

  lemma OtherFair(w: World, e: Event)
    requires Fair(w) && !e.Apply? && !(e.Arrive? && w.wire != [])
    ensures Fair(Step(w, e))
  {
    StepSound(w, e);
    PolledShows(w.page);
    PolledShows(w.page.(timer := None));
    PolledShows(w.page.(live := true));
    hide Sound, Polled;
  }

  /** In every interleaving: no two refreshes overlap, no wake-up is lost, a live page
      never goes quiet, replies are put on the page in the order their refreshes
      started, and neither the replies nor the pushed snapshots ever take the page back
      by themselves. */
  lemma {:induction false} NeverQuiet(events: seq<Event>)
    ensures Fair(Run(events))
    decreases |events|
  {
    if events != [] {
      NeverQuiet(events[..|events| - 1]);
      StepFair(Run(events[..|events| - 1]), events[|events| - 1]);
    }
  }

  lemma RunMore(events: seq<Event>, e: Event)
    ensures Run(events + [e]) == Step(Run(events), e)
  {
    assert (events + [e])[..|events|] == events;
  }

  /** How a poll asked for during a refresh is met: that refresh settles, the timer is
      armed with no delay at all, and when it goes off a refresh starts that is later
      than the request. */
  lemma WakeUp(events: seq<Event>, delay: nat)
    requires Run(events).page.live && Run(events).page.inFlight
    ensures var was, asked := Run(events).page, Run(events + [Call]).page;
            var settled := Run(events + [Call] + [Settle(delay)]).page;
            var woken := Run(events + [Call] + [Settle(delay)] + [Fire]).page;
            && asked.started == was.started && asked.finished == was.finished
            && settled.timer == Some(0) && !settled.inFlight
            && woken.inFlight && woken.started == asked.started + 1
  {
    NeverQuiet(events);
    RunMore(events, Call);
    RunMore(events + [Call], Settle(delay));
    RunMore(events + [Call] + [Settle(delay)], Fire);
  }

  /** When no poll was asked for meanwhile a live page waits its ordinary delay; a page
      that was left arms nothing. */
  lemma Cadence(events: seq<Event>, delay: nat)
    requires Run(events).page.inFlight
    ensures var was, now := Run(events).page, Run(events + [Settle(delay)]).page;
            && !now.inFlight && now.finished == was.finished + 1 && now.started == was.started
            && (was.live && !was.pollAgain ==> now.timer == Some(delay))
            && (was.live && was.pollAgain ==> now.timer == Some(0) && !now.pollAgain)
            && (!was.live ==> now.timer == None)
  {
    NeverQuiet(events);
    RunMore(events, Settle(delay));
  }

  /** A poll starts a refresh if the page is live and none is in flight, whether it was
      called, or the timer went off, or the page was entered; on a page that was left it
      does nothing. */
  lemma PollStarts(events: seq<Event>)
    ensures var was := Run(events).page;
            && (was.live && !was.inFlight ==>
                  var now := Run(events + [Call]).page; now.inFlight && now.started == was.started + 1)
            && (was.live && !was.inFlight ==>
                  var now := Run(events + [Fire]).page; now.inFlight && now.started == was.started + 1 && now.timer == None)
            && (!was.live ==> Run(events + [Call]).page == was)
            && (!was.inFlight ==>
                  var now := Run(events + [Enter]).page; now.live && now.inFlight && now.started == was.started + 1)
  {
    NeverQuiet(events);
    RunMore(events, Call);
    RunMore(events, Fire);
    RunMore(events, Enter);
  }

  /** A new cadence replaces the timer of a live page and nothing else; leaving takes the
      timer and the stream with it. */
  lemma TimerExactly(w: World, delay: nat)
    ensures w.page.live ==> Step(w, Reschedule(delay)) == w.(page := w.page.(timer := Some(delay)))
    ensures !w.page.live ==> Step(w, Reschedule(delay)) == w
    ensures Step(w, Leave) == w.(page := w.page.(live := false, timer := None), wire := [])
    ensures Step(w, Drop) == w.(wire := [])
  {
  }

  predicate Stays(events: seq<Event>)
  {
    forall k :: 0 <= k < |events| ==> !events[k].Leave?
  }

  /** However the page is used after a poll was asked for, as long as it is not left:
      either a refresh has started since, or the one then in flight is still running
      and remembers, or a timer is armed that will start one. */
  lemma {:induction false} NoLostWakeUp(events: seq<Event>, more: seq<Event>)
    requires Run(events).page.live && Stays(more)
    ensures var was, now := Run(events).page, Run(events + [Call] + more).page;
            now.live && now.started >= was.started && (now.started > was.started || Coming(now))
    decreases |more|
  {
    NeverQuiet(events);
    RunMore(events, Call);
    var asked := events + [Call];
    if more == [] {
      assert asked + more == asked;
    } else {
      var front, last := more[..|more| - 1], more[|more| - 1];
      assert asked + more == (asked + front) + [last];
      NoLostWakeUp(events, front);
      NeverQuiet(asked + front);
      RunMore(asked + front, last);
      OnlyGrows(Run(asked + front), last);
    }
  }

  lemma OnlyGrows(w: World, e: Event)
    requires Sound(w.page) && w.page.live && !e.Leave?
    ensures var now := Step(w, e).page;
            now.live && w.page.started <= now.started && (Coming(w.page) ==> Coming(now) || now.started > w.page.started)
  {
  }

  // ---- when the page goes back ----

  /** The page goes back: it is given an older state than it shows. */
  predicate Back(w: World, e: Event)
  {
    var before, after := w.page.shown, Step(w, e).page.shown;
    |after| > |before| > 0 && after[|after| - 1].version < before[|before| - 1].version
  }

  predicate Rising(shown: seq<Shown>)
  {
    forall j, k :: 0 <= j < k < |shown| ==> shown[j].version <= shown[k].version
  }

  /** A reply is put on the page after a newer snapshot was pushed to it, or a snapshot
      after a newer reply. */
  predicate Overtaken(w: World, e: Event)
  {
    || (e.Apply? && w.answer.Given? && !Newest(w.page.shown, Pushed, w.answer.version))
    || (e.Arrive? && w.wire != [] && !Newest(w.page.shown, Reply, w.wire[0]))
  }

  /** Exactly when a page that has only moved forward goes back. */
  lemma BackExactly(w: World, e: Event)
    requires Fair(w) && Rising(w.page.shown)
    ensures Back(w, e) <==> Overtaken(w, e)
  {
    var shown := w.page.shown;
    PolledShows(w.page);
    PolledShows(w.page.(timer := None));
    PolledShows(w.page.(live := true));
    hide Sound, Polled;
    if shown != [] {
      assert forall k :: 0 <= k < |shown| ==> shown[k].version <= shown[|shown| - 1].version;
    }
  }

  lemma RisingStep(w: World, e: Event)
    requires Fair(w)
    ensures Rising(Step(w, e).page.shown) <==> Rising(w.page.shown) && !Overtaken(w, e)
  {
    var before, after := w.page.shown, Step(w, e).page.shown;
    ShownGrows(w, e);
    if Rising(w.page.shown) {
      BackExactly(w, e);
      hide Fair, Overtaken, Step;
      if after != before && before != [] {
        assert forall k :: 0 <= k < |before| ==> before[k].version <= before[|before| - 1].version;
      }
    } else {
      hide Fair, Overtaken, Step;
      var j, k :| 0 <= j < k < |before| && before[j].version > before[k].version;
      assert after[j] == before[j] && after[k] == before[k];
    }
  }

  lemma ShownGrows(w: World, e: Event)
    ensures var before, after := w.page.shown, Step(w, e).page.shown;
            before <= after && |after| <= |before| + 1
  {
    PolledShows(w.page);
    PolledShows(w.page.(timer := None));
    PolledShows(w.page.(live := true));
    hide Polled;
  }

  ghost predicate OvertakenAt(events: seq<Event>, n: nat)
  {
    n < |events| && Overtaken(Run(events[..n]), events[n])
  }

  /** Some event of the run is overtaken. */
  ghost predicate EverOvertaken(events: seq<Event>)
  {
    exists n: nat :: OvertakenAt(events, n)
  }

  /** Over every run: the page never goes back if and only if nothing in the run is
      overtaken, a reply by a newer snapshot or a snapshot by a newer reply. */
  lemma {:induction false} RisesExactly(events: seq<Event>)
    ensures Rising(Run(events).page.shown) <==> !EverOvertaken(events)
    decreases |events|
  {
    if events != [] {
      var front, last := events[..|events| - 1], events[|events| - 1];
      RisesExactly(front);
      NeverQuiet(front);
      RisingStep(Run(front), last);
      EverMore(events);
      hide Rising, Overtaken, EverOvertaken, Step;
    }
  }

  lemma EverMore(events: seq<Event>)
    requires events != []
    ensures var front, last := events[..|events| - 1], events[|events| - 1];
            EverOvertaken(events) <==> EverOvertaken(front) || Overtaken(Run(front), last)
  {
    var front := events[..|events| - 1];
    forall n: nat
      ensures OvertakenAt(events, n) <==> if n == |front| then Overtaken(Run(front), events[n]) else OvertakenAt(front, n)
    {
      SameAt(events, n);
    }
    hide OvertakenAt, Overtaken, Run;
    assert Overtaken(Run(front), events[|front|]) ==> OvertakenAt(events, |front|);
    if m: nat :| OvertakenAt(front, m) {
      assert OvertakenAt(front, |front|) ==> false by { NotPast(front); }
      assert OvertakenAt(events, m);
    }
  }

  lemma NotPast(events: seq<Event>)
    ensures !OvertakenAt(events, |events|)
  {
  }

  lemma SameAt(events: seq<Event>, n: nat)
    requires events != []
    ensures var front := events[..|events| - 1];
            OvertakenAt(events, n) <==> if n == |front| then Overtaken(Run(front), events[n]) else OvertakenAt(front, n)
  {
    hide Overtaken, Run;
    var front := events[..|events| - 1];
    if n < |front| {
      assert events[..n] == front[..n] && events[n] == front[n];
    }
  }

  /** A page that nothing is pushed to, as the home page is, never goes back. */
  lemma {:induction false} UnpushedRises(events: seq<Event>)
    requires forall k :: 0 <= k < |events| ==> !events[k].Push?
    ensures Run(events).wire == [] && Rising(Run(events).page.shown)
    ensures forall k :: 0 <= k < |Run(events).page.shown| ==> Run(events).page.shown[k].source == Reply
    decreases |events|
  {
    if events != [] {
      var front, last := events[..|events| - 1], events[|events| - 1];
      UnpushedRises(front);
      NeverQuiet(front);
      PolledShows(Run(front).page);
      PolledShows(Run(front).page.(timer := None));
      PolledShows(Run(front).page.(live := true));
      hide Sound, Polled;
    }
  }

  /** Nothing older than the daemon's present state is on its way to the page. */
  predicate UpToDate(w: World)
  {
    (w.answer.Given? ==> w.answer.version == w.version) && (forall k :: 0 <= k < |w.wire| ==> w.wire[k] == w.version)
  }

  function RunFrom(w: World, events: seq<Event>): World
    decreases |events|
  {
    if events == [] then w else RunFrom(Step(w, events[0]), events[1..])
  }

  /** From when nothing older is on its way, and for as long as nothing changes, all
      that is put on the page is the daemon's present state. */
  lemma {:induction false} CatchesUp(w: World, events: seq<Event>)
    requires UpToDate(w) && forall k :: 0 <= k < |events| ==> !events[k].Change?
    ensures var was, now := w.page.shown, RunFrom(w, events).page.shown;
            && |was| <= |now| && now[..|was|] == was
            && forall k :: |was| <= k < |now| ==> now[k].version == w.version
    decreases |events|
  {
    if events != [] {
      PolledShows(w.page);
      PolledShows(w.page.(timer := None));
      PolledShows(w.page.(live := true));
      StaysUpToDate(w, events[0]);
      CatchesUp(Step(w, events[0]), events[1..]);
      hide *;
    }
  }

  lemma StaysUpToDate(w: World, e: Event)
    requires UpToDate(w) && !e.Change?
    ensures var next := Step(w, e);
            && UpToDate(next) && next.version == w.version
            && (next.page.shown == w.page.shown || exists source :: next.page.shown == w.page.shown + [Shown(source, w.version)])
  {
    PolledShows(w.page);
    PolledShows(w.page.(timer := None));
    PolledShows(w.page.(live := true));
    hide Polled;
    if e.Apply? && w.answer.Given? {
      assert Step(w, e).page.shown == w.page.shown + [Shown(Reply, w.version)];
    } else if e.Arrive? && w.wire != [] {
      assert Step(w, e).page.shown == w.page.shown + [Shown(Pushed, w.version)];
    }
  }

  /** Both ways a page that is pushed to goes back: a snapshot that is overtaken by a
      reply, and a reply that is overtaken by a snapshot. */
  lemma GoesBack() returns (overtakenPush: seq<Event>, overtakenReply: seq<Event>)
    ensures Run(overtakenPush).page.shown == [Shown(Reply, 1), Shown(Pushed, 0)]
    ensures Run(overtakenReply).page.shown == [Shown(Pushed, 1), Shown(Reply, 0)]
  {
    overtakenPush := [Enter, Push, Change, Respond, Apply, Arrive];
    RunIsRunFrom(overtakenPush);
    PushOvertaken();
    overtakenReply := [Enter, Respond, Change, Push, Arrive, Apply];
    RunIsRunFrom(overtakenReply);
    ReplyOvertaken();
    hide *;
  }

  function Entered(): Page
  {
    Page(true, true, false, None, 1, 0, [], [0], [])
  }

  lemma PushOvertaken()
    ensures RunFrom(START, [Enter, Push, Change, Respond, Apply, Arrive]).page.shown == [Shown(Reply, 1), Shown(Pushed, 0)]
  {
    var e := [Enter, Push, Change, Respond, Apply, Arrive];
    SixSteps(START, e);
    var p := Entered();
    assert Step(START, Enter) == World(p, 0, Awaited, []);
    assert Step(World(p, 0, Awaited, []), Push) == World(p, 0, Awaited, [0]);
    assert Step(World(p, 0, Awaited, [0]), Change) == World(p, 1, Awaited, [0]);
    assert Step(World(p, 1, Awaited, [0]), Respond) == World(p, 1, Given(1), [0]);
  }

  lemma ReplyOvertaken()
    ensures RunFrom(START, [Enter, Respond, Change, Push, Arrive, Apply]).page.shown == [Shown(Pushed, 1), Shown(Reply, 0)]
  {
    var e := [Enter, Respond, Change, Push, Arrive, Apply];
    SixSteps(START, e);
    var p := Entered();
    assert Step(START, Enter) == World(p, 0, Awaited, []);
    assert Step(World(p, 0, Awaited, []), Respond) == World(p, 0, Given(0), []);
    assert Step(World(p, 0, Given(0), []), Change) == World(p, 1, Given(0), []);
    assert Step(World(p, 1, Given(0), []), Push) == World(p, 1, Given(0), [1]);
  }

  lemma SixSteps(w: World, e: seq<Event>)
    requires |e| == 6
    ensures RunFrom(w, e) == Step(Step(Step(Step(Step(Step(w, e[0]), e[1]), e[2]), e[3]), e[4]), e[5])
  {
    hide Step;
    var w1 := Step(w, e[0]);
    var w2 := Step(w1, e[1]);
    assert RunFrom(w, e) == RunFrom(w1, e[1..]) == RunFrom(w2, e[2..]) by { assert e[1..][1..] == e[2..]; }
    var w3 := Step(w2, e[2]);
    var w4 := Step(w3, e[3]);
    assert RunFrom(w2, e[2..]) == RunFrom(w3, e[3..]) == RunFrom(w4, e[4..]) by {
      assert e[2..][1..] == e[3..] && e[3..][1..] == e[4..];
    }
    var w5 := Step(w4, e[4]);
    assert RunFrom(w4, e[4..]) == RunFrom(w5, e[5..]) == RunFrom(Step(w5, e[5]), []) by {
      assert e[4..][1..] == e[5..] && e[5..][1..] == [];
    }
  }

  lemma {:induction false} RunIsRunFrom(events: seq<Event>)
    ensures Run(events) == RunFrom(START, events)
    decreases |events|
  {
    if events != [] {
      var front, last := events[..|events| - 1], events[|events| - 1];
      RunIsRunFrom(front);
      RunFromMore(START, front, last);
      assert events == front + [last];
    }
  }

  lemma {:induction false} RunFromMore(w: World, events: seq<Event>, e: Event)
    ensures RunFrom(w, events + [e]) == Step(RunFrom(w, events), e)
    decreases |events|
  {
    if events == [] {
      assert [e][1..] == [] && events + [e] == [e];
    } else {
      assert (events + [e])[1..] == events[1..] + [e];
      RunFromMore(Step(w, events[0]), events[1..], e);
    }
  }

  // ---- the page as it runs ----

  class Client {
    var live: bool
    var inFlight: bool
    var pollAgain: bool
    var timer: Option<nat>
    var started: nat
    var finished: nat
    var applied: seq<nat>
    var asks: seq<nat>
    var shown: seq<Shown>

    function State(): Page
      reads this
    {
      Page(live, inFlight, pollAgain, timer, started, finished, applied, asks, shown)
    }

    constructor ()
      ensures State() == LOADED && Sound(State())
    {
      live, inFlight, pollAgain, timer, started, finished := false, false, false, None, 0, 0;
      applied, asks, shown := [], [], [];
    }

    method Schedule(delay: nat)
      modifies this`timer
      ensures State() == Scheduled(old(State()), delay)
      ensures live && old(Sound(State())) ==> Sound(State())
    {
      timer := None;
      timer := Some(delay);
    }

    /** `poll` up to where it waits for the refresh. */
    method Poll()
      requires Startable(State())
      modifies this
      ensures State() == Polled(old(State())) && Sound(State())
    {
      PolledSound(State());
      if !live {
        return;
      }
      asks := asks + [started];
      if inFlight {
        pollAgain := true;
        return;
      }
      inFlight := true;
      started := started + 1;
    }

    method TimerFires()
      requires Sound(State()) && timer.Some?
      modifies this
      ensures State() == Polled(old(State()).(timer := None)) && Sound(State())
    {
      FiredStartable(State());
      timer := None;
      Poll();
    }

    /** The console is shown. */
    method Enter()
      requires Sound(State())
      modifies this
      ensures State() == Polled(old(State()).(live := true)) && Sound(State())
    {
      assert live || State().(live := false) == State();
      live := true;
      Poll();
    }

    method Leave()
      requires Sound(State())
      modifies this
      ensures State() == old(State()).(live := false, timer := None) && Sound(State())
    {
      live, timer := false, None;
    }

    /** What `refresh` does with the services it was told of. */
    method TakeReply(version: nat)
      requires Sound(State()) && inFlight
      modifies this
      ensures State() == Replied(old(State()), version) && Sound(State())
    {
      RepliedSound(State(), version);
      applied := applied + [started];
      shown := shown + [Shown(Reply, version)];
    }

    method ApplySnapshot(version: nat)
      requires Sound(State())
      modifies this
      ensures State() == Announced(old(State()), version) && Sound(State())
    {
      shown := shown + [Shown(Pushed, version)];
    }

    /** The rest of `poll`, when the refresh has settled. */
    method Finally(delay: nat)
      requires Sound(State())
      modifies this
      ensures State() == Settled(old(State()), delay) && Sound(State())
    {
      SettledSound(State(), delay);
      if !inFlight {
        return;
      }
      inFlight := false;
      finished := finished + 1;
      if live {
        var next := if pollAgain then 0 else delay;
        pollAgain := false;
        Schedule(next);
      }
    }
  }
}
