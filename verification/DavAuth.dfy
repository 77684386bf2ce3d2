/** Authentication of WebDAV requests (`authenticate` and `verify_off_runtime` in
    `crates/app/admin/src/dav_api.rs`) as a state machine: any number of requests, each
    of which may be overtaken by the others wherever it waits, while another process
    rewrites the device passwords. */
module DavAuth {
  import opened Bytes
  import opened CredentialCache

  /** What a deployment fixes: how many cold verifications may run at once, the
      console's stored password, which user names are names of people, and whether a
      stored hash matches a password. */
  datatype Site = Site(slots: nat, console: string, isName: string -> bool, matches: (string, string) -> bool)

  /** No name of a person contains the separator of a fingerprint. */
  ghost predicate Sane(site: Site)
  {
    forall s: string :: site.isName(s) ==> NUL !in s
  }

  /** The device passwords: a stored hash for each person who holds one. */
  type Store = map<string, string>

  function DoorFor(site: Site, store: Store, user: string): Door
  {
    if site.isName(user) && user in store then Person(user) else Deployment
  }

  predicate Verifies(site: Site, store: Store, door: Door, c: Presented)
  {
    match door
    case Deployment => site.matches(site.console, c.password)
    case Person(name) => name in store && site.matches(store[name], c.password)
  }

  datatype Caller = Owner | PersonCaller(name: string)

  function Authenticated(door: Door): Caller
  {
    match door
    case Deployment => Owner
    case Person(name) => PersonCaller(name)
  }

  // ---- the machine ----

  /** One comparison against a store: what it said, of which version, and when. */
  datatype Check = Check(verified: bool, version: nat, at: nat)

  datatype Phase = Arrived | Admitted | Waiting | Verifying(check: Option<Check>)

  /** `version` is the store the door was decided from. */
  datatype Request = Request(door: Door, presented: Presented, version: nat, phase: Phase)

  datatype Outcome = LetIn(caller: Caller) | Wrong | Throttled

  datatype Answer = Answer(door: Door, presented: Presented, version: nat, outcome: Outcome, at: nat)

  datatype Decision = Decision(door: Door, presented: Presented, check: Check, decidedAt: nat)

  /** `stores` are all the versions there have been, `ran` counts the verifications
      of a fingerprint remembered since its present entry was made. */
  datatype World = World(
    now: nat, stores: seq<Store>, entries: seq<Entry>, requests: map<nat, Request>,
    ran: map<string, nat>, decisions: seq<Decision>, answers: seq<Answer>)

  const START := World(0, [map[]], [], map[], map[], [], [])

  function Mark(r: Request): string
  {
    Fingerprint(r.door, r.presented)
  }

  datatype Event =
    | Tick(by_: nat)
    | Rewrite(store: Store)
    | Arrive(id: nat, presented: Presented)
    | Throttle(id: nat)                 // refused at once after too many failures
    | Ask(id: nat)                      // the first look-up
    | Slot(id: nat)                     // a slot is in hand; the second look-up
    | Compare(id: nat)                  // the cold verification reads the store
    | Finish(id: nat, joined: bool)     // its result is remembered, and the slot given back

  function Store0(w: World): Store
    requires w.stores != []
  {
    w.stores[|w.stores| - 1]
  }

  function Answered(w: World, id: nat, outcome: Outcome): World
    requires id in w.requests
  {
    var r := w.requests[id];
    w.(requests := w.requests - {id}, answers := w.answers + [Answer(r.door, r.presented, r.version, outcome, w.now)])
  }

  function Moved(w: World, id: nat, phase: Phase): World
    requires id in w.requests
  {
    w.(requests := w.requests[id := w.requests[id].(phase := phase)])
  }

  /** A look-up: answered from the cache, or on to `next`. */
  function Consulted(w: World, id: nat, next: Phase): World
    requires id in w.requests
  {
    var r := w.requests[id];
    var kept := w.(entries := Retained(w.entries, w.now));
    match LookedUp(w.entries, w.now, Mark(r))
    case Verified => Answered(kept, id, LetIn(Authenticated(r.door)))
    case Rejected => Answered(kept, id, Wrong)
    case Unknown => Moved(kept, id, next)
  }

  function Count(ran: map<string, nat>, mark: string): nat
  {
    if mark in ran then ran[mark] else 0
  }

  function Finished(w: World, id: nat, check: Check): World
    requires id in w.requests
  {
    var r := w.requests[id];
    var mark := Mark(r);
    var ran := if LookedUp(w.entries, w.now, mark) == Unknown then 1 else Count(w.ran, mark) + 1;
    var told := w.(entries := Remembered(w.entries, w.now, mark, check.verified), ran := w.ran[mark := ran],
                   decisions := w.decisions + [Decision(r.door, r.presented, check, w.now)]);
    Answered(told, id, if check.verified then LetIn(Authenticated(r.door)) else Wrong)
  }

  ghost function Flying(w: World): set<nat>
  {
    set id | id in w.requests && w.requests[id].phase.Verifying?
  }

  ghost predicate In(w: World, id: nat, phase: Phase)
  {
    id in w.requests && w.requests[id].phase == phase
  }

  ghost function Step(site: Site, w: World, e: Event): (v: World)
    requires w.stores != []
    ensures v.stores != []
  {
    match e
    case Tick(by_) => w.(now := w.now + by_)
    case Rewrite(store) => w.(stores := w.stores + [store])
    case Arrive(id, presented) =>
      if id in w.requests then w
      else w.(requests := w.requests[id := Request(DoorFor(site, Store0(w), presented.user), presented, |w.stores| - 1, Arrived)])
    case Throttle(id) =>
      if !In(w, id, Arrived) then w
      else if Braked(w.entries, w.now, Mark(w.requests[id])) then Answered(w, id, Throttled)
      else Moved(w, id, Admitted)
    case Ask(id) => if In(w, id, Admitted) then Consulted(w, id, Waiting) else w
    case Slot(id) => if In(w, id, Waiting) && |Flying(w)| < site.slots then Consulted(w, id, Verifying(None)) else w
    case Compare(id) =>
      if !In(w, id, Verifying(None)) then w
      else
        var r := w.requests[id];
        Moved(w, id, Verifying(Some(Check(Verifies(site, Store0(w), r.door, r.presented), |w.stores| - 1, w.now))))
    case Finish(id, joined) =>
      if id !in w.requests || !w.requests[id].phase.Verifying? then w
      else if !joined then Answered(w, id, Wrong)
      else if w.requests[id].phase.check == None then w
      else Finished(w, id, w.requests[id].phase.check.value)
  }

  ghost function Run(site: Site, events: seq<Event>): (w: World)
    ensures w.stores != []
    decreases |events|
  {
    if events == [] then START else Step(site, Run(site, events[..|events| - 1]), events[|events| - 1])
  }

  // ---- what every step keeps: who is being verified ----

  ghost function FlyingOn(w: World, mark: string): set<nat>
  {
    set id | id in w.requests && w.requests[id].phase.Verifying? && Mark(w.requests[id]) == mark
  }

  /** No more verifications than slots; and those of one fingerprint, counting the
      ones already remembered in the life of its entry, are no more than slots either. */
  ghost predicate Bounded(site: Site, w: World)
  {
    && |Flying(w)| <= site.slots
    && forall mark :: Present(w.entries, w.now, mark) ==> Count(w.ran, mark) + |FlyingOn(w, mark)| <= site.slots
  }

  ghost predicate Tidy(w: World)
  {
    && OneEach(w.entries) && |w.entries| <= MAX_ENTRIES
    && forall e :: e in w.entries ==> (e.verified ==> e.failures == 0) && e.failures <= Count(w.ran, e.mark)
  }

  lemma SubsetSize(a: set<nat>, b: set<nat>)
    requires a <= b
    ensures |a| <= |b|
  {
    assert b == a + (b - a);
  }

  lemma LiveEarlier(entries: seq<Entry>, now: nat, later: nat, mark: string)
    requires now <= later && Present(entries, later, mark)
    ensures Present(entries, now, mark)
  {
    var k :| 0 <= k < |entries| && entries[k].mark == mark && Live(entries[k], later);
    assert Live(entries[k], now);
  }

  lemma StillPresent(entries: seq<Entry>, now: nat, mark: string)
    ensures Present(Retained(entries, now), now, mark) ==> Present(entries, now, mark)
  {
    RetainedIs(entries, now);
    var kept := Retained(entries, now);
    hide Live, Retained;
    if Present(kept, now, mark) {
      var k :| 0 <= k < |kept| && kept[k].mark == mark && Live(kept[k], now);
      assert kept[k] in entries;
      var j :| 0 <= j < |entries| && entries[j] == kept[k];
    }
  }

  lemma RetainedTidy(w: World)
    requires Tidy(w)
    ensures Tidy(w.(entries := Retained(w.entries, w.now)))
  {
    RetainedIs(w.entries, w.now);
  }

  /** A request leaves, or changes phase without starting a verification. */
  lemma FewerFlying(w: World, v: World, mark: string)
    requires forall id :: id in v.requests && v.requests[id].phase.Verifying? ==>
               id in w.requests && w.requests[id].phase.Verifying? && Mark(w.requests[id]) == Mark(v.requests[id])
    ensures |Flying(v)| <= |Flying(w)| && |FlyingOn(v, mark)| <= |FlyingOn(w, mark)|
  {
    hide Mark;
    SubsetSize(Flying(v), Flying(w));
    SubsetSize(FlyingOn(v, mark), FlyingOn(w, mark));
  }

  /** Nothing new is in flight, and nothing new is present. */
  lemma CalmBounded(site: Site, w: World, v: World)
    requires Bounded(site, w) && w.ran == v.ran
    requires forall id :: id in v.requests && v.requests[id].phase.Verifying? ==>
               id in w.requests && w.requests[id].phase.Verifying? && Mark(w.requests[id]) == Mark(v.requests[id])
    requires forall mark :: Present(v.entries, v.now, mark) ==> Present(w.entries, w.now, mark)
    ensures Bounded(site, v)
  {
    hide Mark, Present;
    forall mark | Present(v.entries, v.now, mark) ensures Count(v.ran, mark) + |FlyingOn(v, mark)| <= site.slots {
      FewerFlying(w, v, mark);
    }
    FewerFlying(w, v, "");
  }

  lemma ConsultedBounded(site: Site, w: World, id: nat, next: Phase)
    requires Bounded(site, w) && Tidy(w) && id in w.requests && !w.requests[id].phase.Verifying?
    requires next == Waiting || (next == Verifying(None) && |Flying(w)| < site.slots)
    ensures Bounded(site, Consulted(w, id, next)) && Tidy(Consulted(w, id, next))
  {
    var v := Consulted(w, id, next);
    RetainedTidy(w);
    forall mark ensures Present(v.entries, v.now, mark) ==> Present(w.entries, w.now, mark) {
      StillPresent(w.entries, w.now, mark);
    }
    var mine := Mark(w.requests[id]);
    LookUpKnows(w.entries, w.now, mine);
    hide Retained, Live, Present, Tidy, Mark;
    if next == Waiting || LookedUp(w.entries, w.now, mine) != Unknown {
      CalmBounded(site, w, v);
    } else {
      assert v.requests == w.requests[id := w.requests[id].(phase := Verifying(None))];
      hide Consulted, LookedUp;
      Takeoff(site, w, v, id);
    }
  }

  /** A verification of something unknown starts: nothing about it is present. */
  lemma Takeoff(site: Site, w: World, v: World, id: nat)
    requires Bounded(site, w) && w.ran == v.ran && w.now == v.now && |Flying(w)| < site.slots
    requires id in w.requests && !w.requests[id].phase.Verifying? && !Present(w.entries, w.now, Mark(w.requests[id]))
    requires v.requests == w.requests[id := w.requests[id].(phase := Verifying(None))]
    requires forall mark :: Present(v.entries, v.now, mark) ==> Present(w.entries, w.now, mark)
    ensures Bounded(site, v)
  {
    assert Mark(v.requests[id]) == Mark(w.requests[id]);
    hide Mark, Present;
    assert Flying(v) == Flying(w) + {id};
    forall mark | Present(v.entries, v.now, mark) ensures Count(v.ran, mark) + |FlyingOn(v, mark)| <= site.slots {
      assert FlyingOn(v, mark) == FlyingOn(w, mark);
    }
  }

  /** Remembering: the flight that ends is counted once more in the entry's life. */
  lemma FinishedBounded(site: Site, w: World, id: nat, check: Check)
    requires Bounded(site, w) && Tidy(w) && id in w.requests && w.requests[id].phase.Verifying?
    ensures Bounded(site, Finished(w, id, check))
  {
    var v := Finished(w, id, check);
    var mine := Mark(w.requests[id]);
    LookUpKnows(w.entries, w.now, mine);
    RememberedIs(w.entries, w.now, mine, check.verified);
    assert v.requests == w.requests - {id} && v.now == w.now;
    assert Count(v.ran, mine) == if Present(w.entries, w.now, mine) then Count(w.ran, mine) + 1 else 1;
    assert forall mark | mark != mine :: Count(v.ran, mark) == Count(w.ran, mark);
    hide Finished, LookedUp, Remembered;
    forall mark | mark != mine && Present(v.entries, v.now, mark) ensures Present(w.entries, w.now, mark) {
      OtherPresent(w.entries, v.entries, w.now, mine, check.verified, mark);
    }
    Landing(site, w, v, id);
  }

  /** A verification ends: one fewer in flight, one more counted against its entry. */
  lemma Landing(site: Site, w: World, v: World, id: nat)
    requires Bounded(site, w) && id in w.requests && w.requests[id].phase.Verifying? && v.requests == w.requests - {id}
    requires var mine := Mark(w.requests[id]);
             && Count(v.ran, mine) == (if Present(w.entries, w.now, mine) then Count(w.ran, mine) + 1 else 1)
             && (forall mark | mark != mine :: Count(v.ran, mark) == Count(w.ran, mark))
             && (forall mark | mark != mine && Present(v.entries, v.now, mark) :: Present(w.entries, w.now, mark))
    ensures Bounded(site, v)
  {
    var mine := Mark(w.requests[id]);
    SubsetSize(FlyingOn(w, mine), Flying(w));
    assert id in FlyingOn(w, mine);
    hide Mark, Present, Count;
    assert Flying(v) == Flying(w) - {id} && FlyingOn(v, mine) == FlyingOn(w, mine) - {id};
    forall mark | Present(v.entries, v.now, mark) ensures Count(v.ran, mark) + |FlyingOn(v, mark)| <= site.slots {
      if mark != mine {
        assert FlyingOn(v, mark) == FlyingOn(w, mark);
      }
    }
  }

  lemma OtherPresent(entries: seq<Entry>, out: seq<Entry>, now: nat, mine: string, verified: bool, mark: string)
    requires AfterRemembering(entries, out, now, mine, verified) && mark != mine && Present(out, now, mark)
    ensures Present(entries, now, mark)
  {
    hide Live;
    var k :| 0 <= k < |out| && out[k].mark == mark && Live(out[k], now);
    assert out[k] in out && out[k] in entries;
    var j :| 0 <= j < |entries| && entries[j] == out[k];
  }

  lemma FinishedTidy(w: World, id: nat, check: Check)
    requires Tidy(w) && id in w.requests
    ensures Tidy(Finished(w, id, check))
  {
    var v := Finished(w, id, check);
    var mine := Mark(w.requests[id]);
    RememberedIs(w.entries, w.now, mine, check.verified);
    LookUpKnows(w.entries, w.now, mine);
    hide LookedUp, Mark, Remembered, Live;
    forall e | e in v.entries ensures (e.verified ==> e.failures == 0) && e.failures <= Count(v.ran, e.mark) {
      if e.mark == mine {
        assert Decided(w.entries, e, w.now, check.verified);
        if e.failures > 1 {
          var was :| was in w.entries && was.mark == mine && Live(was, w.now) && e.failures == was.failures + 1;
          var k :| 0 <= k < |w.entries| && w.entries[k] == was;
          assert Present(w.entries, w.now, mine);
        }
      }
    }
  }

  lemma TickBounded(site: Site, w: World, span: nat)
    requires w.stores != [] && Bounded(site, w) && Tidy(w)
    ensures Bounded(site, Step(site, w, Tick(span))) && Tidy(Step(site, w, Tick(span)))
  {
    var v := Step(site, w, Tick(span));
    assert v == w.(now := w.now + span);
    hide Step;
    forall mark ensures Present(v.entries, v.now, mark) ==> Present(w.entries, w.now, mark) {
      if Present(v.entries, v.now, mark) {
        LiveEarlier(w.entries, w.now, v.now, mark);
      }
    }
    CalmBounded(site, w, v);
  }

  lemma StepBounded(site: Site, w: World, e: Event)
    requires w.stores != [] && Bounded(site, w) && Tidy(w)
    ensures Bounded(site, Step(site, w, e)) && Tidy(Step(site, w, e))
  {
    hide Verifies, DoorFor, Fingerprint, Count, FlyingOn, Bounded;
    match e
    case Tick(by_) => TickBounded(site, w, by_);
    case Ask(id) => if In(w, id, Admitted) { ConsultedBounded(site, w, id, Waiting); }
    case Slot(id) => if In(w, id, Waiting) && |Flying(w)| < site.slots { ConsultedBounded(site, w, id, Verifying(None)); }
    case Finish(id, joined) =>
      if id in w.requests && w.requests[id].phase.Verifying? && joined && w.requests[id].phase.check.Some? {
        FinishedBounded(site, w, id, w.requests[id].phase.check.value);
        FinishedTidy(w, id, w.requests[id].phase.check.value);
      } else {
        CalmBounded(site, w, Step(site, w, e));
      }
    case _ => CalmBounded(site, w, Step(site, w, e));
  }

  lemma {:induction false} RunBounded(site: Site, events: seq<Event>)
    ensures Bounded(site, Run(site, events)) && Tidy(Run(site, events))
    decreases |events|
  {
    if events == [] {
      assert Flying(START) == {};
    } else {
      RunBounded(site, events[..|events| - 1]);
      hide Bounded, Tidy, Step;
      StepBounded(site, Run(site, events[..|events| - 1]), events[|events| - 1]);
    }
  }

  /** Single flight: whatever the interleaving, while a decision about a credential
      stands, the verifications of it that made or outlived that decision, finished
      or still running, are no more than there are slots. */
  lemma SingleFlight(site: Site, events: seq<Event>, mark: string)
    ensures var w := Run(site, events);
            && |w.entries| <= 64 && |Flying(w)| <= site.slots
            && (Present(w.entries, w.now, mark) ==> Count(w.ran, mark) + |FlyingOn(w, mark)| <= site.slots)
  {
    RunBounded(site, events);
  }

  /** A verification starts only for a credential about which nothing is known. */
  lemma StartsCold(site: Site, w: World, e: Event, id: nat)
    requires w.stores != [] && id in Flying(Step(site, w, e)) && id !in Flying(w)
    ensures e == Slot(id) && id in w.requests && !Present(w.entries, w.now, Mark(w.requests[id]))
    ensures |Flying(w)| < site.slots
  {
    if e.Slot? && In(w, e.id, Waiting) {
      LookUpKnows(w.entries, w.now, Mark(w.requests[e.id]));
    }
  }

  // ---- the brake ----

  lemma BrakedMeans(site: Site, w: World, mark: string)
    requires Bounded(site, w) && Tidy(w) && Braked(w.entries, w.now, mark)
    ensures MAX_FAILURES <= site.slots
  {
    var at := Find(w.entries, mark).value;
    var e := w.entries[at];
    assert e in w.entries && Live(e, w.now);
    assert Present(w.entries, w.now, mark);
  }

  ghost predicate AnyThrottled(w: World)
  {
    exists k :: 0 <= k < |w.answers| && w.answers[k].outcome == Throttled
  }

  lemma StepThrottles(site: Site, w: World, e: Event)
    requires w.stores != [] && !AnyThrottled(w) && AnyThrottled(Step(site, w, e))
    ensures e.Throttle? && e.id in w.requests && Braked(w.entries, w.now, Mark(w.requests[e.id]))
  {
    hide Retained, Remembered, LookedUp, Braked, Fingerprint;
  }

  /** With fewer slots than the brake counts failures, no request is ever throttled:
      a credential's failures are counted once for each slot at most. */
  lemma {:induction false} ThrottleNeverFires(site: Site, events: seq<Event>)
    requires site.slots < 10
    ensures !AnyThrottled(Run(site, events))
    decreases |events|
  {
    if events != [] {
      var before, e := Run(site, events[..|events| - 1]), events[|events| - 1];
      ThrottleNeverFires(site, events[..|events| - 1]);
      RunBounded(site, events[..|events| - 1]);
      hide Bounded, Tidy, Step, AnyThrottled, Braked;
      if AnyThrottled(Step(site, before, e)) {
        StepThrottles(site, before, e);
        BrakedMeans(site, before, Mark(before.requests[e.id]));
      }
    }
  }

  ghost function Ids(low: nat, high: nat): (ids: set<nat>)
    requires low <= high
    ensures forall id :: id in ids <==> low <= id < high
    ensures |ids| == high - low
  {
    if low == high then {} else Ids(low, high - 1) + {high - 1}
  }

  /** The state after `n` requests with the same wrong credential were launched, and
      `done` of them have come down. */
  ghost predicate Storm(w: World, c: Presented, done: nat, n: nat)
    requires done <= n
  {
    && w.now == 0 && w.stores == [map[]]
    && w.entries == (if done == 0 then [] else [Entry(Fingerprint(Deployment, c), false, 0, done, 0)])
    && (forall id :: id in w.requests <==> done <= id < n)
    && forall id :: id in w.requests ==> w.requests[id] == Request(Deployment, c, 0, Verifying(Some(Check(false, 0, 0))))
  }

  lemma RunThen(site: Site, events: seq<Event>, e: Event)
    ensures Run(site, events + [e]) == Step(site, Run(site, events), e)
  {
    assert (events + [e])[..|events|] == events;
  }

  /** One more request with the wrong credential is launched. */
  lemma Launch(site: Site, events: seq<Event>, c: Presented, n: nat) returns (more: seq<Event>)
    requires Storm(Run(site, events), c, 0, n) && n < site.slots && !site.matches(site.console, c.password)
    ensures Storm(Run(site, more), c, 0, n + 1)
  {
    var w := Run(site, events);
    more := events + [Arrive(n, c)] + [Throttle(n)] + [Ask(n)] + [Slot(n)] + [Compare(n)];
    RunThen(site, events, Arrive(n, c));
    RunThen(site, events + [Arrive(n, c)], Throttle(n));
    RunThen(site, events + [Arrive(n, c)] + [Throttle(n)], Ask(n));
    RunThen(site, events + [Arrive(n, c)] + [Throttle(n)] + [Ask(n)], Slot(n));
    RunThen(site, events + [Arrive(n, c)] + [Throttle(n)] + [Ask(n)] + [Slot(n)], Compare(n));
    assert w.stores == [map[]] && w.entries == [] && w.now == 0;
    StormGrows(w, c, n);
    hide *;
    ClimbToSlot(site, w, c, n);
    ClimbFromSlot(site, w, c, n);
  }

  function With(w: World, c: Presented, n: nat, phase: Phase): World
  {
    w.(requests := w.requests[n := Request(Deployment, c, 0, phase)])
  }

  lemma MovedWith(w: World, c: Presented, n: nat, phase: Phase, next: Phase)
    ensures Moved(With(w, c, n, phase), n, next) == With(w, c, n, next)
  {
    var v := With(w, c, n, phase);
    assert v.requests[n := v.requests[n].(phase := next)] == With(w, c, n, next).requests;
  }

  /** The first three steps of a launch, from a state in which nothing is cached. */
  lemma ClimbToSlot(site: Site, w: World, c: Presented, n: nat)
    requires w.stores == [map[]] && w.entries == [] && n !in w.requests
    ensures Step(site, w, Arrive(n, c)) == With(w, c, n, Arrived)
    ensures Step(site, With(w, c, n, Arrived), Throttle(n)) == With(w, c, n, Admitted)
    ensures Step(site, With(w, c, n, Admitted), Ask(n)) == With(w, c, n, Waiting)
  {
    hide Fingerprint, Moved;
    MovedWith(w, c, n, Arrived, Admitted);
    MovedWith(w, c, n, Admitted, Waiting);
    var asked := With(w, c, n, Admitted);
    assert asked.(entries := Retained(asked.entries, asked.now)) == asked;
  }

  lemma ClimbFromSlot(site: Site, w: World, c: Presented, n: nat)
    requires w.stores == [map[]] && w.entries == [] && w.now == 0 && n !in w.requests
    requires |Flying(With(w, c, n, Waiting))| < site.slots
    ensures Step(site, With(w, c, n, Waiting), Slot(n)) == With(w, c, n, Verifying(None))
    ensures Step(site, With(w, c, n, Verifying(None)), Compare(n))
         == With(w, c, n, Verifying(Some(Check(site.matches(site.console, c.password), 0, 0))))
  {
    hide Fingerprint, Moved, Flying;
    MovedWith(w, c, n, Waiting, Verifying(None));
    MovedWith(w, c, n, Verifying(None), Verifying(Some(Check(site.matches(site.console, c.password), 0, 0))));
    var waiting := With(w, c, n, Waiting);
    assert waiting.(entries := Retained(waiting.entries, waiting.now)) == waiting;
  }

  lemma StormGrows(w: World, c: Presented, n: nat)
    requires Storm(w, c, 0, n)
    ensures |Flying(With(w, c, n, Waiting))| == n
    ensures Storm(With(w, c, n, Verifying(Some(Check(false, 0, 0)))), c, 0, n + 1)
  {
    StormFlies(w, c, n);
    hide Fingerprint, Flying;
  }

  lemma StormFlies(w: World, c: Presented, n: nat)
    requires Storm(w, c, 0, n)
    ensures |Flying(With(w, c, n, Waiting))| == n
  {
    var v := With(w, c, n, Waiting);
    assert forall id :: id in v.requests && v.requests[id].phase.Verifying? <==> 0 <= id < n;
    hide Fingerprint, Storm, With, Ids;
    assert Flying(v) == Ids(0, n);
  }

  lemma FailedAgain(mark: string, done: nat)
    ensures var before := if done == 0 then [] else [Entry(mark, false, 0, done, 0)];
            Remembered(before, 0, mark, false) == [Entry(mark, false, 0, done + 1, 0)]
  {
    if done > 0 {
      var held := [Entry(mark, false, 0, done, 0)];
      assert held[..0] == [] && Live(held[0], 0) && Retained(held, 0) == held;
      FindFirst(held, mark, 0);
    }
  }

  lemma FinishedIs(w: World, id: nat, check: Check)
    requires id in w.requests
    ensures Finished(w, id, check).requests == w.requests - {id}
    ensures Finished(w, id, check).entries == Remembered(w.entries, w.now, Mark(w.requests[id]), check.verified)
    ensures Finished(w, id, check).now == w.now && Finished(w, id, check).stores == w.stores
  {
    hide Remembered, LookedUp, Fingerprint;
  }

  /** One of them fails. */
  lemma Land(site: Site, events: seq<Event>, c: Presented, done: nat, n: nat)
    requires done < n && Storm(Run(site, events), c, done, n)
    ensures Storm(Run(site, events + [Finish(done, true)]), c, done + 1, n)
  {
    RunThen(site, events, Finish(done, true));
    LandWorld(site, Run(site, events), c, done, n);
  }

  lemma LandWorld(site: Site, w: World, c: Presented, done: nat, n: nat)
    requires done < n && Storm(w, c, done, n)
    ensures Storm(Step(site, w, Finish(done, true)), c, done + 1, n)
  {
    var check := Check(false, 0, 0);
    hide Finished, Fingerprint;
    var v := Step(site, w, Finish(done, true));
    assert v == Finished(w, done, check);
    hide Step;
    FinishedIs(w, done, check);
    FailedAgain(Fingerprint(Deployment, c), done);
    hide Remembered;
    assert Mark(w.requests[done]) == Fingerprint(Deployment, c);
    StormLanded(w, v, c, done, n);
  }

  lemma StormLanded(w: World, v: World, c: Presented, done: nat, n: nat)
    requires done < n && Storm(w, c, done, n) && v.now == w.now && v.stores == w.stores
    requires v.requests == w.requests - {done} && v.entries == [Entry(Fingerprint(Deployment, c), false, 0, done + 1, 0)]
    ensures Storm(v, c, done + 1, n)
  {
    hide Fingerprint;
  }

  /** With as many slots as the brake counts failures it can fire: so many requests
      with one wrong credential fly together, all fail, and the next is throttled. */
  lemma ThrottleCanFire(site: Site, c: Presented)
    requires 10 <= site.slots && !site.matches(site.console, c.password)
    ensures exists events :: AnyThrottled(Run(site, events))
  {
    hide Storm, Run, AnyThrottled;
    var up := AllUp(site, c, MAX_FAILURES);
    var down := AllDown(site, c, up, MAX_FAILURES, MAX_FAILURES);
    OneMoreIsThrottled(site, down, c);
  }

  lemma {:induction false} AllUp(site: Site, c: Presented, n: nat) returns (events: seq<Event>)
    requires n <= site.slots && !site.matches(site.console, c.password)
    ensures Storm(Run(site, events), c, 0, n)
  {
    events := [];
    if n > 0 {
      hide *;
      events := AllUp(site, c, n - 1);
      events := Launch(site, events, c, n - 1);
    }
  }

  lemma {:induction false} AllDown(site: Site, c: Presented, up: seq<Event>, done: nat, n: nat) returns (events: seq<Event>)
    requires done <= n && Storm(Run(site, up), c, 0, n)
    ensures Storm(Run(site, events), c, done, n)
  {
    hide *;
    events := up;
    if done > 0 {
      events := AllDown(site, c, up, done - 1, n);
      Land(site, events, c, done - 1, n);
      events := events + [Finish(done - 1, true)];
    }
  }

  lemma OneMoreIsThrottled(site: Site, events: seq<Event>, c: Presented)
    requires Storm(Run(site, events), c, MAX_FAILURES, MAX_FAILURES)
    ensures AnyThrottled(Run(site, events + [Arrive(0, c)] + [Throttle(0)]))
  {
    RunThen(site, events, Arrive(0, c));
    RunThen(site, events + [Arrive(0, c)], Throttle(0));
    var w := Run(site, events);
    hide Run, Fingerprint;
    var one := Step(site, w, Arrive(0, c));
    assert Mark(one.requests[0]) == Fingerprint(Deployment, c);
    assert Find(w.entries, Fingerprint(Deployment, c)) == Some(0);
    var two := Step(site, one, Throttle(0));
    assert two.answers[|one.answers|].outcome == Throttled;
  }

  // ---- what every step keeps: why a caller was let in ----

  ghost predicate SoundCheck(site: Site, stores: seq<Store>, door: Door, c: Presented, check: Check)
  {
    check.version < |stores| && check.verified == Verifies(site, stores[check.version], door, c)
  }

  ghost predicate SoundRequest(site: Site, stores: seq<Store>, r: Request)
  {
    && r.version < |stores| && r.door == DoorFor(site, stores[r.version], r.presented.user)
    && (r.phase.Verifying? && r.phase.check.Some? ==> SoundCheck(site, stores, r.door, r.presented, r.phase.check.value))
  }

  ghost predicate SoundDecision(site: Site, stores: seq<Store>, d: Decision)
  {
    && (d.door.Person? ==> d.door.name == d.presented.user && site.isName(d.presented.user))
    && SoundCheck(site, stores, d.door, d.presented, d.check)
  }

  /** `d` says yes to this credential at this door, less than a TTL before. */
  predicate Supports(d: Decision, a: Answer)
  {
    && d.check.verified && Fingerprint(d.door, d.presented) == Fingerprint(a.door, a.presented)
    && d.decidedAt <= a.at < d.decidedAt + ENTRY_TTL
  }

  ghost predicate Justified(decisions: seq<Decision>, a: Answer)
  {
    exists k :: 0 <= k < |decisions| && Supports(decisions[k], a)
  }

  ghost predicate SoundAnswer(site: Site, stores: seq<Store>, decisions: seq<Decision>, a: Answer)
  {
    && a.version < |stores| && a.door == DoorFor(site, stores[a.version], a.presented.user)
    && (a.outcome.LetIn? ==> a.outcome.caller == Authenticated(a.door) && Justified(decisions, a))
  }

  predicate Records(d: Decision, e: Entry)
  {
    Fingerprint(d.door, d.presented) == e.mark && d.check.verified == e.verified && d.decidedAt == e.decidedAt
  }

  ghost predicate SoundEntry(decisions: seq<Decision>, now: nat, e: Entry)
  {
    e.decidedAt <= now && exists k :: 0 <= k < |decisions| && Records(decisions[k], e)
  }

  ghost predicate Sound(site: Site, w: World)
  {
    && w.stores != []
    && (forall id :: id in w.requests ==> SoundRequest(site, w.stores, w.requests[id]))
    && (forall k :: 0 <= k < |w.decisions| ==> SoundDecision(site, w.stores, w.decisions[k]))
    && (forall k :: 0 <= k < |w.answers| ==> SoundAnswer(site, w.stores, w.decisions, w.answers[k]))
    && (forall e :: e in w.entries ==> SoundEntry(w.decisions, w.now, e))
  }

  lemma MoreDecisions(decisions: seq<Decision>, d: Decision, a: Answer, e: Entry, now: nat)
    ensures Justified(decisions, a) ==> Justified(decisions + [d], a)
    ensures SoundEntry(decisions, now, e) ==> SoundEntry(decisions + [d], now, e)
    ensures Supports(d, a) ==> Justified(decisions + [d], a)
    ensures Records(d, e) && e.decidedAt <= now ==> SoundEntry(decisions + [d], now, e)
  {
    var more := decisions + [d];
    hide Supports, Records;
    assert more[|decisions|] == d;
    if Justified(decisions, a) {
      var k :| 0 <= k < |decisions| && Supports(decisions[k], a);
      assert more[k] == decisions[k];
    }
    if SoundEntry(decisions, now, e) {
      var k :| 0 <= k < |decisions| && Records(decisions[k], e);
      assert more[k] == decisions[k];
    }
  }

  /** An answer from the cache rests on a decision less than a TTL old. */
  lemma CachedIsJustified(w: World, r: Request)
    requires Tidy(w) && forall e :: e in w.entries ==> SoundEntry(w.decisions, w.now, e)
    requires LookedUp(w.entries, w.now, Mark(r)) == Verified
    ensures Justified(w.decisions, Answer(r.door, r.presented, r.version, LetIn(Authenticated(r.door)), w.now))
  {
    LookUpKnows(w.entries, w.now, Mark(r));
    hide LookedUp, Fingerprint;
    var e :| e in w.entries && e.mark == Mark(r) && Live(e, w.now) && e.verified;
    assert e.failures == 0 && SoundEntry(w.decisions, w.now, e);
    var k :| 0 <= k < |w.decisions| && Records(w.decisions[k], e);
    assert Supports(w.decisions[k], Answer(r.door, r.presented, r.version, LetIn(Authenticated(r.door)), w.now));
  }

  lemma AnsweredSound(site: Site, w: World, id: nat, outcome: Outcome)
    requires Sound(site, w) && id in w.requests
    requires outcome.LetIn? ==> outcome == LetIn(Authenticated(w.requests[id].door))
    requires outcome.LetIn? ==>
               Justified(w.decisions, Answer(w.requests[id].door, w.requests[id].presented, w.requests[id].version, outcome, w.now))
    ensures Sound(site, Answered(w, id, outcome))
  {
    assert SoundRequest(site, w.stores, w.requests[id]);
    hide Justified, SoundDecision, SoundEntry, SoundCheck, DoorFor, Authenticated;
  }

  lemma ConsultedSound(site: Site, w: World, id: nat, next: Phase)
    requires Sound(site, w) && Tidy(w) && id in w.requests && (next == Waiting || next == Verifying(None))
    ensures Sound(site, Consulted(w, id, next))
  {
    var r, kept := w.requests[id], w.(entries := Retained(w.entries, w.now));
    RetainedIs(w.entries, w.now);
    if LookedUp(w.entries, w.now, Mark(r)) == Verified {
      CachedIsJustified(w, r);
    }
    hide Retained, LookedUp, Mark, Tidy, SoundDecision, SoundAnswer, SoundEntry, Justified, Live, SoundCheck;
    assert Sound(site, kept);
    match LookedUp(w.entries, w.now, Mark(r))
    case Verified => AnsweredSound(site, kept, id, LetIn(Authenticated(r.door)));
    case Rejected => AnsweredSound(site, kept, id, Wrong);
    case Unknown =>
      assert SoundRequest(site, w.stores, r);
      assert SoundRequest(site, w.stores, r.(phase := next));
  }

  lemma FinishedSound(site: Site, w: World, id: nat, check: Check)
    requires Sane(site) && Sound(site, w) && Tidy(w) && id in w.requests && w.requests[id].phase == Verifying(Some(check))
    ensures Sound(site, Finished(w, id, check))
  {
    var r := w.requests[id];
    var d := Decision(r.door, r.presented, check, w.now);
    var out := Remembered(w.entries, w.now, Mark(r), check.verified);
    var told := w.(entries := out, ran := Finished(w, id, check).ran, decisions := w.decisions + [d]);
    RememberedIs(w.entries, w.now, Mark(r), check.verified);
    assert SoundRequest(site, w.stores, r);
    assert SoundDecision(site, w.stores, d);
    var outcome := if check.verified then LetIn(Authenticated(r.door)) else Wrong;
    var a := Answer(r.door, r.presented, r.version, outcome, w.now);
    assert check.verified ==> Supports(d, a);
    assert Finished(w, id, check) == Answered(told, id, outcome);
    forall k | 0 <= k < |w.answers| ensures SoundAnswer(site, w.stores, told.decisions, w.answers[k]) {
      MoreDecisions(w.decisions, d, w.answers[k], Fresh("", 0, false), 0);
      assert SoundAnswer(site, w.stores, w.decisions, w.answers[k]);
    }
    forall e | e in out ensures SoundEntry(told.decisions, w.now, e) {
      MoreDecisions(w.decisions, d, a, e, w.now);
      if e.mark == Mark(r) {
        assert Decided(w.entries, e, w.now, check.verified) && Records(d, e);
      }
    }
    MoreDecisions(w.decisions, d, a, Fresh("", 0, false), 0);
    hide Remembered, Finished, Mark, SoundDecision, SoundAnswer, SoundEntry, Justified, SoundRequest, Supports, Records, Tidy;
    assert Sound(site, told);
    AnsweredSound(site, told, id, outcome);
  }

  lemma MovedSound(site: Site, w: World, id: nat, phase: Phase)
    requires Sound(site, w) && id in w.requests
    requires phase.Verifying? && phase.check.Some? ==>
               SoundCheck(site, w.stores, w.requests[id].door, w.requests[id].presented, phase.check.value)
    ensures Sound(site, Moved(w, id, phase))
  {
    assert SoundRequest(site, w.stores, w.requests[id]);
    hide SoundDecision, SoundAnswer, SoundEntry, SoundCheck;
  }

  /** Another version of the store leaves every version there was. */
  lemma RewriteSound(site: Site, w: World, store: Store)
    requires Sound(site, w)
    ensures Sound(site, Step(site, w, Rewrite(store)))
  {
    var stores := w.stores + [store];
    assert Step(site, w, Rewrite(store)) == w.(stores := stores);
    hide Step;
    assert forall k :: 0 <= k < |w.stores| ==> stores[k] == w.stores[k];
    hide Justified, SoundEntry, DoorFor, Verifies, NulFree;
    forall id | id in w.requests ensures SoundRequest(site, stores, w.requests[id]) {
      assert SoundRequest(site, w.stores, w.requests[id]);
    }
    forall k | 0 <= k < |w.decisions| ensures SoundDecision(site, stores, w.decisions[k]) {
      assert SoundDecision(site, w.stores, w.decisions[k]);
    }
    forall k | 0 <= k < |w.answers| ensures SoundAnswer(site, stores, w.decisions, w.answers[k]) {
      assert SoundAnswer(site, w.stores, w.decisions, w.answers[k]);
    }
  }

  lemma TickSound(site: Site, w: World, span: nat)
    requires Sound(site, w)
    ensures Sound(site, Step(site, w, Tick(span)))
  {
    assert Step(site, w, Tick(span)) == w.(now := w.now + span);
    hide Step, SoundRequest, SoundDecision, SoundAnswer;
    forall x | x in w.entries ensures SoundEntry(w.decisions, w.now + span, x) {
      assert SoundEntry(w.decisions, w.now, x);
    }
  }

  lemma ArriveSound(site: Site, w: World, id: nat, presented: Presented)
    requires Sound(site, w)
    ensures Sound(site, Step(site, w, Arrive(id, presented)))
  {
    hide SoundDecision, SoundAnswer, SoundEntry, DoorFor;
  }

  lemma AskSound(site: Site, w: World, id: nat)
    requires Sound(site, w) && Tidy(w)
    ensures Sound(site, Step(site, w, Ask(id)))
  {
    assert w.stores != [];
    hide Sound, Tidy, Consulted;
    if In(w, id, Admitted) {
      ConsultedSound(site, w, id, Waiting);
    }
  }

  lemma SlotSound(site: Site, w: World, id: nat)
    requires Sound(site, w) && Tidy(w)
    ensures Sound(site, Step(site, w, Slot(id)))
  {
    assert w.stores != [];
    hide Sound, Tidy, Consulted, Flying;
    if In(w, id, Waiting) {
      ConsultedSound(site, w, id, Verifying(None));
    }
  }

  lemma CompareSound(site: Site, w: World, id: nat)
    requires Sound(site, w)
    ensures Sound(site, Step(site, w, Compare(id)))
  {
    assert w.stores != [];
    hide Sound, Moved, Verifies;
    if In(w, id, Verifying(None)) {
      var r := w.requests[id];
      MovedSound(site, w, id, Verifying(Some(Check(Verifies(site, Store0(w), r.door, r.presented), |w.stores| - 1, w.now))));
    }
  }

  lemma ThrottleSound(site: Site, w: World, id: nat)
    requires Sound(site, w)
    ensures Sound(site, Step(site, w, Throttle(id)))
  {
    assert w.stores != [];
    hide Sound, Answered, Moved, Braked, Mark;
    if In(w, id, Arrived) {
      AnsweredSound(site, w, id, Throttled);
      MovedSound(site, w, id, Admitted);
    }
  }

  lemma FinishSound(site: Site, w: World, id: nat, joined: bool)
    requires Sane(site) && Sound(site, w) && Tidy(w)
    ensures Sound(site, Step(site, w, Finish(id, joined)))
  {
    assert w.stores != [];
    hide Sound, Answered, Finished, Tidy;
    if id in w.requests && w.requests[id].phase.Verifying? {
      AnsweredSound(site, w, id, Wrong);
      if w.requests[id].phase.check.Some? {
        FinishedSound(site, w, id, w.requests[id].phase.check.value);
      }
    }
  }

  lemma StepSound(site: Site, w: World, e: Event)
    requires Sane(site) && Sound(site, w) && Tidy(w)
    ensures Sound(site, Step(site, w, e))
  {
    assert w.stores != [];
    hide *;
    match e
    case Tick(by_) => TickSound(site, w, by_);
    case Rewrite(store) => RewriteSound(site, w, store);
    case Arrive(id, presented) => ArriveSound(site, w, id, presented);
    case Throttle(id) => ThrottleSound(site, w, id);
    case Ask(id) => AskSound(site, w, id);
    case Slot(id) => SlotSound(site, w, id);
    case Compare(id) => CompareSound(site, w, id);
    case Finish(id, joined) => FinishSound(site, w, id, joined);
  }

  lemma {:induction false} RunSound(site: Site, events: seq<Event>)
    requires Sane(site)
    ensures Sound(site, Run(site, events))
    decreases |events|
  {
    if events != [] {
      RunSound(site, events[..|events| - 1]);
      RunBounded(site, events[..|events| - 1]);
      hide Sound, Bounded, Tidy, Step;
      StepSound(site, Run(site, events[..|events| - 1]), events[|events| - 1]);
    }
  }

  // ---- when each comparison was made ----

  function CheckOf(r: Request): Option<Check>
  {
    if r.phase.Verifying? then r.phase.check else None
  }

  /** Where a request of the next state comes from. */
  ghost predicate CameFrom(w: World, e: Event, id: nat, r: Request)
    requires w.stores != []
  {
    || (e.Arrive? && e.presented == r.presented && r.version == |w.stores| - 1 && CheckOf(r) == None)
    || (&& id in w.requests && r.presented == w.requests[id].presented && r.version == w.requests[id].version
        && (|| CheckOf(r) == None || CheckOf(r) == CheckOf(w.requests[id])
            || (e.Compare? && CheckOf(r).value.version == |w.stores| - 1 && CheckOf(r).value.at == w.now)))
  }

  /** The decision a request's check becomes, and the answer a request gets. */
  ghost predicate Decides(w: World, v: World, id: nat)
  {
    id in w.requests && CheckOf(w.requests[id]).Some?
    && v.decisions == w.decisions + [Decision(w.requests[id].door, w.requests[id].presented, CheckOf(w.requests[id]).value, w.now)]
  }

  ghost predicate Answers(w: World, v: World, id: nat)
  {
    id in w.requests && |v.answers| == |w.answers| + 1 && v.answers[..|w.answers|] == w.answers
    && v.answers[|w.answers|].presented == w.requests[id].presented && v.answers[|w.answers|].version == w.requests[id].version
  }

  /** Everything a step adds comes from what was there, or from the step itself. */
  ghost predicate Accounted(w: World, v: World, e: Event)
    requires w.stores != []
  {
    && (forall id :: id in v.requests ==> CameFrom(w, e, id, v.requests[id]))
    && (v.decisions == w.decisions || exists id :: Decides(w, v, id))
    && (v.answers == w.answers || exists id :: Answers(w, v, id))
    && w.now <= v.now && w.stores <= v.stores
  }

  lemma AnsweredAccounted(w: World, kept: World, id: nat, outcome: Outcome, e: Event)
    requires w.stores != [] && id in w.requests && kept.requests == w.requests && kept.answers == w.answers
    requires kept.now == w.now && kept.stores == w.stores
    requires kept.decisions == w.decisions || Decides(w, kept, id)
    ensures Accounted(w, Answered(kept, id, outcome), e)
  {
    var v := Answered(kept, id, outcome);
    assert Answers(w, v, id);
    assert kept.decisions == w.decisions || Decides(w, v, id);
  }

  lemma StepAccounted(site: Site, w: World, e: Event)
    requires w.stores != []
    ensures Accounted(w, Step(site, w, e), e)
  {
    hide Retained, Remembered, LookedUp, Fingerprint, Braked, DoorFor, Verifies, Answered, Accounted;
    match e
    case Throttle(id) =>
      if In(w, id, Arrived) {
        AnsweredAccounted(w, w, id, Throttled, e);
        MovedAccounted(w, w, id, Admitted, e);
      } else {
        SameAccounted(w, e);
      }
    case Ask(id) => if In(w, id, Admitted) { ConsultedAccounted(w, id, Waiting, e); } else { SameAccounted(w, e); }
    case Slot(id) =>
      SameAccounted(w, e);
      if In(w, id, Waiting) { ConsultedAccounted(w, id, Verifying(None), e); }
    case Compare(id) =>
      SameAccounted(w, e);
      if In(w, id, Verifying(None)) {
        var r := w.requests[id];
        MovedAccounted(w, w, id, Verifying(Some(Check(Verifies(site, Store0(w), r.door, r.presented), |w.stores| - 1, w.now))), e);
      }
    case Finish(id, joined) =>
      SameAccounted(w, e);
      if id in w.requests && w.requests[id].phase.Verifying? {
        AnsweredAccounted(w, w, id, Wrong, e);
        if w.requests[id].phase.check.Some? {
          FinishedAccounted(w, id, w.requests[id].phase.check.value, e);
        }
      }
    case _ => QuietAccounted(site, w, e);
  }

  lemma SameAccounted(w: World, e: Event)
    requires w.stores != []
    ensures Accounted(w, w, e)
  {
  }

  lemma QuietAccounted(site: Site, w: World, e: Event)
    requires w.stores != [] && (e.Tick? || e.Rewrite? || e.Arrive?)
    ensures Accounted(w, Step(site, w, e), e)
  {
    hide DoorFor;
  }

  lemma MovedAccounted(w: World, kept: World, id: nat, phase: Phase, e: Event)
    requires w.stores != [] && id in w.requests && kept == w.(entries := kept.entries)
    requires phase.Verifying? && phase.check.Some? ==>
               e.Compare? && phase.check.value.version == |w.stores| - 1 && phase.check.value.at == w.now
    ensures Accounted(w, Moved(kept, id, phase), e)
  {
  }

  lemma ConsultedAccounted(w: World, id: nat, next: Phase, e: Event)
    requires w.stores != [] && id in w.requests && (next == Waiting || next == Verifying(None))
    ensures Accounted(w, Consulted(w, id, next), e)
  {
    var r, kept := w.requests[id], w.(entries := Retained(w.entries, w.now));
    hide LookedUp, Retained, Fingerprint, Accounted, Answered, Moved;
    AnsweredAccounted(w, kept, id, LetIn(Authenticated(r.door)), e);
    AnsweredAccounted(w, kept, id, Wrong, e);
    MovedAccounted(w, kept, id, next, e);
  }

  lemma FinishedAccounted(w: World, id: nat, check: Check, e: Event)
    requires w.stores != [] && id in w.requests && w.requests[id].phase == Verifying(Some(check))
    ensures Accounted(w, Finished(w, id, check), e)
  {
    var r := w.requests[id];
    var told := w.(entries := Remembered(w.entries, w.now, Mark(r), check.verified), ran := Finished(w, id, check).ran,
                   decisions := w.decisions + [Decision(r.door, r.presented, check, w.now)]);
    var outcome := if check.verified then LetIn(Authenticated(r.door)) else Wrong;
    assert Finished(w, id, check) == Answered(told, id, outcome);
    hide Finished, LookedUp, Remembered, Fingerprint, Accounted, Answered;
    AnsweredAccounted(w, told, id, outcome, e);
  }

  /** Event `n` was a comparison, when the file was at this version and it was this late. */
  ghost predicate Moment(site: Site, events: seq<Event>, n: nat, check: Check)
  {
    n < |events| && events[n].Compare?
    && |Run(site, events[..n]).stores| == check.version + 1 && Run(site, events[..n]).now == check.at
  }

  /** Event `n` brought this credential, while the file was at this version. */
  ghost predicate Brought(site: Site, events: seq<Event>, n: nat, c: Presented, version: nat)
  {
    n < |events| && events[n].Arrive? && events[n].presented == c && |Run(site, events[..n]).stores| == version + 1
  }

  ghost predicate Made(site: Site, events: seq<Event>, check: Check)
  {
    exists n: nat :: Moment(site, events, n, check)
  }

  ghost predicate Came(site: Site, events: seq<Event>, c: Presented, version: nat)
  {
    exists n: nat :: Brought(site, events, n, c, version)
  }

  ghost predicate DatedRequest(site: Site, events: seq<Event>, now: nat, r: Request)
  {
    Came(site, events, r.presented, r.version)
    && (CheckOf(r).Some? ==> Made(site, events, CheckOf(r).value) && CheckOf(r).value.at <= now)
  }

  ghost predicate DatedDecision(site: Site, events: seq<Event>, d: Decision)
  {
    Made(site, events, d.check) && d.check.at <= d.decidedAt
  }

  ghost predicate Dated(site: Site, events: seq<Event>, w: World)
  {
    && (forall id :: id in w.requests ==> DatedRequest(site, events, w.now, w.requests[id]))
    && (forall k :: 0 <= k < |w.decisions| ==> DatedDecision(site, events, w.decisions[k]))
    && (forall k :: 0 <= k < |w.answers| ==> Came(site, events, w.answers[k].presented, w.answers[k].version))
  }

  lemma Later(site: Site, events: seq<Event>, e: Event)
    ensures forall check :: Made(site, events, check) ==> Made(site, events + [e], check)
    ensures forall c, version :: Came(site, events, c, version) ==> Came(site, events + [e], c, version)
  {
    var more := events + [e];
    hide Run;
    forall check | Made(site, events, check) ensures Made(site, more, check) {
      var n: nat :| Moment(site, events, n, check);
      assert more[..n] == events[..n] && more[n] == events[n];
      assert Moment(site, more, n, check);
    }
    forall c, version | Came(site, events, c, version) ensures Came(site, more, c, version) {
      var n: nat :| Brought(site, events, n, c, version);
      assert more[..n] == events[..n] && more[n] == events[n];
      assert Brought(site, more, n, c, version);
    }
  }

  /** Nothing that was dated before the step loses its date. */
  ghost predicate Keeps(site: Site, events: seq<Event>, more: seq<Event>, w: World, e: Event)
    requires w.stores != []
  {
    && (forall check :: Made(site, events, check) ==> Made(site, more, check))
    && (forall c, version :: Came(site, events, c, version) ==> Came(site, more, c, version))
    && (e.Compare? ==> forall check: Check | check.version == |w.stores| - 1 && check.at == w.now :: Made(site, more, check))
    && (e.Arrive? ==> Came(site, more, e.presented, |w.stores| - 1))
  }

  lemma RequestDated(site: Site, events: seq<Event>, more: seq<Event>, w: World, v: World, e: Event, id: nat, r: Request)
    requires w.stores != [] && Keeps(site, events, more, w, e) && CameFrom(w, e, id, r) && w.now <= v.now
    requires id in w.requests ==> DatedRequest(site, events, w.now, w.requests[id])
    ensures DatedRequest(site, more, v.now, r)
  {
    hide Made, Came;
  }

  lemma StepDated(site: Site, events: seq<Event>, more: seq<Event>, w: World, v: World, e: Event)
    requires w.stores != [] && Accounted(w, v, e) && Keeps(site, events, more, w, e) && Dated(site, events, w)
    ensures Dated(site, more, v)
  {
    hide Made, Came;
    forall id | id in v.requests ensures DatedRequest(site, more, v.now, v.requests[id]) {
      RequestDated(site, events, more, w, v, e, id, v.requests[id]);
    }
    DecisionsDated(site, events, more, w, v, e);
    AnswersDated(site, events, more, w, v, e);
  }

  lemma DecisionsDated(site: Site, events: seq<Event>, more: seq<Event>, w: World, v: World, e: Event)
    requires w.stores != [] && Accounted(w, v, e) && Keeps(site, events, more, w, e) && Dated(site, events, w)
    ensures forall k :: 0 <= k < |v.decisions| ==> DatedDecision(site, more, v.decisions[k])
  {
    hide Made, Came;
    forall k | 0 <= k < |v.decisions| ensures DatedDecision(site, more, v.decisions[k]) {
      if k < |w.decisions| {
        assert v.decisions[k] == w.decisions[k] && DatedDecision(site, events, w.decisions[k]);
      } else {
        var id :| Decides(w, v, id);
        assert DatedRequest(site, events, w.now, w.requests[id]);
      }
    }
  }

  lemma AnswersDated(site: Site, events: seq<Event>, more: seq<Event>, w: World, v: World, e: Event)
    requires w.stores != [] && Accounted(w, v, e) && Keeps(site, events, more, w, e) && Dated(site, events, w)
    ensures forall k :: 0 <= k < |v.answers| ==> Came(site, more, v.answers[k].presented, v.answers[k].version)
  {
    hide Made, Came;
    forall k | 0 <= k < |v.answers| ensures Came(site, more, v.answers[k].presented, v.answers[k].version) {
      if k < |w.answers| {
        assert v.answers[k] == w.answers[k];
      } else {
        var id :| Answers(w, v, id);
        assert DatedRequest(site, events, w.now, w.requests[id]);
      }
    }
  }

  /** What is compared, and what arrives, in the step after these events. */
  lemma NowMade(site: Site, events: seq<Event>, e: Event)
    ensures var w := Run(site, events);
            && (e.Compare? ==>
                  forall check: Check | check.version == |w.stores| - 1 && check.at == w.now :: Made(site, events + [e], check))
            && (e.Arrive? ==> Came(site, events + [e], e.presented, |w.stores| - 1))
  {
    hide *;
    var w := Run(site, events);
    if e.Compare? {
      forall check: Check | check.version == |w.stores| - 1 && check.at == w.now ensures Made(site, events + [e], check) {
        MadeNow(site, events, e, check);
      }
    }
    if e.Arrive? {
      CameNow(site, events, e);
    }
  }

  lemma MadeNow(site: Site, events: seq<Event>, e: Event, check: Check)
    requires e.Compare? && check.version == |Run(site, events).stores| - 1 && check.at == Run(site, events).now
    ensures Made(site, events + [e], check)
  {
    hide Run;
    assert (events + [e])[..|events|] == events;
    assert Moment(site, events + [e], |events|, check);
  }

  lemma CameNow(site: Site, events: seq<Event>, e: Event)
    requires e.Arrive?
    ensures Came(site, events + [e], e.presented, |Run(site, events).stores| - 1)
  {
    hide Run;
    assert (events + [e])[..|events|] == events;
    assert Brought(site, events + [e], |events|, e.presented, |Run(site, events).stores| - 1);
  }

  lemma {:induction false} RunDated(site: Site, events: seq<Event>)
    ensures Dated(site, events, Run(site, events))
    decreases |events|
  {
    if events != [] {
      var front, last := events[..|events| - 1], events[|events| - 1];
      assert events == front + [last];
      RunDated(site, front);
      RunThen(site, front, last);
      hide Run, Dated, Step, Accounted;
      StepAccounted(site, Run(site, front), last);
      Later(site, front, last);
      NowMade(site, front, last);
      hide Made, Came;
      StepDated(site, front, events, Run(site, front), Run(site, events), last);
    }
  }

  /** Versions of the file are never taken back, nor is the clock. */
  lemma {:induction false} Onward(site: Site, events: seq<Event>, n: nat)
    requires n <= |events|
    ensures Run(site, events[..n]).stores <= Run(site, events).stores && Run(site, events[..n]).now <= Run(site, events).now
    decreases |events|
  {
    if n == |events| {
      assert events[..n] == events;
    } else {
      var front, last := events[..|events| - 1], events[|events| - 1];
      assert front[..n] == events[..n] && events == front + [last];
      Onward(site, front, n);
      RunThen(site, front, last);
      StepAccounted(site, Run(site, front), last);
      hide Run, Step, Accounted;
      assert Accounted(Run(site, front), Run(site, events), last);
      OnwardOne(Run(site, front), Run(site, events), last);
    }
  }

  lemma OnwardOne(w: World, v: World, e: Event)
    requires w.stores != [] && Accounted(w, v, e)
    ensures w.now <= v.now && w.stores <= v.stores
  {
  }

  // ---- what a caller who was let in had shown ----

  function Text(c: Presented): string
  {
    c.user + ([NUL] + c.password)
  }

  /** Between the comparison and the answer: at the moment `n` of the run the file, as
      it then stood, verified a credential of the same text at the same door; that was
      remembered, and the memory was less than a TTL old. The answer lags the file by
      less than a TTL and the time the verification took. */
  ghost predicate Backs(site: Site, events: seq<Event>, d: Decision, n: nat, a: Answer)
  {
    && Moment(site, events, n, d.check) && Verifies(site, Store0(Run(site, events[..n])), d.door, d.presented)
    && d.door == a.door && Text(d.presented) == Text(a.presented)
    && d.check.at <= d.decidedAt <= a.at < d.decidedAt + 60_000_000_000
  }

  /** The decision behind a caller let in. */
  lemma Supporting(site: Site, w: World, a: Answer) returns (d: Decision)
    requires Sound(site, w) && a in w.answers && a.outcome.LetIn?
    ensures d in w.decisions && Supports(d, a) && SoundDecision(site, w.stores, d) && SoundAnswer(site, w.stores, w.decisions, a)
  {
    assert SoundAnswer(site, w.stores, w.decisions, a);
    var j :| 0 <= j < |w.decisions| && Supports(w.decisions[j], a);
    d := w.decisions[j];
    assert SoundDecision(site, w.stores, d);
    hide *;
  }

  lemma SameText(site: Site, w: World, d: Decision, a: Answer)
    requires Sane(site) && a.outcome.LetIn?
    requires Supports(d, a) && SoundDecision(site, w.stores, d) && SoundAnswer(site, w.stores, w.decisions, a)
    ensures d.door == a.door && Text(d.presented) == Text(a.presented) && a.outcome.caller == Authenticated(d.door)
    ensures d.door.Person? ==> d.presented == a.presented && d.door.name == d.presented.user
    ensures d.check.version < |w.stores| && Verifies(site, w.stores[d.check.version], d.door, d.presented)
  {
    hide Fingerprint, Verifies, Justified;
    FingerprintExactly(d.door, d.presented, a.door, a.presented);
  }

  lemma MomentOf(site: Site, events: seq<Event>, d: Decision) returns (n: nat)
    requires Dated(site, events, Run(site, events)) && d in Run(site, events).decisions
    ensures Moment(site, events, n, d.check) && d.check.at <= d.decidedAt
  {
    hide Run;
    assert DatedDecision(site, events, d);
    hide Moment;
    n :| Moment(site, events, n, d.check);
    hide *;
  }

  lemma MomentStore(site: Site, events: seq<Event>, n: nat, check: Check)
    requires Moment(site, events, n, check) && check.version < |Run(site, events).stores|
    ensures Run(site, events[..n]).stores != [] && Store0(Run(site, events[..n])) == Run(site, events).stores[check.version]
  {
    assert n < |events| && |Run(site, events[..n]).stores| == check.version + 1 by { hide Run; }
    hide *;
    Onward(site, events, n);
    LastOf(Run(site, events[..n]), Run(site, events).stores, check.version);
  }

  lemma LastOf(early: World, late: seq<Store>, version: nat)
    requires early.stores <= late && |early.stores| == version + 1
    ensures Store0(early) == late[version]
  {
  }

  lemma Backing(site: Site, events: seq<Event>, k: nat) returns (d: Decision, n: nat)
    requires Sane(site) && k < |Run(site, events).answers| && Run(site, events).answers[k].outcome.LetIn?
    ensures d in Run(site, events).decisions && Backs(site, events, d, n, Run(site, events).answers[k])
    ensures d.door.Person? ==> d.presented == Run(site, events).answers[k].presented
    ensures Run(site, events).answers[k].outcome.caller == Authenticated(d.door)
    ensures d.door.Person? ==> d.door.name == d.presented.user
  {
    hide Run, Sound, Dated, Fingerprint, Verifies, DoorFor, SoundAnswer, SoundDecision, Moment, Authenticated;
    RunSound(site, events);
    RunDated(site, events);
    var w := Run(site, events);
    var a := w.answers[k];
    d := Supporting(site, w, a);
    SameText(site, w, d, a);
    n := MomentOf(site, events, d);
    MomentStore(site, events, n, d.check);
  }

  /** Where an answer's request came from: the event that brought it, and the file then. */
  lemma Origin(site: Site, events: seq<Event>, k: nat) returns (n: nat)
    requires Sane(site) && k < |Run(site, events).answers|
    ensures var a := Run(site, events).answers[k];
            n < |events| && events[n].Arrive? && events[n].presented == a.presented
            && a.door == DoorFor(site, Store0(Run(site, events[..n])), a.presented.user)
    ensures Run(site, events).answers[k].outcome.LetIn? ==>
              Run(site, events).answers[k].outcome.caller == Authenticated(Run(site, events).answers[k].door)
  {
    RunSound(site, events);
    RunDated(site, events);
    hide Run, DoorFor, Authenticated;
    var w := Run(site, events);
    var a := w.answers[k];
    assert SoundAnswer(site, w.stores, w.decisions, a) && Came(site, events, a.presented, a.version);
    hide Sound, Dated, Justified;
    n :| Brought(site, events, n, a.presented, a.version);
    Onward(site, events, n);
    LastOf(Run(site, events[..n]), w.stores, a.version);
  }

  /** The cache agrees with the file, up to the TTL and the time a verification takes.
      Over every run, a person let in held a device password when the request arrived,
      and at some moment of the run the file, as it then stood, held for that person a
      hash this very password matches; the decision made on it was less than a TTL old. */
  lemma PersonIsVerified(site: Site, events: seq<Event>, k: nat, name: string)
    returns (arrived: nat, d: Decision, compared: nat)
    requires Sane(site) && k < |Run(site, events).answers|
    requires Run(site, events).answers[k].outcome == LetIn(PersonCaller(name))
    ensures var a := Run(site, events).answers[k];
            && arrived < |events| && events[arrived].Arrive? && events[arrived].presented == a.presented
            && name in Store0(Run(site, events[..arrived])) && a.presented.user == name
            && d in Run(site, events).decisions && Backs(site, events, d, compared, a) && d.presented == a.presented
            && name in Store0(Run(site, events[..compared]))
            && site.matches(Store0(Run(site, events[..compared]))[name], a.presented.password)
  {
    arrived := Origin(site, events, k);
    d, compared := Backing(site, events, k);
    hide Run;
  }

  /** A request that arrives while a person holds no device password is never
      answered as that person: so none between a `clear` and the next `set` is. */
  lemma ClearedIsOut(site: Site, events: seq<Event>, k: nat, name: string) returns (arrived: nat)
    requires Sane(site) && k < |Run(site, events).answers|
    ensures var a := Run(site, events).answers[k];
            && arrived < |events| && events[arrived].Arrive? && events[arrived].presented == a.presented
            && (name !in Store0(Run(site, events[..arrived])) ==> a.outcome != LetIn(PersonCaller(name)))
  {
    arrived := Origin(site, events, k);
    hide Run;
  }

  lemma NulAt(a: string, b: string, i: nat)
    requires NUL !in a && NUL !in b && i < |a| + 1 + |b|
    ensures (a + ([NUL] + b))[i] == NUL <==> i == |a|
  {
    if i > |a| {
      assert (a + ([NUL] + b))[i] == b[i - |a| - 1];
    }
  }

  /** A text with one separator is the text of one credential. */
  lemma OneNul(a: string, b: string, c: string, d: string)
    requires a + ([NUL] + b) == c + ([NUL] + d) && NUL !in a && NUL !in b
    ensures a == c && b == d
  {
    var left, right := a + ([NUL] + b), c + ([NUL] + d);
    assert right[|c|] == NUL;
    NulAt(a, b, |c|);
    assert left[..|a|] == a && right[..|a|] == c && left[|a| + 1..] == b && right[|a| + 1..] == d;
  }

  /** Whoever is let in as the owner rests on a decision, less than a TTL old, about a
      credential of the same text whose password matches the console's: the same
      credential if neither half of it contains the separator. */
  lemma OwnerIsConsole(site: Site, events: seq<Event>, k: nat) returns (d: Decision, compared: nat)
    requires Sane(site) && k < |Run(site, events).answers|
    requires Run(site, events).answers[k].outcome == LetIn(Owner)
    ensures var a := Run(site, events).answers[k];
            && d in Run(site, events).decisions
            && Backs(site, events, d, compared, a) && d.door == Deployment && site.matches(site.console, d.presented.password)
            && (NUL !in a.presented.user && NUL !in a.presented.password ==>
                  d.presented == a.presented && site.matches(site.console, a.presented.password))
  {
    d, compared := Backing(site, events, k);
    var a := Run(site, events).answers[k];
    hide Run;
    if NUL !in a.presented.user && NUL !in a.presented.password {
      OneNul(a.presented.user, a.presented.password, d.presented.user, d.presented.password);
    }
  }

  // ---- what each request is answered ----

  /** The file as it stood before event `n`. */
  ghost function FileAt(site: Site, events: seq<Event>, n: nat): Store
    requires n <= |events|
  {
    Store0(Run(site, events[..n]))
  }

  /** Where the two halves of a request in hand come from: the file when it arrived, by
      which its door was chosen, and the file when it was compared. */
  lemma InHand(site: Site, events: seq<Event>, id: nat) returns (arrived: nat, compared: nat)
    requires Sane(site) && id in Run(site, events).requests && CheckOf(Run(site, events).requests[id]).Some?
    ensures var r := Run(site, events).requests[id];
            && arrived < |events| && events[arrived].Arrive? && events[arrived].presented == r.presented
            && compared < |events| && events[compared].Compare?
            && r.door == DoorFor(site, FileAt(site, events, arrived), r.presented.user)
            && CheckOf(r).value.verified == Verifies(site, FileAt(site, events, compared), r.door, r.presented)
  {
    RunSound(site, events);
    RunDated(site, events);
    hide Run, DoorFor, Verifies;
    var w := Run(site, events);
    var r := w.requests[id];
    assert SoundRequest(site, w.stores, r) && DatedRequest(site, events, w.now, r);
    hide Sound, Dated, Moment;
    arrived :| Brought(site, events, arrived, r.presented, r.version);
    compared :| Moment(site, events, compared, CheckOf(r).value);
    Onward(site, events, arrived);
    LastOf(Run(site, events[..arrived]), w.stores, r.version);
    MomentStore(site, events, compared, CheckOf(r).value);
    assert compared < |events| && events[compared].Compare? by { MomentCompares(site, events, compared, CheckOf(r).value); }
  }

  lemma MomentCompares(site: Site, events: seq<Event>, n: nat, check: Check)
    requires Moment(site, events, n, check)
    ensures n < |events| && events[n].Compare?
  {
    hide Run;
  }

  /** A verification that finishes answers its request: let in exactly if the hash it was
      compared with matches the password. With no entry for the name when the request
      arrived that is the console's, and the caller is the owner; with one it is the
      person's own, in the file as it stood at the comparison, and the caller is that
      person. */
  lemma FinishAnswers(site: Site, events: seq<Event>, id: nat) returns (arrived: nat, compared: nat)
    requires Sane(site)
    requires id in Run(site, events).requests && Run(site, events).requests[id].phase.Verifying?
    requires Run(site, events).requests[id].phase.check.Some?
    ensures var w, v := Run(site, events), Run(site, events + [Finish(id, true)]);
            var c := w.requests[id].presented;
            && arrived < |events| && events[arrived].Arrive? && events[arrived].presented == c
            && compared < |events| && events[compared].Compare?
            && |v.answers| == |w.answers| + 1 && v.answers[..|w.answers|] == w.answers && v.requests == w.requests - {id}
            && var a := v.answers[|w.answers|];
               a.presented == c && a.at == w.now
               && if site.isName(c.user) && c.user in FileAt(site, events, arrived) then
                    var file := FileAt(site, events, compared);
                    if c.user in file && site.matches(file[c.user], c.password) then a.outcome == LetIn(PersonCaller(c.user))
                    else a.outcome == Wrong
                  else if site.matches(site.console, c.password) then a.outcome == LetIn(Owner)
                  else a.outcome == Wrong
  {
    arrived, compared := InHand(site, events, id);
    RunThen(site, events, Finish(id, true));
    hide Run, FileAt, Remembered, LookedUp, Fingerprint;
  }

  /** A verification whose task was lost answers wrong, and teaches the cache nothing. */
  lemma LostAnswers(site: Site, events: seq<Event>, id: nat)
    requires id in Run(site, events).requests && Run(site, events).requests[id].phase.Verifying?
    ensures var w, v := Run(site, events), Run(site, events + [Finish(id, false)]);
            && |v.answers| == |w.answers| + 1 && v.answers[..|w.answers|] == w.answers && v.answers[|w.answers|].outcome == Wrong
            && v == w.(answers := v.answers, requests := w.requests - {id})
  {
    RunThen(site, events, Finish(id, false));
    hide Run;
  }

  /** The request looks the credential up: when it is admitted, and again with a slot in hand. */
  ghost predicate LooksUp(site: Site, w: World, id: nat, look: Event)
  {
    || (look == Ask(id) && In(w, id, Admitted))
    || (look == Slot(id) && In(w, id, Waiting) && |Flying(w)| < site.slots)
  }

  /** A look-up answers from the entry that stands about the credential, if there is one:
      let in as its door says if the entry says yes, wrong if it says no. */
  lemma CacheAnswers(site: Site, events: seq<Event>, id: nat, look: Event, e: Entry)
    requires LooksUp(site, Run(site, events), id, look)
    requires var w := Run(site, events); e in w.entries && Stands(e, w.now) && e.mark == Mark(w.requests[id])
    ensures var w, v := Run(site, events), Run(site, events + [look]);
            var r := w.requests[id];
            && v.requests == w.requests - {id}
            && |v.answers| == |w.answers| + 1 && v.answers[..|w.answers|] == w.answers
            && var a := v.answers[|w.answers|];
               && a.presented == r.presented && a.at == w.now
               && a.outcome == if !e.verified then Wrong
                               else if r.door.Person? then LetIn(PersonCaller(r.door.name)) else LetIn(Owner)
  {
    RunThen(site, events, look);
    RunBounded(site, events);
    hide Run, Mark, Flying;
    LookUpExactly(Run(site, events).entries, Run(site, events).now, Mark(Run(site, events).requests[id]), e);
    hide LookedUp, Retained, Stands;
  }

  /** With nothing that stands about it the request goes on, to wait for a slot or to be
      verified, and nobody is answered. */
  lemma CacheIsSilent(site: Site, events: seq<Event>, id: nat, look: Event)
    requires LooksUp(site, Run(site, events), id, look)
    requires var w := Run(site, events); forall e :: e in w.entries && e.mark == Mark(w.requests[id]) ==> !Stands(e, w.now)
    ensures var w, v := Run(site, events), Run(site, events + [look]);
            && v.requests == w.requests[id := w.requests[id].(phase := if look.Ask? then Waiting else Verifying(None))]
            && v.answers == w.answers
  {
    RunThen(site, events, look);
    hide Run, Mark, Flying;
    LookUpMisses(Run(site, events).entries, Run(site, events).now, Mark(Run(site, events).requests[id]));
    hide LookedUp, Retained, Stands;
  }

  /** A request is throttled exactly if its credential has failed ten times in a window
      that opened within the last minute. */
  lemma ThrottleExactly(site: Site, events: seq<Event>, id: nat)
    requires In(Run(site, events), id, Arrived)
    ensures var w, v := Run(site, events), Run(site, events + [Throttle(id)]);
            var r := w.requests[id];
            if exists e :: e in w.entries && e.mark == Mark(r) && Spent(e, w.now) then
              v == w.(requests := w.requests - {id},
                      answers := w.answers + [Answer(r.door, r.presented, r.version, Throttled, w.now)])
            else v == w.(requests := w.requests[id := r.(phase := Admitted)])
  {
    RunThen(site, events, Throttle(id));
    RunBounded(site, events);
    hide Run, Mark;
    BrakedExactly(Run(site, events).entries, Run(site, events).now, Mark(Run(site, events).requests[id]));
    hide Braked, Spent;
  }

  /** What is counted: a finished verification starts a fingerprint's count when nothing
      stands about it and adds one to it otherwise; no other event counts anything. */
  lemma CountsExactly(site: Site, w: World, e: Event)
    requires w.stores != []
    ensures var v := Step(site, w, e);
            if e.Finish? && e.joined && e.id in w.requests && CheckOf(w.requests[e.id]).Some? then
              var mark := Mark(w.requests[e.id]);
              v.ran == w.ran[mark := if !Present(w.entries, w.now, mark) then 1 else Count(w.ran, mark) + 1]
            else v.ran == w.ran
  {
    hide Retained, Remembered, Braked, DoorFor, Verifies, Present, Mark;
    if e.Finish? && e.id in w.requests {
      LookUpKnows(w.entries, w.now, Mark(w.requests[e.id]));
    }
    hide LookedUp;
  }

  ghost predicate OwnerAt(site: Site, events: seq<Event>, k: nat, c: Presented)
  {
    k < |Run(site, events).answers| && Run(site, events).answers[k].presented == c
    && Run(site, events).answers[k].outcome == LetIn(Owner)
  }

  /** Some run lets this credential in as the owner. */
  ghost predicate OwnerSometime(site: Site, c: Presented)
  {
    exists events, k: nat :: OwnerAt(site, events, k, c)
  }

  ghost predicate PersonAt(site: Site, events: seq<Event>, k: nat, c: Presented)
  {
    k < |Run(site, events).answers| && Run(site, events).answers[k].presented == c
    && Run(site, events).answers[k].outcome == LetIn(PersonCaller(c.user))
  }

  /** Some run lets this credential in as the person it names. */
  ghost predicate PersonSometime(site: Site, c: Presented)
  {
    exists events, k: nat :: PersonAt(site, events, k, c)
  }

  /** A request of a person who holds a device password, alone on a fresh machine. */
  ghost function PersonIn(c: Presented, hash: string, phase: Phase): World
  {
    START.(stores := [map[], map[c.user := hash]], requests := map[0 := Request(Person(c.user), c, 1, phase)])
  }

  lemma PersonMoves(c: Presented, hash: string, phase: Phase, next: Phase)
    ensures Moved(PersonIn(c, hash, phase), 0, next) == PersonIn(c, hash, next)
  {
    var w := PersonIn(c, hash, phase);
    assert w.requests[0 := w.requests[0].(phase := next)] == PersonIn(c, hash, next).requests;
  }

  lemma PersonArrives(site: Site, c: Presented, hash: string)
    requires site.isName(c.user)
    ensures Step(site, Step(site, START, Rewrite(map[c.user := hash])), Arrive(0, c)) == PersonIn(c, hash, Arrived)
    ensures Step(site, PersonIn(c, hash, Arrived), Throttle(0)) == PersonIn(c, hash, Admitted)
  {
    hide Fingerprint, Moved;
    PersonMoves(c, hash, Arrived, Admitted);
    assert START.stores + [map[c.user := hash]] == [map[], map[c.user := hash]];
  }

  lemma PersonClimbs(site: Site, c: Presented, hash: string)
    requires site.slots >= 1
    ensures Step(site, PersonIn(c, hash, Admitted), Ask(0)) == PersonIn(c, hash, Waiting)
    ensures Step(site, PersonIn(c, hash, Waiting), Slot(0)) == PersonIn(c, hash, Verifying(None))
    ensures Step(site, PersonIn(c, hash, Verifying(None)), Compare(0))
         == PersonIn(c, hash, Verifying(Some(Check(site.matches(hash, c.password), 1, 0))))
  {
    hide Fingerprint, Moved;
    PersonMoves(c, hash, Admitted, Waiting);
    PersonMoves(c, hash, Waiting, Verifying(None));
    PersonMoves(c, hash, Verifying(None), Verifying(Some(Check(site.matches(hash, c.password), 1, 0))));
    assert Flying(PersonIn(c, hash, Waiting)) == {};
    var asked, waiting := PersonIn(c, hash, Admitted), PersonIn(c, hash, Waiting);
    assert asked.(entries := Retained(asked.entries, asked.now)) == asked;
    assert waiting.(entries := Retained(waiting.entries, waiting.now)) == waiting;
  }

  lemma PersonLands(site: Site, c: Presented, hash: string)
    ensures var v := Step(site, PersonIn(c, hash, Verifying(Some(Check(true, 1, 0)))), Finish(0, true));
            |v.answers| == 1 && v.answers[0].presented == c && v.answers[0].outcome == LetIn(PersonCaller(c.user))
  {
    hide Remembered, LookedUp, Fingerprint;
  }

  lemma PersonUp(site: Site, c: Presented, hash: string) returns (events: seq<Event>)
    requires site.slots >= 1 && site.isName(c.user)
    ensures Run(site, events) == PersonIn(c, hash, Verifying(Some(Check(site.matches(hash, c.password), 1, 0))))
  {
    var start: seq<Event> := [];
    assert Run(site, start) == START;
    hide *;
    ThreeSteps(site, start, Rewrite(map[c.user := hash]), Arrive(0, c), Throttle(0));
    PersonArrives(site, c, hash);
    events := start + [Rewrite(map[c.user := hash])] + [Arrive(0, c)] + [Throttle(0)];
    ThreeSteps(site, events, Ask(0), Slot(0), Compare(0));
    PersonClimbs(site, c, hash);
    events := events + [Ask(0)] + [Slot(0)] + [Compare(0)];
  }

  /** A person whose device password matches is let in as that person. */
  lemma PersonOpens(site: Site, c: Presented, hash: string)
    requires site.slots >= 1 && site.isName(c.user) && site.matches(hash, c.password)
    ensures PersonSometime(site, c)
  {
    var up := PersonUp(site, c, hash);
    RunThen(site, up, Finish(0, true));
    PersonLands(site, c, hash);
    hide Run, Step, PersonIn;
    assert PersonAt(site, up + [Finish(0, true)], 0, c);
  }

  /** Exactly which credentials are ever let in as the person they name: with a slot to
      verify in, those whose user is a name and whose password some hash matches. */
  lemma PersonExactly(site: Site, c: Presented)
    requires Sane(site)
    ensures PersonSometime(site, c) <==> site.slots >= 1 && site.isName(c.user) && exists hash :: site.matches(hash, c.password)
  {
    if PersonSometime(site, c) {
      var events, k: nat :| PersonAt(site, events, k, c);
      var arrived, d, compared := PersonIsVerified(site, events, k, c.user);
      var origin := Origin(site, events, k);
      NeedsASlot(site, events);
      hide Run;
    }
    if site.slots >= 1 && site.isName(c.user) {
      hide PersonSometime;
      forall hash | site.matches(hash, c.password) ensures PersonSometime(site, c) {
        PersonOpens(site, c, hash);
      }
    }
  }

  ghost predicate Opens(site: Site, c: Presented, d: Presented)
  {
    Text(d) == Text(c) && site.matches(site.console, d.password)
  }

  /** The second half of the run: a live decision about the same text answers `c`. */
  lemma AnsweredFromCache(site: Site, events: seq<Event>, c: Presented, mark: string)
    requires Run(site, events).stores == [map[]] && Run(site, events).now == 0 && Run(site, events).requests == map[]
    requires Run(site, events).entries == [Fresh(mark, 0, true)] && mark == Fingerprint(Deployment, c)
    ensures exists k: nat :: OwnerAt(site, events + [Arrive(1, c)] + [Throttle(1)] + [Ask(1)], k, c)
  {
    hide *;
    ThreeSteps(site, events, Arrive(1, c), Throttle(1), Ask(1));
    AdmittedNext(site, Run(site, events), c, mark);
    OwnerNext(site, events + [Arrive(1, c)] + [Throttle(1)] + [Ask(1)], Run(site, events), c, mark);
  }

  lemma ThreeSteps(site: Site, events: seq<Event>, e1: Event, e2: Event, e3: Event)
    ensures Run(site, events + [e1] + [e2] + [e3]) == Step(site, Step(site, Step(site, Run(site, events), e1), e2), e3)
  {
    RunThen(site, events, e1);
    RunThen(site, events + [e1], e2);
    RunThen(site, events + [e1] + [e2], e3);
    hide *;
  }

  lemma OwnerNext(site: Site, events: seq<Event>, w: World, c: Presented, mark: string)
    requires w.stores == [map[]] && w.now == 0 && w.requests == map[]
    requires w.entries == [Fresh(mark, 0, true)] && mark == Fingerprint(Deployment, c)
    requires Run(site, events) == Step(site, With(w, c, 1, Admitted), Ask(1))
    ensures exists k: nat :: OwnerAt(site, events, k, c)
  {
    hide Run, Fingerprint, Fresh;
    var w2 := With(w, c, 1, Admitted);
    CacheSays(w2, c, mark);
    assert Step(site, w2, Ask(1)) == Consulted(w2, 1, Waiting);
    hide Step, Consulted, With;
    assert OwnerAt(site, events, |w2.answers|, c);
  }

  lemma AdmittedNext(site: Site, w: World, c: Presented, mark: string)
    requires w.stores == [map[]] && w.now == 0 && w.requests == map[]
    requires w.entries == [Fresh(mark, 0, true)] && mark == Fingerprint(Deployment, c)
    ensures Step(site, w, Arrive(1, c)) == With(w, c, 1, Arrived)
    ensures Step(site, With(w, c, 1, Arrived), Throttle(1)) == With(w, c, 1, Admitted)
  {
    hide Fingerprint, Moved;
    FindFirst(w.entries, mark, 0);
    MovedWith(w, c, 1, Arrived, Admitted);
  }

  lemma CacheSays(w: World, c: Presented, mark: string)
    requires 1 in w.requests && w.requests[1] == Request(Deployment, c, 0, Admitted)
    requires w.now == 0 && w.entries == [Fresh(mark, 0, true)] && mark == Fingerprint(Deployment, c)
    ensures var v := Consulted(w, 1, Waiting);
            |v.answers| == |w.answers| + 1 && v.answers[|w.answers|].presented == c && v.answers[|w.answers|].outcome == LetIn(Owner)
  {
    var held := w.entries;
    assert held[..0] == [] && Live(held[0], 0) && Retained(held, 0) == held;
    FindFirst(held, mark, 0);
    hide Fingerprint;
  }

  /** The first half: a credential that matches the console's password is verified and
      remembered. */
  lemma VerifiedOnce(site: Site, d: Presented) returns (events: seq<Event>)
    requires site.slots >= 1 && site.matches(site.console, d.password)
    ensures var w := Run(site, events);
            w.stores == [map[]] && w.now == 0 && w.requests == map[] && w.entries == [Fresh(Fingerprint(Deployment, d), 0, true)]
  {
    var e0: seq<Event> := [];
    var e1, e2, e3 := e0 + [Arrive(0, d)], e0 + [Arrive(0, d)] + [Throttle(0)], e0 + [Arrive(0, d)] + [Throttle(0)] + [Ask(0)];
    var e4, e5 := e3 + [Slot(0)], e3 + [Slot(0)] + [Compare(0)];
    events := e5 + [Finish(0, true)];
    assert Run(site, e0) == START;
    RunThen(site, e0, Arrive(0, d));
    RunThen(site, e1, Throttle(0));
    RunThen(site, e2, Ask(0));
    RunThen(site, e3, Slot(0));
    RunThen(site, e4, Compare(0));
    RunThen(site, e5, Finish(0, true));
    assert Flying(With(START, d, 0, Waiting)) == {};
    hide Run, Fingerprint;
    ClimbToSlot(site, START, d, 0);
    ClimbFromSlot(site, START, d, 0);
    var check := Check(true, 0, 0);
    var up := With(START, d, 0, Verifying(Some(check)));
    assert Step(site, up, Finish(0, true)) == Finished(up, 0, check);
    FinishedIs(up, 0, check);
    hide Finished;
    assert up.requests - {0} == map[];
    assert Remembered([], 0, Fingerprint(Deployment, d), true) == [Fresh(Fingerprint(Deployment, d), 0, true)];
  }

  /** Any credential of the same text as one that opens the deployment is let in. */
  lemma SameTextOpens(site: Site, c: Presented, d: Presented)
    requires site.slots >= 1 && Opens(site, c, d)
    ensures OwnerSometime(site, c)
  {
    FingerprintExactly(Deployment, c, Deployment, d);
    var events := VerifiedOnce(site, d);
    hide Run, Fingerprint;
    AnsweredFromCache(site, events, c, Fingerprint(Deployment, c));
  }

  /** Exactly which credentials are ever let in as the owner: those whose text is that
      of some credential matching the console's password. */
  lemma OwnerExactly(site: Site, c: Presented)
    requires Sane(site)
    ensures OwnerSometime(site, c) <==> site.slots >= 1 && exists d :: Opens(site, c, d)
  {
    if OwnerSometime(site, c) {
      var events, k: nat :| OwnerAt(site, events, k, c);
      var d, compared := OwnerIsConsole(site, events, k);
      assert Opens(site, c, d.presented);
      NeedsASlot(site, events);
    }
    if site.slots >= 1 {
      forall d | Opens(site, c, d) ensures OwnerSometime(site, c) {
        SameTextOpens(site, c, d);
      }
    }
  }

  /** Nothing is decided without a slot. */
  lemma {:induction false} NeedsASlot(site: Site, events: seq<Event>)
    ensures Run(site, events).decisions != [] ==> site.slots >= 1
    decreases |events|
  {
    if events != [] {
      var front, last := events[..|events| - 1], events[|events| - 1];
      var w := Run(site, front);
      NeedsASlot(site, front);
      RunBounded(site, front);
      StepAccounted(site, w, last);
      hide Run, Step;
      if Step(site, w, last).decisions != w.decisions {
        var id :| Decides(w, Step(site, w, last), id);
        assert id in Flying(w);
      }
    }
  }

  /** A password that does not match the console's, let in as the owner: the credential
      `a NUL b` with password `c` matches and is remembered, and `a` with password
      `b NUL c` is answered from that memory. */
  lemma OwnerByAnotherPassword()
    ensures var site := Site(2, "stored", name => false, (stored, password) => password == "c");
            var c := Presented("a", "b" + [NUL] + "c");
            Sane(site) && OwnerSometime(site, c) && !site.matches(site.console, c.password)
  {
    var site := Site(2, "stored", name => false, (stored, password) => password == "c");
    var c, d := Presented("a", "b" + [NUL] + "c"), Presented("a" + [NUL] + "b", "c");
    assert Text(c) == Text(d);
    assert Opens(site, c, d);
    SameTextOpens(site, c, d);
    assert |c.password| == 3;
  }
}
