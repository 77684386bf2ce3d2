/** The input half of the remote-desktop viewer: what the console believes is held
    down on another machine, and the messages that make it so (`sendInput`,
    `pressKey`, `liftKey`, `releaseEverything`, `reconcileModifiers`, the key,
    pointer, focus and socket handlers in `sites/console/app.js`).

    A key is named by the HID usage it travels as; the console's table gives every
    key it knows a usage of its own. */
module HeldInput {
  import opened Bytes

  type Usage = nat

  datatype Role = Control | Shift | Alt | Meta

  /** The two keys each modifier role can arrive under. */
  function Sides(role: Role): seq<Usage>
  {
    match role
    case Control => [0xE0, 0xE4]
    case Shift => [0xE1, 0xE5]
    case Alt => [0xE2, 0xE6]
    case Meta => [0xE3, 0xE7]
  }

  predicate IsModifier(key: Usage)
  {
    key >= 0xE0
  }

  /** What goes to the far machine. */
  datatype Input =
    | Key(usage: Usage, down: bool)
    | Text(payload: seq<Byte>)
    | Pointer(x: nat, y: nat)
    | Button(code: Byte, down: bool)
    | Scroll(dx: int, dy: int)
    | FullFrame
    | ReleaseAll

  // ---- the far machine ----

  datatype Far = Far(keys: set<Usage>, buttons: set<Byte>)

  const NOTHING := Far({}, {})

  function Effect(far: Far, m: Input): Far
  {
    match m
    case Key(usage, down) => far.(keys := if down then far.keys + {usage} else far.keys - {usage})
    case Button(code, down) => far.(buttons := if down then far.buttons + {code} else far.buttons - {code})
    case ReleaseAll => NOTHING
    case _ => far
  }

  /** What is down once these messages have been carried out. */
  function Replay(log: seq<Input>): Far
  {
    if log == [] then NOTHING else Effect(Replay(log[..|log| - 1]), log[|log| - 1])
  }

  /** A release is only for something that is down. */
  predicate Due(far: Far, m: Input)
  {
    && (m.Key? && !m.down ==> m.usage in far.keys)
    && (m.Button? && !m.down ==> m.code in far.buttons)
  }

  predicate NoStrayRelease(log: seq<Input>)
  {
    forall k :: 0 <= k < |log| ==> Due(Replay(log[..k]), log[k])
  }

  lemma ReplayMore(log: seq<Input>, m: Input)
    ensures Replay(log + [m]) == Effect(Replay(log), m)
    ensures NoStrayRelease(log) && Due(Replay(log), m) ==> NoStrayRelease(log + [m])
  {
    assert (log + [m])[..|log|] == log;
    forall k | 0 <= k < |log| ensures (log + [m])[..k] == log[..k] && (log + [m])[k] == log[k] {
    }
  }

  // ---- the console ----

  datatype Socket = Absent | Connecting | Open | Closing

  /** A stream given up: whether it was still open, and everything that was sent on it. */
  datatype Ended = Ended(open: bool, log: seq<Input>)

  /** `held` and `buttons` are sets that remember the order things went down in. */
  datatype Desk = Desk(
    socket: Socket, granted: Byte, focused: bool, held: seq<Usage>, buttons: seq<Byte>, log: seq<Input>, past: seq<Ended>)

  const FRESH := Desk(Absent, 0, false, [], [], [], [])

  function Elements<T>(s: seq<T>): set<T>
  {
    set x | x in s
  }

  predicate Distinct<T(==)>(s: seq<T>)
  {
    forall i, j :: 0 <= i < j < |s| ==> s[i] != s[j]
  }

  function Added<T(==)>(s: seq<T>, x: T): seq<T>
  {
    if x in s then s else s + [x]
  }

  function Without<T(==)>(s: seq<T>, x: T): (out: seq<T>)
    ensures |out| <= |s|
  {
    if s == [] then []
    else if s[|s| - 1] == x then Without(s[..|s| - 1], x)
    else Without(s[..|s| - 1], x) + [s[|s| - 1]]
  }

  lemma OneMore<T>(s: seq<T>, x: T)
    ensures Elements(s + [x]) == Elements(s) + {x}
    ensures Distinct(s + [x]) <==> Distinct(s) && x !in s
  {
    if Distinct(s + [x]) {
      forall i | 0 <= i < |s| ensures s[i] != x {
        assert (s + [x])[i] != (s + [x])[|s|];
      }
      forall i, j | 0 <= i < j < |s| ensures s[i] != s[j] {
        assert (s + [x])[i] != (s + [x])[j];
      }
    }
  }

  lemma EmptyIs<T>(s: seq<T>)
    ensures Elements(s) == {} <==> s == []
  {
    if s != [] {
      assert s[0] in Elements(s);
    }
  }

  lemma {:induction false} WithoutIs<T>(s: seq<T>, x: T)
    ensures Elements(Without(s, x)) == Elements(s) - {x}
    ensures Distinct(s) ==> Distinct(Without(s, x))
  {
    if s != [] {
      var front, last := s[..|s| - 1], s[|s| - 1];
      var out := Without(front, x);
      assert s == front + [last];
      WithoutIs(front, x);
      OneMore(front, last);
      OneMore(out, last);
      hide Distinct;
      assert last in out <==> last in Elements(out);
      assert last in front <==> last in Elements(front);
    }
  }

  lemma AddedIs<T>(s: seq<T>, x: T)
    ensures Elements(Added(s, x)) == Elements(s) + {x}
    ensures Distinct(s) ==> Distinct(Added(s, x))
  {
    OneMore(s, x);
  }

  predicate Driving(d: Desk)
  {
    d.granted / 2 % 2 == 1
  }

  predicate Bridging(d: Desk)
  {
    d.granted / 4 % 2 == 1
  }

  function SendInput(d: Desk, m: Input): Desk
  {
    if Driving(d) && d.socket == Open then d.(log := d.log + [m]) else d
  }

  function PressKey(d: Desk, key: Usage): Desk
  {
    SendInput(d.(held := Added(d.held, key)), Key(key, true))
  }

  function LiftKey(d: Desk, key: Usage): Desk
  {
    if key in d.held then SendInput(d.(held := Without(d.held, key)), Key(key, false)) else d
  }

  function LiftAll(d: Desk, keys: seq<Usage>): Desk
  {
    if keys == [] then d else LiftKey(LiftAll(d, keys[..|keys| - 1]), keys[|keys| - 1])
  }

  /** Sent whatever the console was granted, if there is a stream to send it on. */
  function ReleaseEverything(d: Desk): Desk
  {
    var clean := d.(held := [], buttons := []);
    if d.socket == Open then clean.(log := d.log + [ReleaseAll]) else clean
  }

  /** The held modifiers of a role that the operating system says is not pressed. */
  function SidesHeld(held: seq<Usage>, role: Role): seq<Usage>
  {
    (if Sides(role)[0] in held then [Sides(role)[0]] else []) + (if Sides(role)[1] in held then [Sides(role)[1]] else [])
  }

  function StrandedOf(held: seq<Usage>, pressed: set<Role>, role: Role): seq<Usage>
  {
    if role in pressed then [] else SidesHeld(held, role)
  }

  const ROLES := [Control, Shift, Alt, Meta]

  function StrandedFirst(held: seq<Usage>, pressed: set<Role>, n: nat): seq<Usage>
    requires n <= |ROLES|
  {
    if n == 0 then [] else StrandedFirst(held, pressed, n - 1) + StrandedOf(held, pressed, ROLES[n - 1])
  }

  function Stranded(held: seq<Usage>, pressed: set<Role>): seq<Usage>
  {
    StrandedFirst(held, pressed, |ROLES|)
  }

  function Reconciled(d: Desk, pressed: Option<set<Role>>): Desk
  {
    if pressed == None then d else LiftAll(d, Stranded(d.held, pressed.value))
  }

  function Kept(held: seq<Usage>, modifiers: bool): seq<Usage>
  {
    if held == [] then []
    else
      var front, last := Kept(held[..|held| - 1], modifiers), held[|held| - 1];
      if IsModifier(last) == modifiers then front + [last] else front
  }

  /** Everything held, ordinary keys first. */
  function LiftModifiers(d: Desk): Desk
  {
    LiftAll(LiftAll(d, Kept(d.held, false)), Kept(d.held, true))
  }

  function PasteToMachine(d: Desk): Desk
  {
    if !Driving(d) || !Bridging(d) then d else LiftModifiers(d)
  }

  /** One key event. `key` is nothing for a code with no usage; `chord` says whether
      it is the paste chord with the bridge armed. */
  function OnKey(d: Desk, key: Option<Usage>, down: bool, pressed: Option<set<Role>>, chord: bool): Desk
  {
    if !Driving(d) || !d.focused then d
    else
      var r := Reconciled(d, pressed);
      if down && chord && Bridging(r) then PasteToMachine(r)
      else if key == None then r
      else if down then PressKey(r, key.value)
      else LiftKey(r, key.value)
  }

  function ButtonCode(button: int): Option<Byte>
  {
    if 0 <= button <= 4 then Some(button + 1) else None
  }

  /** `point` is the position to send, if it has moved and the link is not behind. */
  function SendPointer(d: Desk, point: Option<(nat, nat)>): Desk
  {
    if point == None then d else SendInput(d, Pointer(point.value.0, point.value.1))
  }

  function OnPointerDown(d: Desk, button: int, point: Option<(nat, nat)>): Desk
  {
    var code := ButtonCode(button);
    if !Driving(d) || !d.focused || code == None then d
    else
      var p := SendPointer(d, point);
      SendInput(p.(buttons := Added(p.buttons, code.value)), Button(code.value, true))
  }

  function OnPointerUp(d: Desk, button: int): Desk
  {
    var code := ButtonCode(button);
    if !Driving(d) || code == None || code.value !in d.buttons then d
    else SendInput(d.(buttons := Without(d.buttons, code.value)), Button(code.value, false))
  }

  function OnBlur(d: Desk): Desk
  {
    if !d.focused then d else ReleaseEverything(d.(focused := false))
  }

  /** The stream is forgotten; `open` is whether it could still be written to. */
  function DropSocket(d: Desk, open: bool): Desk
  {
    if d.socket == Absent then d else d.(socket := Absent, log := [], past := d.past + [Ended(open, d.log)])
  }

  /** The far end closed, or the link went. */
  function OnClose(d: Desk): Desk
  {
    if d.socket == Absent then d
    else DropSocket(d.(held := [], buttons := []), false).(granted := 0)
  }

  function CloseDesktop(d: Desk): Desk
  {
    DropSocket(ReleaseEverything(d), d.socket == Open).(granted := 0)
  }

  /** Another stream takes over; `refused` when the browser will not open it. */
  function HandOver(d: Desk, refused: bool): Desk
  {
    var dropped := DropSocket(ReleaseEverything(d), d.socket == Open);
    FRESH.(past := dropped.past, socket := if refused then Absent else Connecting)
  }

  function Typed(d: Desk, payloads: seq<seq<Byte>>): Desk
  {
    if payloads == [] then d else SendInput(Typed(d, payloads[..|payloads| - 1]), Text(payloads[|payloads| - 1]))
  }

  // ---- runs ----

  datatype Event =
    | KeyEvent(key: Option<Usage>, down: bool, pressed: Option<set<Role>>, chord: bool)
    | PointerMove(point: Option<(nat, nat)>)
    | PointerDown(button: int, point: Option<(nat, nat)>)
    | PointerUp(button: int)
    | Wheel(dx: int, dy: int)
    | Focus
    | Blur                       // the viewport or the window loses focus, or the page is hidden
    | ReleaseClick
    | PasteClick
    | TextReady(payloads: seq<seq<Byte>>)
    | AskFull
    | SocketOpens
    | SocketFails                // the socket stops being writable; its close event is still to come
    | Hello(capabilities: Byte)
    | CloseEvent
    | Disconnect
    | Replaced(refused: bool)

  function Step(d: Desk, e: Event): Desk
  {
    match e
    case KeyEvent(key, down, pressed, chord) => OnKey(d, key, down, pressed, chord)
    case PointerMove(point) => if Driving(d) && d.focused then SendPointer(d, point) else d
    case PointerDown(button, point) => OnPointerDown(d, button, point)
    case PointerUp(button) => OnPointerUp(d, button)
    case Wheel(dx, dy) => if Driving(d) && d.focused && (dx != 0 || dy != 0) then SendInput(d, Scroll(dx, dy)) else d
    case Focus => d.(focused := true)
    case Blur => OnBlur(d)
    case ReleaseClick => ReleaseEverything(d)
    case PasteClick => PasteToMachine(d)
    case TextReady(payloads) => Typed(d, payloads)
    case AskFull => if d.socket == Open then d.(log := d.log + [FullFrame]) else d
    case SocketOpens => if d.socket == Connecting then d.(socket := Open) else d
    case SocketFails => if d.socket == Absent then d else d.(socket := Closing)
    case Hello(capabilities) => if d.socket == Open || d.socket == Closing then d.(granted := capabilities) else d
    case CloseEvent => OnClose(d)
    case Disconnect => CloseDesktop(d)
    case Replaced(refused) => HandOver(d, refused)
  }

  function Run(d: Desk, events: seq<Event>): Desk
    decreases |events|
  {
    if events == [] then d else Step(Run(d, events[..|events| - 1]), events[|events| - 1])
  }

  // ---- what every event keeps ----

  predicate Exact(d: Desk)
  {
    d.socket == Open ==> Replay(d.log) == Far(Elements(d.held), Elements(d.buttons))
  }

  predicate Safe(d: Desk)
  {
    && Distinct(d.held) && Distinct(d.buttons)
    && Exact(d) && NoStrayRelease(d.log)
    && (!d.focused ==> d.held == [] && d.buttons == [])
    && (d.socket == Absent || d.socket == Connecting ==> d.granted == 0 && d.held == [] && d.buttons == [] && d.log == [])
    && forall k :: 0 <= k < |d.past| ==>
         NoStrayRelease(d.past[k].log) && (d.past[k].open ==> Replay(d.past[k].log) == NOTHING)
  }

  lemma Sends(d: Desk, m: Input, next: Desk)
    requires Driving(d) && next.granted == d.granted && next.socket == d.socket
    ensures SendInput(next, m) == if d.socket == Open then next.(log := next.log + [m]) else next
    ensures d.granted != 0
  {
  }

  /** An input that was due, sent by a console that has made the same change to its
      own account. */
  lemma SendSafe(d: Desk, m: Input, held: seq<Usage>, buttons: seq<Byte>)
    requires Safe(d) && Driving(d) && Distinct(held) && Distinct(buttons)
    requires Effect(Far(Elements(d.held), Elements(d.buttons)), m) == Far(Elements(held), Elements(buttons))
    requires Due(Far(Elements(d.held), Elements(d.buttons)), m)
    requires !d.focused ==> held == [] && buttons == []
    ensures Safe(SendInput(d.(held := held, buttons := buttons), m))
  {
    hide Driving, Replay, NoStrayRelease, Elements, Distinct, Due, Effect;
    Sends(d, m, d.(held := held, buttons := buttons));
    hide SendInput;
    ReplayMore(d.log, m);
  }

  lemma PressSafe(d: Desk, key: Usage)
    requires Safe(d) && Driving(d) && d.focused
    ensures Safe(PressKey(d, key))
  {
    AddedIs(d.held, key);
    SendSafe(d, Key(key, true), Added(d.held, key), d.buttons);
  }

  lemma LiftSafe(d: Desk, key: Usage)
    requires Safe(d) && Driving(d)
    ensures Safe(LiftKey(d, key))
    ensures LiftKey(d, key) == d.(held := LiftKey(d, key).held, log := LiftKey(d, key).log)
    ensures Elements(LiftKey(d, key).held) == Elements(d.held) - {key}
  {
    WithoutIs(d.held, key);
    if key in d.held {
      SendSafe(d, Key(key, false), Without(d.held, key), d.buttons);
    }
  }

  lemma {:induction false} LiftAllSafe(d: Desk, keys: seq<Usage>)
    requires Safe(d) && Driving(d)
    ensures Safe(LiftAll(d, keys))
    ensures LiftAll(d, keys) == d.(held := LiftAll(d, keys).held, log := LiftAll(d, keys).log)
    ensures Elements(LiftAll(d, keys).held) == Elements(d.held) - Elements(keys)
  {
    if keys != [] {
      var front, last := keys[..|keys| - 1], keys[|keys| - 1];
      assert keys == front + [last];
      LiftAllSafe(d, front);
      LiftSafe(LiftAll(d, front), last);
      assert Elements(keys) == Elements(front) + {last};
    }
  }

  lemma ReleaseSafe(d: Desk)
    requires Safe(d)
    ensures Safe(ReleaseEverything(d))
    ensures d.socket == Open ==> Replay(ReleaseEverything(d).log) == NOTHING
  {
    ReplayMore(d.log, ReleaseAll);
  }

  lemma {:induction false} TypedSafe(d: Desk, payloads: seq<seq<Byte>>)
    requires Safe(d)
    ensures Safe(Typed(d, payloads)) && Typed(d, payloads) == d.(log := Typed(d, payloads).log)
  {
    if payloads != [] {
      var front := Typed(d, payloads[..|payloads| - 1]);
      TypedSafe(d, payloads[..|payloads| - 1]);
      if Driving(d) {
        SendSafe(front, Text(payloads[|payloads| - 1]), front.held, front.buttons);
      }
    }
  }

  // ---- reconciling with the operating system ----

  /** The modifier keys of the roles that are not pressed: HID gives the left and the
      right of each a usage four apart. */
  predicate Adrift(key: Usage, pressed: set<Role>)
  {
    || (Control !in pressed && (key == 0xE0 || key == 0xE4)) || (Shift !in pressed && (key == 0xE1 || key == 0xE5))
    || (Alt !in pressed && (key == 0xE2 || key == 0xE6)) || (Meta !in pressed && (key == 0xE3 || key == 0xE7))
  }

  lemma SidesAre()
    ensures forall key :: key in Sides(Control) <==> key == 0xE0 || key == 0xE4
    ensures forall key :: key in Sides(Shift) <==> key == 0xE1 || key == 0xE5
    ensures forall key :: key in Sides(Alt) <==> key == 0xE2 || key == 0xE6
    ensures forall key :: key in Sides(Meta) <==> key == 0xE3 || key == 0xE7
  {
  }

  lemma StrandedIs(held: seq<Usage>, pressed: set<Role>, key: Usage)
    ensures key in Stranded(held, pressed) <==> key in held && Adrift(key, pressed)
  {
    SideIs(held, pressed, Control, key);
    SideIs(held, pressed, Shift, key);
    SideIs(held, pressed, Alt, key);
    SideIs(held, pressed, Meta, key);
    SidesAre();
    hide StrandedOf, Sides;
    assert StrandedFirst(held, pressed, 1) == [] + StrandedOf(held, pressed, Control);
    assert StrandedFirst(held, pressed, 2) == StrandedFirst(held, pressed, 1) + StrandedOf(held, pressed, Shift);
    assert StrandedFirst(held, pressed, 3) == StrandedFirst(held, pressed, 2) + StrandedOf(held, pressed, Alt);
    assert StrandedFirst(held, pressed, 4) == StrandedFirst(held, pressed, 3) + StrandedOf(held, pressed, Meta);
  }

  lemma SideIs(held: seq<Usage>, pressed: set<Role>, role: Role, key: Usage)
    ensures key in StrandedOf(held, pressed, role) <==> role !in pressed && key in held && key in Sides(role)
  {
  }

  /** After every key event the console holds no modifier the operating system says
      is up, and has let go of nothing else. */
  lemma ReconcileExactly(d: Desk, pressed: set<Role>)
    requires Safe(d) && Driving(d)
    ensures Safe(Reconciled(d, Some(pressed)))
    ensures Reconciled(d, Some(pressed)) == d.(held := Reconciled(d, Some(pressed)).held, log := Reconciled(d, Some(pressed)).log)
    ensures forall key :: key in Reconciled(d, Some(pressed)).held <==> key in d.held && !Adrift(key, pressed)
  {
    var r, lost := Reconciled(d, Some(pressed)), Stranded(d.held, pressed);
    LiftAllSafe(d, lost);
    hide LiftAll, Stranded, Adrift, Safe;
    forall key ensures key in r.held <==> key in d.held && !Adrift(key, pressed) {
      StrandedIs(d.held, pressed, key);
      assert key in r.held <==> key in Elements(r.held);
      assert key in Elements(d.held) - Elements(lost) <==> key in d.held && key !in lost;
    }
  }

  // ---- letting go before a paste ----

  lemma {:induction false} KeptIs(held: seq<Usage>, modifiers: bool)
    ensures forall key :: key in Kept(held, modifiers) <==> key in held && (key >= 0xE0) == modifiers
    ensures Distinct(held) ==> Distinct(Kept(held, modifiers))
  {
    if held != [] {
      var front, last := held[..|held| - 1], held[|held| - 1];
      assert held == front + [last];
      KeptIs(front, modifiers);
      OneMore(front, last);
      OneMore(Kept(front, modifiers), last);
      hide Distinct;
    }
  }

  function Releases(keys: seq<Usage>): (out: seq<Input>)
    ensures |out| == |keys|
    ensures forall k :: 0 <= k < |keys| ==> out[k] == Key(keys[k], false)
  {
    if keys == [] then [] else Releases(keys[..|keys| - 1]) + [Key(keys[|keys| - 1], false)]
  }

  lemma {:induction false} LiftAllLog(d: Desk, keys: seq<Usage>)
    requires Safe(d) && Driving(d) && d.socket == Open && Distinct(keys)
    requires forall key :: key in keys ==> key in d.held
    ensures LiftAll(d, keys).log == d.log + Releases(keys)
  {
    if keys != [] {
      var front, last := keys[..|keys| - 1], keys[|keys| - 1];
      assert keys == front + [last];
      OneMore(front, last);
      LiftAllLog(d, front);
      LiftAllSafe(d, front);
      var mid := LiftAll(d, front);
      assert last in Elements(d.held) - Elements(front);
      assert last in mid.held by { assert last in Elements(mid.held); }
      SeqAssociative(d.log, Releases(front), [Key(last, false)]);
    } else {
      assert d.log + [] == d.log;
    }
  }

  /** Before a paste nothing stays held, and on an open stream the ordinary keys went
      up before the first modifier did. */
  lemma PasteLetsGo(d: Desk)
    requires Safe(d) && Driving(d)
    ensures Safe(LiftModifiers(d)) && LiftModifiers(d).held == []
    ensures LiftModifiers(d) == d.(held := [], log := LiftModifiers(d).log)
    ensures d.socket == Open ==>
              LiftModifiers(d).log == d.log + Releases(Kept(d.held, false)) + Releases(Kept(d.held, true))
    ensures forall key :: key in Kept(d.held, false) <==> key in d.held && key < 0xE0
    ensures forall key :: key in Kept(d.held, true) <==> key in d.held && key >= 0xE0
  {
    var keys, modifiers := Kept(d.held, false), Kept(d.held, true);
    KeptIs(d.held, false);
    KeptIs(d.held, true);
    LiftAllSafe(d, keys);
    var mid := LiftAll(d, keys);
    LiftAllSafe(mid, modifiers);
    var done := LiftAll(mid, modifiers);
    forall key ensures key in mid.held <==> key in d.held && key !in keys {
      assert key in mid.held <==> key in Elements(mid.held);
    }
    assert Elements(done.held) == {};
    EmptyIs(done.held);
    if d.socket == Open {
      LiftAllLog(d, keys);
      LiftAllLog(mid, modifiers);
    }
  }

  // ---- what one event does ----

  /** The held modifiers the operating system says are up, in the order they are let go. */
  function Lost(d: Desk, pressed: Option<set<Role>>): (keys: seq<Usage>)
  {
    if pressed == None then [] else Stranded(d.held, pressed.value)
  }

  predicate StillHeld(d: Desk, pressed: Option<set<Role>>, key: Usage)
  {
    key in d.held && (pressed == None || !Adrift(key, pressed.value))
  }

  /** The keys of the first `n` roles are all different: the roles tell them apart. */
  lemma {:induction false} StrandedDistinct(held: seq<Usage>, pressed: set<Role>, n: nat)
    requires n <= |ROLES|
    ensures Distinct(StrandedFirst(held, pressed, n))
    ensures forall key :: key in StrandedFirst(held, pressed, n) ==> key in held && key % 4 < n
  {
    if n > 0 {
      StrandedDistinct(held, pressed, n - 1);
      RoleOf(held, pressed, n - 1);
      var front, back := StrandedFirst(held, pressed, n - 1), StrandedOf(held, pressed, ROLES[n - 1]);
      assert StrandedFirst(held, pressed, n) == front + back;
      hide *;
      forall x | x in front ensures x !in back {
        assert x % 4 < n - 1;
      }
      DistinctBoth(front, back);
    }
  }

  lemma DistinctBoth<T>(a: seq<T>, b: seq<T>)
    requires Distinct(a) && Distinct(b) && forall x :: x in a ==> x !in b
    ensures Distinct(a + b)
    ensures forall x :: x in a + b <==> x in a || x in b
  {
    forall i, j | 0 <= i < j < |a + b| ensures (a + b)[i] != (a + b)[j] {
      if i < |a| <= j {
        assert a[i] in a && b[j - |a|] in b;
      }
    }
  }

  lemma RoleOf(held: seq<Usage>, pressed: set<Role>, n: nat)
    requires n < |ROLES|
    ensures Distinct(StrandedOf(held, pressed, ROLES[n]))
    ensures forall key :: key in StrandedOf(held, pressed, ROLES[n]) ==> key in held && key % 4 == n
  {
  }

  /** Reconciling sends the releases of what it lets go, and changes nothing else. */
  lemma ReconcileSends(d: Desk, pressed: Option<set<Role>>)
    requires Safe(d) && Driving(d)
    ensures Safe(Reconciled(d, pressed))
    ensures Reconciled(d, pressed) == d.(held := Reconciled(d, pressed).held, log := Reconciled(d, pressed).log)
    ensures forall key :: key in Reconciled(d, pressed).held <==> StillHeld(d, pressed, key)
    ensures Reconciled(d, pressed).log == if d.socket == Open then d.log + Releases(Lost(d, pressed)) else d.log
  {
    if pressed.Some? {
      ReconcileExactly(d, pressed.value);
      StrandedDistinct(d.held, pressed.value, |ROLES|);
      hide Stranded, Safe, Adrift;
      if d.socket == Open {
        LiftAllLog(d, Stranded(d.held, pressed.value));
      } else {
        LiftAllQuiet(d, Stranded(d.held, pressed.value));
      }
    } else {
      assert d.log + [] == d.log;
    }
  }

  lemma {:induction false} LiftAllQuiet(d: Desk, keys: seq<Usage>)
    requires d.socket != Open
    ensures LiftAll(d, keys).log == d.log && LiftAll(d, keys).socket == d.socket
  {
    if keys != [] {
      LiftAllQuiet(d, keys[..|keys| - 1]);
    }
  }

  /** What is held on an open desk is what is down at the far end. */
  lemma HeldIsDown(d: Desk)
    requires Safe(d) && d.socket == Open
    ensures forall key :: key in d.held <==> key in Replay(d.log).keys
    ensures forall code :: code in d.buttons <==> code in Replay(d.log).buttons
  {
    assert forall key :: key in d.held <==> key in Elements(d.held);
    assert forall code :: code in d.buttons <==> code in Elements(d.buttons);
  }

  lemma PressIs(d: Desk, key: Usage)
    requires Safe(d) && Driving(d) && d.focused
    ensures Safe(PressKey(d, key)) && PressKey(d, key) == d.(held := PressKey(d, key).held, log := PressKey(d, key).log)
    ensures forall k :: k in PressKey(d, key).held <==> k == key || k in d.held
    ensures PressKey(d, key).log == if d.socket == Open then d.log + [Key(key, true)] else d.log
  {
    PressSends(d, key);
    hide *;
    PressSafe(d, key);
    AddedOne(d.held, key);
  }

  lemma PressSends(d: Desk, key: Usage)
    requires Driving(d)
    ensures PressKey(d, key)
         == d.(held := Added(d.held, key), log := if d.socket == Open then d.log + [Key(key, true)] else d.log)
  {
  }

  lemma LiftIs(d: Desk, key: Usage)
    requires Safe(d) && Driving(d)
    ensures Safe(LiftKey(d, key)) && LiftKey(d, key) == d.(held := LiftKey(d, key).held, log := LiftKey(d, key).log)
    ensures forall k :: k in LiftKey(d, key).held <==> k != key && k in d.held
    ensures LiftKey(d, key).log == if d.socket == Open && key in d.held then d.log + [Key(key, false)] else d.log
  {
    LiftSafe(d, key);
    var after := LiftKey(d, key);
    hide Safe, LiftKey;
    forall k ensures k in after.held <==> k != key && k in d.held {
      assert k in after.held <==> k in Elements(after.held);
      assert k in Elements(d.held) - {key} <==> k != key && k in d.held;
    }
    LiftSends(d, key);
  }

  lemma LiftSends(d: Desk, key: Usage)
    requires Driving(d)
    ensures LiftKey(d, key).log == if d.socket == Open && key in d.held then d.log + [Key(key, false)] else d.log
  {
  }

  /** A key going down, on a desk that drives and has the focus, is held afterwards with
      everything still held; on an open stream it goes out after the releases of what
      the operating system says is up, and is down at the far end. */
  lemma KeyDown(d: Desk, key: Usage, pressed: Option<set<Role>>, chord: bool)
    requires Safe(d) && d.granted / 2 % 2 == 1 && d.focused && !(chord && d.granted / 4 % 2 == 1)
    ensures var after := Step(d, KeyEvent(Some(key), true, pressed, chord));
            && after == d.(held := after.held, log := after.log)
            && (forall k :: k in after.held <==> k == key || StillHeld(d, pressed, k))
            && after.log == (if d.socket == Open then d.log + Releases(Lost(d, pressed)) + [Key(key, true)] else d.log)
            && (d.socket == Open ==> key in Replay(after.log).keys)
  {
    ReconcileSends(d, pressed);
    var r := Reconciled(d, pressed);
    PressIs(r, key);
    hide Reconciled, PressKey, Safe, StillHeld, Lost;
    if d.socket == Open {
      HeldIsDown(PressKey(r, key));
    }
  }

  /** A key coming up is neither held nor down afterwards, and its release goes out
      exactly if it was still held. */
  lemma KeyUp(d: Desk, key: Usage, pressed: Option<set<Role>>, chord: bool)
    requires Safe(d) && d.granted / 2 % 2 == 1 && d.focused
    ensures var after := Step(d, KeyEvent(Some(key), false, pressed, chord));
            && after == d.(held := after.held, log := after.log)
            && (forall k :: k in after.held <==> k != key && StillHeld(d, pressed, k))
            && (d.socket == Open ==> key !in Replay(after.log).keys)
            && after.log == if d.socket != Open then d.log
                            else if !StillHeld(d, pressed, key) then d.log + Releases(Lost(d, pressed))
                            else d.log + Releases(Lost(d, pressed)) + [Key(key, false)]
  {
    ReconcileSends(d, pressed);
    var r := Reconciled(d, pressed);
    LiftIs(r, key);
    hide Reconciled, LiftKey, Safe, StillHeld, Lost;
    if d.socket == Open {
      HeldIsDown(LiftKey(r, key));
    }
  }

  /** The other ways a key event goes: turned away without the grant or the focus; a key
      the table does not know only reconciles; and the paste chord lets everything go. */
  lemma KeyOtherwise(d: Desk, key: Option<Usage>, down: bool, pressed: Option<set<Role>>, chord: bool)
    requires Safe(d)
    ensures var after := Step(d, KeyEvent(key, down, pressed, chord));
            && (d.granted / 2 % 2 == 0 || !d.focused ==> after == d)
            && (d.granted / 2 % 2 == 1 && d.focused ==>
                  if down && chord && d.granted / 4 % 2 == 1 then after == d.(held := [], log := after.log)
                  else key == None ==>
                         && after == d.(held := after.held, log := after.log)
                         && (forall k :: k in after.held <==> StillHeld(d, pressed, k))
                         && after.log == if d.socket == Open then d.log + Releases(Lost(d, pressed)) else d.log)
  {
    if Driving(d) && d.focused {
      ReconcileSends(d, pressed);
      var r := Reconciled(d, pressed);
      PasteLetsGo(r);
      hide Reconciled, PressKey, LiftKey, LiftModifiers, Safe, StillHeld, Lost;
    }
  }

  /** Browser buttons 0 to 4 travel as codes 1 to 5, after the position if there is one
      to send. */
  lemma ButtonDown(d: Desk, button: int, code: Byte, point: Option<(nat, nat)>)
    requires Safe(d) && d.granted / 2 % 2 == 1 && d.focused && d.socket == Open && 0 <= button <= 4 && code == button + 1
    ensures var after := Step(d, PointerDown(button, point));
            && after == d.(buttons := after.buttons, log := after.log)
            && (forall c :: c in after.buttons <==> c == code || c in d.buttons)
            && after.log == (if point == None then d.log + [Button(code, true)]
                             else d.log + [Pointer(point.value.0, point.value.1)] + [Button(code, true)])
            && code in Replay(after.log).buttons
  {
    hide *;
    var after := Step(d, PointerDown(button, point));
    PointerDownSafe(d, button, point);
    PointerDownSends(d, button, code, point);
    HeldIsDown(after);
    AddedOne(d.buttons, code);
  }

  lemma PointerDownSends(d: Desk, button: int, code: Byte, point: Option<(nat, nat)>)
    requires d.granted / 2 % 2 == 1 && d.focused && d.socket == Open && 0 <= button <= 4 && code == button + 1
    ensures var after := Step(d, PointerDown(button, point));
            && after == OnPointerDown(d, button, point)
            && after == d.(buttons := Added(d.buttons, code), log := after.log)
            && after.log == if point == None then d.log + [Button(code, true)]
                            else d.log + [Pointer(point.value.0, point.value.1)] + [Button(code, true)]
  {
    assert ButtonCode(button) == Some(code);
    hide OnKey, OnPointerUp, OnBlur, OnClose, CloseDesktop, HandOver, ReleaseEverything, PasteToMachine, Typed, ButtonCode;
  }

  lemma AddedOne<T>(s: seq<T>, x: T)
    ensures forall y :: y in Added(s, x) <==> y == x || y in s
  {
  }

  /** A release goes out exactly for a button that was down. */
  lemma ButtonUp(d: Desk, button: int, code: Byte)
    requires Safe(d) && d.granted / 2 % 2 == 1 && d.socket == Open && 0 <= button <= 4 && code == button + 1
    ensures var after := Step(d, PointerUp(button));
            if code !in d.buttons then after == d
            else
              && after == d.(buttons := after.buttons, log := d.log + [Button(code, false)])
              && (forall c :: c in after.buttons <==> c != code && c in d.buttons)
              && code !in Replay(after.log).buttons
  {
    hide *;
    var after := Step(d, PointerUp(button));
    PointerUpSafe(d, button);
    PointerUpSends(d, button, code);
    HeldIsDown(after);
    WithoutOne(d.buttons, code);
  }

  lemma PointerUpSends(d: Desk, button: int, code: Byte)
    requires d.granted / 2 % 2 == 1 && d.socket == Open && 0 <= button <= 4 && code == button + 1
    ensures Step(d, PointerUp(button)) == OnPointerUp(d, button)
    ensures OnPointerUp(d, button) == if code !in d.buttons then d
                                      else d.(buttons := Without(d.buttons, code), log := d.log + [Button(code, false)])
  {
    assert ButtonCode(button) == Some(code);
    hide OnKey, OnPointerDown, OnBlur, OnClose, CloseDesktop, HandOver, ReleaseEverything, PasteToMachine, Typed, ButtonCode;
  }

  /** Any other button is nothing. */
  lemma OtherButtons(d: Desk, button: int, point: Option<(nat, nat)>)
    requires button < 0 || button > 4
    ensures Step(d, PointerDown(button, point)) == d && Step(d, PointerUp(button)) == d
  {
  }

  lemma WithoutOne<T>(s: seq<T>, x: T)
    ensures forall y :: y in Without(s, x) <==> y != x && y in s
  {
    WithoutIs(s, x);
    hide Without;
    forall y ensures y in Without(s, x) <==> y != x && y in s {
      assert y in Without(s, x) <==> y in Elements(Without(s, x));
      assert y in Elements(s) - {x} <==> y != x && y in s;
    }
  }

  /** Without the grant no pointer or wheel event is sent or remembered; with it, and the
      focus and an open stream, a move and a scroll go out as they are. */
  lemma PointerExactly(d: Desk, point: (nat, nat), dx: int, dy: int, button: int)
    ensures d.granted / 2 % 2 == 0 || !d.focused ==>
              && Step(d, PointerMove(Some(point))) == d && Step(d, Wheel(dx, dy)) == d
              && Step(d, PointerDown(button, Some(point))) == d
    ensures d.granted / 2 % 2 == 0 ==> Step(d, PointerUp(button)) == d
    ensures d.granted / 2 % 2 == 1 && d.focused && d.socket == Open ==>
              && Step(d, PointerMove(Some(point))) == d.(log := d.log + [Pointer(point.0, point.1)])
              && Step(d, Wheel(dx, dy)) == (if dx == 0 && dy == 0 then d else d.(log := d.log + [Scroll(dx, dy)]))
  {
  }

  /** Letting go goes out as one message, whatever was granted; a whole frame can be asked
      for without the grant; text needs it, and goes out in the order it was cut. */
  lemma {:induction false} OthersExactly(d: Desk, payloads: seq<seq<Byte>>)
    requires d.socket == Open
    ensures Step(d, ReleaseClick) == d.(held := [], buttons := [], log := d.log + [ReleaseAll])
    ensures d.focused ==> Step(d, Blur) == d.(focused := false, held := [], buttons := [], log := d.log + [ReleaseAll])
    ensures Step(d, AskFull) == d.(log := d.log + [FullFrame])
    ensures d.granted / 2 % 2 == 0 ==> Step(d, TextReady(payloads)) == d
    ensures d.granted / 2 % 2 == 1 ==>
              Step(d, TextReady(payloads)) == d.(log := d.log + seq(|payloads|, k requires 0 <= k < |payloads| => Text(payloads[k])))
    decreases |payloads|
  {
    if payloads == [] {
      assert d.log + [] == d.log;
    } else {
      var front, last := payloads[..|payloads| - 1], payloads[|payloads| - 1];
      OthersExactly(d, front);
      assert seq(|payloads|, k requires 0 <= k < |payloads| => Text(payloads[k]))
          == seq(|front|, k requires 0 <= k < |front| => Text(front[k])) + [Text(last)];
    }
  }

  /** The stream itself: it opens if it was opening, and a greeting on it grants what it says. */
  lemma OpensExactly(d: Desk, capabilities: Byte)
    ensures Step(d, Focus) == d.(focused := true)
    ensures d.socket == Connecting ==> Step(d, SocketOpens) == d.(socket := Open)
    ensures d.socket != Connecting ==> Step(d, SocketOpens) == d
    ensures d.socket == Open || d.socket == Closing ==> Step(d, Hello(capabilities)) == d.(granted := capabilities)
    ensures d.socket == Absent || d.socket == Connecting ==> Step(d, Hello(capabilities)) == d
  {
    hide Driving, OnKey, OnPointerDown, OnPointerUp, SendPointer, SendInput, PasteToMachine, Typed;
    hide ReleaseEverything, OnBlur, OnClose, CloseDesktop, HandOver;
  }

  /** A close takes the grant and what was held, and a disconnection or another stream in
      its place lets go on it first. */
  lemma ClosesExactly(d: Desk)
    ensures d.socket != Absent ==>
              Step(d, SocketFails) == d.(socket := Closing)
              && Step(d, CloseEvent) == d.(socket := Absent, granted := 0, held := [], buttons := [], log := [],
                                           past := d.past + [Ended(false, d.log)])
    ensures d.socket == Open ==>
              var past := d.past + [Ended(true, d.log + [ReleaseAll])];
              && Step(d, Disconnect) == d.(socket := Absent, granted := 0, held := [], buttons := [], log := [], past := past)
              && Step(d, Replaced(true)) == Desk(Absent, 0, false, [], [], [], past)
              && Step(d, Replaced(false)) == Desk(Connecting, 0, false, [], [], [], past)
  {
    hide Driving, OnKey, OnPointerDown, OnPointerUp, SendPointer, SendInput, PasteToMachine, Typed;
  }

  // ---- every event, every run ----

  lemma KeySafe(d: Desk, key: Option<Usage>, down: bool, pressed: Option<set<Role>>, chord: bool)
    requires Safe(d)
    ensures Safe(OnKey(d, key, down, pressed, chord))
  {
    if Driving(d) && d.focused {
      var r := Reconciled(d, pressed);
      if pressed.Some? {
        ReconcileExactly(d, pressed.value);
      }
      hide Reconciled, Safe, PressKey, LiftKey, LiftModifiers;
      if down && chord && Bridging(r) {
        PasteLetsGo(r);
      } else if key.Some? && down {
        PressSafe(r, key.value);
      } else if key.Some? {
        LiftSafe(r, key.value);
      }
    }
  }

  lemma PlainSafe(d: Desk, m: Input)
    requires Safe(d) && (m.Pointer? || m.Scroll? || m.FullFrame?)
    ensures Safe(SendInput(d, m))
    ensures d.socket == Open ==> Safe(d.(log := d.log + [m]))
  {
    ReplayMore(d.log, m);
    hide Replay, NoStrayRelease, Elements, Distinct;
  }

  lemma PointerDownSafe(d: Desk, button: int, point: Option<(nat, nat)>)
    requires Safe(d)
    ensures Safe(OnPointerDown(d, button, point))
  {
    var code := ButtonCode(button);
    if Driving(d) && code.Some? && d.focused {
      var p := SendPointer(d, point);
      if point.Some? {
        PlainSafe(d, Pointer(point.value.0, point.value.1));
      }
      assert Safe(p) && Driving(p) && p.focused;
      hide Safe, SendPointer, Distinct;
      ButtonDownSafe(p, code.value);
    }
  }

  lemma ButtonDownSafe(d: Desk, code: Byte)
    requires Safe(d) && Driving(d) && d.focused
    ensures Safe(SendInput(d.(buttons := Added(d.buttons, code)), Button(code, true)))
  {
    AddedIs(d.buttons, code);
    assert Distinct(d.held) && Distinct(d.buttons);
    SendSafe(d, Button(code, true), d.held, Added(d.buttons, code));
  }

  lemma PointerUpSafe(d: Desk, button: int)
    requires Safe(d)
    ensures Safe(OnPointerUp(d, button))
  {
    var code := ButtonCode(button);
    if Driving(d) && code.Some? && code.value in d.buttons {
      WithoutIs(d.buttons, code.value);
      assert Distinct(d.held) && Distinct(d.buttons);
      SendSafe(d, Button(code.value, false), d.held, Without(d.buttons, code.value));
    }
  }

  lemma DropSafe(d: Desk, open: bool)
    requires Safe(d) && (open ==> Replay(d.log) == NOTHING)
    ensures Safe(DropSocket(d, open).(granted := 0, held := [], buttons := []))
    ensures Safe(FRESH.(past := DropSocket(d, open).past)) && Safe(FRESH.(past := DropSocket(d, open).past, socket := Connecting))
  {
    assert Elements<Usage>([]) == {} && Elements<Byte>([]) == {};
  }

  lemma StreamSafe(d: Desk)
    requires Safe(d)
    ensures Safe(OnClose(d)) && Safe(CloseDesktop(d)) && Safe(HandOver(d, true)) && Safe(HandOver(d, false))
  {
    ReleaseSafe(d);
    DropSafe(ReleaseEverything(d), d.socket == Open);
    DropSafe(d, false);
  }

  /** The events that send nothing. */
  lemma QuietSafe(d: Desk, granted: Byte)
    requires Safe(d)
    ensures Safe(d.(focused := true))
    ensures d.socket == Connecting ==> Safe(d.(socket := Open))
    ensures d.socket != Absent ==> Safe(d.(socket := Closing))
    ensures d.socket == Open || d.socket == Closing ==> Safe(d.(granted := granted))
  {
    assert Elements<Usage>([]) == {} && Elements<Byte>([]) == {};
    hide NoStrayRelease, Distinct;
  }

  lemma BlurSafe(d: Desk)
    requires Safe(d)
    ensures Safe(OnBlur(d))
  {
    ReleaseSafe(d);
    hide NoStrayRelease, Distinct, Replay, Elements;
    assert d.focused ==> OnBlur(d) == ReleaseEverything(d).(focused := false);
  }

  lemma StepSafe(d: Desk, e: Event)
    requires Safe(d)
    ensures Safe(Step(d, e))
  {
    hide Safe, OnKey, OnPointerDown, OnPointerUp, OnBlur, OnClose, CloseDesktop, HandOver, ReleaseEverything, LiftModifiers, Typed;
    match e
    case KeyEvent(key, down, pressed, chord) => KeySafe(d, key, down, pressed, chord);
    case PointerMove(point) => if point.Some? { PlainSafe(d, Pointer(point.value.0, point.value.1)); }
    case PointerDown(button, point) => PointerDownSafe(d, button, point);
    case PointerUp(button) => PointerUpSafe(d, button);
    case Wheel(dx, dy) => PlainSafe(d, Scroll(dx, dy));
    case Focus => QuietSafe(d, 0);
    case Blur => BlurSafe(d);
    case ReleaseClick => ReleaseSafe(d);
    case PasteClick => if Driving(d) { PasteLetsGo(d); }
    case TextReady(payloads) => TypedSafe(d, payloads);
    case AskFull => PlainSafe(d, FullFrame);
    case SocketOpens => QuietSafe(d, 0);
    case SocketFails => QuietSafe(d, 0);
    case Hello(capabilities) => QuietSafe(d, capabilities);
    case CloseEvent => StreamSafe(d);
    case Disconnect => StreamSafe(d);
    case Replaced(_) => StreamSafe(d);
  }

  /** The whole safety property, over every run of a console from a fresh page:
      while the stream is open, carrying out what was sent gives exactly the keys and
      buttons the console believes in; no release was ever sent for something that
      was not down; without the focus nothing is held; and every stream given up
      while it could still be written to left the far machine holding nothing. */
  lemma {:induction false} HeldInputSafety(events: seq<Event>)
    ensures Safe(Run(FRESH, events))
    decreases |events|
  {
    if events != [] {
      HeldInputSafety(events[..|events| - 1]);
      StepSafe(Run(FRESH, events[..|events| - 1]), events[|events| - 1]);
    } else {
      assert Elements<Usage>([]) == {} && Elements<Byte>([]) == {};
    }
  }

  /** Nothing is believed in, and nothing is down on the stream it was done through. */
  predicate LetGo(before: Desk, after: Desk)
  {
    && after.held == [] && after.buttons == []
    && (before.socket == Open ==>
          if after.socket == Open then Replay(after.log) == NOTHING
          else |after.past| > 0 && after.past[|after.past| - 1].open && Replay(after.past[|after.past| - 1].log) == NOTHING)
  }

  lemma LetGoStep(d: Desk, e: Event)
    requires Safe(d) && (e.Blur? || e.ReleaseClick? || e.Disconnect? || e.Replaced?)
    ensures LetGo(d, Step(d, e))
    ensures e.Blur? || e.ReleaseClick? ==> Step(d, e).socket == d.socket
  {
    hide Driving, OnKey, OnPointerDown, OnPointerUp, SendPointer, SendInput, PasteToMachine, Typed;
    hide NoStrayRelease, Distinct, Elements;
    ReleaseSafe(d);
    if e.Blur? && !d.focused {
      UnfocusedLetGo(d);
    } else if e.Disconnect? || e.Replaced? {
      hide Safe, Replay;
      var clean := ReleaseEverything(d);
      assert d.socket == Open ==> DropSocket(clean, true).past == d.past + [Ended(true, clean.log)];
    } else {
      hide Safe, Replay;
    }
  }

  lemma UnfocusedLetGo(d: Desk)
    requires Safe(d) && !d.focused
    ensures LetGo(d, d)
  {
    EmptyIs(d.held);
    EmptyIs(d.buttons);
    hide Replay, NoStrayRelease, Distinct, Elements;
  }

  /** Whatever happened before, a blur, a hide, a handover, a disconnection or the
      release button leaves the console believing in nothing, and the far machine
      with nothing down on the stream it was done through. */
  lemma LettingGo(events: seq<Event>, e: Event)
    requires e.Blur? || e.ReleaseClick? || e.Disconnect? || e.Replaced?
    ensures LetGo(Run(FRESH, events), Run(FRESH, events + [e]))
  {
    assert (events + [e])[..|events|] == events;
    HeldInputSafety(events);
    LetGoStep(Run(FRESH, events), e);
    hide LetGo, Step;
  }

  // ---- the console as it runs ----

  /** `KeyDown` and `KeyUp` as the key handler promises them. */
  lemma KeyEnds(d: Desk, key: Option<Usage>, down: bool, pressed: Option<set<Role>>, chord: bool)
    requires Safe(d)
    ensures var after := OnKey(d, key, down, pressed, chord);
            && (d.granted / 2 % 2 == 1 && d.focused && d.socket == Open && !(chord && d.granted / 4 % 2 == 1)
                && key.Some? && down ==>
                  && key.value in after.held && key.value in Replay(after.log).keys
                  && after.log == d.log + Releases(Lost(d, pressed)) + [Key(key.value, true)])
            && (d.granted / 2 % 2 == 1 && d.focused && d.socket == Open && key.Some? && !down ==>
                  && key.value !in after.held && key.value !in Replay(after.log).keys
                  && after.log == d.log + Releases(Lost(d, pressed))
                                  + if StillHeld(d, pressed, key.value) then [Key(key.value, false)] else [])
  {
    hide OnKey, Safe, Replay, StillHeld, Lost;
    if d.granted / 2 % 2 == 1 && d.focused && key.Some? {
      if !down {
        KeyUp(d, key.value, pressed, chord);
      } else if !(chord && d.granted / 4 % 2 == 1) {
        KeyDown(d, key.value, pressed, chord);
      }
    }
  }

  /** `log` is what the present socket was given, `past` what earlier ones were. */
  class DeskInput {
    var socket: Socket
    var granted: Byte
    var focused: bool
    var held: seq<Usage>
    var buttons: seq<Byte>
    var log: seq<Input>
    var past: seq<Ended>

    function State(): Desk
      reads this
    {
      Desk(socket, granted, focused, held, buttons, log, past)
    }

    constructor ()
      ensures State() == FRESH && Safe(State())
    {
      socket, granted, focused, held, buttons, log, past := Absent, 0, false, [], [], [], [];
      new;
      HeldInputSafety([]);
    }

    method Send(m: Input) returns (sent: bool)
      modifies this
      ensures State() == SendInput(old(State()), m)
      ensures sent <==> Driving(old(State())) && old(socket) == Open
    {
      if granted / 2 % 2 != 1 || socket != Open {
        return false;
      }
      log := log + [m];
      return true;
    }

    method Press(key: Usage)
      modifies this
      ensures State() == PressKey(old(State()), key)
      ensures old(Safe(State()) && Driving(State()) && focused) ==> Safe(State())
    {
      hide Safe;
      if Safe(State()) && Driving(State()) && focused {
        PressSafe(State(), key);
      }
      if key !in held {
        held := held + [key];
      }
      var _ := Send(Key(key, true));
    }

    method Lift(key: Usage)
      modifies this
      ensures State() == LiftKey(old(State()), key)
      ensures old(Safe(State()) && Driving(State())) ==> Safe(State())
    {
      hide Safe;
      if Safe(State()) && Driving(State()) {
        LiftSafe(State(), key);
      }
      if key !in held {
        return;
      }
      held := Without(held, key);
      var _ := Send(Key(key, false));
    }

    method LiftEach(keys: seq<Usage>)
      modifies this
      ensures State() == LiftAll(old(State()), keys)
      ensures old(Safe(State()) && Driving(State())) ==> Safe(State())
    {
      hide Safe;
      if Safe(State()) && Driving(State()) {
        LiftAllSafe(State(), keys);
      }
      var k := 0;
      assert keys[..0] == [];
      while k < |keys|
        invariant 0 <= k <= |keys|
        invariant State() == LiftAll(old(State()), keys[..k])
      {
        assert keys[..k + 1][..k] == keys[..k];
        Lift(keys[k]);
        k := k + 1;
      }
      assert keys[..k] == keys;
    }

    method Release()
      modifies this
      ensures State() == ReleaseEverything(old(State()))
      ensures old(Safe(State())) ==> Safe(State())
    {
      hide Safe;
      if Safe(State()) {
        ReleaseSafe(State());
      }
      held, buttons := [], [];
      if socket == Open {
        log := log + [ReleaseAll];
      }
    }

    method Reconcile(pressed: Option<set<Role>>)
      modifies this
      ensures State() == Reconciled(old(State()), pressed)
      ensures old(Safe(State()) && Driving(State())) ==> Safe(State())
    {
      hide Safe;
      if Safe(State()) && Driving(State()) {
        LiftAllSafe(State(), if pressed == None then [] else Stranded(held, pressed.value));
      }
      if pressed == None {
        return;
      }
      var stranded := StrandedModifiers(held, pressed.value);
      LiftEach(stranded);
    }

    method Paste()
      requires Safe(State())
      modifies this
      ensures State() == PasteToMachine(old(State()))
      ensures Safe(State())
    {
      hide Safe;
      if Driving(State()) {
        PasteLetsGo(State());
      }
      if !Driving(State()) || !Bridging(State()) {
        return;
      }
      var keys := Sift(held, false);
      var modifiers := Sift(held, true);
      LiftEach(keys);
      LiftEach(modifiers);
    }

    method KeyHandler(key: Option<Usage>, down: bool, pressed: Option<set<Role>>, chord: bool)
      requires Safe(State())
      modifies this
      ensures State() == OnKey(old(State()), key, down, pressed, chord)
      ensures Safe(State())
      ensures old(granted / 2 % 2 == 1 && focused && socket == Open && !(chord && granted / 4 % 2 == 1)) && key.Some? && down ==>
                && key.value in held && key.value in Replay(log).keys
                && log == old(log) + Releases(Lost(old(State()), pressed)) + [Key(key.value, true)]
      ensures old(granted / 2 % 2 == 1 && focused && socket == Open) && key.Some? && !down ==>
                && key.value !in held && key.value !in Replay(log).keys
                && log == old(log) + Releases(Lost(old(State()), pressed))
                          + if StillHeld(old(State()), pressed, key.value) then [Key(key.value, false)] else []
    {
      hide Safe;
      KeySafe(State(), key, down, pressed, chord);
      KeyEnds(State(), key, down, pressed, chord);
      if !Driving(State()) || !focused {
        return;
      }
      Reconcile(pressed);
      if down && chord && Bridging(State()) {
        Paste();
        return;
      }
      if key == None {
        return;
      }
      if down {
        Press(key.value);
      } else {
        Lift(key.value);
      }
    }

    method PointerDownHandler(button: int, point: Option<(nat, nat)>)
      requires Safe(State())
      modifies this
      ensures State() == OnPointerDown(old(State()), button, point)
      ensures Safe(State())
    {
      hide Safe;
      PointerDownSafe(State(), button, point);
      var code := ButtonCode(button);
      if !Driving(State()) || !focused || code == None {
        return;
      }
      if point.Some? {
        var _ := Send(Pointer(point.value.0, point.value.1));
      }
      if code.value !in buttons {
        buttons := buttons + [code.value];
      }
      var _ := Send(Button(code.value, true));
    }

    method PointerUpHandler(button: int)
      requires Safe(State())
      modifies this
      ensures State() == OnPointerUp(old(State()), button)
      ensures Safe(State())
    {
      hide Safe;
      PointerUpSafe(State(), button);
      var code := ButtonCode(button);
      if !Driving(State()) || code == None {
        return;
      }
      if code.value !in buttons {
        return;
      }
      buttons := Without(buttons, code.value);
      var _ := Send(Button(code.value, false));
    }

    method BlurHandler()
      requires Safe(State())
      modifies this
      ensures State() == OnBlur(old(State()))
      ensures Safe(State())
    {
      hide Safe;
      BlurSafe(State());
      if !focused {
        return;
      }
      focused := false;
      Release();
    }

    method Drop(open: bool)
      modifies this
      ensures State() == DropSocket(old(State()), open)
    {
      var going := socket;
      if going == Absent {
        return;
      }
      socket := Absent;
      past := past + [Ended(open, log)];
      log := [];
    }

    method CloseHandler()
      requires Safe(State())
      modifies this
      ensures State() == OnClose(old(State()))
      ensures Safe(State())
    {
      hide Safe;
      StreamSafe(State());
      if socket == Absent {
        return;
      }
      held, buttons := [], [];
      Drop(false);
      granted := 0;
    }

    method Close()
      requires Safe(State())
      modifies this
      ensures State() == CloseDesktop(old(State()))
      ensures Safe(State())
    {
      hide Safe;
      StreamSafe(State());
      var open := socket == Open;
      Release();
      Drop(open);
      granted := 0;
    }

    method TakeOver(refused: bool)
      requires Safe(State())
      modifies this
      ensures State() == HandOver(old(State()), refused)
      ensures Safe(State())
    {
      hide Safe;
      StreamSafe(State());
      var open := socket == Open;
      Release();
      Drop(open);
      granted, focused, held, buttons, log := 0, false, [], [], [];
      if !refused {
        socket := Connecting;
      }
    }
  }

  method StrandedModifiers(held: seq<Usage>, pressed: set<Role>) returns (stranded: seq<Usage>)
    ensures stranded == Stranded(held, pressed)
  {
    stranded := [];
    for k := 0 to |ROLES|
      invariant stranded == StrandedFirst(held, pressed, k)
    {
      if ROLES[k] !in pressed {
        var sides := Sides(ROLES[k]);
        var first := if sides[0] in held then [sides[0]] else [];
        var second := if sides[1] in held then [sides[1]] else [];
        SeqAssociative(stranded, first, second);
        stranded := stranded + first + second;
      }
    }
  }

  method Sift(held: seq<Usage>, modifiers: bool) returns (kept: seq<Usage>)
    ensures kept == Kept(held, modifiers)
  {
    kept := [];
    for k := 0 to |held|
      invariant kept == Kept(held[..k], modifiers)
    {
      assert held[..k + 1][..k] == held[..k];
      if IsModifier(held[k]) == modifiers {
        kept := kept + [held[k]];
      }
    }
    assert held[..|held|] == held;
  }
}
