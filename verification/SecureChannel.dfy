/** The counter-nonce channel of `crypto_core.py`: `SecurityKeys.encrypt` and
    `decrypt`, with the replay and jump checks.

    The cipher is a parameter. `Aead` holds the two directions of section 2.8 of
    RFC 8439 as functions, `Correct` says that opening inverts sealing, and a
    network that cannot forge tags is the hypothesis `Authentic` on what it
    delivers; nothing else is assumed about either. */
module SecureChannel {
  import opened Bytes

  type Key = k: seq<Byte> | |k| == 32 witness seq(32, _ => 0)

  datatype Aead = Aead(
    seal: (Key, nat, seq<Byte>) -> seq<Byte>,
    open: (Key, nat, seq<Byte>) -> Option<seq<Byte>>)

  ghost predicate Correct(a: Aead)
  {
    forall k: Key, n: nat, p: seq<Byte> ::
      |a.seal(k, n, p)| == |p| + 16 && a.open(k, n, a.seal(k, n, p)) == Some(p)
  }

  datatype CryptoError = Exhausted | TooShort | Replayed | Jumped | Tampered

  const COUNTER_LIMIT := 18446744073709551616 - 1000
  const COUNTER_BYTES := 8
  const TAG_BYTES := 16
  const MAX_JUMP := 1000

  /** The four fields of `SecurityKeys` that decide anything. */
  datatype Keys = Keys(txKey: Key, rxKey: Key, txCounter: nat, rxCounter: int)

  function Fresh(txKey: Key, rxKey: Key): Keys
  {
    Keys(txKey, rxKey, 0, -1)
  }

  /** Which counters a receiver that last accepted `rx` will look at. */
  predicate InWindow(rx: int, counter: nat)
  {
    rx < counter <= rx + MAX_JUMP
  }

  function Encrypted(a: Aead, k: Keys, plaintext: seq<Byte>): (Result<seq<Byte>, CryptoError>, Keys)
  {
    if k.txCounter >= COUNTER_LIMIT then (Err(Exhausted), k)
    else (Ok(Le(k.txCounter, COUNTER_BYTES) + a.seal(k.txKey, k.txCounter, plaintext)),
          k.(txCounter := k.txCounter + 1))
  }

  function PacketCounter(packet: seq<Byte>): nat
    requires |packet| >= COUNTER_BYTES
  {
    UnLe(packet[..COUNTER_BYTES])
  }

  function Decrypted(a: Aead, k: Keys, packet: seq<Byte>): (Result<seq<Byte>, CryptoError>, Keys)
  {
    if |packet| < COUNTER_BYTES + TAG_BYTES then (Err(TooShort), k)
    else
      var counter := PacketCounter(packet);
      if counter <= k.rxCounter then (Err(Replayed), k)
      else if counter > k.rxCounter + MAX_JUMP then (Err(Jumped), k)
      else match a.open(k.rxKey, counter, packet[COUNTER_BYTES..])
        case None => (Err(Tampered), k)
        case Some(plaintext) => (Ok(plaintext), k.(rxCounter := counter))
  }

  /** The object both ends hold. */
  class SecurityKeys {
    const aead: Aead
    const txKey: Key
    const rxKey: Key
    var txCounter: nat
    var rxCounter: int

    constructor (aead: Aead, txKey: Key, rxKey: Key)
      ensures this.aead == aead && View() == Fresh(txKey, rxKey)
    {
      this.aead, this.txKey, this.rxKey := aead, txKey, rxKey;
      txCounter, rxCounter := 0, -1;
    }

    function View(): Keys
      reads this
    {
      Keys(txKey, rxKey, txCounter, rxCounter)
    }

    method Encrypt(plaintext: seq<Byte>) returns (r: Result<seq<Byte>, CryptoError>)
      modifies this
      ensures (r, View()) == Encrypted(aead, old(View()), plaintext)
      ensures r.Ok? <==> old(txCounter) < COUNTER_LIMIT
    {
      if txCounter >= COUNTER_LIMIT {
        return Err(Exhausted);
      }
      var ciphertext := aead.seal(txKey, txCounter, plaintext);
      r := Ok(Le(txCounter, COUNTER_BYTES) + ciphertext);
      txCounter := txCounter + 1;
    }

    method Decrypt(packet: seq<Byte>) returns (r: Result<seq<Byte>, CryptoError>)
      modifies this
      ensures (r, View()) == Decrypted(aead, old(View()), packet)
      ensures txCounter == old(txCounter)
      ensures if r.Ok? then InWindow(old(rxCounter), PacketCounter(packet)) && rxCounter == PacketCounter(packet)
              else rxCounter == old(rxCounter)
    {
      if |packet| < COUNTER_BYTES + TAG_BYTES {
        return Err(TooShort);
      }
      var counter := UnLe(packet[..COUNTER_BYTES]);
      if counter <= rxCounter {
        return Err(Replayed);
      }
      if counter > rxCounter + MAX_JUMP {
        return Err(Jumped);
      }
      var plain := aead.open(rxKey, counter, packet[COUNTER_BYTES..]);
      if plain == None {
        return Err(Tampered);
      }
      rxCounter := counter;
      r := Ok(plain.value);
    }
  }

  /** The packet byte by byte: eight bytes of counter, least significant first, and then
      the box sealed under that counter. Sealing ends a thousand short of 2^64. */
  lemma PacketLayout(a: Aead, k: Keys, plaintext: seq<Byte>)
    ensures Encrypted(a, k, plaintext).0.Ok? <==> k.txCounter < 18446744073709550616
    ensures Encrypted(a, k, plaintext).0.Ok? ==>
              var (r, k') := Encrypted(a, k, plaintext);
              && |r.value| >= 8 && r.value[8..] == a.seal(k.txKey, k.txCounter, plaintext)
              && r.value[0] + 256 * (r.value[1] as int) + 65536 * (r.value[2] as int) + 16777216 * (r.value[3] as int)
                 + 4294967296 * (r.value[4] as int) + 1099511627776 * (r.value[5] as int)
                 + 281474976710656 * (r.value[6] as int) + 72057594037927936 * (r.value[7] as int) == k.txCounter
              && k'.txCounter == k.txCounter + 1 && k' == k.(txCounter := k.txCounter + 1)
  {
    if k.txCounter < COUNTER_LIMIT {
      var packet := Encrypted(a, k, plaintext).0.value;
      Widths();
      LeRoundTrip(k.txCounter, 8);
      hide Le, UnLe, Pow256;
      assert packet[..8] == Le(k.txCounter, 8) && packet[8..] == a.seal(k.txKey, k.txCounter, plaintext);
      LittleEndian(packet[..8]);
    }
  }

  /** What is accepted, byte by byte: twenty-four bytes at least, a counter above the last
      one and at most a thousand above it, and a box that opens under that counter. */
  lemma AcceptsExactly(a: Aead, k: Keys, packet: seq<Byte>)
    ensures |packet| < 24 ==> Decrypted(a, k, packet) == (Err(TooShort), k)
    ensures |packet| >= 24 ==>
              var counter: nat :=
                packet[0] + 256 * (packet[1] as int) + 65536 * (packet[2] as int) + 16777216 * (packet[3] as int)
                + 4294967296 * (packet[4] as int) + 1099511627776 * (packet[5] as int)
                + 281474976710656 * (packet[6] as int) + 72057594037927936 * (packet[7] as int);
              var plain := a.open(k.rxKey, counter, packet[8..]);
              Decrypted(a, k, packet) ==
              if counter <= k.rxCounter then (Err(Replayed), k)
              else if counter > k.rxCounter + 1000 then (Err(Jumped), k)
              else if plain == None then (Err(Tampered), k)
              else (Ok(plain.value), k.(rxCounter := counter))
  {
    if |packet| >= 24 {
      LittleEndian(packet[..8]);
      hide UnLe;
    }
  }

  // ---- one packet, sealed at one end and opened at the other ----

  lemma {:induction false} OpenSealed(a: Aead, ks: Keys, kr: Keys, plaintext: seq<Byte>)
    requires Correct(a) && kr.rxKey == ks.txKey && ks.txCounter < COUNTER_LIMIT
    ensures var packet := Encrypted(a, ks, plaintext).0.value;
            |packet| == |plaintext| + COUNTER_BYTES + TAG_BYTES
            && PacketCounter(packet) == ks.txCounter
            && Decrypted(a, kr, packet) ==
               if ks.txCounter <= kr.rxCounter then (Err(Replayed), kr)
               else if ks.txCounter > kr.rxCounter + MAX_JUMP then (Err(Jumped), kr)
               else (Ok(plaintext), kr.(rxCounter := ks.txCounter))
  {
    var packet := Encrypted(a, ks, plaintext).0.value;
    var body := a.seal(ks.txKey, ks.txCounter, plaintext);
    assert |body| == |plaintext| + TAG_BYTES && a.open(ks.txKey, ks.txCounter, body) == Some(plaintext);
    assert packet[..COUNTER_BYTES] == Le(ks.txCounter, COUNTER_BYTES) && packet[COUNTER_BYTES..] == body;
    Widths();
    LeRoundTrip(ks.txCounter, COUNTER_BYTES);
  }

  // ---- whole runs over a hostile network ----

  /** One direction of a session: the sender's keys, the receiver's, every
      plaintext sealed so far with its nonce, everything delivered so far with
      the counter it was delivered under. */
  datatype Link = Link(
    sender: Keys, receiver: Keys,
    sealed: seq<(nat, seq<Byte>)>, delivered: seq<(nat, seq<Byte>)>)

  datatype Event = Send(plaintext: seq<Byte>) | Deliver(packet: seq<Byte>)

  function Open(ks: Keys, kr: Keys): Link
  {
    Link(ks, kr, [], [])
  }

  function Step(a: Aead, l: Link, e: Event): Link
  {
    match e
    case Send(plaintext) =>
      var (r, ks) := Encrypted(a, l.sender, plaintext);
      if r.Ok? then l.(sender := ks, sealed := l.sealed + [(l.sender.txCounter, plaintext)]) else l
    case Deliver(packet) =>
      var (r, kr) := Decrypted(a, l.receiver, packet);
      if r.Ok? then l.(receiver := kr, delivered := l.delivered + [(PacketCounter(packet), r.value)]) else l
  }

  function Run(a: Aead, l: Link, events: seq<Event>): Link
    decreases |events|
  {
    if events == [] then l else Run(a, Step(a, l, events[0]), events[1..])
  }

  /** The network may deliver any bytes at all, except a packet that opens under
      the receiver's key to something the sender never sealed under that counter. */
  ghost predicate Authentic(a: Aead, l: Link, e: Event)
  {
    e.Deliver? && |e.packet| >= COUNTER_BYTES ==>
      var counter := PacketCounter(e.packet);
      match a.open(l.receiver.rxKey, counter, e.packet[COUNTER_BYTES..])
      case None => true
      case Some(plaintext) => (counter, plaintext) in l.sealed
  }

  /** How much the network can do: anything that does not open, and anything that was sealed. */
  lemma NetworkCan(a: Aead, l: Link, e: Event)
    ensures e.Send? ==> Authentic(a, l, e)
    ensures e.Deliver? && |e.packet| < 8 ==> Authentic(a, l, e)
    ensures e.Deliver? && |e.packet| >= 8 && a.open(l.receiver.rxKey, UnLe(e.packet[..8]), e.packet[8..]) == None ==>
              Authentic(a, l, e)
    ensures e.Deliver? && |e.packet| >= 8 && a.open(l.receiver.rxKey, UnLe(e.packet[..8]), e.packet[8..]).Some?
            && (UnLe(e.packet[..8]), a.open(l.receiver.rxKey, UnLe(e.packet[..8]), e.packet[8..]).value) in l.sealed ==>
              Authentic(a, l, e)
  {
  }

  ghost predicate AuthenticRun(a: Aead, l: Link, events: seq<Event>)
    decreases |events|
  {
    events == [] || (Authentic(a, l, events[0]) && AuthenticRun(a, Step(a, l, events[0]), events[1..]))
  }

  /** Counters climb strictly. */
  ghost predicate Climbing<T>(log: seq<(nat, T)>)
  {
    forall i, j :: 0 <= i < j < |log| ==> log[i].0 < log[j].0
  }

  ghost predicate Sound(l: Link)
  {
    && Climbing(l.sealed) && Climbing(l.delivered)
    && (forall i :: 0 <= i < |l.sealed| ==> l.sealed[i].0 < l.sender.txCounter)
    && l.sender.txCounter <= COUNTER_LIMIT
    && (forall i :: 0 <= i < |l.delivered| ==> l.delivered[i] in l.sealed && l.delivered[i].0 <= l.receiver.rxCounter)
  }

  lemma SoundStep(a: Aead, l: Link, e: Event)
    requires Sound(l) && Authentic(a, l, e)
    ensures Sound(Step(a, l, e))
    ensures l.sealed <= Step(a, l, e).sealed
  {
    var l' := Step(a, l, e);
    if e.Send? && l' != l {
      assert l'.sealed[..|l.sealed|] == l.sealed;
      forall x | x in l.sealed ensures x in l'.sealed {
        var i :| 0 <= i < |l.sealed| && l.sealed[i] == x;
        assert l'.sealed[i] == x;
      }
    }
  }

  lemma {:induction false} SoundRun(a: Aead, l: Link, events: seq<Event>)
    requires Sound(l) && AuthenticRun(a, l, events)
    ensures Sound(Run(a, l, events))
    decreases |events|
  {
    if events != [] {
      SoundStep(a, l, events[0]);
      SoundRun(a, Step(a, l, events[0]), events[1..]);
    }
  }

  /** `xs` is what is left of `ys` after deleting some elements. */
  ghost predicate Subsequence<T>(xs: seq<T>, ys: seq<T>)
    decreases |ys|
  {
    if xs == [] then true
    else if ys == [] then false
    else (xs[0] == ys[0] && Subsequence(xs[1..], ys[1..])) || Subsequence(xs, ys[1..])
  }

  function Plaintexts<T>(log: seq<(nat, T)>): (s: seq<T>)
    ensures |s| == |log|
  {
    seq(|log|, i requires 0 <= i < |log| => log[i].1)
  }

  lemma {:induction false} ClimbingSubsequence<T>(xs: seq<(nat, T)>, ys: seq<(nat, T)>)
    requires Climbing(xs) && Climbing(ys)
    requires forall i :: 0 <= i < |xs| ==> xs[i] in ys
    ensures Subsequence(Plaintexts(xs), Plaintexts(ys))
    decreases |ys|
  {
    if xs != [] {
      var k :| 0 <= k < |ys| && ys[k] == xs[0];
      assert Plaintexts(ys)[1..] == Plaintexts(ys[1..]);
      assert Plaintexts(xs)[1..] == Plaintexts(xs[1..]);
      if k == 0 {
        forall i | 0 <= i < |xs[1..]| ensures xs[1..][i] in ys[1..] {
          var m :| 0 <= m < |ys| && ys[m] == xs[i + 1];
          assert ys[1..][m - 1] == xs[i + 1];
        }
        ClimbingSubsequence(xs[1..], ys[1..]);
      } else {
        forall i | 0 <= i < |xs| ensures xs[i] in ys[1..] {
          var m :| 0 <= m < |ys| && ys[m] == xs[i];
          assert m > 0;
          assert ys[1..][m - 1] == xs[i];
        }
        ClimbingSubsequence(xs, ys[1..]);
      }
    }
  }

  /** Channel safety. Whatever the network drops, repeats, reorders or makes up,
      what comes out is what went in with some plaintexts missing: in order, each
      at most once. */
  lemma ChannelSafety(a: Aead, ks: Keys, kr: Keys, events: seq<Event>)
    requires ks.txCounter <= COUNTER_LIMIT && AuthenticRun(a, Open(ks, kr), events)
    ensures var l := Run(a, Open(ks, kr), events);
            Subsequence(Plaintexts(l.delivered), Plaintexts(l.sealed)) && Climbing(l.delivered)
  {
    SoundRun(a, Open(ks, kr), events);
    var l := Run(a, Open(ks, kr), events);
    ClimbingSubsequence(l.delivered, l.sealed);
  }

  /** No nonce is used twice under a key, whatever the network does: the nonces
      sealed in a run are consecutive from the sender's first. */
  lemma {:induction false} NoncesConsecutive(a: Aead, l: Link, events: seq<Event>)
    requires forall i :: 0 <= i < |l.sealed| ==> l.sealed[i].0 == l.sender.txCounter - |l.sealed| + i
    ensures var l' := Run(a, l, events);
            && |l'.sealed| - |l.sealed| == l'.sender.txCounter - l.sender.txCounter
            && (forall i :: 0 <= i < |l'.sealed| ==> l'.sealed[i].0 == l'.sender.txCounter - |l'.sealed| + i)
            && (forall i, j :: 0 <= i < j < |l'.sealed| ==> l'.sealed[i].0 != l'.sealed[j].0)
    decreases |events|
  {
    if events != [] {
      NoncesConsecutive(a, Step(a, l, events[0]), events[1..]);
    }
  }

  // ---- exact liveness of the jump window ----

  /** Packets sent one after another, `arrives[i]` saying whether the i-th one
      reaches the receiver; `Delivery(...)[i]` says whether it was accepted. */
  function Delivery(a: Aead, ks: Keys, kr: Keys, plaintexts: seq<seq<Byte>>, arrives: seq<bool>): (accepted: seq<bool>)
    requires |plaintexts| == |arrives|
    ensures |accepted| == |arrives|
    decreases |arrives|
  {
    if arrives == [] then []
    else
      var (sealed, ks') := Encrypted(a, ks, plaintexts[0]);
      if sealed.Err? then seq(|arrives|, _ => false)
      else
        var (out, kr') := if arrives[0] then Decrypted(a, kr, sealed.value) else (Err(TooShort), kr);
        [out.Ok?] + Delivery(a, ks', kr', plaintexts[1..], arrives[1..])
  }

  /** None of `arrives[from..to]` reached the receiver. */
  ghost predicate AllLost(arrives: seq<bool>, from: nat, to: nat)
    requires from <= to <= |arrives|
  {
    forall k :: from <= k < to ==> !arrives[k]
  }

  /** A thousand consecutive losses start at `s` and end before `i`. */
  ghost predicate LongGap(arrives: seq<bool>, s: nat, i: nat)
    requires i <= |arrives|
  {
    s + MAX_JUMP <= i && AllLost(arrives, s, s + MAX_JUMP)
  }

  ghost predicate Severed(arrives: seq<bool>, i: nat)
    requires i <= |arrives|
  {
    exists s: nat :: LongGap(arrives, s, i)
  }

  lemma SeveredTail(arrives: seq<bool>, i: nat)
    requires 0 < i <= |arrives|
    ensures Severed(arrives, i) <==> Severed(arrives[1..], i - 1) || LongGap(arrives, 0, i)
  {
    var rest := arrives[1..];
    assert forall k :: 0 < k < |arrives| ==> arrives[k] == rest[k - 1];
    if Severed(arrives, i) {
      var s: nat :| LongGap(arrives, s, i);
      if s > 0 {
        assert LongGap(rest, s - 1, i - 1);
      }
    }
    if Severed(rest, i - 1) {
      var s: nat :| LongGap(rest, s, i - 1);
      assert LongGap(arrives, s + 1, i);
    }
  }

  /** The losses that open `arrives` complete a gap that already holds `lost`. */
  ghost predicate GapCloses(arrives: seq<bool>, lost: nat, i: nat)
    requires i <= |arrives|
  {
    lost >= MAX_JUMP || (MAX_JUMP - lost <= i && AllLost(arrives, 0, MAX_JUMP - lost))
  }

  /** One packet sent, and taken if it arrives within the window. */
  lemma DeliveryTurn(a: Aead, ks: Keys, kr: Keys, plaintexts: seq<seq<Byte>>, arrives: seq<bool>, lost: nat)
    requires |plaintexts| == |arrives| > 0
    requires Correct(a) && kr.rxKey == ks.txKey && ks.txCounter < COUNTER_LIMIT && ks.txCounter == kr.rxCounter + 1 + lost
    ensures var taken := arrives[0] && lost < MAX_JUMP;
            var ks', kr' := ks.(txCounter := ks.txCounter + 1), if taken then kr.(rxCounter := ks.txCounter) else kr;
            Delivery(a, ks, kr, plaintexts, arrives) == [taken] + Delivery(a, ks', kr', plaintexts[1..], arrives[1..])
  {
    OpenSealed(a, ks, kr, plaintexts[0]);
    hide Correct, Decrypted;
  }

  /** How a gap of losses goes on, or ends, with one packet. */
  lemma GapTurn(arrives: seq<bool>, lost: nat, i: nat)
    requires 0 < i < |arrives|
    ensures var rest, now := arrives[1..], if arrives[0] && lost < MAX_JUMP then 0 else lost + 1;
            GapCloses(arrives, lost, i) || Severed(arrives, i) <==> GapCloses(rest, now, i - 1) || Severed(rest, i - 1)
  {
    var rest := arrives[1..];
    assert forall k :: 0 < k < |arrives| ==> arrives[k] == rest[k - 1];
    SeveredTail(arrives, i);
    assert GapCloses(rest, 0, i - 1) ==> LongGap(rest, 0, i - 1);
    assert GapCloses(arrives, 0, i) <==> LongGap(arrives, 0, i);
  }

  /** `lost` packets have gone missing since the last one accepted; the session is
      dead once that number reaches `MAX_JUMP`. */
  lemma {:induction false} DeliveryFrom(a: Aead, ks: Keys, kr: Keys, plaintexts: seq<seq<Byte>>, arrives: seq<bool>,
                                        lost: nat, i: nat)
    requires |plaintexts| == |arrives| && i < |arrives|
    requires Correct(a) && kr.rxKey == ks.txKey && ks.txCounter + |arrives| <= COUNTER_LIMIT
    requires ks.txCounter == kr.rxCounter + 1 + lost
    ensures Delivery(a, ks, kr, plaintexts, arrives)[i]
       <==> arrives[i] && !GapCloses(arrives, lost, i) && !Severed(arrives, i)
    decreases |arrives|
  {
    DeliveryTurn(a, ks, kr, plaintexts, arrives, lost);
    hide Correct, Delivery;
    if i > 0 {
      GapTurn(arrives, lost, i);
      hide GapCloses, Severed;
      var ks' := ks.(txCounter := ks.txCounter + 1);
      if arrives[0] && lost < MAX_JUMP {
        DeliveryFrom(a, ks', kr.(rxCounter := ks.txCounter), plaintexts[1..], arrives[1..], 0, i - 1);
      } else {
        DeliveryFrom(a, ks', kr, plaintexts[1..], arrives[1..], lost + 1, i - 1);
      }
    }
  }

  /** Exact liveness: of packets sent one after another on a synchronised
      session, the i-th is accepted if and only if it arrives and no thousand
      consecutive packets before it were lost. So a gap of 999 heals, and after a
      gap of 1000 nothing is ever accepted again. */
  lemma JumpWindowExact(a: Aead, ks: Keys, kr: Keys, plaintexts: seq<seq<Byte>>, arrives: seq<bool>, i: nat)
    requires |plaintexts| == |arrives| && i < |arrives|
    requires Correct(a) && kr.rxKey == ks.txKey && ks.txCounter + |arrives| <= COUNTER_LIMIT
    requires ks.txCounter == kr.rxCounter + 1
    ensures Delivery(a, ks, kr, plaintexts, arrives)[i] <==> arrives[i] && !Severed(arrives, i)
  {
    DeliveryFrom(a, ks, kr, plaintexts, arrives, 0, i);
    assert GapCloses(arrives, 0, i) ==> LongGap(arrives, 0, i);
  }
}
