/** Every run of the handshake and of the channel it opens, with any number of
    sessions at both ends and a network that decides what every packet says.

    The network may drop, repeat, reorder and invent. It cannot guess an
    ephemeral before it is drawn, sign for either pinned identity, or seal under
    a key made of two ephemerals it does not hold; everything the two ends have
    signed or sealed it may replay anywhere. */
module HandshakeRuns {
  import opened Bytes
  import opened Handshake

  /** `seen` is every share that has been drawn or has appeared in a packet. */
  datatype World = World(clients: seq<Client>, servers: seq<Server>, seen: set<nat>)

  datatype Event =
    | StartClient(eph: nat, now: Time)
    | ClientAnswered(client: nat, packet: Packet, now: Time)
    | ServerGreeted(packet: Packet, eph: nat, now: Time)
    | ServerProved(server: nat, packet: Packet)
    | ClientSends(client: nat, data: seq<Byte>)
    | ServerSends(server: nat, data: seq<Byte>)
    | ClientReceives(client: nat, packet: Packet)
    | ServerReceives(server: nat, packet: Packet)

  const START := World([], [], {})

  function Mentions(packet: Packet): set<nat>
  {
    if (packet.Hello? || packet.SignedHello?) && packet.eph.Point? then {packet.eph.id} else {}
  }

  function OnConn(c: Client, conn: Conn): Client
    requires c.phase.Established?
  {
    c.(phase := c.phase.(conn := conn))
  }

  function Step(pins: Pins, w: World, e: Event): World
  {
    match e
    case StartClient(eph, now) =>
      w.(clients := w.clients + [Client(eph, now, Awaiting)], seen := w.seen + {eph})
    case ClientAnswered(i, packet, now) =>
      var w' := w.(seen := w.seen + Mentions(packet));
      if i < |w.clients| then w'.(clients := w.clients[i := ClientHears(pins, w.clients[i], packet, now)]) else w'
    case ServerGreeted(packet, eph, now) =>
      var w' := w.(seen := w.seen + Mentions(packet) + {eph});
      var hello := CheckClientHello(pins, packet, now);
      if hello.Err? then w'
      else
        var (clientEph, clientTime) := hello.value;
        var conn := DeriveSessionKeys(Ecdh(eph, clientEph), false);
        w'.(servers := w.servers + [Server(eph, clientEph, clientTime, now, false, conn)])
    case ServerProved(j, packet) =>
      if j < |w.servers| then w.(servers := w.servers[j := ServerHearsAuth(pins, w.servers[j], packet)]) else w
    case ClientSends(i, data) =>
      if i < |w.clients| && w.clients[i].phase.Established? then
        w.(clients := w.clients[i := OnConn(w.clients[i], Sends(w.clients[i].phase.conn, data))])
      else w
    case ServerSends(j, data) =>
      if j < |w.servers| && w.servers[j].accepted then
        w.(servers := w.servers[j := w.servers[j].(conn := Sends(w.servers[j].conn, data))])
      else w
    case ClientReceives(i, packet) =>
      if i < |w.clients| && w.clients[i].phase.Established? then
        w.(clients := w.clients[i := OnConn(w.clients[i], Hears(w.clients[i].phase.conn, packet))])
      else w
    case ServerReceives(j, packet) =>
      if j < |w.servers| && w.servers[j].accepted then
        w.(servers := w.servers[j := w.servers[j].(conn := Hears(w.servers[j].conn, packet))])
      else w
  }

  // ---- what the network can know ----

  ghost predicate ClientSigned(w: World, i: nat, t: Transcript)
  {
    i < |w.clients| && w.clients[i].phase.Established? && ClientTranscript(w.clients[i]) == t
  }

  ghost predicate ServerSigned(w: World, j: nat, t: Transcript)
  {
    j < |w.servers| && ServerTranscript(w.servers[j]) == t
  }

  ghost predicate Endorsed(pins: Pins, w: World, signer: Identity, t: Transcript)
  {
    || (signer == pins.client && exists i: nat :: ClientSigned(w, i, t))
    || (signer == pins.server && exists j: nat :: ServerSigned(w, j, t))
  }

  predicate SealedIn(conn: Conn, key: SymKey, nonce: nat, plain: Plain)
  {
    conn.tx == key && nonce < |conn.sent| && conn.sent[nonce] == plain
  }

  ghost predicate ClientSealed(w: World, i: nat, key: SymKey, nonce: nat, plain: Plain)
  {
    i < |w.clients| && w.clients[i].phase.Established? && SealedIn(w.clients[i].phase.conn, key, nonce, plain)
  }

  ghost predicate ServerSealed(w: World, j: nat, key: SymKey, nonce: nat, plain: Plain)
  {
    j < |w.servers| && SealedIn(w.servers[j].conn, key, nonce, plain)
  }

  ghost predicate SealedByUs(w: World, key: SymKey, nonce: nat, plain: Plain)
  {
    || (exists i: nat :: ClientSealed(w, i, key, nonce, plain))
    || (exists j: nat :: ServerSealed(w, j, key, nonce, plain))
  }

  ghost predicate DrawnByClient(w: World, i: nat, eph: nat)
  {
    i < |w.clients| && w.clients[i].eph == eph
  }

  ghost predicate DrawnByServer(w: World, j: nat, eph: nat)
  {
    j < |w.servers| && w.servers[j].eph == eph
  }

  /** One of the two ends drew this ephemeral, so its private half is not the network's. */
  ghost predicate Ours(w: World, eph: nat)
  {
    (exists i: nat :: DrawnByClient(w, i, eph)) || (exists j: nat :: DrawnByServer(w, j, eph))
  }

  ghost predicate Private(w: World, key: SymKey)
  {
    Ours(w, key.secret.lo) && Ours(w, key.secret.hi)
  }

  ghost predicate KnownSignature(pins: Pins, w: World, sig: Signature)
  {
    sig.Signed? && (sig.signer == pins.client || sig.signer == pins.server) ==> Endorsed(pins, w, sig.signer, sig.over)
  }

  ghost predicate Known(pins: Pins, w: World, packet: Packet)
  {
    if packet.SignedHello? then KnownSignature(pins, w, packet.sig)
    else if packet.Boxed? && packet.cipher.Sealed? then
      var box := packet.cipher;
      || SealedByUs(w, box.key, box.nonce, box.plain)
      || (!Private(w, box.key) && (box.plain.AuthPlain? ==> KnownSignature(pins, w, box.plain.sig)))
    else true
  }

  ghost predicate Possible(pins: Pins, w: World, e: Event)
  {
    match e
    case StartClient(eph, _) => eph !in w.seen
    case ServerGreeted(packet, eph, _) => eph !in w.seen + Mentions(packet) && Known(pins, w, packet)
    case ClientSends(_, _) => true
    case ServerSends(_, _) => true
    case _ => Known(pins, w, e.packet)
  }

  /** How much the network can do: it can send anything in the clear, any signature of a
      stranger, anything an end signed or sealed before, and anything boxed under a key
      that is not private to the two ends, except a signature of theirs it never saw. */
  lemma NetworkCan(pins: Pins, w: World, packet: Packet, e: Event)
    ensures packet.Hello? || packet.Fragment? || (packet.Boxed? && packet.cipher.Noise?) ==> Known(pins, w, packet)
    ensures packet.SignedHello? && !packet.sig.Signed? ==> Known(pins, w, packet)
    ensures packet.SignedHello? && packet.sig.Signed? && packet.sig.signer != pins.client && packet.sig.signer != pins.server ==>
              Known(pins, w, packet)
    ensures packet.SignedHello? && packet.sig.Signed? && Endorsed(pins, w, packet.sig.signer, packet.sig.over) ==>
              Known(pins, w, packet)
    ensures packet.Boxed? && packet.cipher.Sealed? && SealedByUs(w, packet.cipher.key, packet.cipher.nonce, packet.cipher.plain) ==>
              Known(pins, w, packet)
    ensures packet.Boxed? && packet.cipher.Sealed? && !Private(w, packet.cipher.key) && !packet.cipher.plain.AuthPlain? ==>
              Known(pins, w, packet)
    ensures e.ClientSends? || e.ServerSends? ==> Possible(pins, w, e)
    ensures (e.ClientAnswered? || e.ServerProved? || e.ClientReceives? || e.ServerReceives?) && Known(pins, w, e.packet) ==>
              Possible(pins, w, e)
    ensures e.StartClient? && e.eph !in w.seen ==> Possible(pins, w, e)
    ensures e.ServerGreeted? && e.eph !in w.seen && e.eph !in Mentions(e.packet) && Known(pins, w, e.packet) ==> Possible(pins, w, e)
  {
    hide Endorsed, SealedByUs, Private;
  }

  function Run(pins: Pins, w: World, events: seq<Event>): World
    decreases |events|
  {
    if events == [] then w else Run(pins, Step(pins, w, events[0]), events[1..])
  }

  ghost predicate PossibleRun(pins: Pins, w: World, events: seq<Event>)
    decreases |events|
  {
    events == [] || (Possible(pins, w, events[0]) && PossibleRun(pins, Step(pins, w, events[0]), events[1..]))
  }

  // ---- nothing is ever taken back ----

  ghost predicate ConnGrows(k: Conn, k': Conn)
  {
    k'.tx == k.tx && k'.rx == k.rx && k.sent <= k'.sent && k.got <= k'.got && k.rxCounter <= k'.rxCounter
  }

  ghost predicate ClientGrows(c: Client, c': Client)
  {
    && c'.eph == c.eph && c'.time == c.time
    && (c.phase.Established? ==>
          && c'.phase.Established? && c'.phase.serverEph == c.phase.serverEph && c'.phase.serverTime == c.phase.serverTime
          && ConnGrows(c.phase.conn, c'.phase.conn))
  }

  ghost predicate ServerGrows(s: Server, s': Server)
  {
    && s'.eph == s.eph && s'.clientEph == s.clientEph && s'.clientTime == s.clientTime && s'.serverTime == s.serverTime
    && (s.accepted ==> s'.accepted) && ConnGrows(s.conn, s'.conn)
  }

  ghost predicate Grows(w: World, w': World)
  {
    && |w.clients| <= |w'.clients| && |w.servers| <= |w'.servers| && w.seen <= w'.seen
    && (forall i :: 0 <= i < |w.clients| ==> ClientGrows(w.clients[i], w'.clients[i]))
    && (forall j :: 0 <= j < |w.servers| ==> ServerGrows(w.servers[j], w'.servers[j]))
  }

  lemma StepGrows(pins: Pins, w: World, e: Event)
    ensures Grows(w, Step(pins, w, e))
  {
  }

  lemma SealedGrows(w: World, w': World, key: SymKey, nonce: nat, plain: Plain)
    requires Grows(w, w') && SealedByUs(w, key, nonce, plain)
    ensures SealedByUs(w', key, nonce, plain)
  {
    if i: nat :| ClientSealed(w, i, key, nonce, plain) {
      assert ClientSealed(w', i, key, nonce, plain);
    } else {
      var j: nat :| ServerSealed(w, j, key, nonce, plain);
      assert ServerSealed(w', j, key, nonce, plain);
    }
  }

  // ---- the invariant ----

  /** Ephemerals are never shared, and no server was greeted with a share drawn later. */
  ghost predicate Distinct(w: World)
  {
    && (forall i, k :: 0 <= i < k < |w.clients| ==> w.clients[i].eph != w.clients[k].eph)
    && (forall j, k :: 0 <= j < k < |w.servers| ==>
          w.servers[j].eph != w.servers[k].eph && w.servers[j].clientEph != w.servers[k].eph)
    && (forall i, j :: 0 <= i < |w.clients| && 0 <= j < |w.servers| ==> w.clients[i].eph != w.servers[j].eph)
    && (forall i :: 0 <= i < |w.clients| ==> w.clients[i].eph in w.seen)
    && (forall j :: 0 <= j < |w.servers| ==> w.servers[j].eph in w.seen && w.servers[j].clientEph in w.seen)
    && (forall j :: 0 <= j < |w.servers| ==> w.servers[j].eph != w.servers[j].clientEph)
  }

  /** Received counters climb, and under a private key only what was sealed is received. */
  ghost predicate ConnOk(w: World, k: Conn)
  {
    && Orderly(k)
    && (Private(w, k.rx) ==> forall m :: 0 <= m < |k.got| ==> SealedByUs(w, k.rx, k.got[m].0, k.got[m].1))
  }

  ghost predicate ClientOk(pins: Pins, w: World, c: Client)
  {
    c.phase.Established? ==>
      var k, secret, t := c.phase.conn, Ecdh(c.eph, c.phase.serverEph), ClientTranscript(c);
      && k.tx == Hkdf(secret, ClientTx) && k.rx == Hkdf(secret, ServerTx)
      && (exists j: nat :: ServerSigned(w, j, t))
      && |k.sent| >= 1 && k.sent[0] == AuthOf(pins, t)
      && (forall n :: 1 <= n < |k.sent| ==> k.sent[n].DataPlain?)
      && ConnOk(w, k)
  }

  ghost predicate ServerOk(pins: Pins, w: World, s: Server)
  {
    var k, secret := s.conn, Ecdh(s.eph, s.clientEph);
    && k.tx == Hkdf(secret, ServerTx) && k.rx == Hkdf(secret, ClientTx)
    && (s.accepted && pins.client != pins.server ==> exists i: nat :: ClientSigned(w, i, ServerTranscript(s)))
    && (if s.accepted then k.got != [] else k.sent == [])
    && (forall n :: 0 <= n < |k.sent| ==> k.sent[n].DataPlain?)
    && ConnOk(w, k)
  }

  ghost predicate Inv(pins: Pins, w: World)
  {
    && Distinct(w)
    && (forall i :: 0 <= i < |w.clients| ==> ClientOk(pins, w, w.clients[i]))
    && (forall j :: 0 <= j < |w.servers| ==> ServerOk(pins, w, w.servers[j]))
  }

  /** No share seen so far turns out to have been drawn by one of the two ends. */
  ghost predicate Settled(w: World, w': World)
  {
    forall x :: x in w.seen && Ours(w', x) ==> Ours(w, x)
  }

  lemma ConnKept(w: World, w': World, k: Conn)
    requires Grows(w, w') && Settled(w, w') && ConnOk(w, k)
    requires k.rx.secret.lo in w.seen && k.rx.secret.hi in w.seen
    ensures ConnOk(w', k)
  {
    if Private(w', k.rx) {
      forall m | 0 <= m < |k.got| ensures SealedByUs(w', k.rx, k.got[m].0, k.got[m].1) {
        SealedGrows(w, w', k.rx, k.got[m].0, k.got[m].1);
      }
    }
  }

  lemma ClientKept(pins: Pins, w: World, w': World, c: Client)
    requires Grows(w, w') && Settled(w, w') && Distinct(w) && ClientOk(pins, w, c) && c.eph in w.seen
    ensures ClientOk(pins, w', c)
  {
    if c.phase.Established? {
      var j: nat :| ServerSigned(w, j, ClientTranscript(c));
      assert ServerSigned(w', j, ClientTranscript(c));
      assert c.phase.serverEph == w.servers[j].eph;
      ConnKept(w, w', c.phase.conn);
    }
  }

  lemma ServerKept(pins: Pins, w: World, w': World, s: Server)
    requires Grows(w, w') && Settled(w, w') && ServerOk(pins, w, s) && s.eph in w.seen && s.clientEph in w.seen
    ensures ServerOk(pins, w', s)
  {
    if s.accepted && pins.client != pins.server {
      var i: nat :| ClientSigned(w, i, ServerTranscript(s));
      assert ClientSigned(w', i, ServerTranscript(s));
    }
    ConnKept(w, w', s.conn);
  }

  /** Receiving keeps a connection sound: under a private key the network can only
      hand over what was sealed. */
  lemma ConnHears(pins: Pins, w: World, k: Conn, packet: Packet)
    requires ConnOk(w, k) && Known(pins, w, packet) && Unseal(k, packet).Ok?
    ensures ConnOk(w, Unseal(k, packet).value.1)
  {
    var k' := Unseal(k, packet).value.1;
    assert packet.cipher == Sealed(k.rx, packet.counter, packet.cipher.plain);
    if Private(w, k.rx) {
      assert SealedByUs(w, k.rx, packet.counter, packet.cipher.plain);
    }
  }

  // ---- every event keeps it ----

  lemma SameDraws(w: World, w': World)
    requires Grows(w, w') && |w'.clients| == |w.clients| && |w'.servers| == |w.servers|
    ensures Settled(w, w') && (Distinct(w) ==> Distinct(w'))
    ensures forall x :: Ours(w', x) <==> Ours(w, x)
  {
    forall x ensures Ours(w', x) <==> Ours(w, x) {
      if i: nat :| DrawnByClient(w', i, x) {
        assert DrawnByClient(w, i, x);
      } else if j: nat :| DrawnByServer(w', j, x) {
        assert DrawnByServer(w, j, x);
      }
      if i: nat :| DrawnByClient(w, i, x) {
        assert DrawnByClient(w', i, x);
      } else if j: nat :| DrawnByServer(w, j, x) {
        assert DrawnByServer(w', j, x);
      }
    }
  }

  lemma ClientUpdated(pins: Pins, w: World, w': World, i: nat)
    requires Inv(pins, w) && Grows(w, w') && i < |w.clients| && w'.servers == w.servers
    requires w'.clients == w.clients[i := w'.clients[i]] && ClientOk(pins, w', w'.clients[i])
    ensures Inv(pins, w')
  {
    SameDraws(w, w');
    forall k | 0 <= k < |w'.clients| ensures ClientOk(pins, w', w'.clients[k]) {
      if k != i {
        ClientKept(pins, w, w', w.clients[k]);
      }
    }
    forall j | 0 <= j < |w'.servers| ensures ServerOk(pins, w', w'.servers[j]) {
      ServerKept(pins, w, w', w.servers[j]);
    }
  }

  lemma ServerUpdated(pins: Pins, w: World, w': World, j: nat)
    requires Inv(pins, w) && Grows(w, w') && j < |w.servers| && w'.clients == w.clients
    requires w'.servers == w.servers[j := w'.servers[j]] && ServerOk(pins, w', w'.servers[j])
    ensures Inv(pins, w')
  {
    SameDraws(w, w');
    forall i | 0 <= i < |w'.clients| ensures ClientOk(pins, w', w'.clients[i]) {
      ClientKept(pins, w, w', w.clients[i]);
    }
    forall k | 0 <= k < |w'.servers| ensures ServerOk(pins, w', w'.servers[k]) {
      if k != j {
        ServerKept(pins, w, w', w.servers[k]);
      }
    }
  }

  /** Nothing but `seen` changed. */
  lemma OnlySeen(pins: Pins, w: World, w': World)
    requires Inv(pins, w) && w'.clients == w.clients && w'.servers == w.servers && w.seen <= w'.seen
    ensures Inv(pins, w')
  {
    SameDraws(w, w');
    forall i | 0 <= i < |w'.clients| ensures ClientOk(pins, w', w'.clients[i]) {
      ClientKept(pins, w, w', w.clients[i]);
    }
    forall j | 0 <= j < |w'.servers| ensures ServerOk(pins, w', w'.servers[j]) {
      ServerKept(pins, w, w', w.servers[j]);
    }
  }

  /** A session was added whose ephemeral nobody had seen. */
  lemma Added(pins: Pins, w: World, w': World)
    requires Inv(pins, w) && Grows(w, w')
    requires || (w'.servers == w.servers && |w'.clients| == |w.clients| + 1 && w'.clients[..|w.clients|] == w.clients
                 && w'.clients[|w.clients|].eph !in w.seen && w'.clients[|w.clients|].phase.Awaiting?)
             || (w'.clients == w.clients && |w'.servers| == |w.servers| + 1 && w'.servers[..|w.servers|] == w.servers
                 && w'.servers[|w.servers|].eph !in w.seen && ServerOk(pins, w', w'.servers[|w.servers|]))
    requires Distinct(w')
    ensures Inv(pins, w')
  {
    forall x | x in w.seen && Ours(w', x) ensures Ours(w, x) {
      if i: nat :| DrawnByClient(w', i, x) {
        assert DrawnByClient(w, i, x);
      } else {
        var j: nat :| DrawnByServer(w', j, x);
        assert DrawnByServer(w, j, x);
      }
    }
    forall i | 0 <= i < |w.clients| ensures ClientOk(pins, w', w'.clients[i]) {
      ClientKept(pins, w, w', w.clients[i]);
    }
    forall j | 0 <= j < |w.servers| ensures ServerOk(pins, w', w'.servers[j]) {
      ServerKept(pins, w, w', w.servers[j]);
    }
  }

  lemma GreetedInv(pins: Pins, w: World, packet: Packet, eph: nat, now: Time)
    requires Inv(pins, w) && Possible(pins, w, ServerGreeted(packet, eph, now))
    ensures Inv(pins, Step(pins, w, ServerGreeted(packet, eph, now)))
  {
    var e := ServerGreeted(packet, eph, now);
    var w' := Step(pins, w, e);
    StepGrows(pins, w, e);
    if CheckClientHello(pins, packet, now).Ok? {
      Added(pins, w, w');
    } else {
      OnlySeen(pins, w, w');
    }
  }

  /** Nobody has signed for the ephemeral of a client that is still waiting. */
  lemma NotYetSigned(w: World, i: nat, k: nat, t: Transcript)
    requires Distinct(w) && i < |w.clients| && w.clients[i].phase.Awaiting? && t.clientEph == Point(w.clients[i].eph)
    ensures !ClientSigned(w, k, t)
  {
    assert k < |w.clients| && k != i ==> w.clients[if k < i then k else i].eph != w.clients[if k < i then i else k].eph;
  }

  /** The client believes a server only when that server signed this very exchange.
      Whoever the pinned identity belongs to, no client signed it: this session has
      signed nothing yet, and no other drew its ephemeral. */
  lemma AnsweredInv(pins: Pins, w: World, i: nat, packet: Packet, now: Time)
    requires Inv(pins, w) && Known(pins, w, packet)
    ensures Inv(pins, Step(pins, w, ClientAnswered(i, packet, now)))
  {
    var e := ClientAnswered(i, packet, now);
    var w' := Step(pins, w, e);
    StepGrows(pins, w, e);
    if i >= |w.clients| || !w.clients[i].phase.Awaiting? {
      assert i < |w.clients| ==> w'.clients == w.clients;
      OnlySeen(pins, w, w');
    } else {
      var c' := w'.clients[i];
      if c'.phase.Established? {
        assert KnownSignature(pins, w, packet.sig);
        var t := ClientTranscript(c');
        assert Endorsed(pins, w, pins.server, t);
        forall k: nat ensures !ClientSigned(w, k, t) {
          NotYetSigned(w, i, k, t);
        }
        var j: nat :| ServerSigned(w, j, t);
        assert ServerSigned(w', j, t);
        assert ClientOk(pins, w', c');
      }
      ClientUpdated(pins, w, w', i);
    }
  }

  /** A server seals data and nothing else. */
  lemma ServerSealsData(pins: Pins, w: World, j: nat, key: SymKey, nonce: nat, plain: Plain)
    requires Inv(pins, w) && ServerSealed(w, j, key, nonce, plain)
    ensures plain.DataPlain?
  {
    assert ServerOk(pins, w, w.servers[j]);
    hide ConnOk, Distinct;
  }

  lemma ClientSealsProof(pins: Pins, w: World, i: nat, key: SymKey, nonce: nat, plain: Plain)
    requires Inv(pins, w) && ClientSealed(w, i, key, nonce, plain) && plain.AuthPlain?
    ensures plain.sig.Signed? && ClientSigned(w, i, plain.sig.over)
  {
    assert ClientOk(pins, w, w.clients[i]);
    hide ConnOk, Distinct;
  }

  /** An authentication plaintext the two ends sealed was sealed by a client that
      had just signed what it says. */
  lemma SealedAuth(pins: Pins, w: World, key: SymKey, nonce: nat, plain: Plain)
    requires Inv(pins, w) && SealedByUs(w, key, nonce, plain) && plain.AuthPlain?
    ensures plain.sig.Signed? && exists i: nat :: ClientSigned(w, i, plain.sig.over)
  {
    hide Inv, ClientSealed, ServerSealed, ClientSigned;
    if i: nat :| ClientSealed(w, i, key, nonce, plain) {
      ClientSealsProof(pins, w, i, key, nonce, plain);
    } else {
      var j: nat :| ServerSealed(w, j, key, nonce, plain);
      ServerSealsData(pins, w, j, key, nonce, plain);
      assert false;
    }
  }

  /** A box that convinces the server carries a signature made by a client session
      that finished this very exchange, whoever sealed it. */
  lemma ProofIsClients(pins: Pins, w: World, s: Server, packet: Packet)
    requires pins.client != pins.server && Inv(pins, w) && Known(pins, w, packet)
    requires Unseal(s.conn, packet).Ok? && CheckClientAuth(pins, Unseal(s.conn, packet).value.0, ServerTranscript(s)).Ok?
    ensures exists i: nat :: ClientSigned(w, i, ServerTranscript(s))
  {
    var plain := packet.cipher.plain;
    assert packet.cipher == Sealed(packet.cipher.key, packet.cipher.nonce, plain);
    if SealedByUs(w, packet.cipher.key, packet.cipher.nonce, plain) {
      SealedAuth(pins, w, packet.cipher.key, packet.cipher.nonce, plain);
    } else {
      assert Endorsed(pins, w, pins.client, ServerTranscript(s));
    }
  }

  lemma ProvedInv(pins: Pins, w: World, j: nat, packet: Packet)
    requires Inv(pins, w) && Known(pins, w, packet)
    ensures Inv(pins, Step(pins, w, ServerProved(j, packet)))
  {
    var e := ServerProved(j, packet);
    var w' := Step(pins, w, e);
    StepGrows(pins, w, e);
    if j >= |w.servers| || w.servers[j].accepted || Unseal(w.servers[j].conn, packet).Err? {
      assert j < |w.servers| ==> w'.servers == w.servers;
      OnlySeen(pins, w, w');
    } else {
      var s, s' := w.servers[j], w'.servers[j];
      ConnHears(pins, w, s.conn, packet);
      if s'.accepted && pins.client != pins.server {
        ProofIsClients(pins, w, s, packet);
      }
      assert ServerTranscript(s') == ServerTranscript(s) && s'.conn == Unseal(s.conn, packet).value.1;
      hide Known, CheckClientAuth, Ours, SealedByUs;
      assert ServerOk(pins, w, s');
      SameDraws(w, w');
      ServerKept(pins, w, w', s');
      ServerUpdated(pins, w, w', j);
    }
  }

  lemma ConnSends(w: World, k: Conn, data: seq<Byte>)
    requires ConnOk(w, k)
    ensures ConnOk(w, Sends(k, data)) && ConnGrows(k, Sends(k, data))
    ensures forall n :: |k.sent| <= n < |Sends(k, data).sent| ==> Sends(k, data).sent[n].DataPlain?
  {
  }

  lemma ClientUsesConn(pins: Pins, w: World, w': World, i: nat, k: Conn)
    requires Inv(pins, w) && i < |w.clients| && w.clients[i].phase.Established?
    requires ConnOk(w, k) && ConnGrows(w.clients[i].phase.conn, k)
    requires forall n :: |w.clients[i].phase.conn.sent| <= n < |k.sent| ==> k.sent[n].DataPlain?
    requires w' == w.(clients := w.clients[i := OnConn(w.clients[i], k)])
    ensures Inv(pins, w')
  {
    var c, c' := w.clients[i], w'.clients[i];
    assert ClientOk(pins, w, c) && ClientTranscript(c') == ClientTranscript(c);
    assert k.sent[0] == c.phase.conn.sent[0];
    hide ConnOk, AuthOf;
    assert ClientOk(pins, w, c');
    SameDraws(w, w');
    ClientKept(pins, w, w', c');
    ClientUpdated(pins, w, w', i);
  }

  lemma ServerUsesConn(pins: Pins, w: World, w': World, j: nat, k: Conn)
    requires Inv(pins, w) && j < |w.servers| && w.servers[j].accepted
    requires ConnOk(w, k) && ConnGrows(w.servers[j].conn, k)
    requires forall n :: |w.servers[j].conn.sent| <= n < |k.sent| ==> k.sent[n].DataPlain?
    requires w' == w.(servers := w.servers[j := w.servers[j].(conn := k)])
    ensures Inv(pins, w')
  {
    var s, s' := w.servers[j], w'.servers[j];
    assert ServerOk(pins, w, s) && ServerTranscript(s') == ServerTranscript(s);
    hide ConnOk;
    assert ServerOk(pins, w, s');
    SameDraws(w, w');
    ServerKept(pins, w, w', s');
    ServerUpdated(pins, w, w', j);
  }

  lemma ClientTrafficInv(pins: Pins, w: World, e: Event)
    requires Inv(pins, w) && Possible(pins, w, e) && (e.ClientSends? || e.ClientReceives?)
    ensures Inv(pins, Step(pins, w, e))
  {
    if e.client < |w.clients| && w.clients[e.client].phase.Established? {
      var k := w.clients[e.client].phase.conn;
      assert ClientOk(pins, w, w.clients[e.client]);
      if e.ClientSends? {
        ConnSends(w, k, e.data);
        ClientUsesConn(pins, w, Step(pins, w, e), e.client, Sends(k, e.data));
      } else {
        if Unseal(k, e.packet).Ok? {
          ConnHears(pins, w, k, e.packet);
        }
        ClientUsesConn(pins, w, Step(pins, w, e), e.client, Hears(k, e.packet));
      }
    }
  }

  lemma ServerTrafficInv(pins: Pins, w: World, e: Event)
    requires Inv(pins, w) && Possible(pins, w, e) && (e.ServerSends? || e.ServerReceives?)
    ensures Inv(pins, Step(pins, w, e))
  {
    if e.server < |w.servers| && w.servers[e.server].accepted {
      var k := w.servers[e.server].conn;
      assert ServerOk(pins, w, w.servers[e.server]);
      if e.ServerSends? {
        ConnSends(w, k, e.data);
        ServerUsesConn(pins, w, Step(pins, w, e), e.server, Sends(k, e.data));
      } else {
        if Unseal(k, e.packet).Ok? {
          ConnHears(pins, w, k, e.packet);
        }
        ServerUsesConn(pins, w, Step(pins, w, e), e.server, Hears(k, e.packet));
      }
    }
  }

  lemma StepInv(pins: Pins, w: World, e: Event)
    requires Inv(pins, w) && Possible(pins, w, e)
    ensures Inv(pins, Step(pins, w, e))
  {
    match e
    case StartClient(_, _) => StepGrows(pins, w, e); Added(pins, w, Step(pins, w, e));
    case ClientAnswered(i, packet, now) => AnsweredInv(pins, w, i, packet, now);
    case ServerGreeted(packet, eph, now) => GreetedInv(pins, w, packet, eph, now);
    case ServerProved(j, packet) => ProvedInv(pins, w, j, packet);
    case ClientSends(_, _) => ClientTrafficInv(pins, w, e);
    case ClientReceives(_, _) => ClientTrafficInv(pins, w, e);
    case ServerSends(_, _) => ServerTrafficInv(pins, w, e);
    case ServerReceives(_, _) => ServerTrafficInv(pins, w, e);
  }

  lemma {:induction false} RunInv(pins: Pins, w: World, events: seq<Event>)
    requires Inv(pins, w) && PossibleRun(pins, w, events)
    ensures Inv(pins, Run(pins, w, events))
    decreases |events|
  {
    if events != [] {
      StepInv(pins, w, events[0]);
      RunInv(pins, Step(pins, w, events[0]), events[1..]);
    }
  }

  // ---- the theorems ----

  /** Client session `i` and server session `j` are the two ends of one session. */
  ghost predicate Partners(w: World, i: nat, j: nat)
  {
    && i < |w.clients| && j < |w.servers| && w.clients[i].phase.Established?
    && ClientTranscript(w.clients[i]) == ServerTranscript(w.servers[j])
    && w.clients[i].phase.conn.tx == w.servers[j].conn.rx
    && w.clients[i].phase.conn.rx == w.servers[j].conn.tx
  }

  lemma PartnersOf(pins: Pins, w: World, i: nat, j: nat)
    requires Inv(pins, w) && j < |w.servers| && ClientSigned(w, i, ServerTranscript(w.servers[j]))
    ensures Partners(w, i, j)
    ensures forall i' :: Partners(w, i', j) ==> i' == i
    ensures forall j' :: Partners(w, i, j') ==> j' == j
  {
    assert ClientOk(pins, w, w.clients[i]) && ServerOk(pins, w, w.servers[j]);
  }

  /** Injective agreement, server's side. In every run, a server session that
      accepted has exactly one client session as its partner — same ephemerals,
      same times, keys crossed — and no other server session has that partner. */
  lemma ServerAgreement(pins: Pins, events: seq<Event>, j: nat)
    requires pins.client != pins.server && PossibleRun(pins, START, events)
    requires var w := Run(pins, START, events); j < |w.servers| && w.servers[j].accepted
    ensures var w := Run(pins, START, events);
            exists i: nat :: && Partners(w, i, j)
                             && (forall i' :: Partners(w, i', j) ==> i' == i)
                             && (forall j' :: Partners(w, i, j') ==> j' == j)
  {
    RunInv(pins, START, events);
    var w := Run(pins, START, events);
    assert ServerOk(pins, w, w.servers[j]);
    var i: nat :| ClientSigned(w, i, ServerTranscript(w.servers[j]));
    PartnersOf(pins, w, i, j);
  }

  /** Injective agreement, client's side: for any pinned identities, the same or not. */
  lemma ClientAgreement(pins: Pins, events: seq<Event>, i: nat)
    requires PossibleRun(pins, START, events)
    requires var w := Run(pins, START, events); i < |w.clients| && w.clients[i].phase.Established?
    ensures var w := Run(pins, START, events);
            exists j: nat :: && Partners(w, i, j)
                             && (forall i' :: Partners(w, i', j) ==> i' == i)
                             && (forall j' :: Partners(w, i, j') ==> j' == j)
  {
    RunInv(pins, START, events);
    var w := Run(pins, START, events);
    assert ClientOk(pins, w, w.clients[i]);
    var j: nat :| ServerSigned(w, j, ClientTranscript(w.clients[i]));
    PartnersOf(pins, w, i, j);
  }

  /** A session's plaintexts, each with the nonce it was sealed under. */
  function Numbered(sent: seq<Plain>): (log: seq<(nat, Plain)>)
    ensures |log| == |sent|
  {
    seq(|sent|, n requires 0 <= n < |sent| => (n, sent[n]))
  }

  /** Every key has one sealer. */
  lemma OneSealer(pins: Pins, w: World)
    requires Inv(pins, w)
    ensures forall i, k |
              0 <= i < k < |w.clients| && w.clients[i].phase.Established? && w.clients[k].phase.Established? ::
              w.clients[i].phase.conn.tx != w.clients[k].phase.conn.tx
    ensures forall j, k | 0 <= j < k < |w.servers| :: w.servers[j].conn.tx != w.servers[k].conn.tx
    ensures forall i, j | 0 <= i < |w.clients| && 0 <= j < |w.servers| && w.clients[i].phase.Established? ::
              w.clients[i].phase.conn.tx != w.servers[j].conn.tx
  {
    forall i, k | 0 <= i < k < |w.clients| && w.clients[i].phase.Established? && w.clients[k].phase.Established?
      ensures w.clients[i].phase.conn.tx != w.clients[k].phase.conn.tx
    {
      var c, d := w.clients[i], w.clients[k];
      assert ClientOk(pins, w, c) && ClientOk(pins, w, d);
      EcdhAgrees(c.eph, c.phase.serverEph, d.eph, d.phase.serverEph);
    }
    forall j, k | 0 <= j < k < |w.servers| ensures w.servers[j].conn.tx != w.servers[k].conn.tx {
      var s, t := w.servers[j], w.servers[k];
      assert ServerOk(pins, w, s) && ServerOk(pins, w, t);
      EcdhAgrees(s.eph, s.clientEph, t.eph, t.clientEph);
    }
    forall i, j | 0 <= i < |w.clients| && 0 <= j < |w.servers| && w.clients[i].phase.Established?
      ensures w.clients[i].phase.conn.tx != w.servers[j].conn.tx
    {
      assert ClientOk(pins, w, w.clients[i]) && ServerOk(pins, w, w.servers[j]);
    }
  }

  /** No nonce is ever used twice under one key, in any run, by any sessions: a
      key and a nonce determine what was sealed under them. */
  lemma NonceSealsOnce(pins: Pins, events: seq<Event>, key: SymKey, nonce: nat, p: Plain, q: Plain)
    requires PossibleRun(pins, START, events)
    requires var w := Run(pins, START, events); SealedByUs(w, key, nonce, p) && SealedByUs(w, key, nonce, q)
    ensures p == q
  {
    RunInv(pins, START, events);
    var w := Run(pins, START, events);
    OneSealer(pins, w);
    hide Inv, Run, PossibleRun;
    if i: nat, k: nat :| ClientSealed(w, i, key, nonce, p) && ClientSealed(w, k, key, nonce, q) {
      assert i == k;
    } else if j: nat, k: nat :| ServerSealed(w, j, key, nonce, p) && ServerSealed(w, k, key, nonce, q) {
      assert j == k;
    }
  }

  /** What partners have received is what their partner sent, with some messages
      missing: in order, none twice, nothing from anyone else. */
  lemma PartnersHearEachOther(pins: Pins, events: seq<Event>, i: nat, j: nat)
    requires PossibleRun(pins, START, events)
    requires Partners(Run(pins, START, events), i, j)
    ensures var w := Run(pins, START, events);
            var c, s := w.clients[i].phase.conn, w.servers[j].conn;
            && SecureChannel.Subsequence(SecureChannel.Plaintexts(s.got), c.sent) && SecureChannel.Climbing(s.got)
            && SecureChannel.Subsequence(SecureChannel.Plaintexts(c.got), s.sent) && SecureChannel.Climbing(c.got)
  {
    RunInv(pins, START, events);
    var w := Run(pins, START, events);
    OneSealer(pins, w);
    hide Run, PossibleRun;
    ServerHeard(pins, w, i, j);
    ClientHeard(pins, w, i, j);
  }

  /** Two of our ephemerals make a private key. */
  lemma PartnersPrivate(pins: Pins, w: World, i: nat, j: nat)
    requires Inv(pins, w) && Partners(w, i, j)
    ensures Private(w, w.servers[j].conn.rx) && Private(w, w.servers[j].conn.tx)
  {
    var c, s := w.clients[i], w.servers[j];
    assert ServerOk(pins, w, s) && s.clientEph == c.eph;
    assert DrawnByClient(w, i, c.eph) && DrawnByServer(w, j, s.eph);
    assert Ours(w, c.eph) && Ours(w, s.eph);
  }

  lemma ServerHeardAt(pins: Pins, w: World, i: nat, j: nat, m: nat)
    requires Inv(pins, w) && Partners(w, i, j) && m < |w.servers[j].conn.got|
    ensures var c, (nonce, plain) := w.clients[i].phase.conn, w.servers[j].conn.got[m];
            nonce < |c.sent| && c.sent[nonce] == plain
  {
    PartnersPrivate(pins, w, i, j);
    OneSealer(pins, w);
    var s := w.servers[j].conn;
    assert ServerOk(pins, w, w.servers[j]);
    hide Inv, Private;
    assert SealedByUs(w, s.rx, s.got[m].0, s.got[m].1);
    var k: nat :| ClientSealed(w, k, s.rx, s.got[m].0, s.got[m].1);
    assert k == i;
  }

  lemma ClientHeardAt(pins: Pins, w: World, i: nat, j: nat, m: nat)
    requires Inv(pins, w) && Partners(w, i, j) && m < |w.clients[i].phase.conn.got|
    ensures var s, (nonce, plain) := w.servers[j].conn, w.clients[i].phase.conn.got[m];
            nonce < |s.sent| && s.sent[nonce] == plain
  {
    PartnersPrivate(pins, w, i, j);
    OneSealer(pins, w);
    var c := w.clients[i].phase.conn;
    assert ClientOk(pins, w, w.clients[i]);
    hide Inv, Private;
    assert SealedByUs(w, c.rx, c.got[m].0, c.got[m].1);
    var k: nat :| ServerSealed(w, k, c.rx, c.got[m].0, c.got[m].1);
    assert k == j;
  }

  lemma ServerHeard(pins: Pins, w: World, i: nat, j: nat)
    requires Inv(pins, w) && Partners(w, i, j)
    ensures var c, s := w.clients[i].phase.conn, w.servers[j].conn;
            SecureChannel.Subsequence(SecureChannel.Plaintexts(s.got), c.sent) && SecureChannel.Climbing(s.got)
  {
    var c, s := w.clients[i].phase.conn, w.servers[j].conn;
    assert ServerOk(pins, w, w.servers[j]);
    hide Inv;
    forall m | 0 <= m < |s.got| ensures s.got[m].0 < |c.sent| && c.sent[s.got[m].0] == s.got[m].1 {
      ServerHeardAt(pins, w, i, j, m);
    }
    GotFrom(s.got, c.sent);
  }

  lemma ClientHeard(pins: Pins, w: World, i: nat, j: nat)
    requires Inv(pins, w) && Partners(w, i, j)
    ensures var c, s := w.clients[i].phase.conn, w.servers[j].conn;
            SecureChannel.Subsequence(SecureChannel.Plaintexts(c.got), s.sent) && SecureChannel.Climbing(c.got)
  {
    var c, s := w.clients[i].phase.conn, w.servers[j].conn;
    assert ClientOk(pins, w, w.clients[i]);
    hide Inv;
    forall m | 0 <= m < |c.got| ensures c.got[m].0 < |s.sent| && s.sent[c.got[m].0] == c.got[m].1 {
      ClientHeardAt(pins, w, i, j, m);
    }
    GotFrom(c.got, s.sent);
  }

  lemma GotFrom(got: seq<(nat, Plain)>, sent: seq<Plain>)
    requires SecureChannel.Climbing(got)
    requires forall m :: 0 <= m < |got| ==> got[m].0 < |sent| && sent[got[m].0] == got[m].1
    ensures SecureChannel.Subsequence(SecureChannel.Plaintexts(got), sent)
  {
    var log := Numbered(sent);
    forall m | 0 <= m < |got| ensures got[m] in log {
      assert log[got[m].0] == got[m];
    }
    SecureChannel.ClimbingSubsequence(got, log);
    assert SecureChannel.Plaintexts(log) == sent;
  }

  /** The two roles sign the same transcript layout, so one identity must not play
      both: then the server's own signature passes for the client's, and a server
      session is accepted in a run with no client at all. */
  lemma SharedIdentity(id: Identity)
    returns (events: seq<Event>)
    ensures var pins := Pins(id, id);
            PossibleRun(pins, START, events)
            && var w := Run(pins, START, events); |w.servers| == 1 && w.servers[0].accepted && w.clients == []
  {
    var pins := Pins(id, id);
    var hello := Hello(CLIENT_HELLO, PROTOCOL_VERSION, 0.0, Point(0), id);
    var greet := ServerGreeted(hello, 1, 0.0);
    var w1 := Step(pins, START, greet);
    var s := w1.servers[0];
    var t := ServerTranscript(s);
    var box := Boxed(0, Sealed(s.conn.rx, 0, AuthOf(pins, t)));
    var prove := ServerProved(0, box);
    assert ServerSigned(w1, 0, t);
    assert s.conn.rx.secret == Shared(0, 1) && !Ours(w1, 0);
    assert Known(pins, w1, box);
    var w2 := Step(pins, w1, prove);
    events := [greet, prove];
    assert events[1..] == [prove] && [prove][1..] == [];
    assert Run(pins, w1, [prove]) == Run(pins, w2, []) == w2;
    assert PossibleRun(pins, w1, [prove]);
  }

  ghost predicate ServerAlwaysHasPartner(pins: Pins)
  {
    forall events: seq<Event>, j: nat ::
      PossibleRun(pins, START, events) && j < |Run(pins, START, events).servers| && Run(pins, START, events).servers[j].accepted
      ==> exists i: nat :: Partners(Run(pins, START, events), i, j)
  }

  /** The server's side of agreement holds exactly when the two pinned identities differ. */
  lemma AgreementExactly(pins: Pins)
    ensures ServerAlwaysHasPartner(pins) <==> pins.client != pins.server
  {
    if pins.client == pins.server {
      var events := SharedIdentity(pins.client);
      assert forall i: nat :: !Partners(Run(pins, START, events), i, 0);
    } else {
      forall events: seq<Event>, j: nat |
        PossibleRun(pins, START, events) && j < |Run(pins, START, events).servers| && Run(pins, START, events).servers[j].accepted
        ensures exists i: nat :: Partners(Run(pins, START, events), i, j)
      {
        ServerAgreement(pins, events, j);
      }
    }
  }

  /** Each end expects exactly the packet the other will seal next, both ways. */
  predicate InStep(c: Conn, s: Conn)
  {
    c.tx == s.rx && c.rx == s.tx && |c.sent| == s.rxCounter + 1 && |s.sent| == c.rxCounter + 1
  }

  /** The last packet that was sent, if any was, has been received. */
  predicate AllHeard(sent: seq<Plain>, got: seq<(nat, Plain)>)
  {
    sent == [] || (got != [] && got[|got| - 1].0 == |sent| - 1)
  }

  /** Partners, at any moment of any run: they are in step exactly when the last packet
      of each has been received by the other. */
  lemma InStepExactly(pins: Pins, events: seq<Event>, i: nat, j: nat)
    requires PossibleRun(pins, START, events) && Partners(Run(pins, START, events), i, j)
    ensures var w := Run(pins, START, events);
            var c, s := w.clients[i].phase.conn, w.servers[j].conn;
            InStep(c, s) <==> AllHeard(c.sent, s.got) && AllHeard(s.sent, c.got)
  {
    RunInv(pins, START, events);
    var w := Run(pins, START, events);
    hide Run, PossibleRun;
    var c, s := w.clients[i].phase.conn, w.servers[j].conn;
    assert ClientOk(pins, w, w.clients[i]) && ServerOk(pins, w, w.servers[j]);
    hide Inv;
    if c.got != [] {
      ClientHeardAt(pins, w, i, j, |c.got| - 1);
    }
  }

  /** In particular once the server has accepted and before either end has sent data. */
  lemma StartInStep(pins: Pins, events: seq<Event>, i: nat, j: nat)
    requires PossibleRun(pins, START, events) && Partners(Run(pins, START, events), i, j)
    requires var w := Run(pins, START, events);
             w.servers[j].accepted && |w.clients[i].phase.conn.sent| == 1 && w.servers[j].conn.sent == []
    ensures var w := Run(pins, START, events); InStep(w.clients[i].phase.conn, w.servers[j].conn)
  {
    InStepExactly(pins, events, i, j);
    RunInv(pins, START, events);
    var w := Run(pins, START, events);
    hide Run, PossibleRun;
    var s := w.servers[j].conn;
    assert ServerOk(pins, w, w.servers[j]);
    ServerHeardAt(pins, w, i, j, |s.got| - 1);
  }

  /** The handshake does succeed: with each hello heard within five minutes, either way,
      of when its sender's clock says it was sent, and a network that delivers the three
      messages, both ends finish, are partners, and are in step for the data to come. */
  lemma HonestRun(pins: Pins, clientTime: Time, serverTime: Time, heardAt: Time, clientEph: nat, serverEph: nat)
    returns (events: seq<Event>)
    requires -300.0 <= serverTime - clientTime <= 300.0 && -300.0 <= heardAt - serverTime <= 300.0
    requires clientEph != serverEph
    ensures PossibleRun(pins, START, events)
    ensures var w := Run(pins, START, events);
            |w.clients| == |w.servers| == 1 && Partners(w, 0, 0) && w.servers[0].accepted
            && w.servers[0].conn.got == [(0, AuthOf(pins, ServerTranscript(w.servers[0])))]
            && InStep(w.clients[0].phase.conn, w.servers[0].conn)
            && |w.clients[0].phase.conn.sent| == 1 && w.servers[0].conn.sent == []
  {
    var e0 := StartClient(clientEph, clientTime);
    var w1 := Step(pins, START, e0);
    var e1 := ServerGreeted(ClientHello(pins, w1.clients[0]), serverEph, serverTime);
    var w2 := Step(pins, w1, e1);
    assert ServerSigned(w2, 0, ServerTranscript(w2.servers[0]));
    var e2 := ClientAnswered(0, ServerHello(pins, w2.servers[0]), heardAt);
    var w3 := Step(pins, w2, e2);
    var conn := w3.clients[0].phase.conn;
    var box := Boxed(0, Sealed(conn.tx, 0, conn.sent[0]));
    assert ClientSealed(w3, 0, conn.tx, 0, conn.sent[0]);
    var e3 := ServerProved(0, box);
    var w4 := Step(pins, w3, e3);
    events := [e0, e1, e2, e3];
    assert events[1..] == [e1, e2, e3] && [e1, e2, e3][1..] == [e2, e3] && [e2, e3][1..] == [e3] && [e3][1..] == [];
    assert Run(pins, w3, [e3]) == w4;
    assert Run(pins, w2, [e2, e3]) == w4;
    assert Run(pins, w1, [e1, e2, e3]) == w4;
    assert Run(pins, START, events) == w4;
    assert PossibleRun(pins, w3, [e3]);
    assert PossibleRun(pins, w2, [e2, e3]);
    assert PossibleRun(pins, w1, [e1, e2, e3]);
  }
}
