/** The three-message handshake of `protocol.py` over symbolic cryptography.

    X25519 (section 6.1 of RFC 7748) is an unordered pair of ephemerals, HKDF
    (section 2 of RFC 5869) and ChaCha20-Poly1305 (section 2.8 of RFC 8439) are
    constructors, and an Ed25519 signature (section 5.1 of RFC 8032) verifies
    exactly when it was made by that identity over that transcript. A packet is
    its parsed fields; bytes too few to parse are `Fragment`. */
module Handshake {
  import opened Bytes
  import SecureChannel

  type Identity = nat
  type Time = real

  /** A 32-byte X25519 public value: the share of some ephemeral, or one of the
      values the exchange refuses. */
  datatype Share = Point(id: nat) | Degenerate

  datatype Secret = Shared(lo: nat, hi: nat)
  datatype Info = ClientTx | ServerTx
  datatype SymKey = Hkdf(secret: Secret, info: Info)

  datatype Transcript = Transcript(clientEph: Share, serverEph: Share, clientTime: Time, serverTime: Time)
  datatype Signature = Signed(signer: Identity, over: Transcript) | Scribble

  datatype Plain =
    | AuthPlain(kind: Byte, id: Identity, sig: Signature)  // 97 bytes
    | DataPlain(kind: Byte, data: seq<Byte>)

  datatype Cipher = Sealed(key: SymKey, nonce: nat, plain: Plain) | Noise

  datatype Packet =
    | Hello(kind: Byte, version: Byte, time: Time, eph: Share, id: Identity)                         // 74 bytes
    | SignedHello(kind: Byte, version: Byte, time: Time, eph: Share, id: Identity, sig: Signature)   // 138 or more
    | Boxed(counter: nat, cipher: Cipher)
    | Fragment

  const CLIENT_HELLO: Byte := 0x01
  const SERVER_HELLO: Byte := 0x02
  const CLIENT_AUTH: Byte := 0x03
  const DATA: Byte := 0x10
  const PROTOCOL_VERSION: Byte := 1
  const MAX_TIMESTAMP_SKEW := 300.0

  datatype Failure =
    | BadLength | WrongType | WrongVersion | StaleTime | WrongIdentity | BadSignature | BadShare
    | Crypto(error: SecureChannel.CryptoError)

  /** Who is who: the client's identity as the server pins it, and the reverse. */
  datatype Pins = Pins(client: Identity, server: Identity)

  predicate ValidTimestamp(now: Time, time: Time)
  {
    -MAX_TIMESTAMP_SKEW <= now - time <= MAX_TIMESTAMP_SKEW
  }

  function Ecdh(mine: nat, theirs: nat): Secret
  {
    if mine <= theirs then Shared(mine, theirs) else Shared(theirs, mine)
  }

  /** Both ends reach the same secret, and no other pair of ephemerals does. */
  lemma EcdhAgrees(a: nat, b: nat, c: nat, d: nat)
    ensures Ecdh(a, b) == Ecdh(b, a)
    ensures Ecdh(a, b) == Ecdh(c, d) <==> (a == c && b == d) || (a == d && b == c)
  {
  }

  // ---- one end of an established channel ----

  datatype Conn = Conn(tx: SymKey, rx: SymKey, sent: seq<Plain>, rxCounter: int, got: seq<(nat, Plain)>)

  function DeriveSessionKeys(secret: Secret, isClient: bool): Conn
  {
    Conn(Hkdf(secret, if isClient then ClientTx else ServerTx),
         Hkdf(secret, if isClient then ServerTx else ClientTx), [], -1, [])
  }

  /** What one end sends with is what the other receives with, both ways. */
  lemma SessionKeysCross(a: nat, b: nat)
    ensures var c, s := DeriveSessionKeys(Ecdh(a, b), true), DeriveSessionKeys(Ecdh(b, a), false);
            && c.tx == s.rx == Hkdf(Ecdh(a, b), ClientTx) && c.rx == s.tx == Hkdf(Ecdh(a, b), ServerTx) && c.tx != c.rx
            && c.sent == s.sent == [] && c.got == s.got == [] && c.rxCounter == s.rxCounter == -1
  {
  }

  /** The counter is the number of plaintexts sealed so far. */
  function Seal(conn: Conn, plain: Plain): Result<(Packet, Conn), Failure>
  {
    if |conn.sent| >= SecureChannel.COUNTER_LIMIT then Err(Crypto(SecureChannel.Exhausted))
    else Ok((Boxed(|conn.sent|, Sealed(conn.tx, |conn.sent|, plain)), conn.(sent := conn.sent + [plain])))
  }

  function Unseal(conn: Conn, packet: Packet): Result<(Plain, Conn), Failure>
  {
    if !packet.Boxed? then Err(Crypto(SecureChannel.TooShort))
    else if packet.counter <= conn.rxCounter then Err(Crypto(SecureChannel.Replayed))
    else if packet.counter > conn.rxCounter + SecureChannel.MAX_JUMP then Err(Crypto(SecureChannel.Jumped))
    else if packet.cipher.Noise? || packet.cipher.key != conn.rx || packet.cipher.nonce != packet.counter then
      Err(Crypto(SecureChannel.Tampered))
    else Ok((packet.cipher.plain,
             conn.(rxCounter := packet.counter, got := conn.got + [(packet.counter, packet.cipher.plain)])))
  }

  /** No nonce is past the limit, and the counters accepted so far climb to the last one. */
  predicate Orderly(conn: Conn)
  {
    && |conn.sent| <= SecureChannel.COUNTER_LIMIT
    && (forall m, n :: 0 <= m < n < |conn.got| ==> conn.got[m].0 < conn.got[n].0)
    && (forall m :: 0 <= m < |conn.got| ==> conn.got[m].0 <= conn.rxCounter)
    && conn.rxCounter == if conn.got == [] then -1 else conn.got[|conn.got| - 1].0
  }

  // ---- the three decisions ----

  /** `process_client_hello` up to the answer: the client's share and time. */
  function CheckClientHello(pins: Pins, packet: Packet, now: Time): Result<(nat, Time), Failure>
  {
    if !packet.Hello? then Err(BadLength)
    else if packet.kind != CLIENT_HELLO then Err(WrongType)
    else if packet.version != PROTOCOL_VERSION then Err(WrongVersion)
    else if !ValidTimestamp(now, packet.time) then Err(StaleTime)
    else if packet.id != pins.client then Err(WrongIdentity)
    else if packet.eph.Degenerate? then Err(BadShare)
    else Ok((packet.eph.id, packet.time))
  }

  /** `process_server_hello`: the server's share and time. */
  function CheckServerHello(pins: Pins, packet: Packet, eph: nat, time: Time, now: Time): Result<(nat, Time), Failure>
  {
    if !packet.SignedHello? then Err(BadLength)
    else if packet.kind != SERVER_HELLO then Err(WrongType)
    else if packet.version != PROTOCOL_VERSION then Err(WrongVersion)
    else if !ValidTimestamp(now, packet.time) then Err(StaleTime)
    else if packet.id != pins.server then Err(WrongIdentity)
    else if packet.sig != Signed(packet.id, Transcript(Point(eph), packet.eph, time, packet.time)) then Err(BadSignature)
    else if packet.eph.Degenerate? then Err(BadShare)
    else Ok((packet.eph.id, packet.time))
  }

  /** `process_client_auth` once the box is open. */
  function CheckClientAuth(pins: Pins, plain: Plain, transcript: Transcript): Result<(), Failure>
  {
    if !plain.AuthPlain? then Err(BadLength)
    else if plain.kind != CLIENT_AUTH then Err(WrongType)
    else if plain.id != pins.client then Err(WrongIdentity)
    else if plain.sig != Signed(plain.id, transcript) then Err(BadSignature)
    else Ok(())
  }

  // ---- exactly what is accepted ----

  /** A client's hello is taken if and only if it is of type 1 and version 1, from the
      client that is pinned, with a share that can be used, and its clock is within five
      minutes of the server's, either way. */
  lemma ClientHelloExactly(pins: Pins, packet: Packet, now: Time)
    ensures var r := CheckClientHello(pins, packet, now);
            && (r.Ok? <==>
                  && packet.Hello? && packet.kind == 1 && packet.version == 1
                  && -300.0 <= now - packet.time <= 300.0
                  && packet.id == pins.client && packet.eph.Point?)
            && (r.Ok? ==> r.value == (packet.eph.id, packet.time))
  {
  }

  /** The clock alone: a hello right in every other respect. */
  lemma ClientClock(pins: Pins, time: Time, eph: nat, now: Time)
    ensures CheckClientHello(pins, Hello(1, 1, time, Point(eph), pins.client), now)
         == if -300.0 <= now - time <= 300.0 then Ok((eph, time)) else Err(StaleTime)
  {
  }

  /** Likewise the server's, which must be of type 2 and carry the pinned server's
      signature over both shares and both times. */
  lemma ServerHelloExactly(pins: Pins, packet: Packet, eph: nat, time: Time, now: Time)
    ensures var r := CheckServerHello(pins, packet, eph, time, now);
            && (r.Ok? <==>
                  && packet.SignedHello? && packet.kind == 2 && packet.version == 1
                  && -300.0 <= now - packet.time <= 300.0
                  && packet.id == pins.server && packet.eph.Point?
                  && packet.sig == Signed(pins.server, Transcript(Point(eph), packet.eph, time, packet.time)))
            && (r.Ok? ==> r.value == (packet.eph.id, packet.time))
  {
  }

  lemma ServerClock(pins: Pins, eph: nat, time: Time, peer: nat, stamp: Time, now: Time)
    ensures var sig := Signed(pins.server, Transcript(Point(eph), Point(peer), time, stamp));
            CheckServerHello(pins, SignedHello(2, 1, stamp, Point(peer), pins.server, sig), eph, time, now)
            == if -300.0 <= now - stamp <= 300.0 then Ok((peer, stamp)) else Err(StaleTime)
  {
  }

  /** The proof: type 3, the pinned client, and that client's signature over this transcript. */
  lemma ClientAuthExactly(pins: Pins, plain: Plain, transcript: Transcript)
    ensures CheckClientAuth(pins, plain, transcript).Ok?
            <==> plain == AuthPlain(3, pins.client, Signed(pins.client, transcript))
  {
  }

  /** Which refusal, where several things are wrong: type, version, clock, identity,
      signature and share, in this order. */
  lemma FirstRefusal(pins: Pins, packet: Packet, eph: nat, time: Time, now: Time)
    requires packet.SignedHello?
    ensures var r := CheckServerHello(pins, packet, eph, time, now);
            var stale := now - packet.time > 300.0 || packet.time - now > 300.0;
            && (r == Err(WrongType) <==> packet.kind != 2)
            && (r == Err(WrongVersion) <==> packet.kind == 2 && packet.version != 1)
            && (r == Err(StaleTime) <==> packet.kind == 2 && packet.version == 1 && stale)
            && (r == Err(WrongIdentity) <==> packet.kind == 2 && packet.version == 1 && !stale && packet.id != pins.server)
            && r != Err(BadLength)
  {
  }

  lemma FirstClientRefusal(pins: Pins, packet: Packet, now: Time)
    requires packet.Hello?
    ensures var r := CheckClientHello(pins, packet, now);
            var stale := now - packet.time > 300.0 || packet.time - now > 300.0;
            && (r == Err(WrongType) <==> packet.kind != 1)
            && (r == Err(WrongVersion) <==> packet.kind == 1 && packet.version != 1)
            && (r == Err(StaleTime) <==> packet.kind == 1 && packet.version == 1 && stale)
            && (r == Err(WrongIdentity) <==> packet.kind == 1 && packet.version == 1 && !stale && packet.id != pins.client)
            && r != Err(BadLength)
  {
  }

  /** What a box holds and which boxes open. */
  lemma BoxesExactly(conn: Conn, plain: Plain, packet: Packet)
    ensures Seal(conn, plain).Ok? <==> |conn.sent| < 18446744073709550616
    ensures Seal(conn, plain).Ok? ==>
              && Seal(conn, plain).value.0 == Boxed(|conn.sent|, Sealed(conn.tx, |conn.sent|, plain))
              && Seal(conn, plain).value.1 == conn.(sent := conn.sent + [plain])
    ensures Unseal(conn, packet).Ok? <==>
              && packet.Boxed? && conn.rxCounter < packet.counter <= conn.rxCounter + 1000
              && packet.cipher.Sealed? && packet.cipher.key == conn.rx && packet.cipher.nonce == packet.counter
    ensures Unseal(conn, packet).Ok? ==>
              var (got, next) := Unseal(conn, packet).value;
              && got == packet.cipher.plain
              && next == conn.(rxCounter := packet.counter, got := conn.got + [(packet.counter, got)])
  {
  }

  // ---- sessions ----

  datatype ClientPhase =
    | Awaiting
    | Closed
    | Established(serverEph: nat, serverTime: Time, conn: Conn)

  datatype Client = Client(eph: nat, time: Time, phase: ClientPhase)

  datatype Server = Server(eph: nat, clientEph: nat, clientTime: Time, serverTime: Time, accepted: bool, conn: Conn)

  function ClientTranscript(c: Client): Transcript
    requires c.phase.Established?
  {
    Transcript(Point(c.eph), Point(c.phase.serverEph), c.time, c.phase.serverTime)
  }

  function ServerTranscript(s: Server): Transcript
  {
    Transcript(Point(s.clientEph), Point(s.eph), s.clientTime, s.serverTime)
  }

  /** `create_client_auth`: the plaintext the client proves itself with. */
  function AuthOf(pins: Pins, transcript: Transcript): Plain
  {
    AuthPlain(CLIENT_AUTH, pins.client, Signed(pins.client, transcript))
  }

  /** What each end puts on the wire in the clear. */
  function ClientHello(pins: Pins, c: Client): Packet
  {
    Hello(CLIENT_HELLO, PROTOCOL_VERSION, c.time, Point(c.eph), pins.client)
  }

  function ServerHello(pins: Pins, s: Server): Packet
  {
    SignedHello(SERVER_HELLO, PROTOCOL_VERSION, s.serverTime, Point(s.eph), pins.server,
                Signed(pins.server, ServerTranscript(s)))
  }

  /** What `perform_handshake` does with the answer to its hello. */
  function ClientHears(pins: Pins, c: Client, packet: Packet, now: Time): Client
  {
    if !c.phase.Awaiting? then c
    else
      var answer := CheckServerHello(pins, packet, c.eph, c.time, now);
      if answer.Err? then c.(phase := Closed)
      else
        var (serverEph, serverTime) := answer.value;
        var transcript := Transcript(Point(c.eph), Point(serverEph), c.time, serverTime);
        var sealed := Seal(DeriveSessionKeys(Ecdh(c.eph, serverEph), true), AuthOf(pins, transcript));
        if sealed.Err? then c.(phase := Closed)
        else c.(phase := Established(serverEph, serverTime, sealed.value.1))
  }

  /** What the server does with a box before it has accepted the client. */
  function ServerHearsAuth(pins: Pins, s: Server, packet: Packet): Server
  {
    var plain := Unseal(s.conn, packet);
    if s.accepted || plain.Err? then s
    else s.(conn := plain.value.1, accepted := CheckClientAuth(pins, plain.value.0, ServerTranscript(s)).Ok?)
  }

  function Sends(conn: Conn, data: seq<Byte>): Conn
  {
    var sealed := Seal(conn, DataPlain(DATA, data));
    if sealed.Ok? then sealed.value.1 else conn
  }

  function Hears(conn: Conn, packet: Packet): Conn
  {
    var plain := Unseal(conn, packet);
    if plain.Ok? then plain.value.1 else conn
  }

  /** Data travels as type 16, and what an end hears is what the box held. */
  lemma DataExactly(conn: Conn, data: seq<Byte>, packet: Packet)
    ensures |conn.sent| < 18446744073709550616 ==> Sends(conn, data) == conn.(sent := conn.sent + [DataPlain(16, data)])
    ensures |conn.sent| >= 18446744073709550616 ==> Sends(conn, data) == conn
    ensures Hears(conn, packet) == if Unseal(conn, packet).Ok? then Unseal(conn, packet).value.1 else conn
  {
  }

  // ---- the same protocol as the objects that run it ----

  class SessionKeys {
    var conn: Conn

    constructor (conn: Conn)
      requires Orderly(conn)
      ensures this.conn == conn && Orderly(this.conn)
    {
      this.conn := conn;
    }

    method Encrypt(plain: Plain) returns (r: Result<Packet, Failure>)
      requires Orderly(conn)
      modifies this
      ensures Orderly(conn)
      ensures var sealed := Seal(old(conn), plain);
              if sealed.Err? then r == Err(sealed.error) && conn == old(conn)
              else r == Ok(sealed.value.0) && conn == sealed.value.1
    {
      var counter := |conn.sent|;
      if counter >= SecureChannel.COUNTER_LIMIT {
        return Err(Crypto(SecureChannel.Exhausted));
      }
      r := Ok(Boxed(counter, Sealed(conn.tx, counter, plain)));
      conn := conn.(sent := conn.sent + [plain]);
    }

    method Decrypt(packet: Packet) returns (r: Result<Plain, Failure>)
      requires Orderly(conn)
      modifies this
      ensures Orderly(conn)
      ensures var plain := Unseal(old(conn), packet);
              if plain.Err? then r == Err(plain.error) && conn == old(conn)
              else r == Ok(plain.value.0) && conn == plain.value.1
    {
      if !packet.Boxed? {
        return Err(Crypto(SecureChannel.TooShort));
      }
      if packet.counter <= conn.rxCounter {
        return Err(Crypto(SecureChannel.Replayed));
      }
      if packet.counter > conn.rxCounter + SecureChannel.MAX_JUMP {
        return Err(Crypto(SecureChannel.Jumped));
      }
      if packet.cipher.Noise? || packet.cipher.key != conn.rx || packet.cipher.nonce != packet.counter {
        return Err(Crypto(SecureChannel.Tampered));
      }
      r := Ok(packet.cipher.plain);
      conn := conn.(rxCounter := packet.counter, got := conn.got + [(packet.counter, packet.cipher.plain)]);
    }
  }

  class HandshakeState {
    const ephemeral: nat
    var peerEphemeral: Option<nat>
    var clientTimestamp: Option<Time>
    var serverTimestamp: Option<Time>

    constructor (ephemeral: nat, peer: Option<nat>, clientTime: Option<Time>, serverTime: Option<Time>)
      ensures this.ephemeral == ephemeral && peerEphemeral == peer
      ensures clientTimestamp == clientTime && serverTimestamp == serverTime
    {
      this.ephemeral := ephemeral;
      peerEphemeral, clientTimestamp, serverTimestamp := peer, clientTime, serverTime;
    }
  }

  method CreateClientHello(pins: Pins, eph: nat, now: Time) returns (packet: Packet, state: HandshakeState)
    ensures fresh(state) && packet == ClientHello(pins, Client(eph, now, Awaiting))
    ensures state.ephemeral == eph && state.clientTimestamp == Some(now)
    ensures state.peerEphemeral == None && state.serverTimestamp == None
  {
    packet := Hello(CLIENT_HELLO, PROTOCOL_VERSION, now, Point(eph), pins.client);
    state := new HandshakeState(eph, None, Some(now), None);
  }

  method ProcessServerHello(pins: Pins, packet: Packet, state: HandshakeState, now: Time)
    returns (r: Result<SessionKeys, Failure>)
    requires state.clientTimestamp.Some?
    modifies state
    ensures state.clientTimestamp == old(state.clientTimestamp)
    ensures var answer := CheckServerHello(pins, packet, state.ephemeral, state.clientTimestamp.value, now);
            if answer.Err? then
              r == Err(answer.error) && state.peerEphemeral == old(state.peerEphemeral)
              && state.serverTimestamp == old(state.serverTimestamp)
            else
              r.Ok? && fresh(r.value) && Orderly(r.value.conn) && state.peerEphemeral == Some(answer.value.0)
              && state.serverTimestamp == Some(answer.value.1)
              && r.value.conn == DeriveSessionKeys(Ecdh(state.ephemeral, answer.value.0), true)
  {
    if !packet.SignedHello? {
      return Err(BadLength);
    }
    if packet.kind != SERVER_HELLO {
      return Err(WrongType);
    }
    if packet.version != PROTOCOL_VERSION {
      return Err(WrongVersion);
    }
    if !ValidTimestamp(now, packet.time) {
      return Err(StaleTime);
    }
    if packet.id != pins.server {
      return Err(WrongIdentity);
    }
    var message := Transcript(Point(state.ephemeral), packet.eph, state.clientTimestamp.value, packet.time);
    if packet.sig != Signed(packet.id, message) {
      return Err(BadSignature);
    }
    if packet.eph.Degenerate? {
      return Err(BadShare);
    }
    var keys := new SessionKeys(DeriveSessionKeys(Ecdh(state.ephemeral, packet.eph.id), true));
    state.peerEphemeral := Some(packet.eph.id);
    state.serverTimestamp := Some(packet.time);
    r := Ok(keys);
  }

  method CreateClientAuth(pins: Pins, state: HandshakeState, keys: SessionKeys) returns (r: Result<Packet, Failure>)
    requires state.peerEphemeral.Some? && state.clientTimestamp.Some? && state.serverTimestamp.Some? && Orderly(keys.conn)
    modifies keys
    ensures Orderly(keys.conn)
    ensures var t := Transcript(Point(state.ephemeral), Point(state.peerEphemeral.value),
                                state.clientTimestamp.value, state.serverTimestamp.value);
            var sealed := Seal(old(keys.conn), AuthOf(pins, t));
            if sealed.Err? then r == Err(sealed.error) && keys.conn == old(keys.conn)
            else r == Ok(sealed.value.0) && keys.conn == sealed.value.1
  {
    var message := Transcript(Point(state.ephemeral), Point(state.peerEphemeral.value),
                              state.clientTimestamp.value, state.serverTimestamp.value);
    r := keys.Encrypt(AuthPlain(CLIENT_AUTH, pins.client, Signed(pins.client, message)));
  }

  /** The client's handshake once it has the server's packet: what the world's client
      step says it is, and on success the box sent last is the proof that step sealed. */
  method FinishHandshake(pins: Pins, eph: nat, started: Time, packet: Packet, now: Time)
    returns (r: Result<(SessionKeys, Packet), Failure>)
    ensures var c := ClientHears(pins, Client(eph, started, Awaiting), packet, now);
            if r.Err? then c.phase == Closed
            else
              c.phase.Established? && fresh(r.value.0) && Orderly(r.value.0.conn) && c.phase.conn == r.value.0.conn
              && r.value.1 == Boxed(0, Sealed(r.value.0.conn.tx, 0, AuthOf(pins, ClientTranscript(c))))
  {
    var hello, state := CreateClientHello(pins, eph, started);
    var answer := ProcessServerHello(pins, packet, state, now);
    if answer.Err? {
      return Err(answer.error);
    }
    var sealed := CreateClientAuth(pins, state, answer.value);
    if sealed.Err? {
      return Err(sealed.error);
    }
    r := Ok((answer.value, sealed.value));
  }

  method ProcessClientHello(pins: Pins, packet: Packet, eph: nat, now: Time)
    returns (r: Result<(Packet, HandshakeState, SessionKeys), Failure>)
    ensures var hello := CheckClientHello(pins, packet, now);
            if hello.Err? then r == Err(hello.error)
            else
              var s := Server(eph, hello.value.0, hello.value.1, now, false,
                              DeriveSessionKeys(Ecdh(eph, hello.value.0), false));
              r.Ok? && fresh(r.value.1) && fresh(r.value.2) && Orderly(r.value.2.conn)
              && r.value.0 == ServerHello(pins, s) && r.value.2.conn == s.conn && Describes(r.value.1, s)
  {
    if !packet.Hello? {
      return Err(BadLength);
    }
    if packet.kind != CLIENT_HELLO {
      return Err(WrongType);
    }
    if packet.version != PROTOCOL_VERSION {
      return Err(WrongVersion);
    }
    if !ValidTimestamp(now, packet.time) {
      return Err(StaleTime);
    }
    if packet.id != pins.client {
      return Err(WrongIdentity);
    }
    if packet.eph.Degenerate? {
      return Err(BadShare);
    }
    var keys := new SessionKeys(DeriveSessionKeys(Ecdh(eph, packet.eph.id), false));
    var message := Transcript(packet.eph, Point(eph), packet.time, now);
    var answer := SignedHello(SERVER_HELLO, PROTOCOL_VERSION, now, Point(eph), pins.server, Signed(pins.server, message));
    var state := new HandshakeState(eph, Some(packet.eph.id), Some(packet.time), Some(now));
    r := Ok((answer, state, keys));
  }

  ghost predicate Describes(state: HandshakeState, s: Server)
    reads state
  {
    && state.ephemeral == s.eph && state.peerEphemeral == Some(s.clientEph)
    && state.clientTimestamp == Some(s.clientTime) && state.serverTimestamp == Some(s.serverTime)
  }

  /** The server's last step: what the world's server step says, session by session. */
  method ProcessClientAuth(pins: Pins, packet: Packet, state: HandshakeState, keys: SessionKeys, ghost s: Server)
    returns (r: Result<(), Failure>)
    requires Describes(state, s) && keys.conn == s.conn && !s.accepted && Orderly(keys.conn)
    modifies keys
    ensures Orderly(keys.conn)
    ensures ServerHearsAuth(pins, s, packet) == s.(conn := keys.conn, accepted := r.Ok?)
  {
    var plain := keys.Decrypt(packet);
    if plain.Err? {
      return Err(plain.error);
    }
    if !plain.value.AuthPlain? {
      return Err(BadLength);
    }
    if plain.value.kind != CLIENT_AUTH {
      return Err(WrongType);
    }
    if plain.value.id != pins.client {
      return Err(WrongIdentity);
    }
    var message := Transcript(Point(state.peerEphemeral.value), Point(state.ephemeral),
                              state.clientTimestamp.value, state.serverTimestamp.value);
    if plain.value.sig != Signed(plain.value.id, message) {
      return Err(BadSignature);
    }
    r := Ok(());
  }
}
