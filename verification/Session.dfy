/** A whole session of the SecureVPN client: `perform_handshake` in `client.py` with the
    loop that collects the server's packet, and the tunnel the handshake leaves behind.

    Here the two views of a session meet: the symbolic one the handshake is proved in,
    and the bytes the tunnel is proved in. Any 32 bytes may stand for a symbolic key. */
module Session {
  import opened Bytes
  import opened Handshake
  import HandshakeRuns
  import SecureChannel
  import Tunnel

  // ---- waiting for the server's packet ----

  datatype Problem = TimedOut | Shut | Framing(error: Tunnel.ProtocolError) | Refused(failure: Failure)

  /** What the loop came away with: the packet, what was left in its buffer, and the
      reads it did not make. The buffer belongs to the loop and goes with it. */
  datatype Found = Found(packet: seq<Byte>, dropped: seq<Byte>, unread: seq<seq<Byte>>)

  /** One read, one look at the front of the buffer; an empty packet is passed over
      and what follows it is looked at after the next read. */
  function Awaited(buffer: seq<Byte>, chunks: seq<seq<Byte>>): Result<Found, Problem>
    decreases |chunks|
  {
    if chunks == [] then Err(TimedOut)
    else if chunks[0] == [] then Err(Shut)
    else
      var parsed := Tunnel.ParseFramedPacket(buffer + chunks[0]);
      if parsed.Err? then Err(Framing(parsed.error))
      else
        var (packet, rest) := parsed.value;
        if packet.Some? && packet.value != [] then Ok(Found(packet.value, rest, chunks[1..]))
        else Awaited(rest, chunks[1..])
  }

  predicate NoneEmpty(chunks: seq<seq<Byte>>)
  {
    forall k :: 0 <= k < |chunks| ==> chunks[k] != []
  }

  /** Some read ends exactly where the frame does. */
  predicate CutAfter(buffer: seq<Byte>, chunks: seq<seq<Byte>>, length: nat)
    decreases |chunks|
  {
    chunks != [] && (|buffer| + |chunks[0]| == length || CutAfter(buffer + chunks[0], chunks[1..], length))
  }

  lemma {:induction false} NeverCutAgain(buffer: seq<Byte>, chunks: seq<seq<Byte>>, length: nat)
    requires |buffer| >= length && NoneEmpty(chunks)
    ensures !CutAfter(buffer, chunks, length)
    decreases |chunks|
  {
    if chunks != [] {
      NeverCutAgain(buffer + chunks[0], chunks[1..], length);
    }
  }

  /** However a stream that begins with the framed packet is cut into reads, the loop
      returns that packet; what it drops and what it leaves unread are the rest of the
      stream; and it drops nothing exactly when a read ended where the frame did. */
  lemma {:induction false} FindsPacket(packet: seq<Byte>, buffer: seq<Byte>, chunks: seq<seq<Byte>>, tail: seq<Byte>)
    requires 0 < |packet| <= Tunnel.MAX_PACKET_SIZE && NoneEmpty(chunks)
    requires buffer < Tunnel.FramePacket(packet) && buffer + Concat(chunks) == Tunnel.FramePacket(packet) + tail
    ensures var r := Awaited(buffer, chunks);
            && r.Ok? && r.value.packet == packet && r.value.dropped + Concat(r.value.unread) == tail
            && (r.value.dropped == [] <==> CutAfter(buffer, chunks, |Tunnel.FramePacket(packet)|))
    decreases |chunks|
  {
    var frame := Tunnel.FramePacket(packet);
    assert chunks != [] by {
      assert |buffer + Concat(chunks)| >= |frame|;
    }
    var now, later := buffer + chunks[0], chunks[1..];
    assert Concat(chunks) == chunks[0] + Concat(later);
    hide Concat, Tunnel.FramePacket;
    SeqAssociative(buffer, chunks[0], Concat(later));
    if |now| < |frame| {
      assert now == (now + Concat(later))[..|now|] == (frame + tail)[..|now|] == frame[..|now|];
      Tunnel.ParsePartial(packet, now);
      FindsPacket(packet, now, later, tail);
    } else {
      var rest := now[|frame|..];
      assert now[..|frame|] == (now + Concat(later))[..|frame|] == (frame + tail)[..|frame|] == frame;
      assert now == frame + rest;
      Tunnel.ParseFramed(packet, rest);
      assert rest + Concat(later) == (now + Concat(later))[|frame|..] == (frame + tail)[|frame|..] == tail;
      NeverCutAgain(now, later, |frame|);
    }
  }

  /** A frame that has not all arrived keeps the loop waiting until it gives up. */
  lemma {:induction false} WaitsForPacket(packet: seq<Byte>, buffer: seq<Byte>, chunks: seq<seq<Byte>>)
    requires |packet| <= Tunnel.MAX_PACKET_SIZE && NoneEmpty(chunks)
    requires buffer + Concat(chunks) < Tunnel.FramePacket(packet)
    ensures Awaited(buffer, chunks) == Err(TimedOut)
    decreases |chunks|
  {
    if chunks != [] {
      var now, later := buffer + chunks[0], chunks[1..];
      assert Concat(chunks) == chunks[0] + Concat(later);
      hide Concat, Tunnel.FramePacket;
      SeqAssociative(buffer, chunks[0], Concat(later));
      var frame := Tunnel.FramePacket(packet);
      assert now == (now + Concat(later))[..|now|] == frame[..|now|];
      Tunnel.ParsePartial(packet, now);
      WaitsForPacket(packet, now, later);
    }
  }

  /** An empty frame costs a read: what came behind it in the same read is not looked
      at before the next one. */
  lemma EmptyFrameCostsARead(data: seq<Byte>, chunks: seq<seq<Byte>>)
    ensures Awaited([], [Tunnel.FramePacket([]) + data] + chunks) == Awaited(data, chunks)
  {
    var first := Tunnel.FramePacket([]) + data;
    assert [] + first == first && ([first] + chunks)[1..] == chunks;
    Tunnel.ParseFramed([], data);
  }

  // ---- an answer behind empty frames ----

  function Empties(k: nat): seq<Byte>
  {
    if k == 0 then [] else Tunnel.FramePacket([]) + Empties(k - 1)
  }

  /** How many bytes have arrived after `j` reads, with `have` of them there before. */
  function Got(have: nat, chunks: seq<seq<Byte>>, j: nat): nat
    requires j <= |chunks|
    decreases j
  {
    if j == 0 then have else Got(have + |chunks[0]|, chunks[1..], j - 1)
  }

  /** After the `j`-th read there are as many reads to come, the last not counted, as
      empty frames that have not arrived. */
  predicate InTime(have: nat, chunks: seq<seq<Byte>>, k: nat, j: nat)
    requires j < |chunks|
  {
    k <= Got(have, chunks, j) / Tunnel.LENGTH_BYTES + (|chunks| - 1 - j)
  }

  /** Each of the `k` empty frames in front has a read of its own before the last one. */
  ghost predicate ReadsEnough(have: nat, chunks: seq<seq<Byte>>, k: nat)
  {
    |chunks| > k && forall j | 1 <= j < |chunks| :: InTime(have, chunks, k, j)
  }

  lemma {:induction false} GotLess(have: nat, less: nat, chunks: seq<seq<Byte>>, j: nat)
    requires j <= |chunks| && less <= have
    ensures Got(have - less, chunks, j) + less == Got(have, chunks, j)
    decreases j
  {
    if j > 0 {
      GotLess(have + |chunks[0]|, less, chunks[1..], j - 1);
    }
  }

  /** A read that does not complete the empty frame at the front. */
  lemma ReadWasted(have: nat, chunks: seq<seq<Byte>>, k: nat)
    requires chunks != [] && k > 0 && have + |chunks[0]| < Tunnel.LENGTH_BYTES
    ensures ReadsEnough(have, chunks, k) <==> ReadsEnough(have + |chunks[0]|, chunks[1..], k)
  {
    var now, later := have + |chunks[0]|, chunks[1..];
    forall j | 0 <= j < |later| ensures InTime(have, chunks, k, j + 1) <==> InTime(now, later, k, j) {
    }
    if |later| > 0 {
      assert InTime(have, chunks, k, 1) <==> |later| > k by { assert Got(have, chunks, 1) == Got(now, later, 0) == now; }
    }
    hide InTime;
    assert forall j | 2 <= j < |chunks| :: InTime(have, chunks, k, j) <==> InTime(now, later, k, j - 1);
  }

  /** A read after which the empty frame at the front is there. */
  lemma ReadSpent(have: nat, chunks: seq<seq<Byte>>, k: nat)
    requires chunks != [] && k > 0 && have + |chunks[0]| >= Tunnel.LENGTH_BYTES
    ensures ReadsEnough(have, chunks, k) <==> ReadsEnough(have + |chunks[0]| - Tunnel.LENGTH_BYTES, chunks[1..], k - 1)
  {
    var now, later := have + |chunks[0]|, chunks[1..];
    var left, fewer := now - Tunnel.LENGTH_BYTES, k - 1;
    forall j | 0 <= j < |later| ensures InTime(have, chunks, k, j + 1) <==> InTime(left, later, fewer, j) {
      GotLess(now, Tunnel.LENGTH_BYTES, later, j);
      assert Got(have, chunks, j + 1) == Got(left, later, j) + Tunnel.LENGTH_BYTES;
    }
    if |later| > 0 {
      assert |chunks| > k ==> InTime(have, chunks, k, 1) by { assert Got(have, chunks, 1) == Got(now, later, 0) == now; }
    }
    hide InTime;
    assert forall j | 2 <= j < |chunks| :: InTime(have, chunks, k, j) <==> InTime(left, later, fewer, j - 1);
  }

  /** Exactly when an answer behind `k` empty frames is found, however the stream is cut
      into reads: when each of the empty frames has a read of its own before the last.
      Otherwise the loop waits for a read that does not come. */
  lemma {:induction false} FindsBehind(k: nat, packet: seq<Byte>, buffer: seq<Byte>, chunks: seq<seq<Byte>>, tail: seq<Byte>)
    requires 0 < |packet| <= Tunnel.MAX_PACKET_SIZE && NoneEmpty(chunks)
    requires buffer + Concat(chunks) == Empties(k) + (Tunnel.FramePacket(packet) + tail)
    ensures var r := Awaited(buffer, chunks);
            if ReadsEnough(|buffer|, chunks, k)
            then r.Ok? && r.value.packet == packet && r.value.dropped + Concat(r.value.unread) == tail
            else r == Err(TimedOut)
    decreases |chunks|
  {
    if chunks != [] {
      hide Concat, Tunnel.FramePacket, Tunnel.ParseFramedPacket, InTime;
      var now, later := buffer + chunks[0], chunks[1..];
      ConcatTurn(chunks);
      SeqAssociative(buffer, chunks[0], Concat(later));
      if k == 0 {
        assert ReadsEnough(|buffer|, chunks, 0) by { AlwaysInTime(|buffer|, chunks); }
        assert Empties(0) + (Tunnel.FramePacket(packet) + tail) == Tunnel.FramePacket(packet) + tail;
        FindsNow(packet, buffer, chunks, tail);
      } else {
        EmptyFirst(k, Tunnel.FramePacket(packet) + tail, now, Concat(later));
        hide Empties, ReadsEnough;
        if |now| < Tunnel.LENGTH_BYTES {
          ReadWasted(|buffer|, chunks, k);
          FindsBehind(k, packet, now, later, tail);
        } else {
          ReadSpent(|buffer|, chunks, k);
          FindsBehind(k - 1, packet, now[Tunnel.LENGTH_BYTES..], later, tail);
        }
      }
    }
  }

  lemma AlwaysInTime(have: nat, chunks: seq<seq<Byte>>)
    ensures forall j | 1 <= j < |chunks| :: InTime(have, chunks, 0, j)
  {
  }

  /** What the parser makes of a stream that goes on with an empty frame. */
  lemma EmptyFirst(k: nat, rest: seq<Byte>, now: seq<Byte>, later: seq<Byte>)
    requires k > 0 && now + later == Empties(k) + rest
    ensures if |now| < Tunnel.LENGTH_BYTES then Tunnel.ParseFramedPacket(now) == Ok((None, now))
            else
              && Tunnel.ParseFramedPacket(now) == Ok((Some([]), now[Tunnel.LENGTH_BYTES..]))
              && now[Tunnel.LENGTH_BYTES..] + later == Empties(k - 1) + rest
  {
    var frame := Tunnel.FramePacket([]);
    assert |frame| == Tunnel.LENGTH_BYTES;
    SeqAssociative(frame, Empties(k - 1), rest);
    assert now + later == frame + (Empties(k - 1) + rest);
    hide Empties, Tunnel.FramePacket, Tunnel.ParseFramedPacket;
    FrameThere(frame, Empties(k - 1) + rest, now, later);
    if |now| < |frame| {
      Tunnel.ParsePartial([], now);
    } else {
      Tunnel.ParseFramed([], now[|frame|..]);
    }
  }

  lemma ConcatTurn(chunks: seq<seq<Byte>>)
    requires chunks != []
    ensures Concat(chunks) == chunks[0] + Concat(chunks[1..])
  {
  }

  /** The frame in front of what arrives is the front of what has arrived. */
  lemma FrameThere(frame: seq<Byte>, tail: seq<Byte>, now: seq<Byte>, later: seq<Byte>)
    requires now + later == frame + tail
    ensures if |now| < |frame| then now == frame[..|now|]
            else now == frame + now[|frame|..] && now[|frame|..] + later == tail
  {
    if |now| < |frame| {
      assert now == (now + later)[..|now|] == (frame + tail)[..|now|];
    } else {
      assert now[..|frame|] == (now + later)[..|frame|] == (frame + tail)[..|frame|];
      assert now[|frame|..] + later == (now + later)[|frame|..] == (frame + tail)[|frame|..];
    }
  }

  /** With nothing in front of it the packet is found by the read that completes it, or
      by the next one if it is all there. */
  lemma FindsNow(packet: seq<Byte>, buffer: seq<Byte>, chunks: seq<seq<Byte>>, tail: seq<Byte>)
    requires 0 < |packet| <= Tunnel.MAX_PACKET_SIZE && NoneEmpty(chunks) && chunks != []
    requires buffer + Concat(chunks) == Tunnel.FramePacket(packet) + tail
    ensures var r := Awaited(buffer, chunks);
            r.Ok? && r.value.packet == packet && r.value.dropped + Concat(r.value.unread) == tail
  {
    hide Concat, Tunnel.FramePacket, Tunnel.ParseFramedPacket;
    var frame := Tunnel.FramePacket(packet);
    FrameThere(frame, tail, buffer, Concat(chunks));
    if |buffer| < |frame| {
      FindsPacket(packet, buffer, chunks, tail);
    } else {
      var now, later := buffer + chunks[0], chunks[1..];
      ConcatTurn(chunks);
      SeqAssociative(buffer, chunks[0], Concat(later));
      FrameThere(frame, tail, now, Concat(later));
      Tunnel.ParseFramed(packet, now[|frame|..]);
    }
  }

  /** One empty frame in front: the answer is found exactly when the empty frame was
      there before the last read. */
  lemma BehindOneEmptyFrame(packet: seq<Byte>, chunks: seq<seq<Byte>>, tail: seq<Byte>)
    requires 0 < |packet| <= Tunnel.MAX_PACKET_SIZE && NoneEmpty(chunks) && chunks != []
    requires Concat(chunks) == Tunnel.FramePacket([]) + (Tunnel.FramePacket(packet) + tail)
    ensures var r := Awaited([], chunks);
            if Got(0, chunks, |chunks| - 1) >= Tunnel.LENGTH_BYTES
            then r.Ok? && r.value.packet == packet && r.value.dropped + Concat(r.value.unread) == tail
            else r == Err(TimedOut)
  {
    hide Concat, Tunnel.FramePacket, Awaited;
    assert Empties(1) == Tunnel.FramePacket([]) + Empties(0) == Tunnel.FramePacket([]);
    assert [] + Concat(chunks) == Concat(chunks);
    FindsBehind(1, packet, [], chunks, tail);
    OneInTime(chunks);
  }

  lemma OneInTime(chunks: seq<seq<Byte>>)
    requires chunks != []
    ensures ReadsEnough(0, chunks, 1) <==> Got(0, chunks, |chunks| - 1) >= Tunnel.LENGTH_BYTES
  {
    var n := |chunks|;
    if n > 1 {
      assert InTime(0, chunks, 1, n - 1) <==> Got(0, chunks, n - 1) >= Tunnel.LENGTH_BYTES;
      assert forall j | 1 <= j < n - 1 :: InTime(0, chunks, 1, j);
    }
  }

  /** The answer that is missed: it comes in one read with an empty frame in front. */
  lemma AnswerMissed(packet: seq<Byte>)
    requires 0 < |packet| <= Tunnel.MAX_PACKET_SIZE
    ensures Awaited([], [Tunnel.FramePacket([]) + Tunnel.FramePacket(packet)]) == Err(TimedOut)
  {
    EmptyFrameCostsARead(Tunnel.FramePacket(packet), []);
    var first := Tunnel.FramePacket([]) + Tunnel.FramePacket(packet);
    assert [first] + [] == [first];
  }

  method ReadPacket(chunks: seq<seq<Byte>>) returns (r: Result<Found, Problem>)
    ensures r == Awaited([], chunks)
  {
    var buffer: seq<Byte> := [];
    var k := 0;
    assert chunks[0..] == chunks;
    while k < |chunks|
      invariant 0 <= k <= |chunks|
      invariant Awaited(buffer, chunks[k..]) == Awaited([], chunks)
    {
      var data := chunks[k];
      assert chunks[k..][0] == data && chunks[k..][1..] == chunks[k + 1..];
      if |data| == 0 {
        return Err(Shut);
      }
      buffer := buffer + data;
      var parsed := Tunnel.ParseFramedPacket(buffer);
      if parsed.Err? {
        return Err(Framing(parsed.error));
      }
      var packet := parsed.value.0;
      buffer := parsed.value.1;
      k := k + 1;
      if packet.Some? && |packet.value| > 0 {
        return Ok(Found(packet.value, buffer, chunks[k..]));
      }
    }
    r := Err(TimedOut);
  }

  /** The client's whole handshake over a stream that arrives as `chunks`; `reading` is
      what a packet's bytes say. */
  method PerformHandshake(reading: seq<Byte> -> Packet, pins: Pins, eph: nat, started: Time, chunks: seq<seq<Byte>>, now: Time)
    returns (r: Result<(SessionKeys, Packet), Problem>)
    ensures var found := Awaited([], chunks);
            if found.Err? then r == Err(found.error)
            else
              var c := ClientHears(pins, Client(eph, started, Awaiting), reading(found.value.packet), now);
              if r.Err? then c.phase == Closed && r.error.Refused?
              else
                c.phase.Established? && fresh(r.value.0) && Orderly(r.value.0.conn) && c.phase.conn == r.value.0.conn
                && r.value.1 == Boxed(0, Sealed(r.value.0.conn.tx, 0, AuthOf(pins, ClientTranscript(c))))
  {
    var found := ReadPacket(chunks);
    if found.Err? {
      return Err(found.error);
    }
    var done := FinishHandshake(pins, eph, started, reading(found.value.packet), now);
    if done.Err? {
      return Err(Refused(done.error));
    }
    r := Ok(done.value);
  }

  // ---- the tunnel the handshake opens ----

  /** The counters of a connection, with the bytes its keys stand for. */
  function KeysOf(raw: SymKey -> SecureChannel.Key, conn: Conn): SecureChannel.Keys
  {
    SecureChannel.Keys(raw(conn.tx), raw(conn.rx), |conn.sent|, conn.rxCounter)
  }

  /** Partners in step are what the tunnel starts from, in both directions. */
  lemma InStepIsSynchronised(raw: SymKey -> SecureChannel.Key, c: Conn, s: Conn)
    requires HandshakeRuns.InStep(c, s)
    ensures Tunnel.Synchronised(KeysOf(raw, c), KeysOf(raw, s)) && Tunnel.Synchronised(KeysOf(raw, s), KeysOf(raw, c))
  {
  }

  /** Chunks of what one end wrote for these reads, as the other end takes them. */
  ghost predicate Arrives(a: SecureChannel.Aead, ks: SecureChannel.Keys, kr: SecureChannel.Keys,
                          input: seq<seq<Byte>>, chunks: seq<seq<Byte>>)
  {
    var got := Tunnel.Received(a, kr, [], chunks);
    && !got.failed && got.written <= Concat(input)
    && (Concat(chunks) == Tunnel.Stream(a, ks, input) ==> got.written == Concat(Tunnel.Forwarded(a, ks, input)))
  }

  /** What one end forwards, in any reads, arrives in any chunks at the other. */
  ghost predicate Carries(a: SecureChannel.Aead, ks: SecureChannel.Keys, kr: SecureChannel.Keys)
  {
    forall input: seq<seq<Byte>>, chunks: seq<seq<Byte>> ::
      NoneEmpty(chunks) && Concat(chunks) <= Tunnel.Stream(a, ks, input) ==> Arrives(a, ks, kr, input, chunks)
  }

  lemma OneArrives(a: SecureChannel.Aead, ks: SecureChannel.Keys, kr: SecureChannel.Keys,
                   input: seq<seq<Byte>>, chunks: seq<seq<Byte>>)
    requires SecureChannel.Correct(a) && Tunnel.Synchronised(ks, kr)
    requires NoneEmpty(chunks) && Concat(chunks) <= Tunnel.Stream(a, ks, input)
    ensures Arrives(a, ks, kr, input, chunks)
  {
    Tunnel.TunnelTransparent(a, ks, kr, input, chunks);
    hide Tunnel.Stream, Tunnel.Received, Tunnel.Forwarded, Concat;
  }

  lemma SynchronisedCarries(a: SecureChannel.Aead, ks: SecureChannel.Keys, kr: SecureChannel.Keys)
    requires SecureChannel.Correct(a) && Tunnel.Synchronised(ks, kr)
    ensures Carries(a, ks, kr)
  {
    hide Arrives, Tunnel.Stream, Concat, NoneEmpty, SecureChannel.Correct, Tunnel.Synchronised;
    forall input: seq<seq<Byte>>, chunks: seq<seq<Byte>> | NoneEmpty(chunks) && Concat(chunks) <= Tunnel.Stream(a, ks, input)
      ensures Arrives(a, ks, kr, input, chunks)
    {
      OneArrives(a, ks, kr, input, chunks);
    }
  }

  /** Two sessions that are partners, the server's accepted, neither having sent data. */
  ghost predicate Opened(w: HandshakeRuns.World, i: nat, j: nat)
  {
    && HandshakeRuns.Partners(w, i, j) && w.servers[j].accepted
    && |w.clients[i].phase.conn.sent| == 1 && w.servers[j].conn.sent == []
  }

  /** From the handshake to the last byte, in every run against a hostile network: the
      two ends of a session that was accepted carry each other's streams exactly, both
      ways, whatever cipher is correct and whatever the keys are. */
  lemma HandshakeOpensTunnel(pins: Pins, events: seq<HandshakeRuns.Event>, i: nat, j: nat,
                             a: SecureChannel.Aead, raw: SymKey -> SecureChannel.Key)
    requires HandshakeRuns.PossibleRun(pins, HandshakeRuns.START, events) && SecureChannel.Correct(a)
    requires Opened(HandshakeRuns.Run(pins, HandshakeRuns.START, events), i, j)
    ensures var w := HandshakeRuns.Run(pins, HandshakeRuns.START, events);
            var c, s := KeysOf(raw, w.clients[i].phase.conn), KeysOf(raw, w.servers[j].conn);
            Carries(a, c, s) && Carries(a, s, c)
  {
    HandshakeRuns.StartInStep(pins, events, i, j);
    var w := HandshakeRuns.Run(pins, HandshakeRuns.START, events);
    hide HandshakeRuns.Run, HandshakeRuns.PossibleRun, Carries;
    var c, s := w.clients[i].phase.conn, w.servers[j].conn;
    InStepIsSynchronised(raw, c, s);
    SynchronisedCarries(a, KeysOf(raw, c), KeysOf(raw, s));
    SynchronisedCarries(a, KeysOf(raw, s), KeysOf(raw, c));
  }

  /** There is such a run: clocks inside the skew, and the three messages delivered. */
  lemma HonestSession(pins: Pins, clientTime: Time, serverTime: Time, heardAt: Time, clientEph: nat, serverEph: nat)
    returns (events: seq<HandshakeRuns.Event>)
    requires -300.0 <= serverTime - clientTime <= 300.0 && -300.0 <= heardAt - serverTime <= 300.0
    requires clientEph != serverEph
    ensures HandshakeRuns.PossibleRun(pins, HandshakeRuns.START, events)
    ensures Opened(HandshakeRuns.Run(pins, HandshakeRuns.START, events), 0, 0)
  {
    events := HandshakeRuns.HonestRun(pins, clientTime, serverTime, heardAt, clientEph, serverEph);
    hide HandshakeRuns.Run, HandshakeRuns.PossibleRun;
  }

  /** The tunnel starts with an empty buffer where the handshake stopped reading. Behind
      the answer came `sent`, the front of what the server's end wrote for `input`: the
      tunnel is handed all of it, and delivers it, exactly when a read ended where the
      answer did; otherwise what that read held of it is gone. */
  lemma TunnelBehindAnswer(a: SecureChannel.Aead, ks: SecureChannel.Keys, kr: SecureChannel.Keys,
                           packet: seq<Byte>, chunks: seq<seq<Byte>>, input: seq<seq<Byte>>, sent: seq<Byte>)
    requires 0 < |packet| <= Tunnel.MAX_PACKET_SIZE && NoneEmpty(chunks) && Carries(a, ks, kr)
    requires Concat(chunks) == Tunnel.FramePacket(packet) + sent && sent <= Tunnel.Stream(a, ks, input)
    ensures var r := Awaited([], chunks);
            && r.Ok? && r.value.packet == packet
            && (Concat(r.value.unread) == sent <==> CutAfter([], chunks, |Tunnel.FramePacket(packet)|))
            && (Concat(r.value.unread) == sent ==> Arrives(a, ks, kr, input, r.value.unread))
  {
    assert [] < Tunnel.FramePacket(packet);
    assert [] + Concat(chunks) == Concat(chunks);
    FindsPacket(packet, [], chunks, sent);
    UnreadNoneEmpty([], chunks);
    hide Tunnel.FramePacket, Awaited, CutAfter, Arrives, Concat;
    var found := Awaited([], chunks).value;
    assert |found.dropped + Concat(found.unread)| == |sent|;
    if found.dropped == [] {
      assert [] + Concat(found.unread) == Concat(found.unread);
    }
  }

  /** In a run where the server waits for the proof, as it does, nothing is behind the
      answer while the loop reads, and nothing is dropped. */
  lemma NothingBehindAnswer(packet: seq<Byte>, chunks: seq<seq<Byte>>)
    requires 0 < |packet| <= Tunnel.MAX_PACKET_SIZE && NoneEmpty(chunks) && Concat(chunks) == Tunnel.FramePacket(packet)
    ensures Awaited([], chunks) == Ok(Found(packet, [], []))
  {
    assert [] < Tunnel.FramePacket(packet);
    assert [] + Concat(chunks) == Concat(chunks) == Tunnel.FramePacket(packet) + [];
    FindsPacket(packet, [], chunks, []);
    UnreadNoneEmpty([], chunks);
    var found := Awaited([], chunks).value;
    hide Tunnel.FramePacket, Awaited, CutAfter;
    assert |found.dropped| == |Concat(found.unread)| == 0 by { hide Concat; }
  }

  lemma {:induction false} UnreadNoneEmpty(buffer: seq<Byte>, chunks: seq<seq<Byte>>)
    requires NoneEmpty(chunks)
    ensures Awaited(buffer, chunks).Ok? ==> NoneEmpty(Awaited(buffer, chunks).value.unread)
    decreases |chunks|
  {
    if chunks != [] {
      var parsed := Tunnel.ParseFramedPacket(buffer + chunks[0]);
      hide Tunnel.ParseFramedPacket;
      if parsed.Ok? {
        UnreadNoneEmpty(parsed.value.1, chunks[1..]);
      }
    }
  }
}
