/** Length-prefixed framing (`protocol.py`) and the two forwarding loops of
    `client.py`, stacked on the secure channel: bytes read at one end are the
    bytes written at the other, however the input was split into reads and
    however the stream was re-cut on the way. */
module Tunnel {
  import opened Bytes
  import opened SecureChannel

  const MAX_PACKET_SIZE := 65535
  const LENGTH_BYTES := 4
  const DATA: Byte := 0x10

  datatype ProtocolError = PacketTooLarge | DataTooLarge | EmptyPacket | WrongType | Crypto(error: CryptoError)

  // ---- framing ----

  function FramePacket(packet: seq<Byte>): (framed: seq<Byte>)
  {
    Le(|packet|, LENGTH_BYTES) + packet
  }

  /** The first packet of `data` and what follows it, or no packet and `data` itself. */
  function ParseFramedPacket(data: seq<Byte>): (r: Result<(Option<seq<Byte>>, seq<Byte>), ProtocolError>)
    ensures r.Ok? && r.value.0.Some? ==> |r.value.1| < |data|
  {
    if |data| < LENGTH_BYTES then Ok((None, data))
    else
      var length := UnLe(data[..LENGTH_BYTES]);
      if length > MAX_PACKET_SIZE then Err(PacketTooLarge)
      else if |data| < LENGTH_BYTES + length then Ok((None, data))
      else Ok((Some(data[LENGTH_BYTES..LENGTH_BYTES + length]), data[LENGTH_BYTES + length..]))
  }

  /** Parsing inverts framing whatever follows, and leaves it alone. */
  lemma ParseFramed(packet: seq<Byte>, rest: seq<Byte>)
    requires |packet| <= MAX_PACKET_SIZE
    ensures ParseFramedPacket(FramePacket(packet) + rest) == Ok((Some(packet), rest))
  {
    var data := FramePacket(packet) + rest;
    Widths();
    LeRoundTrip(|packet|, LENGTH_BYTES);
    assert data[..LENGTH_BYTES] == Le(|packet|, LENGTH_BYTES);
    assert data[LENGTH_BYTES..LENGTH_BYTES + |packet|] == packet;
    assert data[LENGTH_BYTES + |packet|..] == rest;
  }

  /** A frame cut short anywhere is not a packet yet, and not an error either. */
  lemma ParsePartial(packet: seq<Byte>, data: seq<Byte>)
    requires |packet| <= MAX_PACKET_SIZE
    requires data < FramePacket(packet)
    ensures ParseFramedPacket(data) == Ok((None, data))
  {
    if |data| >= LENGTH_BYTES {
      Widths();
      LeRoundTrip(|packet|, LENGTH_BYTES);
      assert data[..LENGTH_BYTES] == FramePacket(packet)[..LENGTH_BYTES] == Le(|packet|, LENGTH_BYTES);
    }
  }

  /** Everything the parser accepts is the framing of what it returned: no other
      byte string reads as that packet. */
  lemma ParseIsFraming(data: seq<Byte>)
    requires ParseFramedPacket(data).Ok? && ParseFramedPacket(data).value.0.Some?
    ensures var (packet, rest) := ParseFramedPacket(data).value;
            data == FramePacket(packet.value) + rest && |packet.value| <= MAX_PACKET_SIZE
  {
    UnLeRoundTrip(data[..LENGTH_BYTES]);
    var length := UnLe(data[..LENGTH_BYTES]);
    assert data == data[..LENGTH_BYTES] + data[LENGTH_BYTES..LENGTH_BYTES + length] + data[LENGTH_BYTES + length..];
  }

  /** A frame byte by byte: four bytes of length, least significant first, and the packet. */
  lemma FrameLayout(packet: seq<Byte>)
    requires |packet| <= 65535
    ensures var s := FramePacket(packet);
            && |s| == 4 + |packet| && s[4..] == packet
            && s[0] + 256 * (s[1] as int) + 65536 * (s[2] as int) + 16777216 * (s[3] as int) == |packet|
  {
    var s := FramePacket(packet);
    Widths();
    LeRoundTrip(|packet|, 4);
    hide Le, UnLe, Pow256;
    assert s[..4] == Le(|packet|, 4);
    LittleEndian(s[..4]);
  }

  /** What the parser makes of any bytes: nothing yet, an error over 65535, or the packet. */
  lemma ParsesExactly(data: seq<Byte>)
    ensures |data| < 4 ==> ParseFramedPacket(data) == Ok((None, data))
    ensures |data| >= 4 ==>
              var length: nat := data[0] + 256 * (data[1] as int) + 65536 * (data[2] as int) + 16777216 * (data[3] as int);
              ParseFramedPacket(data) ==
              if length > 65535 then Err(PacketTooLarge)
              else if |data| < 4 + length then Ok((None, data))
              else Ok((Some(data[4..4 + length]), data[4 + length..]))
  {
    if |data| >= 4 {
      LittleEndian(data[..4]);
      hide UnLe;
    }
  }

  // ---- data packets ----

  function DataPacket(a: Aead, k: Keys, data: seq<Byte>): (Result<seq<Byte>, ProtocolError>, Keys)
  {
    if |data| > MAX_PACKET_SIZE - 100 then (Err(DataTooLarge), k)
    else
      var (sealed, k') := Encrypted(a, k, [DATA] + data);
      match sealed
      case Err(error) => (Err(Crypto(error)), k')
      case Ok(packet) => (Ok(packet), k')
  }

  function Payload(a: Aead, k: Keys, packet: seq<Byte>): (Result<seq<Byte>, ProtocolError>, Keys)
  {
    var (plain, k') := Decrypted(a, k, packet);
    match plain
    case Err(error) => (Err(Crypto(error)), k')
    case Ok(plaintext) =>
      if |plaintext| < 1 then (Err(EmptyPacket), k')
      else if plaintext[0] != DATA then (Err(WrongType), k')
      else (Ok(plaintext[1..]), k')
  }

  /** A data packet is a box over the byte 16 and the data, of at most 65435 bytes; and
      whatever opens to less or to another first byte is refused. */
  lemma DataLayout(a: Aead, k: Keys, data: seq<Byte>, packet: seq<Byte>)
    ensures |data| > 65435 ==> DataPacket(a, k, data) == (Err(DataTooLarge), k)
    ensures |data| <= 65435 ==>
              var (sealed, k') := Encrypted(a, k, [16] + data);
              DataPacket(a, k, data) == (if sealed.Ok? then Ok(sealed.value) else Err(Crypto(sealed.error)), k')
    ensures var (plain, k') := Decrypted(a, k, packet);
            Payload(a, k, packet) ==
            if plain.Err? then (Err(Crypto(plain.error)), k')
            else if plain.value == [] then (Err(EmptyPacket), k')
            else if plain.value[0] != 16 then (Err(WrongType), k')
            else (Ok(plain.value[1..]), k')
  {
    hide Encrypted, Decrypted;
    match Decrypted(a, k, packet).0
    case Err(_) =>
    case Ok(plain) => assert plain == [] <==> |plain| < 1;
  }

  /** Every packet the sender can make fits the frame limit the receiver enforces,
      and opens at the other end of a synchronised session to exactly its data. */
  lemma DataRoundTrip(a: Aead, ks: Keys, kr: Keys, data: seq<Byte>)
    requires Correct(a) && Synchronised(ks, kr) && DataPacket(a, ks, data).0.Ok?
    ensures var (packet, ks') := DataPacket(a, ks, data);
            && |packet.value| <= MAX_PACKET_SIZE
            && Payload(a, kr, packet.value) == (Ok(data), kr.(rxCounter := kr.rxCounter + 1))
            && Synchronised(ks', kr.(rxCounter := kr.rxCounter + 1))
  {
    OpenSealed(a, ks, kr, [DATA] + data);
    assert ([DATA] + data)[1..] == data;
  }

  /** What the handshake leaves behind (`Session.InStepIsSynchronised`) and every
      delivered packet restores. */
  ghost predicate Synchronised(ks: Keys, kr: Keys)
  {
    kr.rxKey == ks.txKey && ks.txCounter == kr.rxCounter + 1
  }

  // ---- the sending loop ----

  /** What `local_to_vpn` writes for a sequence of reads: an empty read is the end
      of the input, and a packet that cannot be made ends the loop. */
  function Stream(a: Aead, k: Keys, input: seq<seq<Byte>>): seq<Byte>
    decreases |input|
  {
    if input == [] || input[0] == [] then []
    else
      var (packet, k') := DataPacket(a, k, input[0]);
      if packet.Err? then [] else FramePacket(packet.value) + Stream(a, k', input[1..])
  }

  /** The reads that loop forwards. */
  function Forwarded(a: Aead, k: Keys, input: seq<seq<Byte>>): (sent: seq<seq<Byte>>)
    ensures sent <= input
    decreases |input|
  {
    if input == [] || input[0] == [] then []
    else
      var (packet, k') := DataPacket(a, k, input[0]);
      if packet.Err? then [] else [input[0]] + Forwarded(a, k', input[1..])
  }

  method CreateDataPacket(keys: SecurityKeys, data: seq<Byte>) returns (r: Result<seq<Byte>, ProtocolError>)
    modifies keys
    ensures (r, keys.View()) == DataPacket(keys.aead, old(keys.View()), data)
  {
    if |data| > MAX_PACKET_SIZE - 100 {
      return Err(DataTooLarge);
    }
    var sealed := keys.Encrypt([DATA] + data);
    r := match sealed case Err(error) => Err(Crypto(error)) case Ok(packet) => Ok(packet);
  }

  method ParseDataPacket(keys: SecurityKeys, packet: seq<Byte>) returns (r: Result<seq<Byte>, ProtocolError>)
    modifies keys
    ensures (r, keys.View()) == Payload(keys.aead, old(keys.View()), packet)
  {
    var plain := keys.Decrypt(packet);
    if plain.Err? {
      return Err(Crypto(plain.error));
    }
    if |plain.value| < 1 {
      return Err(EmptyPacket);
    }
    if plain.value[0] != DATA {
      return Err(WrongType);
    }
    r := Ok(plain.value[1..]);
  }

  /** One turn of that loop, as far as what it has left to write. */
  lemma StreamTurn(a: Aead, k: Keys, input: seq<seq<Byte>>, i: nat)
    requires i <= |input|
    ensures i == |input| ==> Stream(a, k, input[i..]) == [] && Forwarded(a, k, input[i..]) == []
    ensures i < |input| ==>
            var (packet, k') := DataPacket(a, k, input[i]);
            if input[i] == [] || packet.Err? then Stream(a, k, input[i..]) == [] && Forwarded(a, k, input[i..]) == []
            else Stream(a, k, input[i..]) == FramePacket(packet.value) + Stream(a, k', input[i + 1..])
                 && Forwarded(a, k, input[i..]) == [input[i]] + Forwarded(a, k', input[i + 1..])
  {
    if i < |input| {
      assert input[i..][0] == input[i] && input[i..][1..] == input[i + 1..];
    }
  }

  method LocalToVpn(keys: SecurityKeys, input: seq<seq<Byte>>) returns (stream: seq<Byte>, bytesTx: nat)
    modifies keys
    ensures stream == Stream(keys.aead, old(keys.View()), input)
    ensures bytesTx == |Concat(Forwarded(keys.aead, old(keys.View()), input))|
  {
    stream, bytesTx := [], 0;
    ghost var a, start := keys.aead, keys.View();
    ghost var done: seq<seq<Byte>> := [];
    hide Stream, Forwarded, DataPacket, FramePacket;
    var i := 0;
    assert input[0..] == input;
    while i < |input|
      invariant 0 <= i <= |input|
      invariant stream + Stream(a, keys.View(), input[i..]) == Stream(a, start, input)
      invariant done + Forwarded(a, keys.View(), input[i..]) == Forwarded(a, start, input)
      invariant bytesTx == |Concat(done)|
    {
      StreamTurn(a, keys.View(), input, i);
      if input[i] == [] {
        assert stream + [] == stream && done + [] == done;
        return;
      }
      var packet := CreateDataPacket(keys, input[i]);
      if packet.Err? {
        assert stream + [] == stream && done + [] == done;
        return;
      }
      ConcatAppend(done, [input[i]]);
      assert Concat([input[i]]) == input[i];
      bytesTx := bytesTx + |input[i]|;
      SeqAssociative(stream, FramePacket(packet.value), Stream(a, keys.View(), input[i + 1..]));
      SeqAssociative(done, [input[i]], Forwarded(a, keys.View(), input[i + 1..]));
      stream := stream + FramePacket(packet.value);
      done := done + [input[i]];
      i := i + 1;
    }
    StreamTurn(a, keys.View(), input, i);
    assert stream + [] == stream && done + [] == done;
  }

  // ---- the receiving loop ----

  datatype Drained = Drained(written: seq<Byte>, keys: Keys, rest: seq<Byte>, failed: bool)

  /** The inner loop of `vpn_to_local`: every complete packet at the front of the
      buffer, opened and written in turn; the first error ends the connection. */
  function Drain(a: Aead, k: Keys, buffer: seq<Byte>): Drained
    decreases |buffer|
  {
    var parsed := ParseFramedPacket(buffer);
    if parsed.Err? then Drained([], k, buffer, true)
    else if parsed.value.0.None? then Drained([], k, parsed.value.1, false)
    else
      var (payload, k') := Payload(a, k, parsed.value.0.value);
      if payload.Err? then Drained([], k', parsed.value.1, true)
      else
        var later := Drain(a, k', parsed.value.1);
        later.(written := payload.value + later.written)
  }

  /** One turn of that loop. */
  lemma DrainTurn(a: Aead, k: Keys, buffer: seq<Byte>)
    ensures var parsed := ParseFramedPacket(buffer);
            if parsed.Err? then Drain(a, k, buffer) == Drained([], k, buffer, true)
            else if parsed.value.0.None? then
              parsed.value.1 == buffer && Drain(a, k, buffer) == Drained([], k, buffer, false)
            else
              var (payload, k') := Payload(a, k, parsed.value.0.value);
              var later := Drain(a, k', parsed.value.1);
              Drain(a, k, buffer) == if payload.Err? then Drained([], k', parsed.value.1, true)
                                     else later.(written := payload.value + later.written)
  {
  }

  /** Many reads in turn, until one fails or the peer closes (an empty read). */
  function Received(a: Aead, k: Keys, buffer: seq<Byte>, chunks: seq<seq<Byte>>): Drained
    decreases |chunks|
  {
    if chunks == [] || chunks[0] == [] then Drained([], k, buffer, false)
    else
      var now := Drain(a, k, buffer + chunks[0]);
      if now.failed then now
      else
        var later := Received(a, now.keys, now.rest, chunks[1..]);
        later.(written := now.written + later.written)
  }

  class Receiver {
    const keys: SecurityKeys
    var vpnBuffer: seq<Byte>
    var written: seq<Byte>
    var bytesRx: nat
    var closed: bool

    constructor (keys: SecurityKeys)
      ensures this.keys == keys && vpnBuffer == [] && written == [] && bytesRx == 0 && !closed
    {
      this.keys := keys;
      vpnBuffer, written, bytesRx, closed := [], [], 0, false;
    }

    /** One nonempty read: append, then process all complete packets. */
    method OnData(data: seq<Byte>)
      requires !closed
      modifies this, keys
      ensures var now := Drain(keys.aead, old(keys.View()), old(vpnBuffer) + data);
              && written == old(written) + now.written
              && keys.View() == now.keys && closed == now.failed
              && (!closed ==> vpnBuffer == now.rest)
      ensures bytesRx - old(bytesRx) == |written| - |old(written)|
    {
      hide Drain, Payload, ParseFramedPacket;
      vpnBuffer := vpnBuffer + data;
      ghost var goal := Drain(keys.aead, keys.View(), vpnBuffer);
      ghost var before, taken: seq<Byte> := written, [];
      var more := true;
      assert before + [] == before;
      while more
        invariant !closed && written == before + taken
        invariant var now := Drain(keys.aead, keys.View(), vpnBuffer);
                  goal == now.(written := taken + now.written)
        invariant !more ==> goal == Drained(taken, keys.View(), vpnBuffer, false)
        invariant bytesRx - old(bytesRx) == |taken|
        decreases more, |vpnBuffer|
      {
        assert taken + [] == taken;
        DrainTurn(keys.aead, keys.View(), vpnBuffer);
        var parsed := ParseFramedPacket(vpnBuffer);
        if parsed.Err? {
          closed := true;
          return;
        }
        vpnBuffer := parsed.value.1;
        if parsed.value.0 == None {
          more := false;
        } else {
          var payload := ParseDataPacket(keys, parsed.value.0.value);
          if payload.Err? {
            closed := true;
            return;
          }
          bytesRx := bytesRx + |payload.value|;
          SeqAssociative(before, taken, payload.value);
          SeqAssociative(taken, payload.value, Drain(keys.aead, keys.View(), vpnBuffer).written);
          taken := taken + payload.value;
          written := written + payload.value;
        }
      }
    }
  }

  lemma ReceivedTurn(a: Aead, k: Keys, buffer: seq<Byte>, chunks: seq<seq<Byte>>, i: nat)
    requires i < |chunks|
    ensures var got, now := Received(a, k, buffer, chunks[i..]), Drain(a, k, buffer + chunks[i]);
            if chunks[i] == [] then got == Drained([], k, buffer, false)
            else if now.failed then got == now
            else
              var later := Received(a, now.keys, now.rest, chunks[i + 1..]);
              got == later.(written := now.written + later.written)
  {
    hide Drain;
    assert chunks[i..][0] == chunks[i] && chunks[i..][1..] == chunks[i + 1..];
  }

  /** With `taken` written so far, the reads from `i` on lead to `goal`. */
  ghost predicate Leads(goal: Drained, taken: seq<Byte>, a: Aead, k: Keys, buffer: seq<Byte>, chunks: seq<seq<Byte>>, i: nat)
    requires i <= |chunks|
  {
    var later := Received(a, k, buffer, chunks[i..]);
    goal == later.(written := taken + later.written)
  }

  lemma LeadsOn(goal: Drained, taken: seq<Byte>, a: Aead, k: Keys, buffer: seq<Byte>, chunks: seq<seq<Byte>>, i: nat)
    requires i < |chunks| && chunks[i] != [] && Leads(goal, taken, a, k, buffer, chunks, i)
    ensures var now := Drain(a, k, buffer + chunks[i]);
            if now.failed then goal == now.(written := taken + now.written)
            else Leads(goal, taken + now.written, a, now.keys, now.rest, chunks, i + 1)
  {
    ReceivedTurn(a, k, buffer, chunks, i);
    hide Drain, Received;
    var now := Drain(a, k, buffer + chunks[i]);
    SeqAssociative(taken, now.written, Received(a, now.keys, now.rest, chunks[i + 1..]).written);
  }

  lemma LeadsNoFurther(goal: Drained, taken: seq<Byte>, a: Aead, k: Keys, buffer: seq<Byte>, chunks: seq<seq<Byte>>, i: nat)
    requires i <= |chunks| && (i < |chunks| ==> chunks[i] == []) && Leads(goal, taken, a, k, buffer, chunks, i)
    ensures goal == Drained(taken, k, buffer, false)
  {
    if i < |chunks| {
      ReceivedTurn(a, k, buffer, chunks, i);
    } else {
      NothingReceived(a, k, buffer);
      assert chunks[i..] == [];
    }
    hide Drain, Received;
    assert taken + [] == taken;
  }

  /** The outer loop: `chunks` is what the successive reads return. */
  method VpnToLocal(receiver: Receiver, chunks: seq<seq<Byte>>)
    requires !receiver.closed
    modifies receiver, receiver.keys
    ensures var got := Received(receiver.keys.aead, old(receiver.keys.View()), old(receiver.vpnBuffer), chunks);
            receiver.written == old(receiver.written) + got.written && receiver.closed == got.failed
  {
    ghost var a, before, taken: seq<Byte> := receiver.keys.aead, receiver.written, [];
    ghost var goal := Received(a, receiver.keys.View(), receiver.vpnBuffer, chunks);
    var i := 0;
    assert chunks[0..] == chunks && before + [] == before && [] + goal.written == goal.written;
    assert Leads(goal, taken, a, receiver.keys.View(), receiver.vpnBuffer, chunks, 0);
    hide Drain, Received, Leads;
    while i < |chunks|
      invariant 0 <= i <= |chunks| && !receiver.closed && receiver.written == before + taken
      invariant Leads(goal, taken, a, receiver.keys.View(), receiver.vpnBuffer, chunks, i)
    {
      if chunks[i] == [] {
        LeadsNoFurther(goal, taken, a, receiver.keys.View(), receiver.vpnBuffer, chunks, i);
        return;
      }
      LeadsOn(goal, taken, a, receiver.keys.View(), receiver.vpnBuffer, chunks, i);
      ghost var now := Drain(a, receiver.keys.View(), receiver.vpnBuffer + chunks[i]);
      receiver.OnData(chunks[i]);
      SeqAssociative(before, taken, now.written);
      if receiver.closed {
        return;
      }
      i := i + 1;
      taken := taken + now.written;
    }
    LeadsNoFurther(goal, taken, a, receiver.keys.View(), receiver.vpnBuffer, chunks, i);
  }

  lemma NothingReceived(a: Aead, k: Keys, buffer: seq<Byte>)
    ensures Received(a, k, buffer, []) == Drained([], k, buffer, false)
  {
  }

  // ---- transparency ----

  /** The receiver is `m` reads into `input`: those are written, and its buffer
      with what is still to come is the rest of the sender's stream. */
  ghost predicate Caught(a: Aead, ks: Keys, kr: Keys, input: seq<seq<Byte>>, buffer: seq<Byte>, future: seq<Byte>)
  {
    Synchronised(ks, kr) && buffer + future == Stream(a, ks, input)
  }

  lemma DrainStep(a: Aead, ks: Keys, kr: Keys, input: seq<seq<Byte>>, buffer: seq<Byte>, future: seq<Byte>)
    returns (packet: seq<Byte>, ks': Keys, tail: seq<Byte>)
    requires Correct(a) && Caught(a, ks, kr, input, buffer, future) && Stream(a, ks, input) != []
    ensures var kr', rest := kr.(rxCounter := kr.rxCounter + 1), Stream(a, ks', input[1..]);
            && (Ok(packet), ks') == DataPacket(a, ks, input[0])
            && Payload(a, kr, packet) == (Ok(input[0]), kr')
            && Forwarded(a, ks, input) == [input[0]] + Forwarded(a, ks', input[1..])
            && (if |buffer| < |FramePacket(packet)| then ParseFramedPacket(buffer) == Ok((None, buffer)) && future != []
                else ParseFramedPacket(buffer) == Ok((Some(packet), tail)) && Caught(a, ks', kr', input[1..], tail, future))
  {
    packet, ks' := DataPacket(a, ks, input[0]).0.value, DataPacket(a, ks, input[0]).1;
    DataRoundTrip(a, ks, kr, input[0]);
    var stream, frame := Stream(a, ks, input), FramePacket(packet);
    assert stream == frame + Stream(a, ks', input[1..]);
    hide DataPacket, FramePacket, Payload, ParseFramedPacket, Stream, Forwarded, Correct;
    assert buffer == stream[..|buffer|];
    tail := [];
    if |buffer| < |frame| {
      assert buffer == frame[..|buffer|];
      ParsePartial(packet, buffer);
    } else {
      tail := buffer[|frame|..];
      assert frame == stream[..|frame|] == buffer[..|frame|];
      assert buffer == frame + tail;
      ParseFramed(packet, tail);
      assert tail + future == stream[|frame|..];
    }
  }

  lemma PrefixMore(sent: seq<seq<Byte>>, input: seq<seq<Byte>>, n: nat)
    requires n + 1 <= |sent| && n + 1 <= |input|
    ensures Concat(sent[..n + 1]) == sent[0] + Concat(sent[1..][..n])
    ensures input[n + 1..] == input[1..][n..] && sent[n + 1..] == sent[1..][n..]
  {
    assert sent[..n + 1][0] == sent[0] && sent[..n + 1][1..] == sent[1..][..n];
  }

  lemma {:induction false} DrainPrefix(a: Aead, ks: Keys, kr: Keys, input: seq<seq<Byte>>, buffer: seq<Byte>, future: seq<Byte>)
    returns (m: nat, ks': Keys)
    requires Correct(a) && Caught(a, ks, kr, input, buffer, future)
    ensures var sent, now := Forwarded(a, ks, input), Drain(a, kr, buffer);
            && !now.failed && m <= |sent| && now.written == Concat(sent[..m])
            && Caught(a, ks', now.keys, input[m..], now.rest, future)
            && Forwarded(a, ks', input[m..]) == sent[m..]
            && (future == [] ==> m == |sent|)
    decreases |input|
  {
    var sent := Forwarded(a, ks, input);
    m, ks' := 0, ks;
    DrainTurn(a, kr, buffer);
    assert input[0..] == input && sent[0..] == sent && Concat(sent[..0]) == [];
    if Stream(a, ks, input) == [] {
      assert buffer == [];
    } else {
      hide Drain, DataPacket, FramePacket, Payload, ParseFramedPacket, Stream, Forwarded, Correct;
      var packet, ks1, tail := DrainStep(a, ks, kr, input, buffer, future);
      if |buffer| >= |FramePacket(packet)| {
        var n: nat;
        n, ks' := DrainPrefix(a, ks1, kr.(rxCounter := kr.rxCounter + 1), input[1..], tail, future);
        m := n + 1;
        hide Caught, Synchronised, Concat;
        assert sent[1..] == Forwarded(a, ks1, input[1..]);
        PrefixMore(sent, input, n);
      }
    }
  }

  lemma {:induction false} ReceivedPrefix(a: Aead, ks: Keys, kr: Keys, input: seq<seq<Byte>>, buffer: seq<Byte>,
                                          chunks: seq<seq<Byte>>, future: seq<Byte>)
    returns (m: nat)
    requires Correct(a) && Caught(a, ks, kr, input, buffer, Concat(chunks) + future)
    requires forall i :: 0 <= i < |chunks| ==> chunks[i] != []
    ensures var sent, got := Forwarded(a, ks, input), Received(a, kr, buffer, chunks);
            && !got.failed && m <= |sent| && got.written == Concat(sent[..m])
            && (future == [] && chunks != [] ==> m == |sent|)
    decreases |chunks|
  {
    var sent := Forwarded(a, ks, input);
    hide Drain, Forwarded, Stream;
    if chunks == [] {
      m := 0;
    } else {
      var later := Concat(chunks[1..]) + future;
      assert buffer + (Concat(chunks) + future) == (buffer + chunks[0]) + later;
      var n, ks' := DrainPrefix(a, ks, kr, input, buffer + chunks[0], later);
      var now := Drain(a, kr, buffer + chunks[0]);
      var k := ReceivedPrefix(a, ks', now.keys, input[n..], now.rest, chunks[1..], future);
      m := n + k;
      ConcatAppend(sent[..n], sent[n..][..k]);
      assert sent[..m] == sent[..n] + sent[n..][..k];
    }
  }

  /** End-to-end transparency. Cut the input into reads in any way, cut a prefix
      of the resulting stream into nonempty chunks in any way: the far end never
      fails, what it has written is what was read up to the end of some read, and
      once the whole stream has arrived it has written everything forwarded. */
  lemma TunnelTransparent(a: Aead, ks: Keys, kr: Keys, input: seq<seq<Byte>>, chunks: seq<seq<Byte>>)
    requires Correct(a) && Synchronised(ks, kr)
    requires forall i :: 0 <= i < |chunks| ==> chunks[i] != []
    requires Concat(chunks) <= Stream(a, ks, input)
    ensures var got := Received(a, kr, [], chunks);
            && !got.failed && got.written <= Concat(input)
            && (Concat(chunks) == Stream(a, ks, input) ==> got.written == Concat(Forwarded(a, ks, input)))
  {
    hide Received, Stream, Forwarded, Correct, Concat;
    var stream, sent := Stream(a, ks, input), Forwarded(a, ks, input);
    var future := stream[|Concat(chunks)|..];
    assert [] + (Concat(chunks) + future) == stream;
    var m := ReceivedPrefix(a, ks, kr, input, [], chunks, future);
    PrefixOfAll(input, sent, m);
    if Concat(chunks) == stream && chunks == [] {
      assert Concat(chunks) == [] by { NothingJoined(); }
      NothingForwarded(a, ks, input);
    }
  }

  lemma NothingJoined()
    ensures Concat<Byte>([]) == []
  {
  }

  lemma NothingForwarded(a: Aead, ks: Keys, input: seq<seq<Byte>>)
    requires Stream(a, ks, input) == []
    ensures Forwarded(a, ks, input) == []
  {
    hide DataPacket;
  }

  lemma PrefixOfAll(input: seq<seq<Byte>>, sent: seq<seq<Byte>>, m: nat)
    requires sent <= input && m <= |sent|
    ensures Concat(sent[..m]) <= Concat(input)
    ensures m == |sent| ==> Concat(sent[..m]) == Concat(sent)
  {
    hide Concat;
    ConcatAppend(input[..m], input[m..]);
    assert sent[..m] == input[..m] && input == input[..m] + input[m..];
    assert sent[..|sent|] == sent;
  }

  /** Everything is forwarded: reads of at most the loop's own 8192 bytes, none of
      them empty, and a counter that is not about to run out. */
  lemma {:induction false} AllForwarded(a: Aead, ks: Keys, input: seq<seq<Byte>>)
    requires forall i :: 0 <= i < |input| ==> 0 < |input[i]| <= 8192
    requires ks.txCounter + |input| <= COUNTER_LIMIT
    ensures Forwarded(a, ks, input) == input
    decreases |input|
  {
    if input != [] {
      assert 0 < |input[0]| <= 8192;
      AllForwarded(a, DataPacket(a, ks, input[0]).1, input[1..]);
    }
  }
}
