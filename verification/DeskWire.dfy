/** The desktop stream's wire format, from the agent to the viewer: the encoder in
    `crates/services/desk/src/wire.rs` and the console's decoder `deskMessage` in
    `sites/console/app.js`. Text is kept as the bytes it arrived in. */
module DeskWire {
  import opened Bytes

  datatype Monitor = Monitor(
    id: Byte, originX: int, originY: int, width: nat, height: nat, scalePermille: nat, primary: bool)

  datatype Message =
    | Hello(protocol: nat, edge: nat, maxFps: Byte, capabilities: Byte, monitors: seq<Monitor>)
    | Status(notice: Byte, detail: seq<Byte>)
    | FrameBegin(monitor: Byte, sequence: nat, width: nat, height: nat, keyframe: bool)
    | Tile(monitor: Byte, col: nat, row: nat, encoding: Byte, payload: seq<Byte>)
    | FrameEnd(sequence: nat)
    | CursorPos(x: int, y: int, visible: bool)
    | CursorShape(shape: nat, hotspotX: nat, hotspotY: nat, width: nat, height: nat, pixels: seq<Byte>)
    | InputRefused(reason: Byte)

  const U16 := 65536
  const U32 := 4294967296
  const U64 := 18446744073709551616
  const MONITOR_BYTES := 20
  const EXACT := 9007199254740992

  /** The notices and the refusals this build has a sentence for. */
  predicate KnownNotice(code: Byte)
  {
    1 <= code <= 9
  }

  predicate KnownRefusal(code: Byte)
  {
    1 <= code <= 6
  }

  // ---- numbers ----

  predicate IsI32(v: int)
  {
    -2147483648 <= v < 2147483648
  }

  function Signed(n: nat): int
  {
    if n < 2147483648 then n else n - U32
  }

  function Unsigned(v: int): nat
    requires IsI32(v)
  {
    if v < 0 then v + U32 else v
  }

  /** The spacing of the console's numbers at `n`: they hold 53 bits. */
  function Ulp(n: nat): (u: nat)
    ensures u > 0
  {
    if n < EXACT then 1 else 2 * Ulp(n / 2)
  }

  /** The multiple of `u` nearest to `n`, ties to even. */
  function Nearest(n: nat, u: nat): nat
    requires u > 0
  {
    var q, r := n / u, n % u;
    if 2 * r < u || (2 * r == u && q % 2 == 0) then q * u else (q + 1) * u
  }

  /** `high * 4294967296 + low` as the console computes it: to nearest, ties to even. */
  function Rounded(n: nat): nat
  {
    Nearest(n, Ulp(n))
  }

  lemma NextMultiple(q: nat, u: nat)
    ensures (q + 1) * u == q * u + u
  {
  }

  lemma Division(n: nat, u: nat)
    requires u > 0
    ensures n == (n / u) * u + n % u
  {
  }

  lemma NearestExactly(n: nat, u: nat)
    requires u > 0
    ensures Nearest(n, u) == n <==> n % u == 0
  {
    Division(n, u);
    NextMultiple(n / u, u);
  }

  /** Exactly which 64-bit fields survive the console's arithmetic. */
  lemma RoundedExactly(n: nat)
    ensures Rounded(n) == n <==> n % Ulp(n) == 0
    ensures n < 9007199254740992 ==> Rounded(n) == n
  {
    hide Nearest;
    NearestExactly(n, Ulp(n));
    assert n < EXACT ==> Ulp(n) == 1 && n % 1 == 0;
  }

  // ---- the encoder ----

  function Flag(b: bool): seq<Byte>
  {
    if b then [1] else [0]
  }

  predicate MonitorFits(m: Monitor)
  {
    IsI32(m.originX) && IsI32(m.originY) && m.width < U32 && m.height < U32 && m.scalePermille < U16
  }

  /** Every field in the range its width allows. The agent stays well inside it: at
      most 16 displays, at most 256 bytes of detail. */
  predicate Fits(m: Message)
  {
    match m
    case Hello(protocol, edge, _, _, monitors) =>
      protocol < U16 && edge < U16 && |monitors| < 256 && forall k :: 0 <= k < |monitors| ==> MonitorFits(monitors[k])
    case Status(notice, detail) => KnownNotice(notice) && |detail| < U16
    case FrameBegin(_, sequence, width, height, _) => sequence < U64 && width < U32 && height < U32
    case Tile(_, col, row, _, payload) => col < U16 && row < U16 && |payload| < U32
    case FrameEnd(sequence) => sequence < U64
    case CursorPos(x, y, _) => IsI32(x) && IsI32(y)
    case CursorShape(shape, hx, hy, width, height, pixels) =>
      shape < U64 && hx < width < U16 && hy < height < U16 && |pixels| == width * height * 4 && |pixels| < U32
    case InputRefused(reason) => KnownRefusal(reason)
  }

  function EncodeMonitor(m: Monitor): (s: seq<Byte>)
    requires MonitorFits(m)
    ensures |s| == MONITOR_BYTES
  {
    [m.id] + (Be(Unsigned(m.originX), 4) + (Be(Unsigned(m.originY), 4) + (Be(m.width, 4) + (Be(m.height, 4)
    + (Be(m.scalePermille, 2) + Flag(m.primary))))))
  }

  function EncodeMonitors(ms: seq<Monitor>): (s: seq<Byte>)
    requires forall k :: 0 <= k < |ms| ==> MonitorFits(ms[k])
    ensures |s| == MONITOR_BYTES * |ms|
  {
    if ms == [] then [] else EncodeMonitor(ms[0]) + EncodeMonitors(ms[1..])
  }

  function Encode(m: Message): (s: seq<Byte>)
    requires Fits(m)
    ensures |s| > 0
  {
    match m
    case Hello(protocol, edge, maxFps, capabilities, monitors) =>
      [0x01] + (Be(protocol, 2) + (Be(edge, 2) + ([maxFps, capabilities, |monitors|] + EncodeMonitors(monitors))))
    case Status(notice, detail) => [0x02, notice] + (Be(|detail|, 2) + detail)
    case FrameBegin(monitor, sequence, width, height, keyframe) =>
      [0x03, monitor] + (Be(sequence, 8) + (Be(width, 4) + (Be(height, 4) + Flag(keyframe))))
    case Tile(monitor, col, row, encoding, payload) =>
      [0x04, monitor] + (Be(col, 2) + (Be(row, 2) + ([encoding] + (Be(|payload|, 4) + payload))))
    case FrameEnd(sequence) => [0x05] + Be(sequence, 8)
    case CursorPos(x, y, visible) => [0x06] + (Be(Unsigned(x), 4) + (Be(Unsigned(y), 4) + Flag(visible)))
    case CursorShape(shape, hx, hy, width, height, pixels) =>
      [0x07] + (Be(shape, 8) + (Be(hx, 2) + (Be(hy, 2) + (Be(width, 2) + (Be(height, 2) + (Be(|pixels|, 4) + pixels))))))
    case InputRefused(reason) => [0x08, reason]
  }

  // ---- the decoder: what a byte string means ----

  /** The big-endian number in `s[at..at + n]`. */
  function Num(s: seq<Byte>, at: nat, n: nat): nat
    requires at + n <= |s|
  {
    UnBe(s[at..at + n])
  }

  function MonitorAt(s: seq<Byte>, at: nat): Monitor
    requires at + MONITOR_BYTES <= |s|
  {
    Monitor(s[at], Signed(Num(s, at + 1, 4)), Signed(Num(s, at + 5, 4)), Num(s, at + 9, 4), Num(s, at + 13, 4),
            Num(s, at + 17, 2), s[at + 19] != 0)
  }

  function MonitorsAt(s: seq<Byte>, at: nat, count: nat): (ms: seq<Monitor>)
    requires at + MONITOR_BYTES * count <= |s|
    ensures |ms| == count
    decreases count
  {
    if count == 0 then [] else [MonitorAt(s, at)] + MonitorsAt(s, at + MONITOR_BYTES, count - 1)
  }

  /** The message a byte string is, when it is exactly as long as its own fields say. */
  function Decoded(s: seq<Byte>): Option<Message>
  {
    if s == [] then None
    else if s[0] == 0x01 then
      if |s| < 8 || |s| != 8 + MONITOR_BYTES * s[7] then None
      else Some(Hello(Num(s, 1, 2), Num(s, 3, 2), s[5], s[6], MonitorsAt(s, 8, s[7])))
    else if s[0] == 0x02 then
      if |s| < 4 || |s| != 4 + Num(s, 2, 2) || !KnownNotice(s[1]) then None
      else Some(Status(s[1], s[4..]))
    else if s[0] == 0x03 then
      if |s| != 19 then None
      else Some(FrameBegin(s[1], Rounded(Num(s, 2, 8)), Num(s, 10, 4), Num(s, 14, 4), s[18] != 0))
    else if s[0] == 0x04 then
      if |s| < 11 || |s| != 11 + Num(s, 7, 4) then None
      else Some(Tile(s[1], Num(s, 2, 2), Num(s, 4, 2), s[6], s[11..]))
    else if s[0] == 0x05 then
      if |s| != 9 then None else Some(FrameEnd(Rounded(Num(s, 1, 8))))
    else if s[0] == 0x06 then
      if |s| != 10 then None else Some(CursorPos(Signed(Num(s, 1, 4)), Signed(Num(s, 5, 4)), s[9] != 0))
    else if s[0] == 0x07 then
      if |s| < 21 || |s| != 21 + Num(s, 17, 4) || |s| - 21 != Num(s, 13, 2) * Num(s, 15, 2) * 4
         || Num(s, 9, 2) >= Num(s, 13, 2) || Num(s, 11, 2) >= Num(s, 15, 2) then None
      else Some(CursorShape(Rounded(Num(s, 1, 8)), Num(s, 9, 2), Num(s, 11, 2), Num(s, 13, 2), Num(s, 15, 2), s[21..]))
    else if s[0] == 0x08 then
      if |s| != 2 || !KnownRefusal(s[1]) then None else Some(InputRefused(s[1]))
    else None
  }

  // ---- the decoder as it runs: a cursor and a bounds check before every read ----

  class Cursor {
    const bytes: seq<Byte>
    var at: nat

    constructor (bytes: seq<Byte>)
      ensures this.bytes == bytes && at == 1
    {
      this.bytes, at := bytes, 1;
    }

    method Read(n: nat) returns (v: Option<nat>)
      modifies this
      ensures if old(at) + n <= |bytes| then v == Some(Num(bytes, old(at), n)) && at == old(at) + n
              else v == None && at == old(at)
    {
      if at + n > |bytes| {
        return None;
      }
      v := Some(UnBe(bytes[at..at + n]));
      at := at + n;
    }

    method ReadByte() returns (v: Option<Byte>)
      modifies this
      ensures if old(at) + 1 <= |bytes| then v == Some(bytes[old(at)]) && at == old(at) + 1
              else v == None && at == old(at)
    {
      if at + 1 > |bytes| {
        return None;
      }
      v := Some(bytes[at]);
      at := at + 1;
    }

    /** Two words, the high one folded in; rounded where the console's numbers are. */
    method ReadU64() returns (v: Option<nat>)
      modifies this
      ensures if old(at) + 8 <= |bytes| then v == Some(Rounded(Num(bytes, old(at), 8))) && at == old(at) + 8
              else v == None
    {
      ghost var start := at;
      var high := Read(4);
      var low := Read(4);
      if high == None || low == None {
        return None;
      }
      TwoWords(bytes, start);
      v := Some(Rounded(high.value * U32 + low.value));
    }

    method Blob(length: Option<nat>) returns (v: Option<seq<Byte>>)
      modifies this
      ensures if length.Some? && old(at) + length.value <= |bytes|
              then v == Some(bytes[old(at)..old(at) + length.value]) && at == old(at) + length.value
              else v == None && at == old(at)
    {
      if length == None || at + length.value > |bytes| {
        return None;
      }
      v := Some(bytes[at..at + length.value]);
      at := at + length.value;
    }

    method ReadMonitor() returns (v: Option<Monitor>)
      modifies this
      ensures if old(at) + MONITOR_BYTES <= |bytes| then v == Some(MonitorAt(bytes, old(at))) && at == old(at) + MONITOR_BYTES
              else v == None
    {
      var id := ReadByte();
      var originX := Read(4);
      var originY := Read(4);
      var width := Read(4);
      var height := Read(4);
      var scale := Read(2);
      var primary := ReadByte();
      if id == None || originX == None || originY == None || width == None || height == None || scale == None || primary == None {
        return None;
      }
      v := Some(Monitor(id.value, Signed(originX.value), Signed(originY.value), width.value, height.value, scale.value,
                        primary.value != 0));
    }
  }

  lemma TwoWords(s: seq<Byte>, at: nat)
    requires at + 8 <= |s|
    ensures Num(s, at, 8) == Num(s, at, 4) * U32 + Num(s, at + 4, 4)
  {
    var w := s[at..at + 8];
    assert s[at..at + 4] == w[..4] && s[at + 4..at + 8] == w[4..];
    Widths();
    UnBeSplit(w, 4);
  }

  lemma {:induction false} UnBeSplit(s: seq<Byte>, k: nat)
    requires k <= |s|
    ensures UnBe(s) == UnBe(s[..k]) * Pow256(|s| - k) + UnBe(s[k..])
    decreases |s| - k
  {
    if k == |s| {
      assert s[..k] == s;
    } else {
      var front, last := s[..|s| - 1], s[|s| - 1];
      assert UnBe(s) == 256 * UnBe(front) + last;
      assert s[k..][..|s| - k - 1] == front[k..] && UnBe(s[k..]) == 256 * UnBe(front[k..]) + last;
      assert front[..k] == s[..k] && Pow256(|s| - k) == 256 * Pow256(|s| - k - 1);
      hide *;
      UnBeSplit(front, k);
      Regroup(UnBe(s[..k]), Pow256(|s| - k - 1), UnBe(front[k..]), last);
    }
  }

  lemma Regroup(a: nat, p: nat, b: nat, c: nat)
    ensures 256 * (a * p + b) + c == a * (256 * p) + (256 * b + c)
  {
  }

  /** The console's decoder. It is total, and it answers exactly what `Decoded` says:
      so a message is returned only when every byte was accounted for. */
  method DeskMessage(bytes: seq<Byte>) returns (r: Option<Message>)
    ensures r == Decoded(bytes)
  {
    if |bytes| == 0 {
      return None;
    }
    var c := new Cursor(bytes);
    var m: Option<Message>;
    if bytes[0] == 0x01 {
      m := ReadHello(c);
    } else if bytes[0] == 0x02 {
      m := ReadStatus(c);
    } else if bytes[0] == 0x03 {
      m := ReadFrameBegin(c);
    } else if bytes[0] == 0x04 {
      m := ReadTile(c);
    } else if bytes[0] == 0x05 {
      var sequence := c.ReadU64();
      m := if sequence == None then None else Some(FrameEnd(sequence.value));
    } else if bytes[0] == 0x06 {
      m := ReadCursorPos(c);
    } else if bytes[0] == 0x07 {
      m := ReadCursorShape(c);
    } else if bytes[0] == 0x08 {
      var reason := c.ReadByte();
      m := if reason == None || !KnownRefusal(reason.value) then None else Some(InputRefused(reason.value));
    } else {
      return None;
    }
    r := if m != None && c.at == |bytes| then m else None;
  }

  /** What a reader leaves: the answer once the final length check has been made. */
  ghost predicate Reads(c: Cursor, m: Option<Message>)
    reads c
  {
    (if m != None && c.at == |c.bytes| then m else None) == Decoded(c.bytes)
  }

  method ReadHello(c: Cursor) returns (m: Option<Message>)
    requires c.at == 1 && |c.bytes| > 0 && c.bytes[0] == 0x01
    modifies c
    ensures Reads(c, m)
  {
    hide Num, MonitorsAt;
    var protocol := c.Read(2);
    var edge := c.Read(2);
    var maxFps := c.ReadByte();
    var capabilities := c.ReadByte();
    var count := c.ReadByte();
    if protocol == None || edge == None || maxFps == None || capabilities == None || count == None {
      return None;
    }
    var monitors := ReadMonitors(c, count.value);
    m := if monitors == None then None
         else Some(Hello(protocol.value, edge.value, maxFps.value, capabilities.value, monitors.value));
  }

  method ReadMonitors(c: Cursor, count: nat) returns (v: Option<seq<Monitor>>)
    requires c.at == 8 <= |c.bytes|
    modifies c
    ensures if 8 + MONITOR_BYTES * count <= |c.bytes|
            then v == Some(MonitorsAt(c.bytes, 8, count)) && c.at == 8 + MONITOR_BYTES * count
            else v == None
  {
    hide MonitorAt;
    var monitors: seq<Monitor> := [];
    var n := 0;
    while n < count
      invariant 0 <= n <= count && c.at == 8 + MONITOR_BYTES * n <= |c.bytes|
      invariant 8 + MONITOR_BYTES * count <= |c.bytes| ==>
                  monitors + MonitorsAt(c.bytes, c.at, count - n) == MonitorsAt(c.bytes, 8, count)
    {
      var monitor := c.ReadMonitor();
      if monitor == None {
        return None;
      }
      monitors := monitors + [monitor.value];
      n := n + 1;
    }
    assert monitors + [] == monitors;
    v := Some(monitors);
  }

  method ReadStatus(c: Cursor) returns (m: Option<Message>)
    requires c.at == 1 && |c.bytes| > 0 && c.bytes[0] == 0x02
    modifies c
    ensures Reads(c, m)
  {
    var notice := c.ReadByte();
    var length := c.Read(2);
    if notice == None {
      return None;
    }
    var detail := c.Blob(length);
    if detail == None || !KnownNotice(notice.value) {
      return None;
    }
    assert c.at == |c.bytes| ==> detail.value == c.bytes[4..];
    m := Some(Status(notice.value, detail.value));
  }

  method ReadFrameBegin(c: Cursor) returns (m: Option<Message>)
    requires c.at == 1 && |c.bytes| > 0 && c.bytes[0] == 0x03
    modifies c
    ensures Reads(c, m)
  {
    var monitor := c.ReadByte();
    var sequence := c.ReadU64();
    var width := c.Read(4);
    var height := c.Read(4);
    var keyframe := c.ReadByte();
    if monitor == None || sequence == None || width == None || height == None || keyframe == None {
      return None;
    }
    m := Some(FrameBegin(monitor.value, sequence.value, width.value, height.value, keyframe.value != 0));
  }

  method ReadTile(c: Cursor) returns (m: Option<Message>)
    requires c.at == 1 && |c.bytes| > 0 && c.bytes[0] == 0x04
    modifies c
    ensures Reads(c, m)
  {
    var monitor := c.ReadByte();
    var col := c.Read(2);
    var row := c.Read(2);
    var encoding := c.ReadByte();
    var length := c.Read(4);
    if monitor == None || col == None || row == None || encoding == None {
      return None;
    }
    var payload := c.Blob(length);
    if payload == None {
      return None;
    }
    assert c.at == |c.bytes| ==> payload.value == c.bytes[11..];
    m := Some(Tile(monitor.value, col.value, row.value, encoding.value, payload.value));
  }

  method ReadCursorPos(c: Cursor) returns (m: Option<Message>)
    requires c.at == 1 && |c.bytes| > 0 && c.bytes[0] == 0x06
    modifies c
    ensures Reads(c, m)
  {
    var x := c.Read(4);
    var y := c.Read(4);
    var visible := c.ReadByte();
    if x == None || y == None || visible == None {
      return None;
    }
    m := Some(CursorPos(Signed(x.value), Signed(y.value), visible.value != 0));
  }

  method ReadCursorShape(c: Cursor) returns (m: Option<Message>)
    requires c.at == 1 && |c.bytes| > 0 && c.bytes[0] == 0x07
    modifies c
    ensures Reads(c, m)
  {
    hide Num, Rounded;
    var shape := c.ReadU64();
    var hotspotX := c.Read(2);
    var hotspotY := c.Read(2);
    var width := c.Read(2);
    var height := c.Read(2);
    var length := c.Read(4);
    if shape == None || hotspotX == None || hotspotY == None || width == None || height == None {
      return None;
    }
    var pixels := c.Blob(length);
    if pixels == None || |pixels.value| != width.value * height.value * 4 {
      return None;
    }
    if hotspotX.value >= width.value || hotspotY.value >= height.value {
      return None;
    }
    assert c.at == |c.bytes| ==> pixels.value == c.bytes[21..];
    m := Some(CursorShape(shape.value, hotspotX.value, hotspotY.value, width.value, height.value, pixels.value));
  }

  // ---- the two directions against each other ----

  /** What the console holds for a message it was sent: 64-bit fields rounded to its numbers. */
  function AsNumbers(m: Message): Message
  {
    match m
    case FrameBegin(_, sequence, _, _, _) => m.(sequence := Rounded(sequence))
    case FrameEnd(sequence) => m.(sequence := Rounded(sequence))
    case CursorShape(shape, _, _, _, _, _) => m.(shape := Rounded(shape))
    case _ => m
  }

  lemma NumIs(s: seq<Byte>, at: nat, width: nat, n: nat)
    requires at + width <= |s| && s[at..at + width] == Be(n, width) && n < Pow256(width)
    ensures Num(s, at, width) == n
  {
    BeRoundTrip(n, width);
  }

  lemma SignedIs(v: int)
    requires IsI32(v)
    ensures Signed(Unsigned(v)) == v && Unsigned(v) < Pow256(4)
  {
    Widths();
  }

  lemma Halves(s: seq<Byte>, at: nat, first: seq<Byte>, rest: seq<Byte>)
    requires at <= |s| && s[at..] == first + rest
    ensures at + |first| <= |s| && s[at..at + |first|] == first && s[at + |first|..] == rest
  {
    assert s[at..at + |first|] == s[at..][..|first|];
    assert s[at + |first|..] == s[at..][|first|..];
  }

  lemma MonitorSlices(id: Byte, a: seq<Byte>, b: seq<Byte>, c: seq<Byte>, d: seq<Byte>, e: seq<Byte>, last: Byte)
    requires |a| == 4 && |b| == 4 && |c| == 4 && |d| == 4 && |e| == 2
    ensures var s := [id] + (a + (b + (c + (d + (e + [last])))));
            && |s| == MONITOR_BYTES && s[0] == id && s[1..5] == a && s[5..9] == b && s[9..13] == c
            && s[13..17] == d && s[17..19] == e && s[19] == last
  {
    var s := [id] + (a + (b + (c + (d + (e + [last])))));
    assert s[0..] == s;
    Halves(s, 0, [id], a + (b + (c + (d + (e + [last])))));
    Halves(s, 1, a, b + (c + (d + (e + [last]))));
    Halves(s, 5, b, c + (d + (e + [last])));
    Halves(s, 9, c, d + (e + [last]));
    Halves(s, 13, d, e + [last]);
    Halves(s, 17, e, [last]);
    assert s[19] == s[19..][0];
  }

  lemma MonitorRoundTrip(m: Monitor, s: seq<Byte>, at: nat)
    requires MonitorFits(m) && at + MONITOR_BYTES <= |s| && s[at..at + MONITOR_BYTES] == EncodeMonitor(m)
    ensures MonitorAt(s, at) == m
  {
    Widths();
    SignedIs(m.originX);
    SignedIs(m.originY);
    var w := s[at..at + MONITOR_BYTES];
    var x, y := Unsigned(m.originX), Unsigned(m.originY);
    MonitorSlices(m.id, Be(x, 4), Be(y, 4), Be(m.width, 4), Be(m.height, 4), Be(m.scalePermille, 2), if m.primary then 1 else 0);
    assert w[0] == m.id && w[1..5] == Be(x, 4) && w[5..9] == Be(y, 4) && w[9..13] == Be(m.width, 4)
           && w[13..17] == Be(m.height, 4) && w[17..19] == Be(m.scalePermille, 2) && (w[19] != 0 <==> m.primary);
    assert w[0] == s[at] && w[19] == s[at + 19];
    hide Be, Num, EncodeMonitor, Signed, Unsigned;
    NumWithin(s, at, 1, 4, x);
    NumWithin(s, at, 5, 4, y);
    NumWithin(s, at, 9, 4, m.width);
    NumWithin(s, at, 13, 4, m.height);
    NumWithin(s, at, 17, 2, m.scalePermille);
  }

  lemma NumWithin(s: seq<Byte>, at: nat, k: nat, width: nat, n: nat)
    requires at + MONITOR_BYTES <= |s| && k + width <= MONITOR_BYTES && n < Pow256(width)
    requires s[at..at + MONITOR_BYTES][k..k + width] == Be(n, width)
    ensures Num(s, at + k, width) == n
  {
    hide *;
    SliceWithin(s, at, k, width);
    NumIs(s, at + k, width, n);
  }

  lemma MonitorsTurn(s: seq<Byte>, at: nat, count: nat)
    requires count > 0 && at + MONITOR_BYTES * count <= |s|
    ensures MonitorsAt(s, at, count)[0] == MonitorAt(s, at)
    ensures MonitorsAt(s, at, count)[1..] == MonitorsAt(s, at + MONITOR_BYTES, count - 1)
  {
    hide MonitorAt;
  }

  lemma {:induction false} MonitorsRoundTrip(ms: seq<Monitor>, s: seq<Byte>, at: nat)
    requires forall k :: 0 <= k < |ms| ==> MonitorFits(ms[k])
    requires at + MONITOR_BYTES * |ms| == |s| && s[at..] == EncodeMonitors(ms)
    ensures MonitorsAt(s, at, |ms|) == ms
    decreases |ms|
  {
    if ms != [] {
      var first, rest := EncodeMonitor(ms[0]), EncodeMonitors(ms[1..]);
      assert s[at..] == first + rest;
      MonitorsTurn(s, at, |ms|);
      hide EncodeMonitor, EncodeMonitors, MonitorAt, MonitorsAt, MonitorFits;
      Halves(s, at, first, rest);
      MonitorRoundTrip(ms[0], s, at);
      MonitorsRoundTrip(ms[1..], s, at + MONITOR_BYTES);
      var got := MonitorsAt(s, at, |ms|);
      assert got == [got[0]] + got[1..] && ms == [ms[0]] + ms[1..];
    }
  }

  lemma HelloSlices(kind: Byte, a: seq<Byte>, b: seq<Byte>, counts: seq<Byte>, rest: seq<Byte>)
    requires |a| == 2 && |b| == 2 && |counts| == 3
    ensures var s := [kind] + (a + (b + (counts + rest)));
      s[1..3] == a && s[3..5] == b && s[5..8] == counts && s[8..] == rest
  {
  }

  lemma HelloRoundTrip(m: Message)
    requires Fits(m) && m.Hello?
    ensures Decoded(Encode(m)) == Some(m)
  {
    var s := Encode(m);
    Widths();
    hide Be, Num, EncodeMonitors, MonitorsAt, MonitorFits;
    var counts := [m.maxFps, m.capabilities, |m.monitors|];
    HelloSlices(0x01, Be(m.protocol, 2), Be(m.edge, 2), counts, EncodeMonitors(m.monitors));
    assert s[5] == s[5..8][0] && s[6] == s[5..8][1] && s[7] == s[5..8][2];
    hide Encode;
    NumIs(s, 1, 2, m.protocol);
    NumIs(s, 3, 2, m.edge);
    MonitorsRoundTrip(m.monitors, s, 8);
  }

  lemma FrameRoundTrip(m: Message)
    requires Fits(m) && (m.FrameBegin? || m.FrameEnd? || m.CursorPos?)
    ensures Decoded(Encode(m)) == Some(AsNumbers(m))
  {
    var s := Encode(m);
    Widths();
    match m
    case FrameBegin(monitor, sequence, width, height, keyframe) =>
      assert s[2..10] == Be(sequence, 8) && s[10..14] == Be(width, 4) && s[14..18] == Be(height, 4);
      NumIs(s, 2, 8, sequence);
      NumIs(s, 10, 4, width);
      NumIs(s, 14, 4, height);
    case FrameEnd(sequence) =>
      assert s[1..9] == Be(sequence, 8);
      NumIs(s, 1, 8, sequence);
    case CursorPos(x, y, visible) =>
      assert s[1..5] == Be(Unsigned(x), 4) && s[5..9] == Be(Unsigned(y), 4);
      SignedIs(x);
      SignedIs(y);
      NumIs(s, 1, 4, Unsigned(x));
      NumIs(s, 5, 4, Unsigned(y));
  }

  lemma StatusRoundTrip(m: Message)
    requires Fits(m) && (m.Status? || m.InputRefused?)
    ensures Decoded(Encode(m)) == Some(m)
  {
    var s := Encode(m);
    Widths();
    if m.Status? {
      assert s[2..4] == Be(|m.detail|, 2) && s[4..] == m.detail;
      NumIs(s, 2, 2, |m.detail|);
    }
  }

  lemma TileRoundTrip(m: Message)
    requires Fits(m) && m.Tile?
    ensures Decoded(Encode(m)) == Some(m)
  {
    var s := Encode(m);
    Widths();
    hide Be, Num;
    assert s[2..4] == Be(m.col, 2) && s[4..6] == Be(m.row, 2) && s[7..11] == Be(|m.payload|, 4) && s[11..] == m.payload;
    NumIs(s, 2, 2, m.col);
    NumIs(s, 4, 2, m.row);
    NumIs(s, 7, 4, |m.payload|);
  }

  lemma ShapeSlices(a: seq<Byte>, b: seq<Byte>, c: seq<Byte>, d: seq<Byte>, e: seq<Byte>, f: seq<Byte>, rest: seq<Byte>)
    requires |a| == 8 && |b| == 2 && |c| == 2 && |d| == 2 && |e| == 2 && |f| == 4
    ensures var s := [0x07] + (a + (b + (c + (d + (e + (f + rest))))));
            && |s| == 21 + |rest| && s[0] == 0x07 && s[1..9] == a && s[9..11] == b && s[11..13] == c
            && s[13..15] == d && s[15..17] == e && s[17..21] == f && s[21..] == rest
  {
    var s := [0x07] + (a + (b + (c + (d + (e + (f + rest))))));
    assert s[0..] == s;
    Halves(s, 0, [0x07], a + (b + (c + (d + (e + (f + rest))))));
    Halves(s, 1, a, b + (c + (d + (e + (f + rest)))));
    Halves(s, 9, b, c + (d + (e + (f + rest))));
    Halves(s, 11, c, d + (e + (f + rest)));
    Halves(s, 13, d, e + (f + rest));
    Halves(s, 15, e, f + rest);
    Halves(s, 17, f, rest);
  }

  /** A string with these fields at these places is read as a cursor shape. */
  lemma ShapeRead(s: seq<Byte>, m: Message)
    requires Fits(m) && m.CursorShape? && |s| == 21 + |m.pixels| && s[0] == 0x07 && s[21..] == m.pixels
    requires Num(s, 1, 8) == m.shape && Num(s, 9, 2) == m.hotspotX && Num(s, 11, 2) == m.hotspotY
    requires Num(s, 13, 2) == m.width && Num(s, 15, 2) == m.height && Num(s, 17, 4) == |m.pixels|
    ensures Decoded(s) == Some(AsNumbers(m))
  {
    hide Num, Rounded;
  }

  lemma ShapeRoundTrip(m: Message)
    requires Fits(m) && m.CursorShape?
    ensures Decoded(Encode(m)) == Some(AsNumbers(m))
  {
    var s := Encode(m);
    Widths();
    ShapeSlices(Be(m.shape, 8), Be(m.hotspotX, 2), Be(m.hotspotY, 2), Be(m.width, 2), Be(m.height, 2),
                Be(|m.pixels|, 4), m.pixels);
    hide *;
    NumIs(s, 1, 8, m.shape);
    NumIs(s, 9, 2, m.hotspotX);
    NumIs(s, 11, 2, m.hotspotY);
    NumIs(s, 13, 2, m.width);
    NumIs(s, 15, 2, m.height);
    NumIs(s, 17, 4, |m.pixels|);
    ShapeRead(s, m);
  }

  predicate BelowExact(m: Message)
  {
    (m.FrameBegin? || m.FrameEnd? ==> m.sequence < EXACT) && (m.CursorShape? ==> m.shape < EXACT)
  }

  /** The decoder inverts the encoder for all eight kinds, up to the console's
      numbers; so exactly when every 64-bit field is one of them, and in particular
      below 2^53. */
  lemma WireRoundTrip(m: Message)
    requires Fits(m)
    ensures Decoded(Encode(m)) == Some(AsNumbers(m))
    ensures Decoded(Encode(m)) == Some(m) <==> AsNumbers(m) == m
    ensures BelowExact(m) ==> Decoded(Encode(m)) == Some(m)
  {
    match m
    case Hello(_, _, _, _, _) => HelloRoundTrip(m);
    case CursorShape(shape, _, _, _, _, _) => ShapeRoundTrip(m); RoundedExactly(shape);
    case FrameBegin(_, sequence, _, _, _) => FrameRoundTrip(m); RoundedExactly(sequence);
    case FrameEnd(sequence) => FrameRoundTrip(m); RoundedExactly(sequence);
    case CursorPos(_, _, _) => FrameRoundTrip(m);
    case Tile(_, _, _, _, _) => TileRoundTrip(m);
    case _ => StatusRoundTrip(m);
  }

  /** Every flag byte of an accepted string is 0 or 1, and its 64-bit field is one
      of the console's numbers. */
  ghost predicate Canonical(s: seq<Byte>)
    requires Decoded(s).Some?
  {
    && (s[0] == 0x01 ==> forall k :: 0 <= k < s[7] ==> MonitorCanonical(s, 8 + MONITOR_BYTES * k))
    && (s[0] == 0x03 ==> s[18] <= 1 && Rounded(Num(s, 2, 8)) == Num(s, 2, 8))
    && (s[0] == 0x05 ==> Rounded(Num(s, 1, 8)) == Num(s, 1, 8))
    && (s[0] == 0x06 ==> s[9] <= 1)
    && (s[0] == 0x07 ==> Rounded(Num(s, 1, 8)) == Num(s, 1, 8))
  }

  ghost predicate MonitorCanonical(s: seq<Byte>, at: nat)
  {
    at + MONITOR_BYTES <= |s| && s[at + 19] <= 1
  }

  lemma BeIs(s: seq<Byte>, at: nat, width: nat)
    requires at + width <= |s|
    ensures Be(Num(s, at, width), width) == s[at..at + width]
    ensures Num(s, at, width) < Pow256(width)
  {
    UnBeRoundTrip(s[at..at + width]);
  }

  lemma SignedBack(n: nat)
    requires n < Pow256(4)
    ensures IsI32(Signed(n)) && Unsigned(Signed(n)) == n
  {
    Widths();
  }

  /** A field followed by what comes after it is the string from the field on. */
  lemma Field(s: seq<Byte>, i: nat, field: seq<Byte>, rest: seq<Byte>)
    requires i + |field| <= |s| && field == s[i..i + |field|] && rest == s[i + |field|..]
    ensures field + rest == s[i..]
  {
  }

  lemma MonitorLayout(w: seq<Byte>, a: seq<Byte>, b: seq<Byte>, c: seq<Byte>, d: seq<Byte>, e: seq<Byte>)
    requires |w| == MONITOR_BYTES
    requires a == w[1..5] && b == w[5..9] && c == w[9..13] && d == w[13..17] && e == w[17..19]
    ensures [w[0]] + (a + (b + (c + (d + (e + [w[19]]))))) == w
  {
    assert w[19..] == [w[19]];
    Field(w, 17, e, w[19..]);
    Field(w, 13, d, w[17..]);
    Field(w, 9, c, w[13..]);
    Field(w, 5, b, w[9..]);
    Field(w, 1, a, w[5..]);
    Field(w, 0, [w[0]], w[1..]);
  }

  lemma SliceWithin(s: seq<Byte>, at: nat, k: nat, width: nat)
    requires at + MONITOR_BYTES <= |s| && k + width <= MONITOR_BYTES
    ensures s[at..at + MONITOR_BYTES][k..k + width] == s[at + k..at + k + width]
  {
    var w := s[at..at + MONITOR_BYTES];
    var inner, outer := w[k..k + width], s[at + k..at + k + width];
    forall i | 0 <= i < width ensures inner[i] == outer[i] {
      assert w[k + i] == s[at + (k + i)];
    }
  }

  lemma BeSlice(s: seq<Byte>, at: nat, k: nat, width: nat)
    requires at + MONITOR_BYTES <= |s| && k + width <= MONITOR_BYTES
    ensures Be(Num(s, at + k, width), width) == s[at..at + MONITOR_BYTES][k..k + width]
    ensures Num(s, at + k, width) < Pow256(width)
  {
    hide *;
    SliceWithin(s, at, k, width);
    BeIs(s, at + k, width);
  }

  lemma MonitorAtFits(s: seq<Byte>, at: nat)
    requires at + MONITOR_BYTES <= |s|
    ensures MonitorFits(MonitorAt(s, at))
  {
    Widths();
    BeIs(s, at + 1, 4);
    BeIs(s, at + 5, 4);
    BeIs(s, at + 9, 4);
    BeIs(s, at + 13, 4);
    BeIs(s, at + 17, 2);
    hide Be, Num;
  }

  /** Each number of a display, written out, is the slice it was read from. */
  lemma MonitorParts(s: seq<Byte>, at: nat)
    requires at + MONITOR_BYTES <= |s|
    ensures var w, m := s[at..at + MONITOR_BYTES], MonitorAt(s, at);
            && MonitorFits(m)
            && Be(Unsigned(m.originX), 4) == w[1..5] && Be(Unsigned(m.originY), 4) == w[5..9]
            && Be(m.width, 4) == w[9..13] && Be(m.height, 4) == w[13..17] && Be(m.scalePermille, 2) == w[17..19]
  {
    MonitorAtFits(s, at);
    var m := MonitorAt(s, at);
    assert m.originX == Signed(Num(s, at + 1, 4)) && m.originY == Signed(Num(s, at + 5, 4));
    assert m.width == Num(s, at + 9, 4) && m.height == Num(s, at + 13, 4) && m.scalePermille == Num(s, at + 17, 2);
    assert IsI32(m.originX) && IsI32(m.originY);
    hide *;
    BeSlice(s, at, 1, 4);
    BeSlice(s, at, 5, 4);
    BeSlice(s, at, 9, 4);
    BeSlice(s, at, 13, 4);
    BeSlice(s, at, 17, 2);
    SignedBack(Num(s, at + 1, 4));
    SignedBack(Num(s, at + 5, 4));
  }

  lemma MonitorEnds(s: seq<Byte>, at: nat)
    requires MonitorCanonical(s, at)
    ensures var w, m := s[at..at + MONITOR_BYTES], MonitorAt(s, at); m.id == w[0] && Flag(m.primary) == [w[19]]
  {
    hide Num, Signed;
  }

  lemma MonitorReEncodes(s: seq<Byte>, at: nat)
    requires MonitorCanonical(s, at)
    ensures MonitorFits(MonitorAt(s, at)) && EncodeMonitor(MonitorAt(s, at)) == s[at..at + MONITOR_BYTES]
  {
    assert at + MONITOR_BYTES <= |s|;
    var w, m := s[at..at + MONITOR_BYTES], MonitorAt(s, at);
    MonitorParts(s, at);
    MonitorEnds(s, at);
    hide MonitorAt, MonitorFits, MonitorCanonical, Be, Unsigned, Flag, IsI32;
    assert EncodeMonitor(m) == [w[0]] + (w[1..5] + (w[5..9] + (w[9..13] + (w[13..17] + (w[17..19] + [w[19]])))));
    hide EncodeMonitor;
    MonitorLayout(w, w[1..5], w[5..9], w[9..13], w[13..17], w[17..19]);
  }

  lemma {:induction false} MonitorsReEncode(s: seq<Byte>, at: nat, count: nat)
    requires at + MONITOR_BYTES * count == |s|
    requires forall k :: 0 <= k < count ==> MonitorCanonical(s, at + MONITOR_BYTES * k)
    ensures forall k :: 0 <= k < count ==> MonitorFits(MonitorsAt(s, at, count)[k])
    ensures EncodeMonitors(MonitorsAt(s, at, count)) == s[at..]
    decreases count
  {
    hide MonitorAt, EncodeMonitor, MonitorCanonical, MonitorFits;
    if count > 0 {
      var ms, rest := MonitorsAt(s, at, count), MonitorsAt(s, at + MONITOR_BYTES, count - 1);
      MonitorsTurn(s, at, count);
      hide MonitorsAt;
      assert MonitorCanonical(s, at + MONITOR_BYTES * 0);
      MonitorReEncodes(s, at);
      forall k | 0 <= k < count - 1 ensures MonitorCanonical(s, at + MONITOR_BYTES + MONITOR_BYTES * k) {
        assert MonitorCanonical(s, at + MONITOR_BYTES * (k + 1));
      }
      MonitorsReEncode(s, at + MONITOR_BYTES, count - 1);
      forall k | 0 <= k < count ensures MonitorFits(ms[k]) {
        assert k > 0 ==> ms[k] == rest[k - 1];
      }
      Field(s, at, s[at..at + MONITOR_BYTES], s[at + MONITOR_BYTES..]);
    }
  }

  lemma HelloLayout(s: seq<Byte>, a: seq<Byte>, b: seq<Byte>, rest: seq<Byte>)
    requires |s| >= 8 && a == s[1..3] && b == s[3..5] && rest == s[8..]
    ensures [s[0]] + (a + (b + ([s[5], s[6], s[7]] + rest))) == s
  {
    Field(s, 5, [s[5], s[6], s[7]], rest);
    Field(s, 3, b, s[5..]);
    Field(s, 1, a, s[3..]);
    Field(s, 0, [s[0]], s[1..]);
  }

  lemma HelloReEncodes(s: seq<Byte>)
    requires Decoded(s).Some? && s[0] == 0x01 && Canonical(s)
    ensures Fits(Decoded(s).value) && Encode(Decoded(s).value) == s
  {
    var m := Decoded(s).value;
    HelloDecodes(s);
    hide Decoded, Canonical, MonitorCanonical, Num, Be, EncodeMonitors, MonitorsAt, MonitorFits;
    Widths();
    BeIs(s, 1, 2);
    BeIs(s, 3, 2);
    MonitorsReEncode(s, 8, s[7]);
    HelloLayout(s, Be(m.protocol, 2), Be(m.edge, 2), EncodeMonitors(m.monitors));
  }

  lemma HelloDecodes(s: seq<Byte>)
    requires Decoded(s).Some? && s[0] == 0x01
    ensures 8 <= |s| == 8 + MONITOR_BYTES * s[7]
    ensures Decoded(s).value == Hello(Num(s, 1, 2), Num(s, 3, 2), s[5], s[6], MonitorsAt(s, 8, s[7]))
    ensures Canonical(s) ==> forall k :: 0 <= k < s[7] ==> MonitorCanonical(s, 8 + MONITOR_BYTES * k)
  {
    hide Num, MonitorsAt, MonitorCanonical;
  }

  lemma BeginLayout(s: seq<Byte>, a: seq<Byte>, b: seq<Byte>, c: seq<Byte>)
    requires |s| == 19 && a == s[2..10] && b == s[10..14] && c == s[14..18]
    ensures [s[0], s[1]] + (a + (b + (c + [s[18]]))) == s
  {
    assert s[18..] == [s[18]];
    Field(s, 14, c, s[18..]);
    Field(s, 10, b, s[14..]);
    Field(s, 2, a, s[10..]);
    Field(s, 0, [s[0], s[1]], s[2..]);
  }

  lemma BeginReEncodes(s: seq<Byte>)
    requires Decoded(s).Some? && s[0] == 0x03 && Canonical(s)
    ensures Fits(Decoded(s).value) && Encode(Decoded(s).value) == s
  {
    Widths();
    BeIs(s, 2, 8);
    BeIs(s, 10, 4);
    BeIs(s, 14, 4);
    hide Be, Num, Rounded;
    BeginLayout(s, s[2..10], s[10..14], s[14..18]);
    assert [s[18]] == Flag(s[18] != 0);
  }

  lemma EndReEncodes(s: seq<Byte>)
    requires Decoded(s).Some? && s[0] == 0x05 && Canonical(s)
    ensures Fits(Decoded(s).value) && Encode(Decoded(s).value) == s
  {
    Widths();
    BeIs(s, 1, 8);
    hide Be, Num, Rounded;
    assert s[1..9] == s[1..];
    Field(s, 0, [s[0]], s[1..]);
  }

  lemma CursorLayout(s: seq<Byte>, a: seq<Byte>, b: seq<Byte>)
    requires |s| == 10 && a == s[1..5] && b == s[5..9]
    ensures [s[0]] + (a + (b + [s[9]])) == s
  {
    assert s[9..] == [s[9]];
    Field(s, 5, b, s[9..]);
    Field(s, 1, a, s[5..]);
    Field(s, 0, [s[0]], s[1..]);
  }

  lemma CursorReEncodes(s: seq<Byte>)
    requires Decoded(s).Some? && s[0] == 0x06 && Canonical(s)
    ensures Fits(Decoded(s).value) && Encode(Decoded(s).value) == s
  {
    Widths();
    BeIs(s, 1, 4);
    BeIs(s, 5, 4);
    hide Be, Num;
    SignedBack(Num(s, 1, 4));
    SignedBack(Num(s, 5, 4));
    CursorLayout(s, s[1..5], s[5..9]);
    assert [s[9]] == Flag(s[9] != 0);
  }

  lemma StatusReEncodes(s: seq<Byte>)
    requires Decoded(s).Some? && (s[0] == 0x02 || s[0] == 0x08)
    ensures Fits(Decoded(s).value) && Encode(Decoded(s).value) == s
  {
    hide MonitorsAt, EncodeMonitors, Rounded, Signed, Unsigned, Flag, MonitorFits;
    Widths();
    if s[0] == 0x02 {
      BeIs(s, 2, 2);
      hide Be, Num;
      assert Decoded(s) == Some(Status(s[1], s[4..]));
      hide Decoded;
      Field(s, 2, s[2..4], s[4..]);
      Field(s, 0, [s[0], s[1]], s[2..]);
    }
  }

  lemma TileLayout(s: seq<Byte>, a: seq<Byte>, b: seq<Byte>, c: seq<Byte>)
    requires |s| >= 11 && a == s[2..4] && b == s[4..6] && c == s[7..11]
    ensures [s[0], s[1]] + (a + (b + ([s[6]] + (c + s[11..])))) == s
  {
    Field(s, 7, c, s[11..]);
    Field(s, 6, [s[6]], s[7..]);
    Field(s, 4, b, s[6..]);
    Field(s, 2, a, s[4..]);
    Field(s, 0, [s[0], s[1]], s[2..]);
  }

  lemma TileReEncodes(s: seq<Byte>)
    requires Decoded(s).Some? && s[0] == 0x04
    ensures Fits(Decoded(s).value) && Encode(Decoded(s).value) == s
  {
    Widths();
    BeIs(s, 2, 2);
    BeIs(s, 4, 2);
    BeIs(s, 7, 4);
    hide Be, Num;
    var m := Decoded(s).value;
    assert m == Tile(s[1], Num(s, 2, 2), Num(s, 4, 2), s[6], s[11..]) && |m.payload| == Num(s, 7, 4);
    hide Decoded;
    TileLayout(s, Be(m.col, 2), Be(m.row, 2), Be(|m.payload|, 4));
  }

  lemma ShapeLayout(s: seq<Byte>, a: seq<Byte>, b: seq<Byte>, c: seq<Byte>, d: seq<Byte>, e: seq<Byte>, f: seq<Byte>)
    requires |s| >= 21 && a == s[1..9] && b == s[9..11] && c == s[11..13] && d == s[13..15] && e == s[15..17]
    requires f == s[17..21]
    ensures [s[0]] + (a + (b + (c + (d + (e + (f + s[21..])))))) == s
  {
    Field(s, 17, f, s[21..]);
    Field(s, 15, e, s[17..]);
    Field(s, 13, d, s[15..]);
    Field(s, 11, c, s[13..]);
    Field(s, 9, b, s[11..]);
    Field(s, 1, a, s[9..]);
    Field(s, 0, [s[0]], s[1..]);
  }

  lemma ShapeReEncodes(s: seq<Byte>)
    requires Decoded(s).Some? && s[0] == 0x07 && Canonical(s)
    ensures Fits(Decoded(s).value) && Encode(Decoded(s).value) == s
  {
    Widths();
    BeIs(s, 1, 8);
    BeIs(s, 9, 2);
    BeIs(s, 11, 2);
    BeIs(s, 13, 2);
    BeIs(s, 15, 2);
    BeIs(s, 17, 4);
    hide Be, Num, Rounded;
    var m := Decoded(s).value;
    assert m == CursorShape(Num(s, 1, 8), Num(s, 9, 2), Num(s, 11, 2), Num(s, 13, 2), Num(s, 15, 2), s[21..]);
    assert |m.pixels| == Num(s, 17, 4) && Fits(m);
    hide Decoded, Fits;
    ShapeLayout(s, Be(m.shape, 8), Be(m.hotspotX, 2), Be(m.hotspotY, 2), Be(m.width, 2), Be(m.height, 2), Be(|m.pixels|, 4));
  }

  /** Every accepted string with 0/1 flags is the one encoding of what it decodes to. */
  lemma WireReEncodes(s: seq<Byte>)
    requires Decoded(s).Some? && Canonical(s)
    ensures Fits(Decoded(s).value) && Encode(Decoded(s).value) == s
  {
    if s[0] == 0x01 {
      HelloReEncodes(s);
    } else if s[0] == 0x07 {
      ShapeReEncodes(s);
    } else if s[0] == 0x03 {
      BeginReEncodes(s);
    } else if s[0] == 0x05 {
      EndReEncodes(s);
    } else if s[0] == 0x06 {
      CursorReEncodes(s);
    } else if s[0] == 0x04 {
      TileReEncodes(s);
    } else {
      StatusReEncodes(s);
    }
  }

  lemma {:induction false} MonitorFlags(ms: seq<Monitor>, k: nat)
    requires k < |ms| && forall j :: 0 <= j < |ms| ==> MonitorFits(ms[j])
    ensures EncodeMonitors(ms)[MONITOR_BYTES * k + 19] <= 1
  {
    var first, rest := EncodeMonitor(ms[0]), EncodeMonitors(ms[1..]);
    assert EncodeMonitors(ms) == first + rest;
    if k == 0 {
      assert first[19] == Flag(ms[0].primary)[0];
    } else {
      hide EncodeMonitor, EncodeMonitors, MonitorFits;
      MonitorFlags(ms[1..], k - 1);
      assert (first + rest)[MONITOR_BYTES * k + 19] == rest[MONITOR_BYTES * (k - 1) + 19];
    }
  }

  /** Only a canonical string is what its own message encodes to. */
  lemma HelloCanonical(s: seq<Byte>)
    requires Decoded(s).Some? && s[0] == 0x01 && Fits(Decoded(s).value) && Encode(Decoded(s).value) == s
    ensures Canonical(s)
  {
    var m := Decoded(s).value;
    assert m.Hello? && |m.monitors| == s[7];
    var counts := [m.maxFps, m.capabilities, |m.monitors|];
    Widths();
    HelloSlices(0x01, Be(m.protocol, 2), Be(m.edge, 2), counts, EncodeMonitors(m.monitors));
    assert s[8..] == EncodeMonitors(m.monitors);
    hide Decoded, Encode, EncodeMonitors, Be, MonitorFits;
    forall k | 0 <= k < s[7] ensures MonitorCanonical(s, 8 + MONITOR_BYTES * k) {
      MonitorFlags(m.monitors, k);
      assert s[8 + (MONITOR_BYTES * k + 19)] == s[8..][MONITOR_BYTES * k + 19];
    }
  }

  lemma FrameCanonical(s: seq<Byte>)
    requires Decoded(s).Some? && s[0] != 0x01 && Fits(Decoded(s).value) && Encode(Decoded(s).value) == s
    ensures Canonical(s)
  {
    var m := Decoded(s).value;
    Widths();
    hide Rounded, Num;
    if s[0] == 0x03 {
      assert s[2..10] == Be(m.sequence, 8) && s[18] == Flag(m.keyframe)[0];
      NumIs(s, 2, 8, m.sequence);
    } else if s[0] == 0x05 {
      assert s[1..9] == Be(m.sequence, 8);
      NumIs(s, 1, 8, m.sequence);
    } else if s[0] == 0x06 {
      assert s[9] == Flag(m.visible)[0];
    } else if s[0] == 0x07 {
      assert s[1..9] == Be(m.shape, 8);
      NumIs(s, 1, 8, m.shape);
    }
  }

  /** Exactly which accepted strings re-encode to themselves. */
  lemma WireReEncodesExactly(s: seq<Byte>)
    requires Decoded(s).Some?
    ensures Fits(Decoded(s).value) && Encode(Decoded(s).value) == s <==> Canonical(s)
  {
    hide Decoded, Encode, Fits, Canonical;
    if Canonical(s) {
      WireReEncodes(s);
    } else if Fits(Decoded(s).value) && Encode(Decoded(s).value) == s {
      SomeByte(s);
      if s[0] == 0x01 {
        HelloCanonical(s);
      } else {
        FrameCanonical(s);
      }
      assert false;
    }
  }

  lemma SomeByte(s: seq<Byte>)
    requires Decoded(s).Some?
    ensures s != []
  {
  }
}
