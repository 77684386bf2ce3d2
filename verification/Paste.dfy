/** Pasting: a text cut into messages the wire takes (`textMessage` and `textChunks` in
    `sites/console/app.js`). A text is what iterating a string gives: code points, and
    surrogates that stand alone, which encode as the replacement character. */
module Paste {
  import opened Bytes

  const MAX_TEXT_BYTES := 1024

  type Glyph = n: nat | n < 0x110000
  type Text = seq<Glyph>

  predicate Surrogate(g: Glyph)
  {
    0xD800 <= g < 0xE000
  }

  /** UTF-8, as the browser's encoder writes it. */
  function Utf8(g: Glyph): (b: seq<Byte>)
    ensures 1 <= |b| <= 4
  {
    var n: nat := g;
    if n < 0x80 then [n]
    else if n < 0x800 then [0xC0 + n / 64, 0x80 + n % 64]
    else if Surrogate(g) then [0xEF, 0xBF, 0xBD]
    else if n < 0x10000 then [0xE0 + n / 4096, 0x80 + n / 64 % 64, 0x80 + n % 64]
    else [0xF0 + n / 262144, 0x80 + n / 4096 % 64, 0x80 + n / 64 % 64, 0x80 + n % 64]
  }

  function Encoded(text: Text): seq<Byte>
  {
    if text == [] then [] else Encoded(text[..|text| - 1]) + Utf8(text[|text| - 1])
  }

  function Size(text: Text): nat
  {
    |Encoded(text)|
  }

  lemma {:induction false} EncodedAppend(a: Text, b: Text)
    ensures Encoded(a + b) == Encoded(a) + Encoded(b)
  {
    if b == [] {
      assert a + b == a;
    } else {
      var front, last := b[..|b| - 1], b[|b| - 1];
      assert (a + b)[..|a + b| - 1] == a + front && (a + b)[|a + b| - 1] == last;
      hide Utf8;
      EncodedAppend(a, front);
      SeqAssociative(Encoded(a), Encoded(front), Utf8(last));
    }
  }

  /** A text inside another takes no more room, and one that is not empty takes some. */
  lemma SizeWithin(text: Text, from: nat, to: nat, low: nat, high: nat)
    requires low <= from <= to <= high <= |text|
    ensures Size(text[from..to]) <= Size(text[low..high])
  {
    assert text[low..high] == text[low..from] + (text[from..to] + text[to..high]);
    EncodedAppend(text[low..from], text[from..to] + text[to..high]);
    EncodedAppend(text[from..to], text[to..high]);
  }

  // ---- one message ----

  function TextMessage(text: Text): Option<seq<Byte>>
  {
    var bytes := Encoded(text);
    if |bytes| == 0 || |bytes| > MAX_TEXT_BYTES then None else Some([0x41, |bytes| / 256 % 256, |bytes| % 256] + bytes)
  }

  /** The bytes of one character: how many, the marks they carry, and that the bits they
      leave are the character's; a surrogate is written as the replacement character. */
  lemma Utf8Exactly(g: Glyph)
    ensures var n: nat, b := g, Utf8(g);
            if n < 0x80 then b == [n]
            else if n < 0x800 then
              |b| == 2 && 0xC2 <= b[0] <= 0xDF && Continues(b[1]) && n == (b[0] as int - 0xC0) * 64 + (b[1] as int - 0x80)
            else if 0xD800 <= n <= 0xDFFF then b == [0xEF, 0xBF, 0xBD]
            else if n < 0x10000 then
              |b| == 3 && 0xE0 <= b[0] <= 0xEF && Continues(b[1]) && Continues(b[2])
              && n == (b[0] as int - 0xE0) * 4096 + (b[1] as int - 0x80) * 64 + (b[2] as int - 0x80)
            else
              |b| == 4 && 0xF0 <= b[0] <= 0xF4 && Continues(b[1]) && Continues(b[2]) && Continues(b[3])
              && n == (b[0] as int - 0xF0) * 262144 + (b[1] as int - 0x80) * 4096 + (b[2] as int - 0x80) * 64 + (b[3] as int - 0x80)
  {
    Sixes(g);
  }

  predicate Continues(b: Byte)
  {
    0x80 <= b <= 0xBF
  }

  /** A number is its sixes of bits. */
  lemma Sixes(n: nat)
    ensures n == n / 64 * 64 + n % 64
    ensures n == n / 4096 * 4096 + n / 64 % 64 * 64 + n % 64
    ensures n == n / 262144 * 262144 + n / 4096 % 64 * 4096 + n / 64 % 64 * 64 + n % 64
  {
    var q, r := n / 64, n / 64 / 64;
    assert q == n / 64 / 64 * 64 + q % 64 && r == n / 64 / 64 / 64 * 64 + r % 64;
  }

  /** Exactly the texts of 1 to 1024 bytes are messages: a mark, the length in two bytes,
      and the text. */
  lemma MessageExactly(text: Text)
    ensures var bytes := Encoded(text);
            if 1 <= |bytes| <= 1024 then TextMessage(text) == Some([0x41, |bytes| / 256, |bytes| % 256] + bytes)
            else TextMessage(text) == None
  {
    hide Encoded;
  }

  // ---- the cut ----

  function Joined(chunks: seq<Text>): Text
  {
    if chunks == [] then [] else Joined(chunks[..|chunks| - 1]) + chunks[|chunks| - 1]
  }

  /** Each piece says something and fits. */
  predicate Fit(chunks: seq<Text>, room: nat)
  {
    forall k :: 0 <= k < |chunks| ==> chunks[k] != [] && Size(chunks[k]) <= room
  }

  /** No piece had room for the first character of the next. */
  ghost predicate Filled(chunks: seq<Text>, room: nat)
  {
    forall i, j :: 0 <= i < j < |chunks| && j == i + 1 ==> Full(chunks[i], chunks[j], room)
  }

  predicate Full(piece: Text, next: Text, room: nat)
  {
    next != [] && Size(piece + next[..1]) > room
  }

  lemma SizeOne(held: Text, g: Glyph)
    ensures Size(held + [g]) == Size(held) + |Utf8(g)|
  {
    EncodedAppend(held, [g]);
    assert [g][..0] == [] && Encoded([g]) == [] + Utf8(g) == Utf8(g);
  }

  lemma JoinedOne(chunks: seq<Text>, last: Text)
    ensures Joined(chunks + [last]) == Joined(chunks) + last
  {
    assert (chunks + [last])[..|chunks|] == chunks;
  }

  /** The state of the cut once `done` has been read. */
  ghost predicate Cutting(done: Text, chunks: seq<Text>, held: Text, bytes: nat, room: nat)
  {
    && Joined(chunks) + held == done && Fit(chunks, room) && bytes == Size(held) <= room
    && (held == [] ==> chunks == []) && (held != [] ==> Filled(chunks + [held], room))
  }

  /** The chunks joined are the text; each is not empty and fits; and each was filled
      before the next was begun. */
  method TextChunks(text: Text, limit: int) returns (chunks: seq<Text>)
    ensures Joined(chunks) == text
    ensures var room := if limit < 4 then 4 else limit; Fit(chunks, room) && Filled(chunks, room)
  {
    var room := if limit < 4 then 4 else limit;
    chunks := [];
    var held: Text := [];
    var bytes: nat := 0;
    NothingCut(room);
    assert text[..0] == [];
    hide Cutting, Joined, Fit, Filled, Utf8, Size, Encoded;
    for k := 0 to |text|
      invariant Cutting(text[..k], chunks, held, bytes, room)
    {
      var glyph := text[k];
      var size := |Utf8(glyph)|;
      ghost var done := text[..k];
      OneRead(text, k);
      if bytes + size > room {
        NextBegun(done, chunks, held, bytes, glyph, room);
        chunks := chunks + [held];
        held := [];
        bytes := 0;
      } else {
        Extended(done, chunks, held, bytes, glyph, room);
      }
      held := held + [glyph];
      bytes := bytes + size;
    }
    OneRead(text, |text|);
    LastKept(text, chunks, held, bytes, room);
    if held != [] {
      chunks := chunks + [held];
    }
  }

  lemma OneRead(text: Text, k: nat)
    requires k <= |text|
    ensures if k < |text| then text[..k + 1] == text[..k] + [text[k]] else text[..k] == text
  {
  }

  lemma NothingCut(room: nat)
    ensures Cutting([], [], [], 0, room)
  {
    assert Joined([]) + [] == [];
  }

  lemma Extended(done: Text, chunks: seq<Text>, held: Text, bytes: nat, g: Glyph, room: nat)
    requires Cutting(done, chunks, held, bytes, room) && bytes + |Utf8(g)| <= room
    ensures Cutting(done + [g], chunks, held + [g], bytes + |Utf8(g)|, room)
  {
    SizeOne(held, g);
    SeqAssociative(Joined(chunks), held, [g]);
    FilledLonger(chunks, held, g, room);
    hide Joined, Fit, Filled, Size, Utf8;
  }

  lemma NextBegun(done: Text, chunks: seq<Text>, held: Text, bytes: nat, g: Glyph, room: nat)
    requires Cutting(done, chunks, held, bytes, room) && bytes + |Utf8(g)| > room && room >= 4
    ensures Cutting(done + [g], chunks + [held], [] + [g], |Utf8(g)|, room)
  {
    SizeOne(held, g);
    SizeOne([], g);
    assert [] + [g] == [g] && Size([]) == 0;
    hide Joined, Fit, Filled, Size, Utf8;
    JoinedOne(chunks, held);
    FilledMore(chunks, held, g, room);
    FitMore(chunks, held, room);
  }

  lemma LastKept(text: Text, chunks: seq<Text>, held: Text, bytes: nat, room: nat)
    requires Cutting(text, chunks, held, bytes, room)
    ensures var all := if held != [] then chunks + [held] else chunks;
            Joined(all) == text && Fit(all, room) && Filled(all, room)
  {
    if held != [] {
      JoinedOne(chunks, held);
      FitMore(chunks, held, room);
    } else {
      assert Joined(chunks) + [] == Joined(chunks);
    }
  }

  lemma FitMore(chunks: seq<Text>, held: Text, room: nat)
    requires Fit(chunks, room) && held != [] && Size(held) <= room
    ensures Fit(chunks + [held], room)
  {
    hide Size;
  }

  lemma FilledMore(chunks: seq<Text>, held: Text, g: Glyph, room: nat)
    requires held != [] && Filled(chunks + [held], room) && Size(held + [g]) > room
    ensures Filled(chunks + [held] + [[g]], room)
  {
    var was, all := chunks + [held], chunks + [held] + [[g]];
    assert Full(held, [g], room) by { assert [g][..1] == [g]; }
    hide Full;
    forall i, j | 0 <= i < j < |all| && j == i + 1 ensures Full(all[i], all[j], room) {
      if j < |was| {
        assert all[i] == was[i] && all[j] == was[j];
      }
    }
  }

  lemma FilledLonger(chunks: seq<Text>, held: Text, g: Glyph, room: nat)
    requires held != [] ==> Filled(chunks + [held], room)
    requires held == [] ==> chunks == []
    ensures Filled(chunks + [held + [g]], room)
  {
    var was, all := chunks + [held], chunks + [held + [g]];
    hide Size;
    forall i, j | 0 <= i < j < |all| && j == i + 1 ensures Full(all[i], all[j], room) {
      assert all[i] == was[i] && Full(was[i], was[j], room);
      assert (held + [g])[..1] == held[..1];
    }
  }

  // ---- what the far machine is sent ----

  function Payloads(chunks: seq<Text>): seq<Byte>
  {
    if chunks == [] then [] else Payloads(chunks[..|chunks| - 1]) + Encoded(chunks[|chunks| - 1])
  }

  lemma {:induction false} PayloadsAre(chunks: seq<Text>)
    ensures Payloads(chunks) == Encoded(Joined(chunks))
  {
    if chunks != [] {
      PayloadsAre(chunks[..|chunks| - 1]);
      EncodedAppend(Joined(chunks[..|chunks| - 1]), chunks[|chunks| - 1]);
    }
  }

  /** Every piece becomes a message, whose payload is the piece's own UTF-8 and whose
      length field says how long that is; and the payloads are the text's UTF-8. */
  lemma Preserved(text: Text, chunks: seq<Text>)
    requires Joined(chunks) == text && Fit(chunks, 1024)
    ensures Payloads(chunks) == Encoded(text)
    ensures forall k :: 0 <= k < |chunks| ==> Carries(TextMessage(chunks[k]), chunks[k])
  {
    PayloadsAre(chunks);
    hide Carries, TextMessage;
    forall k | 0 <= k < |chunks| ensures Carries(TextMessage(chunks[k]), chunks[k]) {
      OneMessage(chunks[k]);
    }
  }

  lemma OneMessage(text: Text)
    requires text != [] && Size(text) <= MAX_TEXT_BYTES
    ensures Carries(TextMessage(text), text)
  {
    NotEmpty(text);
    LengthField(Size(text));
    var bytes := Encoded(text);
    hide Encoded, Length;
    var head := [0x41, |bytes| / 256 % 256, |bytes| % 256];
    assert (head + bytes)[3..] == bytes;
  }

  lemma LengthField(n: nat)
    requires n <= MAX_TEXT_BYTES
    ensures Length(n / 256 % 256, n % 256) == n
  {
  }

  predicate Carries(m: Option<seq<Byte>>, text: Text)
  {
    m.Some? && |m.value| >= 3 && m.value[0] == 0x41 && m.value[3..] == Encoded(text)
    && Length(m.value[1], m.value[2]) == |m.value| - 3 <= 1024
  }

  function Length(high: nat, low: nat): nat
  {
    high * 256 + low
  }

  lemma NotEmpty(text: Text)
    requires text != []
    ensures Size(text) > 0
  {
    hide Utf8;
  }

  // ---- no cut has fewer pieces ----

  lemma {:induction false} JoinedSplit(chunks: seq<Text>, k: nat)
    requires k <= |chunks|
    ensures |Joined(chunks[..k])| <= |Joined(chunks)| && Joined(chunks)[..|Joined(chunks[..k])|] == Joined(chunks[..k])
    decreases |chunks|
  {
    if k == |chunks| {
      assert chunks[..k] == chunks;
    } else {
      var front := chunks[..|chunks| - 1];
      assert front[..k] == chunks[..k];
      JoinedSplit(front, k);
    }
  }

  /** Where in the text the `k`th piece begins. */
  function Start(chunks: seq<Text>, k: nat): nat
    requires k <= |chunks|
  {
    |Joined(chunks[..k])|
  }

  lemma PieceAt(chunks: seq<Text>, k: nat)
    requires k < |chunks|
    ensures Start(chunks, k + 1) == Start(chunks, k) + |chunks[k]| <= |Joined(chunks)|
    ensures Joined(chunks)[Start(chunks, k)..Start(chunks, k + 1)] == chunks[k]
  {
    var before, after := chunks[..k], chunks[..k + 1];
    assert after[..k] == before && after[k] == chunks[k];
    assert Joined(after) == Joined(before) + chunks[k];
    JoinedSplit(chunks, k);
    JoinedSplit(chunks, k + 1);
    hide Joined;
    var text := Joined(chunks);
    assert text[Start(chunks, k)..Start(chunks, k + 1)] == Joined(after)[Start(chunks, k)..];
  }

  /** A stretch that does not fit ends after one that does and began no later. */
  lemma Beyond(text: Text, a: nat, e: nat, c: nat, d: nat, room: nat)
    requires c <= a <= e <= |text| && c <= d <= |text|
    requires Size(text[a..e]) > room && Size(text[c..d]) <= room
    ensures d < e
  {
    hide Size;
    if e <= d {
      SizeWithin(text, a, e, c, d);
      assert false;
    }
  }

  /** A piece and the character after it stand together in the text. */
  lemma NextGlyph(chunks: seq<Text>, k: nat)
    requires k + 1 < |chunks| && chunks[k + 1] != []
    ensures Start(chunks, k) <= Start(chunks, k + 1) < |Joined(chunks)|
    ensures Joined(chunks)[Start(chunks, k)..Start(chunks, k + 1) + 1] == chunks[k] + chunks[k + 1][..1]
  {
    PieceAt(chunks, k);
    PieceAt(chunks, k + 1);
    hide Joined, Start;
    OneFurther(Joined(chunks), Start(chunks, k), Start(chunks, k + 1), Start(chunks, k + 2));
  }

  lemma OneFurther(text: Text, a: nat, b: nat, c: nat)
    requires a <= b < c <= |text|
    ensures text[a..b + 1] == text[a..b] + text[b..c][..1]
  {
  }

  /** One more piece each: a greedy cut that was not behind is not behind. */
  lemma StillAhead(chunks: seq<Text>, other: seq<Text>, room: nat, j: nat)
    requires Joined(chunks) == Joined(other) && j < |chunks| && j < |other| && Size(other[j]) <= room
    requires j + 1 < |chunks| ==> Full(chunks[j], chunks[j + 1], room)
    requires Start(other, j) <= Start(chunks, j)
    ensures Start(other, j + 1) <= Start(chunks, j + 1)
  {
    hide Joined, Start, Size;
    PieceAt(chunks, j);
    PieceAt(other, j);
    if j + 1 < |chunks| {
      NextGlyph(chunks, j);
      var text, a, b := Joined(chunks), Start(chunks, j), Start(chunks, j + 1);
      var c, d := Start(other, j), Start(other, j + 1);
      assert Size(text[a..b + 1]) > room && text[c..d] == other[j];
      Beyond(text, a, b + 1, c, d, room);
    } else {
      LastStart(chunks);
    }
  }

  /** After as many pieces, a greedy cut is never behind any other. */
  lemma {:induction false} NeverBehind(chunks: seq<Text>, other: seq<Text>, room: nat, k: nat)
    requires Joined(chunks) == Joined(other) && Filled(chunks, room) && Fit(other, room)
    requires k <= |chunks| && k <= |other|
    ensures Start(other, k) <= Start(chunks, k)
  {
    if k > 0 {
      var j := k - 1;
      NeverBehind(chunks, other, room, j);
      hide Joined, Start, Size, Full;
      StillAhead(chunks, other, room, j);
    }
  }

  lemma LastStart(chunks: seq<Text>)
    ensures Start(chunks, |chunks|) == |Joined(chunks)|
  {
    assert chunks[..|chunks|] == chunks;
  }

  /** So no way of cutting the text into pieces that fit has fewer pieces. */
  lemma FewestPieces(chunks: seq<Text>, other: seq<Text>, room: nat)
    requires Joined(chunks) == Joined(other) && Filled(chunks, room) && Fit(chunks, room) && Fit(other, room)
    ensures |chunks| <= |other|
  {
    if |other| < |chunks| {
      assert chunks[|other|] != [];
      hide Joined, Filled, Fit, Start;
      LastStart(other);
      PieceAt(chunks, |other|);
      NeverBehind(chunks, other, room, |other|);
      assert false;
    }
  }
}
