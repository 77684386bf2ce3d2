/** Unpadded base64url, section 5 of RFC 4648, as the console writes and reads it
    (`bufToB64url` and `b64urlToBuf` in `sites/console/app.js`). Shifts and masks are
    written as division and remainder by powers of two. */
module Base64Url {
  import opened Bytes

  type Sextet = n: nat | n < 64

  // ---- the alphabet ----

  function Symbol(v: Sextet): char
  {
    if v < 26 then 'A' + v as char
    else if v < 52 then 'a' + (v - 26) as char
    else if v < 62 then '0' + (v - 52) as char
    else if v == 62 then '-' else '_'
  }

  function ValueOf(c: char): (v: Option<Sextet>)
  {
    if 'A' <= c <= 'Z' then Some(c as int - 'A' as int)
    else if 'a' <= c <= 'z' then Some(26 + (c as int - 'a' as int))
    else if '0' <= c <= '9' then Some(52 + (c as int - '0' as int))
    else if c == '-' then Some(62) else if c == '_' then Some(63) else None
  }

  lemma Alphabet(v: Sextet, c: char)
    ensures ValueOf(Symbol(v)) == Some(v) && Symbol(v) != '='
    ensures ValueOf(c).Some? ==> Symbol(ValueOf(c).value) == c
  {
  }

  /** The sixty-four symbols, in order. */
  lemma AlphabetIs(v: Sextet)
    ensures 0 <= v <= 25 ==> Symbol(v) as int == 65 + v
    ensures 26 <= v <= 51 ==> Symbol(v) as int == 97 + (v - 26)
    ensures 52 <= v <= 61 ==> Symbol(v) as int == 48 + (v - 52)
    ensures Symbol(62) == '-' && Symbol(63) == '_'
  {
  }

  function Spelled(s: seq<Sextet>): (text: string)
    ensures |text| == |s|
    ensures forall k :: 0 <= k < |s| ==> text[k] == Symbol(s[k])
  {
    if s == [] then [] else Spelled(s[..|s| - 1]) + [Symbol(s[|s| - 1])]
  }

  // ---- three bytes are four sextets ----

  function Bits(x: nat, y: nat, z: nat): nat
  {
    x * 65536 + y * 256 + z
  }

  function Packed(a: nat, b: nat, c: nat, d: nat): nat
  {
    a * 262144 + b * 4096 + c * 64 + d
  }

  lemma BitsAre(x: Byte, y: Byte, z: Byte)
    ensures Bits(x, y, z) / 65536 % 256 == x && Bits(x, y, z) / 256 % 256 == y && Bits(x, y, z) % 256 == z
    ensures Bits(x, y, z) < 16777216
  {
    var n := Bits(x, y, z);
    var top: nat := x;
    assert n / 65536 == x && n / 256 == top * 256 + y;
  }

  lemma PackedAre(a: Sextet, b: Sextet, c: Sextet, d: Sextet)
    ensures Packed(a, b, c, d) / 262144 % 64 == a && Packed(a, b, c, d) / 4096 % 64 == b
    ensures Packed(a, b, c, d) / 64 % 64 == c && Packed(a, b, c, d) % 64 == d
    ensures Packed(a, b, c, d) < 16777216
  {
    var n := Packed(a, b, c, d);
    var w: nat, x: nat, y: nat := a, b, c;
    assert n / 262144 == a && n / 4096 == w * 64 + b && n / 64 == w * 4096 + x * 64 + c;
  }

  /** Twenty-four bits are their sextets and their octets. */
  lemma Regrouped(n: nat)
    requires n < 16777216
    ensures n == Packed(n / 262144 % 64, n / 4096 % 64, n / 64 % 64, n % 64)
    ensures n == Bits(n / 65536 % 256, n / 256 % 256, n % 256)
  {
    var q1 := n / 64;
    var q2 := q1 / 64;
    var q3 := q2 / 64;
    assert n == Packed(q3, q2 % 64, q1 % 64, n % 64);
    PackedAre(q3, q2 % 64, q1 % 64, n % 64);
    var o1 := n / 256;
    var o2 := o1 / 256;
    assert n == Bits(o2, o1 % 256, n % 256);
    BitsAre(o2, o1 % 256, n % 256);
  }

  function Sextets(b: seq<Byte>): (s: seq<Sextet>)
    requires 0 < |b| <= 3
    ensures |s| == |b| + 1
  {
    var bits := Bits(b[0], if |b| > 1 then b[1] else 0, if |b| > 2 then b[2] else 0);
    [bits / 262144 % 64, bits / 4096 % 64]
    + (if |b| > 1 then [bits / 64 % 64] else []) + (if |b| > 2 then [bits % 64] else [])
  }

  function Octets(s: seq<Sextet>): (b: seq<Byte>)
    requires 2 <= |s| <= 4
    ensures |b| == |s| - 1
  {
    var bits := Packed(s[0], s[1], if |s| > 2 then s[2] else 0, if |s| > 3 then s[3] else 0);
    [bits / 65536 % 256] + (if |s| > 2 then [bits / 256 % 256] else []) + (if |s| > 3 then [bits % 256] else [])
  }

  /** A short group whose last sextet carries bits no byte takes. */
  predicate Spare(s: seq<Sextet>)
  {
    (|s| == 2 && s[1] % 16 != 0) || (|s| == 3 && s[2] % 4 != 0)
  }

  /** Two bytes, cut at other places. */
  lemma Recut(x: nat, y: nat, high: nat, low: nat, up: nat, down: nat, spare: nat)
    requires x == high * 4 + low && y == up * 16 + down
    ensures Bits(x, y, spare * 64) == Packed(high, low * 16 + up, down * 4 + spare, 0)
  {
  }

  lemma Multiples(k: nat)
    ensures k * 16 % 16 == 0 && k * 4 % 4 == 0
  {
  }

  /** One byte leaves the last two sextets zero, and the spare bits of the second. */
  lemma OneByte(x: Byte)
    ensures var n := Bits(x, 0, 0); n / 262144 % 64 == x / 4 && n / 4096 % 64 == x % 4 * 16 && n / 64 % 64 == 0 && n % 64 == 0
  {
    var high: nat, low: nat := x / 4, x % 4;
    Recut(x, 0, high, low, 0, 0, 0);
    hide Bits, Packed;
    PackedAre(high, low * 16, 0, 0);
  }

  /** Two bytes leave the last sextet zero, and the spare bits of the third. */
  lemma TwoBytes(x: Byte, y: Byte)
    ensures var n := Bits(x, y, 0);
            n / 262144 % 64 == x / 4 && n / 4096 % 64 == x % 4 * 16 + y / 16 && n / 64 % 64 == y % 16 * 4 && n % 64 == 0
  {
    var high: nat, low: nat, up: nat, down: nat := x / 4, x % 4, y / 16, y % 16;
    Recut(x, y, high, low, up, down, 0);
    hide Bits, Packed;
    PackedAre(high, low * 16 + up, down * 4, 0);
  }

  lemma GroupRoundTrip(b: seq<Byte>)
    requires 0 < |b| <= 3
    ensures Octets(Sextets(b)) == b && !Spare(Sextets(b))
  {
    var x: Byte, y: Byte, z: Byte := b[0], if |b| > 1 then b[1] else 0, if |b| > 2 then b[2] else 0;
    BitsAre(x, y, z);
    Regrouped(Bits(x, y, z));
    OneByte(x);
    TwoBytes(x, y);
    Multiples(x % 4);
    Multiples(y % 16);
    hide Bits, Packed;
    assert |b| == 1 ==> b == [x];
    assert |b| == 2 ==> b == [x, y];
    assert |b| == 3 ==> b == [x, y, z];
  }

  /** What comes back of a short group: its last sextet without the spare bits. */
  lemma ShortSextets(a: Sextet, b: Sextet, c: Sextet)
    ensures var n := Bits(Packed(a, b, 0, 0) / 65536 % 256, 0, 0);
            n / 262144 % 64 == a && n / 4096 % 64 == b - b % 16
    ensures var n := Bits(Packed(a, b, c, 0) / 65536 % 256, Packed(a, b, c, 0) / 256 % 256, 0);
            n / 262144 % 64 == a && n / 4096 % 64 == b && n / 64 % 64 == c - c % 4
  {
    var low: nat, high: nat, spare: nat, kept: nat := b % 16, b / 16, c % 4, c / 4;
    var top: nat := a;
    var x := top * 4 + high;
    // b is four bits for the first byte and four for the second
    Split(a, b, high, low, x);
    Rejoin(a, b, c, high, low, spare, kept, x);
    hide Bits, Packed;
    BitsAre(x, low * 16, 0);
    BitsAre(x, low * 16 + kept, spare * 64);
    PackedAre(a, high * 16, 0, 0);
    PackedAre(a, b, kept * 4, 0);
  }

  lemma Split(a: nat, b: nat, high: nat, low: nat, x: nat)
    requires b == high * 16 + low && x == a * 4 + high
    ensures Packed(a, b, 0, 0) == Bits(x, low * 16, 0) && Bits(x, 0, 0) == Packed(a, high * 16, 0, 0)
  {
  }

  lemma Rejoin(a: nat, b: nat, c: nat, high: nat, low: nat, spare: nat, kept: nat, x: nat)
    requires b == high * 16 + low && x == a * 4 + high && c == kept * 4 + spare
    ensures Packed(a, b, c, 0) == Bits(x, low * 16 + kept, spare * 64)
    ensures Bits(x, low * 16 + kept, 0) == Packed(a, b, kept * 4, 0)
  {
  }

  lemma PairReEncodes(a: Sextet, b: Sextet)
    ensures Sextets(Octets([a, b])) == [a, b - b % 16]
  {
    ShortSextets(a, b, 0);
    hide Bits, Packed;
  }

  lemma TripleReEncodes(a: Sextet, b: Sextet, c: Sextet)
    ensures Sextets(Octets([a, b, c])) == [a, b, c - c % 4]
  {
    ShortSextets(a, b, c);
    hide Bits, Packed;
  }

  lemma QuadReEncodes(a: Sextet, b: Sextet, c: Sextet, d: Sextet)
    ensures Sextets(Octets([a, b, c, d])) == [a, b, c, d]
  {
    PackedAre(a, b, c, d);
    Regrouped(Packed(a, b, c, d));
    hide Bits, Packed;
  }

  lemma GroupReEncodes(s: seq<Sextet>)
    requires 2 <= |s| <= 4
    ensures Sextets(Octets(s)) == s <==> !Spare(s)
  {
    hide Sextets, Octets;
    if |s| == 2 {
      assert s == [s[0], s[1]];
      PairReEncodes(s[0], s[1]);
    } else if |s| == 3 {
      assert s == [s[0], s[1], s[2]];
      TripleReEncodes(s[0], s[1], s[2]);
    } else {
      assert s == [s[0], s[1], s[2], s[3]];
      QuadReEncodes(s[0], s[1], s[2], s[3]);
    }
  }

  // ---- whole strings ----

  function Unpack(b: seq<Byte>): seq<Sextet>
  {
    if b == [] then [] else if |b| <= 3 then Sextets(b) else Sextets(b[..3]) + Unpack(b[3..])
  }

  /** A single sextet left over is no byte at all. */
  function Pack(s: seq<Sextet>): seq<Byte>
  {
    if |s| < 2 then [] else if |s| <= 4 then Octets(s) else Octets(s[..4]) + Pack(s[4..])
  }

  function Encoded(b: seq<Byte>): string
  {
    Spelled(Unpack(b))
  }

  /** What is written for one, two and three bytes, the high bits first; a longer string is
      written three bytes at a time. */
  lemma EncodedExactly(x: Byte, y: Byte, z: Byte, more: seq<Byte>)
    ensures Encoded([]) == ""
    ensures Encoded([x]) == [Symbol(x / 4), Symbol(x % 4 * 16)]
    ensures Encoded([x, y]) == [Symbol(x / 4), Symbol(x % 4 * 16 + y / 16), Symbol(y % 16 * 4)]
    ensures Encoded([x, y, z]) == [Symbol(x / 4), Symbol(x % 4 * 16 + y / 16), Symbol(y % 16 * 4 + z / 64), Symbol(z % 64)]
    ensures Encoded([x, y, z] + more) == Encoded([x, y, z]) + Encoded(more)
  {
    OneByte(x);
    TwoBytes(x, y);
    ThreeBytes(x, y, z);
    hide Bits, Symbol;
    assert ([x, y, z] + more)[..3] == [x, y, z] && ([x, y, z] + more)[3..] == more;
    assert Unpack([x, y, z] + more) == Unpack([x, y, z]) + Unpack(more);
  }

  lemma ThreeBytes(x: Byte, y: Byte, z: Byte)
    ensures var n := Bits(x, y, z);
            && n / 262144 % 64 == x / 4 && n / 4096 % 64 == x % 4 * 16 + y / 16
            && n / 64 % 64 == y % 16 * 4 + z / 64 && n % 64 == z % 64
  {
    var high: nat, low: nat, up: nat, down: nat, spare: nat := x / 4, x % 4, y / 16, y % 16, z / 64;
    Recut(x, y, high, low, up, down, spare);
    assert Bits(x, y, z) == Bits(x, y, spare * 64) + z % 64;
    assert Packed(high, low * 16 + up, down * 4 + spare, z % 64) == Packed(high, low * 16 + up, down * 4 + spare, 0) + z % 64;
    hide Bits, Packed;
    PackedAre(high, low * 16 + up, down * 4 + spare, z % 64);
  }

  /** What the symbols of a text stand for; `=` is passed over. */
  function Values(text: string): Option<seq<Sextet>>
  {
    if text == [] then Some([])
    else
      var front, c := Values(text[..|text| - 1]), text[|text| - 1];
      if front == None || c == '=' then front
      else if ValueOf(c) == None then None
      else Some(front.value + [ValueOf(c).value])
  }

  function Decoded(text: string): Option<seq<Byte>>
  {
    var s := Values(text);
    if s == None || |s.value| % 4 == 1 then None else Some(Pack(s.value))
  }

  lemma {:induction false} UnpackLength(b: seq<Byte>)
    ensures |Unpack(b)| % 4 != 1
  {
    hide Sextets;
    if |b| > 3 {
      UnpackLength(b[3..]);
      assert |Unpack(b)| == 4 + |Unpack(b[3..])|;
    }
  }

  lemma {:induction false} PackUnpack(b: seq<Byte>)
    ensures Pack(Unpack(b)) == b
  {
    if b == [] {
    } else if |b| <= 3 {
      GroupRoundTrip(b);
    } else {
      GroupRoundTrip(b[..3]);
      PackUnpack(b[3..]);
      var head, rest := Sextets(b[..3]), Unpack(b[3..]);
      NonEmpty(b[3..]);
      assert (head + rest)[..4] == head && (head + rest)[4..] == rest;
      assert b == b[..3] + b[3..];
    }
  }

  lemma NonEmpty(b: seq<Byte>)
    requires b != []
    ensures |Unpack(b)| >= 2
  {
  }

  /** The last group of a string of sextets has spare bits. */
  predicate SpareAtEnd(s: seq<Sextet>)
  {
    if |s| <= 4 then Spare(s) else SpareAtEnd(s[4..])
  }

  lemma UnpackGroup(b: seq<Byte>, rest: seq<Byte>)
    requires |b| == 3
    ensures Unpack(b + rest) == Sextets(b) + Unpack(rest)
  {
    hide Sextets;
    assert (b + rest)[..3] == b && (b + rest)[3..] == rest;
    if rest == [] {
      assert b + rest == b;
    }
  }

  lemma PackGroup(s: seq<Sextet>)
    requires |s| > 4
    ensures Pack(s) == Octets(s[..4]) + Pack(s[4..])
  {
    hide Octets;
  }

  /** No single sextet is left over. */
  predicate Even(s: seq<Sextet>)
  {
    if |s| <= 4 then |s| != 1 else Even(s[4..])
  }

  lemma {:induction false} EvenIs(s: seq<Sextet>)
    ensures Even(s) <==> |s| % 4 != 1
  {
    if |s| > 4 {
      EvenIs(s[4..]);
      assert |s| == |s[4..]| + 4;
    }
  }

  lemma OneGroup(s: seq<Sextet>)
    requires 2 <= |s| <= 4
    ensures Unpack(Pack(s)) == Sextets(Octets(s))
  {
    hide Sextets, Octets;
  }

  lemma ManyGroups(s: seq<Sextet>)
    requires |s| > 4
    ensures Unpack(Pack(s)) == Sextets(Octets(s[..4])) + Unpack(Pack(s[4..]))
  {
    PackGroup(s);
    hide Sextets, Octets, Pack, Unpack;
    UnpackGroup(Octets(s[..4]), Pack(s[4..]));
  }

  lemma {:induction false} UnpackPack(s: seq<Sextet>)
    requires Even(s)
    ensures Unpack(Pack(s)) == s <==> !SpareAtEnd(s)
  {
    hide Sextets, Octets;
    if |s| == 0 {
    } else if |s| <= 4 {
      OneGroup(s);
      GroupReEncodes(s);
    } else {
      var head, rest := s[..4], s[4..];
      assert !Spare(head) && s == head + rest;
      hide Spare, Pack, Unpack;
      GroupReEncodes(head);
      ManyGroups(s);
      UnpackPack(rest);
      SameTail(head, rest, Unpack(Pack(rest)));
    }
  }

  lemma SameTail(head: seq<Sextet>, rest: seq<Sextet>, other: seq<Sextet>)
    ensures head + rest == head + other <==> rest == other
  {
    if head + rest == head + other {
      assert rest == (head + rest)[|head|..] && other == (head + other)[|head|..];
    }
  }

  lemma {:induction false} ValuesSpelled(s: seq<Sextet>)
    ensures Values(Spelled(s)) == Some(s) && '=' !in Spelled(s)
  {
    if s != [] {
      var front, last := s[..|s| - 1], s[|s| - 1];
      ValuesSpelled(front);
      Alphabet(last, 'A');
      var text := Spelled(s);
      assert text == Spelled(front) + [Symbol(last)];
      hide ValueOf, Symbol;
      assert text[..|text| - 1] == Spelled(front) && text[|text| - 1] == Symbol(last);
      assert s == front + [last];
      assert Values(text) == Some(front + [last]);
    }
  }

  lemma ValuesTurn(text: string)
    requires text != [] && Values(text).Some?
    ensures var front, c := Values(text[..|text| - 1]), text[|text| - 1];
            && front.Some?
            && if c == '=' then Values(text) == front
               else ValueOf(c).Some? && Values(text) == Some(front.value + [ValueOf(c).value])
  {
    hide ValueOf;
  }

  lemma SpelledMore(s: seq<Sextet>, v: Sextet, front: string)
    ensures Spelled(s + [v]) == front + [Symbol(v)] <==> Spelled(s) == front
  {
    hide Symbol;
    assert (s + [v])[..|s|] == s;
    assert Spelled(s + [v]) == Spelled(s) + [Symbol(v)];
    hide Spelled;
    assert (Spelled(s) + [Symbol(v)])[..|s|] == Spelled(s);
    assert (front + [Symbol(v)])[..|front|] == front;
  }

  /** Spelling the values of a text returns it exactly when it has no padding. */
  lemma {:induction false} SpelledValues(text: string)
    requires Values(text).Some?
    ensures |Values(text).value| <= |text|
    ensures Spelled(Values(text).value) == text <==> '=' !in text
  {
    if text != [] {
      var front, c := text[..|text| - 1], text[|text| - 1];
      assert text == front + [c];
      ValuesTurn(text);
      hide Values, Spelled, ValueOf, Symbol;
      SpelledValues(front);
      var s := Values(front).value;
      if c == '=' {
        assert |Spelled(s)| < |text|;
      } else {
        var v := ValueOf(c).value;
        Alphabet(v, c);
        SpelledMore(s, v, front);
      }
    }
  }

  /** Decoding inverts encoding, for every byte sequence. */
  lemma RoundTrip(b: seq<Byte>)
    ensures Decoded(Encoded(b)) == Some(b)
  {
    ValuesSpelled(Unpack(b));
    UnpackLength(b);
    PackUnpack(b);
  }

  predicate Foreign(c: char)
  {
    c != '=' && ValueOf(c) == None
  }

  /** How many symbols a text holds, padding not counted. */
  function Symbols(text: string): nat
  {
    if text == [] then 0 else Symbols(text[..|text| - 1]) + (if text[|text| - 1] == '=' then 0 else 1)
  }

  lemma {:induction false} ValuesExactly(text: string)
    ensures Values(text) == None <==> exists k :: 0 <= k < |text| && Foreign(text[k])
    ensures Values(text).Some? ==> |Values(text).value| == Symbols(text)
  {
    if text != [] {
      var front, c := text[..|text| - 1], text[|text| - 1];
      ValuesExactly(front);
      if Values(front) == None {
        var k :| 0 <= k < |front| && Foreign(front[k]);
        assert Foreign(text[k]);
      } else if Foreign(c) {
        assert Foreign(text[|text| - 1]);
      } else {
        assert forall k :: 0 <= k < |front| ==> text[k] == front[k];
      }
    }
  }

  /** Decoding refuses exactly a foreign symbol and a count of one over four. */
  lemma RefusesExactly(text: string)
    ensures Decoded(text) == None
            <==> (exists k :: 0 <= k < |text| && Foreign(text[k])) || Symbols(text) % 4 == 1
  {
    ValuesExactly(text);
  }

  /** What was decoded encodes back to the same text exactly when the text has no
      padding and its spare bits are zero. */
  lemma ReEncodesExactly(text: string)
    requires Decoded(text).Some?
    ensures Encoded(Decoded(text).value) == text <==> '=' !in text && !SpareAtEnd(Values(text).value)
  {
    var s := Values(text).value;
    SpelledValues(text);
    EvenIs(s);
    UnpackPack(s);
    var again := Unpack(Pack(s));
    ValuesSpelled(again);
    ValuesSpelled(s);
    if Spelled(again) == text {
      assert Values(text) == Some(again);
    }
  }

  // ---- the loops ----

  method BufToB64url(bytes: seq<Byte>) returns (out: string)
    ensures out == Encoded(bytes)
  {
    hide Encoded;
    out := [];
    var i := 0;
    assert bytes[0..] == bytes && [] + Encoded(bytes) == Encoded(bytes);
    while i < |bytes|
      invariant 0 <= i <= |bytes|
      invariant out + Encoded(bytes[i..]) == Encoded(bytes)
      decreases |bytes| - i
    {
      var group := Shift(bytes, i);
      var next := if |bytes| - i <= 3 then |bytes| else i + 3;
      SeqAssociative(out, group, Encoded(bytes[next..]));
      out := out + group;
      i := next;
    }
    assert bytes[i..] == [] && Encoded([]) == [] && out + [] == out by { NothingEncoded(); }
  }

  lemma NothingEncoded()
    ensures Encoded([]) == []
  {
  }

  /** One group: three bytes, or what is left. */
  method Shift(bytes: seq<Byte>, i: nat) returns (group: string)
    requires i < |bytes|
    ensures Encoded(bytes[i..]) == group + Encoded(bytes[if |bytes| - i <= 3 then |bytes| else i + 3..])
  {
    var bits := Bits(bytes[i], if i + 1 < |bytes| then bytes[i + 1] else 0, if i + 2 < |bytes| then bytes[i + 2] else 0);
    group := [Symbol(bits / 262144 % 64), Symbol(bits / 4096 % 64)];
    if i + 1 < |bytes| {
      group := group + [Symbol(bits / 64 % 64)];
    }
    if i + 2 < |bytes| {
      group := group + [Symbol(bits % 64)];
    }
    EncodedTurn(bytes[i..], group);
    hide Encoded, Bits, Symbol;
    var next := if |bytes| - i <= 3 then |bytes| else i + 3;
    assert bytes[i..][next - i..] == bytes[next..];
  }

  lemma EncodedTurn(b: seq<Byte>, group: string)
    requires b != []
    requires var bits := Bits(b[0], if |b| > 1 then b[1] else 0, if |b| > 2 then b[2] else 0);
             group == [Symbol(bits / 262144 % 64), Symbol(bits / 4096 % 64)]
                      + (if |b| > 1 then [Symbol(bits / 64 % 64)] else []) + (if |b| > 2 then [Symbol(bits % 64)] else [])
    ensures Encoded(b) == group + Encoded(b[if |b| <= 3 then |b| else 3..])
  {
    var n := if |b| <= 3 then |b| else 3;
    assert Spelled(Sextets(b[..n])) == group;
    assert b[..n] + b[n..] == b;
    SpelledAppend(Sextets(b[..n]), Unpack(b[n..]));
  }

  lemma SpelledAppend(s: seq<Sextet>, t: seq<Sextet>)
    ensures Spelled(s + t) == Spelled(s) + Spelled(t)
  {
  }

  lemma {:induction false} StaysRefused(text: string, k: nat)
    requires k <= |text| && Values(text[..k]) == None
    ensures Values(text) == None
    decreases |text|
  {
    if k == |text| {
      assert text[..k] == text;
    } else {
      assert text[..|text| - 1][..k] == text[..k];
      StaysRefused(text[..|text| - 1], k);
    }
  }

  method B64urlToBuf(text: string) returns (r: Option<seq<Byte>>)
    ensures r == Decoded(text)
  {
    var symbols: seq<Sextet> := [];
    for k := 0 to |text|
      invariant Values(text[..k]) == Some(symbols)
    {
      assert text[..k + 1][..k] == text[..k];
      if text[k] == '=' {
        continue;
      }
      var value := ValueOf(text[k]);
      if value == None {
        StaysRefused(text, k + 1);
        return None;
      }
      symbols := symbols + [value.value];
    }
    assert text[..|text|] == text;
    if |symbols| % 4 == 1 {
      return None;
    }
    var out := PackLoop(symbols);
    r := Some(out);
  }

  method PackLoop(symbols: seq<Sextet>) returns (out: seq<Byte>)
    requires |symbols| % 4 != 1
    ensures out == Pack(symbols)
  {
    EvenIs(symbols);
    hide Octets;
    out := [];
    var i := 0;
    assert symbols[0..] == symbols && [] + Pack(symbols) == Pack(symbols);
    while i < |symbols|
      invariant 0 <= i <= |symbols| && Even(symbols[i..])
      invariant out + Pack(symbols[i..]) == Pack(symbols)
      decreases |symbols| - i
    {
      var rest := symbols[i..];
      var group := if |rest| > 4 then rest[..4] else rest;
      var bytes := Unshift(group);
      if |rest| > 4 {
        PackGroup(rest);
        assert rest[4..] == symbols[i + 4..];
        SeqAssociative(out, bytes, Pack(symbols[i + 4..]));
        i := i + 4;
      } else {
        assert symbols[|symbols|..] == [];
        i := |symbols|;
      }
      out := out + bytes;
    }
  }

  /** The bits of one group, shifted together, and the bytes they hold. */
  method Unshift(group: seq<Sextet>) returns (bytes: seq<Byte>)
    requires 2 <= |group| <= 4
    ensures bytes == Octets(group)
  {
    var bits: nat := Packed(group[0], group[1], if |group| > 2 then group[2] else 0, if |group| > 3 then group[3] else 0);
    bytes := [bits / 65536 % 256];
    if |group| > 2 {
      bytes := bytes + [bits / 256 % 256];
    }
    if |group| > 3 {
      bytes := bytes + [bits % 256];
    }
  }
}
