/** The desktop stream's format, field by field: where each field of each of the eight
    kinds stands, and exactly which byte strings of a kind are messages. What a field of
    several bytes is worth is `Bytes.BigEndian`. */
module WireFormat {
  import opened Bytes
  import opened DeskWire

  /** Two's complement in four bytes. */
  lemma SignedIs(n: nat)
    ensures Signed(n) == if n < 0x8000_0000 then n else n - 0x1_0000_0000
  {
  }

  /** Kind 1, and as many displays of twenty bytes as it says. */
  lemma HelloFormat(s: seq<Byte>)
    requires |s| >= 8 && s[0] == 1
    ensures if |s| != 8 + 20 * (s[7] as int) then Decoded(s) == None
            else && Decoded(s).Some? && Decoded(s).value.Hello?
                 && var m := Decoded(s).value;
                    && m.protocol == UnBe(s[1..3]) && m.edge == UnBe(s[3..5]) && m.maxFps == s[5]
                    && m.capabilities == s[6] && |m.monitors| == s[7]
                    && forall k :: 0 <= k < |m.monitors| ==> m.monitors[k] == MonitorAt(s, 8 + 20 * k)
  {
    if |s| == 8 + 20 * (s[7] as int) {
      forall k | 0 <= k < s[7] ensures MonitorsAt(s, 8, s[7])[k] == MonitorAt(s, 8 + 20 * k) {
        DisplayAt(s, 8, s[7], k);
      }
    }
    hide MonitorsAt, MonitorAt;
  }

  lemma {:induction false} DisplayAt(s: seq<Byte>, at: nat, count: nat, k: nat)
    requires at + 20 * count <= |s| && k < count
    ensures MonitorsAt(s, at, count)[k] == MonitorAt(s, at + 20 * k)
    decreases count
  {
    MonitorsTurn(s, at, count);
    if k > 0 {
      DisplayAt(s, at + 20, count - 1, k - 1);
      assert MonitorsAt(s, at, count)[k] == MonitorsAt(s, at, count)[1..][k - 1];
    }
  }

  /** One display of a greeting. */
  lemma DisplayFormat(s: seq<Byte>, at: nat)
    requires at + 20 <= |s|
    ensures var m := MonitorAt(s, at);
            && m.id == s[at] && m.originX == Signed(UnBe(s[at + 1..at + 5])) && m.originY == Signed(UnBe(s[at + 5..at + 9]))
            && m.width == UnBe(s[at + 9..at + 13]) && m.height == UnBe(s[at + 13..at + 17])
            && m.scalePermille == UnBe(s[at + 17..at + 19]) && (m.primary <==> s[at + 19] != 0)
  {
  }

  /** Kind 2: a notice this build knows, and its detail. */
  lemma StatusFormat(s: seq<Byte>)
    requires |s| >= 4 && s[0] == 2
    ensures Decoded(s)
         == if 1 <= s[1] <= 9 && UnBe(s[2..4]) == |s| - 4 then Some(Status(s[1], s[4..])) else None
  {
  }

  /** Kinds 3, 5 and 6 are of one length. */
  lemma FixedFormats(s: seq<Byte>)
    ensures |s| == 19 && s[0] == 3 ==>
              Decoded(s) == Some(FrameBegin(s[1], Rounded(UnBe(s[2..10])), UnBe(s[10..14]), UnBe(s[14..18]), s[18] != 0))
    ensures |s| == 9 && s[0] == 5 ==> Decoded(s) == Some(FrameEnd(Rounded(UnBe(s[1..9]))))
    ensures |s| == 10 && s[0] == 6 ==> Decoded(s) == Some(CursorPos(Signed(UnBe(s[1..5])), Signed(UnBe(s[5..9])), s[9] != 0))
  {
  }

  /** Kind 4, and kind 8: a refusal this build knows. */
  lemma TileFormat(s: seq<Byte>)
    ensures |s| >= 11 && s[0] == 4 ==>
              Decoded(s) == if UnBe(s[7..11]) == |s| - 11
                            then Some(Tile(s[1], UnBe(s[2..4]), UnBe(s[4..6]), s[6], s[11..])) else None
    ensures |s| == 2 && s[0] == 8 ==> Decoded(s) == if 1 <= s[1] <= 6 then Some(InputRefused(s[1])) else None
  {
  }

  /** Kind 7: the hot spot lies in the picture, and the pixels are four bytes each. */
  lemma ShapeFormat(s: seq<Byte>)
    requires |s| >= 21 && s[0] == 7
    ensures var hx, hy, w, h := UnBe(s[9..11]), UnBe(s[11..13]), UnBe(s[13..15]), UnBe(s[15..17]);
            Decoded(s) == if UnBe(s[17..21]) == |s| - 21 == w * h * 4 && hx < w && hy < h
                          then Some(CursorShape(Rounded(UnBe(s[1..9])), hx, hy, w, h, s[21..])) else None
  {
  }

  /** Everything else is no message: nothing at all, a kind that is none of these, or a
      fixed kind that is not as long as its fields. */
  lemma NoMessage(s: seq<Byte>)
    requires || s == [] || s[0] == 0 || s[0] > 8 || (s[0] == 3 && |s| != 19) || (s[0] == 5 && |s| != 9)
             || (s[0] == 6 && |s| != 10) || (s[0] == 8 && |s| != 2)
             || (s[0] == 1 && |s| < 8) || (s[0] == 2 && |s| < 4) || (s[0] == 4 && |s| < 11) || (s[0] == 7 && |s| < 21)
    ensures Decoded(s) == None
  {
  }

  // ---- the console's numbers ----

  function Pow2(k: nat): (p: nat)
    ensures p > 0
  {
    if k == 0 then 1 else 2 * Pow2(k - 1)
  }

  /** The spacing at a number: the power of two that leaves it 53 bits. */
  lemma {:induction false} UlpIs(n: nat) returns (k: nat)
    ensures Ulp(n) == Pow2(k) && n < 9007199254740992 * Ulp(n)
    ensures k > 0 ==> n >= 4503599627370496 * Ulp(n)
  {
    if n < 9007199254740992 {
      k := 0;
    } else {
      k := UlpIs(n / 2);
      k := k + 1;
      assert Ulp(n) == 2 * Ulp(n / 2);
    }
  }

  /** What is computed is a multiple of the spacing, as near as any, and the even one of
      two that are as near. */
  lemma RoundedNearest(n: nat) returns (q: nat)
    ensures Rounded(n) == q * Ulp(n)
    ensures Ulp(n) >= 2 * (Rounded(n) - n) && Ulp(n) >= 2 * (n - Rounded(n))
    ensures Ulp(n) == 2 * (Rounded(n) - n) || Ulp(n) == 2 * (n - Rounded(n)) ==> q % 2 == 0
  {
    q := NearestIs(n, Ulp(n));
    hide Ulp, Nearest;
  }

  lemma NearestIs(n: nat, u: nat) returns (q: nat)
    requires u > 0
    ensures Nearest(n, u) == q * u && u >= 2 * (q * u - n) && u >= 2 * (n - q * u)
    ensures u == 2 * (q * u - n) || u == 2 * (n - q * u) ==> q % 2 == 0
  {
    var k, m := n / u, n % u;
    Division(n, u);
    NextMultiple(k, u);
    var low := k * u;
    assert Nearest(n, u) == if 2 * m < u || (2 * m == u && k % 2 == 0) then low else low + u;
    assert n == low + m && m < u && (k + 1) * u == low + u;
    hide Nearest;
    q := if 2 * m < u || (2 * m == u && k % 2 == 0) then k else k + 1;
    assert q * u == if q == k then low else low + u;
    Ends(n, u, low, m);
  }

  lemma Ends(n: nat, u: nat, low: nat, m: nat)
    requires n == low + m && m < u
    ensures 2 * m <= u ==> u >= 2 * (low - n) && u >= 2 * (n - low)
    ensures 2 * m >= u ==> u >= 2 * (low + u - n) && u >= 2 * (n - low - u)
    ensures u == 2 * (low - n) || u == 2 * (n - low) ==> 2 * m == u
    ensures u == 2 * (low + u - n) || u == 2 * (n - low - u) ==> 2 * m == u
  {
  }
}
