/** Bytes, and the fixed-width integers the two wire formats are made of:
    little-endian for the tunnel (`struct.pack('<…')`), big-endian for the
    desktop stream (`to_be_bytes` / `DataView.getUint…`). */
module Bytes {

  type Byte = b: int | 0 <= b < 256

  datatype Option<+T> = None | Some(value: T)

  datatype Result<+T, +E> = Ok(value: T) | Err(error: E)

  function Pow256(k: nat): (p: nat)
    ensures p > 0
  {
    if k == 0 then 1 else 256 * Pow256(k - 1)
  }

  /** The low `width` bytes of `n`, least significant first. */
  function Le(n: nat, width: nat): (s: seq<Byte>)
    ensures |s| == width
  {
    if width == 0 then [] else [n % 256] + Le(n / 256, width - 1)
  }

  function UnLe(s: seq<Byte>): (n: nat)
    ensures n < Pow256(|s|)
  {
    if s == [] then 0 else s[0] + 256 * UnLe(s[1..])
  }

  /** The low `width` bytes of `n`, most significant first. */
  function Be(n: nat, width: nat): (s: seq<Byte>)
    ensures |s| == width
  {
    if width == 0 then [] else Be(n / 256, width - 1) + [n % 256]
  }

  function UnBe(s: seq<Byte>): (n: nat)
    ensures n < Pow256(|s|)
  {
    if s == [] then 0 else 256 * UnBe(s[..|s| - 1]) + s[|s| - 1]
  }

  lemma {:induction false} LeRoundTrip(n: nat, width: nat)
    requires n < Pow256(width)
    ensures UnLe(Le(n, width)) == n
  {
    if width > 0 {
      LeRoundTrip(n / 256, width - 1);
      assert Le(n, width)[1..] == Le(n / 256, width - 1);
    }
  }

  lemma {:induction false} UnLeRoundTrip(s: seq<Byte>)
    ensures Le(UnLe(s), |s|) == s
  {
    if s != [] {
      UnLeRoundTrip(s[1..]);
      assert UnLe(s) % 256 == s[0] && UnLe(s) / 256 == UnLe(s[1..]);
    }
  }

  lemma {:induction false} BeRoundTrip(n: nat, width: nat)
    requires n < Pow256(width)
    ensures UnBe(Be(n, width)) == n
  {
    if width > 0 {
      BeRoundTrip(n / 256, width - 1);
      assert Be(n, width)[..width - 1] == Be(n / 256, width - 1);
    }
  }

  lemma {:induction false} UnBeRoundTrip(s: seq<Byte>)
    ensures Be(UnBe(s), |s|) == s
  {
    if s != [] {
      var front, last := s[..|s| - 1], s[|s| - 1];
      UnBeRoundTrip(front);
      assert UnBe(s) % 256 == last && UnBe(s) / 256 == UnBe(front);
      assert s == front + [last];
    }
  }

  /** The values the two formats actually use. */
  lemma Widths()
    ensures Pow256(1) == 256
    ensures Pow256(2) == 65536
    ensures Pow256(4) == 4294967296
    ensures Pow256(8) == 18446744073709551616
  {
    assert Pow256(2) == 256 * Pow256(1);
    assert Pow256(3) == 256 * Pow256(2);
    assert Pow256(4) == 256 * Pow256(3);
    assert Pow256(5) == 256 * Pow256(4);
    assert Pow256(6) == 256 * Pow256(5);
    assert Pow256(7) == 256 * Pow256(6);
    assert Pow256(8) == 256 * Pow256(7);
  }

  /** Least significant first: what four and eight bytes of the tunnel stand for. */
  lemma LittleEndian(s: seq<Byte>)
    ensures |s| == 4 ==> UnLe(s) == s[0] + 256 * (s[1] as int) + 65536 * (s[2] as int) + 16777216 * (s[3] as int)
    ensures |s| == 8 ==>
              UnLe(s) == s[0] + 256 * (s[1] as int) + 65536 * (s[2] as int) + 16777216 * (s[3] as int)
                         + 4294967296 * (s[4] as int) + 1099511627776 * (s[5] as int)
                         + 281474976710656 * (s[6] as int) + 72057594037927936 * (s[7] as int)
  {
    if |s| == 4 {
      LittleFour(s);
    } else if |s| == 8 {
      LittleFour(s[4..]);
      assert s[1..][1..][1..][1..] == s[4..];
      assert UnLe(s) == s[0] + 256 * UnLe(s[1..]) && UnLe(s[1..]) == s[1] + 256 * UnLe(s[1..][1..]);
      assert UnLe(s[1..][1..]) == s[2] + 256 * UnLe(s[1..][1..][1..]);
      assert UnLe(s[1..][1..][1..]) == s[3] + 256 * UnLe(s[4..]);
    }
  }

  lemma LittleFour(s: seq<Byte>)
    requires |s| == 4
    ensures UnLe(s) == s[0] + 256 * (s[1] as int) + 65536 * (s[2] as int) + 16777216 * (s[3] as int)
  {
    assert UnLe(s[1..]) == s[1] + 256 * UnLe(s[1..][1..]) && UnLe(s[1..][1..]) == s[2] + 256 * UnLe(s[1..][1..][1..]);
    assert s[1..][1..][1..] == [s[3]] && UnLe([s[3]]) == s[3] + 256 * UnLe([]);
  }

  /** Most significant first: what two, four and eight bytes of the desktop stream stand for. */
  lemma BigEndian(s: seq<Byte>)
    ensures |s| == 2 ==> UnBe(s) == 256 * (s[0] as int) + s[1]
    ensures |s| == 4 ==> UnBe(s) == 16777216 * (s[0] as int) + 65536 * (s[1] as int) + 256 * (s[2] as int) + s[3]
    ensures |s| == 8 ==>
              UnBe(s) == 72057594037927936 * (s[0] as int) + 281474976710656 * (s[1] as int)
                         + 1099511627776 * (s[2] as int) + 4294967296 * (s[3] as int)
                         + 16777216 * (s[4] as int) + 65536 * (s[5] as int) + 256 * (s[6] as int) + s[7]
  {
    if |s| == 2 {
      BigTwo(s);
    } else if |s| == 4 {
      BigFour(s);
    } else if |s| == 8 {
      BigFour(s[..4]);
      var s7, s6, s5 := s[..7], s[..6], s[..5];
      assert s7[..6] == s6 && s6[..5] == s5 && s5[..4] == s[..4];
      assert UnBe(s) == 256 * UnBe(s7) + s[7] && UnBe(s7) == 256 * UnBe(s6) + s[6];
      assert UnBe(s6) == 256 * UnBe(s5) + s[5] && UnBe(s5) == 256 * UnBe(s[..4]) + s[4];
    }
  }

  lemma BigTwo(s: seq<Byte>)
    requires |s| == 2
    ensures UnBe(s) == 256 * (s[0] as int) + s[1]
  {
    assert s[..1] == [s[0]] && [s[0]][..0] == [] && UnBe([s[0]]) == 256 * UnBe([]) + s[0];
  }

  lemma BigFour(s: seq<Byte>)
    requires |s| == 4
    ensures UnBe(s) == 16777216 * (s[0] as int) + 65536 * (s[1] as int) + 256 * (s[2] as int) + s[3]
  {
    BigTwo(s[..2]);
    assert s[..3][..2] == s[..2];
    assert UnBe(s) == 256 * UnBe(s[..3]) + s[3] && UnBe(s[..3]) == 256 * UnBe(s[..2]) + s[2];
  }

  function Concat<T>(parts: seq<seq<T>>): (s: seq<T>)
  {
    if parts == [] then [] else parts[0] + Concat(parts[1..])
  }

  lemma SeqAssociative<T>(x: seq<T>, y: seq<T>, z: seq<T>)
    ensures x + (y + z) == (x + y) + z
  {
  }

  lemma {:induction false} ConcatAppend<T>(parts: seq<seq<T>>, more: seq<seq<T>>)
    ensures Concat(parts + more) == Concat(parts) + Concat(more)
  {
    if parts == [] {
      assert parts + more == more;
    } else {
      calc {
        Concat(parts + more);
      ==  { assert (parts + more)[1..] == parts[1..] + more; }
        parts[0] + Concat(parts[1..] + more);
      ==  { ConcatAppend(parts[1..], more); }
        parts[0] + (Concat(parts[1..]) + Concat(more));
      ==
        Concat(parts) + Concat(more);
      }
    }
  }
}
