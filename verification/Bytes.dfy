/** Byte strings, and the unsigned integers that Go's shift operators and
    big-endian readers and writers move in and out of them. */
module Bytes {

  type byte = n: nat | n < 0x100
  type uint16 = n: nat | n < 0x1_0000
  type uint32 = n: nat | n < 0x1_0000_0000
  type uint64 = n: nat | n < 0x1_0000_0000_0000_0000

  type Bytes = seq<byte>
  type Bytes32 = b: Bytes | |b| == 32 witness Zeros(32)

  function Zeros(n: nat): (b: Bytes)
    ensures |b| == n && forall i :: 0 <= i < n ==> b[i] == 0
  {
    seq(n, _ => 0)
  }

  const ZERO32: Bytes32 := Zeros(32)

  /** Fixed-width fields can be told apart again after concatenation. */
  lemma SplitConcat(a: Bytes, b: Bytes, c: Bytes, d: Bytes)
    requires |a| == |c| && a + b == c + d
    ensures a == c && b == d
  {
    assert a == (a + b)[..|a|];
    assert b == (a + b)[|a|..];
    assert c == (c + d)[..|a|];
    assert d == (c + d)[|a|..];
  }

  /** What is left of a number in an unsigned integer of the given width. */
  function U32(n: nat): uint32
  {
    n % 0x1_0000_0000
  }

  function U64(n: nat): uint64
  {
    n % 0x1_0000_0000_0000_0000
  }

  // ----- shifts -----

  /** `x << h`, without a width. */
  function Shl(x: nat, h: nat): nat
    decreases h
  {
    if h == 0 then x else Shl(2 * x, h - 1)
  }

  /** `x >> h`. */
  function Shr(x: nat, h: nat): nat
  {
    if h == 0 then x else Shr(x / 2, h - 1)
  }

  lemma {:induction false} ShlAdd(x: nat, y: nat, h: nat)
    ensures Shl(x + y, h) == Shl(x, h) + Shl(y, h)
    decreases h
  {
    if h == 0 {
    } else {
      ShlAdd(2 * x, 2 * y, h - 1);
    }
  }

  lemma {:induction false} ShlZero(h: nat)
    ensures Shl(0, h) == 0
  {
    if h == 0 {
    } else {
      ShlZero(h - 1);
    }
  }

  lemma {:induction false} ShlMonotone(x: nat, y: nat, h: nat)
    requires x <= y
    ensures Shl(x, h) <= Shl(y, h)
    ensures x < y ==> Shl(x, h) < Shl(y, h)
    decreases h
  {
    if h == 0 {
    } else {
      ShlMonotone(2 * x, 2 * y, h - 1);
    }
  }

  lemma {:induction false} ShlGrows(h: nat, g: nat)
    requires h <= g
    ensures 1 <= Shl(1, h) <= Shl(1, g)
  {
    if h == 0 {
      ShlMonotone(0, 1, g);
      ShlZero(g);
    } else {
      ShlAdd(1, 1, h - 1);
      ShlAdd(1, 1, g - 1);
      ShlGrows(h - 1, g - 1);
    }
  }

  /** `uint64` has room for every tree of a height below 64. */
  lemma Shl63()
    ensures Shl(1, 63) == 0x8000_0000_0000_0000
  {
    ShlShl(1, 8, 8);
    ShlShl(1, 16, 8);
    ShlShl(1, 24, 8);
    ShlShl(1, 32, 8);
    ShlShl(1, 40, 8);
    ShlShl(1, 48, 8);
    ShlShl(1, 56, 7);
  }

  /** The leaf `i` lies below exactly one element of each level. */
  lemma {:induction false} ShrBounds(i: nat, h: nat)
    ensures Shl(Shr(i, h), h) <= i < Shl(Shr(i, h) + 1, h)
  {
    if h == 0 {
    } else {
      var y := Shr(i / 2, h - 1);
      ShrBounds(i / 2, h - 1);
      ShlAdd(y, y, h - 1);
      ShlAdd(y + 1, y + 1, h - 1);
    }
  }

  lemma ShrUnique(i: nat, h: nat, x: nat)
    requires Shl(x, h) <= i < Shl(x + 1, h)
    ensures x == Shr(i, h)
  {
    ShrBounds(i, h);
    if x < Shr(i, h) {
      ShlMonotone(x + 1, Shr(i, h), h);
    } else if Shr(i, h) < x {
      ShlMonotone(Shr(i, h) + 1, x, h);
    }
  }

  lemma {:induction false} ShlDouble(x: nat, h: nat)
    ensures Shl(x, h + 1) == 2 * Shl(x, h)
  {
    ShlAdd(x, x, h);
  }

  lemma {:induction false} ShlShl(x: nat, g: nat, h: nat)
    ensures Shl(Shl(x, g), h) == Shl(x, g + h)
    decreases g
  {
    if g == 0 {
    } else {
      ShlShl(2 * x, g - 1, h);
    }
  }

  /** Shifting by `h + 1` is one more halving at the end, too. */
  lemma {:induction false} ShrStep(i: nat, h: nat)
    ensures Shr(i, h + 1) == Shr(i, h) / 2
  {
    if h == 0 {
    } else {
      ShrStep(i / 2, h - 1);
    }
  }

  lemma ShrRoot(i: nat, h: nat)
    ensures Shr(i, h) == 0 <==> i < Shl(1, h)
  {
    ShrBounds(i, h);
    ShlMonotone(1, Shr(i, h) + 1, h);
    if Shr(i, h) != 0 {
      ShlMonotone(1, Shr(i, h), h);
    }
  }

  /** The low `h` bits of `i`. */
  function Low(i: nat, h: nat): nat
  {
    if h == 0 then 0 else i % 2 + 2 * Low(i / 2, h - 1)
  }

  lemma {:induction false} LowBits(i: nat, h: nat)
    ensures Low(i, h) < Shl(1, h)
    ensures i < Shl(1, h) ==> Low(i, h) == i
    ensures Low(Low(i, h), h) == Low(i, h)
    decreases h
  {
    if h == 0 {
    } else {
      ShlDouble(1, h - 1);
      LowBits(i / 2, h - 1);
    }
  }

  // ----- big-endian numbers -----

  function Pow256(len: nat): (p: nat)
    ensures p >= 1
  {
    if len == 0 then 1 else 0x100 * Pow256(len - 1)
  }

  /** `n` without its last `k` bytes. */
  function DropBytes(n: nat, k: nat): nat
  {
    if k == 0 then n else DropBytes(n / 0x100, k - 1)
  }

  /** The most significant byte comes first. */
  function ToBigEndian(n: nat, len: nat): (b: Bytes)
    ensures |b| == len
  {
    seq(len, i requires 0 <= i < len => DropBytes(n, len - 1 - i) % 0x100)
  }

  lemma LastByte(n: nat, len: nat)
    requires 0 < len
    ensures ToBigEndian(n, len) == ToBigEndian(n / 0x100, len - 1) + [n % 0x100]
  {
    assert DropBytes(n, 0) == n;
    forall i | 0 <= i < len - 1
      ensures ToBigEndian(n, len)[i] == ToBigEndian(n / 0x100, len - 1)[i]
    {
      assert DropBytes(n, len - 1 - i) == DropBytes(n / 0x100, len - 1 - i - 1);
    }
  }

  function FromBigEndian(b: Bytes): nat
  {
    if b == [] then 0 else FromBigEndian(b[..|b| - 1]) * 0x100 + b[|b| - 1]
  }

  lemma {:induction false} FromToBigEndian(n: nat, len: nat)
    requires n < Pow256(len)
    ensures FromBigEndian(ToBigEndian(n, len)) == n
  {
    if len == 0 {
    } else {
      FromToBigEndian(n / 0x100, len - 1);
      LastByte(n, len);
      var b := ToBigEndian(n, len);
      assert b[..|b| - 1] == ToBigEndian(n / 0x100, len - 1);
    }
  }

  lemma {:induction false} ToFromBigEndian(b: Bytes)
    ensures FromBigEndian(b) < Pow256(|b|)
    ensures ToBigEndian(FromBigEndian(b), |b|) == b
  {
    if b == [] {
    } else {
      ToFromBigEndian(b[..|b| - 1]);
      LastByte(FromBigEndian(b), |b|);
    }
  }

  /** Reading from the other end: the first byte weighs most. */
  lemma {:induction false} FirstByteWeighs(x: byte, b: Bytes)
    ensures FromBigEndian([x] + b) == x * Pow256(|b|) + FromBigEndian(b)
  {
    if b == [] {
      assert ([x] + b)[..0] == [];
    } else {
      var front, last := b[..|b| - 1], b[|b| - 1];
      FirstByteWeighs(x, front);
      assert ([x] + b)[..|b|] == [x] + front && ([x] + b)[|b|] == last;
      assert x * Pow256(|b|) == x * Pow256(|b| - 1) * 0x100;
    }
  }
}
