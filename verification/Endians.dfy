/** The byte swaps of src/socket/endians.h as they are written there: masks, shifts and ors. */
module Endians {
  import opened Basics
  import opened Codec

  /** Bitwise and. */
  function And(a: nat, b: nat): nat {
    if a == 0 || b == 0 then 0 else 2 * And(a / 2, b / 2) + if a % 2 == 1 && b % 2 == 1 then 1 else 0
  }

  /** Bitwise or. */
  function Or(a: nat, b: nat): nat {
    if a == 0 then b else if b == 0 then a
    else 2 * Or(a / 2, b / 2) + if a % 2 == 1 || b % 2 == 1 then 1 else 0
  }

  function Bswap16(v: nat): nat {
    Or(And(v, 0xFF00) / 0x100, And(v, 0x00FF) * 0x100)
  }

  function Bswap32(v: nat): nat {
    Or(Or(Or(
      And(v, 0xFF00_0000) / 0x100_0000,
      And(v, 0x00FF_0000) / 0x100),
      And(v, 0x0000_FF00) * 0x100),
      And(v, 0x0000_00FF) * 0x100_0000)
  }

  function Bswap64(v: nat): nat {
    Or(Or(Or(Or(Or(Or(Or(
      And(v, 0xFF00_0000_0000_0000) / 0x100_0000_0000_0000,
      And(v, 0x00FF_0000_0000_0000) / 0x100_0000_0000),
      And(v, 0x0000_FF00_0000_0000) / 0x100_0000),
      And(v, 0x0000_00FF_0000_0000) / 0x100),
      And(v, 0x0000_0000_FF00_0000) * 0x100),
      And(v, 0x0000_0000_00FF_0000) * 0x100_0000),
      And(v, 0x0000_0000_0000_FF00) * 0x100_0000_0000),
      And(v, 0x0000_0000_0000_00FF) * 0x100_0000_0000_0000)
  }

  // ---------------------------------------------------------------- masks

  lemma AndDouble(a: nat, m: nat)
    ensures And(a, 2 * m) == 2 * And(a / 2, m)
  {
  }

  lemma AndQuad(a: nat, m: nat)
    ensures And(a, 4 * m) == 4 * And(a / 4, m)
  {
    AndDouble(a, 2 * m);
    AndDouble(a / 2, m);
    assert a / 2 / 2 == a / 4;
  }

  lemma AndNibble(a: nat, m: nat)
    ensures And(a, 16 * m) == 16 * And(a / 16, m)
  {
    AndQuad(a, 4 * m);
    AndQuad(a / 4, m);
    assert a / 4 / 4 == a / 16;
  }

  lemma AndByte(a: nat, m: nat)
    ensures And(a, 256 * m) == 256 * And(a / 256, m)
  {
    AndNibble(a, 16 * m);
    AndNibble(a / 16, m);
    assert a / 16 / 16 == a / 256;
  }

  lemma {:induction false} AndOnes(a: nat, n: nat)
    ensures And(a, Pow(2, n) - 1) == a % Pow(2, n)
    decreases n
  {
    if n > 0 {
      var p := Pow(2, n - 1);
      AndOnes(a / 2, n - 1);
      assert (2 * p - 1) / 2 == p - 1 && (2 * p - 1) % 2 == 1;
      HalfMod(a, p);
    }
  }

  lemma HalfMod(a: nat, p: nat)
    requires p > 0
    ensures a % (2 * p) == 2 * (a / 2 % p) + a % 2
  {
    var q, r := a / 2 / p, a / 2 % p;
    assert a / 2 == p * q + r;
    assert a == (2 * p) * q + (2 * r + a % 2) by { assert (2 * p) * q == 2 * (p * q); }
    DivModUnique(a, 2 * p, q, 2 * r + a % 2);
  }

  lemma MaskLow(v: nat)
    ensures And(v, 0xFF) == v % 256
  {
    Pow2Of256(1);
    assert Pow(256, 1) == 256 * Pow(256, 0);
    AndOnes(v, 8);
  }

  /** A byte mask leaves one byte in its place. */
  lemma {:induction false} MaskByte(v: nat, k: nat)
    ensures And(v, 0xFF * Pow(256, k)) == ByteAt(v, k) * Pow(256, k)
    decreases k
  {
    if k == 0 {
      MaskLow(v);
    } else {
      MaskByte(v / 256, k - 1);
      MaskHigher(v, k, Pow(256, k - 1), ByteAt(v / 256, k - 1));
    }
  }

  lemma ByteAtStep(v: nat, k: nat)
    requires k > 0
    ensures ByteAt(v, k) == ByteAt(v / 256, k - 1)
  {
    DivModStep(v, Pow(256, k - 1));
  }

  lemma MaskHigher(v: nat, k: nat, p: nat, b: Byte)
    requires k > 0 && p == Pow(256, k - 1) && b == ByteAt(v / 256, k - 1) && And(v / 256, 0xFF * p) == b * p
    ensures And(v, 0xFF * Pow(256, k)) == ByteAt(v, k) * Pow(256, k)
  {
    ByteAtStep(v, k);
    MaskShifted(v, 0xFF * p, 0xFF * Pow(256, k), b * p);
    Reorder(b, p);
  }

  lemma MaskShifted(v: nat, m: nat, n: nat, x: nat)
    requires And(v / 256, m) == x && n == 256 * m
    ensures And(v, n) == 256 * x
  {
    AndByte(v, m);
  }

  lemma Reorder(b: nat, p: nat)
    ensures 256 * (b * p) == b * (256 * p)
  {
  }

  // ---------------------------------------------------------------- ors

  lemma {:induction false} OrAbove(a: nat, x: nat, n: nat)
    requires a < Pow(2, n)
    ensures Or(a, x * Pow(2, n)) == a + x * Pow(2, n)
    decreases n
  {
    if n > 0 && a > 0 && x > 0 {
      var p := Pow(2, n - 1);
      assert x * Pow(2, n) == 2 * (x * p);
      OrAbove(a / 2, x, n - 1);
    }
  }

  /** The bytes of `s` or-ed together, each in its place, the first one lowest. */
  function OrAll(s: Bytes): nat {
    if s == [] then 0 else Or(OrAll(s[..|s| - 1]), s[|s| - 1] * Pow(256, |s| - 1))
  }

  lemma {:induction false} FromLeLast(s: Bytes)
    requires s != []
    ensures FromLe(s) == FromLe(s[..|s| - 1]) + s[|s| - 1] * Pow(256, |s| - 1)
    decreases |s|
  {
    if |s| > 1 {
      FromLeLast(s[1..]);
      assert s[1..][..|s| - 2] == s[..|s| - 1][1..];
      assert 256 * (s[|s| - 1] * Pow(256, |s| - 2)) == s[|s| - 1] * Pow(256, |s| - 1);
    }
  }

  lemma {:induction false} OrAllIs(s: Bytes)
    ensures OrAll(s) == FromLe(s)
    decreases |s|
  {
    if s != [] {
      var init := s[..|s| - 1];
      OrAllIs(init);
      FromLeLast(s);
      LeOfFromLe(init);
      Pow2Of256(|init|);
      OrAbove(FromLe(init), s[|s| - 1], 8 * |init|);
    }
  }

  // ---------------------------------------------------------------- the swaps

  lemma Powers()
    ensures Pow(256, 0) == 1 && Pow(256, 1) == 0x100 && Pow(256, 2) == 0x1_0000 && Pow(256, 3) == 0x100_0000
    ensures Pow(256, 4) == 0x1_0000_0000 && Pow(256, 5) == 0x100_0000_0000
    ensures Pow(256, 6) == 0x1_0000_0000_0000 && Pow(256, 7) == 0x100_0000_0000_0000
  {
    assert Pow(256, 1) == 256 * Pow(256, 0);
    assert Pow(256, 2) == 256 * Pow(256, 1);
    assert Pow(256, 3) == 256 * Pow(256, 2);
    assert Pow(256, 4) == 256 * Pow(256, 3);
    assert Pow(256, 5) == 256 * Pow(256, 4);
    assert Pow(256, 6) == 256 * Pow(256, 5);
    assert Pow(256, 7) == 256 * Pow(256, 6);
  }

  lemma OrMore(s: Bytes, b: Byte)
    ensures OrAll(s + [b]) == Or(OrAll(s), b * Pow(256, |s|))
  {
    assert (s + [b])[..|s|] == s;
  }

  lemma OrFour(a: Byte, b: Byte, c: Byte, d: Byte)
    ensures Or(Or(Or(a, b * 0x100), c * 0x1_0000), d * 0x100_0000) == FromLe([a, b, c, d])
  {
    Powers();
    OrTwo(a, b);
    OrAllIs([a, b]);
    OrMore([a, b], c);
    OrMore([a, b, c], d);
    assert [a, b] + [c] == [a, b, c] && [a, b, c] + [d] == [a, b, c, d];
    OrAllIs([a, b, c, d]);
  }

  /** The expression for 16 bits is the swap. */
  lemma Bswap16Swaps(v: nat)
    ensures Bswap16(v) == Codec.Bswap16(v)
  {
    Masks16(v);
    OrTwo(ByteAt(v, 1), ByteAt(v, 0));
  }

  lemma Masks16(v: nat)
    ensures And(v, 0xFF00) / 0x100 == ByteAt(v, 1)
    ensures And(v, 0x00FF) * 0x100 == ByteAt(v, 0) * 0x100
  {
    Powers();
    MaskByte(v, 1);
    MaskByte(v, 0);
  }

  lemma OrTwo(a: Byte, b: Byte)
    ensures Or(a, b * 0x100) == FromLe([a, b])
  {
    Powers();
    OrOne(a);
    OrMore([a], b);
    assert [a] + [b] == [a, b];
    OrAllIs([a, b]);
  }

  lemma OrOne(a: Byte)
    ensures OrAll([a]) == a
  {
    assert [a][1..] == [];
    OrAllIs([a]);
  }

  lemma Masks32(v: nat)
    ensures And(v, 0xFF00_0000) / 0x100_0000 == ByteAt(v, 3)
    ensures And(v, 0x00FF_0000) / 0x100 == ByteAt(v, 2) * 0x100
    ensures And(v, 0x0000_FF00) * 0x100 == ByteAt(v, 1) * 0x1_0000
    ensures And(v, 0x0000_00FF) * 0x100_0000 == ByteAt(v, 0) * 0x100_0000
  {
    Powers();
    MaskByte(v, 3);
    MaskByte(v, 2);
    MaskByte(v, 1);
    MaskByte(v, 0);
  }

  /** The expression for 32 bits is the swap. */
  lemma Bswap32Swaps(v: nat)
    ensures Bswap32(v) == Codec.Bswap32(v)
  {
    Masks32(v);
    OrFour(ByteAt(v, 3), ByteAt(v, 2), ByteAt(v, 1), ByteAt(v, 0));
  }

  lemma OrEight(a: Byte, b: Byte, c: Byte, d: Byte, e: Byte, f: Byte, g: Byte, h: Byte)
    ensures Or(Or(Or(Or(FromLe([a, b, c, d]), e * 0x1_0000_0000), f * 0x100_0000_0000), g * 0x1_0000_0000_0000), h * 0x100_0000_0000_0000)
            == FromLe([a, b, c, d, e, f, g, h])
  {
    Powers();
    var s := [a, b, c, d];
    OrAllIs(s);
    OrMore(s, e);
    OrMore(s + [e], f);
    OrMore(s + [e] + [f], g);
    OrMore(s + [e] + [f] + [g], h);
    assert s + [e] + [f] + [g] + [h] == [a, b, c, d, e, f, g, h];
    OrAllIs([a, b, c, d, e, f, g, h]);
  }

  lemma HighMasks(v: nat)
    ensures And(v, 0xFF00_0000_0000_0000) / 0x100_0000_0000_0000 == ByteAt(v, 7)
    ensures And(v, 0x00FF_0000_0000_0000) / 0x100_0000_0000 == ByteAt(v, 6) * 0x100
    ensures And(v, 0x0000_FF00_0000_0000) / 0x100_0000 == ByteAt(v, 5) * 0x1_0000
    ensures And(v, 0x0000_00FF_0000_0000) / 0x100 == ByteAt(v, 4) * 0x100_0000
  {
    Powers();
    MaskByte(v, 7);
    MaskByte(v, 6);
    MaskByte(v, 5);
    MaskByte(v, 4);
  }

  lemma LowMasks(v: nat)
    ensures And(v, 0x0000_0000_FF00_0000) * 0x100 == ByteAt(v, 3) * 0x1_0000_0000
    ensures And(v, 0x0000_0000_00FF_0000) * 0x100_0000 == ByteAt(v, 2) * 0x100_0000_0000
    ensures And(v, 0x0000_0000_0000_FF00) * 0x100_0000_0000 == ByteAt(v, 1) * 0x1_0000_0000_0000
    ensures And(v, 0x0000_0000_0000_00FF) * 0x100_0000_0000_0000 == ByteAt(v, 0) * 0x100_0000_0000_0000
  {
    Powers();
    MaskByte(v, 3);
    MaskByte(v, 2);
    MaskByte(v, 1);
    MaskByte(v, 0);
  }

  /** The expression for 64 bits is the swap. */
  lemma Bswap64Swaps(v: nat)
    ensures Bswap64(v) == Codec.Bswap64(v)
  {
    HighMasks(v);
    LowMasks(v);
    OrFour(ByteAt(v, 7), ByteAt(v, 6), ByteAt(v, 5), ByteAt(v, 4));
    OrEight(ByteAt(v, 7), ByteAt(v, 6), ByteAt(v, 5), ByteAt(v, 4), ByteAt(v, 3), ByteAt(v, 2), ByteAt(v, 1), ByteAt(v, 0));
  }
}
