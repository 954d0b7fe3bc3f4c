/**
 * The wire formats of ByteArray: fixed-width integers in either byte order
 * (src/socket/endians.h), base-128 varints, ZigZag integers and length-prefixed strings.
 * An N-bit unsigned integer is a natural number below 2^N; shifts, masks and wrap-around
 * are written out as division, remainder and explicit reduction.
 */
module Codec {
  import opened Basics

  type Byte = x: int | 0 <= x < 256

  type Bytes = seq<Byte>

  datatype Endian = Little | Big

  datatype Width = W8 | W16 | W32 | W64 {
    function Size(): nat {
      match this
      case W8 => 1
      case W16 => 2
      case W32 => 4
      case W64 => 8
    }

    /** 2^N for an N-bit integer. */
    function Modulus(): nat {
      match this
      case W8 => 0x100
      case W16 => 0x1_0000
      case W32 => 0x1_0000_0000
      case W64 => 0x1_0000_0000_0000_0000
    }
  }

  function Pow(b: nat, e: nat): (p: nat)
    ensures b > 0 ==> p > 0
  {
    if e == 0 then 1 else b * Pow(b, e - 1)
  }

  // ---------------------------------------------------------------- byte order

  /** The low `n` bytes of a value, least significant first. */
  function Le(v: nat, n: nat): (s: Bytes)
    ensures |s| == n
    decreases n
  {
    if n == 0 then [] else [v % 256] + Le(v / 256, n - 1)
  }

  function FromLe(s: Bytes): nat {
    if s == [] then 0 else s[0] + 256 * FromLe(s[1..])
  }

  function Reverse(s: Bytes): (r: Bytes)
    ensures |r| == |s|
    ensures forall i :: 0 <= i < |s| ==> r[i] == s[|s| - 1 - i]
  {
    seq(|s|, i requires 0 <= i < |s| => s[|s| - 1 - i])
  }

  /** `(v & (0xFF << 8k)) >> 8k`: byte `k` of a value, counted from the least significant. */
  function ByteAt(v: nat, k: nat): Byte {
    v / Pow(256, k) % 256
  }

  // The swaps by what they do to the bytes; module Endians has them as masks, shifts and ors.
  function Bswap16(v: nat): nat {
    FromLe([ByteAt(v, 1), ByteAt(v, 0)])
  }

  function Bswap32(v: nat): nat {
    FromLe([ByteAt(v, 3), ByteAt(v, 2), ByteAt(v, 1), ByteAt(v, 0)])
  }

  function Bswap64(v: nat): nat {
    FromLe([ByteAt(v, 7), ByteAt(v, 6), ByteAt(v, 5), ByteAt(v, 4),
            ByteAt(v, 3), ByteAt(v, 2), ByteAt(v, 1), ByteAt(v, 0)])
  }

  function Byteswap(w: Width, v: nat): nat {
    match w
    case W8 => v
    case W16 => Bswap16(v)
    case W32 => Bswap32(v)
    case W64 => Bswap64(v)
  }

  /** What memcpy of an integer with the given little-endian bytes yields on a `host` machine. */
  function Image(host: Endian, le: Bytes): Bytes {
    if host == Little then le else Reverse(le)
  }

  /** writeFuintN: swap when the stream order is not the machine's, then copy the bytes out. */
  function PutFixed(host: Endian, endian: Endian, w: Width, v: nat): Bytes {
    Image(host, Le(if endian != host then Byteswap(w, v) else v, w.Size()))
  }

  /** readFuintN: copy the bytes in, then swap when the orders differ. */
  function GetFixed(host: Endian, endian: Endian, w: Width, s: Bytes): nat {
    var v := FromLe(Image(host, s));
    if endian == host then v else Byteswap(w, v)
  }

  /** One more division by 256 inside a division and remainder by a power of 256. */
  lemma DivModStep(v: nat, p: nat)
    requires p > 0
    ensures v / (256 * p) == v / 256 / p
    ensures v % (256 * p) == 256 * (v / 256 % p) + v % 256
  {
    var q, r := v / 256 / p, v / 256 % p;
    assert v == (256 * p) * q + (256 * r + v % 256) by { assert (256 * p) * q == 256 * (p * q); }
    DivModUnique(v, 256 * p, q, 256 * r + v % 256);
  }

  lemma {:induction false} FromLeOfLe(v: nat, n: nat)
    ensures FromLe(Le(v, n)) == v % Pow(256, n)
    ensures v < Pow(256, n) <==> FromLe(Le(v, n)) == v
    decreases n
  {
    if n > 0 {
      FromLeOfLe(v / 256, n - 1);
      assert Le(v, n)[1..] == Le(v / 256, n - 1);
      DivModStep(v, Pow(256, n - 1));
    }
  }

  lemma {:induction false} LeOfFromLe(s: Bytes)
    ensures Le(FromLe(s), |s|) == s
    ensures FromLe(s) < Pow(256, |s|)
  {
    if s != [] {
      LeOfFromLe(s[1..]);
      DivModUnique(FromLe(s), 256, FromLe(s[1..]), s[0]);
      assert s == [s[0]] + s[1..];
    }
  }

  lemma ModulusIsPow(w: Width)
    ensures Pow(256, w.Size()) == w.Modulus()
  {
    assert Pow(256, 2) == 256 * Pow(256, 1) && Pow(256, 1) == 256;
    assert Pow(256, 4) == 256 * Pow(256, 3) && Pow(256, 3) == 256 * Pow(256, 2);
    assert Pow(256, 6) == 256 * Pow(256, 5) && Pow(256, 5) == 256 * Pow(256, 4);
    assert Pow(256, 8) == 256 * Pow(256, 7) && Pow(256, 7) == 256 * Pow(256, 6);
  }

  lemma {:induction false} LeAt(v: nat, n: nat, k: nat)
    requires k < n
    ensures Le(v, n)[k] == ByteAt(v, k)
    decreases k
  {
    if k > 0 {
      LeAt(v / 256, n - 1, k - 1);
      DivModStep(v, Pow(256, k - 1));
    }
  }

  /** Swapping the bytes of an integer reverses its representation and stays in range. */
  lemma BswapReverses(w: Width, v: nat)
    requires v < w.Modulus()
    ensures Le(Byteswap(w, v), w.Size()) == Reverse(Le(v, w.Size()))
    ensures Byteswap(w, v) < w.Modulus()
  {
    ModulusIsPow(w);
    if w == W8 {
      assert Reverse(Le(v, 1)) == Le(v, 1);
    } else {
      BswapBytes(w, v);
      LeOfFromLe(Reverse(Le(v, w.Size())));
    }
  }

  lemma BswapBytes(w: Width, v: nat)
    requires w != W8
    ensures Byteswap(w, v) == FromLe(Reverse(Le(v, w.Size())))
  {
    var n := w.Size();
    forall k | 0 <= k < n ensures Le(v, n)[k] == ByteAt(v, k) { LeAt(v, n, k); }
    var s := Reverse(Le(v, n));
    match w {
      case W16 => assert s == [ByteAt(v, 1), ByteAt(v, 0)];
      case W32 => assert s == [ByteAt(v, 3), ByteAt(v, 2), ByteAt(v, 1), ByteAt(v, 0)];
      case W64 => assert s == [ByteAt(v, 7), ByteAt(v, 6), ByteAt(v, 5), ByteAt(v, 4),
                               ByteAt(v, 3), ByteAt(v, 2), ByteAt(v, 1), ByteAt(v, 0)];
    }
  }

  lemma ReverseTwice(s: Bytes)
    ensures Reverse(Reverse(s)) == s
  {}

  /**
   * The wire form of a fixed-width integer depends on the stream's byte order only, never on
   * the machine's: least significant byte first for Little, last for Big.
   */
  lemma WireFormatIsHostIndependent(host: Endian, endian: Endian, w: Width, v: nat)
    requires v < w.Modulus()
    ensures PutFixed(host, endian, w, v) ==
            if endian == Little then Le(v, w.Size()) else Reverse(Le(v, w.Size()))
  {
    BswapReverses(w, v);
    ReverseTwice(Le(v, w.Size()));
  }

  /** Integers written on one machine are read back on another, whatever the two byte orders. */
  lemma FixedRoundTrip(writer: Endian, reader: Endian, endian: Endian, w: Width, v: nat)
    requires v < w.Modulus()
    ensures |PutFixed(writer, endian, w, v)| == w.Size()
    ensures GetFixed(reader, endian, w, PutFixed(writer, endian, w, v)) == v
  {
    WireFormatIsHostIndependent(writer, endian, w, v);
    WireFormatIsHostIndependent(reader, endian, w, v);
    BswapReverses(w, v);
    var n := w.Size();
    var u := if endian != reader then Byteswap(w, v) else v;
    ReverseTwice(Le(u, n));
    ModulusIsPow(w);
    FromLeOfLe(u, n);
    assert FromLe(Image(reader, PutFixed(writer, endian, w, v))) == u;
    if endian != reader {
      BswapReverses(w, u);
      ReverseTwice(Le(v, n));
      FromLeOfLe(Byteswap(w, u), n);
      FromLeOfLe(v, n);
    }
  }

  // ---------------------------------------------------------------- varints

  /** Seven bits a byte, low bits first, the top bit set on all bytes but the last. */
  function Varint(v: nat): (s: Bytes)
    ensures |s| >= 1
  {
    if v >= 0x80 then [v % 0x80 + 0x80] + Varint(v / 0x80) else [v]
  }

  /** `result |= (b & 0x7f) << i`, for `p` = 2^i; `result` has no bits from place `p` on. */
  function VarintStep(r: nat, b: Byte, p: nat, modulus: nat): nat
    requires modulus > 0
  {
    (r + b % 0x80 * p) % modulus
  }

  /**
   * The reading loop with at most `k` iterations left: each byte supplies seven bits at the
   * current place `p` (a power of 128), bits beyond the modulus are shifted out, and a byte
   * below 0x80 ends the loop. Running out of input is an out_of_range exception.
   */
  function Unvarint(s: Bytes, k: nat, p: nat, r: nat, modulus: nat): (o: Option<(nat, nat)>)
    requires modulus > 0
    ensures o.Some? ==> o.value.1 <= |s| && o.value.1 <= k
    decreases k
  {
    if k == 0 then Some((r, 0))
    else if s == [] then None
    else
      var r' := VarintStep(r, s[0], p, modulus);
      if s[0] < 0x80 then Some((r', 1))
      else
        match Unvarint(s[1..], k - 1, p * 0x80, r', modulus)
        case None => None
        case Some((v, n)) => Some((v, n + 1))
  }

  /** `for (i = 0; i < N; i += 7)` runs at most ceil(N/7) times. */
  function MaxVarint(w: Width): nat {
    (8 * w.Size() + 6) / 7
  }

  function ReadVarint(w: Width, s: Bytes): Option<(nat, nat)> {
    Unvarint(s, MaxVarint(w), 1, 0, w.Modulus())
  }

  /** The number of significant bits of a value. */
  function Bits(v: nat): nat {
    if v == 0 then 0 else 1 + Bits(v / 2)
  }

  /** ceil(bits / 7), and one byte for zero. */
  function VarintLength(v: nat): nat {
    if v == 0 then 1 else (Bits(v) + 6) / 7
  }

  lemma BitsOfSeven(v: nat)
    ensures v >= 0x80 ==> Bits(v) == 7 + Bits(v / 0x80) && Bits(v / 0x80) >= 1
    ensures 0 < v < 0x80 ==> 1 <= Bits(v) <= 7
  {
    var a := v / 2; var b := a / 2; var c := b / 2; var d := c / 2; var e := d / 2; var f := e / 2;
    assert f / 2 == v / 0x80;
    assert Bits(v) <= 1 + Bits(a) && Bits(a) <= 1 + Bits(b) && Bits(b) <= 1 + Bits(c);
    assert Bits(c) <= 1 + Bits(d) && Bits(d) <= 1 + Bits(e) && Bits(e) <= 1 + Bits(f);
    assert Bits(f) <= 1 + Bits(v / 0x80);
    if v >= 0x80 {
      assert f > 0 && e > 0 && d > 0 && c > 0 && b > 0 && a > 0;
    }
  }

  lemma {:induction false} VarintLengthIs(v: nat)
    ensures |Varint(v)| == VarintLength(v)
  {
    BitsOfSeven(v);
    if v >= 0x80 {
      VarintLengthIs(v / 0x80);
    }
  }

  lemma {:induction false} BitsBound(v: nat, n: nat)
    requires v < Pow(2, n)
    ensures Bits(v) <= n
  {
    if v > 0 {
      BitsBound(v / 2, n - 1);
    }
  }

  lemma ModulusIsPow2(w: Width)
    ensures Pow(2, 8 * w.Size()) == w.Modulus()
  {
    Pow2Of256(w.Size());
    ModulusIsPow(w);
  }

  lemma {:induction false} Pow2Of256(n: nat)
    ensures Pow(2, 8 * n) == Pow(256, n)
  {
    if n > 0 {
      Pow2Of256(n - 1);
      Pow2Plus8(8 * (n - 1));
    }
  }

  lemma Pow2Plus8(n: nat)
    ensures Pow(2, n + 8) == 256 * Pow(2, n)
  {
    assert Pow(2, n + 2) == 4 * Pow(2, n) by { assert Pow(2, n + 1) == 2 * Pow(2, n); }
    assert Pow(2, n + 4) == 4 * Pow(2, n + 2) by { assert Pow(2, n + 3) == 2 * Pow(2, n + 2); }
    assert Pow(2, n + 6) == 4 * Pow(2, n + 4) by { assert Pow(2, n + 5) == 2 * Pow(2, n + 4); }
    assert Pow(2, n + 8) == 4 * Pow(2, n + 6) by { assert Pow(2, n + 7) == 2 * Pow(2, n + 6); }
  }

  lemma PlaceSplit(high: nat, low: nat, p: nat)
    ensures (0x80 * high + low) * p == low * p + high * (p * 0x80)
    ensures high * (p * 0x80) >= 0
  {
  }

  /** From place `p` on, the loop adds `v * p`, provided the total fits and enough iterations are left. */
  lemma {:induction false} UnvarintAt(v: nat, rest: Bytes, k: nat, p: nat, r: nat, modulus: nat)
    requires |Varint(v)| <= k && r + v * p < modulus
    ensures Unvarint(Varint(v) + rest, k, p, r, modulus) == Some((r + v * p, |Varint(v)|))
    decreases k
  {
    var s := Varint(v) + rest;
    if v >= 0x80 {
      var r' := r + v % 0x80 * p;
      PlaceSplit(v / 0x80, v % 0x80, p);
      SmallMod(r', modulus);
      UnvarintAt(v / 0x80, rest, k - 1, p * 0x80, r', modulus);
      assert s[1..] == Varint(v / 0x80) + rest;
      assert s[0] % 0x80 == v % 0x80;
    } else {
      SmallMod(r + v * p, modulus);
    }
  }

  /**
   * Varints are self-delimiting: whatever bytes follow, decoding returns the value and
   * consumes exactly the encoded bytes, ceil(bits/7) of them: at most 5 for 32 bits, 10 for 64.
   */
  lemma VarintSelfDelimiting(w: Width, v: nat, rest: Bytes)
    requires v < w.Modulus()
    ensures ReadVarint(w, Varint(v) + rest) == Some((v, VarintLength(v)))
    ensures |Varint(v)| == VarintLength(v) <= MaxVarint(w)
    ensures MaxVarint(W32) == 5 && MaxVarint(W64) == 10
  {
    VarintLengthIs(v);
    ModulusIsPow2(w);
    BitsBound(v, 8 * w.Size());
    UnvarintAt(v, rest, MaxVarint(w), 1, 0, w.Modulus());
  }

  // ---------------------------------------------------------------- ZigZag

  /** Conversion to a signed type of `m` values: wrap-around. */
  function Wrap(m: nat, x: int): int
    requires m > 0
  {
    var u := x % m;
    if u < m / 2 then u else u - m
  }

  function ToSigned(w: Width, x: int): int {
    Wrap(w.Modulus(), x)
  }

  /** Conversion to the unsigned type of the width. */
  function ToUnsigned(w: Width, x: int): nat {
    x % w.Modulus()
  }

  predicate SignedRange(w: Width, x: int) {
    0 <= x + w.Modulus() / 2 && x < w.Modulus() / 2
  }

  /** `((T)(-v)) * 2 - 1` for negative v, else `v * 2`, every step wrapping in the signed type. */
  function EncodeZigzag(w: Width, v: int): int {
    if v < 0 then ToSigned(w, ToSigned(w, -v) * 2 - 1) else ToSigned(w, v * 2)
  }

  /** `(v >> 1) ^ -(v & 1)` on the unsigned type: the mask is all zeros or all ones. */
  function DecodeZigzag(w: Width, v: nat): nat {
    if v % 2 == 0 then v / 2 else (w.Modulus() - 1 - v / 2) % w.Modulus()
  }

  lemma WrapNear(m: nat, h: nat, x: int)
    requires m == 2 * h && h > 0 && 0 <= x + 2 * m && x < 2 * m
    ensures Wrap(m, x) == if x + m + h < 0 then x + 2 * m else if x + h < 0 then x + m
                          else if x < h then x else if x < m + h then x - m else x - 2 * m
  {
    ModNear(x, m);
  }

  lemma EncodeZigzagIs(w: Width, v: int)
    requires SignedRange(w, v)
    ensures ToUnsigned(w, EncodeZigzag(w, v)) == if v < 0 then -2 * v - 1 else 2 * v
  {
    EncodeModulo(w.Modulus(), w.Modulus() / 2, v);
  }

  lemma EncodeModulo(m: nat, h: nat, v: int)
    requires m == 2 * h && h > 0 && 0 <= v + h && v < h
    ensures v < 0 ==> Wrap(m, Wrap(m, -v) * 2 - 1) % m == -2 * v - 1
    ensures v >= 0 ==> Wrap(m, v * 2) % m == 2 * v
  {
    if v < 0 {
      WrapNear(m, h, -v);
      var a := Wrap(m, -v) * 2 - 1;
      WrapNear(m, h, a);
      ModNear(Wrap(m, a), m);
    } else {
      WrapNear(m, h, v * 2);
      ModNear(Wrap(m, v * 2), m);
    }
  }

  lemma DecodeZigzagIs(w: Width, u: nat)
    requires u < w.Modulus()
    ensures ToSigned(w, DecodeZigzag(w, u)) == if u % 2 == 0 then u / 2 else -(u / 2) - 1
    ensures SignedRange(w, ToSigned(w, DecodeZigzag(w, u)))
  {
    DecodeModulo(w.Modulus(), w.Modulus() / 2, u);
  }

  lemma DecodeModulo(m: nat, h: nat, u: nat)
    requires m == 2 * h && h > 0 && u < m
    ensures u % 2 == 0 ==> Wrap(m, u / 2) == u / 2
    ensures u % 2 == 1 ==> Wrap(m, (m - 1 - u / 2) % m) == -(u / 2) - 1
  {
    if u % 2 == 0 {
      WrapNear(m, h, u / 2);
    } else {
      ModNear(m - 1 - u / 2, m);
      WrapNear(m, h, m - 1 - u / 2);
    }
  }

  /**
   * ZigZag is a bijection between the signed and the unsigned range, the most negative value
   * included, and it interleaves them: 0, -1, 1, -2, ...
   */
  lemma ZigzagBijective(w: Width, v: int, u: nat)
    requires SignedRange(w, v) && u < w.Modulus()
    ensures ToUnsigned(w, EncodeZigzag(w, v)) == if v < 0 then -2 * v - 1 else 2 * v
    ensures ToSigned(w, DecodeZigzag(w, ToUnsigned(w, EncodeZigzag(w, v)))) == v
    ensures ToUnsigned(w, EncodeZigzag(w, ToSigned(w, DecodeZigzag(w, u)))) == u
  {
    EncodeZigzagIs(w, v);
    DecodeZigzagIs(w, u);
    DecodeZigzagIs(w, ToUnsigned(w, EncodeZigzag(w, v)));
    EncodeZigzagIs(w, ToSigned(w, DecodeZigzag(w, u)));
  }

  // ---------------------------------------------------------------- typed values

  datatype Header = Len16 | Len32 | Len64 | LenVarint

  /** One value as the typed write methods take it; floats and doubles travel as their bit patterns. */
  datatype Item =
    | Unsigned(w: Width, u: nat)          // writeFuintN
    | Signed(w: Width, i: int)            // writeFintN
    | VarUnsigned(w: Width, u: nat)       // writeUint32, writeUint64
    | VarSigned(w: Width, i: int)         // writeInt32, writeInt64
    | Text(h: Header, s: Bytes)           // writeStringF16, F32, F64, Vint

  /** What the C++ types guarantee: the value is in the range of its type. */
  predicate WellTyped(x: Item) {
    match x
    case Unsigned(w, u) => u < w.Modulus()
    case Signed(w, i) => SignedRange(w, i)
    case VarUnsigned(w, u) => u < w.Modulus()
    case VarSigned(w, i) => SignedRange(w, i)
    case Text(h, s) => |s| < W64.Modulus()
  }

  function HeaderWidth(h: Header): Width {
    match h
    case Len16 => W16
    case Len32 => W32
    case Len64 => W64
    case LenVarint => W64
  }

  /** The length survives its conversion to the header's type. */
  predicate Fits(x: Item) {
    x.Text? ==> |x.s| < HeaderWidth(x.h).Modulus()
  }

  /** The header of a string: its length, silently truncated to the header's type. */
  function PutHeader(host: Endian, endian: Endian, h: Header, n: nat): Bytes {
    var w := HeaderWidth(h);
    if h == LenVarint then Varint(n % w.Modulus()) else PutFixed(host, endian, w, n % w.Modulus())
  }

  function Put(host: Endian, endian: Endian, x: Item): Bytes {
    match x
    case Unsigned(w, u) => PutFixed(host, endian, w, u)
    case Signed(w, i) => PutFixed(host, endian, w, ToUnsigned(w, i))
    case VarUnsigned(w, u) => Varint(u)
    case VarSigned(w, i) => Varint(ToUnsigned(w, EncodeZigzag(w, i)))
    case Text(h, s) => PutHeader(host, endian, h, |s|) + s
  }

  /** The type tag by which the matching read method is chosen. */
  datatype Kind =
    | KUnsigned(w: Width) | KSigned(w: Width) | KVarUnsigned(w: Width) | KVarSigned(w: Width) | KText(h: Header)

  function KindOf(x: Item): Kind {
    match x
    case Unsigned(w, _) => KUnsigned(w)
    case Signed(w, _) => KSigned(w)
    case VarUnsigned(w, _) => KVarUnsigned(w)
    case VarSigned(w, _) => KVarSigned(w)
    case Text(h, _) => KText(h)
  }

  /** A fixed-width number at the head of `s`, with the bytes it takes; None is out_of_range. */
  function GetFixedAt(host: Endian, endian: Endian, w: Width, s: Bytes): Option<(nat, nat)> {
    if |s| < w.Size() then None
    else Some((GetFixed(host, endian, w, s[..w.Size()]), w.Size()))
  }

  function GetNumber(host: Endian, endian: Endian, h: Header, s: Bytes): Option<(nat, nat)> {
    if h == LenVarint then ReadVarint(W64, s) else GetFixedAt(host, endian, HeaderWidth(h), s)
  }

  /** The typed read methods on the unread bytes `s`: the value and the bytes consumed. */
  function Get(host: Endian, endian: Endian, k: Kind, s: Bytes): (o: Option<(Item, nat)>) {
    match k
    case KUnsigned(w) =>
      (match GetFixedAt(host, endian, w, s)
       case None => None
       case Some((u, n)) => Some((Unsigned(w, u), n)))
    case KSigned(w) =>
      (match GetFixedAt(host, endian, w, s)
       case None => None
       case Some((u, n)) => Some((Signed(w, ToSigned(w, u)), n)))
    case KVarUnsigned(w) =>
      (match ReadVarint(w, s)
       case None => None
       case Some((u, n)) => Some((VarUnsigned(w, u), n)))
    case KVarSigned(w) =>
      (match ReadVarint(w, s)
       case None => None
       case Some((u, n)) => Some((VarSigned(w, ToSigned(w, DecodeZigzag(w, u))), n)))
    case KText(h) =>
      GetText(h, GetNumber(host, endian, h, s), s)
  }

  /** A string after its header: `number` is the length read and the bytes the header took. */
  function GetText(h: Header, number: Option<(nat, nat)>, s: Bytes): Option<(Item, nat)> {
    match number
    case None => None
    case Some((len, n)) =>
      if |s| < n + len then None else Some((Text(h, s[n..n + len]), n + len))
  }

  lemma FixedAtRoundTrip(host: Endian, endian: Endian, w: Width, v: nat, rest: Bytes)
    requires v < w.Modulus()
    ensures |PutFixed(host, endian, w, v)| == w.Size()
    ensures GetFixedAt(host, endian, w, PutFixed(host, endian, w, v) + rest) == Some((v, w.Size()))
  {
    FixedRoundTrip(host, host, endian, w, v);
    var p := PutFixed(host, endian, w, v);
    assert (p + rest)[..w.Size()] == p;
  }

  lemma SignedBack(m: nat, h: nat, i: int)
    requires m == 2 * h && h > 0 && 0 <= i + h && i < h
    ensures Wrap(m, i % m) == i
  {
    ModNear(i, m);
    WrapNear(m, h, i % m);
  }

  lemma UnsignedRoundTrip(host: Endian, endian: Endian, w: Width, u: nat, rest: Bytes)
    requires u < w.Modulus()
    ensures var p := Put(host, endian, Unsigned(w, u));
            |p| >= 1 && Get(host, endian, KUnsigned(w), p + rest) == Some((Unsigned(w, u), |p|))
  {
    FixedAtRoundTrip(host, endian, w, u, rest);
  }

  lemma SignedRoundTrip(host: Endian, endian: Endian, w: Width, i: int, rest: Bytes)
    requires SignedRange(w, i)
    ensures var p := Put(host, endian, Signed(w, i));
            |p| >= 1 && Get(host, endian, KSigned(w), p + rest) == Some((Signed(w, i), |p|))
  {
    var u := ToUnsigned(w, i);
    FixedAtRoundTrip(host, endian, w, u, rest);
    SignedBackAt(w, i, u);
    SignedFrom(host, endian, w, PutFixed(host, endian, w, u) + rest, u, i, w.Size());
  }

  lemma SignedBackAt(w: Width, i: int, u: nat)
    requires SignedRange(w, i) && u == ToUnsigned(w, i)
    ensures ToSigned(w, u) == i
  {
    SignedBack(w.Modulus(), w.Modulus() / 2, i);
  }

  lemma SignedFrom(host: Endian, endian: Endian, w: Width, s: Bytes, u: nat, i: int, n: nat)
    requires GetFixedAt(host, endian, w, s) == Some((u, n)) && ToSigned(w, u) == i
    ensures Get(host, endian, KSigned(w), s) == Some((Signed(w, i), n))
  {
  }

  lemma VarintItemRoundTrip(host: Endian, endian: Endian, x: Item, rest: Bytes)
    requires WellTyped(x) && (x.VarUnsigned? || x.VarSigned?)
    ensures Get(host, endian, KindOf(x), Put(host, endian, x) + rest) == Some((x, |Put(host, endian, x)|))
  {
    var u := if x.VarUnsigned? then x.u else ToUnsigned(x.w, EncodeZigzag(x.w, x.i));
    VarintSelfDelimiting(x.w, u, rest);
    if x.VarSigned? { ZigzagBijective(x.w, x.i, 0); }
  }

  lemma HeaderRoundTrip(host: Endian, endian: Endian, h: Header, n: nat, v: nat, rest: Bytes)
    requires v == n % HeaderWidth(h).Modulus()
    ensures var p := PutHeader(host, endian, h, n);
            |p| >= 1 && GetNumber(host, endian, h, p + rest) == Some((v, |p|))
  {
    var w := HeaderWidth(h);
    if h == LenVarint {
      VarintSelfDelimiting(w, v, rest);
    } else {
      FixedAtRoundTrip(host, endian, w, v, rest);
    }
  }

  lemma TextHeader(host: Endian, endian: Endian, h: Header, s: Bytes, len: nat, rest: Bytes) returns (p: Bytes)
    requires len == |s| % HeaderWidth(h).Modulus()
    ensures p == PutHeader(host, endian, h, |s|) && |p| >= 1 && len <= |s|
    ensures GetNumber(host, endian, h, p + rest) == Some((len, |p|))
  {
    p := PutHeader(host, endian, h, |s|);
    ModAtMost(|s|, HeaderWidth(h).Modulus());
    HeaderRoundTrip(host, endian, h, |s|, len, rest);
  }

  /** A string comes back cut to the length its header could hold. */
  lemma TextRoundTrip(host: Endian, endian: Endian, h: Header, s: Bytes, rest: Bytes, len: nat) returns (p: Bytes)
    requires len == |s| % HeaderWidth(h).Modulus()
    ensures p == PutHeader(host, endian, h, |s|) && |p| >= 1 && len <= |s|
    ensures Get(host, endian, KText(h), p + s + rest) == Some((Text(h, s[..len]), |p| + len))
  {
    p := TextHeader(host, endian, h, s, len, s + rest);
    TextFrom(host, endian, h, p, s, rest, len);
  }

  lemma TextFrom(host: Endian, endian: Endian, h: Header, p: Bytes, s: Bytes, rest: Bytes, len: nat)
    requires len <= |s| && GetNumber(host, endian, h, p + (s + rest)) == Some((len, |p|))
    ensures Get(host, endian, KText(h), p + s + rest) == Some((Text(h, s[..len]), |p| + len))
  {
    TextAt(h, p, s, rest, len);
  }

  lemma TextAt(h: Header, p: Bytes, s: Bytes, rest: Bytes, len: nat)
    requires len <= |s|
    ensures p + (s + rest) == p + s + rest
    ensures GetText(h, Some((len, |p|)), p + s + rest) == Some((Text(h, s[..len]), |p| + len))
  {
    assert p + (s + rest) == p + s + rest;
    assert (p + s + rest)[|p|..|p| + len] == s[..len];
  }

  /**
   * Reading back by the same type, whatever bytes follow, returns the item and consumes exactly
   * its bytes if and only if a string's length fits its header.
   */
  lemma ItemRoundTrip(host: Endian, endian: Endian, x: Item, rest: Bytes)
    requires WellTyped(x)
    ensures Get(host, endian, KindOf(x), Put(host, endian, x) + rest) == Some((x, |Put(host, endian, x)|))
            <==> Fits(x)
    ensures |Put(host, endian, x)| >= 1
  {
    match x
    case Text(h, t) => TextItemRoundTrip(host, endian, h, t, rest);
    case Unsigned(w, u) => UnsignedRoundTrip(host, endian, w, u, rest);
    case Signed(w, i) => SignedRoundTrip(host, endian, w, i, rest);
    case _ => VarintItemRoundTrip(host, endian, x, rest);
  }

  lemma TextItemRoundTrip(host: Endian, endian: Endian, h: Header, t: Bytes, rest: Bytes)
    ensures var p := Put(host, endian, Text(h, t));
            && |p| >= 1
            && (Get(host, endian, KText(h), p + rest) == Some((Text(h, t), |p|)) <==> |t| < HeaderWidth(h).Modulus())
  {
    var len := |t| % HeaderWidth(h).Modulus();
    var p := TextRoundTrip(host, endian, h, t, rest, len);
    ModAtMost(|t|, HeaderWidth(h).Modulus());
    assert len == |t| ==> t[..len] == t;
    assert len < |t| ==> |t[..len]| != |t|;
  }
}
