/**
 * The bytes on the wire, spelled out: digits in the stream's byte order, base-128 groups and the
 * headers of strings, as src/socket/bytearray.cpp writes and reads them.
 */
module WireFormat {
  import opened Basics
  import opened Codec

  /** The `n` base-256 digits of a value, least significant first in a little-endian stream, last in a big-endian one. */
  function Digits(endian: Endian, v: nat, n: nat): Bytes {
    seq(n, i requires 0 <= i < n => v / Pow(256, if endian == Little then i else n - 1 - i) % 256)
  }

  /** The number such digits stand for. */
  function Value(endian: Endian, s: Bytes): nat {
    FromLe(if endian == Little then s else Reverse(s))
  }

  lemma DigitsAre(endian: Endian, v: nat, n: nat)
    ensures Digits(endian, v, n) == if endian == Little then Le(v, n) else Reverse(Le(v, n))
  {
    forall k | 0 <= k < n ensures Le(v, n)[k] == v / Pow(256, k) % 256 {
      LeAt(v, n, k);
    }
  }

  /** Fixed-width integers are written as their digits in the stream's order. */
  lemma FixedWire(host: Endian, endian: Endian, w: Width, v: nat)
    requires v < w.Modulus()
    ensures PutFixed(host, endian, w, v) == Digits(endian, v, w.Size())
  {
    WireFormatIsHostIndependent(host, endian, w, v);
    DigitsAre(endian, v, w.Size());
  }

  /** And any bytes are read as the number they stand for in the stream's order. */
  lemma FixedRead(host: Endian, endian: Endian, w: Width, s: Bytes)
    requires |s| == w.Size()
    ensures GetFixed(host, endian, w, s) == Value(endian, s) < w.Modulus()
  {
    var le := Image(host, s);
    ReverseTwice(s);
    LeOfFromLe(le);
    ModulusIsPow(w);
    LeOfFromLe(s);
    LeOfFromLe(Reverse(s));
    if endian != host {
      BswapReverses(w, FromLe(le));
      FromLeOfLe(Byteswap(w, FromLe(le)), w.Size());
    }
  }

  /** The widths: one, two, four and eight bytes. */
  lemma UnsignedWire(host: Endian, endian: Endian, w: Width, u: nat)
    requires u < w.Modulus()
    ensures Put(host, endian, Unsigned(w, u)) == Digits(endian, u, match w case W8 => 1 case W16 => 2 case W32 => 4 case W64 => 8)
  {
    FixedWire(host, endian, w, u);
  }

  /** Signed integers are written in two's complement. */
  lemma SignedWire(host: Endian, endian: Endian, w: Width, i: int)
    requires SignedRange(w, i)
    ensures Put(host, endian, Signed(w, i)) == Put(host, endian, Unsigned(w, if i < 0 then i + w.Modulus() else i))
  {
    ModNear(i, w.Modulus());
  }

  /** Every value of its C++ type is accepted: only a value out of range, or a string of 2^64 bytes, is not. */
  lemma WellTypedExactly(x: Item)
    ensures WellTyped(x) <==>
              match x
              case Unsigned(w, u) => u < Pow(256, w.Size())
              case VarUnsigned(w, u) => u < Pow(256, w.Size())
              case Signed(w, i) => 0 <= 2 * i + Pow(256, w.Size()) && 2 * i < Pow(256, w.Size())
              case VarSigned(w, i) => 0 <= 2 * i + Pow(256, w.Size()) && 2 * i < Pow(256, w.Size())
              case Text(_, s) => |s| < 0x1_0000_0000_0000_0000
  {
    if !x.Text? {
      ModulusIsPow(x.w);
    }
  }

  // ---------------------------------------------------------------- strings

  /** The length of a string in front of it: two, four or eight bytes, or a varint. */
  function LengthWire(endian: Endian, h: Header, n: nat): Bytes {
    match h
    case Len16 => Digits(endian, n % 0x1_0000, 2)
    case Len32 => Digits(endian, n % 0x1_0000_0000, 4)
    case Len64 => Digits(endian, n, 8)
    case LenVarint => Varint(n)
  }

  /** A string is written as its length, cut to the header's size, and its bytes. */
  lemma TextWire(host: Endian, endian: Endian, h: Header, s: Bytes)
    requires |s| < 0x1_0000_0000_0000_0000
    ensures Put(host, endian, Text(h, s)) == LengthWire(endian, h, |s|) + s
  {
    HeaderWire(host, endian, h, |s|);
  }

  lemma HeaderWire(host: Endian, endian: Endian, h: Header, n: nat)
    requires n < 0x1_0000_0000_0000_0000
    ensures PutHeader(host, endian, h, n) == LengthWire(endian, h, n)
  {
    match h
    case Len16 => FixedWire(host, endian, W16, n % 0x1_0000);
    case Len32 => FixedWire(host, endian, W32, n % 0x1_0000_0000);
    case Len64 =>
      SmallMod(n, 0x1_0000_0000_0000_0000);
      FixedWire(host, endian, W64, n);
    case LenVarint => SmallMod(n, 0x1_0000_0000_0000_0000);
  }

  /** Its length survives unless it is 2^16 or more under a two-byte header, or 2^32 or more under four. */
  lemma FitsExactly(h: Header, s: Bytes)
    requires WellTyped(Text(h, s))
    ensures Fits(Text(h, s)) <==> (h == Len16 ==> |s| < 0x1_0000) && (h == Len32 ==> |s| < 0x1_0000_0000)
  {
  }

  /** The reading side: the length is taken from the first two, four or eight bytes, or from a varint. */
  lemma LengthRead(host: Endian, endian: Endian, h: Header, s: Bytes)
    ensures var n := if h == Len16 then 2 else if h == Len32 then 4 else 8;
            GetNumber(host, endian, h, s) ==
            if h == LenVarint then ReadVarint(W64, s) else if |s| < n then None else Some((Value(endian, s[..n]), n))
  {
    if h != LenVarint {
      var w := if h == Len16 then W16 else if h == Len32 then W32 else W64;
      if |s| >= w.Size() {
        FixedRead(host, endian, w, s[..w.Size()]);
      }
    }
  }

  /** A string of 65536 bytes loses them all under a two-byte header. */
  lemma LongTextLost(host: Endian, endian: Endian, s: Bytes)
    requires |s| == 0x1_0000
    ensures !Fits(Text(Len16, s))
    ensures Get(host, endian, KText(Len16), Put(host, endian, Text(Len16, s))) == Some((Text(Len16, []), 2))
  {
    var p := TextRoundTrip(host, endian, Len16, s, [], 0);
    FixedWire(host, endian, W16, 0);
    assert p + s + [] == p + s && s[..0] == [];
  }

  // ---------------------------------------------------------------- varints

  /** Seven bits a byte, low groups first. */
  function Groups(s: Bytes): nat {
    if s == [] then 0 else s[0] % 0x80 + 0x80 * Groups(s[1..])
  }

  /** A varint holds the value in groups, and only its last byte has the top bit clear. */
  lemma {:induction false} VarintGroups(v: nat)
    ensures Groups(Varint(v)) == v
    ensures forall i :: 0 <= i < |Varint(v)| ==> (Varint(v)[i] < 0x80 <==> i == |Varint(v)| - 1)
  {
    if v >= 0x80 {
      VarintGroups(v / 0x80);
      assert Varint(v) == [v % 0x80 + 0x80] + Varint(v / 0x80);
      assert Varint(v)[1..] == Varint(v / 0x80);
    }
  }

  /** The reading loop stops after the `n`-th byte: the first below 0x80, or the last that it may take. */
  predicate StopsAfter(s: Bytes, n: nat, most: nat) {
    && 0 < n <= |s| && n <= most
    && (forall i :: 0 <= i < n - 1 ==> s[i] >= 0x80)
    && (s[n - 1] < 0x80 || n == most)
  }

  lemma GroupSum(r: nat, b: nat, p: nat, g: nat)
    ensures r + b * p + (p * 0x80) * g == r + p * (b + 0x80 * g)
  {
  }

  lemma {:induction false} LoopReadsGroups(s: Bytes, n: nat, k: nat, p: nat, r: nat, m: nat)
    requires m > 0 && StopsAfter(s, n, k)
    ensures Unvarint(s, k, p, r, m) == Some(((r + p * Groups(s[..n])) % m, n))
    decreases n
  {
    var b := s[0] % 0x80;
    var r' := VarintStep(r, s[0], p, m);
    assert s[..n][0] == s[0] && s[..n][1..] == s[1..n];
    var g := Groups(s[1..n]);
    GroupSum(r, b, p, g);
    if n == 1 {
      assert s[1..1] == [];
    } else {
      assert s[1..][..n - 1] == s[1..n];
      LoopReadsGroups(s[1..], n - 1, k - 1, p * 0x80, r', m);
      ModSum(r + b * p, p * 0x80 * g, m);
    }
  }

  /**
   * What is read from any bytes: at most five or ten of them, up to the first below 0x80, as
   * groups reduced to the width; and an exception when they run out first.
   */
  lemma ReadVarintExactly(w: Width, s: Bytes, n: nat)
    requires w == W32 || w == W64
    ensures var most := if w == W32 then 5 else 10;
            && (StopsAfter(s, n, most) ==> ReadVarint(w, s) == Some((Groups(s[..n]) % w.Modulus(), n)))
            && (|s| < most && (forall i :: 0 <= i < |s| ==> s[i] >= 0x80) ==> ReadVarint(w, s) == None)
  {
    var most := MaxVarint(w);
    assert most == if w == W32 then 5 else 10;
    if StopsAfter(s, n, most) {
      LoopReadsGroups(s, n, most, 1, 0, w.Modulus());
    }
    if |s| < most && forall i :: 0 <= i < |s| ==> s[i] >= 0x80 {
      LoopRunsOut(s, most, 1, 0, w.Modulus());
    }
  }

  lemma {:induction false} LoopRunsOut(s: Bytes, k: nat, p: nat, r: nat, m: nat)
    requires m > 0 && |s| < k && forall i :: 0 <= i < |s| ==> s[i] >= 0x80
    ensures Unvarint(s, k, p, r, m) == None
    decreases |s|
  {
    if s != [] {
      LoopRunsOut(s[1..], k - 1, p * 0x80, VarintStep(r, s[0], p, m), m);
    }
  }

  /** Either the loop stops somewhere, or the bytes run out. */
  lemma {:induction false} StopsOrRunsOut(s: Bytes, most: nat) returns (n: nat)
    requires most > 0
    ensures StopsAfter(s, n, most) || (|s| < most && forall i :: 0 <= i < |s| ==> s[i] >= 0x80)
    decreases most
  {
    n := 1;
    if s != [] && s[0] >= 0x80 && most > 1 {
      var m := StopsOrRunsOut(s[1..], most - 1);
      n := m + 1;
      assert forall i :: 0 < i < |s| ==> s[i] == s[1..][i - 1];
    }
  }
}
