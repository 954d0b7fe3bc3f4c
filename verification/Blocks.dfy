/** A sequence of equally long blocks seen as one flat buffer. */
module Blocks {
  import opened Basics

  /** The blocks laid end to end. */
  function Flat<T>(b: seq<seq<T>>): seq<T> {
    if b == [] then [] else b[0] + Flat(b[1..])
  }

  predicate Uniform<T>(b: seq<seq<T>>, base: nat) {
    forall i :: 0 <= i < |b| ==> |b[i]| == base
  }

  /** `s` with the bytes `d` put at position `p`. */
  function Overwrite<T>(s: seq<T>, p: nat, d: seq<T>): (r: seq<T>)
    requires p + |d| <= |s|
    ensures |r| == |s|
  {
    s[..p] + d + s[p + |d|..]
  }

  lemma {:induction false} FlatLength<T>(b: seq<seq<T>>, base: nat)
    requires Uniform(b, base)
    ensures |Flat(b)| == base * |b|
  {
    if b != [] {
      FlatLength(b[1..], base);
      assert base * |b| == base * (|b| - 1) + base;
    }
  }

  lemma {:induction false} FlatConcat<T>(b: seq<seq<T>>, c: seq<seq<T>>)
    ensures Flat(b + c) == Flat(b) + Flat(c)
  {
    if b == [] {
      assert b + c == c;
    } else {
      FlatConcat(b[1..], c);
      assert (b + c)[1..] == b[1..] + c && (b + c)[0] == b[0];
    }
  }

  /** Block `k` is the `k`-th stretch of the flat buffer. */
  lemma FlatAround<T>(b: seq<seq<T>>, base: nat, k: nat)
    requires Uniform(b, base) && k < |b|
    ensures Flat(b) == Flat(b[..k]) + b[k] + Flat(b[k + 1..])
    ensures |Flat(b[..k])| == base * k && base * k + base <= |Flat(b)| == base * |b|
  {
    assert b == b[..k] + ([b[k]] + b[k + 1..]);
    FlatConcat(b[..k], [b[k]] + b[k + 1..]);
    assert Flat([b[k]] + b[k + 1..]) == b[k] + Flat(b[k + 1..]) by {
      assert ([b[k]] + b[k + 1..])[1..] == b[k + 1..];
    }
    FlatLength(b[..k], base);
    FlatLength(b, base);
  }

  /** Offset `off` of block `k` is position `p`. The quantifier keeps the product folded. */
  ghost predicate Place(base: nat, k: nat, off: nat, p: nat) {
    forall x {:trigger Unfold(x)} :: Unfold(x) ==> p == base * k + off
  }

  lemma PlaceIs(base: nat, k: nat, off: nat, p: nat)
    ensures Place(base, k, off, p) <==> p == base * k + off
  {
    assert Unfold(0);
  }

  lemma PlaceNext(base: nat, k: nat, off: nat, p: nat, len: nat)
    requires Place(base, k, off, p) && off + len == base
    ensures Place(base, k + 1, 0, p + len)
  {
    PlaceIs(base, k, off, p);
    PlaceIs(base, k + 1, 0, p + len);
    assert base * (k + 1) == base * k + base;
  }

  /** A position before the end of the buffer is in one of the blocks. */
  lemma PlaceIn<T>(b: seq<seq<T>>, base: nat, k: nat, off: nat, p: nat)
    requires Uniform(b, base) && Place(base, k, off, p) && p < |Flat(b)|
    ensures k < |b|
  {
    PlaceIs(base, k, off, p);
    FlatLength(b, base);
    MulMonotone(base, |b|, k);
  }

  lemma PlaceWithin(base: nat, k: nat, off: nat, p: nat, n: nat)
    requires Place(base, k, off, p)
    ensures Place(base, k, off + n, p + n)
  {
    PlaceIs(base, k, off, p);
  }

  /** Reading inside one block is reading the flat buffer. */
  lemma FlatSlice<T>(b: seq<seq<T>>, base: nat, k: nat, off: nat, n: nat, p: nat)
    requires Uniform(b, base) && k < |b| && off + n <= base && p == base * k + off
    ensures p + n <= |Flat(b)|
    ensures Flat(b)[p..p + n] == b[k][off..off + n]
  {
    FlatAround(b, base, k);
  }

  lemma SliceJoin<T>(s: seq<T>, a: nat, b: nat, c: nat)
    requires a <= b <= c <= |s|
    ensures s[a..b] + s[b..c] == s[a..c]
  {}

  /** Writing inside one block is writing the flat buffer. */
  lemma FlatOverwrite<T>(b: seq<seq<T>>, base: nat, k: nat, off: nat, d: seq<T>)
    requires Uniform(b, base) && k < |b| && off + |d| <= base
    ensures base * k + off + |d| <= |Flat(b)|
    ensures Uniform(b[k := Overwrite(b[k], off, d)], base)
    ensures Flat(b[k := Overwrite(b[k], off, d)]) == Overwrite(Flat(b), base * k + off, d)
  {
    var c := b[k := Overwrite(b[k], off, d)];
    FlatAround(b, base, k);
    FlatAround(c, base, k);
    assert c[..k] == b[..k] && c[k + 1..] == b[k + 1..];
    var x, y := Flat(b[..k]), Flat(b[k + 1..]);
    assert x + Overwrite(b[k], off, d) + y == Overwrite(x + b[k] + y, |x| + off, d);
  }

  lemma OverwriteTwice<T>(s: seq<T>, p: nat, d: seq<T>, e: seq<T>)
    requires p + |d| + |e| <= |s|
    ensures Overwrite(Overwrite(s, p, d), p + |d|, e) == Overwrite(s, p, d + e)
  {}

  /** One more chunk of `buf` put right behind the chunks already there. */
  lemma OverwriteMore<T>(s: seq<T>, p: nat, buf: seq<T>, i: nat, n: nat)
    requires p + |buf| <= |s| && i + n <= |buf|
    ensures Overwrite(Overwrite(s, p, buf[..i]), p + i, buf[i..i + n]) == Overwrite(s, p, buf[..i + n])
  {
    OverwriteTwice(s, p, buf[..i], buf[i..i + n]);
    assert buf[..i] + buf[i..i + n] == buf[..i + n];
  }

  /** Overwriting a grown buffer, said of the buffer before it grew. */
  lemma OverwriteGrown<T>(before: seq<T>, grown: seq<T>, p: nat, d: seq<T>)
    requires before <= grown && p + |d| <= |grown|
    ensures var after := Overwrite(grown, p, d);
            after == Overwrite(before + after[|before|..], p, d)
  {}

  /** The images of all elements, laid end to end. */
  function FlatMap<A, B>(f: A -> seq<B>, s: seq<A>): seq<B> {
    if s == [] then [] else f(s[0]) + FlatMap(f, s[1..])
  }

  lemma {:induction false} FlatMapConcat<A, B>(f: A -> seq<B>, a: seq<A>, b: seq<A>)
    ensures FlatMap(f, a + b) == FlatMap(f, a) + FlatMap(f, b)
  {
    if a == [] {
      assert a + b == b;
    } else {
      FlatMapConcat(f, a[1..], b);
      assert (a + b)[1..] == a[1..] + b && (a + b)[0] == a[0];
    }
  }

  lemma FlatMapOne<A, B>(f: A -> seq<B>, x: A)
    ensures FlatMap(f, [x]) == f(x)
  {
    assert [x][1..] == [];
  }
}
