/**
 * ByteArray (src/socket/bytearray.cpp): a list of equal blocks with a cursor, proved to behave
 * as one flat byte buffer. The contracts cover every reachable state, including the stale cursor
 * that a write ending on a block boundary leaves behind. The linked list is the sequence
 * `blocks`, and the node pointer m_cur the index `cur` into it; |blocks| is the null pointer.
 */
module ByteArray {
  import opened Basics
  import opened Codec
  import opened Blocks

  datatype ReadResult = Data(bytes: Bytes) | OutOfRange | NullDereference

  /** A stretch of block `block` lent to readv or writev. */
  datatype Iovec = Iovec(block: nat, off: nat, len: nat)

  predicate IovecsFit(iovs: seq<Iovec>, blocks: seq<Bytes>) {
    forall i :: 0 <= i < |iovs| ==>
      iovs[i].block < |blocks| && iovs[i].off + iovs[i].len <= |blocks[iovs[i].block]|
  }

  /** The bytes the iovecs cover, in order: what writev sends. */
  function Gather(iovs: seq<Iovec>, blocks: seq<Bytes>): Bytes
    requires IovecsFit(iovs, blocks)
  {
    if iovs == [] then []
    else blocks[iovs[0].block][iovs[0].off..iovs[0].off + iovs[0].len] + Gather(iovs[1..], blocks)
  }

  function TotalLength(iovs: seq<Iovec>): nat {
    if iovs == [] then 0 else iovs[0].len + TotalLength(iovs[1..])
  }

  /** What readv does with the bytes received: it fills the iovecs in order until they run out. */
  function Scatter(iovs: seq<Iovec>, blocks: seq<Bytes>, d: Bytes): (r: seq<Bytes>)
    requires IovecsFit(iovs, blocks) && |d| <= TotalLength(iovs)
    decreases |iovs|
  {
    if d == [] || iovs == [] then blocks
    else
      var v := iovs[0];
      var n := if |d| <= v.len then |d| else v.len;
      var r := blocks[v.block := Overwrite(blocks[v.block], v.off, d[..n])];
      Scatter(iovs[1..], r, d[n..])
  }

  /** The iovecs of `n` bytes from offset `off` of block `k` on. */
  function Cover(base: nat, k: nat, off: nat, n: nat): seq<Iovec>
    requires off < base
    decreases n
  {
    if n == 0 then []
    else if base - off >= n then [Iovec(k, off, n)]
    else [Iovec(k, off, base - off)] + Cover(base, k + 1, 0, n - (base - off))
  }

  lemma AppendCover(iovs: seq<Iovec>, base: nat, k: nat, off: nat, n: nat, m: nat)
    requires off < base && m == base - off < n
    ensures iovs + Cover(base, k, off, n) == iovs + [Iovec(k, off, m)] + Cover(base, k + 1, 0, n - m)
  {
  }

  lemma GatherCons(v: Iovec, rest: seq<Iovec>, b: seq<Bytes>)
    requires IovecsFit([v] + rest, b)
    ensures v.block < |b| && v.off + v.len <= |b[v.block]|
    ensures IovecsFit(rest, b) && Gather([v] + rest, b) == b[v.block][v.off..v.off + v.len] + Gather(rest, b)
    ensures TotalLength([v] + rest) == v.len + TotalLength(rest)
  {
    assert ([v] + rest)[0] == v && ([v] + rest)[1..] == rest;
    forall i | 0 <= i < |rest| ensures rest[i] == ([v] + rest)[i + 1] {}
  }

  lemma GatherStep(b: seq<Bytes>, flat: Bytes, v: Iovec, rest: seq<Iovec>, p: nat, n: nat)
    requires IovecsFit([v] + rest, b) && IovecsFit(rest, b) && v.len <= n && p + n <= |flat|
    requires v.block < |b| && v.off + v.len <= |b[v.block]|
    requires b[v.block][v.off..v.off + v.len] == flat[p..p + v.len]
    requires Gather(rest, b) == flat[p + v.len..p + n]
    ensures Gather([v] + rest, b) == flat[p..p + n]
  {
    GatherCons(v, rest, b);
    SliceJoin(flat, p, p + v.len, p + n);
  }

  lemma ScatterCons(v: Iovec, rest: seq<Iovec>, b: seq<Bytes>, d: Bytes, r: seq<Bytes>)
    requires IovecsFit([v] + rest, b) && v.len < |d| <= TotalLength([v] + rest)
    requires v.block < |b| && v.off + v.len <= |b[v.block]|
    requires r == b[v.block := Overwrite(b[v.block], v.off, d[..v.len])]
    requires IovecsFit(rest, r) && |d| - v.len <= TotalLength(rest)
    ensures Scatter([v] + rest, b, d) == Scatter(rest, r, d[v.len..])
  {
    assert ([v] + rest)[0] == v && ([v] + rest)[1..] == rest;
  }

  lemma ScatterLast(v: Iovec, rest: seq<Iovec>, b: seq<Bytes>, d: Bytes)
    requires IovecsFit([v] + rest, b) && 0 < |d| <= v.len && |d| <= TotalLength([v] + rest)
    requires v.block < |b| && v.off + |d| <= |b[v.block]|
    ensures Scatter([v] + rest, b, d) == b[v.block := Overwrite(b[v.block], v.off, d)]
  {
    assert ([v] + rest)[0] == v && d[..|d|] == d && d[|d|..] == [];
  }

  /** `n` bytes from position `p` on, which is offset `off` of block `k`, lie in the blocks. */
  ghost predicate Within(b: seq<Bytes>, base: nat, k: nat, off: nat, n: nat, p: nat) {
    Uniform(b, base) && off < base && Place(base, k, off, p) && p + n <= |Flat(b)|
  }

  /** What lies beyond the `len` bytes up to the end of this block. */
  lemma WithinNext(b: seq<Bytes>, base: nat, k: nat, off: nat, n: nat, p: nat, len: nat)
    requires Within(b, base, k, off, n, p) && len == base - off < n
    ensures k < |b| && Within(b, base, k + 1, 0, n - len, p + len)
  {
    PlaceIn(b, base, k, off, p);
    PlaceNext(base, k, off, p, len);
  }

  /** What lies in this block. */
  lemma WithinSlice(b: seq<Bytes>, base: nat, k: nat, off: nat, n: nat, p: nat)
    requires Within(b, base, k, off, n, p) && 0 < n <= base - off
    ensures k < |b| && b[k][off..off + n] == Flat(b)[p..p + n]
  {
    PlaceIn(b, base, k, off, p);
    PlaceIs(base, k, off, p);
    FlatSlice(b, base, k, off, n, p);
  }

  lemma WithinOverwrite(b: seq<Bytes>, base: nat, k: nat, off: nat, d: Bytes, p: nat) returns (r: seq<Bytes>)
    requires Within(b, base, k, off, |d|, p) && 0 < |d| <= base - off
    ensures k < |b| && r == b[k := Overwrite(b[k], off, d)]
    ensures Filled(r, b, base, p, d)
  {
    PlaceIn(b, base, k, off, p);
    PlaceIs(base, k, off, p);
    FlatOverwrite(b, base, k, off, d);
    r := b[k := Overwrite(b[k], off, d)];
  }

  /** The iovecs stay inside the blocks and are `n` bytes long. */
  lemma {:induction false} CoverFits(b: seq<Bytes>, base: nat, k: nat, off: nat, n: nat, p: nat)
    requires Within(b, base, k, off, n, p)
    ensures IovecsFit(Cover(base, k, off, n), b) && TotalLength(Cover(base, k, off, n)) == n
    decreases n
  {
    if n > 0 {
      PlaceIn(b, base, k, off, p);
      if base - off < n {
        WithinNext(b, base, k, off, n, p, base - off);
        CoverFits(b, base, k + 1, 0, n - (base - off), p + (base - off));
      }
    }
  }

  /** Together they cover exactly the flat slice. */
  lemma {:induction false} CoverGathers(b: seq<Bytes>, base: nat, k: nat, off: nat, n: nat, p: nat, end: nat)
    requires Within(b, base, k, off, n, p) && IovecsFit(Cover(base, k, off, n), b) && end == p + n
    ensures Gather(Cover(base, k, off, n), b) == Flat(b)[p..end]
    decreases n, 1
  {
    if n == 0 {
      assert Flat(b)[p..p] == [];
    } else if n <= base - off {
      GatherLast(b, base, k, off, n, p);
    } else {
      GathersOn(b, base, k, off, n, p, end, base - off);
    }
  }

  lemma {:induction false} GathersOn(b: seq<Bytes>, base: nat, k: nat, off: nat, n: nat, p: nat, end: nat, m: nat)
    requires Within(b, base, k, off, n, p) && IovecsFit(Cover(base, k, off, n), b) && end == p + n
    requires m == base - off < n
    ensures Gather(Cover(base, k, off, n), b) == Flat(b)[p..end]
    decreases n, 0
  {
    WithinNext(b, base, k, off, n, p, m);
    CoverFits(b, base, k + 1, 0, n - m, p + m);
    CoverGathers(b, base, k + 1, 0, n - m, p + m, end);
    GatherMore(b, base, k, off, n, p, m, end);
  }

  lemma GatherLast(b: seq<Bytes>, base: nat, k: nat, off: nat, n: nat, p: nat)
    requires Within(b, base, k, off, n, p) && IovecsFit(Cover(base, k, off, n), b) && 0 < n <= base - off
    ensures Gather(Cover(base, k, off, n), b) == Flat(b)[p..p + n]
  {
    WithinSlice(b, base, k, off, n, p);
    assert [Iovec(k, off, n)] + [] == Cover(base, k, off, n);
    GatherCons(Iovec(k, off, n), [], b);
  }

  lemma GatherMore(b: seq<Bytes>, base: nat, k: nat, off: nat, n: nat, p: nat, m: nat, end: nat)
    requires Within(b, base, k, off, m, p) && m == base - off < n && end == p + n <= |Flat(b)|
    requires IovecsFit(Cover(base, k, off, n), b) && IovecsFit(Cover(base, k + 1, 0, n - m), b)
    requires Gather(Cover(base, k + 1, 0, n - m), b) == Flat(b)[p + m..end]
    ensures Gather(Cover(base, k, off, n), b) == Flat(b)[p..end]
  {
    WithinSlice(b, base, k, off, m, p);
    GatherStep(b, Flat(b), Iovec(k, off, m), Cover(base, k + 1, 0, n - m), p, n);
  }

  /** `r` is `b` with `d` written at position `p`; folded like Place. */
  ghost predicate Filled(r: seq<Bytes>, b: seq<Bytes>, base: nat, p: nat, d: Bytes) {
    forall x {:trigger Unfold(x)} :: Unfold(x) ==>
      Uniform(r, base) && |r| == |b| && p + |d| <= |Flat(b)| && Flat(r) == Overwrite(Flat(b), p, d)
  }

  lemma FilledIs(r: seq<Bytes>, b: seq<Bytes>, base: nat, p: nat, d: Bytes)
    requires Filled(r, b, base, p, d)
    ensures Uniform(r, base) && |r| == |b| && p + |d| <= |Flat(b)| && Flat(r) == Overwrite(Flat(b), p, d)
  {
    assert Unfold(0);
  }

  lemma FilledWithin(r: seq<Bytes>, b: seq<Bytes>, base: nat, p: nat, d: Bytes, k: nat, off: nat, n: nat, q: nat)
    requires Filled(r, b, base, p, d) && Within(b, base, k, off, n, q)
    ensures Within(r, base, k, off, n, q)
  {
    FilledIs(r, b, base, p, d);
  }

  lemma FilledNone(b: seq<Bytes>, base: nat, p: nat)
    requires Uniform(b, base) && p <= |Flat(b)|
    ensures Filled(b, b, base, p, [])
  {
    assert Overwrite(Flat(b), p, []) == Flat(b);
  }

  lemma FilledMore(q: seq<Bytes>, r: seq<Bytes>, b: seq<Bytes>, base: nat, p: nat, d: Bytes, len: nat)
    requires len <= |d| && p + |d| <= |Flat(b)|
    requires Filled(r, b, base, p, d[..len]) && Filled(q, r, base, p + len, d[len..])
    ensures Filled(q, b, base, p, d)
  {
    FilledIs(r, b, base, p, d[..len]);
    FilledIs(q, r, base, p + len, d[len..]);
    OverwriteParts(Flat(b), p, d, len);
  }

  /** Filling the first |d| bytes of the iovecs overwrites the flat slice with `d`. */
  lemma {:induction false} CoverScatters(b: seq<Bytes>, base: nat, k: nat, off: nat, n: nat, d: Bytes, p: nat) returns (q: seq<Bytes>)
    requires Within(b, base, k, off, n, p)
    requires IovecsFit(Cover(base, k, off, n), b) && |d| <= TotalLength(Cover(base, k, off, n)) == n
    ensures q == Scatter(Cover(base, k, off, n), b, d) && Filled(q, b, base, p, d)
    decreases n, 1
  {
    if d == [] {
      FilledNone(b, base, p);
      q := b;
    } else if |d| <= base - off {
      ScatterInBlock(b, base, k, off, n, d, p);
      q := Scatter(Cover(base, k, off, n), b, d);
    } else {
      q := ScatterOver(b, base, k, off, n, d, p, base - off, d[..base - off], d[base - off..]);
    }
  }

  /** The part `c` fills this block and `e` goes on behind it. */
  lemma {:induction false} ScatterOver(b: seq<Bytes>, base: nat, k: nat, off: nat, n: nat, d: Bytes, p: nat, len: nat, c: Bytes, e: Bytes)
    returns (q: seq<Bytes>)
    requires Within(b, base, k, off, n, p) && 0 < len == base - off < |d| <= n && c == d[..len] && e == d[len..]
    requires IovecsFit(Cover(base, k, off, n), b) && TotalLength(Cover(base, k, off, n)) == n
    ensures q == Scatter(Cover(base, k, off, n), b, d) && Filled(q, b, base, p, d)
    decreases n, 0
  {
    WithinNext(b, base, k, off, n, p, len);
    var r := WithinOverwrite(b, base, k, off, c, p);
    FilledWithin(r, b, base, p, c, k + 1, 0, n - len, p + len);
    CoverFits(r, base, k + 1, 0, n - len, p + len);
    q := CoverScatters(r, base, k + 1, 0, n - len, e, p + len);
    ScatterJoin(b, base, k, off, n, d, p, len, r, q);
  }

  lemma ScatterJoin(b: seq<Bytes>, base: nat, k: nat, off: nat, n: nat, d: Bytes, p: nat, len: nat, r: seq<Bytes>, q: seq<Bytes>)
    requires Within(b, base, k, off, n, p) && k < |b| && 0 < len == base - off < |d| <= n
    requires IovecsFit(Cover(base, k, off, n), b) && TotalLength(Cover(base, k, off, n)) == n
    requires r == b[k := Overwrite(b[k], off, d[..len])] && Filled(r, b, base, p, d[..len])
    requires IovecsFit(Cover(base, k + 1, 0, n - len), r) && TotalLength(Cover(base, k + 1, 0, n - len)) == n - len
    requires q == Scatter(Cover(base, k + 1, 0, n - len), r, d[len..]) && Filled(q, r, base, p + len, d[len..])
    ensures q == Scatter(Cover(base, k, off, n), b, d) && Filled(q, b, base, p, d)
  {
    FilledMore(q, r, b, base, p, d, len);
    ScatterMore(b, base, k, off, n, d, r, len);
  }

  lemma ScatterMore(b: seq<Bytes>, base: nat, k: nat, off: nat, n: nat, d: Bytes, r: seq<Bytes>, len: nat)
    requires Uniform(b, base) && off < base && k < |b| && len == base - off < |d| <= n
    requires IovecsFit(Cover(base, k, off, n), b) && TotalLength(Cover(base, k, off, n)) == n
    requires r == b[k := Overwrite(b[k], off, d[..len])]
    requires IovecsFit(Cover(base, k + 1, 0, n - len), r) && TotalLength(Cover(base, k + 1, 0, n - len)) == n - len
    ensures Scatter(Cover(base, k, off, n), b, d) == Scatter(Cover(base, k + 1, 0, n - len), r, d[len..])
  {
    ScatterCons(Iovec(k, off, len), Cover(base, k + 1, 0, n - len), b, d, r);
  }

  lemma ScatterInBlock(b: seq<Bytes>, base: nat, k: nat, off: nat, n: nat, d: Bytes, p: nat)
    requires Within(b, base, k, off, |d|, p) && 0 < |d| <= base - off
    requires IovecsFit(Cover(base, k, off, n), b) && |d| <= TotalLength(Cover(base, k, off, n)) == n
    ensures Filled(Scatter(Cover(base, k, off, n), b, d), b, base, p, d)
  {
    var len := if base - off >= n then n else base - off;
    var rest := if base - off >= n then [] else Cover(base, k + 1, 0, n - len);
    assert Cover(base, k, off, n) == [Iovec(k, off, len)] + rest;
    var r := WithinOverwrite(b, base, k, off, d, p);
    ScatterLast(Iovec(k, off, len), rest, b, d);
  }

  lemma OverwriteParts(s: Bytes, p: nat, d: Bytes, m: nat)
    requires p + |d| <= |s| && m <= |d|
    ensures Overwrite(Overwrite(s, p, d[..m]), p + m, d[m..]) == Overwrite(s, p, d)
  {
    OverwriteTwice(s, p, d[..m], d[m..]);
    assert d[..m] + d[m..] == d;
  }

  lemma CeilDiv(n: nat, b: nat)
    requires b > 0 && n > 0
    ensures n <= b * (n / b + if n % b > 0 then 1 else 0) < n + b
  {
    assert b * (n / b + 1) == b * (n / b) + b;
  }

  // ---------------------------------------------------------------- the positional read

  /** Where the const positional read starts: in the current block, at the offset of `pos`. */
  ghost function PositionalStart(base: nat, cur: nat, pos: nat): nat
    requires base > 0
  {
    base * cur + pos % base
  }

  /** What the read makes of the blocks, when it starts at `e`. */
  ghost function PositionalRead(b: seq<Bytes>, size: nat, cur: nat, e: nat, n: nat, pos: nat): ReadResult {
    if pos <= size && n > size - pos then OutOfRange
    else if cur == |b| || (n > 0 && e + n > |Flat(b)|) then NullDereference
    else if n == 0 then Data([])
    else Data(Flat(b)[e..e + n])
  }

  /** What it is meant to do. */
  ghost function PositionalMeant(b: seq<Bytes>, size: nat, n: nat, pos: nat): ReadResult
    requires size <= |Flat(b)|
  {
    if pos + n > size then OutOfRange else Data(Flat(b)[pos..pos + n])
  }

  /** The read is right whatever the `count` blocks hold. */
  ghost predicate PositionalRight(count: nat, base: nat, size: nat, cur: nat, e: nat, n: nat, pos: nat) {
    forall b: seq<Bytes> :: Uniform(b, base) && |b| == count && size <= |Flat(b)| ==>
      PositionalRead(b, size, cur, e, n, pos) == PositionalMeant(b, size, n, pos)
  }

  /**
   * It is, exactly for positions up to the size, when the bytes asked for go beyond the size, or
   * the cursor is not null and the position is in the current block or nothing is asked for.
   */
  lemma PositionalReadExactly(b: seq<Bytes>, base: nat, size: nat, cur: nat, n: nat, pos: nat)
    requires base > 0 && Uniform(b, base) && size <= |Flat(b)| && cur <= |b|
    ensures PositionalRight(|b|, base, size, cur, PositionalStart(base, cur, pos), n, pos) <==>
              pos <= size && (n > size - pos || (cur < |b| && (n == 0 || pos / base == cur)))
  {
    StartsRight(base, cur, pos);
    RightExactly(b, base, size, cur, PositionalStart(base, cur, pos), n, pos);
  }

  lemma RightExactly(b: seq<Bytes>, base: nat, size: nat, cur: nat, e: nat, n: nat, pos: nat)
    requires base > 0 && Uniform(b, base) && size <= |Flat(b)| && cur <= |b|
    ensures PositionalRight(|b|, base, size, cur, e, n, pos) <==>
              pos <= size && (n > size - pos || (cur < |b| && (n == 0 || e == pos)))
  {
    if pos > size || (n <= size - pos && cur == |b|) {
      assert PositionalRead(b, size, cur, e, n, pos) != PositionalMeant(b, size, n, pos);
    } else if n > 0 && n <= size - pos && e != pos {
      PositionalWrong(b, base, size, cur, e, n, pos);
    } else if n <= size - pos {
      forall c: seq<Bytes> | Uniform(c, base) && |c| == |b| && size <= |Flat(c)|
        ensures PositionalRead(c, size, cur, e, n, pos) == PositionalMeant(c, size, n, pos)
      {
        assert Flat(c)[pos..pos] == [];
      }
    }
  }

  /** Blocks that differ from `b` in one byte tell the wrong start from the right one. */
  lemma PositionalWrong(b: seq<Bytes>, base: nat, size: nat, cur: nat, e: nat, n: nat, pos: nat)
    requires base > 0 && Uniform(b, base) && size <= |Flat(b)| && cur < |b| && 0 < n && pos + n <= size && e != pos
    ensures !PositionalRight(|b|, base, size, cur, e, n, pos)
  {
    var r := b;
    if e + n <= |Flat(b)| {
      r := OtherByte(b, base, pos, e);
      SliceStarts(Flat(r), e, pos, n);
    }
    assert PositionalRead(r, size, cur, e, n, pos) != PositionalMeant(r, size, n, pos);
  }

  lemma SliceStarts(s: Bytes, a: nat, b: nat, n: nat)
    requires n > 0 && a + n <= |s| && b + n <= |s| && s[a] != s[b]
    ensures s[a..a + n] != s[b..b + n]
  {
    assert s[a..a + n][0] == s[a] && s[b..b + n][0] == s[b];
  }

  lemma OtherByte(b: seq<Bytes>, base: nat, pos: nat, e: nat) returns (r: seq<Bytes>)
    requires base > 0 && Uniform(b, base) && pos < |Flat(b)| && e < |Flat(b)| && e != pos
    ensures Uniform(r, base) && |r| == |b| && |Flat(r)| == |Flat(b)| && Flat(r)[e] != Flat(r)[pos]
  {
    var x: Byte := if Flat(b)[e] == 0 then 1 else 0;
    PlaceAt(base, pos);
    r := WithinOverwrite(b, base, pos / base, pos % base, [x], pos);
    FilledIs(r, b, base, pos, [x]);
    OneByte(Flat(b), pos, x, e);
  }

  lemma PlaceAt(base: nat, pos: nat)
    requires base > 0
    ensures Place(base, pos / base, pos % base, pos)
  {
    PlaceIs(base, pos / base, pos % base, pos);
  }

  lemma OneByte(s: Bytes, pos: nat, x: Byte, e: nat)
    requires pos < |s| && e < |s| && e != pos
    ensures Overwrite(s, pos, [x])[pos] == x && Overwrite(s, pos, [x])[e] == s[e]
  {
  }

  lemma StartsRight(base: nat, cur: nat, pos: nat)
    requires base > 0
    ensures pos == base * (pos / base) + pos % base
    ensures PositionalStart(base, cur, pos) == pos <==> pos / base == cur
  {
    if PositionalStart(base, cur, pos) == pos {
      DivModUnique(pos, base, cur, pos % base);
    }
  }

  class ByteArray {
    const baseSize: nat
    var position: nat
    var capacity: nat
    var size: nat
    var endian: Endian
    var blocks: seq<Bytes>
    var cur: nat

    ghost var off: nat   // position within a block
    ghost var lag: nat   // number of blocks by which cur trails position

    ghost predicate Shape()
      reads `blocks, `capacity
    {
      baseSize > 0 && |blocks| > 0 && Uniform(blocks, baseSize) && capacity == baseSize * |blocks|
    }

    ghost predicate Valid()
      reads this
    {
      && Shape() && cur <= |blocks|
      && off < baseSize && position == baseSize * (cur + lag) + off
      && position <= size <= capacity
    }

    /** The whole capacity as one buffer; the bytes beyond `size` are storage not yet written. */
    ghost function Contents(): (s: Bytes)
      reads `blocks, `capacity
      requires Shape()
      ensures |s| == capacity
    {
      FlatLength(blocks, baseSize);
      Flat(blocks)
    }

    /** Where the next byte is really read or written. */
    ghost function Cursor(): nat
      reads this
    {
      baseSize * cur + off
    }

    /** The cursor agrees with the position. */
    ghost predicate Coherent()
      reads this
    {
      lag == 0
    }

    /** Where a non-empty write goes: the cursor, or the position when the capacity is used up. */
    ghost function Target(): nat
      reads this
    {
      if position == capacity then position else Cursor()
    }

    lemma CursorBehind()
      requires Valid()
      ensures position == Cursor() + baseSize * lag
      ensures Coherent() <==> Cursor() == position
      ensures position % baseSize == off && position / baseSize == cur + lag
    {
      assert baseSize * (cur + lag) == baseSize * cur + baseSize * lag;
      DivModUnique(position, baseSize, cur + lag, off);
      if lag > 0 { MulMonotone(baseSize, 1, lag); }
    }

    lemma TargetAgrees()
      requires Valid()
      ensures Target() == position <==> position == capacity || lag == 0
      ensures position % baseSize == off
    {
      CursorBehind();
    }

    /** m_cur is null only when the position is the capacity. */
    lemma NullOnlyAtEnd()
      requires Valid()
      ensures cur == |blocks| ==> position == capacity && lag == 0 && off == 0
      ensures position == capacity ==> off == 0 && cur + lag == |blocks|
    {
      CursorBehind();
      if cur == |blocks| {
        SmallMultiple(baseSize, lag);
      }
      if position == capacity {
        DivModUnique(position, baseSize, |blocks|, 0);
      }
    }

    constructor (base: nat)
      requires base > 0
      ensures Valid() && Coherent() && cur == 0
      ensures baseSize == capacity == base && position == size == 0 && endian == Big
    {
      baseSize := base;
      position := 0;
      capacity := base;
      size := 0;
      endian := Big;
      blocks := [seq(base, _ => 0)];
      cur := 0;
      off, lag := 0, 0;
    }

    /**
     * Makes room for `n` more bytes after the position, with no more blocks than needed; the
     * bytes held stay, and a cursor at the very end moves to the first new block.
     */
    method AddCapacity(n: nat)
      requires Valid()
      modifies `capacity, `blocks, `cur, `off, `lag
      ensures Valid() && off == old(off)
      ensures old(capacity) - position >= n ==> capacity == old(capacity)
      ensures capacity - position >= n && old(capacity) <= capacity
      ensures capacity > old(capacity) ==> capacity - position < n + baseSize
      ensures old(Contents()) <= Contents()
      ensures n > 0 && old(capacity) == position ==> Coherent()
      ensures !(n > 0 && old(capacity) == position) ==> cur == old(cur) && lag == old(lag)
      ensures n > 0 ==> cur < |blocks|
    {
      NullOnlyAtEnd();
      var oldCap := capacity - position;
      if n == 0 || oldCap >= n {
        return;
      }
      var need := n - oldCap;
      var count := need / baseSize + if need % baseSize > 0 then 1 else 0;
      CeilDiv(need, baseSize);
      var first := |blocks|;
      Grow(count);
      if oldCap == 0 {
        cur := first;
        lag := 0;
      }
    }

    /** Links `count` new blocks behind the last one. */
    method Grow(count: nat)
      requires Shape()
      modifies `capacity, `blocks
      ensures Shape() && |blocks| == old(|blocks|) + count
      ensures capacity == old(capacity) + baseSize * count
      ensures old(Contents()) <= Contents()
    {
      ghost var first := |blocks|;
      for i := 0 to count
        invariant Shape() && |blocks| == first + i
        invariant capacity == old(capacity) + baseSize * i
        invariant old(Contents()) <= Contents()
      {
        assert baseSize * (i + 1) == baseSize * i + baseSize;
        assert baseSize * (first + i + 1) == baseSize * (first + i) + baseSize;
        var node := seq(baseSize, _ => 0);
        FlatConcat(blocks, [node]);
        blocks := blocks + [node];
        capacity := capacity + baseSize;
      }
    }

    /** memcpy of the next `n` bytes of `buf` to offset `npos` of the current block. */
    method CopyIn(npos: nat, buf: Bytes, bpos: nat, n: nat, ghost before: Bytes, ghost e: nat)
      requires Shape() && cur < |blocks| && npos + n <= baseSize
      requires bpos + n <= |buf| && e + |buf| <= |before| && Place(baseSize, cur, npos, e + bpos)
      requires Contents() == Overwrite(before, e, buf[..bpos])
      modifies `blocks, `position
      ensures Shape() && |blocks| == old(|blocks|) && position == old(position) + n
      ensures Contents() == Overwrite(before, e, buf[..bpos + n])
    {
      OverwriteMore(before, e, buf, bpos, n);
      PlaceIs(baseSize, cur, npos, e + bpos);
      FlatOverwrite(blocks, baseSize, cur, npos, buf[bpos..bpos + n]);
      blocks := blocks[cur := Overwrite(blocks[cur], npos, buf[bpos..bpos + n])];
      position := position + n;
    }

    /** m_cur = m_cur->next, when the bytes up to `e` go on beyond this block. */
    method NextBlock(ghost start: nat, ghost e: nat)
      requires Shape() && start == baseSize * cur && start + baseSize < e <= capacity
      modifies `cur
      ensures cur == old(cur) + 1 < |blocks| && start + baseSize == baseSize * cur
    {
      MulMonotone(baseSize, |blocks|, cur + 1);
      assert baseSize * (cur + 1) == baseSize * cur + baseSize;
      cur := cur + 1;
    }

    /** Fills the rest of the current block from `buf` and goes on to the next block. */
    method FillBlock(npos: nat, buf: Bytes, bpos: nat, n: nat, ghost before: Bytes, ghost e: nat)
      requires Shape() && cur < |blocks| && npos + n == baseSize
      requires bpos + n < |buf| && e + |buf| <= |before| == capacity && Place(baseSize, cur, npos, e + bpos)
      requires Contents() == Overwrite(before, e, buf[..bpos])
      modifies `blocks, `position, `cur
      ensures Shape() && cur < |blocks| && position == old(position) + n
      ensures Place(baseSize, cur, 0, e + bpos + n)
      ensures Contents() == Overwrite(before, e, buf[..bpos + n])
    {
      CopyIn(npos, buf, bpos, n, before, e);
      PlaceNext(baseSize, cur, npos, e + bpos, n);
      PlaceIn(blocks, baseSize, cur + 1, 0, e + bpos + n);
      cur := cur + 1;
    }

    /** The copying loop, from the cursor over as many blocks as `buf` takes; `x` is where it ends. */
    method WriteLoop(buf: Bytes, first: nat, ghost e: nat) returns (ghost x: nat)
      requires Shape() && buf != [] && cur < |blocks|
      requires first < baseSize && Place(baseSize, cur, first, e) && e + |buf| <= capacity
      modifies `position, `cur, `blocks
      ensures Shape() && cur < |blocks| && position == old(position) + |buf|
      ensures Place(baseSize, cur, x, e + |buf|) && 0 < x <= baseSize
      ensures Contents() == Overwrite(old(Contents()), e, buf)
    {
      var npos := first;
      var ncap := |blocks[cur]| - npos;
      var bpos := 0;
      var n := |buf|;
      ghost var before := Contents();
      assert Overwrite(before, e, buf[..0]) == before;
      assert buf[..|buf|] == buf;
      x := 0;
      while n > 0
        invariant Shape() && cur < |blocks|
        invariant 0 <= n <= |buf| && bpos == |buf| - n && position == old(position) + bpos
        invariant n > 0 ==> 0 <= npos < baseSize && ncap == baseSize - npos && Place(baseSize, cur, npos, e + bpos)
        invariant n == 0 ==> Place(baseSize, cur, x, e + |buf|) && 0 < x <= baseSize
        invariant Contents() == Overwrite(before, e, buf[..bpos])
        decreases n
      {
        if ncap >= n {
          CopyIn(npos, buf, bpos, n, before, e);
          PlaceWithin(baseSize, cur, npos, e + bpos, n);
          x := npos + n;
          bpos := bpos + n;
          n := 0;
          // the test `npos + size == m_cur->size` comes after `size = 0`, so it never holds
        } else {
          FillBlock(npos, buf, bpos, ncap, before, e);
          bpos := bpos + ncap;
          n := n - ncap;
          ncap := |blocks[cur]|;
          npos := 0;
        }
      }
    }

    /**
     * Overwrites at the cursor, growing the list when needed. From a coherent cursor (or at the
     * end of the capacity, where growing reseats it) that is overwrite-at-position. The last
     * chunk never moves `cur` on, so a write that ends on a block boundary leaves it one more
     * block behind; that matters exactly when capacity is left.
     */
    method Write(buf: Bytes)
      requires Valid()
      modifies this
      ensures Valid() && endian == old(endian)
      ensures position == old(position) + |buf| && capacity >= old(capacity)
      ensures size == if position > old(size) then position else old(size)
      ensures buf == [] ==> blocks == old(blocks) && capacity == old(capacity) && cur == old(cur) && lag == old(lag)
      ensures buf != [] ==> cur < |blocks| && old(Target()) + |buf| <= capacity
      ensures buf != [] ==>
                Contents() == Overwrite(old(Contents()) + Contents()[old(capacity)..], old(Target()), buf)
      ensures buf != [] ==> lag == (if old(position == capacity) then 0 else old(lag)) + (if off == 0 then 1 else 0)
      ensures capacity > old(capacity) ==> capacity - position < baseSize
      ensures buf != [] && old(Target() == position) ==>
                (Target() == position <==> !(position % baseSize == 0 && position < capacity))
    {
      if |buf| == 0 {
        return;
      }
      TargetAgrees();
      GrowAndWrite(buf);
      TargetAgrees();
    }

    /** A write of at least one byte. */
    method GrowAndWrite(buf: Bytes)
      requires Valid() && buf != []
      modifies this
      ensures Valid() && endian == old(endian)
      ensures position == old(position) + |buf| && capacity >= old(capacity)
      ensures size == if position > old(size) then position else old(size)
      ensures cur < |blocks| && old(Target()) + |buf| <= capacity
      ensures Contents() == Overwrite(old(Contents()) + Contents()[old(capacity)..], old(Target()), buf)
      ensures lag == (if old(position == capacity) then 0 else old(lag)) + (if off == 0 then 1 else 0)
      ensures capacity > old(capacity) ==> capacity - position < baseSize
    {
      MakeRoom(|buf|);
      OverwriteGrown(old(Contents()), Contents(), old(Target()), buf);
      WriteRoom(buf);
    }

    /** addCapacity before a write: the cursor ends up where the write goes. */
    method MakeRoom(n: nat)
      requires Valid() && n > 0
      modifies `capacity, `blocks, `cur, `off, `lag
      ensures Valid() && old(Contents()) <= Contents() && cur < |blocks|
      ensures position + n <= capacity && old(capacity) <= capacity
      ensures capacity > old(capacity) ==> capacity - position < n + baseSize
      ensures Cursor() == old(Target())
      ensures lag == if old(position == capacity) then 0 else old(lag)
    {
      AddCapacity(n);
      CursorBehind();
    }

    /** The write proper, once there is room. */
    method WriteRoom(buf: Bytes)
      requires Valid() && buf != [] && cur < |blocks| && position + |buf| <= capacity
      modifies `position, `cur, `blocks, `off, `lag, `size
      ensures Valid() && cur < |blocks|
      ensures position == old(position) + |buf|
      ensures size == if position > old(size) then position else old(size)
      ensures old(Cursor()) + |buf| <= capacity
      ensures Contents() == Overwrite(old(Contents()), old(Cursor()), buf)
      ensures lag == old(lag) + (if off == 0 then 1 else 0)
    {
      CursorBehind();
      ghost var e := Cursor();
      PlaceIs(baseSize, cur, off, e);
      ghost var x := WriteLoop(buf, position % baseSize, e);
      Settle(e + |buf|, x);
    }

    /** `if (m_position > m_size) m_size = m_position`, after a write that ended at `end`. */
    method Settle(ghost end: nat, ghost x: nat)
      requires Shape() && cur < |blocks| && Place(baseSize, cur, x, end) && 0 < x <= baseSize
      requires position == end + baseSize * lag && position <= capacity && size <= capacity
      modifies `off, `lag, `size
      ensures Valid()
      ensures size == if position > old(size) then position else old(size)
      ensures lag == old(lag) + if off == 0 then 1 else 0
    {
      if position > size {
        size := position;
      }
      PlaceIs(baseSize, cur, x, end);
      assert baseSize * (cur + lag) == baseSize * cur + baseSize * lag;
      assert baseSize * (cur + lag + 1) == baseSize * (cur + lag) + baseSize;
      if x == baseSize {
        off, lag := 0, lag + 1;
      } else {
        off := x;
      }
    }

    /** memcpy of `n` bytes at offset `npos` of block `k` behind the bytes already read. */
    method CopyOut(k: nat, npos: nat, n: nat, buf: Bytes, ghost e: nat) returns (r: Bytes)
      requires Shape() && k < |blocks| && npos + n <= baseSize && baseSize * k + npos == e + |buf|
      requires e + |buf| <= capacity && buf == Contents()[e..e + |buf|]
      ensures |r| == |buf| + n && e + |r| <= capacity && r == Contents()[e..e + |r|]
    {
      FlatSlice(blocks, baseSize, k, npos, n, e + |buf|);
      SliceJoin(Contents(), e, e + |buf|, e + |buf| + n);
      r := buf + blocks[k][npos..npos + n];
    }

    /** Reads the rest of the current block and goes on to the next, as far as `end` lies beyond. */
    method DrainBlock(npos: nat, n: nat, buf: Bytes, ghost e: nat, ghost end: nat) returns (r: Bytes)
      requires Shape() && cur < |blocks| && npos + n == baseSize && baseSize * cur + npos == e + |buf|
      requires e + |buf| + n < end <= capacity && buf == Contents()[e..e + |buf|]
      modifies `cur, `off
      ensures cur < |blocks| && off == 0 && baseSize * cur == e + |r|
      ensures |r| == |buf| + n && r == Contents()[e..e + |r|]
    {
      r := CopyOut(cur, npos, n, buf, e);
      NextBlock(e + |buf| - npos, end);
      off := 0;
    }

    /** The reading loop; unlike the writing loop it does move on after a block read to its end. */
    method ReadLoop(size: nat, first: nat) returns (buf: Bytes)
      requires Shape() && cur < |blocks| && first == off < baseSize && Cursor() + size <= capacity
      modifies `position, `cur, `off
      ensures cur <= |blocks| && off < baseSize && position == old(position) + size
      ensures Cursor() == old(Cursor()) + size
      ensures buf == Contents()[old(Cursor())..old(Cursor()) + size]
    {
      var n := size;
      var npos := first;
      var ncap := |blocks[cur]| - npos;
      ghost var e := Cursor();
      buf := [];
      assert Contents()[e..e] == [];
      while n > 0
        invariant 0 <= n <= size && |buf| == size - n && position == old(position) + |buf|
        invariant cur <= |blocks| && off < baseSize && baseSize * cur + off == e + |buf|
        invariant n > 0 ==> cur < |blocks| && npos == off && ncap == baseSize - npos
        invariant buf == Contents()[e..e + |buf|]
        decreases n
      {
        if ncap >= n {
          buf := CopyOut(cur, npos, n, buf, e);
          StepOver(npos + n);
          position := position + n;
          n := 0;
        } else {
          buf := DrainBlock(npos, ncap, buf, e, e + size);
          position := position + ncap;
          n := n - ncap;
          ncap := |blocks[cur]|;
          npos := 0;
        }
      }
    }

    /** `if (m_cur->size == npos + size) m_cur = m_cur->next`. */
    method StepOver(end: nat)
      requires Shape() && cur < |blocks| && end <= baseSize
      modifies `cur, `off
      ensures cur <= |blocks| && off < baseSize && baseSize * cur + off == old(baseSize * cur) + end
    {
      off := end;
      if |blocks[cur]| == end {
        assert baseSize * (cur + 1) == baseSize * cur + baseSize;
        cur := cur + 1;
        off := 0;
      }
    }

    /**
     * Reads at the cursor and moves on. Asking for more than is left throws; otherwise m_cur is
     * dereferenced even when nothing is asked for, which fails exactly when it is null.
     */
    method Read(n: nat) returns (r: ReadResult)
      requires Valid()
      modifies `position, `cur, `off
      ensures Valid()
      ensures n > size - old(position) ==> r == OutOfRange
      ensures n <= size - old(position) && old(cur) == |blocks| ==> r == NullDereference && n == 0
      ensures !r.Data? ==> position == old(position) && cur == old(cur)
      ensures n <= size - old(position) && old(cur) < |blocks| ==>
                && old(Cursor()) + n <= capacity
                && r == Data(Contents()[old(Cursor())..old(Cursor()) + n])
                && position == old(position) + n && Cursor() == old(Cursor()) + n
    {
      CursorBehind();
      NullOnlyAtEnd();
      if n > size - position {
        return OutOfRange;
      }
      if cur == |blocks| {
        return NullDereference;
      }
      var buf := ReadLoop(n, position % baseSize);
      CursorAhead();
      r := Data(buf);
    }

    lemma CursorAhead()
      ensures baseSize * (cur + lag) == baseSize * cur + baseSize * lag
    {}

    /** Moves to position `v`, which may lie anywhere in the capacity, and seats the cursor there. */
    method SetPosition(v: nat) returns (ok: bool)
      requires Valid()
      modifies `position, `size, `cur, `off, `lag
      ensures Valid()
      ensures ok <==> v <= capacity
      ensures !ok ==> position == old(position) && size == old(size) && cur == old(cur) && lag == old(lag)
      ensures ok ==> position == v && Coherent() && size == if v > old(size) then v else old(size)
    {
      if v > capacity {
        return false;
      }
      position := v;
      if position > size {
        size := position;
      }
      SeatCursor(v);
      ok := true;
    }

    method SeatCursor(v: nat)
      requires Shape() && v <= capacity
      modifies `cur, `off, `lag
      ensures cur <= |blocks| && off < baseSize && lag == 0 && v == baseSize * cur + off
    {
      var rest: nat := v;
      cur := 0;
      MulMonotone(baseSize, 1, |blocks|);
      while rest > |blocks[cur]|
        invariant cur < |blocks| && v == baseSize * cur + rest
        decreases rest
      {
        rest := rest - |blocks[cur]|;
        NextBlock(v - rest - baseSize, v);
      }
      if rest == |blocks[cur]| {
        assert baseSize * (cur + 1) == baseSize * cur + baseSize;
        cur := cur + 1;
        rest := 0;
      }
      off, lag := rest, 0;
    }

    /** Keeps only the first block. */
    method Clear()
      requires Valid()
      modifies this
      ensures Valid() && Coherent() && position == size == 0 && capacity == baseSize && endian == old(endian)
      ensures Contents() == old(Contents())[..baseSize]
    {
      FlatAround(blocks, baseSize, 0);
      FlatLength(blocks[..1], baseSize);
      assert blocks[..1] == [blocks[0]];
      position, size, capacity := 0, 0, baseSize;
      blocks := blocks[..1];
      cur, off, lag := 0, 0, 0;
    }

    /** The iovecs of `len` bytes from the current block on, as both buffer methods build them. */
    method CollectIovecs(len: nat, first: nat, ghost start: nat) returns (iovs: seq<Iovec>)
      requires Shape() && cur < |blocks| && Within(blocks, baseSize, cur, first, len, start)
      ensures iovs == Cover(baseSize, cur, first, len)
    {
      var n := len;
      var npos := first;
      var node := cur;
      var ncap := |blocks[node]| - npos;
      ghost var p: nat := start;
      iovs := [];
      while n > 0
        invariant 0 <= n <= len && 0 <= npos < baseSize && ncap == baseSize - npos
        invariant n > 0 ==> Within(blocks, baseSize, node, npos, n, p)
        invariant iovs + Cover(baseSize, node, npos, n) == Cover(baseSize, cur, first, len)
        decreases n
      {
        if ncap >= n {
          iovs := iovs + [Iovec(node, npos, n)];
          assert iovs + [] == iovs;
          n := 0;
        } else {
          WithinNext(blocks, baseSize, node, npos, n, p, ncap);
          p := p + ncap;
          PlaceIn(blocks, baseSize, node + 1, 0, p);
          AppendCover(iovs, baseSize, node, npos, n, ncap);
          iovs := iovs + [Iovec(node, npos, ncap)];
          n := n - ncap;
          node := node + 1;
          ncap := |blocks[node]|;
          npos := 0;
        }
      }
    }

    lemma UnreadCover(n: nat)
      requires Valid() && n <= size - position
      ensures Cursor() + n <= capacity
      ensures var iovs := Cover(baseSize, cur, off, n);
              && IovecsFit(iovs, blocks) && TotalLength(iovs) == n
              && Gather(iovs, blocks) == Contents()[Cursor()..Cursor() + n]
    {
      CursorBehind();
      FlatLength(blocks, baseSize);
      assert Cursor() + n <= capacity;
      PlaceIs(baseSize, cur, off, Cursor());
      CoverFits(blocks, baseSize, cur, off, n, Cursor());
      CoverGathers(blocks, baseSize, cur, off, n, Cursor(), Cursor() + n);
    }

    /** The unread bytes, at most `len` of them, as iovecs. */
    method GetReadBuffers(len: nat) returns (n: nat, iovs: seq<Iovec>)
      requires Valid()
      ensures n == if len > size - position then size - position else len
      ensures IovecsFit(iovs, blocks) && TotalLength(iovs) == n && Cursor() + n <= capacity
      ensures Gather(iovs, blocks) == Contents()[Cursor()..Cursor() + n]
    {
      CursorBehind();
      NullOnlyAtEnd();
      n := if len > size - position then size - position else len;
      UnreadCover(n);
      if n == 0 {
        return n, [];
      }
      PlaceIs(baseSize, cur, off, Cursor());
      iovs := CollectIovecs(n, position % baseSize, Cursor());
    }

    /**
     * Room for `len` bytes as iovecs: whatever part of them is filled, the flat buffer is
     * overwritten from the write target on.
     */
    method GetWriteBuffers(len: nat) returns (iovs: seq<Iovec>)
      requires Valid()
      modifies `capacity, `blocks, `cur, `off, `lag
      ensures Valid() && off == old(off) && old(Contents()) <= Contents()
      ensures capacity - position >= len
      ensures len > 0 ==> Cursor() == old(Target()) && Cursor() + len <= capacity
      ensures IovecsFit(iovs, blocks) && TotalLength(iovs) == len
      ensures forall d: Bytes :: |d| <= len && len > 0 ==>
                var r := Scatter(iovs, blocks, d);
                Uniform(r, baseSize) && |r| == |blocks| && Flat(r) == Overwrite(Contents(), Cursor(), d)
    {
      if len == 0 {
        return [];
      }
      AddCapacity(len);
      CursorBehind();
      PlaceIs(baseSize, cur, off, Cursor());
      iovs := CollectIovecs(len, position % baseSize, Cursor());
      CoverFits(blocks, baseSize, cur, off, len, Cursor());
      forall d: Bytes | |d| <= len
        ensures var r := Scatter(iovs, blocks, d);
                Uniform(r, baseSize) && |r| == |blocks| && Flat(r) == Overwrite(Contents(), Cursor(), d)
      {
        var r := CoverScatters(blocks, baseSize, cur, off, len, d, Cursor());
        FilledIs(r, blocks, baseSize, Cursor(), d);
      }
    }

    /**
     * The const positional read. The range test is in unsigned arithmetic, so a position beyond
     * the size passes it; the bytes come from the current block, whatever block `pos` is in; and
     * running off the list is a null dereference.
     */
    method ReadAt(n: nat, pos: nat) returns (r: ReadResult)
      requires Valid()
      ensures r == PositionalRead(blocks, size, cur, PositionalStart(baseSize, cur, pos), n, pos)
    {
      FlatLength(blocks, baseSize);
      if pos <= size && n > size - pos {
        return OutOfRange;
      }
      if cur == |blocks| {
        return NullDereference;
      }
      r := ReadFrom(n, pos % baseSize);
    }

    method ReadFrom(size: nat, first: nat) returns (r: ReadResult)
      requires Shape() && cur < |blocks| && first < baseSize
      ensures var e := baseSize * cur + first;
              if size > 0 && e + size > capacity then r == NullDereference
              else r == if size == 0 then Data([]) else Data(Contents()[e..e + size])
    {
      ghost var e := baseSize * cur + first;
      var node := cur;
      var npos := first;
      var ncap := |blocks[node]| - npos;
      var n := size;
      var buf: Bytes := [];
      BlockEnd(node);
      assert Contents()[e..e] == [];
      while n > 0
        invariant 0 <= n <= size && |buf| == size - n
        invariant e + |buf| <= capacity && buf == Contents()[e..e + |buf|]
        invariant n > 0 ==> node < |blocks| && 0 <= npos < baseSize && ncap == baseSize - npos
        invariant n > 0 ==> baseSize * node + npos == e + |buf|
        decreases n
      {
        if ncap >= n {
          buf := CopyOut(node, npos, n, buf, e);
          n := 0;
        } else {
          BlockEnd(node);
          buf := CopyOut(node, npos, ncap, buf, e);
          n := n - ncap;
          node := node + 1;
          if node == |blocks| {
            return NullDereference;
          }
          ncap := |blocks[node]|;
          npos := 0;
        }
      }
      r := Data(buf);
    }

    lemma BlockEnd(k: nat)
      requires Shape() && k < |blocks|
      ensures baseSize * (k + 1) == baseSize * k + baseSize <= capacity
    {
      MulMonotone(baseSize, k + 1, |blocks|);
      assert baseSize * (k + 1) == baseSize * k + baseSize;
    }

    lemma StartsAtCursor()
      requires Valid()
      ensures PositionalStart(baseSize, cur, position) == Cursor() && |Flat(blocks)| == capacity
    {
      CursorBehind();
      FlatLength(blocks, baseSize);
    }

    /** All unread bytes; this is the one use of the positional read, at the position itself. */
    method ToString() returns (r: ReadResult)
      requires Valid()
      ensures Cursor() + size - position <= capacity
      ensures r == Data(Contents()[Cursor()..Cursor() + size - position])
    {
      if size == position {
        NothingLeft();
        return Data([]);
      }
      RestIsData(size - position);
      r := ReadAt(size - position, position);
    }

    /** The positional read at the position gives the rest of the data. */
    lemma RestIsData(n: nat)
      requires Valid() && 0 < n == size - position
      ensures Cursor() + n <= capacity && cur < |blocks|
      ensures PositionalRead(blocks, size, cur, PositionalStart(baseSize, cur, position), n, position) ==
              Data(Contents()[Cursor()..Cursor() + n])
    {
      StartsAtCursor();
      CursorBehind();
      NullOnlyAtEnd();
    }

    lemma NothingLeft()
      requires Valid()
      ensures Cursor() <= capacity && Contents()[Cursor()..Cursor()] == []
    {
      CursorBehind();
    }
  }

  // ---------------------------------------------------------------- positional reads that go wrong

  /** In a fresh array of four bytes, a read at position 2 returns a byte that was never written. */
  method NeverWritten() returns (r: ReadResult)
    ensures r.Data? && |r.bytes| == 1
  {
    var ba := new ByteArray(4);
    FlatLength(ba.blocks, 4);
    r := ba.ReadAt(1, 2);
  }

  /** With all blocks drained, a read of nothing at the position dereferences null. */
  method DrainedRead() returns (r: ReadResult)
    ensures r == NullDereference
  {
    var ba := new ByteArray(2);
    var ok := ba.SetPosition(2);
    ba.CursorBehind();
    assert ba.cur == 1 == |ba.blocks|;
    r := ba.ReadAt(0, 2);
  }
}
