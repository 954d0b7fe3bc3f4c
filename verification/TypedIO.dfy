/** The typed read and write methods of ByteArray (src/socket/bytearray.cpp). */
module TypedIO {
  import opened Basics
  import opened Codec
  import opened Blocks
  import opened ByteArray

  // ---------------------------------------------------------------- appending

  /** The bytes up to m_size. */
  ghost function Stored(ba: ByteArray): (s: Bytes)
    reads ba
    requires ba.Valid()
    ensures |s| == ba.size
  {
    ba.Contents()[..ba.size]
  }

  /** A write position behind all data with less than a block of room left, or a fresh array. */
  ghost predicate Appending(ba: ByteArray)
    reads ba
  {
    && ba.position == ba.size
    && (ba.position == ba.capacity ||
        (ba.Coherent() && (ba.size == 0 || ba.capacity - ba.size < ba.baseSize) && ba.capacity - ba.size <= ba.baseSize))
  }

  lemma MultipleBelow(base: nat, a: nat, b: nat, gap: nat)
    requires base > 0 && base * a + gap == base * b && gap < base
    ensures gap == 0
  {
    assert base * (b - a) == gap;
    SmallMultiple(base, b - a);
  }

  /** From such a state a write appends, and leads to such a state again. */
  method Append(ba: ByteArray, buf: Bytes)
    requires ba.Valid() && Appending(ba)
    modifies ba
    ensures ba.Valid() && Appending(ba) && ba.endian == old(ba.endian)
    ensures Stored(ba) == old(Stored(ba)) + buf
  {
    ghost var target, cap := ba.Target(), ba.capacity;
    ba.CursorBehind();
    assert target == ba.position;
    ghost var before := ba.Contents();
    ba.Write(buf);
    if buf != [] {
      ghost var after := ba.Contents();
      AppendIs(before, after, target, buf);
      ba.CursorBehind();
      if ba.off == 0 {
        MultipleBelow(ba.baseSize, ba.cur + ba.lag, |ba.blocks|, ba.capacity - ba.position);
      }
    }
  }

  lemma AppendIs(before: Bytes, after: Bytes, p: nat, d: Bytes)
    requires p <= |before| <= |after| && p + |d| <= |after|
    requires after == Overwrite(before + after[|before|..], p, d)
    ensures after[..p + |d|] == before[..p] + d
  {}

  // ---------------------------------------------------------------- typed writes

  /** The encoding loop of writeUint32 and writeUint64. */
  method EncodeVarint(v: nat) returns (tmp: Bytes)
    ensures tmp == Varint(v)
  {
    var value := v;
    tmp := [];
    while value >= 0x80
      invariant tmp + Varint(value) == Varint(v)
    {
      assert Varint(value) == [value % 0x80 + 0x80] + Varint(value / 0x80);
      tmp := tmp + [value % 0x80 + 0x80];
      value := value / 0x80;
    }
    tmp := tmp + [value];
  }

  method PutItem(host: Endian, ba: ByteArray, x: Item)
    requires ba.Valid() && Appending(ba) && WellTyped(x)
    modifies ba
    ensures ba.Valid() && Appending(ba) && ba.endian == old(ba.endian)
    ensures Stored(ba) == old(Stored(ba)) + Put(host, ba.endian, x)
  {
    match x
    case Unsigned(w, u) =>
      Append(ba, PutFixed(host, ba.endian, w, u));
    case Signed(w, i) =>
      Append(ba, PutFixed(host, ba.endian, w, ToUnsigned(w, i)));
    case VarUnsigned(w, u) =>
      var tmp := EncodeVarint(u);
      Append(ba, tmp);
    case VarSigned(w, i) =>
      var tmp := EncodeVarint(ToUnsigned(w, EncodeZigzag(w, i)));
      Append(ba, tmp);
    case Text(h, s) =>
      AppendTwo(ba, PutHeader(host, ba.endian, h, |s|), s);
  }

  method AppendTwo(ba: ByteArray, a: Bytes, b: Bytes)
    requires ba.Valid() && Appending(ba)
    modifies ba
    ensures ba.Valid() && Appending(ba) && ba.endian == old(ba.endian)
    ensures Stored(ba) == old(Stored(ba)) + (a + b)
  {
    ghost var start := Stored(ba);
    Append(ba, a);
    Append(ba, b);
    assert start + a + b == start + (a + b);
  }

  // ---------------------------------------------------------------- typed reads

  /** The bytes between position and m_size. */
  ghost function Unread(ba: ByteArray): (s: Bytes)
    reads ba
    requires ba.Valid()
    ensures |s| == ba.size - ba.position
  {
    ba.Contents()[ba.position..ba.size]
  }

  datatype Reading<T> = Got(value: T) | Threw | Crashed

  lemma SliceParts(s: Bytes, p: nat, end: nat, n: nat)
    requires p <= end <= |s|
    ensures n <= end - p ==> s[p..p + n] == s[p..end][..n] && s[p + n..end] == s[p..end][n..]
  {
  }

  /** A non-empty read from a coherent cursor takes the next bytes or throws. */
  method Take(ba: ByteArray, n: nat) returns (r: Reading<Bytes>)
    requires ba.Valid() && ba.Coherent()
    modifies ba`position, ba`cur, ba`off
    ensures ba.Valid()
    ensures n > |old(Unread(ba))| ==> r == Threw && ba.position == old(ba.position)
    ensures n <= |old(Unread(ba))| ==>
              if n == 0 && old(ba.cur) == |ba.blocks| then r == Crashed && ba.position == old(ba.position)
              else r == Got(old(Unread(ba))[..n]) && ba.position == old(ba.position) + n
                   && Unread(ba) == old(Unread(ba))[n..]
  {
    ba.CursorBehind();
    ba.NullOnlyAtEnd();
    SliceParts(ba.Contents(), ba.position, ba.size, n);
    var x := ba.Read(n);
    match x
    case Data(bytes) => r := Got(bytes);
    case OutOfRange => r := Threw;
    case NullDereference => r := Crashed;
  }

  /** readFuintN. */
  method TakeFixed(host: Endian, ba: ByteArray, w: Width) returns (r: Reading<nat>)
    requires ba.Valid() && ba.Coherent()
    modifies ba`position, ba`cur, ba`off
    ensures ba.Valid()
    ensures match GetFixedAt(host, ba.endian, w, old(Unread(ba)))
            case None => r == Threw
            case Some((v, n)) => r == Got(v) && Unread(ba) == old(Unread(ba))[n..] && n <= |old(Unread(ba))|
  {
    var b := Take(ba, w.Size());
    if b.Got? {
      r := Got(GetFixed(host, ba.endian, w, b.value));
    } else {
      r := Threw;
    }
  }

  /** The loop on `s` decides the outcome `total`, once `consumed` bytes are counted in; folded like Place. */
  ghost predicate Deciding(total: Option<(nat, nat)>, s: Bytes, k: nat, p: nat, r: nat, m: nat, consumed: nat)
    requires m > 0
  {
    match total
    case None => forall x {:trigger Unfold(x)} :: Unfold(x) ==> Unvarint(s, k, p, r, m) == None
    case Some((v, n)) =>
      forall x {:trigger Unfold(x)} :: Unfold(x) ==> consumed <= n && Unvarint(s, k, p, r, m) == Some((v, n - consumed))
  }

  /** One byte more: what it makes of the result and the place; folded likewise. */
  ghost predicate Added(byte: Byte, p: nat, r: nat, m: nat, p': nat, r': nat)
    requires m > 0
  {
    forall x {:trigger Unfold(x)} :: Unfold(x) ==> r' == VarintStep(r, byte, p, m) && p' == p * 0x80
  }

  lemma OutcomeEnd(total: Option<(nat, nat)>, s: Bytes, k: nat, p: nat, r: nat, m: nat, consumed: nat)
    requires m > 0 && Deciding(total, s, k, p, r, m, consumed)
    ensures k == 0 ==> total == Some((r, consumed))
    ensures k > 0 && s == [] ==> total == None
  {
    assert Unfold(0);
  }

  lemma OutcomeStep(total: Option<(nat, nat)>, s: Bytes, k: nat, p: nat, r: nat, m: nat, consumed: nat, p': nat, r': nat)
    requires m > 0 && Deciding(total, s, k, p, r, m, consumed)
    requires k > 0 && s != [] && Added(s[0], p, r, m, p', r')
    ensures s[0] < 0x80 ==> total == Some((r', consumed + 1))
    ensures s[0] >= 0x80 ==> Deciding(total, s[1..], k - 1, p', r', m, consumed + 1)
  {
    assert Unfold(0);
  }

  /** `result |= (b & 0x7f) << i`, and `i += 7`. */
  method AddSeven(byte: Byte, place: nat, result: nat, m: nat) returns (p: nat, r: nat)
    requires m > 0
    ensures Added(byte, place, result, m, p, r)
  {
    p, r := place * 0x80, VarintStep(result, byte, place, m);
  }

  /** readFuint8. */
  method TakeByte(ba: ByteArray) returns (r: Reading<Byte>)
    requires ba.Valid() && ba.Coherent()
    modifies ba`position, ba`cur, ba`off
    ensures ba.Valid()
    ensures if old(Unread(ba)) == [] then r == Threw
            else r == Got(old(Unread(ba))[0]) && Unread(ba) == old(Unread(ba))[1..]
  {
    var b := Take(ba, 1);
    r := if b.Got? then Got(b.value[0]) else Threw;
  }

  /** One round of the decoding loop. */
  method TakeSeven(ba: ByteArray, place: nat, result: nat, m: nat,
                   ghost k: nat, ghost total: Option<(nat, nat)>, ghost rest: Bytes, ghost consumed: nat)
    returns (b: Reading<Byte>, p: nat, r: nat)
    requires ba.Valid() && ba.Coherent() && Unread(ba) == rest
    requires m > 0 && k > 0 && Deciding(total, rest, k, place, result, m, consumed)
    modifies ba`position, ba`cur, ba`off
    ensures ba.Valid()
    ensures !b.Got? ==> b == Threw && total == None
    ensures b.Got? ==> rest != [] && Unread(ba) == rest[1..]
    ensures b.Got? && b.value < 0x80 ==> total == Some((r, consumed + 1))
    ensures b.Got? && b.value >= 0x80 ==> Deciding(total, rest[1..], k - 1, p, r, m, consumed + 1)
  {
    OutcomeEnd(total, rest, k, place, result, m, consumed);
    b := TakeByte(ba);
    p, r := place, result;
    if b.Got? {
      p, r := AddSeven(b.value, place, result, m);
      OutcomeStep(total, rest, k, place, result, m, consumed, p, r);
    }
  }

  /** The decoding loop: byte by byte until one is below 0x80 or all `shifts` are used. */
  method TakeSevens(ba: ByteArray, shifts: nat, m: nat, ghost total: Option<(nat, nat)>) returns (r: Reading<nat>)
    requires ba.Valid() && ba.Coherent() && m > 0 && Deciding(total, Unread(ba), shifts, 1, 0, m, 0)
    modifies ba`position, ba`cur, ba`off
    ensures ba.Valid()
    ensures match total
            case None => r == Threw
            case Some((v, n)) => r == Got(v) && n <= |old(Unread(ba))| && Unread(ba) == old(Unread(ba))[n..]
  {
    ghost var all := Unread(ba);
    var result: nat, place: nat, k := 0, 1, shifts;
    ghost var consumed, rest := 0, all;
    while k > 0
      invariant ba.Valid() && ba.Coherent()
      invariant consumed <= |all| && Unread(ba) == rest == all[consumed..]
      invariant Deciding(total, rest, k, place, result, m, consumed)
      decreases k
    {
      assert rest != [] ==> rest[1..] == all[consumed + 1..];
      var b, p, v := TakeSeven(ba, place, result, m, k, total, rest, consumed);
      if !b.Got? {
        return Threw;
      }
      place, result := p, v;
      consumed, rest := consumed + 1, rest[1..];
      if b.value < 0x80 {
        return Got(result);
      }
      k := k - 1;
    }
    OutcomeEnd(total, rest, k, place, result, m, consumed);
    r := Got(result);
  }

  /** readUint32 and readUint64. */
  method TakeVarint(ba: ByteArray, w: Width) returns (r: Reading<nat>)
    requires ba.Valid() && ba.Coherent()
    modifies ba`position, ba`cur, ba`off
    ensures ba.Valid()
    ensures match ReadVarint(w, old(Unread(ba)))
            case None => r == Threw
            case Some((v, n)) => r == Got(v) && n <= |old(Unread(ba))| && Unread(ba) == old(Unread(ba))[n..]
  {
    r := TakeSevens(ba, MaxVarint(w), w.Modulus(), ReadVarint(w, Unread(ba)));
  }

  method TakeNumber(host: Endian, ba: ByteArray, h: Header) returns (r: Reading<nat>)
    requires ba.Valid() && ba.Coherent()
    modifies ba`position, ba`cur, ba`off
    ensures ba.Valid()
    ensures match GetNumber(host, ba.endian, h, old(Unread(ba)))
            case None => r == Threw
            case Some((v, n)) => r == Got(v) && n <= |old(Unread(ba))| && Unread(ba) == old(Unread(ba))[n..]
  {
    if h == LenVarint {
      r := TakeVarint(ba, W64);
    } else {
      r := TakeFixed(host, ba, HeaderWidth(h));
    }
  }

  /** The bytes of a string whose header took the first `n` of the unread bytes `s`. */
  method TakeBody(ba: ByteArray, h: Header, len: nat, ghost s: Bytes, ghost n: nat) returns (r: Reading<Item>)
    requires ba.Valid() && ba.Coherent() && n <= |s| && Unread(ba) == s[n..]
    modifies ba`position, ba`cur, ba`off
    ensures ba.Valid()
    ensures |s| < n + len ==> r == Threw
    ensures |s| >= n + len ==>
              if len == 0 && old(ba.position) == ba.capacity then r == Crashed
              else r == Got(Text(h, s[n..n + len])) && Unread(ba) == s[n + len..]
  {
    ba.NullOnlyAtEnd();
    assert |s| >= n + len ==> s[n..][..len] == s[n..n + len] && s[n..][len..] == s[n + len..];
    var b := Take(ba, len);
    match b
    case Got(bytes) => r := Got(Text(h, bytes));
    case Threw => r := Threw;
    case Crashed => r := Crashed;
  }

  /** A string's header and then its bytes, even when there are none. */
  method TakeText(host: Endian, ba: ByteArray, h: Header) returns (r: Reading<Item>)
    requires ba.Valid() && ba.Coherent()
    modifies ba`position, ba`cur, ba`off
    ensures ba.Valid()
    ensures TextOutcome(h, GetNumber(host, ba.endian, h, old(Unread(ba))), old(Unread(ba)),
                        r, Unread(ba), ba.capacity - old(ba.position))
  {
    ghost var s := Unread(ba);
    ghost var number := GetNumber(host, ba.endian, h, s);
    ghost var room := ba.capacity - ba.position;
    var len := TakeNumber(host, ba, h);
    r := TakeRest(ba, h, len, s, number, room);
  }

  /** The bytes, once the header has been read or has thrown. */
  method TakeRest(ba: ByteArray, h: Header, len: Reading<nat>, ghost s: Bytes, ghost number: Option<(nat, nat)>, ghost room: int)
    returns (r: Reading<Item>)
    requires ba.Valid() && ba.Coherent()
    requires match number
             case None => len == Threw
             case Some((v, n)) => len == Got(v) && n <= |s| && Unread(ba) == s[n..] && room == ba.capacity - ba.position + n
    modifies ba`position, ba`cur, ba`off
    ensures ba.Valid()
    ensures TextOutcome(h, number, s, r, Unread(ba), room)
  {
    if !len.Got? {
      return Threw;
    }
    r := TakeBody(ba, h, len.value, s, number.value.1);
  }

  /** What reading a string makes of the unread bytes `s`, with `room` bytes up to the capacity. */
  ghost predicate TextOutcome(h: Header, number: Option<(nat, nat)>, s: Bytes,
                              r: Reading<Item>, rest: Bytes, room: int)
  {
    match number
    case None => r == Threw
    case Some((len, n)) =>
      if |s| < n + len then r == Threw
      else if len == 0 && n == room then r == Crashed
      else r == Got(Text(h, s[n..n + len])) && rest == s[n + len..]
  }

  /**
   * What a read method makes of the unread bytes `s`, when `parsed` is the value at their head:
   * the value, or an exception, or a null dereference on an empty string at the capacity.
   */
  ghost predicate Outcome(parsed: Option<(Item, nat)>, s: Bytes, r: Reading<Item>, rest: Bytes, room: int) {
    match parsed
    case None => r == Threw
    case Some((x, n)) =>
      && n <= |s|
      && if x.Text? && x.s == [] && n == room then r == Crashed else r == Got(x) && rest == s[n..]
  }

  lemma TextOutcomeIs(h: Header, number: Option<(nat, nat)>, s: Bytes, r: Reading<Item>, rest: Bytes, room: int)
    requires TextOutcome(h, number, s, r, rest, room)
    ensures Outcome(GetText(h, number, s), s, r, rest, room)
  {}

  /** The read method for a kind. */
  method GetItem(host: Endian, ba: ByteArray, k: Kind) returns (r: Reading<Item>)
    requires ba.Valid() && ba.Coherent()
    modifies ba`position, ba`cur, ba`off
    ensures ba.Valid()
    ensures Outcome(Get(host, ba.endian, k, old(Unread(ba))), old(Unread(ba)), r, Unread(ba),
                    ba.capacity - old(ba.position))
  {
    ghost var s, room := Unread(ba), ba.capacity - ba.position;
    match k
    case KUnsigned(w) =>
      var v := TakeFixed(host, ba, w);
      r := if v.Got? then Got(Unsigned(w, v.value)) else Threw;
    case KSigned(w) =>
      var v := TakeFixed(host, ba, w);
      r := if v.Got? then Got(Signed(w, ToSigned(w, v.value))) else Threw;
    case KVarUnsigned(w) =>
      var v := TakeVarint(ba, w);
      r := if v.Got? then Got(VarUnsigned(w, v.value)) else Threw;
    case KVarSigned(w) =>
      var v := TakeVarint(ba, w);
      r := if v.Got? then Got(VarSigned(w, ToSigned(w, DecodeZigzag(w, v.value)))) else Threw;
    case KText(h) =>
      r := TakeText(host, ba, h);
      TextOutcomeIs(h, GetNumber(host, ba.endian, h, s), s, r, Unread(ba), room);
  }

  // ---------------------------------------------------------------- round trip

  function Putter(host: Endian, endian: Endian): Item -> Bytes {
    x => Put(host, endian, x)
  }

  /** The wire form of a list of values. */
  function PutAll(host: Endian, endian: Endian, items: seq<Item>): Bytes {
    FlatMap(Putter(host, endian), items)
  }

  method WriteAll(host: Endian, ba: ByteArray, items: seq<Item>)
    requires ba.Valid() && Appending(ba) && ba.size == 0
    requires forall i :: 0 <= i < |items| ==> WellTyped(items[i])
    modifies ba
    ensures ba.Valid() && Appending(ba) && ba.endian == old(ba.endian)
    ensures Stored(ba) == PutAll(host, ba.endian, items)
  {
    for i := 0 to |items|
      invariant ba.Valid() && Appending(ba) && ba.endian == old(ba.endian)
      invariant Stored(ba) == PutAll(host, ba.endian, items[..i])
    {
      PutItem(host, ba, items[i]);
      FlatMapConcat(Putter(host, ba.endian), items[..i], [items[i]]);
      FlatMapOne(Putter(host, ba.endian), items[i]);
      assert items[..i + 1] == items[..i] + [items[i]];
    }
    assert items[..|items|] == items;
  }

  /** The reading back hits the null cursor: the last value is an empty string that ends a block. */
  predicate EndsOnEmptyText(host: Endian, endian: Endian, items: seq<Item>, base: nat)
    requires base > 0
  {
    && items != [] && EmptyText(items[|items| - 1])
    && |PutAll(host, endian, items)| % base == 0
  }

  /** Reading the tail of a list whose wire form is what is unread. */
  lemma NextItem(host: Endian, endian: Endian, items: seq<Item>, i: nat)
    requires i < |items| && WellTyped(items[i]) && Fits(items[i])
    ensures var s := PutAll(host, endian, items[i..]);
            var p := Put(host, endian, items[i]);
            && 1 <= |p| <= |s| && s[|p|..] == PutAll(host, endian, items[i + 1..])
            && Get(host, endian, KindOf(items[i]), s) == Some((items[i], |p|))
  {
    var rest := PutAll(host, endian, items[i + 1..]);
    var p := Put(host, endian, items[i]);
    assert items[i..][1..] == items[i + 1..] && items[i..][0] == items[i];
    assert PutAll(host, endian, items[i..]) == p + rest;
    ItemRoundTrip(host, endian, items[i], rest);
  }

  /** The next value, or a null dereference on an empty string at the very end of a full array. */
  method ReadNext(host: Endian, ba: ByteArray, items: seq<Item>, i: nat) returns (r: Reading<Item>)
    requires ba.Valid() && ba.Coherent() && i < |items|
    requires forall j :: 0 <= j < |items| ==> WellTyped(items[j]) && Fits(items[j])
    requires Unread(ba) == PutAll(host, ba.endian, items[i..])
    modifies ba`position, ba`cur, ba`off
    ensures ba.Valid()
    ensures if EmptyText(items[i]) && i == |items| - 1 && ba.size == ba.capacity then r == Crashed
            else r == Got(items[i]) && Unread(ba) == PutAll(host, ba.endian, items[i + 1..])
  {
    NextItem(host, ba.endian, items, i);
    LastByte(host, ba.endian, items, i);
    r := GetItem(host, ba, KindOf(items[i]));
  }

  predicate EmptyText(x: Item) {
    x.Text? && x.s == []
  }

  /** Reads values of the given items' kinds one after the other. */
  method ReadAll(host: Endian, ba: ByteArray, items: seq<Item>) returns (r: Reading<seq<Item>>)
    requires ba.Valid() && ba.Coherent()
    requires forall i :: 0 <= i < |items| ==> WellTyped(items[i]) && Fits(items[i])
    requires Unread(ba) == PutAll(host, ba.endian, items)
    modifies ba`position, ba`cur, ba`off
    ensures ba.Valid()
    ensures if items != [] && EmptyText(items[|items| - 1]) && ba.size == ba.capacity
            then r == Crashed
            else r == Got(items) && ba.position == ba.size
  {
    var out: seq<Item> := [];
    assert items[0..] == items && items[..|items|] == items && PutAll(host, ba.endian, items[|items|..]) == [];
    for i := 0 to |items|
      invariant ba.Valid() && ba.Coherent() && out == items[..i]
      invariant Unread(ba) == PutAll(host, ba.endian, items[i..])
      invariant i > 0 && i == |items| ==> !(EmptyText(items[|items| - 1]) && ba.size == ba.capacity)
    {
      var x := ReadNext(host, ba, items, i);
      if x.Crashed? {
        return Crashed;
      }
      assert items[..i] + [items[i]] == items[..i + 1];
      out := out + [x.value];
    }
    r := Got(out);
  }

  /** Only the last item ends where the data ends. */
  lemma LastByte(host: Endian, endian: Endian, items: seq<Item>, i: nat)
    requires i < |items| && (forall j :: 0 <= j < |items| ==> WellTyped(items[j]) && Fits(items[j]))
    ensures PutAll(host, endian, items[i + 1..]) == [] <==> i == |items| - 1
  {
    if i + 1 < |items| {
      NextItem(host, endian, items, i + 1);
    }
  }

  /**
   * Typed round trip: writing any list of values to a fresh array of any block size, in either
   * byte order, calling setPosition(0) and reading by the same types returns the same list and
   * leaves nothing unread, except when the last value is an empty string that ends a block:
   * then the cursor is null and the zero-length read dereferences it.
   */
  method RoundTrip(host: Endian, endian: Endian, base: nat, items: seq<Item>) returns (r: Reading<seq<Item>>, left: nat)
    requires base > 0
    requires forall i :: 0 <= i < |items| ==> WellTyped(items[i]) && Fits(items[i])
    ensures r == Got(items) <==> !EndsOnEmptyText(host, endian, items, base)
    ensures r == if EndsOnEmptyText(host, endian, items, base) then Crashed else Got(items)
    ensures r.Got? ==> left == 0
  {
    var ba := new ByteArray(base);
    ba.endian := endian;
    WriteAll(host, ba, items);
    if items != [] {
      NextItem(host, endian, items, 0);
      assert items[0..] == items;
      FullCapacity(ba);
    }
    var ok := ba.SetPosition(0);
    r := ReadAll(host, ba, items);
    left := ba.size - ba.position;
  }

  /** After writing, the data fill the capacity exactly when they end a block. */
  lemma FullCapacity(ba: ByteArray)
    requires ba.Valid() && Appending(ba) && ba.size > 0
    ensures ba.size == ba.capacity <==> ba.size % ba.baseSize == 0
  {
    var base, k, n := ba.baseSize, |ba.blocks|, ba.size;
    DivModUnique(ba.capacity, base, k, 0);
    if n % base == 0 {
      MultipleBelow(base, n / base, k, ba.capacity - n);
    }
  }

  lemma EmptyTextWire(host: Endian, endian: Endian)
    ensures EndsOnEmptyText(host, endian, [Text(Len16, [])], 2)
  {
    var items := [Text(Len16, [])];
    FlatMapOne(Putter(host, endian), items[0]);
    TwoBytes(host, endian);
    assert PutAll(host, endian, items) == Put(host, endian, items[0]);
  }

  lemma TwoBytes(host: Endian, endian: Endian)
    ensures |Put(host, endian, Text(Len16, []))| == 2
  {
    FixedRoundTrip(host, host, endian, W16, 0);
    assert PutHeader(host, endian, Len16, 0) == PutFixed(host, endian, W16, 0);
  }

  /** An empty string with a two-byte header in blocks of two bytes: reading it back crashes. */
  method EmptyTextAtBlockEnd(host: Endian, endian: Endian) returns (r: Reading<seq<Item>>)
    ensures r == Crashed
  {
    var items := [Text(Len16, [])];
    EmptyTextWire(host, endian);
    var left;
    r, left := RoundTrip(host, endian, 2, items);
  }
}
