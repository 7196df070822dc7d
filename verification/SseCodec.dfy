/**
 * The binary codec between Dart and Rust. A decoder returns the value and the bytes it leaves;
 * `None` stands for the panics of the generated code (short input, bad tag, bad UTF-8).
 */
module SseCodec {
  import opened Prelude
  import opened Endian

  /** `ok` says which values the encoder can carry. */
  datatype Codec<!T> = Codec(enc: T -> Bytes, dec: Bytes -> Option<(T, Bytes)>, ok: T -> bool)

  /** What was encoded is decoded, and exactly the bytes after it are left. */
  ghost predicate Exact<T(!new)>(c: Codec<T>) {
    forall x, rest :: c.ok(x) ==> Decodes(c, x, rest)
  }

  ghost predicate Decodes<T>(c: Codec<T>, x: T, rest: Bytes) {
    c.dec(c.enc(x) + rest) == Some((x, rest))
  }

  /** The byte order of the machine, and which byte strings are UTF-8. */
  datatype Platform = Platform(little: bool, utf8: Bytes -> bool)

  /** A Rust string, as its UTF-8 bytes. */
  type Utf8 = Bytes

  // ---- Numbers ----

  function Reverse(b: Bytes): (r: Bytes)
    ensures |r| == |b|
  {
    if b == [] then [] else Reverse(b[1..]) + [b[0]]
  }

  lemma {:induction false} ReverseSnoc(b: Bytes, x: byte)
    ensures Reverse(b + [x]) == [x] + Reverse(b)
  {
    if b == [] {
      assert [x][1..] == [];
    } else {
      ReverseSnoc(b[1..], x);
      assert (b + [x])[1..] == b[1..] + [x];
    }
  }

  lemma {:induction false} ReverseTwice(b: Bytes)
    ensures Reverse(Reverse(b)) == b
  {
    if b != [] {
      ReverseTwice(b[1..]);
      ReverseSnoc(Reverse(b[1..]), b[0]);
    }
  }

  function Ordered(p: Platform, b: Bytes): Bytes {
    if p.little then b else Reverse(b)
  }

  function PutUnsigned(p: Platform, width: nat, n: nat): Bytes {
    Ordered(p, LittleEndian(n, width))
  }

  function TakeUnsigned(p: Platform, width: nat, bytes: Bytes): Option<(nat, Bytes)> {
    if |bytes| < width then None
    else Some((FromLittleEndian(Ordered(p, bytes[..width])), bytes[width..]))
  }

  lemma UnsignedRoundTrip(p: Platform, width: nat, n: nat, rest: Bytes)
    requires n < Power256(width)
    ensures TakeUnsigned(p, width, PutUnsigned(p, width, n) + rest) == Some((n, rest))
  {
    hide LittleEndian, FromLittleEndian, Power256, Reverse;
    var b := LittleEndian(n, width);
    LittleEndianRoundTrip(n, width);
    ReverseTwice(b);
    var e := Ordered(p, b);
    assert (e + rest)[..width] == e && (e + rest)[width..] == rest;
  }

  function Unsigned(p: Platform, width: nat): Codec<nat> {
    Codec(n => PutUnsigned(p, width, n), b => TakeUnsigned(p, width, b), n => n < Power256(width))
  }

  lemma UnsignedExact(p: Platform, width: nat)
    ensures Exact(Unsigned(p, width))
  {
    hide PutUnsigned, TakeUnsigned, Power256;
    var c := Unsigned(p, width);
    forall n, rest | c.ok(n) ensures Decodes(c, n, rest) {
      UnsignedRoundTrip(p, width, n, rest);
    }
  }

  // ---- Building codecs from codecs ----

  /** The fields of a record, one after the other. */
  function Pair<A, B>(a: Codec<A>, b: Codec<B>): Codec<(A, B)> {
    Codec(
      (x: (A, B)) => a.enc(x.0) + b.enc(x.1),
      bytes => match a.dec(bytes)
        case None => None
        case Some((x, rest)) => (match b.dec(rest) case None => None case Some((y, left)) => Some(((x, y), left))),
      (x: (A, B)) => a.ok(x.0) && b.ok(x.1))
  }

  lemma PairExact<A(!new), B(!new)>(a: Codec<A>, b: Codec<B>)
    requires Exact(a) && Exact(b)
    ensures Exact(Pair(a, b))
  {
    var c := Pair(a, b);
    forall x: (A, B), rest | c.ok(x) ensures Decodes(c, x, rest) {
      assert Decodes(a, x.0, b.enc(x.1) + rest) && Decodes(b, x.1, rest);
      assert c.enc(x) + rest == a.enc(x.0) + (b.enc(x.1) + rest);
    }
  }

  /** Another view of the same bytes; `to` may refuse. */
  function View<A, B(==)>(c: Codec<A>, to: A -> Option<B>, from: B -> A): Codec<B> {
    Codec(
      y => c.enc(from(y)),
      bytes => match c.dec(bytes)
        case None => None
        case Some((x, rest)) => (match to(x) case None => None case Some(y) => Some((y, rest))),
      y => c.ok(from(y)) && to(from(y)) == Some(y))
  }

  lemma ViewExact<A(!new), B(!new)>(c: Codec<A>, to: A -> Option<B>, from: B -> A)
    requires Exact(c)
    ensures Exact(View(c, to, from))
  {
    var v := View(c, to, from);
    forall y, rest | v.ok(y) ensures Decodes(v, y, rest) {
      assert Decodes(c, from(y), rest);
    }
  }

  lemma PairOk<A, B>(a: Codec<A>, b: Codec<B>, x: A, y: B)
    requires a.ok(x) && b.ok(y)
    ensures Pair(a, b).ok((x, y))
  {
  }

  lemma ViewOk<A, B>(c: Codec<A>, to: A -> Option<B>, from: B -> A, y: B)
    requires c.ok(from(y)) && to(from(y)) == Some(y)
    ensures View(c, to, from).ok(y)
  {
  }

  function PutBool(p: Platform, b: bool): Bytes {
    PutUnsigned(p, 1, if b then 1 else 0)
  }

  function TakeBool(p: Platform, bytes: Bytes): Option<(bool, Bytes)> {
    match TakeUnsigned(p, 1, bytes) case None => None case Some((n, rest)) => Some((n != 0, rest))
  }

  lemma BoolRoundTrip(p: Platform, b: bool, rest: Bytes)
    ensures TakeBool(p, PutBool(p, b) + rest) == Some((b, rest))
  {
    assert Power256(1) == 256 * Power256(0);
    UnsignedRoundTrip(p, 1, if b then 1 else 0, rest);
  }

  function PutOption<A>(p: Platform, a: Codec<A>, x: Option<A>): Bytes {
    PutBool(p, x.Some?) + match x case None => [] case Some(y) => a.enc(y)
  }

  /** A flag, then the value if there is one. */
  function TakeOption<A>(p: Platform, a: Codec<A>, bytes: Bytes): Option<(Option<A>, Bytes)> {
    match TakeBool(p, bytes)
    case None => None
    case Some((present, rest)) =>
      if !present then Some((None, rest))
      else match a.dec(rest) case None => None case Some((y, left)) => Some((Some(y), left))
  }

  lemma OptionRoundTrip<A(!new)>(p: Platform, a: Codec<A>, x: Option<A>, rest: Bytes)
    requires Exact(a) && (x.Some? ==> a.ok(x.value))
    ensures TakeOption(p, a, PutOption(p, a, x) + rest) == Some((x, rest))
  {
    hide PutBool, TakeBool;
    match x {
      case None =>
        BoolRoundTrip(p, false, rest);
        assert PutOption(p, a, x) + rest == PutBool(p, false) + rest;
      case Some(y) =>
        BoolRoundTrip(p, true, a.enc(y) + rest);
        assert Decodes(a, y, rest);
        assert PutOption(p, a, x) + rest == PutBool(p, true) + (a.enc(y) + rest);
    }
  }

  function Optional<A>(p: Platform, a: Codec<A>): Codec<Option<A>> {
    Codec((x: Option<A>) => PutOption(p, a, x), b => TakeOption(p, a, b), (x: Option<A>) => x.Some? ==> a.ok(x.value))
  }

  lemma OptionalExact<A(!new)>(p: Platform, a: Codec<A>)
    requires Exact(a)
    ensures Exact(Optional(p, a))
  {
    hide PutOption, TakeOption, Exact;
    var c := Optional(p, a);
    forall x, rest | c.ok(x) ensures Decodes(c, x, rest) {
      OptionRoundTrip(p, a, x, rest);
    }
    ExactFrom(c);
  }

  lemma ExactMeans<T(!new)>(c: Codec<T>, x: T, rest: Bytes)
    requires Exact(c) && c.ok(x)
    ensures Decodes(c, x, rest)
  {
  }

  lemma ExactFrom<T(!new)>(c: Codec<T>)
    requires forall x, rest :: c.ok(x) ==> Decodes(c, x, rest)
    ensures Exact(c)
  {
  }

  /** No bytes at all. */
  function Nothing(): Codec<()> {
    Codec(u => [], bytes => Some(((), bytes)), u => true)
  }

  lemma NothingExact()
    ensures Exact(Nothing())
  {
    var c := Nothing();
    forall u, rest ensures Decodes(c, u, rest) {
      assert u == () && c.enc(u) + rest == rest;
    }
  }

  function Bool(p: Platform): Codec<bool> {
    Codec(b => PutBool(p, b), bytes => TakeBool(p, bytes), b => true)
  }

  lemma BoolExact(p: Platform)
    ensures Exact(Bool(p))
  {
    var c := Bool(p);
    forall b, rest | c.ok(b) ensures Decodes(c, b, rest) {
      BoolRoundTrip(p, b, rest);
    }
  }

  // ---- Vectors ----

  const I32_SIZE: int := 0x1_0000_0000
  const I32_LIMIT: int := 0x8000_0000

  /** Two's complement in 32 bits; a longer number loses its high bits, as `len() as i32` does. */
  function ToBits(n: int): nat {
    n % I32_SIZE
  }

  function FromBits(n: nat): int {
    var m := n % I32_SIZE;
    if m < I32_LIMIT then m else m - I32_SIZE
  }

  function EncodeAll<A>(a: Codec<A>, s: seq<A>): Bytes {
    if s == [] then [] else a.enc(s[0]) + EncodeAll(a, s[1..])
  }

  /** `n` values; none if `n` is negative. */
  function DecodeAll<A>(a: Codec<A>, n: int, bytes: Bytes): Option<(seq<A>, Bytes)>
    decreases n
  {
    if n <= 0 then Some(([], bytes))
    else match a.dec(bytes)
      case None => None
      case Some((x, rest)) =>
        match DecodeAll(a, n - 1, rest)
        case None => None
        case Some((s, left)) => Some(([x] + s, left))
  }

  function EncodeVec<A>(p: Platform, a: Codec<A>, s: seq<A>): Bytes {
    PutUnsigned(p, 4, ToBits(|s|)) + EncodeAll(a, s)
  }

  function DecodeVec<A>(p: Platform, a: Codec<A>, bytes: Bytes): Option<(seq<A>, Bytes)> {
    match TakeUnsigned(p, 4, bytes)
    case None => None
    case Some((n, rest)) => DecodeAll(a, FromBits(n), rest)
  }

  ghost predicate AllOk<A>(a: Codec<A>, s: seq<A>) {
    forall i :: 0 <= i < |s| ==> a.ok(s[i])
  }

  function AreOk<A>(a: Codec<A>, s: seq<A>): (r: bool)
    ensures r <==> AllOk(a, s)
  {
    if s == [] then true
    else
      assert AllOk(a, s) <==> a.ok(s[0]) && AllOk(a, s[1..]) by {
        assert forall i :: 1 <= i < |s| ==> s[i] == s[1..][i - 1];
      }
      a.ok(s[0]) && AreOk(a, s[1..])
  }

  lemma {:induction false} AllExact<A(!new)>(a: Codec<A>, s: seq<A>, rest: Bytes)
    requires Exact(a) && AllOk(a, s)
    ensures DecodeAll(a, |s|, EncodeAll(a, s) + rest) == Some((s, rest))
  {
    if s == [] {
      assert EncodeAll(a, s) + rest == rest;
    } else {
      var more := EncodeAll(a, s[1..]) + rest;
      assert Decodes(a, s[0], more);
      assert EncodeAll(a, s) + rest == a.enc(s[0]) + more;
      AllExact(a, s[1..], rest);
      assert [s[0]] + s[1..] == s;
    }
  }

  lemma {:induction false} DecodedLength<A>(a: Codec<A>, n: int, bytes: Bytes)
    requires DecodeAll(a, n, bytes).Some?
    ensures |DecodeAll(a, n, bytes).value.0| == if n < 0 then 0 else n
    decreases n
  {
    if n > 0 {
      DecodedLength(a, n - 1, a.dec(bytes).value.1);
    }
  }

  lemma FourBytes()
    ensures Power256(4) == I32_SIZE
  {
    assert Power256(4) == 256 * (256 * (256 * (256 * Power256(0))));
  }

  /** A vector of encodable items comes back with the bytes after it exactly when its length fits the signed 32-bit count. */
  lemma VecExact<A(!new)>(p: Platform, a: Codec<A>, s: seq<A>, rest: Bytes)
    requires Exact(a) && AllOk(a, s)
    ensures DecodeVec(p, a, EncodeVec(p, a, s) + rest) == Some((s, rest)) <==> |s| < I32_LIMIT
  {
    hide PutUnsigned, TakeUnsigned, Power256, EncodeAll, DecodeAll;
    var body := EncodeAll(a, s) + rest;
    FourBytes();
    UnsignedRoundTrip(p, 4, ToBits(|s|), body);
    assert EncodeVec(p, a, s) + rest == PutUnsigned(p, 4, ToBits(|s|)) + body;
    if |s| < I32_LIMIT {
      AllExact(a, s, rest);
    } else if DecodeAll(a, FromBits(ToBits(|s|)), body).Some? {
      DecodedLength(a, FromBits(ToBits(|s|)), body);
    }
  }

  function Vec<A>(p: Platform, a: Codec<A>): Codec<seq<A>> {
    Codec(s => EncodeVec(p, a, s), b => DecodeVec(p, a, b), s => |s| < I32_LIMIT && AreOk(a, s))
  }

  lemma VecIsExact<A(!new)>(p: Platform, a: Codec<A>)
    requires Exact(a)
    ensures Exact(Vec(p, a))
  {
    var c := Vec(p, a);
    forall s, rest | c.ok(s) ensures Decodes(c, s, rest) {
      VecExact(p, a, s, rest);
    }
  }

  // ---- The generated loops ----

  class SseSerializer {
    var cursor: Bytes

    constructor ()
      ensures cursor == []
    {
      cursor := [];
    }

    method Write<A>(c: Codec<A>, x: A)
      modifies this
      ensures cursor == old(cursor) + c.enc(x)
    {
      cursor := cursor + c.enc(x);
    }

    method WriteVec<A>(p: Platform, a: Codec<A>, s: seq<A>)
      modifies this
      ensures cursor == old(cursor) + EncodeVec(p, a, s)
    {
      cursor := cursor + PutUnsigned(p, 4, ToBits(|s|));
      ghost var start := cursor;
      var i := 0;
      assert s[0..] == s;
      while i < |s|
        invariant 0 <= i <= |s|
        invariant cursor + EncodeAll(a, s[i..]) == start + EncodeAll(a, s)
      {
        assert s[i..][1..] == s[i + 1..];
        Write(a, s[i]);
        i := i + 1;
      }
      assert cursor == start + EncodeAll(a, s);
    }
  }

  class SseDeserializer {
    var cursor: Bytes

    constructor (bytes: Bytes)
      ensures cursor == bytes
    {
      cursor := bytes;
    }

    /** A failed read is a panic; the cursor is of no interest then. */
    method Read<A>(c: Codec<A>) returns (x: Option<A>)
      modifies this
      ensures match c.dec(old(cursor)) case None => x == None case Some((y, rest)) => x == Some(y) && cursor == rest
    {
      match c.dec(cursor) {
        case None => x := None;
        case Some((y, rest)) =>
          x := Some(y);
          cursor := rest;
      }
    }

    method ReadVec<A>(p: Platform, a: Codec<A>) returns (s: Option<seq<A>>)
      modifies this
      ensures match DecodeVec(p, a, old(cursor)) case None => s == None case Some((t, rest)) => s == Some(t) && cursor == rest
    {
      var count := TakeUnsigned(p, 4, cursor);
      if count.None? {
        return None;
      }
      cursor := count.value.1;
      s := ReadAll(a, FromBits(count.value.0));
    }

    method ReadAll<A>(a: Codec<A>, len: int) returns (s: Option<seq<A>>)
      modifies this
      ensures match DecodeAll(a, len, old(cursor)) case None => s == None case Some((t, rest)) => s == Some(t) && cursor == rest
    {
      var answer: seq<A> := [];
      var i := 0;
      PrependNothing(DecodeAll(a, len, cursor));
      while i < len
        invariant 0 <= i && (i <= len || len < 0)
        invariant Prepend(answer, DecodeAll(a, len - i, cursor)) == DecodeAll(a, len, old(cursor))
        decreases len - i
      {
        var item := Read(a);
        if item.None? {
          return None;
        }
        PrependSnoc(answer, item.value, DecodeAll(a, len - i - 1, cursor));
        answer := answer + [item.value];
        i := i + 1;
      }
      assert answer + [] == answer;
      s := Some(answer);
    }
  }

  ghost function Prepend<A>(front: seq<A>, r: Option<(seq<A>, Bytes)>): Option<(seq<A>, Bytes)> {
    match r case None => None case Some((s, rest)) => Some((front + s, rest))
  }

  lemma PrependNothing<A>(r: Option<(seq<A>, Bytes)>)
    ensures Prepend([], r) == r
  {
    if r.Some? {
      assert [] + r.value.0 == r.value.0;
    }
  }

  lemma PrependSnoc<A>(front: seq<A>, x: A, r: Option<(seq<A>, Bytes)>)
    ensures Prepend(front, Prepend([x], r)) == Prepend(front + [x], r)
  {
    if r.Some? {
      assert front + ([x] + r.value.0) == front + [x] + r.value.0;
    }
  }

  // ---- Maps and sets, in whatever order they are iterated ----

  function Collect<K, V>(entries: seq<(K, V)>): map<K, V> {
    if entries == [] then map[] else Collect(entries[..|entries| - 1])[entries[|entries| - 1].0 := entries[|entries| - 1].1]
  }

  /** An iteration of a map: every entry once. */
  ghost predicate Iterates<K, V>(entries: seq<(K, V)>, m: map<K, V>) {
    && (forall i :: 0 <= i < |entries| ==> entries[i].0 in m && m[entries[i].0] == entries[i].1)
    && (forall i, j :: 0 <= i < j < |entries| ==> entries[i].0 != entries[j].0)
    && (forall k :: k in m ==> exists i :: 0 <= i < |entries| && entries[i].0 == k)
  }

  lemma {:induction false} CollectIteration<K, V>(entries: seq<(K, V)>, m: map<K, V>)
    requires Iterates(entries, m)
    ensures Collect(entries) == m
    decreases |entries|
  {
    if entries == [] {
      assert m.Keys == {};
    } else {
      var n := |entries| - 1;
      var (k, v) := entries[n];
      var fewer := m - {k};
      forall x | x in fewer ensures exists i :: 0 <= i < n && entries[..n][i].0 == x {
        var i :| 0 <= i < |entries| && entries[i].0 == x;
        assert entries[..n][i].0 == x;
      }
      CollectIteration(entries[..n], fewer);
      assert m == fewer[k := v];
    }
  }

  /** Collecting takes the last value of a key, as a hash map does. */
  lemma {:induction false} CollectLast<K, V>(entries: seq<(K, V)>, k: K)
    ensures k in Collect(entries) <==> exists i :: 0 <= i < |entries| && entries[i].0 == k
    ensures forall i :: 0 <= i < |entries| && entries[i].0 == k && (forall j :: i < j < |entries| ==> entries[j].0 != k) ==>
              k in Collect(entries) && Collect(entries)[k] == entries[i].1
    decreases |entries|
  {
    if entries != [] {
      var n := |entries| - 1;
      CollectLast(entries[..n], k);
      if i :| 0 <= i < n && entries[i].0 == k {
        assert entries[..n][i].0 == k;
      }
      assert forall i :: 0 <= i < n ==> entries[..n][i] == entries[i];
    }
  }

  /** A map survives whatever order its encoder iterates in. */
  lemma MapRoundTrip<K(!new), V(!new)>(p: Platform, key: Codec<K>, value: Codec<V>, m: map<K, V>, entries: seq<(K, V)>, rest: Bytes)
    requires Exact(key) && Exact(value)
    requires Iterates(entries, m) && |entries| < I32_LIMIT && AllOk(Pair(key, value), entries)
    ensures var decoded := DecodeVec(p, Pair(key, value), EncodeVec(p, Pair(key, value), entries) + rest);
            decoded.Some? && Collect(decoded.value.0) == m && decoded.value.1 == rest
  {
    PairExact(key, value);
    VecExact(p, Pair(key, value), entries, rest);
    CollectIteration(entries, m);
  }

  function Elements<K>(items: seq<K>): set<K> {
    set x | x in items
  }

  /** So does a set. */
  lemma SetRoundTrip<K(!new)>(p: Platform, key: Codec<K>, s: set<K>, items: seq<K>, rest: Bytes)
    requires Exact(key) && Elements(items) == s && |items| < I32_LIMIT && AllOk(key, items)
    ensures var decoded := DecodeVec(p, key, EncodeVec(p, key, items) + rest);
            decoded.Some? && Elements(decoded.value.0) == s && decoded.value.1 == rest
  {
    VecExact(p, key, items, rest);
  }

  // ---- The bytes themselves ----

  /** A number is its bytes in the order of the machine: lowest first, or highest first. */
  lemma NumberBytes(p: Platform, n: nat)
    ensures PutUnsigned(p, 1, n) == [n % 256]
    ensures PutUnsigned(p, 2, n) == if p.little then [n % 256, n / 256 % 256] else [n / 256 % 256, n % 256]
    ensures PutUnsigned(p, 4, n)
         == if p.little then [n % 256, n / 0x100 % 256, n / 0x1_0000 % 256, n / 0x100_0000 % 256]
            else [n / 0x100_0000 % 256, n / 0x1_0000 % 256, n / 0x100 % 256, n % 256]
  {
    LittleEndianBytes(n);
    hide LittleEndian;
    ReverseShort(n % 256, n / 0x100 % 256, n / 0x1_0000 % 256, n / 0x100_0000 % 256);
  }

  lemma ReverseShort(a: byte, b: byte, c: byte, d: byte)
    ensures Reverse([a]) == [a] && Reverse([a, b]) == [b, a] && Reverse([a, b, c, d]) == [d, c, b, a]
  {
    assert [a][1..] == [] && [a, b][1..] == [b] && [b][1..] == [];
    assert Reverse([a]) == Reverse([]) + [a] && Reverse([b]) == Reverse([]) + [b];
    ReverseSnoc([a, b, c], d);
    ReverseSnoc([a, b], c);
    assert [a, b, c] + [d] == [a, b, c, d] && [a, b] + [c] == [a, b, c];
  }

  /** Eight bytes are the two halves of the number, in the same order. */
  lemma LongNumberBytes(p: Platform, n: nat)
    ensures var low, high := PutUnsigned(p, 4, n), PutUnsigned(p, 4, n / 0x1_0000_0000);
            PutUnsigned(p, 8, n) == if p.little then low + high else high + low
  {
    LittleEndianBytes(n);
    hide LittleEndian;
    ReverseAppend(LittleEndian(n, 4), LittleEndian(n / 0x1_0000_0000, 4));
  }

  lemma {:induction false} ReverseAppend(x: Bytes, y: Bytes)
    ensures Reverse(x + y) == Reverse(y) + Reverse(x)
  {
    if x == [] {
      assert x + y == y;
    } else {
      ReverseAppend(x[1..], y);
      assert (x + y)[1..] == x[1..] + y;
    }
  }

  /** Reading fails exactly on too few bytes; otherwise the number read is the one whose bytes they are. */
  lemma ReadNumber(p: Platform, width: nat, bytes: Bytes)
    ensures TakeUnsigned(p, width, bytes).None? <==> |bytes| < width
    ensures |bytes| >= width ==>
      var (n, rest) := TakeUnsigned(p, width, bytes).value;
      n < Power256(width) && bytes == PutUnsigned(p, width, n) + rest
  {
    if |bytes| >= width {
      var b := Ordered(p, bytes[..width]);
      BytesRoundTrip(b);
      ReverseTwice(bytes[..width]);
      assert bytes == bytes[..width] + bytes[width..];
    }
  }

  /** The flag of a boolean and of an option is one byte, one or zero; any byte but zero reads as true. */
  lemma FlagBytes<A>(p: Platform, a: Codec<A>, b: bool, x: Option<A>, flag: byte, rest: Bytes)
    ensures PutBool(p, b) == if b then [1] else [0]
    ensures TakeBool(p, [flag] + rest) == Some((flag != 0, rest))
    ensures PutOption(p, a, x) == match x case None => [0] case Some(y) => [1] + a.enc(y)
  {
    NumberBytes(p, 0);
    NumberBytes(p, 1);
    NumberBytes(p, flag);
    assert Power256(1) == 256 * Power256(0);
    UnsignedRoundTrip(p, 1, flag, rest);
  }

  /** A vector is its 32-bit count, then its items in order. */
  lemma VecBytes<A>(p: Platform, a: Codec<A>, s: seq<A>)
    ensures EncodeVec(p, a, s)
         == PutUnsigned(p, 4, |s| % 0x1_0000_0000) + Flatten(seq(|s|, i requires 0 <= i < |s| => a.enc(s[i])))
  {
    ItemBytes(a, s);
  }

  lemma {:induction false} ItemBytes<A>(a: Codec<A>, s: seq<A>)
    ensures EncodeAll(a, s) == Flatten(seq(|s|, i requires 0 <= i < |s| => a.enc(s[i])))
  {
    if s != [] {
      ItemBytes(a, s[1..]);
      assert seq(|s|, i requires 0 <= i < |s| => a.enc(s[i]))[1..] == seq(|s[1..]|, i requires 0 <= i < |s[1..]| => a.enc(s[1..][i]));
    }
  }

  /** A count of 2^31 or more is negative, and reads as no items. */
  lemma NegativeCount<A>(p: Platform, a: Codec<A>, n: nat, rest: Bytes)
    requires 0x8000_0000 <= n < 0x1_0000_0000
    ensures DecodeVec(p, a, PutUnsigned(p, 4, n) + rest) == Some(([], rest))
  {
    FourBytes();
    UnsignedRoundTrip(p, 4, n, rest);
  }

  lemma PairEnc<A, B>(a: Codec<A>, b: Codec<B>, x: A, y: B)
    ensures Pair(a, b).enc((x, y)) == a.enc(x) + b.enc(y)
  {
  }

  lemma ViewEnc<A, B>(c: Codec<A>, to: A -> Option<B>, from: B -> A, y: B)
    ensures View(c, to, from).enc(y) == c.enc(from(y))
  {
  }

  lemma ViewDec<A, B>(c: Codec<A>, to: A -> Option<B>, from: B -> A, bytes: Bytes, x: A, rest: Bytes)
    requires c.dec(bytes) == Some((x, rest))
    ensures View(c, to, from).dec(bytes) == match to(x) case None => None case Some(y) => Some((y, rest))
  {
  }

  /** A view that refuses what was written, and a first field that is refused, refuse all. */
  lemma ViewRefuses<A(!new), B>(c: Codec<A>, to: A -> Option<B>, from: B -> A, x: A, rest: Bytes)
    requires Exact(c) && c.ok(x) && to(x).None?
    ensures View(c, to, from).dec(c.enc(x) + rest) == None
  {
    ExactMeans(c, x, rest);
  }
}
