/** The paired caches of version 3 of the HTTP protocol: for each remote, the nonce received and the nonce generated. */
module NonceCache {
  import opened Prelude
  import opened Base64
  import opened Sender

  const CAPACITY: nat := 200

  /** An LRU cache, most recently used entry first. */
  type Cache = seq<(string, Bytes)>

  function Without(c: Cache, key: string): Cache {
    if c == [] then [] else (if c[0].0 == key then [] else [c[0]]) + Without(c[1..], key)
  }

  function Take(c: Cache, n: nat): Cache {
    if |c| <= n then c else c[..n]
  }

  /** `LruCache::put`. */
  function Put(c: Cache, key: string, value: Bytes): Cache {
    Take([(key, value)] + Without(c, key), CAPACITY)
  }

  datatype Exchange = Exchange(key: string, received: Bytes, generated: Bytes)

  datatype Caches = Caches(received: Cache, generated: Cache)

  /** Both puts fall in one critical section. */
  function Record(c: Caches, e: Exchange): Caches {
    Caches(Put(c.received, e.key, e.received), Put(c.generated, e.key, e.generated))
  }

  datatype NonceReply = BadRequest | Reply(nonce: string)

  /** The exchange a request amounts to; a text that is not Base64 or a nonce of the wrong length is refused. */
  function ServerExchange(remote: string, nonce: string, newNonce: Bytes): Option<Exchange> {
    match Decode(nonce)
    case None => None
    case Some(n) => if ValidateNonce(n) then Some(Exchange(remote, n, newNonce)) else None
  }

  /** The client takes any Base64 text for the server's nonce, whatever its length. */
  function ClientExchange(remote: string, nonce: string, generated: Bytes): Option<Exchange> {
    match Decode(nonce)
    case None => None
    case Some(n) => Some(Exchange(remote, n, generated))
  }

  class NonceMaps {
    var received: Cache
    var generated: Cache

    ghost function Contents(): Caches
      reads this
    {
      Caches(received, generated)
    }

    constructor ()
      ensures Contents() == Caches([], [])
    {
      received, generated := [], [];
    }

    /** `nonce_exchange` on the server. */
    method NonceExchange(remote: string, nonce: string, newNonce: Bytes) returns (reply: NonceReply)
      modifies this
      ensures match ServerExchange(remote, nonce, newNonce)
              case None => reply == BadRequest && Contents() == old(Contents())
              case Some(e) => reply == Reply(Encode(newNonce)) && Contents() == Record(old(Contents()), e)
      ensures reply.Reply? <==> Decode(nonce).Some? && 16 <= |Decode(nonce).value| <= 128
      ensures reply.Reply? ==>
        received != [] && received[0] == (remote, Decode(nonce).value) && generated != [] && generated[0] == (remote, newNonce)
      ensures reply.BadRequest? ==> Contents() == old(Contents())
    {
      var decoded := Decode(nonce);
      if decoded.None? {
        return BadRequest;
      }
      if !ValidateNonce(decoded.value) {
        return BadRequest;
      }
      received := Put(received, remote, decoded.value);
      generated := Put(generated, remote, newNonce);
      reply := Reply(Encode(newNonce));
    }

    /** The second half of the client's `nonce`, when the server's answer is in. */
    method NonceAnswered(remote: string, nonce: string, own: Bytes) returns (ok: bool)
      modifies this
      ensures match ClientExchange(remote, nonce, own)
              case None => !ok && Contents() == old(Contents())
              case Some(e) => ok && Contents() == Record(old(Contents()), e)
      ensures ok <==> Decode(nonce).Some?
      ensures ok ==> received != [] && received[0] == (remote, Decode(nonce).value) && generated != [] && generated[0] == (remote, own)
    {
      var decoded := Decode(nonce);
      if decoded.None? {
        return false;
      }
      received := Put(received, remote, decoded.value);
      generated := Put(generated, remote, own);
      ok := true;
    }
  }

  // ---- Histories ----

  function After(h: seq<Exchange>): Caches
    decreases |h|
  {
    if h == [] then Caches([], []) else Record(After(h[..|h| - 1]), h[|h| - 1])
  }

  function ReceivedOf(e: Exchange): (string, Bytes) {
    (e.key, e.received)
  }

  function GeneratedOf(e: Exchange): (string, Bytes) {
    (e.key, e.generated)
  }

  /** The positions of the last exchange with each remote, latest first. */
  function Latest(h: seq<Exchange>): (positions: seq<nat>)
    ensures Within(positions, |h|)
    decreases |h|
  {
    if h == [] then [] else [|h| - 1] + Other(Latest(h[..|h| - 1]), h, h[|h| - 1].key)
  }

  ghost predicate Within(positions: seq<nat>, n: nat) {
    forall i :: 0 <= i < |positions| ==> positions[i] < n
  }

  function Other(positions: seq<nat>, h: seq<Exchange>, key: string): (o: seq<nat>)
    requires Within(positions, |h|)
    ensures Within(o, |h|)
  {
    if positions == [] then []
    else (if h[positions[0]].key == key then [] else [positions[0]]) + Other(positions[1..], h, key)
  }

  /** The entries of the given exchanges. */
  function Entries(positions: seq<nat>, h: seq<Exchange>, entry: Exchange -> (string, Bytes)): (c: Cache)
    requires Within(positions, |h|)
    ensures |c| == |positions|
  {
    seq(|positions|, i requires 0 <= i < |positions| => entry(h[positions[i]]))
  }

  ghost predicate IsLast(h: seq<Exchange>, p: nat) {
    p < |h| && forall q :: p < q < |h| ==> h[q].key != h[p].key
  }

  ghost predicate LatestFirst(positions: seq<nat>) {
    forall i, j :: 0 <= i < j < |positions| ==> positions[i] > positions[j]
  }

  /** The last exchanges with all remotes, latest first. */
  ghost predicate AreLatest(positions: seq<nat>, h: seq<Exchange>) {
    && LatestFirst(positions)
    && (forall i :: 0 <= i < |positions| ==> IsLast(h, positions[i]))
    && (forall p: nat :: IsLast(h, p) ==> p in positions)
  }

  lemma {:induction false} OtherMembers(positions: seq<nat>, h: seq<Exchange>, key: string, p: nat)
    requires Within(positions, |h|) && p < |h|
    ensures p in Other(positions, h, key) <==> p in positions && h[p].key != key
  {
    if positions != [] {
      OtherMembers(positions[1..], h, key, p);
      assert p in positions <==> p == positions[0] || p in positions[1..];
    }
  }

  lemma {:induction false} OtherOrdered(positions: seq<nat>, h: seq<Exchange>, key: string)
    requires LatestFirst(positions) && Within(positions, |h|)
    ensures LatestFirst(Other(positions, h, key))
  {
    if positions != [] {
      var rest := positions[1..];
      OtherOrdered(rest, h, key);
      var o := Other(rest, h, key);
      forall i | 0 <= i < |o| ensures o[i] < positions[0] {
        OtherMembers(rest, h, key, o[i]);
        assert o[i] in rest;
      }
    }
  }

  lemma LastBefore(h: seq<Exchange>, p: nat)
    requires h != []
    ensures var n := |h| - 1;
            IsLast(h, p) <==> p == n || (p < n && IsLast(h[..n], p) && h[p].key != h[n].key)
  {
    var n := |h| - 1;
    if p < n {
      if IsLast(h[..n], p) && h[p].key != h[n].key {
        forall q | p < q < |h| ensures h[q].key != h[p].key {
          assert q < n ==> h[..n][q] == h[q];
        }
      }
      if IsLast(h, p) {
        forall q | p < q < n ensures h[..n][q].key != h[..n][p].key {
          assert h[..n][q] == h[q];
        }
      }
    }
  }

  lemma {:induction false} LatestMeans(h: seq<Exchange>)
    ensures AreLatest(Latest(h), h)
    decreases |h|
  {
    if h == [] {
      NoLast();
    } else {
      var n := |h| - 1;
      LatestMeans(h[..n]);
      LatestSnoc(h, Latest(h[..n]));
    }
  }

  lemma LatestSnoc(h: seq<Exchange>, before: seq<nat>)
    requires h != [] && Within(before, |h| - 1) && AreLatest(before, h[..|h| - 1])
    ensures AreLatest([|h| - 1] + Other(before, h, h[|h| - 1].key), h)
  {
    hide IsLast, Other;
    var n := |h| - 1;
    var o := Other(before, h, h[n].key);
    OtherOrdered(before, h, h[n].key);
    forall i | 0 <= i < |o| ensures o[i] < n && IsLast(h, o[i]) {
      OtherMembers(before, h, h[n].key, o[i]);
      assert o[i] in o;
      var j :| 0 <= j < |before| && before[j] == o[i];
      LastBefore(h, o[i]);
    }
    LastBefore(h, n);
    forall p: nat | IsLast(h, p) ensures p in [n] + o {
      LastBefore(h, p);
      if p != n {
        OtherMembers(before, h, h[n].key, p);
      }
    }
  }

  lemma NoLast()
    ensures forall p: nat :: !IsLast([], p)
  {
  }

  lemma {:induction false} WithoutEntries(positions: seq<nat>, h: seq<Exchange>, key: string, entry: Exchange -> (string, Bytes))
    requires Within(positions, |h|) && forall e :: entry(e).0 == e.key
    ensures Without(Entries(positions, h, entry), key) == Entries(Other(positions, h, key), h, entry)
  {
    if positions != [] {
      WithoutEntries(positions[1..], h, key, entry);
      var c := Entries(positions, h, entry);
      assert c[1..] == Entries(positions[1..], h, entry);
      assert c[0] == entry(h[positions[0]]);
    }
  }

  /** Keys are distinct. */
  ghost predicate Distinct(c: Cache) {
    forall i, j :: 0 <= i < j < |c| ==> c[i].0 != c[j].0
  }

  lemma {:induction false} WithoutAbsent(c: Cache, key: string)
    requires forall x <- c :: x.0 != key
    ensures Without(c, key) == c
  {
    if c != [] {
      WithoutAbsent(c[1..], key);
    }
  }

  /** Evicting before a put does not change what is left after it. */
  lemma {:induction false} TakeThenWithout(c: Cache, key: string, n: nat)
    requires Distinct(c) && n > 0
    ensures Take(Without(Take(c, n), key), n - 1) == Take(Without(c, key), n - 1)
    decreases |c|
  {
    if |c| > n {
      var t := c[..n];
      if c[0].0 == key {
        WithoutAbsent(c[1..], key);
        WithoutAbsent(t[1..], key);
        assert Without(c, key) == c[1..] && Without(t, key) == t[1..] == c[1..][..n - 1];
      } else if n > 1 {
        TakeThenWithout(c[1..], key, n - 1);
        assert t[1..] == c[1..][..n - 1];
        var x, y := Without(t[1..], key), Without(c[1..], key);
        assert Without(t, key) == [c[0]] + x && Without(c, key) == [c[0]] + y;
        TakeCons(c[0], x, n - 1);
        TakeCons(c[0], y, n - 1);
      }
    }
  }

  lemma TakeCons(e: (string, Bytes), c: Cache, n: nat)
    requires n > 0
    ensures Take([e] + c, n) == [e] + Take(c, n - 1)
  {
  }

  lemma PutAfterTake(c: Cache, key: string, value: Bytes)
    requires Distinct(c)
    ensures Put(Take(c, CAPACITY), key, value) == Take([(key, value)] + Without(c, key), CAPACITY)
  {
    TakeThenWithout(c, key, CAPACITY);
    TakeCons((key, value), Without(Take(c, CAPACITY), key), CAPACITY);
    TakeCons((key, value), Without(c, key), CAPACITY);
  }

  lemma EntriesDistinct(positions: seq<nat>, h: seq<Exchange>, entry: Exchange -> (string, Bytes))
    requires Within(positions, |h|) && AreLatest(positions, h) && forall e :: entry(e).0 == e.key
    ensures Distinct(Entries(positions, h, entry))
  {
    var c := Entries(positions, h, entry);
    forall i, j | 0 <= i < j < |c| ensures c[i].0 != c[j].0 {
      assert IsLast(h, positions[j]) && positions[j] < positions[i];
      assert c[i].0 == h[positions[i]].key && c[j].0 == h[positions[j]].key;
    }
  }

  lemma EntriesPrefix(positions: seq<nat>, h: seq<Exchange>, n: nat, entry: Exchange -> (string, Bytes))
    requires n <= |h| && Within(positions, n)
    ensures Entries(positions, h[..n], entry) == Entries(positions, h, entry)
  {
  }

  lemma EntriesCons(p: nat, positions: seq<nat>, h: seq<Exchange>, entry: Exchange -> (string, Bytes))
    requires p < |h| && Within(positions, |h|)
    ensures Entries([p] + positions, h, entry) == [entry(h[p])] + Entries(positions, h, entry)
  {
  }

  lemma EntriesSnoc(h: seq<Exchange>, entry: Exchange -> (string, Bytes))
    requires h != []
    requires forall e :: entry(e).0 == e.key
    ensures Entries(Latest(h), h, entry)
         == [entry(h[|h| - 1])] + Without(Entries(Latest(h[..|h| - 1]), h[..|h| - 1], entry), h[|h| - 1].key)
  {
    hide Without, Other, Entries;
    var n := |h| - 1;
    var before := Latest(h[..n]);
    EntriesPrefix(before, h, n, entry);
    WithoutEntries(before, h, h[n].key, entry);
    EntriesCons(n, Other(before, h, h[n].key), h, entry);
  }

  /** One cache over a history. */
  lemma CacheStep(h: seq<Exchange>, entry: Exchange -> (string, Bytes))
    requires h != []
    requires forall e :: entry(e).0 == e.key
    ensures Put(Take(Entries(Latest(h[..|h| - 1]), h[..|h| - 1], entry), CAPACITY), h[|h| - 1].key, entry(h[|h| - 1]).1)
         == Take(Entries(Latest(h), h, entry), CAPACITY)
  {
    hide Put, Without, AreLatest, Latest, Entries, Take;
    var n := |h| - 1;
    var e := entry(h[n]);
    var c := Entries(Latest(h[..n]), h[..n], entry);
    LatestMeans(h[..n]);
    EntriesDistinct(Latest(h[..n]), h[..n], entry);
    PutAfterTake(c, h[n].key, e.1);
    EntriesSnoc(h, entry);
    assert e == (h[n].key, e.1);
  }

  /**
   * After any history of exchanges both caches hold the same remotes in the same order: the 200 with the most
   * recent last exchanges, latest first, each with the nonce of that last exchange.
   */
  lemma {:induction false} CachesHoldLatest(h: seq<Exchange>)
    ensures AreLatest(Latest(h), h)
    ensures After(h) == Caches(Take(Entries(Latest(h), h, ReceivedOf), CAPACITY), Take(Entries(Latest(h), h, GeneratedOf), CAPACITY))
    ensures var c, n := After(h), if |Latest(h)| < 200 then |Latest(h)| else 200;
            && |c.received| == |c.generated| == n
            && forall i :: 0 <= i < n ==>
                 var e := h[Latest(h)[i]]; c.received[i] == (e.key, e.received) && c.generated[i] == (e.key, e.generated)
    decreases |h|
  {
    LatestMeans(h);
    if h != [] {
      CachesHoldLatest(h[..|h| - 1]);
      CacheStep(h, ReceivedOf);
      CacheStep(h, GeneratedOf);
    }
  }
}
