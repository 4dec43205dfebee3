/** The machine's IPv4 routing table, looked up by longest match (section 5.2.4.3 of RFC 1812). */
module Routes {
  import opened Wrappers

  const ADDRESSES: nat := 0x1_0000_0000

  type Addr4 = x: int | 0 <= x < 0x1_0000_0000

  function Pow2(n: nat): (p: nat)
    ensures p > 0
  {
    if n == 0 then 1 else 2 * Pow2(n - 1)
  }

  /** The first `len` bits of an address. */
  datatype Prefix = Prefix(bits: int, len: nat)

  function Of(a: Addr4, len: nat): Prefix
    requires len <= 32
  {
    Prefix(a / Pow2(32 - len), len)
  }

  /** `via` is empty for a route that leaves by its interface directly. */
  datatype Hop = Hop(via: string, dev: string, metric: nat)

  /** The routes to each prefix, the lowest metric first; no prefix is kept without one. */
  type Table = map<Prefix, seq<Hop>>

  ghost predicate ValidTable(t: Table) {
    forall p | p in t :: t[p] != []
  }

  function Hops(t: Table, p: Prefix): seq<Hop> {
    if p in t then t[p] else []
  }

  /** The length of the longest prefix of the address, up to `len`, that has a route; -1 for none. */
  function Longest(t: Table, a: Addr4, len: nat): int
    requires len <= 32
  {
    if Hops(t, Of(a, len)) != [] then len
    else if len == 0 then -1
    else Longest(t, a, len - 1)
  }

  function Resolve(t: Table, a: Addr4): Option<Hop> {
    var len := Longest(t, a, 32);
    if 0 <= len <= 32 && Hops(t, Of(a, len)) != [] then Some(Hops(t, Of(a, len))[0]) else None
  }

  /** Longest is what its name says. */
  lemma {:induction false} LongestIsLongest(t: Table, a: Addr4, max: nat)
    requires max <= 32
    ensures -1 <= Longest(t, a, max) <= max
    ensures forall len | Longest(t, a, max) < len <= max :: Hops(t, Of(a, len)) == []
    ensures Longest(t, a, max) >= 0 ==> Hops(t, Of(a, Longest(t, a, max))) != []
  {
    if Hops(t, Of(a, max)) == [] && max > 0 {
      LongestIsLongest(t, a, max - 1);
    }
  }

  /** And nothing else is: the route found is the first to the one longest prefix that has any. */
  lemma ResolveIs(t: Table, a: Addr4, len: nat)
    requires len <= 32 && Hops(t, Of(a, len)) != []
    requires forall l | len < l <= 32 :: Hops(t, Of(a, l)) == []
    ensures Longest(t, a, 32) == len && Resolve(t, a) == Some(Hops(t, Of(a, len))[0])
  {
    LongestIsLongest(t, a, 32);
  }

  // ---- Changing the table ----

  function Insert(t: Table, p: Prefix, h: Hop): Table {
    t[p := [h] + Hops(t, p)]
  }

  /** `ip route add` gives metric 0 and refuses a prefix that has such a route. */
  function Add(t: Table, p: Prefix, h: Hop): Option<Table> {
    if Hops(t, p) != [] && Hops(t, p)[0].metric == 0 then None else Some(Insert(t, p, h))
  }

  predicate Leaves(h: Hop, dev: Option<string>) {
    dev.None? || h.dev == dev.value
  }

  /** The hops without the first that leaves by the interface, if an interface is named. */
  function Without(hops: seq<Hop>, dev: Option<string>): seq<Hop> {
    if hops == [] then []
    else if Leaves(hops[0], dev) then hops[1..]
    else [hops[0]] + Without(hops[1..], dev)
  }

  function Put(t: Table, p: Prefix, hops: seq<Hop>): Table {
    if hops == [] then t - {p} else t[p := hops]
  }

  /** `ip route del` removes the first route that matches, and fails when there is none. */
  function Del(t: Table, p: Prefix, dev: Option<string>): Option<Table> {
    if exists i :: 0 <= i < |Hops(t, p)| && Leaves(Hops(t, p)[i], dev)
    then Some(Put(t, p, Without(Hops(t, p), dev)))
    else None
  }

  /** Every route of an interface goes with the interface. */
  function Purged(hops: seq<Hop>, dev: string): seq<Hop> {
    if hops == [] then []
    else (if hops[0].dev == dev then [] else [hops[0]]) + Purged(hops[1..], dev)
  }

  function Purge(t: Table, dev: string): Table {
    map p | p in t && Purged(t[p], dev) != [] :: Purged(t[p], dev)
  }

  ghost predicate Unused(t: Table, dev: string) {
    forall p, i | p in t && 0 <= i < |t[p]| :: t[p][i].dev != dev
  }

  lemma DelUndoesInsert(t: Table, p: Prefix, h: Hop, dev: Option<string>)
    requires ValidTable(t) && Leaves(h, dev)
    ensures Del(Insert(t, p, h), p, dev) == Some(t)
  {
    assert Hops(Insert(t, p, h), p) == [h] + Hops(t, p);
    assert Leaves(Hops(Insert(t, p, h), p)[0], dev);
    assert ([h] + Hops(t, p))[1..] == Hops(t, p);
    if p !in t {
      assert Insert(t, p, h) - {p} == t;
    } else {
      assert Insert(t, p, h)[p := t[p]] == t;
    }
  }

  lemma InsertsCommute(t: Table, p: Prefix, h: Hop, q: Prefix, g: Hop)
    requires p != q
    ensures Insert(Insert(t, p, h), q, g) == Insert(Insert(t, q, g), p, h)
  {
  }

  lemma {:induction false} PurgedUnused(hops: seq<Hop>, dev: string)
    requires forall i | 0 <= i < |hops| :: hops[i].dev != dev
    ensures Purged(hops, dev) == hops
  {
    if hops != [] {
      PurgedUnused(hops[1..], dev);
    }
  }

  lemma PurgeUnused(t: Table, dev: string)
    requires ValidTable(t) && Unused(t, dev)
    ensures Purge(t, dev) == t
  {
    forall p | p in t
      ensures Purged(t[p], dev) == t[p]
    {
      PurgedUnused(t[p], dev);
    }
  }

  lemma ResolveUnused(t: Table, a: Addr4, dev: string)
    requires Unused(t, dev)
    ensures Resolve(t, a).Some? ==> Resolve(t, a).value.dev != dev
  {
    LongestIsLongest(t, a, 32);
  }

  // ---- The two halves ----

  const LOWER_HALF: Prefix := Prefix(0, 1)
  const UPPER_HALF: Prefix := Prefix(1, 1)

  /** Every address lies in one of the halves. */
  lemma HalvesCover(a: Addr4)
    ensures Of(a, 1) == LOWER_HALF || Of(a, 1) == UPPER_HALF
  {
    assert Pow2(31) == 0x8000_0000 by {
      assert Pow2(10) == 0x400;
      assert Pow2(20) == 0x10_0000;
      assert Pow2(30) == 0x4000_0000;
    }
  }

  lemma EveryAddressIsDefault(a: Addr4)
    ensures Of(a, 0) == Prefix(0, 0)
  {
    assert Pow2(32) == ADDRESSES by {
      assert Pow2(10) == 0x400;
      assert Pow2(20) == 0x10_0000;
      assert Pow2(30) == 0x4000_0000;
    }
  }

  lemma HostPrefix(a: Addr4, b: Addr4)
    ensures Of(a, 32) == Of(b, 32) <==> a == b
  {
    assert Pow2(0) == 1;
  }
}
