/** src/transparent/platform_windows.c: the table of reflected flows, in hash chains. Ports are in host
    byte order. */
module Nat {
  import opened Bytes

  const BUCKETS: nat := 4096
  const TCP_IDLE_MS: int := 2 * 3600 * 1000
  const TCP_CLOSING_MS: int := 30 * 1000
  const UDP_IDLE_MS: int := 60 * 1000
  const OWN_PORT_LO: nat := 45000
  const OWN_PORT_HI: nat := 45999

  datatype Proto = Tcp | Udp

  /** A reflected flow: the application's address and port, and where it was going. */
  datatype Key = Key(proto: Proto, family: nat, local: bytes, lport: u16, remote: bytes, oport: u16)

  datatype Info = Info(closing: bool, last: int)

  datatype Flow = Flow(key: Key, info: Info)

  // ---- the hash ----

  function HashBytes(h: bv32, r: bytes): bv32
    decreases |r|
  {
    if |r| == 0 then h else HashBytes((h ^ (r[0] as bv32)) * 16777619, r[1..])
  }

  /** The application's own address is not hashed, so that it can be left open in a search. The
      application's port is hashed as it lies in the packet, its two bytes swapped. */
  function Bucket(proto: Proto, remote: bytes, lport: u16, oport: u16): (b: nat)
    ensures b < BUCKETS
  {
    var number: bv32 := if proto == Tcp then 6 else 17;
    var h := HashBytes(2166136261 ^ number ^ ((oport as bv32) << 8), remote);
    ((h ^ ((lport % 256 * 256 + lport / 256) as bv32)) * 16777619) as int % BUCKETS
  }

  // ---- chains ----

  function InChain(c: seq<Flow>, k: Key): (r: Option<Info>)
  {
    if |c| == 0 then None else if c[0].key == k then Some(c[0].info) else InChain(c[1..], k)
  }

  ghost predicate UniqueKeys(c: seq<Flow>)
  {
    forall i, j :: 0 <= i < j < |c| ==> c[i].key != c[j].key
  }

  lemma {:induction false} InChainAt(c: seq<Flow>, i: nat)
    requires UniqueKeys(c) && i < |c|
    ensures InChain(c, c[i].key) == Some(c[i].info)
  {
    if i > 0 {
      assert c[1..][i - 1] == c[i];
      InChainAt(c[1..], i - 1);
    }
  }

  lemma {:induction false} NotInChain(c: seq<Flow>, k: Key)
    ensures InChain(c, k).None? <==> forall i :: 0 <= i < |c| ==> c[i].key != k
  {
    if |c| > 0 {
      NotInChain(c[1..], k);
      assert forall i :: 0 < i < |c| ==> c[1..][i - 1] == c[i];
    }
  }

  /** Rewriting one flow's info is seen under its key only. */
  lemma {:induction false} InChainUpdate(c: seq<Flow>, i: nat, info: Info, k: Key)
    requires UniqueKeys(c) && i < |c|
    ensures InChain(c[i := Flow(c[i].key, info)], k) == if k == c[i].key then Some(info) else InChain(c, k)
  {
    var d := c[i := Flow(c[i].key, info)];
    if i > 0 {
      assert d[1..] == c[1..][i - 1 := Flow(c[i].key, info)];
      InChainUpdate(c[1..], i - 1, info, k);
    } else {
      assert d[1..] == c[1..];
    }
  }

  // ---- expiry ----

  function Limit(k: Key, s: Info): int
  {
    if k.proto == Udp then UDP_IDLE_MS else if s.closing then TCP_CLOSING_MS else TCP_IDLE_MS
  }

  predicate Expired(k: Key, s: Info, now: int)
  {
    now - s.last > Limit(k, s)
  }

  function Swept(c: seq<Flow>, now: int): (r: seq<Flow>)
  {
    if |c| == 0 then [] else (if Expired(c[0].key, c[0].info, now) then [] else [c[0]]) + Swept(c[1..], now)
  }

  lemma {:induction false} SweptIsSubset(c: seq<Flow>, now: int, f: Flow)
    ensures f in Swept(c, now) <==> f in c && !Expired(f.key, f.info, now)
  {
    if |c| > 0 {
      SweptIsSubset(c[1..], now, f);
      assert c == [c[0]] + c[1..];
    }
  }

  lemma {:induction false} SweptUnique(c: seq<Flow>, now: int)
    requires UniqueKeys(c)
    ensures UniqueKeys(Swept(c, now))
  {
    if |c| > 0 {
      SweptUnique(c[1..], now);
      var rest := Swept(c[1..], now);
      forall j | 0 <= j < |rest|
        ensures rest[j].key != c[0].key
      {
        SweptIsSubset(c[1..], now, rest[j]);
        var i :| 0 <= i < |c[1..]| && c[1..][i] == rest[j];
        assert c[i + 1] == rest[j];
      }
    }
  }

  lemma {:induction false} InChainSwept(c: seq<Flow>, now: int, k: Key)
    requires UniqueKeys(c)
    ensures InChain(Swept(c, now), k)
         == if InChain(c, k).Some? && Expired(k, InChain(c, k).value, now) then None else InChain(c, k)
  {
    if |c| > 0 {
      InChainSwept(c[1..], now, k);
      if c[0].key == k {
        NotInChain(c[1..], k);
        assert forall i :: 0 < i < |c| ==> c[1..][i - 1] == c[i];
      }
      var rest := Swept(c[1..], now);
      assert ([c[0]] + rest)[1..] == rest && [] + rest == rest;
    }
  }

  // ---- the flow table ----

  type Flows = map<Key, Info>

  /** What a lookup of one flow says. */
  function At(m: Flows, k: Key): (r: Option<Info>)
  {
    if k in m then Some(m[k]) else None
  }

  function Live(m: Flows, now: int): (r: Flows)
  {
    map k | k in m && !Expired(k, m[k], now) :: m[k]
  }

  lemma InChainPrepend(c: seq<Flow>, f: Flow, k: Key)
    ensures InChain([f] + c, k) == if k == f.key then Some(f.info) else InChain(c, k)
  {
    assert ([f] + c)[1..] == c;
  }

  /** Any function of these four parts that names a bucket will do; the constructor takes Bucket. */
  class FlowTable {
    const hash: (Proto, bytes, u16, u16) -> nat
    const chains: array<seq<Flow>>
    /** The plain set of flows, each with its state, that the table stands for. */
    ghost var flows: Flows

    ghost predicate InPlace(c: seq<Flow>, b: nat)
    {
      forall i :: 0 <= i < |c| ==> HashOf(c[i].key) == b
    }

    ghost function HashOf(k: Key): nat
    {
      hash(k.proto, k.remote, k.lport, k.oport)
    }

    /** Every flow is in the chain its key hashes to, once. */
    ghost predicate Shape()
      reads chains
    {
      && chains.Length == BUCKETS
      && (forall k: Key :: HashOf(k) < BUCKETS)
      && forall b :: 0 <= b < BUCKETS ==> InPlace(chains[b], b) && UniqueKeys(chains[b])
    }

    ghost predicate Valid()
      reads this, chains
    {
      Shape() && forall k :: InChain(chains[HashOf(k)], k) == At(flows, k)
    }

    constructor ()
      ensures Valid() && fresh(chains) && flows == map[]
    {
      hash := Bucket;
      chains := new seq<Flow>[BUCKETS](i => []);
      flows := map[];
      new;
      assert forall b :: 0 <= b < BUCKETS ==> chains[b] == [];
      assert forall k: Key :: HashOf(k) < BUCKETS;
    }

    ghost predicate Matches(k: Key, proto: Proto, family: nat, local: Option<bytes>, lport: u16, remote: bytes, oport: u16)
    {
      k == Key(proto, family, k.local, lport, remote, oport) && (local.Some? ==> k.local == local.value)
    }

    /** find, as a place in a chain; with no local address given, any flow that agrees on the rest.
        Whether it succeeds depends on the set of flows alone, not on how they are chained. */
    method Find(proto: Proto, family: nat, local: Option<bytes>, lport: u16, remote: bytes, oport: u16)
      returns (b: nat, i: Option<nat>)
      requires Valid()
      ensures b < BUCKETS && b == hash(proto, remote, lport, oport)
      ensures i.Some? ==> i.value < |chains[b]|
      ensures i.Some? ==> Matches(chains[b][i.value].key, proto, family, local, lport, remote, oport)
      ensures i.Some? ==> At(flows, chains[b][i.value].key) == Some(chains[b][i.value].info)
      ensures i.None? ==> forall k :: k in flows ==> !Matches(k, proto, family, local, lport, remote, oport)
    {
      b := hash(proto, remote, lport, oport);
      assert b == HashOf(Key(proto, family, [], lport, remote, oport));
      var c := chains[b];
      var j := 0;
      while j < |c|
        invariant 0 <= j <= |c| && c == chains[b]
        invariant forall n :: 0 <= n < j ==> !Matches(c[n].key, proto, family, local, lport, remote, oport)
      {
        var k := c[j].key;
        if k.proto == proto && k.family == family && k.lport == lport && k.oport == oport && k.remote == remote
           && (local.None? || k.local == local.value) {
          InChainAt(c, j);
          return b, Some(j);
        }
        j := j + 1;
      }
      i := None;
      forall k | Matches(k, proto, family, local, lport, remote, oport)
        ensures k !in flows
      {
        NotInChain(c, k);
        assert HashOf(k) == b;
      }
    }

    /** A chain stored back. */
    method Put(b: nat, c: seq<Flow>)
      requires Shape() && b < BUCKETS && InPlace(c, b) && UniqueKeys(c)
      modifies chains
      ensures Shape() && chains[b] == c
      ensures forall n :: 0 <= n < BUCKETS && n != b ==> chains[n] == old(chains[n])
    {
      chains[b] := c;
    }

    /** The state of a flow that is in the table is written. */
    method Touch(b: nat, i: nat, info: Info)
      requires Valid() && b < BUCKETS && i < |chains[b]|
      modifies this, chains
      ensures Valid() && flows == old(flows)[old(chains[b][i]).key := info]
    {
      ghost var c := chains[b];
      Put(b, chains[b][i := Flow(chains[b][i].key, info)]);
      flows := flows[c[i].key := info];
      forall k
        ensures InChain(chains[HashOf(k)], k) == At(flows, k)
      {
        if HashOf(k) == b {
          InChainUpdate(c, i, info, k);
        }
      }
    }

    /** A flow that is not in the table is linked in at the head of its chain. */
    method Link(k: Key, info: Info)
      requires Valid() && k !in flows
      modifies this, chains
      ensures Valid() && flows == old(flows)[k := info]
    {
      var b := hash(k.proto, k.remote, k.lport, k.oport);
      assert b == HashOf(k);
      ghost var c := chains[b];
      NotInChain(c, k);
      Put(b, [Flow(k, info)] + chains[b]);
      flows := flows[k := info];
      forall j
        ensures InChain(chains[HashOf(j)], j) == At(flows, j)
      {
        InChainPrepend(c, Flow(k, info), j);
      }
    }

    /** add_flow; without memory for a new flow nothing changes. */
    method Add(k: Key, now: int, canAllocate: bool)
      requires Valid()
      modifies this, chains
      ensures Valid()
      ensures flows == if canAllocate || k in old(flows) then old(flows)[k := Info(false, now)] else old(flows)
    {
      var b, i := Find(k.proto, k.family, Some(k.local), k.lport, k.remote, k.oport);
      if i.Some? {
        Touch(b, i.value, Info(false, now));
      } else {
        assert Matches(k, k.proto, k.family, Some(k.local), k.lport, k.remote, k.oport);
        if canAllocate {
          Link(k, Info(false, now));
        }
      }
    }

    /** sweep_flows: exactly the expired flows go. */
    method Sweep(now: int)
      requires Valid()
      modifies this, chains
      ensures Valid() && flows == Live(old(flows), now)
    {
      var b := 0;
      while b < BUCKETS
        invariant b <= BUCKETS && Shape() && flows == old(flows)
        invariant forall n :: 0 <= n < b ==> chains[n] == Swept(old(chains[n]), now)
        invariant forall n :: b <= n < BUCKETS ==> chains[n] == old(chains[n])
      {
        SweepChain(b, now);
        b := b + 1;
      }
      flows := Live(flows, now);
      forall k
        ensures InChain(chains[HashOf(k)], k) == At(flows, k)
      {
        InChainSwept(old(chains[HashOf(k)]), now, k);
      }
    }

    lemma SweptInPlace(c: seq<Flow>, now: int, b: nat)
      requires InPlace(c, b)
      ensures InPlace(Swept(c, now), b)
    {
      forall n | 0 <= n < |Swept(c, now)|
        ensures HashOf(Swept(c, now)[n].key) == b
      {
        SweptIsSubset(c, now, Swept(c, now)[n]);
      }
    }

    /** One chain walked with expired flows unlinked. */
    method SweepChain(b: nat, now: int)
      requires Shape() && b < BUCKETS
      modifies chains
      ensures Shape() && chains[b] == Swept(old(chains[b]), now)
      ensures forall n :: 0 <= n < BUCKETS && n != b ==> chains[n] == old(chains[n])
    {
      var c := chains[b];
      var kept := Unlinked(c, now);
      SweptUnique(c, now);
      SweptInPlace(c, now, b);
      Put(b, kept);
    }
  }

  method Unlinked(c: seq<Flow>, now: int) returns (kept: seq<Flow>)
    ensures kept == Swept(c, now)
  {
    kept := [];
    var i := 0;
    while i < |c|
      invariant 0 <= i <= |c| && kept + Swept(c[i..], now) == Swept(c, now)
    {
      assert c[i..][1..] == c[i + 1..];
      if !Expired(c[i].key, c[i].info, now) {
        kept := kept + [c[i]];
      }
      i := i + 1;
    }
  }
}
