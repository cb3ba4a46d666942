/** src/nfqueue/nfqueue_engine.c: what each chain of strategies puts on the wire for a packet, and what
    a receiver makes of it, whichever of the sends succeed. */
module Chains {
  import opened Bytes
  import opened Packet
  import opened Strategies
  import Checksum
  import opened Endpoint
  import opened Receiver
  import Tls
  import Splitter = Split
  import Fragmenter = Fragment
  import Faker = Fake

  type Chain = c: seq<Strategy> | |c| > 0 witness [Pass]

  datatype Verdict = Accept | Drop

  /** What the engine does to the outside world: a raw send that succeeds or not, or a verdict. */
  datatype Act = Sent(pkt: bytes, ok: bool) | Gave(v: Verdict)

  // ---- what a chain is to put on the wire ----

  /** Where the payload is to be cut; 0 when there is no usable place. */
  function CutOf(data: bytes): (at: nat)
    ensures at == 0 || at < |data|
  {
    var s := Tls.FindSniSplit(data);
    if s.Some? && s.value < |data| then s.value else 0
  }

  /** The chains the engine can execute. */
  datatype Shape = JustFake | JustFragment | JustSplit | JustDisorder | FakeThenSplit | SplitThenFake | Unknown

  function ShapeOf(c: Chain): (s: Shape)
  {
    if |c| == 1 then
      match c[0]
      case Fake => JustFake
      case Fragment => JustFragment
      case Split => JustSplit
      case Disorder => JustDisorder
      case _ => Unknown
    else if |c| == 2 && c[0] == Fake && c[1] == Split then FakeThenSplit
    else if |c| == 2 && c[0] == Split && c[1] == Fake then SplitThenFake
    else Unknown
  }

  predicate IsSplitShape(s: Shape)
  {
    s.JustSplit? || s.JustDisorder? || s.FakeThenSplit? || s.SplitThenFake?
  }

  /** The chain takes the place of the packet, which is then dropped. */
  predicate Replaces(k: Packet4, shape: Shape, at: nat)
  {
    at > 0 && (IsSplitShape(shape) || (shape.JustFragment? && Fragmenter.RoundUp(|k.tcp| + at) < |k.tcp| + |k.data|))
  }

  ghost predicate DecoyOf(k: Packet4, ttl: byte, w: bytes)
  {
    WellFormed(k) && exists d :: Faker.IsDecoy(k, ttl, d) && Wire4(d) <= w
  }

  ghost predicate PieceOf(k: Packet4, lo: nat, hi: nat, w: bytes)
    requires WellFormed(k) && lo <= hi <= |k.data|
  {
    exists s :: Splitter.IsPiece(k, lo, hi, s) && w == Wire4(s)
  }

  /** The piece from `at` on, behind a decoy of itself. */
  ghost predicate DecoyedPiece(k: Packet4, at: nat, ttl: byte, decoy: bytes, w: bytes)
    requires WellFormed(k) && at <= |k.data|
  {
    exists s :: Splitter.IsPiece(k, at, |k.data|, s) && w == Wire4(s) && DecoyOf(s, ttl, decoy)
  }

  ghost predicate Replacement(k: Packet4, ttl: byte, shape: Shape, at: nat, wire: seq<bytes>)
    requires WellFormed(k) && 0 < at < |k.data|
  {
    var n := |k.data|;
    match shape
    case JustSplit => |wire| == 2 && PieceOf(k, 0, at, wire[0]) && PieceOf(k, at, n, wire[1])
    case JustDisorder => |wire| == 2 && PieceOf(k, at, n, wire[0]) && PieceOf(k, 0, at, wire[1])
    case FakeThenSplit =>
      |wire| == 3 && DecoyOf(k, ttl, wire[0]) && PieceOf(k, 0, at, wire[1]) && PieceOf(k, at, n, wire[2])
    case SplitThenFake => |wire| == 3 && PieceOf(k, 0, at, wire[0]) && DecoyedPiece(k, at, ttl, wire[1], wire[2])
    case JustFragment => |wire| == 2 && Fragments(k, at, wire[0], wire[1])
    case _ => false
  }

  ghost predicate Fragments(k: Packet4, at: nat, w1: bytes, w2: bytes)
    requires WellFormed(k)
  {
    var f, n := Fragmenter.RoundUp(|k.tcp| + at), |k.tcp| + |k.data|;
    f < n && Fragmenter.IsFragment(k, Fragmenter.FLAG_MF, 0, f, w1) && Fragmenter.IsFragment(k, f / 8, f, n, w2)
  }

  /** Everything a chain sends for a packet. */
  ghost predicate PutsOut(k: Packet4, ttl: byte, shape: Shape, at: nat, wire: seq<bytes>)
    requires WellFormed(k) && (at == 0 || at < |k.data|)
  {
    if shape.JustFake? then if k.data == [] then wire == [] else |wire| == 1 && DecoyOf(k, ttl, wire[0])
    else if Replaces(k, shape, at) then Replacement(k, ttl, shape, at, wire)
    else wire == []
  }

  // ---- the sends ----

  /** The send whose failure ends the sending: the first of two packets that only make sense together. */
  function StopsAfter(shape: Shape): (n: nat)
  {
    match shape
    case JustSplit => 0
    case JustDisorder => 0
    case JustFragment => 0
    case FakeThenSplit => 1
    case _ => 3
  }

  /** The packets are sent in order, up to the one whose failure ends it. */
  ghost predicate Attempted(shape: Shape, wire: seq<bytes>, acts: seq<Act>)
  {
    var n := StopsAfter(shape);
    && |acts| <= |wire| && (forall i :: 0 <= i < |acts| ==> acts[i].Sent? && acts[i].pkt == wire[i])
    && |acts| == if n < |acts| && !acts[n].ok then n + 1 else |wire|
  }

  predicate AllSends(acts: seq<Act>)
  {
    forall i :: 0 <= i < |acts| ==> acts[i].Sent?
  }

  /** The packets that went out. */
  function WentOut(acts: seq<Act>): (wire: seq<bytes>)
  {
    if |acts| == 0 then [] else (if acts[0].Sent? && acts[0].ok then [acts[0].pkt] else []) + WentOut(acts[1..])
  }

  /** Both packets that carry the payload went out. */
  predicate PiecesOut(shape: Shape, acts: seq<Act>)
    requires AllSends(acts)
  {
    match shape
    case FakeThenSplit => |acts| == 3 && acts[1].ok && acts[2].ok
    case SplitThenFake => |acts| == 3 && acts[0].ok && acts[2].ok
    case _ => |acts| == 2 && acts[0].ok && acts[1].ok
  }

  /** A receiver takes the packet: it checks nothing, or both checksums are right. */
  ghost predicate Taken(w: bytes, checks: bool)
  {
    checks ==> Read4(w).Ok? && Sound(Read4(w).value)
  }

  /** The control bits make a host open the connection or end the stream at this packet. */
  predicate Bounds(k: Packet4)
    requires WellFormed(k)
  {
    EffectOf(k) == Opening || EffectOf(k) == Ending
  }

  /** The packet with the payload's beginning went out, for a chain that splits. */
  predicate HeadOut(shape: Shape, acts: seq<Act>)
    requires AllSends(acts)
  {
    if shape.JustDisorder? || shape.FakeThenSplit? then |acts| > 1 && acts[1].ok else |acts| > 0 && acts[0].ok
  }

  /** The decoy sent as packet `i` went out, and the receiver takes it. */
  ghost predicate StandsIn(wire: seq<bytes>, acts: seq<Act>, i: nat, checks: bool)
    requires AllSends(acts)
  {
    i < |acts| && i < |wire| && acts[i].ok && Taken(wire[i], checks)
  }

  /** When a receiver ends as after the packet itself. Fragments carry the checksum that it was sent with.
      For text alone, both pieces went out or a decoy that it takes stands in for the one that did not;
      where the packet resets the connection its beginning did; and a packet that opens the connection
      or ends the stream arrives by a decoy of the whole only: both pieces carry its SYN or FIN. */
  ghost predicate Arrives(k: Packet4, shape: Shape, wire: seq<bytes>, acts: seq<Act>, checks: bool)
    requires WellFormed(k) && AllSends(acts)
  {
    ArrivesBy(EffectOf(k), shape, acts, StandsIn(wire, acts, if shape.FakeThenSplit? then 0 else 1, checks), checks ==> TcpVerifies(k))
  }

  predicate ArrivesBy(e: Effect, shape: Shape, acts: seq<Act>, decoy: bool, checksum: bool)
    requires AllSends(acts)
  {
    e.Nothing?
    || if shape.JustFragment? then PiecesOut(shape, acts) && checksum
       else
         || (shape.FakeThenSplit? && decoy)
         || (e.Resetting? && HeadOut(shape, acts))
         || (e.Carrying? && (PiecesOut(shape, acts) || (shape.SplitThenFake? && HeadOut(shape, acts) && decoy)))
  }

  // ---- the packets of a chain as slices of the payload ----

  predicate IsSlice(it: Item, w: bytes, lo: nat, hi: nat)
  {
    it.w == w && it.lo == lo && it.hi == hi
  }

  lemma PieceSlice(k: Packet4, lo: nat, hi: nat, w: bytes) returns (it: Item)
    requires WellFormed(k) && lo <= hi <= |k.data| && PieceOf(k, lo, hi, w)
    ensures IsItem(k, it) && IsSlice(it, w, lo, hi) && Sound(it.x)
  {
    var s :| Splitter.IsPiece(k, lo, hi, s) && w == Wire4(s);
    it := PieceItem(k, lo, hi, s);
  }

  lemma DecoySlice(k: Packet4, ttl: byte, w: bytes) returns (it: Item)
    requires WellFormed(k) && DecoyOf(k, ttl, w)
    ensures IsItem(k, it) && IsSlice(it, w, 0, |k.data|)
  {
    var d :| Faker.IsDecoy(k, ttl, d) && Wire4(d) <= w;
    ReadPrefix(k, Wire4(k));
    var t := OriginalItem(k, Wire4(k));
    it := DecoyItem(k, t, ttl, d, w);
  }

  lemma DecoyedSlices(k: Packet4, at: nat, ttl: byte, decoy: bytes, w: bytes) returns (fake: Item, it: Item)
    requires WellFormed(k) && at <= |k.data| && DecoyedPiece(k, at, ttl, decoy, w)
    ensures IsItem(k, fake) && IsSlice(fake, decoy, at, |k.data|)
    ensures IsItem(k, it) && IsSlice(it, w, at, |k.data|) && Sound(it.x)
  {
    var s :| Splitter.IsPiece(k, at, |k.data|, s) && w == Wire4(s) && DecoyOf(s, ttl, decoy);
    it := PieceItem(k, at, |k.data|, s);
    var d :| Faker.IsDecoy(s, ttl, d) && Wire4(d) <= decoy;
    fake := DecoyItem(k, it, ttl, d, decoy);
  }

  // ---- the slices that went out ----

  function Chosen<T>(s: seq<T>, acts: seq<Act>): (r: seq<T>)
    requires |acts| <= |s|
    decreases |acts|
  {
    if |acts| == 0 then []
    else (if acts[0].Sent? && acts[0].ok then [s[0]] else []) + Chosen(s[1..], acts[1..])
  }

  lemma {:induction false} ChosenSubset<T>(s: seq<T>, acts: seq<Act>)
    requires |acts| <= |s|
    ensures forall x :: x in Chosen(s, acts) ==> x in s
    decreases |acts|
  {
    if |acts| > 0 {
      ChosenSubset(s[1..], acts[1..]);
      assert s == [s[0]] + s[1..];
    }
  }

  lemma {:induction false} ChosenWentOut(wire: seq<bytes>, acts: seq<Act>)
    requires |acts| <= |wire| && forall i :: 0 <= i < |acts| ==> acts[i].Sent? && acts[i].pkt == wire[i]
    ensures WentOut(acts) == Chosen(wire, acts)
    decreases |acts|
  {
    if |acts| > 0 {
      assert forall i :: 0 <= i < |acts| - 1 ==> acts[1..][i] == acts[i + 1] && wire[1..][i] == wire[i + 1];
      ChosenWentOut(wire[1..], acts[1..]);
    }
  }

  lemma {:induction false} ChosenItems(items: seq<Item>, acts: seq<Act>, checks: bool)
    requires |acts| <= |items|
    ensures OnTheWire(Chosen(items, acts)) == Chosen(OnTheWire(items), acts)
    ensures Covers(Chosen(items, acts), checks) == Chosen(Covers(items, checks), acts)
    decreases |acts|
  {
    if |acts| > 0 {
      ChosenItems(items[1..], acts[1..], checks);
      var rest := Chosen(items[1..], acts[1..]);
      assert ([items[0]] + rest)[1..] == rest;
      assert OnTheWire(items)[1..] == OnTheWire(items[1..]) && Covers(items, checks)[1..] == Covers(items[1..], checks);
      PlusEmpty(rest);
    }
  }

  lemma SomeSlices(k: Packet4, items: seq<Item>, some: seq<Item>)
    requires WellFormed(k) && Slices(k, items) && forall x :: x in some ==> x in items
    ensures Slices(k, some)
  {
    forall i | 0 <= i < |some|
      ensures IsItem(k, some[i])
    {
      assert some[i] in items;
      var j :| 0 <= j < |items| && items[j] == some[i];
    }
  }

  /** A receiver ends as after the packet itself exactly when what went out and was taken is enough. */
  lemma OutArrives(k: Packet4, items: seq<Item>, wire: seq<bytes>, cs: seq<Cover>, acts: seq<Act>, checks: bool)
    requires WellFormed(k) && Slices(k, items) && OnTheWire(items) == wire && Covers(items, checks) == cs
    requires |acts| <= |wire| && forall i :: 0 <= i < |acts| ==> acts[i].Sent? && acts[i].pkt == wire[i]
    ensures Equals(k, WentOut(acts), checks) <==> Enough(EffectOf(k), |k.data|, Chosen(cs, acts))
  {
    ChosenWentOut(wire, acts);
    ChosenItems(items, acts, checks);
    ChosenSubset(items, acts);
    SomeSlices(k, items, Chosen(items, acts));
    SlicesArrive(k, Chosen(items, acts), checks);
  }

  // ---- when it arrives ----

  lemma HasCons(cs: seq<Cover>, acts: seq<Act>, j: nat)
    requires 0 < |acts| <= |cs| && AllSends(acts)
    ensures Has(Chosen(cs, acts), j) <==> (acts[0].ok && In(cs[0], j)) || Has(Chosen(cs[1..], acts[1..]), j)
  {
    var rest := Chosen(cs[1..], acts[1..]);
    assert ([cs[0]] + rest)[1..] == rest;
    PlusEmpty(rest);
  }

  lemma HasTwo(c: Cover, d: Cover, acts: seq<Act>, j: nat)
    requires |acts| <= 2 && AllSends(acts)
    ensures Has(Chosen([c, d], acts), j)
       <==> (|acts| > 0 && acts[0].ok && In(c, j)) || (|acts| > 1 && acts[1].ok && In(d, j))
  {
    if |acts| > 0 {
      HasCons([c, d], acts, j);
      assert [c, d][1..] == [d];
      if |acts| > 1 {
        HasCons([d], acts[1..], j);
      }
    }
  }

  lemma HasThree(c: Cover, d: Cover, e: Cover, acts: seq<Act>, j: nat)
    requires |acts| <= 3 && AllSends(acts)
    ensures Has(Chosen([c, d, e], acts), j)
       <==> (|acts| > 0 && acts[0].ok && In(c, j)) || (|acts| > 1 && acts[1].ok && In(d, j)) || (|acts| > 2 && acts[2].ok && In(e, j))
  {
    if |acts| > 0 {
      HasCons([c, d, e], acts, j);
      assert [c, d, e][1..] == [d, e];
      HasTwo(d, e, acts[1..], j);
    }
  }

  /** Two packets that only make sense together: 0..at and at..n, in either order. */
  lemma PairHas(c: Cover, d: Cover, acts: seq<Act>, at: nat, n: nat)
    requires 0 < at < n && c.taken && d.taken && AllSends(acts) && |acts| <= 2
    requires (c.lo == 0 && c.hi == at == d.lo && d.hi == n) || (d.lo == 0 && d.hi == at == c.lo && c.hi == n)
    ensures HasAllOf(Chosen([c, d], acts), n) <==> |acts| == 2 && acts[0].ok && acts[1].ok
  {
    forall j: nat
      ensures Has(Chosen([c, d], acts), j) <==> (|acts| > 0 && acts[0].ok && In(c, j)) || (|acts| > 1 && acts[1].ok && In(d, j))
    {
      HasTwo(c, d, acts, j);
    }
    assert HasAllOf(Chosen([c, d], acts), n) ==> Has(Chosen([c, d], acts), 0) && Has(Chosen([c, d], acts), at);
  }

  /** A packet with everything, taken or not, before the two. */
  lemma FirstHas(c: Cover, d: Cover, e: Cover, acts: seq<Act>, at: nat, n: nat)
    requires 0 < at < n && d.taken && e.taken && AllSends(acts) && 0 < |acts| <= 3
    requires c.lo == 0 && c.hi == n && d.lo == 0 && d.hi == at == e.lo && e.hi == n
    ensures HasAllOf(Chosen([c, d, e], acts), n) <==> (acts[0].ok && c.taken) || (|acts| == 3 && acts[1].ok && acts[2].ok)
  {
    var out := Chosen([c, d, e], acts);
    forall j: nat
      ensures Has(out, j) <==> (acts[0].ok && In(c, j)) || (|acts| > 1 && acts[1].ok && In(d, j)) || (|acts| > 2 && acts[2].ok && In(e, j))
    {
      HasThree(c, d, e, acts, j);
    }
    assert HasAllOf(out, n) ==> Has(out, 0) && Has(out, at);
  }

  /** A packet with the second half, taken or not, between the two. */
  lemma BetweenHas(c: Cover, d: Cover, e: Cover, acts: seq<Act>, at: nat, n: nat)
    requires 0 < at < n && c.taken && e.taken && AllSends(acts) && |acts| == 3
    requires c.lo == 0 && c.hi == at == d.lo == e.lo && d.hi == n == e.hi
    ensures HasAllOf(Chosen([c, d, e], acts), n) <==> acts[0].ok && (acts[2].ok || (acts[1].ok && d.taken))
  {
    var out := Chosen([c, d, e], acts);
    forall j: nat
      ensures Has(out, j) <==> (acts[0].ok && In(c, j)) || (acts[1].ok && In(d, j)) || (acts[2].ok && In(e, j))
    {
      HasThree(c, d, e, acts, j);
    }
    assert HasAllOf(out, n) ==> Has(out, 0) && Has(out, at);
  }

  lemma SettlesCons(e: Effect, n: nat, cs: seq<Cover>, acts: seq<Act>)
    requires 0 < |acts| <= |cs| && AllSends(acts)
    ensures var rest := Settles(e, n, Chosen(cs[1..], acts[1..]));
      Settles(e, n, Chosen(cs, acts)) <==>
        if !(acts[0].ok && cs[0].taken) then rest
        else if e.Opening? then cs[0].lo == 0 && cs[0].hi == n
        else if e.Resetting? then cs[0].lo == 0 || rest
        else cs[0].hi == n && (cs[0].lo == 0 || rest)
  {
    var rest := Chosen(cs[1..], acts[1..]);
    assert ([cs[0]] + rest)[1..] == rest;
    PlusEmpty(rest);
  }

  /** Of one slice, not the whole. */
  lemma OneSettles(e: Effect, n: nat, c: Cover, acts: seq<Act>)
    requires |acts| <= 1 && AllSends(acts) && c.taken && (c.lo == 0 ==> c.hi != n)
    ensures Settles(e, n, Chosen([c], acts)) <==> e.Resetting? && |acts| > 0 && acts[0].ok && c.lo == 0
  {
    if |acts| > 0 {
      SettlesCons(e, n, [c], acts);
      assert acts[1..] == [];
    }
  }

  /** Of two slices that make the whole. */
  lemma PairSettles(e: Effect, n: nat, c: Cover, d: Cover, acts: seq<Act>, at: nat)
    requires 0 < at < n && c.taken && d.taken && AllSends(acts) && |acts| <= 2
    requires (c.lo == 0 && c.hi == at == d.lo && d.hi == n) || (d.lo == 0 && d.hi == at == c.lo && c.hi == n)
    ensures Settles(e, n, Chosen([c, d], acts))
       <==> e.Resetting? && if c.lo == 0 then |acts| > 0 && acts[0].ok else |acts| > 1 && acts[1].ok
  {
    if |acts| > 0 {
      SettlesCons(e, n, [c, d], acts);
      assert [c, d][1..] == [d];
      OneSettles(e, n, d, acts[1..]);
    }
  }

  /** Of the whole, taken or not, before the two. */
  lemma FirstSettles(e: Effect, n: nat, c: Cover, d: Cover, f: Cover, acts: seq<Act>, at: nat)
    requires 0 < at < n && d.taken && f.taken && AllSends(acts) && 0 < |acts| <= 3
    requires c.lo == 0 && c.hi == n && d.lo == 0 && d.hi == at == f.lo && f.hi == n
    ensures Settles(e, n, Chosen([c, d, f], acts))
       <==> (acts[0].ok && c.taken) || (e.Resetting? && |acts| > 1 && acts[1].ok)
  {
    SettlesCons(e, n, [c, d, f], acts);
    assert [c, d, f][1..] == [d, f];
    PairSettles(e, n, d, f, acts[1..], at);
  }

  /** Of the second slice twice, behind the first. */
  lemma BetweenSettles(e: Effect, n: nat, c: Cover, d: Cover, f: Cover, acts: seq<Act>, at: nat)
    requires 0 < at < n && c.taken && f.taken && AllSends(acts) && |acts| == 3
    requires c.lo == 0 && c.hi == at == d.lo == f.lo && d.hi == n == f.hi
    ensures Settles(e, n, Chosen([c, d, f], acts)) <==> e.Resetting? && acts[0].ok
  {
    SettlesCons(e, n, [c, d, f], acts);
    assert [c, d, f][1..] == [d, f];
    SettlesCons(e, n, [d, f], acts[1..]);
    assert [d, f][1..] == [f];
    OneSettles(e, n, f, acts[1..][1..]);
  }

  lemma ItemTwo(k: Packet4, a: Item, b: Item, checks: bool) returns (items: seq<Item>)
    requires WellFormed(k) && IsItem(k, a) && IsItem(k, b)
    ensures items == [a, b] && Slices(k, items) && OnTheWire(items) == [a.w, b.w] && Covers(items, checks) == [CoverOf(a, checks), CoverOf(b, checks)]
  {
    items := [a, b];
    ListTwo(a, b, checks);
  }

  lemma ItemThree(k: Packet4, a: Item, b: Item, c: Item, checks: bool, wire: seq<bytes>, cs: seq<Cover>) returns (items: seq<Item>)
    requires WellFormed(k) && IsItem(k, a) && IsItem(k, b) && IsItem(k, c)
    requires |wire| == 3 && wire[0] == a.w && wire[1] == b.w && wire[2] == c.w
    requires |cs| == 3 && cs[0] == CoverOf(a, checks) && cs[1] == CoverOf(b, checks) && cs[2] == CoverOf(c, checks)
    ensures Slices(k, items) && OnTheWire(items) == wire && Covers(items, checks) == cs
  {
    items := [a, b, c];
    ListThree(a, b, c, checks);
    ThreeOf(wire);
    ThreeOf(cs);
  }

  lemma ThreeOf<T>(s: seq<T>)
    requires |s| == 3
    ensures s == [s[0], s[1], s[2]]
  {
  }

  lemma TwoOf<T>(s: seq<T>)
    requires |s| == 2
    ensures s == [s[0], s[1]]
  {
  }

  lemma ListTwo(a: Item, b: Item, checks: bool)
    ensures OnTheWire([a, b]) == [a.w, b.w] && Covers([a, b], checks) == [CoverOf(a, checks), CoverOf(b, checks)]
  {
    assert [a, b][1..] == [b] && [b][1..] == [];
    assert OnTheWire([b]) == [b.w] && Covers([b], checks) == [CoverOf(b, checks)];
  }

  lemma ListThree(a: Item, b: Item, c: Item, checks: bool)
    ensures OnTheWire([a, b, c]) == [a.w, b.w, c.w]
    ensures Covers([a, b, c], checks) == [CoverOf(a, checks), CoverOf(b, checks), CoverOf(c, checks)]
  {
    assert [a, b, c][1..] == [b, c];
    ListTwo(b, c, checks);
  }

  lemma PairEnough(e: Effect, n: nat, shape: Shape, cs: seq<Cover>, acts: seq<Act>, at: nat, checksum: bool)
    requires 0 < at < n && AllSends(acts) && |acts| <= 2 && (shape.JustSplit? || shape.JustDisorder?)
    requires cs == if shape.JustSplit? then [Cover(0, at, true), Cover(at, n, true)] else [Cover(at, n, true), Cover(0, at, true)]
    ensures Enough(e, n, Chosen(cs, acts)) <==> ArrivesBy(e, shape, acts, false, checksum)
  {
    PairHas(cs[0], cs[1], acts, at, n);
    PairSettles(e, n, cs[0], cs[1], acts, at);
  }

  lemma FirstEnough(e: Effect, n: nat, cs: seq<Cover>, acts: seq<Act>, at: nat, checksum: bool)
    requires 0 < at < n && AllSends(acts) && 0 < |acts| <= 3 && |cs| == 3
    requires cs == [Cover(0, n, cs[0].taken), Cover(0, at, true), Cover(at, n, true)]
    ensures Enough(e, n, Chosen(cs, acts)) <==> ArrivesBy(e, FakeThenSplit, acts, acts[0].ok && cs[0].taken, checksum)
  {
    FirstHas(cs[0], cs[1], cs[2], acts, at, n);
    FirstSettles(e, n, cs[0], cs[1], cs[2], acts, at);
  }

  lemma BetweenEnough(e: Effect, n: nat, cs: seq<Cover>, acts: seq<Act>, at: nat, checksum: bool)
    requires 0 < at < n && AllSends(acts) && |acts| == 3 && |cs| == 3
    requires cs == [Cover(0, at, true), Cover(at, n, cs[1].taken), Cover(at, n, true)]
    ensures Enough(e, n, Chosen(cs, acts)) <==> ArrivesBy(e, SplitThenFake, acts, acts[1].ok && cs[1].taken, checksum)
  {
    BetweenHas(cs[0], cs[1], cs[2], acts, at, n);
    BetweenSettles(e, n, cs[0], cs[1], cs[2], acts, at);
  }

  // ---- the chains ----

  lemma SplitItems(k: Packet4, ttl: byte, shape: Shape, at: nat, wire: seq<bytes>, checks: bool) returns (items: seq<Item>, cs: seq<Cover>)
    requires WellFormed(k) && 0 < at < |k.data| && (shape.JustSplit? || shape.JustDisorder?) && Replacement(k, ttl, shape, at, wire)
    ensures Slices(k, items) && OnTheWire(items) == wire && Covers(items, checks) == cs
    ensures cs == if shape.JustSplit? then [Cover(0, at, true), Cover(at, |k.data|, true)] else [Cover(at, |k.data|, true), Cover(0, at, true)]
  {
    var n, first := |k.data|, shape.JustSplit?;
    var a := PieceSlice(k, if first then 0 else at, if first then at else n, wire[0]);
    var b := PieceSlice(k, if first then at else 0, if first then n else at, wire[1]);
    items := ItemTwo(k, a, b, checks);
    cs := [CoverOf(a, checks), CoverOf(b, checks)];
    TwoOf(wire);
  }

  lemma SplitCovers(k: Packet4, ttl: byte, shape: Shape, at: nat, wire: seq<bytes>, acts: seq<Act>, checks: bool) returns (cs: seq<Cover>)
    requires WellFormed(k) && 0 < at < |k.data| && (shape.JustSplit? || shape.JustDisorder?)
    requires Replacement(k, ttl, shape, at, wire) && Attempted(shape, wire, acts)
    ensures cs == if shape.JustSplit? then [Cover(0, at, true), Cover(at, |k.data|, true)] else [Cover(at, |k.data|, true), Cover(0, at, true)]
    ensures Equals(k, WentOut(acts), checks) <==> Enough(EffectOf(k), |k.data|, Chosen(cs, acts))
  {
    var items;
    items, cs := SplitItems(k, ttl, shape, at, wire, checks);
    OutArrives(k, items, wire, cs, acts, checks);
  }

  lemma SplitArrives(k: Packet4, ttl: byte, shape: Shape, at: nat, wire: seq<bytes>, acts: seq<Act>, checks: bool)
    requires WellFormed(k) && 0 < at < |k.data| && (shape.JustSplit? || shape.JustDisorder?)
    requires Replacement(k, ttl, shape, at, wire) && Attempted(shape, wire, acts)
    ensures Equals(k, WentOut(acts), checks) <==> Arrives(k, shape, wire, acts, checks)
  {
    var cs := SplitCovers(k, ttl, shape, at, wire, acts, checks);
    PairEnough(EffectOf(k), |k.data|, shape, cs, acts, at, checks ==> TcpVerifies(k));
  }

  lemma TheirCovers(d: Item, a: Item, b: Item, checks: bool)
    requires Read4(d.w) == Ok(d.x) && Sound(a.x) && Sound(b.x)
    ensures CoverOf(d, checks) == Cover(d.lo, d.hi, Taken(d.w, checks))
    ensures CoverOf(a, checks) == Cover(a.lo, a.hi, true) && CoverOf(b, checks) == Cover(b.lo, b.hi, true)
  {
  }

  lemma FakeSplitItems(k: Packet4, ttl: byte, at: nat, wire: seq<bytes>, checks: bool) returns (items: seq<Item>, cs: seq<Cover>)
    requires WellFormed(k) && 0 < at < |k.data| && Replacement(k, ttl, FakeThenSplit, at, wire)
    ensures Slices(k, items) && OnTheWire(items) == wire && Covers(items, checks) == cs
    ensures cs == [Cover(0, |k.data|, Taken(wire[0], checks)), Cover(0, at, true), Cover(at, |k.data|, true)]
  {
    var d := DecoySlice(k, ttl, wire[0]);
    var a := PieceSlice(k, 0, at, wire[1]);
    var b := PieceSlice(k, at, |k.data|, wire[2]);
    items, cs := DecoyAndPieces(k, d, a, b, wire, checks);
  }

  lemma DecoyAndPieces(k: Packet4, d: Item, a: Item, b: Item, wire: seq<bytes>, checks: bool) returns (items: seq<Item>, cs: seq<Cover>)
    requires WellFormed(k) && IsItem(k, d) && IsItem(k, a) && IsItem(k, b) && Sound(a.x) && Sound(b.x)
    requires |wire| == 3 && wire[0] == d.w && wire[1] == a.w && wire[2] == b.w
    ensures Slices(k, items) && OnTheWire(items) == wire && Covers(items, checks) == cs
    ensures cs == [Cover(d.lo, d.hi, Taken(d.w, checks)), Cover(a.lo, a.hi, true), Cover(b.lo, b.hi, true)]
  {
    TheirCovers(d, a, b, checks);
    cs := [CoverOf(d, checks), CoverOf(a, checks), CoverOf(b, checks)];
    items := ItemThree(k, d, a, b, checks, wire, cs);
  }

  lemma FakeSplitCovers(k: Packet4, ttl: byte, at: nat, wire: seq<bytes>, acts: seq<Act>, checks: bool) returns (cs: seq<Cover>)
    requires WellFormed(k) && 0 < at < |k.data|
    requires Replacement(k, ttl, FakeThenSplit, at, wire) && Attempted(FakeThenSplit, wire, acts)
    ensures cs == [Cover(0, |k.data|, Taken(wire[0], checks)), Cover(0, at, true), Cover(at, |k.data|, true)]
    ensures Equals(k, WentOut(acts), checks) <==> Enough(EffectOf(k), |k.data|, Chosen(cs, acts))
  {
    var items;
    items, cs := FakeSplitItems(k, ttl, at, wire, checks);
    OutArrives(k, items, wire, cs, acts, checks);
  }

  lemma FakeSplitArrives(k: Packet4, ttl: byte, at: nat, wire: seq<bytes>, acts: seq<Act>, checks: bool)
    requires WellFormed(k) && 0 < at < |k.data|
    requires Replacement(k, ttl, FakeThenSplit, at, wire) && Attempted(FakeThenSplit, wire, acts)
    ensures Equals(k, WentOut(acts), checks) <==> Arrives(k, FakeThenSplit, wire, acts, checks)
  {
    var cs := FakeSplitCovers(k, ttl, at, wire, acts, checks);
    FirstEnough(EffectOf(k), |k.data|, cs, acts, at, checks ==> TcpVerifies(k));
  }

  lemma SplitFakeItems(k: Packet4, ttl: byte, at: nat, wire: seq<bytes>, checks: bool) returns (items: seq<Item>, cs: seq<Cover>)
    requires WellFormed(k) && 0 < at < |k.data| && Replacement(k, ttl, SplitThenFake, at, wire)
    ensures Slices(k, items) && OnTheWire(items) == wire && Covers(items, checks) == cs
    ensures cs == [Cover(0, at, true), Cover(at, |k.data|, Taken(wire[1], checks)), Cover(at, |k.data|, true)]
  {
    var a := PieceSlice(k, 0, at, wire[0]);
    var d, b := DecoyedSlices(k, at, ttl, wire[1], wire[2]);
    items, cs := PieceAndDecoyed(k, a, d, b, wire, checks);
  }

  lemma PieceAndDecoyed(k: Packet4, a: Item, d: Item, b: Item, wire: seq<bytes>, checks: bool) returns (items: seq<Item>, cs: seq<Cover>)
    requires WellFormed(k) && IsItem(k, a) && IsItem(k, d) && IsItem(k, b) && Sound(a.x) && Sound(b.x)
    requires |wire| == 3 && wire[0] == a.w && wire[1] == d.w && wire[2] == b.w
    ensures Slices(k, items) && OnTheWire(items) == wire && Covers(items, checks) == cs
    ensures cs == [Cover(a.lo, a.hi, true), Cover(d.lo, d.hi, Taken(d.w, checks)), Cover(b.lo, b.hi, true)]
  {
    TheirCovers(d, a, b, checks);
    cs := [CoverOf(a, checks), CoverOf(d, checks), CoverOf(b, checks)];
    items := ItemThree(k, a, d, b, checks, wire, cs);
  }

  lemma SplitFakeCovers(k: Packet4, ttl: byte, at: nat, wire: seq<bytes>, acts: seq<Act>, checks: bool) returns (cs: seq<Cover>)
    requires WellFormed(k) && 0 < at < |k.data|
    requires Replacement(k, ttl, SplitThenFake, at, wire) && Attempted(SplitThenFake, wire, acts)
    ensures cs == [Cover(0, at, true), Cover(at, |k.data|, Taken(wire[1], checks)), Cover(at, |k.data|, true)]
    ensures Equals(k, WentOut(acts), checks) <==> Enough(EffectOf(k), |k.data|, Chosen(cs, acts))
  {
    var items;
    items, cs := SplitFakeItems(k, ttl, at, wire, checks);
    OutArrives(k, items, wire, cs, acts, checks);
  }

  lemma SplitFakeArrives(k: Packet4, ttl: byte, at: nat, wire: seq<bytes>, acts: seq<Act>, checks: bool)
    requires WellFormed(k) && 0 < at < |k.data|
    requires Replacement(k, ttl, SplitThenFake, at, wire) && Attempted(SplitThenFake, wire, acts)
    ensures Equals(k, WentOut(acts), checks) <==> Arrives(k, SplitThenFake, wire, acts, checks)
  {
    var cs := SplitFakeCovers(k, ttl, at, wire, acts, checks);
    BetweenEnough(EffectOf(k), |k.data|, cs, acts, at, checks ==> TcpVerifies(k));
  }

  lemma WentOutTwo(acts: seq<Act>)
    requires AllSends(acts) && 0 < |acts| <= 2
    ensures WentOut(acts) == (if acts[0].ok then [acts[0].pkt] else []) + (if |acts| == 2 && acts[1].ok then [acts[1].pkt] else [])
  {
    if |acts| == 2 {
      assert acts[1..][1..] == [];
    }
  }

  lemma FragmentArrives(k: Packet4, ttl: byte, at: nat, wire: seq<bytes>, acts: seq<Act>, checks: bool)
    requires WellFormed(k) && 0 < at < |k.data|
    requires Replacement(k, ttl, JustFragment, at, wire) && Attempted(JustFragment, wire, acts)
    ensures Equals(k, WentOut(acts), checks) <==> Arrives(k, JustFragment, wire, acts, checks)
  {
    WentOutTwo(acts);
    FragmentsArrive(k, Fragmenter.RoundUp(|k.tcp| + at), wire[0], wire[1], checks);
    assert WentOut(acts) == if !acts[0].ok then [] else if acts[1].ok then [wire[0], wire[1]] else [wire[0]];
    LeftByIs(k);
    assert 0 in Payload(k);
  }

  /** For every chain that takes a packet's place, whichever of its sends succeed, and for a receiver
      that checks or does not: it ends as after the packet itself if and only if `Arrives` says so, which
      looks at the packet's control bits, at the sends and at whether a decoy is taken. */
  lemma ReplacementArrives(k: Packet4, ttl: byte, shape: Shape, at: nat, wire: seq<bytes>, acts: seq<Act>, checks: bool)
    requires WellFormed(k) && 0 < at < |k.data| && Replaces(k, shape, at)
    ensures Replacement(k, ttl, shape, at, wire) && Attempted(shape, wire, acts) ==>
      (Equals(k, WentOut(acts), checks) <==> Arrives(k, shape, wire, acts, checks))
  {
    if !(Replacement(k, ttl, shape, at, wire) && Attempted(shape, wire, acts)) {
    } else if shape.JustFragment? {
      FragmentArrives(k, ttl, at, wire, acts, checks);
    } else if shape.FakeThenSplit? {
      FakeSplitArrives(k, ttl, at, wire, acts, checks);
    } else if shape.SplitThenFake? {
      SplitFakeArrives(k, ttl, at, wire, acts, checks);
    } else {
      SplitArrives(k, ttl, shape, at, wire, acts, checks);
    }
  }

  /** The two packets that carry the payload suffice, whatever became of a decoy: fragments always, and
      pieces exactly when the packet neither opens the connection nor ends the stream, a decoy of all of
      it aside. */
  lemma PiecesSuffice(k: Packet4, ttl: byte, shape: Shape, at: nat, wire: seq<bytes>, acts: seq<Act>)
    requires WellFormed(k) && 0 < at < |k.data| && Replaces(k, shape, at)
    ensures Replacement(k, ttl, shape, at, wire) && Attempted(shape, wire, acts) && PiecesOut(shape, acts) ==>
      && (shape.JustFragment? || !Bounds(k) ==> Delivers(k, WentOut(acts)))
      && (!shape.JustFragment? && !shape.FakeThenSplit? && Bounds(k) ==> forall checks: bool :: !Equals(k, WentOut(acts), checks))
  {
    if Replacement(k, ttl, shape, at, wire) && Attempted(shape, wire, acts) && PiecesOut(shape, acts) {
      forall checks: bool
        ensures (!shape.JustFragment? && !Bounds(k)) || (shape.JustFragment? && (checks ==> TcpVerifies(k))) ==> Equals(k, WentOut(acts), checks)
        ensures !shape.JustFragment? && !shape.FakeThenSplit? && Bounds(k) ==> !Equals(k, WentOut(acts), checks)
      {
        PiecesOutArrive(k, ttl, shape, at, wire, acts, checks);
      }
    }
  }

  lemma PiecesOutArrive(k: Packet4, ttl: byte, shape: Shape, at: nat, wire: seq<bytes>, acts: seq<Act>, checks: bool)
    requires WellFormed(k) && 0 < at < |k.data| && Replaces(k, shape, at)
    requires Replacement(k, ttl, shape, at, wire) && Attempted(shape, wire, acts) && PiecesOut(shape, acts)
    ensures (!shape.JustFragment? && !Bounds(k)) || (shape.JustFragment? && (checks ==> TcpVerifies(k))) ==> Equals(k, WentOut(acts), checks)
    ensures !shape.JustFragment? && !shape.FakeThenSplit? && Bounds(k) ==> !Equals(k, WentOut(acts), checks)
  {
    ReplacementArrives(k, ttl, shape, at, wire, acts, checks);
  }

  /** Where the stream is to end with the packet, split and disorder end it at the cut: the rest is lost,
      with all sends successful. */
  lemma TailLost(k: Packet4, ttl: byte, shape: Shape, at: nat, wire: seq<bytes>, acts: seq<Act>, checks: bool)
    requires WellFormed(k) && 0 < at < |k.data| && EffectOf(k) == Ending && (shape.JustSplit? || shape.JustDisorder?)
    requires Replacement(k, ttl, shape, at, wire) && Attempted(shape, wire, acts) && PiecesOut(shape, acts)
    ensures ReceiveAll(Awaiting(k), WentOut(acts), checks).conn == EndedAt(k, at)
  {
    WentOutTwo(acts);
    assert WentOut(acts) == wire;
    if shape.JustSplit? {
      var a := PieceSlice(k, 0, at, wire[0]);
      var b := PieceSlice(k, at, |k.data|, wire[1]);
      HeadEnds(k, a, b, at, checks);
    } else {
      var b := PieceSlice(k, at, |k.data|, wire[0]);
      var a := PieceSlice(k, 0, at, wire[1]);
      HeadEndsLate(k, b, a, at, checks);
    }
  }

  function EndedAt(k: Packet4, at: nat): (c: Conn)
    requires WellFormed(k)
  {
    Conn(Some(SeqNo(k)), Upto(Payload(k), at), Some(at), false)
  }

  lemma HeadEnds(k: Packet4, a: Item, b: Item, at: nat, checks: bool)
    requires WellFormed(k) && 0 < at < |k.data| && EffectOf(k) == Ending && IsItem(k, a) && IsItem(k, b) && Sound(a.x) && a.lo == 0 && a.hi == at
    ensures ReceiveAll(Awaiting(k), [a.w, b.w], checks).conn == EndedAt(k, at)
  {
    var items := ItemTwo(k, a, b, checks);
    var h := ReceiveFirst(Awaiting(k), k, items, checks);
    TakeEnding(Expecting(k), k, 0, at, a.x);
    SettledItems(h, k, items[1..], checks);
  }

  lemma HeadEndsLate(k: Packet4, b: Item, a: Item, at: nat, checks: bool)
    requires WellFormed(k) && 0 < at < |k.data| && EffectOf(k) == Ending && IsItem(k, a) && IsItem(k, b) && Sound(a.x) && Sound(b.x)
    requires a.lo == 0 && a.hi == at == b.lo && b.hi == |k.data|
    ensures ReceiveAll(Awaiting(k), [b.w, a.w], checks).conn == EndedAt(k, at)
  {
    var items := ItemTwo(k, b, a, checks);
    var h := ReceiveFirst(Awaiting(k), k, items, checks);
    TakeEnding(Expecting(k), k, at, |k.data|, b.x);
    var h2 := ReceiveFirst(h, k, items[1..], checks);
    TakeEnding(h.conn, k, 0, at, a.x);
  }

  /** A packet of `n` bytes in all, from 0.0.0.0 to 0.0.0.0, with ACK and FIN, and its checksums. */
  predicate FinPacket(k: Packet4, n: u16, ipSum: u16, seqNo: u16, tcpSum: u16)
  {
    && Faker.Words(k.ip, 0x4500, n, 0, 0, 0x0106, ipSum, 0, 0, 0, 0)
    && Faker.Words(k.tcp, 0, 0, 0, seqNo, 0, 0, 0x5011, 0, tcpSum, 0)
  }

  /** One with two bytes, and its pieces: the host has the first byte only, and the stream has ended. */
  lemma FinLosesTail(k: Packet4, r1: Packet4, r2: Packet4, checks: bool)
    requires FinPacket(k, 42, 0xB9CF, 0, 0xAED0) && k.data == [1, 2]
    requires FinPacket(r1, 41, 0xB9D0, 0, 0xAED3) && r1.data == [1]
    requires FinPacket(r2, 41, 0xB9D0, 1, 0xADD2) && r2.data == [2]
    ensures WellFormed(k) && Sound(k) && Splitter.IsPiece(k, 0, 1, r1) && Splitter.IsPiece(k, 1, 2, r2)
    ensures LeftBy(k) == Conn(Some(0), map[0 := 1, 1 := 2], Some(2), false)
    ensures ReceiveAll(Awaiting(k), [Wire4(r1), Wire4(r2)], checks).conn == Conn(Some(0), map[0 := 1], Some(1), false)
  {
    FinPieces(k, r1, r2);
    FinLeaves(k);
    PiecesEnd(k, r1, r2, 1, checks);
  }

  lemma FinPieces(k: Packet4, r1: Packet4, r2: Packet4)
    requires FinPacket(k, 42, 0xB9CF, 0, 0xAED0) && k.data == [1, 2]
    requires FinPacket(r1, 41, 0xB9D0, 0, 0xAED3) && r1.data == [1]
    requires FinPacket(r2, 41, 0xB9D0, 1, 0xADD2) && r2.data == [2]
    ensures Sound(k) && SeqNo(k) == 0 && EffectOf(k) == Ending
    ensures Splitter.IsPiece(k, 0, 1, r1) && Splitter.IsPiece(k, 1, 2, r2)
  {
    SmallSums();
    HalvesOf(k.data);
    FinIsSound(k, 42, 0xB9CF, 0, 0xAED0);
    FinIsSound(r1, 41, 0xB9D0, 0, 0xAED3);
    FinIsSound(r2, 41, 0xB9D0, 1, 0xADD2);
    FinHeaders(k, 42, 0xB9CF, 0xAED0, 0, r1, 0xAED3);
    FinHeaders(k, 42, 0xB9CF, 0xAED0, 1, r2, 0xADD2);
    MakesPiece(k, 0, 1, r1);
    MakesPiece(k, 1, 2, r2);
  }

  lemma HalvesOf(d: bytes)
    requires |d| == 2
    ensures d[0..1] == [d[0]] && d[1..2] == [d[1]]
  {
  }

  lemma SmallSums()
    ensures Checksum.WordSum([1, 2]) == 0x0102 && Checksum.WordSum([1]) == 0x0100 && Checksum.WordSum([2]) == 0x0200
  {
    assert [1, 2][2..] == [];
  }

  lemma FinLeaves(k: Packet4)
    requires WellFormed(k) && k.data == [1, 2] && SeqNo(k) == 0 && EffectOf(k) == Ending
    ensures LeftBy(k) == Conn(Some(0), map[0 := 1, 1 := 2], Some(2), false) && EndedAt(k, 1) == Conn(Some(0), map[0 := 1], Some(1), false)
  {
    LeftByIs(k);
    assert Payload(k) == map[0 := 1, 1 := 2] && Upto(Payload(k), 1) == map[0 := 1];
  }

  lemma PiecesEnd(k: Packet4, r1: Packet4, r2: Packet4, at: nat, checks: bool)
    requires WellFormed(k) && 0 < at < |k.data| && EffectOf(k) == Ending
    requires Splitter.IsPiece(k, 0, at, r1) && Splitter.IsPiece(k, at, |k.data|, r2)
    ensures ReceiveAll(Awaiting(k), [Wire4(r1), Wire4(r2)], checks).conn == EndedAt(k, at)
  {
    var a := PieceItem(k, 0, at, r1);
    var b := PieceItem(k, at, |k.data|, r2);
    HeadEnds(k, a, b, at, checks);
  }

  lemma FinIsSound(k: Packet4, n: u16, ipSum: u16, seqNo: u16, tcpSum: u16)
    requires FinPacket(k, n, ipSum, seqNo, tcpSum) && n == 40 + |k.data| && |k.data| <= 2
    requires 0x4606 + n + ipSum == 0xFFFF && n + seqNo + 0x5011 + tcpSum + Checksum.WordSum(k.data) == 0xFFFF + 14
    ensures Sound(k) && SeqNo(k) == seqNo && EffectOf(k) == Ending
  {
    Faker.SmallDatagram(k, ipSum);
    Faker.TenWords(k.tcp);
  }

  /** What makes a piece, apart from the words of its headers. */
  lemma MakesPiece(k: Packet4, lo: nat, hi: nat, r: Packet4)
    requires WellFormed(k) && lo <= hi <= |k.data| && Sound(r) && r.data == k.data[lo..hi] && SeqNo(r) == SeqPlus(SeqNo(k), lo)
    requires SameHeader(k.ip, r.ip, {2, 3, 10, 11}) && SameHeader(k.tcp, r.tcp, {4, 5, 6, 7, 16, 17})
    ensures Splitter.IsPiece(k, lo, hi, r)
  {
  }

  lemma FinHeaders(k: Packet4, n: u16, ipSum: u16, tcpSum: u16, lo: nat, r: Packet4, sum: u16)
    requires FinPacket(k, n, ipSum, 0, tcpSum) && lo < 2 && FinPacket(r, 41, 0xB9D0, lo, sum)
    ensures SameHeader(k.ip, r.ip, {2, 3, 10, 11}) && SameHeader(k.tcp, r.tcp, {4, 5, 6, 7, 16, 17})
  {
    SameWords(k.ip, r.ip, {2, 3, 10, 11});
    SameWords(k.tcp, r.tcp, {4, 5, 6, 7, 16, 17});
  }

  /** Headers agree where their words do. */
  lemma SameWords(a: bytes, b: bytes, except: set<int>)
    requires |a| == 20 && |b| == 20 && forall i :: 0 <= i < 10 && 2 * i !in except ==> Be16(a, 2 * i) == Be16(b, 2 * i)
    requires forall i :: 0 <= i < 10 && 2 * i in except ==> 2 * i + 1 in except
    ensures SameHeader(a, b, except)
  {
    forall i | 0 <= i < 20 && i !in except
      ensures a[i] == b[i]
    {
      var j := i / 2;
      assert 2 * j !in except && Be16(a, 2 * j) == Be16(b, 2 * j);
    }
  }

  /** With a piece missing, a receiver that checks is left without the payload unless a decoy of it
      went out whose checksum field happens to be its own complement's equal, 0x0000 or 0xFFFF. */
  lemma DecoySeldomStandsIn(k: Packet4, ttl: byte, at: nat, decoy: bytes, w: bytes)
    requires WellFormed(k) && at <= |k.data|
    ensures TcpVerifies(k) && DecoyOf(k, ttl, decoy) ==> (Taken(decoy, true) <==> Be16(k.tcp, 16) == 0 || Be16(k.tcp, 16) == 0xFFFF)
    ensures DecoyedPiece(k, at, ttl, decoy, w) ==>
      Read4(w).Ok? && |Read4(w).value.tcp| >= 20
      && (Taken(decoy, true) <==> Be16(Read4(w).value.tcp, 16) == 0 || Be16(Read4(w).value.tcp, 16) == 0xFFFF)
  {
    if TcpVerifies(k) && DecoyOf(k, ttl, decoy) {
      DecoyTaken(k, ttl, decoy);
    }
    if DecoyedPiece(k, at, ttl, decoy, w) {
      var s :| Splitter.IsPiece(k, at, |k.data|, s) && w == Wire4(s) && DecoyOf(s, ttl, decoy);
      ReadPrefix(s, w);
      DecoyTaken(s, ttl, decoy);
    }
  }

  lemma DecoyTaken(k: Packet4, ttl: byte, w: bytes)
    requires WellFormed(k) && TcpVerifies(k) && DecoyOf(k, ttl, w)
    ensures Taken(w, true) <==> Be16(k.tcp, 16) == 0 || Be16(k.tcp, 16) == 0xFFFF
  {
    var d :| Faker.IsDecoy(k, ttl, d) && Wire4(d) <= w;
    ReadPrefix(d, w);
    Faker.DecoyChecksum(k, ttl, d);
  }

  // ---- the original accepted ----

  lemma {:induction false} OnTheWireMore(items: seq<Item>, it: Item)
    ensures OnTheWire(items + [it]) == OnTheWire(items) + [it.w]
  {
    if |items| > 0 {
      assert (items + [it])[1..] == items[1..] + [it];
      OnTheWireMore(items[1..], it);
    }
  }

  predicate Wholes(k: Packet4, items: seq<Item>)
  {
    forall i :: 0 <= i < |items| ==> items[i].lo == 0 && items[i].hi == |k.data|
  }

  lemma {:induction false} WholesEnough(k: Packet4, items: seq<Item>, checks: bool, e: Effect)
    requires Wholes(k, items) && |items| > 0 && CoverOf(items[|items| - 1], checks).taken
    ensures Settles(e, |k.data|, Covers(items, checks)) && HasAllOf(Covers(items, checks), |k.data|)
  {
    assert Covers(items, checks)[1..] == Covers(items[1..], checks);
    if |items| > 1 {
      WholesEnough(k, items[1..], checks, e);
    }
  }

  /** The original delivers itself behind any copies of it. */
  lemma OriginalLast(k: Packet4, raw: bytes, items: seq<Item>)
    requires WellFormed(k) && Read4(raw) == Ok(k) && Slices(k, items) && Wholes(k, items)
    ensures Delivers(k, OnTheWire(items) + [raw])
  {
    var it := OriginalItem(k, raw);
    var all := items + [it];
    OnTheWireMore(items, it);
    OneMoreWhole(k, items, it);
    forall checks: bool | checks ==> IpVerifies(k) && TcpVerifies(k)
      ensures Equals(k, OnTheWire(all), checks)
    {
      SlicesArrive(k, all, checks);
      WholesEnough(k, all, checks, EffectOf(k));
    }
  }

  lemma OneMoreWhole(k: Packet4, items: seq<Item>, it: Item)
    requires WellFormed(k) && Slices(k, items) && Wholes(k, items) && IsItem(k, it) && it.lo == 0 && it.hi == |k.data|
    ensures var all := items + [it]; Slices(k, all) && Wholes(k, all) && all[|all| - 1] == it
  {
  }

  /** A packet that is not replaced is delivered, whether a decoy went out or not. */
  lemma AcceptedDelivers(k: Packet4, raw: bytes, ttl: byte, shape: Shape, at: nat, wire: seq<bytes>, acts: seq<Act>)
    requires WellFormed(k) && Read4(raw) == Ok(k) && (at == 0 || at < |k.data|) && !Replaces(k, shape, at)
    ensures PutsOut(k, ttl, shape, at, wire) && Attempted(shape, wire, acts) ==> Delivers(k, WentOut(acts) + [raw])
  {
    if PutsOut(k, ttl, shape, at, wire) && Attempted(shape, wire, acts) {
      var out := OneOut(acts);
      if |out| == 0 {
        OriginalLast(k, raw, []);
      } else {
        DecoyFirstDelivers(k, raw, ttl, wire[0], out);
      }
    }
  }

  lemma OneOut(acts: seq<Act>) returns (out: seq<bytes>)
    requires |acts| <= 1 && AllSends(acts)
    ensures out == WentOut(acts) && out == if |acts| == 1 && acts[0].ok then [acts[0].pkt] else []
  {
    out := WentOut(acts);
    assert |acts| > 0 ==> acts[1..] == [];
  }

  lemma DecoyFirstDelivers(k: Packet4, raw: bytes, ttl: byte, w: bytes, out: seq<bytes>)
    requires WellFormed(k) && Read4(raw) == Ok(k) && DecoyOf(k, ttl, w) && out == [w]
    ensures Delivers(k, out + [raw])
  {
    var d := DecoySlice(k, ttl, w);
    assert [d][1..] == [];
    assert OnTheWire([d]) == out;
    OriginalLast(k, raw, [d]);
  }
}
