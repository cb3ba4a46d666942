/** src/nfqueue/nfqueue_engine.c: what an eligible packet sends, chain by chain, and where it is cut. */
module Sends {
  import opened Bytes
  import opened Packet
  import opened Strategies
  import opened Chains
  import opened Sni
  import Tls
  import Splitter = Split
  import Fragmenter = Fragment

  /** The packets are sent in order; if number `n` fails, it is the last. */
  ghost predicate SentInTurn(wire: seq<bytes>, acts: seq<Act>, n: nat)
  {
    && |acts| <= |wire| && (forall i :: 0 <= i < |acts| ==> acts[i].Sent? && acts[i].pkt == wire[i])
    && |acts| == if n < |acts| && !acts[n].ok then n + 1 else |wire|
  }

  /** The two packets of a chain that splits, and the decoy that goes first or in between. */
  ghost predicate PiecesSent(k: Packet4, ttl: byte, chain: Chain, at: nat, wire: seq<bytes>, acts: seq<Act>)
    requires WellFormed(k) && 0 < at < |k.data|
  {
    var n := |k.data|;
    if chain == [Strategy.Split] then
      |wire| == 2 && PieceOf(k, 0, at, wire[0]) && PieceOf(k, at, n, wire[1]) && SentInTurn(wire, acts, 0)
    else if chain == [Disorder] then
      |wire| == 2 && PieceOf(k, at, n, wire[0]) && PieceOf(k, 0, at, wire[1]) && SentInTurn(wire, acts, 0)
    else if chain == [Strategy.Fake, Strategy.Split] then
      |wire| == 3 && DecoyOf(k, ttl, wire[0]) && PieceOf(k, 0, at, wire[1]) && PieceOf(k, at, n, wire[2]) && SentInTurn(wire, acts, 1)
    else
      |wire| == 3 && PieceOf(k, 0, at, wire[0]) && DecoyedPiece(k, at, ttl, wire[1], wire[2]) && SentInTurn(wire, acts, 3)
  }

  /** The first whole number of eight-byte units not before `m`. */
  predicate FirstUnit(f: nat, m: nat)
  {
    f % 8 == 0 && m <= f < m + 8
  }

  /** The two fragments, divided at the first whole unit of eight bytes not before the cut, if there is
      anything behind it. */
  ghost predicate FragmentsSent(k: Packet4, at: nat, v: Verdict, wire: seq<bytes>, acts: seq<Act>)
    requires WellFormed(k) && 0 < at < |k.data|
  {
    exists f: nat :: FirstUnit(f, |k.tcp| + at) && DividedAt(k, f, v, wire, acts)
  }

  ghost predicate DividedAt(k: Packet4, f: nat, v: Verdict, wire: seq<bytes>, acts: seq<Act>)
    requires WellFormed(k)
  {
    var n := |k.tcp| + |k.data|;
    if f >= n then v == Accept && acts == []
    else v == Drop && |wire| == 2 && Fragmenter.IsFragment(k, 0x2000, 0, f, wire[0]) && Fragmenter.IsFragment(k, f / 8, f, n, wire[1])
         && SentInTurn(wire, acts, 0)
  }

  /** The chains that split: the packet is dropped after the sends. */
  predicate Splits(chain: Chain)
  {
    chain == [Strategy.Split] || chain == [Disorder] || chain == [Strategy.Fake, Strategy.Split] || chain == [Strategy.Split, Strategy.Fake]
  }

  /** `at` is in the middle of an occurrence of the name. */
  predicate MiddleOf(d: bytes, host: bytes, start: nat, at: nat)
  {
    |host| >= 2 && start + |host| <= |d| && d[start..start + |host|] == host && at == start + |host| / 2
  }

  /** What is sent for a packet with the ClientHello of `host`, and the verdict on the packet itself. */
  ghost predicate ChainSends(k: Packet4, ttl: byte, chain: Chain, host: bytes, v: Verdict, wire: seq<bytes>, acts: seq<Act>)
    requires WellFormed(k)
  {
    if chain == [Strategy.Fake] then v == Accept && |wire| == 1 && DecoyOf(k, ttl, wire[0]) && SentInTurn(wire, acts, 1)
    else if |host| < 2 || !(Splits(chain) || chain == [Strategy.Fragment]) then v == Accept && acts == []
    else
      exists start: nat, at: nat ::
        && MiddleOf(k.data, host, start, at)
        && if Splits(chain) then v == Drop && PiecesSent(k, ttl, chain, at, wire, acts) else FragmentsSent(k, at, v, wire, acts)
  }

  /** The cut is in the middle of the name that the parser accepts, if that has a middle. */
  lemma CutInName(d: bytes, host: bytes) returns (start: nat)
    requires ParseSni(d, 256) == Ok(host)
    ensures |host| < 2 ==> CutOf(d) == 0
    ensures |host| >= 2 ==> MiddleOf(d, host, start, CutOf(d))
  {
    start := 0;
    if |host| >= 2 {
      start := WalkersAgree(d, 256);
    } else if Tls.FindSniSplit(d).Some? {
      var name, at := SplitImpliesName(d, 256);
    }
  }

  /** The shape that executes each chain. */
  lemma ShapeIs(chain: Chain)
    ensures ShapeOf(chain) ==
      if chain == [Strategy.Fake] then JustFake
      else if chain == [Strategy.Fragment] then JustFragment
      else if chain == [Strategy.Split] then JustSplit
      else if chain == [Disorder] then JustDisorder
      else if chain == [Strategy.Fake, Strategy.Split] then FakeThenSplit
      else if chain == [Strategy.Split, Strategy.Fake] then SplitThenFake
      else Unknown
  {
    if |chain| == 1 {
      assert chain == [chain[0]];
    } else if |chain| == 2 {
      assert chain == [chain[0], chain[1]];
    }
  }

  lemma ExecutedSends(k: Packet4, ttl: byte, chain: Chain, host: bytes, v: Verdict, wire: seq<bytes>, acts: seq<Act>)
    requires WellFormed(k) && ParseSni(k.data, 256) == Ok(host)
    requires var shape, at := ShapeOf(chain), CutOf(k.data);
      PutsOut(k, ttl, shape, at, wire) && Attempted(shape, wire, acts) && (v == Drop <==> Replaces(k, shape, at))
    ensures ChainSends(k, ttl, chain, host, v, wire, acts)
  {
    var start := CutInName(k.data, host);
    var at := CutOf(k.data);
    ShapeIs(chain);
    if chain == [Strategy.Fake] {
      FakeSends(k, ttl, at, v, wire, acts);
    } else if |host| >= 2 && Splits(chain) {
      SplitSends(k, ttl, ShapeOf(chain), chain, at, v, wire, acts);
    } else if |host| >= 2 && chain == [Strategy.Fragment] {
      FragmentSends(k, ttl, at, v, wire, acts);
    } else {
      NothingSent(k, ttl, ShapeOf(chain), at, v, wire, acts);
    }
  }

  lemma FakeSends(k: Packet4, ttl: byte, at: nat, v: Verdict, wire: seq<bytes>, acts: seq<Act>)
    requires WellFormed(k) && k.data != [] && (at == 0 || at < |k.data|)
    requires PutsOut(k, ttl, JustFake, at, wire) && Attempted(JustFake, wire, acts) && (v == Drop <==> Replaces(k, JustFake, at))
    ensures v == Accept && |wire| == 1 && DecoyOf(k, ttl, wire[0]) && SentInTurn(wire, acts, 1)
  {
  }

  lemma NothingSent(k: Packet4, ttl: byte, shape: Shape, at: nat, v: Verdict, wire: seq<bytes>, acts: seq<Act>)
    requires WellFormed(k) && (at == 0 || at < |k.data|) && (shape.Unknown? || (at == 0 && !shape.JustFake?))
    requires PutsOut(k, ttl, shape, at, wire) && Attempted(shape, wire, acts) && (v == Drop <==> Replaces(k, shape, at))
    ensures v == Accept && acts == []
  {
  }

  lemma SplitSends(k: Packet4, ttl: byte, shape: Shape, chain: Chain, at: nat, v: Verdict, wire: seq<bytes>, acts: seq<Act>)
    requires WellFormed(k) && 0 < at < |k.data| && Splits(chain)
    requires shape == if chain == [Strategy.Split] then JustSplit else if chain == [Disorder] then JustDisorder
                      else if chain == [Strategy.Fake, Strategy.Split] then FakeThenSplit else SplitThenFake
    requires PutsOut(k, ttl, shape, at, wire) && Attempted(shape, wire, acts) && (v == Drop <==> Replaces(k, shape, at))
    ensures v == Drop && PiecesSent(k, ttl, chain, at, wire, acts)
  {
  }

  lemma FragmentSends(k: Packet4, ttl: byte, at: nat, v: Verdict, wire: seq<bytes>, acts: seq<Act>)
    requires WellFormed(k) && 0 < at < |k.data|
    requires PutsOut(k, ttl, JustFragment, at, wire) && Attempted(JustFragment, wire, acts)
    requires v == Drop <==> Replaces(k, JustFragment, at)
    ensures FragmentsSent(k, at, v, wire, acts)
  {
    var f := Fragmenter.RoundUp(|k.tcp| + at);
    assert FirstUnit(f, |k.tcp| + at);
    assert DividedAt(k, f, v, wire, acts);
  }
}
