/** A receiving host: IPv4 reassembly (section 3.2 of RFC 791), the header and TCP checksum checks,
    and the TCP connection behind them. It is the meaning that packet rewriting must preserve. */
module Receiver {
  import opened Bytes
  import opened Checksum
  import opened Packet
  import opened Endpoint
  import Split
  import Fragment
  import Fake

  /** One IP fragment: its header, byte offset, "more fragments" flag and body. */
  datatype Frag = Frag(ip: bytes, offset: nat, more: bool, body: bytes)

  function ReadFrag(w: bytes): (r: Option<Frag>)
  {
    if |w| < 20 || w[0] / 16 != 4 then None
    else
      var ihl := w[0] as int % 16 * 4;
      var total, field := Be16(w, 2), Be16(w, 6);
      if ihl < 20 || total < ihl || total > |w| || field % 0x4000 == 0 then None
      else Some(Frag(w[..ihl], field % 0x2000 * 8, field / 0x2000 % 2 == 1, w[ihl..total]))
  }

  /** Fragments of one datagram share source, destination, protocol and identification. */
  predicate SameDatagram(a: Frag, b: Frag)
  {
    20 <= |a.ip| && 20 <= |b.ip| && a.ip[4..6] == b.ip[4..6] && a.ip[9] == b.ip[9] && a.ip[12..20] == b.ip[12..20]
  }

  function Mine(frags: seq<Frag>, f: Frag, same: bool): (r: seq<Frag>)
  {
    if |frags| == 0 then []
    else (if SameDatagram(frags[0], f) == same then [frags[0]] else []) + Mine(frags[1..], f, same)
  }

  /** The first fragment at a byte offset. */
  function At(frags: seq<Frag>, offset: nat): (r: Option<Frag>)
  {
    if |frags| == 0 then None
    else if frags[0].offset == offset then Some(frags[0])
    else At(frags[1..], offset)
  }

  /** The payload from `offset` on, once every fragment up to the last one is there (`left` bounds
      the number of fragments still to be used). */
  function Chain(frags: seq<Frag>, offset: nat, left: nat): (r: Option<bytes>)
    decreases left
  {
    if left == 0 then None
    else
      match At(frags, offset)
      case None => None
      case Some(f) =>
        if !f.more then Some(f.body)
        else
          match Chain(frags, offset + |f.body|, left - 1)
          case None => None
          case Some(rest) => Some(f.body + rest)
  }

  function ToOption<T>(r: Result<T>): Option<T>
  {
    if r.Ok? then Some(r.value) else None
  }

  /** The first fragment's header with the whole length and no fragment field. */
  function WholeHeader(h: bytes, total: u16): (r: bytes)
    requires 20 <= |h|
  {
    Put16(Put16(h, 2, total), 6, 0)
  }

  /** The whole datagram, as the packet it is, when its fragments are complete. */
  function Rebuild(frags: seq<Frag>): (r: Option<Packet4>)
  {
    match (At(frags, 0), Chain(frags, 0, |frags|))
    case (Some(f), Some(body)) => Joined(f.ip, body)
    case _ => None
  }

  function Joined(h: bytes, body: bytes): (r: Option<Packet4>)
  {
    if |h| < 20 || |h| + |body| > MAX_DATAGRAM then None
    else ToOption(Read4(WholeHeader(h, |h| + |body|) + body))
  }

  /** Fragments waiting for the rest of their datagram, and the connection. */
  datatype Host = Host(pending: seq<Frag>, conn: Conn)

  function AcceptTcp(c: Conn, k: Packet4, checks: bool): (r: Conn)
  {
    if WellFormed(k) && (checks ==> TcpVerifies(k)) then Take(c, k) else c
  }

  /** One packet arrives; with `checks` the host drops what fails a checksum. */
  function Receive(h: Host, w: bytes, checks: bool): (r: Host)
  {
    match Read4(w)
    case Ok(k) => if checks && !IpVerifies(k) then h else h.(conn := AcceptTcp(h.conn, k, checks))
    case Err(_) =>
      match ReadFrag(w)
      case None => h
      case Some(f) => if checks && !Verifies(f.ip) then h else ReceiveFrag(h, f, checks)
  }

  function ReceiveFrag(h: Host, f: Frag, checks: bool): (r: Host)
  {
    match Rebuild(Mine(h.pending + [f], f, true))
    case None => h.(pending := h.pending + [f])
    case Some(k) => Host(Mine(h.pending, f, false), AcceptTcp(h.conn, k, checks))
  }

  function ReceiveAll(h: Host, wire: seq<bytes>, checks: bool): (r: Host)
    decreases |wire|
  {
    if |wire| == 0 then h else ReceiveAll(Receive(h, wire[0], checks), wire[1..], checks)
  }

  /** A host for which `k` is the next packet. */
  function Awaiting(k: Packet4): (h: Host)
    requires WellFormed(k)
  {
    Host([], Expecting(k))
  }

  /** The packets leave a host with the same connection as `k` alone does where it is accepted: the same
      bytes, begun and ended at the same places. */
  predicate Equals(k: Packet4, wire: seq<bytes>, checks: bool)
    requires WellFormed(k)
  {
    ReceiveAll(Awaiting(k), wire, checks).conn == LeftBy(k)
  }

  /** These packets do what `k` would: to a host that checks nothing in any case, and to one that checks
      if it would have accepted `k`. */
  ghost predicate Delivers(k: Packet4, wire: seq<bytes>)
    requires WellFormed(k)
  {
    forall checks: bool :: (checks ==> IpVerifies(k) && TcpVerifies(k)) ==> Equals(k, wire, checks)
  }

  // ---- slices of the payload ----

  /** One packet on the wire, and the slice lo..hi of the original payload that it carries. */
  datatype Item = Item(w: bytes, x: Packet4, lo: nat, hi: nat)

  predicate IsItem(k: Packet4, it: Item)
    requires WellFormed(k)
  {
    it.lo <= it.hi <= |k.data| && Carries(k, it.lo, it.hi, it.x) && Read4(it.w) == Ok(it.x)
  }

  predicate Slices(k: Packet4, items: seq<Item>)
    requires WellFormed(k)
  {
    forall i :: 0 <= i < |items| ==> IsItem(k, items[i])
  }

  function OnTheWire(items: seq<Item>): (r: seq<bytes>)
    ensures |r| == |items|
  {
    if |items| == 0 then [] else [items[0].w] + OnTheWire(items[1..])
  }

  predicate Sound(x: Packet4)
  {
    WellFormed(x) && IpVerifies(x) && TcpVerifies(x)
  }

  /** A slice, and whether its packet is taken. */
  datatype Cover = Cover(lo: nat, hi: nat, taken: bool)

  function CoverOf(it: Item, checks: bool): Cover
  {
    Cover(it.lo, it.hi, checks ==> Sound(it.x))
  }

  function Covers(items: seq<Item>, checks: bool): (r: seq<Cover>)
    ensures |r| == |items|
  {
    if |items| == 0 then [] else [CoverOf(items[0], checks)] + Covers(items[1..], checks)
  }

  predicate In(c: Cover, j: nat)
  {
    c.taken && c.lo <= j < c.hi
  }

  /** Some slice that is taken has the byte. */
  predicate Has(cs: seq<Cover>, j: nat)
  {
    if |cs| == 0 then false else In(cs[0], j) || Has(cs[1..], j)
  }

  predicate HasAllOf(cs: seq<Cover>, n: nat)
  {
    forall j: nat :: j < n ==> Has(cs, j)
  }

  /** What decides for a segment of `n` bytes whose control bits count, in the order of arrival: the first
      slice is the whole, when it opens the connection; some slice is at its start, when it resets it;
      up to the first slice at its start, all reach to its end, when it ends the stream. */
  predicate Settles(e: Effect, n: nat, cs: seq<Cover>)
  {
    if |cs| == 0 then false
    else if !cs[0].taken then Settles(e, n, cs[1..])
    else if e.Opening? then cs[0].lo == 0 && cs[0].hi == n
    else if e.Resetting? then cs[0].lo == 0 || Settles(e, n, cs[1..])
    else cs[0].hi == n && (cs[0].lo == 0 || Settles(e, n, cs[1..]))
  }

  predicate Enough(e: Effect, n: nat, cs: seq<Cover>)
  {
    e.Nothing? || if e.Carrying? then HasAllOf(cs, n) else Settles(e, n, cs)
  }

  /** A packet that carries a slice reaches the connection if the host accepts it. */
  lemma ReceiveFirst(h: Host, k: Packet4, items: seq<Item>, checks: bool) returns (h': Host)
    requires WellFormed(k) && |items| > 0 && Slices(k, items)
    ensures ReceiveAll(h, OnTheWire(items), checks) == ReceiveAll(h', OnTheWire(items[1..]), checks)
    ensures h' == if CoverOf(items[0], checks).taken then h.(conn := Take(h.conn, items[0].x)) else h
    ensures Covers(items, checks)[0] == CoverOf(items[0], checks) && Covers(items, checks)[1..] == Covers(items[1..], checks)
    ensures Slices(k, items[1..])
  {
    h' := Receive(h, items[0].w, checks);
    assert OnTheWire(items)[0] == items[0].w && OnTheWire(items)[1..] == OnTheWire(items[1..]);
  }

  lemma {:induction false} NothingItems(h: Host, k: Packet4, items: seq<Item>, checks: bool)
    requires WellFormed(k) && Slices(k, items) && EffectOf(k) == Nothing && h.conn == Expecting(k)
    ensures ReceiveAll(h, OnTheWire(items), checks).conn == h.conn
    decreases |items|
  {
    if |items| > 0 {
      var h' := ReceiveFirst(h, k, items, checks);
      TakeNothing(h.conn, k, items[0].lo, items[0].hi, items[0].x);
      NothingItems(h', k, items[1..], checks);
    }
  }

  /** Each slice of a segment that carries text adds exactly itself. */
  lemma {:induction false} CarryingItems(h: Host, k: Packet4, items: seq<Item>, checks: bool)
    requires WellFormed(k) && Slices(k, items) && EffectOf(k) == Carrying && Midway(h.conn, k) && h.conn.fin.None?
    ensures var c := ReceiveAll(h, OnTheWire(items), checks).conn;
      Midway(c, k) && c.fin.None? && forall j: nat :: j in c.have <==> j in h.conn.have || Has(Covers(items, checks), j)
    decreases |items|
  {
    if |items| > 0 {
      var h' := ReceiveFirst(h, k, items, checks);
      TakeSlice(h.conn, k, items[0].lo, items[0].hi, items[0].x);
      CarryingItems(h', k, items[1..], checks);
    }
  }

  /** Nothing moves a connection that was reset or has ended, and no SYN one that is open. */
  lemma {:induction false} SettledItems(h: Host, k: Packet4, items: seq<Item>, checks: bool)
    requires WellFormed(k) && Slices(k, items)
    requires h.conn.reset || Ended(h.conn) || (EffectOf(k) == Opening && h.conn.base.Some?)
    ensures ReceiveAll(h, OnTheWire(items), checks).conn == h.conn
    decreases |items|
  {
    if |items| > 0 {
      var h' := ReceiveFirst(h, k, items, checks);
      if EffectOf(k) == Opening && h.conn.base.Some? {
        TakeOpened(h.conn, k, items[0].lo, items[0].hi, items[0].x);
      }
      SettledItems(h', k, items[1..], checks);
    }
  }

  lemma {:induction false} ResettingItems(h: Host, k: Packet4, items: seq<Item>, checks: bool)
    requires WellFormed(k) && Slices(k, items) && EffectOf(k) == Resetting && h.conn == Expecting(k)
    ensures ReceiveAll(h, OnTheWire(items), checks).conn == LeftBy(k) <==> Settles(Resetting, |k.data|, Covers(items, checks))
    decreases |items|
  {
    LeftByIs(k);
    if |items| > 0 {
      var h' := ReceiveFirst(h, k, items, checks);
      TakeReset(h.conn, k, items[0].lo, items[0].hi, items[0].x);
      if h'.conn == h.conn {
        ResettingItems(h', k, items[1..], checks);
      } else {
        SettledItems(h', k, items[1..], checks);
      }
    }
  }

  lemma {:induction false} OpeningItems(h: Host, k: Packet4, items: seq<Item>, checks: bool)
    requires WellFormed(k) && Slices(k, items) && EffectOf(k) == Opening && h.conn == Expecting(k)
    ensures ReceiveAll(h, OnTheWire(items), checks).conn == LeftBy(k) <==> Settles(Opening, |k.data|, Covers(items, checks))
    decreases |items|
  {
    LeftByIs(k);
    if |items| > 0 {
      var h' := ReceiveFirst(h, k, items, checks);
      TakeOpening(h.conn, k, items[0].lo, items[0].hi, items[0].x);
      if h'.conn == h.conn {
        OpeningItems(h', k, items[1..], checks);
      } else {
        SettledItems(h', k, items[1..], checks);
      }
    }
  }

  lemma {:induction false} EndingItems(h: Host, k: Packet4, items: seq<Item>, checks: bool)
    requires WellFormed(k) && Slices(k, items) && EffectOf(k) == Ending && Headless(h.conn, k)
    ensures ReceiveAll(h, OnTheWire(items), checks).conn == LeftBy(k)
       <==> Least(h.conn.fin, |k.data|) == |k.data| && Settles(Ending, |k.data|, Covers(items, checks))
    decreases |items|
  {
    LeftByIs(k);
    if |items| == 0 {
      HeadlessIsNotAll(h.conn, k);
    } else {
      var it := items[0];
      var h' := ReceiveFirst(h, k, items, checks);
      TakeEnding(h.conn, k, it.lo, it.hi, it.x);
      if CoverOf(it, checks).taken && it.lo == 0 {
        SettledItems(h', k, items[1..], checks);
        WholeUpto(k, Least(h.conn.fin, it.hi));
      } else {
        EndingItems(h', k, items[1..], checks);
      }
    }
  }

  lemma HeadlessIsNotAll(c: Conn, k: Packet4)
    requires WellFormed(k) && EffectOf(k) == Ending && Headless(c, k)
    ensures c != LeftBy(k)
  {
    LeftByIs(k);
    if |k.data| > 0 {
      assert 0 in Payload(k);
    }
  }

  lemma WholeUpto(k: Packet4, n: nat)
    requires n <= |k.data|
    ensures n == |k.data| ==> Upto(Payload(k), n) == Payload(k)
  {
  }

  /** Packets that carry slices of `k`, in any order and with anything repeated, do to a host what `k`
      does if and only if the ones it accepts are enough. */
  lemma SlicesArrive(k: Packet4, items: seq<Item>, checks: bool)
    requires WellFormed(k) && Slices(k, items)
    ensures Equals(k, OnTheWire(items), checks) <==> Enough(EffectOf(k), |k.data|, Covers(items, checks))
  {
    LeftByIs(k);
    match EffectOf(k)
    case Nothing => NothingItems(Awaiting(k), k, items, checks);
    case Opening => OpeningItems(Awaiting(k), k, items, checks);
    case Resetting => ResettingItems(Awaiting(k), k, items, checks);
    case Ending => EndingItems(Awaiting(k), k, items, checks);
    case Carrying =>
      CarryingItems(Awaiting(k), k, items, checks);
      IsPayload(ReceiveAll(Awaiting(k), OnTheWire(items), checks).conn.have, k);
  }

  lemma PieceCarries(k: Packet4, lo: nat, hi: nat, r: Packet4)
    requires WellFormed(k) && lo <= hi <= |k.data| && Split.IsPiece(k, lo, hi, r)
    ensures Carries(k, lo, hi, r)
  {
  }

  /** A piece carries its slice, soundly. */
  lemma PieceItem(k: Packet4, lo: nat, hi: nat, r: Packet4) returns (it: Item)
    requires WellFormed(k) && lo <= hi <= |k.data| && Split.IsPiece(k, lo, hi, r)
    ensures IsItem(k, it) && Sound(it.x) && it.w == Wire4(r) && it.lo == lo && it.hi == hi
    ensures it.x == r
  {
    PieceCarries(k, lo, hi, r);
    ReadPrefix(r, Wire4(r));
    it := Item(Wire4(r), r, lo, hi);
  }

  /** The original itself carries all of it. */
  lemma OriginalItem(k: Packet4, raw: bytes) returns (it: Item)
    requires WellFormed(k) && Read4(raw) == Ok(k)
    ensures IsItem(k, it) && it.x == k && it.w == raw && it.lo == 0 && it.hi == |k.data|
  {
    Split.NoAdvance(SeqNo(k));
    it := Item(raw, k, 0, |k.data|);
  }

  /** A decoy carries what its template does, so it cannot change the stream even if it is accepted. */
  lemma DecoyItem(k: Packet4, t: Item, ttl: byte, d: Packet4, w: bytes) returns (it: Item)
    requires WellFormed(k) && IsItem(k, t) && Fake.IsDecoy(t.x, ttl, d) && Wire4(d) <= w
    ensures IsItem(k, it) && it.w == w && it.lo == t.lo && it.hi == t.hi && it.x == d
  {
    assert Be32(d.tcp, 4) == Be32(t.x.tcp, 4);
    ReadPrefix(d, w);
    it := Item(w, d, t.lo, t.hi);
  }

  // ---- fragments ----

  lemma ReadFragment(k: Packet4, flags: u16, lo: nat, hi: nat, w: bytes)
    requires WellFormed(k) && lo <= hi <= |k.tcp| + |k.data| && Fragment.IsFragment(k, flags, lo, hi, w)
    requires flags % 0x4000 != 0
    ensures Read4(w).Err?
    ensures ReadFrag(w) == Some(Frag(w[..|k.ip|], flags % 0x2000 * 8, flags / 0x2000 % 2 == 1, (k.tcp + k.data)[lo..hi]))
  {
    var ihl := |k.ip|;
    assert w[..ihl][0] == w[0] == k.ip[0];
    HeaderByte(k.ip);
    assert w[ihl..|w|] == w[ihl..];
  }

  lemma HeaderByte(h: bytes)
    requires VersionAndLength(h)
    ensures h[0] / 16 == 4 && h[0] as int % 16 * 4 == |h|
  {
  }

  lemma WholeHeaderFields(k: Packet4, h: bytes, total: u16)
    requires WellFormed(k) && SameHeader(k.ip, h, {2, 3, 6, 7, 10, 11})
    ensures var h' := WholeHeader(h, total);
      && VersionAndLength(h') && Whole(h') && h'[9] == IPPROTO_TCP && Be16(h', 2) == total && |h'| == |h|
      && h'[12..16] == k.ip[12..16] && h'[16..20] == k.ip[16..20]
  {
    var h1 := Put16(h, 2, total);
    var h' := Put16(h1, 6, 0);
    assert Be16(h', 2) == Be16(h1, 2);
    assert Be16(h', 6) == 0;
  }

  lemma WholeIsRead(k: Packet4, h': bytes) returns (k': Packet4)
    requires WellFormed(k) && |h'| == |k.ip|
    requires VersionAndLength(h') && Whole(h') && h'[9] == IPPROTO_TCP && Be16(h', 2) == |h'| + |k.tcp| + |k.data|
    requires h'[12..16] == k.ip[12..16] && h'[16..20] == k.ip[16..20]
    ensures Read4(h' + (k.tcp + k.data)) == Ok(k')
    ensures WellFormed(k') && k'.tcp == k.tcp && k'.data == k.data && (TcpVerifies(k') <==> TcpVerifies(k))
  {
    k' := Packet4(h', k.tcp, k.data);
    ReadWire(k', []);
    assert Wire4(k') + [] == h' + (k.tcp + k.data);
  }

  lemma JoinedIs(h: bytes, body: bytes, h': bytes, k': Packet4)
    requires 20 <= |h| && |h| + |body| <= MAX_DATAGRAM && h' == WholeHeader(h, |h| + |body|) && Read4(h' + body) == Ok(k')
    ensures Joined(h, body) == Some(k')
  {
  }

  /** A rebuilt datagram carries the whole payload, under a TCP checksum that is as right as the
      original's. */
  lemma RebuiltPacket(k: Packet4, h: bytes) returns (k': Packet4)
    requires WellFormed(k) && SameHeader(k.ip, h, {2, 3, 6, 7, 10, 11})
    ensures Joined(h, k.tcp + k.data) == Some(k')
    ensures WellFormed(k') && k'.tcp == k.tcp && k'.data == k.data && (TcpVerifies(k') <==> TcpVerifies(k))
  {
    var body := k.tcp + k.data;
    var h' := WholeHeader(h, |h| + |body|);
    WholeHeaderFields(k, h, |h| + |body|);
    k' := WholeIsRead(k, h');
    JoinedIs(h, body, h', k');
  }

  lemma TwoFragments(a: Frag, b: Frag)
    requires a.offset == 0 && a.more && b.offset == |a.body| > 0 && !b.more
    requires SameDatagram(a, b)
    ensures Rebuild(Mine([a], a, true)) == None && Mine([], a, false) == []
    ensures Mine([a] + [b], b, true) == [a, b] && Mine([a], b, false) == []
    ensures At([a, b], 0) == Some(a) && Chain([a, b], 0, |[a, b]|) == Some(a.body + b.body)
  {
    TheirOwn(a, b);
    OneIsNotAll(a);
    assert [a, b][1..] == [b] && [b][1..] == [];
    assert At([a, b], |a.body|) == Some(b) by {
      assert At([b], |a.body|) == Some(b);
    }
  }

  lemma TheirOwn(a: Frag, b: Frag)
    requires SameDatagram(a, b)
    ensures Mine([a], a, true) == [a] && Mine([], a, false) == []
    ensures Mine([a] + [b], b, true) == [a, b] && Mine([a], b, false) == []
  {
    assert [a][1..] == [] && [a, b][1..] == [b] && [b][1..] == [];
    assert SameDatagram(a, a) && SameDatagram(b, b);
    assert [a] + [b] == [a, b];
    assert Mine([b], b, true) == [b] + Mine([], b, true);
  }

  lemma OneIsNotAll(a: Frag)
    requires a.offset == 0 && a.more && |a.body| > 0
    ensures Rebuild([a]) == None
  {
    assert [a][1..] == [];
    assert At([a], |a.body|) == None;
  }

  lemma ReceiveShort(h: Host, w1: bytes, w2: bytes, checks: bool)
    ensures ReceiveAll(h, [w1], checks) == Receive(h, w1, checks)
    ensures ReceiveAll(h, [w1, w2], checks) == Receive(Receive(h, w1, checks), w2, checks)
  {
    assert [w1][1..] == [] && [w1, w2][1..] == [w2] && [w2][1..] == [];
    var h1 := Receive(h, w1, checks);
    var h2 := Receive(h1, w2, checks);
    assert ReceiveAll(h1, [], checks) == h1 && ReceiveAll(h2, [], checks) == h2;
    assert ReceiveAll(h1, [w2], checks) == h2;
  }

  /** Both fragments of a datagram, and nothing less, do to a host what the packet does, provided the TCP
      checksum it was sent with is right or is not checked. */
  lemma FragmentsArrive(k: Packet4, f: nat, w1: bytes, w2: bytes, checks: bool)
    requires WellFormed(k) && 0 < f < |k.tcp| + |k.data| && f % 8 == 0
    requires Fragment.IsFragment(k, 0x2000, 0, f, w1)
    requires Fragment.IsFragment(k, f / 8, f, |k.tcp| + |k.data|, w2)
    ensures ReceiveAll(Awaiting(k), [w1, w2], checks).conn == if checks ==> TcpVerifies(k) then LeftBy(k) else Expecting(k)
    ensures ReceiveAll(Awaiting(k), [w1], checks).conn == Expecting(k)
  {
    ReceiveShort(Awaiting(k), w1, w2, checks);
    FragmentsReceived(Expecting(k), k, f, w1, w2, checks);
  }

  lemma FragmentsReceived(c: Conn, k: Packet4, f: nat, w1: bytes, w2: bytes, checks: bool)
    requires WellFormed(k) && 0 < f < |k.tcp| + |k.data| && f % 8 == 0
    requires Fragment.IsFragment(k, 0x2000, 0, f, w1)
    requires Fragment.IsFragment(k, f / 8, f, |k.tcp| + |k.data|, w2)
    ensures Receive(Host([], c), w1, checks).conn == c
    ensures Receive(Receive(Host([], c), w1, checks), w2, checks).conn == if checks ==> TcpVerifies(k) then Take(c, k) else c
  {
    var a, b := PairOf(k, f, w1, w2);
    var k' := RebuiltPacket(k, a.ip);
    ReceivePair(c, a, b, k', k.tcp + k.data, checks);
    SameSegment(c, k, k');
    IsFrag(Host([], c), w1, a, checks);
    IsFrag(Host([a], c), w2, b, checks);
  }

  lemma SameSegment(c: Conn, k: Packet4, k': Packet4)
    requires WellFormed(k) && WellFormed(k') && k'.tcp == k.tcp && k'.data == k.data
    ensures Take(c, k') == Take(c, k)
  {
  }

  lemma IsFrag(h: Host, w: bytes, f: Frag, checks: bool)
    requires Read4(w).Err? && ReadFrag(w) == Some(f) && Verifies(f.ip)
    ensures Receive(h, w, checks) == ReceiveFrag(h, f, checks)
  {
  }

  /** What the host reads off the two fragments. */
  lemma PairOf(k: Packet4, f: nat, w1: bytes, w2: bytes) returns (a: Frag, b: Frag)
    requires WellFormed(k) && 0 < f < |k.tcp| + |k.data| && f % 8 == 0
    requires Fragment.IsFragment(k, 0x2000, 0, f, w1)
    requires Fragment.IsFragment(k, f / 8, f, |k.tcp| + |k.data|, w2)
    ensures Read4(w1).Err? && Read4(w2).Err? && ReadFrag(w1) == Some(a) && ReadFrag(w2) == Some(b)
    ensures a.offset == 0 && a.more && b.offset == |a.body| > 0 && !b.more
    ensures SameDatagram(a, b) && a.body + b.body == k.tcp + k.data
    ensures SameHeader(k.ip, a.ip, {2, 3, 6, 7, 10, 11}) && Verifies(a.ip) && Verifies(b.ip)
  {
    var all := k.tcp + k.data;
    UnitsOf(f);
    ReadFragment(k, 0x2000, 0, f, w1);
    ReadFragment(k, f / 8, f, |all|, w2);
    a, b := Frag(w1[..|k.ip|], 0, true, all[0..f]), Frag(w2[..|k.ip|], f, false, all[f..|all|]);
    assert all[0..f] + all[f..|all|] == all;
    OfOneDatagram(k, a, b);
  }

  lemma UnitsOf(f: nat)
    requires 0 < f < 0x1_0000 && f % 8 == 0
    ensures f / 8 < 0x2000 && f / 8 % 0x4000 != 0 && f / 8 % 0x2000 * 8 == f && f / 8 / 0x2000 % 2 == 0
  {
  }

  lemma OfOneDatagram(k: Packet4, a: Frag, b: Frag)
    requires 20 <= |k.ip| && SameHeader(k.ip, a.ip, {2, 3, 6, 7, 10, 11}) && SameHeader(k.ip, b.ip, {2, 3, 6, 7, 10, 11})
    ensures SameDatagram(a, b)
  {
  }

  lemma ReceivePair(c: Conn, a: Frag, b: Frag, k': Packet4, all: bytes, checks: bool)
    requires a.offset == 0 && a.more && b.offset == |a.body| > 0 && !b.more
    requires SameDatagram(a, b) && a.body + b.body == all
    requires Joined(a.ip, all) == Some(k')
    ensures ReceiveFrag(Host([], c), a, checks) == Host([a], c)
    ensures ReceiveFrag(Host([a], c), b, checks) == Host([], AcceptTcp(c, k', checks))
  {
    TwoFragments(a, b);
    assert [] + [a] == [a];
    assert Rebuild([a, b]) == Joined(a.ip, all);
  }
}
