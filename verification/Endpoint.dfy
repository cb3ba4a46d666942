/** The receiving side of one TCP connection, by section 3.10.7 of RFC 9293: where it begins, which text it
    takes, where it ends and what resets it. Text is kept by its place in the stream. */
module Endpoint {
  import opened Bytes
  import opened Packet

  // ---- the control bits ----

  predicate Fin(k: Packet4)
    requires WellFormed(k)
  {
    k.tcp[13] % 2 == 1
  }

  predicate Syn(k: Packet4)
    requires WellFormed(k)
  {
    k.tcp[13] / 2 % 2 == 1
  }

  predicate Rst(k: Packet4)
    requires WellFormed(k)
  {
    k.tcp[13] / 4 % 2 == 1
  }

  predicate Ack(k: Packet4)
    requires WellFormed(k)
  {
    k.tcp[13] / 16 % 2 == 1
  }

  // ---- the connection ----

  /** The sequence number of the stream's first byte, unknown to a listening host; the bytes held, by
      their places; the first place at which a segment ends the stream; and whether it was reset. */
  datatype Conn = Conn(base: Option<u32>, have: map<nat, byte>, fin: Option<nat>, reset: bool)

  /** How far a sequence number is ahead of `base`, modulo 2^32. */
  function Ahead(base: u32, s: u32): (r: nat)
  {
    (s - base) as int % 0x1_0000_0000
  }

  function ByteAt(d: bytes, off: nat, j: nat): byte
    requires off <= j < off + |d|
  {
    d[j - off]
  }

  /** A segment's bytes at their places; bytes already there stay. */
  function Place(have: map<nat, byte>, d: bytes, off: nat): (r: map<nat, byte>)
  {
    (map j: nat | off <= j < off + |d| :: ByteAt(d, off, j)) + have
  }

  function Upto(have: map<nat, byte>, n: nat): (r: map<nat, byte>)
  {
    map j | j in have && j < n :: have[j]
  }

  /** All bytes before the place are there. */
  predicate InOrder(have: map<nat, byte>, n: nat)
  {
    forall j: nat :: j < n ==> j in have
  }

  /** The end of the stream is reached: nothing after it is taken. */
  predicate Ended(c: Conn)
  {
    c.fin.Some? && InOrder(c.have, c.fin.value)
  }

  function Least(a: Option<nat>, n: nat): (r: nat)
  {
    if a.Some? && a.value < n then a.value else n
  }

  /** A segment's text at its place, then its FIN, unless the stream has gone past it. What waited
      beyond an end that is reached is dropped. */
  function TakeText(c: Conn, d: bytes, off: nat, fin: bool): (r: Conn)
  {
    var have, end := Place(c.have, d, off), off + |d|;
    var c' := c.(have := have, fin := if fin && !InOrder(c.have, end + 1) then Some(Least(c.fin, end)) else c.fin);
    if Ended(c') then c'.(have := Upto(have, c'.fin.value)) else c'
  }

  /** One segment. A listening host takes a SYN alone, without ACK or RST. Otherwise an RST counts exactly
      at the number expected next, and a SYN, or no ACK, makes the host refuse the segment. */
  function Take(c: Conn, x: Packet4): (r: Conn)
    requires WellFormed(x)
  {
    if c.reset || Ended(c) then c
    else if c.base.None? then
      if Syn(x) && !Rst(x) && !Ack(x) then TakeText(c.(base := Some(SeqPlus(SeqNo(x), 1))), x.data, 0, Fin(x)) else c
    else
      var off := Ahead(c.base.value, SeqNo(x));
      if Rst(x) then c.(reset := c.reset || (InOrder(c.have, off) && off !in c.have))
      else if Syn(x) || !Ack(x) then c
      else TakeText(c, x.data, off, Fin(x))
  }

  /** A host for which `k` is the next segment: it listens if `k` is to open the connection. */
  function Expecting(k: Packet4): (c: Conn)
    requires WellFormed(k)
  {
    Conn(if Syn(k) then None else Some(SeqNo(k)), map[], None, false)
  }

  /** What `k` leaves such a host with. */
  function LeftBy(k: Packet4): (c: Conn)
    requires WellFormed(k)
  {
    Take(Expecting(k), k)
  }

  function Payload(k: Packet4): (r: map<nat, byte>)
  {
    map j: nat | j < |k.data| :: k.data[j]
  }

  /** What the control bits of a segment make it do. */
  datatype Effect = Nothing | Opening | Resetting | Ending | Carrying

  function EffectOf(k: Packet4): (e: Effect)
    requires WellFormed(k)
  {
    if Syn(k) then if Rst(k) || Ack(k) then Nothing else Opening
    else if Rst(k) then Resetting
    else if !Ack(k) then Nothing
    else if Fin(k) then Ending
    else Carrying
  }

  /** So `k` leaves its payload, and its end if it has one, or a reset, or nothing. */
  lemma LeftByIs(k: Packet4)
    requires WellFormed(k)
    ensures match EffectOf(k)
      case Nothing => LeftBy(k) == Expecting(k)
      case Resetting => LeftBy(k) == Expecting(k).(reset := true)
      case Opening => LeftBy(k) == Conn(Some(SeqPlus(SeqNo(k), 1)), Payload(k), if Fin(k) then Some(|k.data|) else None, false)
      case Ending => LeftBy(k) == Conn(Some(SeqNo(k)), Payload(k), Some(|k.data|), false)
      case Carrying => LeftBy(k) == Conn(Some(SeqNo(k)), Payload(k), None, false)
  {
    TextAll(Expecting(k).(base := LeftBy(k).base), k, Fin(k));
    AheadOfSelf(SeqNo(k), 0);
  }

  /** Text at the start of an empty stream. */
  lemma TextAll(c: Conn, k: Packet4, fin: bool)
    requires c.have == map[] && c.fin.None?
    ensures TakeText(c, k.data, 0, fin) == c.(have := Payload(k), fin := if fin then Some(|k.data|) else None)
  {
    PlaceAll(k);
    assert !InOrder(c.have, |k.data| + 1) by {
      assert 0 !in c.have;
    }
  }

  lemma PlaceAll(k: Packet4)
    ensures Place(map[], k.data, 0) == Payload(k)
    ensures InOrder(Payload(k), |k.data|) && Upto(Payload(k), |k.data|) == Payload(k)
  {
  }

  // ---- slices of the payload ----

  /** `have` holds only bytes of the payload of `k`, at their places. */
  ghost predicate PartOf(have: map<nat, byte>, k: Packet4)
  {
    forall j :: j in have ==> j < |k.data| && have[j] == k.data[j]
  }

  /** `x` carries payload bytes lo..hi of `k` at their sequence number, under the same control bits. */
  predicate Carries(k: Packet4, lo: nat, hi: nat, x: Packet4)
    requires WellFormed(k) && lo <= hi <= |k.data|
  {
    WellFormed(x) && x.data == k.data[lo..hi] && SeqNo(x) == SeqPlus(SeqNo(k), lo) && x.tcp[13] == k.tcp[13]
  }

  lemma AheadOfSelf(s: u32, n: nat)
    requires n < 0x1_0000_0000
    ensures Ahead(s, SeqPlus(s, n)) == n
  {
  }

  lemma PayloadShort(k: Packet4)
    requires WellFormed(k)
    ensures |k.data| <= MAX_DATAGRAM
  {
  }

  lemma SameBits(k: Packet4, lo: nat, hi: nat, x: Packet4)
    requires WellFormed(k) && lo <= hi <= |k.data| && Carries(k, lo, hi, x)
    ensures (Fin(x) <==> Fin(k)) && (Syn(x) <==> Syn(k)) && (Rst(x) <==> Rst(k)) && (Ack(x) <==> Ack(k))
    ensures Ahead(SeqNo(k), SeqNo(x)) == lo
  {
    PayloadShort(k);
    AheadOfSelf(SeqNo(k), lo);
  }

  lemma PlaceSlice(have: map<nat, byte>, k: Packet4, lo: nat, hi: nat)
    requires lo <= hi <= |k.data| && PartOf(have, k)
    ensures var have' := Place(have, k.data[lo..hi], lo);
      PartOf(have', k) && forall j: nat :: j in have' <==> j in have || lo <= j < hi
  {
  }

  /** All of the payload held is exactly the payload. */
  lemma IsPayload(have: map<nat, byte>, k: Packet4)
    requires PartOf(have, k)
    ensures have == Payload(k) <==> forall j: nat :: j < |k.data| ==> j in have
  {
    if have == Payload(k) {
      assert forall j: nat :: j < |k.data| ==> j in Payload(k);
    }
  }

  // ---- one slice ----

  lemma TakeNothing(c: Conn, k: Packet4, lo: nat, hi: nat, x: Packet4)
    requires WellFormed(k) && lo <= hi <= |k.data| && Carries(k, lo, hi, x)
    requires EffectOf(k) == Nothing && c == Expecting(k)
    ensures Take(c, x) == c
  {
    SameBits(k, lo, hi, x);
  }

  lemma TakeReset(c: Conn, k: Packet4, lo: nat, hi: nat, x: Packet4)
    requires WellFormed(k) && lo <= hi <= |k.data| && Carries(k, lo, hi, x)
    requires EffectOf(k) == Resetting && c == Expecting(k)
    ensures Take(c, x) == if lo == 0 then LeftBy(k) else c
  {
    SameBits(k, lo, hi, x);
    LeftByIs(k);
    assert lo > 0 ==> !InOrder(c.have, lo) by {
      assert 0 !in c.have;
    }
  }

  /** The first SYN makes the connection: only a whole one makes the right one. */
  lemma TakeOpening(c: Conn, k: Packet4, lo: nat, hi: nat, x: Packet4)
    requires WellFormed(k) && lo <= hi <= |k.data| && Carries(k, lo, hi, x)
    requires EffectOf(k) == Opening && c == Expecting(k)
    ensures Take(c, x).base.Some? && (Take(c, x) == LeftBy(k) <==> lo == 0 && hi == |k.data|)
  {
    SameBits(k, lo, hi, x);
    LeftByIs(k);
    TextAll(c.(base := Some(SeqPlus(SeqNo(x), 1))), x, Fin(x));
    if Payload(x) == Payload(k) {
      SamePayload(x, k);
    }
    PayloadShort(k);
    NextOf(SeqNo(k), lo);
    assert lo == 0 && hi == |k.data| ==> x.data == k.data;
  }

  lemma NextOf(s: u32, n: nat)
    requires n < 0x1_0000_0000
    ensures SeqPlus(SeqPlus(s, n), 1) == SeqPlus(s, 1) <==> n == 0
  {
  }

  lemma SamePayload(x: Packet4, k: Packet4)
    requires Payload(x) == Payload(k)
    ensures x.data == k.data
  {
    assert forall j: nat :: j in Payload(x) <==> j < |x.data|;
    assert forall j: nat :: j in Payload(k) <==> j < |k.data|;
    assert |x.data| !in Payload(x) && |k.data| !in Payload(k);
    assert forall j :: 0 <= j < |x.data| ==> x.data[j] == Payload(x)[j];
  }

  /** Behind it, any other is refused. */
  lemma TakeOpened(c: Conn, k: Packet4, lo: nat, hi: nat, x: Packet4)
    requires WellFormed(k) && lo <= hi <= |k.data| && Carries(k, lo, hi, x)
    requires EffectOf(k) == Opening && c.base.Some?
    ensures Take(c, x) == c
  {
    SameBits(k, lo, hi, x);
  }

  ghost predicate Midway(c: Conn, k: Packet4)
    requires WellFormed(k)
  {
    c.base == Some(SeqNo(k)) && !c.reset && PartOf(c.have, k)
  }

  /** A slice of a segment that only carries text is put at its place. */
  lemma TakeSlice(c: Conn, k: Packet4, lo: nat, hi: nat, x: Packet4)
    requires WellFormed(k) && lo <= hi <= |k.data| && Carries(k, lo, hi, x)
    requires EffectOf(k) == Carrying && Midway(c, k) && c.fin.None?
    ensures var c' := Take(c, x);
      Midway(c', k) && c'.fin.None? && forall j: nat :: j in c'.have <==> j in c.have || lo <= j < hi
  {
    SameBits(k, lo, hi, x);
    PlaceSlice(c.have, k, lo, hi);
  }

  /** The first byte is still missing, and no place seen for the end is before it. */
  ghost predicate Headless(c: Conn, k: Packet4)
    requires WellFormed(k)
  {
    Midway(c, k) && 0 !in c.have && (c.fin.Some? ==> 0 < c.fin.value <= |k.data|)
  }

  /** A slice of a segment that ends the stream: with the first byte it ends the stream at the first
      place seen for that, without it waits. */
  lemma TakeEnding(c: Conn, k: Packet4, lo: nat, hi: nat, x: Packet4)
    requires WellFormed(k) && lo <= hi <= |k.data| && Carries(k, lo, hi, x)
    requires EffectOf(k) == Ending && Headless(c, k)
    ensures var c' := Take(c, x);
      if lo == 0 then c' == Conn(Some(SeqNo(k)), Upto(Payload(k), Least(c.fin, hi)), Some(Least(c.fin, hi)), false) && Ended(c')
      else Headless(c', k) && c'.fin == Some(Least(c.fin, hi))
  {
    SameBits(k, lo, hi, x);
    PlaceSlice(c.have, k, lo, hi);
    assert !InOrder(c.have, hi + 1);
    var have := Place(c.have, x.data, lo);
    if lo == 0 {
      UptoIs(have, k, Least(c.fin, hi));
    }
  }

  lemma UptoIs(have: map<nat, byte>, k: Packet4, n: nat)
    requires PartOf(have, k) && InOrder(have, n) && n <= |k.data|
    ensures Upto(have, n) == Upto(Payload(k), n) && InOrder(Upto(have, n), n)
  {
  }
}
