/** src/dns/dns.c: the resolver's bounded cache, against the record of everything servers have said. */
module DnsCache {
  import opened Bytes
  import opened DnsName
  import opened DnsQuery
  import opened DnsReply
  import opened DnsTransport

  const CACHE_SIZE: nat := 256
  const TTL_MIN: u32 := 30
  const NEGATIVE_TTL: u32 := 30

  datatype Entry = Entry(name: bytes, qtype: u16, status: Status, answer: Answer, expires: int, lastUsed: int)

  const BLANK := Entry([], 0, Ok, Answer([], 0), 0, 0)

  predicate Empty(e: Entry)
  {
    |e.name| == 0
  }

  predicate Answers(e: Entry, name: bytes, qtype: u16)
  {
    !Empty(e) && e.qtype == qtype && Lower(e.name) == Lower(name)
  }

  /** One entry per name and type, letter case aside. */
  ghost predicate Unique(c: seq<Entry>)
  {
    forall i, j :: 0 <= i < |c| && 0 <= j < |c| && i != j ==> !Answers(c[i], c[j].name, c[j].qtype)
  }

  /** A reply taken from a server at a time, with the question it was asked and what it came to. */
  datatype Said = Said(who: nat, server: nat, id: u16, asked: bytes, qtype: u16, reply: bytes, status: Status, answer: Answer, at: int)

  /** The reply, read as an answer to that question, says just that. */
  ghost predicate Genuine(s: Said)
  {
    UsableStatus(s.status) && Parse(s.reply, s.id, s.asked, s.qtype) == (s.status, s.answer)
  }

  /** What was taken on someone's behalf, in order. */
  ghost function SaidTo(said: seq<Said>, who: nat): (r: seq<Said>)
  {
    if |said| == 0 then []
    else SaidTo(said[..|said| - 1], who) + if said[|said| - 1].who == who then [said[|said| - 1]] else []
  }

  lemma SaidToMore(said: seq<Said>, s: Said, who: nat)
    ensures SaidTo(said + [s], who) == if s.who == who then SaidTo(said, who) + [s] else SaidTo(said, who)
  {
    assert (said + [s])[..|said|] == said;
  }

  function Latest(said: seq<Said>, name: bytes, qtype: u16): (r: Option<Said>)
  {
    if |said| == 0 then None
    else
      var s := said[|said| - 1];
      if Lower(s.asked) == name && s.qtype == qtype then Some(s) else Latest(said[..|said| - 1], name, qtype)
  }

  lemma {:induction false} LatestWasSaid(said: seq<Said>, name: bytes, qtype: u16)
    requires Latest(said, name, qtype).Some?
    ensures Latest(said, name, qtype).value in said
    ensures Lower(Latest(said, name, qtype).value.asked) == name && Latest(said, name, qtype).value.qtype == qtype
  {
    var n := |said| - 1;
    if !(Lower(said[n].asked) == name && said[n].qtype == qtype) {
      LatestWasSaid(said[..n], name, qtype);
    }
  }

  lemma LatestOfMore(said: seq<Said>, s: Said, name: bytes, qtype: u16)
    ensures Latest(said + [s], name, qtype) == if Lower(s.asked) == name && s.qtype == qtype then Some(s) else Latest(said, name, qtype)
  {
    assert (said + [s])[..|said|] == said;
  }

  /** How long an answer is kept. */
  function Kept(st: Status, a: Answer): (ttl: u32)
    ensures TTL_MIN <= ttl <= TTL_MAX
    ensures st == Ok && TTL_MIN <= a.ttl <= TTL_MAX ==> ttl == a.ttl
  {
    var ttl := if st == Ok then a.ttl else NEGATIVE_TTL;
    var low := if ttl < TTL_MIN then TTL_MIN else ttl;
    if low > TTL_MAX then TTL_MAX else low
  }

  /** What is served of it. */
  function Served(s: Said): (r: (Status, Answer))
  {
    (s.status, s.answer.(ttl := Kept(s.status, s.answer)))
  }

  function Until(s: Said): (t: int)
  {
    s.at + Kept(s.status, s.answer)
  }

  /** The entry is the latest that was said for its name and type. */
  ghost predicate Backed(e: Entry, said: seq<Said>)
  {
    var s := Latest(said, Lower(e.name), e.qtype);
    |e.name| < DNS_NAME_MAX && s.Some? && (e.status, e.answer) == Served(s.value) && e.expires == Until(s.value)
  }

  function NewEntry(name: bytes, qtype: u16, st: Status, a: Answer, now: int): (e: Entry)
  {
    Entry(name, qtype, st, a.(ttl := Kept(st, a)), now + Kept(st, a), now)
  }

  predicate Free(e: Entry, now: int)
  {
    Empty(e) || e.expires <= now
  }

  ghost predicate Absent(c: seq<Entry>, name: bytes, qtype: u16)
  {
    forall i :: 0 <= i < |c| ==> !Answers(c[i], name, qtype)
  }

  /** The entry for the name and type if there is one, else the first that is empty or expired, else
      the first of the least recently used. */
  ghost predicate RightSlot(c: seq<Entry>, name: bytes, qtype: u16, now: int, slot: nat)
  {
    && slot < |c|
    && (Answers(c[slot], name, qtype)
        || (Absent(c, name, qtype)
            && if Free(c[slot], now) then forall i :: 0 <= i < slot ==> !Free(c[i], now)
               else FirstOldest(c, slot) && forall i :: 0 <= i < |c| ==> !Free(c[i], now)))
  }

  ghost predicate FirstOldest(c: seq<Entry>, slot: nat)
    requires slot < |c|
  {
    (forall i :: 0 <= i < |c| ==> c[slot].lastUsed <= c[i].lastUsed) && forall i :: 0 <= i < slot ==> c[slot].lastUsed < c[i].lastUsed
  }

  /** Only the right slot changes, or nothing for a name too long. */
  ghost predicate StoredIn(c: seq<Entry>, name: bytes, qtype: u16, st: Status, a: Answer, now: int, d: seq<Entry>)
  {
    if |name| >= DNS_NAME_MAX then d == c
    else exists slot: nat :: RightSlot(c, name, qtype, now, slot) && d == c[slot := NewEntry(name, qtype, st, a, now)]
  }

  /** There is an entry for the name and type that has not run out. */
  ghost predicate InDate(c: seq<Entry>, name: bytes, qtype: u16, now: int)
  {
    exists i :: 0 <= i < |c| && Answers(c[i], name, qtype) && c[i].expires > now
  }

  /** Only the time the served entry was last used changes, and nothing on a miss. */
  ghost predicate Touched(c: seq<Entry>, name: bytes, qtype: u16, now: int, hit: bool, d: seq<Entry>)
  {
    if !hit then d == c
    else |d| == |c| && forall i :: 0 <= i < |c| ==> d[i] == if Answers(c[i], name, qtype) then c[i].(lastUsed := now) else c[i]
  }

  ghost predicate AllGenuine(said: seq<Said>)
  {
    forall i :: 0 <= i < |said| ==> Genuine(said[i])
  }

  class Cache {
    const entries: array<Entry>
    ghost var said: seq<Said>

    ghost predicate Valid()
      reads this, entries
    {
      && entries.Length == CACHE_SIZE
      && Unique(entries[..])
      && (forall i :: 0 <= i < CACHE_SIZE && !Empty(entries[i]) ==> Backed(entries[i], said))
      && AllGenuine(said)
    }

    constructor ()
      ensures Valid() && fresh(entries) && said == []
      ensures forall i :: 0 <= i < CACHE_SIZE ==> Empty(entries[i])
    {
      entries := new Entry[CACHE_SIZE](i => BLANK);
      said := [];
    }

    /** cache_find */
    method Find(name: bytes, qtype: u16) returns (i: Option<nat>)
      requires Valid()
      ensures i.Some? ==> i.value < CACHE_SIZE && Answers(entries[i.value], name, qtype)
      ensures i.None? ==> Absent(entries[..], name, qtype)
    {
      var j := 0;
      while j < CACHE_SIZE
        invariant j <= CACHE_SIZE && forall k :: 0 <= k < j ==> !Answers(entries[k], name, qtype)
      {
        if |entries[j].name| > 0 && entries[j].qtype == qtype && Lower(entries[j].name) == Lower(name) {
          return Some(j);
        }
        j := j + 1;
      }
      return None;
    }

    /** The part of a lookup that is under the lock before any server is asked. */
    method Fetch(name: bytes, qtype: u16, now: int) returns (hit: Option<(Status, Answer)>)
      requires Valid()
      modifies entries
      ensures Valid()
      ensures hit.Some? <==> old(InDate(entries[..], name, qtype, now))
      ensures hit.Some? ==> var s := Latest(said, Lower(name), qtype); s.Some? && hit.value == Served(s.value) && now < Until(s.value)
      ensures Touched(old(entries[..]), name, qtype, now, hit.Some?, entries[..])
    {
      var i := Find(name, qtype);
      if i.None? || entries[i.value].expires <= now {
        return None;
      }
      hit := Some((entries[i.value].status, entries[i.value].answer));
      entries[i.value] := entries[i.value].(lastUsed := now);
    }

    method FirstFree(now: int) returns (slot: nat)
      requires Valid()
      ensures slot <= CACHE_SIZE && forall i :: 0 <= i < slot ==> !Free(entries[i], now)
      ensures slot < CACHE_SIZE ==> Free(entries[slot], now)
    {
      slot := 0;
      while slot < CACHE_SIZE && |entries[slot].name| > 0 && entries[slot].expires > now
        invariant slot <= CACHE_SIZE && forall i :: 0 <= i < slot ==> !Free(entries[i], now)
      {
        slot := slot + 1;
      }
    }

    method LeastRecent() returns (slot: nat)
      requires Valid()
      ensures slot < CACHE_SIZE && FirstOldest(entries[..], slot)
    {
      slot := 0;
      var i := 1;
      while i < CACHE_SIZE
        invariant slot < i <= CACHE_SIZE
        invariant forall k :: 0 <= k < i ==> entries[slot].lastUsed <= entries[k].lastUsed
        invariant forall k :: 0 <= k < slot ==> entries[slot].lastUsed < entries[k].lastUsed
      {
        if entries[i].lastUsed < entries[slot].lastUsed {
          slot := i;
        }
        i := i + 1;
      }
    }

    method Slot(name: bytes, qtype: u16, now: int) returns (slot: nat)
      requires Valid()
      ensures RightSlot(entries[..], name, qtype, now, slot)
    {
      var i := Find(name, qtype);
      if i.Some? {
        return i.value;
      }
      slot := FirstFree(now);
      if slot == CACHE_SIZE {
        slot := LeastRecent();
      }
    }

    method MakeEntry(name: bytes, qtype: u16, st: Status, a: Answer, now: int) returns (e: Entry)
      ensures e == NewEntry(name, qtype, st, a, now)
    {
      var ttl := if st == Ok then a.ttl else NEGATIVE_TTL;
      if ttl < TTL_MIN {
        ttl := TTL_MIN;
      }
      if ttl > TTL_MAX {
        ttl := TTL_MAX;
      }
      e := Entry(name, qtype, st, a.(ttl := ttl), now + ttl, now);
    }

    /** cache_store: what was said goes on record, and into the right slot unless the name is too long. */
    method Store(name: bytes, qtype: u16, st: Status, a: Answer, now: int, ghost s: Said)
      requires Valid() && Genuine(s) && s == Said(s.who, s.server, s.id, name, qtype, s.reply, st, a, now)
      modifies this, entries
      ensures Valid() && said == old(said) + [s]
      ensures StoredIn(old(entries[..]), name, qtype, st, a, now, entries[..])
    {
      ghost var before := said;
      if |name| >= DNS_NAME_MAX {
        said := said + [s];
        StillBacked(entries[..], before, s);
        return;
      }
      var slot := Slot(name, qtype, now);
      ghost var c := entries[..];
      entries[slot] := MakeEntry(name, qtype, st, a, now);
      said := said + [s];
      assert entries[..] == c[slot := NewEntry(name, qtype, st, a, now)];
      StoredKeeps(c, before, s, slot);
    }
  }

  ghost predicate AllBacked(c: seq<Entry>, said: seq<Said>)
  {
    forall i :: 0 <= i < |c| && !Empty(c[i]) ==> Backed(c[i], said)
  }

  /** What is said of another name or type leaves an entry backed. */
  lemma StillBackedOne(e: Entry, said: seq<Said>, s: Said)
    requires Backed(e, said) && !(Lower(s.asked) == Lower(e.name) && s.qtype == e.qtype)
    ensures Backed(e, said + [s])
  {
    LatestOfMore(said, s, Lower(e.name), e.qtype);
  }

  lemma StillBacked(c: seq<Entry>, said: seq<Said>, s: Said)
    requires AllBacked(c, said) && |s.asked| >= DNS_NAME_MAX
    ensures AllBacked(c, said + [s])
  {
    forall i | 0 <= i < |c| && !Empty(c[i])
      ensures Backed(c[i], said + [s])
    {
      StillBackedOne(c[i], said, s);
    }
  }

  lemma StoredKeeps(c: seq<Entry>, said: seq<Said>, s: Said, slot: nat)
    requires Unique(c) && AllBacked(c, said) && |s.asked| < DNS_NAME_MAX && RightSlot(c, s.asked, s.qtype, s.at, slot)
    ensures var d := c[slot := NewEntry(s.asked, s.qtype, s.status, s.answer, s.at)];
      Unique(d) && AllBacked(d, said + [s])
  {
    var name, qtype := s.asked, s.qtype;
    var d := c[slot := NewEntry(name, qtype, s.status, s.answer, s.at)];
    forall i | 0 <= i < |c| && i != slot
      ensures !Answers(c[i], name, qtype)
    {
      if Answers(c[slot], name, qtype) {
        assert !Answers(c[i], c[slot].name, c[slot].qtype);
      }
    }
    forall i | 0 <= i < |d| && !Empty(d[i])
      ensures Backed(d[i], said + [s])
    {
      if i == slot {
        LatestOfMore(said, s, Lower(name), qtype);
      } else {
        StillBackedOne(c[i], said, s);
      }
    }
  }
}
