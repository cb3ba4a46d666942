/** src/flow/flow.c: the fixed-size table of flows, least recently seen evicted when full. */
module FlowTable {
  import opened Flow
  import opened Strategies

  /** One table slot; `chain` is meaningful once `decided`. */
  datatype Entry = Entry(inUse: bool, key: Key, flow: Flow, createdAt: int, lastSeen: int, decided: bool, chain: seq<Strategy>)

  const EMPTY: Entry := Entry(false, Key(0, [], [], 0, 0), FRESH, 0, 0, false, [])

  function Reset(key: Key, now: int): Entry
  {
    Entry(true, key, FRESH, now, now, false, [])
  }

  function CountInUse(s: seq<Entry>): (n: nat)
    ensures n <= |s|
  {
    if |s| == 0 then 0 else CountInUse(s[..|s| - 1]) + if s[|s| - 1].inUse then 1 else 0
  }

  lemma {:induction false} CountUpdate(s: seq<Entry>, i: nat, e: Entry)
    requires i < |s|
    ensures CountInUse(s[i := e]) == CountInUse(s) + (if e.inUse then 1 else 0) - (if s[i].inUse then 1 else 0)
  {
    if i == |s| - 1 {
      assert s[i := e][..|s| - 1] == s[..|s| - 1];
    } else {
      assert s[i := e][..|s| - 1] == s[..|s| - 1][i := e];
      CountUpdate(s[..|s| - 1], i, e);
    }
  }

  /** At most one live slot per key. */
  ghost predicate UniqueKeys(s: seq<Entry>)
  {
    forall i, j :: 0 <= i < j < |s| && s[i].inUse && s[j].inUse ==> s[i].key != s[j].key
  }

  ghost predicate Live(s: seq<Entry>, key: Key, i: nat)
  {
    i < |s| && s[i].inUse && s[i].key == key
  }

  class Table {
    const entries: array<Entry>
    var live: nat

    ghost predicate Valid()
      reads this, entries
    {
      entries.Length == TABLE_MAX && live == CountInUse(entries[..]) && UniqueKeys(entries[..])
    }

    constructor ()
      ensures Valid() && fresh(entries)
      ensures forall i :: 0 <= i < TABLE_MAX ==> !entries[i].inUse
    {
      entries := new Entry[TABLE_MAX](i => EMPTY);
      live := 0;
      new;
      NoneInUse(entries[..]);
    }

    /** find_free_or_oldest: a free slot if there is one, else the least recently seen. */
    method FindFreeOrOldest() returns (slot: nat)
      requires Valid()
      ensures slot < TABLE_MAX
      ensures entries[slot].inUse ==>
        forall j :: 0 <= j < TABLE_MAX ==> entries[j].inUse && entries[slot].lastSeen <= entries[j].lastSeen
    {
      var i := 0;
      while i < TABLE_MAX
        invariant i <= TABLE_MAX
        invariant forall j :: 0 <= j < i ==> entries[j].inUse
      {
        if !entries[i].inUse {
          return i;
        }
        i := i + 1;
      }
      slot := 0;
      i := 1;
      while i < TABLE_MAX
        invariant 1 <= i <= TABLE_MAX && slot < i
        invariant forall j :: 0 <= j < i ==> entries[slot].lastSeen <= entries[j].lastSeen
      {
        if entries[i].lastSeen < entries[slot].lastSeen {
          slot := i;
        }
        i := i + 1;
      }
    }

    /** flow_lookup_or_create: the one live flow of this key, or a fresh one in a free slot, or in
        place of the least recently seen flow; every other slot is untouched. */
    method LookupOrCreate(key: Key, now: int) returns (slot: nat)
      requires Valid()
      modifies this, entries
      ensures Valid() && slot < TABLE_MAX
      ensures forall j :: 0 <= j < TABLE_MAX && j != slot ==> entries[j] == old(entries[j])
      ensures entries[slot].inUse && entries[slot].key == key
      ensures old(exists k :: Live(entries[..], key, k)) ==>
        old(Live(entries[..], key, slot)) && entries[slot] == old(entries[slot]).(lastSeen := now)
      ensures old(forall k :: !Live(entries[..], key, k)) ==>
        && entries[slot] == Reset(key, now)
        && (old(entries[slot]).inUse ==> forall j :: 0 <= j < TABLE_MAX ==>
              old(entries[j]).inUse && old(entries[slot]).lastSeen <= old(entries[j]).lastSeen)
      ensures live == old(live) + if old(entries[slot]).inUse then 0 else 1
    {
      ghost var before := entries[..];
      var i := 0;
      while i < TABLE_MAX
        invariant i <= TABLE_MAX && entries[..] == before
        invariant forall j :: 0 <= j < i && before[j].inUse ==> before[j].key != key
      {
        if entries[i].inUse && entries[i].key == key {
          assert Live(before, key, i);
          Put(i, entries[i].(lastSeen := now));
          return i;
        }
        i := i + 1;
      }
      slot := FindFreeOrOldest();
      CountUpdate(before, slot, Reset(key, now));
      if !entries[slot].inUse {
        live := live + 1;
      }
      entries[slot] := Reset(key, now);
      assert entries[..] == before[slot := Reset(key, now)];
      assert forall j :: 0 <= j < TABLE_MAX ==> before[j] == old(entries[j]);
    }

    /** A live slot rewritten without changing its key. */
    method Put(slot: nat, e: Entry)
      requires Valid() && slot < TABLE_MAX && entries[slot].inUse
      requires e.inUse && e.key == entries[slot].key
      modifies entries
      ensures Valid() && entries[slot] == e
      ensures forall j :: 0 <= j < TABLE_MAX && j != slot ==> entries[j] == old(entries[j])
    {
      CountUpdate(entries[..], slot, e);
      ghost var before := entries[..];
      entries[slot] := e;
      assert entries[..] == before[slot := e];
    }

    /** flow_evict_expired: exactly the live flows not seen for longer than the timeout go. */
    method EvictExpired(now: int, timeout: int) returns (evicted: nat)
      requires Valid()
      modifies this, entries
      ensures Valid()
      ensures forall j :: 0 <= j < TABLE_MAX ==>
        entries[j] == if old(entries[j]).inUse && now - old(entries[j]).lastSeen > timeout then EMPTY else old(entries[j])
      ensures live + evicted == old(live)
    {
      evicted := 0;
      var i := 0;
      while i < TABLE_MAX
        invariant i <= TABLE_MAX && Valid() && live + evicted == old(live)
        invariant forall j :: 0 <= j < i ==>
          entries[j] == if old(entries[j]).inUse && now - old(entries[j]).lastSeen > timeout then EMPTY else old(entries[j])
        invariant forall j :: i <= j < TABLE_MAX ==> entries[j] == old(entries[j])
      {
        if entries[i].inUse && now - entries[i].lastSeen > timeout {
          Clear(i);
          evicted := evicted + 1;
        }
        i := i + 1;
      }
    }

    method Clear(slot: nat)
      requires Valid() && slot < TABLE_MAX && entries[slot].inUse
      modifies this, entries
      ensures Valid() && entries[slot] == EMPTY && live == old(live) - 1
      ensures forall j :: 0 <= j < TABLE_MAX && j != slot ==> entries[j] == old(entries[j])
    {
      CountUpdate(entries[..], slot, EMPTY);
      ghost var before := entries[..];
      entries[slot] := EMPTY;
      assert entries[..] == before[slot := EMPTY];
      live := live - 1;
    }
  }

  lemma {:induction false} NoneInUse(s: seq<Entry>)
    requires forall i :: 0 <= i < |s| ==> !s[i].inUse
    ensures CountInUse(s) == 0
  {
    if |s| > 0 {
      NoneInUse(s[..|s| - 1]);
    }
  }
}
