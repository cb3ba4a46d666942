/** src/transparent/policy.c: the learned decisions, host cooldowns and direct-bad marks. */
module Decisions {
  import opened Bytes
  import opened Strategies
  import opened Plan

  const DECISION_TTL: int := 24 * 3600
  const DECISIONS_MAX: nat := 2048
  const DOMAIN_MAX: nat := 256
  const COOLDOWN_SECONDS: int := 60
  const COOLDOWN_MAX: nat := 64
  const DIRECT_BAD_TTL: int := 3600
  const DIRECT_BAD_MAX: nat := 128
  const UNKNOWN_NETWORK: nat := 0

  // ---- hosts compare without case ----

  function LowerChar(c: char): char
  {
    if 'A' <= c <= 'Z' then (c as int + 32) as char else c
  }

  function Lower(s: string): (r: string)
  {
    if |s| == 0 then "" else [LowerChar(s[0])] + Lower(s[1..])
  }

  /** The same character, or the two cases of one letter. */
  predicate SameLetter(a: char, b: char)
  {
    a == b || ('A' <= a <= 'Z' && b as int == a as int + 32) || ('A' <= b <= 'Z' && a as int == b as int + 32)
  }

  /** Hosts are told apart by everything but the case of their letters. */
  lemma FoldsCase(a: string, b: string)
    ensures Lower(a) == Lower(b) <==> |a| == |b| && forall i :: 0 <= i < |a| ==> SameLetter(a[i], b[i])
  {
    LowerAt(a);
    LowerAt(b);
    SameAt(Lower(a), Lower(b));
    if |a| == |b| {
      forall i | 0 <= i < |a|
        ensures Lower(a)[i] == Lower(b)[i] <==> SameLetter(a[i], b[i])
      {
        LowerLetter(a[i], b[i]);
      }
    }
  }

  lemma LowerLetter(x: char, y: char)
    ensures LowerChar(x) == LowerChar(y) <==> SameLetter(x, y)
  {
  }

  lemma SameAt<T>(s: seq<T>, t: seq<T>)
    ensures s == t <==> |s| == |t| && forall i :: 0 <= i < |s| ==> s[i] == t[i]
  {
  }

  lemma {:induction false} LowerAt(s: string)
    ensures |Lower(s)| == |s| && forall i :: 0 <= i < |s| ==> Lower(s)[i] == LowerChar(s[i])
  {
    if |s| > 0 {
      LowerAt(s[1..]);
      assert forall i :: 0 < i < |s| ==> Lower(s)[i] == Lower(s[1..])[i - 1];
    }
  }

  /** A decision is about a host (case-folded), on a network, for an address family. */
  datatype Key = Key(host: string, fp: nat, family: nat)

  datatype Decision = Decision(host: string, fp: nat, family: nat, step: Step, at: int)

  function KeyOf(d: Decision): Key
  {
    Key(Lower(d.host), d.fp, d.family)
  }

  datatype Stored = Stored(step: Step, at: int)

  type Table = map<Key, Stored>

  predicate UniqueKeys(es: seq<Decision>)
  {
    forall i, j :: 0 <= i < j < |es| ==> KeyOf(es[i]) != KeyOf(es[j])
  }

  /** The finite map that the array of decisions stands for. */
  ghost function Contents(es: seq<Decision>): (m: Table)
    requires UniqueKeys(es)
  {
    map i: int | 0 <= i < |es| :: KeyOf(es[i]) := Stored(es[i].step, es[i].at)
  }

  lemma InContents(es: seq<Decision>, i: nat)
    requires UniqueKeys(es) && i < |es|
    ensures KeyOf(es[i]) in Contents(es) && Contents(es)[KeyOf(es[i])] == Stored(es[i].step, es[i].at)
  {
  }

  lemma IndexOf(es: seq<Decision>, k: Key) returns (i: nat)
    requires UniqueKeys(es) && k in Contents(es)
    ensures i < |es| && KeyOf(es[i]) == k
  {
    i :| 0 <= i < |es| && KeyOf(es[i]) == k;
  }

  /** Removing by moving the last entry into the hole removes exactly that key. */
  function Removed(es: seq<Decision>, i: nat): (r: seq<Decision>)
    requires i < |es|
  {
    es[i := es[|es| - 1]][..|es| - 1]
  }

  lemma RemovedContents(es: seq<Decision>, i: nat)
    requires UniqueKeys(es) && i < |es|
    ensures UniqueKeys(Removed(es, i)) && Contents(Removed(es, i)) == Contents(es) - {KeyOf(es[i])}
  {
    RemovedUnique(es, i);
    RemovedOnly(es, i);
    RemovedKeeps(es, i);
    assert Contents(Removed(es, i)).Keys == Contents(es).Keys - {KeyOf(es[i])};
  }

  lemma RemovedUnique(es: seq<Decision>, i: nat)
    requires UniqueKeys(es) && i < |es|
    ensures UniqueKeys(Removed(es, i))
    ensures forall j :: 0 <= j < |es| - 1 ==> Removed(es, i)[j] == if j == i then es[|es| - 1] else es[j]
  {
  }

  lemma RemovedOnly(es: seq<Decision>, i: nat)
    requires UniqueKeys(es) && i < |es| && UniqueKeys(Removed(es, i))
    ensures forall k :: k in Contents(Removed(es, i)) ==> k in Contents(es) && k != KeyOf(es[i]) && Contents(Removed(es, i))[k] == Contents(es)[k]
  {
    var r := Removed(es, i);
    RemovedUnique(es, i);
    forall k | k in Contents(r)
      ensures k in Contents(es) && k != KeyOf(es[i]) && Contents(r)[k] == Contents(es)[k]
    {
      var j := IndexOf(r, k);
      InContents(r, j);
      InContents(es, if j == i then |es| - 1 else j);
    }
  }

  lemma RemovedKeeps(es: seq<Decision>, i: nat)
    requires UniqueKeys(es) && i < |es| && UniqueKeys(Removed(es, i))
    ensures forall k :: k in Contents(es) && k != KeyOf(es[i]) ==> k in Contents(Removed(es, i))
  {
    var r := Removed(es, i);
    RemovedUnique(es, i);
    forall k | k in Contents(es) && k != KeyOf(es[i])
      ensures k in Contents(r)
    {
      var j := IndexOf(es, k);
      InContents(r, if j == |es| - 1 then i else j);
    }
  }

  lemma AppendedContents(es: seq<Decision>, d: Decision)
    requires UniqueKeys(es) && KeyOf(d) !in Contents(es)
    ensures UniqueKeys(es + [d]) && Contents(es + [d]) == Contents(es)[KeyOf(d) := Stored(d.step, d.at)]
  {
    var r := es + [d];
    forall i | 0 <= i < |es|
      ensures KeyOf(r[i]) != KeyOf(d)
    {
      InContents(es, i);
    }
    var m, m' := Contents(es), Contents(r);
    InContents(r, |es|);
    forall k | k in m'
      ensures k == KeyOf(d) || (k in m && m'[k] == m[k])
    {
      var j := IndexOf(r, k);
      if j < |es| {
        InContents(es, j);
      }
    }
    forall k | k in m
      ensures k in m'
    {
      var j := IndexOf(es, k);
      InContents(r, j);
      assert r[j] == es[j];
    }
  }

  lemma ReplacedUnique(es: seq<Decision>, i: nat, d: Decision)
    requires UniqueKeys(es) && i < |es|
    requires KeyOf(d) == KeyOf(es[i]) || KeyOf(d) !in Contents(es)
    ensures UniqueKeys(es[i := d])
  {
    forall j | 0 <= j < |es| && j != i
      ensures KeyOf(es[j]) != KeyOf(d)
    {
      InContents(es, j);
    }
  }

  /** Overwriting slot i: its old key goes, the new one comes. */
  lemma ReplacedContents(es: seq<Decision>, i: nat, d: Decision)
    requires UniqueKeys(es) && i < |es|
    requires KeyOf(d) == KeyOf(es[i]) || KeyOf(d) !in Contents(es)
    ensures UniqueKeys(es[i := d])
    ensures Contents(es[i := d]) == (Contents(es) - {KeyOf(es[i])})[KeyOf(d) := Stored(d.step, d.at)]
  {
    ReplacedUnique(es, i, d);
    ReplacedOnly(es, i, d);
    ReplacedKeeps(es, i, d);
    Exchange(Contents(es), Contents(es[i := d]), KeyOf(es[i]), KeyOf(d), Stored(d.step, d.at));
  }

  lemma Exchange(m: Table, r: Table, gone: Key, come: Key, s: Stored)
    requires come in r && forall k :: k in m && k != gone ==> k in r
    requires forall k :: k in r ==> if k == come then r[k] == s else k in m && k != gone && r[k] == m[k]
    ensures r == (m - {gone})[come := s]
  {
  }

  lemma ReplacedOnly(es: seq<Decision>, i: nat, d: Decision)
    requires UniqueKeys(es) && i < |es| && UniqueKeys(es[i := d])
    ensures forall k :: k in Contents(es[i := d]) ==>
      if k == KeyOf(d) then Contents(es[i := d])[k] == Stored(d.step, d.at)
      else k in Contents(es) && k != KeyOf(es[i]) && Contents(es[i := d])[k] == Contents(es)[k]
  {
    var r := es[i := d];
    forall k | k in Contents(r)
      ensures if k == KeyOf(d) then Contents(r)[k] == Stored(d.step, d.at)
              else k in Contents(es) && k != KeyOf(es[i]) && Contents(r)[k] == Contents(es)[k]
    {
      var j := IndexOf(r, k);
      InContents(r, j);
      InContents(r, i);
      InContents(es, j);
    }
  }

  lemma ReplacedKeeps(es: seq<Decision>, i: nat, d: Decision)
    requires UniqueKeys(es) && i < |es| && UniqueKeys(es[i := d])
    ensures KeyOf(d) in Contents(es[i := d])
    ensures forall k :: k in Contents(es) && k != KeyOf(es[i]) ==> k in Contents(es[i := d])
  {
    var r := es[i := d];
    InContents(r, i);
    forall k | k in Contents(es) && k != KeyOf(es[i])
      ensures k in Contents(r)
    {
      var j := IndexOf(es, k);
      InContents(r, j);
    }
  }

  lemma PutBack(m: Table, k: Key, s: Stored)
    ensures (m - {k})[k := s] == m[k := s]
  {
  }

  // ---- what the operations do to the map ----

  predicate IsFresh(s: Stored, fp: nat, now: int)
  {
    fp != UNKNOWN_NETWORK && s.at <= now && now - s.at < DECISION_TTL
  }

  function LookupIn(m: Table, k: Key, now: int): (r: Option<Step>)
  {
    if k in m && IsFresh(m[k], k.fp, now) then Some(m[k].step) else None
  }

  /** A confirmation that would only refresh a recent identical decision is not written. */
  predicate Throttled(m: Table, k: Key, now: int, step: Step)
  {
    k in m && IsFresh(m[k], k.fp, now) && m[k].step == step && now - m[k].at < DECISION_TTL / 2
  }

  /** The least recently validated decision. */
  ghost predicate Oldest(m: Table, v: Key)
  {
    v in m && forall k :: k in m ==> m[v].at <= m[k].at
  }

  /** What recording that `step` worked may do: direct forgets the key; a throttled confirmation
      changes nothing; anything else is stored under the key, a new key possibly in place of the
      least recently validated one, or not at all when memory ran out with the table still empty. */
  ghost predicate Succeeded(m: Table, k: Key, now: int, step: Step, m': Table)
  {
    if step == DIRECT then m' == m - {k}
    else if Throttled(m, k, now, step) then m' == m
    else if k in m then m' == m[k := Stored(step, now)]
    else
      || m' == m[k := Stored(step, now)]
      || (m == map[] && m' == m)
      || exists v :: Oldest(m, v) && m' == (m - {v})[k := Stored(step, now)]
  }

  /** The three ways a new key can go. */
  lemma NothingStored(m: Table, k: Key, now: int, step: Step)
    requires k !in m && step != DIRECT
    ensures m == map[] ==> Succeeded(m, k, now, step, m)
  {
  }

  lemma StoredNew(m: Table, k: Key, now: int, step: Step)
    requires k !in m && step != DIRECT
    ensures Succeeded(m, k, now, step, m[k := Stored(step, now)])
  {
  }

  lemma StoredOver(m: Table, v: Key, k: Key, now: int, step: Step)
    requires k !in m && step != DIRECT && Oldest(m, v)
    ensures Succeeded(m, k, now, step, (m - {v})[k := Stored(step, now)])
  {
  }

  // ---- bounded tables of things that hold until a time ----

  datatype Slot<K> = Free | Until(key: K, until: int)

  predicate UniqueSlots<K(==)>(ss: seq<Slot<K>>)
  {
    forall i, j :: 0 <= i < j < |ss| && ss[i].Until? && ss[j].Until? ==> ss[i].key != ss[j].key
  }

  predicate Open<K>(s: Slot<K>, now: int)
  {
    s.Free? || s.until <= now
  }

  /** The slot for a key: its own, else the first free or expired one, else the first to expire. */
  ghost predicate SlotFor<K>(ss: seq<Slot<K>>, key: K, now: int, slot: nat)
  {
    && slot < |ss|
    && ((ss[slot].Until? && ss[slot].key == key)
        || ((forall i :: 0 <= i < |ss| && ss[i].Until? ==> ss[i].key != key)
            && if Open(ss[slot], now) then forall i :: 0 <= i < slot ==> !Open(ss[i], now) else SoonestOf(ss, now, slot)))
  }

  ghost predicate SoonestOf<K>(ss: seq<Slot<K>>, now: int, slot: nat)
    requires slot < |ss|
  {
    && (forall i :: 0 <= i < |ss| ==> !Open(ss[i], now))
    && (forall i :: 0 <= i < |ss| ==> ss[slot].until <= ss[i].until)
    && forall i :: 0 <= i < slot ==> ss[slot].until < ss[i].until
  }

  /** Only the slot for the key changes. */
  ghost predicate IsSet<K>(before: seq<Slot<K>>, key: K, now: int, s: Slot<K>, after: seq<Slot<K>>)
  {
    exists slot: nat :: SlotFor(before, key, now, slot) && after == before[slot := s]
  }

  // ---- what the slots say ----

  /** The key holds at time `t`. */
  ghost predicate Holds<K>(ss: seq<Slot<K>>, key: K, t: int)
  {
    exists i :: 0 <= i < |ss| && ss[i].Until? && ss[i].key == key && ss[i].until > t
  }

  /** No slot has to give way to the key: it has one, or one is free or expired. */
  ghost predicate HasRoom<K>(ss: seq<Slot<K>>, key: K, now: int)
  {
    exists i :: 0 <= i < |ss| && (ss[i].Free? || ss[i].until <= now || ss[i].key == key)
  }

  /** From now on the key holds exactly until that time. No other key begins to hold; from now on none
      ceases to when there is room, and else only one that would have been the first to. */
  ghost predicate Begins<K(!new)>(before: seq<Slot<K>>, key: K, now: int, until: int, after: seq<Slot<K>>)
  {
    && (forall t: int :: Holds(after, key, t) <==> t < until)
    && (forall k: K, t: int :: k != key && Holds(after, k, t) ==> Holds(before, k, t))
    && (HasRoom(before, key, now) ==>
          forall k: K, t: int :: k != key && t >= now && Holds(before, k, t) ==> Holds(after, k, t))
    && (!HasRoom(before, key, now) ==>
          exists lost :: 0 <= lost < |before| && before[lost].Until? && (forall i :: 0 <= i < |before| && before[i].Until? ==> before[lost].until <= before[i].until)
            && forall k: K, t: int :: k != key && k != before[lost].key && Holds(before, k, t) ==> Holds(after, k, t))
  }

  lemma SetBegins<K(!new)>(before: seq<Slot<K>>, key: K, now: int, until: int, after: seq<Slot<K>>)
    requires UniqueSlots(before) && IsSet(before, key, now, Until(key, until), after)
    ensures Begins(before, key, now, until, after)
  {
    var slot: nat :| SlotFor(before, key, now, slot) && after == before[slot := Until(key, until)];
    assert forall i :: 0 <= i < |after| && i != slot && after[i].Until? ==> before[i] == after[i] && after[i].key != key;
    forall t: int
      ensures Holds(after, key, t) <==> t < until
    {
      assert after[slot] == Until(key, until);
    }
    forall k: K, t: int | k != key
      ensures Holds(after, k, t) ==> Holds(before, k, t)
      ensures Holds(before, k, t) && !(before[slot].Until? && before[slot].key == k && before[slot].until > t) ==> Holds(after, k, t)
    {
      SetOthers(before, slot, key, until, after, k, t);
    }
    if !HasRoom(before, key, now) {
      assert !Open(before[slot], now) && before[slot].key != key;
    }
  }

  ghost predicate IsCleared<K>(before: seq<Slot<K>>, key: K, after: seq<Slot<K>>)
  {
    |after| == |before| && forall i :: 0 <= i < |before| ==> after[i] == if before[i].Until? && before[i].key == key then Free else before[i]
  }

  lemma ClearEnds<K(!new)>(before: seq<Slot<K>>, key: K, after: seq<Slot<K>>)
    requires IsCleared(before, key, after)
    ensures forall k: K, t: int :: Holds(after, k, t) <==> k != key && Holds(before, k, t)
  {
    forall k: K, t: int
      ensures Holds(after, k, t) <==> k != key && Holds(before, k, t)
    {
      if Holds(after, k, t) {
        var i :| 0 <= i < |after| && after[i].Until? && after[i].key == k && after[i].until > t;
        assert before[i] == after[i];
      }
      if k != key && Holds(before, k, t) {
        var i :| 0 <= i < |before| && before[i].Until? && before[i].key == k && before[i].until > t;
        assert after[i] == before[i];
      }
    }
  }

  lemma SetOthers<K>(before: seq<Slot<K>>, slot: nat, key: K, until: int, after: seq<Slot<K>>, k: K, t: int)
    requires slot < |before| && after == before[slot := Until(key, until)] && k != key
    ensures Holds(after, k, t) ==> Holds(before, k, t)
    ensures Holds(before, k, t) && !(before[slot].Until? && before[slot].key == k && before[slot].until > t) ==> Holds(after, k, t)
  {
    if Holds(after, k, t) {
      var i :| 0 <= i < |after| && after[i].Until? && after[i].key == k && after[i].until > t;
      assert before[i] == after[i];
    }
    if Holds(before, k, t) {
      var i :| 0 <= i < |before| && before[i].Until? && before[i].key == k && before[i].until > t;
      assert i != slot ==> after[i] == before[i];
    }
  }

  /** Cooldowns and direct-bad marks: a key is found in at most one slot. */
  class TimedSlots<K(==)> {
    const slots: array<Slot<K>>

    ghost predicate Valid()
      reads slots
    {
      slots.Length > 0 && UniqueSlots(slots[..])
    }

    constructor (n: nat)
      requires n > 0
      ensures Valid() && fresh(slots) && slots.Length == n
      ensures forall i :: 0 <= i < slots.Length ==> slots[i] == Free
    {
      slots := new Slot<K>[n](i => Free);
    }

    method Find(key: K) returns (r: Option<nat>)
      requires Valid()
      ensures r.Some? ==> r.value < slots.Length && slots[r.value].Until? && slots[r.value].key == key
      ensures r.None? ==> forall i :: 0 <= i < slots.Length && slots[i].Until? ==> slots[i].key != key
    {
      var i := 0;
      while i < slots.Length
        invariant i <= slots.Length
        invariant forall j :: 0 <= j < i && slots[j].Until? ==> slots[j].key != key
      {
        if slots[i].Until? && slots[i].key == key {
          return Some(i);
        }
        i := i + 1;
      }
      return None;
    }

    method Choose(key: K, now: int) returns (slot: nat)
      requires Valid()
      ensures SlotFor(slots[..], key, now, slot)
    {
      var own := Find(key);
      if own.Some? {
        return own.value;
      }
      var i := 0;
      while i < slots.Length
        invariant i <= slots.Length
        invariant forall j :: 0 <= j < i ==> !Open(slots[j], now)
      {
        if slots[i].Free? || slots[i].until <= now {
          return i;
        }
        i := i + 1;
      }
      slot := 0;
      i := 1;
      while i < slots.Length
        invariant 1 <= i <= slots.Length && slot < i
        invariant forall j :: 0 <= j < i ==> slots[slot].until <= slots[j].until
        invariant forall j :: 0 <= j < slot ==> slots[slot].until < slots[j].until
      {
        if slots[i].until < slots[slot].until {
          slot := i;
        }
        i := i + 1;
      }
    }

    /** What the slot for the key is to hold: the key for some time, or nothing. */
    method Set(key: K, now: int, s: Slot<K>)
      requires Valid() && (s.Until? ==> s.key == key)
      modifies slots
      ensures Valid() && IsSet(old(slots[..]), key, now, s, slots[..])
    {
      var slot := Choose(key, now);
      ghost var before := slots[..];
      slots[slot] := s;
      assert slots[..] == before[slot := s];
    }

    method Clear(key: K)
      requires Valid()
      modifies slots
      ensures Valid()
      ensures IsCleared(old(slots[..]), key, slots[..])
    {
      var own := Find(key);
      if own.Some? {
        slots[own.value] := Free;
      }
    }

    method ClearAll()
      modifies slots
      ensures forall j :: 0 <= j < slots.Length ==> slots[j] == Free
    {
      var i := 0;
      while i < slots.Length
        invariant i <= slots.Length
        invariant forall j :: 0 <= j < i ==> slots[j] == Free
      {
        slots[i] := Free;
        i := i + 1;
      }
    }

    /** The key holds now exactly when some slot says so. */
    method HoldsNow(key: K, now: int) returns (r: bool)
      requires Valid()
      ensures r <==> Holds(slots[..], key, now)
    {
      var own := Find(key);
      r := own.Some? && slots[own.value].until > now;
    }
  }

  // ---- the decision store ----

  class Store {
    var entries: seq<Decision>
    var cap: nat
    var dirty: bool
    const cooldown: TimedSlots<string>
    const directBad: TimedSlots<Key>

    /** Unique keys; never a direct step, an unknown network or an overlong host; bounded. */
    ghost predicate Valid()
      reads this, cooldown.slots, directBad.slots
    {
      && UniqueKeys(entries)
      && |entries| <= cap <= DECISIONS_MAX
      && (forall d :: d in entries ==> d.step != DIRECT && d.fp != UNKNOWN_NETWORK && |d.host| < DOMAIN_MAX)
      && cooldown.Valid() && directBad.Valid() && cooldown.slots as object != directBad.slots as object
    }

    ghost function Table(): (m: Table)
      reads this
      requires UniqueKeys(entries)
    {
      Contents(entries)
    }

    constructor ()
      ensures Valid() && fresh(cooldown.slots) && fresh(directBad.slots)
      ensures entries == [] && !dirty
    {
      entries, cap, dirty := [], 0, false;
      cooldown := new TimedSlots<string>(COOLDOWN_MAX);
      directBad := new TimedSlots<Key>(DIRECT_BAD_MAX);
    }

    method Find(host: string, fp: nat, family: nat) returns (r: Option<nat>)
      requires Valid()
      ensures r.Some? ==> r.value < |entries| && KeyOf(entries[r.value]) == Key(Lower(host), fp, family)
      ensures r.None? <==> Key(Lower(host), fp, family) !in Table()
    {
      var i := 0;
      while i < |entries|
        invariant i <= |entries|
        invariant forall j :: 0 <= j < i ==> KeyOf(entries[j]) != Key(Lower(host), fp, family)
      {
        if entries[i].fp == fp && entries[i].family == family && Lower(entries[i].host) == Lower(host) {
          InContents(entries, i);
          return Some(i);
        }
        i := i + 1;
      }
      return None;
    }

    /** tp_decision_lookup */
    method Lookup(host: string, fp: nat, family: nat, now: int) returns (r: Option<Step>)
      requires Valid()
      ensures r == LookupIn(Table(), Key(Lower(host), fp, family), now)
    {
      var i := Find(host, fp, family);
      if i.None? {
        return None;
      }
      InContents(entries, i.value);
      var e := entries[i.value];
      if fp != UNKNOWN_NETWORK && e.fp == fp && now >= e.at && now - e.at < DECISION_TTL {
        r := Some(e.step);
      } else {
        r := None;
      }
    }

    method RemoveEntry(i: nat)
      requires Valid() && i < |entries|
      modifies `entries, `dirty
      ensures Valid() && Table() == old(Table()) - {old(KeyOf(entries[i]))} && dirty
    {
      RemovedContents(entries, i);
      var last := entries[|entries| - 1];
      assert last in entries;
      entries := entries[i := last][..|entries| - 1];
      dirty := true;
    }

    /** The place for a decision with a new key: behind the others while there is room or the array
        can grow (doubling from 16), otherwise that of the least recently validated. */
    method NewSlot(canGrow: bool) returns (r: Option<nat>)
      requires Valid()
      modifies `cap
      ensures Valid() && cap == CapAfter(|entries|, old(cap), canGrow)
      ensures r.Some? ==> r.value <= |entries| && (r.value < |entries| ==> FirstOldest(entries, r.value))
      ensures Appends(|entries|, old(cap), canGrow) ==> r == Some(|entries|) && |entries| < cap
      ensures !Appends(|entries|, old(cap), canGrow) ==> if entries == [] then r == None else r.Some? && r.value < |entries|
    {
      if |entries| < cap {
        return Some(|entries|);
      }
      if cap < DECISIONS_MAX {
        var grown := if cap > 0 then cap * 2 else 16;
        if grown > DECISIONS_MAX {
          grown := DECISIONS_MAX;
        }
        if canGrow {
          cap := grown;
          return Some(|entries|);
        }
        if |entries| == 0 {
          return None;
        }
      }
      var oldest, i := 0, 1;
      while i < |entries|
        invariant 1 <= i && oldest < i && oldest < |entries|
        invariant forall j :: 0 <= j < i && j < |entries| ==> entries[oldest].at <= entries[j].at
        invariant forall j :: 0 <= j < oldest ==> entries[oldest].at < entries[j].at
      {
        if entries[i].at < entries[oldest].at {
          oldest := i;
        }
        i := i + 1;
      }
      return Some(oldest);
    }

    /** The decision written where it belongs: over the slot, or behind the last one. */
    method PutAt(i: nat, d: Decision)
      requires Valid() && i <= |entries| && (i == |entries| ==> |entries| < cap)
      requires d.step != DIRECT && d.fp != UNKNOWN_NETWORK && |d.host| < DOMAIN_MAX
      requires KeyOf(d) !in Table() || (i < |entries| && KeyOf(d) == KeyOf(entries[i]))
      modifies `entries
      ensures Valid() && entries == if i < old(|entries|) then old(entries)[i := d] else old(entries) + [d]
      ensures Table() == (if i < old(|entries|) then old(Table()) - {old(KeyOf(entries[i]))} else old(Table()))
                           [KeyOf(d) := Stored(d.step, d.at)]
    {
      if i < |entries| {
        ReplacedContents(entries, i, d);
        entries := entries[i := d];
      } else {
        AppendedContents(entries, d);
        entries := entries + [d];
      }
    }

    /** tp_decision_success */
    method Success(host: string, fp: nat, family: nat, now: int, step: Step, canGrow: bool)
      requires Valid()
      modifies this, cooldown.slots
      ensures Valid()
      ensures IsCleared(old(cooldown.slots[..]), Lower(host), cooldown.slots[..])
      ensures forall k: string, t: int :: Holds(cooldown.slots[..], k, t) <==> k != Lower(host) && Holds(old(cooldown.slots[..]), k, t)
      ensures if fp == UNKNOWN_NETWORK || |host| >= DOMAIN_MAX then Table() == old(Table())
              else Succeeded(old(Table()), Key(Lower(host), fp, family), now, step, Table())
      ensures Table() != old(Table()) ==> dirty
    {
      ghost var before := cooldown.slots[..];
      cooldown.Clear(Lower(host));
      ClearEnds(before, Lower(host), cooldown.slots[..]);
      if fp == UNKNOWN_NETWORK || |host| >= DOMAIN_MAX {
        return;
      }
      var e := Find(host, fp, family);
      if step == DIRECT {
        Forget(host, fp, family);
      } else if e.Some? {
        Update(e.value, Key(Lower(host), fp, family), now, step);
      } else {
        Insert(Decision(host, fp, family, step, now), canGrow);
      }
    }

    /** A known key: rewritten unless that would only refresh it early. */
    method Update(i: nat, ghost k: Key, now: int, step: Step)
      requires Valid() && step != DIRECT && i < |entries| && KeyOf(entries[i]) == k
      modifies `entries, `dirty
      ensures Valid() && Succeeded(old(Table()), k, now, step, Table())
      ensures Table() != old(Table()) ==> dirty
    {
      ghost var m := Table();
      InContents(entries, i);
      var d := entries[i];
      assert d in entries;
      if now >= d.at && now - d.at < DECISION_TTL && d.step == step && now - d.at < DECISION_TTL / 2 {
        return;
      }
      PutAt(i, d.(step := step, at := now));
      PutBack(m, k, Stored(step, now));
      dirty := true;
    }

    /** A new key: stored in a new slot, if there is one. */
    method Insert(d: Decision, canGrow: bool)
      requires Valid() && d.step != DIRECT && d.fp != UNKNOWN_NETWORK && |d.host| < DOMAIN_MAX
      requires KeyOf(d) !in Table()
      modifies `entries, `cap, `dirty
      ensures Valid() && Succeeded(old(Table()), KeyOf(d), d.at, d.step, Table())
      ensures Table() != old(Table()) ==> dirty
    {
      ghost var m := Table();
      var slot := NewSlot(canGrow);
      if slot.None? {
        NothingStored(m, KeyOf(d), d.at, d.step);
        return;
      }
      InsertAt(slot.value, d);
    }

    method InsertAt(i: nat, d: Decision)
      requires Valid() && d.step != DIRECT && d.fp != UNKNOWN_NETWORK && |d.host| < DOMAIN_MAX && KeyOf(d) !in Table()
      requires i <= |entries| && (if i < |entries| then FirstOldest(entries, i) else |entries| < cap)
      modifies `entries, `dirty
      ensures Valid() && dirty && Succeeded(old(Table()), KeyOf(d), d.at, d.step, Table())
    {
      ghost var m := Table();
      if i < |entries| {
        OldestEntry(entries, i);
        StoredOver(m, KeyOf(entries[i]), KeyOf(d), d.at, d.step);
      } else {
        StoredNew(m, KeyOf(d), d.at, d.step);
      }
      PutAt(i, d);
      dirty := true;
    }

    /** tp_decision_failure. A host that fits gets its cooldown; an empty one blanks the slot. */
    method Failure(host: string, fp: nat, family: nat, now: int)
      requires Valid()
      modifies this, cooldown.slots
      ensures Valid()
      ensures Table() == old(Table()) - {Key(Lower(host), fp, family)}
      ensures if |host| >= DOMAIN_MAX then cooldown.slots[..] == old(cooldown.slots[..])
              else if host == "" then IsSet(old(cooldown.slots[..]), Lower(host), now, Free, cooldown.slots[..])
              else IsSet(old(cooldown.slots[..]), Lower(host), now, Until(Lower(host), now + 60), cooldown.slots[..])
                   && Begins(old(cooldown.slots[..]), Lower(host), now, now + 60, cooldown.slots[..])
    {
      if |host| < DOMAIN_MAX {
        ghost var before := cooldown.slots[..];
        cooldown.Set(Lower(host), now, if host == "" then Free else Until(Lower(host), now + COOLDOWN_SECONDS));
        if host != "" {
          SetBegins(before, Lower(host), now, now + 60, cooldown.slots[..]);
        }
      }
      Forget(host, fp, family);
    }

    method Forget(host: string, fp: nat, family: nat)
      requires Valid()
      modifies `entries, `dirty
      ensures Valid() && Table() == old(Table()) - {Key(Lower(host), fp, family)}
      ensures Table() != old(Table()) ==> dirty
    {
      var e := Find(host, fp, family);
      if e.Some? {
        RemoveEntry(e.value);
      } else {
        assert Table() - {Key(Lower(host), fp, family)} == Table();
      }
    }

    /** tp_in_cooldown */
    method InCooldown(host: string, now: int) returns (r: bool)
      requires Valid()
      ensures r <==> Holds(cooldown.slots[..], Lower(host), now)
    {
      r := cooldown.HoldsNow(Lower(host), now);
    }

    /** tp_direct_bad_mark */
    method MarkDirectBad(host: string, fp: nat, family: nat, now: int)
      requires Valid()
      modifies directBad.slots
      ensures Valid()
      ensures var k := Key(Lower(host), fp, family);
        if fp == UNKNOWN_NETWORK || |host| >= DOMAIN_MAX then directBad.slots[..] == old(directBad.slots[..])
        else if host == "" then IsSet(old(directBad.slots[..]), k, now, Free, directBad.slots[..])
        else IsSet(old(directBad.slots[..]), k, now, Until(k, now + 3600), directBad.slots[..])
             && Begins(old(directBad.slots[..]), k, now, now + 3600, directBad.slots[..])
    {
      if fp == UNKNOWN_NETWORK || |host| >= DOMAIN_MAX {
        return;
      }
      var k := Key(Lower(host), fp, family);
      ghost var before := directBad.slots[..];
      directBad.Set(k, now, if host == "" then Free else Until(k, now + DIRECT_BAD_TTL));
      if host != "" {
        SetBegins(before, k, now, now + 3600, directBad.slots[..]);
      }
    }

    /** tp_direct_bad */
    method DirectBad(host: string, fp: nat, family: nat, now: int) returns (r: bool)
      requires Valid()
      ensures r <==> fp != UNKNOWN_NETWORK && Holds(directBad.slots[..], Key(Lower(host), fp, family), now)
    {
      if fp == UNKNOWN_NETWORK {
        return false;
      }
      r := directBad.HoldsNow(Key(Lower(host), fp, family), now);
    }

    /** tp_decisions_network_changed: cooldowns and marks go, decisions stay. */
    method NetworkChanged()
      requires Valid()
      modifies cooldown.slots, directBad.slots
      ensures Valid()
      ensures forall j :: 0 <= j < cooldown.slots.Length ==> cooldown.slots[j] == Free
      ensures forall j :: 0 <= j < directBad.slots.Length ==> directBad.slots[j] == Free
    {
      cooldown.ClearAll();
      directBad.ClearAll();
    }
  }

  /** There is room for one more, or the array can be grown. */
  predicate Appends(n: nat, cap: nat, canGrow: bool)
  {
    n < cap || (cap < DECISIONS_MAX && canGrow)
  }

  /** The array doubles from 16 up to the limit, when it is full and memory allows. */
  function CapAfter(n: nat, cap: nat, canGrow: bool): (r: nat)
  {
    if n < cap || cap >= DECISIONS_MAX || !canGrow then cap
    else if cap == 0 then 16
    else if cap * 2 > DECISIONS_MAX then DECISIONS_MAX
    else cap * 2
  }

  /** The first of the least recently validated. */
  ghost predicate FirstOldest(es: seq<Decision>, i: nat)
    requires i < |es|
  {
    (forall j :: 0 <= j < |es| ==> es[i].at <= es[j].at) && forall j :: 0 <= j < i ==> es[i].at < es[j].at
  }

  lemma OldestEntry(es: seq<Decision>, i: nat)
    requires UniqueKeys(es) && i < |es| && forall j :: 0 <= j < |es| ==> es[i].at <= es[j].at
    ensures Oldest(Contents(es), KeyOf(es[i]))
  {
    InContents(es, i);
    forall k | k in Contents(es)
      ensures Contents(es)[KeyOf(es[i])].at <= Contents(es)[k].at
    {
      var j := IndexOf(es, k);
      InContents(es, j);
    }
  }

  // ---- runs of the store ----

  /** An operation on the map, at a time. */
  datatype Op = Worked(k: Key, now: int, step: Step) | Failed(k: Key, now: int)

  ghost predicate Does(m: Table, op: Op, m': Table)
  {
    match op
    case Worked(k, now, step) => k.fp != UNKNOWN_NETWORK && Succeeded(m, k, now, step, m')
    case Failed(k, now) => m' == m - {k}
  }

  /** States ms[0], ms[1], ... with operation ops[i] leading from ms[i] to ms[i + 1], under a clock
      that does not run backwards. */
  ghost predicate IsHistory(ms: seq<Table>, ops: seq<Op>)
  {
    && |ms| == |ops| + 1
    && (forall i :: 0 <= i < |ops| ==> Does(ms[i], ops[i], ms[i + 1]))
    && (forall i, j :: 0 <= i < j < |ops| ==> ops[i].now <= ops[j].now)
  }

  /** An operation on another key leaves a key that survives it as it was. */
  lemma OthersKept(m: Table, op: Op, m': Table, k: Key)
    requires Does(m, op, m') && op.k != k && k in m'
    ensures k in m && m'[k] == m[k]
  {
  }

  /** After a confirmation at time `t` the entry is at most half a lifetime older than `t`. */
  ghost predicate RecentEnough(m: Table, k: Key, step: Step, t: int, latest: int)
  {
    k in m && m[k].step == step && t - DECISION_TTL / 2 < m[k].at <= latest
  }

  lemma {:induction false} StaysRecent(ms: seq<Table>, ops: seq<Op>, i: nat, n: nat, k: Key, step: Step)
    requires IsHistory(ms, ops) && i < n <= |ops|
    requires ops[i] == Worked(k, ops[i].now, step) && step != DIRECT
    requires forall j :: i < j <= n ==> k in ms[j]
    requires forall j :: i < j < n && ops[j].k == k ==> ops[j] == Worked(k, ops[j].now, step)
    ensures RecentEnough(ms[n], k, step, ops[i].now, ops[n - 1].now)
    decreases n
  {
    if n - 1 > i {
      StaysRecent(ms, ops, i, n - 1, k, step);
      assert Does(ms[n - 1], ops[n - 1], ms[n - 1 + 1]);
      assert ops[n - 2].now <= ops[n - 1].now;
      if ops[n - 1].k != k {
        OthersKept(ms[n - 1], ops[n - 1], ms[n], k);
      }
    } else {
      assert Does(ms[i], ops[i], ms[i + 1]);
    }
  }

  /** Despite the refresh throttle: a step confirmed at time t is what every lookup finds up to half
      a lifetime later, unless the key was evicted, failed or was replaced in between. */
  lemma ConfirmedIsFound(ms: seq<Table>, ops: seq<Op>, i: nat, k: Key, step: Step, now: int)
    requires IsHistory(ms, ops) && i < |ops|
    requires ops[i] == Worked(k, ops[i].now, step) && step != DIRECT
    requires forall j :: i < j <= |ops| ==> k in ms[j]
    requires forall j :: i < j < |ops| && ops[j].k == k ==> ops[j] == Worked(k, ops[j].now, step)
    requires ops[|ops| - 1].now <= now <= ops[i].now + 12 * 3600
    ensures LookupIn(ms[|ops|], k, now) == Some(step)
  {
    StaysRecent(ms, ops, i, |ops|, k, step);
    assert Does(ms[i], ops[i], ms[i + 1]);
  }

  /** Every entry comes from the start or from a confirmation of that very step at that very time. */
  lemma {:induction false} EntryHasSource(ms: seq<Table>, ops: seq<Op>, n: nat, k: Key)
    requires IsHistory(ms, ops) && n <= |ops| && k in ms[n]
    ensures (k in ms[0] && ms[n][k] == ms[0][k])
         || exists i :: 0 <= i < n && ops[i] == Worked(k, ms[n][k].at, ms[n][k].step)
    decreases n
  {
    if n > 0 {
      assert Does(ms[n - 1], ops[n - 1], ms[n - 1 + 1]);
      if ops[n - 1].k != k {
        OthersKept(ms[n - 1], ops[n - 1], ms[n], k);
        EntryHasSource(ms, ops, n - 1, k);
      } else if k in ms[n - 1] && ms[n][k] == ms[n - 1][k] {
        EntryHasSource(ms, ops, n - 1, k);
      } else {
        assert ops[n - 1] == Worked(k, ms[n][k].at, ms[n][k].step);
      }
    }
  }

  /** A lookup never answers with a step whose confirmation is a lifetime old or older. */
  lemma NothingStaleIsFound(ms: seq<Table>, ops: seq<Op>, k: Key, now: int)
    requires IsHistory(ms, ops) && k !in ms[0] && LookupIn(ms[|ops|], k, now).Some?
    ensures exists i :: 0 <= i < |ops| && ops[i] == Worked(k, ops[i].now, LookupIn(ms[|ops|], k, now).value)
                        && ops[i].now <= now < ops[i].now + 24 * 3600
  {
    EntryHasSource(ms, ops, |ops|, k);
  }
}
