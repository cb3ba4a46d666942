/** src/dns/dns.c: dns_parse_response, the reader of a server's reply to one query. */
module DnsReply {
  import opened Bytes
  import opened DnsName

  const MAX_ADDRS: nat := 8
  const TTL_MAX: u32 := 3600
  const QTYPE_A: u16 := 1
  const QTYPE_AAAA: u16 := 28

  datatype Status = Ok | NoData | NxDomain | Timeout | Malformed | ServFail | AllFailed

  datatype Addr = Addr(family: nat, octets: bytes)

  datatype Answer = Answer(addrs: seq<Addr>, ttl: u32)

  // ---- a name in the answer section, skipped ----

  /** The place behind a name that may end in a compression pointer, or -1. */
  function SkipName(pkt: bytes, pos: nat, guard: nat): (r: int)
    ensures r == -1 || pos < r <= |pkt|
    decreases guard
  {
    if pos >= |pkt| || guard == 0 then -1
    else if pkt[pos] == 0 then pos + 1
    else if pkt[pos] >= 192 then if pos + 2 > |pkt| then -1 else pos + 2
    else if pkt[pos] >= 64 then -1
    else SkipName(pkt, pos + 1 + pkt[pos], guard - 1)
  }

  method SkipNameAt(pkt: bytes, start: nat) returns (r: int)
    ensures r == SkipName(pkt, start, 128)
  {
    var pos, guard := start, 0;
    while pos < |pkt| && guard < 128
      invariant start <= pos && guard <= 128
      invariant SkipName(pkt, start, 128) == SkipName(pkt, pos, 128 - guard)
      decreases 128 - guard
    {
      guard := guard + 1;
      if pkt[pos] == 0 {
        return pos + 1;
      }
      if pkt[pos] >= 192 {
        return if pos + 2 > |pkt| then -1 else pos + 2;
      }
      if pkt[pos] >= 64 {
        return -1;
      }
      pos := pos + 1 + pkt[pos];
    }
    return -1;
  }

  // ---- records ----

  /** A resource record; its name is labels closed by `end`, the root or a pointer. */
  datatype Record = Record(labels: seq<bytes>, end: bytes, rtype: u16, rclass: u16, ttl: u32, data: bytes)

  function Family(qtype: u16): nat
  {
    if qtype == QTYPE_A then 4 else 6
  }

  predicate Usable(qtype: u16, rtype: u16, size: nat)
  {
    rtype == qtype && ((qtype == QTYPE_A && size == 4) || (qtype == QTYPE_AAAA && size == 16))
  }

  function Used(a: Answer, qtype: u16, rtype: u16, ttl: u32, data: bytes): (r: Answer)
  {
    if |a.addrs| < MAX_ADDRS && Usable(qtype, rtype, |data|)
    then Answer(a.addrs + [Addr(Family(qtype), data)], if ttl < a.ttl then ttl else a.ttl)
    else a
  }

  /** The fixed fields at `f` and the data they announce lie within the packet. */
  predicate Whole(pkt: bytes, f: int)
  {
    0 <= f && f + 10 <= |pkt| && f + 10 + Be16(pkt, f + 8) <= |pkt|
  }

  function EndAt(pkt: bytes, f: int): (end: nat)
    requires Whole(pkt, f)
    ensures end <= |pkt|
  {
    f + 10 + Be16(pkt, f + 8)
  }

  function UsedAt(pkt: bytes, f: int, qtype: u16, a: Answer): (r: Answer)
    requires Whole(pkt, f)
  {
    Used(a, qtype, Be16(pkt, f), Be32(pkt, f + 4), pkt[f + 10..EndAt(pkt, f)])
  }

  /** The addresses gathered from `count` records that start at `pos`. */
  function ReadRecords(pkt: bytes, pos: nat, count: nat, qtype: u16, a: Answer): (r: Option<Answer>)
    decreases count
  {
    if count == 0 then Some(a)
    else
      var f := SkipName(pkt, pos, 128);
      if !Whole(pkt, f) then None else ReadRecords(pkt, EndAt(pkt, f), count - 1, qtype, UsedAt(pkt, f, qtype, a))
  }

  method ParseRecord(pkt: bytes, f: int, qtype: u16, a: Answer) returns (end: Option<nat>, b: Answer)
    ensures end.Some? <==> Whole(pkt, f)
    ensures end.Some? ==> end.value == EndAt(pkt, f) && b == UsedAt(pkt, f, qtype, a)
  {
    if f < 0 || f + 10 > |pkt| {
      return None, a;
    }
    var rtype, ttl, size: int := Be16(pkt, f), Be32(pkt, f + 4), Be16(pkt, f + 8);
    if f + 10 + size > |pkt| {
      return None, a;
    }
    return Some(f + 10 + size), Used(a, qtype, rtype, ttl, pkt[f + 10..f + 10 + size]);
  }

  method ParseRecords(pkt: bytes, start: nat, count: nat, qtype: u16) returns (r: Option<Answer>)
    ensures r == ReadRecords(pkt, start, count, qtype, Answer([], TTL_MAX))
  {
    var pos: nat, left: nat, a := start, count, Answer([], TTL_MAX);
    while left > 0
      invariant left <= count
      invariant ReadRecords(pkt, start, count, qtype, Answer([], TTL_MAX)) == ReadRecords(pkt, pos, left, qtype, a)
    {
      left := left - 1;
      var f := SkipNameAt(pkt, pos);
      var end;
      end, a := ParseRecord(pkt, f, qtype, a);
      if end.None? {
        return None;
      }
      pos := end.value;
    }
    return Some(a);
  }

  // ---- the whole reply ----

  /** The reply repeats our question, letter case aside. */
  predicate Asks(d: bytes, name: bytes, qtype: u16)
  {
    |d| >= |name| + 4 && Lower(d[..|name|]) == Lower(name) && Be16(d, |name|) == qtype && Be16(d, |name| + 2) == 1
  }

  predicate ReplyHeader(pkt: bytes, id: u16)
  {
    |pkt| >= 12 && Be16(pkt, 0) == id && pkt[2] >= 128 && pkt[2] / 2 % 2 == 0 && Be16(pkt, 4) == 1
  }

  /** What a reply to our question says, by its response code and its records. */
  function Says(rcode: nat, a: Option<Answer>): (r: (Status, Answer))
  {
    if rcode == 3 then (NxDomain, Answer([], TTL_MAX))
    else if rcode != 0 then (ServFail, Answer([], TTL_MAX))
    else if a.None? then (Malformed, Answer([], TTL_MAX))
    else if |a.value.addrs| == 0 then (NoData, a.value)
    else (Ok, a.value)
  }

  predicate Ours(pkt: bytes, id: u16, name: Option<bytes>, qtype: u16)
  {
    ReplyHeader(pkt, id) && name.Some? && Asks(pkt[12..], name.value, qtype)
  }

  function Parse(pkt: bytes, id: u16, name: bytes, qtype: u16): (r: (Status, Answer))
  {
    var enc := Encoding(name, 256);
    if !Ours(pkt, id, enc, qtype) then (Malformed, Answer([], TTL_MAX))
    else Says(pkt[3] % 16, ReadRecords(pkt, 12 + |enc.value| + 4, Be16(pkt, 6), qtype, Answer([], TTL_MAX)))
  }

  method SameLetters(pkt: bytes, pos: nat, enc: bytes) returns (same: bool)
    requires pos + |enc| <= |pkt|
    ensures same <==> Lower(pkt[pos..pos + |enc|]) == Lower(enc)
  {
    var i := 0;
    while i < |enc|
      invariant i <= |enc|
      invariant forall k :: 0 <= k < i ==> LowerByte(pkt[pos + k]) == LowerByte(enc[k])
    {
      if LowerByte(pkt[pos + i]) != LowerByte(enc[i]) {
        assert Lower(pkt[pos..pos + |enc|])[i] != Lower(enc)[i];
        return false;
      }
      i := i + 1;
    }
    return true;
  }

  /** question_matches: where the question ends, if it is ours. */
  method QuestionMatches(pkt: bytes, name: bytes, qtype: u16) returns (after: Option<nat>)
    requires |pkt| >= 12
    ensures after.Some? <==> Encoding(name, 256).Some? && Asks(pkt[12..], Encoding(name, 256).value, qtype)
    ensures after.Some? ==> after.value == 12 + |Encoding(name, 256).value| + 4
  {
    var buffer := new byte[256];
    var n := EncodeName(name, buffer, 0, 256);
    if n == 0 || 12 + n + 4 > |pkt| {
      return None;
    }
    var enc := buffer[..n];
    assert enc == buffer[0..0 + n];
    SliceOfDrop(pkt, 12, 0, n);
    assert pkt[12..][..n] == pkt[12..][0..n];
    var same := SameLetters(pkt, 12, enc);
    if !same || Be16(pkt, 12 + n) != qtype || Be16(pkt, 12 + n + 2) != 1 {
      return None;
    }
    return Some(12 + n + 4);
  }

  method DnsParseResponse(pkt: bytes, id: u16, name: bytes, qtype: u16) returns (st: Status, a: Answer)
    ensures (st, a) == Parse(pkt, id, name, qtype)
  {
    a := Answer([], TTL_MAX);
    if !ReplyHeader(pkt, id) {
      return Malformed, a;
    }
    var after := QuestionMatches(pkt, name, qtype);
    if after.None? {
      return Malformed, a;
    }
    var rcode := pkt[3] % 16;
    if rcode == 3 {
      return NxDomain, a;
    }
    if rcode != 0 {
      return ServFail, a;
    }
    var r := ParseRecords(pkt, after.value, Be16(pkt, 6), qtype);
    if r.None? {
      return Malformed, a;
    }
    return if |r.value.addrs| == 0 then NoData else Ok, r.value;
  }

  // ---- only our own question is taken for ours ----

  function Lowered(ls: seq<bytes>): (r: seq<bytes>)
  {
    if |ls| == 0 then [] else [Lower(ls[0])] + Lowered(ls[1..])
  }

  lemma {:induction false} LoweredLabels(ls: seq<bytes>)
    requires Labels(ls)
    ensures Labels(Lowered(ls)) && Lower(EncodeLabels(ls)) == EncodeLabels(Lowered(ls))
  {
    if |ls| > 0 {
      var l, more := ls[0], ls[1..];
      LoweredLabels(more);
      assert IsLabel(Lower(l));
      LowerConcat([|l|] + l, EncodeLabels(more));
      LowerConcat([|l|], l);
      assert Lowered(ls)[1..] == Lowered(more);
    }
  }

  /** No encoding begins another. */
  lemma {:induction false} PrefixFree(ls: seq<bytes>, ks: seq<bytes>, x: bytes, y: bytes)
    requires Labels(ls) && Labels(ks) && EncodeLabels(ls) + x == EncodeLabels(ks) + y
    ensures ls == ks && x == y
    decreases |ls|
  {
    var d, e := EncodeLabels(ls) + x, EncodeLabels(ks) + y;
    assert d[0] == (if |ls| > 0 then |ls[0]| else 0) && e[0] == (if |ks| > 0 then |ks[0]| else 0);
    if |ls| == 0 {
      assert d[1..] == x && e[1..] == y;
    } else {
      var n := |ls[0]|;
      assert d[1..1 + n] == ls[0] && e[1..1 + n] == ks[0];
      assert d[1 + n..] == EncodeLabels(ls[1..]) + x;
      assert e[1 + n..] == EncodeLabels(ks[1..]) + y;
      PrefixFree(ls[1..], ks[1..], x, y);
      assert ls == [ls[0]] + ls[1..] && ks == [ks[0]] + ks[1..];
    }
  }

  /** A reply whose question is `ks`, type `t`, class `c` is taken for an answer to `ls`, `qtype` exactly
      when it asks the same: the names equal but for letter case, the type equal, the class IN. */
  lemma OnlyOurQuestion(ls: seq<bytes>, qtype: u16, ks: seq<bytes>, t: u16, c: u16, rest: bytes)
    requires Labels(ls) && Labels(ks)
    ensures Asks(EncodeLabels(ks) + (Enc16(t) + Enc16(c) + rest), EncodeLabels(ls), qtype)
       <==> Lowered(ls) == Lowered(ks) && t == qtype && c == 1
  {
    var a, b := EncodeLabels(ls), EncodeLabels(ks);
    var d := b + (Enc16(t) + Enc16(c) + rest);
    LoweredLabels(ls);
    LoweredLabels(ks);
    if |d| >= |a| && Lower(d[..|a|]) == Lower(a) {
      LowerFront(d, a);
      LowerConcat(b, Enc16(t) + Enc16(c) + rest);
      PrefixFree(Lowered(ls), Lowered(ks), Lower(d[|a|..]), Lower(Enc16(t) + Enc16(c) + rest));
      assert |a| == |Lower(a)| == |Lower(b)| == |b|;
    }
    if Lowered(ls) == Lowered(ks) {
      assert |a| == |Lower(a)| == |Lower(b)| == |b|;
      assert d[..|a|] == b;
      assert d[|a|..] == Enc16(t) + Enc16(c) + rest;
      FieldsBehind(d, |a|, t, c, rest);
    }
  }

  lemma LowerFront(d: bytes, a: bytes)
    requires |d| >= |a| && Lower(d[..|a|]) == Lower(a)
    ensures Lower(d) == Lower(a) + Lower(d[|a|..])
  {
    LowerConcat(d[..|a|], d[|a|..]);
    assert d == d[..|a|] + d[|a|..];
  }

  lemma FieldsBehind(d: bytes, n: nat, t: u16, c: u16, rest: bytes)
    requires n <= |d| && d[n..] == Enc16(t) + Enc16(c) + rest
    ensures |d| >= n + 4 && Be16(d, n) == t && Be16(d, n + 2) == c
  {
    var f := d[n..];
    assert f[0..2] == Enc16(t) && f[2..4] == Enc16(c);
    assert Be16(f[0..2], 0) == Be16(d, n) && Be16(f[2..4], 0) == Be16(d, n + 2);
  }

  // ---- the answer read is the one written ----

  function Chunks(ls: seq<bytes>): (d: bytes)
    requires Labels(ls)
  {
    if |ls| == 0 then [] else [|ls[0]|] + ls[0] + Chunks(ls[1..])
  }

  predicate NameEnd(e: bytes)
  {
    e == [0] || (|e| == 2 && e[0] >= 192)
  }

  predicate FitsRecord(r: Record)
  {
    |r.labels| < 128 && Labels(r.labels) && NameEnd(r.end) && |r.data| < 0x1_0000
  }

  function EncodeRecord(r: Record): (d: bytes)
    requires FitsRecord(r)
  {
    Chunks(r.labels) + r.end + (Fields(r) + r.data)
  }

  function Fields(r: Record): (d: bytes)
    requires FitsRecord(r)
    ensures |d| == 10
  {
    Enc16(r.rtype) + Enc16(r.rclass) + Enc32(r.ttl) + Enc16(|r.data|)
  }

  predicate OnWire(rs: seq<Record>)
  {
    forall i :: 0 <= i < |rs| ==> FitsRecord(rs[i])
  }

  function EncodeRecords(rs: seq<Record>): (d: bytes)
    requires OnWire(rs)
  {
    if |rs| == 0 then [] else EncodeRecord(rs[0]) + EncodeRecords(rs[1..])
  }

  lemma Quad(d: bytes, pkt: bytes, i: nat, j: nat)
    requires i + 4 <= |d| && j + 4 <= |pkt| && d[i..i + 4] == pkt[j..j + 4]
    ensures Be32(d[i..i + 4], 0) == Be32(pkt, j)
  {
    var s := pkt[j..j + 4];
    assert s[0] == pkt[j] && s[1] == pkt[j + 1] && s[2] == pkt[j + 2] && s[3] == pkt[j + 3];
  }

  lemma FieldsRead(pkt: bytes, f: nat, r: Record, more: bytes, qtype: u16, a: Answer)
    requires FitsRecord(r) && f <= |pkt| && pkt[f..] == Fields(r) + r.data + more
    ensures Whole(pkt, f) && pkt[EndAt(pkt, f)..] == more
    ensures UsedAt(pkt, f, qtype, a) == Used(a, qtype, r.rtype, r.ttl, r.data)
  {
    var d := Fields(r) + r.data + more;
    assert d[0..2] == Enc16(r.rtype) && d[4..8] == Enc32(r.ttl) && d[8..10] == Enc16(|r.data|);
    SliceOfDrop(pkt, f, 4, 8);
    Quad(d, pkt, 4, f + 4);
    assert Be16(pkt, f) == Be16(d[0..2], 0) && Be16(pkt, f + 8) == Be16(d[8..10], 0);
    assert d[10..10 + |r.data|] == r.data && d[10 + |r.data|..] == more;
    SliceOfDrop(pkt, f, 10, 10 + |r.data|);
  }

  function Gathered(rs: seq<Record>, qtype: u16, a: Answer): (r: Answer)
    decreases |rs|
  {
    if |rs| == 0 then a else Gathered(rs[1..], qtype, Used(a, qtype, rs[0].rtype, rs[0].ttl, rs[0].data))
  }

  lemma {:induction false} RecordsAreRead(pkt: bytes, pos: nat, rs: seq<Record>, rest: bytes, qtype: u16, a: Answer)
    requires OnWire(rs) && pos <= |pkt| && pkt[pos..] == EncodeRecords(rs) + rest
    ensures ReadRecords(pkt, pos, |rs|, qtype, a) == Some(Gathered(rs, qtype, a))
    decreases |rs|
  {
    if |rs| > 0 {
      var r, more := rs[0], EncodeRecords(rs[1..]) + rest;
      RecordCons(rs, rest);
      var f := RecordRead(pkt, pos, r, more, qtype, a, |rs|);
      RecordsAreRead(pkt, f, rs[1..], rest, qtype, Used(a, qtype, r.rtype, r.ttl, r.data));
    }
  }

  lemma RecordCons(rs: seq<Record>, rest: bytes)
    requires OnWire(rs) && |rs| > 0
    ensures EncodeRecords(rs) + rest == Chunks(rs[0].labels) + rs[0].end + (Fields(rs[0]) + rs[0].data + (EncodeRecords(rs[1..]) + rest))
  {
    var r, more := rs[0], EncodeRecords(rs[1..]);
    Assoc(EncodeRecord(r), more, rest);
    Assoc(Chunks(r.labels) + r.end, Fields(r) + r.data, more + rest);
  }

  lemma RecordRead(pkt: bytes, pos: nat, r: Record, more: bytes, qtype: u16, a: Answer, count: nat) returns (end: nat)
    requires FitsRecord(r) && count > 0 && pos <= |pkt|
    requires pkt[pos..] == Chunks(r.labels) + r.end + (Fields(r) + r.data + more)
    ensures end <= |pkt| && pkt[end..] == more
    ensures ReadRecords(pkt, pos, count, qtype, a) == ReadRecords(pkt, end, count - 1, qtype, Used(a, qtype, r.rtype, r.ttl, r.data))
  {
    var d := Fields(r) + r.data + more;
    NameIsSkipped(pkt, pos, r.labels, r.end, d, 128);
    var f := Behind(pkt, pos, Chunks(r.labels) + r.end, d);
    FieldsRead(pkt, f, r, more, qtype, a);
    end := ReadStep(pkt, pos, f, count, qtype, a);
  }

  lemma ReadStep(pkt: bytes, pos: nat, f: nat, count: nat, qtype: u16, a: Answer) returns (end: nat)
    requires count > 0 && SkipName(pkt, pos, 128) == f && Whole(pkt, f)
    ensures end == EndAt(pkt, f) && ReadRecords(pkt, pos, count, qtype, a) == ReadRecords(pkt, end, count - 1, qtype, UsedAt(pkt, f, qtype, a))
  {
    end := EndAt(pkt, f);
  }

  lemma Behind(pkt: bytes, pos: nat, name: bytes, d: bytes) returns (f: nat)
    requires pos <= |pkt| && pkt[pos..] == name + d
    ensures f == pos + |name| && f <= |pkt| && pkt[f..] == d
  {
    f := pos + |name|;
    SliceOfDrop(pkt, pos, 0, |name|);
  }

  /** An A record with four octets, or an AAAA record with sixteen, as asked. */
  predicate IsAddress(r: Record, qtype: u16)
  {
    r.rtype == qtype && ((qtype == 1 && |r.data| == 4) || (qtype == 28 && |r.data| == 16))
  }

  /** The records of the right type and size, in order. */
  function Matching(rs: seq<Record>, qtype: u16): (r: seq<Record>)
  {
    if |rs| == 0 then [] else (if IsAddress(rs[0], qtype) then [rs[0]] else []) + Matching(rs[1..], qtype)
  }

  function Front(rs: seq<Record>, n: nat): (r: seq<Record>)
  {
    if |rs| <= n then rs else rs[..n]
  }

  function AddrsOf(rs: seq<Record>, family: nat): (r: seq<Addr>)
  {
    if |rs| == 0 then [] else [Addr(family, rs[0].data)] + AddrsOf(rs[1..], family)
  }

  function LeastTtl(rs: seq<Record>, most: u32): (r: u32)
    ensures r <= most && forall i :: 0 <= i < |rs| ==> r <= rs[i].ttl
    ensures r == most || exists i :: 0 <= i < |rs| && r == rs[i].ttl
  {
    if |rs| == 0 then most else
      var r := LeastTtl(rs[1..], most);
      if rs[0].ttl < r then rs[0].ttl else assert r == most || exists i :: 0 < i < |rs| && r == rs[i].ttl; r
  }

  lemma LeastTtlCons(r: Record, rs: seq<Record>, most: u32)
    ensures LeastTtl([r] + rs, most) == LeastTtl(rs, if r.ttl < most then r.ttl else most)
  {
    assert ([r] + rs)[1..] == rs;
    var low: u32 := if r.ttl < most then r.ttl else most;
    assert ([r] + rs)[0] == r;
    assert forall i :: 0 <= i < |rs| ==> ([r] + rs)[i + 1] == rs[i];
  }

  lemma FrontCons(r: Record, rs: seq<Record>, n: nat)
    requires n > 0
    ensures Front([r] + rs, n) == [r] + Front(rs, n - 1)
  {
  }

  /** What `a` becomes when the front of `ms`, as far as there is room, is used. */
  function Filled(a: Answer, ms: seq<Record>, family: nat): (r: Answer)
    requires |a.addrs| <= MAX_ADDRS
  {
    var used := Front(ms, MAX_ADDRS - |a.addrs|);
    Answer(a.addrs + AddrsOf(used, family), LeastTtl(used, a.ttl))
  }

  lemma FilledCons(a: Answer, r: Record, more: seq<Record>, qtype: u16)
    requires |a.addrs| <= MAX_ADDRS && Usable(qtype, r.rtype, |r.data|)
    ensures Filled(Used(a, qtype, r.rtype, r.ttl, r.data), more, Family(qtype)) == Filled(a, [r] + more, Family(qtype))
  {
    if |a.addrs| < MAX_ADDRS {
      var n := MAX_ADDRS - |a.addrs|;
      FrontCons(r, more, n);
      LeastTtlCons(r, Front(more, n - 1), a.ttl);
      Assoc(a.addrs, [Addr(Family(qtype), r.data)], AddrsOf(Front(more, n - 1), Family(qtype)));
    } else {
      assert Front([r] + more, 0) == [] && Front(more, 0) == [];
    }
  }

  lemma {:induction false} GatheredIs(rs: seq<Record>, qtype: u16, a: Answer)
    requires |a.addrs| <= MAX_ADDRS
    ensures Gathered(rs, qtype, a) == Filled(a, Matching(rs, qtype), Family(qtype))
    decreases |rs|
  {
    if |rs| > 0 {
      var r, more := rs[0], Matching(rs[1..], qtype);
      GatheredIs(rs[1..], qtype, Used(a, qtype, r.rtype, r.ttl, r.data));
      if Usable(qtype, r.rtype, |r.data|) {
        FilledCons(a, r, more, qtype);
      } else {
        assert [] + more == more;
      }
    } else {
      assert a.addrs + [] == a.addrs;
    }
  }

  /** Labels, then the root or a pointer; at most 127 labels. */
  lemma {:induction false} NameIsSkipped(pkt: bytes, pos: nat, ls: seq<bytes>, e: bytes, rest: bytes, guard: nat)
    requires Labels(ls) && NameEnd(e) && |ls| < guard && pos <= |pkt| && pkt[pos..] == Chunks(ls) + e + rest
    ensures SkipName(pkt, pos, guard) == pos + |Chunks(ls) + e|
    decreases |ls|
  {
    if |ls| > 0 {
      var l, more := ls[0], Chunks(ls[1..]);
      assert Chunks(ls) + e + rest == [|l|] + l + (more + e + rest);
      LabelAt(pkt, pos, l, more + e + rest);
      NameIsSkipped(pkt, pos + 1 + |l|, ls[1..], e, rest, guard - 1);
    } else {
      assert pkt[pos] == (e + rest)[0];
    }
  }

  // ---- a server's answer, from its records to the addresses used ----

  /** A reply without error to question `ks`, `t`, carrying records `rs` and then anything. */
  function Reply(id: u16, b2: byte, b3: byte, counts: bytes, ks: seq<bytes>, t: u16, rs: seq<Record>, rest: bytes): (d: bytes)
    requires Labels(ks) && OnWire(rs) && |rs| < 0x1_0000 && |counts| == 4
  {
    Enc16(id) + [b2, b3] + Enc16(1) + Enc16(|rs|) + counts + (EncodeLabels(ks) + (Enc16(t) + Enc16(1) + (EncodeRecords(rs) + rest)))
  }

  /** Every well-formed reply is read as what it says, and only as an answer to its own question. */
  lemma ReplyIsRead(id: u16, b2: byte, b3: byte, counts: bytes, ks: seq<bytes>, t: u16, rs: seq<Record>, rest: bytes, id2: u16, ls: seq<bytes>, qtype: u16)
    requires Labels(ks) && OnWire(rs) && |rs| < 0x1_0000 && |counts| == 4
    requires Labels(ls) && |ls| > 0 && |Join(ls)| <= 253
    ensures Parse(Reply(id, b2, b3, counts, ks, t, rs, rest), id2, Join(ls), qtype)
         == if id == id2 && b2 >= 128 && b2 / 2 % 2 == 0 && Lowered(ls) == Lowered(ks) && t == qtype then Says(b3 % 16, Some(Collected(rs, qtype)))
            else (Malformed, Answer([], TTL_MAX))
  {
    var d := Reply(id, b2, b3, counts, ks, t, rs, rest);
    var records := EncodeRecords(rs) + rest;
    ReplyParts(id, b2, b3, counts, |rs|, EncodeLabels(ks) + (Enc16(t) + Enc16(1) + records));
    NameEncodes(ls);
    PartsAreRead(d, ks, t, rs, rest, id2, ls, qtype);
  }

  /** The reply's parts, told from the packet that holds them. */
  ghost predicate Holds(d: bytes, ks: seq<bytes>, t: u16, rs: seq<Record>, rest: bytes)
  {
    && Labels(ks) && OnWire(rs) && |d| >= 12 && Be16(d, 4) == 1 && Be16(d, 6) == |rs|
    && d[12..] == EncodeLabels(ks) + (Enc16(t) + Enc16(1) + (EncodeRecords(rs) + rest))
  }

  lemma PartsAreRead(d: bytes, ks: seq<bytes>, t: u16, rs: seq<Record>, rest: bytes, id: u16, ls: seq<bytes>, qtype: u16)
    requires Labels(ls) && Holds(d, ks, t, rs, rest)
    requires Encoding(Join(ls), 256) == Some(EncodeLabels(ls))
    ensures Parse(d, id, Join(ls), qtype)
         == if ReplyHeader(d, id) && Lowered(ls) == Lowered(ks) && t == qtype then Says(d[3] % 16, Some(Collected(rs, qtype)))
            else (Malformed, Answer([], TTL_MAX))
  {
    OnlyOurQuestion(ls, qtype, ks, t, 1, EncodeRecords(rs) + rest);
    if Lowered(ls) == Lowered(ks) {
      var at := HeldRecords(d, ks, t, rs, rest, ls, qtype);
      ParseIs(d, id, Join(ls), qtype, EncodeLabels(ls), at, Some(Collected(rs, qtype)));
    }
  }

  lemma ParseIs(d: bytes, id: u16, name: bytes, qtype: u16, enc: bytes, at: nat, a: Option<Answer>)
    requires Encoding(name, 256) == Some(enc) && |d| >= 12 && at == 12 + |enc| + 4
    requires ReadRecords(d, at, Be16(d, 6), qtype, Answer([], TTL_MAX)) == a
    ensures Parse(d, id, name, qtype) == if Ours(d, id, Some(enc), qtype) then Says(d[3] % 16, a) else (Malformed, Answer([], TTL_MAX))
  {
  }

  lemma HeldRecords(d: bytes, ks: seq<bytes>, t: u16, rs: seq<Record>, rest: bytes, ls: seq<bytes>, qtype: u16) returns (at: nat)
    requires Labels(ls) && Holds(d, ks, t, rs, rest) && Lowered(ls) == Lowered(ks)
    ensures at == 12 + |EncodeLabels(ls)| + 4
    ensures ReadRecords(d, at, Be16(d, 6), qtype, Answer([], TTL_MAX)) == Some(Collected(rs, qtype))
  {
    at := 12 + |EncodeLabels(ls)| + 4;
    SameSize(ls, ks);
    RecordsBehind(d, EncodeLabels(ks), Enc16(t) + Enc16(1), EncodeRecords(rs) + rest);
    RecordsAreCollected(d, at, rs, rest, qtype);
  }

  lemma RecordsBehind(d: bytes, name: bytes, fields: bytes, records: bytes)
    requires |d| >= 12 && d[12..] == name + (fields + records)
    ensures |d| >= 12 + |name| + |fields| && d[12 + |name| + |fields|..] == records
  {
    assert d[12 + |name| + |fields|..] == d[12..][|name| + |fields|..];
  }

  /** What is to be had from the records: at most eight addresses of the wanted type, in order, with
      the least of their times to live. */
  function Collected(rs: seq<Record>, qtype: u16): (r: Answer)
  {
    var used := Front(Matching(rs, qtype), 8);
    Answer(AddrsOf(used, if qtype == 1 then 4 else 6), LeastTtl(used, 3600))
  }

  lemma RecordsAreCollected(pkt: bytes, pos: nat, rs: seq<Record>, rest: bytes, qtype: u16)
    requires OnWire(rs) && pos <= |pkt| && pkt[pos..] == EncodeRecords(rs) + rest
    ensures ReadRecords(pkt, pos, |rs|, qtype, Answer([], TTL_MAX)) == Some(Collected(rs, qtype))
  {
    RecordsAreRead(pkt, pos, rs, rest, qtype, Answer([], TTL_MAX));
    GatheredIs(rs, qtype, Answer([], TTL_MAX));
    assert forall s: seq<Addr> :: [] + s == s;
  }

  lemma SameSize(ls: seq<bytes>, ks: seq<bytes>)
    requires Labels(ls) && Labels(ks) && Lowered(ls) == Lowered(ks)
    ensures |EncodeLabels(ls)| == |EncodeLabels(ks)|
  {
    LoweredLabels(ls);
    LoweredLabels(ks);
    assert |Lower(EncodeLabels(ls))| == |Lower(EncodeLabels(ks))|;
  }

  lemma NameEncodes(ls: seq<bytes>)
    requires Labels(ls) && |ls| > 0 && |Join(ls)| <= 253
    ensures Encoding(Join(ls), 256) == Some(EncodeLabels(ls))
  {
    NoFinalDot(ls);
    EncodableNames(Join(ls), 256);
    assert Dotted(Join(ls), ls);
  }

  lemma ReplyParts(id: u16, b2: byte, b3: byte, counts: bytes, n: nat, rest: bytes)
    requires n < 0x1_0000 && |counts| == 4
    ensures var d := Enc16(id) + [b2, b3] + Enc16(1) + Enc16(n) + counts + rest;
      && |d| >= 12 && Be16(d, 0) == id && d[2] == b2 && d[3] == b3 && Be16(d, 4) == 1 && Be16(d, 6) == n && d[12..] == rest
  {
    var d := Enc16(id) + [b2, b3] + Enc16(1) + Enc16(n) + counts + rest;
    assert d[0..2] == Enc16(id) && d[4..6] == Enc16(1) && d[6..8] == Enc16(n);
    assert Be16(d, 0) == Be16(d[0..2], 0) && Be16(d, 4) == Be16(d[4..6], 0) && Be16(d, 6) == Be16(d[6..8], 0);
  }
}
