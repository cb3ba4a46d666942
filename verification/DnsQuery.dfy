/** src/dns/dns.c: dns_build_query and dns_query_info, the writer and the reader of a query. */
module DnsQuery {
  import opened Bytes
  import opened DnsName

  const DNS_NAME_MAX: nat := 254

  /** Recursion desired, one question, nothing else. */
  function Header(id: u16): (r: bytes)
    ensures |r| == 12
  {
    Enc16(id) + [1, 0, 0, 1, 0, 0, 0, 0, 0, 0]
  }

  function Query(id: u16, name: bytes, qtype: u16): (r: bytes)
  {
    Header(id) + (name + (Enc16(qtype) + Enc16(1)))
  }

  /** The query's length, or 0 when the name has no encoding that fits. */
  method DnsBuildQuery(id: u16, name: bytes, qtype: u16, out: array<byte>) returns (n: nat)
    modifies out
    ensures n == 0 <==> out.Length < 16 || Encoding(name, out.Length - 16).None?
    ensures n > 0 ==> n <= out.Length && out[..n] == Query(id, Encoding(name, out.Length - 16).value, qtype)
  {
    if out.Length < 16 {
      return 0;
    }
    Emit(out, 0, 0, Enc16(id) + [1, 0, 0, 1, 0, 0, 0, 0, 0, 0]);
    assert out[0..12] == Header(id);
    var k := EncodeName(name, out, 12, out.Length - 16);
    if k == 0 {
      return 0;
    }
    assert out[0..12] == Header(id);
    ghost var enc := Encoding(name, out.Length - 16).value;
    assert out[0..12 + k] == Header(id) + enc;
    Emit(out, 0, 12 + k, Enc16(qtype) + Enc16(1));
    n := 16 + k;
    Assoc(Header(id), enc, Enc16(qtype) + Enc16(1));
  }

  // ---- dns_query_info ----

  datatype QueryInfo = QueryInfo(name: bytes, qtype: u16, udpSize: u16)

  /** `acc` with one more label. */
  function Joined(acc: bytes, piece: bytes): (r: bytes)
  {
    (if |acc| > 0 then acc + [DOT] else acc) + Lower(piece)
  }

  /** The labels from `pos` up to the root, or to the end, as text that fits `size` octets with its
      terminator; and where they end. */
  function ReadName(pkt: bytes, pos: nat, acc: bytes, size: nat): (r: Option<(bytes, nat)>)
    decreases |pkt| - pos
  {
    if pos >= |pkt| || pkt[pos] == 0 then Some((acc, pos))
    else
      var end := pos + 1 + pkt[pos];
      if pkt[pos] >= 64 || end > |pkt| || |acc| + pkt[pos] + 2 > size then None
      else ReadName(pkt, end, Joined(acc, pkt[pos + 1..end]), size)
  }

  /** The payload size an EDNS record at `pos` offers at the front of the additional section. */
  function UdpSize(pkt: bytes, pos: nat): (r: u16)
    requires |pkt| >= 12
  {
    if Be16(pkt, 6) == 0 && Be16(pkt, 8) == 0 && Be16(pkt, 10) >= 1 && pos + 11 <= |pkt|
       && pkt[pos] == 0 && Be16(pkt, pos + 1) == 41 && Be16(pkt, pos + 3) > 512
    then Be16(pkt, pos + 3) else 512
  }

  predicate PlainQuery(pkt: bytes)
  {
    |pkt| >= 12 && pkt[2] < 128 && pkt[2] / 8 % 16 == 0 && Be16(pkt, 4) == 1
  }

  function Question(pkt: bytes, name: bytes, pos: nat): (r: Option<QueryInfo>)
    requires |pkt| >= 12
  {
    if pos + 5 > |pkt| then None else Some(QueryInfo(name, Be16(pkt, pos + 1), UdpSize(pkt, pos + 5)))
  }

  function InfoOf(pkt: bytes, size: nat): (r: Option<QueryInfo>)
  {
    if !PlainQuery(pkt) || size < 2 then None
    else
      var q := ReadName(pkt, 12, [], size);
      if q.None? then None else Question(pkt, q.value.0, q.value.1)
  }

  method LowerInPlace(a: array<byte>, lo: nat, hi: nat)
    requires lo <= hi <= a.Length
    modifies a
    ensures a[lo..hi] == Lower(old(a[lo..hi]))
    ensures forall k :: 0 <= k < a.Length && !(lo <= k < hi) ==> a[k] == old(a[k])
  {
    var i := lo;
    while i < hi
      invariant lo <= i <= hi
      invariant forall k :: lo <= k < i ==> a[k] == LowerByte(old(a[k]))
      invariant forall k :: 0 <= k < a.Length && !(lo <= k < i) ==> a[k] == old(a[k])
    {
      a[i] := LowerByte(a[i]);
      i := i + 1;
    }
  }

  /** One label put behind the name so far, with its dot, in lower case. */
  method PutLabel(name: array<byte>, n: nat, piece: bytes) returns (m: nat)
    requires n + |piece| + 2 <= name.Length
    modifies name
    ensures m < name.Length && name[..m] == Joined(old(name[..n]), piece)
  {
    m := n;
    if n > 0 {
      name[m] := DOT;
      m := m + 1;
    }
    assert name[..m] == old(name[..n]) + (if n > 0 then [DOT] else []);
    PutLowered(name, m, piece);
    m := m + |piece|;
  }

  method PutLowered(name: array<byte>, m: nat, piece: bytes)
    requires m + |piece| <= name.Length
    modifies name
    ensures name[..m + |piece|] == old(name[..m]) + Lower(piece)
  {
    ghost var front := name[..m];
    Emit(name, 0, m, piece);
    assert name[m..m + |piece|] == name[0..m + |piece|][m..] == piece;
    assert name[..m] == front;
    LowerInPlace(name, m, m + |piece|);
    assert name[..m + |piece|] == name[..m] + name[m..m + |piece|];
    assert name[..m] == front;
  }

  /** The question's name, as text ended by a zero in `name`, with its type and the size of reply the
      client takes. */
  method DnsQueryInfo(pkt: bytes, name: array<byte>) returns (r: Option<(nat, u16, u16)>)
    modifies name
    ensures r.Some? <==> InfoOf(pkt, name.Length).Some?
    ensures r.Some? ==> r.value.0 < name.Length && name[r.value.0] == 0
    ensures r.Some? ==> InfoOf(pkt, name.Length) == Some(QueryInfo(name[..r.value.0], r.value.1, r.value.2))
  {
    if |pkt| < 12 || name.Length < 2 || pkt[2] >= 128 || pkt[2] / 8 % 16 != 0 || Be16(pkt, 4) != 1 {
      return None;
    }
    var pos: nat, n: nat := 12, 0;
    while pos < |pkt| && pkt[pos] != 0
      invariant n < name.Length
      invariant ReadName(pkt, 12, [], name.Length) == ReadName(pkt, pos, name[..n], name.Length)
      decreases |pkt| - pos
    {
      var lab := pkt[pos];
      if lab >= 64 || pos + 1 + lab > |pkt| || n + lab + 2 > name.Length {
        return None;
      }
      n := PutLabel(name, n, pkt[pos + 1..pos + 1 + lab]);
      pos := pos + 1 + lab;
    }
    if pos + 5 > |pkt| {
      return None;
    }
    name[n] := 0;
    var size := 512;
    var opt := pos + 5;
    if Be16(pkt, 6) == 0 && Be16(pkt, 8) == 0 && Be16(pkt, 10) >= 1 && opt + 11 <= |pkt| && pkt[opt] == 0 && Be16(pkt, opt + 1) == 41 {
      if Be16(pkt, opt + 3) > 512 {
        size := Be16(pkt, opt + 3);
      }
    }
    return Some((n, Be16(pkt, pos + 1), size));
  }

  // ---- the reader undoes the writer ----

  /** The text that the labels make behind `acc`. */
  function JoinedAll(acc: bytes, ls: seq<bytes>): (r: bytes)
    decreases |ls|
  {
    if |ls| == 0 then acc else JoinedAll(Joined(acc, ls[0]), ls[1..])
  }

  lemma {:induction false} JoinedAllIs(acc: bytes, ls: seq<bytes>)
    requires Labels(ls) && |ls| > 0
    ensures JoinedAll(acc, ls) == Joined(acc, Join(ls))
    decreases |ls|
  {
    if |ls| > 1 {
      var l, more := ls[0], ls[1..];
      JoinedAllIs(Joined(acc, l), more);
      LowerConcat(l, [DOT] + Join(more));
      LowerConcat([DOT], Join(more));
    }
  }

  /** Whether every step of the way fits the text buffer. */
  predicate Fits(acc: bytes, ls: seq<bytes>, size: nat)
    decreases |ls|
  {
    |ls| == 0 || (|acc| + |ls[0]| + 2 <= size && Fits(Joined(acc, ls[0]), ls[1..], size))
  }

  lemma {:induction false} ReadEncoded(pkt: bytes, pos: nat, acc: bytes, ls: seq<bytes>, rest: bytes, size: nat)
    requires Labels(ls) && pos <= |pkt| && pkt[pos..] == EncodeLabels(ls) + rest
    ensures ReadName(pkt, pos, acc, size)
         == if Fits(acc, ls, size) then Some((JoinedAll(acc, ls), (pos + |EncodeLabels(ls)| - 1) as nat)) else None
    decreases |ls|
  {
    if |ls| > 0 {
      FirstLabel(pkt, pos, ls, rest);
      ReadEncoded(pkt, pos + 1 + |ls[0]|, Joined(acc, ls[0]), ls[1..], rest, size);
    } else {
      assert pkt[pos] == ([0] + rest)[0];
    }
  }

  /** The room that is needed: a terminator, and with a single label one octet to spare. */
  function Room(ls: seq<bytes>): (r: nat)
  {
    if |ls| == 1 then |Join(ls)| + 2 else |Join(ls)| + 1
  }

  lemma {:induction false} FitsBehind(acc: bytes, ls: seq<bytes>, size: nat)
    requires Labels(ls) && |ls| > 0 && |acc| > 0
    ensures Fits(acc, ls, size) <==> |acc| + |Join(ls)| + 2 <= size
    decreases |ls|
  {
    if |ls| > 1 {
      FitsBehind(Joined(acc, ls[0]), ls[1..], size);
    }
  }

  lemma FitsRoom(ls: seq<bytes>, size: nat)
    requires Labels(ls) && |ls| > 0
    ensures Fits([], ls, size) <==> Room(ls) <= size
  {
    if |ls| > 1 {
      FitsBehind(Joined([], ls[0]), ls[1..], size);
    }
  }

  /** A name of at most 253 octets has room in the buffer its reader is given. */
  lemma RoomIsThere(ls: seq<bytes>)
    requires Labels(ls) && |ls| > 0 && |Join(ls)| <= 253
    ensures Room(ls) <= DNS_NAME_MAX
  {
  }

  lemma QueryParts(id: u16, name: bytes, qtype: u16)
    ensures PlainQuery(Query(id, name, qtype))
    ensures Query(id, name, qtype)[12..] == name + (Enc16(qtype) + Enc16(1))
    ensures Be16(Query(id, name, qtype), 10) == 0
  {
    var q := Query(id, name, qtype);
    assert q[..12] == Header(id);
    assert forall i :: 0 <= i < 12 ==> q[i] == Header(id)[i];
  }

  /** Every well-formed name comes back in lower case with its type, exactly when it has room. */
  lemma QueryRoundTrip(id: u16, ls: seq<bytes>, qtype: u16, size: nat)
    requires Labels(ls) && |ls| > 0
    ensures InfoOf(Query(id, EncodeLabels(ls), qtype), size)
         == if Room(ls) <= size then Some(QueryInfo(Lower(Join(ls)), qtype, 512)) else None
    ensures |Query(id, EncodeLabels(ls), qtype)| == 12 + |Join(ls)| + 2 + 4
  {
    var q, rest := Query(id, EncodeLabels(ls), qtype), Enc16(qtype) + Enc16(1);
    QueryParts(id, EncodeLabels(ls), qtype);
    EncodedSize(ls);
    ReadEncoded(q, 12, [], ls, rest, size);
    FitsRoom(ls, size);
    JoinedAllIs([], ls);
    NoFinalDot(ls);
    assert Joined([], Join(ls)) == Lower(Join(ls));
    TypeIs(q, 12 + |EncodeLabels(ls)|, qtype);
  }

  lemma TypeIs(q: bytes, pos: nat, qtype: u16)
    requires pos + 4 == |q| && q[pos..] == Enc16(qtype) + Enc16(1)
    ensures Be16(q, pos) == qtype
  {
    assert q[pos..][..2] == Enc16(qtype);
    assert Be16(q[pos..][..2], 0) == Be16(q, pos);
  }

  /** The same from the name as the caller writes it, with or without a final dot. */
  lemma BuiltQueryIsRead(id: u16, ls: seq<bytes>, final: bool, qtype: u16, size: nat)
    requires Labels(ls) && |ls| > 0 && |Join(ls)| <= 253 && |Join(ls)| + 2 <= size
    ensures var name := if final then Join(ls) + [DOT] else Join(ls);
            Encoding(name, size) == Some(EncodeLabels(ls))
    ensures InfoOf(Query(id, EncodeLabels(ls), qtype), DNS_NAME_MAX) == Some(QueryInfo(Lower(Join(ls)), qtype, 512))
  {
    NoFinalDot(ls);
    var name := if final then Join(ls) + [DOT] else Join(ls);
    assert Stripped(name) == Join(ls);
    EncodableNames(name, size);
    QueryRoundTrip(id, ls, qtype, DNS_NAME_MAX);
    RoomIsThere(ls);
  }
}
