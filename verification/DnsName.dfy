/** src/dns/dns.c: names between dotted text and length-prefixed labels. Text is kept as octets. */
module DnsName {
  import opened Bytes

  const DOT: byte := 46

  // ---- letter case ----

  function LowerByte(b: byte): (r: byte)
  {
    if 65 <= b <= 90 then b + 32 else b
  }

  function Lower(s: bytes): (r: bytes)
    ensures |r| == |s|
  {
    seq(|s|, i requires 0 <= i < |s| => LowerByte(s[i]))
  }

  /** Names are told apart by everything but the case of their letters. */
  lemma FoldsCase(a: bytes, b: bytes)
    ensures Lower(a) == Lower(b) <==> |a| == |b| && forall i :: 0 <= i < |a| ==> SameLetter(a[i], b[i])
  {
    if Lower(a) == Lower(b) {
      forall i | 0 <= i < |a|
        ensures SameLetter(a[i], b[i])
      {
        assert Lower(a)[i] == Lower(b)[i];
      }
    }
  }

  /** The same octet, or the two cases of one letter. */
  predicate SameLetter(a: byte, b: byte)
  {
    a == b || (65 <= a <= 90 && b as int == a as int + 32) || (65 <= b <= 90 && a as int == b as int + 32)
  }

  lemma LowerConcat(a: bytes, b: bytes)
    ensures Lower(a + b) == Lower(a) + Lower(b)
  {
  }

  // ---- well-formed names ----

  predicate IsLabel(l: bytes)
  {
    0 < |l| <= 63 && forall i :: 0 <= i < |l| ==> l[i] != DOT
  }

  predicate Labels(ls: seq<bytes>)
  {
    forall i :: 0 <= i < |ls| ==> IsLabel(ls[i])
  }

  function Join(ls: seq<bytes>): (r: bytes)
  {
    if |ls| == 0 then [] else if |ls| == 1 then ls[0] else ls[0] + ([DOT] + Join(ls[1..]))
  }

  function EncodeLabels(ls: seq<bytes>): (r: bytes)
    requires Labels(ls)
    ensures |r| > 0
  {
    if |ls| == 0 then [0] else [|ls[0]|] + ls[0] + EncodeLabels(ls[1..])
  }

  /** The encoding is two octets longer than the dotted name. */
  lemma {:induction false} EncodedSize(ls: seq<bytes>)
    requires Labels(ls) && |ls| > 0
    ensures |EncodeLabels(ls)| == |Join(ls)| + 2
  {
    if |ls| > 1 {
      EncodedSize(ls[1..]);
    } else {
      assert EncodeLabels(ls[1..]) == [0];
    }
  }

  /** The first label of an encoding that stands at `pos`. */
  lemma FirstLabel(pkt: bytes, pos: nat, ls: seq<bytes>, rest: bytes)
    requires Labels(ls) && |ls| > 0 && pos <= |pkt| && pkt[pos..] == EncodeLabels(ls) + rest
    ensures var end := pos + 1 + |ls[0]|;
      end <= |pkt| && pkt[pos] == |ls[0]| && pkt[pos + 1..end] == ls[0] && pkt[end..] == EncodeLabels(ls[1..]) + rest
  {
    var l, more := ls[0], EncodeLabels(ls[1..]);
    Assoc([|l|] + l, more, rest);
    LabelAt(pkt, pos, l, more + rest);
  }

  lemma LabelAt(pkt: bytes, pos: nat, l: bytes, rest: bytes)
    requires IsLabel(l) && pos <= |pkt| && pkt[pos..] == [|l|] + l + rest
    ensures var end := pos + 1 + |l|;
      end <= |pkt| && pkt[pos] == |l| && pkt[pos + 1..end] == l && pkt[end..] == rest
  {
    var d := [|l|] + l + rest;
    assert pkt[pos] == d[0];
    assert d[1..1 + |l|] == l && d[1 + |l|..] == rest;
    SliceOfDrop(pkt, pos, 1, 1 + |l|);
  }

  // ---- encode_name ----

  /** The first dot, or the end. */
  function DotAt(s: bytes): (e: nat)
    ensures e <= |s|
  {
    if |s| == 0 || s[0] == DOT then 0 else 1 + DotAt(s[1..])
  }

  function Beyond(s: bytes, e: nat): (r: bytes)
    requires e <= |s|
  {
    if e < |s| then s[e + 1..] else []
  }

  /** s[i..e] behind its length. */
  function Piece(s: bytes, i: nat, e: nat): (r: bytes)
    requires i <= e <= |s| && e - i <= 63
    ensures |r| == e + 1 - i
  {
    [e - i] + s[i..e]
  }

  predicate Encodable(s: bytes)
    decreases |s|
  {
    |s| == 0 || (0 < DotAt(s) <= 63 && Encodable(Beyond(s, DotAt(s))))
  }

  /** Text cut at its dots, each piece with its length in front, up to a piece that has no encoding. */
  function Encoded(s: bytes): (r: bytes)
    decreases |s|
  {
    if |s| == 0 then [0]
    else if 0 < DotAt(s) <= 63 then Piece(s, 0, DotAt(s)) + Encoded(Beyond(s, DotAt(s)))
    else []
  }

  function Stripped(name: bytes): (r: bytes)
  {
    if |name| > 0 && name[|name| - 1] == DOT then name[..|name| - 1] else name
  }

  function Encoding(name: bytes, size: nat): (r: Option<bytes>)
  {
    var s := Stripped(name);
    if |s| == 0 || |s| > 253 || |s| + 2 > size || !Encodable(s) then None else Some(Encoded(s))
  }

  method FindDot(s: bytes, start: nat) returns (i: nat)
    requires start <= |s|
    ensures i == start + DotAt(s[start..])
  {
    i := start;
    while i < |s| && s[i] != DOT
      invariant start <= i <= |s| && start + DotAt(s[start..]) == i + DotAt(s[i..])
    {
      assert s[i..][1..] == s[i + 1..];
      i := i + 1;
    }
  }

  /** Text `s` is encoded as `w` followed by the encoding of what is left from `i`. */
  ghost predicate Progress(s: bytes, i: nat, w: bytes)
  {
    Encodable(s) == Encodable(Left(s, i)) && (Encodable(s) ==> Encoded(s) == w + Encoded(Left(s, i)))
  }

  /** One pass of the loop that encodes: label `s[i..e]` goes out behind its length. */
  lemma EncodedStep(s: bytes, i: nat, e: nat, w: bytes) returns (w2: bytes)
    requires i < |s| && e == i + DotAt(s[i..]) && 0 < e - i <= 63 && Progress(s, i, w)
    ensures w2 == w + Piece(s, i, e) && Progress(s, e + 1, w2)
  {
    var piece := Piece(s, i, e);
    w2 := w + piece;
    var t := s[i..];
    assert Piece(t, 0, e - i) == piece;
    assert Beyond(t, e - i) == Left(s, e + 1);
    Assoc(w, piece, Encoded(Left(s, e + 1)));
  }

  lemma NoPiece(s: bytes, i: nat, w: bytes)
    requires i < |s| && !(0 < DotAt(s[i..]) <= 63) && Progress(s, i, w)
    ensures !Encodable(s)
  {
  }

  /** Octets at the end of what an output buffer already holds from `at`. */
  method Emit(out: array<byte>, at: nat, pos: nat, d: bytes)
    requires at + pos + |d| <= out.Length
    modifies out
    ensures out[at..at + pos + |d|] == old(out[at..at + pos]) + d
    ensures forall k :: 0 <= k < out.Length && !(at + pos <= k < at + pos + |d|) ==> out[k] == old(out[k])
  {
    Copy(out, at + pos, d);
    assert out[at + pos..at + pos + |d|] == out[..][at + pos..at + pos + |d|] == d;
    assert forall k :: 0 <= k < out.Length ==> out[k] == out[..][k];
    assert out[at..at + pos] == old(out[at..at + pos]);
  }

  /** encode_name into out[at..at + size]: 0 when the name has no encoding that fits. */
  method EncodeName(name: bytes, out: array<byte>, at: nat, size: nat) returns (n: nat)
    requires at + size <= out.Length
    modifies out
    ensures n == 0 <==> Encoding(name, size).None?
    ensures n > 0 ==> n <= size && Encoding(name, size) == Some(out[at..at + n])
    ensures forall k :: 0 <= k < out.Length && !(at <= k < at + size) ==> out[k] == old(out[k])
  {
    var s := Stripped(name);
    if |s| == 0 || |s| > 253 || |s| + 2 > size {
      return 0;
    }
    n := EncodePieces(s, out, at, size);
  }

  function Left(s: bytes, i: nat): (r: bytes)
  {
    if i < |s| then s[i..] else []
  }

  lemma NothingOut(s: bytes, w: bytes)
    requires |s| > 0 && w == []
    ensures Progress(s, 0, w)
  {
    assert s[0..] == s;
  }

  /** The label of `s` from `i` ends at `e`, unless it is empty or too long. */
  method NextLabel(s: bytes, i: nat, ghost w: bytes) returns (ok: bool, e: nat, ghost w2: bytes)
    requires i < |s| && Progress(s, i, w)
    ensures !ok ==> !Encodable(s)
    ensures ok ==> i <= e <= |s| && e - i <= 63 && w2 == w + Piece(s, i, e) && Progress(s, e + 1, w2)
  {
    e := FindDot(s, i);
    w2 := w;
    ok := 0 < e - i <= 63;
    if ok {
      w2 := EncodedStep(s, i, e, w);
    } else {
      NoPiece(s, i, w);
    }
  }

  method EncodePieces(s: bytes, out: array<byte>, at: nat, size: nat) returns (n: nat)
    requires at + size <= out.Length && 0 < |s| && |s| + 2 <= size
    modifies out
    ensures n == 0 <==> !Encodable(s)
    ensures n > 0 ==> n <= size && Encoded(s) == out[at..at + n]
    ensures forall k :: 0 <= k < out.Length && !(at <= k < at + size) ==> out[k] == old(out[k])
  {
    var i := 0; // text is consumed as fast as it is written
    ghost var w: bytes := [];
    NothingOut(s, w);
    while i < |s|
      invariant i <= |s| + 1
      invariant out[at..at + i] == w
      invariant Progress(s, i, w)
      invariant forall k :: 0 <= k < out.Length && !(at <= k < at + size) ==> out[k] == old(out[k])
    {
      var ok, e;
      ok, e, w := NextLabel(s, i, w);
      if !ok {
        return 0;
      }
      Emit(out, at, i, Piece(s, i, e));
      i := e + 1;
    }
    Emit(out, at, i, [0]);
    n := i + 1;
  }

  // ---- which names have an encoding ----

  lemma {:induction false} DotAtLabel(l: bytes, rest: bytes)
    requires forall i :: 0 <= i < |l| ==> l[i] != DOT
    requires |rest| == 0 || rest[0] == DOT
    ensures DotAt(l + rest) == |l|
  {
    if |l| > 0 {
      assert (l + rest)[1..] == l[1..] + rest;
      DotAtLabel(l[1..], rest);
    } else {
      assert l + rest == rest;
    }
  }

  lemma {:induction false} DotAtMeans(s: bytes)
    ensures forall i :: 0 <= i < DotAt(s) ==> s[i] != DOT
    ensures DotAt(s) < |s| ==> s[DotAt(s)] == DOT
  {
    if |s| > 0 && s[0] != DOT {
      DotAtMeans(s[1..]);
    }
  }

  /** `tail` is empty or the one extra dot that is let through. */
  lemma {:induction false} EncodedJoin(ls: seq<bytes>, tail: bytes)
    requires Labels(ls) && |ls| > 0 && (tail == [] || tail == [DOT])
    ensures Encodable(Join(ls) + tail) && Encoded(Join(ls) + tail) == EncodeLabels(ls)
  {
    var l, more := ls[0], ls[1..];
    var rest := if |more| == 0 then tail else [DOT] + (Join(more) + tail);
    assert Join(ls) + tail == l + rest;
    DotAtLabel(l, rest);
    var s := l + rest;
    assert Piece(s, 0, |l|) == [|l|] + l;
    if |more| > 0 {
      assert Beyond(s, |l|) == Join(more) + tail;
      EncodedJoin(more, tail);
    } else {
      assert Beyond(s, |l|) == [];
    }
  }

  /** The labels of text that can be encoded. */
  function LabelsOf(s: bytes): (ls: seq<bytes>)
    decreases |s|
  {
    if |s| == 0 then [] else
      var e := DotAt(s);
      if e == 0 then [] else [s[..e]] + LabelsOf(Beyond(s, e))
  }

  lemma {:induction false} LabelsOfEncoded(s: bytes)
    requires |s| > 0 && Encodable(s)
    ensures |LabelsOf(s)| > 0 && Labels(LabelsOf(s))
    decreases |s|
  {
    var rest := Beyond(s, DotAt(s));
    DotAtMeans(s);
    if |rest| > 0 {
      LabelsOfEncoded(rest);
    }
  }

  lemma CutAtDot(s: bytes)
    ensures DotAt(s) < |s| ==> s == s[..DotAt(s)] + ([DOT] + Beyond(s, DotAt(s)))
  {
    DotAtMeans(s);
    CutAt(s, DotAt(s));
  }

  lemma CutAt(s: bytes, e: nat)
    ensures e < |s| ==> s == s[..e] + ([s[e]] + s[e + 1..])
  {
  }

  lemma {:induction false} EncodedOnlyJoin(s: bytes)
    requires |s| > 0 && Encodable(s)
    ensures Dotted(s, LabelsOf(s))
    decreases |s|
  {
    var l, rest := s[..DotAt(s)], Beyond(s, DotAt(s));
    CutAtDot(s);
    if |rest| > 0 {
      LabelsOfEncoded(rest);
      EncodedOnlyJoin(rest);
      DottedCons(l, rest, LabelsOf(rest));
    } else {
      OneLabel(l);
      assert s == l || s == l + [DOT];
    }
  }

  lemma OneLabel(l: bytes)
    ensures Join([l] + LabelsOf([])) == l
  {
    assert [l] + LabelsOf([]) == [l];
  }

  lemma DottedCons(l: bytes, rest: bytes, more: seq<bytes>)
    requires |more| > 0 && Dotted(rest, more)
    ensures Dotted(l + ([DOT] + rest), [l] + more)
  {
    assert ([l] + more)[1..] == more;
    assert l + ([DOT] + (Join(more) + [DOT])) == l + ([DOT] + Join(more)) + [DOT];
  }

  /** A dotted name, with at most one further dot that is not stripped. */
  predicate Dotted(s: bytes, ls: seq<bytes>)
  {
    s == Join(ls) || s == Join(ls) + [DOT]
  }

  /** Exactly these names have an encoding: labels of 1 to 63 octets joined by dots, with no dot, one
      or two after the last, at most 253 octets without the final dot. */
  lemma EncodableNames(name: bytes, size: nat)
    ensures Encoding(name, size).Some? <==>
      |Stripped(name)| <= 253 && |Stripped(name)| + 2 <= size && exists ls: seq<bytes> :: |ls| > 0 && Labels(ls) && Dotted(Stripped(name), ls)
    ensures Encoding(name, size).Some? ==>
      forall ls: seq<bytes> :: |ls| > 0 && Labels(ls) && Dotted(Stripped(name), ls) ==> Encoding(name, size) == Some(EncodeLabels(ls))
  {
    var s := Stripped(name);
    if Encoding(name, size).Some? {
      LabelsOfEncoded(s);
      EncodedOnlyJoin(s);
    }
    forall ls: seq<bytes> | |ls| > 0 && Labels(ls) && Dotted(s, ls)
      ensures Encodable(s) && Encoded(s) == EncodeLabels(ls) && |s| > 0
    {
      EncodedJoin(ls, if s == Join(ls) then [] else [DOT]);
      assert s + [] == s;
      EncodedSize(ls);
      assert |EncodeLabels(ls)| >= 3;
    }
  }

  lemma {:induction false} NoFinalDot(ls: seq<bytes>)
    requires Labels(ls) && |ls| > 0
    ensures |Join(ls)| > 0 && Join(ls)[|Join(ls)| - 1] != DOT
  {
    if |ls| > 1 {
      NoFinalDot(ls[1..]);
    }
  }

  /** Any name that ends in two dots is taken for the name without them, "a.." for one. */
  lemma TwoFinalDots(ls: seq<bytes>, name: bytes, size: nat)
    requires Labels(ls) && |ls| > 0 && |Join(ls)| <= 252 && |Join(ls)| + 3 <= size && name == Join(ls) + [DOT] + [DOT]
    ensures Encoding(name, size) == Some(EncodeLabels(ls))
  {
    assert Stripped(name) == Join(ls) + [DOT];
    assert Dotted(Stripped(name), ls);
    EncodableNames(name, size);
  }
}
