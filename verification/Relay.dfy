/** src/relay.c: what reaches the wire of the client's first write. */
module Relay {
  import opened Bytes
  import opened Records
  import opened Tls
  import Strategies

  const BUFFER_SIZE: nat := 16384
  const TCP_CUT: nat := 3

  datatype Mode = SplitNone | SplitTcp | SplitRecord | SplitRecordTcp

  /** What one send() call comes to: the system takes up to `n` bytes, the call is interrupted, or
      the connection is gone. */
  datatype SendResult = Taken(n: nat) | Interrupted | Broken

  /** A connected socket: the bytes it has put on the wire, the points where the code paused so
      that what came before left in its own TCP segment, and how its next send() calls will end
      (the connection is gone when the script is). */
  class Socket {
    var wire: bytes
    var pauses: seq<nat>
    var script: seq<SendResult>

    constructor (script: seq<SendResult>)
      ensures wire == [] && pauses == [] && this.script == script
    {
      wire, pauses, this.script := [], [], script;
    }

    method Send(data: bytes) returns (r: SendResult)
      modifies `wire, `script
      ensures |old(script)| == 0 ==> r == Broken && wire == old(wire) && script == old(script)
      ensures |old(script)| > 0 ==> script == old(script)[1..]
      ensures r.Taken? ==> r.n <= |data| && wire == old(wire) + data[..r.n] && |old(script)| > 0
      ensures !r.Taken? ==> wire == old(wire)
    {
      if |script| == 0 {
        return Broken;
      }
      r := script[0];
      script := script[1..];
      if r.Taken? {
        r := Taken(if r.n <= |data| then r.n else |data|);
        wire := wire + data[..r.n];
      }
    }

    /** relay_send_all: on success every byte is on the wire, otherwise a proper prefix is. */
    method SendAll(data: bytes) returns (ok: bool)
      modifies `wire, `script
      ensures old(wire) <= wire <= old(wire) + data
      ensures ok <==> wire == old(wire) + data
    {
      var total := 0;
      assert data[..0] == [];
      while total < |data|
        invariant 0 <= total <= |data|
        invariant wire == old(wire) + data[..total]
        decreases |script|, |data| - total
      {
        var sent := Send(data[total..]);
        if sent.Interrupted? && |script| > 0 {
          continue;
        }
        if !sent.Taken? || sent.n == 0 {
          return false;
        }
        assert data[..total] + data[total..][..sent.n] == data[..total + sent.n];
        total := total + sent.n;
      }
      assert data[..total] == data;
      return true;
    }

    method Pause()
      modifies `pauses
      ensures pauses == old(pauses) + [|wire|]
    {
      pauses := pauses + [|wire|];
    }

    /** Two writes with a pause between them. */
    method SendTwo(first: bytes, second: bytes) returns (ok: bool)
      modifies this
      ensures old(wire) <= wire <= old(wire) + (first + second)
      ensures ok <==> wire == old(wire) + (first + second)
      ensures ok ==> pauses == old(pauses) + [|old(wire)| + |first|]
    {
      ok := SendAll(first);
      if !ok {
        return;
      }
      Pause();
      ok := SendAll(second);
    }
  }

  // ---- relay_send_first ----

  /** The bytes a mode turns the first write into. */
  function OnWire(data: bytes, mode: Mode): (r: bytes)
  {
    if (mode.SplitRecord? || mode.SplitRecordTcp?) && Splittable(data, RecordSplitPoint(data))
    then Fragmented(data, RecordSplitPoint(data))
    else data
  }

  /** relay_split_for */
  function SplitFor(s: Strategies.Strategy): (m: Mode)
  {
    match s
    case TlsRec => SplitRecord
    case TlsRecSplit => SplitRecordTcp
    case _ => SplitNone
  }

  /** Where, if anywhere, a mode ends the first TCP segment. */
  function PauseAt(data: bytes, mode: Mode): (r: Option<nat>)
  {
    match mode
    case SplitNone => None
    case SplitTcp =>
      var p := FindSniSplit(data);
      if p.Some? && 0 < p.value < |data| then p else None
    case SplitRecord =>
      var at := RecordSplitPoint(data);
      if Splittable(data, at) then Some(5 + at) else None
    case SplitRecordTcp =>
      if Splittable(data, RecordSplitPoint(data)) then Some(TCP_CUT) else None
  }

  /** Whatever the mode, a receiver sees the same content stream, for every continuation. */
  lemma OnWirePreserves(data: bytes, mode: Mode, cont: bytes)
    ensures Deframe(OnWire(data, mode) + cont) == Deframe(data + cont)
  {
    var at := RecordSplitPoint(data);
    if Splittable(data, at) {
      FragmentationPreserves(data, at, cont);
    }
  }

  /** relay_send_first, with the three split variants it chooses from. */
  method SendFirst(s: Socket, data: bytes, mode: Mode) returns (ok: bool)
    requires |data| <= BUFFER_SIZE
    modifies s
    ensures old(s.wire) <= s.wire <= old(s.wire) + OnWire(data, mode)
    ensures ok <==> s.wire == old(s.wire) + OnWire(data, mode)
    ensures ok ==> s.pauses == old(s.pauses)
                     + if PauseAt(data, mode).Some? then [|old(s.wire)| + PauseAt(data, mode).value] else []
  {
    match mode
    case SplitRecord => ok := SendFirstRecord(s, data);
    case SplitRecordTcp => ok := SendFirstRecordTcp(s, data);
    case SplitTcp => ok := SendFirstTcp(s, data);
    case SplitNone => ok := s.SendAll(data);
  }

  method SendFirstTcp(s: Socket, data: bytes) returns (ok: bool)
    modifies s
    ensures old(s.wire) <= s.wire <= old(s.wire) + data
    ensures ok <==> s.wire == old(s.wire) + data
    ensures ok ==> s.pauses == old(s.pauses)
                     + if PauseAt(data, SplitTcp).Some? then [|old(s.wire)| + PauseAt(data, SplitTcp).value] else []
  {
    var split := TlsFindSniSplit(data);
    if split.None? || split.value == 0 || split.value >= |data| {
      ok := s.SendAll(data);
      return;
    }
    assert data[..split.value] + data[split.value..] == data;
    ok := s.SendTwo(data[..split.value], data[split.value..]);
  }

  method SendFirstRecord(s: Socket, data: bytes) returns (ok: bool)
    requires |data| <= BUFFER_SIZE
    modifies s
    ensures old(s.wire) <= s.wire <= old(s.wire) + OnWire(data, SplitRecord)
    ensures ok <==> s.wire == old(s.wire) + OnWire(data, SplitRecord)
    ensures ok ==> s.pauses == old(s.pauses)
                     + if PauseAt(data, SplitRecord).Some? then [|old(s.wire)| + PauseAt(data, SplitRecord).value] else []
  {
    var out := new byte[BUFFER_SIZE + 5];
    var at := TlsRecordSplitPoint(data);
    var outLen := TlsFragmentFirstRecord(data, at, out);
    if outLen.None? {
      ok := s.SendAll(data);
      return;
    }
    assert out[..5 + at] + out[5 + at..outLen.value] == out[..outLen.value];
    ok := s.SendTwo(out[..5 + at], out[5 + at..outLen.value]);
  }

  method SendFirstRecordTcp(s: Socket, data: bytes) returns (ok: bool)
    requires |data| <= BUFFER_SIZE
    modifies s
    ensures old(s.wire) <= s.wire <= old(s.wire) + OnWire(data, SplitRecordTcp)
    ensures ok <==> s.wire == old(s.wire) + OnWire(data, SplitRecordTcp)
    ensures ok ==> s.pauses == old(s.pauses)
                     + if PauseAt(data, SplitRecordTcp).Some? then [|old(s.wire)| + PauseAt(data, SplitRecordTcp).value] else []
  {
    var out := new byte[BUFFER_SIZE + 5];
    var at := TlsRecordSplitPoint(data);
    var outLen := TlsFragmentFirstRecord(data, at, out);
    if outLen.None? || outLen.value <= TCP_CUT {
      ok := s.SendAll(data);
      return;
    }
    assert out[..TCP_CUT] + out[TCP_CUT..outLen.value] == out[..outLen.value];
    ok := s.SendTwo(out[..TCP_CUT], out[TCP_CUT..outLen.value]);
  }
}
