/** src/tls/sni_extract.c: the incremental server-name parser. */
module Sni {
  import opened Bytes
  import opened Packet
  import opened Records
  import Tls

  const CLIENTHELLO_CAP: nat := 16384

  function HandshakeLen(d: bytes): nat
    requires |d| >= 9
  {
    d[6] as int * 0x1_0000 + Be16(d, 7)
  }

  /** The walk over the ClientHello, stage by stage. */
  function ParseSni(d: bytes, hostSize: nat): (r: Result<bytes>)
  {
    if hostSize == 0 || |d| > CLIENTHELLO_CAP then Err(Malformed)
    else if |d| < 5 then Err(Truncated)
    else if d[0] != HANDSHAKE then Err(Unsupported)
    else if |d| < 9 then Err(Truncated)
    else if d[5] != 0x01 then Err(Unsupported)
    else if HandshakeLen(d) > CLIENTHELLO_CAP then Err(Malformed)
    else if |d| < 44 || |d| < 44 + d[43] as int then Err(Truncated)
    else AfterSession(d, 44 + d[43] as int, hostSize)
  }

  function AfterSession(d: bytes, p: nat, hostSize: nat): (r: Result<bytes>)
  {
    if p + 2 > |d| || p + 2 + Be16(d, p) > |d| then Err(Truncated)
    else AfterCiphers(d, p + 2 + Be16(d, p), hostSize)
  }

  function AfterCiphers(d: bytes, p: nat, hostSize: nat): (r: Result<bytes>)
  {
    if p + 1 > |d| || p + 1 + d[p] as int > |d| then Err(Truncated)
    else AfterCompression(d, p + 1 + d[p] as int, hostSize)
  }

  function AfterCompression(d: bytes, p: nat, hostSize: nat): (r: Result<bytes>)
  {
    if p + 2 > |d| then Err(Truncated)
    else if Be16(d, p) > CLIENTHELLO_CAP then Err(Malformed)
    else if p + 2 + Be16(d, p) > |d| then Err(Truncated)
    else InExtensions(d, p + 2, p + 2 + Be16(d, p), hostSize)
  }

  function InExtensions(d: bytes, pos: nat, end: nat, hostSize: nat): (r: Result<bytes>)
    requires end <= |d|
    decreases end - pos
  {
    if pos + 4 > end then Err(Unsupported)
    else
      var n := Be16(d, pos + 2);
      if pos + 4 + n > end then Err(Malformed)
      else if Be16(d, pos) == 0 then InName(d, pos + 4, n, hostSize)
      else InExtensions(d, pos + 4 + n, end, hostSize)
  }

  function InName(d: bytes, pos: nat, n: nat, hostSize: nat): (r: Result<bytes>)
    requires pos + n <= |d|
  {
    if n < 5 || d[pos + 2] != 0 then Err(Malformed)
    else
      var len := Be16(d, pos + 3);
      if 5 + len > n || len == 0 || len >= hostSize then Err(Malformed)
      else Ok(d[pos + 5..pos + 5 + len])
  }

  /** tls_parse_client_hello_sni: the cursor loop; a found name is also left, NUL-terminated, in
      the caller's buffer, which is otherwise untouched. */
  method TlsParseClientHelloSni(data: bytes, host: array<byte>) returns (r: Result<bytes>)
    modifies host
    ensures r == ParseSni(data, host.Length)
    ensures r.Ok? ==> |r.value| < host.Length && host[..|r.value|] == r.value && host[|r.value|] == 0
    ensures r.Err? ==> host[..] == old(host[..])
  {
    var len := |data|;
    if host.Length == 0 {
      return Err(Malformed);
    }
    if len > CLIENTHELLO_CAP {
      return Err(Malformed);
    }
    if len < 5 {
      return Err(Truncated);
    }
    if data[0] != HANDSHAKE {
      return Err(Unsupported);
    }
    var pos := 5;
    if pos + 4 > len {
      return Err(Truncated);
    }
    if data[pos] != 0x01 {
      return Err(Unsupported);
    }
    var handshakeLen := data[pos + 1] as int * 0x1_0000 + data[pos + 2] as int * 0x100 + data[pos + 3];
    if handshakeLen > CLIENTHELLO_CAP {
      return Err(Malformed);
    }
    pos := pos + 4;
    if pos + 34 > len {
      return Err(Truncated);
    }
    pos := pos + 34;
    if pos + 1 > len {
      return Err(Truncated);
    }
    var sessionLen := data[pos];
    pos := pos + 1;
    if pos + sessionLen > len {
      return Err(Truncated);
    }
    pos := pos + sessionLen;
    if pos + 2 > len {
      return Err(Truncated);
    }
    var cipherLen := Be16(data, pos);
    pos := pos + 2;
    if pos + cipherLen > len {
      return Err(Truncated);
    }
    pos := pos + cipherLen;
    if pos + 1 > len {
      return Err(Truncated);
    }
    var compressionLen := data[pos];
    pos := pos + 1;
    if pos + compressionLen > len {
      return Err(Truncated);
    }
    pos := pos + compressionLen;
    if pos + 2 > len {
      return Err(Truncated);
    }
    var extensionsLen := Be16(data, pos);
    pos := pos + 2;
    if extensionsLen > CLIENTHELLO_CAP {
      return Err(Malformed);
    }
    if pos + extensionsLen > len {
      return Err(Truncated);
    }
    r := WalkExtensions(data, pos, pos + extensionsLen, host);
  }

  /** The loop over the extensions. */
  method WalkExtensions(data: bytes, start: nat, end: nat, host: array<byte>) returns (r: Result<bytes>)
    requires start <= end <= |data|
    modifies host
    ensures r == InExtensions(data, start, end, host.Length)
    ensures r.Ok? ==> |r.value| < host.Length && host[..|r.value|] == r.value && host[|r.value|] == 0
    ensures r.Err? ==> host[..] == old(host[..])
  {
    var pos := start;
    while pos + 4 <= end
      invariant 0 <= pos <= end
      invariant InExtensions(data, start, end, host.Length) == InExtensions(data, pos, end, host.Length)
      invariant host[..] == old(host[..])
    {
      var extensionType := Be16(data, pos);
      var extensionLen := Be16(data, pos + 2);
      pos := pos + 4;
      if pos + extensionLen > end {
        return Err(Malformed);
      }
      if extensionType == 0x0000 {
        if extensionLen < 5 {
          return Err(Malformed);
        }
        if data[pos + 2] != 0x00 {
          return Err(Malformed);
        }
        var nameLen: int := Be16(data, pos + 3);
        if 5 + nameLen > extensionLen {
          return Err(Malformed);
        }
        if nameLen == 0 || nameLen >= host.Length {
          return Err(Malformed);
        }
        Append(host, 0, data[pos + 5..pos + 5 + nameLen], []);
        host[nameLen] := 0;
        return Ok(data[pos + 5..pos + 5 + nameLen]);
      }
      pos := pos + extensionLen;
    }
    return Err(Unsupported);
  }

  // ---- finality under extension ----

  /** Every verdict but "truncated" is final: more bytes of the same stream, up to the cap, cannot
      change it. */
  lemma Final(d: bytes, more: bytes, hostSize: nat)
    requires ParseSni(d, hostSize) != Err(Truncated)
    requires |d + more| <= CLIENTHELLO_CAP
    ensures ParseSni(d + more, hostSize) == ParseSni(d, hostSize)
  {
    if hostSize == 0 || |d| < 9 || d[0] != HANDSHAKE || d[5] != 0x01 {
    } else if HandshakeLen(d) > CLIENTHELLO_CAP {
      assert HandshakeLen(d + more) == HandshakeLen(d);
    } else {
      assert HandshakeLen(d + more) == HandshakeLen(d);
      FinalFields(d, more, 44 + d[43] as int, hostSize);
    }
  }

  lemma FinalFields(d: bytes, more: bytes, p: nat, hostSize: nat)
    requires AfterSession(d, p, hostSize) != Err(Truncated)
    ensures AfterSession(d + more, p, hostSize) == AfterSession(d, p, hostSize)
  {
    assert Be16(d + more, p) == Be16(d, p);
    var q := p + 2 + Be16(d, p);
    var r := q + 1 + d[q] as int;
    assert Be16(d + more, r) == Be16(d, r);
    if Be16(d, r) <= CLIENTHELLO_CAP {
      FinalExtensions(d, more, r + 2, r + 2 + Be16(d, r), hostSize);
    }
  }

  lemma {:induction false} FinalExtensions(d: bytes, more: bytes, pos: nat, end: nat, hostSize: nat)
    requires end <= |d|
    ensures InExtensions(d + more, pos, end, hostSize) == InExtensions(d, pos, end, hostSize)
    decreases end - pos
  {
    if pos + 4 <= end {
      var n := Be16(d, pos + 2);
      assert Be16(d + more, pos + 2) == n && Be16(d + more, pos) == Be16(d, pos);
      if pos + 4 + n <= end {
        if Be16(d, pos) == 0 {
          FinalName(d, more, pos + 4, n, hostSize);
        } else {
          FinalExtensions(d, more, pos + 4 + n, end, hostSize);
        }
      }
    }
  }

  lemma FinalName(d: bytes, more: bytes, pos: nat, n: nat, hostSize: nat)
    requires pos + n <= |d|
    ensures InName(d + more, pos, n, hostSize) == InName(d, pos, n, hostSize)
  {
    if n >= 5 {
      assert Be16(d + more, pos + 3) == Be16(d, pos + 3);
      var len := Be16(d, pos + 3);
      if 5 + len <= n {
        assert (d + more)[pos + 5..pos + 5 + len] == d[pos + 5..pos + 5 + len];
      }
    }
  }

  // ---- the two walkers agree ----

  /** `p` is an offset strictly inside an occurrence of `name` in `d`. */
  predicate InsideName(d: bytes, name: bytes, start: nat, p: nat)
  {
    start < p < start + |name| <= |d| && d[start..start + |name|] == name
  }

  /** When the parser accepts a name of at least two bytes, the split finder lands strictly inside
      that same name, in its middle. */
  lemma WalkersAgree(d: bytes, hostSize: nat) returns (start: nat)
    requires ParseSni(d, hostSize).Ok? && |ParseSni(d, hostSize).value| >= 2
    ensures Tls.FindSniSplit(d).Some? && start >= 5
    ensures InsideName(d, ParseSni(d, hostSize).value, start, Tls.FindSniSplit(d).value)
    ensures Tls.FindSniSplit(d).value == start + |ParseSni(d, hostSize).value| / 2
  {
    var p := 44 + d[43] as int;
    var q := p + 2 + Be16(d, p);
    var r := q + 1 + d[q] as int;
    start := ExtensionsAgree(d, r + 2, r + 2 + Be16(d, r), hostSize);
  }

  lemma {:induction false} ExtensionsAgree(d: bytes, pos: nat, end: nat, hostSize: nat) returns (start: nat)
    requires end <= |d|
    requires InExtensions(d, pos, end, hostSize).Ok? && |InExtensions(d, pos, end, hostSize).value| >= 2
    ensures Tls.SplitInExtensions(d, pos, end).Some? && start >= pos
    ensures InsideName(d, InExtensions(d, pos, end, hostSize).value, start, Tls.SplitInExtensions(d, pos, end).value)
    ensures Tls.SplitInExtensions(d, pos, end).value == start + |InExtensions(d, pos, end, hostSize).value| / 2
    decreases end - pos
  {
    if Be16(d, pos) == 0 {
      start := pos + 4 + 5;
    } else {
      start := ExtensionsAgree(d, pos + 4 + Be16(d, pos + 2), end, hostSize);
    }
  }

  /** The other way: within the parser's length caps, every split point is strictly inside a name,
      and the parser accepts that name exactly when it fits the caller's buffer. */
  lemma SplitImpliesName(d: bytes, hostSize: nat) returns (name: bytes, start: nat)
    requires Tls.FindSniSplit(d).Some?
    requires |d| <= CLIENTHELLO_CAP && HandshakeLen(d) <= CLIENTHELLO_CAP && hostSize > 0
    ensures InsideName(d, name, start, Tls.FindSniSplit(d).value)
    ensures ParseSni(d, hostSize) == if |name| < hostSize then Ok(name) else Err(Malformed)
  {
    var p := 44 + d[43] as int;
    var q := p + 2 + Be16(d, p);
    var r := q + 1 + d[q] as int;
    name, start := ExtensionsAgreeBack(d, r + 2, r + 2 + Be16(d, r), hostSize);
  }

  lemma {:induction false} ExtensionsAgreeBack(d: bytes, pos: nat, end: nat, hostSize: nat)
    returns (name: bytes, start: nat)
    requires end <= |d|
    requires Tls.SplitInExtensions(d, pos, end).Some?
    ensures InsideName(d, name, start, Tls.SplitInExtensions(d, pos, end).value)
    ensures InExtensions(d, pos, end, hostSize) == if |name| < hostSize then Ok(name) else Err(Malformed)
    decreases end - pos
  {
    if Be16(d, pos) == 0 {
      start := pos + 4 + 5;
      name := d[start..start + Be16(d, start - 2)];
    } else {
      name, start := ExtensionsAgreeBack(d, pos + 4 + Be16(d, pos + 2), end, hostSize);
    }
  }

  /** Fragmenting at the derived point divides the accepted name between the two records: the first
      one ends, and the second one begins, strictly inside it. */
  lemma FragmentationDividesName(d: bytes, hostSize: nat) returns (start: nat)
    requires ParseSni(d, hostSize).Ok? && |ParseSni(d, hostSize).value| >= 2
    requires Tls.Splittable(d, Tls.RecordSplitPoint(d))
    ensures var at, name := Tls.RecordSplitPoint(d), ParseSni(d, hostSize).value;
      && 5 <= start && InsideName(d, name, start, 5 + at)
      && Tls.Fragmented(d, at)[5..5 + at] == d[5..5 + at]
      && Tls.Fragmented(d, at)[10 + at..] == d[5 + at..]
  {
    start := WalkersAgree(d, hostSize);
  }


  // ---- every well-formed ClientHello is understood ----

  datatype Extension = Extension(kind: u16, body: bytes)

  /** A ClientHello that names a server (section 4.1.2 of RFC 8446, section 3 of RFC 6066): any
      extensions before the server_name one, anything after it. */
  datatype ClientHello = ClientHello(version: bytes, random: bytes, session: bytes, ciphers: bytes,
                                     compression: bytes, before: seq<Extension>, name: bytes, after: bytes)

  predicate Valid(c: ClientHello)
  {
    && |c.version| == 2 && |c.random| == 32
    && |c.session| <= 0xFF && |c.ciphers| <= 0xFFFF && |c.compression| <= 0xFF
    && (forall e :: e in c.before ==> |e.body| <= 0xFFFF && e.kind != 0)
    && 0 < |c.name| <= 0xFFF0
    && |Extensions(c.before, EncodeName(c.name) + c.after)| <= 0xFFFF
  }

  /** Extensions in wire form, in front of `rest`. */
  function Extensions(es: seq<Extension>, rest: bytes): (r: bytes)
    requires forall e :: e in es ==> |e.body| <= 0xFFFF
  {
    if |es| == 0 then rest
    else Enc16(es[0].kind) + (Enc16(|es[0].body|) + (es[0].body + Extensions(es[1..], rest)))
  }

  /** A server_name extension holding one host_name. */
  function EncodeName(name: bytes): (r: bytes)
    requires |name| <= 0xFFF0
    ensures |r| == 9 + |name|
  {
    Enc16(0) + (Enc16(5 + |name|) + (Enc16(3 + |name|) + ([0] + (Enc16(|name|) + name))))
  }

  /** The message body from its session id on. */
  function FromSession(c: ClientHello): (r: bytes)
    requires Valid(c)
  {
    var exts := Extensions(c.before, EncodeName(c.name) + c.after);
    [|c.session|] + (c.session + (Enc16(|c.ciphers|) + (c.ciphers
      + ([|c.compression|] + (c.compression + (Enc16(|exts|) + exts))))))
  }

  /** The message in one handshake record; `version` is the record's, `len` its length field, and
      `hlen` the message's 24-bit length field. */
  function Record(c: ClientHello, version: bytes, len: u16, hlen: bytes): (r: bytes)
    requires Valid(c) && |version| == 2 && |hlen| == 3
  {
    [HANDSHAKE] + version + Enc16(len) + [0x01] + hlen + c.version + c.random + FromSession(c)
  }

  /** The parser finds the name in every well-formed ClientHello within its caps, wherever in the
      extension list it is. */
  lemma ParsesEveryHello(c: ClientHello, version: bytes, len: u16, hlen: bytes, hostSize: nat)
    requires Valid(c) && |version| == 2 && |hlen| == 3
    requires |c.name| < hostSize
    requires |Record(c, version, len, hlen)| <= CLIENTHELLO_CAP
    requires hlen[0] as int * 0x1_0000 + Be16(hlen, 1) <= CLIENTHELLO_CAP
    ensures ParseSni(Record(c, version, len, hlen), hostSize) == Ok(c.name)
  {
    var d := Record(c, version, len, hlen);
    RecordPrefix(c, version, len, hlen);
    ParsesFromSession(d, c, hostSize);
  }

  lemma RecordPrefix(c: ClientHello, version: bytes, len: u16, hlen: bytes)
    requires Valid(c) && |version| == 2 && |hlen| == 3
    ensures var d := Record(c, version, len, hlen);
      && |d| == 43 + |FromSession(c)| && d[0] == HANDSHAKE && d[5] == 0x01
      && HandshakeLen(d) == hlen[0] as int * 0x1_0000 + Be16(hlen, 1)
      && d[43..] == FromSession(c)
  {
    var h := [HANDSHAKE] + version + Enc16(len) + [0x01] + hlen + c.version + c.random;
    assert |h| == 43 && h[5] == 0x01 && h[6] == hlen[0] && h[7] == hlen[1] && h[8] == hlen[2];
  }

  lemma ParsesFromSession(d: bytes, c: ClientHello, hostSize: nat)
    requires Valid(c) && |c.name| < hostSize && |d| <= CLIENTHELLO_CAP
    requires |d| >= 43 && d[43..] == FromSession(c)
    ensures |d| >= 44 && |d| >= 44 + d[43] as int
    ensures AfterSession(d, 44 + d[43] as int, hostSize) == Ok(c.name)
  {
    var exts := Extensions(c.before, EncodeName(c.name) + c.after);
    var r := ToExtensions(d, c.session, c.ciphers, c.compression, exts, hostSize);
    FindsName(d, r, c.before, c.name, c.after, hostSize);
  }

  lemma ToExtensions(d: bytes, session: bytes, ciphers: bytes, compression: bytes, exts: bytes, hostSize: nat) returns (r: nat)
    requires |session| <= 0xFF && |ciphers| <= 0xFFFF && |compression| <= 0xFF && |exts| <= 0xFFFF && |d| <= CLIENTHELLO_CAP
    requires |d| >= 43 && d[43..] == [|session|] + (session + (Enc16(|ciphers|) + (ciphers
      + ([|compression|] + (compression + (Enc16(|exts|) + exts))))))
    ensures |d| >= 44 + |session| && d[43] == |session| && r <= |d| && d[r..] == exts
    ensures AfterSession(d, 44 + |session|, hostSize) == InExtensions(d, r, |d|, hostSize)
  {
    var q;
    q, r := Layout(d, session, ciphers, compression, exts);
    ReachExtensions(d, 44 + |session|, q, r, hostSize);
    r := r + 2;
  }

  /** Where the length fields of the fixed part are: compression methods at q, extensions at r. */
  lemma Layout(d: bytes, session: bytes, ciphers: bytes, compression: bytes, exts: bytes) returns (q: nat, r: nat)
    requires |session| <= 0xFF && |ciphers| <= 0xFFFF && |compression| <= 0xFF && |exts| <= 0xFFFF
    requires |d| >= 43 && d[43..] == [|session|] + (session + (Enc16(|ciphers|) + (ciphers
      + ([|compression|] + (compression + (Enc16(|exts|) + exts))))))
    ensures |d| >= 44 && d[43] == |session|
    ensures 44 + |session| + 2 <= q && Be16(d, 44 + |session|) == q - (44 + |session|) - 2
    ensures q + 1 <= r && d[q] == r - q - 1
    ensures r + 2 <= |d| && Be16(d, r) == |d| - r - 2 == |exts| && d[r + 2..] == exts
  {
    var afterCiphers := [|compression|] + (compression + (Enc16(|exts|) + exts));
    Skip8(d, 43, session, Enc16(|ciphers|) + (ciphers + afterCiphers));
    Skip16(d, 44 + |session|, ciphers, afterCiphers);
    q := 44 + |session| + 2 + |ciphers|;
    Skip8(d, q, compression, Enc16(|exts|) + exts);
    r := q + 1 + |compression|;
    Skip16(d, r, exts, []);
  }

  lemma ReachExtensions(d: bytes, p: nat, q: nat, r: nat, hostSize: nat)
    requires p + 2 <= q && q + 1 <= r && r + 2 <= |d|
    requires Be16(d, p) == q - p - 2 && d[q] == r - q - 1 && Be16(d, r) == |d| - r - 2 <= CLIENTHELLO_CAP
    ensures AfterSession(d, p, hostSize) == InExtensions(d, r + 2, |d|, hostSize)
  {
    assert AfterSession(d, p, hostSize) == AfterCiphers(d, q, hostSize);
    assert AfterCiphers(d, q, hostSize) == AfterCompression(d, r, hostSize);
  }

  lemma Skip8(d: bytes, p: nat, x: bytes, rest: bytes)
    requires |x| <= 0xFF && p <= |d| && d[p..] == [|x|] + (x + rest)
    ensures |d| == p + 1 + |x| + |rest|
    ensures d[p] == |x| && d[p + 1 + |x|..] == rest
  {
    assert d[p..][0] == d[p];
    assert d[p..][1 + |x|..] == rest;
  }

  lemma Skip16(d: bytes, p: nat, x: bytes, rest: bytes)
    requires |x| <= 0xFFFF && p <= |d| && (d[p..] == Enc16(|x|) + (x + rest) || (rest == [] && d[p..] == Enc16(|x|) + x))
    ensures |d| == p + 2 + |x| + |rest|
    ensures Be16(d, p) == |x| && d[p + 2 + |x|..] == rest && (rest == [] ==> d[p + 2..] == x)
  {
    assert x + [] == x;
    assert Be16(d[p..], 0) == Be16(d, p);
    assert Be16(Enc16(|x|) + (x + rest), 0) == Be16(Enc16(|x|), 0);
    assert d[p..][2..] == x + rest;
    assert d[p..][2 + |x|..] == rest;
  }

  lemma {:induction false} FindsName(d: bytes, pos: nat, es: seq<Extension>, name: bytes, after: bytes, hostSize: nat)
    requires (forall e :: e in es ==> |e.body| <= 0xFFFF && e.kind != 0) && 0 < |name| <= 0xFFF0 && |name| < hostSize
    requires pos <= |d| && d[pos..] == Extensions(es, EncodeName(name) + after)
    ensures InExtensions(d, pos, |d|, hostSize) == Ok(name)
    decreases |es|
  {
    if |es| == 0 {
      FindsNameHere(d, pos, name, after, hostSize);
    } else {
      SkipExtension(d, pos, es[0].kind, es[0].body, Extensions(es[1..], EncodeName(name) + after));
      FindsName(d, pos + 4 + |es[0].body|, es[1..], name, after, hostSize);
    }
  }

  lemma SkipExtension(d: bytes, pos: nat, kind: u16, body: bytes, rest: bytes)
    requires |body| <= 0xFFFF && pos <= |d| && d[pos..] == Enc16(kind) + (Enc16(|body|) + (body + rest))
    ensures pos + 4 + |body| <= |d| && Be16(d, pos) == kind && Be16(d, pos + 2) == |body| && d[pos + 4 + |body|..] == rest
  {
    assert Be16(d[pos..], 0) == Be16(d, pos) == kind;
    assert d[pos + 2..] == Enc16(|body|) + (body + rest) by {
      assert d[pos..][2..] == d[pos + 2..];
    }
    Skip16(d, pos + 2, body, rest);
  }

  lemma FindsNameHere(d: bytes, pos: nat, name: bytes, after: bytes, hostSize: nat)
    requires 0 < |name| <= 0xFFF0 && |name| < hostSize
    requires pos <= |d| && d[pos..] == EncodeName(name) + after
    ensures InExtensions(d, pos, |d|, hostSize) == Ok(name)
  {
    var e := EncodeName(name);
    var s := d[pos..];
    assert forall i :: 0 <= i < |e| ==> e[i] == d[pos + i] by {
      assert forall i :: 0 <= i < |e| ==> e[i] == s[i];
    }
    assert Be16(e, 0) == 0 && Be16(e, 2) == 5 + |name| && e[6] == 0 && Be16(e, 7) == |name| && e[9..] == name;
    assert d[pos + 9..pos + 9 + |name|] == name;
  }
}
