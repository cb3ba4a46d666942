/** src/transparent/policy.c: the decision table written to and read from its text file. */
module DecisionFile {
  import opened Bytes
  import opened Strategies
  import opened Plan
  import opened Decisions
  import opened DecisionText

  const LINE_MAX: nat := 511

  const TITLE: string := "# dpi-proxyd decisions: " + ("host fingerprint family " + "strategy target validated_at")
  const HEADER: string := TITLE + ['\n']

  function StrategyName(s: Strategy): (r: string)
  {
    match s
    case Pass => "pass"
    case Split => "split"
    case Disorder => "disorder"
    case Fake => "fake"
    case Fragment => "fragment"
    case TlsRec => "tlsrec"
    case TlsRecSplit => "tlsrec-split"
  }

  /** The strategy of a name, letter case aside, if it is one a stream can use. */
  function StreamStrategyOf(name: string): (r: Option<Strategy>)
  {
    var n := Lower(name);
    if n == "pass" then Some(Pass) else if n == "tlsrec" then Some(TlsRec) else if n == "tlsrec-split" then Some(TlsRecSplit) else None
  }

  function TargetName(t: Target): (r: string)
  {
    if t == Trusted then "trusted" else "original"
  }

  function TargetOf(name: string): (r: Option<Target>)
  {
    if name == "original" then Some(Original) else if name == "trusted" then Some(Trusted) else None
  }

  // ---- one line ----

  function Line(d: Decision): (s: string)
  {
    d.host + ([' '] + (HexDigits(d.fp, 16) + ([' '] + (Dec(d.family) + ([' '] + (StrategyName(d.step.strategy)
      + ([' '] + (TargetName(d.step.target) + ([' '] + (Dec(d.at) + ""))))))))))
  }

  datatype Fields = Fields(host: string, fp: nat, family: int, strategy: string, target: string, at: int)

  /** The six conversions of the line format, each where the one before left off. */
  function ScanLine(s: string): (r: Option<Fields>)
  {
    var host := ScanWord(s, 255);
    if host.Mismatch? then None else
    var fp := ScanHex(host.rest);
    if fp.Mismatch? then None else
    var family := ScanDec(fp.rest);
    if family.Mismatch? then None else
    var strategy := ScanWord(family.rest, 31);
    if strategy.Mismatch? then None else
    var target := ScanWord(strategy.rest, 31);
    if target.Mismatch? then None else
    var at := ScanDec(target.rest);
    if at.Mismatch? then None else
    Some(Fields(host.value, fp.value, Int32(family.value), strategy.value, target.value, at.value))
  }

  function Int32(v: int): (r: int)
  {
    var u := v % 0x1_0000_0000;
    if u < 0x8000_0000 then u else u - 0x1_0000_0000
  }

  /** The 32-bit number with the same low bits. */
  lemma Int32Is(v: int)
    ensures -0x8000_0000 <= Int32(v) < 0x8000_0000 && (v - Int32(v)) % 0x1_0000_0000 == 0
  {
  }

  function Accepted(f: Fields): (r: Option<Decision>)
  {
    var strategy, target := StreamStrategyOf(f.strategy), TargetOf(f.target);
    if (f.family != 4 && f.family != 6) || f.fp == UNKNOWN_NETWORK || strategy.None? || target.None? then None
    else if Step(target.value, strategy.value) == DIRECT then None
    else Some(Decision(f.host, f.fp, f.family, Step(target.value, strategy.value), f.at))
  }

  function ParseLine(s: string): (r: Option<Decision>)
  {
    var f := ScanLine(s);
    if f.None? then None else Accepted(f.value)
  }

  /** Whatever the line, what is accepted may be stored. */
  lemma AcceptedIsStorable(s: string)
    requires ParseLine(s).Some?
    ensures var d := ParseLine(s).value;
      d.step != DIRECT && d.fp != UNKNOWN_NETWORK && 0 < |d.host| < DOMAIN_MAX && (d.family == 4 || d.family == 6)
  {
  }

  // ---- a line read back ----

  predicate HostChar(c: char)
  {
    'a' <= c <= 'z' || 'A' <= c <= 'Z' || '0' <= c <= '9' || c == '.' || c == '-' || c == '_'
  }

  /** A decision about a proper host, with every number within its range. */
  predicate Saveable(d: Decision)
  {
    && 0 < |d.host| < DOMAIN_MAX && (forall i :: 0 <= i < |d.host| ==> HostChar(d.host[i]))
    && 0 < d.fp <= MAX_U64 && (d.family == 4 || d.family == 6)
    && d.step != DIRECT && d.step.strategy in {Pass, TlsRec, TlsRecSplit}
    && -MAX_I64 - 1 <= d.at <= MAX_I64
  }

  lemma StrategyNames(s: Strategy)
    requires s in {Pass, TlsRec, TlsRecSplit}
    ensures IsWord(StrategyName(s)) && |StrategyName(s)| <= 12
    ensures StreamStrategyOf(StrategyName(s)) == Some(s)
  {
    StrategyWord(s);
    StrategyInLowerCase(s);
    NamedStrategy(StrategyName(s), s);
  }

  lemma StrategyWord(s: Strategy)
    requires s in {Pass, TlsRec, TlsRecSplit}
    ensures IsWord(StrategyName(s)) && |StrategyName(s)| <= 12
  {
  }

  lemma StrategyInLowerCase(s: Strategy)
    requires s in {Pass, TlsRec, TlsRecSplit}
    ensures Lower(StrategyName(s)) == StrategyName(s)
  {
    LowerIsSame(StrategyName(s));
  }

  lemma NamedStrategy(n: string, s: Strategy)
    requires n == StrategyName(s) && Lower(n) == n && s in {Pass, TlsRec, TlsRecSplit}
    ensures StreamStrategyOf(n) == Some(s)
  {
    assert |n| == (if s == Pass then 4 else if s == TlsRec then 6 else 12);
  }

  lemma TargetNames(t: Target)
    ensures IsWord(TargetName(t)) && |TargetName(t)| <= 8 && TargetOf(TargetName(t)) == Some(t)
  {
  }

  lemma {:induction false} LowerIsSame(s: string)
    requires forall i :: 0 <= i < |s| ==> !('A' <= s[i] <= 'Z')
    ensures Lower(s) == s
  {
    if |s| > 0 {
      LowerIsSame(s[1..]);
      assert s == [s[0]] + s[1..];
    }
  }

  lemma SixScans(s: string, a: string, b: string, c: string, e: string, f: string, g: string, r: Fields)
    requires ScanWord(s, 255) == Scanned(r.host, a) && ScanHex(a) == Scanned(r.fp, b) && ScanDec(b) == Scanned(r.family, c)
    requires ScanWord(c, 31) == Scanned(r.strategy, e) && ScanWord(e, 31) == Scanned(r.target, f) && ScanDec(f) == Scanned(r.at, g)
    requires r.family == 4 || r.family == 6
    ensures ScanLine(s) == Some(r)
  {
  }

  lemma LineIsScanned(d: Decision)
    requires Saveable(d)
    ensures ScanLine(Line(d)) == Some(Fields(d.host, d.fp, d.family, StrategyName(d.step.strategy), TargetName(d.step.target), d.at))
  {
    StrategyNames(d.step.strategy);
    TargetNames(d.step.target);
    FieldsAreScanned(d, StrategyName(d.step.strategy), TargetName(d.step.target));
  }

  lemma FieldsAreScanned(d: Decision, strategy: string, target: string)
    requires Saveable(d) && strategy == StrategyName(d.step.strategy) && target == TargetName(d.step.target)
    requires IsWord(strategy) && |strategy| <= 31 && IsWord(target) && |target| <= 31
    ensures ScanLine(Line(d)) == Some(Fields(d.host, d.fp, d.family, strategy, target, d.at))
  {
    var f := [' '] + (Dec(d.at) + "");
    var e := [' '] + (target + f);
    var c := [' '] + (strategy + e);
    var b := [' '] + (Dec(d.family) + c);
    var a := [' '] + (HexDigits(d.fp, 16) + b);
    WordIsScanned(d.host, a, 255);
    HexIsScanned(d.fp, b);
    DecIsScanned(d.family, c);
    WordIsScanned(strategy, e, 31);
    WordIsScanned(target, f, 31);
    DecIsScanned(d.at, "");
    SixScans(d.host + a, a, b, c, e, f, "", Fields(d.host, d.fp, d.family, strategy, target, d.at));
  }

  lemma LineIsParsed(d: Decision)
    requires Saveable(d)
    ensures ParseLine(Line(d)) == Some(d)
  {
    LineIsScanned(d);
    StrategyNames(d.step.strategy);
    TargetNames(d.step.target);
  }

  // ---- the table as it is being read ----

  /** The first place of a key, or the number of entries. */
  function PlaceOf(es: seq<Decision>, k: Key): (i: nat)
    ensures i <= |es| && (i < |es| ==> KeyOf(es[i]) == k) && forall j :: 0 <= j < i ==> KeyOf(es[j]) != k
  {
    if |es| == 0 || KeyOf(es[0]) == k then 0
    else
      var i := PlaceOf(es[1..], k);
      assert forall j :: 0 < j < |es| ==> es[1..][j - 1] == es[j];
      i + 1
  }

  function OldestPlace(es: seq<Decision>): (i: nat)
    requires |es| > 0
    ensures i < |es| && FirstOldest(es, i)
  {
    if |es| == 1 then 0
    else
      var n := |es| - 1;
      var i := OldestPlace(es[..n]);
      assert forall j :: 0 <= j < n ==> es[..n][j] == es[j];
      if es[n].at < es[i].at then n else i
  }

  /** The table as it is being read: its entries, their array's size, whether memory allows it to be
      grown, and the lines not understood or not stored. */
  datatype Loaded = Loaded(entries: seq<Decision>, cap: nat, memory: bool, skipped: nat)

  /** A decision read: over the one with its key, else behind the others, else over the oldest, else
      not at all. */
  function Put(l: Loaded, d: Decision): (r: Loaded)
  {
    var es := l.entries;
    var i := PlaceOf(es, KeyOf(d));
    if i < |es| then l.(entries := es[i := es[i].(step := d.step, at := d.at)])
    else if Appends(|es|, l.cap, l.memory) then l.(entries := es + [d], cap := CapAfter(|es|, l.cap, l.memory))
    else if |es| == 0 then l.(skipped := l.skipped + 1)
    else l.(entries := es[OldestPlace(es) := d])
  }

  method PutDecision(st: Store, d: Decision, memory: bool) returns (ok: bool)
    requires st.Valid() && d.step != DIRECT && d.fp != UNKNOWN_NETWORK && |d.host| < DOMAIN_MAX
    modifies st`entries, st`cap
    ensures st.Valid() && Loaded(st.entries, st.cap, memory, if ok then 0 else 1) == Put(Loaded(old(st.entries), old(st.cap), memory, 0), d)
  {
    var e := st.Find(d.host, d.fp, d.family);
    ghost var es := st.entries;
    ghost var i := PlaceOf(es, KeyOf(d));
    if e.Some? {
      assert i == e.value by { SamePlace(es, i, e.value); }
      OverOwn(st, e.value, d);
      return true;
    }
    assert i == |es| by { NoPlace(es, i); }
    var slot := st.NewSlot(memory);
    if slot.None? {
      return false;
    }
    if slot.value < |es| {
      assert slot.value == OldestPlace(es);
    }
    st.PutAt(slot.value, d);
    return true;
  }

  method OverOwn(st: Store, i: nat, d: Decision)
    requires st.Valid() && i < |st.entries| && d.step != DIRECT
    modifies st`entries
    ensures st.Valid() && st.entries == old(st.entries)[i := old(st.entries[i]).(step := d.step, at := d.at)]
  {
    var e := st.entries[i];
    assert e in st.entries;
    st.PutAt(i, e.(step := d.step, at := d.at));
  }

  lemma SamePlace(es: seq<Decision>, i: nat, j: nat)
    requires UniqueKeys(es) && j < |es| && i == PlaceOf(es, KeyOf(es[j]))
    ensures i == j
  {
  }

  lemma NoPlace(es: seq<Decision>, i: nat)
    requires UniqueKeys(es) && i <= |es| && (i < |es| ==> KeyOf(es[i]) !in Contents(es))
    ensures i == |es|
  {
    if i < |es| {
      InContents(es, i);
    }
  }

  // ---- lines of the file ----

  function LineEnd(text: string, pos: nat): (e: nat)
    requires pos <= |text|
    ensures pos <= e <= |text|
    decreases |text| - pos
  {
    if pos == |text| || text[pos] == '\n' then pos else LineEnd(text, pos + 1)
  }

  /** As much of a line as is kept. */
  function LineAt(text: string, pos: nat): (s: string)
    requires pos <= |text|
  {
    var e := LineEnd(text, pos);
    text[pos..if e - pos > LINE_MAX then pos + LINE_MAX else e]
  }

  function UpToNul(s: string): (r: string)
  {
    if |s| == 0 || s[0] == '\0' then "" else [s[0]] + UpToNul(s[1..])
  }

  function Unindented(s: string): (r: string)
  {
    if |s| > 0 && (s[0] == ' ' || s[0] == '\t' || s[0] == '\r') then Unindented(s[1..]) else s
  }

  predicate Ignored(s: string)
  {
    |s| == 0 || s[0] == '#'
  }

  /** How a line without its blanks is read; the file's own way is ParseLine. */
  type Parser = string -> Option<Decision>

  /** One line's effect. */
  function LoadLine(parse: Parser, l: Loaded, line: string): (r: Loaded)
  {
    var s := Unindented(UpToNul(line));
    if Ignored(s) then l
    else
      var d := parse(s);
      if d.None? then l.(skipped := l.skipped + 1) else Put(l, d.value)
  }

  /** The lines of the text from `pos` on, each with its effect. */
  function EachLine(parse: Parser, l: Loaded, text: string, pos: nat): (r: Loaded)
    decreases |text| - pos
  {
    if pos >= |text| then l else EachLine(parse, LoadLine(parse, l, LineAt(text, pos)), text, LineEnd(text, pos) + 1)
  }

  function Load(l: Loaded, text: string): (r: Loaded)
  {
    EachLine(ParseLine, l, text, 0)
  }

  predicate Storable(d: Decision)
  {
    d.step != DIRECT && d.fp != UNKNOWN_NETWORK && |d.host| < DOMAIN_MAX
  }

  method ReadLine(text: string, start: nat) returns (line: string, next: nat)
    requires start <= |text|
    ensures line == LineAt(text, start) && next == LineEnd(text, start) + 1
  {
    var pos := start;
    line := "";
    while pos < |text| && text[pos] != '\n'
      invariant start <= pos <= LineEnd(text, start) == LineEnd(text, pos)
      invariant line == text[start..if pos - start > LINE_MAX then start + LINE_MAX else pos]
    {
      if |line| + 1 < LINE_MAX + 1 {
        line := line + [text[pos]];
      }
      pos := pos + 1;
    }
    next := pos + 1;
  }

  method ParseInto(st: Store, parse: Parser, line: string, memory: bool) returns (ok: bool)
    requires st.Valid() && forall s :: parse(s).Some? ==> Storable(parse(s).value)
    modifies st`entries, st`cap
    ensures st.Valid()
    ensures Loaded(st.entries, st.cap, memory, if ok then 0 else 1) == LoadLine(parse, Loaded(old(st.entries), old(st.cap), memory, 0), line)
  {
    var s := Unindented(UpToNul(line));
    if Ignored(s) {
      return true;
    }
    var d := parse(s);
    if d.None? {
      return false;
    }
    ok := PutDecision(st, d.value, memory);
  }

  /** tp_decisions_parse: the entries that the lines make, and the number of lines left out. */
  method TpDecisionsParse(st: Store, text: string, memory: bool) returns (skipped: nat)
    requires st.Valid()
    modifies st`entries, st`cap, st`dirty
    ensures st.Valid() && !st.dirty
    ensures Loaded(st.entries, st.cap, memory, skipped) == Load(Loaded(old(st.entries), old(st.cap), memory, 0), text)
  {
    forall s | ParseLine(s).Some?
      ensures Storable(ParseLine(s).value)
    {
      AcceptedIsStorable(s);
    }
    skipped := ParseLines(st, ParseLine, text, memory);
    st.dirty := false;
  }

  method ParseLines(st: Store, parse: Parser, text: string, memory: bool) returns (skipped: nat)
    requires st.Valid() && forall s :: parse(s).Some? ==> Storable(parse(s).value)
    modifies st`entries, st`cap
    ensures st.Valid()
    ensures Loaded(st.entries, st.cap, memory, skipped) == EachLine(parse, Loaded(old(st.entries), old(st.cap), memory, 0), text, 0)
  {
    var pos := 0;
    skipped := 0;
    ghost var start := Loaded(st.entries, st.cap, memory, 0);
    while pos < |text|
      invariant 0 <= pos && st.Valid()
      invariant EachLine(parse, Loaded(st.entries, st.cap, memory, skipped), text, pos) == EachLine(parse, start, text, 0)
      decreases |text| - pos
    {
      ghost var before := Loaded(st.entries, st.cap, memory, skipped);
      var line, next := ReadLine(text, pos);
      var ok := ParseInto(st, parse, line, memory);
      if !ok {
        skipped := skipped + 1;
      }
      SkipsAdd(parse, before, line);
      assert Loaded(st.entries, st.cap, memory, skipped) == LoadLine(parse, before, line);
      pos := next;
    }
  }

  /** Lines skipped before do not matter to a line's effect. */
  lemma SkipsAdd(parse: Parser, l: Loaded, line: string)
    ensures var r := LoadLine(parse, l.(skipped := 0), line); LoadLine(parse, l, line) == r.(skipped := l.skipped + r.skipped)
  {
  }

  // ---- the file written ----

  function Lines(es: seq<Decision>): (ls: seq<string>)
    ensures |ls| == |es|
  {
    seq(|es|, i requires 0 <= i < |es| => Line(es[i]))
  }

  function Terminated(ls: seq<string>): (s: string)
  {
    if |ls| == 0 then "" else ls[0] + (['\n'] + Terminated(ls[1..]))
  }

  function Text(es: seq<Decision>): (s: string)
  {
    HEADER + Terminated(Lines(es))
  }

  lemma {:induction false} TerminatedMore(ls: seq<string>, l: string)
    ensures Terminated(ls + [l]) == Terminated(ls) + (l + ['\n'])
  {
    if |ls| > 0 {
      assert (ls + [l])[1..] == ls[1..] + [l];
      TerminatedMore(ls[1..], l);
      assert ls[0] + (['\n'] + (Terminated(ls[1..]) + (l + ['\n']))) == ls[0] + (['\n'] + Terminated(ls[1..])) + (l + ['\n']);
    } else {
      assert [l][1..] == [];
      assert l + (['\n'] + "") == "" + (l + ['\n']);
    }
  }

  lemma TerminatedNext(ls: seq<string>, i: nat)
    requires i < |ls|
    ensures Terminated(ls[..i + 1]) == Terminated(ls[..i]) + (ls[i] + ['\n'])
  {
    TerminatedMore(ls[..i], ls[i]);
    assert ls[..i] + [ls[i]] == ls[..i + 1];
  }

  lemma {:induction false} TerminatedGrows(ls: seq<string>, i: nat)
    requires i <= |ls|
    ensures |Terminated(ls[..i])| <= |Terminated(ls)|
    decreases |ls| - i
  {
    if i < |ls| {
      TerminatedGrows(ls, i + 1);
      TerminatedNext(ls, i);
    } else {
      assert ls[..i] == ls;
    }
  }

  /** tp_decisions_serialize into `size` characters with a terminator: all of it or nothing. */
  method TpDecisionsSerialize(st: Store, size: nat) returns (out: Option<string>)
    ensures out == if |Text(st.entries)| < size then Some(Text(st.entries)) else None
  {
    if |HEADER| >= size {
      return None;
    }
    var text, i := HEADER, 0;
    ghost var ls := Lines(st.entries);
    while i < |st.entries|
      invariant i <= |st.entries| && text == HEADER + Terminated(ls[..i]) && |text| < size
    {
      var line := Line(st.entries[i]);
      assert line == ls[i];
      TerminatedNext(ls, i);
      TerminatedGrows(ls, i + 1);
      if |line + ['\n']| >= size - |text| {
        return None;
      }
      Assoc(HEADER, Terminated(ls[..i]), line + ['\n']);
      text := text + (line + ['\n']);
      i := i + 1;
    }
    assert ls[..i] == ls;
    out := Some(text);
  }

  // ---- the file read back ----

  /** No end of line, no terminator, and short enough to be kept whole. */
  predicate OneLine(l: string)
  {
    |l| <= LINE_MAX && forall i :: 0 <= i < |l| ==> l[i] != '\n' && l[i] != '\0'
  }

  lemma {:induction false} LineEndIs(text: string, pos: nat, l: string, rest: string)
    requires pos <= |text| && text[pos..] == l + (['\n'] + rest) && forall i :: 0 <= i < |l| ==> l[i] != '\n'
    ensures LineEnd(text, pos) == pos + |l|
    decreases |l|
  {
    var t := l + (['\n'] + rest);
    assert text[pos] == t[0];
    if |l| > 0 {
      assert t[1..] == l[1..] + (['\n'] + rest);
      SliceOfDrop(text, pos, 0, 1);
      LineEndIs(text, pos + 1, l[1..], rest);
    }
  }

  lemma LineIsCut(text: string, pos: nat, l: string, rest: string)
    requires pos <= |text| && text[pos..] == l + (['\n'] + rest) && OneLine(l)
    ensures LineEnd(text, pos) + 1 <= |text| && LineAt(text, pos) == l && text[LineEnd(text, pos) + 1..] == rest
  {
    LineEndIs(text, pos, l, rest);
    var t := l + (['\n'] + rest);
    assert t[0..|l|] == l && t[|l| + 1..] == rest;
    SliceOfDrop(text, pos, 0, |l|);
    SliceOfDrop(text, pos, 0, |l| + 1);
  }

  lemma {:induction false} NoNul(s: string)
    requires forall i :: 0 <= i < |s| ==> s[i] != '\0'
    ensures UpToNul(s) == s
  {
    if |s| > 0 {
      NoNul(s[1..]);
      assert s == [s[0]] + s[1..];
    }
  }

  /** Characters that neither end a line nor are blank at its start. */
  predicate Plain(s: string)
  {
    forall i :: 0 <= i < |s| ==> s[i] != '\n' && s[i] != '\0'
  }

  lemma PlainWith(s: string, t: string)
    requires Plain(s) && Plain(t)
    ensures Plain(s + ([' '] + t))
  {
  }

  lemma PlainDigits(s: string, base: nat)
    requires Digits(s, base)
    ensures Plain(s)
  {
  }

  function Power10(k: nat): nat
  {
    if k == 0 then 1 else 10 * Power10(k - 1)
  }

  lemma {:induction false} DecLength(v: nat, k: nat)
    requires 0 < k && v < Power10(k)
    ensures |DecDigits(v)| <= k
    decreases k
  {
    if v >= 10 {
      assert k > 1;
      DecLength(v / 10, k - 1);
    }
  }

  lemma PlainDec(v: int)
    requires -MAX_I64 - 1 <= v <= MAX_I64
    ensures Plain(Dec(v)) && |Dec(v)| <= 20
  {
    var m: nat := if v < 0 then -v else v;
    DecIsRead(m);
    PlainDigits(DecDigits(m), 10);
    assert Power10(5) == 100_000 && Power10(10) == 10_000_000_000;
    assert Power10(15) == 1_000_000_000_000_000 && Power10(19) == 10_000_000_000_000_000_000;
    DecLength(m, 19);
  }

  /** A saved decision's line is one line, and starts with a host. */
  lemma LineIsOne(d: Decision)
    requires Saveable(d)
    ensures OneLine(Line(d)) && |Line(d)| > 0 && HostChar(Line(d)[0])
  {
    StrategyNames(d.step.strategy);
    TargetNames(d.step.target);
    PlainHex(d.fp);
    PlainDec(d.family);
    PlainDec(d.at);
    PlainHost(d.host);
    PlainLine(d.host, HexDigits(d.fp, 16), Dec(d.family), StrategyName(d.step.strategy), TargetName(d.step.target), Dec(d.at));
  }

  lemma PlainHex(v: nat)
    requires v <= MAX_U64
    ensures Plain(HexDigits(v, 16))
  {
    PowerIs();
    HexIsRead(v, 16);
    PlainDigits(HexDigits(v, 16), 16);
  }

  lemma PlainHost(h: string)
    requires forall i :: 0 <= i < |h| ==> HostChar(h[i])
    ensures Plain(h)
  {
  }

  lemma PlainLine(a: string, b: string, c: string, e: string, f: string, g: string)
    requires Plain(a) && Plain(b) && Plain(c) && Plain(e) && Plain(f) && Plain(g)
    ensures Plain(a + ([' '] + (b + ([' '] + (c + ([' '] + (e + ([' '] + (f + ([' '] + (g + "")))))))))))
    ensures |a + ([' '] + (b + ([' '] + (c + ([' '] + (e + ([' '] + (f + ([' '] + (g + ""))))))))))| == |a| + |b| + |c| + |e| + |f| + |g| + 5
    ensures |a| > 0 ==> (a + ([' '] + (b + ([' '] + (c + ([' '] + (e + ([' '] + (f + ([' '] + (g + "")))))))))))[0] == a[0]
  {
    assert g + "" == g;
    PlainWith(f, g);
    PlainWith(e, f + ([' '] + g));
    PlainWith(c, e + ([' '] + (f + ([' '] + g))));
    PlainWith(b, c + ([' '] + (e + ([' '] + (f + ([' '] + g))))));
    PlainWith(a, b + ([' '] + (c + ([' '] + (e + ([' '] + (f + ([' '] + g))))))));
  }

  /** A state of reading in which there is room, or will be made, for `n` more. */
  predicate HasRoom(l: Loaded, n: nat)
  {
    |l.entries| <= l.cap <= DECISIONS_MAX && (l.memory || |l.entries| + n <= l.cap) && |l.entries| + n <= DECISIONS_MAX
  }

  function Behind(l: Loaded, d: Decision): (r: Loaded)
  {
    l.(entries := l.entries + [d], cap := CapAfter(|l.entries|, l.cap, l.memory))
  }

  lemma LineIsLoaded(parse: Parser, l: Loaded, d: Decision)
    requires Saveable(d) && HasRoom(l, 1) && UniqueKeys(l.entries + [d]) && parse(Line(d)) == Some(d)
    ensures LoadLine(parse, l, Line(d)) == Behind(l, d)
  {
    LineIsOne(d);
    NoNul(Line(d));
    NewKey(l.entries, d);
    LineTakesEffect(parse, l, Line(d), d);
  }

  lemma LineTakesEffect(parse: Parser, l: Loaded, s: string, d: Decision)
    requires |s| > 0 && HostChar(s[0]) && UpToNul(s) == s && parse(s) == Some(d)
    ensures LoadLine(parse, l, s) == Put(l, d)
  {
    assert Unindented(s) == s;
  }

  lemma NewKey(es: seq<Decision>, d: Decision)
    requires UniqueKeys(es + [d])
    ensures PlaceOf(es, KeyOf(d)) == |es|
  {
    var i := PlaceOf(es, KeyOf(d));
    assert (es + [d])[|es|] == d && forall j :: 0 <= j < |es| ==> (es + [d])[j] == es[j];
  }

  predicate AllSaveable(es: seq<Decision>)
  {
    forall i :: 0 <= i < |es| ==> Saveable(es[i])
  }

  function Effects(parse: Parser, l: Loaded, ls: seq<string>): (r: Loaded)
    decreases |ls|
  {
    if |ls| == 0 then l else Effects(parse, LoadLine(parse, l, ls[0]), ls[1..])
  }

  predicate AllOneLine(ls: seq<string>)
  {
    forall i :: 0 <= i < |ls| ==> OneLine(ls[i])
  }

  lemma {:induction false} EachLineIs(parse: Parser, l: Loaded, text: string, pos: nat, ls: seq<string>)
    requires AllOneLine(ls) && pos <= |text| && text[pos..] == Terminated(ls)
    ensures EachLine(parse, l, text, pos) == Effects(parse, l, ls)
    decreases |ls|
  {
    if |ls| > 0 {
      LineIsCut(text, pos, ls[0], Terminated(ls[1..]));
      EachLineIs(parse, LoadLine(parse, l, ls[0]), text, LineEnd(text, pos) + 1, ls[1..]);
    }
  }

  predicate Understood(parse: Parser, es: seq<Decision>)
  {
    forall i :: 0 <= i < |es| ==> parse(Line(es[i])) == Some(es[i])
  }

  lemma {:induction false} LinesAreLoaded(parse: Parser, l: Loaded, es: seq<Decision>)
    requires UniqueKeys(l.entries + es) && HasRoom(l, |es|) && AllSaveable(es) && Understood(parse, es)
    ensures var r := Effects(parse, l, Lines(es)); r.entries == l.entries + es && r.skipped == l.skipped
    decreases |es|
  {
    if |es| > 0 {
      FirstTaken(l.entries, es);
      LineIsLoaded(parse, l, es[0]);
      FirstEffect(parse, l, es);
      LinesAreLoaded(parse, Behind(l, es[0]), es[1..]);
    } else {
      PlusEmpty(l.entries);
    }
  }

  lemma FirstTaken(done: seq<Decision>, es: seq<Decision>)
    requires |es| > 0 && UniqueKeys(done + es)
    ensures done + es == done + [es[0]] + es[1..] && UniqueKeys(done + [es[0]]) && UniqueKeys(done + [es[0]] + es[1..])
  {
    assert done + es == done + [es[0]] + es[1..];
    UniqueFront(done + [es[0]], es[1..]);
  }

  lemma FirstEffect(parse: Parser, l: Loaded, es: seq<Decision>)
    requires |es| > 0
    ensures Effects(parse, l, Lines(es)) == Effects(parse, LoadLine(parse, l, Line(es[0])), Lines(es[1..]))
  {
    assert Lines(es)[0] == Line(es[0]) && Lines(es)[1..] == Lines(es[1..]);
  }

  lemma UniqueFront(a: seq<Decision>, b: seq<Decision>)
    requires UniqueKeys(a + b)
    ensures UniqueKeys(a)
  {
    assert forall i :: 0 <= i < |a| ==> (a + b)[i] == a[i];
  }

  /** Every table of proper decisions is restored as it was, in the same order, with no line skipped. */
  lemma FileRoundTrip(es: seq<Decision>)
    requires UniqueKeys(es) && |es| <= DECISIONS_MAX && AllSaveable(es)
    ensures var r := Load(Loaded([], 0, true, 0), Text(es)); r.entries == es && r.skipped == 0
  {
    forall i | 0 <= i < |es|
      ensures ParseLine(Line(es[i])) == Some(es[i])
    {
      LineIsParsed(es[i]);
    }
    TextIsLoaded(ParseLine, es);
  }

  lemma TextIsLoaded(parse: Parser, es: seq<Decision>)
    requires UniqueKeys(es) && |es| <= DECISIONS_MAX && AllSaveable(es) && Understood(parse, es)
    ensures var r := EachLine(parse, Loaded([], 0, true, 0), Text(es), 0); r.entries == es && r.skipped == 0
  {
    var l := Loaded([], 0, true, 0);
    var ls := [TITLE] + Lines(es);
    TitleIsIgnored(parse, l);
    LinesAreOne(es);
    assert ls[1..] == Lines(es);
    Assoc(TITLE, ['\n'], Terminated(Lines(es)));
    assert Text(es)[0..] == Terminated(ls);
    EachLineIs(parse, l, Text(es), 0, ls);
    PlusEmpty(es);
    LinesAreLoaded(parse, l, es);
  }

  lemma LinesAreOne(es: seq<Decision>)
    requires AllSaveable(es)
    ensures AllOneLine(Lines(es))
  {
    forall i | 0 <= i < |es|
      ensures OneLine(Lines(es)[i])
    {
      LineIsOne(es[i]);
    }
  }

  lemma TitleIsIgnored(parse: Parser, l: Loaded)
    ensures OneLine(TITLE) && LoadLine(parse, l, TITLE) == l
  {
    TitleIsPlain();
    NoNul(TITLE);
    assert Unindented(TITLE) == TITLE;
  }

  lemma TitleIsPlain()
    ensures Plain(TITLE) && 0 < |TITLE| <= LINE_MAX && TITLE[0] == '#'
  {
    assert Plain("# dpi-proxyd decisions: ");
    assert Plain("host fingerprint family ");
    assert Plain("strategy target validated_at");
  }

  // ---- what a line may be ----

  predicate IsBlank(c: char)
  {
    c == ' ' || c == '\t' || c == '\r'
  }

  /** Behind its blanks a line that is empty or begins with # changes nothing and is not counted; any other
      is read from there, up to a NUL, and counted as skipped exactly when it cannot be. */
  lemma LineIsWeighed(parse: Parser, l: Loaded, line: string, i: nat)
    requires i <= |line| && (forall j :: 0 <= j < i ==> IsBlank(line[j])) && (i < |line| ==> !IsBlank(line[i]))
    ensures i == |line| || line[i] == '\0' || line[i] == '#' ==> LoadLine(parse, l, line) == l
    ensures i < |line| && line[i] != '\0' && line[i] != '#' ==>
      var d := parse(UpToNul(line[i..]));
      LoadLine(parse, l, line) == if d.None? then l.(skipped := l.skipped + 1) else Put(l, d.value)
  {
    BlanksGo(line, i);
  }

  lemma {:induction false} BlanksGo(line: string, i: nat)
    requires i <= |line| && (forall j :: 0 <= j < i ==> IsBlank(line[j])) && (i < |line| ==> !IsBlank(line[i]))
    ensures Unindented(UpToNul(line)) == UpToNul(line[i..])
    decreases i
  {
    if i > 0 {
      assert line[1..][i - 1..] == line[i..];
      BlanksGo(line[1..], i - 1);
      assert UpToNul(line)[1..] == UpToNul(line[1..]);
    } else {
      assert line[0..] == line;
    }
  }
}
