/** Words and numbers as the decision file holds them: what printf writes and what sscanf reads. */
module DecisionText {
  import opened Bytes

  predicate IsSpace(c: char)
  {
    c == ' ' || '\t' <= c <= '\r'
  }

  datatype Scanned<T> = Mismatch | Scanned(value: T, rest: string)

  function SkipSpace(s: string): (r: string)
  {
    if |s| > 0 && IsSpace(s[0]) then SkipSpace(s[1..]) else s
  }

  // ---- %s with a width ----

  function WordLen(s: string, max: nat): (n: nat)
    ensures n <= |s| && n <= max
  {
    if |s| == 0 || max == 0 || IsSpace(s[0]) then 0 else 1 + WordLen(s[1..], max - 1)
  }

  function ScanWord(s: string, max: nat): (r: Scanned<string>)
  {
    var t := SkipSpace(s);
    var n := WordLen(t, max);
    if n == 0 then Mismatch else Scanned(t[..n], t[n..])
  }

  predicate IsWord(w: string)
  {
    |w| > 0 && forall i :: 0 <= i < |w| ==> !IsSpace(w[i])
  }

  /** The end of the text, or a space. */
  predicate Stops(rest: string)
  {
    |rest| == 0 || IsSpace(rest[0])
  }

  lemma {:induction false} WordLenIs(w: string, rest: string, max: nat)
    requires (forall i :: 0 <= i < |w| ==> !IsSpace(w[i])) && |w| <= max && Stops(rest)
    ensures WordLen(w + rest, max) == |w|
  {
    if |w| > 0 {
      assert (w + rest)[1..] == w[1..] + rest;
      WordLenIs(w[1..], rest, max - 1);
    } else {
      assert w + rest == rest;
    }
  }

  lemma WordIsScanned(w: string, rest: string, max: nat)
    requires IsWord(w) && |w| <= max && Stops(rest)
    ensures ScanWord(w + rest, max) == Scanned(w, rest)
    ensures ScanWord([' '] + (w + rest), max) == Scanned(w, rest)
  {
    WordLenIs(w, rest, max);
    Unspaced(w + rest);
    assert (w + rest)[..|w|] == w && (w + rest)[|w|..] == rest;
  }

  lemma Unspaced(t: string)
    requires |t| > 0 && !IsSpace(t[0])
    ensures SkipSpace(t) == t && SkipSpace([' '] + t) == t
  {
    assert ([' '] + t)[1..] == t;
  }

  // ---- digits ----

  function DigitOf(v: nat): (c: char)
    requires v < 16
  {
    if v < 10 then (48 + v) as char else (87 + v) as char
  }

  /** The value of a digit, upper or lower case; 16 for any other character. */
  function ValueOf(c: char): (v: nat)
    ensures v <= 16
  {
    if '0' <= c <= '9' then c as int - 48
    else if 'a' <= c <= 'f' then c as int - 87
    else if 'A' <= c <= 'F' then c as int - 55
    else 16
  }

  predicate IsDigit(c: char, base: nat)
  {
    ValueOf(c) < base && ValueOf(c) < 16
  }

  function DigitCount(s: string, base: nat): (n: nat)
    ensures n <= |s|
  {
    if |s| == 0 || !IsDigit(s[0], base) then 0 else 1 + DigitCount(s[1..], base)
  }

  function Number(s: string, base: nat): (v: nat)
  {
    if |s| == 0 then 0 else Number(s[..|s| - 1], base) * base + ValueOf(s[|s| - 1])
  }

  predicate Digits(s: string, base: nat)
  {
    forall i :: 0 <= i < |s| ==> IsDigit(s[i], base)
  }

  lemma {:induction false} DigitCountIs(s: string, rest: string, base: nat)
    requires Digits(s, base) && (|rest| == 0 || !IsDigit(rest[0], base))
    ensures DigitCount(s + rest, base) == |s|
  {
    if |s| > 0 {
      assert (s + rest)[1..] == s[1..] + rest;
      DigitCountIs(s[1..], rest, base);
    } else {
      assert s + rest == rest;
    }
  }

  /** %x padded to `width` digits */
  function HexDigits(v: nat, width: nat): (s: string)
    ensures |s| == width
  {
    if width == 0 then "" else HexDigits(v / 16, width - 1) + [DigitOf(v % 16)]
  }

  function Power16(k: nat): nat
  {
    if k == 0 then 1 else 16 * Power16(k - 1)
  }

  lemma {:induction false} HexIsRead(v: nat, width: nat)
    requires v < Power16(width)
    ensures Digits(HexDigits(v, width), 16) && Number(HexDigits(v, width), 16) == v
  {
    if width > 0 {
      HexIsRead(v / 16, width - 1);
      var s := HexDigits(v, width);
      assert s[..width - 1] == HexDigits(v / 16, width - 1);
    }
  }

  /** %d of a number that is not negative */
  function DecDigits(v: nat): (s: string)
    ensures |s| > 0
  {
    if v < 10 then [DigitOf(v)] else DecDigits(v / 10) + [DigitOf(v % 10)]
  }

  lemma {:induction false} DecIsRead(v: nat)
    ensures Digits(DecDigits(v), 10) && Number(DecDigits(v), 10) == v
  {
    var s := DecDigits(v);
    if v >= 10 {
      DecIsRead(v / 10);
      assert s[..|s| - 1] == DecDigits(v / 10);
    } else {
      assert s[..0] == "";
    }
  }

  // ---- numbers ----

  const MAX_U64: int := 0xFFFF_FFFF_FFFF_FFFF
  const MAX_I64: int := 0x7FFF_FFFF_FFFF_FFFF

  function Sign(s: string): (r: (bool, string))
  {
    if |s| > 0 && s[0] == '-' then (true, s[1..]) else if |s| > 0 && s[0] == '+' then (false, s[1..]) else (false, s)
  }

  /** A leading 0x, when a digit follows it. */
  function Unprefixed(s: string): (r: string)
  {
    if |s| > 2 && s[0] == '0' && (s[1] == 'x' || s[1] == 'X') && IsDigit(s[2], 16) then s[2..] else s
  }

  /** %llx: an unsigned number, at most the greatest; a minus sign negates it. */
  function ScanHex(s: string): (r: Scanned<nat>)
  {
    var (minus, t) := Sign(SkipSpace(s));
    var d := Unprefixed(t);
    var n := DigitCount(d, 16);
    if n == 0 then Mismatch
    else
      var v := Number(d[..n], 16);
      Scanned(if v > MAX_U64 then MAX_U64 else if minus && v > 0 then MAX_U64 + 1 - v else v, d[n..])
  }

  function Clamped(v: int): (r: int)
  {
    if v < -MAX_I64 - 1 then -MAX_I64 - 1 else if v > MAX_I64 then MAX_I64 else v
  }

  function ScanDigits(minus: bool, t: string): (r: Scanned<int>)
  {
    var n := DigitCount(t, 10);
    if n == 0 then Mismatch
    else
      var v: int := Number(t[..n], 10);
      Scanned(Clamped(if minus then -v else v), t[n..])
  }

  /** %lld: a signed number, held within the range. */
  function ScanDec(s: string): (r: Scanned<int>)
  {
    var (minus, t) := Sign(SkipSpace(s));
    ScanDigits(minus, t)
  }

  function Dec(v: int): (s: string)
  {
    if v < 0 then ['-'] + DecDigits(-v) else DecDigits(v)
  }

  lemma HexIsScanned(v: nat, rest: string)
    requires v <= MAX_U64 && Stops(rest)
    ensures ScanHex([' '] + (HexDigits(v, 16) + rest)) == Scanned(v, rest)
  {
    var d := HexDigits(v, 16);
    assert Power16(16) == MAX_U64 + 1 by { PowerIs(); }
    HexIsRead(v, 16);
    assert IsDigit(d[0], 16) && IsDigit(d[1], 16);
    var t := d + rest;
    assert t[0] == d[0] && t[1] == d[1];
    Unspaced(t);
    DigitCountIs(d, rest, 16);
    assert t[..16] == d && t[16..] == rest;
  }

  lemma PowerIs()
    ensures Power16(16) == MAX_U64 + 1
  {
    assert Power16(4) == 0x1_0000;
    assert Power16(8) == 0x1_0000_0000;
    assert Power16(12) == 0x1_0000_0000_0000;
  }

  lemma DigitsAreScanned(minus: bool, m: nat, rest: string)
    requires Stops(rest)
    ensures ScanDigits(minus, DecDigits(m) + rest) == Scanned(Clamped(if minus then 0 - m else m), rest)
  {
    var d := DecDigits(m);
    DecIsRead(m);
    DigitCountIs(d, rest, 10);
    assert (d + rest)[..|d|] == d && (d + rest)[|d|..] == rest;
  }

  lemma MinusIsRead(t: string)
    ensures Sign(SkipSpace([' '] + (['-'] + t))) == (true, t)
  {
    Unspaced(['-'] + t);
    assert (['-'] + t)[1..] == t;
  }

  lemma NoSignIsRead(m: nat, rest: string)
    ensures Sign(SkipSpace([' '] + (DecDigits(m) + rest))) == (false, DecDigits(m) + rest)
  {
    var d := DecDigits(m);
    DecIsRead(m);
    assert IsDigit(d[0], 10) && (d + rest)[0] == d[0];
    Unspaced(d + rest);
  }

  lemma DecIsScanned(v: int, rest: string)
    requires -MAX_I64 - 1 <= v <= MAX_I64 && Stops(rest)
    ensures ScanDec([' '] + (Dec(v) + rest)) == Scanned(v, rest)
  {
    if v < 0 {
      Assoc(['-'], DecDigits(-v), rest);
      MinusIsRead(DecDigits(-v) + rest);
      DigitsAreScanned(true, -v, rest);
    } else {
      NoSignIsRead(v, rest);
      DigitsAreScanned(false, v, rest);
    }
  }
}
