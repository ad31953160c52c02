/**
 * Character and integer text as the C library of the server sees it:
 * `isdigit`, `isspace`, the decimal text printed by `%d`, the value read
 * back by `atoi` and by the `%d` conversion of `sscanf`.
 *
 * C's `int` is 32 bits wide. glibc's `atoi(s)` is `(int) strtol(s, 0, 10)`:
 * `strtol` saturates at the range of a 64-bit `long`, and the conversion to
 * `int` keeps the low 32 bits. `sscanf`'s `%d` stores its `strtol` result the
 * same way. Both are written out below.
 */
module CText {
  const IntMin: int := -0x8000_0000
  const IntMax: int := 0x7FFF_FFFF
  const LongMin: int := -0x8000_0000_0000_0000
  const LongMax: int := 0x7FFF_FFFF_FFFF_FFFF

  predicate IsDigit(c: char) { '0' <= c <= '9' }

  predicate AllDigits(s: string) { forall i :: 0 <= i < |s| ==> IsDigit(s[i]) }

  /** The characters `isspace` accepts in the "C" locale. */
  predicate IsSpace(c: char) {
    c == ' ' || c == '\t' || c == '\n' || c == '\U{B}' || c == '\U{C}' || c == '\r'
  }

  function DigitValue(c: char): (d: int)
    requires IsDigit(c)
    ensures 0 <= d <= 9
  {
    c as int - '0' as int
  }

  function DigitChar(d: int): (c: char)
    requires 0 <= d <= 9
    ensures IsDigit(c) && DigitValue(c) == d
  {
    ('0' as int + d) as char
  }

  /** The value of a string of decimal digits, most significant first. */
  function DecimalValue(s: string): nat
    requires AllDigits(s)
    decreases |s|
  {
    if s == [] then 0 else DecimalValue(s[..|s| - 1]) * 10 + DigitValue(s[|s| - 1])
  }

  /** The text `%d` prints for a non-negative value: no sign, no leading zero. */
  function Decimal(n: nat): (s: string)
    ensures 1 <= |s| && AllDigits(s) && DecimalValue(s) == n
    ensures n < 10 <==> |s| == 1
    ensures 10 <= n < 100 <==> |s| == 2
    decreases n
  {
    if n < 10 then [DigitChar(n)]
    else
      var s := Decimal(n / 10) + [DigitChar(n % 10)];
      assert s[..|s| - 1] == Decimal(n / 10);
      s
  }

  /** The text `%d` prints for any value. */
  function IntText(v: int): (s: string)
    ensures 0 <= v ==> s == Decimal(v)
    ensures v < 0 ==> s == "-" + Decimal(-v)
  {
    if v < 0 then "-" + Decimal(-v) else Decimal(v)
  }

  /** What `strtol` returns for the mathematical value `v`: clamped to `long`. */
  function Saturate(v: int): (r: int)
    ensures LongMin <= r <= LongMax
    ensures LongMin <= v <= LongMax ==> r == v
    ensures v > LongMax ==> r == LongMax
    ensures v < LongMin ==> r == LongMin
  {
    if v > LongMax then LongMax else if v < LongMin then LongMin else v
  }

  /** The low 32 bits of `w`, read as a two's complement `int`. */
  function Low32(w: int): (r: int)
    ensures IntMin <= r <= IntMax
    ensures (r - w) % 0x1_0000_0000 == 0
  {
    (w - IntMin) % 0x1_0000_0000 + IntMin
  }

  /** What gcc's `(int)` conversion makes of what `strtol` returns for `v`. */
  function ToCInt(v: int): (r: int)
    ensures IntMin <= r <= IntMax
    ensures IntMin <= v <= IntMax ==> r == v
  {
    var w := Saturate(v);
    if IntMin <= w <= IntMax then w else Low32(w)
  }

  /** `atoi` applied to a string of digits, as the server always does. */
  function Atoi(s: string): (r: int)
    requires AllDigits(s)
    ensures IntMin <= r <= IntMax
    ensures DecimalValue(s) <= IntMax ==> r == DecimalValue(s)
  {
    ToCInt(DecimalValue(s))
  }

  /** The number of leading characters of `s` that satisfy `isdigit`. */
  function DigitRun(s: string): (n: nat)
    ensures n <= |s| && AllDigits(s[..n])
    ensures n < |s| ==> !IsDigit(s[n])
    decreases |s|
  {
    if s != [] && IsDigit(s[0]) then
      var n := 1 + DigitRun(s[1..]);
      assert s[..n] == [s[0]] + s[1..][..n - 1];
      n
    else 0
  }

  /** `s` with its leading white space removed, as `%d` and a blank in a format skip it. */
  function SkipSpace(s: string): (t: string)
    ensures |t| <= |s| && t == s[|s| - |t|..]
    ensures forall i :: 0 <= i < |s| - |t| ==> IsSpace(s[i])
    ensures t == [] || !IsSpace(t[0])
    decreases |s|
  {
    if s != [] && IsSpace(s[0]) then SkipSpace(s[1..]) else s
  }

  datatype Scanned = NoNumber | Number(value: int, rest: string)

  /**
   * One `%d` conversion: white space, an optional sign, then at least one
   * digit; the digits run as far as they go.
   */
  function ScanInt(s: string): (r: Scanned)
    ensures r.Number? ==> |r.rest| < |s|
  {
    ScanNumber(SkipSpace(s))
  }

  /** A `%d` conversion once white space is skipped: a sign, then digits. */
  function ScanNumber(t: string): (r: Scanned)
    ensures r.Number? ==> |r.rest| < |t|
  {
    var signed := t != [] && (t[0] == '-' || t[0] == '+');
    var u := if signed then t[1..] else t;
    var n := DigitRun(u);
    if n == 0 then NoNumber
    else
      var magnitude: int := DecimalValue(u[..n]);
      Number(ToCInt(if signed && t[0] == '-' then -magnitude else magnitude), u[n..])
  }

  /**
   * The values `sscanf(s, "%d %d ... %d")` with `k` conversions stores, in
   * order; it stops at the first conversion that fails, and its return value
   * is the length of this sequence (or EOF, which is not `k` either).
   */
  function ScanInts(s: string, k: nat): (vs: seq<int>)
    ensures |vs| <= k
    decreases k
  {
    if k == 0 then []
    else
      match ScanInt(s)
      case NoNumber => []
      case Number(v, rest) => [v] + ScanInts(rest, k - 1)
  }

  lemma ScanSpaceFirst(s: string, k: nat)
    ensures ScanInts([' '] + s, k) == ScanInts(s, k)
  {
    if k > 0 {
      assert ([' '] + s)[1..] == s;
      assert SkipSpace([' '] + s) == SkipSpace(s);
    }
  }

  lemma ScanIntDigit(d: int, rest: string)
    requires 0 <= d <= 9
    requires rest == [] || rest[0] == ' '
    ensures ScanInt([DigitChar(d)] + rest) == Number(d, rest)
  {
    var c := DigitChar(d);
    var u := [c] + rest;
    assert u[0] == c && u[1..] == rest;
    assert !IsSpace(c) && c != '-' && c != '+';
    assert SkipSpace(u) == u;
    DigitRunOne(u);
    assert ToCInt(d) == d;
  }

  lemma DigitRunOne(u: string)
    requires |u| >= 1 && IsDigit(u[0]) && (|u| == 1 || u[1] == ' ')
    ensures DigitRun(u) == 1 && u[..1] == [u[0]] && DecimalValue(u[..1]) == DigitValue(u[0])
  {
    assert DigitRun(u[1..]) == 0;
    assert u[..1][..0] == [];
  }

  lemma ScanDigitFirst(d: int, rest: string, k: nat)
    requires 0 <= d <= 9 && 1 <= k
    requires rest == [] || rest[0] == ' '
    ensures ScanInts([DigitChar(d)] + rest, k) == [d] + ScanInts(rest, k - 1)
  {
    ScanIntDigit(d, rest);
  }
}
