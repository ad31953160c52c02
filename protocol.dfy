/**
 * The Nim game protocol's messages: the validator `parse_messages`, which
 * classifies a token list as one of seven message kinds or rejects it, and
 * the contents the server formats for each message it sends.
 */
module Protocol {
  import opened CText
  import opened Wire

  const ProtocolVersion: string := "0"
  const MaxNameLength: nat := 72

  /** The kinds `parse_messages` reports: MSG_OPEN (1) to MSG_FAIL (7). */
  datatype Kind = MsgOpen | MsgWait | MsgName | MsgPlay | MsgMove | MsgOver | MsgFail

  /**
   * What the validator yields: a kind, PARSE_ERROR, or `Crash` where the C
   * code passes the NULL that ended tokenizing to `strcmp`.
   */
  datatype Verdict = Accepted(kind: Kind) | ParseError | Crash

  function Keyword(k: Kind): string
  {
    match k
    case MsgOpen => "OPEN"
    case MsgWait => "WAIT"
    case MsgName => "NAME"
    case MsgPlay => "PLAY"
    case MsgMove => "MOVE"
    case MsgOver => "OVER"
    case MsgFail => "FAIL"
  }

  predicate IsPlayerToken(t: string) { t == "1" || t == "2" }

  predicate IsNameToken(t: string) { |t| <= MaxNameLength && Delim !in t }

  predicate IsReasonToken(t: string) { t == "" || t == "Forfeit" }

  /** No pile of five scanned values is below 0 or above 9. */
  predicate PilesInRange(vs: seq<int>)
    requires |vs| == 5
  {
    forall i :: 0 <= i < 5 ==> 0 <= vs[i] <= 9
  }

  /** `sscanf(t, "%d %d %d %d %d")` stores five values and each lies in [0,9]. */
  predicate IsBoardToken(t: string)
  {
    var vs := ScanInts(t, 5);
    |vs| == 5 && PilesInRange(vs)
  }

  /** Both MOVE fields are all digits, the pile reads as 0..4 and the stone count as positive. */
  predicate IsMoveFields(pile: string, stones: string)
  {
    AllDigits(pile) && AllDigits(stones) && 0 <= Atoi(pile) <= 4 && Atoi(stones) > 0
  }

  /**
   * When a token list is a well-formed message of kind `k`, field by field.
   * An OVER whose reason is empty arrives as five tokens, because the
   * tokenizer drops the empty field.
   */
  predicate Conforms(msg: seq<string>, k: Kind)
  {
    3 <= |msg| && msg[0] == ProtocolVersion && msg[2] == Keyword(k) &&
    match k
    case MsgOpen => |msg| == 4 && IsNameToken(msg[3])
    case MsgWait => |msg| == 3
    case MsgFail => |msg| == 4
    case MsgName => |msg| == 5 && IsPlayerToken(msg[3]) && Delim !in msg[4]
    case MsgPlay => |msg| == 5 && IsPlayerToken(msg[3]) && IsBoardToken(msg[4])
    case MsgMove => |msg| == 5 && IsMoveFields(msg[3], msg[4])
    case MsgOver =>
      (|msg| == 5 || (|msg| == 6 && IsReasonToken(msg[5]))) &&
      IsPlayerToken(msg[3]) && IsBoardToken(msg[4])
  }

  /**
   * `parse_messages` as written. It compares token 0 and token 2 before it
   * looks at the token count, and it asks OVER for six tokens. With no
   * tokens, token 0 is the NULL that ended tokenizing; with two, token 2
   * is. With one token, token 2 is a slot the tokenizing loop did not set:
   * this is taken as a string that names no keyword, so every count check
   * fails.
   */
  function ParseMessagesAsWritten(msg: seq<string>): (r: Verdict)
    ensures r == Crash <==> |msg| == 0 || (msg[0] == ProtocolVersion && |msg| == 2)
    ensures r.Accepted? ==> 3 <= |msg| && msg[0] == ProtocolVersion && msg[2] == Keyword(r.kind)
  {
    if |msg| == 0 then Crash
    else if msg[0] != ProtocolVersion then ParseError
    else if |msg| == 2 then Crash
    else if |msg| < 3 then ParseError
    else if msg[2] == "OPEN" then
      if |msg| != 4 then ParseError
      else if |msg[3]| > MaxNameLength then ParseError
      else if Delim in msg[3] then ParseError
      else Accepted(MsgOpen)
    else if msg[2] == "PLAY" then
      if |msg| != 5 then ParseError
      else if msg[3] != "1" && msg[3] != "2" then ParseError
      else
        var board := ScanInts(msg[4], 5);
        if |board| != 5 then ParseError
        else if !PilesInRange(board) then ParseError
        else Accepted(MsgPlay)
    else if msg[2] == "FAIL" then
      if |msg| != 4 then ParseError else Accepted(MsgFail)
    else if msg[2] == "OVER" then
      if |msg| != 6 then ParseError
      else if msg[3] != "1" && msg[3] != "2" then ParseError
      else if msg[5] != "" && msg[5] != "Forfeit" then ParseError
      else
        var board := ScanInts(msg[4], 5);
        if |board| != 5 then ParseError
        else if !PilesInRange(board) then ParseError
        else Accepted(MsgOver)
    else if msg[2] == "NAME" then
      if |msg| != 5 then ParseError
      else if msg[3] != "1" && msg[3] != "2" then ParseError
      else if Delim in msg[4] then ParseError
      else Accepted(MsgName)
    else if msg[2] == "MOVE" then
      if |msg| != 5 then ParseError
      else if !AllDigits(msg[3]) || !AllDigits(msg[4]) then ParseError
      else
        var pile := Atoi(msg[3]);
        var stones := Atoi(msg[4]);
        if pile < 0 || pile > 4 then ParseError
        else if stones <= 0 then ParseError
        else Accepted(MsgMove)
    else if msg[2] == "WAIT" then
      if |msg| != 3 then ParseError else Accepted(MsgWait)
    else ParseError
  }

  /**
   * The validator with the two corrections: a list of fewer than three
   * tokens is rejected before any token is read, and an OVER whose empty
   * reason field the tokenizer dropped is checked on its five tokens.
   * Everywhere else it is `ParseMessagesAsWritten`.
   */
  function ParseMessages(msg: seq<string>): (r: Verdict)
    ensures r != Crash
    ensures r.Accepted? ==> 3 <= |msg| && msg[0] == ProtocolVersion && msg[2] == Keyword(r.kind)
  {
    if |msg| < 3 then ParseError
    else if msg[0] == ProtocolVersion && msg[2] == "OVER" && |msg| == 5 then
      if msg[3] != "1" && msg[3] != "2" then ParseError
      else
        var board := ScanInts(msg[4], 5);
        if |board| != 5 then ParseError
        else if !PilesInRange(board) then ParseError
        else Accepted(MsgOver)
    else ParseMessagesAsWritten(msg)
  }

  /** Every token list the validator accepts is well-formed for the kind it reports. */
  lemma ParseSound(msg: seq<string>)
    ensures ParseMessages(msg).Accepted? ==> Conforms(msg, ParseMessages(msg).kind)
  {
    if ParseMessages(msg).Accepted? {
      var k := ParseMessages(msg).kind;
      match k
      case MsgPlay =>
        assert IsBoardToken(msg[4]);
      case MsgOver =>
        assert IsBoardToken(msg[4]);
      case _ =>
    }
  }

  /** The seven keywords are pairwise different. */
  lemma KeywordsDiffer(k1: Kind, k2: Kind)
    requires k1 != k2
    ensures Keyword(k1) != Keyword(k2)
  {
    var w1, w2 := Keyword(k1), Keyword(k2);
    assert w1[0] != w2[0] || w1[1] != w2[1];
  }

  /** A token list's keyword token names one kind and no other. */
  lemma KeywordOnly(msg: seq<string>, k: Kind)
    requires 3 <= |msg| && msg[2] == Keyword(k)
    ensures forall k' :: k' != k ==> msg[2] != Keyword(k')
  {
    forall k' | k' != k ensures msg[2] != Keyword(k') {
      KeywordsDiffer(k, k');
    }
  }

  lemma PlayComplete(msg: seq<string>)
    requires Conforms(msg, MsgPlay)
    ensures ParseMessages(msg) == Accepted(MsgPlay)
  {
    KeywordOnly(msg, MsgPlay);
    assert msg[2] != Keyword(MsgOpen) && msg[2] != Keyword(MsgOver);
    assert msg[2] == "PLAY" && msg[0] == ProtocolVersion;
    assert msg[3] == "1" || msg[3] == "2";
    assert IsBoardToken(msg[4]);
  }

  lemma OverComplete(msg: seq<string>)
    requires Conforms(msg, MsgOver)
    ensures ParseMessages(msg) == Accepted(MsgOver)
  {
    if |msg| == 5 {
      OverFiveComplete(msg);
    } else {
      OverSixComplete(msg);
    }
  }

  lemma OverFiveComplete(msg: seq<string>)
    requires Conforms(msg, MsgOver) && |msg| == 5
    ensures ParseMessages(msg) == Accepted(MsgOver)
  {
    assert IsBoardToken(msg[4]);
  }

  lemma OverSixComplete(msg: seq<string>)
    requires Conforms(msg, MsgOver) && |msg| == 6
    ensures ParseMessages(msg) == Accepted(MsgOver)
  {
    KeywordOnly(msg, MsgOver);
    assert msg[2] != Keyword(MsgOpen) && msg[2] != Keyword(MsgPlay) && msg[2] != Keyword(MsgFail);
    assert msg[2] == "OVER" && msg[0] == ProtocolVersion;
    assert msg[3] == "1" || msg[3] == "2";
    assert msg[5] == "" || msg[5] == "Forfeit";
    assert IsBoardToken(msg[4]);
  }

  lemma OtherComplete(msg: seq<string>, k: Kind)
    requires Conforms(msg, k) && k != MsgPlay && k != MsgOver
    ensures ParseMessages(msg) == Accepted(k)
  {
    KeywordOnly(msg, k);
  }

  /** Every well-formed token list is accepted with its kind. */
  lemma ParseComplete(msg: seq<string>, k: Kind)
    requires Conforms(msg, k)
    ensures ParseMessages(msg) == Accepted(k)
  {
    if k == MsgPlay {
      PlayComplete(msg);
    } else if k == MsgOver {
      OverComplete(msg);
    } else {
      OtherComplete(msg, k);
    }
  }

  /** The as-written validator differs from the corrected one only where it crashes or on a five-token OVER. */
  lemma ParseCorrectionsOnly(msg: seq<string>)
    ensures ParseMessagesAsWritten(msg) == Crash
         || (|msg| == 5 && msg[0] == ProtocolVersion && msg[2] == "OVER")
         || ParseMessagesAsWritten(msg) == ParseMessages(msg)
  {
  }

  /**
   * Wherever the validator as written does not crash, it accepts a list as
   * any kind but OVER exactly when the corrected one does.
   */
  lemma AgreeUnlessCrash(msg: seq<string>, k: Kind)
    requires k != MsgOver && ParseMessagesAsWritten(msg) != Crash
    ensures ParseMessagesAsWritten(msg) == Accepted(k) <==> ParseMessages(msg) == Accepted(k)
  {
    if |msg| >= 3 && msg[0] == ProtocolVersion && msg[2] == "OVER" && |msg| == 5 {
      OverFiveTokensRejected(msg);
      assert ParseMessages(msg) != Accepted(k);
    } else if |msg| < 3 {
      assert ParseMessagesAsWritten(msg) == ParseError;
    }
  }

  /** A list the validator as written crashes on is rejected by the corrected one. */
  lemma CrashRejected(msg: seq<string>)
    requires ParseMessagesAsWritten(msg) == Crash
    ensures ParseMessages(msg) == ParseError
  {
    assert |msg| < 3;
  }

  /** The codes and texts of the FAIL messages. */
  datatype FailReason = Invalid | AlreadyPlaying | Impatient | PileIndex | Quantity

  function ReasonText(r: FailReason): string
  {
    match r
    case Invalid => "10 Invalid"
    case AlreadyPlaying => "22 Already Playing"
    case Impatient => "31 Impatient"
    case PileIndex => "32 Pile Index"
    case Quantity => "33 Quantity"
  }

  /** A protocol message with its fields. */
  datatype Message =
    | Open(name: string)
    | Wait
    | Name(slot: int, opponent: string)
    | Play(player: int, board: seq<int>)
    | Move(pile: int, stones: int)
    | Over(winner: int, board: seq<int>, forfeit: bool)
    | Fail(reason: FailReason)

  function KindOf(m: Message): Kind
  {
    match m
    case Open(_) => MsgOpen
    case Wait => MsgWait
    case Name(_, _) => MsgName
    case Play(_, _) => MsgPlay
    case Move(_, _) => MsgMove
    case Over(_, _, _) => MsgOver
    case Fail(_) => MsgFail
  }

  predicate ValidBoard(b: seq<int>) { |b| == 5 && forall i :: 0 <= i < 5 ==> 0 <= b[i] <= 9 }

  /** A player name as the lobby admits it: a token of at most 72 bytes. */
  predicate ValidName(n: string) { IsToken(n) && |n| <= MaxNameLength && '\0' !in n }

  predicate WellFormed(m: Message)
  {
    match m
    case Open(n) => ValidName(n)
    case Wait => true
    case Name(slot, n) => (slot == 1 || slot == 2) && ValidName(n)
    case Play(p, b) => (p == 1 || p == 2) && ValidBoard(b)
    case Move(pile, stones) => 0 <= pile <= 4 && 0 < stones <= IntMax
    case Over(w, b, _) => (w == 1 || w == 2) && ValidBoard(b)
    case Fail(_) => true
  }

  /** The text `"%d %d %d %d %d"` makes of a board. */
  function BoardText(b: seq<int>): string
    requires |b| == 5
  {
    BoardFrom(b, 0, 5)
  }

  /** The `k` conversions of that format from pile `i` on, separated by blanks. */
  function BoardFrom(b: seq<int>, i: nat, k: nat): string
    requires |b| == 5 && 1 <= k && i + k == 5
    decreases k
  {
    if k == 1 then IntText(b[i]) else IntText(b[i]) + " " + BoardFrom(b, i + 1, k - 1)
  }

  /** The fields after the two header fields, keyword first. */
  function Fields(m: Message): (fs: seq<string>)
    ensures |fs| >= 1 && fs[0] == Keyword(KindOf(m))
  {
    [Keyword(KindOf(m))] +
    match m
    case Open(n) => [n]
    case Wait => []
    case Name(slot, n) => [IntText(slot), n]
    case Play(p, b) => [IntText(p), if |b| == 5 then BoardText(b) else ""]
    case Move(pile, stones) => [IntText(pile), IntText(stones)]
    case Over(w, b, f) => [IntText(w), if |b| == 5 then BoardText(b) else "", if f then "Forfeit" else ""]
    case Fail(r) => [ReasonText(r)]
  }

  /** The content the server formats for a message, e.g. `PLAY|1|1 3 5 7 9|`. */
  function Content(m: Message): (c: string)
    ensures |c| > |Keyword(KindOf(m))| && c[..|Keyword(KindOf(m))|] == Keyword(KindOf(m))
    ensures c[|Keyword(KindOf(m))|] == Delim && c[|c| - 1] == Delim
  {
    JoinEnds(Fields(m));
    Join(Fields(m))
  }

  /**
   * The bytes written for a message: behind the header, its content opens
   * with the kind's keyword and closes with a delimiter.
   */
  function Encode(m: Message): (e: string)
    ensures 5 <= |e| && e[..2] == "0|"
    ensures |Content(m)| < 100 ==> |e| == |Content(m)| + 5 && e[5..] == Content(m)
  {
    Frame(Content(m))
  }

  /** A joined field list opens with its first field and a delimiter, and ends with a delimiter. */
  lemma JoinEnds(fields: seq<string>)
    requires fields != []
    ensures var s := Join(fields);
      |s| > |fields[0]| && s[..|fields[0]|] == fields[0] && s[|fields[0]|] == Delim && s[|s| - 1] == Delim
  {
    var s := Join(fields);
    assert s == fields[0] + [Delim] + Join(fields[1..]);
    if |fields| > 1 {
      JoinEnds(fields[1..]);
    }
  }

  lemma DigitsExclude(s: string, c: char)
    requires AllDigits(s) && !IsDigit(c)
    ensures c !in s
  {
    assert forall i :: 0 <= i < |s| ==> s[i] != c;
  }

  /** `%d` text holds digits and at most a leading minus sign. */
  lemma IntTextClean(v: int)
    ensures IsToken(IntText(v)) && '\0' !in IntText(v) && ' ' !in IntText(v)
  {
    var d := Decimal(if v < 0 then -v else v);
    DigitsExclude(d, Delim);
    DigitsExclude(d, '\0');
    DigitsExclude(d, ' ');
  }

  lemma SingleDigitText(d: int)
    requires 0 <= d <= 9
    ensures IntText(d) == [DigitChar(d)]
  {
  }

  /** One more "digit, space" in front of scanned text yields one more value. */
  lemma ScanBoardStep(d: int, t: string, vs: seq<int>, k: nat)
    requires 0 <= d <= 9 && ScanInts(t, k) == vs
    ensures ScanInts([DigitChar(d)] + ([' '] + t), k + 1) == [d] + vs
  {
    ScanDigitFirst(d, [' '] + t, k + 1);
    ScanSpaceFirst(t, k);
  }

  /** Values that `%d` prints as one digit each. */
  predicate SingleDigits(ds: seq<int>) { forall j :: 0 <= j < |ds| ==> 0 <= ds[j] <= 9 }

  /** Single digits separated by blanks: what `%d %d …` prints for values from 0 to 9. */
  function DigitsText(ds: seq<int>): string
    requires ds != [] && SingleDigits(ds)
    decreases |ds|
  {
    if |ds| == 1 then [DigitChar(ds[0])] else [DigitChar(ds[0])] + ([' '] + DigitsText(ds[1..]))
  }

  /** A single digit reads back as its value. */
  lemma DigitsTextLast(ds: seq<int>)
    requires |ds| == 1 && SingleDigits(ds)
    ensures ScanInts(DigitsText(ds), 1) == ds
  {
    ScanDigitFirst(ds[0], [], 1);
    assert DigitsText(ds) == [DigitChar(ds[0])] + [];
    assert ds == [ds[0]];
  }

  /** One more leading digit and blank read back as one more leading value. */
  lemma DigitsTextStep(ds: seq<int>)
    requires |ds| > 1 && SingleDigits(ds)
    requires ScanInts(DigitsText(ds[1..]), |ds| - 1) == ds[1..]
    ensures ScanInts(DigitsText(ds), |ds|) == ds
  {
    assert DigitsText(ds) == [DigitChar(ds[0])] + ([' '] + DigitsText(ds[1..]));
    ScanBoardStep(ds[0], DigitsText(ds[1..]), ds[1..], |ds| - 1);
    assert ds == [ds[0]] + ds[1..];
  }

  lemma DigitsRest(ds: seq<int>)
    requires |ds| > 1 && SingleDigits(ds)
    ensures ds[1..] != [] && SingleDigits(ds[1..])
  {
  }

  /** Blank-separated digits read back, one `%d` each, as the same values. */
  lemma {:induction false} DigitsTextScans(ds: seq<int>)
    requires ds != [] && SingleDigits(ds)
    ensures ScanInts(DigitsText(ds), |ds|) == ds
    decreases |ds|
  {
    if |ds| == 1 {
      DigitsTextLast(ds);
    } else {
      DigitsRest(ds);
      DigitsTextScans(ds[1..]);
      DigitsTextStep(ds);
    }
  }

  lemma BoardSuffixDigits(b: seq<int>, i: nat)
    requires ValidBoard(b) && i < 5
    ensures b[i..] != [] && SingleDigits(b[i..])
  {
  }

  /** The board text from pile `i` on is the digits of those piles, separated by blanks. */
  lemma {:induction false} BoardFromDigits(b: seq<int>, i: nat, k: nat)
    requires ValidBoard(b) && 1 <= k && i + k == 5
    ensures SingleDigits(b[i..])
    ensures BoardFrom(b, i, k) == DigitsText(b[i..])
    decreases k
  {
    BoardSuffixDigits(b, i);
    SingleDigitText(b[i]);
    if k > 1 {
      BoardFromDigits(b, i + 1, k - 1);
      assert b[i..][1..] == b[i + 1..];
    } else {
      assert b[i..] == [b[i]];
    }
  }

  /** The board text from pile `i` on is `2k-1` characters free of delimiters and NULs. */
  lemma {:induction false} BoardFromChars(b: seq<int>, i: nat, k: nat)
    requires ValidBoard(b) && 1 <= k && i + k == 5
    ensures |BoardFrom(b, i, k)| == 2 * k - 1
    ensures Delim !in BoardFrom(b, i, k) && '\0' !in BoardFrom(b, i, k)
    decreases k
  {
    SingleDigitText(b[i]);
    if k > 1 {
      BoardFromChars(b, i + 1, k - 1);
    }
  }

  /** The board text reads back, through `sscanf`, as the board itself. */
  lemma BoardTextScans(b: seq<int>)
    requires ValidBoard(b)
    ensures ScanInts(BoardText(b), 5) == b
  {
    BoardFromDigits(b, 0, 5);
    assert b[0..] == b;
    DigitsTextScans(b);
  }

  /** The parser accepts the board text as a board. */
  lemma BoardTextToken(b: seq<int>)
    requires ValidBoard(b)
    ensures IsBoardToken(BoardText(b))
  {
    BoardTextScans(b);
  }

  lemma JoinExcludes(fields: seq<string>, c: char)
    requires c != Delim && forall f <- fields :: c !in f
    ensures c !in Join(fields)
    decreases |fields|
  {
    if fields != [] {
      JoinExcludes(fields[1..], c);
    }
  }

  function SumLengths(fields: seq<string>): nat
    decreases |fields|
  {
    if fields == [] then 0 else |fields[0]| + 1 + SumLengths(fields[1..])
  }

  lemma JoinLength(fields: seq<string>)
    ensures |Join(fields)| == SumLengths(fields)
    decreases |fields|
  {
    if fields != [] {
      JoinLength(fields[1..]);
    }
  }

  /** A value below 10^k has at most k digits. */
  lemma {:induction false} DecimalLength(n: nat, k: nat)
    requires 1 <= k && n < Pow10(k)
    ensures |Decimal(n)| <= k
    decreases k
  {
    if n >= 10 {
      assert k >= 2;
      assert n / 10 < Pow10(k - 1);
      DecimalLength(n / 10, k - 1);
    }
  }

  function Pow10(k: nat): (p: nat)
    ensures p >= 1
  {
    if k == 0 then 1 else 10 * Pow10(k - 1)
  }

  lemma SumLengthsOf(fields: seq<string>)
    requires 1 <= |fields| <= 4
    ensures SumLengths(fields) == |fields| + |fields[0]| + (if |fields| > 1 then |fields[1]| else 0)
      + (if |fields| > 2 then |fields[2]| else 0) + (if |fields| > 3 then |fields[3]| else 0)
  {
    var t1 := fields[1..];
    if |fields| > 1 {
      var t2 := t1[1..];
      if |fields| > 2 {
        var t3 := t2[1..];
        assert SumLengths(t3) == (if |fields| > 3 then |fields[3]| + 1 else 0);
      }
    }
  }

  /** A field list free of delimiters and NULs, under 100 bytes once joined. */
  predicate CleanFields(fields: seq<string>)
  {
    (forall i :: 0 <= i < |fields| ==> Delim !in fields[i] && '\0' !in fields[i]) && SumLengths(fields) < 100
  }

  /** A clean field: no delimiter, no NUL, at most 24 bytes. */
  predicate ShortField(f: string) { Delim !in f && '\0' !in f && |f| <= 24 }

  lemma CleanFieldsOf(k: Kind, rest: seq<string>)
    requires |rest| <= 3 && forall i :: 0 <= i < |rest| ==> ShortField(rest[i])
    ensures CleanFields([Keyword(k)] + rest)
  {
    KeywordClean(k);
    var fields := [Keyword(k)] + rest;
    assert forall i :: 1 <= i < |fields| ==> fields[i] == rest[i - 1];
    SumLengthsOf(fields);
  }

  lemma CleanFields3(k: Kind, x: string, y: string, z: string)
    requires ShortField(x) && ShortField(y) && ShortField(z)
    ensures CleanFields([Keyword(k), x, y, z])
  {
    CleanFieldsOf(k, [x, y, z]);
    assert [Keyword(k)] + [x, y, z] == [Keyword(k), x, y, z];
  }

  lemma CleanFields2(k: Kind, x: string, y: string)
    requires ShortField(x) && ShortField(y)
    ensures CleanFields([Keyword(k), x, y])
  {
    CleanFieldsOf(k, [x, y]);
    assert [Keyword(k)] + [x, y] == [Keyword(k), x, y];
  }

  /** The board text is a nine-character field free of delimiters and NULs. */
  lemma BoardFieldClean(b: seq<int>)
    requires ValidBoard(b)
    ensures ShortField(BoardText(b)) && |BoardText(b)| == 9
  {
    BoardFromChars(b, 0, 5);
  }

  lemma NumberFieldClean(v: int, k: nat)
    requires 0 <= v < Pow10(k) && 1 <= k
    ensures Delim !in IntText(v) && '\0' !in IntText(v) && |IntText(v)| <= k
  {
    IntTextClean(v);
    DecimalLength(v, k);
  }

  lemma KeywordClean(k: Kind)
    ensures |Keyword(k)| == 4 && Delim !in Keyword(k) && '\0' !in Keyword(k)
  {
  }

  lemma ReasonClean(r: FailReason)
    ensures ShortField(ReasonText(r))
  {
    var t := ReasonText(r);
    match r
    case Invalid => assert forall i :: 0 <= i < |t| ==> t[i] != Delim && t[i] != '\0';
    case AlreadyPlaying => assert forall i :: 0 <= i < |t| ==> t[i] != Delim && t[i] != '\0';
    case Impatient => assert forall i :: 0 <= i < |t| ==> t[i] != Delim && t[i] != '\0';
    case PileIndex => assert forall i :: 0 <= i < |t| ==> t[i] != Delim && t[i] != '\0';
    case Quantity => assert forall i :: 0 <= i < |t| ==> t[i] != Delim && t[i] != '\0';
  }

  lemma OpenFieldsClean(n: string)
    requires ValidName(n)
    ensures CleanFields(Fields(Open(n)))
  {
    KeywordClean(MsgOpen);
    SumLengthsOf(Fields(Open(n)));
  }

  lemma NameFieldsClean(slot: int, n: string)
    requires (slot == 1 || slot == 2) && ValidName(n)
    ensures CleanFields(Fields(Name(slot, n)))
  {
    KeywordClean(MsgName);
    NumberFieldClean(slot, 1);
    SumLengthsOf(Fields(Name(slot, n)));
  }

  lemma PlayFieldsClean(p: int, b: seq<int>)
    requires (p == 1 || p == 2) && ValidBoard(b)
    ensures CleanFields(Fields(Play(p, b)))
  {
    var x, y := IntText(p), BoardText(b);
    NumberFieldClean(p, 1);
    BoardFieldClean(b);
    CleanFields2(MsgPlay, x, y);
    assert Fields(Play(p, b)) == [Keyword(MsgPlay), x, y];
  }

  lemma MoveFieldsClean(pile: int, stones: int)
    requires 0 <= pile <= 4 && 0 < stones <= IntMax
    ensures CleanFields(Fields(Move(pile, stones)))
  {
    var x, y := IntText(pile), IntText(stones);
    NumberFieldClean(pile, 1);
    assert Pow10(10) == 10_000_000_000;
    NumberFieldClean(stones, 10);
    CleanFields2(MsgMove, x, y);
    assert Fields(Move(pile, stones)) == [Keyword(MsgMove), x, y];
  }

  lemma OverFieldsClean(w: int, b: seq<int>, f: bool)
    requires (w == 1 || w == 2) && ValidBoard(b)
    ensures CleanFields(Fields(Over(w, b, f)))
  {
    var x, y, z := IntText(w), BoardText(b), if f then "Forfeit" else "";
    NumberFieldClean(w, 1);
    BoardFieldClean(b);
    CleanFields3(MsgOver, x, y, z);
    assert Fields(Over(w, b, f)) == [Keyword(MsgOver), x, y, z];
  }

  lemma FailFieldsClean(r: FailReason)
    ensures CleanFields(Fields(Fail(r)))
  {
    ReasonClean(r);
    CleanFieldsOf(MsgFail, [ReasonText(r)]);
  }

  /** The fields of a well-formed message hold no delimiter and no NUL, and take under 100 bytes joined. */
  lemma FieldsClean(m: Message)
    requires WellFormed(m)
    ensures CleanFields(Fields(m))
  {
    match m
    case Open(n) => OpenFieldsClean(n);
    case Wait => CleanFieldsOf(MsgWait, []);
    case Name(slot, n) => NameFieldsClean(slot, n);
    case Play(p, b) => PlayFieldsClean(p, b);
    case Move(pile, stones) => MoveFieldsClean(pile, stones);
    case Over(w, b, f) => OverFieldsClean(w, b, f);
    case Fail(r) => FailFieldsClean(r);
  }

  /** What a well-formed message looks like once framed and tokenized. */
  lemma EncodeTokens(m: Message)
    requires WellFormed(m)
    ensures |Content(m)| < 100
    ensures forall f <- Fields(m) :: Delim !in f
    ensures TokensOf(Encode(m)) == ["0", LengthField(|Content(m)|)] + NonEmpty(Fields(m))
  {
    var fields := Fields(m);
    var c := Content(m);
    FieldsClean(m);
    JoinLength(fields);
    JoinExcludes(fields, '\0');
    FrameTokens(c);
    SplitJoin(fields);
    assert '\0' !in Encode(m) by {
      var len := LengthField(|c|);
      DigitsExclude(len, '\0');
      assert Encode(m) == "0|" + len + "|" + c;
    }
  }

  /** The two header tokens a receiver sees ahead of a message's own fields. */
  function Header(m: Message): seq<string>
  {
    [ProtocolVersion, LengthField(|Content(m)|)]
  }

  lemma {:induction false} NonEmptyKeeps(fields: seq<string>)
    requires forall i :: 0 <= i < |fields| ==> fields[i] != []
    ensures NonEmpty(fields) == fields
    decreases |fields|
  {
    if fields != [] {
      NonEmptyKeeps(fields[1..]);
      assert fields == [fields[0]] + fields[1..];
    }
  }

  lemma PlayerText(p: int)
    requires p == 1 || p == 2
    ensures IsPlayerToken(IntText(p)) && IntText(p) == (if p == 1 then "1" else "2")
  {
    SingleDigitText(p);
  }

  /** A count printed with `%d` reads back through `atoi` as the same count. */
  lemma NumberText(v: int)
    requires 0 <= v <= IntMax
    ensures AllDigits(IntText(v)) && Atoi(IntText(v)) == v
  {
  }

  lemma TokensOfFields(m: Message, fields: seq<string>)
    requires WellFormed(m) && fields == Fields(m)
    requires forall i :: 0 <= i < |fields| ==> fields[i] != []
    ensures TokensOf(Encode(m)) == Header(m) + fields
  {
    EncodeTokens(m);
    NonEmptyKeeps(fields);
  }

  lemma OpenParses(n: string)
    requires ValidName(n)
    ensures TokensOf(Encode(Open(n))) == Header(Open(n)) + ["OPEN", n]
    ensures Conforms(TokensOf(Encode(Open(n))), MsgOpen)
  {
    TokensOfFields(Open(n), ["OPEN", n]);
  }

  lemma NameParses(slot: int, n: string)
    requires (slot == 1 || slot == 2) && ValidName(n)
    ensures TokensOf(Encode(Name(slot, n))) == Header(Name(slot, n)) + ["NAME", IntText(slot), n]
    ensures Conforms(TokensOf(Encode(Name(slot, n))), MsgName)
  {
    PlayerText(slot);
    TokensOfFields(Name(slot, n), ["NAME", IntText(slot), n]);
  }

  lemma ConformsPlay(h: seq<string>, x: string, y: string)
    requires |h| == 2 && h[0] == ProtocolVersion && IsPlayerToken(x) && IsBoardToken(y)
    ensures Conforms(h + ["PLAY", x, y], MsgPlay)
  {
  }

  lemma ConformsOverPlain(h: seq<string>, x: string, y: string)
    requires |h| == 2 && h[0] == ProtocolVersion && IsPlayerToken(x) && IsBoardToken(y)
    ensures Conforms(h + ["OVER", x, y], MsgOver)
  {
  }

  lemma ConformsOverForfeit(h: seq<string>, x: string, y: string)
    requires |h| == 2 && h[0] == ProtocolVersion && IsPlayerToken(x) && IsBoardToken(y)
    ensures Conforms(h + ["OVER", x, y, "Forfeit"], MsgOver)
  {
  }

  lemma PlayTokens(p: int, b: seq<int>)
    requires (p == 1 || p == 2) && ValidBoard(b)
    ensures TokensOf(Encode(Play(p, b))) == Header(Play(p, b)) + ["PLAY", IntText(p), BoardText(b)]
  {
    PlayerText(p);
    BoardFieldClean(b);
    TokensOfFields(Play(p, b), ["PLAY", IntText(p), BoardText(b)]);
  }

  lemma PlayParses(p: int, b: seq<int>)
    requires (p == 1 || p == 2) && ValidBoard(b)
    ensures Conforms(TokensOf(Encode(Play(p, b))), MsgPlay)
  {
    PlayTokens(p, b);
    PlayerText(p);
    BoardTextToken(b);
    ConformsPlay(Header(Play(p, b)), IntText(p), BoardText(b));
  }

  lemma MoveParses(pile: int, stones: int)
    requires 0 <= pile <= 4 && 0 < stones <= IntMax
    ensures TokensOf(Encode(Move(pile, stones))) == Header(Move(pile, stones)) + ["MOVE", IntText(pile), IntText(stones)]
    ensures Conforms(TokensOf(Encode(Move(pile, stones))), MsgMove)
  {
    NumberText(pile);
    NumberText(stones);
    TokensOfFields(Move(pile, stones), ["MOVE", IntText(pile), IntText(stones)]);
  }

  lemma TokensOfFieldsLastEmpty(m: Message, fields: seq<string>)
    requires WellFormed(m) && Fields(m) == fields + [""]
    requires forall i :: 0 <= i < |fields| ==> fields[i] != []
    ensures TokensOf(Encode(m)) == Header(m) + fields
  {
    EncodeTokens(m);
    NonEmptyDropsLast(fields);
    NonEmptyKeeps(fields);
  }

  lemma OverTokens(w: int, b: seq<int>, f: bool)
    requires (w == 1 || w == 2) && ValidBoard(b)
    ensures f ==> TokensOf(Encode(Over(w, b, f))) == Header(Over(w, b, f)) + ["OVER", IntText(w), BoardText(b), "Forfeit"]
    ensures !f ==> TokensOf(Encode(Over(w, b, f))) == Header(Over(w, b, f)) + ["OVER", IntText(w), BoardText(b)]
  {
    PlayerText(w);
    BoardFieldClean(b);
    if f {
      TokensOfFields(Over(w, b, f), ["OVER", IntText(w), BoardText(b), "Forfeit"]);
    } else {
      TokensOfFieldsLastEmpty(Over(w, b, f), ["OVER", IntText(w), BoardText(b)]);
    }
  }

  lemma OverParses(w: int, b: seq<int>, f: bool)
    requires (w == 1 || w == 2) && ValidBoard(b)
    ensures Conforms(TokensOf(Encode(Over(w, b, f))), MsgOver)
  {
    OverTokens(w, b, f);
    PlayerText(w);
    BoardTextToken(b);
    if f {
      ConformsOverForfeit(Header(Over(w, b, f)), IntText(w), BoardText(b));
    } else {
      ConformsOverPlain(Header(Over(w, b, f)), IntText(w), BoardText(b));
    }
  }

  lemma {:induction false} NonEmptyDropsLast(fields: seq<string>)
    ensures NonEmpty(fields + [""]) == NonEmpty(fields)
    decreases |fields|
  {
    if fields == [] {
      assert NonEmpty([""]) == NonEmpty([]);
    } else {
      assert (fields + [""])[1..] == fields[1..] + [""];
      NonEmptyDropsLast(fields[1..]);
    }
  }

  lemma FailParses(r: FailReason)
    ensures TokensOf(Encode(Fail(r))) == Header(Fail(r)) + ["FAIL", ReasonText(r)]
    ensures Conforms(TokensOf(Encode(Fail(r))), MsgFail)
  {
    TokensOfFields(Fail(r), ["FAIL", ReasonText(r)]);
  }

  /** The tokens a receiver makes of every well-formed message conform to its kind. */
  lemma EncodeConforms(m: Message)
    requires WellFormed(m)
    ensures Conforms(TokensOf(Encode(m)), KindOf(m))
  {
    match m
    case Open(n) => OpenParses(n);
    case Wait => TokensOfFields(m, ["WAIT"]);
    case Name(slot, n) => NameParses(slot, n);
    case Play(p, b) => PlayParses(p, b);
    case Move(pile, stones) => MoveParses(pile, stones);
    case Over(w, b, f) => OverParses(w, b, f);
    case Fail(r) => FailParses(r);
  }

  /**
   * Every well-formed message the server formats is accepted, with its own
   * kind, by the validator on the receiving side.
   */
  lemma EncodeParses(m: Message)
    requires WellFormed(m)
    ensures ParseMessages(TokensOf(Encode(m))) == Accepted(KindOf(m))
  {
    EncodeConforms(m);
    ParseComplete(TokensOf(Encode(m)), KindOf(m));
  }

  /**
   * The length field of every message the server sends is two digits that
   * read back as the length of the content after it.
   */
  lemma EncodeLengthField(m: Message)
    requires WellFormed(m)
    ensures Encode(m) == "0|" + LengthField(|Content(m)|) + "|" + Content(m)
    ensures |LengthField(|Content(m)|)| == 2 && DecimalValue(LengthField(|Content(m)|)) == |Content(m)|
  {
    EncodeTokens(m);
  }

  /**
   * A buffer holding only the two header fields reaches `parse_messages`
   * with two tokens: the code as written compares the missing third token
   * with "OPEN"; the corrected validator rejects the list.
   */
  lemma HeaderOnlyCrashes()
    ensures TokensOf("0|05|") == ["0", "05"]
    ensures ParseMessagesAsWritten(TokensOf("0|05|")) == Crash
    ensures ParseMessages(TokensOf("0|05|")) == ParseError
  {
    var buf := "0|05|";
    assert '\0' !in buf by {
      assert forall i :: 0 <= i < |buf| ==> buf[i] != '\0';
    }
    SplitHeader("0", "05", "");
    assert buf == "0" + [Delim] + "05" + [Delim] + "";
    assert TokensOf(buf) == ["0", "05"];
  }

  /**
   * The server's own win message `OVER|<w>|<board>||` reaches a receiver as
   * five tokens, because `strtok` drops the empty reason field, and the
   * validator as written asks OVER for six: it rejects it. The corrected
   * validator accepts it as an OVER.
   */
  lemma WinOverRejectedAsWritten(w: int, b: seq<int>)
    requires (w == 1 || w == 2) && ValidBoard(b)
    ensures |TokensOf(Encode(Over(w, b, false)))| == 5
    ensures ParseMessagesAsWritten(TokensOf(Encode(Over(w, b, false)))) == ParseError
    ensures ParseMessages(TokensOf(Encode(Over(w, b, false)))) == Accepted(MsgOver)
  {
    var t := TokensOf(Encode(Over(w, b, false)));
    OverTokens(w, b, false);
    OverFiveTokensRejected(t);
    EncodeParses(Over(w, b, false));
  }

  lemma OverFiveTokensRejected(t: seq<string>)
    requires |t| == 5 && t[0] == ProtocolVersion && t[2] == "OVER"
    ensures ParseMessagesAsWritten(t) == ParseError
  {
  }
}
