/**
 * The referee a game process runs for one match (`handle_game`): it
 * registers both names, tells each player who the opponent is, then
 * repeatedly announces the board and whose turn it is, waits for either
 * peer, and judges what arrives: a move by the player to move, a message
 * out of turn, a disconnection, or anything else. The sockets are
 * abstracted as the sequence of what each `poll` and `read` reports.
 */
module Referee {
  import opened CText
  import opened Wire
  import opened Protocol
  import opened Registry

  /** Player numbers as the protocol writes them. */
  type PlayerId = p: int | p == 1 || p == 2 witness 1

  function Other(p: PlayerId): (q: PlayerId)
    ensures q != p
  {
    3 - p
  }

  /** The five piles every game starts with. */
  const InitialBoard: seq<int> := [1, 3, 5, 7, 9]

  /** The state the referee keeps between turns: the piles and the player to move. */
  datatype Game = Game(board: seq<int>, current: PlayerId)

  const InitialGame: Game := Game(InitialBoard, 1)

  /** `is_board_empty`: no pile holds a stone. */
  predicate Empty(b: seq<int>) { forall i :: 0 <= i < |b| ==> b[i] <= 0 }

  /** The number of stones left on a board. */
  function Total(b: seq<int>): int
    decreases |b|
  {
    if b == [] then 0 else b[0] + Total(b[1..])
  }

  /** On piles that never go negative, a board is empty exactly when no stone is left. */
  lemma {:induction false} EmptyMeansNoStones(b: seq<int>)
    requires forall i :: 0 <= i < |b| ==> b[i] >= 0
    ensures Total(b) >= 0
    ensures Empty(b) <==> Total(b) == 0
    decreases |b|
  {
    if b != [] {
      EmptyMeansNoStones(b[1..]);
      assert Empty(b) <==> b[0] <= 0 && Empty(b[1..]) by {
        assert forall i :: 1 <= i < |b| ==> b[i] == b[1..][i - 1];
      }
    }
  }

  /**
   * What one `poll` on both sockets reports: an error, or which peers are
   * readable together with what the one `read` the referee then makes
   * returns (the other peer's socket if it is readable, else the current
   * player's; unused when neither is readable).
   */
  datatype PollEvent = PollFailed | Polled(ready1: bool, ready2: bool, read: ReadResult)

  function Ready(e: PollEvent, p: PlayerId): bool
    requires e.Polled?
  {
    if p == 1 then e.ready1 else e.ready2
  }

  /** A message written to one player's socket. */
  datatype Send = Send(to: PlayerId, msg: Message)

  /**
   * How the match ends: a player took the last stone, a player won because
   * the other disconnected, the player to move sent something other than a
   * move, `poll` failed, or the referee is still waiting in `poll` when the
   * events run out.
   */
  datatype Ending = Won(winner: PlayerId) | Forfeited(winner: PlayerId) | Invalidated | PollError | Waiting

  datatype Outcome = Next(game: Game) | Done(ending: Ending)

  /** What one pass of the loop writes and where it leaves the match. */
  datatype Round = Round(sends: seq<Send>, outcome: Outcome)

  /** A change to at most one pile, which only loses stones. */
  predicate Shrinks(b: seq<int>, b': seq<int>)
  {
    |b'| == |b| &&
    (forall i :: 0 <= i < |b| ==> b'[i] <= b[i]) &&
    (forall i, j :: 0 <= i < j < |b| ==> b'[i] == b[i] || b'[j] == b[j])
  }

  /**
   * The last two messages announce `w` as the winner, to player 1 and then
   * to player 2, with the same empty board and no Forfeit reason.
   */
  predicate WinNotices(sends: seq<Send>, w: PlayerId)
  {
    |sends| >= 2 &&
    var a, b := sends[|sends| - 2], sends[|sends| - 1];
    a.to == 1 && b.to == 2 && a.msg == b.msg &&
    a.msg.Over? && a.msg.winner == w && !a.msg.forfeit && ValidBoard(a.msg.board) && Empty(a.msg.board)
  }

  /** The last message announces `w` as the winner by forfeit, to `w` alone. */
  predicate ForfeitNotice(sends: seq<Send>, w: PlayerId)
  {
    |sends| >= 1 &&
    var a := sends[|sends| - 1];
    a.to == w && a.msg.Over? && a.msg.winner == w && a.msg.forfeit && ValidBoard(a.msg.board)
  }

  /**
   * The referee's reaction to a message from the player to move: a valid
   * move is applied; a move naming a missing pile or too many stones draws a
   * FAIL and the turn stands; the last stone ends the match with an OVER to
   * both players; anything else draws FAIL 10 and ends the match.
   */
  function Judge(g: Game, tokens: seq<string>): (r: Round)
    requires ValidBoard(g.board) && !Empty(g.board)
    ensures r.outcome.Next? ==> ValidBoard(r.outcome.game.board) && !Empty(r.outcome.game.board)
    ensures r.outcome.Next? ==> Shrinks(g.board, r.outcome.game.board)
    ensures r.outcome.Next? ==>
      (r.outcome.game.current != g.current <==> r.outcome.game.board != g.board)
    ensures r.outcome.Next? && r.outcome.game.board != g.board ==>
      r.sends == [] && Total(r.outcome.game.board) < Total(g.board)
    ensures r.outcome.Done? ==> r.outcome.ending == Invalidated || r.outcome.ending == Won(g.current)
    ensures r.outcome.Done? && r.outcome.ending.Won? ==>
      |r.sends| == 2 && WinNotices(r.sends, g.current)
    ensures forall s <- r.sends :: s.msg != Fail(PileIndex)
    ensures AllWellFormed(r.sends)
  {
    if ParseMessages(tokens) == Accepted(MsgMove) then
      ParseSound(tokens);
      Take(g, Atoi(tokens[3]), Atoi(tokens[4]))
    else Round([Send(g.current, Fail(Invalid))], Done(Invalidated))
  }

  /**
   * A MOVE the validator accepted, with the pile and stone count `atoi`
   * read from it. The pile check can never fail, since the validator
   * already asked for a pile in 0..4.
   */
  function Take(g: Game, pile: int, stones: int): (r: Round)
    requires ValidBoard(g.board) && !Empty(g.board)
    ensures r.outcome.Next? ==> ValidBoard(r.outcome.game.board) && !Empty(r.outcome.game.board)
    ensures r.outcome.Next? ==> Shrinks(g.board, r.outcome.game.board)
    ensures r.outcome.Next? ==>
      (r.outcome.game.current != g.current <==> r.outcome.game.board != g.board)
    ensures r.outcome.Next? && r.outcome.game.board != g.board ==>
      r.sends == [] && 0 < stones && Total(r.outcome.game.board) == Total(g.board) - stones
    ensures r.outcome.Done? ==> r.outcome.ending == Won(g.current)
    ensures r.outcome.Done? ==>
      |r.sends| == 2 && WinNotices(r.sends, g.current)
    ensures 0 <= pile <= 4 ==> forall s <- r.sends :: s.msg != Fail(PileIndex)
    ensures AllWellFormed(r.sends)
  {
    var cur := g.current;
    ShrinksSelf(g.board);
    if pile < 0 || pile > 4 then Round([Send(cur, Fail(PileIndex))], Next(g))
    else if stones <= 0 || stones > g.board[pile] then Round([Send(cur, Fail(Quantity))], Next(g))
    else
      var b := g.board[pile := g.board[pile] - stones];
      TakeShrinks(g.board, pile, stones);
      if Empty(b) then
        WinSends(cur, b);
        Round([Send(1, Over(cur, b, false)), Send(2, Over(cur, b, false))], Done(Won(cur)))
      else Round([], Next(Game(b, Other(cur))))
  }

  /** An accepted MOVE is judged as a take of the pile and count `atoi` reads from it. */
  lemma JudgeMove(g: Game, tokens: seq<string>)
    requires ValidBoard(g.board) && !Empty(g.board)
    requires ParseMessages(tokens) == Accepted(MsgMove)
    ensures |tokens| == 5 && AllDigits(tokens[3]) && AllDigits(tokens[4])
    ensures Judge(g, tokens) == Take(g, Atoi(tokens[3]), Atoi(tokens[4]))
  {
    ParseSound(tokens);
  }

  /** The two OVER messages of a win announce the winner and are well-formed. */
  lemma WinSends(w: PlayerId, b: seq<int>)
    requires ValidBoard(b) && Empty(b)
    ensures var sends := [Send(1, Over(w, b, false)), Send(2, Over(w, b, false))];
      WinNotices(sends, w) && AllWellFormed(sends) && forall s <- sends :: s.msg != Fail(PileIndex)
  {
  }

  /** A board that did not change only lost stones in at most one pile. */
  lemma ShrinksSelf(b: seq<int>)
    ensures Shrinks(b, b)
  {
  }

  /** A legal take leaves a valid, different board that lost stones from one pile only. */
  lemma TakeShrinks(b: seq<int>, pile: int, stones: int)
    requires ValidBoard(b) && 0 <= pile <= 4 && 0 < stones <= b[pile]
    ensures ValidBoard(b[pile := b[pile] - stones])
    ensures Shrinks(b, b[pile := b[pile] - stones]) && b[pile := b[pile] - stones] != b
    ensures Total(b[pile := b[pile] - stones]) == Total(b) - stones
  {
    var b' := b[pile := b[pile] - stones];
    assert b'[pile] != b[pile];
    TakeLowersTotal(b, pile, stones);
  }

  /** Taking stones from one pile lowers the total by that many. */
  lemma {:induction false} TakeLowersTotal(b: seq<int>, pile: nat, stones: int)
    requires pile < |b|
    ensures Total(b[pile := b[pile] - stones]) == Total(b) - stones
    decreases |b|
  {
    var b' := b[pile := b[pile] - stones];
    if pile > 0 {
      assert b'[1..] == b[1..][pile - 1 := b[pile] - stones];
      TakeLowersTotal(b[1..], pile - 1, stones);
    } else {
      assert b'[1..] == b[1..];
    }
  }

  /**
   * One pass of the loop after the PLAY announcements: the other player is
   * looked at first. A disconnection by either side forfeits the match to
   * the peer that is still there; a message from the other player draws
   * FAIL 31 and the referee goes round again.
   */
  function Step(g: Game, e: PollEvent): (r: Round)
    requires ValidBoard(g.board) && !Empty(g.board)
    ensures r.outcome.Next? ==> ValidBoard(r.outcome.game.board) && !Empty(r.outcome.game.board)
    ensures r.outcome.Next? ==> Shrinks(g.board, r.outcome.game.board)
    ensures r.outcome.Next? ==>
      (r.outcome.game.current != g.current <==> r.outcome.game.board != g.board)
    ensures forall s <- r.sends :: s.msg != Fail(PileIndex)
    ensures AllWellFormed(r.sends)
    ensures r.outcome.Done? ==> r.outcome.ending != Waiting
    ensures r.outcome.Done? && r.outcome.ending.Won? ==> r.outcome.ending.winner == g.current && WinNotices(r.sends, g.current)
    ensures r.outcome.Done? && r.outcome.ending.Forfeited? ==> ForfeitNotice(r.sends, r.outcome.ending.winner)
    ensures r.outcome.Done? && r.outcome.ending.Forfeited? ==>
      var w := r.outcome.ending.winner;
      e.Polled? && Disconnected(e.read) && Ready(e, Other(w)) &&
      r.sends == [Send(w, Over(w, g.board, true))]
    ensures e.Polled? && Disconnected(e.read) && (Ready(e, 1) || Ready(e, 2)) ==>
      var w := if Ready(e, Other(g.current)) then g.current else Other(g.current);
      r == Round([Send(w, Over(w, g.board, true))], Done(Forfeited(w)))
  {
    match e
    case PollFailed => Round([], Done(PollError))
    case Polled(_, _, read) =>
      var cur, oth := g.current, Other(g.current);
      if Ready(e, oth) then
        if Disconnected(read) then Round([Send(cur, Over(cur, g.board, true))], Done(Forfeited(cur)))
        else Round([Send(oth, Fail(Impatient))], Next(g))
      else if Ready(e, cur) then
        if Disconnected(read) then Round([Send(oth, Over(oth, g.board, true))], Done(Forfeited(oth)))
        else Judge(g, TokensOf(read.data))
      else Round([], Next(g))
  }

  /**
   * The two PLAY announcements that open every pass of the loop: the same
   * board and player to move, to player 1 and then to player 2.
   */
  function PlaySends(g: Game): (s: seq<Send>)
    ensures |s| == 2 && s[0].to == 1 && s[1].to == 2
    ensures forall i :: 0 <= i < |s| ==> s[i].msg.Play? && s[i].msg.player == g.current && s[i].msg.board == g.board
    ensures ValidBoard(g.board) ==> AllWellFormed(s)
  {
    [Send(1, Play(g.current, g.board)), Send(2, Play(g.current, g.board))]
  }

  /** The NAME messages that open a match: each player is told their slot and the opponent's name. */
  function NameSends(p1: string, p2: string): (s: seq<Send>)
    ensures |s| == 2 && s[0].to == 1 && s[1].to == 2
    ensures forall i :: 0 <= i < |s| ==> s[i].msg.Name? && s[i].msg.slot == s[i].to
    ensures s[0].msg.opponent == p2 && s[1].msg.opponent == p1
    ensures ValidName(p1) && ValidName(p2) ==> AllWellFormed(s)
  {
    [Send(1, Name(1, p2)), Send(2, Name(2, p1))]
  }

  /** Everything the loop writes from state `g` on, and how the match ends, for a run of events. */
  function Run(g: Game, events: seq<PollEvent>): (r: (seq<Send>, Ending))
    requires ValidBoard(g.board) && !Empty(g.board)
    ensures |r.0| >= 2 && r.0[..2] == PlaySends(g)
    decreases |events|
  {
    if events == [] then (PlaySends(g), Waiting)
    else
      var round := Step(g, events[0]);
      match round.outcome
      case Done(ending) =>
        OpensWithPlay(g, round.sends);
        (PlaySends(g) + round.sends, ending)
      case Next(g') =>
        var rest := Run(g', events[1..]);
        OpensWithPlayThen(g, round.sends, rest.0);
        (PlaySends(g) + round.sends + rest.0, rest.1)
  }

  /** The referee is left waiting in `poll` only right after announcing the state with PLAY. */
  lemma {:induction false} WaitsAfterPlay(g: Game, events: seq<PollEvent>)
    requires ValidBoard(g.board) && !Empty(g.board)
    ensures var r := Run(g, events); r.1 == Waiting ==> |r.0| >= 2 && r.0[|r.0| - 1].msg.Play?
    decreases |events|
  {
    if events != [] {
      var round := Step(g, events[0]);
      match round.outcome
      case Done(ending) =>
        RunDone(g, events, round.sends, ending);
        assert ending != Waiting;
      case Next(g') =>
        RunNext(g, events, round.sends, g');
        var rest := Run(g', events[1..]);
        WaitsAfterPlay(g', events[1..]);
        OpensWithPlayThen(g, round.sends, rest.0);
        assert Run(g, events) == (PlaySends(g) + round.sends + rest.0, rest.1);
    }
  }

  /** A pass's messages open with its PLAY announcements. */
  lemma OpensWithPlay(g: Game, sent: seq<Send>)
    ensures var s := PlaySends(g) + sent; |s| >= 2 && s[..2] == PlaySends(g)
  {
  }

  /** A pass followed by the rest of the run opens with its PLAY announcements and ends as the rest does. */
  lemma OpensWithPlayThen(g: Game, sent: seq<Send>, rest: seq<Send>)
    ensures var s := PlaySends(g) + sent + rest;
      |s| >= 2 && s[..2] == PlaySends(g) && (rest != [] ==> s[|s| - 1] == rest[|rest| - 1])
  {
  }

  /** The messages of a run, ignoring addressees. */
  predicate AllWellFormed(sends: seq<Send>)
  {
    forall i :: 0 <= i < |sends| ==> WellFormed(sends[i].msg)
  }

  lemma WellFormedConcat(a: seq<Send>, b: seq<Send>)
    requires AllWellFormed(a) && AllWellFormed(b)
    ensures AllWellFormed(a + b)
  {
    assert forall i :: |a| <= i < |a + b| ==> (a + b)[i] == b[i - |a|];
  }

  /** Every message the referee writes is well-formed: valid players, boards and reasons. */
  lemma {:induction false} RunWellFormed(g: Game, events: seq<PollEvent>)
    requires ValidBoard(g.board) && !Empty(g.board)
    ensures AllWellFormed(Run(g, events).0)
    decreases |events|
  {
    assert AllWellFormed(PlaySends(g));
    if events != [] {
      var round := Step(g, events[0]);
      WellFormedConcat(PlaySends(g), round.sends);
      if round.outcome.Next? {
        RunWellFormed(round.outcome.game, events[1..]);
        WellFormedConcat(PlaySends(g) + round.sends, Run(round.outcome.game, events[1..]).0);
      }
    }
  }

  /**
   * Every message the referee writes reaches the player as a token list
   * the validator accepts with the message's kind, behind a two-digit
   * length field.
   */
  lemma RunMessagesParse(g: Game, events: seq<PollEvent>, i: nat)
    requires ValidBoard(g.board) && !Empty(g.board) && i < |Run(g, events).0|
    ensures var m := Run(g, events).0[i].msg;
      ParseMessages(TokensOf(Encode(m))) == Accepted(KindOf(m)) && |LengthField(|Content(m)|)| == 2
  {
    RunWellFormed(g, events);
    var m := Run(g, events).0[i].msg;
    EncodeParses(m);
    EncodeLengthField(m);
  }

  /**
   * FAIL 32 is never written: the validator has already rejected every MOVE
   * whose pile is outside 0..4.
   */
  lemma {:induction false} RunNeverPileIndex(g: Game, events: seq<PollEvent>)
    requires ValidBoard(g.board) && !Empty(g.board)
    ensures forall s <- Run(g, events).0 :: s.msg != Fail(PileIndex)
    decreases |events|
  {
    if events != [] {
      var round := Step(g, events[0]);
      if round.outcome.Next? {
        RunNeverPileIndex(round.outcome.game, events[1..]);
      }
    }
  }

  lemma NoticesSurvivePrefix(a: seq<Send>, b: seq<Send>, w: PlayerId)
    ensures WinNotices(b, w) ==> WinNotices(a + b, w)
    ensures ForfeitNotice(b, w) ==> ForfeitNotice(a + b, w)
  {
    var s := a + b;
    if |b| >= 1 {
      assert s[|s| - 1] == b[|b| - 1];
    }
    if |b| >= 2 {
      assert s[|s| - 2] == b[|b| - 2];
    }
  }

  /**
   * A match that is won ends with both players told the winner and an empty
   * board; a match lost by forfeit ends with only the player still there
   * told, with the Forfeit reason.
   */
  lemma {:induction false} RunEnding(g: Game, events: seq<PollEvent>)
    requires ValidBoard(g.board) && !Empty(g.board)
    ensures Run(g, events).1.Won? ==> WinNotices(Run(g, events).0, Run(g, events).1.winner)
    ensures Run(g, events).1.Forfeited? ==> ForfeitNotice(Run(g, events).0, Run(g, events).1.winner)
    decreases |events|
  {
    if events != [] {
      var round := Step(g, events[0]);
      match round.outcome
      case Done(ending) =>
        if ending.Won? || ending.Forfeited? {
          NoticesSurvivePrefix(PlaySends(g), round.sends, ending.winner);
        }
      case Next(g') =>
        RunEnding(g', events[1..]);
        var rest := Run(g', events[1..]);
        if rest.1.Won? || rest.1.Forfeited? {
          NoticesSurvivePrefix(PlaySends(g) + round.sends, rest.0, rest.1.winner);
        }
    }
  }

  /**
   * A MOVE is applied exactly when it asks for at least one and at most
   * all of the pile's stones: only that pile changes and none goes
   * negative. Otherwise the mover gets FAIL 33 and board and turn stand.
   */
  lemma TakeApplies(g: Game, pile: int, stones: int)
    requires ValidBoard(g.board) && !Empty(g.board) && 0 <= pile <= 4
    ensures var r := Take(g, pile, stones);
      var b := if r.outcome.Next? then r.outcome.game.board else r.sends[0].msg.board;
      0 < stones <= g.board[pile] ==>
        (r.outcome.Next? || r.sends[0].msg.Over?) &&
        b == g.board[pile := g.board[pile] - stones] && ValidBoard(b)
    ensures !(0 < stones <= g.board[pile]) ==> Take(g, pile, stones) == Round([Send(g.current, Fail(Quantity))], Next(g))
  {
  }

  /**
   * A message from the player who is not to move draws FAIL 31, and the
   * loop goes round again from the same state: the PLAY announcements are
   * written once more.
   */
  lemma ImpatientReplaysPlay(g: Game, e: PollEvent, rest: seq<PollEvent>)
    requires ValidBoard(g.board) && !Empty(g.board)
    requires e.Polled? && Ready(e, Other(g.current)) && !Disconnected(e.read)
    ensures Run(g, [e] + rest).0 == PlaySends(g) + [Send(Other(g.current), Fail(Impatient))] + Run(g, rest).0
    ensures Run(g, [e] + rest).1 == Run(g, rest).1
  {
    assert ([e] + rest)[1..] == rest;
  }

  /**
   * Anything from the player to move that the validator does not accept as
   * a MOVE ends the match with FAIL 10 to that player alone.
   */
  lemma NonMoveEndsMatch(g: Game, e: PollEvent)
    requires ValidBoard(g.board) && !Empty(g.board)
    requires e.Polled? && !Ready(e, Other(g.current)) && Ready(e, g.current) && !Disconnected(e.read)
    requires ParseMessages(TokensOf(e.read.data)) != Accepted(MsgMove)
    ensures Step(g, e) == Round([Send(g.current, Fail(Invalid))], Done(Invalidated))
  {
  }

  /**
   * Line 351 calls the validator as written, which crashes on a token list
   * that is empty, or that starts with the version and has exactly two
   * tokens. On every other list the corrected validator takes the list as a
   * MOVE exactly when the one as written does, so `Judge` decides as the
   * code does; on the lists that crash the code, `Judge` sends FAIL 10.
   */
  lemma JudgeUnlessCrash(g: Game, tokens: seq<string>)
    requires ValidBoard(g.board) && !Empty(g.board)
    ensures ParseMessagesAsWritten(tokens) != Crash ==>
      (ParseMessagesAsWritten(tokens) == Accepted(MsgMove) <==> ParseMessages(tokens) == Accepted(MsgMove))
    ensures ParseMessagesAsWritten(tokens) == Crash ==>
      Judge(g, tokens) == Round([Send(g.current, Fail(Invalid))], Done(Invalidated))
  {
    if ParseMessagesAsWritten(tokens) == Crash {
      CrashRejected(tokens);
    } else {
      AgreeUnlessCrash(tokens, MsgMove);
    }
  }

  /**
   * A buffer holding only the header, `0|05|`, from the player to move:
   * the validator as written crashes on its two tokens, where `Judge`
   * ends the match with FAIL 10.
   */
  lemma HeaderOnlyJudged(g: Game)
    requires ValidBoard(g.board) && !Empty(g.board)
    ensures ParseMessagesAsWritten(TokensOf("0|05|")) == Crash
    ensures Judge(g, TokensOf("0|05|")) == Round([Send(g.current, Fail(Invalid))], Done(Invalidated))
  {
    HeaderOnlyCrashes();
  }

  /**
   * A digit MOVE whose pile `atoi` reads outside 0..4, or whose count it
   * reads as 0 or less (0 itself, or a value wrapped past 2^31), fails the
   * validator's field checks: it draws FAIL 10 and ends the match, not
   * FAIL 32 or FAIL 33 with the turn standing.
   */
  lemma BadMoveEndsMatch(g: Game, tokens: seq<string>)
    requires ValidBoard(g.board) && !Empty(g.board)
    requires |tokens| == 5 && tokens[0] == ProtocolVersion && tokens[2] == "MOVE"
    requires AllDigits(tokens[3]) && AllDigits(tokens[4])
    requires !(0 <= Atoi(tokens[3]) <= 4) || Atoi(tokens[4]) <= 0
    ensures Judge(g, tokens) == Round([Send(g.current, Fail(Invalid))], Done(Invalidated))
  {
    ParseSound(tokens);
  }

  /** A framed MOVE for a pile and a positive count reaches the referee as that move. */
  lemma MoveReceived(pile: int, stones: int)
    requires 0 <= pile <= 4 && 0 < stones <= IntMax
    ensures var tokens := TokensOf(Encode(Move(pile, stones)));
      |tokens| == 5 && ParseMessages(tokens) == Accepted(MsgMove) &&
      AllDigits(tokens[3]) && AllDigits(tokens[4]) && Atoi(tokens[3]) == pile && Atoi(tokens[4]) == stones
  {
    MoveParses(pile, stones);
    ParseComplete(TokensOf(Encode(Move(pile, stones))), MsgMove);
    NumberText(pile);
    NumberText(stones);
  }

  lemma FirstMoveJudged(g: Game, tokens: seq<string>)
    requires g == InitialGame && ValidBoard(g.board) && !Empty(g.board)
    requires ParseMessages(tokens) == Accepted(MsgMove) && |tokens| == 5
    requires AllDigits(tokens[3]) && AllDigits(tokens[4]) && Atoi(tokens[3]) == 4 && Atoi(tokens[4]) == 9
    ensures Judge(g, tokens) == Round([], Next(Game([1, 3, 5, 7, 0], 2)))
  {
    assert InitialBoard[4 := 0] == [1, 3, 5, 7, 0];
    assert !Empty([1, 3, 5, 7, 0]) by {
      assert [1, 3, 5, 7, 0][0] > 0;
    }
  }

  /** A run of one event that moves without ending the match: two rounds of PLAY, then waiting. */
  lemma OneMoveRun(g: Game, e: PollEvent, g': Game)
    requires ValidBoard(g.board) && !Empty(g.board) && ValidBoard(g'.board) && !Empty(g'.board)
    requires Step(g, e) == Round([], Next(g'))
    ensures Run(g, [e]) == (PlaySends(g) + PlaySends(g'), Waiting)
  {
    assert [e][1..] == [];
    RunNext(g, [e], [], g');
    var rest := Run(g', []);
    assert rest == (PlaySends(g'), Waiting);
    assert PlaySends(g) + [] + rest.0 == PlaySends(g) + PlaySends(g');
  }

  /**
   * A match whose first event is player 1 taking all nine stones of pile 4:
   * the referee announces the starting board, then the new board with
   * player 2 to move, and waits.
   */
  lemma FirstMoveExample()
    ensures Match([Polled(true, false, Received(Encode(Move(4, 9))))]) ==
      (PlaySends(InitialGame) + PlaySends(Game([1, 3, 5, 7, 0], 2)), Waiting)
  {
    InitialGameValid();
    var data := Encode(Move(4, 9));
    var e := Polled(true, false, Received(data));
    MoveReceived(4, 9);
    FirstMoveJudged(InitialGame, TokensOf(data));
    var g' := Game([1, 3, 5, 7, 0], 2);
    assert data != [] by {
      EncodeLengthField(Move(4, 9));
    }
    assert Step(InitialGame, e) == Round([], Next(g'));
    assert ValidBoard(g'.board) && g'.board[0] > 0;
    OneMoveRun(InitialGame, e, g');
  }

  /** `is_board_empty` over the referee's five-slot board. */
  method IsBoardEmpty(board: array<int>) returns (empty: bool)
    requires board.Length == 5
    ensures empty <==> Empty(board[..])
  {
    for i := 0 to 5
      invariant forall k :: 0 <= k < i ==> board[k] <= 0
    {
      if board[i] > 0 {
        assert board[..][i] > 0;
        return false;
      }
    }
    return true;
  }

  lemma InitialGameValid()
    ensures ValidBoard(InitialBoard) && !Empty(InitialBoard)
  {
    assert InitialBoard[0] > 0;
  }

  /** A run that goes on past its first event: its PLAY messages, the first round's, then the rest. */
  lemma RunNext(g: Game, events: seq<PollEvent>, sent: seq<Send>, g': Game)
    requires ValidBoard(g.board) && !Empty(g.board) && events != []
    requires Step(g, events[0]) == Round(sent, Next(g'))
    ensures ValidBoard(g'.board) && !Empty(g'.board)
    ensures Run(g, events) == (PlaySends(g) + sent + Run(g', events[1..]).0, Run(g', events[1..]).1)
  {
  }

  /** A run that ends with its first event. */
  lemma RunDone(g: Game, events: seq<PollEvent>, sent: seq<Send>, ending: Ending)
    requires ValidBoard(g.board) && !Empty(g.board) && events != []
    requires Step(g, events[0]) == Round(sent, Done(ending))
    ensures Run(g, events) == (PlaySends(g) + sent, ending)
  {
  }

  /** Everything a match writes after the NAME messages, and how it ends, for a run of events. */
  function Match(events: seq<PollEvent>): (r: (seq<Send>, Ending))
    ensures |r.0| >= 2 && r.0[..2] == PlaySends(InitialGame)
  {
    InitialGameValid();
    Run(InitialGame, events)
  }

  /**
   * The part of a pass that handles a message from the player to move:
   * tokenize it, validate it, and apply a MOVE to the board in place.
   * `next` is the player to move once the round is over.
   */
  method JudgeMessage(board: array<int>, current: PlayerId, data: string)
    returns (sent: seq<Send>, over: bool, ending: Ending, next: PlayerId)
    requires board.Length == 5 && ValidBoard(board[..]) && !Empty(board[..])
    modifies board
    ensures over ==> Judge(Game(old(board[..]), current), TokensOf(data)) == Round(sent, Done(ending))
    ensures !over ==> Judge(Game(old(board[..]), current), TokensOf(data)) == Round(sent, Next(Game(board[..], next)))
  {
    ghost var g := Game(board[..], current);
    var tokens := Tokenize(data);
    if ParseMessages(tokens) == Accepted(MsgMove) {
      JudgeMove(g, tokens);
      var pile := Atoi(tokens[3]);
      var stones := Atoi(tokens[4]);
      sent, over, ending, next := ApplyMove(board, current, pile, stones);
    } else {
      sent, over, ending, next := [Send(current, Fail(Invalid))], true, Invalidated, current;
    }
  }

  /**
   * The checks and the update for a MOVE that passed the validator, made
   * in place on the board array: the pile index, then the stone count,
   * then the take itself and the test for an empty board.
   */
  method ApplyMove(board: array<int>, current: PlayerId, pile: int, stones: int)
    returns (sent: seq<Send>, over: bool, ending: Ending, next: PlayerId)
    requires board.Length == 5 && ValidBoard(board[..]) && !Empty(board[..])
    modifies board
    ensures over ==> Take(Game(old(board[..]), current), pile, stones) == Round(sent, Done(ending))
    ensures !over ==> Take(Game(old(board[..]), current), pile, stones) == Round(sent, Next(Game(board[..], next)))
  {
    ghost var g := Game(board[..], current);
    next, over, ending := current, false, Waiting;
    if pile < 0 || pile > 4 {
      sent := [Send(current, Fail(PileIndex))];
      return;
    }
    if stones <= 0 || stones > board[pile] {
      sent := [Send(current, Fail(Quantity))];
      return;
    }
    board[pile] := board[pile] - stones;
    assert board[..] == g.board[pile := g.board[pile] - stones];
    var empty := IsBoardEmpty(board);
    if empty {
      var msg := Over(current, board[..], false);
      sent := [Send(1, msg), Send(2, msg)];
      over, ending := true, Won(current);
      return;
    }
    sent, next := [], Other(current);
  }

  /**
   * One pass of the loop after the PLAY announcements, for one event:
   * the other player's socket first, then the current player's.
   */
  method PlayRound(board: array<int>, current: PlayerId, e: PollEvent)
    returns (sent: seq<Send>, over: bool, ending: Ending, next: PlayerId)
    requires board.Length == 5 && ValidBoard(board[..]) && !Empty(board[..])
    modifies board
    ensures over ==> Step(Game(old(board[..]), current), e) == Round(sent, Done(ending))
    ensures !over ==> Step(Game(old(board[..]), current), e) == Round(sent, Next(Game(board[..], next)))
  {
    var other := Other(current);
    next, over, ending := current, false, Waiting;
    if e.PollFailed? {
      sent, over, ending := [], true, PollError;
      return;
    }
    var read := e.read;
    if Ready(e, other) {
      if Disconnected(read) {
        sent := [Send(current, Over(current, board[..], true))];
        over, ending := true, Forfeited(current);
        return;
      }
      sent := [Send(other, Fail(Impatient))];
      return;
    }
    if Ready(e, current) {
      if Disconnected(read) {
        sent := [Send(other, Over(other, board[..], true))];
        over, ending := true, Forfeited(other);
        return;
      }
      sent, over, ending, next := JudgeMessage(board, current, read.data);
      return;
    }
    sent := [];
  }

  lemma Regroup(a: seq<Send>, b: seq<Send>, c: seq<Send>)
    ensures a + (b + c) == (a + b) + c
  {
  }

  /**
   * One pass of the loop as a step of `Run`: `tail` is what the run from
   * here writes and how it ends; the pass either ends it or leaves `tail'`
   * for the rest of the events.
   */
  method Pass(board: array<int>, turn: PlayerId, rest: seq<PollEvent>, ghost tail: (seq<Send>, Ending))
    returns (sent: seq<Send>, over: bool, ending: Ending, next: PlayerId, ghost tail': (seq<Send>, Ending))
    requires board.Length == 5 && ValidBoard(board[..]) && !Empty(board[..]) && rest != []
    requires tail == Run(Game(board[..], turn), rest)
    modifies board
    ensures over ==> tail.0 == PlaySends(Game(old(board[..]), turn)) + sent && tail.1 == ending
    ensures !over ==> ValidBoard(board[..]) && !Empty(board[..]) && tail' == Run(Game(board[..], next), rest[1..])
    ensures !over ==> tail.0 == PlaySends(Game(old(board[..]), turn)) + sent + tail'.0 && tail.1 == tail'.1
  {
    ghost var g := Game(board[..], turn);
    sent, over, ending, next := PlayRound(board, turn, rest[0]);
    if over {
      RunDone(g, rest, sent, ending);
      tail' := tail;
    } else {
      RunNext(g, rest, sent, Game(board[..], next));
      tail' := Run(Game(board[..], next), rest[1..]);
    }
  }

  /**
   * The loop of `handle_game` over the board held in a five-slot array, one
   * event per pass: PLAY to both players, then one round. Sockets appear as
   * player numbers: the current and the other socket are swapped together
   * with the player numbers.
   */
  method PlayFrom(board: array<int>, current: PlayerId, events: seq<PollEvent>)
    returns (sends: seq<Send>, ending: Ending)
    requires board.Length == 5 && ValidBoard(board[..]) && !Empty(board[..])
    modifies board
    ensures sends == Run(Game(old(board[..]), current), events).0
    ensures ending == Run(Game(old(board[..]), current), events).1
  {
    ghost var spec := Run(Game(board[..], current), events);
    ghost var tail := spec;
    var turn := current;
    var rest := events;
    sends, ending := [], Waiting;
    var empty := IsBoardEmpty(board);
    while !empty
      modifies board
      invariant board.Length == 5 && ValidBoard(board[..]) && !Empty(board[..]) && !empty
      invariant tail == Run(Game(board[..], turn), rest)
      invariant spec.0 == sends + tail.0 && spec.1 == tail.1
      decreases |rest|
    {
      var g := Game(board[..], turn);
      if rest == [] {
        sends, ending := sends + PlaySends(g), Waiting;
        break;
      }
      var sent, over, next;
      sent, over, ending, next, tail := Pass(board, turn, rest, tail);
      Regroup(sends, PlaySends(g) + sent, tail.0);
      sends := sends + (PlaySends(g) + sent);
      if over {
        break;
      }
      turn := next;
      rest := rest[1..];
      empty := IsBoardEmpty(board);
    }
  }

  /** The match from the starting board [1, 3, 5, 7, 9] with player 1 to move. */
  method PlayMatch(events: seq<PollEvent>) returns (sends: seq<Send>, ending: Ending)
    ensures sends == Match(events).0 && ending == Match(events).1
  {
    var board := new int[5];
    board[0], board[1], board[2], board[3], board[4] := 1, 3, 5, 7, 9;
    assert board[..] == InitialBoard;
    InitialGameValid();
    sends, ending := PlayFrom(board, 1, events);
  }

  /**
   * `handle_game`: register both names, send the NAME messages, play the
   * match; every way out of the loop but waiting removes both names again.
   */
  method HandleGame(reg: ActivePlayers, p1: string, p2: string, events: seq<PollEvent>)
    returns (sends: seq<Send>, ending: Ending)
    requires reg.Valid()
    modifies reg, reg.names
    ensures sends == NameSends(p1, p2) + Match(events).0 && ending == Match(events).1
    ensures reg.Valid()
    ensures ending == Waiting ==> reg.Active() == Registered(Registered(old(reg.Active()), p1), p2)
    ensures ending != Waiting ==>
      reg.Active() == RemoveFirst(RemoveFirst(Registered(Registered(old(reg.Active()), p1), p2), p1), p2)
  {
    reg.AddActivePlayer(p1);
    reg.AddActivePlayer(p2);
    var played;
    played, ending := PlayMatch(events);
    sends := NameSends(p1, p2) + played;
    if ending != Waiting {
      reg.RemoveActivePlayer(p1);
      reg.RemoveActivePlayer(p2);
    }
  }
}
