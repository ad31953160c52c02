/**
 * The lobby of the server's accept loop: each connection's first message
 * must be an OPEN whose name is not in the active-player table. Player 1
 * is told to WAIT; once player 2 is admitted too, the pair is handed to a
 * game process, which registers both names.
 */
module Lobby {
  import opened Optional
  import opened Wire
  import opened Protocol
  import opened Registry
  import opened Referee

  /** What the lobby makes of a new connection's first read. */
  datatype Admission = Dropped | Refused(reason: FailReason) | Admitted(name: string)

  /**
   * A read of zero bytes or less closes the connection; a message that is
   * not a valid OPEN draws FAIL 10; a name already in the table draws
   * FAIL 22. The name kept is the one `strncpy` stores, at most 72 bytes.
   */
  function AdmissionOf(active: seq<string>, read: ReadResult): (a: Admission)
    ensures a.Admitted? ==> ValidName(a.name) && a.name !in active
    ensures a.Refused? ==> a.reason == Invalid || a.reason == AlreadyPlaying
    ensures a.Dropped? <==> Disconnected(read)
    ensures a == Refused(Invalid) <==>
      !Disconnected(read) && ParseMessages(TokensOf(read.data)) != Accepted(MsgOpen)
    ensures a == Refused(AlreadyPlaying) <==>
      !Disconnected(read) && ParseMessages(TokensOf(read.data)) == Accepted(MsgOpen) &&
      |TokensOf(read.data)| == 4 && Stored(TokensOf(read.data)[3]) in active
  {
    if Disconnected(read) then Dropped
    else
      var tokens := TokensOf(read.data);
      if ParseMessages(tokens) != Accepted(MsgOpen) then Refused(Invalid)
      else
        OpenName(read.data);
        var name := Stored(tokens[3]);
        if name in active then Refused(AlreadyPlaying) else Admitted(name)
  }

  /** The name field of an accepted OPEN is a valid name, and `strncpy` keeps all of it. */
  lemma OpenName(data: string)
    requires ParseMessages(TokensOf(data)) == Accepted(MsgOpen)
    ensures |TokensOf(data)| == 4 && ValidName(TokensOf(data)[3])
    ensures Stored(TokensOf(data)[3]) == TokensOf(data)[3]
  {
    var tokens := TokensOf(data);
    ParseSound(tokens);
    var s := CString(data);
    SplitExcludes(s, '\0');
    assert tokens[3] in Split(s);
  }

  /**
   * A connection is admitted under a name exactly when its first read holds
   * an OPEN for that name, field by field, and the name is not active.
   */
  lemma AdmittedExactly(active: seq<string>, read: ReadResult, n: string)
    ensures AdmissionOf(active, read) == Admitted(n) <==>
      !Disconnected(read) && Conforms(TokensOf(read.data), MsgOpen) &&
      TokensOf(read.data)[3] == n && n !in active
  {
    if !Disconnected(read) {
      var tokens := TokensOf(read.data);
      ParseSound(tokens);
      if Conforms(tokens, MsgOpen) {
        ParseComplete(tokens, MsgOpen);
        OpenName(read.data);
      }
    }
  }

  /**
   * Lines 496 and 556 call the validator as written, which crashes on a
   * first read whose tokens are none, or are the version and one more
   * token. On every other read the corrected validator takes the
   * tokens as an OPEN exactly when the one as written does, so
   * `AdmissionOf` decides as the code does; where the code crashes,
   * `AdmissionOf` refuses with FAIL 10.
   */
  lemma AdmissionUnlessCrash(active: seq<string>, read: ReadResult)
    requires !Disconnected(read)
    ensures ParseMessagesAsWritten(TokensOf(read.data)) != Crash ==>
      (ParseMessagesAsWritten(TokensOf(read.data)) == Accepted(MsgOpen) <==>
       ParseMessages(TokensOf(read.data)) == Accepted(MsgOpen))
    ensures ParseMessagesAsWritten(TokensOf(read.data)) == Crash ==>
      AdmissionOf(active, read) == Refused(Invalid)
  {
    var tokens := TokensOf(read.data);
    if ParseMessagesAsWritten(tokens) == Crash {
      CrashRejected(tokens);
    } else {
      AgreeUnlessCrash(tokens, MsgOpen);
    }
  }

  /** A client's framed OPEN for a valid, inactive name is admitted under that name. */
  lemma OpenAdmitted(active: seq<string>, n: string)
    requires ValidName(n) && n !in active
    ensures AdmissionOf(active, Received(Encode(Open(n)))) == Admitted(n)
  {
    OpenParses(n);
    AdmittedExactly(active, Received(Encode(Open(n))), n);
  }

  /**
   * The reads of one admission: read the first message, tokenize it,
   * validate it, copy the name and look it up in the table.
   */
  method AdmitPlayer(reg: ActivePlayers, read: ReadResult) returns (a: Admission)
    requires reg.Valid()
    ensures a == AdmissionOf(reg.Active(), read)
  {
    if read.Closed? || read.data == [] {
      return Dropped;
    }
    var tokens := Tokenize(read.data);
    if ParseMessages(tokens) != Accepted(MsgOpen) {
      return Refused(Invalid);
    }
    OpenName(read.data);
    var name := Stored(tokens[3]);
    var active := reg.IsPlayerActive(name);
    if active {
      return Refused(AlreadyPlaying);
    }
    return Admitted(name);
  }

  /**
   * The reply a refused connection gets before it is closed: one FAIL with
   * the reason, to that seat; nothing for a dropped or admitted connection.
   */
  function Refusal(seat: PlayerId, a: Admission): (s: seq<Send>)
    ensures s != [] <==> a.Refused?
    ensures a.Refused? ==> s == [Send(seat, Fail(a.reason))]
    ensures AllWellFormed(s)
  {
    if a.Refused? then [Send(seat, Fail(a.reason))] else []
  }

  /**
   * One pass of the accept loop, for the first reads of two connections:
   * what is sent, and the names handed to a game, if any. Player 1 gets
   * WAIT once admitted; a player 2 who is not admitted ends the pass and
   * both connections are closed. Both names are checked against the same
   * table, since neither is registered before the game starts.
   */
  function Pairing(active: seq<string>, r1: ReadResult, r2: ReadResult): (p: (seq<Send>, Option<(string, string)>))
    ensures p.1.Some? ==>
      ValidName(p.1.value.0) && ValidName(p.1.value.1) &&
      p.1.value.0 !in active && p.1.value.1 !in active
    ensures p.1.Some? <==> AdmissionOf(active, r1).Admitted? && AdmissionOf(active, r2).Admitted?
    ensures AdmissionOf(active, r1).Admitted? <==> |p.0| >= 1 && p.0[0] == Send(1, Wait)
    ensures p.1.Some? ==> p.1.value == (AdmissionOf(active, r1).name, AdmissionOf(active, r2).name)
    ensures !AdmissionOf(active, r1).Admitted? ==> p.0 == Refusal(1, AdmissionOf(active, r1))
    ensures AdmissionOf(active, r1).Admitted? ==> p.0 == [Send(1, Wait)] + Refusal(2, AdmissionOf(active, r2))
  {
    var a1 := AdmissionOf(active, r1);
    if !a1.Admitted? then (Refusal(1, a1), None)
    else
      var a2 := AdmissionOf(active, r2);
      if a2.Admitted? then ([Send(1, Wait)], Some((a1.name, a2.name)))
      else ([Send(1, Wait)] + Refusal(2, a2), None)
  }

  /** The pass of the accept loop that pairs two connections, over the table as it stands. */
  method PairPlayers(reg: ActivePlayers, r1: ReadResult, r2: ReadResult)
    returns (sends: seq<Send>, paired: Option<(string, string)>)
    requires reg.Valid()
    ensures (sends, paired) == Pairing(reg.Active(), r1, r2)
  {
    var a1 := AdmitPlayer(reg, r1);
    if !a1.Admitted? {
      return Refusal(1, a1), None;
    }
    sends := [Send(1, Wait)];
    var a2 := AdmitPlayer(reg, r2);
    if !a2.Admitted? {
      return sends + Refusal(2, a2), None;
    }
    paired := Some((a1.name, a2.name));
  }

  /**
   * Two connections that open with the same valid, inactive name are both
   * admitted and handed to one game: the first name is not in the table
   * while the second connection is checked.
   */
  lemma SameNameBothSeats(active: seq<string>, n: string)
    requires ValidName(n) && n !in active
    ensures Pairing(active, Received(Encode(Open(n))), Received(Encode(Open(n)))).1 == Some((n, n))
  {
    OpenAdmitted(active, n);
  }

  /**
   * A paired game that finishes leaves the table as the lobby saw it, when
   * no other game changed the table in between.
   */
  lemma FinishedGameRestores(active: seq<string>, r1: ReadResult, r2: ReadResult)
    requires Pairing(active, r1, r2).1.Some?
    ensures var (n1, n2) := Pairing(active, r1, r2).1.value;
      RemoveFirst(RemoveFirst(Registered(Registered(active, n1), n2), n1), n2) == active
  {
    var (n1, n2) := Pairing(active, r1, r2).1.value;
    GameRestoresTable(active, n1, n2);
  }
}
