# A verified model of the Nim game server's referee

`P4/nimd_concurrent.c` is a server for a two-player game of Nim played over
TCP. It speaks a small text protocol. Every message is framed as
`0|<len>|<content>`, with the content's fields each followed by `|`: OPEN,
WAIT, NAME, PLAY, MOVE, OVER and FAIL. The lobby accepts two connections in
turn. It admits each with a valid OPEN whose name is not already playing,
then forks a game process that referees one match. The match starts from
the piles 1 3 5 7 9. The player who takes the last stone wins.

This project models the core of that server in Dafny and proves properties
of the model. The modules follow the source:

- `CText` (ctext.dfy): the C library behaviour the server relies on.
  - `isdigit`, `isspace`, and the text `%d` prints.
  - glibc's `atoi`: `strtol` saturates at the range of a 64-bit `long`, then the conversion to a 32-bit `int` keeps the low 32 bits.
  - `sscanf`'s `%d` conversions.
- `Wire` (wire.dfy): the wire layer.
  - The C string a read buffer holds, which ends at the first NUL.
  - The `strtok` tokenizer loop. It drops empty fields and keeps at most 19 tokens. It is a method, proved against the pure split function.
  - The framing of `send_message`: the content is truncated to 1023 bytes, and its length is printed with `%02d`.
- `Protocol` (protocol.dfy): the validator `parse_messages`, both as written and corrected, and the contents the server formats for each message it sends.
- `Registry` (registry.dfy): the shared table of active player names. It is a class over a 100-slot array and a count. `is_player_active`, `add_active_player` and `remove_active_player` are methods on it, each proved against a function on sequences.
- `Referee` (referee.dfy): `is_board_empty` and the game loop of `handle_game`.
  - A function `Run` specifies the loop over a sequence of poll events.
  - The loop itself is imperative code over a five-slot array. It is proved equal to `Run`.
- `Lobby` (lobby.dfy): the admission of two players in the accept loop of `main`.

The protocol's design and the code differ in five places. In each of them the model follows the code:

- **Out-of-turn messages.** A message from the player who is not to move draws `FAIL|31 Impatient|`. The loop then starts again, so both players are sent PLAY once more (`Referee.ImpatientReplaysPlay`).
- **Registration.** The design registers a name in the lobby, atomically. The code only checks the table in the lobby. The game process inserts the names later. So both players of one match may open with the same name (`Lobby.SameNameBothSeats`).
- **The OVER with an empty reason.** The design allows an OVER whose reason is empty. The validator as written asks OVER for six tokens. `strtok` leaves only five of such a message, the server's own win message included. This is the second finding below.
- **A pile outside 0..4.** The design answers `FAIL|32 Pile Index|` and waits for another move. The validator already rejects such a MOVE, so the referee sends `FAIL|10 Invalid|` and ends the match; its own FAIL 32 branch is never reached (`Referee.RunNeverPileIndex`, `Referee.BadMoveEndsMatch`).
- **A count of zero or less.** The design answers `FAIL|33 Quantity|` and waits for another move. The validator rejects such a count first: a written minus sign fails its digit check (P4/nimd_concurrent.c:122-125), and a count of 0, or a digit string that `atoi` wraps to 0 or less, fails its range check (P4/nimd_concurrent.c:133-134). So the referee again sends FAIL 10 and ends the match (`Referee.BadMoveEndsMatch`, `Referee.NonMoveEndsMatch`).

In one place the model departs from the code on purpose. The validator as written crashes on a list of no tokens, and on a list of exactly two tokens that starts with the version (the first finding below). The referee and the lobby call the corrected validator instead. So where the code crashes, the model sends FAIL 10. `Referee.JudgeUnlessCrash` and `Lobby.AdmissionUnlessCrash` prove that this is the only place where the two validators lead the referee or the lobby to different decisions. The members this affects are `Referee.Judge`, `Referee.JudgeMessage`, `Referee.NonMoveEndsMatch`, `Referee.Step`, `Referee.PlayRound`, `Referee.Run`, `Referee.Pass`, `Referee.PlayFrom`, `Referee.Match`, `Referee.PlayMatch`, `Referee.HandleGame`, `Lobby.AdmissionOf`, `Lobby.AdmitPlayer`, `Lobby.Pairing` and `Lobby.PairPlayers`; "## Left out" has a line starting with each of these names.

## Model

| member | source | states |
|---|---|---|
| CText.Decimal | P4/nimd_concurrent.c:268-271 | the `%d` text of a non-negative value is all digits and reads back as that value; it has one digit below 10 and two from 10 to 99 |
| CText.IntText | P4/nimd_concurrent.c:268-271 | `%d` prints a minus sign and the magnitude for negative values, and the plain digits otherwise |
| CText.Saturate | P4/nimd_concurrent.c:128-129 | `strtol` returns values inside the `long` range unchanged, and clamps values above or below it to the bound |
| CText.Low32 | P4/nimd_concurrent.c:128-129 | the `(int)` conversion gives a 32-bit value congruent to its input modulo 2^32 |
| CText.ToCInt | P4/nimd_concurrent.c:128-129 | the value `atoi`/`%d` stores is a 32-bit int, and equals the parsed value whenever that value fits |
| CText.Atoi | P4/nimd_concurrent.c:128-129 | `atoi` of a digit string is a 32-bit int, equal to its decimal value when that value is at most 2^31-1 |
| CText.DigitRun | P4/nimd_concurrent.c:61-62 | the leading run of digits that `%d` consumes is maximal |
| CText.SkipSpace | P4/nimd_concurrent.c:61-62 | `%d` skips a prefix made only of white space, and what remains does not start with white space |
| CText.ScanInt | P4/nimd_concurrent.c:61-62 | a successful `%d` conversion consumes at least one character |
| CText.ScanInts | P4/nimd_concurrent.c:61-63 | `sscanf` with k conversions stores at most k values |
| CText.ScanDigitFirst | P4/nimd_concurrent.c:61-62 | a single digit followed by a blank or the end of the text scans as that digit, and the scan continues after it |
| Wire.CString | P4/nimd_concurrent.c:339 | the string held by the buffer is the longest NUL-free prefix |
| Wire.FieldLength | P4/nimd_concurrent.c:344-348 | a token runs up to the next `\|` or the end |
| Wire.Split | P4/nimd_concurrent.c:344-348 | every token `strtok` returns is non-empty and holds no `\|` |
| Wire.NextToken | P4/nimd_concurrent.c:348 | each resumed `strtok` call moves strictly forward |
| Wire.NextTokenSplit | P4/nimd_concurrent.c:344-348 | one `strtok` call returns the first token of the rest, or NULL when no token is left |
| Wire.Capped | P4/nimd_concurrent.c:345 | at most 19 tokens are kept, the first ones, and all of them when there are fewer |
| Wire.TokensOf | P4/nimd_concurrent.c:339-349 | the parser gets a prefix of the buffer's tokens, of length min(19, number of tokens) |
| Wire.Tokenize | P4/nimd_concurrent.c:342-349 | the tokenizing loop yields exactly `TokensOf(buffer)` |
| Wire.SplitExcludes | P4/nimd_concurrent.c:344-348 | a character absent from the buffer is absent from every token |
| Wire.SplitAtDelim | P4/nimd_concurrent.c:344-348 | the tokens of `a\|b` are the tokens of `a` followed by those of `b` |
| Wire.SplitField | P4/nimd_concurrent.c:344-348 | a `\|`-free field is one token, or none when it is empty |
| Wire.SplitJoin | P4/nimd_concurrent.c:344-348 | tokenizing a `\|`-terminated field list gives back its non-empty fields, in order |
| Wire.LengthField | P4/nimd_concurrent.c:197-198 | `%02d` prints at least two digits, which read back as the length; exactly two below 100 |
| Wire.Truncated | P4/nimd_concurrent.c:192-196 | `vsnprintf` keeps a prefix of at most 1023 bytes, and everything when the content fits |
| Wire.SplitHeader | P4/nimd_concurrent.c:197-199 | the version and length fields come out of `strtok` first, ahead of the content's tokens |
| Wire.Frame | P4/nimd_concurrent.c:189-201 | every message starts with `0\|`; a content under 100 bytes goes out whole behind the five-byte header `0\|NN\|`, whose two digits read back as its length |
| Wire.FrameTokens | P4/nimd_concurrent.c:189-201 | a framed content tokenizes as `"0"`, the length field, then the content's tokens; the length field reads back as the content's length |
| Protocol.ParseMessagesAsWritten | P4/nimd_concurrent.c:38-146 | the validator as written crashes exactly on an empty list, or on a two-token list with version `"0"`; a one-token list is PARSE_ERROR; whatever it accepts has version `"0"` and the kind's keyword at position 2 |
| Protocol.ParseMessages | P4/nimd_concurrent.c:38-146 | the corrected validator never crashes; whatever it accepts has version `"0"` and the kind's keyword at position 2 |
| Protocol.ParseSound | P4/nimd_concurrent.c:38-146 | every accepted list conforms, field by field, to the rules of its kind: the arity, a name of at most 72 bytes with no `\|`, a player `"1"` or `"2"`, five board values in 0..9, a reason `""` or `"Forfeit"`, and all-digit MOVE fields with pile in 0..4 and a positive count |
| Protocol.KeywordsDiffer | P4/nimd_concurrent.c:43-138 | the seven keywords the validator compares against are pairwise different |
| Protocol.ParseComplete | P4/nimd_concurrent.c:38-146 | every conforming list is accepted with its kind; with `ParseSound` this makes acceptance an if-and-only-if |
| Protocol.AgreeUnlessCrash | P4/nimd_concurrent.c:38-146 | wherever the validator as written does not crash, it accepts a list as any kind but OVER exactly when the corrected one does |
| Protocol.CrashRejected | P4/nimd_concurrent.c:40-43 | every list the validator as written crashes on is PARSE_ERROR for the corrected one |
| Protocol.ParseCorrectionsOnly | P4/nimd_concurrent.c:40-86 | the corrected validator agrees with the original everywhere except where the original crashes or on a five-token OVER |
| Protocol.DigitsTextScans | P4/nimd_concurrent.c:61-62 | any non-empty list of values from 0 to 9, printed blank-separated, reads back through as many `%d` conversions as the same list |
| Protocol.BoardTextScans | P4/nimd_concurrent.c:61-62 | the board text `"%d %d %d %d %d"` reads back through `sscanf` as the same five values |
| Protocol.BoardTextToken | P4/nimd_concurrent.c:61-70 | the validator accepts the text of every valid board as a board |
| Protocol.NumberText | P4/nimd_concurrent.c:117-129 | a non-negative int printed with `%d` is all digits and reads back through `atoi` as itself |
| Protocol.Fields | P4/nimd_concurrent.c:247-385 | the fields the server formats for a message start with the keyword of its kind |
| Protocol.Content | P4/nimd_concurrent.c:247-385 | a message's content opens with its keyword and a `\|`, and ends with a `\|` |
| Protocol.Encode | P4/nimd_concurrent.c:189-201 | the bytes written for a message start with `0\|`; a content under 100 bytes follows whole after the five-byte header |
| Protocol.EncodeTokens | P4/nimd_concurrent.c:189-201 | every well-formed message's content is under 100 bytes, and arrives as the two header tokens followed by the content's non-empty fields |
| Protocol.OpenParses | P4/nimd_concurrent.c:43-51 | a framed OPEN for a valid name tokenizes to `0, len, OPEN, name` and conforms to OPEN |
| Protocol.NameParses | P4/nimd_concurrent.c:247-248 | the NAME messages the server sends tokenize as NAME, the slot and the name, and conform to NAME |
| Protocol.PlayTokens | P4/nimd_concurrent.c:273-274 | a PLAY message tokenizes as PLAY, the player and the board text |
| Protocol.PlayParses | P4/nimd_concurrent.c:273-274 | every PLAY message the server sends conforms to PLAY |
| Protocol.MoveParses | P4/nimd_concurrent.c:111-136 | a framed MOVE with pile in 0..4 and a positive count tokenizes to its two numbers and conforms to MOVE |
| Protocol.OverTokens | P4/nimd_concurrent.c:384-385 | an OVER with a Forfeit reason arrives as six tokens; one with an empty reason arrives as five, without the reason |
| Protocol.OverParses | P4/nimd_concurrent.c:79-100 | every OVER message the server sends conforms to OVER |
| Protocol.FailParses | P4/nimd_concurrent.c:73-78 | every FAIL message arrives as FAIL and its code-and-text field, and conforms to FAIL |
| Protocol.EncodeConforms | P4/nimd_concurrent.c:189-201 | every well-formed message the server formats conforms to its own kind once framed and tokenized |
| Protocol.EncodeParses | P4/nimd_concurrent.c:38-146 | the corrected validator accepts every well-formed message the server sends, with that message's kind |
| Protocol.EncodeLengthField | P4/nimd_concurrent.c:197-199 | every message is written as `0\|`, a two-digit length, `\|` and the content, and the length field reads back as the content's length |
| Protocol.HeaderOnlyCrashes | P4/nimd_concurrent.c:40-43 | the buffer `0\|05\|` yields two tokens; the validator as written reads the missing third token, and the corrected one rejects the list |
| Protocol.WinOverRejectedAsWritten | P4/nimd_concurrent.c:81-86 | the server's own win message arrives as five tokens; the validator as written rejects it, and the corrected one accepts it as OVER |
| Protocol.OverFiveTokensRejected | P4/nimd_concurrent.c:79-82 | the validator as written rejects every five-token OVER |
| Registry.Stored | P4/nimd_concurrent.c:164-165 | `strncpy` into a slot keeps a prefix of at most 72 bytes, and the whole name when it fits |
| Registry.Registered | P4/nimd_concurrent.c:160-168 | adding a name appends its stored form when fewer than 100 names are active, and changes nothing otherwise |
| Registry.RemoveAbsent | P4/nimd_concurrent.c:171-186 | removing a name that is not active leaves the table unchanged |
| Registry.RemoveAt | P4/nimd_concurrent.c:171-186 | removal takes out the first matching entry and keeps the others in order |
| Registry.RemovePresent | P4/nimd_concurrent.c:171-186 | removing an active name shortens the table by one, and takes out exactly one copy of the name |
| Registry.RemoveLast | P4/nimd_concurrent.c:160-186 | removing a name just appended after entries that do not hold it restores the table |
| Registry.GameRestoresTable | P4/nimd_concurrent.c:414-415 | a game adds both names and later removes both; this restores a table that held neither name, whether it was full or not and whether the two names are equal |
| Registry.ActivePlayers.constructor | P4/nimd_concurrent.c:437-447 | the shared table starts with no active name |
| Registry.ActivePlayers.IsPlayerActive | P4/nimd_concurrent.c:149-157 | the result is true if and only if the name is among the first `count` slots |
| Registry.ActivePlayers.AddActivePlayer | P4/nimd_concurrent.c:160-168 | below 100 names, the stored name goes into slot `count` and `count` grows by one; when the table is full nothing changes; no other slot is touched |
| Registry.ActivePlayers.RemoveActivePlayer | P4/nimd_concurrent.c:171-186 | the active names become the old ones without their first match, in order; an absent name changes nothing; the slots from the old last active slot on keep their contents |
| Registry.ActivePlayers.CloseGap | P4/nimd_concurrent.c:177-181 | the active slots after the match move one down, in order; the slots before it and from the old last active slot on are unchanged |
| Referee.Other | P4/nimd_concurrent.c:392-394 | the other player is never the current one |
| Referee.Judge | P4/nimd_concurrent.c:351-409 | a message from the player to move either ends the match, as Invalidated or as a win for that player with an OVER to both, or leaves a valid non-empty board that changed in at most one pile. The turn passes exactly when the board changed, and then the stone total drops. It never writes FAIL 32, and every message it writes is well-formed |
| Referee.Take | P4/nimd_concurrent.c:355-400 | for a MOVE that the validator passed: an applied move lowers the total by exactly the stones taken and passes the turn; the last stone wins, with an OVER to both players; a pile in 0..4 never draws FAIL 32 |
| Referee.TakeLowersTotal | P4/nimd_concurrent.c:372 | taking stones from one pile lowers the stone total by that many |
| Referee.TakeApplies | P4/nimd_concurrent.c:365-372 | a move is applied if and only if it takes between one stone and the whole pile; only that pile changes and none goes negative; otherwise FAIL 33 goes to the mover and board and turn stay |
| Referee.Step | P4/nimd_concurrent.c:280-409 | one pass keeps the board valid and non-empty while the match goes on. A forfeit happens if and only if a ready socket's read returned 0 bytes or less: the other player's socket is looked at first, and the player still connected wins, with a single OVER with Forfeit and the current board to that player and nothing to the one who left. A win goes to the player to move. No FAIL 32 is written, and every message is well-formed |
| Referee.PlaySends | P4/nimd_concurrent.c:268-274 | each pass opens with PLAY to player 1 and then to player 2, both with the same player to move and board; for a valid board both are well-formed |
| Referee.NameSends | P4/nimd_concurrent.c:247-248 | player 1 is told slot 1 and the name of player 2, and player 2 slot 2 and the name of player 1; for valid names both are well-formed |
| Referee.Run | P4/nimd_concurrent.c:265-411 | a run opens with the PLAY announcements of the state it starts from |
| Referee.WaitsAfterPlay | P4/nimd_concurrent.c:265-411 | the referee is left waiting in `poll` only right after a PLAY announcement |
| Referee.Match | P4/nimd_concurrent.c:253-411 | every match opens with PLAY to both players announcing 1 3 5 7 9 with player 1 to move |
| Referee.RunWellFormed | P4/nimd_concurrent.c:247-409 | every message a match writes has a valid player, board and reason |
| Referee.RunMessagesParse | P4/nimd_concurrent.c:265-409 | every message a match writes is accepted by the corrected validator with its own kind, behind a two-digit length field |
| Referee.RunNeverPileIndex | P4/nimd_concurrent.c:359-363 | `FAIL\|32 Pile Index\|` is never written, because the validator already rejects every pile outside 0..4 |
| Referee.NoticesSurvivePrefix | P4/nimd_concurrent.c:265-409 | the closing OVER messages stay last when earlier messages are written before them |
| Referee.RunEnding | P4/nimd_concurrent.c:294-390 | a won match ends with the same OVER, with an empty board and no reason, to player 1 and then to player 2; a forfeited match ends with an OVER with Forfeit to the remaining player only |
| Referee.ImpatientReplaysPlay | P4/nimd_concurrent.c:310-314 | a message out of turn draws FAIL 31 to its sender, and the loop repeats from the same state, PLAY announcements included |
| Referee.BadMoveEndsMatch | P4/nimd_concurrent.c:128-134 | a digit MOVE whose pile `atoi` reads outside 0..4, or whose count it reads as 0 or less, is rejected by the validator, so the player to move gets FAIL 10 and the match ends, instead of FAIL 32 or FAIL 33 and another try |
| Referee.NonMoveEndsMatch | P4/nimd_concurrent.c:403-409 | anything from the player to move that the validator does not accept as a MOVE draws FAIL 10 to that player and ends the match |
| Referee.JudgeUnlessCrash | P4/nimd_concurrent.c:351-409 | wherever the validator as written does not crash, it takes a message as a MOVE exactly when the corrected one does, so `Judge` decides as the code does; where the code crashes, `Judge` sends FAIL 10 and ends the match |
| Referee.HeaderOnlyJudged | P4/nimd_concurrent.c:351-409 | the buffer `0\|05\|` from the player to move makes the validator as written crash, where `Judge` ends the match with FAIL 10 |
| Referee.MoveReceived | P4/nimd_concurrent.c:339-356 | a framed MOVE with pile in 0..4 and a positive count reaches the referee as five tokens accepted as MOVE, whose fields `atoi` reads back as the pile and the count |
| Referee.OneMoveRun | P4/nimd_concurrent.c:265-400 | after a move that does not end the match, the loop announces the new board and turn with PLAY |
| Referee.FirstMoveExample | P4/nimd_concurrent.c:253-400 | taking all nine stones of pile 4 as the first move announces 1 3 5 7 0 with player 2 to move |
| Referee.EmptyMeansNoStones | P4/nimd_concurrent.c:205-213 | on piles that are never negative, the board is empty exactly when the stone total is 0 |
| Referee.IsBoardEmpty | P4/nimd_concurrent.c:205-213 | the result is true if and only if no pile holds a stone |
| Referee.JudgeMessage | P4/nimd_concurrent.c:339-409 | tokenizing, validating and applying a message in place on the board array gives exactly what `Judge` specifies: the messages written, the ending, and the new board and player to move |
| Referee.ApplyMove | P4/nimd_concurrent.c:355-398 | checking the pile and the stone count and taking the stones in place on the board array gives exactly what `Take` specifies: the messages written, the ending, and the new board and player to move |
| Referee.PlayRound | P4/nimd_concurrent.c:280-409 | one pass over the board array after the PLAY announcements gives exactly what `Step` specifies |
| Referee.Pass | P4/nimd_concurrent.c:265-409 | one pass either ends the run that `Run` specifies, or leaves the rest of that run for the following events |
| Referee.PlayFrom | P4/nimd_concurrent.c:265-411 | the loop over the five-slot board writes exactly the messages `Run` specifies and ends the way it specifies |
| Referee.PlayMatch | P4/nimd_concurrent.c:253-411 | from the starting board 1 3 5 7 9 with player 1 to move, the loop produces the run `Match` specifies |
| Referee.HandleGame | P4/nimd_concurrent.c:237-419 | a game registers both names and sends NAME 1 with the opponent's name to player 1 and NAME 2 to player 2, then plays the match. Every ending of the modelled match removes both names again; while it still waits in `poll`, both stay registered |
| Lobby.AdmissionOf | P4/nimd_concurrent.c:479-518 | a connection is dropped exactly when its read returns 0 bytes or less. It is refused with FAIL 10 exactly when its tokens are not an accepted OPEN, and with FAIL 22 exactly when they are an accepted OPEN whose stored name is active. An admitted name is a valid name of at most 72 bytes and is not active |
| Lobby.AdmissionUnlessCrash | P4/nimd_concurrent.c:496-566 | wherever the validator as written does not crash on a first read, it takes it as an OPEN exactly when the corrected one does, so `AdmissionOf` decides as the code does; where the code crashes, `AdmissionOf` refuses with FAIL 10 |
| Lobby.Refusal | P4/nimd_concurrent.c:497-513 | a refused connection gets exactly one FAIL with the reason for the refusal, on its own seat; a dropped or admitted one gets nothing |
| Lobby.OpenName | P4/nimd_concurrent.c:496-506 | an accepted OPEN has four tokens; its name is a valid name, which `strncpy` copies whole |
| Lobby.AdmittedExactly | P4/nimd_concurrent.c:479-518 | a connection is admitted under a name if and only if its first read holds a conforming OPEN for that name and the name is not active |
| Lobby.OpenAdmitted | P4/nimd_concurrent.c:479-518 | a client's framed OPEN for a valid name that is not active is admitted under that name |
| Lobby.AdmitPlayer | P4/nimd_concurrent.c:479-518 | reading, tokenizing, validating and looking up the name against the table gives exactly `AdmissionOf` for the current table |
| Lobby.Pairing | P4/nimd_concurrent.c:477-580 | a game gets the two admitted names, player 1's first, exactly when both connections are admitted; both are then valid and not active. A refused player 1 gets only its refusal; an admitted player 1 is sent WAIT, followed by player 2's refusal if there is one |
| Lobby.PairPlayers | P4/nimd_concurrent.c:477-580 | one pass of the accept loop sends exactly what `Pairing` specifies and pairs the names it specifies |
| Lobby.SameNameBothSeats | P4/nimd_concurrent.c:509-570 | two connections that open with the same valid, inactive name are both admitted into one game |
| Lobby.FinishedGameRestores | P4/nimd_concurrent.c:414-415 | when a paired game ends and no other game changed the table meanwhile, the table is the one the lobby checked against |

## Left out

- Sockets, `accept`, `read`, `write` and `poll` are not modelled as I/O. The model takes the sequence of what each `poll` and the following `read` report as input, and yields the messages written, each with its addressee.
- Player file descriptors are not modelled. Each player is known only by their number. Swapping `current_fd` and `other_fd` is the swap of the player numbers.
- A failed `accept` of player 2 (P4/nimd_concurrent.c:523-535) is modelled as a read that returned nothing: both close the two connections.
- The 1023-byte bound on each `read` is not enforced on the modelled reads. A client's message arrives whole in one read.
- `write` results are ignored by the server, so a message is modelled as sent in full.
- A content under 100 bytes goes out behind the five-byte header `0|NN|` (`Wire.Frame`). For longer contents `%02d` prints more digits, and the header grows with them. `Protocol.EncodeTokens` proves that every message the server formats is under 100 bytes.
- `fork`, the `mmap`-shared table, `sigchld_handler` and `waitpid` (P4/nimd_concurrent.c:422-450, 582-603) are not modelled. These are process plumbing.
- The lobby checks the table in one process and the game adds the names in another, without a lock. Only the sequential effect of each operation is modelled, not the race.
- `read_message` (P4/nimd_concurrent.c:216-235) is never called.
- `printf` and `perror` logging is not modelled.
- `close` calls are not modelled.
- `open_listener` comes from `network.h`, which is not part of this model.
- `P4/testc.c` is the interactive terminal client. It is not modelled.
- `main`'s endless `while (1)` loop is modelled one pass at a time (`Lobby.PairPlayers`), over the table as it stands.
- Referee.Run: when the events run out, the model says the referee is `Waiting` in `poll`. The real loop would block there.
- Referee.HandleGame: the messages to the two players are one interleaved sequence. A real reader sees each player's share in order on its own socket.
- CText.Atoi is modelled only on digit strings. That is the only way the server calls it, after the validator's digit check.
- Referee.Judge: on a message whose tokens are none, or are the version and exactly one more token, the code crashes at P4/nimd_concurrent.c:40-43, called from line 351. The game process dies: no FAIL 10 is sent, and neither name is removed from the shared table. `Judge` uses the corrected validator and sends FAIL 10 and ends the match as Invalidated. `Referee.JudgeUnlessCrash` proves this is the only difference.
- Referee.JudgeMessage: the same difference as `Referee.Judge`, in the imperative pass.
- Referee.Step: inherits the crash difference of `Referee.Judge`: such a message ends the modelled match with FAIL 10 and Invalidated.
- Referee.PlayRound: inherits the crash difference of `Referee.Judge`, through `Referee.Step`.
- Referee.Run: inherits the crash difference of `Referee.Judge`, through `Referee.Step`.
- Referee.Pass: inherits the crash difference of `Referee.Judge`, through `Referee.Run`.
- Referee.PlayFrom: inherits the crash difference of `Referee.Judge`, through `Referee.Run`.
- Referee.Match: inherits the crash difference of `Referee.Judge`, through `Referee.Run`.
- Referee.PlayMatch: inherits the crash difference of `Referee.Judge`, through `Referee.Match`.
- Referee.NonMoveEndsMatch: covers the short messages too, where the code crashes instead of sending FAIL 10.
- Referee.HandleGame: the crash above is not an ending of the model. In the code the game process dies with both names still registered; the model removes them after its FAIL 10.
- Lobby.AdmissionOf: on a first read whose tokens are none, or are the version and exactly one more token, the code crashes at P4/nimd_concurrent.c:40-43, called from lines 496 and 556. Both calls run in the lobby process, so the crash ends the server. `AdmissionOf` refuses the connection with FAIL 10 and the lobby goes on. `Lobby.AdmissionUnlessCrash` proves this is the only difference.
- Lobby.AdmitPlayer: the same difference as `Lobby.AdmissionOf`, in the imperative pass.
- Lobby.Pairing: inherits the crash difference of `Lobby.AdmissionOf`: where the server dies, the pass refuses that seat with FAIL 10.
- Lobby.PairPlayers: inherits the crash difference of `Lobby.AdmissionOf`, through `Lobby.AdmitPlayer`.
- Protocol.ParseMessagesAsWritten: on a one-token list it compares token 2, which the tokenizing loop (P4/nimd_concurrent.c:342-349) did not set. At lines 351 and 496 that slot is uninitialised; at line 556 it still points into the buffer, which now holds player 2's bytes. The model takes it as a string that names no keyword, so the list is PARSE_ERROR. Comparing through an uninitialised slot is undefined behaviour in C.
- Registry.Stored: names are sequences of `char`, and each `char` stands for one byte. The same holds for `Protocol.ValidName` and the validator's 72-byte name check. The model allows `char` values above 255, which a socket never delivers. The C code measures a multi-byte UTF-8 name in bytes, which the model does not capture.
- Registry.ActivePlayers: slots hold strings rather than 73-byte arrays. `strcpy` between slots copies the whole stored name.

## Findings

| source | as written | input that shows it | evidently intended | confidence | as-written member | corrected member |
|---|---|---|---|---|---|---|
| P4/nimd_concurrent.c:40-43 | `parse_messages` compares token 0 and token 2 before it looks at the token count | a buffer `0\|05\|` (or an empty one) yields two tokens (or none), so `msg[2]` (or `msg[0]`) is the NULL that ended tokenizing, and it is passed to `strcmp` | a list of fewer than three tokens is PARSE_ERROR | not executed | Protocol.HeaderOnlyCrashes | Protocol.ParseMessages |
| P4/nimd_concurrent.c:81-86 | OVER must have exactly six tokens, the sixth `""` or `"Forfeit"` | the server's own win message `OVER\|1\|0 0 0 0 0\|\|` (P4/nimd_concurrent.c:384-385) loses its empty reason field to `strtok` and arrives as five tokens, which are rejected | a five-token OVER is an OVER with an empty reason | not executed | Protocol.WinOverRejectedAsWritten | Protocol.ParseMessages |
