# On-chain chess contract: rules engine and game lifecycle in Dafny

This project models the core of a chess smart contract. Two players stake a
wager, are paired through a single waiting slot and play on a 64-cell board
stored on chain. The model covers three parts:

- **Move validator** (`require_is_valid_move` and its per-piece helpers).
- **Check detector** (`require_king_in_check`), which an illegal-move claim
  rests on.
- **Game lifecycle**: joining, moving, draw offers, the illegal-move claim,
  the inactivity claim and resignation, plus the owner's `pause` and
  `unpause`, which every player endpoint depends on.

Each endpoint is all-or-nothing, so it is modelled as a pure step from a
stored state and a call to either a rejection or a new state plus the
payouts and score credits it emits.

The board is a sequence of 64 byte codes, indexed `x + 8*y`:

- White king, queen, rook, bishop, knight and pawn are codes 0 to 5.
- 6 is an empty cell.
- Black pieces are codes 7 to 12 in the same order.
- A piece's kind is `code % 7`.

White starts on rows 6-7 and moves toward row 0. Black starts on rows 0-1.

The model follows the code, including where the code departs from the
piece-movement rules of Article 3 of the FIDE Laws of Chess. These are the
departures:

- **Promotion never happens.** The pawn helper writes a queen into its own
  by-value copy of the board. The validator then stores back the board it
  read. Article 3 has the pawn replaced by a new piece on its last rank.
- **The queen has no rejection branch.** A queen move that is neither
  straight nor diagonal is accepted. Article 3 allows only lines and
  diagonals.
- **The bishop scans the wrong squares on anti-diagonals.** It always walks
  up-and-right from the lower corner of the move's bounding box.
- **Sliding pieces never give check.** Every ray of the check detector starts
  on the king's own square, so it stops at once. Under Article 3 a rook,
  bishop or queen with a clear line attacks the king.
- **The enemy-king probe looks at the wrong squares.** It tests the four
  diagonal neighbours and five knight offsets, never the orthogonal
  neighbours. Under Article 3 a king attacks all eight neighbouring squares
  and no square further off.
- **A missing king passes.** If the mover has no king on the board, the check
  requirement passes.
- **An out-of-range `from` aborts the call.** The source panics on the index;
  the model treats this as a rejection.

Modules, one or two per file:

- `Wrappers` (wrappers.dfy): `Option`, `Outcome` and `Result`.
- `Board` (board.dfy): codes, the start position and relocation.
- `MoveValidator` (validator.dfy): the validator as written.
- `ChessRules` (rules.dfy): an independent reference for piece movement.
- `MoveValidatorProperties` (validator_props.dfy): where the validator agrees
  with the reference, and concrete counterexamples where it does not.
- `CheckDetector` (detector.dfy) and `CheckDetectorProperties`
  (detector_props.dfy).
- `Storage` (storage.dfy): the `Game` record, the keyed state and the
  invariant `Valid`.
- `Lifecycle` (lifecycle.dfy) and `LifecycleProperties` (lifecycle_props.dfy).

The runtime inputs of a call are parameters of the operation:

- the caller's address;
- the current block epoch;
- whether the attached payment is the configured wager.

## Model

| member | source | states |
|---|---|---|
| Board.CodecRoundTrip | src/on_chain_chess_sc_requirements.rs:31-42 | The byte code of a piece and the decoded piece determine each other: decoding an encoding gives the piece back, and every code except 6 and those above 12 is the encoding of exactly one piece. |
| Board.Encode | src/on_chain_chess_sc_requirements.rs:31-42 | A piece's code is never the empty code. Its `code % 7` is the kind's index, and it lies below 6 exactly for White pieces. |
| Board.Decode | src/on_chain_chess_sc_requirements.rs:31-42 | Decoding yields no piece exactly for 6 and codes above 12; otherwise it gives the piece's kind (from `code % 7`) and colour (from the range). |
| Board.StartBoardLayout | src/on_chain_chess_sc_interactions.rs:9-13 | The start position holds only valid codes. Black is on rows 0-1, the four middle rows are empty and White is on rows 6-7, with pawns on rows 1 and 6. Each king stands alone on the e-file (cells 4 and 60). |
| Board.StartBoardQueens | src/on_chain_chess_sc_interactions.rs:9-13 | The start position holds exactly one queen of each colour. |
| Board.Relocate | src/on_chain_chess_sc_interactions.rs:88-91 | After relocation, the destination holds the moving code, the origin is empty and every other cell is unchanged. |
| Board.RelocateMultiset | src/on_chain_chess_sc_interactions.rs:88-91 | As a multiset, the relocated board is the old board minus the captured code plus one empty cell: no piece is created or transformed. |
| Board.RelocateCounts | src/on_chain_chess_sc_interactions.rs:88-91 | Relocating a piece never raises the count of any piece code. The number of pieces drops by one exactly when `to` was occupied, and boards of valid codes stay valid. |
| MoveValidator.ValidateMove | src/on_chain_chess_sc_requirements.rs:24-54 | The basic rejections: `to >= 64`, `to == from` and `from >= 64`, each with its own error. An accepted move starts on a piece of the side to move and does not land on one. The board left in storage is the board that was read. |
| MoveValidator.ByKind | src/on_chain_chess_sc_requirements.rs:42-53 | Every branch of the dispatch on `piece % 7`, including the pawn branch with its write-back, leaves the stored board unchanged. |
| MoveValidator.KingMove | src/on_chain_chess_sc_requirements.rs:367-372 | The king helper as written; `MoveValidatorProperties.KingAgrees` states that it accepts exactly the one-step moves. |
| MoveValidator.QueenMove | src/on_chain_chess_sc_requirements.rs:374-387 | The queen helper as written; `MoveValidatorProperties.QueenAgreesOnLines` and `QueenLeapAccepted` state the rook and bishop cases and the unconditional acceptance of every other displacement. |
| MoveValidator.RookMove | src/on_chain_chess_sc_requirements.rs:389-410 | The rook helper as written; `MoveValidatorProperties.RookMoveClear` states that it accepts exactly the straight moves with a clear path. |
| MoveValidator.BishopMove | src/on_chain_chess_sc_requirements.rs:412-440 | The bishop helper as written; `MoveValidatorProperties.BishopMoveClear` states where it matches the reference, and the two anti-diagonal lemmas where it does not. |
| MoveValidator.KnightMove | src/on_chain_chess_sc_requirements.rs:442-449 | The knight helper as written; `MoveValidatorProperties.KnightAgrees` states that it accepts exactly the (1, 2) and (2, 1) jumps. |
| MoveValidator.PawnMove | src/on_chain_chess_sc_requirements.rs:451-499 | The pawn helper as written, including the queen written into its own copy; `MoveValidatorProperties.PawnAgrees`, `PawnDeadEnds`, `UnderflowOnlyRejects` and `PromotionLost` state what it accepts and that the copy is lost. |
| MoveValidatorProperties.FileScanClear | src/on_chain_chess_sc_requirements.rs:391-399 | The rook's loop along a file passes exactly when every visited cell is empty. |
| MoveValidatorProperties.RankScanClear | src/on_chain_chess_sc_requirements.rs:400-409 | The rook's loop along a rank passes exactly when every visited cell is empty. |
| MoveValidatorProperties.BishopWalkClear | src/on_chain_chess_sc_requirements.rs:425-439 | The bishop's loop passes exactly when the up-and-right ray from the lower corner of the bounding box is clear. It walks that ray whatever the move's direction. |
| MoveValidatorProperties.RookMoveClear | src/on_chain_chess_sc_requirements.rs:389-410 | The rook helper accepts exactly the straight moves whose path is clear, by the reference definition of path. |
| MoveValidatorProperties.BishopMoveClear | src/on_chain_chess_sc_requirements.rs:412-440 | The bishop helper accepts exactly the clear-path moves on main diagonals and on anti-diagonals of at most two steps. |
| MoveValidatorProperties.RookAgrees | src/on_chain_chess_sc_requirements.rs:389-410 | A rook move that passes the basic checks is accepted if and only if it is straight with a clear path. |
| MoveValidatorProperties.BishopAgrees | src/on_chain_chess_sc_requirements.rs:412-440 | A bishop move off the diagonals is always refused. On main diagonals and on short anti-diagonals it is accepted exactly when the path is clear. |
| MoveValidatorProperties.QueenAgreesOnLines | src/on_chain_chess_sc_requirements.rs:374-387 | A queen move follows the rook rule on files and ranks, and the bishop rule where the bishop is right. Any displacement that is neither straight nor diagonal is accepted. |
| MoveValidatorProperties.QueenLeapAccepted | src/on_chain_chess_sc_requirements.rs:382-386 | A concrete queen move shaped like a knight's jump, over an occupied square, is accepted. |
| MoveValidatorProperties.BishopAcceptsBlockedAntiDiagonal | src/on_chain_chess_sc_requirements.rs:425-439 | A concrete three-step anti-diagonal bishop move whose path is blocked is accepted. |
| MoveValidatorProperties.BishopRefusesClearAntiDiagonal | src/on_chain_chess_sc_requirements.rs:425-439 | The same bishop move along a clear path is refused, because of a piece off the path. |
| MoveValidatorProperties.KingAgrees | src/on_chain_chess_sc_requirements.rs:367-372 | A king move that passes the basic checks is accepted if and only if it is one step in some direction. |
| MoveValidatorProperties.KnightAgrees | src/on_chain_chess_sc_requirements.rs:442-449 | A knight move that passes the basic checks is accepted if and only if it is a (1, 2) or (2, 1) jump. |
| MoveValidatorProperties.SubU8OnBoard | src/on_chain_chess_sc_requirements.rs:465-466 | Comparing a coordinate with the wrapped byte `x - 1` is the same as comparing it with the integer `x - 1`. |
| MoveValidatorProperties.UnderflowOnlyRejects | src/on_chain_chess_sc_requirements.rs:460-493 | Wherever the byte subtractions of the pawn rule would underflow, every disjunct is already false, so the move is rejected. |
| MoveValidatorProperties.PawnAgrees | src/on_chain_chess_sc_requirements.rs:460-493 | A pawn move that passes the basic checks is accepted if and only if it is a forward push onto an empty cell, a diagonal capture of an opposing piece, or a double push from the home rank across two empty cells. |
| MoveValidatorProperties.PawnDeadEnds | src/on_chain_chess_sc_requirements.rs:460-493 | A diagonal pawn step onto an empty cell is refused, and a pawn on its last rank can never move. |
| MoveValidatorProperties.PromotionLost | src/on_chain_chess_sc_requirements.rs:451-499 | When a pawn reaches its last rank, the helper's own copy gets a queen on the origin. The validator still leaves the board it read, so the relocation puts the pawn code, never a queen, on the destination. |
| CheckDetector.FindCode | src/on_chain_chess_sc_requirements.rs:58-67 | The king search returns the first cell holding the king's code, or none when no cell holds it. |
| CheckDetector.KingInCheck | src/on_chain_chess_sc_requirements.rs:56-365 | The check requirement as written; `CheckDetectorProperties.MissingKingPasses` and `FirstKingDecides` state exactly when it passes. |
| CheckDetectorProperties.StabilizerSelectsOpponent | src/on_chain_chess_sc_requirements.rs:59-60 | Adding the stabilizer to a White code gives the code of the same kind for the side that did not move, and the stabilizer alone is that side's king. |
| CheckDetectorProperties.SlidingPiecesNeverDetected | src/on_chain_chess_sc_requirements.rs:75-224 | From the king's own square, all eight rook and bishop rays report no check. |
| CheckDetectorProperties.MissingKingPasses | src/on_chain_chess_sc_requirements.rs:58-69 | If the mover's king code is on no cell, the requirement passes. |
| CheckDetectorProperties.ProbeIsOpposing | src/on_chain_chess_sc_requirements.rs:226-234 | One bounds-checked probe for the code the stabilizer selects finds exactly an opposing piece of that kind at the probed offset. |
| CheckDetectorProperties.KnightProbesMatch | src/on_chain_chess_sc_requirements.rs:226-275 | The eight knight probes find exactly an opposing knight on one of the knight offsets. |
| CheckDetectorProperties.PawnProbesMatch | src/on_chain_chess_sc_requirements.rs:277-304 | The two pawn probes find exactly an opposing pawn on the mover's colour-specific attack squares. |
| CheckDetectorProperties.KingProbesMatch | src/on_chain_chess_sc_requirements.rs:306-361 | The nine enemy-king probes find exactly the opposing king on a diagonal neighbour or on one of five knight offsets. |
| CheckDetectorProperties.FirstKingDecides | src/on_chain_chess_sc_requirements.rs:56-365 | With the mover's first king found, the requirement passes if and only if one of these holds: an opposing knight is on a knight offset, an opposing pawn is on an attack square, or the opposing king is on a probed square. |
| CheckDetectorProperties.RookCheckMissed | src/on_chain_chess_sc_requirements.rs:76-93 | A Black rook next to the White king on its rank attacks it along a clear path, yet the requirement for White fails. |
| CheckDetectorProperties.NothingProbed | src/on_chain_chess_sc_requirements.rs:56-365 | With no opposing knight or pawn on the board and the opposing king on none of the probed squares, the requirement fails whatever else stands on the board. |
| CheckDetectorProperties.KingProbeShape | src/on_chain_chess_sc_requirements.rs:306-361 | The probed squares for the opposing king include every diagonal neighbour and no orthogonal one. |
| CheckDetectorProperties.OrthogonalKingMissed | src/on_chain_chess_sc_requirements.rs:306-361 | The Black king directly in front of the White king is an orthogonal neighbour, yet the requirement for White fails. |
| CheckDetectorProperties.KnightDistanceKingFlagged | src/on_chain_chess_sc_requirements.rs:306-361 | The Black king a knight's jump from the White king is neither a diagonal nor an orthogonal neighbour, yet the requirement for White passes. |
| Storage.NewGame | src/on_chain_chess_sc_storage.rs:16-31 | A new game keeps the id, players and epoch it is given. It starts with White to move (turn code 0) and ongoing (state code 0). |
| Storage.Init | src/on_chain_chess_sc.rs:18-21 | Right after deployment the contract is paused, no one is waiting, there are no games, every score reads zero and no stake is held. |
| Storage.InitValid | src/on_chain_chess_sc.rs:18-21 | The deployed state satisfies the storage invariant. |
| Storage.OngoingCountUpdate | src/on_chain_chess_sc_storage.rs:56-58 | Replacing one game in the vector changes the number of ongoing games by the change in that game's status. |
| Lifecycle.OngoingGame | src/on_chain_chess_sc_requirements.rs:8-22 | The common guards pass exactly when the contract is not paused and the game exists and is ongoing, and they then yield that game. A paused contract always refuses with the pause error. |
| Lifecycle.JoinGame | src/on_chain_chess_sc_interactions.rs:20-53 | `join_game` as written; `LifecycleProperties.JoinSpec` and `JoinValid` state what it accepts and does. |
| Lifecycle.Move | src/on_chain_chess_sc_interactions.rs:55-95 | `make_move` as written; `LifecycleProperties.MoveSpec` and `MoveValid` state what it accepts and does. |
| Lifecycle.Draw | src/on_chain_chess_sc_interactions.rs:97-139 | `draw` as written; `LifecycleProperties.DrawSpec` and `DrawValid` state what it accepts and does. |
| Lifecycle.ClaimIllegal | src/on_chain_chess_sc_interactions.rs:141-177 | `call_illegal_move` as written; `LifecycleProperties.ClaimSpec` and `ClaimValid` state what it accepts and does. |
| Lifecycle.Inactivity | src/on_chain_chess_sc_interactions.rs:179-219 | `signal_inactivity` as written; `LifecycleProperties.InactivitySpec` and `InactivityValid` state what it accepts and does. |
| Lifecycle.ResignGame | src/on_chain_chess_sc_interactions.rs:221-261 | `resign` as written; `LifecycleProperties.ResignSpec` and `ResignValid` state what it accepts and does. |
| Lifecycle.SetPaused | src/on_chain_chess_sc_owner_interactions.rs:10-20 | The owner's `pause` and `unpause`; `LifecycleProperties.OwnerCallsOnlyTogglePause` states that they change the pause flag alone. |
| Lifecycle.Step | src/on_chain_chess_sc_interactions.rs:20-261 | One call to any endpoint; `LifecycleProperties.StepPreservesValid`, `StepAccounting`, `OtherGamesUnchanged` and `TerminalGamesFrozen` state what every call keeps. |
| LifecycleProperties.FinishStakes | src/on_chain_chess_sc_interactions.rs:117-132 | Ending an ongoing game lowers the stakes that must be held by two wagers. |
| LifecycleProperties.JoinValid | src/on_chain_chess_sc_interactions.rs:20-53 | Joining keeps the invariant. Game ids stay consecutive, the two players differ, the new board holds valid codes, and the stake received is held for the waiting player or for the new game. |
| LifecycleProperties.MoveValid | src/on_chain_chess_sc_interactions.rs:55-95 | An accepted move keeps the invariant: the relocated board holds valid codes and the game stays ongoing. |
| LifecycleProperties.DrawValid | src/on_chain_chess_sc_interactions.rs:97-139 | Offering or accepting a draw keeps the invariant, including the escrow after both stakes are returned. |
| LifecycleProperties.ClaimValid | src/on_chain_chess_sc_interactions.rs:141-177 | A successful illegal-move claim keeps the invariant. |
| LifecycleProperties.InactivityValid | src/on_chain_chess_sc_interactions.rs:179-219 | A successful inactivity claim keeps the invariant. |
| LifecycleProperties.ResignValid | src/on_chain_chess_sc_interactions.rs:221-261 | A resignation keeps the invariant. |
| LifecycleProperties.StepPreservesValid | src/on_chain_chess_sc_interactions.rs:20-261 | Every accepted call keeps the invariant, so the balance held always equals two wagers per ongoing game plus one for the waiting player. |
| LifecycleProperties.StepAccounting | src/on_chain_chess_sc_interactions.rs:120-137 | Each stored score moves exactly by the score credits the call emits. The balance moves by the stakes received minus the payouts. The payouts never exceed what the contract holds. |
| LifecycleProperties.OtherGamesUnchanged | src/on_chain_chess_sc_storage.rs:56-66 | Games are never removed. A call leaves the record, board and draw offer of every game it does not address unchanged. |
| LifecycleProperties.TerminalGamesFrozen | src/on_chain_chess_sc_requirements.rs:19-22 | Every call addressed to a finished game is refused, and no call changes a finished game's record, board or draw offer. |
| LifecycleProperties.PausedRejectsAll | src/on_chain_chess_sc_requirements.rs:8-10 | While paused, every player call is refused with the pause error, and only the owner's calls are accepted. |
| LifecycleProperties.OwnerCallsOnlyTogglePause | src/on_chain_chess_sc_owner_interactions.rs:10-20 | `pause` and `unpause` are always accepted and emit nothing. They leave the contract paused or active respectively and change nothing else. |
| LifecycleProperties.JoinSpec | src/on_chain_chess_sc_interactions.rs:20-53 | With the correct stake, an empty slot takes the caller and the waiting player cannot join again. Anyone else starts game `len + 1` as Black against the waiting player, on the start board, with no draw offer and the slot cleared. The stake is always received. |
| LifecycleProperties.MoveSpec | src/on_chain_chess_sc_interactions.rs:55-95 | A move is accepted exactly when the guards pass, the caller has the move, the deadline holds and the validator accepts. It moves the piece, flips the turn, records the epoch and changes nothing else. |
| LifecycleProperties.DeadlineComplementarity | src/on_chain_chess_sc_interactions.rs:77-82 | At every epoch exactly one of two things holds: the player to move is still in time, or the other player may claim inactivity. |
| LifecycleProperties.DrawSpec | src/on_chain_chess_sc_interactions.rs:97-139 | Only participants may offer a draw. A first offer is stored and repeating one's own offer is a no-op. The other player's offer is accepted: the offer is cleared, the game is drawn with no winner, and each player gets one wager and one point. |
| LifecycleProperties.ClaimSpec | src/on_chain_chess_sc_interactions.rs:141-177 | The claim succeeds exactly for the player to move when the check requirement holds for the other colour. The claimer's colour wins, and the claimer gets two wagers and two points. |
| LifecycleProperties.InactivitySpec | src/on_chain_chess_sc_interactions.rs:179-219 | The claim succeeds exactly for the participant not to move, once more than one epoch has passed. The claimer's colour wins, and the claimer gets two wagers and two points. |
| LifecycleProperties.ResignSpec | src/on_chain_chess_sc_interactions.rs:221-261 | Either participant may resign. The other colour wins, and the other player, never the resigner, gets two wagers and two points. |
| LifecycleProperties.DrawNeedsTwoParticipants | src/on_chain_chess_sc_interactions.rs:111-118 | However many draw calls one player makes alone, the game stays ongoing. |
| LifecycleProperties.NoPieceEverAdded | src/on_chain_chess_sc_interactions.rs:86-91 | Along any run of calls, no board ever holds more pieces of any code than the start position. |
| LifecycleProperties.NoPromotionEver | src/on_chain_chess_sc_requirements.rs:48-51 | From deployment on, whatever calls are made, every board holds at most one queen of each colour. |
| LifecycleProperties.GamesAreReachable | src/on_chain_chess_sc_interactions.rs:38-52 | From deployment, an unpause and two joins by different players create game 1: ongoing, with the first joiner as White, the second as Black and the start board. |

## Left out

- The owner endpoint `setWager` is not modelled. It writes the wager only when it is unset, so the wager stays fixed once games run. The escrow invariant relies on this. `wager` is a field of the state that no modelled call changes.
- The `#[only_owner]` gate of `pause` and `unpause` is not modelled: the `Pause` and `Unpause` calls stand for calls by the owner, and the framework refuses anyone else's without changing anything.
- The runtime calls are not modelled.
  - Reading the caller, the block epoch and the attached payment becomes inputs of each call.
  - The two wager checks of `join_game` become one boolean input.
  - Token transfers become `Payout` effects, and the received stake becomes a `StakeReceived` effect.
  - `escrow` stands for the contract's token balance. It is not a storage entry.
- The wager's `BigUint` arithmetic is not modelled: the wager is an unbounded natural number.
- The `u64` overflow of `last_move_epoch + 1` and of the scores is not modelled, because epochs and scores are unbounded naturals.
- The storage-mapper mechanics are not modelled. The games vector only grows, so `item_is_empty` never holds for an existing id. A missing board cannot be decoded, so the calls that read a board require that every existing game has one (`HasBoards`). `join_game` establishes this, and `Valid` keeps it.
- Panics and failed `require!` are not told apart: both are a rejection that changes nothing. That covers an out-of-range `from` index.
- The pawn rule's byte subtractions are modelled with wrap-around. `UnderflowOnlyRejects` shows that the decision is the same as with an aborting subtraction.
- Colours and game states are datatypes. Their `Code()` gives the stored byte, and the new turn and state are computed from it as the source computes them.
- Codec derives, the ABI and the contract wiring are not modelled. Neither is the empty `upgrade`.
- MoveValidatorProperties.BishopAgrees: only covers main diagonals and anti-diagonals of at most two steps, because on longer anti-diagonals the code inspects other squares. The counterexample lemmas show both directions failing there.
- MoveValidatorProperties.QueenAgreesOnLines: the diagonal case has the same restriction as BishopAgrees.
