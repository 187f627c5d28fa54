# Checkers pawn moves and the automated player's turn

A Dafny model of two pieces of turn logic from a checkers game.

**A pawn's legal-move calculation** is `CheckersPawn.calcAvailableMoves`.
- The pawn holds two rule sets, fixed at construction:
  - a movement set: one diagonal step, or two steps over a pawn of its own owner, masked by "empty square";
  - a capture set: two steps over a pawn of another owner, masked by "empty square".
- The calculation starts from an empty move map and visits every board square in the board's order:
  - A square the movement set selects gets a movement.
  - Otherwise, a square the capture set selects gets a capture. The captured square is the first square strictly between the pawn and the destination that holds a pawn whose owner's name differs.
  - If the capture scan finds no such pawn, the calculation throws, and the map keeps what was built so far.
- Finally, a cancel move is set at the pawn's own square.
- The move map is an insertion-ordered JavaScript `Map`, modelled as an ordered key list plus a map (`Moves.MoveMap`).

**The automated player's turn** is `Cpu.takeTurn`.
- It visits the pawns in board order. For each pawn the player may play, it:
  - recomputes that pawn's moves;
  - keeps the pawn in `pawnWithMostMoves` if none is kept yet, or if this pawn has strictly more moves than the kept one.
- The field is never reset, so a turn starts from the previous turn's choice.
- If no pawn is chosen, the turn throws a `GameRuleError`.
- Otherwise it:
  - lifts the chosen pawn;
  - places it on the square of one entry of its move map;
  - ends the turn.

**Structure.**
- `board.dfy`: coordinates, diagonal geometry, and the board as the calculation reads it.
- `rules.dfy`: rule and rule-set semantics.
- `moves.dfy`: moves and the ordered move map.
- `checkers_pawn.dfy`:
  - the calculation as a value-level specification (`Walk`, `Collect`, `ResultingMoves`);
  - its properties;
  - the imperative `Pawn` class, whose `CalcAvailableMoves` loop is proved against that specification.
- `cpu.dfy`:
  - the running maximum (`Contend`, `RunningMax`) and its properties;
  - the imperative `Cpu` class, whose selection loop and turn are proved against it.

## Model

| member | source | states |
|---|---|---|
| Board.SquaresBetween | src/app/checkers/board/piece/checkersPawn.tsx:64-73 | the squares scanned between origin and destination: one fewer than the diagonal steps between them, none off the diagonal |
| Board.BetweenExcludesEnds | src/app/checkers/board/piece/checkersPawn.tsx:64-73 | the scan is strictly between and runs from origin to destination: square `i` is neither endpoint, lies on the diagonal `i + 1` steps from the origin and the remaining steps from the destination |
| Board.BetweenTwoStepsIsMidpoint | src/app/checkers/board/piece/checkersPawn.tsx:64-73 | for a two-step jump, the only square scanned is the midpoint |
| SelectionRules.MovementRules | src/app/checkers/board/piece/checkersPawn.tsx:28-30 | the movement set is masked by "empty square" |
| SelectionRules.CaptureRules | src/app/checkers/board/piece/checkersPawn.tsx:32-33 | the capture set is masked by "empty square" |
| SelectionRules.MaskedByEmptySelectsEmpty | src/app/checkers/board/piece/checkersPawn.tsx:28-33 | whatever its additive rules, a set masked by "empty square" selects only empty squares |
| SelectionRules.MovementRulesSelect | src/app/checkers/board/piece/checkersPawn.tsx:28-30 | the movement set selects a square iff it is empty, on a diagonal, and either one step away or two steps away over a pawn of the same owner |
| SelectionRules.CaptureRulesSelect | src/app/checkers/board/piece/checkersPawn.tsx:32-33 | the capture set selects a square iff it is empty, two diagonal steps away, and the midpoint holds another owner's pawn |
| Moves.MoveMap.Set | src/app/checkers/board/piece/checkersPawn.tsx:58 | `Map.set`: the key maps to the new move and other entries are untouched; a new key is appended to the order, an existing key keeps its place |
| Moves.EveryEntryHasAnIndex | src/app/checkers/cpu.tsx:39-40 | `Array.from(map)` lists every entry exactly once: each key has exactly one index below `Map.size`, and the entry there is its move, so any move, the cancel included, can be picked |
| Moves.SizeIsEntryCount | src/app/checkers/cpu.tsx:39 | `Map.size` is the number of distinct keys |
| CheckersPawn.FirstOpponent | src/app/checkers/board/piece/checkersPawn.tsx:62-73 | a found capture target is one of the squares between and holds an opponent's pawn |
| CheckersPawn.VisitSquare | src/app/checkers/board/piece/checkersPawn.tsx:57-83 | the callback never records a cancel, places every recorded move on the visited square, and a capture removes an opponent's pawn strictly between origin and square |
| CheckersPawn.Walk | src/app/checkers/board/piece/checkersPawn.tsx:56-84 | `foreachSquare` with the callback keeps the map well-formed and adds at most one entry per square visited |
| CheckersPawn.FirstOpponentIsFirst | src/app/checkers/board/piece/checkersPawn.tsx:64-73 | the scan finds nothing iff no square between holds an opponent; otherwise it finds the first one, and later candidates are ignored |
| CheckersPawn.Pawn.FindCaptureTarget | src/app/checkers/board/piece/checkersPawn.tsx:62-73 | the loop with the mutable `target` returns exactly the first square between that holds an opponent |
| CheckersPawn.ResultingMoves | src/app/checkers/board/piece/checkersPawn.tsx:86 | when the walk did not throw, the pawn's own square holds the cancel move, whatever was set there before |
| CheckersPawn.FailureIsFinal | src/app/checkers/board/piece/checkersPawn.tsx:75-77 | a throw ends the `foreachSquare` walk: the result equals the one at the failing square |
| CheckersPawn.WalkFailsIffVisitThrows | src/app/checkers/board/piece/checkersPawn.tsx:56-84 | a walk throws iff some visited square's callback throws |
| CheckersPawn.WalkEntries | src/app/checkers/board/piece/checkersPawn.tsx:56-84 | every key of the walk's map is a visited square whose callback recorded that move; after a full walk, every such square has a key |
| CheckersPawn.FailsIffTargetMissing | src/app/checkers/board/piece/checkersPawn.tsx:61-78 | the calculation throws iff some square is selected for capture with no opponent between |
| CheckersPawn.CollectEntries | src/app/checkers/board/piece/checkersPawn.tsx:56-84 | the same two facts for the calculation's own walk, with entries only for squares whose visit recorded a move |
| CheckersPawn.ResultingEntries | src/app/checkers/board/piece/checkersPawn.tsx:56-84 | apart from the own square, a key exists iff the movement or the capture set selected that square; a movement-selected square gets a movement and the capture set is not consulted; any other entry captures the first opponent between |
| CheckersPawn.CaptureTargetIsFirstOpponent | src/app/checkers/board/piece/checkersPawn.tsx:90-97 | a `CheckersCaptureMove` entry has its key as destination, and its captured square is the first square between that holds an opponent |
| CheckersPawn.PlacedOnItsKey | src/app/checkers/cpu.tsx:40-41 | every entry of the map, the cancel included, is placed (`move.square`) on the square it is stored under, whether or not the calculation threw |
| CheckersPawn.PawnNeverMissesTarget | src/app/checkers/board/piece/checkersPawn.tsx:61-77 | with the pawn's own rule sets, under the modelled rule definitions, the "could not find target" error never occurs |
| CheckersPawn.PawnMovesLandOnEmptySquares | src/app/checkers/board/piece/checkersPawn.tsx:28-33 | every movement and capture lands on a square that was empty and is not the origin; a capture jumps two steps over the opponent on the midpoint |
| CheckersPawn.PawnCancelIsLastEntry | src/app/checkers/board/piece/checkersPawn.tsx:86 | the own square is never selected, so the cancel is a new key and the map's last entry, and the map is never empty |
| CheckersPawn.PawnBoxedInHasOnlyCancel | src/app/checkers/board/piece/checkersPawn.tsx:54-87 | when no square is selected, the map holds exactly the cancel move |
| CheckersPawn.PawnJumpsOverOwnPawnAsMovement | src/app/checkers/board/piece/checkersPawn.tsx:29 | two steps over a pawn of the same owner onto an empty square is recorded as a plain movement |
| CheckersPawn.Pawn.constructor | src/app/checkers/board/piece/checkersPawn.tsx:25-34 | the rule sets are wired as the movement and capture sets above (`Wired`); the move map starting empty is an assumption about `Piece` |
| CheckersPawn.Pawn.WiredNeverThrows | src/app/checkers/board/piece/checkersPawn.tsx:75-77 | under the modelled rule definitions, a pawn with the constructor's rule sets never throws, on any board and from any square |
| CheckersPawn.Pawn.Visit | src/app/checkers/board/piece/checkersPawn.tsx:56-84 | the `foreachSquare` callback updates the map by exactly one `Advance` step of the calculation's visit |
| CheckersPawn.Pawn.CalcAvailableMoves | src/app/checkers/board/piece/checkersPawn.tsx:54-87 | the new map is the specified result for the current board and square, independent of the old map; it throws iff the specified walk throws; on success the own square holds the cancel; only `availableMoves` changes |
| Cpu.ComputedAt | src/app/checkers/cpu.tsx:19 | entry `j` of the per-pawn lists is pawn `j`'s own calculation, in the situation where the loop found it |
| Cpu.WiredPawnsNeverThrow | src/app/checkers/cpu.tsx:19 | when every pawn was built by the constructor, no calculation of the loop throws, so a turn never fails with `MoveCalculation` |
| Cpu.Contend | src/app/checkers/cpu.tsx:20-26 | the comparison always leaves a choice, either the contender or the old choice; between two different pawns the kept one is at least as big as both |
| Cpu.ContendersStep | src/app/checkers/cpu.tsx:18-27 | a playable pawn enters the running maximum through one comparison; any other pawn leaves it unchanged |
| Cpu.ChoiceIsNeverDropped | src/app/checkers/cpu.tsx:17-34 | the running maximum is unset iff it started unset and no pawn was compared: a choice is never dropped, so only a turn that starts with no choice and finds no playable pawn throws `GameRuleError` |
| Cpu.RunningMaxIsAContender | src/app/checkers/cpu.tsx:17-30 | the running maximum is the starting choice or one of the compared pawns with its size |
| Cpu.ExtendFirstMaximum | src/app/checkers/cpu.tsx:23 | a later pawn takes over only when it is strictly bigger |
| Cpu.FreshChoiceIsFirstMaximum | src/app/checkers/cpu.tsx:17-30 | starting unset, the loop ends unset iff no pawn is playable; otherwise it ends with a playable pawn that has at least as many moves as every playable pawn and strictly more than every earlier one (ties keep the earlier pawn) |
| Cpu.StaleChoiceSurvives | src/app/checkers/cpu.tsx:10-24 | a choice left from an earlier turn stays chosen unless a playable pawn is strictly bigger, when that pawn is not among this turn's playable pawns (for example, it has been captured) |
| Cpu.Cpu.constructor | src/app/checkers/cpu.tsx:12-14 | a new player has no chosen pawn |
| Cpu.Cpu.ConsiderPawn | src/app/checkers/cpu.tsx:19-27 | recomputes the pawn's moves; if that throws, the error propagates and the choice is left as it was; otherwise the choice becomes `Contend(old choice, pawn)` |
| Cpu.Cpu.ConsiderPawnAt | src/app/checkers/cpu.tsx:19-27 | the same, with the recomputed map named as the loop's entry for that pawn |
| Cpu.Cpu.SkipUnplayable | src/app/checkers/cpu.tsx:18 | a pawn the player may not play changes nothing, and the loop moves on |
| Cpu.Cpu.ConsiderPlayable | src/app/checkers/cpu.tsx:18-28 | a playable pawn advances the loop state by one comparison, or the turn fails with its calculation's error |
| Cpu.Cpu.ConsiderAt | src/app/checkers/cpu.tsx:17-29 | the whole `foreachPawn` callback: skip or consider, failing only for a playable pawn whose calculation throws |
| Cpu.Cpu.ConsiderAll | src/app/checkers/cpu.tsx:17-30 | the loop stops at the first playable pawn whose calculation throws; otherwise every playable pawn is recomputed and the choice is the running maximum |
| Cpu.Cpu.ChoosePawnWithMostMoves | src/app/checkers/cpu.tsx:17-30 | fails iff some playable pawn's calculation throws; otherwise every playable pawn's map is its calculation at the start of the turn, non-playable pawns are untouched, and the choice is the running maximum from the old choice |
| Cpu.Cpu.TakeTurn | src/app/checkers/cpu.tsx:16-47 | a calculation error ends the turn before anything is lifted; no chosen pawn gives `GameRuleError` with nothing lifted; otherwise the chosen pawn is lifted, then placed on the square of the entry at an index below the map's size, then the turn ends |

## Left out

- Rendering and audio are foreign calls with no bearing on moves. This covers `createMesh`, `getMaterialGroup`, `getPickupSound`, the height and scale constants, and the unused `State` enum.
- The bodies of these are not part of this model:
  - the square-selection rule classes and `SquareSelectionRuleSet`;
  - `checkSquaresBetweenSquaresOnDiagonals`;
  - `Piece` (`lift`, `place`, `canBePlayedBy`) and `Board`.

  The rules are plain definitions that follow their names, with ownership compared by name. Under this reading, the rule at checkersPawn.tsx:29 grants a two-step move over a pawn of the same owner (`PawnJumpsOverOwnPawnAsMovement`). A reading in which that rule never grants a move is not modelled.
- `availableMoves` is declared and initialised in `Piece`, which is not part of this model. The constructor's empty move map is an assumption.
- The `Pawn` class that `cpu.tsx` imports is not part of this model. The model assumes every pawn the player iterates over is a `CheckersPawn`, so `takeTurn` runs the calculation modelled here.
- Each map entry's `instance: undefined` field is a rendering slot. The model keeps only its `move`.
- `canBePlayedBy(player)` is modelled as the set `playable` of pawns it accepts.
- `board.foreachPawn` is modelled as the sequence `pawns`. `FreshChoiceIsFirstMaximum` requires that no pawn is listed twice.
- `lift`, `place` and `onEndTurn` are recorded, in order, as `TurnStep`s. Their effects on the pawn and the board are not modelled.
- The `setTimeout` delays are modelled only as the order of the steps.
- `Math.floor(Math.random() * size)` is modelled as an arbitrary index below the size.
- The `coordinate.toString()` map keys are modelled as the coordinates themselves, assuming the string form is injective.
- Cpu.Cpu.TakeTurn: on an empty move map, the source's `Array.from(map)[0][1]` throws a `TypeError`. That case is modelled as the error `NoMoveToPick` after the lift.
- Cpu.Cpu.TakeTurn: when a calculation throws, the maps already recomputed and the partly updated choice stay as the source leaves them. The contract does not describe them beyond keeping the chosen pawn's map well-formed.
