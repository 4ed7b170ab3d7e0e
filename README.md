# Squares game: rules engine and console turn loop

A model of the two core parts of the squares game. Players put tokens of colour `w` or `b` on
an N x N board. The first player whose four tokens form a square in any orientation wins.

- **The rules engine** (`SquaresEngine`) is modelled in three parts.
  - Parsing. `parseBoard` reads a board record `(size, data, nextPlayerColor)`. It drops line breaks, checks the length, and fills an N x N grid in which `.` reads as a blank.
  - Judging. `evaluateBoardInternal` finds the colours and checks each one for a square. It uses the exact six-distance test `isSquare` inside the four nested loops of `hasAnySquare`. The result is won, draw or in progress.
  - The computer's move. `computeNextMove` picks the first free cell in row-major order.
- **The console front end** (`App`) is a class with the fields of the Java object:
  - `boardSize`;
  - a `board` array changed in place;
  - `players`;
  - `currentPlayerIndex`;
  - `gameStarted` and `gameFinished`.

  Its methods check GAME and MOVE commands, place the user's token, judge the board through the engine and let the engine play the computer's turns.

Modules, one per concern:
- `Wrappers`: Option and Result.
- `JavaText`: `Character.toLowerCase`, `String.toLowerCase` and `String.trim` on ASCII.
- `Sorting`: `Collections.sort` as an insertion sort, proved to be the one sorted permutation.
- `Geometry`: `isSquare` and `hasAnySquare`.
- `SquaresEngine`: the rest of the engine.
- `Cli`: the `App` class.

The engine's grid is a value (`seq<seq<char>>`), because `parseBoard` builds a fresh array on every call and nothing else holds it. The application's board is an `array2<char>` written in place. A ghost field `Cells` mirrors it row by row.

The turn logic of `App` is specified by functions on a `Game` value, a snapshot of the fields:
- `Place` writes the mover's colour.
- `AfterPlacement` applies the win check, then the draw check, then passes the turn.
- `Pump` plays the computer's turns.
- `UserMove`, `MoveCommand` and `GameCommand` are the commands.

Each method of `App` ensures that its new snapshot is the matching function of the old one. The lemmas next to those functions prove what the game promises.

Where the code and the design description of the game differ, the model follows the code:
- `parseBoard` accepts every character, not only blanks and the two colours. It does not lower-case the cells, so `W` and `w` are different colours to the engine (`SquaresEngine.ParseCells`).
- When several colours have a square, the winner is the first one the `HashSet` of colours yields, not a fixed colour order. The model lets it be any colour with a square (`SquaresEngine.StatusAllowed`).
- When the engine returns no move during the computer's turns, `App` ends the game instead of failing. `Cli.PumpEndsOnlyByRules` shows this never happens in a game played from a new board.
- A board of size 3 is accepted. Only sizes up to 2 are refused.
- A refused GAME command leaves the previous game as it was (`Cli.GameCommandOutcome`).

## Model

| member | source | states |
|---|---|---|
| JavaText.LowerString | cli/src/main/java/org/squares/cli/App.java:87 | lower-casing keeps the length and lower-cases each character |
| JavaText.TrimHead | engine/src/main/java/org/squares/engine/SquaresEngine.java:116 | the first character of `trim(s)` is the first character of `s` above a blank |
| Sorting.Sort | engine/src/main/java/org/squares/engine/SquaresEngine.java:102 | the sort of the distance list keeps its length |
| Sorting.SortCorrect | engine/src/main/java/org/squares/engine/SquaresEngine.java:102 | the sorted distances are in ascending order and are a permutation of the input |
| Sorting.SortedUnique | engine/src/main/java/org/squares/engine/SquaresEngine.java:102 | two sorted sequences with the same elements are equal, so the sort algorithm does not matter |
| Sorting.SortIsSortedPermutation | engine/src/main/java/org/squares/engine/SquaresEngine.java:102 | any sorted permutation of the input is exactly what the sort returns |
| Geometry.IsSquareIffSidesAndDiagonals | engine/src/main/java/org/squares/engine/SquaresEngine.java:93-108 | the sorted test passes exactly when the six distances are four equal positive sides and two equal diagonals at least as long |
| Geometry.IsSquareSymmetric | engine/src/main/java/org/squares/engine/SquaresEngine.java:93-108 | swapping neighbouring arguments never changes the answer, so every order of the four points gives the same answer |
| Geometry.IsSquareDistinct | engine/src/main/java/org/squares/engine/SquaresEngine.java:103 | the positive smallest distance makes the four corners four different points |
| Geometry.EverySquareIsDetected | engine/src/main/java/org/squares/engine/SquaresEngine.java:93-108 | every square with integer corners, axis-aligned or tilted, passes the test |
| Geometry.IsSquare | engine/src/main/java/org/squares/engine/SquaresEngine.java:93-108 | the six squared distances of the pairs i < j, sorted, are four equal positive values followed by two equal values |
| Geometry.NoLatticeEquilateral | engine/src/main/java/org/squares/engine/SquaresEngine.java:93-108 | no three points with integer coordinates form an equilateral triangle, so four equal distances never share a triangle |
| Geometry.SquarePairing | engine/src/main/java/org/squares/engine/SquaresEngine.java:93-108 | points that pass the test, taken round one of the three cyclic orders, have four equal positive sides and two equal positive diagonals |
| Geometry.RhombicIsSquareCorners | engine/src/main/java/org/squares/engine/SquaresEngine.java:93-108 | four equal sides and equal diagonals place the corners on a square: the second side is the first turned a quarter, and the fourth corner closes the parallelogram |
| Geometry.SquareCornersPass | engine/src/main/java/org/squares/engine/SquaresEngine.java:93-108 | the corners of a square in either orientation, in cyclic order, pass the test |
| Geometry.IsSquareIffSquareCorners | engine/src/main/java/org/squares/engine/SquaresEngine.java:93-108 | four points pass the test exactly when, in one of the three cyclic orders, they are the corners of a square |
| Geometry.RhombusIsNotSquare | engine/src/main/java/org/squares/engine/SquaresEngine.java:103-107 | any four points with four equal positive sides and unequal diagonals fail the test |
| Geometry.HasSquareInAnyOrder | engine/src/main/java/org/squares/engine/SquaresEngine.java:82-91 | four different pieces that form a square in any order are found by the search over i < j < k < l |
| Geometry.HasAnySquare | engine/src/main/java/org/squares/engine/SquaresEngine.java:82-91 | true exactly when some indices i < j < k < l pass the test; false for fewer than four pieces |
| SquaresEngine.IsEmpty | engine/src/main/java/org/squares/engine/SquaresEngine.java:110-112 | a blank, a dot or a NUL character is a free cell, and every other character is taken |
| SquaresEngine.StripLineBreaks | engine/src/main/java/org/squares/engine/SquaresEngine.java:125-130 | the filtered data holds no line break and is no longer than the input |
| SquaresEngine.StripLineBreaksKeepsOthers | engine/src/main/java/org/squares/engine/SquaresEngine.java:125-130 | every character other than a line break keeps its number of occurrences |
| SquaresEngine.Parse | engine/src/main/java/org/squares/engine/SquaresEngine.java:119-143 | a parsed board is a size x size grid |
| SquaresEngine.ParseOutcome | engine/src/main/java/org/squares/engine/SquaresEngine.java:121-132 | size at most 2 fails first, missing data second, and otherwise parsing succeeds exactly when size * size characters remain, failing with both lengths |
| SquaresEngine.ParseCells | engine/src/main/java/org/squares/engine/SquaresEngine.java:133-141 | cell (x, y) is the filtered character at y * size + x, with a dot read as a blank and nothing else changed or refused |
| SquaresEngine.ParseIsCanonical | engine/src/main/java/org/squares/engine/SquaresEngine.java:137-138 | no parsed cell holds a dot or a line break |
| SquaresEngine.ParseBoard | engine/src/main/java/org/squares/engine/SquaresEngine.java:119-143 | the filter loop and the fill loops compute exactly Parse |
| SquaresEngine.FillBoard | engine/src/main/java/org/squares/engine/SquaresEngine.java:133-141 | the nested loops with the running index build the grid of the filtered data |
| SquaresEngine.FlattenCell | cli/src/main/java/org/squares/cli/App.java:162-168 | the flattened board holds cell (x, y) at index y * n + x |
| SquaresEngine.FlattenAfterParse | engine/src/main/java/org/squares/engine/SquaresEngine.java:125-141 | flattening a parsed board gives the filtered data with dots turned into blanks |
| SquaresEngine.ParseAfterFlatten | engine/src/main/java/org/squares/engine/SquaresEngine.java:119-143 | parsing a flattened board without dots or line breaks gives the same board back |
| SquaresEngine.Int32 | engine/src/main/java/org/squares/engine/SquaresEngine.java:131 | an int product is the exact product wrapped into 32 bits, and equals it when it fits |
| SquaresEngine.LengthCheckExactUpTo46340 | engine/src/main/java/org/squares/engine/SquaresEngine.java:131 | up to size 46340 the length test as written is the exact test |
| SquaresEngine.LengthCheckOverflows | engine/src/main/java/org/squares/engine/SquaresEngine.java:131-132 | at size 65536 empty data passes the test as written, while Parse refuses it |
| SquaresEngine.Pieces | engine/src/main/java/org/squares/engine/SquaresEngine.java:64-68 | a point is in the piece list of c exactly when that cell holds c |
| SquaresEngine.CollectPieces | engine/src/main/java/org/squares/engine/SquaresEngine.java:65-68 | the row-by-row loops build exactly the piece list of the colour |
| SquaresEngine.WinsWithIffOwnsSquare | engine/src/main/java/org/squares/engine/SquaresEngine.java:64-74 | a colour wins exactly when four of its cells, taken in any order, form a square |
| SquaresEngine.WinnerOccurs | engine/src/main/java/org/squares/engine/SquaresEngine.java:55-62 | a winning colour occurs on the board, so the colours the first loop collects are enough |
| SquaresEngine.NoWinnerAmong | engine/src/main/java/org/squares/engine/SquaresEngine.java:64-75 | when every colour on the board has been tried without a square, nobody wins |
| SquaresEngine.StatusAllowedCode | engine/src/main/java/org/squares/engine/SquaresEngine.java:52-80 | every allowed judgement has the same code: 1 exactly when some colour has a square, then 2 exactly when no cell is free, else 0 |
| SquaresEngine.EvaluateBoardInternal | engine/src/main/java/org/squares/engine/SquaresEngine.java:52-80 | won only with a colour that has a square; otherwise draw when no cell is free and in progress when one is |
| SquaresEngine.EvaluateBoard | engine/src/main/java/org/squares/engine/SquaresEngine.java:40-48 | status -1 exactly when parsing fails, with its reason; otherwise an allowed judgement of the parsed grid |
| SquaresEngine.NormalizeColorChar | engine/src/main/java/org/squares/engine/SquaresEngine.java:114-117 | the colour is the first character above a blank, lower-cased |
| SquaresEngine.FirstEmptyInRow | engine/src/main/java/org/squares/engine/SquaresEngine.java:31-35 | the first free cell of the row from x on, with every cell before it taken, or none when all are taken |
| SquaresEngine.FirstEmptyFrom | engine/src/main/java/org/squares/engine/SquaresEngine.java:30-36 | the first free cell in row-major order, with every earlier cell taken, or none when the board is full |
| SquaresEngine.ScanFirstEmpty | engine/src/main/java/org/squares/engine/SquaresEngine.java:30-37 | the nested loops with early return find exactly the first free cell in row-major order |
| SquaresEngine.NextMoveExistsIff | engine/src/main/java/org/squares/engine/SquaresEngine.java:16-38 | `NextMove`, the specification of computeNextMove, gives a move exactly when the board parses, nobody has a square and some cell is free |
| SquaresEngine.NextMoveIsFirstFree | engine/src/main/java/org/squares/engine/SquaresEngine.java:27-34 | the move is on the board, on a free cell, every earlier cell is taken, and its colour is the lower-cased first visible character |
| SquaresEngine.ComputeNextMove | engine/src/main/java/org/squares/engine/SquaresEngine.java:16-38 | the parse, judge and scan steps with early returns compute exactly the specified move |
| Cli.ParsePlayerParam | cli/src/main/java/org/squares/cli/App.java:84-92 | an accepted player always has colour w or b |
| Cli.ParsePlayerParamAccepts | cli/src/main/java/org/squares/cli/App.java:84-92 | accepted exactly for two tokens, a known type after lower-casing and a colour letter w or b, with that kind and colour |
| Cli.ParsePlayerParamIgnoresCase | cli/src/main/java/org/squares/cli/App.java:87-88 | lower-casing both tokens first changes nothing |
| Cli.ValidateGame | cli/src/main/java/org/squares/cli/App.java:69-76 | the checks of a GAME command, in order: fewer than three parts, a size that is not a number, a size up to 2, a bad player, then equal colours; otherwise the size and both players |
| Cli.ValidatedGameHasOneOfEach | cli/src/main/java/org/squares/cli/App.java:69-76 | an accepted GAME command has size above 2 and one white and one black player |
| Cli.GameCommandOutcome | cli/src/main/java/org/squares/cli/App.java:65-82 | `GameCommand` (the checks of `ValidateGame`, then `NewGame` and the computer's turns): a refused GAME command changes nothing; an accepted one gives a well-formed game with no square and a free cell, unless it is finished |
| Cli.NewGameIsLive | cli/src/main/java/org/squares/cli/App.java:94-101 | `NewGame`, the state `startNewGame` sets, for two players with different colours is blank, well-formed, has no square and has a free cell |
| Cli.Place | cli/src/main/java/org/squares/cli/App.java:130-131 | the mover's colour is written into the cell at row y, column x and nothing else changes |
| Cli.AfterPlacement | cli/src/main/java/org/squares/cli/App.java:134-136 | the win check ends the game, then the draw check ends it, and otherwise the turn passes to the other player |
| Cli.PlaceFillsBlank | cli/src/main/java/org/squares/cli/App.java:130-131 | a placement writes the mover's colour into that one blank cell only, keeps the game well-formed and leaves one blank fewer |
| Cli.AfterPlacementTurn | cli/src/main/java/org/squares/cli/App.java:134-136 | the game ends exactly on a square or a full board; only a game that goes on passes the turn to (i + 1) % 2 |
| Cli.OnlyMoverCanWin | cli/src/main/java/org/squares/cli/App.java:134 | on a board without a square, a placement can only give the mover a square |
| Cli.EngineReadsBoard | cli/src/main/java/org/squares/cli/App.java:162-168 | the engine parses the board record of the game back to the game's own board |
| Cli.EmptyIsBlank | cli/src/main/java/org/squares/cli/App.java:176-179 | on the game's boards, free for the engine means blank, and the board has a free cell exactly when it is not full |
| Cli.Pump | cli/src/main/java/org/squares/cli/App.java:144-160 | the computer's turns end with the game finished or a user to move, and keep the game well-formed |
| Cli.PumpStep | cli/src/main/java/org/squares/cli/App.java:145-158 | one computer turn: no move ends the game; a move falls on a blank cell and the turns go on from the judged placement |
| Cli.EngineMovesOnLiveBoard | cli/src/main/java/org/squares/cli/App.java:147-152 | in a running game without a square and with a free cell, the engine always returns a move |
| Cli.PumpEndsOnlyByRules | cli/src/main/java/org/squares/cli/App.java:144-160 | the computer's turns keep the game free of a square while it runs, and end it only by a square or a full board |
| Cli.UserMove | cli/src/main/java/org/squares/cli/App.java:126-138 | a user move keeps the game well-formed |
| Cli.UserMoveKeepsSettled | cli/src/main/java/org/squares/cli/App.java:126-138 | a user move keeps a running game free of a square with a free cell, and a rejected one changes nothing |
| Cli.MoveCommandOutcome | cli/src/main/java/org/squares/cli/App.java:110-124 | `MoveCommand` (the started, finished and format checks of handleMove, then `UserMove` with the refusal `MoveRejection`) keeps a started game well-formed and settled, and a refused one, for whatever reason, changes nothing |
| Cli.App.constructor | cli/src/main/java/org/squares/cli/App.java:15-20 | before the first game there is no game started and none finished |
| Cli.App.HandleGame | cli/src/main/java/org/squares/cli/App.java:65-82 | the new state and the refusal are those of GameCommand; a refused command keeps the board |
| Cli.App.StartNewGame | cli/src/main/java/org/squares/cli/App.java:94-108 | a fresh blank board, player 0 to move, game started and not finished, then the computer's turns |
| Cli.App.BlankArray | cli/src/main/java/org/squares/cli/App.java:100-101 | a fresh n x n array with every cell blank |
| Cli.App.HandleMove | cli/src/main/java/org/squares/cli/App.java:110-124 | the new state and the refusal are those of MoveCommand |
| Cli.App.MakeUserMove | cli/src/main/java/org/squares/cli/App.java:126-138 | the new state is UserMove of the old one, and the refusal is MoveRejection |
| Cli.App.PlaceCurrent | cli/src/main/java/org/squares/cli/App.java:130-131 | the write into the array is Place on the snapshot and leaves one blank fewer |
| Cli.App.IsValidUserCoords | cli/src/main/java/org/squares/cli/App.java:140-142 | one-based coordinates on the board, at a blank cell |
| Cli.App.DoComputerTurnIfNeeded | cli/src/main/java/org/squares/cli/App.java:144-160 | the loop leaves the state Pump of the old one; it ends because every pass fills a blank or finishes the game |
| Cli.App.PlayComputerTurn | cli/src/main/java/org/squares/cli/App.java:146-158 | one pass keeps the result of the computer's turns the same and either ends the game or fills a blank |
| Cli.App.Judge | cli/src/main/java/org/squares/cli/App.java:156-158 | the win check, then the draw check, then the turn passes: AfterPlacement of the state |
| Cli.App.BuildBoardDtoForEngine | cli/src/main/java/org/squares/cli/App.java:162-168 | the record holds the size, the board flattened row by row and the colour |
| Cli.App.CheckWin | cli/src/main/java/org/squares/cli/App.java:170-174 | true exactly when some colour has a square on the board |
| Cli.App.BoardFull | cli/src/main/java/org/squares/cli/App.java:176-179 | true exactly when no cell is blank |

## Left out

- Console input and output are not modelled: the `run` loop, `showHelp`, `printBoard` and every printed message. For this reason the win check coming before the draw check only shows in which message is printed. Both end the game.
- Command text is not parsed in the model. `String.split`, `trim`, `substring` and `Integer.parseInt` are taken as already done. The commands receive the number of comma parts, the parsed numbers (None when a number does not parse) and the tokens of each player parameter.
- The engine's messages are left out. So is the message field of `GameStatusDto`; its colour is the `Won` case.
- A null board record is not modelled. The application never passes one.
- `Character.toLowerCase` and `String.toLowerCase` are modelled on ASCII letters only.
- Java strings are sequences of UTF-16 code units, and the model's strings are sequences of Unicode scalar values. The two agree on every board made of characters below U+10000. A character above it is one cell here but two code units in Java. For example, size 3 with eight ASCII characters and one emoji has length 10 for `parseBoard` and length 9 here. So the length check and the cell layout of `SquaresEngine.Parse` differ for such data. A lone surrogate cannot be written in the model.
- The iteration order of the `HashSet` of colours is not modelled. Any colour that has a square may be reported.
- The `long` arithmetic of `isSquare` is modelled with unbounded integers. It cannot overflow for board coordinates, which lie between 0 and size - 1.
- SquaresEngine.ComputeNextMove: the exception `normalizeColorChar` throws for a missing, empty or blank colour is a precondition, not an outcome. The application always passes `w` or `b`.
- Running out of memory is not modelled. This covers the `new char[size][size]` that a huge size would ask for.
- The `Player[]` array is modelled as a sequence, because it is never written after a game starts.
- The board before the first game is a 0 x 0 array rather than null.
- The server, the HTTP handlers and the browser page are not part of this model. They only forward requests to the engine.

## Findings

| source | as written | input that shows it | evidently intended | confidence | as-written member | corrected member |
|---|---|---|---|---|---|---|
| engine/src/main/java/org/squares/engine/SquaresEngine.java:131 | the length test compares with `size * size` computed in 32-bit int, which wraps for size 46341 and up | size 65536 with empty data: the product wraps to 0, so the test passes and the fill loops then fail outside the checks | refuse with a length mismatch unless exactly size * size characters remain | not executed | SquaresEngine.LengthCheckOverflows | SquaresEngine.ParseOutcome |
