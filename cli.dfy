/** The console front end of the squares game (App): it checks GAME and MOVE commands, keeps the
    board and the turn, and lets the engine play the computer's turns. */
module Cli {
  import opened Wrappers
  import opened JavaText
  import opened Geometry
  import opened SquaresEngine

  /** The player type, "user" or "comp" after lower-casing. */
  datatype Kind = User | Comp

  datatype Player = Player(kind: Kind, color: char)

  /** Why parsePlayerParam throws. */
  datatype PlayerError = WrongTokenCount | MissingColor | UnknownType | UnknownColor

  /** Why handleGame starts no game (each case prints a message and returns). */
  datatype GameError = TooFewParts | SizeNotANumber | BoardTooSmall | BadPlayer(error: PlayerError) | SameColors

  /** Why handleMove or makeUserMove places nothing. */
  datatype MoveError = NotStarted | AlreadyFinished | TooFewCoordinates | CoordinateNotANumber | NotUsersTurn | InvalidMove

  predicate IsColor(c: char)
  {
    c == 'w' || c == 'b'
  }

  // ---------- command validation ----------

  /** parsePlayerParam on the whitespace-separated tokens of one player parameter. */
  function ParsePlayerParam(tokens: seq<string>): (r: Result<Player, PlayerError>)
    ensures r.Ok? ==> IsColor(r.value.color)
  {
    if |tokens| != 2 then Err(WrongTokenCount)
    else if |tokens[1]| == 0 then Err(MissingColor)
    else
      var kind := LowerString(tokens[0]);
      var color := ToLower(tokens[1][0]);
      if kind != "user" && kind != "comp" then Err(UnknownType)
      else if !IsColor(color) then Err(UnknownColor)
      else Ok(Player(if kind == "user" then User else Comp, color))
  }

  lemma ToLowerIdempotent(c: char)
    ensures ToLower(ToLower(c)) == ToLower(c)
  {
  }

  lemma LowerStringIdempotent(s: string)
    ensures LowerString(LowerString(s)) == LowerString(s)
  {
    forall i | 0 <= i < |s| ensures LowerString(LowerString(s))[i] == LowerString(s)[i] {
      ToLowerIdempotent(s[i]);
    }
  }

  /** Type and colour are read without regard to case: lower-casing both tokens first changes
      nothing. */
  lemma ParsePlayerParamIgnoresCase(kind: string, color: string)
    ensures ParsePlayerParam([LowerString(kind), LowerString(color)]) == ParsePlayerParam([kind, color])
  {
    LowerStringIdempotent(kind);
    if |color| > 0 {
      ToLowerIdempotent(color[0]);
    }
  }

  /** The accepted parameters are exactly a known type and a colour starting with w or b. */
  lemma ParsePlayerParamAccepts(tokens: seq<string>)
    ensures ParsePlayerParam(tokens).Ok? <==>
              |tokens| == 2 && |tokens[1]| > 0 &&
              (LowerString(tokens[0]) == "user" || LowerString(tokens[0]) == "comp") &&
              IsColor(ToLower(tokens[1][0]))
    ensures ParsePlayerParam(tokens).Ok? ==>
              ParsePlayerParam(tokens).value.color == ToLower(tokens[1][0]) &&
              (ParsePlayerParam(tokens).value.kind == User <==> LowerString(tokens[0]) == "user")
  {
  }

  /** handleGame's checks, in order: at least three comma parts, a number, a size above 2, two
      valid players, and two different colours. */
  function ValidateGame(partCount: int, size: Option<int>, tokens1: seq<string>, tokens2: seq<string>): Result<(int, Player, Player), GameError>
  {
    if partCount < 3 then Err(TooFewParts)
    else if size.None? then Err(SizeNotANumber)
    else if size.value <= 2 then Err(BoardTooSmall)
    else match ParsePlayerParam(tokens1)
      case Err(e) => Err(BadPlayer(e))
      case Ok(p1) =>
        match ParsePlayerParam(tokens2)
        case Err(e) => Err(BadPlayer(e))
        case Ok(p2) => if p1.color == p2.color then Err(SameColors) else Ok((size.value, p1, p2))
  }

  /** A started game has a board of at least 3 x 3 and one white and one black player. */
  lemma ValidatedGameHasOneOfEach(partCount: int, size: Option<int>, tokens1: seq<string>, tokens2: seq<string>)
    requires ValidateGame(partCount, size, tokens1, tokens2).Ok?
    ensures var (n, p1, p2) := ValidateGame(partCount, size, tokens1, tokens2).value;
      n > 2 && {p1.color, p2.color} == {'w', 'b'}
  {
  }

  // ---------- the game as a value ----------

  /** The fields of App: boardSize, board, players, currentPlayerIndex, gameStarted and
      gameFinished. */
  datatype Game = Game(size: int, cells: Grid, players: seq<Player>, turn: int, started: bool, finished: bool)

  /** A started game: a square board of blanks and the players' colours, two players with the
      colours w and b, one each, and a valid turn index. */
  predicate Wellformed(g: Game)
  {
    g.size > 2 && IsGrid(g.cells, g.size) && |g.players| == 2 && 0 <= g.turn < 2 &&
    IsColor(g.players[0].color) && IsColor(g.players[1].color) && g.players[0].color != g.players[1].color &&
    forall y, x :: 0 <= y < g.size && 0 <= x < g.size ==> g.cells[y][x] == ' ' || IsColor(g.cells[y][x])
  }

  /** No cell is blank (boardFull). */
  predicate Full(cells: Grid)
  {
    forall y, x :: 0 <= y < |cells| && 0 <= x < |cells[y]| ==> cells[y][x] != ' '
  }

  /** A running game has no square yet and a free cell. */
  ghost predicate Settled(g: Game)
  {
    g.finished || (!SomeColorWins(g.cells) && HasEmptyCell(g.cells))
  }

  function BlankBoard(n: nat): (cells: Grid)
    ensures IsGrid(cells, n)
  {
    seq(n, y => seq(n, x => ' '))
  }

  /** The state startNewGame sets up before any computer turn. */
  function NewGame(n: int, p1: Player, p2: Player): Game
    requires n > 2
  {
    Game(n, BlankBoard(n), [p1, p2], 0, true, false)
  }

  /** The board record handed to the engine: the flattened board and the colour to move. */
  function DtoOf(g: Game, color: char): BoardDto
  {
    BoardDto(g.size, Some(Flatten(g.cells)), Some([color]))
  }

  /** The current player's colour written into cell (x, y), zero-based. */
  function Place(g: Game, y: int, x: int): Game
    requires Wellformed(g) && 0 <= y < g.size && 0 <= x < g.size
  {
    g.(cells := g.cells[y := g.cells[y][x := g.players[g.turn].color]])
  }

  /** What follows a placement: the win check comes first, then the draw check; only a game
      that goes on passes the turn to the other player. */
  ghost function AfterPlacement(g: Game): Game
  {
    if SomeColorWins(g.cells) then g.(finished := true)
    else if Full(g.cells) then g.(finished := true)
    else g.(turn := (g.turn + 1) % 2)
  }

  /** A placement that goes on passes the turn; one that ends the game keeps it. */
  lemma AfterPlacementTurn(g: Game)
    ensures AfterPlacement(g).finished <==> g.finished || SomeColorWins(g.cells) || Full(g.cells)
    ensures AfterPlacement(g).cells == g.cells
    ensures !SomeColorWins(g.cells) && !Full(g.cells) ==> AfterPlacement(g).turn == (g.turn + 1) % 2
    ensures SomeColorWins(g.cells) || Full(g.cells) ==> AfterPlacement(g).turn == g.turn
  {
  }

  // ---------- counting free cells (the termination measure) ----------

  function RowBlanks(row: seq<char>): nat
  {
    if row == [] then 0 else RowBlanks(row[..|row| - 1]) + (if row[|row| - 1] == ' ' then 1 else 0)
  }

  function Blanks(cells: Grid): nat
  {
    if cells == [] then 0 else Blanks(cells[..|cells| - 1]) + RowBlanks(cells[|cells| - 1])
  }

  lemma {:induction false} RowBlanksFill(row: seq<char>, x: int, c: char)
    requires 0 <= x < |row| && row[x] == ' ' && c != ' '
    ensures RowBlanks(row[x := c]) == RowBlanks(row) - 1
    decreases |row|
  {
    var last := |row| - 1;
    if x < last {
      assert row[x := c][..last] == row[..last][x := c];
      RowBlanksFill(row[..last], x, c);
    } else {
      assert row[x := c][..last] == row[..last];
    }
  }

  /** Filling a blank cell lowers the number of blank cells by one. */
  lemma {:induction false} BlanksFill(cells: Grid, y: int, x: int, c: char)
    requires 0 <= y < |cells| && 0 <= x < |cells[y]| && cells[y][x] == ' ' && c != ' '
    ensures Blanks(cells[y := cells[y][x := c]]) == Blanks(cells) - 1
    decreases |cells|
  {
    var last := |cells| - 1;
    if y < last {
      assert cells[y := cells[y][x := c]][..last] == cells[..last][y := cells[..last][y][x := c]];
      BlanksFill(cells[..last], y, x, c);
    } else {
      assert cells[y := cells[y][x := c]][..last] == cells[..last];
      RowBlanksFill(cells[y], x, c);
    }
  }

  /** A placement on a free cell of a well-formed game writes that one cell, with the mover's
      colour, keeps the game well-formed and leaves one blank cell fewer. */
  lemma PlaceFillsBlank(g: Game, y: int, x: int)
    requires Wellformed(g) && 0 <= y < g.size && 0 <= x < g.size && IsEmpty(g.cells[y][x])
    ensures g.cells[y][x] == ' '
    ensures Wellformed(Place(g, y, x)) && Wellformed(AfterPlacement(Place(g, y, x)))
    ensures Blanks(Place(g, y, x).cells) == Blanks(g.cells) - 1
    ensures forall yy, xx :: 0 <= yy < g.size && 0 <= xx < g.size ==>
              Place(g, y, x).cells[yy][xx] == if yy == y && xx == x then g.players[g.turn].color else g.cells[yy][xx]
  {
    BlanksFill(g.cells, y, x, g.players[g.turn].color);
  }

  // ---------- the engine on the game's board ----------

  /** The engine reads back exactly the game's board, and the colour is always readable. */
  lemma EngineReadsBoard(g: Game, color: char)
    requires Wellformed(g) && IsColor(color)
    ensures Parse(DtoOf(g, color)) == Ok(g.cells)
    ensures ColorReadable(DtoOf(g, color))
  {
    assert CanonicalGrid(g.cells);
    ParseAfterFlatten(g.cells, g.size, Some([color]));
    assert [color][0] > ' ';
  }

  /** On the game's boards a cell is free for the engine exactly when it is blank. */
  lemma EmptyIsBlank(g: Game)
    requires Wellformed(g)
    ensures HasEmptyCell(g.cells) <==> !Full(g.cells)
    ensures forall y, x :: 0 <= y < g.size && 0 <= x < g.size ==> (IsEmpty(g.cells[y][x]) <==> g.cells[y][x] == ' ')
  {
  }

  /** The computer's turns (doComputerTurnIfNeeded): while the game runs and a computer is to
      move, the engine's move is placed and judged; no move from the engine ends the game. */
  ghost function Pump(g: Game): (r: Game)
    requires Wellformed(g)
    ensures Wellformed(r)
    ensures r.finished || r.players[r.turn].kind == User
    ensures r.size == g.size && r.players == g.players && r.started == g.started
    decreases Blanks(g.cells)
  {
    if g.finished || g.players[g.turn].kind == User then g
    else
      var color := g.players[g.turn].color;
      var dto := DtoOf(g, color);
      EngineReadsBoard(g, color);
      match NextMove(dto)
      case None => g.(finished := true)
      case Some(m) =>
        NextMoveIsFirstFree(dto);
        PlaceFillsBlank(g, m.y, m.x);
        Pump(AfterPlacement(Place(g, m.y, m.x)))
  }

  /** One computer turn of Pump: with no move the game ends, otherwise the move is on a blank
      cell and the turns go on from the judged placement. */
  lemma PumpStep(g: Game)
    requires Wellformed(g) && !g.finished && g.players[g.turn].kind == Comp
    ensures var dto := DtoOf(g, g.players[g.turn].color);
      ColorReadable(dto) &&
      (NextMove(dto).None? ==> Pump(g) == g.(finished := true)) &&
      (NextMove(dto).Some? ==>
        var m := NextMove(dto).value;
        0 <= m.y < g.size && 0 <= m.x < g.size && g.cells[m.y][m.x] == ' ' &&
        Wellformed(AfterPlacement(Place(g, m.y, m.x))) &&
        Pump(g) == Pump(AfterPlacement(Place(g, m.y, m.x))))
  {
    var dto := DtoOf(g, g.players[g.turn].color);
    EngineReadsBoard(g, g.players[g.turn].color);
    if NextMove(dto).Some? {
      var m := NextMove(dto).value;
      NextMoveIsFirstFree(dto);
      PlaceFillsBlank(g, m.y, m.x);
    }
  }

  /** In a running game with a free cell and no square the engine always has a move. */
  lemma EngineMovesOnLiveBoard(g: Game, color: char)
    requires Wellformed(g) && IsColor(color) && !g.finished && Settled(g)
    ensures ColorReadable(DtoOf(g, color)) && NextMove(DtoOf(g, color)).Some?
  {
    EngineReadsBoard(g, color);
    NextMoveExistsIff(DtoOf(g, color));
  }

  /** Computer turns keep a game settled, and a game they end has a square or a full board:
      the engine's null branch is never the reason. */
  lemma {:induction false} PumpEndsOnlyByRules(g: Game)
    requires Wellformed(g) && Settled(g)
    ensures Settled(Pump(g))
    ensures Pump(g).finished && !g.finished ==> SomeColorWins(Pump(g).cells) || Full(Pump(g).cells)
    decreases Blanks(g.cells)
  {
    if !g.finished && g.players[g.turn].kind == Comp {
      var color := g.players[g.turn].color;
      EngineMovesOnLiveBoard(g, color);
      PumpStep(g);
      var m := NextMove(DtoOf(g, color)).value;
      PlaceFillsBlank(g, m.y, m.x);
      var next := AfterPlacement(Place(g, m.y, m.x));
      EmptyIsBlank(next);
      PumpEndsOnlyByRules(next);
    }
  }

  /** A new game is running, blank everywhere, and settled. */
  lemma NewGameIsLive(n: int, p1: Player, p2: Player)
    requires n > 2 && IsColor(p1.color) && IsColor(p2.color) && p1.color != p2.color
    ensures Wellformed(NewGame(n, p1, p2)) && Settled(NewGame(n, p1, p2))
    ensures Blanks(NewGame(n, p1, p2).cells) > 0
  {
    var g := NewGame(n, p1, p2);
    assert IsEmpty(g.cells[0][0]);
    forall c ensures !WinsWith(g.cells, c) {
      WinnerOccurs(g.cells, c);
    }
    BlanksPositive(g.cells, 0, 0);
  }

  lemma {:induction false} BlanksPositive(cells: Grid, y: int, x: int)
    requires 0 <= y < |cells| && 0 <= x < |cells[y]| && cells[y][x] == ' '
    ensures Blanks(cells) > 0
    decreases |cells|
  {
    var last := |cells| - 1;
    if y < last {
      BlanksPositive(cells[..last], y, x);
    } else {
      RowBlanksFill(cells[y], x, 'w');
    }
  }

  /** Only the mover can win by a placement on a settled board: the other colour's cells did not
      change. */
  lemma OnlyMoverCanWin(g: Game, y: int, x: int)
    requires Wellformed(g) && !g.finished && Settled(g)
    requires 0 <= y < g.size && 0 <= x < g.size && g.cells[y][x] == ' '
    ensures forall c :: WinsWith(Place(g, y, x).cells, c) ==> c == g.players[g.turn].color
  {
    var mover := g.players[g.turn].color;
    var after := Place(g, y, x).cells;
    forall c | c != mover && !IsEmpty(c) ensures !WinsWith(after, c) {
      WinsWithIffOwnsSquare(after, c);
      WinsWithIffOwnsSquare(g.cells, c);
      SameCellsOtherThan(g, y, x, c);
    }
  }

  lemma SameCellsOtherThan(g: Game, y: int, x: int, c: char)
    requires Wellformed(g) && 0 <= y < g.size && 0 <= x < g.size && g.cells[y][x] == ' '
    requires c != g.players[g.turn].color && c != ' '
    ensures forall p :: CellIs(Place(g, y, x).cells, p, c) <==> CellIs(g.cells, p, c)
  {
  }

  // ---------- user moves ----------

  /** isValidUserCoords: one-based coordinates on the board, on a blank cell. */
  predicate ValidCoords(g: Game, x: int, y: int)
    requires IsGrid(g.cells, g.size)
  {
    1 <= x <= g.size && 1 <= y <= g.size && g.cells[y - 1][x - 1] == ' '
  }

  /** Why makeUserMove places nothing, if it does not. */
  function MoveRejection(g: Game, x: int, y: int): Option<MoveError>
    requires Wellformed(g)
  {
    if g.players[g.turn].kind != User then Some(NotUsersTurn)
    else if !ValidCoords(g, x, y) then Some(InvalidMove)
    else None
  }

  /** makeUserMove: the user's colour at (x - 1, y - 1), the judgement, then computer turns. */
  ghost function UserMove(g: Game, x: int, y: int): (r: Game)
    requires Wellformed(g)
    ensures Wellformed(r)
  {
    if MoveRejection(g, x, y).Some? then g
    else
      PlaceFillsBlank(g, y - 1, x - 1);
      Pump(AfterPlacement(Place(g, y - 1, x - 1)))
  }

  /** A user move keeps a running game settled, and a rejected one changes nothing. */
  lemma UserMoveKeepsSettled(g: Game, x: int, y: int)
    requires Wellformed(g) && Settled(g)
    ensures Settled(UserMove(g, x, y))
    ensures MoveRejection(g, x, y).Some? ==> UserMove(g, x, y) == g
  {
    if MoveRejection(g, x, y).None? {
      PlaceFillsBlank(g, y - 1, x - 1);
      var next := AfterPlacement(Place(g, y - 1, x - 1));
      EmptyIsBlank(next);
      PumpEndsOnlyByRules(next);
    }
  }

  /** handleMove: the checks before makeUserMove, in their order. */
  ghost function MoveCommand(g: Game, partCount: int, x: Option<int>, y: Option<int>): (Game, Option<MoveError>)
    requires g.started ==> Wellformed(g)
  {
    if !g.started then (g, Some(NotStarted))
    else if g.finished then (g, Some(AlreadyFinished))
    else if partCount < 2 then (g, Some(TooFewCoordinates))
    else if x.None? || y.None? then (g, Some(CoordinateNotANumber))
    else (UserMove(g, x.value, y.value), MoveRejection(g, x.value, y.value))
  }

  /** handleGame: a new game on success, otherwise the state as it was. */
  ghost function GameCommand(g: Game, partCount: int, size: Option<int>, tokens1: seq<string>, tokens2: seq<string>): (Game, Option<GameError>)
  {
    match ValidateGame(partCount, size, tokens1, tokens2)
    case Err(e) => (g, Some(e))
    case Ok((n, p1, p2)) => NewGameIsLive(n, p1, p2); (Pump(NewGame(n, p1, p2)), None)
  }

  /** A GAME command is either refused and leaves the game as it was, or starts a game that is
      well-formed and settled once the computer's opening turns are played. */
  lemma GameCommandOutcome(g: Game, partCount: int, size: Option<int>, tokens1: seq<string>, tokens2: seq<string>)
    ensures var (r, e) := GameCommand(g, partCount, size, tokens1, tokens2);
      (e.Some? ==> r == g) && (e.None? ==> r.started && Wellformed(r) && Settled(r))
  {
    match ValidateGame(partCount, size, tokens1, tokens2)
    case Err(_) =>
    case Ok((n, p1, p2)) =>
      NewGameIsLive(n, p1, p2);
      PumpEndsOnlyByRules(NewGame(n, p1, p2));
  }

  /** A MOVE command keeps a started game well-formed and settled; a refused one changes nothing. */
  lemma MoveCommandOutcome(g: Game, partCount: int, x: Option<int>, y: Option<int>)
    requires g.started ==> Wellformed(g) && Settled(g)
    ensures var (r, e) := MoveCommand(g, partCount, x, y);
      (r.started ==> Wellformed(r) && Settled(r)) && (e.Some? ==> r == g)
  {
    if g.started && !g.finished && partCount >= 2 && x.Some? && y.Some? {
      UserMoveKeepsSettled(g, x.value, y.value);
    }
  }

  // ---------- the App object ----------

  class App {
    var boardSize: int
    var board: array2<char>
    var players: seq<Player>
    var currentPlayerIndex: int
    var gameStarted: bool
    var gameFinished: bool
    /** The contents of board, row by row. */
    ghost var Cells: Grid

    ghost function Snapshot(): Game
      reads this
    {
      Game(boardSize, Cells, players, currentPlayerIndex, gameStarted, gameFinished)
    }

    ghost predicate Valid()
      reads this, board
    {
      board.Length0 == boardSize && board.Length1 == boardSize && IsGrid(Cells, boardSize) &&
      (forall y, x :: 0 <= y < boardSize && 0 <= x < boardSize ==> board[y, x] == Cells[y][x]) &&
      (gameStarted ==> Wellformed(Snapshot()))
    }

    /** Before the first GAME command there is no board and no game. */
    constructor ()
      ensures Valid() && !gameStarted && !gameFinished
    {
      boardSize := 0;
      board := new char[0, 0];
      players := [];
      currentPlayerIndex := 0;
      gameStarted := false;
      gameFinished := false;
      Cells := [];
    }

    /** handleGame on the command already split at commas: partCount parts, the first parsed
        as a number if it is one, and the tokens of the two player parameters. */
    method HandleGame(partCount: int, size: Option<int>, tokens1: seq<string>, tokens2: seq<string>) returns (err: Option<GameError>)
      requires Valid()
      modifies this, board
      ensures Valid()
      ensures (Snapshot(), err) == GameCommand(old(Snapshot()), partCount, size, tokens1, tokens2)
      ensures err.Some? ==> board == old(board)
    {
      if partCount < 3 {
        return Some(TooFewParts);
      }
      if size.None? {
        return Some(SizeNotANumber);
      }
      var n := size.value;
      if n <= 2 {
        return Some(BoardTooSmall);
      }
      var r1 := ParsePlayerParam(tokens1);
      if r1.Err? {
        return Some(BadPlayer(r1.error));
      }
      var r2 := ParsePlayerParam(tokens2);
      if r2.Err? {
        return Some(BadPlayer(r2.error));
      }
      var p1, p2 := r1.value, r2.value;
      if p1.color == p2.color {
        return Some(SameColors);
      }
      StartNewGame(n, p1, p2);
      return None;
    }

    /** startNewGame: a blank n x n board, player 0 to move, then the computer's turns if the
        first player is a computer. */
    method StartNewGame(n: int, p1: Player, p2: Player)
      requires n > 2 && IsColor(p1.color) && IsColor(p2.color) && p1.color != p2.color
      modifies this
      ensures Valid() && fresh(board)
      ensures Snapshot() == Pump(NewGame(n, p1, p2))
    {
      var b := BlankArray(n);
      boardSize := n;
      players := [p1, p2];
      currentPlayerIndex := 0;
      gameStarted := true;
      gameFinished := false;
      board := b;
      Cells := BlankBoard(n);
      NewGameIsLive(n, p1, p2);
      if players[0].kind == Comp {
        DoComputerTurnIfNeeded();
      }
    }

    /** The board of a new game: n x n cells, each blank. */
    static method BlankArray(n: nat) returns (b: array2<char>)
      ensures fresh(b) && b.Length0 == n && b.Length1 == n
      ensures forall y, x :: 0 <= y < n && 0 <= x < n ==> b[y, x] == BlankBoard(n)[y][x]
    {
      b := new char[n, n];
      for y := 0 to n
        invariant forall yy, xx :: 0 <= yy < y && 0 <= xx < n ==> b[yy, xx] == ' '
      {
        for x := 0 to n
          invariant forall yy, xx :: 0 <= yy < y && 0 <= xx < n ==> b[yy, xx] == ' '
          invariant forall xx :: 0 <= xx < x ==> b[y, xx] == ' '
        {
          b[y, x] := ' ';
        }
      }
    }

    /** handleMove on the command already split at commas: partCount parts and the two
        coordinates, each parsed as a number if it is one. */
    method HandleMove(partCount: int, x: Option<int>, y: Option<int>) returns (err: Option<MoveError>)
      requires Valid()
      modifies this, board
      ensures Valid() && board == old(board)
      ensures (Snapshot(), err) == MoveCommand(old(Snapshot()), partCount, x, y)
    {
      if !gameStarted {
        return Some(NotStarted);
      }
      if gameFinished {
        return Some(AlreadyFinished);
      }
      if partCount < 2 {
        return Some(TooFewCoordinates);
      }
      if x.None? || y.None? {
        return Some(CoordinateNotANumber);
      }
      err := MakeUserMove(x.value, y.value);
    }

    /** makeUserMove: x1 and y1 are one-based. */
    method MakeUserMove(x1: int, y1: int) returns (err: Option<MoveError>)
      requires Valid() && gameStarted && !gameFinished
      modifies this, board
      ensures Valid() && board == old(board)
      ensures Snapshot() == UserMove(old(Snapshot()), x1, y1)
      ensures err == MoveRejection(old(Snapshot()), x1, y1)
    {
      var cur := players[currentPlayerIndex];
      if cur.kind != User {
        return Some(NotUsersTurn);
      }
      var valid := IsValidUserCoords(x1, y1);
      if !valid {
        return Some(InvalidMove);
      }
      var x, y := x1 - 1, y1 - 1;
      PlaceCurrent(y, x);
      var ended := Judge(cur.color);
      if ended {
        return None;
      }
      DoComputerTurnIfNeeded();
      return None;
    }

    /** The assignment board[y][x] = color of the current player, on a blank cell. */
    method PlaceCurrent(y: int, x: int)
      requires Valid() && gameStarted && 0 <= y < boardSize && 0 <= x < boardSize && Cells[y][x] == ' '
      modifies this, board
      ensures Valid() && gameStarted && board == old(board)
      ensures Snapshot() == Place(old(Snapshot()), y, x)
      ensures Blanks(Cells) == Blanks(old(Cells)) - 1
    {
      ghost var g := Snapshot();
      PlaceFillsBlank(g, y, x);
      var color := players[currentPlayerIndex].color;
      board[y, x] := color;
      Cells := Cells[y := Cells[y][x := color]];
    }

    function IsValidUserCoords(x: int, y: int): (valid: bool)
      requires Valid()
      reads this, board
      ensures valid == ValidCoords(Snapshot(), x, y)
    {
      1 <= x <= boardSize && 1 <= y <= boardSize && board[y - 1, x - 1] == ' '
    }

    /** doComputerTurnIfNeeded: every pass either ends the game or fills a blank cell. */
    method DoComputerTurnIfNeeded()
      requires Valid() && gameStarted
      modifies this, board
      ensures Valid() && gameStarted && board == old(board)
      ensures Snapshot() == Pump(old(Snapshot()))
    {
      while !gameFinished && players[currentPlayerIndex].kind == Comp
        invariant Valid() && gameStarted && board == old(board)
        invariant Pump(Snapshot()) == Pump(old(Snapshot()))
        decreases Blanks(Cells) + (if gameFinished then 0 else 1)
      {
        PlayComputerTurn();
      }
    }

    /** One pass of doComputerTurnIfNeeded: ask the engine, end the game on no move, otherwise
        place the move and judge it. The returns of the pass end the loop, as gameFinished is
        set before each of them. */
    method PlayComputerTurn()
      requires Valid() && gameStarted && !gameFinished && players[currentPlayerIndex].kind == Comp
      modifies this, board
      ensures Valid() && gameStarted && board == old(board)
      ensures Pump(Snapshot()) == Pump(old(Snapshot()))
      ensures Blanks(Cells) <= old(Blanks(Cells))
      ensures gameFinished || Blanks(Cells) < old(Blanks(Cells))
    {
      var color := players[currentPlayerIndex].color;
      var dto := BuildBoardDtoForEngine(color);
      PumpStep(Snapshot());
      var move := ComputeNextMove(dto);
      if move.None? {
        gameFinished := true;
        return;
      }
      var m := move.value;
      PlaceCurrent(m.y, m.x);
      var ended := Judge(color);
      if ended {
        return;
      }
    }

    /** The checks after a placement by the player to move: a square (checkWin) or a full board
        (boardFull) ends the game, otherwise the turn passes to the other player. */
    method Judge(color: char) returns (ended: bool)
      requires Valid() && gameStarted && color == players[currentPlayerIndex].color
      modifies this
      ensures Valid() && gameStarted && board == old(board)
      ensures Snapshot() == AfterPlacement(old(Snapshot()))
      ensures ended == gameFinished
    {
      var win := CheckWin(color);
      if win {
        gameFinished := true;
        return true;
      }
      var full := BoardFull();
      if full {
        gameFinished := true;
        return true;
      }
      currentPlayerIndex := (currentPlayerIndex + 1) % 2;
      return gameFinished;
    }

    /** buildBoardDtoForEngine: the board row by row, the size and the colour to move. */
    method BuildBoardDtoForEngine(nextPlayerColor: char) returns (dto: BoardDto)
      requires Valid()
      ensures dto == DtoOf(Snapshot(), nextPlayerColor)
    {
      var sb := [];
      for y := 0 to boardSize
        invariant sb == Flatten(Cells[..y])
      {
        for x := 0 to boardSize
          invariant sb == Flatten(Cells[..y]) + Cells[y][..x]
        {
          sb := sb + [board[y, x]];
        }
        assert Cells[..y + 1][..y] == Cells[..y];
      }
      assert Cells[..boardSize] == Cells;
      dto := BoardDto(boardSize, Some(sb), Some([nextPlayerColor]));
    }

    /** checkWin: the engine reports status 1, which it does when any colour has a square. */
    method CheckWin(color: char) returns (win: bool)
      requires Valid() && gameStarted && IsColor(color)
      ensures win <==> SomeColorWins(Cells)
    {
      var dto := BuildBoardDtoForEngine(color);
      EngineReadsBoard(Snapshot(), color);
      var status := EvaluateBoard(dto);
      StatusAllowedCode(Cells, status);
      win := status.Code() == 1;
    }

    /** boardFull: no cell is blank. */
    method BoardFull() returns (full: bool)
      requires Valid()
      ensures full <==> Full(Cells)
    {
      for y := 0 to boardSize
        invariant forall yy, xx :: 0 <= yy < y && 0 <= xx < boardSize ==> Cells[yy][xx] != ' '
      {
        for x := 0 to boardSize
          invariant forall yy, xx :: 0 <= yy < y && 0 <= xx < boardSize ==> Cells[yy][xx] != ' '
          invariant forall xx :: 0 <= xx < x ==> Cells[y][xx] != ' '
        {
          if board[y, x] == ' ' {
            return false;
          }
        }
      }
      return true;
    }
  }
}
