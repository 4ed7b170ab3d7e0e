/** The rules engine of the squares game (SquaresEngine): it turns a board record into an
    N x N grid, judges the grid (won, drawn, in progress) and picks the computer's move. */
module SquaresEngine {
  import opened Wrappers
  import opened JavaText
  import opened Geometry

  /** BoardDto: the board as handed to the engine. A null string is None. */
  datatype BoardDto = BoardDto(size: int, data: Option<string>, nextPlayerColor: Option<string>)

  /** The reasons parseBoard rejects a board (its IllegalArgumentException). */
  datatype ParseError = SizeTooSmall | DataMissing | LengthMismatch(expected: int, actual: int)

  /** SimpleMoveDto: a zero-based cell and the colour to place there. */
  datatype SimpleMove = SimpleMove(x: int, y: int, color: string)

  /** GameStatusDto without its human-readable message. */
  datatype GameStatus = InProgress | Won(color: char) | Draw | Invalid(error: ParseError)
  {
    /** The numeric status of the record: 0, 1, 2 or -1. */
    function Code(): int
    {
      match this
      case InProgress => 0
      case Won(_) => 1
      case Draw => 2
      case Invalid(_) => -1
    }
  }

  /** The char[][] board, row by row: g[y][x] is column x of row y. */
  type Grid = seq<seq<char>>

  predicate IsGrid(g: Grid, n: int)
  {
    |g| == n && forall y :: 0 <= y < n ==> |g[y]| == n
  }

  /** isEmpty: a blank, a dot or a NUL is a free cell; every other character is a colour. */
  predicate IsEmpty(c: char)
  {
    c == ' ' || c == '.' || c == '\0'
  }

  predicate IsLineBreak(c: char)
  {
    c == '\n' || c == '\r'
  }

  predicate NoLineBreaks(s: string)
  {
    forall i :: 0 <= i < |s| ==> !IsLineBreak(s[i])
  }

  // ---------- parsing ----------

  /** The characters parseBoard keeps: every one except line breaks, in their order. */
  function StripLineBreaks(raw: string): (r: string)
    ensures |r| <= |raw|
    ensures NoLineBreaks(r)
  {
    if raw == [] then []
    else
      var last := raw[|raw| - 1];
      StripLineBreaks(raw[..|raw| - 1]) + (if IsLineBreak(last) then [] else [last])
  }

  /** Stripping removes line breaks and nothing else: every other character keeps its count. */
  lemma {:induction false} StripLineBreaksKeepsOthers(raw: string, c: char)
    requires !IsLineBreak(c)
    ensures multiset(StripLineBreaks(raw))[c] == multiset(raw)[c]
    decreases |raw|
  {
    if raw != [] {
      StripLineBreaksKeepsOthers(raw[..|raw| - 1], c);
      assert raw == raw[..|raw| - 1] + [raw[|raw| - 1]];
    }
  }

  /** Stripping leaves a string without line breaks as it is. */
  lemma {:induction false} StripLineBreaksKeepsClean(s: string)
    requires NoLineBreaks(s)
    ensures StripLineBreaks(s) == s
    decreases |s|
  {
    if s != [] {
      StripLineBreaksKeepsClean(s[..|s| - 1]);
      assert s == s[..|s| - 1] + [s[|s| - 1]];
    }
  }

  /** The only rewriting parseBoard does to a cell: a dot becomes a blank. */
  function Canonical(c: char): char
  {
    if c == '.' then ' ' else c
  }

  lemma MulMonotone(a: int, b: int, n: int)
    requires n >= 0
    ensures a >= b ==> a * n >= b * n
  {
    assert (a - b) * n == a * n - b * n;
  }

  /** Row-major layout: cell (x, y) of a grid of rows of width n is at y * n + x. */
  lemma RowMajorBound(rows: int, n: int, y: int, x: int)
    requires 0 <= y < rows && 0 <= x < n
    ensures 0 <= y * n + x < rows * n
  {
    MulMonotone(y, 0, n);
    MulMonotone(rows, y + 1, n);
    assert (y + 1) * n == y * n + n;
  }

  /** The n x n grid laid out row by row in s, with dots made blank. */
  function GridOf(s: string, n: nat): (g: Grid)
    requires |s| == n * n
    ensures IsGrid(g, n)
  {
    seq(n, y requires 0 <= y < n =>
      seq(n, x requires 0 <= x < n => RowMajorBound(n, n, y, x); Canonical(s[y * n + x])))
  }

  lemma GridOfCell(s: string, n: nat, y: int, x: int)
    requires |s| == n * n && 0 <= y < n && 0 <= x < n
    ensures 0 <= y * n + x < |s| && GridOf(s, n)[y][x] == Canonical(s[y * n + x])
  {
    RowMajorBound(n, n, y, x);
  }

  /** parseBoard: size at least 3, data present, and exactly size * size characters once the
      line breaks are gone; the exact product is compared (see Findings in the README). */
  function Parse(dto: BoardDto): (r: Result<Grid, ParseError>)
    ensures r.Ok? ==> IsGrid(r.value, dto.size)
  {
    if dto.size <= 2 then Err(SizeTooSmall)
    else if dto.data.None? then Err(DataMissing)
    else
      var s := StripLineBreaks(dto.data.value);
      if |s| != dto.size * dto.size then Err(LengthMismatch(dto.size * dto.size, |s|))
      else Ok(GridOf(s, dto.size))
  }

  /** The failures of parseBoard, in the order it checks for them, and the shape on success. */
  lemma ParseOutcome(dto: BoardDto)
    ensures dto.size <= 2 ==> Parse(dto) == Err(SizeTooSmall)
    ensures dto.size > 2 && dto.data.None? ==> Parse(dto) == Err(DataMissing)
    ensures dto.size > 2 && dto.data.Some? ==>
      var len := |StripLineBreaks(dto.data.value)|;
      (Parse(dto).Ok? <==> len == dto.size * dto.size) &&
      (Parse(dto).Err? ==> Parse(dto).error == LengthMismatch(dto.size * dto.size, len))
  {
  }

  // ---------- the length check in 32-bit arithmetic ----------

  /** A Java int result: the mathematical value wrapped into [-2^31, 2^31). */
  function Int32(v: int): (r: int)
    ensures -0x8000_0000 <= r < 0x8000_0000
    ensures (r - v) % 0x1_0000_0000 == 0
    ensures -0x8000_0000 <= v < 0x8000_0000 ==> r == v
  {
    (v + 0x8000_0000) % 0x1_0000_0000 - 0x8000_0000
  }

  /** parseBoard's length test as written: the data passes when its length equals size * size
      computed in int. */
  predicate LengthCheckAsWritten(size: int, len: int)
  {
    len == Int32(size * size)
  }

  /** Up to size 46340 the product fits in an int and the test is the exact one. */
  lemma LengthCheckExactUpTo46340(size: int, len: int)
    requires 0 <= size <= 46340
    ensures LengthCheckAsWritten(size, len) <==> len == size * size
  {
    MulMonotone(46340, size, size);
    MulMonotone(46340, size, 46340);
  }

  /** At size 65536 the product wraps to 0: empty data passes the test as written, while the
      model refuses it with the exact expected length. */
  lemma LengthCheckOverflows()
    ensures LengthCheckAsWritten(65536, |StripLineBreaks("")|)
    ensures Parse(BoardDto(65536, Some(""), None)) == Err(LengthMismatch(0x1_0000_0000, 0))
  {
  }

  /** On success every cell is the character at y * size + x of the data without line breaks:
      a dot reads as a blank and nothing else is changed, whatever the character. */
  lemma ParseCells(dto: BoardDto, y: int, x: int)
    requires Parse(dto).Ok? && 0 <= y < dto.size && 0 <= x < dto.size
    ensures var s := StripLineBreaks(dto.data.value);
      0 <= y * dto.size + x < |s| &&
      Parse(dto).value[y][x] == (if s[y * dto.size + x] == '.' then ' ' else s[y * dto.size + x])
  {
    GridOfCell(StripLineBreaks(dto.data.value), dto.size, y, x);
  }

  /** A parsed grid holds no dot and no line break. */
  predicate CanonicalGrid(g: Grid)
  {
    forall y, x :: 0 <= y < |g| && 0 <= x < |g[y]| ==> g[y][x] != '.' && !IsLineBreak(g[y][x])
  }

  lemma ParseIsCanonical(dto: BoardDto)
    requires Parse(dto).Ok?
    ensures CanonicalGrid(Parse(dto).value)
  {
    var g := Parse(dto).value;
    forall y, x | 0 <= y < |g| && 0 <= x < |g[y]| ensures g[y][x] != '.' && !IsLineBreak(g[y][x]) {
      ParseCells(dto, y, x);
    }
  }

  /** parseBoard: the checks and the loop that drops line breaks; the grid is then filled by
      FillBoard. */
  method ParseBoard(dto: BoardDto) returns (r: Result<Grid, ParseError>)
    ensures r == Parse(dto)
  {
    var size := dto.size;
    if size <= 2 {
      return Err(SizeTooSmall);
    }
    if dto.data.None? {
      return Err(DataMissing);
    }
    var raw := dto.data.value;
    var s := [];
    for i := 0 to |raw|
      invariant s == StripLineBreaks(raw[..i])
    {
      assert raw[..i + 1][..i] == raw[..i];
      var ch := raw[i];
      if IsLineBreak(ch) {
        continue;
      }
      s := s + [ch];
    }
    assert raw[..|raw|] == raw;
    if |s| != size * size {
      return Err(LengthMismatch(size * size, |s|));
    }
    var board := FillBoard(s, size);
    return Ok(board);
  }

  /** The nested loops of parseBoard that copy s into the grid with a running index. */
  method FillBoard(s: string, size: nat) returns (board: Grid)
    requires |s| == size * size
    ensures board == GridOf(s, size)
  {
    ghost var spec := GridOf(s, size);
    board := [];
    var idx := 0;
    for y := 0 to size
      invariant idx == y * size
      invariant |board| == y
      invariant forall yy :: 0 <= yy < y ==> board[yy] == spec[yy]
    {
      var row := [];
      for x := 0 to size
        invariant idx == y * size + x
        invariant |row| == x
        invariant forall xx :: 0 <= xx < x ==> row[xx] == spec[y][xx]
      {
        GridOfCell(s, size, y, x);
        var c := s[idx];
        idx := idx + 1;
        if c == '.' {
          c := ' ';
        }
        row := row + [c];
      }
      assert row == spec[y];
      assert (y + 1) * size == y * size + size;
      board := board + [row];
    }
  }

  // ---------- flattening and the round trip ----------

  /** The rows of a grid written one after the other (the string the game hands the engine). */
  function Flatten(g: Grid): (s: string)
  {
    if g == [] then [] else Flatten(g[..|g| - 1]) + g[|g| - 1]
  }

  predicate Rows(g: Grid, n: int)
  {
    forall y :: 0 <= y < |g| ==> |g[y]| == n
  }

  lemma {:induction false} FlattenLength(g: Grid, n: nat)
    requires Rows(g, n)
    ensures |Flatten(g)| == |g| * n
    decreases |g|
  {
    if g != [] {
      FlattenLength(g[..|g| - 1], n);
      assert |g| * n == (|g| - 1) * n + n;
    }
  }

  /** Cell (x, y) of a grid with rows of width n sits at y * n + x of its flattening. */
  lemma {:induction false} FlattenCell(g: Grid, n: nat, y: int, x: int)
    requires Rows(g, n) && 0 <= y < |g| && 0 <= x < n
    ensures 0 <= y * n + x < |Flatten(g)| && Flatten(g)[y * n + x] == g[y][x]
    decreases |g|
  {
    var init := g[..|g| - 1];
    FlattenLength(g, n);
    FlattenLength(init, n);
    RowMajorBound(|g|, n, y, x);
    if y < |init| {
      FlattenCell(init, n, y, x);
      RowMajorBound(|init|, n, y, x);
    }
  }

  /** Every index below n * n is the index of some cell. */
  lemma IndexOfCell(n: nat, i: int)
    requires 0 <= i < n * n
    ensures 0 <= i / n < n && 0 <= i % n < n && i == (i / n) * n + i % n
  {
    MulMonotone(i / n, n, n);
  }

  /** The data string with every dot made a blank. */
  function CanonicalString(s: string): (r: string)
    ensures |r| == |s|
  {
    seq(|s|, i requires 0 <= i < |s| => Canonical(s[i]))
  }

  /** Parsing and flattening back gives the data without line breaks, dots made blank. */
  lemma FlattenAfterParse(dto: BoardDto)
    requires Parse(dto).Ok?
    ensures Flatten(Parse(dto).value) == CanonicalString(StripLineBreaks(dto.data.value))
  {
    var n := dto.size;
    var g := Parse(dto).value;
    var s := StripLineBreaks(dto.data.value);
    FlattenLength(g, n);
    forall i | 0 <= i < n * n ensures Flatten(g)[i] == Canonical(s[i]) {
      IndexOfCell(n, i);
      FlattenCell(g, n, i / n, i % n);
      ParseCells(dto, i / n, i % n);
    }
  }

  lemma {:induction false} FlattenNoLineBreaks(g: Grid)
    requires CanonicalGrid(g)
    ensures NoLineBreaks(Flatten(g))
    decreases |g|
  {
    if g != [] {
      FlattenNoLineBreaks(g[..|g| - 1]);
    }
  }

  /** Flattening a grid and parsing it back gives the grid again (the board the game sends). */
  lemma ParseAfterFlatten(g: Grid, n: int, color: Option<string>)
    requires n > 2 && IsGrid(g, n) && CanonicalGrid(g)
    ensures Parse(BoardDto(n, Some(Flatten(g)), color)) == Ok(g)
  {
    var dto := BoardDto(n, Some(Flatten(g)), color);
    FlattenLength(g, n);
    FlattenNoLineBreaks(g);
    StripLineBreaksKeepsClean(Flatten(g));
    assert Parse(dto).Ok?;
    var h := Parse(dto).value;
    forall y | 0 <= y < n ensures h[y] == g[y] {
      forall x | 0 <= x < n ensures h[y][x] == g[y][x] {
        FlattenCell(g, n, y, x);
        GridOfCell(Flatten(g), n, y, x);
      }
    }
    assert h == g;
  }

  // ---------- judging a grid ----------

  /** The cell (p.x, p.y) lies on the grid and holds c. */
  predicate CellIs(g: Grid, p: Point, c: char)
  {
    0 <= p.y < |g| && 0 <= p.x < |g[p.y]| && g[p.y][p.x] == c
  }

  /** The cells of colour c among columns 0..x-1 of row y, left to right. */
  function RowPieces(row: seq<char>, c: char, y: int, x: int): seq<Point>
    requires 0 <= x <= |row|
  {
    if x == 0 then []
    else RowPieces(row, c, y, x - 1) + (if row[x - 1] == c then [Point(x - 1, y)] else [])
  }

  lemma {:induction false} RowPiecesMembers(row: seq<char>, c: char, y: int, x: int)
    requires 0 <= x <= |row|
    ensures forall p :: p in RowPieces(row, c, y, x) <==> p.y == y && 0 <= p.x < x && row[p.x] == c
  {
    if x > 0 {
      RowPiecesMembers(row, c, y, x - 1);
    }
  }

  /** The cells of colour c among rows 0..y-1, row by row. */
  function PiecesUpTo(g: Grid, c: char, y: int): seq<Point>
    requires 0 <= y <= |g|
  {
    if y == 0 then []
    else PiecesUpTo(g, c, y - 1) + RowPieces(g[y - 1], c, y - 1, |g[y - 1]|)
  }

  lemma {:induction false} PiecesUpToMembers(g: Grid, c: char, y: int)
    requires 0 <= y <= |g|
    ensures forall p :: p in PiecesUpTo(g, c, y) <==> p.y < y && CellIs(g, p, c)
  {
    if y > 0 {
      PiecesUpToMembers(g, c, y - 1);
      RowPiecesMembers(g[y - 1], c, y - 1, |g[y - 1]|);
    }
  }

  /** The list of pieces of one colour that evaluateBoardInternal builds. */
  function Pieces(g: Grid, c: char): (ps: seq<Point>)
    ensures forall p :: p in ps <==> CellIs(g, p, c)
  {
    PiecesUpToMembers(g, c, |g|);
    PiecesUpTo(g, c, |g|)
  }

  /** Colour c has four cells that pass the square test, in increasing row-major order. */
  ghost predicate WinsWith(g: Grid, c: char)
  {
    !IsEmpty(c) && HasSquare(Pieces(g, c))
  }

  ghost predicate SomeColorWins(g: Grid)
  {
    exists c :: WinsWith(g, c)
  }

  ghost predicate HasEmptyCell(g: Grid)
  {
    exists y, x :: 0 <= y < |g| && 0 <= x < |g[y]| && IsEmpty(g[y][x])
  }

  /** What evaluateBoardInternal may answer: any colour that has a square (which one depends on
      HashSet order); otherwise a draw exactly when no cell is free; otherwise in progress. */
  ghost predicate StatusAllowed(g: Grid, st: GameStatus)
  {
    match st
    case Won(c) => WinsWith(g, c)
    case Draw => !SomeColorWins(g) && !HasEmptyCell(g)
    case InProgress => !SomeColorWins(g) && HasEmptyCell(g)
    case Invalid(_) => false
  }

  /** The status code, which does not depend on HashSet order. */
  ghost function StatusCode(g: Grid): int
  {
    if SomeColorWins(g) then 1 else if !HasEmptyCell(g) then 2 else 0
  }

  /** Every allowed answer has the same code; only the winning colour may vary. */
  lemma StatusAllowedCode(g: Grid, st: GameStatus)
    requires StatusAllowed(g, st)
    ensures st.Code() == StatusCode(g)
    ensures st.Won? <==> SomeColorWins(g)
  {
  }

  /** Four cells of colour c, in any order, that pass the square test. */
  ghost predicate OwnsSquare(g: Grid, c: char)
  {
    exists p1, p2, p3, p4 :: CellIs(g, p1, c) && CellIs(g, p2, c) && CellIs(g, p3, c) && CellIs(g, p4, c) &&
      IsSquare(p1, p2, p3, p4)
  }

  /** A colour wins exactly when four of its cells, taken in any order, form a square. */
  lemma WinsWithIffOwnsSquare(g: Grid, c: char)
    ensures WinsWith(g, c) <==> !IsEmpty(c) && OwnsSquare(g, c)
  {
    var ps := Pieces(g, c);
    if HasSquare(ps) {
      var i, j, k, l :| SquareAt(ps, i, j, k, l);
      assert ps[i] in ps && ps[j] in ps && ps[k] in ps && ps[l] in ps;
      assert IsSquare(ps[i], ps[j], ps[k], ps[l]);
    }
    if OwnsSquare(g, c) {
      var p1, p2, p3, p4 :| CellIs(g, p1, c) && CellIs(g, p2, c) && CellIs(g, p3, c) && CellIs(g, p4, c) &&
        IsSquare(p1, p2, p3, p4);
      assert p1 in ps && p2 in ps && p3 in ps && p4 in ps;
      var i1 :| 0 <= i1 < |ps| && ps[i1] == p1;
      var i2 :| 0 <= i2 < |ps| && ps[i2] == p2;
      var i3 :| 0 <= i3 < |ps| && ps[i3] == p3;
      var i4 :| 0 <= i4 < |ps| && ps[i4] == p4;
      IsSquareDistinct(p1, p2, p3, p4);
      HasSquareInAnyOrder(ps, i1, i2, i3, i4);
    }
  }

  /** A winning colour occurs on the board. */
  lemma WinnerOccurs(g: Grid, c: char)
    ensures WinsWith(g, c) ==> exists y, x :: 0 <= y < |g| && 0 <= x < |g[y]| && g[y][x] == c
  {
    if WinsWith(g, c) {
      var ps := Pieces(g, c);
      var i, j, k, l :| SquareAt(ps, i, j, k, l);
      assert ps[i] in ps;
      assert CellIs(g, ps[i], c);
    }
  }

  /** If every colour on the board was tried and none has a square, nobody wins. */
  lemma NoWinnerAmong(g: Grid, colors: set<char>)
    requires forall y, x :: 0 <= y < |g| && 0 <= x < |g[y]| && !IsEmpty(g[y][x]) ==> g[y][x] in colors
    requires forall c :: c in colors ==> !HasSquare(Pieces(g, c))
    ensures !SomeColorWins(g)
  {
    forall c ensures !WinsWith(g, c) {
      WinnerOccurs(g, c);
    }
  }

  /** The pieces of one colour, collected row by row as evaluateBoardInternal does. */
  method CollectPieces(g: Grid, color: char) returns (pieces: seq<Point>)
    requires IsGrid(g, |g|)
    ensures pieces == Pieces(g, color)
  {
    var n := |g|;
    pieces := [];
    for y := 0 to n
      invariant pieces == PiecesUpTo(g, color, y)
    {
      for x := 0 to n
        invariant pieces == PiecesUpTo(g, color, y) + RowPieces(g[y], color, y, x)
      {
        if g[y][x] == color {
          pieces := pieces + [Point(x, y)];
        }
      }
      assert PiecesUpTo(g, color, y + 1) == PiecesUpTo(g, color, y) + RowPieces(g[y], color, y, n);
    }
  }

  /** The cell (yy, xx) comes before (y, x) in row-major order. */
  predicate Before(yy: int, xx: int, y: int, x: int)
  {
    yy < y || (yy == y && xx < x)
  }

  /** evaluateBoardInternal: gather the colours and note a free cell, try each colour in some
      order, then tell a draw from a game in progress. */
  method EvaluateBoardInternal(g: Grid) returns (st: GameStatus)
    requires IsGrid(g, |g|)
    ensures StatusAllowed(g, st)
  {
    var n := |g|;
    var anyEmpty := false;
    var colors: set<char> := {};
    for y := 0 to n
      invariant anyEmpty <==> exists yy, xx :: 0 <= yy < y && 0 <= xx < n && IsEmpty(g[yy][xx])
      invariant forall c :: c in colors ==> !IsEmpty(c)
      invariant forall yy, xx :: 0 <= yy < y && 0 <= xx < n && !IsEmpty(g[yy][xx]) ==> g[yy][xx] in colors
    {
      for x := 0 to n
        invariant anyEmpty <==> exists yy, xx :: 0 <= yy < n && 0 <= xx < n && Before(yy, xx, y, x) && IsEmpty(g[yy][xx])
        invariant forall c :: c in colors ==> !IsEmpty(c)
        invariant forall yy, xx :: 0 <= yy < n && 0 <= xx < n && Before(yy, xx, y, x) && !IsEmpty(g[yy][xx]) ==> g[yy][xx] in colors
      {
        var c := g[y][x];
        if IsEmpty(c) {
          anyEmpty := true;
          continue;
        }
        colors := colors + {c};
      }
    }

    var remaining := colors;
    while remaining != {}
      invariant remaining <= colors
      invariant forall c :: c in colors && c !in remaining ==> !HasSquare(Pieces(g, c))
      decreases |remaining|
    {
      var color :| color in remaining;
      remaining := remaining - {color};
      var pieces := CollectPieces(g, color);
      if |pieces| >= 4 {
        var found := HasAnySquare(pieces);
        if found {
          return Won(color);
        }
      }
    }
    NoWinnerAmong(g, colors);

    if !anyEmpty {
      return Draw;
    }
    return InProgress;
  }

  /** evaluateBoard: -1 exactly when parsing fails, otherwise the judgement of the grid. */
  method EvaluateBoard(dto: BoardDto) returns (st: GameStatus)
    ensures Parse(dto).Err? ==> st == Invalid(Parse(dto).error)
    ensures Parse(dto).Ok? ==> StatusAllowed(Parse(dto).value, st)
    ensures st.Code() == -1 <==> Parse(dto).Err?
  {
    var r := ParseBoard(dto);
    if r.Err? {
      return Invalid(r.error);
    }
    st := EvaluateBoardInternal(r.value);
  }

  // ---------- the computer's move ----------

  /** normalizeColorChar: the first character String.trim keeps, lower-cased. */
  function NormalizeColorChar(s: string): (c: char)
    requires HasVisible(s)
    ensures exists i :: FirstVisibleAt(s, i) && c == ToLower(s[i])
  {
    var i := FirstVisible(s);
    TrimHead(s, i);
    ToLower(Trim(s)[0])
  }

  /** The first free cell of row[x..]. */
  function FirstEmptyInRow(row: seq<char>, x: nat): (r: Option<nat>)
    requires x <= |row|
    ensures r.Some? ==>
              x <= r.value < |row| && IsEmpty(row[r.value]) &&
              forall i :: x <= i < r.value ==> !IsEmpty(row[i])
    ensures r.None? ==> forall i :: x <= i < |row| ==> !IsEmpty(row[i])
    decreases |row| - x
  {
    if x == |row| then None
    else if IsEmpty(row[x]) then Some(x)
    else FirstEmptyInRow(row, x + 1)
  }

  /** The first free cell of rows y.. in row-major order, as a Point(x, y). */
  function FirstEmptyFrom(g: Grid, y: nat): (r: Option<Point>)
    requires y <= |g|
    ensures r.Some? ==>
              y <= r.value.y < |g| && 0 <= r.value.x < |g[r.value.y]| &&
              IsEmpty(g[r.value.y][r.value.x]) &&
              forall yy, xx :: y <= yy < |g| && 0 <= xx < |g[yy]| && Before(yy, xx, r.value.y, r.value.x) ==> !IsEmpty(g[yy][xx])
    ensures r.None? ==> forall yy, xx :: y <= yy < |g| && 0 <= xx < |g[yy]| ==> !IsEmpty(g[yy][xx])
    decreases |g| - y
  {
    if y == |g| then None
    else
      match FirstEmptyInRow(g[y], 0)
      case Some(x) => Some(Point(x, y))
      case None => FirstEmptyFrom(g, y + 1)
  }

  /** The colour is readable whenever computeNextMove gets as far as reading it. */
  ghost predicate ColorReadable(dto: BoardDto)
  {
    Parse(dto).Ok? && StatusCode(Parse(dto).value) == 0 ==>
      dto.nextPlayerColor.Some? && HasVisible(dto.nextPlayerColor.value)
  }

  /** computeNextMove: no move on a bad board or a finished game, otherwise the first free
      cell in row-major order, in the lower-cased colour. */
  ghost function NextMove(dto: BoardDto): Option<SimpleMove>
    requires ColorReadable(dto)
  {
    match Parse(dto)
    case Err(_) => None
    case Ok(g) =>
      if StatusCode(g) != 0 then None
      else
        match FirstEmptyFrom(g, 0)
        case None => None
        case Some(p) => Some(SimpleMove(p.x, p.y, [NormalizeColorChar(dto.nextPlayerColor.value)]))
  }

  /** The engine moves exactly on a well-formed board that nobody has won and that has a free
      cell. */
  lemma NextMoveExistsIff(dto: BoardDto)
    requires ColorReadable(dto)
    ensures NextMove(dto).Some? <==> Parse(dto).Ok? && !SomeColorWins(Parse(dto).value) && HasEmptyCell(Parse(dto).value)
  {
  }

  /** The move is to a free cell, every cell before it in row-major order is taken, and its
      colour is the first visible character of nextPlayerColor, lower-cased. */
  lemma NextMoveIsFirstFree(dto: BoardDto)
    requires ColorReadable(dto) && NextMove(dto).Some?
    ensures var m := NextMove(dto).value; var g := Parse(dto).value;
      0 <= m.y < dto.size && 0 <= m.x < dto.size && IsEmpty(g[m.y][m.x]) &&
      (forall yy, xx :: 0 <= yy < dto.size && 0 <= xx < dto.size && Before(yy, xx, m.y, m.x) ==> !IsEmpty(g[yy][xx])) &&
      exists i :: FirstVisibleAt(dto.nextPlayerColor.value, i) && m.color == [ToLower(dto.nextPlayerColor.value[i])]
  {
  }

  method ComputeNextMove(dto: BoardDto) returns (m: Option<SimpleMove>)
    requires ColorReadable(dto)
    ensures m == NextMove(dto)
  {
    var r := ParseBoard(dto);
    if r.Err? {
      return None;
    }
    var board := r.value;
    var status := EvaluateBoardInternal(board);
    StatusAllowedCode(board, status);
    if status.Code() != 0 {
      return None;
    }
    var color := NormalizeColorChar(dto.nextPlayerColor.value);
    var cell := ScanFirstEmpty(board);
    if cell.None? {
      return None;
    }
    return Some(SimpleMove(cell.value.x, cell.value.y, [color]));
  }

  /** The scan of computeNextMove: rows top to bottom, each left to right, stopping at the first
      free cell. */
  method ScanFirstEmpty(board: Grid) returns (cell: Option<Point>)
    requires IsGrid(board, |board|)
    ensures cell == FirstEmptyFrom(board, 0)
  {
    var n := |board|;
    for y := 0 to n
      invariant FirstEmptyFrom(board, 0) == FirstEmptyFrom(board, y)
    {
      for x := 0 to n
        invariant FirstEmptyInRow(board[y], 0) == FirstEmptyInRow(board[y], x)
      {
        if IsEmpty(board[y][x]) {
          return Some(Point(x, y));
        }
      }
    }
    return None;
  }
}
