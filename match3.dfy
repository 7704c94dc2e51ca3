/** The board-resolution engine of the game: one `Match3` object owns the
    grid, the current selection and the random generator's state, and its
    methods are the game's operations on them.  Each method is proved
    against the value-level specifications of the modules it imports. */
module Engine {
  import opened Grid
  import opened Matching
  import opened Gravity
  import opened Refill
  import opened Cascades

  /** The game's random generator, as `Random.Range(0, n)`: given the
      generator's state `k` and a bound `n > 0`, an index below `n`. */
  type RandomSource = f: (nat, nat) -> nat | forall k, n :: 0 < n ==> f(k, n) < n
    witness (k: nat, n: nat) => 0

  /** The selection field's "nothing selected" value, (-1, -1). */
  const NoSelection := Pos(-1, -1)

  function Abs(n: int): (r: nat)
  {
    if n < 0 then -n else n
  }

  /** Rows 0 to n-1 of column `x` of a grid. */
  ghost function Column(a: array2<Cell>, x: nat, n: nat): (c: seq<Cell>)
    reads a
    requires x < a.Length0 && n <= a.Length1
    ensures |c| == n && forall y :: 0 <= y < n ==> c[y] == a[x, y]
  {
    if n == 0 then [] else Column(a, x, n - 1) + [a[x, n - 1]]
  }

  /** Columns 0 to m-1 of a grid, each in full. */
  ghost function Columns(a: array2<Cell>, m: nat): (r: Board)
    reads a
    requires m <= a.Length0
    ensures |r| == m && forall x :: 0 <= x < m ==> r[x] == Column(a, x, a.Length1)
  {
    if m == 0 then [] else Columns(a, m - 1) + [Column(a, m - 1, a.Length1)]
  }

  /** The elements of a set listed once each, in no particular order: the
      list `FindMatches` hands back. */
  method Enumerate(found: set<Pos>) returns (matches: seq<Pos>)
    ensures forall p :: p in matches <==> p in found
    ensures forall i, j :: 0 <= i < j < |matches| ==> matches[i] != matches[j]
  {
    matches := [];
    var rest := found;
    while rest != {}
      invariant forall p :: p in found <==> p in matches || p in rest
      invariant forall p :: p in matches ==> p !in rest
      invariant forall i, j :: 0 <= i < j < |matches| ==> matches[i] != matches[j]
      decreases |rest|
    {
      var p :| p in rest;
      matches := matches + [p];
      rest := rest - {p};
    }
  }

  class Match3 {
    const width: nat
    const height: nat
    /** The configured gem types. */
    const gemTypes: seq<GemType>
    const random: RandomSource

    var grid: array2<Cell>
    var selectedGem: Pos
    /** How many random numbers have been drawn: the generator's state. */
    var draws: nat

    ghost predicate WellFormed()
      reads this`grid
    {
      grid.Length0 == width && grid.Length1 == height
    }

    /** The grid as a board value, column-major. */
    ghost function Snapshot(): (b: Board)
      reads this`grid, grid
      requires WellFormed()
      ensures Shaped(b, width, height)
      ensures forall x, y :: 0 <= x < width && 0 <= y < height ==> b[x][y] == grid[x, y]
    {
      Columns(grid, width)
    }

    /** Between player actions the grid is full and the selection is either
        empty or a cell of the board. */
    ghost predicate Valid()
      reads this`grid, this`selectedGem, grid
    {
      && WellFormed()
      && |gemTypes| > 0
      && Full(Snapshot(), width, height)
      && (selectedGem == NoSelection || InBounds(width, height, selectedGem))
    }

    /** Creates the engine and populates the grid, as the game does on start-up. */
    constructor (width: nat, height: nat, gemTypes: seq<GemType>, random: RandomSource)
      requires |gemTypes| > 0
      ensures Valid() && fresh(grid)
      ensures this.width == width && this.height == height
      ensures this.gemTypes == gemTypes && this.random == random
      ensures selectedGem == NoSelection
      ensures FilledInOrder(EmptyBoard(width, height), Snapshot(), width, height, gemTypes)
      ensures NoFallback(EmptyBoard(width, height), Snapshot(), width, height, gemTypes) ==>
                Matches(Snapshot(), width, height) == {}
      ensures |TypeSet(gemTypes)| >= 5 ==> Matches(Snapshot(), width, height) == {}
    {
      this.width := width;
      this.height := height;
      this.gemTypes := gemTypes;
      this.random := random;
      grid := new Cell[width, height]((x, y) => None);
      selectedGem := NoSelection;
      draws := 0;
      new;
      InitializeGrid();
    }

    // -------------------------------------------------------------------------
    // Coordinates and selection

    /** `p` is a cell of the board. */
    function IsValidPosition(p: Pos): (r: bool)
      ensures r <==> p in AllPositions(width, height)
    {
      p.x >= 0 && p.x < width && p.y >= 0 && p.y < height
    }

    /** The cell at `p` holds no gem; on a full board no cell is empty. */
    function IsEmptyPosition(p: Pos): (r: bool)
      reads this`grid, grid
      requires WellFormed() && IsValidPosition(p)
      ensures r <==> Snapshot()[p.x][p.y] == None
      ensures Full(Snapshot(), width, height) ==> !r
    {
      grid[p.x, p.y].None?
    }

    /** `a` and `b` are orthogonal neighbours: Manhattan distance exactly 1. */
    static function AreGemsAdjacent(a: Pos, b: Pos): (r: bool)
      ensures r <==> b in {Pos(a.x + 1, a.y), Pos(a.x - 1, a.y), Pos(a.x, a.y + 1), Pos(a.x, a.y - 1)}
      ensures r ==> a != b
    {
      Abs(a.x - b.x) + Abs(a.y - b.y) == 1
    }

    method SelectGem(p: Pos)
      modifies this`selectedGem
      ensures selectedGem == p
    {
      selectedGem := p;
    }

    method DeselectGem()
      modifies this`selectedGem
      ensures selectedGem == NoSelection
    {
      selectedGem := NoSelection;
    }

    /** Handles a tap on grid cell `gridPos`.  Taps off the board or on an
        empty cell are ignored; tapping the selected cell deselects it; with
        nothing selected the tap selects; a tap next to the selection starts
        the swap-and-resolve loop (bounded by `fuel` cascade rounds), which
        ends with nothing selected and, when the swap matched, passes through
        the cascade `trace`; any other tap moves the selection.  Only the
        swap-and-resolve loop changes the board or draws random numbers. */
    method OnSelectGem(gridPos: Pos, fuel: nat) returns (ghost settled: bool, ghost trace: seq<Board>)
      requires Valid()
      modifies this`selectedGem, this`draws, grid
      ensures Valid()
      ensures !IsValidPosition(gridPos) || old(IsEmptyPosition(gridPos)) ==>
                selectedGem == old(selectedGem) && Snapshot() == old(Snapshot()) && draws == old(draws)
      ensures IsValidPosition(gridPos) && !old(IsEmptyPosition(gridPos)) ==>
                if old(selectedGem) == gridPos then
                  selectedGem == NoSelection && Snapshot() == old(Snapshot()) && draws == old(draws)
                else if old(selectedGem) == NoSelection then
                  selectedGem == gridPos && Snapshot() == old(Snapshot()) && draws == old(draws)
                else if AreGemsAdjacent(old(selectedGem), gridPos) then
                  selectedGem == NoSelection &&
                  (Matches(Swapped(old(Snapshot()), width, height, old(selectedGem), gridPos), width, height) == {} ==>
                     Snapshot() == old(Snapshot()) && draws == old(draws)) &&
                  (Matches(Swapped(old(Snapshot()), width, height, old(selectedGem), gridPos), width, height) != {} ==>
                     CascadeRun(trace, Swapped(old(Snapshot()), width, height, old(selectedGem), gridPos),
                                Snapshot(), width, height, gemTypes, fuel, settled))
                else
                  selectedGem == gridPos && Snapshot() == old(Snapshot()) && draws == old(draws)
    {
      settled, trace := true, [];
      if !IsValidPosition(gridPos) || IsEmptyPosition(gridPos) {
        return;
      }
      if selectedGem == gridPos {
        DeselectGem();
      } else if selectedGem == NoSelection {
        SelectGem(gridPos);
      } else if AreGemsAdjacent(selectedGem, gridPos) {
        var done;
        done, trace := RunGameLoop(selectedGem, gridPos, fuel);
        settled := done;
      } else {
        DeselectGem();
        SelectGem(gridPos);
      }
    }

    // -------------------------------------------------------------------------
    // The cascade

    /** Swaps `a` and `b`; if that makes no match, swaps them back, otherwise
        resolves the matches and their chain reactions for at most `fuel`
        rounds, passing through the boards of `trace`.  `settled` is false
        only when the fuel ran out before the board stopped matching.  The
        selection is cleared either way. */
    method RunGameLoop(a: Pos, b: Pos, fuel: nat) returns (settled: bool, ghost trace: seq<Board>)
      requires Valid() && InBounds(width, height, a) && InBounds(width, height, b)
      modifies this`selectedGem, this`draws, grid
      ensures Valid() && selectedGem == NoSelection
      ensures Matches(Swapped(old(Snapshot()), width, height, a, b), width, height) == {} ==>
                Snapshot() == old(Snapshot()) && draws == old(draws) && settled && trace == []
      ensures Matches(Swapped(old(Snapshot()), width, height, a, b), width, height) != {} ==>
                CascadeRun(trace, Swapped(old(Snapshot()), width, height, a, b), Snapshot(),
                           width, height, gemTypes, fuel, settled)
    {
      ghost var before := Snapshot();
      SwapGems(a, b);
      ghost var swapped := Snapshot();
      var matches := FindMatches();
      if |matches| == 0 {
        assert Matches(swapped, width, height) == {};
        SwapGems(b, a);
        SwapBackRestores(before, width, height, a, b);
        settled, trace := true, [];
      } else {
        assert matches[0] in Matches(swapped, width, height);
        settled, trace := ProcessMatches(matches, fuel);
      }
      ghost var after := Snapshot();
      DeselectGem();
      assert Snapshot() == after;
    }

    /** Repeats clear, fall and refill while the board has matches, for at
        most `fuel` rounds.  The boards it passes through form `trace`, a
        cascade from the board it started on to the board it leaves; it
        stops early only when no match is left. */
    method ProcessMatches(initialMatches: seq<Pos>, fuel: nat) returns (settled: bool, ghost trace: seq<Board>)
      requires WellFormed() && |gemTypes| > 0 && Full(Snapshot(), width, height)
      requires forall p :: p in initialMatches <==> p in Matches(Snapshot(), width, height)
      requires forall i, j :: 0 <= i < j < |initialMatches| ==> initialMatches[i] != initialMatches[j]
      modifies grid, this`draws
      ensures Full(Snapshot(), width, height)
      ensures CascadeRun(trace, old(Snapshot()), Snapshot(), width, height, gemTypes, fuel, settled)
      ensures |initialMatches| == 0 ==> settled && Snapshot() == old(Snapshot()) && draws == old(draws)
    {
      var currentMatches := initialMatches;
      var rounds := fuel;
      trace := [Snapshot()];
      while |currentMatches| > 0 && rounds > 0
        invariant Full(Snapshot(), width, height)
        invariant forall p :: p in currentMatches <==> p in Matches(Snapshot(), width, height)
        invariant forall i, j :: 0 <= i < j < |currentMatches| ==> currentMatches[i] != currentMatches[j]
        invariant |trace| >= 1 && trace[0] == old(Snapshot()) && trace[|trace| - 1] == Snapshot()
        invariant Cascade(trace, width, height, gemTypes)
        invariant 0 <= rounds && rounds + |trace| - 1 == fuel
        invariant |initialMatches| == 0 ==>
                    |currentMatches| == 0 && Snapshot() == old(Snapshot()) && draws == old(draws)
        decreases rounds
      {
        ghost var g0 := Snapshot();
        forall p | p in currentMatches
          ensures InBounds(width, height, p) && grid[p.x, p.y].Some?
        {
          MatchedCellsOccupied(g0, width, height, p);
        }
        ghost var ms := set p | p in currentMatches;
        assert ms == Matches(g0, width, height);
        assert currentMatches[0] in ms;
        ExplodeGems(currentMatches);
        ghost var g1 := Snapshot();
        MakeGemsFall();
        ghost var g2 := Snapshot();
        FillEmptySpots();
        ghost var g3 := Snapshot();
        CascadeStep(trace, g0, g1, g2, g3, ms, width, height, gemTypes);
        trace := trace + [g3];
        currentMatches := FindMatches();
        rounds := rounds - 1;
      }
      settled := |currentMatches| == 0;
      if settled {
        assert forall p :: p !in Matches(Snapshot(), width, height);
      } else {
        assert currentMatches[0] in Matches(Snapshot(), width, height);
      }
    }

    /** Exchanges the contents of cells `a` and `b`; no other cell changes. */
    method SwapGems(a: Pos, b: Pos)
      requires WellFormed() && InBounds(width, height, a) && InBounds(width, height, b)
      modifies grid, this`selectedGem
      ensures selectedGem == NoSelection
      ensures Snapshot() == Swapped(old(Snapshot()), width, height, a, b)
    {
      DeselectGem();
      var gridObjectA := grid[a.x, a.y];
      var gridObjectB := grid[b.x, b.y];
      grid[a.x, a.y] := gridObjectB;
      grid[b.x, b.y] := gridObjectA;
      Extensionality(Snapshot(), Swapped(old(Snapshot()), width, height, a, b), width, height);
    }

    /** Empties every listed cell and leaves every other cell unchanged. */
    method ExplodeGems(matches: seq<Pos>)
      requires WellFormed()
      requires forall p :: p in matches ==> InBounds(width, height, p) && grid[p.x, p.y].Some?
      requires forall i, j :: 0 <= i < j < |matches| ==> matches[i] != matches[j]
      modifies grid
      ensures forall x, y :: 0 <= x < width && 0 <= y < height ==>
                grid[x, y] == if Pos(x, y) in matches then None else old(grid[x, y])
      ensures Snapshot() == Cleared(old(Snapshot()), width, height, set p | p in matches)
    {
      ghost var g := Snapshot();
      for i := 0 to |matches|
        invariant forall x, y :: 0 <= x < width && 0 <= y < height ==>
                    grid[x, y] == if Pos(x, y) in matches[..i] then None else old(grid[x, y])
      {
        var m := matches[i];
        assert m !in matches[..i];
        assert grid[m.x, m.y].Some?;
        grid[m.x, m.y] := None;
        assert matches[..i + 1] == matches[..i] + [m];
      }
      assert matches[..|matches|] == matches;
      Extensionality(Snapshot(), Cleared(g, width, height, set p | p in matches), width, height);
    }

    /** Lets the gems of every column fall, one column after the other. */
    method MakeGemsFall()
      requires WellFormed()
      modifies grid
      ensures Snapshot() == Fallen(old(Snapshot()), width, height)
    {
      ghost var g := Snapshot();
      for x := 0 to width
        invariant forall i, j :: 0 <= i < x && 0 <= j < height ==> grid[i, j] == FallColumn(g[i])[j]
        invariant forall i, j :: x <= i < width && 0 <= j < height ==> grid[i, j] == g[i][j]
      {
        SettleColumn(grid, x, g[x]);
      }
      Extensionality(Snapshot(), Fallen(g, width, height), width, height);
    }

    /** Gravity on column `x`: a single bottom-to-top pass that moves each gem
        down by the number of empty cells counted below it so far. */
    static method SettleColumn(a: array2<Cell>, x: nat, ghost col: seq<Cell>)
      requires x < a.Length0 && |col| == a.Length1
      requires forall j :: 0 <= j < a.Length1 ==> a[x, j] == col[j]
      modifies a
      ensures forall j :: 0 <= j < a.Length1 ==> a[x, j] == FallColumn(col)[j]
      ensures forall i, j :: 0 <= i < a.Length0 && i != x && 0 <= j < a.Length1 ==> a[i, j] == old(a[i, j])
    {
      var shiftDown := 0;
      for y := 0 to a.Length1
        invariant shiftDown == EmptyBelow(col, y)
        invariant forall j :: 0 <= j < y ==> a[x, j] == Settling(col, y)[j]
        invariant forall j :: y <= j < a.Length1 ==> a[x, j] == col[j]
        invariant forall i, j :: 0 <= i < a.Length0 && i != x && 0 <= j < a.Length1 ==> a[i, j] == old(a[i, j])
      {
        SettlingStep(col, y);
        if a[x, y].None? {
          shiftDown := shiftDown + 1;
        } else if shiftDown > 0 {
          a[x, y - shiftDown] := a[x, y];
          a[x, y] := None;
        }
      }
      SettlingDone(col);
    }

    /** Fills every empty cell, column by column and bottom to top within a
        column, each with a type drawn from those the allocator offers
        against the board as filled so far.  Without fallback the pass
        creates no match. */
    method FillEmptySpots()
      requires WellFormed() && |gemTypes| > 0
      modifies grid, this`draws
      ensures FilledInOrder(old(Snapshot()), Snapshot(), width, height, gemTypes)
      ensures Full(Snapshot(), width, height)
      ensures NoFallback(old(Snapshot()), Snapshot(), width, height, gemTypes) ==>
                Matches(Snapshot(), width, height) == Matches(old(Snapshot()), width, height)
      ensures |TypeSet(gemTypes)| >= 5 ==>
                Matches(Snapshot(), width, height) == Matches(old(Snapshot()), width, height)
      ensures Full(old(Snapshot()), width, height) ==> Snapshot() == old(Snapshot()) && draws == old(draws)
    {
      ghost var pre := Snapshot();
      ScanStart(pre, width, height, gemTypes);
      for x := 0 to width
        invariant ScannedUpTo(pre, Snapshot(), width, height, gemTypes, x, 0)
        invariant Full(pre, width, height) ==> Snapshot() == pre && draws == old(draws)
      {
        for y := 0 to height
          invariant ScannedUpTo(pre, Snapshot(), width, height, gemTypes, x, y)
          invariant Full(pre, width, height) ==> Snapshot() == pre && draws == old(draws)
        {
          ghost var cur := Snapshot();
          if grid[x, y].None? {
            CreateGem(x, y, true);
            ScanPlace(pre, cur, width, height, gemTypes, x, y, grid[x, y].value);
          } else {
            ScanKeep(pre, cur, width, height, gemTypes, x, y);
          }
        }
        ScanNextColumn(pre, Snapshot(), width, height, gemTypes, x);
      }
      ScanDone(pre, Snapshot(), width, height, gemTypes);
      FillCompletes(pre, Snapshot(), width, height, gemTypes);
      if |TypeSet(gemTypes)| >= 5 {
        FiveTypesNeverFallBack(pre, Snapshot(), width, height, gemTypes);
      }
      if NoFallback(pre, Snapshot(), width, height, gemTypes) {
        RefillKeepsMatches(pre, Snapshot(), width, height, gemTypes);
      }
    }

    /** Creates a fresh grid and places a gem in every cell, in the same scan
        order as the refill and with the same type checking.  Without
        fallback the initial board has no match, and with five or more
        distinct types there is no fallback. */
    method InitializeGrid()
      requires |gemTypes| > 0
      modifies this`grid, this`draws
      ensures fresh(grid) && WellFormed()
      ensures FilledInOrder(EmptyBoard(width, height), Snapshot(), width, height, gemTypes)
      ensures Full(Snapshot(), width, height)
      ensures NoFallback(EmptyBoard(width, height), Snapshot(), width, height, gemTypes) ==>
                Matches(Snapshot(), width, height) == {}
      ensures |TypeSet(gemTypes)| >= 5 ==> Matches(Snapshot(), width, height) == {}
    {
      grid := new Cell[width, height]((x, y) => None);
      Extensionality(Snapshot(), EmptyBoard(width, height), width, height);
      PopulateGrid();
    }

    /** The loops of `InitializeGrid`: a type-checked gem for every cell of
        the empty grid, column by column, bottom to top. */
    method PopulateGrid()
      requires WellFormed() && |gemTypes| > 0 && Snapshot() == EmptyBoard(width, height)
      modifies grid, this`draws
      ensures FilledInOrder(EmptyBoard(width, height), Snapshot(), width, height, gemTypes)
      ensures Full(Snapshot(), width, height)
      ensures NoFallback(EmptyBoard(width, height), Snapshot(), width, height, gemTypes) ==>
                Matches(Snapshot(), width, height) == {}
      ensures |TypeSet(gemTypes)| >= 5 ==> Matches(Snapshot(), width, height) == {}
    {
      ghost var pre := Snapshot();
      ScanStart(pre, width, height, gemTypes);
      for x := 0 to width
        invariant ScannedUpTo(pre, Snapshot(), width, height, gemTypes, x, 0)
      {
        for y := 0 to height
          invariant ScannedUpTo(pre, Snapshot(), width, height, gemTypes, x, y)
        {
          ghost var cur := Snapshot();
          CreateGem(x, y, true);
          ScanPlace(pre, cur, width, height, gemTypes, x, y, grid[x, y].value);
        }
        ScanNextColumn(pre, Snapshot(), width, height, gemTypes, x);
      }
      ScanDone(pre, Snapshot(), width, height, gemTypes);
      FillCompletes(pre, Snapshot(), width, height, gemTypes);
      if |TypeSet(gemTypes)| >= 5 {
        FiveTypesNeverFallBack(pre, Snapshot(), width, height, gemTypes);
      }
      if NoFallback(pre, Snapshot(), width, height, gemTypes) {
        InitialBoardHasNoMatch(Snapshot(), width, height, gemTypes);
      }
    }

    // -------------------------------------------------------------------------
    // Match detection and the type allocator

    /** The coordinates of every cell in a matching horizontal or vertical
        window, each once, in an unspecified order. */
    method FindMatches() returns (matches: seq<Pos>)
      requires WellFormed()
      ensures forall p :: p in matches <==> p in Matches(Snapshot(), width, height)
      ensures forall i, j :: 0 <= i < j < |matches| ==> matches[i] != matches[j]
    {
      ghost var g := Snapshot();
      var rows := ScanRows(grid, g, width, height);
      var columns := ScanColumns(grid, g, width, height);
      ScanFindsMatches(g, width, height);
      matches := Enumerate(rows + columns);
    }

    /** The horizontal pass of `FindMatches`: every row is scanned left to
        right, and each window of three equal gems adds its three cells. */
    static method ScanRows(a: array2<Cell>, ghost g: Board, width: nat, height: nat)
      returns (found: set<Pos>)
      requires a.Length0 == width && a.Length1 == height && Shaped(g, width, height)
      requires forall x, y :: 0 <= x < width && 0 <= y < height ==> g[x][y] == a[x, y]
      ensures found == AllRowHits(g, width, height, height)
    {
      found := {};
      for y := 0 to height
        invariant found == AllRowHits(g, width, height, y)
      {
        ghost var before := found;
        var x := 0;
        while x < width - 2
          invariant 0 <= x && (x <= width - 2 || x == 0)
          invariant found == before + RowHits(g, width, height, y, x)
        {
          if Trio(a[x, y], a[x + 1, y], a[x + 2, y]) {
            found := found + {Pos(x, y), Pos(x + 1, y), Pos(x + 2, y)};
          }
          x := x + 1;
        }
      }
    }

    /** The vertical pass of `FindMatches`: every column is scanned bottom to
        top, and each window of three equal gems adds its three cells. */
    static method ScanColumns(a: array2<Cell>, ghost g: Board, width: nat, height: nat)
      returns (found: set<Pos>)
      requires a.Length0 == width && a.Length1 == height && Shaped(g, width, height)
      requires forall x, y :: 0 <= x < width && 0 <= y < height ==> g[x][y] == a[x, y]
      ensures found == AllColumnHits(g, width, height, width)
    {
      found := {};
      for x := 0 to width
        invariant found == AllColumnHits(g, width, height, x)
      {
        ghost var before := found;
        var y := 0;
        while y < height - 2
          invariant 0 <= y && (y <= height - 2 || y == 0)
          invariant found == before + ColumnHits(g, width, height, x, y)
        {
          if Trio(a[x, y], a[x, y + 1], a[x, y + 2]) {
            found := found + {Pos(x, y), Pos(x, y + 1), Pos(x, y + 2)};
          }
          y := y + 1;
        }
      }
    }

    /** Placing `typeToCheck` at (x, y) would complete a match with the gems
        now on the board.  Only the six windows through (x, y) are examined,
        and `CompletesMatchWindows` shows that this local test is exact. */
    function WouldCreateMatch(x: int, y: int, typeToCheck: GemType): (r: bool)
      reads this`grid, grid
      requires WellFormed() && InBounds(width, height, Pos(x, y))
      ensures r <==> CompletesMatch(Snapshot(), width, height, Pos(x, y), typeToCheck)
    {
      CompletesMatchWindows(Snapshot(), width, height, x, y, typeToCheck);
      WouldCompleteRow(x, y, typeToCheck) || WouldCompleteColumn(x, y, typeToCheck)
    }

    /** The horizontal half of the test: in one of the three row windows
        through (x, y) the other two cells lie on the board and hold
        `typeToCheck`, which is exactly when placing it there would complete
        a horizontal match. */
    function WouldCompleteRow(x: int, y: int, typeToCheck: GemType): (r: bool)
      reads this`grid, grid
      requires WellFormed() && InBounds(width, height, Pos(x, y))
      ensures r <==> InHRun(Put(Snapshot(), width, height, Pos(x, y), Some(typeToCheck)), width, height, Pos(x, y))
    {
      CompletesRow(Snapshot(), width, height, x, y, typeToCheck);
      var t := Some(typeToCheck);
      || (x >= 2 && grid[x - 2, y] == t && grid[x - 1, y] == t)
      || (x >= 1 && x < width - 1 && grid[x - 1, y] == t && grid[x + 1, y] == t)
      || (x < width - 2 && grid[x + 1, y] == t && grid[x + 2, y] == t)
    }

    /** The vertical half of the test, on the three column windows through
        (x, y): exactly when placing `typeToCheck` there would complete a
        vertical match. */
    function WouldCompleteColumn(x: int, y: int, typeToCheck: GemType): (r: bool)
      reads this`grid, grid
      requires WellFormed() && InBounds(width, height, Pos(x, y))
      ensures r <==> InVRun(Put(Snapshot(), width, height, Pos(x, y), Some(typeToCheck)), width, height, Pos(x, y))
    {
      CompletesColumn(Snapshot(), width, height, x, y, typeToCheck);
      var t := Some(typeToCheck);
      || (y >= 2 && grid[x, y - 2] == t && grid[x, y - 1] == t)
      || (y >= 1 && y < height - 1 && grid[x, y - 1] == t && grid[x, y + 1] == t)
      || (y < height - 2 && grid[x, y + 1] == t && grid[x, y + 2] == t)
    }

    /** The configured types, in order, that would complete no match at
        (x, y); all of them when every type would. */
    method GetValidGemTypes(x: int, y: int) returns (validTypes: seq<GemType>)
      requires WellFormed() && InBounds(width, height, Pos(x, y))
      ensures validTypes == ValidGemTypes(Snapshot(), width, height, Pos(x, y), gemTypes)
    {
      validTypes := [];
      for i := 0 to |gemTypes|
        invariant validTypes == NonMatchingTypes(Snapshot(), width, height, Pos(x, y), gemTypes[..i])
      {
        assert gemTypes[..i + 1][..i] == gemTypes[..i];
        if !WouldCreateMatch(x, y, gemTypes[i]) {
          validTypes := validTypes + [gemTypes[i]];
        }
      }
      assert gemTypes[..|gemTypes|] == gemTypes;
      if |validTypes| == 0 {
        validTypes := validTypes + gemTypes;
      }
    }

    /** Draws an index below `n`, as `Random.Range(0, n)`. */
    method RandomRange(n: nat) returns (i: nat)
      requires n > 0
      modifies this`draws
      ensures i < n && i == random(old(draws), n)
      ensures draws == old(draws) + 1
    {
      i := random(draws, n);
      draws := draws + 1;
    }

    /** Places a new gem at (x, y).  With `checkForMatches` its type is drawn
        from the allocator's valid types, otherwise from all configured types;
        no other cell changes. */
    method CreateGem(x: int, y: int, checkForMatches: bool)
      requires WellFormed() && InBounds(width, height, Pos(x, y)) && |gemTypes| > 0
      modifies grid, this`draws
      ensures draws == old(draws) + 1
      ensures var options := if checkForMatches
                             then ValidGemTypes(old(Snapshot()), width, height, Pos(x, y), gemTypes)
                             else gemTypes;
              grid[x, y] == Some(options[random(old(draws), |options|)])
      ensures grid[x, y].Some?
      ensures checkForMatches ==>
                grid[x, y].value in ValidGemTypes(old(Snapshot()), width, height, Pos(x, y), gemTypes)
      ensures !checkForMatches ==> grid[x, y].value in gemTypes
      ensures Snapshot() == Put(old(Snapshot()), width, height, Pos(x, y), grid[x, y])
    {
      var selectedType: GemType;
      if checkForMatches {
        var validTypes := GetValidGemTypes(x, y);
        var i := RandomRange(|validTypes|);
        selectedType := validTypes[i];
      } else {
        var i := RandomRange(|gemTypes|);
        selectedType := gemTypes[i];
      }
      grid[x, y] := Some(selectedType);
      Extensionality(Snapshot(), Put(old(Snapshot()), width, height, Pos(x, y), grid[x, y]), width, height);
    }
  }
}
