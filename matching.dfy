/** Match detection and the type allocator's avoidance test, on board values.

    A match is a window of three consecutive cells in one row or one column
    whose cells are all occupied by gems of one type.  `Matches` is the set
    of coordinates lying in at least one such window; it is the
    specification of the detector, and `MatchesAreLongRuns` ties it to the
    player's notion of "a run of three or more". */
module Matching {
  import opened Grid

  /** Three cells match when all are occupied and share one type; an empty
      cell anywhere disqualifies the window. */
  predicate Trio(a: Cell, b: Cell, c: Cell)
  {
    a.Some? && b.Some? && c.Some? && a.value == b.value && b.value == c.value
  }

  /** The horizontal window (x, y), (x+1, y), (x+2, y) lies on the board and matches. */
  predicate HRun(g: Board, w: nat, h: nat, x: int, y: int)
    requires Shaped(g, w, h)
  {
    0 <= x && x + 2 < w && 0 <= y < h && Trio(g[x][y], g[x + 1][y], g[x + 2][y])
  }

  /** The vertical window (x, y), (x, y+1), (x, y+2) lies on the board and matches. */
  predicate VRun(g: Board, w: nat, h: nat, x: int, y: int)
    requires Shaped(g, w, h)
  {
    0 <= x < w && 0 <= y && y + 2 < h && Trio(g[x][y], g[x][y + 1], g[x][y + 2])
  }

  /** `p` lies in one of the three horizontal windows through it that match. */
  predicate InHRun(g: Board, w: nat, h: nat, p: Pos)
    requires Shaped(g, w, h)
  {
    HRun(g, w, h, p.x - 2, p.y) || HRun(g, w, h, p.x - 1, p.y) || HRun(g, w, h, p.x, p.y)
  }

  /** `p` lies in one of the three vertical windows through it that match. */
  predicate InVRun(g: Board, w: nat, h: nat, p: Pos)
    requires Shaped(g, w, h)
  {
    VRun(g, w, h, p.x, p.y - 2) || VRun(g, w, h, p.x, p.y - 1) || VRun(g, w, h, p.x, p.y)
  }

  /** The coordinates that lie in some matching horizontal or vertical window. */
  ghost function Matches(g: Board, w: nat, h: nat): (r: set<Pos>)
    requires Shaped(g, w, h)
  {
    set p | p in AllPositions(w, h) && (InHRun(g, w, h, p) || InVRun(g, w, h, p))
  }

  // ---------------------------------------------------------------------------
  // Reference definition: lengths of maximal runs

  /** How many cells immediately left of column `x` in row `y` hold type `t`. */
  function RunLeft(g: Board, w: nat, h: nat, x: int, y: int, t: GemType): (r: nat)
    requires Shaped(g, w, h) && 0 <= y < h
    decreases x
  {
    if x <= 0 || x > w then 0
    else if g[x - 1][y] == Some(t) then 1 + RunLeft(g, w, h, x - 1, y, t)
    else 0
  }

  /** How many cells immediately right of column `x` in row `y` hold type `t`. */
  function RunRight(g: Board, w: nat, h: nat, x: int, y: int, t: GemType): (r: nat)
    requires Shaped(g, w, h) && 0 <= y < h
    decreases w - x
  {
    if x < -1 || x + 1 >= w then 0
    else if g[x + 1][y] == Some(t) then 1 + RunRight(g, w, h, x + 1, y, t)
    else 0
  }

  /** How many cells immediately below row `y` in column `x` hold type `t`. */
  function RunDown(g: Board, w: nat, h: nat, x: int, y: int, t: GemType): (r: nat)
    requires Shaped(g, w, h) && 0 <= x < w
    decreases y
  {
    if y <= 0 || y > h then 0
    else if g[x][y - 1] == Some(t) then 1 + RunDown(g, w, h, x, y - 1, t)
    else 0
  }

  /** How many cells immediately above row `y` in column `x` hold type `t`. */
  function RunUp(g: Board, w: nat, h: nat, x: int, y: int, t: GemType): (r: nat)
    requires Shaped(g, w, h) && 0 <= x < w
    decreases h - y
  {
    if y < -1 || y + 1 >= h then 0
    else if g[x][y + 1] == Some(t) then 1 + RunUp(g, w, h, x, y + 1, t)
    else 0
  }

  /** Length of the maximal horizontal run of equal gems through `p` (0 if empty). */
  function RowRun(g: Board, w: nat, h: nat, p: Pos): (r: nat)
    requires Shaped(g, w, h) && InBounds(w, h, p)
  {
    match g[p.x][p.y]
    case None => 0
    case Some(t) => RunLeft(g, w, h, p.x, p.y, t) + 1 + RunRight(g, w, h, p.x, p.y, t)
  }

  /** Length of the maximal vertical run of equal gems through `p` (0 if empty). */
  function ColumnRun(g: Board, w: nat, h: nat, p: Pos): (r: nat)
    requires Shaped(g, w, h) && InBounds(w, h, p)
  {
    match g[p.x][p.y]
    case None => 0
    case Some(t) => RunDown(g, w, h, p.x, p.y, t) + 1 + RunUp(g, w, h, p.x, p.y, t)
  }

  lemma {:induction false} RunLeftCovers(g: Board, w: nat, h: nat, x: int, y: int, t: GemType, k: nat)
    requires Shaped(g, w, h) && 0 <= x < w && 0 <= y < h
    ensures RunLeft(g, w, h, x, y, t) >= k <==>
              k <= x && forall i :: x - k <= i < x ==> g[i][y] == Some(t)
  {
    if k > 0 && x > 0 {
      RunLeftCovers(g, w, h, x - 1, y, t, k - 1);
    }
  }

  lemma {:induction false} RunRightCovers(g: Board, w: nat, h: nat, x: int, y: int, t: GemType, k: nat)
    requires Shaped(g, w, h) && 0 <= x < w && 0 <= y < h
    ensures RunRight(g, w, h, x, y, t) >= k <==>
              x + k < w && forall i :: x < i <= x + k ==> g[i][y] == Some(t)
    decreases w - x
  {
    if k > 0 && x + 1 < w {
      RunRightCovers(g, w, h, x + 1, y, t, k - 1);
    }
  }

  lemma {:induction false} RunDownCovers(g: Board, w: nat, h: nat, x: int, y: int, t: GemType, k: nat)
    requires Shaped(g, w, h) && 0 <= x < w && 0 <= y < h
    ensures RunDown(g, w, h, x, y, t) >= k <==>
              k <= y && forall j :: y - k <= j < y ==> g[x][j] == Some(t)
  {
    if k > 0 && y > 0 {
      RunDownCovers(g, w, h, x, y - 1, t, k - 1);
    }
  }

  lemma {:induction false} RunUpCovers(g: Board, w: nat, h: nat, x: int, y: int, t: GemType, k: nat)
    requires Shaped(g, w, h) && 0 <= x < w && 0 <= y < h
    ensures RunUp(g, w, h, x, y, t) >= k <==>
              y + k < h && forall j :: y < j <= y + k ==> g[x][j] == Some(t)
    decreases h - y
  {
    if k > 0 && y + 1 < h {
      RunUpCovers(g, w, h, x, y + 1, t, k - 1);
    }
  }

  /** A cell is in a matching horizontal window iff its maximal horizontal run is at least 3 long. */
  lemma RowRunMatches(g: Board, w: nat, h: nat, p: Pos)
    requires Shaped(g, w, h) && InBounds(w, h, p)
    ensures InHRun(g, w, h, p) <==> RowRun(g, w, h, p) >= 3
  {
    if g[p.x][p.y].Some? {
      var t := g[p.x][p.y].value;
      RunLeftCovers(g, w, h, p.x, p.y, t, 1);
      RunLeftCovers(g, w, h, p.x, p.y, t, 2);
      RunRightCovers(g, w, h, p.x, p.y, t, 1);
      RunRightCovers(g, w, h, p.x, p.y, t, 2);
    }
  }

  /** A cell is in a matching vertical window iff its maximal vertical run is at least 3 long. */
  lemma ColumnRunMatches(g: Board, w: nat, h: nat, p: Pos)
    requires Shaped(g, w, h) && InBounds(w, h, p)
    ensures InVRun(g, w, h, p) <==> ColumnRun(g, w, h, p) >= 3
  {
    if g[p.x][p.y].Some? {
      var t := g[p.x][p.y].value;
      RunDownCovers(g, w, h, p.x, p.y, t, 1);
      RunDownCovers(g, w, h, p.x, p.y, t, 2);
      RunUpCovers(g, w, h, p.x, p.y, t, 1);
      RunUpCovers(g, w, h, p.x, p.y, t, 2);
    }
  }

  /** The detector's window scan finds exactly the cells of maximal runs of
      three or more equal gems in a row or a column; runs longer than three
      are covered by their overlapping windows. */
  lemma MatchesAreLongRuns(g: Board, w: nat, h: nat, p: Pos)
    requires Shaped(g, w, h)
    ensures p in Matches(g, w, h) <==>
              InBounds(w, h, p) && (RowRun(g, w, h, p) >= 3 || ColumnRun(g, w, h, p) >= 3)
  {
    if InBounds(w, h, p) {
      RowRunMatches(g, w, h, p);
      ColumnRunMatches(g, w, h, p);
    }
  }

  /** A board whose runs are at most pairs has no match: no false positives on runs of two. */
  lemma PairsOnlyNoMatch(g: Board, w: nat, h: nat)
    requires Shaped(g, w, h)
    requires forall p :: InBounds(w, h, p) ==> RowRun(g, w, h, p) <= 2 && ColumnRun(g, w, h, p) <= 2
    ensures Matches(g, w, h) == {}
  {
    forall p | p in Matches(g, w, h)
      ensures false
    {
      MatchesAreLongRuns(g, w, h, p);
    }
  }

  /** A cell that is in a match is occupied. */
  lemma MatchedCellsOccupied(g: Board, w: nat, h: nat, p: Pos)
    requires Shaped(g, w, h) && p in Matches(g, w, h)
    ensures InBounds(w, h, p) && g[p.x][p.y].Some?
  {
  }

  // ---------------------------------------------------------------------------
  // The detector's window scan

  /** The cells of the matching horizontal windows of row `y` whose leftmost
      cell lies left of column `n`: what the row scan has found after its
      first `n` windows. */
  ghost function RowHits(g: Board, w: nat, h: nat, y: int, n: int): (r: set<Pos>)
    requires Shaped(g, w, h)
    decreases n
  {
    if n <= 0 then {}
    else
      RowHits(g, w, h, y, n - 1) +
      (if HRun(g, w, h, n - 1, y) then {Pos(n - 1, y), Pos(n, y), Pos(n + 1, y)} else {})
  }

  lemma {:induction false} RowHitsCover(g: Board, w: nat, h: nat, y: int, n: int, p: Pos)
    requires Shaped(g, w, h)
    ensures p in RowHits(g, w, h, y, n) <==>
              p.y == y && ((p.x - 2 < n && HRun(g, w, h, p.x - 2, y)) ||
                           (p.x - 1 < n && HRun(g, w, h, p.x - 1, y)) ||
                           (p.x < n && HRun(g, w, h, p.x, y)))
    decreases n
  {
    if n > 0 {
      RowHitsCover(g, w, h, y, n - 1, p);
    }
  }

  /** The cells found by scanning every window of the rows below `m`. */
  ghost function AllRowHits(g: Board, w: nat, h: nat, m: int): (r: set<Pos>)
    requires Shaped(g, w, h)
    decreases m
  {
    if m <= 0 then {} else AllRowHits(g, w, h, m - 1) + RowHits(g, w, h, m - 1, w - 2)
  }

  lemma {:induction false} AllRowHitsCover(g: Board, w: nat, h: nat, m: int, p: Pos)
    requires Shaped(g, w, h)
    ensures p in AllRowHits(g, w, h, m) <==> p.y < m && InHRun(g, w, h, p)
    decreases m
  {
    if m > 0 {
      AllRowHitsCover(g, w, h, m - 1, p);
      RowHitsCover(g, w, h, m - 1, w - 2, p);
    }
  }

  /** The cells of the matching vertical windows of column `x` whose lowest
      cell lies below row `n`. */
  ghost function ColumnHits(g: Board, w: nat, h: nat, x: int, n: int): (r: set<Pos>)
    requires Shaped(g, w, h)
    decreases n
  {
    if n <= 0 then {}
    else
      ColumnHits(g, w, h, x, n - 1) +
      (if VRun(g, w, h, x, n - 1) then {Pos(x, n - 1), Pos(x, n), Pos(x, n + 1)} else {})
  }

  lemma {:induction false} ColumnHitsCover(g: Board, w: nat, h: nat, x: int, n: int, p: Pos)
    requires Shaped(g, w, h)
    ensures p in ColumnHits(g, w, h, x, n) <==>
              p.x == x && ((p.y - 2 < n && VRun(g, w, h, x, p.y - 2)) ||
                           (p.y - 1 < n && VRun(g, w, h, x, p.y - 1)) ||
                           (p.y < n && VRun(g, w, h, x, p.y)))
    decreases n
  {
    if n > 0 {
      ColumnHitsCover(g, w, h, x, n - 1, p);
    }
  }

  /** The cells found by scanning every window of the columns left of `m`. */
  ghost function AllColumnHits(g: Board, w: nat, h: nat, m: int): (r: set<Pos>)
    requires Shaped(g, w, h)
    decreases m
  {
    if m <= 0 then {} else AllColumnHits(g, w, h, m - 1) + ColumnHits(g, w, h, m - 1, h - 2)
  }

  lemma {:induction false} AllColumnHitsCover(g: Board, w: nat, h: nat, m: int, p: Pos)
    requires Shaped(g, w, h)
    ensures p in AllColumnHits(g, w, h, m) <==> p.x < m && InVRun(g, w, h, p)
    decreases m
  {
    if m > 0 {
      AllColumnHitsCover(g, w, h, m - 1, p);
      ColumnHitsCover(g, w, h, m - 1, h - 2, p);
    }
  }

  /** Scanning every horizontal and then every vertical window finds exactly
      the matched cells. */
  lemma ScanFindsMatches(g: Board, w: nat, h: nat)
    requires Shaped(g, w, h)
    ensures AllRowHits(g, w, h, h) + AllColumnHits(g, w, h, w) == Matches(g, w, h)
  {
    forall p
      ensures p in AllRowHits(g, w, h, h) + AllColumnHits(g, w, h, w) <==> p in Matches(g, w, h)
    {
      AllRowHitsCover(g, w, h, h, p);
      AllColumnHitsCover(g, w, h, w, p);
    }
  }

  // ---------------------------------------------------------------------------
  // The allocator's test

  /** Placing a gem of type `t` at `p` would put `p` inside a match. */
  ghost predicate CompletesMatch(g: Board, w: nat, h: nat, p: Pos, t: GemType)
    requires Shaped(g, w, h) && InBounds(w, h, p)
  {
    p in Matches(Put(g, w, h, p, Some(t)), w, h)
  }

  /** Cells (i1, j1) and (i2, j2) both hold a gem of type `t`. */
  predicate BothHold(g: Board, w: nat, h: nat, i1: int, j1: int, i2: int, j2: int, t: GemType)
    requires Shaped(g, w, h) && InBounds(w, h, Pos(i1, j1)) && InBounds(w, h, Pos(i2, j2))
  {
    g[i1][j1] == Some(t) && g[i2][j2] == Some(t)
  }

  /** In one of the three horizontal windows through (x, y), the two cells
      other than (x, y) hold `t`; the guards keep every cell on the board. */
  predicate FlankedInRow(g: Board, w: nat, h: nat, x: int, y: int, t: GemType)
    requires Shaped(g, w, h) && InBounds(w, h, Pos(x, y))
  {
    || (x >= 2 && BothHold(g, w, h, x - 2, y, x - 1, y, t))
    || (x >= 1 && x < w - 1 && BothHold(g, w, h, x - 1, y, x + 1, y, t))
    || (x < w - 2 && BothHold(g, w, h, x + 1, y, x + 2, y, t))
  }

  /** In one of the three vertical windows through (x, y), the two cells
      other than (x, y) hold `t`. */
  predicate FlankedInColumn(g: Board, w: nat, h: nat, x: int, y: int, t: GemType)
    requires Shaped(g, w, h) && InBounds(w, h, Pos(x, y))
  {
    || (y >= 2 && BothHold(g, w, h, x, y - 2, x, y - 1, t))
    || (y >= 1 && y < h - 1 && BothHold(g, w, h, x, y - 1, x, y + 1, t))
    || (y < h - 2 && BothHold(g, w, h, x, y + 1, x, y + 2, t))
  }

  /** Placing `t` at (x, y) completes a horizontal match exactly when (x, y)
      is flanked by two gems of type `t` in its row. */
  lemma CompletesRow(g: Board, w: nat, h: nat, x: int, y: int, t: GemType)
    requires Shaped(g, w, h) && InBounds(w, h, Pos(x, y))
    ensures InHRun(Put(g, w, h, Pos(x, y), Some(t)), w, h, Pos(x, y)) <==> FlankedInRow(g, w, h, x, y, t)
  {
    var g' := Put(g, w, h, Pos(x, y), Some(t));
    assert HRun(g', w, h, x - 2, y) <==> x >= 2 && BothHold(g, w, h, x - 2, y, x - 1, y, t);
    assert HRun(g', w, h, x - 1, y) <==> x >= 1 && x < w - 1 && BothHold(g, w, h, x - 1, y, x + 1, y, t);
    assert HRun(g', w, h, x, y) <==> x < w - 2 && BothHold(g, w, h, x + 1, y, x + 2, y, t);
  }

  /** Placing `t` at (x, y) completes a vertical match exactly when (x, y)
      is flanked by two gems of type `t` in its column. */
  lemma CompletesColumn(g: Board, w: nat, h: nat, x: int, y: int, t: GemType)
    requires Shaped(g, w, h) && InBounds(w, h, Pos(x, y))
    ensures InVRun(Put(g, w, h, Pos(x, y), Some(t)), w, h, Pos(x, y)) <==> FlankedInColumn(g, w, h, x, y, t)
  {
    var g' := Put(g, w, h, Pos(x, y), Some(t));
    assert VRun(g', w, h, x, y - 2) <==> y >= 2 && BothHold(g, w, h, x, y - 2, x, y - 1, t);
    assert VRun(g', w, h, x, y - 1) <==> y >= 1 && y < h - 1 && BothHold(g, w, h, x, y - 1, x, y + 1, t);
    assert VRun(g', w, h, x, y) <==> y < h - 2 && BothHold(g, w, h, x, y + 1, x, y + 2, t);
  }

  /** The allocator's local test is complete: placing `t` at (x, y) completes
      a match exactly when (x, y) is flanked by two gems of type `t` in its
      row or in its column. */
  lemma CompletesMatchWindows(g: Board, w: nat, h: nat, x: int, y: int, t: GemType)
    requires Shaped(g, w, h) && InBounds(w, h, Pos(x, y))
    ensures CompletesMatch(g, w, h, Pos(x, y), t) <==>
              FlankedInRow(g, w, h, x, y, t) || FlankedInColumn(g, w, h, x, y, t)
  {
    assert Pos(x, y) in AllPositions(w, h);
    CompletesRow(g, w, h, x, y, t);
    CompletesColumn(g, w, h, x, y, t);
  }

  /** The types of `types`, in order, whose placement at `p` completes no match. */
  ghost function NonMatchingTypes(g: Board, w: nat, h: nat, p: Pos, types: seq<GemType>): (r: seq<GemType>)
    requires Shaped(g, w, h) && InBounds(w, h, p)
    ensures forall t :: t in r <==> t in types && !CompletesMatch(g, w, h, p, t)
    ensures |r| <= |types|
    decreases |types|
  {
    if types == [] then []
    else
      var rest := NonMatchingTypes(g, w, h, p, types[..|types| - 1]);
      var t := types[|types| - 1];
      assert types == types[..|types| - 1] + [t];
      if CompletesMatch(g, w, h, p, t) then rest else rest + [t]
  }

  /** Some type of `types` can be placed at `p` without completing a match. */
  ghost predicate HasSafeType(g: Board, w: nat, h: nat, p: Pos, types: seq<GemType>)
    requires Shaped(g, w, h) && InBounds(w, h, p)
  {
    exists t :: t in types && !CompletesMatch(g, w, h, p, t)
  }

  /** The types the allocator may choose from at `p`: those that complete no
      match, or, when every type would, all of them. */
  ghost function ValidGemTypes(g: Board, w: nat, h: nat, p: Pos, types: seq<GemType>): (r: seq<GemType>)
    requires Shaped(g, w, h) && InBounds(w, h, p)
    ensures forall t :: t in r ==> t in types
    ensures |types| > 0 ==> |r| > 0
    ensures HasSafeType(g, w, h, p, types) ==>
              forall t :: t in r <==> t in types && !CompletesMatch(g, w, h, p, t)
    ensures (forall t :: t in types ==> CompletesMatch(g, w, h, p, t)) ==> r == types
  {
    var safe := NonMatchingTypes(g, w, h, p, types);
    if |safe| == 0 then types else assert safe[0] in safe; safe
  }

  // ---------------------------------------------------------------------------
  // When the allocator cannot fall back

  /** The distinct types of a list. */
  function TypeSet(types: seq<GemType>): (r: set<GemType>)
    ensures forall t :: t in r <==> t in types
  {
    set t | t in types
  }

  /** The type of the gem at (i, j), if (i, j) is on the board and occupied. */
  function TypeAt(g: Board, w: nat, h: nat, i: int, j: int): (r: set<GemType>)
    requires Shaped(g, w, h)
    ensures |r| <= 1
    ensures forall t :: t in r <==> InBounds(w, h, Pos(i, j)) && g[i][j] == Some(t)
  {
    if InBounds(w, h, Pos(i, j)) && g[i][j].Some? then {g[i][j].value} else {}
  }

  /** The types of the gems orthogonally next to (x, y); there are at most four. */
  function NeighbourTypes(g: Board, w: nat, h: nat, x: int, y: int): (r: set<GemType>)
    requires Shaped(g, w, h)
    ensures |r| <= 4
  {
    var left, right := TypeAt(g, w, h, x - 1, y), TypeAt(g, w, h, x + 1, y);
    var below, above := TypeAt(g, w, h, x, y - 1), TypeAt(g, w, h, x, y + 1);
    assert |left + right| <= 2;
    assert |left + right + below| <= 3;
    left + right + below + above
  }

  /** Every window through (x, y) contains one of its four neighbours, so only
      a neighbour's type can complete a match there. */
  lemma OnlyNeighbourTypesBlocked(g: Board, w: nat, h: nat, x: int, y: int, t: GemType)
    requires Shaped(g, w, h) && InBounds(w, h, Pos(x, y))
    ensures CompletesMatch(g, w, h, Pos(x, y), t) ==> t in NeighbourTypes(g, w, h, x, y)
  {
    CompletesMatchWindows(g, w, h, x, y, t);
  }

  /** With at least five distinct types some type is always safe, so the
      allocator never falls back to the full list, whatever the board. */
  lemma FiveTypesSuffice(g: Board, w: nat, h: nat, p: Pos, types: seq<GemType>)
    requires Shaped(g, w, h) && InBounds(w, h, p)
    requires |TypeSet(types)| >= 5
    ensures HasSafeType(g, w, h, p, types)
  {
    var blocked := NeighbourTypes(g, w, h, p.x, p.y);
    var free := TypeSet(types) - blocked;
    assert |TypeSet(types)| <= |free| + |blocked| by {
      assert TypeSet(types) <= free + blocked;
    }
    var t :| t in free;
    OnlyNeighbourTypesBlocked(g, w, h, p.x, p.y, t);
    assert Pos(p.x, p.y) == p;
  }
}
