/** What one refill pass guarantees.

    The refill visits the board column by column from column 0, each column
    from row 0 upwards, and places a new gem in every empty cell it meets.
    The type comes from the allocator, consulted against the board as filled
    so far.  The main result, `RefillKeepsMatches`, is that such a pass never
    creates a match, unless the allocator had to fall back to the full type
    list: in every window the last cell filled was checked against the two
    cells filled or kept before it. */
module Refill {
  import opened Grid
  import opened Matching

  /** Cell (i, j) is visited before cell (x, y) by the fill scan. */
  predicate VisitedBefore(i: int, j: int, x: int, y: int)
  {
    i < x || (i == x && j < y)
  }

  /** The board the allocator sees when the scan reaches `p`: visited cells
      hold their value after the pass, the others their value before it. */
  ghost function SeenAt(pre: Board, post: Board, w: nat, h: nat, p: Pos): (r: Board)
    requires Shaped(pre, w, h) && Shaped(post, w, h)
    ensures Shaped(r, w, h)
    ensures forall i, j :: 0 <= i < w && 0 <= j < h ==>
              r[i][j] == if VisitedBefore(i, j, p.x, p.y) then post[i][j] else pre[i][j]
  {
    seq(w, i requires 0 <= i < w =>
      seq(h, j requires 0 <= j < h =>
        if VisitedBefore(i, j, p.x, p.y) then post[i][j] else pre[i][j]))
  }

  /** Cell (x, y), if occupied before the scan, is unchanged by it. */
  ghost predicate KeptCell(pre: Board, post: Board, w: nat, h: nat, x: int, y: int)
    requires Shaped(pre, w, h) && Shaped(post, w, h) && 0 <= x < w && 0 <= y < h
  {
    pre[x][y].Some? ==> post[x][y] == pre[x][y]
  }

  /** Cell (x, y), if empty before the scan, receives a type the allocator
      offers against the board as filled so far. */
  ghost predicate ChosenCell(pre: Board, post: Board, w: nat, h: nat, types: seq<GemType>, x: int, y: int)
    requires Shaped(pre, w, h) && Shaped(post, w, h) && 0 <= x < w && 0 <= y < h
  {
    pre[x][y].None? ==>
      post[x][y].Some? &&
      post[x][y].value in ValidGemTypes(SeenAt(pre, post, w, h, Pos(x, y)), w, h, Pos(x, y), types)
  }

  /** `post` is the result of one fill scan over `pre`: occupied cells are left
      alone, and every empty cell receives a type the allocator offers against
      the board as filled so far. */
  ghost predicate FilledInOrder(pre: Board, post: Board, w: nat, h: nat, types: seq<GemType>)
    requires Shaped(pre, w, h) && Shaped(post, w, h)
  {
    && (forall x, y :: 0 <= x < w && 0 <= y < h ==> KeptCell(pre, post, w, h, x, y))
    && (forall x, y :: 0 <= x < w && 0 <= y < h ==> ChosenCell(pre, post, w, h, types, x, y))
  }

  /** At empty cell (x, y) the allocator did not have to fall back to the full type list. */
  ghost predicate SafeCell(pre: Board, post: Board, w: nat, h: nat, types: seq<GemType>, x: int, y: int)
    requires Shaped(pre, w, h) && Shaped(post, w, h) && 0 <= x < w && 0 <= y < h
  {
    pre[x][y].None? ==> HasSafeType(SeenAt(pre, post, w, h, Pos(x, y)), w, h, Pos(x, y), types)
  }

  /** At no empty cell did the allocator have to fall back to the full type list. */
  ghost predicate NoFallback(pre: Board, post: Board, w: nat, h: nat, types: seq<GemType>)
    requires Shaped(pre, w, h) && Shaped(post, w, h)
  {
    forall x, y :: 0 <= x < w && 0 <= y < h ==> SafeCell(pre, post, w, h, types, x, y)
  }

  /** After a fill scan the board is full and the cells that were occupied are unchanged. */
  lemma FillCompletes(pre: Board, post: Board, w: nat, h: nat, types: seq<GemType>)
    requires Shaped(pre, w, h) && Shaped(post, w, h)
    requires FilledInOrder(pre, post, w, h, types)
    ensures Full(post, w, h)
    ensures forall x, y :: 0 <= x < w && 0 <= y < h && pre[x][y].Some? ==> post[x][y] == pre[x][y]
  {
    forall x, y | 0 <= x < w && 0 <= y < h
      ensures post[x][y].Some? && (pre[x][y].Some? ==> post[x][y] == pre[x][y])
    {
      assert KeptCell(pre, post, w, h, x, y);
      assert ChosenCell(pre, post, w, h, types, x, y);
    }
  }

  /** A gem placed without fallback does not lie in a match of the board as it
      stood right after its placement. */
  lemma PlacedGemIsSafe(pre: Board, post: Board, w: nat, h: nat, types: seq<GemType>, q: Pos)
    requires Shaped(pre, w, h) && Shaped(post, w, h) && InBounds(w, h, q)
    requires FilledInOrder(pre, post, w, h, types) && NoFallback(pre, post, w, h, types)
    requires pre[q.x][q.y].None?
    ensures post[q.x][q.y].Some?
    ensures !CompletesMatch(SeenAt(pre, post, w, h, q), w, h, q, post[q.x][q.y].value)
  {
    assert Pos(q.x, q.y) == q;
    assert ChosenCell(pre, post, w, h, types, q.x, q.y);
    assert SafeCell(pre, post, w, h, types, q.x, q.y);
  }

  /** If the other two cells of a horizontal window through `q` kept their
      value or were visited before `q`, and the window matches after the scan,
      then the gem at `q` completed that match when it was placed. */
  lemma HorizontalWindowCompleted(pre: Board, post: Board, w: nat, h: nat, sx: int, sy: int, q: Pos)
    requires Shaped(pre, w, h) && Shaped(post, w, h)
    requires HRun(post, w, h, sx, sy) && q.y == sy && sx <= q.x <= sx + 2
    requires forall i :: sx <= i <= sx + 2 && i != q.x ==>
               VisitedBefore(i, sy, q.x, q.y) || pre[i][sy] == post[i][sy]
    ensures post[q.x][q.y].Some?
    ensures CompletesMatch(SeenAt(pre, post, w, h, q), w, h, q, post[q.x][q.y].value)
  {
    var g := Put(SeenAt(pre, post, w, h, q), w, h, q, post[q.x][q.y]);
    assert forall i :: sx <= i <= sx + 2 ==> g[i][sy] == post[i][sy];
    assert HRun(g, w, h, sx, sy);
    assert InHRun(g, w, h, q);
    assert q in Matches(g, w, h);
  }

  /** The vertical counterpart of `HorizontalWindowCompleted`. */
  lemma VerticalWindowCompleted(pre: Board, post: Board, w: nat, h: nat, sx: int, sy: int, q: Pos)
    requires Shaped(pre, w, h) && Shaped(post, w, h)
    requires VRun(post, w, h, sx, sy) && q.x == sx && sy <= q.y <= sy + 2
    requires forall j :: sy <= j <= sy + 2 && j != q.y ==>
               VisitedBefore(sx, j, q.x, q.y) || pre[sx][j] == post[sx][j]
    ensures post[q.x][q.y].Some?
    ensures CompletesMatch(SeenAt(pre, post, w, h, q), w, h, q, post[q.x][q.y].value)
  {
    var g := Put(SeenAt(pre, post, w, h, q), w, h, q, post[q.x][q.y]);
    assert forall j :: sy <= j <= sy + 2 ==> g[sx][j] == post[sx][j];
    assert VRun(g, w, h, sx, sy);
    assert InVRun(g, w, h, q);
    assert q in Matches(g, w, h);
  }

  /** A horizontal window that matches after the scan already matched before
      it.  Otherwise consider its last cell the scan filled: the other two were
      filled earlier or kept, so that gem completed the match when placed,
      which the allocator rules out. */
  lemma HorizontalMatchSurvives(pre: Board, post: Board, w: nat, h: nat, types: seq<GemType>,
                                sx: int, sy: int)
    requires Shaped(pre, w, h) && Shaped(post, w, h)
    requires FilledInOrder(pre, post, w, h, types) && NoFallback(pre, post, w, h, types)
    requires HRun(post, w, h, sx, sy)
    ensures HRun(pre, w, h, sx, sy)
  {
    assert KeptCell(pre, post, w, h, sx, sy);
    assert KeptCell(pre, post, w, h, sx + 1, sy);
    assert KeptCell(pre, post, w, h, sx + 2, sy);
    if pre[sx + 2][sy].None? {
      HorizontalWindowCompleted(pre, post, w, h, sx, sy, Pos(sx + 2, sy));
      PlacedGemIsSafe(pre, post, w, h, types, Pos(sx + 2, sy));
    } else if pre[sx + 1][sy].None? {
      HorizontalWindowCompleted(pre, post, w, h, sx, sy, Pos(sx + 1, sy));
      PlacedGemIsSafe(pre, post, w, h, types, Pos(sx + 1, sy));
    } else if pre[sx][sy].None? {
      HorizontalWindowCompleted(pre, post, w, h, sx, sy, Pos(sx, sy));
      PlacedGemIsSafe(pre, post, w, h, types, Pos(sx, sy));
    }
  }

  /** The vertical counterpart of `HorizontalMatchSurvives`. */
  lemma VerticalMatchSurvives(pre: Board, post: Board, w: nat, h: nat, types: seq<GemType>,
                              sx: int, sy: int)
    requires Shaped(pre, w, h) && Shaped(post, w, h)
    requires FilledInOrder(pre, post, w, h, types) && NoFallback(pre, post, w, h, types)
    requires VRun(post, w, h, sx, sy)
    ensures VRun(pre, w, h, sx, sy)
  {
    assert KeptCell(pre, post, w, h, sx, sy);
    assert KeptCell(pre, post, w, h, sx, sy + 1);
    assert KeptCell(pre, post, w, h, sx, sy + 2);
    if pre[sx][sy + 2].None? {
      VerticalWindowCompleted(pre, post, w, h, sx, sy, Pos(sx, sy + 2));
      PlacedGemIsSafe(pre, post, w, h, types, Pos(sx, sy + 2));
    } else if pre[sx][sy + 1].None? {
      VerticalWindowCompleted(pre, post, w, h, sx, sy, Pos(sx, sy + 1));
      PlacedGemIsSafe(pre, post, w, h, types, Pos(sx, sy + 1));
    } else if pre[sx][sy].None? {
      VerticalWindowCompleted(pre, post, w, h, sx, sy, Pos(sx, sy));
      PlacedGemIsSafe(pre, post, w, h, types, Pos(sx, sy));
    }
  }

  /** A window that matched before the scan holds only kept cells, so it still matches. */
  lemma MatchesAreKept(pre: Board, post: Board, w: nat, h: nat, types: seq<GemType>, sx: int, sy: int)
    requires Shaped(pre, w, h) && Shaped(post, w, h)
    requires FilledInOrder(pre, post, w, h, types)
    ensures HRun(pre, w, h, sx, sy) ==> HRun(post, w, h, sx, sy)
    ensures VRun(pre, w, h, sx, sy) ==> VRun(post, w, h, sx, sy)
  {
    if HRun(pre, w, h, sx, sy) {
      assert KeptCell(pre, post, w, h, sx, sy);
      assert KeptCell(pre, post, w, h, sx + 1, sy);
      assert KeptCell(pre, post, w, h, sx + 2, sy);
    }
    if VRun(pre, w, h, sx, sy) {
      assert KeptCell(pre, post, w, h, sx, sy);
      assert KeptCell(pre, post, w, h, sx, sy + 1);
      assert KeptCell(pre, post, w, h, sx, sy + 2);
    }
  }

  /** A refill pass without fallback creates no match: the matches after it
      are exactly the matches before it. */
  lemma RefillKeepsMatches(pre: Board, post: Board, w: nat, h: nat, types: seq<GemType>)
    requires Shaped(pre, w, h) && Shaped(post, w, h)
    requires FilledInOrder(pre, post, w, h, types) && NoFallback(pre, post, w, h, types)
    ensures Matches(post, w, h) == Matches(pre, w, h)
  {
    forall sx: int, sy: int
      ensures HRun(post, w, h, sx, sy) <==> HRun(pre, w, h, sx, sy)
      ensures VRun(post, w, h, sx, sy) <==> VRun(pre, w, h, sx, sy)
    {
      if HRun(post, w, h, sx, sy) {
        HorizontalMatchSurvives(pre, post, w, h, types, sx, sy);
      }
      if VRun(post, w, h, sx, sy) {
        VerticalMatchSurvives(pre, post, w, h, types, sx, sy);
      }
      MatchesAreKept(pre, post, w, h, types, sx, sy);
    }
  }

  /** Filling an empty board without fallback yields a full board with no match. */
  lemma InitialBoardHasNoMatch(post: Board, w: nat, h: nat, types: seq<GemType>)
    requires Shaped(post, w, h)
    requires FilledInOrder(EmptyBoard(w, h), post, w, h, types)
    requires NoFallback(EmptyBoard(w, h), post, w, h, types)
    ensures Full(post, w, h)
    ensures Matches(post, w, h) == {}
  {
    FillCompletes(EmptyBoard(w, h), post, w, h, types);
    RefillKeepsMatches(EmptyBoard(w, h), post, w, h, types);
  }

  /** With at least five distinct types the allocator never falls back,
      whatever the pass visits. */
  lemma FiveTypesNeverFallBack(pre: Board, post: Board, w: nat, h: nat, types: seq<GemType>)
    requires Shaped(pre, w, h) && Shaped(post, w, h) && |TypeSet(types)| >= 5
    ensures NoFallback(pre, post, w, h, types)
  {
    forall x, y | 0 <= x < w && 0 <= y < h
      ensures SafeCell(pre, post, w, h, types, x, y)
    {
      FiveTypesSuffice(SeenAt(pre, post, w, h, Pos(x, y)), w, h, Pos(x, y), types);
    }
  }

  // ---------------------------------------------------------------------------
  // The scan, one cell at a time

  /** The scan has reached cell (x, y) of `pre`, producing `cur`: cells not yet
      visited still hold their value before the scan, and every visited cell
      satisfies the fill policy. */
  ghost predicate ScannedUpTo(pre: Board, cur: Board, w: nat, h: nat, types: seq<GemType>, x: int, y: int)
    requires Shaped(pre, w, h) && Shaped(cur, w, h)
  {
    && (forall i, j :: 0 <= i < w && 0 <= j < h && !VisitedBefore(i, j, x, y) ==> cur[i][j] == pre[i][j])
    && (forall i, j :: 0 <= i < w && 0 <= j < h && VisitedBefore(i, j, x, y) ==> KeptCell(pre, cur, w, h, i, j))
    && (forall i, j :: 0 <= i < w && 0 <= j < h && VisitedBefore(i, j, x, y) ==>
          ChosenCell(pre, cur, w, h, types, i, j))
  }

  /** `SeenAt` depends only on the cells visited before `q`. */
  lemma SeenAtFrame(pre: Board, a: Board, b: Board, w: nat, h: nat, q: Pos)
    requires Shaped(pre, w, h) && Shaped(a, w, h) && Shaped(b, w, h)
    requires forall i, j :: 0 <= i < w && 0 <= j < h && VisitedBefore(i, j, q.x, q.y) ==> a[i][j] == b[i][j]
    ensures SeenAt(pre, a, w, h, q) == SeenAt(pre, b, w, h, q)
  {
    Extensionality(SeenAt(pre, a, w, h, q), SeenAt(pre, b, w, h, q), w, h);
  }

  lemma ScanStart(pre: Board, w: nat, h: nat, types: seq<GemType>)
    requires Shaped(pre, w, h)
    ensures ScannedUpTo(pre, pre, w, h, types, 0, 0)
  {
  }

  /** The scan passes over an occupied cell without changing it. */
  lemma ScanKeep(pre: Board, cur: Board, w: nat, h: nat, types: seq<GemType>, x: int, y: int)
    requires Shaped(pre, w, h) && Shaped(cur, w, h) && 0 <= x < w && 0 <= y < h
    requires ScannedUpTo(pre, cur, w, h, types, x, y) && cur[x][y].Some?
    ensures ScannedUpTo(pre, cur, w, h, types, x, y + 1)
  {
    assert KeptCell(pre, cur, w, h, x, y);
    assert ChosenCell(pre, cur, w, h, types, x, y);
  }

  /** The scan fills an empty cell with a type the allocator offers against the current board. */
  lemma ScanPlace(pre: Board, cur: Board, w: nat, h: nat, types: seq<GemType>, x: int, y: int, t: GemType)
    requires Shaped(pre, w, h) && Shaped(cur, w, h) && 0 <= x < w && 0 <= y < h
    requires ScannedUpTo(pre, cur, w, h, types, x, y) && cur[x][y].None?
    requires t in ValidGemTypes(cur, w, h, Pos(x, y), types)
    ensures ScannedUpTo(pre, Put(cur, w, h, Pos(x, y), Some(t)), w, h, types, x, y + 1)
  {
    var next := Put(cur, w, h, Pos(x, y), Some(t));
    Extensionality(SeenAt(pre, next, w, h, Pos(x, y)), cur, w, h);
    assert ChosenCell(pre, next, w, h, types, x, y);
    forall i, j | 0 <= i < w && 0 <= j < h && VisitedBefore(i, j, x, y)
      ensures KeptCell(pre, next, w, h, i, j) && ChosenCell(pre, next, w, h, types, i, j)
    {
      assert KeptCell(pre, cur, w, h, i, j);
      assert ChosenCell(pre, cur, w, h, types, i, j);
      SeenAtFrame(pre, cur, next, w, h, Pos(i, j));
    }
  }

  /** Having passed the top of column `x`, the scan moves to the bottom of column `x + 1`. */
  lemma ScanNextColumn(pre: Board, cur: Board, w: nat, h: nat, types: seq<GemType>, x: int)
    requires Shaped(pre, w, h) && Shaped(cur, w, h) && 0 <= x < w
    requires ScannedUpTo(pre, cur, w, h, types, x, h)
    ensures ScannedUpTo(pre, cur, w, h, types, x + 1, 0)
  {
  }

  /** A scan that has passed every column is a complete fill pass. */
  lemma ScanDone(pre: Board, cur: Board, w: nat, h: nat, types: seq<GemType>)
    requires Shaped(pre, w, h) && Shaped(cur, w, h)
    requires ScannedUpTo(pre, cur, w, h, types, w, 0)
    ensures FilledInOrder(pre, cur, w, h, types)
  {
  }
}
