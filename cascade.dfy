/** The cascade, as a sequence of boards.

    One round of the cascade empties every matched cell, lets every column
    fall and refills the empty cells in the allocator's scan order.  A
    cascade is a sequence of boards each obtained from the one before by a
    round; the engine's `ProcessMatches` is proved to produce one. */
module Cascades {
  import opened Grid
  import opened Matching
  import opened Gravity
  import opened Refill

  /** The board with every cell of `ms` emptied and every other cell unchanged. */
  function Cleared(g: Board, w: nat, h: nat, ms: set<Pos>): (r: Board)
    requires Shaped(g, w, h)
    ensures Shaped(r, w, h)
    ensures forall x, y :: 0 <= x < w && 0 <= y < h ==>
              r[x][y] == if Pos(x, y) in ms then None else g[x][y]
  {
    seq(w, x requires 0 <= x < w =>
      seq(h, y requires 0 <= y < h => if Pos(x, y) in ms then None else g[x][y]))
  }

  /** Emptying every matched cell leaves no match: each window that matched
      loses all three gems, and no other window can start to match. */
  lemma ClearingRemovesAllMatches(g: Board, w: nat, h: nat)
    requires Shaped(g, w, h)
    ensures Matches(Cleared(g, w, h, Matches(g, w, h)), w, h) == {}
  {
    var c := Cleared(g, w, h, Matches(g, w, h));
    forall sx: int, sy: int
      ensures !HRun(c, w, h, sx, sy) && !VRun(c, w, h, sx, sy)
    {
      if HRun(c, w, h, sx, sy) {
        assert HRun(g, w, h, sx, sy);
        assert Pos(sx, sy) in AllPositions(w, h) && InHRun(g, w, h, Pos(sx, sy));
      }
      if VRun(c, w, h, sx, sy) {
        assert VRun(g, w, h, sx, sy);
        assert Pos(sx, sy) in AllPositions(w, h) && InVRun(g, w, h, Pos(sx, sy));
      }
    }
  }

  /** `g'` follows `g` by one round: `g` has a match, its matched cells are
      emptied, the columns fall, and a fill pass in scan order refills the
      result. */
  ghost predicate Round(g: Board, g': Board, w: nat, h: nat, types: seq<GemType>)
    requires Shaped(g, w, h) && Shaped(g', w, h)
  {
    && Matches(g, w, h) != {}
    && FilledInOrder(Fallen(Cleared(g, w, h, Matches(g, w, h)), w, h), g', w, h, types)
  }

  /** Board i + 1 of `trace` follows board i by a round. */
  ghost predicate RoundAt(trace: seq<Board>, i: int, w: nat, h: nat, types: seq<GemType>)
    requires 0 <= i < |trace| - 1 && Shaped(trace[i], w, h) && Shaped(trace[i + 1], w, h)
  {
    Round(trace[i], trace[i + 1], w, h, types)
  }

  /** Every board of `trace` follows the one before by a round. */
  ghost predicate Cascade(trace: seq<Board>, w: nat, h: nat, types: seq<GemType>)
  {
    && (forall i :: 0 <= i < |trace| ==> Shaped(trace[i], w, h))
    && (forall i :: 0 <= i < |trace| - 1 ==> RoundAt(trace, i, w, h, types))
  }

  /** A round from the last board of a cascade extends the cascade. */
  lemma CascadeExtend(trace: seq<Board>, g: Board, w: nat, h: nat, types: seq<GemType>)
    requires Cascade(trace, w, h, types) && |trace| >= 1
    requires Shaped(g, w, h) && Round(trace[|trace| - 1], g, w, h, types)
    ensures Cascade(trace + [g], w, h, types)
  {
    var t := trace + [g];
    var n := |trace| - 1;
    assert t[..n + 1] == trace;
    assert t[n] == trace[n] && t[n + 1] == g;
    assert RoundAt(t, n, w, h, types);
    forall i | 0 <= i < n
      ensures RoundAt(t, i, w, h, types)
    {
      assert RoundAt(trace, i, w, h, types);
      assert t[i] == trace[i] && t[i + 1] == trace[i + 1];
    }
  }

  /** `trace` is a cascade of at most `fuel` rounds from `g` to `g'`.  It
      stops short of `fuel` rounds only on a board without a match, and
      `settled` says whether `g'` is such a board. */
  ghost predicate CascadeRun(trace: seq<Board>, g: Board, g': Board, w: nat, h: nat,
                             types: seq<GemType>, fuel: nat, settled: bool)
  {
    && Shaped(g', w, h)
    && |trace| >= 1 && trace[0] == g && trace[|trace| - 1] == g'
    && Cascade(trace, w, h, types)
    && |trace| - 1 <= fuel
    && (!settled ==> |trace| - 1 == fuel)
    && (settled <==> Matches(g', w, h) == {})
  }

  /** Clearing the matches of the last board of a cascade, letting the
      columns fall and refilling in scan order is a round, and extends the
      cascade by it. */
  lemma CascadeStep(trace: seq<Board>, g0: Board, g1: Board, g2: Board, g3: Board,
                    ms: set<Pos>, w: nat, h: nat, types: seq<GemType>)
    requires Cascade(trace, w, h, types) && |trace| >= 1 && trace[|trace| - 1] == g0
    requires Shaped(g0, w, h) && Shaped(g2, w, h) && Shaped(g3, w, h)
    requires ms == Matches(g0, w, h) && ms != {}
    requires g1 == Cleared(g0, w, h, ms) && g2 == Fallen(g1, w, h)
    requires FilledInOrder(g2, g3, w, h, types)
    ensures Round(g0, g3, w, h, types)
    ensures Cascade(trace + [g3], w, h, types)
  {
    CascadeExtend(trace, g3, w, h, types);
  }

  /** A round ends with a full board. */
  lemma RoundEndsFull(g: Board, g': Board, w: nat, h: nat, types: seq<GemType>)
    requires Shaped(g, w, h) && Shaped(g', w, h) && Round(g, g', w, h, types)
    ensures Full(g', w, h)
  {
    FillCompletes(Fallen(Cleared(g, w, h, Matches(g, w, h)), w, h), g', w, h, types);
  }

  /** The gems left after clearing keep their column and their bottom-to-top
      order through the round, and sit at the bottom of the column. */
  lemma RoundKeepsSurvivors(g: Board, g': Board, w: nat, h: nat, types: seq<GemType>, x: int)
    requires Shaped(g, w, h) && Shaped(g', w, h) && Round(g, g', w, h, types) && 0 <= x < w
    ensures var survivors := Occupied(Cleared(g, w, h, Matches(g, w, h))[x]);
            g'[x][..|survivors|] == survivors
  {
    var fallen := Fallen(Cleared(g, w, h, Matches(g, w, h)), w, h);
    var survivors := Occupied(Cleared(g, w, h, Matches(g, w, h))[x]);
    FillCompletes(fallen, g', w, h, types);
    assert fallen[x][..|survivors|] == survivors;
  }

  /** Without fallback the refill of a round creates no match: the matches
      after the round are exactly those the fall produced. */
  lemma RoundMatchesComeFromTheFall(g: Board, g': Board, w: nat, h: nat, types: seq<GemType>)
    requires Shaped(g, w, h) && Shaped(g', w, h) && Round(g, g', w, h, types)
    requires NoFallback(Fallen(Cleared(g, w, h, Matches(g, w, h)), w, h), g', w, h, types)
    ensures Matches(g', w, h) == Matches(Fallen(Cleared(g, w, h, Matches(g, w, h)), w, h), w, h)
  {
    RefillKeepsMatches(Fallen(Cleared(g, w, h, Matches(g, w, h)), w, h), g', w, h, types);
  }

  /** A cascade of more than one board starts on a board with a match: a
      board without a match starts no round. */
  lemma CascadeStartsWithMatch(trace: seq<Board>, w: nat, h: nat, types: seq<GemType>)
    requires Cascade(trace, w, h, types) && |trace| >= 2
    ensures Matches(trace[0], w, h) != {}
  {
    assert RoundAt(trace, 0, w, h, types);
  }
}
