/** Gravity on one column, as a value.

    A column is listed bottom (row 0) to top.  After gravity every gem has
    dropped by the number of empty cells that were below it, so the gems sit
    at the bottom in their original order and the empty cells are all at the
    top.  `FallColumn` states that outcome directly; the lemmas below show it
    keeps every gem, in order, and moves each one down by exactly the number
    of empty cells beneath it. */
module Gravity {
  import opened Grid

  /** The occupied cells of a column, bottom to top. */
  function Occupied(col: seq<Cell>): (r: seq<Cell>)
    ensures |r| <= |col|
    ensures forall i :: 0 <= i < |r| ==> r[i].Some?
  {
    if col == [] then []
    else if col[|col| - 1].Some? then Occupied(col[..|col| - 1]) + [col[|col| - 1]]
    else Occupied(col[..|col| - 1])
  }

  /** `n` empty cells. */
  function Empties(n: nat): (r: seq<Cell>)
    ensures |r| == n && forall i :: 0 <= i < n ==> r[i] == None
  {
    seq(n, i => None)
  }

  /** How many cells of `col` below row `y` are empty. */
  function EmptyBelow(col: seq<Cell>, y: nat): (r: nat)
    requires y <= |col|
  {
    y - |Occupied(col[..y])|
  }

  /** The column after gravity: its gems at the bottom, the empty cells above. */
  function FallColumn(col: seq<Cell>): (r: seq<Cell>)
    ensures |r| == |col|
  {
    Occupied(col) + Empties(|col| - |Occupied(col)|)
  }

  /** Extending a column by one cell at the top extends its gems by that cell if occupied. */
  lemma OccupiedSnoc(col: seq<Cell>, c: Cell)
    ensures Occupied(col + [c]) == Occupied(col) + (if c.Some? then [c] else [])
  {
    assert (col + [c])[..|col|] == col;
  }

  lemma {:induction false} OccupiedAppend(a: seq<Cell>, b: seq<Cell>)
    ensures Occupied(a + b) == Occupied(a) + Occupied(b)
    decreases |b|
  {
    if b == [] {
      assert a + b == a;
    } else {
      var b' := b[..|b| - 1];
      var c := b[|b| - 1];
      assert b == b' + [c];
      assert a + b == (a + b') + [c];
      OccupiedAppend(a, b');
      OccupiedSnoc(a + b', c);
      OccupiedSnoc(b', c);
    }
  }

  lemma {:induction false} OccupiedOfGems(col: seq<Cell>)
    requires forall i :: 0 <= i < |col| ==> col[i].Some?
    ensures Occupied(col) == col
    decreases |col|
  {
    if col != [] {
      OccupiedOfGems(col[..|col| - 1]);
      assert col == col[..|col| - 1] + [col[|col| - 1]];
    }
  }

  lemma {:induction false} OccupiedOfEmpties(n: nat)
    ensures Occupied(Empties(n)) == []
  {
    if n > 0 {
      OccupiedOfEmpties(n - 1);
      assert Empties(n)[..n - 1] == Empties(n - 1);
    }
  }

  /** No gem is created or lost by falling, and the gems keep their bottom-to-top order. */
  lemma FallKeepsGems(col: seq<Cell>)
    ensures Occupied(FallColumn(col)) == Occupied(col)
  {
    var gems := Occupied(col);
    OccupiedAppend(gems, Empties(|col| - |gems|));
    OccupiedOfGems(gems);
    OccupiedOfEmpties(|col| - |gems|);
  }

  /** After falling, every empty cell lies above every occupied cell. */
  lemma FallLeavesEmptiesOnTop(col: seq<Cell>, i: nat, j: nat)
    requires i < j < |col| && FallColumn(col)[i].None?
    ensures FallColumn(col)[j].None?
  {
  }

  /** Each gem moves down by exactly the number of empty cells below it. */
  lemma FallDistance(col: seq<Cell>, y: nat)
    requires y < |col| && col[y].Some?
    ensures EmptyBelow(col, y) <= y
    ensures FallColumn(col)[y - EmptyBelow(col, y)] == col[y]
  {
    assert col == col[..y] + col[y..];
    OccupiedAppend(col[..y], col[y..]);
    assert col[y..] == [col[y]] + col[y + 1..];
    OccupiedAppend([col[y]], col[y + 1..]);
    assert Occupied([col[y]]) == [col[y]] by {
      OccupiedSnoc([], col[y]);
    }
  }

  /** A column with no empty cell does not move. */
  lemma FallOfFullColumn(col: seq<Cell>)
    requires forall i :: 0 <= i < |col| ==> col[i].Some?
    ensures FallColumn(col) == col
  {
    OccupiedOfGems(col);
  }

  /** The column part way through the in-place fall, one bottom-to-top pass
      that moves each gem down by the number of empty cells counted below it:
      once rows below `y` are processed they hold the gems seen so far and
      then the empty cells counted so far. */
  function Settling(col: seq<Cell>, y: nat): (r: seq<Cell>)
    requires y <= |col|
    ensures |r| == y
  {
    Occupied(col[..y]) + Empties(EmptyBelow(col, y))
  }

  /** One step of the pass: an empty cell is counted; a gem with no empty
      cell below it stays; any other gem moves down into the lowest counted
      empty cell and leaves its own cell empty. */
  lemma SettlingStep(col: seq<Cell>, y: nat)
    requires y < |col|
    ensures EmptyBelow(col, y + 1) == EmptyBelow(col, y) + (if col[y].None? then 1 else 0)
    ensures col[y].None? ==> Settling(col, y + 1) == Settling(col, y) + [None]
    ensures col[y].Some? && EmptyBelow(col, y) == 0 ==>
              Settling(col, y + 1) == Settling(col, y) + [col[y]]
    ensures col[y].Some? && EmptyBelow(col, y) > 0 ==>
              Settling(col, y + 1) == Settling(col, y)[y - EmptyBelow(col, y) := col[y]] + [None]
  {
    assert col[..y + 1] == col[..y] + [col[y]];
    OccupiedSnoc(col[..y], col[y]);
    var e := EmptyBelow(col, y);
    if col[y].Some? && e > 0 {
      assert Empties(e) == [None] + Empties(e - 1);
    }
  }

  /** When the pass has processed the whole column it has computed the fall. */
  lemma SettlingDone(col: seq<Cell>)
    ensures Settling(col, |col|) == FallColumn(col)
  {
    assert col[..|col|] == col;
  }

  /** The board after gravity has acted on every column independently. */
  function Fallen(g: Board, w: nat, h: nat): (r: Board)
    requires Shaped(g, w, h)
    ensures Shaped(r, w, h)
    ensures forall x :: 0 <= x < w ==> r[x] == FallColumn(g[x])
  {
    seq(w, x requires 0 <= x < w => FallColumn(g[x]))
  }
}
