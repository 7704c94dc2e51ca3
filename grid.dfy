/** The board of a match-3 game as a value: a width x height array of cells,
    each either empty or holding one gem type.  Boards are stored
    column-major, `g[x][y]` being the cell in column `x` and row `y`, with
    row 0 at the bottom of the screen. */
module Grid {

  datatype Option<T> = None | Some(value: T)

  /** A gem type.  In the game this is a configured asset compared by
      identity; here it is an opaque identifier compared by equality. */
  datatype GemType = GemType(id: nat)

  /** A cell is empty (`None`) or is occupied by a gem of one type. */
  type Cell = Option<GemType>

  /** An integer grid coordinate.  Taps may land outside the board, so the
      components are unbounded integers. */
  datatype Pos = Pos(x: int, y: int)

  type Board = seq<seq<Cell>>

  /** `g` has `w` columns of `h` cells each. */
  predicate Shaped(g: Board, w: nat, h: nat)
  {
    |g| == w && forall x :: 0 <= x < w ==> |g[x]| == h
  }

  predicate InBounds(w: nat, h: nat, p: Pos)
  {
    0 <= p.x < w && 0 <= p.y < h
  }

  /** Every coordinate of a `w` x `h` board. */
  function AllPositions(w: nat, h: nat): (r: set<Pos>)
    ensures forall p :: p in r <==> InBounds(w, h, p)
  {
    var r := set x: int, y: int | 0 <= x < w && 0 <= y < h :: Pos(x, y);
    assert forall p :: InBounds(w, h, p) ==> Pos(p.x, p.y) in r;
    r
  }

  /** No cell of the board is empty. */
  predicate Full(g: Board, w: nat, h: nat)
    requires Shaped(g, w, h)
  {
    forall x, y :: 0 <= x < w && 0 <= y < h ==> g[x][y].Some?
  }

  /** The board whose every cell is empty, as a freshly created grid is. */
  function EmptyBoard(w: nat, h: nat): (r: Board)
    ensures Shaped(r, w, h)
    ensures forall x, y :: 0 <= x < w && 0 <= y < h ==> r[x][y] == None
  {
    seq(w, x => seq(h, y => None))
  }

  /** Two boards of the same shape that agree on every cell are equal. */
  lemma Extensionality(a: Board, b: Board, w: nat, h: nat)
    requires Shaped(a, w, h) && Shaped(b, w, h)
    requires forall x, y :: 0 <= x < w && 0 <= y < h ==> a[x][y] == b[x][y]
    ensures a == b
  {
    forall x | 0 <= x < w
      ensures a[x] == b[x]
    {
      assert forall y :: 0 <= y < h ==> a[x][y] == b[x][y];
    }
  }

  /** The board with cell `p` set to `c` and every other cell unchanged. */
  function Put(g: Board, w: nat, h: nat, p: Pos, c: Cell): (r: Board)
    requires Shaped(g, w, h) && InBounds(w, h, p)
    ensures Shaped(r, w, h)
    ensures forall x, y :: 0 <= x < w && 0 <= y < h ==>
              r[x][y] == if x == p.x && y == p.y then c else g[x][y]
  {
    g[p.x := g[p.x][p.y := c]]
  }

  /** The board with the contents of cells `a` and `b` exchanged. */
  function Swapped(g: Board, w: nat, h: nat, a: Pos, b: Pos): (r: Board)
    requires Shaped(g, w, h) && InBounds(w, h, a) && InBounds(w, h, b)
    ensures Shaped(r, w, h)
    ensures r[a.x][a.y] == g[b.x][b.y] && r[b.x][b.y] == g[a.x][a.y]
    ensures forall x, y :: 0 <= x < w && 0 <= y < h && Pos(x, y) != a && Pos(x, y) != b ==>
              r[x][y] == g[x][y]
  {
    Put(Put(g, w, h, a, g[b.x][b.y]), w, h, b, g[a.x][a.y])
  }

  /** Swapping back undoes a swap: the board is restored cell for cell. */
  lemma SwapBackRestores(g: Board, w: nat, h: nat, a: Pos, b: Pos)
    requires Shaped(g, w, h) && InBounds(w, h, a) && InBounds(w, h, b)
    ensures Swapped(Swapped(g, w, h, a, b), w, h, b, a) == g
  {
    var r := Swapped(Swapped(g, w, h, a, b), w, h, b, a);
    assert forall x, y :: 0 <= x < w && 0 <= y < h ==> r[x][y] == g[x][y];
    Extensionality(r, g, w, h);
  }
}
