/** The square integer grid the creature lives on, and counting over its cells. */
module Grid {

  /** A cell address: `row` indexes the outer list, `col` the inner one. */
  datatype Pos = Pos(row: int, col: int)

  /** The grid as the program stores it: a list of rows of cell codes. */
  type Cells = seq<seq<int>>

  const EMPTY: int := 0
  const CREATURE: int := 1
  const FOOD: int := 2

  /** `size` rows of `size` cells each. */
  predicate Square(g: Cells, size: int) {
    |g| == size && forall r :: 0 <= r < |g| ==> |g[r]| == size
  }

  /** The environment's `in_bounds` test. */
  predicate InBounds(size: int, p: Pos) {
    0 <= p.row < size && 0 <= p.col < size
  }

  /** `p` addresses an existing cell of `g`. */
  predicate InGrid(g: Cells, p: Pos) {
    0 <= p.row < |g| && 0 <= p.col < |g[p.row]|
  }

  function At(g: Cells, p: Pos): int
    requires InGrid(g, p)
  {
    g[p.row][p.col]
  }

  /** No element of `xs` occurs twice. */
  predicate Distinct<T(==)>(xs: seq<T>) {
    forall i, j :: 0 <= i < j < |xs| ==> xs[i] != xs[j]
  }

  /** A grid with every cell empty: `[[0] * size for i in range(size)]`. */
  function Blank(size: nat): (g: Cells)
    ensures Square(g, size)
    ensures forall p :: InGrid(g, p) ==> At(g, p) == EMPTY
  {
    seq(size, _ => seq(size, _ => EMPTY))
  }

  /** `g[p.row][p.col] = v`: one cell changes, the shape and every other cell stay. */
  function Put(g: Cells, p: Pos, v: int): (g': Cells)
    requires InGrid(g, p)
    ensures |g'| == |g| && forall r :: 0 <= r < |g| ==> |g'[r]| == |g[r]|
    ensures forall q :: InGrid(g', q) <==> InGrid(g, q)
    ensures At(g', p) == v
    ensures forall q :: InGrid(g, q) && q != p ==> At(g', q) == At(g, q)
  {
    g[p.row := g[p.row][p.col := v]]
  }

  /** `for i, j in ps: g[i][j] = v`. */
  function PutAll(g: Cells, ps: seq<Pos>, v: int): (g': Cells)
    requires forall p :: p in ps ==> InGrid(g, p)
    ensures |g'| == |g| && forall r :: 0 <= r < |g| ==> |g'[r]| == |g[r]|
    ensures forall q :: InGrid(g', q) <==> InGrid(g, q)
    ensures forall q :: InGrid(g, q) ==> At(g', q) == if q in ps then v else At(g, q)
    decreases |ps|
  {
    if |ps| == 0 then g else PutAll(Put(g, ps[0], v), ps[1..], v)
  }

  /** The cells of `g` holding `v`. */
  function CellSet(g: Cells, v: int): set<Pos> {
    set r, c | 0 <= r < |g| && 0 <= c < |g[r]| && g[r][c] == v :: Pos(r, c)
  }

  /** How many cells of `g` hold `v`. */
  function Count(g: Cells, v: int): nat {
    |CellSet(g, v)|
  }

  lemma CellSetMembers(g: Cells, v: int)
    ensures forall p :: p in CellSet(g, v) <==> InGrid(g, p) && At(g, p) == v
  {
    forall p | InGrid(g, p) && At(g, p) == v
      ensures p in CellSet(g, v)
    {
      assert p == Pos(p.row, p.col);
    }
  }

  /** A set has one element more than the set without `x` exactly when `x` is in it. */
  lemma CardWithout<T>(s: set<T>, x: T)
    ensures |s| == |s - {x}| + (if x in s then 1 else 0)
  {
    if x in s {
      assert s == (s - {x}) + {x};
    } else {
      assert s - {x} == s;
    }
  }

  /** Overwriting cell `p` leaves every other cell's membership in a value's cell set alone. */
  lemma CellSetAfterPut(g: Cells, p: Pos, x: int, w: int)
    requires InGrid(g, p)
    ensures CellSet(Put(g, p, x), w) - {p} == CellSet(g, w) - {p}
    ensures p in CellSet(Put(g, p, x), w) <==> x == w
    ensures p in CellSet(g, w) <==> At(g, p) == w
  {
    CellSetMembers(g, w);
    CellSetMembers(Put(g, p, x), w);
  }

  /** Overwriting one cell moves it from the count of its old value to the count of its new one. */
  lemma CountAfterPut(g: Cells, p: Pos, x: int, w: int)
    requires InGrid(g, p)
    ensures Count(Put(g, p, x), w)
         == Count(g, w) - (if At(g, p) == w then 1 else 0) + (if x == w then 1 else 0)
  {
    CellSetAfterPut(g, p, x, w);
    CardWithout(CellSet(g, w), p);
    CardWithout(CellSet(Put(g, p, x), w), p);
  }

  /** True iff some cell of `g` holds food: the environment's `has_food`. */
  predicate HasFood(g: Cells) {
    exists r, c :: 0 <= r < |g| && 0 <= c < |g[r]| && g[r][c] == FOOD
  }

  lemma HasFoodIffCount(g: Cells)
    ensures HasFood(g) <==> Count(g, FOOD) > 0
  {
    CellSetMembers(g, FOOD);
    if HasFood(g) {
      var r, c :| 0 <= r < |g| && 0 <= c < |g[r]| && g[r][c] == FOOD;
      assert Pos(r, c) in CellSet(g, FOOD);
    }
  }

  /** The elements of a duplicate-free sequence are as many as its length. */
  lemma {:induction false} DistinctCard<T>(xs: seq<T>)
    requires Distinct(xs)
    ensures |set x | x in xs| == |xs|
  {
    if |xs| > 0 {
      var tail := xs[1..];
      assert Distinct(tail);
      DistinctCard(tail);
      assert xs[0] !in tail;
      assert (set x | x in xs) == (set x | x in tail) + {xs[0]};
    }
  }

  /** The positions of `row` (row number `r`) holding `v`, left to right. */
  function RowPositions(row: seq<int>, r: int, v: int): seq<Pos>
    decreases |row|
  {
    if |row| == 0 then []
    else RowPositions(row[..|row| - 1], r, v) + (if row[|row| - 1] == v then [Pos(r, |row| - 1)] else [])
  }

  /** The positions of `g` holding `v`, in row-major order. */
  function Positions(g: Cells, v: int): seq<Pos>
    decreases |g|
  {
    if |g| == 0 then []
    else Positions(g[..|g| - 1], v) + RowPositions(g[|g| - 1], |g| - 1, v)
  }

  lemma {:induction false} RowPositionsSpec(row: seq<int>, r: int, v: int)
    ensures forall p :: p in RowPositions(row, r, v) <==> p.row == r && 0 <= p.col < |row| && row[p.col] == v
    ensures Distinct(RowPositions(row, r, v))
    decreases |row|
  {
    if |row| > 0 {
      var front := row[..|row| - 1];
      RowPositionsSpec(front, r, v);
      var last := if row[|row| - 1] == v then [Pos(r, |row| - 1)] else [];
      var ps := RowPositions(front, r, v);
      assert RowPositions(row, r, v) == ps + last;
      forall i, j | 0 <= i < j < |ps + last|
        ensures (ps + last)[i] != (ps + last)[j]
      {
        if j >= |ps| {
          assert (ps + last)[i] in ps;
        }
      }
    }
  }

  lemma {:induction false} PositionsSpec(g: Cells, v: int)
    ensures forall p :: p in Positions(g, v) <==> InGrid(g, p) && At(g, p) == v
    ensures Distinct(Positions(g, v))
    decreases |g|
  {
    if |g| > 0 {
      var front := g[..|g| - 1];
      PositionsSpec(front, v);
      RowPositionsSpec(g[|g| - 1], |g| - 1, v);
      var ps := Positions(front, v);
      var last := RowPositions(g[|g| - 1], |g| - 1, v);
      assert Positions(g, v) == ps + last;
      forall i, j | 0 <= i < j < |ps + last|
        ensures (ps + last)[i] != (ps + last)[j]
      {
        if i < |ps| && j >= |ps| {
          assert (ps + last)[i] in ps;
          assert (ps + last)[j] in last;
        }
      }
    }
  }

  /** The environment's `empty_positions`: every empty cell exactly once, row by row. */
  function EmptyPositions(g: Cells): (ps: seq<Pos>)
    ensures forall p :: p in ps <==> InGrid(g, p) && At(g, p) == EMPTY
    ensures Distinct(ps)
    ensures |ps| == Count(g, EMPTY)
  {
    PositionsSpec(g, EMPTY);
    CellSetMembers(g, EMPTY);
    DistinctCard(Positions(g, EMPTY));
    assert (set x | x in Positions(g, EMPTY)) == CellSet(g, EMPTY);
    Positions(g, EMPTY)
  }

  /** Writing `v` over distinct cells that all held `u` moves exactly those cells from `u`'s count to `v`'s. */
  lemma {:induction false} PutAllCounts(g: Cells, ps: seq<Pos>, u: int, v: int)
    requires forall p :: p in ps ==> InGrid(g, p) && At(g, p) == u
    requires Distinct(ps)
    requires u != v
    ensures Count(PutAll(g, ps, v), v) == Count(g, v) + |ps|
    ensures Count(PutAll(g, ps, v), u) == Count(g, u) - |ps|
    decreases |ps|
  {
    if |ps| > 0 {
      var g1 := Put(g, ps[0], v);
      CountAfterPut(g, ps[0], v, v);
      CountAfterPut(g, ps[0], v, u);
      var rest := ps[1..];
      forall p | p in rest
        ensures InGrid(g1, p) && At(g1, p) == u
      {
        assert p != ps[0];
      }
      assert Distinct(rest);
      PutAllCounts(g1, rest, u, v);
    }
  }

  lemma {:induction false} UniformRowPositions(row: seq<int>, r: int, v: int)
    requires forall c :: 0 <= c < |row| ==> row[c] == v
    ensures |RowPositions(row, r, v)| == |row|
    decreases |row|
  {
    if |row| > 0 {
      UniformRowPositions(row[..|row| - 1], r, v);
    }
  }

  lemma {:induction false} UniformPositions(g: Cells, v: int, width: nat)
    requires forall r :: 0 <= r < |g| ==> |g[r]| == width
    requires forall p :: InGrid(g, p) ==> At(g, p) == v
    ensures |Positions(g, v)| == |g| * width
    decreases |g|
  {
    if |g| > 0 {
      var front := g[..|g| - 1];
      forall p | InGrid(front, p) ensures At(front, p) == v {
        assert InGrid(g, p);
      }
      UniformPositions(front, v, width);
      var last := g[|g| - 1];
      forall c | 0 <= c < width ensures last[c] == v {
        assert InGrid(g, Pos(|g| - 1, c));
      }
      UniformRowPositions(g[|g| - 1], |g| - 1, v);
      assert |g| * width == (|g| - 1) * width + width;
    }
  }

  /** A blank grid of side `size` has `size * size` empty cells and no other kind. */
  lemma BlankCounts(size: nat, v: int)
    ensures Count(Blank(size), EMPTY) == size * size
    ensures v != EMPTY ==> Count(Blank(size), v) == 0
  {
    var g := Blank(size);
    UniformPositions(g, EMPTY, size);
    assert |EmptyPositions(g)| == size * size;
    CellSetMembers(g, v);
    if v != EMPTY {
      assert CellSet(g, v) == {};
    }
  }
}
