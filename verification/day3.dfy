/** Day 3: two wires traced step by step from a central port. A wire is a
    list of segments such as `R75`; `make_positions` lists every position a
    wire enters with its step count, `fill_grid` marks the same positions on
    a 10000 x 10000 grid, `common` reads back the cells both grids mark,
    and `find_ints` pairs the positions both wires enter with their
    combined step counts. Coordinates are (row, column); the source's
    `usize`/`isize` are unbounded integers here. */
module Day3 {
  import opened Wrappers
  import opened Extrema
  import opened Decimal

  datatype Direction = Right | Down | Left | Up

  /** `Direction::parse`: one of R, D, L, U; any other letter panics. */
  function ParseDirection(c: char): (r: Option<Direction>)
    ensures r.Some? <==> c == 'R' || c == 'D' || c == 'L' || c == 'U'
  {
    match c
    case 'R' => Some(Right)
    case 'D' => Some(Down)
    case 'L' => Some(Left)
    case 'U' => Some(Up)
    case _ => None
  }

  /** The letter of a direction, the inverse of `ParseDirection`. */
  function Letter(d: Direction): (c: char)
    ensures ParseDirection(c) == Some(d)
  {
    match d
    case Right => 'R'
    case Down => 'D'
    case Left => 'L'
    case Up => 'U'
  }

  predicate IsDigit(c: char)
  {
    '0' <= c <= '9'
  }

  /** The text of a count without its optional leading `+`. */
  function Unsigned(s: string): (t: string)
    ensures |t| <= |s|
  {
    if |s| > 0 && s[0] == '+' then s[1..] else s
  }

  /** `str::parse::<usize>`: an optional `+` and at least one decimal
      digit, nothing else; an empty count, a lone `+`, a sign `-` or any
      other non-digit makes the source's `unwrap` panic. */
  function ParseCount(s: string): (r: Option<nat>)
    ensures r.Some? <==> Unsigned(s) != [] && forall i :: 0 <= i < |Unsigned(s)| ==> IsDigit(Unsigned(s)[i])
    ensures r.Some? ==> |s| > 0
  {
    var t := Unsigned(s);
    if t == [] || exists i :: 0 <= i < |t| && !IsDigit(t[i]) then None
    else
      var d := seq(|t|, i requires 0 <= i < |t| => t[i] as int - '0' as int);
      var v := Value(d);
      Some(v)
  }

  /** The decimal text of a count. */
  function Text(n: nat): (s: string)
    ensures |s| > 0 && forall i :: 0 <= i < |s| ==> IsDigit(s[i])
  {
    var d := Digits(n);
    seq(|d|, i requires 0 <= i < |d| => ('0' as int + d[i]) as char)
  }

  /** Parsing the decimal text of a count gives the count back. */
  lemma ParseCountText(n: nat)
    ensures ParseCount(Text(n)) == Some(n)
  {
    var t := Text(n);
    var d := seq(|t|, i requires 0 <= i < |t| => t[i] as int - '0' as int);
    assert d == Digits(n);
    DigitsValue(n);
  }

  /** `parse_one`: a direction letter followed by a count. An empty string,
      an unknown letter or a malformed count panics. */
  function ParseOne(d: string): (r: Option<(Direction, nat)>)
    ensures r.Some? ==> |d| >= 2 && ParseDirection(d[0]) == Some(r.value.0)
  {
    if d == [] then None
    else
      var dir :- ParseDirection(d[0]);
      var n :- ParseCount(d[1..]);
      Some((dir, n))
  }

  /** A segment written as its letter and its count parses back to itself. */
  lemma ParseOneRoundTrip(dir: Direction, n: nat)
    ensures ParseOne([Letter(dir)] + Text(n)) == Some((dir, n))
  {
    var s := [Letter(dir)] + Text(n);
    assert s[1..] == Text(n);
    ParseCountText(n);
  }

  type Pos = (int, int)
  type Segment = (Direction, nat)

  /** `p` moved `k` units in direction `d` (Up is toward row 0). */
  function Move(p: Pos, d: Direction, k: int): Pos
  {
    match d
    case Up => (p.0 - k, p.1)
    case Down => (p.0 + k, p.1)
    case Left => (p.0, p.1 - k)
    case Right => (p.0, p.1 + k)
  }

  /** The number of unit steps of a wire: the sum of its counts. */
  function Total(dirs: seq<Segment>): nat
  {
    if dirs == [] then 0 else Total(dirs[..|dirs| - 1]) + dirs[|dirs| - 1].1
  }

  /** The direction of the `i`-th unit step of a wire. */
  function DirAt(dirs: seq<Segment>, i: nat): Direction
    requires i < Total(dirs)
  {
    var pre := dirs[..|dirs| - 1];
    if i >= Total(pre) then dirs[|dirs| - 1].0 else DirAt(pre, i)
  }

  /** The positions `n` unit steps in direction `d` enter from `start`,
      counted from `count` on. */
  function Walk(start: Pos, d: Direction, n: nat, count: nat): (s: seq<(Pos, nat)>)
    ensures |s| == n
  {
    seq(n, i requires 0 <= i < n => (Move(start, d, i + 1), count + i))
  }

  /** Where a wire is before entering `ps[i]`: the position before it, or
      the port. */
  function Before(ps: seq<(Pos, nat)>, i: nat): Pos
    requires i <= |ps|
  {
    if i == 0 then (0, 0) else ps[i - 1].0
  }

  /** Where a wire is after the positions `ps`: the last one, or the port. */
  function EndOf(ps: seq<(Pos, nat)>): Pos
  {
    if ps == [] then (0, 0) else ps[|ps| - 1].0
  }

  /** Every position a wire enters, relative to the port at (0, 0), each
      with the number of steps taken to reach it. */
  function Positions(dirs: seq<Segment>): (ps: seq<(Pos, nat)>)
    ensures |ps| == Total(dirs)
  {
    if dirs == [] then []
    else
      var pre := Positions(dirs[..|dirs| - 1]);
      var last := dirs[|dirs| - 1];
      pre + Walk(EndOf(pre), last.0, last.1, |pre| + 1)
  }

  /** The `i`-th position entered is reached on step `i + 1`, one unit
      from the position before it (the first from the port) in the
      direction of the segment the step belongs to. */
  lemma {:induction false} PositionStep(dirs: seq<Segment>, i: nat)
    requires i < Total(dirs)
    ensures var ps := Positions(dirs);
            && ps[i].1 == i + 1
            && ps[i].0 == Move(Before(ps, i), DirAt(dirs, i), 1)
    decreases |dirs|
  {
    var pre := dirs[..|dirs| - 1];
    var qs := Positions(pre);
    if i < |qs| {
      PositionStep(pre, i);
      PositionEarlier(dirs, i);
    } else {
      PositionInLast(dirs, i);
    }
  }

  /** A step before the last segment is as in the wire without it. */
  lemma PositionEarlier(dirs: seq<Segment>, i: nat)
    requires dirs != [] && i < Total(dirs[..|dirs| - 1])
    ensures var ps := Positions(dirs);
            var qs := Positions(dirs[..|dirs| - 1]);
            && ps[i] == qs[i]
            && Before(ps, i) == Before(qs, i)
            && DirAt(dirs, i) == DirAt(dirs[..|dirs| - 1], i)
  {
  }

  /** A step of the last segment moves one unit in its direction. */
  lemma PositionInLast(dirs: seq<Segment>, i: nat)
    requires dirs != [] && Total(dirs[..|dirs| - 1]) <= i < Total(dirs)
    ensures var ps := Positions(dirs);
            && ps[i].1 == i + 1
            && ps[i].0 == Move(Before(ps, i), DirAt(dirs, i), 1)
  {
    var qs := Positions(dirs[..|dirs| - 1]);
    var last := dirs[|dirs| - 1];
    assert Positions(dirs) == qs + Walk(EndOf(qs), last.0, last.1, |qs| + 1);
    WalkStep(qs, last.0, last.1, i);
  }

  /** Along a walk that continues `qs`, each position is one unit on from
      the one before. */
  lemma WalkStep(qs: seq<(Pos, nat)>, d: Direction, n: nat, i: nat)
    requires |qs| <= i < |qs| + n
    ensures var ps := qs + Walk(EndOf(qs), d, n, |qs| + 1);
            && ps[i].1 == i + 1
            && ps[i].0 == Move(Before(ps, i), d, 1)
  {
    var e := EndOf(qs);
    var w := Walk(e, d, n, |qs| + 1);
    var ps := qs + w;
    var j := i - |qs|;
    assert ps[i] == w[j] == (Move(e, d, j + 1), i + 1);
    assert Before(ps, i) == Move(e, d, j) by {
      if j > 0 {
        assert ps[i - 1] == w[j - 1];
      } else if i > 0 {
        assert ps[i - 1] == qs[i - 1];
      }
    }
    MoveAdd(e, d, j);
  }

  /** `PositionStep` for every step of the wire. */
  lemma PositionsSteps(dirs: seq<Segment>)
    ensures forall i: nat :: i < |Positions(dirs)| ==> Positions(dirs)[i].1 == i + 1
    ensures forall i: nat :: i < |Positions(dirs)| ==>
              Positions(dirs)[i].0 == Move(Before(Positions(dirs), i), DirAt(dirs, i), 1)
  {
    forall i: nat | i < |Positions(dirs)|
      ensures Positions(dirs)[i].1 == i + 1
      ensures Positions(dirs)[i].0 == Move(Before(Positions(dirs), i), DirAt(dirs, i), 1)
    {
      PositionStep(dirs, i);
    }
  }

  lemma MoveAdd(p: Pos, d: Direction, k: int)
    ensures Move(Move(p, d, k), d, 1) == Move(p, d, k + 1)
  {
  }

  lemma WalkSnoc(start: Pos, d: Direction, n: nat, count: nat)
    ensures Walk(start, d, n + 1, count) == Walk(start, d, n, count) + [(Move(start, d, n + 1), count + n)]
  {
  }

  /** The positions of the first `k + 1` segments: those of the first `k`,
      then the walk of segment `k` from where they end. */
  lemma PositionsSnoc(dirs: seq<Segment>, k: nat)
    requires k < |dirs|
    ensures var pre := Positions(dirs[..k]);
            Positions(dirs[..k + 1]) == pre + Walk(EndOf(pre), dirs[k].0, dirs[k].1, |pre| + 1)
  {
    assert dirs[..k + 1][..k] == dirs[..k];
  }

  /** `make_positions`: walks the segments one unit at a time, recording
      each position entered with a running step count from 1. */
  method MakePositions(dirs: seq<Segment>) returns (result: seq<(Pos, nat)>)
    ensures result == Positions(dirs)
  {
    var row, col := 0, 0;
    var count := 1;
    result := [];
    for k := 0 to |dirs|
      invariant result == Positions(dirs[..k])
      invariant (row, col) == EndOf(result) && count == |result| + 1
    {
      var (dir, amount) := dirs[k];
      ghost var start := (row, col);
      ghost var pre := result;
      for j := 0 to amount
        invariant result == pre + Walk(start, dir, j, |pre| + 1)
        invariant (row, col) == Move(start, dir, j) && count == |result| + 1
      {
        // The `match dir` of the source, one unit in that direction.
        var next := Move((row, col), dir, 1);
        row, col := next.0, next.1;
        MoveAdd(start, dir, j);
        WalkSnoc(start, dir, j, |pre| + 1);
        result := result + [((row, col), count)];
        count := count + 1;
      }
      PositionsSnoc(dirs, k);
    }
    assert dirs[..|dirs|] == dirs;
  }

  // ---- fill_grid and common ----

  const RowCenter: nat := 5000
  const ColCenter: nat := 4000
  const GridSize: nat := 10000

  /** The grid cell (row, column) of a position relative to the port. */
  function Cell(p: Pos): Pos
  {
    (RowCenter + p.0, ColCenter + p.1)
  }

  /** The row-major index `fill_grid` sets for a position. */
  function Index(p: Pos): int
  {
    (RowCenter + p.0) * GridSize + (ColCenter + p.1)
  }

  /** `fill_grid` can mark `p`: moving there takes neither `usize`
      coordinate below zero, and the index is inside the grid. The column
      is not checked against the grid width. */
  predicate OnGrid(p: Pos)
  {
    RowCenter + p.0 >= 0 && ColCenter + p.1 >= 0 && Index(p) < GridSize * GridSize
  }

  /** The indices of the first `n` positions of `ps`. */
  function Marked(ps: seq<(Pos, nat)>, n: nat): set<int>
    requires n <= |ps|
  {
    set i | 0 <= i < n :: Index(ps[i].0)
  }

  lemma MarkedNext(ps: seq<(Pos, nat)>, n: nat)
    requires n < |ps|
    ensures Marked(ps, n + 1) == Marked(ps, n) + {Index(ps[n].0)}
  {
  }

  /** Counting steps segment by segment: the steps of the first `k`
      segments are followed by those of segment `k`, all in its
      direction. */
  lemma {:induction false} PrefixSteps(dirs: seq<Segment>, k: nat, m: nat)
    requires k < m <= |dirs|
    ensures Total(dirs[..k + 1]) == Total(dirs[..k]) + dirs[k].1 <= Total(dirs[..m])
    ensures forall i :: Total(dirs[..k]) <= i < Total(dirs[..k + 1]) ==> DirAt(dirs[..m], i) == dirs[k].0
    decreases m - k
  {
    assert dirs[..k + 1][..k] == dirs[..k];
    if m > k + 1 {
      PrefixSteps(dirs, k, m - 1);
      assert dirs[..m][..m - 1] == dirs[..m - 1];
    }
  }

  /** Step `j` of segment `k` is a step of the wire, in that segment's
      direction. */
  lemma SegmentStep(dirs: seq<Segment>, k: nat, j: nat)
    requires k < |dirs| && j < dirs[k].1
    ensures Total(dirs[..k]) + j < Total(dirs)
    ensures DirAt(dirs, Total(dirs[..k]) + j) == dirs[k].0
  {
    PrefixSteps(dirs, k, |dirs|);
    assert dirs[..|dirs|] == dirs;
  }

  /** The `match dir` of `fill_grid` on `usize` coordinates: one unit in
      direction `d`, where going up from row 0 or left from column 0
      overflows (None). */
  function StepCell(cell: Pos, d: Direction): (r: Option<Pos>)
    requires cell.0 >= 0 && cell.1 >= 0
    ensures r.Some? ==> r.value.0 >= 0 && r.value.1 >= 0
  {
    if (d == Up && cell.0 == 0) || (d == Left && cell.1 == 0) then None
    else Some(Move(cell, d, 1))
  }

  /** Stepping from the cell of `p` to that of `q`, one unit on: the step
      fails exactly when `q` is off the grid's low edges, and otherwise
      reaches the cell of `q`, whose index is in range exactly when `q` is
      on the grid. */
  lemma CellStep(p: Pos, d: Direction, q: Pos)
    requires Cell(p).0 >= 0 && Cell(p).1 >= 0 && q == Move(p, d, 1)
    ensures StepCell(Cell(p), d).None? ==> !OnGrid(q)
    ensures StepCell(Cell(p), d).Some? ==>
              && StepCell(Cell(p), d).value == Cell(q)
              && Cell(q).0 * GridSize + Cell(q).1 == Index(q)
              && (OnGrid(q) <==> Index(q) < GridSize * GridSize)
  {
  }

  /** `fill_grid`: starting from row 5000, column 4000, walks the segments
      one unit at a time and sets the cell entered after each unit step.
      Moving above row 0 or left of column 0 overflows `usize`, and an
      index past the grid is out of bounds: both panic (None). */
  method FillGrid(dirs: seq<Segment>) returns (r: Option<array<bool>>)
    ensures r.None? <==> exists i :: 0 <= i < |Positions(dirs)| && !OnGrid(Positions(dirs)[i].0)
    ensures r.Some? ==> fresh(r.value) && r.value.Length == GridSize * GridSize
    ensures r.Some? ==> forall idx :: 0 <= idx < r.value.Length ==>
                          (r.value[idx] <==> idx in Marked(Positions(dirs), Total(dirs)))
  {
    var row: int := RowCenter;
    var col: int := ColCenter;
    var result := new bool[GridSize * GridSize](_ => false);
    ghost var ps := Positions(dirs);
    ghost var n: nat := 0;
    for k := 0 to |dirs|
      invariant n == Total(dirs[..k]) <= |ps|
      invariant (row, col) == Cell(Before(ps, n)) && row >= 0 && col >= 0
      invariant forall i :: 0 <= i < n ==> OnGrid(ps[i].0)
      invariant forall idx :: 0 <= idx < result.Length ==> (result[idx] <==> idx in Marked(ps, n))
    {
      var (dir, amount) := dirs[k];
      PrefixSteps(dirs, k, |dirs|);
      for j := 0 to amount
        invariant n == Total(dirs[..k]) + j <= |ps|
        invariant (row, col) == Cell(Before(ps, n)) && row >= 0 && col >= 0
        invariant forall i :: 0 <= i < n ==> OnGrid(ps[i].0)
        invariant forall idx :: 0 <= idx < result.Length ==> (result[idx] <==> idx in Marked(ps, n))
      {
        SegmentStep(dirs, k, j);
        PositionStep(dirs, n);
        var moved := StepCell((row, col), dir);
        CellStep(Before(ps, n), dir, ps[n].0);
        if moved.None? {
          return None;
        }
        row, col := moved.value.0, moved.value.1;
        var idx := row * GridSize + col;
        if idx >= result.Length {
          return None;
        }
        result[idx] := true;
        MarkedNext(ps, n);
        n := n + 1;
      }
    }
    assert dirs[..|dirs|] == dirs;
    return Some(result);
  }

  /** The indices below `n` set in both grids, in ascending order. */
  function BothSet(g1: seq<bool>, g2: seq<bool>, n: nat): (idxs: seq<nat>)
    requires n <= |g1| && n <= |g2|
    ensures forall k :: 0 <= k < |idxs| ==> idxs[k] < n && g1[idxs[k]] && g2[idxs[k]]
    ensures forall idx :: 0 <= idx < n && g1[idx] && g2[idx] ==> idx in idxs
    ensures forall k, l :: 0 <= k < l < |idxs| ==> idxs[k] < idxs[l]
  {
    if n == 0 then []
    else BothSet(g1, g2, n - 1) + (if g1[n - 1] && g2[n - 1] then [n - 1] else [])
  }

  /** The row-major grid index of a (row, column) pair. */
  function Flat(c: (nat, nat)): nat
  {
    c.0 * GridSize + c.1
  }

  /** The (row, column) of a row-major grid index. */
  function RowCol(idx: nat): (c: (nat, nat))
    ensures c.1 < GridSize && Flat(c) == idx
  {
    (idx / GridSize, idx % GridSize)
  }

  /** `common`: the (row, column) of every index set in both grids, in
      ascending index order; `zip` stops at the shorter grid. */
  function Common(g1: seq<bool>, g2: seq<bool>): (r: seq<(nat, nat)>)
    ensures forall k :: 0 <= k < |r| ==> r[k].1 < GridSize
    ensures forall k :: 0 <= k < |r| ==>
              Flat(r[k]) < |g1| && Flat(r[k]) < |g2| && g1[Flat(r[k])] && g2[Flat(r[k])]
    ensures forall idx :: 0 <= idx < |g1| && idx < |g2| && g1[idx] && g2[idx] ==> RowCol(idx) in r
    ensures forall k, l :: 0 <= k < l < |r| ==> Flat(r[k]) < Flat(r[l])
  {
    var n := if |g1| < |g2| then |g1| else |g2|;
    var idxs := BothSet(g1, g2, n);
    var r := seq(|idxs|, k requires 0 <= k < |idxs| => RowCol(idxs[k]));
    assert forall k :: 0 <= k < |r| ==> Flat(r[k]) == idxs[k];
    assert forall idx :: 0 <= idx < n && g1[idx] && g2[idx] ==> RowCol(idx) in r by {
      forall idx | 0 <= idx < n && g1[idx] && g2[idx]
        ensures RowCol(idx) in r
      {
        var k :| 0 <= k < |idxs| && idxs[k] == idx;
        assert r[k] == RowCol(idx);
      }
    }
    r
  }

  /** Two grid indices with columns below the grid width are equal only
      when their rows and columns are. */
  lemma IndexUnique(a: int, b: int, c: int, d: int)
    requires 0 <= a && 0 <= c && 0 <= b < GridSize && 0 <= d < GridSize
    requires a * GridSize + b == c * GridSize + d
    ensures a == c && b == d
  {
  }

  /** The grid a wire marks, as `FillGrid` leaves it. */
  predicate Shows(g: seq<bool>, dirs: seq<Segment>)
  {
    && |g| == GridSize * GridSize
    && forall idx :: 0 <= idx < |g| ==> (g[idx] <==> idx in Marked(Positions(dirs), Total(dirs)))
  }

  /** Every position of the wire is on the grid, left of its last column. */
  predicate Fits(dirs: seq<Segment>)
  {
    forall i :: 0 <= i < Total(dirs) ==> OnGrid(Positions(dirs)[i].0) && Cell(Positions(dirs)[i].0).1 < GridSize
  }

  /** As long as no position of either wire lies right of the grid's last
      column, every cell `common` reports is entered by both wires. */
  lemma CommonCellsVisited(left: seq<Segment>, right: seq<Segment>, g1: seq<bool>, g2: seq<bool>, cell: (nat, nat))
    requires Shows(g1, left) && Shows(g2, right) && Fits(left) && Fits(right)
    requires cell in Common(g1, g2)
    ensures exists i :: 0 <= i < Total(left) && Cell(Positions(left)[i].0) == cell
    ensures exists j :: 0 <= j < Total(right) && Cell(Positions(right)[j].0) == cell
  {
    var idx := Flat(cell);
    var i :| 0 <= i < Total(left) && Index(Positions(left)[i].0) == idx;
    var j :| 0 <= j < Total(right) && Index(Positions(right)[j].0) == idx;
    var p, q := Cell(Positions(left)[i].0), Cell(Positions(right)[j].0);
    IndexUnique(p.0, p.1, cell.0, cell.1);
    IndexUnique(q.0, q.1, cell.0, cell.1);
  }

  /** Without that bound a column past the grid's last one wraps into the
      next row: a wire going 6000 units right from the port reaches
      column 10000 of row 5000, yet `fill_grid` marks the index that
      `common` reads as row 5001, column 0, a cell the wire never enters. */
  lemma ColumnWraps()
    ensures var p := Positions([(Right, 6000)])[5999].0;
            && p == (0, 6000) && OnGrid(p)
            && RowCol(Index(p)) == (5001, 0) != Cell(p)
            && forall i :: 0 <= i < 6000 ==> Cell(Positions([(Right, 6000)])[i].0).0 == 5000
  {
    var dirs := [(Right, 6000)];
    assert dirs[..0] == [];
    assert Positions(dirs) == Walk((0, 0), Right, 6000, 1);
  }

  // ---- find_ints ----

  /** `collect::<HashMap<_, _>>()` of a wire's positions: each position
      entered maps to a step count at which it is entered. */
  function Found(ps: seq<(Pos, nat)>): (m: map<Pos, nat>)
    ensures forall p :: p in m <==> exists i :: 0 <= i < |ps| && ps[i].0 == p
  {
    if ps == [] then map[]
    else
      var pre := ps[..|ps| - 1];
      assert forall i :: 0 <= i < |pre| ==> pre[i] == ps[i];
      Found(pre)[ps[|ps| - 1].0 := ps[|ps| - 1].1]
  }

  /** A position entered more than once keeps the count of its last entry,
      as inserting into a `HashMap` overwrites. */
  lemma {:induction false} FoundKeepsLast(ps: seq<(Pos, nat)>, p: Pos)
    requires p in Found(ps)
    ensures exists i :: 0 <= i < |ps| && ps[i] == (p, Found(ps)[p]) &&
                        forall l :: i < l < |ps| ==> ps[l].0 != p
    decreases |ps|
  {
    var n := |ps| - 1;
    if ps[n].0 != p {
      var pre := ps[..n];
      FoundKeepsLast(pre, p);
      var i :| 0 <= i < |pre| && pre[i] == (p, Found(pre)[p]) && forall l :: i < l < |pre| ==> pre[l].0 != p;
      assert ps[i] == pre[i];
      assert forall l :: i < l < |ps| ==> ps[l].0 != p by {
        forall l | i < l < |ps|
          ensures ps[l].0 != p
        {
          if l < n {
            assert ps[l] == pre[l];
          }
        }
      }
    } else {
      assert ps[n] == (p, Found(ps)[p]);
    }
  }

  /** The `filter_map` of `find_ints` over the right wire's positions: each
      one that `found` knows, with the two step counts added. */
  function Crossings(right: seq<(Pos, nat)>, found: map<Pos, nat>): (r: seq<(Pos, nat)>)
    ensures |r| <= |right|
    ensures forall x :: x in r <==>
              exists j :: 0 <= j < |right| && right[j].0 in found && x == (right[j].0, right[j].1 + found[right[j].0])
  {
    if right == [] then []
    else
      var pre := right[..|right| - 1];
      assert forall j :: 0 <= j < |pre| ==> pre[j] == right[j];
      var last := right[|right| - 1];
      var rest := Crossings(pre, found);
      if last.0 in found then rest + [(last.0, last.1 + found[last.0])] else rest
  }

  /** The crossings keep the right wire's order: those of a concatenation
      are those of each part, in turn. */
  lemma {:induction false} CrossingsAppend(a: seq<(Pos, nat)>, b: seq<(Pos, nat)>, found: map<Pos, nat>)
    ensures Crossings(a + b, found) == Crossings(a, found) + Crossings(b, found)
    decreases |b|
  {
    if b == [] {
      assert a + b == a;
    } else {
      var pre := b[..|b| - 1];
      assert (a + b)[..|a + b| - 1] == a + pre;
      CrossingsAppend(a, pre, found);
    }
  }

  /** `find_ints`: the positions of the right wire that the left wire also
      enters, in the right wire's order, each with the right wire's step
      count plus the left wire's count at its last entry there. */
  function FindInts(left: seq<Segment>, right: seq<Segment>): seq<(Pos, nat)>
  {
    Crossings(Positions(right), Found(Positions(left)))
  }

  /** Where a crossing comes from: a position of `right` that `found`
      knows, with the two counts added. */
  lemma CrossingAt(right: seq<(Pos, nat)>, found: map<Pos, nat>, x: (Pos, nat)) returns (j: nat)
    requires x in Crossings(right, found)
    ensures j < |right| && right[j].0 in found && x == (right[j].0, right[j].1 + found[right[j].0])
  {
    j :| 0 <= j < |right| && right[j].0 in found && x == (right[j].0, right[j].1 + found[right[j].0]);
  }

  /** Every crossing of `right` with the positions `left` has a position
      of both, with the two step counts added; the left one is its last
      entry there. */
  lemma CrossingsOnBoth(left: seq<(Pos, nat)>, right: seq<(Pos, nat)>, x: (Pos, nat))
    requires x in Crossings(right, Found(left))
    ensures exists j, i :: && 0 <= j < |right| && 0 <= i < |left|
                           && right[j].0 == x.0 == left[i].0
                           && x.1 == right[j].1 + left[i].1
                           && forall l :: i < l < |left| ==> left[l].0 != x.0
  {
    var found := Found(left);
    var j := CrossingAt(right, found, x);
    FoundKeepsLast(left, x.0);
    var i :| 0 <= i < |left| && left[i] == (x.0, found[x.0]) && forall l :: i < l < |left| ==> left[l].0 != x.0;
    assert right[j].0 == x.0 == left[i].0 && x.1 == right[j].1 + left[i].1;
  }

  /** Every result of `find_ints` is a position both wires enter, with the
      combined step counts. */
  lemma FindIntsOnBoth(left: seq<Segment>, right: seq<Segment>, x: (Pos, nat))
    requires x in FindInts(left, right)
    ensures exists j, i :: && 0 <= j < Total(right) && 0 <= i < Total(left)
                           && Positions(right)[j].0 == x.0 == Positions(left)[i].0
                           && x.1 == Positions(right)[j].1 + Positions(left)[i].1
                           && forall l :: i < l < Total(left) ==> Positions(left)[l].0 != x.0
  {
    CrossingsOnBoth(Positions(left), Positions(right), x);
  }

  // ---- distances ----

  function Abs(x: int): nat
  {
    if x < 0 then -x else x
  }

  /** `abs_diff` on `usize`: the larger less the smaller. */
  function AbsDiff(lhs: nat, rhs: nat): (d: nat)
    ensures d == Abs(lhs - rhs)
    ensures d == 0 <==> lhs == rhs
  {
    if lhs < rhs then rhs - lhs else lhs - rhs
  }

  lemma AbsDiffSymmetric(lhs: nat, rhs: nat)
    ensures AbsDiff(lhs, rhs) == AbsDiff(rhs, lhs)
  {
  }

  /** `center_dist`: the Manhattan distance from a grid cell to the port's
      cell (5000, 4000). */
  function CenterDist(r: nat, c: nat): (d: nat)
    ensures d == Abs(r - RowCenter) + Abs(c - ColCenter)
  {
    AbsDiff(r, RowCenter) + AbsDiff(c, ColCenter)
  }

  /** On the grid, the distance of a position's cell to the port's cell is
      the distance `min_dist` uses for the position itself. */
  lemma CenterDistOfCell(p: Pos)
    requires Cell(p).0 >= 0 && Cell(p).1 >= 0
    ensures CenterDist(Cell(p).0, Cell(p).1) == Abs(p.0) + Abs(p.1)
  {
  }

  /** The Manhattan distance of a position to the port, the key of
      `min_dist`. */
  function PortDist(p: Pos): int
  {
    Abs(p.0) + Abs(p.1)
  }

  /** `min_dist`: the first position nearest the port, with its distance;
      no positions at all fails the source's `unwrap`. */
  function MinDist(inters: seq<Pos>): (r: Option<(Pos, int)>)
    ensures r.None? <==> inters == []
    ensures r.Some? ==> r.value.1 == PortDist(r.value.0)
    ensures r.Some? ==> exists m :: && 0 <= m < |inters| && inters[m] == r.value.0
                                    && (forall j :: 0 <= j < m ==> PortDist(inters[j]) > r.value.1)
    ensures r.Some? ==> forall j :: 0 <= j < |inters| ==> r.value.1 <= PortDist(inters[j])
  {
    if inters == [] then None
    else
      var key: Pos -> int := p => PortDist(p);
      var m := ArgMin(inters, key);
      assert forall j :: 0 <= j < |inters| ==> key(inters[j]) == PortDist(inters[j]);
      Some((inters[m], PortDist(inters[m])))
  }

  /** The answer of `main`: the first crossing with the fewest combined
      steps; no crossing fails the source's `unwrap`. */
  function Closest(ints: seq<(Pos, nat)>): (r: Option<(Pos, nat)>)
    ensures r.None? <==> ints == []
    ensures r.Some? ==> exists m :: && 0 <= m < |ints| && ints[m] == r.value
                                    && (forall j :: 0 <= j < m ==> ints[j].1 > r.value.1)
    ensures r.Some? ==> forall j :: 0 <= j < |ints| ==> r.value.1 <= ints[j].1
  {
    if ints == [] then None
    else
      var key: ((Pos, nat)) -> int := (x: (Pos, nat)) => x.1;
      var m := ArgMin(ints, key);
      assert forall j :: 0 <= j < |ints| ==> key(ints[j]) == ints[j].1;
      Some(ints[m])
  }
}
