/**
 * The Myers diff of lib/benchmark/myers/diff.go: the O(ND) shortest edit
 * script of E. W. Myers, "An O(ND) Difference Algorithm and Its
 * Variations" (1986), in the form of the Go code. `ShortestEditSequence`
 * fills the frontier `V` diagonal by diagonal and keeps a copy of it per
 * number of edits; `Backtrack` walks those copies back from the end into
 * "snakes"; `Operations` turns the snakes into merged Delete and Insert
 * operations.
 *
 * The reference side of the model is the edit graph: a path of `Right`
 * (delete a line of `a`), `Down` (insert a line of `b`) and `Diagonal`
 * (keep a line equal in both) moves from (0, 0). `Far(d, k)` is the
 * frontier the Go loop computes: the x reached on diagonal k = x - y with
 * d edits. It is proved to be reached by a path (`FarPath`) and never to
 * be beaten by one (`FarReaches`), so the first d at which the frontier
 * reaches the end is the fewest edits any path needs (`NoShorterPath`).
 */
module Myers {

  datatype Option<T> = None | Some(value: T)

  // ---------------------------------------------------------- edit graph

  /** One move of the edit graph. */
  datatype Move = Right | Down | Diagonal

  /** A point (x, y) of the edit graph: x lines of `a` and y lines of `b` consumed. */
  datatype Point = Point(x: int, y: int)

  /** The point one move leads to. */
  function Next(pt: Point, m: Move): Point {
    match m
    case Right => Point(pt.x + 1, pt.y)
    case Down => Point(pt.x, pt.y + 1)
    case Diagonal => Point(pt.x + 1, pt.y + 1)
  }

  /** A path from (0, 0), built move by move. */
  datatype Path = Origin | Then(prev: Path, move: Move)

  /** The point a path ends at. */
  function Pos(p: Path): (r: Point)
    ensures 0 <= r.x && 0 <= r.y
  {
    match p
    case Origin => Point(0, 0)
    case Then(q, m) => Next(Pos(q), m)
  }

  /** Line x of `a` equals line y of `b`, both in range. */
  predicate Match(a: seq<string>, b: seq<string>, pt: Point) {
    0 <= pt.x < |a| && 0 <= pt.y < |b| && a[pt.x] == b[pt.y]
  }

  /** Every diagonal move of `p` keeps a line that is equal in `a` and `b`. */
  predicate Valid(a: seq<string>, b: seq<string>, p: Path) {
    match p
    case Origin => true
    case Then(q, m) => Valid(a, b, q) && (m == Diagonal ==> Match(a, b, Pos(q)))
  }

  /** The number of deletions and insertions on `p`. */
  function Edits(p: Path): nat {
    match p
    case Origin => 0
    case Then(q, m) => Edits(q) + (if m == Diagonal then 0 else 1)
  }

  /** The number of insertions on `p`; they fix its diagonal x - y. */
  function Downs(p: Path): (r: nat)
    ensures r <= Edits(p) && Pos(p).x - Pos(p).y == Edits(p) - 2 * r
  {
    match p
    case Origin => 0
    case Then(q, m) => Downs(q) + (if m == Down then 1 else 0)
  }

  /** The `n` lines of `a` from x equal the `n` lines of `b` from y. */
  predicate Equal(a: seq<string>, b: seq<string>, x: int, y: int, n: int)
    decreases n
  {
    if n <= 0 then n == 0 else Equal(a, b, x, y, n - 1) && Match(a, b, Point(x + n - 1, y + n - 1))
  }

  /** A run of equal lines preceded by one more equal pair. */
  lemma {:induction false} EqualCons(a: seq<string>, b: seq<string>, x: int, y: int, n: int)
    requires Match(a, b, Point(x, y)) && Equal(a, b, x + 1, y + 1, n)
    ensures Equal(a, b, x, y, n + 1)
    decreases n
  {
    if n > 0 {
      EqualCons(a, b, x, y, n - 1);
    }
  }

  // ---------------------------------------------------------- frontier

  /** The diagonal slide of the Go loop: x after following equal lines from (x, y). */
  function Slide(a: seq<string>, b: seq<string>, x: int, y: int): (r: int)
    requires 0 <= x && 0 <= y
    ensures x <= r
    decreases |a| - x
  {
    if x < |a| && y < |b| && a[x] == b[y] then Slide(a, b, x + 1, y + 1) else x
  }

  /** The Go slide loop: moves diagonally while the lines are equal. */
  method Snake(a: seq<string>, b: seq<string>, x0: int, y0: int) returns (x: int, y: int)
    requires 0 <= x0 && 0 <= y0
    ensures x == Slide(a, b, x0, y0) && y - x == y0 - x0
  {
    x, y := x0, y0;
    while x < |a| && y < |b| && a[x] == b[y]
      invariant x0 <= x && y - x == y0 - x0 && Slide(a, b, x, y) == Slide(a, b, x0, y0)
      decreases |a| - x
    {
      x := x + 1;
      y := y + 1;
    }
  }

  /** The slide follows equal lines and stops at the first unequal pair or at an end. */
  lemma {:induction false} SlideEqual(a: seq<string>, b: seq<string>, x: int, y: int)
    requires 0 <= x && 0 <= y
    ensures Equal(a, b, x, y, Slide(a, b, x, y) - x)
    ensures !Match(a, b, Point(Slide(a, b, x, y), y + (Slide(a, b, x, y) - x)))
    decreases |a| - x
  {
    if x < |a| && y < |b| && a[x] == b[y] {
      SlideEqual(a, b, x + 1, y + 1);
      EqualCons(a, b, x, y, Slide(a, b, x, y) - x - 1);
    }
  }

  /*
   * The frontier is indexed by the number of edits d and the number i of
   * them that are insertions (moves down): after d edits of which i are
   * insertions a path is on diagonal k = x - y = d - 2i, and the Go loop's
   * `for k := -d; k <= d; k += 2` visits exactly i = d, d - 1, ..., 0.
   */

  /**
   * The x at which step d enters diagonal d - 2i before sliding: one line
   * down from diagonal k + 1 (i - 1 insertions so far), or one line right
   * from diagonal k - 1 (i insertions so far), whichever lies further right
   * (rightwards on a tie).
   */
  function Start(a: seq<string>, b: seq<string>, d: int, i: int): (r: int)
    requires 0 <= i <= d && 1 <= d
    ensures 0 <= r && 0 <= r - d + 2 * i
    decreases d, 0
  {
    if i == d || (i != 0 && Far(a, b, d - 1, i) < Far(a, b, d - 1, i - 1)) then Far(a, b, d - 1, i - 1)
    else Far(a, b, d - 1, i) + 1
  }

  /** `V[d - 2i]` after step d: the furthest x on diagonal d - 2i with d edits, i of them insertions. */
  function Far(a: seq<string>, b: seq<string>, d: int, i: int): (r: int)
    requires 0 <= i <= d
    ensures 0 <= r && 0 <= r - d + 2 * i
    decreases d, 1
  {
    if d == 0 then Slide(a, b, 0, 0) else Slide(a, b, Start(a, b, d, i), Start(a, b, d, i) - d + 2 * i)
  }

  /**
   * Whether step d enters its diagonal by a move down (otherwise by a move
   * right), and where it enters.
   */
  lemma Entry(a: seq<string>, b: seq<string>, d: int, i: int) returns (down: bool)
    requires 0 <= i <= d && 1 <= d
    ensures down == (i == d || (i != 0 && Far(a, b, d - 1, i) < Far(a, b, d - 1, i - 1)))
    ensures down ==> 1 <= i && Start(a, b, d, i) == Far(a, b, d - 1, i - 1)
    ensures !down ==> i < d && Start(a, b, d, i) == Far(a, b, d - 1, i) + 1
    ensures Far(a, b, d, i) == Slide(a, b, Start(a, b, d, i), Start(a, b, d, i) - d + 2 * i)
  {
    down := i == d || (i != 0 && Far(a, b, d - 1, i) < Far(a, b, d - 1, i - 1));
  }

  /** A diagonal move from a point no further than the frontier stays no further. */
  lemma DiagonalStep(a: seq<string>, b: seq<string>, d: int, i: int, x: int, y: int)
    requires 0 <= i <= d && x <= Far(a, b, d, i) && y == x - d + 2 * i && Match(a, b, Point(x, y))
    ensures x + 1 <= Far(a, b, d, i)
  {
    var s := if d == 0 then 0 else Start(a, b, d, i);
    assert Far(a, b, d, i) == Slide(a, b, s, s - d + 2 * i);
    SlideEqual(a, b, s, s - d + 2 * i);
  }

  /** A move right from a point no further than the frontier is no further than the next frontier. */
  lemma RightStep(a: seq<string>, b: seq<string>, d: int, i: int, x: int)
    requires 0 <= i <= d && x <= Far(a, b, d, i)
    ensures x + 1 <= Far(a, b, d + 1, i)
  {
    assert Start(a, b, d + 1, i) >= Far(a, b, d, i) + 1;
  }

  /** A move down from a point no further than the frontier is no further than the next frontier. */
  lemma DownStep(a: seq<string>, b: seq<string>, d: int, i: int, x: int)
    requires 0 <= i <= d && x <= Far(a, b, d, i)
    ensures x <= Far(a, b, d + 1, i + 1)
  {
    assert Start(a, b, d + 1, i + 1) >= Far(a, b, d, i);
  }

  /** Step d's frontier on diagonal d - 2i is the end (|a|, |b|). */
  ghost predicate Hit(a: seq<string>, b: seq<string>, d: int, i: int)
    requires 0 <= i <= d
  {
    Far(a, b, d, i) == |a| && Far(a, b, d, i) - d + 2 * i == |b|
  }

  /** None of step d's frontier points on diagonals d - 2j with lo < j <= d is the end. */
  ghost predicate Clear(a: seq<string>, b: seq<string>, d: int, lo: int)
    decreases d - lo
  {
    -1 <= lo && (lo < d ==> Clear(a, b, d, lo + 1) && !Hit(a, b, d, lo + 1))
  }

  /** No point of the frontier before step `n` is the end. */
  ghost predicate Unreached(a: seq<string>, b: seq<string>, n: int)
    decreases n
  {
    n <= 0 || (Unreached(a, b, n - 1) && Clear(a, b, n - 1, -1))
  }

  /** One point of a clear part of a frontier. */
  lemma {:induction false} ClearAt(a: seq<string>, b: seq<string>, d: int, lo: int, i: int)
    requires Clear(a, b, d, lo) && lo < i <= d
    ensures !Hit(a, b, d, i)
    decreases d - lo
  {
    if lo + 1 < i {
      ClearAt(a, b, d, lo + 1, i);
    }
  }

  /** One point of a frontier before step `n`. */
  lemma {:induction false} UnreachedAt(a: seq<string>, b: seq<string>, n: int, d: int, i: int)
    requires Unreached(a, b, n) && 0 <= i <= d < n
    ensures !Hit(a, b, d, i)
    decreases n
  {
    if d < n - 1 {
      UnreachedAt(a, b, n - 1, d, i);
    } else {
      ClearAt(a, b, d, -1, i);
    }
  }

  // ----------------------------------------------------- paths and frontier

  /** Following `n` equal lines extends a path by `n` diagonal moves. */
  lemma {:induction false} ExtendEqual(a: seq<string>, b: seq<string>, p: Path, n: int) returns (r: Path)
    requires Valid(a, b, p) && Equal(a, b, Pos(p).x, Pos(p).y, n)
    ensures Valid(a, b, r) && Edits(r) == Edits(p)
    ensures Pos(r) == Point(Pos(p).x + n, Pos(p).y + n)
    decreases n
  {
    if n == 0 {
      r := p;
    } else {
      var r' := ExtendEqual(a, b, p, n - 1);
      r := Then(r', Diagonal);
    }
  }

  /** Following the snake from the end of `q` as far as the lines agree. */
  lemma SnakePath(a: seq<string>, b: seq<string>, q: Path) returns (p: Path)
    requires Valid(a, b, q)
    ensures Valid(a, b, p) && Edits(p) == Edits(q)
    ensures Pos(p) == Point(Slide(a, b, Pos(q).x, Pos(q).y), Slide(a, b, Pos(q).x, Pos(q).y) - Pos(q).x + Pos(q).y)
  {
    var pt := Pos(q);
    SlideEqual(a, b, pt.x, pt.y);
    p := ExtendEqual(a, b, q, Slide(a, b, pt.x, pt.y) - pt.x);
  }

  /** Every point where step d enters a diagonal is reached by a path with d edits. */
  lemma {:induction false} StartPath(a: seq<string>, b: seq<string>, d: int, i: int) returns (q: Path)
    requires 0 <= i <= d && 1 <= d
    ensures Valid(a, b, q) && Edits(q) == d
    ensures Pos(q) == Point(Start(a, b, d, i), Start(a, b, d, i) - d + 2 * i)
    decreases d, 0
  {
    var down := Entry(a, b, d, i);
    if down {
      var q' := FarPath(a, b, d - 1, i - 1);
      q := Then(q', Down);
    } else {
      var q' := FarPath(a, b, d - 1, i);
      q := Then(q', Right);
    }
  }

  /** Every frontier point is reached by a path with that many edits. */
  lemma {:induction false} FarPath(a: seq<string>, b: seq<string>, d: int, i: int) returns (p: Path)
    requires 0 <= i <= d
    ensures Valid(a, b, p) && Edits(p) == d
    ensures Pos(p) == Point(Far(a, b, d, i), Far(a, b, d, i) - d + 2 * i)
    decreases d, 1
  {
    var q := Origin;
    if d > 0 {
      q := StartPath(a, b, d, i);
    }
    p := SnakePath(a, b, q);
  }

  /** No path gets further along its diagonal than the frontier for its number of edits. */
  lemma {:induction false} FarReaches(a: seq<string>, b: seq<string>, p: Path)
    requires Valid(a, b, p)
    ensures Pos(p).x <= Far(a, b, Edits(p), Downs(p))
  {
    match p
    case Origin =>
    case Then(q, m) =>
      FarReaches(a, b, q);
      match m
      case Diagonal => FarDiagonal(a, b, q);
      case Right => FarRight(a, b, q);
      case Down => FarDown(a, b, q);
  }

  /** A diagonal move keeps a path no further than the frontier for its edits. */
  lemma FarDiagonal(a: seq<string>, b: seq<string>, q: Path)
    requires Valid(a, b, Then(q, Diagonal)) && Pos(q).x <= Far(a, b, Edits(q), Downs(q))
    ensures Pos(Then(q, Diagonal)).x <= Far(a, b, Edits(Then(q, Diagonal)), Downs(Then(q, Diagonal)))
  {
    var pt, d, i := Pos(q), Edits(q), Downs(q);
    assert Match(a, b, pt);
    DiagonalStep(a, b, d, i, pt.x, pt.y);
  }

  /** A move right keeps a path no further than the frontier for its edits. */
  lemma FarRight(a: seq<string>, b: seq<string>, q: Path)
    requires Pos(q).x <= Far(a, b, Edits(q), Downs(q))
    ensures Pos(Then(q, Right)).x <= Far(a, b, Edits(Then(q, Right)), Downs(Then(q, Right)))
  {
    var d, i := Edits(q), Downs(q);
    assert Edits(Then(q, Right)) == d + 1 && Downs(Then(q, Right)) == i;
    RightStep(a, b, d, i, Pos(q).x);
  }

  /** A move down keeps a path no further than the frontier for its edits. */
  lemma FarDown(a: seq<string>, b: seq<string>, q: Path)
    requires Pos(q).x <= Far(a, b, Edits(q), Downs(q))
    ensures Pos(Then(q, Down)).x <= Far(a, b, Edits(Then(q, Down)), Downs(Then(q, Down)))
  {
    var d, i := Edits(q), Downs(q);
    assert Edits(Then(q, Down)) == d + 1 && Downs(Then(q, Down)) == i + 1;
    DownStep(a, b, d, i, Pos(q).x);
  }

  /**
   * A path past the last line of `a` or `b` leaves the edit graph only by
   * edits; dropping those gives a path to the clipped point.
   */
  lemma {:induction false} Clip(a: seq<string>, b: seq<string>, p: Path) returns (q: Path)
    requires Valid(a, b, p)
    ensures Valid(a, b, q)
    ensures Pos(q) == Point(if Pos(p).x <= |a| then Pos(p).x else |a|, if Pos(p).y <= |b| then Pos(p).y else |b|)
    ensures Edits(q) + Pos(p).x - Pos(q).x + Pos(p).y - Pos(q).y == Edits(p)
  {
    match p
    case Origin =>
      q := Origin;
    case Then(init, m) =>
      var q0 := Clip(a, b, init);
      var x, y := Pos(init).x, Pos(init).y;
      if (m == Right && x >= |a|) || (m == Down && y >= |b|) {
        q := q0;
      } else {
        q := Then(q0, m);
      }
  }

  /** Before the frontier reaches the end, no path to the end is that short. */
  lemma {:induction false} NoShorterPath(a: seq<string>, b: seq<string>, n: int, p: Path)
    requires Unreached(a, b, n) && Valid(a, b, p) && Pos(p) == Point(|a|, |b|)
    ensures n <= Edits(p)
    decreases Edits(p)
  {
    var e := Edits(p);
    if e < n {
      var i := Downs(p);
      FarReaches(a, b, p);
      UnreachedAt(a, b, n, e, i);
      var r := FarPath(a, b, e, i);
      var q := Clip(a, b, r);
      NoShorterPath(a, b, n, q);
    }
  }

  /** A path of `n` moves right from the end of `p`. */
  lemma {:induction false} RightPath(a: seq<string>, b: seq<string>, p: Path, n: int) returns (r: Path)
    requires Valid(a, b, p) && 0 <= n
    ensures Valid(a, b, r) && Edits(r) == Edits(p) + n
    ensures Pos(r) == Point(Pos(p).x + n, Pos(p).y)
    decreases n
  {
    r := p;
    if n > 0 {
      var r' := RightPath(a, b, p, n - 1);
      r := Then(r', Right);
    }
  }

  /** A path of `n` moves down from the end of `p`. */
  lemma {:induction false} DownPath(a: seq<string>, b: seq<string>, p: Path, n: int) returns (r: Path)
    requires Valid(a, b, p) && 0 <= n
    ensures Valid(a, b, r) && Edits(r) == Edits(p) + n
    ensures Pos(r) == Point(Pos(p).x, Pos(p).y + n)
    decreases n
  {
    r := p;
    if n > 0 {
      var r' := DownPath(a, b, p, n - 1);
      r := Then(r', Down);
    }
  }

  /** A path that never leaves the axis x = 0 or y = 0 consists of edits only. */
  lemma {:induction false} AxisEdits(a: seq<string>, b: seq<string>, p: Path)
    ensures Pos(p).x == 0 || Pos(p).y == 0 ==> Edits(p) == Pos(p).x + Pos(p).y
  {
    match p
    case Origin =>
    case Then(q, m) =>
      AxisEdits(a, b, q);
  }

  /** A frontier point on an axis lies d edits from the origin. */
  lemma AxisFar(a: seq<string>, b: seq<string>, d: int, i: int)
    requires 0 <= i <= d
    ensures Far(a, b, d, i) == 0 ==> Far(a, b, d, i) - d + 2 * i == d
    ensures Far(a, b, d, i) - d + 2 * i == 0 ==> Far(a, b, d, i) == d
  {
    var p := FarPath(a, b, d, i);
    AxisEdits(a, b, p);
  }

  /** Lines that agree as slices agree pair by pair. */
  lemma {:induction false} SliceEqual(a: seq<string>, b: seq<string>, x: int, y: int, end: int)
    requires 0 <= x <= end <= |a| && 0 <= y && y + (end - x) <= |b| && a[x..end] == b[y..y + (end - x)]
    ensures Equal(a, b, x, y, end - x)
    decreases end
  {
    if x < end {
      assert a[end - 1] == a[x..end][end - 1 - x] == b[y..y + (end - x)][end - 1 - x] == b[y + (end - x) - 1];
      assert a[x..end - 1] == a[x..end][..end - 1 - x];
      assert b[y..y + (end - 1 - x)] == b[y..y + (end - x)][..end - 1 - x];
      SliceEqual(a, b, x, y, end - 1);
    }
  }

  // ------------------------------------------------------- edit scripts

  /** The kind of an operation. */
  datatype OpKind = Delete | Insert

  /**
   * Delete lines [i1, i2) of `a`, or insert `content` (lines j1.. of `b`)
   * before line i1 of `a`.
   */
  datatype Operation = Operation(kind: OpKind, content: seq<string>, i1: int, i2: int, j1: int)

  /** The operations touch `a` in increasing, non-overlapping ranges, all before `end`. */
  predicate Fits(a: seq<string>, ops: seq<Operation>, end: int) {
    if ops == [] then 0 <= end <= |a|
    else
      var o := ops[|ops| - 1];
      0 <= o.i1 <= o.i2 <= end <= |a| && Fits(a, ops[..|ops| - 1], o.i1)
  }

  /** `a[..end]` with the operations applied. */
  function Patch(a: seq<string>, ops: seq<Operation>, end: int): seq<string>
    requires Fits(a, ops, end)
  {
    if ops == [] then a[..end]
    else
      var o := ops[|ops| - 1];
      Patch(a, ops[..|ops| - 1], o.i1) + (if o.kind == Insert then o.content else []) + a[o.i2..end]
  }

  /** `a` with the operations applied. */
  function Apply(a: seq<string>, ops: seq<Operation>): seq<string>
    requires Fits(a, ops, |a|)
  {
    Patch(a, ops, |a|)
  }

  /** The number of lines the operations delete and insert. */
  function Cost(ops: seq<Operation>): int {
    if ops == [] then 0
    else
      var o := ops[|ops| - 1];
      Cost(ops[..|ops| - 1]) + (o.i2 - o.i1) + (if o.kind == Insert then |o.content| else 0)
  }

  /**
   * A Delete removes at least one line and carries no content; an Insert
   * removes nothing and carries the non-empty run of `b` from j1.
   */
  predicate Sound(b: seq<string>, o: Operation) {
    match o.kind
    case Delete => o.i1 < o.i2 && o.content == []
    case Insert =>
      o.i1 == o.i2 && 0 < |o.content| && 0 <= o.j1 && o.j1 + |o.content| <= |b|
      && o.content == b[o.j1..o.j1 + |o.content|]
  }

  /** One more line of `a` kept after the operations. */
  lemma PatchSnoc(a: seq<string>, ops: seq<Operation>, x: int)
    requires Fits(a, ops, x) && x < |a|
    ensures Fits(a, ops, x + 1) && Patch(a, ops, x + 1) == Patch(a, ops, x) + [a[x]]
  {
    if ops != [] {
      var o := ops[|ops| - 1];
      assert a[o.i2..x + 1] == a[o.i2..x] + [a[x]];
    } else {
      assert a[..x + 1] == a[..x] + [a[x]];
    }
  }

  /** `ins` moves down, `del` moves right, then `n` diagonal moves through equal lines. */
  lemma EditLegs(a: seq<string>, b: seq<string>, p: Path, ins: int, del: int, x: int, y: int, end: int) returns (r: Path)
    requires Valid(a, b, p) && 0 <= ins && 0 <= del
    requires x == Pos(p).x + del && y == Pos(p).y + ins
    requires x <= end <= |a| && y + (end - x) <= |b| && a[x..end] == b[y..y + (end - x)]
    ensures Valid(a, b, r) && Edits(r) == Edits(p) + ins + del
    ensures Pos(r) == Point(end, y + (end - x))
  {
    SliceEqual(a, b, x, y, end);
    var n := end - x;
    var p1 := DownPath(a, b, p, ins);
    var p2 := RightPath(a, b, p1, del);
    r := ExtendEqual(a, b, p2, n);
  }

  /** The parts of a prefix of `b` are the corresponding slices of `b`. */
  lemma PrefixParts(a: seq<string>, b: seq<string>, P: seq<string>, C: seq<string>, x: int, end: int)
    requires 0 <= x <= end <= |a|
    requires |P + C + a[x..end]| <= |b| && P + C + a[x..end] == b[..|P + C + a[x..end]|]
    ensures |P| + |C| + (end - x) <= |b|
    ensures P == b[..|P|] && a[x..end] == b[|P| + |C|..|P| + |C| + (end - x)]
  {
    var all := P + C + a[x..end];
    assert P == all[..|P|];
    assert a[x..end] == all[|P| + |C|..];
  }

  /**
   * Every edit script that turns `a[..end]` into a prefix of `b` is a path
   * through the edit graph with as many edits as the script costs.
   */
  lemma {:induction false} ScriptPath(a: seq<string>, b: seq<string>, ops: seq<Operation>, end: int) returns (p: Path)
    requires Fits(a, ops, end)
    requires |Patch(a, ops, end)| <= |b| && Patch(a, ops, end) == b[..|Patch(a, ops, end)|]
    ensures Valid(a, b, p) && Edits(p) == Cost(ops)
    ensures Pos(p) == Point(end, |Patch(a, ops, end)|)
    decreases |ops|
  {
    var P := Patch(a, ops, end);
    if ops == [] {
      assert a[0..end] == b[0..0 + (end - 0)];
      SliceEqual(a, b, 0, 0, end);
      p := ExtendEqual(a, b, Origin, end);
    } else {
      var o, init := ops[|ops| - 1], ops[..|ops| - 1];
      var P0 := Patch(a, init, o.i1);
      var C := if o.kind == Insert then o.content else [];
      assert P == P0 + C + a[o.i2..end];
      assert Cost(ops) == Cost(init) + |C| + (o.i2 - o.i1);
      PrefixParts(a, b, P0, C, o.i2, end);
      var p0 := ScriptPath(a, b, init, o.i1);
      p := EditLegs(a, b, p0, |C|, o.i2 - o.i1, o.i2, |P0| + |C|, end);
    }
  }

  /** Before the frontier reaches the end, no edit script is that cheap. */
  lemma NoCheaperScript(a: seq<string>, b: seq<string>, n: int, ops: seq<Operation>)
    requires Unreached(a, b, n) && Fits(a, ops, |a|) && Apply(a, ops) == b
    ensures n <= Cost(ops)
  {
    var p := ScriptPath(a, b, ops, |a|);
    NoShorterPath(a, b, n, p);
  }

  // ------------------------------------------------------------ the algorithm

  /**
   * `row` holds step d's frontier at index d - 2j + offset for every
   * diagonal d - 2j with lo < j <= d.
   */
  ghost predicate Partial(a: seq<string>, b: seq<string>, row: seq<int>, offset: int, d: int, lo: int)
    decreases d - lo
  {
    0 <= d <= offset && -1 <= lo && |row| == 2 * offset + 1
    && (lo < d ==> Partial(a, b, row, offset, d, lo + 1) && row[d - 2 * (lo + 1) + offset] == Far(a, b, d, lo + 1))
  }

  /** `row` holds all of step d's frontier. */
  ghost predicate Snapshot(a: seq<string>, b: seq<string>, row: seq<int>, offset: int, d: int) {
    Partial(a, b, row, offset, d, -1)
  }

  /** One value of a partly stored frontier. */
  lemma {:induction false} PartialAt(a: seq<string>, b: seq<string>, row: seq<int>, offset: int, d: int, lo: int, j: int)
    requires Partial(a, b, row, offset, d, lo) && lo < j <= d
    ensures row[d - 2 * j + offset] == Far(a, b, d, j)
    decreases d - lo
  {
    if lo + 1 < j {
      PartialAt(a, b, row, offset, d, lo + 1, j);
    }
  }

  /** Overwriting an entry off step d's diagonals, or one not yet stored, keeps what is stored. */
  lemma {:induction false} PartialKeep(a: seq<string>, b: seq<string>, row: seq<int>, offset: int, d: int, lo: int, t: int, x: int)
    requires Partial(a, b, row, offset, d, lo) && 0 <= t < |row|
    requires forall j :: lo < j <= d ==> t != d - 2 * j + offset
    ensures Partial(a, b, row[t := x], offset, d, lo)
    decreases d - lo
  {
    if lo < d {
      PartialKeep(a, b, row, offset, d, lo + 1, t, x);
    }
  }

  /** Storing step d's frontier on diagonal d - 2i extends what the row holds. */
  lemma PartialWrite(a: seq<string>, b: seq<string>, row: seq<int>, offset: int, d: int, i: int)
    requires Partial(a, b, row, offset, d, i) && 0 <= i <= d
    ensures Partial(a, b, row[d - 2 * i + offset := Far(a, b, d, i)], offset, d, i - 1)
  {
    PartialKeep(a, b, row, offset, d, i, d - 2 * i + offset, Far(a, b, d, i));
  }

  /** Storing a value of step d + 1 keeps step d's frontier, which lies on the other diagonals. */
  lemma SnapshotWrite(a: seq<string>, b: seq<string>, row: seq<int>, offset: int, d: int, i: int, x: int)
    requires Snapshot(a, b, row, offset, d) && 0 <= i <= d + 1 <= offset
    ensures Snapshot(a, b, row[d + 1 - 2 * i + offset := x], offset, d)
  {
    PartialKeep(a, b, row, offset, d, -1, d + 1 - 2 * i + offset, x);
  }

  /**
   * The start the Go loop reads for diagonal k = d - 2i from the row
   * holding step d - 1's frontier (from an all-zero row at step 0) is
   * where step d enters the diagonal.
   */
  lemma StartRead(a: seq<string>, b: seq<string>, row: seq<int>, offset: int, d: int, i: int, k: int) returns (s: int)
    requires 0 <= i <= d <= offset && 1 <= offset && |row| == 2 * offset + 1 && k == d - 2 * i
    requires d == 0 ==> row[1 + offset] == 0
    requires 0 < d ==> Snapshot(a, b, row, offset, d - 1)
    ensures s == if k == -d || (k != d && row[k - 1 + offset] < row[k + 1 + offset]) then row[k + 1 + offset] else row[k - 1 + offset] + 1
    ensures 0 <= s && 0 <= s - k && Far(a, b, d, i) == Slide(a, b, s, s - k)
  {
    if d > 0 {
      var _ := Entry(a, b, d, i);
      if i < d {
        PartialAt(a, b, row, offset, d - 1, -1, i);
      }
      if 0 < i {
        PartialAt(a, b, row, offset, d - 1, -1, i - 1);
      }
    }
    s := if k == -d || (k != d && row[k - 1 + offset] < row[k + 1 + offset]) then row[k + 1 + offset] else row[k - 1 + offset] + 1;
  }

  /**
   * Rows 0..n-1 of the trace are copies of the array, and each row e > 0
   * holds step e - 1's frontier.
   */
  ghost predicate Rows(a: seq<string>, b: seq<string>, trace: seq<seq<int>>, offset: int, n: int)
    decreases n
  {
    0 <= n <= |trace|
    && (0 < n ==> Rows(a, b, trace, offset, n - 1) && |trace[n - 1]| == 2 * offset + 1
                  && (1 < n ==> Snapshot(a, b, trace[n - 1], offset, n - 2)))
  }

  /** One row of the trace. */
  lemma {:induction false} RowsAt(a: seq<string>, b: seq<string>, trace: seq<seq<int>>, offset: int, n: int, e: int)
    requires Rows(a, b, trace, offset, n) && 0 <= e < n
    ensures |trace[e]| == 2 * offset + 1 && (0 < e ==> Snapshot(a, b, trace[e], offset, e - 1))
    decreases n
  {
    if e < n - 1 {
      RowsAt(a, b, trace, offset, n - 1, e);
    }
  }

  /** Storing row n after rows 0..n-1 keeps them. */
  lemma {:induction false} RowsSet(a: seq<string>, b: seq<string>, trace: seq<seq<int>>, offset: int, n: int, row: seq<int>)
    requires Rows(a, b, trace, offset, n) && n < |trace| && |row| == 2 * offset + 1
    requires 0 < n ==> Snapshot(a, b, row, offset, n - 1)
    ensures Rows(a, b, trace[n := row], offset, n + 1)
  {
    RowsKeep(a, b, trace, offset, n, n, row);
  }

  /** Overwriting a row at or after n keeps rows 0..n-1. */
  lemma {:induction false} RowsKeep(a: seq<string>, b: seq<string>, trace: seq<seq<int>>, offset: int, n: int, t: int, row: seq<int>)
    requires Rows(a, b, trace, offset, n) && n <= t < |trace|
    ensures Rows(a, b, trace[t := row], offset, n)
    decreases n
  {
    if 0 < n {
      RowsKeep(a, b, trace, offset, n - 1, t, row);
    }
  }

  /**
   * What `shortestEditSequence` leaves behind: the frontier first reaches
   * the end at step D, on diagonal D - 2I; row d of the trace is the array
   * after step d, which still holds step d - 1's frontier on the diagonals
   * of the other parity; the rows after D are empty.
   */
  ghost predicate Traced(a: seq<string>, b: seq<string>, trace: seq<seq<int>>, offset: int, D: int, I: int) {
    Walkable(a, b, trace, offset, D, I) && Unreached(a, b, D)
  }

  /** The part of `Traced` the walk back relies on. */
  ghost predicate Walkable(a: seq<string>, b: seq<string>, trace: seq<seq<int>>, offset: int, D: int, I: int) {
    offset == |a| + |b| && |trace| == offset + 1 && 0 <= I <= D <= offset && Hit(a, b, D, I)
    && Rows(a, b, trace, offset, D + 1) && (forall e :: D < e < |trace| ==> trace[e] == [])
  }

  /** The path straight right along `a` and then down along `b`. */
  lemma StraightPath(a: seq<string>, b: seq<string>) returns (p: Path)
    ensures Valid(a, b, p) && Edits(p) == |a| + |b| && Pos(p) == Point(|a|, |b|)
  {
    var r := RightPath(a, b, Origin, |a|);
    p := DownPath(a, b, r, |b|);
  }

  /**
   * Midway through step d: diagonals d, d - 2, ..., d - 2i + 2 hold step
   * d's frontier, the others still hold step d - 1's, and none of step d's
   * points found so far is the end.
   */
  ghost predicate Sweep(a: seq<string>, b: seq<string>, row: seq<int>, offset: int, d: int, i: int) {
    Partial(a, b, row, offset, d, i) && (0 < d ==> Snapshot(a, b, row, offset, d - 1)) && Clear(a, b, d, i)
  }

  /**
   * Storing step d's point x on diagonal k = d - 2i moves the sweep on by
   * one, and the sweep stops there exactly when x is the end.
   */
  lemma SweepWrite(a: seq<string>, b: seq<string>, row: seq<int>, offset: int, d: int, i: int, k: int, x: int)
    requires Sweep(a, b, row, offset, d, i) && 0 <= i <= d && k == d - 2 * i && x == Far(a, b, d, i)
    ensures Hit(a, b, d, i) <==> x == |a| && x - k == |b|
    ensures !Hit(a, b, d, i) ==> Sweep(a, b, row[k + offset := x], offset, d, i - 1)
    ensures 0 < d ==> Snapshot(a, b, row[k + offset := x], offset, d - 1)
    ensures |row[k + offset := x]| == 2 * offset + 1
  {
    PartialWrite(a, b, row, offset, d, i);
    if 0 < d {
      SnapshotWrite(a, b, row, offset, d - 1, i, x);
    }
  }

  /**
   * The body of the Go sweep for diagonal k = d - 2i: picks the neighbour
   * to extend from, steps onto k and slides; the result is step d's point.
   */
  method Enter(a: seq<string>, b: seq<string>, V: array<int>, offset: int, d: int, k: int, ghost i: int) returns (x: int, y: int)
    requires 0 <= i <= d <= offset && 1 <= offset && V.Length == 2 * offset + 1 && k == d - 2 * i
    requires d == 0 ==> V[1 + offset] == 0
    requires 0 < d ==> Snapshot(a, b, V[..], offset, d - 1)
    ensures x == Far(a, b, d, i) && y == x - k
  {
    ghost var s := StartRead(a, b, V[..], offset, d, i, k);
    if k == -d || (k != d && V[k - 1 + offset] < V[k + 1 + offset]) {
      x := V[k + 1 + offset];
    } else {
      x := V[k - 1 + offset] + 1;
    }
    x, y := Snake(a, b, x, x - k);
  }

  /**
   * One step d of the frontier sweep: for k = -d, -d + 2, ..., d it reads
   * where step d enters diagonal k from the array, slides, and stores the
   * result, stopping early once a diagonal reaches the end.
   */
  method Extend(a: seq<string>, b: seq<string>, V: array<int>, offset: int, d: int) returns (hit: bool, ghost I: int)
    requires offset == |a| + |b| && 1 <= offset && V.Length == 2 * offset + 1 && 0 <= d <= offset
    requires d == 0 ==> V[1 + offset] == 0
    requires 0 < d ==> Snapshot(a, b, V[..], offset, d - 1)
    modifies V
    ensures 0 < d ==> Snapshot(a, b, V[..], offset, d - 1)
    ensures hit ==> 0 <= I <= d && Hit(a, b, d, I)
    ensures !hit ==> Snapshot(a, b, V[..], offset, d) && Clear(a, b, d, -1)
  {
    var M, N := |a|, |b|;
    ghost var W := V[..];
    ghost var i := d;
    var k := -d;
    while k <= d
      invariant -d <= k <= d + 2 && k == d - 2 * i && -1 <= i <= d
      invariant V[..] == W && (d == 0 ==> W[1 + offset] == 0)
      invariant Sweep(a, b, W, offset, d, i)
    {
      var x, y := Enter(a, b, V, offset, d, k, i);
      SweepWrite(a, b, W, offset, d, i, k, x);
      V[k + offset] := x;
      W := W[k + offset := x];
      if x == M && y == N {
        hit, I := true, i;
        return;
      }
      k := k + 2;
      i := i - 1;
    }
    hit, I := false, i;
  }

  /**
   * The frontier sweep: for d = 0, 1, ... it extends every diagonal
   * -d, -d + 2, ..., d by one edit and a slide, keeping a copy of the
   * array per step, and stops at the first d whose frontier reaches the end.
   */
  method ShortestEditSequence(a: seq<string>, b: seq<string>) returns (trace: seq<seq<int>>, offset: int, ghost D: int, ghost I: int)
    requires 0 < |a| + |b|
    ensures Traced(a, b, trace, offset, D, I)
  {
    var M, N := |a|, |b|;
    var V := new int[2 * (N + M) + 1](_ => 0);
    offset := N + M;
    trace := seq(N + M + 1, _ => []);
    for d := 0 to N + M + 1
      invariant V.Length == 2 * offset + 1 && |trace| == offset + 1
      invariant d == 0 ==> V[1 + offset] == 0
      invariant 0 < d ==> Snapshot(a, b, V[..], offset, d - 1)
      invariant Unreached(a, b, d)
      invariant Rows(a, b, trace, offset, d) && forall e :: d <= e < |trace| ==> trace[e] == []
    {
      var hit;
      ghost var i;
      hit, i := Extend(a, b, V, offset, d);
      RowsSet(a, b, trace, offset, d, V[..]);
      trace := trace[d := V[..]];
      if hit {
        D, I := d, i;
        return;
      }
    }
    var p := StraightPath(a, b);
    NoShorterPath(a, b, N + M + 1, p);
    assert false;
    trace, offset := [], 0;
  }

  /** How far the snake from (ox, oy) to (tx, ty) moves across diagonals. */
  function Shift(ox: int, oy: int, tx: int, ty: int): int {
    (tx - ty) - (ox - oy)
  }

  /**
   * From (ox, oy) to (tx, ty): moves right (or down) onto the diagonal of
   * (tx, ty), then down that diagonal through equal lines.
   */
  predicate Step(a: seq<string>, b: seq<string>, ox: int, oy: int, tx: int, ty: int) {
    var dk := Shift(ox, oy, tx, ty);
    var h := if dk > 0 then dk else 0;
    var v := if dk < 0 then -dk else 0;
    ox + h <= tx && Equal(a, b, ox + h, oy + v, tx - ox - h)
  }

  /** The snake from snake end `p` to snake end `q` takes a single edit. */
  predicate Link(a: seq<string>, b: seq<string>, p: seq<int>, q: seq<int>) {
    |p| == 2 && |q| == 2 && Step(a, b, p[0], p[1], q[0], q[1])
    && (Shift(p[0], p[1], q[0], q[1]) == 1 || Shift(p[0], p[1], q[0], q[1]) == -1)
  }

  /**
   * Entries lo..D of `S` are snake ends inside the edit graph, each linked
   * to the next, and entry D is the end (|a|, |b|).
   */
  ghost predicate Links(a: seq<string>, b: seq<string>, S: seq<seq<int>>, lo: int, D: int)
    decreases D - lo
  {
    0 <= lo <= D < |S| && |S[lo]| == 2 && 0 <= S[lo][0] <= |a| && 0 <= S[lo][1] <= |b|
    && if lo == D then S[lo] == [|a|, |b|] else Links(a, b, S, lo + 1, D) && Link(a, b, S[lo], S[lo + 1])
  }

  /** Overwriting an entry before the linked ones leaves them linked. */
  lemma {:induction false} LinksUpdate(a: seq<string>, b: seq<string>, S: seq<seq<int>>, lo: int, D: int, d: int, v: seq<int>)
    requires Links(a, b, S, lo, D) && 0 <= d < lo
    ensures Links(a, b, S[d := v], lo, D)
    decreases D - lo
  {
    if lo < D {
      LinksUpdate(a, b, S, lo + 1, D, d, v);
    }
  }

  /**
   * What `backtrack` returns: entries d0..D are the ends of the snakes of
   * a path from (0, 0) to the end, the first reached by d0 edits, each
   * later one by a single edit; the other entries are empty.
   */
  ghost predicate Chain(a: seq<string>, b: seq<string>, S: seq<seq<int>>, d0: int, D: int) {
    Links(a, b, S, d0, D)
    && (forall e :: 0 <= e < |S| && !(d0 <= e <= D) ==> S[e] == [])
    && Step(a, b, 0, 0, S[d0][0], S[d0][1])
    && (Shift(0, 0, S[d0][0], S[d0][1]) == d0 || Shift(0, 0, S[d0][0], S[d0][1]) == -d0)
  }

  /**
   * The number of insertions of the step d - 1 point that step d's point
   * with i insertions was extended from: one fewer if step d moved down.
   */
  ghost function Back(a: seq<string>, b: seq<string>, d: int, i: int): (j: int)
    requires 1 <= d && 0 <= i <= d
    ensures 0 <= j <= d - 1 && (j == i - 1 || j == i)
  {
    if i == d || (i != 0 && Far(a, b, d - 1, i) < Far(a, b, d - 1, i - 1)) then i - 1 else i
  }

  /** Step d's frontier point with i insertions, as the Go code stores a snake end. */
  ghost function Pt(a: seq<string>, b: seq<string>, d: int, i: int): seq<int>
    requires 0 <= i <= d
  {
    [Far(a, b, d, i), Far(a, b, d, i) - d + 2 * i]
  }

  /** One edit onto (sx, sy) and a run of equal lines from there make a link. */
  lemma LinkOf(a: seq<string>, b: seq<string>, ox: int, oy: int, sx: int, sy: int, x: int, y: int)
    requires (sx == ox && sy == oy + 1) || (sx == ox + 1 && sy == oy)
    requires sx <= x && y - x == sy - sx && Equal(a, b, sx, sy, x - sx)
    ensures Link(a, b, [ox, oy], [x, y])
  {
  }

  /**
   * One step of the walk back: step d's point is one edit and a slide
   * away from the point of step d - 1 it was extended from.
   */
  lemma BackStep(a: seq<string>, b: seq<string>, d: int, i: int)
    requires 0 <= i <= d && 1 <= d
    ensures Link(a, b, Pt(a, b, d - 1, Back(a, b, d, i)), Pt(a, b, d, i))
  {
    var down := Entry(a, b, d, i);
    var j := Back(a, b, d, i);
    var s := Start(a, b, d, i);
    var x := Far(a, b, d, i);
    var ox := Far(a, b, d - 1, j);
    SlideEqual(a, b, s, s - d + 2 * i);
    if down {
      assert j == i - 1 && s == ox;
    } else {
      assert j == i && s == ox + 1;
    }
    LinkOf(a, b, ox, ox - (d - 1) + 2 * j, s, s - d + 2 * i, x, x - d + 2 * i);
    assert Pt(a, b, d - 1, j) == [ox, ox - (d - 1) + 2 * j];
    assert Pt(a, b, d, i) == [x, x - d + 2 * i];
  }

  /**
   * The insertions of step e's point on the walk back from step D's point
   * with I insertions.
   */
  ghost function Ins(a: seq<string>, b: seq<string>, D: int, I: int, e: int): (r: int)
    requires 0 <= I <= D && 0 <= e <= D
    ensures 0 <= r <= e
    decreases D - e
  {
    if e == D then I else Back(a, b, e + 1, Ins(a, b, D, I, e + 1))
  }

  /** A trace of n snakes with nothing recorded yet. */
  function Blank(n: nat): (S: seq<seq<int>>)
    ensures |S| == n && forall e :: 0 <= e < n ==> S[e] == []
  {
    seq(n, _ => [])
  }

  /**
   * The snakes the walk back has recorded once it is at step d: the points
   * of steps d + 1..D on its way, and nothing elsewhere.
   */
  ghost function Recorded(a: seq<string>, b: seq<string>, D: int, I: int, d: int, n: nat): (S: seq<seq<int>>)
    requires 0 <= I <= D < n && -1 <= d
    ensures |S| == n
    decreases D - d
  {
    if d >= D then Blank(n) else Recorded(a, b, D, I, d + 1, n)[d + 1 := Pt(a, b, d + 1, Ins(a, b, D, I, d + 1))]
  }

  /** Entry e of what the walk back has recorded at step d. */
  lemma {:induction false} RecordedAt(a: seq<string>, b: seq<string>, D: int, I: int, d: int, n: nat, e: int)
    requires 0 <= I <= D < n && -1 <= d && 0 <= e < n
    ensures Recorded(a, b, D, I, d, n)[e] == if d < e <= D then Pt(a, b, e, Ins(a, b, D, I, e)) else []
    decreases D - d
  {
    if d < D {
      RecordedAt(a, b, D, I, d + 1, n, e);
    }
  }

  /** A single-edit snake never moves back along either sequence. */
  lemma LinkForward(a: seq<string>, b: seq<string>, p: seq<int>, q: seq<int>)
    requires Link(a, b, p, q)
    ensures p[0] <= q[0] && p[1] <= q[1]
  {
  }

  /** A snake end inside the graph linked to linked entries extends them. */
  lemma LinksCons(a: seq<string>, b: seq<string>, S: seq<seq<int>>, lo: int, D: int)
    requires 0 <= lo < D && Links(a, b, S, lo + 1, D)
    requires |S[lo]| == 2 && 0 <= S[lo][0] && 0 <= S[lo][1] && Link(a, b, S[lo], S[lo + 1])
    ensures Links(a, b, S, lo, D)
  {
    LinkForward(a, b, S[lo], S[lo + 1]);
  }

  /** Writing a snake end linked to the first linked entry before it extends them. */
  lemma LinksPush(a: seq<string>, b: seq<string>, T: seq<seq<int>>, lo: int, D: int, p: seq<int>, q: seq<int>)
    requires 0 <= lo < D && Links(a, b, T, lo + 1, D) && T[lo + 1] == q
    requires |p| == 2 && 0 <= p[0] && 0 <= p[1] && Link(a, b, p, q)
    ensures Links(a, b, T[lo := p], lo, D)
  {
    LinksUpdate(a, b, T, lo + 1, D, lo, p);
    LinksCons(a, b, T[lo := p], lo, D);
  }

  /** Recording step d + 1's point before linked entries d + 2..D extends them. */
  lemma RecordedLinksStep(a: seq<string>, b: seq<string>, D: int, I: int, d: int, n: nat)
    requires 0 <= I <= D < n && -1 <= d && d + 1 < D
    requires Links(a, b, Recorded(a, b, D, I, d + 1, n), d + 2, D)
    ensures Links(a, b, Recorded(a, b, D, I, d, n), d + 1, D)
  {
    var j := Ins(a, b, D, I, d + 2);
    var i := Back(a, b, d + 2, j);
    var p := Pt(a, b, d + 1, i);
    var q := Pt(a, b, d + 2, j);
    var T := Recorded(a, b, D, I, d + 1, n);
    RecordedAt(a, b, D, I, d + 1, n, d + 2);
    BackStep(a, b, d + 2, j);
    LinksPush(a, b, T, d + 1, D, p, q);
  }

  /** The walk back records points linked one to the next up to the end. */
  lemma {:induction false} RecordedLinks(a: seq<string>, b: seq<string>, D: int, I: int, d: int, n: nat)
    requires 0 <= I <= D < n && -1 <= d < D && Hit(a, b, D, I)
    ensures Links(a, b, Recorded(a, b, D, I, d, n), d + 1, D)
    decreases D - d
  {
    if d + 1 < D {
      RecordedLinks(a, b, D, I, d + 1, n);
      RecordedLinksStep(a, b, D, I, d, n);
    } else {
      RecordedAt(a, b, D, I, d, n, d + 1);
    }
  }

  /** The point where the walk stops is reached from (0, 0) by its d edits. */
  lemma FirstSnake(a: seq<string>, b: seq<string>, d: int, i: int)
    requires 0 <= i <= d
    requires var x := Far(a, b, d, i); x == 0 || x - d + 2 * i == 0 || d == 0
    ensures var x := Far(a, b, d, i); var y := x - d + 2 * i;
      Step(a, b, 0, 0, x, y) && (Shift(0, 0, x, y) == d || Shift(0, 0, x, y) == -d)
  {
    AxisFar(a, b, d, i);
    if d == 0 {
      SlideEqual(a, b, 0, 0);
    }
  }

  /** The walk back records nothing outside steps d + 1..D. */
  lemma RecordedBlank(a: seq<string>, b: seq<string>, D: int, I: int, d: int, n: nat)
    requires 0 <= I <= D < n && -1 <= d
    ensures forall e :: 0 <= e < n && !(d < e <= D) ==> Recorded(a, b, D, I, d, n)[e] == []
  {
    forall e | 0 <= e < n && !(d < e <= D)
      ensures Recorded(a, b, D, I, d, n)[e] == []
    {
      RecordedAt(a, b, D, I, d, n, e);
    }
  }

  /** The first point recorded, on an axis or at step 0, is reached from (0, 0). */
  lemma RecordedFirst(a: seq<string>, b: seq<string>, D: int, I: int, d0: int, n: nat)
    requires 0 <= I <= D < n && 0 <= d0 <= D
    requires var x := Far(a, b, d0, Ins(a, b, D, I, d0)); x == 0 || x - d0 + 2 * Ins(a, b, D, I, d0) == 0 || d0 == 0
    ensures var p := Recorded(a, b, D, I, d0 - 1, n)[d0];
      |p| == 2 && Step(a, b, 0, 0, p[0], p[1]) && (Shift(0, 0, p[0], p[1]) == d0 || Shift(0, 0, p[0], p[1]) == -d0)
  {
    RecordedAt(a, b, D, I, d0 - 1, n, d0);
    FirstSnake(a, b, d0, Ins(a, b, D, I, d0));
  }

  /**
   * The walk back stopped at step d0, on an axis or at step 0, has
   * recorded a chain of snakes from (0, 0) to the end.
   */
  lemma RecordedChain(a: seq<string>, b: seq<string>, D: int, I: int, d0: int, n: nat)
    requires 0 <= I <= D < n && 0 <= d0 <= D && Hit(a, b, D, I)
    requires var x := Far(a, b, d0, Ins(a, b, D, I, d0)); x == 0 || x - d0 + 2 * Ins(a, b, D, I, d0) == 0 || d0 == 0
    ensures Chain(a, b, Recorded(a, b, D, I, d0 - 1, n), d0, D)
  {
    RecordedLinks(a, b, D, I, d0 - 1, n);
    RecordedFirst(a, b, D, I, d0, n);
    RecordedBlank(a, b, D, I, d0 - 1, n);
  }

  /** Exactly the rows of steps 0..D are filled in, row d with step d - 1's frontier. */
  lemma RowFilled(a: seq<string>, b: seq<string>, trace: seq<seq<int>>, offset: int, D: int, I: int, d: int)
    requires Walkable(a, b, trace, offset, D, I) && 0 <= d < |trace|
    ensures |trace[d]| == if d <= D then 2 * offset + 1 else 0
    ensures 1 <= d <= D ==> d <= offset && Snapshot(a, b, trace[d], offset, d - 1)
  {
    if d <= D {
      RowsAt(a, b, trace, offset, D + 1, d);
    }
  }

  /**
   * Where the walk back from step D's point with I insertions stands at
   * step d: still at the end above D, at step d's point on its way below.
   */
  ghost predicate OnWalk(a: seq<string>, b: seq<string>, D: int, I: int, d: int, i: int, x: int, y: int)
    requires 0 <= I <= D && 0 <= d
  {
    (d >= D ==> x == |a| && y == |b| && i == I)
    && (d <= D ==> i == Ins(a, b, D, I, d) && x == Far(a, b, d, i) && y == x - d + 2 * i)
  }

  /** A step of the walk back keeps it on its way. */
  lemma OnWalkStep(a: seq<string>, b: seq<string>, D: int, I: int, d: int, i: int, x: int, y: int, x': int, y': int)
    returns (i': int)
    requires 0 <= I <= D && 1 <= d && Hit(a, b, D, I) && OnWalk(a, b, D, I, d, i, x, y)
    requires d <= D ==> x' == Far(a, b, d - 1, Back(a, b, d, i)) && y' == x' - (d - 1) + 2 * Back(a, b, d, i)
    requires d > D ==> x' == x && y' == y
    ensures OnWalk(a, b, D, I, d - 1, i', x', y')
  {
    i' := if d <= D then Back(a, b, d, i) else i;
  }

  /**
   * Where the walk back stops, on an axis or at step 0, it has recorded
   * a chain of snakes once it records the point it stopped at.
   */
  lemma WalkEnd(a: seq<string>, b: seq<string>, D: int, I: int, n: nat, d: int, i: int, x: int, y: int)
    requires 0 <= I <= D < n && Hit(a, b, D, I) && 0 <= d <= |a| + |b| && OnWalk(a, b, D, I, d, i, x, y)
    requires x <= 0 || y <= 0 || d <= 0
    ensures 0 <= x && 0 <= y && Chain(a, b, Recorded(a, b, D, I, d, n)[d := [x, y]], d, D)
  {
    WalkStops(a, b, D, I, d, i, x, y);
    RecordedNext(a, b, D, I, d, n, x, y);
    RecordedChain(a, b, D, I, d, n);
  }

  /** The walk back stops at or below D, at step d's point on its way. */
  lemma WalkStops(a: seq<string>, b: seq<string>, D: int, I: int, d: int, i: int, x: int, y: int)
    requires 0 <= I <= D && Hit(a, b, D, I) && 0 <= d <= |a| + |b| && OnWalk(a, b, D, I, d, i, x, y)
    requires x <= 0 || y <= 0 || d <= 0
    ensures d <= D && i == Ins(a, b, D, I, d) && [x, y] == Pt(a, b, d, i)
    ensures x == 0 || y == 0 || d == 0
  {
    AxisFar(a, b, D, I);
  }

  /**
   * Moving from step d to step d - 1 records (x, y) at d when d <= D, the
   * point of step d on the walk back.
   */
  lemma RecordedNext(a: seq<string>, b: seq<string>, D: int, I: int, d: int, n: nat, x: int, y: int)
    requires 0 <= I <= D < n && 0 <= d < n
    requires d <= D ==> [x, y] == Pt(a, b, d, Ins(a, b, D, I, d))
    ensures Recorded(a, b, D, I, d - 1, n) == if d <= D then Recorded(a, b, D, I, d, n)[d := [x, y]] else Recorded(a, b, D, I, d, n)
  {
  }

  /**
   * One step of the Go walk back: at step d's point (x, y) with i
   * insertions on diagonal k, it compares the two entries of step d's row
   * around k as the sweep did, and so moves to the point of step d - 1
   * that step d was extended from.
   */
  method Retreat(V: seq<int>, offset: int, d: int, x0: int, y0: int, ghost a: seq<string>, ghost b: seq<string>, ghost i: int)
    returns (x: int, y: int)
    requires 1 <= d <= offset && Snapshot(a, b, V, offset, d - 1) && 0 <= i <= d
    requires x0 == Far(a, b, d, i) && y0 == x0 - d + 2 * i
    ensures x == Far(a, b, d - 1, Back(a, b, d, i)) && y == x - (d - 1) + 2 * Back(a, b, d, i)
  {
    if i < d {
      PartialAt(a, b, V, offset, d - 1, -1, i);
    }
    if 0 < i {
      PartialAt(a, b, V, offset, d - 1, -1, i - 1);
    }
    var k := x0 - y0;
    var prev;
    if k == -d || (k != d && V[k - 1 + offset] < V[k + 1 + offset]) {
      prev := k + 1;
    } else {
      prev := k - 1;
    }
    x := V[prev + offset];
    y := x - prev;
  }

  /**
   * Walks the trace back from the end (x0, y0), recording at each step d
   * the end of step d's snake, until it reaches an axis or step 0.
   */
  method Backtrack(trace: seq<seq<int>>, x0: int, y0: int, offset: int, ghost a: seq<string>, ghost b: seq<string>, ghost D: int, ghost I: int)
    returns (snakes: seq<seq<int>>, ghost d0: int)
    requires Walkable(a, b, trace, offset, D, I) && x0 == |a| && y0 == |b|
    ensures |snakes| == |trace| && Chain(a, b, snakes, d0, D)
  {
    snakes := Blank(|trace|);
    var x, y := x0, y0;
    var d := |trace| - 1;
    ghost var i := I;
    while x > 0 && y > 0 && d > 0
      invariant 0 <= d < |trace| && |snakes| == |trace|
      invariant OnWalk(a, b, D, I, d, i, x, y)
      invariant snakes == Recorded(a, b, D, I, d, |trace|)
      decreases d
    {
      var V := trace[d];
      RowFilled(a, b, trace, offset, D, I, d);
      RecordedNext(a, b, D, I, d, |trace|, x, y);
      ghost var x1, y1 := x, y;
      if |V| != 0 {
        snakes := snakes[d := [x, y]];
        x, y := Retreat(V, offset, d, x, y, a, b, i);
      }
      i := OnWalkStep(a, b, D, I, d, i, x1, y1, x, y);
      d := d - 1;
    }
    WalkEnd(a, b, D, I, |trace|, d, i, x, y);
    if x < 0 || y < 0 {
      assert false;
      return;
    }
    snakes := snakes[d := [x, y]];
    d0 := d;
  }

  // ------------------------------------------------------------ operations

  /** A link inside a linked stretch, with the bounds of its first end. */
  lemma {:induction false} LinksAt(a: seq<string>, b: seq<string>, S: seq<seq<int>>, lo: int, D: int, e: int)
    requires Links(a, b, S, lo, D) && lo <= e <= D
    ensures |S[e]| == 2 && 0 <= S[e][0] <= |a| && 0 <= S[e][1] <= |b|
    ensures e < D ==> Link(a, b, S[e], S[e + 1])
    ensures e == D ==> S[e] == [|a|, |b|]
    decreases e - lo
  {
    if lo < e {
      LinksAt(a, b, S, lo + 1, D, e);
    }
  }

  /** The pending operation `add` records once its run ends at (i2, j2). */
  function Add(b: seq<string>, solution: seq<Operation>, op: Option<Operation>, i2: int, j2: int): (r: seq<Operation>)
    requires op.Some? && op.value.kind == Insert ==> 0 <= op.value.j1 <= j2 <= |b|
    ensures op.None? ==> r == solution
    ensures op.Some? ==> |r| == |solution| + 1 && r[..|solution|] == solution
    ensures op.Some? ==> r[|solution|].kind == op.value.kind && r[|solution|].i1 == op.value.i1
    ensures op.Some? ==> r[|solution|].i2 == i2 && r[|solution|].j1 == op.value.j1
    ensures op.Some? ==> r[|solution|].content == if op.value.kind == Insert then b[op.value.j1..j2] else op.value.content
  {
    match op
    case None => solution
    case Some(o) =>
      var content := if o.kind == Insert then b[o.j1..j2] else o.content;
      solution + [o.(i2 := i2, content := content)]
  }

  /** A run of deletions from x0 to x leaves the patched prefix as it was. */
  lemma PatchDelete(a: seq<string>, ops: seq<Operation>, o: Operation, x0: int, x: int)
    requires Fits(a, ops, x0) && x0 < x <= |a| && o.kind == Delete && o.i1 == x0 && o.i2 == x
    ensures Fits(a, ops + [o], x) && Patch(a, ops + [o], x) == Patch(a, ops, x0)
    ensures Cost(ops + [o]) == Cost(ops) + (x - x0)
  {
    assert (ops + [o])[..|ops|] == ops;
  }

  /** A run of insertions at x appends the inserted lines to the patched prefix. */
  lemma PatchInsert(a: seq<string>, ops: seq<Operation>, o: Operation, x: int)
    requires Fits(a, ops, x) && o.kind == Insert && o.i1 == x && o.i2 == x
    ensures Fits(a, ops + [o], x) && Patch(a, ops + [o], x) == Patch(a, ops, x) + o.content
    ensures Cost(ops + [o]) == Cost(ops) + |o.content|
  {
    assert (ops + [o])[..|ops|] == ops;
  }

  /** `ops` is `ops0` followed by sound operations only. */
  predicate Extends(b: seq<string>, ops0: seq<Operation>, ops: seq<Operation>) {
    |ops0| <= |ops| && ops[..|ops0|] == ops0 && forall j :: |ops0| <= j < |ops| ==> Sound(b, ops[j])
  }

  /** Extending twice is extending. */
  lemma ExtendsTrans(b: seq<string>, ops0: seq<Operation>, ops1: seq<Operation>, ops2: seq<Operation>)
    requires Extends(b, ops0, ops1) && Extends(b, ops1, ops2)
    ensures Extends(b, ops0, ops2)
  {
    assert ops2[..|ops0|] == ops2[..|ops1|][..|ops0|];
  }

  /** Recording the Delete the delete loop opened over [x0, x). */
  lemma AddDelete(a: seq<string>, b: seq<string>, ops: seq<Operation>, op: Option<Operation>, x0: int, x: int, y: int)
    requires Fits(a, ops, x0) && x0 <= x <= |a|
    requires op == if x == x0 then None else Some(Operation(Delete, [], x0, 0, y))
    ensures var r := Add(b, ops, op, x, y);
      Fits(a, r, x) && Patch(a, r, x) == Patch(a, ops, x0) && Extends(b, ops, r)
      && Cost(r) == Cost(ops) + (x - x0) && |r| - |ops| <= x - x0
  {
    if op.Some? {
      PatchDelete(a, ops, op.value.(i2 := x), x0, x);
    }
  }

  /** Recording the Insert the insert loop opened over lines [y0, y) of `b`. */
  lemma AddInsert(a: seq<string>, b: seq<string>, ops: seq<Operation>, op: Option<Operation>, x: int, y0: int, y: int)
    requires Fits(a, ops, x) && 0 <= y0 <= y <= |b|
    requires op == if y == y0 then None else Some(Operation(Insert, [], x, 0, y0))
    ensures var r := Add(b, ops, op, x, y);
      Fits(a, r, x) && Patch(a, r, x) == Patch(a, ops, x) + b[y0..y] && Extends(b, ops, r)
      && Cost(r) == Cost(ops) + (y - y0) && |r| - |ops| <= y - y0
  {
    if op.Some? {
      PatchInsert(a, ops, op.value.(i2 := x, content := b[y0..y]), x);
    } else {
      assert b[y0..y] == [];
    }
  }

  /** Keeping a run of n equal lines extends the patched prefix by them. */
  lemma {:induction false} PatchEqual(a: seq<string>, b: seq<string>, ops: seq<Operation>, x: int, y: int, n: int, xe: int, ye: int)
    requires Fits(a, ops, x) && 0 <= y <= |b| && Patch(a, ops, x) == b[..y] && Equal(a, b, x, y, n)
    requires xe == x + n && ye == y + n
    ensures Fits(a, ops, xe) && Patch(a, ops, xe) == b[..ye]
    decreases n
  {
    if 0 < n {
      var x1, y1 := xe - 1, ye - 1;
      assert Equal(a, b, x, y, n - 1) && Match(a, b, Point(x1, y1));
      PatchEqual(a, b, ops, x, y, n - 1, x1, y1);
      PatchSnoc(a, ops, x1);
      assert b[..ye] == b[..y1] + [b[y1]];
    }
  }

  /**
   * After the edits of a step from (x0, y0) to (tx, ty), at (x, y),
   * keeping the equal lines of the step reaches (tx, ty) with the patched
   * prefix still a prefix of `b`.
   */
  lemma StepPatch(a: seq<string>, b: seq<string>, ops: seq<Operation>, x0: int, y0: int, tx: int, ty: int, x: int, y: int)
    requires Step(a, b, x0, y0, tx, ty) && ty <= |b|
    requires var dk := Shift(x0, y0, tx, ty); x == x0 + (if dk > 0 then dk else 0) && y == y0 + (if dk < 0 then -dk else 0)
    requires Fits(a, ops, x) && 0 <= y && Patch(a, ops, x) == b[..y]
    ensures Fits(a, ops, tx) && Patch(a, ops, tx) == b[..ty]
  {
    PatchEqual(a, b, ops, x, y, tx - x, tx, ty);
  }

  /**
   * The delete loop of `operations` and the `add` after it: moves right
   * from (x0, y0) onto diagonal k, opening a Delete at the first move and
   * stopping early at the last line of `a`, then records the Delete.
   */
  method DeleteRun(a: seq<string>, b: seq<string>, k: int, x0: int, y0: int, ops0: seq<Operation>) returns (x: int, ops: seq<Operation>)
    requires 0 <= x0 && x0 + (if k > x0 - y0 then k - (x0 - y0) else 0) <= |a| && Fits(a, ops0, x0)
    ensures x == x0 + (if k > x0 - y0 then k - (x0 - y0) else 0)
    ensures Fits(a, ops, x) && Patch(a, ops, x) == Patch(a, ops0, x0) && Extends(b, ops0, ops)
    ensures Cost(ops) == Cost(ops0) + (x - x0) && |ops| - |ops0| <= x - x0
  {
    x := x0;
    var y := y0;
    var op: Option<Operation> := None;
    while k > x - y
      invariant x0 <= x <= x0 + (if k > x0 - y0 then k - (x0 - y0) else 0) && y == y0
      invariant op == if x == x0 then None else Some(Operation(Delete, [], x0, 0, y0))
      decreases k - (x - y)
    {
      if op == None {
        op := Some(Operation(Delete, [], x, 0, y));
      }
      x := x + 1;
      if x == |a| {
        break;
      }
    }
    AddDelete(a, b, ops0, op, x0, x, y);
    ops := Add(b, ops0, op, x, y);
  }

  /**
   * The insert loop of `operations` and the `add` after it: moves down
   * from (x, y0) onto diagonal k, opening an Insert at the first move, then
   * records the Insert with the lines of `b` it passed.
   */
  method InsertRun(a: seq<string>, b: seq<string>, k: int, x: int, y0: int, ops0: seq<Operation>) returns (y: int, ops: seq<Operation>)
    requires 0 <= y0 && y0 + (if k < x - y0 then (x - y0) - k else 0) <= |b| && Fits(a, ops0, x)
    ensures y == y0 + (if k < x - y0 then (x - y0) - k else 0)
    ensures Fits(a, ops, x) && Patch(a, ops, x) == Patch(a, ops0, x) + b[y0..y] && Extends(b, ops0, ops)
    ensures Cost(ops) == Cost(ops0) + (y - y0) && |ops| - |ops0| <= y - y0
  {
    y := y0;
    var op: Option<Operation> := None;
    while k < x - y
      invariant y0 <= y <= y0 + (if k < x - y0 then (x - y0) - k else 0)
      invariant op == if y == y0 then None else Some(Operation(Insert, [], x, 0, y0))
      decreases (x - y) - k
    {
      if op == None {
        op := Some(Operation(Insert, [], x, 0, y));
      }
      y := y + 1;
    }
    AddInsert(a, b, ops0, op, x, y0, y);
    ops := Add(b, ops0, op, x, y);
  }

  /**
   * The body of the loop over the snakes in `operations`: from (x0, y0),
   * deletes (or inserts) onto the diagonal of the snake's end, then moves
   * down the diagonal to the end, recording at most one operation.
   */
  method Follow(a: seq<string>, b: seq<string>, snake: seq<int>, x0: int, y0: int, ops0: seq<Operation>)
    returns (x: int, y: int, ops: seq<Operation>)
    requires |snake| >= 2 && snake[0] <= |a| && snake[1] <= |b| && Step(a, b, x0, y0, snake[0], snake[1])
    requires 0 <= x0 && 0 <= y0 <= |b| && Fits(a, ops0, x0) && Patch(a, ops0, x0) == b[..y0]
    ensures x == snake[0] && y == snake[1]
    ensures Fits(a, ops, x) && Patch(a, ops, x) == b[..y] && Extends(b, ops0, ops)
    ensures var dk := Shift(x0, y0, snake[0], snake[1]);
      Cost(ops) == Cost(ops0) + (if dk < 0 then -dk else dk) && |ops| - |ops0| <= (if dk < 0 then -dk else dk)
  {
    // delete (horizontal)
    x, ops := DeleteRun(a, b, snake[0] - snake[1], x0, y0, ops0);
    // insert (vertical)
    var ops1 := ops;
    y, ops := InsertRun(a, b, snake[0] - snake[1], x, y0, ops);
    ExtendsTrans(b, ops0, ops1, ops);
    assert b[..y0] + b[y0..y] == b[..y];
    // equal (diagonal)
    ghost var xs, ys := x, y;
    while x < snake[0]
      invariant x <= snake[0] && y - x == ys - xs
      decreases snake[0] - x
    {
      x := x + 1;
      y := y + 1;
    }
    StepPatch(a, b, ops, x0, y0, snake[0], snake[1], xs, ys);
  }

  /** The snake entries of a chain are exactly those from d0 on. */
  lemma ChainFilled(a: seq<string>, b: seq<string>, S: seq<seq<int>>, d0: int, D: int, t: int)
    requires Chain(a, b, S, d0, D) && 0 <= t <= D
    ensures |S[t]| >= 2 <==> d0 <= t
  {
    if d0 <= t {
      LinksAt(a, b, S, d0, D, t);
    }
  }

  /**
   * Snake t of a chain, for d0 <= t, is a step from the end of the one
   * before it (from (0, 0) for the first) that takes d0 edits for the first
   * and one edit after it.
   */
  lemma ChainStep(a: seq<string>, b: seq<string>, S: seq<seq<int>>, d0: int, D: int, t: int, e: int, x: int, y: int)
    requires Chain(a, b, S, d0, D) && d0 <= t <= D
    requires t == d0 ==> x == 0 && y == 0
    requires d0 < t ==> e == t - 1 && |S[e]| == 2 && x == S[e][0] && y == S[e][1]
    ensures |S[t]| == 2 && 0 <= S[t][0] <= |a| && 0 <= S[t][1] <= |b| && Step(a, b, x, y, S[t][0], S[t][1])
    ensures var dk := Shift(x, y, S[t][0], S[t][1]); (if dk < 0 then -dk else dk) == if t == d0 then d0 else 1
    ensures t == D ==> S[t] == [|a|, |b|]
  {
    LinksAt(a, b, S, d0, D, t);
    if d0 < t {
      LinksAt(a, b, S, d0, D, e);
    }
  }

  /**
   * The state of the loop over the snakes before snake t: `ops` patches
   * `a[..x]` into `b[..y]` with sound operations, and (x, y) is (0, 0)
   * up to the first snake and the end of snake e == t - 1 after it, reached
   * with as many edits.
   */
  ghost predicate Progress(a: seq<string>, b: seq<string>, S: seq<seq<int>>, d0: int, t: int, e: int, x: int, y: int, ops: seq<Operation>) {
    0 <= x <= |a| && 0 <= y <= |b| && Fits(a, ops, x) && Patch(a, ops, x) == b[..y]
    && Extends(b, [], ops) && |ops| <= Cost(ops)
    && (t <= d0 ==> x == 0 && y == 0 && Cost(ops) == 0)
    && (d0 < t ==> e == t - 1 && Cost(ops) == e && 0 <= e < |S| && |S[e]| == 2 && x == S[e][0] && y == S[e][1])
  }

  /** Before a snake of the chain, `Follow` can take it. */
  lemma ProgressNext(a: seq<string>, b: seq<string>, S: seq<seq<int>>, d0: int, D: int, t: int, e: int, x: int, y: int, ops: seq<Operation>)
    requires Chain(a, b, S, d0, D) && 0 <= t <= D && Progress(a, b, S, d0, t, e, x, y, ops)
    ensures (|S[t]| >= 2) == (d0 <= t)
    ensures d0 <= t ==> |S[t]| == 2 && S[t][0] <= |a| && S[t][1] <= |b| && Step(a, b, x, y, S[t][0], S[t][1])
  {
    ChainFilled(a, b, S, d0, D, t);
    if d0 <= t {
      ChainStep(a, b, S, d0, D, t, e, x, y);
    }
  }

  /** After `Follow` takes snake t, the loop state holds before snake t + 1. */
  lemma ProgressFollow(a: seq<string>, b: seq<string>, S: seq<seq<int>>, d0: int, D: int, t: int, e: int, x: int, y: int, ops: seq<Operation>,
                       x': int, y': int, ops': seq<Operation>)
    requires Chain(a, b, S, d0, D) && d0 <= t <= D && Progress(a, b, S, d0, t, e, x, y, ops)
    requires |S[t]| >= 2 && x' == S[t][0] && y' == S[t][1]
    requires Fits(a, ops', x') && 0 <= y' <= |b| && Patch(a, ops', x') == b[..y'] && Extends(b, ops, ops')
    requires var dk := Shift(x, y, S[t][0], S[t][1]);
      Cost(ops') == Cost(ops) + (if dk < 0 then -dk else dk) && |ops'| - |ops| <= (if dk < 0 then -dk else dk)
    ensures Progress(a, b, S, d0, t + 1, t, x', y', ops') && Cost(ops') == t
    ensures t == D ==> x' == |a| && y' == |b|
  {
    ChainStep(a, b, S, d0, D, t, e, x, y);
    ExtendsTrans(b, [], ops, ops');
  }

  /** Once the loop over the snakes reaches the end, its operations turn `a` into `b` with at most D edits. */
  lemma ProgressDone(a: seq<string>, b: seq<string>, S: seq<seq<int>>, d0: int, D: int, t: int, x: int, y: int, ops: seq<Operation>)
    requires Progress(a, b, S, d0, t + 1, t, x, y, ops) && 0 <= t <= D <= |a| + |b| && x >= |a| && y >= |b|
    requires Unreached(a, b, D)
    ensures Fits(a, ops, |a|) && Apply(a, ops) == b
    ensures forall j :: 0 <= j < |ops| ==> Sound(b, ops[j])
    ensures |ops| <= |a| + |b|
    ensures forall other :: Fits(a, other, |a|) && Apply(a, other) == b ==> Cost(ops) <= Cost(other)
  {
    assert b[..y] == b;
    Shortest(a, b, D, ops);
  }

  /** A script of cost at most D, when the frontier first reaches the end at step D, is a shortest one. */
  lemma Shortest(a: seq<string>, b: seq<string>, D: int, ops: seq<Operation>)
    requires Unreached(a, b, D) && Cost(ops) <= D
    ensures forall other :: Fits(a, other, |a|) && Apply(a, other) == b ==> Cost(ops) <= Cost(other)
  {
    forall other | Fits(a, other, |a|) && Apply(a, other) == b
      ensures Cost(ops) <= Cost(other)
    {
      NoCheaperScript(a, b, D, other);
    }
  }

  /**
   * `operations`: the edits that turn `a` into `b`, as Delete and Insert
   * operations each covering a run of lines, equal lines left out. The
   * script is a shortest one: no script costs fewer deleted and inserted
   * lines.
   */
  method Operations(a: seq<string>, b: seq<string>) returns (ops: seq<Operation>)
    ensures Fits(a, ops, |a|) && Apply(a, ops) == b
    ensures forall j :: 0 <= j < |ops| ==> Sound(b, ops[j])
    ensures |ops| <= |a| + |b|
    ensures forall other :: Fits(a, other, |a|) && Apply(a, other) == b ==> Cost(ops) <= Cost(other)
  {
    if |a| == 0 && |b| == 0 {
      Shortest(a, b, 0, []);
      return [];
    }
    var trace, offset, D, I := ShortestEditSequence(a, b);
    var snakes, d0 := Backtrack(trace, |a|, |b|, offset, a, b, D, I);
    var M, N := |a|, |b|;
    ops := [];
    var x, y := 0, 0;
    ghost var e := -1;
    for t := 0 to |snakes|
      invariant t <= D && Progress(a, b, snakes, d0, t, e, x, y, ops)
    {
      var snake := snakes[t];
      ProgressNext(a, b, snakes, d0, D, t, e, x, y, ops);
      if |snake| < 2 {
        continue;
      }
      ghost var x0, y0, ops0 := x, y, ops;
      x, y, ops := Follow(a, b, snake, x, y, ops);
      ProgressFollow(a, b, snakes, d0, D, t, e, x0, y0, ops0, x, y, ops);
      e := t;
      if x >= M && y >= N {
        ProgressDone(a, b, snakes, d0, D, t, x, y, ops);
        break;
      }
    }
  }

  /** `Diff`: the operations that turn `before` into `after`. */
  method Diff(before: seq<string>, after: seq<string>) returns (ops: seq<Operation>)
    ensures Fits(before, ops, |before|) && Apply(before, ops) == after
    ensures forall j :: 0 <= j < |ops| ==> Sound(after, ops[j])
    ensures |ops| <= |before| + |after|
    ensures forall other :: Fits(before, other, |before|) && Apply(before, other) == after ==> Cost(ops) <= Cost(other)
  {
    ops := Operations(before, after);
  }
}
