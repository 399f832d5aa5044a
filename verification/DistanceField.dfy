/**
  The two-sweep distance transform of TOOLS/bmfontutil/distancefield.cpp, in
  exact arithmetic, proved equal to the nearest-seed distance over the whole
  grid.  A move to any of the eight neighbours adds one step in x and one in y,
  so a cell counts king moves.
 */
module DistanceField {

  datatype DistancePoint = DistancePoint(dx: real, dy: real) {
    function Dist(): real { dx * dx + dy * dy }
  }

  const SEED := DistancePoint(0.0, 0.0)
  const UNSET := DistancePoint(1.0, 1.0)

  function Clamp(v: int, lo: int, hi: int): int {
    var m := if v < hi then v else hi;
    if m < lo then lo else m
  }

  // ---------------------------------------------------- reference definition

  function Abs(a: int): nat { if a < 0 then -a else a }

  /** King moves from one cell to another. */
  function Chess(x: int, y: int, qx: int, qy: int): nat {
    if Abs(x - qx) > Abs(y - qy) then Abs(x - qx) else Abs(y - qy)
  }

  /** k steps of a w by h grid. */
  function Steps(w: int, h: int, k: nat): DistancePoint
    requires w > 0 && h > 0
  {
    DistancePoint(k as real * (1.0 / w as real), k as real * (1.0 / h as real))
  }

  /** k steps are shorter than an unset cell; see StepsDist for the number. */
  predicate Fits(w: int, h: int, k: nat)
    requires w > 0 && h > 0
  {
    Steps(w, h, k).Dist() < 2.0
  }

  ghost predicate InGrid(w: int, h: int, x: int, y: int) {
    0 <= x < w && 0 <= y < h
  }

  /** Some seed is k king moves from the cell and none is nearer. */
  ghost predicate Nearest(seeds: set<(int, int)>, x: int, y: int, k: nat) {
    && (exists q :: q in seeds && Chess(x, y, q.0, q.1) == k)
    && (forall q :: q in seeds ==> k <= Chess(x, y, q.0, q.1))
  }

  /** What a finished cell holds. */
  ghost predicate IsDistance(w: int, h: int, seeds: set<(int, int)>, x: int, y: int, p: DistancePoint)
    requires w > 0 && h > 0
  {
    && (forall k: nat :: Nearest(seeds, x, y, k) && Fits(w, h, k) ==> p == Steps(w, h, k))
    && ((forall k: nat :: Nearest(seeds, x, y, k) ==> !Fits(w, h, k)) ==> p == UNSET)
  }

  // ---------------------------------------------------------------- levels

  /** A cell's value as a step count, Far for an unset cell. */
  datatype Level = Far | Near(k: nat)

  function PointOf(w: int, h: int, v: Level): DistancePoint
    requires w > 0 && h > 0
  {
    match v
    case Far => UNSET
    case Near(k) => Steps(w, h, k)
  }

  ghost predicate Legal(w: int, h: int, v: Level)
    requires w > 0 && h > 0
  {
    v.Near? ==> Fits(w, h, v.k)
  }

  /** What compare does, on step counts. */
  function Better(w: int, h: int, p: Level, other: Level): Level
    requires w > 0 && h > 0
  {
    if other.Near? && (if p.Far? then Fits(w, h, other.k + 1) else other.k + 1 < p.k) then Near(other.k + 1) else p
  }

  /** The value is at most d steps, unless d steps are too long to matter. */
  ghost predicate UpTo(w: int, h: int, v: Level, d: nat)
    requires w > 0 && h > 0
  {
    Fits(w, h, d) ==> v.Near? && v.k <= d
  }

  /** The squared length of k steps is k*k*(1/(w*w) + 1/(h*h)). */
  lemma {:induction false} StepsDist(w: int, h: int, k: nat)
    requires w > 0 && h > 0
    ensures Steps(w, h, k).Dist()
         == (k as real * k as real) * ((1.0 / w as real) * (1.0 / w as real) + (1.0 / h as real) * (1.0 / h as real))
  {
    var a, b, r := 1.0 / w as real, 1.0 / h as real, k as real;
    assert (r * a) * (r * a) == (r * r) * (a * a);
    assert (r * b) * (r * b) == (r * r) * (b * b);
  }

  lemma {:induction false} SquareOrder(x: real, y: real)
    requires 0.0 <= x < y
    ensures x * x < y * y
  {
    var a, b := y - x, y + x;
    assert a * b > 0.0;
    assert y * y - x * x == a * b;
  }

  /** More steps are longer. */
  lemma {:induction false} StepsOrder(w: int, h: int, j: nat, k: nat)
    requires w > 0 && h > 0 && j < k
    ensures Steps(w, h, j).Dist() < Steps(w, h, k).Dist()
  {
    var a, b := 1.0 / w as real, 1.0 / h as real;
    assert a > 0.0 && b > 0.0;
    assert j as real * a < k as real * a;
    assert j as real * b < k as real * b;
    SquareOrder(j as real * a, k as real * a);
    SquareOrder(j as real * b, k as real * b);
  }

  lemma {:induction false} OneMoreStep(w: int, h: int, k: nat)
    requires w > 0 && h > 0
    ensures Steps(w, h, k + 1)
         == DistancePoint(Steps(w, h, k).dx + 1.0 / w as real, Steps(w, h, k).dy + 1.0 / h as real)
  {
  }

  function Stepped(w: int, h: int, p: DistancePoint): DistancePoint
    requires w > 0 && h > 0
  {
    DistancePoint(p.dx + 1.0 / w as real, p.dy + 1.0 / h as real)
  }

  lemma {:induction false} FarStepped(w: int, h: int)
    requires w > 0 && h > 0
    ensures Stepped(w, h, UNSET).Dist() > 2.0
  {
    var a, b := 1.0 / w as real, 1.0 / h as real;
    assert a > 0.0 && b > 0.0;
    assert (1.0 + a) * (1.0 + a) == 1.0 + 2.0 * a + a * a;
    assert (1.0 + b) * (1.0 + b) == 1.0 + 2.0 * b + b * b;
    assert a * a > 0.0 && b * b > 0.0;
  }

  /** Comparing squared lengths of points is comparing step counts. */
  lemma {:induction false} CompareIsBetter(w: int, h: int, p: Level, other: Level)
    requires w > 0 && h > 0 && Legal(w, h, p) && Legal(w, h, other)
    ensures var o := Stepped(w, h, PointOf(w, h, other));
      PointOf(w, h, Better(w, h, p, other)) == if o.Dist() < PointOf(w, h, p).Dist() then o else PointOf(w, h, p)
    ensures Legal(w, h, Better(w, h, p, other))
  {
    if other.Far? {
      FarStepped(w, h);
    } else {
      OneMoreStep(w, h, other.k);
      if p.Near? {
        if other.k + 1 < p.k { StepsOrder(w, h, other.k + 1, p.k); }
        if p.k < other.k + 1 { StepsOrder(w, h, p.k, other.k + 1); }
      }
    }
  }

  // ------------------------------------------------------------ bookkeeping

  /** Step counts of the cells, row by row. */
  type Levels = seq<seq<Level>>

  ghost predicate Shape(w: int, h: int, lv: Levels) {
    w > 0 && h > 0 && |lv| == h && forall y :: 0 <= y < h ==> |lv[y]| == w
  }

  /** Every cell is unset or some seed is within its step count. */
  ghost predicate Sound(w: int, h: int, seeds: set<(int, int)>, lv: Levels)
    requires Shape(w, h, lv)
  {
    forall x, y :: InGrid(w, h, x, y) ==> Backed(w, h, seeds, x, y, lv[y][x])
  }

  ghost predicate Backed(w: int, h: int, seeds: set<(int, int)>, x: int, y: int, v: Level)
    requires w > 0 && h > 0
  {
    v.Near? ==> Fits(w, h, v.k) && exists q :: q in seeds && Chess(x, y, q.0, q.1) <= v.k
  }

  /** The cell knows of the seed. */
  ghost predicate Covers(w: int, h: int, lv: Levels, x: int, y: int, q: (int, int))
    requires Shape(w, h, lv) && InGrid(w, h, x, y)
  {
    UpTo(w, h, lv[y][x], Chess(x, y, q.0, q.1))
  }

  ghost predicate AtMost(v: Level, u: Level) {
    u.Near? ==> v.Near? && v.k <= u.k
  }

  lemma {:induction false} BetterBacked(w: int, h: int, seeds: set<(int, int)>, x: int, y: int, v: Level, nx: int,
      ny: int, u: Level)
    requires w > 0 && h > 0 && Backed(w, h, seeds, x, y, v) && Backed(w, h, seeds, nx, ny, u) &&
      Chess(x, y, nx, ny) <= 1
    ensures Backed(w, h, seeds, x, y, Better(w, h, v, u)) && AtMost(Better(w, h, v, u), v)
    ensures forall d: nat :: UpTo(w, h, u, d) ==> UpTo(w, h, Better(w, h, v, u), d + 1)
  {
    var b := Better(w, h, v, u);
    if u.Near? {
      var q :| q in seeds && Chess(nx, ny, q.0, q.1) <= u.k;
      assert Chess(x, y, q.0, q.1) <= u.k + 1;
      if v.Near? && u.k + 1 < v.k { StepsOrder(w, h, u.k + 1, v.k); }
    }
    forall d: nat | UpTo(w, h, u, d) ensures UpTo(w, h, b, d + 1) {
      if Fits(w, h, d + 1) {
        StepsOrder(w, h, d, d + 1);
        if u.k < d { StepsOrder(w, h, u.k + 1, d + 1); }
      }
    }
  }

  /** One cell was compared with the listed neighbours; nothing else changed. */
  ghost predicate Relaxed(w: int, h: int, seeds: set<(int, int)>, lv: Levels, lv': Levels, x: int, y: int,
      ns: seq<(int, int)>)
  {
    && Shape(w, h, lv) && Shape(w, h, lv') && Sound(w, h, seeds, lv') && InGrid(w, h, x, y)
    && lv' == lv[y := lv[y][x := lv'[y][x]]] && AtMost(lv'[y][x], lv[y][x])
    && forall n, q :: n in ns && PassesOn(w, h, lv, x, y, n, q) ==> Covers(w, h, lv', x, y, q)
  }

  /** The neighbour knows the seed and lies on a shortest way to it. */
  ghost predicate PassesOn(w: int, h: int, lv: Levels, x: int, y: int, n: (int, int), q: (int, int))
    requires Shape(w, h, lv)
  {
    && InGrid(w, h, n.0, n.1) && Covers(w, h, lv, n.0, n.1, q)
    && Chess(n.0, n.1, q.0, q.1) + 1 == Chess(x, y, q.0, q.1)
  }

  /** The neighbour of (x, y) on the way to a seed in another row. */
  function Toward(x: int, qx: int): int {
    if qx < x then x - 1 else if qx > x then x + 1 else x
  }

  lemma {:induction false} TowardIsNearer(x: int, y: int, qx: int, qy: int)
    ensures qy < y ==> Chess(Toward(x, qx), y - 1, qx, qy) + 1 == Chess(x, y, qx, qy)
    ensures qy > y ==> Chess(Toward(x, qx), y + 1, qx, qy) + 1 == Chess(x, y, qx, qy)
  {
  }

  /** A sound grid in which every cell knows every seed holds the distances. */
  lemma {:induction false} CoveredIsDistance(w: int, h: int, seeds: set<(int, int)>, lv: Levels, x: int, y: int)
    requires Shape(w, h, lv) && Sound(w, h, seeds, lv) && InGrid(w, h, x, y)
    requires forall q :: q in seeds ==> Covers(w, h, lv, x, y, q)
    ensures IsDistance(w, h, seeds, x, y, PointOf(w, h, lv[y][x]))
  {
    var v := lv[y][x];
    assert Backed(w, h, seeds, x, y, v);
    forall k: nat | Nearest(seeds, x, y, k) && Fits(w, h, k) ensures v == Near(k) {
      var q :| q in seeds && Chess(x, y, q.0, q.1) == k;
      assert Covers(w, h, lv, x, y, q);
    }
    if v.Near? {
      var q :| q in seeds && Chess(x, y, q.0, q.1) <= v.k;
      var k := NearestSeed(seeds, x, y, q);
      if k < v.k { StepsOrder(w, h, k, v.k); }
    }
  }

  lemma {:induction false} NearestSeed(seeds: set<(int, int)>, x: int, y: int, q: (int, int)) returns (k: nat)
    requires q in seeds
    ensures Nearest(seeds, x, y, k) && k <= Chess(x, y, q.0, q.1)
    decreases Chess(x, y, q.0, q.1)
  {
    if p :| p in seeds && Chess(x, y, p.0, p.1) < Chess(x, y, q.0, q.1) {
      k := NearestSeed(seeds, x, y, p);
    } else {
      k := Chess(x, y, q.0, q.1);
    }
  }

  // ------------------------------------------------- what the sweeps establish

  /** Which seeds a cell knows: those in rows above, in its own row to either side, in rows below. */
  ghost predicate KnowsAbove(w: int, h: int, seeds: set<(int, int)>, lv: Levels, x: int, y: int)
    requires Shape(w, h, lv) && InGrid(w, h, x, y)
  {
    forall q :: q in seeds && q.1 < y ==> Covers(w, h, lv, x, y, q)
  }

  ghost predicate KnowsLeft(w: int, h: int, seeds: set<(int, int)>, lv: Levels, x: int, y: int)
    requires Shape(w, h, lv) && InGrid(w, h, x, y)
  {
    forall q :: q in seeds && q.1 == y && q.0 <= x ==> Covers(w, h, lv, x, y, q)
  }

  ghost predicate KnowsRight(w: int, h: int, seeds: set<(int, int)>, lv: Levels, x: int, y: int)
    requires Shape(w, h, lv) && InGrid(w, h, x, y)
  {
    forall q :: q in seeds && q.1 == y && q.0 >= x ==> Covers(w, h, lv, x, y, q)
  }

  ghost predicate KnowsBelow(w: int, h: int, seeds: set<(int, int)>, lv: Levels, x: int, y: int)
    requires Shape(w, h, lv) && InGrid(w, h, x, y)
  {
    forall q :: q in seeds && q.1 > y ==> Covers(w, h, lv, x, y, q)
  }

  ghost predicate KnowsUpToRow(w: int, h: int, seeds: set<(int, int)>, lv: Levels, x: int, y: int)
    requires Shape(w, h, lv) && InGrid(w, h, x, y)
  {
    KnowsAbove(w, h, seeds, lv, x, y) && KnowsLeft(w, h, seeds, lv, x, y) && KnowsRight(w, h, seeds, lv, x, y)
  }

  /** Every cell of the row knows the seeds of its own row and those above. */
  ghost predicate RowDone(w: int, h: int, seeds: set<(int, int)>, lv: Levels, row: int)
    requires Shape(w, h, lv) && 0 <= row < h
  {
    forall c :: 0 <= c < w ==> KnowsUpToRow(w, h, seeds, lv, c, row)
  }

  /** Every cell of the row knows the seeds below. */
  ghost predicate RowComplete(w: int, h: int, seeds: set<(int, int)>, lv: Levels, row: int)
    requires Shape(w, h, lv) && 0 <= row < h
  {
    forall c :: 0 <= c < w ==> KnowsBelow(w, h, seeds, lv, c, row)
  }

  /** Seeds are cells at distance zero. */
  ghost predicate SeedsPlaced(w: int, h: int, seeds: set<(int, int)>, lv: Levels)
    requires Shape(w, h, lv)
  {
    forall q :: q in seeds ==> InGrid(w, h, q.0, q.1) && lv[q.1][q.0] == Near(0)
  }

  lemma {:induction false} CoversKept(w: int, h: int, seeds: set<(int, int)>, lv: Levels, lv': Levels, x: int, y: int,
      ns: seq<(int, int)>, cx: int, cy: int, q: (int, int))
    requires Relaxed(w, h, seeds, lv, lv', x, y, ns) && InGrid(w, h, cx, cy) && Covers(w, h, lv, cx, cy, q)
    ensures Covers(w, h, lv', cx, cy, q)
  {
  }

  /** Relaxing a cell loses no knowledge anywhere. */
  lemma {:induction false} KnowledgeKept(w: int, h: int, seeds: set<(int, int)>, lv: Levels, lv': Levels, x: int,
      y: int, ns: seq<(int, int)>, cx: int, cy: int)
    requires Relaxed(w, h, seeds, lv, lv', x, y, ns) && InGrid(w, h, cx, cy)
    ensures KnowsAbove(w, h, seeds, lv, cx, cy) ==> KnowsAbove(w, h, seeds, lv', cx, cy)
    ensures KnowsLeft(w, h, seeds, lv, cx, cy) ==> KnowsLeft(w, h, seeds, lv', cx, cy)
    ensures KnowsRight(w, h, seeds, lv, cx, cy) ==> KnowsRight(w, h, seeds, lv', cx, cy)
    ensures KnowsBelow(w, h, seeds, lv, cx, cy) ==> KnowsBelow(w, h, seeds, lv', cx, cy)
  {
    forall q | q in seeds ensures Covers(w, h, lv, cx, cy, q) ==> Covers(w, h, lv', cx, cy, q) {
      if Covers(w, h, lv, cx, cy, q) { CoversKept(w, h, seeds, lv, lv', x, y, ns, cx, cy, q); }
    }
  }

  lemma {:induction false} RowsKept(w: int, h: int, seeds: set<(int, int)>, lv: Levels, lv': Levels, x: int, y: int,
      ns: seq<(int, int)>, row: int)
    requires Relaxed(w, h, seeds, lv, lv', x, y, ns) && 0 <= row < h
    ensures RowDone(w, h, seeds, lv, row) ==> RowDone(w, h, seeds, lv', row)
    ensures RowComplete(w, h, seeds, lv, row) ==> RowComplete(w, h, seeds, lv', row)
  {
    forall c | 0 <= c < w
      ensures KnowsUpToRow(w, h, seeds, lv, c, row) ==> KnowsUpToRow(w, h, seeds, lv', c, row)
      ensures KnowsBelow(w, h, seeds, lv, c, row) ==> KnowsBelow(w, h, seeds, lv', c, row)
    {
      KnowledgeKept(w, h, seeds, lv, lv', x, y, ns, c, row);
    }
  }

  lemma {:induction false} AllRowsKept(w: int, h: int, seeds: set<(int, int)>, lv: Levels, lv': Levels, x: int,
      y: int, ns: seq<(int, int)>, from: int)
    requires Relaxed(w, h, seeds, lv, lv', x, y, ns) && 0 <= from <= h
    requires forall r :: 0 <= r < h ==> RowDone(w, h, seeds, lv, r)
    requires forall r :: from <= r < h ==> RowComplete(w, h, seeds, lv, r)
    ensures forall r :: 0 <= r < h ==> RowDone(w, h, seeds, lv', r)
    ensures forall r :: from <= r < h ==> RowComplete(w, h, seeds, lv', r)
  {
    forall r | 0 <= r < h
      ensures RowDone(w, h, seeds, lv', r)
      ensures from <= r ==> RowComplete(w, h, seeds, lv', r)
    {
      RowsKept(w, h, seeds, lv, lv', x, y, ns, r);
    }
  }

  lemma {:induction false} SeedsKept(w: int, h: int, seeds: set<(int, int)>, lv: Levels, lv': Levels, x: int, y: int,
      ns: seq<(int, int)>)
    requires Relaxed(w, h, seeds, lv, lv', x, y, ns) && SeedsPlaced(w, h, seeds, lv)
    ensures SeedsPlaced(w, h, seeds, lv')
  {
  }

  /** A seed in the cell itself is known from the start. */
  lemma {:induction false} KnowsItself(w: int, h: int, seeds: set<(int, int)>, lv: Levels, x: int, y: int)
    requires Shape(w, h, lv) && SeedsPlaced(w, h, seeds, lv) && (x, y) in seeds
    ensures Covers(w, h, lv, x, y, (x, y))
  {
  }

  /** Comparing with the three cells above brings in the seeds of all rows above. */
  lemma {:induction false} LearnAbove(w: int, h: int, seeds: set<(int, int)>, lv: Levels, lv': Levels, x: int, y: int,
      ns: seq<(int, int)>)
    requires Relaxed(w, h, seeds, lv, lv', x, y, ns) && SeedsPlaced(w, h, seeds, lv)
    requires (x - 1, y - 1) in ns && (x, y - 1) in ns && (x + 1, y - 1) in ns
    requires y > 0 ==> RowDone(w, h, seeds, lv, y - 1)
    ensures KnowsAbove(w, h, seeds, lv', x, y)
  {
    hide Covers, Chess, Sound, Fits, Steps;
    forall q | q in seeds && q.1 < y ensures Covers(w, h, lv', x, y, q) {
      var n := (Toward(x, q.0), y - 1);
      TowardIsNearer(x, y, q.0, q.1);
      assert KnowsUpToRow(w, h, seeds, lv, n.0, y - 1);
      LearnFrom(w, h, seeds, lv, lv', x, y, ns, n, q);
    }
  }

  lemma {:induction false} LearnBelow(w: int, h: int, seeds: set<(int, int)>, lv: Levels, lv': Levels, x: int, y: int,
      ns: seq<(int, int)>)
    requires Relaxed(w, h, seeds, lv, lv', x, y, ns) && SeedsPlaced(w, h, seeds, lv)
    requires (x - 1, y + 1) in ns && (x, y + 1) in ns && (x + 1, y + 1) in ns
    requires y < h - 1 ==> RowDone(w, h, seeds, lv, y + 1) && RowComplete(w, h, seeds, lv, y + 1)
    ensures KnowsBelow(w, h, seeds, lv', x, y)
  {
    hide Covers, Chess, Sound, Fits, Steps;
    forall q | q in seeds && q.1 > y ensures Covers(w, h, lv', x, y, q) {
      var n := (Toward(x, q.0), y + 1);
      TowardIsNearer(x, y, q.0, q.1);
      assert KnowsUpToRow(w, h, seeds, lv, n.0, y + 1) && KnowsBelow(w, h, seeds, lv, n.0, y + 1);
      LearnFrom(w, h, seeds, lv, lv', x, y, ns, n, q);
    }
  }

  /** Comparing with a neighbour that knows a seed and is one step nearer to it brings the seed in. */
  lemma {:induction false} LearnFrom(w: int, h: int, seeds: set<(int, int)>, lv: Levels, lv': Levels, x: int, y: int,
      ns: seq<(int, int)>, n: (int, int), q: (int, int))
    requires Relaxed(w, h, seeds, lv, lv', x, y, ns) && n in ns
    requires InGrid(w, h, n.0, n.1) && Covers(w, h, lv, n.0, n.1, q)
    requires Chess(n.0, n.1, q.0, q.1) + 1 == Chess(x, y, q.0, q.1)
    ensures Covers(w, h, lv', x, y, q)
  {
    hide Covers, Sound, Chess;
    assert PassesOn(w, h, lv, x, y, n, q);
  }

  lemma SideIsNearer(x: int, y: int, qx: int)
    ensures qx < x ==> Chess(x - 1, y, qx, y) + 1 == Chess(x, y, qx, y)
    ensures qx > x ==> Chess(x + 1, y, qx, y) + 1 == Chess(x, y, qx, y)
  {
  }

  lemma {:induction false} LearnLeft(w: int, h: int, seeds: set<(int, int)>, lv: Levels, lv': Levels, x: int, y: int,
      ns: seq<(int, int)>)
    requires Relaxed(w, h, seeds, lv, lv', x, y, ns) && SeedsPlaced(w, h, seeds, lv) && (x - 1, y) in ns
    requires x > 0 ==> KnowsLeft(w, h, seeds, lv, x - 1, y)
    ensures KnowsLeft(w, h, seeds, lv', x, y)
  {
    SeedsKept(w, h, seeds, lv, lv', x, y, ns);
    hide Covers, Chess, Sound, Fits, Steps;
    forall q | q in seeds && q.1 == y && q.0 <= x ensures Covers(w, h, lv', x, y, q) {
      if q.0 == x {
        KnowsItself(w, h, seeds, lv', x, y);
      } else {
        SideIsNearer(x, y, q.0);
        LearnFrom(w, h, seeds, lv, lv', x, y, ns, (x - 1, y), q);
      }
    }
  }

  lemma {:induction false} LearnRight(w: int, h: int, seeds: set<(int, int)>, lv: Levels, lv': Levels, x: int, y: int,
      ns: seq<(int, int)>)
    requires Relaxed(w, h, seeds, lv, lv', x, y, ns) && SeedsPlaced(w, h, seeds, lv) && (x + 1, y) in ns
    requires x < w - 1 ==> KnowsRight(w, h, seeds, lv, x + 1, y)
    ensures KnowsRight(w, h, seeds, lv', x, y)
  {
    SeedsKept(w, h, seeds, lv, lv', x, y, ns);
    hide Covers, Chess, Sound, Fits, Steps;
    forall q | q in seeds && q.1 == y && q.0 >= x ensures Covers(w, h, lv', x, y, q) {
      if q.0 == x {
        KnowsItself(w, h, seeds, lv', x, y);
      } else {
        SideIsNearer(x, y, q.0);
        LearnFrom(w, h, seeds, lv, lv', x, y, ns, (x + 1, y), q);
      }
    }
  }

  // --------------------------------------------------------------- the grid

  /** The array is the levels, row after row. */
  ghost predicate Renders(w: int, h: int, cells: seq<DistancePoint>, lv: Levels)
    requires Shape(w, h, lv)
  {
    && |cells| == w * h
    && forall x, y :: InGrid(w, h, x, y) ==> 0 <= y * w + x < w * h && cells[y * w + x] == PointOf(w, h, lv[y][x])
  }

  /** The value is at most one step more than that of every listed neighbour in the grid. */
  ghost predicate Compared(w: int, h: int, lv: Levels, v: Level, ns: seq<(int, int)>)
    requires Shape(w, h, lv)
  {
    forall n, d: nat ::
      (n in ns && InGrid(w, h, n.0, n.1) && UpTo(w, h, lv[n.1][n.0], d)) ==> UpTo(w, h, v, d + 1)
  }

  lemma {:induction false} ComparedNext(w: int, h: int, seeds: set<(int, int)>, lv: Levels, x: int, y: int, v: Level,
      ns: seq<(int, int)>, k: nat)
    requires Shape(w, h, lv) && InGrid(w, h, x, y) && Sound(w, h, seeds, lv) && Backed(w, h, seeds, x, y, v)
    requires k < |ns| && Chess(x, y, ns[k].0, ns[k].1) <= 1 && Compared(w, h, lv, v, ns[..k])
    ensures var cx, cy := Clamp(ns[k].0, 0, w - 1), Clamp(ns[k].1, 0, h - 1);
      var b := Better(w, h, v, lv[cy][cx]);
      && Compared(w, h, lv, b, ns[..k + 1]) && Backed(w, h, seeds, x, y, b)
      && forall u :: AtMost(v, u) ==> AtMost(b, u)
  {
    var cx, cy := Clamp(ns[k].0, 0, w - 1), Clamp(ns[k].1, 0, h - 1);
    assert Backed(w, h, seeds, cx, cy, lv[cy][cx]);
    BetterBacked(w, h, seeds, x, y, v, cx, cy, lv[cy][cx]);
    AtMostUpTo(w, h, Better(w, h, v, lv[cy][cx]), v);
    assert ns[..k + 1] == ns[..k] + [ns[k]];
  }

  lemma {:induction false} RelaxedBy(w: int, h: int, seeds: set<(int, int)>, lv: Levels, x: int, y: int, v: Level,
      ns: seq<(int, int)>)
    requires Shape(w, h, lv) && InGrid(w, h, x, y) && Sound(w, h, seeds, lv) && Backed(w, h, seeds, x, y, v)
    requires AtMost(v, lv[y][x]) && Compared(w, h, lv, v, ns)
    ensures Relaxed(w, h, seeds, lv, lv[y := lv[y][x := v]], x, y, ns)
  {
    var lv' := lv[y := lv[y][x := v]];
    forall cx, cy | InGrid(w, h, cx, cy) ensures Backed(w, h, seeds, cx, cy, lv'[cy][cx]) {
      assert lv'[cy][cx] == if cx == x && cy == y then v else lv[cy][cx];
    }
  }

  lemma {:induction false} AtMostUpTo(w: int, h: int, b: Level, v: Level)
    requires w > 0 && h > 0 && AtMost(b, v)
    ensures forall d: nat :: UpTo(w, h, v, d) ==> UpTo(w, h, b, d)
  {
  }

  lemma {:induction false} CellIndex(w: int, h: int, x: int, y: int)
    requires InGrid(w, h, x, y)
    ensures 0 <= y * w + x < w * h
  {
    assert (y + 1) * w <= h * w;
  }

  lemma {:induction false} RowOrder(w: int, y: int, y': int)
    requires w > 0
    ensures y < y' ==> y * w + w <= y' * w
  {
    if y < y' { assert (y + 1) * w <= y' * w; }
  }

  lemma {:induction false} CellIndexInjective(w: int, h: int, x: int, y: int, x': int, y': int)
    requires InGrid(w, h, x, y) && InGrid(w, h, x', y') && y * w + x == y' * w + x'
    ensures x == x' && y == y'
  {
    RowOrder(w, y, y');
    RowOrder(w, y', y);
  }

  lemma {:induction false} RendersUpdate(w: int, h: int, cells: seq<DistancePoint>, lv: Levels, x: int, y: int,
      v: Level)
    requires Shape(w, h, lv) && Renders(w, h, cells, lv) && InGrid(w, h, x, y)
    ensures 0 <= y * w + x < w * h && Shape(w, h, lv[y := lv[y][x := v]])
    ensures Renders(w, h, cells[y * w + x := PointOf(w, h, v)], lv[y := lv[y][x := v]])
  {
    CellIndex(w, h, x, y);
    var lv' := lv[y := lv[y][x := v]];
    var cells' := cells[y * w + x := PointOf(w, h, v)];
    forall x', y' | InGrid(w, h, x', y')
      ensures 0 <= y' * w + x' < w * h && cells'[y' * w + x'] == PointOf(w, h, lv'[y'][x'])
    {
      CellIndex(w, h, x', y');
      if y' * w + x' == y * w + x { CellIndexInjective(w, h, x, y, x', y'); }
    }
  }

  /** The cells of a fresh grid that are seeds. */
  ghost function SeedCells(w: int, h: int, cells: seq<DistancePoint>): set<(int, int)> {
    set x, y | 0 <= x < w && 0 <= y < h && 0 <= y * w + x < |cells| && cells[y * w + x] == SEED :: (x, y)
  }

  lemma {:induction false} InitialLevels(w: int, h: int, cells: seq<DistancePoint>) returns (lv: Levels)
    requires w > 0 && h > 0 && |cells| == w * h
    requires forall i :: 0 <= i < |cells| ==> cells[i] == SEED || cells[i] == UNSET
    ensures Shape(w, h, lv) && Renders(w, h, cells, lv)
    ensures Sound(w, h, SeedCells(w, h, cells), lv) && SeedsPlaced(w, h, SeedCells(w, h, cells), lv)
  {
    var seeds := SeedCells(w, h, cells);
    lv := seq(h, y => seq(w, x => if (x, y) in seeds then Near(0) else Far));
    forall x, y | InGrid(w, h, x, y)
      ensures 0 <= y * w + x < w * h && cells[y * w + x] == PointOf(w, h, lv[y][x])
    {
      CellIndex(w, h, x, y);
    }
    forall x, y | InGrid(w, h, x, y) ensures Backed(w, h, seeds, x, y, lv[y][x]) {
      if lv[y][x].Near? { assert Chess(x, y, x, y) <= 0; }
    }
  }

  /** In row y, cells before x know the rows above and the seeds to their left. */
  ghost predicate ForwardTo(w: int, h: int, seeds: set<(int, int)>, lv: Levels, x: int, y: int) {
    && Shape(w, h, lv) && 0 <= y < h && x <= w
    && (forall r :: 0 <= r < y ==> RowDone(w, h, seeds, lv, r))
    && forall c :: 0 <= c < x ==> KnowsAbove(w, h, seeds, lv, c, y) && KnowsLeft(w, h, seeds, lv, c, y)
  }

  /** In row y, cells after x know the seeds to their right as well. */
  ghost predicate EastTo(w: int, h: int, seeds: set<(int, int)>, lv: Levels, x: int, y: int) {
    && ForwardTo(w, h, seeds, lv, w, y) && -1 <= x
    && forall c :: x < c < w ==> KnowsRight(w, h, seeds, lv, c, y)
  }

  lemma {:induction false} ForwardStep(w: int, h: int, seeds: set<(int, int)>, lv: Levels, lv': Levels, x: int,
      y: int, ns: seq<(int, int)>)
    requires Relaxed(w, h, seeds, lv, lv', x, y, ns) && SeedsPlaced(w, h, seeds, lv) && ForwardTo(w, h, seeds, lv, x, y)
    requires ns == [(x - 1, y), (x, y - 1), (x - 1, y - 1), (x + 1, y - 1)]
    ensures ForwardTo(w, h, seeds, lv', x + 1, y)
  {
    assert ns[0] == (x - 1, y) && ns[1] == (x, y - 1) && ns[2] == (x - 1, y - 1) && ns[3] == (x + 1, y - 1);
    LearnAbove(w, h, seeds, lv, lv', x, y, ns);
    LearnLeft(w, h, seeds, lv, lv', x, y, ns);
    forall r | 0 <= r < y ensures RowDone(w, h, seeds, lv', r) { RowsKept(w, h, seeds, lv, lv', x, y, ns, r); }
    forall c | 0 <= c < x ensures KnowsAbove(w, h, seeds, lv', c, y) && KnowsLeft(w, h, seeds, lv', c, y) {
      KnowledgeKept(w, h, seeds, lv, lv', x, y, ns, c, y);
    }
  }

  lemma {:induction false} EastStep(w: int, h: int, seeds: set<(int, int)>, lv: Levels, lv': Levels, x: int, y: int,
      ns: seq<(int, int)>)
    requires Relaxed(w, h, seeds, lv, lv', x, y, ns) && SeedsPlaced(w, h, seeds, lv) && EastTo(w, h, seeds, lv, x, y)
    requires ns == [(x + 1, y)]
    ensures EastTo(w, h, seeds, lv', x - 1, y)
  {
    assert ns[0] == (x + 1, y);
    LearnRight(w, h, seeds, lv, lv', x, y, ns);
    forall r | 0 <= r < y ensures RowDone(w, h, seeds, lv', r) { RowsKept(w, h, seeds, lv, lv', x, y, ns, r); }
    forall c | 0 <= c < w
      ensures KnowsAbove(w, h, seeds, lv', c, y) && KnowsLeft(w, h, seeds, lv', c, y)
      ensures x < c ==> KnowsRight(w, h, seeds, lv', c, y)
    {
      KnowledgeKept(w, h, seeds, lv, lv', x, y, ns, c, y);
    }
  }

  lemma {:induction false} EastDone(w: int, h: int, seeds: set<(int, int)>, lv: Levels, y: int)
    requires EastTo(w, h, seeds, lv, -1, y)
    ensures RowDone(w, h, seeds, lv, y)
  {
  }

  /** All rows know what is above, rows after y what is below, and in row y the cells after x too. */
  ghost predicate BackwardTo(w: int, h: int, seeds: set<(int, int)>, lv: Levels, x: int, y: int) {
    && Shape(w, h, lv) && 0 <= y < h && -1 <= x
    && (forall r :: 0 <= r < h ==> RowDone(w, h, seeds, lv, r))
    && (forall r :: y < r < h ==> RowComplete(w, h, seeds, lv, r))
    && forall c :: x < c < w ==> KnowsBelow(w, h, seeds, lv, c, y)
  }

  lemma {:induction false} BackwardStep(w: int, h: int, seeds: set<(int, int)>, lv: Levels, lv': Levels, x: int,
      y: int, ns: seq<(int, int)>)
    requires Relaxed(w, h, seeds, lv, lv', x, y, ns) && SeedsPlaced(w, h, seeds, lv) &&
      BackwardTo(w, h, seeds, lv, x, y)
    requires ns == [(x + 1, y), (x, y + 1), (x - 1, y + 1), (x + 1, y + 1)]
    ensures BackwardTo(w, h, seeds, lv', x - 1, y)
  {
    assert ns[0] == (x + 1, y) && ns[1] == (x, y + 1) && ns[2] == (x - 1, y + 1) && ns[3] == (x + 1, y + 1);
    LearnBelow(w, h, seeds, lv, lv', x, y, ns);
    AllRowsKept(w, h, seeds, lv, lv', x, y, ns, y + 1);
    forall c | x < c < w ensures KnowsBelow(w, h, seeds, lv', c, y) {
      KnowledgeKept(w, h, seeds, lv, lv', x, y, ns, c, y);
    }
  }

  /** Every cell of the grid, row after row, holds its distance. */
  ghost predicate Exact(w: int, h: int, seeds: set<(int, int)>, cells: seq<DistancePoint>) {
    forall x, y :: InGrid(w, h, x, y) ==> 0 <= y * w + x < |cells| && IsDistance(w, h, seeds, x, y, cells[y * w + x])
  }

  lemma {:induction false} AllExact(w: int, h: int, seeds: set<(int, int)>, cells: seq<DistancePoint>, lv: Levels)
    requires Shape(w, h, lv) && Renders(w, h, cells, lv) && Sound(w, h, seeds, lv)
    requires forall r :: 0 <= r < h ==> RowDone(w, h, seeds, lv, r) && RowComplete(w, h, seeds, lv, r)
    ensures Exact(w, h, seeds, cells)
  {
    forall x, y | InGrid(w, h, x, y)
      ensures 0 <= y * w + x < |cells| && IsDistance(w, h, seeds, x, y, cells[y * w + x])
    {
      assert RowDone(w, h, seeds, lv, y) && RowComplete(w, h, seeds, lv, y);
      assert KnowsUpToRow(w, h, seeds, lv, x, y) && KnowsBelow(w, h, seeds, lv, x, y);
      CoveredIsDistance(w, h, seeds, lv, x, y);
    }
  }

  /** Is pixel i at least half opaque? */
  predicate Opaque(imageData: seq<bv8>, i: int) {
    0 <= i && 4 * i + 3 < |imageData| && imageData[4 * i + 3] >= 128
  }

  ghost function Pixels(w: int, h: int, imageData: seq<bv8>, opaqueOnes: bool): set<(int, int)> {
    set x, y | 0 <= x < w && 0 <= y < h && 0 <= y * w + x < w * h && Opaque(imageData, y * w + x) == opaqueOnes ::
      (x, y)
  }

  /** A pixel is opaque when the last of its four bytes, the alpha, is 128 or more. */
  lemma PixelsByAlpha(w: int, h: int, imageData: seq<bv8>, x: int, y: int)
    requires 0 <= x < w && 0 <= y < h && |imageData| == 4 * (w * h)
    ensures 0 <= 4 * (y * w + x) + 3 < |imageData|
    ensures (x, y) in Pixels(w, h, imageData, true) <==> imageData[4 * (y * w + x) + 3] >= 128
    ensures (x, y) in Pixels(w, h, imageData, false) <==> imageData[4 * (y * w + x) + 3] < 128
  {
    CellIndex(w, h, x, y);
  }

  class DistanceGrid {
    const szx: int
    const szy: int
    var gridInside: array<DistancePoint>
    var gridOutside: array<DistancePoint>

    constructor (sx: nat, sy: nat)
      ensures szx == sx && szy == sy && fresh(gridInside) && fresh(gridOutside) && gridInside != gridOutside
      ensures gridInside.Length == sx * sy && gridOutside.Length == sx * sy
    {
      szx, szy := sx, sy;
      gridInside := new DistancePoint[sx * sy](_ => SEED);
      gridOutside := new DistancePoint[sx * sy](_ => SEED);
    }

    function Index(x: int, y: int): int {
      Clamp(y, 0, szy - 1) * szx + Clamp(x, 0, szx - 1)
    }

    method Compare(grid: array<DistancePoint>, p: DistancePoint, x: int, y: int, ghost lv: Levels, ghost v: Level)
      returns (r: DistancePoint)
      requires Shape(szx, szy, lv) && Renders(szx, szy, grid[..], lv)
      requires Legal(szx, szy, v) && p == PointOf(szx, szy, v)
      requires Legal(szx, szy, lv[Clamp(y, 0, szy - 1)][Clamp(x, 0, szx - 1)])
      ensures r == PointOf(szx, szy, Better(szx, szy, v, lv[Clamp(y, 0, szy - 1)][Clamp(x, 0, szx - 1)]))
    {
      var stepX, stepY := 1.0 / szx as real, 1.0 / szy as real;
      ghost var cx, cy := Clamp(x, 0, szx - 1), Clamp(y, 0, szy - 1);
      assert InGrid(szx, szy, cx, cy);
      assert grid[..][cy * szx + cx] == grid[Index(x, y)];
      var other := grid[Index(x, y)];
      CompareIsBetter(szx, szy, v, lv[cy][cx]);
      other := DistancePoint(other.dx + stepX, other.dy + stepY);
      if other.Dist() < p.Dist() {
        return other;
      }
      return p;
    }

    /** Reads a cell, compares it with the listed neighbours in turn, and writes it back. */
    method Relax(grid: array<DistancePoint>, x: int, y: int, ns: seq<(int, int)>, ghost seeds: set<(int, int)>,
        ghost lv: Levels)
      returns (ghost lv': Levels)
      requires Shape(szx, szy, lv) && Renders(szx, szy, grid[..], lv) && Sound(szx, szy, seeds, lv) &&
        InGrid(szx, szy, x, y)
      requires forall i :: 0 <= i < |ns| ==> Chess(x, y, ns[i].0, ns[i].1) <= 1
      modifies grid
      ensures Relaxed(szx, szy, seeds, lv, lv', x, y, ns) && Renders(szx, szy, grid[..], lv')
    {
      CellIndex(szx, szy, x, y);
      assert grid[..][y * szx + x] == grid[y * szx + x];
      assert Backed(szx, szy, seeds, x, y, lv[y][x]);
      var p := grid[Index(x, y)];
      ghost var v := lv[y][x];
      for k := 0 to |ns|
        invariant grid[..] == old(grid[..])
        invariant p == PointOf(szx, szy, v) && Backed(szx, szy, seeds, x, y, v) && AtMost(v, lv[y][x])
        invariant Compared(szx, szy, lv, v, ns[..k])
      {
        hide Compared, Chess, Fits, AtMost, UpTo;
        var (nx, ny) := ns[k];
        ghost var cx, cy := Clamp(nx, 0, szx - 1), Clamp(ny, 0, szy - 1);
        assert Backed(szx, szy, seeds, cx, cy, lv[cy][cx]);
        ComparedNext(szx, szy, seeds, lv, x, y, v, ns, k);
        p := Compare(grid, p, nx, ny, lv, v);
        v := Better(szx, szy, v, lv[cy][cx]);
      }
      assert ns[..|ns|] == ns;
      RelaxedBy(szx, szy, seeds, lv, x, y, v, ns);
      hide Relaxed, Sound, Compared, Backed;
      RendersUpdate(szx, szy, grid[..], lv, x, y, v);
      grid[Index(x, y)] := p;
      lv' := lv[y := lv[y][x := v]];
    }

    ghost predicate Ready(grid: array<DistancePoint>, seeds: set<(int, int)>, lv: Levels)
      reads grid
    {
      && Shape(szx, szy, lv) && Renders(szx, szy, grid[..], lv)
      && Sound(szx, szy, seeds, lv) && SeedsPlaced(szx, szy, seeds, lv)
    }

    /** First sweep, row y: left to right against the row above, then right to left. */
    method ForwardRow(grid: array<DistancePoint>, y: int, ghost seeds: set<(int, int)>, ghost lv0: Levels)
      returns (ghost lv: Levels)
      requires Ready(grid, seeds, lv0) && ForwardTo(szx, szy, seeds, lv0, 0, y)
      modifies grid
      ensures Ready(grid, seeds, lv)
      ensures forall r :: 0 <= r <= y ==> RowDone(szx, szy, seeds, lv, r)
    {
      lv := lv0;
      for x := 0 to szx
        invariant Ready(grid, seeds, lv) && ForwardTo(szx, szy, seeds, lv, x, y)
      {
        var ns := [(x - 1, y), (x, y - 1), (x - 1, y - 1), (x + 1, y - 1)];
        ghost var before := lv;
        lv := Relax(grid, x, y, ns, seeds, lv);
        ForwardStep(szx, szy, seeds, before, lv, x, y, ns);
        SeedsKept(szx, szy, seeds, before, lv, x, y, ns);
      }
      var x := szx - 1;
      while x >= 0
        invariant -1 <= x < szx
        invariant Ready(grid, seeds, lv) && EastTo(szx, szy, seeds, lv, x, y)
      {
        var ns := [(x + 1, y)];
        ghost var before := lv;
        lv := Relax(grid, x, y, ns, seeds, lv);
        EastStep(szx, szy, seeds, before, lv, x, y, ns);
        SeedsKept(szx, szy, seeds, before, lv, x, y, ns);
        x := x - 1;
      }
      EastDone(szx, szy, seeds, lv, y);
    }

    /** Second sweep, row y: right to left against the row below, then left to right. */
    method BackwardRow(grid: array<DistancePoint>, y: int, ghost seeds: set<(int, int)>, ghost lv0: Levels)
      returns (ghost lv: Levels)
      requires Ready(grid, seeds, lv0) && BackwardTo(szx, szy, seeds, lv0, szx - 1, y)
      modifies grid
      ensures Ready(grid, seeds, lv)
      ensures forall r :: 0 <= r < szy ==> RowDone(szx, szy, seeds, lv, r)
      ensures forall r :: y <= r < szy ==> RowComplete(szx, szy, seeds, lv, r)
    {
      lv := lv0;
      var x := szx - 1;
      while x >= 0
        invariant -1 <= x < szx
        invariant Ready(grid, seeds, lv) && BackwardTo(szx, szy, seeds, lv, x, y)
      {
        var ns := [(x + 1, y), (x, y + 1), (x - 1, y + 1), (x + 1, y + 1)];
        ghost var before := lv;
        lv := Relax(grid, x, y, ns, seeds, lv);
        BackwardStep(szx, szy, seeds, before, lv, x, y, ns);
        SeedsKept(szx, szy, seeds, before, lv, x, y, ns);
        x := x - 1;
      }
      assert RowComplete(szx, szy, seeds, lv, y);
      lv := WestSweep(grid, y, seeds, lv);
    }

    method WestSweep(grid: array<DistancePoint>, y: int, ghost seeds: set<(int, int)>, ghost lv0: Levels)
      returns (ghost lv: Levels)
      requires Ready(grid, seeds, lv0) && 0 <= y < szy
      requires forall r :: 0 <= r < szy ==> RowDone(szx, szy, seeds, lv0, r)
      requires forall r :: y <= r < szy ==> RowComplete(szx, szy, seeds, lv0, r)
      modifies grid
      ensures Ready(grid, seeds, lv)
      ensures forall r :: 0 <= r < szy ==> RowDone(szx, szy, seeds, lv, r)
      ensures forall r :: y <= r < szy ==> RowComplete(szx, szy, seeds, lv, r)
    {
      lv := lv0;
      for x := 0 to szx
        invariant Ready(grid, seeds, lv)
        invariant forall r :: 0 <= r < szy ==> RowDone(szx, szy, seeds, lv, r)
        invariant forall r :: y <= r < szy ==> RowComplete(szx, szy, seeds, lv, r)
      {
        var ns := [(x - 1, y)];
        ghost var before := lv;
        lv := Relax(grid, x, y, ns, seeds, lv);
        SeedsKept(szx, szy, seeds, before, lv, x, y, ns);
        AllRowsKept(szx, szy, seeds, before, lv, x, y, ns, y);
      }
    }

    /** Down the rows: afterwards every cell knows the seeds above it and in its row. */
    method FirstSweep(grid: array<DistancePoint>, ghost seeds: set<(int, int)>, ghost lv0: Levels)
      returns (ghost lv: Levels)
      requires Ready(grid, seeds, lv0)
      modifies grid
      ensures Ready(grid, seeds, lv) && forall r :: 0 <= r < szy ==> RowDone(szx, szy, seeds, lv, r)
    {
      lv := lv0;
      for y := 0 to szy
        invariant Ready(grid, seeds, lv)
        invariant forall r :: 0 <= r < y ==> RowDone(szx, szy, seeds, lv, r)
      {
        lv := ForwardRow(grid, y, seeds, lv);
      }
    }

    /** Up the rows: afterwards every cell knows the seeds below it as well. */
    method SecondSweep(grid: array<DistancePoint>, ghost seeds: set<(int, int)>, ghost lv0: Levels)
      returns (ghost lv: Levels)
      requires Ready(grid, seeds, lv0) && forall r :: 0 <= r < szy ==> RowDone(szx, szy, seeds, lv0, r)
      modifies grid
      ensures Ready(grid, seeds, lv)
      ensures forall r :: 0 <= r < szy ==> RowDone(szx, szy, seeds, lv, r) && RowComplete(szx, szy, seeds, lv, r)
    {
      lv := lv0;
      var y := szy - 1;
      while y >= 0
        invariant -1 <= y < szy
        invariant Ready(grid, seeds, lv)
        invariant forall r :: 0 <= r < szy ==> RowDone(szx, szy, seeds, lv, r)
        invariant forall r :: y < r < szy ==> RowComplete(szx, szy, seeds, lv, r)
      {
        lv := BackwardRow(grid, y, seeds, lv);
        y := y - 1;
      }
    }

    /**
      Every cell ends up at its chessboard distance to the nearest seed of the
      whole grid, unless that is longer than an unset cell.
     */
    method ComputeSdf(grid: array<DistancePoint>)
      requires szx >= 0 && szy >= 0 && grid.Length == szx * szy
      requires forall i :: 0 <= i < grid.Length ==> grid[i] == SEED || grid[i] == UNSET
      modifies grid
      ensures Exact(szx, szy, SeedCells(szx, szy, old(grid[..])), grid[..])
    {
      if szx == 0 || szy == 0 {
        return;
      }
      ghost var seeds := SeedCells(szx, szy, grid[..]);
      ghost var lv := InitialLevels(szx, szy, grid[..]);
      lv := FirstSweep(grid, seeds, lv);
      lv := SecondSweep(grid, seeds, lv);
      AllExact(szx, szy, seeds, grid[..], lv);
    }

    /** Seeds of the inside grid are the transparent pixels, of the outside grid the opaque ones. */
    method FromRgba(imageData: seq<bv8>)
      requires szx >= 0 && szy >= 0 && |imageData| == 4 * (szx * szy)
      requires gridInside.Length == szx * szy == gridOutside.Length && gridInside != gridOutside
      modifies gridInside, gridOutside
      ensures forall i :: 0 <= i < szx * szy ==> gridInside[i] == if imageData[4 * i + 3] < 128 then SEED else UNSET
      ensures forall i :: 0 <= i < szx * szy ==> gridOutside[i] == if imageData[4 * i + 3] < 128 then UNSET else SEED
    {
      var next := 0;
      for i := 0 to szx * szy
        invariant next == 4 * i
        invariant forall j :: 0 <= j < i ==> gridInside[j] == if imageData[4 * j + 3] < 128 then SEED else UNSET
        invariant forall j :: 0 <= j < i ==> gridOutside[j] == if imageData[4 * j + 3] < 128 then UNSET else SEED
      {
        var a := imageData[next + 3];
        next := next + 4;
        if a < 128 {
          gridInside[i] := SEED;
          gridOutside[i] := UNSET;
        } else {
          gridInside[i] := UNSET;
          gridOutside[i] := SEED;
        }
      }
    }

    /** The two distance grids of an image: to the nearest transparent and to the nearest opaque pixel. */
    method ComputeGrids(imageData: seq<bv8>)
      requires szx >= 0 && szy >= 0 && |imageData| == 4 * (szx * szy)
      requires gridInside.Length == szx * szy == gridOutside.Length && gridInside != gridOutside
      modifies gridInside, gridOutside
      ensures Exact(szx, szy, Pixels(szx, szy, imageData, false), gridInside[..])
      ensures Exact(szx, szy, Pixels(szx, szy, imageData, true), gridOutside[..])
    {
      FromRgba(imageData);
      ghost var inside, outside := gridInside[..], gridOutside[..];
      forall i | 0 <= i < szx * szy
        ensures inside[i] == if Opaque(imageData, i) then UNSET else SEED
        ensures outside[i] == if Opaque(imageData, i) then SEED else UNSET
      {
      }
      assert SeedCells(szx, szy, inside) == Pixels(szx, szy, imageData, false);
      assert SeedCells(szx, szy, outside) == Pixels(szx, szy, imageData, true);
      ComputeSdf(gridInside);
      ComputeSdf(gridOutside);
    }
  }
}
