/**
  The clockwise 8-neighbour search used by the outline tracer: a 45-degree
  rotation of a unit step, the search for the first foreground neighbour in
  clockwise order, and the (unused) neighbour count.
*/
module Clockwise {
  import opened Options
  import opened PixelField

  /** A lattice step (dx, dy). */
  datatype Step = Step(dx: int, dy: int)

  /** The eight unit steps in clockwise order, starting at "up" (index 0). */
  function Compass(i: int): Step
    requires 0 <= i < 8
  {
    match i
    case 0 => Step(0, 1)
    case 1 => Step(1, 1)
    case 2 => Step(1, 0)
    case 3 => Step(1, -1)
    case 4 => Step(0, -1)
    case 5 => Step(-1, -1)
    case 6 => Step(-1, 0)
    case _ => Step(-1, 1)
  }

  predicate Unit(d: Step) {
    -1 <= d.dx <= 1 && -1 <= d.dy <= 1 && d != Step(0, 0)
  }

  /** Clamp a sum of two unit components back into {-1, 0, 1}. */
  function Clamp(v: int): int {
    if v == 2 then 1 else if v == -2 then -1 else v
  }

  /** Rotate a step 45 degrees clockwise; unit steps stay unit steps. */
  function NextClockwiseDir(d: Step): (r: Step)
    ensures Unit(d) ==> Unit(r)
  {
    Step(Clamp(d.dx + d.dy), Clamp(d.dy - d.dx))
  }

  /** The step pointing back. */
  function Reverse(d: Step): (r: Step)
    ensures Unit(d) ==> Unit(r)
  {
    Step(-d.dx, -d.dy)
  }

  /** The step after k clockwise rotations. */
  function Rotate(d: Step, k: nat): Step
    decreases k
  {
    if k == 0 then d else Rotate(NextClockwiseDir(d), k - 1)
  }

  /** The unit steps are exactly the compass entries. */
  lemma UnitIsCompass(d: Step)
    ensures Unit(d) <==> exists i :: 0 <= i < 8 && Compass(i) == d
  {
    if Unit(d) {
      var i := if d.dx == 0 then (if d.dy == 1 then 0 else 4)
               else if d.dx == 1 then 2 - d.dy
               else 6 + d.dy;
      assert Compass(i) == d;
    }
  }

  /** The rotation advances each compass entry to the next, wrapping after the eighth. */
  lemma CompassSuccessor(i: int)
    requires 0 <= i < 8
    ensures NextClockwiseDir(Compass(i)) == Compass((i + 1) % 8)
  { }

  /** k rotations move k places along the compass. */
  lemma {:induction false} RotateAlongCompass(i: int, k: nat)
    requires 0 <= i < 8
    ensures Rotate(Compass(i), k) == Compass((i + k) % 8)
    decreases k
  {
    if k > 0 {
      RotateAlongCompass(i, k - 1);
      RotateStep(Compass(i), k - 1);
      AdvanceOne(i, k);
    }
  }

  lemma AdvanceOne(i: int, k: nat)
    requires 0 <= i < 8 && k > 0
    ensures NextClockwiseDir(Compass((i + (k - 1)) % 8)) == Compass((i + k) % 8)
  {
    CompassSuccessor((i + k - 1) % 8);
    WrapSuccessor(i + k - 1);
  }

  lemma WrapSuccessor(n: nat)
    ensures (n % 8 + 1) % 8 == (n + 1) % 8
  {
  }

  /**
    The rotation is a single 8-cycle on the unit steps: eight rotations give
    the step back, and no fewer do.
  */
  lemma SingleCycle(d: Step)
    requires Unit(d)
    ensures forall k :: 0 < k <= 8 ==> (Rotate(d, k) == d <==> k == 8)
  {
    forall k | 0 < k <= 8
      ensures Rotate(d, k) == d <==> k == 8
    {
      if k == 8 {
        FullTurn(d);
      } else {
        NoEarlyReturn(d, k);
      }
    }
  }

  lemma FullTurn(d: Step)
    requires Unit(d)
    ensures Rotate(d, 8) == d
  {
    UnitIsCompass(d);
    var i :| 0 <= i < 8 && Compass(i) == d;
    RotateAlongCompass(i, 8);
    WrapFull(i);
  }

  lemma NoEarlyReturn(d: Step, k: nat)
    requires Unit(d) && 0 < k < 8
    ensures Rotate(d, k) != d
  {
    UnitIsCompass(d);
    var i :| 0 <= i < 8 && Compass(i) == d;
    RotateAlongCompass(i, k);
    CompassDistinct(i, Wrap(i + k));
  }

  lemma WrapFull(i: int)
    requires 0 <= i < 8
    ensures (i + 8) % 8 == i
  {
  }

  /** A sum of two compass indices reduced to a compass index, written without `%`. */
  function Wrap(n: int): (j: int)
    requires 0 <= n < 16
    ensures j == n % 8
  {
    if n < 8 then n else n - 8
  }

  /** The compass entries are pairwise different. */
  lemma CompassDistinct(i: int, j: int)
    requires 0 <= i < 8 && 0 <= j < 8 && i != j
    ensures Compass(i) != Compass(j)
  {
  }

  /** Rotating a unit step any number of times gives a unit step. */
  lemma {:induction false} RotateKeepsUnit(d: Step, k: nat)
    requires Unit(d)
    ensures Unit(Rotate(d, k))
  {
    UnitIsCompass(d);
    var i :| 0 <= i < 8 && Compass(i) == d;
    RotateAlongCompass(i, k);
    UnitIsCompass(Rotate(d, k));
  }

  /**
    Searching clockwise from one step past `back` reaches `back` itself at the
    last of the eight tries, so a foreground pixel in direction `back` is
    always found.
  */
  lemma SearchReachesBack(f: Field, x: int, y: int, back: Step)
    requires WellFormed(f) && Unit(back) && Hit(f, x, y, back)
    ensures Rotate(NextClockwiseDir(back), 7) == back
    ensures exists k :: 0 <= k < 8 && Hit(f, x, y, Rotate(NextClockwiseDir(back), k))
  {
    FullTurn(back);
    assert Rotate(back, 8) == Rotate(NextClockwiseDir(back), 7);
  }

  /** Starting from "up", the k-th rotation is the k-th compass entry. */
  lemma RotateFromUp(k: nat)
    requires k < 8
    ensures Rotate(Step(0, 1), k) == Compass(k)
  {
    RotateAlongCompass(0, k);
  }

  /** The neighbour of (x, y) in direction d is a foreground pixel. */
  predicate Hit(f: Field, x: int, y: int, d: Step)
    requires WellFormed(f)
  {
    Foreground(f, Point(x + d.dx, y + d.dy))
  }

  /** None of the first n directions of the clockwise search from d hits. */
  ghost predicate Missed(f: Field, x: int, y: int, d: Step, n: nat)
    requires WellFormed(f)
  {
    forall j :: 0 <= j < n ==> !Hit(f, x, y, Rotate(d, j))
  }

  /** Direction Rotate(d, k) is the first of the clockwise search from d to hit. */
  ghost predicate FirstHit(f: Field, x: int, y: int, d: Step, k: nat)
    requires WellFormed(f)
  {
    Hit(f, x, y, Rotate(d, k)) && Missed(f, x, y, d, k)
  }

  lemma MissedOneMore(f: Field, x: int, y: int, d: Step, n: nat)
    requires WellFormed(f) && Missed(f, x, y, d, n) && !Hit(f, x, y, Rotate(d, n))
    ensures Missed(f, x, y, d, n + 1)
  {
  }

  /**
    The first direction of the clockwise search from d, counting from the n-th,
    whose neighbour is foreground; 8 when none of them is.
  */
  function FirstHitFrom(f: Field, x: int, y: int, d: Step, n: nat): nat
    requires WellFormed(f) && n <= 8
    decreases 8 - n
  {
    if n == 8 || Hit(f, x, y, Rotate(d, n)) then n else FirstHitFrom(f, x, y, d, n + 1)
  }

  /**
    After n misses, FirstHitFrom answers with a later direction at which every
    earlier one has missed, and which hits unless it is 8.
  */
  lemma {:induction false} FirstHitFromFinds(f: Field, x: int, y: int, d: Step, n: nat)
    requires WellFormed(f) && n <= 8 && Missed(f, x, y, d, n)
    ensures var k := FirstHitFrom(f, x, y, d, n);
            n <= k <= 8 && Missed(f, x, y, d, k) && (k < 8 ==> Hit(f, x, y, Rotate(d, k)))
    decreases 8 - n
  {
    if n < 8 && !Hit(f, x, y, Rotate(d, n)) {
      MissedOneMore(f, x, y, d, n);
      FirstHitFromFinds(f, x, y, d, n + 1);
    }
  }

  /** The first hit of the search is the one FirstHitFrom computes from the start. */
  lemma FirstHitIsFirstHitFrom(f: Field, x: int, y: int, d: Step, k: nat)
    requires WellFormed(f) && k < 8 && FirstHit(f, x, y, d, k)
    ensures FirstHitFrom(f, x, y, d, 0) == k
  {
    FirstHitFromFinds(f, x, y, d, 0);
  }

  /** The neighbour moved to, and the step from it back to where the search started. */
  datatype Move = Move(x: int, y: int, back: Step)

  /**
    Search the eight neighbours of (x, y) clockwise starting at direction d;
    return the first foreground one with the reversed step, or None when no
    neighbour is foreground.
  */
  method NextClockwisePixel(f: Field, x: int, y: int, d: Step) returns (r: Option<Move>, ghost k: nat)
    requires WellFormed(f)
    ensures r.None? <==> forall j :: 0 <= j < 8 ==> !Hit(f, x, y, Rotate(d, j))
    ensures r.Some? ==> k < 8 && FirstHit(f, x, y, d, k) && r.value == MoveTo(x, y, Rotate(d, k))
  {
    var i, dir := SearchClockwise(f, x, y, d);
    k := i;
    if i == 8 {
      return None, k;
    }
    r := Some(MoveTo(x, y, dir));
  }

  /** The move from (x, y) one step in direction d. */
  function MoveTo(x: int, y: int, d: Step): Move
  {
    Move(x + d.dx, y + d.dy, Reverse(d))
  }

  /**
    The move towards a foreground neighbour lands on a foreground pixel, and
    its step leads back to where it started; from a unit direction the step
    back is a unit step.
  */
  lemma MoveLeadsBack(f: Field, x: int, y: int, dir: Step)
    requires WellFormed(f) && Hit(f, x, y, dir)
    ensures var m := MoveTo(x, y, dir);
            && m.x == x - m.back.dx && m.y == y - m.back.dy
            && Foreground(f, Point(m.x, m.y))
            && (Unit(dir) ==> Unit(m.back))
  {
    var m := MoveTo(x, y, dir);
    assert Point(m.x, m.y) == Point(x + dir.dx, y + dir.dy);
  }

  /**
    The search loop: i is the number of directions tried without a hit, and
    dir the direction at which the search stopped.
  */
  method SearchClockwise(f: Field, x: int, y: int, d: Step) returns (i: nat, dir: Step)
    requires WellFormed(f)
    ensures i <= 8 && dir == Rotate(d, i) && Missed(f, x, y, d, i)
    ensures i < 8 ==> Hit(f, x, y, dir)
  {
    dir := d;
    i := 0;
    while i < 8 && ContainsPosition(f, x + dir.dx, y + dir.dy) == -1
      invariant 0 <= i <= 8
      invariant dir == Rotate(d, i)
      invariant Missed(f, x, y, d, i)
    {
      MissedOneMore(f, x, y, d, i);
      RotateStep(d, i);
      dir := NextClockwiseDir(dir);
      i := i + 1;
    }
  }

  lemma {:induction false} RotateStep(d: Step, k: nat)
    ensures Rotate(d, k + 1) == NextClockwiseDir(Rotate(d, k))
    decreases k
  {
    if k > 0 {
      RotateStep(NextClockwiseDir(d), k - 1);
    }
  }

  /** The number of foreground pixels among the first n compass neighbours of (x, y). */
  function NeighbourCount(f: Field, x: int, y: int, n: nat): nat
    requires WellFormed(f) && n <= 8
  {
    if n == 0 then 0
    else NeighbourCount(f, x, y, n - 1) + (if Hit(f, x, y, Compass(n - 1)) then 1 else 0)
  }

  /**
    A pixel is suitable for clockwise tracing when it is foreground itself and
    has more than one foreground neighbour.
  */
  method SuitableForClockwise(f: Field, x: int, y: int) returns (b: bool)
    requires WellFormed(f)
    ensures b <==> Foreground(f, Point(x, y)) && NeighbourCount(f, x, y, 8) > 1
  {
    if ContainsPosition(f, x, y) == -1 {
      return false;
    }
    var adjacent := CountAdjacent(f, x, y);
    return adjacent > 1;
  }

  /** Count the foreground neighbours of (x, y), turning clockwise from "up". */
  method CountAdjacent(f: Field, x: int, y: int) returns (adjacent: nat)
    requires WellFormed(f)
    ensures adjacent == NeighbourCount(f, x, y, 8)
  {
    adjacent := 0;
    var dir := Step(0, 1);
    var i := 0;
    while i < 8
      invariant 0 <= i <= 8
      invariant i < 8 ==> dir == Compass(i)
      invariant adjacent == NeighbourCount(f, x, y, i)
    {
      if ContainsPosition(f, x + dir.dx, y + dir.dy) != -1 {
        adjacent := adjacent + 1;
      }
      CompassSuccessor(i);
      dir := NextClockwiseDir(dir);
      i := i + 1;
    }
  }
}
