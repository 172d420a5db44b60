/**
 The gradient search for an input of distance 0.  Constraint functions and the size of every
 movement are arbitrary; the state machine, its loops and its bookkeeping are the program's.
 */
module Search {
  import opened Expr
  import C = Constraint
  import R = Results

  const MAX_EXEC_TIMES: nat := 2000

  type U64 = x: nat | x < 0x1_0000_0000_0000_0000

  function Wrap(x: int): U64 { x % 0x1_0000_0000_0000_0000 }

  // ---------------------------------------------------------------------------
  // Distance
  // ---------------------------------------------------------------------------

  function SatInc(base: U64, inc: U64): U64 {
    if Wrap(base + inc) < base then 0xFFFF_FFFF_FFFF_FFFF else Wrap(base + inc)
  }

  function SignedOf(a: U64): (r: int)
    ensures -0x8000_0000_0000_0000 <= r < 0x8000_0000_0000_0000 && Wrap(r) == a
  {
    if a < 0x8000_0000_0000_0000 then a else a - 0x1_0000_0000_0000_0000
  }

  function GetDistance(op: CmpOp, a: U64, b: U64): U64 {
    match op
    case Equal => if a >= b then a - b else b - a
    case Distinct => if a == b then 1 else 0
    case Ult => if a < b then 0 else SatInc(Wrap(a - b), 1)
    case Ule => if a <= b then 0 else a - b
    case Ugt => if a > b then 0 else SatInc(Wrap(b - a), 1)
    case Uge => if a >= b then 0 else b - a
    case Slt => if SignedOf(a) < SignedOf(b) then 0 else SatInc(Wrap(a - b), 1)
    case Sle => if SignedOf(a) <= SignedOf(b) then 0 else Wrap(a - b)
    case Sgt => if SignedOf(a) > SignedOf(b) then 0 else SatInc(Wrap(b - a), 1)
    case Sge => if SignedOf(a) >= SignedOf(b) then 0 else Wrap(b - a)
  }

  /** The comparison on 64-bit words. */
  predicate Holds(op: CmpOp, a: U64, b: U64) {
    match op
    case Equal => a == b
    case Distinct => a != b
    case Ult => a < b
    case Ule => a <= b
    case Ugt => a > b
    case Uge => a >= b
    case Slt => SignedOf(a) < SignedOf(b)
    case Sle => SignedOf(a) <= SignedOf(b)
    case Sgt => SignedOf(a) > SignedOf(b)
    case Sge => SignedOf(a) >= SignedOf(b)
  }

  lemma {:induction false} SatIncZero(base: U64, inc: U64)
    ensures SatInc(base, inc) == 0 <==> base == 0 && inc == 0
    ensures SatInc(base, inc) >= base
  {
  }

  /** The distance of a comparison is zero exactly when it holds. */
  lemma {:induction false} DistanceZero(op: CmpOp, a: U64, b: U64)
    ensures GetDistance(op, a, b) == 0 <==> Holds(op, a, b)
  {
    SatIncZero(Wrap(a - b), 1);
    SatIncZero(Wrap(b - a), 1);
  }

  const CAP: nat := 0xFFFF_FFFF_FFFF_FFFF

  function Capped(n: nat): U64 { if n <= CAP then n else CAP }

  /** The sum, capped at the largest word. */
  lemma {:induction false} SatIncIsSum(base: U64, inc: U64)
    ensures SatInc(base, inc) == Capped(base + inc)
  {
  }

  predicate IsSigned(op: CmpOp) { op == Slt || op == Sle || op == Sgt || op == Sge }

  /** A word as the comparison reads it. */
  function Reading(op: CmpOp, a: U64): int { if IsSigned(op) then SignedOf(a) else a }

  function Between(a: int, b: int): nat { if a <= b then b - a else a - b }

  /** A strict comparison has to go one beyond equality. */
  function Strictly(op: CmpOp): nat { if op == Ult || op == Ugt || op == Slt || op == Sgt then 1 else 0 }

  /** The distance of a comparison that fails is how far apart the words are, as it reads them. */
  lemma {:induction false} DistanceIsGap(op: CmpOp, a: U64, b: U64)
    requires !Holds(op, a, b) && op != Distinct
    ensures GetDistance(op, a, b) == Capped(Between(Reading(op, a), Reading(op, b)) + Strictly(op))
  {
    match op
    case Equal =>
    case Distinct =>
    case Ult => GapAbove(a, b);
    case Ule =>
    case Ugt => GapAbove(b, a);
    case Uge =>
    case Slt => SignedGapAbove(a, b);
    case Sle => SignedGapAbove(a, b);
    case Sgt => SignedGapAbove(b, a);
    case Sge => SignedGapAbove(b, a);
  }

  lemma {:induction false} GapAbove(a: U64, b: U64)
    requires a >= b
    ensures Wrap(a - b) == a - b && SatInc(Wrap(a - b), 1) == Capped(a - b + 1)
  {
    SatIncIsSum(a - b, 1);
  }

  lemma {:induction false} SignedGapAbove(a: U64, b: U64)
    requires SignedOf(a) >= SignedOf(b)
    ensures Wrap(a - b) == SignedOf(a) - SignedOf(b)
    ensures SatInc(Wrap(a - b), 1) == Capped(SignedOf(a) - SignedOf(b) + 1)
  {
    SatIncIsSum(Wrap(a - b), 1);
  }

  /** Of two equal words that should differ it is 1. */
  lemma {:induction false} DistanceOfEqual(a: U64)
    ensures GetDistance(Distinct, a, a) == 1
  {
  }

  /** A constraint: a comparison of the two words its function computes from the arguments. */
  datatype Cons = Cons(cmp: CmpOp, fn: seq<U64> -> (U64, U64))

  datatype Problem = Problem(cons: seq<Cons>, flipped: bool)

  /** All constraints but the first are flipped; the first one too when the direction is. */
  function Comparison(p: Problem, i: nat): CmpOp
    requires i < |p.cons|
  {
    if i != 0 || p.flipped then C.FlipOp(p.cons[i].cmp) else p.cons[i].cmp
  }

  function DistanceAt(p: Problem, v: seq<U64>, i: nat): U64
    requires i < |p.cons|
  {
    GetDistance(Comparison(p, i), p.cons[i].fn(v).0, p.cons[i].fn(v).1)
  }

  function DistanceUpTo(p: Problem, v: seq<U64>, n: nat): U64
    requires n <= |p.cons|
  {
    if n == 0 then 0
    else
      var d := DistanceAt(p, v, n - 1);
      if d > 0 then SatInc(DistanceUpTo(p, v, n - 1), d) else DistanceUpTo(p, v, n - 1)
  }

  function Distance(p: Problem, v: seq<U64>): U64 { DistanceUpTo(p, v, |p.cons|) }

  function SumUpTo(p: Problem, v: seq<U64>, n: nat): nat
    requires n <= |p.cons|
  {
    if n == 0 then 0 else SumUpTo(p, v, n - 1) + DistanceAt(p, v, n - 1)
  }

  /** The distance of a problem is the sum of the distances of its constraints, capped. */
  lemma {:induction false} DistanceIsSum(p: Problem, v: seq<U64>, n: nat)
    requires n <= |p.cons|
    ensures DistanceUpTo(p, v, n) == Capped(SumUpTo(p, v, n))
  {
    if n > 0 {
      DistanceIsSum(p, v, n - 1);
      SatIncIsSum(DistanceUpTo(p, v, n - 1), DistanceAt(p, v, n - 1));
    }
  }

  function Distances(p: Problem, v: seq<U64>): seq<U64> {
    seq(|p.cons|, i requires 0 <= i < |p.cons| => DistanceAt(p, v, i))
  }

  /** The constraint holds, or fails where the program asks for its negation. */
  predicate Wanted(p: Problem, v: seq<U64>, i: nat)
    requires i < |p.cons|
  {
    var (a, b) := p.cons[i].fn(v);
    Holds(p.cons[i].cmp, a, b) == (i == 0 && !p.flipped)
  }

  lemma {:induction false} FlipHolds(op: CmpOp, a: U64, b: U64)
    ensures Holds(C.FlipOp(op), a, b) <==> !Holds(op, a, b)
  {
  }

  lemma {:induction false} DistanceUpToZero(p: Problem, v: seq<U64>, n: nat)
    requires n <= |p.cons|
    ensures DistanceUpTo(p, v, n) == 0 <==> forall i :: 0 <= i < n ==> Wanted(p, v, i)
  {
    if n > 0 {
      DistanceUpToZero(p, v, n - 1);
      var (a, b) := p.cons[n - 1].fn(v);
      DistanceZero(Comparison(p, n - 1), a, b);
      FlipHolds(p.cons[n - 1].cmp, a, b);
      assert DistanceAt(p, v, n - 1) == 0 <==> Wanted(p, v, n - 1);
      SatIncZero(DistanceUpTo(p, v, n - 1), DistanceAt(p, v, n - 1));
    }
  }

  /** An input has distance 0 exactly when every constraint, negated where the program flips it, holds. */
  lemma {:induction false} SolvedIff(p: Problem, v: seq<U64>)
    ensures Distance(p, v) == 0 <==> forall i :: 0 <= i < |p.cons| ==> Wanted(p, v, i)
  {
    DistanceUpToZero(p, v, |p.cons|);
  }

  // ---------------------------------------------------------------------------
  // The search
  // ---------------------------------------------------------------------------

  datatype Grad = Grad(sign: bool, val: U64)

  function Moved(v: seq<U64>, i: nat, up: bool, delta: U64): seq<U64>
    requires i < |v|
  {
    var x: int := v[i];
    v[i := Wrap(if up then x + delta else x - delta)]
  }

  /** The input a probe looks at: one step away, or the input itself in a disabled dimension. */
  function Probed(v: seq<U64>, i: nat, up: bool, disabled: bool): seq<U64>
    requires i < |v|
  {
    if disabled then v else Moved(v, i, up, 1)
  }

  /** The side that saves more, the step up if both save the same, and how much it saves. */
  function Slope(p: Problem, v: seq<U64>, i: nat, disabled: bool): Grad
    requires i < |v|
  {
    var f0, fPlus, fMinus :=
      Distance(p, v), Distance(p, Probed(v, i, true, disabled)), Distance(p, Probed(v, i, false, disabled));
    if fMinus < f0 && (fPlus >= f0 || fMinus < fPlus) then Grad(false, f0 - fMinus)
    else if fPlus < f0 then Grad(true, f0 - fPlus)
    else Grad(true, 0)
  }

  /** Moving from `v` to `w` breaks a constraint that was met. */
  ghost predicate Breaks(p: Problem, v: seq<U64>, w: seq<U64>) {
    exists k :: 0 <= k < |p.cons| && DistanceAt(p, w, k) != 0 && DistanceAt(p, v, k) == 0
  }

  lemma {:induction false} BrokenIs(p: Problem, v: seq<U64>, w: seq<U64>)
    ensures var after, before := Distances(p, w), Distances(p, v);
      (exists k :: 0 <= k < |after| && after[k] != 0 && before[k] == 0) <==> Breaks(p, v, w)
  {
    var after, before := Distances(p, w), Distances(p, v);
    assert forall k :: 0 <= k < |p.cons| ==> after[k] == DistanceAt(p, w, k) && before[k] == DistanceAt(p, v, k);
    if k :| 0 <= k < |p.cons| && DistanceAt(p, w, k) != 0 && DistanceAt(p, v, k) == 0 {
      assert after[k] != 0 && before[k] == 0;
    }
  }

  /** When the program gives a dimension up: it looks at the step up, whatever the sign. */
  ghost predicate Drops(p: Problem, v: seq<U64>, i: nat, disabled: bool)
    requires i < |v|
  {
    Slope(p, v, i, disabled).val > 0 && Breaks(p, v, Moved(v, i, true, 1))
  }

  /** When it should: the step along the sign breaks a constraint that was met. */
  ghost predicate ShouldDrop(p: Problem, v: seq<U64>, i: nat, disabled: bool)
    requires i < |v|
  {
    var g := Slope(p, v, i, disabled);
    g.val > 0 && Breaks(p, v, Moved(v, i, g.sign, 1))
  }

  /** The gradient that is kept: nothing in a dimension given up. */
  ghost function GradAt(p: Problem, v: seq<U64>, i: nat, disabled: bool): Grad
    requires i < |v|
  {
    var g := Slope(p, v, i, disabled);
    if Drops(p, v, i, disabled) then Grad(g.sign, 0) else g
  }

  /** A positive slope is what one step along its sign saves, in a dimension that may move. */
  lemma {:induction false} SlopeIsDownhill(p: Problem, v: seq<U64>, i: nat, disabled: bool)
    requires i < |v| && Slope(p, v, i, disabled).val > 0
    ensures !disabled && Downhill(p, v, Distance(p, v), i, Slope(p, v, i, disabled))
  {
  }

  /** No step saves more than the slope. */
  lemma {:induction false} SlopeIsBest(p: Problem, v: seq<U64>, i: nat, disabled: bool, up: bool)
    requires i < |v|
    ensures Distance(p, v) <= Distance(p, Probed(v, i, up, disabled)) + Slope(p, v, i, disabled).val
  {
  }

  lemma {:induction false} GradIsDownhill(p: Problem, v: seq<U64>, i: nat, disabled: bool)
    requires i < |v| && GradAt(p, v, i, disabled).val > 0
    ensures !disabled && !Drops(p, v, i, disabled) && Downhill(p, v, Distance(p, v), i, GradAt(p, v, i, disabled))
  {
    SlopeIsDownhill(p, v, i, disabled);
  }

  /**
   The program gives up exactly the dimensions it should iff there is nothing to gain, the sign
   is up, or the steps up and down agree on breaking a constraint that was met.
   */
  lemma {:induction false} DropsAsItShould(p: Problem, v: seq<U64>, i: nat, disabled: bool)
    requires i < |v|
    ensures var g := Slope(p, v, i, disabled);
      (Drops(p, v, i, disabled) <==> ShouldDrop(p, v, i, disabled)) <==>
        (g.val == 0 || g.sign || (Breaks(p, v, Moved(v, i, true, 1)) <==> Breaks(p, v, Moved(v, i, false, 1))))
  {
  }

  function Tripled(v: seq<U64>): (U64, U64) {
    var x: int := if |v| > 0 then v[0] else 0;
    (Wrap(3 * x), 0)
  }

  function AgainstTen(v: seq<U64>): (U64, U64) { (if |v| > 0 then v[0] else 0, 10) }

  /** The first `n` gradients and the dimensions given up among them are as the program decides. */
  ghost predicate GradsOk(p: Problem, v: seq<U64>, before: seq<bool>, after: seq<bool>, grad: seq<Grad>, n: nat) {
    && n <= |v| == |before| == |after| == |grad|
    && (forall i :: 0 <= i < n ==> grad[i] == GradAt(p, v, i, before[i]))
    && (forall i :: 0 <= i < n ==> after[i] == (before[i] || Drops(p, v, i, before[i])))
    && (forall i :: n <= i < |v| ==> after[i] == before[i])
  }

  lemma {:induction false} NextGrad(p: Problem, v: seq<U64>, before: seq<bool>, mid: seq<bool>, after: seq<bool>,
      grad: seq<Grad>, n: nat, g: Grad)
    requires GradsOk(p, v, before, mid, grad, n) && n < |v| && g == GradAt(p, v, n, mid[n])
    requires after == mid[n := mid[n] || Drops(p, v, n, mid[n])]
    ensures GradsOk(p, v, before, after, grad[n := g], n + 1)
  {
  }

  lemma {:induction false} AllDownhill(p: Problem, v: seq<U64>, before: seq<bool>, after: seq<bool>, grad: seq<Grad>)
    requires GradsOk(p, v, before, after, grad, |v|)
    ensures forall i :: 0 <= i < |v| && grad[i].val > 0 ==> !after[i] && Downhill(p, v, Distance(p, v), i, grad[i])
  {
    forall i | 0 <= i < |v| && grad[i].val > 0 ensures !after[i] && Downhill(p, v, Distance(p, v), i, grad[i]) {
      GradIsDownhill(p, v, i, before[i]);
    }
  }

  /** Three times the byte is to be 0; the second constraint compares the byte with 10. */
  function Steep(second: CmpOp): Problem {
    Problem([Cons(Equal, Tripled), Cons(C.FlipOp(second), AgainstTen)], false)
  }

  lemma {:induction false} SteepAt(second: CmpOp, x: U64)
    requires 9 <= x <= 11
    ensures DistanceAt(Steep(second), [x], 0) == 3 * x
    ensures DistanceAt(Steep(second), [x], 1) == GetDistance(second, x, 10)
    ensures Distance(Steep(second), [x]) == SatInc(3 * x, GetDistance(second, x, 10))
  {
    var p, v := Steep(second), [x];
    FlipHolds(second, x, 10);
    assert C.FlipOp(C.FlipOp(second)) == second;
    assert DistanceUpTo(p, v, 0) == 0;
    assert DistanceUpTo(p, v, 1) == SatInc(0, 3 * x) == 3 * x;
  }

  /** The step down, which is the one to take from 10, breaks "at least 10"; the dimension stays enabled. */
  lemma {:induction false} StaysEnabled()
    ensures Slope(Steep(Uge), [10], 0, false) == Grad(false, 2)
    ensures ShouldDrop(Steep(Uge), [10], 0, false) && !Drops(Steep(Uge), [10], 0, false)
  {
    SteepSlope(Uge);
  }

  /** The step down from 10 breaks nothing when "at most 10" is asked; the dimension is given up. */
  lemma {:induction false} GivenUp()
    ensures Slope(Steep(Ule), [10], 0, false) == Grad(false, 3)
    ensures !ShouldDrop(Steep(Ule), [10], 0, false) && Drops(Steep(Ule), [10], 0, false)
  {
    SteepSlope(Ule);
  }

  lemma {:induction false} SteepSlope(second: CmpOp)
    requires second == Uge || second == Ule
    ensures Slope(Steep(second), [10], 0, false) == Grad(false, if second == Uge then 2 else 3)
    ensures Breaks(Steep(second), [10], Moved([10], 0, false, 1)) <==> second == Uge
    ensures Breaks(Steep(second), [10], Moved([10], 0, true, 1)) <==> second == Ule
  {
    var p, v: seq<U64> := Steep(second), [10];
    SteepAt(second, 9);
    SteepAt(second, 10);
    SteepAt(second, 11);
    assert Moved(v, 0, false, 1) == [9] && Moved(v, 0, true, 1) == [11];
    assert second == Uge ==> DistanceAt(p, [9], 1) != 0 && DistanceAt(p, v, 1) == 0;
    assert second == Ule ==> DistanceAt(p, [11], 1) != 0 && DistanceAt(p, v, 1) == 0;
  }

  /** The last distances are those of the minimum. */
  predicate AtMin(p: Problem, v: seq<U64>, f: U64, orig: seq<U64>) {
    f == Distance(p, v) && orig == Distances(p, v)
  }

  /** One step along the gradient in dimension `i` lowers the distance `f` by its value. */
  predicate Downhill(p: Problem, v: seq<U64>, f: U64, i: nat, g: Grad) {
    i < |v| && Distance(p, Moved(v, i, g.sign, 1)) == f - g.val
  }

  /** A state that ran, and the last distance after it. */
  datatype Event = Event(state: nat, f: U64)

  /** Between two repicks the last distance never rises. */
  ghost predicate NeverRises(log: seq<Event>) {
    forall k :: 0 < k < |log| && log[k].state != 0 && log[k].state != 5 ==> log[k].f <= log[k - 1].f
  }

  /** Every recorded input has a value for each of the `n` slots, and distance 0. */
  ghost predicate AllSolve(p: Problem, n: nat, recorded: seq<seq<U64>>) {
    forall k :: 0 <= k < |recorded| ==> |recorded[k]| == n && Distance(p, recorded[k]) == 0
  }

  /** The solutions after recording some inputs: at most one is kept, the first. */
  ghost function Kept(before: seq<R.Solution>, recorded: seq<seq<U64>>,
      record: seq<U64> -> R.Solution): seq<R.Solution> {
    if before == [] && recorded != [] then [record(recorded[0])] else before
  }

  ghost function Rank(state: nat): nat {
    if state == 4 then 3 else if state == 1 then 2 else if state == 2 then 1 else 0
  }

  class Searcher {
    const problem: Problem
    const inputs: seq<U64>
    const record: seq<U64> -> R.Solution
    const minInput: array<U64>
    const scratch: array<U64>
    const disables: array<bool>
    var grad: seq<Grad>
    var distances: seq<U64>
    var origDistances: seq<U64>
    var nextState: nat
    var fLast: U64
    var dimensionIdx: nat
    var att: nat
    var solved: bool
    var solutions: seq<R.Solution>
    ghost var recorded: seq<seq<U64>>
    ghost var log: seq<Event>

    ghost predicate Sized()
      reads this
    {
      && minInput != scratch
      && minInput.Length == scratch.Length == disables.Length == |grad| == |inputs|
      && |distances| == |origDistances| == |problem.cons|
    }

    /** A fresh context over the given input bytes. */
    constructor (problem: Problem, inputs: seq<U64>, record: seq<U64> -> R.Solution, solutions: seq<R.Solution>)
      ensures Sized() && fresh(minInput) && fresh(scratch) && fresh(disables)
      ensures this.problem == problem && this.inputs == inputs && this.record == record && this.solutions == solutions
      ensures nextState == 0 && att == 0 && !solved && recorded == [] && log == []
    {
      this.problem, this.inputs, this.record, this.solutions := problem, inputs, record, solutions;
      minInput := new U64[|inputs|](_ => 0);
      scratch := new U64[|inputs|](_ => 0);
      disables := new bool[|inputs|](_ => false);
      grad := seq(|inputs|, _ => Grad(false, 0));
      distances := seq(|problem.cons|, _ => 0);
      origDistances := seq(|problem.cons|, _ => 0);
      nextState, fLast, dimensionIdx, att, solved := 0, 0xFFFF_FFFF_FFFF_FFFF, 0, 0, false;
      recorded, log := [], [];
    }

    method ComputeDistance(a: array<U64>) returns (res: U64)
      requires |distances| == |problem.cons|
      modifies `distances
      ensures res == Distance(problem, a[..]) && distances == Distances(problem, a[..])
    {
      res := 0;
      var i := 0;
      while i < |problem.cons|
        invariant i <= |problem.cons| == |distances|
        invariant res == DistanceUpTo(problem, a[..], i)
        invariant forall k :: 0 <= k < i ==> distances[k] == DistanceAt(problem, a[..], k)
      {
        var (x, y) := problem.cons[i].fn(a[..]);
        var comparison := problem.cons[i].cmp;
        if i != 0 || problem.flipped {
          comparison := C.FlipOp(comparison);
        }
        var dis := GetDistance(comparison, x, y);
        distances := distances[i := dis];
        if dis > 0 {
          res := SatInc(res, dis);
        }
        i := i + 1;
      }
    }

    /** Only solving inputs were recorded, and the first of them is kept. */
    ghost predicate Recorded(start: seq<R.Solution>)
      reads this
    {
      AllSolve(problem, |inputs|, recorded) && solutions == Kept(start, recorded, record)
    }

    /** Keeps the bytes of a solving input, unless a solution is already kept. */
    method AddResults(a: array<U64>, ghost start: seq<R.Solution>)
      requires Recorded(start) && a.Length == |inputs| && Distance(problem, a[..]) == 0
      modifies `solutions, `recorded
      ensures Recorded(start) && recorded == old(recorded) + [a[..]]
    {
      if |solutions| < 1 {
        solutions := solutions + [record(a[..])];
      }
      recorded := recorded + [a[..]];
    }

    /** Moves one value up or down unless it is disabled. */
    method Update(a: array<U64>, index: nat, up: bool, delta: U64)
      requires index < a.Length == disables.Length
      modifies a
      ensures a[..] == if disables[index] then old(a[..]) else Moved(old(a[..]), index, up, delta)
    {
      if !disables[index] {
        var x: int := a[index];
        a[index] := Wrap(if up then x + delta else x - delta);
      }
    }

    method Copy(to: array<U64>, from: array<U64>)
      requires to != from && to.Length == from.Length
      modifies to
      ensures to[..] == from[..]
    {
      for i := 0 to from.Length
        invariant to[..i] == from[..i]
      {
        to[i] := from[i];
      }
      assert to[..] == to[..to.Length] && from[..] == from[..from.Length];
    }

    /** The distance one step away from the minimum, which is restored; recorded if it solves. */
    method Probe(index: nat, up: bool, ghost start: seq<R.Solution>) returns (found: bool, f: U64)
      requires Sized() && index < |grad| && Recorded(start)
      modifies minInput, `distances, `solutions, `recorded
      ensures Sized() && Recorded(start) && minInput[..] == old(minInput[..])
      ensures var w := Probed(minInput[..], index, up, disables[index]);
        f == Distance(problem, w) && distances == Distances(problem, w)
      ensures found <==> f == 0
      ensures if found then recorded != [] else recorded == old(recorded)
    {
      found := false;
      var origVal := minInput[index];
      Update(minInput, index, up, 1);
      f := ComputeDistance(minInput);
      if f == 0 {
        AddResults(minInput, start);
        found := true;
      }
      minInput[index] := origVal;
      assert minInput[..] == old(minInput[..]);
    }

    /** Tries one step up and one step down from the minimum, which is restored, and may give the dimension up. */
    method PartialDerivative(index: nat, ghost start: seq<R.Solution>) returns (found: bool, sign: bool, val: U64)
      requires Sized() && index < |grad| && Recorded(start) && AtMin(problem, minInput[..], fLast, origDistances)
      modifies minInput, disables, `distances, `solutions, `recorded
      ensures Sized() && Recorded(start) && minInput[..] == old(minInput[..])
      ensures if found then recorded != [] else recorded == old(recorded)
      ensures Grad(sign, val) == GradAt(problem, minInput[..], index, old(disables[index]))
      ensures val > 0 ==> !disables[index] && Downhill(problem, minInput[..], fLast, index, Grad(sign, val))
      ensures disables[..] ==
        old(disables[..])[index := old(disables[index]) || Drops(problem, minInput[..], index, old(disables[index]))]
    {
      var f0 := fLast;
      var up, fPlus := Probe(index, true, start);
      var plusDistances := distances;
      var down, fMinus := Probe(index, false, start);
      found := up || down;
      if fMinus < f0 {
        if fPlus < f0 && !(fMinus < fPlus) {
          sign, val := true, f0 - fPlus;
        } else {
          sign, val := false, f0 - fMinus;
        }
      } else if fPlus < f0 {
        sign, val := true, f0 - fPlus;
      } else {
        sign, val := true, 0;
      }
      assert Grad(sign, val) == Slope(problem, minInput[..], index, disables[index]);
      if val == 0 {
        return;
      }
      SlopeIsDownhill(problem, minInput[..], index, disables[index]);
      // The program tests the address of the sign here, so it always looks at the step up.
      var breaks := AnyBroken(plusDistances, origDistances);
      BrokenIs(problem, minInput[..], Moved(minInput[..], index, true, 1));
      if breaks {
        disables[index] := true;
        val := 0;
      }
    }

    /** Some distance that was 0 is not 0 any more. */
    method AnyBroken(after: seq<U64>, before: seq<U64>) returns (broken: bool)
      requires |after| == |before|
      ensures broken <==> exists k :: 0 <= k < |after| && after[k] != 0 && before[k] == 0
    {
      for i := 0 to |after|
        invariant forall k :: 0 <= k < i ==> !(after[k] != 0 && before[k] == 0)
      {
        if after[i] != 0 && before[i] == 0 {
          return true;
        }
      }
      return false;
    }

    /** State 1: the gradient, one dimension at a time. */
    method CalGradient(ghost start: seq<R.Solution>)
      requires Sized() && Recorded(start) && recorded == [] && !solved
      requires AtMin(problem, minInput[..], fLast, origDistances)
      modifies minInput, disables, `distances, `solutions, `recorded, `grad, `att, `nextState, `solved
      ensures Sized() && Recorded(start) && minInput[..] == old(minInput[..])
      ensures solved <==> recorded != []
      ensures att == old(att) + |grad|
      ensures GradsOk(problem, minInput[..], old(disables[..]), disables[..], grad, |grad|)
      ensures forall i :: 0 <= i < |grad| && grad[i].val > 0 ==>
        !disables[i] && Downhill(problem, minInput[..], fLast, i, grad[i])
      ensures nextState == if exists i :: 0 <= i < |grad| && grad[i].val > 0 then 2 else 5
    {
      Derivatives(start);
      AllDownhill(problem, minInput[..], old(disables[..]), disables[..], grad);
      assert forall i :: 0 <= i < |grad| ==> disables[i] == disables[..][i];
      att := att + |grad|;
      var flat := IsFlat();
      nextState := if flat then 5 else 2;
    }

    method IsFlat() returns (flat: bool)
      ensures flat <==> forall k :: 0 <= k < |grad| ==> grad[k].val == 0
    {
      flat := true;
      for i := 0 to |grad|
        invariant flat <==> forall k :: 0 <= k < i ==> grad[k].val == 0
      {
        if grad[i].val > 0 {
          flat := false;
        }
      }
    }

    method Derivatives(ghost start: seq<R.Solution>)
      requires Sized() && Recorded(start) && recorded == [] && !solved
      requires AtMin(problem, minInput[..], fLast, origDistances)
      modifies minInput, disables, `distances, `solutions, `recorded, `grad, `solved
      ensures Sized() && Recorded(start) && minInput[..] == old(minInput[..])
      ensures solved <==> recorded != []
      ensures GradsOk(problem, minInput[..], old(disables[..]), disables[..], grad, |grad|)
    {
      var index := 0;
      while index < |grad|
        invariant index <= |grad| && Sized() && Recorded(start) && minInput[..] == old(minInput[..])
        invariant solved <==> recorded != []
        invariant GradsOk(problem, minInput[..], old(disables[..]), disables[..], grad, index)
      {
        ghost var before := disables[..];
        var found, sign, val := PartialDerivative(index, start);
        if found {
          solved := true;
        }
        NextGrad(problem, minInput[..], old(disables[..]), before, disables[..], grad, index, Grad(sign, val));
        grad := grad[index := Grad(sign, val)];
        index := index + 1;
      }
    }

    /** Takes the scratch input, whose distance has just been computed, as the minimum. */
    method Accept(ghost f: U64)
      requires Sized() && distances == Distances(problem, scratch[..]) && f == Distance(problem, scratch[..])
      modifies minInput, `origDistances
      ensures Sized() && minInput[..] == scratch[..] && AtMin(problem, minInput[..], f, origDistances)
    {
      Copy(minInput, scratch);
      origDistances := distances;
    }

    /** Moves every value along its gradient by some amount. */
    method ComputeDeltaAll()
      requires Sized()
      modifies scratch
    {
      for index := 0 to |grad| {
        var delta: U64 := *;
        Update(scratch, index, grad[index].sign, delta);
      }
    }

    /** State 2: one guessed step. */
    method GuessDescend(ghost start: seq<R.Solution>)
      requires Sized() && Recorded(start) && recorded == [] && !solved
      requires AtMin(problem, minInput[..], fLast, origDistances) && fLast > 0
      modifies this, minInput, scratch
      ensures Sized() && Recorded(start) && log == old(log)
      ensures solved <==> recorded != []
      ensures AtMin(problem, minInput[..], fLast, origDistances) && fLast <= old(fLast) && (!solved ==> fLast > 0)
      ensures att >= old(att) && nextState == 3
    {
      Copy(scratch, minInput);
      var vsum: U64 := 0;
      for i := 0 to |grad| {
        vsum := Wrap(vsum + grad[i].val);
      }
      var f: U64 := fLast;
      if vsum > 0 {
        ComputeDeltaAll();
        var fNew := ComputeDistance(scratch);
        att := att + 1;
        if fNew >= f {
          Copy(scratch, minInput);
        } else {
          Accept(fNew);
          f := fNew;
        }
      }
      fLast := f;
      nextState := 3;
      if f == 0 {
        solved := true;
        AddResults(minInput, start);
      }
    }

    /** State 3: steps in all dimensions while the distance falls. */
    method AllDimensionDescend(ghost start: seq<R.Solution>)
      requires Sized() && Recorded(start) && recorded == [] && !solved
      requires AtMin(problem, minInput[..], fLast, origDistances) && fLast > 0
      modifies this, minInput, scratch
      ensures Sized() && Recorded(start) && log == old(log)
      ensures solved <==> recorded != []
      ensures fLast <= old(fLast) && (!solved ==> AtMin(problem, minInput[..], fLast, origDistances) && fLast > 0)
      ensures att > old(att) && (!solved ==> nextState == 4 || nextState == 5)
    {
      Copy(scratch, minInput);
      var f: U64 := fLast;
      while true
        invariant Sized() && Recorded(start) && recorded == [] && !solved && log == old(log)
        invariant AtMin(problem, minInput[..], f, origDistances) && 0 < f <= old(fLast) && att >= old(att)
        decreases f
      {
        ComputeDeltaAll();
        var fNew := ComputeDistance(scratch);
        att := att + 1;
        if fNew >= f && fNew != 0 {
          nextState := if |grad| == 1 then 5 else 4;
          fLast := f;
          break;
        } else if fNew == 0 {
          solved := true;
          AddResults(scratch, start);
          nextState := 3;
          fLast := f;
          Accept(fNew);
          break;
        } else {
          Accept(fNew);
          f := fNew;
        }
      }
    }

    /** Steps in one dimension while the distance falls; the scratch input is not taken back. */
    method DescendDimension(d: nat, f0: U64, ghost start: seq<R.Solution>) returns (f: U64)
      requires Sized() && d < |grad| && Recorded(start)
      requires AtMin(problem, minInput[..], f0, origDistances) && (solved <==> f0 == 0) && (solved <==> recorded != [])
      modifies this, minInput, scratch
      ensures Sized() && Recorded(start) && log == old(log)
      ensures AtMin(problem, minInput[..], f, origDistances) && f <= f0 && (solved <==> f == 0)
      ensures (solved <==> recorded != [])
      ensures att > old(att)
    {
      f := f0;
      while true
        invariant Sized() && Recorded(start) && log == old(log) && att >= old(att)
        invariant AtMin(problem, minInput[..], f, origDistances) && f <= f0 && (solved <==> f == 0)
        invariant (solved <==> recorded != [])
        decreases f
      {
        var delta: U64 := *;
        Update(scratch, d, grad[d].sign, delta);
        var fNew := ComputeDistance(scratch);
        att := att + 1;
        if fNew >= f && fNew != 0 {
          break;
        }
        Accept(fNew);
        f := fNew;
        if fNew == 0 {
          Finish(d, start);
          break;
        }
      }
    }

    /** The scratch input solves. */
    method Finish(d: nat, ghost start: seq<R.Solution>)
      requires Sized() && Recorded(start) && Distance(problem, scratch[..]) == 0
      modifies `solved, `solutions, `recorded, `nextState, `dimensionIdx
      ensures Sized() && Recorded(start) && solved && recorded != []
    {
      solved := true;
      AddResults(scratch, start);
      nextState := 4;
      dimensionIdx := d;
    }

    /** State 4: one dimension after the other. */
    method OneDimensionDescend(ghost start: seq<R.Solution>)
      requires Sized() && Recorded(start) && recorded == [] && !solved
      requires AtMin(problem, minInput[..], fLast, origDistances) && fLast > 0
      modifies this, minInput, scratch
      ensures Sized() && Recorded(start) && log == old(log)
      ensures solved <==> recorded != []
      ensures AtMin(problem, minInput[..], fLast, origDistances) && fLast <= old(fLast) && (!solved ==> fLast > 0)
      ensures att >= old(att) && (!solved ==> nextState == 1)
    {
      Copy(scratch, minInput);
      var f: U64 := fLast;
      var d := dimensionIdx;
      while d < |grad|
        invariant Sized() && Recorded(start) && log == old(log) && att >= old(att)
        invariant AtMin(problem, minInput[..], f, origDistances) && f <= old(fLast)
        invariant (solved <==> f == 0) && (solved <==> recorded != [])
        decreases |inputs| - d
      {
        var small: bool := *;
        if !small {
          f := DescendDimension(d, f, start);
        }
        d := d + 1;
      }
      fLast := f;
      if !solved {
        nextState := 1;
        dimensionIdx := 0;
      }
    }

    /** After a new start point: its distance, and the record if it already solves. */
    method Restart(ghost start: seq<R.Solution>)
      requires Sized() && Recorded(start) && recorded == [] && !solved
      modifies this
      ensures Sized() && Recorded(start) && log == old(log)
      ensures solved <==> recorded != []
      ensures AtMin(problem, minInput[..], fLast, origDistances) && (!solved ==> fLast > 0)
      ensures att == old(att) + 1 && nextState == 1
    {
      fLast := ComputeDistance(minInput);
      origDistances := distances;
      nextState := 1;
      att := att + 1;
      if fLast == 0 {
        solved := true;
        AddResults(minInput, start);
      }
    }

    /** State 5: a random start point; disabled values stay. */
    method RepickStartPoint(ghost start: seq<R.Solution>)
      requires Sized() && Recorded(start) && recorded == [] && !solved
      modifies this, minInput, disables
      ensures Sized() && Recorded(start) && log == old(log)
      ensures solved <==> recorded != []
      ensures AtMin(problem, minInput[..], fLast, origDistances) && (!solved ==> fLast > 0)
      ensures att == old(att) + 1 && nextState == 1
      ensures forall i :: 0 <= i < |inputs| ==>
        if old(disables[i]) then minInput[i] == old(minInput[i]) else minInput[i] < 256
      ensures forall i :: 0 <= i < |inputs| ==> !disables[i]
    {
      Randomize();
      ResetDisables();
      Restart(start);
    }

    method Randomize()
      requires minInput.Length == disables.Length
      modifies minInput
      ensures forall i :: 0 <= i < minInput.Length ==>
        if disables[i] then minInput[i] == old(minInput[i]) else minInput[i] < 256
    {
      for i := 0 to minInput.Length
        invariant forall k :: 0 <= k < i ==> if disables[k] then minInput[k] == old(minInput[k]) else minInput[k] < 256
        invariant forall k :: i <= k < minInput.Length ==> minInput[k] == old(minInput[k])
      {
        if !disables[i] {
          var byte: U64 := *;
          minInput[i] := byte % 256;
        }
      }
    }

    method ResetDisables()
      modifies disables
      ensures forall i :: 0 <= i < disables.Length ==> !disables[i]
    {
      for i := 0 to disables.Length
        invariant forall k :: 0 <= k < i ==> !disables[k]
      {
        disables[i] := false;
      }
    }

    /** State 0: the given input bytes. */
    method LoadInput(ghost start: seq<R.Solution>)
      requires Sized() && Recorded(start) && recorded == [] && !solved
      modifies this, minInput
      ensures Sized() && Recorded(start) && log == old(log) && minInput[..] == inputs
      ensures solved <==> recorded != []
      ensures AtMin(problem, minInput[..], fLast, origDistances) && (!solved ==> fLast > 0)
      ensures att == old(att) + 1 && nextState == 1
    {
      Assign();
      Restart(start);
    }

    method Assign()
      requires minInput.Length == |inputs|
      modifies minInput
      ensures minInput[..] == inputs
    {
      for i := 0 to minInput.Length
        invariant minInput[..i] == inputs[..i]
      {
        minInput[i] := inputs[i];
      }
      assert minInput[..] == minInput[..minInput.Length] && inputs == inputs[..|inputs|];
    }

    /** One turn of the state machine; leaves the last distance equal to that of the minimum unless solved. */
    method Turn(ghost start: seq<R.Solution>)
      requires Sized() && Recorded(start) && recorded == [] && !solved && nextState <= 5
      requires nextState != 0 ==> AtMin(problem, minInput[..], fLast, origDistances) && fLast > 0
      modifies this, minInput, scratch, disables
      ensures Sized() && Recorded(start) && log == old(log)
      ensures solved <==> recorded != []
      ensures !solved ==> AtMin(problem, minInput[..], fLast, origDistances) && fLast > 0 && 0 < nextState <= 5
      ensures old(nextState) != 0 && old(nextState) != 5 ==> fLast <= old(fLast)
      ensures !solved ==> att > old(att) || (att == old(att) && Rank(nextState) < Rank(old(nextState)))
    {
      match nextState
      case 0 => LoadInput(start);
      case 1 => CalGradient(start);
      case 2 => GuessDescend(start);
      case 3 => AllDimensionDescend(start);
      case 4 => OneDimensionDescend(start);
      case _ => RepickStartPoint(start);
    }

    /**
     The search from a fresh context.  It ends, and answers true exactly when it recorded a
     solution; whatever it recorded has distance 0, and the last distance never rises between
     two start points.
     */
    method GdSearch() returns (found: bool)
      requires Sized() && nextState == 0 && att == 0 && !solved && recorded == [] && log == []
      modifies this, minInput, scratch, disables
      ensures Sized() && (found <==> recorded != [])
      ensures AllSolve(problem, |inputs|, recorded)
      ensures solutions == Kept(old(solutions), recorded, record)
      ensures NeverRises(log)
    {
      ghost var start := solutions;
      while true
        invariant Sized() && Recorded(start) && recorded == [] && !solved && nextState <= 5 && att <= MAX_EXEC_TIMES
        invariant nextState != 0 ==> log != [] && log[|log| - 1].f == fLast
        invariant nextState != 0 ==> AtMin(problem, minInput[..], fLast, origDistances) && fLast > 0
        invariant NeverRises(log)
        decreases MAX_EXEC_TIMES - att, Rank(nextState)
      {
        ghost var ran := nextState;
        Turn(start);
        log := log + [Event(ran, fLast)];
        if solved {
          solved := false;
          att := 0;
          return true;
        }
        if att > MAX_EXEC_TIMES {
          att := 0;
          return false;
        }
      }
    }
  }
}
