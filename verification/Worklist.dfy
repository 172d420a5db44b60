/**
 The second backend: instead of a union-find it keeps, for every offset, the offsets and the
 conditions that were met together with it, and closes over them with a worklist at query
 time.  It reaches the same offsets and collects the same conditions as the union-find.
 */
module Worklist {
  import opened Basics
  import opened Partition
  import opened Expr
  import opened LabelTable
  import L = Slicing

  /** `branch_dep_t`: what has been met together with an offset. */
  datatype Dep = Dep(inputs: set<nat>, exprs: set<Expr>)

  type Deps = map<nat, Dep>

  function At(deps: Deps, off: nat): Dep {
    if off in deps then deps[off] else Dep({}, {})
  }

  // ---------------------------------------------------------------------------
  // The invariant
  // ---------------------------------------------------------------------------

  /** What is recorded at `x` is equivalent to `x`. */
  ghost predicate EdgesAt(deps: Deps, history: seq<set<nat>>, x: nat) {
    forall y :: y in At(deps, x).inputs ==> Same(history, x, y)
  }

  /** The offsets of a branch are recorded together. */
  ghost predicate Clique(deps: Deps, s: set<nat>) {
    forall x :: x in s ==> s <= At(deps, x).inputs
  }

  /** Offsets recorded together are equivalent, and the offsets of every branch are recorded together. */
  ghost predicate EdgesOk(deps: Deps, history: seq<set<nat>>) {
    && (forall x: nat :: EdgesAt(deps, history, x))
    && (forall j :: 0 <= j < |history| ==> Clique(deps, history[j]))
  }

  /** The conditions recorded at `x` were stored and mention an offset equivalent to `x`. */
  ghost predicate ExprsAt(deps: Deps, history: seq<set<nat>>, stored: set<Expr>, x: nat) {
    forall c :: c in At(deps, x).exprs ==> c in stored && Touches(history, Free(c), x)
  }

  ghost predicate RecordedEverywhere(deps: Deps, c: Expr) {
    forall d :: d in Free(c) ==> c in At(deps, d).exprs
  }

  /** A condition is recorded at every offset it mentions, and only at offsets equivalent to one of those. */
  ghost predicate ExprsOk(deps: Deps, history: seq<set<nat>>, stored: set<Expr>) {
    && (forall x: nat :: ExprsAt(deps, history, stored, x))
    && (forall c :: c in stored ==> RecordedEverywhere(deps, c))
  }

  /** The stored conditions that mention some offset of `offs`. */
  ghost function Touched(stored: set<Expr>, offs: set<nat>): set<Expr> {
    set c | c in stored && Free(c) * offs != {}
  }

  /** Closed under the recorded edges. */
  ghost predicate Closed(deps: Deps, s: set<nat>) {
    forall x :: x in s ==> At(deps, x).inputs <= s
  }

  /** A closed set around `start` in which everything is equivalent to a start is the union of its classes. */
  lemma {:induction false} ClosureIsClass(deps: Deps, history: seq<set<nat>>, start: set<nat>, s: set<nat>)
    requires EdgesOk(deps, history) && start <= s && Closed(deps, s)
    requires forall x :: x in s ==> Touches(history, start, x)
    ensures forall x: nat :: x in s <==> Touches(history, start, x)
  {
    var lab: nat -> nat := (z: nat) => if z in s then 1 else 0;
    forall i, u, v | 0 <= i < |history| && u in history[i] && v in history[i] ensures lab(u) == lab(v) {
      assert Clique(deps, history[i]);
      assert v in At(deps, u).inputs && u in At(deps, v).inputs;
    }
    assert Respects(lab, history);
    forall x: nat | Touches(history, start, x) ensures x in s {
      var d :| d in start && Same(history, d, x);
      assert lab(d) == lab(x);
    }
  }

  /** Over a union of classes, the recorded conditions are the stored ones that mention it. */
  lemma {:induction false} CollectedIsTouched(deps: Deps, history: seq<set<nat>>, stored: set<Expr>,
      start: set<nat>, s: set<nat>, collected: set<Expr>)
    requires ExprsOk(deps, history, stored)
    requires forall x: nat :: x in s <==> Touches(history, start, x)
    requires forall c :: c in collected <==> RecordedIn(deps, s, c)
    ensures collected == Touched(stored, s)
  {
    forall c | c in collected ensures c in Touched(stored, s) {
      var x :| x in s && c in At(deps, x).exprs;
      assert ExprsAt(deps, history, stored, x);
      var d :| d in Free(c) && Same(history, d, x);
      var e :| e in start && Same(history, e, x);
      SameIsEquivalence(history, d, x, x);
      SameIsEquivalence(history, e, x, d);
      assert Touches(history, start, d);
      assert d in Free(c) * s;
    }
    forall c | c in Touched(stored, s) ensures c in collected {
      var d :| d in Free(c) * s;
      assert RecordedEverywhere(deps, c);
    }
  }

  ghost predicate RecordedIn(deps: Deps, s: set<nat>, c: Expr) {
    exists x :: x in s && c in At(deps, x).exprs
  }

  /** Recording a branch at all of `inputs`. */
  function Record(deps: Deps, inputs: set<nat>, path: Expr): Deps {
    map x | x in deps.Keys + inputs ::
      if x in inputs then Dep(At(deps, x).inputs + inputs, At(deps, x).exprs + {path}) else deps[x]
  }

  lemma {:induction false} RecordAt(deps: Deps, inputs: set<nat>, path: Expr, x: nat)
    ensures At(Record(deps, inputs, path), x)
         == if x in inputs then Dep(At(deps, x).inputs + inputs, At(deps, x).exprs + {path}) else At(deps, x)
  {
  }

  ghost predicate AllTouch(history: seq<set<nat>>, s: set<nat>, inputs: set<nat>) {
    forall x :: x in inputs ==> Touches(history, s, x)
  }

  lemma {:induction false} TouchesMore(history: seq<set<nat>>, extra: seq<set<nat>>, s: set<nat>, x: nat)
    requires Touches(history, s, x)
    ensures Touches(history + extra, s, x)
  {
    var e :| e in s && Same(history, e, x);
    MoreJoins(history, extra, e, x);
  }

  lemma {:induction false} RecordKeepsEdges(deps: Deps, history: seq<set<nat>>, inputs: set<nat>, path: Expr)
    requires EdgesOk(deps, history)
    requires Free(path) <= inputs && AllTouch(history, Free(path), inputs)
    ensures EdgesOk(Record(deps, inputs, path), history + [Free(path)])
  {
    var deps', history', d := Record(deps, inputs, path), history + [Free(path)], Free(path);
    forall x: nat ensures EdgesAt(deps', history', x) {
      RecordAt(deps, inputs, path, x);
      forall y | y in At(deps', x).inputs ensures Same(history', x, y) {
        assert EdgesAt(deps, history, x);
        JoinIs(history, d, x, y);
      }
    }
    forall j | 0 <= j < |history'| ensures Clique(deps', history'[j]) {
      forall x | x in history'[j] ensures history'[j] <= At(deps', x).inputs {
        RecordAt(deps, inputs, path, x);
        if j < |history| { assert Clique(deps, history[j]); }
      }
    }
  }

  lemma {:induction false} RecordKeepsExprs(deps: Deps, history: seq<set<nat>>, stored: set<Expr>, inputs: set<nat>,
      path: Expr)
    requires ExprsOk(deps, history, stored)
    requires Free(path) <= inputs && AllTouch(history, Free(path), inputs)
    ensures ExprsOk(Record(deps, inputs, path), history + [Free(path)], stored + {path})
  {
    var deps', history' := Record(deps, inputs, path), history + [Free(path)];
    forall x: nat ensures ExprsAt(deps', history', stored + {path}, x) {
      RecordAt(deps, inputs, path, x);
      assert ExprsAt(deps, history, stored, x);
      forall c | c in At(deps', x).exprs ensures c in stored + {path} && Touches(history', Free(c), x) {
        TouchesMore(history, [Free(path)], Free(c), x);
      }
    }
    forall c | c in stored + {path} ensures RecordedEverywhere(deps', c) {
      forall d | d in Free(c) ensures c in At(deps', d).exprs {
        RecordAt(deps, inputs, path, d);
        if c in stored { assert RecordedEverywhere(deps, c); }
      }
    }
  }

  // ---------------------------------------------------------------------------
  // The backend
  // ---------------------------------------------------------------------------

  /** All offsets recorded anywhere; bounds the closure. */
  ghost function Universe(deps: Deps, start: set<nat>): set<nat> {
    start + set x, y | x in deps.Keys && y in deps[x].inputs :: y
  }

  class Backend {
    var deps: Deps
    ghost var history: seq<set<nat>>
    ghost var stored: set<Expr>

    ghost predicate Valid()
      reads this
    {
      EdgesOk(deps, history) && ExprsOk(deps, history, stored)
    }

    constructor ()
      ensures Valid() && history == [] && stored == {}
    {
      deps := map[];
      history := [];
      stored := {};
    }

    /** Follows the recorded offsets from `start` until nothing new turns up. */
    method Closure(start: set<nat>) returns (reached: set<nat>)
      requires Valid()
      ensures forall x: nat :: x in reached <==> Touches(history, start, x)
    {
      reached := start;
      var worklist := ToSeq(start);
      forall x | x in start ensures Touches(history, start, x) { SameIsEquivalence(history, x, x, x); }
      while worklist != []
        invariant start <= reached <= Universe(deps, start)
        invariant Elements(worklist) <= reached
        invariant AllTouch(history, start, reached)
        invariant ClosedBut(deps, reached, Elements(worklist))
        decreases Universe(deps, start) - reached, |worklist|
      {
        var off, left := worklist[|worklist| - 1], worklist[..|worklist| - 1];
        assert worklist == left + [off];
        ElementsPush(left, off);
        ghost var known, open := reached, Elements(worklist);
        assert off in open;
        reached, worklist := Follow(off, reached, left);
        RoundKeeps(deps, history, start, known, reached, open, Elements(worklist), off);
      }
      ClosureIsClass(deps, history, start, reached);
    }

    /** Adds what was met together with `off`; the new offsets go on the worklist. */
    method Follow(off: nat, known: set<nat>, queue: seq<nat>) returns (reached: set<nat>, worklist: seq<nat>)
      ensures reached == known + At(deps, off).inputs
      ensures Elements(worklist) == Elements(queue) + (reached - known)
      ensures reached == known ==> worklist == queue
    {
      reached, worklist := known, queue;
      var rest := At(deps, off).inputs;
      while rest != {}
        invariant rest <= At(deps, off).inputs
        invariant reached == known + (At(deps, off).inputs - rest)
        invariant Elements(worklist) == Elements(queue) + (reached - known)
        invariant reached == known ==> worklist == queue
        decreases rest
      {
        var i :| i in rest;
        rest := rest - {i};
        if i !in reached {
          ElementsPush(worklist, i);
          reached := reached + {i};
          worklist := worklist + [i];
        }
      }
    }

    /** The conditions recorded at the given offsets, once each. */
    method CollectExprs(offs: set<nat>) returns (added: set<Expr>)
      ensures forall c :: c in added <==> RecordedIn(deps, offs, c)
    {
      added := {};
      var rest := offs;
      while rest != {}
        invariant rest <= offs
        invariant forall c :: c in added <==> RecordedIn(deps, offs - rest, c)
        decreases rest
      {
        var off :| off in rest;
        RecordedGrows(deps, offs - rest, off);
        assert offs - (rest - {off}) == (offs - rest) + {off};
        added := added + At(deps, off).exprs;
        rest := rest - {off};
      }
      assert offs - rest == offs;
    }

    /** One branch: close and collect if it is attempted, then record it. */
    method Process(path: Expr, attempt: bool) returns (inputs: set<nat>, collected: set<Expr>)
      requires Valid()
      modifies this
      ensures Valid() && history == old(history) + [Free(path)] && stored == old(stored) + {path}
      ensures attempt ==> forall x: nat :: x in inputs <==> Touches(old(history), Free(path), x)
      ensures attempt ==> collected == Touched(old(stored), inputs)
    {
      inputs, collected := Free(path), {};
      forall x | x in inputs ensures Touches(history, Free(path), x) { SameIsEquivalence(history, x, x, x); }
      if attempt {
        inputs := Closure(inputs);
        collected := CollectExprs(inputs);
        CollectedIsTouched(deps, history, stored, Free(path), inputs, collected);
      }
      assert AllTouch(history, Free(path), inputs);
      RecordKeepsEdges(deps, history, inputs, path);
      RecordKeepsExprs(deps, history, stored, inputs, path);
      deps := Record(deps, inputs, path);
      history := history + [Free(path)];
      stored := stored + {path};
    }
  }

  /** Closed, except around the offsets still on the worklist. */
  ghost predicate ClosedBut(deps: Deps, s: set<nat>, open: set<nat>) {
    forall x :: x in s && x !in open ==> At(deps, x).inputs <= s
  }

  /** What following one offset keeps. */
  lemma {:induction false} RoundKeeps(deps: Deps, history: seq<set<nat>>, start: set<nat>, known: set<nat>,
      reached: set<nat>, open: set<nat>, left: set<nat>, off: nat)
    requires EdgesOk(deps, history) && AllTouch(history, start, known) && off in known
    requires known <= Universe(deps, start) && ClosedBut(deps, known, open)
    requires reached == known + At(deps, off).inputs
    requires open <= left + {off} && reached - known <= left
    ensures AllTouch(history, start, reached) && reached <= Universe(deps, start) && ClosedBut(deps, reached, left)
    ensures reached != known ==> Universe(deps, start) - reached < Universe(deps, start) - known
  {
    var d :| d in start && Same(history, d, off);
    assert EdgesAt(deps, history, off);
    forall x | x in At(deps, off).inputs ensures Touches(history, start, x) {
      SameIsEquivalence(history, d, off, x);
    }
    forall x | x in reached && x !in left ensures At(deps, x).inputs <= reached {
      assert x in known;
    }
    if reached != known {
      assert !(At(deps, off).inputs <= known);
      var x :| x in At(deps, off).inputs && x !in known;
      assert x in Universe(deps, start) - known && x !in Universe(deps, start) - reached;
    }
  }

  lemma {:induction false} RecordedGrows(deps: Deps, s: set<nat>, off: nat)
    ensures forall c :: RecordedIn(deps, s + {off}, c) <==> RecordedIn(deps, s, c) || c in At(deps, off).exprs
  {
    forall c ensures RecordedIn(deps, s + {off}, c) <==> RecordedIn(deps, s, c) || c in At(deps, off).exprs {
      if RecordedIn(deps, s, c) {
        var x :| x in s && c in At(deps, x).exprs;
        assert x in s + {off};
      }
      if c in At(deps, off).exprs { assert off in s + {off}; }
    }
  }

  method ToSeq(s: set<nat>) returns (r: seq<nat>)
    ensures Elements(r) == s
  {
    r := [];
    var rest := s;
    while rest != {}
      invariant rest <= s && Elements(r) == s - rest
      decreases rest
    {
      var x :| x in rest;
      rest := rest - {x};
      ElementsPush(r, x);
      r := r + [x];
    }
  }

  // ---------------------------------------------------------------------------
  // Both backends on the same branches
  // ---------------------------------------------------------------------------

  datatype Branch = Branch(path: Expr, attempt: bool)

  datatype Slice = Slice(offs: set<nat>, conds: set<Expr>)

  ghost function Joins(branches: seq<Branch>): seq<set<nat>> {
    if branches == [] then [] else Joins(branches[..|branches| - 1]) + [Free(branches[|branches| - 1].path)]
  }

  ghost function Paths(branches: seq<Branch>): set<Expr> {
    set b | b in branches :: b.path
  }

  /** The classes the branch touches, and the earlier conditions that mention them. */
  ghost predicate IsSlice(before: seq<Branch>, b: Branch, s: Slice) {
    && (forall x: nat :: x in s.offs <==> Touches(Joins(before), Free(b.path), x))
    && s.conds == Touched(Paths(before), s.offs)
  }

  /** In the union-find, the class after the join holds what the join touches, and its slice is what mentions it. */
  lemma {:induction false} UnionFindSlice(history: seq<set<nat>>, stored: set<Expr>, size: nat, deps: set<nat>,
      v0: nat, offs: set<nat>, conds: set<Expr>)
    requires v0 in deps && (forall c :: c in stored ==> Free(c) != {})
    requires forall x: nat :: x in offs <==> x < size && Same(history + [deps], v0, x)
    requires forall x: nat :: Touches(history, deps, x) ==> x < size
    requires L.Separated(stored, conds, offs)
    ensures forall x: nat :: x in offs <==> Touches(history, deps, x)
    ensures conds == Touched(stored, offs)
  {
    forall x: nat ensures x in offs <==> Touches(history, deps, x) {
      JoinIs(history, deps, v0, x);
      SameIsEquivalence(history, v0, v0, v0);
    }
    forall c | c in conds ensures c in Touched(stored, offs) {
      var d :| d in Free(c);
      assert d in Free(c) * offs;
    }
  }

  /** Equivalence does not leave the range of the joined offsets. */
  lemma {:induction false} TouchesWithin(history: seq<set<nat>>, size: nat, deps: set<nat>, x: nat)
    requires forall i, d :: 0 <= i < |history| && d in history[i] ==> d < size
    requires (forall d :: d in deps ==> d < size) && Touches(history, deps, x)
    ensures x < size
  {
    var d :| d in deps && Same(history, d, x);
    var lab: nat -> nat := (z: nat) => if z < size then 1 else 0;
    assert Respects(lab, history);
    assert lab(d) == lab(x);
  }

  ghost predicate Fits(branches: seq<Branch>, size: nat) {
    forall b :: b in branches ==> Free(b.path) != {} && forall d :: d in Free(b.path) ==> d < size
  }

  lemma {:induction false} JoinsWithin(branches: seq<Branch>, size: nat)
    requires Fits(branches, size)
    ensures forall i, d :: 0 <= i < |Joins(branches)| && d in Joins(branches)[i] ==> d < size
  {
    if branches != [] {
      JoinsWithin(branches[..|branches| - 1], size);
    }
  }

  /** One slice for every branch, exact for those attempted. */
  ghost predicate AreSlices(branches: seq<Branch>, slices: seq<Slice>) {
    && |slices| <= |branches|
    && (forall i :: 0 <= i < |slices| && branches[i].attempt ==> IsSlice(branches[..i], branches[i], slices[i]))
  }

  lemma {:induction false} MoreSlices(branches: seq<Branch>, slices: seq<Slice>, s: Slice)
    requires AreSlices(branches, slices) && |slices| < |branches|
    requires branches[|slices|].attempt ==> IsSlice(branches[..|slices|], branches[|slices|], s)
    ensures AreSlices(branches, slices + [s])
  {
  }

  lemma {:induction false} NextBranch(branches: seq<Branch>, i: nat, size: nat)
    requires i < |branches| && Fits(branches, size)
    ensures Fits(branches[..i] + [branches[i]], size)
    ensures Joins(branches[..i + 1]) == Joins(branches[..i]) + [Free(branches[i].path)]
    ensures Paths(branches[..i + 1]) == Paths(branches[..i]) + {branches[i].path}
  {
    assert branches[..i + 1] == branches[..i] + [branches[i]];
  }

  /** Both backends handle the same branches: they reach the same offsets and collect the same conditions. */
  method BothBackends(table: Table, size: nat, oracle: L.Oracle, branches: seq<Branch>)
      returns (first: seq<Slice>, second: seq<Slice>)
    requires 0 < size < 0x1_0000_0000_0000_0000 && L.Sound(oracle) && Fits(branches, size)
    ensures first == second && |first| == |branches|
    ensures AreSlices(branches, first)
  {
    var solver := new L.Solver(table, size, oracle);
    var backend := new Backend();
    first, second := [], [];
    for i := 0 to |branches|
      invariant solver.Valid() && fresh(solver) && fresh(solver.slots) && fresh(solver.uf)
      invariant fresh(solver.uf.elements) && fresh(solver.uf.links) && fresh(solver.uf.ranks)
      invariant backend.Valid() && fresh(backend) && solver.slots.Length == size
      invariant solver.history == backend.history == Joins(branches[..i])
      invariant solver.stored == backend.stored == Paths(branches[..i])
      invariant first == second && |first| == i
      invariant AreSlices(branches, first)
    {
      NextBranch(branches, i, size);
      var s1, s2 := BothStep(solver, backend, branches[i], branches[..i]);
      MoreSlices(branches, first, s1);
      first, second := first + [s1], second + [s2];
    }
  }

  method BothStep(solver: L.Solver, backend: Backend, b: Branch, ghost before: seq<Branch>)
      returns (s1: Slice, s2: Slice)
    requires solver.Valid() && backend.Valid() && Fits(before + [b], solver.slots.Length)
    requires solver.history == backend.history == Joins(before) && solver.stored == backend.stored == Paths(before)
    modifies backend, solver, solver.slots, solver.uf, solver.uf.elements, solver.uf.links, solver.uf.ranks
    ensures solver.Valid() && backend.Valid()
    ensures solver.history == backend.history == Joins(before) + [Free(b.path)]
    ensures solver.stored == backend.stored == Paths(before) + {b.path}
    ensures s1 == s2 && (b.attempt ==> IsSlice(before, b, s1))
  {
    var inputs, conds := backend.Process(b.path, b.attempt);
    s2 := if b.attempt then Slice(inputs, conds) else Slice({}, {});
    assert b.attempt ==> IsSlice(before, b, s2);
    s1 := UnionFindStep(solver, b, before);
    assert b.attempt ==> s1.offs == s2.offs;
  }

  /** One branch in the union-find backend. */
  method UnionFindStep(solver: L.Solver, b: Branch, ghost before: seq<Branch>) returns (s: Slice)
    requires solver.Valid() && solver.history == Joins(before) && solver.stored == Paths(before)
    requires Fits(before + [b], solver.slots.Length)
    modifies solver, solver.slots, solver.uf, solver.uf.elements, solver.uf.links, solver.uf.ranks
    ensures solver.Valid() && solver.history == Joins(before) + [Free(b.path)]
    ensures solver.stored == Paths(before) + {b.path}
    ensures if b.attempt then IsSlice(before, b, s) else s == Slice({}, {})
  {
    s := Slice({}, {});
    var deps := Free(b.path);
    assert b in before + [b];
    var v0 := solver.JoinOffsets(deps);
    if b.attempt {
      var all, offs;
      ghost var members;
      all, offs, members := solver.AddDependencies(v0, []);
      s := Slice(offs, Elements(all));
      assert all == L.SliceOf(solver.slots[..], members);
      forall x: nat | Touches(Joins(before), deps, x) ensures x < solver.slots.Length {
        JoinsWithin(before, solver.slots.Length);
        TouchesWithin(Joins(before), solver.slots.Length, deps, x);
      }
      UnionFindSlice(Joins(before), Paths(before), solver.slots.Length, deps, v0, offs, s.conds);
    }
    forall d | d in deps ensures Same(solver.history, v0, d) {
      JoinedAreSame(solver.history, |solver.history| - 1, v0, d);
    }
    solver.Preserve(b.path, v0);
  }
}
