/**
 The optimistic dequeue counters of one producer's sub-queue: any number of consumers run
 `dequeue` and `dequeue_bulk` against one enqueuing producer, each step being one atomic
 access.  `dequeue` is `dequeue_bulk` with a maximum of one element.  Counters are unbounded.

 Every attempt reserves indices of `dequeueOptimisticCount`.  `won`, `lost` and `done` are
 history variables recording what became of each reserved index: it will yield an element,
 it was returned through `dequeueOvercommit`, its element was claimed from `headIndex`.
 */
module DequeueCounters {

  datatype Pc =
    | Idle
    | HaveTail(max: nat, tl: nat)
    | HaveOver(max: nat, tl: nat, o: nat)
    | Reserve(n: nat, o: nat)
    | Recheck(n: nat, o: nat, m: nat)
    | GiveBack(m: nat, a: nat, rest: nat)
    | Take(m: nat, a: nat)
  {
    /** Indices `m` to `End()` of the optimistic count belong to this attempt. */
    predicate Reserved() { Recheck? || GiveBack? || Take? }

    function End(): nat
      requires Reserved()
    {
      if Recheck? then m + n else if GiveBack? then m + a + rest else m + a
    }
  }

  /** Elements `first` to `first + count` of the sub-queue, handed to a consumer. */
  datatype Claim = Claim(first: nat, count: nat)

  datatype State = State(
    tail: nat, head: nat, optimistic: nat, overcommit: nat,
    pc: seq<Pc>, claims: seq<Claim>,
    won: set<nat>, lost: set<nat>, done: set<nat>)

  datatype Choice = Enqueue(count: nat) | Call(c: nat, max: nat) | Advance(t: nat)

  function Min(a: int, b: int): int { if a < b then a else b }

  predicate From(lo: nat, i: nat) { lo <= i }

  /** The indices from `lo` up to, not including, `hi`. */
  function Span(lo: nat, hi: nat): set<nat> { set i: nat | 0 <= i < hi && From(lo, i) }

  predicate Enabled(s: State, c: Choice) {
    match c
    case Enqueue(_) => true
    case Call(t, _) => t < |s.pc| && s.pc[t].Idle?
    case Advance(t) => t < |s.pc| && !s.pc[t].Idle?
  }

  function Goto(s: State, t: nat, p: Pc): State
    requires t < |s.pc|
  {
    s.(pc := s.pc[t := p])
  }

  function Step(s: State, c: Choice): State
    requires Enabled(s, c)
  {
    match c
    case Enqueue(count) => s.(tail := s.tail + count)
    case Call(t, max) => Goto(s, t, HaveTail(max, s.tail))
    case Advance(t) => Consume(s, t)
  }

  function Consume(s: State, t: nat): State
    requires t < |s.pc| && !s.pc[t].Idle?
  {
    match s.pc[t]
    case HaveTail(max, tl) => Goto(s, t, HaveOver(max, tl, s.overcommit))
    case HaveOver(max, tl, o) =>
      var desired := tl - (s.optimistic - o);
      Goto(s, t, if 0 < desired then Reserve(Min(desired, max), o) else Idle)
    case Reserve(n, o) =>
      Goto(s.(optimistic := s.optimistic + n), t, Recheck(n, o, s.optimistic))
    case Recheck(n, o, m) =>
      var actual := s.tail - (m - o);
      if 0 < actual then
        var a := Min(n, actual);
        Goto(s.(won := s.won + Span(m, m + a)), t, if a < n then GiveBack(m, a, n - a) else Take(m, a))
      else Goto(s, t, GiveBack(m, 0, n))
    case GiveBack(m, a, rest) =>
      Goto(s.(overcommit := s.overcommit + rest, lost := s.lost + Span(m + a, m + a + rest)), t,
           if 0 < a then Take(m, a) else Idle)
    case Take(m, a) =>
      Goto(s.(head := s.head + a, claims := s.claims + [Claim(s.head, a)], done := s.done + Span(m, m + a)), t, Idle)
  }

  ghost predicate Init(s: State) {
    && s.tail == s.head == s.optimistic == s.overcommit == 0
    && s.won == s.lost == s.done == {}
    && s.claims == []
    && forall t :: 0 <= t < |s.pc| ==> s.pc[t].Idle?
  }

  // ---------------------------------------------------------------------------
  // The invariant
  // ---------------------------------------------------------------------------

  function Below(xs: set<nat>, c: nat): set<nat> { set i | i in xs && i < c }

  /** An index may win only if enough earlier attempts have been given back. */
  ghost predicate Backed(s: State, c: nat) {
    c + 1 - |Below(s.lost, c)| <= s.tail
  }

  ghost predicate ThreadOk(s: State, t: nat)
    requires t < |s.pc|
  {
    var p := s.pc[t];
    && (p.HaveOver? || p.Reserve? ==> p.o <= s.overcommit)
    && (p.Reserved() ==> p.End() <= s.optimistic)
    && (p.Recheck? ==> p.o <= |Below(s.lost, p.m)| && Span(p.m, p.End()) !! s.won && Span(p.m, p.End()) !! s.lost)
    && (p.GiveBack? || p.Take? ==> Span(p.m, p.m + p.a) <= s.won && Span(p.m, p.m + p.a) !! s.done)
    && (p.GiveBack? ==> Span(p.m + p.a, p.End()) !! s.won && Span(p.m + p.a, p.End()) !! s.lost)
  }

  ghost predicate PairOk(s: State, t: nat, u: nat)
    requires t < |s.pc| && u < |s.pc|
  {
    t != u && s.pc[t].Reserved() && s.pc[u].Reserved() ==>
      s.pc[t].End() <= s.pc[u].m || s.pc[u].End() <= s.pc[t].m
  }

  ghost predicate SetsOk(s: State) {
    && s.won !! s.lost
    && s.done <= s.won
    && s.won <= Span(0, s.optimistic)
    && s.lost <= Span(0, s.optimistic)
    && |s.lost| == s.overcommit
    && |s.done| == s.head
  }

  ghost predicate AllBacked(s: State) {
    forall c :: c in s.won ==> Backed(s, c)
  }

  ghost predicate Abuts(s: State, i: nat)
    requires i < |s.claims|
  {
    s.claims[i].first + s.claims[i].count == if i + 1 < |s.claims| then s.claims[i + 1].first else s.head
  }

  /** The claims made so far partition the indices below the head. */
  ghost predicate ClaimsOk(s: State) {
    && (s.claims == [] ==> s.head == 0)
    && (forall i :: 0 <= i < |s.claims| ==> Abuts(s, i))
    && (s.claims != [] ==> s.claims[0].first == 0)
  }

  ghost predicate Inv(s: State) {
    && SetsOk(s)
    && AllBacked(s)
    && ClaimsOk(s)
    && (forall t :: 0 <= t < |s.pc| ==> ThreadOk(s, t))
    && (forall t, u :: 0 <= t < |s.pc| && 0 <= u < |s.pc| ==> PairOk(s, t, u))
  }

  // ---------------------------------------------------------------------------
  // Counting
  // ---------------------------------------------------------------------------

  lemma {:induction false} CardLe(a: set<nat>, b: set<nat>)
    requires a <= b
    ensures |a| <= |b|
  {
    assert b == a + (b - a);
  }

  lemma {:induction false} SpanCard(lo: nat, hi: nat)
    requires lo <= hi
    ensures |Span(lo, hi)| == hi - lo
    decreases hi
  {
    if lo < hi {
      SpanCard(lo, hi - 1);
      assert Span(lo, hi) == Span(lo, hi - 1) + {hi - 1};
    } else {
      assert Span(lo, hi) == {};
    }
  }

  lemma {:induction false} Greatest(xs: set<nat>) returns (c: nat)
    requires xs != {}
    ensures c in xs && forall x :: x in xs ==> x <= c
    decreases |xs|
  {
    var x :| x in xs;
    var rest := xs - {x};
    if rest == {} {
      assert xs == {x};
      c := x;
    } else {
      c := Greatest(rest);
      assert xs == rest + {x};
      if c < x { c := x; }
    }
  }

  /** Attempts minus overcommit bounds the successes: the winners never outnumber the enqueued elements. */
  lemma {:induction false} WonBelowTail(s: State)
    requires SetsOk(s) && AllBacked(s)
    ensures |s.won| <= s.tail
  {
    if s.won != {} {
      var c := Greatest(s.won);
      var below := Below(s.lost, c);
      assert Backed(s, c);
      assert s.won + below <= Span(0, c + 1);
      CardLe(s.won + below, Span(0, c + 1));
      SpanCard(0, c + 1);
      assert s.won !! below;
    }
  }

  // ---------------------------------------------------------------------------
  // Steps keep it
  // ---------------------------------------------------------------------------

  lemma {:induction false} SpanWithin(lo: nat, hi: nat, lo': nat, hi': nat)
    requires lo' <= lo && hi <= hi'
    ensures Span(lo, hi) <= Span(lo', hi')
  {
  }

  lemma {:induction false} AddSpan(xs: set<nat>, lo: nat, hi: nat, top: nat)
    requires lo <= hi <= top && Span(lo, hi) !! xs && xs <= Span(0, top)
    ensures |xs + Span(lo, hi)| == |xs| + hi - lo
    ensures xs + Span(lo, hi) <= Span(0, top)
  {
    SpanCard(lo, hi);
    SpanWithin(lo, hi, 0, top);
  }

  lemma {:induction false} RecheckKeepsSets(s: State, t: nat)
    requires SetsOk(s) && t < |s.pc| && s.pc[t].Recheck? && ThreadOk(s, t)
    ensures SetsOk(Consume(s, t))
  {
    var s', p := Consume(s, t), s.pc[t];
    var a := s'.pc[t].a;
    SpanWithin(p.m, p.m + a, p.m, p.End());
    SpanWithin(p.m, p.m + a, 0, s.optimistic);
  }

  lemma {:induction false} GiveBackKeepsSets(s: State, t: nat)
    requires SetsOk(s) && t < |s.pc| && s.pc[t].GiveBack?
    requires s.pc[t].End() <= s.optimistic
    requires Span(s.pc[t].m + s.pc[t].a, s.pc[t].End()) !! s.won
    requires Span(s.pc[t].m + s.pc[t].a, s.pc[t].End()) !! s.lost
    ensures SetsOk(Consume(s, t))
  {
    var p, s' := s.pc[t], Consume(s, t);
    AddSpan(s.lost, p.m + p.a, p.End(), s.optimistic);
    assert s'.lost == s.lost + Span(p.m + p.a, p.End()) && s'.overcommit == s.overcommit + (p.End() - (p.m + p.a));
    assert s'.won == s.won && s'.done == s.done && s'.head == s.head && s'.optimistic == s.optimistic;
    assert s.won !! s'.lost;
  }

  lemma {:induction false} TakeKeepsSets(s: State, t: nat)
    requires SetsOk(s) && t < |s.pc| && s.pc[t].Take? && ThreadOk(s, t)
    ensures SetsOk(Consume(s, t))
  {
    var p := s.pc[t];
    AddSpan(s.done, p.m, p.m + p.a, s.optimistic);
  }

  lemma {:induction false} SetsKept(s: State, t: nat)
    requires SetsOk(s) && t < |s.pc| && !s.pc[t].Idle? && ThreadOk(s, t)
    ensures SetsOk(Consume(s, t))
  {
    var p := s.pc[t];
    if p.Recheck? {
      RecheckKeepsSets(s, t);
    } else if p.GiveBack? {
      GiveBackKeepsSets(s, t);
    } else if p.Take? {
      TakeKeepsSets(s, t);
    } else if p.Reserve? {
      SpanWithin(0, s.optimistic, 0, s.optimistic + p.n);
    }
  }

  lemma {:induction false} BackedKept(s: State, t: nat, c: nat)
    requires AllBacked(s) && t < |s.pc| && !s.pc[t].Idle? && ThreadOk(s, t)
    requires c in Consume(s, t).won
    ensures Backed(Consume(s, t), c)
  {
    var s' := Consume(s, t);
    if c in s.won {
      assert Backed(s, c);
      CardLe(Below(s.lost, c), Below(s'.lost, c));
    } else {
      CardLe(Below(s.lost, s.pc[t].m), Below(s.lost, c));
    }
  }

  lemma {:induction false} OwnThreadKept(s: State, t: nat)
    requires SetsOk(s) && t < |s.pc| && !s.pc[t].Idle? && ThreadOk(s, t)
    ensures ThreadOk(Consume(s, t), t)
  {
    var s', p := Consume(s, t), s.pc[t];
    if p.Reserve? {
      assert Below(s.lost, s.optimistic) == s.lost;
    } else if p.Recheck? && s'.pc[t].Reserved() {
      var a := s'.pc[t].a;
      SpanWithin(p.m, p.m + a, p.m, p.End());
      SpanWithin(p.m + a, p.End(), p.m, p.End());
    }
  }

  lemma {:induction false} OtherThreadKept(s: State, t: nat, u: nat)
    requires t < |s.pc| && !s.pc[t].Idle? && u < |s.pc| && u != t
    requires ThreadOk(s, t) && ThreadOk(s, u) && PairOk(s, t, u)
    ensures ThreadOk(Consume(s, t), u)
  {
    var s' := Consume(s, t);
    if s.pc[u].Recheck? {
      CardLe(Below(s.lost, s.pc[u].m), Below(s'.lost, s.pc[u].m));
    }
  }

  lemma {:induction false} PairKept(s: State, t: nat, u: nat, v: nat)
    requires t < |s.pc| && !s.pc[t].Idle? && u < |s.pc| && v < |s.pc|
    requires PairOk(s, u, v) && ThreadOk(s, u) && ThreadOk(s, v)
    ensures PairOk(Consume(s, t), u, v)
  {
  }

  lemma {:induction false} ClaimsKept(s: State, c: Choice)
    requires ClaimsOk(s) && Enabled(s, c)
    ensures ClaimsOk(Step(s, c))
  {
    var s' := Step(s, c);
    forall i | 0 <= i < |s'.claims| ensures Abuts(s', i) {
      if i < |s.claims| { assert Abuts(s, i); }
    }
  }

  lemma {:induction false} ConsumeKeepsInv(s: State, t: nat)
    requires Inv(s) && t < |s.pc| && !s.pc[t].Idle?
    ensures Inv(Consume(s, t))
  {
    var s' := Consume(s, t);
    assert ThreadOk(s, t);
    ClaimsKept(s, Advance(t));
    SetsKept(s, t);
    forall x | x in s'.won ensures Backed(s', x) { BackedKept(s, t, x); }
    forall u | 0 <= u < |s.pc| ensures ThreadOk(s', u) {
      if u == t {
        OwnThreadKept(s, u);
      } else {
        assert ThreadOk(s, u) && PairOk(s, t, u);
        OtherThreadKept(s, t, u);
      }
    }
    forall u, v | 0 <= u < |s.pc| && 0 <= v < |s.pc| ensures PairOk(s', u, v) {
      assert PairOk(s, u, v) && ThreadOk(s, u) && ThreadOk(s, v);
      PairKept(s, t, u, v);
    }
  }

  lemma {:induction false} StepKeepsInv(s: State, c: Choice)
    requires Inv(s) && Enabled(s, c)
    ensures Inv(Step(s, c))
  {
    var s' := Step(s, c);
    if c.Advance? {
      ConsumeKeepsInv(s, c.t);
    } else {
      ClaimsKept(s, c);
      forall x | x in s'.won ensures Backed(s', x) { assert Backed(s, x); }
      forall u | 0 <= u < |s.pc| ensures ThreadOk(s', u) { assert ThreadOk(s, u); }
      forall u, v | 0 <= u < |s.pc| && 0 <= v < |s.pc| ensures PairOk(s', u, v) { assert PairOk(s, u, v); }
    }
  }

  // ---------------------------------------------------------------------------
  // Whole runs
  // ---------------------------------------------------------------------------

  ghost predicate RunStep(s: State, c: Choice, s': State) {
    Enabled(s, c) && s' == Step(s, c)
  }

  ghost predicate IsRun(states: seq<State>, acts: seq<Choice>) {
    && |states| == |acts| + 1
    && Init(states[0])
    && forall i :: 0 <= i < |acts| ==> StepAt(states, acts, i)
  }

  ghost predicate StepAt(states: seq<State>, acts: seq<Choice>, i: nat) {
    i < |acts| && i + 1 < |states| && RunStep(states[i], acts[i], states[i + 1])
  }

  lemma {:induction false} RunInv(states: seq<State>, acts: seq<Choice>, i: nat)
    requires IsRun(states, acts) && i < |states|
    ensures Inv(states[i])
  {
    if i > 0 {
      RunInv(states, acts, i - 1);
      assert StepAt(states, acts, i - 1);
      StepKeepsInv(states[i - 1], acts[i - 1]);
    }
  }

  /** However many consumers race, the head never passes the tail. */
  lemma {:induction false} HeadNeverPassesTail(states: seq<State>, acts: seq<Choice>, i: nat)
    requires IsRun(states, acts) && i < |states|
    ensures states[i].head <= states[i].tail
    ensures states[i].overcommit <= states[i].optimistic
  {
    RunInv(states, acts, i);
    WonBelowTail(states[i]);
    CardLe(states[i].done, states[i].won);
    CardLe(states[i].lost, Span(0, states[i].optimistic));
    SpanCard(0, states[i].optimistic);
  }

  /**
   A consumer that passed the second check claims only indices that were enqueued already,
   starting at the current head, and no index is ever claimed twice.
   */
  lemma {:induction false} ClaimsAreEnqueued(states: seq<State>, acts: seq<Choice>, i: nat)
    requires IsRun(states, acts) && i < |states|
    ensures forall k :: 0 <= k < |states[i].claims| ==>
              states[i].claims[k].first + states[i].claims[k].count <= states[i].head
    ensures forall j, k :: 0 <= j < k < |states[i].claims| ==>
              states[i].claims[j].first + states[i].claims[j].count <= states[i].claims[k].first
    ensures forall t :: 0 <= t < |states[i].pc| && states[i].pc[t].Take? ==>
              states[i].head + states[i].pc[t].a <= states[i].tail
  {
    var s := states[i];
    RunInv(states, acts, i);
    forall j, k | 0 <= j < k < |s.claims|
      ensures s.claims[j].first + s.claims[j].count <= s.claims[k].first
    {
      ClaimsOrdered(s, j, k);
    }
    forall k | 0 <= k < |s.claims| ensures s.claims[k].first + s.claims[k].count <= s.head {
      ClaimsOrdered(s, k, |s.claims| - 1);
      assert Abuts(s, |s.claims| - 1);
    }
    forall t | 0 <= t < |s.pc| && s.pc[t].Take? ensures s.head + s.pc[t].a <= s.tail {
      var p := s.pc[t];
      assert ThreadOk(s, t);
      WonBelowTail(s);
      SpanCard(p.m, p.m + p.a);
      CardLe(s.done + Span(p.m, p.m + p.a), s.won);
    }
  }

  lemma {:induction false} ClaimsOrdered(s: State, j: nat, k: nat)
    requires ClaimsOk(s) && j <= k < |s.claims|
    ensures j < k ==> s.claims[j].first + s.claims[j].count <= s.claims[k].first
    ensures s.claims[j].first <= s.claims[k].first
    decreases k
  {
    if j < k {
      ClaimsOrdered(s, j, k - 1);
      assert Abuts(s, k - 1) && Abuts(s, j);
    }
  }

  // ---------------------------------------------------------------------------
  // No element is left behind
  // ---------------------------------------------------------------------------

  /** Thread `t` has yet to decide index `c`. */
  ghost predicate Undecided(s: State, t: nat, c: nat) {
    && t < |s.pc|
    && ((s.pc[t].Recheck? && s.pc[t].m <= c < s.pc[t].End())
        || (s.pc[t].GiveBack? && s.pc[t].m + s.pc[t].a <= c < s.pc[t].End()))
  }

  /** Thread `t` has won index `c` and has yet to claim an element for it. */
  ghost predicate Owed(s: State, t: nat, c: nat) {
    t < |s.pc| && (s.pc[t].GiveBack? || s.pc[t].Take?) && s.pc[t].m <= c < s.pc[t].m + s.pc[t].a
  }

  /** A reserved index is won, given back or still to be decided; a won one has its element or is owed it. */
  ghost predicate Accounted(s: State, c: nat) {
    && (c < s.optimistic ==> c in s.won || c in s.lost || exists t: nat :: Undecided(s, t, c))
    && (c in s.won ==> c in s.done || exists t: nat :: Owed(s, t, c))
  }

  lemma {:induction false} OthersKept(s: State, c: Choice, u: nat, x: nat)
    requires Enabled(s, c) && u < |s.pc| && (c.Advance? ==> c.t != u)
    ensures Undecided(s, u, x) ==> Undecided(Step(s, c), u, x)
    ensures Owed(s, u, x) ==> Owed(Step(s, c), u, x)
  {
  }

  /** What becomes of an index when its own thread steps. */
  lemma {:induction false} OwnDecides(s: State, t: nat, x: nat)
    requires t < |s.pc| && !s.pc[t].Idle?
    ensures var s' := Consume(s, t);
      && (Undecided(s, t, x) ==> x in s'.won || x in s'.lost || Undecided(s', t, x))
      && (s.optimistic <= x < s'.optimistic ==> Undecided(s', t, x))
      && (Owed(s, t, x) || (x in s'.won && x !in s.won) ==> x in s'.done || Owed(s', t, x))
      && s.won <= s'.won && s.lost <= s'.lost && s.done <= s'.done && s.optimistic <= s'.optimistic
  {
  }

  lemma {:induction false} AccountedKept(s: State, c: Choice, x: nat)
    requires Accounted(s, x) && Enabled(s, c)
    ensures Accounted(Step(s, c), x)
  {
    var s' := Step(s, c);
    if c.Advance? { OwnDecides(s, c.t, x); }
    if u: nat :| Undecided(s, u, x) {
      if !c.Advance? || c.t != u { OthersKept(s, c, u, x); }
    }
    if u: nat :| Owed(s, u, x) {
      if !c.Advance? || c.t != u { OthersKept(s, c, u, x); }
    }
  }

  lemma {:induction false} RunAccounts(states: seq<State>, acts: seq<Choice>, i: nat, x: nat)
    requires IsRun(states, acts) && i < |states|
    ensures Accounted(states[i], x)
  {
    if i > 0 {
      RunAccounts(states, acts, i - 1, x);
      assert StepAt(states, acts, i - 1);
      AccountedKept(states[i - 1], acts[i - 1], x);
    }
  }

  /** When no consumer is inside, the counters say exactly how many elements there are. */
  lemma {:induction false} QuietCounts(states: seq<State>, acts: seq<Choice>, i: nat)
    requires IsRun(states, acts) && i < |states|
    requires forall t :: 0 <= t < |states[i].pc| ==> states[i].pc[t].Idle?
    ensures states[i].optimistic - states[i].overcommit == states[i].head <= states[i].tail
  {
    var s := states[i];
    RunInv(states, acts, i);
    HeadNeverPassesTail(states, acts, i);
    forall x ensures x in s.won ==> x in s.done { if x in s.won { RunAccounts(states, acts, i, x); } }
    assert s.won == s.done;
    forall x | x in Span(0, s.optimistic) ensures x in s.won + s.lost { RunAccounts(states, acts, i, x); }
    assert s.won + s.lost == Span(0, s.optimistic);
    SpanCard(0, s.optimistic);
  }

  /** `n` steps of one consumer, or fewer if its call returns. */
  function Alone(s: State, t: nat, n: nat): State
    requires t < |s.pc|
    decreases n
  {
    if n == 0 || s.pc[t].Idle? then s else Alone(Consume(s, t), t, n - 1)
  }

  /** The elements a consumer expects from the counters. */
  function Expected(s: State): int { s.tail - (s.optimistic - s.overcommit) }

  lemma {:induction false} AloneNext(s: State, t: nat, n: nat)
    requires t < |s.pc| && !s.pc[t].Idle? && 0 < n
    ensures |Consume(s, t).pc| == |s.pc| && Alone(s, t, n) == Alone(Consume(s, t), t, n - 1)
  {
  }

  /**
   An undisturbed call claims, from the head on, as many elements as there are and it asked for,
   and fails only if there are none.
   */
  lemma {:induction false} CallAlone(s: State, t: nat, max: nat)
    requires t < |s.pc| && s.pc[t].Idle?
    ensures var s' := Alone(Step(s, Call(t, max)), t, 5);
      && |s'.pc| == |s.pc| && s'.pc[t].Idle? && s'.tail == s.tail && s'.overcommit == s.overcommit
      && s'.claims == (if 0 < Expected(s) then s.claims + [Claim(s.head, Min(Expected(s), max))] else s.claims)
      && s'.head == s.head + if 0 < Expected(s) then Min(Expected(s), max) else 0
  {
    var s1 := Step(s, Call(t, max));
    AloneNext(s1, t, 5);
    var s2 := Consume(s1, t);
    AloneNext(s2, t, 4);
    var s3 := Consume(s2, t);
    if 0 < Expected(s) {
      assert s3.pc[t] == Reserve(Min(Expected(s), max), s.overcommit);
      AloneNext(s3, t, 3);
      var s4 := Consume(s3, t);
      AloneNext(s4, t, 2);
      var s5 := Consume(s4, t);
      assert s5.pc[t] == Take(s.optimistic, Min(Expected(s), max));
      AloneNext(s5, t, 1);
    }
  }

  /** In every run, whenever no consumer is inside: a call that then runs alone gets the elements there are. */
  lemma {:induction false} QuietCall(states: seq<State>, acts: seq<Choice>, i: nat, t: nat, max: nat)
    requires IsRun(states, acts) && i < |states| && t < |states[i].pc|
    requires forall u :: 0 <= u < |states[i].pc| ==> states[i].pc[u].Idle?
    ensures var s := states[i];
      var s' := Alone(Step(s, Call(t, max)), t, 5);
      && |s'.pc| == |s.pc| && s'.pc[t].Idle?
      && s'.claims == if s.head < s.tail then s.claims + [Claim(s.head, Min(s.tail - s.head, max))] else s.claims
  {
    QuietCounts(states, acts, i);
    CallAlone(states[i], t, max);
  }

  // ---------------------------------------------------------------------------
  // Failing calls
  // ---------------------------------------------------------------------------

  ghost predicate OverAt(states: seq<State>, i: nat, o: nat) { i < |states| && states[i].overcommit == o }
  ghost predicate OptimisticAt(states: seq<State>, i: nat, m: nat) { i < |states| && states[i].optimistic == m }

  /** As a consumer read them, one after the other, the tail was not above the optimistic count less the overcommit. */
  ghost predicate NothingThere(states: seq<State>, i: nat, j: nat, a: nat, b: nat, c: nat) {
    && i <= a < j && i <= b < j && i <= c < j && j <= |states|
    && states[c].tail <= states[b].optimistic - states[a].overcommit
  }

  ghost predicate SawNothing(states: seq<State>, i: nat, j: nat) {
    exists a: nat, b: nat, c: nat :: NothingThere(states, i, j, a, b, c)
  }

  /** What a consumer that called at step `i` knows at state `j` is what it read in between. */
  ghost predicate Knows(states: seq<State>, t: nat, i: nat, j: nat)
    requires i < j < |states| && t < |states[j].pc|
  {
    match states[j].pc[t]
    case Idle => true
    case HaveTail(_, tl) => tl == states[i].tail
    case HaveOver(_, tl, o) => tl == states[i].tail && exists a :: i < a < j && OverAt(states, a, o)
    case Reserve(_, o) => exists a :: i < a < j && OverAt(states, a, o)
    case Recheck(_, o, m) =>
      (exists a :: i < a < j && OverAt(states, a, o)) && (exists b :: i < b < j && OptimisticAt(states, b, m))
    case GiveBack(_, won, _) => won == 0 ==> SawNothing(states, i, j)
    case Take(_, _) => true
  }

  ghost predicate Busy(states: seq<State>, t: nat, k: nat) {
    k < |states| && t < |states[k].pc| && !states[k].pc[t].Idle?
  }

  /** A call of `t` starts at step `i` and has not returned before state `j`. */
  ghost predicate InCall(states: seq<State>, acts: seq<Choice>, t: nat, i: nat, j: nat)
    requires i < |acts|
  {
    acts[i].Call? && acts[i].c == t && forall k :: i < k <= j ==> Busy(states, t, k)
  }

  lemma {:induction false} MoreTime(states: seq<State>, i: nat, j: nat, k: nat, a: nat, b: nat, c: nat)
    requires NothingThere(states, i, j, a, b, c) && j <= k <= |states|
    ensures NothingThere(states, i, k, a, b, c)
  {
  }

  lemma {:induction false} OwnLearns(states: seq<State>, t: nat, i: nat, j: nat)
    requires i < j && j + 1 < |states| && Busy(states, t, j) && Knows(states, t, i, j)
    requires states[j + 1] == Consume(states[j], t)
    ensures t < |states[j + 1].pc| && Knows(states, t, i, j + 1)
    ensures states[j + 1].pc[t].Idle? && states[j + 1].claims == states[j].claims ==>
      SawNothing(states, i, j + 1)
  {
    match states[j].pc[t]
    case HaveTail(_, _) => assert OverAt(states, j, states[j].overcommit);
    case HaveOver(_, tl, o) =>
      var a :| i < a < j && OverAt(states, a, o);
      if states[j + 1].pc[t].Idle? { assert NothingThere(states, i, j + 1, a, j, i); }
    case Reserve(_, o) =>
      var a :| i < a < j && OverAt(states, a, o);
      assert OptimisticAt(states, j, states[j].optimistic);
    case Recheck(_, o, m) =>
      var a :| i < a < j && OverAt(states, a, o);
      var b :| i < b < j && OptimisticAt(states, b, m);
      if states[j].tail <= m - o { assert NothingThere(states, i, j + 1, a, b, j); }
    case GiveBack(_, won, _) =>
      if won == 0 {
        var a: nat, b: nat, c: nat :| NothingThere(states, i, j, a, b, c);
        MoreTime(states, i, j, j + 1, a, b, c);
      }
    case Take(_, _) =>
  }

  lemma {:induction false} OthersLearn(states: seq<State>, t: nat, i: nat, j: nat)
    requires i < j && j + 1 < |states| && Busy(states, t, j) && Knows(states, t, i, j)
    requires t < |states[j + 1].pc| && states[j + 1].pc[t] == states[j].pc[t]
    ensures Knows(states, t, i, j + 1)
  {
    if states[j].pc[t].GiveBack? && states[j].pc[t].a == 0 {
      var a: nat, b: nat, c: nat :| NothingThere(states, i, j, a, b, c);
      MoreTime(states, i, j, j + 1, a, b, c);
    }
  }

  lemma {:induction false} KnowsAtCall(states: seq<State>, acts: seq<Choice>, t: nat, i: nat)
    requires IsRun(states, acts) && i < |acts| && InCall(states, acts, t, i, i + 1)
    ensures t < |states[i + 1].pc| && Knows(states, t, i, i + 1)
  {
    assert StepAt(states, acts, i) && Busy(states, t, i + 1);
  }

  lemma {:induction false} KnowsAll(states: seq<State>, acts: seq<Choice>, t: nat, i: nat, j: nat)
    requires IsRun(states, acts) && i < j < |states| && i < |acts| && InCall(states, acts, t, i, j)
    ensures Busy(states, t, j) && Knows(states, t, i, j)
    decreases j
  {
    assert Busy(states, t, j);
    if j == i + 1 {
      KnowsAtCall(states, acts, t, i);
    } else {
      KnowsAll(states, acts, t, i, j - 1);
      assert StepAt(states, acts, j - 1);
      if acts[j - 1] == Advance(t) {
        OwnLearns(states, t, i, j - 1);
      } else {
        OthersLearn(states, t, i, j - 1);
      }
    }
  }

  /**
   In every run: a call that returns without a claim read, between its start and its end, an
   overcommit, an optimistic count and a tail that left nothing for it.
   */
  lemma {:induction false} FailsOnlyOnEmpty(states: seq<State>, acts: seq<Choice>, t: nat, i: nat, j: nat)
    requires IsRun(states, acts) && i < j < |acts| && InCall(states, acts, t, i, j) && acts[j] == Advance(t)
    requires t < |states[j + 1].pc| && states[j + 1].pc[t].Idle? && states[j + 1].claims == states[j].claims
    ensures SawNothing(states, i, j + 1)
  {
    KnowsAll(states, acts, t, i, j);
    assert StepAt(states, acts, j);
    OwnLearns(states, t, i, j);
  }
}
