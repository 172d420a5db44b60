/**
 The reference-counted lock-free free list of the concurrent queue, as a machine whose
 steps are the individual atomic accesses of `add`, `try_get` and
 `add_knowing_refcount_is_zero`, interleaved arbitrarily between any number of threads.

 `head`, `next`, `refs` and `pc` are the program's own state; `owned` is what the callers
 hold.  `list` and `place` are history variables: no step reads them.
 */
module FreeList {
  import opened Basics
  import Chain

  /** `freeListRefs`: the should-be-on-freelist bit and the reference count below it. */
  datatype Refs = Refs(should: bool, count: int) {
    /** Adding the bit to a word that already carries it overflows and clears it. */
    function FlipBit(): Refs { Refs(!should, count) }
    function Plus(n: int): Refs { Refs(should, count + n) }
  }

  /** Where `add_knowing_refcount_is_zero` resumes: out of `add`, or in the loop of `try_get`. */
  datatype Return = FromAdd | FromGet(head: Option<nat>)

  predicate Below(p: Option<nat>, count: nat) {
    p.Some? ==> p.value < count
  }

  datatype Pc =
    | Idle
    // try_get
    | LoadHead
    | LoadRefs(h: nat)
    | CasRefs(h: nat, seen: Refs)
    | LoadNext(h: nat)
    | CasHead(h: nat, nxt: Option<nat>)
    | Release2(h: nat)
    | Release1(h: nat, newHead: Option<nat>)
    // add_knowing_refcount_is_zero
    | PutLoadHead(n: nat, k: Return)
    | PutSetNext(n: nat, top: Option<nat>, k: Return)
    | PutSetRefs(n: nat, top: Option<nat>, k: Return)
    | PutCas(n: nat, top: Option<nat>, k: Return)
    | PutUnref(n: nat, top: Option<nat>, k: Return)
  {
    /** The thread has raised the reference count of `m` and not lowered it again. */
    predicate Holds(m: nat) {
      (LoadNext? || CasHead? || Release2? || Release1?) && h == m
    }

    /** `try_get` up to reading `next`, and from the swing of the head on. */
    predicate InSeek() { LoadHead? || LoadRefs? || CasRefs? || LoadNext? }

    predicate InTake() { CasHead? || Release2? || Release1? }

    predicate InPut() {
      PutLoadHead? || PutSetNext? || PutSetRefs? || PutCas? || PutUnref?
    }

    /** The thread is inside `add_knowing_refcount_is_zero(m)`. */
    predicate Puts(m: nat) {
      InPut() && n == m
    }

    /** ... and has stored the list's own reference already. */
    predicate Published() { PutCas? || PutUnref? }

    predicate Within(count: nat) {
      && ((InSeek() && !LoadHead?) || InTake() ==> h < count)
      && (InPut() ==> n < count && (k.FromGet? ==> Below(k.head, count)))
      && (InPut() && !PutLoadHead? ==> Below(top, count))
      && (CasHead? ==> Below(nxt, count))
      && (Release1? ==> Below(newHead, count))
    }
  }

  datatype Place = OnList | Waiting | Adding(t: nat) | Taken(t: nat) | Owned(t: nat)

  datatype State = State(
    head: Option<nat>,
    next: seq<Option<nat>>,
    refs: seq<Refs>,
    pc: seq<Pc>,
    owned: seq<set<nat>>,
    list: seq<nat>,
    place: seq<Place>,
    holders: seq<set<nat>>)

  /** The only free choices are those of the callers; everything else follows from the program. */
  datatype Choice = Advance | CallGet | CallAdd(node: nat) | HandOver(item: nat, to: nat)

  // ---------------------------------------------------------------------------
  // The program
  // ---------------------------------------------------------------------------

  /** The head of the loop of `try_get`: return a null pointer, or look at the node. */
  function Loop(head: Option<nat>): Pc {
    if head.None? then Idle else LoadRefs(head.value)
  }

  function Resume(k: Return): Pc {
    match k
    case FromAdd => Idle
    case FromGet(head) => Loop(head)
  }

  predicate Sized(s: State) {
    && |s.refs| == |s.next| == |s.place| == |s.holders|
    && |s.owned| == |s.pc|
    && Below(s.head, |s.refs|)
    && (forall i :: 0 <= i < |s.next| ==> Below(s.next[i], |s.refs|))
    && (forall t :: 0 <= t < |s.pc| ==> s.pc[t].Within(|s.refs|))
    && (forall i :: 0 <= i < |s.list| ==> s.list[i] < |s.refs|)
    && (forall t, m :: 0 <= t < |s.owned| && m in s.owned[t] ==> m < |s.refs|)
    && (forall m, t :: 0 <= m < |s.holders| && t in s.holders[m] ==> t < |s.pc|)
  }

  predicate Enabled(s: State, t: nat, c: Choice)
    requires Sized(s)
  {
    t < |s.pc| &&
    match c
    case Advance => !s.pc[t].Idle?
    case CallGet => s.pc[t].Idle?
    case CallAdd(node) => s.pc[t].Idle? && node in s.owned[t]
    case HandOver(item, to) => item in s.owned[t] && to < |s.pc|
  }

  function Goto(s: State, t: nat, p: Pc): State
    requires t < |s.pc|
  {
    s.(pc := s.pc[t := p])
  }

  function StepCall(s: State, t: nat, c: Choice): (s': State)
    requires Sized(s) && Enabled(s, t, c) && !c.Advance?
  {
    match c
    case CallGet => Goto(s, t, LoadHead)
    case CallAdd(m) =>
      var s1 := s.(refs := s.refs[m := s.refs[m].FlipBit()], owned := s.owned[t := s.owned[t] - {m}]);
      if s.refs[m] == Refs(false, 0)
      then Goto(s1, t, PutLoadHead(m, FromAdd)).(place := s.place[m := Adding(t)])
      else s1.(place := s.place[m := Waiting])
    case HandOver(m, to) =>
      var without := s.owned[t := s.owned[t] - {m}];
      s.(owned := without[to := without[to] + {m}], place := s.place[m := Owned(to)])
  }

  function StepSeek(s: State, t: nat): (s': State)
    requires Sized(s) && t < |s.pc| && s.pc[t].InSeek()
  {
    match s.pc[t]
    case LoadHead => Goto(s, t, Loop(s.head))
    case LoadRefs(h) =>
      Goto(s, t, if s.refs[h].count == 0 then LoadHead else CasRefs(h, s.refs[h]))
    case CasRefs(h, seen) =>
      if s.refs[h] == seen
      then Goto(s.(refs := s.refs[h := seen.Plus(1)], holders := s.holders[h := s.holders[h] + {t}]), t, LoadNext(h))
      else Goto(s, t, LoadHead)
    case LoadNext(h) => Goto(s, t, CasHead(h, s.next[h]))
  }

  function StepTake(s: State, t: nat): (s': State)
    requires Sized(s) && t < |s.pc| && s.pc[t].InTake()
  {
    match s.pc[t]
    case CasHead(h, nxt) =>
      if s.head == Some(h)
      then Goto(s.(head := nxt, list := if s.list == [] then [] else s.list[1..],
                   place := s.place[h := Taken(t)]), t, Release2(h))
      else Goto(s, t, Release1(h, s.head))
    case Release2(h) =>
      Goto(s.(refs := s.refs[h := s.refs[h].Plus(-2)], owned := s.owned[t := s.owned[t] + {h}],
              place := s.place[h := Owned(t)], holders := s.holders[h := s.holders[h] - {t}]), t, Idle)
    case Release1(h, newHead) =>
      var s1 := s.(refs := s.refs[h := s.refs[h].Plus(-1)], holders := s.holders[h := s.holders[h] - {t}]);
      if s.refs[h] == Refs(true, 1)
      then Goto(s1.(place := s.place[h := Adding(t)]), t, PutLoadHead(h, FromGet(newHead)))
      else Goto(s1, t, Loop(newHead))
  }

  function StepPut(s: State, t: nat): (s': State)
    requires Sized(s) && t < |s.pc| && s.pc[t].InPut()
  {
    match s.pc[t]
    case PutLoadHead(n, k) => Goto(s, t, PutSetNext(n, s.head, k))
    case PutSetNext(n, top, k) => Goto(s.(next := s.next[n := top]), t, PutSetRefs(n, top, k))
    case PutSetRefs(n, top, k) => Goto(s.(refs := s.refs[n := Refs(false, 1)]), t, PutCas(n, top, k))
    case PutCas(n, top, k) =>
      if s.head == top
      then Goto(s.(head := Some(n), list := [n] + s.list, place := s.place[n := OnList]), t, Resume(k))
      else Goto(s, t, PutUnref(n, s.head, k))
    case PutUnref(n, top, k) =>
      var s1 := s.(refs := s.refs[n := s.refs[n].FlipBit().Plus(-1)]);
      if s.refs[n] == Refs(false, 1)
      then Goto(s1, t, PutSetNext(n, top, k))
      else Goto(s1.(place := s.place[n := Waiting]), t, Resume(k))
  }

  function Step(s: State, t: nat, c: Choice): (s': State)
    requires Sized(s) && Enabled(s, t, c)
  {
    if !c.Advance? then StepCall(s, t, c)
    else if s.pc[t].InPut() then StepPut(s, t)
    else if s.pc[t].InSeek() then StepSeek(s, t)
    else StepTake(s, t)
  }

  /** An empty list; every node is fresh and in the hands of one caller. */
  ghost predicate Init(s: State) {
    && Sized(s)
    && s.head.None? && s.list == []
    && (forall m :: 0 <= m < |s.refs| ==> s.holders[m] == {})
    && (forall m :: 0 <= m < |s.refs| ==> s.refs[m] == Refs(false, 0))
    && (forall t :: 0 <= t < |s.pc| ==> s.pc[t].Idle?)
    && (forall m :: 0 <= m < |s.refs| ==> s.place[m].Owned? && s.place[m].t < |s.pc|)
    && (forall t, m :: 0 <= t < |s.pc| && 0 <= m < |s.refs| ==> (m in s.owned[t] <==> s.place[m] == Owned(t)))
  }

  // ---------------------------------------------------------------------------
  // The invariant
  // ---------------------------------------------------------------------------

  /** The reference count that belongs to the list and not to a thread. */
  function ListRef(s: State, m: nat): int
    requires m < |s.place|
  {
    match s.place[m]
    case OnList => 1
    case Taken(_) => 1
    case Adding(t) => if t < |s.pc| && s.pc[t].Published() then 1 else 0
    case Waiting => 0
    case Owned(_) => 0
  }

  ghost predicate ListOk(s: State) {
    Chain.IsChain(s.head, s.next, s.list)
  }

  ghost predicate CountOk(s: State, m: nat)
    requires Sized(s) && m < |s.refs|
  {
    s.refs[m].count == |s.holders[m]| + ListRef(s, m)
  }

  ghost predicate NodeOk(s: State, m: nat)
    requires Sized(s) && m < |s.refs|
  {
    && (s.place[m].OnList? <==> m in s.list)
    && (s.place[m].Waiting? ==> s.refs[m].should && s.holders[m] != {})
    && (s.place[m].Adding? ==> s.place[m].t < |s.pc| && s.pc[s.place[m].t].Puts(m))
    && (s.place[m].Adding? && !s.pc[s.place[m].t].Published() ==> s.refs[m].should && s.holders[m] == {})
    && (s.place[m].Adding? && s.pc[s.place[m].t].Published() ==> !s.refs[m].should)
    && (s.place[m].Taken? ==> s.place[m].t < |s.pc| && s.pc[s.place[m].t] == Release2(m))
    && (s.place[m].Owned? ==> s.place[m].t < |s.pc|)
    && (s.place[m].OnList? || s.place[m].Taken? || s.place[m].Owned? ==> !s.refs[m].should)
  }

  ghost predicate PairOk(s: State, t: nat, m: nat)
    requires Sized(s) && t < |s.pc| && m < |s.refs|
  {
    && (t in s.holders[m] <==> s.pc[t].Holds(m))
    && (s.pc[t].Puts(m) ==> s.place[m] == Adding(t))
    && (s.pc[t] == Release2(m) ==> s.place[m] == Taken(t))
    && (m in s.owned[t] <==> s.place[m] == Owned(t))
    && (s.pc[t].CasHead? && s.pc[t].h == m ==> s.next[m] == s.pc[t].nxt)
    && (s.pc[t].CasRefs? && s.pc[t].h == m ==> s.pc[t].seen.count != 0)
    && ((s.pc[t].PutSetRefs? || s.pc[t].PutCas?) && s.pc[t].n == m ==> s.next[m] == s.pc[t].top)
  }

  ghost predicate Inv(s: State) {
    && Sized(s)
    && ListOk(s)
    && (forall m :: 0 <= m < |s.refs| ==> NodeOk(s, m) && CountOk(s, m))
    && (forall t, m :: 0 <= t < |s.pc| && 0 <= m < |s.refs| ==> PairOk(s, t, m))
  }

  lemma {:induction false} InitInv(s: State)
    requires Init(s)
    ensures Inv(s)
  {
  }

  lemma {:induction false} CallSized(s: State, t: nat, c: Choice)
    requires Sized(s) && Enabled(s, t, c) && !c.Advance?
    ensures Sized(StepCall(s, t, c))
  {
  }

  lemma {:induction false} CallList(s: State, t: nat, c: Choice)
    requires Inv(s) && Enabled(s, t, c) && !c.Advance? && Sized(StepCall(s, t, c))
    ensures ListOk(StepCall(s, t, c))
  {
  }

  lemma {:induction false} CallCount(s: State, t: nat, c: Choice, m: nat)
    requires Sized(s) && Enabled(s, t, c) && !c.Advance? && Sized(StepCall(s, t, c)) && m < |s.refs|
    requires CountOk(s, m) && NodeOk(s, m) && PairOk(s, t, m)
    ensures CountOk(StepCall(s, t, c), m)
  {
  }

  lemma {:induction false} CallNode(s: State, t: nat, c: Choice, m: nat)
    requires Sized(s) && ListOk(s) && Enabled(s, t, c) && !c.Advance? && Sized(StepCall(s, t, c)) && m < |s.refs|
    requires CountOk(s, m) && NodeOk(s, m) && PairOk(s, t, m)
    ensures NodeOk(StepCall(s, t, c), m)
  {
  }

  lemma {:induction false} CallPair(s: State, t: nat, c: Choice, u: nat, m: nat)
    requires Inv(s) && Enabled(s, t, c) && !c.Advance? && Sized(StepCall(s, t, c)) && u < |s.pc| && m < |s.refs|
    ensures PairOk(StepCall(s, t, c), u, m)
  {
    assert PairOk(s, u, m) && PairOk(s, t, m) && NodeOk(s, m);
  }

  lemma {:induction false} SeekSized(s: State, t: nat)
    requires Sized(s) && t < |s.pc| && s.pc[t].InSeek()
    ensures Sized(StepSeek(s, t))
  {
  }

  lemma {:induction false} SeekList(s: State, t: nat)
    requires Inv(s) && t < |s.pc| && s.pc[t].InSeek() && Sized(StepSeek(s, t))
    ensures ListOk(StepSeek(s, t))
  {
  }

  lemma {:induction false} SeekCount(s: State, t: nat, m: nat)
    requires Sized(s) && t < |s.pc| && s.pc[t].InSeek() && Sized(StepSeek(s, t)) && m < |s.refs|
    requires CountOk(s, m) && NodeOk(s, m) && PairOk(s, t, m)
    ensures CountOk(StepSeek(s, t), m)
  {
    if s.pc[t].CasRefs? && s.pc[t].h == m {
      assert |s.holders[m] + {t}| == |s.holders[m]| + 1;
    }
  }

  lemma {:induction false} SeekNode(s: State, t: nat, m: nat)
    requires Sized(s) && ListOk(s) && t < |s.pc| && s.pc[t].InSeek() && Sized(StepSeek(s, t)) && m < |s.refs|
    requires CountOk(s, m) && NodeOk(s, m) && PairOk(s, t, m)
    ensures NodeOk(StepSeek(s, t), m)
  {
  }

  lemma {:induction false} SeekPair(s: State, t: nat, u: nat, m: nat)
    requires Inv(s) && t < |s.pc| && s.pc[t].InSeek() && Sized(StepSeek(s, t)) && u < |s.pc| && m < |s.refs|
    ensures PairOk(StepSeek(s, t), u, m)
  {
    assert PairOk(s, u, m) && PairOk(s, t, m) && NodeOk(s, m);
  }

  lemma {:induction false} TakeSized(s: State, t: nat)
    requires Sized(s) && t < |s.pc| && s.pc[t].InTake()
    ensures Sized(StepTake(s, t))
  {
  }

  lemma {:induction false} TakeList(s: State, t: nat)
    requires Inv(s) && t < |s.pc| && s.pc[t].InTake() && Sized(StepTake(s, t))
    ensures ListOk(StepTake(s, t))
  {
    if s.pc[t].CasHead? && s.head == Some(s.pc[t].h) {
      assert PairOk(s, t, s.pc[t].h);
      Chain.Pop(s.head, s.next, s.list);
    }
  }

  lemma {:induction false} TakeCount(s: State, t: nat, m: nat)
    requires Sized(s) && ListOk(s) && t < |s.pc| && s.pc[t].InTake() && Sized(StepTake(s, t)) && m < |s.refs|
    requires CountOk(s, m) && NodeOk(s, m) && PairOk(s, t, m)
    ensures CountOk(StepTake(s, t), m)
  {
    if s.pc[t].CasHead? && s.head == Some(s.pc[t].h) {
      assert s.pc[t].h == m ==> s.place[m].OnList?;
    } else if !s.pc[t].CasHead? && s.pc[t].h == m {
      assert |s.holders[m] - {t}| == |s.holders[m]| - 1;
    }
  }

  lemma {:induction false} TakeNode(s: State, t: nat, m: nat)
    requires Sized(s) && ListOk(s) && t < |s.pc| && s.pc[t].InTake() && Sized(StepTake(s, t)) && m < |s.refs|
    requires CountOk(s, m) && NodeOk(s, m) && PairOk(s, t, m)
    ensures NodeOk(StepTake(s, t), m)
  {
    if s.pc[t].CasHead? && s.head == Some(s.pc[t].h) {
      Chain.Pop(s.head, s.next, s.list);
    } else if s.pc[t].Release1? && s.pc[t].h == m {
      assert |s.holders[m] - {t}| == |s.holders[m]| - 1;
    }
  }

  lemma {:induction false} TakePair(s: State, t: nat, u: nat, m: nat)
    requires Inv(s) && t < |s.pc| && s.pc[t].InTake() && Sized(StepTake(s, t)) && u < |s.pc| && m < |s.refs|
    ensures PairOk(StepTake(s, t), u, m)
  {
    assert PairOk(s, u, m) && PairOk(s, t, m) && NodeOk(s, m);
    if s.pc[t].CasHead? {
      SwingKeepsPair(s, t, u, m);
    } else {
      ReleaseKeepsPair(s, t, u, m);
    }
  }

  lemma {:induction false} SwingKeepsPair(s: State, t: nat, u: nat, m: nat)
    requires Sized(s) && t < |s.pc| && s.pc[t].CasHead? && Sized(StepTake(s, t)) && u < |s.pc| && m < |s.refs|
    requires ListOk(s) && CountOk(s, m) && PairOk(s, u, m) && PairOk(s, t, m) && NodeOk(s, m)
    ensures PairOk(StepTake(s, t), u, m)
  {
  }

  lemma {:induction false} ReleaseKeepsPair(s: State, t: nat, u: nat, m: nat)
    requires Sized(s) && t < |s.pc| && (s.pc[t].Release1? || s.pc[t].Release2?) && Sized(StepTake(s, t))
    requires u < |s.pc| && m < |s.refs|
    requires ListOk(s) && CountOk(s, m) && PairOk(s, u, m) && PairOk(s, t, m) && NodeOk(s, m)
    ensures PairOk(StepTake(s, t), u, m)
  {
  }

  lemma {:induction false} PutSized(s: State, t: nat)
    requires Sized(s) && t < |s.pc| && s.pc[t].InPut()
    ensures Sized(StepPut(s, t))
  {
  }

  lemma {:induction false} PutList(s: State, t: nat)
    requires Inv(s) && t < |s.pc| && s.pc[t].InPut() && Sized(StepPut(s, t))
    ensures ListOk(StepPut(s, t))
  {
    var p, s' := s.pc[t], StepPut(s, t);
    assert NodeOk(s, p.n) && PairOk(s, t, p.n);
    Chain.Frame(s.head, s.next, s'.next, s.list);
    if p.PutCas? && s.head == p.top {
      Chain.Push(s.head, s.next, s.list, p.n);
    }
  }

  lemma {:induction false} PutCount(s: State, t: nat, m: nat)
    requires Sized(s) && t < |s.pc| && s.pc[t].InPut() && Sized(StepPut(s, t)) && m < |s.refs|
    requires CountOk(s, m) && NodeOk(s, m) && PairOk(s, t, m)
    ensures CountOk(StepPut(s, t), m)
  {
  }

  lemma {:induction false} PutNode(s: State, t: nat, m: nat)
    requires Sized(s) && ListOk(s) && t < |s.pc| && s.pc[t].InPut() && Sized(StepPut(s, t)) && m < |s.refs|
    requires CountOk(s, m) && NodeOk(s, m) && PairOk(s, t, m)
    ensures NodeOk(StepPut(s, t), m)
  {
  }

  lemma {:induction false} PutPair(s: State, t: nat, u: nat, m: nat)
    requires Inv(s) && t < |s.pc| && s.pc[t].InPut() && Sized(StepPut(s, t)) && u < |s.pc| && m < |s.refs|
    ensures PairOk(StepPut(s, t), u, m)
  {
    assert PairOk(s, u, m) && PairOk(s, t, m) && NodeOk(s, m);
  }

  lemma {:induction false} StepKeepsInv(s: State, t: nat, c: Choice)
    requires Inv(s) && Enabled(s, t, c)
    ensures Inv(Step(s, t, c))
  {
    var s' := Step(s, t, c);
    if !c.Advance? {
      CallSized(s, t, c);
      CallList(s, t, c);
    } else if s.pc[t].InPut() {
      PutSized(s, t);
      PutList(s, t);
    } else if s.pc[t].InSeek() {
      SeekSized(s, t);
      SeekList(s, t);
    } else {
      TakeSized(s, t);
      TakeList(s, t);
    }
    forall m | 0 <= m < |s.refs| ensures NodeOk(s', m) && CountOk(s', m) {
      assert NodeOk(s, m) && CountOk(s, m) && PairOk(s, t, m);
      if !c.Advance? {
        CallNode(s, t, c, m);
        CallCount(s, t, c, m);
      } else if s.pc[t].InPut() {
        PutNode(s, t, m);
        PutCount(s, t, m);
      } else if s.pc[t].InSeek() {
        SeekNode(s, t, m);
        SeekCount(s, t, m);
      } else {
        TakeNode(s, t, m);
        TakeCount(s, t, m);
      }
    }
    forall u, m | 0 <= u < |s.pc| && 0 <= m < |s.refs| ensures PairOk(s', u, m) {
      if !c.Advance? {
        CallPair(s, t, c, u, m);
      } else if s.pc[t].InPut() {
        PutPair(s, t, u, m);
      } else if s.pc[t].InSeek() {
        SeekPair(s, t, u, m);
      } else {
        TakePair(s, t, u, m);
      }
    }
  }

  // ---------------------------------------------------------------------------
  // Whole runs
  // ---------------------------------------------------------------------------

  datatype Action = Action(t: nat, c: Choice)

  /** `states` is a run in which the threads are scheduled, and their callers act, as `acts` says. */
  ghost predicate IsRun(states: seq<State>, acts: seq<Action>) {
    && |states| == |acts| + 1
    && Init(states[0])
    && forall i :: 0 <= i < |acts| ==> StepAt(states, acts, i)
  }

  ghost predicate StepAt(states: seq<State>, acts: seq<Action>, i: nat) {
    i < |acts| && i + 1 < |states| && RunStep(states[i], acts[i], states[i + 1])
  }

  ghost predicate RunStep(s: State, a: Action, s': State) {
    Sized(s) && Enabled(s, a.t, a.c) && s' == Step(s, a.t, a.c)
  }

  lemma {:induction false} RunInv(states: seq<State>, acts: seq<Action>, i: nat)
    requires IsRun(states, acts) && i < |states|
    ensures Inv(states[i])
  {
    if i == 0 {
      InitInv(states[0]);
    } else {
      RunInv(states, acts, i - 1);
      assert StepAt(states, acts, i - 1);
      StepKeepsInv(states[i - 1], acts[i - 1].t, acts[i - 1].c);
    }
  }

  /** Every place a node can be, in terms of what the program and its callers hold. */
  ghost predicate Listed(s: State, m: nat) { Chain.Reaches(s.head, s.next, m) }
  ghost predicate PutBy(s: State, t: nat, m: nat) { t < |s.pc| && s.pc[t].Puts(m) }
  ghost predicate TakenBy(s: State, t: nat, m: nat) { t < |s.pc| && s.pc[t] == Release2(m) }
  ghost predicate OwnedBy(s: State, t: nat, m: nat) { t < |s.owned| && m in s.owned[t] }
  ghost predicate HeldBy(s: State, t: nat, m: nat) { t < |s.pc| && s.pc[t].Holds(m) }
  ghost predicate Parked(s: State, m: nat) {
    m < |s.refs| && s.refs[m].should && (forall t: nat :: !PutBy(s, t, m)) && exists t: nat :: HeldBy(s, t, m)
  }

  /** A node is in at most one place, and at most one thread or caller has it. */
  ghost predicate Exclusive(s: State, m: nat) {
    && (forall t: nat, u: nat :: PutBy(s, t, m) && PutBy(s, u, m) ==> t == u)
    && (forall t: nat, u: nat :: TakenBy(s, t, m) && TakenBy(s, u, m) ==> t == u)
    && (forall t: nat, u: nat :: OwnedBy(s, t, m) && OwnedBy(s, u, m) ==> t == u)
    && (Listed(s, m) ==> !Parked(s, m) && forall t: nat :: !PutBy(s, t, m) && !TakenBy(s, t, m) && !OwnedBy(s, t, m))
    && (Parked(s, m) ==> forall t: nat :: !PutBy(s, t, m) && !TakenBy(s, t, m) && !OwnedBy(s, t, m))
    && (forall t: nat, u: nat :: PutBy(s, t, m) ==> !TakenBy(s, u, m) && !OwnedBy(s, u, m))
    && (forall t: nat, u: nat :: TakenBy(s, t, m) ==> !OwnedBy(s, u, m))
  }

  /** ... and in at least one: no node is lost. */
  ghost predicate Somewhere(s: State, m: nat) {
    || Listed(s, m)
    || Parked(s, m)
    || (exists t: nat :: PutBy(s, t, m))
    || (exists t: nat :: TakenBy(s, t, m))
    || (exists t: nat :: OwnedBy(s, t, m))
  }

  /** What a thread or caller has is what the history variable says. */
  lemma {:induction false} PlaceOf(s: State, t: nat, m: nat)
    requires Inv(s) && m < |s.refs|
    ensures PutBy(s, t, m) <==> s.place[m] == Adding(t)
    ensures TakenBy(s, t, m) <==> s.place[m] == Taken(t)
    ensures OwnedBy(s, t, m) <==> s.place[m] == Owned(t)
    ensures HeldBy(s, t, m) <==> t in s.holders[m]
  {
    assert NodeOk(s, m);
    if t < |s.pc| {
      assert PairOk(s, t, m);
    }
  }

  lemma {:induction false} OnePlace(s: State, m: nat)
    requires Inv(s) && m < |s.refs|
    ensures Exclusive(s, m) && Somewhere(s, m)
  {
    assert NodeOk(s, m);
    Chain.ReachesIff(s.head, s.next, s.list, m);
    forall t: nat
      ensures PutBy(s, t, m) <==> s.place[m] == Adding(t)
      ensures TakenBy(s, t, m) <==> s.place[m] == Taken(t)
      ensures OwnedBy(s, t, m) <==> s.place[m] == Owned(t)
      ensures HeldBy(s, t, m) <==> t in s.holders[m]
    {
      PlaceOf(s, t, m);
    }
    if s.place[m].Waiting? {
      var t :| t in s.holders[m];
      assert HeldBy(s, t, m);
    }
  }

  /**
   Every interleaving: in each state of a run every node is in exactly one place; a node about
   to be returned by `try_get` does not carry the should-be-on-freelist bit, so the assertion
   in the program holds; and no decrement takes a reference count below zero.
   */
  lemma {:induction false} RunsAreSafe(states: seq<State>, acts: seq<Action>, i: nat)
    requires IsRun(states, acts) && i < |states|
    ensures forall m :: 0 <= m < |states[i].refs| ==> Exclusive(states[i], m) && Somewhere(states[i], m)
    ensures forall t: nat, m: nat :: TakenBy(states[i], t, m) ==>
              m < |states[i].refs| && !states[i].refs[m].should && states[i].refs[m].count >= 2
    ensures forall t: nat, m: nat :: HeldBy(states[i], t, m) ==> m < |states[i].refs| && states[i].refs[m].count >= 1
  {
    var s := states[i];
    RunInv(states, acts, i);
    forall m | 0 <= m < |s.refs| ensures Exclusive(s, m) && Somewhere(s, m) {
      OnePlace(s, m);
    }
    forall t: nat, m: nat | HeldBy(s, t, m)
      ensures m < |s.refs| && s.refs[m].count >= 1
      ensures TakenBy(s, t, m) ==> !s.refs[m].should && s.refs[m].count >= 2
    {
      assert s.pc[t].Within(|s.refs|);
      assert NodeOk(s, m) && CountOk(s, m) && PairOk(s, t, m);
    }
    forall t: nat, m: nat | TakenBy(s, t, m)
      ensures m < |s.refs| && !s.refs[m].should && s.refs[m].count >= 2
    {
      assert HeldBy(s, t, m);
    }
  }

  /** A step leaves `next` of a node alone while a thread holds a reference on it. */
  lemma {:induction false} NextIsStable(s: State, t: nat, c: Choice, m: nat, u: nat)
    requires Inv(s) && Enabled(s, t, c) && m < |s.refs| && HeldBy(s, u, m)
    ensures Step(s, t, c).next[m] == s.next[m]
  {
    PlaceOf(s, u, m);
    PlaceOf(s, t, m);
    assert NodeOk(s, m);
  }

  /** A node comes into the hands of a caller only from the thread that took it off the list. */
  lemma {:induction false} NewOwner(s: State, t: nat, m: nat, u: nat)
    requires Inv(s) && Enabled(s, t, Advance) && m < |s.refs|
    requires OwnedBy(Step(s, t, Advance), u, m) && !OwnedBy(s, u, m)
    ensures u == t && TakenBy(s, t, m)
  {
  }

  /**
   Every step of every interleaving: `next` of a node does not change while any thread holds a
   reference on it, and a node handed out by `try_get` had no owner before.
   */
  lemma {:induction false} StepsAreSafe(states: seq<State>, acts: seq<Action>, i: nat, m: nat)
    requires IsRun(states, acts) && i < |acts| && m < |states[i].refs|
    ensures |states[i + 1].next| == |states[i].next| == |states[i].refs|
    ensures (exists t: nat :: HeldBy(states[i], t, m)) ==> states[i + 1].next[m] == states[i].next[m]
    ensures acts[i].c == Advance && (exists t: nat :: OwnedBy(states[i + 1], t, m) && !OwnedBy(states[i], t, m)) ==>
              forall t: nat :: !OwnedBy(states[i], t, m)
  {
    var s, a := states[i], acts[i];
    RunInv(states, acts, i);
    OnePlace(s, m);
    assert StepAt(states, acts, i);
    if u: nat :| HeldBy(s, u, m) {
      NextIsStable(s, a.t, a.c, m, u);
    }
    if u: nat :| OwnedBy(states[i + 1], u, m) && !OwnedBy(s, u, m) && a.c == Advance {
      NewOwner(s, a.t, m, u);
    }
  }

  // ---------------------------------------------------------------------------
  // What a call achieves
  // ---------------------------------------------------------------------------

  /** The thread is inside `try_get`, also when it puts a node back there. */
  predicate InGet(p: Pc) { p.InSeek() || p.InTake() || (p.InPut() && p.k.FromGet?) }

  /** The thread will find the null pointer it has read. */
  predicate SawNull(p: Pc) { (p.Release1? && p.newHead.None?) || (p.InPut() && p.k == FromGet(None)) }

  /** A step that makes a thread remember a null head, or return without a node, sees one or remembered it. */
  lemma {:induction false} NullIsSeen(s: State, t: nat)
    requires Inv(s) && Enabled(s, t, Advance) && InGet(s.pc[t])
    ensures var s' := Step(s, t, Advance);
      && t < |s'.pc| && t < |s'.owned| && (s'.pc[t].Idle? || InGet(s'.pc[t]))
      && (SawNull(s'.pc[t]) || (s'.pc[t].Idle? && s'.owned[t] == s.owned[t]) ==> SawNull(s.pc[t]) || s.list == [])
  {
    if s.pc[t].Release2? { assert PairOk(s, t, s.pc[t].h); }
  }

  lemma {:induction false} OtherPcKept(s: State, a: Action, t: nat)
    requires Sized(s) && Enabled(s, a.t, a.c) && t < |s.pc| && (a.t != t || a.c.HandOver?)
    ensures t < |Step(s, a.t, a.c).pc| && Step(s, a.t, a.c).pc[t] == s.pc[t]
  {
  }

  /** A call of `try_get` by `t` starts at step `i` and is under way up to state `j`. */
  ghost predicate InGetCall(states: seq<State>, acts: seq<Action>, t: nat, i: nat, j: nat)
    requires |states| == |acts| + 1 && i < j <= |acts|
  {
    acts[i] == Action(t, CallGet) && forall k :: i < k <= j ==> Getting(states, t, k)
  }

  ghost predicate Getting(states: seq<State>, t: nat, k: nat) {
    k < |states| && t < |states[k].pc| && InGet(states[k].pc[t])
  }

  lemma {:induction false} CallGoesOn(states: seq<State>, acts: seq<Action>, t: nat, i: nat, j: nat)
    requires |states| == |acts| + 1 && i < j < |acts| && InGetCall(states, acts, t, i, j) && Getting(states, t, j + 1)
    ensures InGetCall(states, acts, t, i, j + 1)
  {
  }

  lemma {:induction false} NobodyAtFirst(states: seq<State>, acts: seq<Action>, t: nat)
    requires IsRun(states, acts)
    ensures !Getting(states, t, 0)
  {
  }

  /** What one step does to a thread inside `try_get`: it began the call or was inside before. */
  lemma {:induction false} GetBefore(states: seq<State>, acts: seq<Action>, t: nat, j: nat)
    requires IsRun(states, acts) && j < |acts| && Getting(states, t, j + 1)
    ensures t < |states[j].pc|
    ensures acts[j] == Action(t, CallGet) || InGet(states[j].pc[t])
    ensures acts[j] == Action(t, CallGet) ==> !SawNull(states[j + 1].pc[t])
    ensures acts[j] != Action(t, CallGet) && SawNull(states[j + 1].pc[t]) ==>
      SawNull(states[j].pc[t]) || states[j].list == []
  {
    var s, a := states[j], acts[j];
    RunInv(states, acts, j);
    assert StepAt(states, acts, j);
    if a.t != t || a.c.HandOver? {
      OtherPcKept(s, a, t);
    } else if a.c.Advance? {
      if InGet(s.pc[t]) { NullIsSeen(s, t); } else { AddStaysAdd(s, t); }
    }
  }

  lemma {:induction false} AddStaysAdd(s: State, t: nat)
    requires Sized(s) && Enabled(s, t, Advance) && !InGet(s.pc[t])
    ensures t < |Step(s, t, Advance).pc| && !InGet(Step(s, t, Advance).pc[t])
  {
  }

  /** A thread inside `try_get` called it and has been inside since. */
  lemma {:induction false} GetWasCalled(states: seq<State>, acts: seq<Action>, t: nat, j: nat) returns (i: nat)
    requires IsRun(states, acts) && j < |states| && Getting(states, t, j)
    ensures i < j && InGetCall(states, acts, t, i, j)
    decreases j
  {
    NobodyAtFirst(states, acts, t);
    GetBefore(states, acts, t, j - 1);
    if acts[j - 1] == Action(t, CallGet) {
      i := j - 1;
    } else {
      i := GetWasCalled(states, acts, t, j - 1);
      CallGoesOn(states, acts, t, i, j - 1);
    }
  }

  /** If it remembers a null head, the list was empty at a moment of that call. */
  lemma {:induction false} NullWasSeen(states: seq<State>, acts: seq<Action>, t: nat, i: nat, j: nat) returns (m: nat)
    requires IsRun(states, acts) && i < j <= |acts| && InGetCall(states, acts, t, i, j) && Getting(states, t, j)
    requires SawNull(states[j].pc[t])
    ensures i < m < j && states[m].list == []
    decreases j
  {
    GetBefore(states, acts, t, j - 1);
    if i < j - 1 {
      assert Getting(states, t, j - 1);
      NoSecondCall(states, acts, t, j - 1);
      if SawNull(states[j - 1].pc[t]) {
        m := NullWasSeen(states, acts, t, i, j - 1);
      } else {
        m := j - 1;
      }
    }
  }

  lemma {:induction false} NoSecondCall(states: seq<State>, acts: seq<Action>, t: nat, j: nat)
    requires IsRun(states, acts) && j < |acts| && Getting(states, t, j)
    ensures acts[j] != Action(t, CallGet)
  {
    assert StepAt(states, acts, j);
  }

  /** A call of `try_get` that returns without a node found the list empty at a moment between its start and its end. */
  lemma {:induction false} NothingFromEmptyOnly(states: seq<State>, acts: seq<Action>, t: nat, j: nat)
      returns (i: nat, m: nat)
    requires IsRun(states, acts) && j < |acts| && acts[j] == Action(t, Advance)
    requires Getting(states, t, j)
    requires t < |states[j + 1].pc| && states[j + 1].pc[t].Idle?
    requires t < |states[j].owned| && t < |states[j + 1].owned| && states[j + 1].owned[t] == states[j].owned[t]
    ensures i < j && InGetCall(states, acts, t, i, j)
    ensures i < m <= j && states[m].list == [] && states[m].head.None?
  {
    RunInv(states, acts, j);
    assert StepAt(states, acts, j);
    NullIsSeen(states[j], t);
    i := GetWasCalled(states, acts, t, j);
    if SawNull(states[j].pc[t]) {
      m := NullWasSeen(states, acts, t, i, j);
    } else {
      m := j;
    }
    RunInv(states, acts, m);
  }

  /** `n` steps of one thread, or fewer if its call returns. */
  ghost function Alone(s: State, t: nat, n: nat): State
    requires Inv(s) && t < |s.pc|
    decreases n
  {
    if n == 0 || s.pc[t].Idle? then s
    else
      StepKeepsInv(s, t, Advance);
      Alone(Step(s, t, Advance), t, n - 1)
  }

  lemma {:induction false} AloneNext(s: State, t: nat, n: nat)
    requires Inv(s) && t < |s.pc| && !s.pc[t].Idle? && 0 < n
    ensures Sized(s) && Enabled(s, t, Advance) && Inv(Step(s, t, Advance)) && t < |Step(s, t, Advance).pc|
    ensures Alone(s, t, n) == Alone(Step(s, t, Advance), t, n - 1)
  {
    StepKeepsInv(s, t, Advance);
  }

  lemma {:induction false} SeekSees(s: State, t: nat, n: nat)
    requires Inv(s) && t < |s.pc| && s.pc[t].LoadHead? && s.list != [] && 2 <= n
    ensures var h := s.list[0];
      h < |s.refs| && h < |s.next| && t !in s.holders[h] &&
      var s' := s.(pc := s.pc[t := CasRefs(h, s.refs[h])]);
      Inv(s') && Alone(s, t, n) == Alone(s', t, n - 2)
  {
    var h := s.list[0];
    assert NodeOk(s, h) && CountOk(s, h) && PairOk(s, t, h);
    AloneNext(s, t, n);
    var s1 := Step(s, t, Advance);
    AloneNext(s1, t, n - 1);
    assert s1 == s.(pc := s.pc[t := LoadRefs(h)]);
    assert Step(s1, t, Advance) == s.(pc := s.pc[t := CasRefs(h, s.refs[h])]);
  }

  lemma {:induction false} SeekHolds(s: State, t: nat, h: nat, n: nat)
    requires Inv(s) && t < |s.pc| && h < |s.refs| && s.pc[t] == CasRefs(h, s.refs[h]) && 2 <= n
    ensures h < |s.next| &&
      var s' := s.(pc := s.pc[t := CasHead(h, s.next[h])], refs := s.refs[h := s.refs[h].Plus(1)],
                   holders := s.holders[h := s.holders[h] + {t}]);
      Inv(s') && Alone(s, t, n) == Alone(s', t, n - 2)
  {
    AloneNext(s, t, n);
    var s1 := Step(s, t, Advance);
    AloneNext(s1, t, n - 1);
    assert s1.pc == s.pc[t := LoadNext(h)] && s1.next == s.next;
    assert Step(s1, t, Advance) == s1.(pc := s.pc[t := CasHead(h, s.next[h])]);
  }

  /** The first half of an undisturbed `try_get`: a reference on the first node. */
  lemma {:induction false} SeekAlone(s: State, t: nat, n: nat)
    requires Inv(s) && t < |s.pc| && s.pc[t].LoadHead? && s.list != [] && 4 <= n
    ensures var h := s.list[0];
      h < |s.refs| && h < |s.next| && t !in s.holders[h] &&
      var s' := s.(pc := s.pc[t := CasHead(h, s.next[h])], refs := s.refs[h := s.refs[h].Plus(1)],
                   holders := s.holders[h := s.holders[h] + {t}]);
      Inv(s') && Alone(s, t, n) == Alone(s', t, n - 4)
  {
    SeekSees(s, t, n);
    var h := s.list[0];
    SeekHolds(s.(pc := s.pc[t := CasRefs(h, s.refs[h])]), t, h, n - 2);
    assert s.pc[t := CasRefs(h, s.refs[h])][t := CasHead(h, s.next[h])] == s.pc[t := CasHead(h, s.next[h])];
  }

  /** The second half: the node comes off the list and into the hands of the caller. */
  lemma {:induction false} TakeAlone(s: State, t: nat, n: nat)
    requires Inv(s) && t < |s.pc| && s.list != [] && s.pc[t].CasHead? && s.pc[t].h == s.list[0] && 2 <= n
    ensures var s' := Alone(s, t, n);
      && |s'.pc| == |s'.owned| == |s.pc| == |s.owned| && s'.pc == s.pc[t := Idle]
      && s'.list == s.list[1..] && s'.owned == s.owned[t := s.owned[t] + {s.list[0]}]
  {
    AloneNext(s, t, n);
    var s1 := Step(s, t, Advance);
    AloneNext(s1, t, n - 1);
    var s2 := Step(s1, t, Advance);
    assert s2.pc == s.pc[t := Idle] && Alone(s2, t, n - 2) == s2;
  }

  /** A `try_get` that runs alone takes the first node of the list, and nothing exactly from an empty list. */
  lemma {:induction false} GetAlone(s: State, t: nat)
    requires Inv(s) && t < |s.pc| && s.pc[t].Idle?
    ensures Inv(Step(s, t, CallGet)) && t < |Step(s, t, CallGet).pc|
    ensures var s' := Alone(Step(s, t, CallGet), t, 6);
      && |s'.pc| == |s'.owned| == |s.pc| == |s.owned| && s'.pc[t].Idle?
      && s'.list == (if s.list == [] then [] else s.list[1..])
      && s'.owned == if s.list == [] then s.owned else s.owned[t := s.owned[t] + {s.list[0]}]
  {
    StepKeepsInv(s, t, CallGet);
    var s1 := Step(s, t, CallGet);
    if s.list == [] {
      AloneNext(s1, t, 6);
      assert Step(s1, t, Advance).pc[t].Idle?;
    } else {
      SeekAlone(s1, t, 6);
      var h := s.list[0];
      var s2 := s1.(pc := s1.pc[t := CasHead(h, s1.next[h])], refs := s1.refs[h := s1.refs[h].Plus(1)],
                    holders := s1.holders[h := s1.holders[h] + {t}]);
      TakeAlone(s2, t, 2);
    }
  }

  /** An `add` that runs alone puts an unreferenced node at the front of the list. */
  lemma {:induction false} AddAlone(s: State, t: nat, m: nat)
    requires Inv(s) && t < |s.pc| && s.pc[t].Idle? && m in s.owned[t]
    requires forall u: nat :: !HeldBy(s, u, m)
    ensures Inv(Step(s, t, CallAdd(m))) && t < |Step(s, t, CallAdd(m)).pc|
    ensures var s' := Alone(Step(s, t, CallAdd(m)), t, 4);
      |s'.pc| == |s.pc| && s'.pc[t].Idle? && s'.list == [m] + s.list && s'.owned == s.owned[t := s.owned[t] - {m}]
  {
    StepKeepsInv(s, t, CallAdd(m));
    Unreferenced(s, t, m);
    var s1 := Step(s, t, CallAdd(m));
    PutAlone(s1, t, m);
  }

  lemma {:induction false} Unreferenced(s: State, t: nat, m: nat)
    requires Inv(s) && t < |s.pc| && m in s.owned[t] && forall u: nat :: !HeldBy(s, u, m)
    ensures m < |s.refs| && s.refs[m] == Refs(false, 0)
  {
    assert NodeOk(s, m) && CountOk(s, m) && PairOk(s, t, m);
    forall u: nat ensures u !in s.holders[m] { PlaceOf(s, u, m); }
    assert s.holders[m] == {};
  }

  lemma {:induction false} PutAlone(s: State, t: nat, m: nat)
    requires Inv(s) && t < |s.pc| && s.pc[t] == PutLoadHead(m, FromAdd)
    ensures var s' := Alone(s, t, 4);
      |s'.pc| == |s.pc| && s'.pc[t].Idle? && s'.list == [m] + s.list && s'.owned == s.owned
  {
    AloneNext(s, t, 4);
    var s1 := Step(s, t, Advance);
    AloneNext(s1, t, 3);
    var s2 := Step(s1, t, Advance);
    AloneNext(s2, t, 2);
    var s3 := Step(s2, t, Advance);
    assert s3.pc[t] == PutCas(m, s.head, FromAdd) && s3.head == s.head;
    AloneNext(s3, t, 1);
  }
}
