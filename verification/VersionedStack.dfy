/**
 The lock-free stack built from two versioned primitive stacks, `a` (live) and `b` (recycled
 nodes).  Each step is one access to shared memory: a 16-byte load or compare-and-swap of a
 head, or a load or store of one node field.  Any number of threads push and pop; nodes are
 allocated on demand and never freed.  `live`, `spare` and `place` are history variables, and
 so are the values recorded at a linearisation point (`lin`).
 */
module VersionedStack {
  import opened Basics
  import Chain

  datatype Head = Head(node: Option<nat>, counter: nat)

  /** What the thread is doing at the outer level. */
  datatype Op<T> = Pushing(v: T) | Popping | Recycling(r: T, lin: T) {
    /** The primitive stack a primitive pop, or push, of this operation works on. */
    predicate PopsLive() { Popping? }
    predicate PushesLive() { Pushing? }
  }

  datatype Pc<T> =
    | Idle
    | PopLoad(op: Op<T>)
    | PopNext(op: Op<T>, h: nat, cnt: nat)
    | PopCas(op: Op<T>, h: nat, cnt: nat, nxt: Option<nat>)
    | Malloc(op: Op<T>)
    | SetValue(op: Op<T>, n: nat)
    | GetValue(n: nat, lin: T)
    | PushLoad(op: Op<T>, n: nat)
    | PushNext(op: Op<T>, n: nat, top: Option<nat>, cnt: nat)
    | PushLength(op: Op<T>, n: nat, top: Option<nat>, cnt: nat)
    | PushStore(op: Op<T>, n: nat, top: Option<nat>, cnt: nat, len: nat)
    | PushCas(op: Op<T>, n: nat, top: Option<nat>, cnt: nat)
  {
    predicate InPop() { PopLoad? || PopNext? || PopCas? }
    predicate InPush() { PushLoad? || PushNext? || PushLength? || PushStore? || PushCas? }

    /** The thread has node `n` to itself. */
    predicate HasNode() { SetValue? || GetValue? || InPush() }
  }

  datatype Place = Live | Spare | With(t: nat)

  datatype State<T> = State(
    a: Head, b: Head,
    next: seq<Option<nat>>, length: seq<nat>, value: seq<T>,
    pc: seq<Pc<T>>,
    live: seq<nat>, spare: seq<nat>, place: seq<Place>)

  datatype Event<T> = Silent | Pushed(v: T) | Popped(v: T) | PopEmpty | Returned(v: T)

  datatype Choice<T> = CallPush(v: T) | CallPop | Advance(garbage: T)

  predicate Below(p: Option<nat>, count: nat) { p.Some? ==> p.value < count }

  predicate PcWithin<T>(p: Pc<T>, count: nat) {
    && (p.PopNext? || p.PopCas? ==> p.h < count)
    && (p.PopCas? ==> Below(p.nxt, count))
    && (p.HasNode() ==> p.n < count)
    && (p.PushNext? || p.PushLength? || p.PushStore? || p.PushCas? ==> Below(p.top, count))
    && (p.Malloc? || p.SetValue? ==> p.op.Pushing?)
    && (p.InPop() ==> p.op.Pushing? || p.op.Popping?)
    && (p.InPush() ==> p.op.Pushing? || p.op.Recycling?)
  }

  predicate Sized<T>(s: State<T>) {
    && |s.next| == |s.length| == |s.value| == |s.place|
    && Below(s.a.node, |s.next|) && Below(s.b.node, |s.next|)
    && (forall i :: 0 <= i < |s.next| ==> Below(s.next[i], |s.next|))
    && (forall t :: 0 <= t < |s.pc| ==> PcWithin(s.pc[t], |s.next|))
    && (forall i :: 0 <= i < |s.live| ==> s.live[i] < |s.next|)
    && (forall i :: 0 <= i < |s.spare| ==> s.spare[i] < |s.next|)
  }

  predicate Enabled<T>(s: State<T>, t: nat, c: Choice<T>) {
    t < |s.pc| && (s.pc[t].Idle? <==> !c.Advance?)
  }

  // ---------------------------------------------------------------------------
  // The program
  // ---------------------------------------------------------------------------

  function Goto<T>(s: State<T>, t: nat, p: Pc<T>): State<T>
    requires t < |s.pc|
  {
    s.(pc := s.pc[t := p])
  }

  function HeadOf<T>(s: State<T>, isLive: bool): Head { if isLive then s.a else s.b }

  function ListOf<T>(s: State<T>, isLive: bool): seq<nat> { if isLive then s.live else s.spare }

  function SetHead<T>(s: State<T>, isLive: bool, h: Head, list: seq<nat>): State<T> {
    if isLive then s.(a := h, live := list) else s.(b := h, spare := list)
  }

  function LengthOf<T>(s: State<T>, p: Option<nat>): nat
    requires Below(p, |s.length|)
  {
    if p.None? then 0 else s.length[p.value]
  }

  /** A successful compare-and-swap of a primitive pop. */
  function PopSwing<T>(s: State<T>, t: nat): (State<T>, Event<T>)
    requires Sized(s) && t < |s.pc| && s.pc[t].PopCas?
  {
    var PopCas(op, h, cnt, nxt) := s.pc[t];
    var isLive := op.PopsLive();
    var list := ListOf(s, isLive);
    var s1 := SetHead(s, isLive, Head(nxt, cnt + 1), if list == [] then [] else list[1..])
      .(place := s.place[h := With(t)]);
    if isLive then (Goto(s1, t, GetValue(h, s.value[h])), Popped(s.value[h]))
    else (Goto(s1, t, SetValue(op, h)), Silent)
  }

  function StepPop<T>(s: State<T>, t: nat): (State<T>, Event<T>)
    requires Sized(s) && t < |s.pc| && s.pc[t].InPop()
  {
    var isLive := s.pc[t].op.PopsLive();
    var head := HeadOf(s, isLive);
    match s.pc[t]
    case PopLoad(op) =>
      if head.node.Some? then (Goto(s, t, PopNext(op, head.node.value, head.counter)), Silent)
      else if isLive then (Goto(s, t, Idle), PopEmpty)
      else (Goto(s, t, Malloc(op)), Silent)
    case PopNext(op, h, cnt) => (Goto(s, t, PopCas(op, h, cnt, s.next[h])), Silent)
    case PopCas(op, h, cnt, nxt) =>
      if head == Head(Some(h), cnt) then PopSwing(s, t) else (Goto(s, t, PopLoad(op)), Silent)
  }

  function StepOwn<T>(s: State<T>, t: nat, garbage: T): (State<T>, Event<T>)
    requires Sized(s) && t < |s.pc| && (s.pc[t].Malloc? || s.pc[t].SetValue? || s.pc[t].GetValue?)
  {
    match s.pc[t]
    case Malloc(op) =>
      (Goto(s.(next := s.next + [None], length := s.length + [0], value := s.value + [garbage],
               place := s.place + [With(t)]), t, SetValue(op, |s.next|)), Silent)
    case SetValue(op, n) => (Goto(s.(value := s.value[n := op.v]), t, PushLoad(op, n)), Silent)
    case GetValue(n, lin) => (Goto(s, t, PushLoad(Recycling(s.value[n], lin), n)), Silent)
  }

  function StepPush<T>(s: State<T>, t: nat): (State<T>, Event<T>)
    requires Sized(s) && t < |s.pc| && s.pc[t].InPush()
  {
    var isLive := s.pc[t].op.PushesLive();
    var head := HeadOf(s, isLive);
    match s.pc[t]
    case PushLoad(op, n) => (Goto(s, t, PushNext(op, n, head.node, head.counter)), Silent)
    case PushNext(op, n, top, cnt) => (Goto(s.(next := s.next[n := top]), t, PushLength(op, n, top, cnt)), Silent)
    case PushLength(op, n, top, cnt) => (Goto(s, t, PushStore(op, n, top, cnt, LengthOf(s, top))), Silent)
    case PushStore(op, n, top, cnt, len) =>
      (Goto(s.(length := s.length[n := len + 1]), t, PushCas(op, n, top, cnt)), Silent)
    case PushCas(op, n, top, cnt) =>
      if head != Head(top, cnt) then (Goto(s, t, PushLoad(op, n)), Silent)
      else
        var s1 := SetHead(s, isLive, Head(Some(n), cnt + 1), [n] + ListOf(s, isLive))
                  .(place := s.place[n := if isLive then Live else Spare]);
        (Goto(s1, t, Idle), if isLive then Pushed(s.value[n]) else Returned(op.r))
  }

  function Step<T>(s: State<T>, t: nat, c: Choice<T>): (State<T>, Event<T>)
    requires Sized(s) && Enabled(s, t, c)
  {
    match c
    case CallPush(v) => (Goto(s, t, PopLoad(Pushing(v))), Silent)
    case CallPop => (Goto(s, t, PopLoad(Popping)), Silent)
    case Advance(garbage) =>
      if s.pc[t].InPop() then StepPop(s, t)
      else if s.pc[t].InPush() then StepPush(s, t)
      else StepOwn(s, t, garbage)
  }

  ghost predicate Init<T>(s: State<T>) {
    && s.a == s.b == Head(None, 0)
    && s.next == [] && s.length == [] && s.value == [] && s.place == []
    && s.live == s.spare == []
    && forall t :: 0 <= t < |s.pc| ==> s.pc[t].Idle?
  }

  // ---------------------------------------------------------------------------
  // The invariant
  // ---------------------------------------------------------------------------

  /** A primitive stack: a chain without repetitions on which every `length` is the depth. */
  ghost predicate StackOk<T>(s: State<T>, isLive: bool) {
    var list := ListOf(s, isLive);
    && Chain.IsChain(HeadOf(s, isLive).node, s.next, list)
    && (forall i :: 0 <= i < |list| ==> DepthOk(s, list, i))
  }

  ghost predicate DepthOk<T>(s: State<T>, list: seq<nat>, i: nat)
    requires i < |list|
  {
    list[i] < |s.length| && s.length[list[i]] == |list| - i
  }

  ghost predicate NodeOk<T>(s: State<T>, m: nat)
    requires Sized(s) && m < |s.place|
  {
    && (s.place[m].Live? <==> m in s.live)
    && (s.place[m].Spare? <==> m in s.spare)
    && (s.place[m].With? ==> s.place[m].t < |s.pc| && s.pc[s.place[m].t].HasNode() && s.pc[s.place[m].t].n == m)
  }

  /** A snapshot whose version is still current describes the current stack. */
  ghost predicate ThreadOk<T>(s: State<T>, t: nat)
    requires Sized(s) && t < |s.pc|
  {
    var p := s.pc[t];
    && (p.HasNode() ==> s.place[p.n] == With(t))
    && (p.PopNext? || p.PopCas? ==>
          SnapshotOk(HeadOf(s, p.op.PopsLive()), Some(p.h), p.cnt))
    && (p.PopCas? && HeadOf(s, p.op.PopsLive()).counter == p.cnt ==> s.next[p.h] == p.nxt)
    && (p.PushNext? || p.PushLength? || p.PushStore? || p.PushCas? ==>
          SnapshotOk(HeadOf(s, p.op.PushesLive()), p.top, p.cnt))
    && (p.PushLength? || p.PushStore? || p.PushCas? ==> s.next[p.n] == p.top)
    && (p.PushStore? && HeadOf(s, p.op.PushesLive()).counter == p.cnt ==> p.len == |ListOf(s, p.op.PushesLive())|)
    && (p.PushCas? && HeadOf(s, p.op.PushesLive()).counter == p.cnt ==>
          s.length[p.n] == |ListOf(s, p.op.PushesLive())| + 1)
    && (p.GetValue? ==> s.value[p.n] == p.lin)
    && (p.InPush() && p.op.Pushing? ==> s.value[p.n] == p.op.v)
    && (p.InPush() && p.op.Recycling? ==> p.op.r == p.op.lin)
  }

  ghost predicate SnapshotOk(head: Head, node: Option<nat>, cnt: nat) {
    cnt <= head.counter && (cnt == head.counter ==> node == head.node)
  }

  ghost predicate Inv<T>(s: State<T>) {
    && Sized(s)
    && StackOk(s, true) && StackOk(s, false)
    && (forall m :: 0 <= m < |s.place| ==> NodeOk(s, m))
    && (forall t :: 0 <= t < |s.pc| ==> ThreadOk(s, t))
  }

  lemma {:induction false} StackFrame<T>(s: State<T>, s': State<T>, isLive: bool)
    requires StackOk(s, isLive)
    requires HeadOf(s', isLive).node == HeadOf(s, isLive).node && ListOf(s', isLive) == ListOf(s, isLive)
    requires |s.next| <= |s'.next| && |s.length| <= |s'.length|
    requires forall m :: 0 <= m < |s.next| && m in ListOf(s, isLive) ==> s'.next[m] == s.next[m]
    requires forall m :: 0 <= m < |s.length| && m in ListOf(s, isLive) ==> s'.length[m] == s.length[m]
    ensures StackOk(s', isLive)
  {
    var list := ListOf(s, isLive);
    Chain.Frame(HeadOf(s, isLive).node, s.next, s'.next, list);
    forall i | 0 <= i < |list| ensures DepthOk(s', list, i) { assert DepthOk(s, list, i); }
  }

  /** The node a head points at is the top of its stack, in nobody's hands, and knows the stack's size. */
  lemma {:induction false} TopOf<T>(s: State<T>, isLive: bool)
    requires Sized(s) && StackOk(s, isLive)
    requires HeadOf(s, isLive).node.Some? ==> NodeOk(s, HeadOf(s, isLive).node.value)
    ensures LengthOf(s, HeadOf(s, isLive).node) == |ListOf(s, isLive)|
    ensures var top := HeadOf(s, isLive).node; top.Some? ==> !s.place[top.value].With?
  {
    if ListOf(s, isLive) != [] {
      assert DepthOk(s, ListOf(s, isLive), 0);
    }
  }

  /** A stack is untouched or its version has grown. */
  ghost predicate Untouched<T>(s: State<T>, s': State<T>, isLive: bool) {
    || (HeadOf(s', isLive) == HeadOf(s, isLive) && ListOf(s', isLive) == ListOf(s, isLive))
    || HeadOf(s', isLive).counter > HeadOf(s, isLive).counter
  }

  /** What a thread knows survives the steps of others. */
  lemma {:induction false} ThreadFrame<T>(s: State<T>, s': State<T>, u: nat)
    requires Sized(s) && Sized(s') && u < |s.pc| == |s'.pc| && s'.pc[u] == s.pc[u] && ThreadOk(s, u)
    requires Untouched(s, s', true) && Untouched(s, s', false)
    requires s.pc[u].HasNode() ==>
               var n := s.pc[u].n;
               s'.place[n] == s.place[n] && s'.next[n] == s.next[n] &&
                 s'.length[n] == s.length[n] && s'.value[n] == s.value[n]
    requires s.pc[u].PopCas? && HeadOf(s, s.pc[u].op.PopsLive()).node == Some(s.pc[u].h) ==>
               s'.next[s.pc[u].h] == s.next[s.pc[u].h]
    ensures ThreadOk(s', u)
  {
  }

  lemma {:induction false} PopSized<T>(s: State<T>, t: nat)
    requires Sized(s) && t < |s.pc| && s.pc[t].InPop()
    ensures Sized(StepPop(s, t).0)
  {
  }

  lemma {:induction false} PopStack<T>(s: State<T>, t: nat, isLive: bool)
    requires Inv(s) && t < |s.pc| && s.pc[t].InPop()
    ensures StackOk(StepPop(s, t).0, isLive)
  {
    var s' := StepPop(s, t).0;
    assert ThreadOk(s, t);
    var p, list := s.pc[t], ListOf(s, isLive);
    if p.PopCas? && p.op.PopsLive() == isLive && HeadOf(s, isLive) == Head(Some(p.h), p.cnt) {
      Chain.Pop(Some(p.h), s.next, list);
      forall i | 0 <= i < |list| - 1 ensures DepthOk(s', list[1..], i) { assert DepthOk(s, list, i + 1); }
    } else {
      StackFrame(s, s', isLive);
    }
  }

  lemma {:induction false} PopNode<T>(s: State<T>, t: nat, m: nat)
    requires Inv(s) && t < |s.pc| && s.pc[t].InPop() && Sized(StepPop(s, t).0)
    requires m < |StepPop(s, t).0.place|
    ensures NodeOk(StepPop(s, t).0, m)
  {
    assert ThreadOk(s, t);
    if m < |s.place| { assert NodeOk(s, m); }
    var p := s.pc[t];
    if p.PopCas? && HeadOf(s, p.op.PopsLive()) == Head(Some(p.h), p.cnt) {
      Chain.Pop(Some(p.h), s.next, ListOf(s, p.op.PopsLive()));
    }
  }

  lemma {:induction false} PopOwnThread<T>(s: State<T>, t: nat)
    requires Sized(s) && t < |s.pc| && s.pc[t].InPop() && ThreadOk(s, t) && Sized(StepPop(s, t).0)
    requires LengthOf(s, s.a.node) == |s.live| && LengthOf(s, s.b.node) == |s.spare|
    ensures ThreadOk(StepPop(s, t).0, t)
  {
  }

  lemma {:induction false} SwingOtherThread<T>(s: State<T>, t: nat, u: nat)
    requires Sized(s) && t < |s.pc| && s.pc[t].PopCas? && ThreadOk(s, t) && Sized(StepPop(s, t).0)
    requires HeadOf(s, s.pc[t].op.PopsLive()) == Head(Some(s.pc[t].h), s.pc[t].cnt)
    requires u < |s.pc| && u != t && ThreadOk(s, u)
    requires s.a.node.Some? ==> !s.place[s.a.node.value].With?
    requires s.b.node.Some? ==> !s.place[s.b.node.value].With?
    ensures ThreadOk(StepPop(s, t).0, u)
  {
    var p, s' := s.pc[t], StepPop(s, t).0;
    assert s'.next == s.next && s'.length == s.length && s'.value == s.value && s'.pc[u] == s.pc[u];
    assert s'.place == s.place[p.h := With(t)] && !s.place[p.h].With?;
    assert HeadOf(s', p.op.PopsLive()).counter > HeadOf(s, p.op.PopsLive()).counter;
    ThreadFrame(s, s', u);
  }

  lemma {:induction false} PopOtherThread<T>(s: State<T>, t: nat, u: nat)
    requires Sized(s) && t < |s.pc| && s.pc[t].InPop() && ThreadOk(s, t) && Sized(StepPop(s, t).0)
    requires u < |s.pc| && u != t && ThreadOk(s, u)
    requires s.a.node.Some? ==> !s.place[s.a.node.value].With?
    requires s.b.node.Some? ==> !s.place[s.b.node.value].With?
    ensures ThreadOk(StepPop(s, t).0, u)
  {
    var p, s' := s.pc[t], StepPop(s, t).0;
    if p.PopCas? && HeadOf(s, p.op.PopsLive()) == Head(Some(p.h), p.cnt) {
      SwingOtherThread(s, t, u);
    } else {
      assert s' == s.(pc := s'.pc) && s'.pc[u] == s.pc[u];
      ThreadFrame(s, s', u);
    }
  }

  lemma {:induction false} PopThread<T>(s: State<T>, t: nat, u: nat)
    requires Inv(s) && t < |s.pc| && s.pc[t].InPop() && Sized(StepPop(s, t).0) && u < |s.pc|
    ensures ThreadOk(StepPop(s, t).0, u)
  {
    assert ThreadOk(s, t) && ThreadOk(s, u);
    TopOf(s, true);
    TopOf(s, false);
    if u == t { PopOwnThread(s, t); } else { PopOtherThread(s, t, u); }
  }

  lemma {:induction false} OwnSized<T>(s: State<T>, t: nat, garbage: T)
    requires Sized(s) && t < |s.pc| && (s.pc[t].Malloc? || s.pc[t].SetValue? || s.pc[t].GetValue?)
    ensures Sized(StepOwn(s, t, garbage).0)
  {
  }

  lemma {:induction false} OwnStack<T>(s: State<T>, t: nat, garbage: T, isLive: bool)
    requires Inv(s) && t < |s.pc| && (s.pc[t].Malloc? || s.pc[t].SetValue? || s.pc[t].GetValue?)
    ensures StackOk(StepOwn(s, t, garbage).0, isLive)
  {
    var s' := StepOwn(s, t, garbage).0;
    StackFrame(s, s', isLive);
  }

  lemma {:induction false} OwnNode<T>(s: State<T>, t: nat, garbage: T, m: nat)
    requires Inv(s) && t < |s.pc| && (s.pc[t].Malloc? || s.pc[t].SetValue? || s.pc[t].GetValue?)
    requires Sized(StepOwn(s, t, garbage).0)
    requires m < |StepOwn(s, t, garbage).0.place|
    ensures NodeOk(StepOwn(s, t, garbage).0, m)
  {
    assert ThreadOk(s, t);
    if m < |s.place| { assert NodeOk(s, m); }
  }

  lemma {:induction false} OwnThread<T>(s: State<T>, t: nat, garbage: T, u: nat)
    requires Inv(s) && t < |s.pc| && (s.pc[t].Malloc? || s.pc[t].SetValue? || s.pc[t].GetValue?)
    requires Sized(StepOwn(s, t, garbage).0) && u < |s.pc|
    ensures ThreadOk(StepOwn(s, t, garbage).0, u)
  {
    assert ThreadOk(s, t) && ThreadOk(s, u);
  }

  lemma {:induction false} PushSized<T>(s: State<T>, t: nat)
    requires Sized(s) && t < |s.pc| && s.pc[t].InPush()
    ensures Sized(StepPush(s, t).0)
  {
  }

  lemma {:induction false} PushStack<T>(s: State<T>, t: nat, isLive: bool)
    requires Inv(s) && t < |s.pc| && s.pc[t].InPush()
    ensures StackOk(StepPush(s, t).0, isLive)
  {
    var s' := StepPush(s, t).0;
    assert ThreadOk(s, t);
    var p, list := s.pc[t], ListOf(s, isLive);
    assert NodeOk(s, p.n);
    if p.PushCas? && p.op.PushesLive() == isLive && HeadOf(s, isLive) == Head(p.top, p.cnt) {
      Chain.Push(p.top, s.next, list, p.n);
      forall i | 0 <= i < |list| + 1 ensures DepthOk(s', [p.n] + list, i) {
        if i > 0 { assert DepthOk(s, list, i - 1); }
      }
    } else {
      StackFrame(s, s', isLive);
    }
  }

  lemma {:induction false} PushNode<T>(s: State<T>, t: nat, m: nat)
    requires Inv(s) && t < |s.pc| && s.pc[t].InPush() && Sized(StepPush(s, t).0)
    requires m < |StepPush(s, t).0.place|
    ensures NodeOk(StepPush(s, t).0, m)
  {
    assert ThreadOk(s, t);
    if m < |s.place| { assert NodeOk(s, m); }
  }

  lemma {:induction false} PushOwnThread<T>(s: State<T>, t: nat)
    requires Sized(s) && t < |s.pc| && s.pc[t].InPush() && ThreadOk(s, t) && Sized(StepPush(s, t).0)
    requires LengthOf(s, s.a.node) == |s.live| && LengthOf(s, s.b.node) == |s.spare|
    ensures ThreadOk(StepPush(s, t).0, t)
  {
  }

  /** A push step touches only the pushing thread's own node, and a head by raising its counter. */
  lemma {:induction false} PushTouches<T>(s: State<T>, t: nat)
    requires Sized(s) && t < |s.pc| && s.pc[t].InPush() && Sized(StepPush(s, t).0)
    requires s.pc[t].HasNode() && s.pc[t].n < |s.place|
    ensures var s', n := StepPush(s, t).0, s.pc[t].n;
      && Untouched(s, s', true) && Untouched(s, s', false) && s'.value == s.value && |s'.pc| == |s.pc|
      && (forall u :: 0 <= u < |s.pc| && u != t ==> s'.pc[u] == s.pc[u])
      && (forall m :: 0 <= m < |s.place| && m != n ==>
           s'.place[m] == s.place[m] && s'.next[m] == s.next[m] && s'.length[m] == s.length[m])
  {
  }

  lemma {:induction false} PushOtherThread<T>(s: State<T>, t: nat, u: nat)
    requires Sized(s) && t < |s.pc| && s.pc[t].InPush() && ThreadOk(s, t) && Sized(StepPush(s, t).0)
    requires u < |s.pc| && u != t && ThreadOk(s, u)
    requires s.a.node.Some? ==> !s.place[s.a.node.value].With?
    requires s.b.node.Some? ==> !s.place[s.b.node.value].With?
    ensures ThreadOk(StepPush(s, t).0, u)
  {
    PushTouches(s, t);
    ThreadFrame(s, StepPush(s, t).0, u);
  }

  lemma {:induction false} PushThread<T>(s: State<T>, t: nat, u: nat)
    requires Inv(s) && t < |s.pc| && s.pc[t].InPush() && Sized(StepPush(s, t).0) && u < |s.pc|
    ensures ThreadOk(StepPush(s, t).0, u)
  {
    assert ThreadOk(s, t) && ThreadOk(s, u);
    TopOf(s, true);
    TopOf(s, false);
    if u == t { PushOwnThread(s, t); } else { PushOtherThread(s, t, u); }
  }

  lemma {:induction false} PopKeepsInv<T>(s: State<T>, t: nat)
    requires Inv(s) && t < |s.pc| && s.pc[t].InPop()
    ensures Inv(StepPop(s, t).0)
  {
    var s' := StepPop(s, t).0;
    PopSized(s, t);
    PopStack(s, t, true);
    PopStack(s, t, false);
    forall m | 0 <= m < |s'.place| ensures NodeOk(s', m) { PopNode(s, t, m); }
    forall u | 0 <= u < |s.pc| ensures ThreadOk(s', u) { PopThread(s, t, u); }
  }

  lemma {:induction false} PushKeepsInv<T>(s: State<T>, t: nat)
    requires Inv(s) && t < |s.pc| && s.pc[t].InPush()
    ensures Inv(StepPush(s, t).0)
  {
    var s' := StepPush(s, t).0;
    PushSized(s, t);
    PushStack(s, t, true);
    PushStack(s, t, false);
    forall m | 0 <= m < |s'.place| ensures NodeOk(s', m) { PushNode(s, t, m); }
    forall u | 0 <= u < |s.pc| ensures ThreadOk(s', u) { PushThread(s, t, u); }
  }

  lemma {:induction false} OwnKeepsInv<T>(s: State<T>, t: nat, garbage: T)
    requires Inv(s) && t < |s.pc| && (s.pc[t].Malloc? || s.pc[t].SetValue? || s.pc[t].GetValue?)
    ensures Inv(StepOwn(s, t, garbage).0)
  {
    var s' := StepOwn(s, t, garbage).0;
    OwnSized(s, t, garbage);
    OwnStack(s, t, garbage, true);
    OwnStack(s, t, garbage, false);
    forall m | 0 <= m < |s'.place| ensures NodeOk(s', m) { OwnNode(s, t, garbage, m); }
    forall u | 0 <= u < |s.pc| ensures ThreadOk(s', u) { OwnThread(s, t, garbage, u); }
  }

  lemma {:induction false} CallKeepsInv<T>(s: State<T>, t: nat, c: Choice<T>)
    requires Inv(s) && Enabled(s, t, c) && !c.Advance?
    ensures Inv(Step(s, t, c).0)
  {
    var s' := Step(s, t, c).0;
    StackFrame(s, s', true);
    StackFrame(s, s', false);
    forall m | 0 <= m < |s'.place| ensures NodeOk(s', m) { assert NodeOk(s, m); }
    forall u | 0 <= u < |s.pc| ensures ThreadOk(s', u) { assert ThreadOk(s, u); }
  }

  lemma {:induction false} StepKeepsInv<T>(s: State<T>, t: nat, c: Choice<T>)
    requires Inv(s) && Enabled(s, t, c)
    ensures Inv(Step(s, t, c).0)
  {
    if !c.Advance? {
      CallKeepsInv(s, t, c);
    } else if s.pc[t].InPop() {
      PopKeepsInv(s, t);
    } else if s.pc[t].InPush() {
      PushKeepsInv(s, t);
    } else {
      OwnKeepsInv(s, t, c.garbage);
    }
  }

  // ---------------------------------------------------------------------------
  // Linearisation to a plain stack
  // ---------------------------------------------------------------------------

  /** The abstract stack, top first. */
  function Contents<T>(s: State<T>): seq<T>
    requires Sized(s)
  {
    seq(|s.live|, i requires 0 <= i < |s.live| => s.value[s.live[i]])
  }

  /** `size()` as the program computes it. */
  function Size<T>(s: State<T>): nat
    requires Sized(s)
  {
    LengthOf(s, s.a.node)
  }

  ghost predicate PlainStep<T>(q: seq<T>, e: Event<T>, q': seq<T>) {
    match e
    case Silent => q' == q
    case Returned(_) => q' == q
    case Pushed(v) => q' == [v] + q
    case Popped(v) => q != [] && v == q[0] && q' == q[1..]
    case PopEmpty => q == [] && q' == q
  }

  lemma {:induction false} Linearises<T>(s: State<T>, t: nat, c: Choice<T>)
    requires Inv(s) && Enabled(s, t, c) && Sized(Step(s, t, c).0)
    ensures PlainStep(Contents(s), Step(s, t, c).1, Contents(Step(s, t, c).0))
  {
    var p, s' := s.pc[t], Step(s, t, c).0;
    assert ThreadOk(s, t);
    if p.SetValue? {
      assert NodeOk(s, p.n);
      assert Contents(s') == Contents(s);
    } else if p.PopCas? && p.op.Popping? && s.a == Head(Some(p.h), p.cnt) {
      assert Contents(s') == Contents(s)[1..];
    } else if p.PushCas? && p.op.Pushing? && s.a == Head(p.top, p.cnt) {
      assert Contents(s') == [s.value[p.n]] + Contents(s);
    } else {
      assert Contents(s') == Contents(s);
    }
  }

  /** A compare-and-swap that succeeds installs the `next` that is current, although it was read earlier. */
  lemma {:induction false} SwapIsCurrent<T>(s: State<T>, t: nat)
    requires Inv(s) && t < |s.pc| && s.pc[t].PopCas?
    requires HeadOf(s, s.pc[t].op.PopsLive()) == Head(Some(s.pc[t].h), s.pc[t].cnt)
    ensures s.next[s.pc[t].h] == s.pc[t].nxt
    ensures var list := ListOf(s, s.pc[t].op.PopsLive());
            list != [] && list[0] == s.pc[t].h && s.pc[t].nxt == if |list| > 1 then Some(list[1]) else None
  {
    assert ThreadOk(s, t);
    assert Chain.Linked(s.next, ListOf(s, s.pc[t].op.PopsLive()), 0);
  }

  ghost predicate HeldBy<T>(s: State<T>, t: nat, m: nat) {
    t < |s.pc| && s.pc[t].HasNode() && s.pc[t].n == m
  }

  /** The node is on the live stack, on the recycled stack or with one thread, and in no second place. */
  ghost predicate InOnePlace<T>(s: State<T>, m: nat)
    requires Sized(s) && m < |s.next|
  {
    var live, spare := Chain.Reaches(s.a.node, s.next, m), Chain.Reaches(s.b.node, s.next, m);
    && !(live && spare)
    && (forall t: nat :: HeldBy(s, t, m) ==> !live && !spare)
    && (forall t: nat, u: nat :: HeldBy(s, t, m) && HeldBy(s, u, m) ==> t == u)
    && (live || spare || exists t: nat :: HeldBy(s, t, m))
  }

  /** Nodes are conserved. */
  lemma {:induction false} OnePlace<T>(s: State<T>, m: nat)
    requires Inv(s) && m < |s.next|
    ensures InOnePlace(s, m)
  {
    assert StackOk(s, true) && StackOk(s, false);
    Chain.ReachesIff(s.a.node, s.next, s.live, m);
    Chain.ReachesIff(s.b.node, s.next, s.spare, m);
    assert NodeOk(s, m);
    forall t: nat | HeldBy(s, t, m) ensures s.place[m] == With(t) { assert ThreadOk(s, t); }
    if s.place[m].With? {
      assert HeldBy(s, s.place[m].t, m);
    }
  }

  // ---------------------------------------------------------------------------
  // Whole runs
  // ---------------------------------------------------------------------------

  datatype Action<T> = Action(t: nat, c: Choice<T>)

  ghost predicate RunStep<T>(s: State<T>, a: Action<T>, s': State<T>, e: Event<T>) {
    Sized(s) && Enabled(s, a.t, a.c) && (s', e) == Step(s, a.t, a.c)
  }

  ghost predicate IsRun<T>(states: seq<State<T>>, acts: seq<Action<T>>, events: seq<Event<T>>) {
    && |states| == |acts| + 1 && |events| == |acts|
    && Init(states[0])
    && forall i :: 0 <= i < |acts| ==> RunStep(states[i], acts[i], states[i + 1], events[i])
  }

  lemma {:induction false} InitInv<T>(s: State<T>)
    requires Init(s)
    ensures Inv(s)
  {
  }

  lemma {:induction false} RunStepInv<T>(s: State<T>, a: Action<T>, s': State<T>, e: Event<T>)
    requires Inv(s) && RunStep(s, a, s', e)
    ensures Inv(s')
  {
    StepKeepsInv(s, a.t, a.c);
  }

  lemma {:induction false} RunInv<T>(states: seq<State<T>>, acts: seq<Action<T>>, events: seq<Event<T>>, i: nat)
    requires IsRun(states, acts, events) && i < |states|
    ensures Inv(states[i])
  {
    if i == 0 {
      InitInv(states[0]);
    } else {
      RunInv(states, acts, events, i - 1);
      RunStepInv(states[i - 1], acts[i - 1], states[i], events[i - 1]);
    }
  }

  /**
   Every interleaving linearises: the events, in the order in which they happen, are a history
   of one plain stack that starts empty, and `size()` is its height at every moment.
   */
  lemma {:induction false} RunsLinearise<T>(states: seq<State<T>>, acts: seq<Action<T>>, events: seq<Event<T>>, i: nat)
    requires IsRun(states, acts, events) && i < |states|
    ensures Sized(states[0]) && Contents(states[0]) == []
    ensures Sized(states[i]) && Size(states[i]) == |Contents(states[i])|
    ensures i < |acts| ==> Sized(states[i + 1]) && PlainStep(Contents(states[i]), events[i], Contents(states[i + 1]))
  {
    RunInv(states, acts, events, i);
    var s := states[i];
    assert s.a.node.Some? ==> NodeOk(s, s.a.node.value);
    TopOf(s, true);
    if i < |acts| {
      RunInv(states, acts, events, i + 1);
      assert RunStep(s, acts[i], states[i + 1], events[i]);
      Linearises(s, acts[i].t, acts[i].c);
    }
  }

  /** The value an outer `pop` took at its linearisation point and has not returned yet. */
  function Pending<T>(p: Pc<T>): Option<T> {
    if p.GetValue? then Some(p.lin)
    else if p.InPush() && p.op.Recycling? then Some(p.op.lin)
    else None
  }

  ghost predicate PoppedAt<T>(acts: seq<Action<T>>, events: seq<Event<T>>, i: nat, t: nat, v: T)
    requires |events| == |acts| && i < |acts|
  {
    acts[i].t == t && events[i] == Popped(v)
  }

  lemma {:induction false} OtherPcKept<T>(s: State<T>, a: Action<T>, t: nat)
    requires Sized(s) && Enabled(s, a.t, a.c) && t < |s.pc| && a.t != t
    ensures Step(s, a.t, a.c).0.pc[t] == s.pc[t]
  {
  }

  lemma {:induction false} OwnPending<T>(s: State<T>, c: Choice<T>, t: nat, v: T)
    requires Sized(s) && Enabled(s, t, c) && t < |s.pc|
    requires Pending(Step(s, t, c).0.pc[t]) == Some(v) && Pending(s.pc[t]) != Some(v)
    ensures Step(s, t, c).1 == Popped(v)
  {
  }

  lemma {:induction false} PendingStep<T>(s: State<T>, a: Action<T>, t: nat, v: T)
    requires Sized(s) && Enabled(s, a.t, a.c) && t < |s.pc|
    requires Pending(Step(s, a.t, a.c).0.pc[t]) == Some(v) && Pending(s.pc[t]) != Some(v)
    ensures a.t == t && Step(s, a.t, a.c).1 == Popped(v)
  {
    if a.t != t {
      OtherPcKept(s, a, t);
    } else {
      OwnPending(s, a.c, t, v);
    }
  }

  lemma {:induction false} PendingBefore<T>(states: seq<State<T>>, acts: seq<Action<T>>, events: seq<Event<T>>,
      t: nat, v: T, j: nat)
    requires IsRun(states, acts, events) && j < |acts|
    requires t < |states[j + 1].pc| && Pending(states[j + 1].pc[t]) == Some(v)
    ensures t < |states[j].pc| && (Pending(states[j].pc[t]) == Some(v) || PoppedAt(acts, events, j, t, v))
  {
    var s, a := states[j], acts[j];
    assert RunStep(s, a, states[j + 1], events[j]);
    if Pending(s.pc[t]) != Some(v) { PendingStep(s, a, t, v); }
  }

  lemma {:induction false} PendingWasPopped<T>(states: seq<State<T>>, acts: seq<Action<T>>, events: seq<Event<T>>,
      t: nat, v: T, j: nat)
      returns (i: nat)
    requires IsRun(states, acts, events) && j < |states|
    requires t < |states[j].pc| && Pending(states[j].pc[t]) == Some(v)
    ensures i < j && PoppedAt(acts, events, i, t, v)
    ensures forall k :: i < k <= j ==> t < |states[k].pc| && Pending(states[k].pc[t]) == Some(v)
    decreases j
  {
    assert j != 0;
    PendingBefore(states, acts, events, t, v, j - 1);
    if PoppedAt(acts, events, j - 1, t, v) {
      i := j - 1;
    } else {
      i := PendingWasPopped(states, acts, events, t, v, j - 1);
    }
  }

  /** What an outer `pop` returns is what it popped, within that same call. */
  lemma {:induction false} ReturnsWhatItPopped<T>(states: seq<State<T>>, acts: seq<Action<T>>,
      events: seq<Event<T>>, j: nat)
    requires IsRun(states, acts, events) && j < |acts| && events[j].Returned?
    ensures exists i: nat :: i < j && PoppedAt(acts, events, i, acts[j].t, events[j].v)
              && forall k :: i < k <= j ==> acts[j].t < |states[k].pc| && !states[k].pc[acts[j].t].Idle?
  {
    var s, t := states[j], acts[j].t;
    assert RunStep(s, acts[j], states[j + 1], events[j]);
    RunInv(states, acts, events, j);
    assert ThreadOk(s, t);
    var i := PendingWasPopped(states, acts, events, t, events[j].v, j);
    assert PoppedAt(acts, events, i, t, events[j].v);
  }

  /** The call a thread is in, with its argument. */
  function CallOf<T>(p: Pc<T>): Option<Choice<T>> {
    match p
    case Idle => None
    case GetValue(_, _) => Some(CallPop)
    case _ => if p.op.Pushing? then Some(CallPush(p.op.v)) else Some(CallPop)
  }

  lemma {:induction false} CallStarts<T>(s: State<T>, c: Choice<T>, t: nat)
    requires Sized(s) && Enabled(s, t, c)
    ensures var after := Step(s, t, c).0.pc[t];
            !after.Idle? && CallOf(after) != CallOf(s.pc[t]) ==> CallOf(after) == Some(c)
  {
  }

  lemma {:induction false} CallBefore<T>(states: seq<State<T>>, acts: seq<Action<T>>, events: seq<Event<T>>, t: nat,
      c: Choice<T>, j: nat)
    requires IsRun(states, acts, events) && j < |acts|
    requires t < |states[j + 1].pc| && CallOf(states[j + 1].pc[t]) == Some(c)
    ensures t < |states[j].pc| && (CallOf(states[j].pc[t]) == Some(c) || acts[j] == Action(t, c))
  {
    var s, a := states[j], acts[j];
    assert RunStep(s, a, states[j + 1], events[j]);
    if a.t == t {
      CallStarts(s, a.c, t);
    } else {
      OtherPcKept(s, a, t);
    }
  }

  /** A call in progress was made by an earlier action of its thread and has gone on since. */
  lemma {:induction false} CallWasMade<T>(states: seq<State<T>>, acts: seq<Action<T>>, events: seq<Event<T>>,
      t: nat, c: Choice<T>, j: nat)
      returns (i: nat)
    requires IsRun(states, acts, events) && j < |states|
    requires t < |states[j].pc| && CallOf(states[j].pc[t]) == Some(c)
    ensures i < j && acts[i] == Action(t, c)
    ensures forall k :: i < k <= j ==> t < |states[k].pc| && CallOf(states[k].pc[t]) == Some(c)
    decreases j
  {
    assert j != 0;
    CallBefore(states, acts, events, t, c, j - 1);
    if acts[j - 1] == Action(t, c) {
      i := j - 1;
    } else {
      i := CallWasMade(states, acts, events, t, c, j - 1);
    }
  }

  /** The call an event belongs to. */
  function CallFor<T>(e: Event<T>): Choice<T> {
    if e.Pushed? then CallPush(e.v) else CallPop
  }

  lemma {:induction false} EventIsOfCall<T>(s: State<T>, t: nat, c: Choice<T>)
    requires Inv(s) && Enabled(s, t, c) && !Step(s, t, c).1.Silent?
    ensures CallOf(s.pc[t]) == Some(CallFor(Step(s, t, c).1))
  {
    assert ThreadOk(s, t);
  }

  /**
   Every event happens within a call of its thread: a push pushes the argument of its call, and
   a value is popped, a stack found empty or a value returned within a call of `pop`.
   */
  lemma {:induction false} EventsAreCalled<T>(states: seq<State<T>>, acts: seq<Action<T>>, events: seq<Event<T>>,
      j: nat)
    requires IsRun(states, acts, events) && j < |acts| && !events[j].Silent?
    ensures exists i: nat :: i < j && acts[i] == Action(acts[j].t, CallFor(events[j]))
              && forall k :: i < k <= j ==> acts[j].t < |states[k].pc| && !states[k].pc[acts[j].t].Idle?
  {
    var s, t := states[j], acts[j].t;
    assert RunStep(s, acts[j], states[j + 1], events[j]);
    RunInv(states, acts, events, j);
    EventIsOfCall(s, t, acts[j].c);
    var i := CallWasMade(states, acts, events, t, CallFor(events[j]), j);
    assert acts[i] == Action(t, CallFor(events[j]));
  }

  /** In every state of every run each node allocated so far is in exactly one place. */
  lemma {:induction false} RunsConserve<T>(states: seq<State<T>>, acts: seq<Action<T>>, events: seq<Event<T>>,
      i: nat, m: nat)
    requires IsRun(states, acts, events) && i < |states| && m < |states[i].next|
    ensures Sized(states[i]) && InOnePlace(states[i], m)
  {
    RunInv(states, acts, events, i);
    OnePlace(states[i], m);
  }

  /** The events at which an operation takes effect. */
  predicate TakesEffect<T>(e: Event<T>) { e.Pushed? || e.Popped? || e.PopEmpty? }

  function One(b: bool): nat { if b then 1 else 0 }

  /** How often an operation of thread `t` took effect in the steps from `i` to `k`. */
  ghost function Effects<T>(acts: seq<Action<T>>, events: seq<Event<T>>, t: nat, i: nat, k: nat): nat
    requires |events| == |acts| && i <= k <= |acts|
    decreases k
  {
    if k == i then 0
    else Effects(acts, events, t, i, k - 1) + One(acts[k - 1].t == t && TakesEffect(events[k - 1]))
  }

  /** After a step of a call it has taken effect once at the latest when it returns. */
  ghost predicate EffectAdds<T>(s: State<T>, t: nat, r: (State<T>, Event<T>))
    requires t < |s.pc|
  {
    && t < |r.0.pc|
    && One(Pending(s.pc[t]).Some?) + One(TakesEffect(r.1)) ==
         if r.0.pc[t].Idle? then 1 else One(Pending(r.0.pc[t]).Some?)
  }

  lemma {:induction false} PopEffect<T>(s: State<T>, t: nat)
    requires Sized(s) && t < |s.pc| && s.pc[t].InPop()
    ensures EffectAdds(s, t, StepPop(s, t))
  {
  }

  lemma {:induction false} PushEffect<T>(s: State<T>, t: nat)
    requires Sized(s) && t < |s.pc| && s.pc[t].InPush()
    ensures EffectAdds(s, t, StepPush(s, t))
  {
  }

  lemma {:induction false} OwnEffect<T>(s: State<T>, t: nat, garbage: T)
    requires Sized(s) && Enabled(s, t, Advance(garbage))
    ensures EffectAdds(s, t, Step(s, t, Advance(garbage)))
  {
    if s.pc[t].InPop() {
      PopEffect(s, t);
    } else if s.pc[t].InPush() {
      PushEffect(s, t);
    }
  }

  ghost predicate Busy<T>(states: seq<State<T>>, t: nat, k: nat)
    requires k < |states|
  {
    t < |states[k].pc| && !states[k].pc[t].Idle?
  }

  lemma {:induction false} EffectStep<T>(states: seq<State<T>>, acts: seq<Action<T>>, events: seq<Event<T>>, t: nat,
      k: nat)
    requires IsRun(states, acts, events) && k < |acts| && Busy(states, t, k)
    ensures t < |states[k + 1].pc|
    ensures One(Pending(states[k].pc[t]).Some?) + One(acts[k].t == t && TakesEffect(events[k])) ==
      if states[k + 1].pc[t].Idle? then 1 else One(Pending(states[k + 1].pc[t]).Some?)
  {
    var s, a := states[k], acts[k];
    assert RunStep(s, a, states[k + 1], events[k]);
    if a.t == t {
      OwnEffect(s, t, a.c.garbage);
    } else {
      OtherPcKept(s, a, t);
    }
  }

  /** A call starts at step `i` and has not returned before step `k`. */
  ghost predicate InCall<T>(states: seq<State<T>>, acts: seq<Action<T>>, t: nat, i: nat, k: nat)
    requires |states| == |acts| + 1 && i < k <= |acts|
  {
    acts[i].t == t && !acts[i].c.Advance? && forall m :: i < m <= k ==> Busy(states, t, m)
  }

  lemma {:induction false} CallBegins<T>(states: seq<State<T>>, acts: seq<Action<T>>, events: seq<Event<T>>, t: nat,
      i: nat)
    requires IsRun(states, acts, events) && i < |acts| && acts[i].t == t && !acts[i].c.Advance?
    ensures events[i].Silent? && t < |states[i + 1].pc| && Pending(states[i + 1].pc[t]).None?
  {
    assert RunStep(states[i], acts[i], states[i + 1], events[i]);
  }

  lemma {:induction false} EffectsSoFar<T>(states: seq<State<T>>, acts: seq<Action<T>>, events: seq<Event<T>>,
      t: nat, i: nat, k: nat)
    requires IsRun(states, acts, events) && i < k <= |acts| && InCall(states, acts, t, i, k)
    ensures Busy(states, t, k) && Effects(acts, events, t, i, k) == One(Pending(states[k].pc[t]).Some?)
    decreases k
  {
    assert Busy(states, t, k);
    if k == i + 1 {
      CallBegins(states, acts, events, t, i);
      assert Effects(acts, events, t, i, i) == 0;
    } else {
      assert Busy(states, t, k - 1);
      EffectsSoFar(states, acts, events, t, i, k - 1);
      EffectStep(states, acts, events, t, k - 1);
    }
  }

  /** A call that starts at step `i` and returns at step `j` takes effect exactly once in between. */
  lemma {:induction false} TakesEffectOnce<T>(states: seq<State<T>>, acts: seq<Action<T>>, events: seq<Event<T>>,
      t: nat, i: nat, j: nat)
    requires IsRun(states, acts, events) && i < j < |acts| && InCall(states, acts, t, i, j)
    requires t < |states[j + 1].pc| && states[j + 1].pc[t].Idle?
    ensures Effects(acts, events, t, i, j + 1) == 1
  {
    EffectsSoFar(states, acts, events, t, i, j);
    EffectStep(states, acts, events, t, j);
  }

  // ---------------------------------------------------------------------------
  // A thread by itself
  // ---------------------------------------------------------------------------

  /** `n` steps of one thread, or fewer if its call returns, and the last event. */
  ghost function Alone<T>(s: State<T>, t: nat, garbage: T, n: nat): (State<T>, Event<T>)
    requires Inv(s) && t < |s.pc|
    decreases n
  {
    if n == 0 || s.pc[t].Idle? then (s, Silent)
    else
      StepKeepsInv(s, t, Advance(garbage));
      var r := Step(s, t, Advance(garbage));
      if r.0.pc[t].Idle? then r else Alone(r.0, t, garbage, n - 1)
  }

  lemma {:induction false} AloneNext<T>(s: State<T>, t: nat, garbage: T, n: nat)
    requires Inv(s) && t < |s.pc| && !s.pc[t].Idle? && 0 < n
    ensures Inv(Step(s, t, Advance(garbage)).0) && |Step(s, t, Advance(garbage)).0.pc| == |s.pc|
    ensures var r := Step(s, t, Advance(garbage));
      Alone(s, t, garbage, n) == if r.0.pc[t].Idle? then r else Alone(r.0, t, garbage, n - 1)
  {
    StepKeepsInv(s, t, Advance(garbage));
  }

  /** A primitive pop from a stack that has nodes takes the first one. */
  lemma {:induction false} PopsFirst<T>(s: State<T>, t: nat, garbage: T, n: nat) returns (s': State<T>)
    requires Inv(s) && t < |s.pc| && s.pc[t].PopLoad? && ListOf(s, s.pc[t].op.PopsLive()) != [] && 3 <= n
    ensures Inv(s') && |s'.pc| == |s.pc| && Alone(s, t, garbage, n) == Alone(s', t, garbage, n - 3)
    ensures s'.next == s.next && s'.value == s.value
    ensures if s.pc[t].op.PopsLive()
      then s'.pc[t] == GetValue(s.live[0], s.value[s.live[0]]) && s'.live == s.live[1..] && s'.spare == s.spare
      else s'.pc[t] == SetValue(s.pc[t].op, s.spare[0]) && s'.spare == s.spare[1..] && s'.live == s.live
  {
    AloneNext(s, t, garbage, n);
    var s1 := Step(s, t, Advance(garbage)).0;
    AloneNext(s1, t, garbage, n - 1);
    var s2 := Step(s1, t, Advance(garbage)).0;
    AloneNext(s2, t, garbage, n - 2);
    s' := Step(s2, t, Advance(garbage)).0;
  }

  lemma {:induction false} PushPrepares<T>(s: State<T>, t: nat, garbage: T, n: nat) returns (s': State<T>)
    requires Inv(s) && t < |s.pc| && s.pc[t].PushLoad? && 5 <= n
    ensures Inv(s') && |s'.pc| == |s.pc| && Alone(s, t, garbage, n) == Alone(s', t, garbage, n - 4)
    ensures var op, head := s.pc[t].op, HeadOf(s, s.pc[t].op.PushesLive());
      s'.pc[t] == PushCas(op, s.pc[t].n, head.node, head.counter)
    ensures s'.a == s.a && s'.b == s.b && s'.live == s.live && s'.spare == s.spare
    ensures |s'.next| == |s.next| && s'.value == s.value
  {
    AloneNext(s, t, garbage, n);
    var s1 := Step(s, t, Advance(garbage)).0;
    AloneNext(s1, t, garbage, n - 1);
    var s2 := Step(s1, t, Advance(garbage)).0;
    AloneNext(s2, t, garbage, n - 2);
    var s3 := Step(s2, t, Advance(garbage)).0;
    AloneNext(s3, t, garbage, n - 3);
    s' := Step(s3, t, Advance(garbage)).0;
  }

  /** A primitive push makes the node the first one. */
  lemma {:induction false} PushesFirst<T>(s: State<T>, t: nat, garbage: T, n: nat)
    requires Inv(s) && t < |s.pc| && s.pc[t].PushLoad? && 5 <= n
    ensures var (s', e) := Alone(s, t, garbage, n);
      var op, m := s.pc[t].op, s.pc[t].n;
      && Sized(s') && t < |s'.pc| && s'.pc[t].Idle?
      && e == (if op.Pushing? then Pushed(op.v) else Returned(op.r))
      && |s'.next| == |s.next| && s'.value == s.value
      && s'.live == (if op.Pushing? then [m] + s.live else s.live)
      && s'.spare == (if op.Pushing? then s.spare else [m] + s.spare)
  {
    assert ThreadOk(s, t);
    var s1 := PushPrepares(s, t, garbage, n);
    AloneNext(s1, t, garbage, n - 4);
  }

  lemma {:induction false} PopRecycles<T>(s: State<T>, t: nat, garbage: T, n: nat)
    requires 9 <= n && Inv(s) && t < |s.pc| && s.pc[t] == PopLoad(Popping) && s.live != []
    ensures var (s', e) := Alone(s, t, garbage, n);
      && Sized(s') && t < |s'.pc| && s'.pc[t].Idle? && |s'.next| == |s.next|
      && e == Returned(Contents(s)[0]) && Contents(s') == Contents(s)[1..] && s'.spare == [s.live[0]] + s.spare
  {
    var s1 := PopsFirst(s, t, garbage, n);
    AloneNext(s1, t, garbage, n - 3);
    var s2 := Step(s1, t, Advance(garbage)).0;
    assert s2.pc[t] == PushLoad(Recycling(s.value[s.live[0]], s.value[s.live[0]]), s.live[0]);
    PushesFirst(s2, t, garbage, n - 4);
    var s' := Alone(s, t, garbage, n).0;
    assert s'.live == s.live[1..] && s'.value == s.value;
    assert Contents(s') == Contents(s)[1..];
  }

  /** An undisturbed pop returns the top and recycles its node; it answers empty only if there is none. */
  lemma {:induction false} PopAlone<T>(s: State<T>, t: nat, garbage: T, n: nat)
    requires 9 <= n && Inv(s) && t < |s.pc| && s.pc[t].Idle?
    ensures Inv(Step(s, t, CallPop).0) && t < |Step(s, t, CallPop).0.pc|
    ensures var (s', e) := Alone(Step(s, t, CallPop).0, t, garbage, n);
      && Sized(s') && t < |s'.pc| && s'.pc[t].Idle? && |s'.next| == |s.next|
      && (s.live == [] ==> e == PopEmpty && s'.live == [] && s'.spare == s.spare)
      && (s.live != [] ==> e == Returned(Contents(s)[0]) && Contents(s') == Contents(s)[1..]
                           && s'.spare == [s.live[0]] + s.spare)
  {
    StepKeepsInv(s, t, CallPop);
    var s1 := Step(s, t, CallPop).0;
    if s.live == [] {
      AloneNext(s1, t, garbage, n);
    } else {
      PopRecycles(s1, t, garbage, n);
      assert Contents(s1) == Contents(s);
    }
  }

  lemma {:induction false} SameContents<T>(s: State<T>, s': State<T>)
    requires Sized(s) && Sized(s') && s'.live == s.live && s.value <= s'.value
    ensures Contents(s') == Contents(s)
  {
  }

  lemma {:induction false} PushAllocates<T>(s: State<T>, t: nat, garbage: T, n: nat) returns (s': State<T>)
    requires Inv(s) && t < |s.pc| && s.pc[t].PopLoad? && s.pc[t].op.Pushing? && s.spare == [] && 2 <= n
    ensures Inv(s') && |s'.pc| == |s.pc| && Alone(s, t, garbage, n) == Alone(s', t, garbage, n - 2)
    ensures s'.pc[t].SetValue? && s'.pc[t].op == s.pc[t].op
    ensures |s'.next| == |s.next| + 1 && s'.live == s.live && s'.spare == [] && s'.value == s.value + [garbage]
  {
    AloneNext(s, t, garbage, n);
    var s1 := Step(s, t, Advance(garbage)).0;
    AloneNext(s1, t, garbage, n - 1);
    s' := Step(s1, t, Advance(garbage)).0;
  }

  /** A push gets a node: the first recycled one, or a new one only if there is none. */
  lemma {:induction false} PushGetsNode<T>(s: State<T>, t: nat, garbage: T, n: nat)
    returns (s': State<T>, left: nat)
    requires 9 <= n && Inv(s) && t < |s.pc| && s.pc[t].PopLoad? && s.pc[t].op.Pushing?
    ensures Inv(s') && |s'.pc| == |s.pc| && 6 <= left && Alone(s, t, garbage, n) == Alone(s', t, garbage, left)
    ensures s'.pc[t].SetValue? && s'.pc[t].op == s.pc[t].op && Contents(s') == Contents(s)
    ensures |s'.next| == |s.next| + (if s.spare == [] then 1 else 0)
    ensures s'.spare == (if s.spare == [] then [] else s.spare[1..])
  {
    if s.spare == [] {
      s' := PushAllocates(s, t, garbage, n);
      left := n - 2;
    } else {
      s' := PopsFirst(s, t, garbage, n);
      left := n - 3;
    }
    SameContents(s, s');
  }

  lemma {:induction false} OneMore<T>(s: State<T>, s': State<T>, m: nat, v: T)
    requires Sized(s) && Sized(s') && m < |s.value| && m !in s.live
    requires s'.live == [m] + s.live && s'.value == s.value[m := v]
    ensures Contents(s') == [v] + Contents(s)
  {
  }

  /** Then it sets the value, which nobody else sees, and pushes the node. */
  lemma {:induction false} PushSetsValue<T>(s: State<T>, t: nat, garbage: T, n: nat)
    requires Inv(s) && t < |s.pc| && s.pc[t].SetValue? && s.pc[t].op.Pushing? && 6 <= n
    ensures var (s', e) := Alone(s, t, garbage, n);
      var v := s.pc[t].op.v;
      && Sized(s') && t < |s'.pc| && s'.pc[t].Idle? && e == Pushed(v) && Contents(s') == [v] + Contents(s)
      && |s'.next| == |s.next| && s'.spare == s.spare
  {
    assert ThreadOk(s, t) && NodeOk(s, s.pc[t].n);
    AloneNext(s, t, garbage, n);
    var s1 := Step(s, t, Advance(garbage)).0;
    PushesFirst(s1, t, garbage, n - 1);
    OneMore(s, Alone(s1, t, garbage, n - 1).0, s.pc[t].n, s.pc[t].op.v);
  }

  /** An undisturbed push puts its value on top; it allocates only if no node can be reused. */
  lemma {:induction false} PushAlone<T>(s: State<T>, t: nat, v: T, garbage: T, n: nat)
    requires 9 <= n && Inv(s) && t < |s.pc| && s.pc[t].Idle?
    ensures Inv(Step(s, t, CallPush(v)).0) && t < |Step(s, t, CallPush(v)).0.pc|
    ensures var (s', e) := Alone(Step(s, t, CallPush(v)).0, t, garbage, n);
      && Sized(s') && t < |s'.pc| && s'.pc[t].Idle? && e == Pushed(v) && Contents(s') == [v] + Contents(s)
      && |s'.next| == |s.next| + (if s.spare == [] then 1 else 0)
      && s'.spare == (if s.spare == [] then [] else s.spare[1..])
  {
    StepKeepsInv(s, t, CallPush(v));
    var s1 := Step(s, t, CallPush(v)).0;
    assert Contents(s1) == Contents(s);
    var s2, left := PushGetsNode(s1, t, garbage, n);
    PushSetsValue(s2, t, garbage, left);
  }
}
