/**
 The single-producer single-consumer ring: `write` and `read` interleaved at the granularity
 of index loads, slot accesses and index stores.  A slot is `None` while it is raw memory.
 `written` and `taken` are history variables: the items published by the producer and the
 items released by the consumer, in order.
 */
module SpscRing {
  import opened Basics

  datatype Producer<T> =
    | PIdle
    | PLoaded(x: T, at: nat)
    | PFree(x: T, at: nat)
    | PBuilt(x: T, at: nat)

  datatype Consumer<T> =
    | CIdle
    | CLoaded(at: nat)
    | CFull(at: nat)
    | CMoved(x: T, at: nat)
    | CCleared(x: T, at: nat)

  datatype State<T> = State(
    size: nat, slots: seq<Option<T>>, readIndex: nat, writeIndex: nat,
    p: Producer<T>, c: Consumer<T>,
    written: seq<T>, taken: seq<T>)

  /** What a step lets the two callers see. */
  datatype Event<T> = Silent | WriteOk(x: T) | WriteFull | ReadOk(x: T) | ReadEmpty

  datatype Choice<T> = CallWrite(x: T) | CallRead | StepProducer | StepConsumer

  function Bump(size: nat, i: nat): nat {
    if i + 1 == size then 0 else i + 1
  }

  predicate Enabled<T>(s: State<T>, a: Choice<T>) {
    match a
    case CallWrite(_) => s.p.PIdle?
    case CallRead => s.c.CIdle?
    case StepProducer => !s.p.PIdle? && (s.p.PFree? ==> s.p.at < |s.slots|)
    case StepConsumer =>
      !s.c.CIdle? &&
        (s.c.CFull? ==> s.c.at < |s.slots| && s.slots[s.c.at].Some?) && (s.c.CMoved? ==> s.c.at < |s.slots|)
  }

  function Step<T>(s: State<T>, a: Choice<T>): (State<T>, Event<T>)
    requires Enabled(s, a)
  {
    match a
    case CallWrite(x) => (s.(p := PLoaded(x, s.writeIndex)), Silent)
    case CallRead => (s.(c := CLoaded(s.readIndex)), Silent)
    case StepProducer =>
      (match s.p
       case PLoaded(x, at) =>
         if Bump(s.size, at) != s.readIndex then (s.(p := PFree(x, at)), Silent) else (s.(p := PIdle), WriteFull)
       case PFree(x, at) => (s.(slots := s.slots[at := Some(x)], p := PBuilt(x, at)), Silent)
       case PBuilt(x, at) =>
         (s.(writeIndex := Bump(s.size, at), p := PIdle, written := s.written + [x]), WriteOk(x)))
    case StepConsumer =>
      (match s.c
       case CLoaded(at) =>
         if at == s.writeIndex then (s.(c := CIdle), ReadEmpty) else (s.(c := CFull(at)), Silent)
       case CFull(at) => (s.(c := CMoved(s.slots[at].value, at)), Silent)
       case CMoved(x, at) => (s.(slots := s.slots[at := None], c := CCleared(x, at)), Silent)
       case CCleared(x, at) =>
         (s.(readIndex := Bump(s.size, at), c := CIdle, taken := s.taken + [x]), ReadOk(x)))
  }

  ghost predicate Init<T>(s: State<T>) {
    && s.size >= 2 && |s.slots| == s.size
    && s.readIndex == s.writeIndex == 0
    && s.p.PIdle? && s.c.CIdle?
    && s.written == s.taken == []
    && forall i :: 0 <= i < s.size ==> s.slots[i].None?
  }

  // ---------------------------------------------------------------------------
  // Positions on the ring
  // ---------------------------------------------------------------------------

  /** The slot of the `k`-th item ever written. */
  function Slot(size: nat, k: nat): nat {
    if k == 0 then 0 else Bump(size, Slot(size, k - 1))
  }

  lemma {:induction false} SlotWindow(size: nat, k: nat, d: nat)
    requires size >= 2 && d < size
    ensures Slot(size, k) < size
    ensures Slot(size, k + d) == if Slot(size, k) + d < size then Slot(size, k) + d else Slot(size, k) + d - size
    decreases d, k
  {
    if d > 0 {
      SlotWindow(size, k, d - 1);
    } else if k > 0 {
      SlotWindow(size, k - 1, 0);
    }
  }

  // ---------------------------------------------------------------------------
  // The invariant
  // ---------------------------------------------------------------------------

  /** The abstract queue: published and not yet released. */
  function Queue<T>(s: State<T>): seq<T>
    requires |s.taken| <= |s.written|
  {
    s.written[|s.taken|..]
  }

  ghost predicate Counters<T>(s: State<T>) {
    && s.size >= 2 && |s.slots| == s.size
    && |s.taken| <= |s.written| <= |s.taken| + s.size - 1
    && s.readIndex == Slot(s.size, |s.taken|)
    && s.writeIndex == Slot(s.size, |s.written|)
    && s.taken == s.written[..|s.taken|]
  }

  ghost predicate ProducerOk<T>(s: State<T>) {
    && (!s.p.PIdle? ==> s.p.at == s.writeIndex)
    && (s.p.PFree? || s.p.PBuilt? ==> |s.written| - |s.taken| < s.size - 1)
  }

  ghost predicate ConsumerOk<T>(s: State<T>) {
    && (!s.c.CIdle? ==> s.c.at == s.readIndex)
    && (s.c.CFull? || s.c.CMoved? || s.c.CCleared? ==> |s.taken| < |s.written|)
    && (s.c.CMoved? || s.c.CCleared? ==> |s.taken| < |s.written| && s.c.x == s.written[|s.taken|])
  }

  /** The live slots hold the queued items; `j` counts from the oldest. */
  ghost predicate SlotOk<T>(s: State<T>, j: nat) {
    var at := Slot(s.size, |s.taken| + j);
    at < |s.slots| ==>
      s.slots[at] ==
      if j == 0 && s.c.CCleared? then None
      else if 0 <= j < |s.written| - |s.taken| then Some(s.written[|s.taken| + j])
      else if j == |s.written| - |s.taken| && s.p.PBuilt? then Some(s.p.x)
      else None
  }

  ghost predicate Inv<T>(s: State<T>) {
    && Counters(s)
    && ProducerOk(s)
    && ConsumerOk(s)
    && (forall j :: 0 <= j < s.size ==> SlotOk(s, j))
  }

  lemma {:induction false} SlotsApart(size: nat, k: nat, i: nat, j: nat)
    requires size >= 2 && i < size && j < size && i != j
    ensures Slot(size, k + i) != Slot(size, k + j)
  {
    SlotWindow(size, k, i);
    SlotWindow(size, k, j);
  }

  lemma {:induction false} SlotWraps(size: nat, k: nat)
    requires size >= 2
    ensures Slot(size, k + size) == Slot(size, k) < size
  {
    SlotWindow(size, k, size - 1);
    assert Slot(size, k + size) == Bump(size, Slot(size, k + size - 1));
  }

  lemma {:induction false} InitInv<T>(s: State<T>)
    requires Init(s)
    ensures Inv(s)
  {
  }

  ghost predicate AccessesOk<T>(s: State<T>) {
    && (s.p.PFree? ==> s.p.at < |s.slots| && s.slots[s.p.at] == None)
    && (s.c.CFull? || s.c.CMoved? ==>
          s.c.at < |s.slots| && |s.taken| < |s.written| && s.slots[s.c.at] == Some(s.written[|s.taken|]))
    && ((s.p.PFree? || s.p.PBuilt?) && !s.c.CIdle? && !s.c.CLoaded? ==> s.p.at != s.c.at)
  }

  /** The slot the producer is about to fill is raw memory, and the one the consumer is about to empty is not. */
  lemma {:induction false} AccessOk<T>(s: State<T>)
    requires Inv(s)
    ensures AccessesOk(s)
  {
    var n := |s.written| - |s.taken|;
    SlotWindow(s.size, |s.taken|, 0);
    assert SlotOk(s, 0);
    if n < s.size - 1 {
      SlotWindow(s.size, |s.taken|, n);
      assert SlotOk(s, n);
    }
  }

  lemma {:induction false} ProducerKeepsSlots<T>(s: State<T>, j: nat)
    requires Inv(s) && Enabled(s, StepProducer) && j < s.size
    ensures SlotOk(Step(s, StepProducer).0, j)
  {
    var n := |s.written| - |s.taken|;
    assert SlotOk(s, j);
    if j != n {
      SlotsApart(s.size, |s.taken|, n, j);
    }
  }

  lemma {:induction false} ConsumerKeepsSlots<T>(s: State<T>, j: nat)
    requires Inv(s) && Enabled(s, StepConsumer) && j < s.size
    ensures SlotOk(Step(s, StepConsumer).0, j)
  {
    if s.c.CCleared? {
      SlotWraps(s.size, |s.taken|);
      if j + 1 < s.size {
        assert SlotOk(s, j + 1);
      } else {
        assert SlotOk(s, 0);
      }
    } else {
      assert SlotOk(s, j);
      if j != 0 {
        SlotsApart(s.size, |s.taken|, 0, j);
      }
    }
  }

  ghost predicate CountersOk<T>(s: State<T>) { Counters(s) && ProducerOk(s) && ConsumerOk(s) }

  lemma {:induction false} ProducerKeepsCounters<T>(s: State<T>)
    requires Inv(s) && Enabled(s, StepProducer)
    ensures CountersOk(Step(s, StepProducer).0)
  {
    SlotWindow(s.size, |s.taken|, |s.written| - |s.taken|);
    SlotWraps(s.size, |s.taken|);
  }

  lemma {:induction false} ConsumerKeepsCounters<T>(s: State<T>)
    requires Inv(s) && Enabled(s, StepConsumer)
    ensures CountersOk(Step(s, StepConsumer).0)
  {
    AccessOk(s);
    SlotWindow(s.size, |s.taken|, |s.written| - |s.taken|);
  }

  lemma {:induction false} CountersKept<T>(s: State<T>, a: Choice<T>)
    requires Inv(s) && Enabled(s, a)
    ensures CountersOk(Step(s, a).0)
  {
    if a.StepProducer? {
      ProducerKeepsCounters(s);
    } else if a.StepConsumer? {
      ConsumerKeepsCounters(s);
    }
  }

  lemma {:induction false} StepKeepsInv<T>(s: State<T>, a: Choice<T>)
    requires Inv(s) && Enabled(s, a)
    ensures Inv(Step(s, a).0)
  {
    var s' := Step(s, a).0;
    CountersKept(s, a);
    forall j | 0 <= j < s.size ensures SlotOk(s', j) {
      if a.StepProducer? {
        ProducerKeepsSlots(s, j);
      } else if a.StepConsumer? {
        ConsumerKeepsSlots(s, j);
      } else {
        assert SlotOk(s, j);
      }
    }
  }

  // ---------------------------------------------------------------------------
  // Refinement of a bounded queue, and whole runs
  // ---------------------------------------------------------------------------

  /** One step of a FIFO queue that holds at most `size - 1` items. */
  ghost predicate QueueStep<T>(size: nat, q: seq<T>, e: Event<T>, q': seq<T>) {
    match e
    case Silent => q' == q
    case WriteOk(x) => |q| < size - 1 && q' == q + [x]
    case WriteFull => |q| == size - 1 && q' == q
    case ReadOk(x) => q != [] && x == q[0] && q' == q[1..]
    case ReadEmpty => q == [] && q' == q
  }

  lemma {:induction false} ProducerRefines<T>(s: State<T>)
    requires Inv(s) && Enabled(s, StepProducer) && Inv(Step(s, StepProducer).0)
    ensures QueueStep(s.size, Queue(s), Step(s, StepProducer).1, Queue(Step(s, StepProducer).0))
  {
    SlotWindow(s.size, |s.taken|, |s.written| - |s.taken|);
    SlotWraps(s.size, |s.taken|);
  }

  lemma {:induction false} ConsumerRefines<T>(s: State<T>)
    requires Inv(s) && Enabled(s, StepConsumer) && Inv(Step(s, StepConsumer).0)
    ensures QueueStep(s.size, Queue(s), Step(s, StepConsumer).1, Queue(Step(s, StepConsumer).0))
  {
    SlotWindow(s.size, |s.taken|, |s.written| - |s.taken|);
  }

  lemma {:induction false} Refines<T>(s: State<T>, a: Choice<T>)
    requires Inv(s) && Enabled(s, a)
    ensures Inv(Step(s, a).0)
    ensures QueueStep(s.size, Queue(s), Step(s, a).1, Queue(Step(s, a).0))
  {
    StepKeepsInv(s, a);
    if a.StepProducer? {
      ProducerRefines(s);
    } else if a.StepConsumer? {
      ConsumerRefines(s);
    }
  }

  ghost predicate CanGoOn<T>(s: State<T>) {
    (!s.p.PIdle? ==> Enabled(s, StepProducer)) && (!s.c.CIdle? ==> Enabled(s, StepConsumer))
  }

  /** No access ever finds a slot in the wrong state, so a call in progress can always go on. */
  lemma {:induction false} NeverStuck<T>(s: State<T>)
    requires Inv(s)
    ensures CanGoOn(s)
  {
    AccessOk(s);
  }

  ghost predicate RunStep<T>(s: State<T>, a: Choice<T>, s': State<T>) {
    Enabled(s, a) && s' == Step(s, a).0
  }

  ghost predicate IsRun<T>(states: seq<State<T>>, acts: seq<Choice<T>>) {
    && |states| == |acts| + 1
    && Init(states[0])
    && forall i :: 0 <= i < |acts| ==> RunStep(states[i], acts[i], states[i + 1])
  }

  lemma {:induction false} RunInv<T>(states: seq<State<T>>, acts: seq<Choice<T>>, i: nat)
    requires IsRun(states, acts) && i < |states|
    ensures Inv(states[i]) && states[i].size == states[0].size
  {
    if i > 0 {
      RunInv(states, acts, i - 1);
      assert RunStep(states[i - 1], acts[i - 1], states[i]);
      StepKeepsInv(states[i - 1], acts[i - 1]);
    }
  }

  /** The items the callers saw enter and leave the queue during the first `i` steps. */
  ghost function Entered<T>(states: seq<State<T>>, acts: seq<Choice<T>>, i: nat): seq<T>
    requires IsRun(states, acts) && i <= |acts|
  {
    if i == 0 then [] else
      assert RunStep(states[i - 1], acts[i - 1], states[i]);
      var e := Step(states[i - 1], acts[i - 1]).1;
      Entered(states, acts, i - 1) + if e.WriteOk? then [e.x] else []
  }

  ghost function Left<T>(states: seq<State<T>>, acts: seq<Choice<T>>, i: nat): seq<T>
    requires IsRun(states, acts) && i <= |acts|
  {
    if i == 0 then [] else
      assert RunStep(states[i - 1], acts[i - 1], states[i]);
      var e := Step(states[i - 1], acts[i - 1]).1;
      Left(states, acts, i - 1) + if e.ReadOk? then [e.x] else []
  }

  /** The log of a run is what its states remember. */
  lemma {:induction false} LogIsState<T>(states: seq<State<T>>, acts: seq<Choice<T>>, i: nat)
    requires IsRun(states, acts) && i <= |acts|
    ensures Entered(states, acts, i) == states[i].written && Left(states, acts, i) == states[i].taken
  {
    if i > 0 {
      LogIsState(states, acts, i - 1);
      RunInv(states, acts, i - 1);
      assert RunStep(states[i - 1], acts[i - 1], states[i]);
    }
  }

  /**
   Every interleaving: what the consumer has received is a prefix of what the producer was told
   had been written, so nothing is lost, duplicated or reordered, and at most `size - 1` items
   are under way; no slot is accessed by both sides at once, and no call is stuck.
   */
  lemma {:induction false} RunsAreFifo<T>(states: seq<State<T>>, acts: seq<Choice<T>>, i: nat)
    requires IsRun(states, acts) && i <= |acts|
    ensures var inn, out := Entered(states, acts, i), Left(states, acts, i);
            out <= inn && |inn| - |out| <= states[0].size - 1
    ensures Inv(states[i]) && Entered(states, acts, i) == states[i].written && Left(states, acts, i) == states[i].taken
    ensures AccessesOk(states[i]) && CanGoOn(states[i])
  {
    RunInv(states, acts, i);
    LogIsState(states, acts, i);
    AccessOk(states[i]);
    NeverStuck(states[i]);
  }

  // ---------------------------------------------------------------------------
  // Size queries
  // ---------------------------------------------------------------------------

  function SizeGuess(size: nat, writeIndex: nat, readIndex: nat): int {
    var ret := writeIndex - readIndex;
    if ret < 0 then ret + size else ret
  }

  predicate IsEmpty(writeIndex: nat, readIndex: nat) { readIndex == writeIndex }

  predicate IsFull(size: nat, writeIndex: nat, readIndex: nat) { Bump(size, writeIndex) == readIndex }

  /**
   The two loads of a query may come from different moments `s1` (write index) and `s2` (read
   index).  Whenever the ring could have held `written` of the first minus `taken` of the
   second, the query returns exactly that.
   */
  lemma {:induction false} QueriesAreExact<T>(s1: State<T>, s2: State<T>)
    requires Inv(s1) && Inv(s2) && s1.size == s2.size
    requires |s2.taken| <= |s1.written| <= |s2.taken| + s1.size - 1
    ensures SizeGuess(s1.size, s1.writeIndex, s2.readIndex) == |s1.written| - |s2.taken|
    ensures IsEmpty(s1.writeIndex, s2.readIndex) <==> |s1.written| == |s2.taken|
    ensures IsFull(s1.size, s1.writeIndex, s2.readIndex) <==> |s1.written| - |s2.taken| == s1.size - 1
  {
    var n := |s1.written| - |s2.taken|;
    SlotWindow(s1.size, |s2.taken|, n);
    SlotWraps(s1.size, |s2.taken|);
    if n + 1 < s1.size {
      SlotWindow(s1.size, |s2.taken|, n + 1);
    }
  }

  /** The producer, or the consumer, takes no step between two moments. */
  ghost predicate NoWrite<T>(acts: seq<Choice<T>>, lo: nat, hi: nat) {
    forall m :: lo <= m < hi && m < |acts| ==> !acts[m].StepProducer?
  }

  ghost predicate NoRead<T>(acts: seq<Choice<T>>, lo: nat, hi: nat) {
    forall m :: lo <= m < hi && m < |acts| ==> !acts[m].StepConsumer?
  }

  lemma {:induction false} LogsGrow<T>(states: seq<State<T>>, acts: seq<Choice<T>>, i: nat, j: nat)
    requires IsRun(states, acts) && i <= j < |states|
    ensures |states[i].written| <= |states[j].written| && |states[i].taken| <= |states[j].taken|
    ensures NoWrite(acts, i, j) ==> |states[i].written| == |states[j].written|
    ensures NoRead(acts, i, j) ==> |states[i].taken| == |states[j].taken|
    decreases j
  {
    if i < j {
      LogsGrow(states, acts, i, j - 1);
      assert RunStep(states[j - 1], acts[j - 1], states[j]);
    }
  }

  /** What a query answers, from the write index at `w` and the read index at `r`. */
  ghost predicate Answers<T>(states: seq<State<T>>, w: nat, r: nat, n: nat)
    requires w < |states| && r < |states|
  {
    var size, writeIndex, readIndex := states[w].size, states[w].writeIndex, states[r].readIndex;
    && SizeGuess(size, writeIndex, readIndex) == n
    && (IsEmpty(writeIndex, readIndex) <==> n == 0)
    && (IsFull(size, writeIndex, readIndex) <==> n == size - 1)
  }

  /**
   The consumer loads the indices at `w` and `r`, in either order, and takes no other step
   between `lo` and `hi`: it learns the size at the moment it loads the write index, and at
   every later moment up to `hi` the queue is at least that long.
   */
  lemma {:induction false} ConsumerQueries<T>(states: seq<State<T>>, acts: seq<Choice<T>>, lo: nat, w: nat, r: nat,
      k: nat, hi: nat)
    requires IsRun(states, acts) && lo <= w <= k <= hi < |states| && lo <= r <= hi && NoRead(acts, lo, hi)
    ensures Inv(states[w]) && Inv(states[k])
    ensures Answers(states, w, r, |Queue(states[w])|) && |Queue(states[w])| <= |Queue(states[k])|
  {
    RunInv(states, acts, w);
    RunInv(states, acts, r);
    RunInv(states, acts, k);
    LogsGrow(states, acts, lo, w);
    LogsGrow(states, acts, lo, r);
    LogsGrow(states, acts, lo, k);
    LogsGrow(states, acts, w, k);
    QueriesAreExact(states[w], states[r]);
  }

  /** The producer learns the size when it loads the read index, and later the queue is at most that long. */
  lemma {:induction false} ProducerQueries<T>(states: seq<State<T>>, acts: seq<Choice<T>>, lo: nat, w: nat, r: nat,
      k: nat, hi: nat)
    requires IsRun(states, acts) && lo <= r <= k <= hi < |states| && lo <= w <= hi && NoWrite(acts, lo, hi)
    ensures Inv(states[r]) && Inv(states[k])
    ensures Answers(states, w, r, |Queue(states[r])|) && |Queue(states[k])| <= |Queue(states[r])|
  {
    RunInv(states, acts, w);
    RunInv(states, acts, r);
    RunInv(states, acts, k);
    LogsGrow(states, acts, lo, w);
    LogsGrow(states, acts, lo, r);
    LogsGrow(states, acts, lo, k);
    LogsGrow(states, acts, r, k);
    QueriesAreExact(states[w], states[r]);
  }

  // ---------------------------------------------------------------------------
  // Calls return
  // ---------------------------------------------------------------------------

  /** The steps a call in progress still takes, at most. */
  function WriteLeft<T>(p: Producer<T>): nat {
    match p case PIdle => 0 case PLoaded(_, _) => 3 case PFree(_, _) => 2 case PBuilt(_, _) => 1
  }

  function ReadLeft<T>(c: Consumer<T>): nat {
    match c case CIdle => 0 case CLoaded(_) => 4 case CFull(_) => 3 case CMoved(_, _) => 2 case CCleared(_, _) => 1
  }

  ghost predicate WriteAnswered<T>(x: T, e: Event<T>) { e == WriteOk(x) || e.WriteFull? }

  ghost predicate ReadAnswered<T>(e: Event<T>) { e.ReadOk? || e.ReadEmpty? }

  /** Every step brings its own call nearer to its end, which is where it answers, and leaves the other side alone. */
  lemma {:induction false} StepsEnd<T>(s: State<T>, a: Choice<T>)
    requires Enabled(s, a)
    ensures var (s', e) := Step(s, a);
      && (a.CallWrite? ==> s'.p.PLoaded? && s'.p.x == a.x)
      && (a.CallWrite? || a.StepProducer? ==> s'.c == s.c)
      && (a.CallRead? || a.StepConsumer? ==> s'.p == s.p)
      && (a.StepProducer? ==> WriteLeft(s'.p) < WriteLeft(s.p) && (s'.p.PIdle? ==> WriteAnswered(s.p.x, e)))
      && (a.StepProducer? && !s'.p.PIdle? ==> s'.p.x == s.p.x)
      && (a.StepConsumer? ==> ReadLeft(s'.c) < ReadLeft(s.c) && (s'.c.CIdle? ==> ReadAnswered(e)))
  {
  }

  /** How many of the actions from `lo` to `hi` are steps of one side. */
  function Taken<T(==)>(acts: seq<Choice<T>>, a: Choice<T>, lo: nat, hi: nat): nat
    requires lo <= hi <= |acts|
    decreases hi
  {
    if lo == hi then 0 else Taken(acts, a, lo, hi - 1) + if acts[hi - 1] == a then 1 else 0
  }

  ghost predicate WriteReturned<T>(states: seq<State<T>>, acts: seq<Choice<T>>, x: T, k: nat) {
    && k < |acts| < |states| && acts[k].StepProducer? && Enabled(states[k], acts[k])
    && WriteAnswered(x, Step(states[k], acts[k]).1)
  }

  ghost predicate ReadReturned<T>(states: seq<State<T>>, acts: seq<Choice<T>>, k: nat) {
    && k < |acts| < |states| && acts[k].StepConsumer? && Enabled(states[k], acts[k])
    && ReadAnswered(Step(states[k], acts[k]).1)
  }

  lemma {:induction false} WriteGoesOn<T>(states: seq<State<T>>, acts: seq<Choice<T>>, x: T, i: nat, j: nat)
    requires IsRun(states, acts) && i < j < |states| && acts[i] == CallWrite(x)
    ensures || (exists k: nat :: i < k < j && WriteReturned(states, acts, x, k))
            || (!states[j].p.PIdle? && states[j].p.x == x
                && WriteLeft(states[j].p) + Taken(acts, StepProducer, i + 1, j) <= 3)
  {
    var m := j - 1;
    assert RunStep(states[m], acts[m], states[j]);
    StepsEnd(states[m], acts[m]);
    if i < m {
      WriteGoesOn(states, acts, x, i, m);
      if !states[m].p.PIdle? && states[m].p.x == x && acts[m].StepProducer? && states[j].p.PIdle? {
        assert WriteReturned(states, acts, x, m);
      }
    }
  }

  lemma {:induction false} ReadGoesOn<T>(states: seq<State<T>>, acts: seq<Choice<T>>, i: nat, j: nat)
    requires IsRun(states, acts) && i < j < |states| && acts[i].CallRead?
    ensures || (exists k: nat :: i < k < j && ReadReturned(states, acts, k))
            || (!states[j].c.CIdle? && ReadLeft(states[j].c) + Taken(acts, StepConsumer, i + 1, j) <= 4)
  {
    var m := j - 1;
    assert RunStep(states[m], acts[m], states[j]);
    StepsEnd(states[m], acts[m]);
    if i < m {
      ReadGoesOn(states, acts, i, m);
      if !states[m].c.CIdle? && acts[m].StepConsumer? && states[j].c.CIdle? {
        assert ReadReturned(states, acts, m);
      }
    }
  }

  /** A write answers within three steps of its own, a read within four, whatever the other side does. */
  lemma {:induction false} CallsReturn<T>(states: seq<State<T>>, acts: seq<Choice<T>>, i: nat, j: nat)
    requires IsRun(states, acts) && i < j < |states|
    ensures acts[i].CallWrite? && Taken(acts, StepProducer, i + 1, j) >= 3 ==>
      exists k: nat :: i < k < j && WriteReturned(states, acts, acts[i].x, k)
    ensures acts[i].CallRead? && Taken(acts, StepConsumer, i + 1, j) >= 4 ==>
      exists k: nat :: i < k < j && ReadReturned(states, acts, k)
  {
    if acts[i].CallWrite? {
      WriteGoesOn(states, acts, acts[i].x, i, j);
    } else if acts[i].CallRead? {
      ReadGoesOn(states, acts, i, j);
    }
  }
}
