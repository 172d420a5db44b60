/**
 Constraint slicing: every processed branch joins the offsets it depends on and stores its
 path condition at one of them; a query asserts, besides the flipped branch, only the
 conditions stored on the class of the offsets it depends on.
 */
module Slicing {
  import opened Basics
  import opened Partition
  import opened Expr
  import opened LabelTable
  import S = Serialize
  import U = UnionFind

  // ---------------------------------------------------------------------------
  // A slice is as good as the whole path
  // ---------------------------------------------------------------------------

  ghost predicate Holds(c: Expr, x: Input) { Eval(c, x) == VBool(true) }

  ghost predicate AllHold(cs: set<Expr>, x: Input) { forall c :: c in cs ==> Holds(c, x) }

  ghost predicate Satisfiable(cs: set<Expr>) { exists x: Input :: AllHold(cs, x) }

  /** `x` has the model's bytes at `offs` and the seed's elsewhere. */
  ghost predicate Overlays(x: Input, seed: Input, model: Input, offs: set<nat>) {
    && (forall i :: i in offs ==> x(i) % 256 == model(i) % 256)
    && (forall i :: i !in offs ==> x(i) % 256 == seed(i) % 256)
  }

  /** Whatever is in the slice depends on the class only, whatever is not does not depend on it at all. */
  ghost predicate Separated(stored: set<Expr>, slice: set<Expr>, offs: set<nat>) {
    && slice <= stored
    && (forall c :: c in slice ==> Free(c) <= offs)
    && (forall c :: c in stored && c !in slice ==> Free(c) !! offs)
  }

  lemma {:induction false} OverlaySatisfies(stored: set<Expr>, slice: set<Expr>, flip: Expr, offs: set<nat>,
      seed: Input, model: Input, x: Input)
    requires Separated(stored, slice, offs) && Free(flip) <= offs
    requires AllHold(stored, seed) && AllHold(slice + {flip}, model) && Overlays(x, seed, model, offs)
    ensures AllHold(stored + {flip}, x)
  {
    forall c | c in stored + {flip} ensures Holds(c, x) {
      if c in slice || c == flip {
        assert c in slice + {flip};
        EvalIsLocal(c, model, x);
      } else {
        EvalIsLocal(c, seed, x);
      }
    }
  }

  /** The slice with the flipped branch is satisfiable exactly when the whole stored path with it is. */
  lemma {:induction false} SliceIsAsGood(stored: set<Expr>, slice: set<Expr>, flip: Expr, offs: set<nat>, seed: Input)
    requires Separated(stored, slice, offs) && Free(flip) <= offs && AllHold(stored, seed)
    ensures Satisfiable(slice + {flip}) <==> Satisfiable(stored + {flip})
  {
    if Satisfiable(slice + {flip}) {
      var m: Input :| AllHold(slice + {flip}, m);
      var x: Input := (i: nat) => if i in offs then m(i) else seed(i);
      OverlaySatisfies(stored, slice, flip, offs, seed, m, x);
    }
    if Satisfiable(stored + {flip}) {
      var m: Input :| AllHold(stored + {flip}, m);
      assert AllHold(slice + {flip}, m);
    }
  }

  // ---------------------------------------------------------------------------
  // Messages
  // ---------------------------------------------------------------------------

  /** Where a message comes from: an address, 0 if unknown, and a calling context. */
  datatype Site = Site(addr: nat, ctx: nat)

  /** A message of the traced program; `attempt` says whether the branch is to be flipped. */
  datatype Msg =
    | Branch(site: Site, lbl: nat, direction: nat, attempt: bool)
    | Index(site: Site, lbl: nat, result: nat, attempt: bool)
    | Bytes(site: Site, lbl: nat, bytes: seq<nat>)
    | Assume(site: Site, lbl: nat)
    | Other(site: Site, lbl: nat)

  const MAX_LOCAL: nat := 64

  /** Branches and indices are dropped when their site has sent too many messages. */
  predicate Dropped(msg: Msg, count: nat) { (msg.Branch? || msg.Index?) && count > MAX_LOCAL }

  /** What a message asks for: join and store `path`, solving `flip` first; join only; nothing; or a panic. */
  datatype Request = Query(path: Expr, flip: Expr, attempt: bool) | Record(path: Expr) | Join(e: Expr) | Skip | Panic

  function EqualTo(e: Expr, k: Expr): Expr { Cmp(CmpOp.Equal, e, k) }
  function OtherThan(e: Expr, k: Expr): Expr { Cmp(CmpOp.Distinct, e, k) }

  function BranchRequest(e: Expr, direction: nat, attempt: bool): Request {
    var k := if SortOf(e) == Bool then BoolVal(direction == 1) else BvVal(Mod(S.AsI64(direction), 1), 1);
    if SortOf(EqualTo(e, k)) == Ill then Panic else Query(EqualTo(e, k), OtherThan(e, k), attempt)
  }

  function IndexRequest(e: Expr, size: nat, result: nat, attempt: bool): Request {
    if attempt && !SortOf(e).BV? then Join(e)
    else if SortOf(EqualTo(e, BvVal(result, size))) == Ill then Panic
    else Query(EqualTo(e, BvVal(result, size)), OtherThan(e, BvVal(result, size)), attempt)
  }

  /** The request the `count`-th message of its site makes once its label has been translated to `o`. */
  function RequestOf(t: Table, msg: Msg, count: nat, o: S.Outcome): Request
    requires msg.lbl < |t|
  {
    if Dropped(msg, count) || msg.Bytes? || msg.Other? || msg.lbl == 0 then Skip
    else if msg.Index? && t[msg.lbl].size == 0 then Panic
    else match o
      case Nothing => Skip
      case Abort => Panic
      case Got(e) =>
        match msg
        case Branch(_, _, direction, attempt) => BranchRequest(e, direction, attempt)
        case Index(_, lbl, result, attempt) => IndexRequest(e, t[lbl].size, result, attempt)
        case _ => if SortOf(e) == Bool then Record(e) else Join(e)
  }

  /** Messages that ask for nothing, whatever their label is translated to. */
  predicate Ignored(msg: Msg, count: nat) {
    ((msg.Branch? || msg.Index?) && count > 64) || msg.Bytes? || msg.Other? || msg.lbl == 0
  }

  /** The sort a branch or an index must have. */
  predicate SortFits(t: Table, msg: Msg, s: Sort)
    requires msg.lbl < |t| && (msg.Branch? || msg.Index?)
  {
    if msg.Branch? then s == Bool || s == BV(1) else t[msg.lbl].size > 0 && s == BV(t[msg.lbl].size)
  }

  /** What a message asks for, from the message and the sort of its translated label. */
  lemma {:induction false} RequestIs(t: Table, msg: Msg, count: nat, e: Expr)
    requires msg.lbl < |t| && !Ignored(msg, count)
    ensures var r := RequestOf(t, msg, count, S.Got(e));
      var bad := msg.Index? && t[msg.lbl].size == 0;
      && (msg.Assume? ==> r == if SortOf(e) == Bool then Record(e) else Join(e))
      && (msg.Branch? || msg.Index? ==> (r.Query? <==> SortFits(t, msg, SortOf(e))))
      && (r.Query? ==> r.attempt == msg.attempt)
      && (msg.Index? ==> (r.Join? <==> !bad && msg.attempt && !SortOf(e).BV?))
      && (r.Join? ==> r.e == e) && !r.Skip?
      && (r.Panic? <==> !msg.Assume? && !r.Query? && !r.Join?)
  {
    if msg.Branch? {
      var k := if SortOf(e) == Bool then BoolVal(msg.direction == 1) else BvVal(Mod(S.AsI64(msg.direction), 1), 1);
      assert SortOf(EqualTo(e, k)) == Ill <==> !SortFits(t, msg, SortOf(e));
    } else if msg.Index? && t[msg.lbl].size > 0 {
      assert SortOf(EqualTo(e, BvVal(msg.result, t[msg.lbl].size))) == Ill <==> !SortFits(t, msg, SortOf(e));
    }
  }

  /** Where nothing is asked for or the loop panics without an expression. */
  lemma {:induction false} RequestIsNot(t: Table, msg: Msg, count: nat, o: S.Outcome)
    requires msg.lbl < |t|
    ensures var r := RequestOf(t, msg, count, o);
      var bad := msg.Index? && t[msg.lbl].size == 0;
      && (r.Skip? <==> Ignored(msg, count) || (!bad && o.Nothing?))
      && (!Ignored(msg, count) && (bad || o.Abort?) ==> r.Panic?)
  {
    if !Ignored(msg, count) && o.Got? { RequestIs(t, msg, count, o.e); }
  }

  function Mentions(r: Request): set<nat> {
    match r
    case Query(path, _, _) => Free(path)
    case Record(path) => Free(path)
    case Join(e) => Free(e)
    case _ => {}
  }

  function Stores(r: Request): set<Expr> {
    match r
    case Query(path, _, _) => {path}
    case Record(path) => {path}
    case _ => {}
  }

  lemma {:induction false} RequestMentions(t: Table, msg: Msg, count: nat, e: Expr)
    requires msg.lbl < |t|
    ensures var r := RequestOf(t, msg, count, S.Got(e));
            !r.Skip? && !r.Panic? ==> Mentions(r) == Free(e) && (r.Query? ==> Free(r.flip) == Free(e))
  {
    forall op, k: Expr | Free(k) == {} ensures Free(Cmp(op, e, k)) == Free(e) {}
  }

  // ---------------------------------------------------------------------------
  // Laying a solution over the seed
  // ---------------------------------------------------------------------------

  type Solution = map<nat, nat>

  function AsInput(buf: seq<nat>): Input { (i: nat) => if i < |buf| then buf[i] else 0 }

  /** The bytes of the input with the `len` bytes at `index` replaced by `grown` zeros, or as they are. */
  function Resized(buf: seq<nat>, index: nat, len: nat, grown: nat): seq<nat>
    requires index + len <= |buf|
  {
    if grown == len then buf else buf[..index] + seq(grown, _ => 0) + buf[index + len..]
  }

  function Laid(buf: seq<nat>, sol: Solution): seq<nat> {
    seq(|buf|, i requires 0 <= i < |buf| => if i in sol then sol[i] else buf[i])
  }

  method Mutate(buf: seq<nat>, sol: Solution, index: nat, len: nat) returns (ret: seq<nat>)
    requires index + len <= |buf|
    ensures ret == Laid(Resized(buf, index, len, |sol|), sol)
  {
    var base := Resize(buf, index, len, |sol|);
    ret := Overlay(base, sol);
  }

  method Resize(buf: seq<nat>, index: nat, len: nat, grown: nat) returns (ret: seq<nat>)
    requires index + len <= |buf|
    ensures ret == Resized(buf, index, len, grown)
  {
    var size := |buf| + grown - len;
    if |buf| == size {
      return buf;
    }
    ret := seq(size, _ => 0);
    for i := 0 to index
      invariant |ret| == size && forall j :: 0 <= j < size ==> ret[j] == if j < i then buf[j] else 0
    {
      ret := ret[i := buf[i]];
    }
    var i := 0;
    while i < size - grown - index && i < |buf| - len - index
      invariant 0 <= i <= |buf| - len - index && |ret| == size
      invariant forall j :: 0 <= j < size ==> ret[j] == Moved(buf, index, len, grown, i, j)
    {
      ret := ret[i + index + grown := buf[i + index + len]];
      i := i + 1;
    }
    forall j | 0 <= j < size ensures ret[j] == Resized(buf, index, len, grown)[j] {}
  }

  /** Place `j` of the resized buffer once the `i` bytes after the cut have been moved. */
  ghost function Moved(buf: seq<nat>, index: nat, len: nat, grown: nat, i: nat, j: nat): nat
    requires index + len + i <= |buf|
  {
    if j < index then buf[j]
    else if index + grown <= j < index + grown + i then buf[j - grown + len]
    else 0
  }

  method Overlay(base: seq<nat>, sol: Solution) returns (ret: seq<nat>)
    ensures ret == Laid(base, sol)
  {
    ret := base;
    var rest := sol.Keys;
    while rest != {}
      invariant rest <= sol.Keys && |ret| == |base|
      invariant forall i :: 0 <= i < |base| ==> ret[i] == if i in sol && i !in rest then sol[i] else base[i]
      decreases rest
    {
      var k :| k in rest;
      rest := rest - {k};
      if k < |ret| {
        ret := ret[k := sol[k]];
      }
    }
  }

  /** The model's bytes at the given offsets. */
  method GenerateSolution(model: Input, offs: set<nat>) returns (sol: Solution)
    ensures sol.Keys == offs
    ensures forall i :: i in offs ==> sol[i] == model(i) % 256
  {
    sol := map[];
    var rest := offs;
    while rest != {}
      invariant rest <= offs && sol.Keys == offs - rest
      invariant forall i :: i in sol ==> sol[i] == model(i) % 256
      decreases rest
    {
      var v :| v in rest;
      rest := rest - {v};
      sol := sol[v := model(v) % 256];
    }
  }

  // ---------------------------------------------------------------------------
  // Slots
  // ---------------------------------------------------------------------------

  /** A condition may be stored at `i` when everything it mentions is joined with `i`. */
  ghost predicate BelongsAt(history: seq<set<nat>>, i: nat, c: Expr) {
    forall d :: d in Free(c) ==> Same(history, i, d)
  }

  ghost predicate SlotOk(slot: seq<Expr>, history: seq<set<nat>>, stored: set<Expr>, i: nat) {
    forall k :: 0 <= k < |slot| ==> slot[k] in stored && BelongsAt(history, i, slot[k])
  }

  ghost predicate SomewhereIn(slots: seq<seq<Expr>>, c: Expr) {
    exists i :: 0 <= i < |slots| && c in slots[i]
  }

  ghost predicate SlotsOk(slots: seq<seq<Expr>>, history: seq<set<nat>>, stored: set<Expr>) {
    && (forall i :: 0 <= i < |slots| ==> SlotOk(slots[i], history, stored, i))
    && (forall c :: c in stored ==> SomewhereIn(slots, c))
  }

  lemma {:induction false} SlotsAfterJoin(slots: seq<seq<Expr>>, history: seq<set<nat>>, stored: set<Expr>, s: set<nat>)
    requires SlotsOk(slots, history, stored)
    ensures SlotsOk(slots, history + [s], stored)
  {
    forall i | 0 <= i < |slots| ensures SlotOk(slots[i], history + [s], stored, i) {
      assert SlotOk(slots[i], history, stored, i);
      forall k | 0 <= k < |slots[i]| ensures BelongsAt(history + [s], i, slots[i][k]) {
        assert BelongsAt(history, i, slots[i][k]);
        forall d | d in Free(slots[i][k]) ensures Same(history + [s], i, d) {
          MoreJoins(history, [s], i, d);
        }
      }
    }
  }

  lemma {:induction false} SlotsAfterStore(slots: seq<seq<Expr>>, history: seq<set<nat>>, stored: set<Expr>,
      v0: nat, c: Expr)
    requires SlotsOk(slots, history, stored) && v0 < |slots| && BelongsAt(history, v0, c)
    ensures SlotsOk(slots[v0 := slots[v0] + [c]], history, stored + {c})
  {
    var slots' := slots[v0 := slots[v0] + [c]];
    forall i | 0 <= i < |slots'| ensures SlotOk(slots'[i], history, stored + {c}, i) {
      assert SlotOk(slots[i], history, stored, i);
    }
    forall d | d in stored + {c} ensures SomewhereIn(slots', d) {
      if d in stored {
        var i :| 0 <= i < |slots| && d in slots[i];
        assert d in slots'[i];
      } else {
        assert c in slots'[v0];
      }
    }
  }

  /** The conditions stored on the given offsets, in their order. */
  function SliceOf(slots: seq<seq<Expr>>, offs: seq<nat>): seq<Expr> {
    if offs == [] then []
    else
      var last := offs[|offs| - 1];
      SliceOf(slots, offs[..|offs| - 1]) + if last < |slots| then slots[last] else []
  }

  lemma {:induction false} InSlice(slots: seq<seq<Expr>>, offs: seq<nat>, c: Expr)
    ensures c in SliceOf(slots, offs) <==> exists i :: i in offs && i < |slots| && c in slots[i]
  {
    if offs != [] {
      var rest, last := offs[..|offs| - 1], offs[|offs| - 1];
      InSlice(slots, rest, c);
      assert offs == rest + [last];
    }
  }

  /** The slice of a class separates the stored conditions. */
  lemma {:induction false} ClassSeparates(slots: seq<seq<Expr>>, history: seq<set<nat>>, stored: set<Expr>, v0: nat,
      members: seq<nat>)
    requires SlotsOk(slots, history, stored)
    requires forall x: nat :: x in members <==> x < |slots| && Same(history, v0, x)
    requires forall c, d :: c in stored && d in Free(c) ==> d < |slots|
    ensures Separated(stored, Elements(SliceOf(slots, members)), Elements(members))
  {
    var slice, offs := Elements(SliceOf(slots, members)), Elements(members);
    forall c | c in slice ensures c in stored && Free(c) <= offs {
      InSlice(slots, members, c);
      var i :| i in members && i < |slots| && c in slots[i];
      assert SlotOk(slots[i], history, stored, i) && BelongsAt(history, i, c);
      forall d | d in Free(c) ensures d in offs { SameIsEquivalence(history, v0, i, d); }
    }
    forall c | c in stored && c !in slice ensures Free(c) !! offs {
      assert SomewhereIn(slots, c);
      var i :| 0 <= i < |slots| && c in slots[i];
      assert SlotOk(slots[i], history, stored, i) && BelongsAt(history, i, c);
      forall d | d in Free(c) ensures d !in offs {
        if d in offs {
          SameIsEquivalence(history, i, d, d);
          SameIsEquivalence(history, v0, d, i);
          assert i in members;
          InSlice(slots, members, c);
          assert false;
        }
      }
    }
  }

  // ---------------------------------------------------------------------------
  // The solver
  // ---------------------------------------------------------------------------

  /** The solver proper: on a list of assertions, a model or no answer. */
  type Oracle = seq<Expr> -> Option<Input>

  /** A model it returns satisfies what was asserted. */
  ghost predicate Sound(oracle: Oracle) {
    forall q :: oracle(q).Some? ==> AllHold(Elements(q), oracle(q).value)
  }

  /** It answers whenever there is a model. */
  ghost predicate Complete(oracle: Oracle) {
    forall q :: oracle(q).None? ==> !Satisfiable(Elements(q))
  }

  /** Laid over any seed of the right length on which `stored` holds, `sol` satisfies all of `wanted`. */
  ghost predicate Delivers(sol: Solution, size: nat, stored: set<Expr>, wanted: set<Expr>) {
    forall seed: seq<nat> :: |seed| == size && AllHold(stored, AsInput(seed)) ==>
      AllHold(wanted, AsInput(Laid(seed, sol)))
  }

  lemma {:induction false} LaidOverlays(seed: seq<nat>, sol: Solution, model: Input, offs: set<nat>)
    requires sol.Keys == offs && forall i :: i in offs ==> i < |seed| && sol[i] == model(i) % 256
    ensures Overlays(AsInput(Laid(seed, sol)), AsInput(seed), model, offs)
  {
    var x, base := AsInput(Laid(seed, sol)), AsInput(seed);
    forall i: nat ensures x(i) == if i in offs then sol[i] else base(i) {}
  }

  lemma {:induction false} NestedDelivers(stored: set<Expr>, slice: set<Expr>, flip: Expr, offs: set<nat>,
      model: Input, sol: Solution, size: nat)
    requires Separated(stored, slice, offs) && Free(flip) <= offs && AllHold(slice + {flip}, model)
    requires sol.Keys == offs && forall i :: i in offs ==> i < size && sol[i] == model(i) % 256
    ensures Delivers(sol, size, stored, stored + {flip})
  {
    forall seed: seq<nat> | |seed| == size && AllHold(stored, AsInput(seed))
      ensures AllHold(stored + {flip}, AsInput(Laid(seed, sol)))
    {
      LaidOverlays(seed, sol, model, offs);
      OverlaySatisfies(stored, slice, flip, offs, AsInput(seed), model, AsInput(Laid(seed, sol)));
    }
  }

  lemma {:induction false} AloneDelivers(stored: set<Expr>, flip: Expr, deps: set<nat>, model: Input, sol: Solution,
      size: nat)
    requires deps == Free(flip) && Holds(flip, model)
    requires sol.Keys == deps && forall i :: i in deps ==> i < size && sol[i] == model(i) % 256
    ensures Delivers(sol, size, stored, {flip})
  {
    forall seed: seq<nat> | |seed| == size ensures AllHold({flip}, AsInput(Laid(seed, sol))) {
      var x := AsInput(Laid(seed, sol));
      LaidOverlays(seed, sol, model, deps);
      assert AgreeOn(Free(flip), model, x);
      EvalIsLocal(flip, model, x);
    }
  }

  /** `x` is linked to the offsets of a condition; a condition without offsets is kept at offset 0. */
  ghost predicate Linked(history: seq<set<nat>>, deps: set<nat>, x: nat) {
    if deps == {} then Same(history, 0, x) else Touches(history, deps, x)
  }

  /** The solution changes exactly the offsets linked to those of its branch. */
  ghost predicate ChangesClass(sol: Solution, size: nat, history: seq<set<nat>>, deps: set<nat>) {
    forall x: nat :: x in sol <==> x < size && Linked(history, deps, x)
  }

  lemma {:induction false} LinkedIsClass(history: seq<set<nat>>, deps: set<nat>, v0: nat)
    requires if deps == {} then v0 == 0 else v0 in deps
    requires forall d :: d in deps ==> Same(history, v0, d)
    ensures forall x: nat :: Same(history, v0, x) <==> Linked(history, deps, x)
  {
    forall x: nat ensures Same(history, v0, x) <==> Linked(history, deps, x) {
      if Touches(history, deps, x) {
        var d :| d in deps && Same(history, d, x);
        SameIsEquivalence(history, v0, d, x);
      }
    }
  }

  class Solver {
    const table: Table
    const oracle: Oracle
    const uf: U.UnionFind
    const slots: array<seq<Expr>>
    var data: S.Concrete
    ghost var history: seq<set<nat>>
    ghost var stored: set<Expr>

    ghost predicate Valid()
      reads this, slots, uf, uf.elements, uf.links, uf.ranks
    {
      && Sound(oracle)
      && uf.Valid() && uf.elements.Length == slots.Length && slots.Length > 0
      && Equivalent(uf.joined, history)
      && SlotsOk(slots[..], history, stored)
      && (forall c, d :: c in stored && d in Free(c) ==> d < slots.Length)
    }

    /** `size` is the length of the tainted input. */
    constructor (table: Table, size: nat, oracle: Oracle)
      requires 0 < size < 0x1_0000_0000_0000_0000 && Sound(oracle)
      ensures Valid() && fresh(uf) && fresh(slots) && fresh(uf.elements) && fresh(uf.links) && fresh(uf.ranks)
      ensures slots.Length == size && stored == {} && history == [] && data == map[]
      ensures this.table == table && this.oracle == oracle
    {
      this.table := table;
      this.oracle := oracle;
      uf := new U.UnionFind(size);
      slots := new seq<Expr>[size](_ => []);
      data := map[];
      history := [];
      stored := {};
    }

    /** Joins all the offsets and returns one of them, or 0 when there are none. */
    method JoinOffsets(offs: set<nat>) returns (v0: nat)
      requires Valid() && forall d :: d in offs ==> d < slots.Length
      modifies this, uf, uf.elements, uf.links, uf.ranks
      ensures Valid() && history == old(history) + [offs] && stored == old(stored) && data == old(data)
      ensures v0 < slots.Length && (offs != {} ==> v0 in offs) && (offs == {} ==> v0 == 0)
    {
      var init := false;
      v0 := 0;
      var rest := offs;
      JoinNothing(uf.joined, history);
      assert offs - rest == {};
      while rest != {}
        invariant rest <= offs && uf.Valid()
        invariant init <==> rest != offs
        invariant init ==> v0 in offs - rest
        invariant !init ==> v0 == 0
        invariant Equivalent(uf.joined, history + [offs - rest])
        invariant history == old(history) && stored == old(stored) && data == old(data)
        decreases rest
      {
        var v :| v in rest;
        if !init {
          v0 := v;
          init := true;
        }
        JoinStep(uf.joined, history, offs - rest, v0, v);
        var _ := uf.Union(v, v0);
        assert (offs - rest) + {v} == offs - (rest - {v});
        rest := rest - {v};
      }
      assert offs - rest == offs;
      SlotsAfterJoin(slots[..], history, stored, offs);
      history := history + [offs];
    }

    /** Stores a condition at `v0`. */
    method Preserve(c: Expr, v0: nat)
      requires Valid() && v0 < slots.Length && BelongsAt(history, v0, c)
      requires forall d :: d in Free(c) ==> d < slots.Length
      modifies this, slots
      ensures Valid() && history == old(history) && stored == old(stored) + {c} && data == old(data)
    {
      SlotsAfterStore(slots[..], history, stored, v0, c);
      ghost var slots' := slots[..][v0 := slots[v0] + [c]];
      slots[v0] := slots[v0] + [c];
      assert slots[..] == slots';
      stored := stored + {c};
    }

    /** Appends the conditions stored on the class of `v0` and collects the offsets of the class. */
    method AddDependencies(v0: nat, asserted: seq<Expr>)
        returns (all: seq<Expr>, offs: set<nat>, ghost members: seq<nat>)
      requires Valid() && v0 < slots.Length
      ensures forall x: nat :: x in members <==> x < slots.Length && Same(history, v0, x)
      ensures offs == Elements(members) && all == asserted + SliceOf(slots[..], members)
      ensures Separated(stored, Elements(SliceOf(slots[..], members)), offs)
    {
      var found := uf.GetSet(v0);
      members := found;
      forall x: nat ensures x in members <==> x < slots.Length && Same(history, v0, x) {
        EquivalentSame(uf.joined, history, v0, x);
      }
      all, offs := Collect(found, asserted);
      ClassSeparates(slots[..], history, stored, v0, members);
    }

    method Collect(found: seq<nat>, asserted: seq<Expr>) returns (all: seq<Expr>, offs: set<nat>)
      requires forall x :: x in found ==> x < slots.Length
      ensures offs == Elements(found) && all == asserted + SliceOf(slots[..], found)
    {
      all, offs := asserted, {};
      for k := 0 to |found|
        invariant offs == Elements(found[..k])
        invariant all == asserted + SliceOf(slots[..], found[..k])
      {
        assert found[..k + 1] == found[..k] + [found[k]] && found[k] in found;
        assert found[..k + 1][..k] == found[..k];
        offs := offs + {found[k]};
        all := all + slots[found[k]];
      }
      assert found[..|found|] == found;
    }

    /** Solves the flipped branch alone, then together with the slice of its class. */
    method Attempt(flip: Expr, deps: set<nat>, v0: nat) returns (opt: Option<Solution>, nested: Option<Solution>)
      requires Valid() && v0 < slots.Length && deps == Free(flip)
      requires forall d :: d in deps ==> d < slots.Length && Same(history, v0, d)
      ensures opt.Some? ==> Delivers(opt.value, slots.Length, stored, {flip})
      ensures nested.Some? ==> Delivers(nested.value, slots.Length, stored, stored + {flip})
      ensures nested.Some? ==> forall x: nat :: x in nested.value <==> x < slots.Length && Same(history, v0, x)
      ensures Complete(oracle) && nested.None? ==> !Satisfiable(stored + {flip})
    {
      opt, nested := None, None;
      var res := oracle([flip]);
      assert Elements([flip]) == {flip};
      if res.None? {
        assert !Satisfiable({flip}) ==> !Satisfiable(stored + {flip}) by {
          if x: Input :| AllHold(stored + {flip}, x) { assert AllHold({flip}, x); }
        }
        return;
      }
      var sol := GenerateSolution(res.value, deps);
      opt := Some(sol);
      AloneDelivers(stored, flip, deps, res.value, sol, slots.Length);
      var all, offs;
      ghost var members;
      all, offs, members := AddDependencies(v0, [flip]);
      ghost var slice := Elements(SliceOf(slots[..], members));
      assert Elements(all) == slice + {flip};
      res := oracle(all);
      if res.Some? {
        sol := GenerateSolution(res.value, offs);
        nested := Some(sol);
        NestedDelivers(stored, slice, flip, offs, res.value, sol, slots.Length);
      } else {
        assert !Satisfiable(slice + {flip}) ==> !Satisfiable(stored + {flip}) by {
          if x: Input :| AllHold(stored + {flip}, x) { assert AllHold(slice + {flip}, x); }
        }
      }
    }

    /** Handles one message, the `count`-th of its site. */
    method Process(msg: Msg, count: nat) returns (req: Request, opt: Option<Solution>, nested: Option<Solution>)
      requires Valid() && WellFormed(table) && NoEmptyLoads(table) && ReadsWithin(table, slots.Length)
      requires msg.lbl < |table|
      modifies this, slots, uf, uf.elements, uf.links, uf.ranks
      ensures Valid()
      ensures req == RequestOf(table, msg, count, S.Build(table, old(data), msg.lbl))
      ensures stored == old(stored) + Stores(req) && data == NextData(old(data), msg)
      ensures history == NextHistory(old(history), req)
      ensures opt.Some? ==> req.Query? && Delivers(opt.value, slots.Length, old(stored), {req.flip})
      ensures nested.Some? ==> req.Query? && Delivers(nested.value, slots.Length, old(stored), old(stored) + {req.flip})
      ensures nested.Some? ==> ChangesClass(nested.value, slots.Length, history, Mentions(req))
      ensures Complete(oracle) && req.Query? && req.attempt && nested.None? ==> !Satisfiable(old(stored) + {req.flip})
    {
      opt, nested := None, None;
      if msg.Bytes? {
        data := data[msg.lbl := msg.bytes];
        return Skip, None, None;
      }
      if Dropped(msg, count) || msg.Other? || msg.lbl == 0 {
        return Skip, None, None;
      }
      if msg.Index? && table[msg.lbl].size == 0 {
        return Panic, None, None;
      }
      var tr := new S.Translator(table, data);
      var o := tr.Serialize(msg.lbl);
      req := RequestOf(table, msg, count, o);
      if req.Skip? || req.Panic? {
        return;
      }
      S.BuildIsGood(table, data, msg.lbl, slots.Length);
      RequestMentions(table, msg, count, o.e);
      opt, nested := Serve(req, tr.deps[msg.lbl]);
    }

    /** Joins the offsets, solves the other branch if that is asked for, and stores the path condition. */
    method Serve(req: Request, deps: set<nat>) returns (opt: Option<Solution>, nested: Option<Solution>)
      requires Valid() && !req.Skip? && !req.Panic? && deps == Mentions(req) && (req.Query? ==> Free(req.flip) == deps)
      requires forall d :: d in deps ==> d < slots.Length
      modifies this, slots, uf, uf.elements, uf.links, uf.ranks
      ensures Valid() && data == old(data)
      ensures stored == old(stored) + Stores(req) && history == NextHistory(old(history), req)
      ensures opt.Some? ==> req.Query? && Delivers(opt.value, slots.Length, old(stored), {req.flip})
      ensures nested.Some? ==> req.Query? && Delivers(nested.value, slots.Length, old(stored), old(stored) + {req.flip})
      ensures nested.Some? ==> ChangesClass(nested.value, slots.Length, history, Mentions(req))
      ensures Complete(oracle) && req.Query? && req.attempt && nested.None? ==> !Satisfiable(old(stored) + {req.flip})
    {
      opt, nested := None, None;
      var v0 := JoinOffsets(deps);
      forall d | d in deps ensures Same(history, v0, d) {
        JoinedAreSame(history, |history| - 1, v0, d);
      }
      if req.Query? && req.attempt {
        opt, nested := Attempt(req.flip, deps, v0);
        LinkedIsClass(history, deps, v0);
      }
      if req.Query? || req.Record? {
        Preserve(req.path, v0);
      }
    }
  }

  // ---------------------------------------------------------------------------
  // Whole runs
  // ---------------------------------------------------------------------------

  function NextData(data: S.Concrete, msg: Msg): S.Concrete {
    if msg.Bytes? then data[msg.lbl := msg.bytes] else data
  }

  /** A message that is not skipped joins what it mentions. */
  ghost function NextHistory(history: seq<set<nat>>, req: Request): seq<set<nat>> {
    if req.Skip? || req.Panic? then history else history + [Mentions(req)]
  }

  ghost function DataAfter(msgs: seq<Msg>): S.Concrete {
    if msgs == [] then map[] else NextData(DataAfter(msgs[..|msgs| - 1]), msgs[|msgs| - 1])
  }

  lemma {:induction false} DataNext(msgs: seq<Msg>, i: nat)
    requires i < |msgs|
    ensures DataAfter(msgs[..i + 1]) == NextData(DataAfter(msgs[..i]), msgs[i])
  {
    assert msgs[..i + 1][..i] == msgs[..i];
  }

  ghost predicate Labelled(t: Table, msgs: seq<Msg>) {
    forall i :: 0 <= i < |msgs| ==> msgs[i].lbl < |t|
  }

  /** The messages of a site. */
  ghost function Hits(msgs: seq<Msg>, site: Site): nat {
    if msgs == [] then 0
    else Hits(msgs[..|msgs| - 1], site) + if msgs[|msgs| - 1].site == site then 1 else 0
  }

  /** The number of a message among those of its site; messages without an address are not counted. */
  ghost function CountAt(msgs: seq<Msg>, i: nat): nat
    requires i < |msgs|
  {
    if msgs[i].site.addr == 0 then 1 else Hits(msgs[..i + 1], msgs[i].site)
  }

  ghost function RequestAt(t: Table, msgs: seq<Msg>, i: nat): Request
    requires WellFormed(t) && Labelled(t, msgs) && i < |msgs|
  {
    RequestOf(t, msgs[i], CountAt(msgs, i), S.Build(t, DataAfter(msgs[..i]), msgs[i].lbl))
  }

  /** The path conditions of those of the first `i` messages that are not dropped. */
  ghost function PathBefore(t: Table, msgs: seq<Msg>, i: nat): set<Expr>
    requires WellFormed(t) && Labelled(t, msgs) && i <= |msgs|
  {
    if i == 0 then {} else PathBefore(t, msgs, i - 1) + Stores(RequestAt(t, msgs, i - 1))
  }

  datatype Answer = Answer(at: nat, opt: Option<Solution>, nested: Option<Solution>)

  /** The joins of the first `i` messages. */
  ghost function JoinsBefore(t: Table, msgs: seq<Msg>, i: nat): seq<set<nat>>
    requires WellFormed(t) && Labelled(t, msgs) && i <= |msgs|
  {
    if i == 0 then [] else NextHistory(JoinsBefore(t, msgs, i - 1), RequestAt(t, msgs, i - 1))
  }

  /** What the loop remembers: the number of messages of each site with an address. */
  ghost predicate CountsOk(local: map<Site, nat>, msgs: seq<Msg>) {
    forall site: Site :: CountOk(local, msgs, site)
  }

  ghost predicate CountOk(local: map<Site, nat>, msgs: seq<Msg>, site: Site) {
    site.addr != 0 ==> (if site in local then local[site] else 0) == Hits(msgs, site)
  }

  lemma {:induction false} Recount(local: map<Site, nat>, msgs: seq<Msg>, i: nat)
    requires i < |msgs| && CountsOk(local, msgs[..i])
    ensures CountAt(msgs, i) == NextCount(local, msgs[i].site)
    ensures CountsOk(local[msgs[i].site := CountAt(msgs, i)], msgs[..i + 1])
  {
    var after, local' := msgs[..i + 1], local[msgs[i].site := CountAt(msgs, i)];
    assert after[..i] == msgs[..i];
    assert CountOk(local, msgs[..i], msgs[i].site);
    forall site: Site ensures CountOk(local', after, site) {
      assert CountOk(local, msgs[..i], site);
    }
  }

  function NextCount(local: map<Site, nat>, site: Site): nat {
    if site.addr != 0 && site in local then local[site] + 1 else 1
  }

  /**
   An answer's nested solution follows the path kept before its message and then takes the
   other branch, changing the offsets linked to that branch and no others; with a complete
   oracle there is no nested solution only if no input follows the path and does that.
   */
  ghost predicate AnswerOk(t: Table, msgs: seq<Msg>, size: nat, complete: bool, a: Answer)
    requires WellFormed(t) && Labelled(t, msgs)
  {
    && a.at < |msgs|
    && var path, req := PathBefore(t, msgs, a.at), RequestAt(t, msgs, a.at);
    && req.Query? && req.attempt
    && (a.opt.Some? ==> Delivers(a.opt.value, size, path, {req.flip}))
    && (a.nested.Some? ==> Delivers(a.nested.value, size, path, path + {req.flip}))
    && (a.nested.Some? ==> ChangesClass(a.nested.value, size, JoinsBefore(t, msgs, a.at + 1), Mentions(req)))
    && (complete && a.nested.None? ==> !Satisfiable(path + {req.flip}))
  }

  /** A branch or index that is to be flipped, is not dropped, and is translated to a fitting sort. */
  ghost predicate ToFlip(t: Table, msgs: seq<Msg>, i: nat)
    requires WellFormed(t) && Labelled(t, msgs) && i < |msgs|
  {
    var msg, o := msgs[i], S.Build(t, DataAfter(msgs[..i]), msgs[i].lbl);
    && (msg.Branch? || msg.Index?) && msg.attempt && !Ignored(msg, CountAt(msgs, i))
    && o.Got? && SortFits(t, msg, SortOf(o.e))
  }

  lemma {:induction false} ToFlipIs(t: Table, msgs: seq<Msg>, i: nat)
    requires WellFormed(t) && Labelled(t, msgs) && i < |msgs|
    ensures ToFlip(t, msgs, i) <==> RequestAt(t, msgs, i).Query? && RequestAt(t, msgs, i).attempt
  {
    var msg, o, count := msgs[i], S.Build(t, DataAfter(msgs[..i]), msgs[i].lbl), CountAt(msgs, i);
    RequestIsNot(t, msg, count, o);
    if o.Got? && !Ignored(msg, count) { RequestIs(t, msg, count, o.e); }
  }

  ghost predicate Answered(t: Table, msgs: seq<Msg>, answers: seq<Answer>, i: nat)
    requires WellFormed(t) && Labelled(t, msgs) && i < |msgs|
  {
    ToFlip(t, msgs, i) ==> exists k :: 0 <= k < |answers| && answers[k].at == i
  }

  /** All answers are right, and the first `n` messages are answered where they ask for it. */
  ghost predicate AnswersOk(t: Table, msgs: seq<Msg>, size: nat, complete: bool, answers: seq<Answer>, n: nat)
    requires WellFormed(t) && Labelled(t, msgs) && n <= |msgs|
  {
    && (forall k :: 0 <= k < |answers| ==> AnswerOk(t, msgs, size, complete, answers[k]))
    && (forall i :: 0 <= i < n ==> Answered(t, msgs, answers, i))
  }

  lemma {:induction false} Attempted(t: Table, msgs: seq<Msg>, size: nat, complete: bool, answers: seq<Answer>,
      a: Answer, n: nat)
    requires WellFormed(t) && Labelled(t, msgs) && n < |msgs| && AnswersOk(t, msgs, size, complete, answers, n)
    requires a.at == n && AnswerOk(t, msgs, size, complete, a)
    ensures AnswersOk(t, msgs, size, complete, answers + [a], n + 1)
  {
    var all := answers + [a];
    forall i | 0 <= i < n + 1 ensures Answered(t, msgs, all, i) {
      assert forall k :: 0 <= k < |answers| ==> all[k] == answers[k];
      assert all[|answers|].at == n;
      assert i < n ==> Answered(t, msgs, answers, i);
    }
  }

  lemma {:induction false} NotAttempted(t: Table, msgs: seq<Msg>, size: nat, complete: bool, answers: seq<Answer>,
      n: nat)
    requires WellFormed(t) && Labelled(t, msgs) && n < |msgs| && AnswersOk(t, msgs, size, complete, answers, n)
    requires !(RequestAt(t, msgs, n).Query? && RequestAt(t, msgs, n).attempt)
    ensures AnswersOk(t, msgs, size, complete, answers, n + 1)
  {
    ToFlipIs(t, msgs, n);
    forall i | 0 <= i < n + 1 ensures Answered(t, msgs, answers, i) {}
  }

  /** The solver has handled the first `i` messages. */
  ghost predicate Handled(solver: Solver, msgs: seq<Msg>, i: nat)
    reads solver, solver.slots, solver.uf, solver.uf.elements, solver.uf.links, solver.uf.ranks
    requires WellFormed(solver.table) && Labelled(solver.table, msgs) && i <= |msgs|
  {
    && solver.Valid() && solver.data == DataAfter(msgs[..i])
    && solver.stored == PathBefore(solver.table, msgs, i) && solver.history == JoinsBefore(solver.table, msgs, i)
  }

  /** One turn of the loop: the next message, and its answer if it is attempted. */
  method Handle(solver: Solver, msgs: seq<Msg>, i: nat, count: nat) returns (req: Request, a: Answer)
    requires WellFormed(solver.table) && NoEmptyLoads(solver.table) && ReadsWithin(solver.table, solver.slots.Length)
    requires Labelled(solver.table, msgs) && i < |msgs| && Handled(solver, msgs, i) && count == CountAt(msgs, i)
    modifies solver, solver.slots, solver.uf, solver.uf.elements, solver.uf.links, solver.uf.ranks
    ensures req == RequestAt(solver.table, msgs, i) && a.at == i && Handled(solver, msgs, i + 1)
    ensures req.Query? && req.attempt ==>
      AnswerOk(solver.table, msgs, solver.slots.Length, Complete(solver.oracle), a)
  {
    DataNext(msgs, i);
    var opt, nested;
    req, opt, nested := solver.Process(msgs[i], count);
    a := Answer(i, opt, nested);
  }

  /** The message loop: one answer for every branch it attempts, up to a panic. */
  method Run(table: Table, size: nat, oracle: Oracle, msgs: seq<Msg>) returns (answers: seq<Answer>, handled: nat)
    requires 0 < size < 0x1_0000_0000_0000_0000 && Sound(oracle)
    requires WellFormed(table) && NoEmptyLoads(table) && ReadsWithin(table, size) && Labelled(table, msgs)
    ensures handled <= |msgs| && (handled < |msgs| ==> RequestAt(table, msgs, handled).Panic?)
    ensures AnswersOk(table, msgs, size, Complete(oracle), answers, handled)
  {
    var solver := new Solver(table, size, oracle);
    var local: map<Site, nat> := map[];
    answers := [];
    handled := 0;
    while handled < |msgs|
      invariant handled <= |msgs| && Handled(solver, msgs, handled) && CountsOk(local, msgs[..handled])
      invariant fresh(solver) && fresh(solver.slots) && fresh(solver.uf)
      invariant fresh(solver.uf.elements) && fresh(solver.uf.links) && fresh(solver.uf.ranks)
      invariant solver.table == table && solver.oracle == oracle && solver.slots.Length == size
      invariant AnswersOk(table, msgs, size, Complete(oracle), answers, handled)
    {
      var count := NextCount(local, msgs[handled].site);
      Recount(local, msgs, handled);
      local := local[msgs[handled].site := count];
      var req, a := Handle(solver, msgs, handled, count);
      if req.Panic? {
        return;
      }
      if req.Query? && req.attempt {
        Attempted(table, msgs, size, Complete(oracle), answers, a, handled);
        answers := answers + [a];
      } else {
        NotAttempted(table, msgs, size, Complete(oracle), answers, handled);
      }
      handled := handled + 1;
    }
  }
}
