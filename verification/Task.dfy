/**
 A search task: constraints that share input bytes.  Finalizing it gives every byte one slot,
 writes the slots into the constraints' arguments and sizes the scratch array.
 */
module Task {
  import opened Basics
  import opened TaskArgs

  /** A constraint as it arrives; `order` is the order in which its map is iterated. */
  class Cons {
    const localMap: map<nat, nat>
    const order: seq<nat>
    const inputs: map<nat, nat>
    const shape: map<nat, nat>
    const constNum: nat
    var args: seq<Arg>

    ghost predicate Valid()
      reads this
    {
      && ArgsOk(localMap, args, constNum)
      && Distinct(order) && Elements(order) == localMap.Keys
      && inputs.Keys == shape.Keys == localMap.Keys
    }

    constructor (localMap: map<nat, nat>, order: seq<nat>, inputs: map<nat, nat>, shape: map<nat, nat>,
        constNum: nat, args: seq<Arg>)
      requires ArgsOk(localMap, args, constNum) && Distinct(order) && Elements(order) == localMap.Keys
      requires inputs.Keys == shape.Keys == localMap.Keys
      ensures Valid() && this.localMap == localMap && this.order == order
      ensures this.constNum == constNum && this.args == args
    {
      this.localMap, this.order, this.inputs, this.shape, this.constNum, this.args :=
        localMap, order, inputs, shape, constNum, args;
    }
  }

  // ---------------------------------------------------------------------------
  // Slots
  // ---------------------------------------------------------------------------

  /** The slots found so far: one for every byte, where the byte is. */
  ghost predicate SlotsOk(symMap: map<nat, nat>, inputs: seq<InputByte>) {
    && (forall o: nat :: SlotOk(symMap, inputs, o))
    && (forall i :: 0 <= i < |inputs| ==> inputs[i].off in symMap && symMap[inputs[i].off] == i)
  }

  ghost predicate SlotOk(symMap: map<nat, nat>, inputs: seq<InputByte>, o: nat) {
    o in symMap ==> symMap[o] < |inputs| && inputs[symMap[o]].off == o
  }

  /** The argument of every offset of the constraint holds the offset's slot. */
  ghost predicate Linked(localMap: map<nat, nat>, args: seq<Arg>, inputs: seq<InputByte>) {
    forall o: nat :: LinkedAt(localMap, args, inputs, o)
  }

  ghost predicate LinkedAt(localMap: map<nat, nat>, args: seq<Arg>, inputs: seq<InputByte>, o: nat) {
    o in localMap ==>
      localMap[o] < |args| && args[localMap[o]].sym &&
        args[localMap[o]].v < |inputs| && inputs[args[localMap[o]].v].off == o
  }

  ghost predicate SameKeys(m: map<nat, nat>, n: map<nat, nat>) {
    forall o :: o in m <==> o in n
  }

  ghost predicate Extends(m: map<nat, nat>, m': map<nat, nat>) {
    forall o :: o in m ==> o in m' && m'[o] == m[o]
  }

  ghost predicate OneSlotEach(inputs: seq<InputByte>) {
    forall i, j :: 0 <= i < j < |inputs| ==> inputs[i].off != inputs[j].off
  }

  /** Two constraints read an offset they share through the same slot. */
  lemma {:induction false} SharedSlot(l1: map<nat, nat>, a1: seq<Arg>, l2: map<nat, nat>, a2: seq<Arg>,
      inputs: seq<InputByte>, o: nat)
    requires Linked(l1, a1, inputs) && Linked(l2, a2, inputs) && OneSlotEach(inputs) && o in l1 && o in l2
    ensures l1[o] < |a1| && l2[o] < |a2| && a1[l1[o]].v == a2[l2[o]].v
  {
    assert LinkedAt(l1, a1, inputs, o) && LinkedAt(l2, a2, inputs, o);
  }

  /** More slots do not disturb a linked constraint. */
  lemma {:induction false} LinkedGrows(localMap: map<nat, nat>, args: seq<Arg>, inputs: seq<InputByte>,
      inputs': seq<InputByte>)
    requires Linked(localMap, args, inputs) && inputs <= inputs'
    ensures Linked(localMap, args, inputs')
  {
    forall o: nat ensures LinkedAt(localMap, args, inputs', o) { assert LinkedAt(localMap, args, inputs, o); }
  }

  /** The first `k` offsets of the constraint are linked. */
  ghost predicate LinkedTo(localMap: map<nat, nat>, order: seq<nat>, args: seq<Arg>, inputs: seq<InputByte>, k: nat)
    requires k <= |order|
  {
    forall j :: 0 <= j < k ==> LinkedAt(localMap, args, inputs, order[j])
  }

  lemma {:induction false} LinkNext(localMap: map<nat, nat>, order: seq<nat>, args: seq<Arg>,
      inputs: seq<InputByte>, inputs': seq<InputByte>, constNum: nat, k: nat, g: nat)
    requires k < |order| && order[k] in localMap && ArgsOk(localMap, args, constNum)
    requires Distinct(order) && Elements(order) == localMap.Keys
    requires LinkedTo(localMap, order, args, inputs, k) && inputs <= inputs' && g < |inputs'|
    requires inputs'[g].off == order[k]
    ensures localMap[order[k]] < |args|
    ensures var i := localMap[order[k]];
      ArgsOk(localMap, args[i := args[i].(v := g)], constNum) &&
        LinkedTo(localMap, order, args[i := args[i].(v := g)], inputs', k + 1)
  {
    assert HasPlace(localMap, args, order[k]);
    var i := localMap[order[k]];
    var args' := args[i := args[i].(v := g)];
    forall o: nat ensures HasPlace(localMap, args', o) { assert HasPlace(localMap, args, o); }
    forall j | 0 <= j < k + 1 ensures LinkedAt(localMap, args', inputs', order[j]) {
      if j < k {
        assert LinkedAt(localMap, args, inputs, order[j]) && NoClash(localMap, order[j], order[k]);
        assert order[j] != order[k];
      }
    }
  }

  lemma {:induction false} AllLinked(localMap: map<nat, nat>, order: seq<nat>, args: seq<Arg>, inputs: seq<InputByte>)
    requires LinkedTo(localMap, order, args, inputs, |order|) && Elements(order) == localMap.Keys
    ensures Linked(localMap, args, inputs)
  {
    forall o: nat ensures LinkedAt(localMap, args, inputs, o) {
      if o in localMap {
        assert o in order;
        var j :| 0 <= j < |order| && order[j] == o;
        assert LinkedAt(localMap, args, inputs, order[j]);
      }
    }
  }

  /** Entering a new offset keeps the slots right. */
  lemma {:induction false} SlotAdded(symMap: map<nat, nat>, inputs: seq<InputByte>, o: nat, iv: nat)
    requires SlotsOk(symMap, inputs) && o !in symMap
    ensures SlotsOk(symMap[o := |inputs|], inputs + [InputByte(o, iv)])
  {
    var symMap', inputs' := symMap[o := |inputs|], inputs + [InputByte(o, iv)];
    forall p: nat ensures SlotOk(symMap', inputs', p) { assert SlotOk(symMap, inputs, p); }
  }

  lemma {:induction false} SlotsAreOne(symMap: map<nat, nat>, inputs: seq<InputByte>)
    requires SlotsOk(symMap, inputs)
    ensures OneSlotEach(inputs)
  {
  }

  function Offsets(inputs: seq<InputByte>): seq<nat> { seq(|inputs|, i requires 0 <= i < |inputs| => inputs[i].off) }

  /** Bytes of a constraint number at most the slots. */
  lemma {:induction false} FitsScratch(localMap: map<nat, nat>, args: seq<Arg>, constNum: nat, inputs: seq<InputByte>)
    requires ArgsOk(localMap, args, constNum) && Linked(localMap, args, inputs)
    ensures |args| <= |inputs| + constNum
  {
    forall o | o in localMap.Keys ensures o in Elements(Offsets(inputs)) {
      assert LinkedAt(localMap, args, inputs, o);
      assert Offsets(inputs)[args[localMap[o]].v] == o;
    }
    ElementsBound(Offsets(inputs));
    SubsetBound(localMap.Keys, Elements(Offsets(inputs)));
    assert |localMap| == |localMap.Keys|;
  }

  /** Every symbolic argument is a slot. */
  lemma {:induction false} ArgsInRange(localMap: map<nat, nat>, args: seq<Arg>, constNum: nat, inputs: seq<InputByte>)
    requires ArgsOk(localMap, args, constNum) && Linked(localMap, args, inputs)
    ensures forall i :: 0 <= i < |args| && args[i].sym ==> args[i].v < |inputs|
  {
    forall i | 0 <= i < |args| && args[i].sym ensures args[i].v < |inputs| {
      assert IsPlace(localMap, i);
      var o :| o in localMap && localMap[o] == i;
      assert LinkedAt(localMap, args, inputs, o);
    }
  }

  lemma {:induction false} ElementsBound(s: seq<nat>)
    ensures |Elements(s)| <= |s|
  {
    if s != [] {
      ElementsBound(s[..|s| - 1]);
      assert s == s[..|s| - 1] + [s[|s| - 1]];
      ElementsPush(s[..|s| - 1], s[|s| - 1]);
    }
  }

  lemma {:induction false} SubsetBound(a: set<nat>, b: set<nat>)
    requires a <= b
    ensures |a| <= |b|
  {
    if a != {} {
      var x :| x in a;
      SubsetBound(a - {x}, b - {x});
    }
  }

  // ---------------------------------------------------------------------------
  // Tasks
  // ---------------------------------------------------------------------------

  /** Every constraint is in order. */
  ghost predicate AllValid(constraints: seq<Cons>)
    reads constraints
  {
    forall i :: 0 <= i < |constraints| ==> constraints[i].Valid()
  }

  /** The constraints are different objects. */
  ghost predicate Separate(constraints: seq<Cons>) {
    forall i, j :: 0 <= i < j < |constraints| ==> constraints[i] != constraints[j]
  }

  ghost predicate AllFit(constraints: seq<Cons>, size: nat)
    reads constraints
  {
    forall i :: 0 <= i < |constraints| ==> 2 + |constraints[i].args| <= size
  }

  /** The first `n` constraints are linked to the slots. */
  ghost predicate AllLinkedTo(constraints: seq<Cons>, inputs: seq<InputByte>, n: nat)
    requires n <= |constraints|
    reads constraints
  {
    forall i :: 0 <= i < n ==> Linked(constraints[i].localMap, constraints[i].args, inputs)
  }

  /** The slots begin with the offsets of the first constraint, in its order. */
  ghost predicate Leads(constraints: seq<Cons>, inputs: seq<InputByte>) {
    constraints != [] ==> constraints[0].order <= Offsets(inputs)
  }

  /** A byte and its shape are those of one of the first `n` constraints. */
  ghost predicate Sourced(constraints: seq<Cons>, n: nat, b: InputByte, shape: map<nat, nat>)
    requires n <= |constraints|
  {
    exists k :: 0 <= k < n && FromCons(constraints[k], b, shape)
  }

  ghost predicate FromCons(c: Cons, b: InputByte, shape: map<nat, nat>) {
    && b.off in c.inputs && b.iv == c.inputs[b.off]
    && b.off in c.shape && b.off in shape && shape[b.off] == c.shape[b.off]
  }

  ghost predicate AllSourced(constraints: seq<Cons>, n: nat, inputs: seq<InputByte>, shape: map<nat, nat>)
    requires n <= |constraints|
  {
    forall i :: 0 <= i < |inputs| ==> Sourced(constraints, n, inputs[i], shape)
  }

  /** From place `from` on the bytes, and what the shapes gained, are the constraint's own. */
  ghost predicate Added(c: Cons, from: nat, shape: map<nat, nat>, inputs': seq<InputByte>, shape': map<nat, nat>) {
    Extends(shape, shape') && forall i :: from <= i < |inputs'| ==> FromCons(c, inputs'[i], shape')
  }

  lemma {:induction false} AddedNext(c: Cons, from: nat, shape: map<nat, nat>, inputs0: seq<InputByte>,
      shape0: map<nat, nat>, inputs1: seq<InputByte>, shape1: map<nat, nat>, o: nat)
    requires Added(c, from, shape, inputs0, shape0) && o in c.inputs && o in c.shape && from <= |inputs0|
    requires inputs1 == if o in shape0 then inputs0 else inputs0 + [InputByte(o, c.inputs[o])]
    requires shape1 == if o in shape0 then shape0 else shape0[o := c.shape[o]]
    ensures Added(c, from, shape, inputs1, shape1)
  {
    forall i | from <= i < |inputs1| ensures FromCons(c, inputs1[i], shape1) {
      if i < |inputs0| { assert FromCons(c, inputs0[i], shape0); }
    }
  }

  /** Linking one more constraint adds only its own bytes and shapes. */
  lemma {:induction false} SourcedMore(constraints: seq<Cons>, n: nat, inputs: seq<InputByte>, shape: map<nat, nat>,
      inputs': seq<InputByte>, shape': map<nat, nat>)
    requires n < |constraints| && AllSourced(constraints, n, inputs, shape) && inputs <= inputs'
    requires Added(constraints[n], |inputs|, shape, inputs', shape')
    ensures AllSourced(constraints, n + 1, inputs', shape')
  {
    forall i | 0 <= i < |inputs'| ensures Sourced(constraints, n + 1, inputs'[i], shape') {
      if i < |inputs| {
        assert Sourced(constraints, n, inputs[i], shape);
        var k :| 0 <= k < n && FromCons(constraints[k], inputs[i], shape);
        assert FromCons(constraints[k], inputs'[i], shape');
      } else {
        assert FromCons(constraints[n], inputs'[i], shape');
      }
    }
  }

  /** What linking keeps after `k` offsets of a constraint, from the slots and shapes it started with. */
  ghost predicate LinkInv(c: Cons, args: seq<Arg>, symMap: map<nat, nat>, inputs: seq<InputByte>,
      shape: map<nat, nat>, inputs0: seq<InputByte>, shape0: map<nat, nat>, k: nat)
  {
    && k <= |c.order| && ArgsOk(c.localMap, args, c.constNum) && SlotsOk(symMap, inputs) && inputs0 <= inputs
    && LinkedTo(c.localMap, c.order, args, inputs, k)
    && (inputs0 == [] ==> Offsets(inputs) == c.order[..k])
    && SameKeys(shape, symMap) && Added(c, |inputs0|, shape0, inputs, shape)
  }

  lemma {:induction false} LinkStep(c: Cons, args: seq<Arg>, symMap: map<nat, nat>, inputs: seq<InputByte>,
      shape: map<nat, nat>, inputs0: seq<InputByte>, shape0: map<nat, nat>, k: nat, symMap': map<nat, nat>,
      inputs': seq<InputByte>, shape': map<nat, nat>, g: nat)
    requires LinkInv(c, args, symMap, inputs, shape, inputs0, shape0, k) && k < |c.order|
    requires Distinct(c.order) && Elements(c.order) == c.localMap.Keys
    requires c.order[k] in c.localMap && c.order[k] in c.inputs && c.order[k] in c.shape
    requires SlotsOk(symMap', inputs') && SameKeys(shape', symMap') && g < |inputs'| && inputs'[g].off == c.order[k]
    requires inputs' == if c.order[k] in shape then inputs else inputs + [InputByte(c.order[k], c.inputs[c.order[k]])]
    requires shape' == if c.order[k] in shape then shape else shape[c.order[k] := c.shape[c.order[k]]]
    ensures c.localMap[c.order[k]] < |args|
    ensures var i := c.localMap[c.order[k]];
      LinkInv(c, args[i := args[i].(v := g)], symMap', inputs', shape', inputs0, shape0, k + 1)
  {
    var o := c.order[k];
    AddedNext(c, |inputs0|, shape0, inputs, shape, inputs', shape', o);
    LinkNext(c.localMap, c.order, args, inputs, inputs', c.constNum, k, g);
    if inputs0 == [] {
      NextIsNew(symMap, inputs, c.order, k);
      assert o !in shape;
    }
  }

  class Fut {
    const constraints: seq<Cons>
    var inputs: seq<InputByte>
    var shape: map<nat, nat>
    var maxConstNum: nat
    var scratch: array<nat>

    constructor (constraints: seq<Cons>)
      ensures this.constraints == constraints && inputs == [] && shape == map[] && maxConstNum == 0
    {
      this.constraints, inputs, shape, maxConstNum := constraints, [], map[], 0;
      scratch := new nat[0];
    }

    /**
     Every argument of every constraint has its slot, one slot per offset, and all arguments fit
     the scratch array.
     */
    ghost predicate Final()
      reads this, constraints
    {
      && AllValid(constraints) && AllLinkedTo(constraints, inputs, |constraints|)
      && OneSlotEach(inputs) && Leads(constraints, inputs)
      && AllFit(constraints, scratch.Length) && AllSourced(constraints, |constraints|, inputs, shape)
    }

    /** The slot of an offset, a new one if it has none. */
    method SlotFor(c: Cons, o: nat, symMap: map<nat, nat>) returns (gidx: nat, symMap': map<nat, nat>)
      requires SlotsOk(symMap, inputs) && SameKeys(shape, symMap) && o in c.inputs && o in c.shape
      modifies `inputs, `shape
      ensures SlotsOk(symMap', inputs) && gidx < |inputs| && inputs[gidx].off == o && SameKeys(shape, symMap')
      ensures inputs == if o in old(shape) then old(inputs) else old(inputs) + [InputByte(o, c.inputs[o])]
      ensures shape == if o in old(shape) then old(shape) else old(shape)[o := c.shape[o]]
    {
      symMap' := symMap;
      if o !in symMap' {
        gidx := |inputs|;
        SlotAdded(symMap', inputs, o, c.inputs[o]);
        symMap' := symMap'[o := gidx];
        shape := shape[o := c.shape[o]];
        inputs := inputs + [InputByte(o, c.inputs[o])];
      } else {
        gidx := symMap'[o];
        assert SlotOk(symMap', inputs, o);
      }
    }

    /** Gives the offsets of one constraint their slots. */
    method Link(c: Cons, symMap: map<nat, nat>) returns (symMap': map<nat, nat>)
      requires c.Valid() && SlotsOk(symMap, inputs) && SameKeys(shape, symMap)
      modifies `inputs, `shape, c
      ensures c.Valid() && SlotsOk(symMap', inputs) && Linked(c.localMap, c.args, inputs)
      ensures SameKeys(shape, symMap') && Added(c, |old(inputs)|, old(shape), inputs, shape)
      ensures old(inputs) <= inputs && (old(inputs) == [] ==> Offsets(inputs) == c.order)
    {
      symMap' := symMap;
      for k := 0 to |c.order|
        invariant LinkInv(c, c.args, symMap', inputs, shape, old(inputs), old(shape), k)
      {
        var o := c.order[k];
        assert o in Elements(c.order);
        ghost var before, inputs0, shape0 := symMap', inputs, shape;
        var gidx;
        gidx, symMap' := SlotFor(c, o, symMap');
        LinkStep(c, c.args, before, inputs0, shape0, old(inputs), old(shape), k, symMap', inputs, shape, gidx);
        var i := c.localMap[o];
        c.args := c.args[i := c.args[i].(v := gidx)];
      }
      assert c.order[..|c.order|] == c.order;
      AllLinked(c.localMap, c.order, c.args, inputs);
    }

    /** Links all constraints, in order. */
    method LinkAll()
      requires Separate(constraints) && AllValid(constraints) && inputs == [] && shape == map[]
      modifies `inputs, `shape, constraints
      ensures AllValid(constraints) && AllLinkedTo(constraints, inputs, |constraints|)
      ensures OneSlotEach(inputs) && Leads(constraints, inputs) && AllSourced(constraints, |constraints|, inputs, shape)
    {
      var slots: map<nat, nat> := map[];
      for i := 0 to |constraints|
        invariant AllValid(constraints) && AllLinkedTo(constraints, inputs, i) && SlotsOk(slots, inputs)
        invariant if i == 0 then inputs == [] else Leads(constraints, inputs)
        invariant SameKeys(shape, slots) && AllSourced(constraints, i, inputs, shape)
      {
        ghost var inputs0, shape0 := inputs, shape;
        assert forall j :: 0 <= j < |constraints| && j != i ==> constraints[j] != constraints[i];
        slots := Link(constraints[i], slots);
        forall j | 0 <= j < i ensures Linked(constraints[j].localMap, constraints[j].args, inputs) {
          LinkedGrows(constraints[j].localMap, constraints[j].args, inputs0, inputs);
        }
        assert Offsets(inputs)[..|inputs0|] == Offsets(inputs0);
        SourcedMore(constraints, i, inputs0, shape0, inputs, shape);
      }
      SlotsAreOne(slots, inputs);
    }

    method MaxConsts() returns (most: nat)
      ensures forall j :: 0 <= j < |constraints| ==> constraints[j].constNum <= most
    {
      most := maxConstNum;
      for i := 0 to |constraints|
        invariant forall j :: 0 <= j < i ==> constraints[j].constNum <= most
      {
        if most < constraints[i].constNum {
          most := constraints[i].constNum;
        }
      }
    }

    /** Links all constraints, then sizes the scratch array. */
    method Finalize()
      requires Separate(constraints) && AllValid(constraints) && inputs == [] && shape == map[]
      modifies this, constraints
      ensures Final() && fresh(scratch)
    {
      LinkAll();
      Allocate();
    }

    method Allocate()
      requires AllValid(constraints) && AllLinkedTo(constraints, inputs, |constraints|)
      modifies `maxConstNum, `scratch
      ensures fresh(scratch) && AllFit(constraints, scratch.Length)
    {
      maxConstNum := MaxConsts();
      scratch := new nat[2 + |inputs| + maxConstNum];
      AllFitScratch(constraints, inputs, maxConstNum);
    }

    /** Fills the scratch array for one constraint from the values of the slots. */
    method FillScratch(k: nat, value: seq<nat>)
      requires Final() && k < |constraints| && |value| == |inputs|
      modifies scratch
      ensures forall i :: 0 <= i < |constraints[k].args| ==> scratch[2 + i] == ArgValue(constraints[k].args[i], value)
    {
      var args := constraints[k].args;
      ArgsInRange(constraints[k].localMap, args, constraints[k].constNum, inputs);
      for i := 0 to |args|
        invariant forall j :: 0 <= j < i ==> scratch[2 + j] == ArgValue(args[j], value)
      {
        scratch[2 + i] := if args[i].sym then value[args[i].v] else args[i].v;
      }
    }
  }

  lemma {:induction false} AllFitScratch(constraints: seq<Cons>, inputs: seq<InputByte>, most: nat)
    requires AllValid(constraints) && AllLinkedTo(constraints, inputs, |constraints|)
    requires forall j :: 0 <= j < |constraints| ==> constraints[j].constNum <= most
    ensures AllFit(constraints, 2 + |inputs| + most)
  {
    forall i | 0 <= i < |constraints| ensures 2 + |constraints[i].args| <= 2 + |inputs| + most {
      FitsScratch(constraints[i].localMap, constraints[i].args, constraints[i].constNum, inputs);
    }
  }

  function ArgValue(a: Arg, value: seq<nat>): nat {
    if a.sym then if a.v < |value| then value[a.v] else 0 else a.v
  }

  /** Filled from nothing, every offset of the first constraint is new in turn. */
  lemma {:induction false} NextIsNew(symMap: map<nat, nat>, inputs: seq<InputByte>, order: seq<nat>, k: nat)
    requires SlotsOk(symMap, inputs) && k < |order| && Distinct(order) && Offsets(inputs) == order[..k]
    ensures order[k] !in symMap
    ensures forall iv :: Offsets(inputs + [InputByte(order[k], iv)]) == order[..k + 1]
  {
    assert SlotOk(symMap, inputs, order[k]);
    assert |inputs| == |Offsets(inputs)| == k;
    assert forall i :: 0 <= i < k ==> inputs[i].off == Offsets(inputs)[i] == order[i] && order[i] != order[k];
  }

  /**
   The constraints of a task, without those not found in the cache (`None`) and those that are
   constants (`None` too).
   */
  function Kept(parsed: seq<Option<Cons>>): seq<Cons> {
    if parsed == [] then []
    else
      var n := |parsed| - 1;
      Kept(parsed[..n]) + if parsed[n].Some? then [parsed[n].value] else []
  }

  /** The constraint at the head of the message, if it is kept. */
  function First(parsed: seq<Option<Cons>>): seq<Cons> {
    if parsed != [] && parsed[0].Some? then [parsed[0].value] else []
  }

  lemma {:induction false} KeptIn(parsed: seq<Option<Cons>>)
    ensures forall i :: 0 <= i < |Kept(parsed)| ==> Some(Kept(parsed)[i]) in parsed
  {
    if parsed != [] { KeptIn(parsed[..|parsed| - 1]); }
  }

  lemma {:induction false} FirstIsKept(parsed: seq<Option<Cons>>)
    ensures First(parsed) <= Kept(parsed)
  {
    if |parsed| > 1 { FirstIsKept(parsed[..|parsed| - 1]); }
  }

  /**
   Two tasks: all constraints kept in one, in the other the one at the head of the message or,
   when that is skipped, nothing.  Finalizing both leaves every argument valid for both.
   */
  method BuildTasks(parsed: seq<Option<Cons>>) returns (fut: Fut, futOpt: Fut)
    requires Separate(Kept(parsed)) && AllValid(Kept(parsed))
    modifies Kept(parsed)
    ensures fresh(fut) && fresh(futOpt) && fut.constraints == Kept(parsed) && futOpt.constraints == First(parsed)
    ensures fut.Final() && futOpt.Final()
  {
    KeptIn(parsed);
    var all, first := Collect(parsed);
    FirstIsKept(parsed);
    forall i | 0 <= i < |all| ensures all[i].Valid() { assert Some(all[i]) in parsed; }
    fut, futOpt := MakeTasks(all, first);
  }

  method MakeTasks(all: seq<Cons>, first: seq<Cons>) returns (fut: Fut, futOpt: Fut)
    requires Separate(all) && AllValid(all) && first <= all && |first| <= 1
    modifies all
    ensures fresh(fut) && fresh(futOpt) && fut.constraints == all && futOpt.constraints == first
    ensures fut.Final() && futOpt.Final()
  {
    fut := new Fut(all);
    futOpt := new Fut(first);
    fut.Finalize();
    if first == [] {
      FinalizeAlone(fut, futOpt);
    } else {
      assert fut.constraints[..1] == first;
      FinalizeShared(fut, futOpt);
    }
  }

  method FinalizeAlone(fut: Fut, futOpt: Fut)
    requires fut != futOpt && fut.Final() && futOpt.constraints == [] && futOpt.inputs == [] && futOpt.shape == map[]
    modifies futOpt
    ensures fut.Final() && futOpt.Final()
  {
    futOpt.Finalize();
  }

  method Collect(parsed: seq<Option<Cons>>) returns (all: seq<Cons>, first: seq<Cons>)
    ensures all == Kept(parsed) && first == First(parsed)
  {
    all, first := [], [];
    for i := 0 to |parsed|
      invariant all == Kept(parsed[..i]) && first == First(parsed[..i])
    {
      assert parsed[..i + 1][..i] == parsed[..i];
      if parsed[i].Some? {
        all := all + [parsed[i].value];
        if i == 0 {
          first := first + [parsed[i].value];
        }
      }
    }
    assert parsed[..|parsed|] == parsed;
  }

  /** Finalizes the task over the first constraint alone after the one over all of them. */
  method FinalizeShared(fut: Fut, futOpt: Fut)
    requires fut != futOpt && fut.Final() && Separate(fut.constraints) && fut.constraints != []
    requires futOpt.constraints == fut.constraints[..1] && futOpt.inputs == [] && futOpt.shape == map[]
    modifies futOpt, futOpt.constraints
    ensures fut.Final() && futOpt.Final()
  {
    var c := fut.constraints[0];
    assert futOpt.constraints == [c];
    assert forall i :: 1 <= i < |fut.constraints| ==> fut.constraints[i] != c;
    ghost var before := Snapshot(fut.constraints);
    SnapshotOk(fut.constraints, fut.inputs, fut.scratch.Length);
    futOpt.Finalize();
    assert futOpt.constraints[0] == c;
    SharedFirst(c, fut.inputs, futOpt.inputs);
    FirstRelinked(fut.constraints, before, fut.inputs, fut.scratch.Length);
  }

  /** The arguments of all constraints. */
  ghost function Snapshot(constraints: seq<Cons>): seq<seq<Arg>>
    reads constraints
  {
    seq(|constraints|, i requires 0 <= i < |constraints| reads constraints => constraints[i].args)
  }

  /** The arguments `a` would be in order, linked and short enough for the constraint. */
  ghost predicate FitsCons(c: Cons, a: seq<Arg>, inputs: seq<InputByte>, size: nat) {
    && ArgsOk(c.localMap, a, c.constNum) && Distinct(c.order) && Elements(c.order) == c.localMap.Keys
    && c.inputs.Keys == c.shape.Keys == c.localMap.Keys
    && Linked(c.localMap, a, inputs) && 2 + |a| <= size
  }

  lemma {:induction false} SnapshotOk(constraints: seq<Cons>, inputs: seq<InputByte>, size: nat)
    requires AllValid(constraints) && AllLinkedTo(constraints, inputs, |constraints|) && AllFit(constraints, size)
    ensures forall i :: 0 <= i < |constraints| ==> FitsCons(constraints[i], Snapshot(constraints)[i], inputs, size)
  {
    forall i | 0 <= i < |constraints| ensures FitsCons(constraints[i], Snapshot(constraints)[i], inputs, size) {
      assert constraints[i].Valid() && Linked(constraints[i].localMap, constraints[i].args, inputs);
    }
  }

  /** Relinking the first constraint leaves the others and all lengths as they were. */
  lemma {:induction false} FirstRelinked(constraints: seq<Cons>, before: seq<seq<Arg>>, inputs: seq<InputByte>,
      size: nat)
    requires constraints != [] && |before| == |constraints|
    requires forall i :: 0 <= i < |constraints| ==> FitsCons(constraints[i], before[i], inputs, size)
    requires forall i :: 1 <= i < |constraints| ==> constraints[i].args == before[i]
    requires constraints[0].Valid() && Linked(constraints[0].localMap, constraints[0].args, inputs)
    ensures AllValid(constraints) && AllLinkedTo(constraints, inputs, |constraints|) && AllFit(constraints, size)
  {
    forall i | 0 <= i < |constraints| ensures constraints[i].Valid() && 2 + |constraints[i].args| <= size {
      assert FitsCons(constraints[i], before[i], inputs, size);
      assert |constraints[i].args| == |before[i]|;
    }
    forall i | 0 <= i < |constraints| ensures Linked(constraints[i].localMap, constraints[i].args, inputs) {
      assert FitsCons(constraints[i], before[i], inputs, size);
    }
  }

  /** What the second task wrote into the first constraint is a slot of the first task too. */
  lemma {:induction false} SharedFirst(c: Cons, inputs: seq<InputByte>, inputsOpt: seq<InputByte>)
    requires c.Valid() && c.order <= Offsets(inputs) && c.order <= Offsets(inputsOpt) && OneSlotEach(inputsOpt)
    requires Linked(c.localMap, c.args, inputsOpt)
    ensures Linked(c.localMap, c.args, inputs)
  {
    forall o: nat ensures LinkedAt(c.localMap, c.args, inputs, o) {
      assert LinkedAt(c.localMap, c.args, inputsOpt, o);
      if o in c.localMap {
        assert o in Elements(c.order);
        var v := c.args[c.localMap[o]].v;
        var p :| 0 <= p < |c.order| && c.order[p] == o;
        assert Offsets(inputsOpt)[p] == o && Offsets(inputs)[p] == o;
        assert inputsOpt[v].off == o && inputsOpt[p].off == o;
        assert v == p;
      }
    }
  }
}
