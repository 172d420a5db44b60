/**
 The arguments of a constraint function.  Every constant and every input byte a tree reads gets
 a place in the argument list, and a task gives every byte one slot shared by its constraints.
 */
module TaskArgs {
  import opened Basics
  import opened LabelTable
  import opened Uta
  import opened Constraint

  /** An argument: the slot of an input byte, or a constant. */
  datatype Arg = Arg(sym: bool, v: nat)

  datatype InputByte = InputByte(off: nat, iv: nat)

  // ---------------------------------------------------------------------------
  // Placing the leaves of a tree
  // ---------------------------------------------------------------------------

  /** Offsets and argument places correspond one to one; the other arguments are the constants. */
  ghost predicate ArgsOk(localMap: map<nat, nat>, args: seq<Arg>, constNum: nat) {
    && (forall o: nat :: HasPlace(localMap, args, o))
    && (forall o: nat, p: nat :: NoClash(localMap, o, p))
    && (forall i :: 0 <= i < |args| && args[i].sym ==> IsPlace(localMap, i))
    && |args| == |localMap| + constNum
  }

  ghost predicate HasPlace(localMap: map<nat, nat>, args: seq<Arg>, o: nat) {
    o in localMap ==> localMap[o] < |args| && args[localMap[o]].sym
  }

  ghost predicate IsPlace(localMap: map<nat, nat>, i: nat) {
    exists o :: o in localMap && localMap[o] == i
  }

  ghost predicate NoClash(localMap: map<nat, nat>, o: nat, p: nat) {
    o in localMap && p in localMap && localMap[o] == localMap[p] ==> o == p
  }

  /** The bytes are those of the offsets met, each once, with their values in the buffer. */
  ghost predicate InputsOk(localMap: map<nat, nat>, inputs: seq<InputByte>, buf: seq<nat>) {
    && (forall i :: 0 <= i < |inputs| ==>
         inputs[i].off in localMap && inputs[i].off < |buf| && inputs[i].iv == buf[inputs[i].off])
    && (forall i, j :: 0 <= i < j < |inputs| ==> inputs[i].off != inputs[j].off)
    && |inputs| == |localMap|
  }

  ghost predicate LeafPlaced(m: AstNode, localMap: map<nat, nat>, args: seq<Arg>) {
    && (m.kind.Constant? ==> m.index < |args| && args[m.index] == Arg(false, m.value))
    && (m.kind.Read? ==> forall o :: m.index <= o < m.index + m.bits / 8 ==> o in localMap)
  }

  predicate WasSeen(c: AstNode, seen: set<nat>) { c.lbl != 0 && c.lbl in seen }

  /** The labels seen after walking the tree, and after its first `k` children. */
  ghost function Seen(n: AstNode, seen: set<nat>): set<nat>
    decreases n
  {
    SeenTo(n, |n.children|, seen)
  }

  ghost function SeenTo(n: AstNode, k: nat, seen: set<nat>): set<nat>
    requires k <= |n.children|
    decreases n, k
  {
    if k == 0 then seen
    else
      var s, c := SeenTo(n, k - 1, seen), n.children[k - 1];
      if WasSeen(c, s) then s else Seen(c, s + {c.lbl})
  }

  /** `m` is `n` with the constants' places written in, and every leaf that is walked is placed. */
  ghost predicate Placed(n: AstNode, m: AstNode, seen: set<nat>, localMap: map<nat, nat>, args: seq<Arg>)
    decreases n
  {
    && m == n.(index := m.index, children := m.children) && (!n.kind.Constant? ==> m.index == n.index)
    && LeafPlaced(m, localMap, args)
    && |m.children| == |n.children|
    && forall k :: 0 <= k < |n.children| ==> ChildPlaced(n, m, k, seen, localMap, args)
  }

  ghost predicate ChildPlaced(n: AstNode, m: AstNode, k: nat, seen: set<nat>, localMap: map<nat, nat>, args: seq<Arg>)
    requires k < |n.children| == |m.children|
    decreases n, 0
  {
    var s, c := SeenTo(n, k, seen), n.children[k];
    if WasSeen(c, s) then m.children[k] == c else Placed(c, m.children[k], s + {c.lbl}, localMap, args)
  }

  ghost predicate ChildrenPlaced(n: AstNode, m: AstNode, i: nat, seen: set<nat>, localMap: map<nat, nat>,
      args: seq<Arg>)
    requires i <= |n.children| == |m.children|
  {
    forall k :: 0 <= k < i ==> ChildPlaced(n, m, k, seen, localMap, args)
  }

  ghost predicate Grows(localMap: map<nat, nat>, args: seq<Arg>, localMap': map<nat, nat>, args': seq<Arg>) {
    && (forall o :: o in localMap ==> o in localMap' && localMap'[o] == localMap[o])
    && args <= args'
  }

  lemma {:induction false} PlacedGrows(n: AstNode, m: AstNode, seen: set<nat>, localMap: map<nat, nat>,
      args: seq<Arg>, localMap': map<nat, nat>, args': seq<Arg>)
    requires Placed(n, m, seen, localMap, args) && Grows(localMap, args, localMap', args')
    ensures Placed(n, m, seen, localMap', args')
    decreases n
  {
    forall k | 0 <= k < |n.children| ensures ChildPlaced(n, m, k, seen, localMap', args') {
      assert ChildPlaced(n, m, k, seen, localMap, args);
      var s, c := SeenTo(n, k, seen), n.children[k];
      if !WasSeen(c, s) { PlacedGrows(c, m.children[k], s + {c.lbl}, localMap, args, localMap', args'); }
    }
  }

  /** All bytes the tree reads lie in the buffer. */
  ghost predicate ReadsFit(n: AstNode, size: nat)
    decreases n
  {
    && (n.kind.Read? ==> n.index + n.bits / 8 <= size)
    && forall k :: 0 <= k < |n.children| ==> ReadsFit(n.children[k], size)
  }

  class Mapper {
    const buf: seq<nat>
    var localMap: map<nat, nat>
    var shape: map<nat, nat>
    var args: seq<Arg>
    var inputs: seq<InputByte>
    var visited: set<nat>
    var constNum: nat

    ghost predicate Valid()
      reads this
    {
      ArgsOk(localMap, args, constNum) && InputsOk(localMap, inputs, buf) && shape.Keys == localMap.Keys
    }

    constructor (buf: seq<nat>)
      ensures Valid() && this.buf == buf && args == [] && visited == {}
    {
      this.buf := buf;
      localMap, shape, args, inputs, visited, constNum := map[], map[], [], [], {}, 0;
    }

    /** Walks the tree in post-order and places its leaves. */
    method MapArgs(n: AstNode) returns (m: AstNode)
      requires Valid() && ReadsFit(n, |buf|)
      modifies this
      ensures Valid() && Grows(old(localMap), old(args), localMap, args)
      ensures visited == Seen(n, old(visited)) && Placed(n, m, old(visited), localMap, args)
      decreases n
    {
      m := MapChildren(n);
      ghost var before, localMap0, args0 := m, localMap, args;
      m := PlaceLeaf(m);
      GrowsTwice(old(localMap), old(args), localMap0, args0, localMap, args);
      ChildrenGrow(n, before, m, |n.children|, old(visited), localMap0, args0, localMap, args);
    }

    method MapChildren(n: AstNode) returns (m: AstNode)
      requires Valid() && ReadsFit(n, |buf|)
      modifies this
      ensures Valid() && Grows(old(localMap), old(args), localMap, args)
      ensures m == n.(children := m.children) && |m.children| == |n.children|
      ensures visited == Seen(n, old(visited)) && ChildrenPlaced(n, m, |n.children|, old(visited), localMap, args)
      decreases n, 0
    {
      m := n;
      for i := 0 to |n.children|
        invariant Valid() && Grows(old(localMap), old(args), localMap, args)
        invariant m == n.(children := m.children) && |m.children| == |n.children|
        invariant forall k :: i <= k < |n.children| ==> m.children[k] == n.children[k]
        invariant visited == SeenTo(n, i, old(visited))
        invariant ChildrenPlaced(n, m, i, old(visited), localMap, args)
      {
        ghost var before, localMap0, args0 := m, localMap, args;
        var c := MapChild(n, i, old(visited));
        m := m.(children := m.children[i := c]);
        GrowsTwice(old(localMap), old(args), localMap0, args0, localMap, args);
        ChildAdded(n, before, m, i, c, old(visited), localMap0, args0, localMap, args);
      }
    }

    /** One child, unless its label has been seen. */
    method MapChild(n: AstNode, i: nat, ghost seen: set<nat>) returns (c: AstNode)
      requires Valid() && ReadsFit(n, |buf|) && i < |n.children| && visited == SeenTo(n, i, seen)
      modifies this
      ensures Valid() && Grows(old(localMap), old(args), localMap, args)
      ensures visited == SeenTo(n, i + 1, seen)
      ensures if WasSeen(n.children[i], old(visited)) then c == n.children[i]
        else Placed(n.children[i], c, old(visited) + {n.children[i].lbl}, localMap, args)
      decreases n, 0, 0
    {
      c := n.children[i];
      if !(c.lbl != 0 && c.lbl in visited) {
        visited := visited + {c.lbl};
        c := MapArgs(c);
      }
    }

    method PlaceLeaf(n: AstNode) returns (m: AstNode)
      requires Valid() && (n.kind.Read? ==> n.index + n.bits / 8 <= |buf|)
      modifies `localMap, `shape, `args, `inputs, `constNum
      ensures Valid() && Grows(old(localMap), old(args), localMap, args)
      ensures m == n.(index := m.index) && (!n.kind.Constant? ==> m.index == n.index) && LeafPlaced(m, localMap, args)
    {
      m := n;
      if n.kind.Constant? {
        m := n.(index := |args|);
        ConstAdded(localMap, args, constNum, n.value);
        args := args + [Arg(false, n.value)];
        constNum := constNum + 1;
      } else if n.kind.Read? {
        PlaceBytes(n.index, n.bits / 8);
      }
    }

    /** Gives every byte of a read a place, unless it has one. */
    method PlaceBytes(index: nat, length: nat)
      requires Valid() && index + length <= |buf|
      modifies `localMap, `shape, `args, `inputs
      ensures Valid() && Grows(old(localMap), old(args), localMap, args)
      ensures BytesPlaced(old(localMap), old(shape), localMap, shape, index, length, length)
    {
      for i := 0 to length
        invariant Valid() && Grows(old(localMap), old(args), localMap, args)
        invariant BytesPlaced(old(localMap), old(shape), localMap, shape, index, i, length)
      {
        ghost var localMap0, args0, shape0 := localMap, args, shape;
        PlaceByte(index + i, if i == 0 then length else 0);
        GrowsTwice(old(localMap), old(args), localMap0, args0, localMap, args);
        NextByte(old(localMap), old(shape), localMap0, shape0, localMap, shape, index, i, length);
      }
    }

    method PlaceByte(offset: nat, length: nat)
      requires Valid() && offset < |buf|
      modifies `localMap, `shape, `args, `inputs
      ensures Valid()
      ensures Grows(old(localMap), old(args), localMap, args) && localMap.Keys == old(localMap).Keys + {offset}
      ensures shape == if offset in old(localMap) then old(shape) else old(shape)[offset := length]
      ensures inputs == if offset in old(localMap) then old(inputs) else old(inputs) + [InputByte(offset, buf[offset])]
    {
      if offset !in localMap {
        ArgAdded(localMap, args, constNum, inputs, buf, offset);
        localMap := localMap[offset := |args|];
        args := args + [Arg(true, 0)];
        inputs := inputs + [InputByte(offset, buf[offset])];
        shape := shape[offset := length];
      }
    }
  }

  /** The first `i` bytes of a read have places; a new group of bytes has its length at the first. */
  ghost predicate BytesPlaced(localMap: map<nat, nat>, shape: map<nat, nat>, localMap': map<nat, nat>,
      shape': map<nat, nat>, index: nat, i: nat, length: nat) {
    && shape.Keys == localMap.Keys && shape'.Keys == localMap'.Keys
    && (forall o :: o in localMap' <==> o in localMap || index <= o < index + i)
    && (forall o :: o in localMap' ==>
         shape'[o] == if o in localMap then shape[o] else if o == index then length else 0)
  }

  lemma {:induction false} NextByte(localMap: map<nat, nat>, shape: map<nat, nat>, localMap1: map<nat, nat>,
      shape1: map<nat, nat>, localMap2: map<nat, nat>, shape2: map<nat, nat>, index: nat, i: nat, length: nat)
    requires BytesPlaced(localMap, shape, localMap1, shape1, index, i, length) && shape2.Keys == localMap2.Keys
    requires localMap2.Keys == localMap1.Keys + {index + i}
    requires shape2 == if index + i in localMap1 then shape1 else shape1[index + i := if i == 0 then length else 0]
    ensures BytesPlaced(localMap, shape, localMap2, shape2, index, i + 1, length)
  {
    forall o ensures o in localMap2 <==> o in localMap || index <= o < index + i + 1 {
      assert o in localMap2 <==> o in localMap1 || o == index + i;
    }
  }

  lemma {:induction false} GrowsTwice(l0: map<nat, nat>, a0: seq<Arg>, l1: map<nat, nat>, a1: seq<Arg>,
      l2: map<nat, nat>, a2: seq<Arg>)
    requires Grows(l0, a0, l1, a1) && Grows(l1, a1, l2, a2)
    ensures Grows(l0, a0, l2, a2)
  {
  }

  lemma {:induction false} ArgAdded(localMap: map<nat, nat>, args: seq<Arg>, constNum: nat, inputs: seq<InputByte>,
      buf: seq<nat>, offset: nat)
    requires ArgsOk(localMap, args, constNum) && InputsOk(localMap, inputs, buf)
    requires offset !in localMap && offset < |buf|
    ensures ArgsOk(localMap[offset := |args|], args + [Arg(true, 0)], constNum)
    ensures InputsOk(localMap[offset := |args|], inputs + [InputByte(offset, buf[offset])], buf)
  {
    var localMap', args' := localMap[offset := |args|], args + [Arg(true, 0)];
    assert localMap'.Keys == localMap.Keys + {offset};
    forall o: nat ensures HasPlace(localMap', args', o) { assert HasPlace(localMap, args, o); }
    forall o: nat, p: nat ensures NoClash(localMap', o, p) {
      assert NoClash(localMap, o, p) && HasPlace(localMap, args, o) && HasPlace(localMap, args, p);
    }
    forall i | 0 <= i < |args'| && args'[i].sym ensures IsPlace(localMap', i) {
      if i == |args| {
        assert localMap'[offset] == i;
      } else {
        assert IsPlace(localMap, i);
        var o :| o in localMap && localMap[o] == i;
        assert localMap'[o] == i;
      }
    }
  }

  lemma {:induction false} ConstAdded(localMap: map<nat, nat>, args: seq<Arg>, constNum: nat, v: nat)
    requires ArgsOk(localMap, args, constNum)
    ensures ArgsOk(localMap, args + [Arg(false, v)], constNum + 1)
  {
    forall o: nat ensures HasPlace(localMap, args + [Arg(false, v)], o) { assert HasPlace(localMap, args, o); }
  }


  /** A placed child stays placed when more is placed and other children are rewritten. */
  lemma {:induction false} ChildGrows(n: AstNode, m: AstNode, m': AstNode, k: nat, seen: set<nat>,
      localMap: map<nat, nat>, args: seq<Arg>, localMap': map<nat, nat>, args': seq<Arg>)
    requires k < |n.children| == |m.children| == |m'.children| && m'.children[k] == m.children[k]
    requires ChildPlaced(n, m, k, seen, localMap, args) && Grows(localMap, args, localMap', args')
    ensures ChildPlaced(n, m', k, seen, localMap', args')
  {
    var s, c := SeenTo(n, k, seen), n.children[k];
    if !WasSeen(c, s) { PlacedGrows(c, m.children[k], s + {c.lbl}, localMap, args, localMap', args'); }
  }

  lemma {:induction false} ChildrenGrow(n: AstNode, m: AstNode, m': AstNode, i: nat, seen: set<nat>,
      localMap: map<nat, nat>, args: seq<Arg>, localMap': map<nat, nat>, args': seq<Arg>)
    requires i <= |n.children| == |m.children| == |m'.children| &&
      forall k :: 0 <= k < i ==> m'.children[k] == m.children[k]
    requires ChildrenPlaced(n, m, i, seen, localMap, args) && Grows(localMap, args, localMap', args')
    ensures ChildrenPlaced(n, m', i, seen, localMap', args')
  {
    forall k | 0 <= k < i ensures ChildPlaced(n, m', k, seen, localMap', args') {
      assert ChildPlaced(n, m, k, seen, localMap, args);
      ChildGrows(n, m, m', k, seen, localMap, args, localMap', args');
    }
  }

  lemma {:induction false} ChildAdded(n: AstNode, m: AstNode, m': AstNode, i: nat, c: AstNode, seen: set<nat>,
      localMap: map<nat, nat>, args: seq<Arg>, localMap': map<nat, nat>, args': seq<Arg>)
    requires i < |n.children| == |m.children| && m'.children == m.children[i := c]
    requires ChildrenPlaced(n, m, i, seen, localMap, args) && Grows(localMap, args, localMap', args')
    requires var s := SeenTo(n, i, seen);
      if WasSeen(n.children[i], s) then c == n.children[i]
        else Placed(n.children[i], c, s + {n.children[i].lbl}, localMap', args')
    ensures ChildrenPlaced(n, m', i + 1, seen, localMap', args')
  {
    ChildrenGrow(n, m, m', i, seen, localMap, args, localMap', args');
    assert ChildPlaced(n, m', i, seen, localMap', args');
  }

  // ---------------------------------------------------------------------------
  // In the tree of a label nothing but stubs is skipped
  // ---------------------------------------------------------------------------

  /** The nodes the walk skips are stubs. */
  ghost predicate SkipsStubsOnly(n: AstNode, seen: set<nat>)
    decreases n
  {
    forall k :: 0 <= k < |n.children| ==> ChildSkipsStubsOnly(n, k, seen)
  }

  ghost predicate ChildSkipsStubsOnly(n: AstNode, k: nat, seen: set<nat>)
    requires k < |n.children|
    decreases n, 0
  {
    var s, c := SeenTo(n, k, seen), n.children[k];
    if WasSeen(c, s) then c.kind.Bool0? else SkipsStubsOnly(c, s + {c.lbl})
  }

  lemma {:induction false} ScanGrows(n: AstNode, known: set<nat>)
    requires Scan(n, known).Some?
    ensures known <= Scan(n, known).value
    decreases n
  {
    if !(n.lbl != 0 && n.kind.Bool0?) { ScanAllGrows(n, 0, known); }
  }

  lemma {:induction false} ScanAllGrows(n: AstNode, k: nat, known: set<nat>)
    requires k <= |n.children| && ScanAll(n, k, known).Some?
    ensures known <= ScanAll(n, k, known).value
    decreases n, |n.children| - k
  {
    if k < |n.children| {
      ScanGrows(n.children[k], known);
      ScanAllGrows(n, k + 1, Scan(n.children[k], known).value);
    }
  }

  /** The same labels; the label 0 means none. */
  ghost predicate SameLabels(s: set<nat>, t: set<nat>) { s - {0} == t - {0} }

  /**
   Walking a tree whose labels are expanded once and before their stubs, with the labels known
   so far and those of the nodes above seen, skips only stubs, and sees what is then known.
   */
  lemma {:induction false} WalkSkipsStubs(n: AstNode, known: set<nat>, above: set<nat>, seen: set<nat>)
    requires ScanAll(n, 0, known).Some? && above !! ScanAll(n, 0, known).value && SameLabels(seen, known + above)
    ensures SkipsStubsOnly(n, seen) && SameLabels(Seen(n, seen), ScanAll(n, 0, known).value + above)
    decreases n
  {
    WalkSkipsStubsTo(n, known, above, seen, |n.children|);
    forall k | 0 <= k < |n.children| ensures ChildSkipsStubsOnly(n, k, seen) {
      WalkSkipsStubsTo(n, known, above, seen, k + 1);
    }
  }

  /** The labels known after the first `k` children. */
  ghost function KnownTo(n: AstNode, known: set<nat>, k: nat): Option<set<nat>>
    requires k <= |n.children|
  {
    if k == 0 then Some(known)
    else match KnownTo(n, known, k - 1) case None => None case Some(s) => Scan(n.children[k - 1], s)
  }

  lemma {:induction false} KnownToIsScan(n: AstNode, known: set<nat>, k: nat)
    requires k <= |n.children| && ScanAll(n, 0, known).Some?
    ensures KnownTo(n, known, k).Some? && ScanAll(n, k, KnownTo(n, known, k).value) == ScanAll(n, 0, known)
  {
    if k > 0 { KnownToIsScan(n, known, k - 1); }
  }

  lemma {:induction false} WalkSkipsStubsTo(n: AstNode, known: set<nat>, above: set<nat>, seen: set<nat>, k: nat)
    requires k <= |n.children| && ScanAll(n, 0, known).Some?
    requires above !! ScanAll(n, 0, known).value && SameLabels(seen, known + above)
    ensures KnownTo(n, known, k).Some? && SameLabels(SeenTo(n, k, seen), KnownTo(n, known, k).value + above)
    ensures k > 0 ==> ChildSkipsStubsOnly(n, k - 1, seen)
    ensures k == |n.children| ==> KnownTo(n, known, k) == ScanAll(n, 0, known)
    decreases n, k
  {
    KnownToIsScan(n, known, k);
    if k > 0 {
      WalkSkipsStubsTo(n, known, above, seen, k - 1);
      KnownToIsScan(n, known, k - 1);
      var s, c := KnownTo(n, known, k - 1).value, n.children[k - 1];
      var after, seen' := KnownTo(n, known, k).value, SeenTo(n, k - 1, seen);
      assert Scan(c, s) == Some(after);
      ScanAllGrows(n, k, after);
      if !(c.lbl != 0 && c.kind.Bool0?) {
        ScanAllGrows(c, 0, s);
        var above' := if c.lbl == 0 then above else above + {c.lbl};
        NotSkipped(c, s, above, seen', after);
        WalkSkipsStubs(c, s, above', seen' + {c.lbl});
      } else {
        NotKnown(c, s, above, seen');
      }
    }
  }

  lemma {:induction false} NotSkipped(c: AstNode, s: set<nat>, above: set<nat>, seen: set<nat>, after: set<nat>)
    requires !(c.lbl != 0 && c.kind.Bool0?) && Scan(c, s) == Some(after) && s <= ScanAll(c, 0, s).value
    requires above !! after && SameLabels(seen, s + above)
    ensures !WasSeen(c, seen) && SameLabels(seen + {c.lbl}, s + if c.lbl == 0 then above else above + {c.lbl})
  {
    assert c.lbl != 0 ==> (c.lbl in seen <==> c.lbl in seen - {0});
    assert c.lbl != 0 ==> (c.lbl in s + above <==> c.lbl in (s + above) - {0});
    var above' := if c.lbl == 0 then above else above + {c.lbl};
    forall l ensures l in (seen + {c.lbl}) - {0} <==> l in (s + above') - {0} {
      assert l != 0 ==> (l in seen <==> l in seen - {0}) && (l in s + above <==> l in (s + above) - {0});
    }
  }

  lemma {:induction false} NotKnown(c: AstNode, s: set<nat>, above: set<nat>, seen: set<nat>)
    requires c.lbl != 0 && c.lbl in s && SameLabels(seen, s + above)
    ensures WasSeen(c, seen)
  {
    assert c.lbl in (s + above) - {0};
    assert c.lbl in seen - {0};
  }

  /** For a tree whose labels are expanded once, from nothing seen. */
  lemma {:induction false} ScannedIsPlaced(n: AstNode)
    requires ScanAll(n, 0, {}).Some?
    ensures SkipsStubsOnly(n, {})
  {
    WalkSkipsStubs(n, {}, {}, {});
  }

  lemma {:induction false} SameChildrenScan(n: AstNode, m: AstNode, k: nat, known: set<nat>)
    requires n.children == m.children && k <= |n.children|
    ensures ScanAll(m, k, known) == ScanAll(n, k, known)
    decreases |n.children| - k
  {
    if k < |n.children| && Scan(n.children[k], known).Some? {
      SameChildrenScan(n, m, k + 1, Scan(n.children[k], known).value);
    }
  }

  /** The tree of a comparison label: its operands' trees, constants without children. */
  lemma {:induction false} ComparisonScans(t: Table, c: nat)
    requires WellFormed(t) && 0 < c < |t| && Expands(t, c) && IsComparison(t[c])
    ensures Encode(t, c, map[]).Tree?
    ensures var n := Encode(t, c, map[]).node;
      && IsRelational(n) && |n.children| == 2 && ScanAll(n, 0, {}).Some?
      && (n.children[0].kind.Constant? ==> n.children[0].lbl == 0 && n.children[0].children == [])
      && (forall k :: 0 <= k < 2 && n.children[k].kind.ZExt? ==> |n.children[k].children| == 1)
  {
    assert EntryOk(t, c);
    ScanOfLabel(t, c, map[]);
    var n := Encode(t, c, map[]).node;
    if t[c].l1 != 0 { OperandKinds(t, t[c].l1, map[]); }
    if t[c].l2 != 0 { OperandKinds(t, t[c].l2, EncodeLeft(t, c, map[]).cache); }
  }

  lemma {:induction false} OperandKinds(t: Table, l: nat, cache: Cache)
    requires WellFormed(t) && 0 < l < |t| && Encode(t, l, cache).Tree?
    ensures var n := Encode(t, l, cache).node; !n.kind.Constant? && (n.kind.ZExt? ==> |n.children| == 1)
  {
    assert EntryOk(t, l);
  }

  /** The comparison under a widened operand is scanned from nothing known. */
  lemma {:induction false} InnerScans(n: AstNode, left: AstNode, right: AstNode)
    requires |n.children| == 2 && ScanAll(n, 0, {}).Some?
    requires n.children[0].kind.Constant? ==> n.children[0].lbl == 0 && n.children[0].children == []
    requires ExtensionAndConstant(n.children[0], n.children[1]) == Some((left, right))
    requires |left.children| == 1 && IsRelational(left.children[0])
    ensures ScanAll(left.children[0], 0, {}).Some?
  {
    var c0, c1 := n.children[0], n.children[1];
    assert Scan(c0, {}).Some? && Scan(c1, Scan(c0, {}).value).Some?;
    if c0.kind.Constant? { assert Scan(c0, {}) == Some({}); }
    assert Scan(left, {}).Some? && ScanAll(left, 0, {}).Some?;
    assert Scan(left.children[0], {}).Some?;
  }

  /** Flipping and simplifying keep every label expanded once. */
  lemma {:induction false} SimplifiedScans(n: AstNode)
    requires IsRelational(n) && |n.children| == 2 && ScanAll(n, 0, {}).Some?
    requires n.children[0].kind.Constant? ==> n.children[0].lbl == 0 && n.children[0].children == []
    requires forall k :: 0 <= k < 2 && n.children[k].kind.ZExt? ==> |n.children[k].children| == 1
    ensures Simplify(n).Some? && ScanAll(Simplify(n).value, 0, {}).Some?
  {
    var m := Simplify(n);
    if m != Some(n) {
      var p := ExtensionAndConstant(n.children[0], n.children[1]);
      assert p.Some?;
      var left, right := p.value.0, p.value.1;
      assert left == n.children[0] || left == n.children[1];
      InnerScans(n, left, right);
      SameChildrenScan(left.children[0], m.value, 0, {});
    }
  }

  /** The walk over the constraint of a comparison, flipped and collapsed or not, skips stubs only. */
  lemma {:induction false} ConstraintIsPlaced(t: Table, c: nat, flip: bool)
    requires WellFormed(t) && 0 < c < |t| && Expands(t, c) && IsComparison(t[c])
    ensures ConstraintOf(t, c, flip).Some? && SkipsStubsOnly(ConstraintOf(t, c, flip).value, {})
  {
    ComparisonScans(t, c);
    var n := Encode(t, c, map[]).node;
    var m := if flip then Flip(n).value else n;
    SameChildrenScan(n, m, 0, {});
    SimplifiedScans(m);
    ScannedIsPlaced(Simplify(m).value);
  }

  /** Every label the constraint theorems speak of expands. */
  lemma {:induction false} ReadableExpands(t: Table, c: nat)
    requires WellFormed(t) && 0 < c < |t| && Readable(t, c)
    ensures Expands(t, c)
  {
    var info := t[c];
    assert EntryOk(t, c);
    if Collapses(t, info) {
      var z := LabelOperand(info);
      assert EntryOk(t, z);
      TypedExpands(t, Inner(t, info));
      assert Expands(t, z);
    } else {
      TypedExpands(t, c);
    }
  }
}
