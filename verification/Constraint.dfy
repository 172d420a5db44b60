/**
 The constraint handed to the search for a branch: the tree of its comparison, flipped so that
 it asks for the other direction, with a comparison hidden under a zero extension pulled out.
 */
module Constraint {
  import opened Arithmetic
  import opened Basics
  import opened Expr
  import opened LabelTable
  import opened LabelValue
  import opened Uta
  import S = Serialize

  const MAX_TREE: nat := 80

  function FlipOp(op: CmpOp): CmpOp {
    match op
    case Equal => Distinct
    case Distinct => Equal
    case Sge => Slt
    case Sgt => Sle
    case Sle => Sgt
    case Slt => Sge
    case Uge => Ult
    case Ugt => Ule
    case Ule => Ugt
    case Ult => Uge
  }

  predicate IsRelational(n: AstNode) { n.kind.Two? && n.kind.shape.Rel? }

  /** `None` is a panic on a node that compares nothing. */
  function Flip(n: AstNode): Option<AstNode> {
    if IsRelational(n) then Some(n.(kind := Two(Rel(FlipOp(n.kind.shape.cop))))) else None
  }

  /** A zero extension and a constant, in either order. */
  function ExtensionAndConstant(c0: AstNode, c1: AstNode): Option<(AstNode, AstNode)> {
    if c1.kind.ZExt? && c0.kind.Constant? then Some((c1, c0))
    else if c0.kind.ZExt? && c1.kind.Constant? then Some((c0, c1))
    else None
  }

  /** An equality or inequality of a zero-extended comparison with a constant becomes that comparison. */
  function Simplify(src: AstNode): Option<AstNode> {
    if !IsRelational(src) || (src.kind.shape.cop != Equal && src.kind.shape.cop != Distinct) then Some(src)
    else if |src.children| < 2 then None
    else
      match ExtensionAndConstant(src.children[0], src.children[1])
      case None => Some(src)
      case Some((left, right)) =>
        if |left.children| < 1 then None
        else
          var inner := left.children[0];
          if !IsRelational(inner) then Some(src)
          else if (src.kind.shape.cop == Distinct) == (right.value == 0) then Some(inner)
          else Flip(inner)
  }

  // ---------------------------------------------------------------------------
  // Flipping negates
  // ---------------------------------------------------------------------------

  lemma {:induction false} FlipNegates(op: CmpOp, l: Value, r: Value)
    requires RelV(op, l, r).VBool?
    ensures RelV(FlipOp(op), l, r) == VBool(!RelV(op, l, r).b)
    ensures FlipOp(FlipOp(op)) == op
  {
  }

  /** The value of a comparison node is that of its operator on the walked operands. */
  lemma {:induction false} WalkRelational(n: AstNode, x: Input)
    requires IsRelational(n) && |n.children| == 2
    ensures var l := Walk(n.children[0], map[], x);
      Walk(n, map[], x).0 == WalkBinary(n.kind.shape, l.0, Walk(n.children[1], l.1, x).0)
  {
  }

  // ---------------------------------------------------------------------------
  // Comparison labels
  // ---------------------------------------------------------------------------

  predicate IsComparison(info: LabelInfo) {
    !IsLeaf(info.op) && !S.IsUnary(info.op) && ShapeOf(info).Rel?
  }

  /** The operand that is a label when the other one is a constant. */
  function LabelOperand(info: LabelInfo): nat { if info.l1 == 0 then info.l2 else info.l1 }

  function ConstOperand(info: LabelInfo): nat { if info.l1 == 0 then info.op1 else info.op2 }

  /** An equality or inequality of a zero-extended comparison with a constant. */
  predicate Collapses(t: Table, info: LabelInfo)
    requires info.l1 < |t| && info.l2 < |t|
  {
    && IsComparison(info) && (ShapeOf(info).cop == Equal || ShapeOf(info).cop == Distinct)
    && (info.l1 == 0) != (info.l2 == 0)
    && t[LabelOperand(info)].op == ZEXT
    && 0 < t[LabelOperand(info)].l1 < |t| && IsComparison(t[t[LabelOperand(info)].l1])
  }

  function Inner(t: Table, info: LabelInfo): nat
    requires info.l1 < |t| && info.l2 < |t|
  {
    t[LabelOperand(info)].l1
  }

  /** A comparison label the walk can read back, once a collapsing one is collapsed. */
  ghost predicate Readable(t: Table, c: nat)
    requires WellFormed(t) && 0 < c < |t|
  {
    var info := t[c];
    assert EntryOk(t, c);
    && IsComparison(info)
    && if Collapses(t, info) then 2 <= info.size && Walkable(t, Inner(t, info)) else Walkable(t, c)
  }

  /**
   When collapsing is right on `x`: the constant is 0, or is 1 in the width compared, or is
   some other number and the inner comparison is false.
   */
  ghost predicate Exact(t: Table, c: nat, x: Input)
    requires WellFormed(t) && 0 < c < |t|
  {
    var info := t[c];
    assert EntryOk(t, c);
    IsComparison(info) && Collapses(t, info) ==>
      var k, v := ConstOperand(info), Mod(ConstOperand(info), info.size);
      k == 0 || v == 1 || (v >= 2 && ValueOf(t, Inner(t, info), x) == VBool(false))
  }

  /** The tree of the comparison, flipped if asked, then simplified. */
  ghost function ConstraintOf(t: Table, c: nat, flip: bool): Option<AstNode>
    requires WellFormed(t) && 0 < c < |t|
  {
    var r := Encode(t, c, map[]);
    if r.Panic? then None
    else if !flip then Simplify(r.node)
    else match Flip(r.node) case None => None case Some(n) => Simplify(n)
  }

  ghost function Meaning(n: AstNode, x: Input): Value { Walk(n, map[], x).0 }

  lemma {:induction false} FlippedMeaning(n: AstNode, x: Input)
    requires IsRelational(n) && |n.children| == 2 && Meaning(n, x).VBool?
    ensures Meaning(Flip(n).value, x) == VBool(!Meaning(n, x).b)
  {
    var l := Walk(n.children[0], map[], x);
    WalkRelational(n, x);
    WalkRelational(Flip(n).value, x);
    FlipNegates(n.kind.shape.cop, l.0, Walk(n.children[1], l.1, x).0);
  }

  /** Which labels give which kinds of node. */
  lemma {:induction false} NodeKinds(t: Table, l: nat, cache: Cache)
    requires WellFormed(t) && 0 < l < |t| && Encode(t, l, cache).Tree? && 0 !in cache
    ensures var n := Encode(t, l, cache).node;
      && !n.kind.Constant?
      && (IsRelational(n) ==> IsComparison(t[l]))
      && (n.kind.ZExt? ==> t[l].op == ZEXT && t[l].l1 != 0)
  {
    assert EntryOk(t, l);
  }

  lemma {:induction false} ExtensionChild(t: Table, l: nat, cache: Cache)
    requires WellFormed(t) && 0 < l < |t| && Encode(t, l, cache).Tree? && Encode(t, l, cache).node.kind.ZExt?
    ensures t[l].l1 < l && Encode(t, t[l].l1, cache).Tree?
    ensures Encode(t, l, cache).node.children == [Encode(t, t[l].l1, cache).node]
  {
    assert EntryOk(t, l);
  }

  /** Without a zero-extended comparison against a constant there is nothing to simplify. */
  lemma {:induction false} NothingToSimplify(t: Table, c: nat, cache: Cache, n: AstNode)
    requires WellFormed(t) && 0 < c < |t| && IsComparison(t[c]) && t[c].l1 < c && t[c].l2 < c && !Collapses(t, t[c])
    requires EncodeLeft(t, c, cache).Tree? && EncodeRight(t, c, EncodeLeft(t, c, cache).cache).Tree? && 0 !in cache
    requires n.children == [EncodeLeft(t, c, cache).node, EncodeRight(t, c, EncodeLeft(t, c, cache).cache).node]
    requires n.kind == Two(ShapeOf(t[c])) || n.kind == Two(Rel(FlipOp(ShapeOf(t[c]).cop)))
    ensures Simplify(n) == Some(n)
  {
    var info, cop := t[c], ShapeOf(t[c]).cop;
    if cop == Equal || cop == Distinct {
      var l := EncodeLeft(t, c, cache);
      var r := EncodeRight(t, c, l.cache);
      if info.l1 != 0 { NodeKinds(t, info.l1, cache); }
      if info.l1 == 0 && info.l2 != 0 { NodeKinds(t, info.l2, l.cache); }
      if ExtensionAndConstant(l.node, r.node).Some? {
        if info.l1 == 0 {
          ExtensionChild(t, info.l2, l.cache);
          NodeKinds(t, t[info.l2].l1, l.cache);
        } else {
          ExtensionChild(t, info.l1, cache);
          NodeKinds(t, t[info.l1].l1, cache);
        }
      }
    }
  }

  /** The tree of a comparison has the trees of its operands below it. */
  lemma {:induction false} ComparisonTree(t: Table, c: nat)
    requires WellFormed(t) && 0 < c < |t| && IsComparison(t[c]) && t[c].l1 < c && t[c].l2 < c
    requires EncodeLeft(t, c, map[]).Tree? && EncodeRight(t, c, EncodeLeft(t, c, map[]).cache).Tree?
    ensures var l := EncodeLeft(t, c, map[]);
      var r := EncodeRight(t, c, l.cache);
      && Encode(t, c, map[]).Tree?
      && Encode(t, c, map[]).node == AstNode(Two(ShapeOf(t[c])), NodeBits(t[c]), 0, 0, c, [l.node, r.node])
  {
    EncodeBinary(t, c, map[]);
  }

  lemma {:induction false} WalkableEncodes(t: Table, c: nat, cache: Cache)
    requires WellFormed(t) && 0 < c < |t| && IsComparison(t[c]) && Walkable(t, c) && Closed(t, cache.Keys)
    ensures t[c].l1 < c && t[c].l2 < c
    ensures EncodeLeft(t, c, cache).Tree? && EncodeRight(t, c, EncodeLeft(t, c, cache).cache).Tree?
  {
    var info := t[c];
    assert EntryOk(t, c);
    if info.l1 != 0 { TypedExpands(t, info.l1); }
    if info.l2 != 0 { TypedExpands(t, info.l2); }
    if info.l1 != 0 { ExpandedOnce(t, info.l1, cache); }
    ClosedReach(t, cache.Keys, info.l1);
    if info.l2 != 0 { ExpandedOnce(t, info.l2, EncodeLeft(t, c, cache).cache); }
  }

  /** Nothing collapses: the constraint is the comparison itself, negated when flipped. */
  lemma {:induction false} PlainConstraint(t: Table, c: nat, flip: bool, x: Input)
    requires WellFormed(t) && 0 < c < |t| && IsComparison(t[c]) && Walkable(t, c)
    requires t[c].l1 < c && t[c].l2 < c && !Collapses(t, t[c])
    ensures ConstraintOf(t, c, flip).Some? && ValueOf(t, c, x).VBool?
    ensures Meaning(ConstraintOf(t, c, flip).value, x) == VBool(ValueOf(t, c, x).b != flip)
  {
    WalkableEncodes(t, c, map[]);
    ComparisonTree(t, c);
    var n := Encode(t, c, map[]).node;
    TreeOfLabel(t, c, x, Encode(t, c, map[]));
    ValueHasSort(t, c, x);
    NothingToSimplify(t, c, map[], n);
    FlippedMeaning(n, x);
    NothingToSimplify(t, c, map[], Flip(n).value);
  }

  /** The tree of a collapsing comparison: a constant beside the extension of the inner tree. */
  lemma {:induction false} CollapsingTree(t: Table, c: nat)
    requires WellFormed(t) && 0 < c < |t| && t[c].l1 < c && t[c].l2 < c && Collapses(t, t[c])
    requires 2 <= t[c].size && Walkable(t, Inner(t, t[c]))
    ensures var inner := Encode(t, Inner(t, t[c]), map[]);
      var z := LabelOperand(t[c]);
      && inner.Tree? && Encode(t, c, map[]).Tree?
      && var n := Encode(t, c, map[]).node;
      && n.kind == Two(ShapeOf(t[c])) && |n.children| == 2
      && ExtensionAndConstant(n.children[0], n.children[1])
         == Some((UnaryNode(t[z], z, inner.node), ConstNode(ConstOperand(t[c]), t[c].size)))
  {
    var info, z := t[c], LabelOperand(t[c]);
    ExtensionTree(t, c);
    assert Encode(t, z, map[]).node.kind.ZExt? && EncodeConst(ConstOperand(info), info.size, map[]).Tree?;
    ComparisonTree(t, c);
  }

  lemma {:induction false} ExtensionTree(t: Table, c: nat)
    requires WellFormed(t) && 0 < c < |t| && t[c].l1 < c && t[c].l2 < c && Collapses(t, t[c])
    requires Walkable(t, Inner(t, t[c]))
    ensures var z := LabelOperand(t[c]);
      && Encode(t, t[z].l1, map[]).Tree? && Encode(t, z, map[]).Tree?
      && Encode(t, z, map[]).node == UnaryNode(t[z], z, Encode(t, t[z].l1, map[]).node)
  {
    var z := LabelOperand(t[c]);
    assert EntryOk(t, c) && EntryOk(t, z);
    TypedExpands(t, t[z].l1);
    ScanOfLabel(t, t[z].l1, map[]);
    EncodeUnary(t, z, map[]);
  }

  lemma {:induction false} InnerTree(t: Table, i: nat, x: Input)
    requires WellFormed(t) && 0 < i < |t| && IsComparison(t[i]) && Walkable(t, i)
    ensures Encode(t, i, map[]).Tree? && IsRelational(Encode(t, i, map[]).node)
    ensures |Encode(t, i, map[]).node.children| == 2
    ensures ValueOf(t, i, x).VBool? && Meaning(Encode(t, i, map[]).node, x) == ValueOf(t, i, x)
  {
    WalkableEncodes(t, i, map[]);
    ComparisonTree(t, i);
    TreeOfLabel(t, i, x, Encode(t, i, map[]));
    ValueHasSort(t, i, x);
  }

  /** The value of a collapsing comparison. */
  lemma {:induction false} CollapsingValue(t: Table, c: nat, x: Input)
    requires WellFormed(t) && 0 < c < |t| && t[c].l1 < c && t[c].l2 < c && Collapses(t, t[c]) && 2 <= t[c].size
    requires ValueOf(t, Inner(t, t[c]), x).VBool?
    ensures var b, v := ValueOf(t, Inner(t, t[c]), x).b, Mod(ConstOperand(t[c]), t[c].size);
      ValueOf(t, c, x) == VBool((AsNumber(b) == v) == (ShapeOf(t[c]).cop == Equal))
  {
    var info, z := t[c], LabelOperand(t[c]);
    assert EntryOk(t, c) && EntryOk(t, z);
    assert ValueOf(t, z, x) == ZeroTo(ValueOf(t, t[z].l1, x), t[z].size);
    assert ValueOf(t, c, x) == RelV(ShapeOf(info).cop, LeftV(t, c, x), RightV(t, c, x));
  }

  /** A collapsed constraint is the inner comparison, kept or flipped. */
  lemma {:induction false} CollapsedIs(t: Table, c: nat, flip: bool)
    requires WellFormed(t) && 0 < c < |t| && t[c].l1 < c && t[c].l2 < c && Collapses(t, t[c])
    requires 2 <= t[c].size && Walkable(t, Inner(t, t[c]))
    ensures Encode(t, Inner(t, t[c]), map[]).Tree?
    ensures var inner, cop := Encode(t, Inner(t, t[c]), map[]).node, ShapeOf(t[c]).cop;
      ConstraintOf(t, c, flip) ==
        if Keeps(if flip then FlipOp(cop) else cop, ConstOperand(t[c])) then Some(inner) else Flip(inner)
  {
    CollapsingTree(t, c);
    InnerTree(t, Inner(t, t[c]), _ => 0);
    var n, inner := Encode(t, c, map[]).node, Encode(t, Inner(t, t[c]), map[]).node;
    SimplifyCollapsing(n, inner, ConstOperand(t[c]));
    SimplifyCollapsing(Flip(n).value, inner, ConstOperand(t[c]));
  }

  /** A collapsed constraint is right on an input exactly under the condition `Exact`. */
  lemma {:induction false} CollapsedConstraint(t: Table, c: nat, flip: bool, x: Input)
    requires WellFormed(t) && 0 < c < |t| && t[c].l1 < c && t[c].l2 < c && Collapses(t, t[c])
    requires 2 <= t[c].size && Walkable(t, Inner(t, t[c]))
    ensures ConstraintOf(t, c, flip).Some? && Meaning(ConstraintOf(t, c, flip).value, x).VBool?
    ensures ValueOf(t, c, x).VBool?
    ensures Meaning(ConstraintOf(t, c, flip).value, x) == VBool(ValueOf(t, c, x).b != flip) <==> Exact(t, c, x)
  {
    CollapsedMeaning(t, c, flip, x);
    CollapsingValue(t, c, x);
    SmallMod(0, Pow2(t[c].size));
    var k, v, b := ConstOperand(t[c]), Mod(ConstOperand(t[c]), t[c].size), ValueOf(t, Inner(t, t[c]), x).b;
    CollapseTruth(ShapeOf(t[c]).cop, flip, k, v, b);
  }

  /** What a collapsed constraint says. */
  lemma {:induction false} CollapsedMeaning(t: Table, c: nat, flip: bool, x: Input)
    requires WellFormed(t) && 0 < c < |t| && t[c].l1 < c && t[c].l2 < c && Collapses(t, t[c])
    requires 2 <= t[c].size && Walkable(t, Inner(t, t[c]))
    ensures ConstraintOf(t, c, flip).Some? && ValueOf(t, Inner(t, t[c]), x).VBool?
    ensures var b, cop := ValueOf(t, Inner(t, t[c]), x).b, ShapeOf(t[c]).cop;
      Meaning(ConstraintOf(t, c, flip).value, x) ==
        VBool(if Keeps(if flip then FlipOp(cop) else cop, ConstOperand(t[c])) then b else !b)
  {
    CollapsedIs(t, c, flip);
    InnerTree(t, Inner(t, t[c]), x);
    FlippedMeaning(Encode(t, Inner(t, t[c]), map[]).node, x);
  }

  lemma {:induction false} SimplifyCollapsing(n: AstNode, inner: AstNode, k: nat)
    requires IsRelational(n) && (n.kind.shape.cop == Equal || n.kind.shape.cop == Distinct) && |n.children| == 2
    requires var p := ExtensionAndConstant(n.children[0], n.children[1]);
      p.Some? && p.value.0.children == [inner] && p.value.1.value == k
    requires IsRelational(inner)
    ensures Simplify(n) == if Keeps(n.kind.shape.cop, k) then Some(inner) else Flip(inner)
  {
  }

  predicate Keeps(cop: CmpOp, k: nat) { (cop == Distinct) == (k == 0) }

  /** Where keeping or flipping the inner truth value `b` agrees with comparing it to `v`. */
  lemma {:induction false} CollapseTruth(cop: CmpOp, flip: bool, k: nat, v: nat, b: bool)
    requires (cop == Equal || cop == Distinct) && (k == 0 ==> v == 0)
    ensures var cop' := if flip then FlipOp(cop) else cop;
      var kept, wanted := if Keeps(cop', k) then b else !b, ((AsNumber(b) == v) == (cop == Equal)) != flip;
      kept == wanted <==> (k == 0 || v == 1 || (v >= 2 && !b))
  {
  }

  /**
   The constraint of a comparison label holds on an input iff the comparison, negated when
   flipped, does: always without a collapse, and exactly under `Exact` with one.
   */
  lemma {:induction false} ConstraintIsExact(t: Table, c: nat, flip: bool, x: Input)
    requires WellFormed(t) && 0 < c < |t| && Readable(t, c)
    ensures ConstraintOf(t, c, flip).Some? && Meaning(ConstraintOf(t, c, flip).value, x).VBool?
    ensures ValueOf(t, c, x).VBool?
    ensures Meaning(ConstraintOf(t, c, flip).value, x) == VBool(ValueOf(t, c, x).b != flip) <==> Exact(t, c, x)
  {
    assert EntryOk(t, c);
    if Collapses(t, t[c]) {
      CollapsedConstraint(t, c, flip, x);
    } else {
      PlainConstraint(t, c, flip, x);
    }
  }

  lemma {:induction false} SmallConstant(k: nat, n: nat)
    requires n >= 2 && k < 4
    ensures Mod(k, n) == k
  {
    PowAtLeast(n);
    SmallMod(k, Pow2(n));
  }

  /** Against 0 or 1 collapsing is always right. */
  lemma {:induction false} CollapseOfZeroOrOne(t: Table, c: nat, x: Input)
    requires WellFormed(t) && 0 < c < |t| && Readable(t, c) && ConstOperand(t[c]) <= 1
    ensures Exact(t, c, x)
  {
    assert EntryOk(t, c);
    if Collapses(t, t[c]) {
      SmallConstant(1, t[c].size);
    }
  }

  /** Byte 0 is compared with 0, the outcome is widened to 32 bits and compared with 2. */
  predicate Widened(t: Table) {
    && |t| == 5 && t[0].op == READ
    && t[1] == LabelInfo(0, 0, 0, 0, READ, 8, 1)
    && t[2] == LabelInfo(1, 0, 0, 0, 256 * BVEQ + ICMP, 8, 2)
    && t[3] == LabelInfo(2, 0, 0, 0, ZEXT, 32, 3)
    && t[4] == LabelInfo(3, 0, 0, 2, 256 * BVEQ + ICMP, 32, 4)
  }

  lemma {:induction false} WidenedIsReadable(t: Table)
    requires Widened(t)
    ensures WellFormed(t) && Collapses(t, t[4]) && Walkable(t, 2) && Readable(t, 4)
  {
    assert ShapeOf(t[2]) == Rel(Equal) && ShapeOf(t[4]) == Rel(Equal);
    assert WellFormed(t);
    assert Walkable(t, 1);
    assert Typed(t, 1) && SortAt(t, 1) == BV(8);
    assert LeftSort(t, 2) == BV(8) && RightSort(t, 2) == BV(8);
    assert Walkable(t, 2);
  }

  lemma {:induction false} WidenedInner(t: Table, x: Input)
    requires WellFormed(t) && Widened(t) && x(0) == 0
    ensures ValueOf(t, 2, x) == VBool(true)
  {
    assert ShapeOf(t[2]) == Rel(Equal);
    assert ValueOf(t, 1, x) == VBv(0, 8);
    assert RightV(t, 2, x) == VBv(0, 8);
    assert ValueOf(t, 2, x) == RelV(Equal, LeftV(t, 2, x), RightV(t, 2, x));
  }

  /** Against 2 the collapsed constraint holds on an input that does not make the comparison true. */
  lemma {:induction false} CollapseCanBeWrong(t: Table, x: Input)
    requires Widened(t) && x(0) == 0
    ensures WellFormed(t) && Readable(t, 4) && ValueOf(t, 4, x) == VBool(false)
    ensures ConstraintOf(t, 4, false).Some? && Meaning(ConstraintOf(t, 4, false).value, x) == VBool(true)
  {
    WidenedIsReadable(t);
    WidenedInner(t, x);
    SmallConstant(2, t[4].size);
    CollapsingValue(t, 4, x);
    ConstraintIsExact(t, 4, false, x);
  }

  // ---------------------------------------------------------------------------
  // The program
  // ---------------------------------------------------------------------------

  predicate RelationalCode(op: nat): (b: bool)
    ensures b <==> 32 <= HighByte(op) <= 41
  {
    S.RelOp(HighByte(op)).Some?
  }

  /** A comparison, or the negation of one. */
  predicate Tests(t: Table, lbl: nat)
    requires lbl < |t| && (t[lbl].op == NOT ==> t[lbl].l2 < |t|)
  {
    RelationalCode(t[lbl].op) || (t[lbl].op == NOT && RelationalCode(t[t[lbl].l2].op))
  }

  /** The comparison a branch label tests, and whether the label negates it. */
  function Compared(t: Table, lbl: nat): Option<(nat, bool)>
    requires lbl < |t| && (t[lbl].op == NOT ==> t[lbl].l2 < |t|)
  {
    if RelationalCode(t[lbl].op) then Some((lbl, false))
    else if t[lbl].op == NOT && RelationalCode(t[t[lbl].l2].op) then Some((t[lbl].l2, true))
    else None
  }

  /** Nothing for other labels and large trees; `Panicked` where a tree cannot be built or flipped. */
  datatype Built = Skipped | Panicked | Built(node: AstNode, deps: set<nat>)

  /**
   The constraint for taking the branch in the other direction.  It holds on an input iff that
   input does take it, except exactly where a collapse is not exact.
   */
  method GetOneConstraint(t: Table, lbl: nat, direction: nat) returns (r: Built)
    requires WellFormed(t) && 0 < lbl < |t|
    ensures t[lbl].op == NOT ==> t[lbl].l2 < |t|
    ensures !r.Skipped? <==> t[lbl].depth <= MAX_TREE && Tests(t, lbl)
    ensures !r.Skipped? ==> Compared(t, lbl).Some? && Compared(t, lbl).value.0 < |t|
    ensures !r.Skipped? && Compared(t, lbl).value.0 == 0 ==> r.Panicked?
    ensures !r.Skipped? && Compared(t, lbl).value.0 != 0 ==>
      BuildsOf(t, lbl, ConstraintOf(t, Compared(t, lbl).value.0, Flips(Compared(t, lbl).value.1, direction)), r)
    ensures !r.Skipped? && Compared(t, lbl).value.0 != 0 && Readable(t, Compared(t, lbl).value.0) ==>
      r.Built? && r.deps == BytesOf(t, lbl) && AsksOtherWay(t, lbl, direction, Compared(t, lbl).value.0, r.node)
  {
    assert EntryOk(t, lbl);
    var compared := Compared(t, lbl);
    if compared.None? || t[lbl].depth > MAX_TREE {
      return Skipped;
    }
    var c, negated := compared.value.0, compared.value.1;
    var flip := Flips(negated, direction);
    var encoder := new Encoder(t);
    var src := encoder.DoUta(c);
    if src.None? {
      r := Panicked;
    } else if flip && Flip(src.value).None? {
      r := Panicked;
    } else if c !in encoder.cache {
      r := Panicked;
    } else {
      var dst := Simplify(if flip then Flip(src.value).value else src.value);
      r := if dst.None? then Panicked else Built(dst.value, encoder.cache[c]);
    }
    if c != 0 && Encode(t, c, map[]).Tree? { BytesRecorded(t, c); }
    if c != 0 && Readable(t, c) {
      ConstraintIsExact(t, c, flip, _ => 0);
      forall x: Input ensures AsksOtherWayOn(t, lbl, direction, c, r.node, x) {
        ConstraintIsExact(t, c, flip, x);
      }
    }
  }

  /** A constraint is wanted for the direction not taken. */
  predicate Flips(negated: bool, direction: nat) { if negated then direction == 0 else direction != 0 }

  /** For any label: a panic without a constraint, else the constraint and the bytes of the label. */
  ghost predicate BuildsOf(t: Table, lbl: nat, constraint: Option<AstNode>, r: Built)
    requires WellFormed(t) && lbl < |t|
  {
    match constraint
    case None => r.Panicked?
    case Some(n) => r == Built(n, BytesOf(t, lbl))
  }

  /** The node holds on `x` iff the branch goes the other way, unless a collapse is not exact there. */
  ghost predicate AsksOtherWayOn(t: Table, lbl: nat, direction: nat, c: nat, n: AstNode, x: Input)
    requires WellFormed(t) && lbl < |t| && 0 < c < |t|
  {
    (Meaning(n, x) == VBool(true) <==> ValueOf(t, lbl, x) == VBool(direction == 0)) <==> Exact(t, c, x)
  }

  ghost predicate AsksOtherWay(t: Table, lbl: nat, direction: nat, c: nat, n: AstNode)
    requires WellFormed(t) && lbl < |t| && 0 < c < |t|
  {
    forall x: Input :: AsksOtherWayOn(t, lbl, direction, c, n, x)
  }

  lemma {:induction false} BytesRecorded(t: Table, c: nat)
    requires WellFormed(t) && 0 < c < |t| && Encode(t, c, map[]).Tree?
    ensures c in Encode(t, c, map[]).cache && Encode(t, c, map[]).cache[c] == BytesOf(t, c)
  {
    OffsetsAreBytes(t, c, map[]);
  }
}
