/**
 The translation of a label of the union table into a solver expression, with its two memo
 maps.  `Build` is the plain recursion without memo; the method `Serialize` is the program.
 */
module Serialize {
  import opened Basics
  import opened Expr
  import opened LabelTable

  const MAX_DEPTH: nat := 200

  /** `Abort` is a panic: a failed unwrap, an underflow or an ill-sorted application. */
  datatype Outcome = Got(e: Expr) | Nothing | Abort

  /** Concrete operands of memory comparisons, by label. */
  type Concrete = map<nat, seq<nat>>

  function Checked(e: Expr): Outcome {
    if SortOf(e) == Ill then Abort else Got(e)
  }

  // ---------------------------------------------------------------------------
  // One operator
  // ---------------------------------------------------------------------------

  /** Byte `off` lowest, `off + len - 1` highest; one byte even for a length of zero. */
  function LoadExpr(off: nat, len: nat): Expr {
    if len <= 1 then Byte(off) else Concat(Byte(off + len - 1), LoadExpr(off, len - 1))
  }

  predicate From(off: nat, i: nat) { off <= i }

  function LoadDeps(off: nat, len: nat): set<nat> {
    set i: nat | 0 <= i < off + len && From(off, i)
  }

  function ConcreteExpr(data: seq<nat>): Expr
    requires data != []
  {
    if |data| == 1 then BvVal(data[0] % 256, 8)
    else Concat(BvVal(data[|data| - 1] % 256, 8), ConcreteExpr(data[..|data| - 1]))
  }

  function Bit1(e: Expr): Expr {
    if SortOf(e) == Bool then Ite(e, BvVal(1, 1), BvVal(0, 1)) else e
  }

  /** Zero or sign extension to `size` bits, of a bit vector or of a truth value as one bit. */
  function Extend(signed: bool, size: nat, e: Expr): Outcome {
    match SortOf(Bit1(e))
    case BV(w) =>
      if size < w then Abort
      else Got(if signed then SignExt(size - w, Bit1(e)) else ZeroExt(size - w, Bit1(e)))
    case _ => Nothing
  }

  /** The operators with one operand; `child` is the translated operand. */
  function Unary(info: LabelInfo, e: Expr): Outcome {
    if info.op == ZEXT then Extend(false, info.size, e)
    else if info.op == SEXT then Extend(true, info.size, e)
    else if info.op == TRUNC then Checked(Extract(0, info.size, e))
    else if info.op == EXTRACT then Checked(Extract(U32(info.op2), info.size, e))
    else if info.op == NOT then (if SortOf(e) == Bool then Got(Expr.Not(e)) else Nothing)
    else Checked(Expr.Neg(e))
  }

  function AsI64(v: nat): int {
    if v < 0x8000_0000_0000_0000 then v else v - 0x1_0000_0000_0000_0000
  }

  /** A constant operand of `size` bits, taken from a 64-bit word: one bit is a truth value. */
  function Constant(v: nat, size: int): Outcome {
    if size == 1 then Got(BoolVal(v == 1))
    else if size <= 0 then Abort
    else Got(BvVal(Mod(AsI64(v), size), size))
  }

  function ArithOp(op: nat): Option<BvOp> {
    if op == AND then Some(BvOp.And) else if op == OR then Some(BvOp.Or) else if op == XOR then Some(BvOp.Xor)
    else if op == SHL then Some(BvOp.Shl) else if op == LSHR then Some(BvOp.LShr)
      else if op == ASHR then Some(BvOp.AShr)
    else if op == ADD then Some(BvOp.Add) else if op == SUB then Some(BvOp.Sub) else if op == MUL then Some(BvOp.Mul)
    else if op == UDIV then Some(BvOp.UDiv) else if op == SDIV then Some(BvOp.SDiv)
    else if op == UREM then Some(BvOp.URem) else if op == SREM then Some(BvOp.SRem)
    else None
  }

  function RelOp(op: nat): Option<CmpOp> {
    if op == BVEQ then Some(CmpOp.Equal) else if op == BVNEQ then Some(CmpOp.Distinct)
    else if op == BVULT then Some(CmpOp.Ult) else if op == BVULE then Some(CmpOp.Ule)
    else if op == BVUGT then Some(CmpOp.Ugt) else if op == BVUGE then Some(CmpOp.Uge)
    else if op == BVSLT then Some(CmpOp.Slt) else if op == BVSLE then Some(CmpOp.Sle)
    else if op == BVSGT then Some(CmpOp.Sgt) else if op == BVSGE then Some(CmpOp.Sge)
    else None
  }

  function LogicOp(op: BvOp): BoolOp {
    match op case And => LAnd case Or => LOr case _ => LXor
  }

  /** The operators with two operands: the low byte first, then the comparison in the high byte. */
  function Binary(op: nat, size1: int, l: Expr, r: Expr): Outcome {
    var arith := ArithOp(LowByte(op));
    if arith.Some? then
      if (arith.value == BvOp.And || arith.value == BvOp.Or || arith.value == BvOp.Xor) && size1 == 1
      then Checked(Logic(LogicOp(arith.value), l, r))
      else Checked(Bin(arith.value, l, r))
    else if LowByte(op) == CONCAT then Checked(Expr.Concat(r, l))
    else if RelOp(HighByte(op)).Some? then Checked(Cmp(RelOp(HighByte(op)).value, l, r))
    else Nothing
  }

  predicate IsUnary(op: nat) {
    op == ZEXT || op == SEXT || op == TRUNC || op == EXTRACT || op == NOT || op == NEG
  }

  /** The operand of a one-operand operator; `None` when the operator is not translated. */
  function UnaryChild(info: LabelInfo): Option<nat> {
    if info.op == NOT then (if info.l2 == 0 || info.size != 1 then None else Some(info.l2))
    else if info.op == NEG then (if info.l2 == 0 then None else Some(info.l2))
    else Some(info.l1)
  }

  /** The width of a constant left, then right, operand. */
  function LeftSize(t: Table, info: LabelInfo): int
    requires info.l2 < |t|
  {
    if info.l1 == 0 && info.op == CONCAT then info.size - t[info.l2].size else info.size
  }

  function RightSize(t: Table, info: LabelInfo): int
    requires info.l1 < |t| && info.l2 < |t|
  {
    if info.l2 == 0 && info.op == CONCAT then info.size - t[info.l1].size else LeftSize(t, info)
  }

  function MemcmpExpr(l: Expr, r: Expr): Outcome {
    Checked(Ite(Cmp(CmpOp.Equal, l, r), BvVal(0, 32), BvVal(1, 32)))
  }

  function MemcmpConcrete(data: Concrete, l2: nat): Outcome {
    if l2 !in data then Nothing else if data[l2] == [] then Abort else Got(ConcreteExpr(data[l2]))
  }

  // ---------------------------------------------------------------------------
  // The plain recursion
  // ---------------------------------------------------------------------------

  ghost function Build(t: Table, data: Concrete, lbl: nat): Outcome
    requires WellFormed(t) && (lbl < |t| || lbl == MAX_LABEL)
    decreases lbl
  {
    if lbl < 1 || lbl == MAX_LABEL then Nothing
    else
      var info := t[lbl];
      assert EntryOk(t, lbl);
      if info.depth > MAX_DEPTH then Nothing
      else if info.op == READ then Got(Byte(U32(info.op1)))
      else if info.op == LOAD then Got(LoadExpr(U32(t[info.l1].op1), info.l2))
      else if IsUnary(info.op) then
        var c := UnaryChild(info);
        if c.None? then Nothing
        else var child := Build(t, data, c.value);
          if child.Got? then Unary(info, child.e) else child
      else if info.op == FMEMCMP then
        if info.l2 == 0 then Nothing
        else
          var left := if info.l1 != 0 then Build(t, data, info.l1) else MemcmpConcrete(data, info.l2);
          if left.Abort? then Abort
          else var right := Build(t, data, info.l2);
            if left.Got? && right.Got? then MemcmpExpr(left.e, right.e)
            else if right.Abort? then Abort else Nothing
      else
        var left := if info.l1 >= 1 then Build(t, data, info.l1) else Constant(info.op1, LeftSize(t, info));
        if !left.Got? then left
        else var right := if info.l2 >= 1 then Build(t, data, info.l2) else Constant(info.op2, RightSize(t, info));
          if !right.Got? then right
          else Binary(info.op, RightSize(t, info), left.e, right.e)
  }

  // ---------------------------------------------------------------------------
  // Facts about one operator
  // ---------------------------------------------------------------------------

  lemma {:induction false} LoadIsLoad(off: nat, len: nat)
    ensures SortOf(LoadExpr(off, len)) == BV(if len <= 1 then 8 else 8 * len)
    ensures Free(LoadExpr(off, len)) == LoadDeps(off, if len == 0 then 1 else len)
  {
    if len > 1 {
      LoadIsLoad(off, len - 1);
      assert LoadDeps(off, len) == LoadDeps(off, len - 1) + {off + len - 1};
    }
  }

  /** The recorded dependencies of a load are the bytes it mentions exactly when it reads a byte. */
  lemma {:induction false} LoadNeedsAByte(off: nat, len: nat)
    ensures Free(LoadExpr(off, len)) == LoadDeps(off, len) <==> 1 <= len
  {
    LoadIsLoad(off, len);
    if len == 0 {
      assert off in LoadDeps(off, 1) && off !in LoadDeps(off, 0);
    }
  }

  lemma {:induction false} ConcreteIsClosed(data: seq<nat>)
    requires data != []
    ensures Free(ConcreteExpr(data)) == {}
  {
    if |data| > 1 { ConcreteIsClosed(data[..|data| - 1]); }
  }

  lemma {:induction false} UnaryFree(info: LabelInfo, e: Expr)
    requires Unary(info, e).Got?
    ensures Free(Unary(info, e).e) == Free(e)
    ensures SortOf(Unary(info, e).e) != Ill
  {
    assert Free(Bit1(e)) == Free(e);
  }

  lemma {:induction false} BinaryFree(op: nat, size1: int, l: Expr, r: Expr)
    requires Binary(op, size1, l, r).Got?
    ensures Free(Binary(op, size1, l, r).e) == Free(l) + Free(r)
    ensures SortOf(Binary(op, size1, l, r).e) != Ill
  {
    var e, arith := Binary(op, size1, l, r).e, ArithOp(LowByte(op));
    if arith.Some? {
      assert e == Logic(LogicOp(arith.value), l, r) || e == Bin(arith.value, l, r);
    } else if LowByte(op) == CONCAT {
      assert e == Expr.Concat(r, l);
    } else {
      assert e == Cmp(RelOp(HighByte(op)).value, l, r);
    }
  }

  lemma {:induction false} MemcmpFree(l: Expr, r: Expr)
    requires MemcmpExpr(l, r).Got?
    ensures Free(MemcmpExpr(l, r).e) == Free(l) + Free(r)
    ensures SortOf(MemcmpExpr(l, r).e) != Ill
  {
    var c := Cmp(CmpOp.Equal, l, r);
    assert Free(c) == Free(l) + Free(r);
    assert Free(Ite(c, BvVal(0, 32), BvVal(1, 32))) == Free(c);
  }

  /** A translated label mentions bytes of the input only, and has a value on every input. */
  lemma {:induction false} BuildIsGood(t: Table, data: Concrete, lbl: nat, size: nat)
    requires WellFormed(t) && NoEmptyLoads(t) && ReadsWithin(t, size) && (lbl < |t| || lbl == MAX_LABEL)
    requires Build(t, data, lbl).Got?
    ensures forall d :: d in Free(Build(t, data, lbl).e) ==> d < size
    ensures SortOf(Build(t, data, lbl).e) != Ill
    decreases lbl
  {
    var info := t[lbl];
    assert EntryOk(t, lbl);
    if info.op == LOAD {
      LoadIsLoad(U32(t[info.l1].op1), info.l2);
    } else if info.op != READ {
      if IsUnary(info.op) {
        var child := UnaryChild(info).value;
        BuildIsGood(t, data, child, size);
        UnaryFree(info, Build(t, data, child).e);
      } else if info.op == FMEMCMP {
        BuildIsGood(t, data, info.l2, size);
        if info.l1 != 0 {
          BuildIsGood(t, data, info.l1, size);
        } else {
          ConcreteIsClosed(data[info.l2]);
        }
        var left := if info.l1 != 0 then Build(t, data, info.l1) else MemcmpConcrete(data, info.l2);
        assert Build(t, data, lbl) == MemcmpExpr(left.e, Build(t, data, info.l2).e);
        MemcmpFree(left.e, Build(t, data, info.l2).e);
      } else {
        if info.l1 >= 1 { BuildIsGood(t, data, info.l1, size); }
        if info.l2 >= 1 { BuildIsGood(t, data, info.l2, size); }
        var left := if info.l1 >= 1 then Build(t, data, info.l1) else Constant(info.op1, LeftSize(t, info));
        var right := if info.l2 >= 1 then Build(t, data, info.l2) else Constant(info.op2, RightSize(t, info));
        assert Build(t, data, lbl) == Binary(info.op, RightSize(t, info), left.e, right.e);
        assert info.l1 == 0 ==> Free(left.e) == {};
        assert info.l2 == 0 ==> Free(right.e) == {};
        BinaryFree(info.op, RightSize(t, info), left.e, right.e);
      }
    }
  }

  // ---------------------------------------------------------------------------
  // The program
  // ---------------------------------------------------------------------------

  ghost predicate DepsOk(t: Table, data: Concrete, l: nat, d: set<nat>)
    requires WellFormed(t)
  {
    l < |t| && (Build(t, data, l).Got? ==> d == Free(Build(t, data, l).e))
  }

  ghost predicate ExprOk(t: Table, data: Concrete, l: nat, e: Expr)
    requires WellFormed(t)
  {
    l < |t| && Build(t, data, l) == Got(e)
  }

  ghost predicate MemoOk(t: Table, data: Concrete, deps: map<nat, set<nat>>, exprs: map<nat, Expr>)
    requires WellFormed(t)
  {
    && (forall l :: l in deps ==> DepsOk(t, data, l, deps[l]))
    && (forall l :: l in exprs ==> l in deps && ExprOk(t, data, l, exprs[l]))
  }

  /** The memo stays right when a label's dependencies, and then its expression, are entered. */
  lemma {:induction false} MemoPut(t: Table, data: Concrete, deps: map<nat, set<nat>>, exprs: map<nat, Expr>,
      l: nat, d: set<nat>)
    requires WellFormed(t) && MemoOk(t, data, deps, exprs) && DepsOk(t, data, l, d)
    ensures MemoOk(t, data, deps[l := d], exprs)
    ensures Build(t, data, l).Got? ==> MemoOk(t, data, deps[l := d], exprs[l := Build(t, data, l).e])
  {
    var deps' := deps[l := d];
    forall k | k in deps' ensures DepsOk(t, data, k, deps'[k]) {
      assert k != l ==> DepsOk(t, data, k, deps[k]);
    }
    forall k | k in exprs ensures k in deps' && ExprOk(t, data, k, exprs[k]) {}
    if Build(t, data, l).Got? {
      var e := Build(t, data, l).e;
      var exprs' := exprs[l := e];
      assert ExprOk(t, data, l, e);
      forall k | k in exprs' ensures k in deps' && ExprOk(t, data, k, exprs'[k]) {
        assert k != l ==> ExprOk(t, data, k, exprs[k]);
      }
    }
  }

  class Translator {
    const table: Table
    const data: Concrete
    var deps: map<nat, set<nat>>
    var exprs: map<nat, Expr>

    constructor (table: Table, data: Concrete)
      requires WellFormed(table) && NoEmptyLoads(table)
      ensures Valid() && this.table == table && this.data == data
    {
      this.table := table;
      this.data := data;
      deps := map[];
      exprs := map[];
    }

    /** Memoised expressions are those of the plain recursion, memoised dependencies the bytes they mention. */
    ghost predicate Valid()
      reads this
    {
      WellFormed(table) && NoEmptyLoads(table) && MemoOk(table, data, deps, exprs)
    }

    method Serialize(lbl: nat) returns (r: Outcome)
      requires Valid() && (lbl < |table| || lbl == MAX_LABEL)
      modifies this
      ensures Valid()
      ensures r == Build(table, data, lbl)
      ensures r.Got? ==> lbl in deps && deps[lbl] == Free(r.e)
      ensures forall l :: l in old(deps) ==> l in deps
      decreases lbl, 1
    {
      if lbl < 1 || lbl == MAX_LABEL {
        return Nothing;
      }
      var info := table[lbl];
      assert EntryOk(table, lbl);
      if info.depth > MAX_DEPTH {
        return Nothing;
      }
      if lbl in exprs {
        assert ExprOk(table, data, lbl, exprs[lbl]) && DepsOk(table, data, lbl, deps[lbl]);
        return Got(exprs[lbl]);
      }
      if info.op == READ {
        r := Got(Byte(U32(info.op1)));
        Remember(lbl, {U32(info.op1)}, r.e);
      } else if info.op == LOAD {
        var off := U32(table[info.l1].op1);
        LoadIsLoad(off, info.l2);
        var node := Byte(off);
        for i := 1 to info.l2
          invariant node == LoadExpr(off, i)
        {
          node := Expr.Concat(Byte(off + i), node);
        }
        var read := {};
        for i := 0 to info.l2
          invariant read == LoadDeps(off, i)
        {
          assert LoadDeps(off, i + 1) == LoadDeps(off, i) + {off + i};
          read := read + {off + i};
        }
        r := Got(node);
        Remember(lbl, read, node);
      } else if IsUnary(info.op) {
        r := SerializeUnary(lbl);
      } else if info.op == FMEMCMP {
        r := SerializeMemcmp(lbl);
      } else {
        r := SerializeBinary(lbl);
      }
    }

    method Remember(lbl: nat, d: set<nat>, e: Expr)
      requires Valid() && lbl < |table|
      requires Build(table, data, lbl) == Got(e) && d == Free(e)
      modifies this
      ensures Valid()
      ensures deps == old(deps)[lbl := d] && exprs == old(exprs)[lbl := e]
    {
      MemoPut(table, data, deps, exprs, lbl, d);
      deps := deps[lbl := d];
      exprs := exprs[lbl := e];
    }

    method SerializeUnary(lbl: nat) returns (r: Outcome)
      requires Valid() && 1 <= lbl < |table| && IsUnary(table[lbl].op) && table[lbl].depth <= MAX_DEPTH
      modifies this
      ensures Valid()
      ensures r == Build(table, data, lbl)
      ensures r.Got? ==> lbl in deps && deps[lbl] == Free(r.e)
      ensures forall l :: l in old(deps) ==> l in deps
      decreases lbl, 0
    {
      var info := table[lbl];
      assert EntryOk(table, lbl);
      var c := UnaryChild(info);
      if c.None? {
        return Nothing;
      }
      var child := Serialize(c.value);
      if !child.Got? {
        return child;
      }
      r := Unary(info, child.e);
      if r.Got? {
        UnaryFree(info, child.e);
        Remember(lbl, deps[c.value], r.e);
      }
    }

    method SerializeMemcmp(lbl: nat) returns (r: Outcome)
      requires Valid() && 1 <= lbl < |table| && table[lbl].op == FMEMCMP && table[lbl].depth <= MAX_DEPTH
      modifies this
      ensures Valid()
      ensures r == Build(table, data, lbl)
      ensures r.Got? ==> lbl in deps && deps[lbl] == Free(r.e)
      ensures forall l :: l in old(deps) ==> l in deps
      decreases lbl, 0
    {
      var info := table[lbl];
      assert EntryOk(table, lbl);
      if info.l2 == 0 {
        return Nothing;
      }
      var left;
      if info.l1 != 0 {
        left := Serialize(info.l1);
      } else {
        left := MemcmpConcrete(data, info.l2);
      }
      if left.Abort? {
        return Abort;
      }
      var right := Serialize(info.l2);
      if !left.Got? || !right.Got? {
        return if right.Abort? then Abort else Nothing;
      }
      r := MemcmpExpr(left.e, right.e);
      if r.Got? {
        MemcmpFree(left.e, right.e);
        var merged := Merged(info);
        if info.l1 == 0 { ConcreteIsClosed(data[info.l2]); }
        MemoPut(table, data, deps, exprs, lbl, merged);
        deps := deps[lbl := merged];
      }
    }

    /** The union of the dependencies recorded for the operands that are labels. */
    function Merged(info: LabelInfo): set<nat>
      reads this
      requires info.l1 >= 1 ==> info.l1 in deps
      requires info.l2 >= 1 ==> info.l2 in deps
    {
      (if info.l1 >= 1 then deps[info.l1] else {}) + (if info.l2 >= 1 then deps[info.l2] else {})
    }

    method SerializeBinary(lbl: nat) returns (r: Outcome)
      requires Valid() && 1 <= lbl < |table| && table[lbl].depth <= MAX_DEPTH
      requires var op := table[lbl].op; op != READ && op != LOAD && !IsUnary(op) && op != FMEMCMP
      modifies this
      ensures Valid()
      ensures r == Build(table, data, lbl)
      ensures r.Got? ==> lbl in deps && deps[lbl] == Free(r.e)
      ensures forall l :: l in old(deps) ==> l in deps
      decreases lbl, 0
    {
      var info := table[lbl];
      assert EntryOk(table, lbl);
      var left;
      if info.l1 >= 1 {
        left := Serialize(info.l1);
      } else {
        left := Constant(info.op1, LeftSize(table, info));
      }
      if !left.Got? {
        return left;
      }
      var right;
      if info.l2 >= 1 {
        right := Serialize(info.l2);
      } else {
        right := Constant(info.op2, RightSize(table, info));
      }
      if !right.Got? {
        return right;
      }
      assert info.l1 >= 1 ==> DepsOk(table, data, info.l1, deps[info.l1]);
      var merged := Merged(info);
      r := Binary(info.op, RightSize(table, info), left.e, right.e);
      if r.Got? {
        BinaryFree(info.op, RightSize(table, info), left.e, right.e);
        Remember(lbl, merged, r.e);
      } else {
        MemoPut(table, data, deps, exprs, lbl, merged);
        deps := deps[lbl := merged];
      }
    }
  }
}
