/**
 The translator and direct evaluation of the table agree.  What a translated label evaluates to
 is the value of the label, so that solutions and search constraints speak of the same branches.
 */
module Agreement {
  import opened Arithmetic
  import opened Basics
  import opened Expr
  import opened LabelTable
  import opened LabelValue
  import S = Serialize
  import L = Slicing
  import C = Constraint
  import U = Uta

  const WORD: nat := 0x1_0000_0000_0000_0000
  const HALF: nat := 0x8000_0000_0000_0000

  // ---------------------------------------------------------------------------
  // Constants
  // ---------------------------------------------------------------------------

  lemma {:induction false} WordIsPow2()
    ensures Pow2(64) == WORD
  {
    Pow2At64();
  }

  lemma {:induction false} Wrapped(v: int, m: int, k: int)
    requires m > 0
    ensures (v - m * k) % m == v % m
  {
    ModAdd(v, -k, m);
    assert m * (-k) == -(m * k);
  }

  /** Reading a word as signed and then cutting it to `w` bits is cutting it, for up to 64 bits. */
  lemma {:induction false} NarrowConstant(v: nat, w: nat)
    requires v < WORD && w <= 64
    ensures Mod(S.AsI64(v), w) == Mod(v, w)
  {
    if v >= HALF {
      WordIsPow2();
      Pow2Add(w, 64 - w);
      Wrapped(v, Pow2(w), Pow2(64 - w));
    }
  }

  lemma {:induction false} WideConstant(v: nat, w: nat)
    requires HALF <= v < WORD && w > 64
    ensures Mod(S.AsI64(v), w) == v - WORD + Pow2(w) && Mod(v, w) == v && Pow2(w) > WORD
  {
    WordIsPow2();
    PowRises(64, w);
    SmallMod(v, Pow2(w));
    Unique(v - WORD, -1, v - WORD + Pow2(w), Pow2(w));
  }

  /** A constant word has the same value in both translations exactly when it is narrow or not negative. */
  lemma {:induction false} ConstantsAgree(v: nat, w: nat)
    requires v < WORD && w >= 2
    ensures Mod(S.AsI64(v), w) == Mod(v, w) <==> w <= 64 || v < HALF
  {
    if w <= 64 {
      NarrowConstant(v, w);
    } else if v >= HALF {
      WideConstant(v, w);
    }
  }

  /** A constant operand that both translations read alike. */
  predicate PlainConst(v: nat, bits: int) { v < WORD && (bits <= 64 || v < HALF) }

  /** All constants under a label are read alike. */
  ghost predicate PlainConsts(t: Table, lbl: nat)
    requires WellFormed(t) && lbl < |t|
    decreases lbl
  {
    var info := t[lbl];
    assert EntryOk(t, lbl);
    if lbl == 0 || IsLeaf(info.op) then true
    else if S.IsUnary(info.op) then PlainConsts(t, UnaryOperand(info))
    else
      && (if info.l1 == 0 then PlainConst(info.op1, S.LeftSize(t, info)) else PlainConsts(t, info.l1))
      && (if info.l2 == 0 then PlainConst(info.op2, S.RightSize(t, info)) else PlainConsts(t, info.l2))
  }

  // ---------------------------------------------------------------------------
  // One operator
  // ---------------------------------------------------------------------------

  /** The expression has the sort and, on `x`, the value. */
  ghost predicate Means(e: Expr, s: Sort, x: Input, v: Value) {
    SortOf(e) == s && Eval(e, x) == v && HasSort(v, s)
  }

  lemma {:induction false} ConstantMeans(v: nat, bits: int, x: Input)
    requires PlainConst(v, bits) && ConstSort(bits) != Ill
    ensures S.Constant(v, bits).Got? && Means(S.Constant(v, bits).e, ConstSort(bits), x, ConstV(v, bits))
  {
    if bits != 1 {
      ConstantsAgree(v, bits);
      ModFits(v, bits);
      SmallMod(Mod(v, bits), Pow2(bits));
    }
  }

  lemma {:induction false} LoadMeans(x: Input, off: nat, len: nat)
    requires len >= 1
    ensures Means(S.LoadExpr(off, len), BV(8 * len), x, VBv(LittleEndian(x, off, len), 8 * len))
  {
    S.LoadIsLoad(off, len);
    LittleEndianFits(x, off, len);
    LoadValue(x, off, len);
  }

  lemma {:induction false} LoadValue(x: Input, off: nat, len: nat)
    requires len >= 1
    ensures Eval(S.LoadExpr(off, len), x) == VBv(LittleEndian(x, off, len), 8 * len)
  {
    if len > 1 {
      LoadValue(x, off, len - 1);
      LittleEndianTop(x, off, len);
    } else {
      assert LittleEndian(x, off + 1, 0) == 0;
    }
  }

  lemma {:induction false} BitMeans(e: Expr, x: Input, b: bool)
    requires SortOf(e) == Bool && Eval(e, x) == VBool(b)
    ensures SortOf(S.Bit1(e)) == BV(1) && Eval(S.Bit1(e), x) == VBv(AsNumber(b), 1)
  {
    assert Pow2(1) == 2;
  }

  /** Extension of a truth value, as one bit. */
  lemma {:induction false} WidenMeans(info: LabelInfo, e: Expr, x: Input, b: bool)
    requires (info.op == ZEXT || info.op == SEXT) && 1 <= info.size && Means(e, Bool, x, VBool(b))
    requires S.Unary(info, e).Got?
    ensures SortOf(S.Unary(info, e).e) == BV(info.size) && Eval(S.Unary(info, e).e, x) == UnaryV(info, VBool(b))
  {
    BitMeans(e, x, b);
    var one, k := S.Bit1(e), info.size - 1;
    if info.op == ZEXT {
      assert S.Unary(info, e).e == Expr.ZeroExt(k, one);
    } else {
      assert S.Unary(info, e).e == Expr.SignExt(k, one);
      SignBit(b, info.size);
    }
  }

  lemma {:induction false} SignBit(b: bool, n: nat)
    requires 1 <= n
    ensures Mod(Signed(AsNumber(b), 1), n) == if b then Pow2(n) - 1 else 0
  {
    assert Pow2(1) == 2 && Pow2(0) == 1;
    Pow2Monotone(1, n);
    if b {
      Unique(-1, -1, Pow2(n) - 1, Pow2(n));
    } else {
      SmallMod(0, Pow2(n));
    }
  }

  /** The operators on a bit vector. */
  lemma {:induction false} BitVectorMeans(info: LabelInfo, m: nat, e: Expr, x: Input, v: Value)
    requires S.IsUnary(info.op) && UnaryTypes(info, BV(m)) && Means(e, BV(m), x, v) && S.Unary(info, e).Got?
    ensures SortOf(S.Unary(info, e).e) == BV(info.size) && Eval(S.Unary(info, e).e, x) == UnaryV(info, v)
  {
    assert S.Bit1(e) == e;
  }

  lemma {:induction false} UnaryMeans(info: LabelInfo, s: Sort, e: Expr, x: Input, v: Value)
    requires S.IsUnary(info.op) && UnaryTypes(info, s) && Means(e, s, x, v) && S.Unary(info, e).Got?
    ensures Means(S.Unary(info, e).e, UnarySort(info, s), x, UnaryV(info, v))
  {
    UnaryHasSort(info, s, v);
    if s.BV? {
      BitVectorMeans(info, s.w, e, x, v);
    } else if info.op != NOT {
      WidenMeans(info, e, x, v.b);
    }
  }

  /** Logical operators, on truth values. */
  lemma {:induction false} LogicMeans(info: LabelInfo, l: Expr, r: Expr, x: Input, lv: Value, rv: Value)
    requires !IsLeaf(info.op) && !S.IsUnary(info.op) && BinaryTypes(info, Bool, Bool)
    requires S.ArithOp(LowByte(info.op)).Some?
    requires Means(l, Bool, x, lv) && Means(r, Bool, x, rv) && S.Binary(info.op, info.size, l, r).Got?
    ensures SortOf(S.Binary(info.op, info.size, l, r).e) == Bool == BinarySort(info, Bool)
    ensures Eval(S.Binary(info.op, info.size, l, r).e, x) == BinaryV(ShapeOf(info), lv, rv)
  {
    var e, op := S.Binary(info.op, info.size, l, r).e, S.ArithOp(LowByte(info.op)).value;
    assert SortOf(Expr.Bin(op, l, r)) == Ill;
    assert e == Expr.Logic(S.LogicOp(op), l, r);
  }

  /** Arithmetic, shifts and bitwise operators. */
  lemma {:induction false} ArithMeans(info: LabelInfo, w: nat, l: Expr, r: Expr, x: Input, lv: Value, rv: Value)
    requires !IsLeaf(info.op) && !S.IsUnary(info.op) && ShapeOf(info).Arith? && S.ArithOp(LowByte(info.op)).Some?
    requires w == info.size && Means(l, BV(w), x, lv) && Means(r, BV(w), x, rv)
    requires S.Binary(info.op, info.size, l, r).Got?
    ensures SortOf(S.Binary(info.op, info.size, l, r).e) == BV(w) == BinarySort(info, BV(w))
    ensures Eval(S.Binary(info.op, info.size, l, r).e, x) == BinaryV(ShapeOf(info), lv, rv)
  {
    var e, op := S.Binary(info.op, info.size, l, r).e, S.ArithOp(LowByte(info.op)).value;
    assert SortOf(Expr.Logic(S.LogicOp(op), l, r)) == Ill;
    assert e == Expr.Bin(op, l, r);
  }

  /** Concatenation and comparisons. */
  lemma {:induction false} OtherMeans(info: LabelInfo, ls: Sort, rs: Sort, l: Expr, r: Expr, size1: int, x: Input,
      lv: Value, rv: Value)
    requires !IsLeaf(info.op) && !S.IsUnary(info.op) && BinaryTypes(info, ls, rs) && S.ArithOp(LowByte(info.op)).None?
    requires Means(l, ls, x, lv) && Means(r, rs, x, rv) && S.Binary(info.op, size1, l, r).Got?
    ensures SortOf(S.Binary(info.op, size1, l, r).e) == BinarySort(info, ls)
    ensures Eval(S.Binary(info.op, size1, l, r).e, x) == BinaryV(ShapeOf(info), lv, rv)
  {
    var e := S.Binary(info.op, size1, l, r).e;
    if LowByte(info.op) == CONCAT {
      assert e == Expr.Concat(r, l);
    } else {
      assert e == Expr.Cmp(S.RelOp(HighByte(info.op)).value, l, r);
    }
  }

  lemma {:induction false} BinaryMeans(info: LabelInfo, ls: Sort, rs: Sort, l: Expr, r: Expr, size1: int, x: Input,
      lv: Value, rv: Value)
    requires !IsLeaf(info.op) && !S.IsUnary(info.op) && BinaryTypes(info, ls, rs)
    requires Means(l, ls, x, lv) && Means(r, rs, x, rv) && (LowByte(info.op) != CONCAT ==> size1 == info.size)
    requires S.Binary(info.op, size1, l, r).Got?
    ensures Means(S.Binary(info.op, size1, l, r).e, BinarySort(info, ls), x, BinaryV(ShapeOf(info), lv, rv))
  {
    BinaryHasSort(info, ls, rs, lv, rv);
    if S.ArithOp(LowByte(info.op)).Some? {
      assert LowByte(info.op) != CONCAT;
      if ls == Bool {
        LogicMeans(info, l, r, x, lv, rv);
      } else {
        ArithMeans(info, info.size, l, r, x, lv, rv);
      }
    } else {
      OtherMeans(info, ls, rs, l, r, size1, x, lv, rv);
    }
  }

  // ---------------------------------------------------------------------------
  // Labels
  // ---------------------------------------------------------------------------

  /**
   For a well-typed label whose constants are read alike, a translated expression has the value
   of direct evaluation of the table on every input.
   */
  lemma {:induction false} BuildIsDirect(t: Table, data: S.Concrete, lbl: nat, x: Input)
    requires WellFormed(t) && lbl < |t| && Typed(t, lbl) && PlainConsts(t, lbl)
    requires S.Build(t, data, lbl).Got?
    ensures Means(S.Build(t, data, lbl).e, SortAt(t, lbl), x, ValueOf(t, lbl, x))
    decreases lbl
  {
    var info := t[lbl];
    assert EntryOk(t, lbl);
    if info.op == READ {
      ByteFits();
    } else if info.op == LOAD {
      LoadMeans(x, U32(t[info.l1].op1), info.l2);
    } else if S.IsUnary(info.op) {
      var c := UnaryOperand(info);
      assert S.UnaryChild(info) == Some(c);
      BuildIsDirect(t, data, c, x);
      UnaryMeans(info, SortAt(t, c), S.Build(t, data, c).e, x, ValueOf(t, c, x));
    } else {
      KnownOperator(t, lbl);
      BuildBinary(t, data, lbl);
      if info.l1 != 0 { BuildIsDirect(t, data, info.l1, x); }
      if info.l2 != 0 { BuildIsDirect(t, data, info.l2, x); }
      BuildOfBinary(t, data, lbl, x);
    }
  }

  ghost predicate Direct(t: Table, data: S.Concrete, l: nat, x: Input)
    requires WellFormed(t) && l < |t|
  {
    S.Build(t, data, l).Got? ==> Means(S.Build(t, data, l).e, SortAt(t, l), x, ValueOf(t, l, x))
  }

  /** The translated operands of a two-operand label. */
  ghost function LeftBuilt(t: Table, data: S.Concrete, lbl: nat): S.Outcome
    requires WellFormed(t) && lbl < |t| && t[lbl].l1 < |t| && t[lbl].l2 < |t|
  {
    if t[lbl].l1 >= 1 then S.Build(t, data, t[lbl].l1) else S.Constant(t[lbl].op1, S.LeftSize(t, t[lbl]))
  }

  ghost function RightBuilt(t: Table, data: S.Concrete, lbl: nat): S.Outcome
    requires WellFormed(t) && lbl < |t| && t[lbl].l1 < |t| && t[lbl].l2 < |t|
  {
    if t[lbl].l2 >= 1 then S.Build(t, data, t[lbl].l2) else S.Constant(t[lbl].op2, S.RightSize(t, t[lbl]))
  }

  lemma {:induction false} KnownOperator(t: Table, lbl: nat)
    requires WellFormed(t) && 0 < lbl < |t| && Typed(t, lbl) && !IsLeaf(t[lbl].op) && !S.IsUnary(t[lbl].op)
    ensures t[lbl].op != FMEMCMP && t[lbl].l1 < lbl && t[lbl].l2 < lbl
  {
    assert EntryOk(t, lbl);
    assert !ShapeOf(t[lbl]).Unknown?;
  }

  /** A translated two-operand label is its operator on translated operands. */
  lemma {:induction false} BuildBinary(t: Table, data: S.Concrete, lbl: nat)
    requires WellFormed(t) && 0 < lbl < |t| && S.Build(t, data, lbl).Got? && !IsLeaf(t[lbl].op)
    requires !S.IsUnary(t[lbl].op) && t[lbl].op != FMEMCMP && t[lbl].l1 < lbl && t[lbl].l2 < lbl
    ensures LeftBuilt(t, data, lbl).Got? && RightBuilt(t, data, lbl).Got?
    ensures S.Build(t, data, lbl)
            == S.Binary(t[lbl].op, S.RightSize(t, t[lbl]), LeftBuilt(t, data, lbl).e, RightBuilt(t, data, lbl).e)
  {
  }

  lemma {:induction false} BuildOfBinary(t: Table, data: S.Concrete, lbl: nat, x: Input)
    requires WellFormed(t) && 0 < lbl < |t| && Typed(t, lbl) && PlainConsts(t, lbl) && S.Build(t, data, lbl).Got?
    requires !IsLeaf(t[lbl].op) && !S.IsUnary(t[lbl].op) && t[lbl].l1 < lbl && t[lbl].l2 < lbl
    requires t[lbl].l1 != 0 ==> Direct(t, data, t[lbl].l1, x)
    requires t[lbl].l2 != 0 ==> Direct(t, data, t[lbl].l2, x)
    ensures Direct(t, data, lbl, x)
  {
    var info := t[lbl];
    KnownOperator(t, lbl);
    BuildBinary(t, data, lbl);
    if info.l1 == 0 { ConstantMeans(info.op1, S.LeftSize(t, info), x); }
    if info.l2 == 0 { ConstantMeans(info.op2, S.RightSize(t, info), x); }
    BinaryMeans(info, LeftSort(t, lbl), RightSort(t, lbl), LeftBuilt(t, data, lbl).e, RightBuilt(t, data, lbl).e,
                S.RightSize(t, info), x, LeftV(t, lbl, x), RightV(t, lbl, x));
  }

  /** A label that both translations read, and read alike. */
  ghost predicate Plain(t: Table, lbl: nat)
    requires WellFormed(t) && lbl < |t|
  {
    Typed(t, lbl) && PlainConsts(t, lbl)
  }

  /** A negated truth value is read like the truth value, and has the other value. */
  lemma {:induction false} NegatedIsPlain(t: Table, lbl: nat, x: Input)
    requires WellFormed(t) && 0 < lbl < |t| && t[lbl].op == NOT && t[lbl].l2 < lbl
    requires Plain(t, t[lbl].l2) && SortAt(t, t[lbl].l2) == Bool
    ensures Plain(t, lbl) && SortAt(t, lbl) == Bool && ValueOf(t, t[lbl].l2, x).VBool?
    ensures ValueOf(t, lbl, x) == VBool(!ValueOf(t, t[lbl].l2, x).b)
  {
    ValueHasSort(t, t[lbl].l2, x);
  }

  // ---------------------------------------------------------------------------
  // Which labels are translated
  // ---------------------------------------------------------------------------

  predicate IsBitwise(info: LabelInfo) { 26 <= LowByte(info.op) <= 28 }

  /**
   The labels the translator accepts: not deeper than 200, negations of truth values only, and
   bitwise operators on truth values exactly where the label has one bit.
   */
  ghost predicate Translates(t: Table, lbl: nat)
    requires WellFormed(t) && lbl < |t|
    decreases lbl
  {
    var info := t[lbl];
    assert EntryOk(t, lbl);
    && 0 < lbl && info.depth <= 200
    && (IsLeaf(info.op) ||
        if S.IsUnary(info.op) then
          var c := UnaryOperand(info);
          Translates(t, c) && (info.op == NOT ==> info.size == 1 && SortAt(t, c) == Bool)
        else
          && (info.l1 != 0 ==> Translates(t, info.l1)) && (info.l2 != 0 ==> Translates(t, info.l2))
          && (IsBitwise(info) ==> (info.size == 1 <==> LeftSort(t, lbl) == Bool)))
  }

  lemma {:induction false} UnaryGot(info: LabelInfo, s: Sort, e: Expr)
    requires S.IsUnary(info.op) && UnaryTypes(info, s) && SortOf(e) == s
    ensures S.Unary(info, e).Got? <==> (info.op == NOT ==> s == Bool)
  {
    assert s == Bool ==> SortOf(S.Bit1(e)) == BV(1);
  }

  lemma {:induction false} BinaryGot(info: LabelInfo, ls: Sort, rs: Sort, l: Expr, r: Expr, size1: int)
    requires !IsLeaf(info.op) && !S.IsUnary(info.op) && BinaryTypes(info, ls, rs) && SortOf(l) == ls && SortOf(r) == rs
    requires LowByte(info.op) != CONCAT ==> size1 == info.size
    ensures S.Binary(info.op, size1, l, r).Got? <==> (IsBitwise(info) ==> (info.size == 1 <==> ls == Bool))
  {
    var arith := S.ArithOp(LowByte(info.op));
    if arith.Some? {
      assert SortOf(Expr.Bin(arith.value, l, r)) != Ill <==> ls != Bool;
      assert SortOf(Expr.Logic(S.LogicOp(arith.value), l, r)) != Ill <==> ls == Bool;
    } else if LowByte(info.op) == CONCAT {
      assert SortOf(Expr.Concat(r, l)) != Ill;
    } else {
      assert SortOf(Expr.Cmp(S.RelOp(HighByte(info.op)).value, l, r)) == Bool;
    }
  }

  lemma {:induction false} ConstantGot(v: nat, bits: int)
    requires ConstSort(bits) != Ill
    ensures S.Constant(v, bits).Got? && SortOf(S.Constant(v, bits).e) == ConstSort(bits)
  {
  }

  /** Exactly these labels are translated. */
  lemma {:induction false} TranslatesExactly(t: Table, data: S.Concrete, lbl: nat)
    requires WellFormed(t) && lbl < |t| && Plain(t, lbl)
    ensures S.Build(t, data, lbl).Got? <==> Translates(t, lbl)
    decreases lbl
  {
    var info := t[lbl];
    assert EntryOk(t, lbl);
    if info.depth <= 200 && !IsLeaf(info.op) {
      if S.IsUnary(info.op) {
        var c := UnaryOperand(info);
        TranslatesExactly(t, data, c);
        UnaryTranslates(t, data, lbl);
      } else {
        KnownOperator(t, lbl);
        if info.l1 != 0 { TranslatesExactly(t, data, info.l1); }
        if info.l2 != 0 { TranslatesExactly(t, data, info.l2); }
        BinaryTranslates(t, data, lbl);
      }
    }
  }

  lemma {:induction false} UnaryTranslates(t: Table, data: S.Concrete, lbl: nat)
    requires WellFormed(t) && 0 < lbl < |t| && Plain(t, lbl) && S.IsUnary(t[lbl].op) && t[lbl].depth <= 200
    requires UnaryOperand(t[lbl]) < lbl
    requires S.Build(t, data, UnaryOperand(t[lbl])).Got? <==> Translates(t, UnaryOperand(t[lbl]))
    ensures S.Build(t, data, lbl).Got? <==> Translates(t, lbl)
  {
    var info, c := t[lbl], UnaryOperand(t[lbl]);
    if S.Build(t, data, c).Got? {
      BuildIsDirect(t, data, c, _ => 0);
      UnaryGot(info, SortAt(t, c), S.Build(t, data, c).e);
    }
  }

  lemma {:induction false} OperandSort(t: Table, data: S.Concrete, lbl: nat)
    requires WellFormed(t) && 0 < lbl < |t| && Plain(t, lbl)
    requires !IsLeaf(t[lbl].op) && !S.IsUnary(t[lbl].op) && t[lbl].l1 < lbl && t[lbl].l2 < lbl
    ensures LeftBuilt(t, data, lbl).Got? ==> SortOf(LeftBuilt(t, data, lbl).e) == LeftSort(t, lbl)
    ensures RightBuilt(t, data, lbl).Got? ==> SortOf(RightBuilt(t, data, lbl).e) == RightSort(t, lbl)
    ensures t[lbl].l1 == 0 ==> LeftBuilt(t, data, lbl).Got?
    ensures t[lbl].l2 == 0 ==> RightBuilt(t, data, lbl).Got?
  {
    var info := t[lbl];
    if info.l1 == 0 {
      ConstantGot(info.op1, S.LeftSize(t, info));
    } else if S.Build(t, data, info.l1).Got? {
      BuildIsDirect(t, data, info.l1, _ => 0);
    }
    if info.l2 == 0 {
      ConstantGot(info.op2, S.RightSize(t, info));
    } else if S.Build(t, data, info.l2).Got? {
      BuildIsDirect(t, data, info.l2, _ => 0);
    }
  }

  lemma {:induction false} BinaryTranslates(t: Table, data: S.Concrete, lbl: nat)
    requires WellFormed(t) && 0 < lbl < |t| && Plain(t, lbl) && t[lbl].depth <= 200 && t[lbl].op != FMEMCMP
    requires !IsLeaf(t[lbl].op) && !S.IsUnary(t[lbl].op) && t[lbl].l1 < lbl && t[lbl].l2 < lbl
    requires t[lbl].l1 != 0 ==> (S.Build(t, data, t[lbl].l1).Got? <==> Translates(t, t[lbl].l1))
    requires t[lbl].l2 != 0 ==> (S.Build(t, data, t[lbl].l2).Got? <==> Translates(t, t[lbl].l2))
    ensures S.Build(t, data, lbl).Got? <==> Translates(t, lbl)
  {
    var info := t[lbl];
    OperandSort(t, data, lbl);
    if LeftBuilt(t, data, lbl).Got? && RightBuilt(t, data, lbl).Got? {
      BinaryGot(info, LeftSort(t, lbl), RightSort(t, lbl), LeftBuilt(t, data, lbl).e, RightBuilt(t, data, lbl).e,
                S.RightSize(t, info));
      assert S.Build(t, data, lbl)
          == S.Binary(info.op, S.RightSize(t, info), LeftBuilt(t, data, lbl).e, RightBuilt(t, data, lbl).e);
    } else if S.Build(t, data, lbl).Got? {
      BuildBinary(t, data, lbl);
      assert false;
    }
  }

  // ---------------------------------------------------------------------------
  // Memory comparisons
  // ---------------------------------------------------------------------------

  /** Concrete bytes are one number, the first byte lowest. */
  lemma {:induction false} ConcreteMeans(bytes: seq<nat>, x: Input)
    requires bytes != []
    ensures SortOf(S.ConcreteExpr(bytes)) == BV(8 * |bytes|)
    ensures Eval(S.ConcreteExpr(bytes), x) == VBv(LittleEndian(L.AsInput(bytes), 0, |bytes|), 8 * |bytes|)
  {
    var n := |bytes| - 1;
    ByteFits();
    SmallMod(bytes[n] % 256, Pow2(8));
    LittleEndianTop(L.AsInput(bytes), 0, |bytes|);
    if n > 0 {
      ConcreteMeans(bytes[..n], x);
      LittleEndianIsLocal(L.AsInput(bytes), L.AsInput(bytes[..n]), 0, n);
    } else {
      assert LittleEndian(L.AsInput(bytes), 0, 0) == 0;
    }
  }

  lemma {:induction false} EqualityValue(l: Expr, r: Expr, x: Input)
    requires SortOf(l) == SortOf(r) && SortOf(l) != Ill
    ensures Eval(Expr.Cmp(CmpOp.Equal, l, r), x) == VBool(Eval(l, x) == Eval(r, x))
  {
    EvalHasSort(l, x);
    EvalHasSort(r, x);
  }

  lemma {:induction false} ZeroAndOne(x: Input, n: nat)
    requires n >= 2
    ensures Eval(Expr.BvVal(0, n), x) == VBv(0, n) && Eval(Expr.BvVal(1, n), x) == VBv(1, n)
  {
    PowAtLeast(n);
    SmallMod(0, Pow2(n));
    SmallMod(1, Pow2(n));
  }

  /** A memory comparison is 0 exactly when its operands are equal, and 1 otherwise. */
  lemma {:induction false} MemcmpMeans(l: Expr, r: Expr, x: Input)
    requires S.MemcmpExpr(l, r).Got?
    ensures Eval(S.MemcmpExpr(l, r).e, x) == VBv(if Eval(l, x) == Eval(r, x) then 0 else 1, 32)
  {
    assert SortOf(Expr.Cmp(CmpOp.Equal, l, r)) == Bool;
    EqualityValue(l, r, x);
    ZeroAndOne(x, 32);
  }

  /** What a translated memory comparison compares: two labels, or a label with bytes reported for it. */
  lemma {:induction false} MemcmpLabel(t: Table, data: S.Concrete, lbl: nat, x: Input)
    requires WellFormed(t) && 0 < lbl < |t| && t[lbl].op == FMEMCMP && S.Build(t, data, lbl).Got?
    requires t[lbl].l1 < lbl && 0 < t[lbl].l2 < lbl && Plain(t, t[lbl].l2) && (t[lbl].l1 != 0 ==> Plain(t, t[lbl].l1))
    ensures t[lbl].l1 == 0 ==> t[lbl].l2 in data && data[t[lbl].l2] != []
    ensures var info := t[lbl];
      var left := if info.l1 != 0 then ValueOf(t, info.l1, x)
        else VBv(LittleEndian(L.AsInput(data[info.l2]), 0, |data[info.l2]|), 8 * |data[info.l2]|);
      Eval(S.Build(t, data, lbl).e, x) == VBv(if left == ValueOf(t, info.l2, x) then 0 else 1, 32)
  {
    var info := t[lbl];
    var left := if info.l1 != 0 then S.Build(t, data, info.l1) else S.MemcmpConcrete(data, info.l2);
    assert left.Got? && S.Build(t, data, info.l2).Got?;
    assert S.Build(t, data, lbl) == S.MemcmpExpr(left.e, S.Build(t, data, info.l2).e);
    MemcmpMeans(left.e, S.Build(t, data, info.l2).e, x);
    BuildIsDirect(t, data, info.l2, x);
    if info.l1 != 0 { BuildIsDirect(t, data, info.l1, x); } else { ConcreteMeans(data[info.l2], x); }
  }

  // ---------------------------------------------------------------------------
  // Requests and paths
  // ---------------------------------------------------------------------------

  /** The value of its label that the traced program reports with a message. */
  ghost function Seen(t: Table, msg: L.Msg): Value
    requires WellFormed(t) && msg.lbl < |t|
  {
    match msg
    case Branch(_, lbl, direction, _) =>
      if SortAt(t, lbl) == Bool then VBool(direction == 1) else VBv(Mod(S.AsI64(direction), 1), 1)
    case Index(_, lbl, result, _) => VBv(Mod(result, t[lbl].size), t[lbl].size)
    case _ => VBool(true)
  }

  lemma {:induction false} EqualityMeans(e: Expr, k: Expr, x: Input)
    requires SortOf(e) == SortOf(k) && SortOf(e) != Ill
    ensures L.Holds(L.EqualTo(e, k), x) <==> Eval(e, x) == Eval(k, x)
    ensures L.Holds(L.OtherThan(e, k), x) <==> Eval(e, x) != Eval(k, x)
  {
    EvalHasSort(e, x);
    EvalHasSort(k, x);
  }

  lemma {:induction false} BranchMeans(e: Expr, direction: nat, attempt: bool, x: Input)
    requires L.BranchRequest(e, direction, attempt).Query?
    ensures var r := L.BranchRequest(e, direction, attempt);
            var v := if SortOf(e) == Bool then VBool(direction == 1) else VBv(Mod(S.AsI64(direction), 1), 1);
            (L.Holds(r.path, x) <==> Eval(e, x) == v) && (L.Holds(r.flip, x) <==> Eval(e, x) != v)
  {
    var k := if SortOf(e) == Bool then Expr.BoolVal(direction == 1) else Expr.BvVal(Mod(S.AsI64(direction), 1), 1);
    ModFits(S.AsI64(direction), 1);
    SmallMod(Mod(S.AsI64(direction), 1), Pow2(1));
    EqualityMeans(e, k, x);
  }

  /** The value a message reports for a label translated to `e`. */
  ghost function Reported(t: Table, msg: L.Msg, e: Expr): Value
    requires msg.lbl < |t|
  {
    match msg
    case Branch(_, _, direction, _) =>
      if SortOf(e) == Bool then VBool(direction == 1) else VBv(Mod(S.AsI64(direction), 1), 1)
    case Index(_, lbl, result, _) => VBv(Mod(result, t[lbl].size), t[lbl].size)
    case _ => VBool(true)
  }

  /** Any query, memory comparisons included: its condition says that the expression has the value reported. */
  lemma {:induction false} QueryMeans(t: Table, msg: L.Msg, count: nat, e: Expr, x: Input)
    requires msg.lbl < |t| && L.RequestOf(t, msg, count, S.Got(e)).Query?
    ensures var r := L.RequestOf(t, msg, count, S.Got(e));
      && (L.Holds(r.path, x) <==> Eval(e, x) == Reported(t, msg, e))
      && (L.Holds(r.flip, x) <==> Eval(e, x) != Reported(t, msg, e))
  {
    if msg.Branch? {
      BranchMeans(e, msg.direction, msg.attempt, x);
    } else {
      EqualityMeans(e, Expr.BvVal(msg.result, t[msg.lbl].size), x);
    }
  }

  /** A query's condition says that the label has the value seen, its flip that it has another. */
  lemma {:induction false} RequestMeans(t: Table, msg: L.Msg, count: nat, data: S.Concrete, x: Input)
    requires WellFormed(t) && msg.lbl < |t| && Plain(t, msg.lbl)
    ensures var r := L.RequestOf(t, msg, count, S.Build(t, data, msg.lbl));
            && (r.Query? || r.Record? ==> (L.Holds(r.path, x) <==> ValueOf(t, msg.lbl, x) == Seen(t, msg)))
            && (r.Query? ==> (L.Holds(r.flip, x) <==> ValueOf(t, msg.lbl, x) != Seen(t, msg)))
  {
    var o := S.Build(t, data, msg.lbl);
    var r := L.RequestOf(t, msg, count, o);
    if r.Query? || r.Record? {
      BuildIsDirect(t, data, msg.lbl, x);
      if r.Query? { QueryMeans(t, msg, count, o.e, x); }
    }
  }

  /** The label of a message whose condition is stored has the value seen. */
  ghost predicate Repeats(t: Table, msgs: seq<L.Msg>, j: nat, x: Input)
    requires WellFormed(t) && L.Labelled(t, msgs) && j < |msgs|
  {
    L.Stores(L.RequestAt(t, msgs, j)) != {} ==> ValueOf(t, msgs[j].lbl, x) == Seen(t, msgs[j])
  }

  /** On `x` the labels of the first `i` messages have the values seen. */
  ghost predicate Follows(t: Table, msgs: seq<L.Msg>, i: nat, x: Input)
    requires WellFormed(t) && L.Labelled(t, msgs) && i <= |msgs|
  {
    forall j :: 0 <= j < i ==> Repeats(t, msgs, j, x)
  }

  ghost predicate PlainAt(t: Table, msgs: seq<L.Msg>, j: nat)
    requires WellFormed(t) && L.Labelled(t, msgs) && j < |msgs|
  {
    L.Stores(L.RequestAt(t, msgs, j)) != {} ==> Plain(t, msgs[j].lbl)
  }

  /** All labels whose conditions are stored are plain. */
  ghost predicate AllPlain(t: Table, msgs: seq<L.Msg>)
    requires WellFormed(t) && L.Labelled(t, msgs)
  {
    forall j :: 0 <= j < |msgs| ==> PlainAt(t, msgs, j)
  }

  /** The path conditions hold on an input exactly when it gives the labels the values seen. */
  lemma {:induction false} PathIsLabels(t: Table, msgs: seq<L.Msg>, i: nat, x: Input)
    requires WellFormed(t) && L.Labelled(t, msgs) && i <= |msgs| && AllPlain(t, msgs)
    ensures L.AllHold(L.PathBefore(t, msgs, i), x) <==> Follows(t, msgs, i, x)
    decreases i
  {
    if i > 0 {
      PathIsLabels(t, msgs, i - 1, x);
      var j := i - 1;
      assert j + 1 == i;
      PathStep(t, msgs, j, x);
    }
  }

  lemma {:induction false} FollowsStep(t: Table, msgs: seq<L.Msg>, i: nat, x: Input)
    requires WellFormed(t) && L.Labelled(t, msgs) && i < |msgs|
    ensures Follows(t, msgs, i + 1, x) <==> Follows(t, msgs, i, x) && Repeats(t, msgs, i, x)
  {
    forall j | 0 <= j < i + 1 && Follows(t, msgs, i, x) && Repeats(t, msgs, i, x) ensures Repeats(t, msgs, j, x) {}
  }

  lemma {:induction false} PathStep(t: Table, msgs: seq<L.Msg>, i: nat, x: Input)
    requires WellFormed(t) && L.Labelled(t, msgs) && i < |msgs| && AllPlain(t, msgs)
    requires L.AllHold(L.PathBefore(t, msgs, i), x) <==> Follows(t, msgs, i, x)
    ensures L.AllHold(L.PathBefore(t, msgs, i + 1), x) <==> Follows(t, msgs, i + 1, x)
  {
    FollowsStep(t, msgs, i, x);
    var r, path := L.RequestAt(t, msgs, i), L.PathBefore(t, msgs, i);
    assert L.PathBefore(t, msgs, i + 1) == path + L.Stores(r) && PlainAt(t, msgs, i);
    if r.Query? || r.Record? {
      assert r.path in L.Stores(r);
      RequestMeans(t, msgs[i], L.CountAt(msgs, i), L.DataAfter(msgs[..i]), x);
    }
  }

  /** `x` gives the labels before message `i` the values seen, and the label of `i` another. */
  ghost predicate TakesOther(t: Table, msgs: seq<L.Msg>, i: nat, x: Input)
    requires WellFormed(t) && L.Labelled(t, msgs) && i < |msgs|
  {
    Follows(t, msgs, i, x) && ValueOf(t, msgs[i].lbl, x) != Seen(t, msgs[i])
  }

  /** What an answer of the message loop means for the values of labels. */
  ghost predicate LabelAnswer(t: Table, msgs: seq<L.Msg>, size: nat, complete: bool, a: L.Answer)
    requires WellFormed(t) && L.Labelled(t, msgs) && a.at < |msgs|
  {
    && (a.opt.Some? ==> forall seed: seq<nat> :: |seed| == size && Follows(t, msgs, a.at, L.AsInput(seed)) ==>
                        ValueOf(t, msgs[a.at].lbl, L.AsInput(L.Laid(seed, a.opt.value))) != Seen(t, msgs[a.at]))
    && (a.nested.Some? ==> forall seed: seq<nat> :: |seed| == size && Follows(t, msgs, a.at, L.AsInput(seed)) ==>
                           TakesOther(t, msgs, a.at, L.AsInput(L.Laid(seed, a.nested.value))))
    && (complete && a.nested.None? ==> forall x: Input :: !TakesOther(t, msgs, a.at, x))
  }

  lemma {:induction false} FlipIsOther(t: Table, msgs: seq<L.Msg>, i: nat, x: Input)
    requires WellFormed(t) && L.Labelled(t, msgs) && i < |msgs| && AllPlain(t, msgs)
    requires L.RequestAt(t, msgs, i).Query?
    ensures L.Holds(L.RequestAt(t, msgs, i).flip, x) <==> ValueOf(t, msgs[i].lbl, x) != Seen(t, msgs[i])
    ensures L.AllHold(L.PathBefore(t, msgs, i) + {L.RequestAt(t, msgs, i).flip}, x) <==> TakesOther(t, msgs, i, x)
  {
    assert PlainAt(t, msgs, i) && L.RequestAt(t, msgs, i).path in L.Stores(L.RequestAt(t, msgs, i));
    RequestMeans(t, msgs[i], L.CountAt(msgs, i), L.DataAfter(msgs[..i]), x);
    PathIsLabels(t, msgs, i, x);
    var flip := L.RequestAt(t, msgs, i).flip;
    assert flip in L.PathBefore(t, msgs, i) + {flip};
  }

  /**
   Laid over any seed on which the labels have the values seen, a nested solution leaves the
   values of the labels before its message and changes that of its own; with a complete oracle
   there is no such solution only if no input does that.
   */
  lemma {:induction false} AnswersFlipLabels(t: Table, msgs: seq<L.Msg>, size: nat, complete: bool, a: L.Answer)
    requires WellFormed(t) && L.Labelled(t, msgs) && AllPlain(t, msgs) && L.AnswerOk(t, msgs, size, complete, a)
    ensures LabelAnswer(t, msgs, size, complete, a)
  {
    var path, flip := L.PathBefore(t, msgs, a.at), L.RequestAt(t, msgs, a.at).flip;
    forall seed: seq<nat> | |seed| == size && Follows(t, msgs, a.at, L.AsInput(seed))
      ensures a.opt.Some? ==>
        ValueOf(t, msgs[a.at].lbl, L.AsInput(L.Laid(seed, a.opt.value))) != Seen(t, msgs[a.at])
      ensures a.nested.Some? ==> TakesOther(t, msgs, a.at, L.AsInput(L.Laid(seed, a.nested.value)))
    {
      PathIsLabels(t, msgs, a.at, L.AsInput(seed));
      if a.opt.Some? {
        assert flip in {flip};
        FlipIsOther(t, msgs, a.at, L.AsInput(L.Laid(seed, a.opt.value)));
      }
      if a.nested.Some? {
        FlipIsOther(t, msgs, a.at, L.AsInput(L.Laid(seed, a.nested.value)));
      }
    }
    if complete && a.nested.None? {
      forall x: Input ensures !TakesOther(t, msgs, a.at, x) { FlipIsOther(t, msgs, a.at, x); }
    }
  }

  /**
   The condition the solver is given for the other direction and the constraint the search is
   given agree on an input exactly when the collapse of the constraint, if any, is exact there;
   for directions other than 0 and 1, which the two read differently, exactly when it is not.
   */
  lemma {:induction false} BothAskTheSame(t: Table, msg: L.Msg, count: nat, data: S.Concrete, c: nat, n: U.AstNode,
      x: Input)
    requires WellFormed(t) && msg.lbl < |t| && Plain(t, msg.lbl) && 0 < c < |t|
    requires msg.Branch? && SortAt(t, msg.lbl) == Bool
    requires L.RequestOf(t, msg, count, S.Build(t, data, msg.lbl)).Query?
    requires C.AsksOtherWay(t, msg.lbl, msg.direction, c, n)
    ensures var flip := L.RequestOf(t, msg, count, S.Build(t, data, msg.lbl)).flip;
            (C.Meaning(n, x) == VBool(true) <==> L.Holds(flip, x)) <==> (C.Exact(t, c, x) <==> msg.direction <= 1)
  {
    RequestMeans(t, msg, count, data, x);
    BuildIsDirect(t, data, msg.lbl, x);
    assert C.AsksOtherWayOn(t, msg.lbl, msg.direction, c, n, x);
  }

  // ---------------------------------------------------------------------------
  // A wide constant
  // ---------------------------------------------------------------------------

  /** The first `n` bytes of the input as one number, plus the 64-bit word 2 to the 63. */
  predicate WideSum(t: Table, n: nat) {
    && |t| == 4 && t[0].op == READ
    && t[1] == LabelInfo(0, 0, 0, 0, READ, 8, 1)
    && t[2] == LabelInfo(1, n, 0, 0, LOAD, 8 * n, 1)
    && t[3] == LabelInfo(2, 0, 0, HALF, ADD, 8 * n, 2)
  }

  lemma {:induction false} WideSumIsTyped(t: Table, n: nat)
    requires WideSum(t, n) && 9 <= n && 8 * n < 0x1_0000
    ensures WellFormed(t) && Typed(t, 3)
  {
    assert WellFormed(t);
    assert ShapeOf(t[3]) == Arith(BvOp.Add);
    assert Typed(t, 2) && SortAt(t, 2) == BV(8 * n);
    assert LeftSort(t, 3) == BV(8 * n) && RightSort(t, 3) == BV(8 * n);
  }

  ghost function Translated(n: nat): Expr {
    Expr.Bin(BvOp.Add, S.LoadExpr(0, n), Expr.BvVal(Mod(S.AsI64(HALF), 8 * n), 8 * n))
  }

  lemma {:induction false} SumTranslates(n: nat)
    requires 9 <= n
    ensures S.Binary(ADD, 8 * n, S.LoadExpr(0, n), Expr.BvVal(Mod(S.AsI64(HALF), 8 * n), 8 * n)) == S.Got(Translated(n))
  {
    S.LoadIsLoad(0, n);
    assert S.ArithOp(LowByte(ADD)) == Some(BvOp.Add);
    assert SortOf(Translated(n)) == BV(8 * n);
  }

  lemma {:induction false} WideSumBuilds(t: Table, n: nat, data: S.Concrete)
    requires WellFormed(t) && WideSum(t, n) && 9 <= n
    ensures S.Build(t, data, 3) == S.Got(Translated(n))
  {
    SumTranslates(n);
    assert S.Build(t, data, 2) == S.Got(S.LoadExpr(0, n));
    assert S.Constant(HALF, 8 * n) == S.Got(Expr.BvVal(Mod(S.AsI64(HALF), 8 * n), 8 * n));
    assert S.RightSize(t, t[3]) == 8 * n;
  }

  lemma {:induction false} TranslatedValue(n: nat, x: Input)
    requires 9 <= n && forall i: nat :: x(i) == 0
    ensures Eval(Translated(n), x) == VBv(Mod(S.AsI64(HALF), 8 * n), 8 * n)
  {
    ZeroBytes(x, 0, n);
    LoadValue(x, 0, n);
    ModFits(S.AsI64(HALF), 8 * n);
    SmallMod(Mod(S.AsI64(HALF), 8 * n), Pow2(8 * n));
  }

  lemma {:induction false} DirectValue(t: Table, n: nat, x: Input)
    requires WellFormed(t) && WideSum(t, n) && 9 <= n && forall i: nat :: x(i) == 0
    ensures ValueOf(t, 3, x) == VBv(HALF, 8 * n)
  {
    ZeroBytes(x, 0, n);
    WideConstant(HALF, 8 * n);
    SmallMod(HALF, Pow2(8 * n));
    assert ShapeOf(t[3]) == Arith(BvOp.Add);
    assert ValueOf(t, 2, x) == VBv(0, 8 * n);
    assert ValueOf(t, 3, x) == ArithV(BvOp.Add, LeftV(t, 3, x), RightV(t, 3, x));
  }

  /** More than eight bytes plus a word that is negative as a signed one: on zeros the two values differ. */
  lemma {:induction false} WideConstantsDiffer(t: Table, n: nat, data: S.Concrete, x: Input)
    requires WideSum(t, n) && 9 <= n && 8 * n < 0x1_0000 && forall i: nat :: x(i) == 0
    ensures WellFormed(t) && Typed(t, 3) && S.Build(t, data, 3).Got?
    ensures Eval(S.Build(t, data, 3).e, x) != ValueOf(t, 3, x)
  {
    WideSumIsTyped(t, n);
    WideSumBuilds(t, n, data);
    TranslatedValue(n, x);
    DirectValue(t, n, x);
    WideConstant(HALF, 8 * n);
  }

  lemma {:induction false} ZeroBytes(x: Input, off: nat, len: nat)
    requires forall i: nat :: x(i) == 0
    ensures LittleEndian(x, off, len) == 0
    decreases len
  {
    if len > 0 { ZeroBytes(x, off + 1, len - 1); }
  }
}
