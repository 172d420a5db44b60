/**
 The meaning of a label: direct evaluation of the union table on an input, and the labels,
 bytes and sorts that go with it.
 */
module LabelValue {
  import opened Arithmetic
  import opened Expr
  import opened LabelTable
  import S = Serialize

  // ---------------------------------------------------------------------------
  // Operators on values
  // ---------------------------------------------------------------------------

  function AsNumber(b: bool): nat { if b then 1 else 0 }

  /** The bytes at `off`, lowest first. */
  function LittleEndian(x: Input, off: nat, len: nat): nat
    decreases len
  {
    if len == 0 then 0 else x(off) % 256 + 256 * LittleEndian(x, off + 1, len - 1)
  }

  function ZeroTo(v: Value, size: nat): Value {
    match v case VBv(a, _) => VBv(a, size) case VBool(b) => VBv(AsNumber(b), size) case Stuck => Stuck
  }

  function SignTo(v: Value, size: nat): Value {
    match v
    case VBv(a, m) => VBv(Mod(Signed(a, m), size), size)
    case VBool(b) => VBv(if b then Pow2(size) - 1 else 0, size)
    case Stuck => Stuck
  }

  function Slice(v: Value, from: nat, size: nat): Value {
    match v case VBv(a, _) => VBv(Mod(ShiftRight(a, from), size), size) case _ => Stuck
  }

  function NotV(v: Value): Value {
    match v
    case VBv(a, m) => VBv(Mod(-1 - a, m), m)
    case VBool(b) => VBool(!b)
    case Stuck => Stuck
  }

  function NegV(v: Value): Value {
    match v case VBv(a, m) => VBv(Mod(0 - a, m), m) case _ => Stuck
  }

  function ArithV(op: BvOp, l: Value, r: Value): Value {
    match (l, r)
    case (VBv(a, m), VBv(b, _)) => VBv(ApplyBin(op, a, b, m), m)
    case (VBool(a), VBool(b)) => if op == BvOp.Xor then VBool(a != b) else Stuck
    case _ => Stuck
  }

  function LogicV(op: BoolOp, l: Value, r: Value): Value {
    match (l, r) case (VBool(a), VBool(b)) => VBool(ApplyLogic(op, a, b)) case _ => Stuck
  }

  function ConcatV(hi: Value, lo: Value): Value {
    match (hi, lo) case (VBv(a, m), VBv(b, n)) => VBv(Above(a, b, n), m + n) case _ => Stuck
  }

  function RelV(op: CmpOp, l: Value, r: Value): Value {
    match (l, r)
    case (VBv(a, m), VBv(b, _)) => VBool(Compare(op, a, b, m))
    case (VBool(a), VBool(b)) =>
      if op == CmpOp.Equal then VBool(a == b) else if op == CmpOp.Distinct then VBool(a != b) else Stuck
    case _ => Stuck
  }

  /** A constant of one bit is a truth value. */
  function ConstV(v: nat, bits: int): Value {
    if bits == 1 then VBool(v == 1) else if bits <= 0 then Stuck else VBv(Mod(v, bits), bits)
  }

  // ---------------------------------------------------------------------------
  // Direct evaluation
  // ---------------------------------------------------------------------------

  datatype Shape = Arith(op: BvOp) | Logic(lop: BoolOp) | Concat | Rel(cop: CmpOp) | Unknown

  function NodeBits(info: LabelInfo): nat { if info.size == 0 then 1 else info.size }

  /** The comparison codes of the compiler, from 32 on. */
  function RelShape(code: nat): Shape {
    match code
    case 32 => Rel(CmpOp.Equal)
    case 33 => Rel(CmpOp.Distinct)
    case 34 => Rel(CmpOp.Ugt)
    case 35 => Rel(CmpOp.Uge)
    case 36 => Rel(CmpOp.Ult)
    case 37 => Rel(CmpOp.Ule)
    case 38 => Rel(CmpOp.Sgt)
    case 39 => Rel(CmpOp.Sge)
    case 40 => Rel(CmpOp.Slt)
    case 41 => Rel(CmpOp.Sle)
    case _ => Unknown
  }

  /** A two-operand operator: the low byte first, then the comparison in the high byte. */
  function ShapeOf(info: LabelInfo): Shape {
    match LowByte(info.op)
    case 11 => Arith(BvOp.Add)
    case 13 => Arith(BvOp.Sub)
    case 15 => Arith(BvOp.Mul)
    case 17 => Arith(BvOp.UDiv)
    case 18 => Arith(BvOp.SDiv)
    case 20 => Arith(BvOp.URem)
    case 21 => Arith(BvOp.SRem)
    case 23 => Arith(BvOp.Shl)
    case 24 => Arith(BvOp.LShr)
    case 25 => Arith(BvOp.AShr)
    case 26 => if NodeBits(info) == 1 then Shape.Logic(LAnd) else Arith(BvOp.And)
    case 27 => if NodeBits(info) == 1 then Shape.Logic(LOr) else Arith(BvOp.Or)
    case 28 => Arith(BvOp.Xor)
    case 69 => Shape.Concat
    case _ => RelShape(HighByte(info.op))
  }

  /** The width of a constant operand: what a concatenation leaves beside the other operand, else that of the label. */
  function LeftBits(t: Table, info: LabelInfo): int
    requires info.l2 < |t|
  {
    if info.op == 69 then info.size - t[info.l2].size else info.size
  }

  function RightBits(t: Table, info: LabelInfo): int
    requires info.l1 < |t|
  {
    if info.op == 69 then info.size - t[info.l1].size else info.size
  }

  predicate IsLeaf(op: nat) { op == READ || op == LOAD }

  function UnaryOperand(info: LabelInfo): nat { if info.op == NOT || info.op == NEG then info.l2 else info.l1 }

  function UnaryV(info: LabelInfo, v: Value): Value {
    if info.op == ZEXT then ZeroTo(v, info.size)
    else if info.op == SEXT then SignTo(v, info.size)
    else if info.op == TRUNC then Slice(v, 0, info.size)
    else if info.op == EXTRACT then Slice(v, U32(info.op2), info.size)
    else if info.op == NOT then NotV(v)
    else NegV(v)
  }

  function BinaryV(shape: Shape, l: Value, r: Value): Value {
    match shape
    case Arith(op) => ArithV(op, l, r)
    case Logic(op) => LogicV(op, l, r)
    case Concat => ConcatV(r, l)
    case Rel(op) => RelV(op, l, r)
    case Unknown => Stuck
  }

  ghost function ValueOf(t: Table, lbl: nat, x: Input): Value
    requires WellFormed(t) && lbl < |t|
    decreases lbl
  {
    var info := t[lbl];
    assert EntryOk(t, lbl);
    if lbl == 0 then Stuck
    else if info.op == READ then VBv(x(U32(info.op1)) % 256, 8)
    else if info.op == LOAD then VBv(LittleEndian(x, U32(t[info.l1].op1), info.l2), 8 * info.l2)
    else if S.IsUnary(info.op) then UnaryV(info, ValueOf(t, UnaryOperand(info), x))
    else
      var l := if info.l1 == 0 then ConstV(info.op1, LeftBits(t, info)) else ValueOf(t, info.l1, x);
      var r := if info.l2 == 0 then ConstV(info.op2, RightBits(t, info)) else ValueOf(t, info.l2, x);
      BinaryV(ShapeOf(info), l, r)
  }

  /** The values of the two operands. */
  ghost function LeftV(t: Table, lbl: nat, x: Input): Value
    requires WellFormed(t) && lbl < |t| && t[lbl].l1 < |t| && t[lbl].l2 < |t|
  {
    if t[lbl].l1 == 0 then ConstV(t[lbl].op1, LeftBits(t, t[lbl])) else ValueOf(t, t[lbl].l1, x)
  }

  ghost function RightV(t: Table, lbl: nat, x: Input): Value
    requires WellFormed(t) && lbl < |t| && t[lbl].l1 < |t| && t[lbl].l2 < |t|
  {
    if t[lbl].l2 == 0 then ConstV(t[lbl].op2, RightBits(t, t[lbl])) else ValueOf(t, t[lbl].l2, x)
  }

  /** The labels under a label, itself included. */
  ghost function Reach(t: Table, lbl: nat): set<nat>
    requires WellFormed(t) && lbl < |t|
    decreases lbl
  {
    var info := t[lbl];
    assert EntryOk(t, lbl);
    if lbl == 0 then {}
    else if IsLeaf(info.op) then {lbl}
    else if S.IsUnary(info.op) then {lbl} + Reach(t, UnaryOperand(info))
    else {lbl} + Reach(t, info.l1) + Reach(t, info.l2)
  }

  /** The input bytes a label reads. */
  ghost function BytesOf(t: Table, lbl: nat): set<nat>
    requires WellFormed(t) && lbl < |t|
    decreases lbl
  {
    var info := t[lbl];
    assert EntryOk(t, lbl);
    if lbl == 0 then {}
    else if info.op == READ then {U32(info.op1)}
    else if info.op == LOAD then S.LoadDeps(U32(t[info.l1].op1), info.l2)
    else if S.IsUnary(info.op) then BytesOf(t, UnaryOperand(info))
    else BytesOf(t, info.l1) + BytesOf(t, info.l2)
  }

  lemma {:induction false} LittleEndianTop(x: Input, off: nat, len: nat)
    requires len >= 1
    ensures LittleEndian(x, off, len) == x(off + len - 1) % 256 * Pow2(8 * (len - 1)) + LittleEndian(x, off, len - 1)
    decreases len
  {
    if len > 1 {
      LittleEndianTop(x, off + 1, len - 1);
      var b, p := x(off + len - 1) % 256, Pow2(8 * (len - 2));
      assert Pow2(8 * (len - 1)) == 256 * p by { Pow2Byte(8 * (len - 2)); }
      assert 256 * (b * p) == b * (256 * p);
    }
  }

  lemma {:induction false} LittleEndianIsLocal(x: Input, y: Input, off: nat, len: nat)
    requires forall i :: off <= i < off + len ==> x(i) % 256 == y(i) % 256
    ensures LittleEndian(x, off, len) == LittleEndian(y, off, len)
    decreases len
  {
    if len > 0 { LittleEndianIsLocal(x, y, off + 1, len - 1); }
  }

  /** The value of a label depends on the bytes it reads alone. */
  lemma {:induction false} ValueIsLocal(t: Table, lbl: nat, x: Input, y: Input)
    requires WellFormed(t) && lbl < |t| && AgreeOn(BytesOf(t, lbl), x, y)
    ensures ValueOf(t, lbl, x) == ValueOf(t, lbl, y)
    decreases lbl
  {
    var info := t[lbl];
    assert EntryOk(t, lbl);
    if lbl != 0 && info.op != READ {
      if info.op == LOAD {
        var off := U32(t[info.l1].op1);
        forall i | off <= i < off + info.l2 ensures x(i) % 256 == y(i) % 256 {
          assert i in S.LoadDeps(off, info.l2);
        }
        LittleEndianIsLocal(x, y, off, info.l2);
      } else if S.IsUnary(info.op) {
        ValueIsLocal(t, UnaryOperand(info), x, y);
      } else {
        ValueIsLocal(t, info.l1, x, y);
        ValueIsLocal(t, info.l2, x, y);
      }
    }
  }

  // ---------------------------------------------------------------------------
  // Well-typed labels
  // ---------------------------------------------------------------------------

  function ConstSort(bits: int): Sort {
    if bits == 1 then Bool else if bits <= 0 then Ill else BV(bits)
  }

  /** The sort of a one-operand operator: a negated truth value is a truth value. */
  function UnarySort(info: LabelInfo, s: Sort): Sort {
    if info.op == NOT && s == Bool then Bool else BV(info.size)
  }

  /** The sort of a two-operand operator: an exclusive or of truth values is a truth value. */
  function BinarySort(info: LabelInfo, l: Sort): Sort {
    match ShapeOf(info)
    case Logic(_) => Bool
    case Rel(_) => Bool
    case Arith(op) => if op == BvOp.Xor && l == Bool then Bool else BV(info.size)
    case _ => BV(info.size)
  }

  ghost function SortAt(t: Table, lbl: nat): Sort
    requires WellFormed(t) && lbl < |t|
    decreases lbl, 1
  {
    var info := t[lbl];
    assert EntryOk(t, lbl);
    if lbl == 0 then Ill
    else if IsLeaf(info.op) then BV(info.size)
    else if S.IsUnary(info.op) then UnarySort(info, SortAt(t, UnaryOperand(info)))
    else BinarySort(info, LeftSort(t, lbl))
  }

  ghost function LeftSort(t: Table, lbl: nat): Sort
    requires WellFormed(t) && lbl < |t| && t[lbl].l1 < lbl && t[lbl].l2 < lbl
    decreases lbl, 0
  {
    if t[lbl].l1 == 0 then ConstSort(LeftBits(t, t[lbl])) else SortAt(t, t[lbl].l1)
  }

  ghost function RightSort(t: Table, lbl: nat): Sort
    requires WellFormed(t) && lbl < |t| && t[lbl].l1 < lbl && t[lbl].l2 < lbl
    decreases lbl, 0
  {
    if t[lbl].l2 == 0 then ConstSort(RightBits(t, t[lbl])) else SortAt(t, t[lbl].l2)
  }

  /** The widths of a one-operand operator fit. */
  predicate UnaryTypes(info: LabelInfo, s: Sort) {
    match s
    case Bool => info.op == NOT || ((info.op == ZEXT || info.op == SEXT) && 1 <= info.size)
    case BV(m) =>
      && 1 <= info.size && 1 <= m
      && (info.op == ZEXT || info.op == SEXT ==> m <= info.size)
      && (info.op == TRUNC ==> info.size <= m)
      && (info.op == EXTRACT ==> U32(info.op2) + info.size <= m)
      && (info.op == NOT || info.op == NEG ==> info.size == m)
    case Ill => false
  }

  predicate BinaryTypes(info: LabelInfo, l: Sort, r: Sort) {
    match ShapeOf(info)
    case Arith(op) => l == r && ((1 <= info.size && l == BV(info.size)) || (op == BvOp.Xor && l == Bool))
    case Logic(_) => l == r == Bool
    case Concat => l.BV? && r.BV? && 1 <= l.w && 1 <= r.w && l.w + r.w == info.size
    case Rel(op) => l == r && ((l.BV? && 1 <= l.w) || (l.Bool? && (op == CmpOp.Equal || op == CmpOp.Distinct)))
    case Unknown => false
  }

  /** All labels under `lbl` carry known operators whose widths fit. */
  ghost predicate Typed(t: Table, lbl: nat)
    requires WellFormed(t) && lbl < |t|
    decreases lbl
  {
    var info := t[lbl];
    assert EntryOk(t, lbl);
    1 <= lbl &&
    if info.op == READ then info.size == 8
    else if info.op == LOAD then 1 <= info.l2 && info.size == 8 * info.l2 < 0x1_0000
    else if S.IsUnary(info.op) then
      Typed(t, UnaryOperand(info)) && UnaryTypes(info, SortAt(t, UnaryOperand(info)))
    else
      && (info.l1 != 0 ==> Typed(t, info.l1)) && (info.l2 != 0 ==> Typed(t, info.l2))
      && BinaryTypes(info, LeftSort(t, lbl), RightSort(t, lbl))
  }

  lemma {:induction false} UnaryHasSort(info: LabelInfo, s: Sort, v: Value)
    requires S.IsUnary(info.op) && UnaryTypes(info, s) && HasSort(v, s)
    ensures HasSort(UnaryV(info, v), UnarySort(info, s))
  {
    if v.VBool? {
      if info.op != NOT { Pow2Monotone(1, info.size); }
    } else {
      var a: int := v.v;
      if info.op == ZEXT { Pow2Monotone(v.w, info.size); }
      ModFits(Signed(v.v, v.w), info.size);
      ModFits(ShiftRight(v.v, 0), info.size);
      ModFits(ShiftRight(v.v, U32(info.op2)), info.size);
      ModFits(-1 - a, v.w);
      ModFits(0 - a, v.w);
    }
  }

  lemma {:induction false} BinaryHasSort(info: LabelInfo, ls: Sort, rs: Sort, l: Value, r: Value)
    requires !IsLeaf(info.op) && !S.IsUnary(info.op)
    requires BinaryTypes(info, ls, rs) && HasSort(l, ls) && HasSort(r, rs)
    ensures HasSort(BinaryV(ShapeOf(info), l, r), BinarySort(info, ls))
  {
    match ShapeOf(info)
    case Arith(op) => if l.VBv? { ApplyBinFits(op, l.v, r.v, l.w); }
    case Concat => AboveFits(r.v, r.w, l.v, l.w);
    case _ =>
  }

  lemma {:induction false} ConstHasSort(v: nat, bits: int)
    requires ConstSort(bits) != Ill
    ensures HasSort(ConstV(v, bits), ConstSort(bits))
  {
    if bits != 1 { ModFits(v, bits); }
  }

  lemma {:induction false} LittleEndianFits(x: Input, off: nat, len: nat)
    ensures LittleEndian(x, off, len) < Pow2(8 * len)
    decreases len
  {
    if len > 0 {
      LittleEndianFits(x, off + 1, len - 1);
      Pow2Byte(8 * (len - 1));
    }
  }

  /** A well-typed label has a value of its sort on every input. */
  lemma {:induction false} ValueHasSort(t: Table, lbl: nat, x: Input)
    requires WellFormed(t) && lbl < |t| && Typed(t, lbl)
    ensures HasSort(ValueOf(t, lbl, x), SortAt(t, lbl))
    decreases lbl
  {
    var info := t[lbl];
    assert EntryOk(t, lbl);
    if info.op == READ {
      ByteFits();
    } else if info.op == LOAD {
      LittleEndianFits(x, U32(t[info.l1].op1), info.l2);
    } else {
      if S.IsUnary(info.op) {
        ValueHasSort(t, UnaryOperand(info), x);
        UnaryHasSort(info, SortAt(t, UnaryOperand(info)), ValueOf(t, UnaryOperand(info), x));
      } else {
        if info.l1 != 0 { ValueHasSort(t, info.l1, x); } else { ConstHasSort(info.op1, LeftBits(t, info)); }
        if info.l2 != 0 { ValueHasSort(t, info.l2, x); } else { ConstHasSort(info.op2, RightBits(t, info)); }
        BinaryHasSort(info, LeftSort(t, lbl), RightSort(t, lbl), LeftV(t, lbl, x), RightV(t, lbl, x));
      }
    }
  }
}
