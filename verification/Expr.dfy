/**
 Symbolic expressions over the bytes of an input, with the meaning the SMT-LIB theory
 FixedSizeBitVectors gives them.  A bit vector is a natural number below 2 to its width.
 */
module Expr {
  import opened Arithmetic

  datatype BvOp = And | Or | Xor | Shl | LShr | AShr | Add | Sub | Mul | UDiv | SDiv | URem | SRem
  datatype BoolOp = LAnd | LOr | LXor
  datatype CmpOp = Equal | Distinct | Ult | Ule | Ugt | Uge | Slt | Sle | Sgt | Sge

  datatype Expr =
    | Byte(off: nat)
    | BvVal(v: nat, w: nat)
    | BoolVal(b: bool)
    | Concat(hi: Expr, lo: Expr)
    | Extract(from: nat, len: nat, e: Expr)
    | ZeroExt(extra: nat, e: Expr)
    | SignExt(extra: nat, e: Expr)
    | Neg(e: Expr)
    | Not(e: Expr)
    | Ite(c: Expr, t: Expr, f: Expr)
    | Bin(op: BvOp, l: Expr, r: Expr)
    | Logic(lop: BoolOp, l: Expr, r: Expr)
    | Cmp(cop: CmpOp, l: Expr, r: Expr)

  datatype Sort = Bool | BV(w: nat) | Ill

  function SortOf(e: Expr): Sort {
    match e
    case Byte(_) => BV(8)
    case BvVal(_, w) => if w == 0 then Ill else BV(w)
    case BoolVal(_) => Bool
    case Concat(hi, lo) => (match (SortOf(hi), SortOf(lo)) case (BV(m), BV(n)) => BV(m + n) case _ => Ill)
    case Extract(from, len, x) =>
      (match SortOf(x) case BV(m) => if 0 < len && from + len <= m then BV(len) else Ill case _ => Ill)
    case ZeroExt(k, x) => (match SortOf(x) case BV(m) => BV(m + k) case _ => Ill)
    case SignExt(k, x) => (match SortOf(x) case BV(m) => BV(m + k) case _ => Ill)
    case Neg(x) => if SortOf(x).BV? then SortOf(x) else Ill
    case Not(x) => if SortOf(x).Bool? then Bool else Ill
    case Ite(c, t, f) => if SortOf(c).Bool? && SortOf(t) == SortOf(f) then SortOf(t) else Ill
    case Bin(_, l, r) => if SortOf(l).BV? && SortOf(l) == SortOf(r) then SortOf(l) else Ill
    case Logic(_, l, r) => if SortOf(l).Bool? && SortOf(r).Bool? then Bool else Ill
    case Cmp(op, l, r) =>
      if SortOf(l) == SortOf(r) && (SortOf(l).BV? || (SortOf(l).Bool? && (op == Equal || op == Distinct)))
        then Bool else Ill
  }

  /** The input offsets an expression mentions. */
  function Free(e: Expr): set<nat> {
    match e
    case Byte(off) => {off}
    case BvVal(_, _) => {}
    case BoolVal(_) => {}
    case Concat(hi, lo) => Free(hi) + Free(lo)
    case Extract(_, _, x) => Free(x)
    case ZeroExt(_, x) => Free(x)
    case SignExt(_, x) => Free(x)
    case Neg(x) => Free(x)
    case Not(x) => Free(x)
    case Ite(c, t, f) => Free(c) + Free(t) + Free(f)
    case Bin(_, l, r) => Free(l) + Free(r)
    case Logic(_, l, r) => Free(l) + Free(r)
    case Cmp(_, l, r) => Free(l) + Free(r)
  }

  // ---------------------------------------------------------------------------
  // Meaning
  // ---------------------------------------------------------------------------

  datatype Value = VBool(b: bool) | VBv(v: nat, w: nat) | Stuck

  /** An input: the value of the byte at every offset. */
  type Input = nat -> nat

  /** `a` put above the lowest `n` bits, which hold `b`. */
  function Above(a: nat, b: nat, n: nat): nat { a * Pow2(n) + b }

  function Mod(x: int, w: nat): nat { x % Pow2(w) }

  /** Two's complement reading of a `w`-bit number. */
  function Signed(v: nat, w: nat): int {
    if w > 0 && v >= Pow2(w - 1) then v - Pow2(w) else v
  }

  function Bit(op: BvOp, a: bool, b: bool): bool {
    match op
    case And => a && b
    case Or => a || b
    case _ => a != b
  }

  function Bitwise(op: BvOp, a: nat, b: nat, w: nat): nat {
    if w == 0 then 0
    else (if Bit(op, a % 2 == 1, b % 2 == 1) then 1 else 0) + 2 * Bitwise(op, a / 2, b / 2, w - 1)
  }

  function Abs(x: int): nat { if x < 0 then -x else x }

  /** Signed division and remainder, truncating toward zero; division by zero as in SMT-LIB. */
  function SDivide(a: int, b: int): int {
    if b == 0 then (if a < 0 then 1 else -1)
    else if (a < 0) == (b < 0) then Abs(a) / Abs(b) else -(Abs(a) / Abs(b))
  }

  function SRemainder(a: int, b: int): int {
    if b == 0 then a else if a < 0 then -(Abs(a) % Abs(b)) else Abs(a) % Abs(b)
  }

  function UDivide(a: nat, b: nat, w: nat): nat { if b == 0 then Pow2(w) - 1 else a / b }

  function URemainder(a: nat, b: nat): nat { if b == 0 then a else a % b }

  function ShiftRight(a: nat, k: nat): nat { if k == 0 then a else ShiftRight(a / 2, k - 1) }

  function AShift(a: nat, b: nat, w: nat): nat {
    if b < w then Mod(Signed(a, w) / Pow2(b), w) else if Signed(a, w) < 0 then Pow2(w) - 1 else 0
  }

  function ApplyBin(op: BvOp, a: nat, b: nat, w: nat): nat {
    match op
    case Add => Mod(a + b, w)
    case Sub => Mod(a - b, w)
    case Mul => Mod(a * b, w)
    case UDiv => UDivide(a, b, w)
    case URem => URemainder(a, b)
    case SDiv => Mod(SDivide(Signed(a, w), Signed(b, w)), w)
    case SRem => Mod(SRemainder(Signed(a, w), Signed(b, w)), w)
    case Shl => if b >= w then 0 else Mod(a * Pow2(b), w)
    case LShr => if b >= w then 0 else ShiftRight(a, b)
    case AShr => AShift(a, b, w)
    case _ => Bitwise(op, a, b, w)
  }

  predicate Compare(op: CmpOp, a: nat, b: nat, w: nat) {
    match op
    case Equal => a == b
    case Distinct => a != b
    case Ult => a < b
    case Ule => a <= b
    case Ugt => a > b
    case Uge => a >= b
    case Slt => Signed(a, w) < Signed(b, w)
    case Sle => Signed(a, w) <= Signed(b, w)
    case Sgt => Signed(a, w) > Signed(b, w)
    case Sge => Signed(a, w) >= Signed(b, w)
  }

  predicate ApplyLogic(op: BoolOp, a: bool, b: bool) {
    match op
    case LAnd => a && b
    case LOr => a || b
    case LXor => a != b
  }

  function Eval(e: Expr, x: Input): Value {
    match e
    case Byte(off) => VBv(x(off) % 256, 8)
    case BvVal(v, w) => VBv(Mod(v, w), w)
    case BoolVal(b) => VBool(b)
    case Concat(hi, lo) =>
      (match (Eval(hi, x), Eval(lo, x)) case (VBv(a, m), VBv(b, n)) => VBv(Above(a, b, n), m + n) case _ => Stuck)
    case Extract(from, len, y) =>
      (match Eval(y, x) case VBv(a, _) => VBv(Mod(ShiftRight(a, from), len), len) case _ => Stuck)
    case ZeroExt(k, y) => (match Eval(y, x) case VBv(a, m) => VBv(a, m + k) case _ => Stuck)
    case SignExt(k, y) => (match Eval(y, x) case VBv(a, m) => VBv(Mod(Signed(a, m), m + k), m + k) case _ => Stuck)
    case Neg(y) => (match Eval(y, x) case VBv(a, m) => VBv(Mod(0 - a, m), m) case _ => Stuck)
    case Not(y) => (match Eval(y, x) case VBool(b) => VBool(!b) case _ => Stuck)
    case Ite(c, t, f) => (match Eval(c, x) case VBool(b) => if b then Eval(t, x) else Eval(f, x) case _ => Stuck)
    case Bin(op, l, r) =>
      (match (Eval(l, x), Eval(r, x)) case (VBv(a, m), VBv(b, _)) => VBv(ApplyBin(op, a, b, m), m) case _ => Stuck)
    case Logic(op, l, r) =>
      (match (Eval(l, x), Eval(r, x)) case (VBool(a), VBool(b)) => VBool(ApplyLogic(op, a, b)) case _ => Stuck)
    case Cmp(op, l, r) =>
      (match (Eval(l, x), Eval(r, x))
       case (VBv(a, m), VBv(b, _)) => VBool(Compare(op, a, b, m))
       case (VBool(a), VBool(b)) => VBool((a == b) == (op == Equal))
       case _ => Stuck)
  }

  /** Two inputs that agree on the bytes of `s`. */
  ghost predicate AgreeOn(s: set<nat>, x: Input, y: Input) {
    forall i :: i in s ==> x(i) % 256 == y(i) % 256
  }

  /** The value depends on the mentioned bytes alone. */
  lemma {:induction false} EvalIsLocal(e: Expr, x: Input, y: Input)
    requires AgreeOn(Free(e), x, y)
    ensures Eval(e, x) == Eval(e, y)
  {
    match e
    case Byte(_) =>
    case BvVal(_, _) =>
    case BoolVal(_) =>
    case Concat(hi, lo) => EvalIsLocal(hi, x, y); EvalIsLocal(lo, x, y);
    case Extract(_, _, z) => EvalIsLocal(z, x, y);
    case ZeroExt(_, z) => EvalIsLocal(z, x, y);
    case SignExt(_, z) => EvalIsLocal(z, x, y);
    case Neg(z) => EvalIsLocal(z, x, y);
    case Not(z) => EvalIsLocal(z, x, y);
    case Ite(c, t, f) => EvalIsLocal(c, x, y); EvalIsLocal(t, x, y); EvalIsLocal(f, x, y);
    case Bin(_, l, r) => EvalIsLocal(l, x, y); EvalIsLocal(r, x, y);
    case Logic(_, l, r) => EvalIsLocal(l, x, y); EvalIsLocal(r, x, y);
    case Cmp(_, l, r) => EvalIsLocal(l, x, y); EvalIsLocal(r, x, y);
  }

  // ---------------------------------------------------------------------------
  // Values stay within their widths
  // ---------------------------------------------------------------------------

  lemma {:induction false} ModFits(x: int, w: nat)
    ensures Mod(x, w) < Pow2(w)
  {
  }

  lemma {:induction false} BitwiseFits(op: BvOp, a: nat, b: nat, w: nat)
    ensures Bitwise(op, a, b, w) < Pow2(w)
  {
    if w > 0 { BitwiseFits(op, a / 2, b / 2, w - 1); }
  }

  lemma {:induction false} ShiftRightFits(a: nat, k: nat)
    ensures ShiftRight(a, k) <= a
  {
    if k > 0 { ShiftRightFits(a / 2, k - 1); }
  }

  lemma {:induction false} QuotientFits(a: nat, b: nat)
    requires b > 0
    ensures a / b <= a && a % b <= a
  {
    Euclid(a, b);
    if a / b > a {
      AtLeast(a / b, b);
    }
    assert b * (a / b) >= 0;
  }

  lemma {:induction false} ApplyBinFits(op: BvOp, a: nat, b: nat, w: nat)
    requires a < Pow2(w)
    ensures ApplyBin(op, a, b, w) < Pow2(w)
  {
    match op
    case Add => ModFits(a + b, w);
    case Sub => ModFits(a - b, w);
    case Mul => ModFits(a * b, w);
    case UDiv => if b > 0 { QuotientFits(a, b); }
    case URem => if b > 0 { QuotientFits(a, b); }
    case SDiv => ModFits(SDivide(Signed(a, w), Signed(b, w)), w);
    case SRem => ModFits(SRemainder(Signed(a, w), Signed(b, w)), w);
    case Shl => if b < w { ModFits(a * Pow2(b), w); }
    case LShr => if b < w { ShiftRightFits(a, b); }
    case AShr => if b < w { ModFits(Signed(a, w) / Pow2(b), w); }
    case And => BitwiseFits(op, a, b, w);
    case Or => BitwiseFits(op, a, b, w);
    case Xor => BitwiseFits(op, a, b, w);
  }

  lemma {:induction false} AboveFits(a: nat, m: nat, b: nat, n: nat)
    requires a < Pow2(m) && b < Pow2(n)
    ensures Above(a, b, n) < Pow2(m + n)
  {
    Pow2Add(m, n);
    Stacked(a, Pow2(m), b, Pow2(n));
  }

  /** Values have the sort of their expression: the width, and a number that fits it. */
  ghost predicate HasSort(v: Value, s: Sort) {
    match s
    case Bool => v.VBool?
    case BV(w) => v.VBv? && v.w == w && v.v < Pow2(w)
    case Ill => false
  }

  /** A well-sorted expression has a value of its sort on every input. */
  lemma {:induction false} EvalHasSort(e: Expr, x: Input)
    requires SortOf(e) != Ill
    ensures HasSort(Eval(e, x), SortOf(e))
  {
    match e
    case Byte(_) => ByteFits();
    case BvVal(v, w) => ModFits(v, w);
    case BoolVal(_) =>
    case Concat(hi, lo) => EvalHasSort(hi, x); EvalHasSort(lo, x); ConcatHasSort(hi, lo, x);
    case Extract(from, len, z) => EvalHasSort(z, x); ExtractHasSort(from, len, z, x);
    case ZeroExt(_, z) => EvalHasSort(z, x); StretchHasSort(e, z, x);
    case SignExt(k, z) => EvalHasSort(z, x); SignHasSort(k, z, x);
    case Neg(z) => EvalHasSort(z, x); StretchHasSort(e, z, x);
    case Not(z) => EvalHasSort(z, x);
    case Ite(c, t, f) => EvalHasSort(c, x); EvalHasSort(t, x); EvalHasSort(f, x);
    case Bin(op, l, r) => EvalHasSort(l, x); EvalHasSort(r, x); BinHasSort(op, l, r, x);
    case Logic(_, l, r) => EvalHasSort(l, x); EvalHasSort(r, x);
    case Cmp(_, l, r) => EvalHasSort(l, x); EvalHasSort(r, x);
  }

  lemma {:induction false} ConcatHasSort(hi: Expr, lo: Expr, x: Input)
    requires SortOf(hi).BV? && SortOf(lo).BV? && HasSort(Eval(hi, x), SortOf(hi)) && HasSort(Eval(lo, x), SortOf(lo))
    ensures HasSort(Eval(Concat(hi, lo), x), SortOf(Concat(hi, lo)))
  {
    AboveFits(Eval(hi, x).v, SortOf(hi).w, Eval(lo, x).v, SortOf(lo).w);
  }

  lemma {:induction false} BinHasSort(op: BvOp, l: Expr, r: Expr, x: Input)
    requires SortOf(l).BV? && SortOf(l) == SortOf(r) && HasSort(Eval(l, x), SortOf(l)) && HasSort(Eval(r, x), SortOf(r))
    ensures HasSort(Eval(Bin(op, l, r), x), SortOf(Bin(op, l, r)))
  {
    ApplyBinFits(op, Eval(l, x).v, Eval(r, x).v, SortOf(l).w);
  }

  lemma {:induction false} ExtractHasSort(from: nat, len: nat, z: Expr, x: Input)
    requires SortOf(Extract(from, len, z)) != Ill && HasSort(Eval(z, x), SortOf(z))
    ensures HasSort(Eval(Extract(from, len, z), x), SortOf(Extract(from, len, z)))
  {
    ModFits(ShiftRight(Eval(z, x).v, from), len);
  }

  lemma {:induction false} SignHasSort(k: nat, z: Expr, x: Input)
    requires SortOf(SignExt(k, z)) != Ill && HasSort(Eval(z, x), SortOf(z))
    ensures HasSort(Eval(SignExt(k, z), x), SortOf(SignExt(k, z)))
  {
    ModFits(Signed(Eval(z, x).v, SortOf(z).w), SortOf(z).w + k);
  }

  lemma {:induction false} StretchHasSort(e: Expr, z: Expr, x: Input)
    requires (e.ZeroExt? || e.Neg?) && e.e == z
    requires SortOf(e) != Ill && SortOf(z).BV? && HasSort(Eval(z, x), SortOf(z))
    ensures HasSort(Eval(e, x), SortOf(e))
  {
    var m := SortOf(z).w;
    var v: int := Eval(z, x).v;
    match e
    case ZeroExt(k, _) => Pow2Monotone(m, m + k);
    case Neg(_) => ModFits(0 - v, m);
  }
}
