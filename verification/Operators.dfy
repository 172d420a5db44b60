/**
 What the operators mean, in plain arithmetic: the functions that give expressions and labels
 their values, and the codes under which labels carry the operators.
 */
module Operators {
  import opened Arithmetic
  import opened Expr
  import opened LabelTable
  import opened LabelValue

  // ---------------------------------------------------------------------------
  // Numbers
  // ---------------------------------------------------------------------------

  /** The two's complement reading is the one number in the signed range with the same residue. */
  lemma {:induction false} SignedIs(v: nat, w: nat)
    requires 0 < w && v < Pow2(w)
    ensures 0 <= Signed(v, w) + Pow2(w - 1) < Pow2(w) && Mod(Signed(v, w), w) == v
  {
    assert Pow2(w) == 2 * Pow2(w - 1);
    if v >= Pow2(w - 1) {
      Unique(v - Pow2(w), -1, v, Pow2(w));
    } else {
      SmallMod(v, Pow2(w));
    }
  }

  lemma {:induction false} HalveDivides(a: nat, p: nat)
    requires p > 0
    ensures a / 2 / p == a / (2 * p)
  {
    var q, r := a / 2 / p, a / 2 % p;
    Euclid(a / 2, p);
    assert a == 2 * (a / 2) + a % 2;
    assert 2 * (p * q) == 2 * p * q;
    Unique(a, q, 2 * r + a % 2, 2 * p);
  }

  /** Shifting right is dividing by a power of two. */
  lemma {:induction false} ShiftRightIs(a: nat, k: nat)
    ensures ShiftRight(a, k) == a / Pow2(k)
  {
    if k > 0 {
      ShiftRightIs(a / 2, k - 1);
      HalveDivides(a, Pow2(k - 1));
    }
  }

  predicate BitOf(a: nat, k: nat) { a / Pow2(k) % 2 == 1 }

  lemma {:induction false} BitOfHalf(a: nat, k: nat)
    requires k > 0
    ensures BitOf(a, k) <==> BitOf(a / 2, k - 1)
  {
    HalveDivides(a, Pow2(k - 1));
  }

  /** The bitwise operators work bit by bit. */
  lemma {:induction false} BitwiseIs(op: BvOp, a: nat, b: nat, w: nat, k: nat)
    requires k < w
    ensures var r := Bitwise(op, a, b, w);
      && (op == And ==> (BitOf(r, k) <==> BitOf(a, k) && BitOf(b, k)))
      && (op == Or ==> (BitOf(r, k) <==> BitOf(a, k) || BitOf(b, k)))
      && (op == Xor ==> (BitOf(r, k) <==> BitOf(a, k) != BitOf(b, k)))
  {
    var r := Bitwise(op, a, b, w);
    assert r / 2 == Bitwise(op, a / 2, b / 2, w - 1);
    if k == 0 {
      assert forall n: nat :: n / Pow2(0) == n;
    } else {
      BitwiseIs(op, a / 2, b / 2, w - 1, k - 1);
      BitOfHalf(r, k);
      BitOfHalf(a, k);
      BitOfHalf(b, k);
    }
  }

  /** Signed division truncates toward zero, and the remainder has the sign of the dividend. */
  lemma {:induction false} DivisionTruncates(a: int, b: int)
    requires b != 0
    ensures var q, r := SDivide(a, b), SRemainder(a, b);
      a == b * q + r && Abs(r) < Abs(b) && (r != 0 ==> (r < 0 <==> a < 0))
  {
    var m, n := Abs(a), Abs(b);
    Euclid(m, n);
    var q, r := m / n, m % n;
    assert m == n * q + r && r < n;
    Signs(a, b, q, r);
  }

  lemma {:induction false} Signs(a: int, b: int, q: int, r: int)
    requires Abs(a) == Abs(b) * q + r
    ensures a == b * (if (a < 0) == (b < 0) then q else -q) + if a < 0 then -r else r
  {
  }

  /** The arithmetic shift is division by a power of two, rounding down, on the signed reading. */
  lemma {:induction false} AShiftIs(a: nat, b: nat, w: nat)
    requires 0 < w && a < Pow2(w)
    ensures AShift(a, b, w) == Mod(Signed(a, w) / Pow2(b), w)
  {
    if b >= w {
      SignedIs(a, w);
      Pow2Monotone(w - 1, b);
      var s := Signed(a, w);
      if s < 0 {
        Unique(s, -1, s + Pow2(b), Pow2(b));
        Unique(-1, -1, Pow2(w) - 1, Pow2(w));
      } else {
        Unique(s, 0, s, Pow2(b));
        SmallMod(0, Pow2(w));
      }
    }
  }

  // ---------------------------------------------------------------------------
  // Two-operand labels
  // ---------------------------------------------------------------------------

  /** The label is a two-operand one with the given values of `w` bits on its sides. */
  ghost predicate On(t: Table, lbl: nat, x: Input, a: nat, b: nat, w: nat)
    requires WellFormed(t)
  {
    && 0 < lbl < |t| && t[lbl].l1 < lbl && t[lbl].l2 < lbl
    && LeftV(t, lbl, x) == VBv(a, w) && RightV(t, lbl, x) == VBv(b, w)
  }

  lemma {:induction false} DecodedComparison(t: Table, lbl: nat, x: Input, code: nat)
    requires WellFormed(t) && 0 < lbl < |t| && t[lbl].l1 < lbl && t[lbl].l2 < lbl && t[lbl].op == 256 * code + 53
    requires 32 <= code <= 41
    ensures ValueOf(t, lbl, x) == BinaryV(RelShape(code), LeftV(t, lbl, x), RightV(t, lbl, x))
  {
    assert LowByte(t[lbl].op) == 53 && HighByte(t[lbl].op) == code;
  }

  /** A comparison label, by the code in its high byte. */
  lemma {:induction false} ComparisonValue(t: Table, lbl: nat, x: Input, a: nat, b: nat, w: nat, code: nat)
    requires WellFormed(t) && On(t, lbl, x, a, b, w) && t[lbl].op == 256 * code + 53 && 32 <= code <= 41
    ensures ValueOf(t, lbl, x).VBool?
    ensures var v, sa, sb := ValueOf(t, lbl, x).b, Signed(a, w), Signed(b, w);
      && (code == 32 ==> v == (a == b)) && (code == 33 ==> v == (a != b))
      && (code == 34 ==> v == (a > b)) && (code == 35 ==> v == (a >= b))
      && (code == 36 ==> v == (a < b)) && (code == 37 ==> v == (a <= b))
      && (code == 38 ==> v == (sa > sb)) && (code == 39 ==> v == (sa >= sb))
      && (code == 40 ==> v == (sa < sb)) && (code == 41 ==> v == (sa <= sb))
  {
    DecodedComparison(t, lbl, x, code);
  }

  /** Addition, subtraction and multiplication, by their codes. */
  lemma {:induction false} ArithmeticValue(t: Table, lbl: nat, x: Input, a: nat, b: nat, w: nat)
    requires WellFormed(t) && On(t, lbl, x, a, b, w)
    ensures t[lbl].op == 11 ==> ValueOf(t, lbl, x) == VBv(Mod(a + b, w), w)
    ensures t[lbl].op == 13 ==> ValueOf(t, lbl, x) == VBv(Mod(a - b, w), w)
    ensures t[lbl].op == 15 ==> ValueOf(t, lbl, x) == VBv(Mod(a * b, w), w)
  {
    Decoded(t, lbl, x);
  }

  /** The divisions, by their codes. */
  lemma {:induction false} DivisionValue(t: Table, lbl: nat, x: Input, a: nat, b: nat, w: nat)
    requires WellFormed(t) && On(t, lbl, x, a, b, w)
    ensures t[lbl].op == 17 ==> ValueOf(t, lbl, x) == VBv(if b == 0 then Pow2(w) - 1 else a / b, w)
    ensures t[lbl].op == 20 ==> ValueOf(t, lbl, x) == VBv(if b == 0 then a else a % b, w)
    ensures t[lbl].op == 18 ==> ValueOf(t, lbl, x) == VBv(Mod(SDivide(Signed(a, w), Signed(b, w)), w), w)
    ensures t[lbl].op == 21 ==> ValueOf(t, lbl, x) == VBv(Mod(SRemainder(Signed(a, w), Signed(b, w)), w), w)
  {
    Decoded(t, lbl, x);
  }

  lemma {:induction false} DecodedShift(t: Table, lbl: nat, x: Input, a: nat, b: nat, w: nat)
    requires WellFormed(t) && On(t, lbl, x, a, b, w)
    ensures t[lbl].op == 23 ==> ValueOf(t, lbl, x) == VBv(ApplyBin(BvOp.Shl, a, b, w), w)
    ensures t[lbl].op == 24 ==> ValueOf(t, lbl, x) == VBv(ApplyBin(BvOp.LShr, a, b, w), w)
    ensures t[lbl].op == 25 ==> ValueOf(t, lbl, x) == VBv(ApplyBin(BvOp.AShr, a, b, w), w)
  {
    Decoded(t, lbl, x);
  }

  lemma {:induction false} ShiftsAre(a: nat, b: nat, w: nat)
    requires 0 < w && a < Pow2(w)
    ensures ApplyBin(BvOp.Shl, a, b, w) == if b >= w then 0 else Mod(a * Pow2(b), w)
    ensures ApplyBin(BvOp.LShr, a, b, w) == if b >= w then 0 else a / Pow2(b)
    ensures ApplyBin(BvOp.AShr, a, b, w) == Mod(Signed(a, w) / Pow2(b), w)
  {
    ShiftRightIs(a, b);
    AShiftIs(a, b, w);
  }

  /** Shifts, by their codes. */
  lemma {:induction false} ShiftValue(t: Table, lbl: nat, x: Input, a: nat, b: nat, w: nat)
    requires WellFormed(t) && On(t, lbl, x, a, b, w) && 0 < w && a < Pow2(w)
    ensures var v, op := ValueOf(t, lbl, x), t[lbl].op;
      && (23 <= op <= 25 ==> v.VBv? && v.w == w)
      && (op == 23 ==> v.v == if b >= w then 0 else Mod(a * Pow2(b), w))
      && (op == 24 ==> v.v == if b >= w then 0 else a / Pow2(b))
      && (op == 25 ==> v.v == Mod(Signed(a, w) / Pow2(b), w))
  {
    if 23 <= t[lbl].op <= 25 {
      DecodedShift(t, lbl, x, a, b, w);
      ShiftsAre(a, b, w);
    }
  }

  /** Bitwise operators on more than one bit, by their codes. */
  lemma {:induction false} BitwiseValue(t: Table, lbl: nat, x: Input, a: nat, b: nat, w: nat, k: nat)
    requires WellFormed(t) && On(t, lbl, x, a, b, w) && k < w && t[lbl].size > 1 && 26 <= t[lbl].op <= 28
    ensures var v, op := ValueOf(t, lbl, x), t[lbl].op;
      && v.VBv? && v.w == w
      && (op == 26 ==> (BitOf(v.v, k) <==> BitOf(a, k) && BitOf(b, k)))
      && (op == 27 ==> (BitOf(v.v, k) <==> BitOf(a, k) || BitOf(b, k)))
      && (op == 28 ==> (BitOf(v.v, k) <==> BitOf(a, k) != BitOf(b, k)))
  {
    Decoded(t, lbl, x);
    var op := if t[lbl].op == 26 then BvOp.And else if t[lbl].op == 27 then BvOp.Or else BvOp.Xor;
    BitwiseIs(op, a, b, w, k);
  }

  lemma {:induction false} Decoded(t: Table, lbl: nat, x: Input)
    requires WellFormed(t) && 0 < lbl < |t| && t[lbl].l1 < lbl && t[lbl].l2 < lbl
    ensures 11 <= t[lbl].op <= 28 ==> LowByte(t[lbl].op) == t[lbl].op
    ensures 11 <= t[lbl].op <= 28 ==>
      ValueOf(t, lbl, x) == BinaryV(ShapeOf(t[lbl]), LeftV(t, lbl, x), RightV(t, lbl, x))
  {
  }

  /** Logical operators on truth values, by their codes. */
  lemma {:induction false} LogicValue(t: Table, lbl: nat, x: Input, a: bool, b: bool)
    requires WellFormed(t) && 0 < lbl < |t| && t[lbl].l1 < lbl && t[lbl].l2 < lbl && t[lbl].size <= 1
    requires LeftV(t, lbl, x) == VBool(a) && RightV(t, lbl, x) == VBool(b)
    ensures t[lbl].op == 26 ==> ValueOf(t, lbl, x) == VBool(a && b)
    ensures t[lbl].op == 27 ==> ValueOf(t, lbl, x) == VBool(a || b)
    ensures t[lbl].op == 28 ==> ValueOf(t, lbl, x) == VBool(a != b)
  {
    Decoded(t, lbl, x);
  }

  /** A concatenation has its right operand on top. */
  lemma {:induction false} ConcatValue(t: Table, lbl: nat, x: Input, a: nat, m: nat, b: nat, n: nat)
    requires WellFormed(t) && 0 < lbl < |t| && t[lbl].l1 < lbl && t[lbl].l2 < lbl && t[lbl].op == 69
    requires LeftV(t, lbl, x) == VBv(a, m) && RightV(t, lbl, x) == VBv(b, n)
    ensures ValueOf(t, lbl, x) == VBv(b * Pow2(m) + a, n + m)
  {
    assert LowByte(t[lbl].op) == 69;
  }

  /** Operands: labels, or constants of the width of the label, or of what a concatenation leaves for them. */
  lemma {:induction false} OperandValue(t: Table, lbl: nat, x: Input)
    requires WellFormed(t) && 0 < lbl < |t| && t[lbl].l1 < lbl && t[lbl].l2 < lbl
    ensures var info := t[lbl];
      var left := if info.op == 69 then info.size - t[info.l2].size else info.size;
      var right := if info.op == 69 then info.size - t[info.l1].size else info.size;
      && (info.l1 != 0 ==> LeftV(t, lbl, x) == ValueOf(t, info.l1, x))
      && (info.l2 != 0 ==> RightV(t, lbl, x) == ValueOf(t, info.l2, x))
      && (info.l1 == 0 && left > 1 ==> LeftV(t, lbl, x) == VBv(info.op1 % Pow2(left), left))
      && (info.l2 == 0 && right > 1 ==> RightV(t, lbl, x) == VBv(info.op2 % Pow2(right), right))
      && (info.l1 == 0 && left == 1 ==> LeftV(t, lbl, x) == VBool(info.op1 == 1))
      && (info.l2 == 0 && right == 1 ==> RightV(t, lbl, x) == VBool(info.op2 == 1))
  {
  }

  // ---------------------------------------------------------------------------
  // One-operand labels and leaves
  // ---------------------------------------------------------------------------

  /** Negations of a number, which have their operand on the right. */
  lemma {:induction false} NegatedValue(t: Table, lbl: nat, x: Input, a: nat, w: nat)
    requires WellFormed(t) && 0 < lbl < |t| && t[lbl].l2 < lbl && 0 < w && a < Pow2(w)
    requires ValueOf(t, t[lbl].l2, x) == VBv(a, w)
    ensures t[lbl].op == 1 ==> ValueOf(t, lbl, x) == VBv(Pow2(w) - 1 - a, w)
    ensures t[lbl].op == 2 ==> ValueOf(t, lbl, x) == VBv(Mod(0 - a, w), w)
  {
    Unique(-1 - a, -1, Pow2(w) - 1 - a, Pow2(w));
  }

  /** Extensions and cuts of a number, by their codes. */
  lemma {:induction false} ResizedValue(t: Table, lbl: nat, x: Input, a: nat, w: nat)
    requires WellFormed(t) && 0 < lbl < |t| && t[lbl].l1 < lbl && ValueOf(t, t[lbl].l1, x) == VBv(a, w)
    ensures var n := t[lbl].size;
      && (t[lbl].op == 36 ==> ValueOf(t, lbl, x) == VBv(Mod(a, n), n))
      && (t[lbl].op == 37 ==> ValueOf(t, lbl, x) == VBv(a, n))
      && (t[lbl].op == 38 ==> ValueOf(t, lbl, x) == VBv(Mod(Signed(a, w), n), n))
      && (t[lbl].op == 68 ==> ValueOf(t, lbl, x) == VBv(Mod(a / Pow2(t[lbl].op2 % 0x1_0000_0000), n), n))
  {
    ShiftRightIs(a, U32(t[lbl].op2));
  }

  /** ... and on a truth value. */
  lemma {:induction false} UnaryOfTruth(t: Table, lbl: nat, x: Input, b: bool)
    requires WellFormed(t) && 0 < lbl < |t| && t[lbl].l1 < lbl && t[lbl].l2 < lbl
    requires ValueOf(t, if t[lbl].op <= 2 then t[lbl].l2 else t[lbl].l1, x) == VBool(b)
    ensures var v, op, n := ValueOf(t, lbl, x), t[lbl].op, t[lbl].size;
      && (op == 1 ==> v == VBool(!b)) && (op == 37 ==> v == VBv(if b then 1 else 0, n))
      && (op == 38 ==> v == VBv(if b then Pow2(n) - 1 else 0, n))
  {
  }

  /** A byte of the input, and a load of several from the lowest on. */
  lemma {:induction false} LeafValue(t: Table, lbl: nat, x: Input)
    requires WellFormed(t) && 0 < lbl < |t|
    ensures t[lbl].op == 0 ==> ValueOf(t, lbl, x) == VBv(x(t[lbl].op1 % 0x1_0000_0000) % 256, 8)
    ensures t[lbl].op == 67 ==>
      && t[lbl].l1 < |t|
      && ValueOf(t, lbl, x) == VBv(LittleEndian(x, t[t[lbl].l1].op1 % 0x1_0000_0000, t[lbl].l2), 8 * t[lbl].l2)
  {
    assert EntryOk(t, lbl);
  }

  /** Byte `k` of a little-endian number is the byte at offset `k`. */
  lemma {:induction false} LittleEndianByte(x: Input, off: nat, len: nat, k: nat)
    requires k < len
    ensures LittleEndian(x, off, len) / Pow2(8 * k) % 256 == x(off + k) % 256
    decreases len
  {
    var rest := LittleEndian(x, off + 1, len - 1);
    var n := LittleEndian(x, off, len);
    if k == 0 {
      assert n / Pow2(0) == n && n % 256 == x(off) % 256;
    } else {
      LittleEndianByte(x, off + 1, len - 1, k - 1);
      Pow2Byte(8 * (k - 1));
      var p := Pow2(8 * (k - 1));
      assert n / 256 == rest;
      DivideTwice(n, 256, p);
    }
  }

  lemma {:induction false} DivideTwice(a: nat, p: nat, q: nat)
    requires p > 0 && q > 0
    ensures p * q > 0 && a / p / q == a / (p * q)
  {
    var m := a / p;
    Euclid(a, p);
    Euclid(m, q);
    Nested(a, p, q, m, a % p, m / q, m % q);
    Unique(a, m / q, p * (m % q) + a % p, p * q);
  }

  lemma {:induction false} Products(p: int, q: int, k: int, s: int)
    ensures p * (q * k + s) == (p * q) * k + p * s
  {
    assert p * (q * k + s) == p * (q * k) + p * s;
  }

  lemma {:induction false} Nested(a: int, p: int, q: int, m: int, r: int, k: int, s: int)
    requires a == p * m + r && 0 <= r < p && m == q * k + s && 0 <= s < q
    ensures p * q > 0 && 0 <= p * s + r < p * q && a == (p * q) * k + (p * s + r)
  {
    Stacked(s, q, r, p);
    Products(p, q, k, s);
  }
}
