/** The union table of the taint runtime and the operator codes its entries carry. */
module LabelTable {

  datatype LabelInfo = LabelInfo(l1: nat, l2: nat, op1: nat, op2: nat, op: nat, size: nat, depth: nat)

  type Table = seq<LabelInfo>

  const MAX_LABEL: nat := 0xFFFF_FFFF

  const READ: nat := 0
  const NOT: nat := 1
  const NEG: nat := 2
  const ADD: nat := 11
  const SUB: nat := 13
  const MUL: nat := 15
  const UDIV: nat := 17
  const SDIV: nat := 18
  const UREM: nat := 20
  const SREM: nat := 21
  const SHL: nat := 23
  const LSHR: nat := 24
  const ASHR: nat := 25
  const AND: nat := 26
  const OR: nat := 27
  const XOR: nat := 28
  const TRUNC: nat := 36
  const ZEXT: nat := 37
  const SEXT: nat := 38
  const ICMP: nat := 53
  const LOAD: nat := 67
  const EXTRACT: nat := 68
  const CONCAT: nat := 69
  const FMEMCMP: nat := 70
  // Relational operators, in the high byte of the operator.
  const BVEQ: nat := 32
  const BVNEQ: nat := 33
  const BVUGT: nat := 34
  const BVUGE: nat := 35
  const BVULT: nat := 36
  const BVULE: nat := 37
  const BVSGT: nat := 38
  const BVSGE: nat := 39
  const BVSLT: nat := 40
  const BVSLE: nat := 41

  function U32(x: nat): nat { x % 0x1_0000_0000 }
  function LowByte(op: nat): nat { op % 256 }
  function HighByte(op: nat): nat { op / 256 }

  /** Operand labels are older than the label; a load starts at a label and stays within 32-bit offsets. */
  predicate EntryOk(t: Table, i: nat)
    requires i < |t|
  {
    && (t[i].op == LOAD ==> t[i].l1 < |t| && U32(t[t[i].l1].op1) + t[i].l2 <= 0x1_0000_0000)
    && (t[i].op != LOAD && t[i].op != READ && 0 < i ==> t[i].l1 < i && t[i].l2 < i)
  }

  ghost predicate WellFormed(t: Table) {
    && 0 < |t| <= MAX_LABEL
    && forall i :: 0 <= i < |t| ==> EntryOk(t, i)
  }

  /** Every load reads at least one byte. */
  ghost predicate NoEmptyLoads(t: Table) {
    forall i :: 0 <= i < |t| && t[i].op == LOAD ==> 1 <= t[i].l2
  }

  /** Every byte the table reads lies within an input of `size` bytes. */
  ghost predicate ReadsWithin(t: Table, size: nat) {
    forall i :: 0 <= i < |t| ==>
      && (t[i].op == READ ==> U32(t[i].op1) < size)
      && (t[i].op == LOAD && t[i].l1 < |t| ==> U32(t[t[i].l1].op1) + t[i].l2 <= size)
  }
}
