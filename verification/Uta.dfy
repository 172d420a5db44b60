/**
 Labels as trees with stubs.  A label is expanded the first time it is met and is a bare stub
 afterwards; the tree is read back by a walk that caches the value of every labelled node.
 */
module Uta {
  import opened Basics
  import opened Expr
  import opened LabelTable
  import opened LabelValue
  import S = Serialize

  datatype Kind =
    | Bool0
    | Constant | Read
    | Extract | ZExt | SExt | Neg | Not
    | Two(shape: Shape)

  datatype AstNode = AstNode(kind: Kind, bits: nat, index: nat, value: nat, lbl: nat, children: seq<AstNode>)

  /** Offsets read by every label expanded so far. */
  type Cache = map<nat, set<nat>>

  /** `Panic` is a missing cache entry or an underflowing width. */
  datatype Res = Tree(node: AstNode, cache: Cache) | Panic

  // ---------------------------------------------------------------------------
  // Nodes
  // ---------------------------------------------------------------------------

  const FRESH := AstNode(Bool0, 0, 0, 0, 0, [])

  function Stub(info: LabelInfo, lbl: nat): AstNode {
    AstNode(Bool0, NodeBits(info), 0, 0, lbl, [])
  }

  function ReadNode(bits: nat, index: nat, lbl: nat): AstNode {
    AstNode(Read, bits, index, 0, lbl, [])
  }

  function ConstNode(v: nat, bits: nat): AstNode {
    AstNode(Constant, bits, 0, v, 0, [])
  }

  function UnaryKind(op: nat): Kind {
    if op == ZEXT then ZExt else if op == SEXT then SExt
    else if op == TRUNC || op == EXTRACT then Kind.Extract
    else if op == NOT then Kind.Not else Kind.Neg
  }

  function UnaryNode(info: LabelInfo, lbl: nat, child: AstNode): AstNode {
    var index := if info.op == EXTRACT || info.op == NOT || info.op == NEG then U32(info.op2) else 0;
    AstNode(UnaryKind(info.op), NodeBits(info), index, 0, lbl, [child])
  }

  /** An operator that is not known leaves the node without kind and label. */
  function BinaryNode(info: LabelInfo, lbl: nat, l: AstNode, r: AstNode): AstNode {
    if ShapeOf(info).Unknown? then FRESH.(children := [l, r])
    else AstNode(Two(ShapeOf(info)), NodeBits(info), 0, 0, lbl, [l, r])
  }

  /** The union of the offsets recorded for the operands that are labels. */
  function Merged(cache: Cache, info: LabelInfo): set<nat>
    requires info.l1 >= 1 ==> info.l1 in cache
    requires info.l2 >= 1 ==> info.l2 in cache
  {
    (if info.l1 >= 1 then cache[info.l1] else {}) + (if info.l2 >= 1 then cache[info.l2] else {})
  }

  // ---------------------------------------------------------------------------
  // Encoding
  // ---------------------------------------------------------------------------

  ghost function Encode(t: Table, lbl: nat, cache: Cache): (r: Res)
    requires WellFormed(t) && lbl < |t|
    ensures r.Tree? ==> cache.Keys <= r.cache.Keys && (lbl != 0 ==> lbl in r.cache)
    decreases lbl
  {
    var info := t[lbl];
    assert EntryOk(t, lbl);
    if lbl == 0 then Tree(FRESH, cache)
    else if lbl in cache then Tree(Stub(info, lbl), cache)
    else if info.op == READ then Tree(ReadNode(8, U32(info.op1), lbl), cache[lbl := {U32(info.op1)}])
    else if info.op == LOAD then
      var off := U32(t[info.l1].op1);
      Tree(ReadNode(U32(info.l2 * 8), off, lbl), cache[lbl := S.LoadDeps(off, info.l2)])
    else if S.IsUnary(info.op) then
      var c := Encode(t, UnaryOperand(info), cache);
      if c.Panic? || UnaryOperand(info) !in c.cache then Panic
      else Tree(UnaryNode(info, lbl, c.node), c.cache[lbl := c.cache[UnaryOperand(info)]])
    else
      var l := if info.l1 >= 1 then Encode(t, info.l1, cache) else EncodeConst(info.op1, S.LeftSize(t, info), cache);
      if l.Panic? then Panic
      else
        var r := if info.l2 >= 1 then Encode(t, info.l2, l.cache)
          else EncodeConst(info.op2, S.RightSize(t, info), l.cache);
        if r.Panic? then Panic
        else Tree(BinaryNode(info, lbl, l.node, r.node), r.cache[lbl := Merged(r.cache, info)])
  }

  function EncodeConst(v: nat, bits: int, cache: Cache): (r: Res)
    ensures r.Tree? ==> r.cache == cache
  {
    if bits < 0 then Panic else Tree(ConstNode(v, bits), cache)
  }

  // ---------------------------------------------------------------------------
  // Reading back
  // ---------------------------------------------------------------------------

  type Values = map<nat, Value>

  /** A computed value enters the cache under its label, if it has one. */
  function Put(values: Values, lbl: nat, v: Value): Values {
    if lbl == 0 || lbl in values then values else values[lbl := v]
  }

  /** `len` bytes, one even for a length of zero, each further one concatenated on top. */
  function ReadV(x: Input, off: nat, len: nat): Value {
    if len <= 1 then VBv(x(off) % 256, 8) else ConcatV(VBv(x(off + len - 1) % 256, 8), ReadV(x, off, len - 1))
  }

  /** One bit for a truth value. */
  function Bit1V(v: Value): Value {
    if v.VBool? then VBv(AsNumber(v.b), 1) else v
  }

  /** Extension by a number of bits. */
  function ExtendV(signed: bool, v: Value, extra: int): Value {
    match v
    case VBv(a, m) =>
      if extra < 0 then Stuck else if signed then VBv(Mod(Signed(a, m), m + extra), m + extra) else VBv(a, m + extra)
    case _ => Stuck
  }

  /** A slice that stays within the value; the solver rejects any other. */
  function ExtractV(v: Value, from: nat, len: nat): Value {
    if v.VBv? && 1 <= len && from + len <= v.w then LabelValue.Slice(v, from, len) else Stuck
  }

  function WalkUnary(n: AstNode, child: AstNode, v: Value): Value {
    match n.kind
    case Extract => ExtractV(v, n.index, n.bits)
    case ZExt => ExtendV(false, Bit1V(v), n.bits - child.bits)
    case SExt => ExtendV(true, v, n.bits - child.bits)
    case Neg => NegV(v)
    case _ => if v.VBv? then NotV(v) else Stuck
  }

  /** Arithmetic and comparisons need operands of one width; the solver rejects any other. */
  function WalkBinary(shape: Shape, l: Value, r: Value): Value {
    if shape.Arith? && !(l.VBv? && r.VBv? && l.w == r.w) then Stuck
    else if shape.Rel? && l.VBv? && r.VBv? && l.w != r.w then Stuck
    else BinaryV(shape, l, r)
  }

  /** The value of a tree: children left to right, every labelled node looked up and cached. */
  function Walk(n: AstNode, values: Values, x: Input): (Value, Values)
    decreases n
  {
    if n.lbl != 0 && n.lbl in values then (values[n.lbl], values)
    else
      match n.kind
      case Bool0 => (VBool(false), Put(values, n.lbl, VBool(false)))
      case Constant => (ConstV(n.value, n.bits), Put(values, n.lbl, ConstV(n.value, n.bits)))
      case Read => (ReadV(x, n.index, n.bits / 8), Put(values, n.lbl, ReadV(x, n.index, n.bits / 8)))
      case Two(shape) =>
        if |n.children| < 2 then (Stuck, values)
        else
          var l := Walk(n.children[0], values, x);
          var r := Walk(n.children[1], l.1, x);
          (WalkBinary(shape, l.0, r.0), Put(r.1, n.lbl, WalkBinary(shape, l.0, r.0)))
      case _ =>
        if |n.children| < 1 then (Stuck, values)
        else
          var c := Walk(n.children[0], values, x);
          var v := WalkUnary(n, n.children[0], c.0);
          (v, Put(c.1, n.lbl, v))
  }

  /** Concatenating bytes upwards reads the same number as the little-endian sum. */
  lemma {:induction false} ReadIsLittleEndian(x: Input, off: nat, len: nat)
    requires len >= 1
    ensures ReadV(x, off, len) == VBv(LittleEndian(x, off, len), 8 * len)
  {
    if len > 1 {
      ReadIsLittleEndian(x, off, len - 1);
      LittleEndianTop(x, off, len);
    } else {
      assert LittleEndian(x, off + 1, 0) == 0;
    }
  }

  // ---------------------------------------------------------------------------
  // The walk yields the direct value
  // ---------------------------------------------------------------------------

  /**
   By how many bits the walk of a label falls short of its width: a widened truth value lacks as
   many bits as the entry it widens says more than one, and widening it again keeps them missing.
   */
  ghost function Short(t: Table, lbl: nat): nat
    requires WellFormed(t) && lbl < |t|
    decreases lbl
  {
    assert EntryOk(t, lbl);
    if lbl == 0 || t[lbl].op != ZEXT then 0
    else if SortAt(t, t[lbl].l1) == Bool then NodeBits(t[t[lbl].l1]) - 1
    else Short(t, t[lbl].l1)
  }

  function Narrowed(v: Value, k: nat): Value {
    if v.VBv? && k <= v.w then VBv(v.v, v.w - k) else v
  }

  /** The value of a label as the walk has it: the right number, possibly in fewer bits. */
  ghost function WalkedV(t: Table, lbl: nat, x: Input): Value
    requires WellFormed(t) && lbl < |t|
  {
    Narrowed(ValueOf(t, lbl, x), Short(t, lbl))
  }

  function CutFrom(info: LabelInfo): nat { if info.op == EXTRACT then U32(info.op2) else 0 }

  predicate IsSigned(op: CmpOp) { op == Slt || op == Sle || op == Sgt || op == Sge }

  /** The walk can apply a one-operand operator to an operand that is `short` bits short. */
  predicate UnaryWalks(info: LabelInfo, s: Sort, short: nat, child: LabelInfo) {
    match s
    case Bool => info.op == ZEXT && NodeBits(child) <= info.size
    case BV(m) =>
      if info.op == TRUNC || info.op == EXTRACT then CutFrom(info) + info.size + short <= m
      else info.op == ZEXT || short == 0
    case Ill => false
  }

  /** Both operands are of full width or, where that does not matter, equally short. */
  predicate BinaryWalks(info: LabelInfo, l: Sort, ls: nat, rs: nat) {
    match ShapeOf(info)
    case Rel(op) => ls == rs && (IsSigned(op) ==> ls == 0)
    case Arith(_) => l.BV? && ls == rs == 0
    case _ => ls == rs == 0
  }

  ghost function LeftShort(t: Table, lbl: nat): nat
    requires WellFormed(t) && lbl < |t| && t[lbl].l1 < |t|
  {
    if t[lbl].l1 == 0 then 0 else Short(t, t[lbl].l1)
  }

  ghost function RightShort(t: Table, lbl: nat): nat
    requires WellFormed(t) && lbl < |t| && t[lbl].l2 < |t|
  {
    if t[lbl].l2 == 0 then 0 else Short(t, t[lbl].l2)
  }

  /** A well-typed label the walk can read: nothing under it needs bits that the walk does not have. */
  ghost predicate Walkable(t: Table, lbl: nat)
    requires WellFormed(t) && lbl < |t|
    decreases lbl
  {
    var info := t[lbl];
    assert EntryOk(t, lbl);
    Typed(t, lbl) &&
    (IsLeaf(info.op) ||
     if S.IsUnary(info.op) then
       var c := UnaryOperand(info);
       Walkable(t, c) && UnaryWalks(info, SortAt(t, c), Short(t, c), t[c])
     else
       && (info.l1 != 0 ==> Walkable(t, info.l1)) && (info.l2 != 0 ==> Walkable(t, info.l2))
       && BinaryWalks(info, LeftSort(t, lbl), LeftShort(t, lbl), RightShort(t, lbl)))
  }

  /** A bit vector has the width of its entry, of which the walk keeps at least one bit. */
  lemma {:induction false} ShortFits(t: Table, lbl: nat)
    requires WellFormed(t) && lbl < |t| && Walkable(t, lbl)
    ensures SortAt(t, lbl).BV? ==> SortAt(t, lbl).w == t[lbl].size && Short(t, lbl) < t[lbl].size
    ensures SortAt(t, lbl) != Ill
    decreases lbl
  {
    assert EntryOk(t, lbl);
    if t[lbl].op == ZEXT { ShortFits(t, t[lbl].l1); }
  }

  /** Cached values are those of their labels. */
  ghost predicate ValuesOk(t: Table, values: Values, x: Input)
    requires WellFormed(t)
  {
    forall l :: l in values ==> 0 < l < |t| && values[l] == WalkedV(t, l, x)
  }

  /** What the walk makes of the encoding of `lbl`, starting from any right cache of the labels seen. */
  ghost predicate WalksTo(t: Table, lbl: nat, r: Res, values: Values, x: Input)
    requires WellFormed(t) && lbl < |t|
  {
    && r.Tree?
    && var w := Walk(r.node, values, x);
    && w.0 == WalkedV(t, lbl, x)
    && ValuesOk(t, w.1, x) && w.1.Keys == r.cache.Keys
    && r.node.bits == NodeBits(t[lbl]) && r.node.lbl == lbl
  }

  lemma {:induction false} PutOk(t: Table, values: Values, lbl: nat, x: Input)
    requires WellFormed(t) && ValuesOk(t, values, x) && 0 < lbl < |t| && lbl !in values
    ensures ValuesOk(t, Put(values, lbl, WalkedV(t, lbl, x)), x)
    ensures Put(values, lbl, WalkedV(t, lbl, x)).Keys == values.Keys + {lbl}
  {
  }

  /** One operator on a value that is `short` bits short. */
  lemma {:induction false} WalkUnaryIs(info: LabelInfo, child: LabelInfo, s: Sort, short: nat, lbl: nat, c: AstNode,
      v: Value)
    requires S.IsUnary(info.op) && UnaryTypes(info, s) && UnaryWalks(info, s, short, child) && HasSort(v, s)
    requires c.bits == NodeBits(child) && (s.BV? ==> s.w == child.size && short < s.w)
    ensures var left := if info.op != ZEXT then 0 else if s == Bool then NodeBits(child) - 1 else short;
      WalkUnary(UnaryNode(info, lbl, c), c, Narrowed(v, short)) == Narrowed(UnaryV(info, v), left)
  {
  }

  lemma {:induction false} WalkBinaryIs(info: LabelInfo, l: Sort, r: Sort, ls: nat, rs: nat, lv: Value, rv: Value)
    requires BinaryTypes(info, l, r) && BinaryWalks(info, l, ls, rs) && HasSort(lv, l) && HasSort(rv, r)
    requires (l.BV? ==> ls < l.w) && (r.BV? ==> rs < r.w)
    ensures WalkBinary(ShapeOf(info), Narrowed(lv, ls), Narrowed(rv, rs)) == BinaryV(ShapeOf(info), lv, rv)
  {
  }

  /** Labels are older than what uses them, so expanding one never meets the label itself. */
  lemma {:induction false} EncodeStaysBelow(t: Table, lbl: nat, cache: Cache, l: nat)
    requires WellFormed(t) && lbl < |t| && Encode(t, lbl, cache).Tree?
    requires l in Encode(t, lbl, cache).cache && l !in cache
    ensures l <= lbl
    decreases lbl
  {
    var info := t[lbl];
    assert EntryOk(t, lbl);
    if lbl != 0 && lbl !in cache && !IsLeaf(info.op) && l != lbl {
      if S.IsUnary(info.op) {
        EncodeStaysBelow(t, UnaryOperand(info), cache, l);
      } else {
        var left := EncodeLeft(t, lbl, cache);
        if l in left.cache {
          if info.l1 >= 1 { EncodeStaysBelow(t, info.l1, cache, l); }
        } else if info.l2 >= 1 {
          EncodeStaysBelow(t, info.l2, left.cache, l);
        }
      }
    }
  }

  ghost function EncodeLeft(t: Table, lbl: nat, cache: Cache): Res
    requires WellFormed(t) && lbl < |t| && t[lbl].l1 < |t| && t[lbl].l2 < |t|
  {
    if t[lbl].l1 >= 1 then Encode(t, t[lbl].l1, cache) else EncodeConst(t[lbl].op1, S.LeftSize(t, t[lbl]), cache)
  }

  ghost function EncodeRight(t: Table, lbl: nat, cache: Cache): Res
    requires WellFormed(t) && lbl < |t| && t[lbl].l1 < |t| && t[lbl].l2 < |t|
  {
    if t[lbl].l2 >= 1 then Encode(t, t[lbl].l2, cache) else EncodeConst(t[lbl].op2, S.RightSize(t, t[lbl]), cache)
  }

  ghost predicate OperandWalks(t: Table, v: Value, r: Res, values: Values, x: Input)
    requires WellFormed(t)
  {
    && r.Tree?
    && var w := Walk(r.node, values, x);
    && w.0 == v && ValuesOk(t, w.1, x) && w.1.Keys == r.cache.Keys
  }

  lemma {:induction false} WalkUnaryNode(n: AstNode, values: Values, x: Input)
    requires n.kind.Extract? || n.kind.ZExt? || n.kind.SExt? || n.kind.Neg? || n.kind.Not?
    requires |n.children| == 1 && n.lbl != 0 && n.lbl !in values
    ensures var c := Walk(n.children[0], values, x);
      var v := WalkUnary(n, n.children[0], c.0);
      Walk(n, values, x) == (v, Put(c.1, n.lbl, v))
  {
  }

  lemma {:induction false} WalkBinaryNode(n: AstNode, values: Values, x: Input)
    requires n.kind.Two? && |n.children| == 2 && n.lbl != 0 && n.lbl !in values
    ensures var l := Walk(n.children[0], values, x);
      var r := Walk(n.children[1], l.1, x);
      var v := WalkBinary(n.kind.shape, l.0, r.0);
      Walk(n, values, x) == (v, Put(r.1, n.lbl, v))
  {
  }

  lemma {:induction false} EncodeUnary(t: Table, lbl: nat, cache: Cache)
    requires WellFormed(t) && 0 < lbl < |t| && S.IsUnary(t[lbl].op) && lbl !in cache && UnaryOperand(t[lbl]) < lbl
    requires Encode(t, UnaryOperand(t[lbl]), cache).Tree? && UnaryOperand(t[lbl]) != 0
    ensures var c := Encode(t, UnaryOperand(t[lbl]), cache);
      && Encode(t, lbl, cache).Tree? && Encode(t, lbl, cache).node == UnaryNode(t[lbl], lbl, c.node)
      && Encode(t, lbl, cache).cache.Keys == c.cache.Keys + {lbl} && lbl !in c.cache
  {
    var c := Encode(t, UnaryOperand(t[lbl]), cache);
    if lbl in c.cache { EncodeStaysBelow(t, UnaryOperand(t[lbl]), cache, lbl); }
  }

  lemma {:induction false} EncodeBinary(t: Table, lbl: nat, cache: Cache)
    requires WellFormed(t) && 0 < lbl < |t| && lbl !in cache && t[lbl].l1 < lbl && t[lbl].l2 < lbl
    requires !IsLeaf(t[lbl].op) && !S.IsUnary(t[lbl].op)
    requires EncodeLeft(t, lbl, cache).Tree? && EncodeRight(t, lbl, EncodeLeft(t, lbl, cache).cache).Tree?
    ensures var l := EncodeLeft(t, lbl, cache);
      var r := EncodeRight(t, lbl, l.cache);
      && Encode(t, lbl, cache).Tree? && Encode(t, lbl, cache).node == BinaryNode(t[lbl], lbl, l.node, r.node)
      && Encode(t, lbl, cache).cache.Keys == r.cache.Keys + {lbl} && lbl !in r.cache
  {
    var l := EncodeLeft(t, lbl, cache);
    var r := EncodeRight(t, lbl, l.cache);
    if lbl in l.cache { EncodeStaysBelow(t, t[lbl].l1, cache, lbl); }
    if lbl in r.cache { EncodeStaysBelow(t, t[lbl].l2, l.cache, lbl); }
  }

  lemma {:induction false} WalkOfUnary(t: Table, lbl: nat, cache: Cache, values: Values, x: Input)
    requires WellFormed(t) && 0 < lbl < |t| && Walkable(t, lbl) && lbl !in cache && S.IsUnary(t[lbl].op)
    requires UnaryOperand(t[lbl]) < lbl && values.Keys == cache.Keys
    requires WalksTo(t, UnaryOperand(t[lbl]), Encode(t, UnaryOperand(t[lbl]), cache), values, x)
    ensures WalksTo(t, lbl, Encode(t, lbl, cache), values, x)
  {
    var info, child := t[lbl], UnaryOperand(t[lbl]);
    var c := Encode(t, child, cache);
    var w := Walk(c.node, values, x);
    EncodeUnary(t, lbl, cache);
    WalkUnaryNode(UnaryNode(info, lbl, c.node), values, x);
    assert w.0 == WalkedV(t, child, x);
    ValueHasSort(t, child, x);
    ShortFits(t, child);
    WalkUnaryIs(info, t[child], SortAt(t, child), Short(t, child), lbl, c.node, ValueOf(t, child, x));
    PutOk(t, w.1, lbl, x);
  }

  lemma {:induction false} WalkOfLeaf(t: Table, lbl: nat, cache: Cache, values: Values, x: Input)
    requires WellFormed(t) && 0 < lbl < |t| && Walkable(t, lbl) && lbl !in cache && IsLeaf(t[lbl].op)
    requires ValuesOk(t, values, x) && values.Keys == cache.Keys
    ensures WalksTo(t, lbl, Encode(t, lbl, cache), values, x)
  {
    assert EntryOk(t, lbl);
    var n := Encode(t, lbl, cache).node;
    if t[lbl].op == LOAD {
      WholeBytes(t[lbl].l2);
      ReadIsLittleEndian(x, n.index, t[lbl].l2);
    }
    assert ReadV(x, n.index, n.bits / 8) == ValueOf(t, lbl, x);
    PutOk(t, values, lbl, x);
  }

  lemma {:induction false} WholeBytes(len: nat)
    requires 8 * len < 0x1_0000
    ensures U32(len * 8) == 8 * len && U32(len * 8) / 8 == len
  {
  }

  lemma {:induction false} OperandsHaveSort(t: Table, lbl: nat, x: Input)
    requires WellFormed(t) && 0 < lbl < |t| && Walkable(t, lbl)
    requires !IsLeaf(t[lbl].op) && !S.IsUnary(t[lbl].op) && t[lbl].l1 < lbl && t[lbl].l2 < lbl
    ensures HasSort(LeftV(t, lbl, x), LeftSort(t, lbl)) && HasSort(RightV(t, lbl, x), RightSort(t, lbl))
    ensures LeftSort(t, lbl).BV? ==> LeftShort(t, lbl) < LeftSort(t, lbl).w
    ensures RightSort(t, lbl).BV? ==> RightShort(t, lbl) < RightSort(t, lbl).w
  {
    var info := t[lbl];
    if info.l1 != 0 { ValueHasSort(t, info.l1, x); } else { ConstHasSort(info.op1, LeftBits(t, info)); }
    if info.l2 != 0 { ValueHasSort(t, info.l2, x); } else { ConstHasSort(info.op2, RightBits(t, info)); }
    if info.l1 != 0 { ShortFits(t, info.l1); }
    if info.l2 != 0 { ShortFits(t, info.l2); }
  }

  lemma {:induction false} WalkOfBinary(t: Table, lbl: nat, cache: Cache, values: Values, x: Input)
    requires WellFormed(t) && 0 < lbl < |t| && Walkable(t, lbl) && lbl !in cache && values.Keys == cache.Keys
    requires !IsLeaf(t[lbl].op) && !S.IsUnary(t[lbl].op) && t[lbl].l1 < lbl && t[lbl].l2 < lbl
    requires OperandWalks(t, Narrowed(LeftV(t, lbl, x), LeftShort(t, lbl)), EncodeLeft(t, lbl, cache), values, x)
    requires OperandWalks(t, Narrowed(RightV(t, lbl, x), RightShort(t, lbl)),
                          EncodeRight(t, lbl, EncodeLeft(t, lbl, cache).cache),
                          Walk(EncodeLeft(t, lbl, cache).node, values, x).1, x)
    ensures WalksTo(t, lbl, Encode(t, lbl, cache), values, x)
  {
    var info := t[lbl];
    var l := EncodeLeft(t, lbl, cache);
    var r := EncodeRight(t, lbl, l.cache);
    var wl := Walk(l.node, values, x);
    var wr := Walk(r.node, wl.1, x);
    EncodeBinary(t, lbl, cache);
    WalkBinaryNode(BinaryNode(info, lbl, l.node, r.node), values, x);
    OperandsHaveSort(t, lbl, x);
    WalkBinaryIs(info, LeftSort(t, lbl), RightSort(t, lbl), LeftShort(t, lbl), RightShort(t, lbl),
                 LeftV(t, lbl, x), RightV(t, lbl, x));
    assert WalkBinary(ShapeOf(info), wl.0, wr.0) == WalkedV(t, lbl, x);
    PutOk(t, wr.1, lbl, x);
  }

  /**
   The tree of a walkable label, read back from any right cache of the labels already seen, has
   the number of direct evaluation in the width left to it, which is the full width unless the
   label is a widened truth value; the labels seen are again exactly those cached.
   */
  lemma {:induction false} WalkIsDirect(t: Table, lbl: nat, cache: Cache, values: Values, x: Input)
    requires WellFormed(t) && lbl < |t| && Walkable(t, lbl)
    requires ValuesOk(t, values, x) && values.Keys == cache.Keys
    ensures WalksTo(t, lbl, Encode(t, lbl, cache), values, x)
    decreases lbl
  {
    var info := t[lbl];
    assert EntryOk(t, lbl);
    if lbl !in cache {
      if IsLeaf(info.op) {
        WalkOfLeaf(t, lbl, cache, values, x);
      } else if S.IsUnary(info.op) {
        WalkIsDirect(t, UnaryOperand(info), cache, values, x);
        WalkOfUnary(t, lbl, cache, values, x);
      } else {
        var l := EncodeLeft(t, lbl, cache);
        if info.l1 >= 1 { WalkIsDirect(t, info.l1, cache, values, x); }
        assert OperandWalks(t, Narrowed(LeftV(t, lbl, x), LeftShort(t, lbl)), l, values, x);
        var wl := Walk(l.node, values, x);
        if info.l2 >= 1 { WalkIsDirect(t, info.l2, l.cache, wl.1, x); }
        WalkOfBinary(t, lbl, cache, values, x);
      }
    }
  }

  // ---------------------------------------------------------------------------
  // Every label is expanded once, and before its stubs
  // ---------------------------------------------------------------------------

  /**
   The labels known after reading the tree left to right; `None` if a stub comes before the
   node it stands for or a label is expanded twice.
   */
  ghost function Scan(n: AstNode, known: set<nat>): Option<set<nat>>
    decreases n
  {
    if n.lbl != 0 && n.kind.Bool0? then if n.lbl in known then Some(known) else None
    else
      var below := ScanAll(n, 0, known);
      if below.None? then None
      else if n.lbl == 0 then below
      else if n.lbl in below.value then None
      else Some(below.value + {n.lbl})
  }

  ghost function ScanAll(n: AstNode, k: nat, known: set<nat>): Option<set<nat>>
    requires k <= |n.children|
    decreases n, |n.children| - k
  {
    if k == |n.children| then Some(known)
    else
      var first := Scan(n.children[k], known);
      if first.None? then None else ScanAll(n, k + 1, first.value)
  }

  lemma {:induction false} ScanUnary(n: AstNode, known: set<nat>)
    requires |n.children| == 1 && !n.kind.Bool0? && n.lbl != 0 && Scan(n.children[0], known).Some?
    requires n.lbl !in Scan(n.children[0], known).value
    ensures Scan(n, known) == Some(Scan(n.children[0], known).value + {n.lbl})
  {
    assert ScanAll(n, 1, Scan(n.children[0], known).value) == Scan(n.children[0], known);
    assert ScanAll(n, 0, known) == Scan(n.children[0], known);
  }

  lemma {:induction false} ScanBinary(n: AstNode, known: set<nat>, mid: set<nat>, all: set<nat>)
    requires |n.children| == 2 && !n.kind.Bool0? && n.lbl != 0 && n.lbl !in all
    requires Scan(n.children[0], known) == Some(mid) && Scan(n.children[1], mid) == Some(all)
    ensures Scan(n, known) == Some(all + {n.lbl})
  {
    assert ScanAll(n, 2, all) == Some(all);
    assert ScanAll(n, 1, mid) == Some(all);
    assert ScanAll(n, 0, known) == Some(all);
  }

  /** With a label, everything under it has been seen. */
  ghost predicate Closed(t: Table, known: set<nat>)
    requires WellFormed(t)
  {
    forall l :: l in known ==> l < |t| && Reach(t, l) <= known
  }

  lemma {:induction false} ReachIsClosed(t: Table, lbl: nat, l: nat)
    requires WellFormed(t) && lbl < |t| && l in Reach(t, lbl)
    ensures 0 < l <= lbl && Reach(t, l) <= Reach(t, lbl)
    decreases lbl
  {
    var info := t[lbl];
    assert EntryOk(t, lbl);
    if l != lbl {
      if S.IsUnary(info.op) {
        ReachIsClosed(t, UnaryOperand(info), l);
      } else if l in Reach(t, info.l1) {
        ReachIsClosed(t, info.l1, l);
      } else {
        ReachIsClosed(t, info.l2, l);
      }
    }
  }

  lemma {:induction false} ClosedReach(t: Table, known: set<nat>, lbl: nat)
    requires WellFormed(t) && Closed(t, known) && lbl < |t|
    ensures Closed(t, known + Reach(t, lbl))
  {
    forall l | l in known + Reach(t, lbl) ensures l < |t| && Reach(t, l) <= known + Reach(t, lbl) {
      if l in Reach(t, lbl) { ReachIsClosed(t, lbl, l); }
    }
  }

  ghost predicate OperandScans(t: Table, l: nat, r: Res, cache: Cache)
    requires WellFormed(t) && l < |t|
  {
    && r.Tree? && r.cache.Keys == cache.Keys + Reach(t, l)
    && Scan(r.node, cache.Keys) == Some(cache.Keys + Reach(t, l))
  }

  lemma {:induction false} ScanOfUnary(t: Table, lbl: nat, cache: Cache)
    requires WellFormed(t) && 0 < lbl < |t| && S.IsUnary(t[lbl].op) && lbl !in cache && 0 < UnaryOperand(t[lbl]) < lbl
    requires OperandScans(t, UnaryOperand(t[lbl]), Encode(t, UnaryOperand(t[lbl]), cache), cache)
    ensures OperandScans(t, lbl, Encode(t, lbl, cache), cache)
  {
    var child := UnaryOperand(t[lbl]);
    EncodeUnary(t, lbl, cache);
    ScanUnary(Encode(t, lbl, cache).node, cache.Keys);
    assert cache.Keys + Reach(t, lbl) == (cache.Keys + Reach(t, child)) + {lbl};
  }

  lemma {:induction false} ScanOfBinary(t: Table, lbl: nat, cache: Cache, l: Res, r: Res)
    requires WellFormed(t) && 0 < lbl < |t| && lbl !in cache && t[lbl].l1 < lbl && t[lbl].l2 < lbl
    requires !IsLeaf(t[lbl].op) && !S.IsUnary(t[lbl].op) && !ShapeOf(t[lbl]).Unknown?
    requires l == EncodeLeft(t, lbl, cache) && OperandScans(t, t[lbl].l1, l, cache)
    requires r == EncodeRight(t, lbl, l.cache) && OperandScans(t, t[lbl].l2, r, l.cache)
    ensures OperandScans(t, lbl, Encode(t, lbl, cache), cache)
  {
    EncodeBinary(t, lbl, cache);
    ScanBinary(BinaryNode(t[lbl], lbl, l.node, r.node), cache.Keys, l.cache.Keys, r.cache.Keys);
    assert cache.Keys + Reach(t, lbl) == r.cache.Keys + {lbl};
  }

  lemma {:induction false} ScanConst(t: Table, v: nat, bits: int, cache: Cache)
    requires WellFormed(t) && bits >= 0
    ensures OperandScans(t, 0, EncodeConst(v, bits, cache), cache)
  {
    assert ConstNode(v, bits).children == [];
    assert cache.Keys + Reach(t, 0) == cache.Keys;
  }

  /** Expanding `lbl` meets known operators only, no operand missing and no negative width. */
  ghost predicate Expands(t: Table, lbl: nat)
    requires WellFormed(t) && lbl < |t|
    decreases lbl
  {
    var info := t[lbl];
    assert EntryOk(t, lbl);
    1 <= lbl &&
    (IsLeaf(info.op) ||
     if S.IsUnary(info.op) then Expands(t, UnaryOperand(info))
     else
       && !ShapeOf(info).Unknown?
       && (if info.l1 == 0 then S.LeftSize(t, info) >= 0 else Expands(t, info.l1))
       && (if info.l2 == 0 then S.RightSize(t, info) >= 0 else Expands(t, info.l2)))
  }

  lemma {:induction false} TypedExpands(t: Table, lbl: nat)
    requires WellFormed(t) && lbl < |t| && Typed(t, lbl)
    ensures Expands(t, lbl)
    decreases lbl
  {
    var info := t[lbl];
    assert EntryOk(t, lbl);
    if !IsLeaf(info.op) {
      if S.IsUnary(info.op) {
        TypedExpands(t, UnaryOperand(info));
      } else {
        if info.l1 != 0 { TypedExpands(t, info.l1); }
        if info.l2 != 0 { TypedExpands(t, info.l2); }
      }
    }
  }

  /** Encoding adds exactly the labels reachable from `lbl`, each expanded once and before any stub for it. */
  lemma {:induction false} ExpandedOnce(t: Table, lbl: nat, cache: Cache)
    requires WellFormed(t) && lbl < |t| && Expands(t, lbl) && Closed(t, cache.Keys)
    ensures Encode(t, lbl, cache).Tree?
    ensures Encode(t, lbl, cache).cache.Keys == cache.Keys + Reach(t, lbl)
    ensures Scan(Encode(t, lbl, cache).node, cache.Keys) == Some(cache.Keys + Reach(t, lbl))
    decreases lbl
  {
    var info := t[lbl];
    assert EntryOk(t, lbl);
    if lbl in cache {
      assert cache.Keys + Reach(t, lbl) == cache.Keys;
    } else if IsLeaf(info.op) {
      assert Encode(t, lbl, cache).node.children == [];
    } else if S.IsUnary(info.op) {
      ExpandedOnce(t, UnaryOperand(info), cache);
      ScanOfUnary(t, lbl, cache);
    } else {
      var l := EncodeLeft(t, lbl, cache);
      if info.l1 >= 1 { ExpandedOnce(t, info.l1, cache); } else { ScanConst(t, info.op1, S.LeftSize(t, info), cache); }
      assert OperandScans(t, info.l1, l, cache);
      ClosedReach(t, cache.Keys, info.l1);
      if info.l2 >= 1 {
        ExpandedOnce(t, info.l2, l.cache);
      } else {
        ScanConst(t, info.op2, S.RightSize(t, info), l.cache);
      }
      ScanOfBinary(t, lbl, cache, l, EncodeRight(t, lbl, l.cache));
    }
  }

  /** The offsets recorded for every label seen are the bytes it reads. */
  ghost predicate OffsetsOk(t: Table, cache: Cache)
    requires WellFormed(t)
  {
    forall l :: l in cache ==> 0 < l < |t| && cache[l] == BytesOf(t, l)
  }

  lemma {:induction false} OffsetsAreBytes(t: Table, lbl: nat, cache: Cache)
    requires WellFormed(t) && lbl < |t| && OffsetsOk(t, cache) && Encode(t, lbl, cache).Tree?
    ensures OffsetsOk(t, Encode(t, lbl, cache).cache)
    decreases lbl
  {
    var info := t[lbl];
    assert EntryOk(t, lbl);
    if lbl != 0 && lbl !in cache && !IsLeaf(info.op) {
      if S.IsUnary(info.op) {
        OffsetsAreBytes(t, UnaryOperand(info), cache);
      } else {
        if info.l1 >= 1 { OffsetsAreBytes(t, info.l1, cache); }
        if info.l2 >= 1 { OffsetsAreBytes(t, info.l2, EncodeLeft(t, lbl, cache).cache); }
        assert OffsetsOk(t, EncodeRight(t, lbl, EncodeLeft(t, lbl, cache).cache).cache);
      }
    }
  }

  /**
   The tree of a label, read with nothing cached: direct evaluation, every label expanded once,
   its bytes recorded.
   */
  lemma {:induction false} TreeOfLabel(t: Table, lbl: nat, x: Input, r: Res)
    requires WellFormed(t) && lbl < |t| && Walkable(t, lbl) && r == Encode(t, lbl, map[])
    ensures r.Tree? && Walk(r.node, map[], x).0 == WalkedV(t, lbl, x)
    ensures t[lbl].op != ZEXT ==> Walk(r.node, map[], x).0 == ValueOf(t, lbl, x)
    ensures Scan(r.node, {}) == Some(Reach(t, lbl))
    ensures lbl in r.cache && r.cache[lbl] == BytesOf(t, lbl)
  {
    WalkIsDirect(t, lbl, map[], map[], x);
    TypedExpands(t, lbl);
    ScanOfLabel(t, lbl, map[]);
    OffsetsAreBytes(t, lbl, map[]);
  }

  lemma {:induction false} ScanOfLabel(t: Table, lbl: nat, cache: Cache)
    requires WellFormed(t) && lbl < |t| && Expands(t, lbl) && cache.Keys == {}
    ensures Encode(t, lbl, cache).Tree? && Scan(Encode(t, lbl, cache).node, {}) == Some(Reach(t, lbl))
  {
    ExpandedOnce(t, lbl, cache);
    assert {} + Reach(t, lbl) == Reach(t, lbl);
  }

  /** Extending a truth value to `bits` bits gives that width exactly when its node claims one bit. */
  lemma {:induction false} ExtendedTruthValue(bits: nat, index: nat, lbl: nat, child: AstNode, b: bool)
    requires 1 <= bits
    ensures var n := AstNode(ZExt, bits, index, 0, lbl, [child]);
      WalkUnary(n, child, VBool(b)) == ZeroTo(VBool(b), bits) <==> child.bits == 1
  {
  }

  /** Label `z` widens the truth value of label `c`. */
  ghost predicate Widens(t: Table, z: nat, c: nat)
    requires WellFormed(t)
  {
    && 0 < c < z < |t| && t[z].op == ZEXT && t[z].l1 == c
    && Walkable(t, c) && SortAt(t, c) == Bool && NodeBits(t[c]) <= t[z].size
  }

  /**
   The walk makes of a widened truth value the right number, but as many bits short as its
   entry says more than one.
   */
  lemma {:induction false} WidenedWalk(t: Table, z: nat, c: nat, x: Input)
    requires WellFormed(t) && Widens(t, z, c)
    ensures Walkable(t, z) && ValueOf(t, c, x).VBool? && Encode(t, z, map[]).Tree?
    ensures var v := AsNumber(ValueOf(t, c, x).b);
      && ValueOf(t, z, x) == VBv(v, t[z].size)
      && Walk(Encode(t, z, map[]).node, map[], x).0 == VBv(v, t[z].size - (NodeBits(t[c]) - 1))
  {
    ValueHasSort(t, c, x);
    WalkIsDirect(t, z, map[], map[], x);
  }

  /** A cut has its direct value in the walk exactly when it stays within the bits the walk has. */
  lemma {:induction false} CutIsRight(t: Table, lbl: nat, z: nat, x: Input)
    requires WellFormed(t) && 0 < z < lbl < |t| && Walkable(t, z) && SortAt(t, z).BV?
    requires (t[lbl].op == TRUNC || t[lbl].op == EXTRACT) && t[lbl].l1 == z
    ensures Encode(t, lbl, map[]).Tree?
    ensures Walk(Encode(t, lbl, map[]).node, map[], x).0 == ValueOf(t, lbl, x) <==>
      1 <= t[lbl].size && CutFrom(t[lbl]) + t[lbl].size <= t[z].size - Short(t, z)
  {
    ValueHasSort(t, z, x);
    ShortFits(t, z);
    WalkIsDirect(t, z, map[], map[], x);
    EncodeUnary(t, lbl, map[]);
    WalkUnaryNode(Encode(t, lbl, map[]).node, map[], x);
  }

  /** For a widened truth value: the cut must end below the bits that are missing. */
  lemma {:induction false} CutWidened(t: Table, lbl: nat, z: nat, c: nat, x: Input)
    requires WellFormed(t) && Widens(t, z, c) && z < lbl < |t|
    requires (t[lbl].op == TRUNC || t[lbl].op == EXTRACT) && t[lbl].l1 == z
    ensures Encode(t, lbl, map[]).Tree?
    ensures Walk(Encode(t, lbl, map[]).node, map[], x).0 == ValueOf(t, lbl, x) <==>
      1 <= t[lbl].size && CutFrom(t[lbl]) + t[lbl].size <= t[z].size - (NodeBits(t[c]) - 1)
  {
    WidenedWalk(t, z, c, x);
    CutIsRight(t, lbl, z, x);
  }

  /** Byte 0 is compared with 0, the outcome is widened from the 8 bits of its entry to 32 and cut to `n`. */
  predicate CutTable(t: Table, n: nat) {
    && |t| == 5 && t[0].op == READ
    && t[1] == LabelInfo(0, 0, 0, 0, READ, 8, 1)
    && t[2] == LabelInfo(1, 0, 0, 0, 256 * BVEQ + ICMP, 8, 2)
    && t[3] == LabelInfo(2, 0, 0, 0, ZEXT, 32, 3)
    && t[4] == LabelInfo(3, 0, 0, 0, TRUNC, n, 4)
  }

  lemma {:induction false} CutTableIsTyped(t: Table, n: nat)
    requires CutTable(t, n) && 1 <= n <= 32
    ensures WellFormed(t) && Widens(t, 3, 2) && Typed(t, 4)
  {
    assert ShapeOf(t[2]) == Rel(Equal);
    assert WellFormed(t);
    assert Typed(t, 1) && SortAt(t, 1) == BV(8);
    assert LeftSort(t, 2) == BV(8) && RightSort(t, 2) == BV(8);
    assert Typed(t, 2) && Walkable(t, 2) && SortAt(t, 2) == Bool;
    assert Typed(t, 3) && SortAt(t, 3) == BV(32);
  }

  /**
   On every input the walk of the widened label has 25 bits and its direct value 32.  Cut to 8
   bits it is right; cut to 30 bits, which the table allows, the walk asks for bits it does not have.
   */
  lemma {:induction false} WidthIsLost(t: Table, n: nat, x: Input)
    requires CutTable(t, n) && 1 <= n <= 32
    ensures WellFormed(t) && Typed(t, 4) && Encode(t, 3, map[]).Tree? && Encode(t, 4, map[]).Tree?
    ensures var w, v := Walk(Encode(t, 3, map[]).node, map[], x).0, ValueOf(t, 3, x);
      w.VBv? && v.VBv? && w.v == v.v && w.w == 25 && v.w == 32
    ensures n == 8 ==> Walk(Encode(t, 4, map[]).node, map[], x).0 == ValueOf(t, 4, x)
    ensures n == 30 ==> Walk(Encode(t, 4, map[]).node, map[], x).0 != ValueOf(t, 4, x)
  {
    CutTableIsTyped(t, n);
    WidenedWalk(t, 3, 2, x);
    CutWidened(t, 4, 3, 2, x);
  }

  // ---------------------------------------------------------------------------
  // The programs
  // ---------------------------------------------------------------------------

  class Encoder {
    const table: Table
    var cache: Cache

    constructor (table: Table)
      ensures this.table == table && cache == map[]
    {
      this.table := table;
      cache := map[];
    }

    /** Fills a node for `lbl`; `None` is a panic, after which the cache is not used again. */
    method DoUta(lbl: nat) returns (node: Option<AstNode>)
      requires WellFormed(table) && lbl < |table|
      modifies this
      ensures node.None? <==> Encode(table, lbl, old(cache)).Panic?
      ensures node.Some? ==> Encode(table, lbl, old(cache)) == Tree(node.value, cache)
      decreases lbl
    {
      if lbl == 0 {
        return Some(FRESH);
      }
      var info := table[lbl];
      assert EntryOk(table, lbl);
      if lbl in cache {
        return Some(Stub(info, lbl));
      }
      if info.op == READ {
        cache := cache[lbl := {U32(info.op1)}];
        return Some(ReadNode(8, U32(info.op1), lbl));
      }
      if info.op == LOAD {
        var off, read := U32(table[info.l1].op1), {};
        for i := 0 to info.l2
          invariant read == S.LoadDeps(off, i)
          invariant cache == old(cache)
        {
          assert S.LoadDeps(off, i + 1) == S.LoadDeps(off, i) + {off + i};
          read := read + {off + i};
        }
        cache := cache[lbl := read];
        return Some(ReadNode(U32(info.l2 * 8), off, lbl));
      }
      if S.IsUnary(info.op) {
        var c := DoUta(UnaryOperand(info));
        if c.None? || UnaryOperand(info) !in cache {
          return None;
        }
        cache := cache[lbl := cache[UnaryOperand(info)]];
        return Some(UnaryNode(info, lbl, c.value));
      }
      var left := DoOperand(info.l1, info.op1, S.LeftSize(table, info), lbl);
      if left.None? {
        return None;
      }
      var right := DoOperand(info.l2, info.op2, S.RightSize(table, info), lbl);
      if right.None? {
        return None;
      }
      cache := cache[lbl := Merged(cache, info)];
      return Some(BinaryNode(info, lbl, left.value, right.value));
    }

    method DoOperand(l: nat, v: nat, bits: int, ghost lbl: nat) returns (node: Option<AstNode>)
      requires WellFormed(table) && l < lbl < |table|
      modifies this
      ensures var r := if l >= 1 then Encode(table, l, old(cache)) else EncodeConst(v, bits, old(cache));
        (node.None? <==> r.Panic?) && (node.Some? ==> r == Tree(node.value, cache))
      decreases lbl, 0
    {
      if l >= 1 {
        node := DoUta(l);
      } else if bits < 0 {
        node := None;
      } else {
        node := Some(ConstNode(v, bits));
      }
    }
  }

  class Walker {
    const input: Input
    var values: Values

    constructor (input: Input)
      ensures this.input == input && values == map[]
    {
      this.input := input;
      values := map[];
    }

    method Remember(lbl: nat, v: Value)
      modifies this
      ensures values == Put(old(values), lbl, v)
    {
      if lbl != 0 && lbl !in values {
        values := values[lbl := v];
      }
    }

    method Serialize(n: AstNode) returns (v: Value)
      modifies this
      ensures (v, values) == Walk(n, old(values), input)
      decreases n
    {
      if n.lbl != 0 && n.lbl in values {
        return values[n.lbl];
      }
      match n.kind {
        case Bool0 =>
          v := VBool(false);
        case Constant =>
          v := ConstV(n.value, n.bits);
        case Read =>
          v := ReadBytes(n.index, n.bits / 8);
        case Two(shape) =>
          if |n.children| < 2 {
            return Stuck;
          }
          var l := Serialize(n.children[0]);
          var r := Serialize(n.children[1]);
          v := WalkBinary(shape, l, r);
        case _ =>
          if |n.children| < 1 {
            return Stuck;
          }
          var c := Serialize(n.children[0]);
          v := WalkUnary(n, n.children[0], c);
      }
      Remember(n.lbl, v);
    }

    method ReadBytes(off: nat, len: nat) returns (v: Value)
      ensures v == ReadV(input, off, len)
      ensures len >= 1 ==> v == VBv(LittleEndian(input, off, len), 8 * len)
    {
      v := VBv(input(off) % 256, 8);
      var i := 1;
      while i < len
        invariant 1 <= i && (i <= len || i == 1) && v == ReadV(input, off, i)
      {
        v := ConcatV(VBv(input(off + i) % 256, 8), v);
        i := i + 1;
      }
      if len >= 1 { ReadIsLittleEndian(input, off, len); }
    }
  }
}
