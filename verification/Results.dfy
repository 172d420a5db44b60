/**
 Turning the 64-bit argument values of a solved search back into bytes of the input.  The
 values of a multi-byte group are summed with their weights and the sum is cut into bytes.
 */
module Results {
  import opened Arithmetic
  import opened Basics

  const M64: nat := 0x1_0000_0000_0000_0000

  type Solution = map<nat, nat>

  function Pow256(k: nat): (p: nat)
    ensures p > 0
  {
    if k == 0 then 1 else 256 * Pow256(k - 1)
  }

  /** The number with the given digits in base 256, lowest first; digits may exceed 255. */
  function Sum(digits: seq<nat>): nat {
    if digits == [] then 0 else Sum(digits[..|digits| - 1]) + digits[|digits| - 1] * Pow256(|digits| - 1)
  }

  // ---------------------------------------------------------------------------
  // Arithmetic
  // ---------------------------------------------------------------------------

  lemma {:induction false} Pow256Add(j: nat, k: nat)
    ensures Pow256(j + k) == Pow256(j) * Pow256(k)
  {
    if k > 0 {
      Pow256Add(j, k - 1);
      assert Pow256(j) * (256 * Pow256(k - 1)) == 256 * (Pow256(j) * Pow256(k - 1));
    }
  }

  lemma {:induction false} Pow256Is64()
    ensures Pow256(8) == M64
  {
    assert Pow256(2) == 65536;
    Pow256Add(2, 2);
    Pow256Add(4, 4);
  }

  /** The byte `j` of a number. */
  function ByteOf(x: nat, j: nat): nat { x / Pow256(j) % 256 }

  function BytesOf(x: nat, len: nat): seq<nat> { seq(len, j requires 0 <= j < len => ByteOf(x, j)) }

  lemma {:induction false} Compose(p: nat, q: nat, r: nat, h: nat, d: nat)
    requires q == 256 * h + d && r < p && d < 256
    ensures p * q + r == (256 * p) * h + (r + d * p)
    ensures r + d * p < 256 * p
  {
    assert p * q == p * (256 * h) + p * d;
    assert p * (255 - d) >= 0;
  }

  lemma {:induction false} DivStep(x: nat, p: nat)
    requires p > 0
    ensures x % (256 * p) == x % p + x / p % 256 * p && x / (256 * p) == x / p / 256
  {
    Euclid(x, p);
    Compose(p, x / p, x % p, x / p / 256, x / p % 256);
    Unique(x, x / p / 256, x % p + x / p % 256 * p, 256 * p);
  }

  /** The lowest `len` bytes make up the number modulo 256 to that power. */
  lemma {:induction false} BytesSum(x: nat, len: nat)
    ensures Sum(BytesOf(x, len)) == x % Pow256(len)
  {
    if len > 0 {
      BytesSum(x, len - 1);
      assert BytesOf(x, len)[..len - 1] == BytesOf(x, len - 1);
      DivStep(x, Pow256(len - 1));
    } else {
      assert x % 1 == 0;
    }
  }

  /** Cutting the 64-bit sum of up to eight digits into bytes keeps it modulo 256 to that power. */
  lemma {:induction false} GroupBytes(digits: seq<nat>, len: nat)
    requires len <= 8
    ensures Sum(BytesOf(Sum(digits) % M64, len)) == Sum(digits) % Pow256(len)
  {
    BytesSum(Sum(digits) % M64, len);
    Pow256Add(len, 8 - len);
    Pow256Is64();
    ModMod(Sum(digits), Pow256(len), Pow256(8 - len));
  }

  // ---------------------------------------------------------------------------
  // Slots and groups
  // ---------------------------------------------------------------------------

  datatype Slot = Slot(off: nat, v: nat)

  ghost predicate Increasing(s: seq<Slot>) {
    forall i, j :: 0 <= i < j < |s| ==> s[i].off < s[j].off
  }

  /** The first value given for every offset. */
  ghost function ValueMap(offsets: seq<nat>, value: seq<nat>): map<nat, nat>
    requires |offsets| == |value|
  {
    if offsets == [] then map[]
    else
      var n := |offsets| - 1;
      var m := ValueMap(offsets[..n], value[..n]);
      if offsets[n] in m then m else m[offsets[n] := value[n]]
  }

  lemma {:induction false} ValueMapKeys(offsets: seq<nat>, value: seq<nat>)
    requires |offsets| == |value|
    ensures ValueMap(offsets, value).Keys == Elements(offsets)
  {
    if offsets != [] {
      var n := |offsets| - 1;
      ValueMapKeys(offsets[..n], value[..n]);
      assert offsets == offsets[..n] + [offsets[n]];
    }
  }

  /** `s` lists `m` by increasing offset. */
  ghost predicate Lists(s: seq<Slot>, m: map<nat, nat>) {
    && Increasing(s)
    && (forall k :: 0 <= k < |s| ==> s[k].off in m && m[s[k].off] == s[k].v)
    && (forall off :: off in m ==> Listed(s, off))
  }

  ghost predicate Listed(s: seq<Slot>, off: nat) {
    exists k :: 0 <= k < |s| && s[k].off == off
  }

  /** A group starts where the shape gives a length. */
  predicate IsStart(shape: map<nat, nat>, off: nat) { off in shape && shape[off] != 0 }

  ghost predicate InGroup(offs: set<nat>, shape: map<nat, nat>, g: nat, off: nat) {
    g in offs && IsStart(shape, g) && g <= off < g + shape[g]
  }

  ghost predicate GroupFits(offs: set<nat>, shape: map<nat, nat>, g: nat)
    requires IsStart(shape, g)
  {
    && shape[g] <= 8
    && (forall o :: g <= o < g + shape[g] ==> o in offs)
    && (forall o :: g < o < g + shape[g] ==> !IsStart(shape, o))
  }

  ghost predicate Covered(offs: set<nat>, shape: map<nat, nat>, off: nat) {
    off in offs ==> exists g :: InGroup(offs, shape, g, off)
  }

  ghost predicate StartFits(offs: set<nat>, shape: map<nat, nat>, g: nat) {
    g in offs && IsStart(shape, g) ==> GroupFits(offs, shape, g)
  }

  /** Contiguous groups of at most eight offsets that cover all offsets and do not overlap. */
  ghost predicate Tiles(offs: set<nat>, shape: map<nat, nat>) {
    && (forall g: nat :: StartFits(offs, shape, g))
    && (forall off: nat :: Covered(offs, shape, off))
  }

  ghost function Window(m: map<nat, nat>, g: nat, len: nat): seq<nat> {
    seq(len, k requires 0 <= k < len => if g + k in m then m[g + k] else 0)
  }

  /** The bytes of a group make up its values modulo 256 to its length. */
  ghost predicate GroupOk(m: map<nat, nat>, sol: Solution, g: nat, len: nat) {
    && (forall o :: g <= o < g + len ==> o in sol)
    && Sum(Window(sol, g, len)) == Sum(Window(m, g, len)) % Pow256(len)
  }

  ghost predicate AllBytes(sol: Solution) { forall o :: o in sol ==> sol[o] < 256 }

  // ---------------------------------------------------------------------------
  // Listing the slots by offset
  // ---------------------------------------------------------------------------

  method Insert(s: seq<Slot>, p: Slot, ghost m: map<nat, nat>) returns (r: seq<Slot>)
    requires Lists(s, m)
    ensures Lists(r, if p.off in m then m else m[p.off := p.v])
  {
    var i := 0;
    while i < |s| && s[i].off < p.off
      invariant 0 <= i <= |s| && forall k :: 0 <= k < i ==> s[k].off < p.off
    {
      i := i + 1;
    }
    if i < |s| && s[i].off == p.off {
      return s;
    }
    assert p.off in m ==> Listed(s, p.off);
    r := s[..i] + [p] + s[i..];
    InsertAt(s, p, i, m);
  }

  lemma {:induction false} InsertIncreasing(s: seq<Slot>, p: Slot, i: nat)
    requires Increasing(s) && i <= |s|
    requires (forall k :: 0 <= k < i ==> s[k].off < p.off) && (i < |s| ==> p.off < s[i].off)
    ensures Increasing(s[..i] + [p] + s[i..])
  {
    var r := s[..i] + [p] + s[i..];
    assert forall k :: i <= k < |s| ==> p.off < s[k].off;
    forall j, k | 0 <= j < k < |r| ensures r[j].off < r[k].off {
      assert k < i ==> s[j].off < s[k].off;
      assert j < i < k ==> s[j].off < s[k - 1].off;
      assert i < j ==> s[j - 1].off < s[k - 1].off;
    }
  }

  lemma {:induction false} InsertAt(s: seq<Slot>, p: Slot, i: nat, m: map<nat, nat>)
    requires Lists(s, m) && i <= |s| && p.off !in m
    requires (forall k :: 0 <= k < i ==> s[k].off < p.off) && (i < |s| ==> p.off < s[i].off)
    ensures Lists(s[..i] + [p] + s[i..], m[p.off := p.v])
  {
    var r, m' := s[..i] + [p] + s[i..], m[p.off := p.v];
    InsertIncreasing(s, p, i);
    forall k | 0 <= k < |r| ensures r[k].off in m' && m'[r[k].off] == r[k].v {
      assert k < i ==> r[k] == s[k];
      assert k > i ==> r[k] == s[k - 1];
    }
    forall off | off in m' ensures Listed(r, off) {
      if off != p.off { assert Listed(s, off); }
      InsertListed(s, p, i, off);
    }
  }

  lemma {:induction false} InsertListed(s: seq<Slot>, p: Slot, i: nat, off: nat)
    requires i <= |s| && (Listed(s, off) || off == p.off)
    ensures Listed(s[..i] + [p] + s[i..], off)
  {
    var r := s[..i] + [p] + s[i..];
    if off == p.off {
      assert r[i].off == off;
    } else {
      var k :| 0 <= k < |s| && s[k].off == off;
      assert r[if k < i then k else k + 1].off == off;
    }
  }

  /** `len` places from `i` hold consecutive offsets. */
  ghost predicate Row(s: seq<Slot>, i: nat, len: nat) {
    i + len <= |s| && forall j :: i <= j < i + len ==> s[j].off == s[i].off + (j - i)
  }

  lemma {:induction false} Between(s: seq<Slot>, a: nat, j: nat)
    requires Increasing(s) && a + 1 < j < |s|
    ensures s[a].off + 1 < s[j].off
  {
    assert s[a].off < s[a + 1].off < s[j].off;
  }

  /** Consecutive offsets are at consecutive places. */
  lemma {:induction false} Consecutive(s: seq<Slot>, m: map<nat, nat>, i: nat, len: nat)
    requires Lists(s, m) && i < |s| && len >= 1
    requires forall o :: s[i].off <= o < s[i].off + len ==> o in m
    ensures Row(s, i, len)
  {
    if len > 1 {
      Consecutive(s, m, i, len - 1);
      var o := s[i].off + len - 1;
      assert Listed(s, o);
      var j :| 0 <= j < |s| && s[j].off == o;
      assert s[i + len - 2].off == o - 1;
      if j > i + len - 1 { Between(s, i + len - 2, j); }
    }
  }

  // ---------------------------------------------------------------------------
  // The program
  // ---------------------------------------------------------------------------

  /** Sums the values of a group with their weights in 64 bits. */
  method GroupValue(s: seq<Slot>, i: nat, len: nat, ghost m: map<nat, nat>) returns (res: nat)
    requires Lists(s, m) && 1 <= len && Row(s, i, len) && s[i].v < M64
    ensures res == Sum(Window(m, s[i].off, len)) % M64
  {
    res := s[i].v;
    ghost var g := s[i].off;
    assert Window(m, g, 1)[..0] == [] && Window(m, g, 1)[0] == s[i].v;
    assert Sum(Window(m, g, 1)) == s[i].v * Pow256(0);
    SmallMod(res, M64);
    for k := 1 to len
      invariant res == Sum(Window(m, g, k)) % M64
    {
      assert s[i + k].off == g + k;
      assert Window(m, g, k + 1)[..k] == Window(m, g, k);
      ModSum(Sum(Window(m, g, k)), s[i + k].v * Pow256(k), M64);
      res := (res + s[i + k].v * Pow256(k) % M64) % M64;
    }
  }

  /** Cuts a number into bytes, lowest first. */
  method WriteBytes(sol: Solution, start: nat, len: nat, res: nat) returns (r: Solution)
    ensures forall o :: o in r <==> o in sol || start <= o < start + len
    ensures forall o :: o in r ==> r[o] == if start <= o < start + len then ByteOf(res, o - start) else sol[o]
    ensures AllBytes(sol) ==> AllBytes(r)
  {
    r := sol;
    var rest := res;
    for j := 0 to len
      invariant rest == res / Pow256(j)
      invariant forall o :: o in r <==> o in sol || start <= o < start + j
      invariant forall o :: o in r ==> r[o] == if start <= o < start + j then ByteOf(res, o - start) else sol[o]
    {
      r := r[start + j := rest % 256];
      DivStep(res, Pow256(j));
      rest := rest / 256;
    }
  }

  ghost function Below(s: seq<Slot>, i: nat): nat
    requires i <= |s|
  {
    if i < |s| then s[i].off else if s == [] then 0 else s[|s| - 1].off + 1
  }

  /** The groups below a bound are done and end below it; nothing else is written. */
  ghost predicate DoneBelow(m: map<nat, nat>, shape: map<nat, nat>, sol: Solution, bound: nat) {
    && (forall o :: o in sol <==> o in m && o < bound)
    && (forall g: nat :: GroupDone(m, shape, sol, bound, g))
  }

  ghost predicate GroupDone(m: map<nat, nat>, shape: map<nat, nat>, sol: Solution, bound: nat, g: nat) {
    g in m && IsStart(shape, g) && g < bound ==> g + shape[g] <= bound && GroupOk(m, sol, g, shape[g])
  }

  /** With the groups below it done, the next offset starts a group. */
  lemma {:induction false} NextIsStart(s: seq<Slot>, m: map<nat, nat>, shape: map<nat, nat>, sol: Solution, i: nat)
    requires Lists(s, m) && Tiles(m.Keys, shape) && i < |s| && DoneBelow(m, shape, sol, Below(s, i))
    ensures IsStart(shape, s[i].off) && GroupFits(m.Keys, shape, s[i].off)
  {
    var off := s[i].off;
    assert off in m.Keys;
    assert Covered(m.Keys, shape, off);
    var g :| InGroup(m.Keys, shape, g, off);
    assert StartFits(m.Keys, shape, g);
    assert GroupDone(m, shape, sol, off, g);
  }

  lemma {:induction false} BoundAfter(s: seq<Slot>, m: map<nat, nat>, i: nat, len: nat)
    requires Lists(s, m) && 1 <= len && Row(s, i, len)
    ensures s[i].off + len <= Below(s, i + len)
    ensures forall o :: o in m && o < Below(s, i + len) ==> o < s[i].off + len
  {
    assert s[i + len - 1].off == s[i].off + len - 1;
    forall o | o in m && o < Below(s, i + len) ensures o < s[i].off + len {
      assert Listed(s, o);
      var j :| 0 <= j < |s| && s[j].off == o;
      assert j < i + len;
      assert j < i + len - 1 ==> s[j].off < s[i + len - 1].off;
    }
  }

  /** A window of bytes, once written, is not changed outside it. */
  lemma {:induction false} GroupKept(m: map<nat, nat>, sol: Solution, sol': Solution, g: nat, len: nat)
    requires GroupOk(m, sol, g, len)
    requires forall o :: g <= o < g + len ==> o in sol' && sol'[o] == sol[o]
    ensures GroupOk(m, sol', g, len)
  {
    assert Window(sol', g, len) == Window(sol, g, len);
  }

  lemma {:induction false} GroupWritten(m: map<nat, nat>, sol': Solution, g: nat, len: nat)
    requires 1 <= len <= 8
    requires forall o :: g <= o < g + len ==> o in sol' && sol'[o] == ByteOf(Sum(Window(m, g, len)) % M64, o - g)
    ensures GroupOk(m, sol', g, len)
  {
    assert Window(sol', g, len) == BytesOf(Sum(Window(m, g, len)) % M64, len);
    GroupBytes(Window(m, g, len), len);
  }

  lemma {:induction false} EarlierGroup(m: map<nat, nat>, shape: map<nat, nat>, sol: Solution, sol': Solution,
      bound: nat, g: nat)
    requires g in m && IsStart(shape, g) && g < bound && GroupDone(m, shape, sol, bound, g)
    requires forall o :: o in sol ==> o in sol' && sol'[o] == sol[o]
    ensures g + shape[g] <= bound && GroupOk(m, sol', g, shape[g])
  {
    GroupKept(m, sol, sol', g, shape[g]);
  }

  lemma {:induction false} StepDone(s: seq<Slot>, m: map<nat, nat>, shape: map<nat, nat>, sol: Solution,
      sol': Solution, i: nat)
    requires Lists(s, m) && i < |s| && DoneBelow(m, shape, sol, Below(s, i))
    requires IsStart(shape, s[i].off) && GroupFits(m.Keys, shape, s[i].off) && Row(s, i, shape[s[i].off])
    requires forall o :: o in sol' <==> o in sol || s[i].off <= o < s[i].off + shape[s[i].off]
    requires forall o :: o in sol ==> o in sol' && sol'[o] == sol[o]
    requires GroupOk(m, sol', s[i].off, shape[s[i].off])
    ensures DoneBelow(m, shape, sol', Below(s, i + shape[s[i].off]))
  {
    var g0, len := s[i].off, shape[s[i].off];
    var bound := Below(s, i + len);
    BoundAfter(s, m, i, len);
    forall g: nat ensures GroupDone(m, shape, sol', bound, g) {
      if g in m && IsStart(shape, g) && g < g0 {
        assert GroupDone(m, shape, sol, g0, g);
        EarlierGroup(m, shape, sol, sol', g0, g);
      }
    }
  }

  ghost predicate GroupsOk(m: map<nat, nat>, shape: map<nat, nat>, sol: Solution) {
    forall g :: g in m && IsStart(shape, g) ==> GroupOk(m, sol, g, shape[g])
  }

  /** Every offset has a byte, and the bytes of every group make up its values. */
  ghost predicate Converts(offsets: seq<nat>, shape: map<nat, nat>, value: seq<nat>, sol: Solution)
    requires |offsets| == |value|
  {
    sol.Keys == Elements(offsets) && AllBytes(sol) && GroupsOk(ValueMap(offsets, value), shape, sol)
  }

  /**
   The bytes of a solution.  Every offset gets a byte, and the bytes of every group make up the
   weighted sum of its values modulo 256 to its length.
   */
  method AddResults(offsets: seq<nat>, shape: map<nat, nat>, value: seq<nat>) returns (sol: Solution)
    requires |offsets| == |value| && (forall i :: 0 <= i < |value| ==> value[i] < M64)
    requires Tiles(Elements(offsets), shape)
    ensures Converts(offsets, shape, value, sol)
  {
    var s: seq<Slot> := [];
    ghost var m := map[];
    for i := 0 to |offsets|
      invariant m == ValueMap(offsets[..i], value[..i]) && Lists(s, m)
      invariant forall k :: 0 <= k < |s| ==> s[k].v < M64
    {
      assert offsets[..i + 1][..i] == offsets[..i] && value[..i + 1][..i] == value[..i];
      s := Insert(s, Slot(offsets[i], value[i]), m);
      ghost var before := m;
      m := if offsets[i] in m then m else m[offsets[i] := value[i]];
      assert forall o :: o in before ==> before[o] < M64 by {
        forall o | o in before ensures before[o] < M64 { MapFits(offsets[..i], value[..i], o); }
      }
    }
    assert offsets[..|offsets|] == offsets && value[..|value|] == value;
    ValueMapKeys(offsets, value);
    sol := Cut(s, shape, m);
  }

  lemma {:induction false} MapFits(offsets: seq<nat>, value: seq<nat>, o: nat)
    requires |offsets| == |value| && (forall i :: 0 <= i < |value| ==> value[i] < M64) && o in ValueMap(offsets, value)
    ensures ValueMap(offsets, value)[o] < M64
  {
    if offsets != [] {
      var n := |offsets| - 1;
      if o in ValueMap(offsets[..n], value[..n]) { MapFits(offsets[..n], value[..n], o); }
    }
  }

  /** Walks the slots in order and cuts every group. */
  method Cut(s: seq<Slot>, shape: map<nat, nat>, ghost m: map<nat, nat>) returns (sol: Solution)
    requires Lists(s, m) && Tiles(m.Keys, shape) && forall k :: 0 <= k < |s| ==> s[k].v < M64
    ensures sol.Keys == m.Keys && AllBytes(sol) && GroupsOk(m, shape, sol)
  {
    sol := map[];
    var i := 0;
    while i < |s|
      invariant i <= |s| && DoneBelow(m, shape, sol, Below(s, i)) && AllBytes(sol)
    {
      NextIsStart(s, m, shape, sol, i);
      if s[i].off in shape && shape[s[i].off] != 0 {
        sol := CutGroup(s, shape, sol, i, m);
        i := i + shape[s[i].off];
      } else {
        i := i + 1;
      }
    }
    AllDone(s, m, shape, sol);
  }

  lemma {:induction false} AllDone(s: seq<Slot>, m: map<nat, nat>, shape: map<nat, nat>, sol: Solution)
    requires Lists(s, m) && DoneBelow(m, shape, sol, Below(s, |s|))
    ensures sol.Keys == m.Keys && GroupsOk(m, shape, sol)
  {
    forall o | o in m ensures o < Below(s, |s|) {
      assert Listed(s, o);
      var k :| 0 <= k < |s| && s[k].off == o;
      assert k < |s| - 1 ==> s[k].off < s[|s| - 1].off;
    }
    assert sol.Keys == m.Keys;
    forall g | g in m && IsStart(shape, g) ensures GroupOk(m, sol, g, shape[g]) {
      assert GroupDone(m, shape, sol, Below(s, |s|), g);
    }
  }

  method CutGroup(s: seq<Slot>, shape: map<nat, nat>, before: Solution, i: nat, ghost m: map<nat, nat>)
      returns (sol: Solution)
    requires Lists(s, m) && i < |s| && DoneBelow(m, shape, before, Below(s, i)) && s[i].v < M64
    requires IsStart(shape, s[i].off) && GroupFits(m.Keys, shape, s[i].off) && AllBytes(before)
    ensures AllBytes(sol) && i + shape[s[i].off] <= |s| && DoneBelow(m, shape, sol, Below(s, i + shape[s[i].off]))
  {
    var start, len := s[i].off, shape[s[i].off];
    Consecutive(s, m, i, len);
    var res := GroupValue(s, i, len, m);
    sol := WriteBytes(before, start, len, res);
    GroupWritten(m, sol, start, len);
    StepDone(s, m, shape, before, sol, i);
  }
}
