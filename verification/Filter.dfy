/**
 The branch filter: two global bitmaps and, for every session, counters of its own.  A branch
 is interesting when it sets a bit that no branch has set before.
 */
module Filter {
  import opened Arithmetic
  import opened Expr
  import X = Xxh32

  const MAP_SIZE: nat := 0x1_0000
  const CHAR_BIT: nat := 8

  function Or8(a: nat, b: nat): nat { Bitwise(BvOp.Or, a, b, 8) }
  function And8(a: nat, b: nat): nat { Bitwise(BvOp.And, a, b, 8) }

  // ---------------------------------------------------------------------------
  // Counting bits
  // ---------------------------------------------------------------------------

  /** The ones among the lowest `w` bits. */
  function Ones(a: nat, w: nat): nat {
    if w == 0 then 0 else a % 2 + Ones(a / 2, w - 1)
  }

  lemma {:induction false} OnesBound(a: nat, w: nat)
    ensures Ones(a, w) <= w
  {
    if w > 0 { OnesBound(a / 2, w - 1); }
  }

  /** Or-ing adds ones unless it changes nothing. */
  lemma {:induction false} OrAdds(a: nat, b: nat, w: nat)
    requires a < Pow2(w)
    ensures var r := Bitwise(BvOp.Or, a, b, w);
      Ones(r, w) >= Ones(a, w) && (r != a ==> Ones(r, w) > Ones(a, w))
  {
    if w > 0 {
      OrAdds(a / 2, b / 2, w - 1);
      var r := Bitwise(BvOp.Or, a, b, w);
      assert r / 2 == Bitwise(BvOp.Or, a / 2, b / 2, w - 1) && r % 2 >= a % 2;
    }
  }

  /** A bit that is not set changes the number when it is. */
  lemma {:induction false} FreshBit(a: nat, b: nat, w: nat)
    requires Bitwise(BvOp.And, a, b, w) == 0 && 0 < b < Pow2(w)
    ensures Bitwise(BvOp.Or, a, b, w) != a
  {
    if w > 0 {
      var r := Bitwise(BvOp.Or, a, b, w);
      assert r / 2 == Bitwise(BvOp.Or, a / 2, b / 2, w - 1);
      if b % 2 == 1 {
        assert a % 2 == 0 && r % 2 == 1;
      } else {
        FreshBit(a / 2, b / 2, w - 1);
      }
    }
  }

  ghost predicate IsMap(s: seq<nat>) {
    |s| == MAP_SIZE && forall i :: 0 <= i < |s| ==> s[i] < 256
  }

  /** All ones of a map. */
  ghost function Weight(s: seq<nat>): nat {
    if s == [] then 0 else Weight(s[..|s| - 1]) + Ones(s[|s| - 1], 8)
  }

  lemma {:induction false} WeightBound(s: seq<nat>)
    ensures Weight(s) <= 8 * |s|
  {
    if s != [] {
      WeightBound(s[..|s| - 1]);
      OnesBound(s[|s| - 1], 8);
    }
  }

  lemma {:induction false} WeightUpdate(s: seq<nat>, i: nat, v: nat)
    requires i < |s|
    ensures Weight(s[i := v]) == Weight(s) - Ones(s[i], 8) + Ones(v, 8)
  {
    var n := |s| - 1;
    if i < n {
      WeightUpdate(s[..n], i, v);
      assert s[i := v][..n] == s[..n][i := v];
    } else {
      assert s[i := v][..n] == s[..n];
    }
  }

  /** Or-ing into a map keeps it a map and adds weight unless nothing changes. */
  lemma {:induction false} OrInto(s: seq<nat>, i: nat, b: nat)
    requires IsMap(s) && i < |s|
    ensures var s' := s[i := Or8(s[i], b)];
      IsMap(s') && Weight(s') >= Weight(s) && (Or8(s[i], b) != s[i] ==> Weight(s') > Weight(s))
  {
    ByteFits();
    BitwiseFits(BvOp.Or, s[i], b, 8);
    OrAdds(s[i], b, 8);
    WeightUpdate(s, i, Or8(s[i], b));
  }

  // ---------------------------------------------------------------------------
  // Bits of a map
  // ---------------------------------------------------------------------------

  predicate Has(a: nat, k: nat) { if k == 0 then a % 2 == 1 else Has(a / 2, k - 1) }

  lemma {:induction false} OrHas(a: nat, b: nat, w: nat, k: nat)
    requires k < w
    ensures Has(Bitwise(BvOp.Or, a, b, w), k) <==> Has(a, k) || Has(b, k)
  {
    if k > 0 {
      OrHas(a / 2, b / 2, w - 1, k - 1);
      assert Bitwise(BvOp.Or, a, b, w) / 2 == Bitwise(BvOp.Or, a / 2, b / 2, w - 1);
    }
  }

  lemma {:induction false} ZeroHas(k: nat)
    ensures !Has(0, k)
  {
    if k > 0 { ZeroHas(k - 1); }
  }

  lemma {:induction false} MaskHas(bit: nat, k: nat)
    ensures Has(Pow2(bit), k) <==> k == bit
  {
    if bit == 0 {
      if k > 0 { ZeroHas(k - 1); }
    } else if k > 0 {
      MaskHas(bit - 1, k - 1);
      assert Pow2(bit) / 2 == Pow2(bit - 1);
    }
  }

  /** And-ing with a mask of one bit tests that bit. */
  lemma {:induction false} MaskTests(a: nat, bit: nat, w: nat)
    requires bit < w
    ensures Bitwise(BvOp.And, a, Pow2(bit), w) == 0 <==> !Has(a, bit)
  {
    if bit == 0 {
      AndCommutes(a / 2, 0, w - 1);
      AndZero(0, a / 2, w - 1);
    } else {
      MaskTests(a / 2, bit - 1, w - 1);
      assert Pow2(bit) / 2 == Pow2(bit - 1) && Pow2(bit) % 2 == 0;
    }
  }

  lemma {:induction false} AndCommutes(a: nat, b: nat, w: nat)
    ensures Bitwise(BvOp.And, a, b, w) == Bitwise(BvOp.And, b, a, w)
  {
    if w > 0 { AndCommutes(a / 2, b / 2, w - 1); }
  }

  ghost predicate Marked(s: seq<nat>, b: nat) { b / 8 < |s| && Has(s[b / 8], b % 8) }

  /** The positions of the ones of a map. */
  ghost function Bits(s: seq<nat>): set<nat> { set b: nat | b < 8 * |s| && Marked(s, b) }

  lemma {:induction false} NoBits(s: seq<nat>)
    requires forall i :: 0 <= i < |s| ==> s[i] == 0
    ensures Bits(s) == {}
  {
    forall b: nat | b < 8 * |s| ensures !Marked(s, b) { ZeroHas(b % 8); }
  }

  function OrAt(s: seq<nat>, i: nat, v: nat): seq<nat>
    requires i < |s|
  {
    s[i := Or8(s[i], v)]
  }

  lemma {:induction false} MarkBits(s: seq<nat>, hash: nat)
    requires hash < 8 * |s|
    ensures Bits(OrAt(s, hash / 8, Pow2(hash % 8))) == Bits(s) + {hash}
  {
    var i, bit := hash / 8, hash % 8;
    var s' := OrAt(s, i, Pow2(bit));
    forall b: nat | b < 8 * |s| ensures Marked(s', b) <==> Marked(s, b) || b == hash {
      if b / 8 == i {
        OrHas(s[i], Pow2(bit), 8, b % 8);
        MaskHas(bit, b % 8);
      }
    }
  }

  // ---------------------------------------------------------------------------
  // Hashes
  // ---------------------------------------------------------------------------

  /** The bytes of a program counter or of a hash, lowest first. */
  type Bytes = X.Bytes

  function TakenByte(taken: bool): nat { if taken then 1 else 0 }

  function PcHash(c: X.Config, pc: Bytes, taken: bool): nat { X.Hash(c, pc + [TakenByte(taken)]) % MAP_SIZE }

  function Word32(h: nat): Bytes { [h % 256, h / 256 % 256, h / 0x1_0000 % 256, h / 0x100_0000 % 256] }

  function ContextHash(c: X.Config, prev: nat, h: nat): nat {
    X.Hash(c, Word32(prev) + Word32(h)) % (MAP_SIZE * CHAR_BIT)
  }

  method HashPc(c: X.Config, pc: Bytes, taken: bool) returns (h: nat)
    ensures h == PcHash(c, pc, taken)
  {
    var x := X.HashTwo(c, pc, [TakenByte(taken)]);
    h := x % MAP_SIZE;
  }

  method HashContext(c: X.Config, prev: nat, h: nat) returns (hash: nat)
    ensures hash == ContextHash(c, prev, h) && hash / CHAR_BIT < MAP_SIZE
  {
    var x := X.HashTwo(c, Word32(prev), Word32(h));
    hash := x % (MAP_SIZE * CHAR_BIT);
  }

  /** The context bits of `h` after each of the hashes visited. */
  ghost function Pairs(c: X.Config, visited: set<nat>, h: nat): set<nat> {
    set prev | prev in visited :: ContextHash(c, prev, h)
  }

  // ---------------------------------------------------------------------------
  // Sessions
  // ---------------------------------------------------------------------------

  lemma {:induction false} WordFits()
    ensures Pow2(16) == MAP_SIZE && Pow2(32) == 0x1_0000_0000
  {
    ByteFits();
    Pow2Add(8, 8);
    X.Pow2Word();
  }

  /** No bit or one bit set; the subtraction wraps. */
  predicate PowerOfTwoOrZero(x: nat) { Bitwise(BvOp.And, x, (x + 0xFFFF_FFFF) % 0x1_0000_0000, 32) == 0 }

  lemma {:induction false} AndZero(a: nat, b: nat, w: nat)
    requires a == 0
    ensures Bitwise(BvOp.And, a, b, w) == 0
  {
    if w > 0 { AndZero(a / 2, b / 2, w - 1); }
  }

  lemma {:induction false} ZeroCounts(x: nat)
    requires x == 0
    ensures PowerOfTwoOrZero(x)
  {
    AndZero(x, (x + 0xFFFF_FFFF) % 0x1_0000_0000, 32);
  }

  lemma {:induction false} AndSame(a: nat, w: nat)
    requires a < Pow2(w)
    ensures Bitwise(BvOp.And, a, a, w) == a
  {
    if w > 0 { AndSame(a / 2, w - 1); }
  }

  lemma {:induction false} AndEven(x: nat, w: nat)
    requires 0 < x < Pow2(w) && x % 2 == 0
    ensures 0 < w && x / 2 < Pow2(w - 1)
    ensures Bitwise(BvOp.And, x, x - 1, w) == 2 * Bitwise(BvOp.And, x / 2, x / 2 - 1, w - 1)
  {
    assert (x - 1) / 2 == x / 2 - 1;
  }

  ghost predicate IsPower(x: nat) { exists k: nat :: Pow2(k) == x }

  lemma {:induction false} PowerHalves(x: nat)
    requires x > 0
    ensures IsPower(2 * x) <==> IsPower(x)
  {
    if IsPower(2 * x) {
      var k: nat :| Pow2(k) == 2 * x;
      var j: nat := k - 1;
      assert Pow2(j) == x;
    }
    if IsPower(x) {
      var k: nat :| Pow2(k) == x;
      var j: nat := k + 1;
      assert Pow2(j) == 2 * x;
    }
  }

  lemma {:induction false} OddPower(x: nat)
    requires x % 2 == 1
    ensures IsPower(x) <==> x == 1
  {
    if x == 1 { assert Pow2(0) == x; }
    forall k: nat ensures Pow2(k) == 1 || Pow2(k) % 2 == 0 {}
  }

  /** A number and its predecessor share no bit exactly if the number is a power of two. */
  lemma {:induction false} AndPredecessor(x: nat, w: nat)
    requires 0 < x < Pow2(w)
    ensures Bitwise(BvOp.And, x, x - 1, w) == 0 <==> IsPower(x)
  {
    if x % 2 == 1 {
      assert (x - 1) / 2 == x / 2;
      AndSame(x / 2, w - 1);
      OddPower(x);
    } else {
      AndEven(x, w);
      AndPredecessor(x / 2, w - 1);
      PowerHalves(x / 2);
    }
  }

  /** The test on every counter of 32 bits. */
  lemma {:induction false} PowerOfTwoExactly(x: nat)
    requires x < 0x1_0000_0000
    ensures PowerOfTwoOrZero(x) <==> x == 0 || IsPower(x)
  {
    if x == 0 {
      ZeroCounts(x);
    } else {
      assert (x + 0xFFFF_FFFF) % 0x1_0000_0000 == x - 1;
      WordFits();
      AndPredecessor(x, 32);
    }
  }

  class Session {
    const virginMap: array<nat>
    var prevLoc: nat
    var visited: set<nat>

    ghost predicate Valid()
      reads this, virginMap
    {
      IsMap(virginMap[..])
    }

    ghost function Value(): SessionV
      reads this, virginMap
    {
      SessionV(virginMap[..], prevLoc, visited)
    }

    constructor ()
      ensures Valid() && fresh(virginMap) && Value() == SessionV(seq(MAP_SIZE, _ => 0), 0, {})
    {
      virginMap := new nat[MAP_SIZE](_ => 0);
      prevLoc, visited := 0, {};
      new;
      assert virginMap[..] == seq(MAP_SIZE, _ => 0);
    }

    function Index(h: nat): (i: nat)
      reads this
      ensures i < MAP_SIZE
    {
      IndexAt(prevLoc, h)
    }
  }

  function IndexAt(prevLoc: nat, h: nat): nat { Bitwise(BvOp.Xor, prevLoc / 2, h, 32) % MAP_SIZE }

  lemma {:induction false} XorHas(a: nat, b: nat, w: nat, k: nat)
    requires k < w
    ensures Has(Bitwise(BvOp.Xor, a, b, w), k) <==> Has(a, k) != Has(b, k)
  {
    if k > 0 {
      XorHas(a / 2, b / 2, w - 1, k - 1);
      assert Bitwise(BvOp.Xor, a, b, w) / 2 == Bitwise(BvOp.Xor, a / 2, b / 2, w - 1);
    }
  }

  lemma {:induction false} HalfOfRest(a: nat, m: nat)
    requires m > 0
    ensures a % (2 * m) / 2 == a / 2 % m && a % (2 * m) % 2 == a % 2
  {
    var q, r := a / 2 / m, a / 2 % m;
    Euclid(a / 2, m);
    assert a == 2 * (m * q + r) + a % 2 == (2 * m) * q + (2 * r + a % 2);
    Unique(a, q, 2 * r + a % 2, 2 * m);
  }

  lemma {:induction false} RestHas(a: nat, n: nat, k: nat)
    requires k < n
    ensures Has(a % Pow2(n), k) <==> Has(a, k)
  {
    HalfOfRest(a, Pow2(n - 1));
    if k > 0 { RestHas(a / 2, n - 1, k - 1); }
  }

  lemma {:induction false} DifferInABit(a: nat, b: nat, n: nat) returns (k: nat)
    requires a < Pow2(n) && b < Pow2(n) && a != b
    ensures k < n && Has(a, k) != Has(b, k)
  {
    if a % 2 != b % 2 {
      k := 0;
    } else {
      k := DifferInABit(a / 2, b / 2, n - 1);
      k := k + 1;
    }
  }

  /** Each bit of the index is that of the hash, flipped by the next bit of the previous hash. */
  lemma {:induction false} IndexIs(prevLoc: nat, h: nat, k: nat)
    requires k < 16
    ensures Has(IndexAt(prevLoc, h), k) <==> Has(h, k) != Has(prevLoc, k + 1)
  {
    WordFits();
    XorHas(prevLoc / 2, h, 32, k);
    RestHas(Bitwise(BvOp.Xor, prevLoc / 2, h, 32), 16, k);
  }

  /** After the same branch, different hashes have different counters. */
  lemma {:induction false} IndexSeparates(prevLoc: nat, h1: nat, h2: nat)
    requires h1 < MAP_SIZE && h2 < MAP_SIZE && h1 != h2
    ensures IndexAt(prevLoc, h1) != IndexAt(prevLoc, h2)
  {
    WordFits();
    var k := DifferInABit(h1, h2, 16);
    IndexIs(prevLoc, h1, k);
    IndexIs(prevLoc, h2, k);
  }

  // ---------------------------------------------------------------------------
  // What the filter answers
  // ---------------------------------------------------------------------------

  datatype SessionV = SessionV(virgin: seq<nat>, prevLoc: nat, visited: set<nat>)

  /** The context map as the set of its ones, and the trace map. */
  datatype MapsV = MapsV(context: set<nat>, trace: seq<nat>)

  /** One counter of the session is one higher, modulo 256. */
  ghost function Raised(virgin: seq<nat>, idx: nat): seq<nat>
    requires idx < |virgin|
  {
    virgin[idx := (virgin[idx] + 1) % 256]
  }

  /** The context bits looked at for a hash whose counter is `bits`. */
  ghost function Contexts(c: X.Config, visited: set<nat>, h: nat, bits: nat): set<nat> {
    if PowerOfTwoOrZero(bits) then Pairs(c, visited, h) else {}
  }

  lemma {:induction false} PairsGrow(c: X.Config, visited: set<nat>, rest: set<nat>, prev: nat, h: nat)
    requires prev in rest && rest <= visited
    ensures Pairs(c, visited - (rest - {prev}), h) == Pairs(c, visited - rest, h) + {ContextHash(c, prev, h)}
  {
    assert visited - (rest - {prev}) == (visited - rest) + {prev};
  }

  /** The counter of the branch, and one more than that of its inverse, are or-ed in if the former is new. */
  ghost function TraceAfter(trace: seq<nat>, virgin: seq<nat>, idx: nat, invIdx: nat): seq<nat>
    requires |trace| == |virgin| && idx < |trace| && invIdx < |trace|
  {
    if Or8(virgin[idx], trace[idx]) == trace[idx] then trace
    else OrAt(OrAt(trace, idx, virgin[idx]), invIdx, (virgin[invIdx] + 1) % 256)
  }

  datatype Reply = Reply(maps: MapsV, session: SessionV, interesting: bool)

  ghost predicate Sizes(m: MapsV, s: SessionV) { |m.trace| == |s.virgin| == MAP_SIZE }

  /** One question: a branch is interesting when it changes a map. */
  ghost function Ask(c: X.Config, m: MapsV, s: SessionV, pc: Bytes, taken: bool): (r: Reply)
    requires Sizes(m, s)
    ensures Sizes(r.maps, r.session) && (r.interesting <==> r.maps != m)
  {
    var h, inv := PcHash(c, pc, taken), PcHash(c, pc, !taken);
    var idx, invIdx := IndexAt(s.prevLoc, h), IndexAt(s.prevLoc, inv);
    var virgin, contexts := Raised(s.virgin, idx), Contexts(c, s.visited, h, s.virgin[idx]);
    var trace := TraceAfter(m.trace, virgin, idx, invIdx);
    Reply(MapsV(m.context + contexts, trace),
          SessionV(virgin, h, if s.virgin[idx] == 0 then s.visited + {h} else s.visited),
          trace != m.trace || !(contexts <= m.context))
  }

  // ---------------------------------------------------------------------------
  // The filter
  // ---------------------------------------------------------------------------

  class Core {
    const c: X.Config
    const contextMap: array<nat>
    const traceMap: array<nat>
    ghost var answers: nat

    /** The ones of the context map, and the trace map. */
    ghost function Maps(): (m: MapsV)
      reads contextMap, traceMap
    {
      MapsV(Bits(contextMap[..]), traceMap[..])
    }

    /** Every interesting answer so far has its own bit. */
    ghost predicate Valid()
      reads this, contextMap, traceMap
    {
      && contextMap != traceMap && IsMap(contextMap[..]) && IsMap(traceMap[..])
      && answers <= Weight(contextMap[..]) + Weight(traceMap[..])
    }

    /** Cleared maps; `c` is the arithmetic of the hash. */
    constructor (c: X.Config)
      ensures Valid() && answers == 0 && fresh(contextMap) && fresh(traceMap) && this.c == c
      ensures Maps() == MapsV({}, seq(MAP_SIZE, _ => 0))
    {
      this.c := c;
      contextMap := new nat[MAP_SIZE](_ => 0);
      traceMap := new nat[MAP_SIZE](_ => 0);
      answers := 0;
      new;
      NoBits(contextMap[..]);
      assert traceMap[..] == seq(MAP_SIZE, _ => 0);
    }

    /** Marks `h` after every hash visited; interesting if one of these pairs is new. */
    method IsInterestingContext(s: Session, h: nat, bits: nat) returns (interesting: bool)
      requires IsMap(contextMap[..])
      modifies s`visited, contextMap
      ensures IsMap(contextMap[..])
      ensures if interesting then Weight(contextMap[..]) > old(Weight(contextMap[..]))
        else contextMap[..] == old(contextMap[..])
      ensures Bits(contextMap[..]) == old(Bits(contextMap[..])) + Contexts(c, old(s.visited), h, bits)
      ensures interesting <==> !(Contexts(c, old(s.visited), h, bits) <= old(Bits(contextMap[..])))
      ensures s.visited == if bits == 0 then old(s.visited) + {h} else old(s.visited)
    {
      interesting := false;
      if bits == 0 { ZeroCounts(bits); }
      if !PowerOfTwoOrZero(bits) {
        return;
      }
      interesting := MarkPairs(s.visited, h);
      if bits == 0 {
        s.visited := s.visited + {h};
      }
    }

    /** Marks the pair of every hash visited with `h`, in any order. */
    method MarkPairs(visited: set<nat>, h: nat) returns (interesting: bool)
      requires IsMap(contextMap[..])
      modifies contextMap
      ensures IsMap(contextMap[..])
      ensures if interesting then Weight(contextMap[..]) > old(Weight(contextMap[..]))
        else contextMap[..] == old(contextMap[..])
      ensures Bits(contextMap[..]) == old(Bits(contextMap[..])) + Pairs(c, visited, h)
      ensures interesting <==> !(Pairs(c, visited, h) <= old(Bits(contextMap[..])))
    {
      interesting := false;
      var rest := visited;
      ghost var before, pairs := Bits(contextMap[..]), {};
      assert visited - rest == {} && Pairs(c, {}, h) == {};
      while rest != {}
        invariant IsMap(contextMap[..]) && rest <= visited && pairs == Pairs(c, visited - rest, h)
        invariant if interesting then Weight(contextMap[..]) > old(Weight(contextMap[..]))
          else contextMap[..] == old(contextMap[..])
        invariant Bits(contextMap[..]) == before + pairs && (interesting <==> !(pairs <= before))
        decreases rest
      {
        var prev :| prev in rest;
        PairsGrow(c, visited, rest, prev, h);
        rest := rest - {prev};
        var hash := HashContext(c, prev, h);
        var fresh_ := Mark(hash);
        interesting := interesting || fresh_;
        pairs := pairs + {hash};
      }
      assert visited - rest == visited;
    }

    /** Sets one bit of the context map, and tells whether it was clear. */
    method Mark(hash: nat) returns (fresh_: bool)
      requires IsMap(contextMap[..]) && hash < MAP_SIZE * CHAR_BIT
      modifies contextMap
      ensures IsMap(contextMap[..])
      ensures if fresh_ then Weight(contextMap[..]) > old(Weight(contextMap[..]))
        else contextMap[..] == old(contextMap[..])
      ensures fresh_ == (hash !in old(Bits(contextMap[..])))
      ensures Bits(contextMap[..]) == old(Bits(contextMap[..])) + {hash}
    {
      var idx, bit := hash / CHAR_BIT, hash % CHAR_BIT;
      var mask := Pow2(bit);
      MaskFits(bit);
      MarkBits(contextMap[..], hash);
      MaskTests(contextMap[idx], bit, 8);
      assert Marked(contextMap[..], hash) <==> Has(contextMap[idx], bit);
      fresh_ := And8(contextMap[idx], mask) == 0;
      if fresh_ {
        FreshBit(contextMap[idx], mask, 8);
        OrInto(contextMap[..], idx, mask);
        ghost var map' := OrAt(contextMap[..], idx, mask);
        contextMap[idx] := Or8(contextMap[idx], mask);
        assert contextMap[..] == map';
      }
    }

    /** Or-s a counter of the session into the trace map, and tells whether that changed it. */
    method Cover(idx: nat, counter: nat) returns (fresh_: bool)
      requires IsMap(traceMap[..]) && idx < MAP_SIZE
      modifies traceMap
      ensures IsMap(traceMap[..]) && fresh_ == (Or8(counter, old(traceMap[idx])) != old(traceMap[idx]))
      ensures traceMap[..] == OrAt(old(traceMap[..]), idx, counter)
      ensures if fresh_ then Weight(traceMap[..]) > old(Weight(traceMap[..])) else traceMap[..] == old(traceMap[..])
    {
      OrInto(traceMap[..], idx, counter);
      OrCommutes(traceMap[idx], counter, 8);
      fresh_ := Or8(counter, traceMap[idx]) != traceMap[idx];
      ghost var map' := OrAt(traceMap[..], idx, counter);
      traceMap[idx] := Or8(traceMap[idx], counter);
      assert traceMap[..] == map';
      assert !fresh_ ==> traceMap[..] == old(traceMap[..]);
    }

    /** One branch of a session: is it worth solving? */
    method IsInterestingBranch(s: Session, pc: Bytes, taken: bool) returns (interesting: bool)
      requires Valid() && s.Valid() && s.virginMap != contextMap && s.virginMap != traceMap
      modifies this, s, s.virginMap, contextMap, traceMap
      ensures Valid() && s.Valid()
      ensures answers == if interesting then old(answers) + 1 else old(answers)
      ensures Reply(Maps(), s.Value(), interesting) == Ask(c, old(Maps()), old(s.Value()), pc, taken)
    {
      var h := HashPc(c, pc, taken);
      var idx := s.Index(h);
      var newContext := IsInterestingContext(s, h, s.virginMap[idx]);
      var covered := IsNewTrace(s, idx, pc, taken);
      interesting := covered || newContext;
      s.prevLoc := h;
      if interesting { answers := answers + 1; }
    }

    /** Counts the branch and covers it, and its inverse, if the trace map lacks a bit of the counter. */
    method IsNewTrace(s: Session, idx: nat, pc: Bytes, taken: bool) returns (covered: bool)
      requires IsMap(traceMap[..]) && s.Valid() && s.virginMap != traceMap && idx < MAP_SIZE
      modifies s.virginMap, traceMap
      ensures IsMap(traceMap[..]) && s.Valid()
      ensures s.virginMap[..] == Raised(old(s.virginMap[..]), idx)
      ensures covered == (Or8(s.virginMap[idx], old(traceMap[idx])) != old(traceMap[idx]))
      ensures traceMap[..] == TraceAfter(old(traceMap[..]), s.virginMap[..], idx, s.Index(PcHash(c, pc, !taken)))
      ensures if covered then Weight(traceMap[..]) > old(Weight(traceMap[..])) else traceMap[..] == old(traceMap[..])
    {
      Bump(s, idx, 1);
      covered := Or8(s.virginMap[idx], traceMap[idx]) != traceMap[idx];
      if covered {
        var inv := HashPc(c, pc, !taken);
        CoverBoth(s, idx, s.Index(inv));
      }
    }

    /** Covers the branch, and marks its inverse through a counter raised for the moment. */
    method CoverBoth(s: Session, idx: nat, invIdx: nat)
      requires IsMap(traceMap[..]) && s.Valid() && s.virginMap != traceMap && idx < MAP_SIZE && invIdx < MAP_SIZE
      requires Or8(s.virginMap[idx], traceMap[idx]) != traceMap[idx]
      modifies s.virginMap, traceMap
      ensures IsMap(traceMap[..]) && Weight(traceMap[..]) > old(Weight(traceMap[..])) && s.Valid()
      ensures s.virginMap[..] == old(s.virginMap[..])
      ensures traceMap[..] == TraceAfter(old(traceMap[..]), s.virginMap[..], idx, invIdx)
    {
      var _ := Cover(idx, s.virginMap[idx]);
      ghost var before := s.virginMap[..];
      Bump(s, invIdx, 1);
      var _ := Cover(invIdx, s.virginMap[invIdx]);
      WrapBack(before[invIdx]);
      Bump(s, invIdx, 255);
      assert s.virginMap[..] == before;
    }

    /** Adds to a counter, which wraps at 256. */
    method Bump(s: Session, idx: nat, step: nat)
      requires s.Valid() && idx < MAP_SIZE
      modifies s.virginMap
      ensures s.Valid() && s.virginMap[..] == old(s.virginMap[..])[idx := (old(s.virginMap[idx]) + step) % 256]
    {
      s.virginMap[idx] := (s.virginMap[idx] + step) % 256;
      assert s.virginMap[..] == old(s.virginMap[..])[idx := (old(s.virginMap[idx]) + step) % 256];
    }

    /** There are 2 to the 20 bits, so there are at most so many interesting answers. */
    lemma {:induction false} AnswersBound()
      requires Valid()
      ensures answers <= 0x10_0000
    {
      WeightBound(contextMap[..]);
      WeightBound(traceMap[..]);
    }
  }

  lemma {:induction false} WrapBack(v: nat)
    requires v < 256
    ensures ((v + 1) % 256 + 255) % 256 == v
  {
  }

  lemma {:induction false} OrCommutes(a: nat, b: nat, w: nat)
    ensures Bitwise(BvOp.Or, a, b, w) == Bitwise(BvOp.Or, b, a, w)
  {
    if w > 0 { OrCommutes(a / 2, b / 2, w - 1); }
  }

  // ---------------------------------------------------------------------------
  // Whole runs
  // ---------------------------------------------------------------------------

  /** Start a session, or ask about a branch in one of those started. */
  datatype Call = Start | Query(session: nat, pc: Bytes, taken: bool)

  function CountTrue(s: seq<bool>): nat {
    if s == [] then 0 else CountTrue(s[..|s| - 1]) + if s[|s| - 1] then 1 else 0
  }

  ghost predicate Apart(core: Core, sessions: seq<Session>)
    reads sessions, set i | 0 <= i < |sessions| :: sessions[i].virginMap
  {
    && (forall i :: 0 <= i < |sessions| ==>
         sessions[i].Valid() && sessions[i].virginMap != core.contextMap && sessions[i].virginMap != core.traceMap)
    && (forall i, j :: 0 <= i < j < |sessions| ==>
         sessions[i] != sessions[j] && sessions[i].virginMap != sessions[j].virginMap)
  }

  datatype World = World(maps: MapsV, sessions: seq<SessionV>, results: seq<bool>)

  ghost predicate WorldOk(w: World) {
    |w.maps.trace| == MAP_SIZE && forall i :: 0 <= i < |w.sessions| ==> |w.sessions[i].virgin| == MAP_SIZE
  }

  ghost function Serve(c: X.Config, w: World, call: Call): (r: World)
    requires WorldOk(w)
    ensures WorldOk(r)
  {
    match call
    case Start => w.(sessions := w.sessions + [SessionV(seq(MAP_SIZE, _ => 0), 0, {})])
    case Query(i, pc, taken) =>
      if i < |w.sessions| then
        var r := Ask(c, w.maps, w.sessions[i], pc, taken);
        World(r.maps, w.sessions[i := r.session], w.results + [r.interesting])
      else w
  }

  /** The history of the filter after some calls: one pair of maps for all sessions. */
  ghost function Replay(c: X.Config, calls: seq<Call>): (r: World)
    ensures WorldOk(r)
  {
    if calls == [] then World(MapsV({}, seq(MAP_SIZE, _ => 0)), [], [])
    else Serve(c, Replay(c, calls[..|calls| - 1]), calls[|calls| - 1])
  }

  ghost function Starts(calls: seq<Call>): nat {
    if calls == [] then 0 else Starts(calls[..|calls| - 1]) + if calls[|calls| - 1].Start? then 1 else 0
  }

  /** The queries that name a session already started. */
  ghost function Asks(calls: seq<Call>): nat {
    if calls == [] then 0
    else
      var before, last := calls[..|calls| - 1], calls[|calls| - 1];
      Asks(before) + if last.Query? && last.session < Starts(before) then 1 else 0
  }

  lemma {:induction false} ServeCounts(c: X.Config, w: World, call: Call)
    requires WorldOk(w)
    ensures |Serve(c, w, call).sessions| == |w.sessions| + if call.Start? then 1 else 0
    ensures |Serve(c, w, call).results| == |w.results| + if call.Query? && call.session < |w.sessions| then 1 else 0
  {
  }

  /** Every query of a started session is answered. */
  lemma {:induction false} AllAnswered(c: X.Config, calls: seq<Call>)
    ensures |Replay(c, calls).sessions| == Starts(calls) && |Replay(c, calls).results| == Asks(calls)
  {
    if calls != [] {
      var before, last := calls[..|calls| - 1], calls[|calls| - 1];
      AllAnswered(c, before);
      ServeCounts(c, Replay(c, before), last);
    }
  }

  /** The objects of the filter hold the history `w`. */
  ghost predicate Tracks(core: Core, sessions: seq<Session>, w: World)
    reads core, core.contextMap, core.traceMap, sessions, set i | 0 <= i < |sessions| :: sessions[i].virginMap
  {
    && core.Valid() && Apart(core, sessions) && WorldOk(w)
    && core.Maps() == w.maps && CountTrue(w.results) == core.answers
    && |w.sessions| == |sessions| && forall i :: 0 <= i < |sessions| ==> sessions[i].Value() == w.sessions[i]
  }

  method StartSession(core: Core, sessions: seq<Session>, ghost w: World) returns (s: Session)
    requires Tracks(core, sessions, w)
    ensures fresh(s) && fresh(s.virginMap) && Tracks(core, sessions + [s], Serve(core.c, w, Start))
  {
    s := new Session();
  }

  method QsymFilter(core: Core, sessions: seq<Session>, i: nat, pc: Bytes, taken: bool, ghost w: World)
      returns (r: bool)
    requires Tracks(core, sessions, w) && i < |sessions|
    modifies core, core.contextMap, core.traceMap, sessions[i], sessions[i].virginMap
    ensures Tracks(core, sessions, Serve(core.c, w, Query(i, pc, taken)))
    ensures Serve(core.c, w, Query(i, pc, taken)).results == w.results + [r]
  {
    r := core.IsInterestingBranch(sessions[i], pc, taken);
    ghost var w' := Serve(core.c, w, Query(i, pc, taken));
    assert w'.results[..|w.results|] == w.results;
    forall j | 0 <= j < |sessions| ensures sessions[j].Value() == w'.sessions[j] && sessions[j].Valid() {
      assert j != i ==> sessions[j] != sessions[i] && sessions[j].virginMap != sessions[i].virginMap;
    }
  }

  lemma {:induction false} ReplayNext(c: X.Config, calls: seq<Call>, k: nat)
    requires k < |calls|
    ensures Replay(c, calls[..k + 1]) == Serve(c, Replay(c, calls[..k]), calls[k])
  {
    assert calls[..k + 1][..k] == calls[..k];
  }

  method InitCore(c: X.Config) returns (core: Core)
    ensures fresh(core) && fresh(core.contextMap) && fresh(core.traceMap)
    ensures core.c == c && Tracks(core, [], Replay(c, []))
  {
    core := new Core(c);
  }

  /**
   Any number of sessions, interleaved in any way, get the answers of one history, at most 2 to
   the 20 of them positive.
   */
  method Run(calls: seq<Call>) returns (results: seq<bool>)
    ensures results == Replay(X.Standard(0), calls).results
    ensures |results| == Asks(calls) && CountTrue(results) <= 0x10_0000
  {
    var c := X.Standard(0);
    var core := InitCore(c);
    var sessions: seq<Session> := [];
    results := [];
    for k := 0 to |calls|
      invariant Tracks(core, sessions, Replay(c, calls[..k])) && core.c == c && results == Replay(c, calls[..k]).results
      invariant fresh(core) && fresh(core.contextMap) && fresh(core.traceMap)
      invariant forall i :: 0 <= i < |sessions| ==> fresh(sessions[i]) && fresh(sessions[i].virginMap)
    {
      ReplayNext(c, calls, k);
      match calls[k] {
        case Start =>
          var s := StartSession(core, sessions, Replay(c, calls[..k]));
          sessions := sessions + [s];
        case Query(i, pc, taken) =>
          if i < |sessions| {
            var r := QsymFilter(core, sessions, i, pc, taken, Replay(c, calls[..k]));
            results := results + [r];
          }
      }
    }
    assert calls[..|calls|] == calls;
    AllAnswered(c, calls);
    core.AnswersBound();
  }

  lemma {:induction false} MaskFits(bit: nat)
    requires bit < 8
    ensures 0 < Pow2(bit) < Pow2(8)
  {
    PowRises(bit, 8);
  }
}
