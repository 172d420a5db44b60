/**
 XXH32 over any way of splitting the input.  The arithmetic on 32-bit words is a parameter, so
 that the results hold for any of it; `Standard` is the program's own.
 */
module Xxh32 {
  import Expr
  import opened Arithmetic
  import opened Basics

  const M32: nat := 0x1_0000_0000

  type Byte = nat
  type Word = nat
  type Bytes = seq<Byte>

  datatype Lanes = Lanes(v1: Word, v2: Word, v3: Word, v4: Word)

  /** The arithmetic, for one seed. */
  datatype Config = Config(
    init: Lanes,
    read: (Byte, Byte, Byte, Byte) -> Word,
    round: (Word, Word) -> Word,
    merge: Lanes -> Word,
    small: Word -> Word,
    addLen: (Word, nat) -> Word,
    process4: (Word, Word) -> Word,
    process1: (Word, Byte) -> Word,
    avalanche: Word -> Word)

  const PRIME1: Word := 0x9E3779B1
  const PRIME2: Word := 0x85EBCA77
  const PRIME3: Word := 0xC2B2AE3D
  const PRIME4: Word := 0x27D4EB2F
  const PRIME5: Word := 0x165667B1

  /** Rotation to the left, one bit at a time. */
  function Rotl(x: Word, r: nat): Word
    decreases r
  {
    if r == 0 then x else Rotl(2 * x % M32 + 2 * x / M32, r - 1)
  }

  lemma {:induction false} Pow2Word()
    ensures Pow2(32) == M32
  {
    ByteFits();
    Pow2Add(8, 8);
    Pow2Add(16, 16);
  }

  lemma {:induction false} Halves(r: nat, n: nat)
    requires r + n == 32 && r > 0
    ensures 2 * (Pow2(r - 1) * Pow2(n)) == M32
  {
    Pow2Word();
    Pow2Add(r - 1, n);
  }

  lemma {:induction false} RotlOnce(hi: nat, lo: nat, c: nat, rest: nat, half: nat, q: nat, m: nat)
    requires 2 * (half * q) == m && c <= 1 && hi == c * half + rest && rest < half && lo < q
    ensures var x := hi * q + lo; x < m && 2 * x % m + 2 * x / m == rest * (2 * q) + (2 * lo + c)
    ensures (2 * lo + c) * half + rest == lo * (2 * half) + hi
  {
    Stacked(rest, half, lo, q);
    var x, y := hi * q + lo, 2 * (rest * q) + 2 * lo;
    assert 2 * x == m * c + y by {
      if c == 1 { assert hi * q == (half + rest) * q == half * q + rest * q; }
    }
    Unique(2 * x, c, y, m);
    assert rest * (2 * q) == 2 * (rest * q);
    assert (2 * lo + c) * half == lo * (2 * half) + c * half;
  }

  /** A rotation by `r` exchanges the upper `r` bits and the lower ones. */
  lemma {:induction false} RotlIs(x: Word, hi: nat, lo: nat, r: nat, n: nat)
    requires r + n == 32 && hi < Pow2(r) && lo < Pow2(n) && x == hi * Pow2(n) + lo
    ensures Rotl(x, r) == lo * Pow2(r) + hi
    decreases r
  {
    if r > 0 {
      var half := Pow2(r - 1);
      var c, rest := if hi < half then 0 else 1, if hi < half then hi else hi - half;
      Halves(r, n);
      RotlOnce(hi, lo, c, rest, half, Pow2(n), M32);
      RotlIs(2 * x % M32 + 2 * x / M32, rest, 2 * lo + c, r - 1, n + 1);
    }
  }

  function Xor(x: Word, y: Word): Word { Expr.Bitwise(Expr.Xor, x, y, 32) }

  function Avalanche(h: Word): Word {
    var h1 := Xor(h, Expr.ShiftRight(h, 15)) * PRIME2 % M32;
    var h2 := Xor(h1, Expr.ShiftRight(h1, 13)) * PRIME3 % M32;
    Xor(h2, Expr.ShiftRight(h2, 16))
  }

  function ReadLe(a: Byte, b: Byte, c: Byte, d: Byte): Word { a + 0x100 * b + 0x1_0000 * c + 0x100_0000 * d }

  function Round(acc: Word, w: Word): Word { Rotl((acc + w * PRIME2) % M32, 13) * PRIME1 % M32 }

  function Merge(l: Lanes): Word { (Rotl(l.v1, 1) + Rotl(l.v2, 7) + Rotl(l.v3, 12) + Rotl(l.v4, 18)) % M32 }

  function Small(v3: Word): Word { (v3 + PRIME5) % M32 }

  function AddLen(h: Word, n: nat): Word { (h + n) % M32 }

  function Process4(h: Word, w: Word): Word { Rotl((h + w * PRIME3) % M32, 17) * PRIME4 % M32 }

  function Process1(h: Word, b: Byte): Word { Rotl((h + b * PRIME5) % M32, 11) * PRIME1 % M32 }

  /** The program's arithmetic. */
  function Standard(seed: Word): Config {
    Config(Lanes((seed + PRIME1 + PRIME2) % M32, (seed + PRIME2) % M32, seed % M32, (seed + (M32 - PRIME1)) % M32),
           ReadLe, Round, Merge, Small, AddLen, Process4, Process1, Avalanche)
  }

  // ---------------------------------------------------------------------------
  // The hash
  // ---------------------------------------------------------------------------

  function WordAt(c: Config, data: Bytes, i: nat): Word
    requires i + 4 <= |data|
  {
    c.read(data[i], data[i + 1], data[i + 2], data[i + 3])
  }

  /** One group of 16 bytes, four to a lane. */
  function Grouped(c: Config, l: Lanes, data: Bytes, i: nat): Lanes
    requires i + 16 <= |data|
  {
    Lanes(c.round(l.v1, WordAt(c, data, i)), c.round(l.v2, WordAt(c, data, i + 4)),
          c.round(l.v3, WordAt(c, data, i + 8)), c.round(l.v4, WordAt(c, data, i + 12)))
  }

  function Rounds(c: Config, l: Lanes, data: Bytes, n: nat): Lanes
    requires 16 * n <= |data|
  {
    if n == 0 then l else Grouped(c, Rounds(c, l, data, n - 1), data, 16 * (n - 1))
  }

  /** The remaining bytes: words of four, then single bytes, then the avalanche. */
  function Tail(c: Config, h: Word, data: Bytes): Word
    decreases |data|
  {
    if |data| >= 4 then Tail(c, c.process4(h, WordAt(c, data, 0)), data[4..])
    else if |data| >= 1 then Tail(c, c.process1(h, data[0]), data[1..])
    else c.avalanche(h)
  }

  function Hash(c: Config, input: Bytes): Word {
    var h := if |input| >= 16 then c.merge(Rounds(c, c.init, input, |input| / 16)) else c.small(c.init.v3);
    Tail(c, c.addLen(h, |input| % M32), input[16 * (|input| / 16)..])
  }

  lemma {:induction false} RoundsPrefix(c: Config, l: Lanes, d1: Bytes, d2: Bytes, n: nat)
    requires 16 * n <= |d1| && 16 * n <= |d2| && d1[..16 * n] == d2[..16 * n]
    ensures Rounds(c, l, d1, n) == Rounds(c, l, d2, n)
  {
    if n > 0 {
      assert d1[..16 * (n - 1)] == d1[..16 * n][..16 * (n - 1)] == d2[..16 * (n - 1)];
      RoundsPrefix(c, l, d1, d2, n - 1);
      var p := 16 * (n - 1);
      assert d1[p..p + 16] == d1[..16 * n][p..] == d2[p..p + 16];
      SameGroup(c, Rounds(c, l, d1, n - 1), d1, p, d2, p);
    }
  }

  // ---------------------------------------------------------------------------
  // Finishing, rerolled and unrolled
  // ---------------------------------------------------------------------------

  method FinalizeLoop(c: Config, h0: Word, data: Bytes, len0: nat) returns (h: Word)
    requires len0 % 16 <= |data|
    ensures h == Tail(c, h0, data[..len0 % 16])
  {
    h := h0;
    var len, p := len0 % 16, 0;
    while len >= 4
      invariant 0 <= p && 0 <= len && p + len == len0 % 16
      invariant Tail(c, h, data[p..p + len]) == Tail(c, h0, data[..len0 % 16])
    {
      assert data[p..p + len][4..] == data[p + 4..p + len];
      h := c.process4(h, WordAt(c, data, p));
      p, len := p + 4, len - 4;
    }
    while len > 0
      invariant 0 <= p && 0 <= len < 4 && p + len == len0 % 16
      invariant Tail(c, h, data[p..p + len]) == Tail(c, h0, data[..len0 % 16])
    {
      assert data[p..p + len][1..] == data[p + 1..p + len];
      h := c.process1(h, data[p]);
      p, len := p + 1, len - 1;
    }
    assert data[p..p + len] == [];
    h := c.avalanche(h);
  }

  /** `k` words of four bytes. */
  function Fours(c: Config, h: Word, data: Bytes, k: nat): Word
    requires 4 * k <= |data|
  {
    if k == 0 then h else c.process4(Fours(c, h, data, k - 1), WordAt(c, data, 4 * (k - 1)))
  }

  /** `k` single bytes from `p`. */
  function Ones(c: Config, h: Word, data: Bytes, p: nat, k: nat): Word
    requires p + k <= |data|
  {
    if k == 0 then h else c.process1(Ones(c, h, data, p, k - 1), data[p + k - 1])
  }

  lemma {:induction false} TailFours(c: Config, h: Word, data: Bytes, k: nat)
    requires 4 * k <= |data|
    ensures Tail(c, h, data) == Tail(c, Fours(c, h, data, k), data[4 * k..])
  {
    if k > 0 {
      TailFours(c, h, data, k - 1);
      assert data[4 * (k - 1)..][4..] == data[4 * k..];
    }
  }

  lemma {:induction false} TailOnes(c: Config, h: Word, data: Bytes, p: nat, k: nat)
    requires p + k <= |data| < p + 4
    ensures Tail(c, h, data[p..]) == Tail(c, Ones(c, h, data, p, k), data[p + k..])
  {
    if k > 0 {
      TailOnes(c, h, data, p, k - 1);
      assert data[p + k - 1..][1..] == data[p + k..];
    }
  }

  /** Any number of words and single bytes that adds up to the length is the whole tail. */
  lemma {:induction false} TailIs(c: Config, h: Word, data: Bytes, k: nat, j: nat)
    requires |data| == 4 * k + j && j < 4
    ensures Tail(c, h, data) == c.avalanche(Ones(c, Fours(c, h, data, k), data, 4 * k, j))
  {
    TailFours(c, h, data, k);
    TailOnes(c, Fours(c, h, data, k), data, 4 * k, j);
    assert data[4 * k + j..] == [];
  }

  /** The switch: every case falls through to the cases below it in its group. */
  method FinalizeSwitch(c: Config, h0: Word, data: Bytes, len: nat) returns (h: Word)
    requires len % 16 <= |data|
    ensures h == Tail(c, h0, data[..len % 16])
  {
    var r := len % 16;
    var d := data[..r];
    h := h0;
    if r == 4 || r == 8 || r == 12 {
      h := SwitchFours(c, h, d, r / 4);
    } else if r == 5 || r == 9 || r == 13 {
      h := SwitchFours(c, h, d, r / 4);
      OnesUpTo(c, h, d, r - 1, 1);
      h := c.process1(h, d[r - 1]);
    } else if r == 6 || r == 10 || r == 14 {
      h := SwitchFours(c, h, d, r / 4);
      OnesUpTo(c, h, d, r - 2, 2);
      h := c.process1(h, d[r - 2]);
      h := c.process1(h, d[r - 1]);
    } else {
      if r >= 7 {
        h := SwitchFours(c, h, d, r / 4);
      }
      OnesUpTo(c, h, d, 4 * (r / 4), r % 4);
      if r % 4 == 3 {
        h := c.process1(h, d[r - 3]);
      }
      if r % 4 >= 2 {
        h := c.process1(h, d[r - 2]);
      }
      if r % 4 >= 1 {
        h := c.process1(h, d[r - 1]);
      }
    }
    assert h == Ones(c, Fours(c, h0, d, r / 4), d, 4 * (r / 4), r % 4);
    TailIs(c, h0, d, r / 4, r % 4);
    h := c.avalanche(h);
  }

  lemma {:induction false} OnesUpTo(c: Config, h: Word, d: Bytes, p: nat, k: nat)
    requires p + k <= |d| && k <= 3
    ensures k == 0 ==> Ones(c, h, d, p, k) == h
    ensures k == 1 ==> Ones(c, h, d, p, k) == c.process1(h, d[p])
    ensures k == 2 ==> Ones(c, h, d, p, k) == c.process1(c.process1(h, d[p]), d[p + 1])
    ensures k == 3 ==> Ones(c, h, d, p, k) == c.process1(c.process1(c.process1(h, d[p]), d[p + 1]), d[p + 2])
  {
    assert k >= 1 ==> Ones(c, h, d, p, 1) == c.process1(h, d[p]);
    assert k >= 2 ==> Ones(c, h, d, p, 2) == c.process1(Ones(c, h, d, p, 1), d[p + 1]);
  }

  /** The three labels of a group: enter at the number of words left and fall through. */
  method SwitchFours(c: Config, h0: Word, d: Bytes, k: nat) returns (h: Word)
    requires 1 <= k <= 3 && 4 * k <= |d|
    ensures h == Fours(c, h0, d, k)
  {
    h := h0;
    var p := 0;
    assert Fours(c, h0, d, 1) == c.process4(h0, WordAt(c, d, 0));
    assert k >= 2 ==> Fours(c, h0, d, 2) == c.process4(Fours(c, h0, d, 1), WordAt(c, d, 4));
    if k == 3 {
      h := c.process4(h, WordAt(c, d, p));
      p := p + 4;
    }
    if k >= 2 {
      h := c.process4(h, WordAt(c, d, p));
      p := p + 4;
    }
    h := c.process4(h, WordAt(c, d, p));
  }

  // ---------------------------------------------------------------------------
  // One shot
  // ---------------------------------------------------------------------------

  /** The loop over the groups of 16 bytes. */
  method AllGroups(c: Config, input: Bytes) returns (l: Lanes, p: nat)
    requires |input| >= 16
    ensures l == Rounds(c, c.init, input, |input| / 16) && p == 16 * (|input| / 16)
  {
    l, p := c.init, 0;
    ghost var n := 0;
    while p < |input| - 15
      invariant p == 16 * n <= |input| && l == Rounds(c, c.init, input, n)
    {
      l := Lanes(c.round(l.v1, WordAt(c, input, p)), c.round(l.v2, WordAt(c, input, p + 4)),
                 c.round(l.v3, WordAt(c, input, p + 8)), c.round(l.v4, WordAt(c, input, p + 12)));
      p := p + 16;
      n := n + 1;
    }
    assert n == |input| / 16;
  }

  method OneShot(c: Config, input: Bytes) returns (h: Word)
    ensures h == Hash(c, input)
  {
    var p := 0;
    if |input| >= 16 {
      var l;
      l, p := AllGroups(c, input);
      h := c.merge(l);
    } else {
      h := c.small(c.init.v3);
    }
    h := c.addLen(h, |input| % M32);
    assert input[p..][..|input| % 16] == input[16 * (|input| / 16)..];
    h := FinalizeSwitch(c, h, input[p..], |input|);
  }

  // ---------------------------------------------------------------------------
  // Streaming
  // ---------------------------------------------------------------------------

  /** The lanes have taken `q` groups and the buffer holds the rest. */
  ghost predicate Held(fed: Bytes, q: nat, mem: Bytes, memsize: nat) {
    |fed| == 16 * q + memsize && memsize < 16 && |mem| == 16 && mem[..memsize] == fed[16 * q..]
  }

  ghost predicate Ran(c: Config, fed: Bytes, q: nat, lanes: Lanes) {
    16 * q <= |fed| && lanes == Rounds(c, c.init, fed, q)
  }

  ghost predicate LengthOk(len: nat, total: nat, large: bool) {
    total == len % M32 && (large <==> len >= 16)
  }

  /** The sticky flag says that at least 16 bytes were fed, also once the length has wrapped. */
  lemma {:induction false} LargeIsSticky(before: nat, len: nat, total: nat)
    requires total == (before % M32 + len % M32) % M32
    ensures total == (before + len) % M32
    ensures before + len >= 16 <==> before >= 16 || len >= 16 || total >= 16
  {
    ModSum(before, len, M32);
    Euclid(before + len, M32);
    if before + len < 32 { SmallMod(before + len, M32); }
  }

  lemma {:induction false} SameAt(d1: Bytes, p: nat, d2: Bytes, r: nat, k: nat)
    requires p + 16 <= |d1| && r + 16 <= |d2| && d1[p..p + 16] == d2[r..r + 16] && k < 16
    ensures d1[p + k] == d2[r + k]
  {
    assert d1[p + k] == d1[p..p + 16][k] && d2[r + k] == d2[r..r + 16][k];
  }

  lemma {:induction false} SameWord(c: Config, d1: Bytes, p: nat, d2: Bytes, r: nat, k: nat)
    requires p + 16 <= |d1| && r + 16 <= |d2| && d1[p..p + 16] == d2[r..r + 16] && k <= 12
    ensures WordAt(c, d1, p + k) == WordAt(c, d2, r + k)
  {
    SameAt(d1, p, d2, r, k);
    SameAt(d1, p, d2, r, k + 1);
    SameAt(d1, p, d2, r, k + 2);
    SameAt(d1, p, d2, r, k + 3);
  }

  /** Equal groups are taken alike. */
  lemma {:induction false} SameGroup(c: Config, l: Lanes, d1: Bytes, p: nat, d2: Bytes, r: nat)
    requires p + 16 <= |d1| && r + 16 <= |d2| && d1[p..p + 16] == d2[r..r + 16]
    ensures Grouped(c, l, d1, p) == Grouped(c, l, d2, r)
  {
    SameWord(c, d1, p, d2, r, 0);
    SameWord(c, d1, p, d2, r, 4);
    SameWord(c, d1, p, d2, r, 8);
    SameWord(c, d1, p, d2, r, 12);
  }

  lemma {:induction false} RanNext(c: Config, fed: Bytes, q: nat, lanes: Lanes, data: Bytes, p: nat)
    requires Ran(c, fed, q, lanes) && p + 16 <= |data| && 16 * q + 16 <= |fed|
    requires data[p..p + 16] == fed[16 * q..16 * q + 16]
    ensures Ran(c, fed, q + 1, Grouped(c, lanes, data, p))
  {
    SameGroup(c, lanes, data, p, fed, 16 * q);
    assert Rounds(c, c.init, fed, q + 1) == Grouped(c, Rounds(c, c.init, fed, q), fed, 16 * q);
  }

  class State {
    const c: Config
    const mem: array<Byte>
    var lanes: Lanes
    var memsize: nat
    var totalLen32: nat
    var largeLen: bool
    ghost var fed: Bytes
    ghost var q: nat

    ghost predicate Valid()
      reads this, mem
    {
      && mem.Length == 16 && Held(fed, q, mem[..], memsize)
      && Ran(c, fed, q, lanes) && LengthOk(|fed|, totalLen32, largeLen)
    }

    constructor (c: Config)
      ensures Valid() && fresh(mem) && fed == [] && this.c == c
    {
      this.c := c;
      mem := new Byte[16](_ => 0);
      lanes, memsize, totalLen32, largeLen := c.init, 0, 0, false;
      fed, q := [], 0;
    }

    method CopyIn(at: nat, data: Bytes)
      requires at + |data| <= mem.Length
      modifies mem
      ensures mem[..] == old(mem[..at]) + data + old(mem[at + |data|..])
    {
      for i := 0 to |data|
        invariant mem[..] == old(mem[..at]) + data[..i] + old(mem[at + i..])
      {
        mem[at + i] := data[i];
        assert mem[..] == old(mem[..at]) + data[..i + 1] + old(mem[at + i + 1..]);
      }
      assert data[..|data|] == data;
    }

    /** One group of 16 bytes at `p`. */
    method Group(data: Bytes, p: nat)
      requires p + 16 <= |data| && 16 * q + 16 <= |fed| && Ran(c, fed, q, lanes)
      requires data[p..p + 16] == fed[16 * q..16 * q + 16]
      modifies `lanes, `q
      ensures q == old(q) + 1 && Ran(c, fed, q, lanes)
    {
      RanNext(c, fed, q, lanes, data, p);
      lanes := Lanes(c.round(lanes.v1, WordAt(c, data, p)), c.round(lanes.v2, WordAt(c, data, p + 4)),
                     c.round(lanes.v3, WordAt(c, data, p + 8)), c.round(lanes.v4, WordAt(c, data, p + 12)));
      q := q + 1;
    }

    /** Feeds more input. */
    method Update(input: Bytes)
      requires Valid()
      modifies this, mem
      ensures Valid() && fed == old(fed) + input
    {
      Count(|input|);
      ghost var fed0 := fed;
      fed := fed + input;
      MoreFed(c, fed0, input, q, lanes);
      if memsize + |input| < 16 {
        Append(input, fed0);
        return;
      }
      Take(input, fed0);
    }

    /** At least one group: the buffered one, the groups of the input, and the rest is kept. */
    method Take(input: Bytes, ghost fed0: Bytes)
      requires mem.Length == 16 && fed == fed0 + input && Held(fed0, q, mem[..], memsize)
      requires 16 <= memsize + |input| && Ran(c, fed, q, lanes)
      modifies `memsize, `lanes, `q, mem
      ensures Held(fed, q, mem[..], memsize) && Ran(c, fed, q, lanes)
    {
      var p := 0;
      if memsize > 0 {
        p := Complete(input, fed0);
      }
      p := Groups(input, p, fed0);
      Keep(input, p, fed0);
    }

    method Count(len: nat)
      requires LengthOk(|fed|, totalLen32, largeLen)
      modifies `totalLen32, `largeLen
      ensures LengthOk(|fed| + len, totalLen32, largeLen)
    {
      totalLen32 := (totalLen32 + len % M32) % M32;
      largeLen := largeLen || len >= 16 || totalLen32 >= 16;
      LargeIsSticky(|fed|, len, totalLen32);
    }

    /** Not yet a group: the input is only buffered. */
    method Append(input: Bytes, ghost fed0: Bytes)
      requires fed == fed0 + input && Held(fed0, q, mem[..], memsize) && memsize + |input| < 16
      modifies `memsize, mem
      ensures Held(fed, q, mem[..], memsize)
    {
      ghost var m0 := mem[..];
      CopyIn(memsize, input);
      memsize := memsize + |input|;
      assert mem[..][..memsize] == m0[..old(memsize)] + input;
      assert fed[16 * q..] == fed0[16 * q..] + input;
    }

    /** Completes the buffered bytes to a group and takes it. */
    method Complete(input: Bytes, ghost fed0: Bytes) returns (p: nat)
      requires fed == fed0 + input && Held(fed0, q, mem[..], memsize)
      requires 16 <= memsize + |input| && Ran(c, fed, q, lanes)
      modifies `memsize, `lanes, `q, mem
      ensures p <= |input| && 16 * q == |fed0| + p && Ran(c, fed, q, lanes) && memsize == 0
    {
      p := 16 - memsize;
      ghost var m0 := mem[..];
      CopyIn(memsize, input[..p]);
      assert mem[..][0..16] == m0[..memsize] + input[..p];
      assert fed[16 * q..16 * q + 16] == fed0[16 * q..] + input[..p];
      Group(mem[..], 0);
      memsize := 0;
    }

    /** All whole groups of the input. */
    method Groups(input: Bytes, p0: nat, ghost fed0: Bytes) returns (p: nat)
      requires fed == fed0 + input && p0 <= |input| && 16 * q == |fed0| + p0 && Ran(c, fed, q, lanes)
      modifies `lanes, `q
      ensures p <= |input| < p + 16 && 16 * q == |fed0| + p && Ran(c, fed, q, lanes)
    {
      p := p0;
      while p + 16 <= |input|
        invariant p <= |input| && 16 * q == |fed0| + p && Ran(c, fed, q, lanes)
      {
        assert input[p..p + 16] == fed[16 * q..16 * q + 16];
        Group(input, p);
        p := p + 16;
      }
    }

    method Keep(input: Bytes, p: nat, ghost fed0: Bytes)
      requires fed == fed0 + input && p <= |input| < p + 16 && 16 * q == |fed0| + p && mem.Length == 16 && memsize == 0
      modifies `memsize, mem
      ensures Held(fed, q, mem[..], memsize)
    {
      if p < |input| {
        CopyIn(0, input[p..]);
        memsize := |input| - p;
        assert mem[..][..memsize] == input[p..];
      }
      assert fed[16 * q..] == input[p..];
    }

    /** The hash of everything fed, however it was split. */
    method Digest() returns (h: Word)
      requires Valid()
      ensures h == Hash(c, fed)
    {
      assert q == |fed| / 16 && memsize == |fed| % 16;
      if largeLen {
        h := c.merge(lanes);
      } else {
        assert q == 0;
        h := c.small(lanes.v3);
      }
      h := c.addLen(h, totalLen32);
      assert mem[..][..memsize % 16] == fed[16 * q..];
      h := FinalizeSwitch(c, h, mem[..], memsize);
    }
  }

  lemma {:induction false} MoreFed(c: Config, fed: Bytes, input: Bytes, q: nat, lanes: Lanes)
    requires Ran(c, fed, q, lanes)
    ensures Ran(c, fed + input, q, lanes)
  {
    assert (fed + input)[..16 * q] == fed[..16 * q];
    RoundsPrefix(c, c.init, fed, fed + input, q);
  }

  /** Feeding the pieces one by one gives the hash of the whole. */
  method Streamed(c: Config, pieces: seq<Bytes>) returns (h: Word)
    ensures h == Hash(c, Joined(pieces))
  {
    var state := new State(c);
    for i := 0 to |pieces|
      invariant state.Valid() && fresh(state) && fresh(state.mem) && state.c == c && state.fed == Joined(pieces[..i])
    {
      state.Update(pieces[i]);
      assert pieces[..i + 1][..i] == pieces[..i];
    }
    assert pieces[..|pieces|] == pieces;
    h := state.Digest();
  }

  /** A state reset, fed twice and digested. */
  method HashTwo(c: Config, first: Bytes, second: Bytes) returns (h: Word)
    ensures h == Hash(c, first + second)
  {
    JoinedTwo(first, second);
    h := Streamed(c, [first, second]);
  }
}
