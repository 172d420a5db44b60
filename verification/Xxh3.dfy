/**
 XXH3 over any way of splitting the input.  The mixing functions are parameters; what is
 modelled is the schedule: which 64-byte stripe is mixed with which part of the secret, when
 the accumulators are scrambled, and what the internal buffer keeps for the last stripe.
 */
module Xxh3 {
  import opened Arithmetic
  import opened Basics

  const STRIPE: nat := 64
  const BUFFER: nat := 256
  const CONSUME_RATE: nat := 8
  const LASTACC_START: nat := 7
  const MIDSIZE_MAX: nat := 240
  const SECRET_SIZE_MIN: nat := 136

  type Bytes = seq<nat>
  type Acc = seq<nat>

  /** `acc512` takes the accumulators, a stripe and an offset into the secret. */
  datatype Mix = Mix(init: Acc, acc512: (Acc, Bytes, nat) -> Acc, scramble: (Acc, nat) -> Acc,
                     merge: (Acc, nat) -> nat, short: Bytes -> nat)

  /** The mixing functions and the size of the secret. */
  datatype Config = Config(mix: Mix, secretSize: nat) {
    ghost predicate Valid() { secretSize >= SECRET_SIZE_MIN }
    function Limit(): nat requires secretSize >= STRIPE { secretSize - STRIPE }
    function StripesPerBlock(): nat requires secretSize >= STRIPE { (secretSize - STRIPE) / CONSUME_RATE }
  }

  // ---------------------------------------------------------------------------
  // The schedule
  // ---------------------------------------------------------------------------

  function Stripe(data: Bytes, k: nat): Bytes
    requires 64 * k + 64 <= |data|
  {
    data[64 * k..64 * k + 64]
  }

  /** One stripe at place `pos` of its block; the last one of a block is followed by a scramble. */
  function Mixed(c: Config, acc: Acc, pos: nat, stripe: Bytes): (Acc, nat)
    requires c.Valid()
  {
    var a := c.mix.acc512(acc, stripe, pos * CONSUME_RATE);
    if pos + 1 == c.StripesPerBlock() then (c.mix.scramble(a, c.Limit()), 0) else (a, pos + 1)
  }

  /** The first `n` stripes of the data, from the given accumulators and place in the block. */
  function Absorb(c: Config, acc: Acc, pos: nat, data: Bytes, n: nat): (Acc, nat)
    requires c.Valid() && 64 * n <= |data|
  {
    if n == 0 then (acc, pos)
    else
      var (a, p) := Absorb(c, acc, pos, data, n - 1);
      Mixed(c, a, p, Stripe(data, n - 1))
  }

  /** Accumulators of a long input: all whole stripes before the last byte, then the last 64 bytes. */
  function LongAcc(c: Config, input: Bytes): Acc
    requires c.Valid() && |input| > MIDSIZE_MAX
  {
    var (a, _) := Absorb(c, c.mix.init, 0, input, (|input| - 1) / 64);
    c.mix.acc512(a, input[|input| - 64..], c.Limit() - LASTACC_START)
  }

  function Hash(c: Config, input: Bytes): nat
    requires c.Valid()
  {
    if |input| > MIDSIZE_MAX then c.mix.merge(LongAcc(c, input), |input|) else c.mix.short(input)
  }

  /** Plain accumulation without scrambling. */
  function Accumulated(c: Config, acc: Acc, data: Bytes, secret: nat, n: nat): Acc
    requires 64 * n <= |data|
  {
    if n == 0 then acc
    else c.mix.acc512(Accumulated(c, acc, data, secret, n - 1), Stripe(data, n - 1), secret + (n - 1) * CONSUME_RATE)
  }

  lemma {:induction false} BlockIsLong(c: Config)
    requires c.Valid()
    ensures c.StripesPerBlock() >= 9
  {
  }

  lemma {:induction false} PlaceInBlock(c: Config, acc: Acc, pos: nat, data: Bytes, n: nat)
    requires c.Valid() && 64 * n <= |data| && pos < c.StripesPerBlock()
    ensures Absorb(c, acc, pos, data, n).1 < c.StripesPerBlock()
  {
    if n > 0 { PlaceInBlock(c, acc, pos, data, n - 1); }
  }

  /** Two inputs that agree on the first `n` stripes are absorbed alike. */
  lemma {:induction false} AbsorbPrefix(c: Config, acc: Acc, pos: nat, d1: Bytes, d2: Bytes, n: nat)
    requires c.Valid() && 64 * n <= |d1| && 64 * n <= |d2| && d1[..64 * n] == d2[..64 * n]
    ensures Absorb(c, acc, pos, d1, n) == Absorb(c, acc, pos, d2, n)
  {
    if n > 0 {
      assert d1[..64 * (n - 1)] == d1[..64 * n][..64 * (n - 1)] == d2[..64 * (n - 1)];
      AbsorbPrefix(c, acc, pos, d1, d2, n - 1);
      assert Stripe(d1, n - 1) == d1[..64 * n][64 * (n - 1)..] == Stripe(d2, n - 1);
    }
  }

  lemma {:induction false} AbsorbSplit(c: Config, acc: Acc, pos: nat, data: Bytes, a: nat, b: nat)
    requires c.Valid() && 64 * (a + b) <= |data|
    ensures var (x, p) := Absorb(c, acc, pos, data, a);
      Absorb(c, acc, pos, data, a + b) == Absorb(c, x, p, data[64 * a..], b)
  {
    if b > 0 {
      AbsorbSplit(c, acc, pos, data, a, b - 1);
      assert Stripe(data[64 * a..], b - 1) == Stripe(data, a + b - 1);
    }
  }

  /** Within a block absorbing is accumulating; at its end there is one scramble. */
  lemma {:induction false} AbsorbInBlock(c: Config, acc: Acc, pos: nat, data: Bytes, n: nat)
    requires c.Valid() && 64 * n <= |data| && pos < c.StripesPerBlock() && pos + n <= c.StripesPerBlock()
    ensures var a := Accumulated(c, acc, data, pos * CONSUME_RATE, n);
      Absorb(c, acc, pos, data, n) ==
        if pos + n == c.StripesPerBlock() then (c.mix.scramble(a, c.Limit()), 0) else (a, pos + n)
  {
    if n > 0 {
      AbsorbInBlock(c, acc, pos, data, n - 1);
      assert pos * CONSUME_RATE + (n - 1) * CONSUME_RATE == (pos + n - 1) * CONSUME_RATE;
    }
  }

  // ---------------------------------------------------------------------------
  // One shot
  // ---------------------------------------------------------------------------

  method Accumulate(c: Config, acc0: Acc, data: Bytes, secret: nat, nbStripes: nat) returns (acc: Acc)
    requires 64 * nbStripes <= |data|
    ensures acc == Accumulated(c, acc0, data, secret, nbStripes)
  {
    acc := acc0;
    for n := 0 to nbStripes
      invariant acc == Accumulated(c, acc0, data, secret, n)
    {
      acc := c.mix.acc512(acc, data[64 * n..64 * n + 64], secret + n * CONSUME_RATE);
    }
  }

  /** `n` times `a`, by addition. */
  function Times(a: nat, n: nat): nat {
    if n == 0 then 0 else Times(a, n - 1) + a
  }

  lemma {:induction false} TimesIs(a: nat, n: nat)
    ensures Times(a, n) == a * n
  {
    if n > 0 {
      TimesIs(a, n - 1);
      assert a * n == a * (n - 1) + a;
    }
  }

  lemma {:induction false} TimesGrows(a: nat, m: nat, n: nat)
    requires m <= n
    ensures Times(a, m) <= Times(a, n)
  {
    if m < n { TimesGrows(a, m, n - 1); }
  }

  lemma {:induction false} Factor(n: nat, nb: nat)
    ensures 64 * (n * nb) == (64 * n) * nb
  {
  }

  /** The stripes before the last byte are those of the whole blocks and the rest. */
  lemma {:induction false} BlockCount(len: nat, n: nat, blockLen: nat, nb: nat)
    requires len > 0 && n > 0 && blockLen == 64 * n && nb == (len - 1) / blockLen
    ensures 64 * Times(n, nb) == blockLen * nb <= len - 1
    ensures (len - 1) / 64 == Times(n, nb) + ((len - 1) - blockLen * nb) / 64 && ((len - 1) - blockLen * nb) / 64 < n
  {
    var q, r := (len - 1) / 64, (len - 1) % 64;
    Euclid(q, n);
    var part := q % n;
    Factor(n, q / n);
    Unique(len - 1, q / n, 64 * part + r, blockLen);
    TimesIs(n, nb);
    Factor(n, nb);
    Unique(64 * part + r, part, r, 64);
  }

  method HashLong(c: Config, input: Bytes) returns (acc: Acc)
    requires c.Valid() && |input| > MIDSIZE_MAX
    ensures acc == LongAcc(c, input)
  {
    var perBlock := c.StripesPerBlock();
    BlockIsLong(c);
    var blockLen := STRIPE * perBlock;
    var nbBlocks := (|input| - 1) / blockLen;
    BlockCount(|input|, perBlock, blockLen, nbBlocks);
    var offset := blockLen * nbBlocks;
    acc := Blocks(c, input, nbBlocks);
    var nbStripes := ((|input| - 1) - offset) / STRIPE;
    acc := Rest(c, acc, input, Times(perBlock, nbBlocks), nbStripes);
    acc := c.mix.acc512(acc, input[|input| - STRIPE..], c.Limit() - LASTACC_START);
  }

  /** The whole blocks, each followed by a scramble. */
  method Blocks(c: Config, input: Bytes, nbBlocks: nat) returns (acc: Acc)
    requires c.Valid() && 64 * Times(c.StripesPerBlock(), nbBlocks) <= |input|
    ensures Absorb(c, c.mix.init, 0, input, Times(c.StripesPerBlock(), nbBlocks)) == (acc, 0)
  {
    var perBlock := c.StripesPerBlock();
    BlockIsLong(c);
    acc := c.mix.init;
    var at := 0;
    for n := 0 to nbBlocks
      invariant at == Times(perBlock, n) && 64 * at <= |input|
      invariant Absorb(c, c.mix.init, 0, input, at) == (acc, 0)
    {
      TimesGrows(perBlock, n + 1, nbBlocks);
      AbsorbSplit(c, c.mix.init, 0, input, at, perBlock);
      AbsorbInBlock(c, acc, 0, input[64 * at..], perBlock);
      acc := Accumulate(c, acc, input[64 * at..], 0, perBlock);
      acc := c.mix.scramble(acc, c.Limit());
      at := at + perBlock;
    }
  }

  /** The stripes of the last, partial block. */
  method Rest(c: Config, acc0: Acc, input: Bytes, done: nat, nbStripes: nat) returns (acc: Acc)
    requires c.Valid() && 64 * (done + nbStripes) <= |input| && nbStripes < c.StripesPerBlock()
    requires Absorb(c, c.mix.init, 0, input, done) == (acc0, 0)
    ensures Absorb(c, c.mix.init, 0, input, done + nbStripes).0 == acc
  {
    AbsorbSplit(c, c.mix.init, 0, input, done, nbStripes);
    AbsorbInBlock(c, acc0, 0, input[64 * done..], nbStripes);
    acc := Accumulate(c, acc0, input[64 * done..], 0, nbStripes);
  }

  // ---------------------------------------------------------------------------
  // Streaming
  // ---------------------------------------------------------------------------

  /** Consumes whole stripes, scrambling at most once. */
  method ConsumeStripes(c: Config, acc0: Acc, soFar: nat, data: Bytes, nbStripes: nat) returns (acc: Acc, soFar': nat)
    requires c.Valid() && soFar < c.StripesPerBlock() && nbStripes <= c.StripesPerBlock() && 64 * nbStripes <= |data|
    ensures (acc, soFar') == Absorb(c, acc0, soFar, data, nbStripes)
  {
    var perBlock := c.StripesPerBlock();
    if perBlock - soFar <= nbStripes {
      var toEnd := perBlock - soFar;
      var after := nbStripes - toEnd;
      AbsorbSplit(c, acc0, soFar, data, toEnd, after);
      AbsorbInBlock(c, acc0, soFar, data, toEnd);
      acc := Accumulate(c, acc0, data, soFar * CONSUME_RATE, toEnd);
      acc := c.mix.scramble(acc, c.Limit());
      AbsorbInBlock(c, acc, 0, data[64 * toEnd..], after);
      acc := Accumulate(c, acc, data[64 * toEnd..], 0, after);
      soFar' := after;
    } else {
      AbsorbInBlock(c, acc0, soFar, data, nbStripes);
      acc := Accumulate(c, acc0, data, soFar * CONSUME_RATE, nbStripes);
      soFar' := soFar + nbStripes;
    }
  }

  /** The accumulators have absorbed `q` buffers of the input. */
  ghost predicate Absorbed(c: Config, fed: Bytes, q: nat, acc: Acc, soFar: nat) {
    c.Valid() && 256 * q <= |fed| && (acc, soFar) == Absorb(c, c.mix.init, 0, fed, 4 * q)
  }

  /** The buffer starts with the input not yet absorbed and ends with the last bytes that were. */
  ghost predicate Buffered(fed: Bytes, q: nat, buffer: Bytes, size: nat) {
    && |buffer| == 256 && size <= 256 && |fed| == 256 * q + size && (fed != [] ==> size > 0)
    && buffer[..size] == fed[256 * q..]
    && (q > 0 ==> forall i :: size <= i < 256 && 192 <= i ==> buffer[i] == fed[256 * q - 256 + i])
  }

  lemma {:induction false} AbsorbedMore(c: Config, fed: Bytes, more: Bytes, q: nat, acc: Acc, soFar: nat)
    requires Absorbed(c, fed, q, acc, soFar)
    ensures Absorbed(c, fed + more, q, acc, soFar) && soFar < c.StripesPerBlock()
  {
    assert (fed + more)[..64 * (4 * q)] == fed[..64 * (4 * q)];
    AbsorbPrefix(c, c.mix.init, 0, fed, fed + more, 4 * q);
    BlockIsLong(c);
    PlaceInBlock(c, c.mix.init, 0, fed, 4 * q);
  }

  /** One more buffer. */
  lemma {:induction false} AbsorbedNext(c: Config, fed: Bytes, q: nat, acc: Acc, soFar: nat, chunk: Bytes)
    requires Absorbed(c, fed, q, acc, soFar) && 256 * q + 256 <= |fed| && |chunk| >= 256
    requires chunk[..256] == fed[256 * q..256 * q + 256]
    ensures var (a, p) := Absorb(c, acc, soFar, chunk, 4);
      Absorbed(c, fed, q + 1, a, p)
  {
    AbsorbSplit(c, c.mix.init, 0, fed, 4 * q, 4);
    assert fed[64 * (4 * q)..][..256] == fed[256 * q..256 * q + 256];
    AbsorbPrefix(c, acc, soFar, chunk, fed[64 * (4 * q)..], 4);
  }

  class State {
    const c: Config
    const buffer: array<nat>
    var acc: Acc
    var bufferedSize: nat
    var nbStripesSoFar: nat
    var totalLen: nat
    ghost var fed: Bytes
    ghost var q: nat

    ghost predicate Valid()
      reads this, buffer
    {
      && buffer.Length == 256 && totalLen == |fed|
      && Absorbed(c, fed, q, acc, nbStripesSoFar)
      && Buffered(fed, q, buffer[..], bufferedSize)
    }

    /** A reset state: nothing has been fed. */
    constructor (c: Config)
      requires c.Valid()
      ensures Valid() && fresh(buffer) && fed == [] && this.c == c
    {
      this.c := c;
      buffer := new nat[256](_ => 0);
      acc, bufferedSize, nbStripesSoFar, totalLen := c.mix.init, 0, 0, 0;
      fed, q := [], 0;
    }

    method CopyIn(at: nat, data: Bytes)
      requires at + |data| <= buffer.Length
      modifies buffer
      ensures buffer[..] == old(buffer[..at]) + data + old(buffer[at + |data|..])
    {
      for i := 0 to |data|
        invariant buffer[..] == old(buffer[..at]) + data[..i] + old(buffer[at + i..])
      {
        buffer[at + i] := data[i];
        assert buffer[..] == old(buffer[..at]) + data[..i + 1] + old(buffer[at + i + 1..]);
      }
      assert data[..|data|] == data;
    }

    /** Absorbs the full buffer or 256 bytes of input. */
    method Consume(data: Bytes)
      requires Absorbed(c, fed, q, acc, nbStripesSoFar) && |data| >= 256 && 256 * q + 256 <= |fed|
      requires data[..256] == fed[256 * q..256 * q + 256]
      modifies `acc, `nbStripesSoFar, `q
      ensures Absorbed(c, fed, q, acc, nbStripesSoFar) && q == old(q) + 1
    {
      AbsorbedMore(c, fed, [], q, acc, nbStripesSoFar);
      AbsorbedNext(c, fed, q, acc, nbStripesSoFar, data);
      BlockIsLong(c);
      acc, nbStripesSoFar := ConsumeStripes(c, acc, nbStripesSoFar, data, 4);
      q := q + 1;
    }

    /** Feeds more input. */
    method Update(input: Bytes)
      requires Valid()
      modifies this, buffer
      ensures Valid() && fed == old(fed) + input
    {
      totalLen := totalLen + |input|;
      AbsorbedMore(c, fed, input, q, acc, nbStripesSoFar);
      ghost var fed0 := fed;
      fed := fed + input;
      if bufferedSize + |input| <= BUFFER {
        Append(input, fed0);
        return;
      }
      var pos := 0;
      if bufferedSize > 0 {
        pos := Fill(input, fed0);
      }
      if |input| - pos > BUFFER {
        pos := ConsumeInput(input, pos, fed0);
      }
      Keep(input, pos, fed0);
    }

    /** The input fits: it is only buffered. */
    method Append(input: Bytes, ghost fed0: Bytes)
      requires buffer.Length == 256 && Buffered(fed0, q, buffer[..], bufferedSize)
      requires bufferedSize + |input| <= 256 && fed == fed0 + input
      modifies `bufferedSize, buffer
      ensures Buffered(fed, q, buffer[..], bufferedSize)
    {
      ghost var old_ := buffer[..];
      CopyIn(bufferedSize, input);
      AppendKeeps(fed0, input, q, old_, buffer[..], bufferedSize);
      bufferedSize := bufferedSize + |input|;
    }

    /** Completes a started buffer and absorbs it. */
    method Fill(input: Bytes, ghost fed0: Bytes) returns (pos: nat)
      requires buffer.Length == 256 && Absorbed(c, fed, q, acc, nbStripesSoFar) && fed == fed0 + input
      requires Buffered(fed0, q, buffer[..], bufferedSize) && bufferedSize + |input| > 256
      modifies `acc, `nbStripesSoFar, `q, `bufferedSize, buffer
      ensures Absorbed(c, fed, q, acc, nbStripesSoFar) && pos < |input| && 256 * q == |fed0| + pos
      ensures TailOk(fed, q, buffer[..])
    {
      pos := BUFFER - bufferedSize;
      ghost var b0 := buffer[..];
      CopyIn(bufferedSize, input[..pos]);
      FilledBuffer(fed0, input, q, b0, bufferedSize);
      assert buffer[..] == b0[..bufferedSize] + input[..pos];
      assert buffer[..][..256] == buffer[..];
      Consume(buffer[..]);
      bufferedSize := 0;
    }

    /** Absorbs the input by whole buffers and saves its last 64 absorbed bytes. */
    method ConsumeInput(input: Bytes, pos0: nat, ghost fed0: Bytes) returns (pos: nat)
      requires buffer.Length == 256 && Absorbed(c, fed, q, acc, nbStripesSoFar) && fed == fed0 + input
      requires pos0 + 256 < |input| && 256 * q == |fed0| + pos0
      modifies `acc, `nbStripesSoFar, `q, buffer
      ensures Absorbed(c, fed, q, acc, nbStripesSoFar) && pos < |input| <= pos + 256 && 256 * q == |fed0| + pos
      ensures TailOk(fed, q, buffer[..])
    {
      pos := pos0;
      while |input| - pos > BUFFER
        invariant Absorbed(c, fed, q, acc, nbStripesSoFar) && fed == fed0 + input
        invariant pos < |input| && 256 * q == |fed0| + pos
        invariant pos == pos0 || pos >= pos0 + 256
      {
        assert input[pos..][..256] == fed[256 * q..256 * q + 256];
        Consume(input[pos..]);
        pos := pos + BUFFER;
      }
      ghost var b0 := buffer[..];
      CopyIn(BUFFER - STRIPE, input[pos - STRIPE..pos]);
      TailSaved(fed0, input, pos, q, b0, buffer[..]);
    }

    /** Buffers what is left; there is always something left. */
    method Keep(input: Bytes, pos: nat, ghost fed0: Bytes)
      requires buffer.Length == 256 && fed == fed0 + input && pos < |input| <= pos + 256 && 256 * q == |fed0| + pos
      requires TailOk(fed, q, buffer[..])
      modifies `bufferedSize, buffer
      ensures Buffered(fed, q, buffer[..], bufferedSize)
    {
      ghost var b0 := buffer[..];
      CopyIn(0, input[pos..]);
      bufferedSize := |input| - pos;
      KeptTail(fed0, input, pos, q, b0, buffer[..]);
    }

    /** The accumulators of a long input, on a copy. */
    method DigestLong() returns (a: Acc)
      requires Valid() && totalLen > MIDSIZE_MAX
      ensures a == LongAcc(c, fed)
    {
      AbsorbedMore(c, fed, [], q, acc, nbStripesSoFar);
      if bufferedSize >= STRIPE {
        var nbStripes := (bufferedSize - 1) / STRIPE;
        var soFar;
        BlockIsLong(c);
        a, soFar := ConsumeStripes(c, acc, nbStripesSoFar, buffer[..], nbStripes);
        LongFromBuffer(c, fed, q, acc, nbStripesSoFar, buffer[..], bufferedSize);
        a := c.mix.acc512(a, buffer[bufferedSize - STRIPE..bufferedSize], c.Limit() - LASTACC_START);
      } else {
        var catchup := STRIPE - bufferedSize;
        var lastStripe := buffer[BUFFER - catchup..] + buffer[..bufferedSize];
        LongFromTail(c, fed, q, acc, nbStripesSoFar, buffer[..], bufferedSize);
        assert lastStripe == buffer[..][256 - (64 - bufferedSize)..] + buffer[..][..bufferedSize];
        a := c.mix.acc512(acc, lastStripe, c.Limit() - LASTACC_START);
      }
    }

    /** The hash of everything fed, however it was split. */
    method Digest() returns (h: nat)
      requires Valid()
      ensures h == Hash(c, fed)
    {
      if totalLen > MIDSIZE_MAX {
        var a := DigestLong();
        return c.mix.merge(a, totalLen);
      }
      assert q == 0 && buffer[..totalLen] == fed;
      return c.mix.short(buffer[..totalLen]);
    }
  }

  /** The last 64 bytes of the buffer are the last that were absorbed. */
  ghost predicate TailOk(fed: Bytes, q: nat, b: Bytes) {
    |b| == 256 && 256 * q <= |fed| && (q > 0 ==> forall i :: 192 <= i < 256 ==> b[i] == fed[256 * q - 256 + i])
  }

  lemma {:induction false} FilledBuffer(fed0: Bytes, input: Bytes, q: nat, b: Bytes, size: nat)
    requires Buffered(fed0, q, b, size) && size + |input| > 256
    ensures b[..size] + input[..256 - size] == (fed0 + input)[256 * q..256 * q + 256]
  {
    var l, r := b[..size] + input[..256 - size], (fed0 + input)[256 * q..256 * q + 256];
    forall k | 0 <= k < 256 ensures l[k] == r[k] {
      if k < size { assert l[k] == b[..size][k] == fed0[256 * q..][k]; }
    }
  }

  lemma {:induction false} TailSaved(fed0: Bytes, input: Bytes, pos: nat, q: nat, b0: Bytes, b: Bytes)
    requires 64 <= pos <= |input| && 256 * q == |fed0| + pos && |b0| == 256
    requires b == b0[..192] + input[pos - 64..pos] + b0[256..]
    ensures TailOk(fed0 + input, q, b)
  {
    forall i | 192 <= i < 256 && q > 0 ensures b[i] == (fed0 + input)[256 * q - 256 + i] {
      assert b[i] == input[pos - 64..pos][i - 192] == input[pos - 256 + i];
    }
  }

  lemma {:induction false} KeptTail(fed0: Bytes, input: Bytes, pos: nat, q: nat, b0: Bytes, b: Bytes)
    requires pos < |input| <= pos + 256 && 256 * q == |fed0| + pos && TailOk(fed0 + input, q, b0)
    requires b == b0[..0] + input[pos..] + b0[|input| - pos..]
    ensures Buffered(fed0 + input, q, b, |input| - pos)
  {
    var fed, size := fed0 + input, |input| - pos;
    assert b[..size] == input[pos..] == fed[256 * q..];
    forall i | size <= i < 256 && 192 <= i && q > 0 ensures b[i] == fed[256 * q - 256 + i] {
      assert b[i] == b0[i];
    }
  }

  lemma {:induction false} StripesLeft(fed: Bytes, q: nat, size: nat)
    requires |fed| == 256 * q + size && size > 0
    ensures (|fed| - 1) / 64 == 4 * q + (size - 1) / 64 && 64 * (4 * q + (size - 1) / 64) <= |fed|
  {
  }

  lemma {:induction false} SameStripes(fed: Bytes, q: nat, b: Bytes, size: nat, n: nat)
    requires Buffered(fed, q, b, size) && 64 * n <= size
    ensures 64 * n <= |fed[64 * (4 * q)..]| && b[..64 * n] == fed[64 * (4 * q)..][..64 * n]
  {
    assert b[..64 * n] == b[..size][..64 * n];
    assert fed[64 * (4 * q)..] == fed[256 * q..];
  }

  /** With at least a stripe buffered, the buffer holds the remaining stripes and the last one. */
  lemma {:induction false} LongFromBuffer(c: Config, fed: Bytes, q: nat, acc: Acc, soFar: nat, b: Bytes, size: nat)
    requires Absorbed(c, fed, q, acc, soFar) && Buffered(fed, q, b, size) && size >= 64 && |fed| > MIDSIZE_MAX
    ensures 64 * ((size - 1) / 64) <= |b|
    ensures LongAcc(c, fed) ==
      c.mix.acc512(Absorb(c, acc, soFar, b, (size - 1) / 64).0, b[size - 64..size], c.Limit() - LASTACC_START)
  {
    var n := (size - 1) / 64;
    StripesLeft(fed, q, size);
    AbsorbSplit(c, c.mix.init, 0, fed, 4 * q, n);
    SameStripes(fed, q, b, size, n);
    AbsorbPrefix(c, acc, soFar, b, fed[64 * (4 * q)..], n);
    assert b[size - 64..size] == b[..size][size - 64..] == fed[256 * q..][size - 64..] == fed[|fed| - 64..];
  }

  /** With less than a stripe buffered, the last stripe begins at the end of the buffer. */
  lemma {:induction false} LongFromTail(c: Config, fed: Bytes, q: nat, acc: Acc, soFar: nat, b: Bytes, size: nat)
    requires Absorbed(c, fed, q, acc, soFar) && Buffered(fed, q, b, size) && size < 64 && |fed| > MIDSIZE_MAX
    ensures LongAcc(c, fed) == c.mix.acc512(acc, b[256 - (64 - size)..] + b[..size], c.Limit() - LASTACC_START)
  {
    StripesLeft(fed, q, size);
    LastStripe(fed, q, b, size);
  }

  lemma {:induction false} LastStripe(fed: Bytes, q: nat, b: Bytes, size: nat)
    requires Buffered(fed, q, b, size) && 0 < size < 64 && q > 0
    ensures b[256 - (64 - size)..] + b[..size] == fed[|fed| - 64..]
  {
    var l, r := b[256 - (64 - size)..] + b[..size], fed[|fed| - 64..];
    forall k | 0 <= k < 64 ensures l[k] == r[k] {
      if k < 64 - size {
        assert l[k] == b[192 + size + k] == fed[256 * q - 256 + (192 + size + k)];
      } else {
        assert l[k] == b[..size][k - (64 - size)] == fed[256 * q..][k - (64 - size)];
      }
    }
  }

  lemma {:induction false} AppendKeeps(fed0: Bytes, input: Bytes, q: nat, b0: Bytes, b: Bytes, size: nat)
    requires Buffered(fed0, q, b0, size) && size + |input| <= 256 && b == b0[..size] + input + b0[size + |input|..]
    ensures Buffered(fed0 + input, q, b, size + |input|)
  {
    var fed := fed0 + input;
    assert fed[256 * q..] == fed0[256 * q..] + input;
    assert b[..size + |input|] == b0[..size] + input;
    forall i | size + |input| <= i < 256 && 192 <= i && q > 0 ensures b[i] == fed[256 * q - 256 + i] {
      assert b[i] == b0[i];
    }
  }

  // ---------------------------------------------------------------------------
  // Any split
  // ---------------------------------------------------------------------------

  method OneShot(c: Config, input: Bytes) returns (h: nat)
    requires c.Valid()
    ensures h == Hash(c, input)
  {
    if |input| > MIDSIZE_MAX {
      var acc := HashLong(c, input);
      return c.mix.merge(acc, |input|);
    }
    return c.mix.short(input);
  }

  /** Feeding the pieces one by one, empty ones included, gives the hash of the whole. */
  method Streamed(c: Config, pieces: seq<Bytes>) returns (h: nat)
    requires c.Valid()
    ensures h == Hash(c, Joined(pieces))
  {
    var state := new State(c);
    for i := 0 to |pieces|
      invariant state.Valid() && fresh(state) && fresh(state.buffer) && state.c == c && state.fed == Joined(pieces[..i])
    {
      state.Update(pieces[i]);
      assert pieces[..i + 1][..i] == pieces[..i];
    }
    assert pieces[..|pieces|] == pieces;
    h := state.Digest();
  }
}
