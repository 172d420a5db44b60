/**
 From a solved search to bytes of the input: the bytes that are recorded for a solving vector of
 64-bit values solve the constraints themselves.
 */
module SolvedBytes {
  import opened Arithmetic
  import opened Basics
  import R = Results
  import G = Search

  /** The values of a group as one number, modulo 256 to its length. */
  ghost function GroupNumber(m: map<nat, nat>, shape: map<nat, nat>, g: nat): nat
    requires g in shape
  {
    R.Sum(R.Window(m, g, shape[g])) % R.Pow256(shape[g])
  }

  ghost predicate SameGroup(m: map<nat, nat>, m': map<nat, nat>, shape: map<nat, nat>, g: nat) {
    R.IsStart(shape, g) ==> GroupNumber(m, shape, g) == GroupNumber(m', shape, g)
  }

  /** Two value vectors that give every group the same number. */
  ghost predicate SameGroups(offsets: seq<nat>, shape: map<nat, nat>, v: seq<G.U64>, w: seq<G.U64>) {
    && |v| == |w| == |offsets|
    && forall g :: g in offsets ==> SameGroup(R.ValueMap(offsets, v), R.ValueMap(offsets, w), shape, g)
  }

  /** A constraint function reads a group only as a number of its bytes. */
  ghost predicate ReadsGroups(c: G.Cons, offsets: seq<nat>, shape: map<nat, nat>) {
    forall v: seq<G.U64>, w: seq<G.U64> :: SameGroups(offsets, shape, v, w) ==> c.fn(v) == c.fn(w)
  }

  ghost predicate AllReadGroups(p: G.Problem, offsets: seq<nat>, shape: map<nat, nat>) {
    forall i :: 0 <= i < |p.cons| ==> ReadsGroups(p.cons[i], offsets, shape)
  }

  /** The values a solution gives the slots. */
  function ByteValues(offsets: seq<nat>, sol: R.Solution): seq<G.U64> {
    seq(|offsets|, i requires 0 <= i < |offsets| =>
      if offsets[i] in sol && sol[offsets[i]] < 256 then sol[offsets[i]] else 0)
  }

  lemma {:induction false} SameDistance(p: G.Problem, offsets: seq<nat>, shape: map<nat, nat>, v: seq<G.U64>,
      w: seq<G.U64>, n: nat)
    requires n <= |p.cons| && AllReadGroups(p, offsets, shape) && SameGroups(offsets, shape, v, w)
    ensures G.DistanceUpTo(p, v, n) == G.DistanceUpTo(p, w, n)
  {
    if n > 0 {
      SameDistance(p, offsets, shape, v, w, n - 1);
      assert ReadsGroups(p.cons[n - 1], offsets, shape);
    }
  }

  /** Read back slot by slot, the bytes are the solution. */
  lemma {:induction false} BytesMap(offsets: seq<nat>, values: seq<nat>, sol: R.Solution, o: nat)
    requires |values| == |offsets| && forall i :: 0 <= i < |offsets| ==>
      offsets[i] in sol && values[i] == sol[offsets[i]]
    requires o in R.ValueMap(offsets, values)
    ensures o in sol && R.ValueMap(offsets, values)[o] == sol[o]
  {
    var n := |offsets| - 1;
    if o in R.ValueMap(offsets[..n], values[..n]) { BytesMap(offsets[..n], values[..n], sol, o); }
  }

  lemma {:induction false} SameWindow(offsets: seq<nat>, sol: R.Solution, g: nat, len: nat)
    requires sol.Keys == Elements(offsets) && R.AllBytes(sol)
    ensures R.Window(R.ValueMap(offsets, ByteValues(offsets, sol)), g, len) == R.Window(sol, g, len)
  {
    var values := ByteValues(offsets, sol);
    R.ValueMapKeys(offsets, values);
    forall i | 0 <= i < |offsets| ensures offsets[i] in sol && values[i] == sol[offsets[i]] {
      assert offsets[i] in Elements(offsets);
    }
    forall o | o in R.ValueMap(offsets, values) ensures o in sol && R.ValueMap(offsets, values)[o] == sol[o] {
      BytesMap(offsets, values, sol, o);
    }
  }

  lemma {:induction false} BytesKeepGroup(offsets: seq<nat>, shape: map<nat, nat>, v: seq<G.U64>, sol: R.Solution,
      g: nat)
    requires |v| == |offsets| && R.Converts(offsets, shape, v, sol) && g in offsets
    ensures SameGroup(R.ValueMap(offsets, v), R.ValueMap(offsets, ByteValues(offsets, sol)), shape, g)
  {
    if R.IsStart(shape, g) {
      var m, len := R.ValueMap(offsets, v), shape[g];
      R.ValueMapKeys(offsets, v);
      assert g in Elements(offsets);
      assert R.GroupOk(m, sol, g, len);
      SameWindow(offsets, sol, g, len);
      SmallMod(R.Sum(R.Window(m, g, len)) % R.Pow256(len), R.Pow256(len));
    }
  }

  /**
   When constraint functions read groups as numbers, the bytes recorded for a solving vector have
   distance 0 themselves: every constraint, negated where the search flips it, holds on them.
   */
  lemma {:induction false} RecordedBytesSolve(p: G.Problem, offsets: seq<nat>, shape: map<nat, nat>, v: seq<G.U64>,
      sol: R.Solution)
    requires |v| == |offsets| && R.Converts(offsets, shape, v, sol) && AllReadGroups(p, offsets, shape)
    requires G.Distance(p, v) == 0
    ensures G.Distance(p, ByteValues(offsets, sol)) == 0
    ensures forall i :: 0 <= i < |p.cons| ==> G.Wanted(p, ByteValues(offsets, sol), i)
  {
    var w := ByteValues(offsets, sol);
    forall g | g in offsets ensures SameGroup(R.ValueMap(offsets, v), R.ValueMap(offsets, w), shape, g) {
      BytesKeepGroup(offsets, shape, v, sol, g);
    }
    SameDistance(p, offsets, shape, v, w, |p.cons|);
    G.DistanceUpToZero(p, w, |p.cons|);
  }

  /** The recording the search calls, on vectors of the right length. */
  ghost predicate RecordsBytes(record: seq<G.U64> -> R.Solution, offsets: seq<nat>, shape: map<nat, nat>) {
    forall v: seq<G.U64> :: |v| == |offsets| ==> R.Converts(offsets, shape, v, record(v))
  }

  /** What a search keeps for the first solving vector it records are bytes that solve. */
  lemma {:induction false} KeptBytesSolve(p: G.Problem, offsets: seq<nat>, shape: map<nat, nat>,
      record: seq<G.U64> -> R.Solution, recorded: seq<seq<G.U64>>)
    requires RecordsBytes(record, offsets, shape) && AllReadGroups(p, offsets, shape)
    requires recorded != [] && G.AllSolve(p, |offsets|, recorded)
    ensures var kept := G.Kept([], recorded, record); |kept| == 1 && G.Distance(p, ByteValues(offsets, kept[0])) == 0
  {
    RecordedBytesSolve(p, offsets, shape, recorded[0], record(recorded[0]));
  }
}
