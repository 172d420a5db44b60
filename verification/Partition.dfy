/**
 The equivalence relation generated by a history of joins.  A join makes all offsets of a set
 equivalent; two offsets are equivalent when every labelling that is constant on each joined
 set gives them the same label, that is, when the least equivalence containing the joins
 relates them.
 */
module Partition {

  ghost predicate Respects(lab: nat -> nat, joined: seq<set<nat>>) {
    forall i, x, y :: 0 <= i < |joined| && x in joined[i] && y in joined[i] ==> lab(x) == lab(y)
  }

  ghost predicate Same(joined: seq<set<nat>>, x: nat, y: nat) {
    forall lab: nat -> nat :: Respects(lab, joined) ==> lab(x) == lab(y)
  }

  lemma {:induction false} SameIsEquivalence(joined: seq<set<nat>>, x: nat, y: nat, z: nat)
    ensures Same(joined, x, x)
    ensures Same(joined, x, y) ==> Same(joined, y, x)
    ensures Same(joined, x, y) && Same(joined, y, z) ==> Same(joined, x, z)
  {
  }

  lemma {:induction false} JoinedAreSame(joined: seq<set<nat>>, i: nat, x: nat, y: nat)
    requires i < |joined| && x in joined[i] && y in joined[i]
    ensures Same(joined, x, y)
  {
  }

  lemma {:induction false} MoreJoins(joined: seq<set<nat>>, extra: seq<set<nat>>, x: nat, y: nat)
    requires Same(joined, x, y)
    ensures Same(joined + extra, x, y)
  {
    forall lab: nat -> nat | Respects(lab, joined + extra) ensures lab(x) == lab(y) {
      forall i, u, v | 0 <= i < |joined| && u in joined[i] && v in joined[i] ensures lab(u) == lab(v) {
        assert (joined + extra)[i] == joined[i];
      }
      assert Respects(lab, joined);
    }
  }

  /** `x` is linked to some offset of `s`. */
  ghost predicate Touches(joined: seq<set<nat>>, s: set<nat>, x: nat) {
    exists d :: d in s && Same(joined, d, x)
  }

  /** What one more join adds: exactly the classes it touches become one. */
  lemma {:induction false} JoinIs(joined: seq<set<nat>>, s: set<nat>, x: nat, y: nat)
    ensures Same(joined + [s], x, y) <==> Same(joined, x, y) || (Touches(joined, s, x) && Touches(joined, s, y))
  {
    var more := joined + [s];
    if Same(joined, x, y) {
      MoreJoins(joined, [s], x, y);
    }
    if Touches(joined, s, x) && Touches(joined, s, y) {
      var d :| d in s && Same(joined, d, x);
      var e :| e in s && Same(joined, e, y);
      MoreJoins(joined, [s], d, x);
      MoreJoins(joined, [s], e, y);
      assert more[|joined|] == s;
      JoinedAreSame(more, |joined|, d, e);
      SameIsEquivalence(more, x, d, e);
      SameIsEquivalence(more, d, x, e);
      SameIsEquivalence(more, x, e, y);
    }
    if Same(more, x, y) && !Same(joined, x, y) {
      JoinSeparates(joined, s, x, y);
      JoinSeparates(joined, s, y, x);
      SameIsEquivalence(more, x, y, x);
      SameIsEquivalence(joined, y, x, y);
    }
  }

  /** If the join relates `x` to something new then it touches the class of `x`. */
  lemma {:induction false} JoinSeparates(joined: seq<set<nat>>, s: set<nat>, x: nat, y: nat)
    requires Same(joined + [s], x, y) && !Same(joined, x, y)
    ensures Touches(joined, s, x)
  {
    if !Touches(joined, s, x) {
      var lab: nat -> nat := (z: nat) => if Same(joined, x, z) then 1 else 0;
      var more := joined + [s];
      forall i, u, v | 0 <= i < |more| && u in more[i] && v in more[i] ensures lab(u) == lab(v) {
        if i < |joined| {
          JoinedAreSame(joined, i, u, v);
          SameIsEquivalence(joined, x, u, v);
          SameIsEquivalence(joined, u, v, u);
          SameIsEquivalence(joined, x, v, u);
        } else {
          SameIsEquivalence(joined, x, u, u);
          SameIsEquivalence(joined, x, v, v);
          assert !Same(joined, x, u) && !Same(joined, x, v);
        }
      }
      assert Respects(lab, more);
      SameIsEquivalence(joined, x, x, x);
      assert false;
    }
  }

  /** Two histories that generate the same equivalence, whatever is joined afterwards. */
  ghost predicate Equivalent(j1: seq<set<nat>>, j2: seq<set<nat>>) {
    forall lab: nat -> nat :: Respects(lab, j1) <==> Respects(lab, j2)
  }

  lemma {:induction false} RespectsAppend(lab: nat -> nat, joined: seq<set<nat>>, s: set<nat>)
    ensures Respects(lab, joined + [s]) <==> Respects(lab, joined) && Respects(lab, [s])
  {
    var more := joined + [s];
    if Respects(lab, more) {
      forall i, x, y | 0 <= i < |joined| && x in joined[i] && y in joined[i] ensures lab(x) == lab(y) {
        assert more[i] == joined[i];
      }
      forall x, y | x in s && y in s ensures lab(x) == lab(y) {
        assert more[|joined|] == s;
      }
    }
    if Respects(lab, joined) && Respects(lab, [s]) {
      forall i, x, y | 0 <= i < |more| && x in more[i] && y in more[i] ensures lab(x) == lab(y) {
        assert i == |joined| ==> x in [s][0] && y in [s][0];
      }
    }
  }

  lemma {:induction false} JoinNothing(pairs: seq<set<nat>>, joined: seq<set<nat>>)
    requires Equivalent(pairs, joined)
    ensures Equivalent(pairs, joined + [{}])
  {
    forall lab: nat -> nat ensures Respects(lab, pairs) <==> Respects(lab, joined + [{}]) {
      RespectsAppend(lab, joined, {});
    }
  }

  lemma {:induction false} EquivalentSame(j1: seq<set<nat>>, j2: seq<set<nat>>, x: nat, y: nat)
    requires Equivalent(j1, j2)
    ensures Same(j1, x, y) <==> Same(j2, x, y)
  {
  }

  /** Joining a set is joining each of its members with one of them. */
  lemma {:induction false} JoinStep(pairs: seq<set<nat>>, joined: seq<set<nat>>, s: set<nat>, v0: nat, v: nat)
    requires Equivalent(pairs, joined + [s]) && (v0 in s || (s == {} && v0 == v))
    ensures Equivalent(pairs + [{v, v0}], joined + [s + {v}])
  {
    forall lab: nat -> nat
      ensures Respects(lab, pairs + [{v, v0}]) <==> Respects(lab, joined + [s + {v}])
    {
      RespectsAppend(lab, pairs, {v, v0});
      RespectsAppend(lab, joined, s);
      RespectsAppend(lab, joined, s + {v});
      if Respects(lab, [s]) && Respects(lab, [{v, v0}]) {
        assert forall x :: x in s ==> x in [s][0];
        assert v in [{v, v0}][0] && v0 in [{v, v0}][0];
        assert lab(v) == lab(v0);
        assert forall x :: x in s ==> lab(x) == lab(v0);
      }
      if Respects(lab, [s + {v}]) {
        assert forall x :: x in s + {v} ==> x in [s + {v}][0];
      }
    }
  }
}
