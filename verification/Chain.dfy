/** Singly linked chains through a `next` array, as both lock-free lists keep them. */
module Chain {
  import opened Basics

  ghost predicate Linked(next: seq<Option<nat>>, list: seq<nat>, i: nat)
    requires i < |list|
  {
    list[i] < |next| && next[list[i]] == if i + 1 < |list| then Some(list[i + 1]) else None
  }

  /** From `head`, following `next` visits exactly `list`. */
  ghost predicate IsChain(head: Option<nat>, next: seq<Option<nat>>, list: seq<nat>) {
    && head == (if list == [] then None else Some(list[0]))
    && Distinct(list)
    && (forall i :: 0 <= i < |list| ==> Linked(next, list, i))
  }

  lemma {:induction false} Pop(head: Option<nat>, next: seq<Option<nat>>, list: seq<nat>)
    requires IsChain(head, next, list) && list != []
    ensures list[0] < |next| && IsChain(next[list[0]], next, list[1..])
    ensures forall m :: m in list[1..] <==> m in list && m != list[0]
  {
    assert Linked(next, list, 0);
    forall i | 0 <= i < |list| - 1 ensures Linked(next, list[1..], i) { assert Linked(next, list, i + 1); }
    assert list == [list[0]] + list[1..];
  }

  lemma {:induction false} Push(head: Option<nat>, next: seq<Option<nat>>, list: seq<nat>, n: nat)
    requires IsChain(head, next, list) && n !in list && n < |next| && next[n] == head
    ensures IsChain(Some(n), next, [n] + list)
  {
    var list' := [n] + list;
    forall i | 0 <= i < |list'| ensures Linked(next, list', i) {
      if i > 0 { assert Linked(next, list, i - 1); }
    }
  }

  lemma {:induction false} Frame(head: Option<nat>, next: seq<Option<nat>>, next': seq<Option<nat>>, list: seq<nat>)
    requires IsChain(head, next, list)
    requires |next| <= |next'|
    requires forall m :: 0 <= m < |next| && m in list ==> next'[m] == next[m]
    ensures IsChain(head, next', list)
  {
    forall i | 0 <= i < |list| ensures Linked(next', list, i) { assert Linked(next, list, i); }
  }

  /** The node reached from `head` by following `next` `i` times. */
  function Walk(head: Option<nat>, next: seq<Option<nat>>, i: nat): Option<nat> {
    if i == 0 then head
    else
      var p := Walk(head, next, i - 1);
      if p.Some? && p.value < |next| then next[p.value] else None
  }

  ghost predicate Reaches(head: Option<nat>, next: seq<Option<nat>>, m: nat) {
    exists i: nat :: Walk(head, next, i) == Some(m)
  }

  lemma {:induction false} WalkIsList(head: Option<nat>, next: seq<Option<nat>>, list: seq<nat>, i: nat)
    requires IsChain(head, next, list)
    ensures Walk(head, next, i) == if i < |list| then Some(list[i]) else None
  {
    if i > 0 {
      WalkIsList(head, next, list, i - 1);
      if i <= |list| {
        assert Linked(next, list, i - 1);
      }
    }
  }

  lemma {:induction false} ReachesIff(head: Option<nat>, next: seq<Option<nat>>, list: seq<nat>, m: nat)
    requires IsChain(head, next, list)
    ensures Reaches(head, next, m) <==> m in list
  {
    if Reaches(head, next, m) {
      var i: nat :| Walk(head, next, i) == Some(m);
      WalkIsList(head, next, list, i);
    }
    if m in list {
      var i :| 0 <= i < |list| && list[i] == m;
      WalkIsList(head, next, list, i);
    }
  }
}
