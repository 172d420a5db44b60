/**
 The vector-based union-find with path splitting, union by rank and a circular `links` list
 through every class.

 `rep` (each element's representative), `cycles` (for each representative, the members of its
 class in the order of the links) and `joined` (the unions done) are ghost.
 */
module UnionFind {
  import opened Arithmetic
  import opened Basics
  import opened Partition

  const MAX_RANK: nat := 255  // ranks are u8

  function SaturatingInc(rank: nat): nat { if rank < MAX_RANK then rank + 1 else MAX_RANK }

  // ---------------------------------------------------------------------------
  // Parents
  // ---------------------------------------------------------------------------

  /** Parents are in range, keep the representative and have a higher rank; roots represent themselves. */
  ghost predicate ParentOk(parent: seq<nat>, rank: seq<nat>, rep: seq<nat>, i: nat)
    requires |parent| == |rank| == |rep| && i < |parent|
  {
    && parent[i] < |parent| && rep[i] < |parent|
    && rep[parent[i]] == rep[i]
    && (parent[i] == i <==> rep[i] == i)
    && (parent[i] != i ==> rank[i] < rank[parent[i]])
    && rep[rep[i]] == rep[i]
    && rank[i] <= MAX_RANK
  }

  ghost predicate Forest(parent: seq<nat>, rank: seq<nat>, rep: seq<nat>) {
    && |parent| == |rank| == |rep|
    && forall i :: 0 <= i < |parent| ==> ParentOk(parent, rank, rep, i)
  }

  /** One step of path splitting: the grandparent becomes the parent, and no representative changes. */
  lemma {:induction false} SplitKeepsForest(parent: seq<nat>, rank: seq<nat>, rep: seq<nat>, e: nat)
    requires Forest(parent, rank, rep) && e < |parent|
    ensures parent[e] < |parent| && Forest(parent[e := parent[parent[e]]], rank, rep)
  {
    var p := parent[e];
    assert ParentOk(parent, rank, rep, e) && ParentOk(parent, rank, rep, p);
    var g := parent[p];
    assert ParentOk(parent, rank, rep, g);
    var parent' := parent[e := g];
    forall i | 0 <= i < |parent'| ensures ParentOk(parent', rank, rep, i) {
      assert ParentOk(parent, rank, rep, i);
    }
  }

  /** Ranks rise strictly along every path to the representative. */
  lemma {:induction false} RankRises(parent: seq<nat>, rank: seq<nat>, rep: seq<nat>, e: nat)
    requires Forest(parent, rank, rep) && e < |parent|
    ensures rep[e] < |parent| && (rep[e] == e || rank[e] < rank[rep[e]])
    decreases MAX_RANK - rank[e]
  {
    assert ParentOk(parent, rank, rep, e);
    if parent[e] != e {
      assert ParentOk(parent, rank, rep, parent[e]);
      RankRises(parent, rank, rep, parent[e]);
    }
  }

  /** Setting a parent straight to the representative. */
  lemma {:induction false} ForceKeepsForest(parent: seq<nat>, rank: seq<nat>, rep: seq<nat>, e: nat)
    requires Forest(parent, rank, rep) && e < |parent|
    ensures Forest(parent[e := rep[e]], rank, rep)
  {
    var parent' := parent[e := rep[e]];
    RankRises(parent, rank, rep, e);
    forall i | 0 <= i < |parent'| ensures ParentOk(parent', rank, rep, i) {
      assert ParentOk(parent, rank, rep, i) && ParentOk(parent, rank, rep, rep[i]);
    }
  }

  /** Every element represented by `a` or `b` becomes represented by `r`. */
  ghost function Merge(rep: seq<nat>, a: nat, b: nat, r: nat): seq<nat> {
    seq(|rep|, i requires 0 <= i < |rep| => if rep[i] == a || rep[i] == b then r else rep[i])
  }

  lemma {:induction false} LinkKeepsForest(parent: seq<nat>, rank: seq<nat>, rep: seq<nat>, child: nat, root: nat,
      newRank: nat)
    requires Forest(parent, rank, rep) && child < |parent| && root < |parent| && child != root
    requires rep[child] == child && rep[root] == root
    requires rank[root] <= newRank <= MAX_RANK && rank[child] < newRank
    ensures Forest(parent[child := root], rank[root := newRank], Merge(rep, child, root, root))
  {
    var parent', rank', rep' := parent[child := root], rank[root := newRank], Merge(rep, child, root, root);
    forall i | 0 <= i < |parent| ensures ParentOk(parent', rank', rep', i) {
      assert ParentOk(parent, rank, rep, i) && ParentOk(parent, rank, rep, root);
      assert ParentOk(parent, rank, rep, parent[i]) && ParentOk(parent, rank, rep, rep[i]);
    }
  }

  // ---------------------------------------------------------------------------
  // Links
  // ---------------------------------------------------------------------------

  /** The links run once around the members of the class of `r`, starting at `r`. */
  ghost predicate CycleOk(links: seq<nat>, rep: seq<nat>, cycle: seq<nat>, r: nat) {
    && cycle != [] && cycle[0] == r
    && Distinct(cycle)
    && (forall k :: 0 <= k < |cycle| ==> StepOk(links, cycle, k))
    && (forall x :: 0 <= x < |rep| ==> (x in cycle <==> rep[x] == r))
    && (forall k :: 0 <= k < |cycle| ==> cycle[k] < |rep|)
  }

  ghost predicate StepOk(links: seq<nat>, cycle: seq<nat>, k: nat)
    requires k < |cycle|
  {
    cycle[k] < |links| && links[cycle[k]] == if k + 1 < |cycle| then cycle[k + 1] else cycle[0]
  }

  ghost predicate Cycles(links: seq<nat>, rep: seq<nat>, cycles: seq<seq<nat>>) {
    && |links| == |rep| == |cycles|
    && forall r :: 0 <= r < |rep| && rep[r] == r ==> CycleOk(links, rep, cycles[r], r)
  }

  /** Swapping the links of two roots splices their cycles. */
  ghost function Splice(root: nat, mine: seq<nat>, other: nat, others: seq<nat>): seq<nat>
    requires mine != [] && others != []
  {
    [root] + others[1..] + [other] + mine[1..]
  }

  lemma {:induction false} SpliceIsCycle(links: seq<nat>, rep: seq<nat>, root: nat, mine: seq<nat>, other: nat,
      others: seq<nat>)
    requires |links| == |rep| && root < |rep| && other < |rep| && root != other
    requires rep[root] == root && rep[other] == other
    requires CycleOk(links, rep, mine, root) && CycleOk(links, rep, others, other)
    ensures CycleOk(links[root := links[other]][other := links[root]], Merge(rep, root, other, root),
                    Splice(root, mine, other, others), root)
  {
    var links' := links[root := links[other]][other := links[root]];
    var cycle := Splice(root, mine, other, others);
    var m := |others|;
    assert forall k :: 0 <= k < |cycle| ==>
      cycle[k] == if k == 0 then root else if k < m then others[k] else if k == m then other else mine[k - m];
    forall k | 0 <= k < |cycle| ensures StepOk(links', cycle, k) {
      if k == 0 || k == m {
        assert StepOk(links, mine, 0) && StepOk(links, others, 0);
      } else if k < m {
        assert StepOk(links, others, k);
      } else {
        assert StepOk(links, mine, k - m);
      }
    }
    SpliceMembers(rep, root, mine, other, others);
  }

  lemma {:induction false} SpliceMembers(rep: seq<nat>, root: nat, mine: seq<nat>, other: nat, others: seq<nat>)
    requires mine != [] && others != [] && mine[0] == root && others[0] == other
    requires Distinct(mine) && Distinct(others)
    requires forall x :: x in mine ==> x !in others
    ensures Distinct(Splice(root, mine, other, others))
    ensures forall x :: x in Splice(root, mine, other, others) <==> x in mine || x in others
    ensures |Splice(root, mine, other, others)| == |mine| + |others|
  {
    assert mine == [root] + mine[1..];
    assert others == [other] + others[1..];
    var cycle, m := Splice(root, mine, other, others), |others|;
    forall i, j | 0 <= i < j < |cycle| ensures cycle[i] != cycle[j] {
      var x := if i == 0 then mine[0] else if i < m then others[i] else if i == m then others[0] else mine[i - m];
      var y := if j < m then others[j] else if j == m then others[0] else mine[j - m];
      assert cycle[i] == x && cycle[j] == y;
      assert if i == 0 || i > m then x in mine else x in others;
      assert if j > m then y in mine else y in others;
    }
  }

  // ---------------------------------------------------------------------------
  // What the structure represents
  // ---------------------------------------------------------------------------

  /** Two elements have the same representative exactly when the unions done relate them. */
  ghost predicate Realises(rep: seq<nat>, joined: seq<set<nat>>) {
    && (forall i, x :: 0 <= i < |joined| && x in joined[i] ==> x < |rep|)
    && (forall x, y :: 0 <= x < |rep| && 0 <= y < |rep| ==> (rep[x] == rep[y] <==> Same(joined, x, y)))
  }

  lemma {:induction false} MergeRealises(rep: seq<nat>, joined: seq<set<nat>>, a: nat, b: nat, r: nat)
    requires Realises(rep, joined) && a < |rep| && b < |rep|
    requires r == rep[a] || r == rep[b]
    ensures Realises(Merge(rep, rep[a], rep[b], r), joined + [{a, b}])
  {
    var rep', more := Merge(rep, rep[a], rep[b], r), joined + [{a, b}];
    forall x, y | 0 <= x < |rep| && 0 <= y < |rep| ensures rep'[x] == rep'[y] <==> Same(more, x, y) {
      JoinIs(joined, {a, b}, x, y);
      TouchesPair(joined, a, b, x);
      TouchesPair(joined, a, b, y);
    }
  }

  lemma {:induction false} TouchesPair(joined: seq<set<nat>>, a: nat, b: nat, x: nat)
    ensures Touches(joined, {a, b}, x) <==> Same(joined, a, x) || Same(joined, b, x)
  {
  }

  /** A class of an element has at least 2 to the rank of its representative members. */
  ghost predicate BigEnough(rank: seq<nat>, rep: seq<nat>, cycles: seq<seq<nat>>) {
    && |rank| == |rep| == |cycles|
    && forall r :: 0 <= r < |rep| && rep[r] == r ==> Pow2(rank[r]) <= |cycles[r]|
  }

  /** A class is no larger than the structure. */
  lemma {:induction false} CycleFits(links: seq<nat>, rep: seq<nat>, cycle: seq<nat>, r: nat)
    requires CycleOk(links, rep, cycle, r)
    ensures |cycle| <= |rep|
  {
    DistinctCard(cycle);
    var all := set x: nat | 0 <= x < |rep| && InRange(x);
    assert Elements(cycle) <= all;
    RangeCard(|rep|);
    assert all == (all - Elements(cycle)) + Elements(cycle);
  }

  predicate InRange(x: nat) { true }

  lemma {:induction false} RangeCard(n: nat)
    ensures |set x: nat | 0 <= x < n && InRange(x)| == n
  {
    var all := set x: nat | 0 <= x < n && InRange(x);
    if n > 0 {
      RangeCard(n - 1);
      assert all == (set x: nat | 0 <= x < n - 1 && InRange(x)) + {n - 1};
    }
  }

  ghost predicate Whole(parent: seq<nat>, rank: seq<nat>, rep: seq<nat>, links: seq<nat>, cycles: seq<seq<nat>>,
      joined: seq<set<nat>>) {
    && |rep| < 0x1_0000_0000_0000_0000  // indices are usize
    && Forest(parent, rank, rep)
    && Cycles(links, rep, cycles)
    && BigEnough(rank, rep, cycles)
    && Realises(rep, joined)
  }

  ghost function NewRank(rank: seq<nat>, child: nat, root: nat): nat
    requires child < |rank| && root < |rank|
  {
    if rank[child] == rank[root] then rank[root] + 1 else rank[root]
  }

  /** The rank of the joined class is far from saturating, and still bounded by its size. */
  lemma {:induction false} RankFits(links: seq<nat>, rank: seq<nat>, rep: seq<nat>, cycles: seq<seq<nat>>,
      child: nat, root: nat, cycle: seq<nat>)
    requires BigEnough(rank, rep, cycles) && |rep| < 0x1_0000_0000_0000_0000
    requires child < |rep| && root < |rep| && rep[child] == child && rep[root] == root && rank[child] <= rank[root]
    requires |cycle| == |cycles[child]| + |cycles[root]| <= |rep|
    ensures Pow2(NewRank(rank, child, root)) <= |cycle|
    ensures NewRank(rank, child, root) < 64
  {
    var r := NewRank(rank, child, root);
    assert Pow2(rank[root]) <= |cycles[root]| && Pow2(rank[child]) <= |cycles[child]|;
    if r >= 64 {
      Pow2Monotone(64, r);
      Pow2At64();
    }
  }

  /** No rank ever comes near the ceiling of its type, so the saturating increment never saturates. */
  lemma {:induction false} RanksStaySmall(parent: seq<nat>, rank: seq<nat>, rep: seq<nat>, links: seq<nat>,
      cycles: seq<seq<nat>>, joined: seq<set<nat>>, e: nat)
    requires Whole(parent, rank, rep, links, cycles, joined) && e < |rep|
    ensures rank[e] < 64
  {
    RankRises(parent, rank, rep, e);
    var r := rep[e];
    assert ParentOk(parent, rank, rep, e) && CycleOk(links, rep, cycles[r], r);
    CycleFits(links, rep, cycles[r], r);
    if rank[r] >= 64 {
      Pow2Monotone(64, rank[r]);
      Pow2At64();
    }
  }

  lemma {:induction false} CyclesKept(links: seq<nat>, rep: seq<nat>, cycles: seq<seq<nat>>, child: nat, root: nat)
    requires Cycles(links, rep, cycles) && child < |rep| && root < |rep| && child != root
    requires rep[child] == child && rep[root] == root
    ensures cycles[root] != [] && cycles[child] != []
    ensures Cycles(links[root := links[child]][child := links[root]], Merge(rep, child, root, root),
                   cycles[root := Splice(root, cycles[root], child, cycles[child])])
  {
    var links' := links[root := links[child]][child := links[root]];
    var rep' := Merge(rep, child, root, root);
    assert CycleOk(links, rep, cycles[root], root) && CycleOk(links, rep, cycles[child], child);
    SpliceIsCycle(links, rep, root, cycles[root], child, cycles[child]);
    assert Merge(rep, root, child, root) == rep';
    forall r | 0 <= r < |rep| && rep'[r] == r && r != root ensures CycleOk(links', rep', cycles[r], r) {
      assert CycleOk(links, rep, cycles[r], r);
      forall k | 0 <= k < |cycles[r]| ensures StepOk(links', cycles[r], k) {
        assert StepOk(links, cycles[r], k);
        assert cycles[r][k] in cycles[r];
      }
    }
  }

  /** Union by rank keeps the whole structure, whichever root it hangs below the other. */
  lemma {:induction false} UnionKeeps(parent: seq<nat>, rank: seq<nat>, rep: seq<nat>, links: seq<nat>,
      cycles: seq<seq<nat>>, joined: seq<set<nat>>, a: nat, b: nat, child: nat, root: nat)
    requires Whole(parent, rank, rep, links, cycles, joined) && a < |rep| && b < |rep|
    requires (child == rep[a] && root == rep[b]) || (child == rep[b] && root == rep[a])
    requires child < |rep| && root < |rep| && child != root && rank[child] <= rank[root]
    ensures NewRank(rank, child, root) < 64
    ensures cycles[root] != [] && cycles[child] != []
    ensures var rank', rep' := rank[root := NewRank(rank, child, root)], Merge(rep, child, root, root);
            var cycles' := cycles[root := Splice(root, cycles[root], child, cycles[child])];
            Whole(parent[child := root], rank', rep', links[root := links[child]][child := links[root]], cycles',
                  joined + [{a, b}])
  {
    assert ParentOk(parent, rank, rep, a) && ParentOk(parent, rank, rep, b);
    CyclesKept(links, rep, cycles, child, root);
    var links' := links[root := links[child]][child := links[root]];
    var rep' := Merge(rep, child, root, root);
    var cycle := Splice(root, cycles[root], child, cycles[child]);
    var cycles' := cycles[root := cycle];
    assert rep'[root] == root && cycles'[root] == cycle;
    assert CycleOk(links', rep', cycle, root);
    CycleFits(links', rep', cycle, root);
    RankFits(links, rank, rep, cycles, child, root, cycle);
    LinkKeepsForest(parent, rank, rep, child, root, NewRank(rank, child, root));
    MergeRealises(rep, joined, a, b, root);
    assert Merge(rep, rep[a], rep[b], root) == rep';
  }

  /** A cycle may be entered anywhere. */
  lemma {:induction false} TurnIsCycle(links: seq<nat>, cycle: seq<nat>, start: nat)
    requires Distinct(cycle) && start < |cycle|
    requires forall k :: 0 <= k < |cycle| ==> StepOk(links, cycle, k)
    ensures var turned := cycle[start..] + cycle[..start];
            && |turned| == |cycle|
            && Distinct(turned)
            && (forall k :: 0 <= k < |turned| ==> StepOk(links, turned, k))
            && (forall x :: x in turned <==> x in cycle)
  {
    var turned := cycle[start..] + cycle[..start];
    assert cycle == cycle[..start] + cycle[start..];
    forall k | 0 <= k < |turned| ensures StepOk(links, turned, k) {
      assert StepOk(links, cycle, if k + start < |cycle| then k + start else k + start - |cycle|);
    }
  }

  /** Entered at any element, the links run once around that element's class. */
  lemma {:induction false} Around(parent: seq<nat>, rank: seq<nat>, rep: seq<nat>, links: seq<nat>,
      cycles: seq<seq<nat>>, joined: seq<set<nat>>, a: nat)
      returns (turned: seq<nat>)
    requires Whole(parent, rank, rep, links, cycles, joined) && a < |rep|
    ensures turned != [] && turned[0] == a && Distinct(turned)
    ensures forall k :: 0 <= k < |turned| ==> StepOk(links, turned, k)
    ensures forall x: nat :: x in turned <==> x < |rep| && Same(joined, a, x)
  {
    assert ParentOk(parent, rank, rep, a);
    var cycle := cycles[rep[a]];
    assert CycleOk(links, rep, cycle, rep[a]);
    var start :| 0 <= start < |cycle| && cycle[start] == a;
    turned := cycle[start..] + cycle[..start];
    TurnIsCycle(links, cycle, start);
  }

  // ---------------------------------------------------------------------------
  // The structure
  // ---------------------------------------------------------------------------

  class UnionFind {
    const elements: array<nat>
    const links: array<nat>
    const ranks: array<nat>
    ghost var rep: seq<nat>
    ghost var cycles: seq<seq<nat>>
    ghost var joined: seq<set<nat>>

    ghost predicate Valid()
      reads this, elements, links, ranks
    {
      && elements != links && elements != ranks && links != ranks
      && Whole(elements[..], ranks[..], rep, links[..], cycles, joined)
    }

    constructor (size: nat)
      requires size < 0x1_0000_0000_0000_0000
      ensures Valid() && fresh(elements) && fresh(links) && fresh(ranks)
      ensures elements.Length == size && joined == []
    {
      elements := new nat[size](i => i);
      links := new nat[size](i => i);
      ranks := new nat[size](_ => 0);
      rep := seq(size, i => i);
      cycles := seq(size, i => [i]);
      joined := [];
      new;
      assert forall r :: 0 <= r < size ==> StepOk(links[..], cycles[r], 0);
      assert forall i :: 0 <= i < size ==> ParentOk(elements[..], ranks[..], rep, i);
      forall x, y | 0 <= x < size && 0 <= y < size ensures rep[x] == rep[y] <==> Same([], x, y) {
        var id: nat -> nat := z => z;
        assert Respects(id, []);
      }
    }

    /** The representative of an element; splits the paths it walks and changes nothing else. */
    method Find(e: nat) returns (root: nat)
      requires Valid() && e < elements.Length
      modifies elements
      ensures Valid()
      ensures root == rep[e]
      ensures forall j :: 0 <= j < elements.Length && old(elements[j]) == rep[j] ==> elements[j] == rep[j]
    {
      var element := e;
      assert ParentOk(elements[..], ranks[..], rep, e);
      var parent := elements[element];
      while element != parent
        invariant Valid() && element < elements.Length && parent == elements[element]
        invariant rep[element] == rep[e]
        invariant forall j :: 0 <= j < elements.Length && old(elements[j]) == rep[j] ==> elements[j] == rep[j]
        decreases MAX_RANK - ranks[element]
      {
        assert ParentOk(elements[..], ranks[..], rep, element);
        assert ParentOk(elements[..], ranks[..], rep, parent);
        var grandparent := elements[parent];
        SplitKeepsForest(elements[..], ranks[..], rep, element);
        ghost var split := elements[..][element := grandparent];
        elements[element] := grandparent;
        assert elements[..] == split;
        element := parent;
        parent := grandparent;
      }
      assert ParentOk(elements[..], ranks[..], rep, element);
      root := element;
    }

    /** Joins two classes; says whether they were different. */
    method Union(a: nat, b: nat) returns (changed: bool)
      requires Valid() && a < elements.Length && b < elements.Length
      modifies this, elements, links, ranks
      ensures Valid()
      ensures joined == old(joined) + [{a, b}]
      ensures changed <==> !Same(old(joined), a, b)
    {
      var ra := Find(a);
      var rb := Find(b);
      if ra == rb {
        MergeRealises(rep, joined, a, b, ra);
        assert Merge(rep, ra, ra, ra) == rep;
        joined := joined + [{a, b}];
        return false;
      }
      assert ParentOk(elements[..], ranks[..], rep, a) && ParentOk(elements[..], ranks[..], rep, b);
      ghost var parents, ring, rank := elements[..], links[..], ranks[..];
      RanksStaySmall(parents, rank, rep, ring, cycles, joined, rb);
      ghost var child, root := Link(ra, rb);
      UnionKeeps(parents, rank, rep, ring, cycles, joined, a, b, child, root);
      cycles := cycles[root := Splice(root, cycles[root], child, cycles[child])];
      rep := Merge(rep, child, root, root);
      joined := joined + [{a, b}];
      changed := true;
    }

    /** The part of `Union` that runs when the representatives `ra` and `rb` differ. */
    method Link(ra: nat, rb: nat) returns (ghost child: nat, ghost root: nat)
      requires elements != links && elements != ranks && links != ranks
      requires elements.Length == links.Length == ranks.Length
      requires ra < elements.Length && rb < elements.Length && ra != rb && ranks[rb] < MAX_RANK
      modifies elements, links, ranks
      ensures (child == ra && root == rb) || (child == rb && root == ra)
      ensures old(ranks[child]) <= old(ranks[root])
      ensures elements[..] == old(elements[..])[child := root]
      ensures links[..] == old(links[..])[root := old(links[child])][child := old(links[root])]
      ensures ranks[..] == old(ranks[..])[root := NewRank(old(ranks[..]), child, root)]
    {
      child, root := ra, rb;
      var temp := links[rb];
      links[rb] := links[ra];
      links[ra] := temp;
      var rankA, rankB := ranks[ra], ranks[rb];
      if rankA > rankB {
        elements[rb] := ra;
        child, root := rb, ra;
      } else if rankB > rankA {
        elements[ra] := rb;
      } else {
        elements[ra] := rb;
        ranks[rb] := SaturatingInc(ranks[rb]);
      }
    }

    method Equiv(a: nat, b: nat) returns (same: bool)
      requires Valid() && a < elements.Length && b < elements.Length
      modifies elements
      ensures Valid()
      ensures same <==> Same(joined, a, b)
    {
      var ra := Find(a);
      var rb := Find(b);
      same := ra == rb;
    }

    /** Makes every element point straight at its representative. */
    method Force()
      requires Valid()
      modifies elements
      ensures Valid()
      ensures elements[..] == rep
    {
      for i := 0 to elements.Length
        invariant Valid()
        invariant forall j :: 0 <= j < i ==> elements[j] == rep[j]
      {
        var root := Find(i);
        ForceKeepsForest(elements[..], ranks[..], rep, i);
        ghost var forced := elements[..][i := root];
        elements[i] := root;
        assert elements[..] == forced;
      }
    }

    /** Follows the links once around: every member of the class of `a`, once each, `a` first. */
    method GetSet(a: nat) returns (members: seq<nat>)
      requires Valid() && a < elements.Length
      ensures members != [] && members[0] == a && Distinct(members)
      ensures forall x: nat :: x in members <==> x < elements.Length && Same(joined, a, x)
    {
      ghost var turned := Around(elements[..], ranks[..], rep, links[..], cycles, joined, a);
      var p := a;
      members := [a];
      while links[p] != a
        invariant 1 <= |members| <= |turned| && members == turned[..|members|]
        invariant p == turned[|members| - 1] && p < links.Length
        decreases |turned| - |members|
      {
        assert StepOk(links[..], turned, |members| - 1);
        p := links[p];
        members := members + [p];
        assert StepOk(links[..], turned, |members| - 1);
      }
      assert StepOk(links[..], turned, |members| - 1);
      assert members == turned;
    }
  }
}
