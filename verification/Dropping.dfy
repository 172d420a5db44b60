/**
 What the message loop loses by dropping messages of busy sites.  Its solutions follow the path
 it kept; they follow the path of all messages as long as the dropped conditions are kept
 elsewhere or have nothing to do with the branch that is flipped, and not in general.
 */
module Dropping {
  import opened Basics
  import opened Partition
  import opened Expr
  import opened LabelTable
  import opened Slicing
  import S = Serialize

  /** What a message would ask for if nothing were dropped. */
  ghost function UndroppedAt(t: Table, msgs: seq<Msg>, i: nat): Request
    requires WellFormed(t) && Labelled(t, msgs) && i < |msgs|
  {
    RequestOf(t, msgs[i], 1, S.Build(t, DataAfter(msgs[..i]), msgs[i].lbl))
  }

  /** The path conditions of the first `i` messages, dropped or not. */
  ghost function WholePath(t: Table, msgs: seq<Msg>, i: nat): set<Expr>
    requires WellFormed(t) && Labelled(t, msgs) && i <= |msgs|
  {
    if i == 0 then {} else WholePath(t, msgs, i - 1) + Stores(UndroppedAt(t, msgs, i - 1))
  }

  ghost predicate DroppedAt(msgs: seq<Msg>, j: nat)
    requires j < |msgs|
  {
    Dropped(msgs[j], CountAt(msgs, j))
  }

  lemma {:induction false} PathGrows(t: Table, msgs: seq<Msg>, i: nat, j: nat)
    requires WellFormed(t) && Labelled(t, msgs) && i <= j <= |msgs|
    ensures PathBefore(t, msgs, i) <= PathBefore(t, msgs, j)
    decreases j
  {
    if i < j { PathGrows(t, msgs, i, j - 1); }
  }

  lemma {:induction false} PathIsPart(t: Table, msgs: seq<Msg>, i: nat)
    requires WellFormed(t) && Labelled(t, msgs) && i <= |msgs|
    ensures PathBefore(t, msgs, i) <= WholePath(t, msgs, i)
    decreases i
  {
    if i > 0 { PathIsPart(t, msgs, i - 1); }
  }

  // ---------------------------------------------------------------------------
  // When nothing is lost
  // ---------------------------------------------------------------------------

  /** No condition of the request mentions an offset linked to the branch of message `i`. */
  ghost predicate Unlinked(t: Table, msgs: seq<Msg>, i: nat, r: Request)
    requires WellFormed(t) && Labelled(t, msgs) && i < |msgs|
  {
    forall d :: d in Mentions(r) ==> !Linked(JoinsBefore(t, msgs, i + 1), Mentions(RequestAt(t, msgs, i)), d)
  }

  /** Message `j` is kept, or what it would store is stored anyway or has nothing to do with message `i`. */
  ghost predicate Harmless(t: Table, msgs: seq<Msg>, i: nat, j: nat)
    requires WellFormed(t) && Labelled(t, msgs) && j < i < |msgs|
  {
    DroppedAt(msgs, j) ==>
      Stores(UndroppedAt(t, msgs, j)) <= PathBefore(t, msgs, i) || Unlinked(t, msgs, i, UndroppedAt(t, msgs, j))
  }

  lemma {:induction false} StoresMentions(r: Request, c: Expr)
    requires c in Stores(r)
    ensures Free(c) == Mentions(r)
  {
  }

  lemma {:induction false} KeptIsRequest(t: Table, msgs: seq<Msg>, j: nat)
    requires WellFormed(t) && Labelled(t, msgs) && j < |msgs|
    ensures !DroppedAt(msgs, j) ==> UndroppedAt(t, msgs, j) == RequestAt(t, msgs, j)
  {
  }

  lemma {:induction false} LostIsUnlinked(t: Table, msgs: seq<Msg>, i: nat, k: nat, c: Expr)
    requires WellFormed(t) && Labelled(t, msgs) && k <= i < |msgs|
    requires forall j :: 0 <= j < i ==> Harmless(t, msgs, i, j)
    requires c in WholePath(t, msgs, k) && c !in PathBefore(t, msgs, i)
    ensures forall d :: d in Free(c) ==> !Linked(JoinsBefore(t, msgs, i + 1), Mentions(RequestAt(t, msgs, i)), d)
    decreases k
  {
    if c in WholePath(t, msgs, k - 1) {
      LostIsUnlinked(t, msgs, i, k - 1, c);
    } else {
      var r := UndroppedAt(t, msgs, k - 1);
      StoresMentions(r, c);
      PathGrows(t, msgs, k, i);
      KeptIsRequest(t, msgs, k - 1);
      assert Harmless(t, msgs, i, k - 1);
    }
  }

  /** A condition that mentions no offset of the solution holds on the result if it held on the seed. */
  lemma {:induction false} UntouchedHolds(c: Expr, seed: seq<nat>, sol: Solution)
    requires Free(c) !! sol.Keys && Holds(c, AsInput(seed))
    ensures Holds(c, AsInput(Laid(seed, sol)))
  {
    EvalIsLocal(c, AsInput(seed), AsInput(Laid(seed, sol)));
  }

  lemma {:induction false} DeliversWhole(sol: Solution, size: nat, stored: set<Expr>, whole: set<Expr>, flip: Expr)
    requires Delivers(sol, size, stored, stored + {flip}) && stored <= whole
    requires forall c :: c in whole && c !in stored ==> Free(c) !! sol.Keys
    ensures Delivers(sol, size, whole, whole + {flip})
  {
    forall seed: seq<nat> | |seed| == size && AllHold(whole, AsInput(seed))
      ensures AllHold(whole + {flip}, AsInput(Laid(seed, sol)))
    {
      assert AllHold(stored, AsInput(seed));
      forall c | c in whole + {flip} ensures Holds(c, AsInput(Laid(seed, sol))) {
        if c in stored + {flip} {
          assert AllHold(stored + {flip}, AsInput(Laid(seed, sol)));
        } else {
          UntouchedHolds(c, seed, sol);
        }
      }
    }
  }

  /**
   If every dropped message before it is harmless, a nested solution follows the path of all
   messages and then takes the other branch.
   */
  lemma {:induction false} NestedKeepsWholePath(t: Table, msgs: seq<Msg>, size: nat, complete: bool, a: Answer)
    requires WellFormed(t) && Labelled(t, msgs) && AnswerOk(t, msgs, size, complete, a) && a.nested.Some?
    requires forall j :: 0 <= j < a.at ==> Harmless(t, msgs, a.at, j)
    ensures var whole := WholePath(t, msgs, a.at);
      Delivers(a.nested.value, size, whole, whole + {RequestAt(t, msgs, a.at).flip})
  {
    var stored, whole := PathBefore(t, msgs, a.at), WholePath(t, msgs, a.at);
    PathIsPart(t, msgs, a.at);
    forall c | c in whole && c !in stored ensures Free(c) !! a.nested.value.Keys {
      LostIsUnlinked(t, msgs, a.at, a.at, c);
    }
    DeliversWhole(a.nested.value, size, stored, whole, RequestAt(t, msgs, a.at).flip);
  }

  lemma {:induction false} HitsGrow(msgs: seq<Msg>, i: nat, site: Site)
    requires i <= |msgs|
    ensures Hits(msgs[..i], site) <= Hits(msgs, site)
    decreases |msgs|
  {
    if i < |msgs| {
      HitsGrow(msgs[..|msgs| - 1], i, site);
      assert msgs[..|msgs| - 1][..i] == msgs[..i];
    } else {
      assert msgs[..i] == msgs;
    }
  }

  /** Nothing is dropped while no site with an address sends more than 64 messages. */
  lemma {:induction false} NothingDropped(t: Table, msgs: seq<Msg>, i: nat, j: nat)
    requires WellFormed(t) && Labelled(t, msgs) && j < i < |msgs|
    requires forall site: Site :: site.addr != 0 ==> Hits(msgs, site) <= MAX_LOCAL
    ensures !DroppedAt(msgs, j) && Harmless(t, msgs, i, j)
  {
    HitsGrow(msgs, j + 1, msgs[j].site);
  }

  // ---------------------------------------------------------------------------
  // A solution that leaves the path
  // ---------------------------------------------------------------------------

  /** Is byte 0 equal to byte 1?  Is byte 0 equal to 7? */
  predicate TwoBytes(t: Table) {
    && |t| == 5 && t[0].op == READ
    && t[1] == LabelInfo(0, 0, 0, 0, READ, 8, 1)
    && t[2] == LabelInfo(0, 0, 1, 0, READ, 8, 1)
    && t[3] == LabelInfo(1, 2, 0, 0, 256 * BVEQ + ICMP, 8, 2)
    && t[4] == LabelInfo(1, 0, 0, 7, 256 * BVEQ + ICMP, 8, 2)
  }

  const BUSY := Site(1, 0)
  const OTHER := Site(2, 0)

  /** A site sends 64 messages and then that the bytes are equal; another site asks for a 7 in byte 0. */
  predicate BusyRun(msgs: seq<Msg>, n: nat) {
    && n == 65 && |msgs| == n + 1
    && (forall j :: 0 <= j < n - 1 ==> msgs[j] == Msg.Other(BUSY, 0))
    && msgs[n - 1] == Branch(BUSY, 3, 1, false) && msgs[n] == Branch(OTHER, 4, 0, true)
  }

  function Equals(): Expr { Cmp(CmpOp.Equal, Byte(0), Byte(1)) }
  function IsSeven(): Expr { Cmp(CmpOp.Equal, Byte(0), BvVal(Mod(7, 8), 8)) }

  /** The condition that is dropped, and the branch that is flipped. */
  function BytesEqual(): Expr { EqualTo(Equals(), BoolVal(true)) }
  function Seven(): Expr { OtherThan(IsSeven(), BoolVal(false)) }

  lemma {:induction false} TwoBytesBuild(t: Table, data: S.Concrete)
    requires TwoBytes(t)
    ensures WellFormed(t) && S.Build(t, data, 3) == S.Got(Equals()) && S.Build(t, data, 4) == S.Got(IsSeven())
  {
    assert WellFormed(t);
    assert S.Build(t, data, 1) == S.Got(Byte(0)) && S.Build(t, data, 2) == S.Got(Byte(1));
    assert S.RelOp(HighByte(256 * BVEQ + ICMP)) == Some(CmpOp.Equal);
    assert S.ArithOp(LowByte(256 * BVEQ + ICMP)).None?;
  }

  lemma {:induction false} HitsAll(msgs: seq<Msg>, n: nat, site: Site)
    requires n <= |msgs| && forall j :: 0 <= j < n ==> msgs[j].site == site
    ensures Hits(msgs[..n], site) == n
    ensures forall other :: other != site ==> Hits(msgs[..n], other) == 0
  {
    if n > 0 {
      HitsAll(msgs, n - 1, site);
      assert msgs[..n][..n - 1] == msgs[..n - 1];
    }
  }

  lemma {:induction false} BusyCounts(msgs: seq<Msg>, n: nat)
    requires BusyRun(msgs, n)
    ensures CountAt(msgs, n - 1) == n && CountAt(msgs, n) == 1
  {
    HitsAll(msgs, n, BUSY);
    var all := msgs[..n + 1];
    assert all[..n] == msgs[..n] && all[n].site == OTHER;
    assert Hits(msgs[..n], OTHER) == 0;
  }

  lemma {:induction false} BranchAsks(e: Expr, direction: nat, attempt: bool)
    requires SortOf(e) == Bool
    ensures var k := BoolVal(direction == 1);
      BranchRequest(e, direction, attempt) == Query(EqualTo(e, k), OtherThan(e, k), attempt)
  {
    assert SortOf(EqualTo(e, BoolVal(direction == 1))) == Bool;
  }

  lemma {:induction false} OthersSkip(t: Table, msgs: seq<Msg>, n: nat, j: nat)
    requires BusyRun(msgs, n) && WellFormed(t) && Labelled(t, msgs) && j < n - 1
    ensures RequestAt(t, msgs, j).Skip? && UndroppedAt(t, msgs, j).Skip?
  {
    assert msgs[j].Other?;
  }

  lemma {:induction false} LostRequest(t: Table, msgs: seq<Msg>, n: nat)
    requires TwoBytes(t) && BusyRun(msgs, n) && WellFormed(t) && Labelled(t, msgs)
    ensures RequestAt(t, msgs, n - 1).Skip?
    ensures UndroppedAt(t, msgs, n - 1).Query? && UndroppedAt(t, msgs, n - 1).path == BytesEqual()
  {
    BranchAsks(Equals(), 1, false);
    TwoBytesBuild(t, DataAfter(msgs[..n - 1]));
    BusyCounts(msgs, n);
  }

  lemma {:induction false} AskedRequest(t: Table, msgs: seq<Msg>, n: nat)
    requires TwoBytes(t) && BusyRun(msgs, n) && WellFormed(t) && Labelled(t, msgs)
    ensures RequestAt(t, msgs, n) == Query(EqualTo(IsSeven(), BoolVal(false)), Seven(), true)
  {
    BranchAsks(IsSeven(), 0, true);
    TwoBytesBuild(t, DataAfter(msgs[..n]));
    BusyCounts(msgs, n);
  }

  lemma {:induction false} BusyRequests(t: Table, msgs: seq<Msg>, n: nat)
    requires TwoBytes(t) && BusyRun(msgs, n)
    ensures WellFormed(t) && Labelled(t, msgs)
    ensures forall j :: 0 <= j < n ==> RequestAt(t, msgs, j).Skip?
    ensures forall j :: 0 <= j < n - 1 ==> UndroppedAt(t, msgs, j).Skip?
    ensures UndroppedAt(t, msgs, n - 1).Query? && UndroppedAt(t, msgs, n - 1).path == BytesEqual()
    ensures RequestAt(t, msgs, n) == Query(EqualTo(IsSeven(), BoolVal(false)), Seven(), true)
  {
    TwoBytesBuild(t, map[]);
    forall j | 0 <= j < n - 1 ensures RequestAt(t, msgs, j).Skip? && UndroppedAt(t, msgs, j).Skip? {
      OthersSkip(t, msgs, n, j);
    }
    LostRequest(t, msgs, n);
    AskedRequest(t, msgs, n);
  }

  lemma {:induction false} SkippedPath(t: Table, msgs: seq<Msg>, n: nat)
    requires WellFormed(t) && Labelled(t, msgs) && n <= |msgs|
    requires forall j :: 0 <= j < n ==> RequestAt(t, msgs, j).Skip?
    ensures PathBefore(t, msgs, n) == {} && JoinsBefore(t, msgs, n) == []
    decreases n
  {
    if n > 0 { SkippedPath(t, msgs, n - 1); }
  }

  lemma {:induction false} SkippedWhole(t: Table, msgs: seq<Msg>, n: nat)
    requires WellFormed(t) && Labelled(t, msgs) && n <= |msgs|
    requires forall j :: 0 <= j < n ==> UndroppedAt(t, msgs, j).Skip?
    ensures WholePath(t, msgs, n) == {}
    decreases n
  {
    if n > 0 { SkippedWhole(t, msgs, n - 1); }
  }

  /** What the loop keeps of that run, and what it would have kept. */
  lemma {:induction false} BusyPaths(t: Table, msgs: seq<Msg>, n: nat)
    requires TwoBytes(t) && BusyRun(msgs, n)
    ensures WellFormed(t) && Labelled(t, msgs)
    ensures PathBefore(t, msgs, n) == {} && WholePath(t, msgs, n) == {BytesEqual()}
    ensures JoinsBefore(t, msgs, n + 1) == [{0}]
  {
    BusyRequests(t, msgs, n);
    SkippedPath(t, msgs, n);
    SkippedWhole(t, msgs, n - 1);
  }

  lemma {:induction false} OnlyByte0(x: nat)
    ensures Linked([{0}], {0}, x) <==> x == 0
  {
    var lab: nat -> nat := (z: nat) => if z == 0 then 1 else 0;
    assert Respects(lab, [{0}]);
    SameIsEquivalence([{0}], 0, 0, 0);
    assert 0 in {0};
  }

  lemma {:induction false} ByteMeans(x: Input)
    ensures Holds(Seven(), x) <==> x(0) % 256 == 7
    ensures Holds(BytesEqual(), x) <==> x(0) % 256 == x(1) % 256
  {
    assert Mod(Mod(7, 8), 8) == 7;
  }

  /** `same` says that bytes 0 and 1 are equal, `seven` that byte 0 is 7. */
  ghost predicate AboutBytes(same: Expr, seven: Expr) {
    && (forall x: Input :: Holds(same, x) <==> x(0) % 256 == x(1) % 256)
    && (forall x: Input :: Holds(seven, x) <==> x(0) % 256 == 7)
  }

  lemma {:induction false} SevensFollow(path: set<Expr>, same: Expr, seven: Expr)
    requires AboutBytes(same, seven) && path <= {same}
    ensures Satisfiable(path + {seven})
  {
    var sevens: Input := (_: nat) => 7;
    assert AllHold(path + {seven}, sevens);
  }

  /** A solution of the second site puts a 7 into byte 0 and leaves byte 1 of the seed as it is. */
  lemma {:induction false} OnlySeven(sol: Solution, size: nat, seed: seq<nat>, same: Expr, seven: Expr)
    requires 2 <= size == |seed| && ChangesClass(sol, size, [{0}], {0}) && Delivers(sol, size, {}, {} + {seven})
    requires AboutBytes(same, seven)
    ensures var x := AsInput(Laid(seed, sol)); x(0) % 256 == 7 && x(1) == seed[1]
  {
    SecondKept(sol, size, seed);
    DeliveredHolds(sol, size, seed, seven);
  }

  lemma {:induction false} DeliveredHolds(sol: Solution, size: nat, seed: seq<nat>, flip: Expr)
    requires |seed| == size && Delivers(sol, size, {}, {} + {flip})
    ensures Holds(flip, AsInput(Laid(seed, sol)))
  {
    assert AllHold({}, AsInput(seed)) && flip in {} + {flip};
  }

  lemma {:induction false} SecondKept(sol: Solution, size: nat, seed: seq<nat>)
    requires 2 <= size == |seed| && ChangesClass(sol, size, [{0}], {0})
    ensures AsInput(Laid(seed, sol))(1) == seed[1]
  {
    OnlyByte0(1);
  }

  lemma {:induction false} Broken(size: nat, x: Input, same: Expr, seven: Expr)
    requires 2 <= size && x(0) % 256 == 7 && x(1) == 0 && AboutBytes(same, seven)
    ensures AllHold({same}, AsInput(Zeros(size))) && !AllHold({same}, x)
  {
    assert Holds(same, AsInput(Zeros(size))) && !Holds(same, x) && same in {same};
  }

  lemma {:induction false} BytesMean()
    ensures AboutBytes(BytesEqual(), Seven())
  {
    forall x: Input ensures Holds(BytesEqual(), x) <==> x(0) % 256 == x(1) % 256 { ByteMeans(x); }
    forall x: Input ensures Holds(Seven(), x) <==> x(0) % 256 == 7 { ByteMeans(x); }
  }

  /**
   On that run a sound and complete solver finds a nested solution for the other site.  Laid over
   the seed of zeros, which follows the path of all messages, it leaves that path, although some
   input follows it and takes the other branch.
   */
  lemma {:induction false} LeavesPath(t: Table, msgs: seq<Msg>, size: nat, a: Answer)
    requires TwoBytes(t) && BusyRun(msgs, a.at) && 2 <= size
    requires WellFormed(t) && Labelled(t, msgs) && AnswerOk(t, msgs, size, true, a)
    ensures a.nested.Some?
    ensures var whole, seed := WholePath(t, msgs, a.at), Zeros(size);
      && AllHold(whole, AsInput(seed)) && !AllHold(whole, AsInput(Laid(seed, a.nested.value)))
      && Satisfiable(whole + {RequestAt(t, msgs, a.at).flip})
  {
    BusyRequests(t, msgs, a.at);
    BusyPaths(t, msgs, a.at);
    assert Mentions(RequestAt(t, msgs, a.at)) == {0};
    BytesMean();
    SevensFollow({}, BytesEqual(), Seven());
    SevensFollow({BytesEqual()}, BytesEqual(), Seven());
    OnlySeven(a.nested.value, size, Zeros(size), BytesEqual(), Seven());
    Broken(size, AsInput(Laid(Zeros(size), a.nested.value)), BytesEqual(), Seven());
  }

  /** So does the answer of the message loop itself. */
  lemma {:induction false} RunLeavesPath(t: Table, msgs: seq<Msg>, size: nat, answers: seq<Answer>, n: nat)
      returns (k: nat)
    requires TwoBytes(t) && BusyRun(msgs, n) && 2 <= size && WellFormed(t) && Labelled(t, msgs)
    requires AnswersOk(t, msgs, size, true, answers, n + 1)
    ensures k < |answers| && answers[k].at == n && answers[k].nested.Some?
    ensures var whole, seed := WholePath(t, msgs, n), Zeros(size);
      AllHold(whole, AsInput(seed)) && !AllHold(whole, AsInput(Laid(seed, answers[k].nested.value)))
  {
    BusyRequests(t, msgs, n);
    ToFlipIs(t, msgs, n);
    assert Answered(t, msgs, answers, n);
    k :| 0 <= k < |answers| && answers[k].at == n;
    LeavesPath(t, msgs, size, answers[k]);
  }

  function Zeros(size: nat): seq<nat> { seq(size, _ => 0) }
}
