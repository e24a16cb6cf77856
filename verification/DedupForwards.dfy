/** What forward resolution can do to types that are no forwards: a struct of two forwards is
    compared with one of two definitions, and the forwards have one representative. */
module DedupForwards {
  import opened BtfTypes
  import opened BtfCompare
  import opened BtfGraph
  import opened BtfAgree
  import opened DedupMap
  import opened DedupComplete
  import opened DedupAccept
  import opened DedupState
  import opened DedupRemap
  import Dedup
  import opened DedupRuns

  const FWD_S := FwdOf(1)

  function PairOf(x: nat, y: nat): BtfType { StructOf(2, 16, [Member(3, x, 0), Member(4, y, 64)]) }

  /** Two forwards of one `struct s` in 4, two definitions of it in 5, which is to be compared
      with 4: 3 and 4 are canonical, 6 is not mapped yet. */
  ghost predicate Ambiguous(g: Graph, m: IdMap) {
    && Closed(g) && Ranked(g, m) && |g| >= 7
    && g[1] == g[2] == FWD_S && g[4] == PairOf(1, 2) && g[5] == PairOf(3, 6)
    && (forall x :: x == 3 || x == 6 ==> g[x].info.kind == Struct && g[x].name == 1)
    && (forall x :: 0 <= x < |g| && g[x].info.kind == Struct && g[x].name == 2 ==> x == 4 || x == 5)
    && m[0] == 0 && m[1] == m[2] == 1 && m[3] == 3 && m[4] == 4 && m[5] == m[6] == UNPROCESSED
  }

  /** What the comparison records. */
  function Hypotheses(n: nat): IdMap
    requires n >= 7
  {
    NoHypotheses(n)[1 := 3][2 := 6][4 := 5]
  }

  /** The canonical map once that is merged. */
  function AfterMerge(m: IdMap): IdMap
    requires |m| >= 7
  {
    m[5 := 4][1 := 3][6 := 3]
  }

  /** A graph that begins with two forwards of one name. */
  lemma ForwardsTogether(g: Graph, m: IdMap)
    requires 3 <= |g| == |m| && g[0] == VOID && g[1] == g[2] == FWD_S
    requires PrimsDone(g, m, |g|) && PrimsExact(g, m) && NoDuplicates(false, g, m)
    ensures m[1] == 1 && m[2] == 1
  {
    FwdEntry(g, m, 1);
    FwdEntry(g, m, 2);
    hide PrimsDone, PrimsExact, CompatibleEnums;
    assert Duplicates(false, g[1], g[2]);
  }

  lemma AmbiguousParts(g: Graph, m: IdMap)
    requires Ambiguous(g, m)
    ensures Closed(g) && Ranked(g, m) && |m| == |g| >= 7
  {
  }

  lemma AmbiguousRefs(g: Graph, m: IdMap)
    requires Ambiguous(g, m)
    ensures Refs(g[4]) == [1, 2] && Refs(g[5]) == [3, 6] && Refs(g[1]) == Refs(g[2]) == [0] && Refs(g[0]) == []
    ensures Shape(g[4]) == Shape(g[5])
    ensures forall x :: x == 3 || x == 6 ==> FamilyOf(g[x]) == FamilyOf(FWD_S) && !IsFwdLike(g[x])
  {
    assert Shape(g[4]).tail.members == Shape(g[5]).tail.members;
  }

  lemma AmbiguousRoots(g: Graph, m: IdMap)
    requires Ambiguous(g, m)
    ensures Root(m, 0) == 0 && Root(m, 1) == Root(m, 2) == 1 && Root(m, 3) == 3 && Root(m, 4) == 4
    ensures Root(m, 5) == 5 && Root(m, 6) == 6
    ensures FwdId(g, m, 0) == 0 && FwdId(g, m, 1) == 1 && FwdId(g, m, 2) == 2 && FwdId(g, m, 4) == 4
  {
  }

  lemma HypothesesAre(n: nat)
    requires n >= 7
    ensures |Hypotheses(n)| == n
    ensures Hypotheses(n)[4] == 5 && Hypotheses(n)[1] == 3 && Hypotheses(n)[2] == 6
    ensures forall c :: 0 <= c < n && c != 4 && c != 1 && c != 2 ==> Hypotheses(n)[c] == UNPROCESSED
  {
  }

  // ---------------------------------------------------------------------------
  // The comparison

  lemma Compared(g: Graph, m: IdMap)
    requires Ambiguous(g, m)
    ensures |Hypotheses(|g|)| == |g| && AllChecked(g, m, Hypotheses(|g|), false)
    ensures Justified(g, m, Hypotheses(|g|), 5, 4)
  {
    AmbiguousRefs(g, m);
    AmbiguousRoots(g, m);
    HypothesesAre(|g|);
    hide Root, Hypotheses, Shape, Refs, Ranked, Closed, FwdId;
    var h := Hypotheses(|g|);
    assert JustifiedSlot(g, m, h, 5, 4, 0) && JustifiedSlot(g, m, h, 5, 4, 1);
    hide JustifiedSlot;
    assert Checked(g, m, h, false, 1) && Checked(g, m, h, false, 2) && Checked(g, m, h, false, 4);
  }

  /** The pair and its slots are what any accepted comparison has to record. */
  lemma MustRecord(g: Graph, m: IdMap, h: IdMap)
    requires Ambiguous(g, m) && |h| == |g| && AllChecked(g, m, h, false) && Justified(g, m, h, 5, 4)
    ensures h[4] == 5 && h[1] == 3 && h[2] == 6
  {
    AmbiguousRefs(g, m);
    AmbiguousRoots(g, m);
    hide Root, Shape, Refs, Ranked, Closed, FwdId;
    assert Checked(g, m, h, false, 4) && !Mixed(g, 5, 4);
    assert JustifiedSlot(g, m, h, 5, 4, 0) && JustifiedSlot(g, m, h, 5, 4, 1);
  }

  /** And nothing else: more would not be needed. */
  lemma RecordsJust(g: Graph, m: IdMap, h: IdMap, list: seq<nat>)
    requires Ambiguous(g, m) && AcceptedBy(g, m, false, 5, 4, h, list)
    ensures h == Hypotheses(|g|)
  {
    hide AllChecked, Checked, Justified, Recorded, Covers;
    Compared(g, m);
    MustRecord(g, m, h);
    CompletesNothing(g, m, Hypotheses(|g|), false);
    CoversOnly(g, h, Hypotheses(|g|));
  }

  lemma CompletesNothing(g: Graph, m: IdMap, h: IdMap, off: bool)
    requires Ranked(g, m) && |h| == |g| && AllChecked(g, m, h, off)
    ensures Completes(g, m, NoHypotheses(|g|), h, off)
  {
  }

  lemma CoversOnly(g: Graph, h: IdMap, h': IdMap)
    requires |h| == |h'| == |g| <= UNPROCESSED && Covers(g, h, h')
    ensures forall c :: 0 <= c < |g| && h'[c] == UNPROCESSED ==> h[c] == UNPROCESSED
  {
  }

  /** In depth-first order. */
  lemma RecordsInOrder(g: Graph, m: IdMap, list: seq<nat>)
    requires Ambiguous(g, m) && HypotOk(Hypotheses(|g|), list, |g|) && Recorded(g, m, 4, list)
    ensures list == [4, 1, 2]
  {
    RecordedIds(|g|, list);
    hide *;
    var t, u := SplitRecord(g, m, list);
    assert forall c :: c in t || c in u ==> c in list;
    ForwardAlone(g, m, 1, t);
    ForwardAlone(g, m, 2, u);
    assert t == [1] && u == [2];
  }

  lemma RecordedIds(n: nat, list: seq<nat>)
    requires n >= 7 && HypotOk(Hypotheses(n), list, n)
    ensures 4 in list && 1 in list && 2 in list && forall c :: c in list ==> c == 4 || c == 1 || c == 2
  {
    HypothesesAre(n);
    hide Hypotheses;
  }

  lemma SplitRecord(g: Graph, m: IdMap, list: seq<nat>) returns (t: seq<nat>, u: seq<nat>)
    requires Ambiguous(g, m) && list != [] && Recorded(g, m, 4, list)
    ensures list == [4] + t + u && Recorded(g, m, 1, t) && Recorded(g, m, 2, u)
  {
    hide Recorded, RecordedSlots;
    AmbiguousRefs(g, m);
    AmbiguousRoots(g, m);
    assert SlotIds(g[4]) == [1, 2];
    RecordedFirst(g, m, 4, list);
    t, u := RecordedTwo(g, m, 1, 2, list[1..]);
  }

  lemma ForwardAlone(g: Graph, m: IdMap, f: nat, s: seq<nat>)
    requires Ambiguous(g, m) && (f == 1 || f == 2) && Recorded(g, m, f, s) && 0 !in s
    ensures s == [] || s == [f]
  {
    hide Recorded, RecordedSlots;
    AmbiguousRefs(g, m);
    AmbiguousRoots(g, m);
    assert SlotIds(g[f]) == [0];
    if s != [] {
      RecordedFirst(g, m, f, s);
      RecordedSlot(g, m, 0, s[1..]);
      if |s| > 1 {
        RecordedFirst(g, m, 0, s[1..]);
      }
    }
  }

  // ---------------------------------------------------------------------------
  // Its merge

  /** 5 joins 4; the one forward both stand for is resolved to 3; and then 6 joins 3, with
      which it has never been compared. */
  lemma ForwardsCanMergeDistinctStructs(g: Graph, m: IdMap, h: IdMap)
    requires Ambiguous(g, m) && MapInv(g, m, false) && h == Hypotheses(|g|) && PairsOk(g, false, [4, 1, 2], h)
    ensures MergeAll(g, m, [4, 1, 2], h) == AfterMerge(m) && AfterMerge(m)[6] == 3
  {
    hide Ranked, MapInv, PairsOk, MergeStep, MergeAll, Closed, Ambiguous;
    AmbiguousParts(g, m);
    HypothesesAre(|g|);
    StepsOfMerge(g, m);
    MergeThree(g, m, h, m[5 := 4], m[5 := 4][1 := 3]);
  }

  lemma StepsOfMerge(g: Graph, m: IdMap)
    requires Ambiguous(g, m)
    ensures MergeStep(g, m, 4, 5) == m[5 := 4] && Ranked(g, m[5 := 4])
    ensures MergeStep(g, m[5 := 4], 1, 3) == m[5 := 4][1 := 3] && Ranked(g, m[5 := 4][1 := 3])
    ensures MergeStep(g, m[5 := 4][1 := 3], 2, 6) == AfterMerge(m)
  {
    AmbiguousRefs(g, m);
    hide Closed, Shape, Refs;
    var m1, m2 := m[5 := 4], m[5 := 4][1 := 3];
    RankedLater(g, m);
    assert Root(m, 5) == 5 && Root(m, 4) == 4;
    assert Root(m1, 3) == 3 && Root(m1, 1) == 1;
    assert Root(m2, 6) == 6 && Root(m2, 2) == 3;
  }

  lemma RankedLater(g: Graph, m: IdMap)
    requires Ambiguous(g, m)
    ensures Ranked(g, m[5 := 4]) && Ranked(g, m[5 := 4][1 := 3])
  {
    hide Closed, Shape, Refs;
    var m1, m2 := m[5 := 4], m[5 := 4][1 := 3];
    forall x | 0 <= x < |m1| && Mapped(m1, x) ensures LinkOk(g, m1, x) {
      assert x != 5 ==> Mapped(m, x) && LinkOk(g, m, x);
    }
    forall x | 0 <= x < |m2| && Mapped(m2, x) ensures LinkOk(g, m2, x) {
      assert x != 1 ==> Mapped(m1, x) && LinkOk(g, m1, x);
    }
  }

  /** Unrolls a merge of three pairs. */
  lemma MergeThree(g: Graph, m: IdMap, h: IdMap, m1: IdMap, m2: IdMap)
    requires MapInv(g, m, false) && PairsOk(g, false, [4, 1, 2], h) && |h| == |g| > 6
    requires h[4] == 5 && h[1] == 3 && h[2] == 6
    requires MergeStep(g, m, 4, 5) == m1 && Ranked(g, m1)
    requires MergeStep(g, m1, 1, 3) == m2 && Ranked(g, m2)
    ensures MergeAll(g, m, [4, 1, 2], h) == MergeStep(g, m2, 2, 6)
  {
    hide MapInv, MergeStep, Refines, MergeFrame, Ranked;
    InvParts(g, m, false);
    var list := [4, 1, 2];
    assert list[..2] == [4, 1] && [4, 1][..1] == [4] && [4][..0] == [];
    assert PairOk(g, false, list[0], h[4]) && PairOk(g, false, list[1], h[1]) && PairOk(g, false, list[2], h[2]);
    assert MergeAll(g, m, [4], h) == m1;
    assert MergeAll(g, m, [4, 1], h) == m2;
  }

  // ---------------------------------------------------------------------------
  // What the struct pass makes of 5

  lemma OutcomeOf5(g: Graph, m: IdMap)
    requires Ambiguous(g, m)
    ensures StepsTo(g, m, AfterMerge(m), 5)
  {
    hide Closed, Ranked, Merged, Joined, NoneFiled, Unmatched, SigHash, TableComplete, Shape, Refs;
    AmbiguousParts(g, m);
    forall m', table | TableComplete(g, m, table) && StructOutcome(g, m, m', table, false, 5)
      ensures m' == AfterMerge(m)
    {
      if Joined(g, m, m', false, 5) {
        JoinedTo4(g, m, m');
      } else {
        Not5Alone(g, m, table);
      }
    }
  }

  /** 5 finds 4 in the table, and could be it. */
  lemma Not5Alone(g: Graph, m: IdMap, table: seq<(int, nat)>)
    requires Ambiguous(g, m) && TableComplete(g, m, table)
    ensures !NoneFiled(g, m, table, false, 5, SigHash(g[5]))
  {
    Compared(g, m);
    AmbiguousRefs(g, m);
    hide AllChecked, Justified, Ranked, Refs, Shape;
    assert SelfMapped(m, 4) && Filed(g, table, 4);
    MatchesShareHash(g[4], g[5]);
    assert !Unmatched(g, m, false, 5, 4);
  }

  lemma JoinedTo4(g: Graph, m: IdMap, m': IdMap)
    requires Ambiguous(g, m) && Joined(g, m, m', false, 5)
    ensures m' == AfterMerge(m)
  {
    hide Merged, Closed, Ranked, Shape;
    var cand: nat, m1: IdMap :| JoinedTo(g, m, m1, m', false, 5, cand);
    SameShapeSameHeader(g[cand], g[5]);
    assert cand == 4;
    MergedFrom4(g, m, m1);
  }

  lemma MergedFrom4(g: Graph, m: IdMap, m1: IdMap)
    requires Ambiguous(g, m) && Merged(g, m, m1, false, 5, 4)
    ensures m1 == AfterMerge(m)
  {
    hide AcceptedBy, MapInv, Ambiguous, PairsOk, Ranked;
    AmbiguousParts(g, m);
    var h, list :| AcceptedBy(g, m, false, 5, 4, h, list) && MergedBy(g, m, m1, h, list);
    RecordsJust(g, m, h, list);
    ListOf(g, m, h, list);
    RecordsInOrder(g, m, list);
    ForwardsCanMergeDistinctStructs(g, m, h);
  }

  lemma ListOf(g: Graph, m: IdMap, h: IdMap, list: seq<nat>)
    requires Ambiguous(g, m) && AcceptedBy(g, m, false, 5, 4, h, list)
    ensures HypotOk(h, list, |g|) && Recorded(g, m, 4, list)
  {
  }
}
