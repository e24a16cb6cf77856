/** Two structs of one name that do not agree: deduplication with forward resolution on turns
    one into the other. */
module DedupLost {
  import opened BtfTypes
  import opened BtfCompare
  import opened BtfGraph
  import opened BtfAgree
  import opened DedupMap
  import opened DedupState
  import opened DedupRefs
  import opened DedupRemap
  import Dedup
  import opened DedupRuns
  import opened DedupForwards

  const TWO_FORWARDS: Graph :=
    [VOID, FWD_S, FWD_S, StructOf(1, 4, []), PairOf(1, 2), PairOf(3, 6), StructOf(1, 8, [])]

  /** One `struct s` of 4 bytes, and a struct with two of them. */
  const MERGED: Graph := [VOID, StructOf(1, 4, []), PairOf(1, 1)]

  /** The canonical map after the primitives, before 4 and before 5, and at the end. */
  const TWO_FORWARDS_START: IdMap := [0, 1, 1, UNPROCESSED, UNPROCESSED, UNPROCESSED, UNPROCESSED]
  const BEFORE_4: IdMap := [0, 1, 1, 3, UNPROCESSED, UNPROCESSED, UNPROCESSED]
  const BEFORE_5: IdMap := [0, 1, 1, 3, 4, UNPROCESSED, UNPROCESSED]
  const TWO_FORWARDS_END: IdMap := [0, 3, 1, 3, 4, 4, 3]

  lemma TwoForwardsRefs()
    ensures |TWO_FORWARDS| == 7 && Refs(TWO_FORWARDS[4]) == [1, 2] && Refs(TWO_FORWARDS[5]) == [3, 6]
    ensures Refs(TWO_FORWARDS[0]) == Refs(TWO_FORWARDS[3]) == Refs(TWO_FORWARDS[6]) == []
    ensures Refs(TWO_FORWARDS[1]) == Refs(TWO_FORWARDS[2]) == [0]
  {
  }

  lemma TwoForwardsClosed()
    ensures Closed(TWO_FORWARDS) && Plain(TWO_FORWARDS) && |TWO_FORWARDS| == 7
  {
    var g := TWO_FORWARDS;
    TwoForwardsRefs();
    hide Refs;
    forall x | 0 <= x < |g| ensures RefsBelow(g[x], |g|) && WellFormed(g[x]) {
      assert x == 0 || x == 1 || x == 2 || x == 3 || x == 4 || x == 5 || x == 6;
    }
  }

  lemma TwoForwardsSizes()
    ensures Shape(TWO_FORWARDS[3]).size == 4 && Shape(TWO_FORWARDS[6]).size == 8
  {
  }

  /** The two definitions announced by one forward do not agree: they have different sizes. */
  lemma TwoForwardsInconsistent()
    ensures Closed(TWO_FORWARDS) && !Consistent(TWO_FORWARDS)
  {
    var g := TWO_FORWARDS;
    TwoForwardsClosed();
    TwoForwardsSizes();
    hide Closed, Refs, Shape, Agree;
    if Agree(g, 3, 6) {
      AgreeOpens(g, 3, 6);
    }
    assert Announced(g, 3, 6, 1);
  }

  /** The canonical map when the struct pass comes to each type. */
  function TwoForwardsRun(): seq<IdMap> {
    [TWO_FORWARDS_START, TWO_FORWARDS_START, TWO_FORWARDS_START, TWO_FORWARDS_START, BEFORE_4, BEFORE_5,
      TWO_FORWARDS_END, TWO_FORWARDS_END]
  }

  lemma TwoForwardsGoesThrough()
    ensures GoesThrough(TWO_FORWARDS, TwoForwardsRun())
    ensures EndsAt(TWO_FORWARDS, TWO_FORWARDS_END, TWO_FORWARDS_END, TWO_FORWARDS)
  {
    var g, run := TWO_FORWARDS, TwoForwardsRun();
    TwoForwardsClosed();
    TwoForwardsBegins();
    TwoForwardsMaps();
    hide Plain, MapsForwards, MapsStructs, StepsTo, BeginsWith, StructOf, PairOf, EndsAt, Shape;
    forall i | 0 < i < 7 ensures MapsForwards(g, run[i]) && StepsTo(g, run[i], run[i + 1], i) {
      TwoForwardsStep(i);
    }
    NoPointers(g, TWO_FORWARDS_END);
  }

  lemma TwoForwardsBegins()
    ensures BeginsWith(TWO_FORWARDS, TWO_FORWARDS_START)
  {
    hide PrimsDone, PrimsExact, NoDuplicates;
    var g := TWO_FORWARDS;
    forall m: IdMap | |m| == |g| > 0 && m[0] == 0 && PrimsDone(g, m, |g|) && PrimsExact(g, m)
                   && NoDuplicates(false, g, m)
      ensures m == TWO_FORWARDS_START
    {
      ForwardsTogether(g, m);
      StructsWait(g, m);
      assert m[3] == m[4] == m[5] == m[6] == UNPROCESSED;
    }
  }

  lemma TwoForwardsMaps()
    ensures MapsStructs(TWO_FORWARDS, TWO_FORWARDS_END)
    ensures |TWO_FORWARDS| == 7 && forall x :: 0 <= x < 7 ==> TWO_FORWARDS[x].info.kind != Ptr
  {
  }

  lemma TwoForwardsStep(i: nat)
    requires 0 < i < 7
    ensures MapsForwards(TWO_FORWARDS, TwoForwardsRun()[i])
    ensures StepsTo(TWO_FORWARDS, TwoForwardsRun()[i], TwoForwardsRun()[i + 1], i)
  {
    hide StepsTo, Closed;
    if i == 3 || i == 4 {
      TwoForwardsOwn();
    } else if i == 5 {
      TwoForwardsAmbiguous();
      OutcomeOf5(TWO_FORWARDS, BEFORE_5);
    } else {
      NothingToDo(TWO_FORWARDS, TwoForwardsRun()[i], i);
    }
  }

  lemma TwoForwardsOwn()
    ensures StepsTo(TWO_FORWARDS, TWO_FORWARDS_START, BEFORE_4, 3) && StepsTo(TWO_FORWARDS, BEFORE_4, BEFORE_5, 4)
  {
    hide StepsTo, Closed;
    TwoForwardsClosed();
    FirstOfItsName(TWO_FORWARDS, TWO_FORWARDS_START, 3);
    FirstOfItsName(TWO_FORWARDS, BEFORE_4, 4);
    assert TWO_FORWARDS_START[3 := 3] == BEFORE_4 && BEFORE_4[4 := 4] == BEFORE_5;
  }

  lemma TwoForwardsAmbiguous()
    ensures Ambiguous(TWO_FORWARDS, BEFORE_5) && AfterMerge(BEFORE_5) == TWO_FORWARDS_END
  {
    TwoForwardsClosed();
  }

  lemma CanonOfMerged()
    ensures CanonIds(TWO_FORWARDS_END, 7) == [0, 3, 4]
    ensures CanonCount(TWO_FORWARDS_END, 3) == 1
  {
    var m := TWO_FORWARDS_END;
    hide Root, CanonIds, CanonCount;
    CanonNone(m);
    CanonNext(m, 0);
    CanonNext(m, 1);
    CanonNext(m, 2);
    CanonNext(m, 3);
    CanonNext(m, 4);
    CanonNext(m, 5);
    CanonNext(m, 6);
  }

  lemma RootsOfMerged()
    ensures Root(TWO_FORWARDS_END, 1) == Root(TWO_FORWARDS_END, 2) == Root(TWO_FORWARDS_END, 6) == 3
    ensures NewId(TWO_FORWARDS_END, 1) == NewId(TWO_FORWARDS_END, 2) == NewId(TWO_FORWARDS_END, 6) == 1
  {
    CanonOfMerged();
    hide CanonIds, CanonCount;
  }

  lemma OutputIsMerged(out: Graph)
    requires IsOutput(TWO_FORWARDS, TWO_FORWARDS_END, out)
    ensures out == MERGED
  {
    var g, m := TWO_FORWARDS, TWO_FORWARDS_END;
    CanonOfMerged();
    RootsOfMerged();
    hide CanonIds, CanonCount, Root, NewId;
    assert OutputEntry(g, m, out, 0) && OutputEntry(g, m, out, 1) && OutputEntry(g, m, out, 2);
    assert Refs(g[4]) == [1, 2] && NewRefs(m, Refs(g[4])) == [1, 1];
    assert out[1] == MERGED[1];
    assert out[2].tail.members == MERGED[2].tail.members;
  }

  /** With forward resolution on, deduplicating the graph succeeds, and the struct of 8 bytes
      has become the one of 4. */
  method TwoForwardsDeduplicated() returns (d: Dedup.Dedup, r: int)
    ensures r == 0 && d.nrTypes <= d.types.Length && d.types[..d.nrTypes] == MERGED
    ensures d.orig == TWO_FORWARDS && !d.dontResolveFwds && d.canon[..] == TWO_FORWARDS_END
  {
    hide Closed, GoesThrough, EndsAt, IsOutput;
    TwoForwardsClosed();
    TwoForwardsGoesThrough();
    d, r := Passes(TWO_FORWARDS, TwoForwardsRun(), TWO_FORWARDS_END, TWO_FORWARDS);
    OutputIsMerged(d.types[..d.nrTypes]);
  }

  /** That is a loss no forward explains. */
  lemma DefinitionLost()
    ensures Closed(TWO_FORWARDS) && Closed(MERGED) && NewId(TWO_FORWARDS_END, 6) == 1
    ensures !IsFwdLike(TWO_FORWARDS[6]) && !MatchTo(TWO_FORWARDS, MERGED, 1, 6, 1)
  {
    TwoForwardsClosed();
    TwoForwardsSizes();
    RootsOfMerged();
    hide CanonIds, CanonCount, Root, NewId;
    assert Refs(MERGED[0]) == [] && Refs(MERGED[1]) == [] && Refs(MERGED[2]) == [1, 1];
    assert Shape(MERGED[1]).size == 4;
    assert MERGED == [MERGED[0], MERGED[1], MERGED[2]];
  }
}
