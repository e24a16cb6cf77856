/** Definitions that contradict one forward need not do harm: a graph in which two structs of
    one name disagree, and which deduplication leaves as it is. */
module DedupApart {
  import opened BtfTypes
  import opened BtfCompare
  import opened BtfGraph
  import opened BtfAgree
  import opened DedupMap
  import opened DedupState
  import opened DedupRemap
  import Dedup
  import opened DedupRuns
  import opened DedupForwards

  const APART: Graph := [VOID, FWD_S, StructOf(1, 4, []), StructOf(1, 8, [])]

  const APART_START: IdMap := [0, 1, UNPROCESSED, UNPROCESSED]
  const APART_BEFORE_3: IdMap := [0, 1, 2, UNPROCESSED]
  const UNCHANGED: IdMap := [0, 1, 2, 3]

  function ApartRun(): seq<IdMap> { [APART_START, APART_START, APART_START, APART_BEFORE_3, UNCHANGED] }

  lemma ApartClosed()
    ensures Closed(APART) && Plain(APART) && |APART| == 4
    ensures Refs(APART[0]) == Refs(APART[2]) == Refs(APART[3]) == [] && Refs(APART[1]) == [0]
    ensures Shape(APART[2]).size == 4 && Shape(APART[3]).size == 8
  {
    var g := APART;
    assert Refs(g[0]) == Refs(g[2]) == Refs(g[3]) == [] && Refs(g[1]) == [0];
    hide Refs;
    forall x | 0 <= x < |g| ensures RefsBelow(g[x], |g|) && WellFormed(g[x]) {
      assert x == 0 || x == 1 || x == 2 || x == 3;
    }
  }

  lemma ApartInconsistent()
    ensures Closed(APART) && !Consistent(APART)
  {
    var g := APART;
    ApartClosed();
    hide Closed, Refs, Shape, Agree;
    if Agree(g, 2, 3) {
      AgreeOpens(g, 2, 3);
    }
    assert Announced(g, 2, 3, 1);
  }

  lemma ApartGoesThrough()
    ensures GoesThrough(APART, ApartRun()) && EndsAt(APART, UNCHANGED, UNCHANGED, APART)
  {
    hide Closed, StepsTo, BeginsWith, MapsStructs, MapsForwards, EndsAt, Plain, StructOf, Shape;
    ApartClosed();
    ApartBegins();
    ApartSteps();
    ApartMaps();
    NoPointers(APART, UNCHANGED);
  }

  lemma ApartMaps()
    ensures MapsStructs(APART, UNCHANGED) && forall x :: 0 <= x < 4 ==> APART[x].info.kind != Ptr
  {
  }

  lemma ApartBegins()
    ensures BeginsWith(APART, APART_START)
  {
    hide PrimsDone, PrimsExact, NoDuplicates;
    var g := APART;
    forall m: IdMap | |m| == |g| > 0 && m[0] == 0 && PrimsDone(g, m, |g|) && PrimsExact(g, m)
                   && NoDuplicates(false, g, m)
      ensures m == APART_START
    {
      StructsWait(g, m);
      FwdEntry(g, m, 1);
      assert m[2] == m[3] == UNPROCESSED;
    }
  }

  lemma ApartSteps()
    ensures StepsTo(APART, APART_START, APART_START, 1) && StepsTo(APART, APART_START, APART_BEFORE_3, 2)
    ensures StepsTo(APART, APART_BEFORE_3, UNCHANGED, 3)
    ensures MapsForwards(APART, APART_START) && MapsForwards(APART, APART_BEFORE_3)
  {
    hide StepsTo, Closed;
    ApartClosed();
    NothingToDo(APART, APART_START, 1);
    FirstOfItsName(APART, APART_START, 2);
    assert APART_START[2 := 2] == APART_BEFORE_3;
    ApartThird();
  }

  lemma ApartThird()
    ensures StepsTo(APART, APART_BEFORE_3, UNCHANGED, 3)
  {
    hide StepsTo, Closed;
    ApartClosed();
    hide Shape;
    forall x | 0 <= x < 4 && SelfMapped(APART_BEFORE_3, x) ensures Shape(APART[x]) != Shape(APART[3]) {
      if Shape(APART[x]) == Shape(APART[3]) {
        SameShapeSameHeader(APART[x], APART[3]);
      }
    }
    FirstOfItsShape(APART, APART_BEFORE_3, 3);
    assert APART_BEFORE_3[3 := 3] == UNCHANGED;
  }

  lemma ApartIds()
    ensures CanonCount(UNCHANGED, 4) == 4 && CanonIds(UNCHANGED, 4) == [0, 1, 2, 3]
    ensures Root(UNCHANGED, 0) == 0 && NewId(UNCHANGED, 0) == 0
  {
    var m := UNCHANGED;
    CanonNone(m);
    CanonNext(m, 0);
    CanonNext(m, 1);
    CanonNext(m, 2);
    CanonNext(m, 3);
    hide CanonIds, CanonCount;
  }

  lemma ApartOutput(out: Graph)
    requires IsOutput(APART, UNCHANGED, out)
    ensures out == APART
  {
    var g, m := APART, UNCHANGED;
    ApartClosed();
    ApartIds();
    hide Root, CanonCount, CanonIds, NewId, Shape;
    forall k | 0 <= k < 4 ensures out[k] == g[k] {
      assert OutputEntry(g, m, out, k);
      assert NewRefs(m, Refs(g[k])) == Refs(g[k]);
      SetRefsSpec(g[k], Refs(g[k]));
      ShapeAndRefsDetermine(out[k], g[k]);
    }
  }

  /** So that all definitions of an announced name agree, or mean the same, is enough, but not
      necessary. */
  method ApartDeduplicated() returns (d: Dedup.Dedup, r: int)
    ensures Closed(APART) && !Consistent(APART) && !Univocal(APART)
    ensures r == 0 && d.orig == APART && !d.dontResolveFwds
    ensures d.nrTypes <= d.types.Length && d.types[..d.nrTypes] == APART && d.canon[..] == UNCHANGED
  {
    hide Closed, GoesThrough, EndsAt, IsOutput, Consistent, Univocal;
    ApartInconsistent();
    if Univocal(APART) {
      UnivocalConsistent(APART);
    }
    ApartGoesThrough();
    d, r := Passes(APART, ApartRun(), UNCHANGED, APART);
    ApartOutput(d.types[..d.nrTypes]);
  }
}
