/** Two structs of one name that agree but for a forward: deduplication with forward resolution
    on leaves the one that has the forward. */
module DedupHalf {
  import opened BtfTypes
  import opened BtfCompare
  import opened BtfGraph
  import opened BtfAgree
  import opened DedupMap
  import opened DedupState
  import opened DedupRefs
  import opened DedupRemap
  import Dedup
  import opened DedupRuns
  import opened DedupForwards

  function PtrTo(x: nat): BtfType { BtfType(0, Info(Ptr, 0, false, 0, 0), x, NoTail) }

  function Holder(x: nat): BtfType { StructOf(1, 8, [Member(5, x, 0)]) }

  /** The `struct s` of 3 points at a `struct t` that is not defined, the one of 6 at one that
      is. */
  const HALF_DEFINED: Graph :=
    [VOID, FWD_S, FWD_S, Holder(8), PairOf(1, 2), PairOf(3, 6), Holder(10), FwdOf(6), PtrTo(7), StructOf(6, 4, []),
      PtrTo(9)]

  const HALF_START: IdMap :=
    [0, 1, 1, UNPROCESSED, UNPROCESSED, UNPROCESSED, UNPROCESSED, 7, UNPROCESSED, UNPROCESSED, UNPROCESSED]
  const HALF_BEFORE_4: IdMap :=
    [0, 1, 1, 3, UNPROCESSED, UNPROCESSED, UNPROCESSED, 7, UNPROCESSED, UNPROCESSED, UNPROCESSED]
  const HALF_BEFORE_5: IdMap :=
    [0, 1, 1, 3, 4, UNPROCESSED, UNPROCESSED, 7, UNPROCESSED, UNPROCESSED, UNPROCESSED]
  const HALF_AFTER_5: IdMap := [0, 3, 1, 3, 4, 4, 3, 7, UNPROCESSED, UNPROCESSED, UNPROCESSED]
  const HALF_STRUCTS: IdMap := [0, 3, 1, 3, 4, 4, 3, 7, UNPROCESSED, 9, UNPROCESSED]
  const HALF_END: IdMap := [0, 3, 1, 3, 4, 4, 3, 7, 8, 9, 10]

  /** Only the `struct s` of 3 is left, pointing at the forward. */
  const HALF_LEFT: Graph := [VOID, Holder(4), PairOf(1, 1), FwdOf(6), PtrTo(3), StructOf(6, 4, []), PtrTo(5)]

  function HalfRun(): seq<IdMap> {
    [HALF_START, HALF_START, HALF_START, HALF_START, HALF_BEFORE_4, HALF_BEFORE_5, HALF_AFTER_5, HALF_AFTER_5,
      HALF_AFTER_5, HALF_AFTER_5, HALF_STRUCTS, HALF_STRUCTS]
  }

  lemma HalfRefs()
    ensures |HALF_DEFINED| == 11 && Refs(HALF_DEFINED[0]) == [] && Refs(HALF_DEFINED[9]) == []
    ensures Refs(HALF_DEFINED[1]) == Refs(HALF_DEFINED[2]) == Refs(HALF_DEFINED[7]) == [0]
    ensures Refs(HALF_DEFINED[3]) == [8] && Refs(HALF_DEFINED[4]) == [1, 2] && Refs(HALF_DEFINED[5]) == [3, 6]
    ensures Refs(HALF_DEFINED[6]) == [10] && Refs(HALF_DEFINED[8]) == [7] && Refs(HALF_DEFINED[10]) == [9]
  {
  }

  lemma HalfClosed()
    ensures Closed(HALF_DEFINED) && Plain(HALF_DEFINED)
  {
    var g := HALF_DEFINED;
    HalfRefs();
    hide Refs;
    forall x | 0 <= x < |g| ensures RefsBelow(g[x], |g|) && WellFormed(g[x]) {
      assert x == 0 || x == 1 || x == 2 || x == 3 || x == 4 || x == 5 || x == 6 || x == 7 || x == 8 || x == 9
          || x == 10;
    }
  }

  // ---------------------------------------------------------------------------
  // All definitions of an announced name agree

  lemma HalfAgrees()
    ensures Closed(HALF_DEFINED) && Agree(HALF_DEFINED, 3, 6) && Agree(HALF_DEFINED, 6, 3)
  {
    var g := HALF_DEFINED;
    HalfClosed();
    HalfRefs();
    HalfShapes();
    hide Refs, Closed, Agree;
    ForwardAgrees(g, 7, 9);
    AgreeStep(g, 8, 10);
    AgreeStep(g, 3, 6);
    AgreeSymmetric(g, 3, 6);
  }

  lemma HalfShapes()
    ensures Shape(HALF_DEFINED[8]) == Shape(HALF_DEFINED[10]) && Shape(HALF_DEFINED[3]) == Shape(HALF_DEFINED[6])
  {
    assert Shape(HALF_DEFINED[3]).tail.members == Shape(HALF_DEFINED[6]).tail.members;
  }

  lemma HalfConsistent()
    ensures Closed(HALF_DEFINED) && Consistent(HALF_DEFINED)
  {
    var g := HALF_DEFINED;
    HalfClosed();
    HalfAgrees();
    hide Closed, Agree;
    forall x, y, f | 0 <= x < |g| && 0 <= y < |g| && 0 <= f < |g| && Announced(g, x, y, f) ensures Agree(g, x, y) {
      HalfAnnounced(x, y, f);
      if x == y {
        AgreeItself(g, x);
      }
    }
  }

  lemma HalfAnnounced(x: nat, y: nat, f: nat)
    requires x < 11 && y < 11 && f < 11 && Announced(HALF_DEFINED, x, y, f)
    ensures x == y || (x == 3 && y == 6) || (x == 6 && y == 3)
  {
  }

  // ---------------------------------------------------------------------------
  // The passes

  lemma HalfGoesThrough()
    ensures Closed(HALF_DEFINED) && GoesThrough(HALF_DEFINED, HalfRun())
  {
    var g, run := HALF_DEFINED, HalfRun();
    HalfClosed();
    HalfBegins();
    HalfMaps();
    hide Closed, Plain, MapsForwards, MapsStructs, StepsTo, BeginsWith, StructOf, PairOf, Holder, PtrTo, Shape;
    forall i | 0 < i < 11 ensures MapsForwards(g, run[i]) && StepsTo(g, run[i], run[i + 1], i) {
      HalfStep(i);
    }
  }

  lemma HalfBegins()
    ensures BeginsWith(HALF_DEFINED, HALF_START)
  {
    hide PrimsDone, PrimsExact, NoDuplicates;
    var g := HALF_DEFINED;
    forall m: IdMap | |m| == |g| > 0 && m[0] == 0 && PrimsDone(g, m, |g|) && PrimsExact(g, m)
                   && NoDuplicates(false, g, m)
      ensures m == HALF_START
    {
      HalfBegun(m);
    }
  }

  lemma HalfBegun(m: IdMap)
    requires |m| == 11 && m[0] == 0 && PrimsDone(HALF_DEFINED, m, 11) && PrimsExact(HALF_DEFINED, m)
    requires NoDuplicates(false, HALF_DEFINED, m)
    ensures m == HALF_START
  {
    hide PrimsDone, PrimsExact, NoDuplicates;
    ForwardsTogether(HALF_DEFINED, m);
    StructsWait(HALF_DEFINED, m);
    FwdEntry(HALF_DEFINED, m, 7);
    assert m[3] == m[4] == m[5] == m[6] == m[8] == m[9] == m[10] == UNPROCESSED;
  }

  lemma HalfMaps()
    ensures |HALF_DEFINED| == 11 && MapsStructs(HALF_DEFINED, HALF_STRUCTS)
  {
  }

  lemma HalfStep(i: nat)
    requires 0 < i < 11
    ensures MapsForwards(HALF_DEFINED, HalfRun()[i]) && StepsTo(HALF_DEFINED, HalfRun()[i], HalfRun()[i + 1], i)
  {
    hide StepsTo, Closed;
    if i == 3 || i == 4 || i == 9 {
      HalfOwn();
    } else if i == 5 {
      HalfAmbiguous();
      OutcomeOf5(HALF_DEFINED, HALF_BEFORE_5);
    } else {
      NothingToDo(HALF_DEFINED, HalfRun()[i], i);
    }
  }

  lemma HalfOwn()
    ensures StepsTo(HALF_DEFINED, HALF_START, HALF_BEFORE_4, 3)
    ensures StepsTo(HALF_DEFINED, HALF_BEFORE_4, HALF_BEFORE_5, 4)
    ensures StepsTo(HALF_DEFINED, HALF_AFTER_5, HALF_STRUCTS, 9)
  {
    hide StepsTo, Closed, LinkOk;
    HalfClosed();
    HalfRanked();
    FirstOfItsName(HALF_DEFINED, HALF_START, 3);
    FirstOfItsName(HALF_DEFINED, HALF_BEFORE_4, 4);
    FirstOfItsName(HALF_DEFINED, HALF_AFTER_5, 9);
    assert HALF_START[3 := 3] == HALF_BEFORE_4 && HALF_BEFORE_4[4 := 4] == HALF_BEFORE_5;
    assert HALF_AFTER_5[9 := 9] == HALF_STRUCTS;
  }

  lemma HalfRanked()
    ensures Ranked(HALF_DEFINED, HALF_START) && Ranked(HALF_DEFINED, HALF_BEFORE_4)
    ensures Ranked(HALF_DEFINED, HALF_AFTER_5)
  {
  }

  lemma HalfAmbiguous()
    ensures Ambiguous(HALF_DEFINED, HALF_BEFORE_5) && AfterMerge(HALF_BEFORE_5) == HALF_AFTER_5
  {
    HalfClosed();
  }

  /** The pointers go to different types, so they stay. */
  lemma HalfEnds()
    ensures EndsAt(HALF_DEFINED, HALF_STRUCTS, HALF_END, HALF_DEFINED)
  {
    hide PassedRefs;
    forall m', g1 | PassedRefs(HALF_DEFINED, HALF_STRUCTS, m', g1) ensures m' == HALF_END && g1 == HALF_DEFINED {
      HalfEnded(m', g1);
    }
  }

  lemma HalfEnded(m: IdMap, g: Graph)
    requires PassedRefs(HALF_DEFINED, HALF_STRUCTS, m, g)
    ensures m == HALF_END && g == HALF_DEFINED
  {
    HalfKept(m);
    HalfSame(g, m);
    PointerSame(g, m, 8);
    PointerSame(g, m, 10);
    OwnRepresentative(g, m, 8);
    OwnRepresentative(g, m, 10);
  }

  lemma HalfKept(m: IdMap)
    requires MappedKept(HALF_STRUCTS, m)
    ensures |m| == 11 && m[0] == 0 && m[1] == 3 && m[2] == 1 && m[3] == 3 && m[4] == 4 && m[5] == 4 && m[6] == 3
    ensures m[7] == 7 && m[9] == 9
  {
    assert forall x :: 0 <= x < 11 && x != 8 && x != 10 ==> Mapped(HALF_STRUCTS, x);
  }

  lemma HalfSame(g: Graph, m: IdMap)
    requires RefInv(HALF_DEFINED, g, m, [])
    ensures |g| == |m| == 11 && forall x :: 0 <= x < 11 && x != 8 && x != 10 ==> g[x] == HALF_DEFINED[x]
  {
    forall x | 0 <= x < 11 && x != 8 && x != 10 ensures g[x] == HALF_DEFINED[x] {
      assert RefEntry(HALF_DEFINED, g, m, [], x);
    }
  }

  /** A pointer to a canonical type is not changed. */
  lemma PointerSame(g: Graph, m: IdMap, x: nat)
    requires |m| == 11 && m[7] == 7 && m[9] == 9 && (x == 8 || x == 10)
    requires AllMapped(m) && RefInv(HALF_DEFINED, g, m, []) && SameShapes(HALF_DEFINED, g)
    ensures |g| == 11 && g[x] == HALF_DEFINED[x]
  {
    HalfRefs();
    hide Refs;
    assert RefEntry(HALF_DEFINED, g, m, [], x) && Mapped(m, x);
    assert SlotResolved(HALF_DEFINED, g, m, x, 0);
    assert Refs(g[x]) == Refs(HALF_DEFINED[x]);
    ShapeAndRefsDetermine(g[x], HALF_DEFINED[x]);
  }

  /** No other type has its descriptor. */
  lemma OwnRepresentative(g: Graph, m: IdMap, x: nat)
    requires |m| == 11 && AllMapped(m) && RefInv(HALF_DEFINED, g, m, []) && g == HALF_DEFINED && (x == 8 || x == 10)
    ensures m[x] == x
  {
    assert RefEntry(HALF_DEFINED, g, m, [], x) && Mapped(m, x);
  }

  // ---------------------------------------------------------------------------
  // The output

  lemma HalfIds()
    ensures CanonIds(HALF_END, 11) == [0, 3, 4, 7, 8, 9, 10] && CanonCount(HALF_END, 11) == 7
    ensures CanonCount(HALF_END, 0) == 0 && CanonCount(HALF_END, 3) == 1 && CanonCount(HALF_END, 7) == 3
    ensures CanonCount(HALF_END, 8) == 4 && CanonCount(HALF_END, 9) == 5
  {
    hide Root, CanonIds, CanonCount;
    var m := HALF_END;
    CanonNone(m);
    CanonNext(m, 0);
    CanonNext(m, 1);
    CanonNext(m, 2);
    CanonNext(m, 3);
    CanonNext(m, 4);
    CanonNext(m, 5);
    CanonNext(m, 6);
    CanonNext(m, 7);
    CanonNext(m, 8);
    CanonNext(m, 9);
    CanonNext(m, 10);
  }

  lemma HalfNewIds()
    ensures Root(HALF_END, 0) == 0 && NewId(HALF_END, 0) == 0
    ensures Root(HALF_END, 1) == Root(HALF_END, 2) == Root(HALF_END, 6) == 3
    ensures NewId(HALF_END, 1) == NewId(HALF_END, 2) == NewId(HALF_END, 6) == 1
    ensures Root(HALF_END, 7) == 7 && NewId(HALF_END, 7) == 3 && Root(HALF_END, 8) == 8 && NewId(HALF_END, 8) == 4
    ensures Root(HALF_END, 9) == 9 && NewId(HALF_END, 9) == 5
  {
    HalfIds();
    hide CanonCount, CanonIds;
  }

  lemma HalfOutput(out: Graph)
    requires IsOutput(HALF_DEFINED, HALF_END, out)
    ensures out == HALF_LEFT
  {
    var g, m := HALF_DEFINED, HALF_END;
    HalfIds();
    hide CanonIds, CanonCount, Root, NewId, CanRemap, Remap;
    assert |out| == 7;
    forall k | 0 <= k < 7 ensures out[k] == HALF_LEFT[k] {
      assert OutputEntry(g, m, out, k);
      HalfEntry(k, out[k]);
    }
  }

  lemma HalfEntry(k: nat, t: BtfType)
    requires k < 7 && CanRemap(HALF_END, HALF_DEFINED[[0, 3, 4, 7, 8, 9, 10][k]])
    requires t == Remap(HALF_END, HALF_DEFINED[[0, 3, 4, 7, 8, 9, 10][k]])
    ensures t == HALF_LEFT[k]
  {
    HalfNewIds();
    HalfRefs();
    hide Root, NewId, CanonCount;
    var u := HALF_DEFINED[[0, 3, 4, 7, 8, 9, 10][k]];
    assert NewRefs(HALF_END, Refs(u)) ==
           [[], [4], [1, 1], [0], [3], [], [5]][k];
    if k == 1 || k == 2 {
      assert t.tail.members == HALF_LEFT[k].tail.members;
    } else if k == 5 {
      assert t.tail.members == [];
    }
  }

  /** With forward resolution on, deduplicating the graph succeeds, and the `struct s` of 6 has
      become the one of 3. */
  method HalfDeduplicated() returns (d: Dedup.Dedup, r: int)
    ensures r == 0 && d.nrTypes <= d.types.Length && d.types[..d.nrTypes] == HALF_LEFT
    ensures d.orig == HALF_DEFINED && !d.dontResolveFwds && d.canon[..] == HALF_END
  {
    hide Closed, GoesThrough, EndsAt, IsOutput;
    HalfGoesThrough();
    HalfEnds();
    d, r := Passes(HALF_DEFINED, HalfRun(), HALF_END, HALF_DEFINED);
    HalfOutput(d.types[..d.nrTypes]);
  }

  lemma HalfLeftClosed()
    ensures Closed(HALF_LEFT) && Refs(HALF_LEFT[1]) == [4] && Refs(HALF_LEFT[4]) == [3]
  {
    var g := HALF_LEFT;
    assert Refs(g[0]) == Refs(g[5]) == [] && Refs(g[1]) == [4] && Refs(g[2]) == [1, 1];
    assert Refs(g[3]) == [0] && Refs(g[4]) == [3] && Refs(g[6]) == [5];
    hide Refs;
    forall x | 0 <= x < |g| ensures RefsBelow(g[x], |g|) && WellFormed(g[x]) {
      assert x == 0 || x == 1 || x == 2 || x == 3 || x == 4 || x == 5 || x == 6;
    }
  }

  /** So a definition can turn into a forward below a definition although all definitions of
      announced names agree: 6 led to the definition of `struct t`, what stands for it leads to
      the forward. */
  lemma DefinitionHidden()
    ensures Closed(HALF_DEFINED) && Consistent(HALF_DEFINED) && !Univocal(HALF_DEFINED) && Closed(HALF_LEFT)
    ensures NewId(HALF_END, 6) == 1 && !SpellsTo(HALF_DEFINED, HALF_LEFT, 3, 6, 1)
  {
    HalfClosed();
    HalfConsistent();
    HalfLeftClosed();
    HalfNewIds();
    HalfNotUnivocal();
    HalfRefs();
    hide Closed, Consistent, Univocal, Refs, Root, NewId, SpellsTo;
    if SpellsTo(HALF_DEFINED, HALF_LEFT, 3, 6, 1) {
      SpellsOpens(HALF_DEFINED, HALF_LEFT, 2, 6, 1);
      assert Refs(HALF_DEFINED[6])[0] == 10 && Refs(HALF_LEFT[1])[0] == 4;
      SpellsOpens(HALF_DEFINED, HALF_LEFT, 1, 10, 4);
      assert Refs(HALF_DEFINED[10])[0] == 9 && Refs(HALF_LEFT[4])[0] == 3;
      SpellsOpens(HALF_DEFINED, HALF_LEFT, 0, 9, 3);
    }
  }

  /** The two definitions do not mean the same. */
  lemma HalfNotUnivocal()
    ensures Closed(HALF_DEFINED) && !Univocal(HALF_DEFINED)
  {
    var g := HALF_DEFINED;
    HalfClosed();
    HalfRefs();
    if Univocal(g) {
      assert Announced(g, 3, 6, 1);
      hide Univocal, Refs, Closed, Alike;
      AlikeRefs(g, 3, 6);
      assert Refs(g[3])[0] == 8 && Refs(g[6])[0] == 10;
      AlikeRefs(g, 8, 10);
      assert Refs(g[8])[0] == 7 && Refs(g[10])[0] == 9;
      AlikeSameShape(g, 7, 9);
    }
  }
}
