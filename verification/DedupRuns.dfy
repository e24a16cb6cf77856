/** The passes on graphs of structs, forwards and pointers to them: where each step can come to
    one map only, so do all of them. */
module DedupRuns {
  import opened BtfTypes
  import opened BtfCompare
  import opened BtfGraph
  import opened DedupMap
  import opened DedupComplete
  import opened DedupAccept
  import opened DedupState
  import opened DedupRefs
  import opened DedupFields
  import opened DedupRemap
  import Dedup

  function StructOf(name: nat, size: nat, members: seq<Member>): BtfType {
    BtfType(name, Info(Struct, |members|, false, 0, 0), size, Members(members))
  }

  function FwdOf(name: nat): BtfType { BtfType(name, Info(Fwd, 0, false, 0, 0), 0, NoTail) }

  predicate Plain(g: Graph) {
    forall x :: 0 <= x < |g| ==>
      g[x].info.kind in {Unkn, Fwd, Struct, Ptr} && (x > 0 ==> g[x].info.kind != Unkn)
      && (g[x].info.kind == Ptr ==> g[x].size < |g| && g[g[x].size].info.kind != Ptr)
  }

  /** Deduplicating the primitives, forwards to be resolved, comes to `m1`. */
  ghost predicate BeginsWith(g: Graph, m1: IdMap) {
    forall m: IdMap ::
      |m| == |g| > 0 && m[0] == 0 && PrimsDone(g, m, |g|) && PrimsExact(g, m) && NoDuplicates(false, g, m) ==> m == m1
  }

  /** Deduplicating struct `i` comes from `m` to `m1`. */
  ghost predicate StepsTo(g: Graph, m: IdMap, m1: IdMap, i: nat) {
    |m| == |g| &&
    forall m', table :: TableComplete(g, m, table) && StructOutcome(g, m, m', table, false, i) ==> m' == m1
  }

  /** Everything but pointers has a representative. */
  ghost predicate MapsStructs(g: Graph, m: IdMap) {
    |m| == |g| > 0 && m[0] == 0 &&
    forall x :: 0 <= x < |g| ==> if g[x].info.kind == Ptr then m[x] == UNPROCESSED else Mapped(m, x)
  }

  /** What the reference pass promises when it succeeds from `m` on. */
  ghost predicate PassedRefs(g: Graph, m: IdMap, m': IdMap, g1: Graph) {
    MappedKept(m, m') && AllMapped(m') && RefInv(g, g1, m', []) && SameShapes(g, g1)
  }

  /** The reference pass comes from `m` to `end`, and to the descriptors `g'`. */
  ghost predicate EndsAt(g: Graph, m: IdMap, end: IdMap, g': Graph) {
    forall m', g1 :: PassedRefs(g, m, m', g1) ==> m' == end && g1 == g'
  }

  ghost predicate MapsForwards(g: Graph, m: IdMap) {
    |m| == |g| && forall x :: 0 <= x < |g| && g[x].info.kind == Fwd ==> Mapped(m, x)
  }

  /** The passes go through `run`, where `run[i]` is the canonical map when the struct pass
      comes to `i`. */
  ghost predicate GoesThrough(g: Graph, run: seq<IdMap>) {
    && |run| == |g| + 1 && |g| > 1 && Plain(g)
    && BeginsWith(g, run[1])
    && (forall i :: 0 < i < |g| ==> MapsForwards(g, run[i]) && StepsTo(g, run[i], run[i + 1], i))
    && MapsStructs(g, run[|g|])
  }

  /** Without variables and chains of references no pass can fail. */
  lemma NothingElse(g: Graph)
    requires Closed(g) && Plain(g)
    ensures NoVarRefs(g) && !HasCycle(g)
  {
    forall x, i | 0 <= x < |g| && IsHashed(g[x].info.kind) && 0 <= i < |Refs(g[x])|
      ensures Refs(g[x])[i] < |g| && !IsVarKind(g[Refs(g[x])[i]].info.kind)
    {
      assert RefsBelow(g[x], |g|);
    }
    forall p ensures !IsCycle(g, p) {
      if IsCycle(g, p) {
        NoEdge(g, p[|p| - 1], p[0]);
      }
    }
  }

  lemma NoEdge(g: Graph, x: nat, y: nat)
    requires Closed(g) && Plain(g)
    ensures !RefEdge(g, x, y)
  {
    if x < |g| && g[x].info.kind == Ptr {
      assert WellFormed(g[x]);
      assert Refs(g[x]) == [g[x].size];
    }
  }

  lemma PrimsAre(d: Dedup.Dedup)
    requires d.settled && Plain(d.orig) && MapsForwards(d.orig, d.canon[..])
    ensures d.PrimsMapped()
  {
  }

  lemma TableIs(off: bool, g0: Graph, g: Graph, m: IdMap, table: seq<(int, nat)>)
    requires DedupInv(off, g0, g, m, table)
    ensures |m| == |g| && TableComplete(g, m, table)
  {
  }

  lemma StepIs(g: Graph, m: IdMap, m1: IdMap, m': IdMap, table: seq<(int, nat)>, i: nat)
    requires StepsTo(g, m, m1, i) && TableComplete(g, m, table) && StructOutcome(g, m, m', table, false, i)
    ensures m' == m1
  {
  }

  lemma FirstIs(off: bool, g: Graph, m: IdMap, m1: IdMap, table: seq<(int, nat)>)
    requires DedupInv(off, g, g, m, table) && !off && BeginsWith(g, m1)
    requires PrimsDone(g, m, |g|) && PrimsExact(g, m)
    ensures m == m1
  {
    hide PrimsDone, PrimsExact, TableSound, TableComplete, SameFamilies, KeepsMeaning, KeepsAgreement;
  }

  /** A struct none of the canonical types is like becomes canonical. */
  lemma FirstOfItsShape(g: Graph, m: IdMap, id: nat)
    requires Closed(g) && Ranked(g, m) && id < |g| && g[id].info.kind == Struct && !Mapped(m, id)
    requires forall x :: 0 <= x < |g| && SelfMapped(m, x) ==> Shape(g[x]) != Shape(g[id])
    ensures StepsTo(g, m, m[id := id], id)
  {
    hide Merged, NoneFiled, Closed, LinkOk, Shape, TableComplete, Joined;
    forall m', table | StructOutcome(g, m, m', table, false, id) ensures m' == m[id := id] {
      if Joined(g, m, m', false, id) {
        NotJoined(g, m, m', id);
      }
    }
  }

  lemma NotJoined(g: Graph, m: IdMap, m': IdMap, id: nat)
    requires id < |g| == |m| && forall x :: 0 <= x < |g| && SelfMapped(m, x) ==> Shape(g[x]) != Shape(g[id])
    ensures !Joined(g, m, m', false, id)
  {
    hide Merged, Shape;
  }

  lemma FirstOfItsName(g: Graph, m: IdMap, id: nat)
    requires Closed(g) && Ranked(g, m) && id < |g| && g[id].info.kind == Struct && !Mapped(m, id)
    requires forall x :: 0 <= x < |g| && SelfMapped(m, x) ==> g[x].info.kind != Struct || g[x].name != g[id].name
    ensures StepsTo(g, m, m[id := id], id)
  {
    hide Closed, Shape, StepsTo, LinkOk;
    forall x | 0 <= x < |g| && SelfMapped(m, x) ensures Shape(g[x]) != Shape(g[id]) {
      if Shape(g[x]) == Shape(g[id]) {
        SameShapeSameHeader(g[x], g[id]);
      }
    }
    FirstOfItsShape(g, m, id);
  }

  /** Nothing is done for a type that is mapped, or is no struct. */
  lemma NothingToDo(g: Graph, m: IdMap, id: nat)
    requires |m| == |g| && id < |g| && (Mapped(m, id) || !IsComposite(g[id].info.kind))
    ensures StepsTo(g, m, m, id)
  {
    hide Closed, Ranked, TableComplete;
  }

  /** What the primitive pass leaves for the others, and what it does to a FWD. */
  lemma StructsWait(g: Graph, m: IdMap)
    requires |g| == |m| && PrimsDone(g, m, |g|)
    ensures forall x :: 0 <= x < |g| && g[x].info.kind in {Struct, Ptr} ==> m[x] == UNPROCESSED
  {
  }

  lemma FwdEntry(g: Graph, m: IdMap, x: nat)
    requires x < |g| == |m| && g[x].info.kind == Fwd && PrimsDone(g, m, |g|) && PrimsExact(g, m)
    ensures m[x] <= x && g[m[x]] == g[x]
  {
  }

  /** Canonical ids one by one. */
  lemma CanonNone(m: IdMap)
    ensures CanonIds(m, 0) == [] && CanonCount(m, 0) == 0
  {
  }

  lemma CanonNext(m: IdMap, n: nat)
    requires n < |m|
    ensures SelfMapped(m, n) ==>
              CanonIds(m, n + 1) == CanonIds(m, n) + [n] && CanonCount(m, n + 1) == CanonCount(m, n) + 1
    ensures !SelfMapped(m, n) ==> CanonIds(m, n + 1) == CanonIds(m, n) && CanonCount(m, n + 1) == CanonCount(m, n)
  {
  }

  lemma StructsAreDone(g: Graph, m: IdMap)
    requires Plain(g) && MapsStructs(g, m) && |g| <= BTF_MAX_NR_TYPES + 1
    ensures StructsDone(g, m, |g|)
  {
  }

  lemma LastIs(g: Graph, m: IdMap, end: IdMap, g': Graph, m': IdMap, g1: Graph)
    requires EndsAt(g, m, end, g') && PassedRefs(g, m, m', g1)
    ensures m' == end && g1 == g'
  {
    hide PassedRefs;
  }

  /** Without pointers the reference pass does nothing. */
  lemma NoPointers(g: Graph, m: IdMap)
    requires Plain(g) && MapsStructs(g, m) && forall x :: 0 <= x < |g| ==> g[x].info.kind != Ptr
    ensures EndsAt(g, m, m, g)
  {
    forall m', g1 | PassedRefs(g, m, m', g1) ensures m' == m && g1 == g {
      forall x | 0 <= x < |g| ensures g1[x] == g[x] {
        assert RefEntry(g, g1, m', [], x);
      }
      assert forall x :: 0 <= x < |m| ==> m'[x] == m[x];
    }
  }

  /** The deduplicator after its primitive pass, forwards to be resolved. */
  method Begin(g: Graph) returns (d: Dedup.Dedup)
    requires Closed(g)
    ensures fresh(d) && fresh(d.types) && fresh(d.canon) && fresh(d.hypotMap)
    ensures d.Valid() && d.types[..] == g && d.orig == g && !d.dontResolveFwds
    ensures d.settled && PrimsDone(g, d.canon[..], |g|) && PrimsExact(g, d.canon[..])
  {
    hide DedupInv, HypotOk, PrimsDone, PrimsExact, Closed;
    var types := new BtfType[|g|](i requires 0 <= i < |g| => g[i]);
    assert types[..] == g;
    d := new Dedup.Dedup(types, false);
    var r := d.PrimTypes();
  }

  /** The struct pass, type by type. */
  method StructPass(d: Dedup.Dedup, ghost run: seq<IdMap>)
    requires d.Valid() && d.settled && d.types[..] == d.orig && !d.dontResolveFwds
    requires Closed(d.orig) && GoesThrough(d.orig, run) && d.canon[..] == run[1]
    modifies d`table, d`hypotList, d.canon, d.hypotMap
    ensures d.Valid() && d.types[..] == d.orig && d.canon[..] == run[|d.orig|]
  {
    hide DedupInv, HypotOk, Closed, StructOutcome, Refines, StructFrame, NoneFiled, IsComposite, Mapped;
    hide Refs, Shape, NoVarRefs, HasCycle, TableComplete, StepsTo, MapsForwards, BeginsWith, Plain, MapsStructs;
    ghost var g := d.orig;
    NothingElse(g);
    for i := 1 to d.types.Length
      invariant d.Valid() && d.types[..] == g && d.canon[..] == run[i]
    {
      ghost var m, table := d.canon[..], d.table;
      TableIs(d.dontResolveFwds, g, g, m, table);
      assert MapsForwards(g, run[i]) && StepsTo(g, run[i], run[i + 1], i);
      PrimsAre(d);
      var r := d.StructType(i);
      StepIs(g, m, run[i + 1], d.canon[..], table, i);
    }
  }

  /** Deduplicating a graph whose passes go through `run` and end at `end` succeeds. */
  method Passes(g: Graph, ghost run: seq<IdMap>, ghost end: IdMap, ghost g': Graph)
    returns (d: Dedup.Dedup, r: int)
    requires Closed(g) && GoesThrough(g, run) && EndsAt(g, run[|g|], end, g')
    ensures r == 0 && d.orig == g && !d.dontResolveFwds && d.nrTypes <= d.types.Length
    ensures d.canon[..] == end && IsOutput(g', end, d.types[..d.nrTypes])
  {
    hide DedupInv, HypotOk, Closed, PrimsDone, PrimsExact, StructsDone, RefInv, IsOutput, MappedKept, AllMapped;
    hide BeginsWith, StepsTo, MapsForwards, MapsStructs, Plain, HasCycle, NoVarRefs, EndsAt, SameShapes;
    hide VarsStay, Dedup.Dedup.Result;
    NothingElse(g);
    d := Begin(g);
    FirstIs(d.dontResolveFwds, g, d.canon[..], run[1], d.table);
    StructPass(d, run);
    InvMap(d.dontResolveFwds, g, g, d.canon[..], d.table);
    StructsAreDone(g, d.canon[..]);
    StructsDoneVars(g, d.canon[..]);
    r := d.RefTypes();
    MappedKeptVars(g, run[|g|], d.canon[..]);
    InvShapes(d.dontResolveFwds, g, d.types[..], d.canon[..], d.table);
    LastIs(g, run[|g|], end, g', d.canon[..], d.types[..]);
    r := d.Finish();
  }
}
