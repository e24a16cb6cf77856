/** The output of deduplication field by field: every entry is the descriptor of a type that was
    kept, as it came, with all its type ids moved to the new ids. */
module DedupFields {
  import opened BtfTypes
  import opened BtfCompare
  import opened BtfGraph
  import opened BtfFields
  import opened DedupMap
  import opened DedupState
  import opened DedupRefs
  import opened DedupRemap

  /** A descriptor remapped by the final map has all its ids moved to the new ids. */
  lemma RemapFields(m: IdMap, ids: seq<nat>, t: BtfType)
    requires WellFormed(t) && CanRemap(m, t) && |ids| == |m|
    requires forall x :: 0 <= x < |m| ==> Root(m, x) < |m| && ids[x] == NewId(m, x)
    ensures Renumbers(ids, t, Remap(m, t))
  {
    hide Root, NewId, Refs, SetRefs, WellFormed, Renumbers;
    SetRefsFields(ids, t, NewRefs(m, Refs(t)));
  }

  /** Variables and data sections represent themselves. */
  ghost predicate VarsStay(g: Graph, m: IdMap) {
    |m| == |g| && forall x :: 0 <= x < |g| && g[x].info.kind in {Var, Datasec} ==> m[x] == x
  }

  lemma StructsDoneVars(g: Graph, m: IdMap)
    requires StructsDone(g, m, |g|)
    ensures VarsStay(g, m)
  {
  }

  lemma MappedKeptVars(g: Graph, m: IdMap, m': IdMap)
    requires Closed(g) && VarsStay(g, m) && MappedKept(m, m')
    ensures VarsStay(g, m')
  {
    assert forall x :: 0 <= x < |m| && m[x] == x ==> Mapped(m, x);
  }

  /** What was kept is found under its new id, renumbered. */
  ghost predicate EntriesRenumbered(g: Graph, m: IdMap, out: Graph)
    requires |g| == |m| && forall x :: 0 <= x < |m| ==> Root(m, x) < |m|
  {
    forall x :: 0 <= x < |m| && m[x] == x ==>
      NewId(m, x) < |out| && Renumbers(NewIds(m), g[x], out[NewId(m, x)])
  }

  lemma OutputRenumbered(g0: Graph, g: Graph, m: IdMap, exact: bool, out: Graph)
    requires MapInv(g0, m, exact) && AllMapped(m) && Closed(g) && IsOutput(g, m, out)
    ensures forall x :: 0 <= x < |m| ==> Root(m, x) < |m|
    ensures EntriesRenumbered(g, m, out)
  {
    RootsInRange(g0, m, exact);
    forall x | 0 <= x < |m| && m[x] == x
      ensures NewId(m, x) < |out| && Renumbers(NewIds(m), g[x], out[NewId(m, x)])
    {
      EntryRenumbered(g0, g, m, exact, out, x);
    }
  }

  lemma EntryRenumbered(g0: Graph, g: Graph, m: IdMap, exact: bool, out: Graph, x: nat)
    requires MapInv(g0, m, exact) && AllMapped(m) && Closed(g) && IsOutput(g, m, out)
    requires forall y :: 0 <= y < |m| ==> Root(m, y) < |m|
    requires x < |m| && m[x] == x
    ensures NewId(m, x) < |out| && Renumbers(NewIds(m), g[x], out[NewId(m, x)])
  {
    NewIdRenumbers(g0, m, exact, x, x);
    assert Root(m, x) == x && WellFormed(g[x]);
    hide Root, MapInv, AllMapped, Closed, CanonCount, CanonIds, Renumbers, Remap, CanRemap;
    assert OutputEntry(g, m, out, NewId(m, x));
    RemapFields(m, NewIds(m), g[x]);
  }

  /** Resolving the references of a type first makes no difference to its output entry. */
  lemma SameEntry(g0: Graph, g: Graph, m: IdMap, c: nat)
    requires MapInv(g0, m, Unresolved(g0, m)) && AllMapped(m) && RefInv(g0, g, m, []) && SameShapes(g0, g)
    requires c < |m| && CanRemap(m, g[c])
    ensures CanRemap(m, g0[c]) && Remap(m, g0[c]) == Remap(m, g[c])
  {
    CanRemapAll(g0, g0, m, Unresolved(g0, m));
    assert RefEntry(g0, g, m, [], c) && Mapped(m, c);
    assert Shape(g[c]) == Shape(g0[c]);
    hide MapInv, RefInv, SameShapes, AllMapped, CanonCount, Refs, SetRefs, Shape, Closed;
    SameShapeSameHeader(g[c], g0[c]);
    if IsRefKind(g0[c].info.kind) {
      var r0, r := Refs(g0[c]), Refs(g[c]);
      forall i | 0 <= i < |r0| ensures NewRefs(m, r)[i] == NewRefs(m, r0)[i] {
        assert SlotResolved(g0, g, m, c, i);
        assert Root(m, r[i]) == r[i];
      }
      assert NewRefs(m, r) == NewRefs(m, r0);
      SetRefsSpec(g0[c], NewRefs(m, r0));
      SetRefsSpec(g[c], NewRefs(m, r));
      ShapeAndRefsDetermine(Remap(m, g0[c]), Remap(m, g[c]));
    }
  }

  /** The output is made of the descriptors as they came. */
  lemma OutputOfInput(g0: Graph, g: Graph, m: IdMap, out: Graph)
    requires MapInv(g0, m, Unresolved(g0, m)) && AllMapped(m) && RefInv(g0, g, m, []) && SameShapes(g0, g)
    requires IsOutput(g, m, out)
    ensures IsOutput(g0, m, out)
  {
    MapFacts(g0, g, m, Unresolved(g0, m));
    hide MapInv, RefInv, SameShapes, AllMapped, CanonCount, CanRemap, Remap;
    forall k | 0 <= k < |out| ensures OutputEntry(g0, m, out, k) {
      assert OutputEntry(g, m, out, k);
      SameEntry(g0, g, m, CanonIds(m, |m|)[k]);
    }
  }

  /** What compaction and remapping leave, by field: the entries of the types that were kept, and
      of every variable and data section. */
  ghost predicate FieldsKept(g: Graph, m: IdMap, out: Graph) {
    && VarsStay(g, m)
    && (forall x :: 0 <= x < |m| ==> Root(m, x) < |m|)
    && EntriesRenumbered(g, m, out)
    && (forall k :: 0 <= k < |out| ==> KeptAt(m, k))
  }

  /** Some type that was kept has this new id. */
  ghost predicate KeptAt(m: IdMap, k: nat)
    requires forall x :: 0 <= x < |m| ==> Root(m, x) < |m|
  {
    exists x :: 0 <= x < |m| && m[x] == x && NewId(m, x) == k
  }

  lemma OutputFields(g0: Graph, g: Graph, m: IdMap, out: Graph)
    requires MapInv(g0, m, Unresolved(g0, m)) && AllMapped(m) && RefInv(g0, g, m, []) && SameShapes(g0, g)
    requires IsOutput(g, m, out) && VarsStay(g0, m)
    ensures FieldsKept(g0, m, out)
  {
    hide MapInv, RefInv, SameShapes, AllMapped, VarsStay, OutputEntry, EntriesRenumbered;
    OutputOfInput(g0, g, m, out);
    InvParts(g0, m, Unresolved(g0, m));
    OutputRenumbered(g0, g0, m, Unresolved(g0, m), out);
    forall k | 0 <= k < |out| ensures KeptAt(m, k) {
      NewIdOnto(m, k);
      var c := CanonIds(m, |m|)[k];
      assert m[c] == c && NewId(m, c) == k;
    }
  }

  // ---------------------------------------------------------------------------
  // Comparisons by kind

  /** All pairs recorded since `h` have one name, and kinds that can be one type. */
  ghost predicate NewKindsMeet(g: Graph, h: IdMap, h': IdMap, off: bool)
    requires |h| == |h'| == |g|
  {
    forall c :: 0 <= c < |h| && h[c] == UNPROCESSED && h'[c] != UNPROCESSED ==>
      h'[c] < |g| && g[h'[c]].name == g[c].name && KindsMeet(off, g[h'[c]], g[c])
  }

  lemma CheckedKinds(g: Graph, m: IdMap, h: IdMap, h': IdMap, off: bool)
    requires Ranked(g, m) && |h| == |h'| == |g| && NewChecked(g, m, h, h', off)
    ensures NewKindsMeet(g, h, h', off)
  {
    forall c | 0 <= c < |h| && h[c] == UNPROCESSED && h'[c] != UNPROCESSED
      ensures h'[c] < |g| && g[h'[c]].name == g[c].name && KindsMeet(off, g[h'[c]], g[c])
    {
      assert Checked(g, m, h', off, c);
      FamiliesMeet(g[h'[c]], g[c]);
      if !Mixed(g, h'[c], c) {
        SameShapeSameHeader(g[h'[c]], g[c]);
      }
    }
  }

  lemma NothingRecorded(g: Graph, m: IdMap, h: IdMap, off: bool)
    requires Ranked(g, m) && |h| == |g|
    ensures Extends(h, h) && NewChecked(g, m, h, h, off) && NewKindsMeet(g, h, h, off)
  {
  }

  // ---------------------------------------------------------------------------
  // Graphs that are refused, by kind

  /** Something other than a variable or a data section refers to one. */
  ghost predicate VarMentioned(g: Graph) {
    exists x, y ::
      0 <= x < |g| && 0 <= y < |g| && Mentions(g[x], y)
      && g[x].info.kind !in {Var, Datasec} && g[y].info.kind in {Var, Datasec}
  }

  /** A link between types that are no definitions of their own. */
  predicate Link(g: Graph, x: nat, y: nat) {
    && x < |g| && y < |g| && Mentions(g[x], y)
    && g[x].info.kind in {Ptr, Array, Typedef, Volatile, Const, Restrict, Func, FuncProto}
    && g[y].info.kind in {Ptr, Array, Typedef, Volatile, Const, Restrict, Func, FuncProto}
  }

  /** Links that come back to where they started. */
  ghost predicate LinkedCycle(g: Graph) {
    exists p: seq<nat> :: p != [] && Linked(g, p) && Link(g, p[|p| - 1], p[0])
  }

  ghost predicate Linked(g: Graph, p: seq<nat>) {
    forall i :: 0 <= i < |p| - 1 ==> Link(g, p[i], p[i + 1])
  }

  lemma LinkIsEdge(g: Graph, x: nat, y: nat)
    requires Closed(g)
    ensures Link(g, x, y) <==> RefEdge(g, x, y)
  {
    if x < |g| {
      MentionsRefs(g[x], y);
    }
  }

  lemma CyclesByKind(g: Graph)
    requires Closed(g)
    ensures LinkedCycle(g) <==> HasCycle(g)
  {
    hide Link, RefEdge, Closed;
    forall x, y ensures Link(g, x, y) <==> RefEdge(g, x, y) {
      LinkIsEdge(g, x, y);
    }
    if p: seq<nat> :| p != [] && Linked(g, p) && Link(g, p[|p| - 1], p[0]) {
      assert IsCycle(g, p);
    }
    if p :| IsCycle(g, p) {
      assert Linked(g, p);
    }
  }

  lemma VarsByKind(g: Graph)
    requires Closed(g)
    ensures VarMentioned(g) <==> !NoVarRefs(g)
  {
    hide Mentions, Refs;
    if x, y :| 0 <= x < |g| && 0 <= y < |g| && Mentions(g[x], y)
               && g[x].info.kind !in {Var, Datasec} && g[y].info.kind in {Var, Datasec} {
      assert WellFormed(g[x]);
      MentionsRefs(g[x], y);
      var i :| 0 <= i < |Refs(g[x])| && Refs(g[x])[i] == y;
      VoidMentions(g, x, y);
    }
    if !NoVarRefs(g) {
      var x, i :| 0 <= x < |g| && IsHashed(g[x].info.kind) && 0 <= i < |Refs(g[x])|
                  && !(Refs(g[x])[i] < |g| && !IsVarKind(g[Refs(g[x])[i]].info.kind));
      assert RefsBelow(g[x], |g|) && WellFormed(g[x]);
      MentionsRefs(g[x], Refs(g[x])[i]);
    }
  }

  lemma VoidMentions(g: Graph, x: nat, y: nat)
    requires Closed(g) && x < |g| && Mentions(g[x], y)
    ensures g[x].info.kind != Unkn
  {
  }
}
