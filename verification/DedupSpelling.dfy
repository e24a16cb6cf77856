/** What the passes keep of the definitions: every type goes to one with it as far as forwards
    have been spelt out, in the map and in the references that are stored. */
module DedupSpelling {
  import opened BtfTypes
  import opened BtfCompare
  import opened BtfGraph
  import opened BtfAgree
  import opened DedupMap
  import opened DedupOne
  import opened DedupSpell
  import opened DedupState

  /** `g` is `g0` with every reference replaced by one that is one with it. */
  ghost predicate Respells(g0: Graph, m: IdMap, g: Graph)
    requires Closed(g0)
  {
    && |g| == |g0|
    && forall x {:trigger RespellsType(g0, m, g0[x], g[x])} :: 0 <= x < |g0| ==> RespellsType(g0, m, g0[x], g[x])
  }

  ghost predicate RespellsType(g0: Graph, m: IdMap, t0: BtfType, t: BtfType)
    requires Closed(g0)
  {
    Shape(t) == Shape(t0) && OneSlots(g0, m, Refs(t0), Refs(t))
  }

  /** Where all definitions of a forward mean the same, map and references keep to what is
      one; once primitives are `settled`, equal forwards share their fate. */
  ghost predicate SpellInv(settled: bool, off: bool, g0: Graph, g: Graph, m: IdMap) {
    && Closed(g0) && Ranked(g0, m) && |g| == |g0|
    && (Univocal(g0) && PlainFwds(g0) ==> LinksOne(g0, m, m) && Respells(g0, m, g))
    && (settled ==> ForwardsOne(off, g0, m))
  }

  /** `y` may represent `x`: a definition goes to one that is one with it. */
  ghost predicate JoinsOne(g: Graph, m: IdMap, x: nat, y: nat) {
    Closed(g) && x < |g| && y < |g| && (Univocal(g) && PlainFwds(g) && !IsFwdLike(g[x]) ==> One(g, m, x, y))
  }

  lemma SpellParts(settled: bool, off: bool, g0: Graph, g: Graph, m: IdMap)
    requires SpellInv(settled, off, g0, g, m)
    ensures Closed(g0) && Ranked(g0, m) && |g| == |g0| == |m| <= BTF_MAX_NR_TYPES + 1
  {
  }

  // ---------------------------------------------------------------------------
  // The map as allocated

  lemma RespellsItself(g: Graph, m: IdMap)
    requires Closed(g)
    ensures Respells(g, m, g)
  {
    hide One;
    forall x | 0 <= x < |g| ensures RespellsType(g, m, g[x], g[x]) {
      assert RefsBelow(g[x], |g|);
      forall i | 0 <= i < |Refs(g[x])| ensures One(g, m, Refs(g[x])[i], Refs(g[x])[i]) {
        OneAsItself(g, m, Refs(g[x])[i]);
      }
    }
  }

  lemma InitialSpelling(off: bool, g: Graph, m: IdMap)
    requires Closed(g) && |m| == |g|
    requires forall x :: 0 <= x < |g| ==> m[x] == if IsHashed(g[x].info.kind) then UNPROCESSED else x
    ensures SpellInv(false, off, g, g, m)
  {
    hide One, Univocal, PlainFwds, Respells;
    InvOfItself(g, m);
    RespellsItself(g, m);
    forall x | 0 <= x < |m| && Mapped(m, x) ensures LinkOk(g, m, x) && One(g, m, x, m[x]) {
      OneAsItself(g, m, x);
    }
  }

  // ---------------------------------------------------------------------------
  // Writing an entry

  lemma RespellsLater(g0: Graph, m: IdMap, m': IdMap, g: Graph)
    requires Closed(g0) && Respells(g0, m, g) && Grows(g0, m, m')
    ensures Respells(g0, m', g)
  {
    hide One, Grows, Closed;
    forall x | 0 <= x < |g0| ensures RespellsType(g0, m', g0[x], g[x]) {
      assert RespellsType(g0, m, g0[x], g[x]);
      var r0, r := Refs(g0[x]), Refs(g[x]);
      forall i | 0 <= i < |r0| ensures One(g0, m', r0[i], r[i]) {
        assert One(g0, m, r0[i], r[i]);
        GrowsKeeps(g0, m, m', r0[i], r[i]);
      }
    }
  }

  /** A forward is one with whatever of its family it is pointed at. */
  lemma ForwardLinkOne(g: Graph, m: IdMap, x: nat, y: nat)
    requires Closed(g) && x < |g| && y < |g| && |m| == |g| && Ranked(g, m[x := y])
    requires IsFwdLike(g[x]) && FamilyOf(g[x]) == FamilyOf(g[y])
    ensures One(g, m[x := y], x, y)
  {
    hide Root, Closed, FamilyOf;
    var m' := m[x := y];
    RootSpec(g, m', x);
    assert Step(m', x) == y;
    if !IsFwdLike(g[y]) {
      DefinitionSpelt(g, m', y);
    }
  }

  lemma LinkKeepsLinks(g: Graph, m: IdMap, x: nat, y: nat)
    requires Closed(g) && Ranked(g, m) && LinksOne(g, m, m) && x < |g| && y < |g| && CanLink(g, m, x, y)
    requires Ranked(g, m[x := y]) && Grows(g, m, m[x := y]) && (!IsFwdLike(g[x]) ==> One(g, m, x, y))
    ensures LinksOne(g, m[x := y], m[x := y])
  {
    hide One, Grows, Closed, FamilyOf;
    var m' := m[x := y];
    LinksLater(g, m, m, m');
    if IsFwdLike(g[x]) {
      ForwardLinkOne(g, m, x, y);
    } else {
      GrowsKeeps(g, m, m', x, y);
    }
    forall z | 0 <= z < |m'| && Mapped(m', z) ensures LinkOk(g, m', z) && One(g, m', z, m'[z]) {
      if z != x {
        assert Mapped(m, z);
      }
    }
  }

  lemma LinkKeepsSpelling(settled: bool, off: bool, g0: Graph, g: Graph, m: IdMap, x: nat, y: nat)
    requires SpellInv(settled, off, g0, g, m) && x < |g0| && y < |g0| && CanLink(g0, m, x, y)
    requires Ranked(g0, m[x := y]) && JoinsOne(g0, m, x, y)
    ensures SpellInv(settled, off, g0, g, m[x := y])
  {
    hide One, Grows, Closed, LinksOne, Respells, Univocal, PlainFwds, ForwardsOne, CanLink, Ranked;
    SpellParts(settled, off, g0, g, m);
    var m' := m[x := y];
    LinkGrows(g0, m, x, y);
    if settled {
      GrowsForwards(off, g0, m, m');
    }
    if Univocal(g0) && PlainFwds(g0) {
      LinkKeepsLinks(g0, m, x, y);
      RespellsLater(g0, m, m', g);
    }
  }

  /** Forwards may be pointed at any definition of theirs. */
  lemma ResolvingSpells(g: Graph, m: IdMap, x: nat, y: nat)
    requires Closed(g) && x < |g| && y < |g| && IsFwdLike(g[x])
    ensures JoinsOne(g, m, x, y)
  {
  }

  /** A type that becomes its own representative. */
  lemma FileKeepsSpelling(settled: bool, off: bool, g0: Graph, g: Graph, m: IdMap, x: nat)
    requires SpellInv(settled, off, g0, g, m) && x < |g0| && !Mapped(m, x) && Ranked(g0, m[x := x])
    ensures SpellInv(settled, off, g0, g, m[x := x])
  {
    hide SpellInv, One;
    SpellParts(settled, off, g0, g, m);
    OneAsItself(g0, m, x);
    LinkKeepsSpelling(settled, off, g0, g, m, x, x);
  }

  /** Starting on a reference type maps nothing. */
  lemma MarkKeepsSpelling(settled: bool, off: bool, g0: Graph, g: Graph, m: IdMap, id: nat)
    requires SpellInv(settled, off, g0, g, m) && id < |m| && m[id] == UNPROCESSED
    requires Ranked(g0, m[id := IN_PROGRESS])
    ensures SpellInv(settled, off, g0, g, m[id := IN_PROGRESS])
  {
    hide One, Grows, Closed, Respells, Univocal, PlainFwds, ForwardsOne;
    var m' := m[id := IN_PROGRESS];
    MarkGrows(g0, m, id);
    if settled {
      GrowsForwards(off, g0, m, m');
    }
    if Univocal(g0) && PlainFwds(g0) {
      RespellsLater(g0, m, m', g);
      LinksLater(g0, m, m, m');
      forall z | 0 <= z < |m'| && Mapped(m', z) ensures LinkOk(g0, m', z) && One(g0, m', z, m'[z]) {
        assert Mapped(m, z);
      }
    }
  }

  // ---------------------------------------------------------------------------
  // Storing a reference

  /** A resolved reference stored in place of the reference. */
  lemma StoreKeepsSpelling(off: bool, g0: Graph, g: Graph, m: IdMap, id: nat, i: nat)
    requires SpellInv(true, off, g0, g, m) && id < |g| && i < |Refs(g[id])| && Refs(g[id])[i] < |g0|
    ensures SpellInv(true, off, g0, g[id := SetRefs(g[id], Refs(g[id])[i := Root(m, Refs(g[id])[i])])], m)
  {
    hide One, Closed, LinksOne, Univocal, PlainFwds, ForwardsOne, Root, Ranked;
    var r := Root(m, Refs(g[id])[i]);
    var rs := Refs(g[id])[i := r];
    var t := SetRefs(g[id], rs);
    SetRefsSpec(g[id], rs);
    if Univocal(g0) && PlainFwds(g0) {
      RootOne(off, g0, m, m, Refs(g[id])[i]);
      assert RespellsType(g0, m, g0[id], g[id]);
      var r0 := Refs(g0[id]);
      OneTransitive(off, g0, m, r0[i], Refs(g[id])[i], r);
      assert RespellsType(g0, m, g0[id], t);
      forall x | 0 <= x < |g0| ensures RespellsType(g0, m, g0[x], g[id := t][x]) {
        if x != id {
          assert RespellsType(g0, m, g0[x], g[x]);
        }
      }
    }
  }

  /** Two equal descriptors after references have been stored belong to types that are one. */
  lemma RespelledEqualOne(off: bool, g0: Graph, g: Graph, m: IdMap, x: nat, y: nat)
    requires OneWorks(off, g0, m) && Respells(g0, m, g) && x < |g| && y < |g| && g[x] == g[y] && !IsFwdLike(g[x])
    ensures One(g0, m, x, y)
  {
    hide One, Closed, Univocal, PlainFwds, ForwardsOne;
    assert RespellsType(g0, m, g0[x], g[x]) && RespellsType(g0, m, g0[y], g[y]);
    var rx, ry, r := Refs(g0[x]), Refs(g0[y]), Refs(g[x]);
    SameShapeSameHeader(g0[x], g[x]);
    forall i | 0 <= i < |rx| ensures rx[i] < |g0| && ry[i] < |g0| && One(g0, m, rx[i], ry[i]) {
      assert One(g0, m, rx[i], r[i]) && One(g0, m, ry[i], r[i]);
      OneSymmetric(g0, m, ry[i], r[i]);
      OneTransitive(off, g0, m, rx[i], r[i], ry[i]);
    }
    OneStep(g0, m, x, y);
  }

  // ---------------------------------------------------------------------------
  // Representatives

  /** Types without references that are equal are one. */
  lemma EqualPrimsOne(g: Graph, m: IdMap, x: nat, y: nat)
    requires Closed(g) && x < |g| && y < |g| && !IsFwdLike(g[x]) && Shape(g[x]) == Shape(g[y])
    requires IsPrimKind(g[x].info.kind)
    ensures One(g, m, x, y)
  {
    hide One, OneSlots;
    SameShapeSameHeader(g[x], g[y]);
    assert WellFormed(g[x]) && WellFormed(g[y]);
    hide Closed;
    assert Refs(g[x]) == [] && Refs(g[y]) == [];
    assert OneSlots(g, m, [], []) by {
      NoSlotsOne(g, m);
    }
    OneStep(g, m, x, y);
  }

  lemma NoSlotsOne(g: Graph, m: IdMap)
    requires Closed(g)
    ensures OneSlots(g, m, [], [])
  {
  }

  /** What a search finds for a primitive or a reference type may represent it. */
  lemma RepresentativeSpells(settled: bool, off: bool, g0: Graph, g: Graph, m: IdMap, id: nat, newId: nat)
    requires SpellInv(settled, off, g0, g, m) && id < |g| == |m| && SameShapes(g0, g)
    requires Represents(off, g0, g, m, id, newId) && IsFlat(g0[id].info.kind)
    requires IsRefKind(g0[id].info.kind) ==> settled
    ensures JoinsOne(g0, m, id, newId)
  {
    hide One, Closed, LinksOne, Univocal, PlainFwds, ForwardsOne, Ranked, Respells, CompatibleEnums, Settled, Mapped;
    SameShapeSameHeader(g[id], g0[id]);
    SameShapeSameHeader(g[newId], g0[newId]);
    assert Shape(g[id]) == Shape(g0[id]) && Shape(g[newId]) == Shape(g0[newId]);
    if Univocal(g0) && PlainFwds(g0) && !IsFwdLike(g0[id]) {
      if IsPrimKind(g0[id].info.kind) {
        EqualPrimsOne(g0, m, id, newId);
      } else {
        RespelledEqualOne(off, g0, g, m, id, newId);
      }
    }
  }

  // ---------------------------------------------------------------------------
  // Merging a comparison

  lemma AcceptKeepsSpelling(off: bool, g: Graph, m: IdMap, h: IdMap, list: seq<nat>, id: nat, cand: nat)
    requires MapInv(g, m, false) && HypotOk(h, list, |g|) && AllChecked(g, m, h, off) && PairsOk(g, false, list, h)
    requires SpellInv(true, off, g, g, m) && id < |g| && cand < |g| && Justified(g, m, h, id, cand)
    ensures SpellInv(true, off, g, g, MergeAll(g, m, list, h)) && JoinsOne(g, MergeAll(g, m, list, h), id, cand)
  {
    hide MapInv, HypotOk, AllChecked, PairsOk, Justified, LinksOne, One, Univocal, PlainFwds, ForwardsOne, Grows;
    hide Closed, AllMixedSpelt, Respells;
    var mm := MergeAll(g, m, list, h);
    InvParts(g, mm, false);
    MergedSpelt(off, g, m, h, list);
    if Univocal(g) && PlainFwds(g) {
      MergedOne(off, g, m, h, list, id, cand);
      RespellsItself(g, mm);
    }
  }

  // ---------------------------------------------------------------------------
  // Once primitives are deduplicated

  /** An enum keeps its header but for the number of values. */
  lemma {:induction false} EnumRootHead(g: Graph, m: IdMap, exact: bool, x: nat)
    requires MapInv(g, m, exact) && PrimsExact(g, m) && x < |g| && g[x].info.kind == Enum
    ensures Root(m, x) < |g| && SameEnumHead(g[x], g[Root(m, x)])
  {
    hide KeepsMeaning, KeepsAgreement, Consistent;
    EnumStepHead(g, m, exact, x);
    EnumStepHead(g, m, exact, Step(m, x));
    EnumStepHead(g, m, exact, Step(m, Step(m, x)));
  }

  lemma EnumStepHead(g: Graph, m: IdMap, exact: bool, x: nat)
    requires |m| == |g| <= BTF_MAX_NR_TYPES + 1 && PrimsExact(g, m) && x < |g| && g[x].info.kind == Enum
    ensures Step(m, x) < |g| && SameEnumHead(g[x], g[Step(m, x)])
  {
  }

  /** Primitives end at a canonical type: a FWD at one of its descriptor. */
  lemma FwdRootSame(g: Graph, m: IdMap, x: nat)
    requires Ranked(g, m) && PrimsExact(g, m) && PrimsDone(g, m, |g|) && x < |g| && g[x].info.kind == Fwd
    ensures Root(m, x) < |g| && g[Root(m, x)] == g[x] && SelfMapped(m, Root(m, x))
  {
    RootSpec(g, m, x);
    FwdStepSame(g, m, x);
    FwdStepSame(g, m, Step(m, x));
    FwdStepSame(g, m, Step(m, Step(m, x)));
  }

  lemma FwdStepSame(g: Graph, m: IdMap, x: nat)
    requires |m| == |g| <= BTF_MAX_NR_TYPES + 1 && PrimsExact(g, m) && x < |g| && g[x].info.kind == Fwd
    ensures Step(m, x) < |g| && g[Step(m, x)] == g[x]
  {
  }

  /** Two enums of one header that are both canonical are both definitions or one. */
  lemma CanonicalEnums(off: bool, g: Graph, m: IdMap, a: nat, b: nat)
    requires Closed(g) && |m| == |g| && NoDuplicates(off, g, m)
    requires a < |g| && b < |g| && SelfMapped(m, a) && SelfMapped(m, b)
    requires SameEnumHead(g[a], g[b]) && (off ==> (IsFwdLike(g[a]) <==> IsFwdLike(g[b])))
    ensures a == b || (!IsFwdLike(g[a]) && !IsFwdLike(g[b]))
  {
    assert WellFormed(g[a]) && WellFormed(g[b]);
    assert g[a].info.kind == g[b].info.(vlen := 0).kind == Enum;
    if IsFwdLike(g[a]) || IsFwdLike(g[b]) {
      assert g[a].info.(vlen := 0) == g[b].info.(vlen := 0);
      if off {
        assert g[a].tail.values == [] && g[b].tail.values == [];
      }
      assert Duplicates(off, g[a], g[b]);
    }
  }

  lemma SameHeads(t: BtfType, u: BtfType, v: BtfType)
    requires SameEnumHead(t, u) && (SameEnumHead(v, t) || SameEnumHead(t, v))
    ensures SameEnumHead(u, v) && SameEnumHead(v, u) && t.info.kind == u.info.kind == v.info.kind == Enum
  {
    assert t.info.(vlen := 0).kind == u.info.(vlen := 0).kind == v.info.(vlen := 0).kind == Enum;
  }

  /** Representatives of enums of one header. */
  lemma EnumRoots(off: bool, g: Graph, m: IdMap, x: nat, y: nat)
    requires MapInv(g, m, false) && NoDuplicates(off, g, m) && (off ==> Unresolved(g, m))
    requires PrimsExact(g, m) && PrimsDone(g, m, |g|)
    requires x < |g| && y < |g| && SameEnumHead(g[x], g[y]) && (off ==> (IsFwdLike(g[x]) <==> IsFwdLike(g[y])))
    ensures Root(m, x) == Root(m, y) || (Spelt(g, m, x) && Spelt(g, m, y))
  {
    hide NoDuplicates, PrimsExact, Root, SameEnumHead, KeepsMeaning, KeepsAgreement, Consistent, SameFamilies;
    var a, b := Root(m, x), Root(m, y);
    SameHeads(g[x], g[y], g[y]);
    EnumRootHead(g, m, false, x);
    EnumRootHead(g, m, false, y);
    RootSpec(g, m, x);
    RootSpec(g, m, y);
    SameHeads(g[x], g[a], g[y]);
    SameHeads(g[y], g[b], g[a]);
    UnresolvedRoot(g, m, false, x);
    UnresolvedRoot(g, m, false, y);
    CanonicalEnums(off, g, m, a, b);
  }

  /** Deduplicated primitives: forwards of one descriptor share their representative, and no
      enum forward is left beside an enum it can be resolved to. */
  lemma PrimsSettle(off: bool, g: Graph, m: IdMap)
    requires MapInv(g, m, false) && NoDuplicates(off, g, m) && (off ==> Unresolved(g, m))
    requires PrimsExact(g, m) && PrimsDone(g, m, |g|)
    ensures ForwardsOne(off, g, m)
  {
    hide MapInv, NoDuplicates, PrimsExact, PrimsDone, Root, Spelt, SameEnumHead, CompatibleEnums, Unresolved;
    InvParts(g, m, false);
    forall x, y | 0 <= x < |g| && 0 <= y < |g| && IsFwdLike(g[x]) && g[x] == g[y] ensures OneForward(g, m, x, y) {
      EqualForwards(off, g, m, x, y);
    }
    if !off {
      forall x, y | 0 <= x < |g| && 0 <= y < |g| && HasFullEnum(g, x, y) ensures Spelt(g, m, x) {
        FullEnumSpelt(g, m, x, y);
      }
    }
  }

  lemma EqualForwards(off: bool, g: Graph, m: IdMap, x: nat, y: nat)
    requires MapInv(g, m, false) && NoDuplicates(off, g, m) && (off ==> Unresolved(g, m))
    requires PrimsExact(g, m) && PrimsDone(g, m, |g|)
    requires x < |g| && y < |g| && IsFwdLike(g[x]) && g[x] == g[y]
    ensures OneForward(g, m, x, y)
  {
    hide MapInv, PrimsExact, PrimsDone, Root, Spelt, Unresolved;
    InvParts(g, m, false);
    if g[x].info.kind == Fwd {
      FwdRootSame(g, m, x);
      FwdRootSame(g, m, y);
      assert Duplicates(off, g[Root(m, x)], g[Root(m, y)]);
    } else {
      EnumRoots(off, g, m, x, y);
    }
  }

  lemma FullEnumSpelt(g: Graph, m: IdMap, x: nat, y: nat)
    requires MapInv(g, m, false) && NoDuplicates(false, g, m) && PrimsExact(g, m) && PrimsDone(g, m, |g|)
    requires x < |g| && y < |g| && HasFullEnum(g, x, y)
    ensures Spelt(g, m, x)
  {
    hide MapInv, NoDuplicates, PrimsExact, PrimsDone, Root, SameEnumHead, Unresolved;
    InvParts(g, m, false);
    DefinitionSpelt(g, m, y);
    EnumRoots(false, g, m, x, y);
  }

  /** From here on equal forwards share their fate. */
  lemma Settle(settled: bool, off: bool, g: Graph, m: IdMap, table: seq<(int, nat)>)
    requires DedupInv(off, g, g, m, table) && SpellInv(settled, off, g, g, m)
    requires PrimsExact(g, m) && PrimsDone(g, m, |g|)
    ensures SpellInv(true, off, g, g, m)
  {
    hide PrimsExact, PrimsDone, TableSound, TableComplete, Rewrites, Rewords, LinksOne, Univocal, PlainFwds, Respells;
    hide NoDuplicates, KeepsMeaning, KeepsAgreement, Consistent, ForwardsOne;
    PrimsSettle(off, g, m);
  }
}
