/** BTF deduplication: the passes of `btf__dedup` over the descriptors, updating the
    canonical map, the hypothetical map and the descriptors in place. */
module Dedup {
  import opened BtfTypes
  import opened BtfCompare
  import opened BtfGraph
  import opened BtfAgree
  import opened BtfFields
  import opened DedupMap
  import opened DedupComplete
  import opened DedupAccept
  import opened DedupState
  import opened DedupOne
  import opened DedupRefs
  import opened DedupRemap
  import opened DedupSpelling
  import opened DedupFields

  const EINVAL: int := 22
  const ELOOP: int := 40

  /** A reference resolved and stored in the descriptor being worked on keeps all invariants. */
  lemma StoreKeepsAll(off: bool, g0: Graph, g: Graph, m: IdMap, table: seq<(int, nat)>, path: seq<nat>,
                      id: nat, i: nat, r: nat)
    requires DedupInv(off, g0, g, m, table) && SpellInv(true, off, g0, g, m) && RefInv(g0, g, m, path + [id])
    requires id < |g| == |m| == |g0| && i < |Refs(g0[id])| && Progress(g0, g, m, id, i)
    requires Refs(g0[id])[i] < |m| && Mapped(m, Refs(g0[id])[i]) && Ends(g0, Refs(g0[id])[i])
    requires r == Root(m, Refs(g0[id])[i]) && r < |m| && SelfMapped(m, r)
    ensures i < |Refs(g[id])|
    ensures var g' := g[id := SetRefs(g[id], Refs(g[id])[i := r])];
            && DedupInv(off, g0, g', m, table) && SpellInv(true, off, g0, g', m) && RefInv(g0, g', m, path + [id])
            && Progress(g0, g', m, id, i + 1)
  {
    assert RefEntry(g0, g, m, path + [id], id);
    InvMap(off, g0, g, m, table);
    hide DedupInv, SpellInv, RefInv, MapInv, Ranked, Root, Closed, Ends, Grounded, Consistent, Alike, Agree;
    RootKeeps(g0, m, Unresolved(g0, m), Refs(g0[id])[i]);
    StoreKeepsDedup(off, g0, g, m, table, id, i, r);
    StoreKeepsSpelling(off, g0, g, m, id, i);
    ProgressStore(g0, g, m, id, i, r);
    StoreKeepsRefs(g0, g, g[id := SetRefs(g[id], Refs(g[id])[i := r])], m, path + [id], id);
  }

  /** What the search finds for a reference type may represent it. */
  lemma RefRepresentative(off: bool, g0: Graph, g: Graph, m: IdMap, table: seq<(int, nat)>, id: nat, newId: nat)
    requires DedupInv(off, g0, g, m, table) && SpellInv(true, off, g0, g, m)
    requires id < |g| == |m| == |g0| && IsRefKind(g[id].info.kind) && !Mapped(m, id)
    requires newId < |g| && g[newId] == g[id] && Represents(off, g0, g, m, id, newId)
    ensures Closed(g0) && CanLink(g0, m, id, newId) && KeepsPromise(off, g0, m, id, newId)
    ensures JoinsOne(g0, m, id, newId) && SelfMapped(m, newId)
  {
    hide DedupInv, SpellInv, CanLink, KeepsPromise, JoinsOne, SameShapes, CompatibleEnums, Closed;
    RepresentativeFits(off, g0, g, m, table, id, newId);
    InvShapes(off, g0, g, m, table);
    RepresentativeSpells(true, off, g0, g, m, id, newId);
  }

  lemma VoidResolves(g: Graph, m: IdMap, exact: bool)
    requires MapInv(g, m, exact)
    ensures Root(m, 0) == 0
  {
  }

  lemma AllWellFormed(g: Graph)
    requires Closed(g)
    ensures forall x :: 0 <= x < |g| ==> WellFormed(g[x])
  {
  }

  class Dedup {
    /** Descriptors by type id; void at 0. */
    const types: array<BtfType>
    const canon: array<nat>
    const hypotMap: array<nat>
    var hypotList: seq<nat>
    /** (signature hash, id) of every canonical candidate. */
    var table: seq<(int, nat)>
    const dontResolveFwds: bool
    /** Number of descriptors left, void included. */
    var nrTypes: nat
    /** The graph as it was when the passes began. */
    ghost const orig: Graph
    /** Whether primitives have been deduplicated. */
    ghost var settled: bool

    ghost predicate Valid()
      reads this, types, canon, hypotMap
    {
      && canon != hypotMap
      && DedupInv(dontResolveFwds, orig, types[..], canon[..], table)
      && HypotOk(hypotMap[..], hypotList, types.Length)
      && SpellInv(settled, dontResolveFwds, orig, types[..], canon[..])
    }

    constructor (types: array<BtfType>, dontResolveFwds: bool)
      requires Closed(types[..])
      ensures Valid() && this.types == types && this.dontResolveFwds == dontResolveFwds
      ensures orig == types[..]
      ensures fresh(canon) && fresh(hypotMap)
      ensures forall x :: 0 <= x < canon.Length ==>
                canon[x] == if IsHashed(types[x].info.kind) then UNPROCESSED else x
      ensures hypotList == [] && canon.Length == types.Length
    {
      hide DedupInv, SpellInv, Consistent, Rewords, Rewrites;
      this.types := types;
      this.dontResolveFwds := dontResolveFwds;
      orig := types[..];
      settled := false;
      table := [];
      hypotList := [];
      nrTypes := types.Length;
      canon := new nat[types.Length](x => UNPROCESSED);
      hypotMap := new nat[types.Length](x => UNPROCESSED);
      new;
      canon[0] := 0;
      for i := 1 to types.Length
        invariant canon[0] == 0
        invariant forall x :: 1 <= x < i ==>
                    canon[x] == if IsHashed(types[x].info.kind) then UNPROCESSED else x
        invariant forall x :: i <= x < types.Length ==> canon[x] == UNPROCESSED
        invariant table == [] && hypotList == [] && orig == types[..] && !settled
        invariant forall x :: 0 <= x < types.Length ==> hypotMap[x] == UNPROCESSED
      {
        if types[i].info.kind == Var || types[i].info.kind == Datasec {
          canon[i] := i;
        }
      }
      InitialInv(dontResolveFwds, orig, canon[..]);
      InitialSpelling(dontResolveFwds, orig, canon[..]);
    }

    /** The candidates filed under a hash; iteration order is the table's own business. */
    method Candidates(h: int) returns (cands: seq<nat>)
      ensures forall id :: id in cands <==> (h, id) in table
    {
      cands := [];
      for i := 0 to |table|
        invariant forall id :: id in cands <==> (h, id) in table[..i]
      {
        if table[i].0 == h {
          cands := [table[i].1] + cands;
        }
      }
      assert table[..|table|] == table;
    }

    method ResolveTypeId(id: nat) returns (r: nat)
      requires Ranked(orig, canon[..]) && id < canon.Length
      ensures r < canon.Length && r == Root(canon[..], id)
    {
      ghost var m := canon[..];
      r := id;
      RootSpec(orig, m, r);
      while canon[r] <= BTF_MAX_NR_TYPES && canon[r] != r
        invariant r < canon.Length && Root(m, r) == Root(m, id)
        invariant !Mapped(m, r) || SelfMapped(m, r) ==> Root(m, r) == r
        decreases Level(orig, m, r)
      {
        assert Mapped(m, r) && LinkOk(orig, m, r);
        assert Mapped(m, m[r]) ==> LinkOk(orig, m, m[r]);
        RootSpec(orig, m, r);
        r := canon[r];
        RootSpec(orig, m, r);
      }
    }

    /** What `Commit` asks of a representative found for `id`. */
    ghost predicate CanCommit(id: nat, newId: nat)
      requires id < types.Length == canon.Length == |orig|
      reads this, types, canon
    {
      newId < |orig| &&
      if newId == id then
        !Mapped(canon[..], id)
        && (IsFlat(types[id].info.kind) ==>
              WellFormed(types[id]) && NoDuplicateFiled(dontResolveFwds, types[..], canon[..], id))
      else
        Closed(orig) && CanLink(orig, canon[..], id, newId)
        && KeepsPromise(dontResolveFwds, orig, canon[..], id, newId)
        && JoinsOne(orig, canon[..], id, newId)
    }

    /** `map[id] = newId`, filing `id` as a candidate when it is its own representative. */
    method Commit(id: nat, newId: nat, h: int)
      requires Valid() && 0 < id < types.Length
      requires IsHashed(types[id].info.kind) && h == SigHash(types[id])
      requires CanCommit(id, newId)
      modifies canon, `table
      ensures Valid() && canon[..] == old(canon[..])[id := newId]
      ensures Refines(orig, old(canon[..]), canon[..])
    {
      hide DedupInv, SpellInv, JoinsOne, CanLink, KeepsPromise, NoDuplicateFiled, Refines, Ranked;
      ghost var m := canon[..];
      InvTable(dontResolveFwds, orig, types[..], m, table);
      if newId == id {
        FileKeepsDedup(dontResolveFwds, orig, types[..], m, table, id);
        table := table + [(h, id)];
        InvMap(dontResolveFwds, orig, types[..], m[id := id], table);
        FileKeepsSpelling(settled, dontResolveFwds, orig, types[..], m, id);
      } else {
        CommitKeepsDedup(dontResolveFwds, orig, types[..], m, table, id, newId);
        InvMap(dontResolveFwds, orig, types[..], m[id := newId], table);
        LinkKeepsSpelling(settled, dontResolveFwds, orig, types[..], m, id, newId);
      }
      canon[id] := newId;
      assert canon[..] == m[id := newId];
    }

    // -------------------------------------------------------------------------
    // Primitive types

    /** What a search among the candidates may return: the type itself when nothing
        canonical duplicates it, or a settled candidate with the same descriptor. */
    ghost predicate PickedEqual(id: nat, newId: nat)
      requires id < types.Length == canon.Length
      reads this, types, canon
    {
      if newId == id then
        WellFormed(types[id]) && IsHashed(types[id].info.kind)
        && NoDuplicateFiled(dontResolveFwds, types[..], canon[..], id)
      else
        types.Length == |orig| && newId < types.Length && types[newId] == types[id]
        && Represents(dontResolveFwds, orig, types[..], canon[..], id, newId)
    }

    /** The candidate search for every kind whose descriptors are compared whole. */
    method PickExact(id: nat) returns (newId: nat, h: int)
      requires TableInv(orig, types[..], canon[..], table) && |orig| == types.Length
      requires id < types.Length && WellFormed(types[id]) && IsExactKind(types[id].info.kind)
      requires !Mapped(canon[..], id)
      ensures h == SigHash(types[id]) && PickedEqual(id, newId)
    {
      ghost var g, m := types[..], canon[..];
      h := HashExact(types[id]);
      var cands := Candidates(h);
      for i := 0 to |cands|
        invariant NoneEqual(g, id, cands[..i])
      {
        EntryOfCandidate(orig, g, m, table, h, cands[i]);
        var eq := EqualExact(types[id], types[cands[i]]);
        if eq {
          return cands[i], h;
        }
        assert cands[..i + 1] == cands[..i] + [cands[i]];
      }
      assert cands[..|cands|] == cands;
      NoneEqualNoDuplicate(dontResolveFwds, orig, g, m, table, id, cands);
      newId := id;
    }

    /** `map[cand] = id`: a canonical enum forward is resolved to the full enum `id`. */
    method ResolveCandidate(cand: nat, id: nat)
      requires Valid() && cand < types.Length && 0 < id < types.Length
      requires !dontResolveFwds && IsFwdLike(orig[cand]) && !IsFwdLike(orig[id])
      requires FamilyOf(orig[cand]) == FamilyOf(orig[id])
      requires Mapped(canon[..], cand) && Settled(orig, canon[..], cand)
      modifies canon
      ensures Valid() && canon[..] == old(canon[..])[cand := id]
      ensures Refines(orig, old(canon[..]), canon[..])
    {
      hide SpellInv, JoinsOne;
      ghost var m := canon[..];
      assert Resolves(orig, m[cand := id], cand);
      LinkKeepsCanon(orig, m, cand, id);
      LinkKeepsDedup(dontResolveFwds, orig, types[..], m, m[cand := id], table);
      ResolvingSpells(orig, m, cand, id);
      LinkKeepsSpelling(settled, dontResolveFwds, orig, types[..], m, cand, id);
      canon[cand] := id;
      assert canon[..] == m[cand := id];
    }

    /** One candidate of the enum search: stop at it, or pass it having resolved it
        if it is a compatible forward. */
    method TryEnum(id: nat, cand: nat) returns (stop: bool)
      requires Valid() && 0 < id < types.Length && types[id].info.kind == Enum
      requires !Mapped(canon[..], id) && (SigHash(types[id]), cand) in table
      modifies canon
      ensures Valid() && Refines(orig, old(canon[..]), canon[..])
      ensures canon[..] == old(canon[..])
           || (cand != id && cand < canon.Length && old(Mapped(canon[..], cand))
               && canon[..] == old(canon[..])[cand := id])
      ensures stop ==> Represents(dontResolveFwds, orig, types[..], canon[..], id, cand)
      ensures stop ==> cand < types.Length && cand != id && SameEnumHead(types[id], types[cand])
      ensures !stop ==> cand < types.Length && Passed(dontResolveFwds, types[..], canon[..], id, cand)
      ensures EnumsOnly(types[..], old(canon[..]), canon[..])
    {
      hide DedupInv, SpellInv, HypotOk, Refines;
      InvTable(dontResolveFwds, orig, types[..], canon[..], table);
      InvShapes(dontResolveFwds, orig, types[..], canon[..], table);
      RefinesItself(orig, canon[..]);
      EntryOfCandidate(orig, types[..], canon[..], table, SigHash(types[id]), cand);
      var eq := EqualEnum(types[id], types[cand]);
      if eq {
        return true;
      }
      if dontResolveFwds {
        return false;
      }
      var compat := CompatEnum(types[id], types[cand]);
      if compat {
        if IsFwdLike(types[id]) {
          return true;
        }
        SameShapeSameHeader(types[id], orig[id]);
        SameShapeSameHeader(types[cand], orig[cand]);
        assert types[id].info.(vlen := 0).kind == types[cand].info.(vlen := 0).kind;
        ResolveCandidate(cand, id);
      }
      return false;
    }

    method PickEnum(id: nat) returns (newId: nat, h: int)
      requires Valid() && 0 < id < types.Length && types[id].info.kind == Enum
      requires !Mapped(canon[..], id)
      modifies canon
      ensures Valid() && OnlyMaps(old(canon[..]), canon[..], canon.Length) && Refines(orig, old(canon[..]), canon[..])
      ensures h == SigHash(types[id])
      ensures newId == id ==> NoDuplicateFiled(dontResolveFwds, types[..], canon[..], id)
      ensures newId != id ==> Represents(dontResolveFwds, orig, types[..], canon[..], id, newId)
      ensures newId != id ==> newId < types.Length && SameEnumHead(types[id], types[newId])
      ensures EnumsOnly(types[..], old(canon[..]), canon[..])
    {
      hide DedupInv, SpellInv, HypotOk, TableInv, Represents, NoDuplicateFiled, Refines, SameEnumHead, Passed;
      ghost var off, g, m0 := dontResolveFwds, types[..], canon[..];
      InvTable(off, orig, g, m0, table);
      RefinesItself(orig, m0);
      h := HashEnum(types[id]);
      var cands := Candidates(h);
      for i := 0 to |cands|
        invariant Valid() && OnlyMaps(m0, canon[..], |m0|) && Refines(orig, m0, canon[..])
        invariant EnumsOnly(g, m0, canon[..])
        invariant FirstPassed(off, g, canon[..], id, cands, i)
      {
        ghost var m := canon[..];
        var stop := TryEnum(id, cands[i]);
        RefinesTrans(orig, m0, m, canon[..]);
        if stop {
          return cands[i], h;
        }
        FirstPassedNext(off, g, m, canon[..], id, cands, i);
      }
      InvTable(off, orig, g, canon[..], table);
      NoneCompatibleNoDuplicate(off, orig, g, canon[..], table, id, cands);
      newId := id;
    }

    /** The search of `btf_dedup_prim_type`, by kind. */
    method PickPrim(id: nat) returns (newId: nat, h: int)
      requires Valid() && 0 < id < types.Length && IsPrimKind(types[id].info.kind)
      requires !Mapped(canon[..], id)
      modifies canon
      ensures Valid() && OnlyMaps(old(canon[..]), canon[..], canon.Length) && Refines(orig, old(canon[..]), canon[..])
      ensures h == SigHash(types[id])
      ensures newId == id ==> NoDuplicateFiled(dontResolveFwds, types[..], canon[..], id)
      ensures newId != id ==> Represents(dontResolveFwds, orig, types[..], canon[..], id, newId)
      ensures EnumsOnly(types[..], old(canon[..]), canon[..])
      ensures newId != id && types[id].info.kind != Enum ==> newId < types.Length && types[newId] == types[id]
      ensures newId != id && types[id].info.kind == Enum ==>
                newId < types.Length && SameEnumHead(types[id], types[newId])
    {
      hide DedupInv, SpellInv, HypotOk, TableInv, Represents, NoDuplicateFiled, Refines;
      InvTable(dontResolveFwds, orig, types[..], canon[..], table);
      RefinesItself(orig, canon[..]);
      match types[id].info.kind {
        case Enum => newId, h := PickEnum(id);
        case _ => newId, h := PickExact(id);
      }
    }

    method PrimType(id: nat) returns (r: int)
      requires Valid() && 0 < id < types.Length
      requires IsPrimKind(types[id].info.kind) ==> !Mapped(canon[..], id)
      modifies canon, `table
      ensures Valid() && Refines(orig, old(canon[..]), canon[..])
      ensures r == 0 && OnlyMaps(old(canon[..]), canon[..], id)
      ensures if IsPrimKind(types[id].info.kind) then Mapped(canon[..], id) else canon[id] == old(canon[id])
      ensures ExactStep(types[..], old(canon[..]), canon[..], id)
    {
      hide DedupInv, SpellInv, JoinsOne, CanLink, KeepsPromise, NoDuplicateFiled, Represents, TableInv, MapInv, Closed;
      hide ExactStep, EnumsOnly, SameEnumHead, Refines, Ranked, SameShapes;
      InvMap(dontResolveFwds, orig, types[..], canon[..], table);
      InvTable(dontResolveFwds, orig, types[..], canon[..], table);
      if !IsPrimKind(types[id].info.kind) {
        NothingDone(orig, types[..], canon[..], id);
        return if types[id].info.kind == Unkn then -EINVAL else 0;
      }
      var newId, h := PickPrim(id);
      ghost var m := canon[..];
      if newId != id {
        RepresentativeFits(dontResolveFwds, orig, types[..], m, table, id, newId);
        InvShapes(dontResolveFwds, orig, types[..], m, table);
        RepresentativeSpells(settled, dontResolveFwds, orig, types[..], m, id, newId);
        RepresentativeMapped(dontResolveFwds, orig, types[..], m, id, newId);
      }
      ExactStepOf(types[..], old(canon[..]), m, id, newId);
      Commit(id, newId, h);
      RefinesTrans(orig, old(canon[..]), m, canon[..]);
      r := 0;
    }

    ghost method SettlePrims()
      requires Valid() && types[..] == orig && PrimsDone(orig, canon[..], types.Length)
      requires PrimsExact(types[..], canon[..])
      modifies `settled
      ensures Valid() && settled
    {
      hide DedupInv, SpellInv, PrimsDone, PrimsExact, HypotOk;
      Settle(settled, dontResolveFwds, orig, canon[..], table);
      settled := true;
    }

    /** Afterwards every primitive is mapped and nothing else; an integer or a FWD to itself or
        to an earlier type with the same descriptor. */
    method PrimTypes() returns (r: int)
      requires Valid() && types[..] == orig && Unprocessed(orig, canon[..])
      modifies canon, `table, `settled
      ensures Valid() && r == 0 && PrimsDone(orig, canon[..], types.Length)
      ensures settled && PrimsExact(types[..], canon[..])
    {
      hide DedupInv, SpellInv, HypotOk, ExactStep, PrimsExact, Refines, OnlyMaps, PrimsDone, Mapped, IsPrimKind;
      hide Unprocessed, Closed, Ranked, MapInv, Unresolved;
      InvMap(dontResolveFwds, orig, types[..], canon[..], table);
      PrimsNotYet(orig, canon[..]);
      for i := 1 to types.Length
        invariant Valid() && PrimsDone(orig, canon[..], i) && PrimsExact(types[..], canon[..])
      {
        ghost var m := canon[..];
        if IsPrimKind(orig[i].info.kind) {
          PrimWaits(orig, m, i);
        }
        var err := PrimType(i);
        if err != 0 {
          return err;
        }
        PrimsNext(orig, m, canon[..], i);
      }
      SettlePrims();
      r := 0;
    }

    // -------------------------------------------------------------------------
    // Graph equivalence

    /** Where comparisons run: descriptors as they came, the canonical map at rest. */
    ghost predicate Comparing()
      reads this, types, canon, hypotMap
    {
      && canon != hypotMap
      && types[..] == orig
      && MapInv(orig, canon[..], Unresolved(orig, canon[..]))
      && HypotOk(hypotMap[..], hypotList, |orig|)
    }

    method ResolveFwdId(id: nat) returns (r: nat)
      requires Comparing() && id < types.Length
      ensures r == FwdId(orig, canon[..], id)
    {
      if types[id].info.kind != Fwd {
        return id;
      }
      r := ResolveTypeId(id);
      if types[r].info.kind != Fwd {
        return r;
      }
      return id;
    }

    method HypotMapAdd(from: nat, to: nat)
      requires Comparing() && from < types.Length && to < types.Length
      requires hypotMap[from] == UNPROCESSED
      modifies hypotMap, `hypotList
      ensures Comparing() && hypotMap[..] == old(hypotMap[..])[from := to] && hypotList == old(hypotList) + [from]
      ensures Unset(hypotMap[..]) < old(Unset(hypotMap[..]))
    {
      hide MapInv, Unresolved;
      hypotList := hypotList + [from];
      hypotMap[from] := to;
      assert hypotMap[..] == old(hypotMap[..])[from := to];
      assert from in old(Unset(hypotMap[..])) && from !in Unset(hypotMap[..]);
    }

    method ClearHypotMap()
      requires Comparing()
      modifies hypotMap, `hypotList
      ensures Comparing() && hypotList == [] && hypotMap[..] == NoHypotheses(|orig|)
    {
      hide MapInv, Unresolved;
      ghost var list := hypotList;
      for i := 0 to |hypotList|
        invariant hypotList == list
        invariant forall j :: 0 <= j < |list| ==> list[j] < hypotMap.Length
        invariant forall c :: 0 <= c < hypotMap.Length && hypotMap[c] != UNPROCESSED ==> c in list[i..]
      {
        hypotMap[hypotList[i]] := UNPROCESSED;
      }
      hypotList := [];
    }

    /** The comparison of two descriptors of one kind without following references. */
    method CompareShallow(a: nat, c: nat) returns (r: int)
      requires Comparing() && a < types.Length && c < types.Length
      requires types[a].name == types[c].name && types[a].info.kind == types[c].info.kind
      ensures r >= 0 ==> IsHashed(types[a].info.kind) && (r > 0 <==> ShallowSame(dontResolveFwds, types[a], types[c]))
      ensures r < 0 ==> r == -EINVAL && !IsHashed(types[a].info.kind)
    {
      var ta, tc := types[a], types[c];
      var eq: bool;
      assert WellFormed(orig[a]) && WellFormed(orig[c]);
      match ta.info.kind {
        case Int => eq := EqualInt(ta, tc);
        case Enum =>
          if dontResolveFwds {
            eq := EqualEnum(ta, tc);
          } else {
            eq := CompatEnum(ta, tc);
          }
        case Fwd =>
          EqualCommonDecides(ta, tc);
          eq := EqualCommon(ta, tc);
        case Array => eq := CompatArray(ta, tc);
        case Struct => eq := ShallowEqualStruct(ta, tc);
        case Union => eq := ShallowEqualStruct(ta, tc);
        case FuncProto => eq := CompatFnproto(ta, tc);
        case Unkn => return -EINVAL;
        case Var => return -EINVAL;
        case Datasec => return -EINVAL;
        case _ => eq := ta.info == tc.info;
      }
      r := if eq then 1 else 0;
    }

    /** Follows the references of two descriptors of one shape side by side. */
    method CompareRefs(a: nat, c: nat) returns (r: int)
      requires Comparing() && a < types.Length && c < types.Length
      requires Shape(types[a]) == Shape(types[c]) && IsHashed(types[a].info.kind)
      modifies hypotMap, `hypotList
      ensures r >= 0 || (r == -EINVAL && !NoVarRefs(orig))
      ensures Comparing() && Extends(old(hypotMap[..]), hypotMap[..])
      ensures r > 0 ==> SlotsJustified(orig, canon[..], hypotMap[..], a, c)
      ensures r > 0 ==>
                NewChecked(orig, canon[..], old(hypotMap[..]), hypotMap[..], dontResolveFwds)
      ensures r == 0 ==> SlotsRefuted(orig, canon[..], old(hypotMap[..]), dontResolveFwds, a, c)
      ensures r > 0 ==> SlotsForced(orig, canon[..], old(hypotMap[..]), hypotMap[..], dontResolveFwds, a, c)
      ensures r > 0 ==> GrownSlots(orig, canon[..], SlotIds(orig[c]), old(hypotList), hypotList)
      decreases Unset(hypotMap[..]), 2
    {
      hide SlotsSoFar, NewChecked, SlotsForced, SlotsRefuted, SlotsJustified, GrownSlots, Grown, Forced, Refuted;
      hide Justified, SameFamilies, KeepsMeaning, KeepsAgreement, Unresolved;
      ghost var g, m, h0, list0 := orig, canon[..], hypotMap[..], hypotList;
      SameShapeSameHeader(types[a], types[c]);
      var ra, rc := Refs(types[a]), Refs(types[c]);
      assert RefsBelow(g[a], |g|) && RefsBelow(g[c], |g|);
      var order := SlotOrder(types[c]);
      NoSlotsYet(g, m, dontResolveFwds, a, c, h0, list0);
      for j := 0 to |order|
        invariant Comparing() && Extends(h0, hypotMap[..])
        invariant SlotsSoFar(g, m, dontResolveFwds, a, c, h0, hypotMap[..], list0, hypotList, j)
      {
        ghost var h, list := hypotMap[..], hypotList;
        ExtendsShrinks(h0, h);
        r := IsEquiv(ra[order[j]], rc[order[j]]);
        if r <= 0 {
          if r == 0 {
            SlotRefused(g, m, dontResolveFwds, a, c, h0, h, list0, list, j);
          }
          return;
        }
        SlotAccepted(g, m, dontResolveFwds, a, c, h0, h, hypotMap[..], list0, list, hypotList, j);
      }
      SlotsAccepted(g, m, dontResolveFwds, a, c, h0, hypotMap[..], list0, hypotList);
      r := 1;
    }

    /** Whether the graphs under `cand` and `canonId` are equivalent: 1, 0 or an error.
        Hypotheses recorded on the way stay recorded. */
    method IsEquiv(cand: nat, canonId: nat) returns (r: int)
      requires Comparing() && cand < types.Length && canonId < types.Length
      modifies hypotMap, `hypotList
      ensures r >= 0 || (r == -EINVAL && (IsVarKind(orig[cand].info.kind) || !NoVarRefs(orig)))
      ensures Comparing() && Extends(old(hypotMap[..]), hypotMap[..])
      ensures r > 0 ==> Justified(orig, canon[..], hypotMap[..], cand, canonId)
      ensures r > 0 ==>
                NewChecked(orig, canon[..], old(hypotMap[..]), hypotMap[..], dontResolveFwds)
      ensures r == 0 ==> Refuted(orig, canon[..], old(hypotMap[..]), dontResolveFwds, cand, canonId)
      ensures r > 0 ==> Forced(orig, canon[..], old(hypotMap[..]), hypotMap[..], dontResolveFwds, cand, canonId)
      ensures r > 0 ==> Grown(orig, canon[..], canonId, old(hypotList), hypotList)
      ensures r > 0 ==> NewKindsMeet(orig, old(hypotMap[..]), hypotMap[..], dontResolveFwds)
      decreases Unset(hypotMap[..]), 1
    {
      hide NewKindsMeet, NewChecked, Forced, Refuted, Grown, MapInv, Unresolved, PairForced, PairRefuted;
      ghost var h, list := hypotMap[..], hypotList;
      InvParts(orig, canon[..], Unresolved(orig, canon[..]));
      VoidResolves(orig, canon[..], Unresolved(orig, canon[..]));
      NothingRecorded(orig, canon[..], h, dontResolveFwds);
      NoneGrown(orig, canon[..], canonId, list);
      JustifiedAlone(orig, canon[..], h, dontResolveFwds, cand, canonId);
      var rcand := ResolveTypeId(cand);
      var rcanon := ResolveTypeId(canonId);
      if rcand == rcanon {
        return 1;
      }
      var c := ResolveFwdId(canonId);
      var hypot := hypotMap[c];
      if hypot <= BTF_MAX_NR_TYPES {
        if hypot == cand {
          return 1;
        }
        var same := AreIdenticalArrays(hypot, cand);
        if !same {
          RecordedRefuted(orig, canon[..], h, dontResolveFwds, cand, canonId);
        }
        return if same then 1 else 0;
      }
      r := CompareNew(cand, c);
      if r == 0 {
        NewPairRefuted(orig, canon[..], h, dontResolveFwds, cand, canonId);
      } else if r > 0 {
        NewPairForced(orig, canon[..], h, hypotMap[..], dontResolveFwds, cand, canonId);
        PairGrown(orig, canon[..], canonId, list, hypotList);
        CheckedKinds(orig, canon[..], h, hypotMap[..], dontResolveFwds);
      }
    }

    method AreIdenticalArrays(id1: nat, id2: nat) returns (same: bool)
      requires Comparing() && id1 < types.Length && id2 < types.Length
      ensures same <==> IdenticalArrays(orig, id1, id2)
    {
      if types[id1].info.kind != Array || types[id2].info.kind != Array {
        return false;
      }
      assert WellFormed(orig[id1]) && WellFormed(orig[id2]);
      same := EqualArray(types[id1], types[id2]);
    }

    /** The rest of the comparison for a canonical-side id met for the first time. */
    method CompareNew(cand: nat, c: nat) returns (r: int)
      requires Comparing() && cand < types.Length && c < types.Length
      requires hypotMap[c] == UNPROCESSED && !(cand == 0 && c == 0)
      modifies hypotMap, `hypotList
      ensures r >= 0 || (r == -EINVAL && (IsVarKind(orig[cand].info.kind) || !NoVarRefs(orig)))
      ensures Comparing() && Extends(old(hypotMap[..]), hypotMap[..])
      ensures r > 0 ==> hypotMap[c] == cand
      ensures r > 0 ==>
                NewChecked(orig, canon[..], old(hypotMap[..]), hypotMap[..], dontResolveFwds)
      ensures r == 0 ==> PairRefuted(orig, canon[..], old(hypotMap[..])[c := cand], dontResolveFwds, c)
      ensures r > 0 ==> PairForced(orig, canon[..], old(hypotMap[..])[c := cand], hypotMap[..], dontResolveFwds, c)
      ensures r > 0 ==> GrownSlots(orig, canon[..], SlotIds(orig[c]), old(hypotList) + [c], hypotList)
      decreases Unset(hypotMap[..]), 0
    {
      ghost var h0 := hypotMap[..];
      HypotMapAdd(c, cand);
      ghost var h1 := hypotMap[..];
      r := CompareRecorded(cand, c);
      if r > 0 {
        FirstChecked(orig, canon[..], h0, h1, hypotMap[..], dontResolveFwds, c, cand);
      }
    }

    /** The comparison proper, of a pair that has just been recorded. */
    method CompareRecorded(cand: nat, c: nat) returns (r: int)
      requires Comparing() && cand < types.Length && c < types.Length
      requires hypotMap[c] == cand && !(cand == 0 && c == 0)
      modifies hypotMap, `hypotList
      ensures r >= 0 || (r == -EINVAL && (IsVarKind(orig[cand].info.kind) || !NoVarRefs(orig)))
      ensures Comparing() && Extends(old(hypotMap[..]), hypotMap[..])
      ensures r > 0 ==> NewChecked(orig, canon[..], old(hypotMap[..]), hypotMap[..], dontResolveFwds)
      ensures r > 0 ==> Checked(orig, canon[..], hypotMap[..], dontResolveFwds, c)
      ensures r == 0 ==> PairRefuted(orig, canon[..], old(hypotMap[..]), dontResolveFwds, c)
      ensures r > 0 ==> PairForced(orig, canon[..], old(hypotMap[..]), hypotMap[..], dontResolveFwds, c)
      ensures r > 0 ==> GrownSlots(orig, canon[..], SlotIds(orig[c]), old(hypotList), hypotList)
      ensures orig[cand].name != orig[c].name ==> r == 0
      ensures !dontResolveFwds && orig[cand].name == orig[c].name ==>
                && (orig[cand].info.kind == Fwd != orig[c].info.kind ==>
                      r == if Announces(orig[cand], orig[c]) then 1 else 0)
                && (orig[c].info.kind == Fwd != orig[cand].info.kind ==>
                      r == if Announces(orig[c], orig[cand]) then 1 else 0)
      decreases Unset(hypotMap[..]), 3
    {
      ghost var h := hypotMap[..];
      NoSlotsGrown(orig, canon[..], SlotIds(orig[c]), hypotList);
      if !Compatible(dontResolveFwds, types[cand], types[c]) {
        PairIncompatible(orig, canon[..], h, dontResolveFwds, cand, c);
      }
      PairAlone(orig, canon[..], h, dontResolveFwds, c);
      var candType, canonType := types[cand], types[c];
      if candType.name != canonType.name {
        return 0;
      }
      var candKind, canonKind := candType.info.kind, canonType.info.kind;
      if !dontResolveFwds && (candKind == Fwd || canonKind == Fwd) && candKind != canonKind {
        var realKind, fwdKind;
        if candKind == Fwd {
          realKind, fwdKind := canonKind, FwdKind(candType);
        } else {
          realKind, fwdKind := candKind, FwdKind(canonType);
        }
        return if fwdKind == realKind then 1 else 0;
      }
      if candKind != canonKind {
        return 0;
      }
      r := CompareShallow(cand, c);
      if r <= 0 {
        return;
      }
      if IsPrimKind(candKind) {
        PrimChecked(orig, canon[..], hypotMap[..], dontResolveFwds, c);
        return;
      }
      r := CompareRefs(cand, c);
      PairBySlots(orig, canon[..], h, hypotMap[..], dontResolveFwds, cand, c);
    }

    function FwdKind(t: BtfType): Kind { if t.info.kflag then Union else Struct }

    // -------------------------------------------------------------------------
    // Structs and unions

    /** Merges the hypothesis that canonical-side `c` is candidate-side `a`. */
    method MergePair(c: nat, a: nat)
      requires types[..] == orig && Ranked(orig, canon[..]) && c < types.Length && a < types.Length
      modifies canon
      ensures canon[..] == MergeStep(orig, old(canon[..]), c, a)
    {
      var t := ResolveTypeId(a);
      var r := ResolveTypeId(c);
      var tKind, rKind := types[t].info.kind, types[r].info.kind;
      if tKind != Fwd && rKind == Fwd {
        canon[r] := t;
      }
      if tKind == Fwd && rKind != Fwd {
        canon[t] := r;
      }
      if IsComposite(tKind) && rKind != Fwd && canon[r] <= BTF_MAX_NR_TYPES && canon[t] > BTF_MAX_NR_TYPES {
        canon[t] := r;
      }
    }

    method MergeHypotMap()
      requires Comparing() && PairsOk(orig, false, hypotList, hypotMap[..])
      modifies canon
      ensures canon[..] == MergeAll(orig, old(canon[..]), hypotList, hypotMap[..])
    {
      hide MergeStep, MergeAll, PairsOk, PairOk, MapInv, Unresolved, HypotOk;
      ghost var m, h := canon[..], hypotMap[..];
      InvParts(orig, m, Unresolved(orig, m));
      MapInvFalse(orig, m, Unresolved(orig, m));
      MergeNone(orig, m, hypotList, h);
      for i := 0 to |hypotList|
        invariant PairsOk(orig, false, hypotList[..i], h) && canon[..] == MergeAll(orig, m, hypotList[..i], h)
      {
        MergeNext(orig, m, hypotList, h, i);
        MergePair(hypotList[i], hypotMap[hypotList[i]]);
      }
      assert hypotList[..|hypotList|] == hypotList;
    }

    /** A comparison from a clean slate: on success all it recorded has been compared, and
        had to be recorded; two types accepted without resolving anything mean the same, and
        where forwards have one meaning each they always agree up to forwards. */
    method CompareFresh(id: nat, cand: nat) returns (r: int)
      requires Comparing() && id < types.Length && cand < types.Length && IsHashed(types[id].info.kind)
      modifies hypotMap, `hypotList
      ensures Comparing() && (r >= 0 || (r == -EINVAL && !NoVarRefs(orig)))
      ensures r > 0 ==> AcceptedBy(orig, canon[..], dontResolveFwds, id, cand, hypotMap[..], hypotList)
      ensures r > 0 && dontResolveFwds && Unresolved(orig, canon[..]) ==> Alike(orig, id, cand)
      ensures r > 0 && Consistent(orig) ==> Agree(orig, id, cand)
      ensures r == 0 ==> Unmatched(orig, canon[..], dontResolveFwds, id, cand)
    {
      ClearHypotMap();
      ghost var h0 := hypotMap[..];
      r := IsEquiv(id, cand);
      if r == 0 {
        FreshRefuted(orig, canon[..], h0, dontResolveFwds, id, cand);
      }
      if r > 0 {
        AllNewChecked(orig, canon[..], hypotMap[..], dontResolveFwds);
        AcceptedSound(orig, canon[..], dontResolveFwds, id, cand, hypotMap[..]);
      }
    }

    /** Primitives come first, so they are mapped when structs are compared. */
    ghost predicate PrimsMapped()
      reads canon, `settled
    {
      settled && canon.Length == |orig| &&
      forall x :: 0 <= x < |orig| && IsPrimKind(orig[x].info.kind) ==> Mapped(canon[..], x)
    }

    /** Merges what an accepted comparison of `id` with `cand` recorded. */
    method Accept(id: nat, cand: nat)
      requires Valid() && types[..] == orig && 0 < id < types.Length && cand < types.Length
      requires IsComposite(types[id].info.kind) && Shape(types[id]) == Shape(types[cand])
      requires !Mapped(canon[..], id) && Settled(orig, canon[..], cand) && PrimsMapped()
      requires AcceptedBy(orig, canon[..], dontResolveFwds, id, cand, hypotMap[..], hypotList)
      modifies canon
      ensures Valid() && Refines(orig, old(canon[..]), canon[..]) && MergeFrame(orig, old(canon[..]), canon[..])
      ensures cand != id && CanCommit(id, cand)
      ensures Merged(orig, old(canon[..]), canon[..], dontResolveFwds, id, cand)
    {
      hide DedupInv, Recorded, Forced, Justified, AllChecked, CanLink, KeepsPromise, Refines, MergeFrame, MapInv;
      hide SpellInv, JoinsOne;
      ghost var m := canon[..];
      InvMap(dontResolveFwds, orig, orig, m, table);
      InvTable(dontResolveFwds, orig, orig, m, table);
      AcceptKeepsDedup(dontResolveFwds, orig, m, table, hypotMap[..], hypotList, id, cand);
      AcceptKeepsSpelling(dontResolveFwds, orig, m, hypotMap[..], hypotList, id, cand);
      MergeHypotMap();
      MergedOf(orig, m, canon[..], dontResolveFwds, id, cand, hypotMap[..], hypotList);
    }

    /** One struct candidate.  On success it has the shape of `id`, the comparison has been
        merged and `cand` may represent `id`; otherwise the canonical map is as it was. */
    method TryStruct(id: nat, cand: nat, h: int) returns (r: int)
      requires Valid() && types[..] == orig && 0 < id < types.Length
      requires IsComposite(types[id].info.kind) && !Mapped(canon[..], id) && PrimsMapped()
      requires EntryOk(orig, types[..], canon[..], h, cand)
      modifies canon, hypotMap, `hypotList
      ensures Valid() && Refines(orig, old(canon[..]), canon[..]) && MergeFrame(orig, old(canon[..]), canon[..])
      ensures r >= 0 || (r == -EINVAL && !NoVarRefs(orig))
      ensures r <= 0 ==> canon[..] == old(canon[..])
      ensures r > 0 ==> cand != id && CanCommit(id, cand) && Shape(orig[cand]) == Shape(orig[id])
      ensures r > 0 ==> cand < canon.Length && old(canon[..])[cand] == cand
      ensures r > 0 ==> Merged(orig, old(canon[..]), canon[..], dontResolveFwds, id, cand)
      ensures r == 0 && Shape(orig[cand]) == Shape(orig[id]) ==> Unmatched(orig, canon[..], dontResolveFwds, id, cand)
    {
      hide DedupInv, SpellInv, HypotOk, MapInv, AcceptedBy, Merged, Unmatched, Consistent, Agree;
      hide JoinsOne, CanLink, KeepsPromise, Refines, MergeFrame, Closed, Ranked, Unresolved, NoVarRefs, SigHash;
      InvMap(dontResolveFwds, orig, orig, canon[..], table);
      InvTable(dontResolveFwds, orig, orig, canon[..], table);
      RefinesItself(orig, canon[..]);
      var eq := ShallowEqualStruct(types[id], types[cand]);
      if !eq {
        return 0;
      }
      SameShapeSameHeader(types[id], types[cand]);
      r := CompareFresh(id, cand);
      if r > 0 {
        Accept(id, cand);
      }
    }

    /** The search for a representative among the structs filed under one hash. */
    method PickStruct(id: nat, h: int) returns (r: int, newId: nat)
      requires Valid() && types[..] == orig && 0 < id < types.Length
      requires IsComposite(types[id].info.kind) && h == SigHash(types[id])
      requires !Mapped(canon[..], id) && PrimsMapped()
      modifies canon, hypotMap, `hypotList
      ensures Valid() && (r == 0 || (r == -EINVAL && !NoVarRefs(orig)))
      ensures newId == id || r < 0 ==> canon[..] == old(canon[..])
      ensures Refines(orig, old(canon[..]), canon[..]) && MergeFrame(orig, old(canon[..]), canon[..])
      ensures r == 0 && newId != id ==> CanCommit(id, newId) && Shape(orig[newId]) == Shape(orig[id])
      ensures r == 0 && newId != id ==> newId < canon.Length && old(canon[..])[newId] == newId
      ensures r == 0 && newId != id ==> Merged(orig, old(canon[..]), canon[..], dontResolveFwds, id, newId)
      ensures r == 0 && newId == id ==> NoneFiled(orig, canon[..], table, dontResolveFwds, id, h)
    {
      hide DedupInv, SpellInv, HypotOk, Unmatched, NoneFiled, Merged, Refines, MergeFrame, CanLink, KeepsPromise;
      hide JoinsOne, Closed, NoVarRefs, Ranked, MapInv, Unresolved, AllUnmatched, EntryOk, Shape, Mapped;
      ghost var m := canon[..];
      InvMap(dontResolveFwds, orig, types[..], m, table);
      RefinesItself(orig, m);
      InvTable(dontResolveFwds, orig, types[..], m, table);
      var cands := Candidates(h);
      NoneTried(orig, m, dontResolveFwds, id, cands);
      for i := 0 to |cands|
        invariant Valid() && canon[..] == m && PrimsMapped()
        invariant AllUnmatched(orig, m, dontResolveFwds, id, cands[..i])
      {
        EntryOfCandidate(orig, types[..], m, table, h, cands[i]);
        r := TryStruct(id, cands[i], h);
        if r < 0 {
          return r, id;
        }
        if r > 0 {
          return 0, cands[i];
        }
        OneMoreUnmatched(orig, m, dontResolveFwds, id, cands, i);
      }
      assert cands[..|cands|] == cands;
      NoneFiledOf(orig, m, table, dontResolveFwds, id, h, cands);
      return 0, id;
    }

    /** A struct or union not yet mapped becomes its own canonical type, and then can be none
        of those filed so far, or is represented by one a comparison accepted, which is
        merged.  Nothing else is touched. */
    method StructType(id: nat) returns (r: int)
      requires Valid() && types[..] == orig && 0 < id < types.Length && PrimsMapped()
      modifies canon, hypotMap, `hypotList, `table
      ensures r == 0 && IsComposite(types[id].info.kind) && old(!Mapped(canon[..], id)) && canon[id] == id ==>
                NoneFiled(orig, old(canon[..]), old(table), dontResolveFwds, id, SigHash(orig[id]))
      ensures r == 0 ==>
                StructOutcome(orig, old(canon[..]), canon[..], old(table), dontResolveFwds, id)
      ensures Valid() && Refines(orig, old(canon[..]), canon[..]) && StructFrame(orig, old(canon[..]), canon[..])
      ensures r == 0 && IsComposite(types[id].info.kind) ==> Mapped(canon[..], id)
      ensures r == 0 || (r == -EINVAL && !NoVarRefs(orig))
    {
      hide NoneFiled, SigHash, Root, Merged, Joined, Consistent, Agree, Alike, KeepsMeaning, KeepsAgreement;
      hide DedupInv, SpellInv, HypotOk, JoinsOne, CanLink, KeepsPromise, NoDuplicateFiled, Refines, StructFrame;
      hide MergeFrame, Closed, Ranked, NoVarRefs, MapInv, Unresolved;
      InvMap(dontResolveFwds, orig, orig, canon[..], table);
      UntouchedIs(orig, canon[..]);
      if canon[id] <= BTF_MAX_NR_TYPES || !IsComposite(types[id].info.kind) {
        return 0;
      }
      ghost var m := canon[..];
      var h := HashStruct(types[id]);
      var newId: nat;
      r, newId := PickStruct(id, h);
      if r < 0 {
        return;
      }
      ghost var m1 := canon[..];
      Commit(id, newId, h);
      RefinesTrans(orig, m, m1, canon[..]);
      StructFrameOf(orig, m, m1, id, newId);
      if newId != id {
        JoinedOf(orig, m, m1, canon[..], dontResolveFwds, id, newId);
      }
    }

    method StructTypes() returns (r: int)
      requires Valid() && settled && types[..] == orig && StructsDone(orig, canon[..], 0)
      modifies canon, hypotMap, `hypotList, `table
      ensures Valid() && (r == 0 || (r == -EINVAL && !NoVarRefs(orig)))
      ensures r == 0 ==> StructsDone(orig, canon[..], types.Length)
    {
      hide DedupInv, SpellInv, HypotOk, StructOutcome, NoneFiled, StructFrame, Refines, NoVarRefs, SigHash, IsComposite;
      InvMap(dontResolveFwds, orig, orig, canon[..], table);
      VoidNoStruct(orig, canon[..]);
      for i := 1 to types.Length
        invariant Valid() && StructsDone(orig, canon[..], i)
      {
        ghost var m := canon[..];
        r := StructType(i);
        if r != 0 {
          return;
        }
        StructsDoneNext(orig, m, canon[..], i);
      }
      r := 0;
    }

    // -------------------------------------------------------------------------
    // Reference types

    ghost predicate Following(path: seq<nat>)
      reads this, types, canon, hypotMap
    {
      Valid() && settled && RefInv(orig, types[..], canon[..], path) && IsPath(orig, path)
    }

    /** The representative of `id`, after the same has been done for everything its
        chain of references passes through; -ELOOP when the chain comes back. */
    method RefType(id: nat, ghost path: seq<nat>) returns (r: int)
      requires Following(path) && id < types.Length
      requires path != [] && IsRefKind(orig[id].info.kind) ==> RefEdge(orig, path[|path| - 1], id)
      modifies types, canon, `table
      ensures Valid() && MappedKept(old(canon[..]), canon[..])
      ensures Pending(canon[..]) <= old(Pending(canon[..]))
      ensures r >= 0 ==> Following(path)
      ensures r >= 0 ==> forall x :: x in path && x < types.Length ==> types[x] == old(types[x])
      ensures r >= 0 ==> r < types.Length && Mapped(canon[..], id) && r == Root(canon[..], id)
                         && SelfMapped(canon[..], r) && Ends(orig, id)
      ensures r < 0 ==> r == -ELOOP && HasCycle(orig)
      decreases Pending(canon[..]), 0
    {
      hide DedupInv, SpellInv, HypotOk, MapInv, Ranked, Closed, IsPath, RefEdge, HasCycle, RefsResolved, Refines;
      ghost var g, m := types[..], canon[..];
      InvMap(dontResolveFwds, orig, g, m, table);
      assert RefEntry(orig, g, m, path, id);
      if canon[id] == IN_PROGRESS {
        BackEdgeCycle(orig, path, id);
        return -ELOOP;
      }
      if canon[id] <= BTF_MAX_NR_TYPES {
        r := ResolveTypeId(id);
        RootMapped(orig, g, m, path, Unresolved(orig, canon[..]), id);
        assert !IsRefKind(orig[id].info.kind) ==> Grounded(orig, 0, id);
        return;
      }
      MarkKeepsDedup(dontResolveFwds, orig, g, m, table, id);
      InvMap(dontResolveFwds, orig, g, m[id := IN_PROGRESS], table);
      MarkKeepsSpelling(settled, dontResolveFwds, orig, g, m, id);
      MarkKeepsRefs(orig, g, m, path, id);
      canon[id] := IN_PROGRESS;
      assert canon[..] == m[id := IN_PROGRESS];
      PathExtends(orig, path, id);
      r := RefSlots(id, path);
      if r < 0 {
        return;
      }
      r := FinishRef(id, path);
    }

    /** Resolves the references of `id` one after the other, in place. */
    method RefSlots(id: nat, ghost path: seq<nat>) returns (r: int)
      requires Following(path + [id]) && id < types.Length
      requires canon[id] == IN_PROGRESS && types[id] == orig[id]
      modifies types, canon, `table
      ensures Valid() && MappedKept(old(canon[..]), canon[..])
      ensures Pending(canon[..]) <= old(Pending(canon[..]))
      ensures r >= 0 ==> Following(path + [id])
      ensures r >= 0 ==> forall x :: x in path && x != id && x < types.Length ==> types[x] == old(types[x])
      ensures r >= 0 ==> RefsResolved(orig, types[..], canon[..], id) && Ends(orig, id)
      ensures r < 0 ==> r == -ELOOP && HasCycle(orig)
      decreases Pending(canon[..]), 2
    {
      hide DedupInv, SpellInv, HypotOk, IsPath, HasCycle, Grounded;
      InvMap(dontResolveFwds, orig, types[..], canon[..], table);
      ghost var m0, g0 := canon[..], types[..];
      assert RefEntry(orig, g0, m0, path + [id], id);
      hide RefInv, RefEntry, Closed, Ranked, MapInv;
      var n := |Refs(types[id])|;
      for i := 0 to n
        invariant Following(path + [id]) && MappedKept(m0, canon[..])
        invariant Pending(canon[..]) <= Pending(m0)
        invariant Progress(orig, types[..], canon[..], id, i)
        invariant forall x :: x in path && x != id && x < types.Length ==> types[x] == g0[x]
      {
        r := RefSlot(id, i, path);
        if r < 0 {
          return;
        }
      }
      EndsStep(orig, id);
      r := 0;
    }

    /** Follows the reference in slot `i` of `id` and stores what it resolves to. */
    method RefSlot(id: nat, i: nat, ghost path: seq<nat>) returns (r: int)
      requires Following(path + [id]) && id < types.Length
      requires IsRefKind(orig[id].info.kind) && i < |Refs(orig[id])|
      requires Progress(orig, types[..], canon[..], id, i)
      modifies types, canon, `table
      ensures Valid() && MappedKept(old(canon[..]), canon[..])
      ensures Pending(canon[..]) <= old(Pending(canon[..]))
      ensures r >= 0 ==> Following(path + [id]) && Progress(orig, types[..], canon[..], id, i + 1)
      ensures r >= 0 ==> forall x :: x in path && x != id && x < types.Length ==> types[x] == old(types[x])
      ensures r < 0 ==> r == -ELOOP && HasCycle(orig)
      decreases Pending(canon[..]), 1
    {
      hide SpellInv;
      ghost var g, m := types[..], canon[..];
      var ref := Refs(types[id])[i];
      SlotEdge(orig, id, i);
      r := RefType(ref, path + [id]);
      if r < 0 {
        return;
      }
      ProgressKept(orig, g, types[..], m, canon[..], id, i);
      Store(id, i, ref, r, path);
    }

    /** Stores the resolved reference `r` in slot `i` of `id`. */
    method Store(id: nat, i: nat, ghost ref: nat, r: nat, ghost path: seq<nat>)
      requires Following(path + [id]) && id < types.Length && r < types.Length
      requires Progress(orig, types[..], canon[..], id, i) && i < |Refs(orig[id])|
      requires ref == Refs(orig[id])[i] && ref < types.Length && Mapped(canon[..], ref) && Ends(orig, ref)
      requires r == Root(canon[..], ref) && SelfMapped(canon[..], r)
      modifies types
      ensures Following(path + [id]) && Progress(orig, types[..], canon[..], id, i + 1)
      ensures forall x :: 0 <= x < types.Length && x != id ==> types[x] == old(types[x])
    {
      hide DedupInv, SpellInv, HypotOk, RefInv, IsPath, Progress, Root, Ends, Mapped, SelfMapped;
      ghost var g, m := types[..], canon[..];
      InvTable(dontResolveFwds, orig, g, m, table);
      StoreKeepsAll(dontResolveFwds, orig, g, m, table, path, id, i, r);
      types[id] := SetRefs(types[id], Refs(types[id])[i := r]);
      assert types[..] == g[id := types[id]];
    }

    method PickRef(id: nat) returns (newId: nat, h: int)
      requires Valid() && settled && id < types.Length && IsRefKind(types[id].info.kind) && !Mapped(canon[..], id)
      ensures h == SigHash(types[id]) && CanCommit(id, newId)
      ensures newId == id || SelfMapped(canon[..], newId)
      ensures types[newId] == types[id]
    {
      hide DedupInv, SpellInv, HypotOk, TableInv, JoinsOne, CanLink, KeepsPromise, Represents, NoDuplicateFiled;
      hide Closed;
      ghost var g, m := types[..], canon[..];
      InvTable(dontResolveFwds, orig, g, m, table);
      newId, h := PickExact(id);
      if newId != id {
        RefRepresentative(dontResolveFwds, orig, g, m, table, id, newId);
      }
    }

    /** The search for a representative once all references are resolved. */
    method FinishRef(id: nat, ghost path: seq<nat>) returns (newId: nat)
      requires Following(path + [id]) && id < types.Length && id !in path && IsPath(orig, path)
      requires RefsResolved(orig, types[..], canon[..], id) && Ends(orig, id)
      modifies canon, `table
      ensures Following(path) && MappedKept(old(canon[..]), canon[..])
      ensures Pending(canon[..]) <= old(Pending(canon[..]))
      ensures newId < types.Length && Mapped(canon[..], id) && newId == Root(canon[..], id)
      ensures SelfMapped(canon[..], newId)
    {
      hide DedupInv, SpellInv, HypotOk, JoinsOne, CanLink, KeepsPromise, NoDuplicateFiled, Refines, MapInv, Ends;
      hide Closed, Ranked, IsPath, SigHash, RefsResolved, MappedKept, Represents;
      ghost var g, m := types[..], canon[..];
      InvMap(dontResolveFwds, orig, g, m, table);
      InvTable(dontResolveFwds, orig, g, m, table);
      InvShapes(dontResolveFwds, orig, g, m, table);
      assert RefEntry(orig, g, m, path + [id], id);
      var h: int;
      newId, h := PickRef(id);
      Commit(id, newId, h);
      InvMap(dontResolveFwds, orig, g, canon[..], table);
      FinishKeepsRefs(orig, g, m, path, id, newId);
      FinishMap(orig, m, id, newId);
    }

    method RefTypes() returns (r: int)
      requires Valid() && settled && types[..] == orig && StructsDone(orig, canon[..], types.Length)
      modifies types, canon, `table
      ensures Valid() && r <= 0
      ensures r == 0 ==> AllMapped(canon[..]) && RefInv(orig, types[..], canon[..], []) && AllEnd(orig)
      ensures r < 0 ==> r == -ELOOP && HasCycle(orig)
      ensures MappedKept(old(canon[..]), canon[..])
    {
      hide SpellInv, MapInv, Consistent, Rewords, Rewrites, TableSound, TableComplete, NoDuplicates;
      ghost var m0 := canon[..];
      RefsBegin(orig, canon[..]);
      VoidDone(orig, canon[..]);
      for i := 1 to types.Length
        invariant Following([]) && DoneBelow(orig, canon[..], i) && MappedKept(m0, canon[..])
      {
        ghost var m := canon[..];
        r := RefType(i, []);
        if r < 0 {
          return;
        }
        DoneNext(orig, m, canon[..], i);
      }
      r := 0;
    }

    // -------------------------------------------------------------------------
    // Compaction and remapping

    /** Makes the hypothetical map ready to hold the renumbering. */
    method ForgetHypotheses()
      modifies hypotMap
      ensures forall x :: 0 <= x < hypotMap.Length ==> hypotMap[x] == UNPROCESSED
    {
      for id := 0 to hypotMap.Length
        invariant forall x :: 0 <= x < id ==> hypotMap[x] == UNPROCESSED
      {
        hypotMap[id] := UNPROCESSED;
      }
    }

    /** Moves the canonical descriptors down over the others and records where each
        went; the slot written never lies beyond the one being read. */
    method CompactTypes()
      requires canon != hypotMap && canon.Length == hypotMap.Length == types.Length
      requires 0 < canon.Length && canon[0] == 0
      modifies types, hypotMap, `nrTypes
      ensures CompactedTo(old(types[..]), canon[..], types[..], hypotMap[..], types.Length, nrTypes)
    {
      hide CompactedTo;
      ghost var g, m := types[..], canon[..];
      ForgetHypotheses();
      ghost var empty := hypotMap[..];
      CompactBegin(g, m, empty);
      hypotMap[0] := 0;
      assert hypotMap[..] == empty[0 := 0];
      var next := 1;
      for id := 1 to types.Length
        invariant CompactedTo(g, m, types[..], hypotMap[..], id, next)
      {
        ghost var ts, h := types[..], hypotMap[..];
        CompactStep(g, m, ts, h, id, next);
        if canon[id] != id {
          continue;
        }
        types[next] := types[id];
        hypotMap[id] := next;
        assert types[..] == ts[next := ts[id]] && hypotMap[..] == h[id := next];
        next := next + 1;
      }
      nrTypes := next;
    }

    /** The state between compaction and the end: `g` as it was compacted. */
    ghost predicate Compacted(g: Graph)
      reads this, types, canon, hypotMap
    {
      && canon != hypotMap
      && canon.Length == hypotMap.Length == types.Length
      && MapInv(orig, canon[..], Unresolved(orig, canon[..])) && AllMapped(canon[..])
      && Closed(g) && |g| == canon.Length
      && nrTypes == CanonCount(canon[..], canon.Length)
      && (forall x :: 0 <= x < canon.Length ==> hypotMap[x] == Renumbered(canon[..], x))
    }

    /** The final id of a type.  Never fails: everything resolves to a type that is kept. */
    method RemapTypeId(id: nat, ghost g: Graph) returns (r: int)
      requires Compacted(g) && id < canon.Length
      ensures Root(canon[..], id) < canon.Length && r == NewId(canon[..], id)
    {
      var resolved := ResolveTypeId(id);
      RootKeeps(orig, canon[..], Unresolved(orig, canon[..]), id);
      var newId := hypotMap[resolved];
      if newId > BTF_MAX_NR_TYPES {
        return -EINVAL;
      }
      return newId;
    }

    /** Moves every type id of a descriptor to its new id, and nothing else. */
    method RemapType(k: nat, ghost g: Graph) returns (r: int)
      requires Compacted(g) && k < types.Length && WellFormed(types[k]) && CanRemap(canon[..], types[k])
      modifies types
      ensures r == 0 && types[k] == Remap(canon[..], old(types[k]))
      ensures forall x :: 0 <= x < canon.Length ==> Root(canon[..], x) < canon.Length
      ensures Renumbers(NewIds(canon[..]), old(types[k]), types[k])
      ensures forall x :: 0 <= x < types.Length && x != k ==> types[x] == old(types[x])
    {
      hide Refs, SetRefs, Shape, Root, NewId, CanonCount, MapInv, AllMapped, Closed, Renumbered, Unresolved;
      hide WellFormed, Renumbers;
      ghost var t, m := types[k], canon[..];
      RootsInRange(orig, m, Unresolved(orig, m));
      ghost var rs, ns := Refs(t), NewRefs(m, Refs(t));
      var n := |Refs(types[k])|;
      for i := 0 to n
        invariant |Refs(types[k])| == n && Shape(types[k]) == Shape(t)
        invariant forall j :: 0 <= j < n ==> Refs(types[k])[j] == if j < i then ns[j] else rs[j]
        invariant forall x :: 0 <= x < types.Length && x != k ==> types[x] == old(types[x])
      {
        var ref := Refs(types[k])[i];
        r := RemapTypeId(ref, g);
        if r < 0 {
          return;
        }
        SetRefsSpec(types[k], Refs(types[k])[i := r]);
        types[k] := SetRefs(types[k], Refs(types[k])[i := r]);
      }
      SetRefsSpec(t, ns);
      assert Refs(types[k]) == ns;
      ShapeAndRefsDetermine(types[k], SetRefs(t, ns));
      RemapFields(m, NewIds(m), t);
      r := 0;
    }

    method RemapTypes(ghost g: Graph) returns (r: int)
      requires Compacted(g)
      requires forall k :: 0 <= k < nrTypes ==> types[k] == g[CanonIds(canon[..], canon.Length)[k]]
      modifies types
      ensures r == 0 && IsOutput(g, canon[..], types[..nrTypes])
      ensures forall x :: 0 <= x < canon.Length ==> Root(canon[..], x) < canon.Length
      ensures EntriesRenumbered(g, canon[..], types[..nrTypes])
    {
      hide MapInv, AllMapped, Unresolved, Closed, CanRemap, Remap, WellFormed, Renumbers, EntriesRenumbered;
      ghost var m := canon[..];
      ghost var ids := CanonIds(m, |m|);
      AllWellFormed(g);
      RemapStart(orig, g, m, Unresolved(orig, canon[..]));
      for k := 1 to nrTypes
        invariant forall j :: 0 <= j < k ==> types[j] == Remap(m, g[ids[j]])
        invariant forall j :: k <= j < nrTypes ==> types[j] == g[ids[j]]
      {
        r := RemapType(k, g);
        if r < 0 {
          return;
        }
      }
      forall k | 0 <= k < nrTypes ensures OutputEntry(g, m, types[..nrTypes], k) {
      }
      OutputRenumbered(orig, g, m, Unresolved(orig, m), types[..nrTypes]);
      r := 0;
    }

    // -------------------------------------------------------------------------
    // The passes together

    /** What `btf__dedup` promises of its result. */
    ghost predicate Result()
      requires nrTypes <= types.Length
      reads this, types, canon
    {
      && ResultOk(dontResolveFwds, orig, canon[..], types[..nrTypes])
      && |canon[..]| == |orig|
      && FieldsKept(orig, canon[..], types[..nrTypes])
    }

    /** Primitive, struct and reference passes: every type finds its representative. */
    method Canonicalise() returns (r: int)
      requires Valid() && types[..] == orig && Unprocessed(orig, canon[..])
      modifies types, canon, hypotMap, `hypotList, `table, `settled
      ensures Valid() && (r == 0 || (r == -EINVAL && !NoVarRefs(orig)) || (r == -ELOOP && HasCycle(orig)))
      ensures r == 0 ==> AllMapped(canon[..]) && RefInv(orig, types[..], canon[..], []) && AllEnd(orig)
      ensures r == 0 ==> VarsStay(orig, canon[..])
      ensures settled
    {
      hide DedupInv, SpellInv, HypotOk, PrimsDone, PrimsExact, StructsDone, Unprocessed, AllMapped, RefInv, AllEnd;
      hide HasCycle, NoVarRefs, MappedKept, VarsStay;
      r := PrimTypes();
      if r < 0 {
        return;
      }
      PrimsThenStructs(orig, canon[..]);
      r := StructTypes();
      if r < 0 {
        return;
      }
      ghost var m := canon[..];
      StructsDoneVars(orig, m);
      InvMap(dontResolveFwds, orig, types[..], m, table);
      r := RefTypes();
      MappedKeptVars(orig, m, canon[..]);
    }

    method Run() returns (r: int)
      requires Valid() && types[..] == orig && Unprocessed(orig, canon[..])
      modifies types, canon, hypotMap, this
      ensures nrTypes <= types.Length && (r == 0 ==> Result())
      ensures r == 0 || (r == -EINVAL && !NoVarRefs(orig)) || (r == -ELOOP && HasCycle(orig))
      ensures HasCycle(orig) ==> r != 0
    {
      nrTypes := types.Length;
      r := Canonicalise();
      if r < 0 {
        return;
      }
      AllEndNoCycles(orig);
      r := Finish();
    }

    /** Compaction and remapping: cannot fail once every type has a representative. */
    method Finish() returns (r: int)
      requires Valid() && settled && AllMapped(canon[..]) && RefInv(orig, types[..], canon[..], [])
      requires VarsStay(orig, canon[..])
      modifies types, hypotMap, `nrTypes
      ensures r == 0 && nrTypes <= types.Length && Result()
      ensures IsOutput(old(types[..]), canon[..], types[..nrTypes])
    {
      hide FieldsKept, ResultOk, VarsStay, EntriesRenumbered;
      ghost var g, m := types[..], canon[..];
      CompactTypes();
      r := RemapTypes(g);
      OutputVerdict(dontResolveFwds, orig, g, m, table, types[..nrTypes]);
      OutputFields(orig, g, m, types[..nrTypes]);
    }
  }
}
