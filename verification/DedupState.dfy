/** The invariant that ties together the state of BTF deduplication: descriptors,
    canonical map and the table of canonical candidates. */
module DedupState {
  import opened BtfTypes
  import opened BtfCompare
  import opened BtfGraph
  import opened BtfAgree
  import opened DedupMap
  import opened DedupOne

  predicate IsVarKind(k: Kind) { k == Var || k == Datasec }

  /** Only data sections refer to variables, and nothing refers to data sections. */
  ghost predicate NoVarRefs(g: Graph) {
    forall x, i :: 0 <= x < |g| && IsHashed(g[x].info.kind) && 0 <= i < |Refs(g[x])| ==>
      Refs(g[x])[i] < |g| && !IsVarKind(g[Refs(g[x])[i]].info.kind)
  }

  /** Kinds whose equal descriptors are always merged; structs and unions are
      compared as graphs instead. */
  predicate IsFlat(k: Kind) { IsPrimKind(k) || IsRefKind(k) }

  /** Two descriptors the deduplicator must not leave both canonical. */
  predicate Duplicates(dontResolveFwds: bool, t1: BtfType, t2: BtfType) {
    t1 == t2 || (!dontResolveFwds && t1.info.kind == Enum && CompatibleEnums(t1, t2))
  }

  /** A table entry: a canonical candidate filed under its own signature hash. */
  ghost predicate EntryOk(g0: Graph, g: Graph, m: IdMap, hash: int, id: nat) {
    && |g0| == |g| == |m|
    && id < |g|
    && Mapped(m, id)
    && Settled(g0, m, id)
    && WellFormed(g[id]) && IsHashed(g[id].info.kind)
    && hash == SigHash(g[id])
  }

  ghost predicate TableSound(g0: Graph, g: Graph, m: IdMap, table: seq<(int, nat)>) {
    forall i :: 0 <= i < |table| ==> EntryOk(g0, g, m, table[i].0, table[i].1)
  }

  /** `x` can be found in the table: it is self-canonical exactly for its own sake. */
  ghost predicate Filed(g: Graph, table: seq<(int, nat)>, x: nat)
    requires x < |g|
  {
    WellFormed(g[x]) && IsHashed(g[x].info.kind) && (SigHash(g[x]), x) in table
  }

  ghost predicate TableComplete(g: Graph, m: IdMap, table: seq<(int, nat)>)
    requires |g| == |m|
  {
    forall x :: 0 <= x < |m| && SelfMapped(m, x) && IsHashed(g[x].info.kind) ==> Filed(g, table, x)
  }

  ghost predicate NoDuplicates(off: bool, g: Graph, m: IdMap)
    requires |g| == |m|
  {
    forall x, y ::
      (0 <= x < |m| && 0 <= y < |m| && x != y && SelfMapped(m, x) && SelfMapped(m, y) && IsFlat(g[x].info.kind))
      ==> !Duplicates(off, g[x], g[y])
  }

  ghost predicate SameShapes(g0: Graph, g: Graph) {
    |g| == |g0| && forall x {:trigger Shape(g[x])} :: 0 <= x < |g| ==> Shape(g[x]) == Shape(g0[x])
  }

  /** What every pass keeps.  `g0` is the graph when the passes begin, `g` the
      graph now. */
  ghost predicate DedupInv(off: bool, g0: Graph, g: Graph, m: IdMap, table: seq<(int, nat)>) {
    && MapInv(g0, m, Unresolved(g0, m))
    && (off ==> Unresolved(g0, m))
    && Closed(g)
    && SameShapes(g0, g)
    && (Unresolved(g0, m) ==> Rewrites(g0, g))
    && (Consistent(g0) ==> Rewords(g0, g))
    && TableSound(g0, g, m, table)
    && TableComplete(g, m, table)
    && NoDuplicates(off, g, m)
  }

  lemma SameInfo(g0: Graph, g: Graph)
    requires SameShapes(g0, g)
    ensures forall x :: 0 <= x < |g| ==> g[x].info == g0[x].info && g[x].name == g0[x].name
  {
    forall x | 0 <= x < |g| ensures g[x].info == g0[x].info && g[x].name == g0[x].name {
      SameShapeSameHeader(g[x], g0[x]);
    }
  }

  /** Writing an entry that maps nothing to itself keeps the whole invariant. */
  lemma LinkKeepsDedup(off: bool, g0: Graph, g: Graph, m: IdMap, m': IdMap, table: seq<(int, nat)>)
    requires DedupInv(off, g0, g, m, table)
    requires MapInv(g0, m', Unresolved(g0, m')) && Refines(g0, m, m')
    requires (Unresolved(g0, m') ==> Unresolved(g0, m)) && (off ==> Unresolved(g0, m'))
    requires forall x :: 0 <= x < |m| && SelfMapped(m', x) ==> SelfMapped(m, x)
    ensures DedupInv(off, g0, g, m', table)
  {
    forall i | 0 <= i < |table| ensures EntryOk(g0, g, m', table[i].0, table[i].1) {
      assert EntryOk(g0, g, m, table[i].0, table[i].1);
    }
  }

  /** No canonical type filed under the hash of `x` duplicates it. */
  ghost predicate NoDuplicateFiled(off: bool, g: Graph, m: IdMap, x: nat)
    requires |g| == |m| && x < |g| && WellFormed(g[x]) && IsHashed(g[x].info.kind)
  {
    forall y ::
      (0 <= y < |g| && SelfMapped(m, y) && WellFormed(g[y]) && IsHashed(g[y].info.kind)
       && SigHash(g[y]) == SigHash(g[x]))
      ==> !Duplicates(off, g[x], g[y])
  }

  lemma DuplicatesSymmetric(off: bool, t1: BtfType, t2: BtfType)
    requires WellFormed(t1) && WellFormed(t2) && IsHashed(t1.info.kind) && Duplicates(off, t1, t2)
    ensures Duplicates(off, t2, t1) && t2.info.kind == t1.info.kind && SigHash(t1) == SigHash(t2)
  {
    if t1 != t2 {
      assert t1.info.(vlen := 0).kind == t2.info.(vlen := 0).kind;
    }
    MatchesShareHash(t1, t2);
  }

  lemma FileKeepsNoDuplicates(off: bool, g: Graph, m: IdMap, x: nat)
    requires Closed(g) && |m| == |g| && NoDuplicates(off, g, m) && x < |g|
    requires IsHashed(g[x].info.kind)
    requires IsFlat(g[x].info.kind) ==> NoDuplicateFiled(off, g, m, x)
    ensures NoDuplicates(off, g, m[x := x])
  {
    var m' := m[x := x];
    forall a, b | 0 <= a < |m'| && 0 <= b < |m'| && a != b && SelfMapped(m', a) && SelfMapped(m', b)
               && IsFlat(g[a].info.kind)
      ensures !Duplicates(off, g[a], g[b])
    {
      assert (a == x || SelfMapped(m, a)) && (b == x || SelfMapped(m, b));
      if Duplicates(off, g[a], g[b]) {
        DuplicatesSymmetric(off, g[a], g[b]);
      }
    }
  }

  lemma FileKeepsTable(g0: Graph, g: Graph, m: IdMap, table: seq<(int, nat)>, x: nat)
    requires Closed(g) && |g0| == |g| == |m| <= BTF_MAX_NR_TYPES + 1 && x < |g|
    requires TableSound(g0, g, m, table) && TableComplete(g, m, table)
    requires Refines(g0, m, m[x := x]) && IsHashed(g[x].info.kind)
    ensures var table' := table + [(SigHash(g[x]), x)];
            TableSound(g0, g, m[x := x], table') && TableComplete(g, m[x := x], table')
  {
    var m', table' := m[x := x], table + [(SigHash(g[x]), x)];
    forall i | 0 <= i < |table'| ensures EntryOk(g0, g, m', table'[i].0, table'[i].1) {
      if i < |table| {
        assert EntryOk(g0, g, m, table[i].0, table[i].1);
      }
    }
    forall y | 0 <= y < |m'| && SelfMapped(m', y) && IsHashed(g[y].info.kind) ensures Filed(g, table', y) {
      if y != x {
        assert SelfMapped(m, y) && Filed(g, table, y);
      } else {
        assert table'[|table|] == (SigHash(g[x]), x);
      }
    }
  }

  /** Making a fresh type canonical and filing it keeps the invariant when no
      candidate under its hash duplicates it. */
  lemma FileKeepsDedup(off: bool, g0: Graph, g: Graph, m: IdMap, table: seq<(int, nat)>, x: nat)
    requires DedupInv(off, g0, g, m, table) && 0 < x < |g| && !Mapped(m, x)
    requires IsHashed(g[x].info.kind)
    requires IsFlat(g[x].info.kind) ==> NoDuplicateFiled(off, g, m, x)
    ensures DedupInv(off, g0, g, m[x := x], table + [(SigHash(g[x]), x)])
    ensures Refines(g0, m, m[x := x])
  {
    AgreeItself(g0, x);
    LinkKeepsCanon(g0, m, x, x);
    FileKeepsTable(g0, g, m, table, x);
    FileKeepsNoDuplicates(off, g, m, x);
  }

  /** The part of the invariant a search among the candidates needs. */
  ghost predicate TableInv(g0: Graph, g: Graph, m: IdMap, table: seq<(int, nat)>) {
    && |g| == |m|
    && TableSound(g0, g, m, table)
    && TableComplete(g, m, table)
  }

  lemma InvTable(off: bool, g0: Graph, g: Graph, m: IdMap, table: seq<(int, nat)>)
    requires DedupInv(off, g0, g, m, table)
    ensures TableInv(g0, g, m, table) && |g0| == |g| == |m|
    ensures forall x :: 0 <= x < |g| ==> WellFormed(g[x])
  {
  }

  lemma InvMap(off: bool, g0: Graph, g: Graph, m: IdMap, table: seq<(int, nat)>)
    requires DedupInv(off, g0, g, m, table)
    ensures Closed(g0) && Closed(g) && Ranked(g0, m) && MapInv(g0, m, Unresolved(g0, m)) && |g| == |g0|
    ensures forall x :: 0 < x < |g| ==> g[x].info.kind != Unkn
  {
  }

  lemma InvShapes(off: bool, g0: Graph, g: Graph, m: IdMap, table: seq<(int, nat)>)
    requires DedupInv(off, g0, g, m, table)
    ensures SameShapes(g0, g) && |g| == |m| == |g0| && forall x :: 0 <= x < |g| ==> g[x].info == g0[x].info
  {
    SameInfo(g0, g);
  }

  lemma EntryOfCandidate(g0: Graph, g: Graph, m: IdMap, table: seq<(int, nat)>, h: int, id: nat)
    requires TableSound(g0, g, m, table) && (h, id) in table
    ensures EntryOk(g0, g, m, h, id)
  {
  }

  ghost predicate NoneEqual(g: Graph, id: nat, cands: seq<nat>)
    requires id < |g|
  {
    forall c :: c in cands ==> c < |g| && g[c] != g[id]
  }

  /** A search that met no equal descriptor has met no duplicate. */
  lemma NoneEqualNoDuplicate(off: bool, g0: Graph, g: Graph, m: IdMap, table: seq<(int, nat)>, id: nat,
                             cands: seq<nat>)
    requires TableInv(g0, g, m, table) && id < |g| && WellFormed(g[id])
    requires IsHashed(g[id].info.kind) && (g[id].info.kind == Enum ==> off)
    requires forall c :: c in cands <==> (SigHash(g[id]), c) in table
    requires NoneEqual(g, id, cands)
    ensures NoDuplicateFiled(off, g, m, id)
  {
    forall y | 0 <= y < |g| && SelfMapped(m, y) && WellFormed(g[y]) && IsHashed(g[y].info.kind)
            && SigHash(g[y]) == SigHash(g[id])
      ensures !Duplicates(off, g[id], g[y])
    {
      assert Filed(g, table, y);
      assert y in cands;
    }
  }

  lemma InvOfItself(g: Graph, m: IdMap)
    requires Closed(g) && |m| == |g|
    ensures 0 < |g| <= BTF_MAX_NR_TYPES + 1 && g[0] == VOID && forall x :: 0 <= x < |g| ==> Alike(g, x, x)
  {
  }

  /** The map as allocated: only void, variables and data sections are mapped. */
  lemma InitialInv(off: bool, g: Graph, m: IdMap)
    requires Closed(g) && |m| == |g|
    requires forall x :: 0 <= x < |g| ==> m[x] == if IsHashed(g[x].info.kind) then UNPROCESSED else x
    ensures DedupInv(off, g, g, m, [])
  {
    hide Consistent, Rewords, Rewrites, Agree, Alike, Closed;
    InvOfItself(g, m);
    RewritesRefl(g);
    RewordsItself(g);
    forall x | 0 <= x < |m| && Mapped(m, x) ensures LinkOk(g, m, x) && m[x] == x && Agree(g, x, x) {
      AgreeItself(g, x);
    }
  }

  /** A search that resolved every compatible forward and met no compatible enum
      otherwise has met no duplicate that is still canonical. */
  lemma NoneCompatibleNoDuplicate(off: bool, g0: Graph, g: Graph, m: IdMap, table: seq<(int, nat)>, id: nat,
                                  cands: seq<nat>)
    requires TableInv(g0, g, m, table) && id < |g| && WellFormed(g[id]) && g[id].info.kind == Enum
    requires forall c :: c in cands <==> (SigHash(g[id]), c) in table
    requires FirstPassed(off, g, m, id, cands, |cands|)
    ensures NoDuplicateFiled(off, g, m, id)
  {
    forall y | 0 <= y < |g| && SelfMapped(m, y) && WellFormed(g[y]) && IsHashed(g[y].info.kind)
            && SigHash(g[y]) == SigHash(g[id])
      ensures !Duplicates(off, g[id], g[y])
    {
      assert Filed(g, table, y);
      var j :| 0 <= j < |cands| && cands[j] == y;
      assert Passed(off, g, m, id, cands[j]);
    }
  }

  /** What the enum search leaves behind at a candidate it did not stop at. */
  ghost predicate Passed(off: bool, g: Graph, m: IdMap, id: nat, c: nat)
    requires |m| == |g| && id < |g| && c < |g|
  {
    g[c] != g[id] && (off || !CompatibleEnums(g[id], g[c]) || m[c] != c)
  }

  ghost predicate FirstPassed(off: bool, g: Graph, m: IdMap, id: nat, cands: seq<nat>, i: nat)
    requires |m| == |g| && id < |g| && i <= |cands|
  {
    forall j :: 0 <= j < i ==> cands[j] < |g| && Passed(off, g, m, id, cands[j])
  }

  lemma FirstPassedNext(off: bool, g: Graph, m: IdMap, m': IdMap, id: nat, cands: seq<nat>, i: nat)
    requires |m| == |m'| == |g| && id < |g| && i < |cands|
    requires FirstPassed(off, g, m, id, cands, i)
    requires m' == m || (cands[i] < |m| && cands[i] != id && m' == m[cands[i] := id])
    requires cands[i] < |g| && Passed(off, g, m', id, cands[i])
    ensures FirstPassed(off, g, m', id, cands, i + 1)
  {
    forall j | 0 <= j < i + 1 ensures cands[j] < |g| && Passed(off, g, m', id, cands[j]) {
      assert j < i ==> Passed(off, g, m, id, cands[j]);
    }
  }

  /** A representative other than the type itself: a settled candidate with the same
      descriptor or, for an enum forward, a full enum it can be resolved to. */
  ghost predicate Represents(off: bool, g0: Graph, g: Graph, m: IdMap, id: nat, newId: nat)
    requires |g0| == |g| == |m| && id < |g|
  {
    && newId < |g| && Mapped(m, newId) && Settled(g0, m, newId)
    && (g[newId] == g[id]
        || (!off && g[id].info.kind == Enum && CompatibleEnums(g[id], g[newId])
            && IsFwdLike(g[id]) && !IsFwdLike(g[newId])))
  }

  lemma RepresentativeMapped(off: bool, g0: Graph, g: Graph, m: IdMap, id: nat, newId: nat)
    requires |g0| == |g| == |m| && id < |g| && Represents(off, g0, g, m, id, newId)
    ensures newId < |m| && Mapped(m, newId)
  {
  }

  /** Mapping `id` to `newId` resolves nothing it may not, and changes no meaning
      without resolving. */
  ghost predicate KeepsPromise(off: bool, g: Graph, m: IdMap, id: nat, newId: nat)
    requires Closed(g) && |m| == |g| && id < |g| && newId < |g|
  {
    && (off ==> !(IsFwdLike(g[id]) && !IsFwdLike(g[newId])))
    && (Unresolved(g, m[id := newId]) ==> Alike(g, id, newId))
    && (Consistent(g) ==> Agree(g, id, newId))
  }

  lemma RepresentativeCanLink(off: bool, g0: Graph, g: Graph, m: IdMap, id: nat, newId: nat)
    requires MapInv(g0, m, Unresolved(g0, m)) && Closed(g) && SameShapes(g0, g)
    requires Unresolved(g0, m) ==> Rewrites(g0, g)
    requires Consistent(g0) ==> Rewords(g0, g)
    requires id < |g| && !Mapped(m, id) && Represents(off, g0, g, m, id, newId)
    ensures CanLink(g0, m, id, newId) && KeepsPromise(off, g0, m, id, newId)
  {
    SameShapeSameHeader(g[id], g0[id]);
    SameShapeSameHeader(g[newId], g0[newId]);
    hide Consistent, Rewords, Rewrites, Alike, Agree, MapInv;
    InvParts(g0, m, Unresolved(g0, m));
    if g[id] != g[newId] {
      assert g[id].info.(vlen := 0).kind == g[newId].info.(vlen := 0).kind;
      ForwardAgrees(g0, id, newId);
    } else {
      if Unresolved(g0, m) {
        RewrittenEqualAlike(g0, g, id, newId);
      }
      if Consistent(g0) {
        RewordedEqualAgree(g0, g, id, newId);
      }
    }
    LinkResolves(g0, m, id, newId);
  }

  /** The same, from the whole invariant. */
  lemma RepresentativeFits(off: bool, g0: Graph, g: Graph, m: IdMap, table: seq<(int, nat)>, id: nat, newId: nat)
    requires DedupInv(off, g0, g, m, table) && |g| == |m| == |g0|
    requires id < |g| && !Mapped(m, id) && Represents(off, g0, g, m, id, newId)
    ensures Closed(g0) && newId < |g| && CanLink(g0, m, id, newId) && KeepsPromise(off, g0, m, id, newId)
  {
    hide TableSound, TableComplete, NoDuplicates, KeepsPromise, CanLink, Consistent, Rewords, Rewrites;
    RepresentativeCanLink(off, g0, g, m, id, newId);
  }

  /** Linking `id` to another representative keeps the invariant. */
  lemma CommitKeepsDedup(off: bool, g0: Graph, g: Graph, m: IdMap, table: seq<(int, nat)>, id: nat, newId: nat)
    requires DedupInv(off, g0, g, m, table) && |g| == |m| == |g0| && Closed(g0)
    requires 0 < id < |g0| && newId < |g0| && newId != id
    requires CanLink(g0, m, id, newId) && KeepsPromise(off, g0, m, id, newId)
    ensures DedupInv(off, g0, g, m[id := newId], table) && Refines(g0, m, m[id := newId])
  {
    hide TableSound, TableComplete, NoDuplicates, Consistent, Rewords, Rewrites, Alike, Agree;
    LinkKeepsCanon(g0, m, id, newId);
    LinkKeepsDedup(off, g0, g, m, m[id := newId], table);
  }

  /** Merging a successful comparison of a struct keeps the invariant, and its other side may
      represent the struct. */
  lemma AcceptKeepsDedup(off: bool, g: Graph, m: IdMap, table: seq<(int, nat)>, h: IdMap, list: seq<nat>,
                         id: nat, cand: nat)
    requires DedupInv(off, g, g, m, table) && |m| == |g| && HypotOk(h, list, |g|) && AllChecked(g, m, h, off)
    requires forall x :: 0 <= x < |g| && IsPrimKind(g[x].info.kind) ==> Mapped(m, x)
    requires id < |g| && cand < |g| && Justified(g, m, h, id, cand) && IsComposite(g[id].info.kind)
    requires Shape(g[id]) == Shape(g[cand]) && !Mapped(m, id) && Settled(g, m, cand)
    ensures MapInv(g, m, false) && PairsOk(g, false, list, h)
    ensures var m' := MergeAll(g, m, list, h);
            && DedupInv(off, g, g, m', table) && Refines(g, m, m') && MergeFrame(g, m, m')
            && cand != id && CanLink(g, m', id, cand) && KeepsPromise(off, g, m', id, cand)
  {
    hide TableSound, TableComplete, NoDuplicates, AllChecked, Justified, Consistent, Agree, Alike, KeepsMeaning;
    hide KeepsAgreement, SameFamilies, Rewords, Rewrites, PairsOk;
    SameShapeSameHeader(g[id], g[cand]);
    MergeSound(off, g, m, h, list, id, cand);
    var m' := MergeAll(g, m, list, h);
    LinkKeepsDedup(off, g, g, m, m', table);
    StructCanLink(g, m, m', id, cand);
    LinkResolves(g, m', id, cand);
  }

  /** Ids not mapped yet keep their entries, except `id`. */
  ghost predicate OnlyMaps(m: IdMap, m': IdMap, id: nat) {
    |m| == |m'| && forall y :: 0 <= y < |m| && y != id && !Mapped(m, y) ==> m'[y] == m[y]
  }

  /** Types the constructor leaves for the passes. */
  ghost predicate Unprocessed(g: Graph, m: IdMap) {
    |m| == |g| && forall x :: 0 <= x < |g| ==> m[x] == if IsHashed(g[x].info.kind) then UNPROCESSED else x
  }

  /** After the primitive pass: primitives are mapped, the rest is as it was. */
  ghost predicate PrimsDone(g: Graph, m: IdMap, upTo: nat) {
    && |m| == |g|
    && (forall x :: 0 <= x < |g| && x < upTo && IsPrimKind(g[x].info.kind) ==> Mapped(m, x))
    && (forall x :: 0 <= x < |g| && (x >= upTo || !IsPrimKind(g[x].info.kind)) ==>
          m[x] == if IsHashed(g[x].info.kind) then UNPROCESSED else x)
  }

  lemma PrimsDoneNext(g: Graph, m: IdMap, m': IdMap, i: nat)
    requires i < |g| <= BTF_MAX_NR_TYPES + 1 && PrimsDone(g, m, i) && OnlyMaps(m, m', i)
    requires Refines(g, m, m')
    requires if IsPrimKind(g[i].info.kind) then Mapped(m', i) else m'[i] == m[i]
    ensures PrimsDone(g, m', i + 1)
  {
    forall x | 0 <= x < |g| && (x >= i + 1 || !IsPrimKind(g[x].info.kind))
      ensures m'[x] == if IsHashed(g[x].info.kind) then UNPROCESSED else x
    {
      if !IsHashed(g[x].info.kind) {
        assert Settled(g, m, x);
      } else {
        assert !Mapped(m, x);
      }
    }
  }

  /** Only entries of enums have changed, to enums they may stand for. */
  ghost predicate EnumsOnly(g: Graph, m: IdMap, m': IdMap) {
    |m| == |m'| == |g| &&
    forall x :: 0 <= x < |g| && m'[x] != m[x] ==> m'[x] < |g| && SameEnumHead(g[x], g[m'[x]])
  }

  /** Deduplicating a primitive changes its own entry, and else entries of enums only; an
      integer or a FWD goes to itself or to a mapped one with the same descriptor, an enum to
      one with the same header but for the number of values. */
  ghost predicate ExactStep(g: Graph, m: IdMap, m': IdMap, id: nat) {
    && |m| == |m'| == |g| && id < |g|
    && (forall x :: 0 <= x < |g| && (x != id || g[x].info.kind == Enum) && m'[x] != m[x] ==>
          m'[x] < |g| && SameEnumHead(g[x], g[m'[x]]))
    && (g[id].info.kind == Int || g[id].info.kind == Fwd ==>
          m'[id] == id || (m'[id] < |g| && g[m'[id]] == g[id] && Mapped(m, m'[id])))
  }

  lemma NothingDone(g0: Graph, g: Graph, m: IdMap, id: nat)
    requires |g0| == |g| == |m| && id < |g| && !IsPrimKind(g[id].info.kind)
    ensures Refines(g0, m, m) && ExactStep(g, m, m, id)
  {
  }

  lemma ExactStepOf(g: Graph, m: IdMap, m1: IdMap, id: nat, newId: nat)
    requires EnumsOnly(g, m, m1) && OnlyMaps(m, m1, |m|) && id < |g| <= BTF_MAX_NR_TYPES + 1 && !Mapped(m, id)
    requires newId != id ==> newId < |g| && Mapped(m1, newId)
    requires newId != id && g[id].info.kind == Enum ==> SameEnumHead(g[id], g[newId])
    requires newId != id && g[id].info.kind != Enum ==> g[newId] == g[id]
    ensures ExactStep(g, m, m1[id := newId], id) && OnlyMaps(m, m1[id := newId], id)
  {
  }

  /** Integers and FWDs are mapped to the first with their descriptor, enums to one of their
      header. */
  ghost predicate PrimsExact(g: Graph, m: IdMap) {
    && |m| == |g|
    && (forall x :: 0 <= x < |g| && (g[x].info.kind == Int || g[x].info.kind == Fwd) && Mapped(m, x) ==>
          m[x] <= x && g[m[x]] == g[x])
    && (forall x :: 0 <= x < |g| && g[x].info.kind == Enum && Mapped(m, x) ==>
          m[x] < |g| && SameEnumHead(g[x], g[m[x]]))
  }

  lemma PrimsNotYet(g: Graph, m: IdMap)
    requires Closed(g) && |m| == |g| && Unprocessed(g, m)
    ensures PrimsDone(g, m, 1) && PrimsExact(g, m)
  {
  }

  lemma PrimWaits(g: Graph, m: IdMap, i: nat)
    requires i < |g| && PrimsDone(g, m, i) && IsPrimKind(g[i].info.kind)
    ensures !Mapped(m, i)
  {
  }

  lemma PrimsExactNext(g0: Graph, g: Graph, m: IdMap, m': IdMap, i: nat)
    requires |g0| == |g| <= BTF_MAX_NR_TYPES + 1 && forall x :: 0 <= x < |g| ==> g[x].info == g0[x].info
    requires i < |g| && PrimsDone(g0, m, i) && PrimsExact(g, m) && ExactStep(g, m, m', i)
    ensures PrimsExact(g, m')
  {
    var y := m'[i];
    if y > i && y < |g| && Mapped(m, y) {
      assert g[y].info == g0[y].info;
    }
  }

  lemma PrimsNext(g: Graph, m: IdMap, m': IdMap, i: nat)
    requires i < |g| <= BTF_MAX_NR_TYPES + 1 && PrimsDone(g, m, i) && PrimsExact(g, m)
    requires OnlyMaps(m, m', i) && Refines(g, m, m') && ExactStep(g, m, m', i)
    requires if IsPrimKind(g[i].info.kind) then Mapped(m', i) else m'[i] == m[i]
    ensures PrimsDone(g, m', i + 1) && PrimsExact(g, m')
  {
    hide *;
    PrimsExactNext(g, g, m, m', i);
    PrimsDoneNext(g, m, m', i);
  }

  /** During and after the struct pass: structs and unions below `upTo` are mapped,
      reference types still wait. */
  ghost predicate StructsDone(g: Graph, m: IdMap, upTo: nat) {
    && |m| == |g|
    && (forall x :: 0 <= x < |g| && IsPrimKind(g[x].info.kind) ==> Mapped(m, x))
    && (forall x :: 0 <= x < |g| && x < upTo && IsComposite(g[x].info.kind) ==> Mapped(m, x))
    && (forall x :: 0 <= x < |g| && !IsHashed(g[x].info.kind) ==> SelfMapped(m, x))
    && (forall x :: 0 <= x < |g| && IsRefKind(g[x].info.kind) ==> m[x] == UNPROCESSED)
  }

  /** What deduplicating one struct may change: forwards, structs and unions. */
  ghost predicate StructFrame(g: Graph, m: IdMap, m': IdMap) {
    && |m| == |g| == |m'|
    && (forall x :: 0 <= x < |g| && m'[x] != m[x] ==> g[x].info.kind == Fwd || IsComposite(g[x].info.kind))
  }

  lemma StructsDoneNext(g: Graph, m: IdMap, m': IdMap, i: nat)
    requires StructsDone(g, m, i) && Refines(g, m, m') && StructFrame(g, m, m') && i < |g|
    requires IsComposite(g[i].info.kind) ==> Mapped(m', i)
    ensures StructsDone(g, m', i + 1)
  {
    forall x | 0 <= x < |g| && !IsHashed(g[x].info.kind) ensures SelfMapped(m', x) {
      assert SelfMapped(m, x);
    }
  }

  /** Enums are complete before structs are compared, so while nothing is resolved no
      enum forward can have been recorded against a full enum. */
  lemma EnumsUnmixed(off: bool, g: Graph, m: IdMap, h: IdMap, c: nat)
    requires MapInv(g, m, true) && NoDuplicates(off, g, m) && |h| == |g| && AllChecked(g, m, h, off)
    requires forall x :: 0 <= x < |g| && IsPrimKind(g[x].info.kind) ==> Mapped(m, x)
    requires Unresolved(g, m) && c < |g| && h[c] != UNPROCESSED && g[c].info.kind == Enum
    ensures h[c] < |g| && !Mixed(g, h[c], c)
  {
    assert Checked(g, m, h, off, c);
    var a := h[c];
    if Mixed(g, a, c) {
      RootKeeps(g, m, true, a);
      RootKeeps(g, m, true, c);
      EnumRoot(g, m, a);
      EnumRoot(g, m, c);
    }
  }

  lemma EnumRoot(g: Graph, m: IdMap, x: nat)
    requires MapInv(g, m, true) && x < |g| && g[x].info.kind == Enum
    requires forall y :: 0 <= y < |g| && IsPrimKind(g[y].info.kind) ==> Mapped(m, y)
    ensures Root(m, x) < |g| && g[Root(m, x)] == g[x] && SelfMapped(m, Root(m, x))
  {
    var r := Root(m, x);
    RootKeeps(g, m, true, x);
    AlikeSameShape(g, x, r);
    assert WellFormed(g[x]) && WellFormed(g[r]);
    assert Refs(g[x]) == [] && Refs(g[r]) == [];
    ShapeAndRefsDetermine(g[x], g[r]);
  }

  /** Merging a successful comparison of `id` with `cand`: whatever is not resolved by it
      keeps its meaning, and then the two do mean the same. */
  lemma MergeSound(off: bool, g: Graph, m: IdMap, h: IdMap, list: seq<nat>, id: nat, cand: nat)
    requires MapInv(g, m, Unresolved(g, m)) && NoDuplicates(off, g, m) && (off ==> Unresolved(g, m))
    requires HypotOk(h, list, |g|) && AllChecked(g, m, h, off)
    requires forall x :: 0 <= x < |g| && IsPrimKind(g[x].info.kind) ==> Mapped(m, x)
    requires id < |g| && cand < |g| && Justified(g, m, h, id, cand)
    ensures PairsOk(g, false, list, h)
    ensures var m' := MergeAll(g, m, list, h);
            && MapInv(g, m', Unresolved(g, m'))
            && (Unresolved(g, m') ==> Unresolved(g, m) && Alike(g, id, cand))
            && (off ==> Unresolved(g, m'))
    ensures Consistent(g) ==> Agree(g, id, cand)
  {
    ComparedPairsOk(g, m, h, list, off);
    if Consistent(g) {
      ComparisonAgrees(g, m, Unresolved(g, m), h, off, id, cand);
    }
    MergeAllResolves(g, m, list, h);
    if Unresolved(g, MergeAll(g, m, list, h)) {
      forall c | 0 <= c < |h| && h[c] != UNPROCESSED ensures h[c] < |g| && !Mixed(g, h[c], c) {
        assert Checked(g, m, h, off, c);
        if g[c].info.kind == Enum {
          EnumsUnmixed(off, g, m, h, c);
        } else {
          var i :| 0 <= i < |list| && list[i] == c;
        }
      }
      ComparisonSound(g, m, h, off, id, cand);
      MergeAllKeepsMeaning(g, m, list, h);
    }
  }

  lemma StructCanLink(g: Graph, m: IdMap, m': IdMap, id: nat, newId: nat)
    requires MergeFrame(g, m, m') && |g| <= BTF_MAX_NR_TYPES + 1 && id < |g| && newId < |g|
    requires IsComposite(g[id].info.kind) && Shape(g[newId]) == Shape(g[id])
    requires !Mapped(m, id) && Settled(g, m', newId)
    ensures CanLink(g, m', id, newId)
  {
    SameShapeSameHeader(g[id], g[newId]);
    assert !SelfMapped(m, id);
    assert !SelfMapped(m', id);
  }

  lemma StructFrameOf(g: Graph, m: IdMap, m1: IdMap, id: nat, newId: nat)
    requires MergeFrame(g, m, m1) && id < |g| && IsComposite(g[id].info.kind)
    ensures StructFrame(g, m, m1[id := newId])
  {
  }

  lemma VoidNoStruct(g: Graph, m: IdMap)
    requires Closed(g) && |m| == |g| && StructsDone(g, m, 0)
    ensures StructsDone(g, m, 1)
  {
  }

  lemma UntouchedIs(g: Graph, m: IdMap)
    requires |m| == |g|
    ensures Refines(g, m, m) && StructFrame(g, m, m)
  {
  }

  lemma PrimsThenStructs(g: Graph, m: IdMap)
    requires PrimsDone(g, m, |g|)
    ensures StructsDone(g, m, 0)
  {
  }
}
