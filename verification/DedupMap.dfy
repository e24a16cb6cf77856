/** The canonical map of BTF deduplication and the hypothetical map of one graph
    comparison, as values: why resolving ends, what a successful comparison
    proves, and what merging its result into the canonical map keeps. */
module DedupMap {
  import opened BtfTypes
  import opened BtfCompare
  import opened BtfGraph
  import opened BtfAgree

  type IdMap = seq<nat>

  const UNPROCESSED: nat := 0xffff_ffff
  const IN_PROGRESS: nat := 0xffff_fffe

  predicate Mapped(m: IdMap, x: nat)
    requires x < |m|
  {
    m[x] <= BTF_MAX_NR_TYPES
  }

  predicate SelfMapped(m: IdMap, x: nat)
    requires x < |m|
  {
    m[x] == x
  }

  // ---------------------------------------------------------------------------
  // Shape of the canonical map

  /** A forward that nothing further down the map is a forward for. */
  predicate Head(g: Graph, m: IdMap, y: nat)
    requires |m| == |g| && y < |g|
  {
    m[y] == y || (m[y] < |g| && !IsFwdLike(g[m[y]]))
  }

  /** Where a mapped id may point: a non-forward at a self-canonical non-forward,
      a forward at any non-forward or at the head of its forwards. */
  predicate LinkOk(g: Graph, m: IdMap, x: nat)
    requires |m| == |g| && x < |g|
  {
    m[x] < |g| &&
    var y := m[x];
    y == x ||
    if IsFwdLike(g[x]) then !IsFwdLike(g[y]) || Head(g, m, y)
    else !IsFwdLike(g[y]) && m[y] == y
  }

  predicate Ranked(g: Graph, m: IdMap) {
    && |m| == |g| <= BTF_MAX_NR_TYPES + 1
    && (forall x {:trigger LinkOk(g, m, x)} {:trigger Mapped(m, x)} :: 0 <= x < |m| && Mapped(m, x) ==> LinkOk(g, m, x))
  }

  /** Steps left until a root: at most three. */
  function Level(g: Graph, m: IdMap, x: nat): nat
    requires |m| == |g| && x < |g|
  {
    if !(m[x] < |g|) || m[x] == x then 0
    else if !IsFwdLike(g[x]) then 1
    else if !IsFwdLike(g[m[x]]) then 2
    else 3
  }

  /** One step along the map; stays put at a root. */
  function Step(m: IdMap, x: nat): nat {
    if x < |m| && m[x] < |m| then m[x] else x
  }

  /** Three steps along the map, which by `Level` is as far as it goes: the
      self-canonical or not yet mapped id that `x` resolves to. */
  function Root(m: IdMap, x: nat): nat {
    Step(m, Step(m, Step(m, x)))
  }

  /** `Root` ends the chain, and following one entry does not change where it ends. */
  lemma RootSpec(g: Graph, m: IdMap, x: nat)
    requires Ranked(g, m) && x < |g|
    ensures Root(m, x) < |g|
    ensures Mapped(m, Root(m, x)) ==> SelfMapped(m, Root(m, x))
    ensures Root(m, Step(m, x)) == Root(m, x)
    ensures !Mapped(m, x) || SelfMapped(m, x) ==> Root(m, x) == x
  {
    var y := Step(m, x);
    var z := Step(m, y);
    assert Mapped(m, x) ==> LinkOk(g, m, x);
    assert Mapped(m, y) ==> LinkOk(g, m, y);
    assert Mapped(m, z) ==> LinkOk(g, m, z);
    assert Mapped(m, Root(m, x)) ==> LinkOk(g, m, Root(m, x));
  }

  ghost predicate SameFamilies(g: Graph, m: IdMap)
    requires Ranked(g, m)
  {
    forall x {:trigger Mapped(m, x)} :: 0 <= x < |m| && Mapped(m, x) ==>
      LinkOk(g, m, x) && FamilyOf(g[m[x]]) == FamilyOf(g[x])
  }

  ghost predicate KeepsMeaning(g: Graph, m: IdMap)
    requires Closed(g) && Ranked(g, m)
  {
    forall x {:trigger Mapped(m, x)} :: 0 <= x < |m| && Mapped(m, x) ==> LinkOk(g, m, x) && Alike(g, x, m[x])
  }

  ghost predicate KeepsAgreement(g: Graph, m: IdMap)
    requires Closed(g) && Ranked(g, m)
  {
    forall x {:trigger Mapped(m, x)} :: 0 <= x < |m| && Mapped(m, x) ==> LinkOk(g, m, x) && Agree(g, x, m[x])
  }

  /** A map entry that points a forward at a definition. */
  predicate Resolves(g: Graph, m: IdMap, x: nat)
    requires |m| == |g| && x < |g|
  {
    m[x] < |g| && IsFwdLike(g[x]) && !IsFwdLike(g[m[x]])
  }

  /** No forward has been resolved to a definition. */
  ghost predicate Unresolved(g: Graph, m: IdMap) {
    |m| == |g| && forall x :: 0 <= x < |g| ==> !Resolves(g, m, x)
  }

  /** What every pass keeps of the canonical map.  The passes keep it with
      `exact == Unresolved(g, m)`: types change their meaning only by resolution.  Where
      forwards have one meaning each, types agree with their representatives up to
      forwards whatever has been resolved. */
  ghost predicate MapInv(g: Graph, m: IdMap, exact: bool) {
    && Closed(g)
    && Ranked(g, m)
    && m[0] == 0
    && SameFamilies(g, m)
    && (exact ==> KeepsMeaning(g, m))
    && (Consistent(g) ==> KeepsAgreement(g, m))
  }

  lemma StepKeeps(g: Graph, m: IdMap, exact: bool, x: nat)
    requires MapInv(g, m, exact) && x < |g|
    ensures Step(m, x) < |g| && FamilyOf(g[Step(m, x)]) == FamilyOf(g[x])
    ensures exact ==> Alike(g, x, Step(m, x))
    ensures Consistent(g) ==> Agree(g, x, Step(m, x))
  {
    hide Consistent, Agree, Alike;
    if Mapped(m, x) {
      assert LinkOk(g, m, x);
    } else {
      AgreeItself(g, x);
      AlikeItself(g, x);
    }
  }

  /** Following the map keeps the family and, while `exact`, the meaning; it ends at a
      self-canonical id once everything is mapped. */
  lemma RootKeeps(g: Graph, m: IdMap, exact: bool, x: nat)
    requires MapInv(g, m, exact) && x < |g|
    ensures Root(m, x) < |g| && FamilyOf(g[Root(m, x)]) == FamilyOf(g[x])
    ensures exact ==> Alike(g, x, Root(m, x))
    ensures Consistent(g) ==> Agree(g, x, Root(m, x))
    ensures Mapped(m, Root(m, x)) ==> SelfMapped(m, Root(m, x))
  {
    hide Consistent, Agree, Alike;
    var y := Step(m, x);
    var z := Step(m, y);
    StepKeeps(g, m, exact, x);
    StepKeeps(g, m, exact, y);
    StepKeeps(g, m, exact, z);
    RootSpec(g, m, x);
    if exact {
      AlikeTransitive(g, x, y, z);
      AlikeTransitive(g, x, z, Root(m, x));
    }
    if Consistent(g) {
      AgreeTransitive(g, x, y, z);
      AgreeTransitive(g, x, z, Root(m, x));
    }
  }

  // ---------------------------------------------------------------------------
  // Changing one entry of the map

  /** Entries whose target can be relied on later: heads among forwards,
      self-canonical ids among the rest.  Every dedup-table entry is one. */
  predicate Settled(g: Graph, m: IdMap, y: nat)
    requires |m| == |g| && y < |g|
  {
    if IsFwdLike(g[y]) then Head(g, m, y) else m[y] == y
  }

  /** Later maps: nothing mapped is unmapped, settled entries stay settled. */
  ghost predicate Refines(g: Graph, m: IdMap, m': IdMap) {
    && |m| == |g| == |m'|
    && (forall x :: 0 <= x < |g| && Mapped(m, x) ==> Mapped(m', x))
    && (forall x :: 0 <= x < |g| && Settled(g, m, x) ==> Settled(g, m', x))
  }

  /** The two ways an entry is written: a root or a fresh id is mapped to itself or
      to a settled id, or a head forward is pointed at a non-forward. */
  ghost predicate CanLink(g: Graph, m: IdMap, x: nat, y: nat)
    requires |m| == |g| && x < |g| && y < |g|
  {
    && FamilyOf(g[x]) == FamilyOf(g[y])
    && (if IsFwdLike(g[x])
        then (!IsFwdLike(g[y]) && (Mapped(m, x) ==> Head(g, m, x))) || (!Mapped(m, x) && Settled(g, m, y))
          || (!Mapped(m, x) && x == y)
        else m[x] != x && (x == y || (!IsFwdLike(g[y]) && m[y] == y)))
  }

  lemma LinkKeepsInv(g: Graph, m: IdMap, exact: bool, x: nat, y: nat)
    requires MapInv(g, m, exact) && 0 < x < |g| && y < |g|
    requires CanLink(g, m, x, y)
    requires exact ==> Alike(g, x, y)
    requires Consistent(g) && !IsFwdLike(g[x]) ==> Agree(g, x, y)
    ensures MapInv(g, m[x := y], exact) && Refines(g, m, m[x := y])
  {
    hide Consistent, Agree, Alike;
    var m' := m[x := y];
    if IsFwdLike(g[x]) {
      ForwardAgrees(g, x, y);
    }
    forall z | 0 <= z < |m'| && Mapped(m', z) ensures LinkOk(g, m', z) {
      if z != x {
        assert Mapped(m, z) && LinkOk(g, m, z);
      }
    }
    assert Ranked(g, m');
    forall z | 0 <= z < |m'| && Mapped(m', z)
      ensures FamilyOf(g[m'[z]]) == FamilyOf(g[z]) && (exact ==> Alike(g, z, m'[z]))
      ensures Consistent(g) ==> Agree(g, z, m'[z])
    {
      if z != x {
        assert Mapped(m, z) && LinkOk(g, m, z);
      }
    }
  }

  /** Writing one entry keeps the canonical map's invariant at its own exactness, and
      never takes a resolution back. */
  lemma LinkKeepsCanon(g: Graph, m: IdMap, x: nat, y: nat)
    requires MapInv(g, m, Unresolved(g, m)) && 0 < x < |g| && y < |g|
    requires CanLink(g, m, x, y)
    requires Unresolved(g, m[x := y]) ==> Alike(g, x, y)
    requires Consistent(g) && !IsFwdLike(g[x]) ==> Agree(g, x, y)
    ensures var m' := m[x := y];
            && MapInv(g, m', Unresolved(g, m')) && Refines(g, m, m')
            && (Unresolved(g, m') <==> Unresolved(g, m) && !Resolves(g, m', x))
  {
    var m' := m[x := y];
    LinkResolves(g, m, x, y);
    if Unresolved(g, m') {
      LinkKeepsInv(g, m, true, x, y);
    } else {
      LinkKeepsInv(g, m, false, x, y);
    }
  }

  lemma LinkResolves(g: Graph, m: IdMap, x: nat, y: nat)
    requires |m| == |g| <= BTF_MAX_NR_TYPES + 1 && x < |g| && y < |g| && CanLink(g, m, x, y)
    ensures Unresolved(g, m[x := y]) <==> Unresolved(g, m) && !Resolves(g, m[x := y], x)
  {
    var m' := m[x := y];
    assert forall z :: 0 <= z < |g| && z != x ==> (Resolves(g, m', z) <==> Resolves(g, m, z));
    assert Resolves(g, m, x) ==> Mapped(m, x) && Resolves(g, m', x);
  }

  /** Resolving a forward always changes what it means. */
  lemma ResolvingChangesMeaning(g: Graph, m: IdMap, x: nat)
    requires Closed(g) && Ranked(g, m) && x < |g| && Resolves(g, m, x)
    ensures !Alike(g, x, m[x]) && !KeepsMeaning(g, m)
  {
    if Alike(g, x, m[x]) {
      AlikeSameShape(g, x, m[x]);
    }
    assert Mapped(m, x);
  }

  /** Without resolutions, forwards resolve to forwards. */
  lemma UnresolvedRoot(g: Graph, m: IdMap, exact: bool, x: nat)
    requires MapInv(g, m, exact) && x < |g|
    ensures Root(m, x) < |g|
    ensures !IsFwdLike(g[x]) ==> !IsFwdLike(g[Root(m, x)])
    ensures Unresolved(g, m) ==> (IsFwdLike(g[Root(m, x)]) <==> IsFwdLike(g[x]))
    ensures Unresolved(g, m) ==> (g[Root(m, x)].info.kind == Fwd <==> g[x].info.kind == Fwd)
  {
    var y := Step(m, x);
    var z := Step(m, y);
    RootKeeps(g, m, exact, x);
    StepFwd(g, m, x);
    StepFwd(g, m, y);
    StepFwd(g, m, z);
  }

  lemma StepFwd(g: Graph, m: IdMap, x: nat)
    requires Ranked(g, m) && x < |g|
    ensures Step(m, x) < |g|
    ensures !IsFwdLike(g[x]) ==> !IsFwdLike(g[Step(m, x)])
    ensures Unresolved(g, m) ==> (IsFwdLike(g[Step(m, x)]) <==> IsFwdLike(g[x]))
  {
    assert Mapped(m, x) ==> LinkOk(g, m, x);
    assert Unresolved(g, m) ==> !Resolves(g, m, x);
  }

  // ---------------------------------------------------------------------------
  // The hypothetical map of a comparison

  /** The id a canonical-side FWD stands for once it is resolved to a definition. */
  function FwdId(g: Graph, m: IdMap, c: nat): (r: nat)
    requires Ranked(g, m) && c < |g|
    ensures r < |g|
  {
    if g[c].info.kind != Fwd then c
    else
      RootSpec(g, m, c);
      var r := Root(m, c);
      if g[r].info.kind != Fwd then r else c
  }

  predicate IdenticalArrays(g: Graph, x: nat, y: nat)
    requires x < |g| && y < |g|
  {
    g[x].info.kind == Array && g[y].info.kind == Array && g[x] == g[y]
  }

  ghost predicate HypotOk(h: IdMap, list: seq<nat>, n: nat) {
    && |h| == n <= BTF_MAX_NR_TYPES + 1
    && (forall i :: 0 <= i < |list| ==> list[i] < n)
    && (forall c :: 0 <= c < n ==> h[c] == UNPROCESSED || (h[c] < n && c in list))
    && (forall c :: c in list ==> h[c] < n)
  }

  /** Why a pair was accepted: one canonical type already, or a recorded hypothesis. */
  predicate Justified(g: Graph, m: IdMap, h: IdMap, a: nat, c: nat)
    requires Ranked(g, m) && |h| == |g| && a < |g| && c < |g|
  {
    Root(m, a) == Root(m, c) ||
    var f := FwdId(g, m, c);
    h[f] < |g| && (h[f] == a || IdenticalArrays(g, h[f], a))
  }

  predicate JustifiedSlot(g: Graph, m: IdMap, h: IdMap, a: nat, c: nat, i: nat)
    requires Ranked(g, m) && |h| == |g| && a < |g| && c < |g|
  {
    && i < |Refs(g[a])| && i < |Refs(g[c])|
    && Refs(g[a])[i] < |g| && Refs(g[c])[i] < |g|
    && Justified(g, m, h, Refs(g[a])[i], Refs(g[c])[i])
  }

  /** A forward recorded against a definition, or the other way round. */
  predicate Mixed(g: Graph, a: nat, c: nat)
    requires a < |g| && c < |g|
  {
    IsFwdLike(g[a]) != IsFwdLike(g[c])
  }

  /** The recorded pair (h[c], c) has been compared with success: a forward and a
      definition of its family, or equal shapes over accepted references.  `off` says
      that forwards may not be resolved. */
  ghost predicate Checked(g: Graph, m: IdMap, h: IdMap, off: bool, c: nat)
    requires Ranked(g, m) && |h| == |g| && c < |g|
  {
    && h[c] < |g|
    && FamilyOf(g[h[c]]) == FamilyOf(g[c])
    && (g[c].info.kind == Enum ==> CompatibleEnums(g[h[c]], g[c]))
    && (g[c].info.kind == Fwd && g[h[c]].info.kind == Fwd ==> g[h[c]] == g[c])
    && (off ==> !Mixed(g, h[c], c))
    && (!Mixed(g, h[c], c) ==> Shape(g[h[c]]) == Shape(g[c]) && SlotsJustified(g, m, h, h[c], c))
  }

  ghost predicate Extends(h: IdMap, h': IdMap) {
    |h| == |h'| && forall c :: 0 <= c < |h| && h[c] != UNPROCESSED ==> h'[c] == h[c]
  }

  lemma ExtendsKeepsJustified(g: Graph, m: IdMap, h: IdMap, h': IdMap, a: nat, c: nat)
    requires Ranked(g, m) && |h| == |g| <= UNPROCESSED && a < |g| && c < |g|
    requires Extends(h, h') && Justified(g, m, h, a, c)
    ensures Justified(g, m, h', a, c)
  {
  }

  lemma ExtendsKeepsChecked(g: Graph, m: IdMap, h: IdMap, h': IdMap, off: bool, c: nat)
    requires Ranked(g, m) && |h| == |g| && c < |g|
    requires Extends(h, h') && Checked(g, m, h, off, c)
    ensures Checked(g, m, h', off, c)
  {
    if !Mixed(g, h[c], c) {
      forall i | 0 <= i < |Refs(g[c])| ensures JustifiedSlot(g, m, h', h'[c], c, i) {
        assert JustifiedSlot(g, m, h, h[c], c, i);
        ExtendsKeepsJustified(g, m, h, h', Refs(g[h[c]])[i], Refs(g[c])[i]);
      }
    }
  }

  /** The part of the recorded pairs that has been compared to the end. */
  ghost predicate AllChecked(g: Graph, m: IdMap, h: IdMap, off: bool)
    requires Ranked(g, m) && |h| == |g|
  {
    forall c :: 0 <= c < |h| && h[c] != UNPROCESSED ==> Checked(g, m, h, off, c)
  }

  /** The pairs recorded since `h` have been compared to the end. */
  ghost predicate NewChecked(g: Graph, m: IdMap, h: IdMap, h': IdMap, off: bool)
    requires Ranked(g, m) && |h| == |h'| == |g|
  {
    forall c :: 0 <= c < |h| && h[c] == UNPROCESSED && h'[c] != UNPROCESSED ==> Checked(g, m, h', off, c)
  }

  lemma NewCheckedTrans(g: Graph, m: IdMap, h0: IdMap, h1: IdMap, h2: IdMap, off: bool)
    requires Ranked(g, m) && |h0| == |h1| == |h2| == |g|
    requires Extends(h0, h1) && Extends(h1, h2)
    requires NewChecked(g, m, h0, h1, off) && NewChecked(g, m, h1, h2, off)
    ensures Extends(h0, h2) && NewChecked(g, m, h0, h2, off)
  {
    forall c | 0 <= c < |h0| && h0[c] == UNPROCESSED && h2[c] != UNPROCESSED
      ensures Checked(g, m, h2, off, c)
    {
      if h1[c] != UNPROCESSED {
        ExtendsKeepsChecked(g, m, h1, h2, off, c);
      }
    }
  }

  /** A pair of equal primitives, or of enums equal up to resolution, needs no more. */
  lemma PrimChecked(g: Graph, m: IdMap, h: IdMap, off: bool, c: nat)
    requires Closed(g) && Ranked(g, m) && |h| == |g| && c < |g| && h[c] < |g|
    requires IsPrimKind(g[c].info.kind) && g[h[c]].info.kind == g[c].info.kind && g[h[c]].name == g[c].name
    requires g[h[c]] == g[c] || (!off && g[c].info.kind == Enum && CompatibleEnums(g[h[c]], g[c]))
    ensures Checked(g, m, h, off, c)
  {
    var a := h[c];
    assert WellFormed(g[a]) && WellFormed(g[c]);
    if !Mixed(g, a, c) {
      assert g[a] == g[c];
      assert RefsBelow(g[c], |g|);
    }
  }

  /** The pair recorded first completes what was recorded after it. */
  lemma FirstChecked(g: Graph, m: IdMap, h0: IdMap, h1: IdMap, h2: IdMap, off: bool, c: nat, a: nat)
    requires Ranked(g, m) && |h0| == |h1| == |h2| == |g| && c < |g| && a < |g| && h0[c] == UNPROCESSED
    requires h1 == h0[c := a] && Extends(h1, h2) && NewChecked(g, m, h1, h2, off) && Checked(g, m, h2, off, c)
    ensures NewChecked(g, m, h0, h2, off) && Extends(h0, h2)
  {
  }

  /** Every pair of references of (a, c) was accepted. */
  ghost predicate SlotsJustified(g: Graph, m: IdMap, h: IdMap, a: nat, c: nat)
    requires Ranked(g, m) && |h| == |g| && a < |g| && c < |g|
  {
    forall i :: 0 <= i < |Refs(g[c])| ==> JustifiedSlot(g, m, h, a, c, i)
  }

  /** The first `j` slots in the order of `order` have been accepted. */
  ghost predicate FirstJustified(g: Graph, m: IdMap, h: IdMap, a: nat, c: nat, order: seq<nat>, j: nat)
    requires Ranked(g, m) && |h| == |g| && a < |g| && c < |g| && j <= |order|
  {
    forall k :: 0 <= k < j ==> JustifiedSlot(g, m, h, a, c, order[k])
  }

  lemma FirstJustifiedNext(g: Graph, m: IdMap, h: IdMap, h': IdMap, a: nat, c: nat, order: seq<nat>, j: nat)
    requires Ranked(g, m) && |h| == |g| && a < |g| && c < |g| && j < |order|
    requires Extends(h, h') && FirstJustified(g, m, h, a, c, order, j)
    requires JustifiedSlot(g, m, h', a, c, order[j])
    ensures FirstJustified(g, m, h', a, c, order, j + 1)
  {
    forall k | 0 <= k < j + 1 ensures JustifiedSlot(g, m, h', a, c, order[k]) {
      if k < j {
        assert JustifiedSlot(g, m, h, a, c, order[k]);
        ExtendsKeepsJustified(g, m, h, h', Refs(g[a])[order[k]], Refs(g[c])[order[k]]);
      }
    }
  }

  lemma AllSlotsJustified(g: Graph, m: IdMap, h: IdMap, a: nat, c: nat, order: seq<nat>)
    requires Ranked(g, m) && |h| == |g| && a < |g| && c < |g|
    requires FirstJustified(g, m, h, a, c, order, |order|)
    requires |order| == |Refs(g[c])|
    requires forall i :: 0 <= i < |order| ==> order[i] < |order| && order[order[i]] == i
    ensures SlotsJustified(g, m, h, a, c)
  {
    forall i | 0 <= i < |Refs(g[c])| ensures JustifiedSlot(g, m, h, a, c, i) {
      assert JustifiedSlot(g, m, h, a, c, order[order[i]]);
    }
  }

  /** Ids without a hypothesis: what every nested comparison uses up. */
  function Unset(h: IdMap): set<nat> {
    set c | 0 <= c < |h| && h[c] == UNPROCESSED
  }

  lemma ExtendsShrinks(h: IdMap, h': IdMap)
    requires Extends(h, h')
    ensures Unset(h') <= Unset(h)
  {
  }

  /** No forward is recorded against a definition. */
  ghost predicate Unmixed(g: Graph, h: IdMap) {
    |h| == |g| && forall c :: 0 <= c < |h| && h[c] != UNPROCESSED ==> h[c] < |g| && !Mixed(g, h[c], c)
  }

  /** Recorded pairs agree to depth `k`. */
  ghost predicate AgreeTo(g: Graph, h: IdMap, k: nat)
    requires Closed(g) && |h| == |g|
  {
    forall c :: 0 <= c < |h| && h[c] != UNPROCESSED ==> h[c] < |g| && Unfold(g, k, h[c]) == Unfold(g, k, c)
  }

  lemma JustifiedAgree(g: Graph, m: IdMap, h: IdMap, k: nat, a: nat, c: nat)
    requires MapInv(g, m, true) && |h| == |g| && a < |g| && c < |g|
    requires AgreeTo(g, h, k) && Justified(g, m, h, a, c)
    ensures Unfold(g, k, a) == Unfold(g, k, c)
  {
    RootKeeps(g, m, true, a);
    RootKeeps(g, m, true, c);
    if Root(m, a) != Root(m, c) {
      var f := FwdId(g, m, c);
      assert Alike(g, c, f);
      if h[f] != a {
        RewritesRefl(g);
        RewrittenEqualAlike(g, g, h[f], a);
      }
    }
  }

  lemma CheckedAgree(g: Graph, m: IdMap, h: IdMap, off: bool, k: nat, c: nat)
    requires MapInv(g, m, true) && |h| == |g| && c < |g|
    requires AgreeTo(g, h, k) && Checked(g, m, h, off, c) && !Mixed(g, h[c], c)
    ensures Unfold(g, k + 1, h[c]) == Unfold(g, k + 1, c)
  {
    SameShapeSameHeader(g[h[c]], g[c]);
    forall i | 0 <= i < |Refs(g[c])|
      ensures Unfold(g, k, Refs(g[h[c]])[i]) == Unfold(g, k, Refs(g[c])[i])
    {
      assert JustifiedSlot(g, m, h, h[c], c, i);
      JustifiedAgree(g, m, h, k, Refs(g[h[c]])[i], Refs(g[c])[i]);
    }
    UnfoldStep(g, k, h[c], c);
  }

  lemma AgreeZero(g: Graph, m: IdMap, h: IdMap, off: bool)
    requires Closed(g) && Ranked(g, m) && |h| == |g| && AllChecked(g, m, h, off) && Unmixed(g, h)
    ensures AgreeTo(g, h, 0)
  {
    forall c | 0 <= c < |h| && h[c] != UNPROCESSED
      ensures h[c] < |g| && Unfold(g, 0, h[c]) == Unfold(g, 0, c)
    {
      assert Checked(g, m, h, off, c);
    }
  }

  lemma AgreeNext(g: Graph, m: IdMap, h: IdMap, off: bool, k: nat)
    requires MapInv(g, m, true) && |h| == |g|
    requires AllChecked(g, m, h, off) && Unmixed(g, h) && AgreeTo(g, h, k)
    ensures AgreeTo(g, h, k + 1)
  {
    forall c | 0 <= c < |h| && h[c] != UNPROCESSED
      ensures h[c] < |g| && Unfold(g, k + 1, h[c]) == Unfold(g, k + 1, c)
    {
      assert Checked(g, m, h, off, c);
      CheckedAgree(g, m, h, off, k, c);
    }
  }

  lemma HypotAgree(g: Graph, m: IdMap, h: IdMap, off: bool, k: nat)
    requires MapInv(g, m, true) && |h| == |g|
    requires AllChecked(g, m, h, off) && Unmixed(g, h)
    ensures AgreeTo(g, h, k)
  {
    AgreeZero(g, m, h, off);
    for j := 0 to k
      invariant AgreeTo(g, h, j)
    {
      AgreeNext(g, m, h, off, j);
    }
  }

  /** Soundness of the graph comparison: once every recorded pair has been compared and
      none mixes a forward with a definition, accepted pairs agree at every depth, through cycles as well. */
  lemma ComparisonSound(g: Graph, m: IdMap, h: IdMap, off: bool, a: nat, c: nat)
    requires MapInv(g, m, true) && |h| == |g| && a < |g| && c < |g|
    requires AllChecked(g, m, h, off) && Unmixed(g, h)
    ensures Justified(g, m, h, a, c) ==> Alike(g, a, c)
    ensures h[c] != UNPROCESSED ==> h[c] < |g| && Alike(g, h[c], c)
  {
    if Justified(g, m, h, a, c) {
      forall k: nat ensures Unfold(g, k, a) == Unfold(g, k, c) {
        HypotAgree(g, m, h, off, k);
        JustifiedAgree(g, m, h, k, a, c);
      }
    }
    if h[c] != UNPROCESSED {
      forall k: nat ensures h[c] < |g| && Unfold(g, k, h[c]) == Unfold(g, k, c) {
        HypotAgree(g, m, h, off, k);
      }
    }
  }

  // ---------------------------------------------------------------------------
  // The same up to forwards

  /** Recorded pairs match to depth `k`. */
  ghost predicate PairsMatchTo(g: Graph, h: IdMap, k: nat)
    requires Closed(g) && |h| == |g|
  {
    forall c :: 0 <= c < |h| && h[c] != UNPROCESSED ==> h[c] < |g| && MatchTo(g, g, k, h[c], c)
  }

  lemma JustifiedMatch(g: Graph, m: IdMap, exact: bool, h: IdMap, k: nat, a: nat, c: nat)
    requires MapInv(g, m, exact) && Consistent(g) && |h| == |g| <= UNPROCESSED && a < |g| && c < |g|
    requires PairsMatchTo(g, h, k) && Justified(g, m, h, a, c)
    ensures MatchTo(g, g, k, a, c)
  {
    hide Consistent, MatchTo, KeepsMeaning, KeepsAgreement, SameFamilies;
    RootKeeps(g, m, exact, a);
    RootKeeps(g, m, exact, c);
    AgreeSymmetric(g, c, Root(m, c));
    if Root(m, a) == Root(m, c) {
      AgreeTransitive(g, a, Root(m, a), c);
    } else {
      var f := FwdId(g, m, c);
      AgreeItself(g, c);
      assert Agree(g, f, c);
      SameDescriptorAgrees(g, a, h[f]);
      assert MatchTo(g, g, k, h[f], f);
      MatchTransitive(g, k, a, h[f], f);
      MatchTransitive(g, k, a, f, c);
    }
  }

  lemma SameDescriptorAgrees(g: Graph, x: nat, y: nat)
    requires Closed(g) && x < |g| && y < |g| && g[x] == g[y]
    ensures Agree(g, x, y)
  {
    RewritesRefl(g);
    RewrittenEqualAlike(g, g, x, y);
    AlikeAgree(g, x, y);
  }

  lemma CheckedMatch(g: Graph, m: IdMap, exact: bool, h: IdMap, off: bool, k: nat, c: nat)
    requires MapInv(g, m, exact) && Consistent(g) && |h| == |g| <= UNPROCESSED && c < |g|
    requires PairsMatchTo(g, h, k) && Checked(g, m, h, off, c)
    ensures MatchTo(g, g, k + 1, h[c], c)
  {
    hide Consistent, MatchTo, MapInv, PairsMatchTo, Justified;
    InvParts(g, m, exact);
    if Mixed(g, h[c], c) {
      ForwardMatches(g, g, k + 1, h[c], c);
    } else {
      SameShapeSameHeader(g[h[c]], g[c]);
      forall i | 0 <= i < |Refs(g[c])| ensures MatchTo(g, g, k, Refs(g[h[c]])[i], Refs(g[c])[i]) {
        assert JustifiedSlot(g, m, h, h[c], c, i);
        JustifiedMatch(g, m, exact, h, k, Refs(g[h[c]])[i], Refs(g[c])[i]);
      }
      StepMatches(g, g, k, h[c], c);
    }
  }

  lemma InvParts(g: Graph, m: IdMap, exact: bool)
    requires MapInv(g, m, exact)
    ensures Closed(g) && Ranked(g, m)
    ensures forall x :: 0 <= x < |g| ==> RefsBelow(g[x], |g|)
  {
  }

  lemma {:induction false} HypotMatch(g: Graph, m: IdMap, exact: bool, h: IdMap, off: bool, k: nat)
    requires MapInv(g, m, exact) && Consistent(g) && |h| == |g| && AllChecked(g, m, h, off)
    ensures PairsMatchTo(g, h, k)
  {
    hide Consistent, MatchTo, MapInv;
    InvParts(g, m, exact);
    if k > 0 {
      HypotMatch(g, m, exact, h, off, k - 1);
    }
    forall c | 0 <= c < |h| && h[c] != UNPROCESSED ensures h[c] < |g| && MatchTo(g, g, k, h[c], c) {
      assert Checked(g, m, h, off, c);
      if k > 0 {
        CheckedMatch(g, m, exact, h, off, k - 1, c);
      } else {
        NothingToMatch(g, g, h[c], c);
      }
    }
  }

  /** Soundness up to forwards: where forwards have one meaning each, accepted pairs agree at
      every depth even if forwards were set against definitions. */
  lemma ComparisonAgrees(g: Graph, m: IdMap, exact: bool, h: IdMap, off: bool, a: nat, c: nat)
    requires MapInv(g, m, exact) && Consistent(g) && |h| == |g| && a < |g| && c < |g|
    requires AllChecked(g, m, h, off)
    ensures Justified(g, m, h, a, c) ==> Agree(g, a, c)
    ensures h[c] != UNPROCESSED ==> h[c] < |g| && Agree(g, h[c], c)
  {
    hide Consistent, MatchTo, MapInv, AllChecked, Justified;
    InvParts(g, m, exact);
    if Justified(g, m, h, a, c) {
      forall k: nat ensures MatchTo(g, g, k, a, c) {
        HypotMatch(g, m, exact, h, off, k);
        JustifiedMatch(g, m, exact, h, k, a, c);
      }
    }
    if h[c] != UNPROCESSED {
      HypotMatch(g, m, exact, h, off, 0);
      forall k: nat ensures MatchTo(g, g, k, h[c], c) {
        HypotMatch(g, m, exact, h, off, k);
      }
    }
  }

  // ---------------------------------------------------------------------------
  // Merging a successful comparison into the canonical map

  /** One recorded pair (a, c): forwards are pointed at definitions in either
      direction, and an unmapped struct is mapped to a canonical one. */
  function MergeStep(g: Graph, m: IdMap, c: nat, a: nat): IdMap
    requires Ranked(g, m) && c < |g| && a < |g|
  {
    RootSpec(g, m, a);
    RootSpec(g, m, c);
    var t := Root(m, a);
    var r := Root(m, c);
    var m1 := if g[t].info.kind != Fwd && g[r].info.kind == Fwd then m[r := t] else m;
    var m2 := if g[t].info.kind == Fwd && g[r].info.kind != Fwd then m1[t := r] else m1;
    if IsComposite(g[t].info.kind) && g[r].info.kind != Fwd && Mapped(m2, r) && !Mapped(m2, t)
    then m2[t := r] else m2
  }

  /** Merging writes entries of forwards, structs and unions only and makes nothing
      canonical. */
  ghost predicate MergeFrame(g: Graph, m: IdMap, m': IdMap) {
    && |m| == |g| == |m'|
    && (forall x :: 0 <= x < |g| && SelfMapped(m', x) ==> SelfMapped(m, x))
    && (forall x :: 0 <= x < |g| && m'[x] != m[x] ==> g[x].info.kind == Fwd || IsComposite(g[x].info.kind))
  }

  ghost predicate PairOk(g: Graph, exact: bool, c: nat, a: nat)
    requires Closed(g)
  {
    && a < |g| && c < |g|
    && FamilyOf(g[a]) == FamilyOf(g[c])
    && (exact ==> Alike(g, a, c))
    && (Consistent(g) ==> Agree(g, a, c))
  }

  lemma RefinesTrans(g: Graph, m0: IdMap, m1: IdMap, m2: IdMap)
    requires Refines(g, m0, m1) && Refines(g, m1, m2)
    ensures Refines(g, m0, m2)
  {
  }

  lemma RefinesItself(g: Graph, m: IdMap)
    requires |m| == |g|
    ensures Refines(g, m, m) && MergeFrame(g, m, m)
  {
  }

  lemma MergeStepKeeps(g: Graph, m: IdMap, exact: bool, c: nat, a: nat)
    requires MapInv(g, m, exact) && PairOk(g, exact, c, a)
    ensures MapInv(g, MergeStep(g, m, c, a), exact) && Refines(g, m, MergeStep(g, m, c, a))
    ensures MergeFrame(g, m, MergeStep(g, m, c, a))
  {
    hide Consistent, Agree, Alike, KeepsMeaning, KeepsAgreement;
    var t, r := Root(m, a), Root(m, c);
    RootKeeps(g, m, exact, a);
    RootKeeps(g, m, exact, c);
    PairRoots(g, m, exact, c, a);
    if g[t].info.kind != Fwd && g[r].info.kind == Fwd {
      LinkKeepsInv(g, m, exact, r, t);
    } else if g[t].info.kind == Fwd && g[r].info.kind != Fwd {
      LinkKeepsInv(g, m, exact, t, r);
    } else if IsComposite(g[t].info.kind) && g[r].info.kind != Fwd && Mapped(m, r) && !Mapped(m, t) {
      LinkKeepsInv(g, m, exact, t, r);
    }
  }

  /** The representatives of a pair are such a pair too. */
  lemma PairRoots(g: Graph, m: IdMap, exact: bool, c: nat, a: nat)
    requires MapInv(g, m, exact) && PairOk(g, exact, c, a)
    ensures Root(m, a) < |g| && Root(m, c) < |g|
    ensures var t, r := Root(m, a), Root(m, c);
            && (exact ==> Alike(g, t, r) && Alike(g, r, t) && Shape(g[t]) == Shape(g[r]) && g[t].info == g[r].info)
            && (Consistent(g) ==> Agree(g, t, r))
  {
    var t, r := Root(m, a), Root(m, c);
    RootKeeps(g, m, exact, a);
    RootKeeps(g, m, exact, c);
    hide Consistent, MapInv;
    if exact {
      AlikeTransitive(g, t, a, c);
      AlikeTransitive(g, t, c, r);
      AlikeSameShape(g, t, r);
    }
    if Consistent(g) {
      AgreeSymmetric(g, a, t);
      AgreeTransitive(g, t, a, c);
      AgreeTransitive(g, t, c, r);
    }
  }

  ghost predicate PairsOk(g: Graph, exact: bool, list: seq<nat>, h: IdMap)
    requires Closed(g)
  {
    forall i :: 0 <= i < |list| ==> list[i] < |h| && PairOk(g, exact, list[i], h[list[i]])
  }

  /** The merge of the first pairs of `list`, in the order they were recorded. */
  ghost function MergeAll(g: Graph, m: IdMap, list: seq<nat>, h: IdMap): (m': IdMap)
    requires MapInv(g, m, false) && PairsOk(g, false, list, h)
    ensures MapInv(g, m', false) && Refines(g, m, m') && MergeFrame(g, m, m')
  {
    if list == [] then m
    else
      var n := |list| - 1;
      var m1 := MergeAll(g, m, list[..n], h);
      assert PairOk(g, false, list[n], h[list[n]]);
      MergeStepKeeps(g, m1, false, list[n], h[list[n]]);
      RefinesTrans(g, m, m1, MergeStep(g, m1, list[n], h[list[n]]));
      MergeStep(g, m1, list[n], h[list[n]])
  }

  lemma {:induction false} MergeAllKeepsMeaning(g: Graph, m: IdMap, list: seq<nat>, h: IdMap)
    requires MapInv(g, m, true) && PairsOk(g, true, list, h)
    ensures PairsOk(g, false, list, h) && MapInv(g, MergeAll(g, m, list, h), true)
  {
    forall i | 0 <= i < |list| ensures PairOk(g, false, list[i], h[list[i]]) {
      assert PairOk(g, true, list[i], h[list[i]]);
    }
    if list != [] {
      var n := |list| - 1;
      MergeAllKeepsMeaning(g, m, list[..n], h);
      assert PairOk(g, true, list[n], h[list[n]]);
      MergeStepKeeps(g, MergeAll(g, m, list[..n], h), true, list[n], h[list[n]]);
    }
  }

  lemma MergeNone(g: Graph, m: IdMap, list: seq<nat>, h: IdMap)
    requires MapInv(g, m, false)
    ensures PairsOk(g, false, list[..0], h) && MergeAll(g, m, list[..0], h) == m
  {
  }

  /** The merge goes through the list pair by pair. */
  lemma MergeNext(g: Graph, m: IdMap, list: seq<nat>, h: IdMap, i: nat)
    requires MapInv(g, m, false) && PairsOk(g, false, list, h) && i < |list| && PairsOk(g, false, list[..i], h)
    ensures list[i] < |h| && list[i] < |g| && h[list[i]] < |g| && Ranked(g, MergeAll(g, m, list[..i], h))
    ensures PairsOk(g, false, list[..i + 1], h)
    ensures MergeAll(g, m, list[..i + 1], h) == MergeStep(g, MergeAll(g, m, list[..i], h), list[i], h[list[i]])
  {
    hide MergeStep, Refines, MergeFrame;
    assert PairOk(g, false, list[i], h[list[i]]);
    assert list[..i + 1][..i] == list[..i];
    var more := list[..i + 1];
    forall j | 0 <= j < |more| ensures PairOk(g, false, more[j], h[more[j]]) {
      assert PairOk(g, false, list[j], h[list[j]]);
    }
  }

  lemma MapInvFalse(g: Graph, m: IdMap, exact: bool)
    requires MapInv(g, m, exact)
    ensures MapInv(g, m, false)
  {
  }

  /** What one merge step resolves. */
  lemma MergeStepResolves(g: Graph, m: IdMap, c: nat, a: nat)
    requires MapInv(g, m, false) && PairOk(g, false, c, a)
    ensures Unresolved(g, MergeStep(g, m, c, a)) <==>
            Unresolved(g, m) && (g[a].info.kind == Fwd <==> g[c].info.kind == Fwd)
  {
    var t, r := Root(m, a), Root(m, c);
    RootKeeps(g, m, false, a);
    RootKeeps(g, m, false, c);
    UnresolvedRoot(g, m, false, a);
    UnresolvedRoot(g, m, false, c);
    if g[t].info.kind != Fwd && g[r].info.kind == Fwd {
      LinkResolves(g, m, r, t);
    } else if g[t].info.kind == Fwd && g[r].info.kind != Fwd {
      LinkResolves(g, m, t, r);
    } else if IsComposite(g[t].info.kind) && g[r].info.kind != Fwd && Mapped(m, r) && !Mapped(m, t) {
      LinkResolves(g, m, t, r);
    }
  }

  /** No recorded pair sets a FWD against a struct or union. */
  ghost predicate FwdsPaired(g: Graph, list: seq<nat>, h: IdMap)
    requires Closed(g) && PairsOk(g, false, list, h)
  {
    forall i {:trigger list[i]} :: 0 <= i < |list| ==>
      PairOk(g, false, list[i], h[list[i]]) && (g[h[list[i]]].info.kind == Fwd <==> g[list[i]].info.kind == Fwd)
  }

  lemma FwdsPairedSplit(g: Graph, list: seq<nat>, h: IdMap)
    requires Closed(g) && PairsOk(g, false, list, h) && list != []
    ensures var n := |list| - 1;
            && PairsOk(g, false, list[..n], h) && PairOk(g, false, list[n], h[list[n]])
            && (FwdsPaired(g, list, h) <==>
                FwdsPaired(g, list[..n], h) && (g[h[list[n]]].info.kind == Fwd <==> g[list[n]].info.kind == Fwd))
  {
    var n := |list| - 1;
    var front := list[..n];
    assert PairOk(g, false, list[n], h[list[n]]);
    forall i | 0 <= i < n ensures PairOk(g, false, front[i], h[front[i]]) && front[i] == list[i] {
      assert PairOk(g, false, list[i], h[list[i]]);
    }
  }

  /** A merge resolves something exactly when a pair asks for it. */
  lemma {:induction false} MergeAllResolves(g: Graph, m: IdMap, list: seq<nat>, h: IdMap)
    requires MapInv(g, m, false) && PairsOk(g, false, list, h)
    ensures Unresolved(g, MergeAll(g, m, list, h)) <==> Unresolved(g, m) && FwdsPaired(g, list, h)
  {
    if list != [] {
      var n := |list| - 1;
      FwdsPairedSplit(g, list, h);
      MergeAllResolves(g, m, list[..n], h);
      MergeStepResolves(g, MergeAll(g, m, list[..n], h), list[n], h[list[n]]);
    }
  }

  /** The pairs of a successful comparison may be merged. */
  lemma ComparedPairsOk(g: Graph, m: IdMap, h: IdMap, list: seq<nat>, off: bool)
    requires MapInv(g, m, Unresolved(g, m)) && HypotOk(h, list, |g|) && AllChecked(g, m, h, off)
    ensures PairsOk(g, false, list, h)
    ensures off ==> FwdsPaired(g, list, h)
    ensures Unresolved(g, m) && Unmixed(g, h) ==> PairsOk(g, true, list, h)
  {
    forall i | 0 <= i < |list| ensures PairOk(g, false, list[i], h[list[i]]) {
      assert list[i] in list;
      assert Checked(g, m, h, off, list[i]);
      if Consistent(g) {
        ComparisonAgrees(g, m, Unresolved(g, m), h, off, list[i], list[i]);
      }
    }
    if off {
      forall i | 0 <= i < |list|
        ensures PairOk(g, false, list[i], h[list[i]])
        ensures g[h[list[i]]].info.kind == Fwd <==> g[list[i]].info.kind == Fwd
      {
        assert list[i] in list;
        assert Checked(g, m, h, off, list[i]);
      }
    }
    if Unresolved(g, m) && Unmixed(g, h) {
      forall i | 0 <= i < |list| ensures PairOk(g, true, list[i], h[list[i]]) {
        assert list[i] in list;
        assert Checked(g, m, h, off, list[i]);
        ComparisonSound(g, m, h, off, list[i], list[i]);
      }
    }
  }
}
