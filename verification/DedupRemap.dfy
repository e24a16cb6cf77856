/** Compaction and remapping as values: which descriptors are left, under which new
    ids, and that the result means what the input meant. */
module DedupRemap {
  import opened BtfTypes
  import opened BtfCompare
  import opened BtfGraph
  import opened BtfAgree
  import opened BtfFields
  import opened DedupMap
  import opened DedupOne
  import opened DedupSpell
  import opened DedupState
  import opened DedupRefs
  import opened DedupSpelling

  /** How many ids below `n` are self-canonical. */
  function CanonCount(m: IdMap, n: nat): (c: nat)
    requires n <= |m|
    ensures c <= n
  {
    if n == 0 then 0 else CanonCount(m, n - 1) + if SelfMapped(m, n - 1) then 1 else 0
  }

  /** The self-canonical ids below `n`, ascending. */
  function CanonIds(m: IdMap, n: nat): (ids: seq<nat>)
    requires n <= |m|
    ensures |ids| == CanonCount(m, n)
    ensures forall k :: 0 <= k < |ids| ==> ids[k] < n && SelfMapped(m, ids[k])
    ensures forall j, k :: 0 <= j < k < |ids| ==> ids[j] < ids[k]
  {
    if n == 0 then []
    else if SelfMapped(m, n - 1) then CanonIds(m, n - 1) + [n - 1]
    else CanonIds(m, n - 1)
  }

  /** A self-canonical id sits at the place given by how many precede it. */
  lemma {:induction false} CanonIdPlace(m: IdMap, c: nat, n: nat)
    requires c < n <= |m| && SelfMapped(m, c)
    ensures CanonCount(m, c) < CanonCount(m, n) && CanonIds(m, n)[CanonCount(m, c)] == c
  {
    if c < n - 1 {
      CanonIdPlace(m, c, n - 1);
    }
  }

  lemma FirstCanonId(m: IdMap, n: nat)
    requires 0 < n <= |m| && m[0] == 0
    ensures CanonCount(m, n) > 0 && CanonIds(m, n)[0] == 0 && CanonIds(m, 1) == [0]
  {
    CanonIdPlace(m, 0, n);
  }

  ghost predicate AllMapped(m: IdMap) {
    forall x :: 0 <= x < |m| ==> Mapped(m, x)
  }

  /** The id of a type in the output. */
  function NewId(m: IdMap, x: nat): nat
    requires x < |m| && Root(m, x) < |m|
  {
    CanonCount(m, Root(m, x))
  }

  /** New ids number the canonical types densely, in their old order; two types share
      one exactly when they resolve to the same type. */
  lemma NewIdRenumbers(g: Graph, m: IdMap, exact: bool, x: nat, y: nat)
    requires MapInv(g, m, exact) && AllMapped(m) && x < |m| && y < |m|
    ensures Root(m, x) < |m| && Root(m, y) < |m|
    ensures NewId(m, x) < CanonCount(m, |m|) && CanonIds(m, |m|)[NewId(m, x)] == Root(m, x)
    ensures NewId(m, x) == NewId(m, y) <==> Root(m, x) == Root(m, y)
    ensures Root(m, x) < Root(m, y) ==> NewId(m, x) < NewId(m, y)
  {
    RootKeeps(g, m, exact, x);
    RootKeeps(g, m, exact, y);
    CanonIdPlace(m, Root(m, x), |m|);
    CanonIdPlace(m, Root(m, y), |m|);
    if Root(m, x) < Root(m, y) {
      CanonIdPlace(m, Root(m, x), Root(m, y));
    } else if Root(m, y) < Root(m, x) {
      CanonIdPlace(m, Root(m, y), Root(m, x));
    }
  }

  /** Every new id is the id of the canonical type at that place. */
  lemma NewIdOnto(m: IdMap, k: nat)
    requires k < CanonCount(m, |m|)
    ensures var c := CanonIds(m, |m|)[k]; Root(m, c) == c && NewId(m, c) == k
  {
    var c := CanonIds(m, |m|)[k];
    assert Step(m, c) == c;
    CanonIdPlace(m, c, |m|);
  }

  // ---------------------------------------------------------------------------
  // Compaction in place

  /** Ids below `id` have been compacted: `next` descriptors moved down, each new id
      recorded, nothing unread overwritten. */
  ghost predicate CompactedTo(g: Graph, m: IdMap, ts: Graph, h: IdMap, id: nat, next: nat) {
    && |g| == |m| == |ts| == |h| && id <= |m|
    && next == CanonCount(m, id)
    && (forall k :: 0 <= k < next ==> ts[k] == g[CanonIds(m, id)[k]])
    && (forall x :: id <= x < |ts| ==> ts[x] == g[x])
    && (forall x :: 0 <= x < id ==> h[x] == Renumbered(m, x))
    && (forall x :: id <= x < |h| ==> h[x] == UNPROCESSED)
  }

  function Renumbered(m: IdMap, x: nat): nat
    requires x < |m|
  {
    if SelfMapped(m, x) then CanonCount(m, x) else UNPROCESSED
  }

  lemma CompactBegin(g: Graph, m: IdMap, h: IdMap)
    requires |g| == |m| == |h| > 0 && m[0] == 0 && forall x :: 0 <= x < |h| ==> h[x] == UNPROCESSED
    ensures CompactedTo(g, m, g, h[0 := 0], 1, 1)
  {
    FirstCanonId(m, 1);
  }

  lemma CompactStep(g: Graph, m: IdMap, ts: Graph, h: IdMap, id: nat, next: nat)
    requires CompactedTo(g, m, ts, h, id, next) && id < |m|
    ensures next <= id
    ensures SelfMapped(m, id) ==> CompactedTo(g, m, ts[next := ts[id]], h[id := next], id + 1, next + 1)
    ensures !SelfMapped(m, id) ==> CompactedTo(g, m, ts, h, id + 1, next)
  {
  }

  // ---------------------------------------------------------------------------
  // The output graph

  function NewRefs(m: IdMap, rs: seq<nat>): (ns: seq<nat>)
    requires forall i :: 0 <= i < |rs| ==> rs[i] < |m| && Root(m, rs[i]) < |m|
    ensures |ns| == |rs|
  {
    seq(|rs|, i requires 0 <= i < |rs| => NewId(m, rs[i]))
  }

  ghost predicate CanRemap(m: IdMap, t: BtfType) {
    forall i :: 0 <= i < |Refs(t)| ==> Refs(t)[i] < |m| && Root(m, Refs(t)[i]) < |m|
  }

  function Remap(m: IdMap, t: BtfType): BtfType
    requires CanRemap(m, t)
  {
    SetRefs(t, NewRefs(m, Refs(t)))
  }

  lemma CanRemapAll(g0: Graph, g: Graph, m: IdMap, exact: bool)
    requires MapInv(g0, m, exact) && Closed(g) && |g| == |m|
    ensures forall x :: 0 <= x < |g| ==> CanRemap(m, g[x])
  {
    forall x, i | 0 <= x < |g| && 0 <= i < |Refs(g[x])|
      ensures Refs(g[x])[i] < |m| && Root(m, Refs(g[x])[i]) < |m|
    {
      assert RefsBelow(g[x], |g|);
      RootKeeps(g0, m, exact, Refs(g[x])[i]);
    }
  }

  /** Void stays what and where it is. */
  lemma RemapStart(g0: Graph, g: Graph, m: IdMap, exact: bool)
    requires MapInv(g0, m, exact) && Closed(g) && |g| == |m|
    ensures forall x :: 0 <= x < |g| ==> CanRemap(m, g[x])
    ensures CanonCount(m, |m|) > 0 && CanonIds(m, |m|)[0] == 0 && Remap(m, g[0]) == g[0]
  {
    hide Root, CanonCount, CanonIds, KeepsMeaning, KeepsAgreement, Consistent, SameFamilies;
    CanRemapAll(g0, g, m, exact);
    FirstCanonId(m, |m|);
  }

  /** `out` is the deduplicated graph: the canonical descriptors in order, with every
      reference renumbered. */
  ghost predicate IsOutput(g: Graph, m: IdMap, out: Graph) {
    && |g| == |m|
    && |out| == CanonCount(m, |m|)
    && (forall k :: 0 <= k < |out| ==> OutputEntry(g, m, out, k))
  }

  ghost predicate OutputEntry(g: Graph, m: IdMap, out: Graph, k: nat)
    requires |g| == |m| && k < |out| == CanonCount(m, |m|)
  {
    CanRemap(m, g[CanonIds(m, |m|)[k]]) && out[k] == Remap(m, g[CanonIds(m, |m|)[k]])
  }

  /** The output entry of `x`, in terms of its canonical descriptor. */
  lemma OutputAt(g0: Graph, g: Graph, m: IdMap, exact: bool, out: Graph, x: nat)
    requires MapInv(g0, m, exact) && AllMapped(m) && Closed(g) && IsOutput(g, m, out) && x < |m|
    ensures Root(m, x) < |m| && NewId(m, x) < |out| && CanRemap(m, g[Root(m, x)])
    ensures Shape(out[NewId(m, x)]) == Shape(g[Root(m, x)])
    ensures Refs(out[NewId(m, x)]) == NewRefs(m, Refs(g[Root(m, x)]))
  {
    NewIdRenumbers(g0, m, exact, x, x);
    assert OutputEntry(g, m, out, NewId(m, x));
    var c := Root(m, x);
    SetRefsSpec(g[c], NewRefs(m, Refs(g[c])));
  }

  /** The output is again a graph whose references stay in range. */
  lemma OutputClosed(g0: Graph, g: Graph, m: IdMap, exact: bool, out: Graph)
    requires MapInv(g0, m, exact) && AllMapped(m) && Closed(g) && IsOutput(g, m, out)
    ensures Closed(out)
  {
    var ids := CanonIds(m, |m|);
    assert m[0] == 0 && SelfMapped(m, 0);
    CanonIdPlace(m, 0, |m|);
    forall k | 0 <= k < |out|
      ensures WellFormed(out[k]) && RefsBelow(out[k], |out|) && (k > 0 ==> out[k].info.kind != Unkn)
      ensures k == 0 ==> out[k] == VOID
    {
      assert OutputEntry(g, m, out, k);
      var t := g[ids[k]];
      assert WellFormed(t);
      SetRefsSpec(t, NewRefs(m, Refs(t)));
      forall i | 0 <= i < |Refs(t)| ensures Refs(out[k])[i] < |out| {
        NewIdRenumbers(g0, m, exact, Refs(t)[i], Refs(t)[i]);
      }
      assert k > 0 ==> ids[0] < ids[k];
    }
  }

  /** The references of an output entry are the new ids of types that mean the same as
      the references of the input type. */
  lemma OutputRefs(g0: Graph, g: Graph, m: IdMap, out: Graph, x: nat)
    requires MapInv(g0, m, true) && AllMapped(m) && Closed(g) && Rewrites(g0, g)
    requires IsOutput(g, m, out) && x < |g0|
    ensures Root(m, x) < |m| && NewId(m, x) < |out|
    ensures Shape(out[NewId(m, x)]) == Shape(g0[x])
    ensures var r, ro := Refs(g[Root(m, x)]), Refs(out[NewId(m, x)]);
            && AllAlike(g0, Refs(g0[x]), r)
            && |ro| == |r| && CanRemap(m, g[Root(m, x)])
            && (forall i :: 0 <= i < |r| ==> ro[i] == NewId(m, r[i]))
  {
    var c := Root(m, x);
    OutputAt(g0, g, m, true, out, x);
    RootKeeps(g0, m, true, x);
    AlikeSameShape(g0, x, c);
    AlikeRefs(g0, x, c);
    assert RewritesType(g0, g0[c], g[c]);
    SameShapeSameHeader(g[c], g0[c]);
    forall i | 0 <= i < |Refs(g0[x])| ensures Refs(g[c])[i] < |g0| && Alike(g0, Refs(g0[x])[i], Refs(g[c])[i]) {
      AlikeTransitive(g0, Refs(g0[x])[i], Refs(g0[c])[i], Refs(g[c])[i]);
    }
  }

  ghost predicate MeaningTo(g0: Graph, m: IdMap, out: Graph, k: nat)
    requires Closed(g0) && Closed(out) && |m| == |g0|
  {
    forall x {:trigger NewId(m, x)} :: 0 <= x < |g0| ==>
      Root(m, x) < |m| && NewId(m, x) < |out| && Unfold(out, k, NewId(m, x)) == Unfold(g0, k, x)
  }

  lemma OutputMeaningNext(g0: Graph, g: Graph, m: IdMap, out: Graph, k: nat, x: nat)
    requires MapInv(g0, m, true) && AllMapped(m) && Closed(g) && Rewrites(g0, g)
    requires IsOutput(g, m, out) && Closed(out) && x < |g0|
    requires MeaningTo(g0, m, out, k)
    ensures Root(m, x) < |m| && NewId(m, x) < |out|
    ensures Unfold(out, k + 1, NewId(m, x)) == Unfold(g0, k + 1, x)
  {
    OutputRefs(g0, g, m, out, x);
    var r0, r, ro := Refs(g0[x]), Refs(g[Root(m, x)]), Refs(out[NewId(m, x)]);
    forall i | 0 <= i < |ro| ensures Unfold(out, k, ro[i]) == Unfold(g0, k, r0[i]) {
      assert ro[i] == NewId(m, r[i]);
      assert Alike(g0, r0[i], r[i]);
    }
    UnfoldAcross(out, g0, k, NewId(m, x), x);
  }

  /** Meaning is preserved: what any input type unfolds to, to any depth, is what its
      new id unfolds to in the output. */
  lemma OutputMeaning(g0: Graph, g: Graph, m: IdMap, out: Graph, k: nat)
    requires MapInv(g0, m, true) && AllMapped(m) && Closed(g) && Rewrites(g0, g)
    requires IsOutput(g, m, out) && Closed(out)
    ensures MeaningTo(g0, m, out, k)
  {
    forall x | 0 <= x < |g0| ensures Root(m, x) < |m| && NewId(m, x) < |out| {
      OutputRefs(g0, g, m, out, x);
    }
    for j := 0 to k
      invariant MeaningTo(g0, m, out, j)
    {
      forall x | 0 <= x < |g0|
        ensures Root(m, x) < |m| && NewId(m, x) < |out|
        ensures Unfold(out, j + 1, NewId(m, x)) == Unfold(g0, j + 1, x)
      {
        OutputMeaningNext(g0, g, m, out, j, x);
      }
    }
  }

  /** One more level, between two graphs. */
  lemma UnfoldAcross(g: Graph, g': Graph, k: nat, x: nat, y: nat)
    requires Closed(g) && Closed(g') && x < |g| && y < |g'| && Shape(g[x]) == Shape(g'[y])
    requires |Refs(g[x])| == |Refs(g'[y])|
    requires forall i :: 0 <= i < |Refs(g[x])| ==> Unfold(g, k, Refs(g[x])[i]) == Unfold(g', k, Refs(g'[y])[i])
    ensures Unfold(g, k + 1, x) == Unfold(g', k + 1, y)
  {
    assert UnfoldAll(g, k, Refs(g[x])) == UnfoldAll(g', k, Refs(g'[y]));
  }

  ghost predicate SameMeaning(g0: Graph, m: IdMap, out: Graph)
    requires Closed(g0) && Closed(out) && |m| == |g0|
  {
    forall k: nat :: MeaningTo(g0, m, out, k)
  }

  // ---------------------------------------------------------------------------
  // The output up to forwards

  /** What agrees with `y` in the input matches the output entry of `y` to depth `k`. */
  ghost predicate OutputMatchesTo(g0: Graph, m: IdMap, out: Graph, k: nat)
    requires Closed(g0) && Closed(out) && |m| == |g0|
  {
    forall x, y :: 0 <= x < |g0| && 0 <= y < |g0| && Agree(g0, x, y) ==> OutputMatch(g0, m, out, k, x, y)
  }

  ghost predicate OutputMatch(g0: Graph, m: IdMap, out: Graph, k: nat, x: nat, y: nat)
    requires Closed(g0) && Closed(out) && |m| == |g0| && x < |g0| && y < |g0|
  {
    Root(m, y) < |m| && NewId(m, y) < |out| && MatchTo(g0, out, k, x, NewId(m, y))
  }

  /** The references of an output entry are the new ids of types that agree with those of
      any definition the entry's type agrees with. */
  lemma OutputMatchNext(g0: Graph, g: Graph, m: IdMap, exact: bool, out: Graph, k: nat, x: nat, y: nat)
    requires MapInv(g0, m, exact) && AllMapped(m) && Closed(g) && Consistent(g0) && Rewords(g0, g)
    requires IsOutput(g, m, out) && Closed(out) && x < |g0| && y < |g0|
    requires OutputMatchesTo(g0, m, out, k) && Agree(g0, x, y)
    ensures OutputMatch(g0, m, out, k + 1, x, y)
  {
    hide Consistent, MapInv, MatchTo, IsOutput, AllMapped, Agree;
    InvParts(g0, m, exact);
    var c := Root(m, y);
    OutputAt(g0, g, m, exact, out, y);
    RootKeeps(g0, m, exact, y);
    AgreeTransitive(g0, x, y, c);
    AgreeOpens(g0, x, c);
    assert RewordsType(g0, g0[c], g[c]);
    SameShapeSameHeader(g[c], g0[c]);
    SameShapeSameHeader(out[NewId(m, y)], g[c]);
    if IsFwdLike(g0[x]) || IsFwdLike(g0[c]) {
      ForwardMatches(g0, out, k + 1, x, NewId(m, y));
    } else {
      var rx, ro := Refs(g0[x]), Refs(out[NewId(m, y)]);
      forall i | 0 <= i < |rx| ensures MatchTo(g0, out, k, rx[i], ro[i]) {
        assert Agree(g0, rx[i], Refs(g0[c])[i]) && Agree(g0, Refs(g0[c])[i], Refs(g[c])[i]);
        AgreeTransitive(g0, rx[i], Refs(g0[c])[i], Refs(g[c])[i]);
        assert OutputMatch(g0, m, out, k, rx[i], Refs(g[c])[i]);
      }
      assert RefsBelow(out[NewId(m, y)], |out|);
      StepMatches(g0, out, k, x, NewId(m, y));
    }
  }

  lemma MapFacts(g0: Graph, g: Graph, m: IdMap, exact: bool)
    requires MapInv(g0, m, exact)
    ensures Closed(g0) && Ranked(g0, m) && |m| == |g0|
  {
  }

  lemma {:induction false} OutputMatches(g0: Graph, g: Graph, m: IdMap, exact: bool, out: Graph, k: nat)
    requires MapInv(g0, m, exact) && AllMapped(m) && Closed(g) && Consistent(g0) && Rewords(g0, g)
    requires IsOutput(g, m, out) && Closed(out)
    ensures OutputMatchesTo(g0, m, out, k)
  {
    hide Consistent, MapInv, IsOutput, AllMapped, Agree, Rewords, Closed, Ranked, Root, NewId, CanonCount, MatchTo;
    MapFacts(g0, g, m, exact);
    if k > 0 {
      OutputMatches(g0, g, m, exact, out, k - 1);
    }
    forall x, y | 0 <= x < |g0| && 0 <= y < |g0| && Agree(g0, x, y) ensures OutputMatch(g0, m, out, k, x, y) {
      if k > 0 {
        OutputMatchNext(g0, g, m, exact, out, k - 1, x, y);
      } else {
        OutputAt(g0, g, m, exact, out, y);
        NothingToMatch(g0, out, x, NewId(m, y));
      }
    }
  }

  /** Every input type agrees, to depth `k` and up to forwards, with its output type. */
  ghost predicate AgreesTo(g0: Graph, m: IdMap, out: Graph, k: nat)
    requires Closed(g0) && Closed(out) && |m| == |g0|
  {
    forall x {:trigger NewId(m, x)} :: 0 <= x < |g0| ==>
      Root(m, x) < |m| && NewId(m, x) < |out| && MatchTo(g0, out, k, x, NewId(m, x))
  }

  ghost predicate KeptUpToForwards(g0: Graph, m: IdMap, out: Graph)
    requires Closed(g0) && Closed(out) && |m| == |g0|
  {
    forall k: nat :: AgreesTo(g0, m, out, k)
  }

  /** Where forwards have one meaning each, resolving them loses nothing else: every type
      agrees with its output type up to forwards at every depth. */
  lemma OutputAgrees(g0: Graph, g: Graph, m: IdMap, exact: bool, out: Graph)
    requires MapInv(g0, m, exact) && AllMapped(m) && Closed(g) && Consistent(g0) && Rewords(g0, g)
    requires IsOutput(g, m, out) && Closed(out)
    ensures KeptUpToForwards(g0, m, out)
  {
    hide Consistent, MapInv, IsOutput, AllMapped, Agree, Rewords;
    InvParts(g0, m, exact);
    forall k: nat ensures AgreesTo(g0, m, out, k) {
      OutputMatches(g0, g, m, exact, out, k);
      forall x | 0 <= x < |g0|
        ensures Root(m, x) < |m| && NewId(m, x) < |out| && MatchTo(g0, out, k, x, NewId(m, x))
      {
        AgreeItself(g0, x);
        assert OutputMatch(g0, m, out, k, x, x);
      }
    }
  }

  // ---------------------------------------------------------------------------
  // The output spells the input out

  /** The output entry of `y` spells out, to depth `k`, whatever is one with `y`. */
  ghost predicate OutputSpeltTo(g0: Graph, m: IdMap, out: Graph, k: nat)
    requires Closed(g0) && Closed(out) && |m| == |g0|
  {
    forall x, y :: 0 <= x < |g0| && 0 <= y < |g0| && One(g0, m, x, y) ==> OutputSpelt(g0, m, out, k, x, y)
  }

  ghost predicate OutputSpelt(g0: Graph, m: IdMap, out: Graph, k: nat, x: nat, y: nat)
    requires Closed(g0) && Closed(out) && |m| == |g0| && x < |g0| && y < |g0|
  {
    Root(m, y) < |m| && NewId(m, y) < |out| && SpellsTo(g0, out, k, x, NewId(m, y))
  }

  /** What is one with a type is one with its representative, and a definition that is has a
      definition there. */
  lemma OneWithRoot(off: bool, g0: Graph, m: IdMap, exact: bool, x: nat, y: nat)
    requires MapInv(g0, m, exact) && AllMapped(m) && OneWorks(off, g0, m) && LinksOne(g0, m, m)
    requires x < |g0| && y < |g0| && One(g0, m, x, y)
    ensures Root(m, y) < |g0| && One(g0, m, x, Root(m, y)) && (IsFwdLike(g0[Root(m, y)]) ==> IsFwdLike(g0[x]))
  {
    hide One, LinksOne, Closed, Univocal, PlainFwds, ForwardsOne, KeepsMeaning, KeepsAgreement, Consistent;
    var c := Root(m, y);
    RootOne(off, g0, m, m, y);
    OneTransitive(off, g0, m, x, y, c);
    OneOpens(g0, m, x, c);
    RootSpec(g0, m, y);
    RootSpec(g0, m, c);
  }

  lemma OutputSpeltNext(off: bool, g0: Graph, g: Graph, m: IdMap, exact: bool, out: Graph, k: nat, x: nat, y: nat)
    requires MapInv(g0, m, exact) && AllMapped(m) && Closed(g) && OneWorks(off, g0, m)
    requires LinksOne(g0, m, m) && Respells(g0, m, g)
    requires IsOutput(g, m, out) && Closed(out) && x < |g0| && y < |g0|
    requires OutputSpeltTo(g0, m, out, k) && One(g0, m, x, y)
    ensures OutputSpelt(g0, m, out, k + 1, x, y)
  {
    hide MapInv, SpellsTo, IsOutput, AllMapped, One, LinksOne, Univocal, PlainFwds, ForwardsOne;
    InvParts(g0, m, exact);
    var c := Root(m, y);
    OutputAt(g0, g, m, exact, out, y);
    OneWithRoot(off, g0, m, exact, x, y);
    OneOpens(g0, m, x, c);
    assert RespellsType(g0, m, g0[c], g[c]);
    SameShapeSameHeader(g[c], g0[c]);
    SameShapeSameHeader(out[NewId(m, y)], g[c]);
    hide Root, NewId;
    if IsFwdLike(g0[x]) {
      ForwardSpelt(g0, out, k + 1, x, NewId(m, y));
    } else {
      var rx, ro := Refs(g0[x]), Refs(out[NewId(m, y)]);
      forall i | 0 <= i < |rx| ensures SpellsTo(g0, out, k, rx[i], ro[i]) {
        assert One(g0, m, rx[i], Refs(g0[c])[i]) && One(g0, m, Refs(g0[c])[i], Refs(g[c])[i]);
        OneTransitive(off, g0, m, rx[i], Refs(g0[c])[i], Refs(g[c])[i]);
        assert OutputSpelt(g0, m, out, k, rx[i], Refs(g[c])[i]);
      }
      assert RefsBelow(out[NewId(m, y)], |out|);
      StepSpells(g0, out, k, x, NewId(m, y));
    }
  }

  lemma {:induction false} OutputSpeltAll(off: bool, g0: Graph, g: Graph, m: IdMap, exact: bool, out: Graph, k: nat)
    requires MapInv(g0, m, exact) && AllMapped(m) && Closed(g) && OneWorks(off, g0, m)
    requires Ranked(g0, m) && LinksOne(g0, m, m) && Respells(g0, m, g)
    requires IsOutput(g, m, out) && Closed(out)
    ensures OutputSpeltTo(g0, m, out, k)
  {
    hide MapInv, IsOutput, AllMapped, One, OneWorks, LinksOne, Respells, Closed, Ranked, Root, NewId, SpellsTo;
    MapFacts(g0, g, m, exact);
    if k > 0 {
      OutputSpeltAll(off, g0, g, m, exact, out, k - 1);
    }
    forall x, y | 0 <= x < |g0| && 0 <= y < |g0| && One(g0, m, x, y) ensures OutputSpelt(g0, m, out, k, x, y) {
      if k > 0 {
        OutputSpeltNext(off, g0, g, m, exact, out, k - 1, x, y);
      } else {
        OutputAt(g0, g, m, exact, out, y);
        NothingToSpell(g0, out, x, NewId(m, y));
      }
    }
  }

  /** Every output type spells out, to depth `k`, the input types it stands for. */
  ghost predicate SpellsAllTo(g0: Graph, m: IdMap, out: Graph, k: nat)
    requires Closed(g0) && Closed(out) && |m| == |g0|
  {
    forall x {:trigger NewId(m, x)} :: 0 <= x < |g0| ==>
      Root(m, x) < |m| && NewId(m, x) < |out| && SpellsTo(g0, out, k, x, NewId(m, x))
  }

  ghost predicate KeptSpelt(g0: Graph, m: IdMap, out: Graph)
    requires Closed(g0) && Closed(out) && |m| == |g0|
  {
    forall k: nat :: SpellsAllTo(g0, m, out, k)
  }

  /** Where all definitions of a forward mean the same, resolving loses nothing at all: every
      type is spelt out by its output type at every depth, which differs from it only in having
      definitions for forwards. */
  lemma OutputSpells(off: bool, g0: Graph, g: Graph, m: IdMap, exact: bool, out: Graph)
    requires MapInv(g0, m, exact) && AllMapped(m) && Closed(g) && SpellInv(true, off, g0, g, m)
    requires Univocal(g0) && PlainFwds(g0)
    requires IsOutput(g, m, out) && Closed(out)
    ensures KeptSpelt(g0, m, out)
  {
    hide MapInv, IsOutput, AllMapped, Univocal, PlainFwds, LinksOne, Respells, ForwardsOne, Ranked, SpellsTo, Closed;
    hide One;
    MapFacts(g0, g, m, exact);
    forall k: nat ensures SpellsAllTo(g0, m, out, k) {
      OutputSpeltAll(off, g0, g, m, exact, out, k);
      forall x | 0 <= x < |g0|
        ensures Root(m, x) < |m| && NewId(m, x) < |out| && SpellsTo(g0, out, k, x, NewId(m, x))
      {
        OneAsItself(g0, m, x);
        assert OutputSpelt(g0, m, out, k, x, x);
      }
    }
  }

  /** Every type keeps its name, and its kind or the one it announces; definitions stay
      definitions. */
  ghost predicate DefinitionsStay(g0: Graph, out: Graph, newIds: seq<nat>)
    requires |newIds| == |g0|
  {
    forall x :: 0 <= x < |g0| ==>
      newIds[x] < |out| && out[newIds[x]].name == g0[x].name && Stays(g0[x], out[newIds[x]])
  }

  lemma DefinitionsKept(g0: Graph, g: Graph, m: IdMap, out: Graph)
    requires MapInv(g0, m, false) && AllMapped(m) && Closed(g) && SameShapes(g0, g) && IsOutput(g, m, out)
    requires forall x :: 0 <= x < |m| ==> Root(m, x) < |m|
    ensures DefinitionsStay(g0, out, NewIds(m))
  {
    hide MapInv, AllMapped, Closed, IsOutput, Root, NewId, Stays, SameShapes;
    MapFacts(g0, g, m, false);
    forall x | 0 <= x < |g0|
      ensures NewIds(m)[x] < |out| && out[NewIds(m)[x]].name == g0[x].name && Stays(g0[x], out[NewIds(m)[x]])
    {
      DefinitionKept(g0, g, m, out, x);
      assert NewIds(m)[x] == NewId(m, x);
    }
  }

  lemma DefinitionKept(g0: Graph, g: Graph, m: IdMap, out: Graph, x: nat)
    requires MapInv(g0, m, false) && AllMapped(m) && Closed(g) && SameShapes(g0, g) && IsOutput(g, m, out)
    requires x < |m|
    ensures |m| == |g0| && Root(m, x) < |m| && NewId(m, x) < |out|
    ensures out[NewId(m, x)].name == g0[x].name && Stays(g0[x], out[NewId(m, x)])
  {
    MapFacts(g0, g, m, false);
    OutputAt(g0, g, m, false, out, x);
    var c, t := Root(m, x), out[NewId(m, x)];
    RootKeeps(g0, m, false, x);
    UnresolvedRoot(g0, m, false, x);
    assert WellFormed(g0[c]) && WellFormed(g[c]) && Shape(g[c]) == Shape(g0[c]);
    hide MapInv, AllMapped, Closed, IsOutput, Root, NewId, Stays, SameShapes, FamilyOf, Shape, Refs;
    ShapeKeeps(g[c]);
    ShapeKeeps(g0[c]);
    ShapeKeeps(t);
    SetRefsSpec(g[c], NewRefs(m, Refs(g[c])));
    FamilyStays(g0[x], t);
  }

  ghost predicate NoOutputDuplicates(off: bool, out: Graph) {
    forall a, b :: 0 <= a < |out| && 0 <= b < |out| && a != b ==> Distinct(off, out[a], out[b])
  }

  lemma NotDuplicates(off: bool, t: BtfType, u: BtfType)
    requires IsFlat(t.info.kind) ==> !Duplicates(off, t, u)
    ensures Distinct(off, t, u)
  {
  }

  /** A resolved forward shows in the output: its entry is a definition. */
  lemma ResolvedShows(g0: Graph, g: Graph, m: IdMap, out: Graph, x: nat)
    requires MapInv(g0, m, false) && AllMapped(m) && Closed(g) && SameShapes(g0, g) && IsOutput(g, m, out)
    requires x < |g0|
    ensures Root(m, x) < |m| && NewId(m, x) < |out|
    ensures Resolves(g0, m, x) ==> !IsFwdLike(out[NewId(m, x)])
    ensures Unresolved(g0, m) ==> (IsFwdLike(out[NewId(m, x)]) <==> IsFwdLike(g0[x]))
  {
    OutputAt(g0, g, m, false, out, x);
    SameShapeSameHeader(out[NewId(m, x)], g[Root(m, x)]);
    SameShapeSameHeader(g[Root(m, x)], g0[Root(m, x)]);
    UnresolvedRoot(g0, m, false, x);
    if Resolves(g0, m, x) {
      RootSpec(g0, m, x);
      UnresolvedRoot(g0, m, false, m[x]);
      assert Root(m, x) == Root(m, m[x]);
    }
  }

  /** Every forward of the input is a forward of the output. */
  ghost predicate ForwardsStay(g0: Graph, out: Graph, newIds: seq<nat>)
    requires |newIds| == |g0|
  {
    forall x :: 0 <= x < |g0| && IsFwdLike(g0[x]) ==> newIds[x] < |out| && IsFwdLike(out[newIds[x]])
  }

  /** An output entry that differs from its forward unfolds differently. */
  lemma ResolvedDiffers(g0: Graph, m: IdMap, out: Graph, x: nat)
    requires Closed(g0) && Closed(out) && |m| == |g0| && x < |g0| && IsFwdLike(g0[x])
    requires MeaningTo(g0, m, out, 1)
    ensures Root(m, x) < |m| && NewId(m, x) < |out| && IsFwdLike(out[NewId(m, x)])
  {
    assert Root(m, x) < |m| && Unfold(out, 1, NewId(m, x)) == Unfold(g0, 1, x);
    SameShapeSameHeader(out[NewId(m, x)], g0[x]);
  }

  /** Deduplication is complete on everything but structs and unions. */
  lemma OutputIsDeduplicated(off: bool, g0: Graph, g: Graph, m: IdMap, table: seq<(int, nat)>, out: Graph)
    requires DedupInv(off, g0, g, m, table) && AllMapped(m) && RefInv(g0, g, m, []) && IsOutput(g, m, out)
    requires PlainFwds(g0)
    ensures NoOutputDuplicates(off, out)
  {
    hide Duplicates, Distinct, IsFlat, DedupInv, RefInv, IsOutput, AllMapped, PlainFwds;
    forall a, b | 0 <= a < |out| && 0 <= b < |out| && a != b ensures Distinct(off, out[a], out[b]) {
      if IsFlat(out[a].info.kind) {
        OutputPairDistinct(off, g0, g, m, table, out, a, b);
      }
      NotDuplicates(off, out[a], out[b]);
    }
  }

  lemma OutputPairDistinct(off: bool, g0: Graph, g: Graph, m: IdMap, table: seq<(int, nat)>, out: Graph,
                           a: nat, b: nat)
    requires DedupInv(off, g0, g, m, table) && AllMapped(m) && RefInv(g0, g, m, []) && IsOutput(g, m, out)
    requires PlainFwds(g0) && a < |out| && b < |out| && a != b && IsFlat(out[a].info.kind)
    ensures !Duplicates(off, out[a], out[b])
  {
    var x, y := CanonIds(m, |m|)[a], CanonIds(m, |m|)[b];
    assert OutputEntry(g, m, out, a) && OutputEntry(g, m, out, b);
    SetRefsSpec(g[x], NewRefs(m, Refs(g[x])));
    SetRefsSpec(g[y], NewRefs(m, Refs(g[y])));
    assert WellFormed(g[x]) && WellFormed(g[y]);
    assert x != y && !Duplicates(off, g[x], g[y]);
    if out[a] == out[b] {
      SameNewRefs(off, g0, g, m, x, y);
      ShapeAndRefsDetermine(g[x], g[y]);
    } else if out[a].info.kind == Enum && CompatibleEnums(out[a], out[b]) {
      assert out[a].info.(vlen := 0).kind == out[b].info.(vlen := 0).kind;
      assert out[a] == g[x] && out[b] == g[y];
    }
  }

  /** Renumbering keeps distinct canonical references distinct. */
  lemma SameNewRefs(off: bool, g0: Graph, g: Graph, m: IdMap, x: nat, y: nat)
    requires MapInv(g0, m, Unresolved(g0, m)) && AllMapped(m) && RefInv(g0, g, m, []) && Closed(g) && SameShapes(g0, g)
    requires x < |m| && y < |m| && CanRemap(m, g[x]) && CanRemap(m, g[y])
    requires IsFlat(g[x].info.kind) && g[y].info == g[x].info
    requires PlainFwds(g0)
    requires NewRefs(m, Refs(g[x])) == NewRefs(m, Refs(g[y]))
    ensures Refs(g[x]) == Refs(g[y])
  {
    SameInfo(g0, g);
    assert WellFormed(g[x]) && WellFormed(g[y]);
    assert RefEntry(g0, g, m, [], x) && RefEntry(g0, g, m, [], y);
    hide MapInv, RefInv, SameShapes, Closed, CanonCount;
    if IsRefKind(g[x].info.kind) {
      assert |Refs(g[x])| == |NewRefs(m, Refs(g[x]))| == |Refs(g[y])|;
      forall i | 0 <= i < |Refs(g[x])| ensures Refs(g[x])[i] == Refs(g[y])[i] {
        assert SlotResolved(g0, g, m, x, i) && SlotResolved(g0, g, m, y, i);
        var u, v := Refs(g[x])[i], Refs(g[y])[i];
        assert NewRefs(m, Refs(g[x]))[i] == NewId(m, u) && NewRefs(m, Refs(g[y]))[i] == NewId(m, v);
        NewIdRenumbers(g0, m, Unresolved(g0, m), u, v);
        assert Step(m, u) == u && Step(m, v) == v;
      }
    }
  }

  // ---------------------------------------------------------------------------
  // What the passes over the types promise together

  ghost function NewIds(m: IdMap): (ids: seq<nat>)
    requires forall x :: 0 <= x < |m| ==> Root(m, x) < |m|
    ensures |ids| == |m|
  {
    seq(|m|, x requires 0 <= x < |m| => NewId(m, x))
  }

  lemma RootsInRange(g: Graph, m: IdMap, exact: bool)
    requires MapInv(g, m, exact)
    ensures forall x :: 0 <= x < |m| ==> Root(m, x) < |m|
  {
    forall x | 0 <= x < |m| ensures Root(m, x) < |m| {
      RootKeeps(g, m, exact, x);
    }
  }

  /** The new ids stay in range and use up the range. */
  lemma NewIdsOnto(g: Graph, m: IdMap, exact: bool)
    requires MapInv(g, m, exact) && AllMapped(m)
    ensures forall x :: 0 <= x < |m| ==> Root(m, x) < |m|
    ensures forall x :: 0 <= x < |m| ==> NewIds(m)[x] < CanonCount(m, |m|)
    ensures forall k :: 0 <= k < CanonCount(m, |m|) ==> k in NewIds(m)
  {
    RootsInRange(g, m, exact);
    forall x | 0 <= x < |m| ensures NewIds(m)[x] < CanonCount(m, |m|) {
      NewIdRenumbers(g, m, exact, x, x);
    }
    forall k | 0 <= k < CanonCount(m, |m|) ensures k in NewIds(m) {
      NewIdOnto(m, k);
      assert NewIds(m)[CanonIds(m, |m|)[k]] == k;
    }
  }

  /** `out` under the final map `m`: a closed graph numbered by `NewIds`, in which every
      type means what it did exactly when no forward was resolved, which exactly shows
      in the forwards themselves; definitions stay definitions whatever is resolved. */
  ghost predicate ResultOk(off: bool, g0: Graph, m: IdMap, out: Graph) {
    && MapInv(g0, m, false) && AllMapped(m)
    && Closed(out) && |out| == CanonCount(m, |m|)
    && (forall x :: 0 <= x < |m| ==> Root(m, x) < |m|)
    && (SameMeaning(g0, m, out) <==> ForwardsStay(g0, out, NewIds(m)))
    && (off ==> ForwardsStay(g0, out, NewIds(m)))
    && (PlainFwds(g0) ==> NoOutputDuplicates(off, out))
    && DefinitionsStay(g0, out, NewIds(m))
    && (Consistent(g0) ==> KeptUpToForwards(g0, m, out))
    && (Univocal(g0) && PlainFwds(g0) ==> KeptSpelt(g0, m, out))
  }

  lemma ForwardsStayWhenUnresolved(g0: Graph, g: Graph, m: IdMap, out: Graph)
    requires MapInv(g0, m, false) && AllMapped(m) && Closed(g) && SameShapes(g0, g) && IsOutput(g, m, out)
    requires forall x :: 0 <= x < |m| ==> Root(m, x) < |m|
    ensures Unresolved(g0, m) <==> ForwardsStay(g0, out, NewIds(m))
  {
    forall x | 0 <= x < |g0|
      ensures NewIds(m)[x] < |out|
      ensures Resolves(g0, m, x) ==> !IsFwdLike(out[NewIds(m)[x]])
      ensures Unresolved(g0, m) ==> (IsFwdLike(out[NewIds(m)[x]]) <==> IsFwdLike(g0[x]))
    {
      ResolvedShows(g0, g, m, out, x);
      assert NewIds(m)[x] == NewId(m, x);
    }
  }

  lemma OutputVerdict(off: bool, g0: Graph, g: Graph, m: IdMap, table: seq<(int, nat)>, out: Graph)
    requires DedupInv(off, g0, g, m, table) && SpellInv(true, off, g0, g, m)
    requires AllMapped(m) && RefInv(g0, g, m, []) && IsOutput(g, m, out)
    ensures ResultOk(off, g0, m, out)
  {
    hide SpellInv, Univocal, PlainFwds, SpellsAllTo, NewId, CanonCount, Root, OutputEntry, RefInv, Consistent, Rewrites;
    hide Rewords, TableSound, TableComplete, NoDuplicates, SameShapes, KeepsMeaning, KeepsAgreement, MeaningTo;
    hide KeptUpToForwards, KeptSpelt, DefinitionsStay, NoOutputDuplicates;
    OutputClosed(g0, g, m, false, out);
    RootsInRange(g0, m, false);
    ForwardsStayWhenUnresolved(g0, g, m, out);
    if Unresolved(g0, m) {
      forall k: nat ensures MeaningTo(g0, m, out, k) {
        OutputMeaning(g0, g, m, out, k);
      }
    } else if SameMeaning(g0, m, out) {
      assert MeaningTo(g0, m, out, 1);
      forall x | 0 <= x < |g0| && IsFwdLike(g0[x])
        ensures NewIds(m)[x] < |out| && IsFwdLike(out[NewIds(m)[x]])
      {
        ResolvedDiffers(g0, m, out, x);
        assert NewIds(m)[x] == NewId(m, x);
      }
    }
    if PlainFwds(g0) {
      OutputIsDeduplicated(off, g0, g, m, table, out);
    }
    if Consistent(g0) {
      OutputAgrees(g0, g, m, false, out);
    }
    DefinitionsKept(g0, g, m, out);
    if Univocal(g0) && PlainFwds(g0) {
      OutputSpells(off, g0, g, m, false, out);
    }
  }
}
