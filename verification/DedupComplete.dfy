/** Why a comparison that fails had to fail.  A comparison records only what it is forced
    to, so any hypothetical map that could justify the pair contains what was recorded,
    up to identical arrays; when it stops, no such map exists. */
module DedupComplete {
  import opened BtfTypes
  import opened BtfCompare
  import opened BtfGraph
  import opened DedupMap

  /** The same id, or another array definition with the same content. */
  predicate Same(g: Graph, x: nat, y: nat)
    requires x < |g| && y < |g|
  {
    x == y || IdenticalArrays(g, x, y)
  }

  /** Another hypothetical map that has everything recorded in `h`. */
  ghost predicate Covers(g: Graph, h: IdMap, h': IdMap)
    requires |h| == |h'| == |g|
  {
    forall c :: 0 <= c < |h| && h[c] != UNPROCESSED ==> h[c] < |g| && h'[c] < |g| && Same(g, h'[c], h[c])
  }

  /** `h'` is a way to bring the comparison begun in `h` to a good end. */
  ghost predicate Completes(g: Graph, m: IdMap, h: IdMap, h': IdMap, off: bool)
    requires Ranked(g, m) && |h| == |g|
  {
    |h'| == |g| && Covers(g, h, h') && NewChecked(g, m, h, h', off)
  }

  /** No way to complete `h` justifies the pair. */
  ghost predicate Refuted(g: Graph, m: IdMap, h: IdMap, off: bool, a: nat, c: nat)
    requires Ranked(g, m) && |h| == |g| && a < |g| && c < |g|
  {
    forall h' :: Completes(g, m, h, h', off) ==> !Justified(g, m, h', a, c)
  }

  /** Every way to complete `h` that justifies the pair has all that is recorded in `r`. */
  ghost predicate Forced(g: Graph, m: IdMap, h: IdMap, r: IdMap, off: bool, a: nat, c: nat)
    requires Ranked(g, m) && |h| == |r| == |g| && a < |g| && c < |g|
  {
    forall h' :: Completes(g, m, h, h', off) && Justified(g, m, h', a, c) ==> Covers(g, r, h')
  }

  /** The same for the slots of a pair. */
  ghost predicate SlotsRefuted(g: Graph, m: IdMap, h: IdMap, off: bool, a: nat, c: nat)
    requires Ranked(g, m) && |h| == |g| && a < |g| && c < |g|
  {
    forall h' :: Completes(g, m, h, h', off) ==> !SlotsJustified(g, m, h', a, c)
  }

  ghost predicate SlotsForced(g: Graph, m: IdMap, h: IdMap, r: IdMap, off: bool, a: nat, c: nat)
    requires Ranked(g, m) && |h| == |r| == |g| && a < |g| && c < |g|
  {
    forall h' :: Completes(g, m, h, h', off) && SlotsJustified(g, m, h', a, c) ==> Covers(g, r, h')
  }

  /** The same for a pair that has been recorded. */
  ghost predicate PairRefuted(g: Graph, m: IdMap, h: IdMap, off: bool, c: nat)
    requires Ranked(g, m) && |h| == |g| && c < |g|
  {
    forall h' :: Completes(g, m, h, h', off) ==> !Checked(g, m, h', off, c)
  }

  ghost predicate PairForced(g: Graph, m: IdMap, h: IdMap, r: IdMap, off: bool, c: nat)
    requires Ranked(g, m) && |h| == |r| == |g| && c < |g|
  {
    forall h' :: Completes(g, m, h, h', off) && Checked(g, m, h', off, c) ==> Covers(g, r, h')
  }

  /** Whether two descriptors can be one type as far as they themselves go. */
  predicate Compatible(off: bool, t: BtfType, u: BtfType) {
    t.name == u.name &&
    if !off && (t.info.kind == Fwd || u.info.kind == Fwd) && t.info.kind != u.info.kind
    then FamilyOf(t) == FamilyOf(u)
    else t.info.kind == u.info.kind && ShallowSame(off, t, u)
  }

  predicate ShallowSame(off: bool, t: BtfType, u: BtfType) {
    if t.info.kind == Enum && !off then CompatibleEnums(t, u)
    else if IsPrimKind(t.info.kind) then t == u
    else Shape(t) == Shape(u)
  }

  // ---------------------------------------------------------------------------
  // Steps

  lemma SameTransitive(g: Graph, x: nat, y: nat, z: nat)
    requires x < |g| && y < |g| && z < |g| && Same(g, x, y)
    ensures Same(g, y, x) && (Same(g, y, z) <==> Same(g, x, z)) && g[x] == g[y]
  {
  }

  /** A completion of `h` that has what `r` records completes `r`. */
  lemma CompletesLater(g: Graph, m: IdMap, h: IdMap, r: IdMap, h': IdMap, off: bool)
    requires Ranked(g, m) && |h| == |r| == |g| && Extends(h, r)
    requires Completes(g, m, h, h', off) && Covers(g, r, h')
    ensures Completes(g, m, r, h', off)
  {
  }

  /** A pair whose canonical side stands for something else already. */
  lemma RecordedRefuted(g: Graph, m: IdMap, h: IdMap, off: bool, a: nat, c: nat)
    requires Ranked(g, m) && |h| == |g| <= UNPROCESSED && a < |g| && c < |g| && Root(m, a) != Root(m, c)
    requires var f := FwdId(g, m, c); h[f] < |g| && !Same(g, h[f], a)
    ensures Refuted(g, m, h, off, a, c)
  {
    var f := FwdId(g, m, c);
    forall h' | Completes(g, m, h, h', off) ensures !Justified(g, m, h', a, c) {
      if h'[f] < |g| {
        SameTransitive(g, h'[f], h[f], a);
      }
    }
  }

  /** Recording a new pair is forced. */
  lemma NewPair(g: Graph, m: IdMap, h: IdMap, off: bool, a: nat, c: nat, h': IdMap)
    requires Ranked(g, m) && |h| == |g| <= UNPROCESSED && a < |g| && c < |g| && Root(m, a) != Root(m, c)
    requires h[FwdId(g, m, c)] == UNPROCESSED && Completes(g, m, h, h', off) && Justified(g, m, h', a, c)
    ensures var f := FwdId(g, m, c); Completes(g, m, h[f := a], h', off) && Checked(g, m, h', off, f)
  {
  }

  lemma NewPairRefuted(g: Graph, m: IdMap, h: IdMap, off: bool, a: nat, c: nat)
    requires Ranked(g, m) && |h| == |g| <= UNPROCESSED && a < |g| && c < |g| && Root(m, a) != Root(m, c)
    requires var f := FwdId(g, m, c); h[f] == UNPROCESSED && PairRefuted(g, m, h[f := a], off, f)
    ensures Refuted(g, m, h, off, a, c)
  {
    forall h' | Completes(g, m, h, h', off) ensures !Justified(g, m, h', a, c) {
      if Justified(g, m, h', a, c) {
        NewPair(g, m, h, off, a, c, h');
      }
    }
  }

  lemma NewPairForced(g: Graph, m: IdMap, h: IdMap, r: IdMap, off: bool, a: nat, c: nat)
    requires Ranked(g, m) && |h| == |r| == |g| <= UNPROCESSED && a < |g| && c < |g| && Root(m, a) != Root(m, c)
    requires var f := FwdId(g, m, c); h[f] == UNPROCESSED && PairForced(g, m, h[f := a], r, off, f)
    ensures Forced(g, m, h, r, off, a, c)
  {
    forall h' | Completes(g, m, h, h', off) && Justified(g, m, h', a, c) ensures Covers(g, r, h') {
      NewPair(g, m, h, off, a, c, h');
    }
  }

  /** A checked pair is of compatible descriptors. */
  lemma CheckedCompatible(g: Graph, m: IdMap, h: IdMap, off: bool, c: nat)
    requires Closed(g) && Ranked(g, m) && |h| == |g| && c < |g| && Checked(g, m, h, off, c)
    ensures Compatible(off, g[h[c]], g[c])
  {
    assert WellFormed(g[h[c]]) && WellFormed(g[c]);
    if g[c].info.kind == Int || g[c].info.kind == Enum {
      WithoutRefs(g[c]);
      if !Mixed(g, h[c], c) {
        SameShapeSameHeader(g[h[c]], g[c]);
        WithoutRefs(g[h[c]]);
      }
    }
  }

  lemma WithoutRefs(t: BtfType)
    requires WellFormed(t) && (t.info.kind == Int || t.info.kind == Enum)
    ensures Shape(t) == t
  {
  }

  /** A recorded pair of descriptors that are not compatible. */
  lemma PairIncompatible(g: Graph, m: IdMap, h: IdMap, off: bool, a: nat, c: nat)
    requires Closed(g) && Ranked(g, m) && |h| == |g| <= UNPROCESSED && a < |g| && c < |g| && h[c] == a
    requires !Compatible(off, g[a], g[c])
    ensures PairRefuted(g, m, h, off, c)
  {
    forall h' | Completes(g, m, h, h', off) ensures !Checked(g, m, h', off, c) {
      SameTransitive(g, h'[c], a, a);
      if Checked(g, m, h', off, c) {
        CheckedCompatible(g, m, h', off, c);
      }
    }
  }

  /** A pair that needs nothing else recorded. */
  lemma PairAlone(g: Graph, m: IdMap, h: IdMap, off: bool, c: nat)
    requires Ranked(g, m) && |h| == |g| && c < |g|
    ensures PairForced(g, m, h, h, off, c)
  {
  }

  lemma JustifiedAlone(g: Graph, m: IdMap, h: IdMap, off: bool, a: nat, c: nat)
    requires Ranked(g, m) && |h| == |g| && a < |g| && c < |g|
    ensures Forced(g, m, h, h, off, a, c)
  {
  }

  /** A checked pair has its slots justified, also read from the id that was recorded. */
  lemma CheckedSlots(g: Graph, m: IdMap, h: IdMap, h': IdMap, off: bool, a: nat, c: nat)
    requires Ranked(g, m) && |h| == |g| <= UNPROCESSED && a < |g| && c < |g| && h[c] == a
    requires Shape(g[a]) == Shape(g[c]) && Completes(g, m, h, h', off) && Checked(g, m, h', off, c)
    ensures SlotsJustified(g, m, h', a, c)
  {
    SameTransitive(g, h'[c], a, a);
    SameShapeSameHeader(g[a], g[c]);
    forall i | 0 <= i < |Refs(g[c])| ensures JustifiedSlot(g, m, h', a, c, i) {
      assert JustifiedSlot(g, m, h', h'[c], c, i);
    }
  }

  lemma PairBySlots(g: Graph, m: IdMap, h: IdMap, r: IdMap, off: bool, a: nat, c: nat)
    requires Ranked(g, m) && |h| == |r| == |g| <= UNPROCESSED && a < |g| && c < |g| && h[c] == a
    requires Shape(g[a]) == Shape(g[c])
    ensures SlotsRefuted(g, m, h, off, a, c) ==> PairRefuted(g, m, h, off, c)
    ensures SlotsForced(g, m, h, r, off, a, c) ==> PairForced(g, m, h, r, off, c)
  {
    forall h' | Completes(g, m, h, h', off) && Checked(g, m, h', off, c) ensures SlotsJustified(g, m, h', a, c) {
      CheckedSlots(g, m, h, h', off, a, c);
    }
  }

  lemma SlotsAlone(g: Graph, m: IdMap, h: IdMap, off: bool, a: nat, c: nat)
    requires Ranked(g, m) && |h| == |g| && a < |g| && c < |g|
    ensures SlotsForced(g, m, h, h, off, a, c)
  {
  }

  lemma NoneCompared(g: Graph, m: IdMap, h: IdMap, off: bool, a: nat, c: nat, order: seq<nat>)
    requires Ranked(g, m) && |h| == |g| && a < |g| && c < |g|
    ensures NewChecked(g, m, h, h, off) && FirstJustified(g, m, h, a, c, order, 0)
  {
  }

  /** One slot more is forced, or refuted and with it the pair. */
  lemma NextSlot(g: Graph, m: IdMap, h0: IdMap, h: IdMap, r: IdMap, off: bool, a: nat, c: nat, i: nat)
    requires Ranked(g, m) && |h0| == |h| == |r| == |g| && a < |g| && c < |g| && Extends(h0, h)
    requires SlotsForced(g, m, h0, h, off, a, c) && i < |Refs(g[c])| && i < |Refs(g[a])|
    requires Refs(g[a])[i] < |g| && Refs(g[c])[i] < |g|
    ensures Forced(g, m, h, r, off, Refs(g[a])[i], Refs(g[c])[i]) ==> SlotsForced(g, m, h0, r, off, a, c)
    ensures Refuted(g, m, h, off, Refs(g[a])[i], Refs(g[c])[i]) ==> SlotsRefuted(g, m, h0, off, a, c)
  {
    forall h' | Completes(g, m, h0, h', off) && SlotsJustified(g, m, h', a, c)
      ensures Completes(g, m, h, h', off) && Justified(g, m, h', Refs(g[a])[i], Refs(g[c])[i])
    {
      CompletesLater(g, m, h0, h, h', off);
      assert JustifiedSlot(g, m, h', a, c, i);
    }
  }

  // ---------------------------------------------------------------------------
  // From a clean slate

  /** No consistent correspondence of ids makes `a` and `c` one type. */
  ghost predicate Unmatched(g: Graph, m: IdMap, off: bool, a: nat, c: nat)
    requires Ranked(g, m) && a < |g| && c < |g|
  {
    forall h' :: |h'| == |g| && AllChecked(g, m, h', off) ==> !Justified(g, m, h', a, c)
  }

  lemma FreshRefuted(g: Graph, m: IdMap, h: IdMap, off: bool, a: nat, c: nat)
    requires Ranked(g, m) && |h| == |g| && a < |g| && c < |g| && Refuted(g, m, h, off, a, c)
    requires forall x :: 0 <= x < |h| ==> h[x] == UNPROCESSED
    ensures Unmatched(g, m, off, a, c)
  {
    forall h' | |h'| == |g| && AllChecked(g, m, h', off) ensures !Justified(g, m, h', a, c) {
      assert Completes(g, m, h, h', off);
    }
  }

  /** None of these candidates of equal shape can be `id`. */
  ghost predicate AllUnmatched(g: Graph, m: IdMap, off: bool, id: nat, cands: seq<nat>)
    requires Ranked(g, m) && id < |g|
  {
    forall cand :: cand in cands && cand < |g| && Shape(g[cand]) == Shape(g[id]) ==> Unmatched(g, m, off, id, cand)
  }

  /** No struct or union in the table can be `id`. */
  ghost predicate NoneFiled(g: Graph, m: IdMap, table: seq<(int, nat)>, off: bool, id: nat, h: int)
    requires Ranked(g, m) && id < |g|
  {
    forall cand :: (h, cand) in table && cand < |g| && Shape(g[cand]) == Shape(g[id]) ==> Unmatched(g, m, off, id, cand)
  }

  lemma NoneFiledOf(g: Graph, m: IdMap, table: seq<(int, nat)>, off: bool, id: nat, h: int, cands: seq<nat>)
    requires Ranked(g, m) && id < |g| && AllUnmatched(g, m, off, id, cands)
    requires forall cand :: cand in cands <==> (h, cand) in table
    ensures NoneFiled(g, m, table, off, id, h)
  {
  }

  lemma NoneTried(g: Graph, m: IdMap, off: bool, id: nat, cands: seq<nat>)
    requires Ranked(g, m) && id < |g|
    ensures AllUnmatched(g, m, off, id, cands[..0])
  {
  }

  lemma OneMoreUnmatched(g: Graph, m: IdMap, off: bool, id: nat, cands: seq<nat>, i: nat)
    requires Ranked(g, m) && id < |g| && i < |cands| && AllUnmatched(g, m, off, id, cands[..i])
    requires cands[i] < |g| && Shape(g[cands[i]]) == Shape(g[id]) ==> Unmatched(g, m, off, id, cands[i])
    ensures AllUnmatched(g, m, off, id, cands[..i + 1])
  {
    assert cands[..i + 1] == cands[..i] + [cands[i]];
  }
}
