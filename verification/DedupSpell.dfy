/** Merging an accepted comparison spells forwards out: whatever it set a forward against is
    what the forward has been resolved to, so that afterwards all that was compared is one. */
module DedupSpell {
  import opened BtfTypes
  import opened BtfCompare
  import opened BtfGraph
  import opened BtfAgree
  import opened DedupMap
  import opened DedupOne

  /** Every entry of `m` points at a type that is one with its own as far as `mm` goes. */
  ghost predicate LinksOne(g: Graph, m: IdMap, mm: IdMap)
    requires Closed(g) && Ranked(g, m)
  {
    forall x {:trigger Mapped(m, x)} :: 0 <= x < |m| && Mapped(m, x) ==> LinkOk(g, m, x) && One(g, mm, x, m[x])
  }

  /** What makes being one transitive. */
  ghost predicate OneWorks(off: bool, g: Graph, mm: IdMap) {
    Closed(g) && Univocal(g) && PlainFwds(g) && ForwardsOne(off, g, mm)
  }

  lemma LinksLater(g: Graph, m: IdMap, mm: IdMap, mm': IdMap)
    requires Closed(g) && Ranked(g, m) && LinksOne(g, m, mm) && Grows(g, mm, mm')
    ensures LinksOne(g, m, mm')
  {
    hide One, Grows, Closed;
    forall x | 0 <= x < |m| && Mapped(m, x) ensures LinkOk(g, m, x) && One(g, mm', x, m[x]) {
      assert One(g, mm, x, m[x]);
      GrowsKeeps(g, mm, mm', x, m[x]);
    }
  }

  lemma StepOne(g: Graph, m: IdMap, mm: IdMap, x: nat)
    requires Closed(g) && Ranked(g, m) && LinksOne(g, m, mm) && x < |g|
    ensures Step(m, x) < |g| && One(g, mm, x, Step(m, x))
  {
    hide OneTo, Closed;
    if Mapped(m, x) {
      assert LinkOk(g, m, x);
    } else {
      OneAsItself(g, mm, x);
    }
  }

  lemma RootOne(off: bool, g: Graph, m: IdMap, mm: IdMap, x: nat)
    requires OneWorks(off, g, mm) && Ranked(g, m) && LinksOne(g, m, mm) && x < |g|
    ensures Root(m, x) < |g| && One(g, mm, x, Root(m, x)) && One(g, mm, Root(m, x), x)
  {
    hide LinksOne, One, Univocal, PlainFwds, ForwardsOne, Closed, Step, Ranked;
    var y := Step(m, x);
    StepOne(g, m, mm, x);
    StepOne(g, m, mm, y);
    var z := Step(m, y);
    StepOne(g, m, mm, z);
    OneTransitive(off, g, mm, x, y, z);
    OneTransitive(off, g, mm, x, z, Step(m, z));
    OneSymmetric(g, mm, x, Step(m, z));
  }

  // ---------------------------------------------------------------------------
  // What merging spells out

  lemma MergeStepGrows(g: Graph, m: IdMap, c: nat, a: nat)
    requires MapInv(g, m, false) && PairOk(g, false, c, a)
    ensures Grows(g, m, MergeStep(g, m, c, a))
  {
    hide Consistent, Agree, Alike, KeepsMeaning, KeepsAgreement, Grows;
    var t, r := Root(m, a), Root(m, c);
    RootKeeps(g, m, false, a);
    RootKeeps(g, m, false, c);
    MergeStepKeeps(g, m, false, c, a);
    if g[t].info.kind != Fwd && g[r].info.kind == Fwd {
      LinkGrows(g, m, r, t);
    } else if g[t].info.kind == Fwd && g[r].info.kind != Fwd {
      LinkGrows(g, m, t, r);
    } else if IsComposite(g[t].info.kind) && g[r].info.kind != Fwd && Mapped(m, r) && !Mapped(m, t) {
      LinkGrows(g, m, t, r);
    } else {
      GrowsItself(g, m);
    }
  }

  lemma GrowsItself(g: Graph, m: IdMap)
    ensures Grows(g, m, m)
  {
  }

  /** A FWD set against a definition has been resolved. */
  predicate PairSpelt(g: Graph, m: IdMap, c: nat, a: nat)
    requires a < |g| && c < |g|
  {
    && (g[a].info.kind != Fwd && g[c].info.kind == Fwd ==> Spelt(g, m, c))
    && (g[c].info.kind != Fwd && g[a].info.kind == Fwd ==> Spelt(g, m, a))
  }

  lemma PairStaysSpelt(g: Graph, m: IdMap, m': IdMap, c: nat, a: nat)
    requires a < |g| && c < |g| && Grows(g, m, m') && PairSpelt(g, m, c, a)
    ensures PairSpelt(g, m', c, a)
  {
    hide Spelt, OneForward;
  }

  lemma MergeStepSpells(g: Graph, m: IdMap, c: nat, a: nat)
    requires MapInv(g, m, false) && PairOk(g, false, c, a)
    ensures PairSpelt(g, MergeStep(g, m, c, a), c, a)
  {
    MergeStepGrows(g, m, c, a);
    MergeStepKeeps(g, m, false, c, a);
    if g[a].info.kind != Fwd && g[c].info.kind == Fwd {
      SpellsForward(g, m, c, a, c, a);
    }
    if g[c].info.kind != Fwd && g[a].info.kind == Fwd {
      SpellsForward(g, m, c, a, a, c);
    }
  }

  /** The forward `f` of a pair whose other side is the definition `d`. */
  lemma SpellsForward(g: Graph, m: IdMap, c: nat, a: nat, f: nat, d: nat)
    requires MapInv(g, m, false) && PairOk(g, false, c, a) && ((f == c && d == a) || (f == a && d == c))
    requires g[f].info.kind == Fwd && g[d].info.kind != Fwd
    requires MapInv(g, MergeStep(g, m, c, a), false) && Grows(g, m, MergeStep(g, m, c, a))
    ensures Spelt(g, MergeStep(g, m, c, a), f)
  {
    hide Consistent, Agree, Alike, KeepsMeaning, KeepsAgreement;
    var m' := MergeStep(g, m, c, a);
    var s, e := Root(m, f), Root(m, d);
    RootKeeps(g, m, false, f);
    RootKeeps(g, m, false, d);
    UnresolvedRoot(g, m, false, d);
    InvParts(g, m', false);
    if g[s].info.kind == Fwd {
      assert m' == m[s := e];
      hide MergeStep, Root, MapInv;
      DefinitionSpelt(g, m', e);
      RootSpec(g, m', s);
      RootThrough(g, m, s, e, f);
    } else {
      assert Spelt(g, m, f);
    }
  }

  /** A representative that gets a representative takes all along. */
  lemma RootThrough(g: Graph, m: IdMap, s: nat, e: nat, f: nat)
    requires Ranked(g, m) && s < |g| && e < |g| && f < |g| && Ranked(g, m[s := e]) && Root(m, f) == s
    requires IsFwdLike(g[s]) && !IsFwdLike(g[e])
    ensures Spelt(g, m[s := e], f)
  {
    var m' := m[s := e];
    var u := Step(m, f);
    RootSpec(g, m, f);
    RootSpec(g, m', f);
    StepFwd(g, m, f);
    StepFwd(g, m, u);
    StepFwd(g, m, Step(m, u));
    assert Mapped(m, f) ==> LinkOk(g, m, f);
    assert Mapped(m, u) ==> LinkOk(g, m, u);
    RootSpec(g, m', u);
    RootSpec(g, m', s);
    DefinitionSpelt(g, m', e);
  }

  lemma {:induction false} MergeAllGrows(g: Graph, m: IdMap, list: seq<nat>, h: IdMap)
    requires MapInv(g, m, false) && PairsOk(g, false, list, h)
    ensures Grows(g, m, MergeAll(g, m, list, h))
    ensures forall i :: 0 <= i < |list| ==>
              list[i] < |h| && h[list[i]] < |g| && list[i] < |g| &&
              PairSpelt(g, MergeAll(g, m, list, h), list[i], h[list[i]])
  {
    hide MapInv, MergeStep, Grows, PairSpelt, PairOk, MergeFrame, Refines;
    if list == [] {
      GrowsItself(g, m);
    } else {
      var n := |list| - 1;
      InvParts(g, m, false);
      PairAt(g, list, h, n);
      MergeAllGrows(g, m, list[..n], h);
      var m1 := MergeAll(g, m, list[..n], h);
      InvParts(g, m1, false);
      var m2 := MergeStep(g, m1, list[n], h[list[n]]);
      MergeStepGrows(g, m1, list[n], h[list[n]]);
      MergeStepSpells(g, m1, list[n], h[list[n]]);
      GrowsTrans(g, m, m1, m2);
      forall i | 0 <= i < n
        ensures list[i] < |h| && h[list[i]] < |g| && list[i] < |g| && PairSpelt(g, m2, list[i], h[list[i]])
      {
        assert list[..n][i] == list[i];
        PairStaysSpelt(g, m1, m2, list[i], h[list[i]]);
      }
    }
  }

  lemma PairAt(g: Graph, list: seq<nat>, h: IdMap, n: nat)
    requires Closed(g) && PairsOk(g, false, list, h) && n < |list|
    ensures list[n] < |h| && list[n] < |g| && h[list[n]] < |g| && PairOk(g, false, list[n], h[list[n]])
    ensures PairsOk(g, false, list[..n], h)
  {
    hide PairOk;
    assert PairOk(g, false, list[n], h[list[n]]);
    PairIds(g, list[n], h[list[n]]);
    forall i | 0 <= i < n ensures list[..n][i] < |h| && PairOk(g, false, list[..n][i], h[list[..n][i]]) {
      assert PairOk(g, false, list[i], h[list[i]]);
    }
  }

  lemma PairIds(g: Graph, c: nat, a: nat)
    requires Closed(g) && PairOk(g, false, c, a)
    ensures a < |g| && c < |g|
  {
  }

  // ---------------------------------------------------------------------------
  // What was compared is one once it has been merged

  /** A forward recorded against a definition has been resolved in `mm`. */
  ghost predicate MixedSpelt(g: Graph, mm: IdMap, h: IdMap, c: nat)
    requires |h| == |g| && c < |g|
  {
    h[c] < |g| &&
    (Mixed(g, h[c], c) ==> Spelt(g, mm, if IsFwdLike(g[c]) then c else h[c]))
  }

  ghost predicate AllMixedSpelt(g: Graph, mm: IdMap, h: IdMap)
    requires |h| == |g|
  {
    forall c :: 0 <= c < |h| && h[c] != UNPROCESSED ==> MixedSpelt(g, mm, h, c)
  }

  /** Recorded pairs are one to depth `k`. */
  ghost predicate PairsOneTo(g: Graph, mm: IdMap, h: IdMap, k: nat)
    requires Closed(g) && |h| == |g|
  {
    forall c :: 0 <= c < |h| && h[c] != UNPROCESSED ==> h[c] < |g| && OneTo(g, mm, k, h[c], c)
  }

  /** What a comparison over the map `m` proves by the time of the map `mm`. */
  ghost predicate Compared(off: bool, g: Graph, m: IdMap, mm: IdMap, h: IdMap) {
    && OneWorks(off, g, mm) && Ranked(g, m) && LinksOne(g, m, mm)
    && |h| == |g| && AllChecked(g, m, h, off) && AllMixedSpelt(g, mm, h)
  }

  lemma JustifiedOne(off: bool, g: Graph, m: IdMap, mm: IdMap, h: IdMap, k: nat, a: nat, c: nat)
    requires OneWorks(off, g, mm) && Ranked(g, m) && LinksOne(g, m, mm) && |h| == |g| <= UNPROCESSED
    requires a < |g| && c < |g| && PairsOneTo(g, mm, h, k) && Justified(g, m, h, a, c)
    ensures OneTo(g, mm, k, a, c)
  {
    hide LinksOne, Univocal, PlainFwds, ForwardsOne, Closed, OneTo;
    RootOne(off, g, m, mm, a);
    RootOne(off, g, m, mm, c);
    if Root(m, a) == Root(m, c) {
      OneTransitive(off, g, mm, a, Root(m, a), c);
      assert OneTo(g, mm, k, a, c);
    } else {
      var f := FwdId(g, m, c);
      FwdIdOne(off, g, m, mm, c);
      SameDescriptorOne(g, mm, k, a, h[f]);
      assert OneTo(g, mm, k, h[f], f) && OneTo(g, mm, k, f, c);
      OneToTransitive(off, g, mm, k, a, h[f], f);
      OneToTransitive(off, g, mm, k, a, f, c);
    }
  }

  lemma FwdIdOne(off: bool, g: Graph, m: IdMap, mm: IdMap, c: nat)
    requires OneWorks(off, g, mm) && Ranked(g, m) && LinksOne(g, m, mm) && c < |g|
    ensures One(g, mm, FwdId(g, m, c), c)
  {
    hide LinksOne, Univocal, PlainFwds, ForwardsOne, Closed, OneTo;
    RootOne(off, g, m, mm, c);
    if FwdId(g, m, c) == c {
      OneAsItself(g, mm, c);
    }
  }

  lemma SameDescriptorOne(g: Graph, mm: IdMap, k: nat, x: nat, y: nat)
    requires Closed(g) && x < |g| && y < |g| && (x == y || IdenticalArrays(g, x, y) || IdenticalArrays(g, y, x))
    ensures OneTo(g, mm, k, x, y)
  {
    hide Spelt, OneForward;
    OneItself(g, mm, k, x);
    if k > 0 && x != y {
      OneToOpens(g, mm, k, x, x);
      OneToStep(g, mm, k, x, y);
    }
  }

  lemma CheckedOne(off: bool, g: Graph, m: IdMap, mm: IdMap, h: IdMap, k: nat, c: nat)
    requires Compared(off, g, m, mm, h) && |g| <= UNPROCESSED && c < |g| && h[c] != UNPROCESSED
    requires PairsOneTo(g, mm, h, k)
    ensures h[c] < |g| && OneTo(g, mm, k + 1, h[c], c)
  {
    hide LinksOne, Univocal, PairsOneTo, Justified;
    assert Checked(g, m, h, off, c) && MixedSpelt(g, mm, h, c);
    hide AllChecked, AllMixedSpelt, Ranked;
    var a := h[c];
    if Mixed(g, a, c) {
      assert OneTo(g, mm, k + 1, a, c);
    } else if IsFwdLike(g[c]) {
      PlainFwdsEqual(g, a, c);
      assert OneForward(g, mm, a, c);
    } else {
      hide PlainFwds, ForwardsOne, OneTo;
      SameShapeSameHeader(g[a], g[c]);
      forall i | 0 <= i < |Refs(g[c])|
        ensures Refs(g[a])[i] < |g| && Refs(g[c])[i] < |g| && OneTo(g, mm, k, Refs(g[a])[i], Refs(g[c])[i])
      {
        assert JustifiedSlot(g, m, h, a, c, i);
        JustifiedOne(off, g, m, mm, h, k, Refs(g[a])[i], Refs(g[c])[i]);
      }
      OneToStep(g, mm, k + 1, a, c);
    }
  }

  lemma {:induction false} HypotOne(off: bool, g: Graph, m: IdMap, mm: IdMap, h: IdMap, k: nat)
    requires Compared(off, g, m, mm, h) && |g| <= UNPROCESSED
    ensures PairsOneTo(g, mm, h, k)
  {
    hide LinksOne, Univocal, PlainFwds, ForwardsOne, OneTo, Checked;
    if k > 0 {
      HypotOne(off, g, m, mm, h, k - 1);
    }
    forall c | 0 <= c < |h| && h[c] != UNPROCESSED ensures h[c] < |g| && OneTo(g, mm, k, h[c], c) {
      assert MixedSpelt(g, mm, h, c);
      if k > 0 {
        CheckedOne(off, g, m, mm, h, k - 1, c);
      } else {
        OneNothing(g, mm, h[c], c);
      }
    }
  }

  /** All that a comparison accepted is one. */
  lemma ComparedOne(off: bool, g: Graph, m: IdMap, mm: IdMap, h: IdMap, a: nat, c: nat)
    requires Compared(off, g, m, mm, h) && |g| <= UNPROCESSED && a < |g| && c < |g|
    ensures Justified(g, m, h, a, c) ==> One(g, mm, a, c)
    ensures h[c] != UNPROCESSED ==> h[c] < |g| && One(g, mm, h[c], c)
  {
    hide Univocal, PlainFwds, ForwardsOne, OneTo, Justified, Checked, LinksOne, AllMixedSpelt;
    if Justified(g, m, h, a, c) {
      forall k: nat ensures OneTo(g, mm, k, a, c) {
        HypotOne(off, g, m, mm, h, k);
        JustifiedOne(off, g, m, mm, h, k, a, c);
      }
    }
    if h[c] != UNPROCESSED {
      HypotOne(off, g, m, mm, h, 0);
      forall k: nat ensures OneTo(g, mm, k, h[c], c) {
        HypotOne(off, g, m, mm, h, k);
      }
    }
  }

  /** The merge of a comparison leaves no recorded forward unresolved. */
  lemma MergedSpelt(off: bool, g: Graph, m: IdMap, h: IdMap, list: seq<nat>)
    requires MapInv(g, m, false) && HypotOk(h, list, |g|) && AllChecked(g, m, h, off) && PairsOk(g, false, list, h)
    requires ForwardsOne(off, g, m)
    ensures Grows(g, m, MergeAll(g, m, list, h)) && ForwardsOne(off, g, MergeAll(g, m, list, h))
    ensures AllMixedSpelt(g, MergeAll(g, m, list, h), h)
  {
    hide MapInv, Spelt, OneForward, PairsOk;
    InvParts(g, m, false);
    var mm := MergeAll(g, m, list, h);
    MergeAllGrows(g, m, list, h);
    GrowsForwards(off, g, m, mm);
    forall c | 0 <= c < |h| && h[c] != UNPROCESSED ensures MixedSpelt(g, mm, h, c) {
      assert Checked(g, m, h, off, c);
      var i :| 0 <= i < |list| && list[i] == c;
      assert PairSpelt(g, mm, list[i], h[list[i]]);
      if Mixed(g, h[c], c) {
        MixedPair(off, g, m, mm, h, c);
      }
    }
  }

  lemma MixedPair(off: bool, g: Graph, m: IdMap, mm: IdMap, h: IdMap, c: nat)
    requires Closed(g) && Ranked(g, m) && |h| == |g| && c < |g| && Checked(g, m, h, off, c) && Mixed(g, h[c], c)
    requires PairSpelt(g, mm, c, h[c]) && ForwardsOne(off, g, mm)
    ensures MixedSpelt(g, mm, h, c)
  {
    hide Spelt, OneForward;
    var f, d := if IsFwdLike(g[c]) then c else h[c], if IsFwdLike(g[c]) then h[c] else c;
    if g[f].info.kind == Enum {
      assert g[c].info.kind == Enum && CompatibleEnums(g[h[c]], g[c]);
      assert HasFullEnum(g, f, d);
    }
  }

  // ---------------------------------------------------------------------------
  // The map after the merge

  /** Representatives of a pair that is one are one. */
  lemma RootsOne(off: bool, g: Graph, m: IdMap, mm: IdMap, a: nat, c: nat)
    requires OneWorks(off, g, mm) && Ranked(g, m) && LinksOne(g, m, mm) && a < |g| && c < |g| && One(g, mm, a, c)
    ensures Root(m, a) < |g| && Root(m, c) < |g|
    ensures One(g, mm, Root(m, a), Root(m, c)) && One(g, mm, Root(m, c), Root(m, a))
  {
    hide LinksOne, One, Univocal, PlainFwds, ForwardsOne, Closed, Ranked, Root;
    RootOne(off, g, m, mm, a);
    RootOne(off, g, m, mm, c);
    OneTransitive(off, g, mm, Root(m, a), a, c);
    OneTransitive(off, g, mm, Root(m, a), c, Root(m, c));
    OneSymmetric(g, mm, Root(m, a), Root(m, c));
  }

  lemma MergeStepOne(off: bool, g: Graph, m: IdMap, mm: IdMap, c: nat, a: nat)
    requires OneWorks(off, g, mm) && MapInv(g, m, false) && PairOk(g, false, c, a) && LinksOne(g, m, mm)
    requires One(g, mm, a, c)
    ensures Ranked(g, MergeStep(g, m, c, a)) && LinksOne(g, MergeStep(g, m, c, a), mm)
  {
    hide One, Univocal, PlainFwds, ForwardsOne, Consistent, Agree, KeepsAgreement, FamilyOf;
    MergeStepKeeps(g, m, false, c, a);
    RootsOne(off, g, m, mm, a, c);
    var m' := MergeStep(g, m, c, a);
    var t, r := Root(m, a), Root(m, c);
    hide Root;
    forall x | 0 <= x < |m'| && Mapped(m', x) ensures LinkOk(g, m', x) && One(g, mm, x, m'[x]) {
      if m'[x] == m[x] {
        assert Mapped(m, x);
      }
    }
  }

  lemma {:induction false} MergeAllOne(off: bool, g: Graph, m: IdMap, mm: IdMap, list: seq<nat>, h: IdMap)
    requires OneWorks(off, g, mm) && MapInv(g, m, false) && PairsOk(g, false, list, h) && LinksOne(g, m, mm)
    requires forall i :: 0 <= i < |list| ==>
               list[i] < |h| && list[i] < |g| && h[list[i]] < |g| && One(g, mm, h[list[i]], list[i])
    ensures Ranked(g, MergeAll(g, m, list, h)) && LinksOne(g, MergeAll(g, m, list, h), mm)
  {
    hide MapInv, MergeStep, PairOk, MergeFrame, Refines, One, OneWorks, LinksOne;
    InvParts(g, m, false);
    if list != [] {
      var n := |list| - 1;
      PairAt(g, list, h, n);
      assert forall i :: 0 <= i < n ==> list[..n][i] == list[i];
      MergeAllOne(off, g, m, mm, list[..n], h);
      MergeStepOne(off, g, MergeAll(g, m, list[..n], h), mm, list[n], h[list[n]]);
    }
  }

  /** A comparison once merged: every entry of the map is one with its type again, and so are
      the two types that were compared. */
  lemma MergedOne(off: bool, g: Graph, m: IdMap, h: IdMap, list: seq<nat>, id: nat, cand: nat)
    requires MapInv(g, m, false) && HypotOk(h, list, |g|) && AllChecked(g, m, h, off) && PairsOk(g, false, list, h)
    requires Univocal(g) && PlainFwds(g) && ForwardsOne(off, g, m) && LinksOne(g, m, m)
    requires id < |g| && cand < |g| && Justified(g, m, h, id, cand)
    ensures var mm := MergeAll(g, m, list, h);
            && MapInv(g, mm, false) && Grows(g, m, mm) && ForwardsOne(off, g, mm)
            && LinksOne(g, mm, mm) && One(g, mm, id, cand)
  {
    hide MapInv, Univocal, PlainFwds, ForwardsOne, LinksOne, One, AllChecked, PairsOk, AllMixedSpelt, Grows, Justified;
    InvParts(g, m, false);
    var mm := MergeAll(g, m, list, h);
    MergedSpelt(off, g, m, h, list);
    LinksLater(g, m, m, mm);
    ComparedOne(off, g, m, mm, h, id, cand);
    forall i | 0 <= i < |list|
      ensures list[i] < |h| && list[i] < |g| && h[list[i]] < |g| && One(g, mm, h[list[i]], list[i])
    {
      assert list[i] in list;
      ComparedOne(off, g, m, mm, h, list[i], list[i]);
    }
    MergeAllOne(off, g, m, mm, list, h);
  }
}
