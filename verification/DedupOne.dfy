/** When two types of the input are one type as far as a canonical map has spelt forwards out.
    Unlike meaning, this is not lost when forwards are resolved; unlike agreement, it tells a
    forward that has been resolved from one that has not. */
module DedupOne {
  import opened BtfTypes
  import opened BtfCompare
  import opened BtfGraph
  import opened BtfAgree
  import opened DedupMap

  /** A definition, or a forward that has been resolved to one. */
  predicate Spelt(g: Graph, m: IdMap, x: nat) {
    Root(m, x) < |g| && !IsFwdLike(g[Root(m, x)])
  }

  /** Two forwards with one representative, or both resolved. */
  predicate OneForward(g: Graph, m: IdMap, x: nat, y: nat) {
    Root(m, x) == Root(m, y) || (Spelt(g, m, x) && Spelt(g, m, y))
  }

  /** One type to depth `k`: a forward and a definition are one if the forward has been
      resolved. */
  ghost predicate OneTo(g: Graph, m: IdMap, k: nat, x: nat, y: nat)
    requires Closed(g) && x < |g| && y < |g|
    decreases k, 0
  {
    k == 0 ||
    (FamilyOf(g[x]) == FamilyOf(g[y]) &&
     if IsFwdLike(g[x]) && IsFwdLike(g[y]) then OneForward(g, m, x, y)
     else if IsFwdLike(g[x]) then Spelt(g, m, x)
     else if IsFwdLike(g[y]) then Spelt(g, m, y)
     else Shape(g[x]) == Shape(g[y]) && OneSlotsTo(g, m, k - 1, Refs(g[x]), Refs(g[y])))
  }

  ghost predicate OneSlotsTo(g: Graph, m: IdMap, k: nat, xs: seq<nat>, ys: seq<nat>)
    requires Closed(g)
    decreases k, 1
  {
    |xs| == |ys| && forall i :: 0 <= i < |xs| ==> xs[i] < |g| && ys[i] < |g| && OneTo(g, m, k, xs[i], ys[i])
  }

  ghost predicate One(g: Graph, m: IdMap, x: nat, y: nat)
    requires Closed(g) && x < |g| && y < |g|
  {
    forall k: nat :: OneTo(g, m, k, x, y)
  }

  ghost predicate OneSlots(g: Graph, m: IdMap, xs: seq<nat>, ys: seq<nat>)
    requires Closed(g)
  {
    |xs| == |ys| && forall i :: 0 <= i < |xs| ==> xs[i] < |g| && ys[i] < |g| && One(g, m, xs[i], ys[i])
  }

  /** The same header but for the number of values. */
  predicate SameEnumHead(t: BtfType, u: BtfType) {
    t.info.kind == Enum && t.name == u.name && t.info.(vlen := 0) == u.info.(vlen := 0) && t.size == u.size
  }

  /** `x` is an enum forward that can be resolved to `y`. */
  predicate HasFullEnum(g: Graph, x: nat, y: nat)
    requires x < |g| && y < |g|
  {
    IsFwdLike(g[x]) && !IsFwdLike(g[y]) && SameEnumHead(g[x], g[y])
  }

  /** Once primitives are deduplicated, forwards of one descriptor are one, and an enum
      forward has been resolved if there is an enum it can be resolved to. */
  ghost predicate ForwardsOne(off: bool, g: Graph, m: IdMap) {
    && (forall x, y :: 0 <= x < |g| && 0 <= y < |g| && IsFwdLike(g[x]) && g[x] == g[y] ==> OneForward(g, m, x, y))
    && (!off ==> forall x, y :: 0 <= x < |g| && 0 <= y < |g| && HasFullEnum(g, x, y) ==> Spelt(g, m, x))
  }

  // ---------------------------------------------------------------------------
  // Later maps

  /** Nothing spelt out is taken back, nothing one comes apart. */
  ghost predicate Grows(g: Graph, m: IdMap, m': IdMap) {
    && (forall x :: 0 <= x < |g| && Spelt(g, m, x) ==> Spelt(g, m', x))
    && (forall x, y :: 0 <= x < |g| && 0 <= y < |g| && OneForward(g, m, x, y) ==> OneForward(g, m', x, y))
  }

  lemma GrowsTrans(g: Graph, m0: IdMap, m1: IdMap, m2: IdMap)
    requires Grows(g, m0, m1) && Grows(g, m1, m2)
    ensures Grows(g, m0, m2)
  {
    hide Spelt, OneForward;
  }

  lemma {:induction false} GrowsKeepsTo(g: Graph, m: IdMap, m': IdMap, k: nat, x: nat, y: nat)
    requires Closed(g) && Grows(g, m, m') && x < |g| && y < |g| && OneTo(g, m, k, x, y)
    ensures OneTo(g, m', k, x, y)
    decreases k
  {
    hide OneTo, OneSlotsTo, Grows, Closed;
    if k == 0 {
      OneNothing(g, m', x, y);
    } else if IsFwdLike(g[x]) || IsFwdLike(g[y]) {
      GrowsAtForward(g, m, m', k, x, y);
    } else {
      OneToOpens(g, m, k, x, y);
      var rx, ry := Refs(g[x]), Refs(g[y]);
      forall i | 0 <= i < |rx| ensures rx[i] < |g| && ry[i] < |g| && OneTo(g, m', k - 1, rx[i], ry[i]) {
        GrowsKeepsTo(g, m, m', k - 1, rx[i], ry[i]);
      }
      OneToStep(g, m', k, x, y);
    }
  }

  lemma GrowsAtForward(g: Graph, m: IdMap, m': IdMap, k: nat, x: nat, y: nat)
    requires Closed(g) && Grows(g, m, m') && x < |g| && y < |g| && OneTo(g, m, k, x, y)
    requires IsFwdLike(g[x]) || IsFwdLike(g[y])
    ensures OneTo(g, m', k, x, y)
  {
    hide Spelt, OneForward, FamilyOf, Closed, OneSlotsTo;
  }

  lemma GrowsKeeps(g: Graph, m: IdMap, m': IdMap, x: nat, y: nat)
    requires Closed(g) && Grows(g, m, m') && x < |g| && y < |g| && One(g, m, x, y)
    ensures One(g, m', x, y)
  {
    hide Grows, OneTo;
    forall k: nat ensures OneTo(g, m', k, x, y) {
      assert OneTo(g, m, k, x, y);
      GrowsKeepsTo(g, m, m', k, x, y);
    }
  }

  lemma GrowsForwards(off: bool, g: Graph, m: IdMap, m': IdMap)
    requires Grows(g, m, m') && ForwardsOne(off, g, m)
    ensures ForwardsOne(off, g, m')
  {
    hide Spelt, OneForward, HasFullEnum;
  }

  lemma DefinitionSpelt(g: Graph, m: IdMap, x: nat)
    requires Ranked(g, m) && x < |g| && !IsFwdLike(g[x])
    ensures Spelt(g, m, x)
  {
    StepFwd(g, m, x);
    StepFwd(g, m, Step(m, x));
    StepFwd(g, m, Step(m, Step(m, x)));
  }

  /** Writing an entry: what was spelt stays so. */
  lemma LinkKeepsSpelt(g: Graph, m: IdMap, x: nat, y: nat, z: nat)
    requires Ranked(g, m) && x < |g| && y < |g| && z < |g| && CanLink(g, m, x, y) && Ranked(g, m[x := y])
    requires Spelt(g, m, z)
    ensures Spelt(g, m[x := y], z)
  {
    var m' := m[x := y];
    var u := Step(m', z);
    if !IsFwdLike(g[z]) {
      DefinitionSpelt(g, m', z);
    } else {
      hide Root, FamilyOf;
      RootSpec(g, m', z);
      RootSpec(g, m', u);
      SpeltLater(g, m, x, y, z);
      if !IsFwdLike(g[u]) {
        DefinitionSpelt(g, m', u);
      } else {
        DefinitionSpelt(g, m', Step(m', u));
      }
    }
  }

  /** A resolved forward is at most two steps from a definition. */
  lemma SpeltLater(g: Graph, m: IdMap, x: nat, y: nat, z: nat)
    requires Ranked(g, m) && x < |g| && y < |g| && z < |g| && CanLink(g, m, x, y) && Ranked(g, m[x := y])
    requires Spelt(g, m, z) && IsFwdLike(g[z])
    ensures var m' := m[x := y]; var u := Step(m', z);
            u < |g| && Step(m', u) < |g| && (!IsFwdLike(g[u]) || !IsFwdLike(g[Step(m', u)]))
  {
    hide FamilyOf;
    var u := Step(m, z);
    assert Mapped(m, z) ==> LinkOk(g, m, z);
    assert Mapped(m, u) ==> LinkOk(g, m, u);
  }

  /** Where a forward that is not resolved ends once an entry is written. */
  lemma UnspeltRoot(g: Graph, m: IdMap, x: nat, y: nat, z: nat)
    requires Ranked(g, m) && x < |g| && y < |g| && z < |g| && CanLink(g, m, x, y) && Ranked(g, m[x := y])
    requires !Spelt(g, m, z)
    ensures Root(m[x := y], z) == if Root(m, z) == x then Root(m[x := y], x) else Root(m, z)
  {
    hide FamilyOf;
    var m' := m[x := y];
    var u := Step(m, z);
    var v := Step(m, u);
    RootSpec(g, m, z);
    RootSpec(g, m', z);
    StepFwd(g, m, z);
    StepFwd(g, m, u);
    StepFwd(g, m, v);
    assert Mapped(m, z) ==> LinkOk(g, m, z);
    assert Mapped(m, u) ==> LinkOk(g, m, u);
    RootSpec(g, m', u);
    RootSpec(g, m', x);
  }

  lemma LinkGrows(g: Graph, m: IdMap, x: nat, y: nat)
    requires Ranked(g, m) && x < |g| && y < |g| && CanLink(g, m, x, y) && Ranked(g, m[x := y])
    ensures Grows(g, m, m[x := y])
  {
    var m' := m[x := y];
    forall z | 0 <= z < |g| && Spelt(g, m, z) ensures Spelt(g, m', z) {
      LinkKeepsSpelt(g, m, x, y, z);
    }
    forall z, w | 0 <= z < |g| && 0 <= w < |g| && OneForward(g, m, z, w) ensures OneForward(g, m', z, w) {
      OneKept(g, m, x, y, z, w);
    }
  }

  lemma OneKept(g: Graph, m: IdMap, x: nat, y: nat, z: nat, w: nat)
    requires Ranked(g, m) && x < |g| && y < |g| && CanLink(g, m, x, y) && Ranked(g, m[x := y])
    requires z < |g| && w < |g| && OneForward(g, m, z, w)
    ensures OneForward(g, m[x := y], z, w)
  {
    hide Root, CanLink, Ranked;
    if Spelt(g, m, z) && Spelt(g, m, w) {
      LinkKeepsSpelt(g, m, x, y, z);
      LinkKeepsSpelt(g, m, x, y, w);
    } else {
      UnspeltRoot(g, m, x, y, z);
      UnspeltRoot(g, m, x, y, w);
    }
  }

  /** Marking an id that is not mapped changes no representative. */
  lemma MarkGrows(g: Graph, m: IdMap, id: nat)
    requires |m| == |g| <= BTF_MAX_NR_TYPES + 1 && id < |m| && m[id] == UNPROCESSED
    ensures Grows(g, m, m[id := IN_PROGRESS])
  {
    var m' := m[id := IN_PROGRESS];
    assert forall z :: Step(m', z) == Step(m, z);
    assert forall z :: Root(m', z) == Root(m, z);
  }

  // ---------------------------------------------------------------------------
  // An equivalence

  lemma {:induction false} OneItself(g: Graph, m: IdMap, k: nat, x: nat)
    requires Closed(g) && x < |g|
    ensures OneTo(g, m, k, x, x)
    decreases k
  {
    assert RefsBelow(g[x], |g|);
    hide OneTo, OneSlotsTo, Closed;
    if k == 0 || IsFwdLike(g[x]) {
      ForwardItself(g, m, k, x);
    } else {
      forall i | 0 <= i < |Refs(g[x])| ensures OneTo(g, m, k - 1, Refs(g[x])[i], Refs(g[x])[i]) {
        OneItself(g, m, k - 1, Refs(g[x])[i]);
      }
      OneToStep(g, m, k, x, x);
    }
  }

  lemma OneAsItself(g: Graph, m: IdMap, x: nat)
    requires Closed(g) && x < |g|
    ensures One(g, m, x, x)
  {
    hide OneTo, Closed;
    forall k: nat ensures OneTo(g, m, k, x, x) {
      OneItself(g, m, k, x);
    }
  }

  lemma ForwardItself(g: Graph, m: IdMap, k: nat, x: nat)
    requires Closed(g) && x < |g| && (k == 0 || IsFwdLike(g[x]))
    ensures OneTo(g, m, k, x, x)
  {
    hide Spelt, Root, Closed, OneSlotsTo;
  }

  lemma {:induction false} OneToSymmetric(g: Graph, m: IdMap, k: nat, x: nat, y: nat)
    requires Closed(g) && x < |g| && y < |g| && OneTo(g, m, k, x, y)
    ensures OneTo(g, m, k, y, x)
    decreases k
  {
    hide OneTo, OneSlotsTo, Closed;
    if k == 0 || IsFwdLike(g[x]) || IsFwdLike(g[y]) {
      SymmetricAtForward(g, m, k, x, y);
    } else {
      OneToOpens(g, m, k, x, y);
      var rx, ry := Refs(g[x]), Refs(g[y]);
      forall i | 0 <= i < |ry| ensures rx[i] < |g| && ry[i] < |g| && OneTo(g, m, k - 1, ry[i], rx[i]) {
        OneToSymmetric(g, m, k - 1, rx[i], ry[i]);
      }
      OneToStep(g, m, k, y, x);
    }
  }

  lemma SymmetricAtForward(g: Graph, m: IdMap, k: nat, x: nat, y: nat)
    requires Closed(g) && x < |g| && y < |g| && OneTo(g, m, k, x, y) && (k == 0 || IsFwdLike(g[x]) || IsFwdLike(g[y]))
    ensures OneTo(g, m, k, y, x)
  {
    hide Spelt, Root, Closed, OneSlotsTo;
  }

  lemma OneSymmetric(g: Graph, m: IdMap, x: nat, y: nat)
    requires Closed(g) && x < |g| && y < |g| && One(g, m, x, y)
    ensures One(g, m, y, x)
  {
    hide OneTo;
    forall k: nat ensures OneTo(g, m, k, y, x) {
      assert OneTo(g, m, k, x, y);
      OneToSymmetric(g, m, k, x, y);
    }
  }

  /** Types that mean the same are one. */
  lemma {:induction false} AlikeOne(off: bool, g: Graph, m: IdMap, k: nat, x: nat, y: nat)
    requires Closed(g) && PlainFwds(g) && ForwardsOne(off, g, m) && x < |g| && y < |g| && Alike(g, x, y)
    ensures OneTo(g, m, k, x, y)
    decreases k
  {
    hide OneTo, OneSlotsTo, Alike, Closed, PlainFwds, ForwardsOne;
    AlikeSameShape(g, x, y);
    if k == 0 {
      OneNothing(g, m, x, y);
    } else if IsFwdLike(g[x]) {
      PlainFwdsEqual(g, x, y);
      EqualForwardOne(off, g, m, k, x, y);
    } else {
      AlikeRefs(g, x, y);
      var rx, ry := Refs(g[x]), Refs(g[y]);
      forall i | 0 <= i < |rx| ensures rx[i] < |g| && ry[i] < |g| && OneTo(g, m, k - 1, rx[i], ry[i]) {
        AlikeOne(off, g, m, k - 1, rx[i], ry[i]);
      }
      OneToStep(g, m, k, x, y);
    }
  }

  lemma EqualForwardOne(off: bool, g: Graph, m: IdMap, k: nat, x: nat, y: nat)
    requires Closed(g) && ForwardsOne(off, g, m) && x < |g| && y < |g| && IsFwdLike(g[x]) && g[x] == g[y]
    ensures OneTo(g, m, k, x, y)
  {
    hide Spelt, OneForward, Closed, OneSlotsTo;
  }

  lemma OneNothing(g: Graph, m: IdMap, x: nat, y: nat)
    requires Closed(g) && x < |g| && y < |g|
    ensures OneTo(g, m, 0, x, y)
  {
  }

  lemma OneToOpens(g: Graph, m: IdMap, k: nat, x: nat, y: nat)
    requires Closed(g) && x < |g| && y < |g| && k > 0 && OneTo(g, m, k, x, y)
    ensures FamilyOf(g[x]) == FamilyOf(g[y])
    ensures !IsFwdLike(g[x]) && !IsFwdLike(g[y]) ==>
              Shape(g[x]) == Shape(g[y]) && |Refs(g[x])| == |Refs(g[y])| &&
              forall i :: 0 <= i < |Refs(g[x])| ==>
                Refs(g[x])[i] < |g| && Refs(g[y])[i] < |g| && OneTo(g, m, k - 1, Refs(g[x])[i], Refs(g[y])[i])
  {
    hide Spelt, OneForward, Closed, FamilyOf;
  }

  lemma OneToStep(g: Graph, m: IdMap, k: nat, x: nat, y: nat)
    requires Closed(g) && x < |g| && y < |g| && k > 0 && !IsFwdLike(g[x])
    requires Shape(g[x]) == Shape(g[y]) && |Refs(g[x])| == |Refs(g[y])|
    requires forall i :: 0 <= i < |Refs(g[x])| ==>
               Refs(g[x])[i] < |g| && Refs(g[y])[i] < |g| && OneTo(g, m, k - 1, Refs(g[x])[i], Refs(g[y])[i])
    ensures OneTo(g, m, k, x, y)
  {
    hide Spelt, OneForward;
    SameShapeSameHeader(g[x], g[y]);
  }

  /** A forward between two definitions is no obstacle where all definitions of its family
      mean the same. */
  lemma {:induction false} OneToTransitive(off: bool, g: Graph, m: IdMap, k: nat, x: nat, y: nat, z: nat)
    requires Closed(g) && Univocal(g) && PlainFwds(g) && ForwardsOne(off, g, m)
    requires x < |g| && y < |g| && z < |g| && OneTo(g, m, k, x, y) && OneTo(g, m, k, y, z)
    ensures OneTo(g, m, k, x, z)
    decreases k
  {
    hide OneTo, OneSlotsTo, Univocal, PlainFwds, ForwardsOne, Closed;
    if k == 0 {
      OneNothing(g, m, x, z);
    } else if IsFwdLike(g[x]) || IsFwdLike(g[z]) {
      OneAtForward(g, m, k, x, y, z);
    } else {
      OneToOpens(g, m, k, x, y);
      OneToOpens(g, m, k, y, z);
      if IsFwdLike(g[y]) {
        AnnouncedAlike(g, x, z, y);
        AlikeOne(off, g, m, k, x, z);
      } else {
        var rx, ry, rz := Refs(g[x]), Refs(g[y]), Refs(g[z]);
        forall i | 0 <= i < |rx| ensures rx[i] < |g| && rz[i] < |g| && OneTo(g, m, k - 1, rx[i], rz[i]) {
          OneToTransitive(off, g, m, k - 1, rx[i], ry[i], rz[i]);
        }
        OneToStep(g, m, k, x, z);
      }
    }
  }

  lemma OneAtForward(g: Graph, m: IdMap, k: nat, x: nat, y: nat, z: nat)
    requires Closed(g) && x < |g| && y < |g| && z < |g| && k > 0 && OneTo(g, m, k, x, y) && OneTo(g, m, k, y, z)
    requires IsFwdLike(g[x]) || IsFwdLike(g[z])
    ensures OneTo(g, m, k, x, z)
  {
    hide Root, Closed, FamilyOf, OneSlotsTo;
  }

  lemma AnnouncedAlike(g: Graph, x: nat, y: nat, f: nat)
    requires Closed(g) && Univocal(g) && x < |g| && y < |g| && f < |g| && Announced(g, x, y, f)
    ensures Alike(g, x, y)
  {
  }

  lemma OneTransitive(off: bool, g: Graph, m: IdMap, x: nat, y: nat, z: nat)
    requires Closed(g) && Univocal(g) && PlainFwds(g) && ForwardsOne(off, g, m)
    requires x < |g| && y < |g| && z < |g| && One(g, m, x, y) && One(g, m, y, z)
    ensures One(g, m, x, z)
  {
    hide OneTo, Univocal, PlainFwds, ForwardsOne, Closed;
    forall k: nat ensures OneTo(g, m, k, x, z) {
      assert OneTo(g, m, k, x, y) && OneTo(g, m, k, y, z);
      OneToTransitive(off, g, m, k, x, y, z);
    }
  }

  lemma OneOpens(g: Graph, m: IdMap, x: nat, y: nat)
    requires Closed(g) && x < |g| && y < |g| && One(g, m, x, y)
    ensures FamilyOf(g[x]) == FamilyOf(g[y])
    ensures IsFwdLike(g[x]) && !IsFwdLike(g[y]) ==> Spelt(g, m, x)
    ensures !IsFwdLike(g[x]) && IsFwdLike(g[y]) ==> Spelt(g, m, y)
    ensures !IsFwdLike(g[x]) && !IsFwdLike(g[y]) ==>
              Shape(g[x]) == Shape(g[y]) && OneSlots(g, m, Refs(g[x]), Refs(g[y]))
  {
    hide Spelt, OneForward, Closed, FamilyOf;
    assert OneTo(g, m, 1, x, y);
    if !IsFwdLike(g[x]) && !IsFwdLike(g[y]) {
      var rx, ry := Refs(g[x]), Refs(g[y]);
      assert OneSlotsTo(g, m, 0, rx, ry);
      forall i | 0 <= i < |rx| ensures One(g, m, rx[i], ry[i]) {
        forall k: nat ensures OneTo(g, m, k, rx[i], ry[i]) {
          assert OneTo(g, m, k + 1, x, y);
          assert OneSlotsTo(g, m, k, rx, ry);
        }
      }
    }
  }

  /** Definitions of one shape over references that are one. */
  lemma OneStep(g: Graph, m: IdMap, x: nat, y: nat)
    requires Closed(g) && x < |g| && y < |g| && !IsFwdLike(g[x])
    requires Shape(g[x]) == Shape(g[y]) && OneSlots(g, m, Refs(g[x]), Refs(g[y]))
    ensures One(g, m, x, y)
  {
    hide OneTo, OneSlotsTo, Closed;
    var rx, ry := Refs(g[x]), Refs(g[y]);
    forall k: nat ensures OneTo(g, m, k, x, y) {
      if k == 0 {
        OneNothing(g, m, x, y);
      } else {
        forall i | 0 <= i < |rx| ensures OneTo(g, m, k - 1, rx[i], ry[i]) {
          assert One(g, m, rx[i], ry[i]);
        }
        OneToStep(g, m, k, x, y);
      }
    }
  }
}
