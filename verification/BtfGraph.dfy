/** The meaning of a BTF type graph: what one sees by following references from a
    type to any finite depth.  Ids are not part of the meaning, so two types mean
    the same exactly when no finite amount of looking tells them apart, cycles
    included. */
module BtfGraph {
  import opened BtfTypes

  /** Descriptors indexed by type id; id 0 is void. */
  type Graph = seq<BtfType>

  const BTF_MAX_NR_TYPES: nat := 0x7fff_ffff

  /** A type section the loader accepts whose references stay in range. */
  ghost predicate Closed(g: Graph) {
    && 0 < |g| <= BTF_MAX_NR_TYPES + 1
    && g[0] == VOID
    && (forall x {:trigger WellFormed(g[x])} :: 0 <= x < |g| ==> WellFormed(g[x]))
    && (forall x :: 0 < x < |g| ==> g[x].info.kind != Unkn)
    && (forall x {:trigger Refs(g[x])} {:trigger RefsBelow(g[x], |g|)} :: 0 <= x < |g| ==> RefsBelow(g[x], |g|))
  }

  ghost predicate RefsBelow(t: BtfType, n: nat) {
    forall i :: 0 <= i < |Refs(t)| ==> Refs(t)[i] < n
  }

  datatype Tree = Cut | Node(shape: BtfType, kids: seq<Tree>)

  /** The tree of shapes reached from `x` in fewer than `k` steps. */
  ghost function Unfold(g: Graph, k: nat, x: nat): Tree
    requires Closed(g) && x < |g|
    decreases k, 1
  {
    if k == 0 then Cut
    else Node(Shape(g[x]), UnfoldAll(g, k - 1, Refs(g[x])))
  }

  ghost function UnfoldAll(g: Graph, k: nat, xs: seq<nat>): (ts: seq<Tree>)
    requires Closed(g) && forall i :: 0 <= i < |xs| ==> xs[i] < |g|
    ensures |ts| == |xs| && forall i :: 0 <= i < |xs| ==> ts[i] == Unfold(g, k, xs[i])
    decreases k, 2
  {
    seq(|xs|, i requires 0 <= i < |xs| => Unfold(g, k, xs[i]))
  }

  /** One more level: equal shapes over references that agree to depth `k`. */
  lemma UnfoldStep(g: Graph, k: nat, x: nat, y: nat)
    requires Closed(g) && x < |g| && y < |g| && Shape(g[x]) == Shape(g[y])
    requires |Refs(g[x])| == |Refs(g[y])|
    requires forall i :: 0 <= i < |Refs(g[x])| ==> Unfold(g, k, Refs(g[x])[i]) == Unfold(g, k, Refs(g[y])[i])
    ensures Unfold(g, k + 1, x) == Unfold(g, k + 1, y)
  {
    assert UnfoldAll(g, k, Refs(g[x])) == UnfoldAll(g, k, Refs(g[y]));
  }

  ghost predicate Alike(g: Graph, x: nat, y: nat)
    requires Closed(g) && x < |g| && y < |g|
  {
    forall k: nat :: Unfold(g, k, x) == Unfold(g, k, y)
  }

  ghost predicate AllAlike(g: Graph, xs: seq<nat>, ys: seq<nat>)
    requires Closed(g)
  {
    && |xs| == |ys|
    && (forall i :: 0 <= i < |xs| ==> xs[i] < |g| && ys[i] < |g| && Alike(g, xs[i], ys[i]))
  }

  lemma AlikeSameShape(g: Graph, x: nat, y: nat)
    requires Closed(g) && x < |g| && y < |g| && Alike(g, x, y)
    ensures Shape(g[x]) == Shape(g[y])
    ensures g[x].info == g[y].info && g[x].name == g[y].name && |Refs(g[x])| == |Refs(g[y])|
  {
    assert Unfold(g, 1, x) == Unfold(g, 1, y);
    SameShapeSameHeader(g[x], g[y]);
  }

  lemma AlikeItself(g: Graph, x: nat)
    requires Closed(g) && x < |g|
    ensures Alike(g, x, x)
  {
  }

  lemma AlikeTransitive(g: Graph, x: nat, y: nat, z: nat)
    requires Closed(g) && x < |g| && y < |g| && z < |g|
    requires Alike(g, x, y) && Alike(g, y, z)
    ensures Alike(g, x, z) && Alike(g, z, x)
  {
    forall k: nat ensures Unfold(g, k, x) == Unfold(g, k, z) {
      assert Unfold(g, k, x) == Unfold(g, k, y);
    }
  }

  /** Equal shapes over alike references are alike. */
  lemma AlikeStep(g: Graph, x: nat, y: nat)
    requires Closed(g) && x < |g| && y < |g|
    requires Shape(g[x]) == Shape(g[y]) && AllAlike(g, Refs(g[x]), Refs(g[y]))
    ensures Alike(g, x, y)
  {
    forall k: nat ensures Unfold(g, k, x) == Unfold(g, k, y) {
      if k > 0 {
        var rx, ry := Refs(g[x]), Refs(g[y]);
        forall i | 0 <= i < |rx| ensures Unfold(g, k - 1, rx[i]) == Unfold(g, k - 1, ry[i]) {
          assert Alike(g, rx[i], ry[i]);
        }
        assert UnfoldAll(g, k - 1, rx) == UnfoldAll(g, k - 1, ry);
      }
    }
  }

  lemma AlikeRefs(g: Graph, x: nat, y: nat)
    requires Closed(g) && x < |g| && y < |g| && Alike(g, x, y)
    ensures AllAlike(g, Refs(g[x]), Refs(g[y]))
  {
    AlikeSameShape(g, x, y);
    var rx, ry := Refs(g[x]), Refs(g[y]);
    forall i, k: nat | 0 <= i < |rx| ensures Unfold(g, k, rx[i]) == Unfold(g, k, ry[i]) {
      assert Unfold(g, k + 1, x) == Unfold(g, k + 1, y);
      assert UnfoldAll(g, k, rx)[i] == UnfoldAll(g, k, ry)[i];
    }
  }

  /** A FWD's type word is 0 in valid BTF. */
  ghost predicate PlainFwds(g: Graph) {
    forall x :: 0 <= x < |g| && g[x].info.kind == Fwd ==> g[x].size == 0
  }

  /** A forward of one shape is one descriptor. */
  lemma PlainFwdsEqual(g: Graph, x: nat, y: nat)
    requires Closed(g) && PlainFwds(g) && x < |g| && y < |g|
    requires IsFwdLike(g[x]) && Shape(g[x]) == Shape(g[y])
    ensures g[x] == g[y]
  {
    SameShapeSameHeader(g[x], g[y]);
    assert WellFormed(g[x]) && WellFormed(g[y]);
    if g[x].info.kind == Fwd {
      assert Refs(g[x]) == [0] && Refs(g[y]) == [0];
    } else {
      assert Refs(g[x]) == [] && Refs(g[y]) == [];
    }
    ShapeAndRefsDetermine(g[x], g[y]);
  }

  // ---------------------------------------------------------------------------
  // Rewriting references in place

  /** `g` is `g0` with every reference replaced by one that means the same in `g0`. */
  ghost predicate Rewrites(g0: Graph, g: Graph)
    requires Closed(g0)
  {
    && |g| == |g0|
    && forall x {:trigger RewritesType(g0, g0[x], g[x])} :: 0 <= x < |g0| ==> RewritesType(g0, g0[x], g[x])
  }

  ghost predicate RewritesType(g0: Graph, t0: BtfType, t: BtfType)
    requires Closed(g0)
  {
    Shape(t) == Shape(t0) && AllAlike(g0, Refs(t0), Refs(t))
  }

  lemma RewritesRefl(g: Graph)
    requires Closed(g)
    ensures Rewrites(g, g)
  {
    forall x | 0 <= x < |g| ensures AllAlike(g, Refs(g[x]), Refs(g[x])) {
    }
  }

  /** Storing a reference that means the same keeps the graph a rewrite. */
  lemma RewritesSetRef(g0: Graph, g: Graph, x: nat, i: nat, r: nat)
    requires Closed(g0) && Closed(g) && Rewrites(g0, g) && x < |g| && i < |Refs(g[x])|
    requires r < |g| && Alike(g0, Refs(g[x])[i], r)
    ensures var g' := g[x := SetRefs(g[x], Refs(g[x])[i := r])]; Closed(g') && Rewrites(g0, g')
  {
    var rs := Refs(g[x])[i := r];
    SetRefsSpec(g[x], rs);
    var t := SetRefs(g[x], rs);
    var g' := g[x := t];
    assert RewritesType(g0, g0[x], g[x]);
    forall j | 0 <= j < |rs| ensures rs[j] < |g0| && Alike(g0, Refs(g0[x])[j], rs[j]) {
      assert Alike(g0, Refs(g0[x])[j], Refs(g[x])[j]);
      if j == i {
        AlikeTransitive(g0, Refs(g0[x])[i], Refs(g[x])[i], r);
      }
    }
    assert RewritesType(g0, g0[x], t);
    forall y | 0 <= y < |g'| ensures RefsBelow(g'[y], |g'|) {
      if y != x { assert RefsBelow(g[y], |g|); }
    }
    forall y | 0 <= y < |g'| ensures RewritesType(g0, g0[y], g'[y]) {
      if y != x { assert RewritesType(g0, g0[y], g[y]); }
    }
  }

  /** Two identical descriptors of a rewritten graph mean the same in the original. */
  lemma RewrittenEqualAlike(g0: Graph, g: Graph, x: nat, y: nat)
    requires Closed(g0) && Rewrites(g0, g) && x < |g| && y < |g| && g[x] == g[y]
    ensures Alike(g0, x, y)
  {
    assert RewritesType(g0, g0[x], g[x]) && RewritesType(g0, g0[y], g[y]);
    var rx, ry, r := Refs(g0[x]), Refs(g0[y]), Refs(g[x]);
    SameShapeSameHeader(g0[x], g0[y]);
    forall i | 0 <= i < |rx| ensures rx[i] < |g0| && ry[i] < |g0| && Alike(g0, rx[i], ry[i]) {
      assert Alike(g0, rx[i], r[i]) && Alike(g0, ry[i], r[i]);
      assert Alike(g0, r[i], ry[i]);
      AlikeTransitive(g0, rx[i], r[i], ry[i]);
    }
    AlikeStep(g0, x, y);
  }
}
