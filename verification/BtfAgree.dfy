/** Agreement of types up to forwards.  Once forwards are resolved a type no longer unfolds
    to the same tree, but it may still say nothing else: wherever two trees differ, one of
    them has a forward for what the other one spells out. */
module BtfAgree {
  import opened BtfTypes
  import opened BtfGraph

  /** One family, and one of the two a forward, or equal shapes over trees that match. */
  ghost predicate Matches(t: Tree, u: Tree)
    decreases t
  {
    t.Cut? || u.Cut? ||
    (FamilyOf(t.shape) == FamilyOf(u.shape) &&
     (IsFwdLike(t.shape) || IsFwdLike(u.shape) ||
      (t.shape == u.shape && |t.kids| == |u.kids| && forall i :: 0 <= i < |t.kids| ==> Matches(t.kids[i], u.kids[i]))))
  }

  /** Agreement to depth `k` of a type of one graph and one of another. */
  ghost predicate MatchTo(g: Graph, g': Graph, k: nat, x: nat, y: nat)
    requires Closed(g) && Closed(g') && x < |g| && y < |g'|
  {
    Matches(Unfold(g, k, x), Unfold(g', k, y))
  }

  ghost predicate Agree(g: Graph, x: nat, y: nat)
    requires Closed(g) && x < |g| && y < |g|
  {
    forall k: nat :: MatchTo(g, g, k, x, y)
  }

  ghost predicate AllAgree(g: Graph, xs: seq<nat>, ys: seq<nat>)
    requires Closed(g)
  {
    && |xs| == |ys|
    && (forall i :: 0 <= i < |xs| ==> xs[i] < |g| && ys[i] < |g| && Agree(g, xs[i], ys[i]))
  }

  /** All definitions of a family that has a forward agree up to forwards. */
  ghost predicate Consistent(g: Graph)
    requires Closed(g)
  {
    forall x, y, f :: 0 <= x < |g| && 0 <= y < |g| && 0 <= f < |g| && Announced(g, x, y, f) ==> Agree(g, x, y)
  }

  /** All definitions of a family that has a forward mean the same. */
  ghost predicate Univocal(g: Graph)
    requires Closed(g)
  {
    forall x, y, f :: 0 <= x < |g| && 0 <= y < |g| && 0 <= f < |g| && Announced(g, x, y, f) ==> Alike(g, x, y)
  }

  /** `f` is a forward for both the definitions `x` and `y`. */
  predicate Announced(g: Graph, x: nat, y: nat, f: nat)
    requires x < |g| && y < |g| && f < |g|
  {
    && !IsFwdLike(g[x]) && !IsFwdLike(g[y]) && IsFwdLike(g[f])
    && FamilyOf(g[x]) == FamilyOf(g[f]) && FamilyOf(g[y]) == FamilyOf(g[f])
  }

  /** `u` spells out all that `t` does: it is the same, but may have more for a forward. */
  ghost predicate Spells(t: Tree, u: Tree)
    decreases t
  {
    t.Cut? || u.Cut? ||
    (FamilyOf(t.shape) == FamilyOf(u.shape) &&
     (IsFwdLike(t.shape) ||
      (t.shape == u.shape && |t.kids| == |u.kids| && forall i :: 0 <= i < |t.kids| ==> Spells(t.kids[i], u.kids[i]))))
  }

  /** To depth `k`, type `y` of `g'` spells out type `x` of `g`. */
  ghost predicate SpellsTo(g: Graph, g': Graph, k: nat, x: nat, y: nat)
    requires Closed(g) && Closed(g') && x < |g| && y < |g'|
  {
    Spells(Unfold(g, k, x), Unfold(g', k, y))
  }

  // ---------------------------------------------------------------------------
  // One level

  lemma ShapeFamily(t: BtfType)
    requires WellFormed(t)
    ensures FamilyOf(Shape(t)) == FamilyOf(t) && IsFwdLike(Shape(t)) == IsFwdLike(t)
  {
    ShapeKeeps(t);
  }

  /** A forward agrees with everything of its family. */
  lemma ForwardMatches(g: Graph, g': Graph, k: nat, x: nat, y: nat)
    requires Closed(g) && Closed(g') && x < |g| && y < |g'|
    requires FamilyOf(g[x]) == FamilyOf(g'[y]) && (IsFwdLike(g[x]) || IsFwdLike(g'[y]))
    ensures MatchTo(g, g', k, x, y)
  {
    ShapeFamily(g[x]);
    ShapeFamily(g'[y]);
  }

  lemma StepMatches(g: Graph, g': Graph, k: nat, x: nat, y: nat)
    requires Closed(g) && Closed(g') && x < |g| && y < |g'| && Shape(g[x]) == Shape(g'[y])
    requires RefsBelow(g[x], |g|) && RefsBelow(g'[y], |g'|) && |Refs(g[x])| == |Refs(g'[y])|
    requires forall i :: 0 <= i < |Refs(g[x])| ==> MatchTo(g, g', k, Refs(g[x])[i], Refs(g'[y])[i])
    ensures MatchTo(g, g', k + 1, x, y)
  {
    var us, vs := UnfoldAll(g, k, Refs(g[x])), UnfoldAll(g', k, Refs(g'[y]));
    forall i | 0 <= i < |us| ensures Matches(us[i], vs[i]) {
      assert MatchTo(g, g', k, Refs(g[x])[i], Refs(g'[y])[i]);
    }
  }

  lemma ForwardSpelt(g: Graph, g': Graph, k: nat, x: nat, y: nat)
    requires Closed(g) && Closed(g') && x < |g| && y < |g'| && FamilyOf(g[x]) == FamilyOf(g'[y]) && IsFwdLike(g[x])
    ensures SpellsTo(g, g', k, x, y)
  {
    ShapeFamily(g[x]);
    ShapeFamily(g'[y]);
  }

  lemma StepSpells(g: Graph, g': Graph, k: nat, x: nat, y: nat)
    requires Closed(g) && Closed(g') && x < |g| && y < |g'| && Shape(g[x]) == Shape(g'[y])
    requires RefsBelow(g[x], |g|) && RefsBelow(g'[y], |g'|) && |Refs(g[x])| == |Refs(g'[y])|
    requires forall i :: 0 <= i < |Refs(g[x])| ==> SpellsTo(g, g', k, Refs(g[x])[i], Refs(g'[y])[i])
    ensures SpellsTo(g, g', k + 1, x, y)
  {
    var us, vs := UnfoldAll(g, k, Refs(g[x])), UnfoldAll(g', k, Refs(g'[y]));
    forall i | 0 <= i < |us| ensures Spells(us[i], vs[i]) {
      assert SpellsTo(g, g', k, Refs(g[x])[i], Refs(g'[y])[i]);
    }
  }

  lemma NothingToSpell(g: Graph, g': Graph, x: nat, y: nat)
    requires Closed(g) && Closed(g') && x < |g| && y < |g'|
    ensures SpellsTo(g, g', 0, x, y)
  {
  }

  lemma SpellsOpens(g: Graph, g': Graph, k: nat, x: nat, y: nat)
    requires Closed(g) && Closed(g') && x < |g| && y < |g'| && SpellsTo(g, g', k + 1, x, y) && !IsFwdLike(g[x])
    ensures Shape(g[x]) == Shape(g'[y])
    ensures |Refs(g[x])| == |Refs(g'[y])| && forall i :: 0 <= i < |Refs(g[x])| ==>
              Refs(g[x])[i] < |g| && Refs(g'[y])[i] < |g'| && SpellsTo(g, g', k, Refs(g[x])[i], Refs(g'[y])[i])
  {
    ShapeFamily(g[x]);
    ShapeFamily(g'[y]);
    assert RefsBelow(g[x], |g|) && RefsBelow(g'[y], |g'|);
    var us, vs := UnfoldAll(g, k, Refs(g[x])), UnfoldAll(g', k, Refs(g'[y]));
    assert |us| == |vs|;
    forall i | 0 <= i < |us| ensures SpellsTo(g, g', k, Refs(g[x])[i], Refs(g'[y])[i]) {
      assert Spells(us[i], vs[i]);
    }
  }

  /** What is spelt out matches. */
  lemma {:induction false} SpeltMatches(t: Tree, u: Tree)
    requires Spells(t, u)
    ensures Matches(t, u)
    decreases t
  {
    if t.Node? && u.Node? && !IsFwdLike(t.shape) {
      forall i | 0 <= i < |t.kids| ensures Matches(t.kids[i], u.kids[i]) {
        SpeltMatches(t.kids[i], u.kids[i]);
      }
    }
  }

  lemma MatchOpens(g: Graph, k: nat, x: nat, y: nat)
    requires Closed(g) && x < |g| && y < |g| && MatchTo(g, g, k + 1, x, y)
    ensures RefsBelow(g[x], |g|) && RefsBelow(g[y], |g|) && FamilyOf(g[x]) == FamilyOf(g[y])
    ensures !IsFwdLike(g[x]) && !IsFwdLike(g[y]) ==>
              Shape(g[x]) == Shape(g[y]) && |Refs(g[x])| == |Refs(g[y])| &&
              forall i :: 0 <= i < |Refs(g[x])| ==> MatchTo(g, g, k, Refs(g[x])[i], Refs(g[y])[i])
  {
    ShapeFamily(g[x]);
    ShapeFamily(g[y]);
    assert RefsBelow(g[x], |g|) && RefsBelow(g[y], |g|);
    var us, vs := UnfoldAll(g, k, Refs(g[x])), UnfoldAll(g, k, Refs(g[y]));
    if !IsFwdLike(g[x]) && !IsFwdLike(g[y]) {
      forall i | 0 <= i < |Refs(g[x])| ensures MatchTo(g, g, k, Refs(g[x])[i], Refs(g[y])[i]) {
        assert Matches(us[i], vs[i]);
      }
    }
  }

  lemma {:induction false} MatchesSymmetric(t: Tree, u: Tree)
    requires Matches(t, u)
    ensures Matches(u, t)
    decreases t
  {
    if t.Node? && u.Node? && !IsFwdLike(t.shape) && !IsFwdLike(u.shape) {
      forall i | 0 <= i < |t.kids| ensures Matches(u.kids[i], t.kids[i]) {
        MatchesSymmetric(t.kids[i], u.kids[i]);
      }
    }
  }

  lemma {:induction false} MatchesItself(t: Tree)
    ensures Matches(t, t)
  {
    if t.Node? {
      forall i | 0 <= i < |t.kids| ensures Matches(t.kids[i], t.kids[i]) {
        MatchesItself(t.kids[i]);
      }
    }
  }

  // ---------------------------------------------------------------------------
  // At all depths

  lemma ForwardAgrees(g: Graph, x: nat, y: nat)
    requires Closed(g) && x < |g| && y < |g|
    requires FamilyOf(g[x]) == FamilyOf(g[y]) && (IsFwdLike(g[x]) || IsFwdLike(g[y]))
    ensures Agree(g, x, y)
  {
    forall k: nat ensures MatchTo(g, g, k, x, y) {
      ForwardMatches(g, g, k, x, y);
    }
  }

  lemma AlikeAgree(g: Graph, x: nat, y: nat)
    requires Closed(g) && x < |g| && y < |g| && Alike(g, x, y)
    ensures Agree(g, x, y)
  {
    forall k: nat ensures MatchTo(g, g, k, x, y) {
      assert Unfold(g, k, x) == Unfold(g, k, y);
      MatchesItself(Unfold(g, k, x));
    }
  }

  /** Definitions that mean the same agree. */
  lemma UnivocalConsistent(g: Graph)
    requires Closed(g) && Univocal(g)
    ensures Consistent(g)
  {
    hide Agree, Alike;
    forall x, y, f | 0 <= x < |g| && 0 <= y < |g| && 0 <= f < |g| && Announced(g, x, y, f) ensures Agree(g, x, y) {
      AlikeAgree(g, x, y);
    }
  }

  lemma AgreeItself(g: Graph, x: nat)
    requires Closed(g) && x < |g|
    ensures Agree(g, x, x)
  {
    AlikeAgree(g, x, x);
  }

  lemma AgreeSymmetric(g: Graph, x: nat, y: nat)
    requires Closed(g) && x < |g| && y < |g| && Agree(g, x, y)
    ensures Agree(g, y, x)
  {
    forall k: nat ensures MatchTo(g, g, k, y, x) {
      assert MatchTo(g, g, k, x, y);
      MatchesSymmetric(Unfold(g, k, x), Unfold(g, k, y));
    }
  }

  /** Agreement is transitive to every depth where forwards have one meaning each: a forward
      between two definitions is the only thing that could keep them apart. */
  lemma {:induction false} MatchTransitive(g: Graph, k: nat, x: nat, y: nat, z: nat)
    requires Closed(g) && Consistent(g) && x < |g| && y < |g| && z < |g|
    requires MatchTo(g, g, k, x, y) && MatchTo(g, g, k, y, z)
    ensures MatchTo(g, g, k, x, z)
  {
    hide Matches, Unfold, Consistent;
    if k > 0 {
      MatchOpens(g, k - 1, x, y);
      MatchOpens(g, k - 1, y, z);
      if IsFwdLike(g[x]) || IsFwdLike(g[z]) {
        ForwardMatches(g, g, k, x, z);
      } else if IsFwdLike(g[y]) {
        AnnouncedAgree(g, x, z, y);
      } else {
        forall i | 0 <= i < |Refs(g[x])| ensures MatchTo(g, g, k - 1, Refs(g[x])[i], Refs(g[z])[i]) {
          assert MatchTo(g, g, k - 1, Refs(g[x])[i], Refs(g[y])[i]);
          assert MatchTo(g, g, k - 1, Refs(g[y])[i], Refs(g[z])[i]);
          MatchTransitive(g, k - 1, Refs(g[x])[i], Refs(g[y])[i], Refs(g[z])[i]);
        }
        StepMatches(g, g, k - 1, x, z);
      }
    } else {
      NothingToMatch(g, g, x, z);
    }
  }

  lemma NothingToMatch(g: Graph, g': Graph, x: nat, y: nat)
    requires Closed(g) && Closed(g') && x < |g| && y < |g'|
    ensures MatchTo(g, g', 0, x, y)
  {
  }

  lemma AnnouncedAgree(g: Graph, x: nat, y: nat, f: nat)
    requires Closed(g) && Consistent(g) && x < |g| && y < |g| && f < |g| && Announced(g, x, y, f)
    ensures Agree(g, x, y)
  {
  }

  lemma AgreeTransitive(g: Graph, x: nat, y: nat, z: nat)
    requires Closed(g) && Consistent(g) && x < |g| && y < |g| && z < |g|
    requires Agree(g, x, y) && Agree(g, y, z)
    ensures Agree(g, x, z)
  {
    forall k: nat ensures MatchTo(g, g, k, x, z) {
      assert MatchTo(g, g, k, x, y) && MatchTo(g, g, k, y, z);
      MatchTransitive(g, k, x, y, z);
    }
  }

  lemma AgreeOpens(g: Graph, x: nat, y: nat)
    requires Closed(g) && x < |g| && y < |g| && Agree(g, x, y)
    ensures FamilyOf(g[x]) == FamilyOf(g[y])
    ensures !IsFwdLike(g[x]) && !IsFwdLike(g[y]) ==> Shape(g[x]) == Shape(g[y]) && AllAgree(g, Refs(g[x]), Refs(g[y]))
  {
    assert MatchTo(g, g, 0 + 1, x, y);
    MatchOpens(g, 0, x, y);
    if !IsFwdLike(g[x]) && !IsFwdLike(g[y]) {
      forall i | 0 <= i < |Refs(g[x])| ensures Agree(g, Refs(g[x])[i], Refs(g[y])[i]) {
        forall k: nat ensures MatchTo(g, g, k, Refs(g[x])[i], Refs(g[y])[i]) {
          assert MatchTo(g, g, k + 1, x, y);
          MatchOpens(g, k, x, y);
        }
      }
    }
  }

  /** Equal shapes over references that agree. */
  lemma AgreeStep(g: Graph, x: nat, y: nat)
    requires Closed(g) && x < |g| && y < |g|
    requires Shape(g[x]) == Shape(g[y]) && AllAgree(g, Refs(g[x]), Refs(g[y]))
    ensures Agree(g, x, y)
  {
    assert RefsBelow(g[x], |g|) && RefsBelow(g[y], |g|);
    forall k: nat ensures MatchTo(g, g, k, x, y) {
      if k > 0 {
        forall i | 0 <= i < |Refs(g[x])| ensures MatchTo(g, g, k - 1, Refs(g[x])[i], Refs(g[y])[i]) {
          assert Agree(g, Refs(g[x])[i], Refs(g[y])[i]);
        }
        StepMatches(g, g, k - 1, x, y);
      } else {
        NothingToMatch(g, g, x, y);
      }
    }
  }

  // ---------------------------------------------------------------------------
  // Rewriting references in place

  /** `g` is `g0` with every reference replaced by one that agrees with it in `g0`. */
  ghost predicate Rewords(g0: Graph, g: Graph)
    requires Closed(g0)
  {
    && |g| == |g0|
    && forall x {:trigger RewordsType(g0, g0[x], g[x])} :: 0 <= x < |g0| ==> RewordsType(g0, g0[x], g[x])
  }

  ghost predicate RewordsType(g0: Graph, t0: BtfType, t: BtfType)
    requires Closed(g0)
  {
    Shape(t) == Shape(t0) && AllAgree(g0, Refs(t0), Refs(t))
  }

  lemma RewordsItself(g: Graph)
    requires Closed(g)
    ensures Rewords(g, g)
  {
    forall x | 0 <= x < |g| ensures RewordsType(g, g[x], g[x]) {
      assert RefsBelow(g[x], |g|);
      forall i | 0 <= i < |Refs(g[x])| ensures Agree(g, Refs(g[x])[i], Refs(g[x])[i]) {
        AgreeItself(g, Refs(g[x])[i]);
      }
    }
  }

  /** Storing a reference that agrees with the one it replaces. */
  lemma RewordsSetRef(g0: Graph, g: Graph, x: nat, i: nat, r: nat)
    requires Closed(g0) && Consistent(g0) && Rewords(g0, g) && x < |g| && i < |Refs(g[x])|
    requires Refs(g[x])[i] < |g0| && r < |g0| && Agree(g0, Refs(g[x])[i], r)
    ensures Rewords(g0, g[x := SetRefs(g[x], Refs(g[x])[i := r])])
  {
    var rs := Refs(g[x])[i := r];
    SetRefsSpec(g[x], rs);
    var t := SetRefs(g[x], rs);
    assert RewordsType(g0, g0[x], g[x]);
    forall j | 0 <= j < |rs| ensures rs[j] < |g0| && Agree(g0, Refs(g0[x])[j], rs[j]) {
      assert Agree(g0, Refs(g0[x])[j], Refs(g[x])[j]);
      if j == i {
        AgreeTransitive(g0, Refs(g0[x])[i], Refs(g[x])[i], r);
      }
    }
    assert RewordsType(g0, g0[x], t);
    forall y | 0 <= y < |g| ensures RewordsType(g0, g0[y], g[x := t][y]) {
      if y != x { assert RewordsType(g0, g0[y], g[y]); }
    }
  }

  /** Two identical descriptors of a reworded graph agree in the original. */
  lemma RewordedEqualAgree(g0: Graph, g: Graph, x: nat, y: nat)
    requires Closed(g0) && Consistent(g0) && Rewords(g0, g) && x < |g| && y < |g| && g[x] == g[y]
    ensures Agree(g0, x, y)
  {
    assert RewordsType(g0, g0[x], g[x]) && RewordsType(g0, g0[y], g[y]);
    var rx, ry, r := Refs(g0[x]), Refs(g0[y]), Refs(g[x]);
    SameShapeSameHeader(g0[x], g0[y]);
    forall i | 0 <= i < |rx| ensures rx[i] < |g0| && ry[i] < |g0| && Agree(g0, rx[i], ry[i]) {
      assert Agree(g0, rx[i], r[i]) && Agree(g0, ry[i], r[i]);
      AgreeSymmetric(g0, ry[i], r[i]);
      AgreeTransitive(g0, rx[i], r[i], ry[i]);
    }
    AgreeStep(g0, x, y);
  }
}
