/** Agreement up to forwards for someone who sees names, not offsets. */
module BtfNamedAgree {
  import opened BtfTypes
  import opened BtfGraph
  import opened BtfAgree
  import opened BtfStrings
  import opened BtfNames

  /** The family of a descriptor with its name as a string. */
  function NamedFamily(strs: string, t: BtfType): (Family, string) {
    (FamilyOf(t.(name := 0)), StringAt(strs, t.name))
  }

  function TreeFamily(t: NamedTree): (Family, string)
    requires t.NamedNode?
  {
    (FamilyOf(t.skeleton.(name := 0)), if t.names == [] then "" else t.names[0])
  }

  /** One family, and one of the two a forward, or the same over trees that match. */
  ghost predicate NamedMatches(t: NamedTree, u: NamedTree)
    decreases t
  {
    t.NamedCut? || u.NamedCut? ||
    (TreeFamily(t) == TreeFamily(u) &&
     (IsFwdLike(t.skeleton) || IsFwdLike(u.skeleton) ||
      (t.skeleton == u.skeleton && t.names == u.names && |t.kids| == |u.kids| &&
       forall i :: 0 <= i < |t.kids| ==> NamedMatches(t.kids[i], u.kids[i]))))
  }

  ghost predicate NamedAgree(strs: string, g: Graph, x: nat, y: nat)
    requires Closed(g) && x < |g| && y < |g|
  {
    forall k: nat :: NamedMatches(NamedUnfold(strs, g, k, x), NamedUnfold(strs, g, k, y))
  }

  /** `f` is a forward for both the definitions `x` and `y`. */
  predicate NamedAnnounced(strs: string, g: Graph, x: nat, y: nat, f: nat)
    requires x < |g| && y < |g| && f < |g|
  {
    && !IsFwdLike(g[x]) && !IsFwdLike(g[y]) && IsFwdLike(g[f])
    && NamedFamily(strs, g[x]) == NamedFamily(strs, g[f]) && NamedFamily(strs, g[y]) == NamedFamily(strs, g[f])
  }

  /** All definitions of a kind and name that has a forward agree up to forwards. */
  ghost predicate NamedConsistent(strs: string, g: Graph)
    requires Closed(g)
  {
    forall x, y, f :: 0 <= x < |g| && 0 <= y < |g| && 0 <= f < |g| && NamedAnnounced(strs, g, x, y, f) ==>
      NamedAgree(strs, g, x, y)
  }

  /** `u` spells out all that `t` does: it reads the same, but may have more for a forward. */
  ghost predicate NamedSpells(t: NamedTree, u: NamedTree)
    decreases t
  {
    t.NamedCut? || u.NamedCut? ||
    (TreeFamily(t) == TreeFamily(u) &&
     (IsFwdLike(t.skeleton) ||
      (t.skeleton == u.skeleton && t.names == u.names && |t.kids| == |u.kids| &&
       forall i :: 0 <= i < |t.kids| ==> NamedSpells(t.kids[i], u.kids[i]))))
  }

  /** All definitions of a kind and name that has a forward mean the same. */
  ghost predicate NamedUnivocal(strs: string, g: Graph)
    requires Closed(g)
  {
    forall x, y, f :: 0 <= x < |g| && 0 <= y < |g| && 0 <= f < |g| && NamedAnnounced(strs, g, x, y, f) ==>
      NamedAlike(strs, g, x, y)
  }

  ghost predicate NamedAlike(strs: string, g: Graph, x: nat, y: nat)
    requires Closed(g) && x < |g| && y < |g|
  {
    forall k: nat :: NamedUnfold(strs, g, k, x) == NamedUnfold(strs, g, k, y)
  }

  /** Equal names have equal offsets. */
  ghost predicate NamesCanonical(strs: string, g: Graph) {
    forall x, y :: 0 <= x < |g| && 0 <= y < |g| ==> SameOffsets(strs, g[x], g[y])
  }

  ghost predicate SameOffsets(strs: string, t: BtfType, u: BtfType) {
    forall i, j ::
      0 <= i < |Names(t)| && 0 <= j < |Names(u)| && StringAt(strs, Names(t)[i]) == StringAt(strs, Names(u)[j])
      ==> Names(t)[i] == Names(u)[j]
  }

  // ---------------------------------------------------------------------------
  // Reading names

  lemma SkeletonFamily(strs: string, shape: BtfType, kids: seq<Tree>)
    ensures var r := ReadNames(strs, Node(shape, kids));
            && r.NamedNode? && IsFwdLike(r.skeleton) == IsFwdLike(shape) && r.skeleton.info == shape.info
            && r.names != [] && TreeFamily(r) == NamedFamily(strs, shape) && |r.kids| == |kids|
            && r.names == Strings(strs, Names(shape))
            && forall i :: 0 <= i < |kids| ==> r.kids[i] == ReadNames(strs, kids[i])
  {
    SetNamesSpec(shape, Zeros(|Names(shape)|));
    assert Names(shape)[0] == shape.name;
  }

  /** Trees that match still match when their names are read. */
  lemma {:induction false} ReadMatches(strs: string, t: Tree, u: Tree)
    requires Matches(t, u)
    ensures NamedMatches(ReadNames(strs, t), ReadNames(strs, u))
    decreases t
  {
    if t.Node? && u.Node? {
      SkeletonFamily(strs, t.shape, t.kids);
      SkeletonFamily(strs, u.shape, u.kids);
      if !IsFwdLike(t.shape) && !IsFwdLike(u.shape) {
        var r, q := ReadNames(strs, t), ReadNames(strs, u);
        forall i | 0 <= i < |r.kids| ensures NamedMatches(r.kids[i], q.kids[i]) {
          ReadMatches(strs, t.kids[i], u.kids[i]);
        }
      }
    }
  }

  /** What is spelt out is spelt out when names are read. */
  lemma {:induction false} ReadSpells(strs: string, t: Tree, u: Tree)
    requires Spells(t, u)
    ensures NamedSpells(ReadNames(strs, t), ReadNames(strs, u))
    decreases t
  {
    if t.Node? && u.Node? {
      SkeletonFamily(strs, t.shape, t.kids);
      SkeletonFamily(strs, u.shape, u.kids);
      if !IsFwdLike(t.shape) {
        var r, q := ReadNames(strs, t), ReadNames(strs, u);
        forall i | 0 <= i < |r.kids| ensures NamedSpells(r.kids[i], q.kids[i]) {
          ReadSpells(strs, t.kids[i], u.kids[i]);
        }
      }
    }
  }

  /** Names and the rest determine a shape. */
  lemma SkeletonAndNamesDetermine(t: BtfType, u: BtfType)
    requires Names(t) == Names(u) && SetNames(t, Zeros(|Names(t)|)) == SetNames(u, Zeros(|Names(u)|))
    ensures t == u
  {
    SetNamesBack(t);
    SetNamesBack(u);
    SetNamesSpec(t, Zeros(|Names(t)|));
  }

  lemma SetNamesBack(t: BtfType)
    ensures |Names(SetNames(t, Zeros(|Names(t)|)))| == |Names(t)|
    ensures SetNames(SetNames(t, Zeros(|Names(t)|)), Names(t)) == t
  {
    var ns := Names(t);
    SetNamesSpec(t, Zeros(|ns|));
    var u := SetNames(SetNames(t, Zeros(|ns|)), ns);
    match t.tail
    case Members(ms) => assert u.tail.members == ms;
    case Values(vs) => assert u.tail.values == vs;
    case Params(ps) => assert u.tail.params == ps;
    case _ =>
  }

  lemma StringsDetermine(strs: string, t: BtfType, u: BtfType)
    requires SameOffsets(strs, t, u) && Strings(strs, Names(t)) == Strings(strs, Names(u))
    ensures Names(t) == Names(u)
  {
    var a, b := Strings(strs, Names(t)), Strings(strs, Names(u));
    forall i | 0 <= i < |Names(t)| ensures Names(t)[i] == Names(u)[i] {
      assert a[i] == b[i];
    }
  }

  /** Conversely, where equal names have equal offsets. */
  lemma {:induction false} UnreadMatches(strs: string, g: Graph, k: nat, x: nat, y: nat)
    requires Closed(g) && NamesCanonical(strs, g) && x < |g| && y < |g|
    requires NamedMatches(NamedUnfold(strs, g, k, x), NamedUnfold(strs, g, k, y))
    ensures MatchTo(g, g, k, x, y)
  {
    hide NamedMatches, NamedUnfold, NamesCanonical, MatchTo, FamilyOf;
    if k == 0 {
      NothingToMatch(g, g, x, y);
    } else {
      UnreadTop(strs, g, k - 1, x, y);
      if IsFwdLike(g[x]) || IsFwdLike(g[y]) {
        ForwardMatches(g, g, k, x, y);
      } else {
        forall i | 0 <= i < |Refs(g[x])| ensures MatchTo(g, g, k - 1, Refs(g[x])[i], Refs(g[y])[i]) {
          UnreadMatches(strs, g, k - 1, Refs(g[x])[i], Refs(g[y])[i]);
        }
        StepMatches(g, g, k - 1, x, y);
      }
    }
  }

  lemma UnreadTop(strs: string, g: Graph, k: nat, x: nat, y: nat)
    requires Closed(g) && NamesCanonical(strs, g) && x < |g| && y < |g|
    requires NamedMatches(NamedUnfold(strs, g, k + 1, x), NamedUnfold(strs, g, k + 1, y))
    ensures RefsBelow(g[x], |g|) && RefsBelow(g[y], |g|) && FamilyOf(g[x]) == FamilyOf(g[y])
    ensures !IsFwdLike(g[x]) && !IsFwdLike(g[y]) ==>
              Shape(g[x]) == Shape(g[y]) && |Refs(g[x])| == |Refs(g[y])| &&
              forall i :: 0 <= i < |Refs(g[x])| ==>
                NamedMatches(NamedUnfold(strs, g, k, Refs(g[x])[i]), NamedUnfold(strs, g, k, Refs(g[y])[i]))
  {
    hide NamesCanonical, ReadNames, SameOffsets, SetNames, Names, Strings, StringAt;
    assert RefsBelow(g[x], |g|) && RefsBelow(g[y], |g|);
    var t, u := Unfold(g, k + 1, x), Unfold(g, k + 1, y);
    SkeletonFamily(strs, t.shape, t.kids);
    SkeletonFamily(strs, u.shape, u.kids);
    ShapeFamily(g[x]);
    ShapeFamily(g[y]);
    TopNames(strs, g, x, y, t.shape, u.shape);
    if !IsFwdLike(g[x]) && !IsFwdLike(g[y]) {
      TopShapes(strs, g, x, y, t, u);
      SameShapeSameHeader(g[x], g[y]);
      forall i | 0 <= i < |Refs(g[x])|
        ensures NamedMatches(NamedUnfold(strs, g, k, Refs(g[x])[i]), NamedUnfold(strs, g, k, Refs(g[y])[i]))
      {
        assert t.kids[i] == Unfold(g, k, Refs(g[x])[i]) && u.kids[i] == Unfold(g, k, Refs(g[y])[i]);
        assert NamedMatches(ReadNames(strs, t.kids[i]), ReadNames(strs, u.kids[i]));
      }
    }
  }

  /** Types that read the same unfold the same where equal names have equal offsets. */
  lemma {:induction false} UnreadEqual(strs: string, g: Graph, k: nat, x: nat, y: nat)
    requires Closed(g) && NamesCanonical(strs, g) && x < |g| && y < |g|
    requires NamedUnfold(strs, g, k, x) == NamedUnfold(strs, g, k, y)
    ensures Unfold(g, k, x) == Unfold(g, k, y)
  {
    hide NamedUnfold, NamesCanonical, Unfold;
    if k == 0 {
      NothingUnfolds(g, x, y);
    } else {
      UnreadEqualTop(strs, g, k - 1, x, y);
      forall i | 0 <= i < |Refs(g[x])| ensures Unfold(g, k - 1, Refs(g[x])[i]) == Unfold(g, k - 1, Refs(g[y])[i]) {
        UnreadEqual(strs, g, k - 1, Refs(g[x])[i], Refs(g[y])[i]);
      }
      UnfoldStep(g, k - 1, x, y);
    }
  }

  lemma NothingUnfolds(g: Graph, x: nat, y: nat)
    requires Closed(g) && x < |g| && y < |g|
    ensures Unfold(g, 0, x) == Unfold(g, 0, y)
  {
  }

  lemma UnreadEqualTop(strs: string, g: Graph, k: nat, x: nat, y: nat)
    requires Closed(g) && NamesCanonical(strs, g) && x < |g| && y < |g|
    requires NamedUnfold(strs, g, k + 1, x) == NamedUnfold(strs, g, k + 1, y)
    ensures RefsBelow(g[x], |g|) && RefsBelow(g[y], |g|)
    ensures Shape(g[x]) == Shape(g[y]) && |Refs(g[x])| == |Refs(g[y])|
    ensures forall i :: 0 <= i < |Refs(g[x])| ==>
              NamedUnfold(strs, g, k, Refs(g[x])[i]) == NamedUnfold(strs, g, k, Refs(g[y])[i])
  {
    hide NamesCanonical, ReadNames, SameOffsets, SetNames, Names, Strings, StringAt;
    assert RefsBelow(g[x], |g|) && RefsBelow(g[y], |g|);
    var t, u := Unfold(g, k + 1, x), Unfold(g, k + 1, y);
    SkeletonFamily(strs, t.shape, t.kids);
    SkeletonFamily(strs, u.shape, u.kids);
    TopNames(strs, g, x, y, t.shape, u.shape);
    SameReading(strs, t, u);
    SameShapeSameHeader(g[x], g[y]);
    forall i | 0 <= i < |Refs(g[x])|
      ensures NamedUnfold(strs, g, k, Refs(g[x])[i]) == NamedUnfold(strs, g, k, Refs(g[y])[i])
    {
      assert t.kids[i] == Unfold(g, k, Refs(g[x])[i]) && u.kids[i] == Unfold(g, k, Refs(g[y])[i]);
      assert ReadNames(strs, t).kids[i] == ReadNames(strs, u).kids[i];
    }
  }

  lemma SameReading(strs: string, t: Tree, u: Tree)
    requires t.Node? && u.Node? && SameOffsets(strs, t.shape, u.shape) && ReadNames(strs, t) == ReadNames(strs, u)
    ensures t.shape == u.shape
  {
    StringsDetermine(strs, t.shape, u.shape);
    SkeletonAndNamesDetermine(t.shape, u.shape);
  }

  lemma TopNames(strs: string, g: Graph, x: nat, y: nat, s: BtfType, r: BtfType)
    requires NamesCanonical(strs, g) && x < |g| && y < |g| && s == Shape(g[x]) && r == Shape(g[y])
    ensures SameOffsets(strs, s, r)
    ensures StringAt(strs, s.name) == StringAt(strs, r.name) ==> s.name == r.name
  {
    ShapeKeepsNames(g[x]);
    ShapeKeepsNames(g[y]);
    assert SameOffsets(strs, g[x], g[y]);
    assert Names(s)[0] == s.name && Names(r)[0] == r.name;
  }

  lemma TopShapes(strs: string, g: Graph, x: nat, y: nat, t: Tree, u: Tree)
    requires t.Node? && u.Node? && SameOffsets(strs, t.shape, u.shape)
    requires !IsFwdLike(t.shape) && !IsFwdLike(u.shape)
    requires NamedMatches(ReadNames(strs, t), ReadNames(strs, u))
    ensures t.shape == u.shape
  {
    SkeletonFamily(strs, t.shape, t.kids);
    SkeletonFamily(strs, u.shape, u.kids);
    StringsDetermine(strs, t.shape, u.shape);
    SkeletonAndNamesDetermine(t.shape, u.shape);
  }

  // ---------------------------------------------------------------------------
  // Renaming

  /** A graph reads like another: so does the top of each type. */
  lemma SameTop(strs: string, strs': string, g0: Graph, g: Graph, x: nat)
    requires Closed(g0) && Closed(g) && |g| == |g0| && x < |g| && NamesAgreeTo(strs, strs', g0, g, 1)
    ensures IsFwdLike(g[x]) == IsFwdLike(g0[x]) && NamedFamily(strs', g[x]) == NamedFamily(strs, g0[x])
  {
    var t, u := Unfold(g0, 1, x), Unfold(g, 1, x);
    SkeletonFamily(strs, t.shape, t.kids);
    SkeletonFamily(strs', u.shape, u.kids);
    ShapeFamily(g0[x]);
    ShapeFamily(g[x]);
    assert NamedUnfold(strs', g, 1, x) == NamedUnfold(strs, g0, 1, x);
  }

  /** What a graph that is consistent by name comes to once equal names have equal offsets. */
  lemma ConsistentByOffset(strs: string, strs': string, g0: Graph, g: Graph)
    requires Closed(g0) && Closed(g) && |g| == |g0| && NamesCanonical(strs', g)
    requires forall k: nat :: NamesAgreeTo(strs, strs', g0, g, k)
    requires NamedConsistent(strs, g0)
    ensures Consistent(g)
  {
    hide NamesAgreeTo, NamesCanonical, Agree;
    forall x, y, f | 0 <= x < |g| && 0 <= y < |g| && 0 <= f < |g| && Announced(g, x, y, f) ensures Agree(g, x, y) {
      assert NamesAgreeTo(strs, strs', g0, g, 1);
      SameTop(strs, strs', g0, g, x);
      SameTop(strs, strs', g0, g, y);
      SameTop(strs, strs', g0, g, f);
      assert NamedAnnounced(strs, g0, x, y, f);
      AgreeByOffset(strs, strs', g0, g, x, y);
    }
  }

  /** A graph without ambiguity by name has none once equal names have equal offsets. */
  lemma UnivocalByOffset(strs: string, strs': string, g0: Graph, g: Graph)
    requires Closed(g0) && Closed(g) && |g| == |g0| && NamesCanonical(strs', g)
    requires forall k: nat :: NamesAgreeTo(strs, strs', g0, g, k)
    requires NamedUnivocal(strs, g0)
    ensures Univocal(g)
  {
    hide NamesAgreeTo, NamesCanonical, Alike;
    forall x, y, f | 0 <= x < |g| && 0 <= y < |g| && 0 <= f < |g| && Announced(g, x, y, f) ensures Alike(g, x, y) {
      assert NamesAgreeTo(strs, strs', g0, g, 1);
      SameTop(strs, strs', g0, g, x);
      SameTop(strs, strs', g0, g, y);
      SameTop(strs, strs', g0, g, f);
      assert NamedAnnounced(strs, g0, x, y, f);
      AlikeByOffset(strs, strs', g0, g, x, y);
    }
  }

  lemma AlikeByOffset(strs: string, strs': string, g0: Graph, g: Graph, x: nat, y: nat)
    requires Closed(g0) && Closed(g) && |g| == |g0| && NamesCanonical(strs', g) && x < |g| && y < |g|
    requires forall k: nat :: NamesAgreeTo(strs, strs', g0, g, k)
    requires NamedAlike(strs, g0, x, y)
    ensures Alike(g, x, y)
  {
    hide Unfold, ReadNames, NamesCanonical;
    forall k: nat ensures Unfold(g, k, x) == Unfold(g, k, y) {
      assert NamesAgreeTo(strs, strs', g0, g, k);
      assert NamedUnfold(strs', g, k, x) == NamedUnfold(strs, g0, k, x);
      assert NamedUnfold(strs', g, k, y) == NamedUnfold(strs, g0, k, y);
      UnreadEqual(strs', g, k, x, y);
    }
  }

  lemma AgreeByOffset(strs: string, strs': string, g0: Graph, g: Graph, x: nat, y: nat)
    requires Closed(g0) && Closed(g) && |g| == |g0| && NamesCanonical(strs', g) && x < |g| && y < |g|
    requires forall k: nat :: NamesAgreeTo(strs, strs', g0, g, k)
    requires NamedAgree(strs, g0, x, y)
    ensures Agree(g, x, y)
  {
    forall k: nat ensures MatchTo(g, g, k, x, y) {
      assert NamesAgreeTo(strs, strs', g0, g, k);
      assert NamedUnfold(strs', g, k, x) == NamedUnfold(strs, g0, k, x);
      assert NamedUnfold(strs', g, k, y) == NamedUnfold(strs, g0, k, y);
      assert NamedMatches(NamedUnfold(strs, g0, k, x), NamedUnfold(strs, g0, k, y));
      UnreadMatches(strs', g, k, x, y);
    }
  }

  /** String deduplication leaves equal names with equal offsets. */
  lemma RenamedCanonical(strs: string, index: map<string, nat>, strs': string, g0: Graph, g: Graph)
    requires Renames(strs, index, g0, g) && IndexOf(strs', index)
    ensures NamesCanonical(strs', g)
  {
    forall x, y | 0 <= x < |g| && 0 <= y < |g| ensures SameOffsets(strs', g[x], g[y]) {
      assert RenamesType(strs, index, g0[x], g[x]) && RenamesType(strs, index, g0[y], g[y]);
      forall i, j | 0 <= i < |Names(g[x])| && 0 <= j < |Names(g[y])|
                 && StringAt(strs', Names(g[x])[i]) == StringAt(strs', Names(g[y])[j])
        ensures Names(g[x])[i] == Names(g[y])[j]
      {
        RenamedNamesCanonical(strs, index, strs', g0[x], g[x], g0[y], g[y], i, j);
        RenamedNamesCanonical(strs, index, strs', g0[y], g[y], g0[x], g[x], j, i);
      }
    }
  }
}
