/** Names in BTF descriptors: the string offsets a descriptor holds, and the meaning
    of a type graph once they are read as strings. */
module BtfNames {
  import opened BtfTypes
  import opened BtfCompare
  import opened BtfFields
  import opened BtfGraph
  import opened BtfStrings
  import opened DedupState
  import opened DedupRefs

  /** String offsets in the order string deduplication visits them. */
  function Names(t: BtfType): seq<nat> {
    [t.name] +
    match t.tail
    case Members(ms) => seq(|ms|, i requires 0 <= i < |ms| => ms[i].name)
    case Values(vs) => seq(|vs|, i requires 0 <= i < |vs| => vs[i].name)
    case Params(ps) => seq(|ps|, i requires 0 <= i < |ps| => ps[i].name)
    case _ => []
  }

  function SetNames(t: BtfType, ns: seq<nat>): BtfType
    requires |ns| == |Names(t)|
  {
    var u := t.(name := ns[0]);
    match t.tail
    case Members(ms) =>
      u.(tail := Members(seq(|ms|, i requires 0 <= i < |ms| => ms[i].(name := ns[i + 1]))))
    case Values(vs) =>
      u.(tail := Values(seq(|vs|, i requires 0 <= i < |vs| => vs[i].(name := ns[i + 1]))))
    case Params(ps) =>
      u.(tail := Params(seq(|ps|, i requires 0 <= i < |ps| => ps[i].(name := ns[i + 1]))))
    case _ => u
  }

  /** A descriptor without its references and names. */
  function Skeleton(t: BtfType): BtfType {
    SetNames(Shape(t), Zeros(|Names(Shape(t))|))
  }

  lemma SetNamesSpec(t: BtfType, ns: seq<nat>)
    requires |ns| == |Names(t)|
    ensures Names(SetNames(t, ns)) == ns
    ensures SetNames(t, ns).info == t.info && SetNames(t, ns).size == t.size
    ensures WellFormed(t) ==> WellFormed(SetNames(t, ns))
  {
    assert Names(SetNames(t, ns)) == ns;
  }

  lemma SetNamesKeepsRefs(t: BtfType, ns: seq<nat>)
    requires |ns| == |Names(t)|
    ensures Refs(SetNames(t, ns)) == Refs(t)
  {
    assert Refs(SetNames(t, ns)) == Refs(t);
  }

  /** References and names are independent of each other. */
  lemma ShapeKeepsNames(t: BtfType)
    ensures Names(Shape(t)) == Names(t)
  {
    assert Names(Shape(t)) == Names(t);
  }

  lemma SkeletonOfRenamed(t: BtfType, ns: seq<nat>)
    requires |ns| == |Names(t)|
    ensures Skeleton(SetNames(t, ns)) == Skeleton(t)
  {
    var u := SetNames(t, ns);
    ShapeKeepsNames(t);
    ShapeKeepsNames(u);
    SetNamesSpec(t, ns);
    SetNamesKeepsRefs(t, ns);
    var a, b := Skeleton(u), Skeleton(t);
    match t.tail
    case Members(ms) => assert a.tail.members == b.tail.members;
    case Values(vs) => assert a.tail.values == b.tail.values;
    case Params(ps) => assert a.tail.params == b.tail.params;
    case Secs(ss) => assert a.tail.secs == b.tail.secs;
    case _ =>
  }

  // ---------------------------------------------------------------------------
  // Meaning with names

  datatype NamedTree = NamedCut | NamedNode(skeleton: BtfType, names: seq<string>, kids: seq<NamedTree>)

  ghost predicate NamesIn(strs: string, t: BtfType) {
    Terminated(strs) && forall i :: 0 <= i < |Names(t)| ==> Names(t)[i] < |strs|
  }

  ghost predicate Named(strs: string, g: Graph) {
    forall x {:trigger Names(g[x])} {:trigger NamesIn(strs, g[x])} :: 0 <= x < |g| ==> NamesIn(strs, g[x])
  }

  /** The string an offset names. */
  function StringAt(strs: string, off: nat): string {
    if Terminated(strs) && off < |strs| then CStr(strs, off) else ""
  }

  function Strings(strs: string, ns: seq<nat>): (ss: seq<string>)
    ensures |ss| == |ns|
  {
    seq(|ns|, i requires 0 <= i < |ns| => StringAt(strs, ns[i]))
  }

  /** A tree of shapes with its name offsets read as strings. */
  ghost function ReadNames(strs: string, t: Tree): NamedTree {
    match t
    case Cut => NamedCut
    case Node(shape, kids) =>
      NamedNode(SetNames(shape, Zeros(|Names(shape)|)), Strings(strs, Names(shape)),
                seq(|kids|, i requires 0 <= i < |kids| => ReadNames(strs, kids[i])))
  }

  /** What a type means to someone who sees names, not offsets. */
  ghost function NamedUnfold(strs: string, g: Graph, k: nat, x: nat): NamedTree
    requires Closed(g) && x < |g|
  {
    ReadNames(strs, Unfold(g, k, x))
  }

  // ---------------------------------------------------------------------------
  // Renaming a whole graph

  /** `g` is `g0` with every name moved to the offset `index` gives its string. */
  ghost predicate Renames(strs: string, index: map<string, nat>, g0: Graph, g: Graph) {
    && Named(strs, g0)
    && |g| == |g0|
    && (forall x {:trigger RenamesType(strs, index, g0[x], g[x])} :: 0 <= x < |g0| ==>
          RenamesType(strs, index, g0[x], g[x]))
  }

  ghost predicate RenamesType(strs: string, index: map<string, nat>, t0: BtfType, t: BtfType) {
    && NamesIn(strs, t0)
    && |Names(t)| == |Names(t0)|
    && t == SetNames(t0, Names(t))
    && (forall i :: 0 <= i < |Names(t0)| ==>
          CStr(strs, Names(t0)[i]) in index && Names(t)[i] == index[CStr(strs, Names(t0)[i])])
  }

  /** An index whose offsets hold the strings they are filed under. */
  ghost predicate IndexOf(strs: string, index: map<string, nat>) {
    && Terminated(strs) && "" in index && index[""] == 0
    && (forall s :: s in index ==> index[s] < |strs| && CStr(strs, index[s]) == s)
  }

  lemma RenamedType(strs: string, index: map<string, nat>, strs': string, t0: BtfType, t: BtfType)
    requires RenamesType(strs, index, t0, t) && IndexOf(strs', index)
    ensures t.info == t0.info && Refs(t) == Refs(t0) && t.size == t0.size && (WellFormed(t0) ==> WellFormed(t))
    ensures Skeleton(t) == Skeleton(t0)
    ensures NamesIn(strs', t) && Strings(strs', Names(t)) == Strings(strs, Names(t0))
  {
    SetNamesSpec(t0, Names(t));
    SetNamesKeepsRefs(t0, Names(t));
    SkeletonOfRenamed(t0, Names(t));
  }

  /** Two offsets are one after renaming exactly when they named the same string. */
  lemma RenamedNamesCanonical(strs: string, index: map<string, nat>, strs': string, t0: BtfType, t: BtfType,
                              u0: BtfType, u: BtfType, i: nat, j: nat)
    requires RenamesType(strs, index, t0, t) && RenamesType(strs, index, u0, u) && IndexOf(strs', index)
    requires i < |Names(t0)| && j < |Names(u0)|
    ensures Names(t)[i] == Names(u)[j] <==> CStr(strs, Names(t0)[i]) == CStr(strs, Names(u0)[j])
    ensures Names(t)[i] < |strs'| && CStr(strs', Names(t)[i]) == CStr(strs, Names(t0)[i])
  {
    assert CStr(strs', index[CStr(strs, Names(t0)[i])]) == CStr(strs, Names(t0)[i]);
    assert CStr(strs', index[CStr(strs, Names(u0)[j])]) == CStr(strs, Names(u0)[j]);
  }

  lemma RenamedClosed(strs: string, index: map<string, nat>, strs': string, g0: Graph, g: Graph)
    requires Closed(g0) && Renames(strs, index, g0, g) && IndexOf(strs', index)
    ensures Closed(g) && Named(strs', g)
    ensures forall x :: 0 <= x < |g| ==>
              g[x].info == g0[x].info && Refs(g[x]) == Refs(g0[x]) && g[x].size == g0[x].size
  {
    forall x | 0 <= x < |g|
      ensures g[x].info == g0[x].info && Refs(g[x]) == Refs(g0[x]) && NamesIn(strs', g[x])
      ensures WellFormed(g[x]) && RefsBelow(g[x], |g|) && g[x].size == g0[x].size
    {
      assert RenamesType(strs, index, g0[x], g[x]) && RefsBelow(g0[x], |g0|) && WellFormed(g0[x]);
      RenamedType(strs, index, strs', g0[x], g[x]);
    }
    VoidRenamed(strs, index, strs', g0, g);
  }

  /** Void has the empty name, which stays at offset 0. */
  lemma VoidRenamed(strs: string, index: map<string, nat>, strs': string, g0: Graph, g: Graph)
    requires Closed(g0) && Renames(strs, index, g0, g) && IndexOf(strs', index)
    ensures g[0] == VOID
  {
    assert RenamesType(strs, index, g0[0], g[0]);
    assert Names(g0[0]) == [0] && CStr(strs, 0) == "";
    assert Names(g[0])[0] == 0;
  }

  ghost predicate NamesAgreeTo(strs: string, strs': string, g0: Graph, g: Graph, k: nat)
    requires Closed(g0) && Closed(g) && |g| == |g0|
  {
    forall x :: 0 <= x < |g| ==> NamedUnfold(strs', g, k, x) == NamedUnfold(strs, g0, k, x)
  }

  lemma RenamedNext(strs: string, index: map<string, nat>, strs': string, g0: Graph, g: Graph, k: nat, x: nat)
    requires Closed(g0) && Closed(g) && |g| == |g0| && x < |g|
    requires RenamesType(strs, index, g0[x], g[x]) && IndexOf(strs', index)
    requires NamesAgreeTo(strs, strs', g0, g, k)
    ensures NamedUnfold(strs', g, k + 1, x) == NamedUnfold(strs, g0, k + 1, x)
  {
    RenamedType(strs, index, strs', g0[x], g[x]);
    ShapeKeepsNames(g0[x]);
    ShapeKeepsNames(g[x]);
    var rs := Refs(g0[x]);
    var kids, kids0 := UnfoldAll(g, k, rs), UnfoldAll(g0, k, rs);
    forall i | 0 <= i < |rs| ensures ReadNames(strs', kids[i]) == ReadNames(strs, kids0[i]) {
      assert NamedUnfold(strs', g, k, rs[i]) == NamedUnfold(strs, g0, k, rs[i]);
    }
  }

  /** Renaming keeps what every type means, names read as strings. */
  lemma RenamedMeaning(strs: string, index: map<string, nat>, strs': string, g0: Graph, g: Graph, k: nat)
    requires Closed(g0) && Renames(strs, index, g0, g) && IndexOf(strs', index) && Closed(g)
    ensures NamesAgreeTo(strs, strs', g0, g, k)
  {
    for j := 0 to k
      invariant NamesAgreeTo(strs, strs', g0, g, j)
    {
      var n := j + 1;
      forall x | 0 <= x < |g| ensures NamedUnfold(strs', g, n, x) == NamedUnfold(strs, g0, n, x) {
        assert RenamesType(strs, index, g0[x], g[x]);
        RenamedNext(strs, index, strs', g0, g, j, x);
      }
    }
  }

  /** Interning more strings moves no name. */
  lemma RenamesMore(strs: string, index: map<string, nat>, index': map<string, nat>, t0: BtfType, t: BtfType)
    requires RenamesType(strs, index, t0, t)
    requires forall s :: s in index ==> s in index' && index'[s] == index[s]
    ensures RenamesType(strs, index', t0, t)
  {
  }

  // ---------------------------------------------------------------------------
  // Properties of a graph that names have no part in

  ghost predicate SameRefs(g0: Graph, g: Graph) {
    |g| == |g0| &&
    forall x :: 0 <= x < |g| ==> g[x].info == g0[x].info && Refs(g[x]) == Refs(g0[x]) && g[x].size == g0[x].size
  }

  lemma CycleCarries(g0: Graph, g: Graph)
    requires SameRefs(g0, g) && HasCycle(g0)
    ensures HasCycle(g)
  {
    var p :| IsCycle(g0, p);
    forall i | 0 <= i < |p| - 1 ensures RefEdge(g, p[i], p[i + 1]) {
      assert RefEdge(g0, p[i], p[i + 1]);
    }
    assert IsCycle(g, p);
  }

  lemma SameRefsSameVerdict(g0: Graph, g: Graph)
    requires SameRefs(g0, g)
    ensures NoVarRefs(g0) <==> NoVarRefs(g)
    ensures HasCycle(g0) <==> HasCycle(g)
  {
    if HasCycle(g0) {
      CycleCarries(g0, g);
    }
    if HasCycle(g) {
      CycleCarries(g, g0);
    }
  }

  // ---------------------------------------------------------------------------
  // Renaming type by type

  /** The types below `i` have been renamed, the others not. */
  ghost predicate FirstRenamed(strs: string, index: map<string, nat>, g0: Graph, g: Graph, i: nat) {
    && |g| == |g0|
    && (forall x {:trigger RenamesType(strs, index, g0[x], g[x])} :: 0 <= x < |g0| && x < i ==>
          RenamesType(strs, index, g0[x], g[x]))
    && (forall x :: i <= x < |g0| ==> g[x] == g0[x])
  }

  lemma FirstRenamedNext(strs: string, index: map<string, nat>, index': map<string, nat>, g0: Graph, g: Graph,
                         i: nat, t: BtfType)
    requires FirstRenamed(strs, index, g0, g, i) && i < |g| && RenamesType(strs, index', g0[i], t)
    requires forall s :: s in index ==> s in index' && index'[s] == index[s]
    ensures FirstRenamed(strs, index', g0, g[i := t], i + 1)
  {
    var g' := g[i := t];
    forall x | 0 <= x < |g0| && x < i + 1 ensures RenamesType(strs, index', g0[x], g'[x]) {
      if x < i {
        assert RenamesType(strs, index, g0[x], g[x]);
        RenamesMore(strs, index, index', g0[x], g[x]);
      }
    }
  }

  lemma FirstRenamedVoid(strs: string, index: map<string, nat>, g: Graph)
    requires Closed(g) && Named(strs, g) && "" in index && index[""] == 0
    ensures FirstRenamed(strs, index, g, g, 1)
  {
    assert NamesIn(strs, g[0]) && Names(g[0]) == [0] && CStr(strs, 0) == "";
  }

  // ---------------------------------------------------------------------------
  // Renaming field by field

  lemma RenamedItself(strs: string, t: BtfType)
    requires NamesIn(strs, t)
    ensures Renamed(strs, t, strs, t)
  {
    ReadsNames(strs, t, strs, t);
  }

  /** Names that read the same slot by slot do so field by field. */
  lemma ReadsNames(strs: string, t: BtfType, strs': string, u: BtfType)
    requires SameForm(t, u) && NamesIn(strs, t) && NamesIn(strs', u)
    requires Strings(strs', Names(u)) == Strings(strs, Names(t))
    ensures SameNames(strs, t, strs', u)
  {
    hide CStr;
    var ns, ms := Names(t), Names(u);
    forall i | 0 <= i < |ns| ensures i < |ms| && Reads(strs, ns[i], strs', ms[i]) {
      assert |Strings(strs', ms)| == |Strings(strs, ns)|;
      assert Strings(strs', ms)[i] == Strings(strs, ns)[i];
    }
    assert Reads(strs, ns[0], strs', ms[0]);
    match t.tail
    case Members(es) =>
      forall i | 0 <= i < |es| ensures Reads(strs, es[i].name, strs', u.tail.members[i].name) {
        assert Reads(strs, ns[i + 1], strs', ms[i + 1]);
      }
    case Values(es) =>
      forall i | 0 <= i < |es| ensures Reads(strs, es[i].name, strs', u.tail.values[i].name) {
        assert Reads(strs, ns[i + 1], strs', ms[i + 1]);
      }
    case Params(es) =>
      forall i | 0 <= i < |es| ensures Reads(strs, es[i].name, strs', u.tail.params[i].name) {
        assert Reads(strs, ns[i + 1], strs', ms[i + 1]);
      }
    case _ =>
  }

  lemma RenamesFields(strs: string, index: map<string, nat>, strs': string, t: BtfType, u: BtfType)
    requires RenamesType(strs, index, t, u) && IndexOf(strs', index)
    ensures Renamed(strs, t, strs', u)
  {
    RenamedType(strs, index, strs', t, u);
    RenamesRest(strs, index, t, u);
    ReadsNames(strs, t, strs', u);
  }

  lemma RenamesRest(strs: string, index: map<string, nat>, t: BtfType, u: BtfType)
    requires RenamesType(strs, index, t, u)
    ensures KeptIds(t, u) && KeptRest(t, u)
  {
    hide CStr, Names;
    assert u == SetNames(t, Names(u));
  }

  ghost predicate FieldsRenamed(strs: string, g0: Graph, strs': string, g: Graph) {
    |g| == |g0| && forall x :: 0 <= x < |g0| ==> Renamed(strs, g0[x], strs', g[x])
  }

  lemma RenamesAllFields(strs: string, index: map<string, nat>, strs': string, g0: Graph, g: Graph)
    requires Renames(strs, index, g0, g) && IndexOf(strs', index)
    ensures FieldsRenamed(strs, g0, strs', g)
  {
    hide RenamesType, Renamed, NamesIn;
    forall x | 0 <= x < |g0| ensures Renamed(strs, g0[x], strs', g[x]) {
      assert RenamesType(strs, index, g0[x], g[x]);
      RenamesFields(strs, index, strs', g0[x], g[x]);
    }
  }

  lemma NothingRenamed(strs: string, g: Graph)
    requires Named(strs, g)
    ensures FieldsRenamed(strs, g, strs, g)
  {
    hide Renamed, NamesIn;
    forall x | 0 <= x < |g| ensures Renamed(strs, g[x], strs, g[x]) {
      assert NamesIn(strs, g[x]);
      RenamedItself(strs, g[x]);
    }
  }
}
