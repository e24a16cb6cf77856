/** The state of the reference pass: which chains of references are settled, which
    are being followed, and why a chain that comes back to itself is reported. */
module DedupRefs {
  import opened BtfTypes
  import opened BtfCompare
  import opened BtfGraph
  import opened BtfAgree
  import opened DedupMap
  import opened DedupState

  // ---------------------------------------------------------------------------
  // Chains of reference types

  /** `y` is a reference type that the reference type `x` refers to directly. */
  ghost predicate RefEdge(g: Graph, x: nat, y: nat) {
    x < |g| && y < |g| && IsRefKind(g[x].info.kind) && IsRefKind(g[y].info.kind) && y in Refs(g[x])
  }

  ghost predicate IsPath(g: Graph, p: seq<nat>) {
    forall i :: 0 <= i < |p| - 1 ==> RefEdge(g, p[i], p[i + 1])
  }

  /** A cycle of references that no struct or union breaks. */
  ghost predicate IsCycle(g: Graph, p: seq<nat>) {
    p != [] && IsPath(g, p) && RefEdge(g, p[|p| - 1], p[0])
  }

  /** Every chain of reference types from `x` has fewer than `k` links. */
  ghost predicate Grounded(g: Graph, k: nat, x: nat)
    requires x < |g|
  {
    !IsRefKind(g[x].info.kind) ||
    (k > 0 && forall i {:trigger Refs(g[x])[i]} :: 0 <= i < |Refs(g[x])| ==>
                Refs(g[x])[i] < |g| && Grounded(g, k - 1, Refs(g[x])[i]))
  }

  lemma {:induction false} GroundedMonotone(g: Graph, k: nat, k': nat, x: nat)
    requires x < |g| && k <= k' && Grounded(g, k, x)
    ensures Grounded(g, k', x)
    decreases k
  {
    if IsRefKind(g[x].info.kind) {
      forall i | 0 <= i < |Refs(g[x])| ensures Refs(g[x])[i] < |g| && Grounded(g, k' - 1, Refs(g[x])[i]) {
        GroundedMonotone(g, k - 1, k' - 1, Refs(g[x])[i]);
      }
    }
  }

  /** A type whose chains all end is on no cycle. */
  lemma {:induction false} GroundedNoCycle(g: Graph, k: nat, p: seq<nat>)
    requires IsCycle(g, p) && p[0] < |g|
    ensures !Grounded(g, k, p[0])
  {
    if Grounded(g, k, p[0]) {
      var q := p[1..] + [p[0]];
      var next := q[0];
      assert RefEdge(g, p[0], next) by {
        if |p| > 1 { assert RefEdge(g, p[0], p[1]); }
      }
      var i :| 0 <= i < |Refs(g[p[0]])| && Refs(g[p[0]])[i] == next;
      assert Grounded(g, k - 1, next);
      assert IsCycle(g, q) by {
        forall j | 0 <= j < |q| - 1 ensures RefEdge(g, q[j], q[j + 1]) {
          if j < |q| - 2 {
            assert RefEdge(g, p[j + 1], p[j + 2]);
          }
        }
        assert |p| > 1 ==> RefEdge(g, q[|q| - 1], q[0]);
      }
      GroundedNoCycle(g, k - 1, q);
    }
  }

  ghost predicate Ends(g: Graph, x: nat)
    requires x < |g|
  {
    exists k: nat :: Grounded(g, k, x)
  }

  ghost predicate AllEnd(g: Graph) {
    forall x :: 0 <= x < |g| ==> Ends(g, x)
  }

  /** The verdict of the reference pass decides cyclicity: chains that all end leave
      no room for a cycle. */
  lemma AllEndNoCycle(g: Graph, p: seq<nat>)
    requires Closed(g) && AllEnd(g)
    ensures !IsCycle(g, p)
  {
    if IsCycle(g, p) {
      assert p[0] < |g| && Ends(g, p[0]);
      var k: nat :| Grounded(g, k, p[0]);
      GroundedNoCycle(g, k, p);
    }
  }

  ghost predicate HasCycle(g: Graph) {
    exists p :: IsCycle(g, p)
  }

  lemma AllEndNoCycles(g: Graph)
    requires Closed(g) && AllEnd(g)
    ensures !HasCycle(g)
  {
    forall p ensures !IsCycle(g, p) {
      AllEndNoCycle(g, p);
    }
  }

  // ---------------------------------------------------------------------------
  // What the pass keeps

  /** The references of `x` have been replaced by what they resolve to. */
  ghost predicate RefsResolved(g0: Graph, g: Graph, m: IdMap, x: nat)
    requires |g0| == |g| == |m| && x < |g|
  {
    && |Refs(g[x])| == |Refs(g0[x])|
    && (forall i :: 0 <= i < |Refs(g0[x])| ==> SlotResolved(g0, g, m, x, i))
  }

  ghost predicate SlotResolved(g0: Graph, g: Graph, m: IdMap, x: nat, i: nat)
    requires |g0| == |g| == |m| && x < |g|
  {
    && i < |Refs(g[x])| == |Refs(g0[x])|
    && Refs(g0[x])[i] < |m| && Mapped(m, Refs(g0[x])[i])
    && Refs(g[x])[i] < |m| && SelfMapped(m, Refs(g[x])[i])
    && Refs(g[x])[i] == Root(m, Refs(g0[x])[i])
  }

  ghost predicate RefInv(g0: Graph, g: Graph, m: IdMap, path: seq<nat>) {
    && |g0| == |g| == |m| <= BTF_MAX_NR_TYPES + 1
    && (forall x :: 0 <= x < |m| ==> RefEntry(g0, g, m, path, x))
  }

  ghost predicate RefEntry(g0: Graph, g: Graph, m: IdMap, path: seq<nat>, x: nat)
    requires |g0| == |g| == |m| && x < |m|
  {
    && (x in path <==> m[x] == IN_PROGRESS)
    && (!Mapped(m, x) ==> IsRefKind(g0[x].info.kind) && (m[x] == UNPROCESSED || m[x] == IN_PROGRESS))
    && (m[x] == UNPROCESSED || !IsRefKind(g0[x].info.kind) ==> g[x] == g0[x])
    && (IsRefKind(g0[x].info.kind) && Mapped(m, x) ==>
          Ends(g0, x) && RefsResolved(g0, g, m, x) && m[x] < |g| && g[m[x]] == g[x])
  }

  /** Entries once written stay as they are. */
  ghost predicate MappedKept(m: IdMap, m': IdMap) {
    |m| == |m'| && forall x :: 0 <= x < |m| && Mapped(m, x) ==> m'[x] == m[x]
  }

  function Pending(m: IdMap): set<nat> {
    set x | 0 <= x < |m| && m[x] == UNPROCESSED
  }

  /** Once mapped, an id resolves to a self-canonical id, and always will. */
  lemma RootMapped(g0: Graph, g: Graph, m: IdMap, path: seq<nat>, exact: bool, x: nat)
    requires MapInv(g0, m, exact) && RefInv(g0, g, m, path) && x < |m| && Mapped(m, x)
    ensures Root(m, x) < |m| && SelfMapped(m, Root(m, x))
  {
    RootKeeps(g0, m, exact, x);
    var r := Root(m, x);
    assert RefEntry(g0, g, m, path, x) && RefEntry(g0, g, m, path, r);
    if IsRefKind(g0[x].info.kind) {
      assert LinkOk(g0, m, x);
    }
  }

  lemma RootKept(g: Graph, m: IdMap, m': IdMap, x: nat)
    requires Ranked(g, m) && MappedKept(m, m') && x < |m| && Mapped(m, x)
    requires Root(m, x) < |m| && Mapped(m, Root(m, x))
    ensures Root(m', x) == Root(m, x)
  {
    var y := Step(m, x);
    var z := Step(m, y);
    assert LinkOk(g, m, x);
    assert Mapped(m, y) ==> LinkOk(g, m, y);
    assert Mapped(m, z) ==> LinkOk(g, m, z);
  }

  /** A reference type all of whose references end ends too. */
  lemma {:induction false} EndsStep(g: Graph, x: nat)
    requires Closed(g) && x < |g|
    requires forall i :: 0 <= i < |Refs(g[x])| ==> Refs(g[x])[i] < |g| && Ends(g, Refs(g[x])[i])
    ensures Ends(g, x)
  {
    var rs := Refs(g[x]);
    var k: nat := 0;
    for j := 0 to |rs|
      invariant forall i :: 0 <= i < j ==> Grounded(g, k, rs[i])
    {
      var kj: nat :| Grounded(g, kj, rs[j]);
      var k' := if k < kj then kj else k;
      forall i | 0 <= i <= j ensures Grounded(g, k', rs[i]) {
        GroundedMonotone(g, if i < j then k else kj, k', rs[i]);
      }
      k := k';
    }
    assert Grounded(g, k + 1, x);
  }

  // ---------------------------------------------------------------------------
  // Steps of the pass

  lemma SlotKept(g0: Graph, g: Graph, g': Graph, m: IdMap, m': IdMap, x: nat, i: nat)
    requires Ranked(g0, m) && |g0| == |g| == |g'| == |m'| && MappedKept(m, m') && x < |m|
    requires |Refs(g'[x])| == |Refs(g[x])| && i < |Refs(g[x])| && Refs(g'[x])[i] == Refs(g[x])[i]
    requires SlotResolved(g0, g, m, x, i)
    ensures SlotResolved(g0, g', m', x, i)
  {
    assert Mapped(m, Refs(g[x])[i]);
    RootKept(g0, m, m', Refs(g0[x])[i]);
  }

  /** An id whose own entry and descriptor do not change keeps its part. */
  lemma EntryKept(g0: Graph, g: Graph, g': Graph, m: IdMap, m': IdMap, path: seq<nat>, path': seq<nat>, x: nat)
    requires Ranked(g0, m) && |g0| == |g| == |g'| == |m'| && MappedKept(m, m') && x < |m|
    requires g'[x] == g[x] && m'[x] == m[x] && (x in path <==> x in path')
    requires IsRefKind(g0[x].info.kind) && m[x] < |g| ==> g'[m[x]] == g[m[x]]
    requires RefEntry(g0, g, m, path, x)
    ensures RefEntry(g0, g', m', path', x)
  {
    if IsRefKind(g0[x].info.kind) && Mapped(m, x) {
      forall i | 0 <= i < |Refs(g0[x])| ensures SlotResolved(g0, g', m', x, i) {
        assert SlotResolved(g0, g, m, x, i);
        SlotKept(g0, g, g', m, m', x, i);
      }
    }
  }

  lemma MarkResolves(g: Graph, m: IdMap, id: nat)
    requires |m| == |g| <= BTF_MAX_NR_TYPES + 1 && id < |m| && m[id] == UNPROCESSED
    ensures Unresolved(g, m[id := IN_PROGRESS]) <==> Unresolved(g, m)
  {
    var m' := m[id := IN_PROGRESS];
    assert forall z :: 0 <= z < |g| ==> (Resolves(g, m', z) <==> Resolves(g, m, z));
  }

  /** Starting on a type: nothing is mapped, the id joins the path. */
  lemma MarkKeepsDedup(off: bool, g0: Graph, g: Graph, m: IdMap, table: seq<(int, nat)>, id: nat)
    requires DedupInv(off, g0, g, m, table) && id < |m| && m[id] == UNPROCESSED
    ensures DedupInv(off, g0, g, m[id := IN_PROGRESS], table)
    ensures MappedKept(m, m[id := IN_PROGRESS]) && Refines(g0, m, m[id := IN_PROGRESS])
  {
    var m' := m[id := IN_PROGRESS];
    forall z | 0 <= z < |m'| && Mapped(m', z)
      ensures LinkOk(g0, m', z) && FamilyOf(g0[m'[z]]) == FamilyOf(g0[z])
      ensures Unresolved(g0, m) ==> Alike(g0, z, m'[z])
      ensures Consistent(g0) ==> Agree(g0, z, m'[z])
    {
      assert Mapped(m, z) && LinkOk(g0, m, z);
    }
    MarkResolves(g0, m, id);
    LinkKeepsDedup(off, g0, g, m, m', table);
  }

  lemma MarkKeepsRefs(g0: Graph, g: Graph, m: IdMap, path: seq<nat>, id: nat)
    requires Ranked(g0, m) && RefInv(g0, g, m, path) && id < |m| && m[id] == UNPROCESSED
    ensures RefInv(g0, g, m[id := IN_PROGRESS], path + [id])
    ensures Pending(m[id := IN_PROGRESS]) < Pending(m)
  {
    var m' := m[id := IN_PROGRESS];
    forall x | 0 <= x < |m'| ensures RefEntry(g0, g, m', path + [id], x) {
      assert RefEntry(g0, g, m, path, x);
      if x != id {
        EntryKept(g0, g, g, m, m', path, path + [id], x);
      }
    }
    assert id in Pending(m) && id !in Pending(m');
  }

  /** Storing a resolved reference in the descriptor being worked on. */
  lemma StoreKeepsDedup(off: bool, g0: Graph, g: Graph, m: IdMap, table: seq<(int, nat)>, id: nat, i: nat, r: nat)
    requires DedupInv(off, g0, g, m, table) && id < |m| && !Mapped(m, id)
    requires i < |Refs(g[id])| && r < |g|
    requires Unresolved(g0, m) ==> Alike(g0, Refs(g[id])[i], r)
    requires Consistent(g0) ==> Refs(g[id])[i] < |g0| && Agree(g0, Refs(g[id])[i], r)
    ensures DedupInv(off, g0, g[id := SetRefs(g[id], Refs(g[id])[i := r])], m, table)
  {
    InvMap(off, g0, g, m, table);
    hide MapInv, Ranked, Unresolved, Consistent, Alike, Agree, TableSound, TableComplete, NoDuplicates, Rewrites;
    hide Rewords, Mapped;
    var rs := Refs(g[id])[i := r];
    var t := SetRefs(g[id], rs);
    var g' := g[id := t];
    SetRefsSpec(g[id], rs);
    assert Closed(g') by {
      assert RefsBelow(g[id], |g|);
      forall y | 0 <= y < |g'| ensures RefsBelow(g'[y], |g'|) && WellFormed(g'[y]) {
        if y != id { assert RefsBelow(g[y], |g|) && WellFormed(g[y]); }
      }
    }
    if Unresolved(g0, m) {
      RewritesSetRef(g0, g, id, i, r);
    }
    if Consistent(g0) {
      RewordsSetRef(g0, g, id, i, r);
    }
    assert SameShapes(g0, g') by {
      assert Shape(g[id]) == Shape(g0[id]);
    }
    StoreKeepsTable(g0, g, g', m, table, id);
  }

  lemma StoreKeepsTable(g0: Graph, g: Graph, g': Graph, m: IdMap, table: seq<(int, nat)>, id: nat)
    requires |g| == |g'| == |m| <= BTF_MAX_NR_TYPES + 1 && id < |m| && !Mapped(m, id) && g' == g[id := g'[id]]
    requires TableSound(g0, g, m, table) && TableComplete(g, m, table)
    ensures TableSound(g0, g', m, table) && TableComplete(g', m, table)
    ensures forall off :: NoDuplicates(off, g, m) ==> NoDuplicates(off, g', m)
  {
    forall i | 0 <= i < |table| ensures EntryOk(g0, g', m, table[i].0, table[i].1) {
      assert EntryOk(g0, g, m, table[i].0, table[i].1);
    }
    forall y | 0 <= y < |m| && SelfMapped(m, y) && IsHashed(g'[y].info.kind) ensures Filed(g', table, y) {
      assert Filed(g, table, y);
    }
  }

  /** What a mapped id points at is mapped. */
  lemma TargetMapped(g: Graph, m: IdMap, x: nat)
    requires Ranked(g, m) && x < |m| && Mapped(m, x)
    ensures m[x] < |m| && (!IsFwdLike(g[x]) ==> Mapped(m, m[x]))
  {
    assert LinkOk(g, m, x);
  }

  lemma StoreKeepsRefs(g0: Graph, g: Graph, g': Graph, m: IdMap, path: seq<nat>, id: nat)
    requires Ranked(g0, m) && RefInv(g0, g, m, path)
    requires id < |m| && m[id] == IN_PROGRESS && |g'| == |g| && g' == g[id := g'[id]]
    ensures RefInv(g0, g', m, path)
  {
    forall x | 0 <= x < |m| ensures RefEntry(g0, g', m, path, x) {
      assert RefEntry(g0, g, m, path, x);
      if x != id {
        if IsRefKind(g0[x].info.kind) && Mapped(m, x) {
          TargetMapped(g0, m, x);
        }
        EntryKept(g0, g, g', m, m, path, path, x);
      }
    }
  }

  /** Finishing a type all of whose references are resolved and end. */
  lemma FinishKeepsRefs(g0: Graph, g: Graph, m: IdMap, path: seq<nat>, id: nat, newId: nat)
    requires Closed(g0) && Ranked(g0, m) && RefInv(g0, g, m, path + [id]) && id !in path
    requires id < |m| && m[id] == IN_PROGRESS && newId < |m|
    requires RefsResolved(g0, g, m, id) && Ends(g0, id) && g[newId] == g[id]
    ensures RefInv(g0, g, m[id := newId], path) && MappedKept(m, m[id := newId])
  {
    var m' := m[id := newId];
    forall x | 0 <= x < |m'| ensures RefEntry(g0, g, m', path, x) {
      assert RefEntry(g0, g, m, path + [id], x);
      if x != id {
        EntryKept(g0, g, g, m, m', path + [id], path, x);
      } else {
        forall i | 0 <= i < |Refs(g0[x])| ensures SlotResolved(g0, g, m', x, i) {
          assert SlotResolved(g0, g, m, x, i);
          SlotKept(g0, g, g, m, m', x, i);
        }
      }
    }
  }

  /** Coming back to a type being worked on closes a cycle. */
  lemma BackEdgeCycle(g: Graph, path: seq<nat>, id: nat)
    requires IsPath(g, path) && path != [] && id in path && RefEdge(g, path[|path| - 1], id)
    ensures HasCycle(g)
  {
    var k :| 0 <= k < |path| && path[k] == id;
    var p := path[k..];
    forall i | 0 <= i < |p| - 1 ensures RefEdge(g, p[i], p[i + 1]) {
      assert RefEdge(g, path[k + i], path[k + i + 1]);
    }
    assert IsCycle(g, p);
  }

  /** Half-way through the slots of `id`: the first `i` are resolved, the others are
      as they came. */
  ghost predicate Progress(g0: Graph, g: Graph, m: IdMap, id: nat, i: nat)
    requires |g0| == |g| == |m| && id < |g|
  {
    && |Refs(g[id])| == |Refs(g0[id])|
    && (forall j :: 0 <= j < |Refs(g0[id])| && j < i ==>
          SlotResolved(g0, g, m, id, j) && Ends(g0, Refs(g0[id])[j]))
    && (forall j :: i <= j < |Refs(g0[id])| ==> Refs(g[id])[j] == Refs(g0[id])[j])
  }

  lemma ProgressKept(g0: Graph, g: Graph, g': Graph, m: IdMap, m': IdMap, id: nat, i: nat)
    requires Ranked(g0, m) && |g0| == |g| == |g'| == |m'| && MappedKept(m, m') && id < |m|
    requires g'[id] == g[id] && Progress(g0, g, m, id, i)
    ensures Progress(g0, g', m', id, i)
  {
    forall j | 0 <= j < |Refs(g0[id])| && j < i ensures SlotResolved(g0, g', m', id, j) {
      assert SlotResolved(g0, g, m, id, j);
      SlotKept(g0, g, g', m, m', id, j);
    }
  }

  lemma ProgressStore(g0: Graph, g: Graph, m: IdMap, id: nat, i: nat, r: nat)
    requires Ranked(g0, m) && |g0| == |g| && id < |g| && Progress(g0, g, m, id, i)
    requires i < |Refs(g0[id])| && Refs(g0[id])[i] < |m| && Mapped(m, Refs(g0[id])[i])
    requires Ends(g0, Refs(g0[id])[i])
    requires r == Root(m, Refs(g0[id])[i]) && r < |m| && SelfMapped(m, r)
    ensures Progress(g0, g[id := SetRefs(g[id], Refs(g[id])[i := r])], m, id, i + 1)
  {
    var rs := Refs(g[id])[i := r];
    SetRefsSpec(g[id], rs);
    var g' := g[id := SetRefs(g[id], rs)];
    forall j | 0 <= j < |Refs(g0[id])| && j < i + 1
      ensures SlotResolved(g0, g', m, id, j)
    {
      if j < i {
        assert SlotResolved(g0, g, m, id, j);
      }
    }
  }

  /** The edge that is followed when slot `i` of the last id on the path is read. */
  lemma SlotEdge(g: Graph, id: nat, i: nat)
    requires Closed(g) && id < |g| && IsRefKind(g[id].info.kind) && i < |Refs(g[id])|
    ensures Refs(g[id])[i] < |g|
    ensures IsRefKind(g[Refs(g[id])[i]].info.kind) ==> RefEdge(g, id, Refs(g[id])[i])
  {
    assert RefsBelow(g[id], |g|);
  }

  lemma PathExtends(g: Graph, path: seq<nat>, id: nat)
    requires IsPath(g, path) && (path == [] || RefEdge(g, path[|path| - 1], id))
    ensures IsPath(g, path + [id])
  {
    var p := path + [id];
    forall i | 0 <= i < |p| - 1 ensures RefEdge(g, p[i], p[i + 1]) {
      if i < |path| - 1 {
        assert RefEdge(g, path[i], path[i + 1]);
      }
    }
  }

  /** What finishing `id` means for the map alone. */
  lemma FinishMap(g0: Graph, m: IdMap, id: nat, newId: nat)
    requires id < |m| <= BTF_MAX_NR_TYPES + 1 && Ranked(g0, m[id := newId])
    requires newId < |m| && !Mapped(m, id) && (newId == id || SelfMapped(m, newId))
    ensures var m' := m[id := newId];
            Mapped(m', id) && newId == Root(m', id) && SelfMapped(m', newId) && Pending(m') <= Pending(m)
  {
    var m' := m[id := newId];
    assert Step(m', newId) == newId;
  }

  /** Where the reference pass starts. */
  lemma RefsBegin(g: Graph, m: IdMap)
    requires Closed(g) && |m| == |g| && StructsDone(g, m, |g|)
    ensures RefInv(g, g, m, [])
  {
    forall x | 0 <= x < |m| ensures RefEntry(g, g, m, [], x) {
      if !IsHashed(g[x].info.kind) {
        assert SelfMapped(m, x);
      }
    }
  }

  /** The types below `n` are done. */
  ghost predicate DoneBelow(g: Graph, m: IdMap, n: nat)
    requires n <= |g| == |m|
  {
    forall x :: 0 <= x < n ==> Mapped(m, x) && Ends(g, x)
  }

  lemma DoneNext(g: Graph, m: IdMap, m': IdMap, n: nat)
    requires n < |g| == |m| <= BTF_MAX_NR_TYPES + 1 && MappedKept(m, m')
    requires DoneBelow(g, m, n) && Mapped(m', n) && Ends(g, n)
    ensures DoneBelow(g, m', n + 1)
  {
    forall x | 0 <= x < n + 1 ensures Mapped(m', x) && Ends(g, x) {
      assert x < n ==> Mapped(m, x);
    }
  }

  lemma VoidDone(g: Graph, m: IdMap)
    requires Closed(g) && |m| == |g| && m[0] == 0
    ensures DoneBelow(g, m, 1)
  {
    assert Grounded(g, 0, 0);
  }
}
