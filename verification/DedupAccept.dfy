/** What exactly an accepted comparison does: which hypotheses it records, in which order,
    and what the canonical map is once they have been merged. */
module DedupAccept {
  import opened BtfTypes
  import opened BtfCompare
  import opened BtfGraph
  import opened BtfAgree
  import opened DedupMap
  import opened DedupComplete

  /** The slots of a descriptor in the order a comparison follows them: the index type of
      an array comes before its element type. */
  function SlotOrder(t: BtfType): (order: seq<nat>)
    ensures |order| == |Refs(t)|
    ensures forall i :: 0 <= i < |order| ==> order[i] < |order| && order[order[i]] == i
  {
    if t.tail.ArrayTail? then [1, 0] else seq(|Refs(t)|, j => j)
  }

  /** The ids in those slots. */
  function SlotIds(t: BtfType): (ids: seq<nat>)
    ensures |ids| == |Refs(t)|
    ensures forall j :: 0 <= j < |ids| ==> ids[j] == Refs(t)[SlotOrder(t)[j]]
  {
    seq(|Refs(t)|, j requires 0 <= j < |Refs(t)| => Refs(t)[SlotOrder(t)[j]])
  }

  /** `s` is recorded, in this order, by a comparison that comes to canonical-side `c`:
      nothing, or first `c` itself and then what its slots record one after the other. */
  ghost predicate Recorded(g: Graph, m: IdMap, c: nat, s: seq<nat>)
    requires Ranked(g, m)
    decreases |s|, 0
  {
    s == [] || (c < |g| && s[0] == FwdId(g, m, c) && RecordedSlots(g, m, SlotIds(g[s[0]]), s[1..]))
  }

  ghost predicate RecordedSlots(g: Graph, m: IdMap, cs: seq<nat>, s: seq<nat>)
    requires Ranked(g, m)
    decreases |s|, |cs| + 1
  {
    if cs == [] then s == []
    else
      exists n :: 0 <= n <= |s| && RecordedSlots(g, m, cs[..|cs| - 1], s[..n]) && Recorded(g, m, cs[|cs| - 1], s[n..])
  }

  lemma RecordedFirst(g: Graph, m: IdMap, c: nat, s: seq<nat>)
    requires Ranked(g, m) && s != [] && Recorded(g, m, c, s)
    ensures c < |g| && s[0] == FwdId(g, m, c) && RecordedSlots(g, m, SlotIds(g[s[0]]), s[1..])
  {
  }

  lemma RecordedSlot(g: Graph, m: IdMap, a: nat, s: seq<nat>)
    requires Ranked(g, m) && RecordedSlots(g, m, [a], s)
    ensures Recorded(g, m, a, s)
  {
    hide Recorded;
    assert [a][..0] == [];
    var n :| 0 <= n <= |s| && RecordedSlots(g, m, [], s[..n]) && Recorded(g, m, a, s[n..]);
    assert s[n..] == s;
  }

  lemma RecordedTwo(g: Graph, m: IdMap, a: nat, b: nat, s: seq<nat>) returns (t: seq<nat>, u: seq<nat>)
    requires Ranked(g, m) && RecordedSlots(g, m, [a, b], s)
    ensures s == t + u && Recorded(g, m, a, t) && Recorded(g, m, b, u)
  {
    hide Recorded;
    assert [a, b][..1] == [a];
    var n :| 0 <= n <= |s| && RecordedSlots(g, m, [a], s[..n]) && Recorded(g, m, b, s[n..]);
    t, u := s[..n], s[n..];
    RecordedSlot(g, m, a, t);
  }

  /** The list of recorded ids has grown by a comparison that came to `c`. */
  ghost predicate Grown(g: Graph, m: IdMap, c: nat, list: seq<nat>, list': seq<nat>)
    requires Ranked(g, m)
  {
    list <= list' && Recorded(g, m, c, list'[|list|..])
  }

  ghost predicate GrownSlots(g: Graph, m: IdMap, cs: seq<nat>, list: seq<nat>, list': seq<nat>)
    requires Ranked(g, m)
  {
    list <= list' && RecordedSlots(g, m, cs, list'[|list|..])
  }

  lemma NoneGrown(g: Graph, m: IdMap, c: nat, list: seq<nat>)
    requires Ranked(g, m)
    ensures Grown(g, m, c, list, list)
  {
  }

  lemma {:induction false} NoSlotsGrown(g: Graph, m: IdMap, cs: seq<nat>, list: seq<nat>)
    requires Ranked(g, m)
    ensures GrownSlots(g, m, cs, list, list)
  {
    if cs != [] {
      NoSlotsGrown(g, m, cs[..|cs| - 1], list);
      var s := list[|list|..];
      assert s == [] && s[..0] == s && s[0..] == s;
    }
  }

  lemma SlotGrown(g: Graph, m: IdMap, cs: seq<nat>, c: nat, list0: seq<nat>, list1: seq<nat>, list2: seq<nat>)
    requires Ranked(g, m) && GrownSlots(g, m, cs, list0, list1) && Grown(g, m, c, list1, list2)
    ensures GrownSlots(g, m, cs + [c], list0, list2)
  {
    var s, n := list2[|list0|..], |list1| - |list0|;
    assert (cs + [c])[..|cs|] == cs;
    assert s[..n] == list1[|list0|..] && s[n..] == list2[|list1|..];
  }

  lemma PairGrown(g: Graph, m: IdMap, c: nat, list: seq<nat>, list': seq<nat>)
    requires Ranked(g, m) && c < |g|
    requires var f := FwdId(g, m, c); GrownSlots(g, m, SlotIds(g[f]), list + [f], list')
    ensures Grown(g, m, c, list, list')
  {
    var f := FwdId(g, m, c);
    var s := list'[|list|..];
    assert (list + [f])[|list|] == f;
    assert s[0] == f && s[1..] == list'[|list| + 1..];
  }

  /** Half-way through the slots of (a, c), from `h0` and `list0` on: the first `j` in order have
      been accepted, all that is recorded is compared, was needed, and is in order. */
  ghost predicate SlotsSoFar(g: Graph, m: IdMap, off: bool, a: nat, c: nat, h0: IdMap, h: IdMap,
                             list0: seq<nat>, list: seq<nat>, j: nat)
    requires Ranked(g, m)
  {
    && |h0| == |h| == |g| && a < |g| && c < |g| && j <= |SlotOrder(g[c])|
    && Extends(h0, h) && NewChecked(g, m, h0, h, off)
    && FirstJustified(g, m, h, a, c, SlotOrder(g[c]), j)
    && SlotsForced(g, m, h0, h, off, a, c)
    && GrownSlots(g, m, SlotIds(g[c])[..j], list0, list)
  }

  lemma NoSlotsYet(g: Graph, m: IdMap, off: bool, a: nat, c: nat, h: IdMap, list: seq<nat>)
    requires Ranked(g, m) && |h| == |g| && a < |g| && c < |g|
    ensures SlotsSoFar(g, m, off, a, c, h, h, list, list, 0)
  {
    NoSlotsGrown(g, m, [], list);
    SlotsAlone(g, m, h, off, a, c);
    NoneCompared(g, m, h, off, a, c, SlotOrder(g[c]));
    assert SlotIds(g[c])[..0] == [];
  }

  /** One slot more was accepted. */
  lemma SlotAccepted(g: Graph, m: IdMap, off: bool, a: nat, c: nat, h0: IdMap, h: IdMap, h': IdMap,
                     list0: seq<nat>, list: seq<nat>, list': seq<nat>, j: nat)
    requires Ranked(g, m) && SlotsSoFar(g, m, off, a, c, h0, h, list0, list, j)
    requires j < |SlotOrder(g[c])| && SlotOrder(g[c])[j] < |Refs(g[a])|
    requires var x, y := Refs(g[a])[SlotOrder(g[c])[j]], Refs(g[c])[SlotOrder(g[c])[j]];
             && |h'| == |g| && x < |g| && y < |g| && Extends(h, h') && NewChecked(g, m, h, h', off)
             && Justified(g, m, h', x, y) && Forced(g, m, h, h', off, x, y) && Grown(g, m, y, list, list')
    ensures SlotsSoFar(g, m, off, a, c, h0, h', list0, list', j + 1)
  {
    hide NewChecked, FirstJustified, SlotsForced, GrownSlots, Grown, Justified, Forced, Ranked;
    var order, ids := SlotOrder(g[c]), SlotIds(g[c]);
    NextSlot(g, m, h0, h, h', off, a, c, order[j]);
    NewCheckedTrans(g, m, h0, h, h', off);
    FirstJustifiedNext(g, m, h, h', a, c, order, j);
    SlotGrown(g, m, ids[..j], ids[j], list0, list, list');
    assert ids[..j + 1] == ids[..j] + [ids[j]];
  }

  lemma SlotRefused(g: Graph, m: IdMap, off: bool, a: nat, c: nat, h0: IdMap, h: IdMap,
                    list0: seq<nat>, list: seq<nat>, j: nat)
    requires Ranked(g, m) && SlotsSoFar(g, m, off, a, c, h0, h, list0, list, j)
    requires j < |SlotOrder(g[c])| && SlotOrder(g[c])[j] < |Refs(g[a])|
    requires var x, y := Refs(g[a])[SlotOrder(g[c])[j]], Refs(g[c])[SlotOrder(g[c])[j]];
             x < |g| && y < |g| && Refuted(g, m, h, off, x, y)
    ensures SlotsRefuted(g, m, h0, off, a, c)
  {
    hide NewChecked, FirstJustified, SlotsForced, GrownSlots, Refuted, Ranked, SlotsRefuted;
    NextSlot(g, m, h0, h, h, off, a, c, SlotOrder(g[c])[j]);
  }

  lemma SlotsAccepted(g: Graph, m: IdMap, off: bool, a: nat, c: nat, h0: IdMap, h: IdMap,
                      list0: seq<nat>, list: seq<nat>)
    requires Ranked(g, m) && c < |g| && SlotsSoFar(g, m, off, a, c, h0, h, list0, list, |SlotOrder(g[c])|)
    ensures SlotsJustified(g, m, h, a, c) && NewChecked(g, m, h0, h, off) && Extends(h0, h)
    ensures SlotsForced(g, m, h0, h, off, a, c) && GrownSlots(g, m, SlotIds(g[c]), list0, list)
  {
    hide NewChecked, SlotsForced, GrownSlots, Ranked, SlotsJustified, FirstJustified;
    AllSlotsJustified(g, m, h, a, c, SlotOrder(g[c]));
    assert SlotIds(g[c])[..|SlotOrder(g[c])|] == SlotIds(g[c]);
  }

  // ---------------------------------------------------------------------------
  // Acceptance

  function NoHypotheses(n: nat): IdMap { seq(n, i => UNPROCESSED) }

  lemma AllNewChecked(g: Graph, m: IdMap, h: IdMap, off: bool)
    requires Ranked(g, m) && |h| == |g| && NewChecked(g, m, NoHypotheses(|g|), h, off)
    ensures AllChecked(g, m, h, off)
  {
  }

  /** What an accepted comparison proves: sameness if nothing can be resolved, agreement up to
      forwards if they have one meaning each. */
  lemma AcceptedSound(g: Graph, m: IdMap, off: bool, a: nat, c: nat, h: IdMap)
    requires MapInv(g, m, Unresolved(g, m)) && |h| == |g| && a < |g| && c < |g|
    requires AllChecked(g, m, h, off) && Justified(g, m, h, a, c)
    ensures off && Unresolved(g, m) ==> Alike(g, a, c)
    ensures Consistent(g) ==> Agree(g, a, c)
  {
    if off && Unresolved(g, m) {
      forall c | 0 <= c < |h| && h[c] != UNPROCESSED ensures h[c] < |g| && !Mixed(g, h[c], c) {
        assert Checked(g, m, h, off, c);
      }
      ComparisonSound(g, m, h, off, a, c);
    }
    if Consistent(g) {
      ComparisonAgrees(g, m, Unresolved(g, m), h, off, a, c);
    }
  }

  /** The comparison of `id` with `cand` was accepted with `h`, recorded in the order of
      `list`: all of it compared with success, and none of it without need. */
  ghost predicate AcceptedBy(g: Graph, m: IdMap, off: bool, id: nat, cand: nat, h: IdMap, list: seq<nat>)
    requires Ranked(g, m)
  {
    && id < |g| && cand < |g|
    && HypotOk(h, list, |g|)
    && AllChecked(g, m, h, off)
    && Justified(g, m, h, id, cand)
    && Forced(g, m, NoHypotheses(|g|), h, off, id, cand)
    && Recorded(g, m, cand, list)
  }

  /** `m'` is `m` with an accepted comparison of `id` with `cand` merged in. */
  ghost predicate Merged(g: Graph, m: IdMap, m': IdMap, off: bool, id: nat, cand: nat) {
    MapInv(g, m, false) &&
    exists h, list :: AcceptedBy(g, m, off, id, cand, h, list) && MergedBy(g, m, m', h, list)
  }

  ghost predicate MergedBy(g: Graph, m: IdMap, m': IdMap, h: IdMap, list: seq<nat>)
    requires MapInv(g, m, false)
  {
    PairsOk(g, false, list, h) && m' == MergeAll(g, m, list, h)
  }

  lemma MergedOf(g: Graph, m: IdMap, m': IdMap, off: bool, id: nat, cand: nat, h: IdMap, list: seq<nat>)
    requires MapInv(g, m, false) && AcceptedBy(g, m, off, id, cand, h, list) && MergedBy(g, m, m', h, list)
    ensures Merged(g, m, m', off, id, cand)
  {
  }

  /** A struct or union `id` has got a representative: a canonical one of its shape that a
      comparison accepted, and the comparison has been merged. */
  ghost predicate Joined(g: Graph, m: IdMap, m': IdMap, off: bool, id: nat) {
    id < |g| == |m| && exists cand, m1 :: JoinedTo(g, m, m1, m', off, id, cand)
  }

  ghost predicate JoinedTo(g: Graph, m: IdMap, m1: IdMap, m': IdMap, off: bool, id: nat, cand: nat)
    requires id < |g| == |m|
  {
    && cand < |g| && Shape(g[cand]) == Shape(g[id]) && SelfMapped(m, cand)
    && |m1| == |m| && Merged(g, m, m1, off, id, cand)
    && m' == m1[id := cand]
  }

  lemma JoinedOf(g: Graph, m: IdMap, m1: IdMap, m': IdMap, off: bool, id: nat, cand: nat)
    requires id < |g| == |m| && JoinedTo(g, m, m1, m', off, id, cand)
    ensures Joined(g, m, m', off, id)
  {
  }

  /** What deduplicating one struct or union does to the canonical map. */
  ghost predicate StructOutcome(g: Graph, m: IdMap, m': IdMap, table: seq<(int, nat)>, off: bool, id: nat) {
    Closed(g) && Ranked(g, m) && id < |g| &&
    if Mapped(m, id) || !IsComposite(g[id].info.kind) then m' == m
    else (m' == m[id := id] && NoneFiled(g, m, table, off, id, SigHash(g[id]))) || Joined(g, m, m', off, id)
  }
}
