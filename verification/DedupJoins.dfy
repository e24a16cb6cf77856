/** What deduplication takes from elsewhere: its table of candidates is the hash map, and moving
    descriptors is moving their records in the type section. */
module DedupJoins {
  import opened BtfTypes
  import opened BtfCompare
  import opened BtfGraph
  import opened DedupMap
  import opened DedupRemap
  import opened Options
  import opened BtfLayout
  import BtfCompact
  import HashModel
  import opened HashRefine

  // ---------------------------------------------------------------------------
  // The table of candidates

  /** A `long` as a pointer. */
  function KeyOf(h: int): HashModel.Ptr { h % HashModel.WORD }

  predicate IsLong(h: int) { Long(h) == h }

  lemma {:induction false} SigHashIsLong(t: BtfType)
    requires WellFormed(t) && IsHashed(t.info.kind)
    ensures IsLong(SigHash(t))
  {
  }

  lemma KeysDiffer(h: int, k: int)
    requires IsLong(h) && IsLong(k)
    ensures KeyOf(h) == KeyOf(k) <==> h == k
  {
  }

  /** Filing candidates, each under its signature hash, by `hashmap__append`. */
  function Filing(table: seq<(int, nat)>): (ops: seq<Op>)
    ensures |ops| == |table|
  {
    if table == [] then []
    else
      var e := table[|table| - 1];
      Filing(table[..|table| - 1])
      + [OpInsert(KeyOf(e.0), e.1, HashModel.Append, HashModel.Memory(true, true))]
  }

  /** Keys are compared as they are; the hash may be the identity or, to force collisions, a
      constant. */
  ghost predicate ComparesKeys(f: HashModel.Fns) {
    forall a, b :: f.equal(a, b) <==> a == b
  }

  /** The ids filed under a hash. */
  function Under(table: seq<(int, nat)>, h: int): seq<nat> {
    if table == [] then []
    else
      var e := table[|table| - 1];
      Under(table[..|table| - 1], h) + if e.0 == h then [e.1] else []
  }

  function Pairs(key: HashModel.Ptr, ids: seq<nat>): (ps: seq<HashModel.Pair>)
    ensures |ps| == |ids|
  {
    seq(|ids|, i requires 0 <= i < |ids| => HashModel.Pair(key, ids[i]))
  }

  /** There are few enough buckets for the next growth. */
  predicate FewBuckets(size: nat, bits: nat) {
    bits <= 2 || HashModel.Pow2(bits) <= 4 * size
  }

  lemma GrowthKeepsFew(size: nat, bits: nat)
    requires FewBuckets(size, bits)
    ensures FewBuckets(size + 1, bits)
    ensures HashModel.NeedsToGrow(size, HashModel.Cap(bits)) ==> FewBuckets(size + 1, HashModel.GrownBits(bits))
  {
    assert HashModel.Pow2(1) == 2 && HashModel.Pow2(2) == 4;
    assert HashModel.Pow2(bits + 1) == 2 * HashModel.Pow2(bits);
  }

  lemma FewBitsEnough(size: nat, bits: nat)
    requires FewBuckets(size, bits) && size <= BTF_MAX_NR_TYPES + 1
    ensures bits < HashModel.MAX_CAP_BITS
  {
    hide HashModel.Pow2;
    if bits >= 60 {
      ManyBuckets();
      HashModel.Pow2Sum(60, bits - 60);
      AtLeast(HashModel.Pow2(60), HashModel.Pow2(bits - 60));
    }
  }

  lemma AtLeast(a: nat, b: nat)
    requires b > 0
    ensures a * b >= a
  {
  }

  lemma ManyBuckets()
    ensures HashModel.Pow2(60) > 0x1_0000_0000_0000
  {
    Pow2Ten();
    hide HashModel.Pow2;
    HashModel.Pow2Sum(10, 10);
    HashModel.Pow2Sum(20, 20);
    HashModel.Pow2Sum(40, 20);
  }

  lemma Pow2Ten()
    ensures HashModel.Pow2(10) == 1024
  {
  }

  lemma PairsMore(key: HashModel.Ptr, ids: seq<nat>, id: nat)
    ensures Pairs(key, ids + [id]) == Pairs(key, ids) + [HashModel.Pair(key, id)]
  {
  }

  /** Filing never fails, and leaves under every key what was filed under its hash. */
  lemma {:induction false} FiledEntries(f: HashModel.Fns, table: seq<(int, nat)>, h: int)
    requires ComparesKeys(f) && |table| <= BTF_MAX_NR_TYPES && IsLong(h)
    requires forall i :: 0 <= i < |table| ==> IsLong(table[i].0)
    ensures Counted(f, Filing(table)).size == |table|
    ensures FewBuckets(|table|, Counted(f, Filing(table)).bits)
    ensures multiset(Stored(f, Filing(table), KeyOf(h))) == multiset(Pairs(KeyOf(h), Under(table, h)))
  {
    hide Stored, Counted, FewBuckets, IsLong, KeyOf, HashModel.NeedsToGrow, HashModel.Pow2, HashModel.Reverse;
    hide HashModel.Cap, HashModel.GrownBits, Pairs;
    if table == [] {
      NothingStored(f, KeyOf(h));
      NoBuckets();
    } else {
      var e, before := table[|table| - 1], table[..|table| - 1];
      FiledEntries(f, before, h);
      var c := Counted(f, Filing(before));
      FewBitsEnough(c.size, c.bits);
      GrowthKeepsFew(c.size, c.bits);
      KeysDiffer(e.0, h);
      AppendTo(f, Filing(before), KeyOf(e.0), e.1, KeyOf(h));
      ReverseBag(Stored(f, Filing(before), KeyOf(h)));
      PairsMore(KeyOf(h), Under(before, h), e.1);
      FrontBag(HashModel.Pair(KeyOf(h), e.1), Stored(f, Filing(before), KeyOf(h)));
      FrontBag(HashModel.Pair(KeyOf(h), e.1), HashModel.Reverse(Stored(f, Filing(before), KeyOf(h))));
      assert f.equal(KeyOf(e.0), KeyOf(h)) <==> e.0 == h;
      assert e.0 != h ==> Under(table, h) == Under(before, h);
    }
  }

  lemma NoBuckets()
    ensures FewBuckets(0, 0)
  {
  }

  /** The entries the hash map has under the key of a hash once a table has been filed. */
  ghost function EntriesFiled(f: HashModel.Fns, table: seq<(int, nat)>, h: int): seq<HashModel.Pair>
    requires HashModel.Coherent(f)
  {
    HashModel.Entries(f, Run(f, Filing(table)), KeyOf(h))
  }

  /** The table of candidates kept by deduplication is what the hash map holds, under either
      hash function: iterating over the key of a hash meets exactly the candidates filed under
      it, each once for each filing. */
  lemma TableIsHashMap(f: HashModel.Fns, table: seq<(int, nat)>, h: int)
    requires ComparesKeys(f) && HashModel.Coherent(f) && |table| <= BTF_MAX_NR_TYPES && IsLong(h)
    requires forall i :: 0 <= i < |table| ==> IsLong(table[i].0)
    ensures multiset(EntriesFiled(f, table, h)) == multiset(Pairs(KeyOf(h), Under(table, h)))
    ensures forall id: nat :: HashModel.Pair(KeyOf(h), id) in EntriesFiled(f, table, h) <==> (h, id) in table
  {
    hide *;
    FiledAre(f, table, h);
    forall id: nat ensures HashModel.Pair(KeyOf(h), id) in EntriesFiled(f, table, h) <==> (h, id) in table {
      FiledIs(f, table, h, id);
    }
  }

  lemma FiledAre(f: HashModel.Fns, table: seq<(int, nat)>, h: int)
    requires ComparesKeys(f) && HashModel.Coherent(f) && |table| <= BTF_MAX_NR_TYPES && IsLong(h)
    requires forall i :: 0 <= i < |table| ==> IsLong(table[i].0)
    ensures multiset(EntriesFiled(f, table, h)) == multiset(Pairs(KeyOf(h), Under(table, h)))
  {
    hide Run, Stored, Counted, Filing, HashModel.Entries, HashModel.Coherent, KeyOf, Pairs, Under, IsLong, FewBuckets;
    RunRefines(f, Filing(table));
    FiledEntries(f, table, h);
  }

  lemma FiledIs(f: HashModel.Fns, table: seq<(int, nat)>, h: int, id: nat)
    requires HashModel.Coherent(f)
    requires multiset(EntriesFiled(f, table, h)) == multiset(Pairs(KeyOf(h), Under(table, h)))
    ensures HashModel.Pair(KeyOf(h), id) in EntriesFiled(f, table, h) <==> (h, id) in table
  {
    hide *;
    UnderHas(table, h, id);
    PairsHave(KeyOf(h), Under(table, h), id);
    var e, es, ps := HashModel.Pair(KeyOf(h), id), EntriesFiled(f, table, h), Pairs(KeyOf(h), Under(table, h));
    assert e in es <==> e in multiset(es);
    assert e in ps <==> e in multiset(ps);
  }

  lemma {:induction false} UnderHas(table: seq<(int, nat)>, h: int, id: nat)
    ensures id in Under(table, h) <==> (h, id) in table
  {
    if table != [] {
      var before := table[..|table| - 1];
      UnderHas(before, h, id);
      assert table == before + [table[|table| - 1]];
    }
  }

  lemma PairsHave(key: HashModel.Ptr, ids: seq<nat>, id: nat)
    ensures HashModel.Pair(key, id) in Pairs(key, ids) <==> id in ids
  {
    if id in ids {
      var i :| 0 <= i < |ids| && ids[i] == id;
      assert Pairs(key, ids)[i] == HashModel.Pair(key, id);
    }
  }

  // ---------------------------------------------------------------------------
  // Compaction

  /** The records kept are those of the canonical types after void. */
  lemma {:induction false} KeptAreCanonical(m: IdMap, n: nat)
    requires n + 1 <= |m| && m[0] == 0
    ensures |CanonIds(m, n + 1)| == |BtfCompact.KeptIndices(m, n)| + 1 && CanonIds(m, n + 1)[0] == 0
    ensures forall k :: 0 <= k < |BtfCompact.KeptIndices(m, n)| ==>
              CanonIds(m, n + 1)[k + 1] == BtfCompact.KeptIndices(m, n)[k] + 1
  {
    if n == 0 {
      FirstCanonId(m, 1);
    } else {
      KeptAreCanonical(m, n - 1);
    }
  }

  lemma CompactedAt(g: Graph, m: IdMap, ts: Graph, h: IdMap, next: nat)
    requires CompactedTo(g, m, ts, h, |m|, next)
    ensures |ts| == |m| == |g| && next == CanonCount(m, |m|) && next <= |ts|
    ensures forall k :: 0 <= k < next ==> ts[k] == g[CanonIds(m, |m|)[k]]
  {
  }

  lemma CompactedTypes(g: Graph, m: IdMap, ts: Graph, h: IdMap, next: nat)
    requires 0 < |g| && |m| == |g| && m[0] == 0 && CompactedTo(g, m, ts, h, |m|, next)
    ensures 0 < next <= |ts| && ts[1..next] == BtfCompact.KeptTypes(g[1..], m, |g| - 1)
  {
    CompactedAt(g, m, ts, h, next);
    KeptAreCanonical(m, |g| - 1);
    BtfCompact.KeptTypesAre(g[1..], m, |g| - 1);
    hide BtfCompact.KeptTypes, CanonIds, CanonCount, BtfCompact.KeptIndices, CompactedTo;
    var kept, ids := BtfCompact.KeptTypes(g[1..], m, |g| - 1), CanonIds(m, |m|);
    forall k | 0 <= k < |kept| ensures ts[1..next][k] == kept[k] {
      assert ts[k + 1] == g[ids[k + 1]];
    }
  }

  /** Moving descriptors down is moving their records down: compacting the words of the
      descriptors leaves the words of the descriptors that compaction leaves. */
  lemma CompactionEncodes(g: Graph, m: IdMap, ts: Graph, h: IdMap, next: nat)
    requires 0 < |g| && AllStorable(g[1..]) && |m| == |g| && m[0] == 0
    requires CompactedTo(g, m, ts, h, |m|, next)
    ensures 0 < next <= |ts|
    ensures BtfCompact.AllFit(Section(g[1..]), Starts(g[1..]))
    ensures BtfCompact.KeptWords(Section(g[1..]), Starts(g[1..]), m, |g| - 1) == Section(ts[1..next])
    ensures BtfCompact.KeptOffs(Section(g[1..]), Starts(g[1..]), m, |g| - 1) == Starts(ts[1..next])
  {
    hide *;
    BtfCompact.KeptSection(g[1..], m, |g| - 1);
    CompactedTypes(g, m, ts, h, next);
  }
}
