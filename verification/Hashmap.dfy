/** libbpf's hash map: an array of linked chains that grows by moving every entry.
    `HashModel` says what each operation does to the chains, `HashRefine` what that
    means to a caller. */
module Hashmap {
  import opened HashModel
  import opened Options
  import HashRefine

  class Entry {
    var key: Ptr
    var value: Ptr
    var next: Entry?
    /** The bucket array and bucket this entry is linked into. */
    ghost var home: array?<Entry?>
    ghost var slot: nat

    constructor (key: Ptr, value: Ptr)
      ensures Data() == Pair(key, value) && home == null
    {
      this.key, this.value, next := key, value, null;
      home, slot := null, 0;
    }

    function Data(): Pair
      reads this`key, this`value
    {
      Pair(key, value)
    }
  }

  function At(c: seq<Entry>, i: nat): Entry? {
    if i < |c| then c[i] else null
  }

  ghost predicate Distinct(c: seq<Entry>) {
    forall i, j :: 0 <= i < j < |c| ==> c[i] != c[j]
  }

  /** The entries `c` are linked in this order for bucket `b` of `bk`, and hold `p`. */
  ghost predicate BodyOk(bk: array<Entry?>, b: nat, c: seq<Entry>, p: seq<Pair>)
    reads c
  {
    && Distinct(c) && |c| == |p|
    && forall i :: 0 <= i < |c| ==>
         c[i].home == bk && c[i].slot == b && c[i].next == At(c, i + 1) && c[i].Data() == p[i]
  }

  ghost predicate ChainOk(bk: array<Entry?>, b: nat, c: seq<Entry>, p: seq<Pair>)
    reads bk, c
  {
    b < bk.Length && bk[b] == At(c, 0) && BodyOk(bk, b, c, p)
  }

  ghost function Members(cs: seq<seq<Entry>>): set<Entry> {
    set b, i | 0 <= b < |cs| && 0 <= i < |cs[b]| :: cs[b][i]
  }

  ghost predicate ChainsOk(bk: array<Entry?>, cs: seq<seq<Entry>>, ps: seq<seq<Pair>>)
    reads bk, Members(cs)
  {
    |cs| == |ps| == bk.Length && forall b :: 0 <= b < |cs| ==> ChainOk(bk, b, cs[b], ps[b])
  }

  lemma NotIn(bk: array<Entry?>, b: nat, c: seq<Entry>, p: seq<Pair>, e: Entry)
    requires BodyOk(bk, b, c, p) && (e.home != bk || e.slot != b)
    ensures e !in c
  {
  }

  lemma FrontOk(bk: array<Entry?>, b: nat, c: seq<Entry>, p: seq<Pair>, e: Entry)
    requires BodyOk(bk, b, c, p) && e !in c && e.home == bk && e.slot == b && e.next == At(c, 0)
    ensures BodyOk(bk, b, [e] + c, [e.Data()] + p)
  {
  }

  /** Puts an entry at the head of a bucket. */
  method AddEntry(bk: array<Entry?>, h: nat, e: Entry, ghost cs: seq<seq<Entry>>, ghost ps: seq<seq<Pair>>)
    requires ChainsOk(bk, cs, ps) && h < bk.Length && e.home != bk
    modifies bk, e`next, e`home, e`slot
    ensures ChainsOk(bk, cs[h := [e] + cs[h]], ps[h := [e.Data()] + ps[h]])
  {
    forall b | 0 <= b < |cs| ensures e !in cs[b] && bk[b] == At(cs[b], 0) && BodyOk(bk, b, cs[b], ps[b]) {
      assert ChainOk(bk, b, cs[b], ps[b]);
      NotIn(bk, b, cs[b], ps[b], e);
    }
    hide BodyOk;
    e.next := bk[h];
    bk[h] := e;
    e.home, e.slot := bk, h;
    FrontOk(bk, h, cs[h], ps[h], e);
  }

  lemma MembersPushed(cs: seq<seq<Entry>>, h: nat, e: Entry)
    requires h < |cs|
    ensures Members(cs[h := [e] + cs[h]]) == Members(cs) + {e}
  {
    var r := cs[h := [e] + cs[h]];
    forall x | x in Members(cs) + {e} ensures x in Members(r) {
      if x in Members(cs) {
        var b, i :| 0 <= b < |cs| && 0 <= i < |cs[b]| && cs[b][i] == x;
        assert r[b][if b == h then i + 1 else i] == x;
      } else {
        assert r[h][0] == x;
      }
    }
    forall x | x in Members(r) ensures x in Members(cs) + {e} {
      var b, i :| 0 <= b < |r| && 0 <= i < |r[b]| && r[b][i] == x;
      if b != h {
        assert cs[b][i] == x;
      } else if i > 0 {
        assert cs[b][i - 1] == x;
      }
    }
  }

  lemma MembersUnlinked(cs: seq<seq<Entry>>, h: nat, i: nat)
    requires h < |cs| && i < |cs[h]|
    ensures Members(cs[h := cs[h][..i] + cs[h][i + 1..]]) <= Members(cs)
  {
  }

  lemma MembersHas(cs: seq<seq<Entry>>, b: nat)
    requires b < |cs|
    ensures forall e :: e in cs[b] ==> e in Members(cs)
  {
  }

  lemma RestOk(bk: array<Entry?>, b: nat, c: seq<Entry>, p: seq<Pair>)
    requires BodyOk(bk, b, c, p) && c != []
    ensures BodyOk(bk, b, c[1..], p[1..]) && c[0] !in c[1..] && c[0].next == At(c[1..], 0)
    ensures c[0].Data() == p[0] && c[0].home == bk
  {
    assert forall i :: 0 <= i < |c| - 1 ==> c[1..][i] == c[i + 1];
  }

  lemma RehashOneMore(f: Fns, bits: nat, es: seq<Pair>, p: seq<Pair>, i: nat)
    requires bits <= MAX_CAP_BITS && i < |p|
    ensures Rehash(f, bits, es + p[..i + 1]) == Push(f, bits, Rehash(f, bits, es + p[..i]), p[i])
  {
    var r := es + p[..i + 1];
    assert r[..|r| - 1] == es + p[..i];
  }

  /** Moves the entries of one old chain, in its order, to the front of their new ones. */
  method MoveChain(f: Fns, bits: nat, first: Entry?, newBuckets: array<Entry?>, ghost bk: array<Entry?>,
                   ghost b: nat, ghost c: seq<Entry>, ghost p: seq<Pair>,
                   ghost ns: seq<seq<Entry>>, ghost es: seq<Pair>)
    returns (ghost r: seq<seq<Entry>>)
    requires bits <= MAX_CAP_BITS && newBuckets.Length == Pow2(bits) && bk != newBuckets
    requires ChainsOk(newBuckets, ns, Rehash(f, bits, es))
    requires BodyOk(bk, b, c, p) && first == At(c, 0)
    modifies newBuckets, c
    ensures ChainsOk(newBuckets, r, Rehash(f, bits, es + p))
    ensures forall e :: e in Members(r) ==> e in Members(ns) || e in c
  {
    hide BodyOk, ChainsOk, Rehash, Pow2, HashBits, Members;
    var cur := first;
    ghost var i, rest, restp := 0, c, p;
    r := ns;
    assert |c| == |p| by {
      LengthsAgree(bk, b, c, p);
    }
    assert es + p[..0] == es;
    while cur != null
      invariant 0 <= i <= |c| == |p| && rest == c[i..] && restp == p[i..] && cur == At(rest, 0)
      invariant BodyOk(bk, b, rest, restp) && ChainsOk(newBuckets, r, Rehash(f, bits, es + p[..i]))
      invariant forall e :: e in Members(r) ==> e in Members(ns) || e in c
      decreases |rest|
    {
      assert cur == c[i];
      RestOk(bk, b, rest, restp);
      var tmp := cur.next;
      ghost var ps := Rehash(f, bits, es + p[..i]);
      var h := HashBits(f.hash(cur.key), bits);
      LengthOf(newBuckets, r, ps);
      AddEntry(newBuckets, h, cur, r, ps);
      RehashOneMore(f, bits, es, p, i);
      MembersPushed(r, h, cur);
      r := r[h := [cur] + r[h]];
      rest, restp, i := rest[1..], restp[1..], i + 1;
      cur := tmp;
    }
    assert p[..i] == p;
  }

  lemma LengthsAgree(bk: array<Entry?>, b: nat, c: seq<Entry>, p: seq<Pair>)
    requires BodyOk(bk, b, c, p)
    ensures |c| == |p|
  {
  }

  lemma LengthOf(bk: array<Entry?>, cs: seq<seq<Entry>>, ps: seq<seq<Pair>>)
    requires ChainsOk(bk, cs, ps)
    ensures |cs| == |ps| == bk.Length
  {
  }

  lemma Disjoint(bk: array<Entry?>, cs: seq<seq<Entry>>, ps: seq<seq<Pair>>, a: nat, b: nat)
    requires |cs| == |ps| && a < |cs| && b < |cs| && a != b
    requires BodyOk(bk, a, cs[a], ps[a]) && BodyOk(bk, b, cs[b], ps[b])
    ensures forall e :: e in cs[a] ==> e !in cs[b]
  {
    forall e | e in cs[a] ensures e !in cs[b] {
      var i :| 0 <= i < |cs[a]| && cs[a][i] == e;
      NotIn(bk, b, cs[b], ps[b], e);
    }
  }

  lemma AllEmpty(bk: array<Entry?>, f: Fns, bits: nat)
    requires bits <= MAX_CAP_BITS && bk.Length == Pow2(bits) && forall b :: 0 <= b < bk.Length ==> bk[b] == null
    ensures ChainsOk(bk, seq(bk.Length, _ => []), Rehash(f, bits, []))
  {
  }

  lemma FlatOneMore(ps: seq<seq<Pair>>, b: nat)
    requires b < |ps|
    ensures Flat(ps[..b + 1]) == Flat(ps[..b]) + ps[b]
  {
    assert ps[..b + 1][..b] == ps[..b];
  }

  /** The array that `calloc` gives. */
  method EmptyBuckets(f: Fns, bits: nat) returns (bk: array<Entry?>, ghost cs: seq<seq<Entry>>)
    requires bits <= MAX_CAP_BITS
    ensures fresh(bk) && bk.Length == Pow2(bits) && ChainsOk(bk, cs, Rehash(f, bits, [])) && Members(cs) == {}
  {
    bk := new Entry?[Pow2(bits)](_ => null);
    cs := seq(bk.Length, _ => []);
    AllEmpty(bk, f, bits);
  }

  /** Moves all chains, bucket by bucket. */
  method MoveChains(f: Fns, bits: nat, buckets: array<Entry?>, newBuckets: array<Entry?>,
                    ghost cs: seq<seq<Entry>>, ghost ps: seq<seq<Pair>>, ghost empty: seq<seq<Entry>>)
    returns (ghost ns: seq<seq<Entry>>)
    requires bits <= MAX_CAP_BITS && newBuckets.Length == Pow2(bits) && buckets != newBuckets
    requires ChainsOk(newBuckets, empty, Rehash(f, bits, []))
    requires ChainsOk(buckets, cs, ps)
    modifies newBuckets, Members(cs)
    ensures ChainsOk(newBuckets, ns, Rehash(f, bits, Flat(ps)))
    ensures forall e :: e in Members(ns) ==> e in Members(empty) || e in Members(cs)
  {
    ns := empty;
    assert Flat(ps[..0]) == [];
    hide BodyOk, Rehash, Flat, Pow2;
    for bkt := 0 to buckets.Length
      invariant forall e :: e in Members(ns) ==> e in Members(empty) || e in Members(cs)
      invariant ChainsOk(newBuckets, ns, Rehash(f, bits, Flat(ps[..bkt])))
      invariant forall b :: bkt <= b < |cs| ==> ChainOk(buckets, b, cs[b], ps[b])
    {
      FlatOneMore(ps, bkt);
      MembersHas(cs, bkt);
      forall b | bkt < b < |cs| ensures forall e :: e in cs[bkt] ==> e !in cs[b] {
        assert ChainOk(buckets, b, cs[b], ps[b]);
        Disjoint(buckets, cs, ps, bkt, b);
      }
      ns := MoveChain(f, bits, buckets[bkt], newBuckets, buckets, bkt, cs[bkt], ps[bkt], ns, Flat(ps[..bkt]));
    }
    assert ps[..|ps|] == ps;
  }

  /** The other chains have no entry of chain `h`. */
  lemma Apart(bk: array<Entry?>, cs: seq<seq<Entry>>, ps: seq<seq<Pair>>, h: nat)
    requires ChainsOk(bk, cs, ps) && h < |cs|
    ensures forall b :: 0 <= b < |cs| ==> ChainOk(bk, b, cs[b], ps[b])
    ensures forall b :: 0 <= b < |cs| && b != h ==> forall e :: e in cs[h] ==> e !in cs[b]
  {
    forall b | 0 <= b < |cs| && b != h ensures forall e :: e in cs[h] ==> e !in cs[b] {
      assert ChainOk(bk, b, cs[b], ps[b]) && ChainOk(bk, h, cs[h], ps[h]);
      Disjoint(bk, cs, ps, h, b);
    }
  }

  lemma ChainsReplaced(bk: array<Entry?>, cs: seq<seq<Entry>>, ps: seq<seq<Pair>>, h: nat, c: seq<Entry>, p: seq<Pair>)
    requires |cs| == |ps| == bk.Length && h < |cs| && ChainOk(bk, h, c, p)
    requires forall b :: 0 <= b < |cs| && b != h ==> ChainOk(bk, b, cs[b], ps[b])
    ensures ChainsOk(bk, cs[h := c], ps[h := p])
  {
  }

  /** Gives entry `i` of a chain another key and value. */
  method Rewrite(entry: Entry, key: Ptr, value: Ptr, ghost bk: array<Entry?>, ghost b: nat,
                 ghost c: seq<Entry>, ghost p: seq<Pair>, ghost i: nat)
    requires BodyOk(bk, b, c, p) && i < |c| == |p| && entry == c[i]
    modifies entry`key, entry`value
    ensures BodyOk(bk, b, c, p[i := Pair(key, value)])
  {
    entry.key, entry.value := key, value;
  }

  /** Takes entry `i` out of its chain. */
  method DelEntry(bk: array<Entry?>, h: nat, prev: Entry?, entry: Entry,
                  ghost c: seq<Entry>, ghost p: seq<Pair>, ghost i: nat)
    requires ChainOk(bk, h, c, p) && i < |c| == |p| && entry == c[i] && prev == if i == 0 then null else c[i - 1]
    modifies bk, c
    ensures ChainOk(bk, h, c[..i] + c[i + 1..], p[..i] + p[i + 1..])
    ensures forall b :: 0 <= b < bk.Length && b != h ==> bk[b] == old(bk[b])
  {
    if prev == null {
      bk[h] := entry.next;
    } else {
      prev.next := entry.next;
    }
    entry.next := null;
    UnlinkedOk(bk, h, c, p, i);
    assert i == 0 ==> (c[..i] + c[i + 1..]) == c[1..];
  }

  /** The same among all chains. */
  method UnlinkIn(bk: array<Entry?>, h: nat, prev: Entry?, entry: Entry,
                  ghost cs: seq<seq<Entry>>, ghost ps: seq<seq<Pair>>, ghost i: nat)
    requires ChainsOk(bk, cs, ps) && h < |cs| == |ps| == bk.Length
    requires i < |cs[h]| == |ps[h]| && entry == cs[h][i] && prev == if i == 0 then null else cs[h][i - 1]
    modifies bk, cs[h]
    ensures ChainsOk(bk, cs[h := cs[h][..i] + cs[h][i + 1..]], ps[h := ps[h][..i] + ps[h][i + 1..]])
  {
    Apart(bk, cs, ps, h);
    hide BodyOk, ChainsOk;
    DelEntry(bk, h, prev, entry, cs[h], ps[h], i);
    ChainsReplaced(bk, cs, ps, h, cs[h][..i] + cs[h][i + 1..], ps[h][..i] + ps[h][i + 1..]);
  }

  /** Where entry `n` of a chain without its entry `i` came from. */
  function Came(n: nat, i: nat): nat { if n < i then n else n + 1 }

  /** A chain with entry `i` unlinked. */
  lemma UnlinkedOk(bk: array<Entry?>, b: nat, c: seq<Entry>, p: seq<Pair>, i: nat)
    requires Distinct(c) && i < |c| == |p|
    requires forall n :: 0 <= n < |c| && n != i ==> c[n].home == bk && c[n].slot == b && c[n].Data() == p[n]
    requires forall n :: 0 <= n < |c| && n != i ==> c[n].next == At(c, if n + 1 == i then i + 1 else n + 1)
    ensures BodyOk(bk, b, c[..i] + c[i + 1..], p[..i] + p[i + 1..])
  {
    hide Distinct, At;
    var r, q := c[..i] + c[i + 1..], p[..i] + p[i + 1..];
    UnlinkedDistinct(c, i);
    forall n | 0 <= n < |r| ensures r[n].home == bk && r[n].slot == b && r[n].Data() == q[n] {
      assert r[n] == c[Came(n, i)] && q[n] == p[Came(n, i)];
    }
    forall n | 0 <= n < |r| ensures r[n].next == At(r, n + 1) {
      assert r[n] == c[Came(n, i)];
      UnlinkedAt(c, i, n);
    }
  }

  lemma UnlinkedAt(c: seq<Entry>, i: nat, n: nat)
    requires i < |c| && n < |c| - 1
    ensures At(c[..i] + c[i + 1..], n + 1) == At(c, if Came(n, i) + 1 == i then i + 1 else Came(n, i) + 1)
  {
  }

  lemma UnlinkedDistinct(c: seq<Entry>, i: nat)
    requires Distinct(c) && i < |c|
    ensures Distinct(c[..i] + c[i + 1..])
  {
    Shifted(c, i);
  }

  lemma Shifted<T>(s: seq<T>, i: nat)
    requires i < |s|
    ensures var r := s[..i] + s[i + 1..]; forall n :: 0 <= n < |r| ==> r[n] == s[if n < i then n else n + 1]
  {
  }

  /** The first entry of a chain with an equal key, null if none, and the one before. */
  method SearchChain(f: Fns, key: Ptr, first: Entry?, ghost bk: array<Entry?>, ghost b: nat,
                     ghost c: seq<Entry>, ghost p: seq<Pair>)
    returns (prev: Entry?, cur: Entry?, ghost i: nat)
    requires BodyOk(bk, b, c, p) && first == At(c, 0)
    ensures |c| == |p| && i == FirstAt(f, p, key) && cur == At(c, i)
    ensures i < |c| ==> cur.Data() == p[i] && prev == if i == 0 then null else c[i - 1]
  {
    i, prev, cur := 0, null, first;
    while cur != null
      invariant 0 <= i <= |c| && cur == At(c, i) && prev == if i == 0 then null else c[i - 1]
      invariant FirstAt(f, p, key) == i + FirstAt(f, p[i..], key)
      decreases |c| - i
    {
      assert p[i..][1..] == p[i + 1..];
      if f.equal(cur.key, key) {
        return;
      }
      prev, cur := cur, cur.next;
      i := i + 1;
    }
  }

  /** The entries of one chain. */
  method ChainPairs(first: Entry?, ghost bk: array<Entry?>, ghost b: nat, ghost c: seq<Entry>, ghost p: seq<Pair>)
    returns (r: seq<Pair>)
    requires BodyOk(bk, b, c, p) && first == At(c, 0)
    ensures r == p
  {
    r := [];
    var cur := first;
    ghost var i := 0;
    while cur != null
      invariant 0 <= i <= |c| && cur == At(c, i) && r == p[..i]
      decreases |c| - i
    {
      r := r + [cur.Data()];
      i := i + 1;
      cur := cur.next;
    }
  }

  /** The entries of one chain that are under a key. */
  method ChainEntries(f: Fns, key: Ptr, first: Entry?, ghost bk: array<Entry?>, ghost b: nat,
                      ghost c: seq<Entry>, ghost p: seq<Pair>)
    returns (r: seq<Pair>)
    requires BodyOk(bk, b, c, p) && first == At(c, 0)
    ensures r == Under(f, p, key)
  {
    r := [];
    var cur := first;
    ghost var i := 0;
    while cur != null
      invariant 0 <= i <= |c| && cur == At(c, i)
      invariant r + Under(f, p[i..], key) == Under(f, p, key)
      decreases |c| - i
    {
      assert p[i..][1..] == p[i + 1..];
      if f.equal(cur.key, key) {
        r := r + [cur.Data()];
      }
      i := i + 1;
      cur := cur.next;
    }
  }

  lemma FlatNone(ps: seq<seq<Pair>>)
    ensures Flat(ps[..0]) == []
  {
  }

  class HashMap {
    const fns: Fns
    var buckets: array?<Entry?>
    var cap: nat
    var capBits: nat
    var sz: nat
    ghost var chains: seq<seq<Entry>>
    /** The map as the model sees it. */
    ghost var table: Table

    constructor (fns: Fns)
      requires Coherent(fns)
      ensures Valid() && table == EMPTY && this.fns == fns && chains == []
    {
      this.fns := fns;
      buckets, cap, capBits, sz := null, 0, 0, 0;
      chains, table := [], EMPTY;
      new;
      HashRefine.EmptyOk(fns);
    }

    ghost predicate Linked()
      reads this, buckets, Members(chains)
    {
      && Shaped(table) && capBits == table.bits && sz == table.size && cap == Cap(capBits)
      && (buckets == null <==> cap == 0)
      && (buckets == null ==> chains == [])
      && (buckets != null ==> ChainsOk(buckets, chains, table.chains))
    }

    /** The links are in order, and so is the table they hold. */
    ghost predicate Valid()
      reads this, buckets, Members(chains)
    {
      Linked() && Coherent(fns) && TableOk(fns, table)
    }

    /** Moves every entry to a bucket array of twice the size. */
    method Grow(room: bool) returns (err: Error)
      requires Linked()
      modifies this, Members(chains)
      ensures Linked()
      ensures err == if room && old(table.bits) < MAX_CAP_BITS then Ok else NoMem
      ensures err == Ok ==> table == HashModel.Grow(fns, old(table)) && fresh(buckets)
      ensures err != Ok ==> table == old(table) && chains == old(chains) && buckets == old(buckets)
      ensures forall e :: e in Members(chains) ==> e in old(Members(chains))
    {
      var newCapBits := capBits + 1;
      if newCapBits < HASHMAP_MIN_CAP_BITS {
        newCapBits := HASHMAP_MIN_CAP_BITS;
      }
      if !room || newCapBits > MAX_CAP_BITS {
        return NoMem;
      }
      ghost var cs, ps := chains, table.chains;
      hide Rehash, Pow2, ChainsOk;
      var newBuckets;
      ghost var ns;
      newBuckets, ns := EmptyBuckets(fns, newCapBits);
      if cap > 0 {
        ns := MoveChains(fns, newCapBits, buckets, newBuckets, cs, ps, ns);
      }
      Install(newBuckets, newCapBits, ns, HashModel.Grow(fns, table));
      return Ok;
    }

    /** Takes over a filled bucket array. */
    method Install(newBuckets: array<Entry?>, newCapBits: nat, ghost ns: seq<seq<Entry>>, ghost t: Table)
      requires Shaped(t) && 0 < t.bits == newCapBits && t.size == sz && ChainsOk(newBuckets, ns, t.chains)
      modifies this
      ensures Linked() && table == t && chains == ns && buckets == newBuckets
    {
      cap, capBits, buckets := newBuckets.Length, newCapBits, newBuckets;
      chains, table := ns, t;
    }

    /** The first entry with an equal key in a bucket, and the one before it, null if it
        is the first of its chain. */
    method FindEntry(key: Ptr, hash: nat) returns (found: bool, prev: Entry?, entry: Entry?, ghost i: nat)
      requires Linked() && hash == Home(fns, key, capBits)
      ensures i == FirstAt(fns, ChainOf(fns, table, key), key)
      ensures found <==> i < |ChainOf(fns, table, key)|
      ensures found ==> hash < |chains| == |table.chains| && i < |chains[hash]| == |table.chains[hash]|
      ensures found ==> entry == chains[hash][i]
      ensures found ==> entry.Data() == ChainOf(fns, table, key)[i]
      ensures found ==> prev == if i == 0 then null else chains[hash][i - 1]
    {
      if buckets == null {
        return false, null, null, 0;
      }
      assert ChainOk(buckets, hash, chains[hash], table.chains[hash]);
      hide BodyOk, FirstAt, HashBits, Pow2;
      prev, entry, i := SearchChain(fns, key, buckets[hash], buckets, hash, chains[hash], table.chains[hash]);
      found := entry != null;
    }

    method Find(key: Ptr) returns (value: Option<Ptr>)
      requires Valid()
      ensures value == HashModel.Find(fns, table, key)
    {
      var h := HashBits(fns.hash(key), capBits);
      var found, prev, entry;
      ghost var i;
      found, prev, entry, i := FindEntry(key, h);
      value := if found then Some(entry.value) else None;
    }

    /** Gives an entry another key and value. */
    method Overwrite(entry: Entry, key: Ptr, value: Ptr, ghost h: nat, ghost i: nat)
      requires Linked() && buckets != null && h < |chains| == |table.chains|
      requires i < |chains[h]| == |table.chains[h]| && entry == chains[h][i]
      modifies entry`key, entry`value, this`table
      ensures Linked()
      ensures table == old(table).(chains := old(table.chains)[h := old(table.chains)[h][i := Pair(key, value)]])
    {
      ghost var ps := table.chains;
      Apart(buckets, chains, ps, h);
      assert |chains| == |ps| == buckets.Length;
      hide BodyOk, ChainsOk;
      Rewrite(entry, key, value, buckets, h, chains[h], ps[h], i);
      assert chains[h := chains[h]] == chains;
      ChainsReplaced(buckets, chains, ps, h, chains[h], ps[h][i := Pair(key, value)]);
      table := table.(chains := ps[h := ps[h][i := Pair(key, value)]]);
    }

    /** Takes an entry out of its chain. */
    method Unlink(prev: Entry?, entry: Entry, h: nat, ghost i: nat)
      requires Linked() && buckets != null && h < |chains| == |table.chains| && table.size > 0
      requires i < |chains[h]| == |table.chains[h]| && entry == chains[h][i]
      requires prev == if i == 0 then null else chains[h][i - 1]
      modifies buckets, chains[h], this`table, this`chains, this`sz
      ensures Linked() && chains == old(chains)[h := old(chains)[h][..i] + old(chains)[h][i + 1..]]
      ensures var p := old(table.chains)[h];
              table == old(table).(chains := old(table.chains)[h := p[..i] + p[i + 1..]], size := old(table.size) - 1)
    {
      ghost var cs, ps := chains, table.chains;
      LengthOf(buckets, cs, ps);
      hide ChainsOk, Members, BodyOk;
      UnlinkIn(buckets, h, prev, entry, cs, ps, i);
      sz := sz - 1;
      chains := cs[h := cs[h][..i] + cs[h][i + 1..]];
      table := table.(chains := ps[h := ps[h][..i] + ps[h][i + 1..]], size := sz);
    }

    /** Adds a new entry at the head of its bucket. */
    method PushNew(key: Ptr, value: Ptr)
      requires Linked() && buckets != null
      modifies this`sz, this`chains, this`table, buckets
      ensures Linked() && (forall e :: e in Members(chains) ==> e in old(Members(chains)) || fresh(e))
      ensures table == old(table).(chains := Push(fns, old(table.bits), old(table.chains), Pair(key, value)),
                                   size := old(table.size) + 1)
    {
      hide BodyOk, Pow2, HashBits;
      var h := HashBits(fns.hash(key), capBits);
      var entry := new Entry(key, value);
      ghost var cs, ps := chains, table.chains;
      AddEntry(buckets, h, entry, cs, ps);
      MembersPushed(cs, h, entry);
      sz := sz + 1;
      chains := cs[h := [entry] + cs[h]];
      table := table.(chains := Push(fns, capBits, ps, Pair(key, value)), size := sz);
    }

    /** The part of an insertion that adds an entry. */
    method AddNew(key: Ptr, value: Ptr, memory: Memory) returns (err: Error)
      requires Linked()
      modifies this, buckets, Members(chains)
      ensures Linked() && HashModel.AddNew(fns, old(table), key, value, memory) == Outcome(table, err, None)
      ensures forall e :: e in Members(chains) ==> e in old(Members(chains)) || fresh(e)
      ensures buckets == old(buckets) || fresh(buckets)
    {
      hide ChainsOk, Pow2;
      if NeedsToGrow(sz, cap) {
        err := Grow(memory.buckets);
        if err != Ok {
          return err;
        }
      }
      if !memory.entry {
        return NoMem;
      }
      PushNew(key, value);
      return Ok;
    }

    /** The insertion itself; `Insert` adds that the table stays in order. */
    method InsertLinked(key: Ptr, value: Ptr, strategy: Strategy, memory: Memory)
      returns (err: Error, was: Option<Pair>)
      requires Linked()
      modifies this, buckets, Members(chains)
      ensures Linked() && HashModel.Insert(fns, old(table), key, value, strategy, memory) == Outcome(table, err, was)
      ensures forall e :: e in Members(chains) ==> e in old(Members(chains)) || fresh(e)
      ensures buckets == old(buckets) || fresh(buckets)
    {
      hide FirstAt, ChainsOk, Pow2, HashBits, HashModel.AddNew;
      was := None;
      var h := HashBits(fns.hash(key), capBits);
      if strategy != Append {
        var found, prev, entry;
        ghost var i;
        found, prev, entry, i := FindEntry(key, h);
        if found {
          was := Some(entry.Data());
          if strategy == Set || strategy == Update {
            MembersHas(chains, h);
            Overwrite(entry, key, value, h, i);
            return Ok, was;
          }
          return EExist, was;
        }
      }
      if strategy == Update {
        return NoEnt, was;
      }
      err := AddNew(key, value, memory);
    }

    /** `hashmap__insert`, with each of its strategies. */
    method Insert(key: Ptr, value: Ptr, strategy: Strategy, memory: Memory) returns (err: Error, was: Option<Pair>)
      requires Valid()
      modifies this, buckets, Members(chains)
      ensures Valid()
      ensures HashModel.Insert(fns, old(table), key, value, strategy, memory) == Outcome(table, err, was)
      ensures forall e :: e in Members(chains) ==> e in old(Members(chains)) || fresh(e)
      ensures buckets == old(buckets) || fresh(buckets)
    {
      HashRefine.StepRefines(fns, table, HashRefine.OpInsert(key, value, strategy, memory));
      hide HashModel.Insert, Coherent, TableOk;
      err, was := InsertLinked(key, value, strategy, memory);
    }

    /** The deletion itself; `Delete` adds that the table stays in order. */
    method DeleteLinked(key: Ptr) returns (was: Option<Pair>)
      requires Linked()
      requires FirstAt(fns, ChainOf(fns, table, key), key) < |ChainOf(fns, table, key)| ==> table.size > 0
      modifies this, buckets, Members(chains)
      ensures Linked() && buckets == old(buckets)
      ensures var c, i := old(ChainOf(fns, table, key)), old(FirstAt(fns, ChainOf(fns, table, key), key));
              if i < |c| then
                table == WithChain(fns, old(table), key, c[..i] + c[i + 1..]).(size := old(table.size) - 1) &&
                was == Some(c[i])
              else table == old(table) && was == None
      ensures forall e :: e in Members(chains) ==> e in old(Members(chains))
    {
      hide FirstAt, ChainsOk, Pow2, HashBits;
      var h := HashBits(fns.hash(key), capBits);
      var found, prev, entry;
      ghost var i;
      found, prev, entry, i := FindEntry(key, h);
      if !found {
        return None;
      }
      was := Some(entry.Data());
      MembersHas(chains, h);
      MembersUnlinked(chains, h, i);
      hide Members;
      Unlink(prev, entry, h, i);
    }

    /** `hashmap__delete`: takes the first entry under the key out. */
    method Delete(key: Ptr) returns (deleted: bool, was: Option<Pair>)
      requires Valid()
      modifies this, buckets, Members(chains)
      ensures Valid() && deleted == was.Some? && HashModel.Delete(fns, old(table), key) == (table, was)
      ensures buckets == old(buckets) && forall e :: e in Members(chains) ==> e in old(Members(chains))
    {
      HashRefine.DeleteKeepsOrder(fns, table, key);
      HashRefine.DeleteIs(fns, table, key);
      hide Coherent, TableOk, FirstAt, ChainsOk;
      hide HashModel.Delete, WithChain, ChainOf;
      was := DeleteLinked(key);
      deleted := was.Some?;
    }

    /** `hashmap__clear`. */
    method Clear()
      requires Valid()
      modifies this
      ensures Valid() && table == EMPTY && chains == []
    {
      buckets, cap, capBits, sz := null, 0, 0, 0;
      chains, table := [], EMPTY;
      HashRefine.EmptyOk(fns);
    }

    /** The iteration over the entries of one key. */
    method KeyEntries(key: Ptr) returns (r: seq<Pair>)
      requires Valid()
      ensures r == Entries(fns, table, key)
    {
      HashRefine.EntriesInChain(fns, table, key);
      hide Coherent, TableOk, BodyOk, Under;
      if buckets == null {
        return [];
      }
      var h := HashBits(fns.hash(key), capBits);
      assert ChainOk(buckets, h, chains[h], table.chains[h]);
      r := ChainEntries(fns, key, buckets[h], buckets, h, chains[h], table.chains[h]);
    }

    /** The iteration over all entries, bucket by bucket. */
    method AllEntries() returns (r: seq<Pair>)
      requires Valid()
      ensures r == Flat(table.chains) && |r| == sz
    {
      hide Coherent, Pow2, BodyOk, Flat;
      r := [];
      ghost var ps := table.chains;
      FlatNone(ps);
      for bkt := 0 to cap
        invariant r == Flat(ps[..bkt])
      {
        assert ChainOk(buckets, bkt, chains[bkt], ps[bkt]);
        var one := ChainPairs(buckets[bkt], buckets, bkt, chains[bkt], ps[bkt]);
        r := r + one;
        FlatOneMore(ps, bkt);
      }
      assert ps[..|ps|] == ps;
    }
  }
}
