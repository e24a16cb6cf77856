/** The chained hash table as values: chains of key/value pairs by bucket, and what the
    four insertion strategies, deletion and growth do to them.  `Hashmap` links the
    entries and is proved to behave like this. */
module HashModel {
  import opened Options

  const HASHMAP_MIN_CAP_BITS: nat := 2
  /** An allocation of more than this many bits of buckets cannot be asked for. */
  const MAX_CAP_BITS: nat := 60
  const WORD: nat := 0x1_0000_0000_0000_0000

  /** Keys and values are pointers the table does not look into. */
  type Ptr = nat

  datatype Fns = Fns(hash: Ptr -> nat, equal: (Ptr, Ptr) -> bool)

  /** What the caller's functions have to be: equality, and a hash it determines. */
  ghost predicate Coherent(f: Fns) {
    && (forall a :: f.equal(a, a))
    && (forall a, b :: f.equal(a, b) ==> f.equal(b, a) && f.hash(a) == f.hash(b))
    && (forall a, b, c :: f.equal(a, b) && f.equal(b, c) ==> f.equal(a, c))
  }

  datatype Pair = Pair(key: Ptr, value: Ptr)

  function Pow2(n: nat): (r: nat)
    ensures r > 0
  {
    if n == 0 then 1 else 2 * Pow2(n - 1)
  }

  lemma {:induction false} Pow2Sum(a: nat, b: nat)
    ensures Pow2(a) * Pow2(b) == Pow2(a + b)
  {
    if a > 0 {
      Pow2Sum(a - 1, b);
    }
  }

  lemma WordIsPow2()
    ensures Pow2(64) == WORD
  {
    Pow2Eight();
    hide Pow2;
    Pow2Sum(8, 8);
    Pow2Sum(16, 16);
    Pow2Sum(32, 32);
  }

  lemma Pow2Eight()
    ensures Pow2(8) == 256
  {
  }

  /** The upper bits of the hash, shuffled by a multiplication in 64 bits. */
  function HashBits(h: nat, bits: nat): (r: nat)
    requires bits <= 64
    ensures r < Pow2(bits)
  {
    hide *;
    if bits == 0 then 0
    else
      UpperBits(Shuffled(h), bits);
      Shuffled(h) / Pow2(64 - bits)
  }

  function Shuffled(h: nat): (r: nat)
    ensures r < WORD
  {
    h * 11400714819323198485 % WORD
  }

  lemma UpperBits(x: nat, bits: nat)
    requires x < WORD && bits <= 64
    ensures x / Pow2(64 - bits) < Pow2(bits)
  {
    hide Pow2;
    var d := Pow2(64 - bits);
    var q := x / d;
    WordIsPow2();
    Pow2Sum(bits, 64 - bits);
    assert x == q * d + x % d;
    if q >= Pow2(bits) {
      TimesMonotone(Pow2(bits), q, d);
    }
  }

  lemma TimesMonotone(a: nat, b: nat, d: nat)
    requires a <= b
    ensures a * d <= b * d
  {
  }

  // ---------------------------------------------------------------------------
  // The table

  datatype Table = Table(bits: nat, chains: seq<seq<Pair>>, size: nat)

  const EMPTY: Table := Table(0, [], 0)

  /** Buckets are allocated by the first insertion. */
  function Cap(bits: nat): nat { if bits == 0 then 0 else Pow2(bits) }

  function Home(f: Fns, k: Ptr, bits: nat): (r: nat)
    requires bits <= MAX_CAP_BITS
    ensures r < Pow2(bits)
  {
    HashBits(f.hash(k), bits)
  }

  /** Every entry sits in the bucket of its key. */
  predicate AtHome(f: Fns, bits: nat, chains: seq<seq<Pair>>)
    requires bits <= MAX_CAP_BITS
  {
    forall b, i :: 0 <= b < |chains| && 0 <= i < |chains[b]| ==> Home(f, chains[b][i].key, bits) == b
  }

  predicate Shaped(t: Table) {
    && (t.bits == 0 || HASHMAP_MIN_CAP_BITS <= t.bits <= MAX_CAP_BITS)
    && |t.chains| == Cap(t.bits)
  }

  predicate TableOk(f: Fns, t: Table) {
    && Shaped(t)
    && AtHome(f, t.bits, t.chains)
    && t.size == |Flat(t.chains)|
    && t.size * 4 / 3 <= Cap(t.bits)
  }

  /** All entries in the order the iteration visits them. */
  function Flat(chains: seq<seq<Pair>>): seq<Pair> {
    if chains == [] then [] else Flat(chains[..|chains| - 1]) + chains[|chains| - 1]
  }

  /** Position of the first entry with an equal key, the length if there is none. */
  function FirstAt(f: Fns, c: seq<Pair>, k: Ptr): (i: nat)
    ensures i <= |c|
    ensures i < |c| ==> f.equal(c[i].key, k)
    ensures forall j :: 0 <= j < i ==> !f.equal(c[j].key, k)
  {
    if c == [] then 0 else if f.equal(c[0].key, k) then 0 else 1 + FirstAt(f, c[1..], k)
  }

  /** The chain a key is looked up in. */
  function ChainOf(f: Fns, t: Table, k: Ptr): seq<Pair>
    requires Shaped(t)
  {
    if t.chains == [] then [] else t.chains[Home(f, k, t.bits)]
  }

  function WithChain(f: Fns, t: Table, k: Ptr, c: seq<Pair>): Table
    requires Shaped(t) && t.chains != []
  {
    t.(chains := t.chains[Home(f, k, t.bits) := c])
  }

  // ---------------------------------------------------------------------------
  // Growth

  function NeedsToGrow(size: nat, cap: nat): bool {
    cap == 0 || (size + 1) * 4 / 3 > cap
  }

  function Push(f: Fns, bits: nat, chains: seq<seq<Pair>>, p: Pair): seq<seq<Pair>>
    requires bits <= MAX_CAP_BITS && |chains| == Pow2(bits)
  {
    var b := Home(f, p.key, bits);
    chains[b := [p] + chains[b]]
  }

  function Empties(n: nat): (r: seq<seq<Pair>>)
    ensures |r| == n && forall i :: 0 <= i < n ==> r[i] == []
  {
    seq(n, _ => [])
  }

  /** Entries moved one by one to the front of their new chains. */
  function Rehash(f: Fns, bits: nat, es: seq<Pair>): (r: seq<seq<Pair>>)
    requires bits <= MAX_CAP_BITS
    ensures |r| == Pow2(bits)
  {
    if es == [] then Empties(Pow2(bits)) else Push(f, bits, Rehash(f, bits, es[..|es| - 1]), es[|es| - 1])
  }

  function GrownBits(bits: nat): nat {
    if bits + 1 < HASHMAP_MIN_CAP_BITS then HASHMAP_MIN_CAP_BITS else bits + 1
  }

  function Grow(f: Fns, t: Table): Table
    requires t.bits < MAX_CAP_BITS
  {
    Table(GrownBits(t.bits), Rehash(f, GrownBits(t.bits), Flat(t.chains)), t.size)
  }

  // ---------------------------------------------------------------------------
  // Operations

  datatype Strategy = Add | Set | Update | Append

  datatype Error = Ok | EExist | NoEnt | NoMem

  /** Whether the allocator has room for buckets, and for an entry. */
  datatype Memory = Memory(buckets: bool, entry: bool)

  datatype Outcome = Outcome(table: Table, error: Error, was: Option<Pair>)

  /** A new entry at the head of its chain, the table grown first if it is too full. */
  function AddNew(f: Fns, t: Table, k: Ptr, v: Ptr, m: Memory): (o: Outcome)
    requires Shaped(t)
    ensures Shaped(o.table)
  {
    if NeedsToGrow(t.size, Cap(t.bits)) && !(m.buckets && t.bits < MAX_CAP_BITS) then Outcome(t, NoMem, None)
    else
      var g := if NeedsToGrow(t.size, Cap(t.bits)) then Grow(f, t) else t;
      if !m.entry then Outcome(g, NoMem, None)
      else Outcome(g.(chains := Push(f, g.bits, g.chains, Pair(k, v)), size := g.size + 1), Ok, None)
  }

  function Insert(f: Fns, t: Table, k: Ptr, v: Ptr, s: Strategy, m: Memory): (o: Outcome)
    requires Shaped(t)
    ensures Shaped(o.table)
  {
    var c := ChainOf(f, t, k);
    var i := FirstAt(f, c, k);
    if s != Append && i < |c| then
      if s == Add then Outcome(t, EExist, Some(c[i]))
      else Outcome(WithChain(f, t, k, c[i := Pair(k, v)]), Ok, Some(c[i]))
    else if s == Update then Outcome(t, NoEnt, None)
    else AddNew(f, t, k, v, m)
  }

  function Find(f: Fns, t: Table, k: Ptr): Option<Ptr>
    requires Shaped(t)
  {
    var c := ChainOf(f, t, k);
    var i := FirstAt(f, c, k);
    if i < |c| then Some(c[i].value) else None
  }

  function Delete(f: Fns, t: Table, k: Ptr): (d: (Table, Option<Pair>))
    requires TableOk(f, t)
    ensures Shaped(d.0)
  {
    var c := ChainOf(f, t, k);
    var i := FirstAt(f, c, k);
    if i < |c| then
      FlatCovers(t.chains, Home(f, k, t.bits));
      (WithChain(f, t, k, c[..i] + c[i + 1..]).(size := t.size - 1), Some(c[i]))
    else (t, None)
  }

  // ---------------------------------------------------------------------------
  // What is stored under a key

  /** The entries under a key, first the one a lookup finds. */
  function Under(f: Fns, c: seq<Pair>, k: Ptr): seq<Pair> {
    if c == [] then [] else (if f.equal(c[0].key, k) then [c[0]] else []) + Under(f, c[1..], k)
  }

  function Entries(f: Fns, t: Table, k: Ptr): seq<Pair> { Under(f, Flat(t.chains), k) }

  function Reverse<T>(s: seq<T>): (r: seq<T>)
    ensures |r| == |s| && forall i :: 0 <= i < |s| ==> r[i] == s[|s| - 1 - i]
  {
    if s == [] then [] else Reverse(s[1..]) + [s[0]]
  }

  lemma {:induction false} UnderConcat(f: Fns, a: seq<Pair>, b: seq<Pair>, k: Ptr)
    ensures Under(f, a + b, k) == Under(f, a, k) + Under(f, b, k)
  {
    if a == [] {
      assert a + b == b;
    } else {
      var h := if f.equal(a[0].key, k) then [a[0]] else [];
      UnderStep(f, a, k);
      UnderStep(f, a + b, k);
      hide Under;
      assert (a + b)[0] == a[0] && (a + b)[1..] == a[1..] + b;
      UnderConcat(f, a[1..], b, k);
      Associates(h, Under(f, a[1..], k), Under(f, b, k));
    }
  }

  lemma Associates<T>(a: seq<T>, b: seq<T>, c: seq<T>)
    ensures (a + b) + c == a + (b + c)
  {
  }

  lemma UnderStep(f: Fns, c: seq<Pair>, k: Ptr)
    requires c != []
    ensures Under(f, c, k) == (if f.equal(c[0].key, k) then [c[0]] else []) + Under(f, c[1..], k)
  {
  }

  lemma {:induction false} UnderNone(f: Fns, c: seq<Pair>, k: Ptr)
    requires forall i :: 0 <= i < |c| ==> !f.equal(c[i].key, k)
    ensures Under(f, c, k) == []
  {
    if c != [] {
      UnderNone(f, c[1..], k);
    }
  }

  /** A lookup stops at the first entry under its key. */
  lemma {:induction false} FirstUnder(f: Fns, c: seq<Pair>, k: Ptr)
    ensures var i, u := FirstAt(f, c, k), Under(f, c, k);
            if i < |c| then u != [] && u[0] == c[i] && u[1..] == Under(f, c[i + 1..], k) else u == []
  {
    if c != [] && !f.equal(c[0].key, k) {
      FirstUnder(f, c[1..], k);
      var i := FirstAt(f, c[1..], k);
      if i < |c| - 1 {
        assert c[1..][i + 1..] == c[i + 2..];
      }
    }
  }

  lemma {:induction false} FlatCovers(chains: seq<seq<Pair>>, b: nat)
    requires b < |chains|
    ensures |chains[b]| <= |Flat(chains)|
  {
    if b < |chains| - 1 {
      FlatCovers(chains[..|chains| - 1], b);
    }
  }

  /** Only the chain of a key's bucket has entries under it. */
  lemma {:induction false} UnderFlat(f: Fns, bits: nat, chains: seq<seq<Pair>>, k: Ptr)
    requires Coherent(f) && bits <= MAX_CAP_BITS && AtHome(f, bits, chains)
    ensures var b := Home(f, k, bits);
            Under(f, Flat(chains), k) == if b < |chains| then Under(f, chains[b], k) else []
  {
    if chains != [] {
      var n := |chains| - 1;
      UnderFlat(f, bits, chains[..n], k);
      UnderConcat(f, Flat(chains[..n]), chains[n], k);
      if Home(f, k, bits) != n {
        UnderNone(f, chains[n], k);
      }
    }
  }
}
