/** What the hash table promises, without buckets or hashes: a reference that knows only
    how many entries there are and, for each key, the list of entries under it. */
module HashRefine {
  import opened HashModel
  import opened Options

  datatype Op =
    | OpInsert(key: Ptr, value: Ptr, strategy: Strategy, memory: Memory)
    | OpDelete(key: Ptr)
    | OpClear

  function Apply(f: Fns, t: Table, op: Op): (r: Table)
    requires TableOk(f, t)
    ensures Shaped(r)
  {
    match op
    case OpInsert(k, v, s, m) => Insert(f, t, k, v, s, m).table
    case OpDelete(k) => Delete(f, t, k).0
    case OpClear => EMPTY
  }

  // ---------------------------------------------------------------------------
  // The reference

  datatype Change = Keep | Front(pair: Pair) | Replace(pair: Pair) | DropFirst | Wipe

  datatype Effect = Effect(grows: bool, error: Error, change: Change)

  /** What an operation does, given whether its key is known. */
  function EffectOf(size: nat, bits: nat, op: Op, known: bool): Effect {
    match op
    case OpClear => Effect(false, Ok, Wipe)
    case OpDelete(_) => if known then Effect(false, Ok, DropFirst) else Effect(false, NoEnt, Keep)
    case OpInsert(k, v, s, m) =>
      if s == Add && known then Effect(false, EExist, Keep)
      else if (s == Set || s == Update) && known then Effect(false, Ok, Replace(Pair(k, v)))
      else if s == Update then Effect(false, NoEnt, Keep)
      else
        var full := NeedsToGrow(size, Cap(bits));
        if full && !(m.buckets && bits < MAX_CAP_BITS) then Effect(false, NoMem, Keep)
        else if m.entry then Effect(full, Ok, Front(Pair(k, v))) else Effect(full, NoMem, Keep)
  }

  /** The entries under a key afterwards; `same` if it is the operation's key. */
  function Changed(e: Effect, same: bool, es: seq<Pair>): seq<Pair> {
    var r := if e.grows then Reverse(es) else es;
    match e.change
    case Keep => r
    case Front(p) => if same then [p] + r else r
    case Replace(p) => if same && r != [] then [p] + r[1..] else r
    case DropFirst => if same && r != [] then r[1..] else r
    case Wipe => []
  }

  function SizeAfter(e: Effect, size: nat): nat {
    match e.change
    case Front(_) => size + 1
    case DropFirst => if size > 0 then size - 1 else 0
    case Wipe => 0
    case _ => size
  }

  function BitsAfter(e: Effect, bits: nat): nat {
    if e.change == Wipe then 0 else if e.grows then GrownBits(bits) else bits
  }

  predicate SameKey(f: Fns, op: Op, k: Ptr) {
    !op.OpClear? && f.equal(op.key, k)
  }

  // ---------------------------------------------------------------------------
  // Growth

  lemma {:induction false} ReverseAppend<T>(s: seq<T>, x: T)
    ensures Reverse(s + [x]) == [x] + Reverse(s)
  {
    if s != [] {
      ReverseAppend(s[1..], x);
      assert (s + [x])[1..] == s[1..] + [x];
    }
  }

  lemma PushUnder(f: Fns, bits: nat, chains: seq<seq<Pair>>, p: Pair, k: Ptr)
    requires Coherent(f) && bits <= MAX_CAP_BITS && |chains| == Pow2(bits)
    ensures var b := Home(f, k, bits);
            Under(f, Push(f, bits, chains, p)[b], k)
            == (if f.equal(p.key, k) then [p] else []) + Under(f, chains[b], k)
  {
    var b := Home(f, k, bits);
    if f.equal(p.key, k) {
      assert Home(f, p.key, bits) == b;
    }
    assert ([p] + chains[b])[1..] == chains[b];
  }

  /** Growth turns the order of the entries under every key around. */
  lemma {:induction false} RehashUnder(f: Fns, bits: nat, es: seq<Pair>, k: Ptr)
    requires Coherent(f) && bits <= MAX_CAP_BITS
    ensures Under(f, Rehash(f, bits, es)[Home(f, k, bits)], k) == Reverse(Under(f, es, k))
  {
    if es == [] {
      RehashNone(f, bits, k);
    } else {
      var before, p := es[..|es| - 1], es[|es| - 1];
      assert Rehash(f, bits, es) == Push(f, bits, Rehash(f, bits, before), p);
      assert Under(f, [p], k) == if f.equal(p.key, k) then [p] else [];
      hide Coherent, Home, Rehash, Push, Under, Reverse;
      RehashUnder(f, bits, before, k);
      PushUnder(f, bits, Rehash(f, bits, before), p, k);
      UnderConcat(f, before, [p], k);
      assert es == before + [p];
      var u := Under(f, before, k);
      if f.equal(p.key, k) {
        assert Under(f, es, k) == u + [p];
        ReverseAppend(u, p);
      } else {
        assert Under(f, es, k) == u;
      }
    }
  }

  lemma RehashNone(f: Fns, bits: nat, k: Ptr)
    requires bits <= MAX_CAP_BITS
    ensures Under(f, Rehash(f, bits, [])[Home(f, k, bits)], k) == Reverse(Under(f, [], k))
  {
  }

  lemma PushAtHome(f: Fns, bits: nat, chains: seq<seq<Pair>>, p: Pair)
    requires bits <= MAX_CAP_BITS && |chains| == Pow2(bits) && AtHome(f, bits, chains)
    ensures AtHome(f, bits, Push(f, bits, chains, p))
  {
  }

  lemma {:induction false} FlatReplaced(chains: seq<seq<Pair>>, b: nat, c: seq<Pair>)
    requires b < |chains|
    ensures |Flat(chains[b := c])| + |chains[b]| == |Flat(chains)| + |c|
  {
    var n := |chains| - 1;
    if b < n {
      FlatReplaced(chains[..n], b, c);
      assert chains[b := c][..n] == chains[..n][b := c];
    } else {
      assert chains[b := c][..n] == chains[..n];
    }
  }

  lemma {:induction false} FlatEmpties(n: nat)
    ensures Flat(Empties(n)) == []
  {
    if n > 0 {
      FlatEmpties(n - 1);
      assert Empties(n)[..n - 1] == Empties(n - 1);
    }
  }

  lemma {:induction false} RehashShape(f: Fns, bits: nat, es: seq<Pair>)
    requires bits <= MAX_CAP_BITS
    ensures AtHome(f, bits, Rehash(f, bits, es)) && |Flat(Rehash(f, bits, es))| == |es|
  {
    if es == [] {
      FlatEmpties(Pow2(bits));
    } else {
      var before, p := es[..|es| - 1], es[|es| - 1];
      RehashShape(f, bits, before);
      var r := Rehash(f, bits, before);
      PushAtHome(f, bits, r, p);
      FlatReplaced(r, Home(f, p.key, bits), [p] + r[Home(f, p.key, bits)]);
    }
  }

  lemma CapGrows(bits: nat)
    requires bits == 0 || HASHMAP_MIN_CAP_BITS <= bits
    ensures Cap(GrownBits(bits)) >= Cap(bits) + 4 && (bits > 0 ==> Cap(GrownBits(bits)) == 2 * Cap(bits))
  {
    if bits > 0 {
      Pow2Sum(bits - 2, 2);
      assert Pow2(2) == 4;
    } else {
      assert Pow2(2) == 4;
    }
  }

  lemma EntriesInChain(f: Fns, t: Table, k: Ptr)
    requires Coherent(f) && TableOk(f, t)
    ensures Entries(f, t, k) == Under(f, ChainOf(f, t, k), k)
  {
    UnderFlat(f, t.bits, t.chains, k);
  }

  lemma GrowReverses(f: Fns, t: Table)
    requires Coherent(f) && TableOk(f, t) && t.bits < MAX_CAP_BITS
    ensures TableOk(f, Grow(f, t)) && (t.size + 1) * 4 / 3 <= Cap(GrownBits(t.bits))
    ensures forall k :: Entries(f, Grow(f, t), k) == Reverse(Entries(f, t, k))
  {
    var g := Grow(f, t);
    CapGrows(t.bits);
    RehashShape(f, g.bits, Flat(t.chains));
    forall k ensures Entries(f, g, k) == Reverse(Entries(f, t, k)) {
      EntriesInChain(f, g, k);
      RehashUnder(f, g.bits, Flat(t.chains), k);
    }
  }

  // ---------------------------------------------------------------------------
  // One operation

  lemma PushStep(f: Fns, t: Table, p: Pair, k: Ptr)
    requires Coherent(f) && TableOk(f, t) && t.bits > 0 && (t.size + 1) * 4 / 3 <= Cap(t.bits)
    ensures var r := t.(chains := Push(f, t.bits, t.chains, p), size := t.size + 1);
            TableOk(f, r) && Entries(f, r, k) == (if f.equal(p.key, k) then [p] else []) + Entries(f, t, k)
  {
    var b := Home(f, p.key, t.bits);
    var r := t.(chains := Push(f, t.bits, t.chains, p), size := t.size + 1);
    PushAtHome(f, t.bits, t.chains, p);
    FlatReplaced(t.chains, b, [p] + t.chains[b]);
    PushUnder(f, t.bits, t.chains, p, k);
    EntriesInChain(f, t, k);
    EntriesInChain(f, r, k);
  }

  function Rest<T>(s: seq<T>): seq<T> { if s == [] then [] else s[1..] }

  /** Replacing or dropping the first entry under a key. */
  lemma FirstStep(f: Fns, t: Table, k: Ptr, p: seq<Pair>, j: Ptr)
    requires Coherent(f) && TableOk(f, t) && |p| <= 1 && (p != [] ==> f.equal(p[0].key, k))
    requires FirstAt(f, ChainOf(f, t, k), k) < |ChainOf(f, t, k)|
    ensures Entries(f, t, k) != [] && t.size > 0 && (f.equal(k, j) ==> Entries(f, t, j) != [])
    ensures var c, i := ChainOf(f, t, k), FirstAt(f, ChainOf(f, t, k), k);
            var r := WithChain(f, t, k, c[..i] + p + c[i + 1..]).(size := t.size - 1 + |p|);
            TableOk(f, r) && Entries(f, r, j)
                             == if f.equal(k, j) then p + Rest(Entries(f, t, j)) else Entries(f, t, j)
  {
    hide Coherent, Home, Under, FirstAt, Flat, Entries;
    var c, i, b := ChainOf(f, t, k), FirstAt(f, ChainOf(f, t, k), k), Home(f, k, t.bits);
    var d := c[..i] + p + c[i + 1..];
    FlatReplaced(t.chains, b, d);
    FlatCovers(t.chains, b);
    var r := WithChain(f, t, k, d).(size := t.size - 1 + |p|);
    FirstUnder(f, c, k);
    EntriesInChain(f, t, k);
    HomeKept(f, t, b, i, p, k);
    EntriesInChain(f, t, j);
    EntriesInChain(f, r, j);
    if Home(f, j, t.bits) == b {
      SpliceUnder(f, c, i, p, k, j);
    }
    if f.equal(k, j) {
      SameHome(f, t.bits, k, j);
    }
  }

  lemma SameHome(f: Fns, bits: nat, k: Ptr, j: Ptr)
    requires Coherent(f) && bits <= MAX_CAP_BITS && f.equal(k, j)
    ensures Home(f, k, bits) == Home(f, j, bits)
  {
  }

  lemma HomeKept(f: Fns, t: Table, b: nat, i: nat, p: seq<Pair>, k: Ptr)
    requires Coherent(f) && TableOk(f, t) && b < |t.chains| && i < |t.chains[b]| && b == Home(f, k, t.bits)
    requires |p| <= 1 && (p != [] ==> f.equal(p[0].key, k))
    ensures AtHome(f, t.bits, t.chains[b := t.chains[b][..i] + p + t.chains[b][i + 1..]])
  {
    var c := t.chains[b];
    var d := c[..i] + p + c[i + 1..];
    if p != [] {
      SameHome(f, t.bits, p[0].key, k);
    }
    hide Home;
    forall n | 0 <= n < |d| ensures Home(f, d[n].key, t.bits) == b {
      assert d[n] == if n < i then c[n] else if n < i + |p| then p[n - i] else c[n + 1 - |p|];
    }
  }

  lemma SpliceUnder(f: Fns, c: seq<Pair>, i: nat, p: seq<Pair>, k: Ptr, j: Ptr)
    requires Coherent(f) && i == FirstAt(f, c, k) && i < |c| && |p| <= 1 && (p != [] ==> f.equal(p[0].key, k))
    ensures Under(f, c[..i] + p + c[i + 1..], j)
            == if f.equal(k, j) then p + Rest(Under(f, c, j)) else Under(f, c, j)
    ensures f.equal(k, j) ==> Under(f, c, j) != []
  {
    hide Coherent, Under, Rest;
    assert c == c[..i] + [c[i]] + c[i + 1..];
    SpliceParts(f, c[..i], [c[i]], p, c[i + 1..], k, j);
  }

  lemma SpliceParts(f: Fns, a: seq<Pair>, x: seq<Pair>, p: seq<Pair>, z: seq<Pair>, k: Ptr, j: Ptr)
    requires Coherent(f) && |x| == 1 && f.equal(x[0].key, k) && |p| <= 1 && (p != [] ==> f.equal(p[0].key, k))
    requires forall n :: 0 <= n < |a| ==> !f.equal(a[n].key, k)
    ensures Under(f, a + p + z, j)
            == if f.equal(k, j) then p + Rest(Under(f, a + x + z, j)) else Under(f, a + x + z, j)
    ensures f.equal(k, j) ==> Under(f, a + x + z, j) != []
  {
    hide Coherent, Under;
    SplitUnder(f, a, x, z, j);
    SplitUnder(f, a, p, z, j);
    OneUnder(f, x, k, j);
    OneUnder(f, p, k, j);
    if f.equal(k, j) {
      forall n | 0 <= n < |a| ensures !f.equal(a[n].key, j) {
        CarryOver(f, a[n].key, k, j);
      }
      UnderNone(f, a, j);
      Joined(x[0], p, Under(f, z, j));
    }
  }

  lemma Joined<T>(x: T, p: seq<T>, u: seq<T>)
    ensures [] + [x] + u != [] && Rest([] + [x] + u) == u && [] + p + u == p + u
  {
  }

  lemma CarryOver(f: Fns, a: Ptr, k: Ptr, j: Ptr)
    requires Coherent(f) && f.equal(k, j)
    ensures f.equal(a, k) == f.equal(a, j)
  {
  }

  lemma SplitUnder(f: Fns, a: seq<Pair>, x: seq<Pair>, z: seq<Pair>, j: Ptr)
    ensures Under(f, a + x + z, j) == Under(f, a, j) + Under(f, x, j) + Under(f, z, j)
  {
    UnderConcat(f, a + x, z, j);
    UnderConcat(f, a, x, j);
  }

  lemma OneUnder(f: Fns, p: seq<Pair>, k: Ptr, j: Ptr)
    requires Coherent(f) && |p| <= 1 && (p != [] ==> f.equal(p[0].key, k))
    ensures Under(f, p, j) == if f.equal(k, j) then p else []
  {
    if p != [] {
      assert p[1..] == [] && p == [p[0]];
    }
  }

  function Known(f: Fns, t: Table, op: Op): bool {
    !op.OpClear? && Entries(f, t, op.key) != []
  }

  /** Whether a key is known is what the chain shows, and the first entry there is the
      first under the key. */
  lemma KnownByChain(f: Fns, t: Table, k: Ptr)
    requires Coherent(f) && TableOk(f, t)
    ensures var c, es := ChainOf(f, t, k), Entries(f, t, k);
            var i := FirstAt(f, c, k);
            && (i < |c| <==> es != [])
            && (i < |c| ==> es[0] == c[i])
  {
    EntriesInChain(f, t, k);
    FirstUnder(f, ChainOf(f, t, k), k);
  }

  function First(es: seq<Pair>): Option<Ptr> { if es == [] then None else Some(es[0].value) }

  /** A lookup finds the value of the first entry under the key, and finds one exactly
      if there is an entry. */
  lemma FindSpec(f: Fns, t: Table, k: Ptr)
    requires Coherent(f) && TableOk(f, t)
    ensures Find(f, t, k) == First(Entries(f, t, k))
  {
    KnownByChain(f, t, k);
  }

  ghost predicate StepOk(f: Fns, t: Table, op: Op, e: Effect, r: Table) {
    && TableOk(f, r)
    && r.size == SizeAfter(e, t.size) && r.bits == BitsAfter(e, t.bits)
    && forall k :: Entries(f, r, k) == Changed(e, SameKey(f, op, k), Entries(f, t, k))
  }

  lemma DeleteFinds(f: Fns, t: Table, k: Ptr)
    requires Coherent(f) && TableOk(f, t)
    ensures var d, es := Delete(f, t, k), Entries(f, t, k);
            && (FirstAt(f, ChainOf(f, t, k), k) < |ChainOf(f, t, k)| <==> es != [])
            && (es == [] ==> d == (t, None))
            && (es != [] ==> d.1 == Some(es[0]))
  {
    KnownByChain(f, t, k);
  }

  lemma DeleteRefines(f: Fns, t: Table, k: Ptr)
    requires Coherent(f) && TableOk(f, t)
    ensures var e := EffectOf(t.size, t.bits, OpDelete(k), Entries(f, t, k) != []);
            StepOk(f, t, OpDelete(k), e, Delete(f, t, k).0) && (Delete(f, t, k).1.Some? <==> e.error == Ok)
  {
    hide Coherent, TableOk, Entries, FirstAt, Delete, ChainOf, Reverse, HashBits, Changed;
    DeleteFinds(f, t, k);
    var op, r := OpDelete(k), Delete(f, t, k).0;
    if Entries(f, t, k) != [] {
      FirstDropped(f, t, k);
    } else {
      forall j ensures Entries(f, r, j) == Changed(Effect(false, NoEnt, Keep), SameKey(f, op, j), Entries(f, t, j)) {
        KeepChange(SameKey(f, op, j), Entries(f, t, j));
      }
    }
  }

  lemma KeepChange(same: bool, es: seq<Pair>)
    ensures Changed(Effect(false, NoEnt, Keep), same, es) == es
  {
  }

  lemma DeleteIs(f: Fns, t: Table, k: Ptr)
    requires TableOk(f, t)
    ensures var c, i := ChainOf(f, t, k), FirstAt(f, ChainOf(f, t, k), k);
            && (i < |c| ==> t.size > 0)
            && (i < |c| ==> Delete(f, t, k)
                            == (WithChain(f, t, k, c[..i] + c[i + 1..]).(size := t.size - 1), Some(c[i])))
            && (i >= |c| ==> Delete(f, t, k) == (t, None))
  {
    if FirstAt(f, ChainOf(f, t, k), k) < |ChainOf(f, t, k)| {
      KnownHasSize(f, t, k);
    }
  }

  lemma KnownHasSize(f: Fns, t: Table, k: Ptr)
    requires TableOk(f, t) && FirstAt(f, ChainOf(f, t, k), k) < |ChainOf(f, t, k)|
    ensures t.size > 0
  {
    FlatCovers(t.chains, Home(f, k, t.bits));
  }

  lemma DeletedChain(f: Fns, t: Table, k: Ptr)
    requires TableOk(f, t) && FirstAt(f, ChainOf(f, t, k), k) < |ChainOf(f, t, k)| && t.size > 0
    ensures Shaped(t)
    ensures var c, i := ChainOf(f, t, k), FirstAt(f, ChainOf(f, t, k), k);
            var r, none: seq<Pair> := Delete(f, t, k).0, [];
            && r == WithChain(f, t, k, c[..i] + none + c[i + 1..]).(size := t.size - 1 + |none|)
            && r.size == t.size - 1 && r.bits == t.bits
  {
    var c, i := ChainOf(f, t, k), FirstAt(f, ChainOf(f, t, k), k);
    assert c[..i] + [] + c[i + 1..] == c[..i] + c[i + 1..];
  }

  lemma DropChange(same: bool, es: seq<Pair>)
    ensures Changed(Effect(false, Ok, DropFirst), same, es) == if same then [] + Rest(es) else es
  {
    assert [] + Rest(es) == Rest(es);
  }

  lemma FirstDropped(f: Fns, t: Table, k: Ptr)
    requires Coherent(f) && TableOk(f, t) && FirstAt(f, ChainOf(f, t, k), k) < |ChainOf(f, t, k)|
    ensures var r := Delete(f, t, k).0;
            && t.size > 0 && TableOk(f, r) && r.size == t.size - 1 && r.bits == t.bits
            && (forall j ::
                  Entries(f, r, j) == Changed(Effect(false, Ok, DropFirst), f.equal(k, j), Entries(f, t, j)))
  {
    hide *;
    FirstStep(f, t, k, [], k);
    DeletedChain(f, t, k);
    var r := Delete(f, t, k).0;
    forall j ensures Entries(f, r, j) == Changed(Effect(false, Ok, DropFirst), f.equal(k, j), Entries(f, t, j)) {
      FirstStep(f, t, k, [], j);
      DropChange(f.equal(k, j), Entries(f, t, j));
    }
  }

  lemma ReplaceRefines(f: Fns, t: Table, k: Ptr, v: Ptr)
    requires Coherent(f) && TableOk(f, t) && FirstAt(f, ChainOf(f, t, k), k) < |ChainOf(f, t, k)|
    ensures var c, i := ChainOf(f, t, k), FirstAt(f, ChainOf(f, t, k), k);
            var r := WithChain(f, t, k, c[i := Pair(k, v)]);
            && TableOk(f, r) && r.size == t.size && r.bits == t.bits
            && (forall j ::
                  Entries(f, r, j)
                  == Changed(Effect(false, Ok, Replace(Pair(k, v))), f.equal(k, j), Entries(f, t, j)))
  {
    assert Shaped(t);
    hide TableOk, Entries, FirstAt, Home, Flat, Coherent, Changed, Under;
    var r := WithChain(f, t, k, ChainOf(f, t, k)[FirstAt(f, ChainOf(f, t, k), k) := Pair(k, v)]);
    forall j
      ensures Entries(f, r, j) == Changed(Effect(false, Ok, Replace(Pair(k, v))), f.equal(k, j), Entries(f, t, j))
    {
      ReplacedStep(f, t, k, v, j);
    }
    ReplacedStep(f, t, k, v, k);
  }

  lemma ReplacedStep(f: Fns, t: Table, k: Ptr, v: Ptr, j: Ptr)
    requires Coherent(f) && TableOk(f, t) && FirstAt(f, ChainOf(f, t, k), k) < |ChainOf(f, t, k)|
    ensures var c, i := ChainOf(f, t, k), FirstAt(f, ChainOf(f, t, k), k);
            var r := WithChain(f, t, k, c[i := Pair(k, v)]);
            && TableOk(f, r) && r.size == t.size && r.bits == t.bits
            && Entries(f, r, j) == Changed(Effect(false, Ok, Replace(Pair(k, v))), f.equal(k, j), Entries(f, t, j))
  {
    assert Shaped(t) && f.equal(k, k);
    hide TableOk, Entries, FirstAt, Home, Flat, Coherent;
    var c, i, p := ChainOf(f, t, k), FirstAt(f, ChainOf(f, t, k), k), [Pair(k, v)];
    assert c[i := p[0]] == c[..i] + p + c[i + 1..];
    FirstStep(f, t, k, p, j);
  }

  lemma SameEntries(f: Fns, t: Table, k: Ptr, j: Ptr)
    requires Coherent(f) && f.equal(k, j)
    ensures Entries(f, t, k) == Entries(f, t, j)
  {
    SameUnder(f, Flat(t.chains), k, j);
  }

  lemma {:induction false} SameUnder(f: Fns, c: seq<Pair>, k: Ptr, j: Ptr)
    requires Coherent(f) && f.equal(k, j)
    ensures Under(f, c, k) == Under(f, c, j)
  {
    hide Coherent;
    if c != [] {
      CarryOver(f, c[0].key, k, j);
      SameUnder(f, c[1..], k, j);
    }
  }

  lemma InsertRefines(f: Fns, t: Table, k: Ptr, v: Ptr, s: Strategy, m: Memory)
    requires Coherent(f) && TableOk(f, t)
    ensures var op := OpInsert(k, v, s, m);
            var e := EffectOf(t.size, t.bits, op, Entries(f, t, k) != []);
            var o := Insert(f, t, k, v, s, m);
            && StepOk(f, t, op, e, o.table) && o.error == e.error
            && o.was == if s != Append && Entries(f, t, k) != [] then Some(Entries(f, t, k)[0]) else None
  {
    hide Coherent, Entries, FirstAt, Home, Flat, Push, Pow2, AtHome, Reverse;
    KnownByChain(f, t, k);
    var c, i := ChainOf(f, t, k), FirstAt(f, ChainOf(f, t, k), k);
    if s != Append && i < |c| {
      ReplaceRefines(f, t, k, v);
    } else if s != Update {
      if NeedsToGrow(t.size, Cap(t.bits)) && m.buckets && t.bits < MAX_CAP_BITS {
        GrowReverses(f, t);
      }
      var g := if NeedsToGrow(t.size, Cap(t.bits)) && m.buckets && t.bits < MAX_CAP_BITS then Grow(f, t) else t;
      if m.entry && (!NeedsToGrow(t.size, Cap(t.bits)) || (m.buckets && t.bits < MAX_CAP_BITS)) {
        var r := g.(chains := Push(f, g.bits, g.chains, Pair(k, v)), size := g.size + 1);
        forall j ensures Entries(f, r, j) == (if f.equal(k, j) then [Pair(k, v)] else []) + Entries(f, g, j) {
          PushStep(f, g, Pair(k, v), j);
        }
        PushStep(f, g, Pair(k, v), k);
      }
    }
  }

  /** One operation does to the entries under every key, to the count and to the
      capacity what the reference says, and keeps the table in order. */
  lemma StepRefines(f: Fns, t: Table, op: Op)
    requires Coherent(f) && TableOk(f, t)
    ensures StepOk(f, t, op, EffectOf(t.size, t.bits, op, Known(f, t, op)), Apply(f, t, op))
  {
    hide Coherent, TableOk, Entries, Insert, Delete;
    match op
    case OpInsert(k, v, s, m) => InsertRefines(f, t, k, v, s, m);
    case OpDelete(k) => DeleteRefines(f, t, k);
    case OpClear => EmptyOk(f);
  }

  lemma EmptyOk(f: Fns)
    ensures TableOk(f, EMPTY) && forall k :: Entries(f, EMPTY, k) == []
  {
  }

  lemma DeleteKeepsOrder(f: Fns, t: Table, k: Ptr)
    requires Coherent(f) && TableOk(f, t)
    ensures TableOk(f, Delete(f, t, k).0)
  {
    DeleteRefines(f, t, k);
  }

  // ---------------------------------------------------------------------------
  // Runs

  ghost function Run(f: Fns, ops: seq<Op>): (t: Table)
    requires Coherent(f)
    ensures TableOk(f, t)
  {
    EmptyOk(f);
    if ops == [] then EMPTY
    else
      StepRefines(f, Run(f, ops[..|ops| - 1]), ops[|ops| - 1]);
      Apply(f, Run(f, ops[..|ops| - 1]), ops[|ops| - 1])
  }

  /** How many entries there are, and bits of buckets. */
  datatype Count = Count(size: nat, bits: nat)

  function Counted(f: Fns, ops: seq<Op>): Count
    decreases |ops|, 0
  {
    if ops == [] then Count(0, 0)
    else
      var c, e := Counted(f, ops[..|ops| - 1]), LastEffect(f, ops);
      Count(SizeAfter(e, c.size), BitsAfter(e, c.bits))
  }

  /** The entries under a key after a run. */
  function Stored(f: Fns, ops: seq<Op>, k: Ptr): seq<Pair>
    decreases |ops|, 0
  {
    if ops == [] then []
    else Changed(LastEffect(f, ops), SameKey(f, ops[|ops| - 1], k), Stored(f, ops[..|ops| - 1], k))
  }

  function LastEffect(f: Fns, ops: seq<Op>): Effect
    requires ops != []
    decreases |ops| - 1, 1
  {
    var before, op := ops[..|ops| - 1], ops[|ops| - 1];
    var c := Counted(f, before);
    EffectOf(c.size, c.bits, op, !op.OpClear? && Stored(f, before, op.key) != [])
  }

  /** After any run the table holds under every key just what the reference lists, in
      that order, and has its count and capacity; so lookups, iteration over a key and
      errors are those of the reference. */
  lemma {:induction false} RunRefines(f: Fns, ops: seq<Op>)
    requires Coherent(f)
    ensures Count(Run(f, ops).size, Run(f, ops).bits) == Counted(f, ops)
    ensures forall k :: Entries(f, Run(f, ops), k) == Stored(f, ops, k)
  {
    hide Coherent, Entries, Apply, EffectOf, Changed;
    if ops == [] {
      EmptyOk(f);
    } else {
      var before, op := ops[..|ops| - 1], ops[|ops| - 1];
      RunRefines(f, before);
      StepRefines(f, Run(f, before), op);
    }
  }

  // ---------------------------------------------------------------------------
  // A finite map, a multimap, and what growth does to "last inserted"

  /** No two entries are under one key. */
  ghost predicate Single(f: Fns, t: Table) {
    forall k :: |Entries(f, t, k)| <= 1
  }

  lemma SingleKept(f: Fns, t: Table, op: Op)
    requires Coherent(f) && TableOk(f, t) && Single(f, t) && !(op.OpInsert? && op.strategy == Append)
    ensures Single(f, Apply(f, t, op))
  {
    StepRefines(f, t, op);
    var r := Apply(f, t, op);
    hide Coherent, TableOk, Entries, Apply;
    forall j ensures |Entries(f, r, j)| <= 1 {
      if SameKey(f, op, j) {
        SameEntries(f, t, op.key, j);
      }
    }
  }

  lemma FirstChanged(e: Effect, same: bool, es: seq<Pair>)
    requires |es| <= 1
    ensures First(Changed(e, same, es)) == (match e.change
                                            case Keep => First(es)
                                            case Front(p) => if same then Some(p.value) else First(es)
                                            case Replace(p) => if same && es != [] then Some(p.value) else First(es)
                                            case DropFirst => if same then None else First(es)
                                            case Wipe => None)
  {
    assert Reverse(es) == es;
  }

  /** The change to the lookup of a key, from the lookup before: a map updated, emptied
      or with a key taken out. */
  function Lookup(e: Effect, op: Op, same: bool, was: Option<Ptr>): Option<Ptr> {
    match op
    case OpInsert(_, v, _, _) => if same && e.error == Ok then Some(v) else was
    case OpDelete(_) => if same then None else was
    case OpClear => None
  }

  lemma LookupChanged(size: nat, bits: nat, op: Op, known: bool, same: bool, es: seq<Pair>)
    requires |es| <= 1 && (same ==> (known <==> es != []))
    ensures var e := EffectOf(size, bits, op, known); First(Changed(e, same, es)) == Lookup(e, op, same, First(es))
  {
    FirstChanged(EffectOf(size, bits, op, known), same, es);
    hide Changed, NeedsToGrow;
  }

  /** Without APPEND the table is a finite map: keys stay single, and an operation
      changes the lookup of its own key only. */
  lemma MapStep(f: Fns, t: Table, op: Op, k: Ptr)
    requires Coherent(f) && TableOk(f, t) && Single(f, t) && !(op.OpInsert? && op.strategy == Append)
    ensures var e, r := EffectOf(t.size, t.bits, op, Known(f, t, op)), Apply(f, t, op);
            && Single(f, r)
            && Find(f, r, k) == Lookup(e, op, SameKey(f, op, k), Find(f, t, k))
  {
    StepRefines(f, t, op);
    SingleKept(f, t, op);
    if SameKey(f, op, k) {
      SameEntries(f, t, op.key, k);
    }
    var r := Apply(f, t, op);
    hide Coherent, TableOk, Entries, Apply, Find, EffectOf, Changed, Lookup;
    FindSpec(f, t, k);
    FindSpec(f, r, k);
    LookupChanged(t.size, t.bits, op, Known(f, t, op), SameKey(f, op, k), Entries(f, t, k));
  }

  /** With memory to spare, ADD succeeds exactly on unknown keys, UPDATE exactly on
      known ones, SET always. */
  lemma Succeeds(f: Fns, t: Table, k: Ptr, v: Ptr, s: Strategy, m: Memory)
    requires Coherent(f) && TableOk(f, t) && m.buckets && m.entry && t.bits < MAX_CAP_BITS
    ensures Insert(f, t, k, v, s, m).error
            == match s
               case Add => if Find(f, t, k).Some? then EExist else Ok
               case Update => if Find(f, t, k).Some? then Ok else NoEnt
               case Set => Ok
               case Append => Ok
  {
    assert Shaped(t);
    InsertRefines(f, t, k, v, s, m);
    FindSpec(f, t, k);
    hide Coherent, TableOk, Entries, Insert, Find;
  }

  /** APPEND makes it a multimap: one more entry under the key, whatever growth does to
      the order, and that entry is what a lookup finds. */
  lemma AppendStep(f: Fns, t: Table, k: Ptr, v: Ptr, m: Memory, j: Ptr)
    requires Coherent(f) && TableOk(f, t)
    ensures var o := Insert(f, t, k, v, Append, m);
            var put := o.error == Ok && f.equal(k, j);
            && multiset(Entries(f, o.table, j))
               == multiset(Entries(f, t, j)) + (if put then multiset{Pair(k, v)} else multiset{})
            && (put ==> Find(f, o.table, j) == Some(v))
  {
    assert Shaped(t);
    hide Coherent, TableOk, Entries, Insert, Find, Changed, First, EffectOf;
    InsertRefines(f, t, k, v, Append, m);
    var e := EffectOf(t.size, t.bits, OpInsert(k, v, Append, m), Entries(f, t, k) != []);
    AppendEffect(t.size, t.bits, OpInsert(k, v, Append, m), Entries(f, t, k) != []);
    ChangedBag(e, Pair(k, v), f.equal(k, j), Entries(f, t, j));
    FindSpec(f, Insert(f, t, k, v, Append, m).table, j);
  }

  lemma AppendEffect(size: nat, bits: nat, op: Op, known: bool)
    requires op.OpInsert? && op.strategy == Append
    ensures var e, p := EffectOf(size, bits, op, known), Pair(op.key, op.value);
            (e.change == Keep || e.change == Front(p)) && (e.error == Ok <==> e.change == Front(p))
  {
  }

  lemma ChangedBag(e: Effect, p: Pair, same: bool, es: seq<Pair>)
    requires e.change == Keep || e.change == Front(p)
    ensures multiset(Changed(e, same, es))
            == multiset(es) + if same && e.change == Front(p) then multiset{p} else multiset{}
    ensures same && e.change == Front(p) ==> First(Changed(e, same, es)) == Some(p.value)
  {
    ReverseBag(es);
    hide Reverse;
    var r := if e.grows then Reverse(es) else es;
    FrontBag(p, r);
  }

  lemma FrontBag<T>(p: T, r: seq<T>)
    ensures multiset([p] + r) == multiset(r) + multiset{p}
  {
  }

  lemma {:induction false} ReverseBag<T>(s: seq<T>)
    ensures multiset(Reverse(s)) == multiset(s)
  {
    if s != [] {
      ReverseBag(s[1..]);
      assert s == [s[0]] + s[1..];
    }
  }

  /** An insertion under another key leaves a lookup alone unless the table grows and
      the key has several entries; then the lookup turns to the entry that was last. */
  lemma OtherKeyStep(f: Fns, t: Table, op: Op, j: Ptr)
    requires Coherent(f) && TableOk(f, t) && op.OpInsert? && !f.equal(op.key, j)
    ensures var e, es := EffectOf(t.size, t.bits, op, Known(f, t, op)), Entries(f, t, j);
            Find(f, Apply(f, t, op), j)
            == if es == [] then None else Some(es[if e.grows then |es| - 1 else 0].value)
  {
    hide Coherent, TableOk, Entries, Apply, Find;
    StepRefines(f, t, op);
    FindSpec(f, Apply(f, t, op), j);
  }

  /** The reference after one more operation. */
  lemma StoredStep(f: Fns, ops: seq<Op>, op: Op, k: Ptr)
    ensures var c := Counted(f, ops);
            var e := EffectOf(c.size, c.bits, op, !op.OpClear? && Stored(f, ops, op.key) != []);
            && Counted(f, ops + [op]) == Count(SizeAfter(e, c.size), BitsAfter(e, c.bits))
            && Stored(f, ops + [op], k) == Changed(e, SameKey(f, op, k), Stored(f, ops, k))
  {
    assert (ops + [op])[..|ops|] == ops;
  }

  lemma AppendTo(f: Fns, ops: seq<Op>, k: Ptr, v: Ptr, j: Ptr)
    requires Counted(f, ops).bits < MAX_CAP_BITS
    ensures var c, l := Counted(f, ops), ops + [OpInsert(k, v, Append, Memory(true, true))];
            var full := NeedsToGrow(c.size, Cap(c.bits));
            && Counted(f, l) == Count(c.size + 1, if full then GrownBits(c.bits) else c.bits)
            && Stored(f, l, j) == (if f.equal(k, j) then [Pair(k, v)] else [])
                                  + if full then Reverse(Stored(f, ops, j)) else Stored(f, ops, j)
  {
    hide Stored, Counted, Reverse;
    StoredStep(f, ops, OpInsert(k, v, Append, Memory(true, true)), j);
  }

  lemma NothingStored(f: Fns, k: Ptr)
    ensures Stored(f, [], k) == [] && Counted(f, []) == Count(0, 0)
  {
  }

  /** How often the table grew after the first `n` operations. */
  function Growths(f: Fns, ops: seq<Op>, n: nat): nat
    requires n <= |ops|
  {
    if |ops| == n then 0 else Growths(f, ops[..|ops| - 1], n) + if LastEffect(f, ops).grows then 1 else 0
  }

  /** Operations under other keys, deletions among them. */
  predicate OthersOnly(f: Fns, ops: seq<Op>, k: Ptr) {
    forall i :: 0 <= i < |ops| ==> !ops[i].OpClear? && !SameKey(f, ops[i], k)
  }

  lemma {:induction false} ReverseTwice<T>(s: seq<T>)
    ensures Reverse(Reverse(s)) == s
  {
    if s != [] {
      ReverseTwice(s[1..]);
      ReverseAppend(Reverse(s[1..]), s[0]);
    }
  }

  lemma {:induction false} ReverseFirst<T>(s: seq<T>)
    requires s != []
    ensures |Reverse(s)| == |s| && Reverse(s)[0] == s[|s| - 1]
  {
    assert s == s[..|s| - 1] + [s[|s| - 1]];
    ReverseAppend(s[..|s| - 1], s[|s| - 1]);
  }

  lemma OtherEffect(size: nat, bits: nat, op: Op, known: bool, es: seq<Pair>)
    requires !op.OpClear?
    ensures var e := EffectOf(size, bits, op, known); Changed(e, false, es) == if e.grows then Reverse(es) else es
  {
  }

  lemma OtherTurns(f: Fns, ops: seq<Op>, op: Op, k: Ptr)
    requires !op.OpClear? && !SameKey(f, op, k)
    ensures Stored(f, ops + [op], k)
            == if LastEffect(f, ops + [op]).grows then Reverse(Stored(f, ops, k)) else Stored(f, ops, k)
  {
    hide EffectOf, Counted, Changed, Reverse, SameKey;
    assert (ops + [op])[..|ops|] == ops;
    var c := Counted(f, ops);
    OtherEffect(c.size, c.bits, op, Stored(f, ops, op.key) != [], Stored(f, ops, k));
  }

  lemma GrowthsStep(f: Fns, ops: seq<Op>, op: Op, n: nat)
    requires n <= |ops|
    ensures Growths(f, ops, |ops|) == 0
    ensures Growths(f, ops + [op], n) == Growths(f, ops, n) + if LastEffect(f, ops + [op]).grows then 1 else 0
  {
    hide LastEffect;
    assert (ops + [op])[..|ops|] == ops;
  }

  /** Operations under other keys turn the entries of a key around as often as the table
      grows, and do nothing else to them. */
  lemma {:induction false} OthersTurn(f: Fns, ops: seq<Op>, after: seq<Op>, k: Ptr)
    requires OthersOnly(f, after, k)
    ensures Stored(f, ops + after, k) == Turned(Stored(f, ops, k), Growths(f, ops + after, |ops|))
  {
    if after == [] {
      assert ops + after == ops;
      GrowthsStep(f, ops, OpClear, |ops|);
    } else {
      hide *;
      var n := |after| - 1;
      OthersBefore(f, after, k);
      OthersTurn(f, ops, after[..n], k);
      assert ops + after == ops + after[..n] + [after[n]];
      TurnOnce(f, ops, ops + after[..n], after[n], k);
    }
  }

  lemma OthersBefore(f: Fns, after: seq<Op>, k: Ptr)
    requires after != [] && OthersOnly(f, after, k)
    ensures OthersOnly(f, after[..|after| - 1], k)
    ensures !after[|after| - 1].OpClear? && !SameKey(f, after[|after| - 1], k)
  {
    hide SameKey;
  }

  /** A list turned around `n` times. */
  function Turned(es: seq<Pair>, n: nat): seq<Pair> {
    if n % 2 == 0 then es else Reverse(es)
  }

  lemma TurnedStep(es: seq<Pair>, n: nat, again: bool)
    ensures Turned(es, n + if again then 1 else 0) == if again then Reverse(Turned(es, n)) else Turned(es, n)
  {
    if again {
      ReverseTwice(es);
      OddEven(n);
    }
  }

  lemma OddEven(n: nat)
    ensures (n + 1) % 2 == 0 <==> n % 2 != 0
  {
  }

  lemma TurnOnce(f: Fns, ops: seq<Op>, front: seq<Op>, op: Op, k: Ptr)
    requires |ops| <= |front| && !op.OpClear? && !SameKey(f, op, k)
    requires Stored(f, front, k) == Turned(Stored(f, ops, k), Growths(f, front, |ops|))
    ensures Stored(f, front + [op], k) == Turned(Stored(f, ops, k), Growths(f, front + [op], |ops|))
  {
    hide *;
    assert front + [op] != [];
    OtherTurns(f, front, op, k);
    GrowthsStep(f, front, op, |ops|);
    TurnedStep(Stored(f, ops, k), Growths(f, front, |ops|), LastEffect(f, front + [op]).grows);
  }

  /** Whether a lookup gives the entry inserted last under its key: after an insertion that
      succeeded, and then any operations under other keys, it does if and only if the table
      has since grown an even number of times, or that entry is the only one; otherwise it
      gives the one that was last in line. */
  lemma LastInserted(f: Fns, ops: seq<Op>, p: Pair, after: seq<Op>, k: Ptr)
    requires Coherent(f) && ops != [] && OthersOnly(f, after, k)
    requires LastEffect(f, ops).change == Front(p) && SameKey(f, ops[|ops| - 1], k)
    ensures var es, even := Stored(f, ops, k), Growths(f, ops + after, |ops|) % 2 == 0;
            && es != [] && es[0] == p
            && Find(f, Run(f, ops + after), k) == Some(if even then p.value else es[|es| - 1].value)
            && ((forall i :: 0 < i < |es| ==> es[i].value != p.value) ==>
                  (Find(f, Run(f, ops + after), k) == Some(p.value) <==> even || |es| == 1))
  {
    hide Coherent, Run, Find, EffectOf, Counted, Growths, TableOk, Reverse, SameKey, OthersOnly;
    var es := Stored(f, ops, k);
    assert es != [] && es[0] == p;
    hide LastEffect, Stored, Changed;
    OthersTurn(f, ops, after, k);
    ReverseFirst(es);
    FoundFirst(f, ops + after, k);
  }

  lemma SmallCaps()
    ensures NeedsToGrow(0, Cap(0)) && GrownBits(0) == 2 && NeedsToGrow(3, Cap(2))
    ensures !NeedsToGrow(1, Cap(2)) && !NeedsToGrow(2, Cap(2)) && 2 < MAX_CAP_BITS
  {
    assert Cap(0) == 0 && Cap(2) == 4;
  }

  /** The reference after `v` has been appended under `k`, for the entries of `k`. */
  lemma AppendOwn(f: Fns, ops: seq<Op>, k: Ptr, v: Ptr, size: nat)
    requires Coherent(f) && size <= 2 && Counted(f, ops) == Count(size, if size == 0 then 0 else 2)
    requires size == 0 ==> Stored(f, ops, k) == []
    ensures var l := ops + [OpInsert(k, v, Append, Memory(true, true))];
            Counted(f, l) == Count(size + 1, 2) && Stored(f, l, k) == [Pair(k, v)] + Stored(f, ops, k)
  {
    assert f.equal(k, k);
    assert Reverse<Pair>([]) == [];
    SmallCaps();
    hide Coherent, Stored, Counted, NeedsToGrow, Cap, GrownBits, Reverse;
    AppendTo(f, ops, k, v, k);
  }

  lemma AppendOther(f: Fns, ops: seq<Op>, j: Ptr, v: Ptr, k: Ptr)
    requires Coherent(f) && !f.equal(j, k) && Counted(f, ops) == Count(3, 2)
    ensures Stored(f, ops + [OpInsert(j, v, Append, Memory(true, true))], k) == Reverse(Stored(f, ops, k))
  {
    SmallCaps();
    hide Coherent, Stored, Counted, NeedsToGrow, Cap, GrownBits, Reverse;
    AppendTo(f, ops, j, v, k);
    assert [] + Reverse(Stored(f, ops, k)) == Reverse(Stored(f, ops, k));
  }

  /** The reference after three entries have been appended, and then one under another key. */
  lemma ThreeAppended(f: Fns, ops: seq<Op>, k: Ptr, j: Ptr)
    requires Coherent(f) && !f.equal(j, k)
    requires var m := Memory(true, true);
             ops == [OpInsert(k, 1, Append, m), OpInsert(k, 2, Append, m), OpInsert(k, 3, Append, m)]
    ensures Stored(f, ops, k) == [Pair(k, 3), Pair(k, 2), Pair(k, 1)]
    ensures Stored(f, ops + [OpInsert(j, 4, Append, Memory(true, true))], k) == [Pair(k, 1), Pair(k, 2), Pair(k, 3)]
  {
    hide *;
    NothingStored(f, k);
    assert [] + [ops[0]] == ops[..1] && ops[..1] + [ops[1]] == ops[..2] && ops[..2] + [ops[2]] == ops;
    AppendOwn(f, [], k, 1, 0);
    AppendOwn(f, ops[..1], k, 2, 1);
    AppendOwn(f, ops[..2], k, 3, 2);
    AppendOther(f, ops, j, 4, k);
    assert Stored(f, ops, k) == [Pair(k, 3), Pair(k, 2), Pair(k, 1)];
  }

  /** So a lookup does not always give the entry inserted last under its key: three
      entries appended, and a fourth insertion under a different key. */
  lemma LastInsertedLost(f: Fns, k: Ptr, j: Ptr)
    requires Coherent(f) && !f.equal(j, k)
    ensures var m := Memory(true, true);
            var ops := [OpInsert(k, 1, Append, m), OpInsert(k, 2, Append, m), OpInsert(k, 3, Append, m)];
            && Find(f, Run(f, ops), k) == Some(3)
            && Find(f, Run(f, ops + [OpInsert(j, 4, Append, m)]), k) == Some(1)
  {
    hide *;
    var m := Memory(true, true);
    var o := [OpInsert(k, 1, Append, m), OpInsert(k, 2, Append, m), OpInsert(k, 3, Append, m)];
    ThreeAppended(f, o, k, j);
    FoundFirst(f, o, k);
    FoundFirst(f, o + [OpInsert(j, 4, Append, m)], k);
  }

  lemma FoundFirst(f: Fns, ops: seq<Op>, k: Ptr)
    requires Coherent(f)
    ensures Stored(f, ops, k) != [] ==> Find(f, Run(f, ops), k) == Some(Stored(f, ops, k)[0].value)
  {
    hide Coherent, Stored, Counted, Run, Find, TableOk;
    RunRefines(f, ops);
    FindSpec(f, Run(f, ops), k);
  }
}
