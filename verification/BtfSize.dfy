/** The size of a type through modifiers and nested arrays. */
module BtfSize {
  import opened BtfTypes
  import opened BtfGraph

  const MAX_RESOLVE_DEPTH: nat := 32
  const UINT32_MAX: nat := 0xffff_ffff

  const EINVAL: int := 22
  const E2BIG: int := 7

  /** What is found in at most `n` steps: the array lengths on the way, and the size of
      the type at the end of it, if it has one. */
  datatype Found = Found(lens: seq<nat>, leaf: int)

  const NONE: int := -1

  predicate HasSize(k: Kind) { k in {Int, Struct, Union, Enum, Datasec} }

  predicate IsAlias(k: Kind) { k in {Typedef, Volatile, Const, Restrict, Var} }

  function Look(g: Graph, ptrSize: nat, x: nat, n: nat): Found
    decreases n
  {
    if n == 0 || x == 0 || x >= |g| || g[x].info.kind == Fwd then Found([], NONE)
    else if HasSize(g[x].info.kind) then Found([], g[x].size)
    else if g[x].info.kind == Ptr then Found([], ptrSize)
    else if IsAlias(g[x].info.kind) then Look(g, ptrSize, g[x].size, n - 1)
    else if g[x].info.kind == Array && g[x].tail.ArrayTail? then
      var f := Look(g, ptrSize, g[x].tail.elem, n - 1);
      Found([g[x].tail.nelems] + f.lens, f.leaf)
    else Found([], NONE)
  }

  /** One step of the walk, and its ends. */
  lemma LookStep(g: Graph, ptrSize: nat, x: nat, n: nat)
    ensures n == 0 || x == 0 || x >= |g| || g[x].info.kind == Fwd ==> Look(g, ptrSize, x, n) == Found([], NONE)
    ensures n > 0 && 0 < x < |g| && g[x].info.kind != Fwd ==>
              Look(g, ptrSize, x, n) ==
              if HasSize(g[x].info.kind) then Found([], g[x].size)
              else if g[x].info.kind == Ptr then Found([], ptrSize)
              else if IsAlias(g[x].info.kind) then Look(g, ptrSize, g[x].size, n - 1)
              else if g[x].info.kind == Array && g[x].tail.ArrayTail? then
                var f := Look(g, ptrSize, g[x].tail.elem, n - 1);
                Found([g[x].tail.nelems] + f.lens, f.leaf)
              else Found([], NONE)
  {
  }

  // ---------------------------------------------------------------------------
  // The walk by kind

  /** What a name, a qualifier, a variable or an array is of. */
  predicate Goes(t: BtfType, y: nat) {
    match t.info.kind
    case Typedef => y == t.size
    case Volatile => y == t.size
    case Const => y == t.size
    case Restrict => y == t.size
    case Var => y == t.size
    case Array => t.tail.ArrayTail? && y == t.tail.elem
    case _ => false
  }

  /** From one type to the next. */
  predicate IsWalk(g: Graph, p: seq<nat>) {
    p != [] && forall i :: 0 <= i < |p| - 1 ==> 0 < p[i] < |g| && Goes(g[p[i]], p[i + 1])
  }

  /** The array lengths on the way. */
  function Lengths(g: Graph, p: seq<nat>): seq<nat>
    decreases |p|
  {
    if p == [] then [] else Length(g, p[0]) + Lengths(g, p[1..])
  }

  function Length(g: Graph, x: nat): seq<nat> {
    if x < |g| && g[x].info.kind == Array && g[x].tail.ArrayTail? then [g[x].tail.nelems] else []
  }

  /** The size of a type that is none of these, if it has one. */
  function SizeAt(g: Graph, ptrSize: nat, x: nat): int {
    if x == 0 || x >= |g| then NONE
    else
      match g[x].info.kind
      case Int => g[x].size
      case Struct => g[x].size
      case Union => g[x].size
      case Enum => g[x].size
      case Datasec => g[x].size
      case Ptr => ptrSize
      case _ => NONE
  }

  predicate IsEnd(g: Graph, x: nat) {
    x == 0 || x >= |g| || g[x].info.kind !in {Typedef, Volatile, Const, Restrict, Var, Array}
  }

  lemma WalkStep(g: Graph, p: seq<nat>, n: nat)
    requires IsWalk(g, p) && 0 < n < |p|
    ensures IsWalk(g, p[1..]) && 0 < p[0] < |g| && Goes(g[p[0]], p[1])
    ensures Lengths(g, p[..n]) == Length(g, p[0]) + Lengths(g, p[1..][..n - 1])
  {
    hide Goes, Length;
    assert p[..n][1..] == p[1..][..n - 1];
    forall i | 0 <= i < |p| - 2 ensures 0 < p[1..][i] < |g| && Goes(g[p[1..][i]], p[1..][i + 1]) {
      assert 0 < p[i + 1] < |g| && Goes(g[p[i + 1]], p[i + 2]);
    }
  }

  /** One type looked through. */
  lemma LookThrough(g: Graph, ptrSize: nat, x: nat, y: nat, n: nat)
    requires 0 < x < |g| && Goes(g[x], y) && n > 0
    ensures var f := Look(g, ptrSize, y, n - 1); Look(g, ptrSize, x, n) == Found(Length(g, x) + f.lens, f.leaf)
  {
    LookStep(g, ptrSize, x, n);
    hide Look;
    var f := Look(g, ptrSize, y, n - 1);
    assert [] + f.lens == f.lens;
  }

  lemma LookEnd(g: Graph, ptrSize: nat, x: nat, n: nat)
    requires n > 0 && IsEnd(g, x)
    ensures Look(g, ptrSize, x, n) == Found([], SizeAt(g, ptrSize, x))
  {
    LookStep(g, ptrSize, x, n);
  }

  /** A walk of at most `n` types finds what it ends at. */
  lemma {:induction false} WalkFinds(g: Graph, ptrSize: nat, p: seq<nat>, n: nat)
    requires IsWalk(g, p) && |p| <= n && IsEnd(g, p[|p| - 1])
    ensures Look(g, ptrSize, p[0], n) == Found(Lengths(g, p[..|p| - 1]), SizeAt(g, ptrSize, p[|p| - 1]))
    decreases |p|
  {
    hide Look, IsEnd, SizeAt, Goes, Length;
    if |p| > 1 {
      WalkStep(g, p, |p| - 1);
      WalkFinds(g, ptrSize, p[1..], n - 1);
      LookThrough(g, ptrSize, p[0], p[1], n);
    } else {
      LookEnd(g, ptrSize, p[0], n);
    }
  }

  /** A longer one finds no size. */
  lemma {:induction false} LongWalk(g: Graph, ptrSize: nat, p: seq<nat>, n: nat)
    requires IsWalk(g, p) && |p| == n + 1
    ensures Look(g, ptrSize, p[0], n) == Found(Lengths(g, p[..n]), NONE)
    decreases |p|
  {
    hide Goes, Length;
    if n > 0 {
      WalkStep(g, p, n);
      LongWalk(g, ptrSize, p[1..], n - 1);
      LookThrough(g, ptrSize, p[0], p[1], n);
    }
  }

  function Product(s: seq<nat>): nat {
    if s == [] then 1 else Product(s[..|s| - 1]) * s[|s| - 1]
  }

  /** Some array of arrays on the way, or the whole, has more than 32 bits. */
  ghost predicate TooBig(f: Found) {
    || (exists i :: 0 <= i <= |f.lens| && Product(f.lens[..i]) > UINT32_MAX)
    || (f.leaf >= 0 && Product(f.lens) * f.leaf > UINT32_MAX)
  }

  lemma DivideOverflows(n: nat, a: nat)
    requires n > 0
    ensures a > UINT32_MAX / n <==> n * a > UINT32_MAX
  {
    var q := UINT32_MAX / n;
    assert UINT32_MAX == q * n + UINT32_MAX % n;
    if a > q {
      Monotone(q + 1, a, n);
    } else {
      Monotone(a, q, n);
    }
  }

  lemma Monotone(a: nat, b: nat, n: nat)
    requires a <= b
    ensures n * a <= n * b && a * n <= b * n
  {
  }

  /** The size as the walk works it out, with `so` already passed. */
  ghost predicate Answer(f: Found, r: int) {
    if TooBig(f) then r == -E2BIG
    else if f.leaf < 0 then r == -EINVAL
    else r == Product(f.lens) * f.leaf
  }

  /** No part of these lengths is too big. */
  ghost predicate Fits(so: seq<nat>) {
    forall i :: 0 <= i <= |so| ==> Product(so[..i]) <= UINT32_MAX
  }

  /** The test for one more array. */
  lemma PassArray(so: seq<nat>, a: nat, f: Found)
    requires Fits(so)
    ensures (so + [a]) + f.lens == so + ([a] + f.lens) && Product(so + [a]) == Product(so) * a
    ensures if Product(so) > 0 && a > UINT32_MAX / Product(so) then TooBig(Found(so + ([a] + f.lens), f.leaf))
            else Fits(so + [a])
  {
    var now := so + [a];
    assert now[..|so|] == so && now[..|now|] == now;
    if Product(so) > 0 {
      DivideOverflows(Product(so), a);
    }
    if Product(so) > 0 && a > UINT32_MAX / Product(so) {
      assert (so + ([a] + f.lens))[..|now|] == now;
    } else {
      forall j | 0 <= j <= |now| ensures Product(now[..j]) <= UINT32_MAX {
        assert j <= |so| ==> now[..j] == so[..j];
      }
    }
  }

  /** The test at the end. */
  lemma PassLeaf(so: seq<nat>, leaf: int)
    requires Fits(so)
    ensures TooBig(Found(so, leaf)) <==> leaf >= 0 && Product(so) > 0 && leaf > UINT32_MAX / Product(so)
  {
    hide Product;
    assert so[..|so|] == so;
    var n := Product(so);
    if leaf >= 0 {
      if n > 0 {
        DivideOverflows(n, leaf);
      } else {
        Monotone(0, leaf, n);
      }
    }
  }

  /** The answer by kind: what a walk of at most 32 types comes to, and that a longer one has no
      size. */
  ghost predicate AnswersWalks(g: Graph, ptrSize: nat, typeId: nat, r: int) {
    && (forall p {:trigger IsWalk(g, p)} :: IsWalk(g, p) && p[0] == typeId && |p| <= 32 && IsEnd(g, p[|p| - 1]) ==>
          Answer(Found(Lengths(g, p[..|p| - 1]), SizeAt(g, ptrSize, p[|p| - 1])), r))
    && (forall p {:trigger IsWalk(g, p)} :: IsWalk(g, p) && p[0] == typeId && |p| == 33 ==>
          Answer(Found(Lengths(g, p[..32]), NONE), r))
  }

  lemma WalksAnswered(g: Graph, ptrSize: nat, typeId: nat)
    ensures forall r :: Answer(Look(g, ptrSize, typeId, MAX_RESOLVE_DEPTH), r) ==> AnswersWalks(g, ptrSize, typeId, r)
  {
    hide Answer, Look, Lengths, SizeAt, IsEnd, Goes;
    forall p | IsWalk(g, p) && p[0] == typeId && |p| <= 32 && IsEnd(g, p[|p| - 1])
      ensures Look(g, ptrSize, typeId, MAX_RESOLVE_DEPTH)
              == Found(Lengths(g, p[..|p| - 1]), SizeAt(g, ptrSize, p[|p| - 1]))
    {
      WalkFinds(g, ptrSize, p, MAX_RESOLVE_DEPTH);
    }
    forall p | IsWalk(g, p) && p[0] == typeId && |p| == 33
      ensures Look(g, ptrSize, typeId, MAX_RESOLVE_DEPTH) == Found(Lengths(g, p[..32]), NONE)
    {
      LongWalk(g, ptrSize, p, MAX_RESOLVE_DEPTH);
    }
  }

  /** An answer that is not an error is exactly the product of all array lengths and the
      size of what is in them; one that does not fit in 32 bits, or has a part that does
      not, is reported as too big; everything without a size is invalid. */
  method ResolveSize(g: Graph, ptrSize: nat, typeId: nat) returns (r: int)
    requires Closed(g)
    ensures Answer(Look(g, ptrSize, typeId, MAX_RESOLVE_DEPTH), r)
    ensures AnswersWalks(g, ptrSize, typeId, r)
  {
    hide Product, TooBig, Fits, Look, AnswersWalks;
    WalksAnswered(g, ptrSize, typeId);
    var nelems: nat, size: int, i: nat, id: nat := 1, -1, 0, typeId;
    ghost var so: seq<nat> := [];
    NoLengths();
    ghost var all := Look(g, ptrSize, typeId, MAX_RESOLVE_DEPTH);
    while i < MAX_RESOLVE_DEPTH && 0 < id < |g| && g[id].info.kind != Fwd
      invariant 0 <= i <= MAX_RESOLVE_DEPTH && size == -1 && nelems == Product(so) && Fits(so)
      invariant Ahead(all, so, Look(g, ptrSize, id, MAX_RESOLVE_DEPTH - i))
    {
      var t := g[id];
      LookStep(g, ptrSize, id, MAX_RESOLVE_DEPTH - i);
      if HasSize(t.info.kind) {
        size := t.size;
        break;
      } else if t.info.kind == Ptr {
        size := ptrSize;
        break;
      } else if IsAlias(t.info.kind) {
        id := t.size;
      } else if t.info.kind == Array {
        assert WellFormed(t);
        PassArray(so, t.tail.nelems, Look(g, ptrSize, t.tail.elem, MAX_RESOLVE_DEPTH - i - 1));
        if nelems > 0 && t.tail.nelems > UINT32_MAX / nelems {
          return -E2BIG;
        }
        nelems := nelems * t.tail.nelems;
        so := so + [t.tail.nelems];
        id := t.tail.elem;
      } else {
        PassLeaf(so, NONE);
        return -EINVAL;
      }
      i := i + 1;
    }
    LookStep(g, ptrSize, id, MAX_RESOLVE_DEPTH - i);
    PassLeaf(so, size);
    if size < 0 {
      return -EINVAL;
    }
    if nelems > 0 && size > UINT32_MAX / nelems {
      return -E2BIG;
    }
    return nelems * size;
  }

  /** `f` is what lies ahead once `so` is passed. */
  ghost predicate Ahead(all: Found, so: seq<nat>, f: Found) {
    all == Found(so + f.lens, f.leaf) && (f.lens == [] ==> all.lens == so)
  }

  lemma NoLengths()
    ensures Product([]) == 1 && Fits([])
  {
  }
}
