/** The traversal that orders type definitions for a C dump, over its state arrays and
    its growing queue. */
module Dump {
  import opened BtfTypes
  import opened BtfGraph
  import opened DumpModel

  const ELOOP: int := 40
  const EINVAL: int := 22

  /** The type ids a descriptor is looked through for: none of a FWD, and of a prototype
      the parameters only. */
  function Marks(t: BtfType): seq<nat>
    requires WellFormed(t)
  {
    match t.info.kind
    case Fwd => []
    case FuncProto => Refs(t)[1..]
    case _ => Refs(t)
  }

  /** Marks the types that others refer to. */
  method MarkReferenced(g: Graph) returns (marks: array<bool>)
    requires Closed(g)
    ensures fresh(marks) && marks.Length == |g|
    ensures forall x :: 0 <= x < |g| ==> (marks[x] <==> Referenced(g, x))
  {
    marks := new bool[|g|](_ => false);
    for i := 1 to |g|
      invariant forall x :: 0 <= x < |g| ==> (marks[x] <==> ReferencedBefore(g, x, i))
    {
      assert WellFormed(g[i]) && RefsBelow(g[i], |g|);
      var rs := Marks(g[i]);
      for j := 0 to |rs|
        invariant forall x :: 0 <= x < |g| ==> (marks[x] <==> ReferencedBefore(g, x, i) || x in rs[..j])
      {
        assert rs[j] in Refs(g[i]);
        marks[rs[j]] := true;
        assert rs[..j + 1] == rs[..j] + [rs[j]];
      }
      assert rs[..|rs|] == rs;
      forall x | 0 <= x < |g| ensures ReferencedBefore(g, x, i + 1) <==> ReferencedBefore(g, x, i) || x in rs {
        NextReferences(g, x, i);
      }
    }
  }

  /** Slot `j` of type `i` holds `x`. */
  ghost predicate Mentions(g: Graph, i: nat, j: nat, x: nat) {
    0 < i < |g| && j < |Refs(g[i])| && Refs(g[i])[j] == x
  }

  /** The result of a prototype, and the unused word of a forward. */
  predicate PassedOver(t: BtfType, j: nat) {
    t.info.kind == Fwd || (t.info.kind == FuncProto && j == 0)
  }

  ghost predicate ReferencedBefore(g: Graph, x: nat, n: nat) {
    exists i: nat, j: nat :: i < n && Mentions(g, i, j, x) && !PassedOver(g[i], j)
  }

  ghost predicate Referenced(g: Graph, x: nat) {
    ReferencedBefore(g, x, |g|)
  }

  lemma NextReferences(g: Graph, x: nat, n: nat)
    requires Closed(g) && 0 < n < |g|
    ensures ReferencedBefore(g, x, n + 1) <==> ReferencedBefore(g, x, n) || x in Marks(g[n])
  {
    assert WellFormed(g[n]);
    var ms, rs := Marks(g[n]), Refs(g[n]);
    var skip := if g[n].info.kind == FuncProto then 1 else 0;
    if x in ms {
      var j :| 0 <= j < |ms| && ms[j] == x;
      assert Mentions(g, n, j + skip, x);
    }
    forall j: nat | Mentions(g, n, j, x) && !PassedOver(g[n], j) ensures x in ms {
      assert ms[j - skip] == x;
    }
  }

  /** An anonymous enum is queued as a definition of its own if and only if nothing refers
      to it but results of prototypes (and unused words of forwards). */
  lemma ResultEnum(g: Graph, marks: seq<bool>, x: nat)
    requires Closed(g) && |marks| == |g| && x < |g| && g[x].info.kind == Enum && g[x].name == 0
    requires marks[x] <==> Referenced(g, x)
    ensures Emitted(g, marks, x) <==> forall i: nat, j: nat :: Mentions(g, i, j, x) ==> PassedOver(g[i], j)
  {
    if Emitted(g, marks, x) {
      forall i: nat, j: nat | Mentions(g, i, j, x) ensures PassedOver(g[i], j) {
        assert i < |g|;
      }
    }
  }

  /** `enum { A } f(void);` */
  const RESULT_ENUM: Graph := [
    VOID,
    BtfType(0, Info(Enum, 1, false, 0, 0), 4, Values([EnumVal(1, 0)])),
    BtfType(0, Info(FuncProto, 0, false, 0, 0), 1, Params([]))
  ]

  /** So an enum written in place as the result of a function counts as a declaration of
      constants. */
  lemma ResultEnumEmitted(marks: seq<bool>)
    requires |marks| == 3 && forall x :: 0 <= x < 3 ==> (marks[x] <==> Referenced(RESULT_ENUM, x))
    ensures Closed(RESULT_ENUM) && Mentions(RESULT_ENUM, 2, 0, 1) && Emitted(RESULT_ENUM, marks, 1)
  {
    var g := RESULT_ENUM;
    assert g == [g[0], g[1], g[2]];
    assert Refs(g[1]) == [] && Refs(g[2]) == [1];
    forall i: nat, j: nat | Mentions(g, i, j, 1) ensures PassedOver(g[i], j) {
      assert i == 1 || i == 2;
    }
    ResultEnum(g, marks, 1);
  }

  // ---------------------------------------------------------------------------
  // Loops past a prototype

  /** `struct x { t *p; t v; }`, where `t` is `void(struct s)` and `struct s` holds itself. */
  const PROTO_LOOP: Graph := [
    VOID,
    BtfType(1, Info(Struct, 2, false, 0, 0), 16, Members([Member(2, 2, 0), Member(3, 3, 64)])),
    BtfType(0, Info(Ptr, 0, false, 0, 0), 3, NoTail),
    BtfType(4, Info(Typedef, 0, false, 0, 0), 4, NoTail),
    BtfType(0, Info(FuncProto, 1, false, 0, 0), 0, Params([Param(0, 5)])),
    BtfType(5, Info(Struct, 1, false, 0, 0), 8, Members([Member(6, 5, 0)]))
  ]

  lemma ProtoLoopFollows()
    ensures |PROTO_LOOP| == 6 && Follows(PROTO_LOOP[1]) == [2, 3] && Follows(PROTO_LOOP[2]) == [3]
    ensures Follows(PROTO_LOOP[3]) == [4] && Follows(PROTO_LOOP[4]) == [0, 5] && Follows(PROTO_LOOP[5]) == [5]
  {
  }

  /** What `struct x` needs has a greater id each time, and goes no further than the prototype. */
  lemma {:induction false} NeedsRise(p: seq<Visit>)
    requires NeedPath(PROTO_LOOP, p) && 0 < p[0].id < 5
    ensures p[|p| - 1].id < 5 && (|p| > 1 ==> p[0].id < p[|p| - 1].id)
    decreases |p|
  {
    if |p| > 1 {
      ProtoLoopFollows();
      assert Needs(PROTO_LOOP, p[0], p[1]);
      PathTail(PROTO_LOOP, p);
      NeedsRise(p[1..]);
    }
  }

  /** A loop that is come to past a prototype is a loop but no definition that needs itself:
      whether -ELOOP is returned depends on whether the typedef, which is ordered behind the
      pointer already, is looked into again. */
  lemma PrototypeLoop()
    ensures LoopsFrom(PROTO_LOOP, Visit(1, false)) && !NeedsSelfNeeding(PROTO_LOOP, 1)
  {
    var g := PROTO_LOOP;
    ProtoLoopFollows();
    hide Follows;
    var w := [Visit(1, false), Visit(3, false), Visit(4, false), Visit(5, false), Visit(5, false)];
    assert Follows(g[1])[1] == 3 && Follows(g[3])[0] == 4 && Follows(g[4])[1] == 5 && Follows(g[5])[0] == 5;
    assert Opened(g, w[3]) && w[3].id == w[4].id;
    assert Loops(g, w);
    forall p: seq<Visit> | NeedPath(g, p) && p[0] == Visit(1, false) ensures !SelfNeeding(g, p[|p| - 1].id) {
      NeedsRise(p);
      NotSelfNeeding(p[|p| - 1].id);
    }
  }

  lemma NotSelfNeeding(x: nat)
    requires 0 < x < 5
    ensures !SelfNeeding(PROTO_LOOP, x)
  {
    hide NeedPath;
    forall p: seq<Visit> | NeedPath(PROTO_LOOP, p) && |p| >= 2 && p[0] == Visit(x, false)
      ensures !EndsAt(PROTO_LOOP, p, x)
    {
      NeedsRise(p);
    }
  }

  lemma NothingNeeded(g: Graph, marks: seq<bool>, settled: set<Visit>, id: nat)
    requires id < |g| == |marks| && g[id].info.kind in {Int, Func, Var, Datasec}
    ensures Covered(g, settled, Visit(id, false)) && !Emitted(g, marks, id)
  {
  }

  class BtfDump {
    const btf: Graph
    const orderState: array<State>
    const referenced: array<bool>
    var emitQueue: seq<nat>
    /** Definitions of earlier calls. */
    ghost var emitted: seq<nat>
    ghost var settled: set<Visit>
    /** Types in the order they were ordered. */
    ghost var done: seq<nat>

    constructor (btf: Graph)
      requires Closed(btf)
      ensures this.btf == btf && Valid() && Idle() && emitted + emitQueue == []
      ensures forall x :: 0 <= x < |btf| ==> (referenced[x] <==> Referenced(btf, x))
      ensures fresh(orderState) && fresh(referenced)
    {
      this.btf := btf;
      var states := new State[|btf|](_ => NotOrdered);
      states[0] := Ordered;
      var marks := MarkReferenced(btf);
      orderState, referenced := states, marks;
      emitQueue := [];
      emitted, settled, done := [], {Visit(0, false)}, [];
      new;
      InitialInv(btf, orderState[..]);
    }

    /** No traversal is under way. */
    ghost predicate Idle()
      reads orderState
    {
      forall x :: 0 <= x < orderState.Length ==> orderState[x] != Ordering
    }

    ghost predicate Valid()
      reads this, orderState, referenced
    {
      && Closed(btf)
      && orderState.Length == referenced.Length == |btf|
      && OrderInv(btf, orderState[..], settled, done)
      && emitted + emitQueue == Emits(btf, referenced[..], done)
    }

    /** Marks a type ordered. */
    method SetOrdered(id: nat)
      requires Valid() && id < |btf| && !Stateless(btf[id].info.kind) && !Emitted(btf, referenced[..], id)
      requires Covered(btf, settled, Visit(id, false))
      modifies orderState, `settled, `done
      ensures Valid() && orderState[..] == old(orderState[..])[id := Ordered]
      ensures settled == old(settled) + {Visit(id, false)}
    {
      MarkKeeps(btf, orderState[..], settled, done, id);
      orderState[id] := Ordered;
      settled, done := settled + {Visit(id, false)}, done + [id];
      assert done[..|done| - 1] == old(done);
    }

    /** Queues a definition and marks its type ordered. */
    method Emit(id: nat)
      requires Valid() && Emitted(btf, referenced[..], id) && !Stateless(btf[id].info.kind)
      requires Covered(btf, settled, Visit(id, false))
      modifies orderState, `settled, `done, `emitQueue
      ensures Valid() && orderState[..] == old(orderState[..])[id := Ordered]
      ensures settled == old(settled) + {Visit(id, false)}
    {
      MarkKeeps(btf, orderState[..], settled, done, id);
      emitQueue := emitQueue + [id];
      orderState[id] := Ordered;
      settled, done := settled + {Visit(id, false)}, done + [id];
      assert done[..|done| - 1] == old(done);
    }

    /** Orders a type and what it needs.  Returns 1 if the type itself had to be defined,
        0 if a forward declaration may do, and a negative error if neither works. */
    method OrderType(id: nat, throughPtr: bool, ghost k: nat) returns (r: int)
      requires Valid() && AllShallow(btf) && Shallow(btf, k, id)
      modifies orderState, `emitQueue, `settled, `done
      ensures r >= 0 ==> Valid() && Later(old(orderState[..]), orderState[..]) && old(settled) <= settled
      ensures r >= 0 ==> Has(btf, settled, Visit(id, throughPtr))
      ensures r > 0 ==> Visit(id, false) in settled
      ensures r < 0 ==> r == -ELOOP && Stuck(btf, old(orderState[..]), Visit(id, throughPtr))
      decreases |Unopened(btf, orderState[..])|, k, 3
    {
      if orderState[id] == Ordered {
        return 1;
      }
      var t := btf[id];
      if orderState[id] == Ordering {
        if IsComposite(t.info.kind) && throughPtr && t.name != 0 {
          return 0;
        }
        BlockedHere(btf, orderState[..], Visit(id, throughPtr));
        return -ELOOP;
      }
      match t.info.kind {
        case Ptr => r := OrderPtr(id, throughPtr, k);
        case Array => r := OrderPass(id, throughPtr, k);
        case Volatile => r := OrderPass(id, throughPtr, k);
        case Const => r := OrderPass(id, throughPtr, k);
        case Restrict => r := OrderPass(id, throughPtr, k);
        case Struct => r := OrderComposite(id, throughPtr, k);
        case Union => r := OrderComposite(id, throughPtr, k);
        case Enum => r := OrderEnum(id);
        case Fwd => r := OrderEnum(id);
        case Typedef => r := OrderTypedef(id, throughPtr, k);
        case FuncProto => r := OrderProto(id, throughPtr, k);
        case Int => r := OrderOther(id);
        case Func => r := OrderOther(id);
        case Var => r := OrderOther(id);
        case Datasec => r := OrderOther(id);
      }
    }

    /** Integers need no definition; functions, variables and sections are not dumped. */
    method OrderOther(id: nat) returns (r: int)
      requires Valid() && id < |btf| && orderState[id] == NotOrdered
      requires btf[id].info.kind in {Int, Func, Var, Datasec}
      modifies orderState, `settled, `done
      ensures r == 0 && Visit(id, false) in settled
      ensures Valid() && Later(old(orderState[..]), orderState[..]) && old(settled) <= settled
    {
      hide OrderInv, Covered, Emits, Emitted;
      NothingNeeded(btf, referenced[..], settled, id);
      SetOrdered(id);
      return 0;
    }

    method OrderEnum(id: nat) returns (r: int)
      requires Valid() && id < |btf| && orderState[id] == NotOrdered
      requires btf[id].info.kind == Enum || btf[id].info.kind == Fwd
      modifies orderState, `emitQueue, `settled, `done
      ensures r == 1 && Visit(id, false) in settled
      ensures Valid() && Later(old(orderState[..]), orderState[..]) && old(settled) <= settled
    {
      if btf[id].name != 0 || !referenced[id] {
        Emit(id);
      } else {
        SetOrdered(id);
      }
      return 1;
    }

    method OrderPtr(id: nat, throughPtr: bool, ghost k: nat) returns (r: int)
      requires Valid() && AllShallow(btf) && Shallow(btf, k, id) && orderState[id] == NotOrdered
      requires btf[id].info.kind == Ptr
      modifies orderState, `emitQueue, `settled, `done
      ensures r >= 0 ==> Visit(id, false) in settled
      ensures r >= 0 ==> Valid() && Later(old(orderState[..]), orderState[..]) && old(settled) <= settled
      ensures r < 0 ==> r == -ELOOP && Stuck(btf, old(orderState[..]), Visit(id, throughPtr))
      decreases |Unopened(btf, orderState[..])|, k, 1
    {
      ghost var st := orderState[..];
      FollowsInRange(btf, id, 0);
      assert Follows(btf[id])[0] == btf[id].size;
      r := OrderType(btf[id].size, true, k - 1);
      if r < 0 {
        orderState[id] := Ordered;
        StuckBefore(btf, st, Visit(id, throughPtr), Visit(btf[id].size, true));
      } else {
        CoveredOne(btf, settled, Visit(id, false), btf[id].size);
        SetOrdered(id);
      }
    }

    /** A visit that orders nothing. */
    ghost method Settle(a: Visit)
      requires Valid() && a.id < |btf| && Covered(btf, settled, a)
      requires Strong(btf, a) ==> Stateless(btf[a.id].info.kind)
      modifies `settled
      ensures Valid() && settled == old(settled) + {a}
    {
      PassKeeps(btf, orderState[..], settled, done, a);
      settled := settled + {a};
    }

    /** Arrays and modifiers. */
    method OrderPass(id: nat, throughPtr: bool, ghost k: nat) returns (r: int)
      requires Valid() && AllShallow(btf) && Shallow(btf, k, id) && orderState[id] == NotOrdered
      requires PassThrough(btf[id].info.kind)
      modifies orderState, `emitQueue, `settled, `done
      ensures r >= 0 ==> Valid() && Later(old(orderState[..]), orderState[..]) && old(settled) <= settled
      ensures r >= 0 ==> Has(btf, settled, Visit(id, throughPtr))
      ensures r > 0 ==> Visit(id, false) in settled
      ensures r < 0 ==> r == -ELOOP && Stuck(btf, old(orderState[..]), Visit(id, throughPtr))
      decreases |Unopened(btf, orderState[..])|, k, 1
    {
      ghost var st := orderState[..];
      assert WellFormed(btf[id]);
      var target := if btf[id].info.kind == Array then btf[id].tail.elem else btf[id].size;
      assert Follows(btf[id]) == [target];
      assert Follows(btf[id])[0] == target;
      r := OrderType(target, throughPtr, k - 1);
      if r < 0 {
        StuckBefore(btf, st, Visit(id, throughPtr), Visit(target, throughPtr));
      } else {
        ghost var a := Visit(id, throughPtr && r == 0);
        CoveredOne(btf, settled, a, target);
        Settle(a);
      }
    }

    method OrderTypedef(id: nat, throughPtr: bool, ghost k: nat) returns (r: int)
      requires Valid() && AllShallow(btf) && Shallow(btf, k, id) && orderState[id] == NotOrdered
      requires btf[id].info.kind == Typedef
      modifies orderState, `emitQueue, `settled, `done
      ensures r >= 0 ==> Valid() && Later(old(orderState[..]), orderState[..]) && old(settled) <= settled
      ensures r >= 0 ==> Has(btf, settled, Visit(id, throughPtr))
      ensures r > 0 ==> Visit(id, false) in settled
      ensures r < 0 ==> r == -ELOOP && Stuck(btf, old(orderState[..]), Visit(id, throughPtr))
      decreases |Unopened(btf, orderState[..])|, k, 1
    {
      ghost var st := orderState[..];
      assert Follows(btf[id])[0] == btf[id].size;
      var isStrong := OrderType(btf[id].size, throughPtr, k - 1);
      if isStrong < 0 {
        StuckBefore(btf, st, Visit(id, throughPtr), Visit(btf[id].size, throughPtr));
        return isStrong;
      }
      ghost var a := Visit(id, throughPtr && isStrong == 0);
      CoveredOne(btf, settled, a, btf[id].size);
      if throughPtr && isStrong == 0 {
        Settle(a);
        return 0;
      }
      Emit(id);
      return 1;
    }

    /** Function prototypes: the result and every parameter. */
    method OrderProto(id: nat, throughPtr: bool, ghost k: nat) returns (r: int)
      requires Valid() && AllShallow(btf) && Shallow(btf, k, id) && orderState[id] == NotOrdered
      requires btf[id].info.kind == FuncProto
      modifies orderState, `emitQueue, `settled, `done
      ensures r >= 0 ==> Visit(id, false) in settled
      ensures r >= 0 ==> Valid() && Later(old(orderState[..]), orderState[..]) && old(settled) <= settled
      ensures r < 0 ==> r == -ELOOP && Stuck(btf, old(orderState[..]), Visit(id, throughPtr))
      decreases |Unopened(btf, orderState[..])|, k, 1
    {
      ghost var st := orderState[..];
      assert WellFormed(btf[id]);
      assert Follows(btf[id])[0] == btf[id].size;
      var err := OrderType(btf[id].size, throughPtr, k - 1);
      if err < 0 {
        StuckBefore(btf, st, Visit(id, throughPtr), Visit(btf[id].size, throughPtr));
        return err;
      }
      LaterSmaller(btf, st, orderState[..]);
      r := OrderParams(id, throughPtr, err > 0, k, st);
      if r >= 0 {
        Settle(Visit(id, false));
      }
    }

    method OrderParams(id: nat, throughPtr: bool, strong: bool, ghost k: nat, ghost st: seq<State>) returns (r: int)
      requires Valid() && AllShallow(btf) && Shallow(btf, k, id) && btf[id].info.kind == FuncProto
      requires Later(st, orderState[..])
      modifies orderState, `emitQueue, `settled, `done
      ensures r >= 0 ==> Valid() && Later(st, orderState[..]) && old(settled) <= settled
      ensures r < 0 ==> r == -ELOOP && Stuck(btf, st, Visit(id, throughPtr))
      decreases |Unopened(btf, orderState[..])|, k, 0
    {
      assert WellFormed(btf[id]);
      var ps, isStrong := btf[id].tail.params, strong;
      ghost var start := orderState[..];
      for i := 0 to |ps|
        invariant Valid() && Later(start, orderState[..]) && old(settled) <= settled
      {
        assert Follows(btf[id])[i + 1] == ps[i].typ;
        LaterSmaller(btf, start, orderState[..]);
        ghost var now := orderState[..];
        var err := OrderType(ps[i].typ, throughPtr, k - 1);
        if err < 0 {
          StuckLater(btf, st, now, Visit(ps[i].typ, throughPtr));
          StuckBefore(btf, st, Visit(id, throughPtr), Visit(ps[i].typ, throughPtr));
          return err;
        }
        isStrong := isStrong || err > 0;
      }
      r := if isStrong then 1 else 0;
    }

    /** Structs and unions: every member, unless a forward declaration will do. */
    method OrderComposite(id: nat, throughPtr: bool, ghost k: nat) returns (r: int)
      requires Valid() && AllShallow(btf) && Shallow(btf, k, id) && orderState[id] == NotOrdered
      requires IsComposite(btf[id].info.kind)
      modifies orderState, `emitQueue, `settled, `done
      ensures r >= 0 ==> Valid() && Later(old(orderState[..]), orderState[..]) && old(settled) <= settled
      ensures r >= 0 ==> Has(btf, settled, Visit(id, throughPtr))
      ensures r > 0 ==> Visit(id, false) in settled
      ensures r < 0 ==> r == -ELOOP && Stuck(btf, old(orderState[..]), Visit(id, throughPtr))
      decreases |Unopened(btf, orderState[..])|, k, 2
    {
      if throughPtr && btf[id].name != 0 {
        return 0;
      }
      ghost var st := orderState[..];
      OpenKeeps(btf, st, settled, done, id);
      OpenedSmaller(btf, st, id);
      orderState[id] := Ordering;
      assert WellFormed(btf[id]);
      var err := OrderMembers(id, throughPtr, st, orderState[..]);
      if err < 0 {
        return err;
      }
      if btf[id].name != 0 {
        Emit(id);
      } else {
        SetOrdered(id);
      }
      return 1;
    }

    method OrderMembers(id: nat, throughPtr: bool, ghost st: seq<State>, ghost begun: seq<State>) returns (r: int)
      requires Valid() && AllShallow(btf) && Opened(btf, Visit(id, throughPtr))
      requires |st| == |btf| && id < |btf| && st[id] == NotOrdered
      requires begun == st[id := Ordering] && Later(begun, orderState[..])
      requires IsComposite(btf[id].info.kind) && btf[id].tail.Members?
      modifies orderState, `emitQueue, `settled, `done
      ensures r >= 0 ==> Valid() && Later(begun, orderState[..]) && old(settled) <= settled
      ensures r >= 0 ==> Covered(btf, settled, Visit(id, false))
      ensures r < 0 ==> r == -ELOOP && Stuck(btf, st, Visit(id, throughPtr))
      decreases |Unopened(btf, begun)| + 1, 0, 1
    {
      hide *;
      var t := btf[id];
      for i := 0 to |t.tail.members|
        invariant Valid() && Later(begun, orderState[..]) && old(settled) <= settled
        invariant forall j :: 0 <= j < i ==> Visit(t.tail.members[j].typ, false) in settled
      {
        var err := OrderMember(id, i, throughPtr, st, begun);
        if err < 0 {
          return err;
        }
      }
      CoveredMembers(btf, settled, id);
      return 0;
    }

    method OrderMember(id: nat, i: nat, throughPtr: bool, ghost st: seq<State>, ghost begun: seq<State>)
      returns (r: int)
      requires Valid() && AllShallow(btf) && Opened(btf, Visit(id, throughPtr)) && |st| == |btf| && st[id] == NotOrdered
      requires begun == st[id := Ordering] && Later(begun, orderState[..])
      requires btf[id].tail.Members? && i < |btf[id].tail.members|
      modifies orderState, `emitQueue, `settled, `done
      ensures r >= 0 ==> Valid() && Later(begun, orderState[..]) && old(settled) <= settled
      ensures r >= 0 ==> Visit(btf[id].tail.members[i].typ, false) in settled
      ensures r < 0 ==> r == -ELOOP && Stuck(btf, st, Visit(id, throughPtr))
      decreases |Unopened(btf, begun)| + 1, 0, 0
    {
      var typ := btf[id].tail.members[i].typ;
      FollowsInRange(btf, id, i);
      assert Follows(btf[id])[i] == typ;
      assert Ends(btf, typ);
      LaterSmaller(btf, begun, orderState[..]);
      hide OrderInv, LoopsFrom, Emits, Unopened;
      ghost var k :| Shallow(btf, k, typ);
      ghost var now := orderState[..];
      r := OrderType(typ, false, k);
      if r < 0 {
        StuckLater(btf, begun, now, Visit(typ, false));
        StuckMember(btf, st, begun, Visit(id, throughPtr), Visit(typ, false));
      }
    }

    /** Queues all definitions that are needed for a type and not yet made.  It fails on a
        type that needs its own definition, or needs such a type, and only if a struct or
        union reached from the type cannot be looked into without looking into itself; the
        two meet on every loop that is reached without passing a prototype. */
    method DumpType(id: nat) returns (r: int)
      requires Valid() && Idle() && AllShallow(btf)
      modifies this, orderState
      ensures r == -EINVAL <==> id >= |btf|
      ensures r == 0 ==>
                Valid() && Idle() && Visit(id, false) in settled &&
                DefinitionOrder(btf, referenced[..], emitted + emitQueue) &&
                emitted == old(emitted + emitQueue) &&
                (Emitted(btf, referenced[..], id) ==> id in emitted + emitQueue)
      ensures r == 0 ==>
                PartsFirst(btf, emitted + emitQueue) && OnlyDefinitions(btf, referenced[..], emitted + emitQueue) &&
                (IsDeclared(btf[id]) || (btf[id].info.kind in {Enum, Fwd} && !referenced[id]) ==>
                  id in emitted + emitQueue)
      ensures id < |btf| && r != 0 ==> r == -ELOOP && LoopsFrom(btf, Visit(id, false))
      ensures id < |btf| && NeedsSelfNeeding(btf, id) ==> r == -ELOOP
      ensures id < |btf| && DirectLoop(btf, id) ==> r == -ELOOP
    {
      hide OrderInv, LoopsFrom, Emits, DefinitionOrder, NeedsSelfNeeding, DirectLoop, PartsFirst, OnlyDefinitions;
      if id > |btf| - 1 {
        return -EINVAL;
      }
      emitted, emitQueue := emitted + emitQueue, [];
      assert Ends(btf, id);
      ghost var k :| Shallow(btf, k, id);
      ghost var st := orderState[..];
      DirectLoopNeeds(btf, id);
      r := OrderType(id, false, k);
      if r < 0 {
        NotBlocked(btf, st, Visit(id, false));
        return r;
      }
      Finished(id);
      return 0;
    }

    /** What has been queued when a traversal succeeds. */
    lemma Finished(id: nat)
      requires Valid() && id < |btf| && Has(btf, settled, Visit(id, false))
      ensures DefinitionOrder(btf, referenced[..], emitted + emitQueue) && !NeedsSelfNeeding(btf, id)
      ensures PartsFirst(btf, emitted + emitQueue) && OnlyDefinitions(btf, referenced[..], emitted + emitQueue)
      ensures Emitted(btf, referenced[..], id) ==> id in emitted + emitQueue
    {
      hide SettledAt, InOrder, NeedsSelfNeeding, DefinitionOrder, PartsFirst, OnlyDefinitions;
      DoneGivesOrder(btf, orderState[..], settled, done, referenced[..]);
      OrderByKind(btf, referenced[..], done);
      NothingSelfNeeding(btf, orderState[..], settled, done, id);
      EmitsHas(btf, referenced[..], done, id);
      StrongOrdered(btf, orderState[..], settled, done, Visit(id, false));
    }
  }
}
