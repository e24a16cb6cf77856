/** The order in which C definitions have to come.  What a type embeds by value has to
    be defined before it; what it only points to does not, unless it is anonymous and
    so defined in place. */
module DumpModel {
  import opened BtfTypes
  import opened BtfGraph

  datatype State = NotOrdered | Ordering | Ordered

  /** Arrays and modifiers: no definition of their own. */
  predicate PassThrough(k: Kind) { k == Array || k == Volatile || k == Const || k == Restrict }

  /** Kinds that never get an order state. */
  predicate Stateless(k: Kind) { PassThrough(k) || k == FuncProto }

  /** The ids the traversal follows from a type. */
  function Follows(t: BtfType): seq<nat> {
    match t.info.kind
    case Ptr => [t.size]
    case Typedef => [t.size]
    case Volatile => [t.size]
    case Const => [t.size]
    case Restrict => [t.size]
    case Array => if t.tail.ArrayTail? then [t.tail.elem] else []
    case FuncProto => Refs(t)
    case Struct => Refs(t)
    case Union => Refs(t)
    case _ => []
  }

  lemma FollowsInRange(g: Graph, x: nat, i: nat)
    requires Closed(g) && x < |g| && i < |Follows(g[x])|
    ensures Follows(g[x])[i] < |g|
  {
    assert WellFormed(g[x]) && RefsBelow(g[x], |g|);
    if g[x].info.kind == Array || !(g[x].info.kind in {FuncProto, Struct, Union}) {
      assert Follows(g[x])[i] == Refs(g[x])[0];
    }
  }

  /** Every chain of non-composite types from `x` has fewer than `k` links. */
  ghost predicate Shallow(g: Graph, k: nat, x: nat) {
    x < |g| &&
    (IsComposite(g[x].info.kind) ||
     (k > 0 && forall i {:trigger Follows(g[x])[i]} :: 0 <= i < |Follows(g[x])| ==>
                 Shallow(g, k - 1, Follows(g[x])[i])))
  }

  ghost predicate Ends(g: Graph, x: nat) {
    exists k: nat :: Shallow(g, k, x)
  }

  /** Every cycle of references passes through a struct or a union. */
  ghost predicate AllShallow(g: Graph) {
    forall x :: 0 <= x < |g| ==> Ends(g, x)
  }

  // ---------------------------------------------------------------------------
  // What a definition needs

  /** A type and whether it is come to through a pointer. */
  datatype Visit = Visit(id: nat, throughPtr: bool)

  /** A struct or union whose members have to be looked into. */
  predicate Opened(g: Graph, a: Visit) {
    a.id < |g| && IsComposite(g[a.id].info.kind) && !(a.throughPtr && g[a.id].name != 0)
  }

  /** A struct or union that has a name, behind a pointer: a forward declaration will do. */
  predicate Weak(g: Graph, a: Visit) {
    a.id < |g| && IsComposite(g[a.id].info.kind) && a.throughPtr && g[a.id].name != 0
  }

  /** By value, or in place although behind a pointer. */
  predicate Strong(g: Graph, a: Visit) {
    !a.throughPtr || Opened(g, a)
  }

  ghost predicate Leads(g: Graph, a: Visit, b: Visit) {
    && a.id < |g| && b.id in Follows(g[a.id])
    && (if IsComposite(g[a.id].info.kind) then Opened(g, a) && !b.throughPtr
        else b.throughPtr == (a.throughPtr || g[a.id].info.kind == Ptr))
  }

  /** What the definition of `a` needs next; what a prototype names is not counted. */
  ghost predicate Needs(g: Graph, a: Visit, b: Visit) {
    Leads(g, a, b) && g[a.id].info.kind != FuncProto
  }

  ghost predicate NeedPath(g: Graph, p: seq<Visit>) {
    p != [] && forall i :: 0 <= i < |p| - 1 ==> Needs(g, p[i], p[i + 1])
  }

  /** The definition of `x` needs, at some depth, that of `y`: through members, arrays,
      modifiers and typedefs, and through pointers to what is defined in place. */
  ghost predicate Needed(g: Graph, x: nat, y: nat) {
    exists p: seq<Visit> :: NeedPath(g, p) && |p| >= 2 && p[0] == Visit(x, false) && EndsAt(g, p, y)
  }

  predicate EndsAt(g: Graph, p: seq<Visit>, y: nat) {
    p != [] && Strong(g, p[|p| - 1]) && p[|p| - 1].id == y
  }

  // ---------------------------------------------------------------------------
  // The invariant of the traversal

  /** Nothing is left to do for `a`. */
  predicate Has(g: Graph, settled: set<Visit>, a: Visit) {
    a in settled || Visit(a.id, false) in settled || Weak(g, a)
  }

  ghost predicate Covered(g: Graph, settled: set<Visit>, a: Visit) {
    forall b :: Needs(g, a, b) ==> Has(g, settled, b)
  }

  /** `settled` is closed under what is needed, as far as types are ordered; `done` lists
      types as they were ordered. */
  ghost predicate OrderInv(g: Graph, st: seq<State>, settled: set<Visit>, done: seq<nat>) {
    && |st| == |g| > 0 && st[0] == Ordered
    && (forall x :: 0 <= x < |g| && st[x] == Ordering ==> IsComposite(g[x].info.kind))
    && (forall x :: 0 <= x < |g| && Stateless(g[x].info.kind) ==> st[x] == NotOrdered)
    && (forall x :: 0 <= x < |g| && st[x] == Ordered ==> Visit(x, false) in settled)
    && (forall x :: 0 < x < |g| && st[x] == Ordered ==> x in done)
    && (forall a :: a in settled ==> SettledAt(g, st, settled, a))
    && (forall i :: 0 <= i < |done| ==> InOrder(g, done, i))
  }

  ghost predicate SettledAt(g: Graph, st: seq<State>, settled: set<Visit>, a: Visit)
    requires |st| == |g|
  {
    && a.id < |g|
    && (Strong(g, a) ==> Stateless(g[a.id].info.kind) || st[a.id] == Ordered)
    && Covered(g, settled, a)
  }

  /** What `done[i]` needs was ordered before it. */
  ghost predicate InOrder(g: Graph, done: seq<nat>, i: nat)
    requires i < |done|
  {
    && done[i] < |g|
    && forall y: nat :: Needed(g, done[i], y) && 0 < y < |g| && !Stateless(g[y].info.kind) ==> y in done[..i]
  }

  lemma InitialInv(g: Graph, st: seq<State>)
    requires Closed(g) && |st| == |g| && st[0] == Ordered && forall x :: 0 < x < |g| ==> st[x] == NotOrdered
    ensures OrderInv(g, st, {Visit(0, false)}, [])
  {
    assert SettledAt(g, st, {Visit(0, false)}, Visit(0, false));
  }

  /** What is needed by something settled is settled. */
  lemma HasStep(g: Graph, st: seq<State>, settled: set<Visit>, done: seq<nat>, a: Visit, b: Visit)
    requires OrderInv(g, st, settled, done) && Has(g, settled, a) && Needs(g, a, b)
    ensures Has(g, settled, b)
  {
    if a in settled {
      assert SettledAt(g, st, settled, a);
    } else if Visit(a.id, false) in settled {
      var c := Visit(b.id, g[a.id].info.kind == Ptr);
      assert SettledAt(g, st, settled, Visit(a.id, false));
      assert Needs(g, Visit(a.id, false), c);
    }
  }

  lemma {:induction false} HasPath(g: Graph, st: seq<State>, settled: set<Visit>, done: seq<nat>, p: seq<Visit>)
    requires OrderInv(g, st, settled, done) && NeedPath(g, p) && Has(g, settled, p[0])
    ensures Has(g, settled, p[|p| - 1])
    decreases |p|
  {
    if |p| > 1 {
      assert Needs(g, p[0], p[1]);
      HasStep(g, st, settled, done, p[0], p[1]);
      PathTail(g, p);
      HasPath(g, st, settled, done, p[1..]);
    }
  }

  lemma PathTail(g: Graph, p: seq<Visit>)
    requires NeedPath(g, p) && |p| > 1
    ensures NeedPath(g, p[1..])
  {
    forall i | 0 <= i < |p| - 2 ensures Needs(g, p[1..][i], p[1..][i + 1]) {
      assert Needs(g, p[i + 1], p[i + 2]);
    }
  }

  /** What is settled and cannot be put off is ordered. */
  lemma StrongOrdered(g: Graph, st: seq<State>, settled: set<Visit>, done: seq<nat>, a: Visit)
    requires OrderInv(g, st, settled, done) && Has(g, settled, a) && Strong(g, a)
    ensures a.id < |g| && (Stateless(g[a.id].info.kind) || st[a.id] == Ordered)
  {
    if a in settled {
      assert SettledAt(g, st, settled, a);
    } else if Visit(a.id, false) in settled {
      assert SettledAt(g, st, settled, Visit(a.id, false));
    }
  }

  lemma StaysSettled(g: Graph, st: seq<State>, st': seq<State>, settled: set<Visit>, settled': set<Visit>, a: Visit)
    requires |st| == |st'| == |g| && settled <= settled' && SettledAt(g, st, settled, a)
    requires forall x :: 0 <= x < |g| && st[x] == Ordered ==> st'[x] == Ordered
    ensures SettledAt(g, st', settled', a)
  {
    forall b | Needs(g, a, b) ensures Has(g, settled', b) {
      assert Has(g, settled, b);
    }
  }

  lemma AllStaySettled(g: Graph, st: seq<State>, st': seq<State>, settled: set<Visit>, done: seq<nat>, c: Visit)
    requires OrderInv(g, st, settled, done) && |st'| == |g|
    requires forall x :: 0 <= x < |g| && st[x] == Ordered ==> st'[x] == Ordered
    requires c.id < |g| && (Strong(g, c) ==> Stateless(g[c.id].info.kind) || st'[c.id] == Ordered)
    requires Covered(g, settled, c)
    ensures forall a :: a in settled + {c} ==> SettledAt(g, st', settled + {c}, a)
  {
    forall a | a in settled + {c} ensures SettledAt(g, st', settled + {c}, a) {
      if a == c {
        forall b | Needs(g, c, b) ensures Has(g, settled + {c}, b) {
          assert Has(g, settled, b);
        }
      } else {
        StaysSettled(g, st, st', settled, settled + {c}, a);
      }
    }
  }

  /** A type is ordered once what it needs directly is settled. */
  lemma MarkKeeps(g: Graph, st: seq<State>, settled: set<Visit>, done: seq<nat>, x: nat)
    requires OrderInv(g, st, settled, done) && x < |g| && !Stateless(g[x].info.kind)
    requires Covered(g, settled, Visit(x, false))
    ensures OrderInv(g, st[x := Ordered], settled + {Visit(x, false)}, done + [x])
  {
    hide SettledAt, Covered, InOrder, Needs;
    AllStaySettled(g, st, st[x := Ordered], settled, done, Visit(x, false));
    var done' := done + [x];
    forall i | 0 <= i < |done'| ensures InOrder(g, done', i) {
      if i < |done| {
        OrderKept(g, done, x, i);
      } else {
        NewInOrder(g, st, settled, done, x);
      }
    }
  }

  lemma OrderKept(g: Graph, done: seq<nat>, x: nat, i: nat)
    requires i < |done| && InOrder(g, done, i)
    ensures InOrder(g, done + [x], i)
  {
    assert (done + [x])[..i] == done[..i];
  }

  lemma NewInOrder(g: Graph, st: seq<State>, settled: set<Visit>, done: seq<nat>, x: nat)
    requires OrderInv(g, st, settled, done) && x < |g| && Covered(g, settled, Visit(x, false))
    ensures InOrder(g, done + [x], |done|)
  {
    assert (done + [x])[..|done|] == done;
    forall y: nat | Needed(g, x, y) && 0 < y < |g| && !Stateless(g[y].info.kind) ensures y in done {
      var p: seq<Visit> :| NeedPath(g, p) && |p| >= 2 && p[0] == Visit(x, false) && EndsAt(g, p, y);
      assert Needs(g, p[0], p[1]);
      PathTail(g, p);
      HasPath(g, st, settled, done, p[1..]);
      StrongOrdered(g, st, settled, done, p[|p| - 1]);
    }
  }

  lemma OpenKeeps(g: Graph, st: seq<State>, settled: set<Visit>, done: seq<nat>, x: nat)
    requires OrderInv(g, st, settled, done) && x < |g| && IsComposite(g[x].info.kind) && st[x] == NotOrdered
    ensures OrderInv(g, st[x := Ordering], settled, done)
  {
    forall a | a in settled ensures SettledAt(g, st[x := Ordering], settled, a) {
      assert SettledAt(g, st, settled, a);
    }
  }

  /** A visit that orders nothing is settled with what it needs. */
  lemma PassKeeps(g: Graph, st: seq<State>, settled: set<Visit>, done: seq<nat>, a: Visit)
    requires OrderInv(g, st, settled, done) && a.id < |g| && Covered(g, settled, a)
    requires Strong(g, a) ==> Stateless(g[a.id].info.kind)
    ensures OrderInv(g, st, settled + {a}, done)
  {
    AllStaySettled(g, st, st, settled, done, a);
  }

  /** A type that follows a single other one. */
  lemma CoveredOne(g: Graph, settled: set<Visit>, a: Visit, target: nat)
    requires a.id < |g| && !IsComposite(g[a.id].info.kind) && Follows(g[a.id]) == [target]
    requires Has(g, settled, Visit(target, a.throughPtr || g[a.id].info.kind == Ptr))
    ensures Covered(g, settled, a)
  {
  }

  lemma CoveredMembers(g: Graph, settled: set<Visit>, x: nat)
    requires x < |g| && IsComposite(g[x].info.kind) && g[x].tail.Members?
    requires forall j :: 0 <= j < |g[x].tail.members| ==> Visit(g[x].tail.members[j].typ, false) in settled
    ensures Covered(g, settled, Visit(x, false))
  {
  }

  // ---------------------------------------------------------------------------
  // What the order means

  /** A definition of its own in the output. */
  predicate Emitted(g: Graph, referenced: seq<bool>, x: nat)
    requires |referenced| == |g|
  {
    x < |g| &&
    match g[x].info.kind
    case Struct => g[x].name != 0
    case Union => g[x].name != 0
    case Typedef => true
    case Enum => g[x].name != 0 || !referenced[x]
    case Fwd => g[x].name != 0 || !referenced[x]
    case _ => false
  }

  function Emits(g: Graph, referenced: seq<bool>, done: seq<nat>): seq<nat>
    requires |referenced| == |g|
  {
    if done == [] then []
    else
      var x := done[|done| - 1];
      Emits(g, referenced, done[..|done| - 1]) + if Emitted(g, referenced, x) then [x] else []
  }

  lemma {:induction false} EmitsHas(g: Graph, referenced: seq<bool>, done: seq<nat>, x: nat)
    requires |referenced| == |g|
    ensures x in Emits(g, referenced, done) <==> x in done && Emitted(g, referenced, x)
  {
    if done != [] {
      EmitsHas(g, referenced, done[..|done| - 1], x);
      assert done == done[..|done| - 1] + [done[|done| - 1]];
    }
  }

  /** Which type the `i`-th definition is, and what is before it. */
  lemma {:induction false} EmitsAt(g: Graph, referenced: seq<bool>, done: seq<nat>, i: nat) returns (m: nat)
    requires |referenced| == |g| && i < |Emits(g, referenced, done)|
    ensures m < |done| && done[m] == Emits(g, referenced, done)[i]
    ensures Emits(g, referenced, done[..m]) == Emits(g, referenced, done)[..i]
  {
    var n := |done| - 1;
    var e := Emits(g, referenced, done[..n]);
    if i < |e| {
      m := EmitsAt(g, referenced, done[..n], i);
      assert done[..n][..m] == done[..m];
    } else {
      m := n;
      assert i == |e|;
    }
  }

  /** The definitions come in an order C accepts: whatever has a definition of its own and
      is needed by the `i`-th one is defined before it. */
  ghost predicate DefinitionOrder(g: Graph, referenced: seq<bool>, q: seq<nat>)
    requires |referenced| == |g|
  {
    forall i, y: nat :: 0 <= i < |q| && Needed(g, q[i], y) && Emitted(g, referenced, y) ==> y in q[..i]
  }

  lemma DoneGivesOrder(g: Graph, st: seq<State>, settled: set<Visit>, done: seq<nat>, referenced: seq<bool>)
    requires OrderInv(g, st, settled, done) && |referenced| == |g| && Closed(g)
    ensures DefinitionOrder(g, referenced, Emits(g, referenced, done))
  {
    hide Needed, SettledAt;
    var q := Emits(g, referenced, done);
    forall i, y: nat | 0 <= i < |q| && Needed(g, q[i], y) && Emitted(g, referenced, y) ensures y in q[..i] {
      var m := EmitsAt(g, referenced, done, i);
      assert InOrder(g, done, m);
      EmitsHas(g, referenced, done[..m], y);
    }
  }

  /** `y` needs its own definition. */
  ghost predicate SelfNeeding(g: Graph, y: nat) {
    0 < y < |g| && !Stateless(g[y].info.kind) && Needed(g, y, y)
  }

  /** A type that was settled needs nothing that needs itself. */
  lemma NoSelfNeeding(g: Graph, st: seq<State>, settled: set<Visit>, done: seq<nat>, p: seq<Visit>)
    requires OrderInv(g, st, settled, done) && NeedPath(g, p) && Has(g, settled, p[0]) && Strong(g, p[|p| - 1])
    ensures !SelfNeeding(g, p[|p| - 1].id)
  {
    hide Needed, SettledAt, Needs, Has, Strong;
    HasPath(g, st, settled, done, p);
    StrongOrdered(g, st, settled, done, p[|p| - 1]);
    var y := p[|p| - 1].id;
    if y > 0 && !Stateless(g[y].info.kind) {
      var i := FirstOf(done, y);
      assert InOrder(g, done, i);
    }
  }

  /** `id` is, or needs, a type that needs itself. */
  ghost predicate NeedsSelfNeeding(g: Graph, id: nat) {
    exists p: seq<Visit> ::
      NeedPath(g, p) && p[0] == Visit(id, false) && Strong(g, p[|p| - 1]) && SelfNeeding(g, p[|p| - 1].id)
  }

  lemma NothingSelfNeeding(g: Graph, st: seq<State>, settled: set<Visit>, done: seq<nat>, id: nat)
    requires OrderInv(g, st, settled, done) && Visit(id, false) in settled
    ensures !NeedsSelfNeeding(g, id)
  {
    hide SelfNeeding, OrderInv;
    forall p: seq<Visit> | NeedPath(g, p) && p[0] == Visit(id, false) && Strong(g, p[|p| - 1])
      ensures !SelfNeeding(g, p[|p| - 1].id)
    {
      NoSelfNeeding(g, st, settled, done, p);
    }
  }

  lemma FirstOf(s: seq<nat>, y: nat) returns (i: nat)
    requires y in s
    ensures i < |s| && s[i] == y && y !in s[..i]
  {
    i := 0;
    while s[i] != y
      invariant i < |s| && y !in s[..i] && y in s[i..]
      decreases |s| - i
    {
      i := i + 1;
    }
  }

  // ---------------------------------------------------------------------------
  // Why an order cannot be found

  ghost predicate Walk(g: Graph, w: seq<Visit>) {
    w != [] && forall i :: 0 <= i < |w| - 1 ==> Leads(g, w[i], w[i + 1])
  }

  /** `a` needs, for its own definition, one that is still under way. */
  ghost predicate Blocked(g: Graph, st: seq<State>, a: Visit) {
    exists w: seq<Visit> :: Walk(g, w) && w[0] == a && UnderWay(g, st, w[|w| - 1])
  }

  ghost predicate UnderWay(g: Graph, st: seq<State>, a: Visit) {
    Opened(g, a) && a.id < |st| && st[a.id] == Ordering
  }

  /** The walk ends with looking into a struct or union it looked into before. */
  ghost predicate Loops(g: Graph, w: seq<Visit>) {
    && Walk(g, w) && Opened(g, w[|w| - 1])
    && exists i :: 0 <= i < |w| - 1 && Opened(g, w[i]) && w[i].id == w[|w| - 1].id
  }

  ghost predicate LoopsFrom(g: Graph, a: Visit) {
    exists w: seq<Visit> :: Loops(g, w) && w[0] == a
  }

  /** Why a visit fails: it needs a definition under way, or runs into a loop. */
  ghost predicate Stuck(g: Graph, st: seq<State>, a: Visit) {
    Blocked(g, st, a) || LoopsFrom(g, a)
  }

  lemma BlockedHere(g: Graph, st: seq<State>, a: Visit)
    requires UnderWay(g, st, a)
    ensures Blocked(g, st, a)
  {
    assert Walk(g, [a]);
  }

  lemma NotBlocked(g: Graph, st: seq<State>, a: Visit)
    requires forall x :: 0 <= x < |st| ==> st[x] != Ordering
    ensures !Blocked(g, st, a)
  {
  }

  lemma WalkFront(g: Graph, a: Visit, w: seq<Visit>)
    requires Walk(g, w) && Leads(g, a, w[0])
    ensures Walk(g, [a] + w)
  {
    var v := [a] + w;
    forall i | 0 <= i < |v| - 1 ensures Leads(g, v[i], v[i + 1]) {
      if i > 0 {
        assert Leads(g, w[i - 1], w[i]);
      }
    }
  }

  lemma BlockedBefore(g: Graph, st: seq<State>, a: Visit, b: Visit)
    requires Leads(g, a, b) && Blocked(g, st, b)
    ensures Blocked(g, st, a)
  {
    var w: seq<Visit> :| Walk(g, w) && w[0] == b && UnderWay(g, st, w[|w| - 1]);
    WalkFront(g, a, w);
    assert ([a] + w)[|w|] == w[|w| - 1];
  }

  lemma LoopsBefore(g: Graph, a: Visit, b: Visit)
    requires Leads(g, a, b) && LoopsFrom(g, b)
    ensures LoopsFrom(g, a)
  {
    var w: seq<Visit> :| Loops(g, w) && w[0] == b;
    WalkFront(g, a, w);
    var v := [a] + w;
    var i :| 0 <= i < |w| - 1 && Opened(g, w[i]) && w[i].id == w[|w| - 1].id;
    assert v[i + 1] == w[i] && v[|v| - 1] == w[|w| - 1];
    assert Loops(g, v);
  }

  lemma StuckBefore(g: Graph, st: seq<State>, a: Visit, b: Visit)
    requires Leads(g, a, b) && Stuck(g, st, b)
    ensures Stuck(g, st, a)
  {
    if Blocked(g, st, b) {
      BlockedBefore(g, st, a, b);
    } else {
      LoopsBefore(g, a, b);
    }
  }

  lemma StuckLater(g: Graph, st: seq<State>, st': seq<State>, a: Visit)
    requires Later(st, st') && Stuck(g, st', a)
    ensures Stuck(g, st, a)
  {
    if Blocked(g, st', a) {
      var w: seq<Visit> :| Walk(g, w) && w[0] == a && UnderWay(g, st', w[|w| - 1]);
      assert UnderWay(g, st, w[|w| - 1]);
    }
  }

  /** If a member is stuck while `a` itself is under way, `a` was stuck before: what blocks
      the member is another type under way, or `a`, which then is looked into twice. */
  lemma StuckMember(g: Graph, st: seq<State>, st': seq<State>, a: Visit, b: Visit)
    requires Opened(g, a) && Leads(g, a, b) && Stuck(g, st', b)
    requires |st| == |st'| == |g| && forall x :: 0 <= x < |g| && x != a.id && st'[x] == Ordering ==> st[x] == Ordering
    ensures Stuck(g, st, a)
  {
    if LoopsFrom(g, b) {
      LoopsBefore(g, a, b);
    } else {
      var w: seq<Visit> :| Walk(g, w) && w[0] == b && UnderWay(g, st', w[|w| - 1]);
      WalkFront(g, a, w);
      var v := [a] + w;
      assert v[|v| - 1] == w[|w| - 1];
      if w[|w| - 1].id == a.id {
        assert v[0] == a;
        assert Loops(g, v);
      } else {
        assert UnderWay(g, st, v[|v| - 1]);
      }
    }
  }

  /** A walk that goes on from no prototype. */
  predicate Direct(g: Graph, w: seq<Visit>) {
    forall i :: 0 <= i < |w| - 1 ==> w[i].id < |g| && g[w[i].id].info.kind != FuncProto
  }

  /** A loop that is reached without passing a prototype is a definition that needs itself. */
  lemma LoopIsNeed(g: Graph, w: seq<Visit>)
    requires Closed(g) && Loops(g, w) && !w[0].throughPtr && Direct(g, w)
    ensures NeedsSelfNeeding(g, w[0].id)
  {
    hide Walk, NeedPath, Direct, Strong, SelfNeeding, Closed;
    DirectNeeds(g, w);
    var i :| 0 <= i < |w| - 1 && Opened(g, w[i]) && w[i].id == w[|w| - 1].id;
    LoopNeedsItself(g, w, i);
    PathFront(g, w, i);
    var p := w[..i + 1];
    assert p[|p| - 1] == w[i] && p[0] == w[0] == Visit(w[0].id, false);
  }

  lemma LoopNeedsItself(g: Graph, w: seq<Visit>, i: nat)
    requires Closed(g) && NeedPath(g, w) && i < |w| - 1
    requires Opened(g, w[i]) && Opened(g, w[|w| - 1]) && w[i].id == w[|w| - 1].id
    ensures SelfNeeding(g, w[i].id)
  {
    hide NeedPath;
    var y, q := w[i].id, [Visit(w[i].id, false)] + w[i + 1..];
    TurnedOpen(g, w, i);
    assert q[|q| - 1] == w[|w| - 1];
    assert EndsAt(g, q, y);
    assert Needed(g, y, y);
    assert y != 0;
  }

  lemma PathFront(g: Graph, w: seq<Visit>, i: nat)
    requires NeedPath(g, w) && i < |w| && Opened(g, w[i])
    ensures NeedPath(g, w[..i + 1]) && Strong(g, w[i])
  {
  }

  ghost predicate DirectLoop(g: Graph, id: nat) {
    exists w: seq<Visit> :: Loops(g, w) && w[0] == Visit(id, false) && Direct(g, w)
  }

  lemma DirectLoopNeeds(g: Graph, id: nat)
    requires Closed(g)
    ensures DirectLoop(g, id) ==> NeedsSelfNeeding(g, id)
  {
    if DirectLoop(g, id) {
      var w: seq<Visit> :| Loops(g, w) && w[0] == Visit(id, false) && Direct(g, w);
      LoopIsNeed(g, w);
    }
  }

  lemma DirectNeeds(g: Graph, w: seq<Visit>)
    requires Walk(g, w) && Direct(g, w)
    ensures NeedPath(g, w)
  {
    forall j | 0 <= j < |w| - 1 ensures Needs(g, w[j], w[j + 1]) {
      assert Leads(g, w[j], w[j + 1]);
    }
  }

  /** What is opened in place needs what it needs by value. */
  lemma TurnedOpen(g: Graph, w: seq<Visit>, i: nat)
    requires NeedPath(g, w) && i < |w| - 1 && Opened(g, w[i])
    ensures NeedPath(g, [Visit(w[i].id, false)] + w[i + 1..])
  {
    var q := [Visit(w[i].id, false)] + w[i + 1..];
    forall j | 0 <= j < |q| - 1 ensures Needs(g, q[j], q[j + 1]) {
      assert Needs(g, w[i + j], w[i + j + 1]);
    }
  }

  // ---------------------------------------------------------------------------
  // Termination

  /** Structs and unions not yet looked into. */
  ghost function Unopened(g: Graph, st: seq<State>): set<nat>
    requires |st| == |g|
  {
    set x: nat | x < |g| && IsComposite(g[x].info.kind) && st[x] == NotOrdered
  }

  ghost predicate Later(st: seq<State>, st': seq<State>) {
    |st| == |st'| &&
    forall x :: 0 <= x < |st| ==>
      (st[x] == Ordered ==> st'[x] == Ordered) && (st[x] == Ordering <==> st'[x] == Ordering)
  }

  lemma SubsetSize<T>(a: set<T>, b: set<T>)
    requires a <= b
    ensures |a| <= |b|
  {
    if a != {} {
      var x :| x in a;
      SubsetSize(a - {x}, b - {x});
    }
  }

  lemma LaterSmaller(g: Graph, st: seq<State>, st': seq<State>)
    requires |st| == |g| && Later(st, st')
    ensures |Unopened(g, st')| <= |Unopened(g, st)|
  {
    SubsetSize(Unopened(g, st'), Unopened(g, st));
  }

  lemma OpenedSmaller(g: Graph, st: seq<State>, x: nat)
    requires |st| == |g| && x < |g| && IsComposite(g[x].info.kind) && st[x] == NotOrdered
    ensures |Unopened(g, st[x := Ordering])| < |Unopened(g, st)|
  {
    assert Unopened(g, st[x := Ordering]) == Unopened(g, st) - {x};
  }

  // ---------------------------------------------------------------------------
  // The order by kind

  /** `y` is what is held where `x` is: itself, or through arrays and qualifiers. */
  predicate Holds(g: Graph, n: nat, x: nat, y: nat)
    decreases n
  {
    x == y ||
    (n > 0 && x < |g| &&
     match g[x].info.kind
     case Volatile => Holds(g, n - 1, g[x].size, y)
     case Const => Holds(g, n - 1, g[x].size, y)
     case Restrict => Holds(g, n - 1, g[x].size, y)
     case Array => g[x].tail.ArrayTail? && Holds(g, n - 1, g[x].tail.elem, y)
     case _ => false)
  }

  /** What a definition is directly made of: its members, or what it is a name for. */
  predicate IsPart(g: Graph, d: nat, x: nat) {
    d < |g| &&
    match g[d].info.kind
    case Struct => g[d].tail.Members? && exists m :: m in g[d].tail.members && m.typ == x
    case Union => g[d].tail.Members? && exists m :: m in g[d].tail.members && m.typ == x
    case Typedef => x == g[d].size
    case _ => false
  }

  /** Typedefs, and structs, unions, enums and forwards that have a name. */
  predicate IsDeclared(t: BtfType) {
    t.info.kind == Typedef || (t.info.kind in {Struct, Union, Enum, Fwd} && t.name != 0)
  }

  /** Everything that has a name and is held by value in a definition is defined before it. */
  ghost predicate PartsFirst(g: Graph, q: seq<nat>) {
    forall i: nat, n: nat, x: nat, y: nat ::
      i < |q| && IsPart(g, q[i], x) && Holds(g, n, x, y) && y < |g| && IsDeclared(g[y]) ==> y in q[..i]
  }

  /** Nothing but definitions is queued; anonymous enums and forwards if nothing refers to them. */
  ghost predicate OnlyDefinitions(g: Graph, referenced: seq<bool>, q: seq<nat>)
    requires |referenced| == |g|
  {
    forall x :: x in q ==>
      x < |g| && (IsDeclared(g[x]) || (g[x].info.kind in {Enum, Fwd} && !referenced[x]))
  }

  /** Going on from `x` by value. */
  lemma {:induction false} HoldsPath(g: Graph, n: nat, p: seq<Visit>, y: nat) returns (q: seq<Visit>)
    requires NeedPath(g, p) && !p[|p| - 1].throughPtr && Holds(g, n, p[|p| - 1].id, y)
    ensures NeedPath(g, q) && |q| >= |p| && q[0] == p[0] && q[|q| - 1] == Visit(y, false)
    decreases n
  {
    var x := p[|p| - 1].id;
    if x == y {
      q := p;
    } else {
      var z := Follows(g[x])[0];
      assert Needs(g, p[|p| - 1], Visit(z, false));
      q := HoldsPath(g, n - 1, p + [Visit(z, false)], y);
    }
  }

  lemma PartNeeded(g: Graph, d: nat, n: nat, x: nat, y: nat)
    requires Closed(g) && IsPart(g, d, x) && Holds(g, n, x, y)
    ensures Needed(g, d, y)
  {
    hide Holds;
    var t := g[d];
    if t.info.kind != Typedef {
      var m :| m in t.tail.members && m.typ == x;
      var j :| 0 <= j < |t.tail.members| && t.tail.members[j] == m;
      assert Follows(t)[j] == x;
    }
    assert Needs(g, Visit(d, false), Visit(x, false));
    var p := [Visit(d, false), Visit(x, false)];
    var q := HoldsPath(g, n, p, y);
    assert EndsAt(g, q, y);
  }

  lemma OrderByKind(g: Graph, referenced: seq<bool>, done: seq<nat>)
    requires Closed(g) && |referenced| == |g| && DefinitionOrder(g, referenced, Emits(g, referenced, done))
    ensures PartsFirst(g, Emits(g, referenced, done)) && OnlyDefinitions(g, referenced, Emits(g, referenced, done))
  {
    hide Needed, Holds, IsPart, Emits;
    var q := Emits(g, referenced, done);
    forall i: nat, n: nat, x: nat, y: nat |
      i < |q| && IsPart(g, q[i], x) && Holds(g, n, x, y) && y < |g| && IsDeclared(g[y])
      ensures y in q[..i]
    {
      PartNeeded(g, q[i], n, x, y);
      assert Emitted(g, referenced, y);
    }
    forall x | x in q
      ensures x < |g| && (IsDeclared(g[x]) || (g[x].info.kind in {Enum, Fwd} && !referenced[x]))
    {
      EmitsHas(g, referenced, done, x);
    }
  }
}
