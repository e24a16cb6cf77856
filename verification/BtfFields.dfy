/** What string deduplication and remapping do to a descriptor, field by field: which fields
    hold names, which hold type ids, and that nothing else changes. */
module BtfFields {
  import opened BtfTypes
  import opened BtfStrings

  /** The kinds whose third word is a type id. */
  predicate HoldsType(k: Kind) {
    k in {Ptr, Fwd, Typedef, Volatile, Const, Restrict, Func, FuncProto, Var}
  }

  /** Tails of one form with as many entries. */
  predicate SameForm(t: BtfType, u: BtfType) {
    match t.tail
    case NoTail => u.tail.NoTail?
    case IntTail(_) => u.tail.IntTail?
    case ArrayTail(_, _, _) => u.tail.ArrayTail?
    case Members(ms) => u.tail.Members? && |u.tail.members| == |ms|
    case Values(vs) => u.tail.Values? && |u.tail.values| == |vs|
    case Params(ps) => u.tail.Params? && |u.tail.params| == |ps|
    case VarTail(_) => u.tail.VarTail?
    case Secs(ss) => u.tail.Secs? && |u.tail.secs| == |ss|
  }

  /** Neither a name nor a type id: all of that is kept. */
  ghost predicate KeptRest(t: BtfType, u: BtfType) {
    && u.info == t.info && SameForm(t, u)
    && (!HoldsType(t.info.kind) ==> u.size == t.size)
    && match t.tail
       case IntTail(e) => u.tail.encoding == e
       case ArrayTail(_, _, n) => u.tail.nelems == n
       case Members(ms) => forall i :: 0 <= i < |ms| ==> u.tail.members[i].offset == ms[i].offset
       case Values(vs) => forall i :: 0 <= i < |vs| ==> u.tail.values[i].val == vs[i].val
       case VarTail(l) => u.tail.linkage == l
       case Secs(ss) =>
         forall i :: 0 <= i < |ss| ==> u.tail.secs[i].offset == ss[i].offset && u.tail.secs[i].size == ss[i].size
       case _ => true
  }

  // ---------------------------------------------------------------------------
  // Names

  /** Two offsets, each in its section, read the same. */
  ghost predicate Reads(strs: string, a: nat, strs': string, b: nat) {
    && Terminated(strs) && a < |strs| && Terminated(strs') && b < |strs'|
    && CStr(strs', b) == CStr(strs, a)
  }

  /** The type, its members, its enumerators and its parameters are called the same. */
  ghost predicate SameNames(strs: string, t: BtfType, strs': string, u: BtfType) {
    && Reads(strs, t.name, strs', u.name) && SameForm(t, u)
    && match t.tail
       case Members(ms) => forall i :: 0 <= i < |ms| ==> Reads(strs, ms[i].name, strs', u.tail.members[i].name)
       case Values(vs) => forall i :: 0 <= i < |vs| ==> Reads(strs, vs[i].name, strs', u.tail.values[i].name)
       case Params(ps) => forall i :: 0 <= i < |ps| ==> Reads(strs, ps[i].name, strs', u.tail.params[i].name)
       case _ => true
  }

  predicate KeptNames(t: BtfType, u: BtfType) {
    && u.name == t.name && SameForm(t, u)
    && match t.tail
       case Members(ms) => forall i :: 0 <= i < |ms| ==> u.tail.members[i].name == ms[i].name
       case Values(vs) => forall i :: 0 <= i < |vs| ==> u.tail.values[i].name == vs[i].name
       case Params(ps) => forall i :: 0 <= i < |ps| ==> u.tail.params[i].name == ps[i].name
       case _ => true
  }

  // ---------------------------------------------------------------------------
  // Type ids

  predicate Moves(ids: seq<nat>, a: nat, b: nat) { a < |ids| && b == ids[a] }

  /** Every type id is moved as `ids` says. */
  ghost predicate MovedIds(ids: seq<nat>, t: BtfType, u: BtfType) {
    && SameForm(t, u)
    && (HoldsType(t.info.kind) ==> Moves(ids, t.size, u.size))
    && match t.tail
       case ArrayTail(e, i, _) => Moves(ids, e, u.tail.elem) && Moves(ids, i, u.tail.index)
       case Members(ms) => forall i :: 0 <= i < |ms| ==> Moves(ids, ms[i].typ, u.tail.members[i].typ)
       case Params(ps) => forall i :: 0 <= i < |ps| ==> Moves(ids, ps[i].typ, u.tail.params[i].typ)
       case Secs(ss) => forall i :: 0 <= i < |ss| ==> Moves(ids, ss[i].typ, u.tail.secs[i].typ)
       case _ => true
  }

  predicate KeptIds(t: BtfType, u: BtfType) {
    && u.size == t.size && SameForm(t, u)
    && match t.tail
       case ArrayTail(e, i, _) => u.tail.elem == e && u.tail.index == i
       case Members(ms) => forall i :: 0 <= i < |ms| ==> u.tail.members[i].typ == ms[i].typ
       case Params(ps) => forall i :: 0 <= i < |ps| ==> u.tail.params[i].typ == ps[i].typ
       case Secs(ss) => forall i :: 0 <= i < |ss| ==> u.tail.secs[i].typ == ss[i].typ
       case _ => true
  }

  /** One of its fields is this type id. */
  predicate Mentions(t: BtfType, y: nat) {
    || (HoldsType(t.info.kind) && t.size == y)
    || match t.tail
       case ArrayTail(e, i, _) => e == y || i == y
       case Members(ms) => exists m :: m in ms && m.typ == y
       case Params(ps) => exists p :: p in ps && p.typ == y
       case Secs(ss) => exists s :: s in ss && s.typ == y
       case _ => false
  }

  lemma MentionsRefs(t: BtfType, y: nat)
    requires WellFormed(t)
    ensures Mentions(t, y) <==> y in Refs(t)
  {
    var rs := Refs(t);
    match t.tail
    case Members(ms) =>
      if y in rs {
        var i :| 0 <= i < |rs| && rs[i] == y;
        assert ms[i] in ms;
      }
      if m :| m in ms && m.typ == y {
        var i :| 0 <= i < |ms| && ms[i] == m;
        assert rs[i] == y;
      }
    case Params(ps) =>
      assert rs[0] == t.size;
      if y in rs {
        var i :| 0 <= i < |rs| && rs[i] == y;
        assert i > 0 ==> ps[i - 1] in ps;
      }
      if p :| p in ps && p.typ == y {
        var i :| 0 <= i < |ps| && ps[i] == p;
        assert rs[i + 1] == y;
      }
    case Secs(ss) =>
      if y in rs {
        var i :| 0 <= i < |rs| && rs[i] == y;
        assert ss[i] in ss;
      }
      if s :| s in ss && s.typ == y {
        var i :| 0 <= i < |ss| && ss[i] == s;
        assert rs[i] == y;
      }
    case _ =>
  }

  // ---------------------------------------------------------------------------
  // Forwards

  /** A FWD with its flag set is one of a union, otherwise of a struct. */
  predicate Announces(fwd: BtfType, t: BtfType) {
    fwd.info.kind == Fwd && t.info.kind == if fwd.info.kflag then Union else Struct
  }

  /** Kinds under which two descriptors of one name can be one type; `off` says that forwards may
      not be resolved. */
  predicate KindsMeet(off: bool, t: BtfType, u: BtfType) {
    if t.info.kind == u.info.kind then t.info.kind == Fwd ==> t.info.kflag == u.info.kflag
    else !off && (Announces(t, u) || Announces(u, t))
  }

  /** A type becomes one of its own kind, or of the kind it announces; a definition stays one, and
      an enum keeps its size. */
  predicate Stays(t: BtfType, u: BtfType) {
    if t.info.kind == Fwd then (u.info.kind == Fwd && u.info.kflag == t.info.kflag) || Announces(t, u)
    else
      && u.info.kind == t.info.kind
      && (t.info.kind == Enum ==> u.size == t.size && u.info == t.info.(vlen := u.info.vlen))
      && (t.info.kind == Enum && t.info.vlen > 0 ==> u.info.vlen > 0)
  }

  /** Two descriptors that need not be one: not the same one of a kind compared as a whole and, if
      forwards may be resolved, not an enum and one of its forwards. */
  predicate Distinct(off: bool, t: BtfType, u: BtfType) {
    && (t.info.kind in {Int, Enum, Fwd, Ptr, Array, Typedef, Volatile, Const, Restrict, Func, FuncProto} ==> t != u)
    && (!off && t.info.kind == Enum && t.info.vlen == 0 ==>
          !(u.name == t.name && u.size == t.size && u.info.(vlen := 0) == t.info))
  }

  lemma FamilyStays(t: BtfType, u: BtfType)
    requires FamilyOf(t) == FamilyOf(u) && (!IsFwdLike(t) ==> !IsFwdLike(u))
    ensures u.name == t.name && Stays(t, u)
  {
  }

  lemma FamiliesMeet(t: BtfType, u: BtfType)
    requires FamilyOf(t) == FamilyOf(u)
    ensures t.name == u.name && KindsMeet(false, t, u)
  {
  }

  // ---------------------------------------------------------------------------
  // The two rewrites

  /** String deduplication moves the names, all of them, and nothing else. */
  ghost predicate Renamed(strs: string, t: BtfType, strs': string, u: BtfType) {
    SameNames(strs, t, strs', u) && KeptIds(t, u) && KeptRest(t, u)
  }

  /** Remapping moves the type ids, all of them, and nothing else. */
  ghost predicate Renumbers(ids: seq<nat>, t: BtfType, u: BtfType) {
    MovedIds(ids, t, u) && KeptNames(t, u) && KeptRest(t, u)
  }

  /** Both. */
  ghost predicate Carried(strs: string, t: BtfType, strs': string, u: BtfType, ids: seq<nat>) {
    SameNames(strs, t, strs', u) && MovedIds(ids, t, u) && KeptRest(t, u)
  }

  lemma CarriedBoth(strs: string, t: BtfType, strs': string, u: BtfType, ids: seq<nat>, v: BtfType)
    requires Renamed(strs, t, strs', u) && Renumbers(ids, u, v)
    ensures Carried(strs, t, strs', v, ids)
  {
    hide Reads;
  }

  /** The ids of a descriptor are its references, and `SetRefs` moves them all. */
  lemma SetRefsFields(ids: seq<nat>, t: BtfType, ns: seq<nat>)
    requires WellFormed(t) && |ns| == |Refs(t)|
    requires forall i :: 0 <= i < |ns| ==> Moves(ids, Refs(t)[i], ns[i])
    ensures Renumbers(ids, t, SetRefs(t, ns))
  {
    var rs, u := Refs(t), SetRefs(t, ns);
    match t.tail
    case Members(ms) =>
      forall i | 0 <= i < |ms| ensures Moves(ids, ms[i].typ, u.tail.members[i].typ) {
        assert Moves(ids, rs[i], ns[i]);
      }
    case Params(ps) =>
      forall i | 0 <= i < |ps| ensures Moves(ids, ps[i].typ, u.tail.params[i].typ) {
        assert Moves(ids, rs[i + 1], ns[i + 1]);
      }
    case Secs(ss) =>
      forall i | 0 <= i < |ss| ensures Moves(ids, ss[i].typ, u.tail.secs[i].typ) {
        assert Moves(ids, rs[i], ns[i]);
      }
    case _ =>
  }
}
