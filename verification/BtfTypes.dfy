/** BTF type descriptors, the type ids and names they hold, and the comparisons
    and signature hashes the deduplicator runs on them.

    A descriptor is the `btf_type` header (name offset, info word, size-or-type
    word) followed by a kind-specific tail.  `Refs` lists the type ids a
    descriptor holds and `Shape` is what is left when they are blanked out, so a
    descriptor is exactly a shape plus its references. */
module BtfTypes {

  datatype Kind =
    | Unkn | Int | Ptr | Array | Struct | Union | Enum | Fwd | Typedef
    | Volatile | Const | Restrict | Func | FuncProto | Var | Datasec

  /** The info word: bits 0-15 vlen, 16-23 unused, 24-27 kind, 28-30 unused, 31 kind_flag. */
  datatype Info = Info(kind: Kind, vlen: nat, kflag: bool, low: nat, high: nat)

  datatype Member = Member(name: nat, typ: nat, offset: nat)
  datatype EnumVal = EnumVal(name: nat, val: int)
  datatype Param = Param(name: nat, typ: nat)
  datatype SecInfo = SecInfo(typ: nat, offset: nat, size: nat)

  datatype Tail =
    | NoTail
    | IntTail(encoding: nat)
    | ArrayTail(elem: nat, index: nat, nelems: nat)
    | Members(members: seq<Member>)
    | Values(values: seq<EnumVal>)
    | Params(params: seq<Param>)
    | VarTail(linkage: nat)
    | Secs(secs: seq<SecInfo>)

  /** `size` is the C union of `size` and `type`: a type id for the kinds in `HoldsType`. */
  datatype BtfType = BtfType(name: nat, info: Info, size: nat, tail: Tail)

  const VOID := BtfType(0, Info(Unkn, 0, false, 0, 0), 0, NoTail)

  predicate IsComposite(k: Kind) { k == Struct || k == Union }

  /** CONST, VOLATILE, RESTRICT, PTR, TYPEDEF, FUNC: one referenced type and no tail. */
  predicate IsSingleRef(k: Kind) {
    k == Const || k == Volatile || k == Restrict || k == Ptr || k == Typedef || k == Func
  }

  predicate IsRefKind(k: Kind) { IsSingleRef(k) || k == Array || k == FuncProto }

  predicate IsPrimKind(k: Kind) { k == Int || k == Enum || k == Fwd }

  /** FWD or an enum without values: what FWD resolution may point at a definition. */
  predicate IsFwdLike(t: BtfType) {
    t.info.kind == Fwd || (t.info.kind == Enum && t.info.vlen == 0)
  }

  /** What forwards share with what they announce: the kind, the name and, for enums, the header up
      to the number of values. */
  datatype Family = Family(kind: Kind, name: nat, size: nat, info: Info)

  /** FWDs of structs and of unions count as the kind they announce. */
  function FamilyOf(t: BtfType): Family {
    Family(if t.info.kind == Fwd then (if t.info.kflag then Union else Struct) else t.info.kind, t.name,
           if t.info.kind == Enum then t.size else 0, if t.info.kind == Enum then t.info.(vlen := 0) else VOID.info)
  }

  /** The tail that follows a header of each kind, with as many entries as vlen says. */
  predicate WellFormed(t: BtfType) {
    match t.info.kind
    case Int => t.tail.IntTail?
    case Array => t.tail.ArrayTail?
    case Struct => t.tail.Members? && |t.tail.members| == t.info.vlen
    case Union => t.tail.Members? && |t.tail.members| == t.info.vlen
    case Enum => t.tail.Values? && |t.tail.values| == t.info.vlen
    case FuncProto => t.tail.Params? && |t.tail.params| == t.info.vlen
    case Var => t.tail.VarTail?
    case Datasec => t.tail.Secs? && |t.tail.secs| == t.info.vlen
    case _ => t.tail.NoTail?
  }

  // ---------------------------------------------------------------------------
  // References and shapes

  function Refs(t: BtfType): seq<nat> {
    match t.tail
    case NoTail => if t.info.kind == Unkn then [] else [t.size]
    case IntTail(_) => []
    case ArrayTail(e, i, _) => [e, i]
    case Members(ms) => seq(|ms|, i requires 0 <= i < |ms| => ms[i].typ)
    case Values(_) => []
    case Params(ps) => [t.size] + seq(|ps|, i requires 0 <= i < |ps| => ps[i].typ)
    case VarTail(_) => [t.size]
    case Secs(ss) => seq(|ss|, i requires 0 <= i < |ss| => ss[i].typ)
  }

  function SetRefs(t: BtfType, rs: seq<nat>): BtfType
    requires |rs| == |Refs(t)|
  {
    match t.tail
    case NoTail => if t.info.kind == Unkn then t else t.(size := rs[0])
    case IntTail(_) => t
    case ArrayTail(_, _, n) => t.(tail := ArrayTail(rs[0], rs[1], n))
    case Members(ms) =>
      t.(tail := Members(seq(|ms|, i requires 0 <= i < |ms| => ms[i].(typ := rs[i]))))
    case Values(_) => t
    case Params(ps) =>
      t.(size := rs[0], tail := Params(seq(|ps|, i requires 0 <= i < |ps| => ps[i].(typ := rs[i + 1]))))
    case VarTail(_) => t.(size := rs[0])
    case Secs(ss) =>
      t.(tail := Secs(seq(|ss|, i requires 0 <= i < |ss| => ss[i].(typ := rs[i]))))
  }

  function Zeros(n: nat): seq<nat> { seq(n, i => 0) }

  function Shape(t: BtfType): BtfType { SetRefs(t, Zeros(|Refs(t)|)) }

  /** SetRefs stores exactly the given ids and touches nothing else. */
  lemma SetRefsSpec(t: BtfType, rs: seq<nat>)
    requires |rs| == |Refs(t)|
    ensures Refs(SetRefs(t, rs)) == rs
    ensures Shape(SetRefs(t, rs)) == Shape(t)
    ensures SetRefs(t, rs).info == t.info && SetRefs(t, rs).name == t.name
    ensures WellFormed(t) ==> WellFormed(SetRefs(t, rs))
  {
    var u := SetRefs(t, rs);
    assert Refs(u) == rs;
    match t.tail
    case Members(ms) => assert Shape(u).tail.members == Shape(t).tail.members;
    case Params(ps) => assert Shape(u).tail.params == Shape(t).tail.params;
    case Secs(ss) => assert Shape(u).tail.secs == Shape(t).tail.secs;
    case _ =>
  }

  /** The shape keeps the header fields and the number of references. */
  lemma ShapeKeeps(t: BtfType)
    ensures Shape(t).info == t.info && Shape(t).name == t.name && |Refs(Shape(t))| == |Refs(t)|
    ensures WellFormed(t) ==> FamilyOf(Shape(t)) == FamilyOf(t)
  {
    SetRefsSpec(t, Zeros(|Refs(t)|));
  }

  lemma SameShapeSameHeader(t: BtfType, u: BtfType)
    requires Shape(t) == Shape(u)
    ensures t.info == u.info && t.name == u.name && |Refs(t)| == |Refs(u)|
    ensures WellFormed(t) && WellFormed(u) ==> FamilyOf(t) == FamilyOf(u)
  {
    ShapeKeeps(t);
    ShapeKeeps(u);
  }

  /** Shape and references determine the descriptor. */
  lemma ShapeAndRefsDetermine(t: BtfType, u: BtfType)
    requires Shape(t) == Shape(u) && Refs(t) == Refs(u)
    ensures t == u
  {
    SameShapeSameHeader(t, u);
    var st, su := Shape(t), Shape(u);
    match t.tail {
      case Members(ms) =>
        forall i | 0 <= i < |ms| ensures ms[i] == u.tail.members[i] {
          assert st.tail.members[i] == su.tail.members[i];
          assert Refs(t)[i] == Refs(u)[i];
        }
      case Params(ps) =>
        forall i | 0 <= i < |ps| ensures ps[i] == u.tail.params[i] {
          assert st.tail.params[i] == su.tail.params[i];
          assert Refs(t)[i + 1] == Refs(u)[i + 1];
        }
        assert Refs(t)[0] == Refs(u)[0];
      case Secs(ss) =>
        forall i | 0 <= i < |ss| ensures ss[i] == u.tail.secs[i] {
          assert st.tail.secs[i] == su.tail.secs[i];
          assert Refs(t)[i] == Refs(u)[i];
        }
      case ArrayTail(e, i, n) =>
        assert Refs(t)[0] == Refs(u)[0] && Refs(t)[1] == Refs(u)[1];
      case IntTail(_) =>
      case Values(_) =>
      case NoTail => assert t.info.kind != Unkn ==> Refs(t)[0] == Refs(u)[0];
      case VarTail(_) => assert Refs(t)[0] == Refs(u)[0];
    }
  }
}
