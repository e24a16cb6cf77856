/** The descriptor comparisons and signature hashes of BTF deduplication.  Every
    comparison is proved to decide either equality of whole descriptors or
    equality of shapes, and every hash to agree on descriptors its comparison
    accepts. */
module BtfCompare {
  import opened BtfTypes

  predicate EqualCommon(t1: BtfType, t2: BtfType) {
    t1.name == t2.name && t1.info == t2.info && t1.size == t2.size
  }

  /** Without a tail the header is everything. */
  lemma EqualCommonDecides(t1: BtfType, t2: BtfType)
    requires WellFormed(t1) && WellFormed(t2) && t1.tail.NoTail?
    ensures EqualCommon(t1, t2) <==> t1 == t2
  {
    if EqualCommon(t1, t2) {
      assert t2.tail.NoTail?;
    }
  }

  method EqualInt(t1: BtfType, t2: BtfType) returns (eq: bool)
    requires WellFormed(t1) && WellFormed(t2) && t1.info.kind == Int
    ensures eq <==> t1 == t2
  {
    if !EqualCommon(t1, t2) {
      return false;
    }
    eq := t1.tail.encoding == t2.tail.encoding;
  }

  method EqualEnum(t1: BtfType, t2: BtfType) returns (eq: bool)
    requires WellFormed(t1) && WellFormed(t2) && t1.info.kind == Enum
    ensures eq <==> t1 == t2
  {
    if !EqualCommon(t1, t2) {
      return false;
    }
    var m1, m2 := t1.tail.values, t2.tail.values;
    for i := 0 to t1.info.vlen
      invariant m1[..i] == m2[..i]
    {
      if m1[i].name != m2[i].name || m1[i].val != m2[i].val {
        return false;
      }
    }
    assert m1 == m1[..t1.info.vlen] && m2 == m2[..t1.info.vlen];
    return true;
  }

  /** An enum forward and an enum agree when all but the number of values does. */
  predicate CompatibleEnums(t1: BtfType, t2: BtfType) {
    if !(t1.info.kind == Enum && t1.info.vlen == 0) && !(t2.info.kind == Enum && t2.info.vlen == 0)
    then t1 == t2
    else t1.name == t2.name && t1.info.(vlen := 0) == t2.info.(vlen := 0) && t1.size == t2.size
  }

  method CompatEnum(t1: BtfType, t2: BtfType) returns (eq: bool)
    requires WellFormed(t1) && WellFormed(t2) && t1.info.kind == Enum
    ensures eq <==> CompatibleEnums(t1, t2)
  {
    if !IsFwdLike(t1) && !(t2.info.kind == Enum && t2.info.vlen == 0) {
      eq := EqualEnum(t1, t2);
    } else {
      eq := t1.name == t2.name && t1.info.(vlen := 0) == t2.info.(vlen := 0) && t1.size == t2.size;
    }
  }

  /** Structs and unions: same names, offsets and header, whatever the member types. */
  method ShallowEqualStruct(t1: BtfType, t2: BtfType) returns (eq: bool)
    requires WellFormed(t1) && WellFormed(t2) && IsComposite(t1.info.kind)
    ensures eq <==> Shape(t1) == Shape(t2)
  {
    if !EqualCommon(t1, t2) {
      if Shape(t1) == Shape(t2) {
        SameShapeSameHeader(t1, t2);
      }
      return false;
    }
    var m1, m2 := t1.tail.members, t2.tail.members;
    for i := 0 to t1.info.vlen
      invariant forall j :: 0 <= j < i ==> m1[j].name == m2[j].name && m1[j].offset == m2[j].offset
    {
      if m1[i].name != m2[i].name || m1[i].offset != m2[i].offset {
        assert Shape(t1).tail.members[i] != Shape(t2).tail.members[i];
        return false;
      }
    }
    assert Shape(t1).tail.members == Shape(t2).tail.members;
    return true;
  }

  method EqualArray(t1: BtfType, t2: BtfType) returns (eq: bool)
    requires WellFormed(t1) && WellFormed(t2) && t1.info.kind == Array
    ensures eq <==> t1 == t2
  {
    if !EqualCommon(t1, t2) {
      return false;
    }
    eq := t1.tail.elem == t2.tail.elem && t1.tail.index == t2.tail.index && t1.tail.nelems == t2.tail.nelems;
  }

  method CompatArray(t1: BtfType, t2: BtfType) returns (eq: bool)
    requires WellFormed(t1) && WellFormed(t2) && t1.info.kind == Array
    ensures eq <==> Shape(t1) == Shape(t2)
  {
    if !EqualCommon(t1, t2) {
      if Shape(t1) == Shape(t2) {
        SameShapeSameHeader(t1, t2);
      }
      return false;
    }
    eq := t1.tail.nelems == t2.tail.nelems;
  }

  method EqualFnproto(t1: BtfType, t2: BtfType) returns (eq: bool)
    requires WellFormed(t1) && WellFormed(t2) && t1.info.kind == FuncProto
    ensures eq <==> t1 == t2
  {
    if !EqualCommon(t1, t2) {
      return false;
    }
    var p1, p2 := t1.tail.params, t2.tail.params;
    for i := 0 to t1.info.vlen
      invariant p1[..i] == p2[..i]
    {
      if p1[i].name != p2[i].name || p1[i].typ != p2[i].typ {
        return false;
      }
    }
    assert p1 == p1[..t1.info.vlen] && p2 == p2[..t1.info.vlen];
    return true;
  }

  method CompatFnproto(t1: BtfType, t2: BtfType) returns (eq: bool)
    requires WellFormed(t1) && WellFormed(t2) && t1.info.kind == FuncProto
    ensures eq <==> Shape(t1) == Shape(t2)
  {
    if t1.name != t2.name || t1.info != t2.info {
      if Shape(t1) == Shape(t2) {
        SameShapeSameHeader(t1, t2);
      }
      return false;
    }
    var p1, p2 := t1.tail.params, t2.tail.params;
    for i := 0 to t1.info.vlen
      invariant forall j :: 0 <= j < i ==> p1[j].name == p2[j].name
    {
      if p1[i].name != p2[i].name {
        assert Shape(t1).tail.params[i] != Shape(t2).tail.params[i];
        return false;
      }
    }
    assert Shape(t1).tail.params == Shape(t2).tail.params;
    return true;
  }

  // ---------------------------------------------------------------------------
  // Signature hashes

  /** Wrap-around of a 64-bit signed long. */
  function Long(x: int): int { (x + 0x8000_0000_0000_0000) % 0x1_0000_0000_0000_0000 - 0x8000_0000_0000_0000 }

  function HashCombine(h: int, value: int): int { Long(h * 31 + value) }

  function InfoWord(i: Info): int {
    (if i.kflag then 0x8000_0000 else 0) + i.high * 0x1000_0000 + KindCode(i.kind) * 0x100_0000
    + i.low * 0x1_0000 + i.vlen
  }

  function KindCode(k: Kind): nat {
    match k
    case Unkn => 0 case Int => 1 case Ptr => 2 case Array => 3 case Struct => 4 case Union => 5
    case Enum => 6 case Fwd => 7 case Typedef => 8 case Volatile => 9 case Const => 10
    case Restrict => 11 case Func => 12 case FuncProto => 13 case Var => 14 case Datasec => 15
  }

  function HashCommon(t: BtfType): int {
    HashCombine(HashCombine(HashCombine(0, t.name), InfoWord(t.info)), t.size)
  }

  function HashEnum(t: BtfType): int {
    HashCombine(HashCombine(HashCombine(0, t.name), InfoWord(t.info.(vlen := 0))), t.size)
  }

  function FoldMembers(h: int, ms: seq<Member>): int {
    if ms == [] then h
    else
      var last := ms[|ms| - 1];
      HashCombine(HashCombine(FoldMembers(h, ms[..|ms| - 1]), last.name), last.offset)
  }

  function FoldParams(h: int, ps: seq<Param>): int {
    if ps == [] then h
    else
      var last := ps[|ps| - 1];
      HashCombine(HashCombine(FoldParams(h, ps[..|ps| - 1]), last.name), last.typ)
  }

  function HashArray(t: BtfType): int
    requires t.tail.ArrayTail?
  {
    HashCombine(HashCombine(HashCombine(HashCommon(t), t.tail.elem), t.tail.index), t.tail.nelems)
  }

  /** VAR and DATASEC are never hashed; void never enters the table. */
  predicate IsHashed(k: Kind) { k != Unkn && k != Var && k != Datasec }

  /** The signature hash under which a descriptor of each kind is filed. */
  function SigHash(t: BtfType): int
    requires WellFormed(t) && IsHashed(t.info.kind)
  {
    match t.info.kind
    case Int => HashCombine(HashCommon(t), t.tail.encoding)
    case Enum => HashEnum(t)
    case Struct => FoldMembers(HashCommon(t), t.tail.members)
    case Union => FoldMembers(HashCommon(t), t.tail.members)
    case Array => HashArray(t)
    case FuncProto => FoldParams(HashCommon(t), t.tail.params)
    case _ => HashCommon(t)
  }

  method HashStruct(t: BtfType) returns (h: int)
    requires WellFormed(t) && IsComposite(t.info.kind)
    ensures h == SigHash(t)
  {
    h := HashCommon(t);
    var ms := t.tail.members;
    for i := 0 to t.info.vlen
      invariant h == FoldMembers(HashCommon(t), ms[..i])
    {
      assert ms[..i + 1][..i] == ms[..i];
      h := HashCombine(h, ms[i].name);
      h := HashCombine(h, ms[i].offset);
    }
    assert ms[..t.info.vlen] == ms;
  }

  method HashFnproto(t: BtfType) returns (h: int)
    requires WellFormed(t) && t.info.kind == FuncProto
    ensures h == SigHash(t)
  {
    h := HashCommon(t);
    var ps := t.tail.params;
    for i := 0 to t.info.vlen
      invariant h == FoldParams(HashCommon(t), ps[..i])
    {
      assert ps[..i + 1][..i] == ps[..i];
      h := HashCombine(h, ps[i].name);
      h := HashCombine(h, ps[i].typ);
    }
    assert ps[..t.info.vlen] == ps;
  }

  /** Struct hashing ignores member types, so it is the same on equal member shapes. */
  lemma {:induction false} FoldMembersIgnoresTypes(h: int, ms: seq<Member>, ns: seq<Member>)
    requires |ms| == |ns|
    requires forall i :: 0 <= i < |ms| ==> ms[i].name == ns[i].name && ms[i].offset == ns[i].offset
    ensures FoldMembers(h, ms) == FoldMembers(h, ns)
  {
    if ms != [] {
      FoldMembersIgnoresTypes(h, ms[..|ms| - 1], ns[..|ns| - 1]);
    }
  }

  /** Descriptors that any comparison of the deduplicator accepts are filed under
      the same hash, so a lookup by hash never misses a match. */
  lemma MatchesShareHash(t1: BtfType, t2: BtfType)
    requires WellFormed(t1) && WellFormed(t2)
    requires IsHashed(t1.info.kind) && IsHashed(t2.info.kind)
    requires t1 == t2
          || (IsComposite(t1.info.kind) && Shape(t1) == Shape(t2))
          || (t1.info.kind == Enum && CompatibleEnums(t1, t2))
    ensures SigHash(t1) == SigHash(t2)
  {
    if t1 != t2 {
      if IsComposite(t1.info.kind) && Shape(t1) == Shape(t2) {
        SameShapeSameHeader(t1, t2);
        var m1, m2 := t1.tail.members, t2.tail.members;
        forall i | 0 <= i < |m1| ensures m1[i].name == m2[i].name && m1[i].offset == m2[i].offset {
          assert Shape(t1).tail.members[i] == Shape(t2).tail.members[i];
        }
        FoldMembersIgnoresTypes(HashCommon(t1), m1, m2);
      } else {
        assert t1.info.(vlen := 0).kind == t2.info.(vlen := 0).kind;
      }
    }
  }

  // ---------------------------------------------------------------------------
  // The comparison and the hash a kind is searched with

  /** Kinds searched by equality of the whole descriptor. */
  predicate IsExactKind(k: Kind) { IsRefKind(k) || k == Int || k == Fwd }

  method EqualExact(t1: BtfType, t2: BtfType) returns (eq: bool)
    requires WellFormed(t1) && WellFormed(t2) && IsExactKind(t1.info.kind)
    ensures eq <==> t1 == t2
  {
    match t1.info.kind {
      case Int => eq := EqualInt(t1, t2);
      case Array => eq := EqualArray(t1, t2);
      case FuncProto => eq := EqualFnproto(t1, t2);
      case _ =>
        EqualCommonDecides(t1, t2);
        eq := EqualCommon(t1, t2);
    }
  }

  method HashExact(t: BtfType) returns (h: int)
    requires WellFormed(t) && IsExactKind(t.info.kind)
    ensures h == SigHash(t)
  {
    match t.info.kind {
      case Int => h := HashCombine(HashCommon(t), t.tail.encoding);
      case Array => h := HashArray(t);
      case FuncProto => h := HashFnproto(t);
      case _ => h := HashCommon(t);
    }
  }
}
