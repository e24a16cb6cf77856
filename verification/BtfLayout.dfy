/** The layout of a type section: the words of each descriptor, and where the records of a section
    start.  Every field of a type record is a 32-bit word. */
module BtfLayout {
  import opened BtfTypes
  import opened BtfCompare
  import opened Jhash
  import opened Options

  /** Words of a record from its info word; none for an unknown kind. */
  function RecordWords(info: u32): (n: Option<nat>)
    ensures n.Some? ==> n.value >= 3
    ensures n == None <==> info / 0x100_0000 % 16 == 0
  {
    var kind, vlen := info / 0x100_0000 % 16, info % 0x1_0000;
    match kind
    case 0 => None
    case 1 => Some(4)
    case 3 => Some(6)
    case 4 => Some(3 + 3 * vlen)
    case 5 => Some(3 + 3 * vlen)
    case 6 => Some(3 + 2 * vlen)
    case 13 => Some(3 + 2 * vlen)
    case 14 => Some(4)
    case 15 => Some(3 + 3 * vlen)
    case _ => Some(3)
  }

  /** Where the records of a section in native byte order start, from position `p` on;
      none if it is malformed. */
  function Parse(ws: seq<u32>, p: nat): Option<seq<nat>>
    requires p <= |ws|
    decreases |ws| - p
  {
    if p + 3 <= |ws| then
      var n := RecordWords(ws[p + 1]);
      if n == None || p + n.value > |ws| then None
      else
        var rest := Parse(ws, p + n.value);
        if rest == None then None else Some([p] + rest.value)
    else if p == |ws| then Some([]) else None
  }

  /** A record put behind a well-formed section is its next record. */
  lemma {:induction false} ParseOneMore(a: seq<u32>, rec: seq<u32>, p: nat)
    requires p <= |a| && Parse(a, p).Some? && |rec| >= 3 && RecordWords(rec[1]) == Some(|rec|)
    ensures Parse(a + rec, p) == Some(Parse(a, p).value + [|a|])
    decreases |a| - p
  {
    var b := a + rec;
    if p + 3 <= |a| {
      var n := RecordWords(a[p + 1]).value;
      ParseOneMore(a, rec, p + n);
      var rest := Parse(a, p + n).value;
      assert b[p + 1] == a[p + 1];
      assert [p] + (rest + [|a|]) == ([p] + rest) + [|a|];
    } else {
      assert b[p + 1] == rec[1];
      assert Parse(b, |b|) == Some([]);
      assert [p] + [] == [] + [|a|];
    }
  }

  lemma NothingParses()
    ensures Parse([], 0) == Some([])
  {
  }

  // ---------------------------------------------------------------------------
  // The words of a descriptor

  function MemberWords(ms: seq<Member>): (ws: seq<u32>)
    ensures |ws| == 3 * |ms|
  {
    if ms == [] then []
    else
      var m := ms[|ms| - 1];
      MemberWords(ms[..|ms| - 1]) + [U32(m.name), U32(m.typ), U32(m.offset)]
  }

  /** Values are signed. */
  function ValueWords(vs: seq<EnumVal>): (ws: seq<u32>)
    ensures |ws| == 2 * |vs|
  {
    if vs == [] then []
    else
      var v := vs[|vs| - 1];
      ValueWords(vs[..|vs| - 1]) + [U32(v.name), U32(v.val)]
  }

  function ParamWords(ps: seq<Param>): (ws: seq<u32>)
    ensures |ws| == 2 * |ps|
  {
    if ps == [] then []
    else
      var p := ps[|ps| - 1];
      ParamWords(ps[..|ps| - 1]) + [U32(p.name), U32(p.typ)]
  }

  function SecWords(ss: seq<SecInfo>): (ws: seq<u32>)
    ensures |ws| == 3 * |ss|
  {
    if ss == [] then []
    else
      var s := ss[|ss| - 1];
      SecWords(ss[..|ss| - 1]) + [U32(s.typ), U32(s.offset), U32(s.size)]
  }

  function TailWords(t: Tail): seq<u32> {
    match t
    case NoTail => []
    case IntTail(e) => [U32(e)]
    case ArrayTail(e, i, n) => [U32(e), U32(i), U32(n)]
    case Members(ms) => MemberWords(ms)
    case Values(vs) => ValueWords(vs)
    case Params(ps) => ParamWords(ps)
    case VarTail(l) => [U32(l)]
    case Secs(ss) => SecWords(ss)
  }

  function Words(t: BtfType): seq<u32> {
    [U32(t.name), U32(InfoWord(t.info)), U32(t.size)] + TailWords(t.tail)
  }

  predicate IsU32(x: int) { 0 <= x < 0x1_0000_0000 }

  predicate TailFits(t: Tail) {
    match t
    case NoTail => true
    case IntTail(e) => IsU32(e)
    case ArrayTail(e, i, n) => IsU32(e) && IsU32(i) && IsU32(n)
    case Members(ms) => forall i :: 0 <= i < |ms| ==> IsU32(ms[i].name) && IsU32(ms[i].typ) && IsU32(ms[i].offset)
    case Values(vs) =>
      forall i :: 0 <= i < |vs| ==> IsU32(vs[i].name) && -0x8000_0000 <= vs[i].val < 0x8000_0000
    case Params(ps) => forall i :: 0 <= i < |ps| ==> IsU32(ps[i].name) && IsU32(ps[i].typ)
    case VarTail(l) => IsU32(l)
    case Secs(ss) => forall i :: 0 <= i < |ss| ==> IsU32(ss[i].typ) && IsU32(ss[i].offset) && IsU32(ss[i].size)
  }

  /** A well-formed descriptor all of whose fields fit their bits. */
  predicate Storable(t: BtfType) {
    && WellFormed(t) && t.info.kind != Unkn
    && IsU32(t.name) && IsU32(t.size) && TailFits(t.tail)
    && t.info.vlen < 0x1_0000 && t.info.low < 0x100 && t.info.high < 8
  }

  predicate AllStorable(ts: seq<BtfType>) { forall i :: 0 <= i < |ts| ==> Storable(ts[i]) }

  lemma InfoDigits(i: Info)
    requires i.vlen < 0x1_0000 && i.low < 0x100 && i.high < 8
    ensures 0 <= InfoWord(i) < 0x1_0000_0000 && U32(InfoWord(i)) == InfoWord(i)
    ensures InfoWord(i) / 0x100_0000 % 16 == KindCode(i.kind) && InfoWord(i) % 0x1_0000 == i.vlen
  {
    var top := (if i.kflag then 8 else 0) + i.high;
    var w := InfoWord(i);
    assert w / 0x100_0000 == top * 16 + KindCode(i.kind);
    assert w == (top * 0x1000 + KindCode(i.kind) * 0x100 + i.low) * 0x1_0000 + i.vlen;
  }

  /** The length of a record as told from its info word is the number of its words. */
  lemma RecordIsWords(t: BtfType)
    requires Storable(t)
    ensures |Words(t)| >= 3 && RecordWords(Words(t)[1]) == Some(|Words(t)|)
  {
    InfoDigits(t.info);
  }

  lemma InfoIsWord(t: BtfType)
    requires Storable(t)
    ensures Words(t)[1] == InfoWord(t.info)
  {
    InfoDigits(t.info);
  }

  // ---------------------------------------------------------------------------
  // Sections

  /** The words of descriptors one after the other. */
  function Section(ts: seq<BtfType>): seq<u32> {
    if ts == [] then [] else Section(ts[..|ts| - 1]) + Words(ts[|ts| - 1])
  }

  /** Where each descriptor starts. */
  function Starts(ts: seq<BtfType>): (offs: seq<nat>)
    ensures |offs| == |ts|
  {
    if ts == [] then [] else Starts(ts[..|ts| - 1]) + [|Section(ts[..|ts| - 1])|]
  }

  /** A section of descriptors is found to have one record for each. */
  lemma {:induction false} SectionParses(ts: seq<BtfType>)
    requires AllStorable(ts)
    ensures Parse(Section(ts), 0) == Some(Starts(ts))
  {
    NothingParses();
    hide Parse, RecordWords, Words, Storable;
    if ts != [] {
      SectionParses(ts[..|ts| - 1]);
      RecordIsWords(ts[|ts| - 1]);
      ParseOneMore(Section(ts[..|ts| - 1]), Words(ts[|ts| - 1]), 0);
    }
  }

  // ---------------------------------------------------------------------------
  // Nothing is lost

  lemma {:induction false} MemberAt(ms: seq<Member>, i: nat)
    requires i < |ms|
    ensures var ws := MemberWords(ms);
            ws[3 * i] == U32(ms[i].name) && ws[3 * i + 1] == U32(ms[i].typ) && ws[3 * i + 2] == U32(ms[i].offset)
  {
    if i < |ms| - 1 {
      MemberAt(ms[..|ms| - 1], i);
    }
  }

  lemma {:induction false} ValueAt(vs: seq<EnumVal>, i: nat)
    requires i < |vs|
    ensures ValueWords(vs)[2 * i] == U32(vs[i].name) && ValueWords(vs)[2 * i + 1] == U32(vs[i].val)
  {
    if i < |vs| - 1 {
      ValueAt(vs[..|vs| - 1], i);
    }
  }

  lemma {:induction false} ParamAt(ps: seq<Param>, i: nat)
    requires i < |ps|
    ensures ParamWords(ps)[2 * i] == U32(ps[i].name) && ParamWords(ps)[2 * i + 1] == U32(ps[i].typ)
  {
    if i < |ps| - 1 {
      ParamAt(ps[..|ps| - 1], i);
    }
  }

  lemma {:induction false} SecAt(ss: seq<SecInfo>, i: nat)
    requires i < |ss|
    ensures var ws := SecWords(ss);
            ws[3 * i] == U32(ss[i].typ) && ws[3 * i + 1] == U32(ss[i].offset) && ws[3 * i + 2] == U32(ss[i].size)
  {
    if i < |ss| - 1 {
      SecAt(ss[..|ss| - 1], i);
    }
  }

  lemma WordSame(x: int, y: int)
    requires U32(x) == U32(y)
    ensures IsU32(x) && IsU32(y) ==> x == y
    ensures -0x8000_0000 <= x < 0x8000_0000 && -0x8000_0000 <= y < 0x8000_0000 ==> x == y
  {
  }

  lemma TailWordsDetermine(t: Tail, u: Tail)
    requires TailFits(t) && TailFits(u) && TailWords(t) == TailWords(u)
    requires match t
             case NoTail => u.NoTail?
             case IntTail(_) => u.IntTail?
             case ArrayTail(_, _, _) => u.ArrayTail?
             case Members(_) => u.Members?
             case Values(_) => u.Values?
             case Params(_) => u.Params?
             case VarTail(_) => u.VarTail?
             case Secs(_) => u.Secs?
    ensures t == u
  {
    hide U32;
    var a, b := TailWords(t), TailWords(u);
    match t
    case Members(ms) =>
      forall i | 0 <= i < |ms| ensures ms[i] == u.members[i] {
        MemberAt(ms, i);
        MemberAt(u.members, i);
        WordSame(ms[i].name, u.members[i].name);
        WordSame(ms[i].typ, u.members[i].typ);
        WordSame(ms[i].offset, u.members[i].offset);
      }
    case Values(vs) =>
      forall i | 0 <= i < |vs| ensures vs[i] == u.values[i] {
        ValueAt(vs, i);
        ValueAt(u.values, i);
        WordSame(vs[i].name, u.values[i].name);
        WordSame(vs[i].val, u.values[i].val);
      }
    case Params(ps) =>
      forall i | 0 <= i < |ps| ensures ps[i] == u.params[i] {
        ParamAt(ps, i);
        ParamAt(u.params, i);
        WordSame(ps[i].name, u.params[i].name);
        WordSame(ps[i].typ, u.params[i].typ);
      }
    case Secs(ss) =>
      forall i | 0 <= i < |ss| ensures ss[i] == u.secs[i] {
        SecAt(ss, i);
        SecAt(u.secs, i);
        WordSame(ss[i].typ, u.secs[i].typ);
        WordSame(ss[i].offset, u.secs[i].offset);
        WordSame(ss[i].size, u.secs[i].size);
      }
    case IntTail(e) => WordSame(e, u.encoding);
    case ArrayTail(e, i, n) =>
      WordSame(e, u.elem);
      WordSame(i, u.index);
      WordSame(n, u.nelems);
    case VarTail(l) => WordSame(l, u.linkage);
    case NoTail =>
  }

  lemma InfoDetermines(i: Info, j: Info)
    requires i.vlen < 0x1_0000 && i.low < 0x100 && i.high < 8 && j.vlen < 0x1_0000 && j.low < 0x100 && j.high < 8
    requires InfoWord(i) == InfoWord(j)
    ensures i == j
  {
    var f, g := if i.kflag then 8 else 0, if j.kflag then 8 else 0;
    var p, q := (f + i.high) * 16 + KindCode(i.kind), (g + j.high) * 16 + KindCode(j.kind);
    assert p * 0x100 + i.low == q * 0x100 + j.low && i.vlen == j.vlen;
    assert p == q && i.low == j.low;
    assert KindCode(i.kind) == KindCode(j.kind) && f + i.high == g + j.high;
    CodesDiffer(i.kind, j.kind);
  }

  lemma CodesDiffer(k: Kind, l: Kind)
    requires KindCode(k) == KindCode(l)
    ensures k == l
  {
  }

  /** The words of a descriptor determine it. */
  lemma WordsDetermine(t: BtfType, u: BtfType)
    requires Storable(t) && Storable(u) && Words(t) == Words(u)
    ensures t == u
  {
    var a, b := Words(t), Words(u);
    assert a[0] == b[0] && a[1] == b[1] && a[2] == b[2] && a[3..] == TailWords(t.tail) && b[3..] == TailWords(u.tail);
    InfoDigits(t.info);
    InfoDigits(u.info);
    hide U32, InfoWord, TailWords, TailFits;
    InfoDetermines(t.info, u.info);
    WordSame(t.name, u.name);
    WordSame(t.size, u.size);
    TailWordsDetermine(t.tail, u.tail);
  }

  /** The last start parts a section. */
  lemma LastPart(ts: seq<BtfType>)
    requires ts != []
    ensures var p := Starts(ts)[|ts| - 1];
            && p <= |Section(ts)| && Section(ts)[..p] == Section(ts[..|ts| - 1])
            && Section(ts)[p..] == Words(ts[|ts| - 1])
  {
    hide Words;
  }

  lemma SameSections(ts: seq<BtfType>, us: seq<BtfType>)
    requires AllStorable(ts) && AllStorable(us) && Section(ts) == Section(us)
    ensures |ts| == |us|
    ensures ts != [] ==>
              Section(ts[..|ts| - 1]) == Section(us[..|us| - 1]) && Words(ts[|ts| - 1]) == Words(us[|us| - 1])
  {
    hide *;
    SectionParses(ts);
    SectionParses(us);
    if ts != [] {
      LastPart(ts);
      LastPart(us);
    }
  }

  /** The words of a section determine its descriptors. */
  lemma {:induction false} SectionDetermines(ts: seq<BtfType>, us: seq<BtfType>)
    requires AllStorable(ts) && AllStorable(us) && Section(ts) == Section(us)
    ensures ts == us
  {
    hide Section, Words, Storable;
    SameSections(ts, us);
    if ts != [] {
      SectionDetermines(ts[..|ts| - 1], us[..|us| - 1]);
      WordsDetermine(ts[|ts| - 1], us[|us| - 1]);
    }
  }
}
