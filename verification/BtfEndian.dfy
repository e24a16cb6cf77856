/** Reading and writing a type section in the other byte order.  Every field of a type
    record is a 32-bit word, so a section is a sequence of words. */
module BtfEndian {
  import opened BtfLayout
  import opened BtfTypes
  import opened BtfCompare
  import opened Jhash
  import opened Options

  const EINVAL: int := 22

  /** The bytes of a word the other way round. */
  function Bswap32(w: u32): u32 {
    var b := Bytes(w);
    Load([b[3], b[2], b[1], b[0]], 0)
  }

  lemma BytesOfLoad(b: seq<byte>)
    requires |b| == 4
    ensures Bytes(Load(b, 0)) == b
  {
    var x: int, y: int, z: int, t: int := b[0], b[1], b[2], b[3];
    Digits(x, y, z, t);
  }

  lemma Digits(x: int, y: int, z: int, t: int)
    requires 0 <= x < 0x100 && 0 <= y < 0x100 && 0 <= z < 0x100
    ensures var w := x + y * 0x100 + z * 0x1_0000 + t * 0x100_0000;
            && w % 0x100 == x && w / 0x100 % 0x100 == y && w / 0x1_0000 % 0x100 == z && w / 0x100_0000 == t
  {
    var w := x + y * 0x100 + z * 0x1_0000 + t * 0x100_0000;
    assert w / 0x100 == y + z * 0x100 + t * 0x1_0000;
    assert w / 0x1_0000 == z + t * 0x100;
  }

  /** Swapping reverses the digits to base 256. */
  lemma SwapDigits(x: byte, y: byte, z: byte, t: byte)
    ensures Bswap32(x + y * 0x100 + z * 0x1_0000 + t * 0x100_0000) == t + z * 0x100 + y * 0x1_0000 + x * 0x100_0000
  {
    Digits(x, y, z, t);
  }

  lemma SwapTwice(w: u32)
    ensures Bswap32(Bswap32(w)) == w
  {
    var b := Bytes(w);
    BytesOfLoad([b[3], b[2], b[1], b[0]]);
    LoadBytes(w);
    assert [b[0], b[1], b[2], b[3]] == b;
  }

  function Swapped(ws: seq<u32>): (r: seq<u32>)
    ensures |r| == |ws| && forall i :: 0 <= i < |ws| ==> r[i] == Bswap32(ws[i])
  {
    seq(|ws|, i requires 0 <= i < |ws| => Bswap32(ws[i]))
  }

  lemma SwappedTwice(ws: seq<u32>)
    ensures Swapped(Swapped(ws)) == ws
  {
    forall i | 0 <= i < |ws| ensures Swapped(Swapped(ws))[i] == ws[i] {
      SwapTwice(ws[i]);
    }
  }

  /** The words from `lo` to `hi` the other way round. */
  function SwapPart(ws: seq<u32>, lo: nat, hi: nat): (r: seq<u32>)
    requires lo <= hi <= |ws|
    ensures |r| == |ws| && forall j :: 0 <= j < |ws| ==> r[j] == if lo <= j < hi then Bswap32(ws[j]) else ws[j]
  {
    ws[..lo] + Swapped(ws[lo..hi]) + ws[hi..]
  }

  /** Two neighbouring parts make one, whichever is swapped first. */
  lemma PartsJoin(ws: seq<u32>, a: nat, b: nat, c: nat)
    requires a <= b <= c <= |ws|
    ensures SwapPart(SwapPart(ws, a, b), b, c) == SwapPart(ws, a, c)
    ensures SwapPart(SwapPart(ws, b, c), a, b) == SwapPart(ws, a, c)
  {
    hide Bswap32;
  }

  // ---------------------------------------------------------------------------
  // Swapping in place

  method SwapWords(buf: array<u32>, lo: nat, hi: nat)
    requires lo <= hi <= buf.Length
    modifies buf
    ensures buf[..] == SwapPart(old(buf[..]), lo, hi)
  {
    hide Bswap32;
    for i := lo to hi
      invariant forall j :: 0 <= j < buf.Length ==>
                  buf[j] == if lo <= j < i then Bswap32(old(buf[j])) else old(buf[j])
    {
      buf[i] := Bswap32(buf[i]);
    }
  }

  method SwapTypeBase(buf: array<u32>, at: nat)
    requires at + 3 <= buf.Length
    modifies buf
    ensures buf[..] == SwapPart(old(buf[..]), at, at + 3)
  {
    SwapWords(buf, at, at + 3);
  }

  /** Swaps what follows the base of a record; the info word has to be native. */
  method SwapTypeRest(buf: array<u32>, at: nat) returns (err: int)
    requires at + 3 <= buf.Length
    requires var n := RecordWords(buf[at + 1]); n.Some? ==> at + n.value <= buf.Length
    modifies buf
    ensures var n := old(RecordWords(buf[at + 1]));
            if n == None then err == -EINVAL && buf[..] == old(buf[..])
            else err == 0 && buf[..] == SwapPart(old(buf[..]), at + 3, at + n.value)
    ensures forall t :: Storable(t) && InfoWord(t.info) == old(buf[at + 1]) ==>
              && err == 0 && 3 <= |Words(t)| && at + |Words(t)| <= buf.Length
              && buf[..] == SwapPart(old(buf[..]), at + 3, at + |Words(t)|)
  {
    hide SwapPart, RecordWords, Words, Storable, InfoWord;
    forall t | Storable(t) && InfoWord(t.info) == buf[at + 1]
      ensures 3 <= |Words(t)| && RecordWords(buf[at + 1]) == Some(|Words(t)|)
    {
      RecordIsWords(t);
      InfoIsWord(t);
    }
    var n := RecordWords(buf[at + 1]);
    if n == None {
      return -EINVAL;
    }
    SwapWords(buf, at + 3, at + n.value);
    return 0;
  }

  // ---------------------------------------------------------------------------
  // Reading

  /** The section in native order. */
  function Native(ws: seq<u32>, swapped: bool): (r: seq<u32>)
    ensures |r| == |ws|
  {
    if swapped then Swapped(ws) else ws
  }

  /** All of a parse once `offs` is found and `rest` lies ahead. */
  function Then(offs: seq<nat>, rest: Option<seq<nat>>): Option<seq<nat>> {
    if rest == None then None else Some(offs + rest.value)
  }

  /** A section with everything below `p` in native order. */
  function Upto(ws: seq<u32>, swapped: bool, p: nat): (r: seq<u32>)
    requires p <= |ws|
    ensures |r| == |ws|
  {
    if swapped then SwapPart(ws, 0, p) else ws
  }

  lemma OneRecord(t: seq<u32>, offs: seq<nat>, p: nat)
    requires p + 3 <= |t|
    ensures var n := RecordWords(t[p + 1]);
            Then(offs, Parse(t, p))
            == if n == None || p + n.value > |t| then None else Then(offs + [p], Parse(t, p + n.value))
  {
    var n := RecordWords(t[p + 1]);
    if n.Some? && p + n.value <= |t| && Parse(t, p + n.value).Some? {
      var rest := Parse(t, p + n.value).value;
      assert offs + ([p] + rest) == (offs + [p]) + rest;
    }
  }

  /** Swaps one record, once its info word tells how long it is; none if it is malformed. */
  method ReadRecord(buf: array<u32>, p: nat, swapped: bool, ghost ws: seq<u32>) returns (n: Option<nat>)
    requires p + 3 <= buf.Length == |ws| && buf[..] == Upto(ws, swapped, p)
    modifies buf
    ensures var m := RecordWords(Native(ws, swapped)[p + 1]);
            if m == None || p + m.value > |ws| then n == None else n == m && buf[..] == Upto(ws, swapped, p + m.value)
  {
    hide Bswap32, RecordWords, SwapPart, Swapped;
    if swapped {
      SwapTypeBase(buf, p);
      PartsJoin(ws, 0, p, p + 3);
    }
    assert buf[..][p + 1] == Native(ws, swapped)[p + 1];
    n := RecordWords(buf[p + 1]);
    if n == None || p + n.value > buf.Length {
      return None;
    }
    if swapped {
      PartsJoin(ws, 0, p + 3, p + n.value);
      var e := SwapTypeRest(buf, p);
    }
  }

  /** Reads a section in place, swapping each record as it comes to it.  It succeeds
      exactly on a section that is well-formed in its own byte order, which it leaves
      in native order with the positions of its records.  The words of descriptors are
      found to have one record for each. */
  method ParseTypeSec(buf: array<u32>, swapped: bool) returns (err: int, offs: seq<nat>)
    modifies buf
    ensures var t := Native(old(buf[..]), swapped);
            match Parse(t, 0)
            case Some(all) => err == 0 && offs == all && buf[..] == t
            case None => err == -EINVAL
    ensures forall ts :: AllStorable(ts) && Native(old(buf[..]), swapped) == Section(ts) ==>
              err == 0 && offs == Starts(ts) && buf[..] == Section(ts)
  {
    hide *;
    ghost var ws := buf[..];
    ghost var t := Native(ws, swapped);
    forall ts | AllStorable(ts) && t == Section(ts) ensures Parse(t, 0) == Some(Starts(ts)) {
      SectionParses(ts);
    }
    var p: nat := 0;
    offs := [];
    Begins(ws, swapped);
    while p + 3 <= buf.Length
      invariant 0 <= p <= buf.Length && buf[..] == Upto(ws, swapped, p)
      invariant Then(offs, Parse(t, p)) == Parse(t, 0)
    {
      OneRecord(t, offs, p);
      var n := ReadRecord(buf, p, swapped, ws);
      if n == None {
        return -EINVAL, [];
      }
      offs := offs + [p];
      p := p + n.value;
    }
    AtEnd(t, offs, p);
    if p != buf.Length {
      return -EINVAL, [];
    }
    Ends(ws, swapped);
    return 0, offs;
  }

  lemma Begins(ws: seq<u32>, swapped: bool)
    ensures Upto(ws, swapped, 0) == ws && Then([], Parse(Native(ws, swapped), 0)) == Parse(Native(ws, swapped), 0)
  {
    var all := Parse(Native(ws, swapped), 0);
    if all.Some? {
      assert [] + all.value == all.value;
    }
  }

  lemma Ends(ws: seq<u32>, swapped: bool)
    ensures Upto(ws, swapped, |ws|) == Native(ws, swapped) && Native(ws, true) == Swapped(ws)
  {
  }

  lemma AtEnd(t: seq<u32>, offs: seq<nat>, p: nat)
    requires p <= |t| < p + 3
    ensures Then(offs, Parse(t, p)) == if p == |t| then Some(offs) else None
  {
    assert offs + [] == offs;
  }

  // ---------------------------------------------------------------------------
  // Writing

  /** Writes a section in the other byte order, the rest of each record before its
      base. */
  method WriteSwapped(ws: seq<u32>, offs: seq<nat>) returns (data: array<u32>)
    requires Parse(ws, 0) == Some(offs)
    ensures fresh(data) && data[..] == Swapped(ws)
  {
    hide *;
    data := new u32[|ws|](i requires 0 <= i < |ws| => ws[i]);
    assert data[..] == ws && offs[0..] == offs;
    Begins(ws, true);
    ghost var p: nat := 0;
    for i := 0 to |offs|
      invariant p <= |ws| && Parse(ws, p) == Some(offs[i..]) && data[..] == Upto(ws, true, p)
    {
      NextOffset(ws, p, offs, i);
      WriteRecord(data, offs[i], ws);
      p := p + RecordWords(ws[p + 1]).value;
    }
    assert offs[|offs|..] == [];
    NoneLeft(ws, p);
    Ends(ws, true);
  }

  lemma NextOffset(ws: seq<u32>, p: nat, offs: seq<nat>, i: nat)
    requires i < |offs| && p <= |ws| && Parse(ws, p) == Some(offs[i..])
    ensures offs[i] == p && p + 3 <= |ws|
    ensures var n := RecordWords(ws[p + 1]);
            n.Some? && p + n.value <= |ws| && Parse(ws, p + n.value) == Some(offs[i + 1..])
  {
    assert offs[i..][0] == offs[i] && offs[i..][1..] == offs[i + 1..];
    var n := RecordWords(ws[p + 1]);
    var rest := Parse(ws, p + n.value).value;
    assert ([p] + rest)[1..] == rest;
  }

  lemma NoneLeft(ws: seq<u32>, p: nat)
    requires p <= |ws| && Parse(ws, p) == Some([])
    ensures p == |ws|
  {
  }

  /** Swaps one record of the copy. */
  method WriteRecord(data: array<u32>, p: nat, ghost ws: seq<u32>)
    requires p + 3 <= data.Length == |ws| && data[..] == Upto(ws, true, p)
    requires var n := RecordWords(ws[p + 1]); n.Some? && p + n.value <= |ws|
    modifies data
    ensures data[..] == Upto(ws, true, p + RecordWords(ws[p + 1]).value)
  {
    hide Bswap32, RecordWords, Swapped, SwapPart;
    RestThenBase(ws, p, RecordWords(ws[p + 1]).value);
    assert data[..][p + 1] == ws[p + 1];
    var err := SwapTypeRest(data, p);
    SwapTypeBase(data, p);
  }

  lemma RestThenBase(ws: seq<u32>, p: nat, n: nat)
    requires 3 <= n && p + n <= |ws|
    ensures SwapPart(SwapPart(Upto(ws, true, p), p + 3, p + n), p, p + 3) == Upto(ws, true, p + n)
  {
    hide Bswap32, SwapPart;
    PartsJoin(Upto(ws, true, p), p, p + 3, p + n);
    PartsJoin(ws, 0, p, p + n);
  }

  /** What is written in the other byte order reads back as it was. */
  method RoundTrip(ws: seq<u32>, offs: seq<nat>) returns (data: array<u32>, err: int, offs': seq<nat>)
    requires Parse(ws, 0) == Some(offs)
    ensures err == 0 && offs' == offs && data[..] == ws
  {
    data := WriteSwapped(ws, offs);
    SwappedTwice(ws);
    err, offs' := ParseTypeSec(data, true);
  }
}
