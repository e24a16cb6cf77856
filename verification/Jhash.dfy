/** The Jenkins hash: over bytes, over words, and over one to three words at once. */
module Jhash {

  const TWO32: nat := 0x1_0000_0000

  type u32 = x: nat | x < 0x1_0000_0000
  type byte = x: nat | x < 256

  const JHASH_INITVAL: u32 := 0xdeadbeef

  function U32(x: int): u32 { x % TWO32 }

  function Add(x: int, y: int): u32 { U32(x + y) }

  function Xor(x: u32, y: u32): u32 { U32(((x as bv32) ^ (y as bv32)) as int) }

  function Rol32(word: u32, shift: nat): u32
    requires 0 < shift < 32
  {
    (((word as bv32) << shift) | ((word as bv32) >> (32 - shift))) as u32
  }

  /** The three words of internal state. */
  datatype Abc = Abc(a: u32, b: u32, c: u32)

  function Mix(s: Abc): Abc {
    var a, b, c := s.a, s.b, s.c;
    var a := Xor(U32(a - c), Rol32(c, 4));
    var c := U32(c + b);
    var b := Xor(U32(b - a), Rol32(a, 6));
    var a := U32(a + c);
    var c := Xor(U32(c - b), Rol32(b, 8));
    var b := U32(b + a);
    var a := Xor(U32(a - c), Rol32(c, 16));
    var c := U32(c + b);
    var b := Xor(U32(b - a), Rol32(a, 19));
    var a := U32(a + c);
    var c := Xor(U32(c - b), Rol32(b, 4));
    var b := U32(b + a);
    Abc(a, b, c)
  }

  function Final(s: Abc): Abc {
    var a, b, c := s.a, s.b, s.c;
    var c := U32(Xor(c, b) - Rol32(b, 14));
    var a := U32(Xor(a, c) - Rol32(c, 11));
    var b := U32(Xor(b, a) - Rol32(a, 25));
    var c := U32(Xor(c, b) - Rol32(b, 16));
    var a := U32(Xor(a, c) - Rol32(c, 4));
    var b := U32(Xor(b, a) - Rol32(a, 14));
    var c := U32(Xor(c, b) - Rol32(b, 24));
    Abc(a, b, c)
  }

  /** Three words added to the state. */
  function Plus(s: Abc, x: int, y: int, z: int): Abc {
    Abc(U32(s.a + x), U32(s.b + y), U32(s.c + z))
  }

  function Start(x: int): Abc { Abc(U32(x), U32(x), U32(x)) }

  // ---------------------------------------------------------------------------
  // Over words

  function Hash2(k: seq<u32>, s: Abc): u32 {
    if |k| > 3 then Hash2(k[3..], Mix(Plus(s, k[0], k[1], k[2])))
    else if k == [] then s.c
    else Final(Plus(s, k[0], if |k| > 1 then k[1] else 0, if |k| > 2 then k[2] else 0)).c
  }

  method Jhash2(k: seq<u32>, initval: u32) returns (r: u32)
    requires |k| < TWO32
    ensures r == Hash2(k, Start(JHASH_INITVAL + U32(4 * |k|) + initval))
  {
    hide Mix, Final, U32;
    var s := Start(JHASH_INITVAL + U32(4 * |k|) + initval);
    var p: nat, length: nat := 0, |k|;
    while length > 3
      invariant 0 <= p && p + length == |k|
      invariant Hash2(k[p..], s) == Hash2(k, Start(JHASH_INITVAL + U32(4 * |k|) + initval))
    {
      assert k[p..][3..] == k[p + 3..];
      s := Mix(Plus(s, k[p], k[p + 1], k[p + 2]));
      length, p := length - 3, p + 3;
    }
    var a, b, c := s.a, s.b, s.c;
    if length == 0 {
      return c;
    }
    if length >= 3 {
      c := Add(c, k[p + 2]);
    }
    if length >= 2 {
      b := Add(b, k[p + 1]);
    }
    a := Add(a, k[p]);
    U32Same(s.b);
    U32Same(s.c);
    r := Final(Abc(a, b, c)).c;
  }

  lemma U32Same(x: u32)
    ensures U32(x) == x && U32(x + 0) == x
  {
  }

  // ---------------------------------------------------------------------------
  // Over bytes

  /** A 32-bit load on a little-endian machine. */
  function Load(k: seq<byte>, i: nat): u32
    requires i + 4 <= |k|
  {
    var x: int, y: int, z: int, t: int := k[i], k[i + 1], k[i + 2], k[i + 3];
    x + y * 0x100 + z * 0x1_0000 + t * 0x100_0000
  }

  /** The byte at `i` shifted left, nothing past the end. */
  function Shifted(k: seq<byte>, i: nat, unit: nat): nat {
    if i < |k| then (k[i] as int) * unit else 0
  }

  /** What the last block adds to one word of the state. */
  function Tail(k: seq<byte>, i: nat): nat {
    Shifted(k, i, 1) + Shifted(k, i + 1, 0x100) + Shifted(k, i + 2, 0x1_0000) + Shifted(k, i + 3, 0x100_0000)
  }

  function Hash(k: seq<byte>, s: Abc): u32 {
    if |k| > 12 then Hash(k[12..], Mix(Plus(s, Load(k, 0), Load(k, 4), Load(k, 8))))
    else if k == [] then s.c
    else Final(Plus(s, Tail(k, 0), Tail(k, 4), Tail(k, 8))).c
  }

  /** Adding one after the other in 32 bits. */
  lemma AddTwice(x: int, y: int)
    ensures U32((U32(x) as int) + y) == U32(x + y)
  {
  }

  /** The cases of the last block that fall through, for one word of the state. */
  method AddTail(k: seq<byte>, p: nat, length: nat, i: nat, word: u32) returns (r: u32)
    requires p + length == |k| && i + 4 <= 12
    ensures r == U32(word + Tail(k[p..], i))
  {
    ghost var t := k[p..];
    ghost var b3, b2, b1 := Shifted(t, i + 3, 0x100_0000), Shifted(t, i + 2, 0x1_0000), Shifted(t, i + 1, 0x100);
    U32Same(word);
    AddTwice(word, b3);
    AddTwice(word + b3, b2);
    AddTwice(word + b3 + b2, b1);
    AddTwice(word + b3 + b2 + b1, Shifted(t, i, 1));
    hide U32;
    r := word;
    if length >= i + 4 {
      r := Add(r, (k[p + i + 3] as int) * 0x100_0000);
    }
    assert r == U32(word + b3);
    if length >= i + 3 {
      r := Add(r, (k[p + i + 2] as int) * 0x1_0000);
    }
    assert r == U32(word + b3 + b2);
    if length >= i + 2 {
      r := Add(r, (k[p + i + 1] as int) * 0x100);
    }
    assert r == U32(word + b3 + b2 + b1);
    if length >= i + 1 {
      r := Add(r, k[p + i]);
    }
    assert Tail(t, i) == b3 + b2 + b1 + Shifted(t, i, 1);
  }

  method Jhash(k: seq<byte>, initval: u32) returns (r: u32)
    requires |k| < TWO32
    ensures r == Hash(k, Start(JHASH_INITVAL + |k| + initval))
  {
    hide Mix, Final, U32, Tail, Load;
    var s := Start(JHASH_INITVAL + |k| + initval);
    var p: nat, length: nat := 0, |k|;
    while length > 12
      invariant 0 <= p && p + length == |k|
      invariant Hash(k[p..], s) == Hash(k, Start(JHASH_INITVAL + |k| + initval))
    {
      assert k[p..][12..] == k[p + 12..];
      LoadAt(k, p);
      s := Mix(Plus(s, Load(k, p), Load(k, p + 4), Load(k, p + 8)));
      length, p := length - 12, p + 12;
    }
    if length == 0 {
      return s.c;
    }
    var c := AddTail(k, p, length, 8, s.c);
    var b := AddTail(k, p, length, 4, s.b);
    var a := AddTail(k, p, length, 0, s.a);
    r := Final(Abc(a, b, c)).c;
  }

  lemma LoadAt(k: seq<byte>, p: nat)
    requires p + 12 <= |k|
    ensures Load(k, p) == Load(k[p..], 0) && Load(k, p + 4) == Load(k[p..], 4) && Load(k, p + 8) == Load(k[p..], 8)
  {
  }

  // ---------------------------------------------------------------------------
  // The forms agree

  function Bytes(w: u32): (r: seq<byte>)
    ensures |r| == 4
  {
    [w % 0x100, w / 0x100 % 0x100, w / 0x1_0000 % 0x100, w / 0x100_0000]
  }

  function AllBytes(ws: seq<u32>): (r: seq<byte>)
    ensures |r| == 4 * |ws|
  {
    if ws == [] then [] else Bytes(ws[0]) + AllBytes(ws[1..])
  }

  lemma LoadBytes(w: u32)
    ensures Load(Bytes(w), 0) == w
  {
    var q1, q2, q3 := w / 0x100, w / 0x1_0000, w / 0x100_0000;
    assert w == q1 * 0x100 + w % 0x100;
    assert q1 == q2 * 0x100 + q1 % 0x100;
    assert q2 == q3 * 0x100 + q2 % 0x100;
  }

  lemma {:induction false} WordAt(ws: seq<u32>, i: nat)
    requires i < |ws|
    ensures AllBytes(ws)[4 * i..4 * i + 4] == Bytes(ws[i])
  {
    if i > 0 {
      WordAt(ws[1..], i - 1);
      var k := AllBytes(ws[1..]);
      assert AllBytes(ws)[4 * i..4 * i + 4] == k[4 * (i - 1)..4 * (i - 1) + 4];
    }
  }

  /** Loading a word, or adding its bytes up, gives the word; past the end there is
      nothing to add. */
  lemma LoadWord(ws: seq<u32>, i: nat)
    ensures i < |ws| ==> Load(AllBytes(ws), 4 * i) == ws[i]
    ensures Tail(AllBytes(ws), 4 * i) == if i < |ws| then ws[i] else 0
  {
    if i < |ws| {
      WordAt(ws, i);
      LoadBytes(ws[i]);
      LoadSlice(AllBytes(ws), 4 * i);
    }
  }

  lemma LoadSlice(k: seq<byte>, p: nat)
    requires p + 4 <= |k|
    ensures Load(k, p) == Load(k[p..p + 4], 0) == Tail(k, p)
  {
    var w := k[p..p + 4];
    assert w[0] == k[p] && w[1] == k[p + 1] && w[2] == k[p + 2] && w[3] == k[p + 3];
  }

  lemma {:induction false} RestBytes(ws: seq<u32>, i: nat)
    requires i <= |ws|
    ensures AllBytes(ws)[4 * i..] == AllBytes(ws[i..])
  {
    if i == 0 {
      assert ws[0..] == ws;
    } else {
      RestBytes(ws[1..], i - 1);
      assert ws[1..][i - 1..] == ws[i..];
      assert AllBytes(ws)[4 * i..] == AllBytes(ws[1..])[4 * (i - 1)..];
    }
  }

  lemma {:induction false} FormsAgree(ws: seq<u32>, s: Abc)
    ensures Hash(AllBytes(ws), s) == Hash2(ws, s)
    decreases |ws|
  {
    hide Mix, Final, U32, Load, Tail;
    LoadWord(ws, 0);
    LoadWord(ws, 1);
    LoadWord(ws, 2);
    if |ws| > 3 {
      RestBytes(ws, 3);
      FormsAgree(ws[3..], Mix(Plus(s, ws[0], ws[1], ws[2])));
    }
  }

  /** Hashing the little-endian bytes of words is hashing the words. */
  lemma BytesAgree(ws: seq<u32>, initval: u32)
    requires 4 * |ws| < 0x1_0000_0000
    ensures Hash(AllBytes(ws), Start(JHASH_INITVAL + |AllBytes(ws)| + initval))
            == Hash2(ws, Start(JHASH_INITVAL + U32(4 * |ws|) + initval))
  {
    hide *;
    var n: u32 := 4 * |ws|;
    U32Same(n);
    FormsAgree(ws, Start(JHASH_INITVAL + n + initval));
  }

  function NWords(a: u32, b: u32, c: u32, initval: int): u32 {
    Final(Abc(Add(a, initval), Add(b, initval), Add(c, initval))).c
  }

  function ThreeWords(a: u32, b: u32, c: u32, initval: u32): u32 { NWords(a, b, c, U32(initval + JHASH_INITVAL + 12)) }

  function TwoWords(a: u32, b: u32, initval: u32): u32 { NWords(a, b, 0, U32(initval + JHASH_INITVAL + 8)) }

  function OneWord(a: u32, initval: u32): u32 { NWords(a, 0, 0, U32(initval + JHASH_INITVAL + 4)) }

  lemma LastWords(k: seq<u32>, x: int)
    requires 0 < |k| <= 3
    ensures Hash2(k, Start(x)) == NWords(k[0], if |k| > 1 then k[1] else 0, if |k| > 2 then k[2] else 0, U32(x))
  {
    hide Mix, Final, U32;
  }

  /** The forms for a fixed number of words hash those words. */
  lemma FixedFormsAgree(a: u32, b: u32, c: u32, initval: u32)
    ensures ThreeWords(a, b, c, initval) == Hash2([a, b, c], Start(JHASH_INITVAL + U32(4 * 3) + initval))
    ensures TwoWords(a, b, initval) == Hash2([a, b], Start(JHASH_INITVAL + U32(4 * 2) + initval))
    ensures OneWord(a, initval) == Hash2([a], Start(JHASH_INITVAL + U32(4 * 1) + initval))
  {
    hide NWords, Hash2, Start, U32;
    U32Same(12);
    U32Same(8);
    U32Same(4);
    LastWords([a, b, c], JHASH_INITVAL + 12 + initval);
    LastWords([a, b], JHASH_INITVAL + 8 + initval);
    LastWords([a], JHASH_INITVAL + 4 + initval);
  }
}
