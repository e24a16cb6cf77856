/** A whole BTF file, header, type section and string section, read and written in either byte
    order. */
module BtfRaw {
  import opened Jhash
  import opened Options
  import opened BtfEndian
  import opened BtfLayout

  type u16 = x: nat | x < 0x1_0000

  const MAGIC: u16 := 0xEB9F
  const HDR_LEN: u32 := 24
  const MAX_STR_OFFSET: nat := 0x7fff_ffff
  const ENOTSUP: int := 95

  /** Offsets are counted in bytes from the end of the header. */
  datatype Header = Header(magic: u16, version: byte, flags: byte, hdrLen: u32, typeOff: u32, typeLen: u32,
                           strOff: u32, strLen: u32)

  /** A file: too short for a header, or a header and what follows it. */
  datatype Raw = Stub | Raw(hdr: Header, data: seq<byte>)

  /** What is loaded: the header in native order, the words of the type section in native order
      with the positions of its records, and the string section. */
  datatype Btf = Btf(hdr: Header, swapped: bool, types: seq<u32>, offs: seq<nat>, strs: seq<byte>)

  datatype Result<T> = Ok(value: T) | Err(error: int)

  function Bswap16(w: u16): u16 { w % 0x100 * 0x100 + w / 0x100 }

  lemma SwapHalves(x: byte, y: byte)
    ensures Bswap16((x as int) + y * 0x100) == (y as int) + x * 0x100
  {
  }

  function SwapHdr(h: Header): Header {
    Header(Bswap16(h.magic), h.version, h.flags, Bswap32(h.hdrLen), Bswap32(h.typeOff), Bswap32(h.typeLen),
           Bswap32(h.strOff), Bswap32(h.strLen))
  }

  lemma SwapHdrTwice(h: Header)
    ensures SwapHdr(SwapHdr(h)) == h
  {
    SwapTwice(h.hdrLen);
    SwapTwice(h.typeOff);
    SwapTwice(h.typeLen);
    SwapTwice(h.strOff);
    SwapTwice(h.strLen);
    hide Bswap32;
  }

  // ---------------------------------------------------------------------------
  // Reading

  /** The header in native order, and whether it had to be swapped. */
  function ParseHdr(raw: Raw): Result<(Header, bool)> {
    match raw
    case Stub => Err(-EINVAL)
    case Raw(hdr, data) =>
      var swapped := hdr.magic == Bswap16(MAGIC);
      if swapped && Bswap32(hdr.hdrLen) != HDR_LEN then Err(-ENOTSUP)
      else if !swapped && hdr.magic != MAGIC then Err(-EINVAL)
      else
        var h := if swapped then SwapHdr(hdr) else hdr;
        if |data| < U32(h.strOff + h.strLen) then Err(-EINVAL)
        else if U32(h.typeOff + h.typeLen) > h.strOff then Err(-EINVAL)
        else if h.typeOff % 4 != 0 then Err(-EINVAL)
        else Ok((h, swapped))
  }

  /** The header is of the usual length, and no sum of its fields wraps. */
  predicate Usual(h: Header) {
    h.hdrLen == HDR_LEN && h.strOff + h.strLen < 0x1_0000_0000 && h.typeOff + h.typeLen < 0x1_0000_0000
  }

  predicate Covered(raw: Raw) {
    ParseHdr(raw).Ok? ==> Usual(ParseHdr(raw).value.0)
  }

  /** Sections of a header that is accepted are in the file, in their order. */
  lemma HdrFits(raw: Raw)
    requires Covered(raw) && ParseHdr(raw).Ok?
    ensures var h := ParseHdr(raw).value.0;
            && raw.Raw? && Usual(h) && h.magic == MAGIC && h.typeOff % 4 == 0
            && h.typeOff + h.typeLen <= h.strOff && h.strOff + h.strLen <= |raw.data|
  {
    hide Bswap32;
    var h := ParseHdr(raw).value.0;
    Small(h.strOff + h.strLen);
    Small(h.typeOff + h.typeLen);
    hide U32;
    assert Bswap16(Bswap16(MAGIC)) == MAGIC;
  }

  lemma Small(x: nat)
    requires x < 0x1_0000_0000
    ensures U32(x) == x
  {
  }

  /** Little-endian words. */
  function Words(bs: seq<byte>): (ws: seq<u32>)
    requires |bs| % 4 == 0
    ensures 4 * |ws| == |bs|
  {
    if bs == [] then [] else [Load(bs, 0)] + Words(bs[4..])
  }

  lemma {:induction false} WordsOfBytes(ws: seq<u32>)
    ensures Words(AllBytes(ws)) == ws
  {
    if ws != [] {
      WordsOfBytes(ws[1..]);
      var bs := AllBytes(ws);
      LoadBytes(ws[0]);
      assert bs[4..] == AllBytes(ws[1..]) && bs[..4] == Bytes(ws[0]);
      assert forall i :: 0 <= i < 4 ==> bs[i] == Bytes(ws[0])[i];
    }
  }

  predicate StringsOk(strs: seq<byte>) {
    strs != [] && |strs| - 1 <= MAX_STR_OFFSET && strs[0] == 0 && strs[|strs| - 1] == 0
  }

  /** The type section: words, as records are; anything else is malformed. */
  function LoadTypes(bs: seq<byte>, swapped: bool): Result<(seq<u32>, seq<nat>)> {
    if |bs| % 4 != 0 then Err(-EINVAL)
    else
      var ws := Native(Words(bs), swapped);
      match Parse(ws, 0)
      case None => Err(-EINVAL)
      case Some(offs) => Ok((ws, offs))
  }

  function LoadSections(h: Header, swapped: bool, data: seq<byte>): Result<Btf>
    requires Usual(h) && h.typeOff + h.typeLen <= h.strOff && h.strOff + h.strLen <= |data|
  {
    var strs := data[h.strOff..h.strOff + h.strLen];
    if !StringsOk(strs) then Err(-EINVAL)
    else
      match LoadTypes(data[h.typeOff..h.typeOff + h.typeLen], swapped)
      case Err(e) => Err(e)
      case Ok((ws, offs)) => Ok(Btf(h, swapped, ws, offs, strs))
  }

  function LoadBtf(raw: Raw): Result<Btf>
    requires Covered(raw)
  {
    match ParseHdr(raw)
    case Err(e) => Err(e)
    case Ok((h, swapped)) =>
      HdrFits(raw);
      LoadSections(h, swapped, raw.data)
  }

  /** Reads a file, swapping its type section in place. */
  method New(raw: Raw) returns (r: Result<Btf>)
    requires Covered(raw)
    ensures r == LoadBtf(raw)
  {
    hide ParseHdr, Covered, Parse, Words, Bswap32, SwapHdr;
    match ParseHdr(raw) {
      case Err(e) => return Err(e);
      case Ok((h, swapped)) =>
        HdrFits(raw);
        var strs := raw.data[h.strOff..h.strOff + h.strLen];
        if !StringsOk(strs) {
          return Err(-EINVAL);
        }
        var bs := raw.data[h.typeOff..h.typeOff + h.typeLen];
        if |bs| % 4 != 0 {
          return Err(-EINVAL);
        }
        var ws := Words(bs);
        var buf := new u32[|ws|](i requires 0 <= i < |ws| => ws[i]);
        assert buf[..] == ws;
        var err, offs := ParseTypeSec(buf, swapped);
        if err != 0 {
          return Err(err);
        }
        r := Ok(Btf(h, swapped, buf[..], offs, strs));
    }
  }

  // ---------------------------------------------------------------------------
  // Writing

  /** A file put together anew: the sections one after the other behind the header as it is. */
  function RawOf(b: Btf, swap: bool): Raw {
    Raw(if swap then SwapHdr(b.hdr) else b.hdr, AllBytes(Native(b.types, swap)) + b.strs)
  }

  /** Puts a file together, in the other byte order if it was read in it. */
  method GetRawData(b: Btf, swap: bool) returns (raw: Raw)
    requires Parse(b.types, 0) == Some(b.offs)
    ensures raw == RawOf(b, swap)
  {
    hide Parse, AllBytes, Bswap32, SwapHdr;
    if swap {
      var types := WriteSwapped(b.types, b.offs);
      return Raw(SwapHdr(b.hdr), AllBytes(types[..]) + b.strs);
    }
    return Raw(b.hdr, AllBytes(b.types) + b.strs);
  }

  // ---------------------------------------------------------------------------
  // Round trip

  /** What loading gives. */
  ghost predicate Loaded(b: Btf) {
    && b.hdr.magic == MAGIC && Usual(b.hdr)
    && b.hdr.typeLen == 4 * |b.types| && b.hdr.strLen == |b.strs| && StringsOk(b.strs)
    && b.hdr.typeOff + b.hdr.typeLen <= b.hdr.strOff && b.hdr.typeOff % 4 == 0
    && Parse(b.types, 0) == Some(b.offs)
  }

  lemma LoadingGives(raw: Raw)
    requires Covered(raw)
    ensures LoadBtf(raw).Ok? ==> Loaded(LoadBtf(raw).value)
  {
    if ParseHdr(raw).Ok? {
      HdrFits(raw);
      hide ParseHdr, Covered, Parse, Words, Bswap32;
    }
  }

  lemma HdrBack(b: Btf, swap: bool)
    requires Loaded(b)
    ensures ParseHdr(RawOf(b, swap)) ==
            if b.hdr.strOff == b.hdr.typeLen then Ok((b.hdr, swap)) else Err(-EINVAL)
  {
    hide Parse, AllBytes, Words, Bswap32, Native;
    SwapHdrTwice(b.hdr);
    SwapTwice(b.hdr.hdrLen);
  }

  lemma TypesBack(types: seq<u32>, offs: seq<nat>, swap: bool)
    requires Parse(types, 0) == Some(offs)
    ensures LoadTypes(AllBytes(Native(types, swap)), swap) == Ok((types, offs))
  {
    hide Parse, AllBytes, Words;
    WordsOfBytes(Native(types, swap));
    SwappedTwice(types);
  }

  lemma SectionsBack(b: Btf, swap: bool)
    requires Loaded(b) && b.hdr.strOff == b.hdr.typeLen
    ensures |RawOf(b, swap).data| == b.hdr.strOff + b.hdr.strLen
    ensures LoadSections(b.hdr, swap, RawOf(b, swap).data) == Ok(b.(swapped := swap))
  {
    hide Parse, AllBytes, Native, LoadTypes, StringsOk, SwapHdr;
    var data, ts := RawOf(b, swap).data, AllBytes(Native(b.types, swap));
    TypesBack(b.types, b.offs, swap);
    assert data == ts + b.strs && |ts| == b.hdr.typeLen;
    assert data[0..b.hdr.typeLen] == ts;
    assert data[b.hdr.strOff..b.hdr.strOff + b.hdr.strLen] == b.strs;
  }

  /** A file that is written and read again is what was loaded exactly if the string section was
      right behind the type section, and is refused otherwise: sections are moved together, but
      the header still tells where they were. */
  lemma RoundTrip(b: Btf, swap: bool)
    requires Loaded(b)
    ensures Covered(RawOf(b, swap))
    ensures LoadBtf(RawOf(b, swap)) ==
            if b.hdr.strOff == b.hdr.typeLen then Ok(b.(swapped := swap)) else Err(-EINVAL)
  {
    HdrBack(b, swap);
    if b.hdr.strOff == b.hdr.typeLen {
      SectionsBack(b, swap);
    }
    hide ParseHdr, LoadSections, StringsOk, Parse, SwapHdr;
  }

  /** A file with a gap between its sections loads, but what is written for it does not. */
  const GAP: Raw := Raw(Header(MAGIC, 1, 0, HDR_LEN, 0, 0, 4, 1), [0, 0, 0, 0, 0])

  lemma GapLost(swap: bool)
    ensures Covered(GAP) && LoadBtf(GAP).Ok?
    ensures Covered(RawOf(LoadBtf(GAP).value, swap)) && LoadBtf(RawOf(LoadBtf(GAP).value, swap)) == Err(-EINVAL)
  {
    GapLoads();
    hide LoadBtf, RawOf, Loaded, ParseHdr;
    RoundTrip(Btf(GAP.hdr, false, [], [], [0]), swap);
  }

  lemma GapLoads()
    ensures Covered(GAP) && LoadBtf(GAP) == Ok(Btf(GAP.hdr, false, [], [], [0]))
    ensures Loaded(Btf(GAP.hdr, false, [], [], [0]))
  {
    assert ParseHdr(GAP) == Ok((GAP.hdr, false));
    hide ParseHdr;
    HdrFits(GAP);
    LoadingGives(GAP);
    assert GAP.data[4..5] == [0] && GAP.data[0..0] == [];
    NothingHere();
    hide LoadTypes, Loaded;
  }

  lemma NothingHere()
    ensures LoadTypes([], false) == Ok(([], []))
  {
  }
}
