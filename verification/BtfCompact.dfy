/** Compaction of the type section itself: the words of the types that are kept are moved
    down over those of the others, in the one buffer, and the offset index with them. */
module BtfCompact {
  import opened Jhash
  import opened BtfEndian
  import opened BtfLayout
  import opened BtfTypes
  import opened Options

  /** The words of record `i`. */
  function Record(ws: seq<u32>, offs: seq<nat>, i: nat): seq<u32>
    requires i < |offs| && Fits(ws, offs, i)
  {
    ws[offs[i]..offs[i] + RecordWords(ws[offs[i] + 1]).value]
  }

  predicate Fits(ws: seq<u32>, offs: seq<nat>, i: nat)
    requires i < |offs|
  {
    && offs[i] + 3 <= |ws|
    && var n := RecordWords(ws[offs[i] + 1]); n.Some? && offs[i] + n.value <= |ws|
  }

  predicate AllFit(ws: seq<u32>, offs: seq<nat>) {
    forall i :: 0 <= i < |offs| ==> Fits(ws, offs, i)
  }

  /** Type ids start at 1; a type is kept if it is its own canonical type. */
  predicate Keep(canon: seq<nat>, i: nat) {
    i + 1 < |canon| && canon[i + 1] == i + 1
  }

  /** The kept ones of the first `n` records, one after the other. */
  function KeptWords(ws: seq<u32>, offs: seq<nat>, canon: seq<nat>, n: nat): seq<u32>
    requires n <= |offs| && AllFit(ws, offs)
  {
    if n == 0 then []
    else KeptWords(ws, offs, canon, n - 1) + if Keep(canon, n - 1) then Record(ws, offs, n - 1) else []
  }

  /** Which of the first `n` records are kept. */
  function KeptIndices(canon: seq<nat>, n: nat): (r: seq<nat>)
    ensures |r| <= n && forall k :: 0 <= k < |r| ==> r[k] < n
  {
    if n == 0 then [] else KeptIndices(canon, n - 1) + if Keep(canon, n - 1) then [n - 1] else []
  }

  /** Where the kept records start. */
  function KeptOffs(ws: seq<u32>, offs: seq<nat>, canon: seq<nat>, n: nat): (r: seq<nat>)
    requires n <= |offs| && AllFit(ws, offs)
    ensures |r| == |KeptIndices(canon, n)|
  {
    if n == 0 then []
    else KeptOffs(ws, offs, canon, n - 1) + if Keep(canon, n - 1) then [|KeptWords(ws, offs, canon, n - 1)|] else []
  }

  // ---------------------------------------------------------------------------
  // The original section

  lemma {:induction false} ParseFits(ws: seq<u32>, offs: seq<nat>, p: nat, i: nat)
    requires i <= |offs| && p <= |ws| && Parse(ws, p) == Some(offs[i..])
    ensures forall j :: i <= j < |offs| ==> Fits(ws, offs, j)
    decreases |offs| - i
  {
    if i < |offs| {
      NextOffset(ws, p, offs, i);
      ParseFits(ws, offs, p + RecordWords(ws[p + 1]).value, i + 1);
    }
  }

  lemma KeptStep(ws: seq<u32>, offs: seq<nat>, canon: seq<nat>, i: nat)
    requires AllFit(ws, offs) && i < |offs|
    ensures Fits(ws, offs, i)
    ensures Keep(canon, i) ==>
              && KeptWords(ws, offs, canon, i + 1) == KeptWords(ws, offs, canon, i) + Record(ws, offs, i)
              && KeptOffs(ws, offs, canon, i + 1) == KeptOffs(ws, offs, canon, i) + [|KeptWords(ws, offs, canon, i)|]
              && KeptIndices(canon, i + 1) == KeptIndices(canon, i) + [i]
    ensures !Keep(canon, i) ==>
              && KeptWords(ws, offs, canon, i + 1) == KeptWords(ws, offs, canon, i)
              && KeptOffs(ws, offs, canon, i + 1) == KeptOffs(ws, offs, canon, i)
              && KeptIndices(canon, i + 1) == KeptIndices(canon, i)
  {
  }

  lemma RecordLength(ws: seq<u32>, offs: seq<nat>, i: nat)
    requires i < |offs| && Fits(ws, offs, i)
    ensures |Record(ws, offs, i)| == RecordWords(ws[offs[i] + 1]).value
  {
  }

  /** Records lie next to each other: no kept word is moved up. */
  lemma {:induction false} KeptBelow(ws: seq<u32>, offs: seq<nat>, canon: seq<nat>, n: nat)
    requires Parse(ws, 0) == Some(offs) && AllFit(ws, offs) && n <= |offs|
    ensures var q := if n < |offs| then offs[n] else |ws|;
            |KeptWords(ws, offs, canon, n)| <= q <= |ws| && Parse(ws, q) == Some(offs[n..])
  {
    hide Parse, RecordWords, KeptOffs, KeptIndices, Keep, Record;
    if n == 0 {
      assert offs[0..] == offs;
      if offs != [] {
        NextOffset(ws, 0, offs, 0);
      } else {
        NoneLeft(ws, 0);
      }
    } else {
      KeptBelow(ws, offs, canon, n - 1);
      KeptStep(ws, offs, canon, n - 1);
      RecordLength(ws, offs, n - 1);
      hide KeptWords;
      NextBelow(ws, offs, n);
    }
  }

  lemma NextBelow(ws: seq<u32>, offs: seq<nat>, n: nat)
    requires 0 < n <= |offs| && Fits(ws, offs, n - 1) && Parse(ws, offs[n - 1]) == Some(offs[n - 1..])
    ensures var q := offs[n - 1] + RecordWords(ws[offs[n - 1] + 1]).value;
            q <= |ws| && q == (if n < |offs| then offs[n] else |ws|) && Parse(ws, q) == Some(offs[n..])
  {
    hide Parse, RecordWords;
    NextOffset(ws, offs[n - 1], offs, n - 1);
    var q := offs[n - 1] + RecordWords(ws[offs[n - 1] + 1]).value;
    if n < |offs| {
      NextOffset(ws, q, offs, n);
    } else {
      assert offs[n..] == [];
      NoneLeft(ws, q);
    }
  }

  // ---------------------------------------------------------------------------
  // The compacted section

  /** The kept words are a well-formed section that starts its records where the new
      index says. */
  lemma {:induction false} KeptParses(ws: seq<u32>, offs: seq<nat>, canon: seq<nat>, n: nat)
    requires AllFit(ws, offs) && n <= |offs|
    ensures Parse(KeptWords(ws, offs, canon, n), 0) == Some(KeptOffs(ws, offs, canon, n))
  {
    NothingParses();
    hide Parse, RecordWords;
    if n > 0 {
      KeptParses(ws, offs, canon, n - 1);
      if Keep(canon, n - 1) {
        assert Fits(ws, offs, n - 1);
        ParseOneMore(KeptWords(ws, offs, canon, n - 1), Record(ws, offs, n - 1), 0);
      } else {
        assert KeptWords(ws, offs, canon, n - 1) + [] == KeptWords(ws, offs, canon, n - 1);
        assert KeptOffs(ws, offs, canon, n - 1) + [] == KeptOffs(ws, offs, canon, n - 1);
      }
    }
  }

  // ---------------------------------------------------------------------------
  // Descriptors

  /** The kept ones of the first `n` descriptors. */
  function KeptTypes(ts: seq<BtfType>, canon: seq<nat>, n: nat): seq<BtfType>
    requires n <= |ts|
  {
    if n == 0 then [] else KeptTypes(ts, canon, n - 1) + if Keep(canon, n - 1) then [ts[n - 1]] else []
  }

  /** The records of a section of descriptors are their words. */
  lemma {:induction false} SectionRecords(ts: seq<BtfType>, i: nat)
    requires AllStorable(ts) && i < |ts|
    ensures Fits(Section(ts), Starts(ts), i) && Record(Section(ts), Starts(ts), i) == Words(ts[i])
  {
    hide Words, Storable, Record, Fits, RecordWords;
    var before, last := ts[..|ts| - 1], ts[|ts| - 1];
    if i < |ts| - 1 {
      SectionRecords(before, i);
      Extends(Section(before), Starts(before), i, Words(last), [|Section(before)|]);
    } else {
      RecordIsWords(last);
      AtEnd(Section(before), Starts(before), Words(last));
    }
  }

  lemma AtEnd(ws: seq<u32>, offs: seq<nat>, rec: seq<u32>)
    requires |rec| >= 3 && RecordWords(rec[1]) == Some(|rec|)
    ensures var o := offs + [|ws|]; Fits(ws + rec, o, |offs|) && Record(ws + rec, o, |offs|) == rec
  {
    assert (ws + rec)[|ws| + 1] == rec[1];
    assert (ws + rec)[|ws|..|ws| + |rec|] == rec;
  }

  lemma SectionFits(ts: seq<BtfType>)
    requires AllStorable(ts)
    ensures AllFit(Section(ts), Starts(ts))
  {
    hide Section, Starts, Fits, AllStorable;
    forall i | 0 <= i < |ts| ensures Fits(Section(ts), Starts(ts), i) {
      SectionRecords(ts, i);
    }
  }

  lemma SectionMore(ts: seq<BtfType>, t: BtfType)
    ensures Section(ts + [t]) == Section(ts) + Words(t) && Starts(ts + [t]) == Starts(ts) + [|Section(ts)|]
  {
    hide Words;
    assert (ts + [t])[..|ts|] == ts;
  }

  lemma KeptTypesStep(ts: seq<BtfType>, canon: seq<nat>, i: nat)
    requires i < |ts|
    ensures KeptTypes(ts, canon, i + 1) == KeptTypes(ts, canon, i) + if Keep(canon, i) then [ts[i]] else []
    ensures !Keep(canon, i) ==> KeptTypes(ts, canon, i + 1) == KeptTypes(ts, canon, i)
  {
  }

  /** The kept words of a section of descriptors are the section of the kept descriptors. */
  lemma {:induction false} KeptSection(ts: seq<BtfType>, canon: seq<nat>, n: nat)
    requires AllStorable(ts) && n <= |ts|
    ensures AllFit(Section(ts), Starts(ts))
    ensures KeptWords(Section(ts), Starts(ts), canon, n) == Section(KeptTypes(ts, canon, n))
    ensures KeptOffs(Section(ts), Starts(ts), canon, n) == Starts(KeptTypes(ts, canon, n))
  {
    hide Words, Record, Fits, AllStorable, AllFit, Keep;
    SectionFits(ts);
    if n > 0 {
      KeptSection(ts, canon, n - 1);
      SectionRecords(ts, n - 1);
      hide KeptWords, KeptOffs, KeptTypes, Section, Starts;
      KeptStep(Section(ts), Starts(ts), canon, n - 1);
      KeptTypesStep(ts, canon, n - 1);
      SectionMore(KeptTypes(ts, canon, n - 1), ts[n - 1]);
    }
  }

  /** Kept descriptors and kept records correspond. */
  lemma {:induction false} KeptTypesAre(ts: seq<BtfType>, canon: seq<nat>, n: nat)
    requires n <= |ts|
    ensures |KeptTypes(ts, canon, n)| == |KeptIndices(canon, n)|
    ensures forall k :: 0 <= k < |KeptIndices(canon, n)| ==> KeptTypes(ts, canon, n)[k] == ts[KeptIndices(canon, n)[k]]
  {
    if n > 0 {
      KeptTypesAre(ts, canon, n - 1);
    }
  }

  /** Record `k` of the compacted section is, word for word, the record of the `k`-th
      kept type. */
  lemma {:induction false} KeptRecords(ws: seq<u32>, offs: seq<nat>, canon: seq<nat>, n: nat, k: nat)
    requires AllFit(ws, offs) && n <= |offs| && k < |KeptIndices(canon, n)|
    ensures Fits(ws, offs, KeptIndices(canon, n)[k])
    ensures var out, outOffs := KeptWords(ws, offs, canon, n), KeptOffs(ws, offs, canon, n);
            && Fits(out, outOffs, k)
            && Record(out, outOffs, k) == Record(ws, offs, KeptIndices(canon, n)[k])
  {
    hide KeptWords, KeptOffs, KeptIndices, RecordWords, Record, Fits;
    KeptStep(ws, offs, canon, n - 1);
    var out, outOffs := KeptWords(ws, offs, canon, n - 1), KeptOffs(ws, offs, canon, n - 1);
    if k < |KeptIndices(canon, n - 1)| {
      KeptRecords(ws, offs, canon, n - 1, k);
      if Keep(canon, n - 1) {
        Extends(out, outOffs, k, Record(ws, offs, n - 1), [|out|]);
      }
    } else {
      LastRecord(out, outOffs, ws, offs, n - 1);
    }
  }

  lemma LastRecord(out: seq<u32>, outOffs: seq<nat>, ws: seq<u32>, offs: seq<nat>, i: nat)
    requires i < |offs| && Fits(ws, offs, i)
    ensures var rec, o := Record(ws, offs, i), outOffs + [|out|];
            Fits(out + rec, o, |outOffs|) && Record(out + rec, o, |outOffs|) == rec
  {
    AtEnd(out, outOffs, Record(ws, offs, i));
  }

  lemma Extends(ws: seq<u32>, offs: seq<nat>, k: nat, rec: seq<u32>, more: seq<nat>)
    requires k < |offs| && Fits(ws, offs, k)
    ensures Fits(ws + rec, offs + more, k) && Record(ws + rec, offs + more, k) == Record(ws, offs, k)
  {
    assert (ws + rec)[offs[k] + 1] == ws[offs[k] + 1];
  }

  // ---------------------------------------------------------------------------
  // In place

  /** `memmove` to a lower position. */
  method MoveDown(buf: array<u32>, dst: nat, src: nat, len: nat)
    requires dst <= src && src + len <= buf.Length
    modifies buf
    ensures buf[..] == old(buf[..dst] + buf[src..src + len] + buf[dst + len..])
  {
    ghost var was := buf[..];
    NothingMoved(was, dst, src);
    hide Moved;
    for i := 0 to len
      invariant buf[..] == Moved(was, dst, src, i)
    {
      MoveStep(was, dst, src, i);
      ghost var now := buf[..];
      assert buf[src + i] == now[src + i];
      buf[dst + i] := buf[src + i];
      assert buf[..] == now[dst + i := was[src + i]];
    }
    MovedIs(was, dst, src, len);
  }

  /** The first `i` words moved. */
  function Moved<T>(was: seq<T>, dst: nat, src: nat, i: nat): seq<T>
    requires dst <= src && src + i <= |was|
  {
    was[..dst] + was[src..src + i] + was[dst + i..]
  }

  lemma NothingMoved<T>(was: seq<T>, dst: nat, src: nat)
    requires dst <= src <= |was|
    ensures Moved(was, dst, src, 0) == was
  {
  }

  lemma MovedIs<T>(was: seq<T>, dst: nat, src: nat, n: nat)
    requires dst <= src && src + n <= |was|
    ensures Moved(was, dst, src, n) == was[..dst] + was[src..src + n] + was[dst + n..]
  {
  }

  lemma MovedAt<T>(was: seq<T>, dst: nat, src: nat, i: nat, j: nat)
    requires dst <= src && src + i <= |was| && j < |was|
    ensures |Moved(was, dst, src, i)| == |was|
    ensures Moved(was, dst, src, i)[j] == if dst <= j < dst + i then was[src + (j - dst)] else was[j]
  {
  }

  lemma MoveStep<T>(was: seq<T>, dst: nat, src: nat, i: nat)
    requires dst <= src && src + i < |was|
    ensures var now := Moved(was, dst, src, i);
            && |now| == |was| && now[src + i] == was[src + i]
            && now[dst + i := was[src + i]] == Moved(was, dst, src, i + 1)
  {
    var now, next := Moved(was, dst, src, i), Moved(was, dst, src, i + 1);
    MovedAt(was, dst, src, i, src + i);
    MovedAt(was, dst, src, i + 1, src + i);
    hide Moved;
    forall j | 0 <= j < |was| ensures now[dst + i := was[src + i]][j] == next[j] {
      MovedAt(was, dst, src, i, j);
      MovedAt(was, dst, src, i + 1, j);
    }
  }

  /** The buffer and the index when `i` types have been looked at: what is kept of them
      first, and everything from type `i` on still where it was. */
  ghost predicate Halfway(ws: seq<u32>, offs: seq<nat>, canon: seq<nat>, now: seq<u32>, nowOffs: seq<nat>, i: nat)
    requires AllFit(ws, offs)
  {
    && i <= |offs| == |nowOffs| && |now| == |ws|
    && KeptWords(ws, offs, canon, i) <= now
    && KeptOffs(ws, offs, canon, i) <= nowOffs
    && nowOffs[i..] == offs[i..]
    && (i < |offs| ==> Fits(ws, offs, i) && now[offs[i]..] == ws[offs[i]..])
  }

  lemma HalfwayBegins(ws: seq<u32>, offs: seq<nat>, canon: seq<nat>)
    requires forall i :: 0 <= i < |offs| ==> Fits(ws, offs, i)
    ensures AllFit(ws, offs) && Halfway(ws, offs, canon, ws, offs, 0)
    ensures KeptWords(ws, offs, canon, 0) == [] && KeptOffs(ws, offs, canon, 0) == []
  {
  }

  lemma HalfwayEnds(ws: seq<u32>, offs: seq<nat>, canon: seq<nat>, now: seq<u32>, nowOffs: seq<nat>)
    requires AllFit(ws, offs) && Halfway(ws, offs, canon, now, nowOffs, |offs|)
    ensures var p, n := |KeptWords(ws, offs, canon, |offs|)|, |KeptOffs(ws, offs, canon, |offs|)|;
            && p <= |now| && now[..p] == KeptWords(ws, offs, canon, |offs|)
            && n <= |nowOffs| && nowOffs[..n] == KeptOffs(ws, offs, canon, |offs|)
  {
    hide KeptWords, KeptOffs;
  }

  /** What type `i` looks like when its turn comes, and where it can go. */
  lemma HalfwaySees(ws: seq<u32>, offs: seq<nat>, canon: seq<nat>, now: seq<u32>, nowOffs: seq<nat>, i: nat)
    requires Parse(ws, 0) == Some(offs) && AllFit(ws, offs) && Halfway(ws, offs, canon, now, nowOffs, i) && i < |offs|
    ensures Fits(ws, offs, i) && nowOffs[i] == offs[i] && now[offs[i] + 1] == ws[offs[i] + 1]
    ensures |KeptWords(ws, offs, canon, i)| <= offs[i] && |KeptOffs(ws, offs, canon, i)| <= i
    ensures var n := RecordWords(ws[offs[i] + 1]).value;
            now[offs[i]..offs[i] + n] == Record(ws, offs, i) && (i + 1 < |offs| ==> offs[i + 1] == offs[i] + n)
  {
    KeptBelow(ws, offs, canon, i);
    assert Fits(ws, offs, i);
    hide KeptWords, KeptOffs, KeptIndices, Parse, RecordWords, AllFit;
    NextBelow(ws, offs, i + 1);
    var at, n := offs[i], RecordWords(ws[offs[i] + 1]).value;
    assert nowOffs[i..][0] == nowOffs[i] && offs[i..][0] == offs[i];
    SameTail(now, ws, at, n);
  }

  lemma SameTail(a: seq<u32>, b: seq<u32>, at: nat, n: nat)
    requires |a| == |b| && at + n <= |a| && 3 <= n && a[at..] == b[at..]
    ensures a[at + 1] == b[at + 1] && a[at..at + n] == b[at..at + n]
  {
    assert a[at..][1] == a[at + 1] && b[at..][1] == b[at + 1];
    assert a[at..at + n] == a[at..][..n] && b[at..at + n] == b[at..][..n];
  }

  lemma HalfwaySkips(ws: seq<u32>, offs: seq<nat>, canon: seq<nat>, now: seq<u32>, nowOffs: seq<nat>, i: nat)
    requires Parse(ws, 0) == Some(offs) && AllFit(ws, offs) && Halfway(ws, offs, canon, now, nowOffs, i) && i < |offs|
    requires !Keep(canon, i)
    ensures Halfway(ws, offs, canon, now, nowOffs, i + 1)
    ensures |KeptWords(ws, offs, canon, i + 1)| == |KeptWords(ws, offs, canon, i)|
    ensures |KeptOffs(ws, offs, canon, i + 1)| == |KeptOffs(ws, offs, canon, i)|
  {
    HalfwaySees(ws, offs, canon, now, nowOffs, i);
    assert nowOffs[i + 1..] == nowOffs[i..][1..] && offs[i + 1..] == offs[i..][1..];
    if i + 1 < |offs| {
      var n := offs[i + 1] - offs[i];
      assert Fits(ws, offs, i + 1);
      assert now[offs[i + 1]..] == now[offs[i]..][n..] && ws[offs[i + 1]..] == ws[offs[i]..][n..];
    }
  }

  lemma HalfwayMoves(ws: seq<u32>, offs: seq<nat>, canon: seq<nat>, now: seq<u32>, nowOffs: seq<nat>, i: nat,
                     now': seq<u32>, nowOffs': seq<nat>)
    requires Parse(ws, 0) == Some(offs) && AllFit(ws, offs) && Halfway(ws, offs, canon, now, nowOffs, i) && i < |offs|
    requires Keep(canon, i) && Fits(ws, offs, i)
    requires var p, n := |KeptWords(ws, offs, canon, i)|, RecordWords(ws[offs[i] + 1]).value;
             p <= offs[i] && offs[i] + n <= |now| && now' == now[..p] + now[offs[i]..offs[i] + n] + now[p + n..]
    requires var k := |KeptOffs(ws, offs, canon, i)|;
             k <= i && nowOffs' == nowOffs[k := |KeptWords(ws, offs, canon, i)|]
    ensures Halfway(ws, offs, canon, now', nowOffs', i + 1)
    ensures |KeptWords(ws, offs, canon, i + 1)| == |KeptWords(ws, offs, canon, i)| + RecordWords(ws[offs[i] + 1]).value
    ensures |KeptOffs(ws, offs, canon, i + 1)| == |KeptOffs(ws, offs, canon, i)| + 1
  {
    HalfwaySees(ws, offs, canon, now, nowOffs, i);
    var kept, rec := KeptWords(ws, offs, canon, i), Record(ws, offs, i);
    var p, n, k := |kept|, |rec|, |KeptOffs(ws, offs, canon, i)|;
    assert now'[..p + n] == kept + rec;
    assert nowOffs'[..k + 1] == KeptOffs(ws, offs, canon, i) + [p];
    assert nowOffs'[i + 1..] == nowOffs[i..][1..] && offs[i + 1..] == offs[i..][1..];
    if i + 1 < |offs| {
      assert Fits(ws, offs, i + 1);
      assert now'[offs[i + 1]..] == now[offs[i]..][n..] && ws[offs[i + 1]..] == ws[offs[i]..][n..];
    }
  }

  /** One type: nothing if it is not kept, else its words are moved down to `p` and its
      place noted in slot `next`. */
  method CompactOne(buf: array<u32>, offs: array<nat>, canon: seq<nat>, p: nat, next: nat, i: nat,
                    ghost ws: seq<u32>, ghost os: seq<nat>)
    returns (p': nat, next': nat)
    requires Parse(ws, 0) == Some(os) && AllFit(ws, os) && i < |os| == offs.Length && |canon| == offs.Length + 1
    requires Halfway(ws, os, canon, buf[..], offs[..], i)
    requires p == |KeptWords(ws, os, canon, i)| && next == |KeptOffs(ws, os, canon, i)|
    modifies buf, offs
    ensures Halfway(ws, os, canon, buf[..], offs[..], i + 1)
    ensures p' == |KeptWords(ws, os, canon, i + 1)| && next' == |KeptOffs(ws, os, canon, i + 1)|
  {
    ghost var now, nowOffs := buf[..], offs[..];
    HalfwaySees(ws, os, canon, now, nowOffs, i);
    if canon[i + 1] != i + 1 {
      HalfwaySkips(ws, os, canon, now, nowOffs, i);
      return p, next;
    }
    assert Fits(ws, os, i) && Keep(canon, i) && |buf[..]| == |ws|;
    hide KeptWords, KeptOffs, Record, RecordWords, Parse, Halfway, AllFit;
    var at := offs[i];
    var len := RecordWords(buf[at + 1]).value;
    MoveDown(buf, p, at, len);
    offs[next] := p;
    HalfwayMoves(ws, os, canon, now, nowOffs, i, buf[..], offs[..]);
    return p + len, next + 1;
  }

  /** Compacts the types.  What is left is a well-formed section of exactly the kept
      records, in their order, with its index; see `KeptRecords`.  The words of descriptors
      become the words of the descriptors that are kept. */
  method CompactTypes(buf: array<u32>, offs: array<nat>, canon: seq<nat>) returns (nrTypes: nat, typeLen: nat)
    requires Parse(buf[..], 0) == Some(offs[..]) && |canon| == offs.Length + 1
    modifies buf, offs
    ensures AllFit(old(buf[..]), old(offs[..]))
    ensures typeLen <= buf.Length && buf[..typeLen] == KeptWords(old(buf[..]), old(offs[..]), canon, offs.Length)
    ensures nrTypes <= offs.Length && offs[..nrTypes] == KeptOffs(old(buf[..]), old(offs[..]), canon, offs.Length)
    ensures Parse(buf[..typeLen], 0) == Some(offs[..nrTypes])
    ensures forall ts :: AllStorable(ts) && old(buf[..]) == Section(ts) ==>
              && |ts| == offs.Length && buf[..typeLen] == Section(KeptTypes(ts, canon, |ts|))
              && offs[..nrTypes] == Starts(KeptTypes(ts, canon, |ts|))
  {
    hide *;
    ghost var ws, os := buf[..], offs[..];
    assert os[0..] == os;
    ParseFits(ws, os, 0, 0);
    HalfwayBegins(ws, os, canon);
    var p: nat, next: nat := 0, 0;
    for i := 0 to offs.Length
      invariant Halfway(ws, os, canon, buf[..], offs[..], i)
      invariant p == |KeptWords(ws, os, canon, i)| && next == |KeptOffs(ws, os, canon, i)|
    {
      p, next := CompactOne(buf, offs, canon, p, next, i, ws, os);
    }
    HalfwayEnds(ws, os, canon, buf[..], offs[..]);
    KeptParses(ws, os, canon, |os|);
    forall ts | AllStorable(ts) && ws == Section(ts)
      ensures |ts| == |os| && KeptWords(ws, os, canon, |os|) == Section(KeptTypes(ts, canon, |ts|))
      ensures KeptOffs(ws, os, canon, |os|) == Starts(KeptTypes(ts, canon, |ts|))
    {
      SectionParses(ts);
      KeptSection(ts, canon, |ts|);
    }
    return next, p;
  }
}
