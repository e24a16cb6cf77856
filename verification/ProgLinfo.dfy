/** The index from JIT-compiled functions to their line records, and the lookups by
    address and by instruction. */
module ProgLinfo {
  import opened Options

  const WORD: nat := 0x1_0000_0000_0000_0000

  function U64(x: int): nat { x % WORD }

  /** Run `f` of line records: it starts where the function does, its addresses go up,
      none of them is the next function's, and its last one is inside the function. */
  ghost predicate RunOk(jited: seq<nat>, ksym: seq<nat>, lens: seq<nat>, idx: seq<nat>, f: nat)
    requires |ksym| == |lens| == |idx| && f + 1 < |idx|
  {
    && idx[f] < idx[f + 1] < |jited|
    && jited[idx[f + 1]] == ksym[f + 1]
    && (forall i :: idx[f] < i < idx[f + 1] ==> jited[i] != ksym[f + 1] && jited[i - 1] < jited[i])
    && U64((jited[idx[f + 1] - 1] as int) - ksym[f] + 1) <= lens[f]
  }

  /** Start positions that split the records into one run a function.  Nothing is asked
      of the last run but its start. */
  ghost predicate Splits(jited: seq<nat>, ksym: seq<nat>, lens: seq<nat>, idx: seq<nat>) {
    && |ksym| == |lens| == |idx| > 0 && jited != []
    && idx[0] == 0 && jited[0] == ksym[0]
    && (forall f :: 0 <= f < |idx| - 1 ==> RunOk(jited, ksym, lens, idx, f))
  }

  /** Any split agrees with the first `f` starts found and has the next one at `i` or
      later. */
  ghost predicate Agrees(idx: seq<nat>, cur: seq<nat>, f: nat, i: nat)
    requires f <= |idx| == |cur|
  {
    idx[..f] == cur[..f] && (f < |idx| ==> i <= idx[f])
  }

  lemma NextRecord(jited: seq<nat>, ksym: seq<nat>, lens: seq<nat>, idx: seq<nat>, cur: seq<nat>, f: nat, i: nat)
    requires Splits(jited, ksym, lens, idx) && |cur| == |idx| && 0 < f < |idx| && i < |jited| && cur[f - 1] < i
    requires Agrees(idx, cur, f, i)
    ensures jited[i] == ksym[f] ==>
              U64((jited[i - 1] as int) - ksym[f - 1] + 1) <= lens[f - 1] && Agrees(idx, cur[f := i], f + 1, i + 1)
    ensures jited[i] != ksym[f] ==> jited[i - 1] < jited[i] && Agrees(idx, cur, f, i + 1)
  {
    assert RunOk(jited, ksym, lens, idx, f - 1);
    assert idx[f - 1] == idx[..f][f - 1] == cur[f - 1];
    if jited[i] == ksym[f] {
      assert idx[f] == i;
      assert idx[..f + 1] == idx[..f] + [i] && cur[f := i][..f + 1] == cur[..f] + [i];
      if f + 1 < |idx| {
        assert RunOk(jited, ksym, lens, idx, f);
      }
    }
  }

  lemma AtFirst(jited: seq<nat>, ksym: seq<nat>, lens: seq<nat>, idx: seq<nat>, cur: seq<nat>)
    requires Splits(jited, ksym, lens, idx) && |cur| == |idx| && cur[0] == 0
    ensures Agrees(idx, cur, 1, 1)
  {
    assert idx[..1] == [0] == cur[..1];
    if 1 < |idx| {
      assert RunOk(jited, ksym, lens, idx, 0);
    }
  }

  lemma StartsInside(jited: seq<nat>, ksym: seq<nat>, lens: seq<nat>, idx: seq<nat>, f: nat)
    requires Splits(jited, ksym, lens, idx) && 0 < f < |idx|
    ensures idx[f] < |jited|
  {
    assert RunOk(jited, ksym, lens, idx, f - 1);
  }

  /** A run is settled by its own two starts. */
  lemma RunOkLocal(jited: seq<nat>, ksym: seq<nat>, lens: seq<nat>, idx: seq<nat>, idx': seq<nat>, f: nat)
    requires |ksym| == |lens| == |idx| == |idx'| && f + 1 < |idx| && idx[f] == idx'[f] && idx[f + 1] == idx'[f + 1]
    ensures RunOk(jited, ksym, lens, idx, f) <==> RunOk(jited, ksym, lens, idx', f)
  {
  }

  /** The state of a dissection: `f` functions found, the last of them at `prev`, and
      records below `i` looked at. */
  ghost predicate Progress(jited: seq<nat>, ksym: seq<nat>, lens: seq<nat>, cur: seq<nat>, nr: seq<nat>,
                           prev: nat, i: nat, f: nat)
  {
    && |ksym| == |lens| == |cur| == |nr| && 1 <= f <= |ksym|
    && prev < i <= |jited| && cur[0] == 0 && cur[f - 1] == prev && jited[0] == ksym[0]
    && (forall g :: 0 <= g < f - 1 ==> RunOk(jited, ksym, lens, cur, g) && cur[g] + nr[g] == cur[g + 1])
    && (f < |ksym| ==> forall n :: prev < n < i ==> jited[n] != ksym[f] && jited[n - 1] < jited[n])
    && (forall idx :: Splits(jited, ksym, lens, idx) ==> Agrees(idx, cur, f, i))
  }

  lemma ProgressStarts(jited: seq<nat>, ksym: seq<nat>, lens: seq<nat>, cur: seq<nat>, nr: seq<nat>)
    requires |ksym| == |lens| == |cur| == |nr| > 0 && jited != [] && cur[0] == 0 && jited[0] == ksym[0]
    ensures Progress(jited, ksym, lens, cur, nr, 0, 1, 1)
  {
    forall idx | Splits(jited, ksym, lens, idx) ensures Agrees(idx, cur, 1, 1) {
      AtFirst(jited, ksym, lens, idx, cur);
    }
  }

  /** The record at `i` starts the next function, or goes on with this one, or shows that
      there is no split. */
  lemma ProgressGoesOn(jited: seq<nat>, ksym: seq<nat>, lens: seq<nat>, cur: seq<nat>, nr: seq<nat>,
                       prev: nat, i: nat, f: nat)
    requires Progress(jited, ksym, lens, cur, nr, prev, i, f) && i < |jited| && f < |ksym|
    ensures var inside := U64((jited[i - 1] as int) - ksym[f - 1] + 1) <= lens[f - 1];
            if jited[i] == ksym[f] then
              if inside then Progress(jited, ksym, lens, cur[f := i], nr[f - 1 := i - prev], i, i + 1, f + 1)
              else forall idx :: !Splits(jited, ksym, lens, idx)
            else if jited[i - 1] < jited[i] then Progress(jited, ksym, lens, cur, nr, prev, i + 1, f)
            else forall idx :: !Splits(jited, ksym, lens, idx)
  {
    forall idx | Splits(jited, ksym, lens, idx)
      ensures jited[i] == ksym[f] ==>
                U64((jited[i - 1] as int) - ksym[f - 1] + 1) <= lens[f - 1] && Agrees(idx, cur[f := i], f + 1, i + 1)
      ensures jited[i] != ksym[f] ==> jited[i - 1] < jited[i] && Agrees(idx, cur, f, i + 1)
    {
      NextRecord(jited, ksym, lens, idx, cur, f, i);
    }
    if jited[i] == ksym[f] && U64((jited[i - 1] as int) - ksym[f - 1] + 1) <= lens[f - 1] {
      var cur', nr' := cur[f := i], nr[f - 1 := (i - prev) as nat];
      forall g | 0 <= g < f - 1 ensures RunOk(jited, ksym, lens, cur', g) && cur'[g] + nr'[g] == cur'[g + 1] {
        RunOkLocal(jited, ksym, lens, cur, cur', g);
      }
      assert RunOk(jited, ksym, lens, cur', f - 1);
    }
  }

  lemma ProgressEnds(jited: seq<nat>, ksym: seq<nat>, lens: seq<nat>, cur: seq<nat>, nr: seq<nat>,
                     prev: nat, i: nat, f: nat)
    requires Progress(jited, ksym, lens, cur, nr, prev, i, f) && (i == |jited| || f == |ksym|)
    ensures f != |ksym| ==> forall idx :: !Splits(jited, ksym, lens, idx)
    ensures f == |ksym| ==>
              && Splits(jited, ksym, lens, cur)
              && (forall idx :: Splits(jited, ksym, lens, idx) ==> idx == cur)
              && Partition(cur, nr[f - 1 := |jited| - prev], |jited|)
  {
    forall idx | Splits(jited, ksym, lens, idx) ensures f == |ksym| && idx == cur {
      if f < |ksym| {
        StartsInside(jited, ksym, lens, idx, f);
      } else {
        assert idx[..f] == idx && cur[..f] == cur;
      }
    }
    if f == |ksym| {
      var nr' := nr[f - 1 := |jited| - prev];
      forall g | 0 <= g < f ensures Abuts(cur, nr', |jited|, g) {
        if g < f - 1 {
          assert RunOk(jited, ksym, lens, cur, g);
        }
      }
    }
  }

  lemma NoStart(jited: seq<nat>, ksym: seq<nat>, lens: seq<nat>)
    requires |ksym| > 0 && jited != [] && ksym[0] != jited[0]
    ensures forall idx :: !Splits(jited, ksym, lens, idx)
  {
  }

  /** Run `f` is not empty and ends where the next begins. */
  predicate Abuts(idx: seq<nat>, nr: seq<nat>, n: nat, f: nat)
    requires f < |idx| == |nr|
  {
    nr[f] > 0 && idx[f] + nr[f] == (if f + 1 < |idx| then idx[f + 1] else n) && idx[f] + nr[f] <= n
  }

  /** Consecutive runs that are not empty, from the first record to the last. */
  ghost predicate Partition(idx: seq<nat>, nr: seq<nat>, n: nat) {
    |idx| == |nr| && (idx != [] ==> idx[0] == 0) && forall f :: 0 <= f < |idx| ==> Abuts(idx, nr, n, f)
  }

  class Linfo {
    /** Instruction offsets of the records, and their JIT addresses. */
    const insnOff: seq<nat>
    const jited: seq<nat>
    const nrPerFunc: array<nat>
    const funcIdx: array<nat>
    const nrJitedFunc: nat

    constructor (insnOff: seq<nat>, jited: seq<nat>, nrJitedFunc: nat)
      ensures this.insnOff == insnOff && this.jited == jited && this.nrJitedFunc == nrJitedFunc
      ensures nrPerFunc.Length == funcIdx.Length == nrJitedFunc && fresh(nrPerFunc) && fresh(funcIdx)
    {
      this.insnOff, this.jited, this.nrJitedFunc := insnOff, jited, nrJitedFunc;
      nrPerFunc := new nat[nrJitedFunc](_ => 0);
      funcIdx := new nat[nrJitedFunc](_ => 0);
    }

    /** The index as a successful dissection leaves it. */
    ghost predicate Dissected()
      reads funcIdx, nrPerFunc
    {
      && nrPerFunc.Length == funcIdx.Length == nrJitedFunc
      && Partition(funcIdx[..], nrPerFunc[..], |jited|)
      && forall f :: 0 <= f < nrJitedFunc ==> funcIdx[f] + nrPerFunc[f] <= |jited|
    }

    lemma IsDissected()
      requires nrPerFunc.Length == funcIdx.Length == nrJitedFunc && Partition(funcIdx[..], nrPerFunc[..], |jited|)
      ensures Dissected()
    {
      forall f | 0 <= f < nrJitedFunc ensures funcIdx[f] + nrPerFunc[f] <= |jited| {
        assert Abuts(funcIdx[..], nrPerFunc[..], |jited|, f);
      }
    }

    /** Fills the index.  It succeeds exactly if there is a way to split the records, and
        there is then only the one found. */
    method Dissect(ksym: seq<nat>, lens: seq<nat>) returns (ok: bool)
      requires nrPerFunc != funcIdx && nrPerFunc.Length == funcIdx.Length == nrJitedFunc == |ksym| == |lens|
      requires nrJitedFunc > 0 && jited != []
      modifies nrPerFunc, funcIdx
      ensures ok ==> Dissected() && Splits(jited, ksym, lens, funcIdx[..])
      ensures ok ==> forall idx :: Splits(jited, ksym, lens, idx) ==> idx == funcIdx[..]
      ensures !ok ==> forall idx :: !Splits(jited, ksym, lens, idx)
    {
      hide *;
      if ksym[0] != jited[0] {
        NoStart(jited, ksym, lens);
        return false;
      }
      funcIdx[0] := 0;
      var prev: nat, i: nat, f: nat := 0, 1, 1;
      ProgressStarts(jited, ksym, lens, funcIdx[..], nrPerFunc[..]);
      while i < |jited| && f < nrJitedFunc
        invariant 0 <= prev < i <= |jited| && 1 <= f <= nrJitedFunc
        invariant Progress(jited, ksym, lens, funcIdx[..], nrPerFunc[..], prev, i, f)
        decreases |jited| - i
      {
        ghost var cur, nr := funcIdx[..], nrPerFunc[..];
        ProgressGoesOn(jited, ksym, lens, cur, nr, prev, i, f);
        var last := jited[i - 1];
        if ksym[f] == jited[i] {
          funcIdx[f] := i;
          if U64((last as int) - ksym[f - 1] + 1) > lens[f - 1] {
            return false;
          }
          nrPerFunc[f - 1] := i - prev;
          assert funcIdx[..] == cur[f := i] && nrPerFunc[..] == nr[f - 1 := (i - prev) as nat];
          prev := i;
          f := f + 1;
        } else if jited[i] <= last {
          return false;
        }
        i := i + 1;
      }
      ghost var nr := nrPerFunc[..];
      ProgressEnds(jited, ksym, lens, funcIdx[..], nr, prev, i, f);
      if f != nrJitedFunc {
        return false;
      }
      nrPerFunc[nrJitedFunc - 1] := |jited| - prev;
      assert nrPerFunc[..] == nr[f - 1 := (|jited| - prev) as nat];
      IsDissected();
      return true;
    }

    /** The record for an address in a function, past the first `skip` of its run. */
    method LfindAddrFunc(addr: nat, func: nat, skip: nat) returns (r: Option<nat>)
      requires Dissected()
      ensures r == None <==>
                func >= nrJitedFunc || skip >= nrPerFunc[func] || addr < jited[funcIdx[func] + skip]
      ensures r.Some? ==>
                && funcIdx[func] + skip <= r.value < funcIdx[func] + nrPerFunc[func]
                && (forall p :: funcIdx[func] + skip <= p <= r.value ==> jited[p] <= addr)
                && (r.value + 1 == funcIdx[func] + nrPerFunc[func] || addr < jited[r.value + 1])
    {
      if func >= nrJitedFunc {
        return None;
      }
      var nr := nrPerFunc[func];
      if skip >= nr {
        return None;
      }
      var start := funcIdx[func] + skip;
      if addr < jited[start] {
        return None;
      }
      nr := nr - skip;
      var i, raw := 0, start;
      while i < nr
        invariant 0 <= i <= nr && raw == start + i
        invariant forall p :: start <= p < raw ==> jited[p] <= addr
      {
        if addr < jited[raw] {
          break;
        }
        raw := raw + 1;
        i := i + 1;
      }
      return Some(raw - 1);
    }

    /** The record for an instruction, past the first `skip`: the last one before the
        first that starts later. */
    method Lfind(off: nat, skip: nat) returns (r: Option<nat>)
      ensures r == None <==> skip >= |insnOff| || off < insnOff[skip]
      ensures r.Some? ==>
                && skip <= r.value < |insnOff|
                && (forall p :: skip <= p <= r.value ==> insnOff[p] <= off)
                && (r.value + 1 == |insnOff| || off < insnOff[r.value + 1])
    {
      var nr := |insnOff|;
      if skip >= nr {
        return None;
      }
      if off < insnOff[skip] {
        return None;
      }
      nr := nr - skip;
      var i, raw := 0, skip;
      while i < nr
        invariant 0 <= i <= nr && raw == skip + i
        invariant forall p :: skip <= p < raw ==> insnOff[p] <= off
      {
        if off < insnOff[raw] {
          break;
        }
        raw := raw + 1;
        i := i + 1;
      }
      return Some(raw - 1);
    }
  }

  /** Inside a function other than the last, addresses go up. */
  lemma {:induction false} RunIncreases(jited: seq<nat>, ksym: seq<nat>, lens: seq<nat>, idx: seq<nat>,
                                        f: nat, p: nat, q: nat)
    requires Splits(jited, ksym, lens, idx) && f + 1 < |idx| && idx[f] <= p < q < idx[f + 1]
    ensures q < |jited| && jited[p] < jited[q]
    decreases q
  {
    assert RunOk(jited, ksym, lens, idx, f);
    if p < q - 1 {
      RunIncreases(jited, ksym, lens, idx, f, p, q - 1);
    }
  }

  /** So there the record that stops the lookup is the only one it can be: all before it
      are at or below the address, all after it above. */
  lemma LookupExact(jited: seq<nat>, ksym: seq<nat>, lens: seq<nat>, idx: seq<nat>, f: nat, addr: nat, r: nat, p: nat)
    requires Splits(jited, ksym, lens, idx) && f + 1 < |idx| && idx[f] <= r < idx[f + 1] && idx[f] <= p < idx[f + 1]
    requires idx[f + 1] <= |jited| && jited[r] <= addr && (r + 1 == idx[f + 1] || addr < jited[r + 1])
    ensures p <= r <==> jited[p] <= addr
  {
    if p < r {
      RunIncreases(jited, ksym, lens, idx, f, p, r);
    } else if r + 1 < p {
      RunIncreases(jited, ksym, lens, idx, f, r + 1, p);
    }
  }
}
