/** The BTF string section: NUL-terminated strings addressed by offset, and the
    interning that string deduplication and `btf__add_str` share. */
module BtfStrings {

  const NUL: char := '\0'
  const BTF_MAX_STR_OFFSET: int := 0x7fff_ffff
  const ENOMEM: int := 12

  /** A section that starts with the empty string and ends a string. */
  predicate Terminated(strs: string) {
    |strs| > 0 && strs[0] == NUL && strs[|strs| - 1] == NUL
  }

  predicate NoNul(s: string) { NUL !in s }

  /** The C string at an offset. */
  function CStr(strs: string, off: nat): (s: string)
    requires |strs| > 0 && strs[|strs| - 1] == NUL && off < |strs|
    ensures NoNul(s) && off + |s| < |strs|
    decreases |strs| - off
  {
    if strs[off] == NUL then "" else [strs[off]] + CStr(strs, off + 1)
  }

  /** Appending to a section leaves every string in it readable at its offset. */
  lemma {:induction false} CStrKept(strs: string, more: string, off: nat)
    requires |strs| > 0 && strs[|strs| - 1] == NUL && off < |strs|
    requires more == [] || more[|more| - 1] == NUL
    ensures CStr(strs + more, off) == CStr(strs, off)
    decreases |strs| - off
  {
    assert (strs + more)[off] == strs[off];
    if strs[off] != NUL {
      CStrKept(strs, more, off + 1);
    }
  }

  /** A string appended with its terminator is found where it was put. */
  lemma {:induction false} CStrAppended(strs: string, s: string)
    requires NoNul(s)
    ensures CStr(strs + s + [NUL], |strs|) == s
    decreases |s|
  {
    var t := strs + s + [NUL];
    if s != "" {
      assert s[0] in s && forall c :: c in s[1..] ==> c in s;
      assert strs + [s[0]] + s[1..] + [NUL] == t;
      CStrAppended(strs + [s[0]], s[1..]);
    }
  }

  class StringTable {
    /** The strings emitted so far. */
    var data: string
    /** The offset each distinct string was first stored at. */
    var index: map<string, nat>

    ghost predicate Valid()
      reads this
    {
      && Terminated(data)
      && "" in index && index[""] == 0
      && (forall s :: s in index ==> index[s] < |data| && CStr(data, index[s]) == s)
    }

    constructor ()
      ensures Valid() && index.Keys == {""}
    {
      data := [NUL];
      index := map["" := 0];
    }

    /** Interns `s`: the offset it already has, or a fresh one at the end. */
    method Add(s: string) returns (off: int)
      requires Valid() && NoNul(s)
      modifies this
      ensures Valid()
      ensures off < 0 <==> old(|data|) + |s| + 1 > BTF_MAX_STR_OFFSET
      ensures off < 0 ==> off == -ENOMEM && data == old(data) && index == old(index)
      ensures off >= 0 ==> s in index && off == index[s] && CStr(data, index[s]) == s
      ensures s in old(index) ==> data == old(data) && index == old(index)
      ensures off >= 0 && s !in old(index) ==> off == old(|data|) && data == old(data) + s + [NUL]
      ensures old(index.Keys) <= index.Keys <= old(index.Keys) + {s}
      ensures forall t :: t in old(index) ==> index[t] == old(index[t])
      ensures forall o :: 0 <= o < old(|data|) ==> o < |data| && CStr(data, o) == old(CStr(data, o))
    {
      var len := |s| + 1;
      if |data| + len > BTF_MAX_STR_OFFSET {
        return -ENOMEM;
      }
      if s in index {
        return index[s];
      }
      ghost var before := data;
      off := |data|;
      data := data + s + [NUL];
      index := index[s := off];
      assert data == before + (s + [NUL]);
      forall o | 0 <= o < |before| ensures CStr(data, o) == CStr(before, o) {
        CStrKept(before, s + [NUL], o);
      }
      CStrAppended(before, s);
    }
  }
}
