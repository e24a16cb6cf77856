/** `btf__dedup`: string deduplication followed by the passes over the types. */
module BtfDedup {
  import opened BtfTypes
  import opened BtfCompare
  import opened BtfGraph
  import opened BtfAgree
  import opened BtfFields
  import opened BtfStrings
  import opened BtfNames
  import opened BtfNamedAgree
  import opened DedupMap
  import opened DedupState
  import opened DedupRefs
  import opened DedupFields
  import opened DedupRemap
  import opened DedupSpelling
  import Dedup

  /** The new offset of a string offset: the empty string stays put, everything else
      is interned. */
  method RemapStrOff(strs: string, off: nat, table: StringTable) returns (newOff: int)
    requires Terminated(strs) && off < |strs| && table.Valid()
    modifies table
    ensures table.Valid()
    ensures forall s :: s in old(table.index) ==> s in table.index && table.index[s] == old(table.index[s])
    ensures newOff >= 0 ==> CStr(strs, off) in table.index && newOff == table.index[CStr(strs, off)]
    ensures newOff < 0 ==> newOff == -ENOMEM
  {
    if off == 0 {
      return 0;
    }
    newOff := table.Add(CStr(strs, off));
  }

  /** Renames one descriptor, slot by slot: all its names, and nothing else. */
  method RenameType(strs: string, t: BtfType, table: StringTable) returns (r: int, t': BtfType)
    requires NamesIn(strs, t) && table.Valid()
    modifies table
    ensures table.Valid()
    ensures forall s :: s in old(table.index) ==> s in table.index && table.index[s] == old(table.index[s])
    ensures r == 0 ==> RenamesType(strs, table.index, t, t') && Renamed(strs, t, table.data, t')
    ensures r == 0 || r == -ENOMEM
  {
    hide CStr, SetNames, Names, Renamed;
    var ns := Names(t);
    t' := t;
    for j := 0 to |ns|
      invariant table.Valid() && |ns| == |Names(t)|
      invariant forall s :: s in old(table.index) ==> s in table.index && table.index[s] == old(table.index[s])
      invariant forall i :: 0 <= i < j ==>
                  CStr(strs, Names(t)[i]) in table.index && ns[i] == table.index[CStr(strs, Names(t)[i])]
      invariant forall i :: j <= i < |ns| ==> ns[i] == Names(t)[i]
    {
      r := RemapStrOff(strs, ns[j], table);
      if r < 0 {
        return;
      }
      ns := ns[j := r];
    }
    SetNamesSpec(t, ns);
    t' := SetNames(t, ns);
    RenamesFields(strs, table.index, table.data, t, t');
    r := 0;
  }

  /** String deduplication: afterwards every name has the one offset of its string in
      the new section, where it reads as it did; nothing else changes. */
  method DedupStrings(types: array<BtfType>, strs: string) returns (r: int, table: StringTable)
    requires Closed(types[..]) && Named(strs, types[..])
    modifies types
    ensures table.Valid() && fresh(table)
    ensures r == 0 ==> Renames(strs, table.index, old(types[..]), types[..])
    ensures r == 0 ==> FieldsRenamed(strs, old(types[..]), table.data, types[..])
    ensures r == 0 || r == -ENOMEM
  {
    hide FieldsRenamed, Renamed;
    ghost var g0 := types[..];
    table := new StringTable();
    FirstRenamedVoid(strs, table.index, g0);
    for i := 1 to types.Length
      invariant table.Valid() && fresh(table)
      invariant FirstRenamed(strs, table.index, g0, types[..], i)
    {
      ghost var index, g := table.index, types[..];
      assert NamesIn(strs, g0[i]);
      var t;
      r, t := RenameType(strs, types[i], table);
      if r < 0 {
        return;
      }
      FirstRenamedNext(strs, index, table.index, g0, g, i, t);
      types[i] := t;
      assert types[..] == g[i := t];
    }
    RenamesAllFields(strs, table.index, table.data, g0, types[..]);
    r := 0;
  }

  /** Where each input type went, and what that promises. */
  ghost predicate Deduplicates(off: bool, strs: string, g0: Graph, strs': string, out: Graph, newIds: seq<nat>)
    requires Closed(g0)
  {
    && Closed(out)
    && |newIds| == |g0|
    && (forall x :: 0 <= x < |g0| ==> newIds[x] < |out|)
    && (forall k :: 0 <= k < |out| ==> k in newIds)
    && (ForwardsStay(g0, out, newIds) <==> forall k: nat :: SameNamedMeaning(strs, g0, strs', out, newIds, k))
    && (off ==> ForwardsStay(g0, out, newIds))
    && NamedDefinitionsStay(strs, g0, strs', out, newIds)
    && EntriesCarried(strs, g0, strs', out, newIds)
    && VarsCarried(strs, g0, strs', out, newIds)
    && (PlainFwds(g0) ==> NoOutputDuplicates(off, out))
  }

  /** Every output entry is one of the types it stands for, carried over field by field: all names
      read as they did, all type ids are moved to the new ids, and nothing else changes. */
  ghost predicate EntriesCarried(strs: string, g0: Graph, strs': string, out: Graph, newIds: seq<nat>) {
    forall k :: 0 <= k < |out| ==> EntryCarried(strs, g0, strs', out[k], newIds, k)
  }

  ghost predicate EntryCarried(strs: string, g0: Graph, strs': string, t: BtfType, newIds: seq<nat>, k: nat) {
    exists x :: 0 <= x < |g0| && x < |newIds| && newIds[x] == k && Carried(strs, g0[x], strs', t, newIds)
  }

  /** Variables and data sections are carried over each for itself. */
  ghost predicate VarsCarried(strs: string, g0: Graph, strs': string, out: Graph, newIds: seq<nat>)
    requires |newIds| == |g0|
  {
    forall x :: 0 <= x < |g0| && g0[x].info.kind in {Var, Datasec} ==>
      newIds[x] < |out| && Carried(strs, g0[x], strs', out[newIds[x]], newIds)
  }

  /** Every definition has all its names, and all but its type ids, in its output entry. */
  ghost predicate DefinitionsRead(strs: string, g0: Graph, strs': string, out: Graph, newIds: seq<nat>)
    requires |newIds| == |g0|
  {
    forall x :: 0 <= x < |g0| && IsDefinition(g0[x]) ==>
      newIds[x] < |out| && SameNames(strs, g0[x], strs', out[newIds[x]]) && KeptRest(g0[x], out[newIds[x]])
  }

  predicate IsDefinition(t: BtfType) { t.info.kind != Fwd && (t.info.kind == Enum ==> t.info.vlen > 0) }

  /** Every type keeps its name, and the kind it is or announces, and a definition stays a
      definition. */
  ghost predicate NamedDefinitionsStay(strs: string, g0: Graph, strs': string, out: Graph, newIds: seq<nat>)
    requires |newIds| == |g0|
  {
    forall x :: 0 <= x < |g0| ==>
      newIds[x] < |out| && Reads(strs, g0[x].name, strs', out[newIds[x]].name) && Stays(g0[x], out[newIds[x]])
  }

  /** Every output type spells out, to depth `k`, the input types it stands for: it reads the
      same, but may have a definition where they have a forward. */
  ghost predicate NamedSpellsTo(strs: string, g0: Graph, strs': string, out: Graph, newIds: seq<nat>, k: nat)
    requires Closed(g0) && Closed(out) && |newIds| == |g0|
    requires forall x :: 0 <= x < |g0| ==> newIds[x] < |out|
  {
    forall x :: 0 <= x < |g0| ==> NamedSpells(NamedUnfold(strs, g0, k, x), NamedUnfold(strs', out, k, newIds[x]))
  }

  /** Every input type agrees with its output type up to forwards, to depth `k`: names and
      definitions are where they were, or one of the two has a forward there. */
  ghost predicate NamedAgreesTo(strs: string, g0: Graph, strs': string, out: Graph, newIds: seq<nat>, k: nat)
    requires Closed(g0) && Closed(out) && |newIds| == |g0|
    requires forall x :: 0 <= x < |g0| ==> newIds[x] < |out|
  {
    forall x :: 0 <= x < |g0| ==> NamedMatches(NamedUnfold(strs, g0, k, x), NamedUnfold(strs', out, k, newIds[x]))
  }

  /** Every input type means what its output type means, to depth `k`. */
  ghost predicate SameNamedMeaning(strs: string, g0: Graph, strs': string, out: Graph, newIds: seq<nat>, k: nat)
    requires Closed(g0) && Closed(out) && |newIds| == |g0|
    requires forall x :: 0 <= x < |g0| ==> newIds[x] < |out|
  {
    forall x :: 0 <= x < |g0| ==> NamedUnfold(strs', out, k, newIds[x]) == NamedUnfold(strs, g0, k, x)
  }

  /** The string pass as `btf__dedup` runs it: skipped when the strings are known to be
      deduplicated already. */
  method StringPass(types: array<BtfType>, strs: string, strsDeduped: bool) returns (r: int, strs': string)
    requires Closed(types[..]) && Named(strs, types[..])
    modifies types
    ensures r == 0 || (r == -ENOMEM && !strsDeduped)
    ensures r == 0 ==> Closed(types[..]) && Named(strs', types[..]) && SameRefs(old(types[..]), types[..])
    ensures r == 0 ==> FieldsRenamed(strs, old(types[..]), strs', types[..])
    ensures r == 0 ==> forall k: nat :: NamesAgreeTo(strs, strs', old(types[..]), types[..], k)
    ensures r == 0 && (strsDeduped ==> NamesCanonical(strs, old(types[..]))) ==> NamesCanonical(strs', types[..])
  {
    hide FieldsRenamed;
    ghost var g0 := types[..];
    strs' := strs;
    if strsDeduped {
      NothingRenamed(strs, g0);
      return 0, strs;
    }
    var table;
    r, table := DedupStrings(types, strs);
    if r < 0 {
      return;
    }
    strs' := table.data;
    ghost var g, index := types[..], table.index;
    RenamedClosed(strs, index, strs', g0, g);
    RenamedCanonical(strs, index, strs', g0, g);
    forall k: nat ensures NamesAgreeTo(strs, strs', g0, g, k) {
      RenamedMeaning(strs, index, strs', g0, g, k);
    }
  }

  /** Deduplicates types and strings in place.  Succeeds exactly when no chain of reference types
      comes back to itself, unless strings overflow or something other than a data section refers
      to a variable.  Every entry of the output is one of the types it stands for, its names read in
      the new section and its type ids moved to the new ids, and otherwise as it came.  Definitions
      always stay definitions of their name.  Where all definitions of a name that has a forward
      mean the same, every type is spelt out by its output type: resolving replaces forwards and
      nothing else.  Where they only agree up to forwards, so do a type and its output type, and
      what stands for a definition may have a forward further down.  `strsDeduped` has to be true
      of the names then. */
  method Deduplicate(types: array<BtfType>, strs: string, strsDeduped: bool, dontResolveFwds: bool)
    returns (r: int, nrTypes: nat, strs': string, ghost newIds: seq<nat>)
    requires Closed(types[..]) && Named(strs, types[..])
    modifies types
    ensures nrTypes <= types.Length
    ensures r == 0 ==>
              Deduplicates(dontResolveFwds, strs, old(types[..]), strs', types[..nrTypes], newIds)
    ensures r == 0 && NamedUnivocal(strs, old(types[..])) && PlainFwds(old(types[..]))
            && (strsDeduped ==> NamesCanonical(strs, old(types[..]))) ==>
              forall k: nat :: NamedSpellsTo(strs, old(types[..]), strs', types[..nrTypes], newIds, k)
    ensures r == 0 && NamedConsistent(strs, old(types[..]))
            && (strsDeduped ==> NamesCanonical(strs, old(types[..]))) ==>
              forall k: nat :: NamedAgreesTo(strs, old(types[..]), strs', types[..nrTypes], newIds, k)
    ensures r == 0 && (ForwardsStay(old(types[..]), types[..nrTypes], newIds)
                       || (NamedConsistent(strs, old(types[..]))
                           && (strsDeduped ==> NamesCanonical(strs, old(types[..]))))) ==>
              DefinitionsRead(strs, old(types[..]), strs', types[..nrTypes], newIds)
    ensures LinkedCycle(old(types[..])) ==> r != 0
    ensures r == 0 || (r == -Dedup.ELOOP && LinkedCycle(old(types[..])))
         || (r == -Dedup.EINVAL && VarMentioned(old(types[..]))) || (r == -ENOMEM && !strsDeduped)
  {
    hide Deduplicates, NamedAgreesTo, NamedConsistent, NamesCanonical, NamesAgreeTo, HasCycle, NoVarRefs, ResultOk;
    hide DedupInv, SpellInv, HypotOk, Named, NamedSpellsTo, NamedUnivocal, PlainFwds, FieldsRenamed, FieldsKept;
    hide DefinitionsRead, LinkedCycle, VarMentioned, ForwardsStay;
    ghost var g0 := types[..];
    nrTypes := types.Length;
    newIds := [];
    r, strs' := StringPass(types, strs, strsDeduped);
    if r < 0 {
      return;
    }
    ghost var g := types[..];
    SameRefsSameVerdict(g0, g);
    CyclesByKind(g0);
    VarsByKind(g0);
    var d := new Dedup.Dedup(types, dontResolveFwds);
    r := d.Run();
    nrTypes := d.nrTypes;
    if r == 0 {
      ResultDeduplicates(dontResolveFwds, strs, g0, strs', g, d.canon[..], types[..nrTypes]);
      newIds := NewIds(d.canon[..]);
      ResultAgrees(dontResolveFwds, strs, g0, strs', g, d.canon[..], types[..nrTypes]);
      ResultSpells(dontResolveFwds, strs, g0, strs', g, d.canon[..], types[..nrTypes]);
      if ForwardsStay(g0, types[..nrTypes], newIds) || (NamedConsistent(strs, g0) && NamesCanonical(strs', g)) {
        ResultReads(dontResolveFwds, strs, g0, strs', types[..nrTypes], newIds);
      }
    }
  }

  /** Definitions that mean the same, or agree up to forwards, read the same at the top. */
  lemma ResultReads(off: bool, strs: string, g0: Graph, strs': string, out: Graph, ids: seq<nat>)
    requires Closed(g0) && Named(strs, g0) && Deduplicates(off, strs, g0, strs', out, ids)
    requires ForwardsStay(g0, out, ids) || forall k: nat :: NamedAgreesTo(strs, g0, strs', out, ids, k)
    ensures DefinitionsRead(strs, g0, strs', out, ids)
  {
    hide Closed, ForwardsStay, NoOutputDuplicates, PlainFwds, NamedUnfold, NamedMatches, Carried;
    hide SameNames, KeptRest, NamesIn, Reads, Stays, VarsCarried;
    forall x | 0 <= x < |g0| && IsDefinition(g0[x])
      ensures ids[x] < |out| && SameNames(strs, g0[x], strs', out[ids[x]]) && KeptRest(g0[x], out[ids[x]])
    {
      assert NamesIn(strs, g0[x]);
      assert SameNamedMeaning(strs, g0, strs', out, ids, 1) || NamedAgreesTo(strs, g0, strs', out, ids, 1);
      assert EntryCarried(strs, g0, strs', out[ids[x]], ids, ids[x]);
      EntryNamesIn(strs, g0, strs', out[ids[x]], ids, ids[x]);
      DefinitionRead(strs, g0, strs', out, x, ids[x]);
    }
  }

  lemma CarriedNames(strs: string, t: BtfType, strs': string, u: BtfType, ids: seq<nat>)
    requires Carried(strs, t, strs', u, ids)
    ensures SameNames(strs, t, strs', u)
  {
  }

  lemma EntryNamesIn(strs: string, g0: Graph, strs': string, t: BtfType, ids: seq<nat>, k: nat)
    requires EntryCarried(strs, g0, strs', t, ids, k)
    ensures NamesIn(strs', t)
  {
    var x :| 0 <= x < |g0| && Carried(strs, g0[x], strs', t, ids);
    CarriedNames(strs, g0[x], strs', t, ids);
    SameNamesIn(strs, g0[x], strs', t);
  }

  /** The same for agreement up to forwards. */
  lemma ResultAgrees(off: bool, strs: string, g0: Graph, strs': string, g: Graph, m: IdMap, out: Graph)
    requires Closed(g0) && Closed(g) && SameRefs(g0, g)
    requires forall k: nat :: NamesAgreeTo(strs, strs', g0, g, k)
    requires ResultOk(off, g, m, out)
    ensures Closed(out) && |m| == |g0| && forall x :: 0 <= x < |m| ==> Root(m, x) < |m|
    ensures forall x :: 0 <= x < |m| ==> NewIds(m)[x] < |out|
    ensures NamedConsistent(strs, g0) && NamesCanonical(strs', g) ==>
              forall k: nat :: NamedAgreesTo(strs, g0, strs', out, NewIds(m), k)
  {
    ResultFacts(off, g, m, out);
    hide Root, NewId, CanonCount, NamesCanonical, NamesAgreeTo, NamedConsistent, NamedAgreesTo;
    if NamedConsistent(strs, g0) && NamesCanonical(strs', g) {
      ConsistentByOffset(strs, strs', g0, g);
      forall k: nat ensures NamedAgreesTo(strs, g0, strs', out, NewIds(m), k) {
        assert NamesAgreeTo(strs, strs', g0, g, k) && AgreesTo(g, m, out, k);
        NamedFromMatches(strs, g0, strs', g, m, out, k);
      }
    }
  }

  lemma NamedFromMatches(strs: string, g0: Graph, strs': string, g: Graph, m: IdMap, out: Graph, k: nat)
    requires Closed(g0) && Closed(g) && Closed(out) && |g| == |g0| == |m|
    requires forall x :: 0 <= x < |m| ==> Root(m, x) < |m|
    requires forall x :: 0 <= x < |m| ==> NewIds(m)[x] < |out|
    requires NamesAgreeTo(strs, strs', g0, g, k) && AgreesTo(g, m, out, k)
    ensures NamedAgreesTo(strs, g0, strs', out, NewIds(m), k)
  {
    hide Root, CanonCount, NamedMatches, ReadNames, Matches, Unfold;
    forall x | 0 <= x < |g0|
      ensures NamedMatches(NamedUnfold(strs, g0, k, x), NamedUnfold(strs', out, k, NewIds(m)[x]))
    {
      assert NewIds(m)[x] == NewId(m, x);
      assert MatchTo(g, out, k, x, NewId(m, x));
      ReadMatches(strs', Unfold(g, k, x), Unfold(out, k, NewId(m, x)));
      assert NamedUnfold(strs', g, k, x) == NamedUnfold(strs, g0, k, x);
    }
  }

  /** The same for spelling out. */
  lemma ResultSpells(off: bool, strs: string, g0: Graph, strs': string, g: Graph, m: IdMap, out: Graph)
    requires Closed(g0) && Closed(g) && SameRefs(g0, g)
    requires forall k: nat :: NamesAgreeTo(strs, strs', g0, g, k)
    requires ResultOk(off, g, m, out)
    ensures Closed(out) && |m| == |g0| && forall x :: 0 <= x < |m| ==> Root(m, x) < |m|
    ensures forall x :: 0 <= x < |m| ==> NewIds(m)[x] < |out|
    ensures NamedUnivocal(strs, g0) && PlainFwds(g0) && NamesCanonical(strs', g) ==>
              forall k: nat :: NamedSpellsTo(strs, g0, strs', out, NewIds(m), k)
  {
    ResultFacts(off, g, m, out);
    SamePlainFwds(g0, g);
    hide Root, NewId, CanonCount, NamesCanonical, NamesAgreeTo, NamedUnivocal, NamedSpellsTo, PlainFwds, Univocal;
    if NamedUnivocal(strs, g0) && PlainFwds(g0) && NamesCanonical(strs', g) {
      UnivocalByOffset(strs, strs', g0, g);
      forall k: nat ensures NamedSpellsTo(strs, g0, strs', out, NewIds(m), k) {
        assert NamesAgreeTo(strs, strs', g0, g, k) && SpellsAllTo(g, m, out, k);
        NamedFromSpells(strs, g0, strs', g, m, out, k);
      }
    }
  }

  lemma NamedFromSpells(strs: string, g0: Graph, strs': string, g: Graph, m: IdMap, out: Graph, k: nat)
    requires Closed(g0) && Closed(g) && Closed(out) && |g| == |g0| == |m|
    requires forall x :: 0 <= x < |m| ==> Root(m, x) < |m|
    requires forall x :: 0 <= x < |m| ==> NewIds(m)[x] < |out|
    requires NamesAgreeTo(strs, strs', g0, g, k) && SpellsAllTo(g, m, out, k)
    ensures NamedSpellsTo(strs, g0, strs', out, NewIds(m), k)
  {
    hide Root, CanonCount, NamedSpells, ReadNames, Spells, Unfold;
    forall x | 0 <= x < |g0|
      ensures NamedSpells(NamedUnfold(strs, g0, k, x), NamedUnfold(strs', out, k, NewIds(m)[x]))
    {
      assert NewIds(m)[x] == NewId(m, x);
      assert SpellsTo(g, out, k, x, NewId(m, x));
      ReadSpells(strs', Unfold(g, k, x), Unfold(out, k, NewId(m, x)));
      assert NamedUnfold(strs', g, k, x) == NamedUnfold(strs, g0, k, x);
    }
  }

  /** Definitions that stay by offset stay by name. */
  lemma DefinitionsByName(strs: string, g0: Graph, strs': string, g: Graph, out: Graph, ids: seq<nat>)
    requires |ids| == |g0| && FieldsRenamed(strs, g0, strs', g) && DefinitionsStay(g, out, ids)
    ensures NamedDefinitionsStay(strs, g0, strs', out, ids)
  {
    hide CStr;
    forall x | 0 <= x < |g0|
      ensures ids[x] < |out| && Reads(strs, g0[x].name, strs', out[ids[x]].name) && Stays(g0[x], out[ids[x]])
    {
      assert Renamed(strs, g0[x], strs', g[x]);
    }
  }

  /** Renaming and remapping one after the other carry every entry over. */
  lemma ResultCarried(strs: string, g0: Graph, strs': string, g: Graph, m: IdMap, out: Graph)
    requires FieldsRenamed(strs, g0, strs', g) && |m| == |g| && FieldsKept(g, m, out)
    ensures EntriesCarried(strs, g0, strs', out, NewIds(m)) && VarsCarried(strs, g0, strs', out, NewIds(m))
  {
    hide Renamed, Renumbers, Carried, Root, NewId;
    var ids := NewIds(m);
    forall x | 0 <= x < |g0| && m[x] == x ensures ids[x] < |out| && Carried(strs, g0[x], strs', out[ids[x]], ids) {
      assert Renamed(strs, g0[x], strs', g[x]) && ids[x] == NewId(m, x);
      CarriedBoth(strs, g0[x], strs', g[x], ids, out[ids[x]]);
    }
    forall k | 0 <= k < |out| ensures EntryCarried(strs, g0, strs', out[k], ids, k) {
      assert KeptAt(m, k);
    }
    forall x | 0 <= x < |g0| && g0[x].info.kind in {Var, Datasec} ensures m[x] == x {
      assert Renamed(strs, g0[x], strs', g[x]);
      RenamedKind(strs, g0[x], strs', g[x]);
    }
  }

  lemma RenamedKind(strs: string, t: BtfType, strs': string, u: BtfType)
    requires Renamed(strs, t, strs', u)
    ensures u.info == t.info
  {
  }

  lemma SameNamesIn(strs: string, t: BtfType, strs': string, u: BtfType)
    requires SameNames(strs, t, strs', u)
    ensures NamesIn(strs', u)
  {
    hide CStr;
  }

  /** Shapes that read the same up to names are the same in all but names and type ids. */
  lemma SkeletonRest(t: BtfType, u: BtfType)
    requires WellFormed(t) && WellFormed(u) && Skeleton(t) == Skeleton(u)
    ensures KeptRest(t, u)
  {
    var a, b := Skeleton(t), Skeleton(u);
    SkeletonKeeps(t);
    SkeletonKeeps(u);
  }

  lemma SkeletonKeeps(t: BtfType)
    requires WellFormed(t)
    ensures Skeleton(t).info == t.info && KeptRest(t, Skeleton(t)) && KeptRest(Skeleton(t), t)
  {
  }

  /** Two definitions that agree at the top have the same names and the same rest. */
  lemma DefinitionRead(strs: string, g0: Graph, strs': string, out: Graph, x: nat, y: nat)
    requires Closed(g0) && Closed(out) && x < |g0| && y < |out|
    requires NamesIn(strs, g0[x]) && NamesIn(strs', out[y])
    requires IsDefinition(g0[x]) && Stays(g0[x], out[y])
    requires NamedMatches(NamedUnfold(strs, g0, 1, x), NamedUnfold(strs', out, 1, y))
          || NamedUnfold(strs, g0, 1, x) == NamedUnfold(strs', out, 1, y)
    ensures SameNames(strs, g0[x], strs', out[y]) && KeptRest(g0[x], out[y])
  {
    var t, u := Unfold(g0, 1, x), Unfold(out, 1, y);
    SkeletonFamily(strs, t.shape, t.kids);
    SkeletonFamily(strs', u.shape, u.kids);
    ShapeKeepsNames(g0[x]);
    ShapeKeepsNames(out[y]);
    ShapeFamily(g0[x]);
    ShapeFamily(out[y]);
    SkeletonRest(g0[x], out[y]);
    ReadsNames(strs, g0[x], strs', out[y]);
  }

  /** From the type passes' promise about offsets to the promise about strings. */
  lemma ResultDeduplicates(off: bool, strs: string, g0: Graph, strs': string, g: Graph, m: IdMap, out: Graph)
    requires Closed(g0) && Closed(g) && SameRefs(g0, g)
    requires forall k: nat :: NamesAgreeTo(strs, strs', g0, g, k)
    requires FieldsRenamed(strs, g0, strs', g)
    requires ResultOk(off, g, m, out) && |m| == |g| && FieldsKept(g, m, out)
    ensures forall x :: 0 <= x < |m| ==> Root(m, x) < |m|
    ensures Deduplicates(off, strs, g0, strs', out, NewIds(m))
  {
    hide *;
    ResultFacts(off, g, m, out);
    SamePlainFwds(g0, g);
    var ids := NewIds(m);
    SameForwards(g0, g, out, ids);
    if ForwardsStay(g0, out, ids) {
      MeaningStays(strs, g0, strs', g, m, out);
    } else {
      MeaningChanges(strs, g0, strs', out, ids);
      assert !SameNamedMeaning(strs, g0, strs', out, ids, 1);
    }
    DefinitionsByName(strs, g0, strs', g, out, ids);
    ResultCarried(strs, g0, strs', g, m, out);
    Concluded(off, strs, g0, strs', out, ids);
  }

  lemma Concluded(off: bool, strs: string, g0: Graph, strs': string, out: Graph, ids: seq<nat>)
    requires Closed(g0) && Closed(out) && |ids| == |g0|
    requires forall x :: 0 <= x < |g0| ==> ids[x] < |out|
    requires forall k :: 0 <= k < |out| ==> k in ids
    requires ForwardsStay(g0, out, ids) <==> forall k: nat :: SameNamedMeaning(strs, g0, strs', out, ids, k)
    requires (off ==> ForwardsStay(g0, out, ids)) && (PlainFwds(g0) ==> NoOutputDuplicates(off, out))
    requires NamedDefinitionsStay(strs, g0, strs', out, ids)
    requires EntriesCarried(strs, g0, strs', out, ids) && VarsCarried(strs, g0, strs', out, ids)
    ensures Deduplicates(off, strs, g0, strs', out, ids)
  {
    hide ForwardsStay, SameNamedMeaning, NamedDefinitionsStay, NoOutputDuplicates, PlainFwds, Closed;
    hide EntriesCarried, VarsCarried;
  }

  lemma ResultFacts(off: bool, g: Graph, m: IdMap, out: Graph)
    requires Closed(g) && ResultOk(off, g, m, out)
    ensures Closed(out) && |g| == |m| && forall x :: 0 <= x < |m| ==> Root(m, x) < |m|
    ensures forall x :: 0 <= x < |m| ==> NewIds(m)[x] < |out|
    ensures forall k :: 0 <= k < |out| ==> k in NewIds(m)
    ensures SameMeaning(g, m, out) <==> ForwardsStay(g, out, NewIds(m))
    ensures (off ==> ForwardsStay(g, out, NewIds(m))) && (PlainFwds(g) ==> NoOutputDuplicates(off, out))
    ensures DefinitionsStay(g, out, NewIds(m))
  {
    NewIdsOnto(g, m, false);
    hide SameMeaning, ForwardsStay, NoOutputDuplicates, PlainFwds, NewIds, Root, CanonCount, Closed, AllMapped;
  }

  lemma SamePlainFwds(g0: Graph, g: Graph)
    requires SameRefs(g0, g)
    ensures |g0| == |g|
    ensures PlainFwds(g0) <==> PlainFwds(g)
  {
  }

  lemma MeaningStays(strs: string, g0: Graph, strs': string, g: Graph, m: IdMap, out: Graph)
    requires Closed(g0) && Closed(g) && Closed(out) && |g| == |g0| == |m|
    requires forall k: nat :: NamesAgreeTo(strs, strs', g0, g, k)
    requires forall x :: 0 <= x < |m| ==> Root(m, x) < |m| && NewIds(m)[x] < |out|
    requires SameMeaning(g, m, out)
    ensures forall k: nat :: SameNamedMeaning(strs, g0, strs', out, NewIds(m), k)
  {
    forall k: nat ensures SameNamedMeaning(strs, g0, strs', out, NewIds(m), k) {
      assert MeaningTo(g, m, out, k);
      NamedFromOffsets(strs, g0, strs', g, m, out, k);
    }
  }

  lemma MeaningChanges(strs: string, g0: Graph, strs': string, out: Graph, ids: seq<nat>)
    requires Closed(g0) && Closed(out) && |ids| == |g0|
    requires forall x :: 0 <= x < |g0| ==> ids[x] < |out|
    requires !ForwardsStay(g0, out, ids)
    ensures !SameNamedMeaning(strs, g0, strs', out, ids, 1)
  {
    var x :| 0 <= x < |g0| && IsFwdLike(g0[x]) && !(ids[x] < |out| && IsFwdLike(out[ids[x]]));
    ChangedForward(strs, g0, strs', out, ids, x);
  }

  lemma SameForwards(g0: Graph, g: Graph, out: Graph, ids: seq<nat>)
    requires SameRefs(g0, g) && |ids| == |g0|
    ensures ForwardsStay(g0, out, ids) <==> ForwardsStay(g, out, ids)
  {
    assert forall x :: 0 <= x < |g| ==> (IsFwdLike(g[x]) <==> IsFwdLike(g0[x]));
  }

  lemma NamedFromOffsets(strs: string, g0: Graph, strs': string, g: Graph, m: IdMap, out: Graph, k: nat)
    requires Closed(g0) && Closed(g) && Closed(out) && |g| == |g0| == |m|
    requires forall x :: 0 <= x < |m| ==> Root(m, x) < |m| && NewIds(m)[x] < |out|
    requires NamesAgreeTo(strs, strs', g0, g, k) && MeaningTo(g, m, out, k)
    ensures SameNamedMeaning(strs, g0, strs', out, NewIds(m), k)
  {
    forall x | 0 <= x < |g0|
      ensures NamedUnfold(strs', out, k, NewIds(m)[x]) == NamedUnfold(strs, g0, k, x)
    {
      assert NewIds(m)[x] == NewId(m, x);
      assert NamedUnfold(strs', g, k, x) == NamedUnfold(strs, g0, k, x);
    }
  }

  /** A forward whose output entry is a definition reads differently at once. */
  lemma ChangedForward(strs: string, g0: Graph, strs': string, out: Graph, ids: seq<nat>, x: nat)
    requires Closed(g0) && Closed(out) && |ids| == |g0| && x < |g0| && ids[x] < |out|
    requires IsFwdLike(g0[x]) && !IsFwdLike(out[ids[x]])
    ensures NamedUnfold(strs', out, 1, ids[x]) != NamedUnfold(strs, g0, 1, x)
  {
    var t, u := g0[x], out[ids[x]];
    ShapeKeeps(t);
    ShapeKeeps(u);
    SetNamesSpec(Shape(t), Zeros(|Names(Shape(t))|));
    SetNamesSpec(Shape(u), Zeros(|Names(Shape(u))|));
  }
}
