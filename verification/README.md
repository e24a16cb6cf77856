# A verified model of New IP's latency scheduler and of libbpf's type graphs

The repository carries two pieces of logic that other code trusts blindly: libbpf's
deduplication of BTF type information, and the latency-based forwarding (LBF) packet
scheduler. This project models both, together with the hash map, the C dump ordering, the
line-info index, the Jenkins hash and the byte-order conversion they stand beside, and
proves what each of them promises. `dafny verify dfyconfig.toml` checks everything.

## How it is organised

**BTF deduplication.** `BtfTypes` has type descriptors: a shape and the type ids it holds.
`BtfGraph` says what a type *means*: the tree of shapes one sees by following references to any
finite depth, so that cyclic graphs have a meaning and ids are not part of it. `BtfCompare` has
the comparisons and signature hashes. `BtfFields` says field by field and kind by kind which parts
of a descriptor are names, which are type ids and what a forward announces. `DedupMap` is the
theory of the canonical map (at most three steps to a root) and of the hypothetical map of one
graph comparison; `DedupComplete` shows that a comparison that fails had to fail, and
`DedupAccept` what one that succeeds does, down to the order in which it records. `BtfAgree` says
what is left of meaning once forwards are resolved: a type may *spell out* another, having
definitions for its forwards, or only *agree* with it up to forwards on either side. `DedupOne` is
when two types are one as far as a canonical map has spelt forwards out, `DedupSpell` why the
merge of a comparison keeps to that, and `DedupSpelling` why all passes do. `DedupState`,
`DedupRefs` and `DedupRemap` are the invariants of the primitive/struct passes, of the reference
pass and of compaction and remapping, `DedupFields` what the output is in terms of the fields.
`Dedup` is the deduplicator itself: a class over the `map` and `hypot_map` arrays, rewriting the
types in place. `BtfStrings`, `BtfNames`, `BtfNamedAgree` and `BtfDedup` add string deduplication
and put the whole of `btf__dedup` together. `DedupJoins` joins the passes with the hash map and
with the words of the type section. `DedupRuns` and `DedupForwards` follow the passes on small
graphs with ambiguous forwards: `DedupLost` loses a definition, `DedupHalf` hides one behind a
forward, `DedupApart` loses nothing.

**More of BTF.** `BtfLayout` has the words of a descriptor and the records of a type section,
`BtfCompact` does compaction on those words, `BtfEndian` reads and writes a section in the other
byte order, `BtfRaw` a whole file with its header and strings, `BtfSize` is `btf__resolve_size`,
`DumpModel` and `Dump` order definitions for a C dump.

**The scheduler.** `LbfModel` is the scheduler as sequences of buckets; `LbfQueue` has the linked
lists of the code and proves them to behave like it; `LbfRuns` talks about whole runs; `LbfDelay`
is the delay budget of one hop and of a path, `LbfUnits` the same in the units of the header;
`LbfWindow` is about packets that are late; `LbfSched` joins them in the enqueue operation and in
sending a packet that is due.

**Supporting structures.** `HashModel`, `HashRefine` and `Hashmap` are the chained hash table: as
values, against a reference without buckets or hashes, and with linked entries. `ProgLinfo` is the
line-info index and its lookups, `Jhash` the Jenkins hash forms, `Options` the optional values
several of these use.

## Main results

* `btf__dedup` keeps meaning. When it succeeds, the output is a closed graph, every output type is
  the image of an input type, and no two output primitives or reference types are duplicates.
  Whatever is resolved, every output entry is one of the types it stands for, carried over field
  by field: each name of the type, its members, its enumerators and its parameters reads in the
  new section as it did in the old, each type id is moved to the new id, and all else is as it
  came. Variables and data sections are carried over each for itself. Every type keeps its name
  and kind, a definition stays a definition, and a FWD becomes one of the same flag, or a union if
  its flag is set and a struct if not. With forward resolution off every input type reads the same
  in the output at every depth, names included. With resolution on every input type is *spelt out*
  by its output type at every depth: the two read the same but for definitions that have taken the
  place of forwards. That holds for every input in which all definitions of a name that has a
  forward mean the same, the unused word of every FWD is zero, and the strings are deduplicated if
  the caller says so. It fails with -ELOOP only if there is a cycle of references that no struct
  or union breaks, and always fails when there is one; its only other errors are -ENOMEM for a
  full string section and -EINVAL, which means a variable referred to by something other than a
  data section (`BtfDedup.Deduplicate`).
* Resolution can lose what that condition protects. If the definitions of an announced name only
  agree with each other *up to forwards*, input and output still agree up to forwards on either
  side, but a definition can be hidden: on a graph with two `struct s`, one pointing at a `struct
  t` that is defined and one at a forward of it, the first becomes the second although the
  definition is there (`DedupHalf.HalfDeduplicated`, `DedupHalf.DefinitionHidden`). If they do not
  agree at all, a definition can turn into another: a `struct s` of 8 bytes becomes one of 4
  (`DedupLost.TwoForwardsDeduplicated`, `DedupLost.DefinitionLost`); the repository's own comment
  calls this extremely unlikely. Neither condition is necessary: another graph with two such
  structs comes out unchanged (`DedupApart.ApartDeduplicated`). Which contradictions do harm
  depends on the order in which types are met and on that of the candidates in the hash table, so
  an exact condition would have to follow the algorithm.
* The graph comparison is sound and complete: what it accepts agrees at all depths, exactly as
  long as it sets no forward against a definition and up to forwards otherwise, and it refuses
  only if no hypothetical map whatever could justify the pair. What it records is forced, and
  recorded depth first (`DedupMap.ComparisonSound`, `DedupMap.ComparisonAgrees`,
  `Dedup.Dedup.IsEquiv`, `Dedup.Dedup.CompareFresh`).
* The scheduler's searches return the earliest packet of all buckets, or the first bucket's packet
  that is due. Over any run the buckets stay in order, every queue is in order of send time with
  ties in the order of arrival, and every packet is queued, sent or dropped, exactly one of these
  (`LbfModel.NextIsEarliest`, `LbfModel.NowIsDue`, `LbfRuns.RunOrdered`, `LbfRuns.RunConserves`).
* Whether a late packet is sent or dropped is not up to the packet: one that leaves its queue is
  sent if and only if the packet that arrived *last* had hops left (`LbfRuns.LateFate`), because
  the queue keeps a single hop count. So a packet on its last hop can be sent after its window,
  and a packet with a hop still to go can be dropped (`LbfWindow.LastHopSentLate`,
  `LbfWindow.MidPathDropped`). A packet is certain to be sent in its window while the last arrival
  was on its last hop (`LbfWindow.SentInWindow`).
* A path of up to 255 hops whose hops keep their windows delivers within the contract's minimum
  and maximum, and every total in between can be reached (`LbfDelay.PathBound`,
  `LbfDelay.PathReaches`); in the header's own milliseconds, tenths and nanoseconds this is
  `LbfUnits.PathInMilliseconds`, and what one packet gets is `LbfUnits.JudgeIsWindow`. Hop counts
  reach zero exactly if they start below 256 (`LbfDelay.HopsRunOut`), because the count is
  decremented in network byte order.
* The hash map holds, after any run, exactly the list of entries a reference without buckets or
  hashes predicts for every key. A lookup in a multimap does not always give the entry inserted
  last, as the header's documentation says it does: growth turns the order around, and the lookup
  is right if and only if the table has grown an even number of times since, or the entry is the
  only one (`HashRefine.RunRefines`, `HashRefine.LastInserted`, `HashRefine.LastInsertedLost`).
* The table of candidates that deduplication searches is what the hash map holds, with either of
  its hash functions, and compaction of descriptors is compaction of their words in the type
  section (`DedupJoins.TableIsHashMap`, `DedupJoins.CompactionEncodes`). The words of well-formed
  descriptors determine them, and are read with one record for each
  (`BtfLayout.SectionDetermines`, `BtfLayout.SectionParses`).
* A BTF file that is put together anew, in either byte order, and read again is what was loaded if
  and only if its string section was right behind its type section. The writer puts the sections
  next to each other but copies the header, so that a file with a gap is refused when it is read
  back (`BtfRaw.RoundTrip`, `BtfRaw.GapLost`).
* A C dump queues definitions after everything they need: by value, and through pointers to
  anonymous structs that are defined in place. Types that need themselves always give -ELOOP, and
  -ELOOP means the type reaches a loop (`Dump.BtfDump.DumpType`). An anonymous enum that is only
  the result of functions is taken for a declaration of constants (`Dump.ResultEnum`).

## Model

| member | source | states |
|---|---|---|
| BtfTypes.SetRefsSpec | xdp/libbpf/src/btf.c:4474-4565 | rewriting the type ids of a descriptor stores exactly those ids and keeps its shape; which fields they are is `BtfFields.SetRefsFields` |
| BtfTypes.ShapeAndRefsDetermine | xdp/libbpf/src/btf.c:4474-4565 | a descriptor is its shape and its references, nothing more |
| BtfFields.SetRefsFields | xdp/libbpf/src/btf.c:4474-4565 | the ids that are rewritten are, kind by kind, the third word of PTR, FWD, TYPEDEF, qualifiers, FUNC, FUNC_PROTO and VAR, element and index of an ARRAY, and the type of each member, parameter and section entry; nothing else changes |
| BtfFields.MentionsRefs | xdp/libbpf/src/btf.c:4474-4565 | an id is among the references of a type exactly if one of these fields is it |
| BtfFields.FamiliesMeet | xdp/libbpf/src/btf.c:3800-3803 | types of one family have one name, and one kind unless one is a FWD whose flag says the kind of the other |
| BtfCompare.EqualCommonDecides | xdp/libbpf/src/btf.c:3347-3352 | for kinds without a tail, header equality is equality of descriptors |
| BtfCompare.EqualInt | xdp/libbpf/src/btf.c:3366-3375 | decides equality of two INTs, encoding included |
| BtfCompare.EqualEnum | xdp/libbpf/src/btf.c:3390-3409 | decides equality of two ENUMs, all values included |
| BtfCompare.CompatEnum | xdp/libbpf/src/btf.c:3411-3424 | decides compatibility: equal, or one is an enum forward and all but the number of values agrees |
| BtfCompare.ShallowEqualStruct | xdp/libbpf/src/btf.c:3452-3471 | decides equality of structs and unions up to member types |
| BtfCompare.EqualArray | xdp/libbpf/src/btf.c:3496-3508 | decides equality of arrays |
| BtfCompare.CompatArray | xdp/libbpf/src/btf.c:3515-3521 | decides equality of arrays up to element and index type |
| BtfCompare.EqualFnproto | xdp/libbpf/src/btf.c:3550-3569 | decides equality of prototypes |
| BtfCompare.CompatFnproto | xdp/libbpf/src/btf.c:3576-3596 | decides equality of prototypes up to parameter and result types |
| BtfCompare.HashStruct | xdp/libbpf/src/btf.c:3431-3445 | the loop computes the signature hash of a struct |
| BtfCompare.HashFnproto | xdp/libbpf/src/btf.c:3528-3541 | the loop computes the signature hash of a prototype |
| BtfCompare.FoldMembersIgnoresTypes | xdp/libbpf/src/btf.c:3431-3445 | the struct hash does not depend on member types |
| BtfCompare.MatchesShareHash | xdp/libbpf/src/btf.c:3337-3596 | whatever any comparison accepts has the same signature hash, so a lookup by hash misses no match |
| BtfCompare.EqualExact | xdp/libbpf/src/btf.c:3664-3745 | the comparison a primitive or reference kind is searched with decides equality |
| BtfCompare.HashExact | xdp/libbpf/src/btf.c:3664-3745 | and is searched under the signature hash |
| BtfGraph.AlikeStep | xdp/libbpf/src/btf.c:2740-2882 | equal shapes over references that mean the same mean the same, at all depths, cycles included |
| BtfGraph.AlikeRefs | xdp/libbpf/src/btf.c:2740-2882 | and conversely |
| BtfGraph.RewritesSetRef | xdp/libbpf/src/btf.c:4265-4371 | replacing a reference by one that means the same keeps every type's meaning |
| BtfGraph.RewrittenEqualAlike | xdp/libbpf/src/btf.c:4265-4371 | identical descriptors of a rewritten graph mean the same in the original |
| BtfAgree.MatchTransitive | xdp/libbpf/src/btf.c:2740-2882 | agreement up to forwards is transitive at every depth where all definitions of a name that has a forward agree |
| BtfAgree.AgreeOpens | xdp/libbpf/src/btf.c:2740-2882 | definitions that agree have equal shapes over references that agree |
| BtfAgree.SpeltMatches | xdp/libbpf/src/btf.c:2740-2882 | what spells a type out agrees with it up to forwards |
| BtfAgree.UnivocalConsistent | xdp/libbpf/src/btf.c:3881-3909 | definitions of an announced name that mean the same agree up to forwards |
| BtfAgree.RewordedEqualAgree | xdp/libbpf/src/btf.c:4265-4371 | identical descriptors of a graph whose references were replaced by agreeing ones agree in the original |
| DedupMap.RootSpec | xdp/libbpf/src/btf.c:3772-3777 | following the canonical map ends, after at most three steps, at a self-canonical or unmapped id |
| DedupMap.RootKeeps | xdp/libbpf/src/btf.c:3772-3797 | resolving an id keeps its kind and name, and its meaning while no forward is resolved |
| DedupMap.LinkKeepsInv | xdp/libbpf/src/btf.c:3664-3745 | every way the passes write an entry keeps the map acyclic up to self-loops, and later maps refine earlier ones |
| DedupMap.LinkKeepsCanon | xdp/libbpf/src/btf.c:4086-4147 | the same at the exactness the map has: meaning is kept as long as no forward has been resolved |
| DedupMap.ResolvingChangesMeaning | xdp/libbpf/src/btf.c:4086-4147 | pointing a forward at a definition always changes what it means |
| DedupMap.UnresolvedRoot | xdp/libbpf/src/btf.c:3783-3797 | without resolutions, forwards resolve to forwards and definitions to definitions |
| DedupMap.ComparisonSound | xdp/libbpf/src/btf.c:3911-4058 | once all recorded pairs are compared and none mixes a forward with a definition, accepted pairs mean the same at every depth |
| DedupMap.ComparisonAgrees | xdp/libbpf/src/btf.c:3911-4058 | up to forwards, accepted pairs agree at every depth even if forwards were set against definitions, where forwards have one meaning each |
| DedupMap.MergeStepKeeps | xdp/libbpf/src/btf.c:4086-4147 | one merge of a compared pair keeps the canonical map's invariant and its meaning |
| DedupMap.MergeAllKeepsMeaning | xdp/libbpf/src/btf.c:4086-4147 | merging the whole hypothetical map keeps the invariant at full exactness |
| DedupMap.MergeNext | xdp/libbpf/src/btf.c:4086-4147 | the merge goes through the recorded pairs one by one, in order |
| DedupMap.MergeAllResolves | xdp/libbpf/src/btf.c:4086-4147 | a merge resolves a forward exactly when some recorded pair sets a FWD against a definition |
| DedupMap.ComparedPairsOk | xdp/libbpf/src/btf.c:4086-4147 | all pairs a successful comparison recorded may be merged |
| DedupFields.CheckedKinds | xdp/libbpf/src/btf.c:3953-3974 | all pairs a comparison has recorded and compared have one name, and one kind unless one is a FWD and the other what its flag announces |
| DedupOne.LinkGrows | xdp/libbpf/src/btf.c:4086-4147 | every way an entry is written keeps resolved forwards resolved and forwards that share a representative together |
| DedupOne.OneToTransitive | xdp/libbpf/src/btf.c:2740-2882 | being one type as far as forwards have been spelt out is transitive at every depth where all definitions of an announced name mean the same |
| DedupOne.OneOpens | xdp/libbpf/src/btf.c:2740-2882 | a definition that is one with a forward shows that the forward has been resolved, one that is one with a definition has its shape and references that are one |
| DedupSpell.MergeAllGrows | xdp/libbpf/src/btf.c:4086-4147 | merging leaves no FWD that was recorded against a definition unresolved |
| DedupSpell.ComparedOne | xdp/libbpf/src/btf.c:3911-4058 | all pairs a comparison accepted are one by the time it has been merged |
| DedupSpell.MergedOne | xdp/libbpf/src/btf.c:4086-4147 | after the merge of an accepted comparison every entry of the canonical map leads to a type that is one with its own, and the two types compared are one |
| DedupComplete.RecordedRefuted | xdp/libbpf/src/btf.c:3927-3938 | a canonical-side id that stands for another type leaves no consistent map for the pair |
| DedupComplete.NewPairRefuted | xdp/libbpf/src/btf.c:3940-3950 | recording a new pair is forced: if it cannot be completed the original pair cannot be justified |
| DedupComplete.CheckedCompatible | xdp/libbpf/src/btf.c:3950-3990 | a pair that any completed comparison accepts passes the shallow checks |
| DedupComplete.NextSlot | xdp/libbpf/src/btf.c:3990-4055 | each reference followed is forced, and one that is refused refuses the pair |
| DedupComplete.FreshRefuted | xdp/libbpf/src/btf.c:3011-3019 | from a cleared map, refusal means no consistent correspondence exists at all |
| DedupAccept.SlotAccepted | xdp/libbpf/src/btf.c:3990-4055 | one slot more: all recorded pairs stay compared and forced, and the list of recorded ids grows by what that slot records, in order |
| DedupAccept.PairGrown | xdp/libbpf/src/btf.c:3002-3009 | a new pair is put on the list before what its slots record: depth first |
| DedupAccept.AcceptedSound | xdp/libbpf/src/btf.c:4209-4214 | an accepted pair means the same if nothing may be resolved, and agrees up to forwards where they have one meaning each |
| DedupState.LinkKeepsDedup | xdp/libbpf/src/btf.c:3664-3745 | a refined canonical map keeps the pass invariant: hash table entries, no duplicates among the filed |
| DedupState.FileKeepsDedup | xdp/libbpf/src/btf.c:2988-2992 | filing a new representative with no duplicate in the table keeps it |
| DedupState.NoneEqualNoDuplicate | xdp/libbpf/src/btf.c:3677-3706 | a search by hash that finds no equal type proves there is no duplicate in the whole table |
| DedupState.NoneCompatibleNoDuplicate | xdp/libbpf/src/btf.c:3690-3722 | the same for enums up to forward resolution |
| DedupState.RepresentativeCanLink | xdp/libbpf/src/btf.c:3664-3745 | what a search returns may represent the type |
| DedupState.MergeSound | xdp/libbpf/src/btf.c:4086-4147 | the hypothetical map of an accepted struct comparison can be merged and the struct then linked |
| DedupSpelling.PrimsSettle | xdp/libbpf/src/btf.c:3747-3757 | once primitives are deduplicated, equal forwards share their fate, and no enum forward is left unresolved beside an enum it can be resolved to |
| DedupSpelling.LinkKeepsSpelling | xdp/libbpf/src/btf.c:3738-3744 | recording a representative that is one with the type keeps every type at what is one with it |
| DedupSpelling.RespelledEqualOne | xdp/libbpf/src/btf.c:4265-4371 | types whose descriptors are equal once references have been stored are one |
| DedupSpelling.StoreKeepsSpelling | xdp/libbpf/src/btf.c:4280-4350 | a resolved reference is one with the reference it replaces |
| DedupSpelling.AcceptKeepsSpelling | xdp/libbpf/src/btf.c:4209-4219 | merging an accepted comparison keeps all that, and lets the struct join the other |
| DedupRefs.GroundedNoCycle | xdp/libbpf/src/btf.c:4248-4264 | a type all of whose reference chains end is on no cycle of references |
| DedupRefs.AllEndNoCycles | xdp/libbpf/src/btf.c:4265-4386 | so a graph the pass accepts has no such cycle |
| DedupRefs.BackEdgeCycle | xdp/libbpf/src/btf.c:4275-4278 | coming back to a type in progress exhibits a cycle that no struct or union breaks |
| DedupRefs.StoreKeepsDedup | xdp/libbpf/src/btf.c:4280-4350 | storing a resolved reference keeps the pass invariant and every meaning |
| DedupRefs.FinishKeepsRefs | xdp/libbpf/src/btf.c:4351-4371 | finishing a type keeps the invariant of those still being followed |
| DedupRemap.NewIdRenumbers | xdp/libbpf/src/btf.c:4399-4445 | new ids are a renumbering of the canonical ids that keeps their order, and equal exactly for ids of one canonical type |
| DedupRemap.NewIdOnto | xdp/libbpf/src/btf.c:4399-4445 | and leaves no gaps |
| DedupRemap.CompactStep | xdp/libbpf/src/btf.c:4399-4445 | moving one canonical record down keeps all kept records and the unread ones, the write position never passing the unread |
| DedupRemap.OutputClosed | xdp/libbpf/src/btf.c:4453-4577 | after remapping every reference is in range |
| DedupRemap.OutputMeaning | xdp/libbpf/src/btf.c:4474-4577 | a type means in the output what its canonical type meant |
| DedupRemap.OutputAgrees | xdp/libbpf/src/btf.c:4474-4577 | where forwards have one meaning each every type agrees with its output type up to forwards, at every depth, whatever was resolved |
| DedupRemap.OutputSpells | xdp/libbpf/src/btf.c:4474-4577 | where all definitions of an announced name mean the same, every output type spells out the input types it stands for at every depth: resolving replaces forwards and nothing else |
| DedupRemap.DefinitionsKept | xdp/libbpf/src/btf.c:4453-4577 | by kind and flag, without any condition: every type keeps its name and kind or the kind its FWD announces, enums keep their size, and a definition stays a definition |
| DedupRemap.ResolvedShows | xdp/libbpf/src/btf.c:4453-4462 | a resolved forward shows: its output entry is a definition |
| DedupRemap.OutputIsDeduplicated | xdp/libbpf/src/btf.c:4265-4577 | no two output entries are the same descriptor of a kind that is no struct, union, VAR or DATASEC, and with resolution on none is an enum forward of another |
| DedupRemap.OutputVerdict | xdp/libbpf/src/btf.c:2883-2936 | the result of the type passes: meaning is kept exactly when no forward was resolved, definitions stay definitions always, and where announced names have one meaning every type is spelt out |
| DedupFields.RemapFields | xdp/libbpf/src/btf.c:4474-4565 | a descriptor remapped by the final map is, field by field, the old one with each type id moved to its new id |
| DedupFields.OutputRenumbered | xdp/libbpf/src/btf.c:4567-4577 | every type that was kept is found under its new id so renumbered |
| DedupFields.OutputOfInput | xdp/libbpf/src/btf.c:4265-4371 | and so it would be had its references not been resolved before: the output is the input's kept descriptors, renumbered |
| DedupFields.OutputFields | xdp/libbpf/src/btf.c:4399-4577 | compaction and remapping together, by field; VAR and DATASEC represent themselves |
| DedupFields.CyclesByKind | xdp/libbpf/src/btf.c:4248-4371 | the cycles that are refused are those of PTR, ARRAY, TYPEDEF, qualifiers, FUNC and FUNC_PROTO by any of their type fields |
| DedupFields.VarsByKind | xdp/libbpf/src/btf.c:3990-4058 | the references to variables that can make a comparison fail, by field |
| Dedup.Dedup.constructor | xdp/libbpf/src/btf.c:3053-3111 | all types but void, VAR and DATASEC start unprocessed, the hypothetical map empty |
| Dedup.Dedup.ResolveTypeId | xdp/libbpf/src/btf.c:3772-3777 | the loop ends at the root of the id |
| Dedup.Dedup.ResolveFwdId | xdp/libbpf/src/btf.c:3783-3797 | a FWD is replaced by its definition only if it has been resolved to one |
| Dedup.Dedup.Commit | xdp/libbpf/src/btf.c:3738-3744 | recording a representative keeps the invariant and changes one entry |
| Dedup.Dedup.PickExact | xdp/libbpf/src/btf.c:3677-3725 | finds an equal canonical type if the table has one, by hash |
| Dedup.Dedup.TryEnum | xdp/libbpf/src/btf.c:3690-3722 | one enum candidate: represent, re-point a forward, or pass on |
| Dedup.Dedup.PickPrim | xdp/libbpf/src/btf.c:3664-3745 | what is picked represents the type; if nothing is, no duplicate is filed |
| Dedup.Dedup.PrimTypes | xdp/libbpf/src/btf.c:3747-3757 | after the pass every primitive is mapped, and nothing else; an integer or FWD to itself or an earlier type with the same descriptor |
| Dedup.Dedup.HypotMapAdd | xdp/libbpf/src/btf.c:2994-3009 | adds one hypothesis, and leaves fewer ids without one |
| Dedup.Dedup.ClearHypotMap | xdp/libbpf/src/btf.c:3011-3019 | clears all hypotheses by walking the list of the recorded |
| Dedup.Dedup.CompareShallow | xdp/libbpf/src/btf.c:3975-4000 | decides whether two descriptors of a kind can be one type, references aside |
| Dedup.Dedup.CompareRefs | xdp/libbpf/src/btf.c:3990-4055 | follows all references; on success all are justified, on refusal no completed map justifies them |
| Dedup.Dedup.IsEquiv | xdp/libbpf/src/btf.c:3911-4058 | terminates; on success the pair is justified and all that was recorded is compared, with kinds that can be one type; on refusal no completion of the hypothetical map justifies it |
| Dedup.Dedup.CompareRecorded | xdp/libbpf/src/btf.c:3940-4058 | the same for a pair just recorded; of one name and with resolution on, a FWD and another kind are one exactly if the other is a union and the flag is set or a struct and it is not |
| Dedup.Dedup.MergePair | xdp/libbpf/src/btf.c:4094-4145 | one pair of the merge does what the specification of a merge step says |
| Dedup.Dedup.MergeHypotMap | xdp/libbpf/src/btf.c:4086-4147 | merges the recorded pairs in order |
| Dedup.Dedup.CompareFresh | xdp/libbpf/src/btf.c:4209-4214 | from a cleared map: acceptance means every recorded pair was compared and forced, and the two types agree; refusal means no consistent correspondence exists |
| Dedup.Dedup.PickStruct | xdp/libbpf/src/btf.c:4190-4219 | a struct gets a representative it can be linked to; if it gets none, none filed can be it |
| Dedup.Dedup.StructType | xdp/libbpf/src/btf.c:4171-4227 | a struct becomes its own canonical type and then can be none of those filed before, or joins one of its shape by a merge of an accepted comparison; nothing else changes |
| Dedup.Dedup.StructTypes | xdp/libbpf/src/btf.c:4229-4239 | after the pass every struct and union is mapped |
| Dedup.Dedup.RefType | xdp/libbpf/src/btf.c:4265-4371 | terminates on every graph; success gives a self-canonical id with the references resolved; failure is -ELOOP and there is a cycle |
| Dedup.Dedup.RefTypes | xdp/libbpf/src/btf.c:4373-4386 | after the pass everything is mapped, references are canonical, and no chain of references returns to itself |
| Dedup.Dedup.CompactTypes | xdp/libbpf/src/btf.c:4399-4445 | compacts the records in place and notes the new ids |
| Dedup.Dedup.RemapTypeId | xdp/libbpf/src/btf.c:4453-4462 | never fails: gives the new id of the canonical type |
| Dedup.Dedup.RemapType | xdp/libbpf/src/btf.c:4474-4565 | one descriptor: each of its type ids, by kind, becomes the new id, and nothing else changes |
| Dedup.Dedup.RemapTypes | xdp/libbpf/src/btf.c:4567-4577 | rewrites every reference of every kept type, slot by slot: each type id becomes the new id, and nothing else changes |
| Dedup.Dedup.Finish | xdp/libbpf/src/btf.c:2920-2929 | compaction and remapping leave every kept type of the input under its new id, each of its fields as stated |
| Dedup.Dedup.Run | xdp/libbpf/src/btf.c:2883-2936 | all type passes: succeeds with the promised result or fails for the stated reason, always on a cycle of references |
| DedupForwards.RecordsJust | xdp/libbpf/src/btf.c:3881-3909 | an accepted comparison of a struct of two forwards of one name with one of two definitions records exactly three hypotheses |
| DedupForwards.RecordsInOrder | xdp/libbpf/src/btf.c:3002-3009 | in exactly one order |
| DedupForwards.ForwardsCanMergeDistinctStructs | xdp/libbpf/src/btf.c:4086-4147 | and their merge makes the one definition represent the other, with which it was never compared |
| DedupForwards.OutcomeOf5 | xdp/libbpf/src/btf.c:4171-4227 | this is what the struct pass comes to on every such graph |
| DedupRuns.Passes | xdp/libbpf/src/btf.c:2883-2936 | on graphs where every step can come to one map only the passes succeed with the last of them |
| DedupLost.TwoForwardsInconsistent | xdp/libbpf/src/btf.c:3881-3909 | two structs of 4 and of 8 bytes with one forward do not agree |
| DedupLost.TwoForwardsDeduplicated | xdp/libbpf/src/btf.c:2883-2936 | on this graph, with resolution on, the passes succeed with one of them left |
| DedupLost.DefinitionLost | xdp/libbpf/src/btf.c:3881-3909 | so that a definition no longer matches its output, by more than forwards |
| DedupHalf.HalfConsistent | xdp/libbpf/src/btf.c:3881-3909 | on another graph all definitions of announced names agree up to forwards |
| DedupHalf.HalfDeduplicated | xdp/libbpf/src/btf.c:2883-2936 | the passes succeed on it with the one that has a forward left |
| DedupHalf.DefinitionHidden | xdp/libbpf/src/btf.c:3881-3909 | so that a type that led to a definition leads to its forward: agreement up to forwards is not enough for spelling out |
| DedupApart.ApartInconsistent | xdp/libbpf/src/btf.c:3881-3909 | another graph whose two definitions of one forward do not agree |
| DedupApart.ApartDeduplicated | xdp/libbpf/src/btf.c:2883-2936 | comes out of the passes unchanged: neither condition is necessary |
| DedupJoins.SigHashIsLong | xdp/libbpf/src/btf.c:3337-3596 | a signature hash is a long, so as a key it stands for itself |
| DedupJoins.TableIsHashMap | xdp/libbpf/src/btf.c:2985-2992 | iterating over the key of a hash in the hash map meets exactly the candidates filed under that hash |
| DedupJoins.CompactionEncodes | xdp/libbpf/src/btf.c:4399-4445 | compacting the words of the descriptors leaves the words of the descriptors that compaction of the graph leaves, void aside, and their starts |
| BtfStrings.CStrKept | xdp/libbpf/src/btf.c:1632-1678 | appending to a string section leaves every string readable at its offset |
| BtfStrings.StringTable.Add | xdp/libbpf/src/btf.c:1632-1678 | a known string gets its old offset, a new one is appended; all issued offsets stay valid; -ENOMEM exactly when the section would overflow |
| BtfNames.RenamedNamesCanonical | xdp/libbpf/src/btf.c:3267-3335 | after string deduplication two name offsets are equal exactly when the names are |
| BtfNames.RenamesFields | xdp/libbpf/src/btf.c:3119-3170 | the names that are moved are those of the type, of each member, of each enumerator and of each parameter; all of them read as before, each within the new section, and nothing else changes |
| BtfNames.RenamedMeaning | xdp/libbpf/src/btf.c:3267-3335 | and every type reads the same at every depth, names included |
| BtfNames.SameRefsSameVerdict | xdp/libbpf/src/btf.c:3267-3335 | renaming changes no reference, so cycles and variable references are as before |
| BtfNamedAgree.ReadMatches | xdp/libbpf/src/btf.c:2740-2882 | trees that match up to forwards still do when offsets are read as strings |
| BtfNamedAgree.ConsistentByOffset | xdp/libbpf/src/btf.c:3267-3335 | if all definitions of a name that has a forward agree in the input, they do in the renamed graph |
| BtfNamedAgree.ReadSpells | xdp/libbpf/src/btf.c:2740-2882 | so do trees that spell others out |
| BtfNamedAgree.UnreadEqual | xdp/libbpf/src/btf.c:3267-3335 | types that read the same mean the same where equal names have equal offsets |
| BtfNamedAgree.UnivocalByOffset | xdp/libbpf/src/btf.c:3267-3335 | if all definitions of a name that has a forward mean the same in the input, they do in the renamed graph |
| BtfDedup.RemapStrOff | xdp/libbpf/src/btf.c:3206-3254 | one offset is replaced by the new offset of the same string |
| BtfDedup.RenameType | xdp/libbpf/src/btf.c:3119-3170 | one descriptor: all its names are moved and read as before, and nothing else changes |
| BtfDedup.DedupStrings | xdp/libbpf/src/btf.c:3267-3335 | every name of every type, its members, enumerators and parameters is moved to where its string is in the new section, and nothing else changes; or -ENOMEM |
| BtfDedup.Deduplicate | xdp/libbpf/src/btf.c:2883-2936 | the whole of btf__dedup, as under Main results |
| BtfDedup.ResultDeduplicates | xdp/libbpf/src/btf.c:2750-2762 | from offsets to strings: the promise about information not being lost, exactly |
| BtfDedup.ResultSpells | xdp/libbpf/src/btf.c:2750-2762 | and, with resolution on, every input type spelt out, where announced names have one meaning |
| BtfDedup.DefinitionsByName | xdp/libbpf/src/btf.c:2750-2762 | by kind and flag: kinds, names and definitions stay whatever is resolved |
| BtfDedup.ResultCarried | xdp/libbpf/src/btf.c:2883-2936 | string pass and type passes together carry every output entry over from an input type field by field |
| BtfDedup.DefinitionRead | xdp/libbpf/src/btf.c:2750-2762 | two definitions that agree at the top have the same names and the same rest in all fields |
| BtfDedup.ResultReads | xdp/libbpf/src/btf.c:2750-2762 | every definition reads the same in its output entry, all names of all fields, where nothing is resolved or definitions agree |
| BtfDedup.ResultAgrees | xdp/libbpf/src/btf.c:2750-2762 | and up to forwards on either side, where definitions of announced names agree that far |
| BtfLayout.RecordIsWords | xdp/libbpf/src/btf.c:282-314 | the length of a record told from its info word is the number of words its fields take: three, one more for INT and VAR, three for ARRAY and each member and section entry, two for each value and parameter |
| BtfLayout.ParseOneMore | xdp/libbpf/src/btf.c:387-423 | a record put behind a well-formed section is its next record |
| BtfLayout.SectionParses | xdp/libbpf/src/btf.c:387-423 | the words of descriptors one after the other are read with exactly one start for each, where it begins |
| BtfLayout.WordsDetermine | xdp/libbpf/src/btf.c:323-385 | the words of a descriptor determine every field of it |
| BtfLayout.SectionDetermines | xdp/libbpf/src/btf.c:387-423 | the words of a section determine all its descriptors |
| BtfCompact.SectionRecords | xdp/libbpf/src/btf.c:282-314 | the records of a section of descriptors are their words |
| BtfCompact.KeptSection | xdp/libbpf/src/btf.c:4399-4445 | the words kept of a section of descriptors are the section of the kept descriptors |
| BtfCompact.KeptBelow | xdp/libbpf/src/btf.c:4419-4433 | the write position never passes the unread type |
| BtfCompact.KeptParses | xdp/libbpf/src/btf.c:4399-4445 | the compacted words are a well-formed section whose records start where the new index says |
| BtfCompact.KeptRecords | xdp/libbpf/src/btf.c:4419-4433 | each record of it is, word for word, the record of the kept type of its number |
| BtfCompact.MoveDown | xdp/libbpf/src/btf.c:4427-4427 | an overlapping move to a lower position |
| BtfCompact.CompactTypes | xdp/libbpf/src/btf.c:4399-4445 | compaction of buffer and offset index in place gives exactly the kept words, offsets and lengths; the words of descriptors become those of the kept descriptors |
| BtfEndian.SwapTypeRest | xdp/libbpf/src/btf.c:323-385 | swaps the words after the base of a record, as many as the descriptor with that info word has, each once, and nothing else; unknown kinds are an error |
| BtfEndian.ParseTypeSec | xdp/libbpf/src/btf.c:387-423 | reading succeeds exactly on a section well-formed in its own byte order, which it leaves native with the right index; a section of descriptors is read with one start for each |
| BtfEndian.WriteSwapped | xdp/libbpf/src/btf.c:1245-1293 | writing swaps every word once, although the rest of each record goes before its base |
| BtfEndian.RoundTrip | xdp/libbpf/src/btf.c:1245-1293 | what is written in the other byte order reads back with the same words and index |
| BtfEndian.SwapTwice | xdp/libbpf/src/btf.c:316-321 | swapping the bytes of a word twice gives the word |
| BtfEndian.SwapDigits | xdp/libbpf/src/btf.c:316-321 | swapping reverses the four bytes of a word |
| BtfRaw.SwapHalves | xdp/libbpf/src/btf.c:209-217 | and the two of the magic number |
| BtfRaw.LoadingGives | xdp/libbpf/src/btf.c:209-280 | a file that loads has a header in native order whose sections lie in the file in order, sound strings and well-formed types |
| BtfRaw.New | xdp/libbpf/src/btf.c:795-845 | loading as a whole: the stated error or header, words, index and strings in native order |
| BtfRaw.GetRawData | xdp/libbpf/src/btf.c:1245-1293 | writing as a whole: header as it is, type section and strings behind it, in either byte order |
| BtfRaw.RoundTrip | xdp/libbpf/src/btf.c:1245-1293 | a file written and read again is what was loaded exactly if the strings were right behind the types, and is refused otherwise |
| BtfRaw.GapLost | xdp/libbpf/src/btf.c:1245-1293 | a file with a gap between its sections that loads and does not survive this |
| BtfSize.ResolveSize | xdp/libbpf/src/btf.c:564-614 | a result that is no error is the product of all array lengths and the leaf size; -E2BIG exactly if a part or the whole exceeds 32 bits; else -EINVAL; by kind, for every walk of at most 32 types and every longer one |
| BtfSize.PassArray | xdp/libbpf/src/btf.c:596-601 | the division test detects exactly a product that does not fit |
| BtfSize.WalkFinds | xdp/libbpf/src/btf.c:571-607 | a walk by typedefs, qualifiers, variables and arrays finds the size of what it ends at and the array lengths on the way |
| BtfSize.LongWalk | xdp/libbpf/src/btf.c:571-607 | a walk of more than 32 types finds no size |
| DumpModel.MarkKeeps | xdp/libbpf/src/btf_dump.c:422-563 | a type may be marked ordered once what it needs directly is settled; everything it needs at any depth was ordered before |
| DumpModel.DoneGivesOrder | xdp/libbpf/src/btf_dump.c:342-420 | so definitions come after all definitions they need: by value, through arrays, modifiers and typedefs, and through pointers to anonymous structs |
| DumpModel.PartNeeded | xdp/libbpf/src/btf_dump.c:422-563 | what a member or a typedef holds by value, through arrays and qualifiers, is needed |
| DumpModel.OrderByKind | xdp/libbpf/src/btf_dump.c:422-563 | by kind: everything that has a name and is held by value in a struct, union or typedef is defined before it, and nothing else but definitions is queued |
| DumpModel.NoSelfNeeding | xdp/libbpf/src/btf_dump.c:444-451 | a settled type needs no type that needs itself |
| DumpModel.StuckMember | xdp/libbpf/src/btf_dump.c:444-451 | a member blocked by its own struct shows a loop that the struct reaches |
| DumpModel.LoopIsNeed | xdp/libbpf/src/btf_dump.c:444-451 | a loop reached without passing a prototype is a definition that needs itself |
| Dump.MarkReferenced | xdp/libbpf/src/btf_dump.c:268-328 | marks exactly the types that others refer to, the results of prototypes and the words of forwards passed over |
| Dump.ResultEnum | xdp/libbpf/src/btf_dump.c:256-328 | an anonymous enum is queued as a definition exactly if nothing refers to it but results of prototypes |
| Dump.ResultEnumEmitted | xdp/libbpf/src/btf_dump.c:306-315 | such an enum, which the documentation of the marking says is not top-level |
| Dump.PrototypeLoop | xdp/libbpf/src/btf_dump.c:422-563 | a loop past a prototype that is no definition that needs itself: on it the two conditions for -ELOOP differ |
| Dump.BtfDump.constructor | xdp/libbpf/src/btf_dump.c:121-188 | the empty state, with all references marked, for every graph |
| Dump.BtfDump.OrderType | xdp/libbpf/src/btf_dump.c:422-563 | terminates; on success keeps the order and settles what was asked for; -ELOOP only if the visit needs a definition under way or reaches a loop |
| Dump.BtfDump.DumpType | xdp/libbpf/src/btf_dump.c:234-254 | success: definitions in an order C accepts, by kind and whatever is needed at any depth, the type's own among them; -ELOOP for anything that needs a self-needing type or reaches a loop past no prototype, and only if the type reaches a loop; -EINVAL exactly out of range |
| LbfModel.QueueInsertSorted | lbf/src/linux/sch_lbf.c:165-220 | insertion keeps a queue sorted by earliest send time |
| LbfModel.QueueInsertAdds | lbf/src/linux/sch_lbf.c:165-220 | and adds the packet and nothing else |
| LbfModel.QueueInsertStable | lbf/src/linux/sch_lbf.c:165-220 | packets of one send time stay in arrival order |
| LbfModel.PlaceSpec | lbf/src/linux/sch_lbf.c:243-276 | where the lookup for a budget stops |
| LbfModel.WithBucketOrdered | lbf/src/linux/sch_lbf.c:222-280 | the bucket found or made has the budget's range start and keeps the (non-decreasing) order of buckets |
| LbfModel.BucketMade | lbf/src/linux/sch_lbf.c:222-280 | a bucket is made for ten budgets only if there is none, except that a budget ending in 9 always gets a new one |
| LbfModel.EnqueueOrdered | lbf/src/linux/sch_lbf.c:382-396 | an insertion keeps all order |
| LbfModel.PruneSpec | lbf/src/linux/sch_lbf.c:455-476 | a sweep drops the expired packets at the head, all of them and nothing else |
| LbfModel.PruneDueSpec | lbf/src/linux/sch_lbf.c:511-536 | the same for the immediate search, which stops at early packets |
| LbfModel.NextIsEarliest | lbf/src/linux/sch_lbf.c:436-493 | the packet found has the earliest send time of all left in all buckets; none is found only if nothing can be sent before the end of time |
| LbfModel.NowIsDue | lbf/src/linux/sch_lbf.c:495-554 | the packet found is due and not expired, from the first bucket in order that has one; none is found only if all wait for the future |
| LbfQueue.PacketQueue.Add | lbf/src/linux/sch_lbf.c:165-220 | the linked insertion is the model's; exactly the head carries the back-link |
| LbfQueue.PacketQueue.RemoveFirst | lbf/src/linux/sch_lbf.c:405-434 | removing a head hands the back-link on |
| LbfQueue.PacketQueue.Sweep | lbf/src/linux/sch_lbf.c:452-487 | the linked sweep is the model's |
| LbfQueue.PacketQueue.SweepDue | lbf/src/linux/sch_lbf.c:508-549 | the linked immediate sweep is the model's |
| LbfQueue.HnodeList.GetHnode | lbf/src/linux/sch_lbf.c:222-280 | the linked bucket lookup is the model's, new buckets linked in place |
| LbfQueue.HnodeList.Enqueue | lbf/src/linux/sch_lbf.c:384-396 | bucket lookup and packet insertion together are the model's |
| LbfQueue.HnodeList.RemovePnode | lbf/src/linux/sch_lbf.c:405-434 | the removal, found through the back-link, takes the head of its bucket; the bucket stays |
| LbfQueue.HnodeList.SearchNext | lbf/src/linux/sch_lbf.c:436-493 | sweeps all buckets and returns the node the model chooses |
| LbfQueue.HnodeList.SearchNow | lbf/src/linux/sch_lbf.c:495-554 | sweeps up to the first bucket with a packet due and returns its head |
| LbfRuns.RunOrdered | lbf/src/linux/sch_lbf.c:145-554 | after any run of arrivals, searches and removals of heads the order holds, and the packets of one queue and one send time are the last such arrivals sent to it, in their order |
| LbfRuns.DroppedExpired | lbf/src/linux/sch_lbf.c:455-536 | only packets past their window are dropped, and only while the last arrival's hop count is used up |
| LbfRuns.SentDue | lbf/src/linux/sch_lbf.c:495-598 | a packet sent is due, and late only while the last arrival had hops left |
| LbfRuns.LateFate | lbf/src/linux/sch_lbf.c:345-345 | a late packet that leaves is sent exactly if the last arrival had hops left, and dropped exactly if not |
| LbfRuns.FirstDueLeaves | lbf/src/linux/sch_lbf.c:495-554 | the head of the first bucket with a packet due does leave with the immediate search |
| LbfRuns.RunConserves | lbf/src/linux/sch_lbf.c:145-554 | every packet that ever arrived is queued, sent or dropped, once |
| LbfDelay.CountDownExact | lbf/src/linux/sch_lbf.c:344-345 | the decrement in network order is right unless the low byte of the count is zero, and what it gives then |
| LbfDelay.HopsRunOut | lbf/src/linux/sch_lbf.c:344-345 | the count reaches zero exactly if it starts below 256 |
| LbfDelay.FeasibleWindow | lbf/src/linux/sch_lbf.c:115-143 | a contract that can be met gets a window that is not empty and is queued with its slack |
| LbfDelay.HopKeeps | lbf/src/linux/sch_lbf.c:314-368 | a hop that keeps its window hands a contract on that can be met; the last one meets the minimum |
| LbfDelay.PathBound | lbf/src/linux/sch_lbf.c:314-368 | paths of any length up to 255 hops: no discard, windows never empty, total delay in the contract's bounds; in the header's units by `LbfUnits.PathInMilliseconds` |
| LbfDelay.PathReaches | lbf/src/linux/sch_lbf.c:115-143 | and every total in the bounds can be reached |
| LbfUnits.JudgeIsWindow | lbf/src/linux/sch_lbf.c:314-381 | what any packet gets, in milliseconds, tenths and nanoseconds, every case and wrap included: refused, discarded, or queued from now plus its share of what is missing to now plus its share of what is left, 64000 and one second for best effort |
| LbfUnits.FiveToTen | lbf/src/linux/sch_lbf.c:328-368 | 5 to 10 milliseconds over one hop: a slack of 50, not before 5 nor after 10 milliseconds |
| LbfUnits.FiveAtLeast | lbf/src/linux/sch_lbf.c:347-368 | at least 5 milliseconds and no maximum: best effort, not before 5 milliseconds nor after a second |
| LbfUnits.LeaveIs | lbf/src/linux/sch_lbf.c:344-345 | a hop writes the tenths it held the packet and one hop less into the header |
| LbfUnits.HopInWindow | lbf/src/linux/sch_lbf.c:115-143 | a hold between these two shares is a window kept, and leaves the total below the maximum |
| LbfUnits.PathInMilliseconds | lbf/src/linux/sch_lbf.c:314-368 | over 1 to 255 hops the tenths experienced at the end and the milliseconds to come lie between minimum and maximum |
| LbfWindow.SentInWindow | lbf/src/linux/sch_lbf.c:495-598 | a packet sent has kept the window its contract gave it exactly if it is not late, which is certain while the last arrival was on its last hop |
| LbfWindow.LastHopSentLate | lbf/src/linux/sch_lbf.c:345-345 | two arrivals after which a packet on its last hop is sent late |
| LbfWindow.MidPathDropped | lbf/src/linux/sch_lbf.c:511-536 | two arrivals after which a packet with a hop to go is dropped |
| LbfSched.Header.Weigh | lbf/src/linux/sch_lbf.c:322-343 | the budget arithmetic leaves the contract as it is and gives the two budgets, worked out from the fields in tenths of a millisecond |
| LbfSched.Header.AddDelay | lbf/src/linux/sch_lbf.c:609-616 | dequeueing adds the time in the queue, in tenths of a millisecond and 16 bits, to the experienced delay and changes nothing else of the contract |
| LbfSched.Scheduler.Admit | lbf/src/linux/sch_lbf.c:282-381 | the verdict on an arrival, its rewritten contract and the hop count it leaves |
| LbfSched.Scheduler.Enqueue | lbf/src/linux/sch_lbf.c:282-400 | verdict, in the units of the header, and rewritten contract of an arrival, and the run it extends: bucket list and hop count are what the run so far leaves |
| LbfSched.Scheduler.SendNow | lbf/src/linux/sch_lbf.c:592-598 | the immediate search and removal is one step of a run and returns what that step sends |
| HashModel.UpperBits | xdp/libbpf/src/hashmap.h:15-29 | the bucket number is below the number of buckets |
| HashModel.FirstUnder | xdp/libbpf/src/hashmap.c:130-152 | a chain search stops at the first entry under the key |
| HashRefine.GrowReverses | xdp/libbpf/src/hashmap.c:101-128 | growth keeps every entry in its bucket and the load bound, and turns the order under each key around |
| HashRefine.InsertRefines | xdp/libbpf/src/hashmap.c:154-204 | an insertion of any strategy does to the entries of every key what the reference says, error and old entry included |
| HashRefine.DeleteRefines | xdp/libbpf/src/hashmap.c:220-240 | a deletion drops the first entry under its key and nothing else |
| HashRefine.FindSpec | xdp/libbpf/src/hashmap.c:206-218 | a lookup gives the first entry's value, and finds one exactly if there is one |
| HashRefine.RunRefines | xdp/libbpf/src/hashmap.c:63-240 | after any run contents, order, count and capacity are the reference's |
| HashRefine.MapStep | xdp/libbpf/src/hashmap.h:80-96 | without APPEND the table is a finite map and an operation changes the lookup of its own key only |
| HashRefine.Succeeds | xdp/libbpf/src/hashmap.h:80-96 | with memory to spare ADD succeeds exactly on unknown keys, UPDATE on known ones, SET always |
| HashRefine.AppendStep | xdp/libbpf/src/hashmap.h:90-96 | APPEND adds one entry to the multiset of the key, and a lookup finds it |
| HashRefine.OtherKeyStep | xdp/libbpf/src/hashmap.h:94-96 | an insertion under another key changes a lookup exactly through growth, which turns it to the entry that was last |
| HashRefine.OthersTurn | xdp/libbpf/src/hashmap.h:94-96 | operations under other keys turn the entries of a key around as often as the table grows and do nothing else to them |
| HashRefine.LastInserted | xdp/libbpf/src/hashmap.h:94-96 | after any such operations a lookup gives the entry inserted last exactly if the growths since are even in number or it is the only one |
| HashRefine.LastInsertedLost | xdp/libbpf/src/hashmap.h:94-96 | a run after which a lookup does not give the entry inserted last |
| Hashmap.HashMap.constructor | xdp/libbpf/src/hashmap.c:38-49 | the empty map |
| Hashmap.HashMap.Grow | xdp/libbpf/src/hashmap.c:101-128 | moves all linked entries to twice the buckets as the model does |
| Hashmap.HashMap.FindEntry | xdp/libbpf/src/hashmap.c:130-152 | finds the first entry with an equal key and the link before it |
| Hashmap.HashMap.Insert | xdp/libbpf/src/hashmap.c:154-204 | all strategies, on the linked entries, as the model; the invariant holds after |
| Hashmap.HashMap.Find | xdp/libbpf/src/hashmap.c:206-218 | as the model |
| Hashmap.HashMap.Delete | xdp/libbpf/src/hashmap.c:220-240 | as the model, unlinking one entry |
| Hashmap.HashMap.Clear | xdp/libbpf/src/hashmap.c:63-74 | empties the map |
| Hashmap.HashMap.KeyEntries | xdp/libbpf/src/hashmap.h:179-193 | iteration over a key visits exactly its entries |
| Hashmap.HashMap.AllEntries | xdp/libbpf/src/hashmap.h:155-157 | iteration over the map visits all entries, as many as its size |
| ProgLinfo.Linfo.Dissect | xdp/libbpf/src/bpf_prog_linfo.c:22-86 | succeeds exactly if the records can be split into one run a function, and then the split found is the only one |
| ProgLinfo.NextRecord | xdp/libbpf/src/bpf_prog_linfo.c:47-76 | each record is forced to start the next function or to continue this one |
| ProgLinfo.Linfo.LfindAddrFunc | xdp/libbpf/src/bpf_prog_linfo.c:181-216 | returns the record before the first above the address in the run after the skip, and nothing exactly in the stated cases |
| ProgLinfo.Linfo.Lfind | xdp/libbpf/src/bpf_prog_linfo.c:219-246 | the same by instruction offset over all records |
| ProgLinfo.LookupExact | xdp/libbpf/src/bpf_prog_linfo.c:181-216 | inside a function other than the last, the record returned separates the addresses at or below from those above |
| Jhash.Jhash2 | xdp/headers/jhash.h:114-142 | the loop over words computes the hash as defined by blocks of three |
| Jhash.Jhash | xdp/headers/jhash.h:68-105 | the loop over bytes computes the hash as defined by blocks of twelve, the falling-through tail included |
| Jhash.FormsAgree | xdp/headers/jhash.h:68-142 | both agree on the little-endian bytes of any words, from any state |
| Jhash.BytesAgree | xdp/headers/jhash.h:68-142 | so hashing 4n bytes is hashing n words |
| Jhash.FixedFormsAgree | xdp/headers/jhash.h:146-170 | the one-, two- and three-word forms hash those words |

## Left out

- Split BTF: there is no base BTF, so ids start at 1 and nothing is adjusted to a base type.
- `.BTF.ext`: its string offsets and type ids are not remapped.
- Allocation failures, other than those of the hash map and of a full string section.
- In deduplication the order in which the hash table yields candidates of one hash is arbitrary but
  fixed; which candidates it yields is what the hash map does (`DedupJoins.TableIsHashMap`).
- In deduplication, the string section is a sequence of characters and the string table a
  finite map from strings to offsets.
- Duplicate structs that no hypothetical map relates stay in the output, as in the code; the
  no-duplicates result is about primitives and reference types.
- The result that no duplicates remain asks that the unused type word of every FWD is zero.
- With forward resolution on, that all definitions of an announced name mean the same is proved
  enough for spelling out, and that they agree up to forwards enough for agreement; both are by
  example not necessary, and an exact condition would have to follow the order of ids and of hash
  table candidates.
- DedupMap.ComparisonAgrees: lets either side have the forward; `DedupSpell.MergedOne` does not.
- DedupRemap.OutputAgrees: lets the output have a forward for a definition further down, as the
  code does (`DedupHalf.DefinitionHidden`); `DedupRemap.OutputSpells` says when it does not.
- BtfDedup.ResultAgrees: the same by name; the other promise is `BtfDedup.ResultSpells`.
- -EINVAL is proved to mean that something other than a data section refers to a VAR. Not every
  such graph fails: it does only when a comparison of structs comes to the VAR.
- BTF headers longer than 24 bytes, and header fields whose sums wrap around in 32 bits; bytes of a
  file that are kept and handed out again instead of being put together (`btf__get_raw_data`).
- Dedup.Dedup.CompactTypes: moves whole records of an array; words, byte positions and lengths
  are in `BtfCompact`, joined to it by `DedupJoins.CompactionEncodes`.
- DedupRemap.CompactStep: works on whole records, with the same join to words.
- BtfEndian.RoundTrip: is about the type section; `BtfRaw.RoundTrip` is about the whole file.
- C text emission: printing, naming, indentation and forward declarations of a dump.
- Dumping again after a dump that failed: a failed traversal leaves types marked as ordered whose
  definitions were never printed, and nothing is stated of later calls. BTF that grows between
  dumps is left out as well.
- Dump.BtfDump.DumpType: loops that are reached only past a function prototype need not give
  -ELOOP, because a typedef of a prototype that was ordered behind a pointer is not looked into
  again by value (`Dump.PrototypeLoop`).
- Dump.BtfDump.OrderType: asks that no cycle of references stays clear of structs and unions.
- The dump's recursion is modelled for graphs whose reference cycles all pass through a struct or
  a union; the code recurses forever on others.
- LbfSched.Scheduler.SendNow: is the immediate search and removal only, not the caching of the
  next packet across calls in `lbf_dequeue`, which may displace it from its bucket head; runs
  have a step that takes such a packet while it is the head (`LbfRuns.TakeNext`).
- Kernel buffers, queue limits, statistics, the watchdog timer and the plain FIFO and
  maximum-delay paths of the scheduler; packets are opaque numbers and each operation reads the
  clock once.
- The branch of `remove_pnode` that unlinks a bucket is never taken, because the previous-bucket
  link is never set; buckets stay when empty.
- LbfWindow.SentInWindow: clocks are taken not to wrap within a packet's stay.
- `Jhash` takes the mixing steps from the header line by line; how well they mix is not stated.
- Byte offsets of line records are computed in 32 bits in the code; `ProgLinfo` works on record
  numbers.
- Code other than the above: system calls, ELF and file loading, XDP attaching, pinning, command
  lines, the router programs and the Python scripts.
