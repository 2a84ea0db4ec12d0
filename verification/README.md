# Zone-data verification

This project models the zone-data core of a DNSSEC auditor in Dafny and proves what that core promises. The auditor
keeps DNS zones in memory, follows a primary server by full and incremental transfers, verifies each zone completely
or only where it was touched, and tracks the state of every zone it monitors.

The modules follow the program's layers:

- `Bytes`, `Names`, `Text`, `Base32`, `Records`: byte strings, names as label sequences with their canonical order,
  expiry keys, the base32hex codec, records and RRsets.
- `Ring`, `StoreSpec`, `Store`, `Arrivals`: the NSEC3 ring; the zone store as a class updated in place, proved against
  a specification on values (`StoreSpec.Step`); what every run of changes keeps, and what it leaves.
- `Findings`, `Signatures`, `Verify`, `FullPass`, `CleanZone`: findings and their merge, the checks of RRsets and nodes,
  the full pass with its worker pool; what its findings and its verdict mean in terms of the zone's records.
- `Incremental`, `Refinement`, `WholePass`, `Expiry`, `ExpiryIndex`, `Drift`: the incremental pass, exactly when it
  leaves what a full pass finds, the expiry sweep and what it finds in terms of the records; inputs on which indexes
  and incremental passes go wrong.
- `Xfr`, `PrimaryServer`, `Loading`, `Replication`, `OutOfSync`, `AsRead`: the transfer client, the primary with its
  journal, runs of both, runs that end out of sync, and what a reader sees of RRsets with several TTLs.
- `Generate`, `Generated`, `Denial`, `ValidZone`: the generator of signed zones, what it makes, and that the checker
  accepts it.
- `Snapshot`, `Zonemd`, `Finalize`, `DigestInput`, `FinishedZone`: snapshots, zone digests and what they depend on, and
  zones whose digest was finalized.
- `Serial`, `ZoneState`, `Monitor`, `MonitorRuns`, `Transitions`, `Verdicts`, `HonestPasses`: serial arithmetic, one
  monitored zone as a class, every interleaving of its locked steps, which step records which state, and what a valid
  verdict is worth.
- `Catalog`, `CatalogRuns`: catalog differences and the reconcile loop.

A class has a ghost view (`Store.state`, `ZoneRuntime.View()`, `Watcher.View()`), and its methods say what the new
view is. The lemmas about runs speak of those views.

Contracts of methods name specification functions. What these mean is proved apart, without them: `Names.BeforeMeans`
and `Bytes.LessMeans` of the orders, `Text.ExpiryKeyInjective` of the index keys, `CleanZone.FindingsMean` of findings,
`ExpiryIndex.SweepMeans` of the sweep, `DigestInput.DigestMeans` of digests, `Arrivals` of the store, `Generated` of the
generator, `Transitions` of the monitor, `Snapshot.ImageMeans` and `PrimaryServer.AnswerMeans` of the formats.

Foreign code is a parameter: signature verification and key parsing (`Env`), the NSEC3 hash, signing (`Options`),
record text and wire forms and digests (`Digester`, `Codec`). Laws they need are stated where they are used: the hash
tells the names in use apart (`GoodHash`), unpacking undoes packing for the records written (`Lawful`; a codec that does
so exists for every list of records, `Snapshot.NumberingIsLawful`), the text form tells records apart (`Tells`). A
record's wire form is the record itself, with a flag for those that do not pack.

Where the code does less than it is meant to do, the model follows the code. For each such case a lemma gives an input
on which it fails, and another says exactly when it does what is meant:

- The comment on `parseIXFR` (internal/xfr/client.go:225-227) allows several difference sequences; the code loses
  additions on those (`Xfr.TwoHopsLoseAdditions`, `Xfr.MultiHopIsRightIff`).
- A replica can be served the wrong entry when a serial is used twice (`OutOfSync.RepeatedSerialServesOldEntry`,
  `Replication.ServedEntrySyncsIff`).
- It loses additions when an SOA is edited without a new serial (`OutOfSync.EditedSOALosesAdditions`,
  `OutOfSync.FairRequestSyncsIff`).
- It can miss what a request applied before it failed (`OutOfSync.FailedRequestIsMissed`,
  `OutOfSync.FailedRequestSyncsIff`).
- Reading a record with TTL zero back gives it the TTL of its RRset (`OutOfSync.MixedTTLsAreNotReplicated`,
  `Loading.ReadsRecordsIff`, `Replication.FullTransferSyncs`), and a replica filled that way can miss a later removal
  (`AsRead.MixedRemovalIsMissed`, `AsRead.RemovalFollowedIff`).
- An incremental pass keeps findings at names it does not touch (`Drift.NewCutKeepsFinding`,
  `Refinement.IncrementalRefinesFull`; `Drift.NewNSEC3KeepsFinding`, `WholePass.PresenceAgreesIff`), never looks at the
  NSEC chain (`Drift.NSECChainSlipsThrough`, `WholePass.ChainAgreesIff`), closes findings about the keys when the apex
  is touched (`Drift.TouchedApexDropsKeyFinding`, `WholePass.ApexAgreesIff`) and checks signatures a full pass does
  not (`Drift.NewNSEC3KeepsFinding`, `WholePass.HashSignaturesAgreeIff`). `WholePass.IncrementalIsFullIff` has all.
- It does not see an NSEC3 with an undecodable owner (`Drift.UndecodableOwnerSlipsThrough`,
  `Refinement.IncrementalDecidesRing`), and an empty touched set closes every finding
  (`Refinement.NothingTouchedClosesAll`).
- Removing a record that is not stored can drop the index entry of one that is (`Drift.RemovalDropsForeignEntry`,
  `StoreSpec.RemoveKeepsAgreement`).
- The expiry sweep stops early when 32-bit sums wrap around (`Expiry.WrappedCutoffMisses`, `Expiry.WrappedSkewMisses`,
  `Expiry.SweepSeesAllFlagged`, `Expiry.SweepIsNaiveScan`).
- A chain-of-trust error that arrives during an incremental verification can end up in a valid zone
  (`Verdicts.LateErrorSlipsThrough`, `Verdicts.CleanUnlessLateError`).
- A zone that moves between catalogs can be dropped for good (`CatalogRuns.MoveLosesZone`,
  `CatalogRuns.VisitKeepsMonitoredIff`).

## Model

| member | source | states |
|---|---|---|
| `Bytes.LessIsTotalOrder` | internal/zone/store.go:375-395 | byte-string comparison, which the ordered indexes rest on, is a strict total order |
| `Bytes.LessMeans` | internal/zone/store.go:375-395 | what comes first is a proper prefix, or has the smaller byte at the first difference |
| `Bytes.Scan` | internal/zone/store.go:359-365 | an ascending scan of an ordered index visits every key once, in strictly ascending order |
| `Names.CmpAntisymmetric` | internal/zone/nsec3.go:105-121 | comparing two names the other way round flips the sign, and only equal names compare equal |
| `Names.BeforeIsTotalOrder` | internal/zone/nsec3.go:105-121 | `CanonicalCmp` is a strict total order (section 6.1 of RFC 4034) |
| `Names.BeforeMeans` | internal/zone/nsec3.go:105-121 | what comes first is a proper suffix, or has the smaller label where the names differ first from the right (section 6.1 of RFC 4034) |
| `Names.AncestorFirst` | internal/zone/nsec3.go:105-121 | a name sorts before everything below it |
| `Names.SubtreeContiguous` | internal/zone/nsec3.go:105-121 | whatever sorts between two names of a subtree is in that subtree |
| `Names.NextNameInSorted` | internal/dnssec/nsec.go:51-65 | in a sorted list the cyclically next element is the canonical successor, for the last name the first |
| `Names.CutIsProperAncestor` | internal/dnssec/verify.go:170-189 | the upward walk finds a cut exactly when some suffix of the name, met before the origin, is one |
| `Names.UnderCutDependsOnAncestors` | internal/dnssec/verify.go:170-189 | only cuts at strict ancestors decide authority |
| `Text.PaddedOrder` | internal/zone/store.go:242-244 | zero-padded decimals of one width compare as text exactly as the numbers do |
| `Text.ExpiryKeyOrder` | internal/zone/store.go:242-244 | of two expiry keys the one with the smaller expiration is the smaller text, whatever follows |
| `Text.CutoffKeyOrder` | internal/zone/store.go:457-470 | an expiry key is past the scan bound exactly when its expiration is past the cut-off, for every uint32 |
| `Text.ExpiryKeyInjective` | internal/zone/store.go:242-244 | two keys are equal if and only if expiration, owner text, covered type and key tag are |
| `Text.DottedInjective` | internal/zone/store.go:242-244 | the owner text tells names apart whose labels are not empty and hold no dot |
| `Base32.Base32Hex` | internal/zone/nsec3.go:81-101 | the encoder with its overflowing 64-bit buffer gives the base32hex text of the input bits, padded to five |
| `Base32.DecodeBase32Hex` | internal/zone/nsec3.go:45-78 | the decoder with its overflowing 64-bit buffer gives the complete octets of the digits, or an error for an empty result or a foreign character |
| `Base32.ShiftIn` | internal/zone/nsec3.go:86-91 | pushing bits into a buffer that has lost its high bits keeps the pending bits right |
| `Base32.ShiftOut` | internal/zone/nsec3.go:86-91 | what is shifted out is the oldest pending bits, and the rest stays pending |
| `Base32.EncodedBits` | internal/zone/nsec3.go:81-101 | the digits of an encoding spell the input bits followed by fewer than five zeros |
| `Base32.DecodeOfEncode` | internal/zone/nsec3.go:33-43 | decoding the encoding of any non-empty byte string gives it back |
| `Base32.DecodeIgnoresCase` | internal/zone/nsec3.go:33-43 | upper and lower case decode alike, and every non-empty label of base32hex digits decodes |
| `Base32.EncodeOfDecode` | internal/zone/nsec3.go:33-43 | re-encoding a decoded label gives its lower-case form if and only if the bits thrown away are fewer than five zeros; none are when the length is a multiple of eight |
| `Base32.EncodedOrder` | internal/zonegen/generate.go:428-437 | sorting the labels of equally long hashes as text is sorting the hashes |
| `Base32.LabelOrderIsHashOrder` | internal/dnssec/nsec.go:135 | on labels of length n text order is decoded byte order if and only if n is a multiple of eight |
| `Base32.LastDigitIsLost` | internal/zone/nsec3.go:33-43 | on every other length two different labels decode to the same octets |
| `Ring.NextPrevInverse` | internal/zone/store.go:397-442 | successor and predecessor are inverse on the members of the ring |
| `Ring.NextInSorted` | internal/dnssec/nsec.go:135-141 | in ascending order the cyclically next hash is the ring successor |
| `Ring.CoverAnswers` | internal/zone/store.go:375-395 | in a closed ring the covering record matches the hash or has it in its interval, wrap-around and one-record rings included |
| `Ring.OnlyCoverAnswers` | internal/zone/store.go:375-395 | no other record does |
| `Ring.DeniesExactlyOnce` | internal/dnssec/nsec.go:119-146 | a closed, non-empty ring answers for every possible hash with exactly one record, the covering one (section 7.1 of RFC 5155) |
| `Ring.LocalChecksDecideRing` | internal/dnssec/incremental.go:52-68 | from a closed ring, the local checks at the touched hashes all succeed if and only if the whole new ring is closed and every touched hash is there |
| `Ring.UnseenStillPoints` | internal/dnssec/incremental.go:60-67 | after changes to a closed ring that leave every touched hash in place, a record that is neither touched nor in front of a touched one still points at its successor |
| `Store.Node.AddPacked` | internal/zone/node.go:48-64 | files a record: a duplicate is dropped, the first non-zero TTL stands, the count grows by what was filed |
| `Store.Node.RemovePacked` | internal/zone/node.go:66-91 | takes a record out; an emptied RRset goes away; the result says whether the record was there |
| `Store.Node.RecomputeFlags` | internal/zone/node.go:93-96 | delegation means NS away from the origin, secure means DS |
| `Store.Node.RecordCount` | internal/zone/node.go:40-46 | counts the records of all RRsets |
| `Store.DropFirst` | internal/zone/node.go:66-91 | removes the first equal record and only that one |
| `Store.Store.AddRR` | internal/zone/store.go:153-179 | the whole new state after an addition; a record that does not pack changes nothing |
| `Store.Store.RemoveRR` | internal/zone/store.go:187-213 | the whole new state after a removal, including the de-indexing of a record that was not there |
| `Store.Store.IndexRR` | internal/zone/store.go:215-228 | enters NSEC3 and RRSIG records under hash and expiry key |
| `Store.Store.DeindexRR` | internal/zone/store.go:230-240 | takes the entry out whose key the record has, whatever the entry holds |
| `Store.Store.ApexRR` | internal/zone/store.go:246-257 | the first apex record of a type |
| `Store.Store.ApplyChanges` | internal/zone/store.go:474-497 | removals, then additions, one step each; stops at the first record that does not pack, keeping what was done; returns what was touched |
| `Store.Store.CoveringNSEC3` | internal/zone/store.go:375-395 | the record at the greatest hash not above the given one, cyclically; none for an empty ring |
| `Store.Store.NextNSEC3` | internal/zone/store.go:397-422 | the ring successor of any hash, present or not |
| `Store.Store.PredNSEC3` | internal/zone/store.go:424-442 | the ring predecessor of any hash, itself only when alone |
| `Store.Store.EarliestExpiry` | internal/zone/store.go:445-454 | the least expiration of all signatures, 0 without any |
| `Store.Store.ExpiringBefore` | internal/zone/store.go:457-470 | exactly the entries up to the cut-off, in key order |
| `Store.PrefixUpTo` | internal/zone/store.go:457-470 | stopping at the first key past the bound misses no entry |
| `StoreSpec.AddEffect` | internal/zone/store.go:153-179 | an addition adds exactly that record and keeps count, flags and no-empty-node shape equal to a scan |
| `StoreSpec.RemoveEffect` | internal/zone/store.go:187-213 | a removal removes exactly that record and keeps the same |
| `StoreSpec.AddKeepsAgreement` | internal/zone/store.go:215-228 | an addition keeps the indexes equal to a scan if and only if no stored record claims the same entry with other contents |
| `StoreSpec.RemoveKeepsAgreement` | internal/zone/store.go:198-206 | a removal keeps them if and only if the record is stored, its owner is unknown or undecodable, or nobody uses its entry |
| `StoreSpec.StepKeepsGood` | internal/zone/store.go:474-497 | one admissible change keeps indexes, flags, serial and count right and has exactly its effect on the record set |
| `StoreSpec.RunKeepsGood` | internal/zone/store.go:474-497 | so does every run of admissible changes |
| `StoreSpec.RunKeepsShape` | internal/zone/store.go:153-213 | count, flags and shape need no precondition: every run of changes keeps them exact |
| `StoreSpec.TouchedCoversChanges` | internal/zone/store.go:499-512 | every node and every NSEC3 entry that changed is in the touched set, but for the entry that added NSEC3 records with undecodable owners share; also after a run that failed half-way |
| `StoreSpec.TouchedFlags` | internal/zone/store.go:499-512 | the key, parameter and SOA flags are raised exactly when such a record was attempted, in runs that complete and in runs that fail |
| `StoreSpec.OtherTypesUnchanged` | internal/zone/store.go:474-497 | RRsets of types no change mentions stay as they were, order included |
| `StoreSpec.FirstSOA` | internal/zone/store.go:246-269 | where one SOA is stored, the SOA the store reads at its apex is that one, with the TTL of its RRset |
| `Arrivals.FiledSets` | internal/zone/node.go:48-64 | after any list of additions every RRset holds its records in order of arrival, each once, with the TTL of the first of them whose TTL is not zero |
| `Arrivals.HashEntryMeans` | internal/zone/store.go:215-228 | the hash index keeps owner, decoded hashes, iterations, salt, flags and bitmap of a record |
| `Arrivals.TouchedMeans` | internal/zone/store.go:499-512 | a list that went through touches exactly the names of its records and the hashes in the owners of its NSEC3 records, and counts additions and removals |
| `Arrivals.StepsStop` | internal/zone/store.go:474-497 | a list goes as far as its changes can be made and stops in front of the first that cannot |
| `Findings.Set.Add` | internal/dnssec/findings.go:142-153 | a finding replaces one with its key but keeps the first sighting |
| `Findings.MergeReplace` | internal/dnssec/findings.go:219-248 | the merged collection and how many findings were opened and closed, for every previous set, next set and owner set |
| `Findings.MergeConserves` | internal/dnssec/findings.go:219-248 | new findings and old ones of untouched owners and nothing else; first sightings survive; previous size plus opened minus closed is the new size |
| `Findings.KeyTextInjective` | internal/dnssec/findings.go:67-69 | the textual key determines code, owner and type when codes contain no bar |
| `Findings.KeyTextCollision` | internal/dnssec/findings.go:67-69 | with a bar in a code two findings share a key |
| `Signatures.VerifyRRSet` | internal/dnssec/verify.go:191-265 | reports exactly the codes that apply to the RRset's signatures, marks exactly the keys that verified one, counts every attempt |
| `Signatures.CheckSignature` | internal/dnssec/verify.go:206-236 | label count, validity period, TTL and expiry warning of one signature |
| `Signatures.TryKeys` | internal/dnssec/verify.go:237-252 | a signature is tried against matching keys in order until one accepts it; that one is marked |
| `Signatures.TriesMean` | internal/dnssec/verify.go:237-252 | the number of verifications is that of the fitting keys up to the first that accepts |
| `Signatures.WalkAndVerdict` | internal/dnssec/verify.go:191-265 | the codes collected on the walk and from its counters are those of the per-code definition |
| `Verify.IsAuthoritative` | internal/dnssec/verify.go:170-189 | authoritative means: not strictly below a delegation under the origin |
| `Verify.ExpectedBitmap` | internal/zone/nsec3.go:136-153 | the types a bitmap must list, each once, without NSEC3 for hashed denial |
| `Verify.BitmapEqualMeaning` | internal/dnssec/nsec.go:161-169 | sorting and compacting compares bitmaps as sets |
| `Verify.CheckNSECPresence` | internal/dnssec/nsec.go:12-41 | which NSEC finding a node draws, if any |
| `Verify.CheckNSEC3Presence` | internal/dnssec/nsec.go:72-104 | which NSEC3 finding a node draws, if any: missing, opt-out violation, wrong bitmap |
| `Verify.VerifyNode` | internal/dnssec/verify.go:144-168 | findings, key uses and attempts of one node are functions of the zone and the name alone |
| `Verify.VerifyNSEC3Chain` | internal/dnssec/nsec.go:119-146 | reports exactly the records that do not point at their ring successor, and differing iterations |
| `Verify.ChainSilentMeansClosed` | internal/dnssec/nsec.go:119-146 | the chain check is silent if and only if the ring is closed |
| `FullPass.VerifyNSECChain` | internal/dnssec/nsec.go:43-70 | reports exactly the NSEC records that do not point at the next owner in canonical order |
| `FullPass.CacheKeys` | internal/dnssec/keys.go:29-48 | all keys, or an error when one does not parse |
| `FullPass.CheckKeytagCollisions` | internal/dnssec/verify.go:271-281 | whether more keys than allowed share a key tag |
| `FullPass.CheckSignedByKSK` | internal/dnssec/verify.go:283-314 | whether a key-signing key signs the key set, and which keys that marks |
| `FullPass.ProcessNode` | internal/dnssec/verify.go:101-107 | what one job of a worker adds to its own findings, the key marks and the counters |
| `FullPass.RunPool` | internal/dnssec/verify.go:84-118 | for any number of workers, any assignment of nodes and any order of finishing: finding keys, key marks and counters are those of the nodes taken one by one |
| `FullPass.Full` | internal/dnssec/verify.go:59-133 | findings, verdict and counters of a full pass are functions of the zone; the verdict is valid if and only if no finding is an error |
| `FullPass.ValidMeansNoErrors` | internal/dnssec/verify.go:130 | the verdict is valid if and only if no finding is an error, and an unsigned zone has no findings |
| `CleanZone.AuthorityMeans` | internal/dnssec/verify.go:170-189 | authority ends below names with an NS record that are met before the origin on the way up |
| `CleanZone.CodeMeans` | internal/dnssec/verify.go:191-265 | for every signature code: when it is reported, in terms of the RRSIG and DNSKEY records of the zone, the clock and the verification primitive alone |
| `CleanZone.FindingsMean` | internal/dnssec/verify.go:59-133 | on a zone with usable keys a full pass reports a code at a name and type if and only if the records call for it: every signature, presence, bitmap, chain, parameter and key code |
| `CleanZone.VerdictMeans` | internal/dnssec/verify.go:59-133 | a zone with keys is found valid if and only if it has its SOA, its keys parse, and the records call for nothing but the two warnings; it is unsigned if and only if it has its SOA and no keys |
| `CleanZone.ValidMeansSigned` | internal/dnssec/verify.go:191-265 | in a zone found valid every RRset in authority that needs one has an RRSIG record in its period that an apex DNSKEY with its tag, algorithm and the zone bit verifies; all signatures there count labels right and are in their period |
| `CleanZone.ValidMeansNSEC` | internal/dnssec/nsec.go:12-70 | in an NSEC zone found valid every name in authority has an NSEC with exactly its types, and every NSEC points at the next owner |
| `CleanZone.ValidMeansNSEC3` | internal/dnssec/nsec.go:72-146 | in an NSEC3 zone found valid every name that needs one has an NSEC3 under its hash with exactly its types, and every NSEC3 points at the next hash |
| `CleanZone.CountersMean` | internal/dnssec/verify.go:98-118 | the pass counts the names whose NSEC3 it looked at |
| `Incremental.CheckLinks` | internal/dnssec/incremental.go:60-67 | the two local ring checks at a touched hash |
| `Incremental.CheckHash` | internal/dnssec/incremental.go:53-74 | everything reported at a touched hash; a hash that is gone always counts as a broken chain |
| `Incremental.CheckNames` | internal/dnssec/incremental.go:43-51 | touched names are checked as the full pass checks them; deleted ones are skipped |
| `Incremental.OwnersTouched` | internal/dnssec/incremental.go:81-89 | the owner set of the merge: touched names and the owners at touched hashes |
| `Incremental.Incremental` | internal/dnssec/incremental.go:12-100 | findings, verdict and counters of an incremental pass in every branch: escalation, no keys, unparsable keys, no touched set, and the pass proper with its merge; the verdict is valid if and only if no finding is an error |
| `Incremental.VerdictMeansNoErrors` | internal/dnssec/incremental.go:97 | the same of the verdict as a function of the zone; a zone is unsigned if and only if it has no keys |
| `Refinement.IncrementalDecidesRing` | internal/dnssec/incremental.go:52-68 | after any change list on a zone with a closed ring, the pass raises no NSEC3_CHAIN_BROKEN, and nothing is wrong at the entry it does not look at (that of undecodable owners, if one was added), if and only if the whole new ring is closed and no touched hash is gone |
| `Refinement.SilenceDecidesRing` | internal/dnssec/incremental.go:52-68 | where no NSEC3 with an undecodable owner is added, silence alone decides, in both directions |
| `Refinement.SilentPassDeniesExactlyOnce` | internal/dnssec/incremental.go:52-68 | a silent incremental pass, with nothing wrong where it does not look, leaves every possible hash answered by exactly one record |
| `Refinement.UntouchedLocals` | internal/dnssec/verify.go:144-168 | at an untouched name nothing changes if and only if its authority is kept or it has nothing to report |
| `Refinement.NoCutChangeKeepsAuthority` | internal/dnssec/verify.go:170-189 | authority is kept where no strict ancestor gains or loses delegation status |
| `Refinement.MergeRefinesFull` | internal/dnssec/incremental.go:81-95 | with a non-empty owner set and the same keys and parameters, the merged signature and NSEC findings are those of a full pass if and only if authority is kept |
| `Refinement.IncrementalRefinesFull` | internal/dnssec/incremental.go:12-100 | started from what a full pass gives on the old zone, the incremental pass gives what a full pass gives on the new one (RRSIG codes on types other than NSEC3, NSEC_MISSING, NSEC_BITMAP_MISMATCH) if and only if it escalates, has no usable keys, or no untouched name with defects changed its authority |
| `Refinement.IncrementalNeverDriftsIff` | internal/dnssec/incremental.go:12-100 | over every history of change lists, the findings agree with a full pass after each of them if and only if each of them refines |
| `Refinement.IncrementalNeverDrifts` | internal/dnssec/incremental.go:12-100 | where each refines, the findings at the end are those of a full pass |
| `WholePass.MergingMeans` | internal/dnssec/incremental.go:81-95 | a pass leaves what it found, and what was known before about names that are neither touched nor the owner of a touched entry |
| `WholePass.PresenceAgreesIff` | internal/dnssec/nsec.go:72-104 | what an incremental pass leaves about the NSEC3 of every name is what a full pass finds if and only if at untouched names no touched entry became right or wrong and no need for one came or went over a defect |
| `WholePass.OwnHashesKeepPresence` | internal/dnssec/nsec.go:72-104 | which is so where the delegations stay and no touched hash is that of an untouched name |
| `WholePass.ChainAgreesIff` | internal/dnssec/nsec.go:43-70 | what it leaves about the NSEC chain is what a full pass finds if and only if no touched owner misses the next one and every other owner does exactly when it did |
| `WholePass.RingAgreesIff` | internal/dnssec/nsec.go:119-146 | and about the NSEC3 chain if and only if no owner is blamed or kept without reason and every record astray is looked at, or was astray before at an untouched name |
| `WholePass.ClosedRingIsKept` | internal/dnssec/incremental.go:52-68 | which is so from a closed ring with no touched hash gone |
| `WholePass.ApexAgreesIff` | internal/dnssec/verify.go:81-82 | about the keys at the apex if and only if nothing is wrong with them when the apex is touched |
| `WholePass.ParamAgreesIff` | internal/dnssec/nsec.go:119-131 | about differing iterations if and only if there are none when the apex is touched, and otherwise as before |
| `WholePass.HashSignaturesAgreeIff` | internal/dnssec/incremental.go:69-74 | about signatures over NSEC3 records, which a full pass skips, if and only if those of the touched records draw nothing |
| `WholePass.IncrementalIsFullIff` | internal/dnssec/incremental.go:12-100 | all kinds together: after a full pass on the old zone, the incremental pass leaves exactly the findings of a full pass on the new one if and only if it escalates, has no usable keys, or all these conditions hold |
| `WholePass.IncrementalStaysFullIff` | internal/dnssec/incremental.go:12-100 | over every history of change lists the findings are those of a full pass after each of them if and only if each meets the condition |
| `WholePass.IncrementalVerdictIsFull` | internal/dnssec/incremental.go:12-100 | where the condition is met, the incremental pass says valid and unsigned exactly as a full pass on the new zone does |
| `WholePass.EqualHistoriesAgree` | internal/dnssec/incremental.go:12-100 | and so after every change list of a history |
| `Refinement.NothingTouchedClosesAll` | internal/dnssec/findings.go:226 | an empty touched set means an empty owner set, which the merge takes for all owners: every finding is closed |
| `Drift.RemovalDropsForeignEntry` | internal/zone/store.go:198-206 | an NSEC3 that is not stored is removed, and the index entry of the stored one at that owner goes |
| `Drift.NewCutKeepsFinding` | internal/dnssec/incremental.go:43-95 | a delegation is added above an unsigned address: the incremental pass keeps RRSIG_MISSING there, a full pass does not have it |
| `Drift.UndecodableOwnerSlipsThrough` | internal/dnssec/incremental.go:52-58 | an NSEC3 with an undecodable owner opens a closed ring, and the incremental pass stays silent |
| `Drift.NSECChainSlipsThrough` | internal/dnssec/incremental.go:43-95 | a name is added to an NSEC zone: a full pass finds the chain broken at the apex, the incremental one says nothing |
| `Drift.TouchedApexDropsKeyFinding` | internal/dnssec/incremental.go:81-95 | a zone without a key-signing key: a change at the apex closes DNSKEY_NOT_SIGNED_BY_KSK, which a full pass still has |
| `Drift.NewNSEC3KeepsFinding` | internal/dnssec/incremental.go:43-95 | the missing NSEC3 of the origin is added: NSEC3_MISSING stays, and RRSIG_MISSING on the new record is reported, which a full pass has neither of |
| `Refinement.RunKeepsFiledByHash` | internal/zone/store.go:215-240 | every index entry stays filed under its own hash, whatever is added and removed |
| `Expiry.SweepExpiry` | internal/dnssec/incremental.go:103-117 | adds exactly the findings of the entries up to the cut-off and counts the new ones |
| `Expiry.SweepSeesAllFlagged` | internal/dnssec/incremental.go:108-115 | for every clock, the ordered scan reaches every entry the sweep's conditions would flag if and only if no expiration past the cut-off is long past, wraps around with the skew, or lies in the warning period |
| `Expiry.OverlookedWithoutWrap` | internal/dnssec/incremental.go:108-115 | where clock, skew and warning period do not wrap around, only expirations that the skew wraps around are overlooked |
| `Expiry.SweepIsNaiveScan` | internal/dnssec/incremental.go:103-117 | for every clock, the sweep gives the findings of a naive scan if and only if every overlooked entry repeats what another says |
| `Expiry.WrappedCutoffMisses` | internal/dnssec/incremental.go:108 | a cut-off that wraps around makes the sweep miss an expired signature |
| `Expiry.WrappedSkewMisses` | internal/dnssec/incremental.go:109 | so does a skew that wraps an expiration around |
| `Expiry.RunKeepsKeyed` | internal/zone/store.go:215-244 | every index entry stays filed under a key that starts with its expiration, whatever is added and removed |
| `Expiry.NaiveScanIsPerSignature` | internal/zone/store.go:215-228 | the scan of the index is the scan of the zone's signatures, code by code and RRset by RRset |
| `Expiry.SameExpiryTests` | internal/dnssec/verify.go:226-236 | the sweep's conditions are those of the signature check |
| `Expiry.SweepAgreesWithSignatureCheck` | internal/dnssec/incremental.go:103-117 | where nothing is overlooked, the sweep flags expiry exactly where the signature check does or a signature before its inception calls for it |
| `ExpiryIndex.SharedEntryMeans` | internal/zone/store.go:215-244 | two signatures share an index entry if and only if expiration, owner text, covered type and key tag are the same |
| `ExpiryIndex.LoadedIsFiled` | internal/zone/store.go:153-244 | a store filled with any list of acceptable records has an expiry entry for each of its RRSIG records, and no other entry, whatever their keys |
| `ExpiryIndex.GoodIsFiled` | internal/zone/store.go:215-244 | so has a store in good order |
| `ExpiryIndex.SweepMeans` | internal/dnssec/incremental.go:103-117 | the sweep reports a code at a name and type if and only if some RRSIG record there, not past the cut-off, calls for it by its expiration and the clock |
| `Xfr.ParseIXFR` | internal/xfr/client.go:228-282 | the three-mode walk as a function of the records and the requested serial |
| `Xfr.NothingNew` | internal/xfr/client.go:228-304 | a single SOA with the serial of the replica changes nothing; an answer without an SOA is taken for a whole zone |
| `Xfr.TwoSOAs` | internal/xfr/client.go:228-304 | two SOAs with one serial are taken for a whole zone; with two serials of which the first is the replica's nothing changes |
| `Xfr.LeadingIgnored` | internal/xfr/client.go:228-304 | what stands before the first SOA is ignored |
| `Xfr.ParseResponse` | internal/xfr/client.go:249-281 | on a response with one difference sequence (section 4 of RFC 1995) every deletion is removed and every addition is added |
| `Xfr.MultiHopIsRightIff` | internal/xfr/client.go:257-267 | on a response with several sequences the parsed differences have the meant effect if and only if no record that an earlier sequence adds survives without being added by the last |
| `Xfr.ParseEntry` | internal/xfr/client.go:228-304 | additions with an SOA of another serial: from it up to the new SOA they are taken for deletions |
| `Xfr.TwoHopsLoseAdditions` | internal/xfr/client.go:257-267 | a response with two sequences whose first addition is removed instead |
| `Xfr.ParseFullResponse` | internal/xfr/client.go:239-242 | a whole zone between two copies of its SOA is recognised, and stripping leaves the zone |
| `Xfr.StripSOAEnvelope` | internal/xfr/client.go:284-304 | drops the closing SOA when there was an opening one and nothing else |
| `Xfr.StrippedMeans` | internal/xfr/client.go:284-304 | the closing SOA goes where another SOA stands before it, and nothing else ever goes |
| `Xfr.WriteAXFR` | internal/testprimary/server.go:195-231 | the envelopes hold SOA, zone and SOA in this order, at most 32 records each |
| `Xfr.Receive` | internal/xfr/client.go:191-200 | collects the records of all envelopes in order |
| `Xfr.FromAXFR` | internal/zone/store.go:733-741 | a new store with the records filed one by one, or an error |
| `PrimaryServer.AllRRs` | internal/zone/store.go:515-527 | every record as read back from its RRset, each once where no two read alike |
| `PrimaryServer.Primary.Apply` | internal/testprimary/server.go:71-100 | the whole new state: changes applied, serial bumped when they left it alone, one journal entry; no entry on error |
| `PrimaryServer.Primary.PurgeJournal` | internal/testprimary/server.go:65-69 | the journal is empty |
| `PrimaryServer.Primary.HandleXFR` | internal/testprimary/server.go:183-243 | the records of the answer: differences when the journal has the step asked for, the zone otherwise |
| `PrimaryServer.FindJournal` | internal/testprimary/server.go:245-252 | the first entry between two serials |
| `PrimaryServer.EntryIsFirst` | internal/testprimary/server.go:245-252 | the entry served is the first of the journal that leads from one serial to the other |
| `PrimaryServer.AnswerMeans` | internal/testprimary/server.go:183-252 | an incremental answer is the new SOA, the SOA asked for and the removals, the new SOA, the additions, the new SOA; a full one is the SOA, all other records in the order listed, and the SOA |
| `PrimaryServer.BumpedMeans` | internal/testprimary/server.go:83-97 | the bumped SOA has the next serial, modulo 2^32, and is otherwise the same |
| `Replication.BatchKeepsGood` | internal/zone/store.go:474-497 | a change list that drops no foreign index entry and has a consistent outcome goes through and leaves exactly the records meant |
| `Replication.SameRecordsInSync` | internal/zone/store.go:40-50 | good stores with the same records have the same count, serial and indexes |
| `Replication.ApplyExplained` | internal/testprimary/server.go:71-100 | every sound request leaves the zone good, and its journal entry, as the client reads it, turns the old record set into the new one |
| `Replication.FullTransferSyncs` | internal/xfr/client.go:212-221 | a full answer brings any replica into sync if and only if no RRset of the primary mixes TTL zero with another TTL |
| `Replication.ServedEntrySyncsIff` | internal/xfr/client.go:201-211 | an incremental answer brings a replica into sync if and only if the served entry, as the client reads it, turns the replica's records into the primary's |
| `Replication.IncrementalTransferSyncs` | internal/xfr/client.go:201-211 | so it does when the replica holds the state before the change |
| `Replication.StepKeepsInv` | internal/testprimary/server.go:71-100 | every step keeps: primary good, journal true to the past, replica one of the primary's past states |
| `Replication.BumpedEffect` | internal/xfr/client.go:268-278 | the entry of a request that keeps the serial is read as meant if and only if the request adds nothing new behind an SOA of that serial |
| `Replication.ReplicationConverges` | internal/xfr/client.go:174-304 | in every run of requests, failing requests, purges and transfers, a transfer leaves the replica with exactly the primary's records, count, serial and indexes |
| `Replication.ReplicaIsAPastState` | internal/monitor/manager.go:363-385 | in between the replica is some past state of the primary, never a mixture |
| `Replication.TransferOnce` | internal/xfr/client.go:174-223 | client and server code together do one transfer step of such a run |
| `OutOfSync.FairRequestSyncsIff` | internal/testprimary/server.go:71-100 | after any fair request a transfer brings a replica that was in sync into sync again if and only if the request adds nothing new behind an SOA of the serial it started from, or the replica asks for the full zone |
| `OutOfSync.FailedRequestSyncsIff` | internal/testprimary/server.go:71-76 | after a request that failed half-way a transfer brings the replica into sync if and only if no journal entry leads from its serial to the primary's, or nothing it would miss was changed |
| `OutOfSync.RepeatedSerialServesOldEntry` | internal/testprimary/server.go:245-252 | a run of sound requests that uses a serial twice: the journal serves the older entry and the replica ends out of sync |
| `OutOfSync.EditedSOALosesAdditions` | internal/xfr/client.go:268-278 | a run with a request that edits the SOA but not its serial: an added record never reaches the replica |
| `OutOfSync.FailedRequestIsMissed` | internal/testprimary/server.go:71-76 | a run in which a failed request added a record: the replica is served an older entry and never gets it |
| `OutOfSync.MixedTTLsAreNotReplicated` | internal/zone/rrset.go:48-50 | a zone with addresses of TTL 5 and 0: even the first transfer leaves the replica out of sync |
| `AsRead.RunKeepsSettled` | internal/zone/node.go:48-64 | every run of changes keeps an RRset with TTL zero free of records with another TTL |
| `AsRead.FullTransferReadsAlike` | internal/xfr/client.go:212-221 | after a full answer any replica reads as the primary does, whatever TTLs the primary mixes |
| `AsRead.RemovalFollowedIff` | internal/zone/store.go:187-213 | such a replica follows the removal of a record if and only if it is stored and then reads as itself or has a twin but not both, or it is not stored and nothing stored reads like it |
| `AsRead.MixedRemovalIsMissed` | internal/zone/store.go:187-213 | an address with TTL zero beside one with TTL 5: the replica keeps it when the primary removes it |
| `Generate.ExchangeSort` | internal/zonegen/generate.go:503-511 | the in-place exchange sort yields a sorted permutation under any strict total order |
| `Generate.SortCanon` | internal/zonegen/generate.go:503-511 | names end up in canonical order, none lost, none twice |
| `Generate.NamesFrom` | internal/zonegen/generate.go:334-344 | the types at every name of the list |
| `Generate.UnderDelegation` | internal/zonegen/generate.go:354-369 | the generator's walk decides the same as the checker's authority walk |
| `Generate.AddENTs` | internal/zonegen/generate.go:468-492 | adds exactly the names missing between the given ones and the origin, none twice |
| `Generate.BuildNSEC` | internal/zonegen/generate.go:371-397 | one NSEC for every owner, glue below delegations included, and every empty non-terminal, linked in canonical order, with its types |
| `Generate.BuildNSEC3` | internal/zonegen/generate.go:399-466 | one NSEC3 for every name and empty non-terminal not below a delegation and not opted out, linked in label order, with its types |
| `Generate.GlueCheck` | internal/zonegen/sign.go:68-89 | an address is glue when some strict ancestor below the origin has NS |
| `Generate.SignZone` | internal/zonegen/sign.go:11-66 | a signature with the right key, algorithm, tag and times for every RRset except delegations and glue, and only those; fails when one cannot be made |
| `Generated.ChainNamesMean` | internal/zonegen/generate.go:468-492 | the chain has every owner and every empty name between an owner and the origin, and no other name |
| `Generated.HashedNamesMean` | internal/zonegen/generate.go:399-466 | names below a delegation are not hashed, nor, under an opt-out, delegations without DS; all others of the chain are |
| `Generated.NSECChainMeans` | internal/zonegen/generate.go:371-397 | one NSEC for every such name, with its types, NSEC and RRSIG, pointing at the canonically next one |
| `Generated.NSEC3ChainMeans` | internal/zonegen/generate.go:399-466 | one NSEC3 for every hashed name, with the flags, iterations and salt asked for and its types, pointing at the hash of a hashed name |
| `Generated.SignedMeans` | internal/zonegen/sign.go:11-89 | one signature for every RRset but delegations and addresses below them: by the key-signing key over the keys, by the zone-signing key over the rest, with the times asked for and the TTL of its RRset |
| `Denial.LoadAll` | internal/zone/store.go:153-179 | filing any list of acceptable records gives their set and the NSEC3 index of a scan |
| `Denial.HashesSorted` | internal/zonegen/generate.go:428-437 | the order the generator links in is the order the checker walks in |
| `Denial.ChainIsClosed` | internal/zonegen/generate.go:438-464 | the index of a generated zone is a closed ring |
| `Denial.NSEC3ZoneChainAccepted` | internal/dnssec/nsec.go:119-146 | the chain check draws nothing on any generated and signed NSEC3 zone, with and without opt-out |
| `Denial.NSEC3ZonePresenceAccepted` | internal/dnssec/nsec.go:72-117 | the presence check draws nothing at any of its names: glue, secure and insecure delegations, empty non-terminals |
| `Denial.NSECZoneChainAccepted` | internal/dnssec/nsec.go:43-70 | the same for the NSEC chain |
| `Denial.NSECZonePresenceAccepted` | internal/dnssec/nsec.go:12-41 | and for the NSEC presence check |
| `Denial.GenerateNSEC3Zone` | internal/zonegen/generate.go:209-256 | building, signing and loading fails only where signing does; otherwise the store holds the zone with chain and signatures, passes every denial check and has an expiry entry for every signature |
| `Denial.GenerateNSECZone` | internal/zonegen/generate.go:209-256 | the same for NSEC |
| `ValidZone.SignedZoneIsValid` | internal/dnssec/verify.go:59-133 | a signed zone whose denial records draw nothing is valid under the full pass: no error on any RRset, key or chain |
| `ValidZone.NSEC3ZoneIsValid` | internal/dnssec/verify.go:59-133 | so every generated and signed NSEC3 zone is valid inside its validity period |
| `ValidZone.NSECZoneIsValid` | internal/dnssec/verify.go:59-133 | and every NSEC zone |
| `Snapshot.WriteSnapshot` | internal/zone/store.go:594-632 | header and records, in whatever order the store lists them |
| `Snapshot.ReadSnapshot` | internal/zone/store.go:635-679 | the store built from what the image holds, or an error for a malformed image or a record that cannot be filed |
| `Snapshot.ImageMeans` | internal/zone/store.go:592-699 | the format: DSA1, the length of the origin text and the text, serial, time, number of records, and each record after its length, numbers with the most significant byte first |
| `Snapshot.ImageRoundTrip` | internal/zone/store.go:592-699 | reading what was written gives origin, serial, time and records back, where the record format does so for the records written |
| `Snapshot.NumberingIsLawful` | internal/zone/store.go:592-699 | for every list of records that fits the header there is a record format that does so |
| `Snapshot.SnapshotRoundTrip` | internal/zone/store.go:592-699 | in any listing order origin and serial survive; the records survive if and only if no RRset mixes TTL zero with another TTL, and then count and both indexes do too |
| `Snapshot.SaveAndRestore` | internal/zone/store.go:592-699 | writing a store and reading the bytes gives a store in sync with it if and only if no RRset mixes TTL zero with another TTL; origin, serial and time survive in any case |
| `Loading.ReadsRecordsIff` | internal/zone/rrset.go:27-53 | reading records back gives the stored ones if and only if no RRset mixes TTL zero with another TTL |
| `Zonemd.ComputeZONEMD` | internal/dnssec/zonemd.go:67-116 | the digest over the records in canonical order with the placeholder and without the digest's own signatures; none for an unsupported hash |
| `Zonemd.CanonicalUnique` | internal/dnssec/zonemd.go:67-116 | a record set has one canonical sequence |
| `Zonemd.DigestUnique` | internal/dnssec/zonemd.go:67-116 | so the digest depends on the record set alone, not on map order |
| `Zonemd.DigestIgnores` | internal/dnssec/zonemd.go:84-103 | nor on the stored digest of the same length or on signatures over it |
| `DigestInput.DigestMeans` | internal/dnssec/zonemd.go:67-117 | the digest is SHA-384 or SHA-512, by algorithm, of the wire forms one after the other of exactly the records that are not signatures over ZONEMD, in canonical order, digest records under scheme 1 with zeros |
| `DigestInput.SameBytesSameRecords` | internal/dnssec/zonemd.go:99-113 | where wire forms delimit themselves, two zones that feed the same bytes have the same records, but for these signatures and the stored digest |
| `Zonemd.VerifyZONEMD` | internal/dnssec/zonemd.go:15-59 | whether a digest was checked, whether it matched, and what is reported under each policy |
| `DigestInput.PolicyMeans` | internal/dnssec/zonemd.go:15-65 | what the check reports, policy by policy |
| `Finalize.FinalizeZONEMD` | internal/zonegen/generate.go:270-314 | replaces the digest by the computed one and its signatures by a new one; changes nothing when there is no digest record or no such digest; otherwise a failure leaves the changes up to it |
| `Finalize.FinalizedEffect` | internal/zonegen/generate.go:270-314 | every other record is read as before |
| `Finalize.FinalizedIsAccepted` | internal/zonegen/generate.go:270-314 | the finalized zone passes the digest check, under every policy |
| `DigestInput.DigestDecides` | internal/dnssec/zonemd.go:41-65 | a digest that fits a zone fits another with that digest record if and only if the two have the same records, signatures over ZONEMD aside: any other change is rejected |
| `FinishedZone.FinishedNSEC3Zone` | internal/zonegen/generate.go:192-266 | a generated NSEC3 zone is still valid under the full pass after its digest was finalized, and the digest check accepts it under every policy |
| `FinishedZone.FinishedNSECZone` | internal/zonegen/generate.go:192-266 | and so is a generated NSEC zone |
| `Serial.GreaterIsOffset` | internal/monitor/manager.go:606-608 | inside a window of fewer than 2^31 steps serial comparison is comparison of offsets, across the wrap-around (section 3.2 of RFC 1982) |
| `Serial.NoGreatestOnTheCircle` | internal/monitor/manager.go:606-608 | three serials each greater than the one before, in a circle |
| `Serial.ScanServers` | internal/monitor/manager.go:213-235 | picks a reachable server with the greatest serial of the window, in any order of servers; stops at the first when not all are to be probed |
| `Serial.Spread` | internal/monitor/manager.go:475-487 | the true spread of the window, in any order |
| `Serial.SkewExceeds` | internal/monitor/manager.go:465-492 | skew is seen exactly when that spread is above the threshold |
| `Monitor.ZoneRuntime.SetState` | internal/monitor/runtime.go:197-206 | records a transition and keeps the last 64 |
| `Monitor.ZoneRuntime.TryLockRefresh` | internal/monitor/runtime.go:242-251 | takes the flag if it is free |
| `Monitor.ZoneRuntime.UnlockRefresh` | internal/monitor/runtime.go:253-258 | frees it |
| `Monitor.ZoneRuntime.LastTerminalState` | internal/monitor/runtime.go:271-281 | the state if terminal, else the latest terminal one in the history, else unknown |
| `Monitor.ZoneRuntime.Restore` | internal/monitor/runtime.go:284-296 | adds the saved findings |
| `Monitor.ZoneRuntime.AttachStore` | internal/monitor/runtime.go:299-303 | the zone has the given store |
| `Monitor.ZoneRuntime.ApplyFindings` | internal/monitor/runtime.go:324-343 | adds findings and takes a valid zone to invalid when asked to |
| `Monitor.ZoneRuntime.Sweep` | internal/monitor/manager.go:447-463 | adds what the expiry index shows and invalidates a valid zone when that brought errors |
| `Monitor.ZoneRuntime.Tick` | internal/monitor/manager.go:145-156 | puts a passing state back when nothing is under way and marks an expired zone stale |
| `Monitor.ZoneRuntime.Commit` | internal/monitor/manager.go:407-423 | takes over findings and verdict |
| `MonitorRuns.StepKeepsInv` | internal/monitor/manager.go:186-445 | every locked step of refresh, tick, sweep, chain check and resume keeps the invariant |
| `MonitorRuns.MonitorIsSafe` | internal/monitor/manager.go:126-463 | in every state of every interleaving: at most one refresh holds the zone; the history is the last at most 64 transitions, all terminal; the last terminal state is the one recorded last; without a refresh the zone is not transferring or verifying |
| `MonitorRuns.NothingToPutBack` | internal/monitor/manager.go:146-150 | the ticker never finds a passing state to put back |
| `MonitorRuns.UnchangedPutsNothingBack` | internal/monitor/manager.go:301-303 | nor does a refresh of an unchanged zone |
| `MonitorRuns.DifferencesFindAStore` | internal/monitor/manager.go:380-385 | the branch for differences without a store is unreachable |
| `Transitions.StepRecords` | internal/monitor/manager.go:126-463 | which step records which state: a verification its verdict, a failed transfer or failed differences their failure, a tick staleness, a sweep or chain check the fall of a valid zone; every other step records nothing |
| `Transitions.HistoryIsTheEnd` | internal/monitor/runtime.go:197-206 | the history is the last sixty-four transitions, and a terminal state is the last of them |
| `Transitions.VerdictTellsErrors` | internal/monitor/manager.go:407-423 | a zone verified and committed in one step is valid if and only if it has keys and no error finding, invalid if and only if it has one |
| `Transitions.LastTerminalMeans` | internal/monitor/runtime.go:271-281 | the last terminal state is the latest one of the history |
| `Transitions.WithAllMeans` | internal/monitor/runtime.go:284-343 | findings added one by one are all there beside the others |
| `Verdicts.StepStaysTidy` | internal/monitor/manager.go:186-463 | every honest step keeps a valid zone free of errors, but for the commit of a good verdict on findings that have got an error meanwhile |
| `Verdicts.CleanUnlessLateError` | internal/monitor/manager.go:393-421 | in every honest run, a valid zone never has an error finding if and only if no error is brought between a clean incremental verification and its commit |
| `Verdicts.ValidMeansNoError` | internal/monitor/manager.go:407-421 | so none has one in runs in which incremental verification and commit are one step |
| `Verdicts.CommitTidy` | internal/monitor/manager.go:407-421 | a commit leaves a valid zone with errors if and only if a good verdict was reached on the zone's own findings and they have an error by then |
| `HonestPasses.FullIsHonest` | internal/dnssec/verify.go:130 | the full pass meets the hypotheses of the runs: its verdict is valid if and only if it has no error to report |
| `HonestPasses.IncrementalIsHonest` | internal/dnssec/incremental.go:93-97 | and so does the incremental pass |
| `HonestPasses.SweepIsHonest` | internal/dnssec/incremental.go:103-117 | and the sweep only adds findings |
| `Verdicts.LateErrorSlipsThrough` | internal/monitor/runtime.go:324-343 | it happens in an honest run from a new zone: a chain-of-trust error arrives between verification and commit, and the zone is valid with an error |
| `Catalog.Diff` | internal/catalog/catalog.go:90-110 | one member for every zone only the new list has and one for every zone only the old list has; of duplicates the last |
| `Catalog.Watcher.constructor` | internal/monitor/manager.go:51-56 | the zones at the start |
| `Catalog.Watcher.AddZone` | internal/monitor/manager.go:60-70 | a configured zone is kept, any other replaced |
| `Catalog.Watcher.RemoveZone` | internal/monitor/manager.go:72-77 | the zone is gone |
| `Catalog.Watcher.Visit` | internal/app/app.go:150-180 | the monitored zones after one visit to a catalog: new members that nobody monitors come in, former members that this catalog brought in go |
| `CatalogRuns.CatalogsStay` | internal/app/app.go:151-155 | a catalog is always monitored, so the branch that re-adds it is unreachable |
| `CatalogRuns.VisitKeepsMonitoredIff` | internal/app/app.go:164-180 | a visit keeps every member of every catalog monitored if and only if it removes no zone that another catalog still lists |
| `CatalogRuns.ZonesFollowCatalogs` | internal/app/app.go:141-185 | after every such run the monitored zones and their sources are those of the configuration and of the latest lists |
| `CatalogRuns.HistoryDoesNotMatter` | internal/app/app.go:141-185 | where no two catalogs list the same zone, what came before the latest lists does not matter |
| `CatalogRuns.MoveLosesZone` | internal/app/app.go:166-180 | a member that moves to a catalog read before its old one is lost |
| `CatalogRuns.MoveKeepsZone` | internal/app/app.go:166-180 | moved to a catalog read after its old one it is kept |
| `CatalogRuns.LostStaysLost` | internal/app/app.go:164-166 | a lost member stays lost while its catalog goes on listing it |

## Left out

- FullPass.Full: leaves out the ZONEMD check and the hygiene warnings that the pass ends with, and the earliest expiry;
  the ZONEMD check is modelled on its own (`Zonemd.VerifyZONEMD`).
- FullPass.RunPool: checking one node is one step; key marks written by several workers at once are taken as single
  writes of `true`; which worker's first sighting of a finding stays is not modelled.
- FullPass.ValidMeansNoErrors: without the ZONEMD check and hygiene warnings, like the pass.
- Incremental.Incremental: leaves out hygiene warnings and the earliest expiry.
- Refinement.IncrementalRefinesFull: speaks of findings that depend on one name, for previous findings that need agree
  on these alone, like the other lemmas of `Refinement` on passes; `WholePass.IncrementalIsFullIff` speaks of all.
- Store.Store.ExpiringBefore: the callback that may stop the scan is left out; the sweep never stops it.
- Findings.Set.Add: the time of the last sighting is left out.
- Signatures.VerifyRRSet: an RRset always unpacks, as records that do not pack are never stored.
- Verify.VerifyNode: messages and severities set by configuration are left out; the severity of a code is fixed.
- Replication.ReplicationConverges: one zone per primary; no request that adds something new behind an SOA of the old
  serial, no serial used twice, no request that fails after it changed records under the old serial, and no RRset that
  mixes TTL zero with another TTL; `OutOfSync` has a run for each of these that ends out of sync. The last excludes the
  generated NSEC3 zones, whose NSEC3PARAM has TTL zero (internal/zonegen/generate.go:213-214) and so has the signature
  over it, among apex signatures of other TTLs; `AsRead.FullTransferReadsAlike` says what holds of them.
- Replication.ApplyExplained: sound requests; `OutOfSync.FairRequestSyncsIff` has what the others do.
- PrimaryServer.Primary.HandleXFR: message framing, TSIG, NOTIFY and the answer for an unknown zone are left out; an
  answer is its list of records.
- Xfr.Receive: envelopes with errors and cancellation are left out.
- Replication.TransferOnce: the retry with a full request after a failed incremental one is left out, as transfers
  do not fail.
- Generate.SignZone: signing is a partial function from a key choice and an RRset to a label count and a signature.
- ValidZone.SignedZoneIsValid: that verifying accepts what signing made is a hypothesis (`SignsRight`), here and in the
  lemmas of `FinishedZone`.
- Denial.GenerateNSEC3Zone: the origin is not the root, whose hashed owner names the generator writes with an empty
  label; the zone's own records and keys come in as a list.
- Denial.GenerateNSECZone: the zone's own records and keys come in as a list.
- Zonemd.ComputeZONEMD: digests are bytes, not hexadecimal text, and the library sort is an exchange sort; asks that
  no two stored records read back alike.
- Zonemd.VerifyZONEMD: asks that no two stored records read back alike.
- Finalize.FinalizedEffect: asks that the signatures at the apex have settled TTLs.
- Snapshot.ImageRoundTrip: the number of records stays within the 32 bits the format has for it, and names and records
  within the 16 bits of their lengths.
- Snapshot.SnapshotRoundTrip: is about records filed; `Snapshot.SaveAndRestore` joins it with the bytes.
- Serial.SkewExceeds: the grace period and the finding are left out.
- Monitor.ZoneRuntime.SetState: times are left out, here and in the other methods of the class.
- Monitor.ZoneRuntime.Restore: the time of the last valid state is left out.
- Monitor.ZoneRuntime.ApplyFindings: the chain-of-trust flag is left out.
- Monitor.ZoneRuntime.Sweep: events are left out.
- Monitor.ZoneRuntime.Tick: starting a due refresh is left out; in runs a refresh may start at any time.
- Monitor.ZoneRuntime.Commit: verification times, digest status and scheduling are left out.
- MonitorRuns.MonitorIsSafe: schedules, jitter and the semaphore that limits concurrent transfers are left out.
- Verdicts.ValidMeansNoError: saved findings are put back before a zone is valid, as happens at start-up.
- Catalog.Watcher.Visit: what a catalog lists comes in as a parameter; `Parse`, events and the first refresh of a
  member are left out.
- Names are label sequences in lower case; case folding, escapes and presentation form are left out.
- The HTTP interface, the event stream, webhooks, metrics, logging, configuration and the command line.
- Sockets, timeouts and real clocks; time is a parameter.
- Dynamic updates over the wire.
- Parent DS lookups; their results come in as findings of a chain check.
- The zone mutators, the example zones and the web interface.
