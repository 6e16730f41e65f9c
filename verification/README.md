# YukiZygisk: a verified model of its state machines, loader and codecs

YukiZygisk injects code into Android's zygote: a kernel module watches processes and lends SELinux
permissions, a daemon holds the configuration and feeds the kernel, and an in-memory ELF loader
("yukilinker") maps modules into processes. This project models the parts of it that carry state or
encodings of their own, one module per component, and proves what holds in every run or for every input.

Two styles are used together. Protocols whose steps interleave are state machines: a `World` or `State`
value, an `Event` per atomic step (each section under a lock, each compare-and-swap), a total step
function, and an invariant carried through every run. Code that updates arrays and fields in loops is a
class whose methods are proved equal to functions on values, and the theorems are about those functions.

- `PolicyLedger`, `PolicyGrants`, `PolicyTable`, `PolicyHolders`: temporary SELinux allowances. A table of
  per-bit reference counts, grants planned and committed by copy, edit and swap, and the native and
  module entries with timers that hold grants until they are released. Permission vectors are sets of
  bits; the policy database is a map from key to bits, swapped atomically.
- `SymbolIndex`, `TlsRegistry`, `SegmentMap`, `RelrDecoder`: the ELF loader's open-addressed symbol index,
  thread-local storage registry, segment layout and mapping, and packed relative relocations (System V
  gABI, chapters 4 and 5).
- `RuntimeTable`, `SafeMode`, `Bootstrap`, `Specialize`, `FileBroker`: the kernel's record table, crash
  guard, one-shot bootstrap claim, specialize event pipeline and file-reference broker.
- `PackageConfig`, `PolicyCache`: the policy cache pipeline, from quoted comma-separated text (section 2 of
  RFC 4180) through merged decisions and a byte snapshot to the kernel's binary search.
- `Json`, `InlineHook`, `ArmForms`, `RateLimit`: the configuration's JSON printer and parser, branch encoders and
  inline hooks (ARMv7-A and A64), which instructions they take for movable, and the log's token bucket.
- `PolicyAnswers`, `TlsBlocks`, `RelrMeaning`, `RuntimeLife`, `JsonLayout`: what the operations of those modules mean,
  stated on slots, blocks, table entries, records and texts themselves: which calls are answered and how, what a
  thread reads back, which words a table names, what becomes of a record, and that layout does not matter.
- `Bits`: bitwise and, masks and shifts on numbers, for the modules that need them.

Some properties one might expect are false of the code as it is; each has a lemma that exhibits the failure
and one that says exactly when the code is right:

- A file whose own type is tmpfs asks for the same key twice, and a bit held by both parts survives the
  grant's release (`PolicyGrants.TmpfsFileLeaks`; exact condition `PolicyGrants.RestoreKeepsLedgerIff`).
- A native entry is put on its list before its timer is scheduled. If it is taken in between, it can be freed
  and its timer scheduled afterwards (`PolicyHolders.FreedThenScheduled` gives such a run for every owner's policy,
  `PolicyHolders.EarlyTakeCanFreeFirst` one after every early take); nothing else leads to work on a freed entry
  (`PolicyHolders.FreedOnlyAfterEarlyTake`).
- An access to thread-local storage that finds its thread's block by the generation it loaded may be overtaken
  by a replacement of the image, and returns the replaced image's block (`TlsRegistry.OvertakenRun`; exact
  condition `TlsRegistry.CurrentUnlessOvertaken`).
- A failed queueing stores "unclaimed" unconditionally, so a bootstrap that failed closed can still become
  ready and two descriptors can be delivered (`Bootstrap.ClosedThenReady`, `Bootstrap.TwoDelivered`). In every run
  a verdict stands exactly as long as no queueing fails after it (`Bootstrap.VerdictStandsIff`), and the store
  keeps the invariant exactly when it finds the claim open (`Bootstrap.ResetKeepsInvIff`). The other run theorems
  hold for the store as written whenever it finds the claim open, and unconditionally if it were a
  compare-and-swap.
- JSON strings with control characters other than newline and tab do not survive printing and parsing
  (`Json.ControlsDoNotReturn`; exact condition `Json.RoundTripIff`).
- JSON parsing does not always end: an array loop never passes a character that starts no value and is no comma or
  bracket (`Json.StuckArray`). It fails to end exactly when one of its array loops, however deeply nested, comes to
  such a character (`Json.HangsIff`).
- Eight of ten kinds of wide Thumb instruction that depend on their own address count as movable, among them
  address computations, whose test compares bits its mask has cleared (`InlineHook.WideFormsMissed`; what is
  recognised: `InlineHook.WidePcRelativeIff`). In ARM state only the base field is looked at, so reading the program
  counter as second operand or storing it counts as movable (`ArmForms.MovePcMissed`; exactly which forms:
  `ArmForms.ArmFormsMissed`). For A64 the test is exact (`ArmForms.A64FormsExact`).
- A native module's report may be answered done without the module being recorded: when the table is full, the
  record that would make room for it can be one of the same process, which is taken for the module's own
  (`RuntimeLife.LostModuleRun`; exact condition `RuntimeLife.RecordedIff`).
- A minus sign is accepted in a number field; `PackageConfig.NegativeAccepted` gives the numbers and their values.
- A clock reading applied late lets tokens be earned twice (`RateLimit.LateReadingsBreakTheBound`); by how much
  at most, whatever the readings, is `RateLimit.WindowBoundAlways`.

## Model

| member | source | states |
|---|---|---|
| `PolicyLedger.AddPartRefs` | kernel/host/policy_temp.c:120-142 | adding a part takes exactly one reference on each of its bits and changes no other count, provided a slot is there |
| `PolicyLedger.ReleasePartRefs` | kernel/host/policy_temp.c:168-197 | releasing a part drops exactly one reference on each of its bits and no other; an unreferenced slot becomes free |
| `PolicyLedger.AddAllRefs` | kernel/host/policy_temp.c:294-296 | recording a whole grant adds, for every key and bit, as many references as its parts hold |
| `PolicyLedger.ReleaseAllRefs` | kernel/host/policy_temp.c:448-454 | releasing a whole grant subtracts exactly what its parts hold |
| `PolicyLedger.RecordedIffRoom` | kernel/host/policy_temp.c:97-142 | a grant is recorded exactly if and only if all its new keys find slots together; each key alone being validated is not enough |
| `PolicyLedger.NoOverlapNoWrap` | kernel/host/policy_temp.c:97-118 | for parts that do not overlap, the saturation check done part by part keeps every 16-bit counter from wrapping |
| `PolicyLedger.AllowPartsAv` | kernel/host/policy.c:368-387 | applying the allow edits adds exactly the parts' bits, key by key |
| `PolicyLedger.RevokePartsAv` | kernel/host/policy.c:389-405 | applying the restore edits removes exactly the parts' bits, key by key |
| `PolicyGrants.AllowFileKeepsLedger` | kernel/host/policy_temp.c:232-312 | a successful file allow keeps counts equal to outstanding grants, owned bits apart from the owner's, and the live policy equal to owner's plus owned |
| `PolicyGrants.AllowExecmemKeepsLedger` | kernel/host/policy_temp.c:328-386 | so does extending a grant with the process key |
| `PolicyGrants.ClearedBits` | kernel/host/policy_temp.c:144-166 | planned part by part, a bit is cleared exactly when the grant holds it and its count is one |
| `PolicyGrants.RestoredPolicy` | kernel/host/policy_temp.c:399-462 | after a restore a bit has left the policy exactly when the grant held its only reference |
| `PolicyGrants.RestoreKeepsLedgerIff` | kernel/host/policy_temp.c:399-462 | restoring a grant keeps the ledger invariant if and only if no bit is held twice by this grant and by nobody else |
| `PolicyGrants.TmpfsFileLeaks` | kernel/host/policy.c:859-888 | for every owner policy and request whose file key is the tmpfs key, a bit asked for under both names stays allowed after the grant is restored |
| `PolicyGrants.StepKeepsLedger` | kernel/host/policy_temp.c:232-462 | every allow, execmem or restore, with any commit result, keeps the ledger invariant; only a call that succeeds must make a grant without overlap whose keys find slots |
| `PolicyGrants.RefusedAllow` | kernel/host/policy_temp.c:97-118 | an allow that is refused, for space or otherwise, or whose commit fails changes nothing, and every run may contain it |
| `PolicyGrants.RunKeepsLedger` | kernel/host/policy_temp.c:79-462 | so does every sequence of them, refused and failed calls included |
| `PolicyGrants.LivePolicyInEveryRun` | kernel/host/policy_temp.c:79-462 | in every run the live policy is the owner's plus the union of outstanding grants, counts equal holders, and every outstanding grant's required bits are allowed |
| `PolicyGrants.DrainedLedger` | kernel/host/policy_temp.c:399-462 | with no grant outstanding the owner's policy is back and every slot is free |
| `PolicyAnswers.PlanAnswers` | kernel/host/policy_temp.c:199-229 | planning one key answers no entry, no space, overflow or ok exactly by what is wanted, whether the key has or finds a slot, and whether a bit to reference has its counter at 65535 |
| `PolicyAnswers.AllowFileOkIff` | kernel/host/policy_temp.c:232-312 | a file allow succeeds if and only if something is wanted of the file, every key with bits to reference has a slot or finds an unused one, none of those counters is full, and the commit succeeds or has nothing to change |
| `PolicyAnswers.AllowFileErrors` | kernel/host/policy_temp.c:232-312 | otherwise the first key that does not fit decides between no space and overflow |
| `PolicyAnswers.AllowExecmemAnswers` | kernel/host/policy_temp.c:328-386 | each answer of an execmem allow exactly: invalid for another process, done already, no entry, no space, overflow, or ok |
| `PolicyAnswers.HeldBitsAreShared` | kernel/host/policy_temp.c:97-118 | bits other grants hold are granted again, without any commit, while their counters are not full |
| `PolicyAnswers.RestoreOkIff` | kernel/host/policy_temp.c:399-462 | a restore succeeds if and only if its commit does or every bit is held by another grant too; otherwise nothing changes |
| `PolicyTable.TempRules.FindSlot` | kernel/host/policy_temp.c:54-65 | the loop finds the first used slot with the key |
| `PolicyTable.TempRules.FindFreeSlot` | kernel/host/policy_temp.c:67-77 | the loop finds the first free slot |
| `PolicyTable.TempRules.OwnedMask` | kernel/host/policy_temp.c:79-95 | the mask is the set of bits with a live counter |
| `PolicyTable.TempRules.ValidateAdd` | kernel/host/policy_temp.c:97-118 | refuses a saturated bit or a new key without a slot, as specified |
| `PolicyTable.TempRules.Add` | kernel/host/policy_temp.c:120-142 | the in-place table becomes the specified one |
| `PolicyTable.TempRules.PlanReleaseOf` | kernel/host/policy_temp.c:144-166 | the plan is the set of last references |
| `PolicyTable.TempRules.Release` | kernel/host/policy_temp.c:168-197 | the in-place table becomes the specified one |
| `PolicyTable.TempRules.PlanAllow` | kernel/host/policy_temp.c:199-230 | request and commit vectors and status as specified |
| `PolicyTable.TempRules.CommitAllow` | kernel/host/policy.c:671-721 | copy, edit and swap: all parts applied or, on any failure, the policy unchanged |
| `PolicyTable.TempRules.CommitRestore` | kernel/host/policy.c:723-770 | the same for restores |
| `PolicyTable.TempRules.AllowFile` | kernel/host/policy_temp.c:232-312 | table, policy, status and state after the call equal the specified outcome |
| `PolicyTable.TempRules.AllowExecmem` | kernel/host/policy_temp.c:328-386 | the same for the process key |
| `PolicyTable.TempRules.Restore` | kernel/host/policy_temp.c:399-462 | the same for restore |
| `PolicyHolders.StepKeepsInv` | kernel/feature/zygote_probe.c:204-467 | every step of publish, arming, module allow, duplicate handling, claims, cancellation, timers and restores keeps grants, entries and ledger in agreement, with one owner per entry |
| `PolicyHolders.RunKeepsInv` | kernel/feature/zygote_probe.c:204-467 | so does every interleaving |
| `PolicyHolders.ListedUntilTaken` | kernel/feature/zygote_probe.c:204-467 | in every run an entry is listed until its own timeout, a publication or claim by its own process, or a claim of everything of its kind; the taker marks it and changes nothing else, and other entries do not change |
| `PolicyHolders.OnlyInsertedAppear` | kernel/feature/zygote_probe.c:233-262 | a new entry is the one just published or inserted, for the process and grant named |
| `PolicyHolders.ClaimTakesAll` | kernel/feature/zygote_probe.c:286-303 | after a claim no entry of that kind and process is listed or pending; after a publication only the new one |
| `PolicyHolders.ModuleStoredIff` | kernel/feature/zygote_probe.c:352-402 | a module's grant is stored unless a listed entry of the same process has one for the same file and directory keys; then it is handed back |
| `PolicyHolders.ReleasedExactlyOnce` | kernel/feature/zygote_probe.c:204-467 | in every interleaving that has drained, each grant ever made was handed back to the ledger by exactly one event |
| `PolicyHolders.HandedIsOutstanding` | kernel/feature/zygote_probe.c:204-467 | whatever hands a grant back, the ledger counts the grant then, and it is in the thread's hand or in a live entry |
| `PolicyHolders.HandedAtMostOnce` | kernel/feature/zygote_probe.c:204-467 | no two events of a run hand back the same grant |
| `PolicyHolders.OwnersFindLiveEntries` | kernel/feature/zygote_probe.c:204-467 | no cancellation, restore or free by a thread or a callback works on a freed entry |
| `PolicyHolders.FreedOnlyAfterEarlyTake` | kernel/feature/zygote_probe.c:263-281 | a step works on a freed entry, or a thread frees one whose timer is scheduled or running, only after the entry was taken between its insertion and the scheduling of its timer |
| `PolicyHolders.EarlyTakeCanFreeFirst` | kernel/feature/zygote_probe.c:263-281 | every such early take can be followed by cancelling and freeing the entry before its timer is scheduled |
| `PolicyHolders.FreedThenScheduled` | kernel/feature/zygote_probe.c:263-281 | for every owner's policy, one-file request, process and pair of threads there is a run that allows, publishes, claims, cancels, frees and only then schedules the freed entry's timer |
| `PolicyHolders.DrainedRestoresOwner` | kernel/feature/zygote_probe.c:204-467 | when all entries have drained, the ledger is empty if and only if no restore failed, and then the owner's policy is back |
| `SymbolIndex.InsertKeeps` | userspace/zygisk/core/src/yukilinker.cpp:1055-1074 | putting a new name in the first empty slot of its probe chain keeps the index right |
| `SymbolIndex.SkipKeeps` | userspace/zygisk/core/src/yukilinker.cpp:1055-1074 | a repeated or undefined symbol leaves the index right |
| `SymbolIndex.EmptyMeansAbsent` | userspace/zygisk/core/src/yukilinker.cpp:1079-1107 | a probe walk that meets an empty slot proves the name undefined |
| `SymbolIndex.WalkEnds` | userspace/zygisk/core/src/yukilinker.cpp:1079-1107 | with a free slot left no walk covers the whole table |
| `SymbolIndex.ImageSymbols.HashName` | userspace/zygisk/core/src/yukilinker.cpp:1012-1020 | the byte loop computes the specified 32-bit FNV-1a hash |
| `SymbolIndex.ImageSymbols.BuildIndex` | userspace/zygisk/core/src/yukilinker.cpp:1022-1077 | an index is built exactly when the table fits 32-bit indices, has a candidate, its size can be computed and memory is had; it is right for the whole table, at most half full, and its size the smallest power of two that allows that |
| `SymbolIndex.Masked` | userspace/zygisk/core/src/yukilinker.cpp:1055-1062 | masking the hash by the capacity less one is the remainder by the capacity |
| `SymbolIndex.ImageSymbols.Find` | userspace/zygisk/core/src/yukilinker.cpp:1079-1107 | for every table and name, lookup with or without the index is the first defined occurrence, or none |
| `TlsRegistry.StepKeepsInv` | userspace/zygisk/core/src/yukilinker.cpp:1405-1595 | every activation, deactivation, shutdown, thread exit, access and write keeps ids, generations and blocks consistent |
| `TlsRegistry.RunKeepsInv` | userspace/zygisk/core/src/yukilinker.cpp:1391-1595 | so does every run |
| `TlsRegistry.ActiveIdsDistinct` | userspace/zygisk/core/src/yukilinker.cpp:1480-1519 | in every run no two active images share a module id or a generation |
| `TlsRegistry.AccessSafe` | userspace/zygisk/core/src/yukilinker.cpp:1541-1595 | a block an access returns was built for an owner of the id, under the generation loaded or the one active now, has that owner's size, and if new is the initial image followed by zeros |
| `TlsRegistry.GenerationsNotReused` | userspace/zygisk/core/src/yukilinker.cpp:1480-1519 | a new owner of an id never gets a generation any earlier owner had |
| `TlsRegistry.LoadedWasActive` | userspace/zygisk/core/src/yukilinker.cpp:1541-1546 | an access in flight works with the generation that was active at its own load, and has been in flight since |
| `TlsRegistry.BlockActiveDuringAccess` | userspace/zygisk/core/src/yukilinker.cpp:1541-1595 | never a stale block: the generation of the block returned was the active one of its id at some moment between the access's own load and its end |
| `TlsRegistry.CurrentUnlessOvertaken` | userspace/zygisk/core/src/yukilinker.cpp:1541-1595 | the block is of the generation active at the end exactly when it is not the case that the thread's block has the generation loaded and that one is no longer active |
| `TlsRegistry.OvertakenRun` | userspace/zygisk/core/src/yukilinker.cpp:1553-1557 | a run in which an access returns the block of an image that was replaced on its id meanwhile |
| `TlsBlocks.OwnBlockReturned` | userspace/zygisk/core/src/yukilinker.cpp:1541-1595 | a thread's block of the active generation, or of the one loaded, is returned as it stands and the registry is unchanged |
| `TlsBlocks.AnsweredIff` | userspace/zygisk/core/src/yukilinker.cpp:1541-1595 | an access returns no block if and only if nothing was active at its load, or the thread has no block of that generation and now nothing is active, the offset is outside, or memory is needed and short |
| `TlsBlocks.FreshBlock` | userspace/zygisk/core/src/yukilinker.cpp:1452-1466 | a new block holds the active image's bytes and then zeros, and is the thread's from then on |
| `TlsBlocks.ByteStays` | userspace/zygisk/core/src/yukilinker.cpp:1541-1595 | in every run a byte of a thread's block stays until it is written, the thread exits or the image is deactivated |
| `TlsBlocks.WrittenIsRead` | userspace/zygisk/core/src/yukilinker.cpp:1541-1595 | what a thread writes is what each of its later accesses returns, until then |
| `TlsBlocks.ActivatedIff` | userspace/zygisk/core/src/yukilinker.cpp:1480-1519 | an image is activated exactly when its bytes fit, its alignment is sound, the registry runs and an id is free; it owns the lowest free id under a new generation |
| `TlsBlocks.LoadSeesActive` | userspace/zygisk/core/src/yukilinker.cpp:1473-1478 | a load sees the active generation, and zero if there is none |
| `TlsBlocks.DeactivatedIsGone` | userspace/zygisk/core/src/yukilinker.cpp:1521-1539 | a deactivated image's id has no active generation, and no other id changes |
| `TlsBlocks.ShutdownIsFinal` | userspace/zygisk/core/src/yukilinker.cpp:2242-2266 | after a shutdown nothing is active or activated again and the caller's blocks are gone |
| `TlsRegistry.TlsState.ActivateTls` | userspace/zygisk/core/src/yukilinker.cpp:1480-1519 | the registry after activation is the specified one |
| `TlsRegistry.TlsState.DeactivateTls` | userspace/zygisk/core/src/yukilinker.cpp:1521-1539 | the registry after deactivation is the specified one |
| `TlsRegistry.TlsState.ShutdownTls` | userspace/zygisk/core/src/yukilinker.cpp:2242-2266 | the registry after shutdown is the specified one |
| `TlsRegistry.TlsState.EnsureCapacity` | userspace/zygisk/core/src/yukilinker.cpp:1405-1433 | growth keeps every block in place and adds empty ones |
| `TlsRegistry.TlsState.GetAddr` | userspace/zygisk/core/src/yukilinker.cpp:1541-1595 | result and registry of an access are the specified ones |
| `SegmentMap.InspectSource` | userspace/zygisk/core/src/yukilinker.cpp:501-572 | accepts exactly the images whose LOADs are sound, in order and page-disjoint, with one dynamic segment, and reports exactly their span |
| `SegmentMap.CheckLoad` | userspace/zygisk/core/src/yukilinker.cpp:535-552 | one LOAD is accepted exactly when sound, with its page-rounded range computed without overflow |
| `SegmentMap.DestinationExact` | userspace/zygisk/core/src/yukilinker.cpp:574-600 | the destination computed with wrap-around, as each mapping computes it, is the reservation plus the distance from the lowest page |
| `SegmentMap.AddressSpace.MapOneSegment` | userspace/zygisk/core/src/yukilinker.cpp:574-634 | maps whole pages by either path, leaves the rest of memory alone, and loads the segment as its header says |
| `SegmentMap.AddressSpace.MapImage` | userspace/zygisk/core/src/yukilinker.cpp:636-678 | after success every byte of every LOAD is the file byte or zero, whichever path mapped it |
| `SegmentMap.PathsAgree` | userspace/zygisk/core/src/yukilinker.cpp:574-678 | one image mapped anonymously and mapped from its file, at any two reservations, has the same byte at every address of every segment |
| `RelrDecoder.EntriesFitMeaning` | userspace/zygisk/core/src/yukilinker.cpp:2071-2106 | the checks made entry by entry are exactly: every decoded word lies in the image and no running offset overflows |
| `RelrMeaning.EntryMeaning` | userspace/zygisk/core/src/yukilinker.cpp:2071-2106 | an entry adds, in increasing order, exactly the offsets it names: an address itself; a bitmap, for each set bit k after j - 1 bitmaps since the last address a, a + W(1 + (8W - 1)(j - 1) + (k - 1)) |
| `RelrMeaning.DecodeMeaning` | userspace/zygisk/core/src/yukilinker.cpp:2071-2106 | an offset is decoded if and only if some entry names it |
| `RelrMeaning.GroupMeaning` | userspace/zygisk/core/src/yukilinker.cpp:2071-2106 | an address followed by bitmaps decodes to the address and then, increasing, exactly the words of the set bits |
| `RelrMeaning.InImageMeaning` | userspace/zygisk/core/src/yukilinker.cpp:2063-2069 | a word can be relocated exactly when its address does not wrap and all its bytes lie in the reservation |
| `RelrDecoder.AddedPerOccurrence` | userspace/zygisk/core/src/yukilinker.cpp:2063-2106 | a word no other named word overlaps gains the bias once for each time the decoded table names it |
| `RelrDecoder.AddTimesClosed` | userspace/zygisk/core/src/yukilinker.cpp:2063-2069 | adding the bias n times is adding n times the bias, modulo the word size |
| `RelrDecoder.UntouchedBytes` | userspace/zygisk/core/src/yukilinker.cpp:2063-2106 | bytes that no decoded word covers are unchanged |
| `RelrDecoder.Relocator.PatchRelativeWord` | userspace/zygisk/core/src/yukilinker.cpp:2063-2069 | patches exactly the words the image holds and fails without effect on others |
| `RelrDecoder.Relocator.ApplyBitmap` | userspace/zygisk/core/src/yukilinker.cpp:2090-2098 | applies exactly the words its set bits name, or fails exactly when one is outside the image |
| `RelrDecoder.Relocator.ApplyRelrSpan` | userspace/zygisk/core/src/yukilinker.cpp:2071-2106 | succeeds exactly when all decoded words are in the image and no offset overflows; memory is then the original with the bias applied at the gABI decoding, in order |
| `RuntimeTable.PickMeaning` | kernel/feature/zygote_probe.c:887-913 | a picked slot is free, exited or a module's, in that order of preference; none is found only when all others are live base records |
| `RuntimeTable.BeginKeepsInv` | kernel/feature/zygote_probe.c:941-1000 | beginning a process keeps base and module records unique and base generations distinct |
| `RuntimeTable.ReportKeepsInv` | kernel/feature/zygote_probe.c:1076-1139 | so does a report |
| `RuntimeTable.RunKeepsInv` | kernel/feature/zygote_probe.c:786-1139 | so does every run |
| `RuntimeTable.RecordsUnique` | kernel/feature/zygote_probe.c:786-1139 | in every run: one base per native pid, one per zygote target and ABI, one module record per pid and id, distinct base generations until the counter wraps |
| `RuntimeTable.BaseSurvives` | kernel/feature/zygote_probe.c:887-1000 | no step takes the slot of a base record unless its own process is found gone or begins again |
| `RuntimeTable.BeginRefusedIff` | kernel/feature/zygote_probe.c:941-1000 | a process gets no record exactly when every slot holds a live base record and none is its own |
| `RuntimeTable.InjectedWasRedirected` | kernel/feature/zygote_probe.c:1002-1139 | in every run a base that is injected was redirected earlier in the same slot, pid and generation |
| `RuntimeTable.StaleReport` | kernel/feature/zygote_probe.c:1076-1108 | a report with an old generation is refused and nothing becomes injected |
| `RuntimeTable.ReportDoneIff` | kernel/feature/zygote_probe.c:1076-1139 | a report about a live process injects exactly when the first live base record of that process and generation has been redirected, and that record is then injected |
| `RuntimeTable.NamedOnce` | kernel/feature/zygote_probe.c:821-838 | a report names one live base record only, until the counter wraps and always for a native process |
| `RuntimeLife.BegunRecord` | kernel/feature/zygote_probe.c:941-1000 | a process that is given a generation has a base record with it, with its own data and in state detected, in its predecessor's slot or a reusable one; a zygote's restarts are one more than its predecessor's; no other record changes but to exited |
| `RuntimeLife.SetStateMeaning` | kernel/feature/zygote_probe.c:1002-1021 | a state change takes effect on the first base record of the pid and generation and on nothing else |
| `RuntimeLife.SetStateOfNone` | kernel/feature/zygote_probe.c:1002-1021 | without such a record, or for generation zero, nothing changes |
| `RuntimeLife.StateKept` | kernel/feature/zygote_probe.c:786-1139 | a live base record keeps its contents, and its state changes only by its own state change or report, until its process is found dead or begins again |
| `RuntimeLife.ReportInjects` | kernel/feature/zygote_probe.c:1076-1139 | a report that names a redirected or injected record injects it; a native module is turned away only if no slot can take its record |
| `RuntimeLife.BeginRedirectReport` | kernel/feature/zygote_probe.c:941-1139 | beginning, redirecting with the generation handed out and reporting with it is answered and leaves the record injected |
| `RuntimeLife.RecordedIff` | kernel/feature/zygote_probe.c:1119-1136 | a module's report answered done leaves it recorded, unless the table is full, it had no record and the record making room is an injected one of the same process |
| `RuntimeLife.LostModuleRun` | kernel/feature/zygote_probe.c:1119-1136 | a run of 129 events after which a module's report is answered done and the module is not recorded |
| `RuntimeTable.GenerationStep` | kernel/feature/zygote_probe.c:786-792 | the 32-bit counter that skips zero follows the number of increments |
| `RuntimeTable.Records.FindFirst` | kernel/feature/zygote_probe.c:821-885 | each search loop returns the first matching slot |
| `RuntimeTable.Records.PickSlot` | kernel/feature/zygote_probe.c:887-913 | the loop computes the specified choice |
| `RuntimeTable.Records.RefreshExited` | kernel/feature/zygote_probe.c:924-939 | marks exactly the records whose tasks are gone |
| `RuntimeTable.Records.BeginRecord` | kernel/feature/zygote_probe.c:941-1000 | table and returned generation are the specified ones |
| `RuntimeTable.Records.SetRecordState` | kernel/feature/zygote_probe.c:1002-1021 | changes the state of the one base record of that pid and generation |
| `RuntimeTable.Records.ReportRuntime` | kernel/feature/zygote_probe.c:1076-1139 | table and reply are the specified ones |
| `SafeMode.ActiveIffCrashing` | kernel/feature/zygote_probe.c:566-628 | after every history safe mode is on exactly when one of the first four zygote names came back under a new pid three times |
| `SafeMode.ActiveStays` | kernel/feature/zygote_probe.c:566-628 | safe mode never ends |
| `SafeMode.Guards.FindSlot` | kernel/feature/zygote_probe.c:547-564 | the loop finds the name's guard, or the first free one |
| `SafeMode.Guards.ShouldSkip` | kernel/feature/zygote_probe.c:566-628 | the guards after a start are the specified ones, and a start is skipped exactly when safe mode was on or is turned on by it |
| `Bootstrap.StepKeepsInv` | kernel/core/bootstrap.c:131-345 | every atomic step keeps the claim invariant, given that a queueing failure finds the claim open or is checked |
| `Bootstrap.ResetKeepsInvIff` | kernel/core/bootstrap.c:337-342 | the unconditional store after a failed queueing keeps the invariant if and only if the claim is still open |
| `Bootstrap.VerdictIsFinal` | kernel/core/bootstrap.c:131-266 | ready and closed are absorbing |
| `Bootstrap.VerdictChangesIff` | kernel/core/bootstrap.c:131-345 | in every run of the code as it is, a step leaves ready or closed exactly when it is a failed queueing whose store is not checked |
| `Bootstrap.VerdictStandsIff` | kernel/core/bootstrap.c:131-345 | over any stretch of a run that starts ready or closed, the claim stays the same if and only if no queueing fails in it, or the store is checked |
| `Bootstrap.OneVerdict` | kernel/core/bootstrap.c:131-266 | a successful ready and a fail-closed never both happen, and neither happens twice |
| `Bootstrap.OneDelivery` | kernel/core/bootstrap.c:175-219 | at most one bootstrap descriptor is ever delivered |
| `Bootstrap.ClaimNeverStuck` | kernel/core/bootstrap.c:131-345 | in every run, while the claim is being claimed some session is at work on it |
| `Bootstrap.UndisturbedDelivers` | kernel/core/bootstrap.c:131-345 | a session that meets an open claim and is not disturbed delivers its descriptor, the ready counts, and the cookie is cleared |
| `Bootstrap.FailuresGiveBack` | kernel/core/bootstrap.c:131-345 | wherever an undisturbed session fails, the claim is open again |
| `Bootstrap.GuardCloses` | kernel/core/bootstrap.c:131-345 | the guard, undisturbed, closes a claim without verdict and clears the cookie |
| `Bootstrap.NoneAfterCookie` | kernel/core/bootstrap.c:131-345 | once the cookie is cleared no process passes the check |
| `Bootstrap.ClosedThenReady` | kernel/core/bootstrap.c:306-345 | a run of the code as written reaches both a fail-closed and a ready |
| `Bootstrap.TwoDelivered` | kernel/core/bootstrap.c:175-345 | a run of the code as written delivers two descriptors |
| `Specialize.StepKeepsInv` | kernel/feature/zygote_orch.c:75-172 | every step keeps queue order, drop counts, single wakeup and one event per life |
| `Specialize.RunKeepsInv` | kernel/feature/zygote_orch.c:75-172 | so does every run |
| `Specialize.Conservation` | kernel/feature/zygote_orch.c:85-172 | in every run what was queued is emitted, held, pending or dropped, emission is in queue order, and each fork-to-free life has at most one event |
| `Specialize.DroppedIffFull` | kernel/feature/zygote_orch.c:102-126 | an event is dropped exactly when 127 are pending, else it joins the end |
| `Specialize.ForkMeaning` | kernel/feature/zygote_orch.c:85-100 | a fork that is not tracked yet takes a free slot, if there is one, as a new child |
| `Specialize.FreeMeaning` | kernel/feature/zygote_orch.c:341-366 | a freed process is tracked by no slot, and no other slot changes |
| `Specialize.SetUidMeaning` | kernel/feature/zygote_orch.c:418-450 | a uid change makes an event, with that pid, uid and app id, exactly for a tracked child that has had none and an app uid that is not isolated |
| `Specialize.NothingLeftBehind` | kernel/feature/zygote_orch.c:102-172 | from every reachable state the work item alone emits every queued event in order and reports every drop, so no wakeup is lost |
| `Specialize.Children.TrackChild` | kernel/feature/zygote_orch.c:85-100 | tracks a pid once, in the first free slot |
| `Specialize.Children.OnFree` | kernel/feature/zygote_orch.c:341-366 | frees exactly the slot of the pid |
| `Specialize.Children.OnSetResUid` | kernel/feature/zygote_orch.c:418-450 | gives an event exactly for a tracked, not yet specialized child dropping to an app uid that is not isolated |
| `Specialize.Ring.Queue` | kernel/feature/zygote_orch.c:102-126 | the ring's contents gain the event at the end, or the drop count grows when 127 are pending; asks for a wakeup exactly when none is on its way |
| `Specialize.Ring.Take` | kernel/feature/zygote_orch.c:128-148 | takes the oldest event, else the drop count, else clears the wakeup |
| `Specialize.Ring.Work` | kernel/feature/zygote_orch.c:150-172 | emits all pending events in order, reports all drops and leaves nothing queued |
| `FileBroker.StepKeepsPlace` | kernel/feature/zygote_ctl.c:54-188 | every step leaves each taken reference in one place |
| `FileBroker.Conservation` | kernel/feature/zygote_ctl.c:54-188 | in every interleaving each reference taken is in exactly one of a call's hands, a slot, a process or the put ones |
| `FileBroker.GivenAreCounted` | kernel/feature/zygote_ctl.c:54-188 | files are installed as often as a descriptor is found and put as often as none is or a call gives one up |
| `FileBroker.OneSlotInRuns` | kernel/feature/zygote_ctl.c:38-48 | in every run a process has at most one slot |
| `FileBroker.PlaceMeaning` | kernel/feature/zygote_ctl.c:124-141 | a handoff parks its files in its process's own slot, giving up what was there, or in one that is nobody's; only without either does it give up its own |
| `FileBroker.ReleaseMeaning` | kernel/feature/zygote_ctl.c:169-188 | when a process is freed nothing stays parked for it |
| `FileBroker.Broker.HandoffFiles` | kernel/feature/zygote_ctl.c:93-167 | parks the files and puts those they replace; a bad descriptor puts exactly those taken before it, a full table all of them |
| `FileBroker.Broker.DeliverFiles` | kernel/feature/zygote_ctl.c:54-91 | empties the slot; when the process exits puts every file, else installs exactly those at positions where a descriptor is found and puts exactly the others |
| `FileBroker.Broker.ReleaseFiles` | kernel/feature/zygote_ctl.c:169-188 | empties the process's slot and puts its files once |
| `PackageConfig.SplitCsv` | userspace/zygisk/daemon/root_policy.cpp:205-227 | the character loop computes the specified fields |
| `PackageConfig.SplitPrinted` | userspace/zygisk/daemon/root_policy.cpp:205-227 | splitting any line printed with RFC 4180 quoting, quotes chosen freely where not needed, gives back the fields |
| `PackageConfig.NumberRound` | userspace/zygisk/daemon/root_policy.cpp:193-203 | a printed number is read back if it fits 32 bits and refused otherwise |
| `PackageConfig.NegativeAccepted` | userspace/zygisk/daemon/root_policy.cpp:193-203 | a number written with a minus sign is accepted exactly if it is zero or from 2^64 - 2^32 + 1 to 2^64 - 1, and is then read as its negation modulo 2^64 |
| `PackageConfig.ParseApatch` | userspace/zygisk/daemon/root_policy.cpp:416-442 | succeeds exactly when there is a header, every row is readable and there are at most 8192; the decisions are those merged from the rows |
| `PackageConfig.DecisionIsDisjunction` | userspace/zygisk/daemon/root_policy.cpp:437-437 | the decision for a user id is the disjunction of the exclude flags of its rows, and absent without rows |
| `PackageConfig.WrittenRow` | userspace/zygisk/daemon/root_policy.cpp:426-436 | a row written with any quoting is read as its two numbers |
| `PackageConfig.ConfigToAnswer` | userspace/zygisk/daemon/root_policy.cpp:416-484 | for every readable configuration the snapshot is accepted and the kernel answers for each user id whether one of its rows excludes it |
| `PolicyCache.SerializedAcceptable` | userspace/zygisk/daemon/root_policy.cpp:444-484 | every snapshot within the bounds is acceptable to a kernel with the same owner and is read as written |
| `PolicyCache.AcceptableIff` | kernel/host/root_impl.c:162-232 | the kernel accepts exactly the snapshots of well-formed contexts with its owner |
| `PolicyCache.CacheAgreement` | kernel/host/root_impl.c:245-293 | a lookup in an accepted snapshot is right exactly when it is the daemon's decision, else the default if complete, else try-again, with the manager never unmounted |
| `PolicyCache.Daemon.PushCache` | userspace/zygisk/daemon/root_policy.cpp:444-484 | writes the snapshot of the state under a new generation, unless there are too many decisions |
| `PolicyCache.Kernel.Install` | kernel/host/root_impl.c:162-243 | installs exactly acceptable files while the owner stands, reports staleness when it changed, and otherwise keeps the old cache |
| `PolicyCache.Kernel.Lookup` | kernel/host/root_impl.c:245-293 | the binary search gives the right answer for every user id |
| `PolicyCache.PushInstallLookup` | kernel/host/root_impl.c:162-293 | pushing, installing and looking up gives the answer of the daemon's decisions |
| `Json.InsertSorted` | userspace/common/json.hpp:274-274 | assigning a key keeps an object's keys distinct and in order |
| `Json.StringRound` | userspace/common/json.hpp:84-230 | reading back a printed string gives its text, with unknown escapes losing their backslash |
| `Json.ValueRound` | userspace/common/json.hpp:111-281 | a value printed anywhere in a text, at any indent, is read back and exactly its text is consumed |
| `Json.ParseOfDump` | userspace/common/json.hpp:111-289 | parsing a printed value gives its cleaned form and reads to the end |
| `JsonLayout.LaidRound` | userspace/common/json.hpp:168-281 | a value written with any blanks between its tokens is read as its cleaned form and exactly consumed |
| `JsonLayout.LayoutIrrelevant` | userspace/common/json.hpp:168-289 | any two layouts of a value, with blanks before and between the tokens, are parsed as the same value as its printed form |
| `Json.RoundTripIff` | userspace/common/json.hpp:84-289 | parse of dump is the value itself if and only if every string and key uses only characters from space up, newline and tab |
| `Json.ControlsDoNotReturn` | userspace/common/json.hpp:204-230 | a carriage return comes back as "r" and character 1 as "u0001" |
| `Json.ParsedWellFormed` | userspace/common/json.hpp:176-280 | whatever the text, a parsed value keeps object keys distinct and in order |
| `Json.ReparseIff` | userspace/common/json.hpp:84-289 | what a text parses to prints and parses to itself exactly when it is plain |
| `Json.StuckArray` | userspace/common/json.hpp:240-257 | a character that starts no value and is no comma or bracket is never passed inside an array |
| `Json.ArrayHangsIff` | userspace/common/json.hpp:240-257 | an array loop does not end if and only if it, or a loop nested in it, begins a turn at which, after blanks, no value starts and there is no comma or closing bracket |
| `Json.HangsIff` | userspace/common/json.hpp:176-280 | reading any value does not end if and only if one of the array loops it runs begins such a turn |
| `Json.Parser.SkipWhitespace` | userspace/common/json.hpp:171-174 | stops at the first character that is not a blank |
| `Json.Parser.ParseString` | userspace/common/json.hpp:204-230 | text and position are the specified ones |
| `Json.Parser.ParseNumber` | userspace/common/json.hpp:232-238 | the token ends where digits, minus signs and points end, and its integer value is read |
| `Json.Parser.ParseValue` | userspace/common/json.hpp:176-202 | outcome and position are the specified ones |
| `Json.Parser.ParseArray` | userspace/common/json.hpp:240-257 | the loop computes the specified outcome, including not ending |
| `Json.Parser.ParseMember` | userspace/common/json.hpp:270-277 | key, value and position are the specified ones, whatever punctuation is missing |
| `Json.Parser.ParseObject` | userspace/common/json.hpp:259-280 | the loop computes the specified outcome |
| `InlineHook.A64RoundTrip` | userspace/zygisk/core/src/inline_hook.hpp:84-87 | the emitted A64 branch decodes to its destination exactly when that is whole words away and within 128 MiB |
| `InlineHook.ArmRoundTrip` | userspace/zygisk/core/src/inline_hook.hpp:326-335 | the emitted ARM branch decodes to its destination exactly when the reach check accepts it |
| `InlineHook.T4RoundTrip` | userspace/zygisk/core/src/inline_hook.hpp:337-349 | the emitted half words are encoding T4 and decode to the destination exactly when the reach check accepts it |
| `InlineHook.NearBranchesReach` | userspace/zygisk/core/src/inline_hook.hpp:94-159 | every page the 64-bit search can return is reached by the patch and reaches back |
| `InlineHook.NearPageReachable` | userspace/zygisk/core/src/inline_hook.hpp:293-323 | every page the 32-bit search tries is within reach of both 32-bit branches |
| `InlineHook.AbsoluteJumpLands` | userspace/zygisk/core/src/inline_hook.hpp:351-374 | at either alignment the literal the load reads is the destination just after the code |
| `InlineHook.WidePcRelativeIff` | userspace/zygisk/core/src/inline_hook.hpp:223-243 | of wide Thumb instructions exactly the literal load of a word and the whole group of branches and miscellaneous control are recognised |
| `InlineHook.WideFormsMissed` | userspace/zygisk/core/src/inline_hook.hpp:223-243 | of the ten kinds of wide instruction that depend on their own address, exactly the literal load of a word and the branches are recognised; the other eight count as movable |
| `ArmForms.ArmPcRelativeIff` | userspace/zygisk/core/src/inline_hook.hpp:245-256 | of ARM words exactly branches, and those with the program counter in the base field outside multiple transfers, are recognised; a branch to a register is exempt |
| `ArmForms.ArmFormsMissed` | userspace/zygisk/core/src/inline_hook.hpp:245-256 | of the nine kinds of ARM instruction that read the program counter, five are recognised, two only if it is also the base, and multiple stores of it and BX PC count as movable |
| `ArmForms.MovePcMissed` | userspace/zygisk/core/src/inline_hook.hpp:245-256 | a move of the program counter to any register, under any condition, counts as movable |
| `ArmForms.A64FormsExact` | userspace/zygisk/core/src/inline_hook.hpp:66-81 | an A64 word is recognised if and only if it is one of the six kinds that read the program counter as an operand |
| `InlineHook.CopySize` | userspace/zygisk/core/src/inline_hook.hpp:258-278 | the copied prefix is the fewest whole movable instructions that give the room asked for, at most 12 bytes; zero exactly when one that starts in that room is fixed |
| `InlineHook.PatchWorks` | userspace/zygisk/core/src/inline_hook.hpp:445-458 | the patch is no longer than the moved prefix and jumps to the trampoline page |
| `InlineHook.TrampolineReplays` | userspace/zygisk/core/src/inline_hook.hpp:433-437 | the page holds the moved instructions, then a jump to the instruction after them |
| `InlineHook.SpliceBack` | userspace/zygisk/core/src/inline_hook.hpp:453-477 | writing back the saved half words undoes a patch no longer than them |
| `InlineHook.Process.Install` | userspace/zygisk/core/src/inline_hook.hpp:381-468 | on success code, page, hook and returned address are those of an acceptable plan; on failure nothing changes, and a fixed instruction, a full page or a failed system call is the cause |
| `InlineHook.Process.Uninstall` | userspace/zygisk/core/src/inline_hook.hpp:470-489 | writes the saved half words over the patch and drops the page |
| `InlineHook.InstallAndRemove` | userspace/zygisk/core/src/inline_hook.hpp:381-489 | installing and removing leaves every half word of the code as it was |
| `RateLimit.PackRound` | userspace/zygisk/daemon/log.cpp:80-87 | the packed word holds 48 bits of tick and 16 of tokens without loss |
| `RateLimit.TokensStayBounded` | userspace/zygisk/daemon/log.cpp:80-87 | tokens never exceed the burst, so the 16-bit field never overflows |
| `RateLimit.WindowBound` | userspace/zygisk/daemon/log.cpp:69-91 | grants within any tick window never exceed the burst plus its length, if no granted call reads a clock behind the bucket's |
| `RateLimit.WindowBoundAlways` | userspace/zygisk/daemon/log.cpp:69-91 | for any ticks, grants within a tick window never exceed the burst, the window's length and the ticks by which granted calls wound the bucket back |
| `RateLimit.GrantedIff` | userspace/zygisk/daemon/log.cpp:69-91 | a call is refused exactly when the bucket is empty and the clock has not moved on since the last grant |
| `RateLimit.BurstAfterIdle` | userspace/zygisk/daemon/log.cpp:69-91 | after as many idle ticks as the burst, that many calls in a row are granted |
| `RateLimit.NonDecreasingIsForward` | userspace/zygisk/daemon/log.cpp:69-91 | calls with non-decreasing ticks meet that condition |
| `RateLimit.TokensConserved` | userspace/zygisk/daemon/log.cpp:69-91 | for any ticks, grants are the tokens there were and were added, less those left |
| `RateLimit.LateReadingsBreakTheBound` | userspace/zygisk/daemon/log.cpp:69-91 | ticks alternating between 2 and 0 are all granted with a burst of 2, however many |
| `RateLimit.TakeRateToken` | userspace/zygisk/daemon/log.cpp:69-91 | whatever values race, the decision and the stored word follow from the last value seen |
| `RateLimit.Source.ShouldWrite` | userspace/zygisk/daemon/log.cpp:93-110 | a message passes by its bucket, or for warnings and errors by the other one, each with its own clock reading, and the buckets change accordingly |
| `RateLimit.Source.Write` | userspace/zygisk/daemon/log.cpp:299-322 | a message that does not pass is counted; one that does reports and clears the count |
| `RateLimit.AllAccounted` | userspace/zygisk/daemon/log.cpp:299-322 | refused messages are exactly the reported and the still counted ones if and only if the counter has not wrapped since the last report |

## Left out

- PolicyGrants.StepKeepsLedger: assumes that the parts of a grant that is made hold no bit of one key twice and that its new keys find slots together, as the code does; RestoreKeepsLedgerIff and RecordedIffRoom say what happens otherwise.
- PolicyHolders.RunKeepsInv: the ledger calls that succeed are as for StepKeepsLedger, and a restore that fails loses its grant, as the callers drop it. An entry keeps its contents when it is freed, so a late timer that reads a freed entry finds it not pending; what freed memory really holds is not modelled.
- TlsRegistry.RunKeepsInv: an image is not activated twice at once and the generation counter has not reached its maximum.
- InlineHook.WideFormsMissed: literal loads with write-back, whose result the architecture leaves open, are not among the forms.
- ArmForms.ArmFormsMissed: forms with the program counter where the architecture leaves the result open (base written back, register-shifted operand, index register) are not among the forms, nor instructions that only leave a return address.
- Json.HangsIff: a number that is not an integer ends the model's reading, so what follows it is not looked at.
- RuntimeTable.RecordsUnique: base generations are distinct only until the 32-bit counter wraps; the other three uniqueness claims hold beyond.
- RuntimeLife.BeginRedirectReport: holds until the generation counter wraps, when another record of the pid could have the same generation.
- RuntimeTable.InjectedWasRedirected: assumes that the injector itself only sets redirected, failed and safe mode, as all its calls do (kernel/feature/zygote_probe.c:2015-2038 and 2351-2361).
- Specialize.Conservation: the drop counter is unbounded; in the code it is 32 bits wide and cleared at each report.
- Bootstrap.OneVerdict: covers the time before module exit, which resets the state.
- Json.Parser.ParseNumber: a token other than an optional minus sign and digits has the outcome NotInteger; floating-point values, their printing and the library's exceptions are not modelled, and integers are unbounded.
- PackageConfig.ParseApatch: with more than 8192 rows only the refusal is stated; the decisions kept then are those of the rows read so far.
- PolicyCache.Kernel.Install: memory allocation and short reads do not fail.
- InlineHook.Process.Install: what the moved instructions do when executed is not modelled, nor the capture stub's code and the context words stored in it.
- InlineHook.NearBranchesReach: pages whose address would wrap below zero are excluded, since no system call returns them.
- FileBroker.Conservation: which process a late delivery callback runs in is not tracked.
- SegmentMap.AddressSpace.MapImage: covers 64-bit images; page protection and the reservation's own system call are left out.
- The 32-bit permission vectors are sets of bits, and the file, class and type names behind a key are not looked up.
- PolicyDB serialization, cache resets, read-copy-update and allocators appear only as an atomic swap with a possible failure.
- Symbol relocations, IFUNC resolvers, initializers, the GNU hash symbol count, the metadata allocator and the assembly fast path of thread-local storage.
- The 64-bit hook's installation beyond its branches, and the variant of removal that discards the modified pages.
- KernelSU queries and its binary allowlist, and the refresh policy of the daemon's cache.
- Netlink, ioctl and prctl dispatch, sockets, process spawning, mount handling, text patching and every user interface.
