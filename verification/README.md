# Armada, verified

A Dafny 4.11 model of the parts of Armada, a replicated key-value store, whose correctness rests on
arguments that single examples cannot settle. `dafny verify dfyconfig.toml` checks all of it.

**Compaction scheduler** (`SchedulerState`, `SchedulerProtocol`, `SchedulerTheorems`, `Coordinator`,
`GrantPass`). The node-wide limit on concurrent compactions is a protocol around one mutex that grant passes
release while they call into a database. Twenty kinds of atomic steps, one per critical section, may interleave in any
order, with arbitrary answers from the databases. Over every run the counters balance, every grant respects the limits
it was checked against and goes to the best candidate, the compactions in progress stay within a node-wide cap, a
refused request is forgotten only through the wrap of a 64-bit counter, and one granter and one pass run at a time. The coordinator object itself, with its
loops, is a class proved against the same state functions, and its grant pass is a run of one thread.

**Command codec** (`Wire`, `Messages`, `Codec`, `CommandCodec`, `Sizes`, `Marshal`, `Unmarshal`, `Merge`,
`Pool`). The generated protobuf code of the replicated command language, after the Protocol Buffers Encoding
specification ("Base 128 Varints", "Message Structure", "Length-Delimited Records", "Last One Wins", "Groups").
Messages have a functional encoding and decoding; the round trip holds for commands of any nesting. The
marshallers that write backwards into a buffer and the unmarshalling loops are methods proved against them.
Objects from the command pool keep the contents of their slots; decoding into one is compared, at every depth,
with decoding into a new object.

**Versioned keys and garbage collection** (`MvccKeys`, `KeyValidation`, `BlockFilter`, `GcSweep`,
`GcTheorems`). Physical keys hold the user key, a zero separator and the inverted sequence number. Null-free
user keys make byte order, splitting and version ranges right. The block filter keeps exactly the blocks
with old keys, and the sweep over what it keeps deletes version ranges without a reader noticing, with one
exact exception.

**Replication** (`Replication`, `ReplicationProtocol`, `GcRefinement`, `SnapshotScan`, `LogServer`,
`StreamRefinement`). A leader's log, its versioned store, collection, re-creation of the table, log tailing, full
and incremental snapshots and losses on the way are steps of a state machine; the follower always holds a state the leader
had. The sweep and the snapshot scans over physical keys and the streams of the log server, whose loop is a method,
are steps of that machine.

**Raft queues** (`EntryQueueSpec`, `EntryQueue`, `ReadyShard`). Double buffers with lazy clearing and a
swapped pair of maps, as classes and over whole runs.

**Directory switch** (`DirSwitch`, `DirTheorems`, `DataDir`). The file that names the current database,
written, renamed and cleaned up on a disk that may lose what was not synced, with a crash possible between
any two operations; and the directory it names, over whole runs.

## What the code does not do

Eight statements one might expect turn out to be false of the code. Each has a concrete input and the exact
condition under which it does hold:

- A message with a set oneof whose payload is nil is sized one byte longer than it is written, so `MarshalVT`
  returns bytes that start with a zero and that no decoder accepts. `Sizes.CommandSize` and
  `Sizes.MarshalRoundTrip`: marshalling round-trips if and only if no set oneof has a nil payload;
  `Sizes.NilPutIsRefused` is one that does not.
- Decoding into a recycled command is not the same as decoding into a new one: a RangeEnd that is absent
  from the input reads as present and empty if the object ever held one (`Pool.RecycledRangeEndShows`), and
  likewise in nested commands. `Pool.RecycledIsExactIff`: it is the same for every input if and only if neither the
  object nor a spare slot of it, at any depth, keeps a RangeEnd.
- An incremental snapshot whose base is at or below the collection horizon is moved up to the entry after the
  horizon, where its comment speaks of validating the base, and so misses what that entry wrote. It is right
  exactly for the bases that the guard in front of it admits (`Replication.DeltaIsRight` for all of them,
  `Replication.UnguardedDeltaIsWrong` for none of the others).
- The sweep keeps the newest old version of a key by deleting from the next stored number on. For a value
  written at sequence number 0 that number wraps around and all versions go. `GcTheorems.SweepPreservesIff`:
  nothing is lost if and only if no value at sequence number 0 is the newest old version of its key with
  nothing newer in the scan; `GcTheorems.ValueAtZeroIsLost` is a table that a sweep empties. Log indexes start
  at 1, so in replication it does not happen (`GcRefinement.SweepIsStep`).
- The limit that the registered databases give at the moment does not always bound the compactions in progress: a
  database may leave with one (`SchedulerTheorems.DepartureExceedsLimit`). With constant allowances it bounds them at
  all times if and only if, whenever a database leaves, the allowances of the others cover what is in progress
  (`SchedulerTheorems.SteadyWithinLimitIff`). The cap of all that ever registered always bounds them
  (`SchedulerTheorems.NodeStaysWithinCap`).
- A waiting request can be lost: a run of 2^64 refusals during one question does it
  (`SchedulerTheorems.LapIsReached`). The waiting ends if and only if the answer is no and the generation of the
  question equals the present one modulo 2^64 (`SchedulerTheorems.WaitingEndsIff`).
- With an odd clearing cycle n the left buffer of a queue is not always cleared within 2n gets: the 64-bit counter
  wraps around (`EntryQueueSpec.WrapDelaysLeft`). It is cleared if and only if there are as many gets as `LeftWait`
  computes from counter and cycle (`EntryQueueSpec.LeftClearedIff`), which is within 2n exactly if an odd multiple of
  n is left before the wrap or the wrap is at most n away, and within 3n always (`EntryQueueSpec.LeftWaitBounds`).
- The current file may name a database directory that does not exist: a new node that is killed between its first
  switch and the creation of the directory cannot be opened again (`DirTheorems.KillBeforeCreation`,
  `DirTheorems.MissingStaysMissing`). The named directory is there at all times if and only if each switch is to a
  directory that is there (`DirTheorems.HeldThroughoutIff`).

## Model

| member | source | states |
|---|---|---|
| SchedulerState.HigherPriorityIsStrictWeakOrder | pebble/compaction.go:255-263 | the candidate order is irreflexive, asymmetric and transitive, and so is being incomparable |
| SchedulerState.MaxAllowedIsLimit | pebble/compaction.go:175-185 | the limit is an upper bound of all allowances, at least 0, and one of them unless 0, whatever the iteration order |
| SchedulerState.TryScheduleEffect | pebble/compaction.go:105-127 | a call grants one compaction to its caller or marks it waiting or does nothing, a grant only under both limits and outside passes, and other registrations keep all but recorded allowances |
| SchedulerProtocol.ApplyKeepsInv | pebble/compaction.go:67-283 | every atomic step of every thread keeps the invariant: counts, life cycle, one granter, one pass, and what a pass remembers |
| SchedulerProtocol.RunKeepsInv | pebble/compaction.go:67-283 | the invariant holds after every interleaving |
| SchedulerTheorems.AccountsBalance | pebble/compaction.go:105-224 | the global count is the sum over all registrations ever created, and with the at most one uncounted grant it is the number of grants not yet Done, even when Done comes first |
| SchedulerTheorems.GranterLifeCycle | pebble/compaction.go:67-103 | a non-empty registration set implies a running granter, the flag says whether the one granter is alive, at most one pass runs, and the set holds exactly the registered ones |
| SchedulerTheorems.PassSeesOneSet | pebble/compaction.go:193-224 | no registration joins or leaves during a pass although the mutex is released |
| SchedulerTheorems.RefusalIsNotLost | pebble/compaction.go:105-161 | a refused request stays waiting through every continuation until the DB answers no to a question asked after the refusal, or to one asked a whole multiple of 2^64 refusals before |
| SchedulerTheorems.WaitingEndsIff | pebble/compaction.go:212-253 | in every step a waiting DB stops waiting if and only if it answers no to a question whose generation looks current |
| SchedulerTheorems.LapLosesRefusal | pebble/compaction.go:220-243 | a no to a question at least 2^64 refusals old, with the same 64-bit generation, does end the waiting |
| SchedulerTheorems.LapIsReached | pebble/compaction.go:232-243 | a run from the start, with 2^64 refusals while one question is open, after which the no to it ends the waiting |
| SchedulerTheorems.LimitProvenance | pebble/compaction.go:206-206 | the limit a pass acts on is what its own latest check read |
| SchedulerTheorems.AllowanceProvenance | pebble/compaction.go:232-246 | the allowance a candidate is held to is what was recorded when the pass asked it, after the last limit check of that pass |
| SchedulerTheorems.GrantWithinLimits | pebble/compaction.go:206-223 | a counted grant leaves the global count within the limit read at its own check, step j, and the DB's count within the allowance read when asked after it, step i, with j < i < k |
| SchedulerTheorems.HoldsTheBest | pebble/compaction.go:229-253 | in every interleaving, what a pass holds comes from a yes of its present scan, no other yes of that scan has a higher priority, and every registration has been looked at or is yet to be |
| SchedulerTheorems.OfferGoesToTheBest | pebble/compaction.go:206-253 | in every interleaving, an offer goes to a yes of the scan since the last limit check that no other yes of it beats, and all registrations were looked at in it |
| SchedulerTheorems.NodeStaysWithinCap | pebble/compaction.go:170-224 | on every run with constant allowances, whoever comes and goes, the compactions in progress, counted or not, never exceed the largest allowance of all DBs that ever registered, nor any DB its own |
| SchedulerTheorems.StepStaysWithinIff | pebble/compaction.go:88-103 | a step keeps the compactions in progress within the limit of the moment if and only if it is not the departure of a DB without which the other allowances fall short |
| SchedulerTheorems.SteadyWithinLimitIff | pebble/compaction.go:88-224 | with constant allowances they are within that limit throughout a run if and only if every departure in it is covered by the other allowances |
| SchedulerTheorems.SteadyNodeStaysWithinLimit | pebble/compaction.go:170-224 | with constant allowances, if no DB leaves, the compactions in progress are within the limit that the registered DBs give at the moment |
| SchedulerTheorems.DepartureExceedsLimit | pebble/compaction.go:88-103 | a run in which a DB leaves with a compaction in progress and the limit of the moment is exceeded |
| CompactionCoordinator.Coordinator.Register | pebble/compaction.go:67-86 | panics exactly on reuse and then changes nothing; otherwise waits for a pass to end, whatever others do meanwhile, and ends in the registered state; a granter is spawned exactly when none runs |
| CompactionCoordinator.Coordinator.Unregister | pebble/compaction.go:88-103 | panics exactly when not registered; otherwise waits for a pass to end and is removed from the set |
| CompactionCoordinator.Coordinator.TrySchedule | pebble/compaction.go:105-127 | the grant decision and the whole new state are those of the protocol step |
| CompactionCoordinator.Coordinator.UpdateGetAllowedWithoutPermission | pebble/compaction.go:129-143 | records the allowance of a registered DB and pokes exactly when it grew |
| CompactionCoordinator.Coordinator.Done | pebble/compaction.go:149-156 | both counts go down by one |
| CompactionCoordinator.Coordinator.GlobalLimitLocked | pebble/compaction.go:175-185 | the loop in any order records every allowance and returns the largest |
| CompactionCoordinator.Coordinator.BestCandidateLocked | pebble/compaction.go:229-253 | exactly the eligible registrations are asked; the choice is one that said yes and that no other yes beats, with its generation at the time; without a choice all said no; the new state clears waiting exactly where no was said |
| CompactionCoordinator.Coordinator.MakeOffer | pebble/compaction.go:212-222 | an accepted offer is counted once in both counts; a refused one ends the waiting only in its own generation |
| CompactionCoordinator.Coordinator.TryGrant | pebble/compaction.go:193-224 | for any answers, an undisturbed pass ends, each of its offers is made below the limit and goes to a best answer of its own scan, its final state is that of its scans and offers, it stays within the limit, keeps the counts balanced, and stops at the limit or when everyone asked says no |
| GrantPass.TryGrantIsRun | pebble/compaction.go:193-253 | what that pass does, one thread of the protocol does by its own moves alone, from the same state to the same state |
| Wire.SizeOfVarint | armadapb/mvcc_vtproto.pb.go:1006-1054 | the computed size is the length of the encoding |
| Wire.ReadVarintOfEncoded | armadapb/mvcc_vtproto.pb.go:1407-1420 | reading an encoded 64-bit number gives it back and stops right behind it |
| Wire.SignedRoundTrip | armadapb/mvcc_vtproto.pb.go:1464-1482 | signed 64- and 32-bit values survive the conversion to unsigned and back |
| Wire.NextFieldOfRecord | armadapb/mvcc_vtproto.pb.go:1401-1752 | a written record is read back as the field it came from, whatever follows |
| Wire.UnknownIsKept | armadapb/mvcc_vtproto.pb.go:1731-1744 | an unknown record is kept byte for byte |
| Wire.DecodeMerges | armadapb/mvcc_vtproto.pb.go:1401-1752 | for any message type, decoding a + b is decoding b on top of the result of a |
| Wire.DecodeOfMessage | armadapb/mvcc_vtproto.pb.go:1401-1752 | written fields followed by unknown records decode to those fields and those records |
| Codec.KeyValueRoundTrip | armadapb/mvcc_vtproto.pb.go:3339-3495 | decoding an encoded KeyValue restores it |
| Codec.CompareRoundTrip | armadapb/mvcc_vtproto.pb.go:3149-3338 | decoding an encoded Compare restores it, with the presence of its value |
| Codec.RangeRoundTrip | armadapb/mvcc_vtproto.pb.go:2010-2187 | decoding an encoded range request restores it |
| Codec.PutRoundTrip | armadapb/mvcc_vtproto.pb.go:2188-2326 | decoding an encoded put request restores it |
| Codec.DeleteRoundTrip | armadapb/mvcc_vtproto.pb.go:2327-2485 | decoding an encoded delete request restores it |
| Codec.RequestOpRoundTrip | armadapb/mvcc_vtproto.pb.go:2486-2659 | decoding an encoded RequestOp restores it with its arm, if a set arm has a payload |
| Codec.TxnRoundTrip | armadapb/mvcc_vtproto.pb.go:1857-2009 | decoding an encoded Txn restores it up to nil elements |
| CommandCodec.CommandRoundTrip | armadapb/mvcc_vtproto.pb.go:1401-1752 | decoding an encoded Command of any nesting restores it, with the presence of LeaderIndex, RangeEnd, Kv and Txn, up to nil elements |
| Sizes.KeyValueSize | armadapb/mvcc_vtproto.pb.go:1377-1400 | SizeVT is the length of the encoding |
| Sizes.CompareSize | armadapb/mvcc_vtproto.pb.go:1340-1376 | SizeVT is the length of the encoding |
| Sizes.RangeSize | armadapb/mvcc_vtproto.pb.go:1103-1129 | SizeVT is the length of the encoding |
| Sizes.PutSize | armadapb/mvcc_vtproto.pb.go:1130-1150 | SizeVT is the length of the encoding |
| Sizes.DeleteSize | armadapb/mvcc_vtproto.pb.go:1151-1174 | SizeVT is the length of the encoding |
| Sizes.RequestOpSize | armadapb/mvcc_vtproto.pb.go:1175-1229 | SizeVT covers the encoding, and is exact if and only if a set arm has a payload |
| Sizes.TxnSize | armadapb/mvcc_vtproto.pb.go:1075-1102 | SizeVT covers the encoding, and is exact if and only if no set arm in it has a nil payload |
| Sizes.CommandSize | armadapb/mvcc_vtproto.pb.go:1006-1054 | for any nesting, SizeVT covers the encoding, and is exact if and only if no set arm in it has a nil payload |
| Sizes.MarshalRoundTrip | armadapb/mvcc_vtproto.pb.go:22-34 | what MarshalVT returns decodes to the message if and only if no set arm has a nil payload, and is refused for its tag otherwise |
| Sizes.NilPutIsRefused | armadapb/mvcc_vtproto.pb.go:22-34 | a transaction with one nil put is sized 7, written in 6 bytes, marshalled with a zero in front and its last byte missing, and refused |
| Marshal.PutVarint | armadapb/mvcc_vtproto.pb.go:40-141 | the forward loop writes exactly the encoding in front of what is there |
| Marshal.MarshalKeyValue | armadapb/mvcc_vtproto.pb.go:933-970 | the backwards writer puts exactly the encoding in front of what is there and leaves the rest of the buffer alone |
| Marshal.MarshalCompare | armadapb/mvcc_vtproto.pb.go:851-914 | likewise, with the two-byte tag of field 64 |
| Marshal.MarshalRange | armadapb/mvcc_vtproto.pb.go:280-333 | likewise |
| Marshal.MarshalPut | armadapb/mvcc_vtproto.pb.go:352-390 | likewise |
| Marshal.MarshalDelete | armadapb/mvcc_vtproto.pb.go:409-457 | likewise |
| Marshal.MarshalRequestOp | armadapb/mvcc_vtproto.pb.go:476-568 | likewise, for every arm and for nil payloads |
| Marshal.MarshalTxn | armadapb/mvcc_vtproto.pb.go:211-261 | likewise, with the elements of repeated fields in order although written from the last |
| Marshal.MarshalCommand | armadapb/mvcc_vtproto.pb.go:40-141 | likewise, for any nesting |
| Marshal.MarshalVT | armadapb/mvcc_vtproto.pb.go:22-34 | the bytes returned are the front of a zeroed, SizeVT-sized buffer that ends with the encoding |
| Unmarshal.LoadVarint | armadapb/mvcc_vtproto.pb.go:1407-1420 | the shift loop yields the low 64 bits of the groups, at most ten of them, and the index behind them, or the same error |
| Unmarshal.LoadPayload | armadapb/mvcc_vtproto.pb.go:1434-1463 | the length-delimited slice and the index behind it, or the same error |
| Unmarshal.LoadField | armadapb/mvcc_vtproto.pb.go:1405-1435 | one turn of the loop reads exactly the next record |
| Unmarshal.UnmarshalVT | armadapb/mvcc_vtproto.pb.go:1401-1752 | the index loop computes the record-by-record decoding, errors included, and ends |
| Unmarshal.UnmarshalCommand | armadapb/mvcc_vtproto.pb.go:1401-1752 | the loop on commands computes the recursive decoder |
| Messages.CommandDecodesByRecords | armadapb/mvcc_vtproto.pb.go:1401-1752 | the recursive decoder of commands is the generic record fold |
| Messages.CommandMerges | armadapb/mvcc_vtproto.pb.go:1401-1752 | decoding a + b is decoding b on top of the result of a |
| Merge.LastBytesWin | armadapb/mvcc_vtproto.pb.go:1430-1463 | of two records of Table or of RangeEnd the last one counts |
| Merge.LastNumberWins | armadapb/mvcc_vtproto.pb.go:1519-1538 | of two records of Type, LeaderIndex, PrevKvs or Count the last one counts |
| Merge.BatchCollects | armadapb/mvcc_vtproto.pb.go:1539-1579 | two Batch records add two elements in their order |
| Merge.SequenceCollects | armadapb/mvcc_vtproto.pb.go:1670-1710 | two Sequence records add two elements in their order |
| Merge.KvMerges | armadapb/mvcc_vtproto.pb.go:1483-1518 | two Kv records decode like one with both payloads |
| Merge.TxnMerges | armadapb/mvcc_vtproto.pb.go:1580-1615 | two Txn records decode like one with both payloads |
| Merge.ArmMerges | armadapb/mvcc_vtproto.pb.go:2486-2659 | two records of one arm decode like one with both payloads |
| Merge.LastArmWins | armadapb/mvcc_vtproto.pb.go:2486-2659 | a record of another arm drops the arm that was set before |
| Pool.HistoryStaysTidy | armadapb/mvcc_vtproto.pb.go:978-1005 | over any history of decoding, failed decoding and returning to the pool, spare slots are nil or reset at every depth |
| Pool.ResetIsBlank | armadapb/mvcc_vtproto.pb.go:978-996 | after ResetVT nothing shows but possibly a present, empty RangeEnd, and all slots are reset |
| Pool.DecodeStaysTidy | armadapb/mvcc_vtproto.pb.go:1699-1710 | taking slots into use keeps the others reset, also when decoding fails |
| Pool.DecodeKeyValueIntoAgrees | armadapb/mvcc_vtproto.pb.go:1568-1579 | decoding in place succeeds and fails like decoding by value |
| Pool.RecycledDecodesLikeNew | armadapb/mvcc_vtproto.pb.go:978-1005 | after any history, decoding into a recycled command fails exactly when decoding into a new one does and else shows the same message but for absent RangeEnds |
| Pool.RecycledIsExactIff | armadapb/mvcc_vtproto.pb.go:978-1005 | a recycled command decodes every input exactly like a new one if no RangeEnd is kept in it or in a spare slot at any depth, and differs on a given input if one is |
| Pool.TellingTells | armadapb/mvcc_vtproto.pb.go:1699-1710 | the input that takes the slots before the kept one into use and then that one shows the difference |
| Pool.RecycledRangeEndShows | armadapb/mvcc_vtproto.pb.go:985-993 | a history after which an absent RangeEnd reads as present |
| MvccKeys.StoredSeqnoOrder | storage/table/key/v2.go:51-56 | stored sequence numbers sort from high to low |
| MvccKeys.DecodeV2Seqno | pebble/block_property.go:54-61 | the in-place inverting loop computes the number in the last eight bytes |
| MvccKeys.SeqnoRoundTrip | pebble/block_property.go:51-61 | decoding gives back every 64-bit sequence number, whatever stands before it |
| MvccKeys.PhysicalOrder | storage/table/key/v2.go:42-59 | byte order of physical keys is key type, then user key, then sequence number from high to low |
| MvccKeys.PhysicalInjective | storage/table/key/v2.go:42-59 | different versions have different keys, null bytes or not |
| MvccKeys.NullBytesBreakOrder | armadaserver/kv.go:19-26 | with a null byte allowed, every user key has a greater extension whose versions all sort between its newest and its oldest version |
| MvccKeys.SplitAgrees | pebble/pebble.go:32-64 | comparing split prefixes and then suffixes agrees with comparing whole keys |
| MvccKeys.SamePrefixIsSameKey | pebble/pebble.go:32-41 | keys share a split prefix if and only if they are versions of one user key |
| MvccKeys.VersionsShareAPrefix | pebble/pebble.go:32-41 | two versions of a user key share a split prefix if and only if the user key is not empty |
| KeyValidation.RangeChecks | armadaserver/kv.go:28-46 | bounds pass both checks if and only if they are null-free or wildcards where wildcards are allowed |
| KeyValidation.ValidateRequestOpKeys | armadaserver/kv.go:71-94 | an operation passes if and only if the keys of its arm are in order |
| KeyValidation.ValidateTxnKeys | armadaserver/kv.go:48-69 | a transaction passes if and only if all keys of its conditions and of both branches are in order |
| KeyValidation.ValidatePut | armadaserver/kv.go:211-222 | a put passes if and only if table and key are set and the key is null-free |
| KeyValidation.AcceptedKeysAreOrdered | armadaserver/kv.go:211-222 | keys that Put accepts are ordered, split, grouped and told apart as the key space needs |
| BlockFilter.CollectIsMinimum | pebble/block_property.go:33-43 | a block's interval starts below a bound if and only if one of its keys has its number there, with the wrap of the highest number |
| BlockFilter.KeptIffOld | pebble/block_property.go:77-97 | the filter keeps a block if and only if it holds a key below the horizon |
| BlockFilter.VisitedHasAllOld | pebble/block_property.go:77-97 | for any cut into blocks a filtered scan returns every old key and only keys of the table |
| BlockFilter.VisitedIsSorted | pebble/block_property.go:77-97 | skipping blocks keeps the order |
| GcSweep.RangeIsVersions | storage/table/fsm/fsm_gc.go:24-36 | from a version up to the prefix's upper bound lie that version and the older ones of that user key, and nothing else |
| GcSweep.IncrementStoredIsNext | storage/table/fsm/fsm_gc.go:38-50 | the incremented key is that of the next lower number, and of the highest one for number 0 |
| GcSweep.SeekGE | storage/table/fsm/fsm_gc.go:182-183 | the jump skips exactly the remaining versions of the user key |
| GcSweep.RunGC | storage/table/fsm/fsm_gc.go:81-191 | the sweep emits exactly one deletion per user key with an old version, no two for one user key, from the cut that the three cases define |
| GcTheorems.SweepPreservesIff | storage/table/fsm/fsm_gc.go:52-80 | no version at or above the horizon and no visible value is lost and none appears, if and only if the cut never wraps |
| GcTheorems.ValueAtZeroIsLost | storage/table/fsm/fsm_gc.go:161-169 | a table of one value at sequence number 0, which every sweep with a horizon above 0 empties |
| GcTheorems.OneValueIsScanned | storage/table/fsm/fsm_gc.go:91-101 | the scan and the deletion of that table exist |
| GcTheorems.SweepReclaims | storage/table/fsm/fsm_gc.go:52-80 | at most one version below the horizon survives per user key, it is a value, and it is the latest version if nothing was skipped |
| GcTheorems.FilteredScan | storage/table/fsm/fsm_gc.go:91-101 | for any cut into blocks the filtered scan is sorted, within the table and has every old key |
| GcRefinement.SweptReclaims | storage/table/fsm/fsm_gc.go:52-80 | what a sweep keeps is what replication needs of a collection step |
| GcRefinement.NumberedNeverWraps | storage/table/fsm/fsm_gc.go:161-169 | no sweep wraps on versions that are numbered by a log |
| GcRefinement.FilteredSweepReclaims | storage/table/fsm/fsm_gc.go:81-191 | blocks, filter, sweep and range deletions together are a collection step of any store whose versions come from a log |
| GcRefinement.SweepIsStep | storage/table/fsm/fsm_gc.go:81-191 | in every state that keeps the invariant of replication, the sweep of the physical table up to the horizon is an enabled step, and the swept table represents the store after it |
| SnapshotScan.NextUserKey | storage/table/fsm/iter.go:14-57 | the iterator lands on the first key of the next user key |
| SnapshotScan.IncrementalSnapshot | storage/table/fsm/query.go:32-107 | the records are the latest versions above the effective base, exactly one per user key, all of them |
| SnapshotScan.FullSnapshot | storage/table/fsm/query.go:132-179 | the records are the latest versions that are values, exactly one per user key, all of them |
| SnapshotScan.RecordsAreDelta | storage/table/fsm/query.go:18-107 | those records are the delta replication asks for |
| SnapshotScan.RecordsAreContents | storage/table/fsm/query.go:132-179 | those records are the visible contents of the table |
| SnapshotScan.IncrementalIsStep | armadaserver/replication.go:142-191 | an incremental scan that the guard admits is an enabled step of replication, and when its records arrive the follower is up to date |
| SnapshotScan.FullIsStep | armadaserver/replication.go:68-141 | a full scan is an enabled step of replication, and when its records arrive the follower is up to date whatever it held |
| Replication.DeltaIsRight | armadaserver/replication.go:142-162 | for every base the guard admits, the delta brings the contents at the base to the present |
| Replication.UnguardedDeltaIsWrong | storage/table/fsm/query.go:37-44 | for every base the guard refuses, a history on which the delta loses a write |
| ReplicationProtocol.StepKeepsInv | armadaserver/replication.go:68-191 | every step of leader, follower and network keeps store, log, follower and answer consistent |
| ReplicationProtocol.ReplayFollowsLog | armadaserver/replication.go:377-432 | replaying entries n to m on the state after n gives the state after m |
| ReplicationProtocol.FollowerHoldsLeaderState | armadaserver/replication.go:68-191 | over every run a follower at index f holds what the leader of its incarnation held after entry f |
| ReplicationProtocol.NeverLeaderBehind | armadaserver/replication.go:347-375 | over every run a follower asking for its next entry is served, sent to a snapshot or told that its table is gone, and never told that the leader is behind |
| LogServer.EntryRoundTrip | armadaserver/replication.go:446-456 | a command marshalled into a log entry comes back with the entry's index |
| LogServer.QueryRaftLog | storage/logreader/logreader.go:29-58 | nothing exactly at the end of the range or right behind the log, behind only beyond the log, ahead only before its first entry, otherwise a non-empty stretch from the requested index |
| LogServer.Translate | armadaserver/replication.go:408-416 | one command per entry, in order, with its index, or the first error |
| LogServer.StreamLog | armadaserver/replication.go:377-432 | consecutive entries from the requested index, no gap, no repeat, through the applied index if the stream ends up to date and a prefix otherwise; the first response is what the log reader makes it; the loop ends |
| LogServer.Replicate | armadaserver/replication.go:329-433 | which request is refused how, when the leader is behind, when a snapshot is needed, and what is streamed otherwise |
| StreamRefinement.StreamReplays | armadaserver/replication.go:377-432 | a follower that replays the part it got of a stream, however short, holds the leader's state after the last entry of that part |
| StreamRefinement.RepliesAgree | armadaserver/replication.go:329-433 | whatever the server answers first (entries, up to date, behind, use a snapshot, or gone) is what the replication protocol says for that leader and incarnation; only a broken stream answers nothing |
| StreamRefinement.StreamIsStep | armadaserver/replication.go:329-433 | a stream to a follower is an enabled step of replication that sends exactly its entries, and the follower replays the part that arrives |
| EntryQueueSpec.Conservation | raft/queue.go:53-102 | over any run, what was pending and accepted is what was taken and what is pending, in order |
| EntryQueueSpec.ConservationFromNew | raft/queue.go:38-102 | from a new queue, the accepted entries are the concatenated results of get and the pending ones |
| EntryQueueSpec.ReturnedSliceIsStable | raft/queue.go:60-102 | what a get returned does not change before the next get |
| EntryQueueSpec.StaysInPhase | raft/queue.go:90-102 | the left buffer is written exactly in odd cycles, through the wrap of the counter |
| EntryQueueSpec.EagerClearing | raft/queue.go:75-88 | with a cycle of one, slots beyond the live entries never hold a command and after a get the write buffer holds none |
| EntryQueueSpec.OddCycleClearsRight | raft/queue.go:75-102 | with an odd cycle n above one the right buffer is wholly cleared within any 2n gets, through the wrap of the counter |
| EntryQueueSpec.OddCycleClearsLeft | raft/queue.go:75-102 | and the left one within 2n gets, or 3n when the counter wraps around among them |
| EntryQueueSpec.LeftClearedIff | raft/queue.go:75-102 | for any run of gets, closes and adds with commands, a left buffer that holds a command is wholly cleared at some point if and only if the run has at least the computed number of gets |
| EntryQueueSpec.LeftWaitBounds | raft/queue.go:75-102 | that number is at most 3n, and at most 2n if and only if an odd multiple of n is left before the wrap or the wrap is at most n away |
| EntryQueueSpec.WrapDelaysLeft | raft/queue.go:90-102 | a cycle and a counter from which it takes 16 gets, so that 2n of them leave a command in the left buffer |
| EntryQueueSpec.EvenCycleSkipsLeft | raft/queue.go:75-102 | with an even cycle no get clears the left buffer |
| EntryQueueSpec.EvenCycleClearsRight | raft/queue.go:75-102 | with an even cycle n the right buffer is wholly cleared within any n gets, through the wrap of the counter |
| EntryQueueClass.EntryQueue.Add | raft/queue.go:60-73 | accepts exactly when not paused, full or stopped, appends to the pending entries, and leaves the buffer of the last get alone |
| EntryQueueClass.EntryQueue.Gc | raft/queue.go:75-88 | drops the commands of as many slots of the write buffer as the cycle says |
| EntryQueueClass.EntryQueue.Get | raft/queue.go:90-102 | hands out the buffer written so far, whose front is the pending entries, and swaps |
| ReadyShards.StepKeepsInv | raft/queue.go:181-198 | setters and the clearing loop never meet in one map, through the wrap of the 8-bit index |
| ReadyShards.ReturnsWhatWasSet | raft/queue.go:181-198 | in every interleaving each swap returns exactly the shards set since the swap before |
| ReadyShards.ReturnsWhatWasSetFromInit | raft/queue.go:173-198 | the same from a new pair of maps on |
| ReadyShards.ReadyShard.SetShardReady | raft/queue.go:181-185 | adds the shard to the map in use |
| ReadyShards.ReadyShard.GetReadyShards | raft/queue.go:187-198 | returns the map in use unchanged and goes on with the other one, emptied |
| DirSwitch.StepKeepsInv | pebble/dir.go:69-168 | every disk operation, failure, kill and power loss keeps the current file whole |
| DirSwitch.CurrentIsNeverTorn | pebble/dir.go:69-104 | over every run, in every directory that may come back, the current file is absent or a synced file with a name that was saved |
| DirSwitch.ReadsASavedName | pebble/dir.go:106-133 | over every run, reading gives a saved name or an error, never the empty name of a failed checksum |
| DirTheorems.SwitchIsAtomic | pebble/dir.go:69-104 | during a switch, with crashes and retries, what may come back names the old or the new database |
| DirTheorems.ReplaceIsDurable | pebble/dir.go:69-77 | once the replacing call has returned only the new name can come back |
| DirTheorems.NamedDirectoryIsKept | storage/table/fsm/snapshot_snapshot.go:112-195 | through any run of switches, cleanups, failures, kills and power losses, every directory that may come back holds the database directory it names, if each switch is to one that is there, as in a recovery |
| DirTheorems.NamedDirectoryIsKeptFromInit | storage/table/fsm/snapshot_snapshot.go:112-195 | the same for every run from an empty disk on |
| DirTheorems.StepKeepsHeldIff | storage/table/fsm/fsm.go:149-195 | a step keeps every named directory if and only if it is not a switch to a directory that is missing |
| DirTheorems.HeldThroughoutIff | storage/table/fsm/fsm.go:149-195 | through any run that saves names other than those of the two files, every directory that may come back holds what it names at all times if and only if each switch is to a directory that is there |
| DirTheorems.HeldThroughoutFromInitIff | storage/table/fsm/fsm.go:149-195 | the same for every run from an empty disk on |
| DirTheorems.KillBeforeCreation | storage/table/fsm/fsm.go:167-194 | the run of a new node that is killed after its first switch leaves, safe on disk, a current file that names a missing directory |
| DirTheorems.MissingIsRead | storage/table/fsm/fsm.go:174-188 | reading then gives that name and the directory is not found |
| DirTheorems.MissingStaysMissing | storage/table/fsm/fsm.go:174-188 | opening the node again, however often and with whatever crashes, leaves it so |
| DirTheorems.NamedDirectoryLasts | storage/table/fsm/fsm.go:149-176 | also when a switch comes before its directory is created: once a directory that may come back holds what it names, all later ones that name the same do |
| DirTheorems.NamedDirectoryLastsFromInit | storage/table/fsm/fsm.go:149-176 | the same for every run from an empty disk on |
| DirTheorems.CleanupKeepsCurrent | pebble/dir.go:143-168 | cleanups, interrupted and repeated in any way, also when the last rename is not on disk, never remove a directory that a directory that may come back names |
| DirTheorems.TornFileLosesEverything | pebble/dir.go:129-131 | on a torn current file a cleanup would keep nothing but that file |
| DataDirs.DataDir.SaveCurrentDBDirName | pebble/dir.go:79-104 | success leaves the whole name synced under the temporary name; any operation may fail |
| DataDirs.DataDir.ReplaceCurrentDBFile | pebble/dir.go:69-77 | success makes the saved name the only one that can come back |
| DataDirs.DataDir.CleanupNodeDataDir | pebble/dir.go:143-168 | success leaves the current file, the directory it names if there is one, and nothing else |

## Left out

- CompactionCoordinator.Coordinator.TryGrant: the method covers a pass that no other thread disturbs; disturbed passes are in the protocol, whose offers OfferGoesToTheBest describes.
- Timers and pokes of the background granter: a pass may start at any time.
- Compaction scores are reals; NaN is not modelled.
- protohelpers is a library that is not part of this model's source; EncodeVarint, SizeOfVarint and Skip have their standard definitions.
- Unmarshal.LoadPayload: lengths of 2^63 and more are invalid; for lengths just below, which no slice can have, the code may report an invalid length where the model reports the end of the input.
- UnmarshalVTUnsafe differs from UnmarshalVT in sharing the input's memory; on values it is the same decoder, and sharing is not modelled.
- Pool.DecodeStaysTidy: messages are values, so pointers shared between pooled objects are not modelled; a varint that fails half-way leaves the old number in the model and part of the new one in the code, which ResetVT clears in both.
- Pool.RecycledIsExactIff: an input that shows a kept RangeEnd counts only if it fits a slice, which ends below 2^63 bytes.
- Pool.RecycledDecodesLikeNew: histories of UnmarshalVT and ReturnToVTPool; callers that fill slots by hand are not modelled.
- The other generated messages repeat the pattern of the ones modelled.
- GcSweep.RunGC: every key of the table decodes; batching, throttling and the iterator's bounds do not change what is deleted.
- Pebble's own block format and iterators; the collector and filter of its block intervals have their documented meaning.
- Replication.Write: a command is any function from contents to writes; the commands' own semantics is not modelled.
- ReplicationProtocol.FollowerHoldsLeaderState: the horizon is read without error and does not pass the base between guard and snapshot, and a snapshot arrives whole or not at all.
- LogServer.StreamLog: coverage through the applied index needs a log reader that reaches the applied index.
- LogServer.EntryRoundTrip: an encoded entry has its header byte.
- SnapshotServer.Query, gRPC, REST, TLS, metrics and logging.
- readIndexQueue is the entry queue without clearing, and leaderInfoQueue is a plain list.
- DirSwitch.CurrentIsNeverTorn: directory changes reach the disk in order; a file system that reorders them is not modelled.
- DirTheorems.NamedDirectoryIsKept: a switch to a directory that is not there yet is in HeldThroughoutIff and NamedDirectoryLasts.
- MD5 is any function, cut or filled to eight bytes; names are random and not generated here.
