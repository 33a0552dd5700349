# A verified model of the real-time media core

This project models the state-keeping and codec cores of an nginx module that takes in live video
and serves it to browsers over WebRTC. Every part is written twice. A specification on values says
what an operation means; a class or a method in the form of the code (fields changed step by step,
arrays, cursors, loops) is proved to do exactly that. The theorems are about the specification, so
they are about every run of the code that was proved to follow it.

`dafny verify dfyconfig.toml` checks everything.

## What is proved

**The registry shared by all workers** (`RegistrySpec`, `RegistryInvariant`, `RegistryRuns`,
`RegistryLaws`, `Registry`). Sources and session skeletons live in shared memory; every operation is one step under
the pool mutex, taken by any worker. Slab memory is a map from addresses to records, so pointers
can dangle and addresses can be reused. In every reachable state each skeleton's source is live,
each subscriber list holds exactly the ready viewers once each, and no source is stranded. Over
runs: a referenced source is never freed, a skeleton has one owner, a source one publisher, equal
versions of one source object mean equal viewers, and an abandoned source is gone after two sweeps. Three claims fail on
some paths, and there a failing case is given and the exact condition proved:

- adding a skeleton on a full slab can leave it pointing at a source the forced sweep has just freed
  (`PressureCanDangle`, `SessionAddKeepsInvExactly`);
- the counter of foreign viewers goes wrong when the publisher's slot moves, unless both slots own
  as many viewers; a counter that is too high then stays so, and one that is too low recovers at the
  first moment without foreign viewers (`MoveCanDrift`, `MoveKeepsRemoteExactly`, `RemoteAfterMove`);
- a worker's cached snapshot is compared by version alone, and goes stale on three paths: the
  versions of a source removed and created again start over (`SnapshotCache.RecreationGoesStale`), a
  refresh without a claim takes new viewers and keeps the old version (`UnclaimedTakeGoesStale`), and
  the version is read after the lock under which the viewers were taken is released
  (`LateVersionGoesStale`).

**The cached snapshot** (`SnapshotCache`, `ViewerRuns`, `CacheRuns`). The cache is followed over runs
in which any registry step may fall between any two steps of a refresh. On every run it is fresh
exactly when, since its viewers were taken, nobody came who is seen and nobody left who was seen
(`FreshExactly`). For a refresh that finds the version it knows, `KeptExactly` says what that comes
to: nothing but emptiness for a version never read; for a version read from this very record,
that the viewers were taken later or did not change before it was read; for another record's, that
they have not changed since. Refreshed only under a claim and in one step, a cache that is kept is
stale exactly when it was filled from another record of the name and one of the two moments has
someone to show (`PlainKeptExactly`).

**Fan-out** (`BroadcastSpec`, `BroadcastLaws`, `Broadcast`). A fresh snapshot lists each ready viewer of the source
once, up to 256 of them. A packet reaches every cached viewer exactly when this worker still knows
its own and every other worker that owns some owns at most 64, as many as a ring entry names, and
has a ring with room. The sixty-fifth viewer of one other worker is always missed.

**The jitter buffer** (`JitterSpec`, `JitterLaws`, `Jitter`). Sequences are unwrapped integers in the
specification and 16-bit numbers in 128 slots in the class. Before the deadline of a gap nothing
behind it comes out; at the deadline the gap is given up.

**Session descriptions** (`SdpText`, `SdpSpec`, `SdpAnswer`, `SdpRoundTrip`, `SdpSections`, `SdpEcho`,
`SdpPeer`, `SdpLaws`, `Sdp`, `SdpWriter`). The parser accepts what the writer prints and recovers
what it announces; a reader of its own, defined apart from writer and parser, recovers the rest: direction,
candidate, multiplexing and feedback.

**Sending** (`PacerSpec`, `PacerLaws`, `Pacer`, `SendSpec`, `SendLaws`, `NackSpec`, `NackLaws`,
`Session`, `NackPathSpec`, `NackPath`, `GopRing`). The token bucket, the send path with its six
outcomes, retransmission under a budget, and the ring of recent packets. A waiting session holds
back inner video and nothing else, and flows again from the next keyframe start on; what is sent
again is what was asked for and is still retained.

**Queues** (`VRing`, `AudioWorkerSpec`, `AudioWorker`, `FixedRingSpec`, `FixedRing`). Byte strings
in a wrapping arena are a FIFO queue, also between the two threads of the audio worker.

**The state machine engine and the session table** (`HsmSpec`, `HsmLaws`, `Hsm`, `SessionFsmSpec`,
`SessionFsmLaws`, `SessionFsm`).

**Wire formats and clocks** (`RtpSpec`, `RtpLaws`, `Rtp`, `TwccSpec`, `TwccLaws`, `Twcc`,
`RtcpSpec`, `RtcpRoundTrip`, `RtcpLaws`, `Rtcp`, `StunSpec`, `StunPeer`, `Stun`, `Wire`,
`AvSyncSpec`, `AvSync`).

The modules named `Laws` and `Peer` say what operations do in terms of fields, milliseconds, counts
and octets, or through a reader of their own. Their statements avoid the gates, tables and writers
of the specification they speak about, so that a slip made in a specification and in the code that
follows it shows there.

`Octets`, `Options`, `Results`, `Lists`, `Bytes`, `CText`, `Slots` and `Arith` are shared helpers.

## How the code is read

- A call under a lock is one step. What the code cannot decide (the cipher, the socket, the
  allocator, the transcoder, the clock, the keyed hash, the checksum) is a parameter of the step.
- 16- and 32-bit wrap-around is written out (`Low16`, `Low32`); so is the 64-bit wrap of the clock
  map, of the retransmission window's elapsed time and of the gap between two refused sends
  (`Low64`). The pacer branches on a clock that steps back instead of subtracting. Bit masks and
  shifts of plain fields are written as remainders and quotients.
- Texts in fixed buffers are what a C reader sees: they end at the first NUL.
- Bodies marked `ghost` and ghost parameters only carry what the proof needs: unwrapped numbers,
  logs of what was sent, the part of the answer still to be written.

Where documents and code disagree the model follows the code. The comment in
`ngx_rtc_sdp_parse_extmap` says a direction after the id is tolerated; the code takes it for the
URI. In a section that does not hold this id and URI already, an extmap is recorded with its URI
exactly when nothing stands between id and URI or what stands there is the URI itself
(`SdpRoundTrip.ExtmapReadsExactly`, `SdpRoundTrip.DirectionHidesTheUri`). The prose of the transport-wide feedback draft calls the
one-bit symbol 0 "received"; the code, like the draft's own example, reads it as "not received", and
so does `TwccSpec`.

## Model

| member | source | states |
|---|---|---|
| `RegistryInvariant.ReachableIsSafe` | src/ngx_rtc_shm.c:117-1003 | in every state reached from an empty zone by any interleaving: every skeleton's source is live, each subscriber list is exactly the ready non-publishing skeletons of that source without repetition, publishing means no deadline, a publisher kind stands exactly for publishing, an idle source has a deadline |
| `RegistryInvariant.RunKeepsInv` | src/ngx_rtc_shm.c:39-1003 | the registry invariant holds in every state a run reaches from a good one |
| `RegistryInvariant.StepKeepsInv` | src/ngx_rtc_shm.c:39-1003 | every operation keeps the invariant |
| `RegistryInvariant.SessionAddKeepsInvExactly` | src/ngx_rtc_shm.c:198-261 | adding a skeleton keeps the invariant if and only if no forced sweep was needed or the sweep spares the source looked up before it |
| `RegistryInvariant.PressureSparesExactly` | src/ngx_rtc_shm.c:902-991 | a forced sweep leaves a source live if and only if it has a live publisher, viewers, or a skeleton that outlives the sweep |
| `RegistryInvariant.PressureCanDangle` | src/ngx_rtc_shm.c:217-239 | on a full slab a fresh source can be swept away under the skeleton being added |
| `RegistryInvariant.ExpireKeepsInv` | src/ngx_rtc_shm.c:902-991 | a sweep, forced or not, keeps the invariant |
| `RegistryRuns.ReferencedIsNeverFreed` | src/ngx_rtc_shm.c:118-170 | as long as a skeleton lives, the source it was created with is the very record it points at |
| `RegistryRuns.OneOwner` | src/ngx_rtc_shm.c:335-389 | over a run, no two slots both succeed in binding one skeleton |
| `RegistryRuns.OneActivator` | src/ngx_rtc_shm.c:393-440 | over a run, no two slots both succeed in activating one skeleton |
| `RegistryLaws.OnePublisher` | src/ngx_rtc_shm.c:627-662 | after a successful claim, over every run in which it is not released and no sweep finds the publisher silent, a claim is answered ok if and only if it is of the same kind; any other is busy and changes nothing |
| `RegistryLaws.ClaimAnswers` | src/ngx_rtc_shm.c:627-662 | a source published under another kind answers busy and is left alone; any other is published under this kind, without a deadline and just heard |
| `RegistryLaws.ReleaseAnswers` | src/ngx_rtc_shm.c:666-693 | only the publishing kind releases a source, and then every kind may claim it |
| `RegistryLaws.SweepTakesSilentClaims` | src/ngx_rtc_shm.c:941-957 | a sweep takes the claim of a publisher that has been silent for ten seconds, and only that |
| `RegistryLaws.BeatKeepsClaim` | src/ngx_rtc_shm.c:934-950 | for ten seconds after a publisher was heard no sweep, forced or not, takes its claim |
| `RegistryLaws.GetIsFound` | src/ngx_rtc_shm.c:61-114 | a name that could be allocated is found afterwards; a record already there is kept, a new one is bare and has ten seconds to live |
| `RegistryLaws.AddIsFound` | src/ngx_rtc_shm.c:198-261 | an added skeleton is the one its ufrag finds: unbound, for its source, with thirty seconds to live |
| `RegistryLaws.BindAnswers` | src/ngx_rtc_shm.c:335-389 | an unbound skeleton is bound to the slot that asks, a bound one answers its owner only |
| `RegistryLaws.ActivateShows` | src/ngx_rtc_shm.c:393-440 | an activated viewer is ready, has no deadline, and comes first in the snapshot of its source |
| `RegistryLaws.ActivateDeclines` | src/ngx_rtc_shm.c:393-440 | a slot that does not own the skeleton is declined and changes nothing |
| `RegistryLaws.RemovalAnswers` | src/ngx_rtc_shm.c:444-473 | a skeleton is removed if and only if it is unbound or the slot that asks owns it |
| `RegistryLaws.SourceRemovalAnswers` | src/ngx_rtc_shm.c:118-170 | a source leaves if and only if it has no viewer, no publisher and no skeleton |
| `RegistryLaws.SkeletonOutlives` | src/ngx_rtc_shm.c:913-926 | a skeleton outlives a sweep if and only if it is bound, has no deadline, or is not due in an unforced one |
| `RegistryLaws.SourceOutlives` | src/ngx_rtc_shm.c:928-990 | a source outlives an unforced sweep if and only if it is published, viewed, pointed at by a skeleton that stays, or not due |
| `RegistryRuns.EqualVersionsEqualViewers` | src/ngx_rtc_shm.c:1008-1046 | on one source object equal versions at two moments mean the same subscriber list and the same snapshot |
| `SnapshotCache.RefreshIsFresh` | src/ngx_rtmp_rtc_bridge_module.c:1162-1175 | one refresh of a cache that is cold, or was filled from one moment under a claim, gives a fresh snapshot as long as the name still stands for the same source record |
| `SnapshotCache.RefreshIsFreshExactly` | src/ngx_rtmp_rtc_bridge_module.c:1162-1175 | for a cache filled from one moment under a claim: across removal and re-creation of the name, the refreshed cache equals a fresh snapshot if and only if the source is still the same record, or its version differs from the cached one, or neither moment shows a viewer |
| `SnapshotCache.RecreationGoesStale` | src/ngx_rtmp_rtc_bridge_module.c:1162-1175 | a run after which the refreshed cache names a viewer that left and misses the one that is there |
| `SnapshotCache.ColdRefreshIsFresh` | src/ngx_rtmp_rtc_bridge_module.c:1162-1175 | a cache never filled is refreshed to a fresh snapshot |
| `ViewerRuns.StepKeepsSince` | src/ngx_rtc_shm.c:39-1046 | over any step the viewers of a name are those of an earlier moment without some, behind newcomers that were not among them |
| `ViewerRuns.ShownSameExactly` | src/ngx_rtc_shm.c:1008-1046 | the snapshots of two moments of a run are equal if and only if nobody is seen now who was not a viewer then, and nobody shown then has left |
| `CacheRuns.RunKeepsHistory` | src/ngx_rtmp_rtc_bridge_module.c:1162-1175 | over every run the cached viewers are the snapshot of the last take and the cached version is that of the record last read, in the order the two happened |
| `CacheRuns.FreshExactly` | src/ngx_rtmp_rtc_bridge_module.c:1162-1175 | from a cold cache, over every interleaving of registry steps and refresh steps with or without a claim, the cache equals a fresh snapshot if and only if since the last take nobody came who is seen and nobody shown has left |
| `CacheRuns.KeptExactly` | src/ngx_rtmp_rtc_bridge_module.c:1162-1175 | when a claimed refresh finds its version unmoved, the cache is fresh if and only if: it is empty, for a version never read; it was taken after the version was read or did not change in between, for a version of this record; it did not change since, for a version of another record |
| `CacheRuns.NewRecordKeptExactly` | src/ngx_rtmp_rtc_bridge_module.c:1162-1175 | for a record created after the take, the cache is fresh if and only if neither moment has anyone to show |
| `CacheRuns.UndisturbedFillIsFresh` | src/ngx_rtmp_rtc_bridge_module.c:1162-1175 | if the version did not move between the take and the second read, the cache is fresh as long as the version stays |
| `CacheRuns.PlainRunFills` | src/ngx_rtmp_rtc_bridge_module.c:1162-1175 | refreshed only under a claim and in one step, a cache that left the cold state has both halves from one moment and the record claimed then |
| `CacheRuns.PlainKeptExactly` | src/ngx_rtmp_rtc_bridge_module.c:1162-1175 | over such runs a kept cache is fresh if and only if it was never filled, or the claimed record is the one it was filled from, or neither moment has anyone to show |
| `CacheRuns.RefreshIsItsActs` | src/ngx_rtmp_rtc_bridge_module.c:1162-1175 | look, take and note in a row are the refresh in one step |
| `CacheRuns.LateVersionGoesStale` | src/ngx_rtmp_rtc_bridge_module.c:1168-1173 | a run in which the only viewer leaves between the take and the second read: the cache names it from then on |
| `CacheRuns.UnclaimedTakeGoesStale` | src/ngx_rtc_shm.c:746-757 | a run in which an empty list taken without a claim keeps an old version and is kept when the new record reaches that version |
| `RegistryRuns.RemoteExactWhileSlotFixed` | src/ngx_rtc_shm.c:411-435 | over every run in which the publisher's slot stays put an exact counter of foreign viewers stays exact |
| `RegistryRuns.ExactAfterRun` | src/ngx_rtc_shm.c:294-435 | over such a run the counter ends exact if and only if it began exact, or began too low and at some moment there was no foreign viewer |
| `RegistryRuns.MoveKeepsRemoteExactly` | src/ngx_rtc_shm.c:627-662 | a move of the slot keeps an exact counter exact if and only if the new slot owns as many of the viewers as the old one |
| `RegistryRuns.RemoteAfterMove` | src/ngx_rtc_shm.c:294-662 | a run with one move ends with an exact counter if and only if at the move both slots owned as many viewers, or the new one owned fewer and afterwards there was a moment without foreign viewers |
| `RegistryRuns.MoveCanDrift` | src/ngx_rtc_shm.c:627-662 | a run after which the counter is wrong |
| `RegistryRuns.FreedByTwoSweeps` | src/ngx_rtc_shm.c:902-991 | an unreferenced viewerless source whose publisher fell silent is freed by two sweeps, whatever happens between them except a new claim or a new skeleton for the name |
| `Registry.Registry.constructor` | src/ngx_rtc_core_module.c:293-304 | the empty zone satisfies the invariant |
| `Registry.Registry.LookupSource` | src/ngx_rtc_shm.c:39-57 | finds the source of a name through the index |
| `Registry.Registry.LookupSession` | src/ngx_rtc_shm.c:265-286 | finds the first skeleton with a ufrag |
| `Registry.Registry.IsReferenced` | src/ngx_rtc_shm.c:882-898 | true exactly when some skeleton points at the source |
| `Registry.Registry.FreeSessionLocked` | src/ngx_rtc_shm.c:294-331 | the new registry state after a skeleton is freed |
| `Registry.Registry.ReapSessions` | src/ngx_rtc_shm.c:913-926 | the sweep over the skeletons |
| `Registry.Registry.ReapSource` | src/ngx_rtc_shm.c:928-990 | what a sweep does to one source |
| `Registry.Registry.ReapSources` | src/ngx_rtc_shm.c:928-990 | the sweep over the sources |
| `Registry.Registry.ExpireLocked` | src/ngx_rtc_shm.c:902-991 | the whole sweep |
| `Registry.Registry.GetSource` | src/ngx_rtc_shm.c:61-114 | find or create, with the reap-and-retry allocation |
| `Registry.Registry.RemoveSource` | src/ngx_rtc_shm.c:118-170 | removal, refused while referenced or subscribed |
| `Registry.Registry.TryPublishSource` | src/ngx_rtc_shm.c:627-662 | busy, without a change, exactly when the source is published under another kind; otherwise the record after the claim |
| `Registry.Registry.ReleasePublishSource` | src/ngx_rtc_shm.c:666-693 | the release, with the deadline it leaves |
| `Registry.Registry.AddSession` | src/ngx_rtc_shm.c:198-261 | the new registry state after a skeleton is added, or the error |
| `Registry.Registry.BindSession` | src/ngx_rtc_shm.c:335-389 | binding an unowned skeleton to a slot |
| `Registry.Registry.ActivateSession` | src/ngx_rtc_shm.c:393-440 | activation, subscription and the version and counter it moves |
| `Registry.Registry.RemoveSessionIfOwner` | src/ngx_rtc_shm.c:444-473 | only the owner removes |
| `Registry.Registry.SourceSnapshot` | src/ngx_rtc_shm.c:1008-1046 | the ready, owned viewers in list order, up to the limit |
| `BroadcastSpec.EveryViewerIsServed` | src/ngx_rtmp_rtc_bridge_module.c:1180-1227 | the ids a packet reaches are, as a multiset, those of the cached viewers if and only if this worker knows its own viewers and every other owner of some owns at most 64 and has a ring that takes the packet |
| `BroadcastSpec.ViewerIsReached` | src/ngx_rtmp_rtc_bridge_module.c:1180-1227 | one cached viewer is reached if and only if it is this worker's and known, or its worker's ring takes the packet and fewer than 64 viewers before it on the list are owned there |
| `BroadcastSpec.SixtyFifthIsMissed` | src/ngx_rtmp_rtc_bridge_module.c:1194-1227 | of 65 viewers of one other worker the last is never reached |
| `BroadcastSpec.OnlyViewersAreServed` | src/ngx_rtmp_rtc_bridge_module.c:1180-1227 | a packet goes only to cached viewers |
| `BroadcastSpec.OwnersPartition` | src/ngx_rtmp_rtc_bridge_module.c:1180-1227 | grouped by owning worker, the viewers are the same multiset |
| `BroadcastSpec.SnapshotIsExact` | src/ngx_rtc_shm.c:1008-1046 | in every good registry state the snapshot of a source of at most 256 viewers names existing workers, no id twice, and exactly the ready viewers owned by such workers |
| `BroadcastLaws.RingGrowsExactly` | src/ngx_rtmp_rtc_bridge_module.c:1194-1227 | the ring of another worker grows by one entry, naming exactly the ids said to be reached there and at most 64, if and only if that worker owns a viewer, the packet has 1 to 1500 octets and the ring has a free place; every other ring stays |
| `BroadcastLaws.WokenExactly` | src/ngx_rtmp_rtc_bridge_module.c:1210-1225 | exactly the workers whose ring grew and whose descriptor is open are woken, once each |
| `BroadcastLaws.DropsExactly` | src/ngx_rtmp_rtc_bridge_module.c:1210-1225 | the drop counter moves by the number of workers that own a viewer and have a ring without room |
| `Broadcast.Broadcaster.RefreshSnapshot` | src/ngx_rtmp_rtc_bridge_module.c:1162-1175 | the cache is taken anew when no claim is held or the version moved, and is left alone otherwise |
| `Broadcast.Broadcaster.SendDirect` | src/ngx_rtmp_rtc_bridge_module.c:1180-1192 | the viewers of this worker whose session it still knows, in list order |
| `Broadcast.Broadcaster.CollectBatch` | src/ngx_rtmp_rtc_bridge_module.c:1199-1205 | the ids one ring entry names |
| `Broadcast.Broadcaster.FanOut` | src/ngx_rtmp_rtc_bridge_module.c:1180-1227 | direct sends, every ring after its offer, the workers woken and the count of refused entries |
| `Broadcast.Broadcaster.OfferTo` | src/ngx_rtmp_rtc_bridge_module.c:1194-1227 | one worker's ring, wake-up and drop count after its offer |
| `Broadcast.Broadcaster.BroadcastRtp` | src/ngx_rtmp_rtc_bridge_module.c:1138-1228 | an oversized packet changes nothing; otherwise the cache is refreshed and the packet fanned out |
| `JitterSpec.CalmRunIsExact` | src/ngx_rtc_jitter.c:67-140 | a run in which every arrival comes less than the deadline after the oldest open gap was seen, and none re-anchors, emits exactly the longest gap-free run of received numbers from the anchor, in order, once each, across every wrap, and holds the rest |
| `JitterSpec.RunRises` | src/ngx_rtc_jitter.c:27-140 | in every run, from a fresh buffer or any later state, timeouts included, the emitted unwrapped numbers strictly increase and nothing emitted is taken back |
| `JitterSpec.FreshRunRises` | src/ngx_rtc_jitter.c:27-140 | the whole output of a fresh buffer strictly increases |
| `JitterSpec.RunKeepsWindow` | src/ngx_rtc_jitter.c:27-140 | at rest every held number is 1 to 127 ahead of the expected one, which is not held |
| `JitterSpec.RunConserves` | src/ngx_rtc_jitter.c:27-140 | over every run what was accepted is emitted, still held, or lost by name: stale, overwritten by its duplicate, or discarded by a re-anchor |
| `JitterSpec.PushConserves` | src/ngx_rtc_jitter.c:67-140 | the same for one packet |
| `JitterSpec.DeadlineClosesGap` | src/ngx_rtc_jitter.c:67-140 | an arrival that comes the configured milliseconds, or 50 if none, after the gap was seen emits the first packet behind the oldest gap |
| `JitterLaws.AheadInTimeIsHeld` | src/ngx_rtc_jitter.c:67-140 | a packet 1 to 127 ahead, less than the deadline after the gap was seen, is held; nothing is emitted or given up |
| `JitterLaws.AheadOverdueSkips` | src/ngx_rtc_jitter.c:67-140 | at the deadline or later it is held, the numbers before the smallest held one are given up and counted, and exactly the run that starts there is emitted |
| `JitterLaws.NextInTime` | src/ngx_rtc_jitter.c:67-140 | the expected number is emitted with exactly the run behind it as long as nobody has waited for the deadline |
| `JitterLaws.NextOverdue` | src/ngx_rtc_jitter.c:67-140 | otherwise the next gap is given up too |
| `JitterLaws.FarAheadStartsOver` | src/ngx_rtc_jitter.c:67-140 | 128 to 32767 ahead: what is held is dropped and the buffer starts over at the packet |
| `JitterLaws.BehindIsDropped` | src/ngx_rtc_jitter.c:67-140 | 32768 or more ahead, which is behind: one counter moves and nothing else |
| `JitterLaws.FirstAnchors` | src/ngx_rtc_jitter.c:67-140 | the first acceptable packet anchors the buffer and is emitted at once |
| `JitterLaws.GapTimeIsOldest` | src/ngx_rtc_jitter.c:27-140 | over every run the time of the gap is that of the arrival since which packets wait, and it is cleared when none does |
| `JitterLaws.WaitingBegins` | src/ngx_rtc_jitter.c:67-140 | that arrival is the first packet held behind the gap |
| `JitterSpec.PushRises` | src/ngx_rtc_jitter.c:67-140 | one packet keeps the emitted numbers rising |
| `JitterSpec.PushKeepsWindow` | src/ngx_rtc_jitter.c:67-140 | one packet keeps the window |
| `JitterSpec.SkipKeepsWindow` | src/ngx_rtc_jitter.c:56-64 | skipping gives up at least one number and keeps the window |
| `Jitter.Jitter.Drain` | src/ngx_rtc_jitter.c:28-52 | terminates and emits the run of held numbers from the expected one |
| `Jitter.Jitter.SkipGap` | src/ngx_rtc_jitter.c:56-64 | terminates and advances to the first held number |
| `Jitter.Jitter.Push` | src/ngx_rtc_jitter.c:67-140 | slots, counters and deadline after one packet are those of the specification |
| `Jitter.Jitter.Reset` | src/ngx_rtc_jitter.c:143-154 | empties the buffer and keeps the configured deadline |
| `SdpEcho.AnswerReadsBack` | src/ngx_rtc_sdp.c:994-1131 | for every answer whose strings a reader can hold, parsing its text succeeds and recovers credentials, fingerprint, role, section order, kinds and mids, and per track the payload type, SSRC, encoding, clock rate, channels, format parameters and header extension |
| `SdpEcho.AnswerReadsAsLines` | src/ngx_rtc_sdp.c:994-1131 | the lines of an answer lead the parser to the announced session and sections |
| `SdpSections.SectionReads` | src/ngx_rtc_sdp.c:858-992 | a written section is read as exactly what its slot announces |
| `SdpSections.CredentialsRead` | src/ngx_rtc_sdp.c:1068-1094 | the session lines are read as the credentials |
| `SdpEcho.TracksOfEcho` | src/ngx_rtc_sdp.c:708-766 | the tracks chosen from the sections are the announced ones, whatever the order and number of sections |
| `SdpPeer.PeerReadsAnswer` | src/ngx_rtc_sdp.c:994-1131 | a reader that splits lines at blanks and the first colon takes from the text of a readable answer exactly the bundled mids, ice-lite, and per section the words of its media line, the direction (sendonly if and only if the value is positive, recvonly if and only if negative), candidate address and port, multiplexing, reduced size and the feedback entries |
| `SdpPeer.SectionIsTold` | src/ngx_rtc_sdp.c:858-992 | the same for the lines of one section in any context |
| `SdpRoundTrip.WrittenLinesAreRead` | src/ngx_rtc_sdp.c:768-816 | splitting a text of written lines gives the lines back |
| `SdpRoundTrip.LineEndsDoNotMatter` | src/ngx_rtc_sdp.c:768-816 | a description means the same with LF as with CR LF |
| `SdpRoundTrip.RtpmapReads` | src/ngx_rtc_sdp.c:300-389 | a printed rtpmap reads back as its encoding, clock and channels |
| `SdpRoundTrip.FmtpReads` | src/ngx_rtc_sdp.c:416-448 | printed format parameters read back |
| `SdpRoundTrip.SsrcReads` | src/ngx_rtc_sdp.c:392-413 | a printed SSRC reads back whatever follows it |
| `SdpRoundTrip.ExtmapReads` | src/ngx_rtc_sdp.c:454-510 | a printed id 1 to 14 with a transport-wide-cc URI is recorded |
| `SdpRoundTrip.ExtmapReadsExactly` | src/ngx_rtc_sdp.c:454-510 | an id 1 to 14 with a URI that fits and names the extension, written with or without a blank-free attribute starting with a slash between them, is recorded with that URI if and only if there is no attribute or the attribute is the URI |
| `SdpRoundTrip.AttributeIsTakenForUri` | src/ngx_rtc_sdp.c:454-510 | the attribute is what is searched and stored, whatever follows it |
| `SdpRoundTrip.DirectionHidesTheUri` | src/ngx_rtc_sdp.c:454-510 | an offer of the extension for one direction is passed over |
| `SdpRoundTrip.MediaLineReads` | src/ngx_rtc_sdp.c:601-676 | a printed media line opens a section with its payload type |
| `SdpRoundTrip.RejectedLineReads` | src/ngx_rtc_sdp.c:601-676 | a rejected section opens one without payload types |
| `SdpSpec.OfferFits` | src/ngx_rtc_sdp.c:768-816 | whatever the text, every field of an accepted offer fits its buffer and its range, and a chosen payload type names the right codec |
| `SdpSpec.ParseStaysInBounds` | src/ngx_rtc_sdp.c:768-816 | no parse outgrows the parser's fixed buffers |
| `SdpLaws.ReadingGoesOn` | src/ngx_rtc_sdp.c:768-816 | from any point of a text on, credentials that are known stay as they are, and so do the sections behind which another one began |
| `SdpLaws.TypesRead` | src/ngx_rtc_sdp.c:601-676 | a media line lists its payload types in order, up to 32 of them; with more the description is refused |
| `SdpText.ParseOfDec` | src/ngx_rtc_sdp.c:111-142 | a printed 32-bit number reads back, whatever non-digit follows |
| `SdpText.TokenAt` | src/ngx_rtc_sdp.c:154-174 | a printed token is the next token |
| `SdpText.ScanOver` | src/ngx_rtc_sdp.c:154-174 | a scanning loop stops right behind what it may pass |
| `Sdp.ReadU32` | src/ngx_rtc_sdp.c:111-142 | the number the leading digits stand for; an error exactly when there is none or it exceeds 32 bits |
| `Sdp.ReadToken` | src/ngx_rtc_sdp.c:154-174 | the next token and where it ends |
| `Sdp.LookUpPt` | src/ngx_rtc_sdp.c:242-254 | the first entry with the payload type |
| `Sdp.ReadRtpmap` | src/ngx_rtc_sdp.c:300-389 | the section after an rtpmap, or the error |
| `Sdp.ReadSsrc` | src/ngx_rtc_sdp.c:392-413 | the section after an SSRC, or the error |
| `Sdp.ReadFmtp` | src/ngx_rtc_sdp.c:416-448 | the section after format parameters, or the error |
| `Sdp.ReadExtId` | src/ngx_rtc_sdp.c:471-475 | the id accumulated without a check is the number modulo 2^32 |
| `Sdp.NamesTwcc` | src/ngx_rtc_sdp.c:492-499 | true exactly when the extension's name occurs in the URI |
| `Sdp.ReadExtmap` | src/ngx_rtc_sdp.c:454-510 | the section after an extmap |
| `Sdp.ReadPts` | src/ngx_rtc_sdp.c:646-671 | the payload types of a media line up to the first token that is not a number |
| `Sdp.OfferParser.ApplySessionAttr` | src/ngx_rtc_sdp.c:517-536 | the session level wins: only empty fields are filled |
| `Sdp.OfferParser.ApplyFingerprint` | src/ngx_rtc_sdp.c:268-297 | algorithm and hash, taken once |
| `Sdp.OfferParser.ApplyAttribute` | src/ngx_rtc_sdp.c:513-565 | the parser after one attribute, or the error |
| `Sdp.OfferParser.ReadAttr` | src/ngx_rtc_sdp.c:568-598 | name and value are split at the first colon |
| `Sdp.OfferParser.ReadMedia` | src/ngx_rtc_sdp.c:601-676 | the parser after a media line, or the error |
| `Sdp.OfferParser.ReadLine` | src/ngx_rtc_sdp.c:679-705 | the parser after a line |
| `Sdp.OfferParser.ReadText` | src/ngx_rtc_sdp.c:768-813 | the parser after a text |
| `Sdp.Build` | src/ngx_rtc_sdp.c:708-766 | the offer chosen from the parsed sections |
| `Sdp.ReadOffer` | src/ngx_rtc_sdp.c:768-816 | the offer of a text, or the first error |
| `SdpWriter.Writer.Append` | src/ngx_rtc_sdp.c:63-89 | appends the whole text if it and its terminator fit, else marks the writer full |
| `SdpWriter.Writer.WriteMedia` | src/ngx_rtc_sdp.c:858-992 | writes exactly the lines of one section, or the whole answer does not fit |
| `SdpWriter.Writer.WriteSections` | src/ngx_rtc_sdp.c:1096-1127 | one section per slot in the order of the offer |
| `SdpWriter.GenerateAnswer` | src/ngx_rtc_sdp.c:994-1131 | succeeds if and only if the text and its terminator fit the buffer, and then the buffer holds that text |
| `VRing.RunIsFifo` | src/ngx_rtc_ring.c:209-230 | over every run, what was taken followed by what waits is what was accepted |
| `VRing.LengthRoundTrip` | src/ngx_rtc_ring.c:209-230 | the length prefix reads back |
| `VRing.VRing.WriteAt` | src/ngx_rtc_ring.c:132-145 | bytes written around the end of the arena |
| `VRing.VRing.ReadAt` | src/ngx_rtc_ring.c:148-161 | bytes read around the end of the arena |
| `VRing.VRing.Push` | src/ngx_rtc_ring.c:209-230 | appends to the queue exactly when 4 + length fits the free space |
| `VRing.VRing.Pop` | src/ngx_rtc_ring.c:233-258 | returns the oldest entry unchanged, or changes nothing |
| `AudioWorkerSpec.RunKeepsInv` | src/ngx_rtc_audio_worker.c:141-258 | over every interleaving of the two threads both queues are FIFO and every refusal is counted |
| `AudioWorkerSpec.IgnoredPopSucceeds` | src/ngx_rtc_audio_worker.c:214-239 | the pop whose result the thread ignores finds an entry that fits |
| `AudioWorkerSpec.DepthIsKept` | src/ngx_rtc_audio_worker.c:141-161 | with fewer than sixteen entries waiting nothing is refused |
| `AudioWorkerSpec.ThreadTakesAll` | src/ngx_rtc_audio_worker.c:214-239 | unless it is stopped, the thread takes every accepted frame, one in each turn |
| `AudioWorkerSpec.DrainsTakeAll` | src/ngx_rtc_audio_worker.c:164-192 | draining hands over every packet that was produced |
| `AudioWorkerSpec.StopIsFinal` | src/ngx_rtc_audio_worker.c:214-239 | after the stop no frame is taken over any run, and the waiting thread is gone at its next turn |
| `AudioWorker.AudioWorker.Push` | src/ngx_rtc_audio_worker.c:141-161 | one frame accepted, or dropped and counted |
| `AudioWorker.AudioWorker.Take` | src/ngx_rtc_audio_worker.c:220-236 | the thread's locked section |
| `AudioWorker.AudioWorker.Emit` | src/ngx_rtc_audio_worker.c:242-258 | one packet handed over, or dropped and counted |
| `AudioWorker.AudioWorker.DrainOne` | src/ngx_rtc_audio_worker.c:173-188 | one locked section of the drain loop |
| `FixedRingSpec.NextPow2IsLeast` | src/ngx_rtc_ring.c:19-28 | up to 2^31 the least power of two not smaller, above it 0 |
| `FixedRing.Ring.Count` | src/ngx_rtc_ring.c:88-95 | the number of waiting elements, across counter wrap |
| `FixedRing.Ring.Push` | src/ngx_rtc_ring.c:98-111 | appends unless full, across counter wrap |
| `FixedRing.Ring.Pop` | src/ngx_rtc_ring.c:114-127 | takes the oldest element unless empty |
| `PacerSpec.TokenBucketBound` | src/ngx_rtc_core.c:1109-1151 | 8000 times the admitted bytes never exceed 8000 times the initial tokens plus the elapsed time at the larger of the target bound and 97120 |
| `PacerSpec.NoLongStarvation` | src/ngx_rtc_core.c:1109-1151 | no run of refusals of packets up to 1214 bytes lasts 152 ms, whatever caps and feedback come between |
| `PacerSpec.RunKeepsArmed` | src/ngx_rtc_core.c:1154-1180 | the target stays between 64000 and 8000000 and the tokens within the bucket |
| `PacerLaws.FeedbackMovesTheTarget` | src/ngx_rtc_core.c:1205-1297 | a due window that lost 51 packets in a thousand or more lowers the target to 85 per cent, one that lost fewer than 20 raises it to 108 per cent, within 64000 and 8000000, strictly unless it is there already; between the two it stays |
| `PacerLaws.WhenDue` | src/ngx_rtc_core.c:1205-1297 | a due window is emptied and opened anew, and tokens above the new bucket are given up |
| `PacerLaws.WhenNotDue` | src/ngx_rtc_core.c:1205-1297 | a window that is not due only counts, and the first feedback opens it |
| `PacerLaws.CapIsUpperBound` | src/ngx_rtc_core.c:1154-1180 | after an estimate the target is the smaller of the two, within the range |
| `PacerLaws.RefillExactly` | src/ngx_rtc_core.c:1109-1151 | what the bucket holds before a packet is paid, by milliseconds |
| `PacerLaws.LossReachesTheFloor` | src/ngx_rtc_core.c:1205-1297 | heavy loss in every window brings the target to 64000, at the latest after one window for each 9600 above it |
| `PacerLaws.CleanReachesTheCeiling` | src/ngx_rtc_core.c:1205-1297 | windows without loss bring it to 8000000, at the latest after one window for each 5120 below it |
| `Pacer.Pacer.BucketBytes` | src/ngx_rtc_core.c:1070-1087 | the bucket of a target rate |
| `Pacer.Pacer.Init` | src/ngx_rtc_core.c:1090-1106 | the pacer after it is armed |
| `Pacer.Pacer.Admit` | src/ngx_rtc_core.c:1109-1151 | refill and verdict |
| `Pacer.Pacer.Cap` | src/ngx_rtc_core.c:1154-1180 | the pacer after an estimate |
| `Pacer.Pacer.OnTwcc` | src/ngx_rtc_core.c:1205-1297 | the target after a loss report |
| `SendSpec.RunCountsEach` | src/ngx_rtc_core.c:534-773 | over every run each packet past the entry guards is counted in exactly one of six outcomes |
| `SendSpec.SendCountsOnce` | src/ngx_rtc_core.c:534-773 | the same for one packet |
| `SendSpec.RunStamps` | src/ngx_rtc_core.c:653-684 | the k-th delivered datagram with the extension carries transport sequence s0 + k modulo 2^16 |
| `SendSpec.DatagramCarriesSeq` | src/ngx_rtc_core.c:653-684 | the extension written carries the sequence |
| `SendSpec.RunKeepsRecovery` | src/ngx_rtc_core.c:534-773 | once waiting for a keyframe no other video reaches the socket before a keyframe start is sent |
| `SendSpec.FailureArms` | src/ngx_rtc_core.c:699-752 | a video packet lost at the socket makes the session wait for a keyframe |
| `SendSpec.RunBoundsUnits` | src/ngx_rtc_core.c:534-773 | at most 256 delivered packets per opened keyframe unit use the pacer exemption |
| `SendSpec.ExemptionIsCounted` | src/ngx_rtc_core.c:534-773 | every delivery the pacer refused is entered in its unit |
| `SendLaws.KeyframeStartGoesOut` | src/ngx_rtc_core.c:534-773 | an entered keyframe start that is protected and sent is delivered whatever the pacer says, ends the wait, and opens its unit |
| `SendLaws.FlowsUntilArmed` | src/ngx_rtc_core.c:534-773 | after such a start, as long as no attempt arms the wait again, every video packet the pacer lets go is offered to the socket |
| `SendLaws.HeldBackExactly` | src/ngx_rtc_core.c:590-595 | a packet is held back if and only if it is entered video inside a group while the session waits; then one counter moves and nothing else |
| `SendLaws.PacedOutExactly` | src/ngx_rtc_core.c:534-773 | the pacer drops a packet if and only if it refuses it and no keyframe exempts it |
| `SendLaws.OfferedExactly` | src/ngx_rtc_core.c:619-773 | every other entered packet is offered to the socket once it is protected, and armed is what the outcome says |
| `SendLaws.OutsidersChangeNothing` | src/ngx_rtc_core.c:534-560 | a packet that does not enter changes nothing |
| `SendLaws.OutcomesAreCounted` | src/ngx_rtc_core.c:653-773 | which counter each outcome moves |
| `SendLaws.WaitMovesExactly` | src/ngx_rtc_core.c:699-765 | the wait begins with a hard failure of video or a long enough row of refusals, ends with a keyframe start that was fully sent, and is moved by nothing else |
| `SendLaws.RowMovesExactly` | src/ngx_rtc_core.c:715-765 | the row of refusals grows with refused video, starts over after a second or when it armed the wait, and ends with video that is sent |
| `SendLaws.KeyframeGoesOn` | src/ngx_rtc_core.c:534-773 | the packets behind a keyframe start pass the pacer and are counted up to 256, and the marker closes the unit |
| `SendLaws.DatagramKeepsTheRest` | src/ngx_rtc_core.c:619-684 | the payload type is written over the packet's; marker, numbers and payload stay |
| `NackSpec.RunKeepsBounds` | src/ngx_rtc_core.c:943-1033 | over every run of feedback: at most 128 attempts per window, the answered set within the attempts, nothing delivered twice in a window, the width between base and ceiling |
| `NackLaws.AskedIsSent` | src/ngx_rtc_stream_module.c:1002-1026 | a retained packet that is asked for within the budget and that the send path lets through is sent again in this window |
| `NackLaws.NextIsAnswered` | src/ngx_rtc_stream_module.c:1002-1026 | each requested number costs one attempt while fewer than 128 are charged, and its packet goes through the send path if and only if it is cached and was not answered in this window |
| `NackLaws.WindowMovesExactly` | src/ngx_rtc_core.c:969-1001 | a window whose width has passed opens empty, twice as wide up to the ceiling after a spent budget, as wide as the base after a quiet one |
| `NackLaws.ChargedExactly` | src/ngx_rtc_stream_module.c:1002-1026 | the attempts charged by a request: one for each number up to 128, from zero in a new window |
| `NackPathSpec.SmallRequestsAreHandled` | src/ngx_rtc_stream_module.c:1002-1026 | up to thirty entries are always handled; a request for more than 512 sequences, or about another stream, is passed over as a whole |
| `NackPathSpec.OnlyRetainedIsResent` | src/ngx_rtc_core.c:900-933 | answered from the ring, every number sent anew was asked for in the request and is the number of a retained packet, whose octets are sent |
| `NackPathSpec.ConsecutiveCacheIsExact` | src/ngx_rtc_core.c:900-933 | over consecutive packets the numbers that can be sent again are exactly the retained ones |
| `NackPathSpec.PacketKeepsBounds` | src/ngx_rtc_stream_module.c:1002-1026 | the window's bounds hold whatever packet arrives |
| `NackPath.OnNackPacket` | src/ngx_rtc_stream_module.c:1002-1026 | filter, expansion and answers of one packet |
| `Session.Session.SendRtp` | src/ngx_rtc_core.c:534-773 | session, counters and datagram after one packet |
| `Session.Session.Admit` | src/ngx_rtc_core.c:534-617 | the gates before the cipher |
| `Session.Session.Build` | src/ngx_rtc_core.c:619-684 | the datagram and the sequence it takes |
| `Session.Session.Transmit` | src/ngx_rtc_core.c:619-773 | from the stamp to the socket |
| `Session.Session.NackWindowStep` | src/ngx_rtc_core.c:969-1001 | the window and its width |
| `Session.Session.NackReset` | src/ngx_rtc_core.c:943-950 | empties the answered set |
| `Session.Session.NackBudgetTake` | src/ngx_rtc_core.c:953-966 | charges one attempt while any is left |
| `Session.Session.RetransmitSend` | src/ngx_rtc_core.c:1004-1033 | sends unless answered in this window, and records what went out |
| `Session.Session.OnNack` | src/ngx_rtc_stream_module.c:1002-1026 | the answers to a list of sequences |
| `GopRing.LookupIsExact` | src/ngx_rtc_core.c:900-933 | over consecutive packets the lookup hits exactly the retained sequences |
| `GopRing.Lookup` | src/ngx_rtc_core.c:900-933 | a hit is a retained packet with that sequence |
| `GopRing.ReplayFromIsLatestGop` | src/ngx_rtc_core.c:844-897 | a replay starts at the latest retained keyframe start, else at the oldest packet |
| `GopRing.ReplayIndexIsExact` | src/ngx_rtc_core.c:844-897 | the wrapped index comparison starts at the right packet if and only if the retained packets do not straddle the 32-bit wrap and the latest keyframe start is in the head's cycle or reads as no newer than the oldest packet |
| `GopRing.ReplayIndexInFirstCycle` | src/ngx_rtc_core.c:844-897 | below 2^32 packets it always does |
| `GopRing.NothingAtTheWrap` | src/ngx_rtc_core.c:844-897 | after exactly 2^32 packets nothing is offered although packets are retained |
| `GopRing.ReplayIsOnePicture` | src/ngx_rtc_core.c:844-897 | a replay that is never refused offers the packets up to the first one with the marker, or all there are |
| `GopRing.RtpRing.Reserve` | src/ngx_rtc_core.c:816-841 | sizes the ring once, to a power of two |
| `GopRing.RtpRing.Push` | src/ngx_rtc_core.c:783-813 | the list of pushed packets grows by the packet or not at all, with the number its slot spells after the copy |
| `GopRing.ShortPacketBorrows` | src/ngx_rtc_core.c:777-813 | after a packet is copied in, its slot spells the old number if and only if the octets it brings spell it |
| `GopRing.RtpRing.Get` | src/ngx_rtc_core.c:900-933 | the lookup among the last packets pushed |
| `GopRing.RtpRing.Replay` | src/ngx_rtc_core.c:844-897 | offers a contiguous run from the replay index up to the first marker, refusal or the head, for any number of packets pushed |
| `HsmSpec.FindLcaIsLca` | src/ngx_rtc_hsm.c:321-374 | the search finds the lowest common ancestor of every two states |
| `HsmSpec.PerformRunsThePath` | src/ngx_rtc_hsm.c:248-300 | a transition exits what the target's chain does not share, innermost first, enters what the source's chain does not share, outermost first, and ends in the target; a path that does not fit runs nothing and stays |
| `HsmSpec.SplitIsUnique` | src/ngx_rtc_hsm.c:321-374 | two chains split at one pair of places only |
| `HsmSpec.SearchSplits` | src/ngx_rtc_hsm.c:528-564 | what the engine walks on both sides is what the chains do not share |
| `HsmSpec.MatchIsFirst` | src/ngx_rtc_hsm.c:379-430 | the first transition of the list that is for the event and whose guard passes is the match, and there is none exactly when no transition is |
| `HsmSpec.UnhandledStays` | src/ngx_rtc_hsm.c:129-165 | an unhandled event leaves the state alone and runs no exit or entry |
| `HsmLaws.InnermostAnswers` | src/ngx_rtc_hsm.c:129-165 | the innermost state of the chain with a transition that takes the event answers with its first one: the action runs first, then the exits, then the entries, and the machine ends in the target; an internal one runs its action only |
| `HsmLaws.NobodyAnswers` | src/ngx_rtc_hsm.c:129-165 | an event that no state of the chain takes changes nothing and is not handled |
| `Hsm.GetStateDepth` | src/ngx_rtc_hsm.c:302-314 | the 8-bit depth is the length of the chain |
| `Hsm.FindCommon` | src/ngx_rtc_hsm.c:321-374 | the loops find what the search on values finds |
| `Hsm.FindMatching` | src/ngx_rtc_hsm.c:379-430 | the first matching transition |
| `Hsm.Hsm.constructor` | src/ngx_rtc_hsm.c:68-99 | starts in the initial state without running its entry |
| `Hsm.Hsm.BuildEntryPath` | src/ngx_rtc_hsm.c:528-564 | records the whole path or reports that it does not fit |
| `Hsm.Hsm.ExecuteExits` | src/ngx_rtc_hsm.c:507-522 | the exits run, in order |
| `Hsm.Hsm.ExecuteEntries` | src/ngx_rtc_hsm.c:569-599 | the entries run, in order |
| `Hsm.Hsm.PerformTransition` | src/ngx_rtc_hsm.c:248-300 | state, actions and answer of a transition |
| `Hsm.Hsm.ExecuteTransition` | src/ngx_rtc_hsm.c:440-471 | the action, then the transition |
| `Hsm.Hsm.DispatchEvent` | src/ngx_rtc_hsm.c:129-165 | the event is offered upwards until it is handled; an unhandled one is reported once to the hook, if set |
| `Hsm.Hsm.IsInState` | src/ngx_rtc_hsm.c:167-198 | true exactly for the current state and its ancestors |
| `Hsm.Hsm.RestoreState` | src/ngx_rtc_hsm.c:213-229 | adopts a state without running anything |
| `SessionFsmSpec.DispatchRefinesFlat` | src/ngx_rtc_session_fsm.c:96-151 | dispatch on the session table is the flat machine: same phase, same answer, one slot of path buffer is enough |
| `SessionFsmSpec.RunRefinesFlat` | src/ngx_rtc_session_fsm.c:96-151 | the same over every run |
| `SessionFsmSpec.LifecycleIsForward` | src/ngx_rtc_session_fsm.c:96-151 | over every run the phase never goes back and a closed session stays closed |
| `SessionFsmSpec.ReadyIsEarned` | src/ngx_rtc_session_fsm.c:53-140 | a new session is ready only after a binding, then a DTLS record, then the end of the handshake, each with its evidence |
| `SessionFsmLaws.StandsExactly` | src/ngx_rtc_session_fsm.c:53-151 | from any phase and after any events the state of the table is decided by what arrived: closed if and only if a timeout, close or goodbye came; else ready if and only if the handshake ended after a record of at least 13 octets, the first one 20 to 63, after a binding; and so on down |
| `SessionFsmLaws.ThreeMakeReady` | src/ngx_rtc_session_fsm.c:53-151 | binding, record and end of the handshake make a new session ready, and any ending closes it |
| `SessionFsmLaws.AnsweredExactly` | src/ngx_rtc_session_fsm.c:53-151 | which events are handled in which phase |
| `SessionFsm.SessionMachine.DispatchCtx` | src/ngx_rtc_session_fsm.c:249-264 | phase, answer and report after an event with its evidence |
| `SessionFsm.SessionMachine.GetState` | src/ngx_rtc_session_fsm.c:277-306 | the phase the machine is in |
| `SessionFsm.SessionMachine.DtlsPending` | src/ngx_rtc_session_fsm.c:266-275 | true exactly before the handshake |
| `SessionFsm.SessionMachine.Restore` | src/ngx_rtc_session_fsm.c:354-361 | adopts a known phase, ignores an unknown one |
| `SessionFsm.SessionMachine.SetReporter` | src/ngx_rtc_session_fsm.c:371-379 | sets or clears the report of unhandled events and nothing else |
| `RtpSpec.FuARoundTrip` | src/ngx_rtc_rtp.c:293-376 | fragments reassemble to the unit; their count is the ceiling of (length - 1) / limit, numbers are consecutive, START is on the first only, END and marker on the last only |
| `RtpSpec.StapRoundTrip` | src/ngx_rtc_rtp.c:378-441 | a bundle unpacks to its units |
| `RtpSpec.StripUndoesStamp` | src/ngx_rtc_core.c:653-684 | stripping undoes a stamp up to the payload type if and only if the packet had nothing to strip |
| `RtpSpec.StripIsIdempotent` | src/ngx_rtc_rtp.c:51-87 | a stripped packet has nothing left to strip |
| `RtpLaws.FuABears` | src/ngx_rtc_rtp.c:293-376 | each fragment bears version, payload type, time, source and the next number at their octets; all but the last are full, and only the last can bear the marker |
| `RtpLaws.StapABears` | src/ngx_rtc_rtp.c:378-441 | a bundle bears the fields without a marker, type 24, and the units with their lengths |
| `RtpLaws.SourcesAreCut` | src/ngx_rtc_rtp.c:51-87 | stripping removes the contributing sources, however many |
| `RtpLaws.ExtensionIsCut` | src/ngx_rtc_rtp.c:51-87 | and the extension, whatever its length |
| `Rtp.PacketizeFuA` | src/ngx_rtc_rtp.c:293-376 | the packets handed out, the error cases and the callback's refusal |
| `Rtp.PacketizeStapA` | src/ngx_rtc_rtp.c:378-441 | the bundle handed out, or the error; an empty first unit lends its address's octet to the header |
| `Rtp.StripHeaderExt` | src/ngx_rtc_rtp.c:51-87 | the packet cut in place, or left alone |
| `Twcc.ParseTwcc` | src/ngx_rtc_rtcp.c:208-296 | lost and received are the zero and non-zero symbols among the first packet_count symbols of the expanded chunks; their sum is that many or all there are |
| `Twcc.CountChunk` | src/ngx_rtc_rtcp.c:232-294 | the counts one chunk adds |
| `TwccSpec.RunsMerge` | src/ngx_rtc_rtcp.c:236-258 | a run is the same feedback as two shorter runs |
| `TwccSpec.ExpandOfConcat` | src/ngx_rtc_rtcp.c:208-296 | chunk lists expand piece by piece |
| `TwccLaws.ChunkIsTold` | src/ngx_rtc_rtcp.c:232-294 | a chunk written by its digits (a run, fourteen one-bit or seven two-bit symbols) expands to exactly those symbols |
| `TwccLaws.FeedbackIsReported` | src/ngx_rtc_rtcp.c:208-296 | what is reported of a feedback is the first packet_count of the symbols that were written, whatever follows the chunks |
| `TwccLaws.ZerosAreLost` | src/ngx_rtc_rtcp.c:208-296 | the lost count is the number of symbols that are zero |
| `RtcpRoundTrip.CompoundReads` | src/ngx_rtc_rtcp.c:518-549 | a compound of written packets is handed to the caller as exactly those messages in order up to the first it refuses; the decoding ends without an error if and only if it refuses none |
| `RtcpRoundTrip.MessageReads` | src/ngx_rtc_rtcp.c:372-516 | a written packet parses to its message whatever follows it |
| `RtcpRoundTrip.ChunksRead` | src/ngx_rtc_rtcp.c:146-200 | for any list of chunks the parser stores the first canonical name in it, up to its first NUL |
| `RtcpLaws.ReportIsLaidOut` | src/ngx_rtc_rtcp.c:600-647 | every field of a sender report and its block stands at its octets |
| `RtcpLaws.DescriptionIsLaidOut` | src/ngx_rtc_rtcp.c:649-697 | every field of a source description stands at its octets; the rest is nulls |
| `RtcpLaws.PictureLossIsLaidOut` | src/ngx_rtc_rtcp.c:699-719 | the same for a picture loss indication |
| `RtcpLaws.WireReads` | src/ngx_rtc_rtcp.c:372-516 | a packet laid out by the other side whose body is understood parses, whatever follows it |
| `RtcpLaws.RefusedExactly` | src/ngx_rtc_rtcp.c:372-516 | a packet is refused if and only if it is not all there, its version is not 2, it is too short for its type and count, or its estimate is cut off |
| `RtcpLaws.ReceiverReads` | src/ngx_rtc_rtcp.c:441-452 | a receiver report reads as its block, or as none |
| `RtcpLaws.NackReads` | src/ngx_rtc_rtcp.c:460-486 | a negative acknowledgement reads entry by entry, up to 128 |
| `RtcpLaws.EstimateReads` | src/ngx_rtc_rtcp.c:310-370 | an estimate reads as mantissa times two to the exponent in 32 bits, with up to 32 sources |
| `RtcpLaws.TransportReads` | src/ngx_rtc_rtcp.c:208-296 | a feedback reads as its base, its count, and the numbers of zero and other symbols among the first count of its chunks |
| `RtcpSpec.EntryNames` | src/ngx_rtc_rtcp.c:551-594 | an entry asks for its first sequence and exactly those its mask marks |
| `RtcpSpec.EntryIsDistinct` | src/ngx_rtc_rtcp.c:551-594 | no sequence is asked for twice in an entry |
| `Rtcp.ReadItems` | src/ngx_rtc_rtcp.c:157-192 | the first name among the items, or where the chunk ends |
| `Rtcp.ReadDescription` | src/ngx_rtc_rtcp.c:146-200 | the first name of the description, as a C text |
| `Rtcp.ReadPacket` | src/ngx_rtc_rtcp.c:372-516 | one packet, or the error |
| `Rtcp.DecodeCompound` | src/ngx_rtc_rtcp.c:518-549 | the packets handed over up to the end, the first error or the caller's first refusal |
| `Rtcp.NackExpand` | src/ngx_rtc_rtcp.c:551-594 | all sequences if they fit, else as many as the array holds and a refusal |
| `Rtcp.EncodeSr` | src/ngx_rtc_rtcp.c:600-647 | the report written, with the clock's time for a missing one |
| `Rtcp.EncodeSdes` | src/ngx_rtc_rtcp.c:649-697 | the description written for a C text, a name over 255 octets refused |
| `Rtcp.EncodePli` | src/ngx_rtc_rtcp.c:699-719 | the request written |
| `Rtcp.CompoundAppend` | src/ngx_rtc_rtcp.c:721-736 | appended, or refused without a change |
| `StunSpec.ResponseDecodes` | src/ngx_rtc_stun.c:194-303 | a response decodes to the request's transaction and ufrags with its integrity and fingerprint in place |
| `StunSpec.DecodedIsAnswered` | src/ngx_rtc_stun.c:64-303 | every message that decodes meets what a response asks of it, and its response decodes to its transaction and ufrags |
| `StunSpec.ResponseVerifies` | src/ngx_rtc_stun.c:155-191 | a response verifies under a password if and only if that password hashes the signed part as the sender's did |
| `StunSpec.UserSplitsBack` | src/ngx_rtc_stun.c:98-129 | a user name splits back into its ufrags if and only if the local one has no colon |
| `StunPeer.PeerReadsResponse` | src/ngx_rtc_stun.c:194-303 | a reader that finds attributes by their octets takes from a response its type, length, cookie, transaction, user name, and the very address and port it was given |
| `StunPeer.MapsToOne` | src/ngx_rtc_stun.c:259-267 | a message maps back to one address and port at most |
| `StunPeer.PeerFindsIntegrity` | src/ngx_rtc_stun.c:269-290 | the integrity is the keyed hash of what stands before it, under a length that ends behind it |
| `StunPeer.PeerFindsFingerprint` | src/ngx_rtc_stun.c:290-303 | the fingerprint comes last and is the masked checksum of everything before it |
| `StunPeer.FlagsAreThere` | src/ngx_rtc_stun.c:64-152 | each flag of a decoded message says that an attribute of one type is in it, and no other |
| `StunSpec.WalkReadsAttributes` | src/ngx_rtc_stun.c:88-149 | decoding walks exactly the attributes that were written, whatever they are |
| `StunSpec.MaskUndoes` | src/ngx_rtc_stun.c:259-267 | masking an address twice gives it back |
| `Stun.SplitUsername` | src/ngx_rtc_stun.c:98-129 | the C string search is the split |
| `Stun.DecodeMessage` | src/ngx_rtc_stun.c:64-152 | the decoded message, or a refusal |
| `Stun.VerifyMessage` | src/ngx_rtc_stun.c:155-191 | the verdict of the integrity check |
| `Stun.WriteIdentity` | src/ngx_rtc_stun.c:221-267 | header, user name and mapped address |
| `Stun.PatchLength` | src/ngx_rtc_stun.c:269-270 | only the length field changes |
| `Stun.EncodeBindingResponse` | src/ngx_rtc_stun.c:194-303 | the response, or a refusal without a user name or room |
| `AvSyncSpec.MapHitsAnchors` | src/ngx_rtc_avsync.c:112-145 | both anchors are mapped exactly |
| `AvSyncSpec.LineIsMonotone` | src/ngx_rtc_avsync.c:112-145 | the line never goes back as the timestamp goes on |
| `AvSyncSpec.LineIsClose` | src/ngx_rtc_avsync.c:112-145 | the line is less than one tick from the exact rational value, on the side of the reference |
| `AvSyncSpec.MapIsExactIffItFits` | src/ngx_rtc_avsync.c:112-145 | the map gives the line's value if and only if it fits 64 bits |
| `AvSyncSpec.MapIsMonotone` | src/ngx_rtc_avsync.c:112-145 | where the line fits, the map is monotone in signed distance |
| `AvSyncSpec.ReferenceNeverRegresses` | src/ngx_rtc_avsync.c:59-109 | over every run of reports the reference time never goes back |
| `AvSyncSpec.ReferenceMovesForward` | src/ngx_rtc_avsync.c:59-109 | the reference moves only to a report that is later on both clocks |
| `AvSyncSpec.ForwardKeepsReference` | src/ngx_rtc_avsync.c:59-109 | the line of an accepted forward report still maps the previous reference exactly |
| `AvSyncSpec.FirstReportAnchors` | src/ngx_rtc_avsync.c:59-109 | the first report is the reference and makes no line yet |
| `AvSyncSpec.ReportMovesExactly` | src/ngx_rtc_avsync.c:59-109 | a report later on both clocks becomes the reference, one earlier on both leaves it, and either way the new line holds both exactly; any other changes nothing |
| `AvSyncSpec.RunKeepsInv` | src/ngx_rtc_avsync.c:59-109 | two anchors in order and their slope, after every run |
| `AvSync.Track.SetAnchors` | src/ngx_rtc_avsync.c:27-38 | the anchors and their slope |
| `AvSync.Track.OnSenderReport` | src/ngx_rtc_avsync.c:59-109 | the anchors after a report |
| `AvSync.Track.MapRtpToWall` | src/ngx_rtc_avsync.c:112-145 | the mapped time |

## Left out

- RegistryInvariant.RunKeepsInv: a run takes only steps that are enabled; adding a skeleton on the path where the forced sweep frees its source is not, because the invariant fails there (see `SessionAddKeepsInvExactly`).
- SnapshotCache.RefreshIsFresh: asks for a cache filled under a claim and the same source record; the other caches and the interleaved refresh are in `CacheRuns`.
- CacheRuns.KeptExactly: the claimed pointer stands for a live record when its version is read; a dangling one is not followed.
- RegistryRuns.FreedByTwoSweeps: the clock and the deadlines are unbounded; the code's milliseconds are machine words.
- Registry: payload types, SSRCs, statistics, close requests and session states kept in the shared records; the model's version and id counters do not wrap; names carry no NUL; the containers are a map and sequences instead of nginx's tree and queues.
- Registry: the shared retransmission ring and the shared media ring; the first follows the lookup rule of `GopRing.RtpRing`, the second the slots of `FixedRing.Ring` under its own mutex.
- Lock-free pointers to shared sources: references are proved, not a survival time of a pointer kept without one.
- GopRing.RtpRing: the reset of the cache when the publisher restarts.
- VRing.VRing.Push: asks that prefix, payload and used bytes stay below 2^32, where the code's sum would wrap; the capacity is at most 2^31.
- Jitter: the cumulative counters are cleared by a re-anchor, as in the code.
- FixedRing.Ring.Push: the capacity is a power of two given to the constructor; that rounding makes one is `NextPow2IsLeast`, on bit vectors.
- Hsm.Hsm.DispatchEvent: guards and actions are pure events that do not change the machine from inside; what the unhandled hook does; the state names.
- HsmSpec.FindLcaIsLca: hierarchies of depth up to 255, which the 8-bit depth counter holds, are asked for by the methods.
- Rtcp.DecodeCompound: asks for four readable octets behind the compound, because the SSRC is read before a four-octet packet is told apart.
- JitterLaws.GapTimeIsOldest: asks for a clock that never reads zero, which the code keeps for "no gap".
- SdpPeer.PeerReadsAnswer: asks for a candidate address and mids without blanks.
- HsmLaws.InnermostAnswers: a path that does not fit the buffer is `HsmSpec.PerformRunsThePath`; the search then goes on upwards.
- SdpEcho.AnswerReadsBack: answers whose strings do not fit the parser's buffers, contain line breaks, or would be split where the parser tokenises.
- Stun.EncodeBindingResponse: the checks for room after the first one, which 128 octets always pass; the hash does not fail.
- Session.Session.SendRtp: the cipher's and the socket's answers are parameters, and the cipher text is the plain text.
- SendSpec.RunCountsEach: counters do not wrap.
- AudioWorkerSpec.RunKeepsInv: thread creation, the condition variable and the transcoder, which may emit any packets.
- BroadcastSpec.EveryViewerIsServed: reached means handed to the session's send or named in an entry the ring took; whether the owning worker still knows the session when it drains its ring is not followed further.
- Broadcast.Broadcaster.FanOut: the rings' slots, which are those of `FixedRing.Ring`, and what else happens to a ring after its turn.
- Single-unit and Opus packetization, NAL unit search and slice header reading: short, or covered by the same arguments.
- Directives, modules, timers, HTTP handlers, statistics, Lua, DTLS, SRTP and the audio codec.
