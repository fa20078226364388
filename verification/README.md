# Models of the module services' buffer contents, protocols and growth

This project models three parts of the library and proves what they are for. One module per source component; `dafny verify dfyconfig.toml` checks all of it.

**What a recycled backing really holds.** `BufferJournal` keeps a buffer's image in shared pages and the log of its writes. `VersionedBufferBuild` brings a leased backing, with whatever bytes it still holds, up to a captured image: by the journal's dirty ranges when it can, by the whole image when it cannot. `PredecessorBuild` does the same by copying from the predecessor's backing what the leased one lacks and uploading the delta over it. `JournaledBufferSet` appends into backings that published versions still name. In each case the fast form is shown to agree with writing everything, over whole runs: `JournalRun`, `PredecessorRun` and `JournaledSetRun`. The classes and methods (`BufferJournal`, `ByteIntervals`, `Backing`, `Build`, `BuildFromPredecessor`, `JournaledSink`, `JournaledBufferSet`) change their fields step by step as the source does and are proved against the functions those runs are made of; `JournalRefinement`, `PredecessorRefinement` and `JournaledSetRefinement` say that a call of theirs is a step, or a path of steps, of those runs; `JournaledPublication` says so of a whole publication with its throw path, `JournaledInterleaving` of one with other threads' steps in between, and `JournaledLease` of a part leased from its pool.

**The lock-free protocols.** `RetirementClock`, `PinClaim`, `Availability`, `PublicationExchange`, `RevisionAssembly` and `SerializedTaskPump` are state machines of interleaved atomic steps: each thread has a program counter, each action is one atomic operation of the source, and a run is any sequence of enabled actions of any threads. Each proves an invariant of every reachable state and from it the promises listed below (for revision assembly, `RevisionTokens` and `RevisionCoordinator` hold the invariant and `RevisionRun` and `RevisionCollect` the promises). Each also says from the calls made so far what they come to - that an `Advance` advances, a `Notify` is drained, a draft is sealed, a pin holds, a lease protects - and that no call waits for another; `RevisionCalls`, `AvailabilityCalls` and `JournaledSetCalls` are only about that. `BackingPool` is the acquirer's side of the pool as a class, in which other threads' returns may be caught between their atomic steps. `HandOver` puts the coordinator of `RevisionAssembly` and the three-slot `PublicationExchange` together: they make the same moves, and what the frame gets from the exchange are the assembly's coherent revisions.

**Growth and cycles.** `GrowthPolicy` and `ElasticCapacity` are the capacity arithmetic in 64 bits; `GrowableBufferTypes`, `GrowableBufferSlots` and `GrowableBufferSet` the requirements, what each step makes of the slots, and the class with its one growth batch and its sealed sets; `DetectCycle` the explicit-stack search of the state graph, on nodes that keep the visit marks of earlier searches.

## What turned out not to hold

Where the code does not do what its own documentation says, the model follows the code; each of these has a concrete run or input below, and the exact condition under which the promise holds.

- Catch-up after a shrink: `include/ORGModuleServices/VersionedBufferBuild.h:71` says a backing at or past the base catches up from the writes alone. Bytes that a shrinking `ReplaceImage` drops and a sparse `AppendWrite` zero-fills again are in no write, and the size check passes. `JournalShrink.ShrinkThenSparseRegrowthIsWrong` is such a run; `JournalRun.BuildIsRight` says exactly which builds are right, and `JournalRun.VersionsAreTheirImages` that all are while the image never shrinks and no build skips what it publishes.
- Availability: `Acquire` and `ArmAvailability` each read the clock. An `Advance` between the two leaves a usable backing that nobody will wake the subscriber for (`Availability.AdvanceBetweenReadingsLosesAWake`). A look misses a backing exactly when it slipped between the two: the clock passed its point, or its readback pin went (`Availability.MissesExactlyWhatSlipped`, in every interleaving). `Availability.StrandedExactly` says of a failed `Acquire` whose caller subscribes directly when its waiter is stranded, by what the caller could read between the looks; with one reading no wake is lost (`Availability.OneReadingLosesNothing`, `Availability.NoWakeIsLost`).
- Catch-up after a skipped upload, against the same promise. That a build skips the upload of an indirect-argument buffer nothing was written to is meant; but it still claims its sequence and image, and once something is written a later build catches up from bytes that were never there. `JournalShrink.SkippedBuildIsWrong` is such a run, to the wrong version at its end. `JournalRun.RightByteByByte` says of any backing which builds are right, and `JournalRun.RightExactlyWhileClean` which runs are: those whose builds all are clean.
- Windows of asks: `include/ORGModuleServices/ElasticCapacity.h:50-56` says a due window is one that a low ask would close now. A window seen 2^32 - 1 times is never due, because the count it adds wraps (`ElasticCapacity.SaturatedIsNeverDue`, reached in `ElasticCapacity.SaturatedIsReached`); nor is an unopened one that a policy of one observation closes as it opens (`ElasticCapacity.UnopenedIsNotDue`). But for these two it holds (`ElasticCapacity.DueExactly`).
- Headroom: `include/ORGModuleServices/GrowthPolicy.h:10-12` says a capacity past 64 bits throws. The percentage's own product and sum wrap first (`GrowthPolicy.HeadroomMayWrap`; `GrowthPolicy.HeadroomExact` says exactly when Next is right). Doubling always throws as promised.

## Model

| member | source | states |
|---|---|---|
| JournalRun.BackingsHoldTheirEpoch | src/VersionedBufferBuild.cpp:127-187 | over every run of journal calls, captures, builds that publish, fail or stop anywhere, acknowledgements with any floor and releases, in which the image never shrinks and no build skips content its backing lacks, a backing with a nonzero content epoch and an image holds exactly the journal's image at that epoch |
| JournalRun.VersionsAreTheirImages | src/VersionedBufferBuild.cpp:188-211 | on such a run a published version shows the journal's image at its sequence for as long as someone holds it |
| JournalRun.BuildIsRight | src/VersionedBufferBuild.cpp:129-161 | of a backing that holds what it claims, a build leaves the version's image in it if and only if, when it catches up, every byte it leaves alone that was cut off and zero-filled since the backing's epoch is zero there; a whole upload is always right |
| JournalRun.RightByteByByte | src/VersionedBufferBuild.cpp:127-187 | of any backing, whatever it claims, a build is right if and only if every byte of the image it does not upload was there already |
| JournalRun.RightExactlyWhileClean | src/VersionedBufferBuild.cpp:127-211 | over every run and up to any step, every version anyone held showed its image if and only if every build was clean: one that caught up left nothing stale, and one that skipped its upload was given a backing that showed its image |
| JournalRun.CatchUpNeverRunsOff | src/VersionedBufferBuild.cpp:164-178 | on such a run every range a build uploads lies inside its image, so no build fails for want of pages |
| JournalRun.VersionsFromCalls | src/VersionedBufferBuild.cpp:188-211 | over every run the versions held are those a build published and nobody released since |
| JournalRun.BytesLeft | src/VersionedBufferBuild.cpp:81-211 | what the pool, a failed build or the GPU left in a backing is there, without an image, until something touches it again; after the first two it claims no epoch |
| JournalRun.CapturesStay | src/BufferJournal.cpp:107-119 | a capture may be built from at any later time |
| JournalShrink.ShrinkThenSparseRegrowthIsWrong | src/BufferJournal.cpp:47-60 | a concrete run (shrinking ReplaceImage, then a sparse AppendWrite) whose published version does not show its image |
| JournalShrink.SkippedBuildIsWrong | src/VersionedBufferBuild.cpp:127-187 | a concrete run that never shrinks the image: a build skips its upload, one byte is written, and a later build catches up from the epoch the backing claims, uploads that byte alone, and publishes a version whose other bytes were never there |
| JournalHistory.CatchUpIsExact | src/VersionedBufferBuild.cpp:136-142 | fetching the bytes the journal's writes touched is catching up exactly when nothing stale is left: the converse fails only for bytes dropped by a shrink |
| JournalHistory.UntouchedByte | src/BufferJournal.cpp:34-77 | a byte no journal write covered is what it was, or zero if an image in between was too short to hold it |
| JournalHistory.AfterKept | src/BufferJournal.cpp:140-143 | a trim keeps exactly the writes after its base |
| JournalHistory.KeptExactly | src/BufferJournal.cpp:126-144 | the kept writes are exactly the sequences in (base, current], strictly increasing |
| JournalRefinement.AppendIsAStep | src/BufferJournal.cpp:34-77 | an accepted AppendWrite of the journal class is a journal step of the run that never shrinks the image; a refused one changes nothing |
| JournalRefinement.ReplaceIsAStep | src/BufferJournal.cpp:79-96 | an accepted ReplaceImage is a journal step over the whole image |
| JournalRefinement.CaptureIsAStep | src/BufferJournal.cpp:107-119 | a capture of the journal class is what the run's builds start from |
| JournalRefinement.RequestIsAStep | src/BufferJournal.cpp:98-105 | a capacity growth is a journal step with an empty write and the image as it was; any other request is no step |
| JournalRefinement.AcknowledgeIsAStep | src/BufferJournal.cpp:126-144 | an acknowledgement is the run's, to where the base moves; a refused version moves nothing |
| JournalRefinement.NewIsAStart | src/BufferJournal.cpp:12-12 | a new journal is a start of the run, empty |
| JournalRefinement.InitializeIsAStart | src/BufferJournal.cpp:14-32 | an initialized journal is a start of the run with its image, whatever it held before; a refused one is as it was |
| JournalRefinement.GpuBuildIsAStep | src/VersionedBufferBuild.cpp:127-187 | a build of a version the GPU writes is a run step: its epoch set, its memory as it was and no image |
| JournalRefinement.BuildIsAStep | src/VersionedBufferBuild.cpp:81-211 | a build of the heap's backing from a captured image, whether it uploads or skips, is a run step: published as the run says, or unchanged, or abandoned holding nothing |
| BufferJournal.BufferJournal.AppendWrite | src/BufferJournal.cpp:34-77 | the next image is the former one zero-extended to the new extent with the bytes over it, whatever pages captures share; every live capture keeps its bytes; which inputs throw what |
| BufferJournal.BufferJournal.ReplaceImage | src/BufferJournal.cpp:79-96 | the image is replaced, smaller or larger, with one write covering it; captures keep theirs |
| BufferJournal.BufferJournal.RequestCapacity | src/BufferJournal.cpp:98-105 | the capacity only grows; a growth closes its sequence with a zero-length write and the same image |
| BufferJournal.BufferJournal.CaptureDesired | src/BufferJournal.cpp:107-119 | a capture shares every page and stands for the current image and log |
| BufferJournal.BufferJournal.ReleaseCapture | src/BufferJournal.cpp:107-119 | letting a capture go returns one share of each of its pages, and disturbs no other capture |
| BufferJournal.BufferJournal.Acknowledge | src/BufferJournal.cpp:126-144 | the base moves to min(version, floor) but never back, and the writes kept are exactly those after it |
| BufferJournal.BufferJournal.Initialize | src/BufferJournal.cpp:14-32 | the journal restarts at sequence 1 and base 0 with the image, or throws and changes nothing |
| BufferJournal.BufferJournal.Unshare | src/BufferJournal.cpp:53-70 | a page someone else shares is cloned before a write, and only then: afterwards only the journal holds it, and no old page changed |
| BufferJournal.PieceContents | src/BufferJournal.cpp:62-73 | writing a piece inside a page is writing it at its place in the dense bytes, and pages stay canonical |
| BufferJournal.GrownContents | src/BufferJournal.cpp:45-60 | growing pages and tails is zero-extending the dense bytes, and pages stay canonical |
| BufferImage.FromBytes | src/BufferImage.cpp:7-17 | pages are canonical and hold the bytes |
| BufferImage.Materialize | src/BufferImage.cpp:26-36 | for any image, its joined pages cut or zero-filled to the byte size |
| BufferImage.RoundTrip | src/BufferImage.cpp:7-36 | materializing what was cut into pages gives the bytes back |
| BufferImage.MaterializesContents | src/BufferImage.cpp:26-36 | a canonical image materializes to its contents |
| VersionedBufferBuild.Build | src/VersionedBufferBuild.cpp:81-211 | a build is ready exactly when it is asked for with a service, a stride and a pool, not stopped, leased a backing with a buffer its rows fit, and has an image, a replay or the GPU's writes, and each range it chooses is covered by the pages, of an unretired backing and accepted; else the outcome names the first of these that fails. A ready one uploaded exactly the chosen ranges over the old bytes and then set epoch and image; one that did not get to its uploads left the backing as it was; one whose uploads stopped landed exactly the ranges before that one, and the backing holds nothing |
| VersionedBufferBuild.UploadedByte | src/VersionedBufferBuild.cpp:163-185 | after the uploads each byte is the image's where a range covers it and untouched elsewhere |
| VersionedBufferBuild.RewrittenIsUploaded | src/VersionedBufferBuild.cpp:138-161 | every byte a newer journal write covers is uploaded, through merging and fallback |
| VersionedBufferBuild.OnlyNearIsUploaded | src/VersionedBufferBuild.cpp:143-153 | a patch uploads no byte more than 256 past every newer write |
| VersionedBufferBuild.MergeHolds | src/VersionedBufferBuild.cpp:143-153 | each dirty range lies whole in a merged one |
| VersionedBufferBuild.MergeGaps | src/VersionedBufferBuild.cpp:143-153 | merged ranges are in order, more than 256 bytes apart |
| VersionedBufferBuild.MergeSize | src/VersionedBufferBuild.cpp:143-153 | merging adds no ranges and less than 256 bytes for each |
| VersionedBufferBuild.MergeRanges | src/VersionedBufferBuild.cpp:143-153 | the merging loop computes the specification the merge lemmas are about |
| VersionedBufferBuild.GatherSegments | src/VersionedBufferBuild.cpp:164-178 | the page loop succeeds exactly on the ranges the pages cover, whichever of them are short or left out, and then gathers exactly their bytes; else it stops at the range's first byte no page has, and says whether that lies past a short page's end |
| VersionedBufferBuild.UploadRanges | src/VersionedBufferBuild.cpp:162-187 | every range is uploaded exactly when each is covered, unretired and accepted; else exactly those before the first that is not have landed, and which of the three it was |
| BackingMemory.Backing.Upload | tests/Buffers/VersionedBufferBuildTests.cpp:49-65 | the segments land one after another at the offset, and nothing else changes |
| VersionedBufferReplay.Replay | src/VersionedBufferBuild.cpp:433-495 | the replay succeeds exactly on a replayable input, with the image's, the snapshot's or the predecessor's bytes |
| PredecessorRun.PublishedIsRight | src/VersionedBufferBuild.cpp:309-389 | over every run of a chain, whatever the leased backing went through, each byte the delta or the predecessor determines is the last delta write's, else the predecessor's |
| PredecessorRun.HeldVersionsStay | src/VersionedBufferBuild.cpp:389-418 | a published version shows its bytes for as long as someone holds it |
| PredecessorRun.VersionsFromCalls | src/VersionedBufferBuild.cpp:391-418 | over every run the versions held are those a build published and nobody released since |
| PredecessorRun.BytesLeft | src/VersionedBufferBuild.cpp:364-389 | what the pool or a failed build left in a backing is there, under no epoch, until something touches it again |
| PredecessorBuild.VersionIsRight | src/VersionedBufferBuild.cpp:339-389 | the version is right if and only if every byte neither copied nor uploaded already was the predecessor's |
| PredecessorBuild.BatchIsApart | src/VersionedBufferBuild.cpp:326-362 | copies and uploads are pairwise disjoint and inside the version's bytes |
| PredecessorBuild.BuildFromPredecessor | src/VersionedBufferBuild.cpp:265-418 | a predecessor copy is ready exactly when its input, its leased backing and its delta are in order, it is not stopped, and the host accepts the copy where the backing lacks a byte the delta does not give and the upload where there is a delta; else the outcome names the first of these that fails. A ready one ran a plan that resolves the delta and copies exactly what the backing lacks less the delta; without a predecessor exactly the deltas that cover every byte will do; one that did not get to its batch left the backing as it was, any other failure left it holding nothing |
| PredecessorBuild.RunBatch | src/VersionedBufferBuild.cpp:366-389 | the batch lands whole and sets the epoch, or names what the host refused, with the copies landed exactly when it was the upload, and the backing holding nothing |
| PredecessorBuild.BatchIsNeeded | src/VersionedBufferBuild.cpp:339-380 | a plan copies exactly when the backing lacks a byte of the predecessor the delta does not give, and uploads exactly when there is a delta |
| PredecessorBuild.MakePlan | src/VersionedBufferBuild.cpp:326-368 | the plan's uploads resolve the delta in order, its copies are the lacking bytes of the predecessor less the delta |
| PredecessorBuild.Missing | src/VersionedBufferBuild.cpp:341-357 | what may be missing of the predecessor: all of it for a fresh, empty, newer or other-class backing or an unreachable journal, else the changed ranges, clipped |
| PredecessorRefinement.BuildIsAStep | src/VersionedBufferBuild.cpp:265-418 | a predecessor-copy build is a run step: published, exactly when its sequence names no other contents, as the run says; or the backing unchanged, or abandoned holding nothing |
| DeltaResolution.Resolve | src/VersionedBufferBuild.cpp:326-337 | the reverse walk uploads each covered byte once, with the last write's value |
| DeltaResolution.SortedResolves | src/VersionedBufferBuild.cpp:338-338 | sorting keeps the resolution, and the sorted uploads follow one another without touching |
| ByteIntervals.ByteIntervals.Add | src/VersionedBufferBuild.cpp:217-233 | the union with [begin, end), kept sorted, nonempty and non-touching |
| ByteIntervals.ByteIntervals.ForEachGap | src/VersionedBufferBuild.cpp:235-248 | exactly the parts of [begin, end) outside the set, in order |
| ByteIntervals.CoversWhole | src/VersionedBufferBuild.cpp:363-367 | a canonical set within [0, n) is the one interval [0, n) exactly when it has every byte |
| JournaledSetRun.NamedBytesNeverChange | src/JournaledBufferSet.cpp:88-175 | in every interleaving, a published version's named bytes are those it was published with while a lease names it or a frame that bound it has not retired, and the sealed mark covers them |
| JournaledSetRun.ReuseIsSafe | src/BackingPool.cpp:121-124 | a backing is only leased again once no live version names a byte of it |
| JournaledSetRun.PublishedWithItsBytes | src/JournaledBufferSet.cpp:142-147 | a version is published with what its backing then holds, and the mark rises to cover it |
| JournaledSetCalls.LeasesFromCalls | src/BackingPool.cpp:202-241 | in every interleaving the leases are those taken or copied and not dropped since |
| JournaledSetCalls.LeaseProtects | src/JournaledBufferSet.cpp:116-160 | until a lease on a version is dropped the version's bytes stay where they were published, whoever does what |
| JournaledSetCalls.ClockFromCalls | src/BackingPool.cpp:147-151 | the clock stands at its start or at the largest point it was advanced to |
| JournaledSetCalls.BindProtects | src/BackingPool.cpp:231-235 | a frame's binding protects a version's bytes until the clock is advanced to its point, whatever leases are dropped |
| JournaledSetCalls.ReuseExactly | src/BackingPool.cpp:121-124 | a backing may be leased again exactly when every lease on it was dropped and the clock has reached every frame that bound it |
| JournaledSetCalls.EpochFromCalls | src/JournaledBufferSet.cpp:116-175 | a backing claims an epoch only from the last seal on it, with no take, throw or discard passing over it since |
| JournaledSetCalls.SealedClaims | src/JournaledBufferSet.cpp:142-160 | and it claims that seal's epoch until then |
| JournaledBufferSet.JournaledBufferSet.Publish | src/JournaledBufferSet.cpp:88-170 | it publishes exactly when every present part goes through, and else throws what the first that does not throws; every present part is published as its emit wrote it, or each part before the one that threw is as its emit wrote it but holds nothing, that one has its landed calls, and the later ones are untouched; in neither case does a byte below a part's mark move; a part's class only grows, to what its policy makes of the request |
| JournaledBufferSet.EndsOneWay | src/JournaledBufferSet.cpp:88-170 | a publication has one end: no throw exactly when every part goes through, else one first part and one error |
| JournaledBufferSet.AppendsWhereItFits | src/JournaledBufferSet.cpp:104-122 | a part appends exactly when the head it is given has room for all it asks, each unit a stride or a raw part's byte |
| JournaledBufferSet.PublishPart | src/JournaledBufferSet.cpp:97-160 | one part goes through exactly when it has an owned head or a class can be made and is leased, its emit gives a result, and each of its calls is acceptable; else which of these threw first and what has landed by then; the class it is made at, what the emit is told, what it wrote, from which mark, its new epoch and mark |
| JournaledBufferSet.RunEmit | src/JournaledBufferSet.cpp:32-70 | an emit lands all its runs exactly when each of its calls is acceptable, or throws what the first that is not throws, with exactly the calls before it landed; none is below the floor |
| JournaledBufferSet.JournaledSink.WriteMany | src/JournaledBufferSet.cpp:49-70 | a batch lands whole, counted by bytes, runs and first byte, exactly when it is empty, or each nonempty run lies inside the capacity and at or past the floor, the buffer is there, the backing is not retired and the host accepts; else it throws which of these comes first, and writes nothing |
| JournaledBufferSet.JournaledSink.Write | src/JournaledBufferSet.cpp:26-47 | one run lands exactly when it is empty, or lies inside the backing - up to its very end - and at or past the mark, the buffer is there, the backing is not retired and the host accepts; else it throws which of these comes first, and writes nothing |
| JournaledSetRefinement.PartIsSteps | src/JournaledBufferSet.cpp:97-160 | a part's publication is a path of the run: the take, one sink write a run, and the seal as a version of the backing's first bytes, which its class makes fit; an emit that throws ends in the throw path with what it landed; what throws earlier takes nothing |
| JournaledSetRefinement.RunsAreWrites | src/JournaledBufferSet.cpp:26-70 | runs that fit are the run's sink writes, one after another |
| JournaledPublication.PublishIsSteps | src/JournaledBufferSet.cpp:88-170 | a whole publication is a path of the run: begin, each present part's take, writes and seal, and finish; or up to the part that throws, and the throw path over everything taken; the path ends with what the backings hold, and after a throw none of those reached holds anything to catch up from |
| JournaledInterleaving.PublishesTheSame | src/JournaledBufferSet.cpp:88-170 | in any interleaving with threads that copy, bind, release and discard handles and advance the clock, the publisher is never kept from its next step, and its backings and versions hold the bytes they would alone |
| JournaledInterleaving.PublishAmongOthers | src/JournaledBufferSet.cpp:88-170 | a whole publication of the class, its steps interleaved with others' in any way, ends the run with what its backings hold and every part's version |
| JournaledLease.LeasePart | src/JournaledBufferSet.cpp:116-130 | what a part's pool hands out fits the part, and is the run's take exactly when no frame still uses it, which fails only under reuseBound; the pool's other backings stay as they were |
| JournaledLease.PublishLeased | src/JournaledBufferSet.cpp:97-160 | a part leased from a pool without reuseBound and published is a path of the run that ends in its version, or in the throw path |
| RevisionRun.SelectedIsCoherent | include/ORGModuleServices/Async/RevisionAssembly.h:261-323 | in every interleaving a selected revision has all fragments ready and its closure intact |
| RevisionRun.SelectedIncreases | include/ORGModuleServices/Async/RevisionAssembly.h:286-323 | selected sequences strictly increase |
| RevisionRun.CompletesAtMostOnce | include/ORGModuleServices/Async/RevisionAssembly.h:191-202 | a revision completes at most once, and only with its seal finished and every fragment settled |
| RevisionRun.SettledThenCompleted | include/ORGModuleServices/Async/RevisionAssembly.h:113-139 | with no thread inside, a pending revision whose fragments were all settled has completed and waits for Collect |
| RevisionRun.OnlyPublishedIsSelected | include/ORGModuleServices/Async/RevisionAssembly.h:286-323 | a failed, superseded or abandoned revision is never selected, at any time |
| RevisionRun.FateIsFinal | include/ORGModuleServices/Async/RevisionAssembly.h:286-323 | what Collect decided of a revision it never decides again |
| RevisionCollect.NewestWins | include/ORGModuleServices/Async/RevisionAssembly.h:283-323 | whatever settlers and frame do meanwhile, a Collect publishes the greatest of the complete, unfailed, pending revisions on the stack it took, or nothing if there are none; the others on it failed or are superseded, exactly the older pending ones are abandoned, and no other fate changes |
| RevisionCollect.PassedOverIsOlder | include/ORGModuleServices/Async/RevisionAssembly.h:296-316 | over every run a superseded or abandoned revision is older than the last published one, or than the newest one Collect holds |
| RevisionCollect.CountersAreFates | include/ORGModuleServices/Async/RevisionAssembly.h:296-318 | each counter is the number of revisions of its fate |
| RevisionCalls.SettlesAsFirst | include/ORGModuleServices/Async/RevisionAssembly.h:113-126 | whatever settlements race, a fragment ends as the first of them said |
| RevisionCalls.FailsExactly | include/ORGModuleServices/Async/RevisionAssembly.h:191-203 | a completed revision failed exactly when the first settlement of a fragment it names failed |
| RevisionCalls.SealsExactly | include/ORGModuleServices/Async/RevisionAssembly.h:261-283 | a draft is sealed exactly when it was begun from the newest revision and every requirement its fragments were made with is exactly in its slot; else nothing changes |
| RevisionCalls.OneSealPerBase | include/ORGModuleServices/Async/RevisionAssembly.h:253-262 | of two drafts begun from one revision at most one is sealed |
| RevisionCalls.NeverStuck | include/ORGModuleServices/Async/RevisionAssembly.h:113-323 | a thread inside the protocol always has a step of its own |
| RevisionCalls.OwnStepsEnd | include/ORGModuleServices/Async/RevisionAssembly.h:113-323 | and each brings it nearer its call's end, while nobody else's moves it: a call never waits for another |
| RevisionCalls.SelectedAsSealed | include/ORGModuleServices/Async/RevisionAssembly.h:261-330 | what the frame selects is a draft some call sealed, whose fragments' first settlements all succeeded and whose closure, as its fragments were made, is whole |
| RevisionRun.SealedIsAccounted | include/ORGModuleServices/Async/RevisionAssembly.h:261-323 | sealed = published + failed + superseded + abandoned + pending (+ the one in Collect's hand), and every pending sequence is above the last published |
| RevisionWitness.ARevisionIsSelected | include/ORGModuleServices/Async/RevisionAssembly.h:113-323 | a concrete interleaving in which a sealed revision of one fragment is settled by a worker, completed, published and selected, so the above is not empty |
| PublicationExchange.NoSharedAccess | include/ORGModuleServices/Async/PublicationExchange.h:35-101 | producer and consumer never touch one slot's value at once |
| PublicationExchange.ReplaceAlwaysSucceeds | include/ORGModuleServices/Async/PublicationExchange.h:35-60 | TryReplace always hands over its candidate; TryPublish hands over exactly when it saw no ready successor |
| PublicationExchange.DecidedAtMostOnce | include/ORGModuleServices/Async/PublicationExchange.h:35-78 | a candidate is selected, refused or replaced at most once, never two of these, and each selection is newer than the last |
| PublicationExchange.NothingLost | include/ORGModuleServices/Async/PublicationExchange.h:35-101 | while no successor is ready and none is being judged, the published candidates are exactly those that were selected, refused or replaced |
| PublicationExchange.ActiveIsNewestSelected | include/ORGModuleServices/Async/PublicationExchange.h:62-94 | the active slot holds the newest selected candidate |
| PublicationExchange.CallAnswers | include/ORGModuleServices/Async/PublicationExchange.h:35-58 | a TryPublish or TryReplace called is under way until it returns; by then a TryReplace has handed its candidate over, and a TryPublish exactly when it loaded no ready successor |
| PublicationExchange.SelectsTheOffered | include/ORGModuleServices/Async/PublicationExchange.h:35-78 | over every run a selection finds what was announced last and neither selected nor taken back since, and nothing when that is nothing |
| PublicationExchange.ActiveIsKept | include/ORGModuleServices/Async/PublicationExchange.h:62-94 | between the frame's calls the active slot holds what it accepted last, and nothing once it cleared it |
| PublicationExchange.NothingLeaks | include/ORGModuleServices/Async/PublicationExchange.h:35-101 | no empty slot keeps a publication alive |
| PublicationExchange.ReclaimedIsEmpty | include/ORGModuleServices/Async/PublicationExchange.h:95-101 | whatever the frame does meanwhile, a ReclaimRetired empties every slot that was retired when it began |
| PublicationExchange.StepsToTheEnd | include/ORGModuleServices/Async/PublicationExchange.h:35-101 | calls are wait-free: every step brings a call nearer its end, and nothing the other side does takes it back |
| HandOver.RevisionMoves | include/ORGModuleServices/Async/RevisionAssembly.h:261-323 | each step of the coordinator and of the frame moves the hand-over as one small machine says: taken back, offered, selected or refused, and nothing else moves it |
| HandOver.ExchangeMoves | include/ORGModuleServices/Async/PublicationExchange.h:35-101 | and so does each step of the exchange under TryReplace and TrySelect |
| HandOver.StepCoupled | include/ORGModuleServices/Async/PublicationExchange.h:35-101 | with the coordinator handing over through the exchange, whatever either side does next the assembly sees what the exchange does: call k is its k-th published revision, and what is ready and selected are the same under these names |
| HandOver.ExchangedIsCoherent | include/ORGModuleServices/Async/RevisionAssembly.h:261-323 | in every interleaving of both, what the frame selected from the exchange are coherent revisions, each newer than the one before |
| HandOver.ActiveIsCoherent | include/ORGModuleServices/Async/PublicationExchange.h:62-101 | and the active slot it reads holds the newest of them |
| SerializedTaskPump.AtMostOneDrains | include/ORGModuleServices/Async/SerializedTaskPump.h:132-151 | at most one thread drains, in either handoff mode |
| SerializedTaskPump.NotifiedThenDrained | include/ORGModuleServices/Async/SerializedTaskPump.h:76-95 | an accepted notification is followed by a drain that began after it, by the time the pump is idle |
| SerializedTaskPump.NotifyIsAccepted | include/ORGModuleServices/Async/SerializedTaskPump.h:76-95 | a Notify that is done while the pump is not stopped was accepted in between: it raised the epoch by exactly one, and of an idle pump it left it scheduled with itself about to submit |
| SerializedTaskPump.EveryNotifyIsDrained | include/ORGModuleServices/Async/SerializedTaskPump.h:76-95 | every Notify called of a pump that was not stopped is followed by a drain that began after it, by the time nothing is left inside |
| SerializedTaskPump.StoppingExactly | include/ORGModuleServices/Async/SerializedTaskPump.h:76-151 | once no thread is inside, the pump is stopping if and only if Stop was called, a submission was refused or a drain threw |
| SerializedTaskPump.ClaimEnds | include/ORGModuleServices/Async/SerializedTaskPump.h:209-233 | a task or an inline run leaves its loop as the one that drains exactly when it swapped an idle or scheduled word, and outside exactly when someone else drains or the pump was stopping; an inline run requests one epoch more |
| SerializedTaskPump.ResubmitHandsOver | include/ORGModuleServices/Async/SerializedTaskPump.h:234-266 | in resubmit mode a thread never drains twice in a row: it hands what is left to a task |
| SerializedTaskPump.RunEnds | include/ORGModuleServices/Async/SerializedTaskPump.h:132-233 | a task, or an inline run, that is done either drained or found the pump drained by someone else, or stopping |
| SerializedTaskPump.TasksFromCalls | include/ORGModuleServices/Async/SerializedTaskPump.h:76-151 | a task is started once for each submission accepted |
| SerializedTaskPump.FinishesAlone | include/ORGModuleServices/Async/SerializedTaskPump.h:76-266 | from any state a thread gets out by its own steps: no call waits for another |
| SerializedTaskPump.NothingStranded | include/ORGModuleServices/Async/SerializedTaskPump.h:209-266 | a live pump with no task and no thread inside is idle and has drained all it accepted |
| SerializedTaskPump.ScheduledHasATask | include/ORGModuleServices/Async/SerializedTaskPump.h:76-95 | a scheduled pump has a task to come |
| SerializedTaskPump.EpochGrowsAndStoppingStays | include/ORGModuleServices/Async/SerializedTaskPump.h:146-151 | the epoch only grows, and stopping is permanent |
| RetirementClock.CompletedIsTheMaximum | src/BackingPool.cpp:147-151 | the completed point is the greatest one advanced to |
| RetirementClock.AdvanceIsReached | src/BackingPool.cpp:147-151 | once an Advance called has left its loop, the completed point is from then on at least what it was given |
| RetirementClock.PointWasGiven | src/BackingPool.cpp:147-151 | the completed point is 0 or what some such Advance was given, so it is the largest of them |
| RetirementClock.EveryCallIsServed | src/BackingPool.cpp:147-199 | when no thread is inside, of every Subscribe called the wake has run if and only if its point is no later than what some Advance called was given, or is 0; no two calls share a waiter |
| RetirementClock.ReachedRunsInline | src/BackingPool.cpp:153-165 | a point already reached has its wake run by the Subscribe itself, on its own thread |
| RetirementClock.FinishesAlone | src/BackingPool.cpp:147-199 | from any state a thread gets out by its own steps: no call waits for another |
| RetirementClock.CompletedNeverDecreases | src/BackingPool.cpp:147-151 | the completed point never decreases |
| RetirementClock.WakesOnceAndInTime | src/BackingPool.cpp:153-199 | a waiter runs at most once, and only at or after its point |
| RetirementClock.QuiescentClockOwesNothing | src/BackingPool.cpp:167-199 | with no thread inside, the waiters that have run are exactly those whose point is reached, and those left on the stack exactly the others |
| PinClaim.PinExcludesClaim | src/BackingPool.cpp:87-119 | no pin that passed its check coexists with a held claim |
| PinClaim.CountIsExact | src/BackingPool.cpp:87-119 | the consumer count is how many pins have counted themselves, so it is nonzero while one is held |
| PinClaim.ReleasedStaysUnpinned | src/BackingPool.cpp:393-396 | a released backing never gains a pin |
| PinClaim.ClaimFailsOnlyForAPin | src/BackingPool.cpp:112-119 | a claim succeeds exactly when no pin is counted as it reads |
| PinClaim.PinHoldsUnlessClaimed | src/BackingPool.cpp:87-109 | over every run a pin that checks itself holds exactly when no claim marked the backing without unmarking it since; else it backs off |
| PinClaim.PinHoldsOn | src/BackingPool.cpp:87-109 | and it holds until it is released |
| PinClaim.CountFromCalls | src/BackingPool.cpp:87-109 | the count is that of the pins the calls so far leave counted |
| PinClaim.ClaimFromCalls | src/BackingPool.cpp:112-119 | a claim succeeds exactly when the calls so far leave no pin counted |
| Availability.NoWakeIsLost | src/BackingPool.cpp:475-503 | while a subscriber waits and no event is on its way, a backing that did not slip past a subscribing Acquire is not usable unless the clock's next tick wakes it, and one the clock or a readback pin holds back has a clock wake at or before its point or the next tick |
| Availability.MissesExactlyWhatSlipped | src/BackingPool.cpp:475-503 | in every interleaving, a look to arm misses a backing exactly when between the looks the clock passed its point or its readback pin went, no pin holds it, and no event is counted or on its way |
| Availability.LostSlipped | src/BackingPool.cpp:546-554 | a wake is lost only for a backing that slipped between the looks of an Acquire that then subscribed |
| Availability.StrandedBySlipping | src/BackingPool.cpp:546-554 | in every interleaving, a waiter with nothing on its way and a usable backing the next tick wakes nobody for was stranded by a backing that slipped |
| Availability.StrandedIsLost | src/BackingPool.cpp:546-554 | in every interleaving, a waiter is stranded if and only if it waits with nothing on its way and the next tick unsubscribed, and a lost backing is usable |
| Availability.StrandedExactly | src/BackingPool.cpp:475-503 | a failed Acquire whose caller subscribes directly strands its waiter if and only if, at the second reading, an unpinned backing had slipped, nothing was counted or on its way, and the next tick is neither subscribed nor found by arming; whatever the other threads did before |
| Availability.OneReadingLosesNothing | src/BackingPool.cpp:360-371 | a run whose subscribing Acquires each read one clock value, and saw no readback pin go between their looks, loses no wake |
| Availability.AdvanceBetweenReadingsLosesAWake | src/BackingPool.cpp:479-489 | a concrete run: an advance between the two clock readings leaves a waiter, nothing on its way, and a usable backing |
| AvailabilityCalls.PinsFromCalls | src/BackingPool.cpp:87-109 | a backing's pins of either kind are those taken and not dropped |
| AvailabilityCalls.BoundFromCalls | src/BackingPool.cpp:231-235 | it is held for the latest frame that bound it |
| AvailabilityCalls.ClaimsExactly | src/BackingPool.cpp:393-411 | a claim leases the backing exactly when no consumer pins it, and else passes it over; what it takes was free and bound to no frame past the clock it read |
| AvailabilityCalls.WaitersFromCalls | src/BackingPool.cpp:546-554 | a subscriber waits until it is woken |
| AvailabilityCalls.FreeingWakes | src/BackingPool.cpp:326-340 | whatever may free a backing - a last lease, a last consumer pin, a clock point reached - has by the time its thread is done woken every waiter there was |
| AvailabilityCalls.SubscribingWakes | src/BackingPool.cpp:546-554 | an event counted since the look makes the subscription wake everyone |
| AvailabilityCalls.EventsFromCalls | src/BackingPool.cpp:546-554 | the events are those counted, each once |
| AvailabilityCalls.PointsFromCalls | src/BackingPool.cpp:496-503 | a clock point's wake runs once for each subscription |
| AvailabilityCalls.ArmsSooner | src/BackingPool.cpp:491-503 | the armed point only gets sooner until its own wake clears it, and an Acquire subscribes exactly to a sooner one |
| AvailabilityCalls.ThreadMovesOn | src/BackingPool.cpp:326-340 | a thread that may have freed a backing always has a step of its own, and each brings it nearer its end |
| AvailabilityCalls.AcquirerMovesOn | src/BackingPool.cpp:354-554 | so does each step of an Acquire and its subscription, and no other thread gives it more to do |
| BackingPool.BackingPool.Acquire | src/BackingPool.cpp:354-459 | hands out the usable backing nearest the journal that no consumer pinned meanwhile; with none, below the class limit exactly a new one, or a failed allocation, and at the limit nothing, or under reuseBound the one bound longest ago, unless there is none or that one was pinned meanwhile; exactly the superseded classes' and those past the spares behind the leased one leave, unless pinned meanwhile; what else came back is free, and the class is noted as the key's |
| BackingPool.BackingPool.ReleaseLease | src/BackingPool.cpp:237-241 | only the last lease starts a return; every backing stays in exactly one place |
| BackingPool.BackingPool.CopyLease | src/BackingPool.cpp:207-209 | a copied lease is one lease more, of a backing that stays where it is |
| BackingPool.BackingPool.CountReturn | src/BackingPool.cpp:329-332 | the return is counted before it is pushed |
| BackingPool.BackingPool.PushReturn | src/BackingPool.cpp:333-338 | a counted backing goes on the return stack |
| BackingPool.BackingPool.TakeReturned | src/BackingPool.cpp:342-352 | the whole return stack moves to the free list, nothing lost or doubled |
| BackingPool.BackingPool.Trim | src/BackingPool.cpp:572-599 | of each key still asked for, exactly the usable backings but the first spares of its active class, in order of newest contents, leave the pool, unless pinned meanwhile |
| BackingPool.SparesAreNewest | src/BackingPool.cpp:584-594 | no backing of the active class that leaves holds newer contents than one that stays as a spare |
| BackingPool.SparesCounted | src/BackingPool.cpp:584-594 | as many spares stay as the configuration keeps, or all there are |
| BackingPool.BackingPool.FindBound | src/BackingPool.cpp:421-437 | the unpinned free backing of the class bound longest ago, first of its kind on the free list; none exactly when there is none or that one was pinned meanwhile |
| BackingPool.SomeLongest | src/BackingPool.cpp:421-437 | while some backing of the class is unpinned, one of them was bound longest ago |
| BackingPool.NearRankIsNearer | src/BackingPool.cpp:372-378 | the rank orders as the source compares: at or below the preferred epoch first, the highest first, then those past it, the lowest first |
| BackingPool.BackingPool.Allocate | src/BackingPool.cpp:505-536 | a new backing under the class limit, with a new generation, counted by the gauges |
| BackingPool.BackingPool.ReleaseBacking | src/BackingPool.cpp:461-473 | one backing leaves both lists, and the gauges follow |
| BackingPool.SortNear | src/BackingPool.cpp:372-378 | nearest first: at or below the preferred epoch, highest first, then those past it, lowest first |
| BackingPool.Choose | src/BackingPool.cpp:393-411 | the first that can be claimed, and what follows it past the spares |
| GrowthPolicy.Next | include/ORGModuleServices/GrowthPolicy.h:28-43 | the doubling loop and the headroom branch make what the specification says, in 64 bits |
| GrowthPolicy.DoubledIsLeast | include/ORGModuleServices/GrowthPolicy.h:37-42 | doubling reaches the base doubled the fewest times that hold the need |
| GrowthPolicy.DoublingThrowsExactly | include/ORGModuleServices/GrowthPolicy.h:37-42 | it throws exactly when no doubled base within 64 bits holds the need |
| GrowthPolicy.NextDoubles | include/ORGModuleServices/GrowthPolicy.h:28-43 | what is held stays when it suffices; else Doubling makes exactly what is held, or one, doubled the fewest times that hold the need, if 64 bits hold that |
| GrowthPolicy.HeadroomKeeps | include/ORGModuleServices/GrowthPolicy.h:28-36 | Headroom keeps what suffices too, and past it makes nothing of the former capacity |
| GrowthPolicy.NextHolds | include/ORGModuleServices/GrowthPolicy.h:28-43 | a made capacity is at least the need, the minimum and what is held |
| GrowthPolicy.SmallPercent | include/ORGModuleServices/ElasticCapacity.h:73-73 | the split percentage is the exact one for percentages up to 100 |
| GrowthPolicy.HeadroomExact | include/ORGModuleServices/GrowthPolicy.h:32-35 | Next makes the need plus its exact percentage, or throws past 64 bits, if and only if that percentage fits 64 bits or what it wraps to still does not fit on top of the need |
| GrowthPolicy.HeadroomMayWrap | include/ORGModuleServices/GrowthPolicy.h:32-35 | a concrete headroom past 64 bits that wraps instead of throwing |
| GrowthPolicy.NextAs | include/ORGModuleServices/GrowthPolicy.h:45-50 | a capacity past its type throws |
| ElasticCapacity.ShrinkWindow.Observe | include/ORGModuleServices/ElasticCapacity.h:69-92 | one ask moves the window and decides the shrink as specified |
| ElasticCapacity.Capacity.Fit | include/ORGModuleServices/ElasticCapacity.h:100-115 | a fit moves capacity and window as specified |
| ElasticCapacity.FitHolds | include/ORGModuleServices/ElasticCapacity.h:99-115 | after a fit the capacity holds the need; it says whether it moved; it grows only past the need |
| ElasticCapacity.EveryShrinkHolds | include/ORGModuleServices/ElasticCapacity.h:69-92 | over any run of asks a shrink closes a whole window of low asks of that run, long and many enough, at a smaller capacity that holds each of them |
| ElasticCapacity.DueExactly | include/ORGModuleServices/ElasticCapacity.h:50-56 | a window is due exactly when a low ask no larger than its peak would close it now, but for a policy of one observation on an unopened window and a count that wraps at 32 bits |
| ElasticCapacity.SaturatedIsNeverDue | include/ORGModuleServices/ElasticCapacity.h:50-56 | a concrete window seen 2^32 - 1 times that is due at no time, though past its settle time the next low ask shrinks the capacity |
| ElasticCapacity.SaturatedIsReached | include/ORGModuleServices/ElasticCapacity.h:69-92 | that window is reached from a new capacity by one ask of 8 and 2^32 - 1 of 1 |
| ElasticCapacity.UnopenedIsNotDue | include/ORGModuleServices/ElasticCapacity.h:50-56 | a concrete unopened window that is due at no time, though its policy of one observation lets the very next ask shrink the capacity |
| ElasticCapacity.EveryWindow | include/ORGModuleServices/ElasticCapacity.h:69-92 | over any run of asks from a new capacity the window is its open run of low asks: peak, count and start |
| ElasticCapacity.NoThrash | include/ORGModuleServices/ElasticCapacity.h:12-22 | after a Doubling shrink with a threshold of at most half, no run of asks between the peak and the new capacity moves it again |
| ElasticCapacity.ShrinkSettles | include/ORGModuleServices/ElasticCapacity.h:86-91 | every Doubling shrink leaves a capacity that NoThrash is about |
| GrowableBufferTypes.UnitsHeld | include/ORGModuleServices/GrowableBufferTypes.h:22-30 | a version holds some units exactly when it has the bytes for them |
| GrowableBufferTypes.MadeHolds | include/ORGModuleServices/GrowableBufferTypes.h:31-40 | what is made for some units, rounded to whole elements, holds at least them |
| GrowableBufferTypes.ElementsRoundUp | include/ORGModuleServices/GrowableBufferTypes.h:31-34 | whole elements hold the bytes asked, and less than one more is made |
| GrowableBufferTypes.MadeIsLeast | include/ORGModuleServices/GrowableBufferTypes.h:31-40 | what is made is the least that holds the bytes asked: whole elements, or those bytes |
| GrowableBufferTypes.MergedIsBoth | include/ORGModuleServices/GrowableBufferTypes.h:67-82 | a merged requirement is met exactly when both are |
| GrowableBufferTypes.NewerIsNewer | include/ORGModuleServices/GrowableBufferTypes.h:67-82 | a demand for a newer version is never met by that version and always by a later one |
| GrowableBufferTypes.AgedKeepsItsSize | include/ORGModuleServices/GrowableBufferTypes.h:67-82 | a version that is only too old is made again at its size |
| GrowableBufferTypes.SmallGrows | include/ORGModuleServices/GrowableBufferTypes.h:67-82 | one that is too small grows, under Doubling, to its size or the minimum doubled the fewest times that hold the need |
| GrowableBufferSlots.SettledBatchMeetsItsAsks | src/GrowableBufferSet.cpp:224-243 | a batch that settled ready meets every ask it covered of the buffers that live on |
| GrowableBufferSlots.MetNeverWaits | src/GrowableBufferSet.cpp:339-395 | a seal with nothing unmet neither waits nor is refused |
| GrowableBufferSet.SealsOnceSettled | src/GrowableBufferSet.cpp:224-435 | a pending seal's batch, made as asked and taken in, lets the same requirements seal without another batch, though buffers expired and time passed meanwhile; what is then named meets them |
| GrowableBufferSet.GrowableBufferSet.ShrinkPending | src/GrowableBufferSet.cpp:437-443 | asks for a new seal exactly when something changed, a batch settled, or with none a slot's window is due |
| GrowableBufferSlots.NotDueNotShrunk | src/GrowableBufferSet.cpp:437-443 | a slot whose open window is not due is shrunk by no ask up to its peak |
| GrowableBufferSet.GrowableBufferSet.Seal | src/GrowableBufferSet.cpp:339-435 | whether it names, waits, is refused or throws is decided exactly by what is unmet, in flight, postable and accepted; a sealed set names exactly the newest versions and blocks and meets every requirement of every live buffer; it is the very same object while nothing changed, else a new one under a new serial; a batch in flight is never replaced; a pending seal's batch covers exactly what is unmet; a sealed set leaves a shrink batch exactly when a living buffer's window closed and it is accepted, and each window is what the unmet and the asked make of it |
| GrowableBufferSet.GrowableBufferSet.Shrink | src/GrowableBufferSet.cpp:375-395 | each asked window moves by its ask once, and exactly the living buffers whose windows close are asked smaller in one batch, which there is exactly when there are such and it is accepted |
| GrowableBufferSet.GrowableBufferSet.Name | src/GrowableBufferSet.cpp:410-435 | the same set again while nothing changed, else a new one under the next serial, of exactly the newest versions and blocks |
| GrowableBufferSet.GrowableBufferSet.Settle | src/GrowableBufferSet.cpp:224-243 | exactly the batch's slots settle, each once, under a new serial; a batch in flight stays |
| GrowableBufferSet.GrowableBufferSet.Begin | src/GrowableBufferSet.cpp:245-256 | the slots are what the registrations and then the settled batch make of them, with exactly the expired buffers forgotten; the latches are the registered ones |
| GrowableBufferSet.GrowableBufferSet.Post | src/GrowableBufferSet.cpp:258-337 | one batch in flight carries exactly the asks whose buffers live, none when none does, and each slot notes what it was asked; a rejected batch leaves no ask; it throws exactly at an ask that cannot be posted |
| GrowableBufferSet.GrowableBufferSet.FitLatches | src/GrowableBufferSet.cpp:396-409 | every asked latch has a block of its layout with room; only asked latches that lacked one are made anew; it throws exactly at the first ask that names no latch or passes 32 bits; nothing changes when all had room |
| DetectCycle.StateGraph.DetectCycle | include/ORGModuleServices/Async/Detail/StateGraphImplementation.h:1753-1818 | returns a closed path of mandatory edges through the node exactly when there is one, whatever visit marks earlier searches left |
| DetectCycle.StateGraph.FailCycle | include/ORGModuleServices/Async/Detail/StateGraphImplementation.h:1830-1845 | every node of the cycle fails once, no other is touched, and the count rises by how many there are |
| DetectCycle.StateGraph.FailAnyCycle | include/ORGModuleServices/Async/Detail/StateGraphImplementation.h:2129-2129 | exactly the nodes of one mandatory cycle through the node fail, once each, when there is one, and nothing when there is none; afterwards every such cycle has a failed node on it |
| DetectCycle.NoneFound | include/ORGModuleServices/Async/Detail/StateGraphImplementation.h:1789-1817 | a search that ended without an edge back proves there is no cycle |
| DetectCycle.TrailCloses | include/ORGModuleServices/Async/Detail/StateGraphImplementation.h:1795-1810 | the parent links from a key with an edge back close a genuine cycle |

## Left out

- GPU uploads, copies and tickets: a byte write lands at once, in queue order; so a cancelled upload is not modelled either, except as a `Discard` of the journaled set.
- Weak memory orderings: every atomic is sequentially consistent, one atomic operation a step.
- The state graph other than `DetectCycle` and `FailCycle`: requests, successors, aliases, pins, reclamation, tracing, the waiter-edge index and the state counters.
- Pool destruction with outstanding leases, the `exclusive` hook, what a publisher of a journaled set must wait for under `reuseBound` (it does not look), and several acquirers between a failed `Acquire` and its subscription.
- `NotifyAfter` and delayed generations of the task pump, and the overflow of its 62-bit epoch.
- A second `Initialize` of a journal against the same pool, and pools shared by several chains: `JournalRun` and `PredecessorRun` are one chain each.
- Builds without a captured image that write a version (replayed from a snapshot or a predecessor): `VersionedBufferBuild.Build` and `VersionedBufferReplay.Replay` have them, but no run of `JournalRun` does, because what they show is not the journal's image.
- 64-bit overflow of byte products (`elementCount * elementStride`, extents, `dirtyBytes * 2`): these are unbounded. Growth, shrink windows and percentages are 64-bit.
- `ChooseClass` and the replacement capacity of a build: the lease says which class it has.
- The order of equal offsets in a sort: any order the source may pick gives the same result here, so one is modelled.
- The addresses, shader views, lease handles and failure strings of a growable set's entries; a latch is its stride and layout.
- Shaders, pipelines, traces, file caches, library loading and content hashes.
- JournalRun.BackingsHoldTheirEpoch: assumes that no `ReplaceImage` of the run shrinks the image, and that a build that skips its upload has a backing that shows its image already; without either it fails, and `JournalRun.RightExactlyWhileClean` is the exact condition for the versions of a run.
- JournalRun.VersionsAreTheirImages: the same assumptions.
- JournalRun.CatchUpNeverRunsOff: the same assumptions; a range past a shrunk image fails the build or, where the source's unsigned difference wraps and the read leaves its page, ends as `ReadPastPage`.
- Availability.NoWakeIsLost: excludes the backings that slipped past an `Acquire` between its two readings, for which it fails; `Availability.MissesExactlyWhatSlipped` and `Availability.StrandedExactly` say exactly when. A backing that a readback pin held back is woken for by the clock's next tick only, because the pin's release tells nobody.
- PredecessorRun.PublishedIsRight: assumes that `changedSince` covers every byte that differs, and a write sequence names one contents.
- Availability.StrandedExactly: from the second reading to the subscription only the acquirer steps; with other threads' steps there as well, `Availability.StrandedIsLost` and `Availability.MissesExactlyWhatSlipped` say together what strands a waiter.
- RetirementClock.FinishesAlone: for points in 64 bits, as the source's are; the other theorems of the clock ask no bound.
- BackingPool.BackingPool.Acquire: one step against the other threads' steps; a consumer that pins a backing between the acquirer's look and its claim is a parameter (`late`), and `PinClaim` and `Availability` have the interleaving itself.
- JournaledSetRefinement.PartIsSteps: by the publisher alone, as is `JournaledPublication.PublishIsSteps`; `JournaledInterleaving.PublishesTheSame` has the other threads' steps in between, except that they release no head the publisher appends into and use none of its new handles' names.
- JournaledPublication.PublishIsSteps: what each part's pool hands out is given; `JournaledLease.LeasePart` says what it is.
- JournalRefinement.BuildIsAStep: builds from a captured image only; `JournalRefinement.GpuBuildIsAStep` has those the GPU writes.
- VersionedBufferBuild.Build: asks that no page of an image is longer than a page, as the image's own documentation says; short and missing ones are allowed. `VersionedBufferBuild.GatherSegments` asks the same.
- PredecessorRefinement.BuildIsAStep: the host's promise about `changedSince` is asked for; that a sequence names one contents is the condition of its if-and-only-if.
