# Verification of the remote heap map and its workflow runtime

This project models two systems that share one repository and proves properties of the models with Dafny.

**The dmerge kernel module.** A producer process registers the heap that starts at an address: the chain of VMAs
from that address is selected, the present pages of each VMA are written into a compact table of
(32-bit offset, physical address) entries, the descriptor is serialised into a buffer, and the buffer is filed
under a fresh hint. A consumer on another machine asks for the buffer of a hint, reads the bytes with a one-sided
READ, decodes them into a page table and from then on serves page faults from it, after prefetching some pages if
asked to. Modelled here: the codec, the selection and the walk, the translation from producer to consumer, the
registry and the id counter, all interleavings of all machines' calls, the locks, the fault path, the batched
reads and the eager prefetch.

**The serverless workflow runtime.** A fan-in barrier joins the events of one workflow; on top of it run a
word-count pipeline (split, map, reduce), profiles that are reduced and averaged, and a bundler for
hyper-parameters. The barrier code is the same in all the sample applications and is modelled once. Two small
neighbours are included: the bump allocator of the Rust sample, and the normaliser of GID texts.

## Layout

| file | content |
|---|---|
| `Words.dfy` | words, bytes, the option type |
| `Sequences.dfy` | flattening and mapping sequences |
| `Descriptor.dfy` | heap descriptor, writer, plain reader, fused reader, alignment |
| `ShadowHeap.dfy` | VMA-chain selection and the page-table walk |
| `Translation.dfy` | agreement of consumer lookups with producer page tables |
| `Kernel.dfy` | the state of one machine and what each call does to it |
| `Protocol.dfy` | runs of all machines, and the life of hints |
| `Delivery.dfy` | what pulls deliver over all runs, and what the delivered heap then does |
| `SyscallHandler.dfy` | the objects updated in place, tied to `Kernel` |
| `RemotePaging.dfy` | pages, the send queue, single reads, faults |
| `BatchRead.dfy` | batched reads under every outcome |
| `EagerFetch.dfy` | the prefetch and `apply_to`, seen through the consumer's page table |
| `EagerLazy.dfy` | eager and lazy pulls compared, and the pages an eager one loses |
| `Barrier.dfy` | the fan-in barrier, as a run and as a shared dictionary of lists |
| `WordCount.dfy` | splitter, mapper, reducer, and the pipeline end to end |
| `Profile.dfy` | reducing, averaging, end-to-end time |
| `Bundler.dfy` | bundles for the trainers |
| `ExtentAllocator.dfy` | the bump allocator and its runs |
| `Gid.dfy` | the GID normaliser |

## Assumptions about code outside the repository

The `mitosis` crate is not part of this model. Taken as given:

- The producer's serialiser writes exactly the layout that the reader of this repository accepts; registers, VMA
  records and RDMA descriptors are copied byte for byte, their sizes are multiples of 8, and a VMA record starts
  with its two bounds.
- Dropping bytes from a cursor that has too few yields nothing, so a short buffer makes the reader return nothing.
- The consumer's page table is a map keyed by page; a physical address goes through it unchanged.
- The VMA iterator yields non-empty, sorted, disjoint, page-aligned ranges below 2^64, and the walk calls back once
  per page in rising order.
- The buffer pool never hands out a buffer that a registered heap sits in, and its buffers are large enough for the
  descriptors written to them. A buffer whose heap is gone may be overwritten by anything.
- Each registry operation is atomic; the source takes no lock around its hash map.
- An answer of zero bytes to a Query cannot be decoded.
- `vm_insert_page` refuses an address that already has a page; page allocation succeeds, and a page that was freed is
  not handed out again.
- READs posted on one send queue complete in the order they were posted, and only signalled ones leave a completion. A
  wait takes the oldest completion; from then on that READ and all posted before it are known to be done. All batches
  of one call go to the send queue of the CPU it runs on, and the call stays there. What the single read of a page
  fault tells about READs of earlier batches is not used: modes are compared at the moment the pull returns.
- The system-call boundary cuts a result to a C int and reports results from -4095 to -1 as errors.
- READs and RPCs may fail at any time; failures are parameters. Panicking paths (a READ that times out, a missing
  caller, an exhausted target pool) are left out.
- In the workflows, the mappers of one workflow run with distinct numbers (an unset one defaults to zero), and one
  process holds the dictionary of the barrier.
- Nothing write-protects the producer's pages, so data is claimed equal to the producer's frames at read time only.

## What was found

- Translation agrees at every address **exactly** when no present page lies 4 GiB or more into its VMA, because the
  offset is cut to 32 bits; it agrees for every content exactly when each VMA spans at most 2^32 bytes.
  Otherwise a far page can also take the place of a near one: of the present pages of a VMA with the same 32-bit offset
  the consumer sees the last, under the address of the first.
- A READ that happens after its hint is gone may deliver another heap under the old hint; while the hint is
  registered it never does.
- A register-remote whose RPC fails leaves its temporary hint registered for ever.
- The buffer of the eager prefetch is filled once and never cleared: only the first twelve pages of a VMA are ever
  inserted, and the same twelve are read once more for every page from the twelfth on. A successful prefetch keeps
  the pages of the reading that inserted them; the pages of all other readings stay allocated without any entry
  pointing at them. It loses none **exactly** when nothing of the prefix is mapped, or the VMA has fewer
  than twelve pages and none of those read was there before.
- Only the last request of a batch is awaited, so a page may still be under way when its batch returns; it is known to
  be there once a later batch of the same call is awaited. An eager pull is indistinguishable from a lazy one, whatever the remote
  memory holds, **exactly** when each page it brings belongs to a VMA from which on some VMA's last prefetched address
  is mapped, the first pulled heap to map that page maps it to the same frame, and no earlier call left READs
  under way that this one completes.
- A hint reaches the consumer unchanged **exactly** below 2^32 - 4095 from C and below 2^31 from Python; beyond 2^32 a
  C caller asks for an earlier id and gets that one's heap.
- `fill_gid` is idempotent **exactly** when no group is negative: of a negative group's `-0x` it keeps the `x`. Empty
  groups, as in the compressed form of an address, raise.
- In the Query handler the reply with `ready` false is unreachable: an unknown key returns zero bytes before it.
  The model follows the code.
- A comment on the page-table generator says that entries outside the heap range are filtered out; the code only
  filters pages that are not present. The model follows the code.
- The RPC reducer computes the merged counts and returns the last event without them; the theorem is about the
  counts it computes.
- The bump allocator never returns the very last byte of its range, and a request whose end wraps around 2^64 can be
  granted and move the heap top back.

## Model

| member | source | states |
|---|---|---|
| Descriptor.Deserialize | dmerge/src/descriptors/heap.rs:298-370 | the cursor loops compute the fused reading of any buffer, refusing the same short ones |
| Descriptor.DeserializeTable | dmerge/src/descriptors/heap.rs:326-359 | page count, optional pad and entries of one VMA go into the page table as they are read |
| Descriptor.DecodeIsTwoStage | dmerge/src/descriptors/heap.rs:326-359 | on every byte string, accepted or not, the copy-free reader equals reading compact tables first and mapping them afterwards |
| Descriptor.RoundTrip | dmerge/src/descriptors/heap.rs:298-370 | for any number of VMAs and any page counts, reading what was written returns registers, VMAs, per-VMA tables and machine info and leaves exactly what follows |
| Descriptor.EncodingIsPrefixFree | dmerge/src/descriptors/heap.rs:298-370 | two descriptors whose bytes start alike are equal |
| Descriptor.AcceptedBuffers | dmerge/src/descriptors/heap.rs:298-370 | whatever is accepted is well-formed and exactly as long as its written form and the rest |
| Descriptor.RecordsAligned | dmerge/src/descriptors/heap.rs:319-346 | every VMA record and page count starts on an 8-byte boundary of the written bytes |
| Descriptor.TrailerAligned | dmerge/src/descriptors/heap.rs:362-362 | so does the RDMA descriptor at the end |
| Descriptor.PadIsNeeded | dmerge/src/descriptors/heap.rs:340-346 | without the pad word the boundary is kept exactly for even page counts |
| Descriptor.HeaderBytes | dmerge/src/descriptors/heap.rs:304-319 | the written bytes begin with the registers and the 8-byte number of VMAs |
| Descriptor.EntryBytes | dmerge/src/descriptors/heap.rs:348-359 | entry j of table i is found at its place in the written bytes: four bytes of offset, then eight of physical address |
| Words.ByteOf | dmerge/src/descriptors/heap.rs:348-359 | byte i of a written word is its i-th digit to base 256, the lowest first |
| Words.DigitRead | dmerge/src/descriptors/heap.rs:348-359 | reading a word gives back each byte as that digit |
| ShadowHeap.ChainIsEmpty | dmerge/src/shadow_heap/heap.rs:36-46 | nothing is selected exactly when no VMA holds the base |
| ShadowHeap.ChainIsMaximalRun | dmerge/src/shadow_heap/heap.rs:33-46 | from the VMA that holds the base, exactly the maximal gap-free run is selected, and nothing after the first gap |
| ShadowHeap.NewShadowHeap | dmerge/src/shadow_heap/heap.rs:23-84 | the selection loop and the table loop build the descriptor of that chain |
| ShadowHeap.GenerateTable | dmerge/src/shadow_heap/vma.rs:76-103 | the table holds, in order, one entry for every page of the VMA whose frame is present and none for any other: its distance from the start modulo 0x1_0000_0000, and that very frame |
| Translation.TranslationAgreement | dmerge/src/shadow_heap/vma.rs:96-101 | register, write, read: lookups agree with the producer's page tables at every address if and only if no present page is 4 GiB into its VMA |
| Translation.ConsumerPages | dmerge/src/shadow_heap/vma.rs:96-101 | for all contents, page by page: in the page table decoded from the registered bytes, a page holds the frame of the last present page of its VMA with the same 32-bit offset, and nothing when there is none |
| Translation.NearPagesArrive | dmerge/src/shadow_heap/vma.rs:96-101 | in a VMA without present pages 4 GiB in, the consumer's table has a page exactly when the producer has it present, with the same frame |
| Translation.FarPageTakesPlace | dmerge/src/shadow_heap/vma.rs:96-101 | a concrete VMA of 4 GiB and a page in which the far page's frame is found under page 0 |
| Translation.SafeSpans | dmerge/src/descriptors/heap.rs:10-11 | this holds for all page contents exactly when every selected VMA spans at most 2^32 bytes |
| Translation.ShadowIsWellFormed | dmerge/src/shadow_heap/heap.rs:74-83 | what registration builds always fits the layout |
| Kernel.IdsRepeat | dmerge/src/id_generator.rs:14-19 | two allocations give the same id exactly when a multiple of 0x1_0000_0000_0000_0000 allocations lies between them |
| Kernel.HintSurvivesUserSpace | dmerge-user-libs/include/syscall.h:14-34 | a hint returned as int and passed back as unsigned int names the same id exactly below 2^32 - 4095 from C and 2^31 from Python, and beyond 2^32 an earlier one |
| Protocol.RunKeeps | dmerge/src/core_syscall_handler.rs:89-221 | every interleaving of calls on all machines keeps the invariant, ids only grow, and a hint is gone or names what it always named |
| Protocol.OpenHintsResolve | dmerge/src/core_syscall_handler.rs:104-111 | in every reachable state an open file's hint resolves and differs from other open files' hints |
| Protocol.ClosedHintsStayGone | dmerge/src/core_syscall_handler.rs:32-39 | a closed file's hint never resolves again in any run |
| Protocol.HintsAreNew | dmerge/src/core_syscall_handler.rs:104-111 | a registration never hands out an id issued before on its machine |
| Protocol.RegisterAnswers | dmerge/src/core_syscall_handler.rs:104-111 | the number a registration answers is the id the file then holds and resolves there; the first time it is new and names the serialised bytes, later it is the one held |
| Protocol.RegisterAnswersOverRuns | dmerge/src/core_syscall_handler.rs:104-111 | the same in every reachable state |
| Protocol.RegisterTwice | dmerge/src/core_syscall_handler.rs:104-111 | registering again on a file returns the same hint and changes nothing |
| Protocol.PushInProgress | dmerge/src/core_syscall_handler.rs:400-454 | whatever else runs, a register-remote in progress holds a hint that was new and resolves, and it can end |
| Protocol.PushLifecycle | dmerge/src/core_syscall_handler.rs:400-495 | over every run around a successful register-remote: its hint did not resolve before, never resolves again after, its end takes no other hint away, and hints issued before keep their meaning |
| Protocol.PushRestoresRegistry | dmerge/src/core_syscall_handler.rs:400-495 | with any opens, queries, reads and buffer reuse in between, a successful register-remote restores every registry |
| Protocol.FailedPushLeaks | dmerge/src/core_syscall_handler.rs:454-489 | a failed one leaves its hint resolvable in every later state |
| Protocol.UnknownQuery | dmerge/src/rpc_service.rs:171-181 | a query for a hint that is not registered starts no pull and changes nothing |
| Protocol.FailedPullChangesNothing | dmerge/src/core_syscall_handler.rs:288-356 | a pull whose READ, access info or decoding fails changes no file and no machine |
| Delivery.LiveBytesAreStable | dmerge/src/shadow_heap/mod.rs:94-136 | over any run the bytes behind a hint that is still live are those it was registered with |
| Delivery.DeliveryIsExact | dmerge/src/core_syscall_handler.rs:288-356 | a pull whose READ happens while the hint is registered appends exactly the registered descriptor |
| Delivery.DeliveryOverRuns | dmerge/src/core_syscall_handler.rs:288-356 | the same for every run from the start |
| Delivery.RegisterThenPull | dmerge/src/core_syscall_handler.rs:104-111 | pulling by the number that a first registration answered, as passed on by a C caller and while it is registered, delivers the registered heap, whatever ran in between |
| Delivery.PullsAgree | dmerge/src/core_syscall_handler.rs:288-356 | two such pulls of one (machine, hint), at any points of a run, deliver the same heap |
| Delivery.LateReadDeliversAnotherHeap | dmerge/src/rpc_service.rs:171-201 | once the hint is gone, any equally long heap registered into the freed buffer is delivered instead |
| Delivery.LateReadHappens | dmerge/src/rpc_service.rs:171-201 | such a state is reached: in every layout there is a run from the start in which a hint queried for one heap delivers a different one |
| Delivery.PulledHeapTranslates | dmerge/src/descriptors/heap.rs:110-114 | from registration to lookup across machines: a pulled heap translates as the producer does, under the exact 4 GiB condition |
| Delivery.PulledHeapServes | dmerge/src/core_syscall_handler.rs:515-557 | from registration to page fault across machines: faults in the shared VMAs get the producer's frame or are fatal where it has none, under the same exact condition |
| Delivery.DeliveryThroughC | dmerge-user-libs/include/syscall.h:14-34 | a pull by the hint a C caller was given delivers the heap of that id below 2^32, and an earlier id's heap beyond |
| SyscallHandler.IdFactory.AllocOneId | dmerge/src/id_generator.rs:14-19 | the counter wraps at 2^64 and the new value is returned |
| SyscallHandler.ShadowHeapService.RegisterHeap | dmerge/src/shadow_heap/mod.rs:111-136 | the heap is built, its bytes are written to the buffer and filed under the key |
| SyscallHandler.ShadowHeapService.Unregister | dmerge/src/shadow_heap/mod.rs:124-126 | only that key leaves the registry |
| SyscallHandler.HandleQueryRpc | dmerge/src/rpc_service.rs:171-201 | address and length of a registered heap and ready, no decodable reply for an unknown key |
| SyscallHandler.DmergeSyscallHandler.IoctlRegister | dmerge/src/core_syscall_handler.rs:104-111 | machine, file and result move as the register step does; the result is the hint the file then holds and the registry has it |
| SyscallHandler.DmergeSyscallHandler.SyscallRmap | dmerge/src/core_syscall_handler.rs:260-372 | for every outcome the lock is taken and released once, the heap list grows by the decoded heap exactly when the result is 0, and that heap is applied before; a failed or lazy pull touches no page |
| SyscallHandler.ServingMachineAnswers | dmerge/src/rpc_service.rs:171-201 | what a machine answers to the query for a heap it has filed, with the READ of the buffer it names, is accepted and decodes to that heap |
| SyscallHandler.PullFrom | dmerge/src/core_syscall_handler.rs:260-372 | query handler, READ and pull joined: a pull by a hint with a filed heap returns 0 and appends exactly that heap, one by an unknown hint or without access returns -1 and changes nothing |
| SyscallHandler.DmergeSyscallHandler.SyscallRegisterRemoteHeap | dmerge/src/core_syscall_handler.rs:400-495 | the lock brackets the RPC on every exit, the machine moves as begin and end of a push do, and the RPC carries address, length and machine of the buffer filed |
| SyscallHandler.DmergeSyscallHandler.PageFault | dmerge/src/core_syscall_handler.rs:515-557 | the fault handler over the pulled heaps of this file |
| SyscallHandler.DmergeSyscallHandler.Close | dmerge/src/core_syscall_handler.rs:32-39 | closing unfiles the private hint |
| RemotePaging.ReadRemotePage | dmerge/src/descriptors/heap.rs:119-146 | a page is kept exactly when the address is mapped and the read succeeds, and none leaks otherwise |
| RemotePaging.HandlePageFault | dmerge/src/core_syscall_handler.rs:515-557 | the page comes from the earliest heap that maps the address and reads, the fault is fatal exactly when there is none, and one page more is live exactly when it is served |
| RemotePaging.ServesOnlyReachable | dmerge/src/core_syscall_handler.rs:520-538 | a fault is never served from a heap without access info, without the page, or whose read fails, and from none only when all are such |
| RemotePaging.ServedIsFirstFrame | dmerge/src/core_syscall_handler.rs:520-538 | on a healthy network the data are those of the frame in the first heap that has the page |
| RemotePaging.PullOrderIsIrrelevant | dmerge/src/core_syscall_handler.rs:520-538 | with disjoint heaps and successful reads the data served depends neither on pull order nor on repeated pulls |
| BatchRead.BatchReadRemotePages | dmerge/src/descriptors/heap.rs:194-283 | for every outcome of posts and wait: one slot per address in order, empty exactly for unmapped ones and a last one whose wait fails; every page allocated sits in one slot or is freed; exactly the READs up to the completion it polled have arrived |
| BatchRead.BatchExplained | dmerge/src/descriptors/heap.rs:194-283 | the same in terms of descriptor and remote memory: which addresses get a page, that pages are distinct, new and the only ones added, and whose data have arrived |
| EagerFetch.FetchBatch | dmerge/src/descriptors/heap.rs:169-179 | put into the page table, a batch brings each page that was not there and loses the page it read for each that was, under every outcome |
| EagerFetch.EagerFetchVma | dmerge/src/descriptors/heap.rs:150-191 | visible pages, READs under way and lost pages are those of reading the first twelve addresses once per batch, under every outcome of every batch |
| EagerFetch.ApplyTo | dmerge/src/descriptors/heap.rs:49-106 | a lazy apply changes no page; an eager one prefetches VMA by VMA over one send queue, under every outcome |
| EagerLazy.PrefetchFresh | dmerge/src/descriptors/heap.rs:150-191 | in numbers, on an empty view: page i of the VMA becomes visible exactly for i < 12, below its end and mapped; n >= 12 pages take n - 10 reads, fewer take one, none takes none |
| EagerLazy.EagerEqualsLazy | dmerge/src/descriptors/heap.rs:213-265 | every address reads the same under either mode, for all remote memories, if and only if each page brought is awaited by its own VMA or a later one and mapped alike by the first heap to map it, and no READ of an earlier call is completed |
| EagerLazy.EagerEqualsLazyOn | dmerge/src/descriptors/heap.rs:213-265 | the same for one remote memory, where it is enough that the data agree |
| EagerLazy.PrefetchLeak | dmerge/src/descriptors/heap.rs:160-191 | how many pages a successful prefetch of a VMA loses, and exactly when it loses none |
| EagerLazy.ApplyLeak | dmerge/src/descriptors/heap.rs:49-80 | a whole eager apply loses none exactly when no mapped VMA does |
| Barrier.BarrierRefines | exp/wordcount/app.py:91-120 | for every arrival sequence and threshold, batches and waiting events of a (stage, workflow) are its arrivals in order, and batches have exactly the threshold's size |
| Barrier.FiringCount | exp/wordcount/app.py:112-120 | n arrivals are k for each batch fired plus fewer than k left waiting, so batches and rest are the quotient and remainder of n by k |
| Barrier.EventsInOrder | exp/wordcount/app.py:102-112 | the arrivals of a (stage, workflow) are its events at rising positions of the arrival sequence, each once and none else |
| Barrier.NoInterference | exp/wordcount/app.py:102-110 | arrivals of other stages and workflows change neither batches nor waiting events |
| Barrier.UpstreamInfo.HandleReduce | exp/wordcount/app.py:91-120 | with lists shared through the shallow copy, one call moves the dictionary as one arrival does, and the list it returns is no longer reachable |
| WordCount.SplitLines | exp/wordcount/functions.py:54-64 | exactly one chunk per mapper, full ones first, whose concatenation is the input; no chunk for a negative number, an error for zero |
| WordCount.CountWords | exp/wordcount/functions.py:173-182 | the dictionary holds exactly the words of the lines, each with the sum over all lines of its occurrences there |
| WordCount.CountIsByLine | exp/wordcount/functions.py:173-182 | counting all words is counting line by line: keys are the words that occur in some line, counts the sums over the lines |
| WordCount.MergeCounts | exp/wordcount/functions.py:292-300 | the result is the key-wise sum, in whatever order dictionaries are walked |
| WordCount.FiresOnceExactly | exp/wordcount/app.py:112-120 | a fan-in fires once and leaves nothing exactly when the threshold is its size |
| WordCount.DistributedEqualsSequential | exp/wordcount/functions.py:330-334 | for any text, mapper count, arrival order and interleaving with other workflows the reducer fires once, and what it merges holds each word of the file with the sum of its occurrences over all lines |
| Profile.ReduceProfile | exp/wordcount/util.py:22-31 | category by category, the sum over all stages |
| Profile.EndToEndTime | exp/wordcount/functions.py:377-380 | when each stage time is the sum of its stage, the reduced stage time is the sum of all other reduced categories |
| Profile.WordCountProfile | exp/wordcount/functions.py:377-399 | in every word-count run the report is the reduction of all stages with the times they were given, and its stage time is the sum of all other categories and of all times given |
| Profile.AddTicks | exp/wordcount/app.py:53-62 | the runtime entry grows by the sums of all hops |
| Profile.OneHop | exp/wordcount/app.py:53-62 | one hop adds each of its three times under its own category |
| Profile.ClosingTwice | exp/wordcount/functions.py:165-166 | computing a stage time a second time breaks this unless the stage took no time at all |
| Profile.CombineModels | exp/ml-pipeline/functions.py:439-462 | the nested loops compute the stage-wise average over the workers |
| Profile.AverageAt | exp/ml-pipeline/functions.py:439-462 | each entry of the average is the workers' total of that entry divided by the divisor |
| Profile.AverageThenReduce | exp/ml-pipeline/functions.py:439-462 | averaging and then reducing equals reducing each and then averaging |
| Bundler.PostHandle | exp/ml-pipeline/functions.py:171-209 | consecutive bundles of ceil(L/m) triples in three lockstep lists, numbered from one, holding a prefix of the list; single triples for negative m, an error for zero |
| Bundler.BundlePerTriple | exp/ml-pipeline/functions.py:189-206 | with a negative number of trainers each triple is a bundle and none is dropped |
| Bundler.BundlesHoldTriples | exp/ml-pipeline/functions.py:190-206 | place j of bundle i holds, list by list, the three numbers of triple i * size + j |
| Bundler.BundleCount | exp/ml-pipeline/functions.py:190-206 | L div ceil(L/m) bundles, L mod ceil(L/m) triples dropped, at most m bundles and exactly m just when m divides L |
| ExtentAllocator.AllocatorMaster.ExtentAlloc | samples/knative/rust/helloworld-rust/src/allocator.rs:148-175 | the hook's arithmetic on 64-bit words; a refusal changes nothing |
| ExtentAllocator.GrantIsSafe | samples/knative/rust/helloworld-rust/src/allocator.rs:161-174 | a granted extent lies inside the free part of the heap exactly when the request does not wrap around, and then at the least aligned address |
| ExtentAllocator.RefusedExactly | samples/knative/rust/helloworld-rust/src/allocator.rs:165-168 | when a request that does not wrap is refused |
| ExtentAllocator.GrantsAreInside | samples/knative/rust/helloworld-rust/src/allocator.rs:148-175 | over any run each extent is aligned, inside the heap and at the least possible address |
| ExtentAllocator.GrantsAreDisjoint | samples/knative/rust/helloworld-rust/src/allocator.rs:148-186 | no two extents of a run overlap |
| ExtentAllocator.TopBounds | samples/knative/rust/helloworld-rust/src/allocator.rs:161-170 | what is used up is at most the granted sizes and alignment slack |
| Gid.FillGid | exp/wordcount/util.py:34-40 | the nested loops compute the normal form of all groups, or raise exactly when some group is no hexadecimal number to Python |
| Gid.FilledGroups | exp/wordcount/util.py:34-40 | the result has as many groups, and each that is not negative has the value it had, whatever its spelling |
| Gid.FilledCharacters | exp/wordcount/util.py:34-40 | without negative groups the result is lower-case hex digits and colons, and between the colons are the groups' values in at least four digits |
| Gid.Spellings | exp/wordcount/util.py:34-40 | prefix, sign, spaces, underscore and either case are read as Python reads them |
| Gid.RefusedSpellings | exp/wordcount/util.py:34-40 | the empty group, a bare prefix, misplaced underscores and other characters are refused |
| Gid.FilledTwice | samples/python/function.py:24-34 | normalising twice is normalising once exactly when no group is negative |
| Gid.FilledLength | dmerge/src/core_syscall_handler.rs:142-153 | sixteen-bit groups give 39 characters exactly for eight groups |
| Gid.HexGroupsFill | samples/python/function.py:24-34 | groups of one to four hex digits are accepted, normalised idempotently, and give 39 characters exactly for eight groups |

## Left out

- SyscallRmap: the Query and the READ are outcomes given to it; `Protocol` ties them to the other machine.
- SyscallRegisterRemoteHeap: the remote side is reduced to the constant it answers, as the source does not apply the heap there.
- Deserialize: reading past the end of a short buffer is modelled as the refusal that follows it.
- ApplyTo: VMA flags are not modelled; the outcome of mapping a VMA is a parameter.
- HandleReduce: the threshold is a parameter of each call, not an environment variable; events that are empty or no dictionary, which the caller rejects, do not arrive.
- CountWords: the pattern that finds words in a lower-cased line is a parameter.
- SplitLines: `math.ceil` of a floating-point quotient is taken as the exact ceiling.
- PostHandle: the floating-point quotient is taken as the exact one.
- FillGid: texts are ASCII; Python's `int` also reads digits and spaces of other scripts.
- ExtentAlloc: zeroing the granted memory is not modelled; alignment zero divides by zero in the source; the hooks that free or split extents opt out and change nothing.
- ReduceProfile: entries of a profile that are not dictionaries are never summed and are not modelled.
- RDMA queue pairs, keys, address handles, session ids and time-outs: foreign library code.
- Connecting sessions and reading the machine id: pass-through to foreign code.
- Shared memory by key-value store and by remote heap in the word-count stages: there mappers share one key, and the reduction is commented out.
- The profile total of the finra application: its stage time is computed twice, see `Profile.ClosingTwice`.
- HTTP, pickling, storage clients, machine-learning code, build and deployment scripts: input and output only.
