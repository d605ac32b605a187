# Verification model of the virtual GPU core

The repository turns the machines of a local network into one virtual GPU. An application's calls reach a
server that keeps the virtual VRAM, splits kernel launches over the workers, sends them tasks over a stream
and merges what comes back; workers find the server by multicast DNS. This project models the parts of it
that carry algorithms, state or a wire format, in Dafny, and proves properties of the model.

| files | model of |
|---|---|
| `Scheduler.dfy` | `vgpu/scheduler/split.go`: the worker table and the proportional, group-aligned split |
| `Kernels.dfy` | `cmd/worker/engine/fallback.go`: matmul, vector_add and transpose on an offset sub-range |
| `Decimal.dfy`, `DnsName.dfy`, `DnsMessage.dfy`, `Discovery.dfy`, `DiscoveryRoundTrip.dfy`, `DiscoveryWire.dfy` | `pkg/discovery/mdns.go`: names, TXT, SRV and A records and whole responses, printed and parsed (sections 3.1, 3.3.14, 4.1.3 and 4.1.4 of RFC 1035, RFC 2782, section 6 of RFC 6763) |
| `VramSpec.dfy`, `Vram.dfy`, `BufferFill.dfy` | `vgpu/mem/vram.go` and the fill handler of `vgpu/server/ipc_server.go` |
| `Numbering.dfy`, `Engine.dfy`, `Binding.dfy` | numbering by counting, engine buffers and their ids; how a message's arguments become engine buffers and kernel arguments |
| `LocalLaunch.dfy`, `FloatKernels.dfy`, `KernelLaunch.dfy` | `executeLocally`, and launches of matmul, vector_add and transpose on the floats of VRAM buffers |
| `TempBuffers.dfy` | `executeLocallyVKWithBuffers` and the buffers a Vulkan or CUDA message brings along |
| `KvCacheSpec.dfy`, `KvCache.dfy` | `vgpu/mem/kvcache.go` |
| `CmdQueue.dfy` | `vgpu/queue/cmdqueue.go` |
| `Session.dfy`, `Dispatch.dfy`, `WorkerLink.dfy` | worker sessions, `dispatchViaGRPC`, and the way of a message to the worker's cache |
| `MonitorSpec.dfy`, `Monitor.dfy`, `Orchestrator.dfy` | `vgpu/monitor/workers.go` with the callbacks of `vgpu/main.go` and the stream handlers |
| `SlotTable.dfy` | the command buffer states of `vk_layer/distribox_vk_layer.c` |
| `Common.dfy`, `Arithmetic.dfy` | shared types and a few facts about products and division |

Objects that the source updates in place are classes and its loops are loops. Each such method is proved
against a function on plain values, and the theorems are about those functions, over every run of steps where
the source is concurrent. Worker scores are reals; float32 addition and multiplication are arbitrary functions,
so equalities between kernel results are bit for bit; Go strings are byte sequences where their bytes matter.

Where the code does less than it says, the model follows the code and a lemma gives the exact condition:

- The top-up enlarges the first subtask without moving the others, so ranges overlap unless nothing was left
  over or there is one subtask (`Scheduler.TopUpTilesIff`; `Scheduler.LeftoverOverlaps` is a split where they do).
- A split between n equal workers of group size g fails exactly when 2*total < n*(2g-1) (`Scheduler.EqualWorkersFailIff`).
- A row range of a matmul without an explicit K infers K from its own row count. It is refused unless that happens
  to be the right one, which is exactly if (m - size)*k < size (`Kernels.InferredInnerDimIff`).
- The comment at `cmd/worker/engine/fallback.go:275` allows a one-dimensional NDRange for matmul; the code indexes
  the second dimension and panics, as transpose does (`Kernels.ExecuteMatMul`, `Kernels.ExecuteTranspose`). The
  default global size of a local launch has one dimension (`KernelLaunch.MatMulNeedsTwoDimensions`).
- A label of 192 to 255 bytes is printed but not read back (`DnsName.NameRoundTripIff`).
- A name resolves exactly if its pointers come back to no place they have already led to (`DnsName.ResolvesIff`), and
  parsing a message never returns exactly if its record loop comes to one that does not (`Discovery.ParseMDNSResponse`).
- Allocating a live id again leaks its bytes: over a run nothing leaks, and the counter is the sum of the live sizes,
  exactly if no granted allocation names a live, non-empty buffer (`VramSpec.LeaksIff`, `VramSpec.CounterIsLiveIff`).
- The bounds tests of Write and Read wrap, and then slicing panics (`Vram.VRAMManager.Write`, `Vram.VRAMManager.Read`).
- A fill that crosses the end of its buffer drops the piece that crosses, and still answers ok
  (`BufferFill.FillCompleteIff`); an empty pattern never ends, and a size next to 2^64 starts the fill over
  (`BufferFill.HandleBufferFill`).
- A split with more dimensions than sizes panics, unless no worker has a score above zero (`Scheduler.Scheduler.Split`).
- A new engine buffer is numbered by counting the live ones, and may be given the id of one of them. Several new ones
  keep their ids to themselves exactly if all but the last find their number free (`Engine.AllOwnIff`); from the first
  taken number on they share one id, which names the last of them (`Binding.SharedPosition`).
- A buffer that a launch names twice is copied twice and only the last copy is written back and released. The
  numbers stay without gaps exactly if the superseded copies were made first (`Binding.LaunchGaplessIff`), and if not,
  a launch of as many buffers again has no copies of its own (`LocalLaunch.SecondHasRoomIff`). Theorems about launches
  in a row carry that condition; C = A * A that passes C first is a run that goes wrong
  (`KernelLaunch.SecondSquareSeesOnlyA`).
- A failed local launch keeps its engine copies for good (`LocalLaunch.ExecuteLocally`).
- A message buffer written at an offset other than zero stays in VRAM, a granted one takes an application's buffer of
  its id away, and the output of a refused one can be written over it (`TempBuffers.TemporariesReturnIff`).
- A result counts exactly if it arrives while its subtask's waiter waits and has none yet: earlier and later ones are
  dropped (`Dispatch.DeliveryCountsIff`; over runs `Dispatch.CarriedIff` and `Dispatch.UnawaitedChangesNothing`).
- Completing a queue's last pending command by `UpdateStatus` leaves a waiter blocked with nothing pending, and
  reopening a completed one can break the promise to a waiter that may return (`CmdQueue.UpdateStatusStrands`). Over
  every run the queues are right exactly if each update meets a guard that can be read before it
  (`CmdQueue.SignalsRightIff`, `CmdQueue.QueuesAreRightIff`).
- A worker that recovers by a heartbeat alone gets no work (`MonitorSpec.RecoveryIsNotEnough`), and an offline one
  that reports its capability does (`MonitorSpec.OfflineCanBeListed`). What counts is whether it registered or reported
  since the end of its stream or the check that removed it (`MonitorSpec.ScheduledIff`).
- A capability report that arrives after the end of the worker's stream leaves a scheduled worker that nobody
  watches, and nothing else does (`MonitorSpec.RunIsWatchedIff`).

## Model

| member | source | states |
|---|---|---|
| Scheduler.AlignDownIsLargest | vgpu/scheduler/split.go:221-228 | rounding down to a group size loses no smaller multiple: every multiple of g below the value stays below the result |
| Scheduler.Scheduler.RegisterWorker | vgpu/scheduler/split.go:68-70 | adds or replaces exactly the entry under the worker's id |
| Scheduler.Scheduler.RemoveWorker | vgpu/scheduler/split.go:73-75 | removes exactly that worker's entry |
| Scheduler.Scheduler.GetActiveWorkers | vgpu/scheduler/split.go:78-90 | lists every idle or busy worker once, by descending score, and nobody else |
| Scheduler.Scheduler.TotalCapability | vgpu/scheduler/split.go:93-99 | is the score sum of any such listing, whatever order ties come in |
| Scheduler.ActiveListsAgree | vgpu/scheduler/split.go:78-99 | any two listings of the active workers have the same score sum, so the unstable sort does not matter to the total |
| Scheduler.Scheduler.SplitNDRangeForWorkers | vgpu/scheduler/split.go:112-122 | no workers is an error; otherwise the result is the split with the sum of the given scores |
| Scheduler.Scheduler.SplitNDRange | vgpu/scheduler/split.go:124-132 | the same over some listing of the active workers |
| Scheduler.Scheduler.HandOut | vgpu/scheduler/split.go:157-204 | the worker loop builds exactly the subtasks of the recursive share list and ends at the sum of their sizes |
| Scheduler.Scheduler.NextItems | vgpu/scheduler/split.go:163-185 | rounding, aligning and the remaining-work check give worker i exactly the next share of that list, or skip it, or end the list |
| Scheduler.Scheduler.Split | vgpu/scheduler/split.go:135-217 | the whole splitNDRange equals the specification: axis, group size, shares, top-up, both errors, and the panic on an index outside the global size; each error and the panic are also said by their own conditions |
| Scheduler.SharesShape | vgpu/scheduler/split.go:163-204 | before the top-up the shares start at 0, follow each other without gap, are positive multiples of the group size and fit the axis |
| Scheduler.ConsecutiveCovers | vgpu/scheduler/split.go:163-204 | each point of the handed out part lies in exactly one share |
| Scheduler.SplitShape | vgpu/scheduler/split.go:135-217 | every success: other axes and local size unchanged, sizes on the split axis sum to exactly the global size, later ranges untouched by the top-up, twice the leftover at most n*(2g-1), and the ranges tile the axis if and only if nothing was left over or there is one subtask |
| Scheduler.SplitIsAligned | vgpu/scheduler/split.go:150-214 | every success in the task's own local size: with one on the split axis every offset there, and every size but the topped-up one, is a whole multiple of it, and twice the leftover at most n*(2*localSize[dim]-1); without one the same bound with 1 |
| Scheduler.SharesAreDue | vgpu/scheduler/split.go:163-185 | who is served: workers in list order, each with the most whole groups that its portion, rounded to an item, holds, the last one perhaps cut at the end of the axis; whoever is passed over is due no group or finds less than a group left |
| Scheduler.SplitIsDue | vgpu/scheduler/split.go:135-217 | so every subtask of a success names such a worker and is its share, the first one perhaps topped up |
| Scheduler.TopUpTilesIff | vgpu/scheduler/split.go:206-210 | the enlarged first range and the others tile [0, total) if and only if the leftover was zero or there is a single subtask |
| Scheduler.LeftoverOverlaps | vgpu/scheduler/split.go:135-217 | two equal workers, five items, groups of two: the split gives [0,3) and [2,4), so item 2 is computed twice and item 4 by nobody |
| Scheduler.LeftoverBound | vgpu/scheduler/split.go:163-210 | for n workers with non-negative scores and group size g, twice the leftover is at most n*(2g-1) |
| Scheduler.SplitFailsIff | vgpu/scheduler/split.go:112-122 | the split fails exactly when every worker's exact portion is below g - 1/2; never once 2*total >= n*(2g-1), so never once total >= n*g |
| Scheduler.EqualWorkersFailIff | vgpu/scheduler/split.go:163-214 | that bound is sharp: equal workers get nothing exactly when it is missed |
| Kernels.ExecuteMatMul | cmd/worker/engine/fallback.go:277-358 | the error cases in their order; with all buffers, a panic if and only if the global size has fewer than two dimensions or the sizes pass and some index leaves a buffer, and then exactly the cells before the first that does not fit are written; otherwise, for three buffers, each cell of the range holds the sum of the products of its row of A and its column of B, added to zero from the left, and every other cell is unchanged. If C is A or B, each cell is computed from what the cells before it left |
| Kernels.ApartIsCells | cmd/worker/engine/fallback.go:346-355 | for three buffers computing cell after cell in place gives the product of the original A and B |
| Kernels.DotIsEntry | cmd/worker/engine/fallback.go:349-352 | a cell's value is a left fold of addition from zero over the list of the products a[row*K+t] * b[t*N+col], all of them read in bounds |
| Kernels.RangeIsProduct | cmd/worker/engine/fallback.go:346-355 | in C exactly the cells of the range hold such entries, and every other cell is as it was |
| Kernels.IdentityKeepsB | cmd/worker/engine/fallback.go:346-355 | for any addition and multiplication with the unit and zero laws, an A that is the identity leaves B's entries in C |
| Kernels.InnerDimIs | cmd/worker/engine/fallback.go:296-317 | K is the argument unless that is missing or zero; then whole rows of A, and if A has fewer floats than rows, whole columns of B |
| Kernels.StatusIs | cmd/worker/engine/fallback.go:318-337 | the first failing check in the order K, C, A, B decides the error, and the kernel runs if and only if none fails |
| Kernels.InBoundsIff | cmd/worker/engine/fallback.go:346-355 | every read and write of a range stays inside its buffer if and only if three products of the range's end fit the buffers' lengths |
| Kernels.InferredInnerDimIff | cmd/worker/engine/fallback.go:296-321 | with buffers that hold exactly A and B and no K argument, a range of `size` of m rows infers the right K if and only if (m - size)*k < size; any other range is refused because B is too small |
| Kernels.DotProduct | cmd/worker/engine/fallback.go:349-352 | the inner loop computes that sum, and leaves a buffer if and only if its last term does |
| Kernels.RunRowsCell | cmd/worker/engine/fallback.go:346-355 | after any sequence of ranged runs on the same buffers a cell holds the product's entry if some range covers its row, and is unchanged otherwise |
| Kernels.TiledRunsAreWhole | cmd/worker/engine/fallback.go:346-355 | ranges that tile the rows compute exactly the unsplit product |
| Kernels.SplitMatMul | cmd/worker/engine/fallback.go:277-358 | running the kernel once per subtask of a row split: every run passes its checks and stays in bounds, covered rows equal the whole-matrix run and the rest of C is unchanged; without leftover, or with one subtask, the result is the unsplit one |
| Kernels.CoveredPrefix | vgpu/scheduler/split.go:206-210 | after the top-up the rows covered are a prefix: the shares' or the enlarged first one's, whichever is longer |
| Kernels.ExecuteVectorAdd | cmd/worker/engine/fallback.go:240-272 | an empty global size panics, a missing buffer is an error; otherwise it adds the items of the sub-range and leaves the others, or panics, exactly when an index leaves a buffer, with the items before that index added |
| Kernels.AddLoop | cmd/worker/engine/fallback.go:265-269 | the loop, whose guard bounds i and not offset + i, on buffers of any length, which may be the same array |
| Kernels.AddedIs | cmd/worker/engine/fallback.go:248-269 | with or without a panic item j of C is the sum of A's and B's if and only if it is in the range and in both buffers; the loop runs to its end if and only if the range starts at 0, is empty or lies in all three |
| Kernels.AddSubRange | cmd/worker/engine/fallback.go:248-269 | on equal buffers a sub-range adds exactly its own items; given the whole count instead, every later sub-range leaves the buffer |
| Kernels.ExecuteTranspose | cmd/worker/engine/fallback.go:528-569 | a missing buffer is an error; with both buffers it panics if and only if the global size has fewer than two dimensions; otherwise the output is the mirrored matrix for the shape the code infers, or for one buffer what copying it cell by cell onto itself leaves |
| Kernels.ShapeIs | cmd/worker/engine/fallback.go:538-552 | the shape is the global size; without columns the explicit ones; without either, or without rows, the input is one column |
| Kernels.TransposedCell | cmd/worker/engine/fallback.go:558-566 | cell (i, j) of the input stands in cell (j, i) of the output |
| Kernels.CopyMirrored | cmd/worker/engine/fallback.go:558-566 | the loop nest copies cell after cell where source and target exist; with two buffers each target gets the mirrored element and every other cell keeps its own |
| Kernels.EachCellOnce | cmd/worker/engine/fallback.go:558-566 | each of the rows*cols output cells is written at exactly one (i, j) |
| Kernels.TransposeInvolution | cmd/worker/engine/fallback.go:528-569 | a second run with swapped dimensions restores the input matrix; cells past it never change |
| Decimal.ScanOfPrint | pkg/discovery/mdns.go:395-400 | a printed number scans back to itself if and only if it is below 2^64, whatever other than a digit follows it; a longer one is no number |
| Decimal.PrintDigits | pkg/discovery/mdns.go:162 | the digits in base ten: the last is what whole tens leave, the others print the whole tens |
| Decimal.ValueMore | pkg/discovery/mdns.go:397 | a further digit makes a scanned value ten times as large, plus the digit |
| DnsName.EncodeDNSName | pkg/discovery/mdns.go:311-322 | the loop over split parts is the length-prefixed list of the non-empty labels with a root byte |
| DnsName.ParseDNSName | pkg/discovery/mdns.go:459-483 | the loop and the pointer recursion agree with the independently written scanner, name and next offset, at any bound on the recursion's depth; all reads in bounds |
| DnsName.NameEnds | pkg/discovery/mdns.go:459-483 | the name ends with a zero byte, or with a pointer: two set bits and the offset's other fourteen, high ones first |
| DnsName.NameRoundTripIff | pkg/discovery/mdns.go:311-322 | between any other bytes an encoded name of labels of 1 to 255 bytes parses to itself and the offset past it if and only if every label has at most 191 |
| DnsName.BackwardResolves | pkg/discovery/mdns.go:459-483 | if every pointer leads before the name it ends, the recursion ends within offset steps |
| DnsName.ResolvesIff | pkg/discovery/mdns.go:459-483 | the recursion ends if and only if the pointers never come back to a place they have already led to |
| DnsName.EnoughIff | pkg/discovery/mdns.go:459-483 | and then within as many pointers as the message has bytes |
| DnsName.SelfPointerNeverResolves | pkg/discovery/mdns.go:466-478 | without that condition it need not end: a name that is a pointer to itself resolves at no depth |
| DnsName.DnsNameToString | pkg/discovery/mdns.go:439-457 | the loop joins the labels that stand in the encoded name |
| DnsName.TextOfEncodedName | pkg/discovery/mdns.go:439-457 | the text of an encoded name is its non-empty labels joined by dots |
| DnsMessage.EncodeTXT | pkg/discovery/mdns.go:324-334 | length byte and text per entry, cut at 255 |
| DnsMessage.ParseTXT | pkg/discovery/mdns.go:485-504 | the map of the key/value entries that stand in the data, up to the first incomplete one |
| DnsMessage.EntriesRoundTrip | pkg/discovery/mdns.go:324-334 | entries of at most 255 bytes are read back as they were written |
| DnsMessage.PairsRoundTrip | pkg/discovery/mdns.go:485-504 | for distinct keys without an equals sign the parsed map holds exactly the written pairs |
| DnsMessage.BuildRR | pkg/discovery/mdns.go:336-346 | name, type, class, TTL, length and data in this order, copied into place, each number with its high byte first |
| DnsMessage.RecordBytes | pkg/discovery/mdns.go:336-346 | every byte of a record: after the name two bytes of type, two of class, four of TTL and two of the data's length, each number in base 256 with the high byte first |
| Discovery.BuildResponse | pkg/discovery/mdns.go:133-210 | the twelve header bytes 0 0 132 0 0 0 0 4 0 0 0 0, then the PTR, SRV, TXT and A records of the device with the types 12, 33, 16 and 1, class 1 and TTL 120 |
| Discovery.AnswersAdvertise | pkg/discovery/mdns.go:186-207 | the four records byte by byte: name, type, class, TTL and data of each, with the port in bytes 4 and 5 of the SRV data, high byte first |
| DiscoveryWire.FixedNames | pkg/discovery/mdns.go:26 | the service type, the suffix, the default name and the two hosts that do not count, as texts |
| DiscoveryWire.ServiceNameBytes | pkg/discovery/mdns.go:170 | the service name on the wire is 10 _distribox 4 _tcp 5 local 0 |
| DiscoveryWire.HostNameIs | pkg/discovery/mdns.go:139-143 | the host name is the device's with hyphens for spaces, or distribox |
| DiscoveryWire.TxtTexts | pkg/discovery/mdns.go:154-166 | the seven texts ver, role, name, arch, os, gpu and mem in order, and an eighth, token, if there is one |
| Discovery.CollectRecords | pkg/discovery/mdns.go:362-415 | on all bytes the record loop computes what the recursive reading of the records computes, which is nothing if it meets a name that never resolves |
| Discovery.NextRecord | pkg/discovery/mdns.go:369-414 | one turn of the loop: stop, or a record's effect and an offset further on and inside the message |
| DiscoveryWire.HeaderFields | pkg/discovery/mdns.go:378-384 | type and data length are read from two bytes each, high byte first |
| DiscoveryWire.TxtRead | pkg/discovery/mdns.go:387-398 | a TXT record counts if it has a version, and sets each field to the value under its own key; a number that cannot be scanned leaves the memory size |
| DiscoveryWire.SrvRead | pkg/discovery/mdns.go:399-405 | an SRV record of at least six bytes sets the port to its bytes 4 and 5, high byte first, and files its target under the record's name |
| DiscoveryWire.ARead | pkg/discovery/mdns.go:406-412 | an A record of at least four bytes files the text of its four numbers in order, separated by dots |
| DiscoveryWire.OthersIgnored | pkg/discovery/mdns.go:386-412 | no other type changes anything |
| Discovery.RecordsEndIff | pkg/discovery/mdns.go:369-414 | the loop never ends if and only if it comes to a record name or an SRV target whose pointers run in a circle |
| Discovery.PickHost | pkg/discovery/mdns.go:416-428 | some collected host that is an IP address, or unknown if there is none, in any map order |
| Discovery.ParseMDNSResponse | pkg/discovery/mdns.go:362-436 | on all bytes: it never returns if and only if the loop meets a name whose pointers run in a circle; otherwise record loop, host choice and the final filter together; a device it returns has a version, a name and for a host an IP address other than 127.0.0.1 |
| Discovery.FinishedIsUsable | pkg/discovery/mdns.go:416-435 | a device is returned if and only if it has a version and a name and the host picked is a collected IP address, neither unknown nor 127.0.0.1 |
| DiscoveryRoundTrip.BackwardMessageParses | pkg/discovery/mdns.go:362-415 | on every byte string whose pointers lead backward all names resolve and the record loop runs to its end |
| DiscoveryRoundTrip.AnswersRead | pkg/discovery/mdns.go:133-210 | reading the advertised answers collects exactly the advertised device, SRV target and address |
| DiscoveryRoundTrip.ResponseRoundTrip | pkg/discovery/mdns.go:362-436 | parsing the response after its 12-byte header gives back role, name, arch, OS, GPU flag, RAM, token, port and the A record's host, whatever host the map yields first; nothing exactly for an empty name or 127.0.0.1 |
| VramSpec.RunConserves | vgpu/mem/vram.go:81-167 | over every run TotalAllocated equals, modulo 2^64, the live sizes plus the sizes of buffers whose id was allocated again, and every HostPtr has length Size |
| VramSpec.AllocateIs | vgpu/mem/vram.go:95-119 | the sum modulo 2^64 against the limit decides; both counters become that sum and the id's buffer is all zeros; a refusal changes nothing |
| VramSpec.ReleaseIs | vgpu/mem/vram.go:122-135 | a release drops the buffer and takes its size, modulo 2^64, off both counters; a missing id changes nothing |
| VramSpec.ExactIff | vgpu/mem/vram.go:95-119 | the counter is exact as long as, and only as long as, the true sum fits a uint64 |
| VramSpec.ReleaseNeverUnderflows | vgpu/mem/vram.go:122-135 | releasing a live buffer subtracts no more than the counter holds |
| VramSpec.RunExactAndBounded | vgpu/mem/vram.go:81-135 | over every run without 64-bit overflow the counter is exact and at most the larger of the limit and its value at the last UpdateSpec |
| VramSpec.ReallocationLeaks | vgpu/mem/vram.go:95-135 | from any state, allocating a live id again and releasing it drops the buffer and leaves the first buffer's bytes counted |
| VramSpec.LeaksIff | vgpu/mem/vram.go:81-167 | over every run nothing leaks if and only if no granted allocation names a live, non-empty buffer |
| VramSpec.CounterIsLiveIff | vgpu/mem/vram.go:81-167 | over every run without 64-bit overflow the counter ends as the sum of the live sizes if and only if that holds |
| VramSpec.EmptyCountsLeaks | vgpu/mem/vram.go:81-167 | in particular, once every buffer is released the counter is zero if and only if nothing leaked |
| Vram.VRAMManager.UpdateSpec | vgpu/mem/vram.go:81-85 | replaces limit and use and touches no buffer |
| Vram.VRAMManager.Allocate | vgpu/mem/vram.go:95-119 | granted if and only if the wrapped sum is within the limit; then a fresh zeroed buffer replaces the id's, and counters move; refused leaves everything |
| Vram.VRAMManager.Release | vgpu/mem/vram.go:122-135 | drops the buffer and its size from the counters, or reports it missing and changes nothing |
| Vram.VRAMManager.Get | vgpu/mem/vram.go:138-147 | succeeds if and only if the id is mapped |
| Vram.VRAMManager.Write | vgpu/mem/vram.go:150-167 | overwrites exactly the given range and marks the buffer dirty, if and only if the range fits; a range whose end wraps into the buffer panics, any other is refused; every other buffer keeps its bytes |
| Vram.VRAMManager.Read | vgpu/mem/vram.go:170-191 | for every uint64 offset and size: the bytes of the range, size zero meaning the rest, or the error, or the panic when the end wraps into the buffer or nothing is left to read |
| Vram.WrittenIsRead | vgpu/mem/vram.go:150-191 | a range that was written reads back as the data, and a range before or behind it as it was; no other buffer changes |
| BufferFill.HandleBufferFill | vgpu/server/ipc_server.go:315-332 | for every uint64 offset and size: a missing buffer is the only error; an empty pattern for a non-empty range never ends; a panic if and only if the piece with the last addressable byte exists and its end wraps into the buffer; the fill starts over if and only if the counter passes 2^64 before the range ends; otherwise all pieces of the pattern are written in order, refusals ignored |
| BufferFill.PieceAt | vgpu/server/ipc_server.go:323-329 | where a piece goes once its offset wraps: past the buffer's end, unless a piece before it has panicked |
| BufferFill.FilledBytes | vgpu/server/ipc_server.go:323-329 | byte by byte the pattern repeats over the range, except in a piece that does not fit the buffer; nothing else changes |
| BufferFill.FillReaches | vgpu/server/ipc_server.go:323-329 | the final buffer: the bytes of the whole pieces that lie in it hold the repeated pattern, and every other byte, those of the crossing piece included, keeps its value |
| BufferFill.FillCompleteIff | vgpu/server/ipc_server.go:323-329 | in the final buffer every byte of the range that the buffer has is the pattern's if and only if the range lies inside, or starts past the end, or a piece ends where the buffer does, or the bytes left behind were the pattern's already |
| Engine.BufNameInjective | cmd/worker/engine/fallback.go:77-78 | different counts give different ids |
| Engine.MakesOneMore | cmd/worker/engine/fallback.go:73-88 | the next buffer gets the number that counting the live ones gives, whatever numbers are live |
| Numbering.GivenAre | cmd/worker/engine/fallback.go:77-78 | the numbers of several new buffers: new ones in order up to the first that is taken, which is then given to all the rest |
| Engine.SharedIff | cmd/worker/engine/fallback.go:77-78 | two new buffers share an id if and only if the number of the first was already taken |
| Engine.OwnIff | cmd/worker/engine/fallback.go:73-88 | a new buffer is the one its id names if and only if its number was free or it was made last |
| Engine.AllOwnIff | cmd/worker/engine/fallback.go:73-88 | all of them are if and only if all numbers but the last one's were free |
| Numbering.GaplessIff | cmd/worker/engine/fallback.go:107-111 | from numbers 1 to k, making some buffers and releasing some of them leaves no gap if and only if those that stay were made before those that go |
| Numbering.AgainIff | cmd/worker/engine/fallback.go:73-111 | and exactly then as many buffers again, or more, find room |
| Engine.GoEngine.CreateBuffer | cmd/worker/engine/fallback.go:73-88 | a fresh buffer of the size with the data, cut or padded with zeros, filed under the count plus one |
| Engine.GoEngine.ReleaseBuffer | cmd/worker/engine/fallback.go:107-111 | removes exactly the buffer's id |
| Engine.GoEngine.ReadBuffer | cmd/worker/engine/fallback.go:98-105 | the bytes of the range, or nothing past the size |
| Engine.GoEngine.ExecuteNDRange | cmd/worker/engine/fallback.go:198-237 | for a kernel that is any function: it works on what the argument ids resolve to; its results land in those buffers, an error changes none. `FloatKernels.RunNamed` says which functions the named kernels are |
| Binding.SlotsArePlaced | cmd/worker/engine/fallback.go:159-190 | each buffer position holds a copy that was made, and no copy has two positions, even where ids repeat |
| Binding.BindCopy | vgpu/server/ipc_server.go:637-651 | an engine buffer with the bytes under the counted id; it is filed under the argument's id in place of any earlier copy, and its position names it |
| Binding.SeesSources | vgpu/server/ipc_server.go:624-664 | where every copy keeps its id, the kernel's operands are exactly the copied bytes, position by position |
| Binding.SharedPosition | vgpu/server/ipc_server.go:624-664 | on any engine: a position is bound to its own copy if that was made before the first taken number was given, and otherwise to the last copy of all |
| Binding.RunKernel | vgpu/server/ipc_server.go:693-698 | on success every copy holds the kernel's bytes for its position, or its own if it lost its position |
| Binding.Cleanup | vgpu/server/ipc_server.go:712-715 | releases the ids of all filed copies and no others, in any map order |
| Binding.ReleasedAre | vgpu/server/ipc_server.go:712-715 | those are exactly the ids of the last copies |
| Binding.CleanupLeaves | vgpu/server/ipc_server.go:712-715 | after it exactly the superseded copies are left of the launch, and every buffer that was there before is as it was |
| Binding.LaunchGaplessIff | vgpu/server/ipc_server.go:712-715 | a success leaves ids numbered from 1 without gaps so if and only if the superseded copies of repeated arguments were made before all others |
| Binding.DistinctRepeatNothing | vgpu/server/ipc_server.go:712-715 | with pairwise distinct ids that holds and nothing is left |
| Binding.OrderMatters | vgpu/server/ipc_server.go:624-664 | arguments y, y, x leave no gap; x, y, y leave one |
| Binding.LaunchAgainIff | cmd/worker/engine/fallback.go:77-78 | and exactly then the engine has room for as many copies again, or for more |
| LocalLaunch.BindBuffer | vgpu/server/ipc_server.go:637-651 | a VRAM buffer's bytes are read whole and bound as a copy; VRAM is untouched |
| LocalLaunch.BindArgs | vgpu/server/ipc_server.go:624-664 | on success each argument position names the copy of its own VRAM buffer; failure means a buffer is missing, and exactly the buffers before the first missing one were copied; VRAM is untouched |
| LocalLaunch.WriteBack | vgpu/server/ipc_server.go:700-710 | searching the map by identity, the last copy of each buffer argument is written whole to its VRAM buffer and to no other, once or again |
| LocalLaunch.ExecuteLocally | vgpu/server/ipc_server.go:617-726 | for any arguments, repeated buffers included, and any engine with room for the copies, the launch equals a plain function on VRAM in which engine buffers do not occur: success if and only if all buffers exist and the kernel answers, failure leaves VRAM untouched; a failure strands the copies it made, a success the superseded ones |
| LocalLaunch.RangeGiven | vgpu/server/ipc_server.go:666-682 | the range the kernel gets: the given one, from zeros without an offset; without a size one dimension of a quarter of the first buffer's bytes |
| LocalLaunch.LaunchDelivers | vgpu/server/ipc_server.go:617-726 | the kernel's answer for a position arrives in the VRAM buffer that position names, unless a later argument names that buffer again; then the last copy's result does |
| LocalLaunch.LaunchTouchesArguments | vgpu/server/ipc_server.go:617-726 | buffers that are no arguments are byte-identical afterwards; arguments keep size, flags and type |
| LocalLaunch.HandleLaunches | vgpu/server/ipc_server.go:93-111 | launches handled one after another change VRAM as the plain functions composed, if each finds room, and leave the engine the numbers that the run says |
| LocalLaunch.GaplessRunIff | vgpu/server/ipc_server.go:617-726 | a run from ids without gaps meets no gap if and only if every launch but the last fails or makes its superseded copies first |
| LocalLaunch.TidyHasRooms | vgpu/server/ipc_server.go:617-726 | and then every launch of it finds room |
| LocalLaunch.NoRepeatsIsTidy | vgpu/server/ipc_server.go:617-726 | launches that pass no buffer twice are such a run |
| LocalLaunch.SecondHasRoomIff | vgpu/server/ipc_server.go:617-726 | after a success a launch of as many present buffers or more finds room if and only if the success made its superseded copies first |
| LocalLaunch.LaunchesConserve | vgpu/server/ipc_server.go:617-726 | over any such run ids, sizes, limit and counters stay, conservation holds, and buffers no launch names are unchanged |
| FloatKernels.NamedKeepsSizes | cmd/worker/engine/fallback.go:198-237 | the kernels chosen by name answer with one byte string per operand of its size, as the launch theorems ask |
| FloatKernels.RunNamed | cmd/worker/engine/fallback.go:198-358 | running the loops of the kernel with that name on the operands' floats gives exactly the answer of the function that the launch theorems speak of, and none where it fails or panics |
| FloatKernels.NamedIs | cmd/worker/engine/fallback.go:205-225 | the name chooses the kernel: vector_add and transpose go by their own names |
| FloatKernels.MatMulNames | cmd/worker/engine/fallback.go:208 | matmul goes by matmul, matrix_mul and gemm and by no other name |
| FloatKernels.Int32Signed | cmd/worker/engine/fallback.go:1074-1079 | an int32 argument is two's complement with the low byte first, and 0 if it has fewer than four bytes |
| FloatKernels.BuffersNeeded | cmd/worker/engine/fallback.go:240-292 | without a buffer at one of its positions a kernel gives no answer |
| FloatKernels.AddedAnswer | cmd/worker/engine/fallback.go:240-272 | vector_add answers if and only if its range starts at 0, is empty or lies in all three buffers, and then with exactly the sums of the range |
| FloatKernels.TransposeAnswer | cmd/worker/engine/fallback.go:528-569 | transpose leaves its input as it was and the input mirrored in the output's floats |
| FloatKernels.FloatsOfWith | cmd/worker/engine/fallback.go:1083-1088 | floats written through the view of a buffer are the floats the view reads, and the rest of up to three bytes is not touched |
| KernelLaunch.MatMulLaunch | vgpu/server/ipc_server.go:617-726 | a launch of matmul leaves the product on its range of C's VRAM buffer and every byte of all other buffers as it was, or, if the kernel does not finish, the whole VRAM; A, B and C may be one buffer; for three buffers every cell of the range is the sum of products that `Kernels.DotIsEntry` speaks of |
| KernelLaunch.MatMulNeedsTwoDimensions | vgpu/server/ipc_server.go:666-674 | without a given global size, or with one of one dimension, it never finishes |
| KernelLaunch.VectorAddLaunch | vgpu/server/ipc_server.go:617-726 | the same for vector_add, whose default size is the first buffer's float count; what it leaves in the range is A[j] + B[j] |
| KernelLaunch.TransposeThereAndBack | vgpu/server/ipc_server.go:617-726 | two launches of transpose with swapped sizes, the first making its superseded copies first, both find room and bring the matrix back, into its own buffer or another |
| KernelLaunch.SubsHaveRoomIff | vgpu/server/ipc_server.go:617-726 | launches of any row ranges one after another all find room if and only if there is at most one or the arguments make their superseded copies first |
| KernelLaunch.RangesLaunched | vgpu/server/ipc_server.go:617-726 | under that condition, on one VRAM: each cell of C in a covered row is the product's, no other byte changes, and if the ranges tile the rows C is what one launch over all of them leaves |
| KernelLaunch.CoveredIsEntry | cmd/worker/engine/fallback.go:346-355 | each such cell is the sum of the products of its row of A and its column of B |
| KernelLaunch.SplitLaunches | vgpu/scheduler/split.go:135-217 | so for the subtasks of every split of a matmul by rows: all of them find room and run, and whenever the split tiles the axis the unsplit product is left |
| KernelLaunch.SquareMultiplies | vgpu/server/ipc_server.go:617-726 | arguments C, A, A, K = 1 ask for the product A * A in C |
| KernelLaunch.SquareLeavesGap | vgpu/server/ipc_server.go:617-726 | they do not meet the condition, and the next three copies all get one number |
| KernelLaunch.SecondSquareSeesOnlyA | vgpu/server/ipc_server.go:617-726 | so when the same launch comes again all three positions, C's too, are bound to A's copy, which is the only buffer the kernel can write |
| TempBuffers.WriteBuffersToVRAM | vgpu/server/ipc_server.go:866-899 | skips undecodable and refused buffers, writes the others, returns the ids that were written; a panic if and only if the end of a granted buffer's write wraps, and then the buffers up to that one are allocated |
| TempBuffers.CleanupVRAMBuffers | vgpu/server/ipc_server.go:901-905 | releases the listed ids in order, ignoring missing ones |
| TempBuffers.ExecuteLocallyVKWithBuffers | vgpu/server/ipc_server.go:963-1075 | on any engine with room for the copies: arguments by position, the marked outputs or all buffers, each read from the last copy under its id and written to VRAM; the cleanup of VRAM follows on both paths, and the engine keeps what a local launch would; a panic while writing comes before anything else |
| TempBuffers.ComputeAnswers | vgpu/server/ipc_server.go:1005-1026 | every output is a buffer of the message with a copy in the engine, of that copy's size |
| TempBuffers.OutputIdsIff | vgpu/server/ipc_server.go:1005-1016 | the answer has exactly the buffers marked out or inout that are no scalars and were copied, or, if there is none, every copied one |
| TempBuffers.AnswerIdsIff | vgpu/server/ipc_server.go:1005-1026 | these are the ids of what the engine answers |
| TempBuffers.ArgumentIs | vgpu/server/ipc_server.go:976-995 | a payload is bound as a buffer, or by its first four bytes as a scalar; a shorter scalar is skipped |
| TempBuffers.ComputeIs | vgpu/server/ipc_server.go:1029-1044 | the kernel runs over the given size, or one item, from zero on, and fails as it fails |
| TempBuffers.TemporariesReturnIff | vgpu/server/ipc_server.go:866-905 | for every message, on every path, the buffers are exactly as before, with nothing leaked, if and only if every granted buffer has an id not in use and offset zero, and no output fits a buffer that was there before without finding its bytes and the dirty mark already in it; then TotalAllocated is as before too |
| TempBuffers.MessageReturnsIff | vgpu/server/ipc_server.go:963-1075 | and so for every kernel |
| TempBuffers.NewIdsSpare | vgpu/server/ipc_server.go:1005-1026 | if VRAM knows no id of the message, no output comes near a buffer that was there before |
| TempBuffers.DistinctIsTidy | vgpu/server/ipc_server.go:963-1075 | pairwise distinct new ids at offset zero meet that condition, whatever is undecodable, refused or fails |
| TempBuffers.MessageConserves | vgpu/server/ipc_server.go:866-905 | whatever the message does, the counter keeps matching the buffers |
| TempBuffers.ReusedIdIsLost | vgpu/server/ipc_server.go:901-905 | a granted buffer at offset zero is gone afterwards even if its id was an application's |
| KvCacheSpec.VectorAt | vgpu/mem/kvcache.go:184-191 | a written vector reads back from consecutive floats and changes no other float |
| KvCacheSpec.LowByteFirst | vgpu/mem/kvcache.go:184-200 | a float is written and read as four bytes, the low one first |
| KvCacheSpec.StoredIsRead | vgpu/mem/kvcache.go:75-146 | the vectors stored last are read back at their position, the key's from the keys and the value's from the values |
| KvCacheSpec.FlatRefines | vgpu/mem/kvcache.go:75-96 | after every run, for vectors of any length, each float of each head is the last one that landed there |
| KvCacheSpec.SeqLenIsReached | vgpu/mem/kvcache.go:92-94 | the sequence length is one past the highest position stored since the last Clear |
| KvCacheSpec.CacheRefinesTable | vgpu/mem/kvcache.go:99-146 | after any run whose vectors fit a head, reading a known head gives for every position and component the last float stored at that layer, head, position and component, or zero; nothing exactly when nothing was stored since the last Clear |
| KvCache.KVCache.constructor | vgpu/mem/kvcache.go:50-72 | a separate zeroed array for each layer, head and side |
| KvCache.FloatsToBytes | vgpu/mem/kvcache.go:184-191 | little-endian floats from the slice's start on; those that do not fit are dropped |
| KvCache.BytesToFloats | vgpu/mem/kvcache.go:193-200 | decodes every float that the slice holds whole; any other element keeps its value |
| KvCache.KVCache.Store | vgpu/mem/kvcache.go:75-96 | writes key and value of one head and raises the length; out of range changes nothing; every other array keeps its bytes |
| KvCache.KVCache.GetKeys | vgpu/mem/kvcache.go:99-121 | the decoded keys of all positions, or nothing; no read leaves its array |
| KvCache.KVCache.GetValues | vgpu/mem/kvcache.go:124-146 | the same for values |
| KvCache.KVCache.Clear | vgpu/mem/kvcache.go:156-168 | restores the state of a new cache |
| CmdQueue.SignalsRightIff | vgpu/queue/cmdqueue.go:76-176 | over every interleaving of Enqueue, MarkComplete, UpdateStatus and WaitForQueue: every queue's current signal is closed exactly when nothing is pending, all along the run, if and only if no update completes the last pending command of its queue or reopens one while none is pending |
| CmdQueue.QueuesAreRightIff | vgpu/queue/cmdqueue.go:76-176 | signals and the promises to waiters together hold all along the run if and only if each update also reopens no command that a waiter free to return was promised |
| CmdQueue.QueuesAreSafe | vgpu/queue/cmdqueue.go:76-176 | in particular under that guard, over every interleaving: a queue's current signal is closed if and only if nothing is pending, superseded ones are closed, none twice, and when a waiter has returned every command enqueued before it took its signal is done |
| CmdQueue.BlockedMeansPending | vgpu/queue/cmdqueue.go:134-140 | a waiter that still blocks holds its queue's current signal, and a command is pending |
| CmdQueue.IdleMeansReturns | vgpu/queue/cmdqueue.go:134-140 | a waiter whose queue has only commands that are done returns by its next receive |
| CmdQueue.DoneByItsId | vgpu/queue/cmdqueue.go:94-176 | over every run a command is done only if the run has a MarkComplete of its queue with its own id, or an UpdateStatus of that id to a status that is done |
| CmdQueue.ReturnedMeansFinished | vgpu/queue/cmdqueue.go:134-176 | so once a waiter has returned, each command that was in its queue when the wait began is complete or has failed, by an operation that names its own id |
| CmdQueue.UpdateStatusRightIff | vgpu/queue/cmdqueue.go:114-131 | a status update keeps signal and commands in step if and only if, before it, the command is as done as the new status or another command is pending |
| CmdQueue.UpdateKeepsIff | vgpu/queue/cmdqueue.go:114-131 | with all queues and waiters: it keeps the whole invariant exactly under the guard |
| CmdQueue.ProgressIsGuarded | vgpu/queue/cmdqueue.go:114-131 | an update from one pending status to another always meets the guard |
| CmdQueue.UpdateStatusStrands | vgpu/queue/cmdqueue.go:114-131 | completing the only pending command of any queue by an update leaves the signal open with nothing pending, until some MarkComplete |
| CmdQueue.CommandQueue.Enqueue | vgpu/queue/cmdqueue.go:94-111 | appends the command; a closed signal is replaced by an open one, an open one kept |
| CmdQueue.CommandQueue.MarkComplete | vgpu/queue/cmdqueue.go:143-176 | exactly the commands with the id become Complete, every other command and every id stays as it was, and the signal is closed if nothing is pending and it is open |
| CmdQueue.CommandQueue.PendingCount | vgpu/queue/cmdqueue.go:179-197 | counts the commands that are not done; zero if and only if all are |
| CmdQueue.CommandQueueManager.UpdateStatus | vgpu/queue/cmdqueue.go:114-131 | looks through the queues in any order and updates the first command with the id in the first queue that has one, and nothing else; fails if and only if none has |
| CmdQueue.CommandQueueManager.GetOrCreate | vgpu/queue/cmdqueue.go:76-91 | the queue's object, or a new empty one with a closed signal |
| CmdQueue.CommandQueueManager.Enqueue | vgpu/queue/cmdqueue.go:94-111 | changes that queue alone, as the step of the system says |
| CmdQueue.CommandQueueManager.MarkComplete | vgpu/queue/cmdqueue.go:143-176 | that queue's commands with the id become Complete and no other command of any queue changes; an unknown queue is ignored |
| CmdQueue.CommandQueueManager.TakeSignal | vgpu/queue/cmdqueue.go:134-138 | the waiter's signal is the queue's current one, closed exactly when the model's is |
| Session.WorkerSession.AssignTask | vgpu/server/grpc_server.go:408-441 | queued if and only if connected with room; the pending set gains the task, and loses it again when the queue is full |
| Session.WorkerSession.SendToWorker | vgpu/server/grpc_server.go:501-520 | appended if and only if connected with room |
| Session.WorkerSession.Register | vgpu/server/grpc_server.go:444-460 | a fresh empty channel replaces the task's |
| Session.WorkerSession.Unregister | vgpu/server/grpc_server.go:456-460 | the task's channel is forgotten |
| Session.WorkerSession.HandleTaskResult | vgpu/server/grpc_server.go:289-310 | takes the task out of the pending set and fills its registered channel if that is empty |
| Session.WorkerSession.HandleWorkerBufferTransfer | vgpu/server/grpc_server.go:327-337 | a returned buffer is kept under its id, in place of an earlier one |
| Session.WorkerSession.GetReturnedBuffers | vgpu/server/grpc_server.go:340-350 | hands the buffers out and forgets them |
| Dispatch.SubIdInjective | vgpu/server/ipc_server.go:521-522 | subtasks of one task have different ids |
| Dispatch.OneResultPerSubtask | vgpu/server/ipc_server.go:508-570 | in every run, whatever the order of assignments, waiters, results and timeout: at most one entry per subtask and exactly one once it has sent, the result channel always has room for the next send, and every entry with a result carries the subtask's own id and arrived on its worker's stream |
| Dispatch.AllCounted | vgpu/server/ipc_server.go:554-570 | when the loop has collected as many entries as there are subtasks, each subtask has been counted exactly once and the channel is empty |
| Dispatch.CountResults | vgpu/server/ipc_server.go:554-570 | successes are the number of entries whose result is there and COMPLETE, failures the number of all others |
| Dispatch.StepsCount | vgpu/server/ipc_server.go:508-570 | every step of the dispatch lowers the number of steps left and no other step raises it |
| Dispatch.NeverStuck | vgpu/server/ipc_server.go:508-570 | once the context has expired some step of the dispatch is possible until all is collected |
| Dispatch.LoopEnds | vgpu/server/ipc_server.go:554-570 | so the collecting loop ends with one entry per subtask |
| Dispatch.DeliveryCountsIff | vgpu/server/grpc_server.go:289-310 | in every state of the invariant a subtask's result changes its channel if and only if its waiter waits and has none, and then the channel holds it |
| Dispatch.EntriesWereAwaited | vgpu/server/ipc_server.go:508-570 | over every run an entry carries a result only if that result was delivered while its subtask waited for one |
| Dispatch.CarriedIff | vgpu/server/ipc_server.go:508-570 | over every run in which the wait does not time out or the waiter does not give up, the subtask ends with a result if and only if it was delivered at such a moment |
| Dispatch.TimedOutIff | vgpu/server/ipc_server.go:508-520 | a wait times out if and only if the context of the dispatch has expired |
| Dispatch.SuccessIff | vgpu/server/ipc_server.go:508-570 | so, unless its wait can time out, a collected subtask counts as a success if and only if a COMPLETE result under its own id was delivered on its worker's stream while it was awaited |
| Dispatch.UnawaitedChangesNothing | vgpu/server/grpc_server.go:289-310 | a result that no subtask awaits, too early or too late, never reaches an entry by that delivery: every continuation has the same phases and entries without it |
| Dispatch.EarlyResultIsLost | vgpu/server/grpc_server.go:289-310 | a result that comes between AssignTask and the waiter's registration is dropped |
| Dispatch.WaitedResultArrives | vgpu/server/grpc_server.go:444-468 | the first result that comes while the waiter waits is the one it gets |
| WorkerLink.InputsPrecedeTask | vgpu/server/ipc_server.go:479-540 | whatever was under way, if a buffer's snapshot and then the task were sent and accepted and nothing conflicting was sent since, the inputs the task's goroutine reads hold the snapshot's bytes, however late it reads them |
| WorkerLink.RoomSuffices | vgpu/server/ipc_server.go:479-540 | with room in the queue for all transfers and the task, the task reads the snapshot of every input that could be read, as long as nothing conflicting follows |
| WorkerLink.QueueIsSessions | vgpu/server/grpc_server.go:408-520 | the queue of these runs is the session's: sending and assigning change it as the session's methods do |
| WorkerLink.ConflictIsRead | cmd/worker/agent/grpc_client.go:191-221 | one conflicting transfer before the task is enough for the task to read that one |
| WorkerLink.SendInputs | vgpu/server/ipc_server.go:488-505 | the accepted transfers stand at the end of the queue, each buffer once; all are accepted if the queue has room for them |
| WorkerLink.GRPCWorkerClient.HandleMessage | cmd/worker/agent/grpc_client.go:137-169 | a transfer is in the cache before the next message is received; a task starts a goroutine |
| WorkerLink.GoroutineReads | cmd/worker/agent/grpc_client.go:214-221 | a task's goroutine reads exactly its own inputs that the cache has when it runs, with the bytes they have then |
| WorkerLink.GRPCWorkerClient.InputBuffers | cmd/worker/agent/grpc_client.go:215-221 | exactly the listed buffers that the cache has |
| MonitorSpec.MonitorAgreesWithScheduler | vgpu/monitor/workers.go:48-158 | in every reachable state a degraded worker has been silent longer than the timeout and is absent from the scheduler, and since a worker was last online OnWorkerLost was called at most twice |
| MonitorSpec.DegradedGetsNoWork | vgpu/scheduler/split.go:78-90 | in every reachable state no listing of active workers, and so no split, has a degraded one |
| MonitorSpec.WatchedIff | vgpu/server/grpc_server.go:237-286 | a step leaves a scheduled worker that the monitor does not know if and only if it is a capability report of a registered worker whose stream has ended |
| MonitorSpec.RunIsWatchedIff | vgpu/server/grpc_server.go:85-286 | a run ends with such a worker if and only if, since some worker last registered or ended its stream, that was the end of its stream and a capability report followed; no check removes it |
| MonitorSpec.OfflineIsLeftBy | vgpu/monitor/workers.go:77-99 | an offline worker leaves that state by Register only, and disappears by the end of its stream only |
| MonitorSpec.HeardIsSpared | vgpu/monitor/workers.go:111-158 | a check changes neither status nor scheduling of a worker heard from within the timeout |
| MonitorSpec.CheckMoves | vgpu/monitor/workers.go:111-158 | what a check does to any worker: silent for more than 10 seconds it is no longer online, for more than 20 offline, both in one check if need be; it leaves the scheduler exactly when its status changes |
| MonitorSpec.HearingMoves | vgpu/monitor/workers.go:48-90 | a message refreshes the time and lifts degraded, a registration brings a worker online from any status with one more connection; other workers stay as they were |
| MonitorSpec.EndMoves | vgpu/server/grpc_server.go:237-254 | the end of a stream takes exactly that worker out of monitor and scheduler |
| MonitorSpec.RecoveryIsNotEnough | vgpu/monitor/workers.go:77-90 | a degraded worker's heartbeat makes it online but not schedulable |
| MonitorSpec.ListedBy | vgpu/server/grpc_server.go:260-286 | a worker enters the scheduler by its registration or capability report only |
| MonitorSpec.ReportIsUsed | vgpu/server/grpc_server.go:260-286 | after a capability report of a registered worker the scheduler holds it idle under that score, every listing of active workers has it with that score, and no other entry changes |
| MonitorSpec.RegistrationIsIdle | vgpu/server/grpc_server.go:85-141 | a worker that registers is idle without a score; one the monitor knows loses its host name in the scheduler |
| MonitorSpec.ScheduledIff | vgpu/server/grpc_server.go:85-286 | after every run a worker, whatever its status, is scheduled if and only if some operation registered it, or reported its capability after some registration, and none since ended its stream or was a check that found it silent too long |
| MonitorSpec.OfflineCanBeListed | vgpu/server/grpc_server.go:260-286 | a capability report makes even an offline worker schedulable |
| MonitorSpec.SilenceIsNoticed | vgpu/monitor/workers.go:15-18 | if checks come every 5 seconds, no worker silent for more than 15 counts as online, and one silent for more than 25 is offline |
| Monitor.WorkerMonitor.Register | vgpu/monitor/workers.go:48-74 | a known worker is online again, counted and returned to the scheduler; an unknown one is added |
| Monitor.WorkerMonitor.Heartbeat | vgpu/monitor/workers.go:77-90 | refreshes the time and lifts degraded, nothing else |
| Monitor.WorkerMonitor.CheckHeartbeats | vgpu/monitor/workers.go:111-158 | in any map order: each worker takes its two timeout transitions, and exactly those that took one are removed from the scheduler |
| Orchestrator.OrchestratorService.Register | vgpu/server/grpc_server.go:85-141 | session, scheduler and monitor change as the system's Register step says |
| Orchestrator.OrchestratorService.Receive | vgpu/server/grpc_server.go:217-224 | the heartbeat first, then a capability report: one Message step |
| Orchestrator.OrchestratorService.EndStream | vgpu/server/grpc_server.go:237-254 | the worker leaves scheduler and monitor |
| Orchestrator.OrchestratorService.Tick | vgpu/monitor/workers.go:102-109 | one round of the monitor's loop is one Check step |
| SlotTable.TableIsBoundedMap | vk_layer/distribox_vk_layer.c:203-239 | for any table size and any run of get, release and update the table is a map of at most that many handles, and no slot below one in use, live or stale, holds the same handle |
| SlotTable.LiveIsUnique | vk_layer/distribox_vk_layer.c:203-228 | a handle has at most one live slot |
| SlotTable.ReleaseFreesLive | vk_layer/distribox_vk_layer.c:230-239 | release, which never looks at inUse, always frees the live slot |
| SlotTable.UniqueIsNotEnough | vk_layer/distribox_vk_layer.c:230-239 | unique live handles alone would not ensure that |
| SlotTable.NullIff | vk_layer/distribox_vk_layer.c:203-228 | null is returned if and only if the handle is null or every slot is in use by another handle |
| SlotTable.Layer.GetCmdBufState | vk_layer/distribox_vk_layer.c:203-228 | the handle's live slot, else the first free one zeroed and taken, else none; no other slot changes |
| SlotTable.Layer.ReleaseCmdBufState | vk_layer/distribox_vk_layer.c:230-239 | clears inUse of the first slot with the handle and changes nothing else |

## Left out

- Kernels.SplitMatMul: states the row split with K passed explicitly; column splits are left out, because the ranges of one do not describe rows of the other.
- DiscoveryRoundTrip.ResponseRoundTrip: whether a text is an IP address is a parameter that takes every dotted quad and no text with a byte that no address has; how IPv6 text is parsed is left out.
- DnsName.ParseDNSName: what a compressed name means is left out, because the labels before a pointer are dropped; only safety and termination are stated there.
- LocalLaunch.ExecuteLocally: what a kernel computes when its copies share an id is left out, because a kernel is a function of its operands there; `Binding.SharedPosition` says what it is given. So is the state after a kernel that panics, which ends the server.
- LocalLaunch.HandleLaunches: messages of other kinds between the launches are left out.
- TempBuffers.ExecuteLocallyVKWithBuffers: an engine without room for the copies is left out, for the same reason.
- BufferFill.HandleBufferFill: what the fill writes after it has started over is left out.
- CmdQueue.QueuesAreSafe: a command object enqueued twice is left out; commands are values in their queue.
- Dispatch.OneResultPerSubtask: sessions exist and are never removed, as in the source; the 5-second fallback around the dispatch is left out.
- WorkerLink.InputsPrecedeTask: a stream that breaks and is opened again in between is left out, as is which data an executor prefers that already holds a buffer under the id.
- MonitorSpec.MonitorAgreesWithScheduler: each stream message and each check is one step, as under a lock that the source takes only in parts.
- Vram.VRAMManager.Allocate: memory never runs out.
- KvCache.KVCache.GetKeys: the length and the bytes are read under one lock here and under two in the source.
- Integer width outside VRAM accounting, DNS fields and floats: sizes, offsets and products in the split and in the kernels are unbounded.
- Rounding of the split's fractions in float64, and of float32 in the kernels; the kernels with transcendental functions.
- Equality of a distributed result with a local one for two or more subtasks: write-back keeps one worker's whole buffer per id.
- Leading spaces and underscores that scanning a number accepts.
- Worker sets changing during a split, filtering of workers on the same host, and marshalling of requests, JSON, hex and protobuf.
- Calibration, hardware detection, installers, dashboards, the Android client and foreign GPU interfaces.
