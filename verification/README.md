# Verified model of the host's GPU command path, kernel dispatcher and disc index

The host runs a recompiled Xbox 360 title and plays the parts of the console's GPU, kernel and disc. This project
models five of those parts in Dafny and proves what they promise.

* **Command stream** (`GpuTrace`, `FrameTrace`, `CommandTracer`). A resumable, recursive interpreter of PM4 packets
  over guest memory that the packets themselves may overwrite, and the frame loop that follows a ring of packets to a
  polled write pointer and around the ring's end. `GpuTrace.Scan` and `FrameTrace.Frame` are functions of the whole
  machine (memory, registers, draws, shader cache, interrupts, the log of executed packets); the class
  `GpuCommandTracer` is the object whose loops are kept equal to them. `ScanTheorems`, `ScanFrames`, `ScanReplay`,
  `PacketRoundTrip`, `PacketCalls`, `FrameEffects` and `RingProtocol` prove resumption, bounds, flattening, the
  printer/parser round trip with nested indirect buffers, what a whole frame does, and the ring protocol;
  `RingExample` is a run that follows the protocol around the ring's end.
* **Shaders** (`ShaderDecode`, `BitFields`, `ShaderTranslate`, `TranslatorSpec`, `ShaderMeaning`,
  `MicrocodeRoundTrip`, `Fnv`, `ShaderCache`, `ShaderExamples`, `PixelExample`). The bit layout of microcode, the
  control-flow walk whose end bound shrinks while it runs, the fail-closed translator with a declarative specification
  and a meaning theorem against a reference interpreter, and the hash-gated cache, with an accepted shader that the
  cache serves wrongly.
* **Draws** (`GpuState`, `DrawResolve`, `DrawMeaning`, `DrawList`, `DrawExamples`). Resolving a DRAW_INDX_2 packet
  into vertex and index data, expanding rectangle lists, and handing batches to the render thread.
* **Kernel** (`KernelDispatcher`, `KernelEffects`, `Dispatcher`, `Allocator`). Mutants, events, alertable waits and
  APC queues as atomic regions under one lock, for every interleaving; and the bump allocator with its four clients.
* **Disc** (`Xdvdfs`, `XdvdfsTheorems`, `XdvdfsPaths`). The search tree threaded through a directory table, its linear
  fallback, and path resolution.

`Words` and `GuestMemory` hold the 32-bit arithmetic and the big-endian guest memory everything shares.

## Where the code falls short of its promise

The model keeps these behaviours and states the exact condition under which the promise holds.

* A buffer of 0xFFFF0000 bytes or more can make the scanner's 32-bit offset wrap and move backwards; smaller buffers
  of whole dwords never do (`ScanTheorems.NeverWrapsExactly`).
* A thread without a handle of its own shares APC queue 0, and can be told of an APC that another thread has taken;
  threads with their own handle never are (`KernelDispatcher.HonestExactlyWithOwnHandle`).
* A DRAW_INDX_2 packet reads a position past a vertex record exactly when it draws a rectangle list, both its buffers
  resolve, the shader's records are shorter than 12 bytes and some rectangle is in range
  (`DrawResolve.ShortRecordExactly`); three packets on a fresh machine get there (`DrawExamples.ShortRecordReached`).
* Directory lookup hangs exactly on the names whose links lead to some offset twice
  (`XdvdfsTheorems.HangsExactlyOnRevisit`); a 32-byte table that hangs is `XdvdfsTheorems.LoopingTableHangs`.
* The shader cache always serves the translation of the latest microcode exactly when no load has the hash of the
  microcode right before it, or zero at the start, and another translation (`ShaderCache.ServesExactly`); an accepted
  shader whose hash is zero is not translated when it comes first (`ShaderExamples.AcceptedShaderNeverTranslated`).
* A pixel shader is translated as returning the interpolated value when its first export reads register 0; that is
  its meaning exactly when its last one does too (`ShaderMeaning.PixelMeaningExactly`), and
  `PixelExample.AcceptedWithOtherColour` is an accepted shader whose last one does not.
* An allocation holds the bytes asked for exactly when a virtual request is at most 0xFFFF0000 bytes and a physical one
  at most 512 MiB (`Allocator.GivenHolds`).
* Blocks of the bump allocator stay apart exactly while every request's start, size and gap add up to less than 2^32
  (`Allocator.BlocksStayApartExactly`); `Allocator.WrappedBlocksOverlap` shows three requests that overlap.

## Where code and comments disagree

The model follows the code.

* `host/shader_translate.h:44` says attributes are filled for vertex shaders only; the translator fills them for pixel
  shaders too.
* `host/shader_decode.cpp:54-63` speaks of the first EXEC-family instruction's address; the loop keeps the lowest
  address of any EXEC-family instruction met so far.
* `host/gpu_trace.cpp:370-376` calls rectangle lists unsupported; the same branch expands them.

## Model

| member | source | states |
|---|---|---|
| Words.DirectMapIsOr | host/gpu_trace.cpp:250 | the arithmetic used for `address \| 0xA0000000` agrees with the bitwise or for every 32-bit address |
| GuestMemory.StoreThenLoad | host/gpu_trace.cpp:13-21 | a big-endian store is read back whole, and loads four or more bytes away do not notice it |
| GuestMemory.StoreWordsThenRead | host/gpu_trace.cpp:13-21 | words stored at an address read back as the same words, and no other byte changes |
| ScanTheorems.ScanResumes | host/gpu_trace.cpp:161-743 | scanning to one bound and resuming from the offset reached equals one scan to the larger bound: same machine, same offset, with self-overwriting packets and truncated packets included |
| ScanTheorems.ScanStaysInside | host/gpu_trace.cpp:167-258 | the returned offset lies between the start and max(start, size), whole dwords on |
| ScanTheorems.NeverWrapsExactly | host/gpu_trace.cpp:167-258 | for buffers of whole dwords: no contents make the 32-bit offset sum wrap if and only if the size is below 0xFFFF0000; above it a concrete memory does, and the sum then moves the offset backwards |
| ScanTheorems.ScanNeverWraps | host/gpu_trace.cpp:161-743 | if the buffer and every indirect buffer followed are below that size, no scan at any depth ends in a wrap |
| ScanTheorems.ScanWork | host/gpu_trace.cpp:148-258 | packets executed by a scan with `left` dwords to go, under cyclic and self-modifying chains, stay within the bound the depth limit and buffer sizes give |
| ScanTheorems.ScanWorkBound | host/gpu_trace.cpp:148-258 | with buffers of at most N dwords, packets executed at depth d obey T(3) = N, T(d) = N + (N/3)*T(d+1) |
| ScanTheorems.ScanExtends | host/gpu_trace.cpp:161-743 | a scan only appends to log, draws and interrupts, and leaves the interrupt settings alone |
| ScanTheorems.ScanDrawsGood | host/gpu_trace.cpp:352-630 | every draw command a scan adds at any depth keeps its vertices and indices inside its own data, and has index data exactly when it is an indexed draw |
| ScanFrames.ScanKeepsBytes | host/gpu_trace.cpp:260-281 | memory changes only where a logged EVENT_WRITE_SHD packet stores |
| ScanFrames.PacketReadsItself | host/gpu_trace.cpp:167-258 | finding a packet reads no byte outside that packet |
| ScanFrames.ScanIsParse | host/gpu_trace.cpp:161-743 | when no packet stores into the buffer being scanned, the top-level packets executed are exactly those a plain parse of the buffer finds, once each, in order |
| ScanFrames.OtherBufferQuiet | host/gpu_trace.cpp:858-874 | scanning one buffer leaves no top-level trace of another |
| ScanReplay.ScanIsReplay | host/gpu_trace.cpp:161-743 | a scan with all its indirect buffers leaves the machine that executing its flat log packet by packet leaves |
| ScanReplay.CacheServesLatest | host/gpu_trace.cpp:638-706 | over any number of frames, while hashes tell each of a stage's microcodes from the one before it, the cached result of a stage is the translation of the last microcode any executed packet loaded for it |
| ScanReplay.FrameSane | host/gpu_trace.cpp:771-887 | a frame ends without a wrap or a short record if the buffers it scans are whole dwords below the wrapping size and no packet it executes names a larger one or loads a vertex shader with records of 1 to 11 bytes; the next frame then starts from the same conditions |
| PacketRoundTrip.HeaderOf | host/gpu_trace.cpp:181-228 | the header written for an abstract packet is accepted, names its length and is no indirect buffer |
| PacketRoundTrip.EffectIsMeaning | host/gpu_trace.cpp:183-706 | executing the words of a TYPE0 (both write modes), TYPE2, SET_CONSTANT, EVENT_WRITE_SHD, INTERRUPT, DRAW_INDX or IM_LOAD_IMMEDIATE packet is its abstract meaning |
| PacketRoundTrip.ScanLaid | host/gpu_trace.cpp:161-743 | a list of packets laid out in memory its stores do not touch is consumed packet by packet with exactly the effect of folding their meanings, and the scan goes on behind it |
| PacketRoundTrip.ScanLaidWhole | host/gpu_trace.cpp:161-743 | a buffer holding just the list is consumed whole |
| PacketRoundTrip.HeaderFields | host/gpu_trace.cpp:181-223 | type, count and opcode of a type 3 header, whatever its unused bits hold |
| PacketRoundTrip.BankFields | host/gpu_trace.cpp:319-332 | bank and index of a constant word, whatever its unused bits hold: five banks, others none |
| PacketCalls.ScanSteps | host/gpu_trace.cpp:161-743 | a list of packets that calls other lists through indirect buffers, nested in any shape and lying where its own stores do not hit it, is consumed with exactly its meaning: a call executes the list seen at its address with bits 31 and 29 set, three levels down, is only logged below that, and the scan goes on behind it |
| PacketCalls.IdleDoesNothing | host/gpu_trace.cpp:181-711 | filler, calls not followed, packets of the wrong length, constants of unknown banks, loads with a start, too little microcode or an unknown stage, and unknown opcodes change nothing |
| PacketCalls.FoundExactly | host/gpu_trace.cpp:167-258 | a packet is found exactly when the header is neither zero nor of type 1 and the whole packet lies in the buffer; it is then the words that lie there |
| PacketCalls.DrawPacket | host/gpu_trace.cpp:352-368 | a draw packet writes its initiator to register 0x21FC first and is resolved against the registers as they then are; its command goes behind those before it |
| PacketRoundTrip.WriteSwapBlock | host/kernel_impl.cpp:1669-1691 | the block-writing loops of VdSwap, store by store, for every pointer including overlapping ones |
| PacketRoundTrip.SwapBlockHolds | host/kernel_impl.cpp:1669-1691 | the 64 dwords are the TYPE0 packet for the fetch constant and 57 no-ops, when the fetch constant does not overlap the block |
| PacketRoundTrip.SwapBlockScans | host/kernel_impl.cpp:1669-1691 | scanning the block consumes it whole and changes only registers 0x4800..0x4805, to the six fetch dwords |
| FrameTrace.RegisteredRing | host/gpu_trace.cpp:37-64 | a registered ring has eight times the given power of two of bytes, whole dwords, at most 2^31, scanned from offset 0 |
| FrameEffects.FrameCounts | host/gpu_trace.cpp:776 | every frame moves the vertical blank counter by one, modulo 2^32 |
| FrameEffects.FrameRunsLists | host/gpu_trace.cpp:771-887 | a frame over a ring and a system buffer that hold lists counts, executes the ring up to the write pointer (to its end while none was observed), then the system buffer, and stores the new ring offset in dwords at the write-back address if there is one |
| RingProtocol.ParseLies | host/gpu_trace.cpp:167-258 | a parse walks over packets lying end to end and goes on behind them |
| RingProtocol.StoreKeepsInv | host/gpu_trace.cpp:771-887 | a guest store into free ring space or outside the ring keeps everything pending intact |
| RingProtocol.FrameResult | host/gpu_trace.cpp:801-887 | one frame executes exactly the packets up to the observed write pointer, or the ring's tail, or after an exhausted tail those from offset 0, and reports the offset reached |
| RingProtocol.StepKeepsInv | host/gpu_trace.cpp:771-887 | every guest or pump step keeps: executed packets followed by the pending ones are the packets published |
| RingProtocol.ExactlyOnceInOrder | host/gpu_trace.cpp:771-887 | after any interleaving of guest and pump steps the executed top-level packets are a prefix of those published, and the parsed offset is dword-aligned and inside the ring |
| RingProtocol.TwoQuietRoundsDrain | host/main.cpp:222-235 | after any run, once the doorbell is rung, two quiet rounds of observing and scanning execute everything published |
| RingExample.AroundTheEnd | host/main.cpp:222-235 | from any fresh ring of at least 16 bytes there is a run within the protocol that publishes two packets and, around the ring's end, a third at its start, and executes all three, so the protocol's assumptions can be met on both sides of the turn |
| RingExample.RegisteredIsFresh | host/gpu_trace.cpp:37-65 | registering a ring makes a fresh one, given a zeroed write-back address outside it |
| CommandTracer.GpuCommandTracer.RegisterRingBuffer | host/gpu_trace.cpp:37-65 | new ring base, size and offset; the observed write pointer is kept |
| CommandTracer.GpuCommandTracer.RegisterSystemCommandBuffer | host/gpu_trace.cpp:745-762 | only the first registration counts |
| CommandTracer.GpuCommandTracer.ObserveWritePointer | host/gpu_trace.cpp:100-130 | the tracer then holds the observed value |
| CommandTracer.GpuCommandTracer.SetRptrWriteBackAddr | host/gpu_trace.cpp:67-71 | only the write-back address changes |
| CommandTracer.GpuCommandTracer.SetGraphicsInterruptCallback | host/gpu_trace.cpp:79-84 | only callback and context change |
| CommandTracer.GpuCommandTracer.ExecuteType0 | host/gpu_trace.cpp:192-218 | the register loop computes the packet's effect |
| CommandTracer.GpuCommandTracer.EventWriteShd | host/gpu_trace.cpp:260-281 | one aligned, direct-mapped store of the literal or the vertical blank counter |
| CommandTracer.GpuCommandTracer.Interrupt | host/gpu_trace.cpp:283-308 | one callback invocation when the mask and the callback are not zero |
| CommandTracer.GpuCommandTracer.SetConstant | host/gpu_trace.cpp:310-350 | the five sub-banks, others skipped |
| CommandTracer.GpuCommandTracer.DrawIndx2 | host/gpu_trace.cpp:352-630 | the initiator goes to its register first, then the draw is resolved and added |
| CommandTracer.GpuCommandTracer.DrawIndx | host/gpu_trace.cpp:631-637 | only the draw initiator register changes |
| CommandTracer.GpuCommandTracer.ImLoadImmediate | host/gpu_trace.cpp:638-706 | malformed loads are skipped, others pass the hash gate |
| CommandTracer.GpuCommandTracer.ExecutePacket | host/gpu_trace.cpp:181-711 | one packet, an indirect buffer scanned recursively up to depth 3 at its address with bits 31 and 29 set |
| CommandTracer.GpuCommandTracer.ScanBuffer | host/gpu_trace.cpp:161-743 | the loop and its recursion compute `Scan`: machine and offset |
| CommandTracer.GpuCommandTracer.TraceRing | host/gpu_trace.cpp:801-848 | scan bound, pending wrap and the second scan from offset 0 |
| CommandTracer.GpuCommandTracer.ScanAndTraceFrame | host/gpu_trace.cpp:771-887 | the whole new state of one frame |
| GpuState.DrawInitiatorRoundTrip | host/gpu_state.cpp:34-43 | a packed draw initiator reads back field by field |
| GpuState.FetchConstantRoundTrip | host/gpu_state.cpp:45-60 | a fetch constant written to its slot's two registers reads back field by field |
| BitFields.InitiatorBits | host/gpu_state.cpp:34-43 | which bits of register 0x21FC are which field, whatever the others hold |
| BitFields.ConstantBits | host/gpu_state.cpp:45-60 | which bits of registers 0x4800 and up are which field of which of the 96 slots |
| GpuState.WriteRunReads | host/gpu_state.cpp:4-32 | what a run of writes leaves in each register: last write wins, indices past the file are ignored |
| GpuState.GpuRegisterState.WriteRegister | host/gpu_state.cpp:4-17 | one register changes, or none |
| GpuState.GpuRegisterState.ReadRegister | host/gpu_state.cpp:19-32 | the register, or zero out of range |
| GpuState.GpuRegisterState.GetDrawInitiator | host/gpu_state.cpp:34-43 | the four fields of register 0x21FC |
| GpuState.GpuRegisterState.GetVertexFetchConstant | host/gpu_state.cpp:45-60 | the four fields of a slot, zeros for slots from 96 on |
| DrawResolve.ResolveDrawIndx2 | host/gpu_trace.cpp:368-629 | the resolving loops compute the draw, including every reason to skip it |
| DrawResolve.ReadIndices | host/gpu_trace.cpp:453-473 | big-endian indices of either width become little-endian index bytes |
| DrawResolve.CollectIndices | host/gpu_trace.cpp:530-550 | source vertices of a rectangle list, cut to whole rectangles |
| DrawResolve.ExpandRectangles | host/gpu_trace.cpp:557-590 | the gather loop yields the expansion, or stops at a record too short for a position |
| DrawResolve.IndexBytesAt | host/gpu_trace.cpp:453-473 | index k read from the index bytes is index k of guest memory |
| DrawResolve.DrawIsGood | host/gpu_trace.cpp:409-627 | for all memory, registers and shaders: vertexCount*stride fits the vertex data and indexCount*width fits the index data; there is index data exactly when the draw is indexed, which is when it is no rectangle list and its indices come from memory |
| DrawMeaning.DrawsExactly | host/gpu_trace.cpp:376-495 | a packet draws exactly for primitive codes 1, 2, 3, 4, 6 and 8, automatic indices or an index buffer of 1 to 16777216 bytes, and vertex data of 1 to 16777216 bytes |
| DrawMeaning.PlainDraw | host/gpu_trace.cpp:376-617 | a draw that is no rectangle list: each code its own primitive, vertex dword k the guest word at the fetch address with bits 31 and 29 set plus 4k, the smaller of capacity and numIndices vertices when automatic, the smaller of stored and asked-for indices when indexed |
| DrawMeaning.IndexDrawn | host/gpu_trace.cpp:440-473 | index k of an indexed draw is the guest's index k, turned little-endian in its width |
| DrawMeaning.RectangleSources | host/gpu_trace.cpp:530-550 | the source vertices of a rectangle list are the guest's indices, or 0, 1, 2 and so on, cut to whole rectangles |
| DrawMeaning.RectanglesDrawn | host/gpu_trace.cpp:566-595 | a rectangle list draws plain triangles, six vertices for each rectangle whose three corners the buffer holds |
| DrawMeaning.RectangleCorners | host/gpu_trace.cpp:552-590 | the vertices of a rectangle are guest vertices A, B, C, A, C with x and y mapped from 1280 by 720 pixels when the low six bits of register 0x2206 are clear, then D = A + C - B with B's attributes |
| DrawMeaning.FloatFields | host/gpu_trace.cpp:562 | sign, exponent and mantissa of the singles positions are read as |
| DrawResolve.RectangleListDraw | host/gpu_trace.cpp:520-595 | a rectangle list becomes a triangle list without indices, six records per rectangle in range |
| DrawResolve.RectanglePlaced | host/gpu_trace.cpp:569-589 | each rectangle in range contributes its own two triangles, right after those before it |
| DrawResolve.FourthCornerCompletes | host/gpu_trace.cpp:576-588 | the records are A, B, C, A, C, D with D = A + C - B on all drawn coordinates, with and without the window mapping, and B's attributes |
| DrawResolve.ShortRecordExactly | host/gpu_trace.cpp:368-577 | a packet reads a position past a record if and only if it draws a rectangle list, its vertex and index buffers resolve, the shader has records of 1 to 11 bytes and some rectangle is in range |
| DrawExamples.ShortRecordReached | host/gpu_trace.cpp:566-577 | setting a fetch constant, loading an accepted shader with one-dword records and drawing three vertices reads past a record, from any fresh machine |
| DrawList.FrameDrawList.AddDrawCommand | host/gpu_draw_list.cpp:3-7 | one command appended |
| DrawList.FrameDrawList.SwapReady | host/gpu_draw_list.cpp:9-30 | a non-empty frame becomes ready, an empty one leaves the ready batch |
| DrawList.FrameDrawList.TakeReady | host/gpu_draw_list.cpp:32-38 | the whole ready batch, which is then gone |
| DrawList.HandOffConserves | host/gpu_draw_list.cpp:3-38 | over every interleaving: commands added are the batches taken or dropped, in order, then ready, then building |
| DrawList.HandOffStep | host/gpu_draw_list.cpp:3-38 | a batch is dropped only by a newer non-empty one, taken only whole, and an empty swap changes nothing |
| DrawList.Replay | host/gpu_draw_list.cpp:3-38 | the object driven by any calls follows its history and hands over exactly the batches taken |
| ShaderDecode.DecodeShaderMicrocode | host/shader_decode.cpp:48-161 | the lines are those of the walk, for any dword count |
| BitFields.FlowBits | host/shader_decode.cpp:183-192 | which bits of a control-flow instruction are which field |
| BitFields.ExecOpcodes | host/shader_decode.cpp:163-179 | the eight opcodes that start a block |
| BitFields.AluBits | host/shader_decode.cpp:4-27 | which bits of an ALU instruction are which field, whatever the others hold |
| BitFields.FetchBits | host/shader_decode.cpp:29-46 | the same for a vertex fetch, its offset in two's complement |
| BitFields.SequenceBits | host/shader_decode.cpp:126 | bit 2j of the sequence tells whether instruction j of a block is a fetch |
| ShaderDecode.WalkVisits | host/shader_decode.cpp:64-81 | the walk visits pairs 0..n-1 once each, in order, each with its blocks, where pair i is among them exactly when no EXEC-family instruction of an earlier pair starts its block at or before slot i |
| MicrocodeRoundTrip.PairRoundTrip | host/shader_decode.cpp:183-204 | two control-flow instructions packed into a slot unpack to themselves |
| MicrocodeRoundTrip.AluRoundTrip | host/shader_decode.cpp:4-27 | every field of an ALU instruction comes back |
| MicrocodeRoundTrip.FetchRoundTrip | host/shader_decode.cpp:29-46 | every field of a vertex fetch comes back, the signed 23-bit offset included |
| MicrocodeRoundTrip.ProgramRoundTrip | host/shader_decode.cpp:48-161 | assembling any control-flow list with its instruction slots and walking it lists the same instructions with the same fields |
| ShaderTranslate.TranslateShader | host/shader_translate.cpp:17-298 | the one-pass loop computes the declarative translation |
| ShaderTranslate.RunRefines | host/shader_translate.cpp:17-242 | the loop's running state is what the declarative definitions say of the instructions seen so far |
| TranslatorSpec.EmittedExactly | host/shader_translate.cpp:251-279 | field i of the emitted function is attribute i, in its format and named after its register; statement i writes export i, the position for register 62 and its interpolator otherwise |
| ShaderTranslate.EmitVertexProgram | host/shader_translate.cpp:251-279 | one field per attribute and one assignment per export, in order |
| TranslatorSpec.TranslationCharacterized | host/shader_translate.cpp:17-298 | success exactly when every control-flow item and instruction is acceptable and the final checks hold; a success carries exactly the stream's lists, a failure a reason and nothing else |
| TranslatorSpec.FailureNamesFirst | host/shader_translate.cpp:47-226 | the reason is that of the first unacceptable item |
| TranslatorSpec.AcceptedExactly | host/shader_translate.cpp:47-226 | in the fields of the instruction, exactly which control flow, fetches and ALU instructions are accepted: Nop, Exec, ExecEnd, Alloc; fetches of formats 57 and 38 with identity swizzles, mini ones after a full one; no scalar but a retained one, and a vector half that writes nothing or is the plain max of one temporary register, never a constant, with itself into an export of the stage |
| TranslatorSpec.ListsAreInOrder | host/shader_translate.cpp:156-238 | attributes and exports are the stream's fetches and live exports, one for one and in order |
| TranslatorSpec.AttributeTraced | host/shader_translate.cpp:103-161 | attribute i of a successful translation comes from the i-th fetch, with its register, format and offset, and carries the constant of the nearest full fetch at or before it |
| TranslatorSpec.StrideTraced | host/shader_translate.cpp:134-159 | the stride of a successful translation is that of the last full fetch of the shader |
| TranslatorSpec.ExportSourceFetched | host/shader_translate.cpp:187-208 | every accepted vertex export reads a register an earlier fetch wrote |
| TranslatorSpec.WalksAgree | host/shader_translate.cpp:34-94 | when a shader translates, the disassembler lists the program slots the translator read, in the same order, skips none, and lists the attributes' fetches |
| ShaderMeaning.TranslationPreservesMeaning | host/shader_translate.cpp:82-279 | for every vertex record and all shader constants the emitted program gives the reference interpreter's position xyz, and its interpolator 0 when the source is a Float4; the last export wins in both |
| ShaderMeaning.AcceptedCopies | host/shader_translate.cpp:163-238 | an accepted live instruction of either stage copies a temporary register, component by component under its mask, whatever the constants |
| ShaderMeaning.PixelMeaningExactly | host/shader_translate.cpp:281-297 | for an accepted pixel shader with full masks and no fetches, returning interpolator 0 is its meaning if and only if its last export reads register 0 |
| PixelExample.AcceptedWithOtherColour | host/shader_translate.cpp:281-297 | an accepted pixel shader whose colour is not the interpolated value |
| ShaderMeaning.FetchMatchesAttribute | host/shader_translate.cpp:103-161 | a fetch leaves in its register what the attribute made of it reads from the vertex record |
| ShaderMeaning.SelfMovCopies | host/shader_translate.cpp:176-231 | an accepted instruction under a full mask leaves in its export the temporary register it names |
| Fnv.Fnv1aHash | host/shader_translate.cpp:300-309 | the loop computes the hash |
| Fnv.StepInjective | host/shader_translate.cpp:303-307 | one hash step is injective in the state and in the byte |
| Fnv.SingleByteSensitivity | host/shader_translate.cpp:300-309 | inputs of equal length that differ in exactly one byte have different hashes |
| ShaderCache.ShaderTranslationCache.LoadImmediate | host/gpu_trace.cpp:681-704 | hash, compare, and translate only when the hash moved |
| ShaderCache.ShaderTranslationCache.UpdateVertexShader | host/shader_translate.cpp:311-316 | hash and result of the vertex stage are replaced, the pixel stage is not |
| ShaderCache.ShaderTranslationCache.UpdatePixelShader | host/shader_translate.cpp:318-323 | the same for the pixel stage |
| ShaderCache.StageHoldsLatestHash | host/gpu_trace.cpp:681-704 | over any run of loads the hash a stage holds is that of its latest microcode, or zero before the first |
| ShaderCache.ServesExactly | host/gpu_trace.cpp:681-704 | after every load of a run the stage serves the translation of its latest microcode if and only if no load of the stage has the hash of the microcode right before it (zero at the start) and another translation |
| ShaderCache.CacheIsTransparent | host/gpu_trace.cpp:681-704 | over any run in which hashes tell each microcode from the one before it, each stage holds the translation of its last microcode, and a load translates exactly when the microcode changes |
| ShaderExamples.CopyAccepted | host/shader_translate.cpp:17-298 | a nine-dword shader, with up to two dwords of padding, translates, with one attribute and records of one dword |
| ShaderExamples.AcceptedShaderNeverTranslated | host/gpu_trace.cpp:684-704 | that shader with one padding dword has hash zero, so the first load of it into an empty cache serves no translation although there is one |
| KernelDispatcher.SignalsConserved | host/kernel_impl.cpp:300-508 | over every interleaving, successful waits on a mutant or auto-reset event never outnumber its initial signal plus its sets, and between any two there is a set |
| KernelDispatcher.SignalIsMonotone | host/kernel_impl.cpp:434-440 | manual-reset events, threads, files and generic objects, once signalled, stay so while open |
| KernelDispatcher.ApcsConserved | host/kernel_impl.cpp:369-393 | per thread, APCs queued are APCs delivered followed by those still queued, routine and arguments intact |
| KernelDispatcher.AlertableWaitsAreHonest | host/kernel_impl.cpp:443-480 | over every interleaving, despite the unlocked gap: between its entry and its return, a wait by a thread with its own handle that returns STATUS_USER_APC was alertable, took exactly one APC of its own queue and acquired nothing; one that succeeds acquired exactly the object it named; any other took and acquired nothing |
| KernelDispatcher.OnlyAcquiringTakes | host/kernel_impl.cpp:411-480 | a region of a wait changes the table only by clearing the signal of the object it notes as acquired before STATUS_SUCCESS; the regions of a wait that returns STATUS_USER_APC leave the table alone |
| KernelDispatcher.HonestExactlyWithOwnHandle | host/kernel_impl.cpp:369-480 | every finished wait of a thread is such a wait, in every possible run, if and only if the thread has a handle of its own |
| KernelEffects.SetTakesEffect | host/kernel_impl.cpp:337-357 | NtSetEvent, NtReleaseMutant, a completed read or the end of a thread leaves an open handle signalled with its kind, and changes and notes nothing else |
| KernelEffects.SetStays | host/kernel_impl.cpp:300-508 | over any run, a set on an open handle stays until an acquisition of that handle follows it or it is closed |
| KernelEffects.SetLetsGo | host/kernel_impl.cpp:411-480 | then a thread blocked on it can resume at once, and unless it takes an APC it acquires the object and returns STATUS_SUCCESS |
| KernelEffects.ApcLetsGo | host/kernel_impl.cpp:411-480 | queueing an APC lets its target's alertable wait resume and go on to take one |
| KernelEffects.QueueTakesEffect | host/kernel_impl.cpp:493-508 | a queued APC, or that of a completed read, joins the end of its target's queue argument by argument, and no other queue or object changes |
| KernelEffects.CreateTakesEffect | host/kernel_impl.cpp:300-335 | the next handle gets the object, and no other entry changes |
| KernelEffects.CloseTakesEffect | host/kernel_impl.cpp:510-518 | the handle is gone, and no other entry changes |
| KernelEffects.EnterTakesEffect | host/kernel_impl.cpp:395-409 | a wait on an open handle blocks, one on another returns 0xC0000008 at once |
| KernelEffects.ResumeTakesEffect | host/kernel_impl.cpp:411-480 | a pending APC first, then the signal, which a mutant or auto-reset event loses and nothing else does, then the timeout |
| KernelEffects.DeliverTakesEffect | host/kernel_impl.cpp:369-393 | the first APC still queued is taken, and 0xC0 returned either way |
| Dispatcher.KernelState.NtCreateMutant | host/kernel_impl.cpp:300-314 | a fresh handle, signalled unless initially owned |
| Dispatcher.KernelState.NtCreateEvent | host/kernel_impl.cpp:316-335 | a fresh handle, auto-reset for a non-zero event type |
| Dispatcher.KernelState.SetSignalled | host/kernel_impl.cpp:337-357 | the entry of a known handle becomes signalled with its kind, unknown handles are ignored |
| Dispatcher.KernelState.NtQueueApcThread | host/kernel_impl.cpp:493-508 | the APC joins the end of the target's queue |
| Dispatcher.KernelState.CompleteReadApc | host/kernel_impl.cpp:794-802 | an APC with the low bit of its routine cleared, when routine and context are not zero |
| Dispatcher.KernelState.CompleteReadEvent | host/kernel_impl.cpp:804-813 | the event of a completed read is set |
| Dispatcher.KernelState.NtClose | host/kernel_impl.cpp:510-518 | the handle is gone |
| Dispatcher.KernelState.BeginWait | host/kernel_impl.cpp:395-409 | an unknown handle returns at once, a known one blocks |
| Dispatcher.KernelState.EndWait | host/kernel_impl.cpp:411-480 | APC first, then the signal, which mutants and auto-reset events lose, then the timeout |
| Dispatcher.KernelState.TryDeliverOneApc | host/kernel_impl.cpp:369-393 | the first queued APC is taken, or none |
| Allocator.RoomDecides | host/kernel_impl.cpp:180-215 | one request on an arena in order keeps it in order if and only if its start, rounded size and gap fit below 2^32; otherwise a block is out of place for good |
| Allocator.BlocksStayApartExactly | host/kernel_impl.cpp:180-215 | for any mix of the four clients: all blocks lie in the arena, increase in address and keep 4 KiB between any two if and only if there was room for every request |
| Allocator.VirtualHolds | host/kernel_impl.cpp:201-215 | one block at the counter, the least multiple of 64 KiB that holds a request of at most 0xFFFF0000 bytes, empty for larger ones |
| Allocator.PhysicalHolds | host/kernel_impl.cpp:972-993 | one block, the least multiple of 64 KiB that holds a request of 1 byte to 512 MiB and 64 KiB for others, at a multiple of a power-of-two alignment, else at the counter |
| Allocator.ThreadHolds | host/kernel_impl.cpp:1265-1271 | 256 KiB of stack and 64 KiB of thread-local data, 4 KiB apart |
| Allocator.SystemBufferHolds | host/kernel_impl.cpp:1600-1614 | 64 KiB, once |
| Allocator.GivenHolds | host/kernel_impl.cpp:180-215 | over runs, a request is given the bytes it asks for exactly when its size is one its client honours |
| Allocator.AskedBytesApart | host/kernel_impl.cpp:180-215 | over runs with room for every request, the bytes any two requests asked for are 4 KiB apart, earlier below later |
| Allocator.RoundUpIsLeast | host/kernel_impl.cpp:206-207 | the rounded size holds the request exactly when the rounding sum does not wrap, and is then the least multiple of 64 KiB that does |
| Allocator.AlignedIsLeast | host/kernel_impl.cpp:988-992 | a power-of-two alignment gives the least aligned address |
| Allocator.AlignmentIsPowerOfTwo | host/kernel_impl.cpp:988 | the alignments honoured are powers of two |
| Allocator.PowerOfTwoIsAlignment | host/kernel_impl.cpp:988 | every power of two from 2 on is honoured |
| Allocator.WrappedBlocksOverlap | host/kernel_impl.cpp:212 | past 2^32 three requests are enough for an overlap |
| Allocator.BumpAllocator.NtAllocateVirtualMemory | host/kernel_impl.cpp:201-215 | the block handed out and the new counter |
| Allocator.BumpAllocator.MmAllocatePhysicalMemoryEx | host/kernel_impl.cpp:972-993 | the new counter, and a block of the least multiple of 64 KiB that holds the request (64 KiB for zero and more than 512 MiB), aligned as asked |
| Allocator.BumpAllocator.TakeThreadBlocks | host/kernel_impl.cpp:1265-1271 | a stack and a thread-local block |
| Allocator.BumpAllocator.VdGetSystemCommandBuffer | host/kernel_impl.cpp:1600-1614 | one buffer for the whole run |
| Xdvdfs.SearchDirectory | host/xdvdfs.cpp:75-188 | the tree loop, then the linear scan, compute the lookup |
| Xdvdfs.ScanTable | host/xdvdfs.cpp:162-187 | the linear scan |
| Xdvdfs.ReadEntry | host/xdvdfs.cpp:96-122 | one entry, or none at padding or past the table |
| XdvdfsTheorems.EntryRoundTrip | host/xdvdfs.cpp:96-122 | an entry written as bytes reads back as itself |
| XdvdfsTheorems.OtherAttributes | host/xdvdfs.cpp:136 | an entry is a directory exactly when bit 4 of its attributes is set, whatever the others hold |
| XdvdfsTheorems.NoEntry | host/xdvdfs.cpp:107-118 | a name length of 255 or an entry that does not fit is none |
| XdvdfsTheorems.SameNameExactly | host/xdvdfs.cpp:16-21 | names match exactly if they agree up to the case of ASCII letters |
| XdvdfsTheorems.LessExactly | host/xdvdfs.cpp:140 | the tree is steered by the order of the bytes as stored |
| XdvdfsTheorems.TableRoundTrip | host/xdvdfs.cpp:162-187 | a table written entry after entry, padded to dwords, is laid out as the scan expects |
| XdvdfsTheorems.WalkIsTreeSearch | host/xdvdfs.cpp:87-154 | on a table that threads a finite tree the loop is the search in that tree, and ends |
| XdvdfsTheorems.ExactNameReached | host/xdvdfs.cpp:87-154 | in a byte-ordered tree with names unique up to case, an exact stored name is reached by the tree loop alone |
| XdvdfsTheorems.LookupIffMatch | host/xdvdfs.cpp:75-188 | on contiguous tables with acyclic child offsets, in any order, lookup succeeds exactly if some entry matches up to case |
| XdvdfsTheorems.PathsAgree | host/xdvdfs.cpp:75-188 | with case-unique names the tree loop and the linear scan never disagree |
| XdvdfsTheorems.HangsExactlyForEver | host/xdvdfs.cpp:87-154 | the result `Hangs` means that the tree loop has no last turn |
| XdvdfsTheorems.HangsExactlyOnRevisit | host/xdvdfs.cpp:87-154 | lookup hangs if and only if the links toward the name lead to some offset twice within as many turns as the table has bytes; equivalently, if the loop outlasts one turn for each byte |
| XdvdfsTheorems.LoopingTableHangs | host/xdvdfs.cpp:87-154 | a written table of two entries on which a lookup hangs |
| XdvdfsPaths.SplitPath | host/xdvdfs.cpp:23-47 | the parts are the maximal runs without separators |
| XdvdfsPaths.WrittenPathSplits | host/xdvdfs.cpp:23-47 | a list of parts written with any separators splits back into the list |
| XdvdfsPaths.SlashedPathSplits | host/xdvdfs.cpp:23-47 | parts without slashes, each behind a slash of either kind, come back |
| XdvdfsPaths.ResolvePath | host/xdvdfs.cpp:190-222 | resolution depends only on the path's parts |
| XdvdfsPaths.ResolveIsDescend | host/xdvdfs.cpp:190-222 | in an image that stores a folder tree, resolving is following the parts through the folders |

## Left out

- ShaderMeaning.TranslationPreservesMeaning: the scalar half of ALU instructions, partial write masks, position w, the fourth component of `float4(float3)` and the fixed 2048-byte buffer of the generated text are outside the statement; the emitted program is modelled as field and assignment lists.
- RingProtocol.ExactlyOnceInOrder: a frame is one step, so guest stores do not interleave with the packets of a single scan; the packets executed are assumed not to store into the ring, name a buffer of 0xFFFF0000 bytes or more, or load a vertex shader with records of 1 to 11 bytes.
- RingExample.AroundTheEnd: the example registers no system command buffer.
- KernelDispatcher.SignalsConserved: when a handle somebody is blocked on is closed, the source's wait condition re-creates the table entry, which the model does not; handles are not reused because the 32-bit handle counter is assumed not to wrap.
- KernelDispatcher.AlertableWaitsAreHonest: runs that close a handle somebody is blocked on are left out; the routine of a delivered APC, which the source runs before the wait returns, is not modelled; safety only; that NtReleaseMutant does not notify waiters matters for progress, which is not modelled, and a wake-up may happen at any time its condition holds.
- Dispatcher.KernelState.EndWait: blocking itself is not modelled; the two regions of a wait are separate methods and run in the order the source runs them.
- Dispatcher.KernelState.CompleteReadEvent: a read's data transfer and file position are not modelled.
- DrawResolve.DrawIsGood: draw commands carry one field the source does not store, whether the draw is indexed, so that the statement can speak of it.
- DrawResolve.FourthCornerCompletes: positions are reals, so rounding, infinities and NaNs are not captured.
- Xdvdfs.SearchDirectory: the set of offsets already visited is the model's own, so that a loop without end has a result; tables longer than 0xFFFFFFFC bytes are excluded.
- XdvdfsPaths.ResolvePath: tables come from a function of sector and size; file input and the volume descriptor are not modelled.
- CommandTracer.GpuCommandTracer.ExecutePacket: a packet's words are read once before it executes; nothing in between stores to memory in the source.
- CommandTracer.GpuCommandTracer.Interrupt: the guest callback is recorded by its context argument, not run.
- CommandTracer.GpuCommandTracer.ScanBuffer: an offset sum that wraps ends the scan with a fault, where the source would go on from a smaller offset, possibly for ever.
- CommandTracer.GpuCommandTracer.RegisterRingBuffer: sizes whose shift reaches 32 bits have no defined result in the source and are excluded.
- Logging, raw dumps, wall-clock times and the out-of-range message flag of the register file.
- Locks of the tracer, the draw list and the cache: each call is one step.
- The display-field store of VdSwap, the mask and notification queues of the dispatcher's other calls, thread start-up and guest code.
- The renderer, the window, the audio and video stubs, the command-line tools.
