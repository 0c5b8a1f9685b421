/** The tracer object: the loops that scan command buffers, kept equal to the functions that specify them. */
module CommandTracer {
  import opened Words
  import opened GuestMemory
  import opened GpuState
  import opened DrawList
  import opened DrawResolve
  import opened ShaderCache
  import opened GpuTrace
  import opened FrameTrace

  class GpuCommandTracer {
    const gpu: GpuRegisterState
    const drawList: FrameDrawList
    const cache: ShaderTranslationCache
    /** Guest memory, which the source reaches through its base pointer. */
    var memory: Memory
    /** The invocations of the graphics interrupt callback, by their context argument. */
    var interrupts: seq<u32>
    var fault: Option<Fault>
    ghost var log: seq<Executed>

    var ringBase: u32
    var ringSize: u32
    var rptrAddr: u32
    var callback: u32
    var context: u32
    var lastOffset: u32
    var vblank: u32
    var sysAddr: u32
    var sysSize: u32
    var sysOffset: u32
    var wptrDwords: u32
    var wptrObserved: bool

    ghost predicate Valid()
      reads this, gpu
    {
      gpu.Valid()
    }

    ghost function Now(): Machine
      reads this, gpu, gpu.regs, drawList, cache
      requires Valid()
    {
      Machine(memory, gpu.State(), drawList.building, cache.State(), interrupts, vblank, callback, context, log, fault)
    }

    ghost function State(): Tracer
      reads this, gpu, gpu.regs, drawList, cache
      requires Valid()
    {
      Tracer(Now(), ringBase, ringSize, rptrAddr, lastOffset, wptrDwords, wptrObserved, sysAddr, sysSize, sysOffset)
    }

    constructor (guest: Memory)
      ensures Valid() && fresh(gpu) && fresh(gpu.regs) && fresh(drawList) && fresh(cache)
      ensures Now() == Machine(guest, seq(REGISTER_COUNT, _ => 0), [], EMPTY, [], 0, 0, 0, [], None)
      ensures State() == Tracer(Now(), 0, 0, 0, 0, 0, false, 0, 0, 0)
    {
      gpu := new GpuRegisterState();
      drawList := new FrameDrawList();
      cache := new ShaderTranslationCache();
      memory, interrupts, fault, log := guest, [], None, [];
      ringBase, ringSize, rptrAddr, callback, context, lastOffset, vblank := 0, 0, 0, 0, 0, 0, 0;
      sysAddr, sysSize, sysOffset, wptrDwords, wptrObserved := 0, 0, 0, 0, false;
    }

    // ---------------------------------------------------------------- registration

    method RegisterRingBuffer(physAddr: u32, sizeLog2Raw: nat)
      requires Valid() && sizeLog2Raw + 3 < 32
      modifies this`ringBase, this`ringSize, this`lastOffset
      ensures Valid() && State() == WithRing(old(State()), physAddr, sizeLog2Raw)
      ensures ringBase == physAddr && ringSize == 8 * Pow2(sizeLog2Raw) && lastOffset == 0
    {
      RegisteredRing(State(), physAddr, sizeLog2Raw);
      ringBase := physAddr;
      RingSizeFits(sizeLog2Raw + 3);
      ringSize := Pow2(sizeLog2Raw + 3);
      lastOffset := 0;
    }

    method RegisterSystemCommandBuffer(addr: u32, size: u32)
      requires Valid()
      modifies this`sysAddr, this`sysSize, this`sysOffset
      ensures Valid() && State() == WithSystemBuffer(old(State()), addr, size)
      ensures if old(sysAddr) == 0 then sysAddr == addr && sysSize == size && sysOffset == 0
              else sysAddr == old(sysAddr) && sysSize == old(sysSize) && sysOffset == old(sysOffset)
    {
      if sysAddr != 0 {
        return;
      }
      sysAddr, sysSize, sysOffset := addr, size, 0;
    }

    method SetRptrWriteBackAddr(addr: u32)
      requires Valid()
      modifies this`rptrAddr
      ensures Valid() && State() == old(State()).(rptrAddr := addr)
    {
      rptrAddr := addr;
    }

    method SetGraphicsInterruptCallback(routine: u32, argument: u32)
      requires Valid()
      modifies this`callback, this`context
      ensures Valid()
      ensures State() == old(State()).(machine := old(Now()).(callback := routine, context := argument))
    {
      callback, context := routine, argument;
    }

    method ObserveWritePointer(dwordIndex: u32)
      requires Valid()
      modifies this`wptrDwords, this`wptrObserved
      ensures Valid() && State() == Observed(old(State()), dwordIndex)
      ensures wptrObserved && wptrDwords == dwordIndex
    {
      if wptrObserved && dwordIndex == wptrDwords {
        return;
      }
      wptrDwords, wptrObserved := dwordIndex, true;
    }

    // ---------------------------------------------------------------- packets

    /** Registers from `base` on set to the words behind the first `skip`. */
    method WriteRegisters(base: nat, oneRegister: bool, words: seq<u32>, skip: nat)
      requires Valid() && skip <= |words|
      modifies gpu.regs
      ensures Valid() && gpu.State() == WriteRun(old(gpu.State()), base, words[skip..], oneRegister)
    {
      for i := skip to |words|
        invariant gpu.State() == WriteRun(old(gpu.State()), base, words[skip..i], oneRegister)
      {
        assert words[skip..i + 1][..i - skip] == words[skip..i];
        gpu.WriteRegister(if oneRegister then base else base + (i - skip), words[i]);
      }
      assert words[skip..|words|] == words[skip..];
    }

    method ExecuteType0(words: seq<u32>)
      requires Valid() && |words| >= 2 && TypeOf(words[0]) == 0
      modifies gpu.regs
      ensures Valid() && Now() == Effect(old(Now()), words)
    {
      hide WriteRun;
      WriteRegisters(words[0] % 0x8000, words[0] / 0x8000 % 2 == 1, words, 1);
    }

    method EventWriteShd(words: seq<u32>)
      requires Valid() && IsStore(words)
      modifies this`memory
      ensures Valid() && Now() == Effect(old(Now()), words)
    {
      hide StoreU32;
      var address := DirectMap(ClearLowTwo(words[2]));
      var dataValue := if words[1] / 0x8000_0000 == 1 then vblank else words[3];
      memory := StoreU32(memory, address, dataValue);
    }

    method Interrupt(words: seq<u32>)
      requires Valid() && IsType3(words, OP_INTERRUPT) && |words| == 2
      modifies this`interrupts
      ensures Valid() && Now() == Effect(old(Now()), words)
    {
      if words[1] != 0 && callback != 0 {
        interrupts := interrupts + [context];
      }
    }

    method SetConstant(words: seq<u32>)
      requires Valid() && IsType3(words, OP_SET_CONSTANT)
      modifies gpu.regs
      ensures Valid() && Now() == Effect(old(Now()), words)
    {
      hide WriteRun;
      var subIndex, subType := words[1] % 0x800, words[1] / 0x1_0000 % 0x100;
      var baseRegister, validType := 0, true;
      match subType {
        case 0 => baseRegister := subIndex + 0x4000;
        case 1 => baseRegister := subIndex + 0x4800;
        case 2 => baseRegister := subIndex + 0x4900;
        case 3 => baseRegister := subIndex + 0x4908;
        case 4 => baseRegister := subIndex + 0x2000;
        case _ => validType := false;
      }
      if validType {
        WriteRegisters(baseRegister, false, words, 2);
      }
    }

    method DrawIndx2(words: seq<u32>)
      requires Valid() && IsType3(words, OP_DRAW_INDX_2) && fault.None?
      modifies gpu.regs, drawList, this`fault
      ensures Valid() && Now() == Effect(old(Now()), words)
    {
      hide ResolveDraw;
      gpu.WriteRegister(DRAW_INITIATOR_REGISTER, words[1]);
      var outcome := ResolveDrawIndx2(memory, gpu, cache.vertexResult, words);
      match outcome {
        case NoDraw =>
        case Draw(cmd) => drawList.AddDrawCommand(cmd);
        case ShortRecord => fault := Some(RecordTooShort);
      }
    }

    method DrawIndx(words: seq<u32>)
      requires Valid() && IsType3(words, OP_DRAW_INDX) && |words| >= 3
      modifies gpu.regs
      ensures Valid() && Now() == Effect(old(Now()), words)
    {
      gpu.WriteRegister(DRAW_INITIATOR_REGISTER, words[2]);
    }

    method ImLoadImmediate(words: seq<u32>)
      requires Valid() && IsType3(words, OP_IM_LOAD_IMMEDIATE) && |words| >= 3
      modifies cache
      ensures Valid() && Now() == Effect(old(Now()), words)
    {
      hide Load;
      var shaderType, start, sizeDwords := words[1], words[2] / 0x1_0000, words[2] % 0x1_0000;
      if start != 0 {
        return;
      }
      if |words| - 3 < sizeDwords {
        return;
      }
      if shaderType != 0 && shaderType != 1 {
        return;
      }
      var translated := cache.LoadImmediate(shaderType, words[3..3 + sizeDwords]);
    }

    /** Every type 3 packet but a followed indirect buffer. */
    method ExecuteType3(words: seq<u32>)
      requires Valid() && |words| >= 2 && TypeOf(words[0]) == 3 && fault.None?
      modifies this`memory, this`interrupts, this`fault, gpu.regs, drawList, cache
      ensures Valid() && Now() == Effect(old(Now()), words)
    {
      hide ResolveDraw;
      hide Load;
      var opcode, count := OpcodeOf(words[0]), |words| - 1;
      if opcode == OP_EVENT_WRITE_SHD && count == 3 {
        EventWriteShd(words);
      }
      if opcode == OP_INTERRUPT && count == 1 {
        Interrupt(words);
      }
      if opcode == OP_SET_CONSTANT {
        SetConstant(words);
      }
      if opcode == OP_DRAW_INDX_2 {
        DrawIndx2(words);
      } else if opcode == OP_DRAW_INDX && count >= 2 {
        DrawIndx(words);
      } else if opcode == OP_IM_LOAD_IMMEDIATE && count >= 2 {
        ImLoadImmediate(words);
      }
    }

    /** One whole packet, its words read where it lies; an indirect buffer is scanned from its start. */
    method ExecutePacket(bufferAddr: u32, offset: u32, words: seq<u32>, depth: nat)
      requires Valid() && depth <= MAX_INDIRECT_DEPTH && fault.None?
      requires words != [] && TypeOf(words[0]) in {0, 2, 3} && (TypeOf(words[0]) != 2 ==> |words| >= 2)
      modifies this`memory, this`interrupts, this`fault, this`log, gpu.regs, drawList, cache
      ensures Valid() && Now() == Execute(old(Now()), bufferAddr, offset, words, depth)
      decreases MAX_INDIRECT_DEPTH - depth, 0
    {
      hide Scan;
      log := log + [Executed(depth, bufferAddr, offset, words)];
      if TypeOf(words[0]) == 0 {
        ExecuteType0(words);
      } else if TypeOf(words[0]) == 3 {
        if OpcodeOf(words[0]) == OP_INDIRECT_BUFFER && |words| == 3 && depth < MAX_INDIRECT_DEPTH {
          var end := ScanBuffer(DirectMap(words[1]), 0, words[2] * 4 % TWO32, depth + 1);
        } else {
          ExecuteType3(words);
        }
      }
      hide ResolveDraw;
      hide Load;
      hide WriteRun;
    }

    /** The scanner: executes packets in place, from `startOffset` on, and returns where it stopped. */
    method ScanBuffer(bufferAddr: u32, startOffset: u32, size: u32, depth: nat) returns (offset: u32)
      requires Valid() && depth <= MAX_INDIRECT_DEPTH
      modifies this`memory, this`interrupts, this`fault, this`log, gpu.regs, drawList, cache
      ensures Valid()
      ensures var r := Scan(old(Now()), bufferAddr, startOffset, size, depth); Now() == r.machine && offset == r.offset
      decreases MAX_INDIRECT_DEPTH - depth, 1
    {
      hide Execute;
      offset := startOffset;
      while fault.None? && offset + 4 < TWO32 && offset + 4 <= size
        invariant Valid()
        invariant Scan(Now(), bufferAddr, offset, size, depth) == Scan(old(Now()), bufferAddr, startOffset, size, depth)
        decreases TWO32 - offset, fault.None?
      {
        var header := LoadU32(memory, Add32(bufferAddr, offset));
        if header == 0 || TypeOf(header) == 1 {
          return;
        }
        var length := if TypeOf(header) == 2 then 1 else 1 + CountOf(header);
        if offset + 4 * length >= TWO32 {
          fault := Some(OffsetWrap);
          return;
        }
        if offset + 4 * length > size {
          return;
        }
        ReadHeader(memory, bufferAddr, offset, length);
        ExecutePacket(bufferAddr, offset, ReadWords(memory, Add32(bufferAddr, offset), length), depth);
        offset := offset + 4 * length;
      }
      if fault.None? && offset + 4 >= TWO32 {
        fault := Some(OffsetWrap);
      }
    }

    static lemma ReadHeader(m: Memory, buffer: u32, offset: u32, n: nat)
      requires n >= 1
      ensures ReadWords(m, Add32(buffer, offset), n)[0] == LoadU32(m, Add32(buffer, offset))
    {
    }

    // ---------------------------------------------------------------- frames

    /** The ring part of a frame. */
    method TraceRing() returns (newOffset: u32)
      requires Valid()
      modifies this`memory, this`interrupts, this`fault, this`log, gpu.regs, drawList, cache
      ensures Valid()
      ensures var r := ScanRing(old(State()), old(Now()));
        State() == old(State()).(machine := r.machine) && newOffset == r.offset
    {
      hide Scan;
      var scanBound, wrapPending, wrapTarget := ringSize, false, 0;
      if wptrObserved {
        var wptrBytes := wptrDwords * 4;
        if lastOffset <= wptrBytes <= ringSize {
          scanBound := wptrBytes;
        } else if wptrBytes < lastOffset {
          wrapPending, wrapTarget := true, wptrBytes;
        }
      }
      var startOffset := lastOffset;
      newOffset := ScanBuffer(ringBase, lastOffset, scanBound, 0);
      if wrapPending && newOffset == startOffset {
        newOffset := ScanBuffer(ringBase, 0, wrapTarget, 0);
      }
    }

    /** The system command buffer's part of a frame. */
    method TraceSystem() returns (newOffset: u32)
      requires Valid()
      modifies this`memory, this`interrupts, this`fault, this`log, gpu.regs, drawList, cache
      ensures Valid()
      ensures var r := ScanSystem(old(State()), old(Now()));
        State() == old(State()).(machine := r.machine) && newOffset == r.offset
    {
      hide Scan;
      newOffset := sysOffset;
      if sysAddr != 0 {
        newOffset := ScanBuffer(sysAddr, sysOffset, sysSize, 0);
      }
    }

    method ScanAndTraceFrame()
      requires Valid()
      modifies this`memory, this`interrupts, this`fault, this`log, this`vblank, this`lastOffset, this`sysOffset,
               gpu.regs, drawList, cache
      ensures Valid() && State() == Frame(old(State()))
    {
      hide ScanRing;
      hide ScanSystem;
      hide StoreU32;
      ghost var t := State();
      CountFrame();
      ghost var ticked := State();
      var newOffset := TraceRing();
      ScanRingSettings(ticked, t, Tick(t.machine));
      ghost var ring := ScanRing(t, Tick(t.machine));
      lastOffset := newOffset;
      ghost var scanned := State();
      assert scanned == t.(machine := ring.machine, lastOffset := ring.offset);
      var systemOffset := TraceSystem();
      ScanSystemSettings(scanned, t, ring.machine);
      sysOffset := systemOffset;
      ReportConsumed(newOffset);
    }

    method CountFrame()
      requires Valid()
      modifies this`vblank
      ensures Valid() && State() == old(State()).(machine := Tick(old(Now())))
    {
      vblank := Add32(vblank, 1);
    }

    method ReportConsumed(offset: u32)
      requires Valid()
      modifies this`memory
      ensures Valid() && State() == old(State()).(machine := ReportOffset(old(State()), old(Now()), offset))
    {
      hide StoreU32;
      if rptrAddr != 0 {
        memory := StoreU32(memory, rptrAddr, offset / 4);
      }
    }

    /** What a frame scans depends on the tracer's settings, not on the machine kept beside them. */
    static lemma ScanRingSettings(t: Tracer, t': Tracer, m: Machine)
      requires t == t'.(machine := t.machine)
      ensures ScanRing(t, m) == ScanRing(t', m)
    {
      hide Scan;
    }

    static lemma ScanSystemSettings(t: Tracer, t': Tracer, m: Machine)
      requires t == t'.(machine := t.machine, lastOffset := t.lastOffset)
      ensures ScanSystem(t, m) == ScanSystem(t', m)
    {
      hide Scan;
    }
  }
}
