/**
 * The command ring between the guest, which produces packets and rings a doorbell, and the pump thread, which
 * consumes them: every interleaving executes each published packet once, whole and in order.
 */
module RingProtocol {
  import opened Words
  import opened GuestMemory
  import opened DrawResolve
  import opened ShaderCache
  import opened GpuTrace
  import opened FrameTrace
  import opened ScanTheorems
  import opened ScanFrames
  import opened ScanReplay

  // ---------------------------------------------------------------- packets lying in memory

  /** A packet the scanner accepts: not padding, not type 1, and as long as its header says. */
  predicate WholePacket(words: seq<u32>) {
    words != [] && words[0] != 0 && TypeOf(words[0]) != 1 && LengthOf(words[0]) == |words|
  }

  /** The packets `ps` lie one after the other from offset `from` to offset `to` of a buffer. */
  ghost predicate Lies(m: Memory, buffer: u32, from: nat, ps: seq<Executed>, to: nat)
    decreases |ps|
  {
    if ps == [] then from == to
    else
      var n := |ps| - 1;
      var words := ps[n].words;
      && WholePacket(words) && from + 4 * |words| <= to && buffer + to < TWO32
      && ps[n] == Executed(0, buffer, to - 4 * |words|, words)
      && ReadWords(m, buffer + to - 4 * |words|, |words|) == words
      && Lies(m, buffer, from, ps[..n], to - 4 * |words|)
  }

  lemma {:induction false} LiesForward(m: Memory, buffer: u32, from: nat, ps: seq<Executed>, to: nat)
    requires Lies(m, buffer, from, ps, to)
    ensures from <= to && (to - from) % 4 == 0
    decreases |ps|
  {
    hide WholePacket;
    hide ReadWords;
    if ps == [] {
    } else {
      var k := |ps[|ps| - 1].words|;
      LiesForward(m, buffer, from, ps[..|ps| - 1], to - 4 * k);
      assert to - from == to - 4 * k - from + 4 * k;
    }
  }

  lemma {:induction false} LiesKept(m: Memory, m': Memory, buffer: u32, from: nat, ps: seq<Executed>, to: nat)
    requires Lies(m, buffer, from, ps, to) && SameBytes(m, m', buffer + from, buffer + to)
    ensures Lies(m', buffer, from, ps, to)
    decreases |ps|
  {
    hide WholePacket;
    hide ReadWords;
    if ps == [] {
    } else {
      var words := ps[|ps| - 1].words;
      LiesForward(m, buffer, from, ps, to);
      SameBytesSameWords(m, m', buffer + from, buffer + to, buffer + to - 4 * |words|, |words|);
      LiesKept(m, m', buffer, from, ps[..|ps| - 1], to - 4 * |words|);
    }
  }

  lemma {:induction false} LiesJoin(m: Memory, buffer: u32, from: nat, ps: seq<Executed>, mid: nat, qs: seq<Executed>,
                                    to: nat)
    requires Lies(m, buffer, from, ps, mid) && Lies(m, buffer, mid, qs, to)
    ensures Lies(m, buffer, from, ps + qs, to)
    decreases |qs|
  {
    hide WholePacket;
    hide ReadWords;
    LiesForward(m, buffer, from, ps, mid);
    if qs == [] {
      assert ps + qs == ps;
    } else {
      var n, words := |qs| - 1, qs[|qs| - 1].words;
      LiesForward(m, buffer, mid, qs[..n], to - 4 * |words|);
      LiesJoin(m, buffer, from, ps, mid, qs[..n], to - 4 * |words|);
      assert (ps + qs)[..|ps| + n] == ps + qs[..n];
    }
  }

  /** A parse walks over packets lying there and goes on behind them. */
  lemma {:induction false} ParseLies(m: Memory, buffer: u32, from: nat, ps: seq<Executed>, to: nat, size: u32)
    requires Lies(m, buffer, from, ps, to) && to <= size && buffer + size < TWO32 && to < TWO32
    ensures from < TWO32
    ensures var rest := Parse(m, buffer, to, size);
      Parse(m, buffer, from, size) == Parsed(ps + rest.packets, rest.end, rest.wraps)
    decreases |ps|
  {
    hide PacketAt;
    hide WholePacket;
    hide ReadWords;
    if ps == [] {
    } else {
      var n, words := |ps| - 1, ps[|ps| - 1].words;
      var at := to - 4 * |words|;
      LiesForward(m, buffer, from, ps[..n], at);
      ParseLies(m, buffer, from, ps[..n], at, size);
      PacketFound(m, buffer, at, size, words);
      assert ps[..n] + [ps[n]] == ps;
    }
  }

  lemma PacketFound(m: Memory, buffer: u32, offset: nat, size: u32, words: seq<u32>)
    requires WholePacket(words) && offset + 4 * |words| <= size && buffer + size < TWO32
    requires ReadWords(m, buffer + offset, |words|) == words
    ensures PacketAt(m, buffer, offset, size) == Packet(words)
  {
    hide LengthOf;
    hide TypeOf;
    assert Add32(buffer, offset) == buffer + offset;
    assert ReadWords(m, buffer + offset, |words|)[0] == LoadU32(m, Add32(buffer + offset, 0));
  }

  /** Nothing more before the end of the ring: its physical end or a zero dword. */
  predicate Ended(m: Memory, buffer: u32, size: nat, at: nat) {
    at == size || (at + 4 <= size && LoadU32(m, Add32(buffer, at)) == 0)
  }

  lemma ParseEnded(m: Memory, buffer: u32, at: u32, size: u32)
    requires Ended(m, buffer, size, at) && size <= 0x8000_0000
    ensures Parse(m, buffer, at, size) == Parsed([], at, false)
  {
  }

  // ---------------------------------------------------------------- the system

  /**
   * The tracer, the doorbell register, what the guest last read of the consumed offset, the guest's write cursor,
   * and every packet it has published, in order and where it lay.
   */
  datatype System = System(tracer: Tracer, doorbell: u32, seen: nat, cursor: nat, published: seq<Executed>)

  /**
   * One step, by either side. The guest stores single dwords, lets the cursor pass a whole packet, turns back to the
   * ring's start, rings the doorbell or reads the consumed offset; the pump reads the doorbell or runs a frame.
   */
  datatype Action =
    | StoreDword(addr: u32, value: u32)
    | Publish(words: seq<u32>)
    | TurnBack
    | RingDoorbell
    | ReadConsumed
    | ObserveDoorbell
    | PumpFrame

  function Perform(s: System, a: Action): System {
    var t := s.tracer;
    match a
    case StoreDword(addr, value) =>
      s.(tracer := t.(machine := t.machine.(memory := StoreU32(t.machine.memory, addr, value))))
    case Publish(words) =>
      if s.cursor >= TWO32 then s
      else s.(cursor := s.cursor + 4 * |words|, published := s.published + [Executed(0, t.ringBase, s.cursor, words)])
    case TurnBack => s.(cursor := 0)
    case RingDoorbell => s.(doorbell := s.cursor / 4 % TWO32)
    case ReadConsumed => s.(seen := LoadU32(t.machine.memory, t.rptrAddr) * 4)
    case ObserveDoorbell => s.(tracer := Observed(t, s.doorbell))
    case PumpFrame => s.(tracer := Frame(t))
  }

  /** What the guest takes for free: from its cursor to the ring's end, or to just below the consumed offset. */
  predicate Room(s: System, end: nat) {
    if s.seen <= s.cursor then end <= s.tracer.ringSize else end < s.seen
  }

  predicate Apart(addr: u32, lo: int, hi: int) {
    addr + 4 <= lo || hi <= addr
  }

  /**
   * The guest's side of the protocol, and what is asked of the packets a frame executes, at any depth: none stores
   * into the ring, follows an oversized buffer or loads a vertex shader with records shorter than a position.
   */
  ghost predicate Allowed(s: System, a: Action) {
    var t := s.tracer;
    match a
    case StoreDword(addr, _) =>
      && Apart(addr, t.rptrAddr, t.rptrAddr + 4)
      && (Apart(addr, t.ringBase, t.ringBase + t.ringSize)
          || (t.ringBase + s.cursor <= addr && Room(s, addr - t.ringBase + 4)))
    case Publish(words) =>
      && WholePacket(words) && Room(s, s.cursor + 4 * |words|)
      && t.ringBase + s.cursor < TWO32
      && ReadWords(t.machine.memory, t.ringBase + s.cursor, |words|) == words
    case TurnBack => 0 < s.seen <= s.cursor && Ended(t.machine.memory, t.ringBase, t.ringSize, s.cursor)
    case PumpFrame =>
      && t.wptrObserved
      && Modest(Frame(t).machine.log, |t.machine.log|)
      && MissFrom(Frame(t).machine.log, |t.machine.log|, t.ringBase, t.ringBase + t.ringSize)
    case _ => true
  }

  /** A ring just registered, nothing consumed, and the consumed offset outside the ring. */
  ghost predicate Fresh(s: System) {
    var t := s.tracer;
    && Layout(t)
    && t.lastOffset == 0 && t.wptrDwords == 0 && s.doorbell == 0 && s.seen == 0 && s.cursor == 0 && s.published == []
    && LoadU32(t.machine.memory, t.rptrAddr) == 0
    && TopLevel(t.machine.log, t.ringBase) == []
    && Sane(t)
  }

  ghost predicate Layout(t: Tracer) {
    && t.ringSize % 4 == 0 && t.ringSize <= 0x8000_0000 && t.ringBase + t.ringSize < TWO32
    && t.rptrAddr != 0 && Apart(t.rptrAddr, t.ringBase, t.ringBase + t.ringSize)
    && t.sysAddr != t.ringBase
  }

  ghost predicate Behaves(start: System, actions: seq<Action>)
    decreases |actions|
  {
    actions == [] ||
    (Behaves(start, actions[..|actions| - 1])
     && Allowed(AfterActions(start, actions[..|actions| - 1]), actions[|actions| - 1]))
  }

  function AfterActions(start: System, actions: seq<Action>): System
    decreases |actions|
  {
    if actions == [] then start
    else Perform(AfterActions(start, actions[..|actions| - 1]), actions[|actions| - 1])
  }

  // ---------------------------------------------------------------- the invariant

  /** Packets from one offset of the ring on to another, straight or around the ring's end. */
  datatype Stretch = Straight(packets: seq<Executed>) | Bent(tail: seq<Executed>, turn: nat, head: seq<Executed>)

  function PacketsOf(st: Stretch): seq<Executed> {
    match st
    case Straight(packets) => packets
    case Bent(tail, _, head) => tail + head
  }

  ghost predicate Covers(m: Memory, t: Tracer, from: nat, st: Stretch, to: nat) {
    match st
    case Straight(packets) => Lies(m, t.ringBase, from, packets, to)
    case Bent(tail, turn, head) =>
      && Lies(m, t.ringBase, from, tail, turn)
      && Ended(m, t.ringBase, t.ringSize, turn)
      && Lies(m, t.ringBase, 0, head, to)
  }

  /** What is pending, cut at the write pointer observed and at the doorbell. */
  datatype Pending = Pending(observed: Stretch, rung: Stretch, unrung: Stretch)

  predicate Turned(g: Pending) {
    g.observed.Bent? || g.rung.Bent? || g.unrung.Bent?
  }

  predicate TurnedOnce(g: Pending) {
    && !(g.observed.Bent? && g.rung.Bent?) && !(g.observed.Bent? && g.unrung.Bent?) && !(g.rung.Bent? && g.unrung.Bent?)
  }

  /** The pending packets lie in the ring from the consumed offset to the guest's cursor. */
  ghost predicate Chain(s: System, g: Pending) {
    var t, m := s.tracer, s.tracer.machine.memory;
    && Covers(m, t, t.lastOffset, g.observed, 4 * t.wptrDwords)
    && Covers(m, t, 4 * t.wptrDwords, g.rung, 4 * s.doorbell)
    && Covers(m, t, 4 * s.doorbell, g.unrung, s.cursor)
    && TurnedOnce(g)
  }

  /** Before the turn the cursor is ahead of what is consumed; after it, strictly behind. */
  ghost predicate Order(s: System, g: Pending) {
    var t := s.tracer;
    && s.cursor <= t.ringSize && s.cursor % 4 == 0 && s.seen <= t.ringSize
    && t.lastOffset <= t.ringSize && t.lastOffset % 4 == 0
    && (if Turned(g) then s.cursor < s.seen <= t.lastOffset
        else t.lastOffset <= s.cursor && (s.seen <= t.lastOffset || s.cursor < s.seen))
  }

  ghost predicate Inv(s: System, g: Pending) {
    var t := s.tracer;
    && Layout(t) && Sane(t)
    && LoadU32(t.machine.memory, t.rptrAddr) * 4 == t.lastOffset
    && Order(s, g) && Chain(s, g)
    && s.published == TopLevel(t.machine.log, t.ringBase) + PacketsOf(g.observed) + PacketsOf(g.rung)
                      + PacketsOf(g.unrung)
  }

  // ---------------------------------------------------------------- the guest's steps

  /** The bytes the consumer may still read: up to the cursor, and after a turn everything from the consumed offset. */
  ghost predicate LiveKept(s: System, g: Pending, m': Memory) {
    var t, m := s.tracer, s.tracer.machine.memory;
    if Turned(g) then
      SameBytes(m, m', t.ringBase, t.ringBase + s.cursor)
      && SameBytes(m, m', t.ringBase + t.lastOffset, t.ringBase + t.ringSize)
    else SameBytes(m, m', t.ringBase + t.lastOffset, t.ringBase + s.cursor)
  }

  lemma ChainOrder(s: System, g: Pending)
    requires Chain(s, g)
    ensures var L, W, D, c := s.tracer.lastOffset, 4 * s.tracer.wptrDwords, 4 * s.doorbell, s.cursor;
      && (if g.observed.Bent? then L <= g.observed.turn <= s.tracer.ringSize else L <= W)
      && (if g.rung.Bent? then W <= g.rung.turn <= s.tracer.ringSize else W <= D)
      && (if g.unrung.Bent? then D <= g.unrung.turn <= s.tracer.ringSize else D <= c)
  {
    var t, m := s.tracer, s.tracer.machine.memory;
    CoversForward(m, t, t.lastOffset, g.observed, 4 * t.wptrDwords);
    CoversForward(m, t, 4 * t.wptrDwords, g.rung, 4 * s.doorbell);
    CoversForward(m, t, 4 * s.doorbell, g.unrung, s.cursor);
  }

  lemma CoversForward(m: Memory, t: Tracer, from: nat, st: Stretch, to: nat)
    requires Covers(m, t, from, st, to)
    ensures if st.Bent? then from <= st.turn <= t.ringSize else from <= to
  {
    hide Lies;
    match st
    case Straight(ps) => LiesForward(m, t.ringBase, from, ps, to);
    case Bent(tail, turn, _) => LiesForward(m, t.ringBase, from, tail, turn);
  }

  lemma CoversKept(m: Memory, m': Memory, t: Tracer, from: nat, st: Stretch, to: nat)
    requires Covers(m, t, from, st, to) && t.ringBase + t.ringSize < TWO32
    requires if st.Bent?
             then SameBytes(m, m', t.ringBase + from, t.ringBase + t.ringSize)
                  && SameBytes(m, m', t.ringBase, t.ringBase + to)
             else SameBytes(m, m', t.ringBase + from, t.ringBase + to)
    ensures Covers(m', t, from, st, to)
  {
    hide Lies;
    CoversForward(m, t, from, st, to);
    match st
    case Straight(ps) => LiesKept(m, m', t.ringBase, from, ps, to);
    case Bent(tail, turn, head) =>
      LiesKept(m, m', t.ringBase, from, tail, turn);
      LiesKept(m, m', t.ringBase, 0, head, to);
      if turn < t.ringSize {
        assert Add32(t.ringBase, turn) == t.ringBase + turn;
      }
  }

  /** A memory that keeps the live bytes keeps the whole chain. */
  lemma ChainKept(s: System, g: Pending, m': Memory)
    requires Chain(s, g) && Order(s, g) && Layout(s.tracer) && LiveKept(s, g, m')
    ensures Chain(s.(tracer := s.tracer.(machine := s.tracer.machine.(memory := m'))), g)
  {
    hide Covers;
    ChainOrder(s, g);
    var t, m := s.tracer, s.tracer.machine.memory;
    CoversKept(m, m', t, t.lastOffset, g.observed, 4 * t.wptrDwords);
    CoversKept(m, m', t, 4 * t.wptrDwords, g.rung, 4 * s.doorbell);
    CoversKept(m, m', t, 4 * s.doorbell, g.unrung, s.cursor);
    var t' := t.(machine := t.machine.(memory := m'));
    SameCovers(m', t, t', t.lastOffset, g.observed, 4 * t.wptrDwords);
    SameCovers(m', t, t', 4 * t.wptrDwords, g.rung, 4 * s.doorbell);
    SameCovers(m', t, t', 4 * s.doorbell, g.unrung, s.cursor);
  }

  lemma SameCovers(m: Memory, t: Tracer, t': Tracer, from: nat, st: Stretch, to: nat)
    requires t.ringBase == t'.ringBase && t.ringSize == t'.ringSize
    ensures Covers(m, t, from, st, to) == Covers(m, t', from, st, to)
  {
  }

  lemma StoreKeepsInv(s: System, g: Pending, addr: u32, value: u32)
    requires Inv(s, g) && Allowed(s, StoreDword(addr, value))
    ensures Inv(Perform(s, StoreDword(addr, value)), g)
  {
    hide Chain;
    hide StoreU32;
    hide LoadU32;
    hide SameBytes;
    var t, m := s.tracer, s.tracer.machine.memory;
    var m' := StoreU32(m, addr, value);
    StoreThenLoad(m, addr, value, t.rptrAddr);
    if Apart(addr, t.ringBase, t.ringBase + t.ringSize) {
      StoreKeepsRange(m, addr, value, t.ringBase, t.ringBase + s.cursor);
      StoreKeepsRange(m, addr, value, t.ringBase + t.lastOffset, t.ringBase + t.ringSize);
      if !Turned(g) {
        StoreKeepsRange(m, addr, value, t.ringBase + t.lastOffset, t.ringBase + s.cursor);
      }
    } else {
      StoreKeepsRange(m, addr, value, t.ringBase, t.ringBase + s.cursor);
      if Turned(g) {
        StoreKeepsRange(m, addr, value, t.ringBase + t.lastOffset, t.ringBase + t.ringSize);
      } else {
        StoreKeepsRange(m, addr, value, t.ringBase + t.lastOffset, t.ringBase + s.cursor);
      }
    }
    ChainKept(s, g, m');
  }

  // Growing the last stretch, and moving its cut points.

  function Extended(st: Stretch, more: Stretch): Stretch
    requires !(st.Bent? && more.Bent?)
  {
    match st
    case Bent(tail, turn, head) => Bent(tail, turn, head + more.packets)
    case Straight(packets) =>
      match more
      case Straight(ps) => Straight(packets + ps)
      case Bent(tail, turn, head) => Bent(packets + tail, turn, head)
  }

  lemma ExtendCovers(m: Memory, t: Tracer, from: nat, st: Stretch, mid: nat, more: Stretch, to: nat)
    requires Covers(m, t, from, st, mid) && Covers(m, t, mid, more, to) && !(st.Bent? && more.Bent?)
    ensures Covers(m, t, from, Extended(st, more), to)
    ensures PacketsOf(Extended(st, more)) == PacketsOf(st) + PacketsOf(more)
  {
    hide Lies;
    match st
    case Bent(tail, turn, head) =>
      LiesJoin(m, t.ringBase, 0, head, mid, more.packets, to);
      assert tail + (head + more.packets) == tail + head + more.packets;
    case Straight(packets) =>
      match more
      case Straight(ps) => LiesJoin(m, t.ringBase, from, packets, mid, ps, to);
      case Bent(tail, turn, head) =>
        LiesJoin(m, t.ringBase, from, packets, mid, tail, turn);
        assert packets + tail + head == packets + (tail + head);
  }

  lemma PublishKeepsInv(s: System, g: Pending, words: seq<u32>)
    requires Inv(s, g) && Allowed(s, Publish(words))
    ensures var p := Executed(0, s.tracer.ringBase, s.cursor, words);
      Inv(Perform(s, Publish(words)), g.(unrung := Extended(g.unrung, Straight([p]))))
  {
    hide Covers;
    hide WholePacket;
    hide ReadWords;
    var t, m := s.tracer, s.tracer.machine.memory;
    var p := Executed(0, t.ringBase, s.cursor, words);
    var more := Straight([p]);
    PacketCovers(m, t, s.cursor, words);
    ExtendCovers(m, t, 4 * s.doorbell, g.unrung, s.cursor, more, s.cursor + 4 * |words|);
  }

  lemma PacketCovers(m: Memory, t: Tracer, at: nat, words: seq<u32>)
    requires WholePacket(words) && t.ringBase + at + 4 * |words| < TWO32
    requires ReadWords(m, t.ringBase + at, |words|) == words
    ensures Covers(m, t, at, Straight([Executed(0, t.ringBase, at, words)]), at + 4 * |words|)
  {
    hide WholePacket;
    hide ReadWords;
    var ps := [Executed(0, t.ringBase, at, words)];
    NothingLies(m, t.ringBase, at);
    assert ps[..0] == [] && at + 4 * |words| - 4 * |words| == at;
  }

  lemma TurnKeepsInv(s: System, g: Pending)
    requires Inv(s, g) && Allowed(s, TurnBack)
    ensures g.unrung.Straight? && Inv(Perform(s, TurnBack), g.(unrung := Bent(g.unrung.packets, s.cursor, [])))
  {
    hide Lies;
    assert Lies(s.tracer.machine.memory, s.tracer.ringBase, 0, [], 0) by {
      NothingLies(s.tracer.machine.memory, s.tracer.ringBase, 0);
    }
    ChainOrder(s, g);
  }

  lemma NothingLies(m: Memory, buffer: u32, at: nat)
    ensures Lies(m, buffer, at, [], at)
  {
  }

  lemma RingKeepsInv(s: System, g: Pending)
    requires Inv(s, g)
    ensures !(g.rung.Bent? && g.unrung.Bent?)
    ensures Inv(Perform(s, RingDoorbell), Pending(g.observed, Extended(g.rung, g.unrung), Straight([])))
  {
    hide Covers;
    hide TopLevel;
    hide LoadU32;
    var t, m := s.tracer, s.tracer.machine.memory;
    ExtendCovers(m, t, 4 * t.wptrDwords, g.rung, 4 * s.doorbell, g.unrung, s.cursor);
    NothingCovered(m, t, s.cursor);
  }

  lemma NothingCovered(m: Memory, t: Tracer, at: nat)
    ensures Covers(m, t, at, Straight([]), at)
  {
  }

  lemma ObserveKeepsInv(s: System, g: Pending)
    requires Inv(s, g)
    ensures !(g.observed.Bent? && g.rung.Bent?)
    ensures Inv(Perform(s, ObserveDoorbell), Pending(Extended(g.observed, g.rung), Straight([]), g.unrung))
  {
    hide Covers;
    hide TopLevel;
    hide LoadU32;
    var t, m := s.tracer, s.tracer.machine.memory;
    var t', g' := Observed(t, s.doorbell), Pending(Extended(g.observed, g.rung), Straight([]), g.unrung);
    ExtendCovers(m, t, t.lastOffset, g.observed, 4 * t.wptrDwords, g.rung, 4 * s.doorbell);
    NothingCovered(m, t, 4 * s.doorbell);
    SameCovers(m, t, t', t.lastOffset, g'.observed, 4 * s.doorbell);
    SameCovers(m, t, t', 4 * s.doorbell, g'.rung, 4 * s.doorbell);
    SameCovers(m, t, t', 4 * s.doorbell, g'.unrung, s.cursor);
  }

  // ---------------------------------------------------------------- a frame

  lemma MissFewer(log: seq<Executed>, k: nat, lo: int, hi: int, k': nat, lo': int, hi': int)
    requires MissFrom(log, k, lo, hi) && k <= k' && lo <= lo' && hi' <= hi
    ensures MissFrom(log, k', lo', hi')
  {
  }

  lemma MissPrefix(log: seq<Executed>, longer: seq<Executed>, k: nat, lo: int, hi: int)
    requires log <= longer && MissFrom(longer, k, lo, hi)
    ensures MissFrom(log, k, lo, hi)
  {
    hide Misses;
  }

  /** One scan of the ring buffer during a frame. */
  lemma RingScan(m: Machine, t: Tracer, offset: u32, size: u32)
    requires Layout(t) && size <= t.ringSize
    requires Scan(m, t.ringBase, offset, size, 0).machine.fault.None?
    requires MissFrom(Scan(m, t.ringBase, offset, size, 0).machine.log, |m.log|, t.ringBase, t.ringBase + t.ringSize)
    ensures var r, p := Scan(m, t.ringBase, offset, size, 0), Parse(m.memory, t.ringBase, offset, size);
      && TopLevel(r.machine.log, t.ringBase) == TopLevel(m.log, t.ringBase) + p.packets
      && r.offset == p.end
      && SameBytes(m.memory, r.machine.memory, t.ringBase, t.ringBase + t.ringSize)
  {
    hide Scan;
    hide MissFrom;
    hide SameBytes;
    MissFewer(Scan(m, t.ringBase, offset, size, 0).machine.log, |m.log|, t.ringBase, t.ringBase + t.ringSize,
              |m.log|, t.ringBase, t.ringBase + size);
    ScanIsParse(m, t.ringBase, offset, size);
    ScanKeepsBytes(m, t.ringBase, offset, size, 0, t.ringBase, t.ringBase + t.ringSize);
  }

  /** The system command buffer and the report after the ring leave the ring, and its part of the log, alone. */
  lemma AfterRing(t: Tracer)
    requires Layout(t) && Frame(t).machine.fault.None?
    requires MissFrom(Frame(t).machine.log, |t.machine.log|, t.ringBase, t.ringBase + t.ringSize)
    ensures var ring := ScanRing(t, Tick(t.machine));
      && ring.machine.fault.None? && t.machine.log <= ring.machine.log
      && MissFrom(ring.machine.log, |t.machine.log|, t.ringBase, t.ringBase + t.ringSize)
      && TopLevel(Frame(t).machine.log, t.ringBase) == TopLevel(ring.machine.log, t.ringBase)
      && SameBytes(ring.machine.memory, Frame(t).machine.memory, t.ringBase, t.ringBase + t.ringSize)
      && LoadU32(Frame(t).machine.memory, t.rptrAddr) == ring.offset / 4
  {
    hide Scan;
    hide MissFrom;
    hide SameBytes;
    hide StoreU32;
    hide LoadU32;
    hide ScanRing;
    var ring := ScanRing(t, Tick(t.machine));
    var sys := ScanSystem(t, ring.machine);
    RingGrows(t);
    var lo, hi := t.ringBase, t.ringBase + t.ringSize;
    if t.sysAddr != 0 {
      ScanExtends(ring.machine, t.sysAddr, t.sysOffset, t.sysSize, 0);
      OtherBufferQuiet(ring.machine, t.sysAddr, t.sysOffset, t.sysSize, t.ringBase);
      MissFewer(sys.machine.log, |t.machine.log|, lo, hi, |ring.machine.log|, lo, hi);
      ScanKeepsBytes(ring.machine, t.sysAddr, t.sysOffset, t.sysSize, 0, lo, hi);
    } else {
      SameBytesRefl(ring.machine.memory, lo, hi);
    }
    MissPrefix(ring.machine.log, sys.machine.log, |t.machine.log|, lo, hi);
    StoreKeepsRange(sys.machine.memory, t.rptrAddr, ring.offset / 4, lo, hi);
    StoreThenLoad(sys.machine.memory, t.rptrAddr, ring.offset / 4, t.rptrAddr);
    SameBytesJoin(ring.machine.memory, sys.machine.memory, Frame(t).machine.memory, lo, hi);
  }

  /** A frame that does not turn: the packets between what was consumed and the scan bound. */
  lemma StraightFrame(t: Tracer)
    requires Layout(t) && Frame(t).machine.fault.None? && ScanBound(t) <= t.ringSize
    requires MissFrom(Frame(t).machine.log, |t.machine.log|, t.ringBase, t.ringBase + t.ringSize)
    requires var p := Parse(t.machine.memory, t.ringBase, t.lastOffset, ScanBound(t));
      !(WrapPending(t) && p.end == t.lastOffset)
    ensures var p := Parse(t.machine.memory, t.ringBase, t.lastOffset, ScanBound(t));
      && Frame(t).lastOffset == p.end
      && TopLevel(Frame(t).machine.log, t.ringBase) == TopLevel(t.machine.log, t.ringBase) + p.packets
      && FrameKeeps(t)
  {
    hide Scan;
    hide MissFrom;
    hide SameBytes;
    hide Parse;
    hide StoreU32;
    hide LoadU32;
    AfterRing(t);
    var m := Tick(t.machine);
    var tail := Scan(m, t.ringBase, t.lastOffset, ScanBound(t), 0);
    TailMisses(t);
    RingScan(m, t, t.lastOffset, ScanBound(t));
    SameBytesJoin(m.memory, tail.machine.memory, Frame(t).machine.memory, t.ringBase, t.ringBase + t.ringSize);
  }

  ghost predicate FrameKeeps(t: Tracer) {
    && SameBytes(t.machine.memory, Frame(t).machine.memory, t.ringBase, t.ringBase + t.ringSize)
    && LoadU32(Frame(t).machine.memory, t.rptrAddr) == Frame(t).lastOffset / 4
  }

  /** The first of a frame's ring scans neither faults nor stores into the ring. */
  lemma TailMisses(t: Tracer)
    requires ScanRing(t, Tick(t.machine)).machine.fault.None?
    requires MissFrom(ScanRing(t, Tick(t.machine)).machine.log, |t.machine.log|, t.ringBase, t.ringBase + t.ringSize)
    ensures var tail := Scan(Tick(t.machine), t.ringBase, t.lastOffset, ScanBound(t), 0);
      && tail.machine.fault.None? && t.machine.log <= tail.machine.log
      && MissFrom(tail.machine.log, |t.machine.log|, t.ringBase, t.ringBase + t.ringSize)
  {
    hide Scan;
    hide MissFrom;
    var m := Tick(t.machine);
    var tail := Scan(m, t.ringBase, t.lastOffset, ScanBound(t), 0);
    ScanExtends(m, t.ringBase, t.lastOffset, ScanBound(t), 0);
    ScanExtends(tail.machine, t.ringBase, 0, t.wptrDwords * 4 % TWO32, 0);
    MissPrefix(tail.machine.log, ScanRing(t, m).machine.log, |t.machine.log|, t.ringBase, t.ringBase + t.ringSize);
  }

  /** A frame that turns: the tail held nothing, and scanning went on from the ring's start. */
  lemma TurningFrame(t: Tracer)
    requires Layout(t) && Frame(t).machine.fault.None? && WrapPending(t) && t.lastOffset <= t.ringSize
    requires MissFrom(Frame(t).machine.log, |t.machine.log|, t.ringBase, t.ringBase + t.ringSize)
    requires Parse(t.machine.memory, t.ringBase, t.lastOffset, t.ringSize) == Parsed([], t.lastOffset, false)
    ensures var p := Parse(t.machine.memory, t.ringBase, 0, t.wptrDwords * 4);
      && Frame(t).lastOffset == p.end
      && TopLevel(Frame(t).machine.log, t.ringBase) == TopLevel(t.machine.log, t.ringBase) + p.packets
      && FrameKeeps(t)
  {
    hide Scan;
    hide MissFrom;
    hide SameBytes;
    hide Parse;
    hide StoreU32;
    hide LoadU32;
    AfterRing(t);
    var m, lo, hi := Tick(t.machine), t.ringBase, t.ringBase + t.ringSize;
    var tail := Scan(m, t.ringBase, t.lastOffset, ScanBound(t), 0);
    TailMisses(t);
    RingScan(m, t, t.lastOffset, t.ringSize);
    var ring := Scan(tail.machine, t.ringBase, 0, t.wptrDwords * 4, 0);
    MissFewer(ring.machine.log, |t.machine.log|, lo, hi, |tail.machine.log|, lo, hi);
    RingScan(tail.machine, t, 0, t.wptrDwords * 4);
    SameParse(m.memory, tail.machine.memory, t.ringBase, 0, t.wptrDwords * 4) by {
      SameBytesSub(m.memory, tail.machine.memory, lo, hi, t.ringBase + t.wptrDwords * 4);
    }
    SameBytesJoin(m.memory, tail.machine.memory, ring.machine.memory, lo, hi);
    SameBytesJoin(m.memory, ring.machine.memory, Frame(t).machine.memory, lo, hi);
  }

  lemma {:induction false} LiesNonempty(m: Memory, buffer: u32, from: nat, ps: seq<Executed>, to: nat)
    requires Lies(m, buffer, from, ps, to) && ps != []
    ensures from < to
  {
    var words := ps[|ps| - 1].words;
    LiesForward(m, buffer, from, ps[..|ps| - 1], to - 4 * |words|);
  }

  /** A parse of a stretch with nothing behind it. */
  lemma ParseExactly(m: Memory, buffer: u32, from: u32, ps: seq<Executed>, to: nat, size: u32)
    requires Lies(m, buffer, from, ps, to) && Ended(m, buffer, size, to)
    requires size <= 0x8000_0000 && buffer + size < TWO32
    ensures to < TWO32 && Parse(m, buffer, from, size) == Parsed(ps, to, false)
  {
    hide Parse;
    hide Lies;
    ParseLies(m, buffer, from, ps, to, size);
    ParseEnded(m, buffer, to, size);
    assert ps + [] == ps;
  }

  /** What a frame leaves pending. */
  function AfterFrame(g: Pending): Pending {
    match g.observed
    case Straight(_) => g.(observed := Straight([]))
    case Bent(tail, turn, head) => g.(observed := if tail == [] then Straight([]) else Bent([], turn, head))
  }

  /** What a frame executes. */
  function FrameExecutes(g: Pending): seq<Executed> {
    match g.observed
    case Straight(packets) => packets
    case Bent(tail, _, head) => if tail == [] then head else tail
  }

  lemma SaneHasNoFault(t: Tracer)
    requires Sane(t)
    ensures t.machine.fault.None?
  {
  }

  lemma FrameResult(s: System, g: Pending)
    requires Inv(s, g) && Allowed(s, PumpFrame)
    ensures var t, t' := s.tracer, Frame(s.tracer);
      && TopLevel(t'.machine.log, t.ringBase) == TopLevel(t.machine.log, t.ringBase) + FrameExecutes(g)
      && t'.lastOffset == (match g.observed
                           case Straight(_) => 4 * t.wptrDwords
                           case Bent(tail, turn, _) => if tail == [] then 4 * t.wptrDwords else turn)
      && FrameKeeps(t)
  {
    hide Scan;
    hide Parse;
    hide Lies;
    hide MissFrom;
    hide SameBytes;
    hide StoreU32;
    hide LoadU32;
    hide Frame;
    hide FrameKeeps;
    hide Sane;
    hide Modest;
    var t, m := s.tracer, s.tracer.machine.memory;
    ChainOrder(s, g);
    FrameSane(t);
    SaneHasNoFault(Frame(t));
    match g.observed
    case Straight(packets) =>
      assert ScanBound(t) == 4 * t.wptrDwords && !WrapPending(t);
      ParseExactly(m, t.ringBase, t.lastOffset, packets, 4 * t.wptrDwords, ScanBound(t));
      StraightFrame(t);
    case Bent(tail, turn, head) =>
      assert WrapPending(t) && ScanBound(t) == t.ringSize;
      ParseExactly(m, t.ringBase, t.lastOffset, tail, turn, t.ringSize);
      if tail == [] {
        assert turn == t.lastOffset by { LiesNothing(m, t.ringBase, t.lastOffset, turn); }
        ParseExactly(m, t.ringBase, 0, head, 4 * t.wptrDwords, 4 * t.wptrDwords);
        TurningFrame(t);
      } else {
        LiesNonempty(m, t.ringBase, t.lastOffset, tail, turn);
        StraightFrame(t);
      }
  }

  lemma LiesNothing(m: Memory, buffer: u32, from: nat, to: nat)
    requires Lies(m, buffer, from, [], to)
    ensures from == to
  {
  }

  lemma ObservedAfterFrame(s: System, g: Pending)
    requires Inv(s, g)
    ensures var t := s.tracer;
      var L' := (match g.observed
                 case Straight(_) => 4 * t.wptrDwords
                 case Bent(tail, turn, _) => if tail == [] then 4 * t.wptrDwords else turn);
      && Covers(t.machine.memory, t, L', AfterFrame(g).observed, 4 * t.wptrDwords)
      && L' % 4 == 0 && L' <= t.ringSize && (Turned(AfterFrame(g)) ==> t.lastOffset <= L')
      && (Turned(AfterFrame(g)) ==> Turned(g))
      && (!Turned(AfterFrame(g)) ==> L' <= s.cursor && (!Turned(g) ==> t.lastOffset <= L'))
      && PacketsOf(g.observed) == FrameExecutes(g) + PacketsOf(AfterFrame(g).observed)
  {
    hide Lies;
    hide LoadU32;
    var t, m := s.tracer, s.tracer.machine.memory;
    ChainOrder(s, g);
    match g.observed
    case Straight(packets) =>
      NothingLies(m, t.ringBase, 4 * t.wptrDwords);
    case Bent(tail, turn, head) =>
      LiesForward(m, t.ringBase, t.lastOffset, tail, turn);
      NothingLies(m, t.ringBase, turn);
      NothingLies(m, t.ringBase, 4 * t.wptrDwords);
  }

  lemma FrameKeepsChain(s: System, g: Pending)
    requires Inv(s, g) && Allowed(s, PumpFrame)
    ensures Chain(s.(tracer := Frame(s.tracer)), AfterFrame(g)) && Order(s.(tracer := Frame(s.tracer)), AfterFrame(g))
  {
    hide Covers;
    hide SameBytes;
    hide LoadU32;
    hide TopLevel;
    hide MissFrom;
    var t, m := s.tracer, s.tracer.machine.memory;
    var t', g' := Frame(t), AfterFrame(g);
    FrameResult(s, g);
    ObservedAfterFrame(s, g);
    FrameSettings(t);
    hide Frame;
    var mid := s.(tracer := t.(lastOffset := t'.lastOffset));
    SameCovers(m, t, mid.tracer, t'.lastOffset, g'.observed, 4 * t.wptrDwords);
    SameCovers(m, t, mid.tracer, 4 * t.wptrDwords, g.rung, 4 * s.doorbell);
    SameCovers(m, t, mid.tracer, 4 * s.doorbell, g.unrung, s.cursor);
    assert Chain(mid, g') && Order(mid, g');
    LiveByRing(mid, g', t'.machine.memory);
    ChainKept(mid, g', t'.machine.memory);
    var after := mid.(tracer := mid.tracer.(machine := mid.tracer.machine.(memory := t'.machine.memory)));
    ChainDependsOn(after, s.(tracer := t'), g');
  }

  lemma Regroup(log: seq<Executed>, now: seq<Executed>, later: seq<Executed>, rung: seq<Executed>,
                unrung: seq<Executed>)
    ensures log + (now + later) + rung + unrung == log + now + later + rung + unrung
  {
    assert log + (now + later) == log + now + later;
  }

  lemma FrameKeepsInv(s: System, g: Pending)
    requires Inv(s, g) && Allowed(s, PumpFrame)
    ensures Inv(Perform(s, PumpFrame), AfterFrame(g))
  {
    hide Chain;
    hide Order;
    hide Covers;
    hide SameBytes;
    hide LoadU32;
    hide TopLevel;
    hide MissFrom;
    hide Frame;
    hide FrameExecutes;
    hide PacketsOf;
    hide Sane;
    hide Modest;
    FrameSane(s.tracer);
    FrameResult(s, g);
    ObservedAfterFrame(s, g);
    FrameSettings(s.tracer);
    FrameKeepsChain(s, g);
    Regroup(TopLevel(s.tracer.machine.log, s.tracer.ringBase), FrameExecutes(g), PacketsOf(AfterFrame(g).observed),
            PacketsOf(g.rung), PacketsOf(g.unrung));
  }

  /** A frame changes neither where the ring is nor what was observed. */
  lemma FrameSettings(t: Tracer)
    ensures var t' := Frame(t);
      t' == t.(machine := t'.machine, lastOffset := t'.lastOffset, sysOffset := t'.sysOffset)
  {
    hide Scan;
    hide ScanRing;
    hide ScanSystem;
  }

  lemma LiveByRing(s: System, g: Pending, m': Memory)
    requires Layout(s.tracer) && Order(s, g)
    requires SameBytes(s.tracer.machine.memory, m', s.tracer.ringBase, s.tracer.ringBase + s.tracer.ringSize)
    ensures LiveKept(s, g, m')
  {
  }

  lemma ChainDependsOn(s: System, s': System, g: Pending)
    requires Chain(s, g) && s'.doorbell == s.doorbell && s'.cursor == s.cursor
    requires var t, t' := s.tracer, s'.tracer;
      t'.machine.memory == t.machine.memory && t'.ringBase == t.ringBase && t'.ringSize == t.ringSize
      && t'.lastOffset == t.lastOffset && t'.wptrDwords == t.wptrDwords
    ensures Chain(s', g)
  {
    hide Lies;
  }

  // ---------------------------------------------------------------- every run

  const NOTHING_PENDING := Pending(Straight([]), Straight([]), Straight([]))

  function NextPending(s: System, g: Pending, a: Action): Pending {
    match a
    case Publish(words) =>
      var p := [Executed(0, s.tracer.ringBase, s.cursor % TWO32, words)];
      g.(unrung := Extended(g.unrung, Straight(p)))
    case TurnBack => g.(unrung := Bent(PacketsOf(g.unrung), s.cursor, []))
    case RingDoorbell =>
      if g.rung.Bent? && g.unrung.Bent? then g else Pending(g.observed, Extended(g.rung, g.unrung), Straight([]))
    case ObserveDoorbell =>
      if g.observed.Bent? && g.rung.Bent? then g else Pending(Extended(g.observed, g.rung), Straight([]), g.unrung)
    case PumpFrame => AfterFrame(g)
    case _ => g
  }

  lemma StepKeepsInv(s: System, g: Pending, a: Action)
    requires Inv(s, g) && Allowed(s, a)
    ensures Inv(Perform(s, a), NextPending(s, g, a))
  {
    hide Inv;
    hide Allowed;
    match a
    case StoreDword(addr, value) => StoreKeepsInv(s, g, addr, value);
    case Publish(words) =>
      assert s.cursor < TWO32 by { CursorFits(s, g); }
      PublishKeepsInv(s, g, words);
    case TurnBack => TurnKeepsInv(s, g);
    case RingDoorbell => RingKeepsInv(s, g);
    case ReadConsumed => ReadKeepsInv(s, g);
    case ObserveDoorbell => ObserveKeepsInv(s, g);
    case PumpFrame => FrameKeepsInv(s, g);
  }

  lemma CursorFits(s: System, g: Pending)
    requires Inv(s, g)
    ensures s.cursor < TWO32
  {
    hide Chain;
  }

  lemma ReadKeepsInv(s: System, g: Pending)
    requires Inv(s, g)
    ensures Inv(Perform(s, ReadConsumed), g)
  {
    hide LoadU32;
    ChainDependsOn(s, Perform(s, ReadConsumed), g);
    hide Covers;
  }

  lemma FreshInv(s: System)
    requires Fresh(s)
    ensures Inv(s, NOTHING_PENDING)
  {
  }

  lemma {:induction false} RunKeepsInv(start: System, actions: seq<Action>) returns (g: Pending)
    requires Fresh(start) && Behaves(start, actions)
    ensures Inv(AfterActions(start, actions), g)
    decreases |actions|
  {
    hide Inv;
    hide Allowed;
    hide Fresh;
    hide Perform;
    if actions == [] {
      FreshInv(start);
      g := NOTHING_PENDING;
    } else {
      var n := |actions| - 1;
      var before := RunKeepsInv(start, actions[..n]);
      StepKeepsInv(AfterActions(start, actions[..n]), before, actions[n]);
      g := NextPending(AfterActions(start, actions[..n]), before, actions[n]);
    }
  }

  /**
   * Exactly once and in order: after any run of guest stores, publications, turns, doorbells and frames, the packets
   * executed from the ring are a prefix of the packets published, none skipped, repeated or cut, and the offset
   * parsed so far is a whole number of dwords inside the ring.
   */
  lemma ExactlyOnceInOrder(start: System, actions: seq<Action>)
    requires Fresh(start) && Behaves(start, actions)
    ensures var s := AfterActions(start, actions);
      && TopLevel(s.tracer.machine.log, s.tracer.ringBase) <= s.published
      && s.tracer.lastOffset % 4 == 0 && s.tracer.lastOffset <= s.tracer.ringSize
  {
    hide Behaves;
    hide AfterActions;
    hide Chain;
    hide TopLevel;
    var g := RunKeepsInv(start, actions);
  }

  /** Once the doorbell covers everything published, two rounds of the pump with a quiet guest execute it all. */
  lemma TwoQuietRoundsDrain(start: System, actions: seq<Action>)
    requires Fresh(start)
    requires Behaves(start, actions + [RingDoorbell, ObserveDoorbell, PumpFrame, ObserveDoorbell, PumpFrame])
    ensures var longer := actions + [RingDoorbell, ObserveDoorbell, PumpFrame, ObserveDoorbell, PumpFrame];
      var s := AfterActions(start, longer);
      TopLevel(s.tracer.machine.log, s.tracer.ringBase) == s.published
  {
    hide Inv;
    hide Allowed;
    hide Fresh;
    hide Perform;
    hide TopLevel;
    var s0, g0 := UnfoldFive(start, actions);
    var s1, g1 := Perform(s0, RingDoorbell), NextPending(s0, g0, RingDoorbell);
    StepKeepsInv(s0, g0, RingDoorbell);
    var s2, g2 := Perform(s1, ObserveDoorbell), NextPending(s1, g1, ObserveDoorbell);
    StepKeepsInv(s1, g1, ObserveDoorbell);
    var s3, g3 := Perform(s2, PumpFrame), NextPending(s2, g2, PumpFrame);
    StepKeepsInv(s2, g2, PumpFrame);
    var s4, g4 := Perform(s3, ObserveDoorbell), NextPending(s3, g3, ObserveDoorbell);
    StepKeepsInv(s3, g3, ObserveDoorbell);
    StepKeepsInv(s4, g4, PumpFrame);
    Rounds(s0, g0);
    Drained(Perform(s4, PumpFrame), NextPending(s4, g4, PumpFrame));
  }

  lemma Drained(s: System, g: Pending)
    requires Inv(s, g) && PacketsOf(g.observed) == PacketsOf(g.rung) == PacketsOf(g.unrung) == []
    ensures TopLevel(s.tracer.machine.log, s.tracer.ringBase) == s.published
  {
    hide Chain;
    hide TopLevel;
  }

  /** After the doorbell and its observation everything pending is observed, and each frame takes a straight part. */
  lemma Rounds(s: System, g: Pending)
    requires Inv(s, g)
    ensures var g1 := NextPending(s, g, RingDoorbell);
      var g2 := NextPending(s, g1, ObserveDoorbell);
      var g3 := NextPending(s, g2, PumpFrame);
      var g4 := NextPending(s, g3, ObserveDoorbell);
      var g5 := NextPending(s, g4, PumpFrame);
      PacketsOf(g5.observed) == PacketsOf(g5.rung) == PacketsOf(g5.unrung) == []
  {
    hide Covers;
    hide Order;
  }

  /** The five last steps of a run, one by one. */
  lemma UnfoldFive(start: System, actions: seq<Action>) returns (s: System, g: Pending)
    requires Fresh(start)
    requires Behaves(start, actions + [RingDoorbell, ObserveDoorbell, PumpFrame, ObserveDoorbell, PumpFrame])
    ensures s == AfterActions(start, actions) && Inv(s, g)
    ensures var s1 := Perform(s, RingDoorbell);
      var s2 := Perform(s1, ObserveDoorbell);
      var s3 := Perform(s2, PumpFrame);
      var s4 := Perform(s3, ObserveDoorbell);
      && Allowed(s, RingDoorbell) && Allowed(s1, ObserveDoorbell) && Allowed(s2, PumpFrame)
      && Allowed(s3, ObserveDoorbell) && Allowed(s4, PumpFrame)
      && AfterActions(start, actions + [RingDoorbell, ObserveDoorbell, PumpFrame, ObserveDoorbell, PumpFrame])
           == Perform(s4, PumpFrame)
  {
    hide Inv;
    hide Allowed;
    hide Fresh;
    hide Perform;
    LastStep(start, actions + [RingDoorbell, ObserveDoorbell, PumpFrame, ObserveDoorbell], PumpFrame,
             actions + [RingDoorbell, ObserveDoorbell, PumpFrame, ObserveDoorbell, PumpFrame]);
    LastStep(start, actions + [RingDoorbell, ObserveDoorbell, PumpFrame], ObserveDoorbell,
             actions + [RingDoorbell, ObserveDoorbell, PumpFrame, ObserveDoorbell]);
    LastStep(start, actions + [RingDoorbell, ObserveDoorbell], PumpFrame,
             actions + [RingDoorbell, ObserveDoorbell, PumpFrame]);
    LastStep(start, actions + [RingDoorbell], ObserveDoorbell, actions + [RingDoorbell, ObserveDoorbell]);
    LastStep(start, actions, RingDoorbell, actions + [RingDoorbell]);
    s := AfterActions(start, actions);
    g := RunKeepsInv(start, actions);
  }

  lemma LastStep(start: System, actions: seq<Action>, a: Action, longer: seq<Action>)
    requires longer == actions + [a] && Behaves(start, longer)
    ensures Behaves(start, actions) && Allowed(AfterActions(start, actions), a)
    ensures AfterActions(start, longer) == Perform(AfterActions(start, actions), a)
  {
    hide Allowed;
    hide Perform;
    assert longer[..|longer| - 1] == actions;
  }
}
