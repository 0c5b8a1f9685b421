/**
 * What each region of the dispatcher leaves behind, entry by entry, and that a set takes effect: it stays until an
 * acquisition follows it, and a thread blocked on the object can go on.
 */
module KernelEffects {
  import opened Words
  import opened KernelDispatcher

  // ---------------------------------------------------------------- one region

  /** NtSetEvent, NtReleaseMutant, a completed read or the end of the thread whose handle it is. */
  predicate IsSet(r: Region, handle: nat) {
    || r == SetSignal(handle)
    || (r == ReadFileEvent(handle) && handle != 0)
    || (r == ThreadExit(handle) && handle >= 0x1000)
  }

  /** A set on an open handle leaves the object signalled, with its kind, and touches and notes nothing else. */
  lemma SetTakesEffect(k: Kernel, r: Region, handle: nat)
    requires IsSet(r, handle) && handle in k.table
    ensures var k1 := Perform(k, r);
      && handle in k1.table && k1.table[handle].signaled && k1.table[handle].kind == k.table[handle].kind
      && k1.table.Keys == k.table.Keys
      && (forall h :: h in k.table && h != handle ==> k1.table[h] == k.table[h])
      && k1 == k.(table := k1.table, history := k.history + [Signalled(handle)])
  {
  }

  /** A set on a handle that is not open changes nothing; nor does a read without an event. */
  lemma SetOfUnknown(k: Kernel, r: Region, handle: nat)
    requires (IsSet(r, handle) && handle !in k.table) || r == ReadFileEvent(0)
    ensures Perform(k, r) == k
  {
  }

  lemma CreateTakesEffect(k: Kernel, obj: HandleObject)
    ensures var k1 := Perform(k, Create(obj));
      && k1.nextHandle == k.nextHandle + 1
      && k.nextHandle in k1.table && k1.table[k.nextHandle] == obj
      && (forall h :: h != k.nextHandle ==> (h in k1.table <==> h in k.table))
      && (forall h :: h in k.table && h != k.nextHandle ==> k1.table[h] == k.table[h])
      && k1 == k.(table := k1.table, nextHandle := k1.nextHandle, history := k.history + [Created(k.nextHandle, obj)])
  {
  }

  lemma CloseTakesEffect(k: Kernel, handle: nat)
    ensures var k1 := Perform(k, Close(handle));
      && handle !in k1.table
      && (forall h :: h != handle ==> (h in k1.table <==> h in k.table))
      && (forall h :: h in k1.table ==> k1.table[h] == k.table[h])
      && k1 == k.(table := k1.table)
  {
  }

  /** The APC a completed read queues, if it names a routine, its low bit aside, and a context. */
  function ReadApc(routine: u32, context: u32, ioStatusBlock: u32): Option<Apc> {
    if routine < 2 || context == 0 then None
    else Some(Apc(if routine % 2 == 1 then routine - 1 else routine, context, ioStatusBlock, 0))
  }

  /** The queue an APC is for: that of a thread's own handle, or queue 0 of all threads without one. */
  predicate Queues(r: Region, target: nat, apc: Apc) {
    || r == QueueApc(target, apc)
    || (r.ReadFileApc? && ReadApc(r.routine, r.context, r.ioStatusBlock) == Some(apc)
        && target == if r.thread >= 0x1000 then r.thread else 0)
  }

  /** A queued APC joins the end of its target's queue, argument by argument, and no other queue or object changes. */
  lemma QueueTakesEffect(k: Kernel, r: Region, target: nat, apc: Apc)
    requires Queues(r, target, apc)
    ensures var k1 := Perform(k, r);
      && QueueOf(k1, target) == QueueOf(k, target) + [apc]
      && (forall t :: t != target ==> QueueOf(k1, t) == QueueOf(k, t))
      && k1 == k.(queues := k1.queues, history := k.history + [Queued(target, apc)])
  {
  }

  lemma ReadWithoutApc(k: Kernel, thread: nat, routine: u32, context: u32, ioStatusBlock: u32)
    requires ReadApc(routine, context, ioStatusBlock) == None
    ensures Perform(k, ReadFileApc(thread, routine, context, ioStatusBlock)) == k
  {
  }

  /** A wait on an open handle blocks; one on any other handle is over at once. */
  lemma EnterTakesEffect(k: Kernel, thread: nat, handle: nat, alertable: bool, timed: bool)
    ensures var k1, e := Perform(k, EnterWait(thread, handle, alertable, timed)),
                         Entered(thread, handle, alertable, timed);
      if handle in k.table then
        k1 == k.(places := k.places[thread := Waiting(handle, alertable, timed)], history := k.history + [e])
      else k1 == k.(history := k.history + [e] + [Returned(thread, 0xC000_0008)])
  {
  }

  /** The APC queue a thread's own waits look at. */
  function OwnQueue(k: Kernel, thread: nat): seq<Apc> {
    QueueOf(k, if thread >= 0x1000 then thread else 0)
  }

  /**
   * How the blocking part of a wait ends: an alertable wait with an APC pending goes on to take it and leaves the
   * object alone; otherwise a signalled object is acquired, which clears the signal of a mutant or an auto-reset
   * event and of nothing else; otherwise the wait has timed out.
   */
  lemma ResumeTakesEffect(k: Kernel, thread: nat, expired: bool)
    requires PlaceOf(k, thread).Waiting? && Enabled(k, ResumeWait(thread, expired))
    ensures var k1, w := Perform(k, ResumeWait(thread, expired)), PlaceOf(k, thread);
      if w.alertable && OwnQueue(k, thread) != [] then k1 == k.(places := k.places[thread := Delivering])
      else if w.handle in k.table && k.table[w.handle].signaled then
        && k1.table.Keys == k.table.Keys && k1.table[w.handle].kind == k.table[w.handle].kind
        && (k1.table[w.handle].signaled <==> k.table[w.handle].kind !in {Mutant, Event(true)})
        && (forall h :: h in k.table && h != w.handle ==> k1.table[h] == k.table[h])
        && k1 == k.(table := k1.table, places := k.places[thread := Running],
                    history := k.history + [Acquired(thread, w.handle)] + [Returned(thread, 0)])
      else
        && w.timed && expired
        && k1 == k.(places := k.places[thread := Running], history := k.history + [Returned(thread, 258)])
  {
  }

  /** The second region of a wait that saw an APC: it takes the first one still queued, and returns 0xC0 either way. */
  lemma DeliverTakesEffect(k: Kernel, thread: nat)
    ensures var k1, q := Perform(k, DeliverApc(thread)), OwnQueue(k, thread);
      var own := if thread >= 0x1000 then thread else 0;
      && (forall t :: t != own ==> QueueOf(k1, t) == QueueOf(k, t))
      && (if q == [] then
            k1 == k.(places := k.places[thread := Running], history := k.history + [Returned(thread, 0xC0)])
          else
            && QueueOf(k1, own) == q[1..]
            && k1 == k.(queues := k1.queues, places := k.places[thread := Running],
                        history := k.history + [Delivered(thread, own, q[0])] + [Returned(thread, 0xC0)]))
  {
  }

  // ---------------------------------------------------------------- a set stays

  predicate Acquires(e: Happening, handle: nat) {
    e.Acquired? && e.handle == handle
  }

  /** Somebody acquired the object after the first `from` happenings. */
  ghost predicate AcquiredSince(history: seq<Happening>, from: nat, handle: nat) {
    exists i :: from <= i < |history| && Acquires(history[i], handle)
  }

  /** Regions only add to the history. */
  lemma HistoryGrows(k: Kernel, r: Region)
    ensures k.history <= Perform(k, r).history
  {
  }

  lemma {:induction false} RunHistoryGrows(rs: seq<Region>, more: seq<Region>)
    ensures AfterRun(rs).history <= AfterRun(rs + more).history
    decreases |more|
  {
    hide Perform;
    if more == [] {
      assert rs + more == rs;
    } else {
      var n := |more| - 1;
      assert (rs + more)[..|rs| + n] == rs + more[..n];
      RunHistoryGrows(rs, more[..n]);
      HistoryGrows(AfterRun(rs + more[..n]), more[n]);
    }
  }

  /** Nothing but an acquisition or closing the handle ends a signal. */
  lemma SignalLasts(k: Kernel, r: Region, handle: nat)
    requires Told(k, handle) && handle in k.table && k.table[handle].signaled && r != Close(handle)
    ensures var k1 := Perform(k, r);
      || AcquiredSince(k1.history, |k.history|, handle)
      || (handle in k1.table && k1.table[handle].signaled && k1.table[handle].kind == k.table[handle].kind)
  {
    hide Story;
    hide Alternates;
    var k1 := Perform(k, r);
    if r.ResumeWait? && k1.table != k.table {
      var w := PlaceOf(k, r.thread);
      if w.handle == handle {
        assert Acquires(k1.history[|k.history|], handle);
      }
    }
  }

  /**
   * Over any run: a set on an open handle leaves the object signalled until an acquisition of that handle follows it
   * or the handle is closed.
   */
  lemma {:induction false} SetStays(rs: seq<Region>, set_: Region, more: seq<Region>, handle: nat)
    requires IsSet(set_, handle) && handle in AfterRun(rs).table && Close(handle) !in more
    requires var after := AfterRun(rs + [set_] + more);
      !AcquiredSince(after.history, |AfterRun(rs + [set_]).history|, handle)
    ensures var after := AfterRun(rs + [set_] + more);
      && handle in after.table && after.table[handle].signaled
      && after.table[handle].kind == AfterRun(rs).table[handle].kind
    decreases |more|
  {
    hide Perform;
    hide Told;
    var first := rs + [set_];
    if more == [] {
      assert first + more == first && first[..|rs|] == rs;
      SetTakesEffect(AfterRun(rs), set_, handle);
    } else {
      var n := |more| - 1;
      var before, after := AfterRun(first + more[..n]), AfterRun(first + more);
      assert (first + more)[..|first| + n] == first + more[..n];
      HistoryGrows(before, more[n]);
      RunHistoryGrows(first, more[..n]);
      NoneSoFar(before.history, after.history, |AfterRun(first).history|, handle);
      SetStays(rs, set_, more[..n], handle);
      RunTold(first + more[..n], handle);
      SignalLasts(before, more[n], handle);
    }
  }

  lemma NoneSoFar(history: seq<Happening>, longer: seq<Happening>, from: nat, handle: nat)
    requires history <= longer && from <= |history| && !AcquiredSince(longer, from, handle)
    ensures !AcquiredSince(history, from, handle) && !AcquiredSince(longer, |history|, handle)
  {
    forall i | from <= i < |history| ensures !Acquires(history[i], handle) {
      assert longer[i] == history[i];
    }
  }

  /**
   * Then a thread blocked on the object is no longer held up: its wait can resume, timed or not, and unless it takes
   * an APC instead it acquires the object and returns STATUS_SUCCESS.
   */
  lemma SetLetsGo(rs: seq<Region>, set_: Region, more: seq<Region>, thread: nat)
    requires var after := AfterRun(rs + [set_] + more);
      var w := PlaceOf(after, thread);
      && w.Waiting? && IsSet(set_, w.handle) && w.handle in AfterRun(rs).table && Close(w.handle) !in more
      && !AcquiredSince(after.history, |AfterRun(rs + [set_]).history|, w.handle)
    ensures var after := AfterRun(rs + [set_] + more);
      var w, resumed := PlaceOf(after, thread), Perform(after, ResumeWait(thread, false));
      && Enabled(after, ResumeWait(thread, false))
      && (w.alertable && OwnQueue(after, thread) != [] ==> PlaceOf(resumed, thread) == Delivering)
      && (!(w.alertable && OwnQueue(after, thread) != []) ==>
            && PlaceOf(resumed, thread) == Running
            && resumed.history == after.history + [Acquired(thread, w.handle)] + [Returned(thread, 0)])
  {
    var after := AfterRun(rs + [set_] + more);
    SetStays(rs, set_, more, PlaceOf(after, thread).handle);
    hide AfterRun;
    assert Enabled(after, ResumeWait(thread, false));
    ResumeTakesEffect(after, thread, false);
  }

  /** An APC queued to a thread lets its alertable wait go in the same way, until it is taken. */
  lemma ApcLetsGo(k: Kernel, r: Region, target: nat, apc: Apc, thread: nat)
    requires Queues(r, target, apc) && target == (if thread >= 0x1000 then thread else 0)
    requires PlaceOf(k, thread).Waiting? && PlaceOf(k, thread).alertable
    ensures var k1 := Perform(k, r);
      && Enabled(k1, ResumeWait(thread, false))
      && PlaceOf(Perform(k1, ResumeWait(thread, false)), thread) == Delivering
  {
    var k1 := Perform(k, r);
    QueueTakesEffect(k, r, target, apc);
    hide Perform;
    assert PlaceOf(k1, thread) == PlaceOf(k, thread) && OwnQueue(k1, thread) != [];
    assert Enabled(k1, ResumeWait(thread, false));
    ResumeTakesEffect(k1, thread, false);
  }
}
