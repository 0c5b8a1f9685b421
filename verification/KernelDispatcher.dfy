/**
 * The kernel's dispatcher objects and APC queues. Every call is cut into the regions it runs under the state lock;
 * `Perform` is one such region, and a run is any interleaving of them over all host threads.
 */
module KernelDispatcher {
  import opened Words

  const FIRST_HANDLE := 0x1000
  const STATUS_SUCCESS: u32 := 0
  const STATUS_USER_APC: u32 := 0xC0
  const STATUS_TIMEOUT: u32 := 258
  const STATUS_INVALID_HANDLE: u32 := 0xC000_0008

  datatype Kind = Mutant | Event(autoReset: bool) | Generic | Thread | File

  datatype HandleObject = HandleObject(kind: Kind, signaled: bool)

  datatype Apc = Apc(routine: u32, context: u32, arg1: u32, arg2: u32)

  /**
   * Where a host thread stands: outside the dispatcher, blocked in a wait, or about to take an APC it saw pending
   * before it let go of the lock.
   */
  datatype Place = Running | Waiting(handle: nat, alertable: bool, timed: bool) | Delivering

  /** What the regions did, in order. `Entered` opens a wait and `Returned` closes it. */
  datatype Happening =
    | Created(handle: nat, obj: HandleObject)
    | Signalled(handle: nat)
    | Queued(target: nat, apc: Apc)
    | Entered(thread: nat, handle: nat, alertable: bool, timed: bool)
    | Acquired(thread: nat, handle: nat)
    | Delivered(thread: nat, target: nat, apc: Apc)
    | Returned(thread: nat, status: u32)

  /** Threads created by the guest are numbered by their handle; other host threads lie below the first handle. */
  datatype Kernel = Kernel(
    table: map<nat, HandleObject>, nextHandle: nat, queues: map<nat, seq<Apc>>, places: map<nat, Place>,
    history: seq<Happening>)

  const BOOT := Kernel(map[], FIRST_HANDLE, map[], map[], [])

  /** A thread's own handle, which names its APC queue; threads the guest did not create all use zero. */
  function Self(thread: nat): nat {
    if thread >= FIRST_HANDLE then thread else 0
  }

  predicate AutoReset(kind: Kind) {
    kind == Mutant || kind == Event(true)
  }

  function QueueOf(k: Kernel, handle: nat): seq<Apc> {
    if handle in k.queues then k.queues[handle] else []
  }

  function PlaceOf(k: Kernel, thread: nat): Place {
    if thread in k.places then k.places[thread] else Running
  }

  datatype Region =
    | Create(obj: HandleObject)
    | SetSignal(handle: nat)
    | QueueApc(target: nat, apc: Apc)
    | ReadFileApc(thread: nat, routine: u32, context: u32, ioStatusBlock: u32)
    | ReadFileEvent(handle: nat)
    | ThreadExit(thread: nat)
    | Close(handle: nat)
    | EnterWait(thread: nat, handle: nat, alertable: bool, timed: bool)
    | ResumeWait(thread: nat, expired: bool)
    | DeliverApc(thread: nat)

  // ---------------------------------------------------------------- the regions

  function Noted(k: Kernel, h: Happening): Kernel {
    k.(history := k.history + [h])
  }

  function At(k: Kernel, thread: nat, place: Place): Kernel {
    k.(places := k.places[thread := place])
  }

  /** NtSetEvent, NtReleaseMutant, a completed read and a thread's end all do this; unknown handles are ignored. */
  function Signal(k: Kernel, handle: nat): Kernel {
    if handle in k.table
    then Noted(k.(table := k.table[handle := k.table[handle].(signaled := true)]), Signalled(handle))
    else k
  }

  function Enqueue(k: Kernel, target: nat, apc: Apc): Kernel {
    Noted(k.(queues := k.queues[target := QueueOf(k, target) + [apc]]), Queued(target, apc))
  }

  predicate Wakes(k: Kernel, thread: nat, w: Place)
    requires w.Waiting?
  {
    (w.handle in k.table && k.table[w.handle].signaled) || (w.alertable && QueueOf(k, Self(thread)) != [])
  }

  /** A successful wait on a mutant or an auto-reset event takes the signal. */
  function Consume(k: Kernel, handle: nat): Kernel {
    if handle in k.table && AutoReset(k.table[handle].kind)
    then k.(table := k.table[handle := k.table[handle].(signaled := false)])
    else k
  }

  /** The end of the blocking part of a wait: woken, or timed out. */
  function Resume(k: Kernel, thread: nat, w: Place): Kernel
    requires w.Waiting?
  {
    if w.alertable && QueueOf(k, Self(thread)) != [] then At(k, thread, Delivering)
    else if Wakes(k, thread, w) then
      Noted(Noted(Consume(At(k, thread, Running), w.handle), Acquired(thread, w.handle)),
            Returned(thread, STATUS_SUCCESS))
    else Noted(At(k, thread, Running), Returned(thread, STATUS_TIMEOUT))
  }

  /** The second region of an alertable wait that saw an APC: the queue is looked at afresh. */
  function Deliver(k: Kernel, thread: nat): Kernel {
    var q := QueueOf(k, Self(thread));
    if q == [] then Noted(At(k, thread, Running), Returned(thread, STATUS_USER_APC))
    else
      var k1 := At(k.(queues := k.queues[Self(thread) := q[1..]]), thread, Running);
      Noted(Noted(k1, Delivered(thread, Self(thread), q[0])), Returned(thread, STATUS_USER_APC))
  }

  function Perform(k: Kernel, r: Region): Kernel {
    match r
    case Create(obj) =>
      Noted(k.(table := k.table[k.nextHandle := obj], nextHandle := k.nextHandle + 1), Created(k.nextHandle, obj))
    case SetSignal(handle) => Signal(k, handle)
    case QueueApc(target, apc) => Enqueue(k, target, apc)
    case ReadFileApc(thread, routine, context, ioStatusBlock) =>
      if routine - routine % 2 != 0 && context != 0
      then Enqueue(k, Self(thread), Apc(routine - routine % 2, context, ioStatusBlock, 0))
      else k
    case ReadFileEvent(handle) => if handle != 0 then Signal(k, handle) else k
    case ThreadExit(thread) => Signal(k, Self(thread))
    case Close(handle) => k.(table := k.table - {handle})
    case EnterWait(thread, handle, alertable, timed) =>
      var k1 := Noted(k, Entered(thread, handle, alertable, timed));
      if handle in k.table then At(k1, thread, Waiting(handle, alertable, timed))
      else Noted(k1, Returned(thread, STATUS_INVALID_HANDLE))
    case ResumeWait(thread, expired) =>
      if PlaceOf(k, thread).Waiting? then Resume(k, thread, PlaceOf(k, thread)) else k
    case DeliverApc(thread) => Deliver(k, thread)
  }

  /**
   * When a region can run. A handle somebody is blocked on is not closed, and handles do not run out. A wait resumes
   * once its condition holds or, if it has a relative timeout, when that expires.
   */
  predicate Enabled(k: Kernel, r: Region) {
    match r
    case Create(_) => k.nextHandle < TWO32
    case Close(handle) => forall t :: t in k.places ==> !(k.places[t].Waiting? && k.places[t].handle == handle)
    case EnterWait(thread, _, _, _) => PlaceOf(k, thread) == Running
    case ResumeWait(thread, expired) =>
      var w := PlaceOf(k, thread);
      w.Waiting? && (Wakes(k, thread, w) || (w.timed && expired))
    case DeliverApc(thread) => PlaceOf(k, thread) == Delivering
    case _ => true
  }

  function AfterRun(rs: seq<Region>): Kernel {
    if rs == [] then BOOT else Perform(AfterRun(rs[..|rs| - 1]), rs[|rs| - 1])
  }

  predicate Possible(rs: seq<Region>) {
    rs == [] || (Possible(rs[..|rs| - 1]) && Enabled(AfterRun(rs[..|rs| - 1]), rs[|rs| - 1]))
  }

  // ---------------------------------------------------------------- what happened to one handle

  /** The creation, signals and acquisitions of one handle. */
  function Story(history: seq<Happening>, handle: nat): seq<Happening> {
    if history == [] then []
    else
      var e := history[|history| - 1];
      Story(history[..|history| - 1], handle) +
      if (e.Created? || e.Signalled? || e.Acquired?) && e.handle == handle then [e] else []
  }

  /** The event leaves an auto-reset object signalled. */
  predicate Arms(e: Happening) {
    e.Signalled? || (e.Created? && e.obj.signaled)
  }

  predicate IsAcquired(e: Happening) {
    e.Acquired?
  }

  /** A story starts with its one creation, and every acquisition comes right after an event that armed the object. */
  ghost predicate Alternates(story: seq<Happening>) {
    && (forall i :: 0 <= i < |story| ==> (story[i].Created? <==> i == 0))
    && (forall i :: 0 <= i < |story| && IsAcquired(story[i]) ==> i > 0 && Arms(story[i - 1]))
  }

  /** The table entry is what the handle's story says. */
  ghost predicate Told(k: Kernel, handle: nat) {
    var story := Story(k.history, handle);
    && (story != [] ==> story[0].Created?)
    && (story != [] && AutoReset(story[0].obj.kind) ==> Alternates(story))
    && (handle in k.table ==>
          && handle < k.nextHandle && story != [] && story[0].obj.kind == k.table[handle].kind
          && (AutoReset(k.table[handle].kind) ==> (k.table[handle].signaled <==> Arms(story[|story| - 1]))))
    && (handle >= k.nextHandle ==> story == [])
  }

  lemma StoryGrows(k: Kernel, e: Happening, handle: nat)
    ensures Story(Noted(k, e).history, handle) ==
      if (e.Created? || e.Signalled? || e.Acquired?) && e.handle == handle then Story(k.history, handle) + [e]
      else Story(k.history, handle)
  {
    assert Noted(k, e).history[..|k.history|] == k.history;
  }

  lemma CreateTold(k: Kernel, obj: HandleObject, handle: nat)
    requires Told(k, handle)
    ensures Told(Perform(k, Create(obj)), handle)
  {
    hide Story;
    var k1 := k.(table := k.table[k.nextHandle := obj], nextHandle := k.nextHandle + 1);
    StoryGrows(k1, Created(k.nextHandle, obj), handle);
  }

  lemma SignalTold(k: Kernel, target: nat, handle: nat)
    requires Told(k, handle)
    ensures Told(Signal(k, target), handle)
  {
    hide Story;
    if target in k.table {
      var k1 := k.(table := k.table[target := k.table[target].(signaled := true)]);
      StoryGrows(k1, Signalled(target), handle);
    }
  }

  lemma EnqueueTold(k: Kernel, target: nat, apc: Apc, handle: nat)
    requires Told(k, handle)
    ensures Told(Enqueue(k, target, apc), handle)
  {
    hide Story;
    StoryGrows(k.(queues := k.queues[target := QueueOf(k, target) + [apc]]), Queued(target, apc), handle);
  }

  lemma AlternatesLonger(story: seq<Happening>, thread: nat, handle: nat)
    requires Alternates(story) && story != [] && Arms(story[|story| - 1])
    ensures Alternates(story + [Acquired(thread, handle)])
  {
  }

  lemma AcquireTold(k: Kernel, thread: nat, target: nat, handle: nat)
    requires Told(k, handle) && target in k.table && k.table[target].signaled
    ensures Told(Noted(Consume(k, target), Acquired(thread, target)), handle)
  {
    hide Story;
    hide Alternates;
    var k1 := Consume(k, target);
    StoryGrows(k1, Acquired(thread, target), handle);
    var story := Story(k.history, handle);
    if target == handle && AutoReset(story[0].obj.kind) {
      AlternatesLonger(story, thread, handle);
    }
  }

  /** Notes that do not belong to any story, and threads moving about, change nothing that is told. */
  lemma OtherTold(k: Kernel, k1: Kernel, e: Happening, handle: nat)
    requires Told(k, handle) && (e.Entered? || e.Delivered? || e.Returned?)
    requires k1.history == k.history && k1.table == k.table && k1.nextHandle == k.nextHandle
    ensures Told(k1, handle) && Told(Noted(k1, e), handle)
  {
    hide Story;
    hide Alternates;
    StoryGrows(k1, e, handle);
  }

  lemma ResumeTold(k: Kernel, thread: nat, w: Place, handle: nat)
    requires Told(k, handle) && w.Waiting?
    ensures Told(Resume(k, thread, w), handle)
  {
    hide Told;
    var timedOut := Returned(thread, STATUS_TIMEOUT);
    OtherTold(k, At(k, thread, Delivering), timedOut, handle);
    OtherTold(k, At(k, thread, Running), timedOut, handle);
    if !(w.alertable && QueueOf(k, Self(thread)) != []) && Wakes(k, thread, w) {
      var k1 := At(k, thread, Running);
      AcquireTold(k1, thread, w.handle, handle);
      var k2 := Noted(Consume(k1, w.handle), Acquired(thread, w.handle));
      OtherTold(k2, k2, Returned(thread, STATUS_SUCCESS), handle);
    }
  }

  lemma DeliverTold(k: Kernel, thread: nat, handle: nat)
    requires Told(k, handle)
    ensures Told(Deliver(k, thread), handle)
  {
    hide Told;
    var q := QueueOf(k, Self(thread));
    if q == [] {
      OtherTold(k, At(k, thread, Running), Returned(thread, STATUS_USER_APC), handle);
    } else {
      var k1 := At(k.(queues := k.queues[Self(thread) := q[1..]]), thread, Running);
      OtherTold(k, k1, Delivered(thread, Self(thread), q[0]), handle);
      var k2 := Noted(k1, Delivered(thread, Self(thread), q[0]));
      OtherTold(k2, k2, Returned(thread, STATUS_USER_APC), handle);
    }
  }

  lemma StepTold(k: Kernel, r: Region, handle: nat)
    requires Told(k, handle)
    ensures Told(Perform(k, r), handle)
  {
    hide Told;
    match r
    case Create(obj) => CreateTold(k, obj, handle);
    case SetSignal(target) => SignalTold(k, target, handle);
    case QueueApc(target, apc) => EnqueueTold(k, target, apc, handle);
    case ReadFileApc(thread, routine, context, block) =>
      if routine - routine % 2 != 0 && context != 0 {
        EnqueueTold(k, Self(thread), Apc(routine - routine % 2, context, block, 0), handle);
      }
    case ReadFileEvent(target) => SignalTold(k, target, handle);
    case ThreadExit(thread) => SignalTold(k, Self(thread), handle);
    case Close(target) => CloseTold(k, target, handle);
    case EnterWait(thread, target, alertable, timed) => EnterTold(k, thread, target, alertable, timed, handle);
    case ResumeWait(thread, _) =>
      if PlaceOf(k, thread).Waiting? {
        ResumeTold(k, thread, PlaceOf(k, thread), handle);
      }
    case DeliverApc(thread) => DeliverTold(k, thread, handle);
  }

  lemma CloseTold(k: Kernel, target: nat, handle: nat)
    requires Told(k, handle)
    ensures Told(Perform(k, Close(target)), handle)
  {
    hide Story;
  }

  lemma EnterTold(k: Kernel, thread: nat, target: nat, alertable: bool, timed: bool, handle: nat)
    requires Told(k, handle)
    ensures Told(Perform(k, EnterWait(thread, target, alertable, timed)), handle)
  {
    hide Told;
    var e := Entered(thread, target, alertable, timed);
    OtherTold(k, k, e, handle);
    OtherTold(Noted(k, e), At(Noted(k, e), thread, Waiting(target, alertable, timed)), e, handle);
    OtherTold(Noted(k, e), Noted(k, e), Returned(thread, STATUS_INVALID_HANDLE), handle);
  }

  lemma {:induction false} RunTold(rs: seq<Region>, handle: nat)
    ensures Told(AfterRun(rs), handle)
    decreases |rs|
  {
    hide Perform;
    if rs == [] {
    } else {
      RunTold(rs[..|rs| - 1], handle);
      StepTold(AfterRun(rs[..|rs| - 1]), rs[|rs| - 1], handle);
    }
  }

  // ---------------------------------------------------------------- signal conservation

  function CountAcquired(story: seq<Happening>): nat {
    if story == [] then 0 else CountAcquired(story[..|story| - 1]) + if story[|story| - 1].Acquired? then 1 else 0
  }

  function CountSignalled(story: seq<Happening>): nat {
    if story == [] then 0 else CountSignalled(story[..|story| - 1]) + if story[|story| - 1].Signalled? then 1 else 0
  }

  function Initial(story: seq<Happening>): nat {
    if story != [] && story[0].Created? && story[0].obj.signaled then 1 else 0
  }

  /** Acquisitions never outnumber signals; right after an acquisition the balance is one stricter. */
  lemma {:induction false} Balance(story: seq<Happening>)
    requires Alternates(story) && story != []
    ensures CountAcquired(story) + (if Arms(story[|story| - 1]) then 1 else 0) <= Initial(story) + CountSignalled(story)
    decreases |story|
  {
    var n := |story| - 1;
    if n == 0 {
      assert story[..0] == [];
    } else {
      Balance(story[..n]);
      assert story[n].Created? <==> n == 0;
    }
  }

  lemma SetBetween(story: seq<Happening>, i: nat, j: nat)
    requires Alternates(story) && i < j < |story| && IsAcquired(story[i]) && IsAcquired(story[j])
    ensures i < j - 1 && story[j - 1].Signalled?
  {
    assert Arms(story[j - 1]);
  }

  /**
   * Signal conservation: whatever the interleaving, waits that succeeded on a mutant or an auto-reset event never
   * outnumber its initial signal plus its sets and releases, and between any two of them there is a set.
   */
  lemma SignalsConserved(rs: seq<Region>, handle: nat)
    ensures var story := Story(AfterRun(rs).history, handle);
      story != [] ==> story[0].Created? && (AutoReset(story[0].obj.kind) ==>
        && CountAcquired(story) <= Initial(story) + CountSignalled(story)
        && forall i, j :: 0 <= i < j < |story| && IsAcquired(story[i]) && IsAcquired(story[j]) ==>
             exists k :: i < k < j && story[k].Signalled?)
  {
    hide Story;
    hide AfterRun;
    var story := Story(AfterRun(rs).history, handle);
    RunTold(rs, handle);
    if story != [] && AutoReset(story[0].obj.kind) {
      Balance(story);
      forall i, j | 0 <= i < j < |story| && IsAcquired(story[i]) && IsAcquired(story[j])
        ensures exists k :: i < k < j && story[k].Signalled?
      {
        SetBetween(story, i, j);
      }
    }
  }

  /** One region never takes the signal of an object that is not auto-reset, nor changes an object's kind. */
  lemma StepKeepsSignal(k: Kernel, r: Region, handle: nat)
    requires Told(k, handle)
    requires handle in k.table && handle in Perform(k, r).table
    ensures Perform(k, r).table[handle].kind == k.table[handle].kind
    ensures !AutoReset(k.table[handle].kind) && k.table[handle].signaled ==> Perform(k, r).table[handle].signaled
  {
    hide Story;
    hide Alternates;
    assert handle < k.nextHandle;
  }

  lemma StaysClosed(k: Kernel, r: Region, handle: nat)
    requires handle !in k.table && handle < k.nextHandle
    ensures handle !in Perform(k, r).table && handle < Perform(k, r).nextHandle
  {
  }

  /** While its handle stays open, a manual-reset event, thread, file or generic object once signalled stays so. */
  lemma {:induction false} SignalIsMonotone(rs: seq<Region>, more: seq<Region>, handle: nat)
    requires handle in AfterRun(rs).table && handle in AfterRun(rs + more).table
    ensures var was, now := AfterRun(rs).table[handle], AfterRun(rs + more).table[handle];
      now.kind == was.kind && (!AutoReset(was.kind) && was.signaled ==> now.signaled)
    decreases |more|
  {
    hide Perform;
    hide Told;
    if more == [] {
      assert rs + more == rs;
    } else {
      var n := |more| - 1;
      assert (rs + more)[..|rs| + n] == rs + more[..n];
      var before := AfterRun(rs + more[..n]);
      NeverReopens(rs, more[..n], handle);
      if handle !in before.table {
        StaysClosed(before, more[n], handle);
      }
      SignalIsMonotone(rs, more[..n], handle);
      RunTold(rs + more[..n], handle);
      StepKeepsSignal(before, more[n], handle);
    }
  }

  lemma {:induction false} NeverReopens(rs: seq<Region>, more: seq<Region>, handle: nat)
    requires handle < AfterRun(rs).nextHandle || handle in AfterRun(rs).table
    ensures handle < AfterRun(rs + more).nextHandle
    decreases |more|
  {
    hide Perform;
    hide Told;
    RunTold(rs, handle);
    if more == [] {
      assert rs + more == rs;
      TableBelowNext(AfterRun(rs), handle);
    } else {
      var n := |more| - 1;
      assert (rs + more)[..|rs| + n] == rs + more[..n];
      NeverReopens(rs, more[..n], handle);
      NextGrows(AfterRun(rs + more[..n]), more[n]);
    }
  }

  lemma TableBelowNext(k: Kernel, handle: nat)
    requires Told(k, handle) && (handle < k.nextHandle || handle in k.table)
    ensures handle < k.nextHandle
  {
    hide Story;
  }

  lemma NextGrows(k: Kernel, r: Region)
    ensures k.nextHandle <= Perform(k, r).nextHandle
  {
  }

  // ---------------------------------------------------------------- APCs

  function Enqueued(history: seq<Happening>, target: nat): seq<Apc> {
    if history == [] then []
    else
      var e := history[|history| - 1];
      Enqueued(history[..|history| - 1], target) + if e.Queued? && e.target == target then [e.apc] else []
  }

  function DeliveredTo(history: seq<Happening>, target: nat): seq<Apc> {
    if history == [] then []
    else
      var e := history[|history| - 1];
      DeliveredTo(history[..|history| - 1], target) + if e.Delivered? && e.target == target then [e.apc] else []
  }

  ghost predicate FirstInFirstOut(k: Kernel, target: nat) {
    Enqueued(k.history, target) == DeliveredTo(k.history, target) + QueueOf(k, target)
  }

  lemma ApcHistoryGrows(k: Kernel, e: Happening, target: nat)
    ensures Enqueued(Noted(k, e).history, target) ==
      Enqueued(k.history, target) + if e.Queued? && e.target == target then [e.apc] else []
    ensures DeliveredTo(Noted(k, e).history, target) ==
      DeliveredTo(k.history, target) + if e.Delivered? && e.target == target then [e.apc] else []
  {
    assert Noted(k, e).history[..|k.history|] == k.history;
  }

  /** A region that neither queues nor delivers leaves the balance as it is. */
  lemma OtherNote(k: Kernel, k1: Kernel, e: Happening, target: nat)
    requires FirstInFirstOut(k, target) && !e.Queued? && !e.Delivered?
    requires k1.history == k.history && k1.queues == k.queues
    ensures FirstInFirstOut(Noted(k1, e), target)
  {
    hide Enqueued;
    hide DeliveredTo;
    ApcHistoryGrows(k1, e, target);
  }

  lemma EnqueueFifo(k: Kernel, to: nat, apc: Apc, target: nat)
    requires FirstInFirstOut(k, target)
    ensures FirstInFirstOut(Enqueue(k, to, apc), target)
  {
    hide Enqueued;
    hide DeliveredTo;
    var k1 := k.(queues := k.queues[to := QueueOf(k, to) + [apc]]);
    ApcHistoryGrows(k1, Queued(to, apc), target);
    var delivered, q := DeliveredTo(k.history, target), QueueOf(k, target);
    assert delivered + (q + [apc]) == delivered + q + [apc];
  }

  lemma DeliverFifo(k: Kernel, thread: nat, target: nat)
    requires FirstInFirstOut(k, target)
    ensures FirstInFirstOut(Deliver(k, thread), target)
  {
    hide Enqueued;
    hide DeliveredTo;
    var q := QueueOf(k, Self(thread));
    if q == [] {
      OtherNote(k, At(k, thread, Running), Returned(thread, STATUS_USER_APC), target);
    } else {
      var k1 := At(k.(queues := k.queues[Self(thread) := q[1..]]), thread, Running);
      var k2 := Noted(k1, Delivered(thread, Self(thread), q[0]));
      ApcHistoryGrows(k1, Delivered(thread, Self(thread), q[0]), target);
      assert [q[0]] + q[1..] == q;
      assert DeliveredTo(k.history, target) + [q[0]] + q[1..] == DeliveredTo(k.history, target) + ([q[0]] + q[1..]);
      OtherNote(k2, k2, Returned(thread, STATUS_USER_APC), target);
    }
  }

  lemma ResumeFifo(k: Kernel, thread: nat, w: Place, target: nat)
    requires FirstInFirstOut(k, target) && w.Waiting?
    ensures FirstInFirstOut(Resume(k, thread, w), target)
  {
    hide FirstInFirstOut;
    if w.alertable && QueueOf(k, Self(thread)) != [] {
      assert FirstInFirstOut(At(k, thread, Delivering), target) by { SameQueues(k, At(k, thread, Delivering), target); }
    } else if Wakes(k, thread, w) {
      var k1 := Consume(At(k, thread, Running), w.handle);
      OtherNote(k, k1, Acquired(thread, w.handle), target);
      var k2 := Noted(k1, Acquired(thread, w.handle));
      OtherNote(k2, k2, Returned(thread, STATUS_SUCCESS), target);
    } else {
      OtherNote(k, At(k, thread, Running), Returned(thread, STATUS_TIMEOUT), target);
    }
  }

  lemma SameQueues(k: Kernel, k1: Kernel, target: nat)
    requires FirstInFirstOut(k, target) && k1.history == k.history && k1.queues == k.queues
    ensures FirstInFirstOut(k1, target)
  {
  }

  lemma SignalFifo(k: Kernel, handle: nat, target: nat)
    requires FirstInFirstOut(k, target)
    ensures FirstInFirstOut(Signal(k, handle), target)
  {
    hide FirstInFirstOut;
    if handle in k.table {
      OtherNote(k, k.(table := k.table[handle := k.table[handle].(signaled := true)]), Signalled(handle), target);
    }
  }

  lemma StepFifo(k: Kernel, r: Region, target: nat)
    requires FirstInFirstOut(k, target)
    ensures FirstInFirstOut(Perform(k, r), target)
  {
    hide FirstInFirstOut;
    match r
    case Create(obj) =>
      var k1 := k.(table := k.table[k.nextHandle := obj], nextHandle := k.nextHandle + 1);
      OtherNote(k, k1, Created(k.nextHandle, obj), target);
    case SetSignal(handle) => SignalFifo(k, handle, target);
    case QueueApc(to, apc) => EnqueueFifo(k, to, apc, target);
    case ReadFileApc(thread, routine, context, block) =>
      if routine - routine % 2 != 0 && context != 0 {
        EnqueueFifo(k, Self(thread), Apc(routine - routine % 2, context, block, 0), target);
      }
    case ReadFileEvent(handle) => SignalFifo(k, handle, target);
    case ThreadExit(thread) => SignalFifo(k, Self(thread), target);
    case Close(handle) => SameQueues(k, Perform(k, r), target);
    case EnterWait(thread, handle, alertable, timed) =>
      var k1 := Noted(k, Entered(thread, handle, alertable, timed));
      OtherNote(k, k, Entered(thread, handle, alertable, timed), target);
      OtherNote(k1, k1, Returned(thread, STATUS_INVALID_HANDLE), target);
      SameQueues(k1, At(k1, thread, Waiting(handle, alertable, timed)), target);
    case ResumeWait(thread, _) =>
      if PlaceOf(k, thread).Waiting? {
        ResumeFifo(k, thread, PlaceOf(k, thread), target);
      }
    case DeliverApc(thread) => DeliverFifo(k, thread, target);
  }

  /** Exactly once, first in first out: the APCs queued to a thread are those delivered, then those still queued. */
  lemma {:induction false} ApcsConserved(rs: seq<Region>, target: nat)
    ensures var k := AfterRun(rs); Enqueued(k.history, target) == DeliveredTo(k.history, target) + QueueOf(k, target)
    decreases |rs|
  {
    hide Perform;
    if rs == [] {
    } else {
      ApcsConserved(rs[..|rs| - 1], target);
      StepFifo(AfterRun(rs[..|rs| - 1]), rs[|rs| - 1], target);
    }
  }

  // ---------------------------------------------------------------- what a wait returns

  predicate IsReturn(e: Happening, thread: nat) {
    e.Returned? && e.thread == thread
  }

  /** What one more happening makes of a thread's latest wait: its entry starts it, its other notes join it. */
  function Extended(wait: seq<Happening>, e: Happening, thread: nat): seq<Happening> {
    if e.Entered? && e.thread == thread then [e]
    else if (e.Acquired? || e.Delivered? || e.Returned?) && e.thread == thread then wait + [e]
    else wait
  }

  /** Everything a thread has entered, acquired, taken delivery of or returned since it last entered a wait. */
  function LatestWait(history: seq<Happening>, thread: nat): seq<Happening> {
    if history == [] then []
    else Extended(LatestWait(history[..|history| - 1], thread), history[|history| - 1], thread)
  }

  /**
   * A finished wait is one of four: a bad handle; a timeout it asked for; one acquisition of the object it named; or,
   * alertable, the delivery of one APC from its own queue and no acquisition.
   */
  predicate Fair(wait: seq<Happening>, thread: nat) {
    && 2 <= |wait| <= 3 && wait[0].Entered? && wait[0].thread == thread && IsReturn(wait[|wait| - 1], thread)
    && var status, middle := wait[|wait| - 1].status, wait[1..|wait| - 1];
       || (status == STATUS_INVALID_HANDLE && middle == [])
       || (status == STATUS_TIMEOUT && middle == [] && wait[0].timed)
       || (status == STATUS_SUCCESS && middle == [Acquired(thread, wait[0].handle)])
       || (status == STATUS_USER_APC && |middle| == 1 && wait[0].alertable
           && middle[0].Delivered? && middle[0].thread == thread && middle[0].target == Self(thread))
  }

  ghost predicate AllFair(history: seq<Happening>, thread: nat) {
    forall i :: 0 <= i < |history| && IsReturn(history[i], thread) ==>
      Fair(LatestWait(history[..i + 1], thread), thread)
  }

  /** A thread inside a wait has noted its entry and nothing since; with the lock released it still has its APC. */
  ghost predicate Midway(k: Kernel, thread: nat) {
    var wait := LatestWait(k.history, thread);
    match PlaceOf(k, thread)
    case Running => true
    case Waiting(handle, alertable, timed) => wait == [Entered(thread, handle, alertable, timed)]
    case Delivering =>
      && |wait| == 1 && wait[0].Entered? && wait[0].thread == thread && wait[0].alertable
      && (thread >= FIRST_HANDLE ==> QueueOf(k, thread) != [])
  }

  ghost predicate Sound(k: Kernel, thread: nat) {
    Midway(k, thread) && (thread >= FIRST_HANDLE ==> AllFair(k.history, thread))
  }

  /** One note keeps all waits fair if it does not close one, or closes a fair one. */
  lemma NoteFair(k: Kernel, e: Happening, thread: nat)
    requires AllFair(k.history, thread)
    requires IsReturn(e, thread) ==> Fair(LatestWait(k.history, thread) + [e], thread)
    ensures AllFair(Noted(k, e).history, thread)
  {
    hide Fair;
    hide LatestWait;
    var history := Noted(k, e).history;
    NoteExtends(k, e, thread);
    forall i | 0 <= i < |history| && IsReturn(history[i], thread)
      ensures Fair(LatestWait(history[..i + 1], thread), thread)
    {
      if i < |k.history| {
        assert history[..i + 1] == k.history[..i + 1] && history[i] == k.history[i];
      } else {
        assert history[..i + 1] == history;
      }
    }
  }

  lemma NoteExtends(k: Kernel, e: Happening, thread: nat)
    ensures LatestWait(Noted(k, e).history, thread) == Extended(LatestWait(k.history, thread), e, thread)
  {
    assert Noted(k, e).history[..|k.history|] == k.history;
  }

  /** A note of another thread, or of none, changes nothing for this one. */
  lemma OtherSound(k: Kernel, k1: Kernel, e: Happening, thread: nat)
    requires Sound(k, thread) && Extended([], e, thread) == []
    requires k1.history == k.history && PlaceOf(k1, thread) == PlaceOf(k, thread)
    requires PlaceOf(k, thread) == Delivering && thread >= FIRST_HANDLE ==> QueueOf(k1, thread) != []
    ensures Sound(k1, thread) && Sound(Noted(k1, e), thread)
  {
    hide LatestWait;
    hide AllFair;
    hide Fair;
    NoteExtends(k1, e, thread);
    if thread >= FIRST_HANDLE {
      NoteFair(k1, e, thread);
    }
  }

  lemma EnterSound(k: Kernel, actor: nat, handle: nat, alertable: bool, timed: bool, thread: nat)
    requires Sound(k, thread) && PlaceOf(k, actor) == Running
    ensures Sound(Perform(k, EnterWait(actor, handle, alertable, timed)), thread)
  {
    hide LatestWait;
    hide AllFair;
    hide Fair;
    var e, bad := Entered(actor, handle, alertable, timed), Returned(actor, STATUS_INVALID_HANDLE);
    var k1 := Noted(k, e);
    if actor != thread {
      hide Sound;
      OtherSound(k, k, e, thread);
      OtherSound(k1, At(k1, actor, Waiting(handle, alertable, timed)), bad, thread);
      OtherSound(k1, k1, bad, thread);
    } else {
      NoteExtends(k, e, thread);
      BadHandleIsFair(e, bad);
      if thread >= FIRST_HANDLE {
        NoteFair(k, e, thread);
        NoteFair(k1, bad, thread);
      }
    }
  }

  lemma BadHandleIsFair(e: Happening, bad: Happening)
    requires e.Entered? && bad == Returned(e.thread, STATUS_INVALID_HANDLE)
    ensures Fair([e] + [bad], e.thread)
  {
  }

  lemma SuccessIsFair(e: Happening)
    requires e.Entered?
    ensures Fair([e] + [Acquired(e.thread, e.handle)] + [Returned(e.thread, STATUS_SUCCESS)], e.thread)
  {
  }

  lemma TimeoutIsFair(e: Happening)
    requires e.Entered? && e.timed
    ensures Fair([e] + [Returned(e.thread, STATUS_TIMEOUT)], e.thread)
  {
  }

  lemma OwnResumeSound(k: Kernel, thread: nat, expired: bool)
    requires Sound(k, thread) && Enabled(k, ResumeWait(thread, expired))
    ensures Sound(Resume(k, thread, PlaceOf(k, thread)), thread)
  {
    hide LatestWait;
    hide AllFair;
    hide Fair;
    var w := PlaceOf(k, thread);
    var e, done, late := Entered(thread, w.handle, w.alertable, w.timed), Returned(thread, STATUS_SUCCESS),
                         Returned(thread, STATUS_TIMEOUT);
    if thread >= FIRST_HANDLE && !(w.alertable && QueueOf(k, Self(thread)) != []) {
      if Wakes(k, thread, w) {
        var k1 := Consume(At(k, thread, Running), w.handle);
        SuccessIsFair(e);
        NoteFair(k1, Acquired(thread, w.handle), thread);
        NoteExtends(k1, Acquired(thread, w.handle), thread);
        NoteFair(Noted(k1, Acquired(thread, w.handle)), done, thread);
      } else {
        TimeoutIsFair(e);
        NoteFair(At(k, thread, Running), late, thread);
      }
    }
  }

  lemma ResumeSound(k: Kernel, actor: nat, expired: bool, thread: nat)
    requires Sound(k, thread) && Enabled(k, ResumeWait(actor, expired))
    ensures Sound(Resume(k, actor, PlaceOf(k, actor)), thread)
  {
    hide LatestWait;
    hide AllFair;
    if actor == thread {
      OwnResumeSound(k, thread, expired);
    } else {
      assert PlaceOf(k, thread) == Delivering && thread >= FIRST_HANDLE ==> QueueOf(k, thread) != [];
      hide Sound;
      var w := PlaceOf(k, actor);
      var done, late := Returned(actor, STATUS_SUCCESS), Returned(actor, STATUS_TIMEOUT);
      var k1 := Consume(At(k, actor, Running), w.handle);
      var k2 := Noted(k1, Acquired(actor, w.handle));
      OtherSound(k, At(k, actor, Delivering), late, thread);
      OtherSound(k, At(k, actor, Running), late, thread);
      OtherSound(k, k1, Acquired(actor, w.handle), thread);
      OtherSound(k2, k2, done, thread);
    }
  }

  lemma DeliverSound(k: Kernel, actor: nat, thread: nat)
    requires Sound(k, thread) && PlaceOf(k, actor) == Delivering
    ensures Sound(Deliver(k, actor), thread)
  {
    hide LatestWait;
    hide AllFair;
    var q, back := QueueOf(k, Self(actor)), Returned(actor, STATUS_USER_APC);
    if q == [] {
      if actor != thread {
        OtherSound(k, At(k, actor, Running), back, thread);
      }
    } else {
      var e := Delivered(actor, Self(actor), q[0]);
      var k1 := At(k.(queues := k.queues[Self(actor) := q[1..]]), actor, Running);
      if actor != thread {
        OtherSound(k, k1, e, thread);
        OtherSound(Noted(k1, e), Noted(k1, e), back, thread);
      } else if thread >= FIRST_HANDLE {
        NoteFair(k1, e, thread);
        NoteExtends(k1, e, thread);
        NoteFair(Noted(k1, e), back, thread);
      }
    }
  }

  lemma EnqueueSound(k: Kernel, target: nat, apc: Apc, thread: nat)
    requires Sound(k, thread)
    ensures Sound(Enqueue(k, target, apc), thread)
  {
    hide LatestWait;
    hide AllFair;
    OtherSound(k, k.(queues := k.queues[target := QueueOf(k, target) + [apc]]), Queued(target, apc), thread);
  }

  lemma SignalSound(k: Kernel, handle: nat, thread: nat)
    requires Sound(k, thread)
    ensures Sound(Signal(k, handle), thread)
  {
    hide LatestWait;
    hide AllFair;
    if handle in k.table {
      var k1 := k.(table := k.table[handle := k.table[handle].(signaled := true)]);
      OtherSound(k, k1, Signalled(handle), thread);
    }
  }

  lemma StepSound(k: Kernel, r: Region, thread: nat)
    requires Sound(k, thread) && Enabled(k, r)
    ensures Sound(Perform(k, r), thread)
  {
    hide LatestWait;
    hide AllFair;
    match r
    case Create(obj) =>
      var k1 := k.(table := k.table[k.nextHandle := obj], nextHandle := k.nextHandle + 1);
      OtherSound(k, k1, Created(k.nextHandle, obj), thread);
    case SetSignal(handle) => SignalSound(k, handle, thread);
    case QueueApc(target, apc) => EnqueueSound(k, target, apc, thread);
    case ReadFileApc(actor, routine, context, block) =>
      EnqueueSound(k, Self(actor), Apc(routine - routine % 2, context, block, 0), thread);
    case ReadFileEvent(handle) => SignalSound(k, handle, thread);
    case ThreadExit(actor) => SignalSound(k, Self(actor), thread);
    case Close(_) =>
    case EnterWait(actor, handle, alertable, timed) => EnterSound(k, actor, handle, alertable, timed, thread);
    case ResumeWait(actor, expired) => ResumeSound(k, actor, expired, thread);
    case DeliverApc(actor) => DeliverSound(k, actor, thread);
  }

  lemma {:induction false} RunSound(rs: seq<Region>, thread: nat)
    requires Possible(rs)
    ensures Sound(AfterRun(rs), thread)
    decreases |rs|
  {
    hide Perform;
    hide Enabled;
    if rs == [] {
    } else {
      RunSound(rs[..|rs| - 1], thread);
      StepSound(AfterRun(rs[..|rs| - 1]), rs[|rs| - 1], thread);
    }
  }

  /**
   * Although the lock is released between seeing an APC and taking it: whatever the interleaving, a wait by a thread
   * with its own handle that returns STATUS_USER_APC took exactly one APC between its entry and its return and
   * acquired nothing, and one that returns anything else took none and acquired its object exactly on success.
   */
  lemma AlertableWaitsAreHonest(rs: seq<Region>, thread: nat, i: nat)
    requires Possible(rs) && thread >= FIRST_HANDLE
    requires i < |AfterRun(rs).history| && IsReturn(AfterRun(rs).history[i], thread)
    ensures Fair(LatestWait(AfterRun(rs).history[..i + 1], thread), thread)
  {
    hide Possible;
    hide AfterRun;
    hide Fair;
    RunSound(rs, thread);
  }

  /**
   * A region of a wait changes the table only by taking the signal it notes, on its way to STATUS_SUCCESS; the two
   * regions of a wait that returns STATUS_USER_APC leave it alone.
   */
  lemma OnlyAcquiringTakes(k: Kernel, r: Region)
    requires r.EnterWait? || r.ResumeWait? || r.DeliverApc?
    requires Enabled(k, r)
    ensures var k1, w := Perform(k, r), PlaceOf(k, r.thread);
      && (k1.table != k.table ==>
            && w.Waiting? && w.handle in k.table && k.table[w.handle].signaled
            && k1.table == k.table[w.handle := k.table[w.handle].(signaled := false)]
            && k1.history == k.history + [Acquired(r.thread, w.handle), Returned(r.thread, STATUS_SUCCESS)])
      && (PlaceOf(k1, r.thread) == Delivering ==> k1.table == k.table)
      && (r.DeliverApc? ==> k1.table == k.table)
  {
  }

  /** Every finished wait of one thread is fair, in every possible run. */
  ghost predicate AlwaysHonest(thread: nat) {
    forall rs, i :: Possible(rs) && 0 <= i < |AfterRun(rs).history| && IsReturn(AfterRun(rs).history[i], thread)
      ==> Fair(LatestWait(AfterRun(rs).history[..i + 1], thread), thread)
  }

  /** The promise holds of exactly the threads that have a handle of their own; the others share one queue. */
  lemma HonestExactlyWithOwnHandle(thread: nat)
    ensures AlwaysHonest(thread) <==> thread >= FIRST_HANDLE
  {
    hide Possible;
    hide AfterRun;
    hide Fair;
    if thread >= FIRST_HANDLE {
      forall rs, i | Possible(rs) && 0 <= i < |AfterRun(rs).history| && IsReturn(AfterRun(rs).history[i], thread)
        ensures Fair(LatestWait(AfterRun(rs).history[..i + 1], thread), thread)
      {
        AlertableWaitsAreHonest(rs, thread, i);
      }
    } else {
      var rs, i := SharedQueueMisleads(thread, if thread == 0 then 1 else 0);
      assert IsReturn(AfterRun(rs).history[i], thread);
    }
  }

  lemma OneMore(rs: seq<Region>, r: Region) returns (longer: seq<Region>, k: Kernel)
    requires Possible(rs) && Enabled(AfterRun(rs), r)
    ensures longer == rs + [r] && Possible(longer) && k == AfterRun(longer) == Perform(AfterRun(rs), r)
  {
    longer := rs + [r];
    assert longer[..|rs|] == rs;
    k := AfterRun(longer);
  }

  /**
   * Two host threads without a handle of their own, both in alertable waits, and a single APC: one of them is told of
   * an APC it never took.
   */
  lemma SharedQueueMisleads(thread: nat, other: nat) returns (rs: seq<Region>, i: nat)
    requires thread != other && thread < FIRST_HANDLE && other < FIRST_HANDLE
    ensures Possible(rs) && i < |AfterRun(rs).history| && IsReturn(AfterRun(rs).history[i], thread)
    ensures var wait := LatestWait(AfterRun(rs).history[..i + 1], thread);
      |wait| == 2 && wait[1] == Returned(thread, STATUS_USER_APC) && !Fair(wait, thread)
  {
    hide Possible;
    hide AfterRun;
    hide LatestWait;
    hide AllFair;
    var k;
    rs, k := BothBlocked(thread, other);
    rs, k := OneMore(rs, ResumeWait(other, false));
    assert PlaceOf(k, thread).Waiting? && QueueOf(k, 0) != [];
    rs, k := OneMore(rs, ResumeWait(thread, false));
    assert PlaceOf(k, thread) == PlaceOf(k, other) == Delivering;
    rs, k := OneMore(rs, DeliverApc(other));
    assert PlaceOf(k, thread) == Delivering && QueueOf(k, 0) == [];
    RunSound(rs, thread);
    NoteExtends(At(k, thread, Running), Returned(thread, STATUS_USER_APC), thread);
    rs, k := OneMore(rs, DeliverApc(thread));
    i := |k.history| - 1;
    assert k.history[..i + 1] == k.history;
  }

  lemma BothBlocked(thread: nat, other: nat) returns (rs: seq<Region>, k: Kernel)
    requires thread != other && thread < FIRST_HANDLE && other < FIRST_HANDLE
    ensures Possible(rs) && k == AfterRun(rs) && |QueueOf(k, 0)| == 1
    ensures PlaceOf(k, thread) == PlaceOf(k, other) == Waiting(FIRST_HANDLE, true, false)
  {
    assert Possible([]) && AfterRun([]) == BOOT;
    hide Possible;
    hide AfterRun;
    rs, k := OneMore([], Create(HandleObject(Event(true), false)));
    rs, k := OneMore(rs, QueueApc(0, Apc(4, 0, 0, 0)));
    assert |QueueOf(k, 0)| == 1 && FIRST_HANDLE in k.table;
    rs, k := OneMore(rs, EnterWait(thread, FIRST_HANDLE, true, false));
    rs, k := OneMore(rs, EnterWait(other, FIRST_HANDLE, true, false));
  }
}
