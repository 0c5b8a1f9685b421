/** The dispatcher's shared state as an object: each method is one region run under the state lock. */
module Dispatcher {
  import opened Words
  import opened KernelDispatcher

  class KernelState {
    var handleTable: map<nat, HandleObject>
    var nextHandle: nat
    var apcQueues: map<nat, seq<Apc>>
    /** Where each host thread stands, which the source keeps on the threads' own stacks. */
    ghost var places: map<nat, Place>
    ghost var history: seq<Happening>

    ghost function State(): Kernel
      reads this
    {
      Kernel(handleTable, nextHandle, apcQueues, places, history)
    }

    constructor ()
      ensures State() == BOOT
    {
      handleTable, nextHandle, apcQueues, places, history := map[], FIRST_HANDLE, map[], map[], [];
    }

    /** The common part of every call that makes a handle. */
    method NewHandle(obj: HandleObject) returns (handle: nat)
      modifies this
      ensures State() == Perform(old(State()), Create(obj)) && handle == old(nextHandle)
      ensures handleTable == old(handleTable)[handle := obj]
    {
      handle := nextHandle;
      nextHandle := nextHandle + 1;
      handleTable := handleTable[handle := obj];
      history := history + [Created(handle, obj)];
    }

    method NtCreateMutant(initialOwner: bool) returns (handle: nat)
      modifies this
      ensures State() == Perform(old(State()), Create(HandleObject(Mutant, !initialOwner))) && handle == old(nextHandle)
      ensures handleTable == old(handleTable)[handle := HandleObject(Mutant, !initialOwner)]
    {
      handle := NewHandle(HandleObject(Mutant, !initialOwner));
    }

    method NtCreateEvent(eventType: u32, initialState: bool) returns (handle: nat)
      modifies this
      ensures State() == Perform(old(State()), Create(HandleObject(Event(eventType != 0), initialState)))
      ensures handle == old(nextHandle)
      ensures handleTable == old(handleTable)[handle := HandleObject(Event(eventType != 0), initialState)]
    {
      handle := NewHandle(HandleObject(Event(eventType != 0), initialState));
    }

    /** NtSetEvent and NtReleaseMutant; unknown handles are ignored. */
    method SetSignalled(handle: nat)
      modifies this
      ensures State() == Perform(old(State()), SetSignal(handle))
      ensures handleTable == if handle !in old(handleTable) then old(handleTable)
                             else old(handleTable)[handle := HandleObject(old(handleTable)[handle].kind, true)]
    {
      if handle in handleTable {
        handleTable := handleTable[handle := handleTable[handle].(signaled := true)];
        history := history + [Signalled(handle)];
      }
    }

    method NtQueueApcThread(target: nat, routine: u32, context: u32, arg1: u32, arg2: u32)
      modifies this
      ensures State() == Perform(old(State()), QueueApc(target, Apc(routine, context, arg1, arg2)))
      ensures QueueOf(State(), target) == QueueOf(old(State()), target) + [Apc(routine, context, arg1, arg2)]
      ensures handleTable == old(handleTable)
    {
      PushApc(target, Apc(routine, context, arg1, arg2));
    }

    method PushApc(target: nat, apc: Apc)
      modifies this
      ensures State() == Perform(old(State()), QueueApc(target, apc))
      ensures QueueOf(State(), target) == QueueOf(old(State()), target) + [apc] && handleTable == old(handleTable)
    {
      var queue := if target in apcQueues then apcQueues[target] else [];
      apcQueues := apcQueues[target := queue + [apc]];
      history := history + [Queued(target, apc)];
    }

    /** A completed read queues an APC to the reading thread when it names both a routine and a context. */
    method CompleteReadApc(thread: nat, routine: u32, context: u32, ioStatusBlock: u32)
      modifies this
      ensures State() == Perform(old(State()), ReadFileApc(thread, routine, context, ioStatusBlock))
      ensures QueueOf(State(), Self(thread)) == QueueOf(old(State()), Self(thread)) +
        if routine < 2 || context == 0 then [] else [Apc(routine - routine % 2, context, ioStatusBlock, 0)]
    {
      var realRoutine := routine - routine % 2;
      if realRoutine != 0 && context != 0 {
        PushApc(Self(thread), Apc(realRoutine, context, ioStatusBlock, 0));
      }
    }

    method CompleteReadEvent(handle: nat)
      modifies this
      ensures State() == Perform(old(State()), ReadFileEvent(handle))
      ensures handleTable == if handle == 0 || handle !in old(handleTable) then old(handleTable)
                             else old(handleTable)[handle := HandleObject(old(handleTable)[handle].kind, true)]
    {
      if handle != 0 {
        SetSignalled(handle);
      }
    }

    method NtClose(handle: nat)
      modifies this
      ensures State() == Perform(old(State()), Close(handle))
      ensures handle !in handleTable && (forall h :: h != handle ==> (h in handleTable <==> h in old(handleTable)))
    {
      handleTable := handleTable - {handle};
    }

    /** The start of NtWaitForSingleObjectEx: an unknown handle returns at once. */
    method BeginWait(thread: nat, handle: nat, alertable: bool, timed: bool) returns (status: Option<u32>)
      modifies this
      ensures State() == Perform(old(State()), EnterWait(thread, handle, alertable, timed))
      ensures status == if handle in old(handleTable) then None else Some(STATUS_INVALID_HANDLE)
    {
      history := history + [Entered(thread, handle, alertable, timed)];
      if handle !in handleTable {
        history := history + [Returned(thread, STATUS_INVALID_HANDLE)];
        return Some(STATUS_INVALID_HANDLE);
      }
      places := places[thread := Waiting(handle, alertable, timed)];
      status := None;
    }

    /** The end of its blocking part; no status yet when an APC is to be delivered. */
    method EndWait(thread: nat, handle: nat, alertable: bool, timed: bool, expired: bool) returns (status: Option<u32>)
      requires PlaceOf(State(), thread) == Waiting(handle, alertable, timed)
      requires Enabled(State(), ResumeWait(thread, expired))
      modifies this
      ensures State() == Perform(old(State()), ResumeWait(thread, expired))
      ensures status == (if alertable && QueueOf(old(State()), Self(thread)) != [] then None
                         else if handle in old(handleTable) && old(handleTable)[handle].signaled
                         then Some(STATUS_SUCCESS)
                         else Some(STATUS_TIMEOUT))
      ensures status == Some(STATUS_SUCCESS) ==>
        handle in handleTable && (handleTable[handle].signaled <==> !AutoReset(handleTable[handle].kind))
      ensures status != Some(STATUS_SUCCESS) ==> handleTable == old(handleTable)
    {
      var self := Self(thread);
      var pending := self in apcQueues && apcQueues[self] != [];
      var woke := (handle in handleTable && handleTable[handle].signaled) || (alertable && pending);
      if alertable && pending {
        places := places[thread := Delivering];
        return None;
      }
      places := places[thread := Running];
      if woke {
        var obj := handleTable[handle];
        if obj.kind == Mutant || (obj.kind.Event? && obj.kind.autoReset) {
          handleTable := handleTable[handle := obj.(signaled := false)];
        }
        history := history + [Acquired(thread, handle)] + [Returned(thread, STATUS_SUCCESS)];
        return Some(STATUS_SUCCESS);
      }
      history := history + [Returned(thread, STATUS_TIMEOUT)];
      return Some(STATUS_TIMEOUT);
    }

    /** TryDeliverOneApc: the APC whose routine is then called with its context and two arguments. */
    method TryDeliverOneApc(thread: nat) returns (apc: Option<Apc>)
      modifies this
      ensures State() == Perform(old(State()), DeliverApc(thread))
      ensures var q := QueueOf(old(State()), Self(thread));
        apc == (if q == [] then None else Some(q[0]))
        && QueueOf(State(), Self(thread)) == (if q == [] then [] else q[1..]) && handleTable == old(handleTable)
    {
      var self := Self(thread);
      places := places[thread := Running];
      if self !in apcQueues || apcQueues[self] == [] {
        history := history + [Returned(thread, STATUS_USER_APC)];
        return None;
      }
      apc := Some(apcQueues[self][0]);
      apcQueues := apcQueues[self := apcQueues[self][1..]];
      history := history + [Delivered(thread, self, apc.value)] + [Returned(thread, STATUS_USER_APC)];
    }
  }
}
