/**
 * The thread bookkeeping of the mbed OS RTOS port in C++
 * (pal_plat_rtos.cpp): the map between PAL and CMSIS priorities and the
 * fixed table g_palThreads, indexed by PAL thread id.
 *
 * The CMSIS calls are parameters: the id osThreadGetId reports for the
 * running thread, the id osThreadNew returns, the address malloc returns
 * and the status of osThreadTerminate. Every free() of a stack is recorded
 * in the table's `freed` log.
 */
module RtosCpp {
  import opened Words
  import opened Wrappers
  import opened PalStatus
  import opened RtosCommon

  /** mapThreadPriorityToPlatSpecific */
  function PlatSpecificPriority(priority: int): (r: int)
    ensures PAL_osPriorityIdle <= priority <= PAL_osPriorityRealtime ==> 1 <= r <= 48 && r % 8 in {0, 1}
    ensures !(PAL_osPriorityIdle <= priority <= PAL_osPriorityRealtime) ==> r == -1
  {
    if priority == PAL_osPriorityIdle then 1
    else if priority == PAL_osPriorityLow then 8
    else if priority == PAL_osPriorityBelowNormal then 16
    else if priority == PAL_osPriorityNormal then 24
    else if priority == PAL_osPriorityAboveNormal then 32
    else if priority == PAL_osPriorityHigh then 40
    else if priority == PAL_osPriorityRealtime then 48
    else -1
  }

  /** mapThreadPriorityToPalGeneric */
  function PalGenericPriority(priority: int): (r: int)
    ensures r in Priorities
    ensures priority !in {1, 8, 16, 24, 32, 40, 48} ==> r == PAL_osPriorityError
  {
    if priority == 1 then PAL_osPriorityIdle
    else if priority == 8 then PAL_osPriorityLow
    else if priority == 16 then PAL_osPriorityBelowNormal
    else if priority == 24 then PAL_osPriorityNormal
    else if priority == 32 then PAL_osPriorityAboveNormal
    else if priority == 40 then PAL_osPriorityHigh
    else if priority == 48 then PAL_osPriorityRealtime
    else PAL_osPriorityError
  }

  /** The generic priority survives the trip through the CMSIS value, Error included. */
  lemma PriorityRoundTrip(p: int)
    requires p in Priorities
    ensures PalGenericPriority(PlatSpecificPriority(p)) == p
  {
    assert p == Priorities[0] || p == Priorities[1] || p == Priorities[2] || p == Priorities[3]
        || p == Priorities[4] || p == Priorities[5] || p == Priorities[6] || p == Priorities[7];
  }

  /** ... and every CMSIS value the map produces survives the trip back. */
  lemma PlatPriorityRoundTrip(x: int)
    requires x in {1, 8, 16, 24, 32, 40, 48, -1}
    ensures PlatSpecificPriority(PalGenericPriority(x)) == x
  {}

  /** Higher PAL priorities map to strictly higher CMSIS priorities. */
  lemma PlatSpecificPriorityMonotone(p: int, q: int)
    requires PAL_osPriorityIdle <= p < q <= PAL_osPriorityRealtime
    ensures PlatSpecificPriority(p) < PlatSpecificPriority(q)
  {}

  /** The stack setDefaultThreadValues frees, if the slot holds one. */
  function Freed(s: Slot): (r: seq<nat>)
    ensures s.stackMem == NULLPTR <==> r == []
  {
    if s.stackMem != NULLPTR then [s.stackMem] else []
  }

  /** setDefaultThreadValues as written: the freed stack pointer stays in the slot. */
  function DefaultSlotAsWritten(s: Slot): (r: Slot)
    ensures !r.initialized && r.threadID == NULLPTR && r.stackMem == s.stackMem
  {
    Slot(NULLPTR, false, 0, 0, 0, 0, PlatSpecificPriority(PAL_osPriorityError), 0, s.stackMem)
  }

  /**
   * Cleaning a slot, claiming it for a thread whose stack allocation fails
   * (the claim sets only `initialized`), then terminating it, frees the
   * same stack twice: the second cleanup sees the stale pointer.
   */
  lemma StaleStackFreedTwice(s: Slot)
    requires s.stackMem != NULLPTR
    ensures var claimed := DefaultSlotAsWritten(s).(initialized := true);
            claimed.initialized && claimed.threadID == NULLPTR
            && Freed(s) + Freed(claimed) == [s.stackMem, s.stackMem]
  {}

  /** setDefaultThreadValues, with the stack pointer reset once freed. */
  function DefaultSlot(s: Slot): (r: Slot)
    ensures !r.initialized && r.threadID == NULLPTR && r.stackMem == NULLPTR
    ensures r.priority == PlatSpecificPriority(PAL_osPriorityError)
    ensures r.threadStore == NULLPTR && r.realThreadFunc == NULLPTR && r.realThreadArgs == NULLPTR
    ensures r.threadIndex == 0 && r.stackSize == 0
  {
    Slot(NULLPTR, false, 0, 0, 0, 0, PlatSpecificPriority(PAL_osPriorityError), 0, NULLPTR)
  }

  /** With the pointer reset, a slot cleaned again after a failed claim frees nothing. */
  lemma CleanedSlotFreesNothing(s: Slot)
    ensures Freed(DefaultSlot(s).(initialized := true)) == []
  {}

  /** The first slot bound to the OS thread id. */
  function FindThread(s: seq<Slot>, id: nat): (r: Option<nat>)
    ensures r.Some? ==> r.value < |s| && s[r.value].threadID == id
    ensures r.Some? ==> forall j :: 0 <= j < r.value ==> s[j].threadID != id
    ensures r.None? ==> forall j :: 0 <= j < |s| ==> s[j].threadID != id
  {
    if |s| == 0 then None
    else if s[0].threadID == id then Some(0)
    else match FindThread(s[1..], id)
      case None => None
      case Some(i) => Some(i + 1)
  }

  /** The table of PAL_MAX_NUMBER_OF_THREADS slots, indexed by PAL thread id. */
  class ThreadTable {
    const slots: array<Slot>
    var freed: seq<nat>

    ghost predicate Valid()
      reads this
    {
      1 <= slots.Length < TWO_32
    }

    constructor (maxThreads: nat)
      requires 1 <= maxThreads < TWO_32
      ensures Valid() && slots.Length == maxThreads && fresh(slots)
      ensures forall i :: 0 <= i < slots.Length ==> slots[i] == ZeroSlot
      ensures freed == []
    {
      slots := new Slot[maxThreads](_ => ZeroSlot);
      freed := [];
    }

    /**
     * threadCleanUp as written: a NULL table or an index out of range is
     * ignored; otherwise the stack is freed and its pointer left in the slot.
     */
    method ThreadCleanUp(dbIsNull: bool, index: nat)
      modifies slots, this`freed
      ensures dbIsNull || index >= slots.Length ==> slots[..] == old(slots[..]) && freed == old(freed)
      ensures !dbIsNull && index < slots.Length ==>
                slots[..] == old(slots[..])[index := DefaultSlotAsWritten(old(slots[index]))]
                && freed == old(freed) + Freed(old(slots[index]))
    {
      if dbIsNull || index >= slots.Length {
        return;
      }
      freed := freed + Freed(slots[index]);
      slots[index] := DefaultSlotAsWritten(slots[index]);
    }

    /** threadCleanUp with the stack pointer reset once it is freed. */
    method ThreadCleanUpResettingStack(dbIsNull: bool, index: nat)
      modifies slots, this`freed
      ensures dbIsNull || index >= slots.Length ==> slots[..] == old(slots[..]) && freed == old(freed)
      ensures !dbIsNull && index < slots.Length ==>
                slots[..] == old(slots[..])[index := DefaultSlot(old(slots[index]))]
                && freed == old(freed) + Freed(old(slots[index]))
    {
      if dbIsNull || index >= slots.Length {
        return;
      }
      freed := freed + Freed(slots[index]);
      slots[index] := DefaultSlot(slots[index]);
    }

    /**
     * The double free, through the table's own operations: terminate the
     * thread in slot i, create a thread whose stack allocation fails (the
     * claim of slot i stays), then terminate slot i again.
     */
    method StaleStackScenario(i: uint32, runningThread: nat)
      requires Valid() && i < slots.Length
      requires slots[i].initialized && slots[i].stackMem != NULLPTR
      requires runningThread != slots[i].threadID && runningThread != NULLPTR
      requires forall j :: 0 <= j < i ==> slots[j].initialized
      modifies slots, this`freed
      ensures freed == old(freed) + [old(slots[i]).stackMem, old(slots[i]).stackMem]
    {
      var status, id := ThreadTerminate(i, runningThread, osOK);
      assert !slots[i].initialized && forall j :: 0 <= j < i ==> slots[j].initialized;
      var created, newId := ThreadCreate(1, 0, PAL_osPriorityNormal, 1, 0, false, NULLPTR, 0);
      status, id := ThreadTerminate(i, runningThread, osOK);
    }

    /** The same three steps with the corrected cleanup free the stack once. */
    method ResetStackScenario(i: uint32)
      requires Valid() && i < slots.Length
      requires slots[i].initialized && slots[i].stackMem != NULLPTR
      requires forall j :: 0 <= j < i ==> slots[j].initialized
      modifies slots, this`freed
      ensures freed == old(freed) + [old(slots[i]).stackMem]
    {
      ThreadCleanUpResettingStack(false, i as nat);
      assert !slots[i].initialized && forall j :: 0 <= j < i ==> slots[j].initialized;
      var status, id := ThreadCreate(1, 0, PAL_osPriorityNormal, 1, 0, false, NULLPTR, 0);
      ThreadCleanUpResettingStack(false, i as nat);
    }

    /** pal_plat_RTOSInitialize: zero the table and bind slot 0 to the running thread. */
    method RTOSInitialize(runningThread: nat) returns (status: int)
      requires Valid()
      modifies slots
      ensures status == PAL_SUCCESS
      ensures slots[0] == ZeroSlot.(initialized := true, threadID := runningThread)
      ensures forall i :: 1 <= i < slots.Length ==> slots[i] == ZeroSlot
      ensures forall i :: 0 <= i < slots.Length ==> (slots[i].initialized <==> i == 0)
    {
      forall i | 0 <= i < slots.Length {
        slots[i] := ZeroSlot;
      }
      slots[0] := ZeroSlot.(initialized := true, threadID := runningThread);
      status := PAL_SUCCESS;
    }

    /**
     * The scan of pal_plat_osThreadCreate: the first free slot is claimed
     * (marked initialized) as soon as it is found.
     */
    method ClaimFirstFree() returns (index: nat)
      requires Valid()
      modifies slots
      ensures FirstFree(old(slots[..])).None? ==> index == slots.Length && slots[..] == old(slots[..])
      ensures FirstFree(old(slots[..])).Some? ==>
                index == FirstFree(old(slots[..])).value
                && slots[..] == old(slots[..])[index := old(slots[index]).(initialized := true)]
    {
      index := slots.Length;
      var i := 0;
      while i < slots.Length
        invariant 0 <= i <= slots.Length
        invariant slots[..] == old(slots[..])
        invariant forall j :: 0 <= j < i ==> slots[j].initialized
      {
        if !slots[i].initialized {
          slots[i] := slots[i].(initialized := true);
          index := i;
          return;
        }
        i := i + 1;
      }
    }

    /** pal_plat_osThreadCreate; threadID is what is written through the out-pointer, if anything. */
    method ThreadCreate(threadFunc: nat, funcArgument: nat, priority: int, stackSize: uint32,
                        store: nat, threadIdIsNull: bool, mallocResult: nat, osThreadNewResult: nat)
      returns (status: int, threadID: Option<uint32>)
      requires Valid()
      modifies slots, this`freed
      ensures threadIdIsNull || threadFunc == NULLPTR || stackSize == 0 || priority > PAL_osPriorityRealtime ==>
                status == PAL_ERR_INVALID_ARGUMENT && threadID == None
                && slots[..] == old(slots[..]) && freed == old(freed)
      ensures !(threadIdIsNull || threadFunc == NULLPTR || stackSize == 0 || priority > PAL_osPriorityRealtime) ==>
                var free := FirstFree(old(slots[..]));
                (free.None? ==>
                   status == PAL_ERR_RTOS_RESOURCE && threadID == None
                   && slots[..] == old(slots[..]) && freed == old(freed))
                && (free.Some? && mallocResult == NULLPTR ==>
                      status == PAL_ERR_RTOS_RESOURCE && threadID == None && freed == old(freed)
                      && slots[..] == old(slots[..])[free.value := old(slots[free.value]).(initialized := true)])
                && (free.Some? && mallocResult != NULLPTR && osThreadNewResult != NULLPTR ==>
                      status == PAL_SUCCESS && threadID == Some(free.value) && freed == old(freed)
                      && slots[..] == old(slots[..])[free.value :=
                           Slot(osThreadNewResult, true, store, threadFunc, funcArgument, free.value,
                                PlatSpecificPriority(priority), stackSize, mallocResult)])
                && (free.Some? && mallocResult != NULLPTR && osThreadNewResult == NULLPTR ==>
                      status == PAL_ERR_GENERIC_FAILURE && threadID == Some(PAL_INVALID_THREAD)
                      && freed == old(freed) + [mallocResult]
                      && slots[..] == old(slots[..])[free.value := DefaultSlotAsWritten(old(slots[free.value])).(stackMem := mallocResult)])
    {
      if threadIdIsNull || threadFunc == NULLPTR || stackSize == 0 || priority > PAL_osPriorityRealtime {
        return PAL_ERR_INVALID_ARGUMENT, None;
      }
      var index := ClaimFirstFree();
      if index >= slots.Length {
        return PAL_ERR_RTOS_RESOURCE, None;
      }
      if mallocResult == NULLPTR {
        return PAL_ERR_RTOS_RESOURCE, None;
      }
      slots[index] := Slot(osThreadNewResult, true, store, threadFunc, funcArgument, index,
                           PlatSpecificPriority(priority), stackSize, mallocResult);
      if osThreadNewResult == NULLPTR {
        ThreadCleanUp(false, index);
        status, threadID := PAL_ERR_GENERIC_FAILURE, Some(PAL_INVALID_THREAD);
      } else {
        status, threadID := PAL_SUCCESS, Some(index);
      }
    }

    /** pal_plat_osThreadGetId: the first slot bound to the running thread. */
    method ThreadGetId(runningThread: nat) returns (r: uint32)
      requires Valid()
      ensures FindThread(slots[..], runningThread).Some? ==> r == FindThread(slots[..], runningThread).value
      ensures FindThread(slots[..], runningThread).None? ==> r == PAL_INVALID_THREAD
    {
      r := PAL_INVALID_THREAD;
      var i := 0;
      while i < slots.Length
        invariant 0 <= i <= slots.Length
        invariant forall j :: 0 <= j < i ==> slots[j].threadID != runningThread
      {
        if runningThread == slots[i].threadID {
          r := i;
          return;
        }
        i := i + 1;
      }
    }

    /**
     * pal_plat_osThreadTerminate as written: a termination refused with
     * osErrorISR leaves the slot alone, but the status is then overwritten
     * with PAL_SUCCESS.
     */
    method ThreadTerminate(threadID: uint32, runningThread: nat, osTerminateStatus: int)
      returns (status: int, threadIDOut: uint32)
      requires Valid()
      modifies slots, this`freed
      ensures threadID >= slots.Length ==>
                status == PAL_ERR_INVALID_ARGUMENT && threadIDOut == threadID
                && slots[..] == old(slots[..]) && freed == old(freed)
      ensures threadID < slots.Length && runningThread == old(slots[threadID]).threadID ==>
                status == PAL_ERR_RTOS_TASK && threadIDOut == threadID
                && slots[..] == old(slots[..]) && freed == old(freed)
      ensures threadID < slots.Length && runningThread != old(slots[threadID]).threadID ==>
                status == PAL_SUCCESS && threadIDOut == PAL_INVALID_THREAD
                && (old(slots[threadID]).initialized && osTerminateStatus != osErrorISR ==>
                      slots[..] == old(slots[..])[threadID := DefaultSlotAsWritten(old(slots[threadID]))]
                      && freed == old(freed) + Freed(old(slots[threadID])))
                && (!(old(slots[threadID]).initialized && osTerminateStatus != osErrorISR) ==>
                      slots[..] == old(slots[..]) && freed == old(freed))
    {
      status := PAL_ERR_INVALID_ARGUMENT;
      threadIDOut := threadID;
      if threadID >= slots.Length {
        return;
      }
      if runningThread != slots[threadID].threadID {
        if slots[threadID].initialized {
          if osTerminateStatus != osErrorISR {
            ThreadCleanUp(false, threadID);
          } else {
            status := PAL_ERR_RTOS_ISR;
          }
        }
        threadIDOut := PAL_INVALID_THREAD;
        status := PAL_SUCCESS;
      } else {
        status := PAL_ERR_RTOS_TASK;
      }
    }

    /** pal_plat_osThreadTerminate reporting the refusal from an interrupt handler. */
    method ThreadTerminateReportingIsr(threadID: uint32, runningThread: nat, osTerminateStatus: int)
      returns (status: int, threadIDOut: uint32)
      requires Valid()
      modifies slots, this`freed
      ensures threadID >= slots.Length ==>
                status == PAL_ERR_INVALID_ARGUMENT && threadIDOut == threadID
                && slots[..] == old(slots[..]) && freed == old(freed)
      ensures threadID < slots.Length && runningThread == old(slots[threadID]).threadID ==>
                status == PAL_ERR_RTOS_TASK && threadIDOut == threadID
                && slots[..] == old(slots[..]) && freed == old(freed)
      ensures threadID < slots.Length && runningThread != old(slots[threadID]).threadID
              && old(slots[threadID]).initialized && osTerminateStatus == osErrorISR ==>
                status == PAL_ERR_RTOS_ISR && threadIDOut == threadID
                && slots[..] == old(slots[..]) && freed == old(freed)
      ensures threadID < slots.Length && runningThread != old(slots[threadID]).threadID
              && !(old(slots[threadID]).initialized && osTerminateStatus == osErrorISR) ==>
                status == PAL_SUCCESS && threadIDOut == PAL_INVALID_THREAD
                && (old(slots[threadID]).initialized ==>
                      slots[..] == old(slots[..])[threadID := DefaultSlotAsWritten(old(slots[threadID]))]
                      && freed == old(freed) + Freed(old(slots[threadID])))
                && (!old(slots[threadID]).initialized ==> slots[..] == old(slots[..]) && freed == old(freed))
    {
      threadIDOut := threadID;
      if threadID >= slots.Length {
        return PAL_ERR_INVALID_ARGUMENT, threadID;
      }
      if runningThread == slots[threadID].threadID {
        return PAL_ERR_RTOS_TASK, threadID;
      }
      if slots[threadID].initialized {
        if osTerminateStatus == osErrorISR {
          return PAL_ERR_RTOS_ISR, threadID;
        }
        ThreadCleanUp(false, threadID);
      }
      status, threadIDOut := PAL_SUCCESS, PAL_INVALID_THREAD;
    }
  }
}
