/**
 * The thread bookkeeping of the mbed OS RTOS port in C (pal_plat_rtos.c):
 * the fixed table g_palThreads, where a thread is known by the id
 * osThreadNew gave it, and the static "initialized once" flag.
 *
 * The CMSIS calls are parameters: the id osThreadGetId reports for the
 * running thread, the id osThreadNew returns and the status of
 * osThreadTerminate.
 */
module RtosC {
  import opened Words
  import opened Wrappers
  import opened PalStatus
  import opened RtosCommon

  /** setDefaultThreadValues: everything but the thread id goes back to its default. */
  function DefaultSlot(s: Slot): (r: Slot)
    ensures !r.initialized && r.threadID == s.threadID && r.priority == PAL_osPriorityError
    ensures r.threadStore == NULLPTR && r.realThreadFunc == NULLPTR && r.realThreadArgs == NULLPTR
    ensures r.threadIndex == 0 && r.stackSize == 0 && r.stackMem == NULLPTR
  {
    s.(threadStore := NULLPTR, realThreadArgs := NULLPTR, realThreadFunc := NULLPTR, threadIndex := 0,
       stackSize := 0, stackMem := NULLPTR, priority := PAL_osPriorityError, initialized := false)
  }

  /**
   * PAL_RTOS_TRANSLATE_CMSIS_ERROR_CODE: the six CMSIS errors, osError (-1)
   * to osErrorISR (-6), land on the six codes just below the RTOS base.
   */
  function TranslateCmsisError(cmsisCode: int): (r: int)
    ensures cmsisCode < osOK ==> r < PAL_ERR_RTOS_ERROR_BASE && r != PAL_SUCCESS
    ensures osErrorISR <= cmsisCode < osOK ==> PAL_ERR_RTOS_ERROR_BASE + osErrorISR <= r < PAL_ERR_RTOS_ERROR_BASE
  {
    cmsisCode + PAL_ERR_RTOS_ERROR_BASE
  }

  /** Distinct CMSIS statuses stay distinct, so the caller can tell which error the kernel gave. */
  lemma CmsisTranslationInjective(a: int, b: int)
    requires a != b
    ensures TranslateCmsisError(a) != TranslateCmsisError(b)
  {
  }

  /** The first initialized slot bound to the OS thread id. */
  function FindLive(s: seq<Slot>, id: nat): (r: Option<nat>)
    ensures r.Some? ==> r.value < |s| && s[r.value].initialized && s[r.value].threadID == id
    ensures r.Some? ==> forall j :: 0 <= j < r.value ==> !(s[j].initialized && s[j].threadID == id)
    ensures r.None? ==> forall j :: 0 <= j < |s| ==> !(s[j].initialized && s[j].threadID == id)
  {
    if |s| == 0 then None
    else if s[0].initialized && s[0].threadID == id then Some(0)
    else match FindLive(s[1..], id)
      case None => None
      case Some(i) => Some(i + 1)
  }

  /** The ids of the initialized slots, in table order. */
  function LiveIds(s: seq<Slot>): (r: seq<nat>)
    ensures |r| <= |s|
    ensures forall id :: id in r ==> exists j :: 0 <= j < |s| && s[j].initialized && s[j].threadID == id
    ensures (forall j :: 0 <= j < |s| ==> !s[j].initialized) ==> r == []
  {
    if |s| == 0 then []
    else
      var last := s[|s| - 1];
      var rest := LiveIds(s[..|s| - 1]);
      rest + (if last.initialized then [last.threadID] else [])
  }

  /** Every initialized slot's id is listed. */
  lemma {:induction false} LiveIdsComplete(s: seq<Slot>)
    ensures forall j :: 0 <= j < |s| && s[j].initialized ==> s[j].threadID in LiveIds(s)
    decreases |s|
  {
    if |s| > 0 {
      var init := s[..|s| - 1];
      LiveIdsComplete(init);
      forall j | 0 <= j < |s| && s[j].initialized
        ensures s[j].threadID in LiveIds(s)
      {
        if j < |s| - 1 {
          assert init[j] == s[j];
        }
      }
    }
  }

  /** The ids of the first k slots come first: the list follows the table order. */
  lemma {:induction false} LiveIdsInTableOrder(s: seq<Slot>, k: nat)
    requires k <= |s|
    ensures LiveIds(s[..k]) <= LiveIds(s)
    decreases |s|
  {
    if k < |s| {
      var init := s[..|s| - 1];
      assert init[..k] == s[..k];
      LiveIdsInTableOrder(init, k);
    } else {
      assert s[..k] == s;
    }
  }

  /** Where the scan of pal_plat_osThreadTerminate stops, and what it leaves in *threadID. */
  datatype Scan = Scan(hit: Option<nat>, threadID: nat)

  /**
   * The scan from slot i with *threadID == tid: an initialized slot with
   * that id is the one to terminate; an uninitialized one nulls *threadID
   * and the scan goes on with the null id.
   */
  function TerminateScan(s: seq<Slot>, i: nat, tid: nat): (r: Scan)
    requires i <= |s|
    ensures r.hit.Some? ==> i <= r.hit.value < |s| && s[r.hit.value].initialized && s[r.hit.value].threadID == r.threadID
    ensures r.threadID == tid || r.threadID == NULLPTR
    decreases |s| - i
  {
    if i == |s| then Scan(None, tid)
    else if s[i].initialized && tid == s[i].threadID then Scan(Some(i), tid)
    else if !s[i].initialized && tid == s[i].threadID then TerminateScan(s, i + 1, NULLPTR)
    else TerminateScan(s, i + 1, tid)
  }

  /** A scan that meets no slot with the id leaves everything as it was. */
  lemma {:induction false} TerminateScanNoMatch(s: seq<Slot>, i: nat, tid: nat)
    requires i <= |s|
    requires forall j :: i <= j < |s| ==> s[j].threadID != tid
    ensures TerminateScan(s, i, tid) == Scan(None, tid)
    decreases |s| - i
  {
    if i < |s| {
      TerminateScanNoMatch(s, i + 1, tid);
    }
  }

  /**
   * A matching uninitialized slot only nulls *threadID: when no slot the
   * scan meets afterwards is live with the null id, nothing is terminated.
   */
  lemma {:induction false} TerminateScanStaleId(s: seq<Slot>, i: nat, tid: nat)
    requires i <= |s| && tid != NULLPTR
    requires forall j :: i <= j < |s| ==> !(s[j].initialized && s[j].threadID == tid)
    requires forall j :: i <= j < |s| ==> !(s[j].initialized && s[j].threadID == NULLPTR)
    requires exists j :: i <= j < |s| && s[j].threadID == tid
    ensures TerminateScan(s, i, tid) == Scan(None, NULLPTR)
    decreases |s| - i
  {
    if s[i].threadID == tid {
      TerminateScanNullId(s, i + 1);
    } else {
      TerminateScanStaleId(s, i + 1, tid);
    }
  }

  /** A scan already holding the null id terminates nothing unless a live slot has the null id. */
  lemma {:induction false} TerminateScanNullId(s: seq<Slot>, i: nat)
    requires i <= |s|
    requires forall j :: i <= j < |s| ==> !(s[j].initialized && s[j].threadID == NULLPTR)
    ensures TerminateScan(s, i, NULLPTR) == Scan(None, NULLPTR)
    decreases |s| - i
  {
    if i < |s| {
      TerminateScanNullId(s, i + 1);
    }
  }

  /** The first live slot with the id, met before any stale one, is the one terminated. */
  lemma {:induction false} TerminateScanLive(s: seq<Slot>, i: nat, k: nat, tid: nat)
    requires i <= k < |s| && s[k].initialized && s[k].threadID == tid
    requires forall j :: i <= j < k ==> s[j].threadID != tid
    ensures TerminateScan(s, i, tid) == Scan(Some(k), tid)
    decreases k - i
  {
    if i < k {
      TerminateScanLive(s, i + 1, k, tid);
    }
  }

  /** The table of PAL_MAX_NUMBER_OF_THREADS slots. */
  class ThreadTable {
    const slots: array<Slot>
    /** palRTOSInitialized, the static flag of pal_plat_RTOSInitialize */
    var rtosInitialized: bool

    ghost predicate Valid()
      reads this
    {
      1 <= slots.Length < TWO_32
    }

    constructor (maxThreads: nat)
      requires 1 <= maxThreads < TWO_32
      ensures Valid() && slots.Length == maxThreads && fresh(slots)
      ensures forall i :: 0 <= i < slots.Length ==> slots[i] == ZeroSlot
      ensures !rtosInitialized
    {
      slots := new Slot[maxThreads](_ => ZeroSlot);
      rtosInitialized := false;
    }

    /** threadCleanUp: a NULL table or an index out of range is ignored. */
    method ThreadCleanUp(dbIsNull: bool, index: nat)
      modifies slots
      ensures dbIsNull || index >= slots.Length ==> slots[..] == old(slots[..])
      ensures !dbIsNull && index < slots.Length ==>
                slots[..] == old(slots[..])[index := DefaultSlot(old(slots[index]))]
    {
      if dbIsNull || index >= slots.Length {
        return;
      }
      slots[index] := DefaultSlot(slots[index]);
    }

    /** pal_plat_RTOSInitialize: the first call marks every slot free; later calls do nothing. */
    method RTOSInitialize() returns (status: int)
      requires Valid()
      modifies slots, this`rtosInitialized
      ensures status == PAL_SUCCESS && rtosInitialized
      ensures old(rtosInitialized) ==> slots[..] == old(slots[..])
      ensures !old(rtosInitialized) ==>
                forall i :: 0 <= i < slots.Length ==> slots[i] == old(slots[i]).(initialized := false)
    {
      if rtosInitialized {
        return PAL_SUCCESS;
      }
      var i := 0;
      while i < slots.Length
        invariant 0 <= i <= slots.Length
        invariant forall j :: 0 <= j < i ==> slots[j] == old(slots[j]).(initialized := false)
        invariant forall j :: i <= j < slots.Length ==> slots[j] == old(slots[j])
      {
        slots[i] := slots[i].(initialized := false);
        i := i + 1;
      }
      rtosInitialized := true;
      status := PAL_SUCCESS;
    }

    /**
     * pal_plat_RTOSDestroy: every live thread is terminated (the status is
     * ignored) and its slot cleaned; `terminated` lists the ids passed to
     * osThreadTerminate.
     */
    method RTOSDestroy() returns (terminated: seq<nat>)
      requires Valid()
      modifies slots
      ensures forall i :: 0 <= i < slots.Length ==> !slots[i].initialized
      ensures forall i :: 0 <= i < slots.Length ==>
                slots[i] == if old(slots[i]).initialized then DefaultSlot(old(slots[i])) else old(slots[i])
      ensures terminated == LiveIds(old(slots[..]))
      ensures forall j :: 0 <= j < slots.Length && old(slots[j]).initialized ==> old(slots[j]).threadID in terminated
    {
      terminated := [];
      var i := 0;
      while i < slots.Length
        invariant 0 <= i <= slots.Length
        invariant forall j :: 0 <= j < i ==>
                    slots[j] == if old(slots[j]).initialized then DefaultSlot(old(slots[j])) else old(slots[j])
        invariant forall j :: i <= j < slots.Length ==> slots[j] == old(slots[j])
        invariant terminated == LiveIds(old(slots[..])[..i])
      {
        assert old(slots[..])[..i + 1][..i] == old(slots[..])[..i];
        if slots[i].initialized {
          terminated := terminated + [slots[i].threadID];
          ThreadCleanUp(false, i);
        }
        i := i + 1;
      }
      assert old(slots[..])[..slots.Length] == old(slots[..]);
      LiveIdsComplete(old(slots[..]));
    }

    /** The scan of pal_plat_osThreadCreate: the first slot not marked initialized. */
    method FindFirstFree() returns (index: nat)
      requires Valid()
      ensures FirstFree(slots[..]).None? ==> index == slots.Length
      ensures FirstFree(slots[..]).Some? ==> index == FirstFree(slots[..]).value
    {
      index := slots.Length;
      var i := 0;
      while i < slots.Length
        invariant 0 <= i <= slots.Length
        invariant forall j :: 0 <= j < i ==> slots[j].initialized
      {
        if !slots[i].initialized {
          index := i;
          return;
        }
        i := i + 1;
      }
    }

    /** pal_plat_osThreadCreate; threadID is what is written through the out-pointer, if anything. */
    method ThreadCreate(threadFunc: nat, funcArgument: nat, priority: int, stackSize: uint32,
                        stackPtr: nat, store: nat, threadIdIsNull: bool, osThreadNewResult: nat)
      returns (status: int, threadID: Option<nat>)
      requires Valid()
      modifies slots
      ensures threadIdIsNull || threadFunc == NULLPTR || stackPtr == NULLPTR || stackSize == 0
              || priority > PAL_osPriorityRealtime ==>
                status == PAL_ERR_INVALID_ARGUMENT && threadID == None && slots[..] == old(slots[..])
      ensures !(threadIdIsNull || threadFunc == NULLPTR || stackPtr == NULLPTR || stackSize == 0
                || priority > PAL_osPriorityRealtime) ==>
                var free := FirstFree(old(slots[..]));
                (free.None? ==>
                   status == PAL_ERR_RTOS_RESOURCE && threadID == None && slots[..] == old(slots[..]))
                && (free.Some? ==>
                      var made := Slot(osThreadNewResult, true, store, threadFunc, funcArgument, free.value,
                                       priority, stackSize, stackPtr);
                      threadID == Some(osThreadNewResult)
                      && (osThreadNewResult != NULLPTR ==>
                            status == PAL_SUCCESS && slots[..] == old(slots[..])[free.value := made])
                      && (osThreadNewResult == NULLPTR ==>
                            status == PAL_ERR_GENERIC_FAILURE
                            && slots[..] == old(slots[..])[free.value := DefaultSlot(made)]))
    {
      if threadIdIsNull || threadFunc == NULLPTR || stackPtr == NULLPTR || stackSize == 0
         || priority > PAL_osPriorityRealtime {
        return PAL_ERR_INVALID_ARGUMENT, None;
      }
      var index := FindFirstFree();
      if index >= slots.Length {
        return PAL_ERR_RTOS_RESOURCE, None;
      }
      slots[index] := Slot(osThreadNewResult, true, store, threadFunc, funcArgument, index,
                           priority, stackSize, stackPtr);
      status := PAL_SUCCESS;
      threadID := Some(slots[index].threadID);
      if threadID.value == NULLPTR {
        ThreadCleanUp(false, index);
        status := PAL_ERR_GENERIC_FAILURE;
      }
    }

    /** pal_plat_osThreadTerminate; threadIDOut is *threadID afterwards. */
    method ThreadTerminate(threadIdIsNull: bool, threadID: nat, osTerminateStatus: int)
      returns (status: int, threadIDOut: nat)
      requires Valid()
      modifies slots
      ensures threadIdIsNull || threadID == NULLPTR ==>
                status == PAL_ERR_INVALID_ARGUMENT && threadIDOut == threadID && slots[..] == old(slots[..])
      ensures !(threadIdIsNull || threadID == NULLPTR) ==>
                var scan := TerminateScan(old(slots[..]), 0, threadID);
                (scan.hit.Some? && osTerminateStatus == osOK ==>
                   status == PAL_SUCCESS && threadIDOut == NULLPTR
                   && slots[..] == old(slots[..])[scan.hit.value := DefaultSlot(old(slots[scan.hit.value]))])
                && (scan.hit.Some? && osTerminateStatus != osOK ==>
                      status == TranslateCmsisError(osTerminateStatus) && threadIDOut == scan.threadID
                      && slots[..] == old(slots[..]))
                && (scan.hit.None? ==>
                      status == PAL_SUCCESS && threadIDOut == scan.threadID && slots[..] == old(slots[..]))
    {
      if threadIdIsNull || threadID == NULLPTR {
        return PAL_ERR_INVALID_ARGUMENT, threadID;
      }
      status := PAL_SUCCESS;
      threadIDOut := threadID;
      var i := 0;
      while i < slots.Length
        invariant 0 <= i <= slots.Length
        invariant slots[..] == old(slots[..])
        invariant TerminateScan(slots[..], i, threadIDOut) == TerminateScan(slots[..], 0, threadID)
      {
        if slots[i].initialized && threadIDOut == slots[i].threadID {
          if osTerminateStatus == osOK {
            ThreadCleanUp(false, i);
            threadIDOut := NULLPTR;
          } else {
            status := TranslateCmsisError(osTerminateStatus);
          }
          return;
        } else if !slots[i].initialized && threadIDOut == slots[i].threadID {
          threadIDOut := NULLPTR;
        }
        i := i + 1;
      }
    }

    /** pal_plat_osThreadGetLocalStore: the store of the running thread's live slot, if any. */
    method ThreadGetLocalStore(runningThread: nat) returns (store: nat)
      requires Valid()
      ensures FindLive(slots[..], runningThread).Some? ==>
                store == slots[FindLive(slots[..], runningThread).value].threadStore
      ensures FindLive(slots[..], runningThread).None? ==> store == NULLPTR
    {
      store := NULLPTR;
      var i := 0;
      while i < slots.Length
        invariant 0 <= i <= slots.Length
        invariant forall j :: 0 <= j < i ==> !(slots[j].initialized && slots[j].threadID == runningThread)
      {
        if slots[i].initialized && runningThread == slots[i].threadID {
          store := slots[i].threadStore;
          return;
        }
        i := i + 1;
      }
    }
  }
}
