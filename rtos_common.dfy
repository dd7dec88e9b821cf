/**
 * What the two mbed OS RTOS ports share: the PAL thread priorities, the
 * CMSIS-RTOS2 status codes they test for, and the tick conversions:
 * pal_plat_osKernelSysTickMicroSec, which both pal_plat_rtos.c and
 * pal_plat_rtos.cpp define the same way, and pal_plat_osKernelSysMilliSecTick,
 * which only pal_plat_rtos.c defines.
 *
 * pal_rtos.h is not part of this model: the priority values below are the
 * PAL enumeration's (Idle = -3 up to Realtime = +3, Error = 0x84).
 * osKernelGetTickFreq is a parameter.
 */
module RtosCommon {
  import opened Words
  import opened Wrappers

  const PAL_osPriorityIdle: int := -3
  const PAL_osPriorityLow: int := -2
  const PAL_osPriorityBelowNormal: int := -1
  const PAL_osPriorityNormal: int := 0
  const PAL_osPriorityAboveNormal: int := 1
  const PAL_osPriorityHigh: int := 2
  const PAL_osPriorityRealtime: int := 3
  const PAL_osPriorityError: int := 0x84

  /** The eight enumerators of palThreadPriority_t. */
  const Priorities: seq<int> := [
    PAL_osPriorityIdle, PAL_osPriorityLow, PAL_osPriorityBelowNormal, PAL_osPriorityNormal,
    PAL_osPriorityAboveNormal, PAL_osPriorityHigh, PAL_osPriorityRealtime, PAL_osPriorityError]

  /** palThreadID_t is 32 bits wide; 0 is NULLPTR. */
  const PAL_INVALID_THREAD: uint32 := 0xFFFF_FFFF
  const NULLPTR: nat := 0

  const osOK: int := 0
  const osErrorISR: int := -6

  /**
   * One entry of g_palThreads: pointers are addresses (0 is NULL); the
   * CMSIS control block and the thread name are not modelled.
   */
  datatype Slot = Slot(
    threadID: nat,
    initialized: bool,
    threadStore: nat,
    realThreadFunc: nat,
    realThreadArgs: nat,
    threadIndex: nat,
    priority: int,
    stackSize: nat,
    stackMem: nat)

  /** A slot of the zero-initialised table. */
  const ZeroSlot: Slot := Slot(0, false, 0, 0, 0, 0, 0, 0, 0)

  /** The index of the first slot not marked initialized. */
  function FirstFree(s: seq<Slot>): (r: Option<nat>)
    ensures r.Some? ==> r.value < |s| && !s[r.value].initialized
    ensures r.Some? ==> forall j :: 0 <= j < r.value ==> s[j].initialized
    ensures r.None? ==> forall j :: 0 <= j < |s| ==> s[j].initialized
  {
    if |s| == 0 then None
    else if !s[0].initialized then Some(0)
    else match FirstFree(s[1..])
      case None => None
      case Some(i) => Some(i + 1)
  }

  /** pal_plat_osKernelSysTickMicroSec: microseconds * frequency in uint64, then / 10^6. */
  function SysTickMicroSec(microseconds: uint64, tickFreq: uint32): (r: uint64)
    ensures microseconds * tickFreq < TWO_64 ==> r * 1_000_000 <= microseconds * tickFreq
    ensures microseconds * tickFreq < TWO_64 ==> microseconds * tickFreq < (r + 1) * 1_000_000
  {
    ToUint64(microseconds * tickFreq) / 1_000_000
  }

  /** pal_plat_osKernelSysMilliSecTick: PAL_TICK_TO_MILLI_FACTOR * ticks in uint64, then / frequency. */
  function SysMilliSecTick(sysTicks: uint64, tickFreq: uint32): (r: uint64)
    requires tickFreq > 0
    ensures 1000 * sysTicks < TWO_64 ==> r * tickFreq <= 1000 * sysTicks < (r + 1) * tickFreq
  {
    ToUint64(1000 * sysTicks) / tickFreq
  }

  lemma MulLeft(a: int, b: int, c: int)
    requires 0 <= c && a <= b
    ensures c * a <= c * b
  {}

  /**
   * Converting microseconds to ticks and the ticks back to milliseconds
   * never gives more milliseconds than the microseconds hold, while the
   * products stay within uint64.
   */
  lemma TicksRoundTripBounded(us: uint64, f: uint32)
    requires f > 0 && us * f < TWO_64
    requires 1000 * SysTickMicroSec(us, f) < TWO_64
    ensures SysMilliSecTick(SysTickMicroSec(us, f), f) <= us / 1000
  {
    var t := SysTickMicroSec(us, f);
    var m := SysMilliSecTick(t, f);
    assert t * 1_000_000 <= us * f;
    assert m * f <= 1000 * t;
    MulLeft(m * f, 1000 * t, 1000);
    assert (m * 1000) * f <= us * f;
    if m * 1000 > us {
      MulLeft(us + 1, m * 1000, f);
      assert false;
    }
    assert m * 1000 <= us;
  }

  lemma CancelRight(a: int, b: int, c: int)
    requires c > 0 && a * c <= b * c
    ensures a <= b
  {
    if a > b {
      MulLeft(b + 1, a, c);
    }
  }

  lemma CancelRightStrict(a: int, b: int, c: int)
    requires c > 0 && a * c < b * c
    ensures a < b
  {
    if a >= b {
      MulLeft(b, a, c);
    }
  }

  /** Two seconds are 2000 milliseconds through the tick conversions, at every tick frequency. */
  lemma TwoSecondsRoundTrip(f: uint32)
    requires f > 0
    ensures SysTickMicroSec(2_000_000, f) == 2 * f
    ensures SysMilliSecTick(SysTickMicroSec(2_000_000, f), f) == 2000
  {
    assert 2_000_000 * f < TWO_64;
    var t := SysTickMicroSec(2_000_000, f);
    assert t == 2 * f;
    var m := SysMilliSecTick(t, f);
    assert 1000 * t == 2000 * f < TWO_64;
    CancelRight(m, 2000, f);
    CancelRightStrict(2000, m + 1, f);
  }
}
