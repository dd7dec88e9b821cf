/**
 * The mbed OS firmware-update port (pal_plat_update.cpp): the module
 * globals become the fields of one Engine object; every
 * *_StateMachine_Enter becomes a loop over a Step method that runs one
 * state's action, where the C code recursed after a synchronous
 * completion; the storage callbacks and the public pal_plat_image*
 * entry points are methods.
 *
 * g_palUpdateServiceCBfunc is modelled by the `events` field: every call
 * of the service callback appends its event.
 */
module UpdateEngine {
  import opened Words
  import opened Wrappers
  import opened PalStatus
  import opened FirmwareHeader
  import opened UpdateMachines
  import opened UpdateStorage

  const PAL_UPDATE_JOURNAL_SIZE: nat := 0x70000
  const PAL_UPDATE_JOURNAL_START_OFFSET: nat := 0x90000
  const PAL_UPDATE_JOURNAL_NUM_SLOTS: nat := 1
  const PAL_UPDATE_ACTIVE_METADATA_HEADER_OFFSET: nat := 0x80000

  /** palBuffer_t: only the lengths; the bytes a read copies are not modelled. */
  class PalBuffer {
    var bufferLength: uint32
    const maxBufferLength: uint32

    constructor (maxBufferLength: uint32)
      ensures this.maxBufferLength == maxBufferLength && bufferLength == 0
    {
      this.maxBufferLength := maxBufferLength;
      bufferLength := 0;
    }
  }

  /** The zero-initialised static header. */
  const ZeroHeader: Header := Header(0, 0, 0, 0, 0, seq(32, _ => 0))

  /** The request the Setup machine waits on while it stays in state s. */
  function SetupRequest(s: SetupState): Request {
    match s
    case SetupUninitialized => VolumeManagerInitialize
    case SetupVolumeManagerInitialized => MtdInitialize(JournalVolume)
    case SetupStorageDriverFormat => JournalFormat(PAL_UPDATE_JOURNAL_NUM_SLOTS)
    case SetupStorageDriverInitialized => JournalInitialize
    case _ => JournalGetInfo
  }

  /** The request the GetActiveHash machine waits on while it stays in state s. */
  function HashRequest(s: HashState): Request {
    match s
    case HashUninitialized => VolumeManagerInitialize
    case HashVolumeManagerInitialized => MtdInitialize(MetadataHeaderVolume)
    case _ => MtdReadData(SHA256_OFFSET, SIZEOF_SHA256)
  }

  /** The residual unit LogResidual logs, if the overflow buffer holds any bytes. */
  function ResidualLog(overflow: seq<byte>, n: nat, fragment: seq<byte>): seq<Request>
    requires n <= |overflow|
  {
    if n == 0 then [] else [JournalLog(FillUnit(overflow, n, fragment))]
  }

  class Engine {
    const storage: Storage
    /** flashJournalCrcCummulative after flashJournalCrcReset */
    const crc: Crc

    var activeFsm: Fsm
    var setupState: SetupState
    var writeState: WriteState
    var readState: ReadState
    var commitState: CommitState
    var hashState: HashState
    /** pal_pi_mbed_journal_info.program_unit */
    var programUnit: nat
    /** pal_pi_mbed_overflow_buffer; empty while it is not allocated */
    var overflow: seq<byte>
    /** pal_pi_mbed_overflow_buffer_size */
    var overflowSize: nat
    var metadataLogged: bool
    /** flag_volumne_manager_intialized (set, never read) */
    var volumeManagerFlag: bool
    /** flag_hash_volumne_intialized */
    var hashVolumeInitialized: bool
    var header: Header
    /** The write context's package_fragment and fragment_size. */
    var fragment: seq<byte>
    /** The read context's numberOfByesRemain (int32). */
    var bytesRemaining: int
    var readBuffer: PalBuffer?
    var hashBuffer: PalBuffer?
    var events: seq<Event>

    ghost predicate Valid()
      reads this, storage
    {
      storage.Valid()
      && (overflow != [] ==> |overflow| == storage.programUnit && programUnit == storage.programUnit)
      && overflowSize <= |overflow|
      && |fragment| < 0x8000_0000
      && -0x8000_0000 <= bytesRemaining < 0x8000_0000
      && (activeFsm == FsmRead ==> readBuffer != null)
      && (activeFsm == FsmGetActiveHash ==> hashBuffer != null)
      && (activeFsm == FsmWrite ==> overflow != [] && WriteAwaitConsistent())
      && (activeFsm == FsmCommit ==> CommitAwaitConsistent())
    }

    /** What the Write machine is waiting for, when a request is outstanding. */
    ghost predicate WriteAwaitConsistent()
      reads this, storage
    {
      storage.outstanding.Some? ==>
        (writeState == WriteUninitialized && !metadataLogged
           && storage.outstanding.value.JournalLog? && |storage.outstanding.value.data| == HEADER_SIZE)
        || (writeState == WriteMetadataLogged && storage.outstanding.value.JournalLog?)
        || (writeState == WriteResidualLogged && overflowSize == 0
              && storage.outstanding.value == JournalLog(fragment)
              && |fragment| >= storage.programUnit)
    }

    ghost predicate CommitAwaitConsistent()
      reads this, storage
    {
      storage.outstanding.Some? ==>
        CommitRank(commitState) < 2 && (commitState == CommitResidualLogged ==> overflowSize == 0)
    }

    /** All module globals start zeroed. */
    constructor (storage: Storage, crc: Crc)
      requires storage.Valid()
      ensures Valid() && this.storage == storage && this.crc == crc
      ensures activeFsm == FsmNone && setupState == SetupUninitialized
      ensures writeState == WriteUninitialized && readState == ReadSkipMetadata
      ensures commitState == CommitUninitialized && hashState == HashUninitialized
      ensures programUnit == 0 && overflow == [] && overflowSize == 0 && !metadataLogged
      ensures !volumeManagerFlag && !hashVolumeInitialized && header == ZeroHeader
      ensures fragment == [] && bytesRemaining == 0 && readBuffer == null && hashBuffer == null
      ensures events == []
    {
      this.storage := storage;
      this.crc := crc;
      activeFsm := FsmNone;
      setupState := SetupUninitialized;
      writeState := WriteUninitialized;
      readState := ReadSkipMetadata;
      commitState := CommitUninitialized;
      hashState := HashUninitialized;
      programUnit := 0;
      overflow := [];
      overflowSize := 0;
      metadataLogged := false;
      volumeManagerFlag := false;
      hashVolumeInitialized := false;
      header := ZeroHeader;
      fragment := [];
      bytesRemaining := 0;
      readBuffer := null;
      hashBuffer := null;
      events := [];
    }

    // --- outcomes of an Enter ---------------------------------------------

    /**
     * How a Setup Enter ends: a synchronous failure returns the PAL code and
     * signals nothing; Error signals ERROR; Done signals PREPARE once the
     * overflow buffer exists; any other state waits on its request.
     */
    ghost predicate SetupSettled(ev0: seq<Event>, rc: int)
      reads this, storage
    {
      (rc < 0 ==> events == ev0 && storage.outstanding.None? && IsUpdateFailure(rc) && setupState != SetupError)
      && (setupState == SetupError ==> rc == 0 && events == ev0 + [EventError])
      && (setupState == SetupDone && rc >= 0 ==>
            events == ev0 + [EventPrepare] && overflow != [] && programUnit == storage.programUnit)
      && (SetupRank(setupState) < 4 && rc >= 0 ==>
            events == ev0 && storage.outstanding == Some(SetupRequest(setupState)))
    }

    /**
     * How a Write Enter ends. Done signals WRITE and keeps the unlogged tail
     * of the fragment in the overflow buffer, less than one program unit.
     */
    ghost predicate WriteSettled(ev0: seq<Event>, rc: int)
      reads this, storage
    {
      (writeState == WriteError ==> events == ev0 + [EventError])
      && (writeState == WriteDone ==>
            events == ev0 + [EventWrite] && rc >= 0 && overflowSize < |overflow|
            && overflowSize == (if rc < |fragment| then |fragment| - rc else 0)
            && overflow[..overflowSize] == fragment[|fragment| - overflowSize..])
      && (WriteRank(writeState) < 3 ==>
            events == ev0
            && (rc < 0 ==> storage.outstanding.None? && IsUpdateFailure(rc))
            && (rc >= 0 ==> storage.outstanding.Some?))
    }

    ghost predicate ReadSettled(ev0: seq<Event>, rc: int)
      reads this, storage
    {
      (readState == ReadError ==> events == ev0 + [EventError] && rc == 0)
      && (readState == ReadDone ==> events == ev0 + [EventReadToBuffer] && rc == 0)
      && (ReadRank(readState) < 2 ==>
            events == ev0
            && (rc < 0 ==> storage.outstanding.None? && IsUpdateFailure(rc))
            && (rc >= 0 ==> rc == 0 && storage.outstanding.Some? && storage.outstanding.value.JournalRead?))
    }

    ghost predicate CommitSettled(ev0: seq<Event>, rc: int)
      reads this, storage
    {
      (commitState == CommitError ==> events == ev0 + [EventError] && rc == 0)
      && (commitState == CommitDone ==> events == ev0 + [EventFinalize] && rc == 0 && overflowSize == 0)
      && (CommitRank(commitState) < 2 ==>
            events == ev0
            && (rc < 0 ==> storage.outstanding.None? && IsUpdateFailure(rc))
            && (rc >= 0 ==> rc == 0 && storage.outstanding.Some?))
    }

    ghost predicate HashSettled(ev0: seq<Event>, rc: int)
      reads this, storage
    {
      (hashState == HashError ==> events == ev0 + [EventError] && rc == 0)
      && (hashState == HashDone ==> events == ev0 + [EventGetActiveHash] && rc == 0)
      && (HashRank(hashState) < 3 ==>
            events == ev0
            && (rc < 0 ==> storage.outstanding.None? && IsUpdateFailure(rc))
            && (rc >= 0 ==> rc == 0 && storage.outstanding == Some(HashRequest(hashState))))
    }

    // --- the overflow buffer ----------------------------------------------

    /** PAL_PI_MBED_Write_LogResidual */
    method LogResidual() returns (rc: int)
      requires Valid() && storage.outstanding.None?
      requires activeFsm == FsmWrite ==> writeState == WriteMetadataLogged
      requires activeFsm == FsmCommit ==> commitState == CommitUninitialized
      modifies this`overflow, this`overflowSize, this`fragment, storage
      ensures Valid()
      ensures old(overflowSize) == 0 ==>
                rc == JOURNAL_STATUS_OK + 1 && overflow == old(overflow) && overflowSize == 0
                && fragment == old(fragment) && storage.requests == old(storage.requests)
                && storage.replies == old(storage.replies) && storage.outstanding.None?
      ensures old(overflowSize) > 0 ==>
                var k := TopUp(|old(overflow)|, old(overflowSize), |old(fragment)|);
                |overflow| == storage.programUnit
                && overflow == FillUnit(old(overflow), old(overflowSize), old(fragment))
                && overflowSize == old(overflowSize) + k
                && fragment == old(fragment)[k..]
                && storage.requests == old(storage.requests) + [JournalLog(overflow)]
                && rc == Answer(JournalLog(overflow), old(storage.NextReply()), storage.programUnit)
                && rc != JOURNAL_STATUS_SMALL_LOG_REQUEST
                && storage.outstanding == (if rc == 0 then Some(JournalLog(overflow)) else None)
      ensures |fragment| <= |old(fragment)| && fragment == old(fragment)[|old(fragment)| - |fragment|..]
      ensures storage.outstanding.Some? <==> rc == 0
    {
      if overflowSize > 0 {
        var k := TopUp(|overflow|, overflowSize, |fragment|);
        overflow := FillUnit(overflow, overflowSize, fragment);
        fragment := fragment[k..];
        overflowSize := overflowSize + k;
        rc := storage.Submit(JournalLog(overflow));
      } else {
        rc := JOURNAL_STATUS_OK + 1;
      }
    }

    // --- Setup ------------------------------------------------------------

    /** What one Setup state's action guarantees. */
    twostate predicate SetupStepped(rc: int, more: bool)
      reads this, storage
    {
      Valid()
      && (old(setupState) == SetupUninitialized ==> !metadataLogged)
      && (old(setupState) != SetupUninitialized ==> metadataLogged == old(metadataLogged))
      && (old(overflow) != [] ==> overflow == old(overflow))
      && (more ==> SetupRank(old(setupState)) < 4 && setupState == SetupAdvance(old(setupState), 0)
                   && events == old(events) && storage.outstanding.None?)
      && (!more ==> setupState == old(setupState) && SetupSettled(old(events), rc))
    }

    /** SETUP_STATE_UNINITIALIZED: initialise the volume manager unless it is ready. */
    method SetupVolumeManager() returns (rc: int, more: bool)
      requires Valid() && storage.outstanding.None? && activeFsm in {FsmNone, FsmSetup, FsmGetActiveHash}
      requires setupState == SetupUninitialized
      modifies this`setupState, this`metadataLogged, storage
      ensures SetupStepped(rc, more)
    {
      metadataLogged := false;
      var r := ARM_DRIVER_OK + 1;
      if !storage.volumeManagerReady {
        r := storage.Submit(VolumeManagerInitialize);
      }
      if r < ARM_DRIVER_OK {
        rc, more := TranslateDriverErr(r), false;
      } else if r > ARM_DRIVER_OK {
        setupState := SetupAdvance(setupState, 0);
        rc, more := r, true;
      } else {
        rc, more := r, false;
      }
    }

    /** SETUP_STATE_VOLUME_MANAGER_INITIALIZED: add the journal volume and initialise its driver. */
    method SetupJournalVolume() returns (rc: int, more: bool)
      requires Valid() && storage.outstanding.None? && activeFsm in {FsmNone, FsmSetup, FsmGetActiveHash}
      requires setupState == SetupVolumeManagerInitialized
      modifies this`setupState, storage
      ensures SetupStepped(rc, more)
    {
      var r := storage.Submit(
        AddVolume(PAL_UPDATE_JOURNAL_START_OFFSET, PAL_UPDATE_JOURNAL_SIZE, JournalVolume));
      if r < ARM_DRIVER_OK {
        rc, more := TranslateDriverErr(r), false;
      } else {
        r := storage.Submit(MtdInitialize(JournalVolume));
        if r < JOURNAL_STATUS_OK {
          rc, more := TranslateJournalErr(r), false;
        } else if r > ARM_DRIVER_OK {
          setupState := SetupAdvance(setupState, 0);
          rc, more := r, true;
        } else {
          rc, more := r, false;
        }
      }
    }

    /** SETUP_STATE_STORAGE_DRIVER_FORMAT and _INITIALIZED: format, then initialise, the journal. */
    method SetupJournal() returns (rc: int, more: bool)
      requires Valid() && storage.outstanding.None? && activeFsm in {FsmNone, FsmSetup, FsmGetActiveHash}
      requires setupState == SetupStorageDriverFormat || setupState == SetupStorageDriverInitialized
      modifies this`setupState, storage
      ensures SetupStepped(rc, more)
    {
      var r;
      if setupState == SetupStorageDriverFormat {
        r := storage.Submit(JournalFormat(PAL_UPDATE_JOURNAL_NUM_SLOTS));
      } else {
        r := storage.Submit(JournalInitialize);
      }
      if r < JOURNAL_STATUS_OK {
        rc, more := TranslateJournalErr(r), false;
      } else if r > JOURNAL_STATUS_OK {
        setupState := SetupAdvance(setupState, 0);
        rc, more := r, true;
      } else {
        rc, more := r, false;
      }
    }

    /** SETUP_STATE_DONE: learn the program unit, allocate the overflow buffer, signal PREPARE. */
    method SetupFinish() returns (rc: int, more: bool)
      requires Valid() && storage.outstanding.None? && activeFsm in {FsmNone, FsmSetup, FsmGetActiveHash}
      requires setupState == SetupDone
      modifies this`programUnit, this`overflow, this`events, storage
      ensures SetupStepped(rc, more)
    {
      var r := storage.Submit(JournalGetInfo);
      more := false;
      if r < JOURNAL_STATUS_OK {
        rc := TranslateJournalErr(r);
      } else {
        programUnit := storage.programUnit;
        if overflow == [] {
          overflow := Zeros(storage.programUnit);
        }
        events := events + [EventPrepare];
        rc := r;
      }
    }

    /** One state of PAL_PI_MBED_Setup_StateMachine_Enter. */
    method SetupStep() returns (rc: int, more: bool)
      requires Valid() && storage.outstanding.None? && activeFsm in {FsmNone, FsmSetup, FsmGetActiveHash}
      modifies this`setupState, this`metadataLogged, this`programUnit, this`overflow, this`events, storage
      ensures SetupStepped(rc, more)
    {
      match setupState {
        case SetupUninitialized =>
          rc, more := SetupVolumeManager();
        case SetupVolumeManagerInitialized =>
          rc, more := SetupJournalVolume();
        case SetupStorageDriverFormat =>
          rc, more := SetupJournal();
        case SetupStorageDriverInitialized =>
          rc, more := SetupJournal();
        case SetupDone =>
          rc, more := SetupFinish();
        case SetupError =>
          events := events + [EventError];
          rc, more := 0, false;
      }
    }

    /** PAL_PI_MBED_Setup_StateMachine_Enter */
    method SetupEnter() returns (rc: int)
      requires Valid() && storage.outstanding.None? && activeFsm in {FsmNone, FsmSetup, FsmGetActiveHash}
      modifies this`setupState, this`metadataLogged, this`programUnit, this`overflow, this`events, storage
      ensures Valid()
      ensures SetupSettled(old(events), rc)
      ensures events == old(events) || events == old(events) + [EventError] || events == old(events) + [EventPrepare]
      ensures SetupRank(setupState) >= SetupRank(old(setupState))
      ensures setupState == SetupError <==> old(setupState) == SetupError
      ensures old(setupState) == SetupUninitialized ==> !metadataLogged
      ensures old(setupState) != SetupUninitialized ==> metadataLogged == old(metadataLogged)
      ensures old(overflow) != [] ==> overflow == old(overflow)
    {
      rc := 0;
      var more := true;
      while more
        invariant Valid()
        invariant more ==> storage.outstanding.None? && events == old(events)
        invariant !more ==> SetupSettled(old(events), rc)
        invariant SetupRank(setupState) >= SetupRank(old(setupState))
        invariant setupState == SetupError <==> old(setupState) == SetupError
        invariant old(setupState) == SetupUninitialized && (setupState != old(setupState) || !more) ==> !metadataLogged
        invariant old(setupState) != SetupUninitialized ==> metadataLogged == old(metadataLogged)
        invariant old(overflow) != [] ==> overflow == old(overflow)
        decreases more, 5 - SetupRank(setupState)
      {
        rc, more := SetupStep();
      }
    }

    // --- Write ------------------------------------------------------------

    /** What a Write Enter may be entered with: the byte counts it will copy fit the overflow buffer. */
    ghost predicate WriteEntryOk(st: int)
      reads this
    {
      (writeState == WriteMetadataLogged && !metadataLogged ==>
         0 <= st && (st < HEADER_SIZE ==> HEADER_SIZE - st <= |overflow|))
      && (writeState == WriteResidualLogged ==> st >= 0)
      && (writeState == WriteDone ==>
            st >= 0 && overflowSize == 0 && (st < |fragment| ==> |fragment| - st < |overflow|))
    }

    /** What one Write state's action, entered with status st, guarantees. */
    twostate predicate WriteStepped(st: int, rc: int, more: bool)
      reads this, storage
    {
      Valid()
      && |fragment| <= |old(fragment)| && fragment == old(fragment)[|old(fragment)| - |fragment|..]
      && metadataLogged == (old(metadataLogged) || old(writeState) == WriteMetadataLogged)
      && (more ==> WriteRank(old(writeState)) < 3 && writeState == WriteAdvance(old(writeState), 0)
                   && events == old(events) && storage.outstanding.None? && WriteEntryOk(rc))
      && (!more ==> writeState == old(writeState) && WriteSettled(old(events), rc))
      && (!more && writeState == WriteError ==> rc == st)
    }

    /** PAL_PI_MBED_WRITE_UNINITIALIZED: log the header, once per image. */
    method WriteLogHeader(st: int) returns (rc: int, more: bool)
      requires Valid() && storage.outstanding.None? && activeFsm == FsmWrite && WriteEntryOk(st)
      requires writeState == WriteUninitialized
      modifies this`writeState, storage
      ensures WriteStepped(st, rc, more)
    {
      var r := st;
      if !metadataLogged {
        r := storage.Submit(JournalLog(Encode(header)));
        if r < JOURNAL_STATUS_OK {
          rc, more := TranslateJournalErr(r), false;
          return;
        } else if r == JOURNAL_STATUS_OK {
          rc, more := r, false;
          return;
        }
      }
      writeState := WriteAdvance(writeState, 0);
      rc, more := r, true;
    }

    /**
     * PAL_PI_MBED_WRITE_METADATA_LOGGED: the header bytes the journal did not
     * take, [st, 56), go into the overflow buffer, which is then logged.
     */
    method WriteHeaderResidual(st: int) returns (rc: int, more: bool)
      requires Valid() && storage.outstanding.None? && activeFsm == FsmWrite && WriteEntryOk(st)
      requires writeState == WriteMetadataLogged
      modifies this`writeState, this`metadataLogged, this`overflow, this`overflowSize, this`fragment, storage
      ensures WriteStepped(st, rc, more)
    {
      var r := LogHeaderResidual(st);
      if r < JOURNAL_STATUS_OK {
        rc, more := TranslateJournalErr(r), false;
      } else if r > JOURNAL_STATUS_OK {
        writeState := WriteAdvance(writeState, 0);
        rc, more := r, true;
      } else {
        assert writeState == WriteMetadataLogged && storage.outstanding.value.JournalLog?;
        rc, more := r, false;
      }
    }

    /** Copy header bytes [st, 56), which the journal did not take, to the start of the overflow buffer. */
    method StageHeader(st: int)
      requires Valid() && activeFsm == FsmWrite && storage.outstanding.None?
      requires 0 <= st < HEADER_SIZE && HEADER_SIZE - st <= |overflow|
      modifies this`overflow, this`overflowSize
      ensures Valid() && |overflow| == |old(overflow)| && overflowSize == HEADER_SIZE - st
      ensures overflow[..HEADER_SIZE - st] == Encode(header)[st..]
    {
      overflow := CopyToUnit(overflow, Encode(header)[st..]);
      overflowSize := HEADER_SIZE - st;
    }

    /**
     * The first half of PAL_PI_MBED_WRITE_METADATA_LOGGED: stage the header
     * bytes [st, 56) the journal did not take, once per image, then log the
     * overflow buffer.
     */
    method LogHeaderResidual(st: int) returns (r: int)
      requires Valid() && storage.outstanding.None? && activeFsm == FsmWrite && WriteEntryOk(st)
      requires writeState == WriteMetadataLogged
      modifies this`metadataLogged, this`overflow, this`overflowSize, this`fragment, storage
      ensures Valid() && metadataLogged
      ensures |fragment| <= |old(fragment)| && fragment == old(fragment)[|old(fragment)| - |fragment|..]
      ensures storage.outstanding.Some? <==> r == JOURNAL_STATUS_OK
      ensures !old(metadataLogged) && 0 <= st < HEADER_SIZE ==>
                storage.requests == old(storage.requests) + [JournalLog(overflow)]
                && overflow[..HEADER_SIZE - st] == Encode(header)[st..]
    {
      var staged := !metadataLogged && st < HEADER_SIZE;
      if staged {
        StageHeader(st);
      }
      ghost var unit, frag := overflow, fragment;
      metadataLogged := true;
      r := LogResidual();
      if staged {
        FillUnitKeepsPrefix(unit, HEADER_SIZE - st, frag);
        assert overflow[..HEADER_SIZE - st] == unit[..HEADER_SIZE - st];
      }
    }

    /**
     * PAL_PI_MBED_WRITE_RESIDUAL_LOGGED: log the rest of the fragment; a
     * fragment shorter than one program unit is not an error.
     */
    method WriteFragment(st: int) returns (rc: int, more: bool)
      requires Valid() && storage.outstanding.None? && activeFsm == FsmWrite && WriteEntryOk(st)
      requires writeState == WriteResidualLogged
      modifies this`writeState, this`overflowSize, storage
      ensures WriteStepped(st, rc, more)
    {
      overflowSize := 0;
      var r := st;
      if |fragment| > 0 {
        var stop;
        r, stop := LogFragment();
        if stop {
          rc, more := r, false;
          return;
        }
      }
      writeState := WriteAdvance(writeState, 0);
      rc, more := r, true;
    }

    /**
     * The FlashJournal_log call of PAL_PI_WRITE_RESIDUAL_LOGGED and its
     * outcome: the whole fragment goes to the journal; a fragment shorter than
     * one program unit counts as success, a failure is translated, and a
     * pending log stops the machine until its callback.
     */
    method LogFragment() returns (r: int, stop: bool)
      requires Valid() && storage.outstanding.None? && activeFsm == FsmWrite
      requires writeState == WriteResidualLogged && overflowSize == 0 && |fragment| > 0
      modifies storage
      ensures Valid() && events == old(events)
      ensures storage.requests == old(storage.requests) + [JournalLog(fragment)]
      ensures stop ==> (r < 0 ==> storage.outstanding.None? && IsUpdateFailure(r))
                       && (r >= 0 ==> r == 0 && storage.outstanding.Some?)
      ensures !stop ==> r >= 0 && storage.outstanding.None? && (r < |fragment| ==> |fragment| - r < |overflow|)
    {
      r := storage.Submit(JournalLog(fragment));
      stop := true;
      if r == JOURNAL_STATUS_SMALL_LOG_REQUEST {
        r, stop := PAL_SUCCESS, false;
      } else if r < JOURNAL_STATUS_OK {
        r := TranslateJournalErr(r);
      } else if r > JOURNAL_STATUS_OK {
        stop := false;
      }
    }

    /** PAL_PI_MBED_WRITE_DONE: keep the unlogged tail [st, |fragment|) and signal WRITE. */
    method WriteKeepTail(st: int) returns (rc: int, more: bool)
      requires Valid() && storage.outstanding.None? && activeFsm == FsmWrite && WriteEntryOk(st)
      requires writeState == WriteDone
      modifies this`overflow, this`overflowSize, this`events
      ensures WriteStepped(st, rc, more)
    {
      if st < |fragment| {
        var residual := |fragment| - st;
        overflow := CopyToUnit(overflow, fragment[st..]);
        overflowSize := residual;
      }
      events := events + [EventWrite];
      rc, more := st, false;
    }

    /** One state of PAL_PI_MBED_Write_StateMachine_Enter, entered with status st. */
    method WriteStep(st: int) returns (rc: int, more: bool)
      requires Valid() && storage.outstanding.None? && activeFsm == FsmWrite && WriteEntryOk(st)
      modifies this`writeState, this`metadataLogged, this`overflow, this`overflowSize, this`fragment, this`events, storage
      ensures WriteStepped(st, rc, more)
    {
      match writeState {
        case WriteUninitialized =>
          rc, more := WriteLogHeader(st);
        case WriteMetadataLogged =>
          rc, more := WriteHeaderResidual(st);
        case WriteResidualLogged =>
          rc, more := WriteFragment(st);
        case WriteDone =>
          rc, more := WriteKeepTail(st);
        case WriteError =>
          events := events + [EventError];
          rc, more := st, false;
      }
    }

    /** PAL_PI_MBED_Write_StateMachine_Enter */
    method WriteEnter(status: int) returns (rc: int)
      requires Valid() && storage.outstanding.None? && activeFsm == FsmWrite && WriteEntryOk(status)
      modifies this`writeState, this`metadataLogged, this`overflow, this`overflowSize, this`fragment, this`events, storage
      ensures Valid()
      ensures WriteSettled(old(events), rc)
      ensures writeState == WriteError <==> old(writeState) == WriteError
      ensures writeState == WriteError ==> rc == status
      ensures WriteRank(writeState) >= WriteRank(old(writeState))
      ensures |fragment| <= |old(fragment)| && fragment == old(fragment)[|old(fragment)| - |fragment|..]
      ensures metadataLogged ==
                (old(metadataLogged) || (WriteRank(old(writeState)) <= 1 && 1 <= WriteRank(writeState) < 4))
    {
      rc := status;
      var more := true;
      while more
        invariant Valid()
        invariant more ==> storage.outstanding.None? && events == old(events) && WriteEntryOk(rc)
        invariant !more ==> WriteSettled(old(events), rc)
        invariant writeState == WriteError <==> old(writeState) == WriteError
        invariant writeState == WriteError ==> rc == status
        invariant WriteRank(writeState) >= WriteRank(old(writeState))
        invariant |fragment| <= |old(fragment)| && fragment == old(fragment)[|old(fragment)| - |fragment|..]
        invariant metadataLogged ==
                    (old(metadataLogged)
                     || (WriteRank(old(writeState)) <= 1
                         && (WriteRank(writeState) > 1 || (WriteRank(writeState) == 1 && !more))
                         && WriteRank(writeState) < 4))
        decreases more, 4 - WriteRank(writeState)
      {
        ghost var before := fragment;
        rc, more := WriteStep(rc);
        assert fragment == before[|before| - |fragment|..];
      }
    }

    // --- Read -------------------------------------------------------------

    /** PAL_PI_MBED_Read_StateMachine_Advance */
    method ReadAdvanceWith(status: int)
      requires Valid() && activeFsm == FsmRead
      modifies this`readState, readBuffer
      ensures readState == ReadAdvance(old(readState), status)
      ensures status >= 0 && old(readState) == ReadUninitialized && old(readBuffer.bufferLength) == 0 ==>
                readBuffer.bufferLength == ToUint32(status)
      ensures !(status >= 0 && old(readState) == ReadUninitialized && old(readBuffer.bufferLength) == 0) ==>
                readBuffer.bufferLength == old(readBuffer.bufferLength)
    {
      // In asynchronous mode the status is the number of bytes read, unless the length is already set.
      if status >= 0 && readState == ReadUninitialized && readBuffer.bufferLength == 0 {
        readBuffer.bufferLength := ToUint32(status);
      }
      readState := ReadAdvance(readState, status);
    }

    /** What one Read state's action guarantees. */
    twostate predicate ReadStepped(rc: int, more: bool)
      reads this, storage
    {
      Valid()
      && (more ==> ReadRank(old(readState)) < 2 && readState == ReadAdvance(old(readState), 0)
                   && events == old(events) && storage.outstanding.None?)
      && (!more ==> readState == old(readState) && ReadSettled(old(events), rc))
    }

    /** PAL_PI_READ_SKIP_METADATA: read the header back and note the payload size. */
    method ReadSkipHeader() returns (rc: int, more: bool)
      requires Valid() && storage.outstanding.None? && activeFsm == FsmRead
      requires readState == ReadSkipMetadata
      modifies this`readState, this`bytesRemaining, storage, readBuffer
      ensures ReadStepped(rc, more)
      ensures bytesRemaining == PayloadSize(header)
      ensures storage.requests == old(storage.requests) + [JournalRead(HEADER_SIZE)]
      ensures readBuffer.bufferLength == old(readBuffer.bufferLength)
    {
      bytesRemaining := PayloadSize(header);
      var r := storage.Submit(JournalRead(HEADER_SIZE));
      if r <= JOURNAL_STATUS_OK {
        rc, more := TranslateJournalErr(r), false;
      } else {
        ReadAdvanceWith(0);
        rc, more := 0, true;
      }
    }

    /** PAL_PI_READ_UNINITIALIZED: read up to the buffer's capacity; a synchronous read reports what is left of the image. */
    method ReadChunk() returns (rc: int, more: bool)
      requires Valid() && storage.outstanding.None? && activeFsm == FsmRead
      requires readState == ReadUninitialized
      modifies this`readState, this`bytesRemaining, storage, readBuffer
      ensures ReadStepped(rc, more)
      ensures var r := Answer(JournalRead(readBuffer.maxBufferLength), old(storage.NextReply()), storage.programUnit);
              storage.requests == old(storage.requests) + [JournalRead(readBuffer.maxBufferLength)]
              && (more ==>
                    r > 0
                    && readBuffer.bufferLength == ToUint32(ReadClampAsWritten(old(bytesRemaining), r).reported)
                    && bytesRemaining == ReadClampAsWritten(old(bytesRemaining), r).remaining)
              && (!more ==>
                    readBuffer.bufferLength == old(readBuffer.bufferLength)
                    && bytesRemaining == old(bytesRemaining))
    {
      var r := storage.Submit(JournalRead(readBuffer.maxBufferLength));
      if r > JOURNAL_STATUS_OK {
        var c := ReadClampAsWritten(bytesRemaining, r);
        readBuffer.bufferLength := ToUint32(c.reported);
        bytesRemaining := c.remaining;
        ReadAdvanceWith(0);
        rc, more := 0, true;
      } else if r < JOURNAL_STATUS_OK {
        rc, more := TranslateJournalErr(r), false;
      } else {
        rc, more := r, false;
      }
    }

    /** One state of PAL_PI_MBED_Read_StateMachine_Enter. */
    method ReadStep() returns (rc: int, more: bool)
      requires Valid() && storage.outstanding.None? && activeFsm == FsmRead
      modifies this`readState, this`bytesRemaining, this`events, storage, readBuffer
      ensures ReadStepped(rc, more)
      ensures old(readState) == ReadSkipMetadata ==>
                bytesRemaining == PayloadSize(header)
                && storage.requests == old(storage.requests) + [JournalRead(HEADER_SIZE)]
                && readBuffer.bufferLength == old(readBuffer.bufferLength)
      ensures old(readState) == ReadUninitialized ==>
                var r := Answer(JournalRead(readBuffer.maxBufferLength), old(storage.NextReply()), storage.programUnit);
                storage.requests == old(storage.requests) + [JournalRead(readBuffer.maxBufferLength)]
                && (more ==>
                      r > 0
                      && readBuffer.bufferLength == ToUint32(ReadClampAsWritten(old(bytesRemaining), r).reported)
                      && bytesRemaining == ReadClampAsWritten(old(bytesRemaining), r).remaining)
                && (!more ==>
                      readBuffer.bufferLength == old(readBuffer.bufferLength)
                      && bytesRemaining == old(bytesRemaining))
      ensures ReadRank(old(readState)) >= 2 ==>
                storage.requests == old(storage.requests) && bytesRemaining == old(bytesRemaining)
                && readBuffer.bufferLength == old(readBuffer.bufferLength)
    {
      match readState {
        case ReadSkipMetadata =>
          rc, more := ReadSkipHeader();
        case ReadUninitialized =>
          rc, more := ReadChunk();
        case ReadDone =>
          events := events + [EventReadToBuffer];
          rc, more := 0, false;
        case ReadError =>
          events := events + [EventError];
          rc, more := 0, false;
      }
    }

    /**
     * PAL_PI_MBED_Read_StateMachine_Enter. A read that completes in this call
     * reports at most the bytes left of the image; it takes them off only when
     * the journal returned no more than was left.
     */
    method ReadEnter() returns (rc: int)
      requires Valid() && storage.outstanding.None? && activeFsm == FsmRead
      modifies this`readState, this`bytesRemaining, this`events, storage, readBuffer
      ensures Valid()
      ensures ReadSettled(old(events), rc)
      ensures readState == ReadError <==> old(readState) == ReadError
      ensures ReadRank(readState) >= ReadRank(old(readState))
      ensures ReadRank(old(readState)) < 2 ==>
                |storage.requests| > |old(storage.requests)|
                && storage.requests[|old(storage.requests)|]
                     == JournalRead(if old(readState) == ReadSkipMetadata then HEADER_SIZE else readBuffer.maxBufferLength)
      ensures var budget := if old(readState) == ReadSkipMetadata then PayloadSize(header) else old(bytesRemaining);
              ReadRank(old(readState)) < 2 && readState == ReadDone && budget >= 0 ==>
                ReadAccounted(budget, readBuffer.bufferLength as int, bytesRemaining)
      ensures readState != ReadDone || ReadRank(old(readState)) >= 2 ==>
                readBuffer.bufferLength == old(readBuffer.bufferLength)
    {
      ghost var budget := if readState == ReadSkipMetadata then PayloadSize(header) else bytesRemaining;
      ghost var firstRead := JournalRead(if readState == ReadSkipMetadata then HEADER_SIZE else readBuffer.maxBufferLength);
      ghost var r0 := storage.requests;
      rc := 0;
      var more := true;
      while more
        invariant Valid()
        invariant more ==> storage.outstanding.None? && events == old(events)
        invariant !more ==> ReadSettled(old(events), rc)
        invariant readState == ReadError <==> old(readState) == ReadError
        invariant ReadRank(readState) >= ReadRank(old(readState))
        invariant |storage.requests| >= |r0| && storage.requests[..|r0|] == r0
        invariant readState == old(readState) && more ==> storage.requests == r0
        invariant ReadRank(old(readState)) < 2 && (readState != old(readState) || !more) ==>
                    |storage.requests| > |r0| && storage.requests[|r0|] == firstRead
        invariant ReadRank(old(readState)) < 2 && readState == ReadUninitialized && more ==> bytesRemaining == budget
        invariant ReadRank(old(readState)) < 2 && readState == ReadDone && budget >= 0 ==>
                    ReadAccounted(budget, readBuffer.bufferLength as int, bytesRemaining)
        invariant readState != ReadDone || ReadRank(old(readState)) >= 2 ==>
                    readBuffer.bufferLength == old(readBuffer.bufferLength)
        decreases more, 3 - ReadRank(readState)
      {
        ghost var before := storage.requests;
        rc, more := ReadStep();
        assert storage.requests[..|before|] == before;
      }
    }

    // --- Commit -----------------------------------------------------------

    /** What one Commit state's action guarantees. */
    twostate predicate CommitStepped(rc: int, more: bool)
      reads this, storage
    {
      Valid()
      && (more ==> CommitRank(old(commitState)) < 2 && commitState == CommitAdvance(old(commitState), 0)
                   && events == old(events) && storage.outstanding.None?)
      && (!more ==> commitState == old(commitState) && CommitSettled(old(events), rc))
    }

    /** PAL_PI_COMMIT_UNINITIALIZED: query the journal, then log what the overflow buffer holds. */
    method CommitLogResidual() returns (rc: int, more: bool)
      requires Valid() && storage.outstanding.None? && activeFsm == FsmCommit
      requires commitState == CommitUninitialized
      modifies this`commitState, this`programUnit, this`overflow, this`overflowSize, this`fragment, storage
      ensures CommitStepped(rc, more)
      ensures more ==>
                storage.requests == old(storage.requests) + [JournalGetInfo]
                                    + ResidualLog(old(overflow), old(overflowSize), old(fragment))
    {
      var r := storage.Submit(JournalGetInfo);
      if r < JOURNAL_STATUS_OK {
        rc, more := TranslateJournalErr(r), false;
      } else {
        programUnit := storage.programUnit;
        r := LogResidual();
        if r < JOURNAL_STATUS_OK {
          rc, more := TranslateJournalErr(r), false;
        } else if r > JOURNAL_STATUS_OK {
          commitState := CommitAdvance(commitState, 0);
          rc, more := r, true;
        } else {
          rc, more := r, false;
        }
      }
    }

    /** PAL_PI_COMMIT_RESIDUAL_LOGGED: clear the overflow buffer and commit the journal. */
    method CommitJournal() returns (rc: int, more: bool)
      requires Valid() && storage.outstanding.None? && activeFsm == FsmCommit
      requires commitState == CommitResidualLogged
      modifies this`commitState, this`overflowSize, storage
      ensures CommitStepped(rc, more)
      ensures overflowSize == 0 && storage.requests == old(storage.requests) + [JournalCommit]
    {
      overflowSize := 0;
      var r := storage.Submit(JournalCommit);
      if r < JOURNAL_STATUS_OK {
        rc, more := TranslateJournalErr(r), false;
      } else if r > JOURNAL_STATUS_OK {
        commitState := CommitAdvance(commitState, 0);
        rc, more := r, true;
      } else {
        rc, more := r, false;
      }
    }

    /** One state of PAL_PI_MBED_Commit_StateMachine_Enter. */
    method CommitStep() returns (rc: int, more: bool)
      requires Valid() && storage.outstanding.None? && activeFsm == FsmCommit
      requires commitState == CommitDone ==> overflowSize == 0
      modifies this`commitState, this`programUnit, this`overflow, this`overflowSize, this`fragment, this`events, storage
      ensures CommitStepped(rc, more)
      ensures old(commitState) == CommitUninitialized && more ==>
                storage.requests == old(storage.requests) + [JournalGetInfo]
                                    + ResidualLog(old(overflow), old(overflowSize), old(fragment))
      ensures old(commitState) == CommitResidualLogged ==>
                overflowSize == 0 && storage.requests == old(storage.requests) + [JournalCommit]
      ensures CommitRank(old(commitState)) >= 2 ==>
                storage.requests == old(storage.requests) && overflowSize == old(overflowSize)
    {
      match commitState {
        case CommitUninitialized =>
          rc, more := CommitLogResidual();
        case CommitResidualLogged =>
          rc, more := CommitJournal();
        case CommitDone =>
          events := events + [EventFinalize];
          rc, more := 0, false;
        case CommitError =>
          events := events + [EventError];
          rc, more := 0, false;
      }
    }

    /**
     * PAL_PI_MBED_Commit_StateMachine_Enter. A commit that completes in one
     * call logs the residual unit first, then commits.
     */
    method CommitEnter() returns (rc: int)
      requires Valid() && storage.outstanding.None? && activeFsm == FsmCommit
      requires commitState == CommitDone ==> overflowSize == 0
      modifies this`commitState, this`programUnit, this`overflow, this`overflowSize, this`fragment, this`events, storage
      ensures Valid()
      ensures CommitSettled(old(events), rc)
      ensures commitState == CommitError <==> old(commitState) == CommitError
      ensures CommitRank(commitState) >= CommitRank(old(commitState))
      ensures old(commitState) == CommitUninitialized && commitState == CommitDone ==>
                storage.requests == old(storage.requests) + [JournalGetInfo]
                                    + ResidualLog(old(overflow), old(overflowSize), old(fragment))
                                    + [JournalCommit]
    {
      ghost var r0 := storage.requests;
      ghost var residual := ResidualLog(overflow, overflowSize, fragment);
      rc := 0;
      var more := true;
      while more
        invariant Valid()
        invariant more ==> storage.outstanding.None? && events == old(events)
        invariant !more ==> CommitSettled(old(events), rc)
        invariant commitState == CommitDone ==> overflowSize == 0
        invariant commitState == CommitError <==> old(commitState) == CommitError
        invariant CommitRank(commitState) >= CommitRank(old(commitState))
        invariant commitState == old(commitState) && more ==>
                    storage.requests == r0 && overflow == old(overflow)
                    && overflowSize == old(overflowSize) && fragment == old(fragment)
        invariant old(commitState) == CommitUninitialized && commitState == CommitResidualLogged && more ==>
                    storage.requests == r0 + [JournalGetInfo] + residual
        invariant old(commitState) == CommitUninitialized && commitState == CommitDone ==>
                    storage.requests == r0 + [JournalGetInfo] + residual + [JournalCommit]
        decreases more, 3 - CommitRank(commitState)
      {
        rc, more := CommitStep();
      }
    }

    // --- GetActiveHash ----------------------------------------------------

    /** What one GetActiveHash state's action guarantees. */
    twostate predicate HashStepped(rc: int, more: bool)
      reads this, storage, hashBuffer
    {
      Valid() && hashBuffer != null && old(hashBuffer) == hashBuffer
      && (more ==> HashRank(old(hashState)) < 3 && HashRank(hashState) == HashRank(old(hashState)) + 1
                   && events == old(events) && storage.outstanding.None?)
      && (!more ==> hashState == old(hashState) && HashSettled(old(events), rc))
      && (old(hashState) == HashStorageDriverInitialized && more ==> hashBuffer.bufferLength == SIZEOF_SHA256)
      && (!(old(hashState) == HashStorageDriverInitialized && more) ==>
            hashBuffer.bufferLength == old(hashBuffer.bufferLength))
    }

    /** PAL_PI_GETATIVEHASH_UNINITIALIZED: initialise the volume manager unless it is ready. */
    method HashVolumeManager() returns (rc: int, more: bool)
      requires Valid() && storage.outstanding.None? && activeFsm == FsmGetActiveHash
      requires hashState == HashUninitialized
      modifies this`hashState, this`volumeManagerFlag, storage
      ensures HashStepped(rc, more)
    {
      var r := ARM_DRIVER_OK + 1;
      if !storage.volumeManagerReady {
        r := storage.Submit(VolumeManagerInitialize);
      }
      if r < ARM_DRIVER_OK {
        rc, more := TranslateDriverErr(r), false;
      } else if r > ARM_DRIVER_OK {
        volumeManagerFlag := true;
        hashState := HashVolumeManagerInitialized;
        rc, more := r, true;
      } else {
        rc, more := r, false;
      }
    }

    /** PAL_PI_GETATIVEHASH_VOLUME_MANAGER_INITIALIZED: add the header volume and initialise its driver once. */
    method HashStorageDriver() returns (rc: int, more: bool)
      requires Valid() && storage.outstanding.None? && activeFsm == FsmGetActiveHash
      requires hashState == HashVolumeManagerInitialized
      modifies this`hashState, this`hashVolumeInitialized, storage
      ensures HashStepped(rc, more)
    {
      var r := ARM_DRIVER_OK + 1;
      if !hashVolumeInitialized {
        r := storage.Submit(
          AddVolume(PAL_UPDATE_ACTIVE_METADATA_HEADER_OFFSET, HEADER_SIZE, MetadataHeaderVolume));
        if r < ARM_DRIVER_OK {
          rc, more := TranslateDriverErr(r), false;
          return;
        }
        r := storage.Submit(MtdInitialize(MetadataHeaderVolume));
      }
      if r < ARM_DRIVER_OK {
        rc, more := TranslateDriverErr(r), false;
      } else if r > ARM_DRIVER_OK {
        hashVolumeInitialized := true;
        hashState := HashStorageDriverInitialized;
        rc, more := r, true;
      } else {
        rc, more := r, false;
      }
    }

    /** PAL_PI_GETATIVEHASH_STORAGE_DRIVER_INITIALIZED: read the digest from the header. */
    method HashReadDigest() returns (rc: int, more: bool)
      requires Valid() && storage.outstanding.None? && activeFsm == FsmGetActiveHash
      requires hashState == HashStorageDriverInitialized
      modifies this`hashState, storage, hashBuffer
      ensures HashStepped(rc, more)
    {
      var r := storage.Submit(MtdReadData(SHA256_OFFSET, SIZEOF_SHA256));
      if r < ARM_DRIVER_OK {
        rc, more := TranslateDriverErr(r), false;
      } else if r > ARM_DRIVER_OK {
        hashBuffer.bufferLength := SIZEOF_SHA256;
        hashState := HashDone;
        rc, more := r, true;
      } else {
        rc, more := r, false;
      }
    }

    /** One state of PAL_PI_MBED_GetAtiveHash_StateMachine. */
    method HashStep() returns (rc: int, more: bool)
      requires Valid() && storage.outstanding.None? && activeFsm == FsmGetActiveHash
      modifies this`hashState, this`volumeManagerFlag, this`hashVolumeInitialized, this`events, storage, hashBuffer
      ensures HashStepped(rc, more)
    {
      match hashState {
        case HashUninitialized =>
          rc, more := HashVolumeManager();
        case HashVolumeManagerInitialized =>
          rc, more := HashStorageDriver();
        case HashStorageDriverInitialized =>
          rc, more := HashReadDigest();
        case HashDone =>
          events := events + [EventGetActiveHash];
          rc, more := 0, false;
        case HashError =>
          events := events + [EventError];
          rc, more := 0, false;
      }
    }

    /** PAL_PI_MBED_GetAtiveHash_StateMachine, its recursion as a loop. */
    method HashEnter() returns (rc: int)
      requires Valid() && storage.outstanding.None? && activeFsm == FsmGetActiveHash
      modifies this`hashState, this`volumeManagerFlag, this`hashVolumeInitialized, this`events, storage, hashBuffer
      ensures Valid()
      ensures HashSettled(old(events), rc)
      ensures hashState == HashError <==> old(hashState) == HashError
      ensures HashRank(hashState) >= HashRank(old(hashState))
      ensures hashState == HashDone && HashRank(old(hashState)) < 3 ==> hashBuffer.bufferLength == SIZEOF_SHA256
    {
      rc := 0;
      var more := true;
      while more
        invariant Valid()
        invariant more ==> storage.outstanding.None? && events == old(events)
        invariant !more ==> HashSettled(old(events), rc)
        invariant hashState == HashError <==> old(hashState) == HashError
        invariant HashRank(hashState) >= HashRank(old(hashState))
        invariant hashState == HashDone && HashRank(old(hashState)) < 3 ==> hashBuffer.bufferLength == SIZEOF_SHA256
        decreases more, 4 - HashRank(hashState)
      {
        rc, more := HashStep();
      }
    }

    // --- storage callbacks ------------------------------------------------

    /** PAL_PI_MBED_journal_callbackHandler */
    method JournalCallback(status: int, opcode: JournalOpcode)
      requires Valid() && storage.outstanding.Some? && IsJournalRequest(storage.outstanding.value)
      requires CompletionStatus(storage.outstanding.value, status, storage.programUnit)
      modifies this, storage, readBuffer
      ensures Valid()
      ensures opcode == OpcodeReset ==> events == old(events) && storage.outstanding == old(storage.outstanding)
      ensures opcode != OpcodeReset && old(activeFsm) in {FsmNone, FsmSetup} ==>
                (status < 0 ==> setupState == SetupError && events == old(events) + [EventError])
                && (status >= 0 && SetupRank(old(setupState)) < 4 ==> SetupRank(setupState) > SetupRank(old(setupState)))
      ensures opcode != OpcodeReset && old(activeFsm) == FsmWrite ==>
                (status < 0 ==> writeState == WriteError && events == old(events) + [EventError])
                && (status >= 0 && WriteRank(old(writeState)) < 3 ==> WriteRank(writeState) > WriteRank(old(writeState)))
      ensures opcode != OpcodeReset && old(activeFsm) == FsmRead ==>
                (status < 0 ==> readState == ReadError && events == old(events) + [EventError])
                && (status >= 0 && ReadRank(old(readState)) < 2 ==> ReadRank(readState) > ReadRank(old(readState)))
      ensures opcode != OpcodeReset && old(activeFsm) == FsmCommit ==>
                (status < 0 ==> commitState == CommitError && events == old(events) + [EventError])
                && (status >= 0 && CommitRank(old(commitState)) < 2 ==> CommitRank(commitState) > CommitRank(old(commitState)))
      ensures old(activeFsm) == FsmGetActiveHash ==> events == old(events) && hashState == old(hashState)
    {
      if opcode == OpcodeReset {
        return;
      }
      match activeFsm {
        case FsmNone =>
          JournalResumeSetup(status);
        case FsmSetup =>
          JournalResumeSetup(status);
        case FsmRead =>
          JournalResumeRead(status);
        case FsmWrite =>
          JournalResumeWrite(status);
        case FsmCommit =>
          JournalResumeCommit(status);
        case FsmGetActiveHash =>
          storage.Complete(status);
      }
    }

    /** The NONE and SETUP branches of the journal callback. */
    method JournalResumeSetup(status: int)
      requires Valid() && storage.outstanding.Some? && IsJournalRequest(storage.outstanding.value)
      requires CompletionStatus(storage.outstanding.value, status, storage.programUnit)
      requires activeFsm in {FsmNone, FsmSetup}
      modifies this`setupState, this`metadataLogged, this`programUnit, this`overflow, this`events, storage
      ensures Valid()
      ensures status < 0 ==> setupState == SetupError && events == old(events) + [EventError]
      ensures status >= 0 && SetupRank(old(setupState)) < 4 ==> SetupRank(setupState) > SetupRank(old(setupState))
    {
      storage.Complete(status);
      setupState := SetupAdvance(setupState, status);
      var _ := SetupEnter();
    }

    /** The READ branch of the journal callback. */
    method JournalResumeRead(status: int)
      requires Valid() && storage.outstanding.Some? && IsJournalRequest(storage.outstanding.value)
      requires CompletionStatus(storage.outstanding.value, status, storage.programUnit)
      requires activeFsm == FsmRead
      modifies this`readState, this`bytesRemaining, this`events, storage, readBuffer
      ensures Valid()
      ensures status < 0 ==> readState == ReadError && events == old(events) + [EventError]
      ensures status >= 0 && ReadRank(old(readState)) < 2 ==> ReadRank(readState) > ReadRank(old(readState))
    {
      storage.Complete(status);
      ReadAdvanceWith(status);
      var _ := ReadEnter();
    }

    /** The WRITE branch of the journal callback. */
    method JournalResumeWrite(status: int)
      requires Valid() && storage.outstanding.Some? && IsJournalRequest(storage.outstanding.value)
      requires CompletionStatus(storage.outstanding.value, status, storage.programUnit)
      requires activeFsm == FsmWrite
      modifies this`writeState, this`metadataLogged, this`overflow, this`overflowSize, this`fragment, this`events, storage
      ensures Valid()
      ensures status < 0 ==> writeState == WriteError && events == old(events) + [EventError]
      ensures status >= 0 && WriteRank(old(writeState)) < 3 ==> WriteRank(writeState) > WriteRank(old(writeState))
    {
      storage.Complete(status);
      writeState := WriteAdvance(writeState, status);
      var _ := WriteEnter(status);
    }

    /** The COMMIT branch of the journal callback. */
    method JournalResumeCommit(status: int)
      requires Valid() && storage.outstanding.Some? && IsJournalRequest(storage.outstanding.value)
      requires CompletionStatus(storage.outstanding.value, status, storage.programUnit)
      requires activeFsm == FsmCommit
      modifies this`commitState, this`programUnit, this`overflow, this`overflowSize, this`fragment, this`events, storage
      ensures Valid()
      ensures status < 0 ==> commitState == CommitError && events == old(events) + [EventError]
      ensures status >= 0 && CommitRank(old(commitState)) < 2 ==> CommitRank(commitState) > CommitRank(old(commitState))
    {
      storage.Complete(status);
      commitState := CommitAdvance(commitState, status);
      var _ := CommitEnter();
    }

    /** PAL_PI_MBED_journalMTD_callbackHandler: the completion is dropped. */
    method MtdCallback(status: int)
      requires Valid() && storage.outstanding.Some? && IsMtdRequest(storage.outstanding.value)
      modifies storage
      ensures Valid() && storage.outstanding.None?
      ensures storage.requests == old(storage.requests)
    {
      storage.Complete(status);
    }

    /** The Setup branch of the volume-manager callback. */
    method ResumeSetup(status: int)
      requires Valid() && storage.outstanding.None? && activeFsm == FsmSetup
      modifies this`setupState, this`metadataLogged, this`programUnit, this`overflow, this`events, storage
      ensures Valid()
      ensures status < 0 ==> setupState == SetupError && events == old(events) + [EventError]
      ensures setupState == SetupError <==> events == old(events) + [EventError]
      ensures events == old(events) || events == old(events) + [EventError] || events == old(events) + [EventPrepare]
    {
      setupState := SetupAdvance(setupState, status);
      var rc := SetupEnter();
      if rc < 0 {
        setupState := SetupAdvance(setupState, rc);
        var _ := SetupEnter();
      }
      assert (old(events) + [EventPrepare])[|old(events)|] == EventPrepare;
    }

    /**
     * PAL_PI_MBED_volumeManager_initializeCallbackHandler, as written: during
     * GetActiveHash it re-enters the Setup machine, so the hash machine
     * never resumes and never signals GETACTIVEHASH.
     */
    method VolumeManagerCallback(status: int)
      requires Valid() && storage.outstanding == Some(VolumeManagerInitialize)
      modifies this, storage
      ensures Valid()
      ensures old(activeFsm) == FsmSetup ==>
                (status < 0 ==> setupState == SetupError && events == old(events) + [EventError])
                && (setupState == SetupError <==> events == old(events) + [EventError])
      ensures activeFsm == old(activeFsm)
      ensures old(activeFsm) == FsmGetActiveHash ==>
                |events| >= |old(events)| && EventGetActiveHash !in events[|old(events)|..]
                && (hashState == old(hashState) || hashState == HashError)
    {
      storage.Complete(status);
      match activeFsm {
        case FsmSetup =>
          ResumeSetup(status);
        case FsmGetActiveHash =>
          ResumeSetupDuringHash(status);
        case _ =>
      }
    }

    /** The GetActiveHash branch of the volume-manager callback, as written: it runs the Setup machine. */
    method ResumeSetupDuringHash(status: int)
      requires Valid() && storage.outstanding.None? && activeFsm == FsmGetActiveHash
      modifies this`hashState, this`setupState, this`metadataLogged, this`programUnit, this`overflow, this`events, storage
      ensures Valid()
      ensures |events| >= |old(events)| && EventGetActiveHash !in events[|old(events)|..]
      ensures hashState == old(hashState) || hashState == HashError
    {
      if status < 0 {
        hashState := HashError;
      }
      var rc := SetupEnter();
      if rc < 0 {
        hashState := HashError;
        var _ := SetupEnter();
      }
    }

    /**
     * The volume-manager callback as evidently intended: during GetActiveHash
     * the completion resumes the hash machine where it waited.
     */
    method VolumeManagerCallbackResumingHash(status: int)
      requires Valid() && storage.outstanding == Some(VolumeManagerInitialize)
      modifies this, storage, hashBuffer
      ensures Valid()
      ensures old(activeFsm) == FsmSetup ==>
                (status < 0 ==> setupState == SetupError && events == old(events) + [EventError])
                && (setupState == SetupError <==> events == old(events) + [EventError])
      ensures activeFsm == old(activeFsm) && hashBuffer == old(hashBuffer)
      ensures old(activeFsm) == FsmGetActiveHash && status < 0 ==>
                hashState == HashError && events == old(events) + [EventError]
      ensures old(activeFsm) == FsmGetActiveHash && status >= 0 && old(hashState) == HashUninitialized ==>
                HashRank(hashState) >= 1 && (hashState == HashError <==> events == old(events) + [EventError])
                && (hashState == HashDone <==> events == old(events) + [EventGetActiveHash])
                && (hashState == HashDone ==> hashBuffer.bufferLength == SIZEOF_SHA256)
    {
      storage.Complete(status);
      match activeFsm {
        case FsmSetup =>
          ResumeSetup(status);
        case FsmGetActiveHash =>
          if status < 0 {
            hashState := HashError;
          } else if hashState == HashUninitialized {
            volumeManagerFlag := true;
            hashState := HashVolumeManagerInitialized;
          }
          var rc := HashEnter();
          if rc < 0 {
            assert events == old(events);
            hashState := HashError;
            var _ := HashEnter();
            assert events[|events| - 1] == EventError;
          } else if hashState != HashError && |events| > |old(events)| {
            assert events[|events| - 1] == EventGetActiveHash;
          }
        case _ =>
      }
    }

    // --- public entry points ----------------------------------------------

    /** pal_plat_imageInitAPI */
    method InitApi() returns (status: int)
      modifies this`events
      ensures status == PAL_SUCCESS && events == old(events) + [EventInit]
    {
      events := events + [EventInit];
      status := PAL_SUCCESS;
    }

    /** pal_plat_imageSetHeader */
    method SetHeader(details: ImageDetails) returns (status: int)
      requires Valid() && storage.outstanding.None? && |details.hash| >= SIZEOF_SHA256
      modifies this`header
      ensures Valid() && status == PAL_SUCCESS
      ensures header == BuildHeader(details, crc)
    {
      header := BuildHeader(details, crc);
      status := PAL_SUCCESS;
    }

    /** pal_plat_imageReserveSpace: the whole Setup machine from the start. */
    method ReserveSpace(imageSize: nat) returns (status: int)
      requires Valid() && storage.outstanding.None?
      modifies this, storage
      ensures Valid() && activeFsm == FsmSetup
      ensures SetupSettled(old(events), status)
      ensures setupState != SetupError && !metadataLogged
      ensures events == old(events) || events == old(events) + [EventPrepare]
    {
      activeFsm := FsmSetup;
      setupState := SetupUninitialized;
      status := SetupEnter();
    }

    /** pal_plat_imageWrite */
    method Write(chunk: seq<byte>) returns (status: int)
      requires Valid() && storage.outstanding.None? && overflow != [] && |chunk| < 0x8000_0000
      modifies this, storage
      ensures Valid() && activeFsm == FsmWrite
      ensures WriteSettled(old(events), status)
      ensures writeState != WriteError
      ensures |fragment| <= |chunk| && fragment == chunk[|chunk| - |fragment|..]
      ensures writeState == WriteDone ==> overflow[..overflowSize] == chunk[|chunk| - overflowSize..]
      ensures metadataLogged == (old(metadataLogged) || WriteRank(writeState) >= 1)
    {
      fragment := chunk;
      writeState := WriteUninitialized;
      activeFsm := FsmWrite;
      status := WriteEnter(0);
    }

    /** pal_plat_imageReadToBuffer */
    method ReadToBuffer(chunk: PalBuffer) returns (status: int)
      requires Valid() && storage.outstanding.None?
      modifies this, storage, chunk
      ensures Valid() && activeFsm == FsmRead && readBuffer == chunk
      ensures ReadSettled(old(events), status)
      ensures readState != ReadError
      ensures |storage.requests| > |old(storage.requests)|
              && storage.requests[|old(storage.requests)|]
                   == JournalRead(if old(activeFsm) == FsmRead then chunk.maxBufferLength else HEADER_SIZE)
      ensures var budget := if old(activeFsm) == FsmRead then old(bytesRemaining) else PayloadSize(header);
              readState == ReadDone && budget >= 0 ==>
                ReadAccounted(budget, chunk.bufferLength as int, bytesRemaining)
      ensures readState != ReadDone ==> chunk.bufferLength == 0
    {
      if activeFsm != FsmRead {
        readState := ReadSkipMetadata;
      } else {
        readState := ReadUninitialized;
      }
      activeFsm := FsmRead;
      readBuffer := chunk;
      readBuffer.bufferLength := 0;
      status := ReadEnter();
    }

    /** pal_plat_imageFlush */
    method Flush() returns (status: int)
      requires Valid() && storage.outstanding.None?
      modifies this, storage
      ensures Valid() && activeFsm == FsmCommit
      ensures CommitSettled(old(events), status)
      ensures commitState != CommitError
      ensures commitState == CommitDone ==>
                storage.requests == old(storage.requests) + [JournalGetInfo]
                                    + ResidualLog(old(overflow), old(overflowSize), old(fragment))
                                    + [JournalCommit]
    {
      activeFsm := FsmCommit;
      commitState := CommitUninitialized;
      status := CommitEnter();
    }

    /** pal_plat_imageGetActiveHash */
    method GetActiveHash(hash: PalBuffer) returns (status: int)
      requires Valid() && storage.outstanding.None?
      modifies this, storage, hash
      ensures Valid() && activeFsm == FsmGetActiveHash && hashBuffer == hash
      ensures HashSettled(old(events), status)
      ensures hashState != HashError
      ensures hashState == HashDone ==> hash.bufferLength == SIZEOF_SHA256
    {
      hashBuffer := hash;
      activeFsm := FsmGetActiveHash;
      hashState := HashUninitialized;
      status := HashEnter();
    }
  }
}
