/**
 * The pure parts of the mbed OS update port: the state sets and transition
 * tables (the *_StateMachine_Advance functions) of the Setup, Write, Read
 * and Commit machines, the states of the GetActiveHash machine, the events
 * the port signals to the update service, the filling of the one-unit
 * overflow buffer, and the clamping of read lengths to the image size.
 */
module UpdateMachines {
  import opened Words

  /** pal_pi_mbed_fsm_t: which machine the storage callbacks drive. */
  datatype Fsm = FsmNone | FsmSetup | FsmWrite | FsmRead | FsmCommit | FsmGetActiveHash

  /** palImageEvents_t: what the port reports through g_palUpdateServiceCBfunc. */
  datatype Event =
    | EventInit | EventPrepare | EventWrite | EventReadToBuffer | EventFinalize
    | EventGetActiveHash | EventError

  datatype SetupState =
    | SetupUninitialized | SetupVolumeManagerInitialized | SetupStorageDriverFormat
    | SetupStorageDriverInitialized | SetupDone | SetupError

  datatype WriteState =
    | WriteUninitialized | WriteMetadataLogged | WriteResidualLogged | WriteDone | WriteError

  datatype ReadState = ReadSkipMetadata | ReadUninitialized | ReadDone | ReadError

  datatype CommitState = CommitUninitialized | CommitResidualLogged | CommitDone | CommitError

  datatype HashState =
    | HashUninitialized | HashVolumeManagerInitialized | HashStorageDriverInitialized
    | HashDone | HashError

  // --- the successful order of each machine --------------------------------

  const SetupChain: seq<SetupState> :=
    [SetupUninitialized, SetupVolumeManagerInitialized, SetupStorageDriverFormat,
     SetupStorageDriverInitialized, SetupDone]
  const WriteChain: seq<WriteState> :=
    [WriteUninitialized, WriteMetadataLogged, WriteResidualLogged, WriteDone]
  const ReadChain: seq<ReadState> := [ReadSkipMetadata, ReadUninitialized, ReadDone]
  const CommitChain: seq<CommitState> := [CommitUninitialized, CommitResidualLogged, CommitDone]
  const HashChain: seq<HashState> :=
    [HashUninitialized, HashVolumeManagerInitialized, HashStorageDriverInitialized, HashDone]

  /** Position in the successful order; Error comes after every other state. */
  function SetupRank(s: SetupState): (r: nat)
    ensures r <= 5
    ensures r < |SetupChain| ==> SetupChain[r] == s
    ensures r == 5 <==> s == SetupError
  {
    match s
    case SetupUninitialized => 0
    case SetupVolumeManagerInitialized => 1
    case SetupStorageDriverFormat => 2
    case SetupStorageDriverInitialized => 3
    case SetupDone => 4
    case SetupError => 5
  }

  function WriteRank(s: WriteState): (r: nat)
    ensures r <= 4
    ensures r < |WriteChain| ==> WriteChain[r] == s
    ensures r == 4 <==> s == WriteError
  {
    match s
    case WriteUninitialized => 0
    case WriteMetadataLogged => 1
    case WriteResidualLogged => 2
    case WriteDone => 3
    case WriteError => 4
  }

  function ReadRank(s: ReadState): (r: nat)
    ensures r <= 3
    ensures r < |ReadChain| ==> ReadChain[r] == s
    ensures r == 3 <==> s == ReadError
  {
    match s
    case ReadSkipMetadata => 0
    case ReadUninitialized => 1
    case ReadDone => 2
    case ReadError => 3
  }

  function CommitRank(s: CommitState): (r: nat)
    ensures r <= 3
    ensures r < |CommitChain| ==> CommitChain[r] == s
    ensures r == 3 <==> s == CommitError
  {
    match s
    case CommitUninitialized => 0
    case CommitResidualLogged => 1
    case CommitDone => 2
    case CommitError => 3
  }

  function HashRank(s: HashState): (r: nat)
    ensures r <= 4
    ensures r < |HashChain| ==> HashChain[r] == s
    ensures r == 4 <==> s == HashError
  {
    match s
    case HashUninitialized => 0
    case HashVolumeManagerInitialized => 1
    case HashStorageDriverInitialized => 2
    case HashDone => 3
    case HashError => 4
  }

  // --- transition tables ----------------------------------------------------

  /** PAL_PI_MBED_Setup_StateMachine_Advance */
  function SetupAdvance(s: SetupState, status: int): (r: SetupState)
    ensures status < 0 ==> r == SetupError
    ensures status >= 0 && SetupRank(s) < 4 ==> r == SetupChain[SetupRank(s) + 1]
    ensures status >= 0 && SetupRank(s) >= 4 ==> r == s
  {
    if status < 0 then SetupError
    else match s
      case SetupUninitialized => SetupVolumeManagerInitialized
      case SetupVolumeManagerInitialized => SetupStorageDriverFormat
      case SetupStorageDriverFormat => SetupStorageDriverInitialized
      case SetupStorageDriverInitialized => SetupDone
      case _ => s
  }

  /** PAL_PI_MBED_Write_StateMachine_Advance */
  function WriteAdvance(s: WriteState, status: int): (r: WriteState)
    ensures status < 0 ==> r == WriteError
    ensures status >= 0 && WriteRank(s) < 3 ==> r == WriteChain[WriteRank(s) + 1]
    ensures status >= 0 && WriteRank(s) >= 3 ==> r == s
  {
    if status < 0 then WriteError
    else match s
      case WriteUninitialized => WriteMetadataLogged
      case WriteMetadataLogged => WriteResidualLogged
      case WriteResidualLogged => WriteDone
      case _ => s
  }

  /** The state part of PAL_PI_MBED_Read_StateMachine_Advance. */
  function ReadAdvance(s: ReadState, status: int): (r: ReadState)
    ensures status < 0 ==> r == ReadError
    ensures status >= 0 && ReadRank(s) < 2 ==> r == ReadChain[ReadRank(s) + 1]
    ensures status >= 0 && ReadRank(s) >= 2 ==> r == s
  {
    if status < 0 then ReadError
    else match s
      case ReadSkipMetadata => ReadUninitialized
      case ReadUninitialized => ReadDone
      case _ => s
  }

  /** PAL_PI_MBED_Commit_StateMachine_Advance */
  function CommitAdvance(s: CommitState, status: int): (r: CommitState)
    ensures status < 0 ==> r == CommitError
    ensures status >= 0 && CommitRank(s) < 2 ==> r == CommitChain[CommitRank(s) + 1]
    ensures status >= 0 && CommitRank(s) >= 2 ==> r == s
  {
    if status < 0 then CommitError
    else match s
      case CommitUninitialized => CommitResidualLogged
      case CommitResidualLogged => CommitDone
      case _ => s
  }

  /** The Setup machine after a series of completions, each fed to Advance. */
  function SetupRun(s: SetupState, statuses: seq<int>): SetupState
    decreases |statuses|
  {
    if statuses == [] then s else SetupRun(SetupAdvance(s, statuses[0]), statuses[1..])
  }

  /**
   * Setup reaches Done from Uninitialized exactly when at least four
   * completions arrive and none of them fails; one failure anywhere leaves
   * it in Error for good.
   */
  lemma {:induction false} SetupRunOutcome(s: SetupState, statuses: seq<int>)
    requires s != SetupError
    ensures (exists i :: 0 <= i < |statuses| && statuses[i] < 0) ==> SetupRun(s, statuses) == SetupError
    ensures (forall i :: 0 <= i < |statuses| ==> statuses[i] >= 0) ==>
              SetupRank(SetupRun(s, statuses)) == Min(SetupRank(s) + |statuses|, 4)
    decreases |statuses|
  {
    if statuses != [] {
      var next := SetupAdvance(s, statuses[0]);
      if statuses[0] < 0 {
        SetupErrorAbsorbs(statuses[1..]);
      } else {
        SetupRunOutcome(next, statuses[1..]);
        if exists i :: 0 <= i < |statuses| && statuses[i] < 0 {
          var i :| 0 <= i < |statuses| && statuses[i] < 0;
          assert statuses[1..][i - 1] < 0;
        }
        if forall i :: 0 <= i < |statuses| ==> statuses[i] >= 0 {
          assert forall i :: 0 <= i < |statuses[1..]| ==> statuses[1..][i] >= 0 by {
            forall i | 0 <= i < |statuses[1..]| ensures statuses[1..][i] >= 0 {
              assert statuses[1..][i] == statuses[i + 1];
            }
          }
        }
      }
    }
  }

  lemma {:induction false} SetupErrorAbsorbs(statuses: seq<int>)
    ensures SetupRun(SetupError, statuses) == SetupError
    decreases |statuses|
  {
    if statuses != [] {
      SetupErrorAbsorbs(statuses[1..]);
    }
  }

  function Min(a: int, b: int): (r: int)
    ensures r <= a && r <= b && (r == a || r == b)
  {
    if a <= b then a else b
  }

  // --- the overflow buffer --------------------------------------------------

  /** The journal logs whole program units only: the byte count of a log of `size` bytes. */
  function LoggedCount(size: nat, programUnit: nat): (r: nat)
    requires programUnit > 0
    ensures r <= size && size - r < programUnit
    ensures size >= programUnit ==> r >= programUnit
  {
    size - size % programUnit
  }

  function Zeros(n: nat): (r: seq<byte>)
    ensures |r| == n && forall i :: 0 <= i < n ==> r[i] == 0
  {
    seq(n, _ => 0)
  }

  /**
   * How many fragment bytes complete a program unit that already holds n
   * bytes: min(program_unit - N, fragment_size).
   */
  function TopUp(unitSize: nat, n: nat, fragmentSize: nat): (k: nat)
    requires n <= unitSize
    ensures k <= fragmentSize && n + k <= unitSize
    ensures k == fragmentSize || n + k == unitSize
  {
    Min(unitSize - n, fragmentSize)
  }

  /**
   * The unit LogResidual hands to the journal: the n buffered bytes, then
   * as many fragment bytes as fit, then zero padding.
   */
  function FillUnit(unit: seq<byte>, n: nat, fragment: seq<byte>): (u: seq<byte>)
    requires n <= |unit|
    ensures |u| == |unit|
  {
    var k := TopUp(|unit|, n, |fragment|);
    unit[..n] + fragment[..k] + Zeros(|unit| - n - k)
  }

  /** The padded unit starts with the bytes already buffered. */
  lemma FillUnitKeepsPrefix(unit: seq<byte>, n: nat, fragment: seq<byte>)
    requires n <= |unit|
    ensures FillUnit(unit, n, fragment)[..n] == unit[..n]
  {
    var k := TopUp(|unit|, n, |fragment|);
    assert FillUnit(unit, n, fragment) == unit[..n] + (fragment[..k] + Zeros(|unit| - n - k));
  }

  /** The layout of the padded unit: buffered bytes, fragment bytes, zeros. */
  lemma FillUnitLayout(unit: seq<byte>, n: nat, fragment: seq<byte>)
    requires n <= |unit|
    ensures var u, k := FillUnit(unit, n, fragment), TopUp(|unit|, n, |fragment|);
            u[..n] == unit[..n] && u[n..n + k] == fragment[..k]
            && forall i :: n + k <= i < |u| ==> u[i] == 0
  {
    var k := TopUp(|unit|, n, |fragment|);
    var u := FillUnit(unit, n, fragment);
    assert u == unit[..n] + fragment[..k] + Zeros(|unit| - n - k);
    assert u[..n] == unit[..n];
    assert u[n..n + k] == fragment[..k];
  }

  /** memcpy of data to the start of the overflow buffer; the rest of the buffer is kept. */
  function CopyToUnit(unit: seq<byte>, data: seq<byte>): (u: seq<byte>)
    requires |data| <= |unit|
    ensures |u| == |unit|
    ensures u[..|data|] == data && u[|data|..] == unit[|data|..]
  {
    data + unit[|data|..]
  }

  // --- read lengths ---------------------------------------------------------

  /** What a synchronous read of rc bytes reports, and the bytes left after it. */
  datatype Clamp = Clamp(reported: int, remaining: int)

  /**
   * The clamp of :1119-1127 as written: when the journal returns more than
   * remains, the rest of the image is reported but `remaining` is kept.
   */
  function ReadClampAsWritten(remaining: int, rc: int): (c: Clamp)
    requires rc > 0
    ensures remaining >= 0 ==> ReadAccounted(remaining, c.reported, c.remaining)
    ensures c.reported == Min(rc, remaining)
    ensures rc <= remaining ==> c.reported + c.remaining == remaining
    ensures rc > remaining ==> c.remaining == remaining
    ensures remaining == 0 ==> c.reported == 0
  {
    if rc <= remaining then Clamp(rc, remaining - rc) else Clamp(remaining, remaining)
  }

  /**
   * How a completed read accounts for a budget of image bytes: it reports
   * at most the budget and leaves a non-negative remainder; the two add up
   * to the budget, unless the read ran past the image end, in which case the
   * whole budget was reported and is still left.
   */
  predicate ReadAccounted(budget: int, reported: int, remaining: int)
  {
    0 <= reported <= budget && 0 <= remaining
    && (reported + remaining == budget || reported == remaining == budget)
  }

  /**
   * Two reads that each return more than the two bytes left report four
   * bytes: padding past the image end is handed out as image data.
   */
  lemma ClampAsWrittenRepeatsTail()
    ensures var first := ReadClampAsWritten(2, 8);
            var second := ReadClampAsWritten(first.remaining, 8);
            first.reported + second.reported == 4 > 2
  {
  }

  /** Once the journal returns more than remains, every later read reports the same tail again. */
  lemma OverReadRepeatsTail(remaining: int, rc: int, next: int)
    requires 0 < remaining < rc && next > 0
    ensures var first := ReadClampAsWritten(remaining, rc);
            first.remaining == remaining && ReadClampAsWritten(first.remaining, next).reported == Min(next, remaining) > 0
  {
  }

  /** Within the image the clamp as written and the clamp as intended agree. */
  lemma ClampsAgreeWithinImage(remaining: int, rc: int)
    requires 0 < rc <= remaining
    ensures ReadClampAsWritten(remaining, rc) == ReadClamp(remaining, rc)
  {
  }

  /** The clamp as intended: a clamped read exhausts the image. */
  function ReadClamp(remaining: int, rc: int): (c: Clamp)
    requires rc > 0
    ensures remaining >= 0 ==> 0 <= c.reported <= remaining && c.remaining >= 0
    ensures remaining >= 0 ==> c.reported + c.remaining == remaining
    ensures c.reported == Min(rc, remaining)
    ensures remaining == 0 ==> c.reported == 0 && c.remaining == 0
  {
    if rc <= remaining then Clamp(rc, remaining - rc) else Clamp(remaining, if remaining >= 0 then 0 else remaining)
  }

  /** The bytes a series of synchronous reads reports, with the clamp as intended. */
  function ReportedTotal(remaining: int, chunks: seq<int>): int
    requires forall i :: 0 <= i < |chunks| ==> chunks[i] > 0
    decreases |chunks|
  {
    if chunks == [] then 0
    else
      var c := ReadClamp(remaining, chunks[0]);
      c.reported + ReportedTotal(c.remaining, chunks[1..])
  }

  /** However the journal splits or pads its output, the reader reports at most the image. */
  lemma {:induction false} ReportedTotalBounded(remaining: int, chunks: seq<int>)
    requires remaining >= 0
    requires forall i :: 0 <= i < |chunks| ==> chunks[i] > 0
    ensures 0 <= ReportedTotal(remaining, chunks) <= remaining
    decreases |chunks|
  {
    if chunks != [] {
      var c := ReadClamp(remaining, chunks[0]);
      assert forall i :: 0 <= i < |chunks[1..]| ==> chunks[1..][i] > 0 by {
        forall i | 0 <= i < |chunks[1..]| ensures chunks[1..][i] > 0 {
          assert chunks[1..][i] == chunks[i + 1];
        }
      }
      ReportedTotalBounded(c.remaining, chunks[1..]);
    }
  }
}
