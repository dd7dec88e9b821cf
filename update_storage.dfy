/**
 * The storage stack under the update port: the storage volume manager,
 * the MTD drivers of its volumes and the sequential flash journal. None of
 * their code is part of this model. They are one environment object that
 * records every request, answers each from a script of replies (a reply
 * is Pending, Completed(n) or Failed(code)), and remembers the request
 * that is still outstanding until its completion callback arrives.
 *
 * The flash journal's own contract is built in: a log request shorter
 * than one program unit is refused with JOURNAL_STATUS_SMALL_LOG_REQUEST,
 * and a log that completes writes the largest whole number of program
 * units it holds and returns that byte count.
 */
module UpdateStorage {
  import opened Words
  import opened Wrappers
  import opened PalStatus
  import opened UpdateMachines

  datatype Volume = JournalVolume | MetadataHeaderVolume

  datatype Request =
    | VolumeManagerInitialize
    | AddVolume(offset: nat, size: nat, volume: Volume)
    | MtdInitialize(volume: Volume)
    | MtdReadData(offset: nat, size: nat)
    | JournalFormat(numSlots: nat)
    | JournalInitialize
    | JournalGetInfo
    | JournalLog(data: seq<byte>)
    | JournalRead(size: nat)
    | JournalCommit

  /** FlashJournal_OpCode_t, as reported to the journal callback. */
  datatype JournalOpcode =
    | OpcodeFormat | OpcodeInitialize | OpcodeGetInfo | OpcodeReadBlob | OpcodeLogBlob
    | OpcodeCommit | OpcodeReset

  datatype Reply = Pending | Completed(count: nat) | Failed(code: int)

  /**
   * A reply the storage stack can give: a synchronous completion returns a
   * positive value, a failure a negative code other than the journal's
   * SMALL_LOG_REQUEST, which the journal itself reserves.
   */
  predicate WellFormed(r: Reply) {
    match r
    case Pending => true
    case Completed(n) => n > 0
    case Failed(c) => c < 0 && c != JOURNAL_STATUS_SMALL_LOG_REQUEST
  }

  /** Requests that can finish later, through a completion callback. */
  predicate MayPend(r: Request) {
    !(r.AddVolume? || r.JournalGetInfo?)
  }

  predicate IsJournalRequest(r: Request) {
    r.JournalFormat? || r.JournalInitialize? || r.JournalLog? || r.JournalRead? || r.JournalCommit?
  }

  predicate IsMtdRequest(r: Request) {
    r.MtdInitialize? || r.MtdReadData?
  }

  /** Refused by the journal without reaching the driver. */
  predicate TooSmall(r: Request, programUnit: nat) {
    r.JournalLog? && |r.data| < programUnit
  }

  /** The return code of a request, given the reply the stack has for it. */
  function Answer(r: Request, reply: Reply, programUnit: nat): (rc: int)
    requires programUnit > 0 && WellFormed(reply)
    ensures TooSmall(r, programUnit) ==> rc == JOURNAL_STATUS_SMALL_LOG_REQUEST
    ensures !TooSmall(r, programUnit) ==> rc != JOURNAL_STATUS_SMALL_LOG_REQUEST
    ensures rc == 0 <==> reply.Pending? && !TooSmall(r, programUnit)
    ensures r.JournalLog? && rc > 0 ==> rc == LoggedCount(|r.data|, programUnit) && |r.data| >= programUnit
    ensures !TooSmall(r, programUnit) && reply.Failed? ==> rc == reply.code
    ensures reply.Completed? ==> rc > 0 || TooSmall(r, programUnit)
  {
    if TooSmall(r, programUnit) then JOURNAL_STATUS_SMALL_LOG_REQUEST
    else match reply
      case Pending => 0
      case Completed(n) => if r.JournalLog? then LoggedCount(|r.data|, programUnit) else n
      case Failed(c) => c
  }

  /**
   * The status a completion callback can carry for an outstanding request:
   * a failure, or for a log the byte count the journal logged.
   */
  predicate CompletionStatus(r: Request, status: int, programUnit: nat)
    requires programUnit > 0
  {
    r.JournalLog? && status >= 0 ==> status == LoggedCount(|r.data|, programUnit)
  }

  class Storage {
    const programUnit: nat
    var replies: seq<Reply>
    var requests: seq<Request>
    var outstanding: Option<Request>
    var volumeManagerReady: bool

    ghost predicate Valid()
      reads this
    {
      programUnit > 0 && forall i :: 0 <= i < |replies| ==> WellFormed(replies[i])
    }

    /** The reply the next request receives; an exhausted script leaves requests pending. */
    function NextReply(): (r: Reply)
      reads this
      requires Valid()
      ensures WellFormed(r)
    {
      if replies == [] then Pending else replies[0]
    }

    constructor (programUnit: nat, replies: seq<Reply>)
      requires programUnit > 0
      requires forall i :: 0 <= i < |replies| ==> WellFormed(replies[i])
      ensures Valid() && this.programUnit == programUnit && this.replies == replies
      ensures requests == [] && outstanding == None && !volumeManagerReady
    {
      this.programUnit := programUnit;
      this.replies := replies;
      requests := [];
      outstanding := None;
      volumeManagerReady := false;
    }

    /** Issue a request and return its code. */
    method Submit(r: Request) returns (rc: int)
      requires Valid() && outstanding.None?
      modifies this
      ensures Valid()
      ensures rc == Answer(r, old(NextReply()), programUnit)
      ensures requests == old(requests) + [r]
      ensures replies == if TooSmall(r, programUnit) || old(replies) == [] then old(replies) else old(replies)[1..]
      ensures outstanding == if rc == 0 && MayPend(r) then Some(r) else None
      ensures volumeManagerReady == (old(volumeManagerReady) || (r.VolumeManagerInitialize? && rc > 0))
    {
      var reply := NextReply();
      rc := Answer(r, reply, programUnit);
      requests := requests + [r];
      if !TooSmall(r, programUnit) && replies != [] {
        replies := replies[1..];
      }
      outstanding := if rc == 0 && MayPend(r) then Some(r) else None;
      volumeManagerReady := volumeManagerReady || (r.VolumeManagerInitialize? && rc > 0);
    }

    /** The outstanding request finishes; its callback is about to run. */
    method Complete(status: int)
      requires Valid() && outstanding.Some?
      modifies this
      ensures Valid() && outstanding == None
      ensures requests == old(requests) && replies == old(replies)
      ensures volumeManagerReady ==
                (old(volumeManagerReady) || (old(outstanding).value.VolumeManagerInitialize? && status >= 0))
    {
      volumeManagerReady := volumeManagerReady || (outstanding.value.VolumeManagerInitialize? && status >= 0);
      outstanding := None;
    }
  }
}
