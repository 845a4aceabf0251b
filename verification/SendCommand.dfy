/** A task that sends a list of commands to the NCP, between a lock and an unlock if asked to.

    What happens to a command on its way (whether the outbound slot became free in time, whether
    the frame was written, what was answered) comes from outside, one fate per attempt.
 */
module SendCommand {
  import opened Options

  type Status = int

  const OK: Status := 0
  const FAILURE: Status := 1
  const TIMEOUT: Status := 7
  const BUSY: Status := 9
  const NCP_ERROR_FIRST: Status := 0xEA0000

  const FRAME_BUFFER_SIZE := 1300
  const CMD_RESET := 1

  const SPINEL_OK := 0
  const SPINEL_BUSY := 12

  // spinel_status_to_wpantund_status
  function Translate(status: int): Status {
    match status
    case 0 => OK
    case 3 => 24
    case 4 => 4
    case 10 => 12
    case 12 => BUSY
    case 13 => 16
    case 19 => 10
    case 104 => 18
    case 105 => 20
    case 107 => 19
    case _ => status % 0x10000 + NCP_ERROR_FIRST
  }

  // The ten answers that have a status of their own.
  lemma TranslateInFigures()
    ensures Translate(0) == 0 && Translate(3) == 24 && Translate(4) == 4 && Translate(10) == 12 && Translate(12) == 9
    ensures Translate(13) == 16 && Translate(19) == 10
    ensures Translate(104) == 18 && Translate(105) == 20 && Translate(107) == 19
  {}

  // Any other answer goes into the range 0xEA0000 to 0xEAFFFF, by its low 16 bits.
  lemma TranslateOther(status: int)
    requires status !in {0, 3, 4, 10, 12, 13, 19, 104, 105, 107}
    ensures 0xEA0000 <= Translate(status) <= 0xEAFFFF
    ensures Translate(status) % 0x10000 == status % 0x10000
  {
    assert 0xEA0000 % 0x10000 == 0;
  }

  // No failure of the NCP's looks like success or like a busy NCP to the host.
  lemma TranslateIsFaithful(status: int)
    ensures Translate(status) == OK <==> status == SPINEL_OK
    ensures Translate(status) == BUSY <==> status == SPINEL_BUSY
  {
  }

  // A frame from the list, or the frame that sets the lock property.
  datatype Command = Frame(octets: seq<int>) | SetLock(property: int, value: bool)

  predicate Fits(command: Command) {
    command.Frame? ==> 0 < |command.octets| < FRAME_BUFFER_SIZE
  }

  predicate IsReset(command: Command) {
    command.Frame? && |command.octets| > 1 && command.octets[1] == CMD_RESET
  }

  datatype Fate = Fate(slotFree: bool, written: bool, answer: Option<int>)

  datatype Outcome = Outcome(loaded: bool, status: Status)

  // vprocess_send_command
  function Send(command: Command, fate: Fate): Outcome {
    if !Fits(command) || !fate.slotFree then Outcome(false, TIMEOUT)
    else if !fate.written || fate.answer.None? then Outcome(true, TIMEOUT)
    else if IsReset(command) then Outcome(true, OK)
    else Outcome(true, if fate.answer.value == 0 then OK else Translate(fate.answer.value))
  }

  // A command succeeds exactly when it fits, was written and was answered, the answer to anything
  // but a reset being that all is well.
  lemma SendSucceeds(command: Command, fate: Fate)
    ensures Send(command, fate).status == OK <==>
      && Fits(command) && fate.slotFree && fate.written && fate.answer.Some?
      && (fate.answer.value == SPINEL_OK || IsReset(command))
    ensures Send(command, fate).status == OK ==> Send(command, fate).loaded
  {
    if fate.answer.Some? { TranslateIsFaithful(fate.answer.value); }
  }

  // What becomes of one attempt, in figures: a frame is loaded if it has 1 to 1299 octets and the slot
  // is free; what is not loaded, not written or not answered has timed out; the answer to a reset
  // does not matter and any other answer is translated.
  lemma SendInFigures(command: Command, fate: Fate)
    ensures Send(command, fate).loaded <==> fate.slotFree && (command.Frame? ==> 1 <= |command.octets| <= 1299)
    ensures !Send(command, fate).loaded || !fate.written || fate.answer == None ==> Send(command, fate).status == 7
    ensures Send(command, fate).loaded && fate.written && fate.answer.Some? ==>
      if command.Frame? && |command.octets| >= 2 && command.octets[1] == 1 then Send(command, fate).status == 0
      else Send(command, fate).status == Translate(fate.answer.value)
  {
  }

  // What such a task is built with. The property to lock is zero when there is none to lock.
  datatype Job = Job(lockProperty: int, commands: seq<Command>, hasCheck: bool)

  // What the rest of the world contributes to one run: the fate of each attempt, what the reply
  // unpacker made of the last reply (if there is an unpacker and the reply carries a value),
  // whether the final check came true in time, and what the status held before anything was sent.
  datatype World = World(fates: nat -> Fate, unpacked: Option<Status>, checked: bool, stale: Status)

  datatype Attempt = Attempt(command: Command, outcome: Outcome)

  predicate Locks(job: Job) {
    job.lockProperty != 0
  }

  /* The promise: what a run attempts and what it reports, said without running it. */

  function LockStatus(job: Job, world: World): Status {
    Send(SetLock(job.lockProperty, true), world.fates(0)).status
  }

  predicate Proceeds(job: Job, world: World) {
    Locks(job) ==> LockStatus(job, world) == OK || LockStatus(job, world) == BUSY
  }

  function Planned(job: Job, world: World): seq<Command> {
    var body := if Proceeds(job, world) then job.commands else [];
    if Locks(job) then [SetLock(job.lockProperty, true)] + body + [SetLock(job.lockProperty, false)] else body
  }

  // The attempts at these commands, the first of them being the k-th of the run.
  function Attempts(k: nat, commands: seq<Command>, fates: nat -> Fate): seq<Attempt> {
    seq(|commands|, i requires 0 <= i < |commands| => Attempt(commands[i], Send(commands[i], fates(k + i))))
  }

  // The status of the command that counts: the last one of the list. With an empty list it is
  // whatever was there before, which is the lock's status if there was a lock.
  function LastStatus(job: Job, world: World): Status
    requires Proceeds(job, world)
  {
    var before := if Locks(job) then 1 else 0;
    var n := |job.commands|;
    if n > 0 then Send(job.commands[n - 1], world.fates(before + n - 1)).status
    else if Locks(job) then LockStatus(job, world)
    else world.stale
  }

  // The status at the end of the list: a final check, where there is one, has the last word.
  function BodyStatus(job: Job, world: World): Status {
    if !Proceeds(job, world) then LockStatus(job, world)
    else if LastStatus(job, world) != OK then LastStatus(job, world)
    else if job.hasCheck then (if world.checked then OK else TIMEOUT)
    else if world.unpacked.Some? then world.unpacked.value
    else OK
  }

  function UnlockStatus(job: Job, world: World): Status
    requires Locks(job)
  {
    Send(SetLock(job.lockProperty, false), world.fates(|Planned(job, world)| - 1)).status
  }

  function Reported(job: Job, world: World): Status {
    if Locks(job) && UnlockStatus(job, world) != OK then UnlockStatus(job, world) else BodyStatus(job, world)
  }

  /* What can be seen of a run from outside: the commands it attempted, with their outcomes, and the
     status it reported. */

  // With a lock: lock first, then the whole list in order or, unless the lock was granted or
  // already there, none of it, and unlock last. Without: the list in order.
  predicate Bracketed(job: Job, sent: seq<Attempt>) {
    if Locks(job) then
      && |sent| >= 2
      && sent[0].command == SetLock(job.lockProperty, true)
      && sent[|sent| - 1].command == SetLock(job.lockProperty, false)
      && IsList(sent[1..|sent| - 1], if sent[0].outcome.status in {OK, BUSY} then job.commands else [])
    else IsList(sent, job.commands)
  }

  predicate IsList(sent: seq<Attempt>, commands: seq<Command>) {
    |sent| == |commands| && forall i :: 0 <= i < |sent| ==> sent[i].command == commands[i]
  }

  // Every attempt has its own fate, in the order of sending.
  predicate HaveTheirFates(world: World, sent: seq<Attempt>) {
    forall i :: 0 <= i < |sent| ==> sent[i].outcome == Send(sent[i].command, world.fates(i))
  }

  // A failed unlock is what the caller hears of, whatever happened before.
  predicate UnlockDecides(job: Job, sent: seq<Attempt>, reported: Option<Status>) {
    Locks(job) && |sent| > 0 && sent[|sent| - 1].outcome.status != OK ==>
      reported == Some(sent[|sent| - 1].outcome.status)
  }

  // With an empty list, a lock that was already there is heard of as a failure, and without a lock
  // whatever the status held before.
  predicate NothingToSend(job: Job, stale: Status, sent: seq<Attempt>, reported: Option<Status>) {
    job.commands == [] ==>
      if Locks(job) then
        (|sent| == 2 && sent[0].outcome.status == BUSY && sent[1].outcome.status == OK) ==> reported == Some(BUSY)
      else
        stale != OK ==> reported == Some(stale)
  }

  // The attempt that counts: a lock that is neither granted nor already there, and otherwise the last
  // command of the list. With nothing sent it is whatever the status held before.
  function Decisive(job: Job, stale: Status, sent: seq<Attempt>): Status {
    if Locks(job) && |sent| > 0 && sent[0].outcome.status != 0 && sent[0].outcome.status != 9 then
      sent[0].outcome.status
    else if Locks(job) && |sent| >= 2 then sent[|sent| - 2].outcome.status
    else if !Locks(job) && |sent| >= 1 then sent[|sent| - 1].outcome.status
    else stale
  }

  // After an unlock that went well, or without one, the attempt that counts is heard of if it failed.
  // If it went well the final check has the word, and without a check the unpacker of the reply.
  predicate DecisiveIsHeard(job: Job, world: World, sent: seq<Attempt>, reported: Option<Status>) {
    (Locks(job) ==> |sent| > 0 && sent[|sent| - 1].outcome.status == 0) ==>
      if Decisive(job, world.stale, sent) != 0 then reported == Some(Decisive(job, world.stale, sent))
      else if job.hasCheck then reported == Some(if world.checked then 0 else 7)
      else if world.unpacked.Some? then reported == world.unpacked
      else reported == Some(0)
  }

  class Task {
    const job: Job
    var nextCommandRet: Status
    var retVal: Status
    var sent: seq<Attempt>
    var reported: Option<Status>

    constructor (job: Job, stale: Status)
      ensures this.job == job && nextCommandRet == stale && retVal == FAILURE && sent == [] && reported == None
    {
      this.job := job;
      nextCommandRet, retVal, sent, reported := stale, FAILURE, [], None;
    }

    method SendNext(command: Command, fates: nat -> Fate)
      modifies this`nextCommandRet, this`sent
      ensures sent == old(sent) + [Attempt(command, Send(command, fates(old(|sent|))))]
      ensures nextCommandRet == Send(command, fates(old(|sent|))).status
    {
      var outcome := Send(command, fates(|sent|));
      sent := sent + [Attempt(command, outcome)];
      nextCommandRet := outcome.status;
    }

    // The list: the loop tests a status that its body does not change, so it sends everything.
    method SendList(fates: nat -> Fate)
      modifies this`nextCommandRet, this`sent, this`retVal
      ensures sent == old(sent) + Attempts(old(|sent|), job.commands, fates)
      ensures job.commands == [] ==> nextCommandRet == old(nextCommandRet)
      ensures var n := |job.commands|;
        n > 0 ==> nextCommandRet == Send(job.commands[n - 1], fates(old(|sent|) + n - 1)).status
      ensures retVal == nextCommandRet
    {
      retVal := OK;
      var iter := 0;
      while retVal == OK && iter != |job.commands|
        invariant 0 <= iter <= |job.commands|
        invariant retVal == OK
        invariant sent == old(sent) + Attempts(old(|sent|), job.commands[..iter], fates)
        invariant iter == 0 ==> nextCommandRet == old(nextCommandRet)
        invariant iter > 0 ==> nextCommandRet == Send(job.commands[iter - 1], fates(old(|sent|) + iter - 1)).status
        decreases |job.commands| - iter
      {
        SendNext(job.commands[iter], fates);
        iter := iter + 1;
      }
      assert job.commands[..|job.commands|] == job.commands;
      retVal := nextCommandRet;
    }

    // Everything between the lock and the unlock.
    method SendBody(world: World)
      requires |sent| == if Locks(job) then 1 else 0
      requires nextCommandRet == if Locks(job) then LockStatus(job, world) else world.stale
      requires Proceeds(job, world)
      modifies this`nextCommandRet, this`sent, this`retVal
      ensures sent == old(sent) + Attempts(old(|sent|), job.commands, world.fates)
      ensures retVal == BodyStatus(job, world)
    {
      SendList(world.fates);
      if retVal == OK {
        if world.unpacked.Some? {
          retVal := world.unpacked.value;
        }
        if job.hasCheck {
          retVal := if world.checked then OK else TIMEOUT;
        }
      }
    }

    method Run(world: World)
      requires sent == [] && nextCommandRet == world.stale
      modifies this
      ensures sent == Attempts(0, Planned(job, world), world.fates)
      ensures reported == Some(Reported(job, world))
      ensures Bracketed(job, sent) && HaveTheirFates(world, sent)
      ensures UnlockDecides(job, sent, reported)
      ensures NothingToSend(job, world.stale, sent, reported)
      ensures DecisiveIsHeard(job, world, sent, reported)
    {
      Proceed(world);
      LockBracketsList(job, world);
      UnlockFailureOverrides(job, world);
      EmptyList(job, world);
      DecisiveDecides(job, world);
    }

    method Proceed(world: World)
      requires sent == [] && nextCommandRet == world.stale
      modifies this
      ensures sent == Attempts(0, Planned(job, world), world.fates)
      ensures reported == Some(Reported(job, world))
    {
      if job.lockProperty != 0 {
        SendNext(SetLock(job.lockProperty, true), world.fates);
        retVal := nextCommandRet;
        if retVal == OK || retVal == BUSY {
          SendBody(world);
        }
        assert |sent| == |Planned(job, world)| - 1;
        SendNext(SetLock(job.lockProperty, false), world.fates);
        if nextCommandRet != OK {
          retVal := nextCommandRet;
        }
      } else {
        SendBody(world);
      }
      reported := Some(retVal);
    }
  }

  /* What follows from the promise. */

  lemma LockBracketsList(job: Job, world: World)
    ensures Bracketed(job, Attempts(0, Planned(job, world), world.fates))
  {
    var sent := Attempts(0, Planned(job, world), world.fates);
    if Locks(job) {
      assert sent[0].outcome.status == LockStatus(job, world);
    }
  }

  lemma UnlockFailureOverrides(job: Job, world: World)
    ensures UnlockDecides(job, Attempts(0, Planned(job, world), world.fates), Some(Reported(job, world)))
  {
  }

  lemma DecisiveDecides(job: Job, world: World)
    ensures DecisiveIsHeard(job, world, Attempts(0, Planned(job, world), world.fates), Some(Reported(job, world)))
  {
    var sent := Attempts(0, Planned(job, world), world.fates);
    if Locks(job) {
      assert sent[0].outcome.status == LockStatus(job, world);
      assert sent[|sent| - 1].outcome.status == UnlockStatus(job, world);
      if Proceeds(job, world) { assert sent[|sent| - 2].outcome.status == LastStatus(job, world); }
    } else if sent != [] {
      assert sent[|sent| - 1].outcome.status == LastStatus(job, world);
    }
  }

  predicate Succeeded(job: Job, world: World, i: nat)
    requires i < |job.commands|
  {
    Send(job.commands[i], world.fates(if Locks(job) then i + 1 else i)).status == OK
  }

  // When the caller hears that all is well: of the list, only the last command counts.
  lemma ReportsOkIff(job: Job, world: World)
    requires job.commands != []
    ensures Reported(job, world) == OK <==>
      && Proceeds(job, world)
      && Succeeded(job, world, |job.commands| - 1)
      && (if job.hasCheck then world.checked else world.unpacked.Some? ==> world.unpacked.value == OK)
      && (Locks(job) ==> UnlockStatus(job, world) == OK)
  {
  }

  ghost predicate OkMeansAllSucceeded(job: Job) {
    forall world: World :: Reported(job, world) == OK ==>
      forall i :: 0 <= i < |job.commands| ==> Succeeded(job, world, i)
  }

  const FINE: Fate := Fate(true, true, Some(SPINEL_OK))

  // A world in which everything goes well but the first command of the list, which gets no answer.
  function FirstUnanswered(job: Job): World {
    var first := if Locks(job) then 1 else 0;
    World(n => if n == first then FINE.(answer := None) else FINE, None, true, OK)
  }

  // "All is well" vouches for the whole list exactly when the list has at most one command, or
  // ends in one that can never be sent, so that "all is well" is never said.
  lemma OkMeansAllSucceededIff(job: Job)
    ensures OkMeansAllSucceeded(job) <==> |job.commands| <= 1 || !Fits(job.commands[|job.commands| - 1])
  {
    var n := |job.commands|;
    if n > 1 && Fits(job.commands[n - 1]) {
      var world := FirstUnanswered(job);
      FirstUnansweredReportsOk(job);
      assert !Succeeded(job, world, 0);
    } else {
      forall world: World | Reported(job, world) == OK
        ensures forall i :: 0 <= i < n ==> Succeeded(job, world, i)
      {
        if n > 0 { ReportsOkIff(job, world); }
      }
    }
  }

  lemma FirstUnansweredReportsOk(job: Job)
    requires |job.commands| > 1 && Fits(job.commands[|job.commands| - 1])
    ensures Reported(job, FirstUnanswered(job)) == OK
  {
    var world := FirstUnanswered(job);
    ReportsOkIff(job, world);
    assert Succeeded(job, world, |job.commands| - 1);
  }

  lemma EmptyList(job: Job, world: World)
    ensures NothingToSend(job, world.stale, Attempts(0, Planned(job, world), world.fates), Some(Reported(job, world)))
  {
  }
}
