/** The single outbound slot (frame buffer, its length and the send callback) shared by the
    control protothread, the front task and the packet reader, as a transition system.

    A step is what happens between two yields of the cooperative scheduler. Firing the send
    callback re-enters the event handlers before it returns, so it takes two steps: other
    actors may run in between, while the callback is still set.
 */
module OutboundPump {
  import opened Options
  import opened Crc
  import opened Hdlc
  import opened EscapedBuffer

  datatype Status = Ok | Failure | Canceled

  datatype Frame = Frame(id: nat, bytes: seq<Octet>)

  // Where the driver-to-NCP protothread stands.
  datatype Place =
    | Head                            // about to test the loop condition
    | Cancelling                      // inside a stale callback
    | Waiting                         // yielding for a packet or a command
    | Writing(base: nat, sent: nat)   // the wire was `base` long when this write began
    | Notifying                       // inside the callback of a finished write
    | Failing                         // inside the callback on the error path

  datatype Event =
    | Loaded(id: nat)                 // a command, with its callback
    | Packet(id: nat)                 // a packet read from the interface
    | Written(id: nat)
    | WriteFailed(id: nat)
    | Fired(id: nat, status: Status)

  datatype State = State(
    slot: Option<Frame>,
    callback: Option<nat>,
    place: Place,
    nextId: nat,
    log: seq<Event>,
    wire: seq<Octet>,
    completed: seq<seq<Octet>>)

  datatype Action =
    | LoadCommand(bytes: seq<Octet>)  // CONTROL_REQUIRE_PREP_TO_SEND_COMMAND, the copy and the install
    | Begin(attached: bool)           // the loop condition and the stale-callback test
    | Return                          // the callback returns and is cleared
    | Wake                            // something was loaded while waiting
    | ReadNothing                     // no packet, or a packet that is filtered out
    | ReadFailed                      // the read fails: on_error
    | ReadPacket(bytes: seq<Octet>)
    | WriteSome(octets: seq<Octet>)
    | WriteDone
    | WriteError
    | Reset                           // the socket or the NCP was reset: the protothread restarts

  const INITIAL: State := State(None, None, Head, 0, [], [], [])

  predicate InCallback(s: State) {
    s.place.Cancelling? || s.place.Notifying? || s.place.Failing?
  }

  // What may be written next: the next octets of the encoded frame or, of a frame that the escaped
  // buffer has no room for, anything at all.
  predicate Writes(bytes: seq<Octet>, sent: nat, octets: seq<Octet>) {
    HasRoom(bytes) ==> sent <= |Encode(bytes)| && octets <= Encode(bytes)[sent..]
  }

  predicate Wrote(bytes: seq<Octet>, sent: nat) {
    HasRoom(bytes) ==> sent == |Encode(bytes)|
  }

  predicate Enabled(s: State, a: Action) {
    match a
    case LoadCommand(bytes) => s.slot.None? && s.callback.None? && bytes != []
    case Begin(_) => s.place.Head?
    case Return => InCallback(s)
    case Wake => s.place.Waiting? && s.slot.Some?
    case ReadNothing => s.place.Waiting? && s.slot.None?
    case ReadFailed => s.place.Waiting? && s.slot.None?
    case ReadPacket(bytes) => s.place.Waiting? && s.slot.None? && bytes != []
    case WriteSome(octets) => s.place.Writing? && s.slot.Some? && Writes(s.slot.value.bytes, s.place.sent, octets)
    case WriteDone => s.place.Writing? && s.slot.Some? && Wrote(s.slot.value.bytes, s.place.sent)
    case WriteError => s.place.Writing? && s.slot.Some?
    case Reset => true
  }

  // Call the callback, if there is one, on the way to the next place.
  function Fire(s: State, status: Status, during: Place, otherwise: Place): State {
    match s.callback
    case Some(id) => s.(place := during, log := s.log + [Fired(id, status)])
    case None => s.(place := otherwise)
  }

  // Past the stale-callback test: write what is loaded, or wait.
  function Proceed(s: State): State {
    s.(place := if s.slot.Some? then Writing(|s.wire|, 0) else Waiting)
  }

  function Next(s: State, a: Action): State
    requires Enabled(s, a)
  {
    match a
    case LoadCommand(bytes) =>
      s.(slot := Some(Frame(s.nextId, bytes)), callback := Some(s.nextId),
         nextId := s.nextId + 1, log := s.log + [Loaded(s.nextId)])
    case Begin(attached) =>
      if !attached then Fire(s, Failure, Failing, Head)
      else if s.callback.Some? then Fire(s, Canceled, Cancelling, Head)
      else Proceed(s)
    case Return =>
      var cleared := s.(callback := None);
      if s.place.Cancelling? then Proceed(cleared) else cleared.(place := Head)
    case Wake => Proceed(s)
    case ReadNothing => s.(place := Head)
    case ReadFailed => Fire(s, Failure, Failing, Head)
    case ReadPacket(bytes) =>
      Proceed(s.(slot := Some(Frame(s.nextId, bytes)), nextId := s.nextId + 1, log := s.log + [Packet(s.nextId)]))
    case WriteSome(octets) =>
      s.(wire := s.wire + octets, place := Writing(s.place.base, s.place.sent + |octets|))
    case WriteDone =>
      Fire(s.(slot := None, log := s.log + [Written(s.slot.value.id)],
              completed := s.completed + [s.slot.value.bytes]), Ok, Notifying, Head)
    case WriteError =>
      Fire(s.(slot := None, log := s.log + [WriteFailed(s.slot.value.id)]), Failure, Failing, Head)
    case Reset => if InCallback(s) then s else s.(place := Head)
  }

  ghost predicate Follows(states: seq<State>, actions: seq<Action>) {
    && |states| == |actions| + 1
    && states[0] == INITIAL
    && forall i :: 0 <= i < |actions| ==> Enabled(states[i], actions[i]) && states[i + 1] == Next(states[i], actions[i])
  }

  // ---------------------------------------------------------------------------
  // What the log of every run looks like
  // ---------------------------------------------------------------------------

  predicate IsLoad(e: Event) {
    e.Loaded? || e.Packet?
  }

  predicate EndsWrite(e: Event) {
    e.Written? || e.WriteFailed?
  }

  ghost predicate FiresOnce(log: seq<Event>) {
    forall i, j :: 0 <= i < j < |log| && log[i].Fired? && log[j].Fired? ==> log[i].id != log[j].id
  }

  ghost predicate FiresAfterLoad(log: seq<Event>) {
    forall j :: 0 <= j < |log| && log[j].Fired? ==> exists i :: 0 <= i < j && log[i] == Loaded(log[j].id)
  }

  // Ok is reported right after an error-free write of that very command.
  ghost predicate OkMeansWritten(log: seq<Event>) {
    forall j :: 0 <= j < |log| && log[j].Fired? && log[j].status.Ok? ==> j > 0 && log[j - 1] == Written(log[j].id)
  }

  // Nothing is loaded over a frame whose write has not ended.
  ghost predicate NoOverwrite(log: seq<Event>) {
    forall i, j :: 0 <= i < j < |log| && IsLoad(log[i]) && IsLoad(log[j]) ==>
      exists k :: i < k < j && EndsWrite(log[k]) && log[k].id == log[i].id
  }

  ghost predicate WritesEndOnce(log: seq<Event>) {
    forall i, j :: 0 <= i < j < |log| && EndsWrite(log[i]) && EndsWrite(log[j]) ==> log[i].id != log[j].id
  }

  // A frame is loaded before its write ends, and under an id of its own.
  ghost predicate LoadsFirst(log: seq<Event>) {
    && (forall i, j :: 0 <= i < j < |log| && IsLoad(log[i]) && IsLoad(log[j]) ==> log[i].id != log[j].id)
    && (forall k :: 0 <= k < |log| && EndsWrite(log[k]) ==>
          exists i :: 0 <= i < k && IsLoad(log[i]) && log[i].id == log[k].id)
  }

  ghost predicate LogOk(log: seq<Event>) {
    && FiresOnce(log) && FiresAfterLoad(log) && OkMeansWritten(log)
    && NoOverwrite(log) && WritesEndOnce(log) && LoadsFirst(log)
  }

  // ---------------------------------------------------------------------------
  // The invariant that carries it
  // ---------------------------------------------------------------------------

  ghost predicate FiredIn(log: seq<Event>, id: nat) {
    exists i :: 0 <= i < |log| && log[i].Fired? && log[i].id == id
  }

  ghost predicate EndedIn(log: seq<Event>, id: nat) {
    exists i :: 0 <= i < |log| && EndsWrite(log[i]) && log[i].id == id
  }

  // Outside a callback the callback belongs to the frame in the slot.
  ghost predicate SlotInv(s: State) {
    && (s.slot.Some? ==> s.slot.value.id < s.nextId)
    && (s.place.Writing? ==> s.slot.Some?)
    && (InCallback(s) ==> s.callback.Some?)
    && (s.callback.Some? ==> s.callback.value < s.nextId)
    && (s.callback.Some? && !InCallback(s) ==> s.slot.Some? && s.slot.value.id == s.callback.value)
    && (s.callback.Some? && s.slot.Some? ==> s.slot.value.id == s.callback.value)
  }

  lemma SlotInvHolds(s: State, a: Action)
    requires SlotInv(s) && Enabled(s, a)
    ensures SlotInv(Next(s, a))
  {}

  lemma FiredAppend(log: seq<Event>, e: Event, id: nat)
    ensures FiredIn(log + [e], id) <==> FiredIn(log, id) || (e.Fired? && e.id == id)
  {
    var more := log + [e];
    assert more[|log|] == e;
    if FiredIn(log, id) {
      var i :| 0 <= i < |log| && log[i].Fired? && log[i].id == id;
      assert more[i] == log[i];
    }
  }

  lemma EndedAppend(log: seq<Event>, e: Event, id: nat)
    ensures EndedIn(log + [e], id) <==> EndedIn(log, id) || (EndsWrite(e) && e.id == id)
  {
    var more := log + [e];
    assert more[|log|] == e;
    if EndedIn(log, id) {
      var i :| 0 <= i < |log| && EndsWrite(log[i]) && log[i].id == id;
      assert more[i] == log[i];
    }
  }

  // How a well-formed log may grow.
  ghost predicate MayFollow(log: seq<Event>, e: Event) {
    match e
    case Loaded(id) => MayLoad(log, id)
    case Packet(id) => MayLoad(log, id)
    case Written(id) => MayEnd(log, id)
    case WriteFailed(id) => MayEnd(log, id)
    case Fired(id, status) =>
      && !FiredIn(log, id) && Loaded(id) in log
      && (status.Ok? ==> log != [] && log[|log| - 1] == Written(id))
  }

  ghost predicate MayLoad(log: seq<Event>, id: nat) {
    forall i :: 0 <= i < |log| ==> log[i].id != id && (IsLoad(log[i]) ==> EndedIn(log, log[i].id))
  }

  ghost predicate MayEnd(log: seq<Event>, id: nat) {
    !EndedIn(log, id) && exists i :: 0 <= i < |log| && IsLoad(log[i]) && log[i].id == id
  }

  lemma FiresGrow(log: seq<Event>, e: Event)
    requires FiresOnce(log) && FiresAfterLoad(log) && OkMeansWritten(log) && MayFollow(log, e)
    ensures FiresOnce(log + [e]) && FiresAfterLoad(log + [e]) && OkMeansWritten(log + [e])
  {
    var more := log + [e];
    forall j | 0 <= j < |more| && more[j].Fired?
      ensures exists i :: 0 <= i < j && more[i] == Loaded(more[j].id)
    {
      var i :| 0 <= i < j && i < |log| && log[i] == Loaded(more[j].id);
      assert more[i] == log[i];
    }
  }

  lemma OverwritesGrow(log: seq<Event>, e: Event)
    requires NoOverwrite(log) && LoadsFirst(log) && MayFollow(log, e)
    ensures NoOverwrite(log + [e])
  {
    var more := log + [e];
    forall i, j | 0 <= i < j < |more| && IsLoad(more[i]) && IsLoad(more[j])
      ensures exists k :: i < k < j && EndsWrite(more[k]) && more[k].id == more[i].id
    {
      var k :| 0 <= k < j && k < |log| && EndsWrite(log[k]) && log[k].id == log[i].id;
      var first :| 0 <= first < k && IsLoad(log[first]) && log[first].id == log[k].id;
      assert first == i;
      assert more[k] == log[k];
    }
  }

  lemma LoadsGrow(log: seq<Event>, e: Event)
    requires WritesEndOnce(log) && LoadsFirst(log) && MayFollow(log, e)
    ensures WritesEndOnce(log + [e]) && LoadsFirst(log + [e])
  {
    var more := log + [e];
    forall k | 0 <= k < |more| && EndsWrite(more[k])
      ensures exists i :: 0 <= i < k && IsLoad(more[i]) && more[i].id == more[k].id
    {
      var i :| 0 <= i < k && i < |log| && IsLoad(log[i]) && log[i].id == more[k].id;
      assert more[i] == log[i];
    }
  }

  lemma LogGrows(log: seq<Event>, e: Event)
    requires LogOk(log) && MayFollow(log, e)
    ensures LogOk(log + [e])
  {
    FiresGrow(log, e);
    OverwritesGrow(log, e);
    LoadsGrow(log, e);
  }

  // ---------------------------------------------------------------------------
  // Every step keeps it
  // ---------------------------------------------------------------------------

  // The slot and the callback say which loads are still open, and which callbacks unfired.
  ghost predicate Tracks(log: seq<Event>, open: Option<nat>, pending: Option<nat>, nextId: nat) {
    && (forall i :: 0 <= i < |log| ==> log[i].id < nextId)
    && (forall i :: 0 <= i < |log| && IsLoad(log[i]) ==> (EndedIn(log, log[i].id) <==> open != Some(log[i].id)))
    && (forall i :: 0 <= i < |log| && log[i].Loaded? ==> (FiredIn(log, log[i].id) <==> pending != Some(log[i].id)))
    && (open.Some? ==> MayEnd(log, open.value))
    && (pending.Some? ==> Loaded(pending.value) in log)
  }

  function Open(s: State): Option<nat> {
    if s.slot.Some? then Some(s.slot.value.id) else None
  }

  function Pending(s: State): Option<nat> {
    if InCallback(s) then None else s.callback
  }

  ghost predicate Inv(s: State) {
    SlotInv(s) && LogOk(s.log) && Tracks(s.log, Open(s), Pending(s), s.nextId)
  }

  lemma LoadMayFollow(log: seq<Event>, e: Event, nextId: nat)
    requires Tracks(log, None, None, nextId)
    requires e == Loaded(nextId) || e == Packet(nextId)
    ensures MayFollow(log, e)
  {}

  lemma TrackLoad(log: seq<Event>, e: Event, nextId: nat)
    requires Tracks(log, None, None, nextId)
    requires e == Loaded(nextId) || e == Packet(nextId)
    ensures Tracks(log + [e], Some(nextId), if e.Loaded? then Some(nextId) else None, nextId + 1)
  {
    forall id: nat ensures FiredIn(log + [e], id) <==> FiredIn(log, id) { FiredAppend(log, e, id); }
    forall id: nat ensures EndedIn(log + [e], id) <==> EndedIn(log, id) { EndedAppend(log, e, id); }
    assert (log + [e])[|log|] == e;
  }

  lemma TrackEnd(log: seq<Event>, e: Event, id: nat, pending: Option<nat>, nextId: nat)
    requires Tracks(log, Some(id), pending, nextId)
    requires e == Written(id) || e == WriteFailed(id)
    ensures Tracks(log + [e], None, pending, nextId)
  {
    forall k: nat ensures FiredIn(log + [e], k) <==> FiredIn(log, k) { FiredAppend(log, e, k); }
    forall k: nat ensures EndedIn(log + [e], k) <==> EndedIn(log, k) || k == id { EndedAppend(log, e, k); }
  }

  lemma FireMayFollow(log: seq<Event>, open: Option<nat>, id: nat, status: Status, nextId: nat)
    requires Tracks(log, open, Some(id), nextId)
    requires status.Ok? ==> log != [] && log[|log| - 1] == Written(id)
    ensures MayFollow(log, Fired(id, status))
  {
    var i :| 0 <= i < |log| && log[i] == Loaded(id);
    assert !FiredIn(log, log[i].id);
  }

  lemma TrackFire(log: seq<Event>, open: Option<nat>, id: nat, status: Status, nextId: nat)
    requires Tracks(log, open, Some(id), nextId)
    ensures Tracks(log + [Fired(id, status)], open, None, nextId)
  {
    var e := Fired(id, status);
    forall k: nat ensures FiredIn(log + [e], k) <==> FiredIn(log, k) || k == id { FiredAppend(log, e, k); }
    forall k: nat ensures EndedIn(log + [e], k) <==> EndedIn(log, k) { EndedAppend(log, e, k); }
    var more := log + [e];
    var load :| 0 <= load < |log| && log[load] == Loaded(id);
    if open.Some? {
      var i :| 0 <= i < |log| && IsLoad(log[i]) && log[i].id == open.value;
      assert more[i] == log[i];
    }
  }

  lemma FireLogOk(log: seq<Event>, open: Option<nat>, id: nat, status: Status, nextId: nat)
    requires LogOk(log) && Tracks(log, open, Some(id), nextId)
    requires status.Ok? ==> log != [] && log[|log| - 1] == Written(id)
    ensures LogOk(log + [Fired(id, status)])
  {
    FireMayFollow(log, open, id, status, nextId);
    LogGrows(log, Fired(id, status));
  }

  lemma FireTracks(s: State, status: Status, during: Place, otherwise: Place)
    requires Tracks(s.log, Open(s), s.callback, s.nextId)
    requires during.Cancelling? || during.Notifying? || during.Failing?
    requires otherwise.Head?
    ensures var t := Fire(s, status, during, otherwise); Tracks(t.log, Open(t), Pending(t), t.nextId)
  {
    if s.callback.Some? {
      TrackFire(s.log, Open(s), s.callback.value, status, s.nextId);
    }
  }

  lemma FireKeeps(s: State, status: Status, during: Place, otherwise: Place)
    requires LogOk(s.log) && Tracks(s.log, Open(s), s.callback, s.nextId)
    requires during.Cancelling? || during.Notifying? || during.Failing?
    requires otherwise.Head?
    requires status.Ok? && s.callback.Some? ==> s.log != [] && s.log[|s.log| - 1] == Written(s.callback.value)
    ensures var t := Fire(s, status, during, otherwise);
            LogOk(t.log) && Tracks(t.log, Open(t), Pending(t), t.nextId)
  {
    FireTracks(s, status, during, otherwise);
    if s.callback.Some? {
      FireLogOk(s.log, Open(s), s.callback.value, status, s.nextId);
    }
  }

  lemma LoadKeeps(s: State, a: Action)
    requires Inv(s) && Enabled(s, a) && (a.LoadCommand? || a.ReadPacket?)
    ensures Inv(Next(s, a))
  {
    SlotInvHolds(s, a);
    var e := if a.LoadCommand? then Loaded(s.nextId) else Packet(s.nextId);
    LoadMayFollow(s.log, e, s.nextId);
    LogGrows(s.log, e);
    TrackLoad(s.log, e, s.nextId);
  }

  lemma EndKeeps(s: State, a: Action)
    requires Inv(s) && Enabled(s, a) && (a.WriteDone? || a.WriteError?)
    ensures Inv(Next(s, a))
  {
    SlotInvHolds(s, a);
    var id := s.slot.value.id;
    var e := if a.WriteDone? then Written(id) else WriteFailed(id);
    assert MayFollow(s.log, e);
    LogGrows(s.log, e);
    TrackEnd(s.log, e, id, s.callback, s.nextId);
    var ended := s.(slot := None, log := s.log + [e]);
    if a.WriteDone? {
      FireKeeps(ended.(completed := s.completed + [s.slot.value.bytes]), Ok, Notifying, Head);
    } else {
      FireKeeps(ended, Failure, Failing, Head);
    }
  }

  lemma StepKeeps(s: State, a: Action)
    requires Inv(s) && Enabled(s, a)
    ensures Inv(Next(s, a))
  {
    SlotInvHolds(s, a);
    match a
    case LoadCommand(_) => LoadKeeps(s, a);
    case ReadPacket(_) => LoadKeeps(s, a);
    case WriteDone => EndKeeps(s, a);
    case WriteError => EndKeeps(s, a);
    case Begin(attached) => FireKeeps(s, if attached then Canceled else Failure,
                                      if attached then Cancelling else Failing, Head);
    case ReadFailed => FireKeeps(s, Failure, Failing, Head);
    case Return =>
    case Wake =>
    case ReadNothing =>
    case WriteSome(_) =>
    case Reset =>
  }

  lemma InvInitially()
    ensures Inv(INITIAL)
  {}

  lemma {:induction false} InvAlways(states: seq<State>, actions: seq<Action>, n: nat)
    requires Follows(states, actions) && n < |states|
    ensures Inv(states[n])
  {
    if n == 0 {
      InvInitially();
    } else {
      InvAlways(states, actions, n - 1);
      StepKeeps(states[n - 1], actions[n - 1]);
    }
  }

  // Over every interleaving: callbacks fire at most once, only for a loaded command, and with
  // Ok only right after its error-free write; nothing is loaded over an unwritten frame.
  lemma EveryRunIsOrderly(states: seq<State>, actions: seq<Action>)
    requires Follows(states, actions)
    ensures LogOk(states[|actions|].log)
  {
    InvAlways(states, actions, |actions|);
  }

  // A packet, too, is only loaded over an empty slot with no callback left to fire,
  // although the reader does not test the callback.
  lemma LoadsFindAllEmpty(states: seq<State>, actions: seq<Action>, n: nat)
    requires Follows(states, actions) && n < |actions|
    requires actions[n].LoadCommand? || actions[n].ReadPacket?
    ensures states[n].slot.None? && states[n].callback.None?
  {
    InvAlways(states, actions, n);
  }

  // No callback is lost: once none is set, every command loaded so far has had its own fired.
  lemma NoCallbackIsLost(states: seq<State>, actions: seq<Action>, n: nat, i: nat)
    requires Follows(states, actions) && n < |states|
    requires states[n].callback.None?
    requires i < |states[n].log| && states[n].log[i].Loaded?
    ensures FiredIn(states[n].log, states[n].log[i].id)
  {
    InvAlways(states, actions, n);
  }

  // ---------------------------------------------------------------------------
  // What each callback is told
  // ---------------------------------------------------------------------------

  // The write of a command that ends while its callback is unfired is answered at once: with Ok if
  // it was written, with Failure if the write failed.
  ghost predicate AnsweredAt(log: seq<Event>, j: nat)
    requires j < |log|
  {
    EndsWrite(log[j]) && Loaded(log[j].id) in log[..j] && !FiredIn(log[..j], log[j].id) ==>
      j + 1 < |log| && log[j + 1] == Fired(log[j].id, if log[j].Written? then Ok else Failure)
  }

  ghost predicate Answered(log: seq<Event>) {
    forall j :: 0 <= j < |log| ==> AnsweredAt(log, j)
  }

  lemma AnsweredGrows(log: seq<Event>, more: seq<Event>)
    requires Answered(log)
    requires forall j :: |log| <= j < |log + more| ==> AnsweredAt(log + more, j)
    ensures Answered(log + more)
  {
    var all := log + more;
    forall j | 0 <= j < |log| ensures AnsweredAt(all, j) {
      assert all[..j] == log[..j] && all[j] == log[j];
      assert AnsweredAt(log, j);
    }
  }

  lemma AnsweredQuietly(log: seq<Event>, e: Event)
    requires Answered(log) && !EndsWrite(e)
    ensures Answered(log + [e])
  {
    assert (log + [e])[|log|] == e;
    AnsweredGrows(log, [e]);
  }

  lemma AnsweredEnd(log: seq<Event>, e: Event, answer: Event)
    requires Answered(log) && EndsWrite(e)
    requires answer == Fired(e.id, if e.Written? then Ok else Failure)
    ensures Answered(log + [e] + [answer])
  {
    var all := log + [e, answer];
    assert all == log + [e] + [answer] && all[|log|] == e && all[|log| + 1] == answer;
    AnsweredGrows(log, [e, answer]);
  }

  // A packet's write, or one whose callback has fired, needs no answer.
  lemma AnsweredAlone(log: seq<Event>, e: Event)
    requires Answered(log) && EndsWrite(e) && (Loaded(e.id) in log ==> FiredIn(log, e.id))
    ensures Answered(log + [e])
  {
    assert (log + [e])[|log|] == e && (log + [e])[..|log|] == log;
    AnsweredGrows(log, [e]);
  }

  lemma EndAnswers(s: State, a: Action)
    requires Inv(s) && Answered(s.log) && Enabled(s, a) && (a.WriteDone? || a.WriteError?)
    ensures Answered(Next(s, a).log)
  {
    var id := s.slot.value.id;
    var e := if a.WriteDone? then Written(id) else WriteFailed(id);
    if s.callback.Some? {
      AnsweredEnd(s.log, e, Fired(id, if a.WriteDone? then Ok else Failure));
    } else {
      assert Loaded(id) in s.log ==> FiredIn(s.log, id);
      AnsweredAlone(s.log, e);
    }
  }

  lemma StepAnswers(s: State, a: Action)
    requires Inv(s) && Answered(s.log) && Enabled(s, a)
    ensures Answered(Next(s, a).log)
  {
    var t := Next(s, a);
    if a.WriteDone? || a.WriteError? {
      EndAnswers(s, a);
    } else if t.log != s.log {
      var e := t.log[|s.log|];
      assert t.log == s.log + [e];
      AnsweredQuietly(s.log, e);
    }
  }

  lemma {:induction false} AnsweredAlways(states: seq<State>, actions: seq<Action>, n: nat)
    requires Follows(states, actions) && n < |states|
    ensures Answered(states[n].log)
  {
    if n > 0 {
      AnsweredAlways(states, actions, n - 1);
      InvAlways(states, actions, n - 1);
      StepAnswers(states[n - 1], actions[n - 1]);
    }
  }

  // Over every run: the write of a command whose callback is unfired is followed by the callback,
  // with Ok if it ended well and with Failure if it did not.
  lemma EveryWriteIsAnswered(states: seq<State>, actions: seq<Action>, j: nat)
    requires Follows(states, actions)
    requires var log := states[|actions|].log;
      j < |log| && EndsWrite(log[j]) && Loaded(log[j].id) in log[..j] && !FiredIn(log[..j], log[j].id)
    ensures var log := states[|actions|].log;
      && j + 1 < |log|
      && (log[j] == Written(log[j].id) ==> log[j + 1] == Fired(log[j].id, Ok))
      && (log[j] == WriteFailed(log[j].id) ==> log[j + 1] == Fired(log[j].id, Failure))
  {
    AnsweredAlways(states, actions, |actions|);
    assert AnsweredAt(states[|actions|].log, j);
  }

  // Over every run: a callback found at the head of the loop is told Canceled while attached, its
  // frame staying loaded, and Failure while detached.
  lemma StaleCallbackIsTold(states: seq<State>, actions: seq<Action>, n: nat)
    requires Follows(states, actions) && n < |actions|
    requires actions[n].Begin? && states[n].callback.Some?
    ensures var s, t := states[n], states[n + 1];
      && s.slot.Some? && t.slot == s.slot
      && (actions[n] == Begin(true) ==> t.log == s.log + [Fired(s.callback.value, Canceled)])
      && (actions[n] == Begin(false) ==> t.log == s.log + [Fired(s.callback.value, Failure)])
  {
    InvAlways(states, actions, n);
  }

  // Nothing else fires a callback but the end of a write.
  lemma OthersFireNothing(states: seq<State>, actions: seq<Action>, n: nat, id: nat)
    requires Follows(states, actions) && n < |actions|
    requires !actions[n].Begin? && !actions[n].WriteDone? && !actions[n].WriteError?
    ensures FiredIn(states[n + 1].log, id) ==> FiredIn(states[n].log, id)
  {
    InvAlways(states, actions, n);
    QuietStep(states[n], actions[n], id);
  }

  lemma QuietStep(s: State, a: Action, id: nat)
    requires SlotInv(s) && Enabled(s, a) && !a.Begin? && !a.WriteDone? && !a.WriteError?
    ensures FiredIn(Next(s, a).log, id) ==> FiredIn(s.log, id)
  {
    var t := Next(s, a);
    if t.log != s.log {
      var e := t.log[|s.log|];
      assert t.log == s.log + [e];
      FiredAppend(s.log, e, id);
    }
  }

  // ---------------------------------------------------------------------------
  // What is written is what was loaded
  // ---------------------------------------------------------------------------

  // The frames that a run loads, in order; each gets its place in this order as its id.
  function Loads(actions: seq<Action>): seq<seq<Octet>> {
    if actions == [] then []
    else
      var last := actions[|actions| - 1];
      Loads(actions[..|actions| - 1]) + if last.LoadCommand? || last.ReadPacket? then [last.bytes] else []
  }

  // The frames whose writes the log says were completed, in order.
  function WrittenFrames(log: seq<Event>, loads: seq<seq<Octet>>): seq<seq<Octet>>
    requires forall i :: 0 <= i < |log| ==> log[i].id < |loads|
  {
    if log == [] then []
    else
      var last := log[|log| - 1];
      WrittenFrames(log[..|log| - 1], loads) + if last.Written? then [loads[last.id]] else []
  }

  lemma {:induction false} WrittenFramesSame(log: seq<Event>, loads: seq<seq<Octet>>, more: seq<seq<Octet>>)
    requires forall i :: 0 <= i < |log| ==> log[i].id < |loads|
    ensures WrittenFrames(log, loads + more) == WrittenFrames(log, loads)
  {
    if log != [] { WrittenFramesSame(log[..|log| - 1], loads, more); }
  }

  lemma WrittenFramesSnoc(log: seq<Event>, e: Event, loads: seq<seq<Octet>>)
    requires (forall i :: 0 <= i < |log| ==> log[i].id < |loads|) && e.id < |loads|
    ensures WrittenFrames(log + [e], loads) == WrittenFrames(log, loads) + if e.Written? then [loads[e.id]] else []
  {
    assert (log + [e])[..|log|] == log;
  }

  ghost predicate LoadsInv(s: State, loads: seq<seq<Octet>>) {
    && s.nextId == |loads|
    && (s.slot.Some? ==> s.slot.value.id < |loads| && s.slot.value.bytes == loads[s.slot.value.id])
    && (forall i :: 0 <= i < |s.log| ==> s.log[i].id < |loads|)
    && s.completed == WrittenFrames(s.log, loads)
  }

  lemma LoadsStepLoad(s: State, a: Action, loads: seq<seq<Octet>>)
    requires SlotInv(s) && LoadsInv(s, loads) && Enabled(s, a) && (a.LoadCommand? || a.ReadPacket?)
    ensures LoadsInv(Next(s, a), loads + [a.bytes])
  {
    var e := if a.LoadCommand? then Loaded(s.nextId) else Packet(s.nextId);
    WrittenFramesSame(s.log, loads, [a.bytes]);
    WrittenFramesSnoc(s.log, e, loads + [a.bytes]);
    assert Next(s, a).log == s.log + [e];
  }

  lemma LoadsStepFire(s: State, status: Status, during: Place, otherwise: Place, loads: seq<seq<Octet>>)
    requires LoadsInv(s, loads) && (s.callback.Some? ==> s.callback.value < |loads|)
    ensures LoadsInv(Fire(s, status, during, otherwise), loads)
  {
    if s.callback.Some? { WrittenFramesSnoc(s.log, Fired(s.callback.value, status), loads); }
  }

  lemma LoadsStepEnd(s: State, a: Action, loads: seq<seq<Octet>>)
    requires SlotInv(s) && LoadsInv(s, loads) && Enabled(s, a) && (a.WriteDone? || a.WriteError?)
    ensures LoadsInv(Next(s, a), loads)
  {
    var id := s.slot.value.id;
    var e := if a.WriteDone? then Written(id) else WriteFailed(id);
    WrittenFramesSnoc(s.log, e, loads);
    var ended := s.(slot := None, log := s.log + [e]);
    if a.WriteDone? {
      LoadsStepFire(ended.(completed := s.completed + [s.slot.value.bytes]), Ok, Notifying, Head, loads);
    } else {
      LoadsStepFire(ended, Failure, Failing, Head, loads);
    }
  }

  lemma LoadsStep(s: State, a: Action, loads: seq<seq<Octet>>)
    requires SlotInv(s) && LoadsInv(s, loads) && Enabled(s, a)
    ensures LoadsInv(Next(s, a), loads + if a.LoadCommand? || a.ReadPacket? then [a.bytes] else [])
  {
    assert loads + [] == loads;
    if a.LoadCommand? || a.ReadPacket? {
      LoadsStepLoad(s, a, loads);
    } else if a.WriteDone? || a.WriteError? {
      LoadsStepEnd(s, a, loads);
    } else if a.Begin? {
      LoadsStepFire(s, if a.attached then Canceled else Failure, if a.attached then Cancelling else Failing,
                    Head, loads);
    } else if a.ReadFailed? {
      LoadsStepFire(s, Failure, Failing, Head, loads);
    }
  }

  lemma {:induction false} LoadsAlways(states: seq<State>, actions: seq<Action>, n: nat)
    requires Follows(states, actions) && n <= |actions|
    ensures LoadsInv(states[n], Loads(actions[..n]))
  {
    if n > 0 {
      LoadsAlways(states, actions, n - 1);
      InvAlways(states, actions, n - 1);
      LoadsStep(states[n - 1], actions[n - 1], Loads(actions[..n - 1]));
      assert actions[..n][..n - 1] == actions[..n - 1];
    }
  }

  // Over every run the completed frames are, octet for octet, the loaded ones whose writes the log
  // says ended well, in that order.
  lemma CompletedAreLoaded(states: seq<State>, actions: seq<Action>)
    requires Follows(states, actions)
    ensures var last, loads := states[|actions|], Loads(actions);
      && (forall i :: 0 <= i < |last.log| ==> last.log[i].id < |loads|)
      && last.completed == WrittenFrames(last.log, loads)
  {
    LoadsAlways(states, actions, |actions|);
    assert actions[..|actions|] == actions;
  }

  // ---------------------------------------------------------------------------
  // Some runs
  // ---------------------------------------------------------------------------

  predicate Leads(s: State, a: Action, t: State) {
    Enabled(s, a) && Next(s, a) == t
  }

  ghost predicate LeadsThrough(states: seq<State>, actions: seq<Action>) {
    |states| == |actions| + 1 && forall i :: 0 <= i < |actions| ==> Leads(states[i], actions[i], states[i + 1])
  }

  // A frame is written whole, and its callback, if it is unfired, told Ok.
  lemma WritesWhole(s: State, code: seq<Octet>)
    requires s.place == Writing(|s.wire|, 0) && s.slot.Some? && code == Encode(s.slot.value.bytes)
    ensures Leads(s, WriteSome(code), s.(place := Writing(|s.wire|, |code|), wire := s.wire + code))
  {
    assert code[0..] == code;
  }

  lemma EndsWell(s: State, base: nat)
    requires s.slot.Some? && s.place == Writing(base, |Encode(s.slot.value.bytes)|)
    ensures var end := s.(slot := None, completed := s.completed + [s.slot.value.bytes]);
      Leads(s, WriteDone,
        if s.callback.None? then end.(place := Head, log := s.log + [Written(s.slot.value.id)])
        else end.(place := Notifying, log := s.log + [Written(s.slot.value.id), Fired(s.callback.value, Ok)]))
  {
    if s.callback.Some? {
      assert s.log + [Written(s.slot.value.id)] + [Fired(s.callback.value, Ok)]
        == s.log + [Written(s.slot.value.id), Fired(s.callback.value, Ok)];
    }
  }

  function LoadedState(bytes: seq<Octet>): State {
    State(Some(Frame(0, bytes)), Some(0), Waiting, 1, [Loaded(0)], [], [])
  }

  function ToldState(bytes: seq<Octet>, code: seq<Octet>): State {
    State(None, Some(0), Notifying, 1, [Loaded(0), Written(0), Fired(0, Ok)], code, [bytes])
  }

  // A command that is loaded while the pump waits is written and told Ok.
  lemma WaitingCommandSucceeds(bytes: seq<Octet>, code: seq<Octet>)
    requires bytes != [] && code == Encode(bytes)
    ensures var loaded, told := LoadedState(bytes), ToldState(bytes, code);
      LeadsThrough(
        [INITIAL, INITIAL.(place := Waiting), loaded, loaded.(place := Writing(0, 0)),
         loaded.(place := Writing(0, |code|), wire := code), told, told.(callback := None, place := Head)],
        [Begin(true), LoadCommand(bytes), Wake, WriteSome(code), WriteDone, Return])
  {
    var loaded := LoadedState(bytes);
    assert Leads(INITIAL.(place := Waiting), LoadCommand(bytes), loaded);
    WritesWhole(loaded.(place := Writing(0, 0)), code);
    EndsWell(loaded.(place := Writing(0, |code|), wire := code), 0);
    assert [] + code == code;
    assert [Loaded(0)] + [Written(0), Fired(0, Ok)] == [Loaded(0), Written(0), Fired(0, Ok)];
  }

  function CancelingState(bytes: seq<Octet>): State {
    State(Some(Frame(0, bytes)), Some(0), Cancelling, 1, [Loaded(0), Fired(0, Canceled)], [], [])
  }

  // A command that is loaded before the pump comes to the head of its loop is told that it was
  // canceled, and is then written all the same.
  lemma EarlyCommandIsCanceledYetWritten(bytes: seq<Octet>, code: seq<Octet>)
    requires bytes != [] && code == Encode(bytes)
    ensures var writing := CancelingState(bytes).(callback := None, place := Writing(0, 0));
      LeadsThrough(
        [INITIAL, LoadedState(bytes).(place := Head), CancelingState(bytes), writing,
         writing.(place := Writing(0, |code|), wire := code),
         State(None, None, Head, 1, [Loaded(0), Fired(0, Canceled), Written(0)], code, [bytes])],
        [LoadCommand(bytes), Begin(true), Return, WriteSome(code), WriteDone])
  {
    var writing := CancelingState(bytes).(callback := None, place := Writing(0, 0));
    assert Leads(INITIAL, LoadCommand(bytes), LoadedState(bytes).(place := Head));
    assert Leads(LoadedState(bytes).(place := Head), Begin(true), CancelingState(bytes));
    WritesWhole(writing, code);
    EndsWell(writing.(place := Writing(0, |code|), wire := code), 0);
    assert [] + code == code;
    assert [Loaded(0), Fired(0, Canceled)] + [Written(0)] == [Loaded(0), Fired(0, Canceled), Written(0)];
  }

  // A failed write is told, and the frame is gone.
  lemma FailedWriteIsTold(s: State)
    requires s.place.Writing? && s.slot.Some? && s.callback.Some?
    ensures var t := Next(s, WriteError);
      && t.log == s.log + [WriteFailed(s.slot.value.id), Fired(s.callback.value, Failure)]
      && Enabled(t, Return) && Next(t, Return) == t.(callback := None, place := Head) && t.slot.None?
  {
  }

  // A reset in the middle of a write begins it again from the start.
  lemma ResetBeginsAgain(s: State)
    requires s.place.Writing? && s.slot.Some? && s.callback.None?
    ensures var t := Next(s, Reset);
      Enabled(t, Begin(true)) && Next(t, Begin(true)) == s.(place := Writing(|s.wire|, 0))
  {
  }

  // ---------------------------------------------------------------------------
  // What reaches the other end of the wire
  // ---------------------------------------------------------------------------

  // a is b with some elements left out.
  ghost predicate Within<T(!new)>(a: seq<T>, b: seq<T>)
    decreases |b|
  {
    || a == []
    || (b != [] && Within(a, b[..|b| - 1]))
    || (b != [] && a[|a| - 1] == b[|b| - 1] && Within(a[..|a| - 1], b[..|b| - 1]))
  }

  lemma {:induction false} WithinLonger<T(!new)>(a: seq<T>, b: seq<T>, c: seq<T>)
    requires Within(a, b)
    ensures Within(a, b + c)
    decreases |c|
  {
    if c == [] {
      assert b + c == b;
    } else {
      assert (b + c)[..|b + c| - 1] == b + c[..|c| - 1];
      WithinLonger(a, b, c[..|c| - 1]);
    }
  }

  lemma WithinSnoc<T(!new)>(a: seq<T>, b: seq<T>, x: T)
    requires Within(a, b)
    ensures Within(a + [x], b + [x])
  {
    assert (a + [x])[..|a|] == a && (b + [x])[..|b|] == b;
  }

  predicate Fits(bytes: seq<Octet>) {
    1 <= |bytes| <= BUFFER_SIZE - 2 && HasRoom(bytes)
  }

  // The frames that the escaped buffer and a receiver with the same frame buffer have room for.
  function Fitting(frames: seq<seq<Octet>>): seq<seq<Octet>> {
    if frames == [] then []
    else
      var last := frames[|frames| - 1];
      Fitting(frames[..|frames| - 1]) + if Fits(last) then [last] else []
  }

  lemma FittingSnoc(frames: seq<seq<Octet>>, bytes: seq<Octet>)
    ensures Fitting(frames + [bytes]) == Fitting(frames) + if Fits(bytes) then [bytes] else []
  {
    assert (frames + [bytes])[..|frames|] == frames;
  }

  // Everything completed has been delivered by the time the receiver has read w.
  ghost predicate Received(completed: seq<seq<Octet>>, w: seq<Octet>) {
    Within(Fitting(completed), Decode(FRESH, w))
  }

  lemma ReceivedMore(completed: seq<seq<Octet>>, w: seq<Octet>, x: seq<Octet>)
    requires Received(completed, w)
    ensures Received(completed, w + x)
  {
    DecodeAppend(FRESH, w, x);
    WithinLonger(Fitting(completed), Decode(FRESH, w), Decode(Run(FRESH, w), x));
  }

  lemma DeliveredInTurn(w: seq<Octet>, bytes: seq<Octet>)
    requires Fits(bytes)
    ensures Decode(FRESH, w + Encode(bytes)) == (Decode(FRESH, w) + Delivered(Run(FRESH, w).body)) + [bytes]
  {
    DecodeAppend(FRESH, w, Encode(bytes));
    DecodeEncoded(Run(FRESH, w), bytes);
  }

  lemma ReceivedFrame(completed: seq<seq<Octet>>, w: seq<Octet>, bytes: seq<Octet>, x: seq<Octet>)
    requires Received(completed, w) && (HasRoom(bytes) ==> x == Encode(bytes))
    ensures Received(completed + [bytes], w + x)
  {
    FittingSnoc(completed, bytes);
    if Fits(bytes) {
      DeliveredInTurn(w, bytes);
      var more := Delivered(Run(FRESH, w).body);
      WithinLonger(Fitting(completed), Decode(FRESH, w), more);
      WithinSnoc(Fitting(completed), Decode(FRESH, w) + more, bytes);
    } else {
      assert Fitting(completed + [bytes]) == Fitting(completed);
      ReceivedMore(completed, w, x);
    }
  }

  // During a write the wire ends in a prefix of the frame's encoding, if there is room for that.
  ghost predicate Sending(completed: seq<seq<Octet>>, wire: seq<Octet>, base: nat, sent: nat, room: bool,
                          code: seq<Octet>)
  {
    && base + sent == |wire|
    && (room ==> wire[base..] <= code)
    && Received(completed, wire[..base])
  }

  ghost predicate WireInv(s: State) {
    match s.place
    case Writing(base, sent) =>
      && s.slot.Some?
      && Sending(s.completed, s.wire, base, sent, HasRoom(s.slot.value.bytes), Encode(s.slot.value.bytes))
    case _ => Received(s.completed, s.wire)
  }

  lemma WireInvMeans(s: State)
    requires WireInv(s)
    ensures Received(s.completed, s.wire)
  {
    if s.place.Writing? {
      var base := s.place.base;
      ReceivedMore(s.completed, s.wire[..base], s.wire[base..]);
      assert s.wire == s.wire[..base] + s.wire[base..];
    }
  }

  lemma WroteSome(s: State, octets: seq<Octet>)
    requires WireInv(s) && Enabled(s, WriteSome(octets))
    ensures WireInv(Next(s, WriteSome(octets)))
  {
    var t, bytes := Next(s, WriteSome(octets)), s.slot.value.bytes;
    SentMore(s.completed, s.wire, s.place.base, s.place.sent, HasRoom(bytes), Encode(bytes), octets);
    assert t.wire == s.wire + octets && t.place == Writing(s.place.base, s.place.sent + |octets|);
    assert t.slot == s.slot && t.completed == s.completed;
  }

  lemma SentMore(completed: seq<seq<Octet>>, wire: seq<Octet>, base: nat, sent: nat, room: bool, code: seq<Octet>,
                 octets: seq<Octet>)
    requires Sending(completed, wire, base, sent, room, code)
    requires room ==> sent <= |code| && octets <= code[sent..]
    ensures Sending(completed, wire + octets, base, sent + |octets|, room, code)
  {
    if room {
      MoreSent(wire, base, code, sent, octets);
    } else {
      assert (wire + octets)[..base] == wire[..base];
    }
  }

  lemma MoreSent<T>(wire: seq<T>, base: nat, code: seq<T>, k: nat, octets: seq<T>)
    requires base + k == |wire| && wire[base..] <= code && octets <= code[k..]
    ensures (wire + octets)[..base] == wire[..base]
    ensures (wire + octets)[base..] <= code
  {
    assert (wire + octets)[base..] == wire[base..] + octets;
    assert code == code[..k] + code[k..];
  }

  lemma WroteAll(s: State)
    requires SlotInv(s) && WireInv(s) && Enabled(s, WriteDone)
    ensures WireInv(Next(s, WriteDone))
  {
    var bytes := s.slot.value.bytes;
    SentAll(s.completed, s.wire, s.place.base, s.place.sent, bytes, Encode(bytes));
  }

  lemma SentAll(completed: seq<seq<Octet>>, wire: seq<Octet>, base: nat, sent: nat, bytes: seq<Octet>, code: seq<Octet>)
    requires code == Encode(bytes) && Sending(completed, wire, base, sent, HasRoom(bytes), code)
    requires HasRoom(bytes) ==> sent == |code|
    ensures Received(completed + [bytes], wire)
  {
    WholePrefix(wire[base..], code);
    Rejoined(wire, base);
    ReceivedFrame(completed, wire[..base], bytes, wire[base..]);
  }

  lemma WholePrefix<T>(a: seq<T>, b: seq<T>)
    ensures a <= b && |a| == |b| ==> a == b
  {}

  lemma Rejoined<T>(a: seq<T>, k: nat)
    requires k <= |a|
    ensures a[..k] + a[k..] == a
  {}

  lemma StartsWrite(s: State)
    requires Received(s.completed, s.wire)
    ensures WireInv(Proceed(s))
  {
    if s.slot.Some? {
      NothingSent(s.completed, s.wire, HasRoom(s.slot.value.bytes), Encode(s.slot.value.bytes));
    }
  }

  lemma NothingSent(completed: seq<seq<Octet>>, wire: seq<Octet>, room: bool, code: seq<Octet>)
    requires Received(completed, wire)
    ensures Sending(completed, wire, |wire|, 0, room, code)
  {
    assert wire[..|wire|] == wire;
  }

  lemma WireStep(s: State, a: Action)
    requires SlotInv(s) && WireInv(s) && Enabled(s, a)
    ensures WireInv(Next(s, a))
  {
    WireInvMeans(s);
    match a
    case WriteSome(octets) => WroteSome(s, octets);
    case WriteDone => WroteAll(s);
    case Begin(_) => StartsWrite(s);
    case Return => StartsWrite(s.(callback := None));
    case Wake => StartsWrite(s);
    case ReadPacket(bytes) =>
      StartsWrite(s.(slot := Some(Frame(s.nextId, bytes)), nextId := s.nextId + 1, log := s.log + [Packet(s.nextId)]));
    case LoadCommand(_) =>
    case ReadNothing =>
    case ReadFailed =>
    case WriteError =>
    case Reset =>
  }

  lemma {:induction false} WireAlways(states: seq<State>, actions: seq<Action>, n: nat)
    requires Follows(states, actions) && n < |states|
    ensures WireInv(states[n])
  {
    if n > 0 {
      WireAlways(states, actions, n - 1);
      InvAlways(states, actions, n - 1);
      WireStep(states[n - 1], actions[n - 1]);
    }
  }

  // Over every run, resets, failed writes and frames without room included, a receiver of the wire
  // delivers every frame whose write completed, in the order of completion, as far as the escaped
  // buffer and its own buffer have room.
  lemma CompletedFramesArrive(states: seq<State>, actions: seq<Action>)
    requires Follows(states, actions)
    ensures var last := states[|actions|]; Within(Fitting(last.completed), Decode(FRESH, last.wire))
  {
    WireAlways(states, actions, |actions|);
    WireInvMeans(states[|actions|]);
  }

  // ---------------------------------------------------------------------------
  // No frame gets stuck
  // ---------------------------------------------------------------------------

  // Some n steps lead to these completed frames.
  ghost predicate Reaches(s: State, n: nat, completed: seq<seq<Octet>>)
    decreases n
  {
    if n == 0 then s.completed == completed
    else exists a :: Enabled(s, a) && Reaches(Next(s, a), n - 1, completed)
  }

  lemma OneMore(s: State, a: Action, t: State, n: nat, completed: seq<seq<Octet>>)
    requires Leads(s, a, t) && Reaches(t, n, completed)
    ensures Reaches(s, n + 1, completed)
  {
  }

  lemma WritesRest(bytes: seq<Octet>, sent: nat, code: seq<Octet>, octets: seq<Octet>)
    requires code == Encode(bytes) && (HasRoom(bytes) ==> sent <= |code| && octets == code[sent..])
    ensures Writes(bytes, sent, octets) && Wrote(bytes, sent + |octets|)
  {
  }

  lemma WritingReaches(s: State, octets: seq<Octet>)
    requires s.place.Writing? && s.slot.Some?
    requires Writes(s.slot.value.bytes, s.place.sent, octets) && Wrote(s.slot.value.bytes, s.place.sent + |octets|)
    ensures Reaches(s, 2, s.completed + [s.slot.value.bytes])
  {
    var t := Next(s, WriteSome(octets));
    OneMore(t, WriteDone, Next(t, WriteDone), 0, s.completed + [s.slot.value.bytes]);
    OneMore(s, WriteSome(octets), t, 1, s.completed + [s.slot.value.bytes]);
  }

  lemma RestReaches(s: State, bytes: seq<Octet>, code: seq<Octet>)
    requires s.place.Writing? && s.slot.Some? && s.slot.value.bytes == bytes && code == Encode(bytes)
    requires HasRoom(bytes) ==> s.place.sent <= |code|
    ensures Reaches(s, 2, s.completed + [bytes])
  {
    var octets := if s.place.sent <= |code| then code[s.place.sent..] else [];
    WritesRest(bytes, s.place.sent, code, octets);
    WritingReaches(s, octets);
  }

  lemma ProceedReaches(s: State, a: Action, t: State, bytes: seq<Octet>)
    requires Leads(s, a, t) && t.place == Writing(|t.wire|, 0) && t.slot.Some? && t.slot.value.bytes == bytes
    ensures Reaches(s, 3, t.completed + [bytes])
  {
    RestReaches(t, bytes, Encode(bytes));
    OneMore(s, a, t, 2, t.completed + [bytes]);
  }

  lemma HeadReaches(s: State)
    requires s.place.Head? && s.slot.Some?
    ensures Reaches(s, if s.callback.None? then 3 else 4, s.completed + [s.slot.value.bytes])
  {
    var t := Next(s, Begin(true));
    if s.callback.None? {
      ProceedReaches(s, Begin(true), t, s.slot.value.bytes);
    } else {
      ProceedReaches(t, Return, Next(t, Return), s.slot.value.bytes);
      OneMore(s, Begin(true), t, 3, s.completed + [s.slot.value.bytes]);
    }
  }

  // From wherever a run has come to, a loaded frame is at most four steps from being completed, one of
  // them being that all the octets it still lacks are written.
  lemma LoadedCanComplete(states: seq<State>, actions: seq<Action>)
    requires Follows(states, actions) && states[|actions|].slot.Some?
    ensures var s := states[|actions|];
      exists n :: 0 < n <= 4 && Reaches(s, n, s.completed + [s.slot.value.bytes])
  {
    WireAlways(states, actions, |actions|);
    InvAlways(states, actions, |actions|);
    LoadedReaches(states[|actions|], states[|actions|].slot.value.bytes);
  }

  lemma LoadedReaches(s: State, bytes: seq<Octet>)
    requires SlotInv(s) && WireInv(s) && s.slot.Some? && s.slot.value.bytes == bytes
    ensures exists n :: 0 < n <= 4 && Reaches(s, n, s.completed + [bytes])
  {
    match s.place {
      case Head => HeadReaches(s);
      case Waiting => ProceedReaches(s, Wake, Next(s, Wake), bytes);
      case Writing(_, _) => RestReaches(s, bytes, Encode(bytes));
      case Cancelling => ProceedReaches(s, Return, Next(s, Return), bytes);
      case _ =>
        var t := Next(s, Return);
        HeadReaches(t);
        OneMore(s, Return, t, 3, s.completed + [bytes]);
    }
  }

  // Without a callback every step but a load and a write leads back to the head of the loop, or from
  // there on to the frame in the slot or to waiting for one.
  lemma WithoutCallback(s: State, a: Action)
    requires Enabled(s, a) && s.callback.None?
    ensures a in {Begin(false), ReadNothing, ReadFailed} ==> Next(s, a) == s.(place := Head)
    ensures a == Begin(true) ==> Next(s, a) == s.(place := if s.slot.None? then Waiting else Writing(|s.wire|, 0))
    ensures a == WriteError ==>
      Next(s, a) == s.(place := Head, slot := None, log := s.log + [WriteFailed(s.slot.value.id)])
    ensures a == WriteDone ==>
      Next(s, a) == s.(place := Head, slot := None, log := s.log + [Written(s.slot.value.id)],
                       completed := s.completed + [s.slot.value.bytes])
  {
  }

  // ---------------------------------------------------------------------------
  // Nothing less is enough
  // ---------------------------------------------------------------------------

  // In every run in which this frame alone is completed, it arrives.
  ghost predicate AlwaysArrives(bytes: seq<Octet>) {
    forall states: seq<State>, actions: seq<Action> ::
      Follows(states, actions) && states[|actions|].completed == [bytes] ==>
        bytes in Decode(FRESH, states[|actions|].wire)
  }

  // A run that reads one packet and writes these octets for it.
  function OnePacket(bytes: seq<Octet>, octets: seq<Octet>): seq<Action> {
    [Begin(true), ReadPacket(bytes), WriteSome(octets), WriteDone]
  }

  function OnePacketStates(bytes: seq<Octet>, octets: seq<Octet>): seq<State> {
    var waiting := INITIAL.(place := Waiting);
    var loaded := State(Some(Frame(0, bytes)), None, Writing(0, 0), 1, [Packet(0)], [], []);
    var sent := loaded.(place := Writing(0, |octets|), wire := octets);
    [INITIAL, waiting, loaded, sent, State(None, None, Head, 1, [Packet(0), Written(0)], octets, [bytes])]
  }

  lemma OnePacketFollows(bytes: seq<Octet>, octets: seq<Octet>)
    requires bytes != [] && (HasRoom(bytes) ==> octets == Encode(bytes))
    ensures Follows(OnePacketStates(bytes, octets), OnePacket(bytes, octets))
  {
    var states, actions := OnePacketStates(bytes, octets), OnePacket(bytes, octets);
    OnePacketWrites(bytes, octets);
    assert Next(states[1], actions[1]) == states[2];
    assert Next(states[2], actions[2]) == states[3];
    assert Next(states[3], actions[3]) == states[4];
  }

  lemma OnePacketWrites(bytes: seq<Octet>, octets: seq<Octet>)
    requires HasRoom(bytes) ==> octets == Encode(bytes)
    ensures Writes(bytes, 0, octets) && Wrote(bytes, |octets|) && [] + octets == octets
  {
    assert Encode(bytes)[0..] == Encode(bytes);
  }

  // Only payloads of 1 to BUFFER_SIZE - 2 octets are ever delivered.
  lemma DeliveredIsShort(stream: seq<Octet>, bytes: seq<Octet>)
    requires bytes in Decode(FRESH, stream)
    ensures 1 <= |bytes| <= BUFFER_SIZE - 2
  {
    ClosedLengths(FRESH, stream);
    DeliveredLengths(Closed(FRESH, stream));
  }

  lemma WithinOne<T(!new)>(x: T, b: seq<T>)
    requires Within([x], b)
    ensures x in b
    decreases |b|
  {
    if Within([x], b[..|b| - 1]) { WithinOne(x, b[..|b| - 1]); }
  }

  // A frame always arrives exactly when it has 1 to BUFFER_SIZE - 2 octets and the escaped buffer has
  // room for it.
  lemma AlwaysArrivesIff(bytes: seq<Octet>)
    requires bytes != []
    ensures AlwaysArrives(bytes) <==> Fits(bytes)
  {
    if Fits(bytes) {
      forall states: seq<State>, actions: seq<Action>
        | Follows(states, actions) && states[|actions|].completed == [bytes]
        ensures bytes in Decode(FRESH, states[|actions|].wire)
      {
        CompletedFramesArrive(states, actions);
        FittingSnoc([], bytes);
        assert [] + [bytes] == [bytes];
        WithinOne(bytes, Decode(FRESH, states[|actions|].wire));
      }
    } else {
      NotAlways(bytes, if HasRoom(bytes) then Encode(bytes) else []);
    }
  }

  lemma NotAlways(bytes: seq<Octet>, octets: seq<Octet>)
    requires bytes != [] && !Fits(bytes) && octets == if HasRoom(bytes) then Encode(bytes) else []
    ensures !AlwaysArrives(bytes)
  {
    var states, actions := OnePacketStates(bytes, octets), OnePacket(bytes, octets);
    OnePacketFollows(bytes, octets);
    assert states[|actions|].completed == [bytes] && states[|actions|].wire == octets;
    NothingArrives(bytes, octets);
  }

  lemma NothingArrives(bytes: seq<Octet>, octets: seq<Octet>)
    requires !Fits(bytes) && octets == if HasRoom(bytes) then Encode(bytes) else []
    ensures bytes !in Decode(FRESH, octets)
  {
    if HasRoom(bytes) {
      if bytes in Decode(FRESH, octets) { DeliveredIsShort(octets, bytes); }
    } else {
      assert Decode(FRESH, []) == [];
    }
  }
}
