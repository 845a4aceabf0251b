/** The queue of NCP tasks and their one-shot callbacks.

    A task is handed to start_new_task, may finish at once, may be queued, receives events while
    it is at the front, and is destroyed when the queue lets go of it. Its callback may start
    further tasks, and so may its handling of an event; those tasks carry theirs in turn.
 */
module TaskQueue {
  import opened Options

  type Status = int

  const INVALID_WHEN_DISABLED: Status := 3
  const CANCELED: Status := 11

  // What start_new_task looks at: detached from the NCP, asleep (and whether a wake task may be
  // started: power can be set, or there is no MCU power capability), or neither.
  datatype Ncp = Detached | Asleep(canWake: bool) | Awake

  // What a task does with one event: start tasks, perhaps finish, start tasks again, and end or keep
  // waiting. There are finitely many, and the tasks they start are nested finitely deep.
  datatype Reaction = Reaction(spawned: seq<NewTask>, finish: Option<Status>, later: seq<NewTask>, ended: bool)

  // A task as it is handed over: whether it is a wake task, its reaction to the starting event,
  // the NCP state before and after that event, and the tasks its callback starts.
  datatype NewTask = NewTask(wake: bool, before: Ncp, starting: Reaction, after: Ncp, callback: seq<NewTask>)

  // Waiting: the callback is still installed. Finished: it has been called.
  datatype Life = Waiting | Finished | Destroyed

  datatype Event = Called(id: nat, status: Status) | Delivered(position: nat)

  datatype Entry = Entry(id: nat, wake: bool, wakeFirst: bool, callback: seq<NewTask>)

  datatype State = State(
    queue: seq<Entry>,
    life: map<nat, Life>,     // every task ever handed over, by its number
    nextId: nat,
    enqueued: seq<Entry>,     // every task ever queued, in order
    popped: nat,              // how many of those have left the queue
    log: seq<Event>)

  const EMPTY: State := State([], map[], 0, [], 0, [])

  function Create(s: State): State {
    s.(nextId := s.nextId + 1, life := s.life[s.nextId := Waiting])
  }

  function Call(s: State, id: nat, status: Status): State {
    s.(life := s.life[id := Finished], log := s.log + [Called(id, status)])
  }

  function Mark(s: State, id: nat): State {
    s.(life := s.life[id := Destroyed])
  }

  function Enqueue(s: State, e: Entry): State {
    s.(queue := s.queue + [e], enqueued := s.enqueued + [e])
  }

  // SpinelNCPTask::finish: an installed callback is called and forgotten.
  function Finish(s: State, id: nat, status: Status, callback: seq<NewTask>): State
    decreases callback, 1
  {
    if id in s.life && s.life[id].Waiting? then SpawnAll(Call(s, id, status), callback) else s
  }

  function FinishIf(s: State, id: nat, finish: Option<Status>, callback: seq<NewTask>): State
    decreases callback, 2
  {
    match finish
    case Some(status) => Finish(s, id, status, callback)
    case None => s
  }

  // The destructor finishes first.
  function Destroy(s: State, id: nat, callback: seq<NewTask>): State
    decreases callback, 2
  {
    Mark(Finish(s, id, CANCELED, callback), id)
  }

  predicate MustWake(ncp: Ncp, wake: bool) {
    ncp.Asleep? && ncp.canWake && !wake
  }

  // A wake task reacts to the starting event by waiting for another one.
  function WakeTask(ncp: Ncp): NewTask {
    NewTask(true, ncp, Reaction([], None, [], false), ncp, [])
  }

  // The nested start_new_task of a wake task.
  function StartWake(s: State): State {
    Enqueue(Create(s), Entry(s.nextId, true, false, []))
  }

  // A new task that has perhaps finished on its starting event.
  function Finishing(s: State, task: NewTask): State
    decreases task, 0
  {
    FinishIf(SpawnAll(Create(s), task.starting.spawned), s.nextId, task.starting.finish, task.callback)
  }

  // A new task after its starting event.
  function Started(s: State, task: NewTask): State
    decreases task, 1
  {
    SpawnAll(Finishing(s, task), task.starting.later)
  }

  // start_new_task
  function Start(s: State, task: NewTask): State
    decreases task, 2
  {
    var id := s.nextId;
    if task.before.Detached? then
      Destroy(Finish(Create(s), id, INVALID_WHEN_DISABLED, task.callback), id, task.callback)
    else if task.starting.ended then
      Destroy(Started(s, task), id, task.callback)
    else
      var wakeFirst := MustWake(task.after, task.wake);
      var t := if wakeFirst then StartWake(Started(s, task)) else Started(s, task);
      Enqueue(t, Entry(id, task.wake, wakeFirst, task.callback))
  }

  function SpawnAll(s: State, tasks: seq<NewTask>): State
    decreases tasks, 0
  {
    if tasks == [] then s else SpawnAll(Start(s, tasks[0]), tasks[1..])
  }

  // StartWake is start_new_task on a wake task: the recursion goes one level deep.
  lemma WakeRecursionIsOneDeep(s: State, ncp: Ncp)
    requires ncp.Asleep?
    ensures Start(s, WakeTask(ncp)) == StartWake(s)
  {
    assert SpawnAll(Create(s), []) == Create(s);
  }

  // The front task takes one event and perhaps finishes.
  function Handle(s: State, r: Reaction): State
    requires s.queue != []
  {
    var front := s.queue[0];
    var delivered := s.(log := s.log + [Delivered(s.popped)]);
    FinishIf(SpawnAll(delivered, r.spawned), front.id, r.finish, front.callback)
  }

  // The front task takes one event.
  function Deliver(s: State, r: Reaction): State
    requires s.queue != []
  {
    SpawnAll(Handle(s, r), r.later)
  }

  function Unlink(s: State): State
    requires s.queue != []
  {
    s.(queue := s.queue[1..], popped := s.popped + 1)
  }

  function Pop(s: State): State
    requires s.queue != []
  {
    Destroy(Unlink(s), s.queue[0].id, s.queue[0].callback)
  }

  /* The invariant. `held` are the tasks in the hands of code that is still running:
     neither queued nor destroyed. */

  function Calls(log: seq<Event>, id: nat): nat {
    if log == [] then 0
    else
      var last := log[|log| - 1];
      Calls(log[..|log| - 1], id) + if last.Called? && last.id == id then 1 else 0
  }

  lemma CallsSnoc(log: seq<Event>, e: Event, id: nat)
    ensures Calls(log + [e], id) == Calls(log, id) + if e.Called? && e.id == id then 1 else 0
  {
    assert (log + [e])[..|log|] == log;
  }

  // A callback has been called once if it is no longer installed, and otherwise not at all.
  ghost predicate CallsOk(s: State) {
    && (forall id: nat :: id in s.life <==> id < s.nextId)
    && (forall id: nat :: Calls(s.log, id) == if id in s.life && !s.life[id].Waiting? then 1 else 0)
  }

  ghost predicate QueueOk(s: State) {
    && s.popped <= |s.enqueued|
    && s.queue == s.enqueued[s.popped..]
    && forall i :: 0 <= i < |s.enqueued| && s.enqueued[i].wakeFirst ==> i > 0 && s.enqueued[i - 1].wake
  }

  ghost predicate Distinct(entries: seq<Entry>) {
    forall i, j :: 0 <= i < j < |entries| ==> entries[i].id != entries[j].id
  }

  ghost predicate NeverQueued(s: State, id: nat) {
    forall i :: 0 <= i < |s.enqueued| ==> s.enqueued[i].id != id
  }

  ghost predicate InQueue(s: State, id: nat) {
    exists i :: 0 <= i < |s.queue| && s.queue[i].id == id
  }

  // Every live task is owned by the queue or by running code, and by only one of them.
  ghost predicate OwnersOk(s: State, held: set<nat>) {
    && Distinct(s.enqueued)
    && (forall i :: 0 <= i < |s.enqueued| ==> s.enqueued[i].id in s.life)
    && (forall i :: 0 <= i < |s.queue| ==> s.queue[i].id !in held)
    && (forall id :: id in held ==> id in s.life)
    && (forall id :: id in s.life ==> (s.life[id].Destroyed? <==> !InQueue(s, id) && id !in held))
  }

  // Events go to positions of the order of queueing, never backwards.
  ghost predicate DeliveriesOk(s: State) {
    && (forall i :: 0 <= i < |s.log| && s.log[i].Delivered? ==> s.log[i].position <= s.popped)
    && (forall i, j :: 0 <= i < j < |s.log| && s.log[i].Delivered? && s.log[j].Delivered?
          ==> s.log[i].position <= s.log[j].position)
  }

  ghost predicate Inv(s: State, held: set<nat>) {
    CallsOk(s) && QueueOk(s) && OwnersOk(s, held) && DeliveriesOk(s)
  }

  /* What code running under start_new_task leaves alone. */

  ghost predicate Grows(s: State, t: State) {
    && s.queue <= t.queue
    && s.enqueued <= t.enqueued
    && s.popped == t.popped
    && s.nextId <= t.nextId
    && s.log <= t.log
    && (forall i :: |s.enqueued| <= i < |t.enqueued| ==> t.enqueued[i].id >= s.nextId)
    && (forall id :: id in s.life && id < s.nextId ==> id in t.life && t.life[id] == s.life[id])
  }

  // The same state with the callback of `id` gone.
  function Settled(s: State, id: nat): State
    requires id in s.life
  {
    if s.life[id].Waiting? then s.(life := s.life[id := Finished]) else s
  }

  lemma {:induction false} SpawnGrows(s: State, tasks: seq<NewTask>)
    ensures Grows(s, SpawnAll(s, tasks))
    decreases tasks, 0
  {
    if tasks != [] {
      StartGrows(s, tasks[0]);
      SpawnGrows(Start(s, tasks[0]), tasks[1..]);
    }
  }

  lemma {:induction false} FinishGrows(s: State, id: nat, status: Status, callback: seq<NewTask>)
    requires id in s.life && id < s.nextId
    ensures Grows(Settled(s, id), Finish(s, id, status, callback))
    ensures s.life[id].Waiting? ==>
      && s.log < Finish(s, id, status, callback).log
      && Finish(s, id, status, callback).log[|s.log|] == Called(id, status)
    decreases callback, 1
  {
    if s.life[id].Waiting? {
      SpawnGrows(Call(s, id, status), callback);
    }
  }

  lemma {:induction false} DestroyGrows(s: State, id: nat, callback: seq<NewTask>)
    requires id in s.life && id < s.nextId
    ensures Grows(Mark(s, id), Destroy(s, id, callback))
    decreases callback, 2
  {
    FinishGrows(s, id, CANCELED, callback);
  }

  lemma {:induction false} StartedGrows(s: State, task: NewTask)
    ensures Grows(s, Started(s, task))
    ensures NeverQueued(s, s.nextId) ==> NeverQueued(Started(s, task), s.nextId)
    ensures var t := Started(s, task); s.nextId < t.nextId && s.nextId in t.life && !t.life[s.nextId].Destroyed?
    decreases task, 1
  {
    FinishingGrows(s, task);
    SpawnGrows(Finishing(s, task), task.starting.later);
  }

  lemma {:induction false} FinishingGrows(s: State, task: NewTask)
    ensures Grows(s, Finishing(s, task))
    ensures NeverQueued(s, s.nextId) ==> NeverQueued(Finishing(s, task), s.nextId)
    ensures var t := Finishing(s, task); s.nextId < t.nextId && s.nextId in t.life && !t.life[s.nextId].Destroyed?
    ensures task.starting.finish.None? ==> Finishing(s, task).life[s.nextId].Waiting?
    decreases task, 0
  {
    var t := SpawnAll(Create(s), task.starting.spawned);
    SpawnGrows(Create(s), task.starting.spawned);
    assert t.life[s.nextId] == Waiting;
    if task.starting.finish.Some? {
      FinishGrows(t, s.nextId, task.starting.finish.value, task.callback);
    }
  }

  lemma {:induction false} StartGrows(s: State, task: NewTask)
    ensures Grows(s, Start(s, task))
    decreases task, 2
  {
    var id := s.nextId;
    if task.before.Detached? {
      FinishGrows(Create(s), id, INVALID_WHEN_DISABLED, task.callback);
      DestroyGrows(Finish(Create(s), id, INVALID_WHEN_DISABLED, task.callback), id, task.callback);
    } else {
      StartedGrows(s, task);
      if task.starting.ended { DestroyGrows(Started(s, task), id, task.callback); }
    }
  }

  /* The invariant is kept. */

  lemma CreateKeeps(s: State, held: set<nat>)
    requires Inv(s, held)
    ensures Inv(Create(s), held + {s.nextId})
  {
    var t := Create(s);
    forall id | id in t.life ensures t.life[id].Destroyed? <==> !InQueue(t, id) && id !in held + {s.nextId} {
      assert InQueue(t, id) == InQueue(s, id);
    }
  }

  lemma CallKeeps(s: State, id: nat, status: Status, held: set<nat>)
    requires Inv(s, held)
    requires id in s.life && s.life[id].Waiting?
    ensures Inv(Call(s, id, status), held)
  {
    var t := Call(s, id, status);
    forall other: nat ensures Calls(t.log, other) == if other in t.life && !t.life[other].Waiting? then 1 else 0 {
      CallsSnoc(s.log, Called(id, status), other);
    }
    forall other | other in t.life ensures t.life[other].Destroyed? <==> !InQueue(t, other) && other !in held {
      assert InQueue(t, other) == InQueue(s, other);
    }
  }

  lemma MarkKeeps(s: State, id: nat, held: set<nat>)
    requires Inv(s, held)
    requires id in held && s.life[id].Finished?
    ensures Inv(Mark(s, id), held - {id})
  {
    var t := Mark(s, id);
    forall other | other in t.life ensures t.life[other].Destroyed? <==> !InQueue(t, other) && other !in held - {id} {
      assert InQueue(t, other) == InQueue(s, other);
    }
  }

  lemma EnqueueOwners(s: State, e: Entry, held: set<nat>)
    requires OwnersOk(s, held)
    requires e.id in held && NeverQueued(s, e.id)
    ensures OwnersOk(Enqueue(s, e), held - {e.id})
  {
    var t := Enqueue(s, e);
    forall id | id in t.life ensures t.life[id].Destroyed? <==> !InQueue(t, id) && id !in held - {e.id} {
      EnqueueInQueue(s, e, id);
    }
  }

  lemma EnqueueInQueue(s: State, e: Entry, id: nat)
    ensures InQueue(Enqueue(s, e), id) <==> InQueue(s, id) || id == e.id
  {
    var t := Enqueue(s, e);
    assert t.queue[|s.queue|] == e;
    if InQueue(s, id) {
      var i :| 0 <= i < |s.queue| && s.queue[i].id == id;
      assert t.queue[i].id == id;
    }
  }

  lemma EnqueueKeeps(s: State, e: Entry, held: set<nat>)
    requires Inv(s, held)
    requires e.id in held && NeverQueued(s, e.id)
    requires e.wakeFirst ==> s.enqueued != [] && s.enqueued[|s.enqueued| - 1].wake
    ensures Inv(Enqueue(s, e), held - {e.id})
  {
    EnqueueOwners(s, e, held);
    EnqueueQueue(s, e);
    assert CallsOk(Enqueue(s, e));
  }

  lemma EnqueueQueue(s: State, e: Entry)
    requires QueueOk(s)
    requires e.wakeFirst ==> s.enqueued != [] && s.enqueued[|s.enqueued| - 1].wake
    ensures QueueOk(Enqueue(s, e))
  {
    assert Enqueue(s, e).queue == Enqueue(s, e).enqueued[s.popped..];
  }

  lemma {:induction false} SpawnKeeps(s: State, tasks: seq<NewTask>, held: set<nat>)
    requires Inv(s, held)
    ensures Inv(SpawnAll(s, tasks), held)
    decreases tasks, 0
  {
    if tasks != [] {
      StartKeeps(s, tasks[0], held);
      SpawnKeeps(Start(s, tasks[0]), tasks[1..], held);
    }
  }

  lemma {:induction false} FinishKeeps(s: State, id: nat, status: Status, callback: seq<NewTask>, held: set<nat>)
    requires Inv(s, held)
    requires id in s.life
    ensures Inv(Finish(s, id, status, callback), held)
    decreases callback, 1
  {
    if s.life[id].Waiting? {
      CallKeeps(s, id, status, held);
      SpawnKeeps(Call(s, id, status), callback, held);
    }
  }

  lemma {:induction false} DestroyKeeps(s: State, id: nat, callback: seq<NewTask>, held: set<nat>)
    requires Inv(s, held)
    requires id in held && id in s.life && id < s.nextId && !s.life[id].Destroyed?
    ensures Inv(Destroy(s, id, callback), held - {id})
    decreases callback, 2
  {
    FinishKeeps(s, id, CANCELED, callback, held);
    FinishGrows(s, id, CANCELED, callback);
    MarkKeeps(Finish(s, id, CANCELED, callback), id, held);
  }

  lemma {:induction false} StartedKeeps(s: State, task: NewTask, held: set<nat>)
    requires Inv(s, held)
    ensures Inv(Started(s, task), held + {s.nextId})
    decreases task, 1
  {
    FinishingKeeps(s, task, held);
    SpawnKeeps(Finishing(s, task), task.starting.later, held + {s.nextId});
  }

  lemma {:induction false} FinishingKeeps(s: State, task: NewTask, held: set<nat>)
    requires Inv(s, held)
    ensures Inv(Finishing(s, task), held + {s.nextId})
    decreases task, 0
  {
    var id := s.nextId;
    CreateKeeps(s, held);
    SpawnKeeps(Create(s), task.starting.spawned, held + {id});
    SpawnGrows(Create(s), task.starting.spawned);
    if task.starting.finish.Some? {
      var spawned := SpawnAll(Create(s), task.starting.spawned);
      FinishKeeps(spawned, id, task.starting.finish.value, task.callback, held + {id});
    }
  }

  lemma StartWakeKeeps(s: State, held: set<nat>)
    requires Inv(s, held) && s.nextId !in held
    ensures Inv(StartWake(s), held)
  {
    CreateKeeps(s, held);
    EnqueueKeeps(Create(s), Entry(s.nextId, true, false, []), held + {s.nextId});
    assert held + {s.nextId} - {s.nextId} == held;
  }

  lemma QueueKeeps(s: State, e: Entry, held: set<nat>)
    requires Inv(s, held) && s.nextId !in held
    requires e.id in held && NeverQueued(s, e.id)
    ensures Inv(Enqueue(if e.wakeFirst then StartWake(s) else s, e), held - {e.id})
  {
    if e.wakeFirst { StartWakeKeeps(s, held); }
    EnqueueKeeps(if e.wakeFirst then StartWake(s) else s, e, held);
  }

  lemma {:induction false} RefuseKeeps(s: State, task: NewTask, held: set<nat>)
    requires Inv(s, held) && s.nextId !in held
    requires task.before.Detached?
    ensures Inv(Start(s, task), held)
    decreases task, 1
  {
    var id := s.nextId;
    CreateKeeps(s, held);
    var t := Finish(Create(s), id, INVALID_WHEN_DISABLED, task.callback);
    FinishKeeps(Create(s), id, INVALID_WHEN_DISABLED, task.callback, held + {id});
    FinishGrows(Create(s), id, INVALID_WHEN_DISABLED, task.callback);
    DestroyKeeps(t, id, task.callback, held + {id});
    assert held + {id} - {id} == held;
  }

  lemma {:induction false} StartKeeps(s: State, task: NewTask, held: set<nat>)
    requires Inv(s, held)
    ensures Inv(Start(s, task), held)
    decreases task, 2
  {
    var id := s.nextId;
    assert id !in held;
    if task.before.Detached? {
      RefuseKeeps(s, task, held);
    } else {
      StartedKeeps(s, task, held);
      StartedGrows(s, task);
      var t := Started(s, task);
      assert held + {id} - {id} == held;
      if task.starting.ended {
        DestroyKeeps(t, id, task.callback, held + {id});
      } else {
        QueueKeeps(t, Entry(id, task.wake, MustWake(task.after, task.wake), task.callback), held + {id});
      }
    }
  }

  /* The front task: events, removal and reset. */

  lemma DeliverKeeps(s: State, r: Reaction)
    requires Inv(s, {}) && s.queue != []
    ensures Inv(Deliver(s, r), {})
    ensures Deliver(s, r).queue != [] && Deliver(s, r).queue[0] == s.queue[0]
  {
    HandleKeeps(s, r);
    HandleGrows(s, r);
    SpawnKeeps(Handle(s, r), r.later, {});
    SpawnGrows(Handle(s, r), r.later);
  }

  lemma HandleKeeps(s: State, r: Reaction)
    requires Inv(s, {}) && s.queue != []
    ensures Inv(Handle(s, r), {})
  {
    var front := s.queue[0];
    var d := s.(log := s.log + [Delivered(s.popped)]);
    DeliveredKeeps(s);
    SpawnKeeps(d, r.spawned, {});
    SpawnGrows(d, r.spawned);
    if r.finish.Some? {
      FinishKeeps(SpawnAll(d, r.spawned), front.id, r.finish.value, front.callback, {});
    }
  }

  lemma HandleGrows(s: State, r: Reaction)
    requires Inv(s, {}) && s.queue != []
    ensures s.queue <= Handle(s, r).queue && Handle(s, r).popped == s.popped
    ensures s.log + [Delivered(s.popped)] <= Handle(s, r).log
  {
    var front := s.queue[0];
    var d := s.(log := s.log + [Delivered(s.popped)]);
    SpawnGrows(d, r.spawned);
    if r.finish.Some? { FinishGrows(SpawnAll(d, r.spawned), front.id, r.finish.value, front.callback); }
  }

  lemma DeliveredKeeps(s: State)
    requires Inv(s, {})
    ensures Inv(s.(log := s.log + [Delivered(s.popped)]), {})
  {
    var t := s.(log := s.log + [Delivered(s.popped)]);
    forall id: nat ensures Calls(t.log, id) == Calls(s.log, id) {
      CallsSnoc(s.log, Delivered(s.popped), id);
    }
    assert forall id :: InQueue(t, id) == InQueue(s, id);
  }

  lemma UnlinkKeeps(s: State)
    requires Inv(s, {}) && s.queue != []
    ensures Inv(Unlink(s), {s.queue[0].id})
    ensures s.queue[0].id in s.life && !s.life[s.queue[0].id].Destroyed?
  {
    var t, id := Unlink(s), s.queue[0].id;
    assert s.queue[0] == s.enqueued[s.popped];
    assert t.queue == t.enqueued[t.popped..];
    assert InQueue(s, id);
    forall other | other in t.life ensures InQueue(s, other) <==> InQueue(t, other) || other == id {
      if InQueue(t, other) {
        var i :| 0 <= i < |t.queue| && t.queue[i].id == other;
        assert s.queue[i + 1].id == other;
      }
    }
    assert id != s.nextId;
  }

  lemma PopKeeps(s: State)
    requires Inv(s, {}) && s.queue != []
    ensures Inv(Pop(s), {})
  {
    var front := s.queue[0];
    UnlinkKeeps(s);
    DestroyKeeps(Unlink(s), front.id, front.callback, {front.id});
    assert {front.id} - {front.id} == {};
  }

  // The loop at the head of vprocess_event: a task that ends makes room for the next one, which
  // gets the same event. `reactions` are the reactions of the tasks that get it.
  function Drain(s: State, reactions: seq<Reaction>): State
    decreases |reactions|
  {
    if s.queue == [] || reactions == [] then s
    else
      var t := Deliver(s, reactions[0]);
      if reactions[0].ended && t.queue != [] then Drain(Pop(t), reactions[1..]) else t
  }

  lemma {:induction false} DrainKeeps(s: State, reactions: seq<Reaction>)
    requires Inv(s, {})
    ensures Inv(Drain(s, reactions), {})
    decreases |reactions|
  {
    if s.queue != [] && reactions != [] {
      DeliverKeeps(s, reactions[0]);
      if reactions[0].ended {
        PopKeeps(Deliver(s, reactions[0]));
        DrainKeeps(Pop(Deliver(s, reactions[0])), reactions[1..]);
      }
    }
  }

  /* reset_tasks goes on until the queue is empty, while the callbacks it calls may add to the
     queue. Here it ends, because tasks are nested finitely deep and those still to come get
     lighter; when it ends in general is the subject of ResetLoop. */

  function Weight(tasks: seq<NewTask>): nat
    decreases tasks, 0
  {
    if tasks == [] then 0 else TaskWeight(tasks[0]) + Weight(tasks[1..])
  }

  function TaskWeight(task: NewTask): nat
    decreases task, 1
  {
    2 + Weight(task.starting.spawned) + Weight(task.starting.later) + 3 * Weight(task.callback)
  }

  function QueueWeight(queue: seq<Entry>): nat {
    if queue == [] then 0
    else QueueWeight(queue[..|queue| - 1]) + 1 + 2 * Weight(queue[|queue| - 1].callback)
  }

  lemma EnqueueWeight(s: State, e: Entry)
    ensures QueueWeight(Enqueue(s, e).queue) == QueueWeight(s.queue) + 1 + 2 * Weight(e.callback)
  {
    assert Enqueue(s, e).queue[..|s.queue|] == s.queue;
  }

  lemma {:induction false} FrontWeight(queue: seq<Entry>)
    requires queue != []
    ensures QueueWeight(queue) == 1 + 2 * Weight(queue[0].callback) + QueueWeight(queue[1..])
  {
    if |queue| > 1 {
      FrontWeight(queue[..|queue| - 1]);
      assert queue[1..][..|queue| - 2] == queue[..|queue| - 1][1..];
    }
  }

  lemma {:induction false} SpawnWeight(s: State, tasks: seq<NewTask>)
    ensures QueueWeight(SpawnAll(s, tasks).queue) <= QueueWeight(s.queue) + Weight(tasks)
    decreases tasks, 0
  {
    if tasks != [] {
      StartWeight(s, tasks[0]);
      SpawnWeight(Start(s, tasks[0]), tasks[1..]);
    }
  }

  lemma {:induction false} FinishWeight(s: State, id: nat, status: Status, callback: seq<NewTask>)
    ensures QueueWeight(Finish(s, id, status, callback).queue) <= QueueWeight(s.queue) + Weight(callback)
    decreases callback, 1
  {
    SpawnWeight(Call(s, id, status), callback);
  }

  lemma {:induction false} StartedWeight(s: State, task: NewTask)
    ensures QueueWeight(Started(s, task).queue)
         <= QueueWeight(s.queue) + Weight(task.starting.spawned) + Weight(task.callback) + Weight(task.starting.later)
    decreases task, 1
  {
    FinishingWeight(s, task);
    SpawnWeight(Finishing(s, task), task.starting.later);
  }

  lemma {:induction false} FinishingWeight(s: State, task: NewTask)
    ensures QueueWeight(Finishing(s, task).queue)
         <= QueueWeight(s.queue) + Weight(task.starting.spawned) + Weight(task.callback)
    decreases task, 0
  {
    var t := SpawnAll(Create(s), task.starting.spawned);
    SpawnWeight(Create(s), task.starting.spawned);
    if task.starting.finish.Some? {
      FinishWeight(t, s.nextId, task.starting.finish.value, task.callback);
    }
  }

  lemma StartQueueWeight(s: State, e: Entry)
    ensures QueueWeight(Enqueue(if e.wakeFirst then StartWake(s) else s, e).queue)
         <= QueueWeight(s.queue) + 2 + 2 * Weight(e.callback)
  {
    EnqueueWeight(Create(s), Entry(s.nextId, true, false, []));
    EnqueueWeight(if e.wakeFirst then StartWake(s) else s, e);
  }

  lemma {:induction false} StartWeight(s: State, task: NewTask)
    ensures QueueWeight(Start(s, task).queue) <= QueueWeight(s.queue) + TaskWeight(task)
    decreases task, 2
  {
    var id := s.nextId;
    if task.before.Detached? {
      FinishWeight(Create(s), id, INVALID_WHEN_DISABLED, task.callback);
      FinishWeight(Finish(Create(s), id, INVALID_WHEN_DISABLED, task.callback), id, CANCELED, task.callback);
    } else {
      StartedWeight(s, task);
      if task.starting.ended {
        FinishWeight(Started(s, task), id, CANCELED, task.callback);
      } else {
        StartQueueWeight(Started(s, task), Entry(id, task.wake, MustWake(task.after, task.wake), task.callback));
      }
    }
  }

  function ResetFront(s: State, status: Status): State
    requires s.queue != []
  {
    var t := Finish(s, s.queue[0].id, status, s.queue[0].callback);
    if t.queue == [] then t else Pop(t)
  }

  // The front task once it has finished: still at the front, without a callback.
  lemma FinishedFront(s: State, status: Status)
    requires Inv(s, {}) && s.queue != []
    ensures var t := Finish(s, s.queue[0].id, status, s.queue[0].callback);
      && Inv(t, {}) && t.queue != [] && t.queue[0] == s.queue[0]
      && s.queue[0].id in t.life && !t.life[s.queue[0].id].Waiting?
      && QueueWeight(t.queue) <= QueueWeight(s.queue) + Weight(s.queue[0].callback)
  {
    var front := s.queue[0];
    FinishKeeps(s, front.id, status, front.callback, {});
    FinishGrows(s, front.id, status, front.callback);
    FinishWeight(s, front.id, status, front.callback);
  }

  lemma PopFinished(t: State)
    requires Inv(t, {}) && t.queue != [] && t.queue[0].id in t.life && !t.life[t.queue[0].id].Waiting?
    ensures Pop(t).queue == t.queue[1..]
  {
    var front := t.queue[0];
    assert Finish(Unlink(t), front.id, CANCELED, front.callback) == Unlink(t);
  }

  lemma ResetFrontLighter(s: State, status: Status)
    requires Inv(s, {}) && s.queue != []
    ensures QueueWeight(ResetFront(s, status).queue) < QueueWeight(s.queue)
    ensures Inv(ResetFront(s, status), {})
  {
    var t := Finish(s, s.queue[0].id, status, s.queue[0].callback);
    FinishedFront(s, status);
    PopKeeps(t);
    PopFinished(t);
    FrontWeight(t.queue);
  }

  // reset_tasks: the queue ends up empty whatever tasks, nested finitely deep, the callbacks start.
  ghost function ResetAll(s: State, status: Status): (t: State)
    requires Inv(s, {})
    ensures Inv(t, {}) && t.queue == []
    decreases QueueWeight(s.queue)
  {
    if s.queue == [] then s
    else
      ResetFrontLighter(s, status);
      ResetAll(ResetFront(s, status), status)
  }

  /* Whole runs. */

  datatype Step =
    | StartTask(task: NewTask)
    | ProcessEvent(fault: bool, reactions: seq<Reaction>)
    | ResetTasks(status: Status)

  ghost function Apply(s: State, step: Step): (t: State)
    requires Inv(s, {})
    ensures Inv(t, {})
  {
    match step
    case StartTask(task) => StartKeeps(s, task, {}); Start(s, task)
    case ProcessEvent(fault, reactions) =>
      if fault then s else DrainKeeps(s, reactions); Drain(s, reactions)
    case ResetTasks(status) => ResetAll(s, status)
  }

  ghost function Run(steps: seq<Step>): (s: State)
    ensures Inv(s, {})
  {
    if steps == [] then EmptyOk(); EMPTY
    else Apply(Run(steps[..|steps| - 1]), steps[|steps| - 1])
  }

  lemma EmptyOk()
    ensures Inv(EMPTY, {})
  {
  }

  // In every run a task's callback is called at most once; it has been called exactly once when
  // it is destroyed; and every task that is not in the queue is destroyed.
  lemma CallbackExactlyOnce(steps: seq<Step>, id: nat)
    requires id < Run(steps).nextId
    ensures var s := Run(steps);
      && Calls(s.log, id) <= 1
      && (s.life[id].Destroyed? ==> Calls(s.log, id) == 1)
      && (Calls(s.log, id) == 0 ==> InQueue(s, id))
      && (s.life[id].Destroyed? <==> !InQueue(s, id))
  {
    assert CallsOk(Run(steps));
  }

  // After a reset every task ever handed over has had its callback called exactly once.
  lemma ResetSettlesAll(steps: seq<Step>, status: Status, id: nat)
    requires id < Run(steps + [ResetTasks(status)]).nextId
    ensures Calls(Run(steps + [ResetTasks(status)]).log, id) == 1
  {
    var all := steps + [ResetTasks(status)];
    assert all[..|all| - 1] == steps;
    CallbackExactlyOnce(all, id);
  }

  // Events reach the tasks in the order in which they were queued: never going back, and a task
  // gets one only when every task queued before it has been destroyed.
  lemma EventsInQueueOrder(steps: seq<Step>, i: int, j: int)
    requires 0 <= i <= j < |Run(steps).log|
    requires Run(steps).log[i].Delivered? && Run(steps).log[j].Delivered?
    ensures var s := Run(steps);
      && s.log[i].position <= s.log[j].position <= |s.enqueued|
      && forall k :: 0 <= k < s.log[j].position ==> s.life[s.enqueued[k].id].Destroyed?
  {
    PoppedAreDestroyed(Run(steps));
  }

  lemma PoppedAreDestroyed(s: State)
    requires QueueOk(s) && OwnersOk(s, {})
    ensures forall k :: 0 <= k < s.popped ==> s.life[s.enqueued[k].id].Destroyed?
  {
    assert forall q :: 0 <= q < |s.queue| ==> s.queue[q] == s.enqueued[s.popped + q];
    assert forall k :: 0 <= k < s.popped ==> !InQueue(s, s.enqueued[k].id);
  }

  lemma RunStart(steps: seq<Step>, task: NewTask)
    ensures Run(steps + [StartTask(task)]) == Start(Run(steps), task)
  {
    var all := steps + [StartTask(task)];
    assert all[..|all| - 1] == steps;
  }

  // In every run, a task that is not a wake task and is queued while the NCP sleeps and can be woken
  // joins the queue with a new wake task right before it, behind all that was there.
  lemma SleepingTaskIsPrecededByWake(steps: seq<Step>, task: NewTask)
    requires !task.before.Detached? && !task.starting.ended && task.after == Asleep(true) && !task.wake
    ensures var s, t := Run(steps), Run(steps + [StartTask(task)]);
      && s.queue <= t.queue && |t.queue| >= |s.queue| + 2
      && t.queue[|t.queue| - 1].id == s.nextId
      && t.queue[|t.queue| - 2].wake && t.queue[|t.queue| - 2].id !in s.life
      && t.queue[..|t.queue| - 2] == Started(s, task).queue
  {
    RunStart(steps, task);
    assert CallsOk(Run(steps));
    JoinsBehindWake(Run(steps), task);
  }

  lemma JoinsBehindWake(s: State, task: NewTask)
    requires !task.before.Detached? && !task.starting.ended && task.after == Asleep(true) && !task.wake
    requires CallsOk(s)
    ensures var t := Start(s, task);
      && s.queue <= t.queue && |t.queue| >= |s.queue| + 2
      && t.queue[|t.queue| - 1].id == s.nextId
      && t.queue[|t.queue| - 2].wake && t.queue[|t.queue| - 2].id !in s.life
      && t.queue[..|t.queue| - 2] == Started(s, task).queue
  {
    StartedGrows(s, task);
  }

  // In every run, a wake task, or a task queued while the NCP is not asleep or cannot be woken, joins
  // the queue alone: one entry, right behind those of the tasks that its own start has queued.
  lemma OtherTaskJoinsAlone(steps: seq<Step>, task: NewTask)
    requires !task.before.Detached? && !task.starting.ended
    requires task.wake || task.after in {Detached, Awake, Asleep(false)}
    ensures var s, t := Run(steps), Run(steps + [StartTask(task)]);
      && s.queue <= t.queue && |t.queue| >= |s.queue| + 1
      && t.queue[|t.queue| - 1].id == s.nextId && t.queue[|t.queue| - 1].wake == task.wake
      && t.queue[..|t.queue| - 1] == Started(s, task).queue
  {
    RunStart(steps, task);
    StartedGrows(Run(steps), task);
  }

  lemma QuietStart(s: State, task: NewTask)
    requires task.starting == Reaction([], None, [], false)
    ensures Started(s, task) == Create(s)
  {
    assert Finishing(s, task) == Create(s) by { SpawnNothing(Create(s), task.starting.spawned); }
    SpawnNothing(Create(s), task.starting.later);
  }

  lemma SpawnNothing(s: State, tasks: seq<NewTask>)
    requires tasks == []
    ensures SpawnAll(s, tasks) == s
  {}

  // A task whose start does no more than wait, in figures: it is queued alone or behind a wake task.
  lemma QuietStartQueues(s: State, task: NewTask)
    requires !task.before.Detached? && task.starting == Reaction([], None, [], false)
    ensures var t, wakes := Start(s, task), task.after == Asleep(true) && !task.wake;
      && t.log == s.log
      && t.queue == s.queue
           + (if wakes then [Entry(s.nextId + 1, true, false, [])] else [])
           + [Entry(s.nextId, task.wake, wakes, task.callback)]
  {
    QuietStart(s, task);
    if !(task.after == Asleep(true) && !task.wake) { assert s.queue + [] == s.queue; }
  }

  lemma FinishingReports(s: State, task: NewTask)
    requires task.starting.finish.Some?
    ensures Called(s.nextId, task.starting.finish.value) in Finishing(s, task).log
  {
    var t, status := SpawnAll(Create(s), task.starting.spawned), task.starting.finish.value;
    SpawnGrows(Create(s), task.starting.spawned);
    assert t.life[s.nextId].Waiting?;
    FinishGrows(t, s.nextId, status, task.callback);
  }

  lemma StaysLogged(s: State, t: State, e: Event)
    requires e in s.log && s.log <= t.log
    ensures e in t.log
  {
    var i :| 0 <= i < |s.log| && s.log[i] == e;
    assert t.log[i] == e;
  }

  // In every run, a task that finishes on its starting event is told the status that it finished with.
  lemma FinishAtStartIsReported(steps: seq<Step>, task: NewTask)
    requires !task.before.Detached? && task.starting.finish.Some?
    ensures var s, t := Run(steps), Run(steps + [StartTask(task)]);
      Called(s.nextId, task.starting.finish.value) in t.log
  {
    RunStart(steps, task);
    StartReports(Run(steps), task);
  }

  lemma StartReports(s: State, task: NewTask)
    requires !task.before.Detached? && task.starting.finish.Some?
    ensures Called(s.nextId, task.starting.finish.value) in Start(s, task).log
  {
    FinishingReports(s, task);
    SpawnGrows(Finishing(s, task), task.starting.later);
    StaysLogged(Finishing(s, task), Started(s, task), Called(s.nextId, task.starting.finish.value));
    StartedGrows(s, task);
    if task.starting.ended { DestroyGrows(Started(s, task), s.nextId, task.callback); }
    StaysLogged(Started(s, task), Start(s, task), Called(s.nextId, task.starting.finish.value));
  }

  // The pair stays together: in every run such a task is at the front, its wake task having been
  // destroyed, or still has a wake task right before it.
  lemma WakeStaysInFront(steps: seq<Step>, i: nat)
    requires i < |Run(steps).queue| && Run(steps).queue[i].wakeFirst
    ensures i == 0 || Run(steps).queue[i - 1].wake
  {
    WakeBefore(Run(steps), i);
  }

  lemma WakeBefore(s: State, i: nat)
    requires QueueOk(s) && i < |s.queue| && s.queue[i].wakeFirst
    ensures i == 0 || s.queue[i - 1].wake
  {
    assert s.queue[i] == s.enqueued[s.popped + i];
    if i > 0 { assert s.queue[i - 1] == s.enqueued[s.popped + i - 1]; }
  }

  // A task refused because the NCP is detached is told so, and is not queued.
  lemma DetachedIsRefused(s: State, task: NewTask)
    requires Inv(s, {}) && task.before.Detached?
    ensures var t := Start(s, task);
      && s.log < t.log && t.log[|s.log|] == Called(s.nextId, 3)
      && s.nextId in t.life && t.life[s.nextId].Destroyed? && !InQueue(t, s.nextId)
  {
    FinishGrows(Create(s), s.nextId, INVALID_WHEN_DISABLED, task.callback);
    var t := Finish(Create(s), s.nextId, INVALID_WHEN_DISABLED, task.callback);
    DestroyGrows(t, s.nextId, task.callback);
    StartKeeps(s, task, {});
  }

  // A task that ends on the starting event without having finished is told that it is canceled.
  lemma EndedAtOnceIsCanceled(s: State, task: NewTask)
    requires !task.before.Detached? && task.starting.ended && task.starting.finish.None?
    ensures Called(s.nextId, 11) in Start(s, task).log
  {
    var t := Started(s, task);
    FinishingGrows(s, task);
    SpawnGrows(Finishing(s, task), task.starting.later);
    assert t.life[s.nextId].Waiting?;
    FinishGrows(t, s.nextId, CANCELED, task.callback);
    assert Start(s, task).log == Finish(t, s.nextId, CANCELED, task.callback).log;
    assert Start(s, task).log[|t.log|] == Called(s.nextId, CANCELED);
  }

  // The front task finishes with the status it says, while it still has its callback.
  lemma FinishIsReported(s: State, r: Reaction)
    requires Inv(s, {}) && s.queue != [] && r.finish.Some? && s.life[s.queue[0].id].Waiting?
    ensures Called(s.queue[0].id, r.finish.value) in Deliver(s, r).log
  {
    var front := s.queue[0];
    var d := s.(log := s.log + [Delivered(s.popped)]);
    SpawnGrows(d, r.spawned);
    var t := SpawnAll(d, r.spawned);
    FinishGrows(t, front.id, r.finish.value, front.callback);
    SpawnGrows(Handle(s, r), r.later);
    assert Deliver(s, r).log[|t.log|] == Called(front.id, r.finish.value);
  }

  // The front task that ends without ever having finished is told that it is canceled.
  lemma EndedIsCanceled(s: State)
    requires Inv(s, {}) && s.queue != [] && s.life[s.queue[0].id].Waiting?
    ensures s.log < Pop(s).log && Pop(s).log[|s.log|] == Called(s.queue[0].id, 11)
  {
    var front := s.queue[0];
    assert front == s.enqueued[s.popped];
    FinishGrows(Unlink(s), front.id, CANCELED, front.callback);
  }

  lemma PopGrows(s: State)
    requires Inv(s, {}) && s.queue != []
    ensures s.queue[1..] <= Pop(s).queue && Pop(s).popped == s.popped + 1
  {
    DestroyGrows(Unlink(s), s.queue[0].id, s.queue[0].callback);
  }

  // A task that ends hands the queue on.
  lemma DrainStep(s: State, r: Reaction, n: nat)
    requires Inv(s, {}) && 0 < n < |s.queue|
    ensures Deliver(s, r).queue != []
    ensures var t := Pop(Deliver(s, r));
      Inv(t, {}) && t.popped == s.popped + 1 && n <= |t.queue| && t.queue[n - 1] == s.queue[n]
  {
    var d := Deliver(s, r);
    DeliverKeeps(s, r);
    DeliverGrows(s, r);
    PopKeeps(d);
    PopGrows(d);
    assert Pop(d).queue[n - 1] == d.queue[1..][n - 1];
  }

  // An event goes on from task to task while they end, and stops at the first that does not.
  lemma {:induction false} DrainStopsAtFirstWaiting(s: State, reactions: seq<Reaction>, n: nat)
    requires Inv(s, {})
    requires n < |s.queue| && n < |reactions| && !reactions[n].ended
    requires forall i :: 0 <= i < n ==> reactions[i].ended
    ensures var t := Drain(s, reactions);
      t.popped == s.popped + n && t.queue != [] && t.queue[0] == s.queue[n]
    decreases n
  {
    if n == 0 {
      DeliverGrows(s, reactions[0]);
    } else {
      DrainStep(s, reactions[0], n);
      DrainStopsAtFirstWaiting(Pop(Deliver(s, reactions[0])), reactions[1..], n - 1);
    }
  }

  lemma DeliverGrows(s: State, r: Reaction)
    requires Inv(s, {}) && s.queue != []
    ensures s.queue <= Deliver(s, r).queue && Deliver(s, r).popped == s.popped
  {
    HandleGrows(s, r);
    SpawnGrows(Handle(s, r), r.later);
  }

  lemma DeliverIsLogged(s: State, r: Reaction)
    requires Inv(s, {}) && s.queue != []
    ensures s.log + [Delivered(s.popped)] <= Deliver(s, r).log
  {
    HandleGrows(s, r);
    SpawnGrows(Handle(s, r), r.later);
  }

  lemma PopLogGrows(s: State)
    requires Inv(s, {}) && s.queue != []
    ensures s.log <= Pop(s).log
  {
    assert s.queue[0] == s.enqueued[s.popped];
    DestroyGrows(Unlink(s), s.queue[0].id, s.queue[0].callback);
  }

  lemma {:induction false} DrainLogGrows(s: State, reactions: seq<Reaction>)
    requires Inv(s, {})
    ensures s.log <= Drain(s, reactions).log
    decreases |reactions|
  {
    if s.queue != [] && reactions != [] {
      var d := Deliver(s, reactions[0]);
      DeliverIsLogged(s, reactions[0]);
      DeliverKeeps(s, reactions[0]);
      if reactions[0].ended && d.queue != [] {
        PopKeeps(d);
        PopLogGrows(d);
        DrainLogGrows(Pop(d), reactions[1..]);
      }
    }
  }

  lemma DrainDelivers(s: State, reactions: seq<Reaction>)
    requires Inv(s, {}) && s.queue != [] && reactions != []
    ensures Delivered(s.popped) in Drain(s, reactions).log
  {
    var d := Deliver(s, reactions[0]);
    DeliverIsLogged(s, reactions[0]);
    assert d.log[|s.log|] == Delivered(s.popped);
    DeliverKeeps(s, reactions[0]);
    if reactions[0].ended && d.queue != [] {
      PopKeeps(d);
      PopLogGrows(d);
      DrainLogGrows(Pop(d), reactions[1..]);
      StaysLogged(d, Pop(d), Delivered(s.popped));
      StaysLogged(Pop(d), Drain(s, reactions), Delivered(s.popped));
    }
  }

  lemma DrainOn(s: State, reactions: seq<Reaction>)
    requires s.queue != [] && reactions != [] && reactions[0].ended && Deliver(s, reactions[0]).queue != []
    ensures Drain(s, reactions) == Drain(Pop(Deliver(s, reactions[0])), reactions[1..])
  {
  }

  ghost predicate EndUpTo(reactions: seq<Reaction>, n: nat) {
    n < |reactions| && forall i :: 0 <= i < n ==> reactions[i].ended
  }

  // The front task gets every event, and so does each task that comes to the front because all those
  // before it end on it.
  lemma {:induction false} DrainReaches(s: State, reactions: seq<Reaction>, n: nat, e: Event)
    requires Inv(s, {}) && n < |s.queue| && EndUpTo(reactions, n) && e == Delivered(s.popped + n)
    ensures e in Drain(s, reactions).log
    decreases n
  {
    if n == 0 {
      DrainDelivers(s, reactions);
    } else {
      DrainStep(s, reactions[0], n);
      DrainOn(s, reactions);
      DrainReachesLater(s, Pop(Deliver(s, reactions[0])), reactions, n, e);
    }
  }

  lemma {:induction false} DrainReachesLater(s: State, t: State, reactions: seq<Reaction>, n: nat, e: Event)
    requires n > 0 && EndUpTo(reactions, n) && e == Delivered(t.popped + n - 1)
    requires Inv(t, {}) && n <= |t.queue| && Drain(s, reactions) == Drain(t, reactions[1..])
    ensures e in Drain(s, reactions).log
    decreases n, 0
  {
    DrainReaches(t, reactions[1..], n - 1, e);
  }

  // The same over every run, unless there is a fault, which makes an event go unnoticed.
  lemma EventReaches(steps: seq<Step>, reactions: seq<Reaction>, n: nat, s: State, t: State)
    requires s == Run(steps) && t == Run(steps + [ProcessEvent(false, reactions)])
    requires n < |s.queue| && EndUpTo(reactions, n)
    ensures Delivered(s.popped + n) in t.log
  {
    RunEvent(steps, false, reactions);
    DrainReaches(s, reactions, n, Delivered(s.popped + n));
  }

  lemma FaultStopsEvents(steps: seq<Step>, reactions: seq<Reaction>)
    ensures Run(steps + [ProcessEvent(true, reactions)]) == Run(steps)
  {
    RunEvent(steps, true, reactions);
  }

  lemma RunEvent(steps: seq<Step>, fault: bool, reactions: seq<Reaction>)
    ensures Run(steps + [ProcessEvent(fault, reactions)])
         == if fault then Run(steps) else Drain(Run(steps), reactions)
  {
    var all := steps + [ProcessEvent(fault, reactions)];
    assert all[..|all| - 1] == steps;
  }

  lemma ResetFrontEffect(s: State, status: Status)
    requires Inv(s, {}) && s.queue != []
    ensures var t := ResetFront(s, status);
      && s.log <= t.log
      && s.queue[1..] <= t.queue
      && (s.life[s.queue[0].id].Waiting? ==> Called(s.queue[0].id, status) in t.log)
  {
    var front := s.queue[0];
    var t := Finish(s, front.id, status, front.callback);
    FinishGrows(s, front.id, status, front.callback);
    DestroyGrows(Unlink(t), front.id, front.callback);
    assert Settled(s, front.id).queue[1..] <= Unlink(t).queue;
  }

  lemma ResetFrontSparesOthers(s: State, status: Status, i: nat)
    requires Inv(s, {}) && 0 < i < |s.queue|
    ensures var t := ResetFront(s, status);
      s.queue[i].id in t.life && t.life[s.queue[i].id] == s.life[s.queue[i].id]
  {
    var front, id := s.queue[0], s.queue[i].id;
    var t := Finish(s, front.id, status, front.callback);
    FinishGrows(s, front.id, status, front.callback);
    DestroyGrows(Unlink(t), front.id, front.callback);
    assert front == s.enqueued[s.popped] && s.queue[i] == s.enqueued[s.popped + i];
    assert id in s.life && id < s.nextId;
    assert t.life[id] == s.life[id];
  }

  lemma ResetAllStep(s: State, status: Status)
    requires Inv(s, {}) && s.queue != []
    ensures Inv(ResetFront(s, status), {}) && QueueWeight(ResetFront(s, status).queue) < QueueWeight(s.queue)
    ensures ResetAll(s, status) == ResetAll(ResetFront(s, status), status)
  {
    ResetFrontLighter(s, status);
  }

  lemma {:induction false} ResetLogGrows(s: State, status: Status)
    requires Inv(s, {})
    ensures s.log <= ResetAll(s, status).log
    decreases QueueWeight(s.queue)
  {
    if s.queue != [] {
      ResetAllStep(s, status);
      ResetFrontEffect(s, status);
      ResetLogGrows(ResetFront(s, status), status);
    }
  }

  lemma ResetMovesUp(s: State, status: Status, i: nat)
    requires Inv(s, {}) && 0 < i < |s.queue|
    ensures var t := ResetFront(s, status);
      i - 1 < |t.queue| && t.queue[i - 1] == s.queue[i]
      && s.queue[i].id in t.life && t.life[s.queue[i].id] == s.life[s.queue[i].id]
  {
    ResetFrontEffect(s, status);
    ResetFrontSparesOthers(s, status, i);
    assert ResetFront(s, status).queue[i - 1] == s.queue[1..][i - 1];
  }

  lemma ResetReportsFront(s: State, status: Status)
    requires Inv(s, {}) && s.queue != [] && s.life[s.queue[0].id].Waiting?
    ensures Called(s.queue[0].id, status) in ResetAll(s, status).log
  {
    ResetFrontEffect(s, status);
    ResetAllStep(s, status);
    ResetLogGrows(ResetFront(s, status), status);
    StaysLogged(ResetFront(s, status), ResetAll(s, status), Called(s.queue[0].id, status));
  }

  // Everyone still waiting in the queue is told the status of the reset.
  lemma {:induction false} ResetReports(s: State, status: Status, i: nat)
    requires Inv(s, {})
    requires i < |s.queue| && s.life[s.queue[i].id].Waiting?
    ensures Called(s.queue[i].id, status) in ResetAll(s, status).log
    decreases i
  {
    if i == 0 {
      ResetReportsFront(s, status);
    } else {
      ResetAllStep(s, status);
      ResetMovesUp(s, status, i);
      ResetReports(ResetFront(s, status), status, i - 1);
    }
  }

  /* The scheduler as the program has it: a list and a callback per task, changed in place. */

  class Scheduler {
    var queue: seq<Entry>
    var life: map<nat, Life>
    var nextId: nat
    ghost var enqueued: seq<Entry>
    ghost var popped: nat
    ghost var log: seq<Event>

    ghost function Abstract(): State
      reads this
    {
      State(queue, life, nextId, enqueued, popped, log)
    }

    constructor ()
      ensures Abstract() == EMPTY
    {
      queue, life, nextId, enqueued, popped, log := [], map[], 0, [], 0, [];
    }

    method FinishTask(id: nat, status: Status, callback: seq<NewTask>)
      modifies this
      ensures Abstract() == Finish(old(Abstract()), id, status, callback)
      decreases callback, 1
    {
      if id in life && life[id].Waiting? {
        log := log + [Called(id, status)];
        life := life[id := Finished];
        StartAll(callback);
      }
    }

    method DestroyTask(id: nat, callback: seq<NewTask>)
      modifies this
      ensures Abstract() == Destroy(old(Abstract()), id, callback)
      decreases callback, 2
    {
      FinishTask(id, CANCELED, callback);
      life := life[id := Destroyed];
    }

    method PushBack(e: Entry)
      modifies this
      ensures Abstract() == Enqueue(old(Abstract()), e)
    {
      queue, enqueued := queue + [e], enqueued + [e];
    }

    method StartNewTask(task: NewTask)
      modifies this
      ensures Abstract() == Start(old(Abstract()), task)
      decreases task, 2
    {
      var id := nextId;
      nextId, life := nextId + 1, life[id := Waiting];
      if task.before.Detached? {
        FinishTask(id, INVALID_WHEN_DISABLED, task.callback);
        DestroyTask(id, task.callback);
        return;
      }
      StartAll(task.starting.spawned);
      if task.starting.finish.Some? {
        FinishTask(id, task.starting.finish.value, task.callback);
      }
      assert Abstract() == Finishing(old(Abstract()), task);
      StartAll(task.starting.later);
      assert Abstract() == Started(old(Abstract()), task);
      if task.starting.ended {
        DestroyTask(id, task.callback);
        return;
      }
      if MustWake(task.after, task.wake) {
        var wakeId := nextId;
        nextId, life := nextId + 1, life[wakeId := Waiting];
        PushBack(Entry(wakeId, true, false, []));
        assert Abstract() == StartWake(Started(old(Abstract()), task));
      }
      PushBack(Entry(id, task.wake, MustWake(task.after, task.wake), task.callback));
    }

    method StartAll(tasks: seq<NewTask>)
      modifies this
      ensures Abstract() == SpawnAll(old(Abstract()), tasks)
      decreases tasks, 0
    {
      if tasks != [] {
        StartNewTask(tasks[0]);
        StartAll(tasks[1..]);
      }
    }

    method PopFront()
      requires queue != []
      modifies this
      ensures Abstract() == Pop(old(Abstract()))
    {
      var front := queue[0];
      queue, popped := queue[1..], popped + 1;
      DestroyTask(front.id, front.callback);
    }

    method DeliverToFront(r: Reaction)
      requires queue != []
      modifies this
      ensures Abstract() == Deliver(old(Abstract()), r)
    {
      var front := queue[0];
      log := log + [Delivered(popped)];
      StartAll(r.spawned);
      if r.finish.Some? {
        FinishTask(front.id, r.finish.value, front.callback);
      }
      StartAll(r.later);
    }

    method ProcessEvent(fault: bool, reactions: seq<Reaction>)
      requires Inv(Abstract(), {})
      modifies this
      ensures Abstract() == Apply(old(Abstract()), Step.ProcessEvent(fault, reactions))
    {
      if fault { return; }
      var k := 0;
      while queue != [] && k < |reactions|
        invariant k <= |reactions|
        invariant Inv(Abstract(), {})
        invariant Drain(Abstract(), reactions[k..]) == Drain(old(Abstract()), reactions)
        decreases |reactions| - k
      {
        assert reactions[k..][0] == reactions[k] && reactions[k..][1..] == reactions[k + 1..];
        DeliverKeeps(Abstract(), reactions[k]);
        DeliverToFront(reactions[k]);
        if !reactions[k].ended {
          return;
        }
        PopKeeps(Abstract());
        PopFront();
        k := k + 1;
      }
    }

    method Reset(status: Status)
      requires Inv(Abstract(), {})
      modifies this
      ensures Abstract() == ResetAll(old(Abstract()), status)
    {
      while queue != []
        invariant Inv(Abstract(), {})
        invariant ResetAll(Abstract(), status) == ResetAll(old(Abstract()), status)
        decreases QueueWeight(queue)
      {
        ResetFrontLighter(Abstract(), status);
        ResetFrontEffect(Abstract(), status);
        FinishGrows(Abstract(), queue[0].id, status, queue[0].callback);
        FinishTask(queue[0].id, status, queue[0].callback);
        PopFront();
      }
    }
  }
}
