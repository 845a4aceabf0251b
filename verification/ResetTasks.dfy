/** The reset loop of the task queue as an instance of ResetLoop: a task's kind is the callback it
    has left, and what a callback adds to the queue follows from the tasks it starts, be they
    refused, finished at once or queued.
 */
module ResetTasks {
  import opened Options
  import opened TaskQueue
  import ResetLoop

  type Callback = seq<NewTask>

  // The callback that is still installed; none once it has been called.
  function Remaining(s: State, e: Entry): Callback {
    if e.id in s.life && s.life[e.id].Waiting? then e.callback else []
  }

  function Kinds(s: State): (kinds: seq<Callback>)
    ensures |kinds| == |s.queue|
  {
    seq(|s.queue|, i requires 0 <= i < |s.queue| => Remaining(s, s.queue[i]))
  }

  // What starting these tasks adds to the queue, each task with the callback it has left.
  function Added(tasks: seq<NewTask>): seq<Callback>
    decreases tasks, 0
  {
    if tasks == [] then [] else AddedBy(tasks[0]) + Added(tasks[1..])
  }

  function AddedBy(task: NewTask): seq<Callback>
    decreases task, 1
  {
    if task.before.Detached? then Added(task.callback)
    else if task.starting.ended then
      AddedAtStart(task) + if task.starting.finish.Some? then [] else Added(task.callback)
    else AddedAtStart(task) + (if MustWake(task.after, task.wake) then [[]] else []) + [LeftAfterStart(task)]
  }

  function AddedAtStart(task: NewTask): seq<Callback>
    decreases task, 0
  {
    Added(task.starting.spawned) + (if task.starting.finish.Some? then Added(task.callback) else []) +
    Added(task.starting.later)
  }

  function LeftAfterStart(task: NewTask): Callback {
    if task.starting.finish.Some? then [] else task.callback
  }

  /* Single operations. */

  lemma QueueIds(s: State, held: set<nat>, i: nat)
    requires Inv(s, held) && i < |s.queue|
    ensures s.queue[i].id in s.life && s.queue[i].id < s.nextId && s.queue[i].id !in held
  {
    assert s.queue[i] == s.enqueued[s.popped + i];
  }

  lemma CreateAdds(s: State, held: set<nat>)
    requires Inv(s, held)
    ensures Kinds(Create(s)) == Kinds(s)
  {
    var t := Create(s);
    forall i | 0 <= i < |s.queue| ensures Kinds(t)[i] == Kinds(s)[i] { QueueIds(s, held, i); }
  }

  // What happens to a task in hand makes no difference to the queue.
  lemma HeldAside(s: State, held: set<nat>, id: nat, life: Life)
    requires Inv(s, held) && id in held
    ensures Kinds(s.(life := s.life[id := life])) == Kinds(s)
  {
    var t := s.(life := s.life[id := life]);
    forall i | 0 <= i < |s.queue| ensures Kinds(t)[i] == Kinds(s)[i] { QueueIds(s, held, i); }
  }

  lemma EnqueueAdds(s: State, e: Entry)
    ensures Kinds(Enqueue(s, e)) == Kinds(s) + [Remaining(s, e)]
  {
    var t := Enqueue(s, e);
    assert t.queue[|s.queue|] == e;
    forall i | 0 <= i < |s.queue| ensures Kinds(t)[i] == Kinds(s)[i] { assert t.queue[i] == s.queue[i]; }
  }

  lemma StartWakeAdds(s: State, held: set<nat>)
    requires Inv(s, held)
    ensures Kinds(StartWake(s)) == Kinds(s) + [[]]
  {
    CreateAdds(s, held);
    EnqueueAdds(Create(s), Entry(s.nextId, true, false, []));
  }

  /* Starting tasks. */

  lemma {:induction false} SpawnAdds(s: State, tasks: seq<NewTask>, held: set<nat>)
    requires Inv(s, held)
    ensures Kinds(SpawnAll(s, tasks)) == Kinds(s) + Added(tasks)
    decreases tasks, 0
  {
    if tasks == [] {
      assert Kinds(s) + [] == Kinds(s);
    } else {
      StartAdds(s, tasks[0], held);
      StartKeeps(s, tasks[0], held);
      SpawnAdds(Start(s, tasks[0]), tasks[1..], held);
      Regroup(Kinds(s), AddedBy(tasks[0]), Added(tasks[1..]));
    }
  }

  lemma Regroup<T>(a: seq<T>, b: seq<T>, c: seq<T>)
    ensures a + b + c == a + (b + c)
  {
  }

  // The callback of a task in hand.
  lemma {:induction false} FinishAdds(s: State, id: nat, status: Status, callback: Callback, held: set<nat>)
    requires Inv(s, held) && id in held && id in s.life
    ensures Kinds(Finish(s, id, status, callback))
         == Kinds(s) + if s.life[id].Waiting? then Added(callback) else []
    decreases callback, 1
  {
    if s.life[id].Waiting? {
      HeldAside(s, held, id, Finished);
      CallKeeps(s, id, status, held);
      assert Kinds(Call(s, id, status)) == Kinds(s.(life := s.life[id := Finished]));
      SpawnAdds(Call(s, id, status), callback, held);
    } else {
      assert Kinds(s) + [] == Kinds(s);
    }
  }

  lemma {:induction false} DestroyAdds(s: State, id: nat, callback: Callback, held: set<nat>)
    requires Inv(s, held) && id in held && id in s.life && id < s.nextId
    ensures Kinds(Destroy(s, id, callback)) == Kinds(s) + if s.life[id].Waiting? then Added(callback) else []
    decreases callback, 2
  {
    FinishAdds(s, id, CANCELED, callback, held);
    FinishKeeps(s, id, CANCELED, callback, held);
    HeldAside(Finish(s, id, CANCELED, callback), held, id, Destroyed);
  }

  lemma {:induction false} FinishingAdds(s: State, task: NewTask, held: set<nat>)
    requires Inv(s, held)
    ensures Kinds(Finishing(s, task)) == Kinds(s) + Added(task.starting.spawned) +
      if task.starting.finish.Some? then Added(task.callback) else []
    ensures s.nextId in Finishing(s, task).life
    ensures Finishing(s, task).life[s.nextId].Waiting? <==> task.starting.finish.None?
    decreases task, 0
  {
    var id, spawned := s.nextId, SpawnAll(Create(s), task.starting.spawned);
    CreateAdds(s, held);
    CreateKeeps(s, held);
    SpawnAdds(Create(s), task.starting.spawned, held + {id});
    SpawnKeeps(Create(s), task.starting.spawned, held + {id});
    SpawnGrows(Create(s), task.starting.spawned);
    if task.starting.finish.Some? {
      FinishAdds(spawned, id, task.starting.finish.value, task.callback, held + {id});
      FinishGrows(spawned, id, task.starting.finish.value, task.callback);
    } else {
      assert Kinds(spawned) + [] == Kinds(spawned);
    }
  }

  lemma {:induction false} StartedAdds(s: State, task: NewTask, held: set<nat>)
    requires Inv(s, held)
    ensures Kinds(Started(s, task)) == Kinds(s) + AddedAtStart(task)
    ensures s.nextId in Started(s, task).life
    ensures Started(s, task).life[s.nextId].Waiting? <==> task.starting.finish.None?
    decreases task, 1
  {
    FinishingAdds(s, task, held);
    FinishingKeeps(s, task, held);
    FinishingGrows(s, task);
    SpawnAdds(Finishing(s, task), task.starting.later, held + {s.nextId});
    SpawnGrows(Finishing(s, task), task.starting.later);
    var called := if task.starting.finish.Some? then Added(task.callback) else [];
    Regroup(Kinds(s), Added(task.starting.spawned), called);
    Regroup(Kinds(s), Added(task.starting.spawned) + called, Added(task.starting.later));
  }

  lemma {:induction false} RefusedAdds(s: State, task: NewTask, held: set<nat>)
    requires Inv(s, held) && task.before.Detached?
    ensures Kinds(Start(s, task)) == Kinds(s) + Added(task.callback)
    decreases task, 1
  {
    var id, created := s.nextId, Create(s);
    var finished := Finish(created, id, INVALID_WHEN_DISABLED, task.callback);
    CreateAdds(s, held);
    CreateKeeps(s, held);
    FinishAdds(created, id, INVALID_WHEN_DISABLED, task.callback, held + {id});
    FinishKeeps(created, id, INVALID_WHEN_DISABLED, task.callback, held + {id});
    FinishGrows(created, id, INVALID_WHEN_DISABLED, task.callback);
    DestroyAdds(finished, id, task.callback, held + {id});
    assert Kinds(finished) + [] == Kinds(finished);
  }

  lemma QueuedAdds(s: State, held: set<nat>, e: Entry)
    requires Inv(s, held)
    requires e.id in s.life && e.id < s.nextId
    ensures Kinds(Enqueue(if e.wakeFirst then StartWake(s) else s, e))
         == Kinds(s) + (if e.wakeFirst then [[]] else []) + [Remaining(s, e)]
  {
    if e.wakeFirst { StartWakeAdds(s, held); }
    EnqueueAdds(if e.wakeFirst then StartWake(s) else s, e);
    assert Kinds(s) + [] == Kinds(s);
  }

  lemma {:induction false} StartAdds(s: State, task: NewTask, held: set<nat>)
    requires Inv(s, held)
    ensures Kinds(Start(s, task)) == Kinds(s) + AddedBy(task)
    decreases task, 2
  {
    var id, t := s.nextId, Started(s, task);
    if task.before.Detached? {
      RefusedAdds(s, task, held);
    } else {
      StartedAdds(s, task, held);
      StartedKeeps(s, task, held);
      StartedGrows(s, task);
      if task.starting.ended {
        DestroyAdds(t, id, task.callback, held + {id});
        Regroup(Kinds(s), AddedAtStart(task), if task.starting.finish.Some? then [] else Added(task.callback));
      } else {
        var wakes := MustWake(task.after, task.wake);
        QueuedAdds(t, held + {id}, Entry(id, task.wake, wakes, task.callback));
        Regroup(Kinds(s), AddedAtStart(task), if wakes then [[]] else []);
        Regroup(Kinds(s), AddedAtStart(task) + (if wakes then [[]] else []), [LeftAfterStart(task)]);
      }
    }
  }

  /* The loop. */

  lemma CallFront(s: State, status: Status)
    requires Inv(s, {}) && s.queue != [] && s.life[s.queue[0].id].Waiting?
    ensures Kinds(Call(s, s.queue[0].id, status)) == [[]] + Kinds(s)[1..]
  {
    var t := Call(s, s.queue[0].id, status);
    forall i | 0 < i < |s.queue| ensures Kinds(t)[i] == Kinds(s)[i] {
      assert s.queue[0] == s.enqueued[s.popped] && s.queue[i] == s.enqueued[s.popped + i];
    }
  }

  lemma PopFinished(s: State)
    requires Inv(s, {}) && s.queue != [] && s.life[s.queue[0].id].Finished?
    ensures Kinds(Pop(s)) == Kinds(s)[1..]
  {
    var id, t := s.queue[0].id, Unlink(s);
    UnlinkKeeps(s);
    DestroyAdds(t, id, s.queue[0].callback, {id});
    assert Kinds(t) == Kinds(s)[1..];
    assert Kinds(t) + [] == Kinds(t);
  }

  lemma FinishFrontKeeps(s: State, status: Status)
    requires Inv(s, {}) && s.queue != []
    ensures var t := Finish(s, s.queue[0].id, status, s.queue[0].callback);
      Inv(t, {}) && t.queue != [] && t.queue[0] == s.queue[0] && t.life[t.queue[0].id].Finished?
  {
    var front := s.queue[0];
    QueueIds(s, {}, 0);
    UnlinkKeeps(s);
    FinishKeeps(s, front.id, status, front.callback, {});
    FinishGrows(s, front.id, status, front.callback);
  }

  lemma FinishFrontAdds(s: State, status: Status)
    requires Inv(s, {}) && s.queue != []
    ensures var t := Finish(s, s.queue[0].id, status, s.queue[0].callback);
      t.queue != [] && Kinds(t)[1..] == Kinds(s)[1..] + Added(Kinds(s)[0])
  {
    var front := s.queue[0];
    QueueIds(s, {}, 0);
    if s.life[front.id].Waiting? {
      CallFront(s, status);
      CallKeeps(s, front.id, status, {});
      SpawnAdds(Call(s, front.id, status), front.callback, {});
      SecondsOf(Kinds(s)[1..], Added(front.callback));
    } else {
      assert Kinds(s)[1..] + Added([]) == Kinds(s)[1..];
    }
  }

  lemma SecondsOf<T>(a: seq<seq<T>>, b: seq<seq<T>>)
    ensures ([[]] + a + b)[1..] == a + b
  {
  }

  // One turn of the program's loop is one turn of ResetLoop.
  lemma ResetFrontIsTurn(s: State, status: Status)
    requires Inv(s, {}) && s.queue != []
    ensures Kinds(ResetFront(s, status)) == ResetLoop.Turn(Kinds(s), Added)
  {
    FinishFrontKeeps(s, status);
    FinishFrontAdds(s, status);
    PopFinished(Finish(s, s.queue[0].id, status, s.queue[0].callback));
  }

  // The whole reset is that loop, turn by turn, until the queue is empty.
  lemma {:induction false} ResetIsLoop(s: State, status: Status)
    requires Inv(s, {})
    ensures ResetLoop.Ends(Kinds(s), Added)
    decreases QueueWeight(s.queue)
  {
    if s.queue == [] {
      assert ResetLoop.Turns(Kinds(s), Added, 0) == [];
    } else {
      ResetFrontLighter(s, status);
      ResetFrontIsTurn(s, status);
      ResetIsLoop(ResetFront(s, status), status);
      var n: nat :| ResetLoop.Turns(Kinds(ResetFront(s, status)), Added, n) == [];
      assert ResetLoop.Turns(Kinds(s), Added, n + 1) == [];
    }
  }
}
