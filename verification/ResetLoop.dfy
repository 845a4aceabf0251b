/** When the loop of reset_tasks ends.

    The loop finishes the front task and drops it until the queue is empty, while each callback it
    calls may queue further tasks. Here tasks come in kinds, and `queues` says which kinds of task
    the callback of a kind adds to the queue; nothing forbids that these lead back to the kind
    itself. ResetTasks ties this to the task queue.
 */
module ResetLoop {

  // One turn of the loop.
  function Turn<K>(q: seq<K>, queues: K -> seq<K>): seq<K>
    requires q != []
  {
    q[1..] + queues(q[0])
  }

  function Turns<K>(q: seq<K>, queues: K -> seq<K>, n: nat): seq<K>
    decreases n
  {
    if n == 0 || q == [] then q else Turns(Turn(q, queues), queues, n - 1)
  }

  ghost predicate Ends<K(!new)>(q: seq<K>, queues: K -> seq<K>) {
    exists n: nat :: Turns(q, queues, n) == []
  }

  // The tasks that come of a task of this kind, its own callback's and their callbacks', are nested
  // at most this deep.
  predicate Within<K>(kind: K, queues: K -> seq<K>, depth: nat)
    decreases depth
  {
    depth > 0 && forall i :: 0 <= i < |queues(kind)| ==> Within(queues(kind)[i], queues, depth - 1)
  }

  ghost predicate AllWithin<K(!new)>(q: seq<K>, queues: K -> seq<K>, depth: nat) {
    forall i :: 0 <= i < |q| ==> Within(q[i], queues, depth)
  }

  ghost predicate FinitelyDeep<K(!new)>(q: seq<K>, queues: K -> seq<K>) {
    exists depth: nat :: AllWithin(q, queues, depth)
  }

  lemma {:induction false} WithinMore<K(!new)>(kind: K, queues: K -> seq<K>, depth: nat, more: nat)
    requires Within(kind, queues, depth) && depth <= more
    ensures Within(kind, queues, more)
    decreases depth
  {
    forall i | 0 <= i < |queues(kind)| ensures Within(queues(kind)[i], queues, more - 1) {
      WithinMore(queues(kind)[i], queues, depth - 1, more - 1);
    }
  }

  /* A loop that ends has met only tasks nested finitely deep. */

  lemma {:induction false} EndsWithin<K(!new)>(q: seq<K>, queues: K -> seq<K>, n: nat)
    requires Turns(q, queues, n) == []
    ensures AllWithin(q, queues, n)
    decreases n
  {
    if q != [] {
      var next := Turn(q, queues);
      EndsWithin(next, queues, n - 1);
      forall i | 0 <= i < |q| ensures Within(q[i], queues, n) {
        if i == 0 {
          FrontWithin(q, queues, n - 1);
        } else {
          assert next[i - 1] == q[i];
          WithinMore(q[i], queues, n - 1, n);
        }
      }
    }
  }

  lemma FrontWithin<K(!new)>(q: seq<K>, queues: K -> seq<K>, n: nat)
    requires q != [] && AllWithin(Turn(q, queues), queues, n)
    ensures Within(q[0], queues, n + 1)
  {
    var next := Turn(q, queues);
    forall i | 0 <= i < |queues(q[0])| ensures Within(queues(q[0])[i], queues, n) {
      assert next[|q| - 1 + i] == queues(q[0])[i];
    }
  }

  /* The queue is worked through level by level. */

  // What the callbacks of all these tasks queue.
  function Level<K>(q: seq<K>, queues: K -> seq<K>): seq<K> {
    if q == [] then [] else queues(q[0]) + Level(q[1..], queues)
  }

  lemma {:induction false} TurnsThroughLevel<K(!new)>(q: seq<K>, back: seq<K>, queues: K -> seq<K>)
    ensures exists n: nat :: Turns(q + back, queues, n) == back + Level(q, queues)
    decreases |q|
  {
    if q == [] {
      assert q + back == back && back + Level(q, queues) == back;
      assert Turns(q + back, queues, 0) == back;
    } else {
      var more := back + queues(q[0]);
      assert Turn(q + back, queues) == q[1..] + more;
      TurnsThroughLevel(q[1..], more, queues);
      var n: nat :| Turns(q[1..] + more, queues, n) == more + Level(q[1..], queues);
      assert Turns(q + back, queues, n + 1) == Turns(q[1..] + more, queues, n);
      assert more + Level(q[1..], queues) == back + Level(q, queues);
    }
  }

  lemma {:induction false} TurnsAdd<K(!new)>(q: seq<K>, queues: K -> seq<K>, m: nat, n: nat)
    ensures Turns(q, queues, m + n) == Turns(Turns(q, queues, m), queues, n)
    decreases m
  {
    if m > 0 && q != [] {
      TurnsAdd(Turn(q, queues), queues, m - 1, n);
    } else if q == [] {
      assert Turns(q, queues, m) == q;
    }
  }

  lemma {:induction false} LevelWithin<K(!new)>(q: seq<K>, queues: K -> seq<K>, depth: nat)
    requires depth > 0 && AllWithin(q, queues, depth)
    ensures AllWithin(Level(q, queues), queues, depth - 1)
    decreases |q|
  {
    if q != [] {
      assert AllWithin(q[1..], queues, depth);
      LevelWithin(q[1..], queues, depth);
      assert Within(q[0], queues, depth);
    }
  }

  lemma {:induction false} DeepEnds<K(!new)>(q: seq<K>, queues: K -> seq<K>, depth: nat)
    requires AllWithin(q, queues, depth)
    ensures Ends(q, queues)
    decreases depth
  {
    if q == [] {
      assert Turns(q, queues, 0) == [];
    } else {
      assert Within(q[0], queues, depth);
      LevelWithin(q, queues, depth);
      DeepEnds(Level(q, queues), queues, depth - 1);
      TurnsThroughLevel(q, [], queues);
      assert q + [] == q && [] + Level(q, queues) == Level(q, queues);
      var m: nat :| Turns(q, queues, m) == Level(q, queues);
      var n: nat :| Turns(Level(q, queues), queues, n) == [];
      TurnsAdd(q, queues, m, n);
    }
  }

  // Resetting ends exactly when the tasks in the queue, and those their callbacks queue in turn, are
  // nested finitely deep.
  lemma EndsIff<K(!new)>(q: seq<K>, queues: K -> seq<K>)
    ensures Ends(q, queues) <==> FinitelyDeep(q, queues)
  {
    if Ends(q, queues) {
      var n: nat :| Turns(q, queues, n) == [];
      EndsWithin(q, queues, n);
    }
    if FinitelyDeep(q, queues) {
      var depth: nat :| AllWithin(q, queues, depth);
      DeepEnds(q, queues, depth);
    }
  }

  lemma {:induction false} NeverWithin<K(!new)>(kind: K, queues: K -> seq<K>, depth: nat)
    requires kind in queues(kind)
    ensures !Within(kind, queues, depth)
    decreases depth
  {
    if depth > 0 {
      var own := queues(kind);
      var i :| 0 <= i < |own| && own[i] == kind;
      NeverWithin(kind, queues, depth - 1);
    }
  }

  // For instance a callback that queues a task with the same callback: resetting never ends.
  lemma SelfQueueingNeverEnds<K(!new)>(q: seq<K>, kind: K, queues: K -> seq<K>)
    requires kind in q && kind in queues(kind)
    ensures !Ends(q, queues)
  {
    EndsIff(q, queues);
    if depth: nat :| AllWithin(q, queues, depth) {
      NeverWithin(kind, queues, depth);
    }
  }

  /* With finitely many kinds: no kind leads back to itself. */

  // Each kind is queued by the callback of the one before.
  ghost predicate Path<K>(path: seq<K>, queues: K -> seq<K>) {
    forall i :: 0 < i < |path| ==> path[i] in queues(path[i - 1])
  }

  ghost predicate Recurs<K>(path: seq<K>) {
    exists i, j :: 0 <= i < j < |path| && path[i] == path[j]
  }

  // Some kind that the queue leads to leads back to itself.
  ghost predicate LeadsBack<K(!new)>(q: seq<K>, queues: K -> seq<K>) {
    exists path: seq<K> :: path != [] && path[0] in q && Path(path, queues) && Recurs(path)
  }

  ghost predicate Closed<K(!new)>(kinds: set<K>, queues: K -> seq<K>) {
    forall k, c :: k in kinds && c in queues(k) ==> c in kinds
  }

  // Every step of a path takes one off the depth.
  lemma {:induction false} PathWithin<K(!new)>(path: seq<K>, queues: K -> seq<K>, depth: nat, j: nat)
    requires j < |path| && Path(path, queues) && Within(path[0], queues, depth)
    ensures j < depth && Within(path[j], queues, depth - j)
    decreases j
  {
    if j > 0 {
      PathWithin(path, queues, depth, j - 1);
      var above := queues(path[j - 1]);
      assert path[j] in above;
      var i :| 0 <= i < |above| && above[i] == path[j];
      assert Within(above[i], queues, depth - (j - 1) - 1);
    }
  }

  lemma {:induction false} CycleNeverWithin<K(!new)>(cycle: seq<K>, queues: K -> seq<K>, depth: nat)
    requires |cycle| > 1 && Path(cycle, queues) && cycle[0] == cycle[|cycle| - 1]
    ensures !Within(cycle[0], queues, depth)
    decreases depth
  {
    if Within(cycle[0], queues, depth) {
      var m := |cycle| - 1;
      PathWithin(cycle, queues, depth, m);
      CycleNeverWithin(cycle, queues, depth - m);
    }
  }

  lemma LeadingBackIsBottomless<K(!new)>(q: seq<K>, queues: K -> seq<K>)
    requires LeadsBack(q, queues)
    ensures !FinitelyDeep(q, queues)
  {
    var path :| path != [] && path[0] in q && Path(path, queues) && Recurs(path);
    var i, j :| 0 <= i < j < |path| && path[i] == path[j];
    if depth: nat :| AllWithin(q, queues, depth) {
      PathWithin(path, queues, depth, i);
      CycleNeverWithin(path[i..j + 1], queues, depth - i);
    }
  }

  // What is not within a depth has a path at least that long.
  lemma {:induction false} DeepPath<K(!new)>(kind: K, queues: K -> seq<K>, depth: nat) returns (path: seq<K>)
    requires !Within(kind, queues, depth)
    ensures |path| == depth + 1 && path[0] == kind && Path(path, queues)
    decreases depth
  {
    if depth == 0 {
      path := [kind];
    } else {
      var i :| 0 <= i < |queues(kind)| && !Within(queues(kind)[i], queues, depth - 1);
      var rest := DeepPath(queues(kind)[i], queues, depth - 1);
      path := [kind] + rest;
    }
  }

  lemma {:induction false} PathStaysIn<K(!new)>(path: seq<K>, queues: K -> seq<K>, kinds: set<K>, j: nat)
    requires j < |path| && Path(path, queues) && path[0] in kinds && Closed(kinds, queues)
    ensures path[j] in kinds
    decreases j
  {
    if j > 0 { PathStaysIn(path, queues, kinds, j - 1); }
  }

  lemma {:induction false} Pigeonhole<K(!new)>(path: seq<K>, kinds: set<K>)
    requires (forall i :: 0 <= i < |path| ==> path[i] in kinds) && |path| > |kinds|
    ensures Recurs(path)
    decreases |path|
  {
    var last := |path| - 1;
    if i :| 0 <= i < last && path[i] == path[last] {
    } else {
      Pigeonhole(path[..last], kinds - {path[last]});
      var i, j :| 0 <= i < j < |path[..last]| && path[..last][i] == path[..last][j];
      assert path[i] == path[j];
    }
  }

  lemma LongPathLeadsBack<K(!new)>(q: seq<K>, queues: K -> seq<K>, kinds: set<K>, kind: K)
    requires Closed(kinds, queues) && kind in q && kind in kinds && !Within(kind, queues, |kinds|)
    ensures LeadsBack(q, queues)
  {
    var path := DeepPath(kind, queues, |kinds|);
    forall j | 0 <= j < |path| ensures path[j] in kinds { PathStaysIn(path, queues, kinds, j); }
    Pigeonhole(path, kinds);
  }

  // With finitely many kinds of task, resetting ends exactly when no kind that the queue leads to
  // leads back to itself.
  lemma EndsIffNoneLeadsBack<K(!new)>(q: seq<K>, queues: K -> seq<K>, kinds: set<K>)
    requires (forall i :: 0 <= i < |q| ==> q[i] in kinds) && Closed(kinds, queues)
    ensures Ends(q, queues) <==> !LeadsBack(q, queues)
  {
    EndsIff(q, queues);
    if LeadsBack(q, queues) {
      LeadingBackIsBottomless(q, queues);
    } else {
      forall i | 0 <= i < |q| ensures Within(q[i], queues, |kinds|) {
        if !Within(q[i], queues, |kinds|) { LongPathLeadsBack(q, queues, kinds, q[i]); }
      }
      assert AllWithin(q, queues, |kinds|);
    }
  }
}
