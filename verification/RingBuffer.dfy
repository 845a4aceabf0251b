/** The ring buffer, as a bounded first-in-first-out queue. */
module RingBuffer {
  import opened Options

  // An index that has run at most once past the end.
  function Wrap(i: nat, n: nat): nat
    requires n > 0
  {
    if i < n then i else i - n
  }

  lemma ModIsWrap(i: nat, n: nat)
    requires i < n
    ensures (i + 1) % n == Wrap(i + 1, n)
  {
  }

  /* The queue it stands for. */

  datatype Op<T> =
    | Push(values: seq<T>)
    | Pop(n: nat)
    | Pull(n: nat)
    | Write(value: T)
    | ForceWrite(value: T)
    | Remove
    | Clear

  function Drop<T>(q: seq<T>, n: nat): seq<T> {
    if n < |q| then q[n..] else []
  }

  function Taken<T>(q: seq<T>, n: nat): seq<T> {
    if n < |q| then q[..n] else q
  }

  // What an operation does to a queue with room for `capacity` elements.
  function After<T>(q: seq<T>, capacity: nat, op: Op<T>): (r: seq<T>) {
    match op
    case Push(values) => if |q| + |values| <= capacity then q + values else q
    case Pop(n) => Drop(q, n)
    case Pull(n) => Drop(q, n)
    case Write(v) => if |q| < capacity then q + [v] else q
    case ForceWrite(v) => if |q| < capacity then q + [v] else Drop(q, 1) + [v]
    case Remove => Drop(q, 1)
    case Clear => []
  }

  function AfterAll<T>(q: seq<T>, capacity: nat, ops: seq<Op<T>>): seq<T>
    decreases |ops|
  {
    if ops == [] then q else AfterAll(After(q, capacity, ops[0]), capacity, ops[1..])
  }

  /* Stretches of a sequence bent into a ring. */

  // n elements of b from place r on, going round.
  function Cyclic<T>(b: seq<T>, r: nat, n: nat): (q: seq<T>)
    requires r < |b| && n <= |b|
    ensures |q| == n
    ensures forall i :: 0 <= i < n ==> q[i] == b[Wrap(r + i, |b|)]
  {
    if r + n <= |b| then b[r..r + n] else b[r..] + b[..r + n - |b|]
  }

  lemma CyclicAppend<T>(b: seq<T>, r: nat, n: nat, v: T)
    requires r < |b| && n < |b|
    ensures Cyclic(b[Wrap(r + n, |b|) := v], r, n + 1) == Cyclic(b, r, n) + [v]
  {
    var q, c := Cyclic(b, r, n), b[Wrap(r + n, |b|) := v];
    forall i | 0 <= i < n + 1 ensures Cyclic(c, r, n + 1)[i] == (q + [v])[i] {
      assert Cyclic(c, r, n + 1)[i] == c[Wrap(r + i, |b|)];
    }
  }

  lemma CyclicTail<T>(b: seq<T>, r: nat, n: nat)
    requires r < |b| && 0 < n <= |b|
    ensures Cyclic(b, Wrap(r + 1, |b|), n - 1) == Cyclic(b, r, n)[1..]
  {
    var q, t := Cyclic(b, r, n), Cyclic(b, Wrap(r + 1, |b|), n - 1);
    forall i | 0 <= i < n - 1 ensures t[i] == q[1..][i] {
      assert q[i + 1] == b[Wrap(r + i + 1, |b|)];
    }
  }

  // The last r elements moved to the front.
  function Rotated<T>(q: seq<T>, r: nat): seq<T>
    requires r <= |q|
  {
    q[|q| - r..] + q[..|q| - r]
  }

  // A full ring that starts again at the first place.
  lemma CyclicRotated<T>(b: seq<T>, r: nat)
    requires r < |b|
    ensures Cyclic(b, 0, |b|) == Rotated(Cyclic(b, r, |b|), r)
  {
    var q := Cyclic(b, r, |b|);
    assert q == b[r..] + b[..r];
    assert q[|q| - r..] == b[..r] && q[..|q| - r] == b[r..];
    assert b[..r] + b[r..] == b;
  }

  // Writing over the first element of a full ring.
  lemma CyclicOverwrite<T>(b: seq<T>, r: nat, v: T)
    requires r < |b|
    ensures Cyclic(b[r := v], Wrap(r + 1, |b|), |b|) == Cyclic(b, r, |b|)[1..] + [v]
  {
    var q, t := Cyclic(b, r, |b|), Cyclic(b[r := v], Wrap(r + 1, |b|), |b|);
    forall i | 0 <= i < |b| ensures t[i] == (q[1..] + [v])[i] {
      if i < |b| - 1 { assert q[i + 1] == b[Wrap(r + i + 1, |b|)]; }
    }
  }

  class Ring<T(0)> {
    const buffer: array<T>
    var readIdx: nat
    var writeIdx: nat
    var count: nat

    ghost predicate Valid()
      reads this
    {
      && readIdx < buffer.Length
      && count <= buffer.Length
      && writeIdx == Wrap(readIdx + count, buffer.Length)
    }

    ghost function Contents(): (q: seq<T>)
      requires Valid()
      reads this, buffer
    {
      Cyclic(buffer[..], readIdx, count)
    }

    constructor (size: nat)
      requires size > 0
      ensures Valid() && fresh(buffer) && buffer.Length == size && Contents() == [] && readIdx == 0
    {
      buffer := new T[size];
      readIdx, writeIdx, count := 0, 0, 0;
    }

    // Stores one value at the back; used where there is room.
    method Store(value: T)
      requires Valid() && count < buffer.Length
      modifies this, buffer
      ensures Valid() && Contents() == old(Contents()) + [value]
      ensures readIdx == old(readIdx) && count == old(count) + 1
    {
      CyclicAppend(buffer[..], readIdx, count, value);
      ModIsWrap(writeIdx, buffer.Length);
      buffer[writeIdx] := value;
      writeIdx := (writeIdx + 1) % buffer.Length;
      count := count + 1;
    }

    // Passes over the front element.
    method Advance()
      requires Valid() && count > 0
      modifies this
      ensures Valid() && Contents() == old(Contents())[1..]
      ensures readIdx == Wrap(old(readIdx) + 1, buffer.Length)
    {
      CyclicTail(buffer[..], readIdx, count);
      ModIsWrap(readIdx, buffer.Length);
      readIdx := (readIdx + 1) % buffer.Length;
      count := count - 1;
    }

    method PushAll(values: seq<T>) returns (ok: bool)
      requires Valid()
      modifies this, buffer
      ensures Valid() && ok == (old(count) + |values| <= buffer.Length)
      ensures Contents() == After(old(Contents()), buffer.Length, Push(values))
    {
      ok := buffer.Length - count >= |values|;
      if ok {
        var i := 0;
        while i < |values|
          invariant Valid() && 0 <= i <= |values|
          invariant Contents() == old(Contents()) + values[..i]
        {
          Store(values[i]);
          i := i + 1;
        }
        assert values[..i] == values;
      }
    }

    method AdvanceMany(n: nat)
      requires Valid() && n <= count
      modifies this
      ensures Valid() && Contents() == old(Contents())[n..]
      ensures count == old(count) - n && readIdx == Wrap(old(readIdx) + n, buffer.Length)
    {
      ghost var q := Contents();
      var i := 0;
      while i < n
        invariant Valid() && 0 <= i <= n <= |q|
        invariant Contents() == q[i..]
        invariant readIdx == Wrap(old(readIdx) + i, buffer.Length)
      {
        Advance();
        i := i + 1;
      }
    }

    // Starts again at the first place if the indices meet, which they do when the ring is empty, and
    // also when it is full.
    method Rebase()
      requires Valid()
      modifies this
      ensures Valid() && count == old(count)
      ensures readIdx == if old(readIdx) == old(writeIdx) then 0 else old(readIdx)
      ensures Contents() == if count == buffer.Length then Rotated(old(Contents()), old(readIdx)) else old(Contents())
    {
      if count == buffer.Length { CyclicRotated(buffer[..], readIdx); }
      if readIdx == writeIdx {
        readIdx, writeIdx := 0, 0;
      }
    }

    method PopMany(n: nat) returns (popped: nat)
      requires Valid()
      modifies this
      ensures Valid() && popped == |Taken(old(Contents()), n)|
      ensures n > 0 || old(count) < buffer.Length ==>
        Contents() == After(old(Contents()), buffer.Length, Pop(n))
      ensures n == 0 && old(count) == buffer.Length ==> Contents() == Rotated(old(Contents()), old(readIdx))
      ensures readIdx == if readIdx == writeIdx then 0 else Wrap(old(readIdx) + popped, buffer.Length)
    {
      popped := if count < n then count else n;
      AdvanceMany(popped);
      Rebase();
    }

    method PullOne() returns (value: T)
      requires Valid() && count > 0
      modifies this
      ensures Valid() && value == old(Contents())[0] && Contents() == old(Contents())[1..]
    {
      value := buffer[readIdx];
      assert value == Contents()[0];
      Advance();
    }

    method PullMany(n: nat) returns (values: seq<T>)
      requires Valid()
      modifies this
      ensures Valid() && values == Taken(old(Contents()), n)
      ensures Contents() == After(old(Contents()), buffer.Length, Pull(n))
    {
      ghost var q := Contents();
      var k, total := 0, if count < n then count else n;
      values := [];
      while k < total
        invariant Valid() && 0 <= k <= total <= |q|
        invariant values == q[..k]
        invariant Contents() == q[k..]
      {
        var value := PullOne();
        values := values + [value];
        k := k + 1;
      }
    }

    method WriteOne(value: T) returns (ok: bool)
      requires Valid()
      modifies this, buffer
      ensures Valid() && ok == (old(count) < buffer.Length)
      ensures Contents() == After(old(Contents()), buffer.Length, Write(value))
    {
      ok := count != buffer.Length;
      if ok {
        Store(value);
      }
    }

    // Stores one value over the front element of a full ring.
    method Overwrite(value: T)
      requires Valid() && count == buffer.Length
      modifies this, buffer
      ensures Valid() && Contents() == old(Contents())[1..] + [value]
      ensures readIdx == Wrap(old(readIdx) + 1, buffer.Length) && count == old(count)
    {
      ghost var b := buffer[..];
      CyclicOverwrite(b, readIdx, value);
      ModIsWrap(writeIdx, buffer.Length);
      buffer[writeIdx] := value;
      assert buffer[..] == b[readIdx := value];
      writeIdx := (writeIdx + 1) % buffer.Length;
      readIdx := writeIdx;
    }

    method ForceWriteOne(value: T)
      requires Valid()
      modifies this, buffer
      ensures Valid() && Contents() == After(old(Contents()), buffer.Length, ForceWrite(value))
      ensures readIdx == if old(count) < buffer.Length then old(readIdx) else Wrap(old(readIdx) + 1, buffer.Length)
    {
      if count == buffer.Length {
        Overwrite(value);
      } else {
        Store(value);
      }
    }

    method RemoveOne() returns (ok: bool)
      requires Valid()
      modifies this
      ensures Valid() && ok == (old(count) > 0)
      ensures Contents() == After(old(Contents()), buffer.Length, Remove)
    {
      ok := count > 0;
      if ok {
        Advance();
      }
    }

    method ClearAll()
      requires buffer.Length > 0
      modifies this
      ensures Valid() && Contents() == []
    {
      readIdx, writeIdx, count := 0, 0, 0;
    }

    // Any run of operations, as long as nothing is popped zero at a time from a full ring.
    method Run(ops: seq<Op<T>>)
      requires Valid() && Safe(Contents(), buffer.Length, ops)
      modifies this, buffer
      ensures Valid() && Contents() == AfterAll(old(Contents()), buffer.Length, ops)
    {
      var i := 0;
      while i < |ops|
        invariant Valid() && 0 <= i <= |ops|
        invariant Safe(Contents(), buffer.Length, ops[i..])
        invariant AfterAll(Contents(), buffer.Length, ops[i..]) == AfterAll(old(Contents()), buffer.Length, ops)
      {
        RunStep(Contents(), buffer.Length, ops, i);
        Perform(ops[i]);
        i := i + 1;
      }
    }

    method Perform(op: Op<T>)
      requires Valid() && (op == Pop(0) ==> count < buffer.Length)
      modifies this, buffer
      ensures Valid() && Contents() == After(old(Contents()), buffer.Length, op)
    {
      match op {
        case Push(values) => var _ := PushAll(values);
        case Pop(n) => var _ := PopMany(n);
        case Pull(n) => var _ := PullMany(n);
        case Write(v) => var _ := WriteOne(v);
        case ForceWrite(v) => ForceWriteOne(v);
        case Remove => var _ := RemoveOne();
        case Clear => ClearAll();
      }
    }

    // begin() to end(): front to back.
    method Iterate() returns (visited: seq<T>)
      requires Valid()
      ensures visited == Contents()
    {
      visited := [];
      var it := if count == 0 then None else Some(readIdx);
      ghost var k := 0;
      while it.Some?
        invariant 0 <= k <= count && visited == Contents()[..k]
        invariant it == if k == count then None else Some(Wrap(readIdx + k, buffer.Length))
        decreases count - k
      {
        visited := visited + [buffer[it.value]];
        it := AdvanceForward(it.value);
        k := k + 1;
      }
    }

    function AdvanceForward(p: nat): Option<nat>
      requires p < buffer.Length
      reads this
    {
      var next := if p + 1 == buffer.Length then 0 else p + 1;
      if next == writeIdx then None else Some(next)
    }

    // rbegin() to rend(): back to front.
    method IterateBackwards() returns (visited: seq<T>)
      requires Valid()
      ensures |visited| == count && forall i :: 0 <= i < count ==> visited[i] == Contents()[count - 1 - i]
    {
      visited := [];
      var it := if count == 0 then None else if writeIdx == 0 then Some(buffer.Length - 1) else Some(writeIdx - 1);
      while it.Some?
        invariant |visited| <= count
        invariant forall i :: 0 <= i < |visited| ==> visited[i] == Contents()[count - 1 - i]
        invariant it == if |visited| == count then None
                        else Some(Wrap(readIdx + (count - 1 - |visited|), buffer.Length))
        decreases count - |visited|
      {
        visited := visited + [buffer[it.value]];
        it := AdvanceBackward(it.value);
      }
    }

    function AdvanceBackward(p: nat): Option<nat>
      requires p < buffer.Length
      reads this
    {
      if p == readIdx then None else if p == 0 then Some(buffer.Length - 1) else Some(p - 1)
    }

    function SizeOfDataPtr(): int
      reads this
    {
      if writeIdx >= readIdx then writeIdx - readIdx else buffer.Length - readIdx
    }

    // The contiguous part at the front; nothing is offered of a full ring.
    lemma DataPtrIsFront()
      requires Valid()
      ensures 0 <= SizeOfDataPtr() <= count
      ensures buffer[readIdx..readIdx + SizeOfDataPtr()] == Contents()[..SizeOfDataPtr()]
      ensures SizeOfDataPtr() == 0 <==> count == 0 || count == buffer.Length
    {
    }

    // One round of taking what is offered: everything up to the end of the buffer.
    method DrainRound() returns (out: seq<T>)
      requires Valid() && count < buffer.Length
      modifies this
      ensures Valid() && out + Contents() == old(Contents())
      ensures count < buffer.Length && (count == 0 || readIdx == 0)
      ensures old(readIdx) == 0 ==> count == 0
    {
      ghost var q := Contents();
      DataPtrIsFront();
      var n := SizeOfDataPtr();
      out := buffer[readIdx..readIdx + n];
      assert out == q[..n];
      var _ := PopMany(n);
      assert Contents() == q[n..];
    }

    // Two rounds empty a ring that is not full.
    method DrainTwice() returns (out: seq<T>)
      requires Valid() && count < buffer.Length
      modifies this
      ensures Valid() && count == 0 && out == old(Contents())
    {
      ghost var q := Contents();
      out := DrainRound();
      ghost var first, rest := out, Contents();
      var more := DrainRound();
      assert more + Contents() == rest && Contents() == [];
      assert more == rest;
      out := out + more;
    }
  }

  lemma RunStep<T>(q: seq<T>, capacity: nat, ops: seq<Op<T>>, i: nat)
    requires i < |ops| && Safe(q, capacity, ops[i..])
    ensures ops[i] == Pop(0) ==> |q| < capacity
    ensures Safe(After(q, capacity, ops[i]), capacity, ops[i + 1..])
    ensures AfterAll(q, capacity, ops[i..]) == AfterAll(After(q, capacity, ops[i]), capacity, ops[i + 1..])
  {
    assert ops[i..][0] == ops[i] && ops[i..][1..] == ops[i + 1..];
  }

  // No pop of zero elements meets a full ring.
  predicate Safe<T(==)>(q: seq<T>, capacity: nat, ops: seq<Op<T>>)
    decreases |ops|
  {
    ops == [] || ((ops[0] == Pop(0) ==> |q| < capacity) && Safe(After(q, capacity, ops[0]), capacity, ops[1..]))
  }

  // A pop of zero elements from a full ring rotates it by the place where it starts: it leaves the
  // queue as it was, whatever it holds, exactly when the ring starts at the first place.
  lemma PopZeroFromFullIff(size: nat, readIdx: nat)
    requires readIdx < size
    ensures (forall q: seq<int> :: |q| == size ==> Rotated(q, readIdx) == q) <==> readIdx == 0
  {
    var q := seq(size, i => i);
    if readIdx > 0 { assert Rotated(q, readIdx)[0] == size - readIdx; }
    forall p: seq<int> | |p| == size && readIdx == 0 ensures Rotated(p, readIdx) == p { }
  }

  lemma ForcedThree()
    ensures After([], 2, ForceWrite(1)) == [1]
    ensures After([1], 2, ForceWrite(2)) == [1, 2]
    ensures After([1, 2], 2, ForceWrite(3)) == [2, 3]
    ensures Rotated([2, 3], 1) == [3, 2]
  {
  }

  method ThreeIntoTwo() returns (ring: Ring<int>)
    ensures fresh(ring) && fresh(ring.buffer) && ring.Valid()
    ensures ring.buffer.Length == 2 && ring.readIdx == 1 && ring.count == 2 && ring.Contents() == [2, 3]
  {
    ring := new Ring<int>(2);
    ForcedThree();
    ring.ForceWriteOne(1);
    assert |ring.Contents()| == ring.count;
    ring.ForceWriteOne(2);
    assert |ring.Contents()| == ring.count;
    ring.ForceWriteOne(3);
    assert |ring.Contents()| == ring.count;
  }

  // For instance two elements after three forced writes.
  method PopZeroSwapsTwo() returns (before: seq<int>, after: seq<int>)
    ensures before == [2, 3] && after == [3, 2]
  {
    var ring := ThreeIntoTwo();
    ForcedThree();
    before := ring.Iterate();
    var _ := ring.PopMany(0);
    after := ring.Iterate();
  }

  // The queue never holds more than fits.
  lemma {:induction false} BoundedAlways<T>(q: seq<T>, capacity: nat, ops: seq<Op<T>>)
    requires |q| <= capacity && capacity > 0
    ensures |AfterAll(q, capacity, ops)| <= capacity
    decreases |ops|
  {
    if ops != [] { BoundedAlways(After(q, capacity, ops[0]), capacity, ops[1..]); }
  }

  function ForceWrites<T>(values: seq<T>): seq<Op<T>> {
    if values == [] then [] else [ForceWrite(values[0])] + ForceWrites(values[1..])
  }

  function Last<T>(s: seq<T>, n: nat): seq<T> {
    if |s| <= n then s else s[|s| - n..]
  }

  lemma LastOfLast<T>(a: seq<T>, b: seq<T>, n: nat)
    ensures Last(Last(a, n) + b, n) == Last(a + b, n)
  {
  }

  lemma ForceWriteIsLast<T>(q: seq<T>, capacity: nat, v: T)
    requires |q| <= capacity && capacity > 0
    ensures After(q, capacity, ForceWrite(v)) == Last(q + [v], capacity)
  {
  }

  lemma AfterForceWrites<T>(q: seq<T>, capacity: nat, v: T, rest: seq<T>)
    ensures AfterAll(q, capacity, ForceWrites([v] + rest))
         == AfterAll(After(q, capacity, ForceWrite(v)), capacity, ForceWrites(rest))
  {
    assert ([v] + rest)[1..] == rest;
    assert ForceWrites([v] + rest)[1..] == ForceWrites(rest);
  }

  // A history kept with force_write holds the most recent values, as many as fit.
  lemma {:induction false} ForceWritesKeepLast<T>(q: seq<T>, capacity: nat, values: seq<T>)
    requires |q| <= capacity && capacity > 0
    ensures AfterAll(q, capacity, ForceWrites(values)) == Last(q + values, capacity)
    decreases |values|
  {
    if values == [] {
      assert q + values == q;
    } else {
      var v, rest := values[0], values[1..];
      assert values == [v] + rest && q + values == (q + [v]) + rest;
      AfterForceWrites(q, capacity, v, rest);
      ForceWriteIsLast(q, capacity, v);
      ForceWritesKeepLast(Last(q + [v], capacity), capacity, rest);
      LastOfLast(q + [v], rest, capacity);
    }
  }

  /* First in, first out. */

  function Least(a: nat, b: nat): nat {
    if a < b then a else b
  }

  // How many elements an operation takes out of a queue of this size.
  function Out<T>(size: nat, capacity: nat, op: Op<T>): (n: nat)
    ensures n <= size
  {
    match op
    case Push(_) => 0
    case Pop(n) => Least(n, size)
    case Pull(n) => Least(n, size)
    case Write(_) => 0
    case ForceWrite(_) => if size == capacity then Least(1, size) else 0
    case Remove => Least(1, size)
    case Clear => size
  }

  // What it lets in: all the values or none of them.
  function In<T>(size: nat, capacity: nat, op: Op<T>): seq<T> {
    match op
    case Push(values) => if |values| <= capacity - size then values else []
    case Write(v) => if size == capacity then [] else [v]
    case ForceWrite(v) => [v]
    case _ => []
  }

  function SizeAfter<T>(size: nat, capacity: nat, op: Op<T>): nat {
    size - Out(size, capacity, op) + |In(size, capacity, op)|
  }

  function OutAll<T>(size: nat, capacity: nat, ops: seq<Op<T>>): nat
    decreases |ops|
  {
    if ops == [] then 0
    else Out(size, capacity, ops[0]) + OutAll(SizeAfter(size, capacity, ops[0]), capacity, ops[1..])
  }

  function InAll<T>(size: nat, capacity: nat, ops: seq<Op<T>>): seq<T>
    decreases |ops|
  {
    if ops == [] then []
    else In(size, capacity, ops[0]) + InAll(SizeAfter(size, capacity, ops[0]), capacity, ops[1..])
  }

  lemma OneInOneOut<T>(q: seq<T>, capacity: nat, op: Op<T>)
    requires |q| <= capacity && capacity > 0
    ensures After(q, capacity, op) == q[Out(|q|, capacity, op)..] + In(|q|, capacity, op)
    ensures |After(q, capacity, op)| == SizeAfter(|q|, capacity, op) <= capacity
  {
  }

  lemma SuffixOfSuffix<T>(q: seq<T>, k: nat, come: seq<T>, more: seq<T>, n: nat)
    requires k <= |q| && n <= |q[k..] + come + more|
    ensures k + n <= |q + (come + more)|
    ensures (q[k..] + come + more)[n..] == (q + (come + more))[k + n..]
  {
    assert q[k..] + come + more == (q + (come + more))[k..];
  }

  // A queue, what is to come and how much is to go.
  ghost predicate Balanced<T>(q: seq<T>, come: seq<T>, go: nat, end: seq<T>) {
    go <= |q + come| && end == (q + come)[go..]
  }

  lemma BalancedStep<T>(q: seq<T>, k: nat, come: seq<T>, t: seq<T>, more: seq<T>, go: nat, end: seq<T>)
    requires k <= |q| && t == q[k..] + come && Balanced(t, more, go, end)
    ensures Balanced(q, come + more, k + go, end)
  {
    SuffixOfSuffix(q, k, come, more, go);
  }

  // In every run of operations the queue ends up as what it held and all that was let in, in the order
  // of arrival, without as many of the first of these as were taken out.
  lemma {:induction false} FirstInFirstOut<T>(q: seq<T>, capacity: nat, ops: seq<Op<T>>)
    requires |q| <= capacity && capacity > 0
    ensures Balanced(q, InAll(|q|, capacity, ops), OutAll(|q|, capacity, ops), AfterAll(q, capacity, ops))
    decreases |ops|
  {
    if ops != [] {
      var op, rest := ops[0], ops[1..];
      var t := After(q, capacity, op);
      OneInOneOut(q, capacity, op);
      FirstInFirstOut(t, capacity, rest);
      BalancedStep(q, Out(|q|, capacity, op), In(|q|, capacity, op), t,
                   InAll(|t|, capacity, rest), OutAll(|t|, capacity, rest), AfterAll(t, capacity, rest));
    }
  }
}
