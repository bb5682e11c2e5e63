/** Who holds each thread: the ownership partition that every trap keeps. */
module Partition {
  import opened KernelState
  import opened KernelOps

  // ---------------------------------------------------------------- the invariant

  predicate NoDup<T(==)>(q: seq<T>) {
    forall j, k :: 0 <= j < k < |q| ==> q[j] != q[k]
  }

  /** Queue h holds exactly the threads whose home is h, each once, and no idle thread. */
  predicate QueueOK(s: State, h: int)
    requires s.Sized() && s.IsHart(h)
  {
    && NoDup(s.queues[h])
    && (forall i :: i in s.queues[h] ==> |s.cpus| <= i < |s.threads| && s.home[i] == h)
  }

  predicate HomeOK(s: State, i: int)
    requires s.Sized() && s.IsTid(i)
  {
    s.home[i] == -1 || (s.IsHart(s.home[i]) && i in s.queues[s.home[i]])
  }

  predicate IdleOK(s: State, i: int)
    requires s.Sized() && s.IsHart(i)
  {
    var t := s.threads[i];
    && s.home[i] == -1
    && !t.canBeKilled && !t.detached && !t.isUser
    && t.state == (if s.cpus[i].currentTid == i then Running else Runnable)
    && t.runningHart == (if s.cpus[i].currentTid == i then i else -1)
  }

  /** Hart x, if any, is in the middle of a trap: its current thread may already have left
      the Running state, but it is still the hart's current thread. */
  predicate UserOK(s: State, i: int, x: int)
    requires s.Sized() && |s.cpus| <= i < |s.threads|
  {
    var t := s.threads[i];
    && (s.home[i] >= 0 <==> t.state.Runnable?)
    && -1 <= t.runningHart < |s.cpus|
    && (t.runningHart >= 0 ==> s.cpus[t.runningHart].currentTid == i)
    && (t.runningHart >= 0 ==> t.state.Running? || (t.runningHart == x && !t.state.Runnable? && !t.state.Unused?))
    && (t.state.Running? ==> t.runningHart >= 0)
    && (t.joinWaiter == -1 || |s.cpus| <= t.joinWaiter < |s.threads|) && t.joinWaiter != i
  }

  predicate CpuOK(s: State, h: int, x: int)
    requires s.Sized() && s.IsHart(h)
  {
    var c := s.cpus[h];
    if c.currentTid == -1 then c.curTf == -1 && (c.online ==> c.sliceLeft == 5)
    else
      && c.online
      && (c.currentTid == h || |s.cpus| <= c.currentTid)
      && c.curTf == c.currentTid
      && 1 <= c.sliceLeft <= 5
      && (s.threads[c.currentTid].runningHart == h || (h == x && s.threads[c.currentTid].state.Unused?))
  }

  predicate Core(s: State, x: int) {
    && s.Sized()
    && !s.panicked
    && (s.stdinWaiter == -1 || |s.cpus| <= s.stdinWaiter)
    && (forall h :: 0 <= h < |s.cpus| ==> QueueOK(s, h))
    && (forall i :: 0 <= i < |s.threads| ==> HomeOK(s, i))
    && (forall i :: 0 <= i < |s.cpus| ==> IdleOK(s, i))
    && (forall i :: |s.cpus| <= i < |s.threads| ==> UserOK(s, i, x))
    && (forall h :: 0 <= h < |s.cpus| ==> CpuOK(s, h, x))
  }

  /** The invariant between traps. */
  predicate Inv(s: State) {
    Core(s, -1)
  }

  // ---------------------------------------------------------------- what it says

  /** No hart's current thread is in transit, seen from any hart. */
  lemma CoreWeakens(s: State, x: int)
    requires Core(s, -1)
    ensures Core(s, x)
  {
    forall i | |s.cpus| <= i < |s.threads| ensures UserOK(s, i, x) {
      assert UserOK(s, i, -1);
    }
    forall h | 0 <= h < |s.cpus| ensures CpuOK(s, h, x) {
      assert CpuOK(s, h, -1);
    }
  }

  /** The partition: a user thread is queued (once, in one queue) exactly when Runnable,
      current (on one hart, the one it names) exactly when Running, and otherwise neither. */
  lemma OwnershipPartition(s: State, i: int)
    requires Inv(s) && |s.cpus| <= i < |s.threads|
    ensures s.threads[i].state.Runnable? <==>
            (exists h, k :: s.IsHart(h) && 0 <= k < |s.queues[h]| && s.queues[h][k] == i)
    ensures forall g, j, h, k :: (s.IsHart(g) && s.IsHart(h) && 0 <= j < |s.queues[g]| && 0 <= k < |s.queues[h]| &&
              s.queues[g][j] == i && s.queues[h][k] == i) ==> g == h && j == k
    ensures forall h :: s.IsHart(h) ==>
              (s.cpus[h].currentTid == i <==> s.threads[i].state.Running? && s.threads[i].runningHart == h)
    ensures s.threads[i].state.Running? ==> s.Started(s.threads[i].runningHart)
  {
    assert UserOK(s, i, -1) && HomeOK(s, i);
    if s.threads[i].state.Runnable? {
      var k :| 0 <= k < |s.queues[s.home[i]]| && s.queues[s.home[i]][k] == i;
    }
    forall h | s.IsHart(h)
      ensures s.cpus[h].currentTid == i <==> s.threads[i].state.Running? && s.threads[i].runningHart == h
    {
      assert CpuOK(s, h, -1);
    }
    forall g, j, h, k | s.IsHart(g) && s.IsHart(h) && 0 <= j < |s.queues[g]| && 0 <= k < |s.queues[h]| &&
              s.queues[g][j] == i && s.queues[h][k] == i
      ensures g == h && j == k
    {
      assert QueueOK(s, g) && QueueOK(s, h);
      assert i in s.queues[g] && i in s.queues[h];
    }
    if h, k :| s.IsHart(h) && 0 <= k < |s.queues[h]| && s.queues[h][k] == i {
      assert QueueOK(s, h);
      assert i in s.queues[h];
    }
  }

  /** Idle threads are never queued; a hart runs its own idle thread or a user thread. */
  lemma IdleThreadsStayHome(s: State, h: int)
    requires Inv(s) && s.IsHart(h)
    ensures forall g :: s.IsHart(g) ==> h !in s.queues[g]
    ensures s.Started(h) ==> s.Current(h) == h || |s.cpus| <= s.Current(h)
    ensures s.Started(h) ==> s.cpus[h].curTf == s.Current(h) && s.threads[s.Current(h)].state.Running?
    ensures s.threads[h].state.Running? || s.threads[h].state.Runnable?
  {
    assert CpuOK(s, h, -1) && IdleOK(s, h);
    if s.Started(h) && s.Current(h) != h {
      assert UserOK(s, s.Current(h), -1);
    }
    forall g | s.IsHart(g) ensures h !in s.queues[g] {
      assert QueueOK(s, g);
    }
  }

  // ---------------------------------------------------------------- single changes

  lemma {:induction false} WithoutMembers<T>(q: seq<T>, x: T)
    requires NoDup(q)
    ensures NoDup(Without(q, x))
    ensures forall y :: y in Without(q, x) <==> y in q && y != x
  {
    if q != [] {
      assert q == [q[0]] + q[1..];
      assert NoDup(q[1..]);
      if q[0] == x {
        assert x !in q[1..];
      } else {
        WithoutMembers(q[1..], x);
        assert q[0] !in q[1..];
      }
    }
  }

  /** Thread i is on a CPU, or is what hart x, in the middle of a trap, calls current. */
  predicate Held(s: State, i: int, x: int)
    requires s.Sized() && s.IsTid(i)
  {
    s.threads[i].runningHart >= 0 || (s.IsHart(x) && s.cpus[x].currentTid == i)
  }

  /** Rewriting one user thread keeps the rest; only that thread needs checking. */
  lemma RewriteKeepsCore(s: State, x: int, y: int, i: int, t: Thread)
    requires Core(s, x) && (x == y || x == -1)
    requires |s.cpus| <= i < |s.threads|
    requires UserOK(s.WithThread(i, t), i, y)
    requires forall h :: s.IsHart(h) && s.cpus[h].currentTid == i ==>
               t.runningHart == h || (h == y && t.state.Unused?)
    ensures Core(s.WithThread(i, t), y)
  {
    var r := s.WithThread(i, t);
    forall h | 0 <= h < |s.cpus| ensures QueueOK(r, h) && CpuOK(r, h, y) && IdleOK(r, h) {
      assert QueueOK(s, h) && CpuOK(s, h, x) && IdleOK(s, h);
    }
    forall j | 0 <= j < |s.threads| ensures HomeOK(r, j) {
      assert HomeOK(s, j);
    }
    forall j | |s.cpus| <= j < |s.threads| ensures UserOK(r, j, y) {
      if j != i { assert UserOK(s, j, x); }
    }
  }

  /** Making an unheld, unqueued user thread ready and appending it to some queue. */
  lemma EnqueueKeepsCore(s: State, x: int, i: int, t: Thread, h: int)
    requires Core(s, x) && |s.cpus| <= i < |s.threads| && s.IsHart(h)
    requires !Held(s, i, x) && s.home[i] < 0
    requires t.state.Runnable? && t.runningHart == -1 && t.joinWaiter == s.threads[i].joinWaiter
    ensures Core(Push(s.WithThread(i, t), h, i), x)
  {
    var r := Push(s.WithThread(i, t), h, i);
    assert HomeOK(s, i) && UserOK(s, i, x);
    forall g | 0 <= g < |s.cpus| ensures QueueOK(r, g) && CpuOK(r, g, x) && IdleOK(r, g) {
      assert QueueOK(s, g) && CpuOK(s, g, x) && IdleOK(s, g);
    }
    forall j | 0 <= j < |s.threads| ensures HomeOK(r, j) {
      assert HomeOK(s, j);
    }
    forall j | |s.cpus| <= j < |s.threads| ensures UserOK(r, j, x) {
      assert UserOK(s, j, x);
    }
  }

  /** Killing off a queued thread: it leaves its queue and the Runnable state together. */
  lemma DequeueKeepsCore(s: State, x: int, i: int, t: Thread)
    requires Core(s, x) && |s.cpus| <= i < |s.threads| && s.IsHart(s.home[i])
    requires !t.state.Runnable? && !t.state.Running? && t.runningHart == s.threads[i].runningHart
    requires t.joinWaiter == s.threads[i].joinWaiter
    ensures Core(Dequeue(s.WithThread(i, t), i), x)
  {
    var r := Dequeue(s.WithThread(i, t), i);
    assert HomeOK(s, i) && UserOK(s, i, x);
    assert QueueOK(s, s.home[i]);
    WithoutMembers(s.queues[s.home[i]], i);
    forall g | 0 <= g < |s.cpus| ensures QueueOK(r, g) && CpuOK(r, g, x) && IdleOK(r, g) {
      assert QueueOK(s, g) && CpuOK(s, g, x) && IdleOK(s, g);
    }
    forall j | 0 <= j < |s.threads| ensures HomeOK(r, j) {
      assert HomeOK(s, j);
    }
    forall j | |s.cpus| <= j < |s.threads| ensures UserOK(r, j, x) {
      assert UserOK(s, j, x);
    }
  }

  /** Fields the partition does not mention. */
  predicate SameOwnership(s: State, r: State) {
    && r.threads == s.threads && r.home == s.home && r.cpus == s.cpus && r.queues == s.queues
    && r.boot == s.boot && r.panicked == s.panicked
    && (r.stdinWaiter == -1 || |r.cpus| <= r.stdinWaiter < |r.threads|)
  }

  lemma SameOwnershipKeepsCore(s: State, r: State, x: int)
    requires Core(s, x) && SameOwnership(s, r)
    ensures Core(r, x)
  {
    forall h | 0 <= h < |s.cpus| ensures QueueOK(r, h) && CpuOK(r, h, x) && IdleOK(r, h) {
      assert QueueOK(s, h) && CpuOK(s, h, x) && IdleOK(s, h);
    }
    forall j | 0 <= j < |s.threads| ensures HomeOK(r, j) {
      assert HomeOK(s, j);
    }
    forall j | |s.cpus| <= j < |s.threads| ensures UserOK(r, j, x) {
      assert UserOK(s, j, x);
    }
  }

  // ---------------------------------------------------------------- scheduling

  /** The state with hart h seen as running nothing. */
  function Erased(s: State, h: int): (r: State)
    requires s.Sized() && s.IsHart(h)
    ensures r.Sized()
  {
    s.(cpus := s.cpus[h := s.cpus[h].(currentTid := NO_TID, curTf := NO_TID, sliceLeft := SLICE_TICKS)])
  }

  /** A hart's current thread leaves the CPU: what must hold of the thread's new record, its
      place and its queue for hart h to be left vacant and everything else in order. */
  lemma LeavingVacates(s: State, h: int, r: State)
    requires Core(s, h) && s.Started(h) && SameShape(s, r) && !r.panicked && (r.stdinWaiter == -1 || |r.cpus| <= r.stdinWaiter)
    requires r.cpus == s.cpus && (forall j :: 0 <= j < |s.threads| && j != s.Current(h) ==>
               r.threads[j] == s.threads[j] && r.home[j] == s.home[j])
    requires forall g :: s.IsHart(g) && g != h ==> r.queues[g] == s.queues[g]
    requires s.Current(h) < |s.cpus| ==>
               r.queues == s.queues && r.home == s.home &&
               r.threads[s.Current(h)] == s.threads[s.Current(h)].(state := Runnable, runningHart := -1)
    requires s.Current(h) >= |s.cpus| ==>
               UserOK(Erased(r, h), s.Current(h), -1) && r.threads[s.Current(h)].runningHart == -1 &&
               HomeOK(r, s.Current(h)) && QueueOK(r, h) && s.queues[h] <= r.queues[h]
    ensures Core(Erased(r, h), -1)
  {
    var cur, e := s.Current(h), Erased(r, h);
    assert CpuOK(s, h, h) && HomeOK(s, cur);
    forall g | 0 <= g < |s.cpus| ensures QueueOK(e, g) {
      assert QueueOK(s, g);
      if cur >= |s.cpus| && g != h { assert UserOK(s, cur, h) && cur !in s.queues[g]; }
    }
    forall g | 0 <= g < |s.cpus| ensures CpuOK(e, g, -1) {
      assert CpuOK(s, g, h);
      if cur >= |s.cpus| { assert UserOK(s, cur, h); }
    }
    forall g | 0 <= g < |s.cpus| ensures IdleOK(e, g) {
      assert IdleOK(s, g);
    }
    forall j | 0 <= j < |s.threads| ensures HomeOK(e, j) {
      assert HomeOK(s, j);
      assert j != cur && s.home[j] == h ==> j in s.queues[h] && j in r.queues[h];
      if j == cur && cur >= |s.cpus| { assert HomeOK(r, cur); }
    }
    forall j | |s.cpus| <= j < |s.threads| ensures UserOK(e, j, -1) {
      assert UserOK(s, j, h);
    }
  }

  lemma YieldedVacates(s: State, h: int)
    requires Core(s, h) && s.Started(h)
    ensures Core(Erased(Yielded(s, h), h), -1)
    ensures Yielded(s, h).cpus == s.cpus
  {
    var cur, r := s.Current(h), Yielded(s, h);
    assert CpuOK(s, h, h) && HomeOK(s, cur) && QueueOK(s, h);
    if cur == h {
      assert IdleOK(s, h);
    } else {
      assert UserOK(s, cur, h);
      assert cur !in s.queues[h];
    }
    LeavingVacates(s, h, r);
  }

  /** In a queue that holds only Runnable threads, schedule drops nothing. */
  lemma NothingIsStale(s: State, h: int)
    requires s.Sized() && s.IsHart(h) && Core(Erased(s, h), -1)
    ensures SkipStale(s, h) == s
    ensures s.queues[h] != [] ==> |s.cpus| <= s.queues[h][0] < |s.threads|
  {
    if s.queues[h] != [] {
      assert QueueOK(Erased(s, h), h);
      assert s.queues[h][0] in s.queues[h];
      assert UserOK(Erased(s, h), s.queues[h][0], -1);
    }
  }

  lemma DispatchIdleRestores(s: State, h: int)
    requires s.Sized() && s.IsHart(h) && Core(Erased(s, h), -1) && s.cpus[h].online
    ensures Core(Dispatch(s, h, h), -1)
  {
    var e := Erased(s, h);
    var r := Dispatch(s, h, h);
    forall g | 0 <= g < |s.cpus| ensures QueueOK(r, g) && CpuOK(r, g, -1) && IdleOK(r, g) {
      assert QueueOK(e, g) && CpuOK(e, g, -1) && IdleOK(e, g);
    }
    forall j | 0 <= j < |s.threads| ensures HomeOK(r, j) {
      assert HomeOK(e, j);
    }
    forall j | |s.cpus| <= j < |s.threads| ensures UserOK(r, j, -1) {
      assert UserOK(e, j, -1);
    }
  }

  lemma DispatchQueuedRestores(s: State, h: int)
    requires s.Sized() && s.Started(h) && Core(Erased(s, h), -1) && s.cpus[h].online && s.queues[h] != []
    requires s.IsTid(s.queues[h][0])
    ensures Core(Dispatch(Pop(s, h), h, s.queues[h][0]), -1)
  {
    var e, n := Erased(s, h), s.queues[h][0];
    var r := Dispatch(Pop(s, h), h, n);
    assert n in s.queues[h];
    assert s.queues[h] == [n] + s.queues[h][1..];
    assert QueueOK(e, h) && UserOK(e, n, -1) && HomeOK(e, n);
    assert n !in r.queues[h];
    assert forall i :: i in r.queues[h] ==> i in e.queues[h];
    forall g | 0 <= g < |s.cpus| ensures QueueOK(r, g) && CpuOK(r, g, -1) && IdleOK(r, g) {
      assert QueueOK(e, g) && CpuOK(e, g, -1) && IdleOK(e, g);
    }
    forall j | 0 <= j < |s.threads| ensures HomeOK(r, j) {
      assert HomeOK(e, j);
    }
    forall j | |s.cpus| <= j < |s.threads| ensures UserOK(r, j, -1) {
      assert UserOK(e, j, -1);
    }
  }

  /** schedule restores the invariant whatever its current thread has become, takes the head
      of the hart's queue, and its frame assertion holds. */
  lemma ScheduleRestoresCore(s: State, h: int)
    requires Core(s, h) && s.Started(h)
    ensures Core(Schedule(s, h, s.cpus[h].curTf), -1)
    ensures var y, r := Yielded(s, h), Schedule(s, h, s.cpus[h].curTf);
            if y.queues[h] == [] then r == Dispatch(y, h, h)
            else y.IsTid(y.queues[h][0]) && r == Dispatch(Pop(y, h), h, y.queues[h][0])
  {
    var y := Yielded(s, h);
    YieldedVacates(s, h);
    NothingIsStale(y, h);
    assert CpuOK(s, h, h);
    if y.queues[h] == [] {
      DispatchIdleRestores(y, h);
    } else {
      DispatchQueuedRestores(y, h);
    }
  }
}
