/** The join protocol and the registered reader: who waits for whom, over every run. */
module Links {
  import opened KernelState
  import opened KernelOps
  import opened Partition
  import opened Safety

  // ---------------------------------------------------------------- what schedule does to records

  predicate Switched(t: Thread, u: Thread) {
    && u == t.(state := u.state, runningHart := u.runningHart)
    && (u.state == t.state || ((t.state.Running? || t.state.Runnable?) && (u.state.Running? || u.state.Runnable?)))
  }

  /** The hart's current thread died and nobody can still ask for its exit code. */
  predicate Reaped(s: State, h: int)
    requires s.Sized() && s.Started(h)
  {
    var t := s.threads[s.Current(h)];
    s.Current(h) != h && t.state.Zombie? && (0 <= t.joinWaiter < |s.threads| || t.detached)
  }

  /** The records after schedule: a dead, unclaimed current thread is freed; otherwise threads
      only move between Running and Runnable; other threads that were not Runnable are untouched. */
  predicate ScheduleChanges(s: State, r: State, h: int)
    requires s.Sized() && s.Started(h) && SameShape(s, r)
  {
    var cur := s.Current(h);
    && r.ticks == s.ticks && r.words == s.words && r.rx == s.rx
    && r.log == (if Reaped(s, h) then s.log + [Recycled(cur)] else s.log)
    && r.stdinWaiter == (if Reaped(s, h) && s.stdinWaiter == cur then NO_TID else s.stdinWaiter)
    && (Reaped(s, h) ==> r.threads[cur] == FreedRecord(s.threads[cur]))
    && (forall i :: 0 <= i < |s.threads| && !(Reaped(s, h) && i == cur) ==> Switched(s.threads[i], r.threads[i]))
    && (forall i :: 0 <= i < |s.threads| && !s.threads[i].state.Runnable? && i != cur ==> r.threads[i] == s.threads[i])
    && (forall g :: 0 <= g < |s.cpus| && g != h ==> r.cpus[g] == s.cpus[g])
  }

  /** No thread but x and y has changed. */
  predicate OthersKept(s: State, r: State, x: int, y: int) {
    |r.threads| == |s.threads| && forall i :: 0 <= i < |s.threads| && i != x && i != y ==> r.threads[i] == s.threads[i]
  }

  function FreedRecord(t: Thread): Thread {
    UNUSED_THREAD.(readBuf := t.readBuf, readLen := t.readLen)
  }

  lemma YieldChanges(s: State, h: nat)
    requires Core(s, h) && s.Started(h)
    ensures ScheduleChanges(s, Yielded(s, h), h)
    ensures OthersKept(s, Yielded(s, h), s.Current(h), s.Current(h))
  {
    assert CpuOK(s, h, h);
    if s.Current(h) == h { assert IdleOK(s, h); } else { assert UserOK(s, s.Current(h), h); }
  }

  lemma DispatchChanges(s: State, y: State, h: nat, n: int, q: State)
    requires s.Sized() && s.Started(h) && SameShape(s, y) && ScheduleChanges(s, y, h)
    requires OthersKept(s, y, s.Current(h), s.Current(h))
    requires y.IsTid(n) && (y.threads[n].state.Runnable? || y.threads[n].state.Running?)
    requires s.threads[n].state.Running? ==> n == s.Current(h)
    requires y.cpus == s.cpus && (q == y || (y.queues[h] != [] && n == y.queues[h][0] && q == Pop(y, h)))
    ensures ScheduleChanges(s, Dispatch(q, h, n), h)
    ensures OthersKept(s, Dispatch(q, h, n), s.Current(h), n) && Dispatch(q, h, n).cpus[h].currentTid == n
  {
  }

  /** A switch changes the two threads that change places and no other. */
  lemma ScheduleTouchesTwo(s: State, h: nat)
    requires Core(s, h) && s.Started(h)
    ensures ScheduleChanges(s, Schedule(s, h, s.cpus[h].curTf), h)
    ensures var r := Schedule(s, h, s.cpus[h].curTf); OthersKept(s, r, s.Current(h), r.Current(h))
  {
    ScheduleRestoresCore(s, h);
    YieldedVacates(s, h);
    YieldChanges(s, h);
    var y := Yielded(s, h);
    if y.queues[h] == [] {
      assert IdleOK(Erased(y, h), h) && IdleOK(s, h);
      DispatchChanges(s, y, h, h, y);
    } else {
      var n := y.queues[h][0];
      assert n in y.queues[h];
      assert QueueOK(Erased(y, h), h) && UserOK(Erased(y, h), n, -1);
      assert Switched(s.threads[n], y.threads[n]);
      DispatchChanges(s, y, h, n, Pop(y, h));
    }
  }

  lemma ScheduleEffect(s: State, h: nat)
    requires Core(s, h) && s.Started(h)
    ensures ScheduleChanges(s, Schedule(s, h, s.cpus[h].curTf), h)
  {
    ScheduleTouchesTwo(s, h);
  }

  // ---------------------------------------------------------------- the invariant

  predicate Live(t: Thread) {
    !t.state.Unused? && !t.state.Zombie?
  }

  /** How a death leaves the record t: a zombie that holds the code until somebody asks for it, or a
      free slot if the thread was detached or a joiner has been served. */
  predicate Ended(t: Thread, u: Thread, c: int) {
    if t.joinWaiter < 0 && !t.detached then u.state.Zombie? && u.exitCode == c else u.state.Unused?
  }

  /** A waiting thread's target is alive and names the waiter. */
  predicate WaitOK(s: State, i: int)
    requires s.IsTid(i)
  {
    var t := s.threads[i];
    t.state.Waiting? ==>
      && 0 < t.waitingFor < |s.threads| && t.waitingFor != i
      && Live(s.threads[t.waitingFor])
      && s.threads[t.waitingFor].joinWaiter == i
  }

  /** A named joiner is a thread that waits for exactly this thread; no detached thread has one. */
  predicate JoinerOK(s: State, i: int)
    requires s.IsTid(i)
  {
    var j := s.threads[i].joinWaiter;
    j == -1 || (s.IsTid(j) && s.threads[j].state.Waiting? && s.threads[j].waitingFor == i && !s.threads[i].detached)
  }

  /** The registered reader blocked for input, or was killed while it did. */
  predicate ReaderOK(s: State) {
    s.stdinWaiter == NO_TID ||
    (s.IsTid(s.stdinWaiter) &&
     (s.threads[s.stdinWaiter].state.Blocked? || s.threads[s.stdinWaiter].state.Zombie?))
  }

  /** `z` is a thread that a kill has just finished while a hart still executes it, or -1. */
  predicate LinkedBut(s: State, z: int) {
    && (forall i :: 0 <= i < |s.threads| ==> WaitOK(s, i))
    && (forall i :: 0 <= i < |s.threads| && i != z ==> JoinerOK(s, i))
    && (s.IsTid(z) ==> s.threads[z].state.Zombie?)
  }

  predicate Linked(s: State) {
    LinkedBut(s, -1) && ReaderOK(s)
  }

  /** The waits-for relation is a partial injection that never leads into a dead thread. */
  lemma WaitsForIsInjective(s: State, i: int, j: int)
    requires Linked(s) && s.IsTid(i) && s.IsTid(j)
    requires s.threads[i].state.Waiting? && s.threads[j].state.Waiting?
    requires s.threads[i].waitingFor == s.threads[j].waitingFor
    ensures i == j
    ensures s.IsTid(s.threads[i].waitingFor)
    ensures Live(s.threads[s.threads[i].waitingFor]) && !s.threads[s.threads[i].waitingFor].detached
  {
    assert WaitOK(s, i) && WaitOK(s, j);
    assert JoinerOK(s, s.threads[i].waitingFor);
  }

  // ---------------------------------------------------------------- operations

  lemma ScheduleKeepsLinks(s: State, h: nat, z: int)
    requires Core(s, h) && s.Started(h) && LinkedBut(s, z) && ReaderOK(s)
    requires z == -1 || (z == s.Current(h) && z != h && 0 <= s.threads[z].joinWaiter)
    ensures Linked(Schedule(s, h, s.cpus[h].curTf))
  {
    var r, cur := Schedule(s, h, s.cpus[h].curTf), s.Current(h);
    ScheduleEffect(s, h);
    assert CpuOK(s, h, h);
    if cur >= |s.cpus| { assert UserOK(s, cur, h); }
    forall i | 0 <= i < |s.threads| ensures WaitOK(r, i) {
      assert WaitOK(s, i);
      if s.threads[i].state.Waiting? { assert Switched(s.threads[s.threads[i].waitingFor], r.threads[s.threads[i].waitingFor]); }
    }
    forall i | 0 <= i < |s.threads| ensures JoinerOK(r, i) {
      if i != z { assert JoinerOK(s, i); }
    }
  }

  /** Changes that leave every wait relation as it is. */
  lemma UnrelatedKeepsLinks(s: State, r: State, z: int)
    requires s.Sized() && r.Sized() && |r.threads| == |s.threads| && LinkedBut(s, z)
    requires s.IsTid(z) ==> r.threads[z].state.Zombie?
    requires forall i :: 0 <= i < |s.threads| ==>
      (var t, u := s.threads[i], r.threads[i];
       && u.joinWaiter == t.joinWaiter && (u.state.Waiting? <==> t.state.Waiting?)
       && (t.state.Waiting? ==> u.waitingFor == t.waitingFor)
       && (Live(t) && !Live(u) ==> t.joinWaiter == -1)
       && (u.detached ==> t.detached || t.joinWaiter == -1))
    ensures LinkedBut(r, z)
  {
    forall i | 0 <= i < |s.threads| ensures WaitOK(r, i) {
      assert WaitOK(s, i);
    }
    forall i | 0 <= i < |s.threads| && i != z ensures JoinerOK(r, i) {
      assert JoinerOK(s, i);
    }
  }

  // ---------------------------------------------------------------- exact records

  function Woken(w: Thread): Thread {
    w.(a0 := 0, waitingFor := NO_TID, joinStatusPtr := 0, state := Runnable, wakeupTick := 0)
  }

  function WithWord(words: map<nat, int>, ptr: nat, code: int): map<nat, int> {
    if ptr != 0 then words[ptr := code] else words
  }

  lemma DeliverRecords(s: State, h: nat, tid: int, j: int, code: int)
    requires s.Sized() && s.IsHart(h) && |s.cpus| <= j < |s.threads|
    requires s.threads[j].state.Waiting? && s.home[j] < 0
    ensures var r := Deliver(s, h, tid, j, code);
      && r.threads == s.threads[j := Woken(s.threads[j])]
      && r.words == WithWord(s.words, s.threads[j].joinStatusPtr, code)
      && r.log == s.log + [Delivered(tid, j, code)]
      && r.stdinWaiter == s.stdinWaiter && r.ticks == s.ticks && r.rx == s.rx
      && (forall i :: 0 <= i < |s.threads| && i != j ==> r.home[i] == s.home[i])
  {
  }

  /** Everything the death of thread cur changes, apart from queues and homes: a freed slot and
      a woken joiner, or a Zombie. */
  predicate DieChanges(s: State, r: State, cur: int, code: int)
    requires s.IsTid(cur) && SameShape(s, r)
  {
    var t, j := s.threads[cur], s.threads[cur].joinWaiter;
    && r.ticks == s.ticks && r.rx == s.rx && r.stdinWaiter == s.stdinWaiter && r.cpus == s.cpus
    && if j >= 0 then
         && |s.cpus| <= j < |s.threads| && j != cur && s.threads[j].state.Waiting? && s.threads[j].waitingFor == cur
         && r.threads == s.threads[j := Woken(s.threads[j])][cur := FreedRecord(t)]
         && r.words == WithWord(s.words, s.threads[j].joinStatusPtr, code)
         && r.log == s.log + [Terminated(cur, code)] + [Delivered(cur, j, code)] + [Recycled(cur)]
       else
         && r.threads == s.threads[cur := t.(exitCode := code, state := Zombie)]
         && r.words == s.words && r.log == s.log + [Terminated(cur, code)]
  }

  lemma DieServedChanges(s: State, h: nat, code: int)
    requires s.Sized() && s.Started(h) && 0 < s.Current(h)
    requires var cur := s.Current(h);
      var j := s.threads[cur].joinWaiter;
      && s.stdinWaiter != cur && |s.cpus| <= j < |s.threads| && j != cur && s.home[j] < 0
      && s.threads[j].state.Waiting? && s.threads[j].waitingFor == cur
    ensures DieChanges(s, Die(s, h, code), s.Current(h), code)
  {
    var cur := s.Current(h);
    var t, j := s.threads[cur], s.threads[cur].joinWaiter;
    var s1 := Expiring(s, h, code);
    DeliverRecords(s1, h, cur, j, code);
    var d := Deliver(s1, h, cur, j, code);
    assert Recycle(d, cur).threads == s.threads[j := Woken(s.threads[j])][cur := FreedRecord(t)];
  }

  lemma DieRecords(s: State, h: nat, code: int)
    requires Inv(s) && Linked(s) && s.Started(h) && |s.cpus| <= s.Current(h)
    ensures DieChanges(s, Die(s, h, code), s.Current(h), code)
  {
    var cur := s.Current(h);
    var j := s.threads[cur].joinWaiter;
    assert UserOK(s, cur, -1) && CpuOK(s, h, -1) && JoinerOK(s, cur);
    if j >= 0 {
      assert UserOK(s, j, -1);
      DieServedChanges(s, h, code);
    }
  }

  function Slain(t: Thread): Thread {
    t.(exitCode := SIGKILL_CODE, state := Zombie, wakeupTick := 0)
  }

  /** The slot of a killed thread is freed at once: no hart executes it, and either its joiner
      has been served or it is detached. */
  predicate FreedByKill(t: Thread) {
    t.runningHart < 0 && (t.joinWaiter >= 0 || t.detached)
  }

  predicate SlayChanges(s: State, b: State, target: int)
    requires s.Sized() && s.IsTid(target) && SameShape(s, b)
  {
    && b.threads == s.threads[target := Slain(s.threads[target])]
    && b.home[target] == -1
    && (forall i :: 0 <= i < |s.threads| && i != target ==> b.home[i] == s.home[i])
    && b.log == s.log + [Terminated(target, SIGKILL_CODE)]
    && b.ticks == s.ticks && b.rx == s.rx && b.cpus == s.cpus && b.words == s.words
    && b.stdinWaiter == s.stdinWaiter
  }

  lemma SlayRecords(s: State, target: int)
    requires Inv(s) && |s.cpus| <= target < |s.threads|
    ensures SlayChanges(s, Slay(s, target), target)
  {
    assert UserOK(s, target, -1) && HomeOK(s, target);
  }

  predicate BuryChanges(s: State, r: State, target: int)
    requires s.Sized() && s.IsTid(target) && SameShape(s, r)
  {
    var t := s.threads[target];
    var j := t.joinWaiter;
    var u := if FreedByKill(t) then FreedRecord(t) else t;
    && r.ticks == s.ticks && r.rx == s.rx && r.cpus == s.cpus
    && r.stdinWaiter == (if FreedByKill(t) && s.stdinWaiter == target then NO_TID else s.stdinWaiter)
    && if j >= 0 then
         && s.IsTid(j)
         && r.threads == s.threads[j := Woken(s.threads[j])][target := u]
         && r.words == WithWord(s.words, s.threads[j].joinStatusPtr, SIGKILL_CODE)
         && r.log == s.log + [Delivered(target, j, SIGKILL_CODE)]
                           + (if FreedByKill(t) then [Recycled(target)] else [])
       else
         && r.threads == s.threads[target := u] && r.words == s.words
         && r.log == s.log + (if FreedByKill(t) then [Recycled(target)] else [])
  }

  lemma BuryRecords(s: State, h: nat, target: int)
    requires s.Sized() && s.IsHart(h) && 0 < target < |s.threads| && s.home[target] == -1
    requires -1 <= s.threads[target].joinWaiter && s.threads[target].joinWaiter != target
    requires s.threads[target].joinWaiter >= 0 ==>
               (var j := s.threads[target].joinWaiter;
                |s.cpus| <= j < |s.threads| && s.threads[j].state.Waiting? && s.home[j] < 0)
    ensures BuryChanges(s, Bury(s, h, target), target)
  {
    var t, j := s.threads[target], s.threads[target].joinWaiter;
    if j >= 0 {
      DeliverRecords(s, h, target, j, SIGKILL_CODE);
    } else {
      assert s.WithThread(target, t.(joinWaiter := NO_TID)) == s;
    }
  }

  /** Everything a kill that takes effect changes, apart from queues and homes. */
  predicate KillChanges(s: State, r: State, cur: int, target: int)
    requires s.IsTid(target) && s.IsTid(cur) && SameShape(s, r)
  {
    var t := s.threads[target];
    var j := t.joinWaiter;
    var u := if FreedByKill(t) then FreedRecord(t) else Slain(t);
    && r.ticks == s.ticks && r.rx == s.rx && r.cpus == s.cpus
    && r.stdinWaiter == (if FreedByKill(t) && s.stdinWaiter == target then NO_TID else s.stdinWaiter)
    && j != target && j != cur
    && if j >= 0 then
         && |s.cpus| <= j < |s.threads| && s.threads[j].state.Waiting? && s.threads[j].waitingFor == target
         && r.threads == s.threads[j := Woken(s.threads[j])][target := u][cur := s.threads[cur].(a0 := 0)]
         && r.words == WithWord(s.words, s.threads[j].joinStatusPtr, -9)
         && r.log == s.log + [Terminated(target, -9)] + [Delivered(target, j, SIGKILL_CODE)]
                           + (if FreedByKill(t) then [Recycled(target)] else [])
       else
         && r.threads == s.threads[target := u][cur := s.threads[cur].(a0 := 0)]
         && r.words == s.words
         && r.log == s.log + [Terminated(target, -9)]
                           + (if FreedByKill(t) then [Recycled(target)] else [])
  }

  lemma KillChangesCompose(s: State, b: State, d: State, cur: int, target: int)
    requires s.Sized() && s.IsTid(target) && s.IsTid(cur) && SameShape(s, b) && SameShape(b, d)
    requires SlayChanges(s, b, target) && BuryChanges(b, d, target) && cur != target
    requires var j := s.threads[target].joinWaiter;
             j != target && j != cur &&
             (j >= 0 ==> |s.cpus| <= j < |s.threads| && s.threads[j].state.Waiting? && s.threads[j].waitingFor == target)
    ensures KillChanges(s, d.WithA0(cur, 0), cur, target)
  {
    assert b.threads[target] == Slain(s.threads[target]);
  }

  lemma KillRecords(s: State, h: nat, target: int)
    requires Inv(s) && Linked(s) && s.Started(h) && KillTakesEffect(s, s.Current(h), target)
    ensures |s.cpus| <= target
    ensures KillChanges(s, Kill(s, h, s.Current(h), target), s.Current(h), target)
  {
    var cur, j := s.Current(h), s.threads[target].joinWaiter;
    VictimIsElsewhere(s, h, target);
    assert UserOK(s, target, -1) && CpuOK(s, h, -1) && JoinerOK(s, target);
    if cur < |s.cpus| { assert IdleOK(s, cur); } else { assert UserOK(s, cur, -1); }
    if j >= 0 { assert UserOK(s, j, -1) && HomeOK(s, j); }
    SlayRecords(s, target);
    JoinerStillWaits(s, Slay(s, target), target);
    BuryRecords(Slay(s, target), h, target);
    KillChangesCompose(s, Slay(s, target), Bury(Slay(s, target), h, target), cur, target);
  }

  lemma JoinerStillWaits(s: State, b: State, target: int)
    requires Inv(s) && |s.cpus| <= target < |s.threads| && SameShape(s, b) && SlayChanges(s, b, target)
    requires JoinerOK(s, target)
    ensures b.threads[target].joinWaiter == s.threads[target].joinWaiter != target
    ensures b.threads[target].joinWaiter >= 0 ==>
               (var j := b.threads[target].joinWaiter;
                |b.cpus| <= j < |b.threads| && b.threads[j].state.Waiting? && b.home[j] < 0)
  {
    var j := s.threads[target].joinWaiter;
    assert UserOK(s, target, -1);
    if j >= 0 { assert UserOK(s, j, -1) && HomeOK(s, j); }
  }
}
