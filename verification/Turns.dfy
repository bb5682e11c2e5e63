/** Whose turn it is: what each trap that gives up a hart leaves on it. */
module Turns {
  import opened Bytes
  import opened KernelState
  import opened KernelOps
  import opened Partition
  import opened Steps
  import opened Safety
  import opened Links
  import opened JoinProtocol
  import opened Blocking
  import opened Causes

  /** Hart h has just been given to thread n, for five ticks. */
  predicate Given(r: State, h: int, n: int) {
    && r.Started(h) && r.Current(h) == n && r.cpus[h].curTf == n && r.cpus[h].sliceLeft == 5
    && r.threads[n].state.Running? && r.threads[n].runningHart == h
  }

  /** The queue without its head. */
  function Rest(q: seq<int>): seq<int> {
    if q == [] then [] else q[1..]
  }

  /** The head of the queue, or the hart's idle thread. */
  function Head(q: seq<int>, h: int): int {
    if q == [] then h else q[0]
  }

  /** The current thread of hart h goes to the tail of the hart's queue and the head runs; alone, it
      runs on. The idle thread is never queued. */
  predicate TurnPassed(s: State, r: State, h: int)
    requires s.Sized() && s.Started(h)
  {
    var cur, q := s.Current(h), s.queues[h];
    && |r.threads| == |s.threads| && |r.home| == |s.home| == |s.threads|
    && if q == [] then
         Given(r, h, cur) && r.queues == s.queues && OthersKept(s, r, cur, cur)
       else
         && Given(r, h, q[0]) && r.queues == s.queues[h := q[1..] + (if cur == h then [] else [cur])]
         && r.threads[cur] == s.threads[cur].(state := Runnable, runningHart := -1)
         && r.home[cur] == (if cur == h then -1 else h)
         && OthersKept(s, r, cur, q[0])
  }

  /** The current thread of hart h has left it and is on no queue; the head of the queue runs, or the
      idle thread. */
  predicate LeftCpu(s: State, r: State, h: int)
    requires s.Sized() && s.Started(h)
  {
    var cur, q := s.Current(h), s.queues[h];
    && |r.threads| == |s.threads| && |r.home| == |s.home|
    && Given(r, h, Head(q, h)) && r.queues == s.queues[h := Rest(q)]
    && r.home[cur] == -1 && r.threads[cur].runningHart == -1
  }

  /** What one call of schedule does to hart h and its queue. */
  lemma SwitchTakesHead(m: State, h: nat)
    requires Core(m, h) && m.Started(h)
    ensures var r, cur := Schedule(m, h, m.cpus[h].curTf), m.Current(h);
      var q := m.queues[h] + (if cur != h && m.threads[cur].state.Running? then [cur] else []);
      && Given(r, h, Head(q, h)) && r.queues == m.queues[h := Rest(q)]
      && (m.threads[cur].state.Running? && Head(q, h) != cur ==>
            r.threads[cur] == m.threads[cur].(state := Runnable, runningHart := -1) && r.home[cur] == (if cur == h then -1 else h))
      && (!m.threads[cur].state.Running? ==> r.home[cur] == -1 && r.threads[cur].runningHart == -1)
  {
    var y, cur := Yielded(m, h), m.Current(h);
    ScheduleRestoresCore(m, h);
    YieldedVacates(m, h);
    assert CpuOK(m, h, h) && HomeOK(m, cur) && QueueOK(m, h);
    if cur == h { assert IdleOK(m, h); } else { assert UserOK(m, cur, h); }
    YieldQueues(m, h);
  }

  lemma YieldQueues(m: State, h: nat)
    requires Core(m, h) && m.Started(h)
    ensures var y, cur := Yielded(m, h), m.Current(h);
      && y.queues == m.queues[h := m.queues[h] + (if cur != h && m.threads[cur].state.Running? then [cur] else [])]
      && (cur != h && m.threads[cur].state.Running? ==>
            y.threads[cur] == m.threads[cur].(state := Runnable, runningHart := -1) && y.home[cur] == h)
      && (!(cur != h && m.threads[cur].state.Running?) ==> y.home[cur] == -1 && y.threads[cur].runningHart == -1)
  {
    var cur := m.Current(h);
    assert CpuOK(m, h, h) && HomeOK(m, cur);
    if cur == h { assert IdleOK(m, h); } else { assert UserOK(m, cur, h); }
    assert m.queues[h] + [] == m.queues[h];
  }

  /** A call of schedule with a running thread passes the turn. */
  lemma SwitchPassesTurn(s: State, h: nat)
    requires Inv(s) && s.Started(h)
    ensures TurnPassed(s, Schedule(s, h, s.cpus[h].curTf), h)
  {
    var cur, q := s.Current(h), s.queues[h];
    CoreWeakens(s, h);
    CurrentIsRunning(s, h);
    SwitchTakesHead(s, h);
    ScheduleTouchesTwo(s, h);
    assert QueueOK(s, h) && HomeOK(s, cur);
    if q == [] {
      assert [] + [cur] == [cur] && [cur][1..] == [];
      assert s.queues[h := []] == s.queues;
    } else {
      assert cur != q[0] by {
        assert q[0] in q;
        if cur >= |s.cpus| { assert UserOK(s, cur, -1); } else { assert CpuOK(s, h, -1); }
      }
      assert (q + [cur])[1..] == q[1..] + [cur] && (q + [])[1..] == q[1..] + [];
    }
  }

  /** yield and sleep(0): the caller goes to the tail of its hart's queue and the head runs with a
      fresh slice; with an empty queue the caller runs on with a fresh slice. */
  lemma YieldPassesTurn(s: State, h: nat, c: Call)
    requires Inv(s) && Enabled(s, Sys(h, c)) && (c == YieldCpu || c == SleepFor(0))
    ensures TurnPassed(s, Step(s, Sys(h, c)), h)
  {
    hide TurnPassed;
    CurrentIsRunning(s, h);
    SwitchPassesTurn(s, h);
  }

  /** The inter-processor interrupt does the same to whatever its hart runs. */
  lemma IpiPassesTurn(s: State, h: nat)
    requires Inv(s) && Enabled(s, Ipi(h))
    ensures TurnPassed(s, Step(s, Ipi(h)), h)
  {
    hide TurnPassed;
    CurrentIsRunning(s, h);
    SwitchPassesTurn(s, h);
  }

  /** The state in which the timer interrupt finds the queues, after the boot hart's tick. */
  function Ticked(s: State, h: int): State
    requires s.Sized()
  {
    if h == s.boot then ThreadsTick(s) else s
  }

  /** A timer interrupt takes one tick off the slice and leaves the hart to its thread until the
      slice is used up; then it passes the turn. */
  lemma TimerTurns(s: State, h: nat)
    requires Inv(s) && Enabled(s, Timer(h))
    ensures var m, r, cur := Ticked(s, h), Step(s, Timer(h)), s.Current(h);
      && Inv(m) && m.Started(h) && m.Current(h) == cur && s.queues[h] <= m.queues[h]
      && if s.cpus[h].sliceLeft > 1 then
           && r == m.(cpus := m.cpus[h := m.cpus[h].(sliceLeft := s.cpus[h].sliceLeft - 1)])
           && r.Started(h) && r.Current(h) == cur && r.threads[cur].state.Running?
         else TurnPassed(m, r, h)
  {
    hide TurnPassed;
    var m := Ticked(s, h);
    ClockedKeepsInv(s, h);
    assert m == Clocked(s, h);
    CurrentIsRunning(s, h);
    CurrentIsRunning(m, h);
    CountSliceCases(m, h);
    if s.cpus[h].sliceLeft == 1 {
      ExpiredIsInv(m, h);
      SwitchPassesTurn(Expired(m, h), h);
      SameTurn(m, Expired(m, h), Schedule(Expired(m, h), h, Expired(m, h).cpus[h].curTf), h);
    }
  }

  lemma ExpiredIsInv(m: State, h: nat)
    requires Inv(m) && m.Started(h)
    ensures Inv(Expired(m, h)) && Expired(m, h).Started(h)
  {
    SliceKeepsCore(m, h, SLICE_TICKS);
  }

  lemma SameTurn(m: State, e: State, r: State, h: nat)
    requires m.Sized() && m.Started(h) && e.Sized() && e.Started(h) && TurnPassed(e, r, h)
    requires e.threads == m.threads && e.queues == m.queues && e.home == m.home && e.Current(h) == m.Current(h)
    ensures TurnPassed(m, r, h)
  {
  }

  /** m is s with hart h's current thread blocked: it leaves the hart, and nothing else changes but
      the thread that runs instead. */
  lemma BlockedLeavesCpu(s: State, m: State, h: nat)
    requires s.Sized() && s.Started(h) && Core(m, h) && m.Started(h) && m.Current(h) == s.Current(h)
    requires m.queues == s.queues && |m.threads| == |s.threads| && !m.threads[m.Current(h)].state.Running?
    requires !m.threads[m.Current(h)].state.Zombie?
    ensures var r, cur := Schedule(m, h, m.cpus[h].curTf), s.Current(h);
      && LeftCpu(s, r, h) && OthersKept(m, r, cur, Head(s.queues[h], h))
      && r.threads[cur] == m.threads[cur].(runningHart := -1)
  {
    SwitchTakesHead(m, h);
    ScheduleTouchesTwo(m, h);
    ScheduleEffect(m, h);
    assert m.queues[h] + [] == m.queues[h];
    assert QueueOK(m, h) && HomeOK(m, m.Current(h));
    assert CpuOK(m, h, h);
    if m.Current(h) == h { assert IdleOK(m, h); } else { assert UserOK(m, m.Current(h), h); }
    assert m.queues[h] != [] ==> m.queues[h][0] in m.queues[h];
  }

  /** sleep(n): the caller sleeps until n ticks from now, in 64 bits, and the head of its hart's queue
      runs; no other thread changes. */
  lemma SleepLeavesCpu(s: State, h: nat, n: U64)
    requires Inv(s) && Enabled(s, Sys(h, SleepFor(n))) && n > 0
    ensures var r, cur := Step(s, Sys(h, SleepFor(n))), s.Current(h);
      && LeftCpu(s, r, h) && OthersKept(s, r, cur, Head(s.queues[h], h))
      && r.threads[cur] == s.threads[cur].(state := Sleeping, wakeupTick := Plus64(s.ticks, n), runningHart := -1)
  {
    var cur := s.Current(h);
    CurrentIsRunning(s, h);
    SyscallKeepsInv(s, h, SleepFor(n));
    CurrentChanges(s, h, Asleep(s, h, n));
    hide LeftCpu;
    BlockedLeavesCpu(s, s.WithThread(cur, Asleep(s, h, n)), h);
    assert Step(s, Sys(h, SleepFor(n))) == Sleep(s, h, cur, n);
  }

  /** A read that finds no byte to take: the caller blocks with its request and is the registered
      reader, and the head of its hart's queue runs. */
  lemma ReadLeavesCpu(s: State, h: nat, buf: nat, len: nat)
    requires Inv(s) && Enabled(s, Sys(h, ReadInput(0, buf, len))) && (len == 0 || s.rx == [])
    ensures var r, cur := Step(s, Sys(h, ReadInput(0, buf, len))), s.Current(h);
      && LeftCpu(s, r, h) && OthersKept(s, r, cur, Head(s.queues[h], h)) && r.stdinWaiter == cur && r.rx == s.rx
      && r.threads[cur] == s.threads[cur].(state := Blocked, readBuf := buf, readLen := len, runningHart := -1)
  {
    var cur := s.Current(h);
    CurrentIsRunning(s, h);
    SyscallKeepsInv(s, h, ReadInput(0, buf, len));
    var s1 := s.(stdinWaiter := cur);
    SameOwnershipKeepsCore(s, s1, -1);
    CurrentChanges(s1, h, s.threads[cur].(readBuf := buf, readLen := len, state := Blocked));
    BlockedLeavesCpu(s, AwaitInput(s, cur, buf, len), h);
    ScheduleEffect(AwaitInput(s, cur, buf, len), h);
    hide LeftCpu;
    hide Schedule;
    assert Step(s, Sys(h, ReadInput(0, buf, len))) == Read(s, h, cur, 0, buf, len);
  }

  /** A join that has to wait: the caller waits for the target, which names it, and the head of its
      hart's queue runs. */
  lemma JoinLeavesCpu(s: State, h: nat, t: int, ptr: nat)
    requires Inv(s) && Enabled(s, Sys(h, JoinThread(t, ptr)))
    requires 0 < t < |s.threads| && t != s.Current(h) && Live(s.threads[t]) && !s.threads[t].detached
    requires s.threads[t].joinWaiter < 0 || s.threads[t].joinWaiter == s.Current(h)
    ensures var r, cur := Step(s, Sys(h, JoinThread(t, ptr))), s.Current(h);
      && LeftCpu(s, r, h)
      && r.threads[cur] == s.threads[cur].(state := Waiting, waitingFor := t, joinStatusPtr := ptr, runningHart := -1)
      && r.threads[t].joinWaiter == cur
      && (forall i :: s.IsTid(i) && i != cur && i != t && i != Head(s.queues[h], h) ==> r.threads[i] == s.threads[i])
  {
    var cur := s.Current(h);
    CurrentIsRunning(s, h);
    SyscallKeepsInv(s, h, JoinThread(t, ptr));
    WaitLeavesCpu(s, h, t, ptr);
    assert Step(s, Sys(h, JoinThread(t, ptr))) == Join(s, h, cur, t, ptr);
    hide LeftCpu;
    hide Schedule;
    hide Step;
  }

  lemma WaitLeavesCpu(s: State, h: nat, t: int, ptr: nat)
    requires Inv(s) && s.Started(h) && |s.cpus| <= s.Current(h)
    requires 0 < t < |s.threads| && t != s.Current(h) && Live(s.threads[t]) && !s.threads[t].detached
    requires s.threads[t].joinWaiter < 0 || s.threads[t].joinWaiter == s.Current(h)
    ensures var m, cur := AwaitExit(s, s.Current(h), t, ptr), s.Current(h);
      var r := Schedule(m, h, m.cpus[h].curTf);
      && LeftCpu(s, r, h)
      && r.threads[cur] == s.threads[cur].(state := Waiting, waitingFor := t, joinStatusPtr := ptr, runningHart := -1)
      && r.threads[t].joinWaiter == cur
      && (forall i :: s.IsTid(i) && i != cur && i != t && i != Head(s.queues[h], h) ==> r.threads[i] == s.threads[i])
  {
    var cur := s.Current(h);
    var m := AwaitExit(s, cur, t, ptr);
    CurrentIsRunning(s, h);
    AwaitExitKeepsCore(s, h, t, ptr);
    BlockedLeavesCpu(s, m, h);
    ScheduleEffect(m, h);
    hide LeftCpu;
    hide Schedule;
    hide Inv;
    assert m.threads[t].joinWaiter == cur;
  }

  /** A hart that comes online has a fresh slice and no thread; entering idle, it runs its own idle
      thread. Neither touches another hart or thread. */
  lemma HartStarts(s: State, h: nat)
    requires Inv(s)
    ensures Enabled(s, GoOnline(h)) ==> Step(s, GoOnline(h)) == s.(cpus := s.cpus[h := Cpu(true, -1, -1, 5)])
    ensures Enabled(s, StartIdle(h)) ==> var r := Step(s, StartIdle(h));
              Given(r, h, h) && OthersKept(s, r, h, h) && r.queues == s.queues && (forall g :: 0 <= g < |s.cpus| && g != h ==> r.cpus[g] == s.cpus[g])
  {
    if s.IsHart(h) { assert CpuOK(s, h, -1) && IdleOK(s, h); }
  }

  // ---------------------------------------------------------------- exit

  /** Where a death leaves the queues: as they were, or with the served joiner at the tail of one. */
  predicate QueuesAfterDeath(s: State, d: State, j: int) {
    if j < 0 then d.queues == s.queues
    else exists g :: 0 <= g < |s.queues| && d.queues == s.queues[g := s.queues[g] + [j]]
  }

  lemma DieQueues(s: State, h: nat, code: int)
    requires Inv(s) && Linked(s) && s.Started(h) && |s.cpus| <= s.Current(h)
    ensures QueuesAfterDeath(s, Die(s, h, code), s.threads[s.Current(h)].joinWaiter)
  {
    var cur := s.Current(h);
    var j := s.threads[cur].joinWaiter;
    assert UserOK(s, cur, -1) && JoinerOK(s, cur);
    if j >= 0 {
      assert UserOK(s, j, -1) && HomeOK(s, j);
      DeliverQueues(Expiring(s, h, code), h, cur, j, code);
    }
  }

  lemma DeliverQueues(s: State, h: nat, tid: int, j: int, code: int)
    requires s.Sized() && s.IsHart(h) && |s.cpus| <= j < |s.threads|
    requires s.threads[j].state.Waiting? && s.home[j] < 0
    ensures exists g :: s.IsHart(g) && Deliver(s, h, tid, j, code).queues == s.queues[g := s.queues[g] + [j]]
  {
    var w := s.threads[j];
    var s1 := if w.joinStatusPtr != 0 then s.(words := s.words[w.joinStatusPtr := code]) else s;
    var s2 := s1.WithThread(j, w.(a0 := 0, waitingFor := NO_TID, joinStatusPtr := 0)).Logged(Delivered(tid, j, code));
    var s3 := s2.WithThread(j, s2.threads[j].(state := Runnable, wakeupTick := 0));
    var g := PickTarget(s3, h);
    assert s3.queues == s.queues;
  }

  /** Who runs after a death on hart h: the head of its queue; with an empty queue the idle thread, or
      the served joiner if it was placed there. */
  predicate NextAfterDeath(s: State, r: State, h: int, j: int)
    requires s.IsHart(h) && |s.queues| == |s.cpus|
  {
    if s.queues[h] != [] then Given(r, h, s.queues[h][0]) else Given(r, h, h) || (j >= 0 && Given(r, h, j))
  }

  /** The records of a death, as far as they hold whatever the joiner does. */
  predicate DeathRecorded(s: State, m: State, cur: int, c: int)
    requires s.IsTid(cur) && SameShape(s, m)
  {
    var j := s.threads[cur].joinWaiter;
    && (if j < 0 then m.threads[cur] == s.threads[cur].(exitCode := c, state := Zombie)
        else m.threads[cur] == FreedRecord(s.threads[cur]))
    && |s.log| < |m.log| && m.log[|s.log|] == Terminated(cur, c) && m.cpus == s.cpus
    && (forall i :: 0 <= i < |s.threads| && i != cur && i != j ==> m.threads[i] == s.threads[i])
  }

  lemma DieRecorded(s: State, h: nat, c: int)
    requires Inv(s) && s.Started(h) && |s.cpus| <= s.Current(h)
    ensures DeathRecorded(s, Die(s, h, c), s.Current(h), c)
  {
    assert UserOK(s, s.Current(h), -1);
  }

  /** How the death of hart h's current thread shows in the state after schedule. */
  predicate DeathShows(s: State, r: State, h: int, c: int)
    requires s.Sized() && s.Started(h)
  {
    var cur := s.Current(h);
    && r.Started(h) && |r.threads| == |s.threads| && |r.cpus| == |s.cpus| && |r.home| == |s.home| == |s.threads|
    && Ended(s.threads[cur], r.threads[cur], c)
    && r.home[cur] == -1 && r.threads[cur].runningHart == -1
    && |s.log| < |r.log| && r.log[|s.log|] == Terminated(cur, c)
    && (forall i :: 0 <= i < |s.threads| && i != cur && i != s.threads[cur].joinWaiter && i != r.Current(h) ==>
          r.threads[i] == s.threads[i])
  }

  lemma DeathSwitches(s: State, m: State, h: nat, c: int)
    requires Inv(s) && s.Started(h) && |s.cpus| <= s.Current(h) && Core(m, h) && SameShape(s, m)
    requires DeathRecorded(s, m, s.Current(h), c)
    ensures DeathShows(s, Schedule(m, h, m.cpus[h].curTf), h, c)
  {
    SwitchTakesHead(m, h);
    ScheduleTouchesTwo(m, h);
    hide Schedule;
    hide Given;
    assert UserOK(s, s.Current(h), -1);
  }

  lemma DeathHandsOver(s: State, m: State, h: nat, j: int)
    requires Inv(s) && s.Started(h) && Core(m, h) && SameShape(s, m) && m.cpus == s.cpus
    requires QueuesAfterDeath(s, m, j) && |s.cpus| <= s.Current(h) && !m.threads[s.Current(h)].state.Running?
    ensures NextAfterDeath(s, Schedule(m, h, m.cpus[h].curTf), h, j)
  {
    SwitchTakesHead(m, h);
    hide Schedule;
    hide Given;
    assert m.queues[h] + [] == m.queues[h];
  }

  /** exit(c): the caller ends with that code, is on no hart and on no queue, its end is recorded,
      and no thread changes but its joiner and the one that runs instead. */
  lemma ExitEndsCaller(s: State, h: nat, c: int)
    requires Inv(s) && Enabled(s, Sys(h, ExitWith(c)))
    ensures var r := Step(s, Sys(h, ExitWith(c)));
      DeathShows(s, r, h, c) && forall g :: s.IsHart(g) ==> r.cpus[g].currentTid != s.Current(h)
  {
    var cur, a := s.Current(h), Sys(h, ExitWith(c));
    CurrentIsRunning(s, h);
    CallerIsUser(s, h);
    DieRecorded(s, h, c);
    DieVacatesOnSchedule(s, h, c);
    DeathSwitches(s, Die(s, h, c), h, c);
    assert Step(s, a) == Schedule(Die(s, h, c), h, s.cpus[h].curTf);
    hide Die;
    hide Schedule;
    hide Step;
    StepKeepsInv(s, a);
    ExitLeavesHarts(s, Step(s, a), cur);
  }

  lemma CallerIsUser(s: State, h: nat)
    requires Inv(s) && s.Started(h) && s.threads[s.Current(h)].isUser
    ensures |s.cpus| <= s.Current(h)
  {
    assert s.Current(h) < |s.cpus| ==> IdleOK(s, s.Current(h));
  }

  /** After exit(c) the hart goes to the head of its queue, and a joiner's call has returned 0 with
      the code stored where it asked. */
  lemma ExitHandsOver(s: State, h: nat, c: int)
    requires Inv(s) && Linked(s) && Enabled(s, Sys(h, ExitWith(c)))
    ensures var r, j := Step(s, Sys(h, ExitWith(c))), s.threads[s.Current(h)].joinWaiter;
      && NextAfterDeath(s, r, h, j)
      && (if j < 0 then r.words == s.words
          else s.IsTid(j) && Returned(r.threads[j]) && r.words == WithWord(s.words, s.threads[j].joinStatusPtr, c))
  {
    var cur, a := s.Current(h), Sys(h, ExitWith(c));
    var m := Die(s, h, c);
    CurrentIsRunning(s, h);
    CallerIsUser(s, h);
    DieRecords(s, h, c);
    DieQueues(s, h, c);
    DieVacatesOnSchedule(s, h, c);
    hide Die;
    hide Schedule;
    hide QueuesAfterDeath;
    hide NextAfterDeath;
    DeathHandsOver(s, m, h, s.threads[cur].joinWaiter);
    DeathServes(s, m, h, c);
    assert Step(s, a) == Schedule(m, h, m.cpus[h].curTf);
  }

  lemma DeathServes(s: State, m: State, h: nat, c: int)
    requires s.Sized() && s.Started(h) && Core(m, h) && SameShape(s, m) && DieChanges(s, m, s.Current(h), c)
    ensures var r, j := Schedule(m, h, m.cpus[h].curTf), s.threads[s.Current(h)].joinWaiter;
      if j < 0 then r.words == s.words
      else s.IsTid(j) && Returned(r.threads[j]) && r.words == WithWord(s.words, s.threads[j].joinStatusPtr, c)
  {
    ScheduleEffect(m, h);
  }

  lemma ExitLeavesHarts(s: State, r: State, cur: int)
    requires Inv(r) && |r.cpus| == |s.cpus| && |r.cpus| <= cur < |r.threads| && r.threads[cur].runningHart == -1
    ensures forall g :: s.IsHart(g) ==> r.cpus[g].currentTid != cur
  {
    forall g | s.IsHart(g) ensures r.cpus[g].currentTid != cur {
      assert CpuOK(r, g, -1);
    }
  }
}
