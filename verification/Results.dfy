/** What the answers of the system calls promise to the caller. */
module Results {
  import opened KernelState
  import opened KernelOps
  import opened Partition
  import opened Steps
  import opened Safety
  import opened Links
  import opened JoinProtocol
  import opened Blocking

  /** The caller of a call on hart h, when the call has been taken. */
  function Caller(s: State, r: State, h: int): Thread
    requires s.Sized() && s.Started(h) && |r.threads| == |s.threads|
  {
    r.threads[s.Current(h)]
  }

  /** Nothing has changed but the caller's result. */
  predicate OnlyAnswered(s: State, r: State, h: int)
    requires s.Sized() && s.Started(h) && |r.threads| == |s.threads|
  {
    r == s.WithA0(s.Current(h), Caller(s, r, h).a0)
  }

  /** Somebody may wait for the target: the slot is in use, it is not the caller's own, and the thread
      is attached and not joined by another. */
  predicate Joinable(s: State, cur: int, target: int) {
    && 0 < target < |s.threads| && target != cur
    && !s.threads[target].state.Unused? && !s.threads[target].detached
    && (s.threads[target].joinWaiter < 0 || s.threads[target].joinWaiter == cur)
  }

  /** Why a join is refused, by its answer: no such slot, oneself, a free slot, a detached thread, a
      thread that another one joins. */
  predicate RefusesJoin(s: State, cur: int, target: int, code: int) {
    && (code == -1 || code == -2 || code == -3 || code == -4 || code == -5)
    && (code == -1 <==> !(0 < target < |s.threads|))
    && (0 < target < |s.threads| ==>
          && (code == -2 <==> target == cur)
          && (target != cur ==>
                && (code == -3 <==> s.threads[target].state.Unused?)
                && (code == -5 <==> !s.threads[target].state.Unused? && s.threads[target].detached)
                && (code == -4 <==> !s.threads[target].state.Unused? && !s.threads[target].detached
                                    && s.threads[target].joinWaiter >= 0 && s.threads[target].joinWaiter != cur)))
  }

  lemma RefusedJoin(s: State, h: nat, target: int, ptr: nat)
    requires s.Sized() && s.Started(h) && !Joinable(s, s.Current(h), target) && 0 < s.Current(h)
    ensures var r := Join(s, h, s.Current(h), target, ptr);
      OnlyAnswered(s, r, h) && RefusesJoin(s, s.Current(h), target, Caller(s, r, h).a0)
  {
  }

  lemma WaitingJoin(s: State, h: nat, target: int, ptr: nat)
    requires Inv(s) && s.Started(h) && |s.cpus| <= s.Current(h)
    requires Joinable(s, s.Current(h), target) && !s.threads[target].state.Zombie?
    ensures var r, cur := Join(s, h, s.Current(h), target, ptr), s.Current(h);
      var u := Caller(s, r, h);
      && u.state.Waiting? && u.waitingFor == target && u.joinStatusPtr == ptr && Live(s.threads[target])
      && r.threads[target].joinWaiter == cur && r.words == s.words
  {
    CurrentIsRunning(s, h);
    AwaitExitKeepsCore(s, h, target, ptr);
    ScheduleEffect(AwaitExit(s, s.Current(h), target, ptr), h);
    assert Join(s, h, s.Current(h), target, ptr) == Schedule(AwaitExit(s, s.Current(h), target, ptr), h, s.cpus[h].curTf);
    hide Schedule;
  }

  /** A join answers 0 exactly for a dead thread it may wait for, whose code it stores and whose slot
      it frees; it waits exactly for a live one; every refusal has its own guard and changes nothing. */
  lemma JoinAnswers(s: State, h: nat, target: int, ptr: nat)
    requires Inv(s) && Enabled(s, Sys(h, JoinThread(target, ptr)))
    ensures var r, cur := Step(s, Sys(h, JoinThread(target, ptr))), s.Current(h);
      var u := Caller(s, r, h);
      if Joinable(s, cur, target) && s.threads[target].state.Zombie? then
        && u == s.threads[cur].(a0 := 0) && u.state.Running? && r.threads[target].state.Unused?
        && r.words == WithWord(s.words, ptr, s.threads[target].exitCode)
        && OthersKept(s, r, cur, target) && r.queues == s.queues && r.home == s.home && r.cpus == s.cpus
      else if Joinable(s, cur, target) then
        && u.state.Waiting? && u.waitingFor == target && u.joinStatusPtr == ptr && Live(s.threads[target])
        && r.threads[target].joinWaiter == cur && r.words == s.words
      else
        OnlyAnswered(s, r, h) && u.state.Running? && RefusesJoin(s, cur, target, u.a0)
  {
    var cur := s.Current(h);
    CurrentIsRunning(s, h);
    SyscallKeepsInv(s, h, JoinThread(target, ptr));
    assert Step(s, Sys(h, JoinThread(target, ptr))) == Join(s, h, cur, target, ptr);
    hide Step;
    if Joinable(s, cur, target) {
      if s.threads[target].state.Zombie? {
        CollectRecords(s, cur, target, ptr);
      } else {
        WaitingJoin(s, h, target, ptr);
        hide Join;
      }
    } else {
      RefusedJoin(s, h, target, ptr);
      hide Join;
    }
  }

  lemma CollectRecords(s: State, cur: int, target: int, ptr: nat)
    requires s.Sized() && s.IsTid(cur) && 0 < target < |s.threads| && target != cur
    ensures var r := Collect(s, cur, target, ptr).WithA0(cur, 0);
      && r.threads[cur] == s.threads[cur].(a0 := 0) && r.threads[target] == FreedRecord(s.threads[target])
      && r.words == WithWord(s.words, ptr, s.threads[target].exitCode)
      && OthersKept(s, r, cur, target) && r.queues == s.queues && r.home == s.home && r.cpus == s.cpus
  {
  }

  /** A create that answers -1 found no free slot and changes nothing; otherwise the answer is the
      lowest free slot, whose thread stands at the tail of a least loaded hart's queue. */
  lemma CreateAnswers(s: State, h: nat, arg: int)
    requires Inv(s) && Enabled(s, Sys(h, CreateThread(arg)))
    ensures var r := Step(s, Sys(h, CreateThread(arg)));
      var u := Caller(s, r, h);
      if u.a0 == -1 then
        OnlyAnswered(s, r, h) && forall i :: 0 < i < |s.threads| ==> !s.threads[i].state.Unused?
      else
        && |s.cpus| <= u.a0 < |s.threads| && s.threads[u.a0].state.Unused?
        && (forall i :: 0 < i < u.a0 ==> !s.threads[i].state.Unused?)
        && r.threads[u.a0].state.Runnable? && r.threads[u.a0].a0 == arg && r.threads[u.a0].isUser
        && r.threads[u.a0].canBeKilled && !r.threads[u.a0].detached
        && (exists g :: LeastLoaded(s, h, g) && r.home[u.a0] == g && r.queues == s.queues[g := s.queues[g] + [u.a0]])
        && (forall i :: s.IsTid(i) && i != u.a0 && i != s.Current(h) ==> r.threads[i] == s.threads[i])
  {
    CurrentIsRunning(s, h);
    SyscallKeepsInv(s, h, CreateThread(arg));
    CreateRecords(s, h, arg);
    assert Step(s, Sys(h, CreateThread(arg))) == Create(s, h, s.Current(h), arg);
  }

  lemma CreateRecords(s: State, h: nat, arg: int)
    requires Inv(s) && s.Started(h) && |s.cpus| <= s.Current(h)
    ensures var r := Create(s, h, s.Current(h), arg);
      var u := Caller(s, r, h);
      if u.a0 == -1 then
        OnlyAnswered(s, r, h) && forall i :: 0 < i < |s.threads| ==> !s.threads[i].state.Unused?
      else
        && |s.cpus| <= u.a0 < |s.threads| && s.threads[u.a0].state.Unused?
        && (forall i :: 0 < i < u.a0 ==> !s.threads[i].state.Unused?)
        && r.threads[u.a0].state.Runnable? && r.threads[u.a0].a0 == arg && r.threads[u.a0].isUser
        && r.threads[u.a0].canBeKilled && !r.threads[u.a0].detached
        && (exists g :: LeastLoaded(s, h, g) && r.home[u.a0] == g && r.queues == s.queues[g := s.queues[g] + [u.a0]])
        && (forall i :: s.IsTid(i) && i != u.a0 && i != s.Current(h) ==> r.threads[i] == s.threads[i])
  {
    CurrentIsRunning(s, h);
    var tid := AllocFrom(s, 1);
    if tid >= 0 {
      AllocIsUser(s, -1);
      assert UserOK(s, tid, -1);
      var t := s.threads[tid].(state := Runnable, wakeupTick := 0, isUser := true,
                               canBeKilled := true, detached := false, a0 := arg);
      var s1 := s.WithThread(tid, t).Logged(Created(tid));
      PickTargetIsBest(s, h);
      PickIgnoresThreads(s, s1, 0, h, |s.queues[h]|, s.cpus[h].online);
      assert LeastLoaded(s, h, PickTarget(s, h));
      hide LeastLoaded;
      hide PickTarget;
      hide UserOK;
    }
  }

  /** The killer's result and the victim's end survive what the victim's hart does next. */
  lemma KillSettles(s: State, r: State, h: nat, target: int)
    requires s.Sized() && s.Started(h) && s.IsTid(target) && SameShape(s, r) && s.Current(h) != target
    requires KillChanges(s, r, s.Current(h), target) && Core(r, s.threads[target].runningHart)
    requires s.threads[s.Current(h)].state.Running? && |s.cpus| <= target && -1 <= s.threads[target].joinWaiter
    requires var v := s.threads[target].runningHart; v == -1 || (r.Started(v) && v != h && r.Current(v) == target)
    ensures var v := s.threads[target].runningHart;
      var q := if r.Started(v) then Schedule(r, v, r.cpus[v].curTf) else r;
      && q.threads[s.Current(h)].a0 == 0 && q.threads[s.Current(h)].state.Running?
      && Ended(s.threads[target], q.threads[target], -9)
      && |s.log| < |q.log| && q.log[|s.log|] == Terminated(target, -9)
  {
    var v := s.threads[target].runningHart;
    assert r.threads[s.Current(h)] == s.threads[s.Current(h)].(a0 := 0);
    if v >= 0 {
      FrameIsCurrent(r, v, v);
      ScheduleEffect(r, v);
      hide Schedule;
    }
  }

  /** The caller may kill the target, dead or alive. */
  predicate Killable(s: State, cur: int, target: int) {
    0 < target < |s.threads| && target != cur && s.threads[target].canBeKilled && !s.threads[target].state.Unused?
  }

  lemma RefusedKill(s: State, h: nat, target: int)
    requires s.Sized() && s.Started(h) && !(Killable(s, s.Current(h), target) && Live(s.threads[target])) && s.Current(h) != 0
    ensures var r := Kill(s, h, s.Current(h), target);
      var u := Caller(s, r, h);
      && OnlyAnswered(s, r, h) && (u.a0 == 0 || u.a0 == -1 || u.a0 == -2 || u.a0 == -3 || u.a0 == -4)
      && (u.a0 == 0 <==> Killable(s, s.Current(h), target))
      && (u.a0 == -1 <==> !(0 <= target < |s.threads|))
      && (u.a0 == -2 <==> target == 0)
      && (u.a0 == -4 <==> target == s.Current(h))
      && (u.a0 == -3 <==> 0 < target < |s.threads| && target != s.Current(h)
                          && (!s.threads[target].canBeKilled || s.threads[target].state.Unused?))
  {
  }

  /** A kill answers 0 exactly for a killable thread in use, which is then dead: one that was alive has
      ended with code -9. Every refusal has its own guard, and it changes nothing. */
  lemma KillAnswers(s: State, h: nat, target: int)
    requires Inv(s) && Linked(s) && Enabled(s, Sys(h, KillThread(target)))
    ensures var r, cur := Step(s, Sys(h, KillThread(target))), s.Current(h);
      var u := Caller(s, r, h);
      if Killable(s, cur, target) && Live(s.threads[target]) then
        && u.a0 == 0 && u.state.Running? && Ended(s.threads[target], r.threads[target], -9)
        && |s.log| < |r.log| && r.log[|s.log|] == Terminated(target, -9)
      else
        && OnlyAnswered(s, r, h) && (u.a0 == 0 || u.a0 == -1 || u.a0 == -2 || u.a0 == -3 || u.a0 == -4)
        && (u.a0 == 0 <==> Killable(s, cur, target))
        && (u.a0 == -1 <==> !(0 <= target < |s.threads|))
        && (u.a0 == -2 <==> target == 0)
        && (u.a0 == -4 <==> target == cur)
        && (u.a0 == -3 <==> 0 < target < |s.threads| && target != cur
                            && (!s.threads[target].canBeKilled || s.threads[target].state.Unused?))
  {
    hide Kill;
    SyscallKeepsInv(s, h, KillThread(target));
    CurrentIsRunning(s, h);
    KillStepIs(s, h, target);
    if !(Killable(s, s.Current(h), target) && Live(s.threads[target])) {
      RefusedKill(s, h, target);
    } else {
      var r := Kill(s, h, s.Current(h), target);
      KillRecords(s, h, target);
      KillKeepsCore(s, h, target);
      VictimIsElsewhere(s, h, target);
      assert UserOK(s, target, -1);
      KillSettles(s, r, h, target);
    }
  }

  /** Threads other than idle threads may be detached, if in use and not joined. */
  predicate Detachable(s: State, target: int) {
    |s.cpus| <= target < |s.threads| && !s.threads[target].state.Unused? && s.threads[target].joinWaiter < 0
  }

  /** A detach answers 0 exactly for a detachable thread, which is then detached, or free if it was dead;
      every refusal has its own guard and changes nothing. */
  lemma DetachAnswers(s: State, h: nat, target: int)
    requires Inv(s) && Enabled(s, Sys(h, DetachThread(target)))
    ensures var r, cur := Step(s, Sys(h, DetachThread(target))), s.Current(h);
      var u := Caller(s, r, h);
      && u.state.Running? && OthersKept(s, r, cur, target) && r.queues == s.queues && r.words == s.words
      && if Detachable(s, target) then
           && u.a0 == 0
           && if s.threads[target].state.Zombie? && !s.threads[target].detached then r.threads[target].state.Unused?
              else r.threads[target].detached && r.threads[target].state == s.threads[target].state
         else
           && OnlyAnswered(s, r, h) && (u.a0 == -1 || u.a0 == -2 || u.a0 == -3 || u.a0 == -4)
           && (u.a0 == -1 <==> !(0 < target < |s.threads|))
           && (u.a0 == -2 <==> 0 < target < |s.cpus|)
           && (u.a0 == -3 <==> |s.cpus| <= target < |s.threads| && s.threads[target].state.Unused?)
           && (u.a0 == -4 <==> |s.cpus| <= target < |s.threads| && !s.threads[target].state.Unused? && s.threads[target].joinWaiter >= 0)
  {
    CurrentIsRunning(s, h);
    SyscallKeepsInv(s, h, DetachThread(target));
    assert Step(s, Sys(h, DetachThread(target))) == Detach(s, s.Current(h), target);
    hide Step;
    if 0 < target < |s.cpus| { assert IdleOK(s, target); }
  }
}
