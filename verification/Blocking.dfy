/** Sleeping and blocking for input: who enters these states, and when they leave them. */
module Blocking {
  import opened Bytes
  import opened KernelState
  import opened KernelOps
  import opened Partition
  import opened Steps
  import opened Safety
  import opened Links
  import opened JoinProtocol
  import opened Bystanders
  import opened Quietness

  // ---------------------------------------------------------------- the current thread

  /** The trapping hart's current thread goes to sleep, or blocks, only by asking for it. */
  predicate CurrentMoved(s: State, a: Action, r: State)
    requires s.Started(a.hart) && r.IsTid(s.Current(a.hart))
  {
    var cur := s.Current(a.hart);
    var u := r.threads[cur];
    && (u.state.Sleeping? ==> a.Sys? && a.call.SleepFor? && a.call.ticks > 0 &&
                              u.wakeupTick == Plus64(s.ticks, a.call.ticks))
    && (u.state.Blocked? ==> a.Sys? && a.call.ReadInput? && Min(a.call.len, |s.rx|) == 0 &&
                             u.readBuf == a.call.buf && u.readLen == a.call.len && r.stdinWaiter == cur)
  }

  /** After schedule, the thread that was current is as m left it, switched, or freed. */
  lemma CurrentAfterSchedule(m: State, h: nat)
    requires Core(m, h) && m.Started(h)
    ensures var r, cur := Schedule(m, h, m.cpus[h].curTf), m.Current(h);
      && (Switched(m.threads[cur], r.threads[cur]) || r.threads[cur].state.Unused?)
      && (m.threads[cur].state.Blocked? ==> r.stdinWaiter == m.stdinWaiter)
  {
    ScheduleEffect(m, h);
  }

  /** If the state just before schedule is accounted for, so is the state after it. */
  lemma ThenSchedule(s: State, a: Action, m: State)
    requires s.Started(a.hart) && Core(m, a.hart) && m.Started(a.hart) && m.Current(a.hart) == s.Current(a.hart)
    requires CurrentMoved(s, a, m)
    ensures CurrentMoved(s, a, Schedule(m, a.hart, m.cpus[a.hart].curTf))
  {
    CurrentAfterSchedule(m, a.hart);
  }

  lemma SliceMovesCurrent(s: State, a: Action, m: State)
    requires s.Started(a.hart) && Inv(m) && m.Started(a.hart) && m.Current(a.hart) == s.Current(a.hart)
    requires CurrentMoved(s, a, m)
    ensures CurrentMoved(s, a, CountSlice(m, a.hart, m.Current(a.hart)))
  {
    CountSliceCases(m, a.hart);
    if m.cpus[a.hart].sliceLeft == 1 { ThenSchedule(s, a, Expired(m, a.hart)); }
  }

  lemma TimerMovesCurrent(s: State, h: nat)
    requires Inv(s) && s.Started(h)
    ensures CurrentMoved(s, Timer(h), OnTimer(s, h, s.Current(h)))
  {
    CurrentIsRunning(s, h);
    ClockedKeepsInv(s, h);
    ClockedRecords(s, h);
    SliceMovesCurrent(s, Timer(h), Clocked(s, h));
  }

  lemma UartMovesCurrent(s: State, h: nat, bs: seq<Byte>)
    requires Inv(s) && Linked(s) && s.Started(h)
    ensures CurrentMoved(s, Uart(h, bs), OnChars(s, h, bs))
  {
    CurrentIsRunning(s, h);
    UartEvolves(s, h, bs, s.Current(h));
  }

  lemma SleepMovesCurrent(s: State, h: nat, n: U64, c: Call)
    requires Inv(s) && s.Started(h) && |s.cpus| <= s.Current(h) && (c == SleepFor(n) || (c == YieldCpu && n == 0))
    ensures CurrentMoved(s, Sys(h, c), Sleep(s, h, s.Current(h), n))
  {
    CurrentIsRunning(s, h);
    if n == 0 {
      CoreWeakens(s, h);
      ThenSchedule(s, Sys(h, c), s);
    } else {
      CurrentChanges(s, h, Asleep(s, h, n));
      ThenSchedule(s, Sys(h, c), s.WithThread(s.Current(h), Asleep(s, h, n)));
    }
  }

  lemma ExitMovesCurrent(s: State, h: nat, code: int)
    requires Inv(s) && Linked(s) && s.Started(h) && |s.cpus| <= s.Current(h)
    ensures CurrentMoved(s, Sys(h, ExitWith(code)), Exit(s, h, s.Current(h), code))
  {
    FrameIsCurrent(s, h, -1);
    DieRecords(s, h, code);
    DieVacatesOnSchedule(s, h, code);
    CurrentAfterSchedule(Die(s, h, code), h);
  }

  lemma JoinMovesCurrent(s: State, h: nat, target: int, ptr: nat)
    requires Inv(s) && s.Started(h) && |s.cpus| <= s.Current(h)
    ensures CurrentMoved(s, Sys(h, JoinThread(target, ptr)), Join(s, h, s.Current(h), target, ptr))
  {
    CurrentIsRunning(s, h);
    if JoinOutcome(s, s.Current(h), target).JoinWait? {
      AwaitExitKeepsCore(s, h, target, ptr);
      CurrentAfterSchedule(AwaitExit(s, s.Current(h), target, ptr), h);
    }
  }

  lemma ReadMovesCurrent(s: State, h: nat, fd: int, buf: nat, len: nat)
    requires Inv(s) && s.Started(h) && |s.cpus| <= s.Current(h)
    ensures CurrentMoved(s, Sys(h, ReadInput(fd, buf, len)), Read(s, h, s.Current(h), fd, buf, len))
  {
    var cur := s.Current(h);
    CurrentIsRunning(s, h);
    if fd == 0 && Min(len, |s.rx|) <= 0 {
      var s1 := s.(stdinWaiter := cur);
      SameOwnershipKeepsCore(s, s1, -1);
      CurrentChanges(s1, h, s.threads[cur].(readBuf := buf, readLen := len, state := Blocked));
      CurrentAfterSchedule(AwaitInput(s, cur, buf, len), h);
    }
  }

  lemma KillMovesCurrent(s: State, h: nat, target: int)
    requires Inv(s) && Linked(s) && Enabled(s, Sys(h, KillThread(target))) && s.cpus[h].curTf == s.Current(h)
    ensures CurrentMoved(s, Sys(h, KillThread(target)), Step(s, Sys(h, KillThread(target))))
  {
    var cur := s.Current(h);
    var r := Kill(s, h, cur, target);
    CurrentIsRunning(s, h);
    KillStepIs(s, h, target);
    KillKeepsCore(s, h, target);
    if KillTakesEffect(s, cur, target) {
      VictimIsElsewhere(s, h, target);
      KillRecords(s, h, target);
      assert UserOK(s, target, -1);
      VictimHartSettles(s, r, h, target);
    }
  }

  /** The kill's second half on the victim's hart: the killer stays Running, the victim dead. */
  lemma VictimHartSettles(s: State, r: State, h: nat, target: int)
    requires s.Sized() && s.Started(h) && s.IsTid(target) && SameShape(s, r) && s.Current(h) != target
    requires KillChanges(s, r, s.Current(h), target) && Core(r, s.threads[target].runningHart)
    requires s.threads[s.Current(h)].state.Running?
    requires var v := s.threads[target].runningHart; v == -1 || (r.Started(v) && v != h && r.Current(v) == target)
    ensures var v := s.threads[target].runningHart;
      var q := if r.Started(v) then Schedule(r, v, r.cpus[v].curTf) else r;
      q.threads[s.Current(h)].state.Running? && !Live(q.threads[target])
  {
    var v := s.threads[target].runningHart;
    assert r.threads[s.Current(h)].state.Running? && !Live(r.threads[target]);
    if v >= 0 {
      CurrentAfterSchedule(r, v);
      AfterSchedule(r, v, s.Current(h));
    }
  }

  lemma SyscallMovesCurrent(s: State, h: nat, c: Call)
    requires Inv(s) && Linked(s) && Enabled(s, Sys(h, c)) && !c.KillThread? && s.cpus[h].curTf == s.Current(h)
    ensures CurrentMoved(s, Sys(h, c), Syscall(s, h, c))
  {
    SyscallKeepsInv(s, h, c);
    CurrentIsRunning(s, h);
    var cur := s.Current(h);
    match c
    case SleepFor(n) => SleepMovesCurrent(s, h, n, c);
    case YieldCpu => SleepMovesCurrent(s, h, 0, c);
    case ExitWith(code) => ExitMovesCurrent(s, h, code);
    case JoinThread(t, ptr) => JoinMovesCurrent(s, h, t, ptr);
    case CreateThread(arg) => CreateMovesCurrent(s, h, arg);
    case DetachThread(t) => DetachMovesCurrent(s, h, t);
    case ReadInput(fd, buf, len) => ReadMovesCurrent(s, h, fd, buf, len);
    case OtherCall(v) =>
  }

  lemma CreateMovesCurrent(s: State, h: nat, arg: int)
    requires Inv(s) && s.Started(h) && s.threads[s.Current(h)].state.Running?
    ensures CurrentMoved(s, Sys(h, CreateThread(arg)), Create(s, h, s.Current(h), arg))
  {
  }

  lemma DetachMovesCurrent(s: State, h: nat, target: int)
    requires Inv(s) && s.Started(h) && s.threads[s.Current(h)].state.Running?
    ensures CurrentMoved(s, Sys(h, DetachThread(target)), Detach(s, s.Current(h), target))
  {
  }

  lemma CurrentMoves(s: State, a: Action)
    requires Inv(s) && Linked(s) && Enabled(s, a) && s.Started(a.hart)
    ensures CurrentMoved(s, a, Step(s, a))
  {
    FrameIsCurrent(s, a.hart, -1);
    match a
    case Timer(h) => TimerMovesCurrent(s, h);
    case Ipi(h) => CurrentIsRunning(s, h); CoreWeakens(s, h); CurrentAfterSchedule(s, h);
    case Uart(h, bs) => UartMovesCurrent(s, h, bs);
    case Sys(h, c) => if c.KillThread? { KillMovesCurrent(s, h, c.target); } else { SyscallMovesCurrent(s, h, c); }
  }

  // ---------------------------------------------------------------- the victim

  predicate Kills(s: State, a: Action, i: int)
    requires s.Sized() && Enabled(s, a)
  {
    a.Sys? && a.call == KillThread(i) && KillTakesEffect(s, s.Current(a.hart), i)
  }

  /** A killed thread is dead after the step. */
  lemma VictimsDie(s: State, a: Action, i: int)
    requires Inv(s) && Linked(s) && Enabled(s, a) && Kills(s, a, i)
    ensures !Live(Step(s, a).threads[i])
  {
    var h := a.hart;
    CurrentIsRunning(s, h);
    KillStepIs(s, h, i);
    KillKeepsCore(s, h, i);
    KillRecords(s, h, i);
    VictimIsElsewhere(s, h, i);
    assert UserOK(s, i, -1);
    VictimHartSettles(s, Kill(s, h, s.Current(h), i), h, i);
  }

  // ---------------------------------------------------------------- sleep

  /** Every sleeper's wake-up time is still to come. */
  predicate SleepersAhead(s: State) {
    forall i :: 0 <= i < |s.threads| && s.threads[i].state.Sleeping? ==> s.threads[i].wakeupTick > s.ticks
  }

  /** A sleeping thread slept before, with the same wake-up time, or has just asked to. */
  lemma SleeperOrigin(s: State, a: Action, i: int)
    requires Inv(s) && Linked(s) && Enabled(s, a) && SparesWaiters(s, a) && s.IsTid(i)
    requires Step(s, a).threads[i].state.Sleeping?
    ensures var u := Step(s, a).threads[i];
      (s.threads[i].state.Sleeping? && u.wakeupTick == s.threads[i].wakeupTick &&
       (a.Timer? && a.hart == s.boot ==> u.wakeupTick > TicksAfter(s, a))) ||
      (a.Sys? && a.call.SleepFor? && a.call.ticks > 0 && i == s.Current(a.hart) &&
       u.wakeupTick == Plus64(s.ticks, a.call.ticks))
  {
    if s.Started(a.hart) && i == s.Current(a.hart) {
      CurrentMoves(s, a);
    } else if Kills(s, a, i) {
      VictimsDie(s, a, i);
    } else if a.StartIdle? && a.hart == i {
    } else {
      BystanderEvolves(s, a, i);
    }
  }

  /** A sleep that does not wrap the 64-bit sum, checked before the call. */
  predicate SleepFits(s: State, a: Action) {
    a.Sys? && a.call.SleepFor? ==> s.ticks + a.call.ticks < TWO_TO_THE_64
  }

  /** Exactly then is the wake-up time of a new sleeper ahead of the clock. */
  lemma WakeupAheadIffSleepFits(s: State, h: int, n: U64)
    requires Inv(s) && Enabled(s, Sys(h, SleepFor(n))) && n > 0
    ensures var r := Step(s, Sys(h, SleepFor(n)));
      && r.threads[s.Current(h)].state.Sleeping?
      && (r.threads[s.Current(h)].wakeupTick > r.ticks <==> s.ticks + n < TWO_TO_THE_64)
  {
    SyscallKeepsInv(s, h, SleepFor(n));
    CurrentIsRunning(s, h);
    StepQuietness(s, Sys(h, SleepFor(n)));
    CurrentChanges(s, h, Asleep(s, h, n));
    SleeperAfterSchedule(s.WithThread(s.Current(h), Asleep(s, h, n)), h);
    assert Step(s, Sys(h, SleepFor(n))) == Sleep(s, h, s.Current(h), n);
    hide Step;
    hide Schedule;
  }

  lemma SleeperAfterSchedule(m: State, h: nat)
    requires Core(m, h) && m.Started(h) && m.threads[m.Current(h)].state.Sleeping?
    ensures var u := Schedule(m, h, m.cpus[h].curTf).threads[m.Current(h)];
      u.state.Sleeping? && u.wakeupTick == m.threads[m.Current(h)].wakeupTick
  {
    ScheduleEffect(m, h);
  }

  lemma StepKeepsSleepersAhead(s: State, a: Action)
    requires Inv(s) && Linked(s) && Enabled(s, a) && SparesWaiters(s, a) && SleepersAhead(s) && SleepFits(s, a)
    ensures SleepersAhead(Step(s, a))
  {
    var r := Step(s, a);
    if s.Started(a.hart) { FrameIsCurrent(s, a.hart, -1); }
    StepQuietness(s, a);
    forall i | 0 <= i < |r.threads| && r.threads[i].state.Sleeping? ensures r.threads[i].wakeupTick > r.ticks {
      SleeperOrigin(s, a, i);
    }
  }

  /** One step of a sleeper that is not killed: it sleeps on, unless this step's tick is the one
      it waits for, which makes it ready. */
  lemma SleeperSteps(s: State, a: Action, i: int)
    requires Inv(s) && Linked(s) && Enabled(s, a) && SparesWaiters(s, a) && s.IsTid(i)
    requires s.threads[i].state.Sleeping? && !Kills(s, a, i)
    ensures var u := Step(s, a).threads[i];
      if a.Timer? && a.hart == s.boot && s.threads[i].wakeupTick <= TicksAfter(s, a)
      then u.state.Runnable? || u.state.Running?
      else u.state.Sleeping? && u.wakeupTick == s.threads[i].wakeupTick
  {
    if s.Started(a.hart) { CurrentIsRunning(s, a.hart); }
    if a.StartIdle? { assert IdleOK(s, a.hart); }
    BystanderEvolves(s, a, i);
  }

  /** One step of a thread waiting in a join, under E2: it waits on, or its target died in this
      step and it returns 0 with the target's exit code in its status word. */
  lemma WaiterSteps(s: State, a: Action, i: int)
    requires Inv(s) && Linked(s) && Enabled(s, a) && SparesWaiters(s, a) && s.IsTid(i)
    requires s.threads[i].state.Waiting?
    ensures var t, u := s.threads[i], Step(s, a).threads[i];
      || (u.state.Waiting? && u.waitingFor == t.waitingFor && u.joinStatusPtr == t.joinStatusPtr)
      || ((u.state.Runnable? || u.state.Running?) && u.a0 == 0 && JoinServed(s, Step(s, a), i))
  {
    if s.Started(a.hart) { CurrentIsRunning(s, a.hart); }
    if a.StartIdle? { assert IdleOK(s, a.hart); }
    BystanderEvolves(s, a, i);
  }

  /** No step writes the record of a thread that another hart is running: its saved frame, its
      state and its other fields stay, except who joins it and whether it is detached. */
  lemma OthersUndisturbed(s: State, a: Action, g: int)
    requires Inv(s) && Linked(s) && Enabled(s, a) && SparesWaiters(s, a)
    requires s.Started(g) && g != a.hart && g != VictimHart(s, a)
    ensures Step(s, a).cpus[g] == s.cpus[g]
    ensures Bare(Step(s, a).threads[s.Current(g)]) == Bare(s.threads[s.Current(g)])
  {
    var i := s.Current(g);
    CurrentIsRunning(s, g);
    assert CpuOK(s, g, -1);
    if s.Started(a.hart) { FrameIsCurrent(s, a.hart, -1); assert CpuOK(s, a.hart, -1); }
    if a.StartIdle? { assert IdleOK(s, a.hart); }
    BystanderEvolves(s, a, i);
    if a.Sys? && a.call.KillThread? {
      KillStepIs(s, a.hart, a.call.target);
      KillKeepsCore(s, a.hart, a.call.target);
      if KillTakesEffect(s, s.Current(a.hart), a.call.target) { KillRecords(s, a.hart, a.call.target); }
    } else {
      CpusElsewhere(s, a, g);
    }
  }

  lemma CpusElsewhere(s: State, a: Action, g: int)
    requires s.Sized() && Enabled(s, a) && s.IsHart(g) && g != a.hart && !(a.Sys? && a.call.KillThread?)
    ensures Trap(s, a).cpus[g] == s.cpus[g]
  {
    match a
    case Uart(h, bs) => CharsKeepCpus(s, h, bs);
    case Sys(h, c) => if s.IsTid(s.cpus[h].curTf) { SyscallCpusElsewhere(s, h, c, g); }
    case _ =>
  }

  lemma SyscallCpusElsewhere(s: State, h: nat, c: Call, g: int)
    requires s.Sized() && s.Started(h) && s.IsTid(s.cpus[h].curTf) && s.IsHart(g) && g != h && !c.KillThread?
    ensures Syscall(s, h, c).cpus[g] == s.cpus[g]
  {
    match c
    case ExitWith(code) => DieKeepsCpus(s, h, code);
    case JoinThread(t, ptr) => JoinCpusElsewhere(s, h, s.cpus[h].curTf, t, ptr, g);
    case CreateThread(arg) => assert Create(s, h, s.cpus[h].curTf, arg).cpus == s.cpus;
    case DetachThread(t) => assert Detach(s, s.cpus[h].curTf, t).cpus == s.cpus;
    case _ =>
  }

  lemma JoinCpusElsewhere(s: State, h: nat, tf: int, target: int, ptr: nat, g: int)
    requires s.Sized() && s.Started(h) && s.IsTid(tf) && s.IsHart(g) && g != h
    ensures Join(s, h, tf, target, ptr).cpus[g] == s.cpus[g]
  {
  }

  lemma {:induction false} CharsKeepCpus(s: State, h: nat, bs: seq<Byte>)
    requires s.Sized() && s.IsHart(h)
    ensures OnChars(s, h, bs).cpus == s.cpus
    decreases |bs|
  {
    if bs != [] { CharsKeepCpus(OnChar(s, h, bs[0]), h, bs[1..]); }
  }
}
