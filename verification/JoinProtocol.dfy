/** The join protocol is kept by every trap whose kill, if any, spares waiting threads. */
module JoinProtocol {
  import opened Bytes
  import opened KernelState
  import opened KernelOps
  import opened Partition
  import opened Steps
  import opened Safety
  import opened Links

  // ---------------------------------------------------------------- more exact records

  function Awake(t: Thread, now: int): Thread {
    if Due(t, now) then t.(state := Runnable, wakeupTick := 0) else t
  }

  /** r is s with threads before i as they were and the due ones from i on awake. */
  predicate AwakeFrom(s: State, r: State, i: nat) {
    && r == s.(threads := r.threads, home := r.home, queues := r.queues) && |r.threads| == |s.threads|
    && forall k :: 0 <= k < |s.threads| ==> r.threads[k] == if k < i then s.threads[k] else Awake(s.threads[k], s.ticks)
  }

  lemma WakeRecords(s: State, i: nat)
    requires Inv(s) && i < |s.threads| && Due(s.threads[i], s.ticks)
    ensures var r := MakeRunnable(s.WithThread(i, s.threads[i].(wakeupTick := 0)), i, s.boot);
      && Inv(r) && r.threads == s.threads[i := Awake(s.threads[i], s.ticks)]
      && r == s.(threads := r.threads, home := r.home, queues := r.queues)
  {
    TickKeepsCoreAt(s, i);
    IdleFacts(s, i, -1);
    assert UserOK(s, i, -1);
  }

  lemma AwakeFromStep(s: State, m: State, r: State, i: nat)
    requires i < |s.threads| && AwakeFrom(m, r, i + 1) && |m.threads| == |s.threads|
    requires m == s.(threads := m.threads, home := m.home, queues := m.queues)
    requires m.threads == s.threads[i := Awake(s.threads[i], s.ticks)]
    ensures AwakeFrom(s, r, i)
  {
  }

  /** A tick wakes exactly the sleepers that are due. */
  lemma {:induction false} TickRecords(s: State, i: nat)
    requires Inv(s) && i <= |s.threads|
    ensures AwakeFrom(s, TickFrom(s, i), i)
    decreases |s.threads| - i
  {
    if i < |s.threads| {
      if Due(s.threads[i], s.ticks) {
        WakeRecords(s, i);
        var m := MakeRunnable(s.WithThread(i, s.threads[i].(wakeupTick := 0)), i, s.boot);
        TickRecords(m, i + 1);
        AwakeFromStep(s, m, TickFrom(m, i + 1), i);
      } else {
        TickRecords(s, i + 1);
        AwakeFromStep(s, s, TickFrom(s, i + 1), i);
      }
    }
  }

  /** What the clock half of a timer interrupt does to the records. */
  lemma ClockedRecords(s: State, h: nat)
    requires Inv(s)
    ensures var r := Clocked(s, h);
      if h == s.boot then AwakeFrom(s.(ticks := Plus64(s.ticks, 1)), r, 0) else r == s
  {
    var s0 := s.(ticks := Plus64(s.ticks, 1));
    SameOwnershipKeepsCore(s, s0, -1);
    TickRecords(s0, 0);
  }

  // ---------------------------------------------------------------- operations

  lemma A0KeepsLinks(s: State, i: int, v: int)
    requires s.Sized() && Linked(s) && s.IsTid(i)
    ensures Linked(s.WithA0(i, v))
  {
    UnrelatedKeepsLinks(s, s.WithA0(i, v), -1);
  }

  lemma DieChangesKeepLinks(s: State, r: State, cur: int, code: int)
    requires s.Sized() && Linked(s) && s.IsTid(cur) && SameShape(s, r) && DieChanges(s, r, cur, code)
    requires s.threads[cur].state.Running? && s.threads[cur].joinWaiter >= -1
    ensures Linked(r)
  {
    assert JoinerOK(s, cur);
    forall i | 0 <= i < |s.threads| ensures WaitOK(r, i) {
      assert WaitOK(s, i);
    }
    forall i | 0 <= i < |s.threads| ensures JoinerOK(r, i) {
      assert JoinerOK(s, i);
    }
  }

  lemma DieKeepsLinks(s: State, h: nat, code: int)
    requires Inv(s) && Linked(s) && s.Started(h) && |s.cpus| <= s.Current(h)
    ensures Linked(Die(s, h, code))
  {
    DieRecords(s, h, code);
    CurrentIsRunning(s, h);
    assert UserOK(s, s.Current(h), -1);
    DieChangesKeepLinks(s, Die(s, h, code), s.Current(h), code);
  }

  lemma AwaitExitKeepsLinks(s: State, h: nat, target: int, ptr: nat)
    requires Inv(s) && Linked(s) && s.Started(h) && |s.cpus| <= s.Current(h)
    requires JoinOutcome(s, s.Current(h), target).JoinWait?
    ensures Linked(AwaitExit(s, s.Current(h), target, ptr))
  {
    var cur := s.Current(h);
    var r := AwaitExit(s, cur, target, ptr);
    assert UserOK(s, cur, -1) && CpuOK(s, h, -1);
    assert JoinerOK(s, target);
    forall i | 0 <= i < |s.threads| ensures WaitOK(r, i) {
      assert WaitOK(s, i);
    }
    forall i | 0 <= i < |s.threads| ensures JoinerOK(r, i) {
      assert JoinerOK(s, i);
    }
  }

  /** Freeing a Zombie slot that nobody waits for. */
  lemma RecycleKeepsLinks(s: State, tid: int)
    requires Inv(s) && Linked(s) && s.IsTid(tid) && s.threads[tid].state.Zombie?
    ensures Linked(Recycle(s, tid))
  {
    ZombiesHaveNoJoiner(s, tid);
    UnrelatedKeepsLinks(s, Recycle(s, tid), -1);
  }

  lemma ZombiesHaveNoJoiner(s: State, i: int)
    requires s.Sized() && Linked(s) && s.IsTid(i) && !Live(s.threads[i])
    ensures s.threads[i].joinWaiter == -1
  {
    assert JoinerOK(s, i);
    assert s.IsTid(s.threads[i].joinWaiter) ==> WaitOK(s, s.threads[i].joinWaiter);
  }

  lemma KillKeepsWait(s: State, r: State, cur: int, target: int, i: int)
    requires s.Sized() && Linked(s) && s.IsTid(cur) && s.IsTid(target) && SameShape(s, r)
    requires KillChanges(s, r, cur, target) && !s.threads[target].state.Waiting?
    requires s.threads[cur].state.Running? && s.IsTid(i)
    ensures WaitOK(r, i)
  {
    assert WaitOK(s, i) && JoinerOK(s, target);
    var w := r.threads[i].waitingFor;
    if r.threads[i].state.Waiting? {
      assert s.threads[i].state.Waiting? && s.threads[i].waitingFor == w;
      assert w != target;
      assert r.threads[w].joinWaiter == s.threads[w].joinWaiter && Live(r.threads[w]);
    }
  }

  lemma KillKeepsJoiner(s: State, r: State, cur: int, target: int, i: int)
    requires s.Sized() && Linked(s) && s.IsTid(cur) && s.IsTid(target) && SameShape(s, r)
    requires KillChanges(s, r, cur, target) && !s.threads[target].state.Waiting?
    requires s.threads[cur].state.Running? && s.IsTid(i) && s.threads[target].joinWaiter >= -1 && cur != target
    requires i == target ==> s.threads[target].joinWaiter == -1 || s.threads[target].runningHart < 0
    ensures JoinerOK(r, i)
  {
    assert JoinerOK(s, i) && JoinerOK(s, target);
    var j := s.threads[i].joinWaiter;
    if i != target {
      assert r.threads[i].joinWaiter == j && r.threads[i].detached == s.threads[i].detached;
      if j != -1 {
        assert j != cur && j != target && j != s.threads[target].joinWaiter;
        assert r.threads[j] == s.threads[j];
      }
    }
  }

  lemma KillChangesKeepLinks(s: State, r: State, cur: int, target: int, z: int)
    requires s.Sized() && Linked(s) && s.IsTid(cur) && s.IsTid(target) && cur != target && SameShape(s, r)
    requires KillChanges(s, r, cur, target) && !s.threads[target].state.Waiting?
    requires s.threads[target].joinWaiter >= -1 && s.threads[cur].state.Running?
    requires z == if s.threads[target].runningHart >= 0 && s.threads[target].joinWaiter >= 0 then target else -1
    ensures ReaderOK(r) && LinkedBut(r, z)
  {
    forall i | 0 <= i < |s.threads| ensures WaitOK(r, i) {
      KillKeepsWait(s, r, cur, target, i);
    }
    forall i | 0 <= i < |s.threads| && i != z ensures JoinerOK(r, i) {
      KillKeepsJoiner(s, r, cur, target, i);
    }
  }

  lemma KillKeepsLinks(s: State, h: nat, target: int)
    requires Inv(s) && Linked(s) && s.Started(h) && KillTakesEffect(s, s.Current(h), target)
    requires !s.threads[target].state.Waiting?
    ensures var r, t := Kill(s, h, s.Current(h), target), s.threads[target];
            ReaderOK(r) && LinkedBut(r, if t.runningHart >= 0 && t.joinWaiter >= 0 then target else -1)
    ensures s.threads[target].runningHart >= 0 && s.threads[target].joinWaiter >= 0 ==>
              Kill(s, h, s.Current(h), target).threads[target].joinWaiter >= 0
  {
    var cur, t := s.Current(h), s.threads[target];
    KillRecords(s, h, target);
    CurrentIsRunning(s, h);
    assert UserOK(s, target, -1);
    KillChangesKeepLinks(s, Kill(s, h, cur, target), cur, target,
                         if t.runningHart >= 0 && t.joinWaiter >= 0 then target else -1);
  }

  lemma CurrentIsRunning(s: State, h: nat)
    requires Inv(s) && s.Started(h)
    ensures s.threads[s.Current(h)].state.Running? && s.cpus[h].curTf == s.Current(h)
  {
    IdleThreadsStayHome(s, h);
  }

  lemma FeedKeepsLinks(s: State, h: nat)
    requires Inv(s) && Linked(s) && s.IsHart(h) && s.stdinWaiter >= 0
    ensures Linked(FeedReader(s, h).(stdinWaiter := NO_TID))
  {
    UnrelatedKeepsLinks(s, FeedReader(s, h).(stdinWaiter := NO_TID), -1);
  }

  lemma CharKeepsInv(s: State, h: nat, b: Byte)
    requires Inv(s) && s.IsHart(h)
    ensures Inv(OnChar(s, h, b))
  {
    CharsKeepCore(s, h, [b]);
    assert OnChars(OnChar(s, h, b), h, [b][1..]) == OnChar(s, h, b);
  }

  lemma {:induction false} CharsKeepLinks(s: State, h: nat, bs: seq<Byte>)
    requires Inv(s) && Linked(s) && s.IsHart(h)
    ensures Linked(OnChars(s, h, bs))
    decreases |bs|
  {
    if bs != [] {
      var s1 := if |s.rx| < RING_CAPACITY then s.(rx := s.rx + [bs[0]]).Logged(Arrived(bs[0], true))
                else s.Logged(Arrived(bs[0], false));
      UnrelatedKeepsLinks(s, s1, -1);
      SameOwnershipKeepsCore(s, s1, -1);
      if s1.stdinWaiter >= 0 { FeedKeepsLinks(s1, h); }
      CharKeepsInv(s, h, bs[0]);
      CharsKeepLinks(OnChar(s, h, bs[0]), h, bs[1..]);
    }
  }

  lemma CountSliceKeepsLinks(s: State, h: nat)
    requires Inv(s) && Linked(s) && s.Started(h)
    ensures Linked(CountSlice(s, h, s.Current(h)))
  {
    CountSliceCases(s, h);
    if s.cpus[h].sliceLeft > 1 {
      UnrelatedKeepsLinks(s, CountSlice(s, h, s.Current(h)), -1);
    } else {
      UnrelatedKeepsLinks(s, Expired(s, h), -1);
      ScheduleKeepsLinks(Expired(s, h), h, -1);
    }
  }

  lemma ClockedKeepsLinks(s: State, h: nat)
    requires Inv(s) && Linked(s)
    ensures Linked(Clocked(s, h))
  {
    ClockedRecords(s, h);
    UnrelatedKeepsLinks(s, Clocked(s, h), -1);
  }

  lemma TimerKeepsLinks(s: State, h: nat)
    requires Inv(s) && Linked(s) && s.Started(h)
    ensures Linked(OnTimer(s, h, s.Current(h)))
  {
    ClockedKeepsInv(s, h);
    ClockedKeepsLinks(s, h);
    CountSliceKeepsLinks(Clocked(s, h), h);
  }

  lemma SleepKeepsLinks(s: State, h: nat, n: U64)
    requires Inv(s) && Linked(s) && s.Started(h) && |s.cpus| <= s.Current(h)
    ensures Linked(Sleep(s, h, s.Current(h), n))
  {
    FrameIsCurrent(s, h, -1);
    CoreWeakens(s, h);
    if n == 0 {
      ScheduleKeepsLinks(s, h, -1);
    } else {
      CurrentIsRunning(s, h);
      CurrentChanges(s, h, Asleep(s, h, n));
      var m := s.WithThread(s.Current(h), Asleep(s, h, n));
      UnrelatedKeepsLinks(s, m, -1);
      ScheduleKeepsLinks(m, h, -1);
    }
  }

  function Asleep(s: State, h: nat, n: U64): Thread
    requires s.Started(h)
  {
    s.threads[s.Current(h)].(state := Sleeping, wakeupTick := Plus64(s.ticks, n))
  }

  lemma JoinKeepsLinks(s: State, h: nat, target: int, ptr: nat)
    requires Inv(s) && Linked(s) && s.Started(h) && |s.cpus| <= s.Current(h)
    ensures Linked(Join(s, h, s.Current(h), target, ptr))
  {
    var cur := s.Current(h);
    FrameIsCurrent(s, h, -1);
    match JoinOutcome(s, cur, target)
    case JoinError(code) => A0KeepsLinks(s, cur, code);
    case JoinDead =>
      var code := s.threads[target].exitCode;
      var s1 := if ptr != 0 then s.(words := s.words[ptr := code]) else s;
      var s2 := s1.Logged(Delivered(target, cur, code));
      SameOwnershipKeepsCore(s, s2, -1);
      UnrelatedKeepsLinks(s, s2, -1);
      RecycleKeepsLinks(s2, target);
      A0KeepsLinks(Collect(s, cur, target, ptr), cur, 0);
    case JoinWait =>
      AwaitExitKeepsCore(s, h, target, ptr);
      AwaitExitKeepsLinks(s, h, target, ptr);
      ScheduleKeepsLinks(AwaitExit(s, cur, target, ptr), h, -1);
  }

  lemma CreateKeepsLinks(s: State, h: nat, arg: int)
    requires Inv(s) && Linked(s) && s.Started(h)
    ensures Linked(Create(s, h, s.Current(h), arg))
  {
    var tid := AllocFrom(s, 1);
    AllocIsUser(s, -1);
    if tid < 0 {
      A0KeepsLinks(s, s.Current(h), -1);
    } else {
      SpawnKeepsCore(s, -1, h, tid, arg);
      ZombiesHaveNoJoiner(s, tid);
      UnrelatedKeepsLinks(s, Spawn(s, h, tid, arg), -1);
      A0KeepsLinks(Spawn(s, h, tid, arg), s.Current(h), tid);
    }
  }

  lemma DetachKeepsLinks(s: State, tf: int, target: int)
    requires Inv(s) && Linked(s) && s.IsTid(tf)
    ensures Linked(Detach(s, tf, target))
  {
    if DetachTakesEffect(s, target) {
      assert JoinerOK(s, target);
      UnrelatedKeepsLinks(s, Release(s, target), -1);
      A0KeepsLinks(Release(s, target), tf, 0);
    } else {
      A0KeepsLinks(s, tf, DetachRefusal(s, target));
    }
  }

  lemma ReadKeepsLinks(s: State, h: nat, fd: int, buf: nat, len: nat)
    requires Inv(s) && Linked(s) && s.Started(h) && |s.cpus| <= s.Current(h)
    ensures Linked(Read(s, h, s.Current(h), fd, buf, len))
  {
    var cur := s.Current(h);
    FrameIsCurrent(s, h, -1);
    assert UserOK(s, cur, -1) && CpuOK(s, h, -1);
    if fd != 0 || Min(len, |s.rx|) > 0 {
      UnrelatedKeepsLinks(s, Read(s, h, cur, fd, buf, len), -1);
    } else {
      var s1 := s.(stdinWaiter := cur);
      SameOwnershipKeepsCore(s, s1, -1);
      CurrentChanges(s1, h, s.threads[cur].(readBuf := buf, readLen := len, state := Blocked));
      var r := AwaitInput(s, cur, buf, len);
      UnrelatedKeepsLinks(s, r, -1);
      ScheduleKeepsLinks(r, h, -1);
    }
  }

  lemma ExitKeepsLinks(s: State, h: nat, code: int)
    requires Inv(s) && Linked(s) && s.Started(h) && |s.cpus| <= s.Current(h)
    ensures Linked(Exit(s, h, s.Current(h), code))
  {
    FrameIsCurrent(s, h, -1);
    DieKeepsLinks(s, h, code);
    DieVacatesOnSchedule(s, h, code);
    DieKeepsCpus(s, h, code);
    ScheduleKeepsLinks(Die(s, h, code), h, -1);
  }

  // ---------------------------------------------------------------- the theorem

  /** Assumption E2, checked before the call: a kill that takes effect spares waiting threads. */
  predicate SparesWaiters(s: State, a: Action)
    requires s.Sized() && Enabled(s, a)
  {
    a.Sys? && a.call.KillThread? && KillTakesEffect(s, s.Current(a.hart), a.call.target) ==>
      !s.threads[a.call.target].state.Waiting?
  }

  lemma SyscallKeepsLinks(s: State, h: nat, c: Call)
    requires Inv(s) && Linked(s) && Enabled(s, Sys(h, c)) && !c.KillThread?
    requires s.cpus[h].curTf == s.Current(h)
    ensures Linked(Syscall(s, h, c))
  {
    SyscallKeepsInv(s, h, c);
    var cur := s.Current(h);
    match c
    case SleepFor(n) => SleepKeepsLinks(s, h, n);
    case YieldCpu => SleepKeepsLinks(s, h, 0);
    case ExitWith(code) => ExitKeepsLinks(s, h, code);
    case JoinThread(t, ptr) => JoinKeepsLinks(s, h, t, ptr);
    case CreateThread(arg) => CreateKeepsLinks(s, h, arg);
    case DetachThread(t) => DetachKeepsLinks(s, cur, t);
    case ReadInput(fd, buf, len) => ReadKeepsLinks(s, h, fd, buf, len);
    case OtherCall(v) => A0KeepsLinks(s, cur, v);
  }

  lemma KillStepKeepsLinks(s: State, h: nat, target: int)
    requires Inv(s) && Linked(s) && Enabled(s, Sys(h, KillThread(target)))
    requires SparesWaiters(s, Sys(h, KillThread(target))) && s.cpus[h].curTf == s.Current(h)
    ensures Linked(Step(s, Sys(h, KillThread(target))))
  {
    KillStepIs(s, h, target);
    KillKeepsCore(s, h, target);
    var cur := s.Current(h);
    if KillTakesEffect(s, cur, target) {
      var r, t := Kill(s, h, cur, target), s.threads[target];
      VictimIsElsewhere(s, h, target);
      KillKeepsLinks(s, h, target);
      KillRecords(s, h, target);
      if t.runningHart >= 0 {
        assert UserOK(s, target, -1) && r.cpus == s.cpus;
        ScheduleKeepsLinks(r, t.runningHart, if t.joinWaiter >= 0 then target else -1);
      }
    } else {
      A0KeepsLinks(s, cur, KillRefusal(s, cur, target));
    }
  }

  /** Every step under E1 and E2 keeps the join protocol. */
  lemma StepKeepsLinks(s: State, a: Action)
    requires Inv(s) && Linked(s) && Enabled(s, a) && SparesWaiters(s, a)
    ensures Linked(Step(s, a))
  {
    if s.Started(a.hart) { FrameIsCurrent(s, a.hart, -1); }
    match a
    case Timer(h) => TimerKeepsLinks(s, h);
    case Ipi(h) => CoreWeakens(s, h); ScheduleKeepsLinks(s, h, -1);
    case Uart(h, bs) => CharsKeepLinks(s, h, bs);
    case GoOnline(h) => UnrelatedKeepsLinks(s, Step(s, a), -1);
    case StartIdle(h) =>
      assert IdleOK(s, h) && CpuOK(s, h, -1);
      UnrelatedKeepsLinks(s, Step(s, a), -1);
    case Sys(h, c) =>
      if c.KillThread? { KillStepKeepsLinks(s, h, c.target); } else { SyscallKeepsLinks(s, h, c); }
  }
}
