/** What one trap can do to a thread that is neither the trapping hart's current thread nor
    the victim of a kill. */
module Bystanders {
  import opened Bytes
  import opened KernelState
  import opened KernelOps
  import opened Partition
  import opened Steps
  import opened Safety
  import opened Links
  import opened JoinProtocol

  /** The record apart from what others may set on it: who joins it and whether it is detached. */
  function Bare(t: Thread): Thread {
    t.(joinWaiter := NO_TID, detached := false)
  }

  /** The first two events of this step are the death of the thread j waits for and the hand-over
      of its code to j, and the code is in j's status word if j gave one. */
  predicate JoinServed(s: State, r: State, j: int)
    requires s.IsTid(j)
  {
    var n, t := |s.log|, s.threads[j];
    && n + 2 <= |r.log|
    && r.log[n].Terminated? && r.log[n].tid == t.waitingFor
    && r.log[n + 1] == Delivered(t.waitingFor, j, r.log[n].code)
    && r.words == WithWord(s.words, t.joinStatusPtr, r.log[n].code)
  }

  predicate Evolved(s: State, a: Action, r: State, i: int)
    requires s.IsTid(i) && r.IsTid(i)
  {
    var t, u := Bare(s.threads[i]), Bare(r.threads[i]);
    match t.state
    case Running => u == t
    case Runnable => Switched(t, u)
    case Sleeping =>
      if a.Timer? && a.hart == s.boot then
        r.ticks == Plus64(s.ticks, 1) && Switched(Awake(t, r.ticks), u)
      else u == t
    case Waiting => u == t || (Switched(Woken(t), u) && JoinServed(s, r, i))
    case Blocked => u == t || (a.Uart? && i == s.stdinWaiter && u.state.Runnable?)
    case Unused => u.state.Unused? || (a.Sys? && a.call.CreateThread? && u.state.Runnable?)
    case Zombie => u.state.Zombie? || u.state.Unused?
  }

  predicate Bystander(s: State, a: Action, i: int)
    requires s.Sized() && Enabled(s, a)
  {
    && s.IsTid(i)
    && (s.Started(a.hart) ==> i != s.Current(a.hart))
    && !(a.Sys? && a.call.KillThread? && a.call.target == i && KillTakesEffect(s, s.Current(a.hart), i))
    && !(a.StartIdle? && a.hart == i)
  }

  /** Schedule on hart h after the state became m: bystanders only switch. */
  lemma AfterSchedule(m: State, h: nat, i: int)
    requires Core(m, h) && m.Started(h) && m.IsTid(i) && i != m.Current(h)
    ensures var r := Schedule(m, h, m.cpus[h].curTf);
      && Switched(m.threads[i], r.threads[i]) && r.ticks == m.ticks && r.words == m.words && m.log <= r.log
      && (!m.threads[i].state.Runnable? ==> r.threads[i] == m.threads[i])
  {
    ScheduleEffect(m, h);
  }

  lemma AfterSlice(m: State, h: nat, i: int)
    requires Inv(m) && m.Started(h) && m.IsTid(i) && i != m.Current(h)
    ensures var r := CountSlice(m, h, m.Current(h));
      && Switched(m.threads[i], r.threads[i]) && r.ticks == m.ticks
      && (!m.threads[i].state.Runnable? ==> r.threads[i] == m.threads[i])
  {
    CountSliceCases(m, h);
    if m.cpus[h].sliceLeft == 1 { AfterSchedule(Expired(m, h), h, i); }
  }

  lemma TimerEvolves(s: State, h: nat, i: int)
    requires Inv(s) && s.Started(h) && s.IsTid(i) && i != s.Current(h)
    ensures Evolved(s, Timer(h), OnTimer(s, h, s.Current(h)), i)
  {
    ClockedKeepsInv(s, h);
    ClockedRecords(s, h);
    AfterSlice(Clocked(s, h), h, i);
  }

  /** Without a registered reader, arriving bytes change no thread. */
  lemma {:induction false} CharsWithoutReader(s: State, h: nat, bs: seq<Byte>)
    requires s.Sized() && s.IsHart(h) && s.stdinWaiter < 0
    ensures OnChars(s, h, bs).threads == s.threads && OnChars(s, h, bs).stdinWaiter == s.stdinWaiter
    decreases |bs|
  {
    if bs != [] { CharsWithoutReader(OnChar(s, h, bs[0]), h, bs[1..]); }
  }

  /** A byte that arrives while thread w is registered changes no other thread. */
  lemma CharChangesReader(s: State, h: nat, b: Byte)
    requires Inv(s) && s.IsHart(h)
    ensures var r := OnChar(s, h, b);
      && r.stdinWaiter == NO_TID
      && (forall i :: 0 <= i < |s.threads| && i != s.stdinWaiter ==> r.threads[i] == s.threads[i])
      && (s.stdinWaiter >= 0 && s.threads[s.stdinWaiter].state.Blocked? ==>
            r.threads[s.stdinWaiter].state.Runnable? || r.threads[s.stdinWaiter] == s.threads[s.stdinWaiter])
  {
    if s.stdinWaiter >= 0 { assert UserOK(s, s.stdinWaiter, -1) && HomeOK(s, s.stdinWaiter); }
  }

  lemma UartEvolves(s: State, h: nat, bs: seq<Byte>, i: int)
    requires Inv(s) && Linked(s) && s.Started(h) && s.IsTid(i)
    ensures Evolved(s, Uart(h, bs), OnChars(s, h, bs), i)
  {
    if bs != [] {
      CharChangesReader(s, h, bs[0]);
      CharsWithoutReader(OnChar(s, h, bs[0]), h, bs[1..]);
    }
  }

  lemma ExitEvolves(s: State, h: nat, code: int, i: int)
    requires Inv(s) && Linked(s) && s.Started(h) && |s.cpus| <= s.Current(h) && s.IsTid(i) && i != s.Current(h)
    ensures Evolved(s, Sys(h, ExitWith(code)), Exit(s, h, s.Current(h), code), i)
  {
    FrameIsCurrent(s, h, -1);
    DieVacatesOnSchedule(s, h, code);
    DieBystander(s, h, code, i);
    AfterSchedule(Die(s, h, code), h, i);
  }

  lemma DieBystander(s: State, h: nat, code: int, i: int)
    requires Inv(s) && Linked(s) && s.Started(h) && |s.cpus| <= s.Current(h) && s.IsTid(i) && i != s.Current(h)
    ensures var r := Die(s, h, code);
      && r.cpus == s.cpus
      && (r.threads[i] == s.threads[i] ||
          (s.threads[i].state.Waiting? && r.threads[i] == Woken(s.threads[i]) && JoinServed(s, r, i)))
  {
    DieRecords(s, h, code);
    assert WaitOK(s, i);
  }

  lemma JoinEvolves(s: State, h: nat, target: int, ptr: nat, i: int)
    requires Inv(s) && Linked(s) && s.Started(h) && |s.cpus| <= s.Current(h) && s.IsTid(i) && i != s.Current(h)
    ensures Evolved(s, Sys(h, JoinThread(target, ptr)), Join(s, h, s.Current(h), target, ptr), i)
  {
    hide Schedule;
    FrameIsCurrent(s, h, -1);
    if JoinOutcome(s, s.Current(h), target).JoinWait? {
      AwaitExitKeepsCore(s, h, target, ptr);
      AfterSchedule(AwaitExit(s, s.Current(h), target, ptr), h, i);
    }
  }

  lemma CreateEvolves(s: State, h: nat, arg: int, i: int)
    requires Inv(s) && s.Started(h) && s.IsTid(i) && i != s.Current(h)
    ensures Evolved(s, Sys(h, CreateThread(arg)), Create(s, h, s.Current(h), arg), i)
  {
  }

  lemma ReadEvolves(s: State, h: nat, fd: int, buf: nat, len: nat, i: int)
    requires Inv(s) && s.Started(h) && |s.cpus| <= s.Current(h) && s.IsTid(i) && i != s.Current(h)
    ensures Evolved(s, Sys(h, ReadInput(fd, buf, len)), Read(s, h, s.Current(h), fd, buf, len), i)
  {
    var cur := s.Current(h);
    FrameIsCurrent(s, h, -1);
    if fd == 0 && Min(len, |s.rx|) <= 0 {
      CurrentIsRunning(s, h);
      var s1 := s.(stdinWaiter := cur);
      SameOwnershipKeepsCore(s, s1, -1);
      CurrentChanges(s1, h, s.threads[cur].(readBuf := buf, readLen := len, state := Blocked));
      AfterSchedule(AwaitInput(s, cur, buf, len), h, i);
    }
  }

  lemma SleepEvolves(s: State, h: nat, n: U64, i: int, a: Action)
    requires Inv(s) && s.Started(h) && |s.cpus| <= s.Current(h) && s.IsTid(i) && i != s.Current(h)
    requires !a.Timer?
    ensures Evolved(s, a, Sleep(s, h, s.Current(h), n), i)
  {
    var cur := s.Current(h);
    FrameIsCurrent(s, h, -1);
    if n == 0 {
      CoreWeakens(s, h);
      AfterSchedule(s, h, i);
    } else {
      CurrentIsRunning(s, h);
      var t := s.threads[cur].(state := Sleeping, wakeupTick := Plus64(s.ticks, n));
      CurrentChanges(s, h, t);
      AfterSchedule(s.WithThread(cur, t), h, i);
    }
  }

  lemma KillChangesEvolve(s: State, r: State, cur: int, target: int, i: int, a: Action)
    requires s.Sized() && Linked(s) && s.IsTid(target) && s.IsTid(cur) && SameShape(s, r) && s.IsTid(i)
    requires KillChanges(s, r, cur, target) && i != target && i != cur && cur != target && !a.Timer?
    ensures Evolved(s, a, r, i)
    ensures s.threads[i].state.Running? ==> r.threads[i].state.Running?
    ensures s.threads[i].state.Waiting? ==>
              (r.threads[i] == s.threads[i] || (r.threads[i] == Woken(s.threads[i]) && JoinServed(s, r, i)))
    ensures !s.threads[i].state.Waiting? ==> r.threads[i] == s.threads[i]
  {
    assert WaitOK(s, i);
  }

  lemma KillEvolves(s: State, h: nat, target: int, i: int)
    requires Inv(s) && Linked(s) && Enabled(s, Sys(h, KillThread(target))) && s.cpus[h].curTf == s.Current(h)
    requires SparesWaiters(s, Sys(h, KillThread(target))) && Bystander(s, Sys(h, KillThread(target)), i)
    ensures Evolved(s, Sys(h, KillThread(target)), Step(s, Sys(h, KillThread(target))), i)
  {
    hide Kill;
    hide Schedule;
    var cur, a := s.Current(h), Sys(h, KillThread(target));
    KillStepIs(s, h, target);
    KillKeepsCore(s, h, target);
    if KillTakesEffect(s, cur, target) {
      var r, v := Kill(s, h, cur, target), s.threads[target].runningHart;
      VictimIsElsewhere(s, h, target);
      KillRecords(s, h, target);
      KillChangesEvolve(s, r, cur, target, i, a);
      if v >= 0 {
        assert UserOK(s, target, -1);
        AfterSchedule(r, v, i);
      }
    } else {
      RefusedKillAnswers(s, h, target);
    }
  }

  lemma RefusedKillAnswers(s: State, h: nat, target: int)
    requires s.Sized() && s.Started(h) && !KillTakesEffect(s, s.Current(h), target)
    ensures Kill(s, h, s.Current(h), target) == s.WithA0(s.Current(h), KillRefusal(s, s.Current(h), target))
  {
  }

  lemma DetachEvolves(s: State, h: nat, target: int, i: int)
    requires s.Sized() && s.Started(h) && s.IsTid(i) && i != s.Current(h)
    ensures Evolved(s, Sys(h, DetachThread(target)), Detach(s, s.Current(h), target), i)
  {
  }

  lemma SyscallEvolves(s: State, h: nat, c: Call, i: int)
    requires Inv(s) && Linked(s) && Enabled(s, Sys(h, c)) && !c.KillThread? && s.cpus[h].curTf == s.Current(h)
    requires s.IsTid(i) && i != s.Current(h)
    ensures Evolved(s, Sys(h, c), Syscall(s, h, c), i)
  {
    SyscallKeepsInv(s, h, c);
    match c
    case SleepFor(n) => SleepEvolves(s, h, n, i, Sys(h, c));
    case YieldCpu => SleepEvolves(s, h, 0, i, Sys(h, c));
    case ExitWith(code) => ExitEvolves(s, h, code, i);
    case JoinThread(t, ptr) => JoinEvolves(s, h, t, ptr, i);
    case CreateThread(arg) => CreateEvolves(s, h, arg, i);
    case DetachThread(t) => DetachEvolves(s, h, t, i);
    case ReadInput(fd, buf, len) => ReadEvolves(s, h, fd, buf, len, i);
    case OtherCall(v) =>
  }

  /** The theorem: a bystander's record evolves only in these ways, whatever the trap. */
  lemma BystanderEvolves(s: State, a: Action, i: int)
    requires Inv(s) && Linked(s) && Enabled(s, a) && SparesWaiters(s, a) && Bystander(s, a, i)
    ensures Evolved(s, a, Step(s, a), i)
  {
    if s.Started(a.hart) { FrameIsCurrent(s, a.hart, -1); }
    match a
    case Timer(h) => TimerEvolves(s, h, i);
    case Ipi(h) => CoreWeakens(s, h); AfterSchedule(s, h, i);
    case Uart(h, bs) => UartEvolves(s, h, bs, i);
    case GoOnline(h) =>
    case StartIdle(h) =>
    case Sys(h, c) =>
      if c.KillThread? { KillEvolves(s, h, c.target, i); } else { SyscallEvolves(s, h, c, i); }
  }
}
