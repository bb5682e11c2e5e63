/** Time and the console move only where the source says they do. */
module Quietness {
  import opened Bytes
  import opened KernelState
  import opened KernelOps
  import opened Steps

  lemma LoggedIsQuiet(s: State, e: Event)
    requires s.Sized() && !e.Arrived? && !e.Consumed?
    ensures Quiet(s, s.Logged(e))
  {
    assert (s.log + [e])[..|s.log|] == s.log;
  }

  lemma RecycleIsQuiet(s: State, tid: int)
    requires s.Sized()
    ensures Quiet(s, Recycle(s, tid))
  {
    LoggedIsQuiet(s, Recycled(tid));
  }

  lemma {:induction false} SkipIsQuiet(s: State, h: nat)
    requires s.Sized() && s.IsHart(h)
    ensures Quiet(s, SkipStale(s, h))
    decreases |s.queues[h]|
  {
    if s.queues[h] != [] && s.IsTid(s.queues[h][0]) && !s.threads[s.queues[h][0]].state.Runnable? {
      SkipIsQuiet(Pop(s, h), h);
    }
  }

  lemma YieldedIsQuiet(s: State, h: nat)
    requires s.Sized() && s.Started(h)
    ensures Quiet(s, Yielded(s, h))
  {
    var cur := s.Current(h);
    RecycleIsQuiet(s.WithThread(cur, s.threads[cur].(runningHart := -1)), cur);
  }

  lemma TakeNextIsQuiet(s: State, h: nat)
    requires s.Sized() && s.Started(h)
    ensures Quiet(s, TakeNext(s, h))
  {
    SkipIsQuiet(s, h);
  }

  lemma ScheduleIsQuiet(s: State, h: nat, tf: int)
    requires s.Sized() && s.Started(h)
    ensures Quiet(s, Schedule(s, h, tf))
  {
    YieldedIsQuiet(s, h);
    TakeNextIsQuiet(Yielded(s, h), h);
  }

  lemma DeliverIsQuiet(s: State, h: nat, tid: int, joiner: int, code: int)
    requires s.Sized() && s.IsHart(h) && s.IsTid(joiner)
    ensures Quiet(s, Deliver(s, h, tid, joiner, code))
  {
    LoggedIsQuiet(s, Delivered(tid, joiner, code));
  }

  lemma DieIsQuiet(s: State, h: nat, code: int)
    requires s.Sized() && s.Started(h)
    ensures Quiet(s, Die(s, h, code))
  {
    var cur := s.Current(h);
    var j := s.threads[cur].joinWaiter;
    var s1 := s.WithThread(cur, s.threads[cur].(exitCode := code, state := Zombie)).Logged(Terminated(cur, code));
    LoggedIsQuiet(s, Terminated(cur, code));
    if s.IsTid(j) {
      DeliverIsQuiet(s1, h, cur, j, code);
      RecycleIsQuiet(Deliver(s1, h, cur, j, code), cur);
    }
  }

  lemma KillIsQuiet(s: State, h: nat, tf: int, target: int)
    requires s.Sized() && s.Started(h) && s.IsTid(tf)
    ensures Quiet(s, Kill(s, h, tf, target))
  {
    if KillTakesEffect(s, s.Current(h), target) {
      var b, j := Slay(s, target), s.threads[target].joinWaiter;
      LoggedIsQuiet(s, Terminated(target, SIGKILL_CODE));
      assert Quiet(s, b);
      BuryIsQuiet(b, h, target);
    }
  }

  lemma BuryIsQuiet(b: State, h: nat, target: int)
    requires b.Sized() && b.IsHart(h) && b.IsTid(target)
    ensures Quiet(b, Bury(b, h, target))
  {
    var j := b.threads[target].joinWaiter;
    if b.IsTid(j) {
      DeliverIsQuiet(b, h, target, j, SIGKILL_CODE);
      RecycleIsQuiet(Deliver(b, h, target, j, SIGKILL_CODE), target);
    } else if j < 0 {
      RecycleIsQuiet(b.WithThread(target, b.threads[target].(joinWaiter := NO_TID)), target);
    }
  }

  lemma JoinIsQuiet(s: State, h: nat, tf: int, target: int, ptr: nat)
    requires s.Sized() && s.Started(h) && s.IsTid(tf)
    ensures Quiet(s, Join(s, h, tf, target, ptr))
  {
    var cur := s.Current(h);
    match JoinOutcome(s, cur, target)
    case JoinError(_) =>
    case JoinDead =>
      var code := s.threads[target].exitCode;
      var s1 := if ptr != 0 then s.(words := s.words[ptr := code]) else s;
      LoggedIsQuiet(s1, Delivered(target, cur, code));
      RecycleIsQuiet(s1.Logged(Delivered(target, cur, code)), target);
    case JoinWait => ScheduleIsQuiet(AwaitExit(s, cur, target, ptr), h, tf);
  }

  lemma CreateIsQuiet(s: State, h: nat, tf: int, arg: int)
    requires s.Sized() && s.Started(h) && s.IsTid(tf)
    ensures Quiet(s, Create(s, h, tf, arg))
  {
    var tid := AllocFrom(s, 1);
    if tid >= 0 { LoggedIsQuiet(s, Created(tid)); }
  }

  lemma DetachIsQuiet(s: State, tf: int, target: int)
    requires s.Sized() && s.IsTid(tf)
    ensures Quiet(s, Detach(s, tf, target))
  {
    if DetachTakesEffect(s, target) { RecycleIsQuiet(s.WithThread(target, s.threads[target].(detached := true)), target); }
  }

  lemma SleepIsQuiet(s: State, h: nat, tf: int, n: U64)
    requires s.Sized() && s.Started(h)
    ensures Quiet(s, Sleep(s, h, tf, n))
  {
    var cur := s.Current(h);
    ScheduleIsQuiet(s, h, tf);
    ScheduleIsQuiet(s.WithThread(cur, s.threads[cur].(state := Sleeping, wakeupTick := Plus64(s.ticks, n))), h, tf);
  }

  lemma {:induction false} TickIsQuiet(s: State, i: nat)
    requires s.Sized() && i <= |s.threads|
    ensures Quiet(s, TickFrom(s, i))
    decreases |s.threads| - i
  {
    if i < |s.threads| {
      if s.threads[i].state.Sleeping? && s.threads[i].wakeupTick <= s.ticks {
        TickIsQuiet(MakeRunnable(s.WithThread(i, s.threads[i].(wakeupTick := 0)), i, s.boot), i + 1);
      } else {
        TickIsQuiet(s, i + 1);
      }
    }
  }

  function TicksAfter(s: State, a: Action): nat {
    if a.Timer? && a.hart == s.boot then Plus64(s.ticks, 1) else s.ticks
  }

  predicate TouchesConsole(a: Action) {
    a.Uart? || (a.Sys? && a.call.ReadInput?)
  }

  lemma SliceIsQuiet(s: State, h: nat, tf: int)
    requires s.Sized() && s.Started(h)
    ensures Quiet(s, CountSlice(s, h, tf))
  {
    ScheduleIsQuiet(s.(cpus := s.cpus[h := s.cpus[h].(sliceLeft := SLICE_TICKS)]), h, tf);
  }

  lemma TimerTime(s: State, h: nat, tf: int)
    requires s.Sized() && s.Started(h)
    ensures OnTimer(s, h, tf).ticks == TicksAfter(s, Timer(h)) && OnTimer(s, h, tf).Console() == s.Console()
  {
    TickIsQuiet(s.(ticks := Plus64(s.ticks, 1)), 0);
    SliceIsQuiet(if h == s.boot then ThreadsTick(s) else s, h, tf);
  }

  lemma {:induction false} CharsTakeNoTime(s: State, h: nat, bs: seq<Byte>)
    requires s.Sized() && s.IsHart(h)
    ensures OnChars(s, h, bs).ticks == s.ticks
    decreases |bs|
  {
    if bs != [] { CharsTakeNoTime(OnChar(s, h, bs[0]), h, bs[1..]); }
  }

  lemma SyscallTime(s: State, h: nat, c: Call)
    requires s.Sized() && s.Started(h) && s.IsTid(s.cpus[h].curTf)
    ensures Syscall(s, h, c).ticks == s.ticks
    ensures !c.ReadInput? ==> Syscall(s, h, c).Console() == s.Console()
  {
    var tf := s.cpus[h].curTf;
    match c
    case SleepFor(n) => SleepIsQuiet(s, h, tf, n);
    case YieldCpu => SleepIsQuiet(s, h, tf, 0);
    case ExitWith(code) => DieIsQuiet(s, h, code); ScheduleIsQuiet(Die(s, h, code), h, tf);
    case JoinThread(t, ptr) => JoinIsQuiet(s, h, tf, t, ptr);
    case CreateThread(arg) => CreateIsQuiet(s, h, tf, arg);
    case KillThread(t) => KillIsQuiet(s, h, tf, t);
    case DetachThread(t) => DetachIsQuiet(s, tf, t);
    case ReadInput(fd, buf, len) => ScheduleIsQuiet(AwaitInput(s, s.Current(h), buf, len), h, tf);
    case OtherCall(v) =>
  }

  /** Only a timer interrupt on the boot hart moves time; only arriving bytes and reads move
      the console. */
  lemma StepQuietness(s: State, a: Action)
    requires s.Sized() && Enabled(s, a) && (s.Started(a.hart) ==> s.IsTid(s.cpus[a.hart].curTf))
    ensures Step(s, a).ticks == TicksAfter(s, a)
    ensures !TouchesConsole(a) ==> Step(s, a).Console() == s.Console()
  {
    var r, v := Trap(s, a), VictimHart(s, a);
    if r.Started(v) { ScheduleIsQuiet(r, v, r.cpus[v].curTf); }
    match a
    case Timer(h) => TimerTime(s, h, s.cpus[h].curTf);
    case Ipi(h) => ScheduleIsQuiet(s, h, s.cpus[h].curTf);
    case Uart(h, bs) => CharsTakeNoTime(s, h, bs);
    case Sys(h, c) => SyscallTime(s, h, c);
    case GoOnline(h) =>
    case StartIdle(h) =>
  }
}
