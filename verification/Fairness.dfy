/** Bounded waiting: a queued thread's rank, 5 times its position plus what is left of the
    running time slice, counts the timer interrupts its hart can take before running it. */
module Fairness {
  import opened Bytes
  import opened KernelState
  import opened KernelOps
  import opened Partition
  import opened Steps
  import opened Safety

  /** The position of x in q, or |q|. */
  function IndexOf<T(==)>(q: seq<T>, x: T): (k: nat)
    ensures k <= |q|
    ensures k < |q| ==> q[k] == x
    ensures x in q <==> k < |q|
  {
    if q == [] then 0 else if q[0] == x then 0 else 1 + IndexOf(q[1..], x)
  }

  lemma {:induction false} IndexOfPrefix<T>(q: seq<T>, r: seq<T>, x: T)
    requires x in q && q <= r
    ensures IndexOf(r, x) == IndexOf(q, x)
  {
    if q[0] != x { IndexOfPrefix(q[1..], r[1..], x); }
  }

  lemma {:induction false} IndexOfWithout<T>(q: seq<T>, x: T, y: T)
    requires x in q && x != y
    ensures x in Without(q, y) && IndexOf(Without(q, y), x) <= IndexOf(q, x)
  {
    if q[0] == y {
    } else if q[0] != x {
      IndexOfWithout(q[1..], x, y);
    }
  }

  predicate Queued(s: State, h: int, i: int) {
    s.IsHart(h) && |s.queues| == |s.cpus| && i in s.queues[h]
  }

  /** The ranking function. */
  function Rank(s: State, h: int, i: int): nat
    requires Queued(s, h, i)
  {
    5 * IndexOf(s.queues[h], i) + s.cpus[h].sliceLeft
  }

  /** Either hart h now runs i, or i is still queued there with at most the given rank. */
  predicate Advances(r: State, h: int, i: int, rank: int) {
    (r.IsHart(h) && r.cpus[h].currentTid == i) || (Queued(r, h, i) && Rank(r, h, i) <= rank)
  }

  // ---------------------------------------------------------------- steps

  /** No call of schedule on h, queue of h only extended: the rank stays. */
  lemma ExtendingKeepsRank(s: State, r: State, h: int, i: int)
    requires Queued(s, h, i) && r.Sized() && |r.cpus| == |s.cpus| && r.cpus[h] == s.cpus[h]
    requires s.queues[h] <= r.queues[h]
    ensures Queued(r, h, i) && Rank(r, h, i) == Rank(s, h, i)
  {
    IndexOfPrefix(s.queues[h], r.queues[h], i);
  }

  /** A call of schedule on h takes the head: one slice's worth of rank is used up. */
  lemma ScheduleLowersRank(s: State, h: int, i: int)
    requires Core(s, h) && s.Started(h) && Queued(s, h, i) && s.cpus[h].sliceLeft >= 1
    ensures Advances(Schedule(s, h, s.cpus[h].curTf), h, i, Rank(s, h, i) - s.cpus[h].sliceLeft)
  {
    ScheduleRestoresCore(s, h);
    var y := Yielded(s, h);
    IndexOfPrefix(s.queues[h], y.queues[h], i);
    assert i in y.queues[h];
  }

  lemma ScheduleElsewhereKeepsRank(s: State, g: int, h: int, i: int)
    requires Core(s, g) && s.Started(g) && g != h && Queued(s, h, i)
    ensures Advances(Schedule(s, g, s.cpus[g].curTf), h, i, Rank(s, h, i))
  {
    ScheduleRestoresCore(s, g);
    ExtendingKeepsRank(s, Schedule(s, g, s.cpus[g].curTf), h, i);
  }

  /** The state m differs from s only by an extended queue of h, then g calls schedule. */
  lemma BlockThenSchedule(s: State, m: State, g: int, h: int, i: int)
    requires Queued(s, h, i) && Inv(s) && Core(m, g) && m.Started(g) && |m.cpus| == |s.cpus|
    requires m.cpus == s.cpus && s.queues[h] <= m.queues[h]
    ensures Advances(Schedule(m, g, m.cpus[g].curTf), h, i, Rank(s, h, i))
  {
    ExtendingKeepsRank(s, m, h, i);
    assert CpuOK(s, g, -1);
    if g == h { ScheduleLowersRank(m, h, i); } else { ScheduleElsewhereKeepsRank(m, g, h, i); }
  }

  lemma SliceLowersRank(m: State, h: int, i: int)
    requires Inv(m) && m.Started(h) && Queued(m, h, i)
    ensures Advances(CountSlice(m, h, m.Current(h)), h, i, Rank(m, h, i) - 1)
  {
    CountSliceCases(m, h);
    if m.cpus[h].sliceLeft == 1 { ScheduleLowersRank(Expired(m, h), h, i); }
  }

  lemma TimerLowersRank(s: State, h: int, i: int)
    requires Inv(s) && s.Started(h) && Queued(s, h, i)
    ensures Advances(OnTimer(s, h, s.Current(h)), h, i, Rank(s, h, i) - 1)
  {
    ClockedKeepsInv(s, h);
    ExtendingKeepsRank(s, Clocked(s, h), h, i);
    SliceLowersRank(Clocked(s, h), h, i);
  }

  lemma SliceElsewhereKeepsRank(m: State, g: int, h: int, i: int)
    requires Inv(m) && m.Started(g) && g != h && Queued(m, h, i)
    ensures Advances(CountSlice(m, g, m.Current(g)), h, i, Rank(m, h, i))
  {
    CountSliceCases(m, g);
    if m.cpus[g].sliceLeft == 1 {
      ExtendingKeepsRank(m, Expired(m, g), h, i);
      ScheduleElsewhereKeepsRank(Expired(m, g), g, h, i);
    } else {
      ExtendingKeepsRank(m, CountSlice(m, g, m.Current(g)), h, i);
    }
  }

  lemma TimerElsewhereKeepsRank(s: State, g: int, h: int, i: int)
    requires Inv(s) && s.Started(g) && g != h && Queued(s, h, i)
    ensures Advances(OnTimer(s, g, s.Current(g)), h, i, Rank(s, h, i))
  {
    ClockedKeepsInv(s, g);
    ExtendingKeepsRank(s, Clocked(s, g), h, i);
    SliceElsewhereKeepsRank(Clocked(s, g), g, h, i);
  }

  lemma {:induction false} CharsKeepRank(s: State, g: int, bs: seq<Byte>, h: int, i: int)
    requires Inv(s) && s.IsHart(g) && Queued(s, h, i)
    ensures var r := OnChars(s, g, bs); Queued(r, h, i) && Rank(r, h, i) == Rank(s, h, i)
    decreases |bs|
  {
    if bs != [] {
      var r := OnChar(s, g, bs[0]);
      CharsKeepCore(s, g, [bs[0]]);
      assert OnChars(r, g, [bs[0]][1..]) == r;
      ExtendingKeepsRank(s, r, h, i);
      CharsKeepRank(r, g, bs[1..], h, i);
    }
  }

  /** A kill takes at most its target out of a queue. */
  lemma KillQueues(s: State, g: int, target: int, h: int)
    requires Inv(s) && s.Started(g) && s.IsHart(h) && KillTakesEffect(s, s.Current(g), target)
    ensures var r := Kill(s, g, s.Current(g), target);
      r.cpus == s.cpus && (s.queues[h] <= r.queues[h] || Without(s.queues[h], target) <= r.queues[h])
  {
    var b := Slay(s, target);
    assert b.cpus == s.cpus && (b.queues[h] == s.queues[h] || b.queues[h] == Without(s.queues[h], target));
    BuryExtends(b, g, target, h);
  }

  lemma BuryExtends(b: State, g: int, target: int, h: int)
    requires b.Sized() && b.IsHart(g) && b.IsTid(target) && b.IsHart(h)
    ensures Bury(b, g, target).cpus == b.cpus && b.queues[h] <= Bury(b, g, target).queues[h]
  {
  }

  lemma ReorderedKeepsRank(s: State, r: State, target: int, h: int, i: int)
    requires Queued(s, h, i) && target != i && r.Sized() && |r.cpus| == |s.cpus| && r.cpus == s.cpus
    requires s.queues[h] <= r.queues[h] || Without(s.queues[h], target) <= r.queues[h]
    ensures Queued(r, h, i) && Rank(r, h, i) <= Rank(s, h, i)
  {
    IndexOfWithout(s.queues[h], i, target);
    if s.queues[h] <= r.queues[h] {
      IndexOfPrefix(s.queues[h], r.queues[h], i);
    } else {
      IndexOfPrefix(Without(s.queues[h], target), r.queues[h], i);
    }
  }

  /** Killing another thread can only bring i forward. */
  lemma KillKeepsRank(s: State, g: int, target: int, h: int, i: int)
    requires Inv(s) && Enabled(s, Sys(g, KillThread(target))) && s.cpus[g].curTf == s.Current(g)
    requires Queued(s, h, i) && !(target == i && KillTakesEffect(s, s.Current(g), i))
    ensures Advances(Step(s, Sys(g, KillThread(target))), h, i, Rank(s, h, i))
  {
    var cur := s.Current(g);
    var r := Kill(s, g, cur, target);
    KillStepIs(s, g, target);
    KillKeepsCore(s, g, target);
    if KillTakesEffect(s, cur, target) {
      var v := s.threads[target].runningHart;
      VictimIsElsewhere(s, g, target);
      KillQueues(s, g, target, h);
      ReorderedKeepsRank(s, r, target, h, i);
      if v >= 0 { BlockedVictim(s, r, target, v, h, i); }
    } else {
      ExtendingKeepsRank(s, r, h, i);
    }
  }

  lemma BlockedVictim(s: State, r: State, target: int, v: int, h: int, i: int)
    requires Inv(s) && |s.cpus| <= target < |s.threads| && Core(r, v) && r.Started(v) && r.cpus == s.cpus
    requires Queued(r, h, i)
    ensures Advances(Schedule(r, v, r.cpus[v].curTf), h, i, Rank(r, h, i))
  {
    assert CpuOK(s, v, -1);
    if v == h { ScheduleLowersRank(r, h, i); } else { ScheduleElsewhereKeepsRank(r, v, h, i); }
  }

  lemma SyscallKeepsRank(s: State, g: int, c: Call, h: int, i: int)
    requires Inv(s) && Enabled(s, Sys(g, c)) && !c.KillThread? && s.cpus[g].curTf == s.Current(g)
    requires Queued(s, h, i)
    ensures Advances(Syscall(s, g, c), h, i, Rank(s, h, i))
  {
    SyscallKeepsInv(s, g, c);
    var cur := s.Current(g);
    match c
    case SleepFor(n) => SleepKeepsRank(s, g, n, h, i);
    case YieldCpu => SleepKeepsRank(s, g, 0, h, i);
    case ExitWith(code) => ExitKeepsRank(s, g, code, h, i);
    case JoinThread(t, ptr) =>
      if JoinOutcome(s, cur, t).JoinWait? {
        AwaitExitKeepsCore(s, g, t, ptr);
        BlockThenSchedule(s, AwaitExit(s, cur, t, ptr), g, h, i);
      } else {
        ExtendingKeepsRank(s, Join(s, g, cur, t, ptr), h, i);
      }
    case CreateThread(arg) => ExtendingKeepsRank(s, Create(s, g, cur, arg), h, i);
    case DetachThread(t) => ExtendingKeepsRank(s, Detach(s, cur, t), h, i);
    case ReadInput(fd, buf, len) => ReadKeepsRank(s, g, fd, buf, len, h, i);
    case OtherCall(v) => ExtendingKeepsRank(s, s.WithA0(cur, v), h, i);
  }

  lemma SleepKeepsRank(s: State, g: int, n: U64, h: int, i: int)
    requires Inv(s) && s.Started(g) && |s.cpus| <= s.Current(g) && Queued(s, h, i)
    ensures Advances(Sleep(s, g, s.Current(g), n), h, i, Rank(s, h, i))
  {
    FrameIsCurrent(s, g, -1);
    var cur := s.Current(g);
    if n == 0 {
      CoreWeakens(s, g);
      BlockThenSchedule(s, s, g, h, i);
    } else {
      var t := s.threads[cur].(state := Sleeping, wakeupTick := Plus64(s.ticks, n));
      CurrentChanges(s, g, t);
      BlockThenSchedule(s, s.WithThread(cur, t), g, h, i);
    }
  }

  lemma ExitKeepsRank(s: State, g: int, code: int, h: int, i: int)
    requires Inv(s) && s.Started(g) && |s.cpus| <= s.Current(g) && Queued(s, h, i)
    ensures Advances(Exit(s, g, s.Current(g), code), h, i, Rank(s, h, i))
  {
    FrameIsCurrent(s, g, -1);
    DieVacatesOnSchedule(s, g, code);
    DieKeepsCpus(s, g, code);
    BlockThenSchedule(s, Die(s, g, code), g, h, i);
  }

  lemma ReadKeepsRank(s: State, g: int, fd: int, buf: nat, len: nat, h: int, i: int)
    requires Inv(s) && s.Started(g) && |s.cpus| <= s.Current(g) && Queued(s, h, i)
    ensures Advances(Read(s, g, s.Current(g), fd, buf, len), h, i, Rank(s, h, i))
  {
    var cur := s.Current(g);
    FrameIsCurrent(s, g, -1);
    if fd == 0 && Min(len, |s.rx|) <= 0 {
      var s1 := s.(stdinWaiter := cur);
      SameOwnershipKeepsCore(s, s1, -1);
      CurrentChanges(s1, g, s.threads[cur].(readBuf := buf, readLen := len, state := Blocked));
      BlockThenSchedule(s, AwaitInput(s, cur, buf, len), g, h, i);
    } else {
      ExtendingKeepsRank(s, Read(s, g, cur, fd, buf, len), h, i);
    }
  }

  /** The theorem: while a queued thread is not killed, every timer interrupt its hart takes
      lowers its rank and no other step raises it, until its hart runs it. */
  lemma StepAdvances(s: State, a: Action, h: int, i: int)
    requires Inv(s) && Enabled(s, a) && Queued(s, h, i) && s.Started(h)
    requires !(a.Sys? && a.call == KillThread(i) && KillTakesEffect(s, s.Current(a.hart), i))
    ensures Advances(Step(s, a), h, i, if a == Timer(h) then Rank(s, h, i) - 1 else Rank(s, h, i))
  {
    if s.Started(a.hart) { FrameIsCurrent(s, a.hart, -1); }
    match a
    case Timer(g) => if g == h { TimerLowersRank(s, h, i); } else { TimerElsewhereKeepsRank(s, g, h, i); }
    case Ipi(g) => CoreWeakens(s, g); BlockThenSchedule(s, s, g, h, i);
    case Uart(g, bs) => CharsKeepRank(s, g, bs, h, i);
    case GoOnline(g) => ExtendingKeepsRank(s, Step(s, a), h, i);
    case StartIdle(g) => ExtendingKeepsRank(s, Step(s, a), h, i);
    case Sys(g, c) =>
      if c.KillThread? { KillKeepsRank(s, g, c.target, h, i); } else { SyscallKeepsRank(s, g, c, h, i); }
  }
}
