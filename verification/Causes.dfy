/** Every event of the history has its cause in the action of the step that appends it. */
module Causes {
  import opened Bytes
  import opened KernelState
  import opened KernelOps
  import opened Partition
  import opened Steps
  import opened Safety
  import opened Links
  import opened JoinProtocol
  import opened Lifecycle
  import opened Bystanders
  import opened Blocking
  import opened Console

  /** This action ends thread t with code c: t calls exit with that code, or t is killed. */
  predicate Ends(s: State, a: Action, t: int, c: int)
    requires s.Sized() && Enabled(s, a)
  {
    a.Sys? && ((a.call == ExitWith(c) && s.Current(a.hart) == t) || (Kills(s, a, t) && c == -9))
  }

  /** Thread u has come back from its system call with result 0. */
  predicate Returned(u: Thread) {
    (u.state.Runnable? || u.state.Running?) && u.a0 == 0
  }

  /** j waited for t, which this action ends: j's call returns 0 with the code in j's status word. */
  predicate ServesWaiter(s: State, a: Action, r: State, t: int, j: int, c: int)
    requires s.Sized() && Enabled(s, a)
  {
    && Ends(s, a, t, c) && s.IsTid(j) && r.IsTid(j)
    && s.threads[j].state.Waiting? && s.threads[j].waitingFor == t
    && Returned(r.threads[j]) && r.words == WithWord(s.words, s.threads[j].joinStatusPtr, c)
  }

  /** j asks to join t, which is dead with code c: j's call returns 0 with the code in its status word. */
  predicate ServesCaller(s: State, a: Action, r: State, t: int, j: int, c: int)
    requires s.Sized() && Enabled(s, a)
  {
    && a.Sys? && a.call.JoinThread? && a.call.target == t && s.Current(a.hart) == j && r.IsTid(j)
    && s.IsTid(t) && s.threads[t].state.Zombie? && s.threads[t].exitCode == c
    && Returned(r.threads[j]) && r.words == WithWord(s.words, a.call.ptr, c)
  }

  predicate Caused(s: State, a: Action, r: State, e: Event)
    requires s.Sized() && Enabled(s, a)
  {
    match e
    case Created(t) =>
      a.Sys? && a.call.CreateThread? && r.IsTid(t) && r.IsTid(s.Current(a.hart)) && r.threads[s.Current(a.hart)].a0 == t
    case Terminated(t, c) => Ends(s, a, t, c)
    case Delivered(t, j, c) => ServesWaiter(s, a, r, t, j, c) || ServesCaller(s, a, r, t, j, c)
    case Recycled(t) => r.IsTid(t) && r.threads[t].state.Unused?
    case Arrived(b, _) => a.Uart? && b in a.bytes
    case Consumed(w, bs) => w == Getter(s, a) && bs == Got(s, a)
  }

  /** Every event that the step appends has its cause in the action. */
  predicate Explained(s: State, a: Action, r: State)
    requires s.Sized() && Enabled(s, a)
  {
    s.log <= r.log && forall n :: |s.log| <= n < |r.log| ==> Caused(s, a, r, r.log[n])
  }

  lemma Explain(s: State, a: Action, r: State, es: seq<Event>)
    requires s.Sized() && Enabled(s, a) && r.log == s.log + es
    requires forall k :: 0 <= k < |es| ==> Caused(s, a, r, es[k])
    ensures Explained(s, a, r)
  {
    forall n | |s.log| <= n < |r.log| ensures Caused(s, a, r, r.log[n]) {
      assert r.log[n] == es[n - |s.log|];
    }
  }

  // ---------------------------------------------------------------- one call of schedule

  /** What schedule may append: the current thread's slot is freed. */
  lemma ScheduleLogs(m: State, h: nat)
    requires Core(m, h) && m.Started(h)
    ensures var r, cur := Schedule(m, h, m.cpus[h].curTf), m.Current(h);
      && r.words == m.words
      && (r.log == m.log || (r.log == m.log + [Recycled(cur)] && r.threads[cur].state.Unused? && m.threads[cur].state.Zombie?))
      && (forall i :: 0 <= i < |m.threads| && i != cur ==> Switched(m.threads[i], r.threads[i]))
      && (m.threads[cur].state.Unused? ==> r.threads[cur].state.Unused?)
  {
    ScheduleEffect(m, h);
  }

  /** A call of schedule with a thread that is not dead appends nothing. */
  lemma SwitchIsExplained(s: State, a: Action, m: State, h: nat)
    requires s.Sized() && Enabled(s, a) && Core(m, h) && m.Started(h)
    requires m.log == s.log && !m.threads[m.Current(h)].state.Zombie?
    ensures Explained(s, a, Schedule(m, h, m.cpus[h].curTf))
  {
    ScheduleLogs(m, h);
    Explain(s, a, Schedule(m, h, m.cpus[h].curTf), []);
  }

  lemma NothingLogged(s: State, a: Action, r: State)
    requires s.Sized() && Enabled(s, a) && r.log == s.log
    ensures Explained(s, a, r)
  {
  }

  // ---------------------------------------------------------------- deaths

  /** The events of t's death with that code, served to j, when m is what they leave. */
  predicate DeathEvent(m: State, e: Event, t: int, code: int, j: int)
    requires m.IsTid(t)
  {
    || e == Terminated(t, code)
    || (j >= 0 && e == Delivered(t, j, code))
    || (m.threads[t].state.Unused? && e == Recycled(t))
  }

  /** The state they leave: j, if any, waited for t and is served. */
  predicate DeathState(s: State, m: State, t: int, code: int, j: int)
    requires s.IsTid(t) && m.IsTid(t)
  {
    j >= 0 ==>
      && s.IsTid(j) && m.IsTid(j) && j != t && s.threads[j].state.Waiting? && s.threads[j].waitingFor == t
      && m.threads[j] == Woken(s.threads[j]) && m.words == WithWord(s.words, s.threads[j].joinStatusPtr, code)
  }

  lemma DeathIsExplained(s: State, a: Action, m: State, t: int, code: int, j: int, es: seq<Event>)
    requires s.Sized() && Enabled(s, a) && s.IsTid(t) && SameShape(s, m) && Ends(s, a, t, code)
    requires m.log == s.log + es && forall k :: 0 <= k < |es| ==> DeathEvent(m, es[k], t, code, j)
    requires DeathState(s, m, t, code, j)
    ensures Explained(s, a, m)
  {
    forall k | 0 <= k < |es| ensures Caused(s, a, m, es[k]) {
      assert DeathEvent(m, es[k], t, code, j);
    }
    Explain(s, a, m, es);
  }

  /** The death of the thread that hart h is running, and the switch that takes it off the hart. */
  lemma SwitchAfterDeathIsExplained(s: State, a: Action, m: State, h: nat, t: int, code: int, j: int, es: seq<Event>)
    requires s.Sized() && Enabled(s, a) && Core(m, h) && m.Started(h) && SameShape(s, m)
    requires s.IsTid(t) && m.Current(h) == t && Ends(s, a, t, code)
    requires m.log == s.log + es && forall k :: 0 <= k < |es| ==> DeathEvent(m, es[k], t, code, j)
    requires DeathState(s, m, t, code, j)
    ensures Explained(s, a, Schedule(m, h, m.cpus[h].curTf))
  {
    var r := Schedule(m, h, m.cpus[h].curTf);
    ScheduleLogs(m, h);
    hide Schedule;
    hide Core;
    hide Ends;
    var fs := if r.log == m.log then es else es + [Recycled(t)];
    assert j >= 0 ==> Switched(m.threads[j], r.threads[j]);
    forall k | 0 <= k < |fs| ensures Caused(s, a, r, fs[k]) {
      assert k < |es| ==> fs[k] == es[k] && DeathEvent(m, es[k], t, code, j);
    }
    assert r.log == s.log + fs;
    Explain(s, a, r, fs);
  }

  lemma ExitIsExplained(s: State, h: nat, code: int)
    requires Inv(s) && Linked(s) && Enabled(s, Sys(h, ExitWith(code))) && |s.cpus| <= s.Current(h)
    ensures Explained(s, Sys(h, ExitWith(code)), Exit(s, h, s.Current(h), code))
  {
    var cur, m := s.Current(h), Die(s, h, code);
    var j := s.threads[cur].joinWaiter;
    FrameIsCurrent(s, h, -1);
    DieRecords(s, h, code);
    DieVacatesOnSchedule(s, h, code);
    assert UserOK(s, cur, -1);
    var es := if j >= 0 then [Terminated(cur, code)] + [Delivered(cur, j, code)] + [Recycled(cur)] else [Terminated(cur, code)];
    assert m.log == s.log + es;
    hide Core;
    SwitchAfterDeathIsExplained(s, Sys(h, ExitWith(code)), m, h, cur, code, j, es);
  }

  lemma KillDeath(s: State, m: State, cur: int, t: int)
    requires s.Sized() && s.IsTid(t) && s.IsTid(cur) && SameShape(s, m) && KillChanges(s, m, cur, t) && cur != t
    requires -1 <= s.threads[t].joinWaiter
    ensures var es := DeathEvents(t, SIGKILL_CODE, s.threads[t].joinWaiter, FreedByKill(s.threads[t]));
      m.log == s.log + es && forall k :: 0 <= k < |es| ==> DeathEvent(m, es[k], t, SIGKILL_CODE, s.threads[t].joinWaiter)
    ensures DeathState(s, m, t, SIGKILL_CODE, s.threads[t].joinWaiter)
  {
  }

  lemma KillIsExplained(s: State, h: nat, t: int)
    requires Inv(s) && Linked(s) && Enabled(s, Sys(h, KillThread(t))) && s.cpus[h].curTf == s.Current(h)
    ensures Explained(s, Sys(h, KillThread(t)), Step(s, Sys(h, KillThread(t))))
  {
    var cur, a := s.Current(h), Sys(h, KillThread(t));
    KillStepIs(s, h, t);
    KillKeepsCore(s, h, t);
    if KillTakesEffect(s, cur, t) {
      var m, v, j := Kill(s, h, cur, t), s.threads[t].runningHart, s.threads[t].joinWaiter;
      VictimIsElsewhere(s, h, t);
      KillRecords(s, h, t);
      assert UserOK(s, t, -1);
      KillDeath(s, m, cur, t);
      var es := DeathEvents(t, SIGKILL_CODE, j, FreedByKill(s.threads[t]));
      assert m.cpus == s.cpus;
      hide Kill;
      hide KillChanges;
      if v >= 0 {
        SwitchAfterDeathIsExplained(s, a, m, v, t, SIGKILL_CODE, j, es);
      } else {
        DeathIsExplained(s, a, m, t, SIGKILL_CODE, j, es);
      }
    } else {
      NothingLogged(s, a, Step(s, a));
    }
  }

  // ---------------------------------------------------------------- the other calls

  lemma JoinIsExplained(s: State, h: nat, t: int, ptr: nat)
    requires Inv(s) && Linked(s) && Enabled(s, Sys(h, JoinThread(t, ptr))) && |s.cpus| <= s.Current(h)
    ensures Explained(s, Sys(h, JoinThread(t, ptr)), Join(s, h, s.Current(h), t, ptr))
  {
    var cur, a := s.Current(h), Sys(h, JoinThread(t, ptr));
    CurrentIsRunning(s, h);
    match JoinOutcome(s, cur, t)
    case JoinError(_) => NothingLogged(s, a, Join(s, h, cur, t, ptr));
    case JoinDead =>
      var c := s.threads[t].exitCode;
      Explain(s, a, Join(s, h, cur, t, ptr), [Delivered(t, cur, c), Recycled(t)]);
    case JoinWait =>
      AwaitExitKeepsCore(s, h, t, ptr);
      SwitchIsExplained(s, a, AwaitExit(s, cur, t, ptr), h);
  }

  lemma CreateIsExplained(s: State, h: nat, arg: int)
    requires Inv(s) && Enabled(s, Sys(h, CreateThread(arg)))
    ensures Explained(s, Sys(h, CreateThread(arg)), Create(s, h, s.Current(h), arg))
  {
    var tid, r, a := AllocFrom(s, 1), Create(s, h, s.Current(h), arg), Sys(h, CreateThread(arg));
    if tid < 0 { NothingLogged(s, a, r); } else { Explain(s, a, r, [Created(tid)]); }
  }

  lemma DetachIsExplained(s: State, h: nat, t: int)
    requires Inv(s) && Enabled(s, Sys(h, DetachThread(t)))
    ensures Explained(s, Sys(h, DetachThread(t)), Detach(s, s.Current(h), t))
  {
    var r, a := Detach(s, s.Current(h), t), Sys(h, DetachThread(t));
    CurrentIsRunning(s, h);
    if DetachTakesEffect(s, t) && s.threads[t].state.Zombie? {
      Explain(s, a, r, [Recycled(t)]);
    } else {
      NothingLogged(s, a, r);
    }
  }

  lemma SleepIsExplained(s: State, h: nat, a: Action, n: U64)
    requires Inv(s) && Enabled(s, a) && s.Started(h) && |s.cpus| <= s.Current(h)
    ensures Explained(s, a, Sleep(s, h, s.Current(h), n))
  {
    CurrentIsRunning(s, h);
    if n == 0 {
      CoreWeakens(s, h);
      SwitchIsExplained(s, a, s, h);
    } else {
      CurrentChanges(s, h, Asleep(s, h, n));
      SwitchIsExplained(s, a, s.WithThread(s.Current(h), Asleep(s, h, n)), h);
    }
  }

  lemma ReadIsExplained(s: State, h: nat, fd: int, buf: nat, len: nat)
    requires Inv(s) && Enabled(s, Sys(h, ReadInput(fd, buf, len))) && |s.cpus| <= s.Current(h)
    ensures Explained(s, Sys(h, ReadInput(fd, buf, len)), Read(s, h, s.Current(h), fd, buf, len))
  {
    var cur, a, n := s.Current(h), Sys(h, ReadInput(fd, buf, len)), Min(len, |s.rx|);
    var r := Read(s, h, cur, fd, buf, len);
    CurrentIsRunning(s, h);
    if fd != 0 {
      NothingLogged(s, a, r);
    } else if n > 0 {
      Explain(s, a, r, [Consumed(cur, s.rx[..n])]);
    } else {
      var s1 := s.(stdinWaiter := cur);
      SameOwnershipKeepsCore(s, s1, -1);
      CurrentChanges(s1, h, s.threads[cur].(readBuf := buf, readLen := len, state := Blocked));
      SwitchIsExplained(s, a, AwaitInput(s, cur, buf, len), h);
    }
  }

  // ---------------------------------------------------------------- interrupts

  lemma TimerIsExplained(s: State, h: nat)
    requires Inv(s) && Enabled(s, Timer(h))
    ensures Explained(s, Timer(h), OnTimer(s, h, s.Current(h)))
  {
    var c := Clocked(s, h);
    ClockedKeepsInv(s, h);
    ClockedRecords(s, h);
    CurrentIsRunning(c, h);
    CountSliceCases(c, h);
    if c.cpus[h].sliceLeft > 1 {
      NothingLogged(s, Timer(h), CountSlice(c, h, c.Current(h)));
    } else {
      SwitchIsExplained(s, Timer(h), Expired(c, h), h);
    }
  }

  /** Without a registered reader, bytes append arrivals only. */
  lemma {:induction false} LaterCharsLog(s: State, h: nat, bs: seq<Byte>) returns (es: seq<Event>)
    requires s.Sized() && s.IsHart(h) && s.stdinWaiter < 0
    ensures OnChars(s, h, bs).log == s.log + es
    ensures forall k :: 0 <= k < |es| ==> es[k].Arrived? && es[k].byte in bs
    decreases |bs|
  {
    if bs == [] {
      es := [];
    } else {
      CharEvents(s, h, bs[0]);
      var fs := LaterCharsLog(OnChar(s, h, bs[0]), h, bs[1..]);
      es := ByteEvents(s, bs[0]) + fs;
      assert forall k :: 0 <= k < |fs| ==> fs[k].byte in bs[1..];
    }
  }

  lemma UartIsExplained(s: State, h: nat, bs: seq<Byte>)
    requires Inv(s) && Enabled(s, Uart(h, bs))
    ensures Explained(s, Uart(h, bs), OnChars(s, h, bs))
  {
    hide OnChar;
    var a, r := Uart(h, bs), OnChars(s, h, bs);
    if bs == [] {
      NothingLogged(s, a, r);
    } else {
      CharEvents(s, h, bs[0]);
      CharChangesReader(s, h, bs[0]);
      var fs := LaterCharsLog(OnChar(s, h, bs[0]), h, bs[1..]);
      assert forall k :: 0 <= k < |fs| ==> fs[k].byte in bs[1..];
      Explain(s, a, r, ByteEvents(s, bs[0]) + fs);
    }
  }

  // ---------------------------------------------------------------- the theorem

  lemma SyscallIsExplained(s: State, h: nat, c: Call)
    requires Inv(s) && Linked(s) && Enabled(s, Sys(h, c)) && !c.KillThread? && s.cpus[h].curTf == s.Current(h)
    ensures Explained(s, Sys(h, c), Syscall(s, h, c))
  {
    hide Explained;
    SyscallKeepsInv(s, h, c);
    var cur := s.Current(h);
    match c
    case SleepFor(n) => SleepIsExplained(s, h, Sys(h, c), n);
    case YieldCpu => SleepIsExplained(s, h, Sys(h, c), 0);
    case ExitWith(code) => ExitIsExplained(s, h, code);
    case JoinThread(t, ptr) => JoinIsExplained(s, h, t, ptr);
    case CreateThread(arg) => CreateIsExplained(s, h, arg);
    case DetachThread(t) => DetachIsExplained(s, h, t);
    case ReadInput(fd, buf, len) => ReadIsExplained(s, h, fd, buf, len);
    case OtherCall(v) => NothingLogged(s, Sys(h, c), s.WithA0(cur, v));
  }

  /** Every event a step appends has its cause in the step's action: a termination is an exit call
      with this code or a kill, a delivery serves a waiter or a caller of join and leaves the code in
      the status word it gave, and so for the others. */
  lemma StepIsExplained(s: State, a: Action)
    requires Inv(s) && Linked(s) && Enabled(s, a)
    ensures Explained(s, a, Step(s, a))
  {
    hide Explained;
    if s.Started(a.hart) { CurrentIsRunning(s, a.hart); }
    match a
    case Timer(h) => TimerIsExplained(s, h);
    case Ipi(h) => CoreWeakens(s, h); SwitchIsExplained(s, a, s, h);
    case Uart(h, bs) => UartIsExplained(s, h, bs);
    case GoOnline(h) => NothingLogged(s, a, Step(s, a));
    case StartIdle(h) => NothingLogged(s, a, Step(s, a));
    case Sys(h, c) =>
      if c.KillThread? { KillIsExplained(s, h, c.target); } else { SyscallIsExplained(s, h, c); }
  }
}
