/** Runs from boot that reach what the two environment assumptions exclude. */
module Witnesses {
  import opened KernelState
  import opened KernelOps
  import opened Partition
  import opened Steps
  import opened Safety
  import opened Links
  import opened JoinProtocol
  import opened Exactness
  import opened Runs

  const IDLE: Thread := UNUSED_THREAD.(state := Runnable)
  const READY: Thread := UNUSED_THREAD.(state := Runnable, isUser := true, canBeKilled := true)
  const OFFLINE: Cpu := Cpu(false, NO_TID, NO_TID, 0)
  const ONLINE: Cpu := Cpu(true, NO_TID, NO_TID, SLICE_TICKS)

  function OnHart(t: Thread, h: int): Thread {
    t.(state := Running, runningHart := h)
  }

  function CpuOf(tid: int): Cpu {
    Cpu(true, tid, tid, SLICE_TICKS)
  }

  /** A state without input, status words or ticks. */
  function Plain(threads: seq<Thread>, home: seq<int>, cpus: seq<Cpu>, queues: seq<seq<int>>, log: seq<Event>): State {
    State(0, 0, threads, home, cpus, queues, map[], NO_TID, [], log, false)
  }

  // ---------------------------------------------------------------- one hart: a join, then a kill

  function J0(): State {
    Plain([IDLE, READY, UNUSED_THREAD], [-1, 0, -1], [ONLINE], [[1]], [Created(1)])
  }

  function J1(): State {
    Plain([OnHart(IDLE, 0), READY, UNUSED_THREAD], [-1, 0, -1], [CpuOf(0)], [[1]], [Created(1)])
  }

  function J2(): State {
    Plain([IDLE, OnHart(READY, 0), UNUSED_THREAD], [-1, -1, -1], [CpuOf(1)], [[]], [Created(1)])
  }

  function J3(): State {
    Plain([IDLE, OnHart(READY, 0).(a0 := 2), READY], [-1, -1, 0], [CpuOf(1)], [[2]], [Created(1), Created(2)])
  }

  /** Thread 1 waits for thread 2, which runs. */
  function J4(): State {
    Plain([IDLE, READY.(state := Waiting, a0 := 2, waitingFor := 2, joinStatusPtr := 8), OnHart(READY, 0).(joinWaiter := 1)],
          [-1, -1, -1], [CpuOf(2)], [[]], [Created(1), Created(2)])
  }

  /** Two states with the same parts. */
  lemma SameParts(r: State, s: State)
    requires r == s.(threads := r.threads, home := r.home, cpus := r.cpus, queues := r.queues, log := r.log)
    requires |r.threads| == |s.threads| && forall i :: 0 <= i < |s.threads| ==> r.threads[i] == s.threads[i]
    requires |r.home| == |s.home| && forall i :: 0 <= i < |s.home| ==> r.home[i] == s.home[i]
    requires |r.cpus| == |s.cpus| && forall h :: 0 <= h < |s.cpus| ==> r.cpus[h] == s.cpus[h]
    requires |r.queues| == |s.queues| && forall h :: 0 <= h < |s.queues| ==> r.queues[h] == s.queues[h]
    requires r.log == s.log
    ensures r == s
  {
    assert r.threads == s.threads && r.home == s.home && r.cpus == s.cpus && r.queues == s.queues;
  }

  /** A switch to the head of the queue. */
  lemma SwitchesTo(s: State, h: nat, n: int)
    requires s.Sized() && s.Started(h) && Yielded(s, h).queues[h] != [] && n == Yielded(s, h).queues[h][0]
    requires s.IsTid(n) && Yielded(s, h).threads[n].state.Runnable?
    ensures Schedule(s, h, s.cpus[h].curTf) == Dispatch(Pop(Yielded(s, h), h), h, n)
  {
    assert SkipStale(Yielded(s, h), h) == Yielded(s, h);
  }

  /** A new thread in a fresh slot, placed on hart g. */
  function WithNew(s: State, tid: int, g: int): State
    requires s.Sized() && s.IsTid(tid) && s.IsHart(g)
  {
    s.(threads := s.threads[tid := READY], home := s.home[tid := g], queues := s.queues[g := s.queues[g] + [tid]],
       log := s.log + [Created(tid)])
  }

  lemma SpawnsOn(s: State, h: nat, tid: int, g: int)
    requires s.Sized() && s.IsHart(h) && |s.cpus| <= tid < |s.threads| && s.home[tid] < 0
    requires s.threads[tid] == UNUSED_THREAD && PickTarget(s, h) == g
    ensures Spawn(s, h, tid, 0) == WithNew(s, tid, g)
  {
    var s1 := s.WithThread(tid, READY).Logged(Created(tid));
    PickIgnoresThreads(s, s1, 0, h, |s.queues[h]|, s.cpus[h].online);
    assert s1.WithThread(tid, READY) == s1;
  }

  lemma CreatesOn(s: State, h: nat, tid: int, g: int)
    requires s.Sized() && Enabled(s, Sys(h, CreateThread(0))) && s.cpus[h].curTf == s.Current(h)
    requires |s.cpus| <= tid < |s.threads| && s.home[tid] < 0 && s.threads[tid] == UNUSED_THREAD
    requires AllocFrom(s, 1) == tid && PickTarget(s, h) == g
    ensures Step(s, Sys(h, CreateThread(0))) == WithNew(s, tid, g).WithA0(s.Current(h), tid)
  {
    hide Step;
    hide Spawn;
    hide PickTarget;
    StepIsCreate(s, h);
    SpawnsOn(s, h, tid, g);
  }

  lemma StepIsCreate(s: State, h: nat)
    requires s.Sized() && Enabled(s, Sys(h, CreateThread(0))) && s.cpus[h].curTf == s.Current(h)
    ensures Step(s, Sys(h, CreateThread(0))) == Create(s, h, s.Current(h), 0)
  {
    hide Create;
    hide Schedule;
  }

  lemma JoinBoots()
    ensures InitState(3, 1, 0) == J0()
  {
    var b := BlankState(3, 1, 0);
    assert AllocFrom(b, 1) == 1;
    SpawnsOn(b, 0, 1, 0);
    SameParts(InitState(3, 1, 0), J0());
  }

  lemma JoinStarts()
    ensures J0().Sized() && Enabled(J0(), StartIdle(0)) && Step(J0(), StartIdle(0)) == J1()
  {
  }

  lemma JoinSwitches()
    ensures J1().Sized() && Enabled(J1(), Ipi(0)) && Step(J1(), Ipi(0)) == J2()
  {
    SwitchesTo(J1(), 0, 1);
    SameParts(Step(J1(), Ipi(0)), J2());
  }

  lemma JoinCreates()
    ensures J2().Sized() && Enabled(J2(), Sys(0, CreateThread(0))) && Step(J2(), Sys(0, CreateThread(0))) == J3()
  {
    assert AllocFrom(J2(), 1) == 2;
    CreatesOn(J2(), 0, 2, 0);
    SameParts(Step(J2(), Sys(0, CreateThread(0))), J3());
  }

  lemma JoinWaits()
    ensures J3().Sized() && Enabled(J3(), Sys(0, JoinThread(2, 8))) && Step(J3(), Sys(0, JoinThread(2, 8))) == J4()
  {
    SwitchesTo(AwaitExit(J3(), 1, 2, 8), 0, 2);
    SameParts(Step(J3(), Sys(0, JoinThread(2, 8))), J4());
  }

  /** Thread 1 has been killed while it waited. */
  function J5(): State {
    Plain([IDLE, READY.(state := Zombie, a0 := 2, waitingFor := 2, joinStatusPtr := 8, exitCode := SIGKILL_CODE),
           OnHart(READY, 0).(joinWaiter := 1)],
          [-1, -1, -1], [CpuOf(2)], [[]], [Created(1), Created(2), Terminated(1, SIGKILL_CODE)])
  }

  /** Thread 2 has exited, and hart 0 runs the killed thread. */
  function J6(): State {
    Plain([IDLE, OnHart(READY, 0).(exitCode := SIGKILL_CODE), UNUSED_THREAD], [-1, -1, -1], [CpuOf(1)], [[]],
          [Created(1), Created(2), Terminated(1, SIGKILL_CODE), Terminated(2, 7), Delivered(2, 1, 7), Recycled(2)])
      .(words := map[8 := 7])
  }

  lemma WaiterIsKilled()
    ensures J4().Sized() && Enabled(J4(), Sys(0, KillThread(1))) && Step(J4(), Sys(0, KillThread(1))) == J5()
    ensures !SparesWaiters(J4(), Sys(0, KillThread(1)))
  {
    SameParts(Step(J4(), Sys(0, KillThread(1))), J5());
  }

  /** Thread 2 has died and served the thread it believes to wait. */
  function Served(): State {
    Plain([IDLE, READY.(exitCode := SIGKILL_CODE), UNUSED_THREAD], [-1, 0, -1], [CpuOf(2)], [[1]],
          [Created(1), Created(2), Terminated(1, SIGKILL_CODE), Terminated(2, 7), Delivered(2, 1, 7), Recycled(2)])
      .(words := map[8 := 7])
  }

  lemma DeadIsServed()
    ensures J5().Sized() && J5().Started(0) && Die(J5(), 0, 7) == Served()
  {
    SameParts(Die(J5(), 0, 7), Served());
  }

  lemma DeadRuns()
    ensures J5().Sized() && Enabled(J5(), Sys(0, ExitWith(7))) && Step(J5(), Sys(0, ExitWith(7))) == J6()
  {
    DeadIsServed();
    SwitchesTo(Served(), 0, 1);
    SameParts(Step(J5(), Sys(0, ExitWith(7))), J6());
  }

  /** One step of a run. */
  predicate Goes(s: State, a: Action, r: State) {
    s.Sized() && Enabled(s, a) && r == Step(s, a)
  }

  lemma IsRunOf(ss: seq<State>, acts: seq<Action>)
    requires |ss| == |acts| + 1 && forall k :: 0 <= k < |acts| ==> Goes(ss[k], acts[k], ss[k + 1])
    ensures IsRun(ss, acts)
  {
    hide Step;
    hide Enabled;
    forall k | 0 <= k < |acts| ensures ss[k].Sized() && Enabled(ss[k], acts[k]) && ss[k + 1] == Step(ss[k], acts[k]) {
      assert Goes(ss[k], acts[k], ss[k + 1]);
    }
  }

  lemma SixSteps(s0: State, a0: Action, s1: State, a1: Action, s2: State, a2: Action, s3: State, a3: Action,
                 s4: State, a4: Action, s5: State, a5: Action, s6: State)
    requires Goes(s0, a0, s1) && Goes(s1, a1, s2) && Goes(s2, a2, s3) && Goes(s3, a3, s4) && Goes(s4, a4, s5) && Goes(s5, a5, s6)
    ensures IsRun([s0, s1, s2, s3, s4, s5, s6], [a0, a1, a2, a3, a4, a5])
  {
    hide Goes;
    hide IsRun;
    IsRunOf([s0, s1, s2, s3, s4, s5, s6], [a0, a1, a2, a3, a4, a5]);
  }

  lemma JoinIsRun()
    ensures InitState(3, 1, 0) == J0() && IsRun(JoinStates(), JoinActions())
  {
    JoinBoots();
    JoinStarts();
    JoinSwitches();
    JoinCreates();
    JoinWaits();
    WaiterIsKilled();
    DeadRuns();
    hide Step;
    hide Enabled;
    hide InitState;
    hide IsRun;
    SixSteps(J0(), StartIdle(0), J1(), Ipi(0), J2(), Sys(0, CreateThread(0)), J3(), Sys(0, JoinThread(2, 8)), J4(),
             Sys(0, KillThread(1)), J5(), Sys(0, ExitWith(7)), J6());
  }

  function JoinStates(): seq<State> {
    [J0(), J1(), J2(), J3(), J4(), J5(), J6()]
  }

  function JoinActions(): seq<Action> {
    [StartIdle(0), Ipi(0), Sys(0, CreateThread(0)), Sys(0, JoinThread(2, 8)), Sys(0, KillThread(1)), Sys(0, ExitWith(7))]
  }

  /** Without E2: a run from boot in which a thread is killed while it waits in a join, which breaks
      the join protocol, and is running again after the thread it waited for has exited. */
  lemma KilledWaiterRunsAgain() returns (ss: seq<State>, acts: seq<Action>)
    ensures IsRun(ss, acts) && |acts| == 6 && ss[0] == InitState(3, 1, 0)
    ensures acts[4] == Sys(0, KillThread(1)) && acts[5] == Sys(0, ExitWith(7))
    ensures Linked(ss[4]) && !SparesWaiters(ss[4], acts[4]) && !Linked(ss[5])
    ensures ss[5].threads[1].state.Zombie? && ss[5].threads[1].exitCode == SIGKILL_CODE
    ensures RunsOn(ss[6], 0, 1)
  {
    JoinIsRun();
    WaiterIsKilled();
    hide Step;
    hide Enabled;
    hide InitState;
    hide IsRun;
    ss, acts := JoinStates(), JoinActions();
    assert !JoinerOK(J5(), 2);
  }

  // ---------------------------------------------------------------- two harts: a kill without its interrupt

  function K0(): State {
    Plain([IDLE, IDLE, READY, UNUSED_THREAD, UNUSED_THREAD], [-1, -1, 0, -1, -1], [ONLINE, OFFLINE], [[2], []], [Created(2)])
  }

  function K1(): State {
    Plain([OnHart(IDLE, 0), IDLE, READY, UNUSED_THREAD, UNUSED_THREAD], [-1, -1, 0, -1, -1], [CpuOf(0), OFFLINE],
          [[2], []], [Created(2)])
  }

  function K2(): State {
    K1().(cpus := [CpuOf(0), ONLINE])
  }

  function K3(): State {
    Plain([OnHart(IDLE, 0), OnHart(IDLE, 1), READY, UNUSED_THREAD, UNUSED_THREAD], [-1, -1, 0, -1, -1],
          [CpuOf(0), CpuOf(1)], [[2], []], [Created(2)])
  }

  function K4(): State {
    Plain([IDLE, OnHart(IDLE, 1), OnHart(READY, 0), UNUSED_THREAD, UNUSED_THREAD], [-1, -1, -1, -1, -1],
          [CpuOf(2), CpuOf(1)], [[], []], [Created(2)])
  }

  function K5(): State {
    Plain([IDLE, OnHart(IDLE, 1), OnHart(READY, 0).(a0 := 3), READY, UNUSED_THREAD], [-1, -1, -1, 0, -1],
          [CpuOf(2), CpuOf(1)], [[3], []], [Created(2), Created(3)])
  }

  function K6(): State {
    Plain([IDLE, OnHart(IDLE, 1), OnHart(READY, 0).(a0 := 4), READY, READY], [-1, -1, -1, 0, 1],
          [CpuOf(2), CpuOf(1)], [[3], [4]], [Created(2), Created(3), Created(4)])
  }

  /** Hart 0 runs thread 2 and hart 1 thread 4. */
  function K7(): State {
    Plain([IDLE, IDLE, OnHart(READY, 0).(a0 := 4), READY, OnHart(READY, 1)], [-1, -1, -1, 0, -1],
          [CpuOf(2), CpuOf(4)], [[3], []], [Created(2), Created(3), Created(4)])
  }

  lemma KillBoots()
    ensures InitState(5, 2, 0) == K0()
  {
    var b := BlankState(5, 2, 0);
    assert AllocFrom(b, 3) == 3 && AllocFrom(b, 2) == 2 && AllocFrom(b, 1) == 2;
    SpawnsOn(b, 0, 2, 0);
    SameParts(InitState(5, 2, 0), K0());
  }

  lemma KillStarts()
    ensures K0().Sized() && Enabled(K0(), StartIdle(0)) && Step(K0(), StartIdle(0)) == K1()
    ensures K1().Sized() && Enabled(K1(), GoOnline(1)) && Step(K1(), GoOnline(1)) == K2()
    ensures K2().Sized() && Enabled(K2(), StartIdle(1)) && Step(K2(), StartIdle(1)) == K3()
  {
  }

  lemma KillSwitches()
    ensures K3().Sized() && Enabled(K3(), Ipi(0)) && Step(K3(), Ipi(0)) == K4()
  {
    SwitchesTo(K3(), 0, 2);
    SameParts(Step(K3(), Ipi(0)), K4());
  }

  lemma KillCreates()
    ensures K4().Sized() && Enabled(K4(), Sys(0, CreateThread(0))) && Step(K4(), Sys(0, CreateThread(0))) == K5()
  {
    assert AllocFrom(K4(), 3) == 3 && AllocFrom(K4(), 2) == 3 && AllocFrom(K4(), 1) == 3;
    CreatesOn(K4(), 0, 3, 0);
    SameParts(WithNew(K4(), 3, 0).WithA0(2, 3), K5());
  }

  lemma KillCreatesAgain()
    ensures K5().Sized() && Enabled(K5(), Sys(0, CreateThread(0))) && Step(K5(), Sys(0, CreateThread(0))) == K6()
  {
    assert AllocFrom(K5(), 4) == 4 && AllocFrom(K5(), 3) == 4 && AllocFrom(K5(), 2) == 4 && AllocFrom(K5(), 1) == 4;
    CreatesOn(K5(), 0, 4, 1);
    SameParts(WithNew(K5(), 4, 1).WithA0(2, 4), K6());
  }

  lemma KillSwitchesAgain()
    ensures K6().Sized() && Enabled(K6(), Ipi(1)) && Step(K6(), Ipi(1)) == K7()
  {
    SwitchesTo(K6(), 1, 4);
    SameParts(Step(K6(), Ipi(1)), K7());
  }

  lemma SevenSteps(s0: State, a0: Action, s1: State, a1: Action, s2: State, a2: Action, s3: State, a3: Action,
                   s4: State, a4: Action, s5: State, a5: Action, s6: State, a6: Action, s7: State)
    requires Goes(s0, a0, s1) && Goes(s1, a1, s2) && Goes(s2, a2, s3) && Goes(s3, a3, s4) && Goes(s4, a4, s5)
    requires Goes(s5, a5, s6) && Goes(s6, a6, s7)
    ensures IsRun([s0, s1, s2, s3, s4, s5, s6, s7], [a0, a1, a2, a3, a4, a5, a6])
  {
    hide Goes;
    hide IsRun;
    IsRunOf([s0, s1, s2, s3, s4, s5, s6, s7], [a0, a1, a2, a3, a4, a5, a6]);
  }

  function KillStates(): seq<State> {
    [K0(), K1(), K2(), K3(), K4(), K5(), K6(), K7()]
  }

  function KillActions(): seq<Action> {
    [StartIdle(0), GoOnline(1), StartIdle(1), Ipi(0), Sys(0, CreateThread(0)), Sys(0, CreateThread(0)), Ipi(1)]
  }

  lemma KillIsRun()
    ensures InitState(5, 2, 0) == K0() && IsRun(KillStates(), KillActions())
  {
    KillBoots();
    KillStarts();
    KillSwitches();
    KillCreates();
    KillCreatesAgain();
    KillSwitchesAgain();
    hide Step;
    hide Enabled;
    hide InitState;
    hide IsRun;
    SevenSteps(K0(), StartIdle(0), K1(), GoOnline(1), K2(), StartIdle(1), K3(), Ipi(0), K4(),
               Sys(0, CreateThread(0)), K5(), Sys(0, CreateThread(0)), K6(), Ipi(1), K7());
  }

  /** Without E1: a run from boot after which hart 0 can kill the thread that hart 1 is running and
      then, before the interrupt arrives there, join it and free the slot that hart 1 is still
      executing. */
  lemma ExecutingSlotIsFreed(ptr: nat) returns (ss: seq<State>, acts: seq<Action>)
    ensures IsRun(ss, acts) && |acts| == 7 && ss[0] == InitState(5, 2, 0)
    ensures var s := ss[7];
      && Inv(s) && Linked(s) && s.Started(0) && s.Current(0) == 2 && s.Started(1) && s.Current(1) == 4
      && KillTakesEffect(s, 2, 4) && !Inv(Kill(s, 0, 2, 4))
      && var r := Join(Kill(s, 0, 2, 4), 0, 2, 4, ptr);
         r.threads[4].state.Unused? && r.Started(1) && r.Current(1) == 4
  {
    KillIsRun();
    hide Step;
    hide Enabled;
    hide IsRun;
    hide InitState;
    ss, acts := KillStates(), KillActions();
    InitIsSafe(5, 2, 0);
    RunsKeepPartition(ss, acts, 7);
    KillableIsLinked();
    KillKeepsPartitionIffNotExecuting(K7(), 0, 4);
    JoinFreesExecutingSlot(K7(), 0, 4, ptr);
  }

  lemma KillableIsLinked()
    ensures Linked(K7())
  {
    forall i | 0 <= i < 5 ensures WaitOK(K7(), i) && JoinerOK(K7(), i) {
    }
  }
}
