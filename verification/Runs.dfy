/** Whole runs: from the state the boot code builds, through any sequence of traps. */
module Runs {
  import opened Bytes
  import opened KernelState
  import opened KernelOps
  import opened Partition
  import opened Steps
  import opened Safety
  import opened Links
  import opened JoinProtocol
  import opened Lifecycle
  import opened Bystanders
  import opened Quietness
  import opened Blocking
  import opened Console
  import opened Fairness
  import opened Causes
  import opened Results

  predicate IsRun(ss: seq<State>, acts: seq<Action>) {
    && |ss| == |acts| + 1
    && forall k :: 0 <= k < |acts| ==>
         ss[k].Sized() && Enabled(ss[k], acts[k]) && ss[k + 1] == Step(ss[k], acts[k])
  }

  /** A run under E2: no kill that takes effect hits a thread waiting in a join. */
  predicate IsGentleRun(ss: seq<State>, acts: seq<Action>) {
    IsRun(ss, acts) && forall k :: 0 <= k < |acts| ==> SparesWaiters(ss[k], acts[k])
  }

  // ---------------------------------------------------------------- the initial state

  lemma BlankIsInv(n: nat, harts: nat, boot: nat)
    requires boot < harts < n
    ensures Inv(BlankState(n, harts, boot))
  {
    var s := BlankState(n, harts, boot);
    forall h | 0 <= h < |s.cpus| ensures QueueOK(s, h) && CpuOK(s, h, -1) && IdleOK(s, h) {
    }
    forall j | |s.cpus| <= j < |s.threads| ensures UserOK(s, j, -1) {
    }
  }

  /** What booting leaves: the first user thread in the slot after the idle threads, queued on
      the boot hart; every later slot free. */
  lemma InitRecords(n: nat, harts: nat, boot: nat)
    requires boot < harts < n
    ensures var s, b := InitState(n, harts, boot), BlankState(n, harts, boot);
      && Inv(s) && s.log == [Created(harts)] && s.rx == [] && s.stdinWaiter == NO_TID
      && s.threads == b.threads[harts := s.threads[harts]]
      && s.threads[harts] == UNUSED_THREAD.(state := Runnable, isUser := true, canBeKilled := true)
      && s.queues[boot] == [harts]
  {
    var b := BlankState(n, harts, boot);
    BlankIsInv(n, harts, boot);
    assert b.threads[harts].state.Unused?;
    assert AllocFrom(b, 1) == harts;
    SpawnKeepsCore(b, -1, boot, harts, 0);
    PickBootAlone(b.WithThread(harts, InitState(n, harts, boot).threads[harts]).Logged(Created(harts)), 0);
  }

  /** Booting establishes every invariant. */
  lemma InitIsSafe(n: nat, harts: nat, boot: nat)
    requires boot < harts < n
    ensures var s := InitState(n, harts, boot);
      && Inv(s) && Linked(s) && Historical(s) && SleepersAhead(s) && Balanced(s) && ReaderServed(s)
      && (forall i :: 0 <= i < n ==> (s.threads[i].state.Unused? <==> i > harts))
      && Queued(s, boot, harts)
  {
    InitRecords(n, harts, boot);
    var s := InitState(n, harts, boot);
    forall i | harts <= i < n ensures LifeOK(s, i) {
      LifeOfAppend([], Created(harts), i);
      assert [] + [Created(harts)] == [Created(harts)];
    }
    assert s.log[..0] == [];
  }

  lemma {:induction false} PickBootAlone(s: State, h: nat)
    requires s.Sized() && h <= |s.cpus| && s.cpus[s.boot].online
    requires forall g :: 0 <= g < |s.cpus| && s.cpus[g].online ==> g == s.boot
    ensures PickFrom(s, h, s.boot, |s.queues[s.boot]|, true) == s.boot
    decreases |s.cpus| - h
  {
    if h < |s.cpus| { PickBootAlone(s, h + 1); }
  }

  // ---------------------------------------------------------------- invariants of runs

  /** The ownership partition holds after every step of every run. */
  lemma {:induction false} RunsKeepPartition(ss: seq<State>, acts: seq<Action>, k: nat)
    requires IsRun(ss, acts) && Inv(ss[0]) && k <= |acts|
    ensures Inv(ss[k]) && !ss[k].panicked
  {
    if k > 0 {
      RunsKeepPartition(ss, acts, k - 1);
      StepKeepsInv(ss[k - 1], acts[k - 1]);
    }
  }

  /** In every gentle run the join protocol holds and each thread's record fits its history. */
  lemma {:induction false} RunsKeepJoinProtocol(ss: seq<State>, acts: seq<Action>, k: nat)
    requires IsGentleRun(ss, acts) && Inv(ss[0]) && Linked(ss[0]) && Historical(ss[0]) && k <= |acts|
    ensures Inv(ss[k]) && Linked(ss[k]) && Historical(ss[k])
  {
    if k > 0 {
      RunsKeepJoinProtocol(ss, acts, k - 1);
      StepKeepsInv(ss[k - 1], acts[k - 1]);
      StepKeepsLinks(ss[k - 1], acts[k - 1]);
      StepKeepsHistory(ss[k - 1], acts[k - 1]);
    }
  }

  /** In no gentle run does any thread's history ever break: it is created, terminates once, has
      its code delivered at most once and its slot freed once, over and over. */
  lemma HistoriesNeverBreak(n: nat, harts: nat, boot: nat, ss: seq<State>, acts: seq<Action>, k: nat, i: int)
    requires boot < harts < n && IsGentleRun(ss, acts) && ss[0] == InitState(n, harts, boot) && k <= |acts|
    requires harts <= i < n
    ensures !LifeOf(ss[k].log, i).Broken?
  {
    InitIsSafe(n, harts, boot);
    RunsKeepJoinProtocol(ss, acts, k);
    RunsKeepSizes(ss, acts, k);
    assert LifeOK(ss[k], i);
  }

  lemma {:induction false} RunsKeepSizes(ss: seq<State>, acts: seq<Action>, k: nat)
    requires IsRun(ss, acts) && k <= |acts|
    ensures |ss[k].threads| == |ss[0].threads| && |ss[k].cpus| == |ss[0].cpus| && ss[k].boot == ss[0].boot
  {
    if k > 0 { RunsKeepSizes(ss, acts, k - 1); }
  }

  /** The bytes that the first k actions bring in. */
  function ArrivedIn(acts: seq<Action>, k: nat): seq<Byte>
    requires k <= |acts|
  {
    if k == 0 then [] else ArrivedIn(acts, k - 1) + Incoming(acts[k - 1])
  }

  /** The bytes that the first k actions hand to readers. */
  function GotIn(ss: seq<State>, acts: seq<Action>, k: nat): seq<Byte>
    requires IsRun(ss, acts) && k <= |acts|
  {
    if k == 0 then [] else GotIn(ss, acts, k - 1) + Got(ss[k - 1], acts[k - 1])
  }

  /** Every byte that the run's actions bring in is logged as it arrives, every byte that readers get
      is logged as taken, and the kept ones are the taken ones followed by the ring: a byte that
      arrives is either dropped at a full ring or read, in order and once. */
  lemma {:induction false} RunsConserveInput(ss: seq<State>, acts: seq<Action>, k: nat)
    requires IsRun(ss, acts) && Inv(ss[0]) && Balanced(ss[0]) && k <= |acts|
    ensures Balanced(ss[k])
    ensures Arrivals(ss[k].log) == Arrivals(ss[0].log) + ArrivedIn(acts, k)
    ensures Taken(ss[k].log) == Taken(ss[0].log) + GotIn(ss, acts, k)
  {
    hide Balanced;
    hide Inv;
    hide Arrivals;
    hide Taken;
    hide Step;
    hide Got;
    hide Incoming;
    if k > 0 {
      RunsConserveInput(ss, acts, k - 1);
      RunsKeepPartition(ss, acts, k - 1);
      var s, a := ss[k - 1], acts[k - 1];
      StepKeepsBalance(s, a);
      StepMovesInput(s, a);
      JoinsOn(Arrivals(ss[0].log), ArrivedIn(acts, k - 1), Incoming(a));
      JoinsOn(Taken(ss[0].log), GotIn(ss, acts, k - 1), Got(s, a));
    }
  }

  lemma JoinsOn(p: seq<Byte>, q: seq<Byte>, r: seq<Byte>)
    ensures p + q + r == p + (q + r)
  {
  }

  /** From boot, without the log: what readers got, followed by what is still buffered, is what the
      log keeps of exactly the bytes the actions brought in. */
  lemma InputFromBoot(n: nat, harts: nat, boot: nat, ss: seq<State>, acts: seq<Action>, k: nat)
    requires boot < harts < n && IsRun(ss, acts) && ss[0] == InitState(n, harts, boot) && k <= |acts|
    ensures Arrivals(ss[k].log) == ArrivedIn(acts, k)
    ensures GotIn(ss, acts, k) + ss[k].rx == Kept(ss[k].log) && Honest(ss[k].log)
  {
    hide Step;
    hide Inv;
    hide InitState;
    hide Balanced;
    InitIsSafe(n, harts, boot);
    InitRecords(n, harts, boot);
    BootLog(harts);
    InputFromNothing(ss, acts, k);
  }

  lemma InputFromNothing(ss: seq<State>, acts: seq<Action>, k: nat)
    requires IsRun(ss, acts) && Inv(ss[0]) && Balanced(ss[0]) && k <= |acts|
    requires Arrivals(ss[0].log) == [] && Taken(ss[0].log) == []
    ensures Arrivals(ss[k].log) == ArrivedIn(acts, k)
    ensures GotIn(ss, acts, k) + ss[k].rx == Kept(ss[k].log) && Honest(ss[k].log)
  {
    hide Step;
    hide Inv;
    hide Got;
    RunsConserveInput(ss, acts, k);
    assert [] + ArrivedIn(acts, k) == ArrivedIn(acts, k) && [] + GotIn(ss, acts, k) == GotIn(ss, acts, k);
    BalanceSays(ss[k]);
  }

  lemma BalanceSays(s: State)
    requires Balanced(s)
    ensures Kept(s.log) == Taken(s.log) + s.rx && Honest(s.log)
  {
  }

  lemma BootLog(tid: int)
    ensures Arrivals([Created(tid)]) == [] && Taken([Created(tid)]) == []
  {
  }

  /** With one reader at a time, no byte is ever buffered while a thread is blocked for input. */
  lemma {:induction false} RunsServeReader(ss: seq<State>, acts: seq<Action>, k: nat)
    requires IsGentleRun(ss, acts) && Inv(ss[0]) && Linked(ss[0]) && Historical(ss[0]) && ReaderServed(ss[0])
    requires k <= |acts| && forall m :: 0 <= m < |acts| ==> OneReader(ss[m], acts[m])
    ensures ReaderServed(ss[k])
  {
    if k > 0 {
      RunsServeReader(ss, acts, k - 1);
      RunsKeepJoinProtocol(ss, acts, k - 1);
      ReaderServedIffOneReader(ss[k - 1], acts[k - 1]);
    }
  }

  // ---------------------------------------------------------------- bounded waiting

  function TimersOn(acts: seq<Action>, h: int): nat {
    if acts == [] then 0 else (if acts[0] == Timer(h) then 1 else 0) + TimersOn(acts[1..], h)
  }

  /** Hart h is running thread i. */
  predicate RunsOn(s: State, h: int, i: int) {
    s.Started(h) && s.Current(h) == i && s.threads[i].state.Running?
  }

  /** A queued thread that nobody kills is run by its hart before that hart has taken more than
      5 * position + slice-left timer interrupts, whatever else happens. */
  lemma {:induction false} BoundedWaiting(ss: seq<State>, acts: seq<Action>, h: int, i: int)
    requires IsRun(ss, acts) && Inv(ss[0]) && Queued(ss[0], h, i) && ss[0].Started(h)
    requires forall k :: 0 <= k < |acts| ==> !Kills(ss[k], acts[k], i)
    requires TimersOn(acts, h) >= Rank(ss[0], h, i)
    ensures exists m :: 0 < m <= |acts| && RunsOn(ss[m], h, i) && TimersOn(acts[..m], h) <= Rank(ss[0], h, i)
    decreases |acts|
  {
    RankIsPositive(ss[0], h, i);
    assert acts != [];
    StepKeepsInv(ss[0], acts[0]);
    StepAdvances(ss[0], acts[0], h, i);
    if ss[1].cpus[h].currentTid == i {
      CurrentIsRunning(ss[1], h);
      assert acts[..1][1..] == [];
      assert RunsOn(ss[1], h, i) && TimersOn(acts[..1], h) <= 1;
    } else {
      TailIsRun(ss, acts);
      BoundedWaiting(ss[1..], acts[1..], h, i);
      var m :| 0 < m <= |acts[1..]| && RunsOn(ss[1..][m], h, i) && TimersOn(acts[1..][..m], h) <= Rank(ss[1], h, i);
      LaterRun(ss, acts, h, i, m);
    }
  }

  lemma RankIsPositive(s: State, h: int, i: int)
    requires Inv(s) && Queued(s, h, i) && s.Started(h)
    ensures Rank(s, h, i) >= 1
  {
    assert CpuOK(s, h, -1);
  }

  lemma LaterRun(ss: seq<State>, acts: seq<Action>, h: int, i: int, m: nat)
    requires |ss| == |acts| + 1 && acts != [] && m <= |acts| - 1 && RunsOn(ss[1..][m], h, i)
    ensures RunsOn(ss[m + 1], h, i)
    ensures TimersOn(acts[..m + 1], h) == TimersOn(acts[1..][..m], h) + if acts[0] == Timer(h) then 1 else 0
  {
    assert acts[..m + 1][1..] == acts[1..][..m];
  }

  lemma TailIsRun(ss: seq<State>, acts: seq<Action>)
    requires IsRun(ss, acts) && acts != []
    ensures IsRun(ss[1..], acts[1..])
  {
  }

  // ---------------------------------------------------------------- exact sleep

  predicate IsTick(s: State, a: Action) {
    a.Timer? && a.hart == s.boot
  }

  /** Boot-hart ticks among the first k actions. */
  function TicksIn(ss: seq<State>, acts: seq<Action>, k: nat): nat
    requires |ss| == |acts| + 1 && k <= |acts|
  {
    if k == 0 then 0 else TicksIn(ss, acts, k - 1) + if IsTick(ss[k - 1], acts[k - 1]) then 1 else 0
  }

  /** The state of a sleeper with wake-up time w after `seen` ticks since time w - n. */
  predicate SleepsUntil(s: State, i: int, w: int, n: nat, seen: nat) {
    && s.IsTid(i) && s.threads[i].state.Sleeping? && s.threads[i].wakeupTick == w
    && s.ticks == w - n + seen && seen < n
  }

  lemma SleeperTakesOneStep(s: State, a: Action, i: int, w: int, n: nat, seen: nat)
    requires Inv(s) && Linked(s) && Enabled(s, a) && SparesWaiters(s, a) && !Kills(s, a, i)
    requires SleepsUntil(s, i, w, n, seen)
    ensures var r := Step(s, a);
      if IsTick(s, a) && seen + 1 == n then r.threads[i].state.Runnable? || r.threads[i].state.Running?
      else SleepsUntil(r, i, w, n, if IsTick(s, a) then seen + 1 else seen)
  {
    if s.Started(a.hart) { FrameIsCurrent(s, a.hart, -1); }
    StepQuietness(s, a);
    SleeperSteps(s, a, i);
  }

  /** A thread asleep for n more ticks, and not killed, sleeps through the first n - 1 of them
      and is ready, or already running, right after the n-th. */
  lemma {:induction false} SleepIsExact(ss: seq<State>, acts: seq<Action>, i: int, n: nat, k: nat)
    requires IsGentleRun(ss, acts) && Inv(ss[0]) && Linked(ss[0]) && Historical(ss[0])
    requires ss[0].IsTid(i) && ss[0].threads[i].state.Sleeping?
    requires n > 0 && ss[0].threads[i].wakeupTick == ss[0].ticks + n
    requires forall m :: 0 <= m < |acts| ==> !Kills(ss[m], acts[m], i)
    requires k <= |acts|
    ensures TicksIn(ss, acts, k) < n ==> SleepsUntil(ss[k], i, ss[0].ticks + n, n, TicksIn(ss, acts, k))
    ensures k > 0 && TicksIn(ss, acts, k) == n && IsTick(ss[k - 1], acts[k - 1]) ==>
              ss[k].IsTid(i) && (ss[k].threads[i].state.Runnable? || ss[k].threads[i].state.Running?)
  {
    if k > 0 {
      SleepIsExact(ss, acts, i, n, k - 1);
      RunsKeepJoinProtocol(ss, acts, k - 1);
      if TicksIn(ss, acts, k - 1) < n {
        SleeperTakesOneStep(ss[k - 1], acts[k - 1], i, ss[0].ticks + n, n, TicksIn(ss, acts, k - 1));
      }
    }
  }

  lemma {:induction false} RunsKeepSleepersAhead(ss: seq<State>, acts: seq<Action>, k: nat)
    requires IsGentleRun(ss, acts) && Inv(ss[0]) && Linked(ss[0]) && Historical(ss[0]) && SleepersAhead(ss[0])
    requires k <= |acts| && forall m :: 0 <= m < |acts| ==> SleepFits(ss[m], acts[m])
    ensures SleepersAhead(ss[k])
  {
    if k > 0 {
      RunsKeepSleepersAhead(ss, acts, k - 1);
      RunsKeepJoinProtocol(ss, acts, k - 1);
      StepKeepsSleepersAhead(ss[k - 1], acts[k - 1]);
    }
  }

  // ---------------------------------------------------------------- joins

  /** The action of step m ends thread t with code c. */
  predicate EndedAt(ss: seq<State>, acts: seq<Action>, m: int, t: int, c: int)
    requires IsRun(ss, acts)
  {
    0 <= m < |acts| && Ends(ss[m], acts[m], t, c)
  }

  /** The event at position p of the history was appended in step m. */
  predicate LoggedAt(ss: seq<State>, m: int, p: nat) {
    0 <= m < |ss| - 1 && |ss[m].log| <= p < |ss[m + 1].log|
  }

  /** Every event since the start of a gentle run was appended in one of its steps, whose action
      is its cause. */
  lemma {:induction false} EventHasStep(ss: seq<State>, acts: seq<Action>, k: nat, p: nat) returns (m: nat)
    requires IsGentleRun(ss, acts) && Inv(ss[0]) && Linked(ss[0]) && Historical(ss[0]) && k <= |acts|
    requires |ss[0].log| <= p < |ss[k].log|
    ensures m < k && LoggedAt(ss, m, p) && Caused(ss[m], acts[m], ss[m + 1], ss[k].log[p])
  {
    RunsKeepJoinProtocol(ss, acts, k - 1);
    StepIsExplained(ss[k - 1], acts[k - 1]);
    hide Caused;
    if p < |ss[k - 1].log| {
      m := EventHasStep(ss, acts, k - 1, p);
      assert ss[k].log[p] == ss[k - 1].log[p];
    } else {
      m := k - 1;
    }
  }

  /** Thread t's last termination before position p of the history is at q, by step m's action. */
  predicate EndedBefore(ss: seq<State>, acts: seq<Action>, log: seq<Event>, p: nat, q: nat, m: nat, t: int, c: int)
    requires IsRun(ss, acts) && p <= |log|
  {
    && q < p && log[q] == Terminated(t, c) && (forall r :: q < r < p ==> !About(log[r], t))
    && LoggedAt(ss, m, q) && EndedAt(ss, acts, m, t, c)
  }

  /** Who gets a code and who gives it: only user threads are ended. */
  lemma DeliveredIsUser(s: State, a: Action, r: State, t: int, j: int, c: int)
    requires Inv(s) && Linked(s) && Enabled(s, a) && Caused(s, a, r, Delivered(t, j, c))
    ensures |s.cpus| <= t < |s.threads|
  {
    CurrentIsRunning(s, a.hart);
    if a.call.ExitWith? {
      SyscallKeepsInv(s, a.hart, a.call);
    } else if a.call.KillThread? {
      VictimIsElsewhere(s, a.hart, t);
    } else {
      IdleFacts(s, t, -1);
    }
  }

  /** In every gentle run from boot, every code delivered to a joiner, whether it waited or came
      later, is the argument of its target's last exit call, or -9 for a kill. */
  lemma DeliveredCodesAreGiven(n: nat, harts: nat, boot: nat, ss: seq<State>, acts: seq<Action>, k: nat, p: nat)
    requires boot < harts < n && IsGentleRun(ss, acts) && ss[0] == InitState(n, harts, boot) && k <= |acts|
    requires p < |ss[k].log| && ss[k].log[p].Delivered?
    ensures exists q: nat, m: nat :: m < k && EndedBefore(ss, acts, ss[k].log, p, q, m, ss[k].log[p].tid, ss[k].log[p].code)
  {
    var t := ss[k].log[p].tid;
    InitIsSafe(n, harts, boot);
    InitRecords(n, harts, boot);
    DeliveredInRun(ss, acts, k, p);
    HistoriesNeverBreak(n, harts, boot, ss, acts, k, t);
    var q, m := DeliveryHasStep(ss, acts, k, p, t);
  }

  lemma DeliveredInRun(ss: seq<State>, acts: seq<Action>, k: nat, p: nat)
    requires IsGentleRun(ss, acts) && Inv(ss[0]) && Linked(ss[0]) && Historical(ss[0]) && k <= |acts|
    requires |ss[0].log| == 1 && ss[0].log[0].Created? && p < |ss[k].log| && ss[k].log[p].Delivered?
    ensures |ss[0].cpus| <= ss[k].log[p].tid < |ss[0].threads|
  {
    LogsStartAtBoot(ss, acts, k);
    var e := ss[k].log[p];
    var d := EventHasStep(ss, acts, k, p);
    RunsKeepJoinProtocol(ss, acts, d);
    RunsKeepSizes(ss, acts, d);
    DeliveredIsUser(ss[d], acts[d], ss[d + 1], e.tid, e.joiner, e.code);
  }

  /** Event q is the last one about t before event p, and it is t's end with code c. */
  predicate EndsLast(log: seq<Event>, p: nat, q: int, t: int, c: int) {
    0 <= q < p < |log| && log[q] == Terminated(t, c) && forall r :: q < r < p ==> !About(log[r], t)
  }

  lemma DeliveryHasEnd(log: seq<Event>, t: int, p: nat) returns (q: int)
    requires p < |log| && log[p].Delivered? && log[p].tid == t && !LifeOf(log, t).Broken?
    ensures EndsLast(log, p, q, t, log[p].code)
  {
    DeliveredCodeIsExitCode(log, t, p);
    q :| 0 <= q < p && log[q] == Terminated(t, log[p].code) && forall r :: q < r < p ==> !About(log[r], t);
  }

  lemma DeliveryHasStep(ss: seq<State>, acts: seq<Action>, k: nat, p: nat, t: int) returns (q: nat, m: nat)
    requires IsGentleRun(ss, acts) && Inv(ss[0]) && Linked(ss[0]) && Historical(ss[0]) && k <= |acts|
    requires |ss[0].log| == 1 && ss[0].log[0].Created? && p < |ss[k].log| && ss[k].log[p].Delivered? && ss[k].log[p].tid == t && !LifeOf(ss[k].log, t).Broken?
    ensures m < k && EndedBefore(ss, acts, ss[k].log, p, q, m, t, ss[k].log[p].code)
  {
    LogsStartAtBoot(ss, acts, k);
    q := DeliveryHasEnd(ss[k].log, t, p);
    m := EventHasStep(ss, acts, k, q);
  }

  lemma {:induction false} LogsStartAtBoot(ss: seq<State>, acts: seq<Action>, k: nat)
    requires IsGentleRun(ss, acts) && Inv(ss[0]) && Linked(ss[0]) && Historical(ss[0]) && k <= |acts|
    ensures ss[0].log <= ss[k].log
  {
    if k > 0 {
      LogsStartAtBoot(ss, acts, k - 1);
      RunsKeepJoinProtocol(ss, acts, k - 1);
      StepIsExplained(ss[k - 1], acts[k - 1]);
      hide Caused;
    }
  }

  /** A join that answers 0 at once stores the argument of its dead target's last exit call, or -9
      if that was killed. */
  lemma JoinOfDeadReturnsItsCode(n: nat, harts: nat, boot: nat, ss: seq<State>, acts: seq<Action>, k: nat,
                                 h: int, t: int, ptr: nat)
    requires boot < harts < n && IsGentleRun(ss, acts) && ss[0] == InitState(n, harts, boot)
    requires k < |acts| && acts[k] == Sys(h, JoinThread(t, ptr))
    requires ss[k + 1].IsTid(ss[k].Current(h)) && ss[k + 1].threads[ss[k].Current(h)].state.Running?
    requires ss[k + 1].threads[ss[k].Current(h)].a0 == 0
    ensures exists q: nat, m: nat, c: int :: m < k && EndedBefore(ss, acts, ss[k].log, |ss[k].log|, q, m, t, c) &&
              ss[k + 1].words == WithWord(ss[k].words, ptr, c)
  {
    var s := ss[k];
    InitIsSafe(n, harts, boot);
    InitRecords(n, harts, boot);
    RunsKeepJoinProtocol(ss, acts, k);
    RunsKeepSizes(ss, acts, k);
    SyscallKeepsInv(s, h, acts[k].call);
    JoinAnswers(s, h, t, ptr);
    IdleFacts(s, t, -1);
    ZombiesHaveNoJoiner(s, t);
    HistoriesNeverBreak(n, harts, boot, ss, acts, k, t);
    assert LifeOK(s, t);
    LifeIsLastEvent(s.log, t);
    var q, c := LastAbout(s.log, t), s.threads[t].exitCode;
    LogsStartAtBoot(ss, acts, k);
    var m := EventHasStep(ss, acts, k, q);
    assert EndedBefore(ss, acts, s.log, |s.log|, q, m, t, c);
  }

  /** Thread i waits for t and will have the code stored at ptr. */
  predicate WaitsFor(s: State, i: int, t: int, ptr: nat) {
    s.IsTid(i) && s.threads[i].state.Waiting? && s.threads[i].waitingFor == t && s.threads[i].joinStatusPtr == ptr
  }

  /** In this step thread i stops waiting for t: the action ends t with code c, i gets result 0 and c. */
  predicate ReturnsFromJoin(s: State, a: Action, r: State, i: int, t: int, ptr: nat, c: int)
    requires s.Sized() && Enabled(s, a)
  {
    && WaitsFor(s, i, t, ptr) && Ends(s, a, t, c)
    && r.IsTid(i) && Returned(r.threads[i]) && r.words == WithWord(s.words, ptr, c)
  }

  predicate ReturnedAt(ss: seq<State>, acts: seq<Action>, m: int, i: int, t: int, ptr: nat, c: int)
    requires IsRun(ss, acts)
  {
    0 <= m < |acts| && ReturnsFromJoin(ss[m], acts[m], ss[m + 1], i, t, ptr, c)
  }

  lemma WaiterReturns(s: State, a: Action, i: int, t: int, ptr: nat) returns (c: int)
    requires Inv(s) && Linked(s) && Enabled(s, a) && SparesWaiters(s, a) && WaitsFor(s, i, t, ptr)
    ensures WaitsFor(Step(s, a), i, t, ptr) || ReturnsFromJoin(s, a, Step(s, a), i, t, ptr, c)
  {
    var r := Step(s, a);
    c := 0;
    WaiterSteps(s, a, i);
    StepIsExplained(s, a);
    if !WaitsFor(r, i, t, ptr) {
      var e := r.log[|s.log|];
      assert Caused(s, a, r, e);
      c := e.code;
    }
  }

  /** A join call that does not answer at once waits until a step in which its target ends, and then
      returns 0 with the argument of the target's exit call, or -9 for a kill, in the status word
      that the call named. */
  lemma {:induction false} JoinsReturnTheExitCode(ss: seq<State>, acts: seq<Action>, h: int, t: int, ptr: nat, k: nat)
    requires IsGentleRun(ss, acts) && Inv(ss[0]) && Linked(ss[0]) && Historical(ss[0])
    requires 1 <= k <= |acts| && acts[0] == Sys(h, JoinThread(t, ptr))
    requires ss[1].IsTid(ss[0].Current(h)) && !ss[1].threads[ss[0].Current(h)].state.Running?
    ensures var i := ss[0].Current(h);
      || WaitsFor(ss[k], i, t, ptr)
      || exists m, c :: 1 <= m < k && ReturnedAt(ss, acts, m, i, t, ptr, c)
  {
    var i := ss[0].Current(h);
    hide Inv;
    hide Linked;
    hide Historical;
    hide ReturnsFromJoin;
    hide Step;
    if k == 1 {
      SyscallKeepsInv(ss[0], h, acts[0].call);
      JoinAnswers(ss[0], h, t, ptr);
    } else {
      JoinsReturnTheExitCode(ss, acts, h, t, ptr, k - 1);
      if WaitsFor(ss[k - 1], i, t, ptr) {
        RunsKeepJoinProtocol(ss, acts, k - 1);
        var c := WaiterReturns(ss[k - 1], acts[k - 1], i, t, ptr);
        assert WaitsFor(ss[k], i, t, ptr) || ReturnedAt(ss, acts, k - 1, i, t, ptr, c);
      }
    }
  }
}
