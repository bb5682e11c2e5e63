/** Every trap keeps the ownership partition, so every run does. */
module Safety {
  import opened Bytes
  import opened KernelState
  import opened KernelOps
  import opened Partition
  import opened Steps

  // ---------------------------------------------------------------- pieces

  lemma IdleFacts(s: State, i: int, x: int)
    requires Core(s, x) && s.IsTid(i)
    ensures i < |s.cpus| ==> s.threads[i].state.Running? || s.threads[i].state.Runnable?
    ensures i < |s.cpus| ==> !s.threads[i].canBeKilled && !s.threads[i].detached && !s.threads[i].isUser
  {
    assert s.IsHart(i) ==> IdleOK(s, i);
  }

  /** A hart that calls user thread i current is the hart the thread names. */
  lemma HolderIsNamed(s: State, x: int, i: int)
    requires Core(s, x) && |s.cpus| <= i < |s.threads|
    ensures forall h :: s.IsHart(h) && s.cpus[h].currentTid == i ==>
              s.threads[i].runningHart == h || (h == x && s.threads[i].state.Unused?)
  {
    forall h | s.IsHart(h) && s.cpus[h].currentTid == i
      ensures s.threads[i].runningHart == h || (h == x && s.threads[i].state.Unused?)
    {
      assert CpuOK(s, h, x);
    }
  }

  lemma A0KeepsCore(s: State, x: int, i: int, v: int)
    requires Core(s, x) && s.IsTid(i)
    ensures Core(s.WithA0(i, v), x)
  {
    var r := s.WithA0(i, v);
    forall h | 0 <= h < |s.cpus| ensures QueueOK(r, h) && CpuOK(r, h, x) && IdleOK(r, h) {
      assert QueueOK(s, h) && CpuOK(s, h, x) && IdleOK(s, h);
    }
    forall j | 0 <= j < |s.threads| ensures HomeOK(r, j) {
      assert HomeOK(s, j);
    }
    forall j | |s.cpus| <= j < |s.threads| ensures UserOK(r, j, x) {
      assert UserOK(s, j, x);
    }
  }

  lemma MakeRunnableKeepsCore(s: State, x: int, tid: int, p: nat)
    requires Core(s, x) && s.IsHart(p)
    requires |s.cpus| <= tid < |s.threads| ==>
               s.home[tid] >= 0 || s.threads[tid].state.Running? || !Held(s, tid, x)
    ensures Core(MakeRunnable(s, tid, p), x)
  {
    if |s.cpus| <= tid < |s.threads| && s.home[tid] < 0 && !s.threads[tid].state.Running? {
      assert UserOK(s, tid, x);
      EnqueueKeepsCore(s, x, tid, s.threads[tid].(state := Runnable, wakeupTick := 0), PickTarget(s, p));
      PickIgnoresThreads(s, s.WithThread(tid, s.threads[tid].(state := Runnable, wakeupTick := 0)), 0, p,
                         |s.queues[p]|, s.cpus[p].online);
    }
  }

  lemma {:induction false} PickIgnoresThreads(s: State, r: State, h: nat, best: nat, len: nat, online: bool)
    requires s.Sized() && r.Sized() && s.cpus == r.cpus && s.queues == r.queues
    requires h <= |s.cpus| && s.IsHart(best)
    ensures PickFrom(s, h, best, len, online) == PickFrom(r, h, best, len, online)
    decreases |s.cpus| - h
  {
    if h < |s.cpus| {
      if s.cpus[h].online && (!online || |s.queues[h]| < len) {
        PickIgnoresThreads(s, r, h + 1, h, |s.queues[h]|, true);
      } else {
        PickIgnoresThreads(s, r, h + 1, best, len, online);
      }
    }
  }

  /** Freeing a slot nobody queues: either no hart holds it, or hart x is letting go of it. */
  lemma RecycleKeepsCore(s: State, x: int, tid: int)
    requires Core(s, x) && |s.cpus| <= tid < |s.threads| && s.home[tid] < 0
    requires Held(s, tid, x) ==> s.IsHart(x) && s.cpus[x].currentTid == tid
    ensures Core(Recycle(s, tid), x)
  {
    var s0 := s.(stdinWaiter := if s.stdinWaiter == tid then NO_TID else s.stdinWaiter);
    SameOwnershipKeepsCore(s, s0, x);
    assert UserOK(s, tid, x);
    assert HomeOK(s, tid);
    var t := UNUSED_THREAD.(readBuf := s.threads[tid].readBuf, readLen := s.threads[tid].readLen);
    forall h | s.IsHart(h) && s.cpus[h].currentTid == tid ensures h == x {
      assert CpuOK(s, h, x);
      if s.IsHart(x) { assert CpuOK(s, x, x); }
    }
    assert UserOK(s0.WithThread(tid, t), tid, x);
    RewriteKeepsCore(s0, x, x, tid, t);
    SameOwnershipKeepsCore(s0.WithThread(tid, t), Recycle(s, tid), x);
  }

  lemma DeliverKeepsCore(s: State, x: int, h: nat, tid: int, joiner: int, code: int)
    requires Core(s, x) && s.IsHart(h) && |s.cpus| <= joiner < |s.threads|
    requires s.IsHart(x) ==> s.cpus[x].currentTid != joiner
    ensures Core(Deliver(s, h, tid, joiner, code), x)
  {
    var w := s.threads[joiner];
    var s1 := if w.joinStatusPtr != 0 then s.(words := s.words[w.joinStatusPtr := code]) else s;
    SameOwnershipKeepsCore(s, s1, x);
    var t := w.(a0 := 0, waitingFor := NO_TID, joinStatusPtr := 0);
    assert UserOK(s1, joiner, x);
    assert UserOK(s1.WithThread(joiner, t), joiner, x);
    HolderIsNamed(s, x, joiner);
    RewriteKeepsCore(s1, x, x, joiner, t);
    var s2 := s1.WithThread(joiner, t).Logged(Delivered(tid, joiner, code));
    SameOwnershipKeepsCore(s1.WithThread(joiner, t), s2, x);
    MakeRunnableKeepsCore(s2, x, joiner, h);
  }

  // ---------------------------------------------------------------- operations

  /** The current user thread takes a state other than Runnable or Unused and keeps its CPU. */
  lemma CurrentChanges(s: State, h: nat, t: Thread)
    requires Core(s, -1) && s.Started(h) && |s.cpus| <= s.Current(h)
    requires !t.state.Runnable? && !t.state.Unused? && t.runningHart == s.threads[s.Current(h)].runningHart
    requires t.joinWaiter == s.threads[s.Current(h)].joinWaiter
    ensures Core(s.WithThread(s.Current(h), t), h)
  {
    var cur := s.Current(h);
    assert UserOK(s, cur, -1);
    HolderIsNamed(s, -1, cur);
    assert UserOK(s.WithThread(cur, t), cur, h);
    RewriteKeepsCore(s, -1, h, cur, t);
  }

  lemma SpawnKeepsCore(s: State, x: int, h: nat, tid: int, arg: int)
    requires Core(s, x) && s.IsHart(h) && |s.cpus| <= tid < |s.threads| && s.threads[tid].state.Unused?
    requires s.IsHart(x) ==> s.cpus[x].currentTid != tid
    ensures Core(Spawn(s, h, tid, arg), x)
    ensures var r := Spawn(s, h, tid, arg);
            r.threads[tid] == s.threads[tid].(state := Runnable, wakeupTick := 0, isUser := true,
                                              canBeKilled := true, detached := false, a0 := arg)
  {
    var t := s.threads[tid].(state := Runnable, wakeupTick := 0, isUser := true,
                             canBeKilled := true, detached := false, a0 := arg);
    assert UserOK(s, tid, x);
    var s1 := s.WithThread(tid, t).Logged(Created(tid));
    EnqueueKeepsCore(s, x, tid, t, PickTarget(s1, h));
    var p := Push(s.WithThread(tid, t), PickTarget(s1, h), tid);
    assert MakeRunnable(s1, tid, h) == p.Logged(Created(tid)) by {
      PickIgnoresThreads(s1, s1.WithThread(tid, t), 0, h, |s.queues[h]|, s.cpus[h].online);
    }
    SameOwnershipKeepsCore(p, p.Logged(Created(tid)), x);
  }

  lemma {:induction false} AllocIsUser(s: State, x: int)
    requires Core(s, x)
    ensures AllocFrom(s, 1) < 0 || |s.cpus| <= AllocFrom(s, 1)
  {
    var r := AllocFrom(s, 1);
    if r >= 0 { IdleFacts(s, r, x); }
  }

  predicate Due(t: Thread, now: int) {
    t.state.Sleeping? && t.wakeupTick <= now
  }

  lemma TickKeepsCoreAt(s: State, i: nat)
    requires Inv(s) && i < |s.threads|
    ensures Due(s.threads[i], s.ticks) ==>
              Inv(MakeRunnable(s.WithThread(i, s.threads[i].(wakeupTick := 0)), i, s.boot))
  {
    if Due(s.threads[i], s.ticks) {
      IdleFacts(s, i, -1);
      var t := s.threads[i].(wakeupTick := 0);
      var s1 := s.WithThread(i, t);
      assert UserOK(s, i, -1) && UserOK(s1, i, -1);
      HolderIsNamed(s, -1, i);
      RewriteKeepsCore(s, -1, -1, i, t);
      MakeRunnableKeepsCore(s1, -1, i, s.boot);
    }
  }

  lemma {:induction false} TickKeepsCore(s: State, i: nat)
    requires Core(s, -1) && i <= |s.threads|
    ensures Core(TickFrom(s, i), -1)
    decreases |s.threads| - i
  {
    if i < |s.threads| {
      TickKeepsCoreAt(s, i);
      if Due(s.threads[i], s.ticks) {
        TickKeepsCore(MakeRunnable(s.WithThread(i, s.threads[i].(wakeupTick := 0)), i, s.boot), i + 1);
      } else {
        TickKeepsCore(s, i + 1);
      }
    }
  }

  /** The dying thread as a Zombie, before its joiner is served. */
  function Expiring(s: State, h: nat, code: int): (r: State)
    requires s.Sized() && s.Started(h)
    ensures SameShape(s, r)
  {
    s.WithThread(s.Current(h), s.threads[s.Current(h)].(exitCode := code, state := Zombie))
     .Logged(Terminated(s.Current(h), code))
  }

  lemma ExpiringKeepsCore(s: State, h: nat, code: int)
    requires Core(s, -1) && s.Started(h) && |s.cpus| <= s.Current(h)
    ensures Core(Expiring(s, h, code), h)
  {
    var cur := s.Current(h);
    var t := s.threads[cur].(exitCode := code, state := Zombie);
    assert UserOK(s, cur, -1);
    CurrentChanges(s, h, t);
    SameOwnershipKeepsCore(s.WithThread(cur, t), Expiring(s, h, code), h);
  }

  /** Serving the joiner of hart h's dying thread and freeing its slot. */
  lemma ServedKeepsCore(s: State, h: nat, joiner: int, code: int)
    requires Core(s, h) && s.Started(h) && |s.cpus| <= s.Current(h) && |s.cpus| <= joiner < |s.threads|
    requires joiner != s.Current(h) && s.home[s.Current(h)] < 0
    ensures Core(Recycle(Deliver(s, h, s.Current(h), joiner, code), s.Current(h)), h)
  {
    var d := Deliver(s, h, s.Current(h), joiner, code);
    DeliverKeepsCore(s, h, h, s.Current(h), joiner, code);
    RecycleKeepsCore(d, h, s.Current(h));
  }

  lemma ForgetJoiner(s: State, h: nat)
    requires Core(s, h) && s.Started(h) && |s.cpus| <= s.Current(h)
    ensures Core(s.WithThread(s.Current(h), s.threads[s.Current(h)].(joinWaiter := NO_TID)), h)
  {
    var cur := s.Current(h);
    var u := s.threads[cur].(joinWaiter := NO_TID);
    assert CpuOK(s, h, h) && UserOK(s, cur, h) && UserOK(s.WithThread(cur, u), cur, h);
    HolderIsNamed(s, h, cur);
    RewriteKeepsCore(s, h, h, cur, u);
  }

  lemma DieVacatesOnSchedule(s: State, h: nat, code: int)
    requires Core(s, -1) && s.Started(h) && |s.cpus| <= s.Current(h)
    ensures Core(Die(s, h, code), h)
  {
    var cur := s.Current(h);
    var joiner := s.threads[cur].joinWaiter;
    var s1 := Expiring(s, h, code);
    assert UserOK(s, cur, -1) && CpuOK(s, h, -1);
    ExpiringKeepsCore(s, h, code);
    if joiner >= 0 {
      ServedKeepsCore(s1, h, joiner, code);
      ForgetJoiner(Recycle(Deliver(s1, h, cur, joiner, code), cur), h);
    } else {
      ForgetJoiner(s1, h);
    }
  }

  lemma SlayKeepsCore(s: State, h: nat, target: int)
    requires Core(s, -1) && s.Started(h) && KillTakesEffect(s, s.Current(h), target)
    ensures |s.cpus| <= target
    ensures Core(Slay(s, target), s.threads[target].runningHart)
  {
    IdleFacts(s, target, -1);
    assert UserOK(s, target, -1) && HomeOK(s, target);
    var y := s.threads[target].runningHart;
    var t := s.threads[target].(exitCode := SIGKILL_CODE, state := Zombie, wakeupTick := 0);
    var s1 := s.WithThread(target, t).Logged(Terminated(target, SIGKILL_CODE));
    CoreWeakens(s, y);
    if s.IsHart(s.home[target]) {
      DequeueKeepsCore(s, y, target, t);
      SameOwnershipKeepsCore(Dequeue(s.WithThread(target, t), target), Slay(s, target), y);
    } else {
      assert UserOK(s.WithThread(target, t), target, y);
      HolderIsNamed(s, -1, target);
      RewriteKeepsCore(s, y, y, target, t);
      SameOwnershipKeepsCore(s.WithThread(target, t), s1, y);
    }
  }

  lemma BuryKeepsCore(s: State, y: int, h: nat, target: int)
    requires Core(s, y) && s.IsHart(h) && |s.cpus| <= target < |s.threads|
    requires s.threads[target].state.Zombie? && s.threads[target].runningHart == y
    ensures Core(Bury(s, h, target), y)
  {
    var joiner := s.threads[target].joinWaiter;
    assert UserOK(s, target, y) && HomeOK(s, target);
    if joiner >= 0 {
      DeliverKeepsCore(s, y, h, target, joiner, SIGKILL_CODE);
      var d := Deliver(s, h, target, joiner, SIGKILL_CODE);
      assert UserOK(d, target, y);
      if y < 0 { RecycleKeepsCore(d, y, target); }
    } else {
      var t := s.threads[target].(joinWaiter := NO_TID);
      assert s.WithThread(target, t) == s;
      if y < 0 && s.threads[target].detached { RecycleKeepsCore(s, y, target); }
    }
  }

  /** A kill that takes effect leaves in transit exactly the hart that executes the victim. */
  lemma KillKeepsCore(s: State, h: nat, target: int)
    requires Inv(s) && s.Started(h)
    ensures var r := Kill(s, h, s.Current(h), target);
            if KillTakesEffect(s, s.Current(h), target) then Core(r, s.threads[target].runningHart) else Inv(r)
  {
    var tf := s.cpus[h].curTf;
    assert CpuOK(s, h, -1);
    if KillTakesEffect(s, s.Current(h), target) {
      var y := s.threads[target].runningHart;
      SlayKeepsCore(s, h, target);
      BuryKeepsCore(Slay(s, target), y, h, target);
      A0KeepsCore(Bury(Slay(s, target), h, target), y, tf, 0);
    } else {
      A0KeepsCore(s, -1, tf, KillRefusal(s, s.Current(h), target));
    }
  }

  lemma ReleaseKeepsCore(s: State, target: int)
    requires Inv(s) && |s.cpus| <= target < |s.threads|
    ensures Inv(Release(s, target))
  {
    var t := s.threads[target].(detached := true);
    var s1 := s.WithThread(target, t);
    assert UserOK(s, target, -1) && UserOK(s1, target, -1) && HomeOK(s, target);
    HolderIsNamed(s, -1, target);
    RewriteKeepsCore(s, -1, -1, target, t);
    if s1.threads[target].state.Zombie? { RecycleKeepsCore(s1, -1, target); }
  }

  lemma DetachKeepsCore(s: State, tf: int, target: int)
    requires Inv(s) && s.IsTid(tf)
    ensures Inv(Detach(s, tf, target))
  {
    if DetachTakesEffect(s, target) {
      ReleaseKeepsCore(s, target);
      A0KeepsCore(Release(s, target), -1, tf, 0);
    } else {
      A0KeepsCore(s, -1, tf, DetachRefusal(s, target));
    }
  }

  lemma CollectKeepsCore(s: State, cur: int, target: int, ptr: nat)
    requires Inv(s) && 0 < target < |s.threads| && s.threads[target].state.Zombie?
    ensures Inv(Collect(s, cur, target, ptr))
  {
    IdleFacts(s, target, -1);
    assert UserOK(s, target, -1) && HomeOK(s, target);
    var code := s.threads[target].exitCode;
    var s1 := if ptr != 0 then s.(words := s.words[ptr := code]) else s;
    var s2 := s1.Logged(Delivered(target, cur, code));
    SameOwnershipKeepsCore(s, s2, -1);
    RecycleKeepsCore(s2, -1, target);
  }

  lemma AwaitExitKeepsCore(s: State, h: nat, target: int, ptr: nat)
    requires Inv(s) && s.Started(h) && |s.cpus| <= s.Current(h)
    requires s.IsTid(target) && target != s.Current(h)
    ensures Core(AwaitExit(s, s.Current(h), target, ptr), h)
  {
    var cur := s.Current(h);
    var t := s.threads[cur].(state := Waiting, waitingFor := target, joinStatusPtr := ptr);
    CurrentChanges(s, h, t);
    var s1 := s.WithThread(cur, t);
    var u := s1.threads[target].(joinWaiter := cur);
    if target < |s.cpus| {
      IdleJoinWaiterKeepsCore(s1, h, target, cur);
    } else {
      assert UserOK(s1, target, h) && UserOK(s1.WithThread(target, u), target, h);
      HolderIsNamed(s1, h, target);
      assert CpuOK(s1, h, h);
      RewriteKeepsCore(s1, h, h, target, u);
    }
  }

  lemma JoinKeepsCore(s: State, h: nat, target: int, ptr: nat)
    requires Inv(s) && s.Started(h) && |s.cpus| <= s.Current(h)
    ensures Inv(Join(s, h, s.Current(h), target, ptr))
  {
    var cur := s.Current(h);
    match JoinOutcome(s, cur, target)
    case JoinError(code) => A0KeepsCore(s, -1, cur, code);
    case JoinDead =>
      CollectKeepsCore(s, cur, target, ptr);
      A0KeepsCore(Collect(s, cur, target, ptr), -1, cur, 0);
    case JoinWait =>
      AwaitExitKeepsCore(s, h, target, ptr);
      FrameIsCurrent(AwaitExit(s, cur, target, ptr), h, h);
      ScheduleRestoresCore(AwaitExit(s, cur, target, ptr), h);
  }

  lemma IdleJoinWaiterKeepsCore(s: State, x: int, i: int, j: int)
    requires Core(s, x) && s.IsHart(i)
    ensures Core(s.WithThread(i, s.threads[i].(joinWaiter := j)), x)
  {
    var r := s.WithThread(i, s.threads[i].(joinWaiter := j));
    forall h | 0 <= h < |s.cpus| ensures QueueOK(r, h) && CpuOK(r, h, x) && IdleOK(r, h) {
      assert QueueOK(s, h) && CpuOK(s, h, x) && IdleOK(s, h);
    }
    forall k | 0 <= k < |s.threads| ensures HomeOK(r, k) {
      assert HomeOK(s, k);
    }
    forall k | |s.cpus| <= k < |s.threads| ensures UserOK(r, k, x) {
      assert UserOK(s, k, x);
    }
  }

  lemma FeedKeepsCore(s: State, h: nat)
    requires Inv(s) && s.IsHart(h) && s.stdinWaiter >= 0
    ensures Inv(FeedReader(s, h))
  {
    var w := s.stdinWaiter;
    var t := s.threads[w];
    assert UserOK(s, w, -1);
    var n := Min(t.readLen, |s.rx|);
    if t.readBuf == 0 || t.readLen == 0 {
      if t.state.Blocked? { MakeRunnableKeepsCore(s, -1, w, h); }
    } else if n != 0 {
      var s1 := TakeBytes(s, w, n);
      SameOwnershipKeepsCore(s, s1, -1);
      var u := t.(a0 := n, readBuf := 0, readLen := 0);
      var s2 := s1.WithThread(w, u);
      assert UserOK(s1, w, -1) && UserOK(s2, w, -1);
      HolderIsNamed(s, -1, w);
      RewriteKeepsCore(s1, -1, -1, w, u);
      if u.state.Blocked? { MakeRunnableKeepsCore(s2, -1, w, h); }
    }
  }

  lemma {:induction false} CharsKeepCore(s: State, h: nat, bs: seq<Byte>)
    requires Inv(s) && s.IsHart(h)
    ensures Inv(OnChars(s, h, bs))
    decreases |bs|
  {
    if bs != [] {
      var s1 := if |s.rx| < RING_CAPACITY then s.(rx := s.rx + [bs[0]]).Logged(Arrived(bs[0], true))
                else s.Logged(Arrived(bs[0], false));
      SameOwnershipKeepsCore(s, s1, -1);
      if s1.stdinWaiter >= 0 {
        FeedKeepsCore(s1, h);
        SameOwnershipKeepsCore(FeedReader(s1, h), OnChar(s, h, bs[0]), -1);
      }
      CharsKeepCore(OnChar(s, h, bs[0]), h, bs[1..]);
    }
  }

  lemma ReadKeepsCore(s: State, h: nat, fd: int, buf: nat, len: nat)
    requires Inv(s) && s.Started(h) && |s.cpus| <= s.Current(h)
    ensures Inv(Read(s, h, s.Current(h), fd, buf, len))
  {
    var cur, tf := s.Current(h), s.cpus[h].curTf;
    var n := Min(len, |s.rx|);
    assert CpuOK(s, h, -1);
    if fd != 0 {
      A0KeepsCore(s, -1, tf, -1);
    } else if n > 0 {
      SameOwnershipKeepsCore(s, TakeBytes(s, cur, n), -1);
      A0KeepsCore(TakeBytes(s, cur, n), -1, tf, n);
    } else {
      var s1 := s.(stdinWaiter := cur);
      SameOwnershipKeepsCore(s, s1, -1);
      CurrentChanges(s1, h, s.threads[cur].(readBuf := buf, readLen := len, state := Blocked));
      ScheduleRestoresCore(AwaitInput(s, cur, buf, len), h);
    }
  }

  lemma SliceKeepsCore(s: State, h: nat, left: nat)
    requires Inv(s) && s.Started(h) && 1 <= left <= SLICE_TICKS
    ensures Inv(s.(cpus := s.cpus[h := s.cpus[h].(sliceLeft := left)]))
  {
    var r := s.(cpus := s.cpus[h := s.cpus[h].(sliceLeft := left)]);
    forall g | 0 <= g < |s.cpus| ensures QueueOK(r, g) && CpuOK(r, g, -1) && IdleOK(r, g) {
      assert QueueOK(s, g) && CpuOK(s, g, -1) && IdleOK(s, g);
    }
    forall j | 0 <= j < |s.threads| ensures HomeOK(r, j) {
      assert HomeOK(s, j);
    }
    forall j | |s.cpus| <= j < |s.threads| ensures UserOK(r, j, -1) {
      assert UserOK(s, j, -1);
    }
  }

  lemma ThreadsTickKeepsInv(s: State)
    requires Inv(s)
    ensures Inv(ThreadsTick(s)) && ThreadsTick(s).cpus == s.cpus
  {
    var s0 := s.(ticks := Plus64(s.ticks, 1));
    SameOwnershipKeepsCore(s, s0, -1);
    TickKeepsCore(s0, 0);
  }

  /** The state the expired slice of hart h hands to schedule. */
  function Expired(s: State, h: nat): (r: State)
    requires s.Sized() && s.IsHart(h)
  {
    s.(cpus := s.cpus[h := s.cpus[h].(sliceLeft := SLICE_TICKS)])
  }

  /** Counting down a slice changes one number, or calls schedule in a sound state. */
  lemma CountSliceCases(s: State, h: nat)
    requires Inv(s) && s.Started(h)
    ensures var r := CountSlice(s, h, s.Current(h));
      if s.cpus[h].sliceLeft > 1 then r == s.(cpus := s.cpus[h := s.cpus[h].(sliceLeft := s.cpus[h].sliceLeft - 1)])
      else s.cpus[h].sliceLeft == 1 && Expired(s, h).Started(h) && Core(Expired(s, h), h) &&
           r == Schedule(Expired(s, h), h, Expired(s, h).cpus[h].curTf)
  {
    assert CpuOK(s, h, -1);
    if s.cpus[h].sliceLeft == 1 {
      SliceKeepsCore(s, h, SLICE_TICKS);
      CoreWeakens(Expired(s, h), h);
    }
  }

  lemma CountSliceKeepsInv(s: State, h: nat)
    requires Inv(s) && s.Started(h)
    ensures Inv(CountSlice(s, h, s.Current(h)))
  {
    CountSliceCases(s, h);
    if s.cpus[h].sliceLeft > 1 {
      assert CpuOK(s, h, -1);
      SliceKeepsCore(s, h, s.cpus[h].sliceLeft - 1);
    } else {
      ScheduleRestoresCore(Expired(s, h), h);
    }
  }

  /** The state of a timer interrupt after the clock moved, before the slice is counted. */
  function Clocked(s: State, h: nat): (r: State)
    requires s.Sized()
    ensures SameShape(s, r)
  {
    if h == s.boot then ThreadsTick(s) else s
  }

  lemma ClockedKeepsInv(s: State, h: nat)
    requires Inv(s)
    ensures Inv(Clocked(s, h)) && Clocked(s, h).cpus == s.cpus
  {
    ThreadsTickKeepsInv(s);
  }

  lemma TimerKeepsCore(s: State, h: nat)
    requires Inv(s) && s.Started(h)
    ensures Inv(OnTimer(s, h, s.Current(h)))
  {
    ClockedKeepsInv(s, h);
    CountSliceKeepsInv(Clocked(s, h), h);
  }

  lemma SyscallKeepsInv(s: State, h: nat, c: Call)
    requires Inv(s) && Enabled(s, Sys(h, c))
    ensures s.IsTid(s.cpus[h].curTf) && |s.cpus| <= s.Current(h)
    ensures !c.KillThread? ==> Inv(Syscall(s, h, c))
  {
    var cur, tf := s.Current(h), s.cpus[h].curTf;
    assert CpuOK(s, h, -1);
    IdleFacts(s, cur, -1);
    assert UserOK(s, cur, -1);
    match c
    case SleepFor(n) => SleepKeepsInv(s, h, n);
    case YieldCpu => SleepKeepsInv(s, h, 0);
    case ExitWith(code) =>
      DieVacatesOnSchedule(s, h, code);
      DieKeepsCpus(s, h, code);
      ScheduleRestoresCore(Die(s, h, code), h);
    case JoinThread(t, ptr) => JoinKeepsCore(s, h, t, ptr);
    case CreateThread(arg) =>
      var tid := AllocFrom(s, 1);
      AllocIsUser(s, -1);
      if tid < 0 {
        A0KeepsCore(s, -1, tf, -1);
      } else {
        SpawnKeepsCore(s, -1, h, tid, arg);
        A0KeepsCore(Spawn(s, h, tid, arg), -1, tf, tid);
      }
    case KillThread(t) =>
    case DetachThread(t) => DetachKeepsCore(s, tf, t);
    case ReadInput(fd, buf, len) => ReadKeepsCore(s, h, fd, buf, len);
    case OtherCall(v) => A0KeepsCore(s, -1, tf, v);
  }

  lemma DieKeepsCpus(s: State, h: nat, code: int)
    requires s.Sized() && s.Started(h)
    ensures Die(s, h, code).cpus == s.cpus
  {
  }

  lemma SleepKeepsInv(s: State, h: nat, n: U64)
    requires Inv(s) && s.Started(h) && |s.cpus| <= s.Current(h)
    ensures Inv(Sleep(s, h, s.cpus[h].curTf, n))
  {
    var cur := s.Current(h);
    if n == 0 {
      CoreWeakens(s, h);
      ScheduleRestoresCore(s, h);
    } else {
      var t := s.threads[cur].(state := Sleeping, wakeupTick := Plus64(s.ticks, n));
      CurrentChanges(s, h, t);
      ScheduleRestoresCore(s.WithThread(cur, t), h);
    }
  }

  lemma StartIdleKeepsInv(s: State, h: nat)
    requires Inv(s) && s.IsHart(h) && !s.Started(h) && s.cpus[h].online
    ensures Inv(EnterIdle(s, h))
  {
    assert CpuOK(s, h, -1);
    assert Erased(s, h) == s;
    DispatchIdleRestores(s, h);
    assert EnterIdle(s, h) == Dispatch(s, h, h);
  }

  lemma OnlineKeepsInv(s: State, h: nat)
    requires Inv(s) && s.IsHart(h) && !s.Started(h)
    ensures Inv(BringOnline(s, h))
  {
    var r := BringOnline(s, h);
    assert CpuOK(s, h, -1);
    forall g | 0 <= g < |s.cpus| ensures QueueOK(r, g) && CpuOK(r, g, -1) && IdleOK(r, g) {
      assert QueueOK(s, g) && CpuOK(s, g, -1) && IdleOK(s, g);
    }
    forall j | 0 <= j < |s.threads| ensures HomeOK(r, j) {
      assert HomeOK(s, j);
    }
    forall j | |s.cpus| <= j < |s.threads| ensures UserOK(r, j, -1) {
      assert UserOK(s, j, -1);
    }
  }

  // ---------------------------------------------------------------- the theorem

  lemma TrapKeepsInv(s: State, a: Action)
    requires Inv(s) && Enabled(s, a) && !(a.Sys? && a.call.KillThread?)
    requires s.Started(a.hart) ==> s.IsTid(s.cpus[a.hart].curTf)
    ensures Inv(Trap(s, a))
  {
    match a
    case Timer(h) => TimerKeepsCore(s, h);
    case Ipi(h) => CoreWeakens(s, h); ScheduleRestoresCore(s, h);
    case Uart(h, bs) => CharsKeepCore(s, h, bs);
    case GoOnline(h) => OnlineKeepsInv(s, h);
    case StartIdle(h) => StartIdleKeepsInv(s, h);
    case Sys(h, c) => SyscallKeepsInv(s, h, c);
  }

  lemma SettleVictim(r: State, v: int)
    requires r.Sized() && Core(r, v) && (r.Started(v) || v == -1)
    ensures Inv(if r.Started(v) then Schedule(r, v, r.cpus[v].curTf) else r)
  {
    if v >= 0 { ScheduleRestoresCore(r, v); }
  }

  lemma VictimIsElsewhere(s: State, h: nat, target: int)
    requires Inv(s) && s.Started(h) && KillTakesEffect(s, s.Current(h), target)
    ensures |s.cpus| <= target
    ensures s.threads[target].runningHart == -1 ||
            (s.Started(s.threads[target].runningHart) && s.threads[target].runningHart != h)
  {
    IdleFacts(s, target, -1);
    assert UserOK(s, target, -1);
  }

  lemma KillStepIs(s: State, h: nat, target: int)
    requires Inv(s) && Enabled(s, Sys(h, KillThread(target))) && s.cpus[h].curTf == s.Current(h)
    ensures var r := Kill(s, h, s.Current(h), target);
            if KillTakesEffect(s, s.Current(h), target) then
              var v := s.threads[target].runningHart;
              Step(s, Sys(h, KillThread(target))) == if r.Started(v) then Schedule(r, v, r.cpus[v].curTf) else r
            else
              Step(s, Sys(h, KillThread(target))) == r
  {
    var a := Sys(h, KillThread(target));
    assert Trap(s, a) == Kill(s, h, s.Current(h), target);
    if KillTakesEffect(s, s.Current(h), target) { VictimIsElsewhere(s, h, target); }
  }

  lemma KillStepKeepsInv(s: State, h: nat, target: int)
    requires Inv(s) && Enabled(s, Sys(h, KillThread(target))) && s.cpus[h].curTf == s.Current(h)
    ensures Inv(Step(s, Sys(h, KillThread(target))))
  {
    KillKeepsCore(s, h, target);
    KillStepIs(s, h, target);
    if KillTakesEffect(s, s.Current(h), target) {
      VictimIsElsewhere(s, h, target);
      SettleVictim(Kill(s, h, s.Current(h), target), s.threads[target].runningHart);
    }
  }

  lemma FrameIsCurrent(s: State, h: int, x: int)
    requires Core(s, x) && s.Started(h)
    ensures s.cpus[h].curTf == s.Current(h)
  {
    assert CpuOK(s, h, x);
  }

  /** Every step, under E1, keeps the partition; no internal check fires. */
  lemma StepKeepsInv(s: State, a: Action)
    requires Inv(s) && Enabled(s, a)
    ensures Inv(Step(s, a)) && !Step(s, a).panicked
  {
    if s.Started(a.hart) { FrameIsCurrent(s, a.hart, -1); }
    if a.Sys? && a.call.KillThread? {
      KillStepKeepsInv(s, a.hart, a.call.target);
    } else {
      TrapKeepsInv(s, a);
    }
  }
}
