/** The kernel's operations as functions on `State`, branch for branch as in
    kernel/thread.c, kernel/sched.c, kernel/runqueue.c, kernel/console.c and kernel/sysfile.c. */
module KernelOps {
  import opened Bytes
  import opened KernelState

  // ---------------------------------------------------------------- ready queues

  /** rq_push_tail: append, or panic when the thread is already queued. */
  function Push(s: State, h: int, tid: int): (r: State)
    requires s.Sized()
    ensures SameShape(s, r)
  {
    if !s.IsHart(h) || !s.IsTid(tid) || tid < |s.cpus| then s
    else if s.home[tid] >= 0 then s.(panicked := true)
    else s.(home := s.home[tid := h], queues := s.queues[h := s.queues[h] + [tid]])
  }

  /** rq_pop_head on a nonempty queue. */
  function Pop(s: State, h: int): (r: State)
    requires s.Sized() && s.IsHart(h) && s.queues[h] != [] && s.IsTid(s.queues[h][0])
    ensures SameShape(s, r)
  {
    s.(home := s.home[s.queues[h][0] := -1], queues := s.queues[h := s.queues[h][1..]])
  }

  /** The sequence without the first occurrence of x, order kept. */
  function Without<T(==)>(q: seq<T>, x: T): seq<T> {
    if q == [] then []
    else if q[0] == x then q[1..]
    else [q[0]] + Without(q[1..], x)
  }

  /** rq_remove_any for a queued thread. */
  function Dequeue(s: State, tid: int): (r: State)
    requires s.Sized() && s.IsTid(tid) && s.IsHart(s.home[tid])
    ensures SameShape(s, r)
  {
    var h := s.home[tid];
    s.(home := s.home[tid := -1], queues := s.queues[h := Without(s.queues[h], tid)])
  }

  // ---------------------------------------------------------------- placement

  function PickFrom(s: State, h: nat, best: nat, bestLen: nat, bestOnline: bool): (r: nat)
    requires s.Sized() && h <= |s.cpus| && s.IsHart(best)
    ensures s.IsHart(r)
    decreases |s.cpus| - h
  {
    if h == |s.cpus| then best
    else if s.cpus[h].online && (!bestOnline || |s.queues[h]| < bestLen) then
      PickFrom(s, h + 1, h, |s.queues[h]|, true)
    else PickFrom(s, h + 1, best, bestLen, bestOnline)
  }

  /** sched_pick_target_hart. */
  function PickTarget(s: State, waker: nat): (r: nat)
    requires s.Sized() && s.IsHart(waker)
    ensures s.IsHart(r)
  {
    PickFrom(s, 0, waker, |s.queues[waker]|, s.cpus[waker].online)
  }

  lemma {:induction false} PickFromIsBest(s: State, h: nat, best: nat, waker: nat)
    requires s.Sized() && h <= |s.cpus| && s.IsHart(best) && s.IsHart(waker)
    requires s.cpus[best].online || (best == waker && forall g :: 0 <= g < h ==> !s.cpus[g].online)
    requires s.cpus[best].online ==>
      (forall g :: 0 <= g < h && s.cpus[g].online ==> |s.queues[best]| <= |s.queues[g]|)
    requires s.cpus[best].online && s.cpus[waker].online ==> |s.queues[best]| <= |s.queues[waker]|
    requires best != waker ==>
      (best < h && s.cpus[best].online &&
       (forall g :: 0 <= g < best && s.cpus[g].online ==> |s.queues[best]| < |s.queues[g]|) &&
       (s.cpus[waker].online ==> |s.queues[best]| < |s.queues[waker]|))
    ensures LeastLoaded(s, waker, PickFrom(s, h, best, |s.queues[best]|, s.cpus[best].online))
    decreases |s.cpus| - h
  {
    if h < |s.cpus| {
      if s.cpus[h].online && (!s.cpus[best].online || |s.queues[h]| < |s.queues[best]|) {
        PickFromIsBest(s, h + 1, h, waker);
      } else {
        PickFromIsBest(s, h + 1, best, waker);
      }
    }
  }

  /** r is online if any hart is, has a shortest queue among the online harts, and is the waker
      if that is one of the best, else the best with the lowest number. */
  predicate LeastLoaded(s: State, waker: int, r: int)
    requires s.Sized()
  {
    && s.IsHart(r) && s.IsHart(waker)
    && (s.cpus[r].online || (r == waker && forall g :: 0 <= g < |s.cpus| ==> !s.cpus[g].online))
    && (forall g :: 0 <= g < |s.cpus| && s.cpus[g].online ==> |s.queues[r]| <= |s.queues[g]|)
    && (r != waker ==>
          (s.cpus[waker].online ==> |s.queues[r]| < |s.queues[waker]|) &&
          (forall g :: 0 <= g < r && s.cpus[g].online ==> |s.queues[r]| < |s.queues[g]|))
  }

  /** A thread made ready goes to the least loaded online hart. */
  lemma PickTargetIsBest(s: State, waker: nat)
    requires s.Sized() && s.IsHart(waker)
    ensures LeastLoaded(s, waker, PickTarget(s, waker))
  {
    PickFromIsBest(s, 0, waker, waker);
  }

  /** thread_make_runnable: touches one thread, its home and one queue. */
  function MakeRunnable(s: State, tid: int, preferred: nat): (r: State)
    requires s.Sized() && s.IsHart(preferred)
    ensures SameShape(s, r)
    ensures r == s.(threads := r.threads, home := r.home, queues := r.queues, panicked := r.panicked)
    ensures forall h :: 0 <= h < |s.cpus| ==> s.queues[h] <= r.queues[h]
    ensures forall j :: 0 <= j < |s.threads| && j != tid ==> r.threads[j] == s.threads[j] && r.home[j] == s.home[j]
    ensures s.IsTid(tid) ==>
              (r.threads[tid] == s.threads[tid] ||
               (s.home[tid] < 0 && !s.threads[tid].state.Running? &&
                r.threads[tid] == s.threads[tid].(state := Runnable, wakeupTick := 0)))
  {
    if !s.IsTid(tid) || tid < |s.cpus| then s
    else if s.home[tid] >= 0 || s.threads[tid].state == Running then s
    else
      var t := s.threads[tid].(state := Runnable, wakeupTick := 0);
      Push(s.WithThread(tid, t), PickTarget(s, preferred), tid)
  }

  // ---------------------------------------------------------------- slots

  /** recycle_thread: the pending-read fields and the queue link's owner are left alone. */
  function Recycle(s: State, tid: int): (r: State)
    requires s.Sized()
    ensures SameShape(s, r)
  {
    if !(0 < tid < |s.threads|) then s
    else
      var t := s.threads[tid];
      s.(stdinWaiter := if s.stdinWaiter == tid then NO_TID else s.stdinWaiter)
       .WithThread(tid, UNUSED_THREAD.(readBuf := t.readBuf, readLen := t.readLen))
       .Logged(Recycled(tid))
  }

  /** alloc_thread_slot, from slot i on. */
  function AllocFrom(s: State, i: nat): (r: int)
    requires i <= |s.threads|
    ensures r == -1 || (i <= r < |s.threads| && s.threads[r].state.Unused?)
    ensures forall k :: i <= k < (if r == -1 then |s.threads| else r) ==> !s.threads[k].state.Unused?
    decreases |s.threads| - i
  {
    if i == |s.threads| then -1
    else if s.threads[i].state.Unused? then i
    else AllocFrom(s, i + 1)
  }

  /** thread_create_user followed by the result write of thread_sys_create. */
  function Create(s: State, h: nat, tf: int, arg: int): (r: State)
    requires s.Sized() && s.IsHart(h) && s.IsTid(tf)
    ensures SameShape(s, r)
  {
    var tid := AllocFrom(s, 1);
    if tid < 0 then s.WithA0(tf, -1)
    else Spawn(s, h, tid, arg).WithA0(tf, tid)
  }

  function Spawn(s: State, h: nat, tid: int, arg: int): (r: State)
    requires s.Sized() && s.IsHart(h) && s.IsTid(tid)
    ensures SameShape(s, r)
  {
    var t := s.threads[tid].(state := Runnable, wakeupTick := 0, isUser := true,
                             canBeKilled := true, detached := false, a0 := arg);
    MakeRunnable(s.WithThread(tid, t).Logged(Created(tid)), tid, h)
  }

  // ---------------------------------------------------------------- time

  function TickFrom(s: State, i: nat): (r: State)
    requires s.Sized() && i <= |s.threads|
    ensures SameShape(s, r) && r.cpus == s.cpus
    ensures forall h :: 0 <= h < |s.cpus| ==> s.queues[h] <= r.queues[h]
    decreases |s.threads| - i
  {
    if i == |s.threads| then s
    else if s.threads[i].state.Sleeping? && s.threads[i].wakeupTick <= s.ticks then
      TickFrom(MakeRunnable(s.WithThread(i, s.threads[i].(wakeupTick := 0)), i, s.boot), i + 1)
    else TickFrom(s, i + 1)
  }

  /** threads_tick; the tick counter is 64 bits wide and wraps. */
  function ThreadsTick(s: State): (r: State)
    requires s.Sized()
    ensures SameShape(s, r)
  {
    TickFrom(s.(ticks := Plus64(s.ticks, 1)), 0)
  }

  // ---------------------------------------------------------------- switching

  /** The first half of schedule: put a preempted thread back, leave the CPU, and reap a
      thread that died while it held the CPU. */
  function Yielded(s: State, h: nat): (r: State)
    requires s.Sized() && s.Started(h)
    ensures SameShape(s, r) && r.cpus == s.cpus
    ensures forall g :: 0 <= g < |s.cpus| ==> s.queues[g] <= r.queues[g]
  {
    var cur := s.Current(h);
    if cur == h then s.WithThread(cur, s.threads[cur].(state := Runnable, runningHart := -1))
    else if s.threads[cur].state.Running? then
      var r := Push(s.WithThread(cur, s.threads[cur].(state := Runnable)), h, cur);
      r.WithThread(cur, r.threads[cur].(runningHart := -1))
    else
      var t := s.threads[cur];
      var r := s.WithThread(cur, t.(runningHart := -1));
      if t.state.Zombie? && (0 <= t.joinWaiter < |s.threads| || t.detached) then Recycle(r, cur)
      else r
  }

  /** The pop loop of schedule: drop queued threads that are not Runnable. */
  function SkipStale(s: State, h: nat): (r: State)
    requires s.Sized() && s.IsHart(h)
    ensures SameShape(s, r) && r.cpus == s.cpus
    ensures r.queues[h] != [] && r.IsTid(r.queues[h][0]) ==> r.threads[r.queues[h][0]].state.Runnable?
    decreases |s.queues[h]|
  {
    if s.queues[h] == [] || !s.IsTid(s.queues[h][0]) then s
    else if s.threads[s.queues[h][0]].state.Runnable? then s
    else SkipStale(Pop(s, h), h)
  }

  /** The second half of schedule: run `next` on hart h with a fresh time slice. */
  function Dispatch(s: State, h: nat, next: int): (r: State)
    requires s.Sized() && s.IsHart(h) && s.IsTid(next)
    ensures r.Sized() && r.Started(h) && |r.threads| == |s.threads| && |r.cpus| == |s.cpus|
    ensures r.boot == s.boot && forall g :: 0 <= g < |s.cpus| && g != h ==> s.Started(g) == r.Started(g)
  {
    s.WithThread(next, s.threads[next].(state := Running, runningHart := h))
     .(cpus := s.cpus[h := s.cpus[h].(currentTid := next, curTf := next, sliceLeft := SLICE_TICKS)])
  }

  function TakeNext(s: State, h: nat): (r: State)
    requires s.Sized() && s.Started(h)
    ensures SameShape(s, r)
  {
    var q := SkipStale(s, h);
    if q.queues[h] == [] || !q.IsTid(q.queues[h][0]) then Dispatch(q, h, h)
    else Dispatch(Pop(q, h), h, q.queues[h][0])
  }

  /** schedule: the frame passed in must be the hart's current frame. */
  function Schedule(s: State, h: nat, tf: int): (r: State)
    requires s.Sized() && s.Started(h)
    ensures SameShape(s, r)
    ensures forall g :: 0 <= g < |s.cpus| && g != h ==> r.cpus[g] == s.cpus[g]
  {
    if tf != s.cpus[h].curTf then s.(panicked := true)
    else TakeNext(Yielded(s, h), h)
  }

  // ---------------------------------------------------------------- system calls

  /** thread_sys_sleep; zero ticks only yields. */
  function Sleep(s: State, h: nat, tf: int, n: U64): (r: State)
    requires s.Sized() && s.Started(h)
    ensures SameShape(s, r)
  {
    var cur := s.Current(h);
    if n == 0 then Schedule(s, h, tf)
    else
      var t := s.threads[cur].(state := Sleeping, wakeupTick := Plus64(s.ticks, n));
      Schedule(s.WithThread(cur, t), h, tf)
  }

  /** Hand an exit code to a joiner: status word, result 0, wait links cleared, made ready. */
  function Deliver(s: State, h: nat, tid: int, joiner: int, code: int): (r: State)
    requires s.Sized() && s.IsHart(h) && s.IsTid(joiner)
    ensures SameShape(s, r)
  {
    var w := s.threads[joiner];
    var s1 := if w.joinStatusPtr != 0 then s.(words := s.words[w.joinStatusPtr := code]) else s;
    var s2 := s1.WithThread(joiner, w.(a0 := 0, waitingFor := NO_TID, joinStatusPtr := 0))
                .Logged(Delivered(tid, joiner, code));
    MakeRunnable(s2, joiner, h)
  }

  /** thread_sys_exit up to its call of schedule. */
  function Die(s: State, h: nat, code: int): (r: State)
    requires s.Sized() && s.Started(h)
    ensures SameShape(s, r)
  {
    var cur := s.Current(h);
    var joiner := s.threads[cur].joinWaiter;
    var s1 := s.WithThread(cur, s.threads[cur].(exitCode := code, state := Zombie))
               .Logged(Terminated(cur, code));
    var s2 := if 0 <= joiner < |s.threads| then Recycle(Deliver(s1, h, cur, joiner, code), cur) else s1;
    s2.WithThread(cur, s2.threads[cur].(joinWaiter := NO_TID))
  }

  function Exit(s: State, h: nat, tf: int, code: int): (r: State)
    requires s.Sized() && s.Started(h)
    ensures SameShape(s, r)
  {
    Schedule(Die(s, h, code), h, tf)
  }

  datatype JoinCase = JoinError(code: int) | JoinDead | JoinWait

  /** The checks of thread_sys_join, in order. */
  function JoinOutcome(s: State, cur: int, target: int): JoinCase {
    if target <= 0 || target >= |s.threads| then JoinError(-1)
    else if target == cur then JoinError(-2)
    else if s.threads[target].state.Unused? then JoinError(-3)
    else if s.threads[target].detached then JoinError(-5)
    else if s.threads[target].joinWaiter >= 0 && s.threads[target].joinWaiter != cur then JoinError(-4)
    else if s.threads[target].state.Zombie? then JoinDead
    else JoinWait
  }

  /** Join with a thread that is already dead: collect its code and free its slot. */
  function Collect(s: State, cur: int, target: int, ptr: nat): (r: State)
    requires s.Sized() && s.IsTid(target)
    ensures SameShape(s, r)
  {
    var code := s.threads[target].exitCode;
    var s1 := if ptr != 0 then s.(words := s.words[ptr := code]) else s;
    Recycle(s1.Logged(Delivered(target, cur, code)), target)
  }

  /** Join with a live thread, up to the call of schedule. */
  function AwaitExit(s: State, cur: int, target: int, ptr: nat): (r: State)
    requires s.Sized() && s.IsTid(cur) && s.IsTid(target)
    ensures SameShape(s, r)
  {
    var s1 := s.WithThread(cur, s.threads[cur].(state := Waiting, waitingFor := target, joinStatusPtr := ptr));
    s1.WithThread(target, s1.threads[target].(joinWaiter := cur))
  }

  function Join(s: State, h: nat, tf: int, target: int, ptr: nat): (r: State)
    requires s.Sized() && s.Started(h) && s.IsTid(tf)
    ensures SameShape(s, r)
  {
    var cur := s.Current(h);
    match JoinOutcome(s, cur, target)
    case JoinError(code) => s.WithA0(tf, code)
    case JoinDead => Collect(s, cur, target, ptr).WithA0(tf, 0)
    case JoinWait => Schedule(AwaitExit(s, cur, target, ptr), h, tf)
  }

  /** The call really kills: it passes every check of thread_sys_kill. */
  predicate KillTakesEffect(s: State, cur: int, target: int) {
    && 0 < target < |s.threads|
    && target != cur
    && s.threads[target].canBeKilled
    && !s.threads[target].state.Unused?
    && !s.threads[target].state.Zombie?
  }

  /** The result of a kill that does not take effect. */
  function KillRefusal(s: State, cur: int, target: int): int {
    if target < 0 || target >= |s.threads| then -1
    else if target == 0 then -2
    else if target == cur then -4
    else if !s.threads[target].canBeKilled || s.threads[target].state.Unused? then -3
    else 0
  }

  /** Turn the target into a Zombie and take it off any ready queue. */
  function Slay(s: State, target: int): (r: State)
    requires s.Sized() && s.IsTid(target)
    ensures SameShape(s, r)
  {
    var t := s.threads[target].(exitCode := SIGKILL_CODE, state := Zombie, wakeupTick := 0);
    var s1 := s.WithThread(target, t).Logged(Terminated(target, SIGKILL_CODE));
    if s1.IsHart(s1.home[target]) then Dequeue(s1, target) else s1
  }

  /** The rest of an effective kill: serve the joiner, and free the slot unless some hart
      is still executing the thread. */
  function Bury(s: State, h: nat, target: int): (r: State)
    requires s.Sized() && s.IsHart(h) && s.IsTid(target)
    ensures SameShape(s, r)
  {
    var joiner := s.threads[target].joinWaiter;
    var idle := s.threads[target].runningHart < 0;
    if 0 <= joiner < |s.threads| then
      var s1 := Deliver(s, h, target, joiner, SIGKILL_CODE);
      if idle && s1.home[target] < 0 then Recycle(s1, target) else s1
    else if joiner < 0 then
      var s1 := s.WithThread(target, s.threads[target].(joinWaiter := NO_TID));
      if s.threads[target].detached && idle && s1.home[target] < 0 then Recycle(s1, target) else s1
    else s
  }

  function Kill(s: State, h: nat, tf: int, target: int): (r: State)
    requires s.Sized() && s.Started(h) && s.IsTid(tf)
    ensures SameShape(s, r)
  {
    var cur := s.Current(h);
    if KillTakesEffect(s, cur, target) then Bury(Slay(s, target), h, target).WithA0(tf, 0)
    else s.WithA0(tf, KillRefusal(s, cur, target))
  }

  /** The call really detaches: it passes every check of thread_sys_detach. */
  predicate DetachTakesEffect(s: State, target: int) {
    && |s.cpus| <= target < |s.threads| && 0 < target
    && !s.threads[target].state.Unused?
    && s.threads[target].joinWaiter < 0
    && !s.threads[target].detached
  }

  /** The result of a detach that changes nothing. */
  function DetachRefusal(s: State, target: int): int {
    if target <= 0 || target >= |s.threads| then -1
    else if s.threads[target].state.Unused? then -3
    else if target < |s.cpus| then -2
    else if s.threads[target].joinWaiter >= 0 then -4
    else 0
  }

  /** A detached thread frees its own slot: at once when it is already dead. */
  function Release(s: State, target: int): (r: State)
    requires s.Sized() && s.IsTid(target)
    ensures SameShape(s, r)
  {
    var s1 := s.WithThread(target, s.threads[target].(detached := true));
    if s.threads[target].state.Zombie? then Recycle(s1, target) else s1
  }

  /** thread_sys_detach. */
  function Detach(s: State, tf: int, target: int): (r: State)
    requires s.Sized() && s.IsTid(tf)
    ensures SameShape(s, r)
  {
    if DetachTakesEffect(s, target) then Release(s, target).WithA0(tf, 0)
    else s.WithA0(tf, DetachRefusal(s, target))
  }

  // ---------------------------------------------------------------- console

  /** thread_wake. */
  function Wake(s: State, h: nat, tid: int): (r: State)
    requires s.Sized() && s.IsHart(h)
    ensures SameShape(s, r)
  {
    if s.IsTid(tid) && s.threads[tid].state.Blocked? then MakeRunnable(s, tid, h) else s
  }

  /** console_read_nonblock on behalf of `reader`: n bytes leave the ring. */
  function TakeBytes(s: State, reader: int, n: nat): (r: State)
    requires s.Sized() && n <= |s.rx|
    ensures SameShape(s, r)
  {
    s.(rx := s.rx[n..]).Logged(Consumed(reader, s.rx[..n]))
  }

  /** thread_read_from_stdin: feed the waiting reader from the ring. */
  function FeedReader(s: State, h: nat): (r: State)
    requires s.Sized() && s.IsHart(h) && s.IsTid(s.stdinWaiter)
    ensures SameShape(s, r)
  {
    var w := s.stdinWaiter;
    var t := s.threads[w];
    if t.readBuf == 0 || t.readLen == 0 then Wake(s, h, w)
    else
      var n := Min(t.readLen, |s.rx|);
      if n == 0 then s
      else
        var s1 := TakeBytes(s, w, n);
        Wake(s1.WithThread(w, t.(a0 := n, readBuf := 0, readLen := 0)), h, w)
  }

  /** console_on_char_from_irq. */
  function OnChar(s: State, h: nat, b: Byte): (r: State)
    requires s.Sized() && s.IsHart(h)
    ensures SameShape(s, r)
  {
    var s1 := if |s.rx| < RING_CAPACITY then s.(rx := s.rx + [b]).Logged(Arrived(b, true))
              else s.Logged(Arrived(b, false));
    if s1.stdinWaiter < 0 then s1
    else FeedReader(s1, h).(stdinWaiter := NO_TID)
  }

  function OnChars(s: State, h: nat, bs: seq<Byte>): (r: State)
    requires s.Sized() && s.IsHart(h)
    ensures SameShape(s, r)
    decreases |bs|
  {
    if bs == [] then s else OnChars(OnChar(s, h, bs[0]), h, bs[1..])
  }

  /** thread_wait_for_stdin up to the call of schedule. */
  function AwaitInput(s: State, cur: int, buf: nat, len: nat): (r: State)
    requires s.Sized() && s.IsTid(cur)
    ensures SameShape(s, r)
  {
    s.(stdinWaiter := cur)
     .WithThread(cur, s.threads[cur].(readBuf := buf, readLen := len, state := Blocked))
  }

  /** sys_read and the result write of its caller. */
  function Read(s: State, h: nat, tf: int, fd: int, buf: nat, len: nat): (r: State)
    requires s.Sized() && s.Started(h) && s.IsTid(tf)
    ensures SameShape(s, r)
  {
    var cur := s.Current(h);
    var n := Min(len, |s.rx|);
    if fd != 0 then s.WithA0(tf, -1)
    else if n > 0 then TakeBytes(s, cur, n).WithA0(tf, n)
    else Schedule(AwaitInput(s, cur, buf, len), h, tf)
  }

  // ---------------------------------------------------------------- interrupts

  /** The time-slice half of sched_on_timer_irq. */
  function CountSlice(s: State, h: nat, tf: int): (r: State)
    requires s.Sized() && s.Started(h)
    ensures SameShape(s, r)
  {
    var left := if s.cpus[h].sliceLeft > 0 then s.cpus[h].sliceLeft - 1 else 0;
    if left > 0 then s.(cpus := s.cpus[h := s.cpus[h].(sliceLeft := left)])
    else Schedule(s.(cpus := s.cpus[h := s.cpus[h].(sliceLeft := SLICE_TICKS)]), h, tf)
  }

  /** sched_on_timer_irq: only the boot hart advances time. */
  function OnTimer(s: State, h: nat, tf: int): (r: State)
    requires s.Sized() && s.Started(h)
    ensures SameShape(s, r)
  {
    CountSlice(if h == s.boot then ThreadsTick(s) else s, h, tf)
  }

  // ---------------------------------------------------------------- starting up

  /** cpu_init_this_hart. */
  function BringOnline(s: State, h: nat): (r: State)
    requires s.Sized() && s.IsHart(h) && !s.Started(h)
    ensures SameShape(s, r)
  {
    s.(cpus := s.cpus[h := Cpu(true, NO_TID, NO_TID, SLICE_TICKS)])
  }

  /** cpu_enter_idle: hart h starts running its idle thread. */
  function EnterIdle(s: State, h: nat): (r: State)
    requires s.Sized() && s.IsHart(h)
    ensures r.Sized() && r.Started(h) && |r.threads| == |s.threads| && |r.cpus| == |s.cpus|
    ensures r.boot == s.boot && forall g :: 0 <= g < |s.cpus| && g != h ==> s.Started(g) == r.Started(g)
  {
    s.WithThread(h, s.threads[h].(state := Running, runningHart := h))
     .(cpus := s.cpus[h := s.cpus[h].(currentTid := h, curTf := h)])
  }

  /** The table threads_init builds before it creates the first user thread: idle threads
      Runnable, every other slot free, only the boot hart online. */
  function BlankState(n: nat, harts: nat, boot: nat): (r: State)
    requires boot < harts < n
    ensures r.Sized() && |r.threads| == n && |r.cpus| == harts && r.boot == boot
  {
    State(boot, 0,
          seq(n, i => if i < harts then UNUSED_THREAD.(state := Runnable) else UNUSED_THREAD),
          seq(n, i => -1),
          seq(harts, h => Cpu(h == boot, NO_TID, NO_TID, if h == boot then SLICE_TICKS else 0)),
          seq(harts, h => []),
          map[], NO_TID, [], [], false)
  }

  /** threads_init: the first user thread takes the slot after the idle threads. */
  function InitState(n: nat, harts: nat, boot: nat): (r: State)
    requires boot < harts < n
    ensures r.Sized() && |r.threads| == n && |r.cpus| == harts && r.boot == boot
  {
    var s := BlankState(n, harts, boot);
    var tid := AllocFrom(s, 1);
    if tid < 0 then s else Spawn(s, boot, tid, 0)
  }
}
