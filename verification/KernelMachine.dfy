/** The kernel as the source keeps it: tables updated in place, ready queues as lists linked
    through the thread slots, the console ring as a circular buffer. `view` is the abstract
    state the tables stand for; each method is proved to move it as the functions in
    KernelOps say. */
module KernelMachine {
  import opened Bytes
  import opened KernelState
  import opened KernelOps
  import opened Partition
  import opened Steps
  import opened Safety
  import opened ReadyLists
  import opened RxRing

  class Kernel {
    const threads: array<Slot>
    const cpus: array<Cpu>
    const rqs: array<Runqueue>
    const ring: Ring
    const boot: nat
    var ticks: U64
    var stdinWaiter: int
    var words: map<nat, int>
    var panicked: bool
    ghost var view: State

    ghost predicate Tables()
      reads this, threads, cpus
    {
      && view.Sized()
      && |view.threads| == threads.Length
      && view.cpus == cpus[..]
      && view.boot == boot
      && view.ticks == ticks && view.stdinWaiter == stdinWaiter && view.words == words && view.panicked == panicked
      && (forall i :: 0 <= i < threads.Length ==>
            threads[i].core == view.threads[i] && (threads[i].onRq <==> view.home[i] >= 0))
    }

    ghost predicate Queues()
      reads this, threads, rqs
    {
      Lists(view, threads[..], rqs[..])
    }

    ghost predicate Valid()
      reads this, threads, cpus, rqs, ring, ring.buf
    {
      && Tables() && Queues() && ring.Valid() && view.rx == ring.Contents
      && ring.buf as object != threads && ring.buf as object != cpus && ring.buf as object != rqs
    }

    // ------------------------------------------------------------ boot

    /** The boot hart's cpu_init_this_hart and threads_init: idle threads, free slots, empty
        queues, and the first user thread ready on the boot hart. */
    constructor (n: nat, harts: nat, bootHart: nat)
      requires bootHart < harts < n
      ensures Valid() && view == InitState(n, harts, bootHart)
    {
      boot := bootHart;
      ticks := 0;
      stdinWaiter := NO_TID;
      words := map[];
      panicked := false;
      threads := new Slot[n](i => Slot(if i < harts then UNUSED_THREAD.(state := Runnable) else UNUSED_THREAD, -1, false));
      cpus := new Cpu[harts](h => Cpu(h == bootHart, NO_TID, NO_TID, if h == bootHart then SLICE_TICKS else 0));
      rqs := new Runqueue[harts](h => Runqueue(-1, -1, 0));
      ring := new Ring();
      view := BlankState(n, harts, bootHart);
      new;
      assert view.cpus == cpus[..];
      assert forall h :: 0 <= h < |view.cpus| ==> QueueOK(view, h);
      assert forall i :: 0 <= i < |view.threads| ==> HomeOK(view, i);
      assert forall h :: 0 <= h < rqs.Length ==> Spells(threads[..], rqs[..][h], view.queues[h]);
      var tid := AllocSlot();
      if tid >= 0 { SpawnAt(boot, tid, 0); }
    }

    // ------------------------------------------------------------ field updates

    method Store(i: int, t: Thread)
      requires Valid() && view.IsTid(i)
      modifies this`view, threads
      ensures Valid() && view == old(view).WithThread(i, t)
    {
      threads[i] := threads[i].(core := t);
      view := view.WithThread(i, t);
      SameLists(old(view), old(threads[..]), rqs[..], view, threads[..]);
    }

    method StoreCpu(h: int, c: Cpu)
      requires Valid() && view.IsHart(h) && -1 <= c.currentTid < |view.threads|
      modifies this`view, cpus
      ensures Valid() && view == old(view).(cpus := old(view).cpus[h := c])
    {
      cpus[h] := c;
      view := view.(cpus := view.cpus[h := c]);
      assert view.cpus == cpus[..];
      SameLists(old(view), old(threads[..]), rqs[..], view, threads[..]);
    }

    ghost method Record(e: Event)
      requires Valid()
      modifies this`view
      ensures Valid() && view == old(view).Logged(e)
    {
      view := view.Logged(e);
      SameLists(old(view), old(threads[..]), rqs[..], view, threads[..]);
    }

    // ------------------------------------------------------------ ready queues

    /** The pointer writes of rq_push_tail. */
    method LinkAtTail(h: int, tid: int)
      requires 0 <= h < rqs.Length && 0 <= tid < threads.Length
      requires rqs[h].tail == -1 || (0 <= rqs[h].tail < threads.Length && rqs[h].tail != tid)
      modifies threads, rqs
      ensures rqs[..] == old(rqs[..])[h := AppendedTo(old(rqs[h]), tid)]
      ensures forall i :: 0 <= i < threads.Length ==>
        threads[i] == (if i == tid then old(threads[i]).(rqNext := -1, onRq := true)
                       else if i == old(rqs[h]).tail then old(threads[i]).(rqNext := tid)
                       else old(threads[i]))
    {
      var r := rqs[h];
      threads[tid] := threads[tid].(rqNext := -1, onRq := true);
      if r.tail == -1 {
        rqs[h] := Runqueue(tid, tid, r.len + 1);
      } else {
        threads[r.tail] := threads[r.tail].(rqNext := tid);
        rqs[h] := Runqueue(r.head, tid, r.len + 1);
      }
    }

    method RqPushTail(h: int, tid: int)
      requires Valid()
      modifies this`view, this`panicked, threads, rqs
      ensures Valid() && view == Push(old(view), h, tid)
    {
      if h < 0 || h >= rqs.Length || tid < 0 || tid >= threads.Length || tid < cpus.Length { return; }
      if threads[tid].onRq {
        panicked := true;
        view := view.(panicked := true);
        SameLists(old(view), old(threads[..]), rqs[..], view, threads[..]);
        return;
      }
      TailIsOnQueue(h, tid);
      LinkAtTail(h, tid);
      PushLists(view, old(threads[..]), old(rqs[..]), threads[..], h, tid);
      view := Push(view, h, tid);
    }

    lemma TailIsOnQueue(h: int, tid: int)
      requires Valid() && view.IsHart(h) && view.IsTid(tid) && view.home[tid] < 0
      ensures rqs[h].tail == -1 || (0 <= rqs[h].tail < threads.Length && rqs[h].tail != tid)
    {
      var q := view.queues[h];
      assert Spells(threads[..], rqs[..][h], q) && QueueOK(view, h) && HomeOK(view, tid);
      if q != [] { assert q[|q| - 1] in q; }
    }

    method RqPopHead(h: int) returns (tid: int)
      requires Valid()
      modifies this`view, threads, rqs
      ensures Valid()
      ensures if !old(view).IsHart(h) || old(view).queues[h] == [] then tid == -1 && view == old(view)
              else old(view).IsTid(tid) && tid == old(view).queues[h][0] && view == Pop(old(view), h)
    {
      if h < 0 || h >= rqs.Length { return -1; }
      var r := rqs[h];
      tid := r.head;
      assert Spells(threads[..], rqs[..][h], view.queues[h]);
      if tid < 0 { return -1; }
      var nxt := threads[tid].rqNext;
      rqs[h] := Runqueue(nxt, if nxt < 0 then -1 else r.tail, if r.len > 0 then r.len - 1 else 0);
      threads[tid] := threads[tid].(rqNext := -1, onRq := false);
      assert rqs[..] == old(rqs[..])[h := Unheaded(r, nxt)];
      PopLists(view, old(threads[..]), old(rqs[..]), threads[..], h);
      view := Pop(view, h);
    }

    /** rq_len. */
    function RqLen(h: int): nat
      reads this, rqs
    {
      if h < 0 || h >= rqs.Length then 0 else rqs[h].len
    }

    lemma LenIsLength(h: int)
      requires Valid() && view.IsHart(h)
      ensures RqLen(h) == |view.queues[h]| && cpus.Length == |view.cpus| && cpus[h] == view.cpus[h]
    {
      assert Spells(threads[..], rqs[..][h], view.queues[h]);
    }

    /** The pointer writes of rq_remove, for the element `cur` whose predecessor is `prev`. */
    method Unlink(h: int, prev: int, cur: int)
      requires 0 <= h < rqs.Length && 0 <= cur < threads.Length && -1 <= prev < threads.Length && prev != cur
      requires rqs[h].len > 0
      modifies threads, rqs
      ensures rqs[..] == old(rqs[..])[h := Unlinked(old(rqs[h]), prev, cur, old(threads[cur]).rqNext)]
      ensures forall i :: 0 <= i < threads.Length ==>
        threads[i] == (if i == cur then old(threads[i]).(rqNext := -1, onRq := false)
                       else if i == prev then old(threads[i]).(rqNext := old(threads[cur]).rqNext)
                       else old(threads[i]))
    {
      var r := rqs[h];
      var nxt := threads[cur].rqNext;
      if prev < 0 {
        rqs[h] := r.(head := nxt);
      } else {
        threads[prev] := threads[prev].(rqNext := nxt);
      }
      if r.tail == cur {
        rqs[h] := rqs[h].(tail := prev);
      }
      threads[cur] := threads[cur].(rqNext := -1, onRq := false);
      if rqs[h].len > 0 {
        rqs[h] := rqs[h].(len := rqs[h].len - 1);
      }
    }

    method UnlinkQueued(h: int, prev: int, cur: int, ghost k: nat)
      requires Valid() && view.IsHart(h) && k < |view.queues[h]| && cur == view.queues[h][k]
      requires prev == if k == 0 then -1 else view.queues[h][k - 1]
      modifies threads, rqs
      ensures view.IsTid(cur) && view.home[cur] == h && Lists(Dequeue(view, cur), threads[..], rqs[..])
      ensures forall i :: 0 <= i < threads.Length ==>
        threads[i].core == old(threads[i].core) && threads[i].onRq == (i != cur && old(threads[i].onRq))
    {
      NeighboursOnQueue(h, k);
      Unlink(h, prev, cur);
      RemoveLists(view, old(threads[..]), old(rqs[..]), threads[..], h, k, prev);
    }

    /** Take element k off the list of hart h. */
    method TakeOff(h: int, prev: int, cur: int, ghost k: nat)
      requires Valid() && view.IsHart(h) && k < |view.queues[h]| && cur == view.queues[h][k]
      requires prev == if k == 0 then -1 else view.queues[h][k - 1]
      modifies this`view, threads, rqs
      ensures Valid() && old(view).IsTid(cur) && old(view).home[cur] == h && view == Dequeue(old(view), cur)
    {
      UnlinkQueued(h, prev, cur, k);
      view := Dequeue(view, cur);
    }

    lemma NeighboursOnQueue(h: int, k: nat)
      requires Valid() && view.IsHart(h) && k < |view.queues[h]|
      ensures rqs[h].len > 0 && view.IsTid(view.queues[h][k])
      ensures k > 0 ==> view.IsTid(view.queues[h][k - 1]) && view.queues[h][k - 1] != view.queues[h][k]
    {
      assert Spells(threads[..], rqs[..][h], view.queues[h]) && QueueOK(view, h);
    }

    /** Unlink tid from the list of hart h, keeping the order of the rest. */
    method RqRemove(h: int, tid: int) returns (rc: int)
      requires Valid()
      modifies this`view, threads, rqs
      ensures Valid()
      ensures rc == if old(view).IsHart(h) && old(view).IsTid(tid) && old(view).home[tid] == h then 0 else -1
      ensures rc == 0 ==> view == Dequeue(old(view), tid)
      ensures rc == -1 ==> view == old(view)
    {
      if h < 0 || h >= rqs.Length { return -1; }
      if tid < 0 || tid >= threads.Length { return -1; }
      var cur := rqs[h].head;
      var prev := -1;
      ghost var q := view.queues[h];
      ghost var k := 0;
      assert Spells(threads[..], rqs[..][h], q) && QueueOK(view, h);
      assert forall j :: 0 <= j < |q| ==> q[j] in q;
      while cur >= 0
        invariant 0 <= k <= |q|
        invariant cur == if k < |q| then q[k] else -1
        invariant prev == if k == 0 then -1 else q[k - 1]
        invariant forall j :: 0 <= j < k ==> q[j] != tid
        decreases |q| - k
      {
        if cur == tid {
          TakeOff(h, prev, cur, k);
          return 0;
        }
        prev := cur;
        assert threads[..][q[k]].rqNext == NextIn(q, k);
        cur := threads[cur].rqNext;
        k := k + 1;
      }
      HomeIsQueue(tid);
      return -1;
    }

    method RqRemoveAny(tid: int) returns (h: int)
      requires Valid()
      modifies this`view, threads, rqs
      ensures Valid()
      ensures if old(view).IsTid(tid) && old(view).home[tid] >= 0
              then h == old(view).home[tid] && old(view).IsHart(h) && view == Dequeue(old(view), tid)
              else h == -1 && view == old(view)
    {
      if tid < 0 || tid >= threads.Length { return -1; }
      HomeIsQueue(tid);
      ghost var v := view;
      var g := 0;
      while g < rqs.Length
        invariant 0 <= g <= rqs.Length == |v.cpus|
        invariant Valid() && view == v
        invariant v.home[tid] < 0 || v.home[tid] >= g
      {
        var rc := RqRemove(g, tid);
        if rc == 0 { return g; }
        g := g + 1;
      }
      return -1;
    }

    lemma HomeIsQueue(tid: int)
      requires Valid() && view.IsTid(tid)
      ensures view.home[tid] < 0 || OnQueue(view, view.home[tid], tid)
    {
      assert HomeOK(view, tid);
    }

    /** Copies the first `max` queued thread ids, and a terminating -1 if it fits. */
    method RqSnapshot(h: int, dst: array<int>, max: nat) returns (n: int)
      requires Valid() && max <= dst.Length
      modifies dst
      ensures Valid() && view == old(view)
      ensures !view.IsHart(h) || max == 0 ==> n == -1 && dst[..] == old(dst[..])
      ensures view.IsHart(h) && max > 0 ==>
                n == Min(max, |view.queues[h]|) && dst[..n] == view.queues[h][..n] && (n < max ==> dst[n] == -1)
    {
      if h < 0 || h >= rqs.Length { return -1; }
      if max == 0 { return -1; }
      var cur := rqs[h].head;
      n := 0;
      ghost var q := view.queues[h];
      assert Spells(threads[..], rqs[..][h], q);
      while cur >= 0 && n < max
        invariant 0 <= n <= max && n <= |q|
        invariant cur == if n < |q| then q[n] else -1
        invariant dst[..n] == q[..n]
        invariant Valid() && view == old(view) && Spells(threads[..], rqs[..][h], q)
        decreases |q| - n
      {
        assert threads[..][q[n]].rqNext == NextIn(q, n);
        dst[n] := cur;
        cur := threads[cur].rqNext;
        n := n + 1;
      }
      if n < max { dst[n] := -1; }
    }

    // ------------------------------------------------------------ placement and slots

    /** sched_pick_target_hart: the scan over the harts, v being what the tables stand for. */
    method ScanHarts(waker: nat, ghost v: State) returns (best: nat)
      requires v.Sized() && v.IsHart(waker) && cpus.Length == |v.cpus|
      requires forall h :: 0 <= h < cpus.Length ==> cpus[h] == v.cpus[h] && RqLen(h) == |v.queues[h]|
      ensures v.IsHart(best) && best == PickTarget(v, waker)
    {
      best := waker;
      var bestLen := RqLen(waker);
      var bestOnline := cpus[waker].online;
      for h := 0 to cpus.Length
        invariant v.IsHart(best)
        invariant PickFrom(v, h, best, bestLen, bestOnline) == PickTarget(v, waker)
      {
        if cpus[h].online {
          var len := RqLen(h);
          if !bestOnline || len < bestLen {
            best, bestLen, bestOnline := h, len, true;
          }
        }
      }
    }

    method PickTargetHart(waker: nat) returns (best: nat)
      requires Valid() && view.IsHart(waker)
      ensures view.IsHart(best) && best == PickTarget(view, waker)
    {
      forall h | 0 <= h < cpus.Length ensures cpus[h] == view.cpus[h] && RqLen(h) == |view.queues[h]| {
        LenIsLength(h);
      }
      best := ScanHarts(waker, view);
    }

    /** thread_make_runnable. */
    method MakeReady(tid: int, preferred: nat)
      requires Valid() && view.IsHart(preferred)
      modifies this`view, this`panicked, threads, rqs
      ensures Valid() && view == MakeRunnable(old(view), tid, preferred)
    {
      if tid < 0 || tid >= threads.Length { return; }
      if tid < cpus.Length { return; }
      if threads[tid].onRq || threads[tid].core.state == Running { return; }
      var target := PickTargetHart(preferred);
      Store(tid, threads[tid].core.(state := Runnable, wakeupTick := 0));
      RqPushTail(target, tid);
    }

    /** alloc_thread_slot. */
    method AllocSlot() returns (tid: int)
      requires Valid()
      ensures tid == AllocFrom(view, 1)
    {
      for i := 1 to threads.Length
        invariant AllocFrom(view, 1) == AllocFrom(view, i)
      {
        if threads[i].core.state == Unused { return i; }
      }
      return -1;
    }

    method SetWaiter(w: int)
      requires Valid() && -1 <= w < |view.threads|
      modifies this`view, this`stdinWaiter
      ensures Valid() && view == old(view).(stdinWaiter := w)
    {
      stdinWaiter := w;
      view := view.(stdinWaiter := w);
      SameLists(old(view), threads[..], rqs[..], view, threads[..]);
    }

    /** Forget the queue link of a thread that is on no queue. */
    method ClearLink(tid: int)
      requires Valid() && view.IsTid(tid) && view.home[tid] < 0
      modifies threads
      ensures Valid() && threads[tid].rqNext == -1
    {
      threads[tid] := threads[tid].(rqNext := -1, onRq := false);
      OffQueueLinks(view, old(threads[..]), rqs[..], threads[..], tid);
    }

    /** recycle_thread. */
    method Free(tid: int)
      requires Valid() && (view.IsTid(tid) ==> view.home[tid] < 0)
      modifies this`view, this`stdinWaiter, threads
      ensures Valid() && view == Recycle(old(view), tid)
    {
      if tid <= 0 || tid >= threads.Length { return; }
      if stdinWaiter == tid { SetWaiter(NO_TID); }
      var t := threads[tid].core;
      Store(tid, UNUSED_THREAD.(readBuf := t.readBuf, readLen := t.readLen));
      ClearLink(tid);
      Record(Recycled(tid));
    }

    /** The common part of thread creation. */
    method SpawnAt(h: nat, tid: int, arg: int)
      requires Valid() && view.IsHart(h) && view.IsTid(tid)
      modifies this`view, this`panicked, threads, rqs
      ensures Valid() && view == Spawn(old(view), h, tid, arg)
    {
      Store(tid, threads[tid].core.(state := Runnable, wakeupTick := 0, isUser := true,
                                    canBeKilled := true, detached := false, a0 := arg));
      Record(Created(tid));
      MakeReady(tid, h);
    }

    method SetA0(i: int, v: int)
      requires Valid() && view.IsTid(i)
      modifies this`view, threads
      ensures Valid() && view == old(view).WithA0(i, v)
    {
      Store(i, threads[i].core.(a0 := v));
    }

    /** thread_sys_create. */
    method SysCreate(h: nat, tf: int, arg: int)
      requires Valid() && view.IsHart(h) && view.IsTid(tf)
      modifies this`view, this`panicked, threads, rqs
      ensures Valid() && view == Create(old(view), h, tf, arg)
    {
      var tid := AllocSlot();
      if tid < 0 {
        SetA0(tf, -1);
      } else {
        SpawnAt(h, tid, arg);
        SetA0(tf, tid);
      }
    }

    // ------------------------------------------------------------ time and switching

    method SetTicks(t: U64)
      requires Valid()
      modifies this`view, this`ticks
      ensures Valid() && view == old(view).(ticks := t)
    {
      ticks := t;
      view := view.(ticks := t);
      SameLists(old(view), threads[..], rqs[..], view, threads[..]);
    }

    /** One round of the threads_tick loop. */
    method WakeIfDue(i: nat)
      requires Valid() && i < |view.threads|
      modifies this`view, this`panicked, threads, rqs
      ensures Valid() && |view.threads| == old(|view.threads|) && TickFrom(view, i + 1) == TickFrom(old(view), i)
    {
      var t := threads[i].core;
      if t.state == Sleeping && t.wakeupTick <= ticks {
        Store(i, t.(wakeupTick := 0));
        MakeReady(i, boot);
      }
    }

    /** threads_tick. */
    method Tick()
      requires Valid()
      modifies this`view, this`panicked, this`ticks, threads, rqs
      ensures Valid() && view == ThreadsTick(old(view))
    {
      SetTicks(Plus64(ticks, 1));
      ghost var v := view;
      var i := 0;
      while i < threads.Length
        invariant 0 <= i <= threads.Length == |view.threads| == |v.threads|
        invariant Valid() && TickFrom(view, i) == TickFrom(v, 0)
      {
        WakeIfDue(i);
        i := i + 1;
      }
    }

    /** The first half of schedule. */
    method LeaveCpu(h: nat)
      requires Valid() && view.Started(h) && view.home[view.Current(h)] < 0
      modifies this`view, this`panicked, this`stdinWaiter, threads, rqs
      ensures Valid() && view == Yielded(old(view), h)
    {
      var cur := cpus[h].currentTid;
      if cur != h && threads[cur].core.state == Running {
        Store(cur, threads[cur].core.(state := Runnable));
        RqPushTail(h, cur);
        Store(cur, threads[cur].core.(runningHart := -1));
        return;
      }
      Store(cur, threads[cur].core.(runningHart := -1));
      if cur == h {
        Store(cur, threads[cur].core.(state := Runnable));
        return;
      }
      var t := threads[cur].core;
      if t.state == Zombie && ((t.joinWaiter >= 0 && t.joinWaiter < threads.Length) || t.detached) {
        Free(cur);
      }
    }

    method RunOn(h: nat, next: int)
      requires Valid() && view.IsHart(h) && view.IsTid(next)
      modifies this`view, threads, cpus
      ensures Valid() && view == Dispatch(old(view), h, next)
    {
      Store(next, threads[next].core.(state := Running, runningHart := h));
      StoreCpu(h, cpus[h].(currentTid := next, curTf := next, sliceLeft := SLICE_TICKS));
    }

    /** The pop loop of schedule and the dispatch after it. */
    method PickNext(h: nat)
      requires Valid() && view.Started(h)
      modifies this`view, threads, rqs, cpus
      ensures Valid() && view == TakeNext(old(view), h)
    {
      ghost var v := view;
      TakeNextStep(view, h);
      var next := RqPopHead(h);
      while next >= 0 && threads[next].core.state != Runnable
        invariant Valid() && view.Started(h) && -1 <= next < threads.Length
        invariant if next < 0 then TakeNext(v, h) == Dispatch(view, h, h)
                  else TakeNext(v, h) == (if view.threads[next].state.Runnable? then Dispatch(view, h, next)
                                          else TakeNext(view, h))
        decreases |view.queues[h]|, next
      {
        TakeNextStep(view, h);
        next := RqPopHead(h);
      }
      RunOn(h, if next < 0 then h else next);
    }

    /** schedule takes the head if it is Runnable and drops it otherwise. */
    lemma TakeNextStep(v: State, h: nat)
      requires v.Sized() && v.Started(h) && (v.queues[h] != [] ==> v.IsTid(v.queues[h][0]))
      ensures TakeNext(v, h) ==
        if v.queues[h] == [] then Dispatch(v, h, h)
        else if v.threads[v.queues[h][0]].state.Runnable? then Dispatch(Pop(v, h), h, v.queues[h][0])
        else TakeNext(Pop(v, h), h)
    {
    }

    /** schedule. */
    method Reschedule(h: nat, tf: int)
      requires Valid() && view.Started(h) && view.home[view.Current(h)] < 0
      modifies this`view, this`panicked, this`stdinWaiter, threads, rqs, cpus
      ensures Valid() && view == Schedule(old(view), h, tf)
    {
      if tf != cpus[h].curTf {
        panicked := true;
        view := view.(panicked := true);
        SameLists(old(view), threads[..], rqs[..], view, threads[..]);
        return;
      }
      LeaveCpu(h);
      PickNext(h);
    }

    // ------------------------------------------------------------ system calls

    method FallAsleep(h: nat, n: U64)
      requires Valid() && view.Started(h) && view.home[view.Current(h)] < 0
      modifies this`view, threads
      ensures Valid() && view.Started(h) && view.home[view.Current(h)] < 0
      ensures view == old(view).WithThread(old(view).Current(h), old(view).threads[old(view).Current(h)].(
                        state := Sleeping, wakeupTick := Plus64(old(view).ticks, n)))
    {
      var cur := cpus[h].currentTid;
      Store(cur, threads[cur].core.(state := Sleeping, wakeupTick := Plus64(ticks, n)));
      ClearLink(cur);
    }

    method Nap(h: nat, tf: int, n: U64)
      requires Valid() && view.Started(h) && view.home[view.Current(h)] < 0 && n > 0
      modifies this`view, this`panicked, this`stdinWaiter, threads, rqs, cpus
      ensures Valid() && view == Sleep(old(view), h, tf, n)
    {
      FallAsleep(h, n);
      Reschedule(h, tf);
    }

    /** thread_sys_sleep. */
    method SysSleep(h: nat, tf: int, n: U64)
      requires Valid() && view.Started(h) && view.home[view.Current(h)] < 0
      modifies this`view, this`panicked, this`stdinWaiter, threads, rqs, cpus
      ensures Valid() && view == Sleep(old(view), h, tf, n)
    {
      if n == 0 { Reschedule(h, tf); } else { Nap(h, tf, n); }
    }

    /** The write through a joiner's status pointer. */
    method StoreWord(ptr: nat, code: int)
      requires Valid()
      modifies this`view, this`words
      ensures Valid() && view == old(view).(words := if ptr != 0 then old(view).words[ptr := code] else old(view).words)
    {
      if ptr != 0 {
        words := words[ptr := code];
        view := view.(words := words);
        SameLists(old(view), threads[..], rqs[..], view, threads[..]);
      }
    }

    method ServeJoiner(h: nat, tid: int, joiner: int, code: int)
      requires Valid() && view.IsHart(h) && view.IsTid(joiner)
      modifies this`view, this`panicked, this`words, threads, rqs
      ensures Valid() && view == Deliver(old(view), h, tid, joiner, code)
    {
      var w := threads[joiner].core;
      StoreWord(w.joinStatusPtr, code);
      Store(joiner, w.(a0 := 0, waitingFor := NO_TID, joinStatusPtr := 0));
      Record(Delivered(tid, joiner, code));
      MakeReady(joiner, h);
    }

    /** thread_sys_exit before its call of schedule. */
    method EndCurrent(h: nat, code: int)
      requires Valid() && view.Started(h) && view.home[view.Current(h)] < 0
      requires view.threads[view.Current(h)].joinWaiter != view.Current(h)
      modifies this`view, this`panicked, this`words, this`stdinWaiter, threads, rqs
      ensures Valid() && view == Die(old(view), h, code)
    {
      var cur := cpus[h].currentTid;
      var joiner := threads[cur].core.joinWaiter;
      Store(cur, threads[cur].core.(exitCode := code, state := Zombie));
      Record(Terminated(cur, code));
      ClearLink(cur);
      if joiner >= 0 && joiner < threads.Length {
        ServeJoiner(h, cur, joiner, code);
        Free(cur);
      }
      Store(cur, threads[cur].core.(joinWaiter := NO_TID));
    }

    method SysExit(h: nat, tf: int, code: int)
      requires Valid() && Inv(view) && view.Started(h) && |view.cpus| <= view.Current(h)
      modifies this`view, this`panicked, this`words, this`stdinWaiter, threads, rqs, cpus
      ensures Valid() && view == Exit(old(view), h, tf, code)
    {
      CoreWeakens(view, h);
      CurrentIsUnqueued(h);
      DieVacatesOnSchedule(view, h, code);
      DieKeepsCpus(view, h, code);
      EndCurrent(h, code);
      CurrentIsUnqueued(h);
      Reschedule(h, tf);
    }

    lemma CurrentIsUnqueued(h: nat)
      requires Valid() && Core(view, h) && view.Started(h)
      ensures view.home[view.Current(h)] < 0
      ensures |view.cpus| <= view.Current(h) ==> view.threads[view.Current(h)].joinWaiter != view.Current(h)
    {
      assert CpuOK(view, h, h);
      if view.Current(h) == h { assert IdleOK(view, h); } else { assert UserOK(view, view.Current(h), h); }
    }

    /** thread_sys_join. */
    method SysJoin(h: nat, tf: int, target: int, ptr: nat)
      requires Valid() && Inv(view) && view.Started(h) && |view.cpus| <= view.Current(h) && view.IsTid(tf)
      modifies this`view, this`panicked, this`words, this`stdinWaiter, threads, rqs, cpus
      ensures Valid() && view == Join(old(view), h, tf, target, ptr)
    {
      var cur := cpus[h].currentTid;
      if target <= 0 || target >= threads.Length { SetA0(tf, -1); return; }
      if target == cur { SetA0(tf, -2); return; }
      var t := threads[target].core;
      if t.state == Unused { SetA0(tf, -3); return; }
      if t.detached { SetA0(tf, -5); return; }
      if t.state == Zombie {
        if t.joinWaiter >= 0 && t.joinWaiter != cur { SetA0(tf, -4); return; }
        DeadIsUnqueued(target);
        CollectDead(cur, target, ptr);
        SetA0(tf, 0);
        return;
      }
      if t.joinWaiter >= 0 && t.joinWaiter != cur { SetA0(tf, -4); return; }
      BlockOnJoin(h, target, ptr);
      Reschedule(h, tf);
    }

    method BlockOnJoin(h: nat, target: int, ptr: nat)
      requires Valid() && Inv(view) && view.Started(h) && |view.cpus| <= view.Current(h)
      requires view.IsTid(target) && target != view.Current(h)
      modifies this`view, threads
      ensures Valid() && view == AwaitExit(old(view), old(view).Current(h), target, ptr)
      ensures view.Started(h) && view.home[view.Current(h)] < 0
    {
      var cur := cpus[h].currentTid;
      AwaitExitKeepsCore(view, h, target, ptr);
      Store(cur, threads[cur].core.(state := Waiting, waitingFor := target, joinStatusPtr := ptr));
      Store(target, threads[target].core.(joinWaiter := cur));
      CurrentIsUnqueued(h);
    }

    method CollectDead(cur: int, target: int, ptr: nat)
      requires Valid() && view.IsTid(target) && view.home[target] < 0
      modifies this`view, this`words, this`stdinWaiter, threads
      ensures Valid() && view == Collect(old(view), cur, target, ptr)
    {
      StoreWord(ptr, threads[target].core.exitCode);
      Record(Delivered(target, cur, threads[target].core.exitCode));
      Free(target);
    }

    lemma DeadIsUnqueued(i: int)
      requires Valid() && Inv(view) && view.IsTid(i) && !view.threads[i].state.Runnable?
      ensures view.home[i] < 0
    {
      if i < |view.cpus| { assert IdleOK(view, i); } else { assert UserOK(view, i, -1); }
    }

    /** The first half of an effective kill. */
    method Strike(target: int)
      requires Valid() && view.IsTid(target)
      modifies this`view, threads, rqs
      ensures Valid() && view == Slay(old(view), target)
    {
      Store(target, threads[target].core.(exitCode := SIGKILL_CODE, state := Zombie, wakeupTick := 0));
      Record(Terminated(target, SIGKILL_CODE));
      HomeIsQueue(target);
      if threads[target].onRq {
        var h := RqRemoveAny(target);
      }
    }

    /** The second half of an effective kill. */
    method Settle(h: nat, target: int)
      requires Valid() && view.IsHart(h) && view.IsTid(target)
      modifies this`view, this`panicked, this`words, this`stdinWaiter, threads, rqs
      ensures Valid() && view == Bury(old(view), h, target)
    {
      var joiner := threads[target].core.joinWaiter;
      var idle := threads[target].core.runningHart < 0;
      var detached := threads[target].core.detached;
      if joiner >= 0 && joiner < threads.Length {
        ServeJoiner(h, target, joiner, SIGKILL_CODE);
        if idle && !threads[target].onRq { Free(target); }
      }
      if joiner < 0 {
        Store(target, threads[target].core.(joinWaiter := NO_TID));
      }
      if joiner < 0 && detached && idle && !threads[target].onRq {
        Free(target);
      }
    }

    /** thread_sys_kill. */
    method SysKill(h: nat, tf: int, target: int)
      requires Valid() && view.Started(h) && view.IsTid(tf)
      modifies this`view, this`panicked, this`words, this`stdinWaiter, threads, rqs
      ensures Valid() && view == Kill(old(view), h, tf, target)
    {
      var cur := cpus[h].currentTid;
      if target < 0 || target >= threads.Length { SetA0(tf, -1); return; }
      if target == 0 { SetA0(tf, -2); return; }
      if target == cur { SetA0(tf, -4); return; }
      if !threads[target].core.canBeKilled { SetA0(tf, -3); return; }
      if threads[target].core.state == Unused { SetA0(tf, -3); return; }
      if threads[target].core.state == Zombie { SetA0(tf, 0); return; }
      Strike(target);
      Settle(h, target);
      SetA0(tf, 0);
    }

    /** thread_sys_detach. */
    method SysDetach(tf: int, target: int)
      requires Valid() && Inv(view) && view.IsTid(tf)
      modifies this`view, this`stdinWaiter, threads
      ensures Valid() && view == Detach(old(view), tf, target)
    {
      if target <= 0 || target >= threads.Length { SetA0(tf, -1); return; }
      var t := threads[target].core;
      if t.state == Unused { SetA0(tf, -3); return; }
      if target < cpus.Length { SetA0(tf, -2); return; }
      if t.joinWaiter >= 0 { SetA0(tf, -4); return; }
      if t.detached { SetA0(tf, 0); return; }
      Store(target, t.(detached := true));
      if t.state == Zombie {
        DeadIsUnqueuedOld(target, old(view));
        Free(target);
      }
      SetA0(tf, 0);
    }

    lemma DeadIsUnqueuedOld(i: int, v: State)
      requires Inv(v) && v.IsTid(i) && !v.threads[i].state.Runnable? && view.Sized() && |view.threads| == |v.threads|
      requires view.home == v.home
      ensures view.home[i] < 0
    {
      if i < |v.cpus| { assert IdleOK(v, i); } else { assert UserOK(v, i, -1); }
    }

    // ------------------------------------------------------------ console input

    /** console_read_nonblock on behalf of `reader`, whose buffer gets the bytes returned. */
    method ReadNonblock(len: nat, ghost reader: int) returns (data: seq<Byte>)
      requires Valid()
      modifies this`view, ring
      ensures Valid()
      ensures |data| == Min(len, |old(view).rx|) && data == old(view).rx[..|data|]
      ensures view == if |data| > 0 then TakeBytes(old(view), reader, |data|) else old(view)
    {
      data := ring.Take(len);
      if |data| > 0 { view := TakeBytes(view, reader, |data|); }
      SameLists(old(view), threads[..], rqs[..], view, threads[..]);
    }

    /** thread_wake. */
    method WakeBlocked(h: nat, tid: int)
      requires Valid() && view.IsHart(h)
      modifies this`view, this`panicked, threads, rqs
      ensures Valid() && view == Wake(old(view), h, tid)
    {
      if tid < 0 || tid >= threads.Length { return; }
      if threads[tid].core.state == Blocked { MakeReady(tid, h); }
    }

    /** thread_read_from_stdin. */
    method FeedWaiter(h: nat)
      requires Valid() && view.IsHart(h) && view.IsTid(view.stdinWaiter)
      modifies this`view, this`panicked, threads, rqs, ring
      ensures Valid() && view == FeedReader(old(view), h)
    {
      var t := threads[stdinWaiter].core;
      if t.readBuf == 0 || t.readLen == 0 {
        WakeBlocked(h, stdinWaiter);
        return;
      }
      var data := ReadNonblock(t.readLen, stdinWaiter);
      if |data| <= 0 { return; }
      Store(stdinWaiter, t.(a0 := |data|, readBuf := 0, readLen := 0));
      WakeBlocked(h, stdinWaiter);
    }

    method Arrive(b: Byte)
      requires Valid()
      modifies this`view, ring, ring.buf
      ensures Valid()
      ensures view == if |old(view).rx| < RING_CAPACITY then old(view).(rx := old(view).rx + [b]).Logged(Arrived(b, true))
                      else old(view).Logged(Arrived(b, false))
    {
      var kept := ring.Put(b);
      view := view.(rx := ring.Contents).Logged(Arrived(b, kept));
      SameLists(old(view), threads[..], rqs[..], view, threads[..]);
    }

    /** console_on_char_from_irq. */
    method OnByte(h: nat, b: Byte)
      requires Valid() && view.IsHart(h)
      modifies this`view, this`panicked, this`stdinWaiter, threads, rqs, ring, ring.buf
      ensures Valid() && view == OnChar(old(view), h, b)
    {
      Arrive(b);
      if stdinWaiter < 0 { return; }
      FeedWaiter(h);
      SetWaiter(NO_TID);
    }

    /** The receive loop of the UART interrupt. */
    method OnBytes(h: nat, bs: seq<Byte>)
      requires Valid() && view.IsHart(h)
      modifies this`view, this`panicked, this`stdinWaiter, threads, rqs, ring, ring.buf
      ensures Valid() && view == OnChars(old(view), h, bs)
    {
      var i := 0;
      ghost var v := view;
      while i < |bs|
        invariant 0 <= i <= |bs| && Valid() && view.IsHart(h)
        invariant OnChars(view, h, bs[i..]) == OnChars(v, h, bs)
      {
        assert bs[i..][1..] == bs[i + 1..];
        OnByte(h, bs[i]);
        i := i + 1;
      }
    }

    /** sys_read and its caller's result write. */
    method SysRead(h: nat, tf: int, fd: int, buf: nat, len: nat)
      requires Valid() && Inv(view) && view.Started(h) && |view.cpus| <= view.Current(h) && view.IsTid(tf)
      modifies this`view, this`panicked, this`stdinWaiter, threads, rqs, cpus, ring
      ensures Valid() && view == Read(old(view), h, tf, fd, buf, len)
    {
      if fd != 0 { SetA0(tf, -1); return; }
      var cur := cpus[h].currentTid;
      var data := ReadNonblock(len, cur);
      if |data| > 0 { SetA0(tf, |data|); return; }
      CoreWeakens(view, h);
      CurrentIsUnqueued(h);
      SetWaiter(cur);
      Store(cur, threads[cur].core.(readBuf := buf, readLen := len, state := Blocked));
      Reschedule(h, tf);
    }

    // ------------------------------------------------------------ interrupts and traps

    /** The time-slice half of sched_on_timer_irq. */
    method CountDown(h: nat, tf: int)
      requires Valid() && view.Started(h) && view.home[view.Current(h)] < 0
      modifies this`view, this`panicked, this`stdinWaiter, threads, rqs, cpus
      ensures Valid() && view == CountSlice(old(view), h, tf)
    {
      if cpus[h].sliceLeft > 0 {
        StoreCpu(h, cpus[h].(sliceLeft := cpus[h].sliceLeft - 1));
      }
      if cpus[h].sliceLeft == 0 {
        StoreCpu(h, cpus[h].(sliceLeft := SLICE_TICKS));
        assert view.cpus == old(view).cpus[h := old(view).cpus[h].(sliceLeft := SLICE_TICKS)];
        Reschedule(h, tf);
      }
    }

    /** sched_on_timer_irq. */
    method TimerIrq(h: nat, tf: int)
      requires Valid() && Inv(view) && view.Started(h)
      modifies this`view, this`panicked, this`ticks, this`stdinWaiter, threads, rqs, cpus
      ensures Valid() && view == OnTimer(old(view), h, tf)
    {
      TimeKeepsCore(h);
      if h == boot { Tick(); }
      CoreWeakens(view, h);
      CurrentIsUnqueued(h);
      CountDown(h, tf);
    }

    lemma TimeKeepsCore(h: nat)
      requires Valid() && Inv(view) && view.Started(h)
      ensures Inv(ThreadsTick(view)) && ThreadsTick(view).Started(h)
    {
      var s := view.(ticks := Plus64(view.ticks, 1));
      SameOwnershipKeepsCore(view, s, -1);
      TickKeepsCore(s, 0);
    }

    /** sched_on_ipi_irq; also what makes a hart let go of a thread killed from elsewhere. */
    method IpiIrq(h: nat, tf: int)
      requires Valid() && Core(view, h) && view.Started(h)
      modifies this`view, this`panicked, this`stdinWaiter, threads, rqs, cpus
      ensures Valid() && view == Schedule(old(view), h, tf)
    {
      CurrentIsUnqueued(h);
      Reschedule(h, tf);
    }

    /** The calls that may take the CPU away from their caller. */
    method HandleBlockingCall(h: nat, tf: int, c: Call)
      requires Valid() && Inv(view) && view.Started(h) && |view.cpus| <= view.Current(h)
      requires tf == view.cpus[h].curTf && view.IsTid(tf) && view.home[view.Current(h)] < 0
      requires c.SleepFor? || c.YieldCpu? || c.ExitWith? || c.JoinThread? || c.ReadInput?
      modifies this`view, this`panicked, this`words, this`stdinWaiter, threads, rqs, cpus, ring
      ensures Valid() && view == Syscall(old(view), h, c)
    {
      match c
      case SleepFor(n) => SysSleep(h, tf, n);
      case YieldCpu => SysSleep(h, tf, 0);
      case ExitWith(code) => SysExit(h, tf, code);
      case JoinThread(t, ptr) => SysJoin(h, tf, t, ptr);
      case ReadInput(fd, buf, len) => SysRead(h, tf, fd, buf, len);
    }

    /** syscall_handler. */
    method HandleSyscall(h: nat, tf: int, c: Call)
      requires Valid() && Inv(view) && Enabled(view, Sys(h, c)) && tf == view.cpus[h].curTf
      modifies this`view, this`panicked, this`words, this`stdinWaiter, threads, rqs, cpus, ring
      ensures old(view).IsTid(tf) && Valid() && view == Syscall(old(view), h, c)
    {
      SyscallKeepsInv(view, h, c);
      CoreWeakens(view, h);
      CurrentIsUnqueued(h);
      match c
      case CreateThread(arg) => SysCreate(h, tf, arg);
      case KillThread(t) => SysKill(h, tf, t);
      case DetachThread(t) => SysDetach(tf, t);
      case OtherCall(v) => SetA0(tf, v);
      case _ => HandleBlockingCall(h, tf, c);
    }

    /** cpu_init_this_hart. */
    method GoOnlineOn(h: nat)
      requires Valid() && view.IsHart(h) && !view.Started(h)
      modifies this`view, cpus
      ensures Valid() && view == BringOnline(old(view), h)
    {
      StoreCpu(h, Cpu(true, NO_TID, NO_TID, SLICE_TICKS));
    }

    /** cpu_enter_idle. */
    method EnterIdleOn(h: nat)
      requires Valid() && view.IsHart(h)
      modifies this`view, threads, cpus
      ensures Valid() && view == EnterIdle(old(view), h)
    {
      Store(h, threads[h].core.(state := Running, runningHart := h));
      StoreCpu(h, cpus[h].(currentTid := h, curTf := h));
    }

    /** trap_entry_c, from a state between traps: the code does what Trap says. */
    method TrapEntry(a: Action)
      requires Valid() && Inv(view) && Enabled(view, a)
      modifies this`view, this`panicked, this`ticks, this`words, this`stdinWaiter, threads, rqs, cpus, ring, ring.buf
      ensures Valid() && view == Trap(old(view), a)
    {
      match a
      case Timer(h) => FrameIsCurrent(view, h, -1); TimerIrq(h, cpus[h].curTf);
      case Ipi(h) => FrameIsCurrent(view, h, -1); CoreWeakens(view, h); IpiIrq(h, cpus[h].curTf);
      case Uart(h, bs) => FrameIsCurrent(view, h, -1); OnBytes(h, bs);
      case Sys(h, c) => FrameIsCurrent(view, h, -1); HandleSyscall(h, cpus[h].curTf, c);
      case GoOnline(h) => GoOnlineOn(h);
      case StartIdle(h) => EnterIdleOn(h);
    }

    /** One step of a run under E1: the trap, and when it was a kill of a thread that another
        hart is executing, that hart's interrupt. The invariant holds again afterwards. */
    method RunStep(a: Action)
      requires Valid() && Inv(view) && Enabled(view, a)
      modifies this`view, this`panicked, this`ticks, this`words, this`stdinWaiter, threads, rqs, cpus, ring, ring.buf
      ensures Valid() && view == Step(old(view), a) && Inv(view) && !panicked
    {
      StepKeepsInv(view, a);
      var victimHart := -1;
      if a.Sys? && a.call.KillThread? {
        KillLeavesVictim(view, a);
        var t := a.call.target;
        if 0 < t < threads.Length && t != cpus[a.hart].currentTid && threads[t].core.canBeKilled &&
           threads[t].core.state != Unused && threads[t].core.state != Zombie {
          victimHart := threads[t].core.runningHart;
        }
      }
      TrapEntry(a);
      if victimHart >= 0 && victimHart != a.hart {
        IpiIrq(victimHart, cpus[victimHart].curTf);
      }
    }

    lemma KillLeavesVictim(v: State, a: Action)
      requires Inv(v) && Enabled(v, a) && a.Sys? && a.call.KillThread?
      ensures VictimHart(v, a) == -1 || (Trap(v, a).Started(VictimHart(v, a)) && Core(Trap(v, a), VictimHart(v, a)))
      ensures v.IsTid(v.cpus[a.hart].curTf)
    {
      FrameIsCurrent(v, a.hart, -1);
      KillKeepsCore(v, a.hart, a.call.target);
      if KillTakesEffect(v, v.Current(a.hart), a.call.target) { VictimIsElsewhere(v, a.hart, a.call.target); }
    }
  }
}
