/** Each thread's life as its history shows it: created, terminated once, its exit code handed
    to at most one joiner, its slot freed once. */
module Lifecycle {
  import opened Bytes
  import opened KernelState
  import opened KernelOps
  import opened Partition
  import opened Steps
  import opened Safety
  import opened Links
  import opened JoinProtocol

  datatype Life = Vacant | Alive | Dead(code: int) | Claimed(code: int, joiner: int) | Broken

  /** Any event out of order breaks a life for good. */
  function Advance(l: Life, e: Event, i: int): Life {
    match e
    case Created(t) => if t != i then l else if l.Vacant? then Alive else Broken
    case Terminated(t, c) => if t != i then l else if l.Alive? then Dead(c) else Broken
    case Delivered(t, j, c) => if t != i then l else if l == Dead(c) then Claimed(c, j) else Broken
    case Recycled(t) => if t != i then l else if l.Dead? || l.Claimed? then Vacant else Broken
    case Arrived(_, _) => l
    case Consumed(_, _) => l
  }

  function LifeOf(log: seq<Event>, i: int): Life {
    if log == [] then Vacant else Advance(LifeOf(log[..|log| - 1], i), log[|log| - 1], i)
  }

  lemma LifeOfAppend(log: seq<Event>, e: Event, i: int)
    ensures LifeOf(log + [e], i) == Advance(LifeOf(log, i), e, i)
  {
    assert (log + [e])[..|log|] == log;
  }

  // ---------------------------------------------------------------- what the history alone says

  predicate About(e: Event, i: int) {
    match e
    case Created(t) => t == i
    case Terminated(t, _) => t == i
    case Delivered(t, _, _) => t == i
    case Recycled(t) => t == i
    case Arrived(_, _) => false
    case Consumed(_, _) => false
  }

  /** The last event about i in a history, or -1. */
  function LastAbout(log: seq<Event>, i: int): (m: int)
    ensures -1 <= m < |log|
    ensures m >= 0 ==> About(log[m], i)
    ensures forall k :: m < k < |log| ==> !About(log[k], i)
  {
    if log == [] then -1
    else if About(log[|log| - 1], i) then |log| - 1
    else LastAbout(log[..|log| - 1], i)
  }

  /** The life read off a history is fixed by the last event about the thread. */
  lemma {:induction false} LifeIsLastEvent(log: seq<Event>, i: int)
    requires !LifeOf(log, i).Broken?
    ensures var m := LastAbout(log, i);
      LifeOf(log, i) == (if m < 0 then Vacant else match log[m]
                         case Created(_) => Alive
                         case Terminated(_, c) => Dead(c)
                         case Delivered(_, j, c) => Claimed(c, j)
                         case Recycled(_) => Vacant
                         case _ => Broken)
  {
    if log != [] {
      LifeIsLastEvent(log[..|log| - 1], i);
    }
  }

  lemma {:induction false} PrefixNotBroken(log: seq<Event>, i: int, k: nat)
    requires k <= |log| && !LifeOf(log, i).Broken?
    ensures !LifeOf(log[..k], i).Broken?
    decreases |log|
  {
    if k < |log| {
      PrefixNotBroken(log[..|log| - 1], i, k);
      assert log[..|log| - 1][..k] == log[..k];
    } else {
      assert log[..k] == log;
    }
  }

  /** A delivered code is the code the thread last terminated with, and nothing happened to the
      thread in between; so a second delivery needs a new creation and a new termination. */
  lemma DeliveredCodeIsExitCode(log: seq<Event>, i: int, p: nat)
    requires p < |log| && log[p].Delivered? && log[p].tid == i && !LifeOf(log, i).Broken?
    ensures exists m :: 0 <= m < p && log[m] == Terminated(i, log[p].code) &&
                        forall k :: m < k < p ==> !About(log[k], i)
  {
    StepBack(log, i, p);
    var m := LastAbout(log[..p], i);
    assert log[..p][m] == log[m];
    forall k | m < k < p ensures !About(log[k], i) {
      assert log[..p][k] == log[k];
    }
  }

  lemma StepBack(log: seq<Event>, i: int, p: nat)
    requires p < |log| && !LifeOf(log, i).Broken?
    ensures !LifeOf(log[..p], i).Broken? && !Advance(LifeOf(log[..p], i), log[p], i).Broken?
    ensures var m := LastAbout(log[..p], i);
      LifeOf(log[..p], i) == (if m < 0 then Vacant else match log[m]
                         case Created(_) => Alive
                         case Terminated(_, c) => Dead(c)
                         case Delivered(_, j, c) => Claimed(c, j)
                         case Recycled(_) => Vacant
                         case _ => Broken)
  {
    PrefixNotBroken(log, i, p + 1);
    assert log[..p + 1] == log[..p] + [log[p]];
    LifeOfAppend(log[..p], log[p], i);
    LifeIsLastEvent(log[..p], i);
  }

  /** A slot is freed at most once per death: two frees have a termination between them. */
  lemma RecycledOncePerDeath(log: seq<Event>, i: int, p: nat, q: nat)
    requires p < q < |log| && log[p] == Recycled(i) && log[q] == Recycled(i) && !LifeOf(log, i).Broken?
    ensures exists m :: p < m < q && log[m].Terminated? && log[m].tid == i
  {
    DeathBefore(log, i, q, p);
  }

  /** A thread's exit code reaches at most one joiner: two deliveries have a termination between. */
  lemma DeliveredOncePerDeath(log: seq<Event>, i: int, p: nat, q: nat)
    requires p < q < |log| && log[p].Delivered? && log[q].Delivered? && log[p].tid == i == log[q].tid
    requires !LifeOf(log, i).Broken?
    ensures exists m :: p < m < q && log[m].Terminated? && log[m].tid == i
  {
    DeathBefore(log, i, q, p);
  }

  lemma DeathBefore(log: seq<Event>, i: int, q: nat, p: nat)
    requires p < q < |log| && !LifeOf(log, i).Broken?
    requires (log[q] == Recycled(i) && log[p] == Recycled(i)) ||
             (log[q].Delivered? && log[q].tid == i && log[p].Delivered? && log[p].tid == i)
    ensures exists m :: p < m < q && log[m].Terminated? && log[m].tid == i
  {
    StepBack(log, i, q);
    var m := LastAbout(log[..q], i);
    assert About(log[p], i) && log[..q][p] == log[p];
    assert p <= m;
    if log[m].Delivered? {
      StepBack(log, i, m);
      var n := LastAbout(log[..m], i);
      assert p != m ==> log[..m][p] == log[p];
    }
  }

  // ---------------------------------------------------------------- the history fits the table

  predicate LifeOK(s: State, i: int)
    requires s.IsTid(i)
  {
    var t := s.threads[i];
    match LifeOf(s.log, i)
    case Vacant => t.state.Unused?
    case Alive => Live(t)
    case Dead(c) => t.state.Zombie? && t.exitCode == c && t.joinWaiter < 0
    case Claimed(c, j) => t.state.Zombie? && t.joinWaiter == j >= 0
    case Broken => false
  }

  /** Every user thread's record agrees with its history. */
  predicate Historical(s: State) {
    s.Sized() && forall i :: |s.cpus| <= i < |s.threads| ==> LifeOK(s, i)
  }

  predicate SameLife(t: Thread, u: Thread) {
    && (t.state.Unused? <==> u.state.Unused?)
    && (t.state.Zombie? <==> u.state.Zombie?)
    && (t.state.Zombie? ==> u.exitCode == t.exitCode && u.joinWaiter == t.joinWaiter)
  }

  lemma QuietKeepsHistory(s: State, r: State)
    requires Historical(s) && r.Sized() && |r.threads| == |s.threads| && |r.cpus| == |s.cpus| && r.log == s.log
    requires forall i :: |s.cpus| <= i < |s.threads| ==> SameLife(s.threads[i], r.threads[i])
    ensures Historical(r)
  {
    forall i | |s.cpus| <= i < |s.threads| ensures LifeOK(r, i) {
      assert LifeOK(s, i);
    }
  }

  /** One event about thread i, whose record changes to match; all other lives go on. */
  lemma EventKeepsHistory(s: State, r: State, e: Event, i: int)
    requires Historical(s) && r.Sized() && |r.threads| == |s.threads| && |r.cpus| == |s.cpus|
    requires r.log == s.log + [e] && |s.cpus| <= i < |s.threads|
    requires forall k :: 0 <= k < |s.threads| && k != i ==> !About(e, k)
    requires forall k :: |s.cpus| <= k < |s.threads| && k != i ==> SameLife(s.threads[k], r.threads[k])
    requires LifeOf(r.log, i) == Advance(LifeOf(s.log, i), e, i) ==> LifeOK(r, i)
    ensures Historical(r)
  {
    hide LifeOf;
    forall k | |s.cpus| <= k < |s.threads| ensures LifeOK(r, k) {
      LifeOfAppend(s.log, e, k);
      assert LifeOK(s, k);
      if k != i {
        assert !About(e, k);
        assert SameLife(s.threads[k], r.threads[k]);
      }
    }
  }

  // ---------------------------------------------------------------- operations

  lemma ScheduleKeepsHistory(s: State, h: nat)
    requires Core(s, h) && s.Started(h) && Historical(s)
    ensures Historical(Schedule(s, h, s.cpus[h].curTf))
  {
    var r, cur := Schedule(s, h, s.cpus[h].curTf), s.Current(h);
    ScheduleEffect(s, h);
    assert CpuOK(s, h, h);
    if Reaped(s, h) {
      assert LifeOK(s, cur);
      EventKeepsHistory(s, r, Recycled(cur), cur);
    } else {
      QuietKeepsHistory(s, r);
    }
  }

  function DeathEvents(i: int, code: int, j: int, freed: bool): seq<Event> {
    [Terminated(i, code)] + (if j >= 0 then [Delivered(i, j, code)] else []) + (if freed then [Recycled(i)] else [])
  }

  /** A death takes a live thread to Dead, to Claimed when a joiner is served, and on to Vacant
      when the slot is freed; it concerns no other thread. */
  lemma DeathLife(log: seq<Event>, i: int, code: int, j: int, freed: bool, k: int)
    ensures var l := LifeOf(log + DeathEvents(i, code, j, freed), k);
      if k != i then l == LifeOf(log, k)
      else LifeOf(log, k).Alive? ==>
        l == if freed then Vacant else if j >= 0 then Claimed(code, j) else Dead(code)
  {
    var l1 := log + [Terminated(i, code)];
    LifeOfAppend(log, Terminated(i, code), k);
    var l2 := if j >= 0 then l1 + [Delivered(i, j, code)] else l1;
    LifeOfAppend(l1, Delivered(i, j, code), k);
    var l3 := if freed then l2 + [Recycled(i)] else l2;
    LifeOfAppend(l2, Recycled(i), k);
    assert log + DeathEvents(i, code, j, freed) == l3;
  }

  lemma DeathKeepsHistory(s: State, r: State, i: int, code: int, j: int, freed: bool)
    requires Historical(s) && r.Sized() && |r.threads| == |s.threads| && |r.cpus| == |s.cpus|
    requires |s.cpus| <= i < |s.threads| && Live(s.threads[i])
    requires r.log == s.log + DeathEvents(i, code, j, freed)
    requires forall k :: |s.cpus| <= k < |s.threads| && k != i ==> SameLife(s.threads[k], r.threads[k])
    requires if freed then r.threads[i].state.Unused?
             else r.threads[i].state.Zombie? && r.threads[i].exitCode == code &&
                  (if j >= 0 then r.threads[i].joinWaiter == j else r.threads[i].joinWaiter < 0)
    ensures Historical(r)
  {
    forall k | |s.cpus| <= k < |s.threads| ensures LifeOK(r, k) {
      assert LifeOK(s, k);
      DeathLife(s.log, i, code, j, freed, k);
      if k != i { assert SameLife(s.threads[k], r.threads[k]); }
    }
  }

  lemma DieKeepsHistory(s: State, h: nat, code: int)
    requires Inv(s) && Linked(s) && Historical(s) && s.Started(h) && |s.cpus| <= s.Current(h)
    ensures Historical(Die(s, h, code))
  {
    var cur, r := s.Current(h), Die(s, h, code);
    var j := s.threads[cur].joinWaiter;
    DieRecords(s, h, code);
    CurrentIsRunning(s, h);
    assert UserOK(s, cur, -1);
    assert r.log == s.log + DeathEvents(cur, code, j, j >= 0);
    DeathKeepsHistory(s, r, cur, code, j, j >= 0);
  }

  lemma KillChangesKeepHistory(s: State, r: State, cur: int, target: int)
    requires Historical(s) && |s.cpus| <= target < |s.threads| && s.IsTid(cur) && cur != target && SameShape(s, r)
    requires KillChanges(s, r, cur, target) && Live(s.threads[target]) && s.threads[cur].state.Running?
    requires -1 <= s.threads[target].joinWaiter
    ensures Historical(r)
  {
    var t := s.threads[target];
    assert r.log == s.log + DeathEvents(target, SIGKILL_CODE, t.joinWaiter, FreedByKill(t));
    DeathKeepsHistory(s, r, target, SIGKILL_CODE, t.joinWaiter, FreedByKill(t));
  }

  lemma KillStepKeepsHistory(s: State, h: nat, target: int)
    requires Inv(s) && Linked(s) && Historical(s) && Enabled(s, Sys(h, KillThread(target)))
    requires SparesWaiters(s, Sys(h, KillThread(target))) && s.cpus[h].curTf == s.Current(h)
    ensures Historical(Step(s, Sys(h, KillThread(target))))
  {
    KillStepIs(s, h, target);
    KillKeepsCore(s, h, target);
    var cur := s.Current(h);
    if KillTakesEffect(s, cur, target) {
      var r, t := Kill(s, h, cur, target), s.threads[target];
      VictimIsElsewhere(s, h, target);
      KillRecords(s, h, target);
      CurrentIsRunning(s, h);
      assert UserOK(s, target, -1);
      KillChangesKeepHistory(s, r, cur, target);
      if t.runningHart >= 0 { ScheduleKeepsHistory(r, t.runningHart); }
    } else {
      QuietKeepsHistory(s, s.WithA0(cur, KillRefusal(s, cur, target)));
    }
  }

  lemma CollectKeepsHistory(s: State, h: nat, target: int, ptr: nat)
    requires Inv(s) && Linked(s) && Historical(s) && s.Started(h) && 0 < target < |s.threads|
    requires s.threads[target].state.Zombie?
    ensures Historical(Collect(s, s.Current(h), target, ptr))
  {
    var cur, t := s.Current(h), s.threads[target];
    IdleFacts(s, target, -1);
    ZombiesHaveNoJoiner(s, target);
    assert LifeOK(s, target);
    var d := s.(words := WithWord(s.words, ptr, t.exitCode)).Logged(Delivered(target, cur, t.exitCode))
              .WithThread(target, t.(joinWaiter := cur));
    EventKeepsHistory(s, d, Delivered(target, cur, t.exitCode), target);
    assert LifeOK(d, target);
    EventKeepsHistory(d, Collect(s, cur, target, ptr), Recycled(target), target);
  }

  lemma DetachKeepsHistory(s: State, tf: int, target: int)
    requires Inv(s) && Linked(s) && Historical(s) && s.IsTid(tf)
    ensures Historical(Detach(s, tf, target))
  {
    if DetachTakesEffect(s, target) {
      var r := Release(s, target);
      assert LifeOK(s, target);
      if s.threads[target].state.Zombie? {
        EventKeepsHistory(s, r, Recycled(target), target);
      } else {
        QuietKeepsHistory(s, r);
      }
      QuietKeepsHistory(r, r.WithA0(tf, 0));
    } else {
      QuietKeepsHistory(s, s.WithA0(tf, DetachRefusal(s, target)));
    }
  }

  lemma CreateKeepsHistory(s: State, h: nat, arg: int)
    requires Inv(s) && Linked(s) && Historical(s) && s.Started(h)
    ensures Historical(Create(s, h, s.Current(h), arg))
  {
    var tid := AllocFrom(s, 1);
    AllocIsUser(s, -1);
    if tid < 0 {
      QuietKeepsHistory(s, s.WithA0(s.Current(h), -1));
    } else {
      SpawnKeepsCore(s, -1, h, tid, arg);
      var p := Spawn(s, h, tid, arg);
      assert LifeOK(s, tid);
      EventKeepsHistory(s, p, Created(tid), tid);
      QuietKeepsHistory(p, p.WithA0(s.Current(h), tid));
    }
  }

  predicate ConsoleEvents(es: seq<Event>) {
    forall k :: 0 <= k < |es| ==> es[k].Arrived? || es[k].Consumed?
  }

  lemma {:induction false} ConsoleEventsAreNoLife(log: seq<Event>, es: seq<Event>, i: int)
    requires ConsoleEvents(es)
    ensures LifeOf(log + es, i) == LifeOf(log, i)
    decreases |es|
  {
    if es == [] {
      assert log + es == log;
    } else {
      ConsoleEventsAreNoLife(log, es[..|es| - 1], i);
      assert log + es == (log + es[..|es| - 1]) + [es[|es| - 1]];
      LifeOfAppend(log + es[..|es| - 1], es[|es| - 1], i);
    }
  }

  lemma ConsoleKeepsHistory(s: State, r: State, es: seq<Event>)
    requires Historical(s) && r.Sized() && |r.threads| == |s.threads| && |r.cpus| == |s.cpus|
    requires r.log == s.log + es && ConsoleEvents(es)
    requires forall i :: |s.cpus| <= i < |s.threads| ==> SameLife(s.threads[i], r.threads[i])
    ensures Historical(r)
  {
    forall i | |s.cpus| <= i < |s.threads| ensures LifeOK(r, i) {
      assert LifeOK(s, i);
      ConsoleEventsAreNoLife(s.log, es, i);
    }
  }

  /** The events of one arriving byte. */
  function ByteEvents(s: State, b: Byte): seq<Event> {
    var kept := |s.rx| < RING_CAPACITY;
    var rx := if kept then s.rx + [b] else s.rx;
    [Arrived(b, kept)] +
    if !s.IsTid(s.stdinWaiter) then []
    else
      var t := s.threads[s.stdinWaiter];
      var n := Min(t.readLen, |rx|);
      if t.readBuf == 0 || n <= 0 then [] else [Consumed(s.stdinWaiter, rx[..n])]
  }

  lemma CharEvents(s: State, h: nat, b: Byte)
    requires s.Sized() && s.IsHart(h)
    ensures OnChar(s, h, b).log == s.log + ByteEvents(s, b)
  {
    var kept := |s.rx| < RING_CAPACITY;
    var s1 := if kept then s.(rx := s.rx + [b]).Logged(Arrived(b, true)) else s.Logged(Arrived(b, false));
    if s1.stdinWaiter >= 0 {
      FeedEvents(s1, h);
    }
  }

  lemma FeedEvents(s: State, h: nat)
    requires s.Sized() && s.IsHart(h) && s.IsTid(s.stdinWaiter)
    ensures var t := s.threads[s.stdinWaiter];
      var n := Min(t.readLen, |s.rx|);
      FeedReader(s, h).log == s.log + if t.readBuf == 0 || n <= 0 then [] else [Consumed(s.stdinWaiter, s.rx[..n])]
  {
  }

  lemma FeedLives(s: State, h: nat)
    requires s.Sized() && s.IsHart(h) && s.IsTid(s.stdinWaiter)
    ensures forall i :: |s.cpus| <= i < |s.threads| ==> SameLife(s.threads[i], FeedReader(s, h).threads[i])
  {
  }

  lemma CharLives(s: State, h: nat, b: Byte)
    requires s.Sized() && s.IsHart(h)
    ensures forall i :: |s.cpus| <= i < |s.threads| ==> SameLife(s.threads[i], OnChar(s, h, b).threads[i])
  {
    var s1 := if |s.rx| < RING_CAPACITY then s.(rx := s.rx + [b]).Logged(Arrived(b, true)) else s.Logged(Arrived(b, false));
    if s1.stdinWaiter >= 0 { FeedLives(s1, h); }
  }

  lemma CharKeepsHistory(s: State, h: nat, b: Byte)
    requires Inv(s) && Historical(s) && s.IsHart(h)
    ensures Historical(OnChar(s, h, b))
  {
    CharEvents(s, h, b);
    CharLives(s, h, b);
    ConsoleKeepsHistory(s, OnChar(s, h, b), ByteEvents(s, b));
  }

  lemma {:induction false} CharsKeepHistory(s: State, h: nat, bs: seq<Byte>)
    requires Inv(s) && Historical(s) && s.IsHart(h)
    ensures Historical(OnChars(s, h, bs))
    decreases |bs|
  {
    if bs != [] {
      CharKeepsInv(s, h, bs[0]);
      CharKeepsHistory(s, h, bs[0]);
      CharsKeepHistory(OnChar(s, h, bs[0]), h, bs[1..]);
    }
  }

  lemma CountSliceKeepsHistory(s: State, h: nat)
    requires Inv(s) && Historical(s) && s.Started(h)
    ensures Historical(CountSlice(s, h, s.Current(h)))
  {
    CountSliceCases(s, h);
    if s.cpus[h].sliceLeft > 1 {
      QuietKeepsHistory(s, CountSlice(s, h, s.Current(h)));
    } else {
      QuietKeepsHistory(s, Expired(s, h));
      ScheduleKeepsHistory(Expired(s, h), h);
    }
  }

  lemma TimerKeepsHistory(s: State, h: nat)
    requires Inv(s) && Historical(s) && s.Started(h)
    ensures Historical(OnTimer(s, h, s.Current(h)))
  {
    ClockedKeepsInv(s, h);
    ClockedRecords(s, h);
    QuietKeepsHistory(s, Clocked(s, h));
    CountSliceKeepsHistory(Clocked(s, h), h);
  }

  lemma BlockKeepsHistory(s: State, h: nat, t: Thread, w: int)
    requires Inv(s) && Historical(s) && s.Started(h) && |s.cpus| <= s.Current(h)
    requires w == s.stdinWaiter || w == s.Current(h)
    requires SameLife(s.threads[s.Current(h)], t) && t.joinWaiter == s.threads[s.Current(h)].joinWaiter
    requires !t.state.Runnable? && t.runningHart == s.threads[s.Current(h)].runningHart
    ensures var r := s.(stdinWaiter := w).WithThread(s.Current(h), t);
            Core(r, h) && Historical(r) && Historical(Schedule(r, h, s.Current(h)))
  {
    var s1 := s.(stdinWaiter := w);
    SameOwnershipKeepsCore(s, s1, -1);
    CurrentIsRunning(s, h);
    CurrentChanges(s1, h, t);
    QuietKeepsHistory(s, s1.WithThread(s.Current(h), t));
    ScheduleKeepsHistory(s1.WithThread(s.Current(h), t), h);
  }

  lemma JoinKeepsHistory(s: State, h: nat, target: int, ptr: nat)
    requires Inv(s) && Linked(s) && Historical(s) && s.Started(h) && |s.cpus| <= s.Current(h)
    ensures Historical(Join(s, h, s.Current(h), target, ptr))
  {
    var cur := s.Current(h);
    FrameIsCurrent(s, h, -1);
    match JoinOutcome(s, cur, target)
    case JoinError(code) => QuietKeepsHistory(s, s.WithA0(cur, code));
    case JoinDead =>
      CollectKeepsHistory(s, h, target, ptr);
      QuietKeepsHistory(Collect(s, cur, target, ptr), Join(s, h, cur, target, ptr));
    case JoinWait =>
      CurrentIsRunning(s, h);
      AwaitExitKeepsCore(s, h, target, ptr);
      QuietKeepsHistory(s, AwaitExit(s, cur, target, ptr));
      ScheduleKeepsHistory(AwaitExit(s, cur, target, ptr), h);
  }

  lemma ReadKeepsHistory(s: State, h: nat, fd: int, buf: nat, len: nat)
    requires Inv(s) && Historical(s) && s.Started(h) && |s.cpus| <= s.Current(h)
    ensures Historical(Read(s, h, s.Current(h), fd, buf, len))
  {
    var cur, n := s.Current(h), Min(len, |s.rx|);
    FrameIsCurrent(s, h, -1);
    if fd != 0 {
      QuietKeepsHistory(s, s.WithA0(cur, -1));
    } else if n > 0 {
      ConsoleKeepsHistory(s, TakeBytes(s, cur, n).WithA0(cur, n), [Consumed(cur, s.rx[..n])]);
    } else {
      CurrentIsRunning(s, h);
      BlockKeepsHistory(s, h, s.threads[cur].(readBuf := buf, readLen := len, state := Blocked), cur);
    }
  }

  lemma SleepKeepsHistory(s: State, h: nat, n: U64)
    requires Inv(s) && Historical(s) && s.Started(h) && |s.cpus| <= s.Current(h)
    ensures Historical(Sleep(s, h, s.Current(h), n))
  {
    FrameIsCurrent(s, h, -1);
    CurrentIsRunning(s, h);
    if n == 0 {
      CoreWeakens(s, h);
      ScheduleKeepsHistory(s, h);
    } else {
      BlockKeepsHistory(s, h, s.threads[s.Current(h)].(state := Sleeping,
                        wakeupTick := Plus64(s.ticks, n)), s.stdinWaiter);
      assert s.(stdinWaiter := s.stdinWaiter) == s;
    }
  }

  lemma ExitKeepsHistory(s: State, h: nat, code: int)
    requires Inv(s) && Linked(s) && Historical(s) && s.Started(h) && |s.cpus| <= s.Current(h)
    ensures Historical(Exit(s, h, s.Current(h), code))
  {
    FrameIsCurrent(s, h, -1);
    DieKeepsHistory(s, h, code);
    DieVacatesOnSchedule(s, h, code);
    DieKeepsCpus(s, h, code);
    ScheduleKeepsHistory(Die(s, h, code), h);
  }

  // ---------------------------------------------------------------- the theorem

  lemma SyscallKeepsHistory(s: State, h: nat, c: Call)
    requires Inv(s) && Linked(s) && Historical(s) && Enabled(s, Sys(h, c)) && !c.KillThread?
    requires s.cpus[h].curTf == s.Current(h)
    ensures Historical(Syscall(s, h, c))
  {
    SyscallKeepsInv(s, h, c);
    var cur := s.Current(h);
    match c
    case SleepFor(n) => SleepKeepsHistory(s, h, n);
    case YieldCpu => SleepKeepsHistory(s, h, 0);
    case ExitWith(code) => ExitKeepsHistory(s, h, code);
    case JoinThread(t, ptr) => JoinKeepsHistory(s, h, t, ptr);
    case CreateThread(arg) => CreateKeepsHistory(s, h, arg);
    case DetachThread(t) => DetachKeepsHistory(s, cur, t);
    case ReadInput(fd, buf, len) => ReadKeepsHistory(s, h, fd, buf, len);
    case OtherCall(v) => QuietKeepsHistory(s, s.WithA0(cur, v));
  }

  /** Every step under E1 and E2 keeps each thread's record in agreement with its history. */
  lemma StepKeepsHistory(s: State, a: Action)
    requires Inv(s) && Linked(s) && Historical(s) && Enabled(s, a) && SparesWaiters(s, a)
    ensures Historical(Step(s, a))
  {
    if s.Started(a.hart) { FrameIsCurrent(s, a.hart, -1); }
    match a
    case Timer(h) => TimerKeepsHistory(s, h);
    case Ipi(h) => CoreWeakens(s, h); ScheduleKeepsHistory(s, h);
    case Uart(h, bs) => CharsKeepHistory(s, h, bs);
    case GoOnline(h) => QuietKeepsHistory(s, Step(s, a));
    case StartIdle(h) => QuietKeepsHistory(s, Step(s, a));
    case Sys(h, c) =>
      if c.KillThread? { KillStepKeepsHistory(s, h, c.target); } else { SyscallKeepsHistory(s, h, c); }
  }
}
