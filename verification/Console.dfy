/** Console input: no byte is lost, duplicated or reordered between arrival and the reads. */
module Console {
  import opened Bytes
  import opened KernelState
  import opened KernelOps
  import opened Partition
  import opened Steps
  import opened Safety
  import opened Links
  import opened JoinProtocol
  import opened Lifecycle
  import opened Bystanders
  import opened Quietness
  import opened Blocking

  // ---------------------------------------------------------------- conservation

  /** The kept bytes are the bytes read so far followed by the ring; drops happened exactly at
      a full ring. */
  predicate Balanced(s: State) {
    Kept(s.log) == Taken(s.log) + s.rx && |s.rx| <= 1023 && Honest(s.log)
  }

  lemma ArrivalKeepsBalance(s: State, b: Byte)
    requires Balanced(s)
    ensures Balanced(if |s.rx| < RING_CAPACITY then s.(rx := s.rx + [b]).Logged(Arrived(b, true))
                     else s.Logged(Arrived(b, false)))
  {
    assert (s.log + [Arrived(b, true)])[..|s.log|] == s.log;
    assert (s.log + [Arrived(b, false)])[..|s.log|] == s.log;
    assert Kept(s.log) + [b] == Taken(s.log) + (s.rx + [b]);
  }

  lemma TakeKeepsBalance(s: State, reader: int, n: nat)
    requires s.Sized() && Balanced(s) && n <= |s.rx|
    ensures Balanced(TakeBytes(s, reader, n))
  {
    assert (s.log + [Consumed(reader, s.rx[..n])])[..|s.log|] == s.log;
    assert s.rx == s.rx[..n] + s.rx[n..];
    assert Taken(s.log) + s.rx == (Taken(s.log) + s.rx[..n]) + s.rx[n..];
  }

  lemma FeedKeepsBalance(s: State, h: nat)
    requires s.Sized() && s.IsHart(h) && s.IsTid(s.stdinWaiter) && Balanced(s)
    ensures Balanced(FeedReader(s, h))
  {
    var t := s.threads[s.stdinWaiter];
    TakeKeepsBalance(s, s.stdinWaiter, Min(t.readLen, |s.rx|));
  }

  lemma {:induction false} CharsKeepBalance(s: State, h: nat, bs: seq<Byte>)
    requires s.Sized() && s.IsHart(h) && Balanced(s)
    ensures Balanced(OnChars(s, h, bs))
    decreases |bs|
  {
    if bs != [] {
      ArrivalKeepsBalance(s, bs[0]);
      var s1 := if |s.rx| < RING_CAPACITY then s.(rx := s.rx + [bs[0]]).Logged(Arrived(bs[0], true))
                else s.Logged(Arrived(bs[0], false));
      if s1.stdinWaiter >= 0 { FeedKeepsBalance(s1, h); }
      CharsKeepBalance(OnChar(s, h, bs[0]), h, bs[1..]);
    }
  }

  lemma ReadKeepsBalance(s: State, h: nat, tf: int, fd: int, buf: nat, len: nat)
    requires s.Sized() && s.Started(h) && s.IsTid(tf) && Balanced(s)
    ensures Balanced(Read(s, h, tf, fd, buf, len))
  {
    TakeKeepsBalance(s, s.Current(h), Min(len, |s.rx|));
    var m := AwaitInput(s, s.Current(h), buf, len);
    ScheduleIsQuiet(m, h, tf);
    assert Balanced(m);
  }

  lemma BalanceIsConsole(s: State, r: State)
    requires Balanced(s) && r.Console() == s.Console()
    ensures Balanced(r)
  {
  }

  /** Conservation needs no assumption: every step keeps it. */
  lemma StepKeepsBalance(s: State, a: Action)
    requires Inv(s) && Enabled(s, a) && Balanced(s)
    ensures Balanced(Step(s, a))
  {
    if s.Started(a.hart) { FrameIsCurrent(s, a.hart, -1); }
    if TouchesConsole(a) {
      match a
      case Uart(h, bs) => CharsKeepBalance(s, h, bs);
      case Sys(h, c) => ReadKeepsBalance(s, h, s.Current(h), c.fd, c.buf, c.len);
    } else {
      StepQuietness(s, a);
      BalanceIsConsole(s, Step(s, a));
    }
  }

  // ---------------------------------------------------------------- which bytes arrive and who gets them

  /** The bytes that an action brings in. */
  function Incoming(a: Action): seq<Byte> {
    if a.Uart? then a.bytes else []
  }

  /** What the registered reader gets when the ring holds rx. */
  function Served(s: State, rx: seq<Byte>): seq<Byte> {
    if !s.IsTid(s.stdinWaiter) then []
    else
      var t := s.threads[s.stdinWaiter];
      var n := Min(t.readLen, |rx|);
      if t.readBuf == 0 || n <= 0 then [] else rx[..n]
  }

  /** The bytes that an action hands to a reader, told from the state before it: a read takes what
      it asked for off the ring; a first arriving byte may serve the registered reader. */
  function Got(s: State, a: Action): seq<Byte>
    requires s.Sized() && Enabled(s, a)
  {
    match a
    case Uart(_, bs) => if bs == [] then [] else Served(s, if |s.rx| < RING_CAPACITY then s.rx + [bs[0]] else s.rx)
    case Sys(_, c) => if c.ReadInput? && c.fd == 0 then s.rx[..Min(c.len, |s.rx|)] else []
    case _ => []
  }

  /** The reader that gets them. */
  function Getter(s: State, a: Action): int
    requires s.Sized() && Enabled(s, a)
  {
    if a.Sys? then s.Current(a.hart) else s.stdinWaiter
  }

  lemma LoggedArrival(log: seq<Event>, b: Byte, kept: bool)
    ensures Arrivals(log + [Arrived(b, kept)]) == Arrivals(log) + [b] && Taken(log + [Arrived(b, kept)]) == Taken(log)
  {
    assert (log + [Arrived(b, kept)])[..|log|] == log;
  }

  lemma LoggedTaking(log: seq<Event>, reader: int, bs: seq<Byte>)
    ensures Arrivals(log + [Consumed(reader, bs)]) == Arrivals(log) && Taken(log + [Consumed(reader, bs)]) == Taken(log) + bs
  {
    assert (log + [Consumed(reader, bs)])[..|log|] == log;
  }

  lemma CharTakes(s: State, h: nat, b: Byte)
    requires s.Sized() && s.IsHart(h)
    ensures var r, got := OnChar(s, h, b), Served(s, if |s.rx| < RING_CAPACITY then s.rx + [b] else s.rx);
      && Arrivals(r.log) == Arrivals(s.log) + [b] && Taken(r.log) == Taken(s.log) + got && r.stdinWaiter < 0
      && (got != [] ==> s.IsTid(s.stdinWaiter) && r.threads[s.stdinWaiter].a0 == |got|)
  {
    hide Arrivals;
    hide Taken;
    CharEvents(s, h, b);
    var kept := |s.rx| < RING_CAPACITY;
    var got := Served(s, if kept then s.rx + [b] else s.rx);
    LoggedArrival(s.log, b, kept);
    LoggedTaking(s.log + [Arrived(b, kept)], s.stdinWaiter, got);
    assert ByteEvents(s, b) == if got == [] then [Arrived(b, kept)] else [Arrived(b, kept)] + [Consumed(s.stdinWaiter, got)];
    assert s.log + ([Arrived(b, kept)] + [Consumed(s.stdinWaiter, got)]) ==
           s.log + [Arrived(b, kept)] + [Consumed(s.stdinWaiter, got)];
  }

  lemma {:induction false} LaterCharsTakeNothing(s: State, h: nat, bs: seq<Byte>)
    requires s.Sized() && s.IsHart(h) && s.stdinWaiter < 0
    ensures var r := OnChars(s, h, bs);
      Arrivals(r.log) == Arrivals(s.log) + bs && Taken(r.log) == Taken(s.log)
    decreases |bs|
  {
    if bs != [] {
      CharTakes(s, h, bs[0]);
      LaterCharsTakeNothing(OnChar(s, h, bs[0]), h, bs[1..]);
      assert Arrivals(s.log) + [bs[0]] + bs[1..] == Arrivals(s.log) + bs;
    }
  }

  lemma NothingComes(s: State, h: nat)
    requires s.Sized() && s.Started(h)
    ensures OnChars(s, h, []) == s && Got(s, Uart(h, [])) == []
  {
  }

  lemma UartTakes(s: State, h: nat, bs: seq<Byte>)
    requires Inv(s) && s.Started(h)
    ensures var r, got := OnChars(s, h, bs), Got(s, Uart(h, bs));
      && Arrivals(r.log) == Arrivals(s.log) + bs && Taken(r.log) == Taken(s.log) + got
      && (got != [] ==> s.IsTid(s.stdinWaiter) && r.threads[s.stdinWaiter].a0 == |got|)
  {
    hide Arrivals;
    hide Taken;
    hide Served;
    hide OnChar;
    if bs == [] {
      NothingComes(s, h);
    } else {
      CharTakes(s, h, bs[0]);
      LaterCharsTakeNothing(OnChar(s, h, bs[0]), h, bs[1..]);
      CharsWithoutReader(OnChar(s, h, bs[0]), h, bs[1..]);
      assert Arrivals(s.log) + [bs[0]] + bs[1..] == Arrivals(s.log) + bs;
    }
  }

  lemma ReadTakes(s: State, h: nat, fd: int, buf: nat, len: nat)
    requires s.Sized() && s.Started(h) && s.threads[s.Current(h)].isUser
    ensures var r, cur := Read(s, h, s.Current(h), fd, buf, len), s.Current(h);
      var got := Got(s, Sys(h, ReadInput(fd, buf, len)));
      && Arrivals(r.log) == Arrivals(s.log) && Taken(r.log) == Taken(s.log) + got
      && (got != [] ==> r.threads[cur].a0 == |got|)
  {
    hide Schedule;
    hide Arrivals;
    hide Taken;
    hide Kept;
    hide Honest;
    var n := Min(len, |s.rx|);
    if fd == 0 && n > 0 {
      LoggedTaking(s.log, s.Current(h), s.rx[..n]);
    } else {
      ScheduleIsQuiet(AwaitInput(s, s.Current(h), buf, len), h, s.Current(h));
      assert Taken(s.log) + [] == Taken(s.log);
    }
  }

  /** What a step logs of input is what really happens: the arrivals are the action's bytes, and the
      bytes taken are those its reader gets, whose result is their number. */
  lemma StepMovesInput(s: State, a: Action)
    requires Inv(s) && Enabled(s, a)
    ensures var r, got := Step(s, a), Got(s, a);
      && Arrivals(r.log) == Arrivals(s.log) + Incoming(a)
      && Taken(r.log) == Taken(s.log) + got
      && (got != [] ==> r.IsTid(Getter(s, a)) && r.threads[Getter(s, a)].a0 == |got|)
  {
    hide Arrivals;
    hide Taken;
    hide Kept;
    hide Honest;
    hide Schedule;
    hide OnChars;
    hide Read;
    hide Served;
    if s.Started(a.hart) { FrameIsCurrent(s, a.hart, -1); }
    if a.Uart? {
      UartTakes(s, a.hart, a.bytes);
    } else if TouchesConsole(a) {
      ReadTakes(s, a.hart, a.call.fd, a.call.buf, a.call.len);
      assert Arrivals(s.log) + [] == Arrivals(s.log);
    } else {
      StepQuietness(s, a);
      QuietMovesNoInput(s, Step(s, a));
    }
  }

  lemma QuietMovesNoInput(s: State, r: State)
    requires r.Console() == s.Console()
    ensures Arrivals(r.log) == Arrivals(s.log) + [] && Taken(r.log) == Taken(s.log) + []
  {
  }

  // ---------------------------------------------------------------- the blocked reader

  /** At most one thread is blocked; it is the registered reader, it wants bytes, and no byte
      is buffered while it sleeps. */
  predicate ReaderServed(s: State) {
    && (forall i :: 0 <= i < |s.threads| && s.threads[i].state.Blocked? ==>
          i == s.stdinWaiter && s.rx == [] && s.threads[i].readBuf != 0 && s.threads[i].readLen > 0)
    && (s.stdinWaiter >= 0 ==> s.stdinWaiter < |s.threads| && s.threads[s.stdinWaiter].state.Blocked?)
  }

  /** Checked before the step: a read asks for at least one byte, into a real buffer and with no
      other reader outstanding if it has to block; and a kill that takes effect spares the
      blocked reader unless the victim's slot is freed at once. */
  predicate OneReader(s: State, a: Action)
    requires s.Sized() && Enabled(s, a)
  {
    a.Sys? ==>
      match a.call
      case ReadInput(fd, buf, len) => fd == 0 ==> len > 0 && (s.rx == [] ==> buf != 0 && s.stdinWaiter < 0)
      case KillThread(t) => KillTakesEffect(s, s.Current(a.hart), t) && s.threads[t].state.Blocked? ==>
                              FreedByKill(s.threads[t])
      case _ => true
  }

  /** Traps that do not touch the console leave a blocked reader registered. */
  lemma ReaderStaysRegistered(s: State, a: Action)
    requires Inv(s) && Linked(s) && Enabled(s, a) && SparesWaiters(s, a) && !TouchesConsole(a)
    requires s.stdinWaiter >= 0 ==> s.threads[s.stdinWaiter].state.Blocked? && !Kills(s, a, s.stdinWaiter)
    ensures Step(s, a).stdinWaiter == s.stdinWaiter
  {
    if s.Started(a.hart) { CurrentIsRunning(s, a.hart); }
    match a
    case Timer(h) => TimerKeepsReader(s, h);
    case Ipi(h) => CoreWeakens(s, h); ScheduleEffect(s, h);
    case GoOnline(h) =>
    case StartIdle(h) =>
    case Sys(h, c) =>
      if c.KillThread? { KillKeepsReader(s, h, c.target); } else { SyscallKeepsReader(s, h, c); }
  }

  lemma TimerKeepsReader(s: State, h: nat)
    requires Inv(s) && s.Started(h) && s.stdinWaiter != s.Current(h)
    ensures OnTimer(s, h, s.Current(h)).stdinWaiter == s.stdinWaiter
  {
    ClockedKeepsInv(s, h);
    ClockedRecords(s, h);
    SliceKeepsReader(Clocked(s, h), h);
  }

  lemma SliceKeepsReader(s: State, h: nat)
    requires Inv(s) && s.Started(h) && s.stdinWaiter != s.Current(h)
    ensures CountSlice(s, h, s.Current(h)).stdinWaiter == s.stdinWaiter
  {
    CountSliceCases(s, h);
    if s.cpus[h].sliceLeft == 1 { ScheduleKeepsReader(Expired(s, h), h); }
  }

  lemma KillKeepsReader(s: State, h: nat, target: int)
    requires Inv(s) && Linked(s) && Enabled(s, Sys(h, KillThread(target))) && s.cpus[h].curTf == s.Current(h)
    requires KillTakesEffect(s, s.Current(h), target) ==> s.stdinWaiter != target
    ensures Step(s, Sys(h, KillThread(target))).stdinWaiter == s.stdinWaiter
  {
    KillStepIs(s, h, target);
    KillKeepsCore(s, h, target);
    if KillTakesEffect(s, s.Current(h), target) {
      var r, v := Kill(s, h, s.Current(h), target), s.threads[target].runningHart;
      VictimIsElsewhere(s, h, target);
      KillRecords(s, h, target);
      assert UserOK(s, target, -1);
      if v >= 0 { ScheduleKeepsReader(r, v); }
    }
  }

  lemma ScheduleKeepsReader(m: State, h: nat)
    requires Core(m, h) && m.Started(h) && m.stdinWaiter != m.Current(h)
    ensures Schedule(m, h, m.cpus[h].curTf).stdinWaiter == m.stdinWaiter
  {
    ScheduleEffect(m, h);
  }

  lemma SyscallKeepsReader(s: State, h: nat, c: Call)
    requires Inv(s) && Linked(s) && Enabled(s, Sys(h, c)) && !c.KillThread? && !c.ReadInput?
    requires s.cpus[h].curTf == s.Current(h) && s.threads[s.Current(h)].state.Running?
    requires s.stdinWaiter >= 0 ==> s.threads[s.stdinWaiter].state.Blocked?
    ensures Syscall(s, h, c).stdinWaiter == s.stdinWaiter
  {
    SyscallKeepsInv(s, h, c);
    var cur := s.Current(h);
    match c
    case SleepFor(n) => SleepKeepsReader(s, h, n);
    case YieldCpu => SleepKeepsReader(s, h, 0);
    case ExitWith(code) =>
      DieRecords(s, h, code);
      DieVacatesOnSchedule(s, h, code);
      ScheduleKeepsReader(Die(s, h, code), h);
    case JoinThread(t, ptr) =>
      if JoinOutcome(s, cur, t).JoinWait? {
        AwaitExitKeepsCore(s, h, t, ptr);
        ScheduleKeepsReader(AwaitExit(s, cur, t, ptr), h);
      }
    case CreateThread(arg) =>
    case DetachThread(t) =>
    case OtherCall(v) =>
  }

  lemma SleepKeepsReader(s: State, h: nat, n: U64)
    requires Inv(s) && s.Started(h) && |s.cpus| <= s.Current(h) && s.stdinWaiter != s.Current(h)
    ensures Sleep(s, h, s.Current(h), n).stdinWaiter == s.stdinWaiter
  {
    CurrentIsRunning(s, h);
    if n == 0 {
      CoreWeakens(s, h);
      ScheduleKeepsReader(s, h);
    } else {
      CurrentChanges(s, h, Asleep(s, h, n));
      ScheduleKeepsReader(s.WithThread(s.Current(h), Asleep(s, h, n)), h);
    }
  }

  /** A blocked thread was blocked before, with the same request, or has just asked to read. */
  lemma BlockedOrigin(s: State, a: Action, i: int)
    requires Inv(s) && Linked(s) && Enabled(s, a) && SparesWaiters(s, a) && s.IsTid(i)
    requires Step(s, a).threads[i].state.Blocked?
    ensures var t, u := s.threads[i], Step(s, a).threads[i];
      || (t.state.Blocked? && u.readBuf == t.readBuf && u.readLen == t.readLen)
      || (a.Sys? && a.call.ReadInput? && i == s.Current(a.hart) && Min(a.call.len, |s.rx|) == 0 &&
          u.readBuf == a.call.buf && u.readLen == a.call.len && Step(s, a).stdinWaiter == i)
  {
    if s.Started(a.hart) && i == s.Current(a.hart) {
      CurrentMoves(s, a);
    } else if Kills(s, a, i) {
      VictimsDie(s, a, i);
    } else if a.StartIdle? && a.hart == i {
    } else {
      BystanderEvolves(s, a, i);
    }
  }

  /** The first byte that arrives wakes the blocked reader with exactly that byte; the rest are
      buffered. */
  lemma FirstByteGoesToReader(s: State, h: nat, b: Byte)
    requires Inv(s) && ReaderServed(s) && s.IsHart(h) && s.stdinWaiter >= 0
    ensures var w, r := s.stdinWaiter, OnChar(s, h, b);
      && r.threads == s.threads[w := s.threads[w].(a0 := 1, readBuf := 0, readLen := 0, state := Runnable, wakeupTick := 0)]
      && r.rx == [] && r.stdinWaiter == NO_TID
      && r.log == s.log + [Arrived(b, true)] + [Consumed(w, [b])]
  {
    var w := s.stdinWaiter;
    assert s.threads[w].state.Blocked?;
    assert UserOK(s, w, -1) && HomeOK(s, w);
    assert s.rx + [b] == [b];
    assert [b][..1] == [b];
  }

  /** An arriving byte always wakes the registered reader and ends its registration, even one that
      asked for no byte at all. */
  lemma ArrivalWakesReader(s: State, h: nat, b: Byte)
    requires Inv(s) && s.IsHart(h) && s.stdinWaiter >= 0 && s.threads[s.stdinWaiter].state.Blocked?
    ensures var w, r := s.stdinWaiter, OnChar(s, h, b);
      var t := s.threads[w];
      && r.stdinWaiter == NO_TID && r.threads[w].state.Runnable?
      && r.threads[w].a0 == (if t.readBuf == 0 || t.readLen == 0 then t.a0 else Min(t.readLen, if |s.rx| < 1023 then |s.rx| + 1 else |s.rx|))
  {
    assert UserOK(s, s.stdinWaiter, -1) && HomeOK(s, s.stdinWaiter);
  }

  lemma {:induction false} LaterBytesAreBuffered(s: State, h: nat, bs: seq<Byte>)
    requires s.Sized() && s.IsHart(h) && s.stdinWaiter < 0 && |s.rx| <= 1023
    ensures OnChars(s, h, bs).rx == (s.rx + bs)[..Min(|s.rx| + |bs|, 1023)]
    decreases |bs|
  {
    if bs == [] {
      assert s.rx + bs == s.rx;
    } else {
      LaterBytesAreBuffered(OnChar(s, h, bs[0]), h, bs[1..]);
      if |s.rx| < RING_CAPACITY {
        assert s.rx + bs == (s.rx + [bs[0]]) + bs[1..];
      }
    }
  }

  /** A burst of bytes while a reader sleeps: the reader gets the first, result 1, and the next
      1023 are buffered in order. */
  lemma BurstServesReader(s: State, h: nat, bs: seq<Byte>)
    requires Inv(s) && Linked(s) && ReaderServed(s) && s.Started(h) && s.stdinWaiter >= 0 && bs != []
    ensures var w, r := s.stdinWaiter, Step(s, Uart(h, bs));
      && r.threads[w].state.Runnable? && r.threads[w].a0 == 1
      && |s.log| + 2 <= |r.log| && r.log[|s.log| + 1] == Consumed(w, [bs[0]])
      && r.rx == bs[1..][..Min(|bs| - 1, 1023)]
  {
    FrameIsCurrent(s, h, -1);
    var s1 := OnChar(s, h, bs[0]);
    FirstByteGoesToReader(s, h, bs[0]);
    CharsWithoutReader(s1, h, bs[1..]);
    LaterBytesAreBuffered(s1, h, bs[1..]);
    CharsExtendLog(s1, h, bs[1..]);
    assert s1.rx + bs[1..] == bs[1..];
  }

  lemma {:induction false} CharsExtendLog(s: State, h: nat, bs: seq<Byte>)
    requires s.Sized() && s.IsHart(h)
    ensures s.log <= OnChars(s, h, bs).log
    decreases |bs|
  {
    if bs != [] {
      CharEvents(s, h, bs[0]);
      CharsExtendLog(OnChar(s, h, bs[0]), h, bs[1..]);
    }
  }

  lemma UartKeepsReaderServed(s: State, h: nat, bs: seq<Byte>)
    requires Inv(s) && Linked(s) && ReaderServed(s) && s.Started(h)
    ensures ReaderServed(OnChars(s, h, bs))
  {
    if bs != [] {
      var s1 := OnChar(s, h, bs[0]);
      if s.stdinWaiter >= 0 { FirstByteGoesToReader(s, h, bs[0]); } else { CharChangesReader(s, h, bs[0]); }
      CharsWithoutReader(s1, h, bs[1..]);
    }
  }

  /** A read that finds bytes leaves the registered reader alone; one that blocks registers. */
  lemma ReadRegisters(s: State, h: nat, fd: int, buf: nat, len: nat)
    requires Inv(s) && s.Started(h) && |s.cpus| <= s.Current(h)
    ensures var r, cur := Read(s, h, s.Current(h), fd, buf, len), s.Current(h);
      if fd == 0 && Min(len, |s.rx|) <= 0 then
        r.stdinWaiter == cur && r.threads[cur].state.Blocked? && r.rx == s.rx
      else r.stdinWaiter == s.stdinWaiter && r.threads[cur] == s.threads[cur].(a0 := if fd != 0 then -1 else Min(len, |s.rx|))
           && r.rx == (if fd != 0 then s.rx else s.rx[Min(len, |s.rx|)..])
  {
    var cur := s.Current(h);
    CurrentIsRunning(s, h);
    if fd == 0 && Min(len, |s.rx|) <= 0 {
      var s1 := s.(stdinWaiter := cur);
      SameOwnershipKeepsCore(s, s1, -1);
      CurrentChanges(s1, h, s.threads[cur].(readBuf := buf, readLen := len, state := Blocked));
      ScheduleEffect(AwaitInput(s, cur, buf, len), h);
    }
  }

  /** Killing the blocked reader clears the registration exactly when its slot is freed. */
  lemma KilledReader(s: State, h: nat, w: int)
    requires Inv(s) && Linked(s) && Enabled(s, Sys(h, KillThread(w))) && s.cpus[h].curTf == s.Current(h)
    requires w == s.stdinWaiter >= 0 && s.threads[w].state.Blocked? && KillTakesEffect(s, s.Current(h), w)
    ensures Step(s, Sys(h, KillThread(w))).stdinWaiter == if FreedByKill(s.threads[w]) then NO_TID else w
  {
    KillStepIs(s, h, w);
    KillKeepsCore(s, h, w);
    VictimIsElsewhere(s, h, w);
    KillRecords(s, h, w);
    assert UserOK(s, w, -1);
  }

  lemma StepKeepsReaderServed(s: State, a: Action)
    requires Inv(s) && Linked(s) && Enabled(s, a) && SparesWaiters(s, a) && ReaderServed(s) && OneReader(s, a)
    requires !a.Uart?
    ensures ReaderServed(Step(s, a))
  {
    var r := Step(s, a);
    if s.Started(a.hart) { CurrentIsRunning(s, a.hart); }
    if TouchesConsole(a) {
      SyscallKeepsInv(s, a.hart, a.call);
      ReadRegisters(s, a.hart, a.call.fd, a.call.buf, a.call.len);
    } else {
      StepQuietness(s, a);
      if Kills(s, a, s.stdinWaiter) {
        KilledReader(s, a.hart, s.stdinWaiter);
        VictimsDie(s, a, s.stdinWaiter);
      } else {
        ReaderStaysRegistered(s, a);
      }
    }
    forall i | 0 <= i < |r.threads| && r.threads[i].state.Blocked?
      ensures i == r.stdinWaiter && r.rx == [] && r.threads[i].readBuf != 0 && r.threads[i].readLen > 0
    {
      BlockedOrigin(s, a, i);
    }
    if r.stdinWaiter == s.stdinWaiter >= 0 {
      if a.StartIdle? { assert IdleOK(s, a.hart); }
      BystanderEvolves(s, a, s.stdinWaiter);
    }
  }

  /** The reader stays served across a step exactly when the step's request allows it. */
  lemma ReaderServedIffOneReader(s: State, a: Action)
    requires Inv(s) && Linked(s) && Enabled(s, a) && SparesWaiters(s, a) && ReaderServed(s)
    ensures ReaderServed(Step(s, a)) <==> OneReader(s, a)
  {
    if s.Started(a.hart) { CurrentIsRunning(s, a.hart); }
    if a.Uart? {
      UartKeepsReaderServed(s, a.hart, a.bytes);
    } else if OneReader(s, a) {
      StepKeepsReaderServed(s, a);
    } else if a.call.ReadInput? {
      var r, w := Step(s, a), s.stdinWaiter;
      SyscallKeepsInv(s, a.hart, a.call);
      ReadRegisters(s, a.hart, a.call.fd, a.call.buf, a.call.len);
      CurrentMoves(s, a);
      if w >= 0 { BystanderEvolves(s, a, w); }
    } else {
      KilledReader(s, a.hart, a.call.target);
      VictimsDie(s, a, a.call.target);
    }
  }
}
