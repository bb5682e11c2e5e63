/** The kernel as a transition system: one step is one trap, run under the kernel lock. */
module Steps {
  import opened Bytes
  import opened KernelState
  import opened KernelOps

  datatype Call =
    | SleepFor(ticks: U64)
    | YieldCpu
    | ExitWith(code: int)
    | JoinThread(target: int, ptr: nat)
    | CreateThread(arg: int)
    | KillThread(target: int)
    | DetachThread(target: int)
    | ReadInput(fd: int, buf: nat, len: nat)
    | OtherCall(result: int)  // write, list, clock, statistics, hart id, snapshot: only a result

  datatype Action =
    | Timer(hart: int)
    | Ipi(hart: int)
    | Uart(hart: int, bytes: seq<Byte>)
    | Sys(hart: int, call: Call)
    | GoOnline(hart: int)
    | StartIdle(hart: int)

  /** Only user threads make system calls; a hart comes online once, then enters idle once. */
  predicate Enabled(s: State, a: Action) {
    match a
    case Timer(h) => s.Started(h)
    case Ipi(h) => s.Started(h)
    case Uart(h, _) => s.Started(h)
    case Sys(h, _) => s.Started(h) && s.threads[s.Current(h)].isUser
    case GoOnline(h) => s.IsHart(h) && !s.Started(h) && !s.cpus[h].online
    case StartIdle(h) => s.IsHart(h) && !s.Started(h) && s.cpus[h].online
  }

  /** syscall_handler: every call gets the frame the trap entry found in `cur_tf`. */
  function Syscall(s: State, h: nat, c: Call): (r: State)
    requires s.Sized() && s.Started(h) && s.IsTid(s.cpus[h].curTf)
    ensures SameShape(s, r)
  {
    var tf := s.cpus[h].curTf;
    match c
    case SleepFor(n) => Sleep(s, h, tf, n)
    case YieldCpu => Sleep(s, h, tf, 0)
    case ExitWith(code) => Exit(s, h, tf, code)
    case JoinThread(t, ptr) => Join(s, h, tf, t, ptr)
    case CreateThread(arg) => Create(s, h, tf, arg)
    case KillThread(t) => Kill(s, h, tf, t)
    case DetachThread(t) => Detach(s, tf, t)
    case ReadInput(fd, buf, len) => Read(s, h, tf, fd, buf, len)
    case OtherCall(v) => s.WithA0(tf, v)
  }

  /** trap_entry_c, and the two start-up actions of a hart. A hart without a frame cannot
      enter a trap, which counts as a failed internal check. */
  function Trap(s: State, a: Action): (r: State)
    requires s.Sized() && Enabled(s, a)
    ensures r.Sized() && |r.threads| == |s.threads| && |r.cpus| == |s.cpus| && r.boot == s.boot
    ensures forall h :: s.Started(h) ==> r.Started(h)
  {
    if s.Started(a.hart) && !s.IsTid(s.cpus[a.hart].curTf) then s.(panicked := true)
    else match a
    case Timer(h) => OnTimer(s, h, s.cpus[h].curTf)
    case Ipi(h) => Schedule(s, h, s.cpus[h].curTf)
    case Uart(h, bs) => OnChars(s, h, bs)
    case Sys(h, c) => Syscall(s, h, c)
    case GoOnline(h) => BringOnline(s, h)
    case StartIdle(h) => EnterIdle(s, h)
  }

  /** The hart that is executing the victim of this action's kill, or -1. */
  function VictimHart(s: State, a: Action): (r: int)
    requires s.Sized() && Enabled(s, a)
  {
    if a.Sys? && a.call.KillThread? && KillTakesEffect(s, s.Current(a.hart), a.call.target)
    then s.threads[a.call.target].runningHart else -1
  }

  /** One step under assumption E1: a kill of a thread that is running elsewhere is taken
      together with the interrupt that makes the victim's hart let go of it. */
  function Step(s: State, a: Action): (r: State)
    requires s.Sized() && Enabled(s, a)
    ensures r.Sized() && |r.threads| == |s.threads| && |r.cpus| == |s.cpus| && r.boot == s.boot
    ensures forall h :: s.Started(h) ==> r.Started(h)
  {
    var r, v := Trap(s, a), VictimHart(s, a);
    if r.Started(v) && v != a.hart then Schedule(r, v, r.cpus[v].curTf) else r
  }
}
