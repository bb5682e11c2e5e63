/** The values the thread kernel works on.

    `State` is the kernel as one value: the thread table, the per-hart records, the ready
    queues as sequences, the console ring as a sequence, and a history of what happened.
    The number of harts H = |cpus| and of thread slots N = |threads| stay symbolic.
    Thread ids 0 .. H-1 are the idle threads, one per hart. */
module KernelState {
  import opened Bytes

  datatype Phase = Unused | Runnable | Running | Sleeping | Waiting | Zombie | Blocked

  const NO_TID: int := -1
  const SLICE_TICKS: nat := 5
  const SIGKILL_CODE: int := -9
  const RING_CAPACITY: nat := 1023
  const TWO_TO_THE_64: nat := 0x1_0000_0000_0000_0000

  type U64 = x: int | 0 <= x < TWO_TO_THE_64

  /** 64-bit addition, which wraps around. */
  function Plus64(a: U64, b: U64): U64 {
    (a + b) % TWO_TO_THE_64
  }

  /** One slot of the thread table, without its ready-queue link. `a0` stands for the saved
      register that carries a system call's result. */
  datatype Thread = Thread(
    state: Phase,
    wakeupTick: U64,
    isUser: bool,
    canBeKilled: bool,
    detached: bool,
    runningHart: int,
    a0: int,
    exitCode: int,
    joinWaiter: int,
    waitingFor: int,
    joinStatusPtr: nat,
    readBuf: nat,
    readLen: nat)

  const UNUSED_THREAD: Thread :=
    Thread(Unused, 0, false, false, false, -1, 0, 0, NO_TID, NO_TID, 0, 0, 0)

  /** `curTf` names the thread whose trap frame the hart's trap entry will use. */
  datatype Cpu = Cpu(online: bool, currentTid: int, curTf: int, sliceLeft: nat)

  datatype Event =
    | Created(tid: int)
    | Terminated(tid: int, code: int)
    | Delivered(tid: int, joiner: int, code: int)
    | Recycled(tid: int)
    | Arrived(byte: Byte, kept: bool)
    | Consumed(reader: int, bytes: seq<Byte>)

  /** `home[i]` is the hart whose ready queue holds thread i, or -1; `log` is history only. */
  datatype State = State(
    boot: nat,
    ticks: U64,
    threads: seq<Thread>,
    home: seq<int>,
    cpus: seq<Cpu>,
    queues: seq<seq<int>>,
    words: map<nat, int>,
    stdinWaiter: int,
    rx: seq<Byte>,
    log: seq<Event>,
    panicked: bool)
  {
    predicate Sized() {
      && 0 < |cpus| < |threads|
      && |home| == |threads|
      && |queues| == |cpus|
      && boot < |cpus|
      && -1 <= stdinWaiter < |threads|
      && (forall h :: 0 <= h < |cpus| ==> -1 <= cpus[h].currentTid < |threads|)
    }

    predicate IsHart(h: int) { 0 <= h < |cpus| }

    predicate IsTid(i: int) { 0 <= i < |threads| }

    /** Hart h has entered its idle thread, so it takes traps. */
    predicate Started(h: int) {
      IsHart(h) && 0 <= cpus[h].currentTid < |threads|
    }

    /** The thread hart h is running. */
    function Current(h: int): int
      requires Started(h)
    {
      cpus[h].currentTid
    }

    function WithThread(i: int, t: Thread): State
      requires IsTid(i)
    {
      this.(threads := threads[i := t])
    }

    function WithA0(i: int, v: int): State
      requires IsTid(i)
    {
      WithThread(i, threads[i].(a0 := v))
    }

    function Logged(e: Event): State {
      this.(log := log + [e])
    }

    /** What the console's history and ring say; everything but input leaves it alone. */
    function Console(): (seq<Byte>, seq<Byte>, seq<Byte>, bool, seq<Byte>) {
      (Arrivals(log), Kept(log), Taken(log), Honest(log), rx)
    }
  }

  /** The bytes that arrived, kept or not, in order. */
  function Arrivals(log: seq<Event>): seq<Byte> {
    if log == [] then []
    else match log[|log| - 1]
      case Arrived(b, _) => Arrivals(log[..|log| - 1]) + [b]
      case _ => Arrivals(log[..|log| - 1])
  }

  /** The bytes that arrived and were kept, in order. */
  function Kept(log: seq<Event>): seq<Byte> {
    if log == [] then []
    else match log[|log| - 1]
      case Arrived(b, true) => Kept(log[..|log| - 1]) + [b]
      case _ => Kept(log[..|log| - 1])
  }

  /** The bytes that reads took out, in order. */
  function Taken(log: seq<Event>): seq<Byte> {
    if log == [] then []
    else match log[|log| - 1]
      case Consumed(_, bs) => Taken(log[..|log| - 1]) + bs
      case _ => Taken(log[..|log| - 1])
  }

  /** Every byte was dropped or kept according to how many bytes were waiting when it came. */
  predicate Honest(log: seq<Event>) {
    log != [] ==>
      var before := log[..|log| - 1];
      && Honest(before)
      && (log[|log| - 1].Arrived? ==>
            (log[|log| - 1].kept <==> |Kept(before)| - |Taken(before)| < 1023))
  }

  /** Same table sizes, same boot hart, and the same harts started. */
  predicate SameShape(s: State, r: State) {
    && r.Sized()
    && |r.threads| == |s.threads|
    && |r.cpus| == |s.cpus|
    && r.boot == s.boot
    && (forall h :: 0 <= h < |s.cpus| ==> s.Started(h) == r.Started(h))
  }

  /** No time passes and the console sees nothing. */
  predicate Quiet(s: State, r: State) {
    SameShape(s, r) && r.ticks == s.ticks && r.Console() == s.Console()
  }
}
