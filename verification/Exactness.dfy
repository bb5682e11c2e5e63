/** The two environment assumptions are exactly what the invariants need, and what goes wrong
    without them. */
module Exactness {
  import opened KernelState
  import opened KernelOps
  import opened Partition
  import opened Steps
  import opened Safety
  import opened Links
  import opened JoinProtocol

  /** E1: a kill by itself keeps the partition exactly when no hart is executing the victim. */
  lemma KillKeepsPartitionIffNotExecuting(s: State, h: nat, target: int)
    requires Inv(s) && Linked(s) && s.Started(h)
    ensures Inv(Kill(s, h, s.Current(h), target)) <==>
            !(KillTakesEffect(s, s.Current(h), target) && s.threads[target].runningHart >= 0)
  {
    KillKeepsCore(s, h, target);
    if KillTakesEffect(s, s.Current(h), target) {
      VictimIsElsewhere(s, h, target);
      if s.threads[target].runningHart >= 0 {
        KillRecords(s, h, target);
        assert !UserOK(Kill(s, h, s.Current(h), target), target, -1);
      }
    }
  }

  /** What happens otherwise: a join right after the kill frees a slot that a hart still runs. */
  lemma JoinFreesExecutingSlot(s: State, h: nat, target: int, ptr: nat)
    requires Inv(s) && Linked(s) && s.Started(h) && KillTakesEffect(s, s.Current(h), target)
    requires s.threads[target].runningHart >= 0 && s.threads[target].joinWaiter < 0 && !s.threads[target].detached
    ensures var k := Kill(s, h, s.Current(h), target);
      var v := s.threads[target].runningHart;
      var r := Join(k, h, s.Current(h), target, ptr);
      r.threads[target].state.Unused? && r.Started(v) && r.Current(v) == target
  {
    KillRecords(s, h, target);
    VictimIsElsewhere(s, h, target);
    assert UserOK(s, target, -1);
    var k := Kill(s, h, s.Current(h), target);
    assert JoinOutcome(k, s.Current(h), target).JoinDead?;
  }

  /** E2: a kill step keeps the join protocol exactly when its victim is not waiting in a join. */
  lemma KillKeepsLinksIffVictimNotWaiting(s: State, h: nat, target: int)
    requires Inv(s) && Linked(s) && Enabled(s, Sys(h, KillThread(target)))
    ensures Linked(Step(s, Sys(h, KillThread(target)))) <==> SparesWaiters(s, Sys(h, KillThread(target)))
  {
    var a := Sys(h, KillThread(target));
    FrameIsCurrent(s, h, -1);
    if SparesWaiters(s, a) {
      StepKeepsLinks(s, a);
    } else {
      KillStepIs(s, h, target);
      KillRecords(s, h, target);
      CurrentIsRunning(s, h);
      assert UserOK(s, target, -1) && WaitOK(s, target);
      StaleJoinerRemains(s, Kill(s, h, s.Current(h), target), s.Current(h), target);
    }
  }

  /** The thread the victim was joining still names the victim. */
  lemma StaleJoinerRemains(s: State, r: State, cur: int, target: int)
    requires s.Sized() && s.IsTid(cur) && s.IsTid(target) && SameShape(s, r) && KillChanges(s, r, cur, target)
    requires s.threads[target].state.Waiting? && WaitOK(s, target) && cur != target
    ensures !Live(r.threads[target])
    ensures s.IsTid(s.threads[target].waitingFor)
    ensures r.threads[s.threads[target].waitingFor].joinWaiter == target
    ensures !Linked(r)
  {
    var w := s.threads[target].waitingFor;
    assert r.threads[w].joinWaiter == s.threads[w].joinWaiter == target;
    assert !Live(r.threads[target]);
    assert !JoinerOK(r, w);
  }

  /** What happens otherwise: whoever kills the waiting thread, when the thread it was joining exits,
      on whatever hart, the dead or already freed victim is made Runnable again. */
  lemma KilledWaiterRises(s: State, h: nat, target: int, g: nat, code: int)
    requires Inv(s) && Linked(s) && Enabled(s, Sys(h, KillThread(target)))
    requires KillTakesEffect(s, s.Current(h), target)
    requires s.threads[target].state.Waiting? && s.Started(g) && s.threads[target].waitingFor == s.Current(g)
    ensures var k := Step(s, Sys(h, KillThread(target)));
      && !Live(k.threads[target])
      && k.Started(g) && k.Current(g) == s.Current(g)
      && Die(k, g, code).threads[target].state.Runnable?
  {
    FrameIsCurrent(s, h, -1);
    CurrentIsRunning(s, h);
    KillStepIs(s, h, target);
    KillKeepsCore(s, h, target);
    KillRecords(s, h, target);
    assert UserOK(s, target, -1) && WaitOK(s, target);
    var k := Kill(s, h, s.Current(h), target);
    StaleJoinerRemains(s, k, s.Current(h), target);
    assert UserOK(k, target, -1);
    RiseOnDeath(k, g, target, code);
  }

  /** And whenever later a thread dies that still names a thread that is neither queued nor running
      as its joiner, that thread is made Runnable. */
  lemma RiseOnDeath(k: State, h: nat, target: int, code: int)
    requires Inv(k) && k.Started(h) && |k.cpus| <= target < |k.threads| && target != k.Current(h)
    requires k.threads[k.Current(h)].joinWaiter == target && k.home[target] < 0
    requires !k.threads[target].state.Running?
    ensures Die(k, h, code).threads[target].state.Runnable?
  {
  }
}
