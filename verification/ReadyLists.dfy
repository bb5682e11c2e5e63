/** Ready queues as singly linked lists threaded through the slots. */
module ReadyLists {
  import opened KernelState
  import opened KernelOps
  import opened Partition

  /** A thread slot: the record, and its membership in a ready queue. */
  datatype Slot = Slot(core: Thread, rqNext: int, onRq: bool)

  datatype Runqueue = Runqueue(head: int, tail: int, len: nat)

  function NextIn(q: seq<int>, k: nat): int
    requires k < |q|
  {
    if k + 1 < |q| then q[k + 1] else -1
  }

  /** The list that starts at `head` and follows the slots' links spells out q. */
  predicate Spells(slots: seq<Slot>, r: Runqueue, q: seq<int>) {
    && r.len == |q|
    && r.head == (if q == [] then -1 else q[0])
    && r.tail == (if q == [] then -1 else q[|q| - 1])
    && (forall k :: 0 <= k < |q| ==> 0 <= q[k] < |slots| && slots[q[k]].rqNext == NextIn(q, k))
  }

  /** A list whose slots keep their links keeps its spelling. */
  lemma LinksKept(slots: seq<Slot>, slots': seq<Slot>, r: Runqueue, q: seq<int>)
    requires Spells(slots, r, q) && |slots'| == |slots|
    requires forall i :: i in q && 0 <= i < |slots| ==> slots'[i].rqNext == slots[i].rqNext
    ensures Spells(slots', r, q)
  {
  }

  lemma PushLinks(slots: seq<Slot>, slots': seq<Slot>, r: Runqueue, q: seq<int>, tid: int)
    requires Spells(slots, r, q) && |slots'| == |slots| && 0 <= tid < |slots| && tid !in q && NoDup(q)
    requires forall i :: 0 <= i < |slots| ==>
      slots'[i].rqNext == (if i == tid then -1 else if i == r.tail then tid else slots[i].rqNext)
    ensures Spells(slots', Runqueue(if r.tail == -1 then tid else r.head, tid, r.len + 1), q + [tid])
  {
    var p := q + [tid];
    forall k | 0 <= k < |p| ensures 0 <= p[k] < |slots'| && slots'[p[k]].rqNext == NextIn(p, k) {
      if k < |q| { assert q[k] in q; }
    }
  }

  lemma PopLinks(slots: seq<Slot>, slots': seq<Slot>, r: Runqueue, q: seq<int>)
    requires Spells(slots, r, q) && |slots'| == |slots| && q != [] && NoDup(q)
    requires forall i :: 0 <= i < |slots| ==> slots'[i].rqNext == (if i == q[0] then -1 else slots[i].rqNext)
    ensures var nxt := slots[q[0]].rqNext;
      Spells(slots', Runqueue(nxt, if nxt < 0 then -1 else r.tail, r.len - 1), q[1..])
  {
    assert slots[q[0]].rqNext == NextIn(q, 0);
    forall k | 0 <= k < |q| - 1 ensures 0 <= q[1..][k] < |slots'| && slots'[q[1..][k]].rqNext == NextIn(q[1..], k) {
      assert slots[q[k + 1]].rqNext == NextIn(q, k + 1);
    }
  }

  /** Slot j of the list, after element k was unlinked, points to what now follows it. */
  lemma RemovedNext(slots: seq<Slot>, slots': seq<Slot>, r: Runqueue, q: seq<int>, k: nat, j: nat)
    requires Spells(slots, r, q) && |slots'| == |slots| && k < |q| && NoDup(q) && j < |q| && j != k
    requires forall i :: 0 <= i < |slots| ==>
      slots'[i].rqNext == (if i == q[k] then -1 else if k > 0 && i == q[k - 1] then slots[q[k]].rqNext else slots[i].rqNext)
    ensures 0 <= q[j] < |slots| && slots'[q[j]].rqNext == NextIn(q, if j + 1 == k then k else j)
  {
    assert slots[q[k]].rqNext == NextIn(q, k) && slots[q[j]].rqNext == NextIn(q, j);
    assert q[j] != q[k];
    assert k > 0 && q[j] == q[k - 1] ==> j == k - 1;
  }

  lemma RemovedAt(q: seq<int>, p: seq<int>, k: nat, j: nat)
    requires k < |q| && p == q[..k] + q[k + 1..] && j < |p|
    ensures var i := if j < k then j else j + 1;
      p[j] == q[i] && NextIn(p, j) == NextIn(q, if i + 1 == k then k else i)
  {
  }

  lemma RemovedEnds(slots: seq<Slot>, r: Runqueue, q: seq<int>, p: seq<int>, k: nat)
    requires Spells(slots, r, q) && k < |q| && NoDup(q) && p == q[..k] + q[k + 1..]
    ensures (if k == 0 then slots[q[k]].rqNext else r.head) == (if p == [] then -1 else p[0])
    ensures (if r.tail == q[k] then (if k == 0 then -1 else q[k - 1]) else r.tail) == (if p == [] then -1 else p[|p| - 1])
  {
    assert slots[q[k]].rqNext == NextIn(q, k);
  }

  lemma Assemble(slots: seq<Slot>, r: Runqueue, p: seq<int>)
    requires r.len == |p| && r.head == (if p == [] then -1 else p[0]) && r.tail == (if p == [] then -1 else p[|p| - 1])
    requires forall j :: 0 <= j < |p| ==> 0 <= p[j] < |slots| && slots[p[j]].rqNext == NextIn(p, j)
    ensures Spells(slots, r, p)
  {
  }

  lemma RemoveLinks(slots: seq<Slot>, slots': seq<Slot>, r: Runqueue, q: seq<int>, k: nat)
    requires Spells(slots, r, q) && |slots'| == |slots| && k < |q| && NoDup(q)
    requires forall i :: 0 <= i < |slots| ==>
      slots'[i].rqNext == (if i == q[k] then -1 else if k > 0 && i == q[k - 1] then slots[q[k]].rqNext else slots[i].rqNext)
    ensures Spells(slots', Runqueue(if k == 0 then slots[q[k]].rqNext else r.head,
                                    if r.tail == q[k] then (if k == 0 then -1 else q[k - 1]) else r.tail,
                                    r.len - 1), q[..k] + q[k + 1..])
  {
    var p := q[..k] + q[k + 1..];
    var r' := Runqueue(if k == 0 then slots[q[k]].rqNext else r.head,
                       if r.tail == q[k] then (if k == 0 then -1 else q[k - 1]) else r.tail, r.len - 1);
    forall j | 0 <= j < |p| ensures 0 <= p[j] < |slots'| && slots'[p[j]].rqNext == NextIn(p, j) {
      RemovedOne(slots, slots', r, q, p, k, j);
    }
    RemovedEnds(slots, r, q, p, k);
    Assemble(slots', r', p);
  }

  lemma RemovedOne(slots: seq<Slot>, slots': seq<Slot>, r: Runqueue, q: seq<int>, p: seq<int>, k: nat, j: nat)
    requires Spells(slots, r, q) && |slots'| == |slots| && k < |q| && NoDup(q)
    requires forall i :: 0 <= i < |slots| ==>
      slots'[i].rqNext == (if i == q[k] then -1 else if k > 0 && i == q[k - 1] then slots[q[k]].rqNext else slots[i].rqNext)
    requires p == q[..k] + q[k + 1..] && j < |p|
    ensures 0 <= p[j] < |slots'| && slots'[p[j]].rqNext == NextIn(p, j)
  {
    RemovedAt(q, p, k, j);
    RemovedNext(slots, slots', r, q, k, if j < k then j else j + 1);
  }

  /** Removing the element at its only position. */
  lemma {:induction false} WithoutAt<T>(q: seq<T>, k: nat)
    requires k < |q| && NoDup(q)
    ensures Without(q, q[k]) == q[..k] + q[k + 1..]
  {
    if k > 0 {
      assert q[0] != q[k] && NoDup(q[1..]);
      WithoutAt(q[1..], k - 1);
      assert [q[0]] + q[1..][..k - 1] == q[..k];
      assert q[1..][k..] == q[k + 1..];
    }
  }

  // ---------------------------------------------------------------- queues and homes

  predicate OnQueue(v: State, h: int, i: int)
    requires v.Sized()
  {
    v.IsHart(h) && v.IsTid(i) && i in v.queues[h]
  }

  predicate QueuesOK(v: State) {
    && v.Sized()
    && (forall h :: 0 <= h < |v.cpus| ==> QueueOK(v, h))
    && (forall i :: 0 <= i < |v.threads| ==> HomeOK(v, i))
  }

  lemma SameQueuesOK(v: State, w: State)
    requires QueuesOK(v) && w.Sized() && |w.threads| == |v.threads| && |w.cpus| == |v.cpus|
    requires w.home == v.home && w.queues == v.queues
    ensures QueuesOK(w)
  {
    forall h | 0 <= h < |v.cpus| ensures QueueOK(w, h) { assert QueueOK(v, h); }
    forall i | 0 <= i < |v.threads| ensures HomeOK(w, i) { assert HomeOK(v, i); }
  }

  lemma PushKeepsQueues(v: State, h: int, tid: int)
    requires QueuesOK(v)
    ensures QueuesOK(Push(v, h, tid))
  {
    var w := Push(v, h, tid);
    if v.IsTid(tid) { assert HomeOK(v, tid); }
    forall g | 0 <= g < |v.cpus| ensures QueueOK(w, g) { assert QueueOK(v, g); }
    forall i | 0 <= i < |v.threads| ensures HomeOK(w, i) { assert HomeOK(v, i); }
  }

  lemma PopKeepsQueues(v: State, h: int)
    requires QueuesOK(v) && v.IsHart(h) && v.queues[h] != [] && v.IsTid(v.queues[h][0])
    ensures QueuesOK(Pop(v, h))
  {
    var w, n := Pop(v, h), v.queues[h][0];
    assert QueueOK(v, h) && n in v.queues[h];
    assert v.queues[h] == [n] + v.queues[h][1..];
    assert n !in w.queues[h];
    assert forall i :: i in w.queues[h] ==> i in v.queues[h];
    forall g | 0 <= g < |v.cpus| ensures QueueOK(w, g) { assert QueueOK(v, g); }
    forall i | 0 <= i < |v.threads| ensures HomeOK(w, i) { assert HomeOK(v, i); }
  }

  lemma DequeueKeepsQueues(v: State, tid: int)
    requires QueuesOK(v) && v.IsTid(tid) && v.IsHart(v.home[tid])
    ensures QueuesOK(Dequeue(v, tid))
  {
    var w := Dequeue(v, tid);
    assert QueueOK(v, v.home[tid]) && HomeOK(v, tid);
    WithoutMembers(v.queues[v.home[tid]], tid);
    forall g | 0 <= g < |v.cpus| ensures QueueOK(w, g) { assert QueueOK(v, g); }
    forall i | 0 <= i < |v.threads| ensures HomeOK(w, i) { assert HomeOK(v, i); }
  }

  // ---------------------------------------------------------------- all lists together

  /** Every queue of v is spelled by its list. */
  predicate Lists(v: State, slots: seq<Slot>, rs: seq<Runqueue>) {
    && QueuesOK(v) && |slots| == |v.threads| && |rs| == |v.cpus|
    && (forall h :: 0 <= h < |rs| ==> Spells(slots, rs[h], v.queues[h]))
  }

  /** While slots keep their links, every list keeps its spelling. */
  lemma SameLists(v: State, slots: seq<Slot>, rs: seq<Runqueue>, w: State, slots': seq<Slot>)
    requires Lists(v, slots, rs) && w.Sized() && |slots'| == |slots| == |w.threads| && |w.cpus| == |v.cpus|
    requires w.queues == v.queues && w.home == v.home
    requires forall i :: 0 <= i < |slots| ==> slots'[i].rqNext == slots[i].rqNext
    ensures Lists(w, slots', rs)
  {
    SameQueuesOK(v, w);
    forall h | 0 <= h < |rs| ensures Spells(slots', rs[h], w.queues[h]) {
      LinksKept(slots, slots', rs[h], v.queues[h]);
    }
  }

  /** A change to list h that touches only slots on it or on no list leaves the others alone. */
  lemma OneListChanges(v: State, slots: seq<Slot>, rs: seq<Runqueue>, w: State, slots': seq<Slot>, h: int, r: Runqueue)
    requires Lists(v, slots, rs) && QueuesOK(w) && |slots'| == |slots| == |w.threads| && |w.cpus| == |v.cpus|
    requires v.IsHart(h) && w.queues == v.queues[h := w.queues[h]] && Spells(slots', r, w.queues[h])
    requires forall i :: 0 <= i < |slots| && v.home[i] >= 0 && v.home[i] != h ==> slots'[i].rqNext == slots[i].rqNext
    ensures Lists(w, slots', rs[h := r])
  {
    forall g | 0 <= g < |rs| && g != h ensures Spells(slots', rs[g], w.queues[g]) {
      assert QueueOK(v, g);
      LinksKept(slots, slots', rs[g], v.queues[g]);
    }
  }

  function AppendedTo(r: Runqueue, tid: int): Runqueue {
    Runqueue(if r.tail == -1 then tid else r.head, tid, r.len + 1)
  }

  lemma PushLists(v: State, slots: seq<Slot>, rs: seq<Runqueue>, slots': seq<Slot>, h: int, tid: int)
    requires Lists(v, slots, rs) && |slots'| == |slots| && v.IsHart(h)
    requires |v.cpus| <= tid < |v.threads| && v.home[tid] < 0
    requires forall i :: 0 <= i < |slots| ==>
      slots'[i].rqNext == (if i == tid then -1 else if i == rs[h].tail then tid else slots[i].rqNext)
    ensures Lists(Push(v, h, tid), slots', rs[h := AppendedTo(rs[h], tid)])
  {
    var q := v.queues[h];
    assert QueueOK(v, h) && HomeOK(v, tid) && Spells(slots, rs[h], q);
    assert q != [] ==> q[|q| - 1] in q;
    PushKeepsQueues(v, h, tid);
    PushLinks(slots, slots', rs[h], q, tid);
    OneListChanges(v, slots, rs, Push(v, h, tid), slots', h, AppendedTo(rs[h], tid));
  }

  function Unheaded(r: Runqueue, nxt: int): Runqueue {
    Runqueue(nxt, if nxt < 0 then -1 else r.tail, if r.len > 0 then r.len - 1 else 0)
  }

  lemma PopLists(v: State, slots: seq<Slot>, rs: seq<Runqueue>, slots': seq<Slot>, h: int)
    requires Lists(v, slots, rs) && |slots'| == |slots| && v.IsHart(h) && rs[h].head >= 0
    requires forall i :: 0 <= i < |slots| ==> slots'[i].rqNext == (if i == rs[h].head then -1 else slots[i].rqNext)
    ensures v.queues[h] != [] && rs[h].head == v.queues[h][0] && |v.cpus| <= rs[h].head < |v.threads|
    ensures Lists(Pop(v, h), slots', rs[h := Unheaded(rs[h], slots[rs[h].head].rqNext)])
  {
    var q := v.queues[h];
    assert QueueOK(v, h) && Spells(slots, rs[h], q) && q[0] in q;
    PopKeepsQueues(v, h);
    PopLinks(slots, slots', rs[h], q);
    OneListChanges(v, slots, rs, Pop(v, h), slots', h, Unheaded(rs[h], slots[q[0]].rqNext));
  }

  function Unlinked(r: Runqueue, prev: int, cur: int, nxt: int): Runqueue {
    Runqueue(if prev < 0 then nxt else r.head, if r.tail == cur then prev else r.tail, if r.len > 0 then r.len - 1 else 0)
  }

  lemma RemoveLists(v: State, slots: seq<Slot>, rs: seq<Runqueue>, slots': seq<Slot>, h: int, k: nat, prev: int)
    requires Lists(v, slots, rs) && |slots'| == |slots| && v.IsHart(h) && k < |v.queues[h]|
    requires prev == if k == 0 then -1 else v.queues[h][k - 1]
    requires v.IsTid(v.queues[h][k])
    requires var cur := v.queues[h][k];
      forall i :: 0 <= i < |slots| ==>
        slots'[i].rqNext == (if i == cur then -1 else if i == prev then slots[cur].rqNext else slots[i].rqNext)
    ensures v.home[v.queues[h][k]] == h
    ensures Lists(Dequeue(v, v.queues[h][k]), slots',
                  rs[h := Unlinked(rs[h], prev, v.queues[h][k], slots[v.queues[h][k]].rqNext)])
  {
    var q := v.queues[h];
    assert QueueOK(v, h) && Spells(slots, rs[h], q) && q[k] in q;
    assert k > 0 ==> q[k - 1] in q;
    WithoutAt(q, k);
    DequeueKeepsQueues(v, q[k]);
    RemoveLinks(slots, slots', rs[h], q, k);
    OneListChanges(v, slots, rs, Dequeue(v, q[k]), slots', h, Unlinked(rs[h], prev, q[k], slots[q[k]].rqNext));
  }

  /** A slot on no queue may change its link. */
  lemma OffQueueLinks(v: State, slots: seq<Slot>, rs: seq<Runqueue>, slots': seq<Slot>, tid: int)
    requires Lists(v, slots, rs) && |slots'| == |slots| && v.IsTid(tid) && v.home[tid] < 0
    requires forall i :: 0 <= i < |slots| && i != tid ==> slots'[i].rqNext == slots[i].rqNext
    ensures Lists(v, slots', rs)
  {
    forall h | 0 <= h < |rs| ensures Spells(slots', rs[h], v.queues[h]) {
      assert QueueOK(v, h);
      LinksKept(slots, slots', rs[h], v.queues[h]);
    }
  }
}
