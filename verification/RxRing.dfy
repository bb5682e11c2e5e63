/** The console's receive buffer: a circular array with one slot kept free. */
module RxRing {
  import opened Bytes
  import opened KernelState

  const SIZE: nat := RING_CAPACITY + 1

  /** A position at most one turn past the end, brought back into the buffer. */
  function Wrap(i: nat): nat {
    if i < SIZE then i else i - SIZE
  }

  lemma WrapIsMod(i: nat)
    requires i < 2 * SIZE
    ensures i % SIZE == Wrap(i)
  {
  }

  class Ring {
    const buf: array<Byte>
    var head: nat  // next write position
    var tail: nat  // next read position
    ghost var Contents: seq<Byte>

    ghost predicate Valid()
      reads this, buf
    {
      && buf.Length == SIZE && head < SIZE && tail < SIZE
      && |Contents| == (if head >= tail then head - tail else head + SIZE - tail)
      && forall k :: 0 <= k < |Contents| ==> Contents[k] == buf[Wrap(tail + k)]
    }

    constructor ()
      ensures Valid() && fresh(buf) && Contents == []
    {
      buf := new Byte[RING_CAPACITY + 1](i => 0);
      head, tail := 0, 0;
      Contents := [];
    }

    predicate IsEmpty()
      reads this
    {
      head == tail
    }

    predicate IsFull()
      reads this
    {
      (head + 1) % SIZE == tail
    }

    /** Full means 1023 bytes waiting: one slot always stays free. */
    lemma FullnessIsLength()
      requires Valid()
      ensures IsEmpty() <==> Contents == []
      ensures IsFull() <==> |Contents| == 1023
      ensures |Contents| <= 1023
    {
      WrapIsMod(head + 1);
    }

    /** The write half of console_on_char_from_irq: drop the byte if the buffer is full. */
    method Put(b: Byte) returns (kept: bool)
      requires Valid()
      modifies this, buf
      ensures Valid()
      ensures kept == (|old(Contents)| < 1023)
      ensures Contents == if kept then old(Contents) + [b] else old(Contents)
    {
      FullnessIsLength();
      kept := !IsFull();
      if kept {
        WrapIsMod(head + 1);
        buf[head] := b;
        head := (head + 1) % SIZE;
        Contents := Contents + [b];
      }
    }

    method TakeOne() returns (b: Byte)
      requires Valid() && !IsEmpty()
      modifies this
      ensures Valid() && old(Contents) == [b] + Contents
    {
      WrapIsMod(tail + 1);
      b := buf[tail];
      assert b == Contents[0];
      tail := (tail + 1) % SIZE;
      Contents := Contents[1..];
    }

    /** console_read_nonblock: up to len bytes, oldest first. */
    method Take(len: nat) returns (data: seq<Byte>)
      requires Valid()
      modifies this
      ensures Valid()
      ensures |data| == Min(len, |old(Contents)|)
      ensures data == old(Contents)[..|data|] && Contents == old(Contents)[|data|..]
    {
      data := [];
      while |data| < len && !IsEmpty()
        invariant Valid() && |data| <= len
        invariant data + Contents == old(Contents)
        decreases |Contents|
      {
        FullnessIsLength();
        ghost var before := data + Contents;
        var b := TakeOne();
        data := data + [b];
        assert data + Contents == before;
      }
      FullnessIsLength();
    }
  }
}
