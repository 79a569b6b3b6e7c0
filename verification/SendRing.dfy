/** The desktop client's send queue: a ring of 64 slots of heap-allocated copies, filled by any thread and
    drained by the service thread. The mutex makes each method one atomic step. */
module SendRing {
  import opened Bytes

  const QUEUE_SIZE := 64

  /** The slot `i` places behind `head`. */
  function SlotOf(head: nat, i: nat): nat
    requires head < QUEUE_SIZE && i <= QUEUE_SIZE
  {
    if head + i < QUEUE_SIZE then head + i else head + i - QUEUE_SIZE
  }

  /** The slots hold the queue `q` from `head` up to, not including, `tail`. */
  ghost predicate IsRing(slots: seq<array?<byte>>, head: nat, tail: nat, q: seq<array<byte>>) {
    && |slots| == QUEUE_SIZE && head < QUEUE_SIZE && |q| < QUEUE_SIZE
    && tail == SlotOf(head, |q|)
    && (forall i {:trigger q[i]} :: 0 <= i < |q| ==> slots[SlotOf(head, i)] == q[i])
  }

  /** The two tests of the code say empty and full; one slot is never used. */
  lemma RingTests(slots: seq<array?<byte>>, head: nat, tail: nat, q: seq<array<byte>>)
    requires IsRing(slots, head, tail, q)
    ensures tail < QUEUE_SIZE && (head == tail <==> q == [])
    ensures (tail + 1) % QUEUE_SIZE == head <==> |q| == QUEUE_SIZE - 1
  {
  }

  lemma RingPush(slots: seq<array?<byte>>, head: nat, tail: nat, q: seq<array<byte>>, c: array<byte>)
    requires IsRing(slots, head, tail, q) && |q| < QUEUE_SIZE - 1
    ensures tail < QUEUE_SIZE && IsRing(slots[tail := c], head, (tail + 1) % QUEUE_SIZE, q + [c])
  {
  }

  /** What the vacated slot `x` holds makes no difference. */
  lemma RingPop(slots: seq<array?<byte>>, head: nat, tail: nat, q: seq<array<byte>>, x: array?<byte>)
    requires IsRing(slots, head, tail, q) && q != []
    ensures slots[head] == q[0] && IsRing(slots[head := x], (head + 1) % QUEUE_SIZE, tail, q[1..])
  {
    assert slots[SlotOf(head, 0)] == q[0];
    forall i {:trigger q[1..][i]} | 0 <= i < |q[1..]| ensures slots[SlotOf((head + 1) % QUEUE_SIZE, i)] == q[1..][i]
                                         && SlotOf((head + 1) % QUEUE_SIZE, i) != head {
      assert slots[SlotOf(head, i + 1)] == q[i + 1];
    }
  }

  ghost predicate Distinct(q: seq<array<byte>>) {
    forall i, j :: 0 <= i < j < |q| ==> q[i] != q[j]
  }

  /** Every queued copy is allocated, and nothing else is. */
  ghost predicate Owned(q: seq<array<byte>>, live: set<array<byte>>, freed: set<array<byte>>) {
    && Distinct(q) && live !! freed
    && (forall i :: 0 <= i < |q| ==> q[i] in live) && (forall c :: c in live ==> c in q)
  }

  lemma OwnedPush(q: seq<array<byte>>, live: set<array<byte>>, freed: set<array<byte>>, c: array<byte>)
    requires Owned(q, live, freed) && c !in live + freed
    ensures Owned(q + [c], live + {c}, freed)
  {
    assert forall d :: d in q + [c] <==> d in q || d == c;
  }

  lemma OwnedPop(q: seq<array<byte>>, live: set<array<byte>>, freed: set<array<byte>>)
    requires Owned(q, live, freed) && q != []
    ensures q[0] in live && Owned(q[1..], live - {q[0]}, freed + {q[0]})
  {
    forall c | c in live - {q[0]} ensures c in q[1..] {
      var i :| 0 <= i < |q| && q[i] == c;
      assert q[1..][i - 1] == c;
    }
  }

  /** The queued copies hold these messages. */
  ghost predicate Holds(q: seq<array<byte>>, messages: seq<seq<byte>>)
    reads q
  {
    |q| == |messages| && forall i {:trigger q[i]} :: 0 <= i < |q| ==> q[i][..] == messages[i]
  }

  lemma HoldsPush(q: seq<array<byte>>, messages: seq<seq<byte>>, c: array<byte>)
    requires Holds(q, messages)
    ensures Holds(q + [c], messages + [c[..]])
  {
  }

  lemma HoldsPop(q: seq<array<byte>>, messages: seq<seq<byte>>)
    requires Holds(q, messages) && q != []
    ensures messages != [] && q[0][..] == messages[0] && Holds(q[1..], messages[1..])
  {
    assert forall i {:trigger q[1..][i]} :: 0 <= i < |q[1..]| ==> q[1..][i] == q[i + 1];
  }

  class SendRing {
    const slots: array<array?<byte>>
    var head: nat
    var tail: nat

    ghost var accepted: seq<seq<byte>>   // the messages client_send_raw took, in order
    ghost var handed: seq<seq<byte>>     // the messages given to lws_write, in order
    ghost var pending: seq<seq<byte>>    // the messages still queued, in order
    ghost var copies: seq<array<byte>>   // the copies of them in the ring
    ghost var live: set<array<byte>>     // copies that were allocated and not freed
    ghost var freed: set<array<byte>>

    /** Every interleaving of the methods keeps this: the ring is a queue of the messages accepted and not
        yet handed over. */
    ghost predicate Valid()
      reads this, slots, copies
    {
      && IsRing(slots[..], head, tail, copies) && Owned(copies, live, freed)
      && Holds(copies, pending) && accepted == handed + pending
    }

    constructor ()
      ensures Valid() && fresh(slots) && accepted == handed == [] && live == freed == {}
    {
      slots := new array?<byte>[QUEUE_SIZE](i => null);
      head, tail := 0, 0;
      accepted, handed, pending, copies, live, freed := [], [], [], [], {}, {};
    }

    // free: only what is allocated may be freed, which rules out freeing twice
    ghost method Free(c: array<byte>)
      requires c in live
      modifies this`live, this`freed
      ensures live == old(live) - {c} && freed == old(freed) + {c}
    {
      live := live - {c};
      freed := freed + {c};
    }

    // client_send_raw, once there is room and the copy is made
    method Enqueue(copy: array<byte>, nextTail: nat)
      requires Valid() && |copies| < QUEUE_SIZE - 1 && copy !in live + freed && nextTail == (tail + 1) % QUEUE_SIZE
      modifies this`tail, this`accepted, this`pending, this`copies, this`live, slots
      ensures Valid() && copies == old(copies) + [copy] && accepted == old(accepted) + [copy[..]]
      ensures live == old(live) + {copy}
    {
      hide IsRing, Owned;
      ghost var q, was := copies, slots[..];
      IsRingBounds(was, head, tail, q);
      RingPush(was, head, tail, q, copy);
      OwnedPush(q, live, freed, copy);
      HoldsPush(q, pending, copy);
      slots[tail] := copy;
      assert slots[..] == was[tail := copy];
      tail := nextTail;
      accepted, pending := accepted + [copy[..]], pending + [copy[..]];
      copies := q + [copy];
      live := live + {copy};
    }

    // client_send_raw
    method SendRaw(data: seq<byte>, noMemory: bool) returns (ret: int)
      requires Valid()
      modifies this`tail, this`accepted, this`pending, this`copies, this`live, slots
      ensures Valid()
      ensures ret == if old(|copies|) == 63 || noMemory then -1 else 0
      ensures ret == 0 ==> accepted == old(accepted) + [data] && |copies| == old(|copies|) + 1
                           && fresh(copies[old(|copies|)]) && live == old(live) + {copies[old(|copies|)]}
      ensures ret != 0 ==> accepted == old(accepted) && copies == old(copies) && live == old(live)
    {
      hide IsRing, Owned;
      RingTests(slots[..], head, tail, copies);
      IsRingBounds(slots[..], head, tail, copies);
      var nextTail := (tail + 1) % QUEUE_SIZE;
      if nextTail == head || noMemory {
        return -1;
      }
      var copy := new byte[|data|](i requires 0 <= i < |data| => data[i]);
      assert copy[..] == data;
      Enqueue(copy, nextTail);
      return 0;
    }

    // the WRITEABLE branch of lws_callback; `written` is what lws_write returns
    method Writeable(written: int) returns (ret: int, more: bool)
      requires Valid()
      modifies this`head, this`handed, this`pending, this`copies, this`live, this`freed, slots
      ensures Valid()
      ensures old(copies) == [] ==>
                ret == 0 && copies == [] && handed == old(handed) && live == old(live) && freed == old(freed)
      ensures old(copies) != [] ==>
                copies == old(copies)[1..] && handed == old(handed) + [old(copies[0][..])]
                && live == old(live) - {old(copies[0])} && freed == old(freed) + {old(copies[0])}
                && ret == if written < 0 then -1 else 0
      ensures ret == 0 ==> more == (copies != [])
    {
      hide IsRing, Owned;
      ret, more := 0, false;
      RingTests(slots[..], head, tail, copies);
      IsRingBounds(slots[..], head, tail, copies);
      if head != tail {
        ghost var q, was := copies, slots[..];
        RingPop(was, head, tail, q, null);
        OwnedPop(q, live, freed);
        HoldsPop(q, pending);
        var message := slots[head];
        assert message == q[0];
        handed, pending := handed + [message[..]], pending[1..];
        Free(message);
        slots[head] := null;
        assert slots[..] == was[head := null];
        head := (head + 1) % QUEUE_SIZE;
        copies := q[1..];
        RingTests(slots[..], head, tail, copies);
        if written < 0 {
          return -1, false;
        }
        more := head != tail;
      }
    }

    // client_destroy: what is still queued is freed, and nothing is handed over any more
    method Destroy()
      requires Valid()
      modifies this`head, this`copies, this`live, this`freed
      ensures live == {} && copies == [] && freed == old(freed) + old(live) && head == tail
    {
      hide IsRing, Owned;
      RingTests(slots[..], head, tail, copies);
      IsRingBounds(slots[..], head, tail, copies);
      while head != tail
        invariant IsRing(slots[..], head, tail, copies) && Owned(copies, live, freed)
        invariant freed + live == old(freed) + old(live)
        invariant head < QUEUE_SIZE && (head == tail <==> copies == [])
        decreases |copies|
      {
        ghost var q := copies;
        RingPop(slots[..], head, tail, q, slots[head]);
        OwnedPop(q, live, freed);
        Free(slots[head]);
        assert slots[..][head := slots[head]] == slots[..];
        head := (head + 1) % QUEUE_SIZE;
        copies := q[1..];
        RingTests(slots[..], head, tail, copies);
      }
      OwnedNothing(live, freed);
    }
  }

  lemma IsRingBounds(slots: seq<array?<byte>>, head: nat, tail: nat, q: seq<array<byte>>)
    requires IsRing(slots, head, tail, q)
    ensures |slots| == QUEUE_SIZE && head < QUEUE_SIZE && tail < QUEUE_SIZE && |q| < QUEUE_SIZE
  {
  }

  lemma OwnedNothing(live: set<array<byte>>, freed: set<array<byte>>)
    requires Owned([], live, freed)
    ensures live == {}
  {
    assert forall c :: c in live ==> c in [];
  }

  // ------------------------------------------------------------------------------------------------
  // Whole runs

  /** What happens to the ring, in whatever order the threads get the mutex. */
  datatype Op<T> = Send(data: T, noMemory: bool) | Writeable(written: int)

  /** A first-in first-out queue of at most 63 messages: those accepted, and how many of them were handed over. */
  datatype Fifo<T> = Fifo(accepted: seq<T>, handed: nat)

  function FifoStep<T>(f: Fifo<T>, op: Op<T>): Fifo<T> {
    match op
    case Send(data, noMemory) =>
      if noMemory || |f.accepted| - f.handed == 63 then f else f.(accepted := f.accepted + [data])
    case Writeable(_) =>
      if f.handed == |f.accepted| then f else f.(handed := f.handed + 1)
  }

  ghost function FifoRun<T>(ops: seq<Op<T>>): Fifo<T> {
    if ops == [] then Fifo([], 0) else FifoStep(FifoRun(ops[..|ops| - 1]), ops[|ops| - 1])
  }

  /** The ring and the queue agree. */
  ghost predicate Agrees(accepted: seq<seq<byte>>, handed: seq<seq<byte>>, f: Fifo<seq<byte>>) {
    f.handed <= |f.accepted| && accepted == f.accepted && handed == f.accepted[..f.handed]
  }

  lemma HandedOver(accepted: seq<seq<byte>>, handed: seq<seq<byte>>, messages: seq<seq<byte>>, f: Fifo<seq<byte>>)
    requires Agrees(accepted, handed, f) && accepted == handed + messages
    ensures |messages| == |f.accepted| - f.handed
    ensures messages != [] ==> f.accepted[..f.handed + 1] == handed + [messages[0]]
  {
  }

  /** The ring does to any run of producers and service thread exactly what the queue does, and leaves nothing
      allocated when it is destroyed. */
  method AnyRun(ops: seq<Op<seq<byte>>>) returns (ring: SendRing)
    ensures Agrees(ring.accepted, ring.handed, FifoRun(ops)) && ring.live == {}
  {
    hide IsRing, Owned;
    ring := new SendRing();
    var i := 0;
    while i < |ops|
      invariant i <= |ops| && ring.Valid() && fresh(ring) && fresh(ring.slots)
      invariant Agrees(ring.accepted, ring.handed, FifoRun(ops[..i]))
    {
      assert ops[..i + 1][..i] == ops[..i];
      HandedOver(ring.accepted, ring.handed, ring.pending, FifoRun(ops[..i]));
      if ops[i].Send? {
        var _ := ring.SendRaw(ops[i].data, ops[i].noMemory);
      } else {
        var _, _ := ring.Writeable(ops[i].written);
      }
      i := i + 1;
    }
    assert ops[..i] == ops;
    ring.Destroy();
  }
}
