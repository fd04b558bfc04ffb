/** GPIO edges and the single-producer single-consumer queue that carries them
    between the sampling thread and the audio callback (src/tt_ring.c). */
module EventQueue {
  import opened Bits
  import opened RingSize
  import opened Words

  const TRIGGER: Byte := 0
  const BUTTON: Byte := 1

  /** One edge: kernel time stamp, kind, channel and level. */
  datatype Event = Event(timeNs: nat, kind: Byte, index: Byte, value: Byte)

  const ZERO_EVENT := Event(0, 0, 0, 0)

  /** What the two threads share. `head` and `tail` are 32-bit counters that
      wrap; the size is a power of two, so they may be masked into a slot. */
  datatype Queue = Queue(buf: seq<Event>, head: nat, tail: nat, dropped: nat) {

    ghost predicate Valid() {
      && IsPow2(|buf|) && |buf| <= 0x8000_0000
      && head < U32 && tail < U32
      && Count() <= |buf|
    }

    /** The number of unread events: `head - tail` in 32-bit arithmetic. */
    function Count(): nat {
      (head - tail) % U32
    }

    /** The slot a counter value falls on. */
    function Slot(c: nat): nat
      requires buf != []
    {
      And(c % U32, |buf| - 1)
    }

    /** The i-th event from the tail. */
    ghost function At(i: nat): Event
      requires Valid()
    {
      NonEmpty(this);
      SlotIsMod(this, tail + i);
      buf[Slot(tail + i)]
    }

    /** The unread events, oldest first. */
    ghost function Pending(): seq<Event>
      requires Valid()
    {
      seq(Count(), i requires 0 <= i => At(i))
    }
  }

  lemma NonEmpty(q: Queue)
    requires IsPow2(|q.buf|)
    ensures q.buf != []
  {}

  /** A counter's slot is its remainder by the size, even after wrapping. */
  lemma SlotIsMod(q: Queue, c: nat)
    requires IsPow2(|q.buf|) && |q.buf| <= 0x8000_0000
    ensures q.buf != [] && q.Slot(c) == c % |q.buf| < |q.buf|
  {
    var k := SizeExponent(|q.buf|);
    AndMask(c % U32, k);
    WrapThenMod(c, k);
  }

  lemma WrapSmall(c: nat)
    requires c < U32
    ensures c % U32 == c
  {
    ModUnique(c, U32, 0, c);
  }

  lemma WrapStep(a: nat, b: nat)
    ensures (a % U32 + b) % U32 == (a + b) % U32
  {
    assert a == a % U32 + (a / U32) * U32;
    ModShift(a % U32 + b, U32, a / U32);
  }

  lemma HeadFromTail(q: Queue)
    requires q.Valid()
    ensures q.head == (q.tail + q.Count()) % U32
  {
    if q.head >= q.tail {
      ModUnique(q.head - q.tail, U32, 0, q.head - q.tail);
      WrapSmall(q.head);
    } else {
      ModUnique(q.head - q.tail, U32, -1, q.head - q.tail + U32);
      ModUnique(q.tail + q.Count(), U32, 1, q.head);
    }
  }

  /** One uninterrupted `tt_evring_push`. */
  function Pushed(q: Queue, e: Event): Queue
    requires q.buf != [] && q.Slot(q.head) < |q.buf|
  {
    if q.Count() >= |q.buf| then
      q.(dropped := q.dropped + 1)
    else
      q.(buf := q.buf[q.Slot(q.head) := e], head := (q.head + 1) % U32)
  }

  /** One uninterrupted `tt_evring_pop` of a non-empty queue. */
  function Popped(q: Queue): Queue {
    q.(tail := (q.tail + 1) % U32)
  }

  lemma PushAppends(q: Queue, e: Event)
    requires q.Valid()
    ensures q.buf != [] && q.Slot(q.head) < |q.buf|
    ensures Pushed(q, e).Valid()
    ensures |q.Pending()| == |q.buf| ==>
              Pushed(q, e).Pending() == q.Pending() && Pushed(q, e).dropped == q.dropped + 1
    ensures |q.Pending()| < |q.buf| ==>
              Pushed(q, e).Pending() == q.Pending() + [e] && Pushed(q, e).dropped == q.dropped
  {
    SlotIsMod(q, q.head);
    var p := Pushed(q, e);
    var n := q.Count();
    if n < |q.buf| {
      CountAfterPush(q);
      assert p.Valid();
      forall i: nat | i <= n ensures p.At(i) == if i < n then q.At(i) else e {
        PushedSlot(q, i);
        SlotIsMod(p, p.tail + i);
      }
      assert p.Pending() == q.Pending() + [e];
    } else {
      assert p.Valid();
      forall i: nat ensures p.At(i) == q.At(i) {}
      assert p.Pending() == q.Pending();
    }
  }

  /** The slot being written is the n-th from the tail and no other pending one. */
  lemma PushedSlot(q: Queue, i: nat)
    requires q.Valid() && i <= q.Count() < |q.buf|
    ensures q.buf != []
    ensures i == q.Count() ==> q.Slot(q.tail + i) == q.Slot(q.head)
    ensures i < q.Count() ==> q.Slot(q.tail + i) != q.Slot(q.head)
  {
    var n := q.Count();
    HeadFromTail(q);
    WrapSmall(q.head);
    SlotIsMod(q, q.tail + i);
    SlotIsMod(q, q.tail + n);
    if i < n { DistinctSlots(q.tail + i, q.tail + n, |q.buf|); }
  }

  lemma CountAfterPush(q: Queue)
    requires q.Valid() && q.Count() < |q.buf|
    ensures ((q.head + 1) % U32 - q.tail) % U32 == q.Count() + 1
  {
    HeadFromTail(q);
    var n := q.Count();
    WrapStep(q.tail + n, 1);
    WrapSmall(q.tail);
    WrapDifference(q.tail + n + 1, q.tail);
  }

  lemma CountAfterPop(q: Queue)
    requires q.Valid() && q.Count() > 0
    ensures (q.head - (q.tail + 1) % U32) % U32 == q.Count() - 1
  {
    HeadFromTail(q);
    WrapDifference(q.tail + q.Count(), q.tail + 1);
  }

  lemma EmptyCount(q: Queue)
    requires q.Valid()
    ensures q.Count() == 0 <==> q.head == q.tail
  {
    HeadFromTail(q);
    WrapSmall(q.tail);
  }

  lemma PopRemoves(q: Queue)
    requires q.Valid() && q.head != q.tail
    ensures q.buf != [] && q.Slot(q.tail) < |q.buf|
    ensures |q.Pending()| > 0
    ensures q.Pending()[0] == q.buf[q.Slot(q.tail)]
    ensures Popped(q).Valid() && Popped(q).Pending() == q.Pending()[1..]
  {
    var p, n := Popped(q), q.Count();
    EmptyCount(q);
    CountAfterPop(q);
    SlotIsMod(q, q.tail);
    assert p.Valid();
    forall i: nat | i < n - 1 ensures p.At(i) == q.At(i + 1) {
      WrapStep(q.tail + 1, i);
    }
    assert p.Pending() == q.Pending()[1..];
  }

  /** The ring object. Each method is one call run to completion; the module
      EventQueueSteps treats the same calls one shared access at a time. */
  class EvRing {
    var buf: array<Event>
    var size: nat
    var mask: nat
    var head: nat
    var tail: nat
    var dropped: nat

    ghost predicate Valid()
      reads this, buf
    {
      size == buf.Length && mask == size - 1 && View().Valid()
    }

    function View(): Queue
      reads this, buf
    {
      Queue(buf[..], head, tail, dropped)
    }

    ghost function Contents(): seq<Event>
      requires Valid()
      reads this, buf
    {
      View().Pending()
    }

    constructor (capacity: nat)
      requires capacity <= 0x8000_0000
      ensures Valid() && fresh(buf)
      ensures LeastPow2(size, if capacity < 16 then 16 else capacity)
      ensures Contents() == [] && dropped == 0
    {
      var p := NextPow2(if capacity < 16 then 16 else capacity);
      size := p;
      mask := p - 1;
      buf := new Event[p](_ => ZERO_EVENT);
      head, tail, dropped := 0, 0, 0;
    }

    method Push(ev: Event) returns (ok: bool)
      requires Valid()
      modifies this`head, this`dropped, buf
      ensures Valid()
      ensures ok <==> |old(Contents())| < size
      ensures Contents() == if ok then old(Contents()) + [ev] else old(Contents())
      ensures dropped == if ok then old(dropped) else old(dropped) + 1
      ensures old(View()).buf != [] && old(View()).Slot(old(head)) < size
      ensures View() == Pushed(old(View()), ev)
    {
      ghost var q := View();
      PushAppends(q, ev);
      if (head - tail) % U32 >= size {
        dropped := dropped + 1;
        assert View() == Pushed(q, ev);
        return false;
      }
      WrapSmall(head);
      buf[And(head, mask)] := ev;
      head := (head + 1) % U32;
      assert View() == Pushed(q, ev);
      return true;
    }

    method Pop() returns (ok: bool, ev: Event)
      requires Valid()
      modifies this`tail
      ensures Valid()
      ensures ok <==> old(Contents()) != []
      ensures ok ==> ev == old(Contents())[0] && Contents() == old(Contents())[1..]
      ensures ok ==> View() == Popped(old(View()))
      ensures !ok ==> Contents() == []
    {
      ghost var q := View();
      EmptyCount(q);
      if tail == head {
        return false, ZERO_EVENT;
      }
      PopRemoves(q);
      WrapSmall(tail);
      ev := buf[And(tail, mask)];
      tail := (tail + 1) % U32;
      assert View() == Popped(q);
      return true, ev;
    }

    /** Moves up to max events into out, starting at index at. */
    method Drain(out: array<Event>, at: nat, max: nat) returns (n: nat)
      requires Valid() && out != buf && at + max <= out.Length
      modifies this`tail, out
      ensures Valid()
      ensures n == if |old(Contents())| < max then |old(Contents())| else max
      ensures out[..at] == old(out[..at])
      ensures out[at..at + n] == old(Contents())[..n]
      ensures Contents() == old(Contents())[n..]
    {
      n := 0;
      ghost var all := Contents();
      while n < max
        invariant 0 <= n <= max && n <= |all|
        invariant Valid() && buf == old(buf)
        invariant Contents() == all[n..]
        invariant out[..at] == old(out[..at])
        invariant out[at..at + n] == all[..n]
      {
        var ok, ev := Pop();
        if !ok { break; }
        out[at + n] := ev;
        n := n + 1;
      }
    }
  }
}
