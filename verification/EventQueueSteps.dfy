/** The event queue with its two threads interleaved. Every step is one shared
    load or store of `tt_evring_push` or `tt_evring_pop`; copying an event into
    or out of its slot is one step per field. The memory is sequentially
    consistent (src/tt_ring.c). */
module EventQueueSteps {
  import opened Bits
  import opened RingSize
  import opened EventQueue

  const FIELDS := 4

  /** dst with its j-th field taken from src. */
  function CopyField(dst: Event, src: Event, j: nat): Event {
    match j
    case 0 => dst.(timeNs := src.timeNs)
    case 1 => dst.(kind := src.kind)
    case 2 => dst.(index := src.index)
    case 3 => dst.(value := src.value)
    case _ => dst
  }

  /** The first k fields of a and b agree. */
  predicate Agree(a: Event, b: Event, k: nat) {
    && (k > 0 ==> a.timeNs == b.timeNs)
    && (k > 1 ==> a.kind == b.kind)
    && (k > 2 ==> a.index == b.index)
    && (k > 3 ==> a.value == b.value)
  }

  /** Where the producer is inside `tt_evring_push`. */
  datatype Producer =
    | PIdle
    | PLoaded(ev: Event, h: nat)             // has loaded head
    | PWriting(ev: Event, h: nat, k: nat)    // found room, stored k fields
    | PDropping(ev: Event)                   // found the queue full

  /** Where the consumer is inside `tt_evring_pop`. */
  datatype Consumer =
    | CIdle
    | CLoaded(t: nat)                        // has loaded tail
    | CReading(t: nat, k: nat, got: Event)   // found an event, loaded k fields

  /** The shared queue, both program counters, and the history of the run:
      every event offered, the verdict on each push that has finished, every
      event accepted and every event delivered. */
  datatype State = State(
    q: Queue, prod: Producer, cons: Consumer,
    attempted: seq<Event>, verdicts: seq<bool>, accepted: seq<Event>, popped: seq<Event>)

  datatype Action = BeginPush(ev: Event) | ProducerStep | BeginPop | ConsumerStep

  function Next(s: State, a: Action): State
    requires s.q.buf != []
  {
    match a
    case BeginPush(ev) =>
      if s.prod.PIdle? then
        s.(prod := PLoaded(ev, s.q.head), attempted := s.attempted + [ev])
      else s
    case ProducerStep => NextProducer(s)
    case BeginPop =>
      if s.cons.CIdle? then s.(cons := CLoaded(s.q.tail)) else s
    case ConsumerStep => NextConsumer(s)
  }

  function NextProducer(s: State): State
    requires s.q.buf != []
  {
    match s.prod
    case PIdle => s
    case PLoaded(ev, h) =>
      if (h - s.q.tail) % U32 >= |s.q.buf| then
        s.(prod := PDropping(ev))
      else
        s.(prod := PWriting(ev, h, 0))
    case PDropping(ev) =>
      s.(prod := PIdle, q := s.q.(dropped := s.q.dropped + 1), verdicts := s.verdicts + [false])
    case PWriting(ev, h, k) =>
      if k < FIELDS then
        var i := s.q.Slot(h);
        if i < |s.q.buf| then
          s.(prod := PWriting(ev, h, k + 1),
             q := s.q.(buf := s.q.buf[i := CopyField(s.q.buf[i], ev, k)]))
        else s
      else
        s.(prod := PIdle, q := s.q.(head := (h + 1) % U32),
           verdicts := s.verdicts + [true], accepted := s.accepted + [ev])
  }

  function NextConsumer(s: State): State
    requires s.q.buf != []
  {
    match s.cons
    case CIdle => s
    case CLoaded(t) =>
      if t == s.q.head then s.(cons := CIdle) else s.(cons := CReading(t, 0, ZERO_EVENT))
    case CReading(t, k, got) =>
      if k < FIELDS then
        var i := s.q.Slot(t);
        if i < |s.q.buf| then s.(cons := CReading(t, k + 1, CopyField(got, s.q.buf[i], k))) else s
      else
        s.(cons := CIdle, q := s.q.(tail := (t + 1) % U32), popped := s.popped + [got])
  }

  /** The events whose verdict is true, in order. */
  function Select(es: seq<Event>, keep: seq<bool>): seq<Event>
    requires |keep| <= |es|
  {
    if keep == [] then []
    else
      var n := |keep| - 1;
      Select(es, keep[..n]) + if keep[n] then [es[n]] else []
  }

  function Rejected(keep: seq<bool>): nat {
    if keep == [] then 0
    else Rejected(keep[..|keep| - 1]) + if keep[|keep| - 1] then 0 else 1
  }

  function InFlight(p: Producer): seq<Event> {
    match p
    case PIdle => []
    case PLoaded(ev, _) => [ev]
    case PWriting(ev, _, _) => [ev]
    case PDropping(ev) => [ev]
  }

  /** The state after a run, starting with any empty queue. */
  function Run(s: State, run: seq<Action>): (r: State)
    requires s.q.buf != []
    ensures |r.q.buf| == |s.q.buf|
  {
    if run == [] then s else Next(Run(s, run[..|run| - 1]), run[|run| - 1])
  }

  ghost predicate Initial(s: State) {
    && IsPow2(|s.q.buf|) && |s.q.buf| <= 0x8000_0000
    && s.q.head == 0 && s.q.tail == 0 && s.q.dropped == 0
    && s.prod.PIdle? && s.cons.CIdle?
    && s.attempted == [] && s.verdicts == [] && s.accepted == [] && s.popped == []
  }

  /** The two counters are the lengths of the histories, wrapped. */
  ghost predicate Counters(s: State) {
    && IsPow2(|s.q.buf|) && |s.q.buf| <= 0x8000_0000
    && s.q.head == |s.accepted| % U32
    && s.q.tail == |s.popped| % U32
    && |s.popped| <= |s.accepted| <= |s.popped| + |s.q.buf|
  }

  /** Events delivered so far are the oldest accepted ones, and each unread
      slot still holds the event accepted into it. */
  ghost predicate Contents(s: State)
    requires s.q.buf != []
  {
    && |s.popped| <= |s.accepted|
    && s.popped == s.accepted[..|s.popped|]
    && forall i :: |s.popped| <= i < |s.accepted| ==> s.q.buf[i % |s.q.buf|] == s.accepted[i]
  }

  ghost predicate Threads(s: State)
    requires s.q.buf != []
  {
    && (match s.prod
        case PIdle => true
        case PLoaded(_, h) => h == s.q.head
        case PDropping(_) => true
        case PWriting(ev, h, k) =>
          && h == s.q.head && k <= FIELDS
          && |s.accepted| < |s.popped| + |s.q.buf|
          && Agree(s.q.buf[|s.accepted| % |s.q.buf|], ev, k))
    && (match s.cons
        case CIdle => true
        case CLoaded(t) => t == s.q.tail
        case CReading(t, k, got) =>
          && t == s.q.tail && k <= FIELDS
          && |s.popped| < |s.accepted|
          && Agree(got, s.accepted[|s.popped|], k))
  }

  /** The ledger of pushes: every attempt has a verdict or is in flight. */
  ghost predicate Ledger(s: State) {
    && |s.verdicts| <= |s.attempted|
    && s.attempted[|s.verdicts|..] == InFlight(s.prod)
    && s.accepted == Select(s.attempted, s.verdicts)
    && s.q.dropped == Rejected(s.verdicts)
  }

  ghost predicate Inv(s: State) {
    && s.q.buf != [] && Counters(s) && Contents(s) && Threads(s) && Ledger(s)
  }

  lemma CounterFacts(s: State)
    requires s.q.buf != [] && Counters(s)
    ensures (s.q.head - s.q.tail) % U32 == |s.accepted| - |s.popped|
    ensures s.q.Slot(s.q.head) == |s.accepted| % |s.q.buf| < |s.q.buf|
    ensures s.q.Slot(s.q.tail) == |s.popped| % |s.q.buf| < |s.q.buf|
    ensures s.q.head == s.q.tail <==> |s.accepted| == |s.popped|
  {
    WrapDifference(|s.accepted|, |s.popped|);
    var k := SizeExponent(|s.q.buf|);
    SlotIsMod(s.q, s.q.head);
    SlotIsMod(s.q, s.q.tail);
    WrapThenMod(|s.accepted|, k);
    WrapThenMod(|s.popped|, k);
    if s.q.head == s.q.tail { WrapSmall(0); }
  }

  lemma SelectPrefix(es: seq<Event>, more: seq<Event>, keep: seq<bool>)
    requires |keep| <= |es|
    ensures Select(es + more, keep) == Select(es, keep)
  {
    if keep != [] { SelectPrefix(es, more, keep[..|keep| - 1]); }
  }

  lemma VerdictAppended(s: State, ok: bool)
    requires |s.verdicts| < |s.attempted|
    ensures Select(s.attempted, s.verdicts + [ok])
         == Select(s.attempted, s.verdicts) + if ok then [s.attempted[|s.verdicts|]] else []
    ensures Rejected(s.verdicts + [ok]) == Rejected(s.verdicts) + if ok then 0 else 1
  {
    assert (s.verdicts + [ok])[..|s.verdicts|] == s.verdicts;
  }

  lemma ProducerKeepsLedger(s: State, ev: Event)
    requires Inv(s)
    ensures Ledger(NextProducer(s))
    ensures Ledger(Next(s, BeginPush(ev)))
  {
    var v := |s.verdicts|;
    if s.prod.PDropping? || (s.prod.PWriting? && s.prod.k == FIELDS) {
      assert s.attempted[v..][0] == s.attempted[v] == InFlight(s.prod)[0];
      VerdictAppended(s, s.prod.PWriting?);
      assert s.attempted[v + 1..] == s.attempted[v..][1..];
    }
    if s.prod.PIdle? {
      SelectPrefix(s.attempted, [ev], s.verdicts);
      assert (s.attempted + [ev])[v..] == s.attempted[v..] + [ev];
    }
  }

  /** While the producer holds a free slot and the consumer an unread one, they
      are different slots. */
  lemma SlotsDisjoint(s: State, i: int)
    requires Inv(s) && |s.accepted| < |s.popped| + |s.q.buf|
    requires |s.popped| <= i < |s.accepted|
    ensures i % |s.q.buf| != |s.accepted| % |s.q.buf|
  {
    DistinctSlots(i, |s.accepted|, |s.q.buf|);
  }

  lemma PublishKeepsCounters(s: State)
    requires Inv(s) && s.prod.PWriting?
    ensures (s.q.head + 1) % U32 == (|s.accepted| + 1) % U32
  {
    WrapStep(|s.accepted|, 1);
  }

  /** Storing a field touches no unread event. */
  lemma StoreKeepsContents(s: State)
    requires Inv(s) && s.prod.PWriting? && s.prod.k < FIELDS
    ensures Contents(NextProducer(s)) && Threads(NextProducer(s))
  {
    CounterFacts(s);
    hide Ledger, Counters;
    forall i | |s.popped| <= i < |s.accepted| ensures i % |s.q.buf| != |s.accepted| % |s.q.buf| {
      SlotsDisjoint(s, i);
    }
  }

  lemma PublishKeepsContents(s: State)
    requires Inv(s) && s.prod.PWriting? && s.prod.k == FIELDS
    ensures Counters(NextProducer(s)) && Contents(NextProducer(s)) && Threads(NextProducer(s))
  {
    PublishKeepsCounters(s);
    hide Ledger;
    assert s.q.buf[|s.accepted| % |s.q.buf|] == s.prod.ev;
  }

  lemma ProducerKeepsInv(s: State)
    requires Inv(s)
    ensures Inv(NextProducer(s))
  {
    ProducerKeepsLedger(s, ZERO_EVENT);
    hide Ledger;
    CounterFacts(s);
    if s.prod.PWriting? {
      if s.prod.k < FIELDS { StoreKeepsContents(s); } else { PublishKeepsContents(s); }
    }
  }

  lemma ConsumerKeepsInv(s: State)
    requires Inv(s)
    ensures Inv(NextConsumer(s))
  {
    CounterFacts(s);
    if s.cons.CReading? && s.cons.k == FIELDS {
      WrapStep(|s.popped|, 1);
      assert s.cons.got == s.accepted[|s.popped|];
    }
  }

  lemma {:induction false} RunKeepsInv(s: State, run: seq<Action>)
    requires Initial(s)
    ensures s.q.buf != [] && Inv(Run(s, run))
  {
    NonEmpty(s.q);
    if run == [] {
      WrapSmall(0);
    } else {
      var r := Run(s, run[..|run| - 1]);
      RunKeepsInv(s, run[..|run| - 1]);
      match run[|run| - 1]
      case BeginPush(ev) => ProducerKeepsLedger(r, ev);
      case ProducerStep => ProducerKeepsInv(r);
      case BeginPop =>
      case ConsumerStep => ConsumerKeepsInv(r);
    }
  }

  /** FIFO: under every interleaving the delivered events followed by the unread
      ones are the accepted events in order, nothing lost and nothing repeated. */
  lemma Fifo(s: State, run: seq<Action>)
    requires Initial(s)
    ensures s.q.buf != []
    ensures var r := Run(s, run);
            && r.q.Valid()
            && r.popped + r.q.Pending() == r.accepted
  {
    RunKeepsInv(s, run);
    hide Run, Inv, Initial, Queue.Valid, Queue.Pending;
    PendingIsRest(Run(s, run));
  }

  lemma PendingIsRest(s: State)
    requires s.q.buf != [] && Inv(s)
    ensures s.q.Valid() && s.popped + s.q.Pending() == s.accepted
  {
    hide Threads, Ledger;
    CounterFacts(s);
    forall i: nat | |s.popped| + i < |s.accepted| ensures s.q.At(i) == s.accepted[|s.popped| + i] {
      UnreadSlot(s, i);
    }
    assert s.q.Pending() == s.accepted[|s.popped|..];
  }

  lemma UnreadSlot(s: State, i: nat)
    requires s.q.buf != [] && Counters(s)
    ensures s.q.Slot(s.q.tail + i) == (|s.popped| + i) % |s.q.buf|
  {
    SlotIsMod(s.q, s.q.tail + i);
    var k := SizeExponent(|s.q.buf|);
    WrapStep(|s.popped|, i);
    WrapThenMod(|s.popped| + i, k);
    WrapThenMod(s.q.tail + i, k);
  }

  /** Conservation: the accepted events are the attempted ones minus those
      counted in `dropped`, in their original order; at most the push in
      flight has no verdict yet. */
  lemma Conservation(s: State, run: seq<Action>)
    requires Initial(s)
    ensures s.q.buf != []
    ensures var r := Run(s, run);
            && |r.verdicts| <= |r.attempted|
            && r.accepted == Select(r.attempted, r.verdicts)
            && |r.attempted| == |r.accepted| + r.q.dropped + |InFlight(r.prod)|
  {
    RunKeepsInv(s, run);
    var r := Run(s, run);
    SelectSize(r.attempted, r.verdicts);
    assert |r.attempted[|r.verdicts|..]| == |InFlight(r.prod)|;
  }

  lemma {:induction false} SelectSize(es: seq<Event>, keep: seq<bool>)
    requires |keep| <= |es|
    ensures |Select(es, keep)| + Rejected(keep) == |keep|
  {
    if keep != [] { SelectSize(es, keep[..|keep| - 1]); }
  }

  /** An event is given up only when the queue holds as many unread events as
      it has slots, at the moment the producer loads `tail`. */
  lemma DropsOnlyWhenFull(s: State, run: seq<Action>)
    requires Initial(s)
    ensures s.q.buf != []
    ensures var r := Run(s, run);
            r.prod.PLoaded? ==>
              (Next(r, ProducerStep).prod.PDropping? <==> |r.accepted| - |r.popped| == |r.q.buf|)
  {
    RunKeepsInv(s, run);
    CounterFacts(Run(s, run));
  }

  /** The producer never stores into the slot the consumer is reading, nor into
      any slot that holds an unread event. */
  lemma NoSlotConflict(s: State, run: seq<Action>)
    requires Initial(s)
    ensures s.q.buf != []
    ensures var r := Run(s, run);
            r.prod.PWriting? ==>
              && (r.cons.CReading? ==> r.q.Slot(r.prod.h) != r.q.Slot(r.cons.t))
              && (forall i :: |r.popped| <= i < |r.accepted| ==> r.q.Slot(r.prod.h) != i % |r.q.buf|)
  {
    RunKeepsInv(s, run);
    var r := Run(s, run);
    CounterFacts(r);
    if r.prod.PWriting? {
      forall i | |r.popped| <= i < |r.accepted| ensures r.q.Slot(r.prod.h) != i % |r.q.buf| {
        SlotsDisjoint(r, i);
      }
    }
  }

  /** n repetitions of a step after a first one. */
  function Repeat(first: Action, then_: Action, n: nat): seq<Action> {
    if n == 0 then [first] else Repeat(first, then_, n - 1) + [then_]
  }

  lemma RunSnoc(s: State, run: seq<Action>, a: Action)
    requires s.q.buf != []
    ensures Run(s, run + [a]) == Next(Run(s, run), a)
  {
    assert (run + [a])[..|run|] == run;
  }

  lemma {:induction false} RepeatStep(s: State, first: Action, then_: Action, n: nat)
    requires s.q.buf != []
    ensures Run(s, Repeat(first, then_, 0)) == Next(s, first)
    ensures n > 0 ==> Run(s, Repeat(first, then_, n)) == Next(Run(s, Repeat(first, then_, n - 1)), then_)
  {
    RunSnoc(s, [], first);
    assert [] + [first] == Repeat(first, then_, 0);
    if n > 0 { RunSnoc(s, Repeat(first, then_, n - 1), then_); }
  }

  /** A push begun at s and given n further producer steps. */
  function PushRun(ev: Event, n: nat): seq<Action> {
    Repeat(BeginPush(ev), ProducerStep, n)
  }

  lemma PushRunStep(s: State, ev: Event, n: nat)
    requires s.q.buf != []
    ensures Run(s, PushRun(ev, 0)) == Next(s, BeginPush(ev))
    ensures n > 0 ==> Run(s, PushRun(ev, n)) == NextProducer(Run(s, PushRun(ev, n - 1)))
  {
    hide Repeat, Run;
    RepeatStep(s, BeginPush(ev), ProducerStep, n);
  }

  /** dst with its first k fields taken from src. */
  function Mixed(dst: Event, src: Event, k: nat): Event {
    if k == 0 then dst else CopyField(Mixed(dst, src, k - 1), src, k - 1)
  }

  /** s with a push of ev that has stored k fields. */
  function Storing(s: State, ev: Event, k: nat): State
    requires s.q.buf != [] && s.q.Slot(s.q.head) < |s.q.buf|
  {
    var i := s.q.Slot(s.q.head);
    s.(prod := PWriting(ev, s.q.head, k), attempted := s.attempted + [ev],
       q := s.q.(buf := s.q.buf[i := Mixed(s.q.buf[i], ev, k)]))
  }

  lemma StoreOne(s: State, ev: Event, k: nat)
    requires s.q.buf != [] && s.q.Slot(s.q.head) < |s.q.buf| && k < FIELDS
    ensures NextProducer(Storing(s, ev, k)) == Storing(s, ev, k + 1)
  {
    var i := s.q.Slot(s.q.head);
    var m := Mixed(s.q.buf[i], ev, k);
    assert s.q.buf[i := m][i := CopyField(m, ev, k)] == s.q.buf[i := CopyField(m, ev, k)];
  }

  lemma {:induction false} FieldsStored(s: State, ev: Event, k: nat)
    requires s.q.buf != [] && s.q.Slot(s.q.head) < |s.q.buf|
    requires s.prod.PIdle? && s.q.Count() < |s.q.buf| && k <= FIELDS
    ensures Run(s, PushRun(ev, k + 1)) == Storing(s, ev, k)
  {
    hide *;
    if k == 0 {
      NothingStored(s, ev);
    } else {
      FieldsStored(s, ev, k - 1);
      StoreOne(s, ev, k - 1);
      PushRunStep(s, ev, k + 1);
    }
  }

  lemma NothingStored(s: State, ev: Event)
    requires s.q.buf != [] && s.q.Slot(s.q.head) < |s.q.buf|
    requires s.prod.PIdle? && s.q.Count() < |s.q.buf|
    ensures Run(s, PushRun(ev, 1)) == Storing(s, ev, 0)
  {
    hide Run, PushRun, Queue.Slot, CopyField;
    PushRunStep(s, ev, 1);
    var i := s.q.Slot(s.q.head);
    assert s.q.buf == s.q.buf[i := s.q.buf[i]];
  }

  lemma MixedAll(dst: Event, src: Event)
    ensures Mixed(dst, src, FIELDS) == src
  {
    assert Mixed(dst, src, 1) == CopyField(dst, src, 0);
    assert Mixed(dst, src, 2) == CopyField(Mixed(dst, src, 1), src, 1);
    assert Mixed(dst, src, 3) == CopyField(Mixed(dst, src, 2), src, 2);
  }

  /** Left alone, the steps of one push amount to the call the ring object
      makes: two further steps when the queue is full, six otherwise. */
  lemma PushAlone(s: State, ev: Event)
    requires s.q.Valid() && s.prod.PIdle?
    ensures s.q.buf != [] && s.q.Slot(s.q.head) < |s.q.buf|
    ensures var r := Run(s, PushRun(ev, if s.q.Count() < |s.q.buf| then FIELDS + 2 else 2));
            r.q == Pushed(s.q, ev) && r.prod.PIdle? && r.cons == s.cons
  {
    hide Run, Repeat, Mixed, Queue.Slot;
    SlotIsMod(s.q, s.q.head);
    if s.q.Count() < |s.q.buf| {
      FieldsStored(s, ev, FIELDS);
      PushRunStep(s, ev, FIELDS + 2);
      MixedAll(s.q.buf[s.q.Slot(s.q.head)], ev);
    } else {
      PushRunStep(s, ev, 1);
      PushRunStep(s, ev, 2);
    }
  }

  /** A pop begun at s and given n further consumer steps. */
  function PopRun(n: nat): seq<Action> {
    Repeat(BeginPop, ConsumerStep, n)
  }

  /** s with a pop under way that has loaded k fields. */
  function Loading(s: State, k: nat): State
    requires s.q.buf != [] && s.q.Slot(s.q.tail) < |s.q.buf|
  {
    s.(cons := CReading(s.q.tail, k, Mixed(ZERO_EVENT, s.q.buf[s.q.Slot(s.q.tail)], k)))
  }

  lemma {:induction false} FieldsLoaded(s: State, k: nat)
    requires s.q.buf != [] && s.q.Slot(s.q.tail) < |s.q.buf|
    requires s.cons.CIdle? && s.q.tail != s.q.head && k <= FIELDS
    ensures Run(s, PopRun(k + 1)) == Loading(s, k)
  {
    hide Run, Repeat;
    RepeatStep(s, BeginPop, ConsumerStep, k + 1);
    if k == 0 { RepeatStep(s, BeginPop, ConsumerStep, 0); } else { FieldsLoaded(s, k - 1); }
  }

  /** Left alone, the steps of one pop amount to the call the ring object makes:
      one further step when the queue is empty, six otherwise. */
  lemma PopAlone(s: State)
    requires s.q.Valid() && s.cons.CIdle?
    ensures s.q.buf != [] && s.q.Slot(s.q.tail) < |s.q.buf|
    ensures s.q.Pending() == [] ==> Run(s, PopRun(1)) == s
    ensures s.q.Pending() != [] ==>
              Run(s, PopRun(FIELDS + 2)) == s.(q := Popped(s.q), popped := s.popped + [s.q.Pending()[0]])
  {
    hide Run, Repeat, Mixed, Queue.Slot;
    SlotIsMod(s.q, s.q.tail);
    EmptyCount(s.q);
    if s.q.tail == s.q.head {
      RepeatStep(s, BeginPop, ConsumerStep, 0);
      RepeatStep(s, BeginPop, ConsumerStep, 1);
    } else {
      PopRemoves(s.q);
      hide Queue.At, Queue.Valid;
      MixedAll(ZERO_EVENT, s.q.buf[s.q.Slot(s.q.tail)]);
      FieldsLoaded(s, FIELDS);
      RepeatStep(s, BeginPop, ConsumerStep, FIELDS + 2);
    }
  }
}
