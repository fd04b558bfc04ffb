/** Where polled GPIO edges go: the level words, the event queue of
    `tt_poll_events` and the trigger queue of `tt_trigger_block`
    (`handle_events`, `tt_poll_events` in src/tt_core.c). A level word is
    represented by the set of its one-bits. */
module FanOut {
  import opened EventQueue
  import opened Trigger
  import opened Words

  const MAX_BUTTONS := 3
  const EVENT_BATCH := 64

  predicate IsTrigger(e: Event) { e.kind == TRIGGER }

  predicate SetsTrigger(e: Event) { e.kind == TRIGGER && e.index < MAX_TRIGGERS }

  predicate SetsButton(e: Event) { e.kind == BUTTON && e.index < MAX_BUTTONS }

  /** What a queue of the given capacity holds after being offered an event. */
  function Offer(q: seq<Event>, cap: nat, e: Event): seq<Event> {
    if |q| < cap then q + [e] else q
  }

  function OfferAll(q: seq<Event>, cap: nat, es: seq<Event>): seq<Event> {
    if es == [] then q else Offer(OfferAll(q, cap, es[..|es| - 1]), cap, es[|es| - 1])
  }

  function Triggers(es: seq<Event>): seq<Event> {
    if es == [] then []
    else Triggers(es[..|es| - 1]) + if IsTrigger(es[|es| - 1]) then [es[|es| - 1]] else []
  }

  /** The value of the last edge in es of the given kind and index, v when there
      is none. */
  function LastValue(es: seq<Event>, kind: Byte, i: nat, v: bool): bool {
    if es == [] then v
    else
      var e := es[|es| - 1];
      if e.kind == kind && e.index == i then e.value != 0 else LastValue(es[..|es| - 1], kind, i, v)
  }

  /** `after` shows, for each of the first count bits, the last value in es, and
      the bit of `before` where es has none; other bits stay. */
  ghost predicate LevelsAfter(before: set<nat>, after: set<nat>, es: seq<Event>, kind: Byte, count: nat) {
    forall i: nat :: i in after <==> if i < count then LastValue(es, kind, i, i in before) else i in before
  }

  lemma LevelsSnoc(before: set<nat>, after: set<nat>, es: seq<Event>, e: Event, kind: Byte, count: nat)
    requires LevelsAfter(before, after, es, kind, count)
    ensures LevelsAfter(before,
              if e.kind == kind && e.index < count then WithBit(after, e.index, e.value != 0) else after,
              es + [e], kind, count)
  {
    assert (es + [e])[..|es|] == es;
  }

  class Inputs {
    const ev: EvRing
    const tev: EvRing
    const btnSince: array<nat>
    var trigLevel: set<nat>
    var btnLevel: set<nat>
    var nEvents: nat

    ghost predicate Valid()
      reads this, ev, ev.buf, tev, tev.buf
    {
      && ev.Valid() && tev.Valid()
      && ev != tev && ev.buf != tev.buf
      && btnSince.Length == MAX_BUTTONS
    }

    constructor (ev: EvRing, tev: EvRing)
      requires ev.Valid() && tev.Valid() && ev != tev && ev.buf != tev.buf
      ensures Valid() && this.ev == ev && this.tev == tev
      ensures trigLevel == {} && btnLevel == {} && nEvents == 0
      ensures fresh(btnSince) && forall i :: 0 <= i < btnSince.Length ==> btnSince[i] == 0
    {
      this.ev, this.tev := ev, tev;
      btnSince := new nat[MAX_BUTTONS](_ => 0);
      trigLevel, btnLevel, nEvents := {}, {}, 0;
    }

    /** Works through what one poll of the GPIO backend returned. */
    method HandleEvents(batch: seq<Event>)
      requires Valid() && |batch| <= EVENT_BATCH
      modifies this`trigLevel, this`btnLevel, this`nEvents, btnSince
      modifies ev`head, ev`dropped, ev.buf, tev`head, tev`dropped, tev.buf
      ensures Valid()
      ensures LevelsAfter(old(trigLevel), trigLevel, batch, TRIGGER, MAX_TRIGGERS)
      ensures LevelsAfter(old(btnLevel), btnLevel, batch, BUTTON, MAX_BUTTONS)
      ensures ev.Contents() == OfferAll(old(ev.Contents()), ev.size, batch)
      ensures tev.Contents() == OfferAll(old(tev.Contents()), tev.size, Triggers(batch))
      ensures |ev.Contents()| + ev.dropped == old(|ev.Contents()| + ev.dropped) + |batch|
      ensures |tev.Contents()| + tev.dropped == old(|tev.Contents()| + tev.dropped) + |Triggers(batch)|
      ensures nEvents == old(nEvents) + |batch|
    {
      var n, i := |batch|, 0;
      assert batch[..0] == [];
      while i < n
        invariant 0 <= i <= n && Valid()
        invariant LevelsAfter(old(trigLevel), trigLevel, batch[..i], TRIGGER, MAX_TRIGGERS)
        invariant LevelsAfter(old(btnLevel), btnLevel, batch[..i], BUTTON, MAX_BUTTONS)
        invariant ev.Contents() == OfferAll(old(ev.Contents()), ev.size, batch[..i])
        invariant tev.Contents() == OfferAll(old(tev.Contents()), tev.size, Triggers(batch[..i]))
        invariant |ev.Contents()| + ev.dropped == old(|ev.Contents()| + ev.dropped) + i
        invariant |tev.Contents()| + tev.dropped == old(|tev.Contents()| + tev.dropped) + |Triggers(batch[..i])|
        invariant nEvents == old(nEvents) + i
      {
        assert batch[..i + 1] == batch[..i] + [batch[i]];
        LevelsSnoc(old(trigLevel), trigLevel, batch[..i], batch[i], TRIGGER, MAX_TRIGGERS);
        LevelsSnoc(old(btnLevel), btnLevel, batch[..i], batch[i], BUTTON, MAX_BUTTONS);
        OfferAllSnoc(old(ev.Contents()), ev.size, batch[..i], batch[i]);
        OfferTriggers(old(tev.Contents()), tev.size, batch[..i], batch[i]);
        HandleOne(batch[i]);
        i := i + 1;
      }
      assert batch[..n] == batch;
    }

    /** One polled edge: its level bit, then its copies in the two queues. */
    method HandleOne(e: Event)
      requires Valid()
      modifies this`trigLevel, this`btnLevel, this`nEvents, btnSince
      modifies ev`head, ev`dropped, ev.buf, tev`head, tev`dropped, tev.buf
      ensures Valid()
      ensures trigLevel == if SetsTrigger(e) then WithBit(old(trigLevel), e.index, e.value != 0) else old(trigLevel)
      ensures btnLevel == if SetsButton(e) then WithBit(old(btnLevel), e.index, e.value != 0) else old(btnLevel)
      ensures ev.Contents() == Offer(old(ev.Contents()), ev.size, e)
      ensures tev.Contents() == if IsTrigger(e) then Offer(old(tev.Contents()), tev.size, e) else old(tev.Contents())
      ensures |ev.Contents()| + ev.dropped == old(|ev.Contents()| + ev.dropped) + 1
      ensures |tev.Contents()| + tev.dropped == old(|tev.Contents()| + tev.dropped) + if IsTrigger(e) then 1 else 0
      ensures nEvents == old(nEvents) + 1
    {
      NoteLevel(e);
      ghost var queued := tev.Contents();
      var _ := ev.Push(e);
      assert tev.Contents() == queued;
      if e.kind == TRIGGER {
        ghost var seen := ev.Contents();
        var _ := tev.Push(e);
        assert ev.Contents() == seen;
      }
      nEvents := nEvents + 1;
    }

    /** Updates the level word an edge belongs to. */
    method NoteLevel(e: Event)
      requires btnSince.Length == MAX_BUTTONS
      modifies this`trigLevel, this`btnLevel, btnSince
      ensures trigLevel == if SetsTrigger(e) then WithBit(old(trigLevel), e.index, e.value != 0) else old(trigLevel)
      ensures btnLevel == if SetsButton(e) then WithBit(old(btnLevel), e.index, e.value != 0) else old(btnLevel)
      ensures forall b: nat :: b in trigLevel <==>
                if e.kind == 0 && e.index < 4 && b == e.index then e.value != 0 else b in old(trigLevel)
      ensures forall b: nat :: b in btnLevel <==>
                if e.kind == 1 && e.index < 3 && b == e.index then e.value != 0 else b in old(btnLevel)
      ensures btnSince[..] ==
              if SetsButton(e) then old(btnSince[..])[e.index := if e.value != 0 then e.timeNs else 0]
              else old(btnSince[..])
    {
      if e.kind == TRIGGER && e.index < MAX_TRIGGERS {
        trigLevel := WithBit(trigLevel, e.index, e.value != 0);
      } else if e.kind == BUTTON && e.index < MAX_BUTTONS {
        btnLevel := WithBit(btnLevel, e.index, e.value != 0);
        btnSince[e.index] := if e.value != 0 then e.timeNs else 0;
      }
    }

    /** `tt_poll_events`: up to max events, oldest first. */
    method PollEvents(out: array<Event>, max: int) returns (n: nat)
      requires Valid() && max <= out.Length && out != ev.buf && out != tev.buf
      modifies ev`tail, out
      ensures Valid()
      ensures n == if max <= 0 then 0 else if |old(ev.Contents())| < max then |old(ev.Contents())| else max
      ensures out[..n] == old(ev.Contents())[..n]
      ensures ev.Contents() == old(ev.Contents())[n..]
      ensures tev.Contents() == old(tev.Contents())
    {
      if max <= 0 { return 0; }
      n := ev.Drain(out, 0, max);
    }
  }

  lemma OfferAllSnoc(q: seq<Event>, cap: nat, es: seq<Event>, e: Event)
    ensures OfferAll(q, cap, es + [e]) == Offer(OfferAll(q, cap, es), cap, e)
  {
    assert (es + [e])[..|es|] == es;
  }

  lemma OfferTriggers(q: seq<Event>, cap: nat, es: seq<Event>, e: Event)
    ensures Triggers(es + [e]) == Triggers(es) + if IsTrigger(e) then [e] else []
    ensures OfferAll(q, cap, Triggers(es + [e])) ==
              if IsTrigger(e) then Offer(OfferAll(q, cap, Triggers(es)), cap, e) else OfferAll(q, cap, Triggers(es))
  {
    assert (es + [e])[..|es|] == es;
    OfferAllSnoc(q, cap, Triggers(es), e);
    assert Triggers(es) + [] == Triggers(es);
  }
}
