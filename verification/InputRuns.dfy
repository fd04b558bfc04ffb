/** The input side of a context as one system: polling, `tt_poll_events` and
    `tt_trigger_block`, in any order (src/tt_core.c). */
module InputRuns {
  import opened EventQueue
  import opened FanOut
  import opened Frames
  import opened Trigger
  import opened Words
  import TriggerRuns

  datatype Action =
    | Poll(batch: seq<Event>)                          // handle_events
    | PollEvents(max: nat)                             // tt_poll_events
    | Render(t0: nat, nsPerFrame: real, n: nat)        // tt_trigger_block, every channel

  /** The input side as values. `evq` and `tevq` are the unread events of the
      two queues. The last lists record the trigger edges polled, those the
      trigger queue took, those it refused because it was full, and those a
      block has worked into its output. */
  datatype State = State(
    trig: set<nat>, evq: seq<Event>, tevq: seq<Event>, held: seq<Event>, render: seq<real>,
    output: seq<seq<seq<real>>>,
    polled: seq<Event>, accepted: seq<Event>, dropped: seq<Event>, consumed: seq<Event>)

  const START := State({}, [], [], [], [0.0, 0.0, 0.0, 0.0], [], [], [], [], [])

  /** How many events the two queues hold. */
  datatype Caps = Caps(ev: nat, tev: nat)

  function Least(a: nat, b: nat): nat {
    if a < b then a else b
  }

  /** One polled edge: its level bit and its copies in the two queues. */
  function Polled(s: State, caps: Caps, e: Event): State {
    var s := s.(trig := if SetsTrigger(e) then WithBit(s.trig, e.index, e.value != 0) else s.trig,
                evq := Offer(s.evq, caps.ev, e));
    if !IsTrigger(e) then s
    else if |s.tevq| < caps.tev then
      s.(polled := s.polled + [e], tevq := s.tevq + [e], accepted := s.accepted + [e])
    else s.(polled := s.polled + [e], dropped := s.dropped + [e])
  }

  function PolledAll(s: State, caps: Caps, es: seq<Event>): State {
    if es == [] then s else Polled(PolledAll(s, caps, es[..|es| - 1]), caps, es[|es| - 1])
  }

  /** The edges of a batch that fall inside the window, in order. */
  function Consumed(es: seq<Event>, wend: int): seq<Event> {
    if es == [] then []
    else Consumed(es[..|es| - 1], wend) + if es[|es| - 1].timeNs < wend then [es[|es| - 1]] else []
  }

  function Rendered(s: State, t0: nat, nsPerFrame: real, n: nat): State
    requires |s.render| == MAX_TRIGGERS
  {
    var k := Least(HELD_MAX - Least(|s.held|, HELD_MAX), |s.tevq|);
    var es := s.held + s.tevq[..k];
    var wend := WindowEnd(t0, nsPerFrame, n);
    s.(tevq := s.tevq[k..], held := HeldBack(es, wend),
       render := seq(MAX_TRIGGERS, ch requires 0 <= ch < MAX_TRIGGERS => StepLevel(es, ch, wend as real, s.render[ch])),
       output := s.output + [seq(MAX_TRIGGERS, ch requires 0 <= ch < MAX_TRIGGERS =>
                   seq(n, f requires 0 <= f => StepLevel(es, ch, FrameCut(t0, nsPerFrame, n, f), s.render[ch])))],
       consumed := s.consumed + Consumed(es, wend))
  }

  function Next(s: State, caps: Caps, a: Action): State
    requires |s.render| == MAX_TRIGGERS
  {
    match a
    case Poll(batch) => PolledAll(s, caps, batch)
    case PollEvents(max) => s.(evq := s.evq[Least(max, |s.evq|)..])
    case Render(t0, p, n) => if n == 0 || p <= 0.0 then s else Rendered(s, t0, p, n)
  }

  lemma {:induction false} PolledAllKeepsRender(s: State, caps: Caps, es: seq<Event>)
    ensures PolledAll(s, caps, es).render == s.render
  {
    if es != [] { PolledAllKeepsRender(s, caps, es[..|es| - 1]); }
  }

  function Run(caps: Caps, run: seq<Action>): (s: State)
    ensures |s.render| == MAX_TRIGGERS
  {
    if run == [] then START
    else
      var s := Run(caps, run[..|run| - 1]);
      (match run[|run| - 1] case Poll(batch) => PolledAllKeepsRender(s, caps, batch); Next(s, caps, run[|run| - 1])
                            case _ => Next(s, caps, run[|run| - 1]))
  }

  /** Every trigger edge polled so far is in exactly one place. */
  ghost predicate Conserved(s: State) {
    multiset(s.polled) == multiset(s.consumed) + multiset(s.held) + multiset(s.tevq) + multiset(s.dropped)
  }

  ghost predicate LevelsCurrent(s: State) {
    forall i: nat :: i in s.trig <==> i < MAX_TRIGGERS && LastValue(s.polled, TRIGGER, i, false)
  }

  lemma PolledKeeps(s: State, caps: Caps, e: Event)
    requires Conserved(s) && LevelsCurrent(s)
    ensures Conserved(Polled(s, caps, e)) && LevelsCurrent(Polled(s, caps, e))
  {
    var r := Polled(s, caps, e);
    if IsTrigger(e) {
      assert (s.polled + [e])[..|s.polled|] == s.polled;
      assert LevelsCurrent(r);
    }
  }

  lemma {:induction false} PolledAllKeeps(s: State, caps: Caps, es: seq<Event>)
    requires Conserved(s) && LevelsCurrent(s)
    ensures Conserved(PolledAll(s, caps, es)) && LevelsCurrent(PolledAll(s, caps, es))
  {
    if es != [] {
      PolledAllKeeps(s, caps, es[..|es| - 1]);
      PolledKeeps(PolledAll(s, caps, es[..|es| - 1]), caps, es[|es| - 1]);
    }
  }

  /** A window splits its batch into the consumed edges and the held ones. */
  lemma {:induction false} WindowSplits(es: seq<Event>, wend: int)
    ensures multiset(es) == multiset(Consumed(es, wend)) + multiset(HeldBack(es, wend))
  {
    if es != [] {
      var n := |es| - 1;
      var e := es[n];
      WindowTakes(es, wend);
      hide *;
      WindowSplits(es[..n], wend);
      SplitLast(es, [e]);
      Concat(Consumed(es[..n], wend), if e.timeNs < wend then [e] else []);
      Concat(HeldBack(es[..n], wend), if e.timeNs >= wend then [e] else []);
    }
  }

  lemma {:induction false} WindowTakes(es: seq<Event>, wend: int)
    requires es != []
    ensures var n := |es| - 1;
            && Consumed(es, wend) == Consumed(es[..n], wend) + (if es[n].timeNs < wend then [es[n]] else [])
            && HeldBack(es, wend) == HeldBack(es[..n], wend) + (if es[n].timeNs >= wend then [es[n]] else [])
  {}

  lemma Concat(a: seq<Event>, b: seq<Event>)
    ensures multiset(a + b) == multiset(a) + multiset(b)
  {}

  lemma SplitLast(es: seq<Event>, last: seq<Event>)
    requires es != [] && last == [es[|es| - 1]]
    ensures multiset(es) == multiset(es[..|es| - 1]) + multiset(last)
  {
    assert es == es[..|es| - 1] + last;
  }

  /** Splitting the queue and regrouping the batch moves no element. */
  lemma Regroup(c: multiset<Event>, h: multiset<Event>, q1: multiset<Event>, q2: multiset<Event>,
                d: multiset<Event>, c': multiset<Event>, h': multiset<Event>)
    requires h + q1 == c' + h'
    ensures c + h + (q1 + q2) + d == (c + c') + h' + q2 + d
  {
    assert c + h + (q1 + q2) + d == c + (h + q1) + q2 + d;
  }

  lemma Rebalance(s: State, es: seq<Event>, k: nat, wend: int)
    requires Conserved(s) && k <= |s.tevq| && es == s.held + s.tevq[..k]
    ensures multiset(s.polled) == multiset(s.consumed + Consumed(es, wend)) + multiset(HeldBack(es, wend))
                                  + multiset(s.tevq[k..]) + multiset(s.dropped)
  {
    hide Consumed, HeldBack;
    WindowSplits(es, wend);
    Concat(s.held, s.tevq[..k]);
    Concat(s.tevq[..k], s.tevq[k..]);
    assert s.tevq == s.tevq[..k] + s.tevq[k..];
    Concat(s.consumed, Consumed(es, wend));
    Regroup(multiset(s.consumed), multiset(s.held), multiset(s.tevq[..k]), multiset(s.tevq[k..]), multiset(s.dropped),
            multiset(Consumed(es, wend)), multiset(HeldBack(es, wend)));
  }

  lemma RenderedKeeps(s: State, t0: nat, nsPerFrame: real, n: nat)
    requires |s.render| == MAX_TRIGGERS && Conserved(s)
    ensures Conserved(Rendered(s, t0, nsPerFrame, n))
  {
    var k := Least(HELD_MAX - Least(|s.held|, HELD_MAX), |s.tevq|);
    Rebalance(s, s.held + s.tevq[..k], k, WindowEnd(t0, nsPerFrame, n));
  }

  /** Conservation over every run: each polled trigger edge has been rendered,
      is held, is queued, or was dropped by the trigger queue, exactly once;
      and `trig_level` is the last polled value of every trigger. */
  lemma {:induction false} EdgesConserved(caps: Caps, run: seq<Action>)
    ensures Conserved(Run(caps, run)) && LevelsCurrent(Run(caps, run))
  {
    if run != [] {
      var s := Run(caps, run[..|run| - 1]);
      EdgesConserved(caps, run[..|run| - 1]);
      match run[|run| - 1]
      case Poll(batch) => PolledAllKeeps(s, caps, batch);
      case PollEvents(_) =>
      case Render(t0, p, n) => if n != 0 && p > 0.0 { RenderedKeeps(s, t0, p, n); }
    }
  }

  /** The run with every `tt_poll_events` call left out. */
  function WithoutPollEvents(run: seq<Action>): seq<Action> {
    if run == [] then []
    else
      WithoutPollEvents(run[..|run| - 1]) + if run[|run| - 1].PollEvents? then [] else [run[|run| - 1]]
  }

  /** The two states agree on everything but the event queue. */
  predicate SameTriggerSide(a: State, b: State) {
    a.(evq := []) == b.(evq := [])
  }

  lemma {:induction false} PolledAllIndependent(a: State, b: State, caps: Caps, es: seq<Event>)
    requires SameTriggerSide(a, b)
    ensures SameTriggerSide(PolledAll(a, caps, es), PolledAll(b, caps, es))
  {
    if es != [] { PolledAllIndependent(a, b, caps, es[..|es| - 1]); }
  }

  /** Independence: what `tt_trigger_block` renders, and every trigger edge's
      fate, is the same whether and however often `tt_poll_events` is called. */
  lemma {:induction false} RenderingIgnoresPollEvents(caps: Caps, run: seq<Action>)
    ensures SameTriggerSide(Run(caps, run), Run(caps, WithoutPollEvents(run)))
    ensures Run(caps, run).output == Run(caps, WithoutPollEvents(run)).output
  {
    hide Next;
    if run != [] {
      var n := |run| - 1;
      var quiet := WithoutPollEvents(run[..n]);
      var a, b := Run(caps, run[..n]), Run(caps, quiet);
      RenderingIgnoresPollEvents(caps, run[..n]);
      NextIndependent(a, b, caps, run[n]);
      if !run[n].PollEvents? {
        assert (quiet + [run[n]])[..|quiet|] == quiet;
      } else {
        assert quiet + [] == quiet;
      }
    }
  }

  lemma NextIndependent(a: State, b: State, caps: Caps, act: Action)
    requires |a.render| == |b.render| == MAX_TRIGGERS && SameTriggerSide(a, b)
    ensures SameTriggerSide(Next(a, caps, act), if act.PollEvents? then b else Next(b, caps, act))
  {
    hide StepLevel, HeldBack, FrameCut, WindowEnd, PolledAll, Consumed;
    if act.Poll? { PolledAllIndependent(a, b, caps, act.batch); }
  }

  // Runs of the whole input side are runs of the renderer.

  /** How many queued edges the next block drains. */
  function Taken(s: State): nat {
    Least(HELD_MAX - Least(|s.held|, HELD_MAX), |s.tevq|)
  }

  /** The block calls of a run, with what each of them drained. */
  function CallsOf(caps: Caps, run: seq<Action>): seq<TriggerRuns.Call> {
    if run == [] then []
    else
      var m := |run| - 1;
      CallsOf(caps, run[..m]) +
      match run[m]
      case Render(t0, p, n) =>
        if n == 0 || p <= 0.0 then [] else [TriggerRuns.Call(t0, p, n, Taken(Run(caps, run[..m])))]
      case _ => []
  }

  /** Everything written to channel ch, end to end. */
  function Channel(output: seq<seq<seq<real>>>, ch: nat): seq<real>
    requires forall b :: 0 <= b < |output| ==> ch < |output[b]|
  {
    if output == [] then [] else Channel(output[..|output| - 1], ch) + output[|output| - 1][ch]
  }

  ghost predicate Framed(output: seq<seq<seq<real>>>) {
    forall b :: 0 <= b < |output| ==> |output[b]| == MAX_TRIGGERS
  }

  /** The state of the renderer, as TriggerRuns has it, is that of the calls. */
  ghost predicate IsTriggerRun(s: State, calls: seq<TriggerRuns.Call>) {
    var d := TriggerRuns.TotalDrained(calls);
    && d <= |s.accepted| && s.tevq == s.accepted[d..] && Framed(s.output)
    && TriggerRuns.Run(s.accepted, calls) == TriggerRuns.State(d, s.held, s.render)
    && forall ch :: 0 <= ch < MAX_TRIGGERS ==> Channel(s.output, ch) == TriggerRuns.Output(s.accepted, calls, ch)
  }

  /** Any run of the input side drives the renderer through a run of its block
      calls over the edges the trigger queue accepted, with the same output. */
  lemma {:induction false} RunIsTriggerRun(caps: Caps, run: seq<Action>)
    ensures IsTriggerRun(Run(caps, run), CallsOf(caps, run))
  {
    if run != [] {
      var m := |run| - 1;
      var s, calls := Run(caps, run[..m]), CallsOf(caps, run[..m]);
      RunIsTriggerRun(caps, run[..m]);
      hide IsTriggerRun;
      match run[m]
      case Poll(batch) =>
        PolledAllIsTriggerRun(s, caps, batch, calls);
        assert calls + [] == calls;
      case PollEvents(max) =>
        SameRun(s, s.(evq := s.evq[Least(max, |s.evq|)..]), calls);
        assert calls + [] == calls;
      case Render(t0, p, n) =>
        if n == 0 || p <= 0.0 {
          assert calls + [] == calls;
        } else {
          RenderedIsAfter(s, calls, t0, p, n);
        }
    }
  }

  lemma SameRun(s: State, r: State, calls: seq<TriggerRuns.Call>)
    requires IsTriggerRun(s, calls) && r == s.(evq := r.evq)
    ensures IsTriggerRun(r, calls)
  {}

  /** A block of the model is a call of TriggerRuns. */
  lemma RenderedIsAfter(s: State, calls: seq<TriggerRuns.Call>, t0: nat, p: real, n: nat)
    requires IsTriggerRun(s, calls) && |s.render| == MAX_TRIGGERS
    ensures IsTriggerRun(Rendered(s, t0, p, n), calls + [TriggerRuns.Call(t0, p, n, Taken(s))])
  {
    var c := TriggerRuns.Call(t0, p, n, Taken(s));
    var d, k, r, more := TriggerRuns.TotalDrained(calls), Taken(s), Rendered(s, t0, p, n), calls + [c];
    assert more[..|calls|] == calls;
    BatchTaken(s, calls, c);
    hide StepLevel, HeldBack, FrameCut, WindowEnd, Consumed, TriggerRuns.Batch, TriggerRuns.Output;
    var before := TriggerRuns.Run(s.accepted, calls);
    assert TriggerRuns.After(s.accepted, before, c).render == r.render;
    forall ch | 0 <= ch < MAX_TRIGGERS
      ensures Channel(r.output, ch) == TriggerRuns.Output(s.accepted, more, ch)
    {
      ChannelGrows(s, calls, t0, p, n, ch);
    }
  }

  /** The edges a block works through are the held ones and those it takes. */
  lemma BatchTaken(s: State, calls: seq<TriggerRuns.Call>, c: TriggerRuns.Call)
    requires IsTriggerRun(s, calls) && c.drained == Taken(s)
    ensures var d, k := TriggerRuns.TotalDrained(calls), Taken(s);
            && d + k <= |s.accepted| && s.tevq[k..] == s.accepted[d + k..]
            && TriggerRuns.Batch(s.accepted, TriggerRuns.Run(s.accepted, calls), c) == s.held + s.tevq[..k]
  {
    hide TriggerRuns.Run, TriggerRuns.Output, Channel;
    var d, k := TriggerRuns.TotalDrained(calls), Taken(s);
    assert s.tevq[..k] == s.accepted[d..d + k] && s.tevq[k..] == s.accepted[d + k..];
  }

  lemma ChannelGrows(s: State, calls: seq<TriggerRuns.Call>, t0: nat, p: real, n: nat, ch: nat)
    requires IsTriggerRun(s, calls) && |s.render| == MAX_TRIGGERS && ch < MAX_TRIGGERS
    requires TriggerRuns.TotalDrained(calls) + Taken(s) <= |s.accepted|
    ensures var r, more := Rendered(s, t0, p, n), calls + [TriggerRuns.Call(t0, p, n, Taken(s))];
            && TriggerRuns.TotalDrained(more) <= |s.accepted| && Framed(r.output)
            && Channel(r.output, ch) == TriggerRuns.Output(s.accepted, more, ch)
  {
    var c := TriggerRuns.Call(t0, p, n, Taken(s));
    var r, more := Rendered(s, t0, p, n), calls + [c];
    BatchTaken(s, calls, c);
    hide StepLevel, HeldBack, FrameCut, WindowEnd, Consumed, TriggerRuns.Batch, TriggerRuns.Run;
    var before := TriggerRuns.Run(s.accepted, calls);
    assert more[..|calls|] == calls;
    assert r.output[..|s.output|] == s.output;
    assert r.output[|s.output|][ch] == seq(n, f requires 0 <= f => TriggerRuns.Frame(s.accepted, before, c, ch, f));
  }

  /** Further edges accepted do not change what the calls so far did. */
  lemma {:induction false} AcceptedLater(trace: seq<Event>, more: seq<Event>, calls: seq<TriggerRuns.Call>)
    requires TriggerRuns.TotalDrained(calls) <= |trace|
    ensures TriggerRuns.Run(trace + more, calls) == TriggerRuns.Run(trace, calls)
    ensures forall ch :: 0 <= ch < MAX_TRIGGERS ==>
              TriggerRuns.Output(trace + more, calls, ch) == TriggerRuns.Output(trace, calls, ch)
  {
    hide StepLevel, HeldBack, FrameCut, WindowEnd;
    if calls != [] {
      var n := |calls| - 1;
      AcceptedLater(trace, more, calls[..n]);
      var s, c := TriggerRuns.Run(trace, calls[..n]), calls[n];
      assert (trace + more)[s.drained..s.drained + c.drained] == trace[s.drained..s.drained + c.drained];
      assert TriggerRuns.Batch(trace + more, s, c) == TriggerRuns.Batch(trace, s, c);
      forall ch | 0 <= ch < MAX_TRIGGERS
        ensures TriggerRuns.Output(trace + more, calls, ch) == TriggerRuns.Output(trace, calls, ch)
      {
        assert seq(c.n, f requires 0 <= f => TriggerRuns.Frame(trace + more, s, c, ch, f)) ==
               seq(c.n, f requires 0 <= f => TriggerRuns.Frame(trace, s, c, ch, f));
      }
    }
  }

  lemma {:induction false} PolledAllIsTriggerRun(s: State, caps: Caps, es: seq<Event>, calls: seq<TriggerRuns.Call>)
    requires IsTriggerRun(s, calls)
    ensures IsTriggerRun(PolledAll(s, caps, es), calls)
  {
    hide IsTriggerRun;
    if es != [] {
      PolledAllIsTriggerRun(s, caps, es[..|es| - 1], calls);
      PolledIsTriggerRun(PolledAll(s, caps, es[..|es| - 1]), caps, es[|es| - 1], calls);
    }
  }

  lemma PolledIsTriggerRun(s: State, caps: Caps, e: Event, calls: seq<TriggerRuns.Call>)
    requires IsTriggerRun(s, calls)
    ensures IsTriggerRun(Polled(s, caps, e), calls)
  {
    var r, d := Polled(s, caps, e), TriggerRuns.TotalDrained(calls);
    if IsTrigger(e) && |s.tevq| < caps.tev {
      AcceptedLater(s.accepted, [e], calls);
      assert (s.accepted + [e])[d..] == s.accepted[d..] + [e];
    }
  }

  /** From edge to sample: on every run whose blocks are contiguous and drain
      each edge in time, what the host reads from a trigger channel is the step
      function of the edges the trigger queue accepted. */
  lemma EdgesToSamples(caps: Caps, run: seq<Action>, nsPerFrame: real, ch: nat, g: nat)
    requires var s, calls := Run(caps, run), CallsOf(caps, run);
             && TriggerRuns.ChannelOrdered(s.accepted) && TriggerRuns.Contiguous(calls)
             && TriggerRuns.Regular(calls, nsPerFrame)
             && TriggerRuns.Timely(s.accepted, calls)
             && g < TriggerRuns.TotalFrames(calls) && ch < MAX_TRIGGERS
    ensures var s, calls := Run(caps, run), CallsOf(caps, run);
            && calls != [] && Framed(s.output)
            && |Channel(s.output, ch)| == TriggerRuns.TotalFrames(calls)
            && Channel(s.output, ch)[g]
               == StepLevel(s.accepted, ch, TriggerRuns.GlobalCut(calls[0].t0, nsPerFrame, g), 0.0)
            && LevelIs(s.accepted, ch, Instant(calls[0].t0, nsPerFrame, g + 1), 0.0, Channel(s.output, ch)[g])
  {
    hide LevelIs, StepLevel, Instant, TriggerRuns.GlobalCut;
    RunIsTriggerRun(caps, run);
    TriggerRuns.OutputIsStepFunction(Run(caps, run).accepted, CallsOf(caps, run), nsPerFrame, ch, g);
    TriggerRuns.OutputShowsEdges(Run(caps, run).accepted, CallsOf(caps, run), nsPerFrame, ch, g);
  }

  // The objects behind the state.

  /** What polling a batch does to each part of the state. */
  lemma {:induction false} PolledAllFields(s: State, caps: Caps, es: seq<Event>)
    ensures var r := PolledAll(s, caps, es);
            && r.evq == OfferAll(s.evq, caps.ev, es)
            && r.tevq == OfferAll(s.tevq, caps.tev, Triggers(es))
            && LevelsAfter(s.trig, r.trig, es, TRIGGER, MAX_TRIGGERS)
            && r.held == s.held && r.render == s.render && r.output == s.output && r.consumed == s.consumed
            && |r.tevq| + |r.dropped| == |s.tevq| + |s.dropped| + |Triggers(es)|
  {
    if es != [] {
      var n := |es| - 1;
      var m := PolledAll(s, caps, es[..n]);
      PolledAllFields(s, caps, es[..n]);
      assert es == es[..n] + [es[n]];
      LevelsSnoc(s.trig, m.trig, es[..n], es[n], TRIGGER, MAX_TRIGGERS);
      OfferAllSnoc(s.evq, caps.ev, es[..n], es[n]);
      OfferTriggers(s.tevq, caps.tev, es[..n], es[n]);
    }
  }

  /** The parts of a context that input passes through, with the history of
      where every edge went. */
  class FrontEnd {
    const inputs: Inputs
    const renderer: TriggerRenderer
    ghost var output: seq<seq<seq<real>>>
    ghost var polled: seq<Event>
    ghost var accepted: seq<Event>
    ghost var dropped: seq<Event>
    ghost var consumed: seq<Event>

    ghost predicate Valid()
      reads this, inputs, inputs.ev, inputs.ev.buf, inputs.tev, inputs.tev.buf, renderer, renderer.tev, renderer.tev.buf
    {
      && inputs.Valid() && renderer.Valid() && renderer.tev == inputs.tev
      && renderer.numTriggers == MAX_TRIGGERS && renderer.held != inputs.ev.buf
    }

    ghost function View(): State
      requires Valid()
      reads this, inputs, inputs.ev, inputs.ev.buf, inputs.tev, inputs.tev.buf
      reads renderer, renderer.held, renderer.render, renderer.tev, renderer.tev.buf
    {
      State(inputs.trigLevel, inputs.ev.Contents(), inputs.tev.Contents(),
            renderer.held[..renderer.nheld], renderer.render[..],
            output, polled, accepted, dropped, consumed)
    }

    ghost function Sizes(): Caps
      reads inputs, inputs.ev, inputs.tev
    {
      Caps(inputs.ev.size, inputs.tev.size)
    }

    constructor (inputs: Inputs, renderer: TriggerRenderer)
      requires inputs.Valid() && renderer.Valid() && renderer.tev == inputs.tev
      requires renderer.numTriggers == MAX_TRIGGERS && renderer.held != inputs.ev.buf
      requires inputs.trigLevel == {} && inputs.ev.Contents() == [] && inputs.tev.Contents() == []
      requires renderer.nheld == 0 && forall ch :: 0 <= ch < MAX_TRIGGERS ==> renderer.render[ch] == 0.0
      ensures Valid() && View() == START && this.inputs == inputs && this.renderer == renderer
    {
      this.inputs, this.renderer := inputs, renderer;
      output, polled, accepted, dropped, consumed := [], [], [], [], [];
    }

    /** The sampling thread handles one batch of polled edges. The queue counts
        as many drops as the history records. */
    method Poll(batch: seq<Event>)
      requires Valid() && |batch| <= EVENT_BATCH
      modifies this`polled, this`accepted, this`dropped
      modifies inputs`trigLevel, inputs`btnLevel, inputs`nEvents, inputs.btnSince
      modifies inputs.ev`head, inputs.ev`dropped, inputs.ev.buf, inputs.tev`head, inputs.tev`dropped, inputs.tev.buf
      ensures Valid() && View() == Next(old(View()), Sizes(), Action.Poll(batch)) && Sizes() == old(Sizes())
      ensures inputs.tev.dropped - |dropped| == old(inputs.tev.dropped - |dropped|)
    {
      ghost var s := PolledAll(View(), Sizes(), batch);
      PolledAllFields(View(), Sizes(), batch);
      inputs.HandleEvents(batch);
      polled, accepted, dropped := s.polled, s.accepted, s.dropped;
      assert inputs.trigLevel == s.trig;
    }

    /** The host reads events. */
    method PollEvents(out: array<Event>, max: nat) returns (n: nat)
      requires Valid() && max <= out.Length
      requires out != inputs.ev.buf && out != inputs.tev.buf && out != renderer.held
      modifies inputs.ev`tail, out
      ensures Valid() && View() == Next(old(View()), Sizes(), Action.PollEvents(max)) && Sizes() == old(Sizes())
    {
      n := inputs.PollEvents(out, max);
    }

    /** The host renders one block of every trigger channel. */
    method Render(t0: nat, nsPerFrame: real, n: nat, out: seq<array?<real>>) returns (r: int)
      requires Valid() && |out| == MAX_TRIGGERS && Buffers(out, n) && renderer.render !in out
      requires forall ch :: 0 <= ch < MAX_TRIGGERS ==> out[ch] != null
      modifies this`output, this`consumed
      modifies renderer`nheld, renderer.held, renderer.render, inputs.tev`tail, Targets(out)
      ensures Valid() && Sizes() == old(Sizes())
      ensures View() == Next(old(View()), Sizes(), Action.Render(t0, nsPerFrame, n))
      ensures r == 0 ==> |output| == |old(output)| + 1 && forall ch :: 0 <= ch < MAX_TRIGGERS ==>
                output[|old(output)|][ch] == out[ch][..n]
    {
      hide ShowsEdges, StepLevel, HeldBack, Consumed, FrameCut, WindowEnd, Span, EvRing.Valid, EvRing.Contents;
      ghost var s := View();
      ghost var k := renderer.Drained();
      assert renderer.Batch() == s.held + s.tevq[..k] && k == Taken(s);
      r := renderer.Block(t0, nsPerFrame, n, out);
      if r == 0 {
        ghost var e := Rendered(s, t0, nsPerFrame, n);
        FramesShown(out, s.held + s.tevq[..k], s.render, t0, nsPerFrame, n, e.output[|s.output|]);
        output := e.output;
        consumed := e.consumed;
        assert renderer.render[..] == e.render;
      }
    }
  }

  /** Buffers that show the step function hold the frames of the model. */
  lemma FramesShown(out: seq<array?<real>>, es: seq<Event>, start: seq<real>, t0: nat, nsPerFrame: real, n: nat,
                    frames: seq<seq<real>>)
    requires |out| == |start| == |frames| == MAX_TRIGGERS && Buffers(out, n)
    requires forall ch :: 0 <= ch < MAX_TRIGGERS ==> out[ch] != null
    requires Shows(out, MAX_TRIGGERS, es, start, t0, nsPerFrame, n)
    requires forall ch :: 0 <= ch < MAX_TRIGGERS ==>
               && |frames[ch]| == n
               && forall f :: 0 <= f < n ==>
                    frames[ch][f] == StepLevel(es, ch, FrameCut(t0, nsPerFrame, n, f), start[ch])
    ensures forall ch :: 0 <= ch < MAX_TRIGGERS ==> frames[ch] == out[ch][..n]
  {
    hide StepLevel, FrameCut;
  }
}
