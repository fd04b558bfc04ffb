/** Runs of `tt_trigger_block` over the trace of edges the trigger queue
    accepted: what the blocks show together, however the time line is cut into
    blocks and however late the edges are drained (src/tt_core.c). */
module TriggerRuns {
  import opened EventQueue
  import opened Frames
  import opened Trigger

  /** One call: its window, and how many further edges of the trace it drained. */
  datatype Call = Call(t0: nat, nsPerFrame: real, n: nat, drained: nat) {
    ghost predicate Valid() {
      nsPerFrame > 0.0 && n > 0
    }

    function End(): int {
      WindowEnd(t0, nsPerFrame, n)
    }

    function Cut(f: nat): real {
      FrameCut(t0, nsPerFrame, n, f)
    }
  }

  /** The renderer between calls: edges drained so far, edges held, levels. */
  datatype State = State(drained: nat, held: seq<Event>, render: seq<real>)

  const START := State(0, [], [0.0, 0.0, 0.0, 0.0])

  /** The edges a call works through (TriggerRenderer.Batch). */
  function Batch(trace: seq<Event>, s: State, c: Call): seq<Event>
    requires s.drained + c.drained <= |trace|
  {
    s.held + trace[s.drained..s.drained + c.drained]
  }

  /** The state after a call that requests every channel (TriggerRenderer.Block). */
  function After(trace: seq<Event>, s: State, c: Call): State
    requires |s.render| == MAX_TRIGGERS && s.drained + c.drained <= |trace|
  {
    var es := Batch(trace, s, c);
    State(s.drained + c.drained, HeldBack(es, c.End()),
          seq(MAX_TRIGGERS, ch requires 0 <= ch < MAX_TRIGGERS => StepLevel(es, ch, c.End() as real, s.render[ch])))
  }

  /** Frame f of channel ch as a call writes it (Trigger.Shows). */
  function Frame(trace: seq<Event>, s: State, c: Call, ch: nat, f: nat): real
    requires |s.render| == MAX_TRIGGERS && s.drained + c.drained <= |trace| && ch < MAX_TRIGGERS
  {
    StepLevel(Batch(trace, s, c), ch, c.Cut(f), s.render[ch])
  }

  /** Each channel's edges carry non-decreasing times. */
  ghost predicate ChannelOrdered(es: seq<Event>) {
    forall i, j :: 0 <= i <= j < |es| && es[i].index == es[j].index ==> es[i].timeNs <= es[j].timeNs
  }

  function TotalDrained(calls: seq<Call>): nat {
    if calls == [] then 0 else TotalDrained(calls[..|calls| - 1]) + calls[|calls| - 1].drained
  }

  ghost predicate Contiguous(calls: seq<Call>) {
    && (forall i :: 0 <= i < |calls| ==> calls[i].Valid())
    && (forall i, j :: 0 <= i && j == i + 1 < |calls| ==> calls[j].t0 == calls[i].End())
  }

  /** The state after a run of calls. */
  function Run(trace: seq<Event>, calls: seq<Call>): (s: State)
    requires TotalDrained(calls) <= |trace|
    ensures |s.render| == MAX_TRIGGERS && s.drained == TotalDrained(calls)
  {
    if calls == [] then START
    else After(trace, Run(trace, calls[..|calls| - 1]), calls[|calls| - 1])
  }

  lemma {:induction false} HeldBackAppend(a: seq<Event>, b: seq<Event>, w: int)
    ensures HeldBack(a + b, w) == HeldBack(a, w) + HeldBack(b, w)
  {
    if b == [] {
      assert a + b == a;
    } else {
      var n := |b| - 1;
      HeldBackAppend(a, b[..n], w);
      assert (a + b)[..|a + b| - 1] == a + b[..n];
    }
  }

  /** Holding back twice is holding back to the later window. */
  lemma {:induction false} HeldBackTwice(es: seq<Event>, w: int, w': int)
    requires w <= w'
    ensures HeldBack(HeldBack(es, w), w') == HeldBack(es, w')
  {
    if es != [] {
      var n := |es| - 1;
      HeldBackTwice(es[..n], w, w');
      HeldBackSnoc(HeldBack(es[..n], w), es[n], w');
      assert HeldBack(es[..n], w) + [] == HeldBack(es[..n], w);
    }
  }

  /** Nothing of channel ch is held back when its edges all precede the window end. */
  lemma {:induction false} NothingHeld(es: seq<Event>, ch: nat, w: int, cut: real, v: real)
    requires forall i :: 0 <= i < |es| && es[i].index == ch ==> es[i].timeNs < w
    ensures StepLevel(HeldBack(es, w), ch, cut, v) == v
  {
    if es != [] {
      var n := |es| - 1;
      NothingHeld(es[..n], ch, w, cut, v);
      StepLevelSnoc(HeldBack(es[..n], w), es[n], ch, cut, v);
      assert HeldBack(es[..n], w) + [] == HeldBack(es[..n], w);
    }
  }

  /** Rendering up to w and then working through the held edges to a later cut
      is rendering everything to that cut. */
  lemma {:induction false} HeldThenRest(es: seq<Event>, more: seq<Event>, ch: nat, w: int, cut: real, v: real)
    requires ChannelOrdered(es) && w as real <= cut
    ensures StepLevel(HeldBack(es, w) + more, ch, cut, StepLevel(es, ch, w as real, v))
         == StepLevel(es + more, ch, cut, v)
    decreases |es| + |more|
  {
    var carried := StepLevel(es, ch, w as real, v);
    if more != [] {
      var n := |more| - 1;
      HeldThenRest(es, more[..n], ch, w, cut, v);
      assert es + more == (es + more[..n]) + [more[n]];
      assert HeldBack(es, w) + more == (HeldBack(es, w) + more[..n]) + [more[n]];
      StepLevelSnoc(es + more[..n], more[n], ch, cut, v);
      StepLevelSnoc(HeldBack(es, w) + more[..n], more[n], ch, cut, carried);
    } else {
      assert es + more == es && HeldBack(es, w) + more == HeldBack(es, w);
      if es != [] {
        var n := |es| - 1;
        HeldThenRest(es[..n], [], ch, w, cut, v);
        assert HeldBack(es[..n], w) + [] == HeldBack(es[..n], w) && es[..n] + [] == es[..n];
        if es[n].timeNs >= w {
          StepLevelSnoc(HeldBack(es[..n], w), es[n], ch, cut, carried);
        } else if es[n].index == ch {
          NothingHeld(es[..n], ch, w, cut, carried);
        }
      }
    }
  }

  lemma WindowCovers(t0: nat, nsPerFrame: real, n: nat, f: nat)
    requires nsPerFrame > 0.0
    ensures t0 <= WindowEnd(t0, nsPerFrame, n)
    ensures t0 as real <= FrameCut(t0, nsPerFrame, n, f)
  {
    SpanMono(nsPerFrame, 0, n);
    SpanMono(nsPerFrame, 0, f + 1);
  }

  /** The levels are the step function of what was drained, up to the end w of
      the last window, and the held edges are the rest of it. */
  ghost predicate CaughtUp(trace: seq<Event>, s: State, w: int)
    requires |s.render| == MAX_TRIGGERS && s.drained <= |trace|
  {
    && s.held == HeldBack(trace[..s.drained], w)
    && forall ch: nat :: ch < MAX_TRIGGERS ==> s.render[ch] == StepLevel(trace[..s.drained], ch, w as real, 0.0)
  }

  lemma Ordered(trace: seq<Event>, d: nat)
    requires ChannelOrdered(trace) && d <= |trace|
    ensures ChannelOrdered(trace[..d])
  {}

  /** One call, from a caught-up state, continues the step function. */
  lemma {:induction false} CallContinues(trace: seq<Event>, s: State, c: Call, ch: nat, cut: real)
    requires ChannelOrdered(trace) && |s.render| == MAX_TRIGGERS && s.drained + c.drained <= |trace|
    requires CaughtUp(trace, s, c.t0) && ch < MAX_TRIGGERS && c.t0 as real <= cut
    ensures StepLevel(Batch(trace, s, c), ch, cut, s.render[ch])
         == StepLevel(trace[..s.drained + c.drained], ch, cut, 0.0)
  {
    Ordered(trace, s.drained);
    HeldThenRest(trace[..s.drained], trace[s.drained..s.drained + c.drained], ch, c.t0, cut, 0.0);
    assert trace[..s.drained + c.drained] == trace[..s.drained] + trace[s.drained..s.drained + c.drained];
  }

  /** What a call holds back is what all edges so far leave to hold back. */
  lemma {:induction false} HeldOn(trace: seq<Event>, held: seq<Event>, d: nat, k: nat, w: int, w': int)
    requires d + k <= |trace| && w <= w' && held == HeldBack(trace[..d], w)
    ensures HeldBack(held + trace[d..d + k], w') == HeldBack(trace[..d + k], w')
  {
    var done, now := trace[..d], trace[d..d + k];
    assert trace[..d + k] == done + now;
    hide HeldBack;
    HeldBackAppend(done, now, w');
    HeldBackAppend(held, now, w');
    HeldBackTwice(done, w, w');
  }

  lemma {:induction false} CallCatchesUp(trace: seq<Event>, s: State, c: Call)
    requires ChannelOrdered(trace) && |s.render| == MAX_TRIGGERS && s.drained + c.drained <= |trace|
    requires CaughtUp(trace, s, c.t0) && c.Valid()
    ensures CaughtUp(trace, After(trace, s, c), c.End())
  {
    WindowCovers(c.t0, c.nsPerFrame, c.n, 0);
    hide HeldBack, StepLevel, WindowEnd, ChannelOrdered;
    HeldOn(trace, s.held, s.drained, c.drained, c.t0, c.End());
    forall ch: nat | ch < MAX_TRIGGERS
      ensures After(trace, s, c).render[ch]
           == StepLevel(trace[..s.drained + c.drained], ch, c.End() as real, 0.0)
    {
      CallContinues(trace, s, c, ch, c.End() as real);
    }
  }

  /** After any run of contiguous calls the renderer is caught up. */
  lemma {:induction false} RunCatchesUp(trace: seq<Event>, calls: seq<Call>)
    requires ChannelOrdered(trace) && Contiguous(calls) && TotalDrained(calls) <= |trace|
    requires calls != []
    ensures CaughtUp(trace, Run(trace, calls[..|calls| - 1]), calls[|calls| - 1].t0)
    ensures CaughtUp(trace, Run(trace, calls), calls[|calls| - 1].End())
  {
    var n := |calls| - 1;
    if n > 0 {
      RunCatchesUp(trace, calls[..n]);
      assert calls[n].t0 == calls[n - 1].End();
    } else {
      assert trace[..0] == [];
    }
    CallCatchesUp(trace, Run(trace, calls[..n]), calls[n]);
  }

  /** What a run shows. Every frame of its last call is the step function of the
      edges drained by then, whatever the earlier block sizes, frame lengths and
      drain times were. */
  lemma {:induction false} ShownFrame(trace: seq<Event>, calls: seq<Call>, ch: nat, f: nat)
    requires ChannelOrdered(trace) && Contiguous(calls) && TotalDrained(calls) <= |trace|
    requires calls != [] && ch < MAX_TRIGGERS
    ensures var n := |calls| - 1;
            Frame(trace, Run(trace, calls[..n]), calls[n], ch, f)
            == StepLevel(trace[..TotalDrained(calls)], ch, calls[n].Cut(f), 0.0)
  {
    var c := calls[|calls| - 1];
    RunCatchesUp(trace, calls);
    WindowCovers(c.t0, c.nsPerFrame, c.n, f);
    CallContinues(trace, Run(trace, calls[..|calls| - 1]), c, ch, c.Cut(f));
  }

  /** Edges not yet drained do not matter when they lie past the cut. */
  lemma {:induction false} LaterEdgesInvisible(es: seq<Event>, more: seq<Event>, ch: nat, cut: real, v: real)
    requires forall i :: 0 <= i < |more| && more[i].index == ch ==> cut <= more[i].timeNs as real
    ensures StepLevel(es + more, ch, cut, v) == StepLevel(es, ch, cut, v)
  {
    if more == [] {
      assert es + more == es;
    } else {
      var n := |more| - 1;
      LaterEdgesInvisible(es, more[..n], ch, cut, v);
      assert es + more == (es + more[..n]) + [more[n]];
      StepLevelSnoc(es + more[..n], more[n], ch, cut, v);
    }
  }

  /** Every edge is drained by the time its window is rendered. */
  ghost predicate Timely(trace: seq<Event>, calls: seq<Call>)
  {
    forall b, i :: 0 < b <= |calls| && TotalDrained(calls[..b]) <= i < |trace| ==>
      calls[b - 1].End() <= trace[i].timeNs
  }

  /** Blocks of one frame length, each a whole number of nanoseconds long. */
  ghost predicate Regular(calls: seq<Call>, nsPerFrame: real) {
    forall b :: 0 <= b < |calls| ==>
      && calls[b].nsPerFrame == nsPerFrame
      && calls[b].End() as real == calls[b].t0 as real + Span(nsPerFrame, calls[b].n)
  }

  function TotalFrames(calls: seq<Call>): nat {
    if calls == [] then 0 else TotalFrames(calls[..|calls| - 1]) + calls[|calls| - 1].n
  }

  /** Everything a run wrote to channel ch, end to end. */
  function Output(trace: seq<Event>, calls: seq<Call>, ch: nat): seq<real>
    requires TotalDrained(calls) <= |trace| && ch < MAX_TRIGGERS
  {
    if calls == [] then []
    else
      var n := |calls| - 1;
      var s := Run(trace, calls[..n]);
      Output(trace, calls[..n], ch) + seq(calls[n].n, f requires 0 <= f => Frame(trace, s, calls[n], ch, f))
  }

  lemma {:induction false} TimeLine(calls: seq<Call>, nsPerFrame: real)
    requires calls != [] && Contiguous(calls) && Regular(calls, nsPerFrame)
    ensures calls[|calls| - 1].End() as real == calls[0].t0 as real + Span(nsPerFrame, TotalFrames(calls))
  {
    var n := |calls| - 1;
    if n > 0 {
      assert calls[n].t0 == calls[n - 1].End();
      TimeLine(calls[..n], nsPerFrame);
      SpanAdd(nsPerFrame, TotalFrames(calls[..n]), calls[n].n);
    }
  }

  /** Sample accuracy over a whole run: frame g of the concatenated output is the
      step function of the complete edge trace at the end of that frame. Neither
      the block sizes nor the timing of the drains appears in the result. */
  lemma {:induction false} OutputIsStepFunction(trace: seq<Event>, calls: seq<Call>, nsPerFrame: real, ch: nat, g: nat)
    requires ChannelOrdered(trace) && Contiguous(calls) && TotalDrained(calls) <= |trace|
    requires Timely(trace, calls) && Regular(calls, nsPerFrame)
    requires ch < MAX_TRIGGERS && g < TotalFrames(calls)
    ensures calls != [] && |Output(trace, calls, ch)| == TotalFrames(calls)
    ensures Output(trace, calls, ch)[g]
         == StepLevel(trace, ch, GlobalCut(calls[0].t0, nsPerFrame, g), 0.0)
  {
    hide StepLevel, GlobalCut;
    OutputSize(trace, calls, ch);
    var n := |calls| - 1;
    var base := TotalFrames(calls[..n]);
    if g < base {
      assert Output(trace, calls, ch)[g] == Output(trace, calls[..n], ch)[g] by {
        OutputAt(trace, calls, ch, g);
      }
      assert calls[..n][0] == calls[0];
      Prefixes(trace, calls, nsPerFrame);
      OutputIsStepFunction(trace, calls[..n], nsPerFrame, ch, g);
    } else {
      OutputOfLast(trace, calls, nsPerFrame, ch, g);
    }
  }

  /** The same in so many words: frame g of everything written is high if the last
      edge of its channel before the end of that frame has a value other than 0,
      low if that value is 0, and low when there is none. */
  lemma OutputShowsEdges(trace: seq<Event>, calls: seq<Call>, nsPerFrame: real, ch: nat, g: nat)
    requires ChannelOrdered(trace) && Contiguous(calls) && TotalDrained(calls) <= |trace|
    requires Timely(trace, calls) && Regular(calls, nsPerFrame)
    requires ch < MAX_TRIGGERS && g < TotalFrames(calls)
    ensures calls != [] && |Output(trace, calls, ch)| == TotalFrames(calls)
    ensures LevelIs(trace, ch, Instant(calls[0].t0, nsPerFrame, g + 1), 0.0, Output(trace, calls, ch)[g])
  {
    assert Instant(calls[0].t0, nsPerFrame, g + 1) == GlobalCut(calls[0].t0, nsPerFrame, g) by {
      InstantIsSpan(calls[0].t0, nsPerFrame, g + 1);
    }
    hide StepLevel, LevelIs, GlobalCut, Instant;
    OutputIsStepFunction(trace, calls, nsPerFrame, ch, g);
    StepLevelIs(trace, ch, GlobalCut(calls[0].t0, nsPerFrame, g), 0.0);
  }

  lemma {:induction false} OutputOfLast(trace: seq<Event>, calls: seq<Call>, nsPerFrame: real, ch: nat, g: nat)
    requires ChannelOrdered(trace) && Contiguous(calls) && TotalDrained(calls) <= |trace|
    requires Timely(trace, calls) && Regular(calls, nsPerFrame)
    requires calls != [] && ch < MAX_TRIGGERS && TotalFrames(calls[..|calls| - 1]) <= g < TotalFrames(calls)
    ensures |Output(trace, calls, ch)| == TotalFrames(calls)
    ensures Output(trace, calls, ch)[g] == StepLevel(trace, ch, GlobalCut(calls[0].t0, nsPerFrame, g), 0.0)
  {
    var n := |calls| - 1;
    var f := g - TotalFrames(calls[..n]);
    var shown := Frame(trace, Run(trace, calls[..n]), calls[n], ch, f);
    assert |Output(trace, calls, ch)| == TotalFrames(calls) && Output(trace, calls, ch)[g] == shown by {
      OutputAt(trace, calls, ch, g);
    }
    assert shown == StepLevel(trace, ch, GlobalCut(calls[0].t0, nsPerFrame, g), 0.0) by {
      LastBlockFrame(trace, calls, nsPerFrame, ch, f);
    }
  }

  lemma {:induction false} OutputAt(trace: seq<Event>, calls: seq<Call>, ch: nat, g: nat)
    requires TotalDrained(calls) <= |trace| && ch < MAX_TRIGGERS && g < TotalFrames(calls)
    ensures calls != [] && |Output(trace, calls, ch)| == TotalFrames(calls)
    ensures var n := |calls| - 1;
            var base := TotalFrames(calls[..n]);
            |Output(trace, calls[..n], ch)| == base &&
            Output(trace, calls, ch)[g] ==
              if g < base then Output(trace, calls[..n], ch)[g]
              else Frame(trace, Run(trace, calls[..n]), calls[n], ch, g - base)
  {
    OutputSize(trace, calls, ch);
    OutputSize(trace, calls[..|calls| - 1], ch);
  }

  lemma {:induction false} Prefixes(trace: seq<Event>, calls: seq<Call>, nsPerFrame: real)
    requires calls != [] && Timely(trace, calls) && Contiguous(calls) && Regular(calls, nsPerFrame)
    ensures var p := calls[..|calls| - 1];
            Timely(trace, p) && Contiguous(p) && Regular(p, nsPerFrame)
  {
    TimelyPrefix(trace, calls);
  }

  lemma {:induction false} TimelyPrefix(trace: seq<Event>, calls: seq<Call>)
    requires calls != [] && Timely(trace, calls)
    ensures Timely(trace, calls[..|calls| - 1])
  {
    var p := calls[..|calls| - 1];
    forall b, i | 0 < b <= |p| && TotalDrained(p[..b]) <= i < |trace| ensures p[b - 1].End() <= trace[i].timeNs {
      assert p[..b] == calls[..b];
    }
  }

  lemma {:induction false} OutputSize(trace: seq<Event>, calls: seq<Call>, ch: nat)
    requires TotalDrained(calls) <= |trace| && ch < MAX_TRIGGERS
    ensures |Output(trace, calls, ch)| == TotalFrames(calls)
  {
    if calls != [] { OutputSize(trace, calls[..|calls| - 1], ch); }
  }

  lemma {:induction false} LastBlockFrame(trace: seq<Event>, calls: seq<Call>, nsPerFrame: real, ch: nat, f: nat)
    requires ChannelOrdered(trace) && Contiguous(calls) && TotalDrained(calls) <= |trace|
    requires Timely(trace, calls) && Regular(calls, nsPerFrame)
    requires calls != [] && ch < MAX_TRIGGERS && f < calls[|calls| - 1].n
    ensures var n := |calls| - 1;
            Frame(trace, Run(trace, calls[..n]), calls[n], ch, f)
            == StepLevel(trace, ch, GlobalCut(calls[0].t0, nsPerFrame, TotalFrames(calls[..n]) + f), 0.0)
  {
    hide StepLevel, HeldBack, FrameCut, WindowEnd, Frame, GlobalCut, Run, ChannelOrdered;
    var n := |calls| - 1;
    var c := calls[n];
    ShownFrame(trace, calls, ch, f);
    FrameTime(calls, nsPerFrame, f);
    assert calls[..|calls|] == calls;
    var d := TotalDrained(calls);
    assert trace == trace[..d] + trace[d..];
    LaterEdgesInvisible(trace[..d], trace[d..], ch, c.Cut(f), 0.0);
  }

  /** In a block that is whole nanoseconds long every frame ends inside the window. */
  lemma {:induction false} WholeBlockCut(c: Call, f: nat)
    requires c.Valid() && f < c.n
    requires c.End() as real == c.t0 as real + Span(c.nsPerFrame, c.n)
    ensures c.Cut(f) == c.t0 as real + Span(c.nsPerFrame, f + 1)
    ensures c.Cut(f) <= c.End() as real
  {
    SpanMono(c.nsPerFrame, f + 1, c.n);
  }

  lemma {:induction false} BlockStart(calls: seq<Call>, nsPerFrame: real)
    requires calls != [] && Contiguous(calls) && Regular(calls, nsPerFrame)
    ensures var n := |calls| - 1;
            calls[n].t0 as real == calls[0].t0 as real + Span(nsPerFrame, TotalFrames(calls[..n]))
  {
    var n := |calls| - 1;
    if n > 0 {
      TimeLine(calls[..n], nsPerFrame);
      assert calls[n].t0 == calls[n - 1].End();
    }
  }

  lemma {:induction false} FrameTime(calls: seq<Call>, nsPerFrame: real, f: nat)
    requires calls != [] && Contiguous(calls) && Regular(calls, nsPerFrame) && f < calls[|calls| - 1].n
    ensures var n := |calls| - 1;
            && calls[n].Cut(f) == GlobalCut(calls[0].t0, nsPerFrame, TotalFrames(calls[..n]) + f)
            && calls[n].Cut(f) <= calls[n].End() as real
  {
    var n := |calls| - 1;
    WholeBlockCut(calls[n], f);
    BlockStart(calls, nsPerFrame);
    SpanAdd(nsPerFrame, TotalFrames(calls[..n]), f + 1);
  }

  /** The end of frame g of a time line that starts at t0. */
  function GlobalCut(t0: nat, nsPerFrame: real, g: nat): real {
    t0 as real + Span(nsPerFrame, g + 1)
  }

  /** A late edge is not lost: in the first block that drains it, it already
      sets frame 0, unless a later edge of the channel does. */
  lemma {:induction false} LateEdge(trace: seq<Event>, calls: seq<Call>, i: nat, f: nat)
    requires ChannelOrdered(trace) && Contiguous(calls) && TotalDrained(calls) <= |trace|
    requires calls != []
    requires TotalDrained(calls[..|calls| - 1]) <= i < TotalDrained(calls)
    requires trace[i].index < MAX_TRIGGERS && trace[i].timeNs < calls[|calls| - 1].t0
    requires forall j :: i < j < TotalDrained(calls) && trace[j].index == trace[i].index ==>
               calls[|calls| - 1].Cut(f) <= trace[j].timeNs as real
    ensures Frame(trace, Run(trace, calls[..|calls| - 1]), calls[|calls| - 1], trace[i].index, f) == Level(trace[i])
  {
    var c, d, ch := calls[|calls| - 1], TotalDrained(calls), trace[i].index;
    ShownFrame(trace, calls, ch, f);
    WindowCovers(c.t0, c.nsPerFrame, c.n, f);
    LastEdgeWins(trace[..d], i, ch, c.Cut(f), 0.0);
  }

  lemma {:induction false} LastEdgeWins(es: seq<Event>, i: nat, ch: nat, cut: real, v: real)
    requires i < |es| && es[i].index == ch && es[i].timeNs as real < cut
    requires forall j :: i < j < |es| && es[j].index == ch ==> cut <= es[j].timeNs as real
    ensures StepLevel(es, ch, cut, v) == Level(es[i])
  {
    var n := |es| - 1;
    if i < n { LastEdgeWins(es[..n], i, ch, cut, v); }
  }

  /** Chunking: one call for n frames leaves the same levels and held edges, and
      shows the same frames, as a call for the first k and a call for the rest,
      when k frames are a whole number of nanoseconds and both find the same
      edges drained. */
  lemma {:induction false} Chunked(trace: seq<Event>, s: State, c: Call, k: nat, ch: nat, f: nat)
    requires c.Valid() && 0 < k < c.n && |s.render| == MAX_TRIGGERS
    requires s.drained + c.drained <= |trace| && ChannelOrdered(Batch(trace, s, c))
    requires WindowEnd(c.t0, c.nsPerFrame, k) as real == c.t0 as real + Span(c.nsPerFrame, k)
    requires ch < MAX_TRIGGERS && f < c.n
    ensures var first := Call(c.t0, c.nsPerFrame, k, c.drained);
            first.End() >= 0
            && var second := Call(first.End(), c.nsPerFrame, c.n - k, 0);
               var mid := After(trace, s, first);
               && After(trace, mid, second) == After(trace, s, c)
               && Frame(trace, s, c, ch, f)
                  == if f < k then Frame(trace, s, first, ch, f) else Frame(trace, mid, second, ch, f - k)
  {
    var first := Call(c.t0, c.nsPerFrame, k, c.drained);
    ChunkCuts(c, k);
    var second := Call(first.End(), c.nsPerFrame, c.n - k, 0);
    var mid := After(trace, s, first);
    var es := Batch(trace, s, c);
    assert Batch(trace, s, first) == es;
    assert Batch(trace, mid, second) == HeldBack(es, first.End());
    if f >= k { WindowCovers(second.t0, second.nsPerFrame, second.n, f - k); }
    hide HeldBack, StepLevel, ChannelOrdered, WindowEnd, FrameCut, Batch;
    HeldBackTwice(es, first.End(), c.End());
    forall x: nat | x < MAX_TRIGGERS
      ensures StepLevel(HeldBack(es, first.End()), x, c.End() as real, mid.render[x])
           == StepLevel(es, x, c.End() as real, s.render[x])
    {
      HeldAlone(es, x, first.End(), c.End() as real, s.render[x]);
    }
    assert After(trace, mid, second).render == After(trace, s, c).render;
    if f >= k { HeldAlone(es, ch, first.End(), c.Cut(f), s.render[ch]); }
  }

  lemma HeldAlone(es: seq<Event>, ch: nat, w: int, cut: real, v: real)
    requires ChannelOrdered(es) && w as real <= cut
    ensures StepLevel(HeldBack(es, w), ch, cut, StepLevel(es, ch, w as real, v)) == StepLevel(es, ch, cut, v)
  {
    hide HeldBack, StepLevel, ChannelOrdered;
    HeldThenRest(es, [], ch, w, cut, v);
    assert HeldBack(es, w) + [] == HeldBack(es, w) && es + [] == es;
  }

  lemma ChunkCuts(c: Call, k: nat)
    requires c.Valid() && 0 < k < c.n
    requires WindowEnd(c.t0, c.nsPerFrame, k) as real == c.t0 as real + Span(c.nsPerFrame, k)
    ensures 0 <= WindowEnd(c.t0, c.nsPerFrame, k) <= c.End()
    ensures var t1: nat := WindowEnd(c.t0, c.nsPerFrame, k);
            && WindowEnd(t1, c.nsPerFrame, c.n - k) == c.End()
            && (forall f: nat :: f < k ==> FrameCut(c.t0, c.nsPerFrame, k, f) == c.Cut(f))
            && (forall f: nat :: k <= f < c.n ==> FrameCut(t1, c.nsPerFrame, c.n - k, f - k) == c.Cut(f))
  {
    WindowCovers(c.t0, c.nsPerFrame, k, 0);
    ChunkEnd(c, k);
    forall f: nat | f < k ensures FrameCut(c.t0, c.nsPerFrame, k, f) == c.Cut(f) {
      EarlyCut(c, k, f);
    }
    forall f: nat | k <= f < c.n
      ensures FrameCut(WindowEnd(c.t0, c.nsPerFrame, k), c.nsPerFrame, c.n - k, f - k) == c.Cut(f)
    {
      SpanAdd(c.nsPerFrame, k, f - k + 1);
    }
  }

  lemma ChunkEnd(c: Call, k: nat)
    requires c.Valid() && 0 < k < c.n && 0 <= WindowEnd(c.t0, c.nsPerFrame, k)
    requires WindowEnd(c.t0, c.nsPerFrame, k) as real == c.t0 as real + Span(c.nsPerFrame, k)
    ensures WindowEnd(c.t0, c.nsPerFrame, k) <= c.End()
    ensures WindowEnd(WindowEnd(c.t0, c.nsPerFrame, k), c.nsPerFrame, c.n - k) == c.End()
  {
    SpanAdd(c.nsPerFrame, k, c.n - k);
    SpanMono(c.nsPerFrame, 0, c.n - k);
  }

  lemma EarlyCut(c: Call, k: nat, f: nat)
    requires c.Valid() && f < k < c.n
    requires WindowEnd(c.t0, c.nsPerFrame, k) as real == c.t0 as real + Span(c.nsPerFrame, k)
    ensures FrameCut(c.t0, c.nsPerFrame, k, f) == c.Cut(f)
  {
    SpanMono(c.nsPerFrame, f + 1, k);
    WindowCovers(c.t0, c.nsPerFrame, k, 0);
    ChunkEnd(c, k);
  }
}
