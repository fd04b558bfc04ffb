/** Rendering trigger edges as gate signals: `tt_trigger_block` of
    src/tt_core.c. Times are nanoseconds; frame lengths are reals. */
module Trigger {
  import opened EventQueue
  import opened Frames

  const MAX_TRIGGERS := 4
  const HELD_MAX := 256

  function Level(e: Event): real {
    if e.value != 0 then 1.0 else 0.0
  }

  /** The end of a block's window, truncated to a whole nanosecond. */
  function WindowEnd(t0: nat, nsPerFrame: real, n: nat): int {
    (t0 as real + Span(nsPerFrame, n)).Floor
  }

  /** The first frame of the block that shows an edge inside its window. */
  function Offset(e: Event, t0: nat, nsPerFrame: real, n: nat): int
    requires nsPerFrame > 0.0
  {
    if e.timeNs <= t0 then 0
    else
      var d := (e.timeNs - t0) as real / nsPerFrame;
      if d >= n as real then n - 1 else d.Floor
  }

  /** The instant up to which frame f of a block reflects the edges: the end of
      the frame, or of the window when that was truncated. */
  function FrameCut(t0: nat, nsPerFrame: real, n: nat, f: nat): real {
    var frameEnd := t0 as real + Span(nsPerFrame, f + 1);
    var wend := WindowEnd(t0, nsPerFrame, n) as real;
    if frameEnd <= wend then frameEnd else wend
  }

  /** The step function of an edge list: the level channel ch has at an instant,
      set by the last edge of ch stamped before it, v when there is none. */
  function StepLevel(es: seq<Event>, ch: nat, cut: real, v: real): real {
    if es == [] then v
    else
      var e := es[|es| - 1];
      if e.index == ch && e.timeNs as real < cut then Level(e)
      else StepLevel(es[..|es| - 1], ch, cut, v)
  }

  /** x is the level channel ch has at an instant: high if the last edge of ch
      stamped before it has a value other than 0, low if that value is 0, and
      `carried` when there is no such edge. */
  ghost predicate LevelIs(es: seq<Event>, ch: nat, cut: real, carried: real, x: real) {
    && (forall k :: LastBefore(es, ch, cut, k) ==> x == if es[k].value != 0 then 1.0 else 0.0)
    && ((forall k :: !LastBefore(es, ch, cut, k)) ==> x == carried)
  }

  ghost predicate LastBefore(es: seq<Event>, ch: nat, cut: real, k: int) {
    && 0 <= k < |es| && es[k].index == ch && es[k].timeNs as real < cut
    && forall j :: k < j < |es| && es[j].index == ch ==> cut <= es[j].timeNs as real
  }

  lemma {:induction false} StepLevelIs(es: seq<Event>, ch: nat, cut: real, v: real)
    ensures LevelIs(es, ch, cut, v, StepLevel(es, ch, cut, v))
  {
    if es != [] {
      var n := |es| - 1;
      var before := es[..n];
      if es[n].index == ch && es[n].timeNs as real < cut {
        assert LastBefore(es, ch, cut, n);
      } else {
        StepLevelIs(before, ch, cut, v);
        forall k ensures LastBefore(es, ch, cut, k) <==> LastBefore(before, ch, cut, k) {
          if LastBefore(before, ch, cut, k) {
            forall j | k < j < |es| && es[j].index == ch ensures cut <= es[j].timeNs as real {
              if j < n { assert before[j] == es[j]; }
            }
          }
        }
      }
    }
  }

  /** The end of frame f, cut off at the end of the window. */
  lemma FrameCutIs(t0: nat, nsPerFrame: real, n: nat, f: nat)
    ensures var frameEnd, wend := Instant(t0, nsPerFrame, f + 1), Instant(t0, nsPerFrame, n).Floor as real;
            FrameCut(t0, nsPerFrame, n, f) == if frameEnd <= wend then frameEnd else wend
    ensures WindowEnd(t0, nsPerFrame, n) == Instant(t0, nsPerFrame, n).Floor
  {
    hide Span, Instant;
    InstantIsSpan(t0, nsPerFrame, f + 1);
    InstantIsSpan(t0, nsPerFrame, n);
  }

  /** The edges at or after the end of the window, in their order. */
  function HeldBack(es: seq<Event>, wend: int): seq<Event> {
    if es == [] then []
    else
      var e := es[|es| - 1];
      HeldBack(es[..|es| - 1], wend) + if e.timeNs >= wend then [e] else []
  }

  /** Placement: an edge inside the window lands on the frame whose interval
      contains it, so clamping to the last frame never applies. */
  lemma Placement(e: Event, t0: nat, nsPerFrame: real, n: nat)
    requires nsPerFrame > 0.0 && n > 0
    requires t0 <= e.timeNs < WindowEnd(t0, nsPerFrame, n)
    ensures var off := Offset(e, t0, nsPerFrame, n);
            && 0 <= off < n
            && t0 as real + Span(nsPerFrame, off) <= e.timeNs as real
            && (e.timeNs as real) < t0 as real + Span(nsPerFrame, off + 1)
            && (e.timeNs > t0 ==> (e.timeNs - t0) as real / nsPerFrame < n as real)
  {
    var x := (e.timeNs - t0) as real;
    DivBounds(x, nsPerFrame, n);
    FrameOf(x, nsPerFrame);
  }

  /** An edge is visible at frame f exactly when it precedes the frame's cut. */
  lemma VisibleFrom(e: Event, t0: nat, nsPerFrame: real, n: nat, f: nat)
    requires nsPerFrame > 0.0 && f < n
    requires e.timeNs < WindowEnd(t0, nsPerFrame, n)
    ensures 0 <= Offset(e, t0, nsPerFrame, n) < n
    ensures Offset(e, t0, nsPerFrame, n) <= f <==> (e.timeNs as real) < FrameCut(t0, nsPerFrame, n, f)
  {
    if e.timeNs <= t0 {
      SpanMono(nsPerFrame, 0, f + 1);
    } else {
      Placement(e, t0, nsPerFrame, n);
      DivBounds((e.timeNs - t0) as real, nsPerFrame, f + 1);
    }
  }

  lemma CutsWithinWindow(t0: nat, nsPerFrame: real, n: nat)
    ensures forall f: nat :: FrameCut(t0, nsPerFrame, n, f) <= WindowEnd(t0, nsPerFrame, n) as real
  {}

  lemma StepLevelSnoc(es: seq<Event>, e: Event, ch: nat, cut: real, v: real)
    ensures StepLevel(es + [e], ch, cut, v)
         == if e.index == ch && e.timeNs as real < cut then Level(e) else StepLevel(es, ch, cut, v)
  {
    assert (es + [e])[..|es|] == es;
  }

  lemma HeldBackSnoc(es: seq<Event>, e: Event, wend: int)
    ensures HeldBack(es + [e], wend) == HeldBack(es, wend) + if e.timeNs >= wend then [e] else []
  {
    assert (es + [e])[..|es|] == es;
  }

  lemma {:induction false} HeldBackSize(es: seq<Event>, wend: int)
    ensures |HeldBack(es, wend)| <= |es|
  {
    if es != [] { HeldBackSize(es[..|es| - 1], wend); }
  }

  /** Writes v to frames [from, n) of one channel's buffer. */
  method Paint(a: array<real>, from: nat, n: nat, v: real)
    requires from <= n <= a.Length
    modifies a
    ensures forall f :: from <= f < n ==> a[f] == v
    ensures forall f :: 0 <= f < a.Length && !(from <= f < n) ==> a[f] == old(a[f])
  {
    var f := from;
    while f < n
      invariant from <= f <= n
      invariant forall k :: from <= k < f ==> a[k] == v
      invariant forall k :: 0 <= k < a.Length && !(from <= k < f) ==> a[k] == old(a[k])
    {
      a[f] := v;
      f := f + 1;
    }
  }

  /** The buffers of the requested channels, none of them shared. */
  ghost predicate Buffers(out: seq<array?<real>>, n: nat) {
    && (forall ch :: 0 <= ch < |out| && out[ch] != null ==> out[ch].Length >= n)
    && (forall i, j :: 0 <= i < j < |out| && out[i] != null ==> out[i] != out[j])
  }

  ghost function Targets(out: seq<array?<real>>): set<object> {
    set ch | 0 <= ch < |out| && out[ch] != null :: out[ch]
  }

  /** Channels [0, nc) show, in every frame, the step function of es. */
  ghost predicate Shows(out: seq<array?<real>>, nc: nat, es: seq<Event>, start: seq<real>,
                        t0: nat, nsPerFrame: real, n: nat)
    requires nc <= |out| && nc <= |start| && Buffers(out, n)
    reads Targets(out)
  {
    forall ch, f :: 0 <= ch < nc && out[ch] != null && 0 <= f < n ==>
      out[ch][f] == StepLevel(es, ch, FrameCut(t0, nsPerFrame, n, f), start[ch])
  }

  /** The same in so many words: frame f shows the last edge before its end, or
      before the end of the window. */
  ghost predicate ShowsEdges(out: seq<array?<real>>, nc: nat, es: seq<Event>, start: seq<real>,
                             t0: nat, nsPerFrame: real, n: nat)
    requires nc <= |out| && nc <= |start| && Buffers(out, n)
    reads Targets(out)
  {
    forall ch, f: nat :: 0 <= ch < nc && out[ch] != null && f < n ==>
      var frameEnd, wend := Instant(t0, nsPerFrame, f + 1), Instant(t0, nsPerFrame, n).Floor as real;
      LevelIs(es, ch, if frameEnd <= wend then frameEnd else wend, start[ch], out[ch][f])
  }

  lemma ShownEdges(out: seq<array?<real>>, nc: nat, es: seq<Event>, start: seq<real>,
                   t0: nat, nsPerFrame: real, n: nat)
    requires nc <= |out| && nc <= |start| && Buffers(out, n) && Shows(out, nc, es, start, t0, nsPerFrame, n)
    ensures ShowsEdges(out, nc, es, start, t0, nsPerFrame, n)
  {
    hide StepLevel, LevelIs, FrameCut, Instant;
    forall ch, f: nat | 0 <= ch < nc && out[ch] != null && f < n
      ensures var frameEnd, wend := Instant(t0, nsPerFrame, f + 1), Instant(t0, nsPerFrame, n).Floor as real;
              LevelIs(es, ch, if frameEnd <= wend then frameEnd else wend, start[ch], out[ch][f])
    {
      FrameCutIs(t0, nsPerFrame, n, f);
      StepLevelIs(es, ch, FrameCut(t0, nsPerFrame, n, f), start[ch]);
    }
  }

  /** Channels from nc on are a hard zero. */
  ghost predicate Quiet(out: seq<array?<real>>, nc: nat, n: nat)
    requires Buffers(out, n)
    reads Targets(out)
  {
    forall ch, f :: nc <= ch < |out| && out[ch] != null && 0 <= f < n ==> out[ch][f] == 0.0
  }

  /** Fills the buffers of channels beyond the board's last with zeros. */
  method Silence(nc: nat, out: seq<array?<real>>, nframes: nat)
    requires nc <= |out| && Buffers(out, nframes)
    modifies Targets(out)
    ensures Quiet(out, nc, nframes)
    ensures forall ch :: 0 <= ch < nc && out[ch] != null ==> unchanged(out[ch])
  {
    for ch := nc to |out|
      invariant forall c, f :: nc <= c < ch && out[c] != null && 0 <= f < nframes ==> out[c][f] == 0.0
      invariant forall c :: 0 <= c < nc && out[c] != null ==> unchanged(out[c])
    {
      if out[ch] != null { Paint(out[ch], 0, nframes, 0.0); }
    }
  }

  class TriggerRenderer {
    const numTriggers: nat
    const tev: EvRing
    const held: array<Event>
    const render: array<real>
    var nheld: nat

    ghost predicate Valid()
      reads this, tev, tev.buf
    {
      && numTriggers <= MAX_TRIGGERS
      && held.Length == HELD_MAX && render.Length == MAX_TRIGGERS
      && held != tev.buf && nheld <= HELD_MAX && tev.Valid()
    }

    constructor (triggers: nat, queue: EvRing)
      requires triggers <= MAX_TRIGGERS && queue.Valid()
      ensures Valid() && fresh(held) && fresh(render)
      ensures numTriggers == triggers && tev == queue && nheld == 0
      ensures forall ch :: 0 <= ch < MAX_TRIGGERS ==> render[ch] == 0.0
    {
      numTriggers := triggers;
      tev := queue;
      held := new Event[HELD_MAX](_ => ZERO_EVENT);
      render := new real[MAX_TRIGGERS](_ => 0.0);
      nheld := 0;
    }

    /** The edges this block works through: the held ones, then as many queued
        ones as there is room to hold. */
    ghost function Batch(): seq<Event>
      requires Valid()
      reads this, held, tev, tev.buf
    {
      held[..nheld] + tev.Contents()[..Drained()]
    }

    ghost function Drained(): nat
      requires Valid()
      reads this, tev, tev.buf
    {
      var room, queued := HELD_MAX - nheld, |tev.Contents()|;
      if queued < room then queued else room
    }

    method Block(t0: nat, nsPerFrame: real, nframes: nat, out: seq<array?<real>>) returns (r: int)
      requires Valid()
      requires Buffers(out, nframes) && render !in out
      modifies this`nheld, held, render, tev`tail, Targets(out)
      ensures Valid()
      ensures r == if out == [] || nframes == 0 || nsPerFrame <= 0.0 then -1 else 0
      ensures r == -1 ==> unchanged(this, held, render, tev) && unchanged(Targets(out))
      ensures r == 0 ==> tev.Contents() == old(tev.Contents()[Drained()..])
      ensures r == 0 ==> held[..nheld] == HeldBack(old(Batch()), WindowEnd(t0, nsPerFrame, nframes))
      ensures r == 0 ==>
        forall ch :: 0 <= ch < MAX_TRIGGERS ==>
          render[ch] == if ch < numTriggers && ch < |out|
                        then StepLevel(old(Batch()), ch, WindowEnd(t0, nsPerFrame, nframes) as real, old(render[ch]))
                        else old(render[ch])
      ensures r == 0 ==>
        Shows(out, if |out| < numTriggers then |out| else numTriggers, old(Batch()), old(render[..]),
              t0, nsPerFrame, nframes)
      ensures r == 0 ==>
        ShowsEdges(out, if |out| < numTriggers then |out| else numTriggers, old(Batch()), old(render[..]),
                   t0, nsPerFrame, nframes)
      ensures r == 0 ==> Quiet(out, numTriggers, nframes)
    {
      hide LevelIs, ShowsEdges, Instant;
      if out == [] || nframes == 0 || nsPerFrame <= 0.0 { return -1; }
      var nc := if |out| < numTriggers then |out| else numTriggers;
      ghost var start, all := render[..], Batch();
      Silence(nc, out, nframes);
      TakeQueued();
      CarryOver(nc, out, nframes);
      Sift(nc, t0, nsPerFrame, nframes, out, all, start);
      ShownEdges(out, nc, all, start, t0, nsPerFrame, nframes);
      return 0;
    }

    /** Moves what the sampling thread has produced into the held list. */
    method TakeQueued()
      requires Valid()
      modifies this`nheld, held, tev`tail
      ensures Valid()
      ensures held[..nheld] == old(Batch())
      ensures tev.Contents() == old(tev.Contents()[Drained()..])
      ensures nheld == if old(nheld + |tev.Contents()|) <= 256 then old(nheld + |tev.Contents()|) else 256
    {
      if nheld < HELD_MAX {
        var n := tev.Drain(held, nheld, HELD_MAX - nheld);
        nheld := nheld + n;
      }
    }

    /** Works through the batch in place: an edge past the window is moved down
        to the held part, any other is painted and consumed. */
    method Sift(nc: nat, t0: nat, nsPerFrame: real, nframes: nat, out: seq<array?<real>>,
                ghost all: seq<Event>, ghost start: seq<real>)
      requires nc <= |out| && nc <= numTriggers <= MAX_TRIGGERS == render.Length == |start|
      requires nheld <= held.Length && all == held[..nheld] && start == render[..]
      requires Buffers(out, nframes) && render !in out
      requires nsPerFrame > 0.0 && nframes > 0
      requires Shows(out, nc, [], start, t0, nsPerFrame, nframes)
      requires Quiet(out, nc, nframes)
      modifies this`nheld, held, render, Targets(out)
      ensures nheld <= old(nheld)
      ensures held[..nheld] == HeldBack(all, WindowEnd(t0, nsPerFrame, nframes))
      ensures forall ch :: 0 <= ch < MAX_TRIGGERS ==>
                render[ch] == if ch < nc
                              then StepLevel(all, ch, WindowEnd(t0, nsPerFrame, nframes) as real, start[ch])
                              else start[ch]
      ensures Shows(out, nc, all, start, t0, nsPerFrame, nframes)
      ensures Quiet(out, nc, nframes)
    {
      var wend := WindowEnd(t0, nsPerFrame, nframes);
      var keep, i := 0, 0;
      while i < nheld
        invariant 0 <= keep <= i <= nheld == old(nheld)
        invariant forall j :: i <= j < nheld ==> held[j] == all[j]
        invariant held[..keep] == HeldBack(all[..i], wend)
        invariant forall ch :: 0 <= ch < MAX_TRIGGERS ==>
                    render[ch] == if ch < nc then StepLevel(all[..i], ch, wend as real, start[ch]) else start[ch]
        invariant Shows(out, nc, all[..i], start, t0, nsPerFrame, nframes)
        invariant Quiet(out, nc, nframes)
      {
        hide StepLevel, HeldBack, Shows, WindowEnd, Span;
        assert all[..i + 1] == all[..i] + [held[i]];
        keep := SiftOne(held[i], keep, nc, t0, nsPerFrame, nframes, out, all[..i], start);
        i := i + 1;
      }
      assert all[..i] == all;
      nheld := keep;
    }

    /** Keeps or consumes one edge. */
    method SiftOne(e: Event, keep: nat, nc: nat, t0: nat, nsPerFrame: real, nframes: nat, out: seq<array?<real>>,
                   ghost es: seq<Event>, ghost start: seq<real>)
      returns (kept: nat)
      requires nc <= |out| && nc <= MAX_TRIGGERS == render.Length == |start| && keep < held.Length
      requires Buffers(out, nframes) && render !in out
      requires nsPerFrame > 0.0 && nframes > 0
      requires held[..keep] == HeldBack(es, WindowEnd(t0, nsPerFrame, nframes))
      requires forall ch :: 0 <= ch < MAX_TRIGGERS ==>
                 render[ch] == if ch < nc
                               then StepLevel(es, ch, WindowEnd(t0, nsPerFrame, nframes) as real, start[ch])
                               else start[ch]
      requires Shows(out, nc, es, start, t0, nsPerFrame, nframes) && Quiet(out, nc, nframes)
      modifies held, render, Targets(out)
      ensures keep <= kept <= keep + 1
      ensures held[..kept] == HeldBack(es + [e], WindowEnd(t0, nsPerFrame, nframes))
      ensures forall j :: keep < j < held.Length ==> held[j] == old(held[j])
      ensures forall ch :: 0 <= ch < MAX_TRIGGERS ==>
                render[ch] == if ch < nc
                              then StepLevel(es + [e], ch, WindowEnd(t0, nsPerFrame, nframes) as real, start[ch])
                              else start[ch]
      ensures Shows(out, nc, es + [e], start, t0, nsPerFrame, nframes) && Quiet(out, nc, nframes)
    {
      hide StepLevel, HeldBack, Shows, Span;
      HeldBackSnoc(es, e, WindowEnd(t0, nsPerFrame, nframes));
      kept := keep;
      if e.timeNs >= WindowEnd(t0, nsPerFrame, nframes) {
        Passed(e, nc, t0, nsPerFrame, nframes, out, es, start);
        held[keep] := e;
        kept := keep + 1;
      } else if e.index < nc {
        PlaceEdge(e, nc, t0, nsPerFrame, nframes, out, es, start);
      } else {
        Passed(e, nc, t0, nsPerFrame, nframes, out, es, start);
      }
    }

    lemma StepLevels(es: seq<Event>, e: Event)
      ensures forall ch: nat, cut: real, v: real :: StepLevel(es + [e], ch, cut, v) ==
                if e.index == ch && e.timeNs as real < cut then Level(e) else StepLevel(es, ch, cut, v)
    {
      forall ch: nat, cut: real, v: real
        ensures StepLevel(es + [e], ch, cut, v) ==
                if e.index == ch && e.timeNs as real < cut then Level(e) else StepLevel(es, ch, cut, v)
      {
        StepLevelSnoc(es, e, ch, cut, v);
      }
    }

    /** An edge past the window or for a channel not rendered changes no level. */
    lemma Passed(e: Event, nc: nat, t0: nat, nsPerFrame: real, nframes: nat, out: seq<array?<real>>,
                 es: seq<Event>, start: seq<real>)
      requires nc <= |out| && nc <= |start| && Buffers(out, nframes)
      requires e.timeNs >= WindowEnd(t0, nsPerFrame, nframes) || e.index >= nc
      requires Shows(out, nc, es, start, t0, nsPerFrame, nframes)
      ensures Shows(out, nc, es + [e], start, t0, nsPerFrame, nframes)
      ensures forall ch :: 0 <= ch < nc ==>
                StepLevel(es + [e], ch, WindowEnd(t0, nsPerFrame, nframes) as real, start[ch]) ==
                StepLevel(es, ch, WindowEnd(t0, nsPerFrame, nframes) as real, start[ch])
    {
      StepLevels(es, e);
      CutsWithinWindow(t0, nsPerFrame, nframes);
      hide StepLevel, FrameCut, WindowEnd;
    }

    /** Every channel starts on the level it ended the previous block on. */
    method CarryOver(nc: nat, out: seq<array?<real>>, nframes: nat)
      requires nc <= |out| && nc <= render.Length && Buffers(out, nframes) && render !in out
      modifies Targets(out)
      ensures forall ch, f :: 0 <= ch < nc && out[ch] != null && 0 <= f < nframes ==> out[ch][f] == render[ch]
      ensures forall ch :: nc <= ch < |out| && out[ch] != null ==> unchanged(out[ch])
    {
      for ch := 0 to nc
        invariant forall c, f :: 0 <= c < ch && out[c] != null && 0 <= f < nframes ==> out[c][f] == render[c]
        invariant forall c :: nc <= c < |out| && out[c] != null ==> unchanged(out[c])
      {
        if out[ch] != null { Paint(out[ch], 0, nframes, render[ch]); }
      }
    }

    /** Takes one edge inside the window into account. */
    method PlaceEdge(e: Event, nc: nat, t0: nat, nsPerFrame: real, nframes: nat, out: seq<array?<real>>,
                     ghost es: seq<Event>, ghost start: seq<real>)
      requires nc <= |out| && nc <= render.Length && |start| == render.Length
      requires Buffers(out, nframes) && render !in out
      requires nsPerFrame > 0.0 && nframes > 0
      requires e.index < nc && e.timeNs < WindowEnd(t0, nsPerFrame, nframes)
      requires Shows(out, nc, es, start, t0, nsPerFrame, nframes)
      modifies render, Targets(out)
      ensures render[e.index] == if e.value != 0 then 1.0 else 0.0
      ensures forall ch :: 0 <= ch < render.Length && ch != e.index ==> render[ch] == old(render[ch])
      ensures Shows(out, nc, es + [e], start, t0, nsPerFrame, nframes)
      ensures forall ch :: 0 <= ch < nc ==>
                StepLevel(es + [e], ch, WindowEnd(t0, nsPerFrame, nframes) as real, start[ch]) ==
                if ch == e.index then Level(e)
                else StepLevel(es, ch, WindowEnd(t0, nsPerFrame, nframes) as real, start[ch])
      ensures forall ch :: nc <= ch < |out| && out[ch] != null ==> unchanged(out[ch])
    {
      var off := Offset(e, t0, nsPerFrame, nframes);
      VisibleFrom(e, t0, nsPerFrame, nframes, 0);
      forall f: nat | f < nframes
        ensures off <= f <==> (e.timeNs as real) < FrameCut(t0, nsPerFrame, nframes, f)
      {
        VisibleFrom(e, t0, nsPerFrame, nframes, f);
      }
      StepLevels(es, e);
      var lvl := Level(e);
      render[e.index] := lvl;
      if out[e.index] != null { Paint(out[e.index], off, nframes, lvl); }
    }
  }
}
