/** Rendering CV onto the host's sample grid: `tt_cv_block` of
    src/tt_core.c. */
module CvRender {
  import opened Frames
  import opened Reals
  import opened Scans
  import opened ScanRingSteps
  import opened Calibration
  import opened Smoothing

  /** The newest of the scans [lo, w) at or before t; the oldest when none is. */
  function Lookup(h: seq<Scan>, lo: nat, w: nat, t: real): (i: nat)
    requires lo < w <= |h|
    ensures lo <= i < w
  {
    if w == lo + 1 || h[w - 1].t as real <= t then w - 1 else Lookup(h, lo, w - 1, t)
  }

  /** How far t has moved from scan a towards scan b, between 0 and 1. */
  function Fraction(a: Scan, b: Scan, t: real): real {
    if b.t > a.t then
      var q := (t - a.t as real) / (b.t - a.t) as real;
      if q < 0.0 then 0.0 else if q > 1.0 then 1.0 else q
    else 0.0
  }

  function Volts(cal: Cal, s: Scan, ch: nat): real
    requires ch < MAX_CV
  {
    CodeToVolts(cal[ch], s.raw[ch])
  }

  function Blended(cal: Cal, a: Scan, b: Scan, t: real, ch: nat): real
    requires ch < MAX_CV
  {
    Volts(cal, a, ch) + Fraction(a, b, t) * (Volts(cal, b, ch) - Volts(cal, a, ch))
  }

  /** The value of channel ch at time t, looked up afresh: the line between the
      bracketing scans, the oldest scan before the ring, the newest after it. */
  function ValueAt(cal: Cal, h: seq<Scan>, lo: nat, t: real, ch: nat): real
    requires lo < |h| && ch < MAX_CV
  {
    var i := Lookup(h, lo, |h|, t);
    Blended(cal, h[i], if i + 1 < |h| then h[i + 1] else h[i], t, ch)
  }

  lemma {:induction false} LookupUnique(h: seq<Scan>, lo: nat, w: nat, t: real, i: nat)
    requires lo <= i < w <= |h|
    requires i == lo || h[i].t as real <= t
    requires forall j :: i < j < w ==> h[j].t as real > t
    ensures Lookup(h, lo, w, t) == i
  {
    if i < w - 1 { LookupUnique(h, lo, w - 1, t, i); }
  }

  /** Lookup in words: for scans in time order it is the only index whose scan is
      at or before t while all newer ones are after it, or lo when even lo is
      after t. */
  lemma {:induction false} LookupBrackets(h: seq<Scan>, lo: nat, w: nat, t: real, i: nat)
    requires lo < w <= |h| && NonDecreasing(h)
    ensures i == Lookup(h, lo, w, t) <==>
              && lo <= i < w
              && (h[i].t as real <= t || (i == lo && h[lo].t as real > t))
              && forall j :: i < j < w ==> h[j].t as real > t
  {
    var k := Lookup(h, lo, w, t);
    LookupHolds(h, lo, w, t);
    if && lo <= i < w
       && (h[i].t as real <= t || (i == lo && h[lo].t as real > t))
       && (forall j :: i < j < w ==> h[j].t as real > t)
    {
      LookupUnique(h, lo, w, t, i);
    }
  }

  lemma {:induction false} LookupHolds(h: seq<Scan>, lo: nat, w: nat, t: real)
    requires lo < w <= |h|
    ensures var k := Lookup(h, lo, w, t);
            && (h[k].t as real <= t || k == lo)
            && forall j :: k < j < w ==> h[j].t as real > t
  {
    if !(w == lo + 1 || h[w - 1].t as real <= t) { LookupHolds(h, lo, w - 1, t); }
  }

  /** Between two instants the bracketing scan moves over exactly the scans
      stamped after the first and not after the second. */
  lemma {:induction false} AdvancesAreWindowScans(h: seq<Scan>, lo: nat, t0: real, t1: real, j: nat)
    requires lo < |h| && NonDecreasing(h) && t0 <= t1 && lo < j < |h|
    ensures Lookup(h, lo, |h|, t0) <= Lookup(h, lo, |h|, t1)
    ensures Lookup(h, lo, |h|, t0) < j <= Lookup(h, lo, |h|, t1) <==> t0 < h[j].t as real <= t1
  {
    LookupHolds(h, lo, |h|, t0);
    LookupHolds(h, lo, |h|, t1);
  }

  /** v is what channel ch reads at time t between scans a and b, in codes and
      calibration: a's volts up to a, b's from b on, and in between the value for
      which v - a is to b - a as t - a.t is to b.t - a.t. Scans that do not
      advance hold a. */
  ghost predicate OnLine(c: Channel, a: Scan, b: Scan, ch: nat, t: real, v: real)
    requires ch < MAX_CV
  {
    var x, y, s, u := a.raw[ch] as real, b.raw[ch] as real, a.t as real, b.t as real;
    if s < t < u then (v - (x - c.offset) * c.scale) * (u - s) == (y - x) * c.scale * (t - s)
    else if s < u <= t then v == (y - c.offset) * c.scale
    else v == (x - c.offset) * c.scale
  }

  lemma BlendedOnLine(cal: Cal, a: Scan, b: Scan, t: real, ch: nat)
    requires ch < MAX_CV
    ensures OnLine(cal[ch], a, b, ch, t, Blended(cal, a, b, t, ch))
  {
    var s, u := a.t as real, b.t as real;
    if s < u {
      var q := (t - s) / (u - s);
      assert q * (u - s) == t - s;
      Share(q, t - s, u - s);
      var d, k := Volts(cal, b, ch) - Volts(cal, a, ch), cal[ch].scale;
      assert d == (b.raw[ch] as real - a.raw[ch] as real) * k;
      hide Volts;
      if s < t < u { assert (q * d) * (u - s) == d * (q * (u - s)); }
    }
  }

  lemma Share(q: real, x: real, w: real)
    requires w > 0.0 && q * w == x
    ensures (q < 0.0 <==> x < 0.0) && (q > 1.0 <==> x > w) && (q == 0.0 <==> x == 0.0) && (q == 1.0 <==> x == w)
  {
    if q < 0.0 { Positive(-q, w); } else if q > 0.0 { Positive(q, w); }
    if q > 1.0 { Positive(q - 1.0, w); } else if q < 1.0 { Positive(1.0 - q, w); }
  }

  /** Whatever the time, the rendered value lies on the line between the two
      bracketing scans, held at the oldest and at the newest, and so between
      their voltages. */
  lemma ValueInHull(cal: Cal, h: seq<Scan>, lo: nat, t: real, ch: nat)
    requires lo < |h| && ch < MAX_CV
    ensures var i := Lookup(h, lo, |h|, t);
            var next := if i + 1 < |h| then h[i + 1] else h[i];
            && OnLine(cal[ch], h[i], next, ch, t, ValueAt(cal, h, lo, t, ch))
            && var a, b := Volts(cal, h[i], ch), Volts(cal, next, ch);
               (a <= ValueAt(cal, h, lo, t, ch) <= b) || (b <= ValueAt(cal, h, lo, t, ch) <= a)
  {
    var i := Lookup(h, lo, |h|, t);
    var next := if i + 1 < |h| then h[i + 1] else h[i];
    BlendedOnLine(cal, h[i], next, t, ch);
    Between(cal, h[i], next, t, ch);
  }

  /** Scan i is the newest at or before t, or the oldest when none is. */
  ghost predicate Brackets(h: seq<Scan>, lo: nat, t: real, i: nat) {
    && lo <= i < |h| && (i == lo || h[i].t as real <= t)
    && forall j :: i < j < |h| ==> h[j].t as real > t
  }

  lemma Between(cal: Cal, a: Scan, b: Scan, t: real, ch: nat)
    requires ch < MAX_CV
    ensures var u, v, w := Volts(cal, a, ch), Volts(cal, b, ch), Blended(cal, a, b, t, ch);
            u <= w <= v || v <= w <= u
  {
    var q, d := Fraction(a, b, t), Volts(cal, b, ch) - Volts(cal, a, ch);
    assert 0.0 <= q <= 1.0;
    if d >= 0.0 { Product(q, d); Product(1.0 - q, d); } else { Product(q, -d); Product(1.0 - q, -d); }
  }

  lemma {:induction false} LookupMono(h: seq<Scan>, lo: nat, w: nat, t: real, t': real)
    requires lo < w <= |h| && t <= t'
    ensures Lookup(h, lo, w, t) <= Lookup(h, lo, w, t')
  {
    if w > lo + 1 && h[w - 1].t as real > t' { LookupMono(h, lo, w - 1, t, t'); }
  }

  /** The bracketing pair of scans: a at index idx, b after it when there is one. */
  datatype Cursor = Cursor(idx: nat, a: Scan, haveB: bool, b: Scan) {
    /** The pair holds scans of h. */
    ghost predicate On(h: seq<Scan>, lo: nat) {
      && lo <= idx < |h| && a == h[idx]
      && (haveB ==> idx + 1 < |h| && b == h[idx + 1])
      && (!haveB ==> b == a)
    }

    /** b is missing only because a is the newest scan. */
    ghost predicate Complete(h: seq<Scan>) {
      haveB <==> idx + 1 < |h|
    }

    /** The pair was read from the scans of h, b being missing only because there
        was none or it had been overwritten. The history has gone on since. */
    ghost predicate Fits(h: seq<Scan>, lo: nat, history: seq<Scan>, size: nat, p: Producer) {
      && h <= history
      && lo <= idx < |h| && ReadAs(a, idx, history, size, p)
      && (haveB ==> idx + 1 < |h| && ReadAs(b, idx + 1, history, size, p))
      && (!haveB ==> b == a && (idx + 1 < |h| ==> |history| - (idx + 1) > size))
    }
  }

  /** A pair less than a ring behind was read whole. */
  lemma FitsInReach(c: Cursor, h: seq<Scan>, lo: nat, history: seq<Scan>, size: nat, p: Producer)
    requires c.Fits(h, lo, history, size, p) && InReach(history, c.idx, size)
    ensures c.On(h, lo) && c.Complete(h)
  {
    hide Copied, Mixture;
  }

  lemma FitsLater(c: Cursor, h: seq<Scan>, lo: nat, history: seq<Scan>, p: Producer,
                  history': seq<Scan>, p': Producer, size: nat)
    requires c.Fits(h, lo, history, size, p) && Later(history, p, history', p')
    ensures c.Fits(h, lo, history', size, p')
  {
    hide ReadAs;
    StillRead(c.a, c.idx, history, p, history', p', size);
    if c.haveB { StillRead(c.b, c.idx + 1, history, p, history', p', size); }
  }

  /** Every scan from lo on, and the one being pushed, reads between x and y. */
  ghost predicate InRange(cal: Cal, ch: nat, history: seq<Scan>, lo: nat, p: Producer, x: real, y: real)
    requires ch < MAX_CV
  {
    && (forall k :: lo <= k < |history| ==> x <= Volts(cal, history[k], ch) <= y)
    && (p.PWriting? ==> x <= Volts(cal, p.scan, ch) <= y)
  }

  /** Torn or not, a scan read shows no voltage that no pushed scan had. */
  lemma ReadInRange(got: Scan, idx: nat, history: seq<Scan>, size: nat, p: Producer, cal: Cal, ch: nat,
                    lo: nat, x: real, y: real)
    requires ReadAs(got, idx, history, size, p) && lo <= idx
    requires ch < MAX_CV && InRange(cal, ch, history, lo, p, x, y)
    ensures x <= Volts(cal, got, ch) <= y
  {
    hide CodeToVolts;
    assert got.raw[ch] == Word(got, ch + 1);
  }

  lemma CursorInRange(c: Cursor, h: seq<Scan>, lo: nat, history: seq<Scan>, size: nat, p: Producer,
                      cal: Cal, t: real, ch: nat, x: real, y: real)
    requires c.Fits(h, lo, history, size, p) && ch < MAX_CV && InRange(cal, ch, history, lo, p, x, y)
    ensures x <= Volts(cal, c.a, ch) <= y && x <= Blended(cal, c.a, c.b, t, ch) <= y
  {
    hide ReadAs, InRange, Volts, Blended;
    ReadInRange(c.a, c.idx, history, size, p, cal, ch, lo, x, y);
    if c.haveB { ReadInRange(c.b, c.idx + 1, history, size, p, cal, ch, lo, x, y); }
    Between(cal, c.a, c.b, t, ch);
  }

  /** A move of the cursor for time t. */
  ghost predicate Leads(from: Cursor, to: Cursor, t: real) {
    && from.idx <= to.idx
    && (from.idx < to.idx ==> to.a.t as real <= t)
    && (to.haveB ==> to.b.t as real > t)
  }

  /** No scan from lo on has left the ring. */
  predicate NotLapped(history: seq<Scan>, lo: nat, size: nat) {
    |history| - lo <= size
  }

  /** What the reader carries from block to block. */
  datatype Carry = Carry(z: seq<real>, primed: bool, last: seq<real>)

  /** The instant of frame f. */
  function FrameAt(t0: nat, p: real, f: nat): real {
    t0 as real + Span(p, f)
  }

  /** The unsmoothed samples of channel ch over a block. */
  function Raw(cal: Cal, h: seq<Scan>, lo: nat, t0: nat, p: real, n: nat, ch: nat): (vs: seq<real>)
    requires lo < |h| && ch < MAX_CV
    ensures |vs| == n
  {
    seq(n, f requires 0 <= f < n => ValueAt(cal, h, lo, FrameAt(t0, p, f), ch))
  }

  /** Where channel ch's filter starts: on the first scan the first time. */
  function FilterStart(c: Carry, cal: Cal, h: seq<Scan>, lo: nat, t0: nat, ch: nat): real
    requires lo < |h| && ch < MAX_CV == |c.z|
  {
    if c.primed then c.z[ch] else Volts(cal, h[Lookup(h, lo, |h|, t0 as real)], ch)
  }

  /** The samples a block shows for a channel whose raw samples are vs. */
  function Shown(z: real, coef: real, vs: seq<real>): (ys: seq<real>)
    ensures |ys| == |vs|
  {
    if coef > 0.0 then seq(|vs|, f requires 0 <= f < |vs| => Smooth(z, coef, vs[..f + 1])) else vs
  }

  lemma RawSnoc(cal: Cal, h: seq<Scan>, lo: nat, t0: nat, p: real, f: nat, ch: nat)
    requires lo < |h| && ch < MAX_CV
    ensures Raw(cal, h, lo, t0, p, f + 1, ch) ==
              Raw(cal, h, lo, t0, p, f, ch) + [ValueAt(cal, h, lo, FrameAt(t0, p, f), ch)]
  {}

  lemma FrameMono(t0: nat, p: real, f: nat)
    requires p >= 0.0
    ensures (if f == 0 then t0 as real else FrameAt(t0, p, f - 1)) <= FrameAt(t0, p, f)
  {}

  lemma ShownSnoc(z: real, coef: real, vs: seq<real>, v: real)
    ensures Shown(z, coef, vs + [v]) ==
              Shown(z, coef, vs) + [if coef > 0.0 then Smooth(z, coef, vs + [v]) else v]
    ensures Smooth(z, coef, vs + [v]) == Smooth(z, coef, vs) + coef * (v - Smooth(z, coef, vs))
  {
    hide Smooth, Shown;
    SmoothSnoc(z, coef, vs, v);
    ShownSnocOnly(z, coef, vs, v);
  }

  lemma SmoothSnoc(z: real, coef: real, vs: seq<real>, v: real)
    ensures Smooth(z, coef, vs + [v]) == Smooth(z, coef, vs) + coef * (v - Smooth(z, coef, vs))
  {
    assert (vs + [v])[..|vs|] == vs;
  }

  lemma ShownSnocOnly(z: real, coef: real, vs: seq<real>, v: real)
    ensures Shown(z, coef, vs + [v]) ==
              Shown(z, coef, vs) + [if coef > 0.0 then Smooth(z, coef, vs + [v]) else v]
  {
    hide Smooth;
    if coef > 0.0 {
      var ys := Shown(z, coef, vs) + [Smooth(z, coef, vs + [v])];
      forall f: nat | f < |vs| + 1 ensures Shown(z, coef, vs + [v])[f] == ys[f] {
        if f < |vs| { assert (vs + [v])[..f + 1] == vs[..f + 1]; } else { assert (vs + [v])[..f + 1] == vs + [v]; }
      }
    }
  }

  /** One block over an unchanging history. coef is 0 when smoothing is off. */
  datatype Block = Block(cal: Cal, h: seq<Scan>, lo: nat, t0: nat, p: real, n: nat, smoothing: bool, coef: real) {
    predicate Valid() {
      lo < |h| && n > 0 && (!smoothing ==> coef == 0.0)
    }

    /** The scan bracketing the block's start. */
    function First(): nat
      requires Valid()
    {
      Lookup(h, lo, |h|, t0 as real)
    }

    /** The scans are in time order, time runs forward, and the producer has not
        caught up with the scan at index i, on which the block starts. */
    ghost predicate Steady(i: nat, history: seq<Scan>, size: nat) {
      NonDecreasing(h) && p >= 0.0 && InReach(history, i, size)
    }

    /** The instant the cursor was last moved for when frame f is next. */
    function Previous(f: nat): real {
      if f == 0 then t0 as real else FrameAt(t0, p, f - 1)
    }

    /** With frame f next, the cursor is where a fresh lookup would put it and
        raws are the samples so far, channel by channel. */
    ghost predicate Tracks(f: nat, c: Cursor, raws: seq<seq<real>>)
      requires Valid() && |raws| <= MAX_CV
    {
      && c.On(h, lo) && c.Complete(h) && c.idx == Lookup(h, lo, |h|, Previous(f))
      && forall ch :: 0 <= ch < |raws| ==> raws[ch] == Raw(cal, h, lo, t0, p, f, ch)
    }

    lemma TracksOn(f: nat, c: Cursor, end: Cursor, raws: seq<seq<real>>, values: seq<real>)
      requires Valid() && |raws| == |values| <= MAX_CV && Tracks(f, c, raws)
      requires end.On(h, lo) && end.Complete(h) && end.idx == Lookup(h, lo, |h|, FrameAt(t0, p, f))
      requires forall ch :: 0 <= ch < |raws| ==> values[ch] == Blended(cal, end.a, end.b, FrameAt(t0, p, f), ch)
      ensures Tracks(f + 1, end, seq(|raws|, ch requires 0 <= ch < |raws| => raws[ch] + [values[ch]]))
    {
      hide Lookup, Raw, FrameAt, Blended;
      forall ch: nat | ch < |raws|
        ensures Raw(cal, h, lo, t0, p, f + 1, ch) ==
                  Raw(cal, h, lo, t0, p, f, ch) + [ValueAt(cal, h, lo, FrameAt(t0, p, f), ch)]
      {
        RawSnoc(cal, h, lo, t0, p, f, ch);
      }
    }

    /** Whatever the producer does, a block's cursors only move forward, only onto
        scans that are due as read, and stop before one that is not. */
    ghost predicate Walks(start: Cursor, path: seq<Cursor>)
    {
      path == [] ||
      var f := |path| - 1;
      && Walks(start, path[..f])
      && Leads(if f == 0 then start else path[f - 1], path[f], FrameAt(t0, p, f))
    }

    /** The filter state the first frame starts from, the first scan being s. */
    function From(c: Carry, s: Scan, ch: nat): real
      requires ch < MAX_CV == |c.z|
    {
      if smoothing && !c.primed then Volts(cal, s, ch) else c.z[ch]
    }

    /** The unsmoothed samples along a path. */
    function Along(path: seq<Cursor>, ch: nat): (vs: seq<real>)
      requires ch < MAX_CV
      ensures |vs| == |path|
    {
      seq(|path|, f requires 0 <= f < |path| => Blended(cal, path[f].a, path[f].b, FrameAt(t0, p, f), ch))
    }

    /** Every cursor of a path was read from the scans of h. */
    ghost predicate Fit(path: seq<Cursor>, history: seq<Scan>, size: nat, p: Producer) {
      forall f :: 0 <= f < |path| ==> path[f].Fits(h, lo, history, size, p)
    }

    lemma FitLater(path: seq<Cursor>, c: Cursor, history: seq<Scan>, p: Producer,
                   history': seq<Scan>, p': Producer, size: nat)
      requires Fit(path, history, size, p) && Later(history, p, history', p') && c.Fits(h, lo, history', size, p')
      ensures Fit(path + [c], history', size, p')
    {
      hide Cursor.Fits, Later;
      forall f | 0 <= f < |path| ensures path[f].Fits(h, lo, history', size, p') {
        FitsLater(path[f], h, lo, history, p, history', p', size);
      }
    }

    /** Whatever the producer does, a block's samples stay within the range of
        the scans pushed, smoothed or not, and of the state carried on from. */
    lemma PathInRange(path: seq<Cursor>, start: Cursor, c: Carry, ch: nat, history: seq<Scan>, size: nat,
                      q: Producer, x: real, y: real, f: nat)
      requires Valid() && ch < MAX_CV == |c.z| && 0.0 <= coef < 1.0 && f < |path|
      requires start.Fits(h, lo, history, size, q) && Fit(path, history, size, q)
      requires InRange(cal, ch, history, lo, q, x, y)
      requires coef > 0.0 && c.primed ==> x <= c.z[ch] <= y
      ensures x <= Shown(From(c, start.a, ch), coef, Along(path, ch))[f] <= y
    {
      hide Cursor.Fits, InRange, Volts, Blended, Smooth;
      var vs := Along(path, ch);
      forall k | 0 <= k < |vs| ensures x <= vs[k] <= y {
        CursorInRange(path[k], h, lo, history, size, q, cal, FrameAt(t0, p, k), ch, x, y);
      }
      if coef > 0.0 {
        CursorInRange(start, h, lo, history, size, q, cal, 0.0, ch, x, y);
        StaysInHull(From(c, start.a, ch), coef, vs[..f + 1], x, y);
      }
    }

    lemma NoPath(start: Cursor, history: seq<Scan>, size: nat, p: Producer)
      ensures Walks(start, []) && Fit([], history, size, p)
      ensures forall ch: nat :: ch < MAX_CV ==> Along([], ch) == []
    {}

    lemma WalksOn(start: Cursor, path: seq<Cursor>, c: Cursor)
      requires Walks(start, path)
      requires Leads(if path == [] then start else path[|path| - 1], c, FrameAt(t0, p, |path|))
      ensures Walks(start, path + [c])
    {
      assert (path + [c])[..|path|] == path;
    }

    lemma AlongOn(path: seq<Cursor>, c: Cursor, ch: nat)
      requires ch < MAX_CV
      ensures Along(path + [c], ch) == Along(path, ch) + [Blended(cal, c.a, c.b, FrameAt(t0, p, |path|), ch)]
    {}

    lemma PathGrows(start: Cursor, path: seq<Cursor>, c: Cursor, nc: nat,
                    raws: seq<seq<real>>, values: seq<real>, more: seq<seq<real>>)
      requires Walks(start, path) && |raws| == |values| == |more| == nc <= MAX_CV
      requires Leads(if path == [] then start else path[|path| - 1], c, FrameAt(t0, p, |path|))
      requires forall ch :: 0 <= ch < nc ==> raws[ch] == Along(path, ch)
      requires forall ch :: 0 <= ch < nc ==> values[ch] == Blended(cal, c.a, c.b, FrameAt(t0, p, |path|), ch)
      requires forall ch :: 0 <= ch < nc ==> more[ch] == raws[ch] + [values[ch]]
      ensures Walks(start, path + [c]) && forall ch :: 0 <= ch < nc ==> more[ch] == Along(path + [c], ch)
    {
      hide Along, Blended;
      WalksOn(start, path, c);
      forall ch | 0 <= ch < nc ensures more[ch] == Along(path + [c], ch) { AlongOn(path, c, ch); }
    }

    function Samples(c: Carry, ch: nat): (ys: seq<real>)
      requires Valid() && ch < MAX_CV == |c.z|
      ensures |ys| == n
    {
      Shown(FilterStart(c, cal, h, lo, t0, ch), coef, Raw(cal, h, lo, t0, p, n, ch))
    }

    /** The filter state before the first frame. */
    function Start(c: Carry, ch: nat): real
      requires Valid() && ch < MAX_CV == |c.z|
    {
      if smoothing then FilterStart(c, cal, h, lo, t0, ch) else c.z[ch]
    }

    /** The carried state after the block, for the first nc channels. */
    function After(c: Carry, nc: nat): (r: Carry)
      requires Valid() && nc <= MAX_CV == |c.z| == |c.last|
      ensures |r.z| == |r.last| == MAX_CV
    {
      Carry(
        seq(MAX_CV, ch requires 0 <= ch < MAX_CV =>
          if ch < nc && coef > 0.0 then Smooth(Start(c, ch), coef, Raw(cal, h, lo, t0, p, n, ch))
          else if ch < nc then Start(c, ch) else c.z[ch]),
        c.primed || smoothing,
        seq(MAX_CV, ch requires 0 <= ch < MAX_CV => if ch < nc then Samples(c, ch)[n - 1] else c.last[ch]))
    }

    /** No frame's bracketing scan is older than the first one's. */
    lemma NoEarlier(f: nat)
      requires Valid() && p >= 0.0
      ensures First() <= Lookup(h, lo, |h|, Previous(f))
    {
      if f > 0 { SpanMono(p, 0, f - 1); }
      LookupMono(h, lo, |h|, t0 as real, Previous(f));
    }

    /** z0 is the filter state the first frame starts from. */
    ghost predicate Primed(c: Carry, nc: nat, z0: seq<real>)
      requires Valid() && nc <= MAX_CV == |c.z| == |z0|
    {
      forall ch :: 0 <= ch < MAX_CV ==> z0[ch] == if ch < nc then Start(c, ch) else c.z[ch]
    }

    /** What the channels' samples and states come to, put together. */
    lemma Lands(c: Carry, nc: nat, z0: seq<real>, raws: seq<seq<real>>, z: seq<real>, last: seq<real>)
      requires Valid() && |raws| == nc <= MAX_CV == |c.z| == |c.last| == |z0| == |z| == |last| && Primed(c, nc, z0)
      requires forall ch :: 0 <= ch < nc ==> |raws[ch]| == n && raws[ch] == Raw(cal, h, lo, t0, p, n, ch)
      requires forall ch :: 0 <= ch < MAX_CV ==>
                 z[ch] == if ch < nc && coef > 0.0 then Smooth(z0[ch], coef, raws[ch]) else z0[ch]
      requires forall ch :: 0 <= ch < MAX_CV ==>
                 last[ch] == if ch < nc then Shown(z0[ch], coef, raws[ch])[n - 1] else c.last[ch]
      ensures forall ch :: 0 <= ch < nc ==> Shown(z0[ch], coef, raws[ch]) == Samples(c, ch)
      ensures After(c, nc) == Carry(z, c.primed || smoothing, last)
    {
      hide Raw, Lookup, Smooth;
      assert forall ch :: 0 <= ch < nc ==> Shown(z0[ch], coef, raws[ch]) == Samples(c, ch);
      assert After(c, nc).z == z;
      assert After(c, nc).last == last;
    }
  }

  /** Every unsmoothed sample is read off the line at its own instant. */
  lemma RawOnLine(b: Block, ch: nat, f: nat, i: nat)
    requires b.Valid() && ch < MAX_CV && f < b.n
    requires Brackets(b.h, b.lo, b.t0 as real + b.p * f as real, i)
    ensures OnLine(b.cal[ch], b.h[i], if i + 1 < |b.h| then b.h[i + 1] else b.h[i], ch,
                   b.t0 as real + b.p * f as real, Raw(b.cal, b.h, b.lo, b.t0, b.p, b.n, ch)[f])
  {
    assert FrameAt(b.t0, b.p, f) == b.t0 as real + b.p * f as real by { SpanIsProduct(b.p, f); }
    hide *;
    RawAt(b, ch, f, i, FrameAt(b.t0, b.p, f));
  }

  lemma RawAt(b: Block, ch: nat, f: nat, i: nat, t: real)
    requires b.Valid() && ch < MAX_CV && f < b.n && t == FrameAt(b.t0, b.p, f) && Brackets(b.h, b.lo, t, i)
    ensures OnLine(b.cal[ch], b.h[i], if i + 1 < |b.h| then b.h[i + 1] else b.h[i], ch, t,
                   Raw(b.cal, b.h, b.lo, b.t0, b.p, b.n, ch)[f])
  {
    assert Raw(b.cal, b.h, b.lo, b.t0, b.p, b.n, ch)[f] == ValueAt(b.cal, b.h, b.lo, t, ch);
    hide OnLine, Raw, ValueAt, Volts, Lookup, FrameAt;
    LookupUnique(b.h, b.lo, |b.h|, t, i);
    ValueInHull(b.cal, b.h, b.lo, t, ch);
  }

  /** Every shown sample is the unsmoothed one, or moves from the one before, or
      from where the filter starts, by coef of the gap to it. */
  lemma SampleStep(b: Block, c: Carry, ch: nat, f: nat)
    requires b.Valid() && ch < MAX_CV == |c.z| && f < b.n
    ensures var x := Raw(b.cal, b.h, b.lo, b.t0, b.p, b.n, ch)[f];
            var was := if f > 0 then b.Samples(c, ch)[f - 1] else FilterStart(c, b.cal, b.h, b.lo, b.t0, ch);
            b.Samples(c, ch)[f] == if b.coef > 0.0 then was + b.coef * (x - was) else x
  {
    hide Lookup, Raw, Shown, FilterStart;
    ShownStep(FilterStart(c, b.cal, b.h, b.lo, b.t0, ch), b.coef, Raw(b.cal, b.h, b.lo, b.t0, b.p, b.n, ch), f);
  }

  lemma ShownStep(z: real, coef: real, vs: seq<real>, f: nat)
    requires f < |vs|
    ensures var was := if f > 0 then Shown(z, coef, vs)[f - 1] else z;
            Shown(z, coef, vs)[f] == if coef > 0.0 then was + coef * (vs[f] - was) else vs[f]
  {
    hide Smooth;
    assert vs[..f + 1] == vs[..f] + [vs[f]];
    SmoothSnoc(z, coef, vs[..f], vs[f]);
    if f == 0 { NotSmoothed(z, coef, vs[..f]); } else { assert vs[..f - 1 + 1] == vs[..f]; }
  }

  lemma NotSmoothed(z: real, coef: real, vs: seq<real>)
    requires vs == []
    ensures Smooth(z, coef, vs) == z
  {}

  /** A smoothed block stays within the range of the scans it may read and of the
      state it carries on from. Once restarted it has none to carry on from: a
      change of cutoff leaves no transient. */
  lemma SmoothedInHull(b: Block, c: Carry, ch: nat, x: real, y: real, f: nat)
    requires b.Valid() && 0.0 < b.coef < 1.0 && ch < MAX_CV == |c.z| && f < b.n
    requires forall k :: b.lo <= k < |b.h| ==> x <= Volts(b.cal, b.h[k], ch) <= y
    requires c.primed ==> x <= c.z[ch] <= y
    ensures x <= b.Samples(c, ch)[f] <= y
  {
    hide Fraction, Smooth, Lookup;
    var raw := Raw(b.cal, b.h, b.lo, b.t0, b.p, b.n, ch)[..f + 1];
    forall k | 0 <= k < |raw| ensures x <= raw[k] <= y {
      ValueInHull(b.cal, b.h, b.lo, FrameAt(b.t0, b.p, k), ch);
    }
    StaysInHull(FilterStart(c, b.cal, b.h, b.lo, b.t0, ch), b.coef, raw, x, y);
  }

  /** Rendering n frames in one call is rendering k and then n-k, in samples and
      in everything carried over, when k frames are a whole number of
      nanoseconds. Csound hosts render in chunks of 64. */
  lemma ChunkedBlock(b: Block, c: Carry, nc: nat, k: nat, ch: nat)
    requires b.Valid() && 0 < k < b.n && |c.z| == |c.last| == MAX_CV && nc <= MAX_CV && ch < nc
    requires FrameAt(b.t0, b.p, k).Floor >= 0
    requires FrameAt(b.t0, b.p, k) == FrameAt(b.t0, b.p, k).Floor as real
    ensures var first := b.(n := k);
            var second := b.(t0 := FrameAt(b.t0, b.p, k).Floor, n := b.n - k);
            && b.Samples(c, ch) == first.Samples(c, ch) + second.Samples(first.After(c, nc), ch)
            && second.After(first.After(c, nc), nc) == b.After(c, nc)
  {
    var first := b.(n := k);
    var second := b.(t0 := FrameAt(b.t0, b.p, k).Floor, n := b.n - k);
    var mid := first.After(c, nc);
    forall x: nat | x < nc
      ensures b.Samples(c, x) == first.Samples(c, x) + second.Samples(mid, x)
      ensures second.After(mid, nc).z[x] == b.After(c, nc).z[x]
    {
      ChunkedChannel(b, c, nc, k, x);
    }
    assert second.After(mid, nc).z == b.After(c, nc).z;
    assert second.After(mid, nc).last == b.After(c, nc).last;
  }

  lemma ChunkedChannel(b: Block, c: Carry, nc: nat, k: nat, ch: nat)
    requires b.Valid() && 0 < k < b.n && |c.z| == |c.last| == MAX_CV && nc <= MAX_CV && ch < nc
    requires FrameAt(b.t0, b.p, k).Floor >= 0
    requires FrameAt(b.t0, b.p, k) == FrameAt(b.t0, b.p, k).Floor as real
    ensures var first := b.(n := k);
            var second := b.(t0 := FrameAt(b.t0, b.p, k).Floor, n := b.n - k);
            var mid := first.After(c, nc);
            && b.Samples(c, ch) == first.Samples(c, ch) + second.Samples(mid, ch)
            && second.After(mid, nc).z[ch] == b.After(c, nc).z[ch]
  {
    var first := b.(n := k);
    var t1: nat := FrameAt(b.t0, b.p, k).Floor;
    var second := b.(t0 := t1, n := b.n - k);
    var mid := first.After(c, nc);
    var us, ws := Raw(b.cal, b.h, b.lo, b.t0, b.p, k, ch), Raw(b.cal, b.h, b.lo, t1, b.p, b.n - k, ch);
    RawSplit(b, k, ch);
    var z := FilterStart(c, b.cal, b.h, b.lo, b.t0, ch);
    assert mid.primed == (c.primed || b.smoothing);
    if b.coef > 0.0 {
      assert first.Start(c, ch) == z == b.Start(c, ch);
      assert mid.z[ch] == Smooth(z, b.coef, us);
      assert FilterStart(mid, b.cal, b.h, b.lo, t1, ch) == mid.z[ch] == second.Start(mid, ch);
      hide *;
      SmoothAppend(z, b.coef, us, ws);
      ShownAppend(z, b.coef, us, ws);
    } else {
      assert mid.z[ch] == b.Start(c, ch);
    }
  }

  lemma RawSplit(b: Block, k: nat, ch: nat)
    requires b.Valid() && 0 < k < b.n && ch < MAX_CV
    requires FrameAt(b.t0, b.p, k).Floor >= 0
    requires FrameAt(b.t0, b.p, k) == FrameAt(b.t0, b.p, k).Floor as real
    ensures Raw(b.cal, b.h, b.lo, b.t0, b.p, b.n, ch) ==
              Raw(b.cal, b.h, b.lo, b.t0, b.p, k, ch)
              + Raw(b.cal, b.h, b.lo, FrameAt(b.t0, b.p, k).Floor, b.p, b.n - k, ch)
  {
    var t1: nat := FrameAt(b.t0, b.p, k).Floor;
    var vs := Raw(b.cal, b.h, b.lo, b.t0, b.p, b.n, ch);
    var us, ws := Raw(b.cal, b.h, b.lo, b.t0, b.p, k, ch), Raw(b.cal, b.h, b.lo, t1, b.p, b.n - k, ch);
    forall f: nat | f < b.n ensures vs[f] == (us + ws)[f] {
      if f >= k { SpanAdd(b.p, k, f - k); }
    }
  }

  /** Filtering on is filtering the rest from the state reached. */
  lemma ShownAppend(z: real, coef: real, us: seq<real>, ws: seq<real>)
    ensures Shown(z, coef, us + ws) ==
              Shown(z, coef, us) + Shown(if coef > 0.0 then Smooth(z, coef, us) else z, coef, ws)
  {
    hide Smooth;
    var vs := us + ws;
    if coef > 0.0 {
      var rest := Shown(Smooth(z, coef, us), coef, ws);
      forall f: nat | f < |vs| ensures Shown(z, coef, vs)[f] == (Shown(z, coef, us) + rest)[f] {
        if f < |us| {
          assert vs[..f + 1] == us[..f + 1];
        } else {
          assert vs[..f + 1] == us + ws[..f - |us| + 1];
          SmoothAppend(z, coef, us, ws[..f - |us| + 1]);
        }
      }
    }
  }
}
