/** The delay-locked loop that recovers a steady block clock from jittery
    callback times (src/tt_time.c), over the reals. */
module Timebase {
  import opened Reals

  /** The loop between two callbacks: its period estimate and its prediction of
      the next block start. */
  datatype Loop = Loop(period: real, tNext: real, b: real, c: real, frames: nat, warmed: bool)

  /** The block size has changed by more than a factor of two. With a zero
      period the quotient is not a number and neither comparison holds. */
  predicate Resized(s: Loop, nframes: nat) {
    && nframes != 0 && s.frames != 0 && s.period != 0.0
    && (Ratio(nframes, s.frames, s.period) < 0.5 || Ratio(nframes, s.frames, s.period) > 2.0)
  }

  function Ratio(nframes: nat, frames: nat, period: real): real
    requires frames != 0 && period != 0.0
  {
    NonZero(frames as real, period);
    (nframes as real * period) / (frames as real * period)
  }

  lemma NonZero(a: real, b: real)
    requires a != 0.0 && b != 0.0
    ensures a * b != 0.0
  {}

  /** Not every change of block size re-seeds the loop: one to at most twice or
      at least half the frames, doubling and halving included, does not. */
  lemma ReseedsIff(s: Loop, nframes: nat)
    requires s.period > 0.0
    ensures Resized(s, nframes) <==>
              nframes != 0 && s.frames != 0 && (2 * nframes < s.frames || nframes > 2 * s.frames)
  {
    if nframes != 0 && s.frames != 0 {
      var n, f := nframes as real, s.frames as real;
      NonZero(f, s.period);
      QuotientOf(n, f, s.period);
      var q := Ratio(nframes, s.frames, s.period);
      Halves(q, n, f);
      assert 2 * nframes < s.frames <==> 2.0 * n < f;
      assert nframes > 2 * s.frames <==> n > 2.0 * f;
    }
  }

  lemma Halves(q: real, n: real, f: real)
    requires f > 0.0 && q * f == n
    ensures q < 0.5 <==> 2.0 * n < f
    ensures q > 2.0 <==> n > 2.0 * f
  {
    SameSign(q - 0.5, f);
    SameSign(q - 2.0, f);
    assert (q - 0.5) * f == q * f - 0.5 * f && (q - 2.0) * f == q * f - 2.0 * f;
  }

  lemma QuotientOf(n: real, f: real, p: real)
    requires f > 0.0 && p > 0.0
    ensures f * p != 0.0 && (n * p) / (f * p) * f == n
  {
    NonZero(f, p);
    var q := (n * p) / (f * p);
    assert q * (f * p) == n * p;
    assert (q * f - n) * p == 0.0;
    if q * f != n { NonZero(q * f - n, p); }
  }

  lemma SameSign(a: real, f: real)
    requires f > 0.0
    ensures a * f < 0.0 <==> a < 0.0
    ensures a * f > 0.0 <==> a > 0.0
  {}

  /** The period estimate carried over to a new block size. */
  function Rescaled(period: real, nframes: nat, frames: nat): real
    requires frames != 0
  {
    period * (nframes as real / frames as real)
  }

  /** The callback is further from the prediction than ten periods. */
  predicate Stalled(s: Loop, now: real) {
    Abs(now - s.tNext) > 10.0 * s.period
  }

  predicate Tracking(s: Loop, now: real, nframes: nat) {
    s.warmed && !Resized(s, nframes) && !Stalled(s, now)
  }

  /** The loop after one callback. */
  function Ticked(s: Loop, now: real, nframes: nat): Loop {
    if !s.warmed then
      s.(warmed := true, tNext := now + s.period, frames := nframes)
    else if Resized(s, nframes) then
      var p := Rescaled(s.period, nframes, s.frames);
      s.(period := p, tNext := now + p, frames := nframes)
    else if Stalled(s, now) then
      s.(tNext := now + s.period, frames := nframes)
    else
      var e := now - s.tNext;
      s.(tNext := s.tNext + s.b * e + s.period, period := s.period + s.c * e, frames := nframes)
  }

  /** The block start a callback reports. */
  function Reported(s: Loop, now: nat, nframes: nat): nat {
    if !Tracking(s, now as real, nframes) then now
    else if s.tNext < 0.0 then 0 else s.tNext.Floor
  }

  /** A resize keeps the time per frame: the new period is to the new block size
      as the old one was to the old, so a loop tuned to a period before the change
      is tuned to that period's share after it. The callback itself is the new
      block's start. */
  lemma ResizeKeepsFrameTime(s: Loop, now: nat, nframes: nat)
    requires s.warmed && Resized(s, nframes)
    ensures var t := Ticked(s, now as real, nframes);
            && t.period * s.frames as real == s.period * nframes as real
            && t.tNext == now as real + t.period && t.frames == nframes && t.warmed
            && t.b == s.b && t.c == s.c
            && Reported(s, now, nframes) == now
  {
    RescaledKeepsFrameTime(s.period, nframes, s.frames);
  }

  lemma RescaledKeepsFrameTime(period: real, nframes: nat, frames: nat)
    requires frames != 0
    ensures Rescaled(period, nframes, frames) * frames as real == period * nframes as real
  {
    var q := nframes as real / frames as real;
    assert q * frames as real == nframes as real;
    Scale(period, q, frames as real, nframes as real);
  }

  lemma Scale(p: real, q: real, f: real, n: real)
    requires q * f == n
    ensures (p * q) * f == p * n
  {}

  /** What is reported, and when the next block is expected: the callback's own
      time and a period later at the first callback, at a resize and after a gap
      of more than ten periods either way, and what was predicted otherwise, cut
      to whole nanoseconds and at 0. */
  lemma ReportedIs(s: Loop, now: nat, nframes: nat)
    ensures !s.warmed || Resized(s, nframes) || now as real > s.tNext + 10.0 * s.period
            || (now as real) < s.tNext - 10.0 * s.period ==>
              var t := Ticked(s, now as real, nframes);
              Reported(s, now, nframes) == now && t.tNext == now as real + t.period
    ensures s.warmed && !Resized(s, nframes)
            && s.tNext - 10.0 * s.period <= now as real <= s.tNext + 10.0 * s.period ==>
              var r := Reported(s, now, nframes) as real;
              if s.tNext < 0.0 then r == 0.0 else r <= s.tNext < r + 1.0
  {}

  class Timebase {
    var periodNs: real
    var tNext: real
    var b: real
    var c: real
    var frames: nat
    var warmed: bool

    function View(): Loop
      reads this
    {
      Loop(periodNs, tNext, b, c, frames, warmed)
    }

    /** sqrt2 and pi stand for `sqrt(2.0)` and `M_PI`. Defaults replace
        arguments that are not positive. The coefficients always satisfy
        b*b == 2*c, and c < b exactly when the bandwidth is below the block
        rate divided by sqrt(2)*pi. */
    constructor (sampleRate: real, nframes: nat, bandwidthHz: real, sqrt2: real, pi: real)
      requires sqrt2 > 0.0 && sqrt2 * sqrt2 == 2.0 && pi > 0.0
      ensures !warmed && frames == 0 && tNext == 0.0 && periodNs > 0.0
      ensures b > 0.0 && c > 0.0 && b * b == 2.0 * c
      ensures var sr := if sampleRate <= 0.0 then 48000.0 else sampleRate;
              var n := if nframes == 0 then 64 else nframes;
              var bw := if bandwidthHz <= 0.0 then 0.5 else bandwidthHz;
              && periodNs * sr == 1000000000.0 * n as real
              && b * sr == sqrt2 * (2.0 * pi * bw * n as real)
              && (c < b <==> sqrt2 * pi * bw * n as real < sr)
    {
      var sr := if sampleRate <= 0.0 then 48000.0 else sampleRate;
      var n := if nframes == 0 then 64 else nframes;
      var bw := if bandwidthHz <= 0.0 then 0.5 else bandwidthHz;
      var w := LoopWidth(sr, n as real, bw, pi);
      var p := 1000000000.0 * n as real / sr;
      var bb, cc := sqrt2 * w, w * w;
      Coefficients(sr, n as real, bw, sqrt2, pi, p, w, bb, cc);
      periodNs, tNext, frames, warmed := p, 0.0, 0, false;
      b, c := bb, cc;
    }

    method Tick(now: nat, nframes: nat) returns (t: nat)
      modifies this`periodNs, this`tNext, this`frames, this`warmed
      ensures View() == Ticked(old(View()), now as real, nframes)
      ensures t == Reported(old(View()), now, nframes)
    {
      ghost var s := View();
      if !warmed {
        warmed := true;
        tNext := now as real + periodNs;
        frames := nframes;
        return now;
      }
      if nframes != 0 && frames != 0 && periodNs != 0.0 {
        var ratio := Ratio(nframes, frames, periodNs);
        if ratio < 0.5 || ratio > 2.0 {
          periodNs := Rescaled(periodNs, nframes, frames);
          tNext := now as real + periodNs;
          frames := nframes;
          return now;
        }
      }
      frames := nframes;
      var t0 := tNext;
      var e := now as real - t0;
      if Abs(e) > 10.0 * periodNs {
        tNext := now as real + periodNs;
        return now;
      }
      assert Tracking(s, now as real, nframes);
      tNext := t0 + b * e + periodNs;
      periodNs := periodNs + c * e;
      assert View() == Ticked(s, now as real, nframes);
      t := if t0 < 0.0 then 0 else t0.Floor;
    }
  }

  /** The loop bandwidth as an angle per block. */
  function LoopWidth(sr: real, n: real, bw: real, pi: real): real
    requires sr > 0.0
  {
    2.0 * pi * bw * n / sr
  }

  lemma Coefficients(sr: real, n: real, bw: real, sqrt2: real, pi: real, p: real, w: real, b: real, c: real)
    requires sr > 0.0 && n > 0.0 && bw > 0.0 && pi > 0.0
    requires sqrt2 > 0.0 && sqrt2 * sqrt2 == 2.0
    requires p == 1000000000.0 * n / sr && w == LoopWidth(sr, n, bw, pi) && b == sqrt2 * w && c == w * w
    ensures p > 0.0 && p * sr == 1000000000.0 * n
    ensures b > 0.0 && c > 0.0 && b * b == 2.0 * c
    ensures b * sr == sqrt2 * (2.0 * pi * bw * n)
    ensures c < b <==> sqrt2 * pi * bw * n < sr
  {
    var k := pi * bw * n;
    Positive(pi, bw);
    Positive(pi * bw, n);
    assert 2.0 * pi * bw * n == 2.0 * k;
    assert w * sr == 2.0 * k;
    assert w > 0.0;
    assert b * b == (sqrt2 * sqrt2) * (w * w);
    Compare(w, sqrt2);
    assert sqrt2 * (w * sr) == (sqrt2 * w) * sr;
    assert sqrt2 * pi * bw * n == sqrt2 * k;
    CompareScaled(w, sqrt2, sqrt2);
    CompareScaled(sqrt2 * w, 2.0, sr);
  }

  lemma Compare(w: real, s: real)
    requires w > 0.0
    ensures w * w < s * w <==> w < s
  {
    assert s * w - w * w == w * (s - w);
  }

  lemma CompareScaled(x: real, y: real, k: real)
    requires k > 0.0
    ensures k * x < k * y <==> x < y
  {
    assert k * y - k * x == k * (y - x);
  }

  /** The energy of a phase error e and a period error d. */
  function Energy(b: real, c: real, e: real, d: real): real {
    c * e * e + b * e * d + d * d
  }

  /** The coefficients `tt_timebase_init` yields, for a bandwidth below the limit. */
  predicate Stable(b: real, c: real) {
    b * b == 2.0 * c && 0.0 < c < b
  }

  /** One tracking step on an ideal clock scales the energy by 1-b+c exactly. */
  lemma EnergyScales(b: real, c: real, e: real, d: real)
    ensures Energy(b, c, (1.0 - b) * e - d, d + c * e) == (1.0 - b + c) * Energy(b, c, e, d)
  {
    var x, y := e * e, e * d;
    var e1, d1 := (1.0 - b) * e - d, d + c * e;
    assert e1 * e1 == (1.0 - b) * (1.0 - b) * x - 2.0 * (1.0 - b) * y + d * d;
    assert e1 * d1 == (1.0 - b) * y + c * (1.0 - b) * x - d * d - c * y;
    assert d1 * d1 == d * d + 2.0 * c * y + c * c * x;
    assert Energy(b, c, e1, d1) == c * (e1 * e1) + b * (e1 * d1) + d1 * d1;
  }

  /** With b*b == 2*c the energy bounds both errors. */
  lemma EnergyBounds(b: real, c: real, e: real, d: real)
    requires b * b == 2.0 * c && c > 0.0
    ensures c * e * e <= 2.0 * Energy(b, c, e, d)
    ensures d * d <= 2.0 * Energy(b, c, e, d)
    ensures Energy(b, c, e, d) >= 0.0
  {
    var u, v := b * e + 2.0 * d, b * e + d;
    assert u * u == b * b * (e * e) + 4.0 * b * (e * d) + 4.0 * (d * d);
    assert v * v == b * b * (e * e) + 2.0 * b * (e * d) + d * d;
    assert Energy(b, c, e, d) == c * (e * e) + b * (e * d) + d * d;
    assert 2.0 * Energy(b, c, e, d) - c * (e * e) == u * u / 2.0;
    assert 2.0 * Energy(b, c, e, d) - d * d == v * v;
    assert u * u >= 0.0 && v * v >= 0.0 && d * d >= 0.0;
  }

  /** The energy of the difference of two jitter-shifted states. */
  function Cross(b: real, c: real, e: real, d: real, e': real, d': real): real {
    2.0 * c * e * e' + b * (e * d' + e' * d) + 2.0 * d * d'
  }

  /** Cauchy-Schwarz for the energy form. */
  lemma CrossBound(b: real, c: real, e: real, d: real, e': real, d': real)
    requires b * b == 2.0 * c && c > 0.0
    ensures var q, q', x := Energy(b, c, e, d), Energy(b, c, e', d'), Cross(b, c, e, d, e', d');
            x * x <= 4.0 * q * q'
  {
    var q, q', x := Energy(b, c, e, d), Energy(b, c, e', d'), Cross(b, c, e, d, e', d');
    var t := e * d' - e' * d;
    CrossIdentity(b, c, e, d, e', d');
    assert t * t >= 0.0;
    assert 2.0 * c * (t * t) >= 0.0;
  }

  lemma CrossIdentity(b: real, c: real, e: real, d: real, e': real, d': real)
    requires b * b == 2.0 * c
    ensures var q, q', x := Energy(b, c, e, d), Energy(b, c, e', d'), Cross(b, c, e, d, e', d');
            var t := e * d' - e' * d;
            4.0 * q * q' - x * x == 2.0 * c * (t * t)
  {
  }
}
