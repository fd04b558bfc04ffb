/** Whole runs of the delay-locked loop: convergence on a regular clock, and
    bounded error forever under bounded callback jitter (src/tt_time.c). */
module TimebaseRuns {
  import opened Frames
  import opened Reals
  import opened Timebase

  /** The loop after a run of callbacks, each of nframes frames. */
  function Run(s: Loop, nows: seq<real>, nframes: nat): Loop {
    if nows == [] then s
    else Ticked(Run(s, nows[..|nows| - 1], nframes), nows[|nows| - 1], nframes)
  }

  /** When callback k of a clock with period p that starts at n0 is due. */
  function Ideal(n0: real, p: real, k: nat): real {
    n0 + Span(p, k)
  }

  /** Callbacks within j of a steady clock. */
  ghost predicate NearClock(nows: seq<real>, n0: real, p: real, j: real) {
    forall k :: 0 <= k < |nows| ==> Abs(nows[k] - Ideal(n0, p, k)) <= j
  }

  /** A loop fresh from tt_timebase_init. */
  predicate Fresh(s: Loop) {
    !s.warmed && s.period > 0.0 && Stable(s.b, s.c)
  }

  function Square(x: real): real { x * x }

  lemma SquareOrder(x: real, y: real)
    requires y >= 0.0
    ensures Square(x) <= Square(y) <==> Abs(x) <= y
  {
    var a := Abs(x);
    assert Square(a) == Square(x);
    if a <= y {
      CompareLe(a, a, y);
      CompareLe(y, a, y);
      assert Square(a) <= a * y <= Square(y);
    } else {
      CompareLe(y, y, a);
      CompareScaled(y, a, a);
      assert a * y == y * a;
      assert Square(y) <= y * a;
      assert a * y < Square(a);
    }
  }

  /** The energy behaves like a squared length: lengths add at most. */
  lemma EnergyTriangle(b: real, c: real, e: real, d: real, e': real, d': real, x: real, y: real)
    requires b * b == 2.0 * c && c > 0.0 && x >= 0.0 && y >= 0.0
    requires Energy(b, c, e, d) <= Square(x) && Energy(b, c, e', d') <= Square(y)
    ensures Energy(b, c, e + e', d + d') <= Square(x + y)
  {
    var q, q', z := Energy(b, c, e, d), Energy(b, c, e', d'), Cross(b, c, e, d, e', d');
    EnergyOfSum(b, c, e, d, e', d');
    CrossBound(b, c, e, d, e', d');
    EnergyBounds(b, c, e, d);
    EnergyBounds(b, c, e', d');
    ProductBound(q, q', Square(x), Square(y));
    assert Square(2.0 * (x * y)) == 4.0 * (Square(x) * Square(y)) by { SquareOfProduct(x, y); }
    assert x * y >= 0.0;
    SquareOrder(z, 2.0 * (x * y));
    assert Square(x + y) == Square(x) + Square(y) + 2.0 * (x * y);
  }

  lemma EnergyOfSum(b: real, c: real, e: real, d: real, e': real, d': real)
    ensures Energy(b, c, e + e', d + d') == Energy(b, c, e, d) + Energy(b, c, e', d') + Cross(b, c, e, d, e', d')
  {}

  lemma ProductBound(q: real, q': real, u: real, v: real)
    requires 0.0 <= q <= u && 0.0 <= q' <= v
    ensures 4.0 * q * q' <= 4.0 * (u * v)
  {
    assert q * q' <= u * q' by { assert (u - q) * q' >= 0.0; }
    assert u * q' <= u * v by { assert u * (v - q') >= 0.0; }
  }

  lemma SquareOfProduct(x: real, y: real)
    ensures Square(2.0 * (x * y)) == 4.0 * (Square(x) * Square(y))
  {}

  /** Bounds that make a radius r of the energy safe: the errors it allows, with
      jitter j on top, stay short of the ten-period relock. */
  predicate Margins(c: real, r: real, x: real, y: real, p: real, j: real) {
    && x >= 0.0 && y >= 0.0 && y < p
    && 2.0 * Square(r) <= c * x * x
    && 2.0 * Square(r) <= Square(y)
    && x + j <= 10.0 * (p - y)
  }

  /** s is warmed and its errors against a clock of period p whose next callback
      is due at `ideal` have energy at most r^2. */
  predicate Locked(s: Loop, b: real, c: real, p: real, ideal: real, r: real) {
    && s.warmed && s.b == b && s.c == c
    && Energy(b, c, ideal - s.tNext, s.period - p) <= Square(r)
  }

  /** q is sqrt(1-b+c), the factor a length shrinks by, or any larger number. */
  predicate Shrink(b: real, c: real, q: real) {
    q >= 0.0 && q * q >= 1.0 - b + c
  }

  /** An energy radius r that callbacks within j of a clock of period p cannot
      leave, with its margins x and y. */
  predicate Basin(b: real, c: real, p: real, r: real, x: real, y: real, j: real, q: real) {
    && Stable(b, c) && Shrink(b, c, q)
    && r >= 0.0 && j >= 0.0 && Margins(c, r, x, y, p, j)
    && q * r + c * j <= r
  }

  lemma ErrorBounds(s: Loop, b: real, c: real, p: real, ideal: real, r: real, x: real, y: real, j: real)
    requires Stable(b, c) && Locked(s, b, c, p, ideal, r) && Margins(c, r, x, y, p, j)
    ensures Abs(ideal - s.tNext) <= x && Abs(s.period - p) <= y
  {
    var e, d := ideal - s.tNext, s.period - p;
    assert c > 0.0 && x >= 0.0 && y >= 0.0;
    assert 2.0 * Square(r) <= c * Square(x) by { assert c * x * x == c * Square(x); }
    assert 2.0 * Square(r) <= Square(y);
    assert Energy(b, c, e, d) <= Square(r);
    hide *;
    ErrorsWithin(b, c, e, d);
    SquareOrder(d, y);
    CompareScaled(Square(x), Square(e), c);
    SquareOrder(e, x);
  }

  lemma SameSize(nframes: nat, period: real)
    requires nframes != 0 && period != 0.0
    ensures Ratio(nframes, nframes, period) == 1.0
  {
    NonZero(nframes as real, period);
    var q := nframes as real * period;
    assert q / q == 1.0;
  }

  /** A locked loop tracks any callback within j of its due time, unless its
      block size re-seeds it. */
  lemma LockedTracks(s: Loop, b: real, c: real, nframes: nat, p: real, ideal: real, r: real, x: real, y: real,
                     j: real, now: real)
    requires Stable(b, c) && Locked(s, b, c, p, ideal, r) && Margins(c, r, x, y, p, j)
    requires !Resized(s, nframes) && Abs(now - ideal) <= j
    ensures Tracking(s, now, nframes)
  {
    ErrorBounds(s, b, c, p, ideal, r, x, y, j);
  }

  lemma SteadySize(s: Loop, nframes: nat)
    requires s.frames == nframes
    ensures !Resized(s, nframes)
  {
    if nframes != 0 && s.period != 0.0 { SameSize(nframes, s.period); }
  }

  /** How one tracked callback moves the two errors. */
  lemma ErrorStep(s: Loop, now: real, nframes: nat, p: real, ideal: real)
    requires Tracking(s, now, nframes)
    ensures var e, d, j := ideal - s.tNext, s.period - p, now - ideal;
            var t := Ticked(s, now, nframes);
            && t.warmed && t.b == s.b && t.c == s.c && t.frames == nframes
            && ideal + p - t.tNext == ((1.0 - s.b) * e - d) + (-s.b * j)
            && t.period - p == (d + s.c * e) + s.c * j
  {
    var e, j := ideal - s.tNext, now - ideal;
    assert now - s.tNext == e + j;
    assert s.b * (e + j) == s.b * e + s.b * j;
    assert s.c * (e + j) == s.c * e + s.c * j;
    assert (1.0 - s.b) * e == e - s.b * e;
  }

  /** The energy one callback's jitter adds on its own. */
  lemma JitterEnergy(b: real, c: real, j: real)
    ensures Energy(b, c, -b * j, c * j) == Square(c * j)
  {
    assert c * (-b * j) * (-b * j) == c * (b * b) * (j * j);
    assert b * (-b * j) * (c * j) == -c * (b * b) * (j * j);
    assert Energy(b, c, -b * j, c * j) == c * (-b * j) * (-b * j) + b * (-b * j) * (c * j) + (c * j) * (c * j);
  }

  /** One callback within jitter j keeps the loop locked in the same radius. */
  lemma TickKeepsLock(s: Loop, now: real, nframes: nat, p: real, ideal: real,
                      r: real, x: real, y: real, j: real, q: real)
    requires Basin(s.b, s.c, p, r, x, y, j, q)
    requires Locked(s, s.b, s.c, p, ideal, r) && !Resized(s, nframes) && Abs(now - ideal) <= j
    ensures Locked(Ticked(s, now, nframes), s.b, s.c, p, ideal + p, r)
    ensures !Resized(Ticked(s, now, nframes), nframes)
  {
    hide Energy, Square, Margins, Shrink, Stable, Ticked, Tracking, Resized;
    LockedTracks(s, s.b, s.c, nframes, p, ideal, r, x, y, j, now);
    ErrorStep(s, now, nframes, p, ideal);
    var t := Ticked(s, now, nframes);
    SteadySize(t, nframes);
    NextEnergy(s.b, s.c, ideal - s.tNext, s.period - p, now - ideal, r, j, q, ideal + p - t.tNext, t.period - p);
  }

  /** The energy after a jittery step stays within the radius. */
  lemma NextEnergy(b: real, c: real, e: real, d: real, jit: real, r: real, j: real, q: real, e': real, d': real)
    requires Stable(b, c) && Shrink(b, c, q) && r >= 0.0 && j >= 0.0 && q * r + c * j <= r
    requires Energy(b, c, e, d) <= Square(r) && Abs(jit) <= j
    requires e' == ((1.0 - b) * e - d) + (-b * jit) && d' == (d + c * e) + c * jit
    ensures Energy(b, c, e', d') <= Square(r)
  {
    StepPart(b, c, e, d, q, r);
    KickPart(b, c, jit, j);
    hide Energy, Square, Shrink;
    WithinSum(b, c, (1.0 - b) * e - d, d + c * e, -b * jit, c * jit, q * r, c * j, r);
  }

  lemma StepPart(b: real, c: real, e: real, d: real, q: real, r: real)
    requires Stable(b, c) && Shrink(b, c, q) && r >= 0.0 && Energy(b, c, e, d) <= Square(r)
    ensures Energy(b, c, (1.0 - b) * e - d, d + c * e) <= Square(q * r) && q * r >= 0.0
  {
    assert Energy(b, c, e, d) >= 0.0 by { EnergyBounds(b, c, e, d); }
    hide Energy, Square;
    EnergyScales(b, c, e, d);
    ShrunkRadius(1.0 - b + c, Energy(b, c, e, d), q, r);
    Product(q, r);
  }

  lemma KickPart(b: real, c: real, jit: real, j: real)
    requires Stable(b, c) && Abs(jit) <= j
    ensures Energy(b, c, -b * jit, c * jit) <= Square(c * j) && c * j >= 0.0
  {
    JitterEnergy(b, c, jit);
    hide Energy;
    ScaledSquare(c, jit, j);
  }

  lemma WithinSum(b: real, c: real, e: real, d: real, e': real, d': real, x: real, y: real, r: real)
    requires b * b == 2.0 * c && c > 0.0 && x >= 0.0 && y >= 0.0 && x + y <= r
    requires Energy(b, c, e, d) <= Square(x) && Energy(b, c, e', d') <= Square(y)
    ensures Energy(b, c, e + e', d + d') <= Square(r)
  {
    EnergyTriangle(b, c, e, d, e', d', x, y);
    SquareOrder(x + y, r);
  }

  lemma ScaledSquare(c: real, u: real, v: real)
    requires c >= 0.0 && v >= 0.0 && Abs(u) <= v
    ensures Square(c * u) <= Square(c * v) && c * v >= 0.0
  {
    SquareOrder(u, v);
    assert Square(c * u) == (c * c) * Square(u);
    assert Square(c * v) == (c * c) * Square(v);
    assert c * c >= 0.0;
    CompareLe(c * c, Square(u), Square(v));
  }

  lemma CompareLe(c: real, u: real, v: real)
    requires c >= 0.0 && u <= v
    ensures c * u <= c * v
  {
    assert c * v - c * u == c * (v - u);
  }

  lemma ShrunkRadius(rho: real, en: real, q: real, r: real)
    requires 0.0 <= en <= Square(r) && rho <= q * q
    ensures rho * en <= Square(q * r)
  {
    assert Square(q * r) == (q * q) * Square(r);
    assert q * q >= 0.0;
    CompareLe(en, rho, q * q);
    CompareLe(q * q, en, Square(r));
  }

  /** The first callback locks a fresh loop within the radius its tuning error
      and that callback's jitter allow. */
  lemma FirstTickLocks(s: Loop, now: real, nframes: nat, n0: real, p: real, tuning: real,
                       r: real, j: real, q: real, g: real)
    requires Fresh(s) && Shrink(s.b, s.c, q) && g >= 0.0 && g * g >= s.c
    requires Abs(s.period - p) <= tuning && Abs(now - n0) <= j && 0.0 <= j
    requires q * tuning + g * j <= r
    ensures Locked(Ticked(s, now, nframes), s.b, s.c, p, n0 + p, r)
    ensures !Resized(Ticked(s, now, nframes), nframes)
  {
    FirstEnergy(s.b, s.c, s.period - p, now - n0, tuning, j, q, g, r);
    SteadySize(Ticked(s, now, nframes), nframes);
  }

  lemma FirstEnergy(b: real, c: real, d: real, jit: real, tuning: real, j: real, q: real, g: real, r: real)
    requires Stable(b, c) && Shrink(b, c, q) && g >= 0.0 && g * g >= c
    requires Abs(d) <= tuning && Abs(jit) <= j && q * tuning + g * j <= r
    ensures Energy(b, c, -d + -jit, d + 0.0) <= Square(r)
  {
    TuningPart(b, c, d, tuning, q);
    JitterPart(b, c, jit, j, g);
    hide Energy, Square, Shrink;
    WithinSum(b, c, -d, d, -jit, 0.0, q * tuning, g * j, r);
  }

  lemma TuningPart(b: real, c: real, d: real, tuning: real, q: real)
    requires Stable(b, c) && Shrink(b, c, q) && Abs(d) <= tuning
    ensures Energy(b, c, -d, d) <= Square(q * tuning) && q * tuning >= 0.0
  {
    TuningEnergy(b, c, d);
    SquareOrder(d, tuning);
    assert Square(d) >= 0.0;
    ShrunkRadius(1.0 - b + c, Square(d), q, tuning);
  }

  lemma JitterPart(b: real, c: real, jit: real, j: real, g: real)
    requires g >= 0.0 && g * g >= c && Abs(jit) <= j
    ensures Energy(b, c, -jit, 0.0) <= Square(g * j) && g * j >= 0.0
  {
    assert Energy(b, c, -jit, 0.0) == c * Square(jit);
    assert Square(g * jit) == (g * g) * Square(jit);
    assert Square(jit) >= 0.0;
    CompareLe(Square(jit), c, g * g);
    ScaledSquare(g, jit, j);
  }

  /** The energy right after the first callback on an exact clock. */
  lemma TuningEnergy(b: real, c: real, d: real)
    ensures Energy(b, c, -d, d) == (1.0 - b + c) * Square(d)
  {
    assert c * (-d) * (-d) + b * (-d) * d + d * d == (1.0 - b + c) * (d * d);
  }

  // Runs from any locked state.

  /** The run stays in the radius the jitter cannot push it out of. */
  lemma {:induction false} LockedForever(s: Loop, nows: seq<real>, nframes: nat, n0: real, p: real,
                                         r: real, x: real, y: real, j: real, q: real)
    requires Basin(s.b, s.c, p, r, x, y, j, q)
    requires Locked(s, s.b, s.c, p, n0, r) && !Resized(s, nframes) && NearClock(nows, n0, p, j)
    ensures Locked(Run(s, nows, nframes), s.b, s.c, p, Ideal(n0, p, |nows|), r)
    ensures !Resized(Run(s, nows, nframes), nframes)
  {
    hide Basin, Ticked, Resized;
    if nows != [] {
      var n := |nows| - 1;
      LockedForever(s, nows[..n], nframes, n0, p, r, x, y, j, q);
      assert Abs(nows[n] - Ideal(n0, p, n)) <= j;
      hide Energy, Square;
      TickKeepsLock(Run(s, nows[..n], nframes), nows[n], nframes, p, Ideal(n0, p, n), r, x, y, j, q);
    }
  }

  /** Bounded forever. A loop whose errors against a steady clock of period p
      have energy at most r^2, driven by any number of callbacks within j of
      that clock, never takes a re-seed branch, and its block start and its
      period stay within x and y of the truth. */
  lemma BoundedForever(s: Loop, nows: seq<real>, nframes: nat, n0: real, p: real,
                       r: real, x: real, y: real, j: real, q: real)
    requires Basin(s.b, s.c, p, r, x, y, j, q)
    requires Locked(s, s.b, s.c, p, n0, r) && !Resized(s, nframes) && NearClock(nows, n0, p, j)
    ensures var t, ideal := Run(s, nows, nframes), Ideal(n0, p, |nows|);
            && t.b == s.b && t.c == s.c
            && Abs(ideal - t.tNext) <= x
            && Abs(t.period - p) <= y
            && forall now: real :: Abs(now - ideal) <= j ==> Tracking(t, now, nframes)
  {
    hide Energy, Square, Margins, Shrink, Stable, Ticked, Tracking, Run, NearClock, Resized;
    var t, ideal := Run(s, nows, nframes), Ideal(n0, p, |nows|);
    LockedForever(s, nows, nframes, n0, p, r, x, y, j, q);
    ErrorBounds(t, s.b, s.c, p, ideal, r, x, y, j);
    forall now: real | Abs(now - ideal) <= j ensures Tracking(t, now, nframes) {
      LockedTracks(t, s.b, s.c, nframes, p, ideal, r, x, y, j, now);
    }
  }

  /** Accuracy of what the audio callback is told: within x of the true block
      start, plus the truncation to a whole nanosecond. */
  lemma ReportedIsAccurate(s: Loop, nows: seq<real>, nframes: nat, n0: real, p: real,
                           r: real, x: real, y: real, j: real, q: real, now: nat)
    requires Basin(s.b, s.c, p, r, x, y, j, q)
    requires Locked(s, s.b, s.c, p, n0, r) && !Resized(s, nframes) && NearClock(nows, n0, p, j)
    requires Abs(now as real - Ideal(n0, p, |nows|)) <= j && Ideal(n0, p, |nows|) >= x
    ensures Abs(Reported(Run(s, nows, nframes), now, nframes) as real - Ideal(n0, p, |nows|)) < x + 1.0
  {
    BoundedForever(s, nows, nframes, n0, p, r, x, y, j, q);
  }

  /** What a locked loop may have to do with the clock it was locked to: a shift
      of the clock's phase and period, by less than the radius has room for,
      leaves it locked to the new clock. A late block, a gap and a drift of the
      sample rate are such shifts. */
  lemma ClockShift(s: Loop, b: real, c: real, p: real, ideal: real, r: real, p': real, ideal': real, u: real, r': real)
    requires Stable(b, c) && Locked(s, b, c, p, ideal, r) && r >= 0.0 && u >= 0.0 && r + u <= r'
    requires Energy(b, c, ideal' - ideal, p - p') <= Square(u)
    ensures Locked(s, b, c, p', ideal', r')
  {
    WithinSum(b, c, ideal - s.tNext, s.period - p, ideal' - ideal, p - p', r, u, r');
  }

  // An exact clock.

  /** On an exact clock the energy is known after every callback: what it was,
      times (1-b+c)^k. */
  lemma {:induction false} EnergyOnRegularClock(s: Loop, nows: seq<real>, nframes: nat, n0: real, p: real,
                                                r: real, x: real, y: real, q: real)
    requires Basin(s.b, s.c, p, r, x, y, 0.0, q)
    requires Locked(s, s.b, s.c, p, n0, r) && !Resized(s, nframes) && NearClock(nows, n0, p, 0.0)
    ensures var t, ideal := Run(s, nows, nframes), Ideal(n0, p, |nows|);
            Energy(s.b, s.c, ideal - t.tNext, t.period - p)
            == Decayed(s.b, s.c, |nows|, Energy(s.b, s.c, n0 - s.tNext, s.period - p))
  {
    hide Energy, Decayed, Scaled, Basin, Ticked, Tracking, Locked, Resized;
    if nows == [] {
      NotDecayed(s.b, s.c, Energy(s.b, s.c, n0 - s.tNext, s.period - p));
    } else {
      var n := |nows| - 1;
      assert Abs(nows[n] - Ideal(n0, p, n)) <= 0.0;
      EnergyOnRegularClock(s, nows[..n], nframes, n0, p, r, x, y, q);
      BoundedForever(s, nows[..n], nframes, n0, p, r, x, y, 0.0, q);
      ExactStep(Run(s, nows[..n], nframes), s.b, s.c, nframes, p, Ideal(n0, p, n));
      DecayStep(s.b, s.c, n, Energy(s.b, s.c, n0 - s.tNext, s.period - p));
    }
  }

  /** An energy u after k exact callbacks. */
  function Decayed(b: real, c: real, k: nat, u: real): real {
    Power(1.0 - b + c, k) * u
  }

  function Scaled(b: real, c: real, u: real): real {
    (1.0 - b + c) * u
  }

  lemma NotDecayed(b: real, c: real, u: real)
    ensures Decayed(b, c, 0, u) == u
  {}

  lemma DecayStep(b: real, c: real, k: nat, u: real)
    ensures Scaled(b, c, Decayed(b, c, k, u)) == Decayed(b, c, k + 1, u)
  {}

  /** One exactly timed callback scales the energy. */
  lemma ExactStep(s: Loop, b: real, c: real, nframes: nat, p: real, ideal: real)
    requires Tracking(s, ideal, nframes) && s.b == b && s.c == c
    ensures var t := Ticked(s, ideal, nframes);
            Energy(b, c, ideal + p - t.tNext, t.period - p)
            == Scaled(b, c, Energy(b, c, ideal - s.tNext, s.period - p))
  {
    ErrorStep(s, ideal, nframes, p, ideal);
    EnergyScales(b, c, ideal - s.tNext, s.period - p);
  }

  lemma FactorBelowOne(b: real, c: real)
    requires Stable(b, c)
    ensures 0.0 <= 1.0 - b + c < 1.0
  {
    assert 2.0 * (1.0 - b + c) == 1.0 + (1.0 - b) * (1.0 - b);
    assert (1.0 - b) * (1.0 - b) >= 0.0;
  }

  /** Powers of a factor below one vanish. */
  lemma {:induction false} PowerVanishes(x: real, k: nat)
    requires 0.0 <= x < 1.0
    ensures 0.0 <= Power(x, k) && Power(x, k) * (1.0 + k as real * (1.0 - x)) <= 1.0
  {
    if k > 0 {
      PowerVanishes(x, k - 1);
      var w, z := Power(x, k - 1), 1.0 - x;
      var m := (k - 1) as real;
      assert Power(x, k) == x * w;
      hide *;
      Product(x, w);
      Bernoulli(x, m);
      CompareLe(w, x * (1.0 + (m + 1.0) * z), 1.0 + m * z);
      Regroup(w, x, 1.0 + k as real * z);
    }
  }

  /** One step of Bernoulli's inequality. */
  lemma Bernoulli(x: real, m: real)
    requires 0.0 <= m
    ensures x * (1.0 + (m + 1.0) * (1.0 - x)) <= 1.0 + m * (1.0 - x)
  {
    var z := 1.0 - x;
    assert x * (1.0 + (m + 1.0) * z) == 1.0 + m * z - (m + 1.0) * (z * z);
    Product(m + 1.0, z * z);
  }

  /** The squared period error, and the squared phase error against a callback
      due at `ideal` scaled by c, are below eps. */
  predicate Close(s: Loop, p: real, ideal: real, eps: real) {
    Square(s.period - p) < eps && s.c * Square(ideal - s.tNext) < eps
  }

  /** Convergence, drift from nominal included: from any state the basin holds,
      for every tolerance there is a number of callbacks after which the errors
      are within it. */
  lemma Converges(s: Loop, nframes: nat, n0: real, p: real, r: real, x: real, y: real, q: real, eps: real)
    returns (settle: nat)
    requires Basin(s.b, s.c, p, r, x, y, 0.0, q)
    requires Locked(s, s.b, s.c, p, n0, r) && !Resized(s, nframes) && eps > 0.0
    ensures forall nows: seq<real> :: |nows| >= settle && NearClock(nows, n0, p, 0.0) ==>
              Close(Run(s, nows, nframes), p, Ideal(n0, p, |nows|), eps)
  {
    assert Stable(s.b, s.c);
    hide *;
    FactorBelowOne(s.b, s.c);
    ErrorsWithin(s.b, s.c, n0 - s.tNext, s.period - p);
    var bound := SettlingBound(s.b, s.c, Energy(s.b, s.c, n0 - s.tNext, s.period - p), eps);
    settle := bound.Floor + 1;
    forall nows: seq<real> | |nows| >= settle && NearClock(nows, n0, p, 0.0)
      ensures Close(Run(s, nows, nframes), p, Ideal(n0, p, |nows|), eps)
    {
      CloseAfter(s, nows, nframes, n0, p, r, x, y, q, eps, bound);
    }
  }

  lemma CloseAfter(s: Loop, nows: seq<real>, nframes: nat, n0: real, p: real,
                   r: real, x: real, y: real, q: real, eps: real, bound: real)
    requires Basin(s.b, s.c, p, r, x, y, 0.0, q)
    requires Locked(s, s.b, s.c, p, n0, r) && !Resized(s, nframes) && NearClock(nows, n0, p, 0.0) && eps > 0.0
    requires 0.0 <= 1.0 - s.b + s.c < 1.0 && Energy(s.b, s.c, n0 - s.tNext, s.period - p) >= 0.0
    requires bound == SettlingBound(s.b, s.c, Energy(s.b, s.c, n0 - s.tNext, s.period - p), eps)
    requires |nows| as real > bound
    ensures Close(Run(s, nows, nframes), p, Ideal(n0, p, |nows|), eps)
  {
    assert Stable(s.b, s.c);
    hide *;
    var t, ideal := Run(s, nows, nframes), Ideal(n0, p, |nows|);
    var u := Energy(s.b, s.c, n0 - s.tNext, s.period - p);
    assert t.b == s.b && t.c == s.c by { BoundedForever(s, nows, nframes, n0, p, r, x, y, 0.0, q); }
    EnergyOnRegularClock(s, nows, nframes, n0, p, r, x, y, q);
    BothBelow(t, s.b, s.c, |nows|, p, ideal, u, eps, bound);
  }

  lemma BothBelow(t: Loop, b: real, c: real, k: nat, p: real, ideal: real, u: real, eps: real, bound: real)
    requires Stable(b, c) && 0.0 <= 1.0 - b + c < 1.0 && eps > 0.0 && u >= 0.0
    requires bound == SettlingBound(b, c, u, eps) && k as real > bound
    requires t.c == c && Energy(b, c, ideal - t.tNext, t.period - p) == Decayed(b, c, k, u)
    ensures Close(t, p, ideal, eps)
  {
    hide Energy, Decayed, SettlingBound, Square, Stable;
    DecaysBelow(b, c, k, u, eps, bound);
    ErrorsWithin(b, c, ideal - t.tNext, t.period - p);
  }

  lemma ErrorsWithin(b: real, c: real, e: real, d: real)
    requires Stable(b, c)
    ensures Square(d) <= 2.0 * Energy(b, c, e, d) && c * Square(e) <= 2.0 * Energy(b, c, e, d)
    ensures Energy(b, c, e, d) >= 0.0
  {
    EnergyBounds(b, c, e, d);
    assert c * e * e == c * Square(e);
  }

  /** A number of callbacks after which the decayed energy is below eps. */
  function SettlingBound(b: real, c: real, u: real, eps: real): (w: real)
    requires 0.0 <= 1.0 - b + c < 1.0 && eps > 0.0 && u >= 0.0
    ensures w >= 0.0 && w * ((b - c) * eps) == 2.0 * u
  {
    Positive(b - c, eps);
    2.0 * u / ((b - c) * eps)
  }

  lemma DecaysBelow(b: real, c: real, k: nat, u: real, eps: real, bound: real)
    requires 0.0 <= 1.0 - b + c < 1.0 && eps > 0.0 && u >= 0.0
    requires bound == SettlingBound(b, c, u, eps) && k as real > bound
    ensures 2.0 * Decayed(b, c, k, u) < eps
  {
    var rho := 1.0 - b + c;
    PowerVanishes(rho, k);
    assert 1.0 - rho == b - c;
    Settled(Power(rho, k), k as real, 1.0 - rho, eps, bound, u);
  }

  lemma Settled(w: real, k: real, z: real, eps: real, bound: real, d2: real)
    requires w >= 0.0 && w * (1.0 + k * z) <= 1.0 && k > bound >= 0.0 && z > 0.0 && eps > 0.0 && d2 >= 0.0
    requires bound * (z * eps) == 2.0 * d2
    ensures 2.0 * (w * d2) < eps
  {
    var m := 1.0 + k * z;
    assert k * z > 0.0 by { Positive(k, z); }
    Positive(z, eps);
    assert (k - bound) * (z * eps) > 0.0 by { Positive(k - bound, z * eps); }
    assert k * (z * eps) == (k * z) * eps;
    assert 2.0 * d2 < m * eps;
    CompareLe(2.0 * d2, w * m, 1.0);
    assert (2.0 * (w * d2)) * m == 2.0 * d2 * (w * m);
    assert m * (2.0 * (w * d2)) < m * eps;
    CompareScaled(2.0 * (w * d2), eps, m);
  }

  /** A change of block size, or a stall, is a fresh start: the callback leaves
      the loop as the first callback leaves a new one that begins with the
      rescaled, or the current, period. So the results above apply again. */
  lemma ReseedIsFreshStart(s: Loop, now: real, nframes: nat)
    requires s.warmed
    ensures Resized(s, nframes) ==>
              exists p: real :: p * s.frames as real == s.period * nframes as real
                && Ticked(s, now, nframes) == Ticked(s.(warmed := false, period := p), now, nframes)
    ensures !Resized(s, nframes) && Stalled(s, now) ==>
              Ticked(s, now, nframes) == Ticked(s.(warmed := false), now, nframes)
  {
    if Resized(s, nframes) {
      var p := Rescaled(s.period, nframes, s.frames);
      RescaledKeepsFrameTime(s.period, nframes, s.frames);
      assert Ticked(s, now, nframes) == Ticked(s.(warmed := false, period := p), now, nframes);
    }
  }

  // Runs of a loop fresh from tt_timebase_init.

  /** What such a run needs: a period within `tuning` of the true one, and a
      basin that holds where the first callback leaves the loop. g is sqrt(c) or
      any larger number. */
  predicate Setup(s: Loop, p: real, tuning: real, r: real, x: real, y: real, j: real, q: real, g: real) {
    && Fresh(s) && Basin(s.b, s.c, p, r, x, y, j, q) && g >= 0.0 && g * g >= s.c
    && Abs(s.period - p) <= tuning
    && q * tuning + g * j <= r
  }

  /** After its first callback a fresh loop is a locked one, and the rest of the
      run is a run from there: everything above applies. */
  lemma FreshRun(s: Loop, nows: seq<real>, nframes: nat, n0: real, p: real, tuning: real,
                 r: real, x: real, y: real, j: real, q: real, g: real)
    requires Setup(s, p, tuning, r, x, y, j, q, g) && nows != [] && NearClock(nows, n0, p, j)
    ensures var t := Ticked(s, nows[0], nframes);
            && t.b == s.b && t.c == s.c
            && Locked(t, s.b, s.c, p, n0 + p, r) && !Resized(t, nframes)
            && NearClock(nows[1..], n0 + p, p, j)
            && Run(s, nows, nframes) == Run(t, nows[1..], nframes)
            && Ideal(n0, p, |nows|) == Ideal(n0 + p, p, |nows| - 1)
  {
    assert Abs(nows[0] - Ideal(n0, p, 0)) <= j && Span(p, 0) == 0.0;
    FirstTickLocks(s, nows[0], nframes, n0, p, tuning, r, j, q, g);
    hide Setup, Locked, Resized, Ticked;
    RunFirst(s, nows, nframes);
    forall k: nat | k < |nows[1..]| ensures Abs(nows[1..][k] - Ideal(n0 + p, p, k)) <= j {
      IdealShift(n0, p, k);
      assert Abs(nows[k + 1] - Ideal(n0, p, k + 1)) <= j;
    }
    IdealShift(n0, p, |nows| - 1);
  }

  lemma IdealShift(n0: real, p: real, k: nat)
    ensures Ideal(n0, p, k + 1) == Ideal(n0 + p, p, k)
  {}

  lemma {:induction false} RunFirst(s: Loop, nows: seq<real>, nframes: nat)
    requires nows != []
    ensures Run(s, nows, nframes) == Run(Ticked(s, nows[0], nframes), nows[1..], nframes)
  {
    hide Ticked;
    var n := |nows| - 1;
    if n == 0 {
      assert nows[..0] == [] && nows[1..] == [];
    } else {
      RunFirst(s, nows[..n], nframes);
      assert nows[..n][1..] == nows[1..][..n - 1];
    }
  }

  /** A fresh loop is bounded forever from its first callback on. */
  lemma FreshBounded(s: Loop, nows: seq<real>, nframes: nat, n0: real, p: real, tuning: real,
                     r: real, x: real, y: real, j: real, q: real, g: real)
    requires Setup(s, p, tuning, r, x, y, j, q, g) && nows != [] && NearClock(nows, n0, p, j)
    ensures var t, ideal := Run(s, nows, nframes), Ideal(n0, p, |nows|);
            && Abs(ideal - t.tNext) <= x
            && Abs(t.period - p) <= y
            && forall now: real :: Abs(now - ideal) <= j ==> Tracking(t, now, nframes)
  {
    FreshRun(s, nows, nframes, n0, p, tuning, r, x, y, j, q, g);
    hide Ticked, Resized, Locked, NearClock, Run, Tracking, Basin, Ideal;
    BoundedForever(Ticked(s, nows[0], nframes), nows[1..], nframes, n0 + p, p, r, x, y, j, q);
  }

  /** On an exact clock a fresh loop's energy after k callbacks is (1-b+c)^k
      times its squared tuning error. */
  lemma FreshEnergy(s: Loop, nows: seq<real>, nframes: nat, n0: real, p: real, tuning: real,
                    r: real, x: real, y: real, q: real, g: real)
    requires Setup(s, p, tuning, r, x, y, 0.0, q, g) && nows != [] && NearClock(nows, n0, p, 0.0)
    ensures var t, ideal := Run(s, nows, nframes), Ideal(n0, p, |nows|);
            Energy(s.b, s.c, ideal - t.tNext, t.period - p) == Decayed(s.b, s.c, |nows|, Square(s.period - p))
  {
    var t := Ticked(s, nows[0], nframes);
    assert nows[0] == n0 by { assert Abs(nows[0] - Ideal(n0, p, 0)) <= 0.0 && Span(p, 0) == 0.0; }
    assert Energy(s.b, s.c, n0 + p - t.tNext, t.period - p) == Scaled(s.b, s.c, Square(s.period - p)) by {
      TuningEnergy(s.b, s.c, s.period - p);
      assert n0 + p - (n0 + s.period) == -(s.period - p);
    }
    FreshRun(s, nows, nframes, n0, p, tuning, r, x, y, 0.0, q, g);
    hide Energy, Decayed, Scaled, Ticked, Resized, Locked, NearClock, Run, Basin, Ideal, Square;
    EnergyOnRegularClock(t, nows[1..], nframes, n0 + p, p, r, x, y, q);
    ScaledFirst(s.b, s.c, |nows| - 1, Square(s.period - p));
  }

  lemma {:induction false} ScaledFirst(b: real, c: real, k: nat, u: real)
    ensures Decayed(b, c, k, Scaled(b, c, u)) == Decayed(b, c, k + 1, u)
  {
    var x, w := 1.0 - b + c, Power(1.0 - b + c, k);
    assert w * (x * u) == (x * w) * u;
  }

  /** The library's jitter test runs 64 frames at 48 kHz with 0.5 Hz bandwidth
      and callbacks within 200 microseconds. With the coefficients
      `tt_timebase_init` computes for that, on any run of any length the loop
      never re-seeds, the period stays within 1.7 microseconds of the truth, and
      the block start within 406 microseconds. */
  lemma JitterTestSetting(s: Loop, nows: seq<real>, n0: real, sqrt2: real, pi: real)
    requires sqrt2 > 0.0 && sqrt2 * sqrt2 == 2.0 && 3.1415 < pi < 3.1416
    requires var w := LoopWidth(48000.0, 64.0, 0.5, pi);
             s == Loop(4000000.0 / 3.0, 0.0, sqrt2 * w, w * w, 0, false)
    requires nows != [] && NearClock(nows, n0, 4000000.0 / 3.0, 200000.0)
    ensures var p := 4000000.0 / 3.0;
            var t, ideal := Run(s, nows, 64), Ideal(n0, p, |nows|);
            && Abs(ideal - t.tNext) <= 406000.0
            && Abs(t.period - p) <= 1700.0
            && forall now: real :: Abs(now - ideal) <= 200000.0 ==> Tracking(t, now, 64)
  {
    TestCoefficients(sqrt2, pi, s.b, s.c);
    assert Setup(s, 4000000.0 / 3.0, 0.0, 1200.0, 406000.0, 1700.0, 200000.0, 0.99705, 0.0042);
    hide Setup, NearClock, Run, Tracking;
    FreshBounded(s, nows, 64, n0, 4000000.0 / 3.0, 0.0, 1200.0, 406000.0, 1700.0, 200000.0, 0.99705, 0.0042);
  }

  lemma TestCoefficients(sqrt2: real, pi: real, b: real, c: real)
    requires sqrt2 > 0.0 && sqrt2 * sqrt2 == 2.0 && 3.1415 < pi < 3.1416
    requires var w := LoopWidth(48000.0, 64.0, 0.5, pi); b == sqrt2 * w && c == w * w
    ensures b * b == 2.0 * c && 0.005923 < b < 0.005925 && 0.00001754 < c < 0.00001755
  {
    var w := LoopWidth(48000.0, 64.0, 0.5, pi);
    assert w == pi / 750.0;
    assert 1.4142 < sqrt2 < 1.4143;
    assert b * b == (sqrt2 * sqrt2) * (w * w);
    assert 0.00418866 < w < 0.0041888;
  }
}
