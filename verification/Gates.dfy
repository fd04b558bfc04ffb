/** The gate scheduler: at most one pending change per gate, requested by the
    audio thread and applied by the sampling thread (`tt_gate_set`,
    `tt_gate_set_at`, `apply_gates`, `tt_gate_block` in src/tt_core.c). Each
    call is one atomic step; a word of gate bits is the set of its one-bits. */
module Gates {
  import opened Frames
  import opened Words

  /** The scheduler's state. `hw` is the level last written to each output. */
  datatype Bank = Bank(
    level: set<nat>, at: seq<nat>, armed: seq<bool>, armedLevel: seq<bool>,
    applied: set<nat>, hw: seq<bool>)
  {
    /** Every per-gate array has one entry per gate of the board. */
    ghost predicate Sized(n: nat) {
      |at| == n && |armed| == n && |armedLevel| == n && |hw| == n
    }

    /** The level a gate is on, or is bound for when it has a pending change. */
    function Target(i: nat): bool
      requires i < |armed| == |armedLevel|
    {
      if armed[i] then armedLevel[i] else i in level
    }

    function Due(i: nat, now: nat): bool
      requires i < |armed| == |at|
    {
      armed[i] && now >= at[i]
    }
  }

  /** The state of a bank of n gates when a context opens. */
  function Opened(n: nat): Bank {
    Bank({}, seq(n, _ => 0), seq(n, _ => false), seq(n, _ => false), {}, seq(n, _ => false))
  }

  /** `tt_gate_set`: takes effect at once and cancels a pending change. */
  function Set(g: Bank, i: int, on: bool): Bank {
    if 0 <= i < |g.armed| then
      g.(armed := g.armed[i := false], level := WithBit(g.level, i, on))
    else g
  }

  /** `tt_gate_set_at`, the clock reading `now` when it looks. */
  function SetAt(g: Bank, i: int, on: bool, time: nat, now: nat): Bank {
    if !(0 <= i < |g.armed| == |g.armedLevel| == |g.at|) then g
    else if time <= now then Set(g, i, on)
    else g.(armed := g.armed[i := true], armedLevel := g.armedLevel[i := on], at := g.at[i := time])
  }

  /** `apply_gates`: every change that is due becomes the level, and outputs
      whose level differs from what was last applied are written. */
  function Apply(g: Bank, now: nat): Bank
    requires g.Sized(|g.armed|)
  {
    var n := |g.armed|;
    var want := (set i | i in g.level && !(i < n && g.Due(i, now)))
              + (set i: nat | i < n && g.Due(i, now) && g.armedLevel[i]);
    g.(level := want, applied := want,
       armed := seq(n, i requires 0 <= i < n => g.armed[i] && !g.Due(i, now)),
       hw := seq(n, i requires 0 <= i < n => if (i in want) != (i in g.applied) then i in want else g.hw[i]))
  }

  datatype Action =
    | DoSet(i: int, on: bool)
    | DoSetAt(i: int, on: bool, time: nat, now: nat)
    | DoApply(now: nat)

  function Next(g: Bank, a: Action): Bank
    requires g.Sized(|g.armed|)
  {
    match a
    case DoSet(i, on) => Set(g, i, on)
    case DoSetAt(i, on, time, now) => SetAt(g, i, on, time, now)
    case DoApply(now) => Apply(g, now)
  }

  /** A bank of n gates after a run of calls from the two threads. */
  function Run(n: nat, run: seq<Action>): (g: Bank)
    ensures g.Sized(n)
  {
    if run == [] then Opened(n) else Next(Run(n, run[..|run| - 1]), run[|run| - 1])
  }

  /** Outputs sit where `gate_applied` says, over every run. */
  lemma {:induction false} HardwareIsApplied(n: nat, run: seq<Action>)
    ensures forall i: nat :: i < n ==> (Run(n, run).hw[i] <==> i in Run(n, run).applied)
  {
    if run != [] { HardwareIsApplied(n, run[..|run| - 1]); }
  }

  /** Applying never changes what a gate is bound for, and it puts a gate's
      output on that target exactly when nothing is pending or the pending time
      has come; otherwise the output takes the level word's bit and the change
      stays pending. */
  lemma ApplyDrives(n: nat, run: seq<Action>, now: nat, i: nat)
    requires i < n
    ensures var g := Run(n, run);
            var r := Apply(g, now);
            && r.Target(i) == g.Target(i)
            && (!g.armed[i] || now >= g.at[i] ==> r.hw[i] == g.Target(i) && !r.armed[i])
            && (g.armed[i] && now < g.at[i] ==>
                  r.hw[i] == (i in g.level) && r.armed[i] && r.at[i] == g.at[i])
  {
    HardwareIsApplied(n, run);
  }

  predicate Requests(a: Action, i: nat) {
    match a
    case DoSet(j, _) => j == i
    case DoSetAt(j, _, _, _) => j == i
    case DoApply(_) => false
  }

  function RequestedLevel(a: Action): bool {
    match a
    case DoSet(_, on) => on
    case DoSetAt(_, on, _, _) => on
    case DoApply(_) => false
  }

  predicate Immediate(a: Action) {
    match a
    case DoSet(_, _) => true
    case DoSetAt(_, _, time, now) => time <= now
    case DoApply(_) => false
  }

  /** The level asked for by the last request for gate i. */
  function LastRequested(run: seq<Action>, i: nat): bool {
    if run == [] then false
    else if Requests(run[|run| - 1], i) then RequestedLevel(run[|run| - 1])
    else LastRequested(run[..|run| - 1], i)
  }

  /** Supersession: over every run a gate is bound for the level of the newest
      request made for it, whatever was pending and whatever other gates do. */
  lemma {:induction false} TargetIsLastRequest(n: nat, run: seq<Action>, i: nat)
    requires i < n
    ensures Run(n, run).Target(i) == LastRequested(run, i)
  {
    if run != [] { TargetIsLastRequest(n, run[..|run| - 1], i); }
  }

  /** Request p of the run comes into force: at once, or at a later apply whose
      clock has reached its time with no other request for the gate between. */
  ghost predicate InForce(run: seq<Action>, p: nat, i: nat) {
    && p < |run| && Requests(run[p], i)
    && (Immediate(run[p]) || exists q :: p < q < |run| && FiredBy(run, p, q, i))
  }

  ghost predicate FiredBy(run: seq<Action>, p: nat, q: int, i: nat)
    requires p < |run|
  {
    && p < q < |run| && run[q].DoApply? && run[p].DoSetAt? && run[q].now >= run[p].time
    && forall k :: p < k < q ==> !Requests(run[k], i)
  }

  /** The level of the newest of the first p requests that came into force. */
  ghost function LevelInForce(run: seq<Action>, p: nat, i: nat): bool
    requires p <= |run|
  {
    if p == 0 then false
    else if InForce(run, p - 1, i) then RequestedLevel(run[p - 1])
    else LevelInForce(run, p - 1, i)
  }

  lemma {:induction false} EarlierStillInForce(run: seq<Action>, a: Action, p: nat, i: nat)
    requires p < |run|
    ensures InForce(run, p, i) ==> InForce(run + [a], p, i)
    ensures InForce(run + [a], p, i) ==>
              InForce(run, p, i) || (Requests(run[p], i) && FiredBy(run + [a], p, |run|, i))
  {
    var r := run + [a];
    forall q | p < q < |run| ensures FiredBy(run, p, q, i) <==> FiredBy(r, p, q, i) {
      if FiredBy(r, p, q, i) {
        forall k | p < k < q ensures !Requests(run[k], i) { assert r[k] == run[k]; }
      }
    }
    if Immediate(run[p]) { assert r[p] == run[p]; }
  }

  /** A step that fires nothing for gate i leaves the level in force alone. */
  lemma {:induction false} NothingFires(run: seq<Action>, a: Action, p: nat, i: nat)
    requires p <= |run|
    requires forall k: nat :: k < p && Requests(run[k], i) ==> !FiredBy(run + [a], k, |run|, i) || InForce(run, k, i)
    ensures LevelInForce(run + [a], p, i) == LevelInForce(run, p, i)
  {
    if p > 0 {
      EarlierStillInForce(run, a, p - 1, i);
      NothingFires(run, a, p - 1, i);
    }
  }

  /** p is the newest request for gate i. */
  ghost predicate Newest(run: seq<Action>, p: int, i: nat) {
    && -1 <= p < |run|
    && (p >= 0 ==> Requests(run[p], i))
    && forall k :: p < k < |run| ==> !Requests(run[k], i)
  }

  /** What the bank remembers about gate i, in terms of the requests made. */
  ghost predicate Tracks(g: Bank, run: seq<Action>, i: nat, p: int)
    requires g.Sized(|g.armed|) && i < |g.armed|
  {
    && Newest(run, p, i)
    && (i in g.level <==> LevelInForce(run, |run|, i))
    && (g.armed[i] <==> p >= 0 && !InForce(run, p, i))
    && (g.armed[i] ==> run[p] == DoSetAt(i, g.armedLevel[i], run[p].time, run[p].now) && run[p].time == g.at[i])
  }

  lemma TracksRequest(n: nat, run: seq<Action>, a: Action, i: nat, p: int)
    requires i < n && Tracks(Run(n, run), run, i, p) && Requests(a, i)
    ensures Tracks(Next(Run(n, run), a), run + [a], i, |run|)
  {
    var r := run + [a];
    forall k: nat | k < |run| && Requests(run[k], i) ensures !FiredBy(r, k, |run|, i) {}
    NothingFires(run, a, |run|, i);
    assert r[|run|] == a;
    assert InForce(r, |run|, i) <==> Immediate(a);
  }

  lemma TracksOther(n: nat, run: seq<Action>, a: Action, i: nat, p: int)
    requires i < n && Tracks(Run(n, run), run, i, p) && !Requests(a, i) && !a.DoApply?
    ensures Tracks(Next(Run(n, run), a), run + [a], i, p)
  {
    var r := run + [a];
    NothingFires(run, a, |run|, i);
    assert r[|run|] == a;
    if p >= 0 {
      assert r[p] == run[p];
      EarlierStillInForce(run, a, p, i);
    }
  }

  /** An apply fires the newest request when it is pending and due, and no other. */
  lemma AppliedFires(run: seq<Action>, now: nat, i: nat, p: int, k: nat)
    requires Newest(run, p, i) && k < |run| && Requests(run[k], i)
    ensures FiredBy(run + [DoApply(now)], k, |run|, i) <==>
              k == p && run[k].DoSetAt? && now >= run[k].time
  {
    var r := run + [DoApply(now)];
    assert r[|run|] == DoApply(now) && r[k] == run[k];
    if k < p { assert r[p] == run[p] && Requests(r[p], i); }
    if k == p {
      forall m | k < m < |run| ensures !Requests(r[m], i) { assert r[m] == run[m]; }
    }
  }

  lemma {:induction false} NewestDecides(run: seq<Action>, p: nat, i: nat, m: nat)
    requires p < m <= |run| && InForce(run, p, i)
    requires forall k :: p < k < m ==> !Requests(run[k], i)
    ensures LevelInForce(run, m, i) == RequestedLevel(run[p])
    decreases m
  {
    if m - 1 > p { NewestDecides(run, p, i, m - 1); }
  }

  lemma TracksApply(n: nat, run: seq<Action>, now: nat, i: nat, p: int)
    requires i < n && Tracks(Run(n, run), run, i, p)
    ensures Tracks(Next(Run(n, run), DoApply(now)), run + [DoApply(now)], i, p)
  {
    var g, a := Run(n, run), DoApply(now);
    var r := run + [a];
    assert r[|run|] == a;
    forall k: nat | k < |run| && Requests(run[k], i)
      ensures FiredBy(r, k, |run|, i) <==> k == p && run[k].DoSetAt? && now >= run[k].time
    {
      AppliedFires(run, now, i, p, k);
    }
    if p >= 0 {
      assert r[p] == run[p];
      EarlierStillInForce(run, a, p, i);
      assert InForce(r, p, i) <==> InForce(run, p, i) || FiredBy(r, p, |run|, i);
    }
    assert Newest(r, p, i);
    if g.Due(i, now) {
      NewestDecides(r, p, i, |r|);
    } else {
      NothingFires(run, a, |run|, i);
      assert !InForce(r, |run|, i);
    }
  }

  lemma {:induction false} RunTracks(n: nat, run: seq<Action>, i: nat) returns (p: int)
    requires i < n
    ensures Tracks(Run(n, run), run, i, p)
  {
    if run == [] {
      p := -1;
    } else {
      var m := |run| - 1;
      var a := run[m];
      p := RunTracks(n, run[..m], i);
      assert run == run[..m] + [a];
      if Requests(a, i) {
        TracksRequest(n, run[..m], a, i, p);
        p := m;
      } else if a.DoApply? {
        TracksApply(n, run[..m], a.now, i, p);
      } else {
        TracksOther(n, run[..m], a, i, p);
      }
    }
  }

  /** What the outputs show: after any run and a further apply, gate i is on the
      level of the newest request in force. So a pending change is never early,
      a superseded one never happens, and requests for other gates do not count. */
  lemma OutputIsLevelInForce(n: nat, run: seq<Action>, now: nat, i: nat)
    requires i < n
    ensures Run(n, run + [DoApply(now)]).hw[i] == LevelInForce(run + [DoApply(now)], |run| + 1, i)
  {
    var r := run + [DoApply(now)];
    assert r[..|r| - 1] == run;
    var p := RunTracks(n, r, i);
    HardwareIsApplied(n, r);
  }

  /** A pending change stays pending, and its gate's level stays put, through
      any calls that neither request that gate nor apply at or after its time. */
  lemma {:induction false} NeverEarly(g: Bank, more: seq<Action>, i: nat)
    requires g.Sized(|g.armed|) && i < |g.armed| && g.armed[i]
    requires forall k :: 0 <= k < |more| ==> !Requests(more[k], i)
    requires forall k :: 0 <= k < |more| && more[k].DoApply? ==> more[k].now < g.at[i]
    ensures var r := RunFrom(g, more);
            && r.Sized(|g.armed|) && r.armed[i]
            && r.at[i] == g.at[i] && r.armedLevel[i] == g.armedLevel[i]
            && (i in r.level <==> i in g.level)
  {
    if more != [] {
      var m := |more| - 1;
      NeverEarly(g, more[..m], i);
      assert more[..m + 1] == more;
    }
  }

  function RunFrom(g: Bank, run: seq<Action>): (r: Bank)
    requires g.Sized(|g.armed|)
    ensures r.Sized(|g.armed|)
  {
    if run == [] then g else Next(RunFrom(g, run[..|run| - 1]), run[|run| - 1])
  }

  // tt_gate_block, one channel, with the sampling thread running between frames.

  /** What happens around one frame: the applies that run before it, and the
      clock reading if it makes a request. */
  datatype Around = Around(applies: seq<nat>, now: nat)

  function Applied(g: Bank, nows: seq<nat>): (r: Bank)
    requires g.Sized(|g.armed|)
    ensures r.Sized(|g.armed|)
  {
    if nows == [] then g else Apply(Applied(g, nows[..|nows| - 1]), nows[|nows| - 1])
  }

  /** One frame: the applies, then a request if the wanted level differs from cur. */
  function Frame(g: Bank, i: nat, cur: bool, want: bool, at: nat, around: Around): (r: Bank)
    requires g.Sized(|g.armed|)
    ensures r.Sized(|g.armed|)
  {
    var g1 := Applied(g, around.applies);
    if want != cur then SetAt(g1, i, want, at, around.now) else g1
  }

  /** The instant a crossing at frame f is scheduled for. */
  function FrameTime(t0: nat, p: real, f: nat): nat
    requires p >= 0.0
  {
    SpanMono(p, 0, f);
    t0 + Span(p, f).Floor
  }

  /** That instant is t0 plus f frames, cut to a whole nanosecond. */
  lemma FrameTimeIs(t0: nat, p: real, f: nat)
    requires p >= 0.0
    ensures forall t: nat :: WholePart(Instant(t0, p, f), t) <==> t == FrameTime(t0, p, f)
  {
    InstantIsSpan(t0, p, f);
    hide Span, Instant;
  }

  /** The frames from f on, the last level followed being cur. */
  function Follow(g: Bank, i: nat, cur: bool, wants: seq<bool>, env: seq<Around>, t0: nat, p: real, f: nat): (r: Bank)
    requires g.Sized(|g.armed|) && f <= |wants| == |env| && p >= 0.0
    ensures r.Sized(|g.armed|)
    decreases |wants| - f
  {
    if f == |wants| then g
    else Follow(Frame(g, i, cur, wants[f], FrameTime(t0, p, f), env[f]), i, wants[f], wants, env, t0, p, f + 1)
  }

  /** The frames done so far: Follow cut off at the length of env. */
  function FollowTo(g: Bank, i: nat, cur: bool, wants: seq<bool>, env: seq<Around>, t0: nat, p: real): (r: Bank)
    requires g.Sized(|g.armed|) && |env| <= |wants| && p >= 0.0
    ensures r.Sized(|g.armed|)
    decreases |env|
  {
    if env == [] then g
    else
      var f := |env| - 1;
      Frame(FollowTo(g, i, cur, wants, env[..f], t0, p), i, if f == 0 then cur else wants[f - 1],
            wants[f], FrameTime(t0, p, f), env[f])
  }

  lemma FollowToIsFollow(g: Bank, i: nat, cur: bool, wants: seq<bool>, env: seq<Around>, t0: nat, p: real)
    requires g.Sized(|g.armed|) && |env| == |wants| && p >= 0.0
    ensures FollowTo(g, i, cur, wants, env, t0, p) == Follow(g, i, cur, wants, env, t0, p, 0)
  {
    assert env[..0] == [];
    FollowRest(g, i, cur, wants, env, t0, p, 0);
    assert env[..|env|] == env;
  }

  lemma {:induction false} FollowRest(g: Bank, i: nat, cur: bool, wants: seq<bool>, env: seq<Around>,
                                      t0: nat, p: real, f: nat)
    requires g.Sized(|g.armed|) && f <= |env| == |wants| && p >= 0.0
    ensures Follow(FollowTo(g, i, cur, wants, env[..f], t0, p), i, if f == 0 then cur else wants[f - 1],
                   wants, env, t0, p, f)
         == FollowTo(g, i, cur, wants, env, t0, p)
    decreases |wants| - f
  {
    if f == |wants| {
      assert env[..f] == env;
    } else {
      assert env[..f + 1][..f] == env[..f];
      FollowRest(g, i, cur, wants, env, t0, p, f + 1);
    }
  }

  lemma {:induction false} AppliedKeepsTargets(g: Bank, nows: seq<nat>, i: nat)
    requires g.Sized(|g.armed|) && i < |g.armed|
    ensures Applied(g, nows).Target(i) == g.Target(i)
  {
    if nows != [] { AppliedKeepsTargets(g, nows[..|nows| - 1], i); }
  }

  predicate AllEqual(wants: seq<bool>, f: nat, v: bool)
    requires f <= |wants|
  {
    forall k :: f <= k < |wants| ==> wants[k] == v
  }

  lemma {:induction false} FollowTarget(g: Bank, i: nat, cur: bool, wants: seq<bool>, env: seq<Around>,
                                        t0: nat, p: real, f: nat)
    requires g.Sized(|g.armed|) && f <= |wants| == |env| && p >= 0.0 && i < |g.armed|
    ensures Follow(g, i, cur, wants, env, t0, p, f).Target(i)
         == if AllEqual(wants, f, cur) then g.Target(i) else wants[|wants| - 1]
    decreases |wants| - f
  {
    if f < |wants| {
      AppliedKeepsTargets(g, env[f].applies, i);
      FollowTarget(Frame(g, i, cur, wants[f], FrameTime(t0, p, f), env[f]), i, wants[f], wants, env, t0, p, f + 1);
    }
  }

  /** When a block's last sample decides the gate. `tt_gate_block` compares its
      input with `gate_level` and not with a pending change, so the gate ends up
      bound for the last sample exactly when there was no pending change, or the
      pending change agrees with the level word, or some sample differs from it.
      This holds for any applies and clock readings in between. */
  lemma BlockEndsOnLastSample(g: Bank, i: nat, wants: seq<bool>, env: seq<Around>, t0: nat, p: real)
    requires g.Sized(|g.armed|) && 0 < |wants| == |env| && p >= 0.0 && i < |g.armed|
    ensures Follow(g, i, i in g.level, wants, env, t0, p, 0).Target(i) == wants[|wants| - 1]
            <==> !g.armed[i] || g.armedLevel[i] == (i in g.level) || !AllEqual(wants, 0, i in g.level)
  {
    FollowTarget(g, i, i in g.level, wants, env, t0, p, 0);
  }

  /** And there are such blocks: a low gate with a rise pending, given an input
      that is low throughout, still rises. */
  lemma PendingRiseSurvives(n: nat, i: nat, time: nat, now: nat, wants: seq<bool>, env: seq<Around>,
                            t0: nat, p: real)
    requires i < n && now < time && 0 < |wants| == |env| && p >= 0.0
    requires forall f :: 0 <= f < |wants| ==> !wants[f]
    ensures var g := Run(n, [DoSetAt(i, true, time, now)]);
            Follow(g, i, i in g.level, wants, env, t0, p, 0).Target(i) != wants[|wants| - 1]
  {
    var g := Run(n, [DoSetAt(i, true, time, now)]);
    assert g == SetAt(Run(n, []), i, true, time, now);
    BlockEndsOnLastSample(g, i, wants, env, t0, p);
  }
}
