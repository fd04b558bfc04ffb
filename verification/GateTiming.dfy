/** When the crossings of a gate signal come into force. `tt_gate_block` asks for
    each at the instant of its frame, but a gate has room for one pending change:
    a crossing that has not come into force by the next one is replaced by it
    (src/tt_core.c). */
module GateTiming {
  import opened Frames
  import opened Gates

  /** Some apply of the list runs at or after t. */
  predicate Reach(nows: seq<nat>, t: nat) {
    exists k :: 0 <= k < |nows| && nows[k] >= t
  }

  /** Some apply around the frames (f, e) runs at or after t. */
  predicate ReachWithin(env: seq<Around>, f: nat, e: nat, t: nat)
    requires e <= |env|
  {
    exists k :: f < k < e && Reach(env[k].applies, t)
  }

  /** Each output sits where `gate_applied` says (Gates.HardwareIsApplied). */
  ghost predicate Synced(g: Bank)
    requires g.Sized(|g.armed|)
  {
    forall i: nat :: i < |g.armed| ==> (g.hw[i] <==> i in g.applied)
  }

  /** A change to level v at time t has come into force, or it is still pending
      and the level word has what it had. */
  ghost predicate Stands(g: Bank, i: nat, t: nat, v: bool, was: bool, inForce: bool)
    requires g.Sized(|g.armed|) && i < |g.armed|
  {
    if inForce then !g.armed[i] && (i in g.level) == v
    else g.armed[i] && g.at[i] == t && g.armedLevel[i] == v && (i in g.level) == was
  }

  lemma {:induction false} AppliedStands(g: Bank, nows: seq<nat>, i: nat, t: nat, v: bool, was: bool, inForce: bool)
    requires g.Sized(|g.armed|) && i < |g.armed| && Stands(g, i, t, v, was, inForce)
    ensures Stands(Applied(g, nows), i, t, v, was, inForce || Reach(nows, t))
  {
    if nows != [] {
      var n := |nows| - 1;
      AppliedStands(g, nows[..n], i, t, v, was, inForce);
      ReachSnoc(nows, t);
    }
  }

  lemma ReachSnoc(nows: seq<nat>, t: nat)
    requires nows != []
    ensures Reach(nows, t) <==> Reach(nows[..|nows| - 1], t) || nows[|nows| - 1] >= t
  {
    var n := |nows| - 1;
    if Reach(nows[..n], t) {
      var k :| 0 <= k < n && nows[..n][k] >= t;
      assert nows[k] >= t;
    }
    if Reach(nows, t) && nows[n] < t {
      var k :| 0 <= k < |nows| && nows[k] >= t;
      assert nows[..n][k] >= t;
    }
  }

  /** The level gate i is to follow from frame f on differs from the one before. */
  predicate Crosses(cur: bool, wants: seq<bool>, f: nat)
    requires f < |wants|
  {
    wants[f] != if f == 0 then cur else wants[f - 1]
  }

  predicate Stays(wants: seq<bool>, f: nat, e: nat)
    requires f < e <= |wants|
  {
    forall k :: f <= k < e ==> wants[k] == wants[f]
  }

  /** The bank when frame f makes its request, if it makes one. */
  function Before(g: Bank, i: nat, cur: bool, wants: seq<bool>, env: seq<Around>, t0: nat, p: real, f: nat): (r: Bank)
    requires g.Sized(|g.armed|) && f < |wants| == |env| && p >= 0.0
    ensures r.Sized(|g.armed|)
  {
    Applied(FollowTo(g, i, cur, wants, env[..f], t0, p), env[f].applies)
  }

  /** One frame: a request when the level crosses, nothing otherwise. */
  lemma OneFrame(g: Bank, i: nat, cur: bool, wants: seq<bool>, env: seq<Around>, t0: nat, p: real, f: nat)
    requires g.Sized(|g.armed|) && f < |wants| == |env| && p >= 0.0
    ensures var b := Before(g, i, cur, wants, env, t0, p, f);
            FollowTo(g, i, cur, wants, env[..f + 1], t0, p) ==
              if Crosses(cur, wants, f) then SetAt(b, i, wants[f], FrameTime(t0, p, f), env[f].now) else b
  {
    assert env[..f + 1][..f] == env[..f];
  }

  /** A request leaves no trace of a change that is not in force. */
  lemma Requested(g: Bank, i: nat, w: bool, at: nat, now: nat)
    requires g.Sized(|g.armed|) && i < |g.armed|
    ensures Stands(SetAt(g, i, w, at, now), i, at, w, i in g.level, at <= now)
  {}

  lemma {:induction false} CrossingStands(g: Bank, i: nat, cur: bool, wants: seq<bool>, env: seq<Around>,
                                          t0: nat, p: real, f: nat, e: nat)
    requires g.Sized(|g.armed|) && i < |g.armed| && |wants| == |env| && p >= 0.0
    requires f < e <= |wants| && Crosses(cur, wants, f) && Stays(wants, f, e)
    ensures var t := FrameTime(t0, p, f);
            Stands(FollowTo(g, i, cur, wants, env[..e], t0, p), i, t, wants[f],
                   i in Before(g, i, cur, wants, env, t0, p, f).level,
                   t <= env[f].now || ReachWithin(env, f, e, t))
    decreases e
  {
    hide FollowTo, FrameTime, Applied, Stands;
    var t := FrameTime(t0, p, f);
    var was := i in Before(g, i, cur, wants, env, t0, p, f).level;
    OneFrame(g, i, cur, wants, env, t0, p, e - 1);
    if e == f + 1 {
      Requested(Before(g, i, cur, wants, env, t0, p, f), i, wants[f], t, env[f].now);
    } else {
      CrossingStands(g, i, cur, wants, env, t0, p, f, e - 1);
      assert wants[e - 1] == wants[f] == wants[e - 2];
      AppliedStands(FollowTo(g, i, cur, wants, env[..e - 1], t0, p), env[e - 1].applies, i, t, wants[f], was,
                    t <= env[f].now || ReachWithin(env, f, e - 1, t));
      WithinSnoc(env, f, e, t);
    }
  }

  lemma WithinSnoc(env: seq<Around>, f: nat, e: nat, t: nat)
    requires f + 1 < e <= |env|
    ensures ReachWithin(env, f, e, t) <==> ReachWithin(env, f, e - 1, t) || Reach(env[e - 1].applies, t)
  {}

  /** When a crossing comes into force. Take a crossing at frame f, and t, which
      is t0 plus f frames in whole nanoseconds; the frames up to e, which do not
      cross again; and the applies that run after them, up to the request of the
      next crossing, or after the block. The crossing is in force by then exactly
      when t had passed as it was requested, or one of those applies runs at or
      after t; otherwise it is pending for t, and the level word has not changed. */
  lemma CrossingInForce(g: Bank, i: nat, cur: bool, wants: seq<bool>, env: seq<Around>, t0: nat, p: real,
                        f: nat, e: nat, nows: seq<nat>, t: nat)
    requires g.Sized(|g.armed|) && i < |g.armed| && |wants| == |env| && p >= 0.0
    requires f < e <= |wants| && Crosses(cur, wants, f) && Stays(wants, f, e)
    requires WholePart(Instant(t0, p, f), t)
    ensures Stands(Applied(FollowTo(g, i, cur, wants, env[..e], t0, p), nows), i, t, wants[f],
                   i in Before(g, i, cur, wants, env, t0, p, f).level,
                   t <= env[f].now || ReachWithin(env, f, e, t) || Reach(nows, t))
  {
    FrameTimeIs(t0, p, f);
    hide FrameTime, Instant, FollowTo, Stands, Reach;
    CrossingStands(g, i, cur, wants, env, t0, p, f, e);
    AppliedStands(FollowTo(g, i, cur, wants, env[..e], t0, p), nows, i, t, wants[f],
                  i in Before(g, i, cur, wants, env, t0, p, f).level,
                  t <= env[f].now || ReachWithin(env, f, e, t));
  }

  /** A crossing that is not in force when the next one makes its request never
      comes into force: the new change takes its place, and the level word is as
      it was before either. */
  lemma CrossingReplaced(g: Bank, i: nat, cur: bool, wants: seq<bool>, env: seq<Around>, t0: nat, p: real,
                         f: nat, e: nat, t: nat, u: nat)
    requires g.Sized(|g.armed|) && i < |g.armed| && |wants| == |env| && p >= 0.0
    requires f < e < |wants| && Crosses(cur, wants, f) && Stays(wants, f, e) && Crosses(cur, wants, e)
    requires WholePart(Instant(t0, p, f), t) && WholePart(Instant(t0, p, e), u)
    requires env[f].now < t && !ReachWithin(env, f, e, t) && !Reach(env[e].applies, t)
    ensures Stands(FollowTo(g, i, cur, wants, env[..e + 1], t0, p), i, u, wants[e],
                   i in Before(g, i, cur, wants, env, t0, p, f).level, u <= env[e].now)
  {
    var b := Before(g, i, cur, wants, env, t0, p, e);
    CrossingInForce(g, i, cur, wants, env, t0, p, f, e, env[e].applies, t);
    FrameTimeIs(t0, p, e);
    hide FollowTo, FrameTime, Instant, Applied, Reach;
    OneFrame(g, i, cur, wants, env, t0, p, e);
    Requested(b, i, wants[e], u, env[e].now);
  }

  /** What a channel's last crossing leaves: it is in force, or pending for its
      own frame's instant. */
  lemma LastCrossing(g: Bank, i: nat, cur: bool, wants: seq<bool>, env: seq<Around>, t0: nat, p: real, f: nat, t: nat)
    requires g.Sized(|g.armed|) && i < |g.armed| && |wants| == |env| && p >= 0.0
    requires f < |wants| && Crosses(cur, wants, f) && Stays(wants, f, |wants|) && WholePart(Instant(t0, p, f), t)
    ensures var r := Follow(g, i, cur, wants, env, t0, p, 0);
            if r.armed[i] then r.at[i] == t && r.armedLevel[i] == wants[f] else (i in r.level) == wants[f]
  {
    hide Follow, FollowTo, Instant, WholePart, Reach, Crosses, Stays;
    CrossingInForce(g, i, cur, wants, env, t0, p, f, |wants|, [], t);
    FollowToIsFollow(g, i, cur, wants, env, t0, p);
    assert env[..|wants|] == env;
  }

  lemma LastCrossings(g: Bank, i: nat, cur: bool, wants: seq<bool>, env: seq<Around>, t0: nat, p: real)
    requires g.Sized(|g.armed|) && i < |g.armed| && |wants| == |env| && p >= 0.0
    ensures var r := Follow(g, i, cur, wants, env, t0, p, 0);
            forall f: nat, t: nat ::
              f < |wants| && WholePart(Instant(t0, p, f), t) && Crosses(cur, wants, f) && Stays(wants, f, |wants|) ==>
                if r.armed[i] then r.at[i] == t && r.armedLevel[i] == wants[f] else (i in r.level) == wants[f]
  {
    hide Follow, Instant, WholePart, Crosses, Stays;
    var r := Follow(g, i, cur, wants, env, t0, p, 0);
    forall f: nat, t: nat |
      f < |wants| && WholePart(Instant(t0, p, f), t) && Crosses(cur, wants, f) && Stays(wants, f, |wants|)
      ensures if r.armed[i] then r.at[i] == t && r.armedLevel[i] == wants[f] else (i in r.level) == wants[f]
    {
      LastCrossing(g, i, cur, wants, env, t0, p, f, t);
    }
  }

  // What the output shows.

  /** An apply writes the level word to the outputs. */
  lemma {:induction false} AppliedOutput(g: Bank, nows: seq<nat>, i: nat)
    requires g.Sized(|g.armed|) && Synced(g) && i < |g.armed|
    ensures var r := Applied(g, nows);
            Synced(r) && r.hw[i] == if nows == [] then g.hw[i] else i in r.level
  {
    if nows != [] { AppliedOutput(g, nows[..|nows| - 1], i); }
  }

  /** A low gate with nothing pending. */
  ghost predicate Low(g: Bank, i: nat)
    requires g.Sized(|g.armed|)
  {
    Synced(g) && i < |g.armed| && !g.armed[i] && i !in g.level && !g.hw[i]
  }

  lemma {:induction false} AppliedLow(g: Bank, nows: seq<nat>, i: nat)
    requires g.Sized(|g.armed|) && Low(g, i)
    ensures Low(Applied(g, nows), i)
  {
    if nows != [] { AppliedLow(g, nows[..|nows| - 1], i); }
  }

  lemma {:induction false} LowFrames(g: Bank, i: nat, wants: seq<bool>, env: seq<Around>, t0: nat, p: real, f: nat)
    requires g.Sized(|g.armed|) && Low(g, i) && f <= |wants| == |env| && p >= 0.0
    requires forall k :: 0 <= k < f ==> !wants[k]
    ensures Low(FollowTo(g, i, false, wants, env[..f], t0, p), i)
  {
    if f > 0 {
      LowFrames(g, i, wants, env, t0, p, f - 1);
      assert env[..f][..f - 1] == env[..f - 1];
      AppliedLow(FollowTo(g, i, false, wants, env[..f - 1], t0, p), env[f - 1].applies, i);
    }
  }

  /** A pulse: low up to frame f, high from there to frame e, low at e. */
  predicate Pulse(wants: seq<bool>, f: nat, e: nat) {
    && f < e < |wants| && !wants[e]
    && (forall k :: 0 <= k < f ==> !wants[k])
    && (forall k :: f <= k < e ==> wants[k])
  }

  /** The first instant at which an apply shows the change of frame f: any, if
      the change was late. */
  function Showing(env: seq<Around>, t0: nat, p: real, f: nat): nat
    requires f < |env| && p >= 0.0
  {
    if FrameTime(t0, p, f) <= env[f].now then 0 else FrameTime(t0, p, f)
  }

  lemma {:induction false} PulseFrames(g: Bank, i: nat, wants: seq<bool>, env: seq<Around>, t0: nat, p: real,
                                       f: nat, e: nat, k: nat)
    requires g.Sized(|g.armed|) && Low(g, i) && |wants| == |env| && p >= 0.0
    requires Pulse(wants, f, e) && f < k <= e
    ensures var r := FollowTo(g, i, false, wants, env[..k], t0, p);
            Synced(r) && (r.hw[i] <==> ReachWithin(env, f, k, Showing(env, t0, p, f)))
  {
    hide FollowTo, FrameTime, Applied, Showing;
    OneFrame(g, i, false, wants, env, t0, p, k - 1);
    if k == f + 1 {
      LowFrames(g, i, wants, env, t0, p, f);
      AppliedLow(FollowTo(g, i, false, wants, env[..f], t0, p), env[f].applies, i);
    } else {
      PulseFrames(g, i, wants, env, t0, p, f, e, k - 1);
      PulseApplied(g, i, wants, env, t0, p, f, e, k - 1, env[k - 1].applies);
      WithinSnoc(env, f, k, Showing(env, t0, p, f));
    }
  }

  /** Applies that run after some frames of a pulse. */
  lemma PulseApplied(g: Bank, i: nat, wants: seq<bool>, env: seq<Around>, t0: nat, p: real,
                     f: nat, e: nat, k: nat, nows: seq<nat>)
    requires g.Sized(|g.armed|) && Low(g, i) && |wants| == |env| && p >= 0.0
    requires Pulse(wants, f, e) && f < k <= e
    requires var r := FollowTo(g, i, false, wants, env[..k], t0, p);
             Synced(r) && (r.hw[i] <==> ReachWithin(env, f, k, Showing(env, t0, p, f)))
    ensures var r := Applied(FollowTo(g, i, false, wants, env[..k], t0, p), nows);
            var at := Showing(env, t0, p, f);
            Synced(r) && (r.hw[i] <==> ReachWithin(env, f, k, at) || Reach(nows, at))
  {
    var r := FollowTo(g, i, false, wants, env[..k], t0, p);
    LowFrames(g, i, wants, env, t0, p, f);
    AppliedLow(FollowTo(g, i, false, wants, env[..f], t0, p), env[f].applies, i);
    FrameTimeIs(t0, p, f);
    CrossingInForce(g, i, false, wants, env, t0, p, f, k, nows, FrameTime(t0, p, f));
    AppliedOutput(r, nows, i);
    if nows != [] { assert nows[0] >= 0; }
  }

  /** When a pulse reaches the output: exactly when an apply runs between its two
      requests, at or after its start, or at all if the start was late. Otherwise
      the output stays low for ever, as far as this gate's requests go. */
  lemma PulseShows(g: Bank, i: nat, wants: seq<bool>, env: seq<Around>, t0: nat, p: real, f: nat, e: nat)
    requires g.Sized(|g.armed|) && Low(g, i) && |wants| == |env| && p >= 0.0 && Pulse(wants, f, e)
    ensures var b, at := Before(g, i, false, wants, env, t0, p, e), Showing(env, t0, p, f);
            && (b.hw[i] <==> ReachWithin(env, f, e, at) || Reach(env[e].applies, at))
            && (!b.hw[i] && at > 0 ==>
                  forall nows: seq<nat> ::
                    !Applied(SetAt(b, i, false, FrameTime(t0, p, e), env[e].now), nows).hw[i])
  {
    var b, at := Before(g, i, false, wants, env, t0, p, e), Showing(env, t0, p, f);
    PulseFrames(g, i, wants, env, t0, p, f, e, e);
    PulseApplied(g, i, wants, env, t0, p, f, e, e, env[e].applies);
    if !b.hw[i] && at > 0 { PulseOver(g, i, wants, env, t0, p, f, e); }
  }

  lemma PulseOver(g: Bank, i: nat, wants: seq<bool>, env: seq<Around>, t0: nat, p: real, f: nat, e: nat)
    requires g.Sized(|g.armed|) && Low(g, i) && |wants| == |env| && p >= 0.0 && Pulse(wants, f, e)
    requires var b, at := Before(g, i, false, wants, env, t0, p, e), Showing(env, t0, p, f);
             && at > 0 && !b.hw[i] && Synced(b)
             && !ReachWithin(env, f, e, at) && !Reach(env[e].applies, at)
    ensures var b := Before(g, i, false, wants, env, t0, p, e);
            forall nows: seq<nat> ::
              !Applied(SetAt(b, i, false, FrameTime(t0, p, e), env[e].now), nows).hw[i]
  {
    var b, at, t := Before(g, i, false, wants, env, t0, p, e), Showing(env, t0, p, f), FrameTime(t0, p, e);
    LowFrames(g, i, wants, env, t0, p, f);
    AppliedLow(FollowTo(g, i, false, wants, env[..f], t0, p), env[f].applies, i);
    FrameTimeIs(t0, p, f);
    CrossingInForce(g, i, false, wants, env, t0, p, f, e, env[e].applies, FrameTime(t0, p, f));
    Requested(b, i, false, t, env[e].now);
    var r := SetAt(b, i, false, t, env[e].now);
    forall nows: seq<nat> ensures !Applied(r, nows).hw[i] {
      AppliedStands(r, nows, i, t, false, false, t <= env[e].now);
      AppliedOutput(r, nows, i);
    }
  }

  /** A pulse of one frame that lies in the future of everything up to its end,
      on a gate just opened: the output never shows it. */
  lemma PulseLost(n: nat, i: nat, t0: nat, p: real)
    requires i < n && p >= 0.0 && FrameTime(t0, p, 1) > 0
    ensures var quiet := Around([], 0);
            var g := Follow(Opened(n), i, false, [false, true, false], [quiet, quiet, quiet], t0, p, 0);
            forall nows: seq<nat> :: !Applied(g, nows).hw[i]
  {
    var quiet := Around([], 0);
    var wants, env := [false, true, false], [quiet, quiet, quiet];
    PulseShows(Opened(n), i, wants, env, t0, p, 1, 2);
    FollowToIsFollow(Opened(n), i, false, wants, env, t0, p);
    assert env[..2] == env[..|env| - 1];
  }
}
