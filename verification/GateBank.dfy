/** The gate scheduler as the context object holds it: the fields both threads
    update, and the loops of `apply_gates` and `tt_gate_block`
    (src/tt_core.c). */
module GateBank {
  import opened Frames
  import opened Gates
  import opened GateTiming
  import opened Words

  class GateBank {
    const at: array<nat>
    const armed: array<bool>
    const armedLevel: array<bool>
    /** The level last written to each output of the board. */
    const hw: array<bool>
    var level: set<nat>
    var applied: set<nat>

    ghost predicate Valid()
      reads this
    {
      && at.Length == armed.Length == armedLevel.Length == hw.Length
      && armed != armedLevel && armed != hw && armedLevel != hw
      && (forall i :: i in level || i in applied ==> i < armed.Length)
    }

    function View(): Bank
      reads this, at, armed, armedLevel, hw
    {
      Bank(level, at[..], armed[..], armedLevel[..], applied, hw[..])
    }

    ghost function Target(i: nat): bool
      requires Valid() && i < armed.Length
      reads this, at, armed, armedLevel, hw
    {
      View().Target(i)
    }

    constructor (gates: nat)
      ensures Valid() && armed.Length == gates
      ensures View() == Opened(gates)
      ensures fresh(at) && fresh(armed) && fresh(armedLevel) && fresh(hw)
    {
      at := new nat[gates](_ => 0);
      armed := new bool[gates](_ => false);
      armedLevel := new bool[gates](_ => false);
      hw := new bool[gates](_ => false);
      level, applied := {}, {};
    }

    method GateSet(index: int, on: bool) returns (r: int)
      requires Valid()
      modifies this`level, armed
      ensures Valid()
      ensures r == if 0 <= index < armed.Length then 0 else -1
      ensures View() == Set(old(View()), index, on)
    {
      if index < 0 || index >= armed.Length { return -1; }
      armed[index] := false;
      level := WithBit(level, index, on);
      assert View() == Set(old(View()), index, on);
      return 0;
    }

    /** Reading the monotonic clock: any value. */
    method Now() returns (now: nat) {
      now := *;
    }

    method GateSetAt(index: int, on: bool, time: nat) returns (r: int, now: nat)
      requires Valid()
      modifies this`level, at, armed, armedLevel
      ensures Valid()
      ensures r == if 0 <= index < armed.Length then 0 else -1
      ensures View() == SetAt(old(View()), index, on, time, now)
    {
      now := Now();
      if index < 0 || index >= armed.Length { return -1, now; }
      if time <= now {
        r := GateSet(index, on);
        return r, now;
      }
      armed[index] := false;
      armedLevel[index] := on;
      at[index] := time;
      armed[index] := true;
      assert View().armed == old(View()).armed[index := true];
      return 0, now;
    }

    method ApplyGates(now: nat)
      requires Valid()
      modifies this`level, this`applied, armed, hw
      ensures Valid()
      ensures View() == Apply(old(View()), now)
    {
      ghost var g := View();
      var n, i := armed.Length, 0;
      while i < n
        invariant 0 <= i <= n && Valid() && applied == g.applied
        invariant hw[..] == g.hw
        invariant forall k :: 0 <= k < n ==> armed[k] == if k < i then g.armed[k] && !g.Due(k, now) else g.armed[k]
        invariant forall k: nat :: k in level <==>
                    if k < i && g.Due(k, now) then g.armedLevel[k] else k in g.level
      {
        if armed[i] {
          if now >= at[i] {
            level := WithBit(level, i, armedLevel[i]);
            armed[i] := false;
          }
        }
        i := i + 1;
      }
      var want := level;
      assert want == Apply(g, now).level;
      assert armed[..] == Apply(g, now).armed;
      if want == applied {
        assert hw[..] == Apply(g, now).hw;
        return;
      }
      i := 0;
      while i < n
        invariant 0 <= i <= n && Valid() && applied == g.applied && level == want
        invariant armed[..] == Apply(g, now).armed
        invariant forall k :: 0 <= k < n ==>
                    hw[k] == if k < i && (k in want) != (k in applied) then k in want else g.hw[k]
      {
        if (i in want) != (i in applied) {
          hw[i] := i in want;
        }
        i := i + 1;
      }
      assert hw[..] == Apply(g, now).hw;
      applied := want;
    }

    /** The sampling thread while the audio thread is between two calls: any
        number of applies at any clock readings. */
    method SamplerRuns() returns (ghost nows: seq<nat>)
      requires Valid()
      modifies this`level, this`applied, armed, hw
      ensures Valid()
      ensures View() == Applied(old(View()), nows)
    {
      nows := [];
      var rounds: int := *;
      while rounds > 0
        invariant Valid() && View() == Applied(old(View()), nows)
        decreases rounds
      {
        var now := Now();
        ApplyGates(now);
        nows := nows + [now];
        assert nows[..|nows| - 1] + [now] == nows;
        rounds := rounds - 1;
      }
    }

    /** The levels one channel of input asks for. */
    function Wants(a: array<real>, n: nat): (w: seq<bool>)
      requires n <= a.Length
      reads a
      ensures |w| == n
    {
      seq(n, f requires 0 <= f < n reads a => a[f] > 0.5)
    }

    method FollowFrame(ch: nat, cur: bool, want: bool, at_: nat) returns (ghost step: Around)
      requires Valid() && ch < armed.Length
      modifies this`level, this`applied, at, armed, armedLevel, hw
      ensures Valid()
      ensures View() == Frame(old(View()), ch, cur, want, at_, step)
    {
      ghost var nows := SamplerRuns();
      var now := 0;
      if want != cur {
        var _, clock := GateSetAt(ch, want, at_);
        now := clock;
      }
      step := Around(nows, now);
    }

    /** Follows one channel: a request at every frame whose side of 0.5 differs
        from the frame before. */
    method FollowChannel(ch: nat, t0: nat, nsPerFrame: real, nframes: nat, input: array<real>)
      returns (ghost env: seq<Around>)
      requires Valid() && ch < armed.Length && nsPerFrame >= 0.0 && nframes <= input.Length
      modifies this`level, this`applied, at, armed, armedLevel, hw
      ensures Valid()
      ensures |env| == nframes
      ensures View() == Follow(old(View()), ch, ch in old(level), old(Wants(input, nframes)), env, t0, nsPerFrame, 0)
      ensures forall f: nat, t: nat ::
                f < nframes && WholePart(Instant(t0, nsPerFrame, f), t)
                && Crosses(ch in old(level), old(Wants(input, nframes)), f)
                && Stays(old(Wants(input, nframes)), f, nframes) ==>
                  if armed[ch] then at[ch] == t && armedLevel[ch] == old(Wants(input, nframes))[f]
                  else (ch in level) == old(Wants(input, nframes))[f]
    {
      hide Instant, WholePart, Crosses, Stays, Follow, Frame, FrameTime, Applied;
      ghost var g0, wants := View(), Wants(input, nframes);
      var cur := ch in level;
      ghost var cur0 := cur;
      var f := 0;
      env := [];
      while f < nframes
        invariant 0 <= f <= nframes && Valid() && |env| == f
        invariant f > 0 ==> cur == wants[f - 1]
        invariant f == 0 ==> cur == cur0
        invariant Wants(input, nframes) == wants
        invariant View() == FollowTo(g0, ch, cur0, wants, env, t0, nsPerFrame)
      {
        var want := input[f] > 0.5;
        ghost var step := FollowFrame(ch, cur, want, FrameTime(t0, nsPerFrame, f));
        cur := want;
        assert (env + [step])[..f] == env && (env + [step])[f] == step;
        env := env + [step];
        f := f + 1;
      }
      FollowToIsFollow(g0, ch, cur0, wants, env, t0, nsPerFrame);
      hide FollowTo;
      LastCrossings(g0, ch, cur0, wants, env, t0, nsPerFrame);
    }

    /** One channel of a block that began with bank g, the sampling thread running
        up to the load of its level too. */
    method FollowInput(ghost g: Bank, ch: nat, t0: nat, nsPerFrame: real, nframes: nat, input: array<real>)
      requires Valid() && ch < armed.Length && nsPerFrame >= 0.0 && 0 < nframes <= input.Length
      requires g.Sized(armed.Length) && StillBound(g, View(), ch)
      modifies this`level, this`applied, at, armed, armedLevel, hw
      ensures Valid() && View().Sized(armed.Length)
      ensures Followed(g, View(), ch, t0, nsPerFrame, nframes, input)
      ensures forall c: nat :: c < armed.Length && c != ch ==> StillBound(old(View()), View(), c)
    {
      hide Follow, Applied, AllEqual, FrameTime;
      ghost var before := View();
      ghost var nows := SamplerRuns();
      SamplerKeepsBound(g, before, nows);
      SamplerKeepsBound(before, before, nows);
      ghost var was := View();
      ghost var env := FollowChannel(ch, t0, nsPerFrame, nframes, input);
      ghost var wants := Wants(input, nframes);
      FollowOthers(was, ch, ch in was.level, wants, env, t0, nsPerFrame, 0);
      FollowTarget(was, ch, ch in was.level, wants, env, t0, nsPerFrame, 0);
      NowFollowed(g, was, View(), ch, t0, nsPerFrame, nframes, input, wants);
      OthersStillBound(before, was, View(), ch);
    }

    /** `tt_gate_block`: a null entry leaves its gate alone. */
    method GateBlock(t0: nat, nsPerFrame: real, nframes: nat, input: seq<array?<real>>) returns (r: int)
      requires Valid()
      requires nsPerFrame >= 0.0
      requires forall ch :: 0 <= ch < |input| && input[ch] != null ==> input[ch].Length >= nframes
      modifies this`level, this`applied, at, armed, armedLevel, hw
      ensures Valid()
      ensures r == if input == [] || nframes == 0 then -1 else 0
      ensures r == -1 ==> View() == old(View())
      ensures r == 0 ==>
        forall ch: nat :: ch < armed.Length && (ch >= |input| || input[ch] == null) ==>
          Target(ch) == old(Target(ch))
      ensures r == 0 ==>
        forall ch: nat :: ch < armed.Length && ch < |input| && input[ch] != null ==>
          var last := input[ch][nframes - 1] > 0.5;
          && (!old(armed[ch]) ==> Target(ch) == last)
          && (Target(ch) == last
              || (&& Target(ch) == old(Target(ch))
                  && old(Target(ch)) != (ch in old(level))
                  && forall f :: 0 <= f < nframes ==> (input[ch][f] > 0.5) == (ch in old(level))))
          && (forall f: nat, t: nat ::
                LastCrosses(input[ch], nframes, f) && WholePart(Instant(t0, nsPerFrame, f), t) && armed[ch] ==>
                  at[ch] == t)
    {
      hide Instant, WholePart, LastCrosses;
      if input == [] || nframes == 0 { return -1; }
      var nc := if |input| < armed.Length then |input| else armed.Length;
      ghost var g := View();
      for ch := 0 to nc
        invariant Valid() && View().Sized(armed.Length)
        invariant forall c: nat :: c < armed.Length && (c >= ch || input[c] == null) ==> StillBound(g, View(), c)
        invariant forall c: nat :: c < ch && input[c] != null ==>
                    Followed(g, View(), c, t0, nsPerFrame, nframes, input[c])
      {
        if input[ch] != null {
          ghost var was := View();
          FollowInput(g, ch, t0, nsPerFrame, nframes, input[ch]);
          OthersStillBound(g, was, View(), ch);
          forall c: nat | c < ch && input[c] != null
            ensures Followed(g, View(), c, t0, nsPerFrame, nframes, input[c])
          {
            StillFollowed(g, was, View(), c, t0, nsPerFrame, nframes, input[c]);
          }
        }
      }
      forall ch: nat | ch < armed.Length && (ch >= |input| || input[ch] == null)
        ensures View().Target(ch) == g.Target(ch)
      {
        assert StillBound(g, View(), ch);
      }
      return 0;
    }
  }

  /** Gate i of `now` has the target it had in `was`; its pending change, if it
      has one, is the one it had, and if that has gone it has come into force. */
  ghost predicate StillBound(was: Bank, now: Bank, i: nat)
    requires was.Sized(|now.armed|) && now.Sized(|now.armed|) && i < |now.armed|
  {
    && now.Target(i) == was.Target(i)
    && (now.armed[i] ==> was.armed[i] && now.at[i] == was.at[i] && (i in now.level <==> i in was.level))
  }

  /** The input last crosses 0.5 at frame f. */
  predicate LastCrosses(input: array<real>, n: nat, f: nat)
    requires n <= input.Length
    reads input
  {
    && 0 < f < n && (input[f] > 0.5) != (input[f - 1] > 0.5)
    && forall k :: f <= k < n ==> (input[k] > 0.5) == (input[f] > 0.5)
  }

  /** Gate i after its input was followed from bank g: what it is bound for, and,
      when a change is still pending after a crossing inside the block, that it is
      pending for that crossing's own instant. */
  ghost predicate Followed(g: Bank, now: Bank, i: nat, t0: nat, p: real, n: nat, input: array<real>)
    requires g.Sized(|now.armed|) && now.Sized(|now.armed|) && i < |now.armed| && 0 < n <= input.Length
    reads input
  {
    var last := input[n - 1] > 0.5;
    && (!g.armed[i] ==> now.Target(i) == last)
    && (now.Target(i) == last
        || (&& now.Target(i) == g.Target(i) && g.Target(i) != (i in g.level)
            && forall f :: 0 <= f < n ==> (input[f] > 0.5) == (i in g.level)))
    && (forall f: nat, t: nat :: LastCrosses(input, n, f) && WholePart(Instant(t0, p, f), t) && now.armed[i] ==>
          now.at[i] == t)
  }

  lemma NowFollowed(g: Bank, was: Bank, now: Bank, i: nat, t0: nat, p: real, n: nat, input: array<real>,
                    wants: seq<bool>)
    requires g.Sized(|now.armed|) && was.Sized(|now.armed|) && now.Sized(|now.armed|)
    requires i < |now.armed| && StillBound(g, was, i)
    requires 0 < n <= input.Length && |wants| == n && forall f :: 0 <= f < n ==> wants[f] == (input[f] > 0.5)
    requires now.Target(i) == if AllEqual(wants, 0, i in was.level) then was.Target(i) else wants[n - 1]
    requires forall f: nat, t: nat ::
               f < n && WholePart(Instant(t0, p, f), t) && Crosses(i in was.level, wants, f) && Stays(wants, f, n) ==>
                 now.armed[i] ==> now.at[i] == t
    ensures Followed(g, now, i, t0, p, n, input)
  {
    hide Instant, WholePart;
    if AllEqual(wants, 0, i in was.level) { assert wants[n - 1] == (i in was.level); }
  }

  lemma StillFollowed(g: Bank, was: Bank, now: Bank, i: nat, t0: nat, p: real, n: nat, input: array<real>)
    requires g.Sized(|now.armed|) && was.Sized(|now.armed|) && now.Sized(|now.armed|)
    requires i < |now.armed| && 0 < n <= input.Length
    requires Followed(g, was, i, t0, p, n, input) && StillBound(was, now, i)
    ensures Followed(g, now, i, t0, p, n, input)
  {
    hide Instant, WholePart, LastCrosses;
  }

  lemma OthersStillBound(g: Bank, was: Bank, now: Bank, i: nat)
    requires g.Sized(|g.armed|) && was.Sized(|g.armed|) && now.Sized(|g.armed|)
    requires forall c: nat :: c < |g.armed| && c != i ==> StillBound(was, now, c)
    ensures forall c: nat :: c < |g.armed| && c != i && StillBound(g, was, c) ==> StillBound(g, now, c)
    ensures forall c: nat :: c < |g.armed| && c != i ==> now.Target(c) == was.Target(c)
  {
    forall c: nat | c < |g.armed| && c != i ensures now.Target(c) == was.Target(c) {
      assert StillBound(was, now, c);
    }
    forall c: nat | c < |g.armed| && c != i && StillBound(g, was, c) ensures StillBound(g, now, c) {
      assert StillBound(was, now, c);
    }
  }

  /** Applies and requests for one gate leave the others bound as they were. */
  lemma {:induction false} FollowOthers(g: Bank, i: nat, cur: bool, wants: seq<bool>, env: seq<Around>,
                                        t0: nat, p: real, f: nat)
    requires g.Sized(|g.armed|) && f <= |wants| == |env| && p >= 0.0
    ensures forall c: nat :: c < |g.armed| && c != i ==>
              StillBound(g, Follow(g, i, cur, wants, env, t0, p, f), c)
    decreases |wants| - f
  {
    if f < |wants| {
      var g1 := Applied(g, env[f].applies);
      AppliedOthers(g, env[f].applies);
      var g2 := Frame(g, i, cur, wants[f], FrameTime(t0, p, f), env[f]);
      FollowOthers(g2, i, wants[f], wants, env, t0, p, f + 1);
      var r := Follow(g2, i, wants[f], wants, env, t0, p, f + 1);
      forall c: nat | c < |g.armed| && c != i ensures StillBound(g, r, c) {
        assert StillBound(g, g1, c) && StillBound(g2, r, c);
      }
    }
  }

  lemma {:induction false} AppliedOthers(g: Bank, nows: seq<nat>)
    requires g.Sized(|g.armed|)
    ensures forall c: nat :: c < |g.armed| ==> StillBound(g, Applied(g, nows), c)
  {
    if nows != [] {
      var n := |nows| - 1;
      AppliedOthers(g, nows[..n]);
      var g0 := Applied(g, nows[..n]);
      forall c: nat | c < |g.armed| ensures StillBound(g, Apply(g0, nows[n]), c) {
        assert StillBound(g, g0, c);
      }
    }
  }

  /** Applies keep every gate bound as it was. */
  lemma SamplerKeepsBound(g: Bank, was: Bank, nows: seq<nat>)
    requires g.Sized(|g.armed|) && was.Sized(|g.armed|)
    ensures forall c: nat :: c < |g.armed| && StillBound(g, was, c) ==> StillBound(g, Applied(was, nows), c)
    ensures forall c: nat :: c < |g.armed| ==> Applied(was, nows).Target(c) == was.Target(c)
  {
    AppliedOthers(was, nows);
    var now := Applied(was, nows);
    forall c: nat | c < |g.armed| ensures now.Target(c) == was.Target(c) {
      assert StillBound(was, now, c);
    }
    forall c: nat | c < |g.armed| && StillBound(g, was, c) ensures StillBound(g, now, c) {
      assert StillBound(was, now, c);
    }
  }
}
