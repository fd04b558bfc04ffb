/** The reader that renders CV blocks while the producer goes on pushing:
    `tt_cv_block`, `fill_last` and `tt_set_cv_smoothing` of src/tt_core.c. */
module CvReader {
  import opened Calibration
  import opened CvRender
  import opened Frames
  import opened ScanRing
  import opened Scans
  import opened ScanRingSteps
  import opened Smoothing
  import opened Trigger

  /** A channel has been rendered to the end of raw, starting with filter state
      z0: its filter state is z and, when requested, a holds its samples. */
  ghost predicate Rendered(z0: real, coef: real, raw: seq<real>, z: real, a: array?<real>)
    reads a
  {
    && z == (if coef > 0.0 then Smooth(z0, coef, raw) else z0)
    && (a != null ==> |raw| <= a.Length && a[..|raw|] == Shown(z0, coef, raw))
  }

  /** The buffers of the requested channels, apart from the reader's own. */
  ghost predicate Separate(out: seq<array?<real>>, n: nat, z: array<real>, last: array<real>) {
    Buffers(out, n) && z !in out && last !in out && z != last
  }

  class CvReader {
    const ring: CvRing
    const numCv: nat
    const smoothZ: array<real>
    const lastV: array<real>
    var cal: Cal
    var smoothHz: real
    var primed: bool

    ghost predicate Valid()
      reads this, ring, ring.buf
    {
      && ring.Valid() && numCv <= MAX_CV
      && smoothZ.Length == lastV.Length == MAX_CV && smoothZ != lastV
    }

    function View(): Carry
      reads this, smoothZ, lastV
    {
      Carry(smoothZ[..], primed, lastV[..])
    }

    constructor (ring: CvRing, numCv: nat, cal: Cal)
      requires ring.Valid() && numCv <= MAX_CV
      ensures Valid() && this.ring == ring && this.numCv == numCv && this.cal == cal
      ensures smoothHz == 0.0 && !primed
      ensures forall ch :: 0 <= ch < MAX_CV ==> lastV[ch] == 0.0
      ensures fresh(smoothZ) && fresh(lastV)
    {
      this.ring, this.numCv, this.cal := ring, numCv, cal;
      smoothZ := new real[MAX_CV](_ => 0.0);
      lastV := new real[MAX_CV](_ => 0.0);
      smoothHz, primed := 0.0, false;
    }

    /** A change of cutoff restarts the filter from the next block's first scan. */
    method SetSmoothing(cutoffHz: real)
      modifies this`smoothHz, this`primed
      ensures smoothHz == if cutoffHz < 0.0 then 0.0 else cutoffHz
      ensures !primed
    {
      smoothHz := if cutoffHz < 0.0 then 0.0 else cutoffHz;
      primed := false;
    }

    /** No data: every requested buffer repeats the last known value. */
    method FillLast(out: seq<array?<real>>, nframes: nat)
      requires Valid() && Separate(out, nframes, smoothZ, lastV)
      modifies Targets(out)
      ensures forall ch, f :: 0 <= ch < |out| && out[ch] != null && 0 <= f < nframes ==>
                out[ch][f] == if ch < numCv then lastV[ch] else 0.0
    {
      for ch := 0 to |out|
        invariant forall c, f :: 0 <= c < ch && out[c] != null && 0 <= f < nframes ==>
                    out[c][f] == if c < numCv then lastV[c] else 0.0
      {
        if out[ch] != null { Paint(out[ch], 0, nframes, if ch < numCv then lastV[ch] else 0.0); }
      }
    }

    function Channels(n: nat): nat {
      if n < numCv then n else numCv
    }

    /** Where a block starts reading: one slot short of the whole ring. After one
        more push this scan can still be read, though perhaps torn. */
    function Oldest(w: nat): nat
      reads ring`size
    {
      if w > ring.size then w - ring.size + 1 else 0
    }

    /** The block rendered from a given history. */
    function BlockOf(cal: Cal, h: seq<Scan>, t0: nat, p: real, n: nat, smoothCoef: real): Block
      reads this`smoothHz, ring`size
    {
      var smoothing := smoothHz > 0.0 && p > 0.0;
      Block(cal, h, Oldest(|h|), t0, p, n, smoothing, if smoothing then smoothCoef else 0.0)
    }

    /** Channel values of one scan, for the first nc channels. */
    function ScanToVolts(s: Scan, nc: nat): (v: seq<real>)
      requires nc <= MAX_CV
      reads this
      ensures |v| == nc
    {
      var k := cal;
      seq(nc, ch requires 0 <= ch < nc => Volts(k, s, ch))
    }

    /** The channels' values at time t between the bracketing pair. */
    function Interpolated(c: Cursor, t: real, nc: nat): (v: seq<real>)
      requires nc <= MAX_CV
      reads this
      ensures |v| == nc
      ensures forall ch :: 0 <= ch < nc ==> v[ch] == Blended(cal, c.a, c.b, t, ch)
    {
      var va, vb, q := ScanToVolts(c.a, nc), ScanToVolts(c.b, nc), Fraction(c.a, c.b, t);
      seq(nc, ch requires 0 <= ch < nc => va[ch] + q * (vb[ch] - va[ch]))
    }

    /** Reads one scan while the producer may be pushing. */
    method Fetch(idx: nat) returns (ok: bool, s: Scan)
      requires Valid()
      modifies ring`widx, ring`pushing, ring`history, ring.buf
      ensures Valid() && ring.Onward()
      ensures ok ==> ring.Read(s, idx)
      ensures !ok ==> idx >= |old(ring.history)| || |ring.history| - idx > ring.size
    {
      hide CvRing.Valid;
      var g;
      g, s := ring.Get(idx);
      ok := g == 0;
    }

    /** The scan bracketing the block's start. */
    method First(lo: nat, w: nat, t0: nat) returns (ok: bool, idx: nat, a: Scan)
      requires Valid() && lo < w == |ring.history|
      modifies ring`widx, ring`pushing, ring`history, ring.buf
      ensures Valid() && ring.Onward()
      ensures ok ==> lo <= idx < w
      ensures !ok ==> !NotLapped(ring.history, lo, ring.size)
      ensures ok ==> ring.Read(a, idx)
      ensures ok && InReach(ring.history, idx, ring.size) && NonDecreasing(ring.history) ==>
                idx == Lookup(old(ring.history), lo, w, t0 as real)
    {
      hide Lookup, CvRing.Valid;
      ghost var h := ring.history;
      a := Scan(0, NO_CODES);
      var found;
      found, idx := ring.Find(lo, w, t0);
      ok := false;
      if found >= 0 {
        if NonDecreasing(ring.history) && InReach(ring.history, idx, ring.size) {
          LookupBrackets(h, lo, w, t0 as real, idx);
        }
        ok, a := Fetch(idx);
      }
    }

    /** The scan after idx, when there is one to be had. */
    method Following(idx: nat, a: Scan, w: nat) returns (c: Cursor)
      requires Valid() && idx < w <= |ring.history| && ring.Read(a, idx)
      modifies ring`widx, ring`pushing, ring`history, ring.buf
      ensures Valid() && ring.Onward()
      ensures c.idx == idx && c.a == a && ring.Read(a, idx)
      ensures c.haveB ==> idx + 1 < w && ring.Read(c.b, idx + 1)
      ensures !c.haveB ==> c.b == a && (idx + 1 < w ==> |ring.history| - idx - 1 > ring.size)
    {
      c := Cursor(idx, a, false, a);
      if idx + 1 < w {
        var ok, nb := Fetch(idx + 1);
        if ok { c := Cursor(idx, a, true, nb); }
      }
    }

    /** The scan at the block's start and the one after it. */
    method Bracket(lo: nat, w: nat, t0: nat) returns (ok: bool, c: Cursor)
      requires Valid() && lo < w == |ring.history|
      modifies ring`widx, ring`pushing, ring`history, ring.buf
      ensures Valid() && ring.Onward()
      ensures ok ==> c.Fits(old(ring.history), lo, ring.history, ring.size, ring.pushing)
      ensures !ok ==> !NotLapped(ring.history, lo, ring.size)
      ensures ok && InReach(ring.history, c.idx, ring.size) && NonDecreasing(ring.history) ==>
                c.idx == Lookup(old(ring.history), lo, w, t0 as real)
    {
      hide Lookup, CvRing.Valid;
      c := Cursor(0, Scan(0, NO_CODES), false, Scan(0, NO_CODES));
      var idx, a;
      ok, idx, a := First(lo, w, t0);
      if ok { c := Following(idx, a, w); }
    }

    /** Moves the bracketing pair forward until it encloses t or reaches the
        newest scan. */
    method Advance(ghost h: seq<Scan>, ghost lo: nat, w: nat, start: Cursor, t: real) returns (c: Cursor)
      requires Valid() && h <= ring.history && w == |h| && start.Fits(h, lo, ring.history, ring.size, ring.pushing)
      modifies ring`widx, ring`pushing, ring`history, ring.buf
      ensures Valid() && ring.Onward() && c.Fits(h, lo, ring.history, ring.size, ring.pushing)
      ensures InReach(ring.history, start.idx, ring.size) && start.idx <= Lookup(h, lo, w, t)
              && NonDecreasing(h) ==>
                c.idx == Lookup(h, lo, w, t)
      ensures Leads(start, c, t)
    {
      hide CvRing.Valid, Copied, Mixture;
      c := start;
      LookupHolds(h, lo, w, t);
      while c.haveB && c.b.t as real <= t
        invariant Valid() && ring.Onward() && h <= ring.history
        invariant c.Fits(h, lo, ring.history, ring.size, ring.pushing)
        invariant InReach(ring.history, start.idx, ring.size) && start.idx <= Lookup(h, lo, w, t) ==>
                    c.idx <= Lookup(h, lo, w, t)
        invariant start.idx <= c.idx && (start.idx < c.idx ==> c.a.t as real <= t)
        decreases w - c.idx
      {
        var a, idx := c.b, c.idx + 1;
        c := Following(idx, a, w);
      }
    }

    /** The filter starts on the first scan of the first smoothed block. */
    method Prime(values: seq<real>)
      requires Valid() && |values| <= MAX_CV
      modifies this`primed, smoothZ
      ensures primed
      ensures forall ch :: 0 <= ch < MAX_CV ==>
                smoothZ[ch] == if ch < |values| && !old(primed) then values[ch] else old(smoothZ[ch])
    {
      if !primed {
        for ch := 0 to |values|
          invariant primed == old(primed)
          invariant forall c :: 0 <= c < MAX_CV ==> smoothZ[c] == if c < ch then values[c] else old(smoothZ[c])
        {
          smoothZ[ch] := values[ch];
        }
        primed := true;
      }
    }

    /** Decides whether this block is smoothed and, if so, primes the filter. */
    method StartFilter(ghost b: Block, p: real, smoothCoef: real, nc: nat, start: Cursor) returns (coef: real)
      requires Valid() && nc <= MAX_CV && b.Valid()
      requires b == BlockOf(cal, b.h, b.t0, p, b.n, smoothCoef)
      modifies this`primed, smoothZ
      ensures coef == b.coef && primed == (old(primed) || b.smoothing)
      ensures start.On(b.h, b.lo) && start.idx == b.First() ==> b.Primed(old(View()), nc, smoothZ[..])
      ensures forall ch :: 0 <= ch < MAX_CV ==>
                smoothZ[ch] == if ch < nc then b.From(old(View()), start.a, ch) else old(smoothZ[ch])
    {
      coef := 0.0;
      if smoothHz > 0.0 && p > 0.0 {
        coef := smoothCoef;
        Prime(ScanToVolts(start.a, nc));
      }
    }

    /** Writes frame f of every channel and lets the filter take one step. */
    method RenderFrame(f: nat, n: nat, nc: nat, values: seq<real>, coef: real, out: seq<array?<real>>)
      requires Valid() && Separate(out, n, smoothZ, lastV)
      requires f < n && nc <= MAX_CV && nc <= |out| && |values| == nc
      modifies smoothZ, lastV, Targets(out)
      ensures forall ch :: 0 <= ch < MAX_CV ==>
                smoothZ[ch] == if ch < nc && coef > 0.0
                               then old(smoothZ[ch]) + coef * (values[ch] - old(smoothZ[ch])) else old(smoothZ[ch])
      ensures forall ch :: 0 <= ch < nc && out[ch] != null ==>
                out[ch][f] == if coef > 0.0 then smoothZ[ch] else values[ch]
      ensures forall ch, k :: 0 <= ch < |out| && out[ch] != null && 0 <= k < out[ch].Length && (k != f || ch >= nc) ==>
                out[ch][k] == old(out[ch][k])
      ensures forall ch :: 0 <= ch < MAX_CV ==>
                lastV[ch] == if ch < nc && f + 1 == n
                             then (if coef > 0.0 then smoothZ[ch] else values[ch]) else old(lastV[ch])
    {
      for ch := 0 to nc
        invariant forall c :: 0 <= c < MAX_CV ==>
                    smoothZ[c] == if c < ch && coef > 0.0
                                  then old(smoothZ[c]) + coef * (values[c] - old(smoothZ[c])) else old(smoothZ[c])
        invariant forall c :: 0 <= c < ch && out[c] != null ==>
                    out[c][f] == if coef > 0.0 then smoothZ[c] else values[c]
        invariant forall c, k :: 0 <= c < |out| && out[c] != null && 0 <= k < out[c].Length && (k != f || c >= ch) ==>
                    out[c][k] == old(out[c][k])
        invariant forall c :: 0 <= c < MAX_CV ==>
                    lastV[c] == if c < ch && f + 1 == n
                                then (if coef > 0.0 then smoothZ[c] else values[c]) else old(lastV[c])
      {
        var v := values[ch];
        if coef > 0.0 {
          smoothZ[ch] := smoothZ[ch] + coef * (v - smoothZ[ch]);
          v := smoothZ[ch];
        }
        if out[ch] != null { out[ch][f] := v; }
        if f + 1 == n { lastV[ch] := v; }
      }
    }

    /** What frames [0, f) have done, channel by channel: raws are the unsmoothed
        samples so far and z0 the filter states before the first frame. */
    ghost predicate Progress(out: seq<array?<real>>, nc: nat, f: nat, coef: real, raws: seq<seq<real>>, z0: seq<real>)
      requires smoothZ.Length == |z0| == MAX_CV && |raws| == nc <= MAX_CV && nc <= |out|
      reads smoothZ, Targets(out)
    {
      && (forall ch :: 0 <= ch < nc ==> |raws[ch]| == f && Rendered(z0[ch], coef, raws[ch], smoothZ[ch], out[ch]))
      && forall ch :: nc <= ch < MAX_CV ==> smoothZ[ch] == z0[ch]
    }

    lemma NothingRendered(out: seq<array?<real>>, nc: nat, coef: real, raws: seq<seq<real>>)
      requires smoothZ.Length == MAX_CV && nc <= MAX_CV && nc <= |out| && raws == seq(nc, _ => [])
      ensures Progress(out, nc, 0, coef, raws, smoothZ[..])
    {}

    /** The bracketing pair and the raw values for frame f. */
    method AimFrame(ghost b: Block, w: nat, t: real, nc: nat, c: Cursor, ghost f: nat, ghost raws: seq<seq<real>>)
      returns (end: Cursor, values: seq<real>)
      requires t == FrameAt(b.t0, b.p, f) && |b.h| == w
      requires Valid() && b.Valid() && b.h <= ring.history && b.cal == cal && nc <= MAX_CV
      requires c.Fits(b.h, b.lo, ring.history, ring.size, ring.pushing) && |raws| == nc
      modifies ring`widx, ring`pushing, ring`history, ring.buf
      ensures Valid() && ring.Onward() && |values| == nc
      ensures end.Fits(b.h, b.lo, ring.history, ring.size, ring.pushing)
      ensures b.Steady(b.First(), ring.history, ring.size) && b.Tracks(f, c, raws) ==>
                b.Tracks(f + 1, end, seq(nc, ch requires 0 <= ch < nc => raws[ch] + [values[ch]]))
      ensures Leads(c, end, t)
      ensures forall ch :: 0 <= ch < nc ==> values[ch] == Blended(b.cal, end.a, end.b, t, ch)
      ensures forall ch :: 0 <= ch < nc ==> OnLine(b.cal[ch], end.a, end.b, ch, t, values[ch])
    {
      hide Lookup, Raw, FrameAt, Blended, OnLine, NonDecreasing, Cursor.Fits, CvRing.Valid;
      if b.p >= 0.0 {
        FrameMono(b.t0, b.p, f);
        LookupMono(b.h, b.lo, |b.h|, b.Previous(f), t);
        b.NoEarlier(f);
      }
      end := Advance(b.h, b.lo, w, c, t);
      values := Interpolated(end, t, nc);
      forall ch | 0 <= ch < nc ensures OnLine(b.cal[ch], end.a, end.b, ch, t, values[ch]) {
        BlendedOnLine(b.cal, end.a, end.b, t, ch);
      }
      if b.Steady(b.First(), ring.history, ring.size) && b.Tracks(f, c, raws) {
        FitsInReach(end, b.h, b.lo, ring.history, ring.size, ring.pushing);
        b.TracksOn(f, c, end, raws, values);
      }
    }

    /** Stores frame f and accounts for it. */
    method StoreFrame(nc: nat, f: nat, n: nat, coef: real, values: seq<real>, out: seq<array?<real>>,
                      ghost raws: seq<seq<real>>, ghost z0: seq<real>)
      returns (ghost raws': seq<seq<real>>)
      requires Valid() && Separate(out, n, smoothZ, lastV) && nc <= MAX_CV && nc <= |out| && f < n
      requires |values| == |raws| == nc && |z0| == MAX_CV && Progress(out, nc, f, coef, raws, z0)
      modifies smoothZ, lastV, Targets(out)
      ensures raws' == seq(nc, ch requires 0 <= ch < nc => raws[ch] + [values[ch]])
      ensures Progress(out, nc, f + 1, coef, raws', z0)
      ensures forall ch :: 0 <= ch < MAX_CV ==>
                lastV[ch] == if ch < nc && f + 1 == n then Shown(z0[ch], coef, raws'[ch])[f] else old(lastV[ch])
      ensures forall ch, k :: nc <= ch < |out| && out[ch] != null && 0 <= k < out[ch].Length ==>
                out[ch][k] == old(out[ch][k])
    {
      hide Shown, Smooth;
      RenderFrame(f, n, nc, values, coef, out);
      raws' := seq(nc, ch requires 0 <= ch < nc => raws[ch] + [values[ch]]);
      forall ch | 0 <= ch < nc
        ensures Rendered(z0[ch], coef, raws'[ch], smoothZ[ch], out[ch])
        ensures |raws'[ch]| == f + 1
        ensures Shown(z0[ch], coef, raws'[ch])[f] == if coef > 0.0 then smoothZ[ch] else values[ch]
      {
        ShownSnoc(z0[ch], coef, raws[ch], values[ch]);
        if out[ch] != null {
          assert out[ch][..f + 1] == old(out[ch][..f]) + [out[ch][f]];
        }
      }
    }

    /** The frame loop: advance, interpolate, filter, store. */
    method RenderFrames(ghost b: Block, w: nat, t0: nat, p: real, n: nat, coef: real,
                        nc: nat, start: Cursor, out: seq<array?<real>>)
      returns (ghost raws: seq<seq<real>>, end: Cursor, ghost path: seq<Cursor>)
      requires b.t0 == t0 && b.p == p && b.n == n && b.coef == coef && |b.h| == w
      requires Valid() && b.Valid() && b.h <= ring.history && b.cal == cal
      requires start.Fits(b.h, b.lo, ring.history, ring.size, ring.pushing)
      requires Separate(out, b.n, smoothZ, lastV) && nc <= MAX_CV && nc <= |out|
      modifies ring`widx, ring`pushing, ring`history, ring.buf, smoothZ, lastV, Targets(out)
      ensures Valid() && ring.Onward()
      ensures |raws| == nc && Progress(out, nc, b.n, b.coef, raws, old(smoothZ[..]))
      ensures |path| == b.n && b.Walks(start, path) && b.Fit(path, ring.history, ring.size, ring.pushing)
      ensures forall ch :: 0 <= ch < nc ==> raws[ch] == b.Along(path, ch)
      ensures forall ch :: 0 <= ch < MAX_CV ==>
                lastV[ch] == if ch < nc then Shown(old(smoothZ[ch]), b.coef, raws[ch])[b.n - 1] else old(lastV[ch])
      ensures b.Steady(b.First(), ring.history, ring.size) && b.Tracks(0, start, seq(nc, _ => [])) ==>
                b.Tracks(b.n, end, raws)
      ensures forall ch, k :: nc <= ch < |out| && out[ch] != null && 0 <= k < out[ch].Length ==>
                out[ch][k] == old(out[ch][k])
    {
      hide Shown, Smooth, Raw, Lookup, ValueAt, Rendered, Block.Tracks, NonDecreasing, Block.Walks,
           Block.Along, Blended, Progress, Cursor.Fits, Block.Fit, Leads, CvRing.Valid;
      end := start;
      raws := seq(nc, _ => []);
      path := [];
      b.NoPath(start, ring.history, ring.size, ring.pushing);
      var f := 0;
      NothingRendered(out, nc, b.coef, raws);
      while f < n
        invariant 0 <= f <= b.n && Valid() && ring.Onward()
        invariant end.Fits(b.h, b.lo, ring.history, ring.size, ring.pushing)
        invariant b.Fit(path, ring.history, ring.size, ring.pushing)
        invariant |raws| == nc && Progress(out, nc, f, b.coef, raws, old(smoothZ[..]))
        invariant |path| == f && b.Walks(start, path) && end == if f == 0 then start else path[f - 1]
        invariant forall ch :: 0 <= ch < nc ==> raws[ch] == b.Along(path, ch)
        invariant forall ch :: 0 <= ch < MAX_CV ==>
                    lastV[ch] == if ch < nc && f == b.n then Shown(old(smoothZ[ch]), b.coef, raws[ch])[f - 1]
                                 else old(lastV[ch])
        invariant b.Steady(b.First(), ring.history, ring.size) && b.Tracks(0, start, seq(nc, _ => [])) ==>
                    b.Tracks(f, end, raws)
        invariant forall ch, k :: nc <= ch < |out| && out[ch] != null && 0 <= k < out[ch].Length ==>
                    out[ch][k] == old(out[ch][k])
      {
        ghost var before, way, known, then_ := raws, path, ring.history, ring.pushing;
        var values;
        end, values := AimFrame(b, w, FrameAt(t0, p, f), nc, end, f, raws);
        path := path + [end];
        b.FitLater(way, end, known, then_, ring.history, ring.pushing, ring.size);
        raws := StoreFrame(nc, f, n, coef, values, out, raws, old(smoothZ[..]));
        b.PathGrows(start, way, end, nc, before, values, raws);
        f := f + 1;
      }
    }

    /** Output and state are the filter's response to the samples along a path. */
    ghost predicate Follows(out: seq<array?<real>>, nc: nat, b: Block, c: Carry, s: Scan, path: seq<Cursor>)
      requires smoothZ.Length == lastV.Length == |c.z| == |c.last| == MAX_CV && nc <= MAX_CV && nc <= |out|
      requires |path| == b.n > 0
      reads this, smoothZ, lastV, Targets(out)
    {
      && primed == (c.primed || b.smoothing)
      && forall ch :: 0 <= ch < MAX_CV ==>
           if ch < nc then
             && Rendered(b.From(c, s, ch), b.coef, b.Along(path, ch), smoothZ[ch], out[ch])
             && lastV[ch] == Shown(b.From(c, s, ch), b.coef, b.Along(path, ch))[b.n - 1]
           else smoothZ[ch] == c.z[ch] && lastV[ch] == c.last[ch]
    }

    lemma FollowsPath(out: seq<array?<real>>, nc: nat, b: Block, c: Carry, s: Scan, path: seq<Cursor>,
                      raws: seq<seq<real>>, z0: seq<real>)
      requires smoothZ.Length == lastV.Length == |c.z| == |c.last| == |z0| == MAX_CV && nc <= MAX_CV && nc <= |out|
      requires |path| == b.n > 0 && |raws| == nc && Progress(out, nc, b.n, b.coef, raws, z0)
      requires primed == (c.primed || b.smoothing)
      requires forall ch :: 0 <= ch < nc ==> raws[ch] == b.Along(path, ch)
      requires forall ch :: 0 <= ch < MAX_CV ==> z0[ch] == if ch < nc then b.From(c, s, ch) else c.z[ch]
      requires forall ch :: 0 <= ch < MAX_CV ==>
                 lastV[ch] == if ch < nc then Shown(z0[ch], b.coef, raws[ch])[b.n - 1] else c.last[ch]
      ensures Follows(out, nc, b, c, s, path)
    {
      hide Rendered, Shown, Block.Along, Block.From;
    }

    /** The block from its bracketing pair on: prime the filter, run the frames. */
    method RenderFrom(ghost b: Block, w: nat, t0: nat, p: real, n: nat, smoothCoef: real,
                      nc: nat, start: Cursor, out: seq<array?<real>>)
      returns (ghost advances: nat, ghost path: seq<Cursor>)
      requires Valid() && Separate(out, n, smoothZ, lastV) && nc <= MAX_CV && nc <= |out|
      requires b.Valid() && b.h <= ring.history && |b.h| == w
      requires start.Fits(b.h, b.lo, ring.history, ring.size, ring.pushing)
      requires b == BlockOf(cal, b.h, t0, p, n, smoothCoef)
      modifies this`primed, ring`widx, ring`pushing, ring`history, ring.buf, smoothZ, lastV, Targets(out)
      ensures Valid() && ring.Onward() && cal == old(cal)
      ensures forall ch, k :: nc <= ch < |out| && out[ch] != null && 0 <= k < out[ch].Length ==>
                out[ch][k] == old(out[ch][k])
      ensures b.Steady(start.idx, ring.history, ring.size) && start.idx == b.First() ==>
                && View() == b.After(old(View()), nc)
                && (forall ch :: 0 <= ch < nc && out[ch] != null ==> out[ch][..n] == b.Samples(old(View()), ch))
                && advances == Lookup(b.h, b.lo, w, b.Previous(n)) - start.idx
      ensures |path| == n && b.Walks(start, path) && b.Fit(path, ring.history, ring.size, ring.pushing)
      ensures Follows(out, nc, b, old(View()), start.a, path)
    {
      hide Shown, Smooth, Raw, Lookup, NonDecreasing, Follows, Span, Block.After, Block.Samples,
           Block.Start, Block.Primed, Block.From, Block.Walks, Block.Along, Block.Fit, Cursor.Fits, CvRing.Valid, Later;
      ghost var c := View();
      ghost var begun := ring.history;
      if InReach(begun, start.idx, ring.size) {
        FitsInReach(start, b.h, b.lo, begun, ring.size, ring.pushing);
      }
      var coef := StartFilter(b, p, smoothCoef, nc, start);
      ghost var z0 := smoothZ[..];
      ghost var raws;
      var end;
      raws, end, path := RenderFrames(b, w, t0, p, n, coef, nc, start, out);
      LaterLonger(begun, old(ring.pushing), ring.history, ring.pushing);
      advances := if end.idx >= start.idx then end.idx - start.idx else 0;
      if b.Steady(start.idx, ring.history, ring.size) && start.idx == b.First() {
        b.NoEarlier(n);
        b.Lands(c, nc, z0, raws, smoothZ[..], lastV[..]);
      }
      FollowsPath(out, nc, b, c, start.a, path, raws, z0);
    }

    /** What a block rendered from carried state c comes to. Always: the output is
        the filter's response to the samples along one forward path, each read as
        a scan of the block's history, torn at most where that was a whole ring
        behind. And when the producer has stayed less than a ring ahead of the
        scan the block starts on, that path is the one of an independent lookup
        per frame. */
    ghost predicate Produced(b: Block, c: Carry, nc: nat, out: seq<array?<real>>, advances: nat,
                             start: Cursor, path: seq<Cursor>)
      requires b.Valid() && smoothZ.Length == lastV.Length == |c.z| == |c.last| == MAX_CV && nc <= MAX_CV && nc <= |out|
      requires forall ch :: 0 <= ch < nc && out[ch] != null ==> b.n <= out[ch].Length
      reads this, ring, smoothZ, lastV, Targets(out)
    {
      && start.Fits(b.h, b.lo, ring.history, ring.size, ring.pushing)
      && b.Fit(path, ring.history, ring.size, ring.pushing)
      && |path| == b.n && b.Walks(start, path)
      && Follows(out, nc, b, c, start.a, path)
      && (NonDecreasing(ring.history) && b.Steady(start.idx, ring.history, ring.size) ==>
            && start.idx == b.First()
            && View() == b.After(c, nc)
            && (forall ch :: 0 <= ch < nc && out[ch] != null ==> out[ch][..b.n] == b.Samples(c, ch))
            && advances == Lookup(b.h, b.lo, |b.h|, b.Previous(b.n)) - b.First())
    }

    /** Where every sample of a block comes from, in codes, calibration and time:
        the line between the two scans that bracket the frame's instant, or, when
        smoothed, a step of coef towards it from the sample before. */
    lemma ProducedOnLine(b: Block, c: Carry, nc: nat, out: seq<array?<real>>, advances: nat,
                         start: Cursor, path: seq<Cursor>, ch: nat, f: nat, i: nat)
      requires b.Valid() && smoothZ.Length == lastV.Length == |c.z| == |c.last| == MAX_CV && nc <= MAX_CV && nc <= |out|
      requires forall k :: 0 <= k < nc && out[k] != null ==> b.n <= out[k].Length
      requires Produced(b, c, nc, out, advances, start, path) && ch < nc && out[ch] != null
      requires NonDecreasing(ring.history) && b.Steady(start.idx, ring.history, ring.size)
      requires f < b.n && Brackets(b.h, b.lo, b.t0 as real + b.p * f as real, i)
      ensures start.idx < |b.h|
      ensures var next := if i + 1 < |b.h| then b.h[i + 1] else b.h[i];
              var was := if f > 0 then out[ch][f - 1]
                         else if c.primed then c.z[ch]
                         else (b.h[start.idx].raw[ch] as real - b.cal[ch].offset) * b.cal[ch].scale;
              OnLine(b.cal[ch], b.h[i], next, ch, b.t0 as real + b.p * f as real,
                     if b.coef > 0.0 then was + (out[ch][f] - was) / b.coef else out[ch][f])
    {
      hide OnLine, Shown, Smooth, Raw, Lookup, Follows, Block.Fit, Cursor.Fits, Block.Walks, Block.After, Block.Samples;
      var ys, raw := b.Samples(c, ch), Raw(b.cal, b.h, b.lo, b.t0, b.p, b.n, ch);
      assert forall k :: 0 <= k < b.n ==> out[ch][k] == out[ch][..b.n][k] == ys[k];
      var z := FilterStart(c, b.cal, b.h, b.lo, b.t0, ch);
      assert z == if c.primed then c.z[ch]
                  else (b.h[start.idx].raw[ch] as real - b.cal[ch].offset) * b.cal[ch].scale;
      RawOnLine(b, ch, f, i);
      SampleStep(b, c, ch, f);
      if b.coef > 0.0 { Undone(b.coef, if f > 0 then ys[f - 1] else z, raw[f], ys[f]); }
    }

    lemma Undone(k: real, was: real, x: real, y: real)
      requires k > 0.0 && y == was + k * (x - was)
      ensures was + (y - was) / k == x
    {
      assert k * (x - was) / k == x - was;
    }

    /** No glitch: whatever the producer did meanwhile, every sample lies within
        the range of the scans pushed and of the state carried on from. */
    lemma ProducedInRange(b: Block, c: Carry, nc: nat, out: seq<array?<real>>, advances: nat,
                          start: Cursor, path: seq<Cursor>, ch: nat, x: real, y: real)
      requires b.Valid() && smoothZ.Length == lastV.Length == |c.z| == |c.last| == MAX_CV && nc <= MAX_CV && nc <= |out|
      requires forall i :: 0 <= i < nc && out[i] != null ==> b.n <= out[i].Length
      requires Produced(b, c, nc, out, advances, start, path) && ch < nc && out[ch] != null && 0.0 <= b.coef < 1.0
      requires InRange(b.cal, ch, ring.history, b.lo, ring.pushing, x, y)
      requires b.coef > 0.0 && c.primed ==> x <= c.z[ch] <= y
      ensures forall f :: 0 <= f < b.n ==> x <= out[ch][f] <= y
    {
      hide Shown, Smooth, InRange, Block.Fit, Cursor.Fits, Block.From, Block.Along, Block.After, Block.Samples,
           Block.Walks, Block.First, Lookup;
      forall f | 0 <= f < b.n ensures x <= out[ch][f] <= y {
        b.PathInRange(path, start, c, ch, ring.history, ring.size, ring.pushing, x, y, f);
        assert out[ch][f] == out[ch][..b.n][f];
      }
    }

    /** A block from a ring that holds at least one scan. */
    method RenderScans(ghost b: Block, w: nat, t0: nat, p: real, n: nat, smoothCoef: real,
                       nc: nat, out: seq<array?<real>>)
      returns (ok: bool, ghost advances: nat, ghost start: Cursor, ghost path: seq<Cursor>)
      requires Valid() && Separate(out, n, smoothZ, lastV) && nc <= MAX_CV && nc <= |out|
      requires b.Valid() && b.h == ring.history && |b.h| == w && b == BlockOf(cal, b.h, t0, p, n, smoothCoef)
      modifies this`primed, ring`widx, ring`pushing, ring`history, ring.buf, smoothZ, lastV, Targets(out)
      ensures Valid() && ring.Onward() && cal == old(cal)
      ensures forall ch, k :: nc <= ch < |out| && out[ch] != null && 0 <= k < out[ch].Length ==>
                out[ch][k] == old(out[ch][k])
      ensures ok ==> Produced(b, old(View()), nc, out, advances, start, path)
      ensures !ok ==> !NotLapped(ring.history, b.lo, ring.size) && View() == old(View())
    {
      hide Block.After, Block.Samples, Block.Walks, Block.Fit, Cursor.Fits, Follows, Lookup, Span, CvRing.Valid,
           NonDecreasing, Block.Previous;
      advances, path, start := 0, [], Cursor(0, Scan(0, NO_CODES), false, Scan(0, NO_CODES));
      var first;
      ok, first := Bracket(Oldest(w), w, t0);
      if ok {
        start := first;
        ghost var known, then_ := ring.history, ring.pushing;
        advances, path := RenderFrom(b, w, t0, p, n, smoothCoef, nc, first, out);
        FitsLater(start, b.h, b.lo, known, then_, ring.history, ring.pushing, ring.size);
        OrderedPrefix(known, ring.history);
      }
    }

    /** One block of CV. smoothCoef is the filter coefficient for this cutoff and
        frame length. Ghost results: the block that was rendered, how far the
        cursor moved, and its path. */
    method RenderBlock(t0: nat, nsPerFrame: real, nframes: nat, out: seq<array?<real>>, smoothCoef: real)
      returns (r: int, ghost b: Block, ghost advances: nat, ghost start: Cursor, ghost path: seq<Cursor>)
      requires Valid() && Separate(out, nframes, smoothZ, lastV)
      modifies this`primed, ring`widx, ring`pushing, ring`history, ring.buf, smoothZ, lastV, Targets(out)
      ensures Valid() && ring.Onward() && cal == old(cal) && (r == 0 || r == -1)
      ensures r == -1 ==> View() == old(View())
      ensures |out| == 0 || nframes == 0 ==>
                r == -1 && forall ch :: 0 <= ch < |out| && out[ch] != null ==> out[ch][..] == old(out[ch][..])
      ensures |out| > 0 && nframes > 0 && r == -1 ==>
                && (old(ring.history) == [] || !NotLapped(ring.history, Oldest(|old(ring.history)|), ring.size))
                && forall ch, f :: 0 <= ch < |out| && out[ch] != null && 0 <= f < nframes ==>
                     out[ch][f] == if ch < numCv then lastV[ch] else 0.0
      ensures |out| > 0 && nframes > 0 && old(ring.history) == [] ==> r == -1
      ensures forall ch, f :: numCv <= ch < |out| && out[ch] != null && 0 <= f < nframes && nframes > 0 ==>
                out[ch][f] == 0.0
      ensures r == 0 ==>
                && b.Valid() && b.n == nframes
                && b == BlockOf(cal, old(ring.history), t0, nsPerFrame, nframes, smoothCoef)
                && b.cal == cal && b.h == old(ring.history) && b.t0 == t0 && b.p == nsPerFrame
                && (b.smoothing <==> old(smoothHz) > 0.0 && nsPerFrame > 0.0)
                && b.coef == (if b.smoothing then smoothCoef else 0.0)
                && (forall i: nat :: i < |b.h| ==> (b.lo <= i <==> InReach(b.h, i, ring.size) || |b.h| <= ring.size))
                && Produced(b, old(View()), Channels(|out|), out, advances, start, path)
    {
      hide Produced, CvRing.Valid;
      r, advances, path, start := -1, 0, [], Cursor(0, Scan(0, NO_CODES), false, Scan(0, NO_CODES));
      b := BlockOf(cal, ring.history, t0, nsPerFrame, nframes, smoothCoef);
      if |out| == 0 || nframes == 0 { return; }
      var nc := Channels(|out|);
      Silence(nc, out, nframes);
      ring.Visible();
      var w := ring.Count();
      if w == 0 { FillLast(out, nframes); return; }
      var ok;
      ok, advances, start, path := RenderScans(b, w, t0, nsPerFrame, nframes, smoothCoef, nc, out);
      if !ok { FillLast(out, nframes); return; }
      r := 0;
    }

    /** A change of cutoff leaves no transient: whatever the filter held before,
        the next block stays within the range of the scans alone. */
    method RenderRestarted(cutoffHz: real, t0: nat, nsPerFrame: real, nframes: nat, out: seq<array?<real>>,
                           smoothCoef: real, ghost ch: nat, ghost x: real, ghost y: real)
      returns (r: int)
      requires Valid() && Separate(out, nframes, smoothZ, lastV)
      requires ch < Channels(|out|) && out[ch] != null && 0.0 < smoothCoef < 1.0
      modifies this`smoothHz, this`primed, ring`widx, ring`pushing, ring`history, ring.buf, smoothZ, lastV, Targets(out)
      ensures Valid() && ring.Onward()
      ensures r == 0
              && InRange(cal, ch, ring.history, Oldest(|old(ring.history)|), ring.pushing, x, y) ==>
                forall f :: 0 <= f < nframes ==> x <= out[ch][f] <= y
    {
      hide Produced, InRange, CvRing.Valid;
      SetSmoothing(cutoffHz);
      ghost var c := View();
      ghost var b, advances, start, path;
      r, b, advances, start, path := RenderBlock(t0, nsPerFrame, nframes, out, smoothCoef);
      if r == 0 && InRange(cal, ch, ring.history, b.lo, ring.pushing, x, y) {
        ProducedInRange(b, c, Channels(|out|), out, advances, start, path, ch, x, y);
      }
    }
  }
}
