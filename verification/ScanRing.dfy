/** The CV history ring: one slot per ADC scan, overwritten oldest first, looked
    up by absolute index or by time (src/tt_ring.c). While the reader is inside a
    call the sampling thread goes on, one store at a time: between any two loads
    of the reader it may take any number of the steps of ScanRingSteps. */
module ScanRing {
  import opened Bits
  import opened RingSize
  import opened Scans
  import opened ScanRingSteps

  class CvRing {
    var buf: array<Scan>
    var size: nat
    var mask: nat
    var widx: nat
    /** Whether a sampling thread runs beside the reader. */
    const shared: bool
    /** Where that thread is inside `tt_cvring_push`. */
    var pushing: Producer
    /** Every scan ever pushed. */
    ghost var history: seq<Scan>

    /** The ring as ScanRingSteps has it, the reader being at r. */
    ghost function At(r: Reader): State
      reads this, buf
    {
      State(buf[..], widx, pushing, r, history)
    }

    ghost predicate Valid()
      reads this, buf
    {
      && IsPow2(size) && 64 <= size <= 0x8000_0000
      && buf.Length == size && mask == size - 1
      && (!shared ==> pushing.PIdle?)
      && Inv(At(RIdle))
    }

    /** The sampling thread has gone on. */
    twostate predicate Onward()
      reads this
    {
      size == old(size) && Later(old(history), old(pushing), history, pushing)
    }

    /** got was read as the scan at idx. */
    ghost predicate Read(got: Scan, idx: nat)
      reads this
    {
      ReadAs(got, idx, history, size, pushing)
    }

    /** Nothing has been pushed and nothing is being pushed. A push once begun is
        there until it is published, so the sampling thread has not moved. */
    twostate predicate Quiet()
      reads this
    {
      history == old(history) && pushing.PIdle?
    }

    /** What was read at idx was read whole. */
    twostate predicate Whole(idx: nat)
      reads this
    {
      Quiet() || InReach(history, idx, size)
    }

    constructor (scans: nat, shared: bool)
      requires scans <= 0x8000_0000
      ensures Valid() && fresh(buf) && this.shared == shared
      ensures LeastPow2(size, if scans < 64 then 64 else scans)
      ensures history == [] && pushing.PIdle?
    {
      var p := NextPow2(if scans < 64 then 64 else scans);
      size := p;
      mask := p - 1;
      buf := new Scan[p](_ => BLANK);
      widx := 0;
      pushing := PIdle;
      history := [];
      this.shared := shared;
    }

    lemma SlotIsMod(idx: nat)
      requires IsPow2(size) && 0 < size <= 0x8000_0000 && mask == size - 1
      ensures And(idx, mask) == idx % size
    {
      var k := SizeExponent(size);
      AndMask(idx, k);
    }

    /** The sampling thread begins to push any scan. */
    method Begin(ghost r: Reader) returns (ghost scan: Scan)
      requires shared && Valid() && Inv(At(r)) && pushing.PIdle?
      modifies this`pushing
      ensures Valid() && Inv(At(r)) && At(r) == Next(old(At(r)), BeginPush(scan)) && pushing.PWriting?
    {
      hide Inv, Word;
      ghost var s := At(r);
      var next: Scan := *;
      scan := next;
      BeginKeepsInv(s, next);
      pushing := PWriting(next, 0);
      assert At(r) == Next(s, BeginPush(scan));
      ReaderElsewhere(At(r));
    }

    /** It stores the next word of its scan. */
    method StoreWord(ghost r: Reader)
      requires shared && Valid() && Inv(At(r)) && pushing.PWriting? && pushing.k < WORDS
      modifies this`pushing, buf
      ensures Valid() && Inv(At(r)) && At(r) == NextProducer(old(At(r))) && pushing.PWriting?
    {
      hide Inv, Word, CopyWord, And;
      ghost var s := At(r);
      WriterWithin(s);
      ProducerKeepsInv(s);
      SlotIsMod(widx);
      var i := And(widx, mask);
      buf[i] := CopyWord(buf[i], pushing.scan, pushing.k);
      pushing := PWriting(pushing.scan, pushing.k + 1);
      assert At(r) == NextProducer(s);
      ReaderElsewhere(At(r));
    }

    /** It publishes the scan it has stored. */
    method Publish(ghost r: Reader)
      requires shared && Valid() && Inv(At(r)) && pushing.PWriting? && pushing.k == WORDS
      modifies this`widx, this`pushing, this`history
      ensures Valid() && Inv(At(r)) && At(r) == NextProducer(old(At(r)))
      ensures old(history) <= history && history != old(history)
    {
      hide Inv, Word, CopyWord;
      ghost var s := At(r);
      ProducerKeepsInv(s);
      history := history + [pushing.scan];
      widx := widx + 1;
      pushing := PIdle;
      assert At(r) == NextProducer(s);
      ReaderElsewhere(At(r));
    }

    /** One step of the sampling thread. */
    method Step(ghost r: Reader) returns (ghost a: Action)
      requires shared && Valid() && Inv(At(r))
      modifies this`widx, this`pushing, this`history, buf
      ensures Valid() && Inv(At(r)) && At(r) == Next(old(At(r)), a)
      ensures Onward() && (history != old(history) || pushing.PWriting?)
    {
      WriterWithin(At(r));
      ghost var s := At(r);
      hide CvRing.Valid, Inv, NextProducer;
      a := ProducerStep;
      match pushing
      case PIdle =>
        ghost var scan := Begin(r);
        a := BeginPush(scan);
      case PWriting(_, k) =>
        if k < WORDS { StoreWord(r); } else { Publish(r); }
      StepsOn(s, a);
    }

    /** The sampling thread between two steps of the reader: any number of its
        own. */
    method Sampler(ghost r: Reader)
      requires Valid() && Inv(At(r))
      modifies this`widx, this`pushing, this`history, buf
      ensures Valid() && Inv(At(r)) && Onward()
      ensures At(r) == old(At(r)) || (shared && (history != old(history) || pushing.PWriting?))
    {
      hide CvRing.Valid, Inv, Next;
      var rounds: int := *;
      while shared && rounds > 0
        invariant Valid() && Inv(At(r)) && Onward()
        invariant At(r) == old(At(r)) || (shared && (history != old(history) || pushing.PWriting?))
      {
        ghost var _ := Step(r);
        rounds := rounds - 1;
      }
    }

    /** Fills a slot: the time stamp, the codes given, zeros for the rest. */
    method Store(s: nat, t: nat, raw: seq<Code>, nch: int)
      requires s < buf.Length
      requires nch <= |raw| || MAX_CV <= |raw|
      modifies buf
      ensures buf[s] == Recorded(t, raw, nch)
      ensures forall j :: 0 <= j < buf.Length && j != s ==> buf[j] == old(buf[j])
    {
      var n := if nch > MAX_CV then MAX_CV else nch;
      buf[s] := buf[s].(t := t);
      var i := 0;
      while i < n
        invariant 0 <= i <= MAX_CV && (i <= n || i == 0)
        invariant buf[s].t == t
        invariant buf[s].raw[..i] == raw[..i]
        invariant forall j :: 0 <= j < buf.Length && j != s ==> buf[j] == old(buf[j])
      {
        buf[s] := buf[s].(raw := buf[s].raw[i := raw[i]]);
        i := i + 1;
      }
      while i < MAX_CV
        invariant 0 <= i <= MAX_CV && (i >= n)
        invariant buf[s].t == t
        invariant forall c :: 0 <= c < i ==> buf[s].raw[c] == if c < n then raw[c] else 0
        invariant forall j :: 0 <= j < buf.Length && j != s ==> buf[j] == old(buf[j])
      {
        buf[s] := buf[s].(raw := buf[s].raw[i := 0]);
        i := i + 1;
      }
      assert buf[s].raw == Recorded(t, raw, nch).raw;
    }

    /** The sampling thread's own call, run to its end with nobody looking. */
    method Push(t: nat, raw: seq<Code>, nch: int)
      requires Valid() && pushing.PIdle?
      requires nch <= |raw| || MAX_CV <= |raw|
      modifies this`widx, this`history, buf
      ensures Valid()
      ensures history == old(history) + [Recorded(t, raw, nch)]
      ensures At(RIdle) == Run(old(At(RIdle)), PushRun(Recorded(t, raw, nch)))
    {
      hide Inv, Recorded, And, Run;
      ghost var s, scan := At(RIdle), Recorded(t, raw, nch);
      WriterWithin(s);
      RunKeepsInv(s, PushRun(scan));
      PushAlone(s, scan);
      SlotIsMod(widx);
      Store(And(widx, mask), t, raw, nch);
      history := history + [scan];
      widx := widx + 1;
      assert buf[..] == s.buf[s.widx % size := scan];
    }

    method Count() returns (w: nat)
      requires Valid()
      ensures w == |history|
    {
      Visible();
      w := widx;
    }

    lemma Visible()
      requires Valid()
      ensures Inv(At(RIdle)) && widx == |history| && buf.Length == size >= 64
    {
      WriterWithin(At(RIdle));
    }

    /** The reader loads one word of the slot of idx. */
    method LoadWord(idx: nat, k: nat, got: Scan) returns (next: Scan)
      requires Valid() && k < WORDS && Inv(At(RReading(idx, k, got)))
      ensures Inv(At(RReading(idx, k + 1, next)))
    {
      hide Inv, And, CopyWord;
      Visible();
      SlotIsMod(idx);
      ReaderKeepsInv(At(RReading(idx, k, got)));
      next := CopyWord(got, buf[And(idx, mask)], k);
    }

    /** The copy of a slot, one load at a time. */
    method Copy(idx: nat) returns (out: Scan)
      requires Valid() && idx < widx
      modifies this`widx, this`pushing, this`history, buf
      ensures Valid() && Onward() && Inv(At(RReading(idx, WORDS, out)))
      ensures !shared ==> history == old(history)
    {
      hide CvRing.Valid, Inv, Next, NextReader, NextProducer, CopyWord, And;
      out := BLANK;
      Visible();
      StartsReading(At(RIdle), idx);
      Sampler(RReading(idx, 0, out));
      out := LoadWord(idx, 0, out);
      var i := 0;
      while i < MAX_CV
        invariant 0 <= i <= MAX_CV
        invariant Valid() && Inv(At(RReading(idx, i + 1, out))) && Onward()
        invariant !shared ==> history == old(history)
      {
        Sampler(RReading(idx, i + 1, out));
        out := LoadWord(idx, i + 1, out);
        i := i + 1;
      }
      Sampler(RReading(idx, WORDS, out));
    }

    /** 0 and a scan when idx is one of the newest `size` at the last look, -1
        when it was not written at the first look or has been overwritten. The
        scan is the one pushed at idx, except perhaps when idx is exactly `size`
        behind and a push is under way. */
    method Get(idx: nat) returns (r: int, out: Scan)
      requires Valid()
      modifies this`widx, this`pushing, this`history, buf
      ensures Valid() && Onward()
      ensures !shared ==> history == old(history)
      ensures r == 0 || r == -1
      ensures r == 0 ==> idx < |history| && |history| - idx <= size && Read(out, idx)
      ensures r == -1 ==> idx >= |old(history)| || |history| - idx > size
    {
      hide CvRing.Valid, Inv, Copied, Mixture;
      out := BLANK;
      Visible();
      Sampler(RIdle);
      Visible();
      var w := widx;
      if idx >= w { return -1, out; }
      if w - idx > size { return -1, out; }
      out := Copy(idx);
      Visible();
      w := widx;
      if w - idx > size { return -1, out; }
      WholeCopy(At(RReading(idx, WORDS, out)));
      return 0, out;
    }

    /** When a search of h fails with nobody pushing: on an empty range, or when
        the oldest scan of the range has been overwritten and the newest does not
        end the search at once. The scans in between may all be readable. */
    predicate Fails(h: seq<Scan>, lo: nat, hi: nat, t: nat)
      reads this`size
    {
      || hi <= lo
      || (hi <= |h| && |h| - lo > size && (|h| - (hi - 1) > size || h[hi - 1].t > t))
    }

    /** The search for the newest scan in [lo, hi) at or before t, while the
        sampling thread goes on. What it says of the scan found holds when that
        scan was read whole; ScanRingSteps.MisledSearch shows why it must be. */
    method Find(lo: nat, hi: nat, t: nat) returns (r: int, idx: nat)
      requires Valid()
      modifies this`widx, this`pushing, this`history, buf
      ensures Valid() && Onward()
      ensures !shared ==> history == old(history)
      ensures r == 1 || r == 0 || r == -1
      ensures r != -1 ==> lo <= idx < hi && idx < |history|
      ensures r == 1 && Whole(idx) ==> history[idx].t <= t
      ensures r == 1 && Whole(idx) && NonDecreasing(history) ==>
                forall j :: idx < j < hi && j < |history| ==> history[j].t > t
      ensures r == 0 ==> idx == lo
      ensures r == 0 && Whole(idx) ==> history[lo].t > t
      ensures r == 0 && Whole(idx) && NonDecreasing(history) ==>
                forall j :: lo <= j < |history| ==> history[j].t > t
      ensures r == -1 ==> hi <= lo || hi > old(|history|) || |history| - lo > size
      ensures Fails(old(history), lo, hi, t) ==>
                r == -1 || (|old(history)| - (hi - 1) <= size && !InReach(history, hi - 1, size))
      ensures Quiet() && hi <= |history| ==> (r == -1 <==> Fails(history, lo, hi, t))
    {
      hide CvRing.Valid, Word;
      idx := 0;
      if hi <= lo { return -1, idx; }
      var g, s := Get(hi - 1);
      if g == 0 && s.t <= t {
        return 1, hi - 1;
      }
      g, s := Get(lo);
      if g != 0 { return -1, idx; }
      if s.t > t { return 0, lo; }
      r, idx := Bisect(lo, hi, t);
    }

    /** The search's loop, once lo has been read as at or before t. */
    method Bisect(lo: nat, hi: nat, t: nat) returns (r: int, idx: nat)
      requires Valid() && lo < hi && lo < |history|
      requires pushing.PIdle? || InReach(history, lo, size) ==> history[lo].t <= t
      modifies this`widx, this`pushing, this`history, buf
      ensures Valid() && Onward()
      ensures !shared ==> history == old(history)
      ensures r == 1 || r == -1
      ensures r == 1 ==> lo <= idx < hi && idx < |history| && (idx + 1 < hi ==> idx + 1 < |history|)
      ensures r == 1 && Whole(idx) ==> history[idx].t <= t && (idx + 1 < hi ==> history[idx + 1].t > t)
      ensures r == -1 ==> hi > |old(history)| || |history| - lo > size
    {
      hide CvRing.Valid, Word;
      var l, h := lo, hi;
      while h - l > 1
        invariant lo <= l < h <= hi
        invariant Valid() && Onward()
        invariant !shared ==> history == old(history)
        invariant l < |history| && (Whole(l) ==> history[l].t <= t)
        invariant h < hi ==> h < |history| && (Whole(h) ==> history[h].t > t)
        decreases h - l
      {
        var mid := l + (h - l) / 2;
        var g, s := Get(mid);
        if g != 0 { return -1, 0; }
        if s.t <= t { l := mid; } else { h := mid; }
      }
      return 1, l;
    }
  }

  /** The search gives up although the scan it is asked for can be read: one
      scan more than the ring holds, stamped 0, 1, 2 and so on. Scan 1 is there
      and answers the search for time 1, but scan 0 has been overwritten. */
  method OldestOverwritten(ring: CvRing) returns (got: int, scan: Scan, found: int)
    requires ring.Valid() && ring.history == [] && !ring.shared
    modifies ring`widx, ring`pushing, ring`history, ring.buf
    ensures got == 0 && scan.t == 1 && found == -1
  {
    var n := ring.size + 1;
    for i := 0 to n
      invariant ring.Valid() && ring.size + 1 == n && |ring.history| == i
      invariant forall k :: 0 <= k < i ==> ring.history[k].t == k
    {
      ring.Push(i, [], 0);
    }
    got, scan := ring.Get(1);
    var idx;
    found, idx := ring.Find(0, n, 1);
  }
}
