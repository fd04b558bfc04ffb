/** The history ring with the sampling thread and the audio callback
    interleaved. Every step is one atomic load or store of `tt_cvring_push` or
    `tt_cvring_get`: the time stamp, each of the eight codes, and the write
    index. The memory is sequentially consistent (src/tt_ring.c). */
module ScanRingSteps {
  import opened Bits
  import opened Scans

  const WORDS := 1 + MAX_CV

  /** The j-th stored word of a scan. */
  function Word(s: Scan, j: nat): nat
    requires j < WORDS
  {
    if j == 0 then s.t else s.raw[j - 1]
  }

  /** dst with its j-th word taken from src. */
  function CopyWord(dst: Scan, src: Scan, j: nat): Scan
    requires j < WORDS
  {
    if j == 0 then dst.(t := src.t) else dst.(raw := dst.raw[j - 1 := src.raw[j - 1]])
  }

  lemma CopyWordWords(dst: Scan, src: Scan, j: nat, i: nat)
    requires j < WORDS && i < WORDS
    ensures Word(CopyWord(dst, src, j), i) == if i == j then Word(src, i) else Word(dst, i)
  {}

  lemma SameWords(a: Scan, b: Scan)
    requires forall j: nat :: j < WORDS ==> Word(a, j) == Word(b, j)
    ensures a == b
  {
    assert Word(a, 0) == Word(b, 0);
    forall i: nat | i < MAX_CV ensures a.raw[i] == b.raw[i] {
      assert Word(a, i + 1) == Word(b, i + 1);
    }
    assert a.raw == b.raw;
  }

  datatype Producer = PIdle | PWriting(scan: Scan, k: nat)

  /** The reader's position. A finished call keeps what its final re-read of
      the write index showed: how far behind idx was, and whether a push was
      under way at that instant. */
  datatype Reader =
    | RIdle
    | RReading(idx: nat, k: nat, got: Scan)
    | RDone(idx: nat, code: int, got: Scan, margin: int, during: Producer)

  /** `history` is the append-only list of published scans; `widx`, the shared
      counter, is kept apart from its length. */
  datatype State = State(buf: seq<Scan>, widx: nat, prod: Producer, reader: Reader, history: seq<Scan>)

  datatype Action = BeginPush(scan: Scan) | ProducerStep | BeginGet(idx: nat) | ReaderStep

  const BLANK := Scan(0, NO_CODES)

  function Next(s: State, a: Action): State
    requires s.buf != []
  {
    match a
    case BeginPush(scan) =>
      if s.prod.PIdle? then s.(prod := PWriting(scan, 0)) else s
    case ProducerStep => NextProducer(s)
    case BeginGet(idx) =>
      if s.reader.RReading? then s
      else if idx >= s.widx then s.(reader := RDone(idx, -1, BLANK, s.widx - idx, s.prod))
      else if s.widx - idx > |s.buf| then s.(reader := RDone(idx, -1, BLANK, s.widx - idx, s.prod))
      else s.(reader := RReading(idx, 0, BLANK))
    case ReaderStep => NextReader(s)
  }

  function NextProducer(s: State): State
    requires s.buf != []
  {
    match s.prod
    case PIdle => s
    case PWriting(scan, k) =>
      if k < WORDS then
        var i := s.widx % |s.buf|;
        s.(prod := PWriting(scan, k + 1), buf := s.buf[i := CopyWord(s.buf[i], scan, k)])
      else
        s.(prod := PIdle, widx := s.widx + 1, history := s.history + [scan])
  }

  function NextReader(s: State): State
    requires s.buf != []
  {
    match s.reader
    case RReading(idx, k, got) =>
      if k < WORDS then
        s.(reader := RReading(idx, k + 1, CopyWord(got, s.buf[idx % |s.buf|], k)))
      else
        var code := if s.widx - idx > |s.buf| then -1 else 0;
        s.(reader := RDone(idx, code, got, s.widx - idx, s.prod))
    case _ => s
  }

  function Run(s: State, run: seq<Action>): (r: State)
    requires s.buf != []
    ensures |r.buf| == |s.buf|
  {
    if run == [] then s else Next(Run(s, run[..|run| - 1]), run[|run| - 1])
  }

  ghost predicate Initial(s: State) {
    && s.buf != [] && s.widx == 0 && s.history == []
    && s.prod.PIdle? && s.reader.RIdle?
  }

  /** Every slot but the one being overwritten holds the scan last pushed there. */
  ghost predicate Slots(s: State) {
    && s.buf != []
    && s.widx == |s.history|
    && (forall i :: 0 <= i < s.widx && s.widx - i < |s.buf| ==> s.buf[i % |s.buf|] == s.history[i])
    && (s.prod.PIdle? && s.widx >= |s.buf| ==>
          s.buf[s.widx % |s.buf|] == s.history[s.widx - |s.buf|])
  }

  /** The slot under the producer: stored words are new, the rest still old. */
  ghost predicate Writing(s: State)
    requires Slots(s)
  {
    s.prod.PWriting? ==>
      && s.prod.k <= WORDS
      && (forall j: nat :: j < s.prod.k ==> Word(s.buf[s.widx % |s.buf|], j) == Word(s.prod.scan, j))
      && (s.widx >= |s.buf| ==>
            forall j: nat :: s.prod.k <= j < WORDS ==>
              Word(s.buf[s.widx % |s.buf|], j) == Word(s.history[s.widx - |s.buf|], j))
  }

  /** A word the reader of idx may have seen while idx is `|buf|` behind: the
      scan's own, or one the push in flight has stored over it. */
  ghost predicate Seen(w: nat, s: State, idx: nat, j: nat)
    requires idx < |s.history| && j < WORDS
  {
    || w == Word(s.history[idx], j)
    || (s.prod.PWriting? && j < s.prod.k && w == Word(s.prod.scan, j))
  }

  ghost predicate Reading(s: State)
    requires Slots(s)
  {
    s.reader.RReading? ==>
      var idx, got := s.reader.idx, s.reader.got;
      && s.reader.k <= WORDS
      && idx < s.widx
      && (s.widx - idx < |s.buf| ==>
            forall j: nat :: j < s.reader.k ==> Word(got, j) == Word(s.history[idx], j))
      && (s.widx - idx == |s.buf| ==>
            forall j: nat :: j < s.reader.k ==> Seen(Word(got, j), s, idx, j))
  }

  /** got is a copy of the scan `own`; when that was exactly `size` behind, each
      word may instead be one that the push under way has stored over it. */
  ghost predicate Copied(got: Scan, own: Scan, last: bool, p: Producer) {
    && (!last || p.PIdle? ==> got == own)
    && (p.PWriting? ==>
          forall j: nat :: j < WORDS ==>
            || Word(got, j) == Word(own, j)
            || (j < p.k && Word(got, j) == Word(p.scan, j)))
  }

  /** What a finished call hands back. */
  ghost predicate Done(s: State)
    requires Slots(s)
  {
    s.reader.RDone? && s.reader.code == 0 ==>
      var idx, got, p := s.reader.idx, s.reader.got, s.reader.during;
      && idx < |s.history|
      && 1 <= s.reader.margin <= |s.buf|
      && Copied(got, s.history[idx], s.reader.margin == |s.buf|, p)
  }

  ghost predicate Inv(s: State) {
    Slots(s) && Writing(s) && Reading(s) && Done(s)
  }

  lemma StoreKeepsSlots(s: State)
    requires Inv(s) && s.prod.PWriting? && s.prod.k < WORDS
    ensures Slots(NextProducer(s)) && Writing(NextProducer(s))
  {
    var n, w := |s.buf|, s.widx;
    forall i | 0 <= i < w && w - i < n ensures i % n != w % n {
      DistinctSlots(i, w, n);
    }
    forall j: nat | j < WORDS
      ensures Word(CopyWord(s.buf[w % n], s.prod.scan, s.prod.k), j)
           == if j == s.prod.k then Word(s.prod.scan, j) else Word(s.buf[w % n], j)
    {
      CopyWordWords(s.buf[w % n], s.prod.scan, s.prod.k, j);
    }
  }

  lemma PublishKeepsSlots(s: State)
    requires Inv(s) && s.prod.PWriting? && s.prod.k == WORDS
    ensures Slots(NextProducer(s))
  {
    var n, w := |s.buf|, s.widx;
    var r := NextProducer(s);
    SameWords(s.buf[w % n], s.prod.scan);
    hide Word, CopyWord, Reading, Done;
    if w + 1 >= n {
      ModShift(w + 1 - n, n, 1);
      if n == 1 { assert r.history[w + 1 - n] == s.prod.scan; }
    }
  }

  lemma PublishKeepsReading(s: State)
    requires Inv(s) && s.prod.PWriting? && s.prod.k == WORDS
    requires Slots(NextProducer(s))
    ensures Reading(NextProducer(s)) && Done(NextProducer(s))
  {
  }

  lemma ProducerKeepsInv(s: State)
    requires Inv(s)
    ensures Inv(NextProducer(s))
  {
    if s.prod.PWriting? {
      if s.prod.k < WORDS {
        StoreKeepsSlots(s);
        var r := NextProducer(s);
        if s.reader.RReading? && s.widx - s.reader.idx == |s.buf| {
          forall j: nat | j < s.reader.k
            ensures Seen(Word(s.reader.got, j), r, s.reader.idx, j)
          {
            assert Seen(Word(s.reader.got, j), s, s.reader.idx, j);
          }
        }
      } else {
        PublishKeepsSlots(s);
        PublishKeepsReading(s);
      }
    }
  }

  /** A word loaded from the slot of idx, wherever the producer is. */
  lemma LoadedWord(s: State, idx: nat, j: nat)
    requires Slots(s) && Writing(s) && idx < s.widx && j < WORDS
    ensures s.widx - idx < |s.buf| ==> Word(s.buf[idx % |s.buf|], j) == Word(s.history[idx], j)
    ensures s.widx - idx == |s.buf| ==> Seen(Word(s.buf[idx % |s.buf|], j), s, idx, j)
  {
    if s.widx - idx == |s.buf| {
      ModShift(idx, |s.buf|, 1);
      assert s.widx % |s.buf| == idx % |s.buf|;
    }
  }

  lemma ReaderKeepsInv(s: State)
    requires Inv(s)
    ensures Inv(NextReader(s))
  {
    if s.reader.RReading? {
      var idx, k, got := s.reader.idx, s.reader.k, s.reader.got;
      if k < WORDS {
        var src := s.buf[idx % |s.buf|];
        forall j: nat | j < k + 1
          ensures Word(CopyWord(got, src, k), j) == if j == k then Word(src, j) else Word(got, j)
        {
          CopyWordWords(got, src, k, j);
        }
        LoadedWord(s, idx, k);
        ReadingAfterLoad(s);
      } else {
        FinishedRead(s);
      }
    }
  }

  lemma ReadingAfterLoad(s: State)
    requires Inv(s) && s.reader.RReading? && s.reader.k < WORDS
    ensures Reading(NextReader(s))
  {
    var idx, k, got := s.reader.idx, s.reader.k, s.reader.got;
    var src := s.buf[idx % |s.buf|];
    var r := NextReader(s);
    LoadedWord(s, idx, k);
    forall j: nat | j < k + 1
      ensures s.widx - idx < |s.buf| ==> Word(r.reader.got, j) == Word(s.history[idx], j)
      ensures s.widx - idx == |s.buf| ==> Seen(Word(r.reader.got, j), r, idx, j)
    {
      CopyWordWords(got, src, k, j);
      if j < k && s.widx - idx == |s.buf| { assert Seen(Word(got, j), s, idx, j); }
    }
  }

  lemma FinishedRead(s: State)
    requires Inv(s) && s.reader.RReading? && s.reader.k == WORDS
    ensures Done(NextReader(s))
  {
    var idx, got := s.reader.idx, s.reader.got;
    var m := s.widx - idx;
    if m <= |s.buf| {
      forall j: nat | j < WORDS
        ensures m < |s.buf| || s.prod.PIdle? ==> Word(got, j) == Word(s.history[idx], j)
        ensures || Word(got, j) == Word(s.history[idx], j)
                || (s.prod.PWriting? && j < s.prod.k && Word(got, j) == Word(s.prod.scan, j))
      {
        if m == |s.buf| { assert Seen(Word(got, j), s, idx, j); }
      }
      if m < |s.buf| || s.prod.PIdle? { SameWords(got, s.history[idx]); }
    }
  }

  // What a reader may rely on from one of its steps to the next.

  /** How the history and the push under way go on: the scan of a push once
      begun is the next one published. */
  ghost predicate Later(h: seq<Scan>, p: Producer, h': seq<Scan>, p': Producer) {
    && h <= h'
    && (p.PWriting? ==>
          if |h'| > |h| then h'[|h|] == p.scan
          else p'.PWriting? && p'.scan == p.scan && p.k <= p'.k)
  }

  lemma LaterLonger(h: seq<Scan>, p: Producer, h': seq<Scan>, p': Producer)
    requires Later(h, p, h', p')
    ensures |h| <= |h'| && h <= h'
  {}

  /** Every word of got is one of a or one of b. */
  ghost predicate Mixture(got: Scan, a: Scan, b: Scan) {
    forall j: nat :: j < WORDS ==> Word(got, j) == Word(a, j) || Word(got, j) == Word(b, j)
  }

  /** got was read as the scan at idx, on a ring of `size` slots: it is that scan
      as long as it is less than `size` behind, and always that scan or a mixture
      of it with the one that overwrites its slot. */
  ghost predicate ReadAs(got: Scan, idx: nat, history: seq<Scan>, size: nat, p: Producer) {
    && idx < |history|
    && (|history| - idx < size ==> got == history[idx])
    && (|history| - idx == size ==> Copied(got, history[idx], true, p))
    && (|history| - idx > size ==> got == history[idx] || Mixture(got, history[idx], history[idx + size]))
  }

  lemma StillRead(got: Scan, idx: nat, h: seq<Scan>, p: Producer, h': seq<Scan>, p': Producer, size: nat)
    requires ReadAs(got, idx, h, size, p) && Later(h, p, h', p')
    ensures ReadAs(got, idx, h', size, p')
  {
    hide Word;
    assert h'[idx] == h[idx];
    if |h| - idx > size { assert h'[idx + size] == h[idx + size]; }
  }

  lemma StepsOn(s: State, a: Action)
    requires Inv(s) && (a.BeginPush? || a.ProducerStep?)
    ensures Later(s.history, s.prod, Next(s, a).history, Next(s, a).prod)
  {
    hide Word, CopyWord;
  }

  lemma StartsReading(s: State, idx: nat)
    requires Inv(s) && idx < s.widx
    ensures Inv(s.(reader := RReading(idx, 0, BLANK)))
  {}

  lemma WholeCopy(s: State)
    requires Inv(s) && s.reader.RReading? && s.reader.k == WORDS && s.widx - s.reader.idx <= |s.buf|
    ensures s.reader.idx < |s.history|
    ensures Copied(s.reader.got, s.history[s.reader.idx], s.widx - s.reader.idx == |s.buf|, s.prod)
  {
    FinishedRead(s);
  }

  lemma BeginKeepsInv(s: State, scan: Scan)
    requires Inv(s)
    ensures Inv(Next(s, BeginPush(scan)))
  {}

  /** What the producer relies on says nothing about the reader. */
  lemma ReaderElsewhere(s: State)
    requires Inv(s)
    ensures Inv(s.(reader := RIdle))
  {}

  lemma WriterWithin(s: State)
    requires Inv(s)
    ensures s.buf != [] && s.widx == |s.history| && (s.prod.PWriting? ==> s.prod.k <= WORDS)
  {}

  lemma {:induction false} RunKeepsInv(s: State, run: seq<Action>)
    requires Initial(s) || Inv(s)
    ensures Inv(Run(s, run))
  {
    if run != [] {
      var r, a := Run(s, run[..|run| - 1]), run[|run| - 1];
      RunKeepsInv(s, run[..|run| - 1]);
      NextKeepsInv(r, a);
    }
  }

  lemma NextKeepsInv(s: State, a: Action)
    requires Inv(s)
    ensures Inv(Next(s, a))
  {
    hide Inv, NextProducer, NextReader;
    match a
    case BeginPush(scan) => BeginKeepsInv(s, scan);
    case ProducerStep => ProducerKeepsInv(s);
    case BeginGet(idx) => BeginGetKeepsInv(s, idx);
    case ReaderStep => ReaderKeepsInv(s);
  }

  lemma BeginGetKeepsInv(s: State, idx: nat)
    requires Inv(s)
    ensures Inv(Next(s, BeginGet(idx)))
  {
    if !s.reader.RReading? && idx < s.widx && s.widx - idx <= |s.buf| { StartsReading(s, idx); }
  }

  /** Exactness: a call that returns 0 and whose final re-read shows idx less
      than `size` behind hands back the very scan pushed at idx. With no push
      under way at the re-read, that extends to exactly `size` behind. */
  lemma GetIsExact(s: State, run: seq<Action>)
    requires Initial(s)
    ensures var r := Run(s, run);
            r.reader.RDone? && r.reader.code == 0
            && (r.reader.margin < |r.buf| || r.reader.during.PIdle?) ==>
              r.reader.idx < |r.history| && r.reader.got == r.history[r.reader.idx]
  {
    RunKeepsInv(s, run);
  }

  /** At the boundary: with idx exactly `size` behind and a push in flight, each
      word handed back is either the scan's own or one already stored by the
      push that is overwriting its slot. */
  lemma GetAtBoundary(s: State, run: seq<Action>)
    requires Initial(s)
    ensures var r := Run(s, run);
            r.reader.RDone? && r.reader.code == 0 ==>
              && r.reader.idx < |r.history|
              && 1 <= r.reader.margin <= |r.buf|
              && (r.reader.got != r.history[r.reader.idx] ==>
                    && r.reader.margin == |r.buf|
                    && r.reader.during.PWriting?
                    && forall j: nat :: j < WORDS ==>
                         || Word(r.reader.got, j) == Word(r.history[r.reader.idx], j)
                         || (j < r.reader.during.k
                             && Word(r.reader.got, j) == Word(r.reader.during.scan, j)))
  {
    RunKeepsInv(s, run);
  }

  /** n repetitions of a step after a first one. */
  function Repeat(first: Action, then_: Action, n: nat): seq<Action> {
    if n == 0 then [first] else Repeat(first, then_, n - 1) + [then_]
  }

  lemma RunSnoc(s: State, run: seq<Action>, a: Action)
    requires s.buf != []
    ensures Run(s, run + [a]) == Next(Run(s, run), a)
  {
    assert (run + [a])[..|run|] == run;
  }

  lemma {:induction false} RunAppend(s: State, a: seq<Action>, b: seq<Action>)
    requires s.buf != []
    ensures Run(s, a + b) == Run(Run(s, a), b)
  {
    if b == [] {
      assert a + b == a;
    } else {
      var n := |b| - 1;
      RunAppend(s, a, b[..n]);
      assert a + b == (a + b[..n]) + [b[n]];
      RunSnoc(s, a + b[..n], b[n]);
      assert b == b[..n] + [b[n]];
    }
  }

  lemma {:induction false} RepeatStep(s: State, first: Action, then_: Action, n: nat)
    requires s.buf != []
    ensures Run(s, Repeat(first, then_, 0)) == Next(s, first)
    ensures n > 0 ==> Run(s, Repeat(first, then_, n)) == Next(Run(s, Repeat(first, then_, n - 1)), then_)
  {
    RunSnoc(s, [], first);
    assert [] + [first] == Repeat(first, then_, 0);
    if n > 0 { RunSnoc(s, Repeat(first, then_, n - 1), then_); }
  }

  /** dst with its first k words taken from src. */
  function Mixed(dst: Scan, src: Scan, k: nat): Scan
    requires k <= WORDS
  {
    if k == 0 then dst else CopyWord(Mixed(dst, src, k - 1), src, k - 1)
  }

  lemma {:induction false} MixedWords(dst: Scan, src: Scan, k: nat, j: nat)
    requires k <= WORDS && j < WORDS
    ensures Word(Mixed(dst, src, k), j) == if j < k then Word(src, j) else Word(dst, j)
  {
    if k > 0 {
      MixedWords(dst, src, k - 1, j);
      CopyWordWords(Mixed(dst, src, k - 1), src, k - 1, j);
    }
  }

  lemma MixedAll(dst: Scan, src: Scan)
    ensures Mixed(dst, src, WORDS) == src
  {
    forall j: nat | j < WORDS ensures Word(Mixed(dst, src, WORDS), j) == Word(src, j) {
      MixedWords(dst, src, WORDS, j);
    }
    SameWords(Mixed(dst, src, WORDS), src);
  }

  /** s with a push of scan under way that has stored k words. */
  function Storing(s: State, scan: Scan, k: nat): State
    requires s.buf != [] && k <= WORDS
  {
    var i := s.widx % |s.buf|;
    s.(prod := PWriting(scan, k), buf := s.buf[i := Mixed(s.buf[i], scan, k)])
  }

  lemma StoreOne(s: State, scan: Scan, k: nat)
    requires s.buf != [] && k < WORDS
    ensures NextProducer(Storing(s, scan, k)) == Storing(s, scan, k + 1)
  {
    var i := s.widx % |s.buf|;
    var m := Mixed(s.buf[i], scan, k);
    assert s.buf[i := m][i := CopyWord(m, scan, k)] == s.buf[i := CopyWord(m, scan, k)];
  }

  lemma {:induction false} WordsStored(s: State, scan: Scan, k: nat)
    requires s.buf != [] && s.prod.PIdle? && k <= WORDS
    ensures Run(s, Repeat(BeginPush(scan), ProducerStep, k)) == Storing(s, scan, k)
  {
    RepeatStep(s, BeginPush(scan), ProducerStep, k);
    if k == 0 {
      var i := s.widx % |s.buf|;
      assert s.buf == s.buf[i := s.buf[i]];
    } else {
      WordsStored(s, scan, k - 1);
      StoreOne(s, scan, k - 1);
    }
  }

  /** A whole push. */
  function PushRun(scan: Scan): seq<Action> {
    Repeat(BeginPush(scan), ProducerStep, WORDS + 1)
  }

  /** A push left alone: the new scan sits in its slot and in the history. */
  lemma PushAlone(s: State, scan: Scan)
    requires s.buf != [] && s.prod.PIdle?
    ensures Run(s, PushRun(scan))
         == s.(buf := s.buf[s.widx % |s.buf| := scan], widx := s.widx + 1, history := s.history + [scan])
  {
    WordsStored(s, scan, WORDS);
    RepeatStep(s, BeginPush(scan), ProducerStep, WORDS + 1);
    MixedAll(s.buf[s.widx % |s.buf|], scan);
  }

  lemma {:induction false} WordsLoaded(s: State, k: nat)
    requires s.buf != [] && s.reader.RReading? && s.reader.k == 0 && 0 < k <= WORDS
    ensures Run(s, Repeat(ReaderStep, ReaderStep, k - 1))
         == s.(reader := RReading(s.reader.idx, k, Mixed(s.reader.got, s.buf[s.reader.idx % |s.buf|], k)))
  {
    RepeatStep(s, ReaderStep, ReaderStep, k - 1);
    if k > 1 {
      WordsLoaded(s, k - 1);
    } else {
      assert Mixed(s.reader.got, s.buf[s.reader.idx % |s.buf|], 1)
          == CopyWord(s.reader.got, s.buf[s.reader.idx % |s.buf|], 0);
    }
  }

  /** The steps of a call that has passed its first check, with nobody else
      moving: the slot of idx as it stands, and the code of the second check. */
  lemma ReadAlone(s: State)
    requires s.buf != [] && s.reader.RReading? && s.reader.k == 0
    ensures var idx := s.reader.idx;
            Run(s, Repeat(ReaderStep, ReaderStep, WORDS))
            == s.(reader := RDone(idx, if s.widx - idx > |s.buf| then -1 else 0,
                                  s.buf[idx % |s.buf|], s.widx - idx, s.prod))
  {
    hide Run, Repeat, Mixed, Next, CopyWord;
    var idx := s.reader.idx;
    var src := s.buf[idx % |s.buf|];
    MixedAll(s.reader.got, src);
    WordsLoaded(s, WORDS);
    RepeatStep(s, ReaderStep, ReaderStep, WORDS);
    LastCheck(s.(reader := RReading(idx, WORDS, src)));
  }

  lemma LastCheck(s: State)
    requires s.buf != [] && s.reader.RReading? && s.reader.k == WORDS
    ensures var idx := s.reader.idx;
            Next(s, ReaderStep)
            == s.(reader := RDone(idx, if s.widx - idx > |s.buf| then -1 else 0,
                                  s.reader.got, s.widx - idx, s.prod))
  {}

  /** A whole call, with nobody else moving. */
  function GetRun(idx: nat): seq<Action> {
    [BeginGet(idx)] + Repeat(ReaderStep, ReaderStep, WORDS)
  }

  /** A call left alone returns the scan pushed at idx exactly when idx is among
      the newest as many as the ring has slots, as the ring object's call does. */
  lemma GetAlone(s: State, idx: nat)
    requires Slots(s) && s.prod.PIdle? && !s.reader.RReading?
    ensures var r := Run(s, GetRun(idx));
            var readable := idx < |s.history| && |s.history| - idx <= |s.buf|;
            && r == s.(reader := r.reader) && r.reader.RDone?
            && r.reader.code == (if readable then 0 else -1)
            && (readable ==> r.reader.got == s.history[idx])
  {
    var s1 := Next(s, BeginGet(idx));
    hide Run, Repeat, Next, Slots;
    assert s.buf != [];
    OneAction(s, BeginGet(idx));
    RunAppend(s, [BeginGet(idx)], Repeat(ReaderStep, ReaderStep, WORDS));
    FirstCheck(s, idx);
    if s1.reader.RReading? {
      ReadAlone(s1);
      SlotHolds(s, idx);
    } else {
      IdleReader(s1, WORDS);
    }
  }

  lemma FirstCheck(s: State, idx: nat)
    requires Slots(s) && !s.reader.RReading?
    ensures var r := Next(s, BeginGet(idx));
            if idx < |s.history| && |s.history| - idx <= |s.buf| then r == s.(reader := RReading(idx, 0, BLANK))
            else r == s.(reader := r.reader) && r.reader.RDone? && r.reader.code == -1
    ensures s.widx == |s.history|
  {}

  lemma SlotHolds(s: State, idx: nat)
    requires Slots(s) && s.prod.PIdle? && idx < |s.history| && |s.history| - idx <= |s.buf|
    ensures s.buf[idx % |s.buf|] == s.history[idx]
  {
    if s.widx - idx == |s.buf| { ModShift(idx, |s.buf|, 1); }
  }

  lemma {:induction false} IdleReader(s: State, n: nat)
    requires s.buf != [] && !s.reader.RReading?
    ensures Run(s, Repeat(ReaderStep, ReaderStep, n)) == s
  {
    hide Run, Repeat;
    RepeatStep(s, ReaderStep, ReaderStep, n);
    if n > 0 { IdleReader(s, n - 1); }
  }

  /** The schedule that tears a read: the reader checks idx, the producer begins
      the push that laps it and stores the time stamp, the reader copies the
      slot and re-reads the index before the push is published. */
  function TearingRun(idx: nat, scan: Scan): seq<Action> {
    [BeginGet(idx)] + Repeat(BeginPush(scan), ProducerStep, 1) + Repeat(ReaderStep, ReaderStep, WORDS)
  }

  lemma TearingRunTears(s: State, scan: Scan)
    requires Slots(s) && s.prod.PIdle? && !s.reader.RReading? && s.widx >= |s.buf|
    ensures var idx := s.widx - |s.buf|;
            var r := Run(s, TearingRun(idx, scan));
            && r.history == s.history
            && r.reader == RDone(idx, 0, s.history[idx].(t := scan.t), |s.buf|, PWriting(scan, 1))
  {
    hide Run, Repeat, Mixed;
    var idx := s.widx - |s.buf|;
    var s1 := s.(reader := RReading(idx, 0, BLANK));
    OneAction(s, BeginGet(idx));
    WordsStored(s1, scan, 1);
    var s2 := Storing(s1, scan, 1);
    RunThree(s, [BeginGet(idx)], Repeat(BeginPush(scan), ProducerStep, 1),
             Repeat(ReaderStep, ReaderStep, WORDS), s1, s2);
    StampStored(s1, scan, idx);
    ReadAlone(s2);
  }

  /** With its first word stored, a push has replaced the time stamp alone. */
  lemma StampStored(s: State, scan: Scan, idx: nat)
    requires Slots(s) && s.prod.PIdle? && idx == s.widx - |s.buf|
    ensures Storing(s, scan, 1).buf[idx % |s.buf|] == s.history[idx].(t := scan.t)
  {
    ModShift(idx, |s.buf|, 1);
    assert Mixed(s.history[idx], scan, 0) == s.history[idx];
  }

  lemma OneAction(s: State, a: Action)
    requires s.buf != []
    ensures Run(s, [a]) == Next(s, a)
  {
    RunSnoc(s, [], a);
    assert [] + [a] == [a];
  }

  lemma RunThree(s: State, a: seq<Action>, b: seq<Action>, c: seq<Action>, s1: State, s2: State)
    requires s.buf != [] && Run(s, a) == s1 && Run(s1, b) == s2
    ensures s2.buf != [] && Run(s, a + b + c) == Run(s2, c)
  {
    RunAppend(s, a, b);
    RunAppend(s, a + b, c);
  }

  /** How a torn read misleads the search. A block looks for time t on a full
      ring, t before the newest scan. One push is finished and the next has
      stored its time stamp when the search reads its oldest scan, which is now a
      whole ring behind. The newest scan is after t, so the search goes on; the
      oldest one was at or before t, but reads as after it, so the search ends
      there. A newer scan that answers is passed over. */
  lemma MisledSearch(s: State, first: Scan, second: Scan, t: nat)
    requires Inv(s) && s.prod.PIdle? && !s.reader.RReading? && s.widx >= |s.buf| > 1
    requires s.history[s.widx - |s.buf| + 1].t <= t < s.history[s.widx - 1].t && t < second.t
    ensures var lo := s.widx - |s.buf| + 1;
            var s1 := Run(s, GetRun(s.widx - 1));
            var s2 := Run(s, GetRun(s.widx - 1) + (PushRun(first) + TearingRun(lo, second)));
            && s1.reader.RDone? && s1.reader.code == 0 && s1.reader.got.t > t
            && s2.reader.RDone? && s2.reader.idx == lo && s2.reader.code == 0 && s2.reader.got.t > t
            && s2.history == s.history + [first] && s2.history[lo].t <= t
  {
    var lo := s.widx - |s.buf| + 1;
    assert s.widx == |s.history| && Slots(s);
    hide Run, Repeat, Inv, Next, Slots, GetRun, PushRun, TearingRun;
    GetAlone(s, s.widx - 1);
    RunKeepsInv(s, GetRun(s.widx - 1));
    var s1 := Run(s, GetRun(s.widx - 1));
    TornAfterPush(s1, first, second);
    RunAppend(s, GetRun(s.widx - 1), PushRun(first) + TearingRun(lo, second));
  }

  lemma TornAfterPush(s: State, first: Scan, second: Scan)
    requires Inv(s) && s.prod.PIdle? && !s.reader.RReading? && s.widx >= |s.buf| > 1
    ensures var lo := s.widx - |s.buf| + 1;
            var r := Run(s, PushRun(first) + TearingRun(lo, second));
            && lo < |s.history| && r.history == s.history + [first]
            && r.reader == RDone(lo, 0, s.history[lo].(t := second.t), |s.buf|, PWriting(second, 1))
  {
    var lo, sp := s.widx - |s.buf| + 1, Run(s, PushRun(first));
    PushAlone(s, first);
    RunKeepsInv(s, PushRun(first));
    assert Slots(sp);
    assert s.widx == |s.history|;
    hide Run, Repeat, Inv, Next, Slots, PushRun, TearingRun;
    TearingRunTears(sp, second);
    RunAppend(s, PushRun(first), TearingRun(lo, second));
  }

  /** n pushes of the blank scan, each run to completion. */
  function Fill(n: nat): seq<Action> {
    if n == 0 then [] else Fill(n - 1) + PushRun(BLANK)
  }

  lemma {:induction false} FillRuns(s: State, n: nat)
    requires Initial(s)
    ensures var r := Run(s, Fill(n));
            && r.widx == n && r.prod.PIdle? && r.reader.RIdle?
            && |r.history| == n && forall k :: 0 <= k < n ==> r.history[k] == BLANK
  {
    if n > 0 {
      FillRuns(s, n - 1);
      hide PushRun, Run;
      RunAppend(s, Fill(n - 1), PushRun(BLANK));
      PushAlone(Run(s, Fill(n - 1)), BLANK);
    }
  }

  /** Such a search can be met from the start: a ring filled with scans at time 0
      and one more at time 2, searched for time 1. */
  lemma MisledSearchReached(s: State, late: Scan)
    requires Initial(s) && |s.buf| > 2 && late.t == 2
    ensures var r := Run(s, Fill(|s.buf|) + PushRun(late));
            && Inv(r) && r.prod.PIdle? && !r.reader.RReading? && r.widx >= |r.buf| > 1
            && r.widx == |r.history| && r.history[r.widx - |r.buf| + 1].t <= 1 < r.history[r.widx - 1].t
  {
    var n := |s.buf|;
    FillRuns(s, n);
    var full := Run(s, Fill(n));
    RunKeepsInv(s, Fill(n) + PushRun(late));
    hide PushRun, Run, Inv, Fill;
    RunAppend(s, Fill(n), PushRun(late));
    PushAlone(full, late);
  }

  /** Every call that returns 0 with its re-read m behind, on a ring of n slots,
      hands back the scan it asked for. */
  ghost predicate AlwaysExact(n: nat, m: int) {
    forall s: State, run: seq<Action> :: Initial(s) && |s.buf| == n ==>
      var r := Run(s, run);
      r.reader.RDone? && r.reader.code == 0 && r.reader.margin == m ==>
        r.reader.idx < |r.history| && r.reader.got == r.history[r.reader.idx]
  }

  /** Why the margin: the returned scan is guaranteed exactly when the re-read
      finds idx strictly less than `size` behind. The check at the end of
      `tt_cvring_get` admits one more, and there a torn scan can come back
      with code 0. */
  lemma ExactMargin(n: nat, m: int)
    requires 1 <= m <= n
    ensures AlwaysExact(n, m) <==> m < n
  {
    if m < n {
      forall s: State, run: seq<Action> | Initial(s) && |s.buf| == n
        ensures var r := Run(s, run);
                r.reader.RDone? && r.reader.code == 0 && r.reader.margin == m ==>
                  r.reader.idx < |r.history| && r.reader.got == r.history[r.reader.idx]
      {
        GetIsExact(s, run);
      }
    } else {
      var s := State(seq(n, _ => BLANK), 0, PIdle, RIdle, []);
      FillRuns(s, n);
      var full := Run(s, Fill(n));
      RunKeepsInv(s, Fill(n));
      var scan := full.history[0].(t := full.history[0].t + 1);
      TearingRunTears(full, scan);
      RunAppend(s, Fill(n), TearingRun(0, scan));
      var r := Run(s, Fill(n) + TearingRun(0, scan));
      assert r.reader.got != r.history[0];
      assert Initial(s) && |s.buf| == n;
    }
  }
}
