/** The scans of the CV inputs that the history ring holds (src/tt_ring.h). */
module Scans {

  const MAX_CV := 8

  type Code = x: int | 0 <= x < 0x1_0000
  type Codes = r: seq<Code> | |r| == MAX_CV witness [0, 0, 0, 0, 0, 0, 0, 0]

  /** One pass over every CV channel, stamped with the time it began. */
  datatype Scan = Scan(t: nat, raw: Codes)

  const NO_CODES: Codes := [0, 0, 0, 0, 0, 0, 0, 0]

  /** The scan recorded for the first nch codes given: the other channels read 0. */
  function Recorded(t: nat, raw: seq<Code>, nch: int): Scan
    requires nch <= |raw| || MAX_CV <= |raw|
  {
    Scan(t, seq(MAX_CV, i requires 0 <= i < MAX_CV => if i < nch then raw[i] else 0))
  }

  ghost predicate NonDecreasing(h: seq<Scan>) {
    forall i, j :: 0 <= i <= j < |h| ==> h[i].t <= h[j].t
  }

  lemma OrderedPrefix(h: seq<Scan>, later: seq<Scan>)
    requires h <= later
    ensures NonDecreasing(later) ==> NonDecreasing(h)
  {}

  /** Scan i is less than the ring's size behind: the margin within which a read
      of it is exact at every interleaving (ScanRingSteps.ExactMargin). */
  predicate InReach(history: seq<Scan>, i: nat, size: nat) {
    |history| - i < size
  }
}
