/** Frame arithmetic of the block functions: spans of whole frames, and which
    frame an instant falls in. */
module Frames {

  /** The length of k frames of p nanoseconds: `ns_per_frame * (double)k`, as
      SpanIsProduct shows. Written as a sum, so that proofs about block
      boundaries stay linear. */
  function Span(p: real, k: nat): real {
    if k == 0 then 0.0 else Span(p, k - 1) + p
  }

  lemma {:induction false} SpanIsProduct(p: real, k: nat)
    ensures Span(p, k) == p * k as real
  {
    if k > 0 {
      SpanIsProduct(p, k - 1);
      assert p * (k - 1) as real + p == p * k as real;
    }
  }

  /** The instant k frames of p nanoseconds after t0. */
  function Instant(t0: nat, p: real, k: nat): real {
    t0 as real + p * k as real
  }

  /** t is x cut to a whole number. */
  predicate WholePart(x: real, t: nat) {
    t as real <= x < t as real + 1.0
  }

  lemma InstantIsSpan(t0: nat, p: real, k: nat)
    ensures Instant(t0, p, k) == t0 as real + Span(p, k)
  {
    SpanIsProduct(p, k);
  }

  lemma {:induction false} SpanAdd(p: real, a: nat, b: nat)
    ensures Span(p, a + b) == Span(p, a) + Span(p, b)
  {
    if b > 0 { SpanAdd(p, a, b - 1); }
  }

  lemma {:induction false} SpanMono(p: real, a: nat, b: nat)
    requires p >= 0.0 && a <= b
    ensures Span(p, a) <= Span(p, b)
    ensures a < b && p > 0.0 ==> Span(p, a) < Span(p, b)
    decreases b
  {
    if a < b { SpanMono(p, a, b - 1); }
  }

  /** Dividing by the frame length compares an instant with a span. */
  lemma DivBounds(x: real, p: real, k: nat)
    requires p > 0.0
    ensures x / p < k as real <==> x < Span(p, k)
  {
    SpanIsProduct(p, k);
    var q, r := x / p, k as real;
    assert q * p == x;
    if q < r {
      assert p * (r - q) > 0.0;
    } else {
      assert p * (q - r) >= 0.0;
    }
  }

  /** The frame number `(uint32_t)(x / p)` is the frame whose interval holds x. */
  lemma FrameOf(x: real, p: real)
    requires p > 0.0 && x >= 0.0
    ensures (x / p).Floor >= 0
    ensures Span(p, (x / p).Floor) <= x < Span(p, (x / p).Floor + 1)
  {
    var d := x / p;
    assert d * p == x;
    assert d >= 0.0;
    DivBounds(x, p, d.Floor);
    DivBounds(x, p, d.Floor + 1);
  }
}
