/** From a simulated voltage to the code a CV reader gets: `tt_sim_set_cv` and
    the scan and remap step of `sample_thread` (src/tt_core.c). */
module SimLoop {
  import opened Calibration
  import opened Reals
  import opened ScanRing
  import opened Scans

  /** The ADC code whose voltage would be v, before rounding. */
  function IdealCode(c: Channel, v: real): real
    requires c.scale != 0.0
  {
    c.offset + v / c.scale
  }

  function Clamped(x: real): real {
    if x < 0.0 then 0.0 else if x > 4095.0 then 4095.0 else x
  }

  /** A code within half a step of the ideal one reads back within half a step
      of the voltage. */
  lemma VoltsBack(c: Channel, v: real, code: Code)
    requires c.scale != 0.0 && Abs(code as real - IdealCode(c, v)) <= 0.5
    ensures Abs(CodeToVolts(c, code) - v) <= Abs(c.scale) / 2.0
  {
    var d := code as real - IdealCode(c, v);
    Quotient(v, c.scale);
    assert CodeToVolts(c, code) - v == d * c.scale;
    HalfStep(d, c.scale);
  }

  lemma Quotient(v: real, s: real)
    requires s != 0.0
    ensures v / s * s == v
  {}

  lemma HalfStep(d: real, s: real)
    requires Abs(d) <= 0.5
    ensures Abs(d * s) <= Abs(s) / 2.0
  {
    var x := if s >= 0.0 then s else -s;
    Product(0.5 - d, x);
    Product(0.5 + d, x);
    assert (0.5 - d) * x == 0.5 * x - d * x && (0.5 + d) * x == 0.5 * x + d * x;
  }

  class Device {
    const numCv: nat
    /** The ADC channel that feeds each panel input; no two share one. */
    const panelFromAdc: seq<nat>
    const raw: array<Code>
    const ring: CvRing
    var cal: Cal

    ghost predicate Valid()
      reads this, ring, ring.buf
    {
      && numCv <= MAX_CV == MAX_CHANNELS && raw.Length == MAX_CV && ring.Valid()
      && numCv <= |panelFromAdc| && (forall i :: 0 <= i < numCv ==> panelFromAdc[i] < MAX_CV)
      && forall i, j :: 0 <= i < j < numCv ==> panelFromAdc[i] != panelFromAdc[j]
    }

    constructor (numCv: nat, panelFromAdc: seq<nat>, cal: Cal, ring: CvRing)
      requires ring.Valid() && numCv <= MAX_CV && numCv <= |panelFromAdc|
      requires forall i :: 0 <= i < numCv ==> panelFromAdc[i] < MAX_CV
      requires forall i, j :: 0 <= i < j < numCv ==> panelFromAdc[i] != panelFromAdc[j]
      ensures Valid() && this.ring == ring && this.cal == cal && this.numCv == numCv
      ensures this.panelFromAdc == panelFromAdc
      ensures fresh(raw) && forall i :: 0 <= i < MAX_CV ==> raw[i] == 2048
    {
      this.numCv, this.panelFromAdc, this.cal, this.ring := numCv, panelFromAdc, cal, ring;
      raw := new Code[MAX_CV](_ => 2048);
    }

    /** What panel input i reads now. */
    function Panel(i: nat): Code
      requires Valid() && i < numCv
      reads this, raw, ring, ring.buf
    {
      raw[panelFromAdc[i]]
    }

    /** Sets the code that reads back as v, as nearly as 12 bits allow, on one
        panel input. Channels the board has not and scales of 0 are ignored. */
    method SetCv(channel: int, volts: real)
      requires Valid()
      modifies raw
      ensures Valid()
      ensures 0 <= channel < numCv && cal[channel].scale != 0.0 ==>
                Abs(Panel(channel) as real - Clamped(IdealCode(cal[channel], volts))) <= 0.5
                && Panel(channel) <= 4095
      ensures !(0 <= channel < numCv) || cal[channel].scale == 0.0 ==> raw[..] == old(raw[..])
      ensures forall i :: 0 <= i < numCv && i != channel ==> Panel(i) == old(Panel(i))
    {
      if channel < 0 || channel >= numCv { return; }
      if cal[channel].scale == 0.0 { return; }
      var code := cal[channel].offset + volts / cal[channel].scale;
      if code < 0.0 { code := 0.0; }
      if code > 4095.0 { code := 4095.0; }
      raw[panelFromAdc[channel]] := (code + 0.5).Floor;
    }

    /** One pass of the sampling thread: scan, reorder into panel positions, push. */
    method SampleOnce(t: nat)
      requires Valid() && ring.pushing.PIdle?
      modifies ring`widx, ring`history, ring.buf
      ensures Valid() && |ring.history| == |old(ring.history)| + 1 && old(ring.history) <= ring.history
      ensures var s := ring.history[|ring.history| - 1];
              s.t == t && forall i :: 0 <= i < MAX_CV ==> s.raw[i] == if i < numCv then Panel(i) else 0
    {
      hide CvRing.Valid;
      var panel: seq<Code> := [];
      for i := 0 to numCv
        invariant |panel| == i && forall k :: 0 <= k < i ==> panel[k] == raw[panelFromAdc[k]]
        invariant ring.history == old(ring.history) && Valid()
      {
        panel := panel + [raw[panelFromAdc[i]]];
      }
      ring.Push(t, panel, numCv);
    }

    /** Set volts, take a scan, read the volts back: within half a code step on
        that input, whatever the wiring; every other input is as before. The read
        goes on beside the sampling thread, if there is one, and can fail or be
        inexact only when that has pushed another ring of scans meanwhile. */
    method SetThenRead(channel: nat, volts: real, t: nat) returns (ok: bool, read: real)
      requires Valid() && ring.pushing.PIdle? && channel < numCv && cal[channel].scale != 0.0
      requires 0.0 <= IdealCode(cal[channel], volts) <= 4095.0
      modifies raw, ring`widx, ring`pushing, ring`history, ring.buf
      ensures Valid() && |old(ring.history)| < |ring.history|
      ensures InReach(ring.history, |old(ring.history)|, ring.size) ==>
                ok && Abs(read - volts) <= Abs(cal[channel].scale) / 2.0
      ensures !ring.shared ==> InReach(ring.history, |old(ring.history)|, ring.size)
      ensures forall i :: 0 <= i < numCv && i != channel ==>
                ring.history[|old(ring.history)|].raw[i] == old(Panel(i))
    {
      ring.Visible();
      hide CvRing.Valid;
      SetCv(channel, volts);
      SampleOnce(t);
      var w := ring.Count();
      var g, s := ring.Get(w - 1);
      ok := g == 0;
      VoltsBack(cal[channel], volts, ring.history[w - 1].raw[channel]);
      read := CodeToVolts(cal[channel], s.raw[channel]);
    }
  }
}
