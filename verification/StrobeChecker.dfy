/** check_wr_tx's test of write strobes, and why the bridge passes it. */
module StrobeChecker {
  import opened AxiBurst
  import opened AxiBeats
  import opened Common

  /** The address phase of a write as the checker has sampled it. */
  datatype Sampled = Sampled(fixed: bool, addr: nat, numberBytes: nat, numBeats: nat)

  /** The address of a beat (from 1), section A3.4.1 of ARM IHI 0022D. */
  function BeatAddress(t: Sampled, beat: nat): nat
    requires t.numberBytes > 0 && beat > 0
  {
    if beat == 1 then t.addr
    else AlignDown(t.addr, t.numberBytes) + (if t.fixed then 0 else (beat - 1) * t.numberBytes)
  }

  /** The lanes a beat may use: from its address to the end of its transfer, which
      a transfer wider than the bus may have beyond it. */
  function Lower(t: Sampled, beat: nat, bus: nat): nat
    requires t.numberBytes > 0 && bus > 0 && beat > 0
  {
    BeatAddress(t, beat) % bus
  }

  function Upper(t: Sampled, beat: nat, bus: nat): nat
    requires t.numberBytes > 0 && bus > 0 && beat > 0
  {
    Lower(t, beat, bus) + (t.numberBytes - 1) - BeatAddress(t, beat) % t.numberBytes
  }

  /** What strobes must look like. Nothing outside the lanes; and without gaps, all
      of them, except that the last beat may stop early but not before its first. */
  ghost predicate InLanes(strb: seq<bool>, lower: nat, upper: nat, last: bool, allowGaps: bool)
    requires lower < |strb|
  {
    && (forall l :: 0 <= l < |strb| && strb[l] ==> lower <= l <= upper)
    && (allowGaps ||
        if last then
          strb[lower] && forall l, m :: lower <= l < m < |strb| && m <= upper && strb[m] ==> strb[l]
        else forall l :: lower <= l <= upper && l < |strb| ==> strb[l])
  }

  ghost predicate Accepts(t: Sampled, beat: nat, strb: seq<bool>, allowGaps: bool)
    requires t.numberBytes > 0 && |strb| > 0 && beat > 0
  {
    InLanes(strb, Lower(t, beat, |strb|), Upper(t, beat, |strb|), beat == t.numBeats, allowGaps)
  }

  /** The strobes are set on n lanes from `lower` on and nowhere else. */
  ghost predicate Run(strb: seq<bool>, lower: nat, n: nat) {
    lower + n <= |strb| && forall l :: 0 <= l < |strb| ==> (strb[l] <==> lower <= l < lower + n)
  }

  /** Without gaps the strobes are one run from the first lane, of at least one lane
      and, except in the last beat, of all of them. */
  lemma AcceptedIffRun(strb: seq<bool>, lower: nat, upper: nat, last: bool)
    requires lower <= upper < |strb|
    ensures InLanes(strb, lower, upper, last, false)
            <==> exists n: nat :: 0 < n <= upper - lower + 1 && (last || n == upper - lower + 1) && Run(strb, lower, n)
  {
    if InLanes(strb, lower, upper, last, false) {
      var n := 1;
      while n < upper - lower + 1 && strb[lower + n]
        invariant 0 < n <= upper - lower + 1 && forall l :: lower <= l < lower + n ==> strb[l]
      {
        n := n + 1;
      }
      assert Run(strb, lower, n);
    }
  }

  /** The scan without gaps looks past the strobes: the lanes go on, and every
      strobe on the bus is as expected. */
  ghost predicate LeavesBus(strb: seq<bool>, lower: nat, upper: nat, allowGaps: bool) {
    !allowGaps && upper >= |strb| && forall l :: 0 <= l < |strb| ==> (strb[l] <==> lower <= l)
  }

  /** AXI transfers fit on the bus. */
  ghost predicate Fits(t: Sampled, bus: nat) {
    IsWidth(t.numberBytes) && IsWidth(bus) && t.numberBytes <= bus
  }

  lemma LanesOnBus(t: Sampled, beat: nat, bus: nat)
    requires Fits(t, bus) && beat > 0
    ensures Lower(t, beat, bus) <= Upper(t, beat, bus) < bus
  {
    WidthDivides(t.numberBytes, bus);
    SlotOnBus(BeatAddress(t, beat), t.numberBytes, bus);
  }

  /** The transfer's end does not depend on where in it the address is. */
  lemma UpperOfAligned(t: Sampled, bus: nat)
    requires t.numberBytes > 0 && bus > 0
    ensures AlignDown(t.addr, t.numberBytes) + (t.numberBytes - 1) - AlignDown(t.addr, bus) == Upper(t, 1, bus)
  {
  }

  lemma UpperOfLater(t: Sampled, beat: nat, bus: nat)
    requires t.numberBytes > 0 && bus > 0 && beat > 1
    ensures BeatAddress(t, beat) % t.numberBytes == 0
    ensures Upper(t, beat, bus) == Lower(t, beat, bus) + (t.numberBytes - 1)
  {
    var q, w := t.addr / t.numberBytes, t.numberBytes;
    assert t.addr == q * w + t.addr % w;
    var k := if t.fixed then 0 else beat - 1;
    assert BeatAddress(t, beat) == (q + k) * w + 0;
    DivModUnique(BeatAddress(t, beat), w, q + k, 0);
  }

  /** CheckWstrb: the lanes. */
  method Lanes(t: Sampled, beat: nat, bus: nat) returns (lower: nat, upper: nat)
    requires t.numberBytes > 0 && bus > 0 && beat > 0
    ensures lower == Lower(t, beat, bus) && upper == Upper(t, beat, bus)
  {
    var aligned := AlignDown(t.addr, t.numberBytes);
    if beat == 1 {
      UpperOfAligned(t, bus);
      lower := t.addr - AlignDown(t.addr, bus);
      upper := aligned + (t.numberBytes - 1) - AlignDown(t.addr, bus);
    } else {
      UpperOfLater(t, beat, bus);
      var addr := aligned;
      if !t.fixed { addr := addr + (beat - 1) * t.numberBytes; }
      lower := addr - AlignDown(addr, bus);
      upper := lower + (t.numberBytes - 1);
    }
  }

  /** CheckWstrb: the strobes. No verdict when the scan leaves them. */
  method CheckLanes(strb: seq<bool>, lower: nat, upper: nat, last: bool, allowGaps: bool) returns (ok: Option<bool>)
    requires lower <= upper && lower < |strb|
    ensures ok.None? <==> LeavesBus(strb, lower, upper, allowGaps)
    ensures ok.Some? ==> (ok.value <==> InLanes(strb, lower, upper, last, allowGaps))
  {
    var i := 0;
    while i < lower
      invariant i <= lower && forall l :: 0 <= l < i ==> !strb[l]
    {
      if strb[i] { return Some(false); }
      i := i + 1;
    }
    if !allowGaps {
      if last {
        if !strb[i] { return Some(false); }
        i := i + 1;
        while i <= upper
          invariant lower < i <= upper + 1 && i <= |strb| && forall l :: lower <= l < i ==> strb[l]
        {
          if i == |strb| { return None; }
          if !strb[i] { break; }
          i := i + 1;
        }
      } else {
        while i <= upper
          invariant lower <= i <= upper + 1 && i <= |strb| && forall l :: lower <= l < i ==> strb[l]
        {
          if i == |strb| { return None; }
          if !strb[i] { return Some(false); }
          i := i + 1;
        }
      }
    } else {
      i := upper + 1;
    }
    ghost var start := i;
    while i < |strb|
      invariant start <= i && forall l :: start <= l < i && l < |strb| ==> !strb[l]
    {
      if strb[i] { return Some(false); }
      i := i + 1;
    }
    ok := Some(true);
  }

  /** CheckWstrb. A verdict is always that of the specification, and there is one
      unless the scan leaves the strobes. */
  method CheckWstrb(t: Sampled, beat: nat, strb: seq<bool>, allowGaps: bool) returns (ok: Option<bool>)
    requires t.numberBytes > 0 && |strb| > 0 && beat > 0
    ensures ok.None? <==> LeavesBus(strb, Lower(t, beat, |strb|), Upper(t, beat, |strb|), allowGaps)
    ensures ok.Some? ==> (ok.value <==> Accepts(t, beat, strb, allowGaps))
  {
    var lower, upper := Lanes(t, beat, |strb|);
    ok := CheckLanes(strb, lower, upper, beat == t.numBeats, allowGaps);
  }

  /** Which beats the scan stays inside the strobes for, whatever they are: with
      gaps allowed any, without them those of transfers no wider than the bus, and
      a first beat at the very end of a wider transfer. */
  lemma StaysOnBusIff(t: Sampled, beat: nat, bus: nat, allowGaps: bool)
    requires IsWidth(t.numberBytes) && IsWidth(bus) && beat > 0
    ensures (forall strb: seq<bool> :: |strb| == bus ==>
               !LeavesBus(strb, Lower(t, beat, bus), Upper(t, beat, bus), allowGaps))
            <==> || allowGaps || t.numberBytes <= bus
                 || BeatAddress(t, beat) % t.numberBytes >= t.numberBytes - bus
  {
    UpperOnBusIff(t, beat, bus);
    if !allowGaps && Upper(t, beat, bus) >= bus {
      var lower := Lower(t, beat, bus);
      var strb := seq(bus, l => lower <= l);
      assert |strb| == bus && LeavesBus(strb, lower, Upper(t, beat, bus), allowGaps);
    }
  }

  lemma UpperOnBusIff(t: Sampled, beat: nat, bus: nat)
    requires IsWidth(t.numberBytes) && IsWidth(bus) && beat > 0
    ensures Upper(t, beat, bus) < bus <==>
              t.numberBytes <= bus || BeatAddress(t, beat) % t.numberBytes >= t.numberBytes - bus
  {
    hide BeatAddress;
    SlotEnd(BeatAddress(t, beat), t.numberBytes, bus);
  }

  lemma SlotEnd(a: nat, w: nat, bus: nat)
    requires IsWidth(w) && IsWidth(bus)
    ensures w > 0 && bus > 0
    ensures a % bus + (w - a % w) <= bus <==> w <= bus || a % w >= w - bus
  {
    if w <= bus {
      WidthDivides(w, bus);
      SlotOnBus(a, w, bus);
    } else {
      WidthDivides(bus, w);
      WideSlotEnd(a, w, bus);
    }
  }

  lemma WideSlotEnd(a: nat, w: nat, bus: nat)
    requires 0 < bus < w && w % bus == 0
    ensures a % bus + (w - a % w) <= bus <==> a % w >= w - bus
  {
    SlotOnBus(a, bus, w);
    DivMod(w, bus);
    DivMod(a % w, bus);
    LastBusPart(a % w, a % bus, a % w / bus, w / bus, bus, w);
  }

  lemma LastBusPart(off: nat, r: nat, q: nat, m: nat, bus: nat, w: nat)
    requires 0 < bus && w == m * bus && off == q * bus + r && off < w && r < bus
    ensures r + (w - off) <= bus <==> off >= w - bus
  {
    assert (m - q) * bus == w - q * bus;
    assert (m - q - 1) * bus == w - q * bus - bus;
    Multiples(m - q - 1, bus);
  }

  // ---- the bridge's own bursts ----

  /** What the checker samples when the bridge sends a burst. */
  function SampledFrom(b: Burst): Sampled
    requires b.Fits()
  {
    Sampled(b.fixed, b.addr, b.width, b.NumBeats())
  }

  lemma SameLanes(b: Burst, k: nat)
    requires b.Fits() && (!b.fixed || b.Offset() == 0 || k == 0) && Start(b, k) < b.len
    ensures var t := SampledFrom(b);
            && Lower(t, k + 1, b.bus) == Lane(b, AddrPos(b, k))
            && Upper(t, k + 1, b.bus) + 1 == Lane(b, AddrPos(b, k)) + (Start(b, k + 1) - Start(b, k))
  {
    BeatLens(b, k);
    BeatAligned(b, k);
    StartNext(b, k);
  }

  /** Every beat but the last fills its lanes. */
  lemma LanesFilled(b: Burst, k: nat)
    requires b.Fits() && k < b.NumBeats() && (!b.fixed || b.Offset() == 0) && Start(b, k) < b.len
    ensures var t, n := SampledFrom(b), BeatBytes(b, k);
            && n > 0 && Lower(t, k + 1, b.bus) == Lane(b, AddrPos(b, k))
            && Lower(t, k + 1, b.bus) + n - 1 <= Upper(t, k + 1, b.bus) < b.bus
            && (k + 1 != b.NumBeats() ==> Lower(t, k + 1, b.bus) + n - 1 == Upper(t, k + 1, b.bus))
  {
    BeatsCover(b, k + 1);
    StartNext(b, k);
    SameLanes(b, k);
    LanesOnBus(SampledFrom(b), k + 1, b.bus);
  }

  lemma RunAccepted(t: Sampled, beat: nat, strb: seq<bool>, n: nat, allowGaps: bool)
    requires t.numberBytes > 0 && |strb| > 0 && beat > 0 && n > 0
    requires var lower, upper := Lower(t, beat, |strb|), Upper(t, beat, |strb|);
      && lower + n - 1 <= upper < |strb| && (beat != t.numBeats ==> lower + n - 1 == upper)
      && (forall l :: 0 <= l < |strb| && strb[l] ==> lower <= l < lower + n)
      && (allowGaps || forall l :: lower <= l < lower + n ==> strb[l])
    ensures Accepts(t, beat, strb, allowGaps)
  {
  }

  lemma AllEnabled(be: seq<bool>, i: nat)
    requires forall j :: 0 <= j < |be| ==> be[j]
    ensures Enabled(be, i)
  {
  }

  ghost predicate StrobesRun(strb: seq<bool>, lane: nat, n: nat, be: seq<bool>) {
    && (forall l :: 0 <= l < |strb| && strb[l] ==> lane <= l < lane + n)
    && ((forall i :: 0 <= i < |be| ==> be[i]) ==> forall l :: 0 <= l < |strb| && lane <= l < lane + n ==> strb[l])
  }

  lemma StrobeLanesRun(be: seq<bool>, bus: nat, lane: nat, pos: nat, n: nat)
    ensures StrobesRun(StrobeLanes(be, bus, lane, pos, n), lane, n, be)
  {
    var strb := StrobeLanes(be, bus, lane, pos, n);
    if forall i :: 0 <= i < |be| ==> be[i] {
      forall l | 0 <= l < |strb| && lane <= l < lane + n ensures strb[l] {
        AllEnabled(be, pos + (l - lane));
      }
    }
  }

  lemma StrobesOfBeat(b: Burst, data: seq<byte>, be: seq<bool>, k: nat)
    requires b.Fits() && |data| == b.len && k < b.NumBeats() && Start(b, k) < b.len
    ensures StrobesRun(Wire(b, data, be)[k].strb, Lane(b, AddrPos(b, k)), BeatBytes(b, k), be)
  {
    StrobeLanesRun(be, b.bus, Lane(b, AddrPos(b, k)), AddrPos(b, k), BeatBytes(b, k));
  }

  /** An INCR burst passes beat by beat: with gaps disallowed when all its bytes
      are enabled, with gaps allowed whatever its enables. So does an aligned FIXED
      burst. */
  lemma BridgeAccepted(b: Burst, data: seq<byte>, be: seq<bool>, k: nat, allowGaps: bool)
    requires InBeats(b) && |data| == b.len && k < b.NumBeats() && (!b.fixed || b.Offset() == 0)
    requires allowGaps || forall i :: 0 <= i < |be| ==> be[i]
    ensures Accepts(SampledFrom(b), k + 1, Wire(b, data, be)[k].strb, allowGaps)
  {
    BeatsCover(b, k);
    LanesFilled(b, k);
    StrobesOfBeat(b, data, be, k);
    RunAccepted(SampledFrom(b), k + 1, Wire(b, data, be)[k].strb, BeatBytes(b, k), allowGaps);
  }

  /** A FIXED burst off its transfer is refused from the second beat on: the
      bridge starts every beat at the address, the checker expects the later ones
      to start where the transfer does. */
  lemma UnalignedFixedRefused(b: Burst, data: seq<byte>, k: nat)
    requires InBeats(b) && |data| == b.len && 0 < k < b.NumBeats() && b.fixed
    ensures Accepts(SampledFrom(b), k + 1, Wire(b, data, [])[k].strb, false) <==> b.Offset() == 0
  {
    if b.Offset() == 0 {
      BridgeAccepted(b, data, [], k, false);
    } else {
      var t := SampledFrom(b);
      UpperOfLater(t, k + 1, b.bus);
      LanesOnBus(t, k + 1, b.bus);
      AlignedLower(b.addr, b.width, b.bus);
      Small(0, b.sw);
      assert Lower(t, k + 1, b.bus) < Lane(b, 0);
      assert !Wire(b, data, [])[k].strb[Lower(t, k + 1, b.bus)];
    }
  }

  lemma AlignedLower(a: nat, w: nat, bus: nat)
    requires IsWidth(w) && IsWidth(bus) && w <= bus
    ensures AlignDown(a, w) % bus == a % bus - a % w
  {
    WidthDivides(w, bus);
    SlotOnBus(a, w, bus);
    Below(a % bus, w);
    DivModUnique(AlignDown(a, w), bus, a / bus, a % bus - a % w);
  }

  lemma Below(x: nat, w: nat)
    requires w > 0
    ensures x % w <= x
  {
  }
}
