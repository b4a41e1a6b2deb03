/** axi2tlm_bridge rebuilds payloads from beats, and answers reads with beats:
    what tlm2axi_bridge sends is what arrives, as long as write transfers are as
    wide as the bus. */
module AxiRoundTrip {
  import opened AxiBurst
  import opened AxiBeats
  import opened Common

  /** The generic payload under construction, and m_dataIdx. */
  datatype Payload = Payload(data: seq<byte>, be: seq<bool>, idx: nat) {
    predicate Valid() {
      |data| == |be| && idx <= |be|
    }
  }

  /** GetDataLen. */
  function DataLen(addr: nat, numberBytes: nat, burstLen: nat): nat
    requires numberBytes > 0 && burstLen > 0
  {
    numberBytes - (addr - AlignDown(addr, numberBytes)) + (burstLen - 1) * numberBytes
  }

  lemma DataLenIsStart(b: Burst)
    requires b.Valid() && !b.fixed
    ensures b.NumBeats() > 0 && DataLen(b.addr, b.width, b.NumBeats()) == Start(b, b.NumBeats()) >= b.len
  {
    BeatsCover(b, 0);
    BeatsCover(b, b.NumBeats());
    var n, w := b.NumBeats(), b.width;
    assert (n - 1) * w + w == n * w;
  }

  /** The lane FillData starts from. */
  function FirstLane(addr: nat, bus: nat, first: bool): (l: nat)
    requires bus > 0
    ensures l < bus
  {
    if first then addr - AlignDown(addr, bus) else 0
  }

  /** FillData on values: from the first lane on, until the bus or the payload
      ends. */
  function Fill(p: Payload, addr: nat, bus: nat, first: bool, beat: WBeat): (q: Payload)
    requires p.Valid() && bus > 0 && |beat.data| == |beat.strb| == bus
    ensures q.Valid() && |q.be| == |p.be| && p.idx <= q.idx
  {
    var i := FirstLane(addr, bus, first);
    var n := Min(bus - i, |p.data| - p.idx);
    Payload(
      seq(|p.data|, j requires 0 <= j < |p.data| =>
        if p.idx <= j < p.idx + n && beat.strb[i + (j - p.idx)] then beat.data[i + (j - p.idx)] else p.data[j]),
      seq(|p.be|, j requires 0 <= j < |p.be| =>
        if p.idx <= j < p.idx + n then beat.strb[i + (j - p.idx)] else p.be[j]),
      p.idx + n)
  }

  /** What has been filled in stays. */
  ghost predicate Extends(p: Payload, q: Payload) {
    && p.Valid() && q.Valid() && p.idx <= q.idx && |q.be| == |p.be|
    && forall j :: 0 <= j < p.idx ==> q.be[j] == p.be[j] && q.data[j] == p.data[j]
  }

  lemma FillExtends(p: Payload, addr: nat, bus: nat, first: bool, beat: WBeat)
    requires p.Valid() && bus > 0 && |beat.data| == |beat.strb| == bus
    ensures Extends(p, Fill(p, addr, bus, first, beat))
  {
  }

  lemma ExtendsTrans(p: Payload, q: Payload, r: Payload)
    requires Extends(p, q) && Extends(q, r)
    ensures Extends(p, r)
  {
  }

  ghost predicate BeatsFit(bus: nat, beats: seq<WBeat>) {
    bus > 0 && forall k :: 0 <= k < |beats| ==> |beats[k].data| == |beats[k].strb| == bus
  }

  /** The first k beats. */
  function FillUpTo(p: Payload, addr: nat, bus: nat, beats: seq<WBeat>, k: nat): (q: Payload)
    requires p.Valid() && BeatsFit(bus, beats) && k <= |beats|
    ensures q.Valid() && |q.be| == |p.be|
  {
    if k == 0 then p
    else Fill(FillUpTo(p, addr, bus, beats, k - 1), addr, bus, k == 1, beats[k - 1])
  }

  function FillAll(p: Payload, addr: nat, bus: nat, beats: seq<WBeat>): (q: Payload)
    requires p.Valid() && BeatsFit(bus, beats)
    ensures q.Valid() && |q.be| == |p.be|
  {
    FillUpTo(p, addr, bus, beats, |beats|)
  }

  /** axi2tlm_bridge::Transaction, for INCR bursts. */
  class Transaction {
    const address: nat
    const numberBytes: nat
    const burstLen: nat
    const bus: nat
    const data: array<byte>
    const be: array<bool>
    var dataIdx: nat
    var beat: nat

    constructor (address: nat, burstLen: nat, numberBytes: nat, bus: nat)
      requires IsWidth(numberBytes) && IsWidth(bus) && numberBytes <= bus && burstLen > 0
      ensures this.address == address && this.burstLen == burstLen
      ensures this.numberBytes == numberBytes && this.bus == bus
      ensures Valid() && fresh(data) && fresh(be) && beat == 1 && dataIdx == 0
      ensures data.Length == DataLen(address, numberBytes, burstLen)
    {
      this.address, this.burstLen, this.numberBytes, this.bus := address, burstLen, numberBytes, bus;
      this.data := new byte[DataLen(address, numberBytes, burstLen)];
      this.be := new bool[DataLen(address, numberBytes, burstLen)];
      dataIdx, beat := 0, 1;
    }

    ghost predicate Valid()
      reads this
    {
      bus > 0 && data.Length == be.Length && dataIdx <= data.Length && beat > 0
    }

    ghost function Value(): (p: Payload)
      reads this, data, be
      requires Valid()
      ensures p.Valid()
    {
      Payload(data[..], be[..], dataIdx)
    }

    method FillData(w: WBeat)
      requires Valid() && |w.data| == |w.strb| == bus
      modifies this`dataIdx, data, be
      ensures Valid() && Value() == Fill(old(Value()), address, bus, beat == 1, w)
    {
      var i := FirstLane(address, bus, beat == 1);
      ghost var start := i;
      while i < bus && dataIdx < data.Length
        invariant start <= i <= bus && old(dataIdx) <= dataIdx <= data.Length
        invariant i - start == dataIdx - old(dataIdx)
        invariant forall j :: 0 <= j < data.Length ==>
                    data[j] == if old(dataIdx) <= j < dataIdx && w.strb[start + (j - old(dataIdx))]
                               then w.data[start + (j - old(dataIdx))] else old(data[j])
        invariant forall j :: 0 <= j < be.Length ==>
                    be[j] == if old(dataIdx) <= j < dataIdx then w.strb[start + (j - old(dataIdx))] else old(be[j])
        decreases bus - i
      {
        be[dataIdx] := w.strb[i];
        if w.strb[i] { data[dataIdx] := w.data[i]; }
        dataIdx := dataIdx + 1;
        i := i + 1;
      }
    }

    /** write_data_phase, for the beats of one transaction. */
    method WriteDataPhase(beats: seq<WBeat>)
      requires Valid() && beat == 1 && BeatsFit(bus, beats)
      modifies this`dataIdx, this`beat, data, be
      ensures Valid() && Value() == FillAll(old(Value()), address, bus, beats)
    {
      var k := 0;
      while k < |beats|
        invariant k <= |beats| && beat == k + 1
        invariant Valid() && Value() == FillUpTo(old(Value()), address, bus, beats, k)
      {
        FillData(beats[k]);
        beat := beat + 1;
        k := k + 1;
      }
    }

    /** GetData: the lanes of the beat. */
    method ReadLanes(ghost b: Burst) returns (lower: nat, upper: nat)
      requires Serves(this, b) && beat <= burstLen
      ensures lower == Lane(b, AddrPos(b, beat - 1))
      ensures lower <= upper < bus && upper - lower + 1 == Start(b, beat) - Start(b, beat - 1)
    {
      var aligned := AlignDown(address, numberBytes);
      GetDataLanes(b, beat - 1);
      if beat == 1 {
        lower := address - AlignDown(address, bus);
        upper := aligned + (numberBytes - 1) - AlignDown(address, bus);
      } else {
        var beatAddress := aligned + (beat - 1) * numberBytes;
        lower := beatAddress - AlignDown(beatAddress, bus);
        upper := lower + (numberBytes - 1);
      }
    }

    /** GetData: `rdata` is what the channel still holds. */
    method GetData(ghost b: Burst, rdata: seq<byte>) returns (out: seq<byte>)
      requires Serves(this, b) && |rdata| == bus && beat <= burstLen && dataIdx == Start(b, beat - 1)
      modifies this`dataIdx
      ensures Valid() && old(dataIdx) < dataIdx == Start(b, beat)
      ensures |out| == bus && Lane(b, AddrPos(b, beat - 1)) + (dataIdx - old(dataIdx)) <= bus
      ensures var lane := Lane(b, AddrPos(b, beat - 1));
        forall l :: 0 <= l < |out| ==>
          out[l] == if lane <= l < lane + (dataIdx - old(dataIdx)) then data[old(dataIdx) + (l - lane)] else rdata[l]
    {
      var lower, upper := ReadLanes(b);
      StartGrows(b, beat, b.NumBeats());
      out := CopyLanes(lower, upper, rdata);
    }

    method CopyLanes(lower: nat, upper: nat, rdata: seq<byte>) returns (out: seq<byte>)
      requires Valid() && |rdata| == bus && lower <= upper < bus && dataIdx + (upper + 1 - lower) <= data.Length
      modifies this`dataIdx
      ensures Valid() && dataIdx == old(dataIdx) + (upper + 1 - lower)
      ensures |out| == bus
      ensures forall l :: 0 <= l < |out| ==>
                out[l] == if lower <= l <= upper then data[old(dataIdx) + (l - lower)] else rdata[l]
    {
      out := rdata;
      var i := 0;
      while i < bus
        invariant i <= bus && |out| == bus
        invariant dataIdx == old(dataIdx) + (if i <= lower then 0 else Min(i, upper + 1) - lower)
        invariant forall l :: 0 <= l < |out| ==>
                    out[l] == if lower <= l <= upper && l < i then data[old(dataIdx) + (l - lower)] else rdata[l]
      {
        if lower <= i <= upper {
          out := out[i := data[dataIdx]];
          dataIdx := dataIdx + 1;
        }
        i := i + 1;
      }
    }

    /** read_data_phase of one transaction, whose data the target has filled in. */
    method ReadDataPhase(ghost b: Burst, rdata: seq<byte>) returns (beats: seq<seq<byte>>)
      requires Serves(this, b) && |rdata| == bus && beat == 1 && dataIdx == 0
      modifies this`dataIdx, this`beat
      ensures b.len <= data.Length && Bring(b, data[..b.len], beats)
    {
      beats := [];
      var held := rdata;
      ghost var payload := data[..];
      while beat <= burstLen
        invariant 0 < beat <= burstLen + 1 && Valid() && |held| == bus && payload == data[..]
        invariant dataIdx == Start(b, beat - 1)
        invariant BeatsHold(b, payload, beats, beat - 1)
      {
        held := GetData(b, held);
        LanesHold(b, payload, beats, held);
        beats := beats + [held];
        beat := beat + 1;
      }
      BringsPayload(b, payload, beats);
    }
  }

  // ---- reads ----

  /** The burst a transaction serves. */
  ghost predicate Serves(t: Transaction, b: Burst)
    reads t
  {
    && b.Fits() && !b.fixed && t.Valid() && t.address == b.addr && t.numberBytes == b.width && t.bus == b.bus
    && t.burstLen == b.NumBeats() && t.data.Length == Start(b, b.NumBeats())
  }

  /** The lanes GetData fills at beat k are those where the master looks. */
  lemma GetDataLanes(b: Burst, k: nat)
    requires b.Fits() && !b.fixed && k < b.NumBeats()
    ensures var aligned := AlignDown(b.addr, b.width);
            var n := Start(b, k + 1) - Start(b, k);
      && 0 < n <= b.bus - Lane(b, AddrPos(b, k))
      && (k == 0 ==> && b.addr - AlignDown(b.addr, b.bus) == Lane(b, AddrPos(b, k))
                     && aligned + (b.width - 1) - AlignDown(b.addr, b.bus) + 1 == Lane(b, AddrPos(b, k)) + n)
      && (k > 0 ==> && aligned + k * b.width - AlignDown(aligned + k * b.width, b.bus) == Lane(b, AddrPos(b, k))
                    && n == b.width)
  {
    BeatsCover(b, k);
    BeatLens(b, k);
    StartNext(b, k);
  }

  /** Beat k, as the master will read it. */
  ghost predicate BeatHolds(b: Burst, payload: seq<byte>, k: nat, beat: seq<byte>)
    requires b.Valid() && |payload| == Start(b, b.NumBeats())
  {
    |beat| == b.bus &&
    forall i: nat :: Start(b, k) <= i < Start(b, k + 1) && i < |payload| ==>
      var l := Lane(b, AddrPos(b, k)) + (i - Start(b, k)); l < b.bus && beat[l] == payload[i]
  }

  ghost predicate BeatsHold(b: Burst, payload: seq<byte>, beats: seq<seq<byte>>, n: nat)
    requires b.Valid()
  {
    |payload| == Start(b, b.NumBeats()) && |beats| == n
    && forall k :: 0 <= k < |beats| ==> BeatHolds(b, payload, k, beats[k])
  }

  lemma LanesHold(b: Burst, payload: seq<byte>, beats: seq<seq<byte>>, out: seq<byte>)
    requires b.Valid() && |out| == b.bus && BeatsHold(b, payload, beats, |beats|)
    requires var k := |beats|;
      var lane, n := Lane(b, AddrPos(b, k)), Start(b, k + 1) - Start(b, k);
      && Start(b, k + 1) <= |payload| && lane + n <= b.bus
      && forall l :: lane <= l < lane + n ==> out[l] == payload[Start(b, k) + (l - lane)]
    ensures BeatsHold(b, payload, beats + [out], |beats| + 1)
  {
    assert BeatHolds(b, payload, |beats|, out);
  }

  lemma BringsPayload(b: Burst, payload: seq<byte>, beats: seq<seq<byte>>)
    requires b.Fits() && !b.fixed && |payload| == Start(b, b.NumBeats()) && |beats| == b.NumBeats()
    requires forall k :: 0 <= k < |beats| ==> BeatHolds(b, payload, k, beats[k])
    ensures b.len <= |payload| && Bring(b, payload[..b.len], beats)
  {
    DataLenIsStart(b);
    forall i: nat | i < b.len
      ensures BeatOf(b, i) < |beats| && beats[BeatOf(b, i)][AddressOf(b, i) % b.bus] == payload[i]
    {
      BeatOfBounds(b, i);
      LaneOf(b, BeatOf(b, i), i);
      assert BeatHolds(b, payload, BeatOf(b, i), beats[BeatOf(b, i)]);
    }
  }

  // ---- writes ----

  /** Exactly the enabled bytes have arrived, each at its own index and so at its
      own address; the padding up to whole transfers is disabled. */
  ghost predicate Arrived(b: Burst, data: seq<byte>, be: seq<bool>, p: Payload) {
    && |data| == b.len <= |p.be| == |p.data|
    && forall i :: 0 <= i < |p.be| ==>
         && p.be[i] == (i < b.len && Enabled(be, i))
         && (p.be[i] ==> p.data[i] == data[i])
  }

  /** A payload the receiver has just allocated for a burst. */
  ghost predicate Fresh(b: Burst, p: Payload) {
    b.Fits() && !b.fixed && p.Valid() && p.idx == 0 && |p.be| == Start(b, b.NumBeats())
  }

  /** The receiver takes beat k from the lanes the sender put it on, and no more. */
  ghost predicate InStep(b: Burst, k: nat)
    requires b.Fits() && !b.fixed && k < b.NumBeats()
  {
    var i := FirstLane(b.addr, b.bus, k == 0);
    && Lane(b, AddrPos(b, k)) == i
    && Min(b.bus - i, Start(b, b.NumBeats()) - Start(b, k)) == Start(b, k + 1) - Start(b, k)
  }

  /** The receiver has taken the first k beats, each byte right. */
  ghost predicate Took(b: Burst, data: seq<byte>, be: seq<bool>, p: Payload, k: nat) {
    && b.Valid() && p.Valid() && |data| == b.len && |p.be| == Start(b, b.NumBeats()) && p.idx == Start(b, k)
    && forall i :: 0 <= i < p.idx ==>
         && p.be[i] == (i < b.len && Enabled(be, i))
         && (p.be[i] ==> p.data[i] == data[i])
  }

  lemma FillByte(b: Burst, data: seq<byte>, be: seq<bool>, p: Payload, k: nat, i: nat)
    requires b.Valid() && |data| == b.len && k < b.NumBeats() && p.Valid()
    requires p.idx == Start(b, k) <= i < Start(b, k + 1) <= |p.be|
    requires Lane(b, AddrPos(b, k)) == FirstLane(b.addr, b.bus, k == 0) && !b.fixed
    requires FirstLane(b.addr, b.bus, k == 0) + (i - p.idx) < b.bus
    ensures var q := Fill(p, b.addr, b.bus, k == 0, Wire(b, data, be)[k]);
            q.be[i] == (i < b.len && Enabled(be, i)) && (q.be[i] ==> q.data[i] == data[i])
  {
    BeatsCover(b, k);
  }

  lemma FillStep(b: Burst, data: seq<byte>, be: seq<bool>, p: Payload, k: nat)
    requires b.Fits() && !b.fixed && k < b.NumBeats() && InStep(b, k) && Took(b, data, be, p, k)
    ensures Took(b, data, be, Fill(p, b.addr, b.bus, k == 0, Wire(b, data, be)[k]), k + 1)
  {
    var q := Fill(p, b.addr, b.bus, k == 0, Wire(b, data, be)[k]);
    FillExtends(p, b.addr, b.bus, k == 0, Wire(b, data, be)[k]);
    forall i | p.idx <= i < q.idx
      ensures q.be[i] == (i < b.len && Enabled(be, i)) && (q.be[i] ==> q.data[i] == data[i])
    {
      FillByte(b, data, be, p, k, i);
    }
  }

  lemma TookNone(b: Burst, data: seq<byte>, be: seq<bool>, p: Payload)
    requires Fresh(b, p) && |data| == b.len
    ensures Took(b, data, be, FillUpTo(p, b.addr, b.bus, Wire(b, data, be), 0), 0)
  {
  }

  lemma {:induction false} ReceivedUpTo(b: Burst, data: seq<byte>, be: seq<bool>, p: Payload, k: nat)
    requires Fresh(b, p) && |data| == b.len && k <= b.NumBeats()
    requires forall j :: 0 <= j < k ==> InStep(b, j)
    ensures Took(b, data, be, FillUpTo(p, b.addr, b.bus, Wire(b, data, be), k), k)
  {
    hide InStep, Took, Fill;
    if k == 0 {
      TookNone(b, data, be, p);
    } else {
      ReceivedUpTo(b, data, be, p, k - 1);
      FillStep(b, data, be, FillUpTo(p, b.addr, b.bus, Wire(b, data, be), k - 1), k - 1);
    }
  }

  /** Full-width bursts stay in step at any address; narrow ones only when nothing
      follows the part of a beat that they leave empty. */
  predicate StaysInStep(b: Burst)
    requires b.Valid()
  {
    b.width == b.bus || b.NumBeats() == 1 ||
    (b.NumBeats() == 2 && b.addr % b.bus + (b.width - b.Offset()) == b.bus)
  }

  lemma InStepIf(b: Burst, k: nat)
    requires b.Fits() && !b.fixed && k < b.NumBeats() && StaysInStep(b)
    ensures InStep(b, k)
  {
    BeatsCover(b, k);
    BeatLens(b, k);
    StartNext(b, k);
    StartGrows(b, k + 1, b.NumBeats());
    if b.width == b.bus {
      BeatAligned(b, k);
    } else if k == 1 {
      ModWraps(b.addr, b.width - b.Offset(), b.bus);
    }
  }

  lemma {:induction false} StartGrows(b: Burst, j: nat, k: nat)
    requires b.width > 0 && j <= k
    ensures Start(b, j) <= Start(b, k)
  {
    if j < k {
      StartGrows(b, j, k - 1);
      StartNext(b, k - 1);
    }
  }

  lemma ModWraps(a: nat, d: nat, m: nat)
    requires m > 0 && a % m + d == m
    ensures (a + d) % m == 0
  {
    assert a == a / m * m + a % m;
    assert (a / m + 1) * m == a / m * m + m;
    DivModUnique(a + d, m, a / m + 1, 0);
  }

  lemma ArrivesIf(b: Burst, data: seq<byte>, be: seq<bool>, p: Payload)
    requires Fresh(b, p) && |data| == b.len && StaysInStep(b)
    ensures Arrived(b, data, be, FillAll(p, b.addr, b.bus, Wire(b, data, be)))
  {
    var n := b.NumBeats();
    forall k: nat | k < n ensures InStep(b, k) {
      InStepIf(b, k);
    }
    DataLenIsStart(b);
    ReceivedUpTo(b, data, be, p, n);
  }

  lemma {:induction false} FillAllExtends(p: Payload, addr: nat, bus: nat, beats: seq<WBeat>, k: nat, m: nat)
    requires p.Valid() && BeatsFit(bus, beats) && k <= m <= |beats|
    ensures Extends(FillUpTo(p, addr, bus, beats, k), FillUpTo(p, addr, bus, beats, m))
    decreases m
  {
    if k < m {
      FillAllExtends(p, addr, bus, beats, k, m - 1);
      FillExtends(FillUpTo(p, addr, bus, beats, m - 1), addr, bus, m - 1 == 0, beats[m - 1]);
      ExtendsTrans(FillUpTo(p, addr, bus, beats, k), FillUpTo(p, addr, bus, beats, m - 1),
                   FillUpTo(p, addr, bus, beats, m));
    }
  }

  /** Out of step at beat k, FillData marks the byte after it as disabled. */
  lemma MarksDisabled(b: Burst, data: seq<byte>, p: Payload, k: nat)
    requires b.Fits() && !b.fixed && k + 1 < b.NumBeats() && Took(b, data, [], p, k)
    requires var i := FirstLane(b.addr, b.bus, k == 0);
             Lane(b, AddrPos(b, k)) == i && i + (Start(b, k + 1) - Start(b, k)) < b.bus
    ensures Start(b, k) < Start(b, k + 1) < b.len
    ensures var q := Fill(p, b.addr, b.bus, k == 0, Wire(b, data, [])[k]);
            Start(b, k + 1) < q.idx && !q.be[Start(b, k + 1)]
  {
    BeatsCover(b, k + 1);
    BeatsCover(b, k);
    StartNext(b, k);
    DataLenIsStart(b);
  }

  lemma NotArrived(b: Burst, data: seq<byte>, i: nat, p: Payload)
    requires i < b.len && i < |p.be| && !p.be[i]
    ensures !Arrived(b, data, [], p)
  {
    assert Enabled([], i);
  }

  lemma DisabledAfter(b: Burst, data: seq<byte>, p: Payload, k: nat)
    requires Fresh(b, p) && |data| == b.len && k + 1 < b.NumBeats()
    requires forall j: nat :: j < k ==> InStep(b, j)
    requires var i := FirstLane(b.addr, b.bus, k == 0);
             Lane(b, AddrPos(b, k)) == i && i + (Start(b, k + 1) - Start(b, k)) < b.bus
    ensures Start(b, k + 1) < b.len
    ensures var q := FillUpTo(p, b.addr, b.bus, Wire(b, data, []), k + 1);
            Start(b, k + 1) < q.idx && !q.be[Start(b, k + 1)]
  {
    ReceivedUpTo(b, data, [], p, k);
    MarksDisabled(b, data, FillUpTo(p, b.addr, b.bus, Wire(b, data, []), k), k);
  }

  lemma Lost(b: Burst, data: seq<byte>, p: Payload, beats: seq<WBeat>, k: nat)
    requires p.Valid() && BeatsFit(b.bus, beats) && k <= |beats| && b.width > 0 && Start(b, k) < b.len
    requires var q := FillUpTo(p, b.addr, b.bus, beats, k); Start(b, k) < q.idx && !q.be[Start(b, k)]
    ensures !Arrived(b, data, [], FillAll(p, b.addr, b.bus, beats))
  {
    FillAllExtends(p, b.addr, b.bus, beats, k, |beats|);
    NotArrived(b, data, Start(b, k), FillAll(p, b.addr, b.bus, beats));
  }

  /** The write round trip. A burst arrives intact, whatever its data and enables
      and whatever the receiver's buffer held, just when it stays in step. */
  lemma ArrivesIff(b: Burst, p: Payload)
    requires Fresh(b, p)
    ensures (forall data: seq<byte>, be: seq<bool> :: |data| == b.len ==>
               Arrived(b, data, be, FillAll(p, b.addr, b.bus, Wire(b, data, be))))
            <==> StaysInStep(b)
  {
    if StaysInStep(b) {
      forall data: seq<byte>, be: seq<bool> | |data| == b.len
        ensures Arrived(b, data, be, FillAll(p, b.addr, b.bus, Wire(b, data, be)))
      {
        ArrivesIf(b, data, be, p);
      }
    } else {
      NarrowFails(b, seq(b.len, i => 0), p);
    }
  }

  lemma FailsAt(b: Burst, data: seq<byte>, p: Payload, k: nat)
    requires Fresh(b, p) && |data| == b.len && k + 1 < b.NumBeats()
    requires forall j: nat :: j < k ==> InStep(b, j)
    requires var i := FirstLane(b.addr, b.bus, k == 0);
             Lane(b, AddrPos(b, k)) == i && i + (Start(b, k + 1) - Start(b, k)) < b.bus
    ensures !Arrived(b, data, [], FillAll(p, b.addr, b.bus, Wire(b, data, [])))
  {
    hide Fill, InStep;
    DisabledAfter(b, data, p, k);
    Lost(b, data, p, Wire(b, data, []), k + 1);
  }

  lemma NarrowFails(b: Burst, data: seq<byte>, p: Payload)
    requires Fresh(b, p) && |data| == b.len && !StaysInStep(b)
    ensures !Arrived(b, data, [], FillAll(p, b.addr, b.bus, Wire(b, data, [])))
  {
    if b.addr % b.bus + (b.width - b.Offset()) < b.bus {
      FailsAtFirst(b);
      FailsAt(b, data, p, 0);
    } else {
      FailsAtSecond(b);
      FailsAt(b, data, p, 1);
    }
  }

  lemma FailsAtFirst(b: Burst)
    requires b.Fits() && !b.fixed && !StaysInStep(b)
    ensures b.NumBeats() > 1
    ensures Lane(b, AddrPos(b, 0)) == b.addr % b.bus && Start(b, 1) - Start(b, 0) == b.width - b.Offset()
  {
    BeatsCover(b, 0);
    BeatLens(b, 0);
    StartNext(b, 0);
  }

  lemma FailsAtSecond(b: Burst)
    requires b.Fits() && !b.fixed && !StaysInStep(b) && b.addr % b.bus + (b.width - b.Offset()) >= b.bus
    ensures b.NumBeats() > 2 && InStep(b, 0)
    ensures Lane(b, AddrPos(b, 1)) == 0 && Start(b, 2) - Start(b, 1) < b.bus
  {
    hide WriteLen, ReadLen;
    BeatsCover(b, 0);
    BeatsCover(b, 1);
    BeatLens(b, 0);
    BeatLens(b, 1);
    StartNext(b, 0);
    StartNext(b, 1);
    ModWraps(b.addr, b.width - b.Offset(), b.bus);
    StartGrows(b, 1, b.NumBeats());
  }

  /** Bytes without a strobe are not written, in step or not: the payload keeps what
      its buffer held. */
  lemma {:induction false} DisabledKept(p: Payload, addr: nat, bus: nat, beats: seq<WBeat>, k: nat)
    requires p.Valid() && BeatsFit(bus, beats) && k <= |beats|
    ensures var q := FillUpTo(p, addr, bus, beats, k);
      && p.idx <= q.idx
      && forall j :: 0 <= j < |p.be| && (j < p.idx || j >= q.idx || !q.be[j]) ==> q.data[j] == p.data[j]
  {
    if k > 0 {
      DisabledKept(p, addr, bus, beats, k - 1);
      FillExtends(FillUpTo(p, addr, bus, beats, k - 1), addr, bus, k == 1, beats[k - 1]);
    }
  }

  // ---- the two bridges back to back ----

  /** An INCR write: what the target behind axi2tlm_bridge is given. */
  method WriteThrough(b: Burst, data: seq<byte>, be: seq<bool>) returns (t: Transaction)
    requires b.Fits() && !b.fixed && |data| == b.len
    ensures t.address == b.addr
    ensures t.Valid() && (StaysInStep(b) ==> Arrived(b, data, be, t.Value()))
  {
    DataLenIsStart(b);
    var s := new AxiBeats.Transaction(b, data, be);
    var beats := s.WriteDataPhase();
    t := new Transaction(b.addr, b.NumBeats(), b.width, b.bus);
    ghost var p := t.Value();
    t.WriteDataPhase(beats);
    if StaysInStep(b) { ArrivesIf(b, data, be, p); }
  }

  /** An INCR read of any legal width from a target that holds `mem`. */
  method ReadThrough(b: Burst, be: seq<bool>, data: array<byte>, mem: nat -> byte)
    requires b.Fits() && !b.fixed && data.Length == b.len
    modifies data
    ensures forall i :: 0 <= i < data.Length ==>
              data[i] == if Enabled(be, i) then mem(b.addr + i) else old(data[i])
  {
    DataLenIsStart(b);
    var t := new Transaction(b.addr, b.NumBeats(), b.width, b.bus);
    var i := 0;
    while i < t.data.Length
      invariant i <= t.data.Length && forall j :: 0 <= j < i ==> t.data[j] == mem(b.addr + j)
      modifies t.data
    {
      t.data[i] := mem(b.addr + i);
      i := i + 1;
    }
    var beats := t.ReadDataPhase(b, seq(b.bus, l => 0));
    var used := ReadRespPhase(b, be, data, beats, t.data[..b.len]);
  }
}
