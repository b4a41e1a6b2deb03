/** The data side of tlm2axi_bridge: write_data_phase cuts a payload into beats,
    and read_resp_phase rebuilds one from beats. */
module AxiBeats {
  import opened AxiBurst
  import opened Common

  /** The W channel during one beat: a byte and a strobe per lane. */
  datatype WBeat = WBeat(data: seq<byte>, strb: seq<bool>, last: bool)

  /** Byte enables repeat; none given means all bytes are enabled. */
  predicate Enabled(be: seq<bool>, i: nat) {
    |be| == 0 || be[i % |be|]
  }

  /** `n` bytes of a payload from `pos` on, on the lanes from `lane` on. */
  function DataLanes(data: seq<byte>, bus: nat, lane: nat, pos: nat, n: nat): (s: seq<byte>)
    requires pos + n <= |data|
    ensures |s| == bus
  {
    seq(bus, l requires 0 <= l < bus => if lane <= l < lane + n then data[pos + (l - lane)] else 0)
  }

  function StrobeLanes(be: seq<bool>, bus: nat, lane: nat, pos: nat, n: nat): (s: seq<bool>)
    ensures |s| == bus
  {
    seq(bus, l requires 0 <= l < bus => lane <= l < lane + n && Enabled(be, pos + (l - lane)))
  }

  /** sc_bv::lrotate. */
  function Rotated(s: seq<bool>, n: nat): (r: seq<bool>)
    requires n <= |s|
    ensures |r| == |s|
  {
    s[|s| - n..] + s[..|s| - n]
  }

  /** A beat's share of the payload. */
  function BeatBytes(b: Burst, k: nat): nat
    requires b.width > 0
    requires Start(b, k) < b.len
  {
    StartNext(b, k);
    Min(b.len, Start(b, k + 1)) - Start(b, k)
  }

  /** Beat k (from 0) of the W channel. */
  function BeatAt(b: Burst, data: seq<byte>, be: seq<bool>, k: nat): WBeat
    requires b.Valid() && |data| == b.len && k < b.NumBeats()
  {
    BeatsCover(b, k);
    var lane, n := Lane(b, AddrPos(b, k)), BeatBytes(b, k);
    WBeat(DataLanes(data, b.bus, lane, Start(b, k), n), StrobeLanes(be, b.bus, lane, AddrPos(b, k), n),
          k == b.NumBeats() - 1)
  }

  /** The beats of a burst, in order. */
  function Wire(b: Burst, data: seq<byte>, be: seq<bool>): (beats: seq<WBeat>)
    requires b.Valid() && |data| == b.len
    ensures |beats| == b.NumBeats()
  {
    seq(b.NumBeats(), k requires 0 <= k < b.NumBeats() => BeatAt(b, data, be, k))
  }

  /** Where the data loops stand before beat k. */
  lemma NextSent(b: Burst, k: nat)
    requires b.Fits() && Sent(b, k) < b.len
    ensures k < b.NumBeats() && (Sent(b, k + 1) == b.len <==> k + 1 == b.NumBeats())
    ensures Sent(b, k) == Start(b, k) && Start(b, k) + BeatBytes(b, k) == Sent(b, k + 1) <= Start(b, k + 1)
    ensures (if b.fixed then 0 else Sent(b, k)) == AddrPos(b, k)
    ensures ReadLen(b, AddrPos(b, k), Start(b, k)) == BeatBytes(b, k)
    ensures (b.fixed ==> Step(b) <= b.sw) ==> WriteLen(b, AddrPos(b, k), Start(b, k), k == 0) == BeatBytes(b, k)
  {
    BeatsCover(b, k);
    BeatsCover(b, k + 1);
    SentLen(b, k);
  }

  lemma SentNothing(b: Burst)
    requires b.Fits()
    ensures b.Valid() && b.width > 0 && Sent(b, 0) == 0 < b.len
  {
  }

  /** What write_data_phase then puts on the channel is beat k. */
  lemma NextBeat(b: Burst, data: seq<byte>, be: seq<bool>, k: nat)
    requires b.Fits() && (b.fixed ==> Step(b) <= b.sw) && |data| == b.len && Sent(b, k) < b.len
    ensures k < b.NumBeats() && (Sent(b, k + 1) == b.len <==> k + 1 == b.NumBeats())
    ensures var pos := Sent(b, k);
            var addrPos := if b.fixed then 0 else pos;
            var d := WriteLen(b, addrPos, pos, k == 0);
            && pos + d == Sent(b, k + 1)
            && pos + d <= b.len && d > 0
            && Wire(b, data, be)[k] == WBeat(DataLanes(data, b.bus, Lane(b, addrPos), pos, d),
                                             StrobeLanes(be, b.bus, Lane(b, addrPos), addrPos, d),
                                             k + 1 == b.NumBeats())
  {
    hide WriteLen, ReadLen, Lane, DataLanes, StrobeLanes, Step;
    NextSent(b, k);
  }

  /** tlm2axi_bridge::Transaction. */
  class Transaction {
    const burst: Burst
    const data: seq<byte>
    const be: seq<bool>
    const numBeats: nat
    var beat: nat

    constructor (burst: Burst, data: seq<byte>, be: seq<bool>)
      requires burst.Valid() && |data| == burst.len
      ensures this.burst == burst && this.data == data && this.be == be
      ensures numBeats == burst.NumBeats() && beat == 1
    {
      this.burst, this.data, this.be := burst, data, be;
      this.numBeats := burst.NumBeats();
      this.beat := 1;
    }

    /** prepare_wbeat. */
    method PrepareWBeat(offset: nat, dataOffset: nat) returns (wdata: seq<byte>, wstrb: seq<bool>, wlen: nat)
      requires burst.Valid() && |data| == burst.len && dataOffset <= |data|
      ensures wlen == WriteLen(burst, offset, dataOffset, beat == 1)
      ensures dataOffset + wlen <= |data|
      ensures wdata == DataLanes(data, burst.bus, Lane(burst, offset), dataOffset, wlen)
      ensures wstrb == StrobeLanes(be, burst.bus, Lane(burst, offset), offset, wlen)
    {
      var lane := Lane(burst, offset);
      wlen := WriteLen(burst, offset, dataOffset, beat == 1);
      WriteLenOnBus(burst, offset, dataOffset, beat == 1);
      wstrb := PrepareStrobes(offset, lane, wlen);
      wdata := PrepareData(dataOffset, lane, wlen);
    }

    /** The data, copied in pieces of up to 8 bytes. */
    method PrepareData(dataOffset: nat, lane: nat, wlen: nat) returns (wdata: seq<byte>)
      requires lane + wlen <= burst.bus && dataOffset + wlen <= |data|
      ensures wdata == DataLanes(data, burst.bus, lane, dataOffset, wlen)
    {
      var lanes := new byte[burst.bus](i => 0);
      var i := 0;
      while i < wlen
        invariant forall l :: 0 <= l < burst.bus ==>
                    lanes[l] == if lane <= l < lane + Min(i, wlen) then data[dataOffset + (l - lane)] else 0
      {
        var copylen := Min(wlen - i, 8);
        var j := 0;
        while j < copylen
          invariant j <= copylen
          invariant forall l :: 0 <= l < burst.bus ==>
                      lanes[l] == if lane <= l < lane + i + j then data[dataOffset + (l - lane)] else 0
        {
          lanes[lane + i + j] := data[dataOffset + i + j];
          j := j + 1;
        }
        i := i + 8;
      }
      wdata := lanes[..];
    }

    /** The strobes: set from lane 0 on, then rotated into place. */
    method PrepareStrobes(offset: nat, lane: nat, wlen: nat) returns (wstrb: seq<bool>)
      requires lane + wlen <= burst.bus
      ensures wstrb == StrobeLanes(be, burst.bus, lane, offset, wlen)
    {
      var strb := new bool[burst.bus](i => false);
      var i := 0;
      while i < wlen
        invariant i <= wlen
        invariant forall l :: 0 <= l < burst.bus ==> strb[l] == (l < i && Enabled(be, offset + l))
      {
        if be != [] {
          if be[(i + offset) % |be|] { strb[i] := true; }
        } else {
          strb[i] := true;
        }
        i := i + 1;
      }
      wstrb := Rotated(strb[..], lane);
    }

    /** The data loop of write_data_phase. */
    method WriteDataPhase() returns (beats: seq<WBeat>)
      requires burst.Fits() && (burst.fixed ==> Step(burst) <= burst.sw)
      requires |data| == burst.len && numBeats == burst.NumBeats() && beat == 1
      modifies this`beat
      ensures beats == Wire(burst, data, be)
    {
      hide *;
      SentNothing(burst);
      ghost var wire := Wire(burst, data, be);
      beats := [];
      var pos, addrPos := 0, 0;
      while pos < |data|
        invariant 0 < beat <= numBeats + 1
        invariant pos == Sent(burst, beat - 1) && addrPos == (if burst.fixed then 0 else pos)
        invariant pos == |data| ==> beat == numBeats + 1
        invariant beats == wire[..beat - 1]
        decreases |data| - pos
      {
        NextBeat(burst, data, be, beat - 1);
        var wdata, wstrb, d := PrepareWBeat(addrPos, pos);
        beats := beats + [WBeat(wdata, wstrb, beat == numBeats)];
        pos := pos + d;
        if !burst.fixed { addrPos := addrPos + d; }
        beat := beat + 1;
      }
    }
  }

  // ---- every payload byte once, on the lane of its address ----

  /** The beat that carries payload byte i. */
  function BeatOf(b: Burst, i: nat): nat
    requires b.width > 0
  {
    if b.fixed then i / Step(b) else (i + b.Offset()) / b.width
  }

  /** The address payload byte i is meant for; a FIXED burst starts over with each
      beat. */
  function AddressOf(b: Burst, i: nat): nat
    requires b.width > 0
  {
    if b.fixed then b.addr + i % Step(b) else b.addr + i
  }

  lemma DivBounds(j: nat, g: nat)
    requires g > 0
    ensures j / g * g <= j < (j / g + 1) * g && j % g == j - j / g * g
  {
  }

  lemma BeatOfBounds(b: Burst, i: nat)
    requires b.Fits() && i < b.len
    ensures var k := BeatOf(b, i); Start(b, k) <= i < Start(b, k + 1) && k < b.NumBeats()
    ensures var k := BeatOf(b, i); AddressOf(b, i) == b.addr + AddrPos(b, k) + (i - Start(b, k))
  {
    DivBounds(if b.fixed then i else i + b.Offset(), Step(b));
    BeatsCover(b, BeatOf(b, i));
  }

  /** The bytes of beat k are those that BeatOf assigns to it. */
  lemma BeatOfUnique(b: Burst, k: nat, i: nat)
    requires b.Fits() && Start(b, k) <= i < Start(b, k + 1)
    ensures BeatOf(b, i) == k
  {
    var g := Step(b);
    if b.fixed {
      DivModUnique(i, g, k, i - k * g);
    } else {
      assert k * g <= i + b.Offset() < (k + 1) * g;
      DivModUnique(i + b.Offset(), g, k, i + b.Offset() - k * g);
    }
  }

  lemma ModAdd(a: nat, d: nat, m: nat)
    requires m > 0 && a % m + d < m
    ensures (a + d) % m == a % m + d
  {
    assert a == a / m * m + a % m;
    DivModUnique(a + d, m, a / m, a % m + d);
  }

  lemma LaneOf(b: Burst, k: nat, i: nat)
    requires b.Fits() && i < b.len && Start(b, k) <= i < Start(b, k + 1)
    ensures BeatOf(b, i) == k < b.NumBeats()
    ensures AddressOf(b, i) % b.bus == Lane(b, AddrPos(b, k)) + (i - Start(b, k)) < b.bus
  {
    BeatOfUnique(b, k, i);
    BeatOfBounds(b, i);
    BeatLens(b, k);
    ModAdd(b.addr + AddrPos(b, k), i - Start(b, k), b.bus);
  }

  /** The enable that governs payload byte i: a FIXED burst starts over with the
      enables at each beat. */
  function EnableOf(b: Burst, be: seq<bool>, i: nat): bool
    requires b.width > 0
  {
    Enabled(be, if b.fixed then i % Step(b) else i)
  }

  /** Each payload byte is on the lane of its address, in the beat of its address,
      with its strobe. */
  lemma ByteOnItsLane(b: Burst, data: seq<byte>, be: seq<bool>, i: nat)
    requires InBeats(b) && |data| == b.len && i < b.len
    ensures var k, l := BeatOf(b, i), AddressOf(b, i) % b.bus;
            && k < b.NumBeats()
            && Wire(b, data, be)[k].data[l] == data[i]
            && Wire(b, data, be)[k].strb[l] == EnableOf(b, be, i)
  {
    BeatOfBounds(b, i);
    LaneOf(b, BeatOf(b, i), i);
    if b.fixed { DivBounds(i, Step(b)); }
  }

  /** And nothing else is strobed: a strobed lane belongs to exactly one payload
      byte, an enabled one. */
  lemma StrobedOnce(b: Burst, data: seq<byte>, be: seq<bool>, k: nat, l: nat)
    requires InBeats(b) && |data| == b.len && k < b.NumBeats() && l < b.bus && Wire(b, data, be)[k].strb[l]
    ensures exists i: nat ::
              && i < b.len && BeatOf(b, i) == k && AddressOf(b, i) % b.bus == l && EnableOf(b, be, i)
              && forall j: nat :: j < b.len && BeatOf(b, j) == k && AddressOf(b, j) % b.bus == l ==> j == i
  {
    BeatsCover(b, k);
    BeatLens(b, k);
    StartNext(b, k);
    var i := Start(b, k) + (l - Lane(b, AddrPos(b, k)));
    ByteAtLane(b, data, be, k, l);
    LaneOf(b, k, i);
    ByteOnItsLane(b, data, be, i);
    forall j: nat | j < b.len && BeatOf(b, j) == k && AddressOf(b, j) % b.bus == l ensures j == i {
      BeatOfBounds(b, j);
      LaneOf(b, k, j);
    }
  }

  lemma ByteAtLane(b: Burst, data: seq<byte>, be: seq<bool>, k: nat, l: nat)
    requires b.Fits() && |data| == b.len && k < b.NumBeats() && l < b.bus && Wire(b, data, be)[k].strb[l]
    ensures Start(b, k) < b.len && 0 <= l - Lane(b, AddrPos(b, k)) < BeatBytes(b, k)
  {
    BeatsCover(b, k);
  }

  /** wlast is raised on the beat that exhausts the payload and on no other. */
  lemma LastExhausts(b: Burst, data: seq<byte>, be: seq<bool>, k: nat)
    requires InBeats(b) && |data| == b.len && k < b.NumBeats()
    ensures Wire(b, data, be)[k].last <==> Start(b, k) < b.len <= Start(b, k + 1)
  {
    BeatsCover(b, k);
    BeatsCover(b, k + 1);
  }

  // ---- reading ----

  /** A slave's beats bring `payload`: each byte is on its lane, whatever the other
      lanes hold. */
  ghost predicate Bring(b: Burst, payload: seq<byte>, beats: seq<seq<byte>>)
    requires b.Fits()
  {
    && |payload| == b.len && |beats| == b.NumBeats()
    && (forall k :: 0 <= k < |beats| ==> |beats[k]| == b.bus)
    && forall i: nat :: i < b.len ==>
         BeatOf(b, i) < |beats| && beats[BeatOf(b, i)][AddressOf(b, i) % b.bus] == payload[i]
  }

  /** One beat of read_resp_phase. */
  method ReadBeat(b: Burst, be: seq<bool>, data: array<byte>, addrPos: nat, pos: nat, rdata: seq<byte>)
    returns (readlen: nat)
    requires b.Valid() && data.Length == b.len && pos <= b.len && |rdata| == b.bus
    modifies data
    ensures readlen == ReadLen(b, addrPos, pos)
    ensures pos + readlen <= b.len && Lane(b, addrPos) + readlen <= b.bus
    ensures forall j :: 0 <= j < data.Length ==>
              data[j] == if pos <= j < pos + readlen && Enabled(be, j) then rdata[Lane(b, addrPos) + (j - pos)]
                         else old(data[j])
  {
    var lane := Lane(b, addrPos);
    readlen := ReadLen(b, addrPos, pos);
    var w := 0;
    while w < readlen
      invariant forall j :: 0 <= j < data.Length ==>
                  data[j] == if pos <= j < pos + Min(w, readlen) && Enabled(be, j) then rdata[lane + (j - pos)]
                             else old(data[j])
    {
      var copylen := Min(readlen - w, 8);
      var i := 0;
      while i < copylen
        invariant i <= copylen
        invariant forall j :: 0 <= j < data.Length ==>
                    data[j] == if pos <= j < pos + w + i && Enabled(be, j) then rdata[lane + (j - pos)]
                               else old(data[j])
      {
        if be == [] || be[(pos + w + i) % |be|] {
          data[pos + w + i] := rdata[lane + w + i];
        }
        i := i + 1;
      }
      w := w + 8;
    }
  }

  /** read_resp_phase: takes as many beats as were announced, and with the last
      the payload is complete. Enabled bytes arrive at their own index, disabled
      ones keep what the buffer held. */
  method ReadRespPhase(b: Burst, be: seq<bool>, data: array<byte>, beats: seq<seq<byte>>, ghost payload: seq<byte>)
    returns (used: nat)
    requires b.Fits() && data.Length == b.len && Bring(b, payload, beats)
    modifies data
    ensures used == |beats|
    ensures forall i :: 0 <= i < data.Length ==>
              data[i] == if Enabled(be, i) then payload[i] else old(data[i])
  {
    var pos, addrPos := 0, 0;
    used := 0;
    while pos < b.len
      invariant used <= |beats| && (pos == b.len ==> used == |beats|)
      invariant pos == Sent(b, used) && addrPos == (if b.fixed then 0 else pos)
      invariant forall i :: 0 <= i < data.Length ==>
                  data[i] == if i < pos && Enabled(be, i) then payload[i] else old(data[i])
      decreases b.len - pos
    {
      NextSent(b, used);
      var readlen := ReadBeat(b, be, data, addrPos, pos, beats[used]);
      forall i | pos <= i < pos + readlen
        ensures beats[used][Lane(b, addrPos) + (i - pos)] == payload[i]
      {
        LaneOf(b, used, i);
      }
      if !b.fixed { addrPos := addrPos + readlen; }
      pos := pos + readlen;
      used := used + 1;
    }
  }
}
