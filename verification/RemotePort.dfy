/** Remote-port bus accesses: rp_encode_busaccess prints a header that the sender
    follows with data and byte enables; the receiver cuts the stream back into
    packets and finds the parts again. */
module RemotePort {
  import opened Common
  import opened RemotePortLayout

  const RP_CMD_READ: u32 := 3
  const RP_CMD_WRITE: u32 := 4

  /** RP_PKT_FLAGS_response, bit 1. */
  predicate IsResponse(flags: u32) {
    flags / 2 % 2 == 1
  }

  function SetResponse(flags: u32): u32 {
    if IsResponse(flags) then flags else flags + 2
  }

  /** RP_BUS_ATTR_EXT_BASE, bit 2. */
  predicate HasExt(attributes: u64) {
    attributes / 4 % 2 == 1
  }

  function SetExt(attributes: u64): u64 {
    if HasExt(attributes) then attributes else attributes + 4
  }

  function U32(x: nat): u32 {
    x % 0x1_0000_0000
  }

  /** The three parts of a master id. */
  function Low16(masterId: u64): u16 {
    masterId % 0x1_0000
  }

  function Mid16(masterId: u64): u16 {
    masterId / 0x1_0000 % 0x1_0000
  }

  function High32(masterId: u64): u32 {
    masterId / 0x1_0000_0000
  }

  /** The parts make up the 64 bits again. */
  function MasterId(low: u16, mid: u16, high: u32): u64 {
    low + mid * 0x1_0000 + high * 0x1_0000_0000
  }

  lemma MasterIdParts(masterId: u64)
    ensures MasterId(Low16(masterId), Mid16(masterId), High32(masterId)) == masterId
  {
    assert masterId / 0x1_0000 / 0x1_0000 == masterId / 0x1_0000_0000;
  }

  /** rp_encode_busaccess_in. */
  datatype In = In(cmd: u32, id: u32, flags: u32, dev: u32, clk: u64, masterId: u64, addr: u64, attr: u64,
                   size: u32, width: u32, streamWidth: u32, byteEnableLen: u32)

  // ---- what a sender means to say ----

  /** The extended layout: the peer knows it, or asked with it. */
  predicate Extended(extBase: bool, input: In) {
    extBase || HasExt(input.attr)
  }

  /** The assertion of rp_encode_busaccess: the old layout has 16 bits of master
      id, and 0xffff is not let through. */
  predicate Encodable(extBase: bool, input: In) {
    Extended(extBase, input) || input.masterId < 0xffff
  }

  function HeaderSize(extBase: bool, input: In): nat {
    if Extended(extBase, input) then SIZEOF_EXT_BASE else SIZEOF_BUSACCESS
  }

  /** Data travel with write requests and read responses. */
  function DataLen(input: In): u32 {
    if (input.cmd == RP_CMD_WRITE && !IsResponse(input.flags)) || (input.cmd == RP_CMD_READ && IsResponse(input.flags))
    then input.size else 0
  }

  /** The header in host order: what the receiver should understand. */
  function HdrOf(extBase: bool, input: In): Hdr {
    var len := HeaderSize(extBase, input) - SIZEOF_HDR + DataLen(input)
               + (if Extended(extBase, input) then input.byteEnableLen else 0);
    Hdr(input.cmd, U32(len), input.id, input.flags, input.dev)
  }

  /** Bus accesses keep the low 16 bits of the master id. */
  function BusOf(extBase: bool, input: In): Bus {
    Bus(input.clk, if Extended(extBase, input) then SetExt(input.attr) else input.attr, input.addr,
        input.size, input.width, input.streamWidth, Low16(input.masterId))
  }

  function ExtOf(input: In): Ext {
    Ext(Mid16(input.masterId), High32(input.masterId),
        Offsets(SIZEOF_EXT_BASE, 0, U32(SIZEOF_EXT_BASE + DataLen(input)), input.byteEnableLen))
  }

  /** The header on the wire. */
  function Header(extBase: bool, input: In): (s: seq<byte>)
    ensures |s| == HeaderSize(extBase, input)
  {
    HdrOf(extBase, input).Wire() + BusOf(extBase, input).Wire()
    + (if Extended(extBase, input) then ExtOf(input).Wire() else [])
  }

  /** A whole packet: header, data, byte enables. */
  function Message(extBase: bool, input: In, data: seq<byte>, be: seq<byte>): (s: seq<byte>)
    ensures |s| == HeaderSize(extBase, input) + |data| + |be|
  {
    Header(extBase, input) + data + be
  }

  // ---- the packet in memory ----

  class Packet {
    const host: Host
    var hdr: Hdr
    var bus: Bus
    var ext: Ext

    constructor (host: Host)
      ensures this.host == host
    {
      this.host := host;
      hdr := Hdr(0, 0, 0, 0, 0);
      bus := Bus(0, 0, 0, 0, 0, 0, 0);
      ext := Ext(0, 0, Offsets(0, 0, 0, 0));
    }

    /** rp_encode_hdr. */
    method EncodeHdr(cmd: u32, id: u32, dev: u32, len: u32, flags: u32)
      modifies this`hdr
      ensures hdr == Hdr(cmd, len, id, flags, dev).Net(host)
    {
      hdr := hdr.(cmd := host.be32(cmd));
      hdr := hdr.(len := host.be32(len));
      hdr := hdr.(id := host.be32(id));
      hdr := hdr.(dev := host.be32(dev));
      hdr := hdr.(flags := host.be32(flags));
    }

    /** rp_encode_busaccess_common. */
    method EncodeCommon(clk: u64, masterId: u16, addr: u64, attr: u64, size: u32, width: u32, streamWidth: u32)
      modifies this`bus
      ensures bus == Bus(clk, attr, addr, size, width, streamWidth, masterId).Net(host)
    {
      bus := bus.(timestamp := host.be64(clk));
      bus := bus.(masterId := host.be16(masterId));
      bus := bus.(addr := host.be64(addr));
      bus := bus.(attributes := host.be64(attr));
      bus := bus.(len := host.be32(size));
      bus := bus.(width := host.be32(width));
      bus := bus.(streamWidth := host.be32(streamWidth));
    }

    /** rp_encode_busaccess: the extended fields. */
    method EncodeExt(masterId: u64, byteEnable: u32, byteEnableLen: u32)
      requires host.be32(0) == 0
      modifies this`ext
      ensures ext == Ext(Mid16(masterId), High32(masterId),
                         Offsets(SIZEOF_EXT_BASE, 0, byteEnable, byteEnableLen)).Net(host)
    {
      ext := ext.(masterId31 := host.be16(Mid16(masterId)));
      ext := ext.(masterId63 := host.be32(High32(masterId)));
      ext := ext.(at := ext.at.(data := host.be32(SIZEOF_EXT_BASE)));
      ext := ext.(at := ext.at.(next := 0));
      ext := ext.(at := ext.at.(byteEnable := host.be32(byteEnable)));
      ext := ext.(at := ext.at.(byteEnableLen := host.be32(byteEnableLen)));
    }

    /** rp_encode_busaccess. The returned length counts the data of a read
        response, which follow the header. */
    method EncodeBusaccess(extBase: bool, input: In) returns (plen: nat)
      requires host.be32(0) == 0
      requires Encodable(extBase, input)
      modifies this
      ensures Holds(extBase, input)
      ensures plen == HeaderSize(extBase, input)
                      + (if input.cmd == RP_CMD_READ && IsResponse(input.flags) then input.size else 0)
    {
      hide Hdr.Net, Bus.Net, Ext.Net, Mid16, High32, HasExt;
      var hsize, retSize := 0, 0;
      if input.cmd == RP_CMD_WRITE && !IsResponse(input.flags) {
        hsize := input.size;
      }
      if input.cmd == RP_CMD_READ && IsResponse(input.flags) {
        hsize := input.size;
        retSize := input.size;
      }
      if !extBase && !HasExt(input.attr) {
        EncodeHdr(input.cmd, input.id, input.dev, U32(SIZEOF_BUSACCESS - SIZEOF_HDR + hsize), input.flags);
        EncodeCommon(input.clk, input.masterId, input.addr, input.attr, input.size, input.width, input.streamWidth);
        return SIZEOF_BUSACCESS + retSize;
      }
      EncodeExt(input.masterId, U32(SIZEOF_EXT_BASE + hsize), input.byteEnableLen);
      hsize := hsize + input.byteEnableLen;
      EncodeHdr(input.cmd, input.id, input.dev, U32(SIZEOF_EXT_BASE - SIZEOF_HDR + hsize), input.flags);
      EncodeCommon(input.clk, Low16(input.masterId), input.addr, SetExt(input.attr), input.size, input.width,
                   input.streamWidth);
      return SIZEOF_EXT_BASE + retSize;
    }

    /** The packet holds the header of a bus access, in network order. */
    ghost predicate Holds(extBase: bool, input: In)
      reads this
    {
      && hdr == HdrOf(extBase, input).Net(host) && bus == BusOf(extBase, input).Net(host)
      && (Extended(extBase, input) ==> ext == ExtOf(input).Net(host))
    }

    function Memory(): seq<byte>
      reads this
    {
      hdr.Bytes(host.big) + bus.Bytes(host.big) + ext.Bytes(host.big)
    }

    /** rp_decode_hdr. */
    method DecodeHdr() returns (used: nat)
      modifies this`hdr
      ensures hdr == old(hdr).Net(host) && used == SIZEOF_HDR
    {
      hdr := hdr.(cmd := host.be32(hdr.cmd));
      hdr := hdr.(len := host.be32(hdr.len));
      hdr := hdr.(id := host.be32(hdr.id));
      hdr := hdr.(flags := host.be32(hdr.flags));
      hdr := hdr.(dev := host.be32(hdr.dev));
      used := SIZEOF_HDR;
    }

    /** rp_decode_payload: the extended fields. The upper master id stays as it
        came. */
    method DecodeExt(low: u16) returns (masterId: u64)
      modifies this`ext
      ensures ext == old(ext).(at := old(ext).at.Net(host))
      ensures masterId == MasterId(low, host.be16(old(ext).masterId31), host.be32(old(ext).masterId63))
      ensures Low16(masterId) == low
    {
      masterId := low + host.be16(ext.masterId31) * 0x1_0000;
      masterId := masterId + host.be32(ext.masterId63) * 0x1_0000_0000;
      ext := ext.(at := ext.at.(data := host.be32(ext.at.data)));
      ext := ext.(at := ext.at.(next := host.be32(ext.at.next)));
      ext := ext.(at := ext.at.(byteEnable := host.be32(ext.at.byteEnable)));
      ext := ext.(at := ext.at.(byteEnableLen := host.be32(ext.at.byteEnableLen)));
    }

    /** rp_decode_payload of a bus access; its assertions are the requirements. */
    method DecodePayload() returns (used: nat)
      requires hdr.cmd == RP_CMD_READ || hdr.cmd == RP_CMD_WRITE
      requires hdr.len >= FixedSize(bus.Net(host).attributes) - SIZEOF_HDR
      modifies this`bus, this`ext
      ensures bus == old(bus).Net(host)
      ensures ext == if HasExt(bus.attributes) then old(ext).(at := old(ext).at.Net(host)) else old(ext)
      ensures used == FixedSize(bus.attributes) - SIZEOF_HDR
    {
      bus := bus.(timestamp := host.be64(bus.timestamp));
      bus := bus.(addr := host.be64(bus.addr));
      bus := bus.(attributes := host.be64(bus.attributes));
      bus := bus.(len := host.be32(bus.len));
      bus := bus.(width := host.be32(bus.width));
      bus := bus.(streamWidth := host.be32(bus.streamWidth));
      var masterId: u64 := host.be16(bus.masterId);
      used := SIZEOF_BUSACCESS - SIZEOF_HDR;
      if HasExt(bus.attributes) {
        masterId := DecodeExt(masterId);
        used := used + (SIZEOF_EXT_BASE - SIZEOF_BUSACCESS);
      }
      bus := bus.(masterId := Low16(masterId));
    }

    /** rp_process: the header is read into memory and decoded there. */
    method ReadHdr(stream: seq<byte>) returns (used: nat)
      requires host.Sound() && |stream| >= SIZEOF_HDR
      modifies this`hdr
      ensures hdr == LoadHdr(true, stream) && used == SIZEOF_HDR
    {
      HdrLoaded(host, stream);
      hdr := LoadHdr(host.big, stream);
      used := DecodeHdr();
    }

    /** rp_process: so is the rest. */
    method ReadPayload(mem: seq<byte>) returns (used: nat)
      requires host.Sound() && (hdr.cmd == RP_CMD_READ || hdr.cmd == RP_CMD_WRITE)
      requires |mem| == SIZEOF_HDR + hdr.len && |mem| >= SIZEOF_BUSACCESS
      requires |mem| >= FixedSize(LoadBus(true, mem).attributes)
      modifies this`bus, this`ext
      ensures bus == LoadBus(true, mem) && used == FixedSize(bus.attributes) - SIZEOF_HDR
      ensures HasExt(bus.attributes) ==> |mem| >= SIZEOF_EXT_BASE && ext.at == LoadOffsets(true, mem)
    {
      hide LoadBus, LoadOffsets, Host.Sound;
      BusLoaded(host, mem);
      bus := LoadBus(host.big, mem);
      if |mem| >= SIZEOF_EXT_BASE {
        OffsetsLoaded(host, mem);
        ext := LoadExt(host.big, mem);
      }
      used := DecodePayload();
    }
  }

  function FixedSize(attributes: u64): nat {
    if HasExt(attributes) then SIZEOF_EXT_BASE else SIZEOF_BUSACCESS
  }

  /** The message as struct rp_pkt_busaccess and its extended form lay it out, every
      field big endian: what a reader finds who knows the structs alone. */
  lemma FieldsOnWire(extBase: bool, input: In, data: seq<byte>, be: seq<byte>)
    ensures var s, len := Message(extBase, input, data, be), HdrOf(extBase, input).len;
      && IntegerAt(s, 0, input.cmd, 4) && IntegerAt(s, 4, len, 4) && IntegerAt(s, 8, input.id, 4)
      && IntegerAt(s, 12, input.flags, 4) && IntegerAt(s, 16, input.dev, 4)
      && IntegerAt(s, 20, input.clk, 8) && IntegerAt(s, 36, input.addr, 8)
      && IntegerAt(s, 28, if Extended(extBase, input) then SetExt(input.attr) else input.attr, 8)
      && IntegerAt(s, 44, input.size, 4) && IntegerAt(s, 48, input.width, 4) && IntegerAt(s, 52, input.streamWidth, 4)
      && IntegerAt(s, 56, input.masterId % 0x1_0000, 2)
      && (Extended(extBase, input) ==>
            && IntegerAt(s, 58, input.masterId / 0x1_0000 % 0x1_0000, 2)
            && IntegerAt(s, 60, input.masterId / 0x1_0000_0000, 4)
            && IntegerAt(s, 64, 80, 4) && IntegerAt(s, 68, 0, 4)
            && IntegerAt(s, 72, U32(80 + DataLen(input)), 4) && IntegerAt(s, 76, input.byteEnableLen, 4))
  {
    hide Hdr.Wire, Bus.Wire, Ext.Wire, IntegerAt, SetExt;
    var h, b := HdrOf(extBase, input).Wire(), BusOf(extBase, input).Wire();
    var e := if Extended(extBase, input) then ExtOf(input).Wire() else [];
    var s := Message(extBase, input, data, be);
    assert s == h + (b + e + data + be);
    HdrFields(HdrOf(extBase, input), b + e + data + be);
    assert s == h + b + (e + data + be);
    BusFields(h, BusOf(extBase, input), e + data + be);
    if Extended(extBase, input) {
      assert s == (h + b) + e + (data + be);
      ExtFields(h + b, ExtOf(input), data + be);
    }
  }

  /** What rp_write sends of a packet does not depend on the host. */
  lemma HeaderInMemory(p: Packet, extBase: bool, input: In)
    requires p.host.Sound() && p.Holds(extBase, input)
    ensures HeaderSize(extBase, input) <= |p.Memory()|
    ensures p.Memory()[..HeaderSize(extBase, input)] == Header(extBase, input)
  {
    HdrStored(HdrOf(extBase, input), p.host);
    BusStored(BusOf(extBase, input), p.host);
    if Extended(extBase, input) { ExtStored(ExtOf(input), p.host); }
    assert p.Memory()[..SIZEOF_BUSACCESS] == p.hdr.Bytes(p.host.big) + p.bus.Bytes(p.host.big);
  }

  /** remoteport_tlm_memory_slave::b_transport writes the header, then the data of
      a write, then the enables if there are any. */
  method SendRequest(host: Host, extBase: bool, input: In, data: seq<byte>, be: seq<byte>) returns (stream: seq<byte>)
    requires host.Sound() && !IsResponse(input.flags) && Sendable(extBase, input, data, be)
    ensures stream == Message(extBase, input, data, be)
  {
    hide Host.Sound;
    ZeroSwapped(host);
    var p := new Packet(host);
    var plen := p.EncodeBusaccess(extBase, input);
    HeaderInMemory(p, extBase, input);
    stream := p.Memory()[..plen];
    if input.cmd == RP_CMD_WRITE {
      stream := stream + data;
    }
    if input.byteEnableLen > 0 {
      stream := stream + be;
    }
  }

  // ---- cutting the stream ----

  /** A bus access as its receiver has it: the fields in host order, the offsets of
      an extended packet, and the memory the packet was read into. */
  datatype Received = Received(hdr: Hdr, bus: Bus, at: Option<Offsets>, mem: seq<byte>) {

    /** rp_busaccess_rx_dataptr. */
    function DataPtr(): nat {
      if at.Some? then at.value.data else SIZEOF_BUSACCESS
    }

    /** rp_busaccess_byte_en_ptr: the offset of the enables, if there are any. */
    function ByteEnPtr(): Option<nat> {
      if at.Some? && at.value.byteEnableLen > 0 then Some(at.value.byteEnable) else None
    }

    /** The assertions of rp_busaccess_byte_en_ptr. */
    predicate ByteEnPtrOk() {
      ByteEnPtr().Some? ==>
        && at.value.byteEnable >= SIZEOF_EXT_BASE
        && U32(at.value.byteEnable + at.value.byteEnableLen) <= hdr.len + SIZEOF_HDR
    }

    /** n bytes of data. */
    function Data(n: nat): Option<seq<byte>> {
      if DataPtr() + n <= |mem| then Some(mem[DataPtr()..DataPtr() + n]) else None
    }

    function ByteEnables(): Option<seq<byte>> {
      match ByteEnPtr()
      case None => Some([])
      case Some(p) => if p + at.value.byteEnableLen <= |mem| then Some(mem[p..p + at.value.byteEnableLen]) else None
    }
  }

  /** What rp_process makes of the front of the stream; None for a packet that is
      not complete, trips an assertion, or is no bus access. */
  function Parse(stream: seq<byte>): (r: Option<Received>)
    ensures r.Some? ==> SIZEOF_HDR <= |r.value.mem| <= |stream|
  {
    if |stream| < SIZEOF_HDR then None
    else
      var h := LoadHdr(true, stream);
      if |stream| < SIZEOF_HDR + h.len || (h.cmd != RP_CMD_READ && h.cmd != RP_CMD_WRITE) then None
      else
        var mem := stream[..SIZEOF_HDR + h.len];
        if |mem| < SIZEOF_BUSACCESS then None
        else
          var b := LoadBus(true, mem);
          if |mem| < FixedSize(b.attributes) then None
          else Some(Received(h, b, if HasExt(b.attributes) then Some(LoadOffsets(true, mem)) else None, mem))
  }

  /** rp_process, up to the point where it hands the packet to its device. */
  method Process(host: Host, stream: seq<byte>) returns (r: Received, dlen: nat)
    requires host.Sound() && Parse(stream).Some?
    ensures Some(r) == Parse(stream)
    ensures SIZEOF_HDR + dlen == FixedSize(r.bus.attributes)
  {
    var p := new Packet(host);
    var used := p.ReadHdr(stream);
    var mem := stream[..used + p.hdr.len];
    dlen := p.ReadPayload(mem);
    r := Received(p.hdr, p.bus, if HasExt(p.bus.attributes) then Some(p.ext.at) else None, mem);
  }

  // ---- framing ----

  /** Enables travel only in the extended layout, and lengths are 32 bits: that is
      exactly when the header announces what follows it. */
  lemma FramedIff(extBase: bool, input: In, data: seq<byte>, be: seq<byte>)
    requires |data| == DataLen(input) && |be| == input.byteEnableLen
    ensures |Message(extBase, input, data, be)| == SIZEOF_HDR + HdrOf(extBase, input).len
            <==> && (Extended(extBase, input) || be == [])
                 && |Message(extBase, input, data, be)| - SIZEOF_HDR < 0x1_0000_0000
  {
    hide Header;
  }

  /** What rp_encode_busaccess and its callers demand. */
  ghost predicate Sendable(extBase: bool, input: In, data: seq<byte>, be: seq<byte>) {
    && (input.cmd == RP_CMD_READ || input.cmd == RP_CMD_WRITE)
    && |data| == DataLen(input) && |be| == input.byteEnableLen
    && Encodable(extBase, input) && (Extended(extBase, input) || be == [])
    && |Message(extBase, input, data, be)| < 0x1_0000_0000
  }

  function ReceivedFrom(extBase: bool, input: In, data: seq<byte>, be: seq<byte>): Received {
    Received(HdrOf(extBase, input), BusOf(extBase, input),
             if Extended(extBase, input) then Some(ExtOf(input).at) else None, Message(extBase, input, data, be))
  }

  lemma HeaderBack(extBase: bool, input: In, after: seq<byte>, s: seq<byte>)
    requires s == Header(extBase, input) + after
    ensures
      && LoadHdr(true, s) == HdrOf(extBase, input)
      && LoadBus(true, s) == BusOf(extBase, input)
      && (Extended(extBase, input) ==> LoadOffsets(true, s) == ExtOf(input).at)
  {
    hide LoadHdr, LoadBus, LoadOffsets, HdrOf, BusOf, ExtOf, Hdr.Wire, Bus.Wire, Ext.Wire;
    var h, b := HdrOf(extBase, input).Wire(), BusOf(extBase, input).Wire();
    var e := if Extended(extBase, input) then ExtOf(input).Wire() else [];
    assert s == h + (b + e + after);
    HdrBack(HdrOf(extBase, input), b + e + after);
    assert s == h + b + (e + after);
    BusBack(h, BusOf(extBase, input), e + after);
    if Extended(extBase, input) {
      assert s == (h + b) + e + after;
      OffsetsBack(h + b, ExtOf(input), after);
    }
  }

  lemma ExtSet(extBase: bool, input: In)
    ensures HasExt(BusOf(extBase, input).attributes) <==> Extended(extBase, input)
    ensures FixedSize(BusOf(extBase, input).attributes) == HeaderSize(extBase, input) >= SIZEOF_BUSACCESS
    ensures HdrOf(extBase, input).cmd == input.cmd
  {
  }

  lemma ParseFrom(stream: seq<byte>, mem: seq<byte>, r: Received)
    requires |mem| >= SIZEOF_BUSACCESS && mem <= stream && |mem| == SIZEOF_HDR + r.hdr.len && r.mem == mem
    requires LoadHdr(true, stream) == r.hdr && (r.hdr.cmd == RP_CMD_READ || r.hdr.cmd == RP_CMD_WRITE)
    requires LoadBus(true, mem) == r.bus && |mem| >= FixedSize(r.bus.attributes)
    requires r.at == if HasExt(r.bus.attributes) then Some(LoadOffsets(true, mem)) else None
    ensures Parse(stream) == Some(r)
  {
    hide LoadHdr, LoadBus, LoadOffsets;
    assert stream[..|mem|] == mem;
  }

  /** One packet at the front of a stream comes back with all its fields. */
  lemma ParsesBack(extBase: bool, input: In, data: seq<byte>, be: seq<byte>, rest: seq<byte>)
    requires Sendable(extBase, input, data, be)
    ensures Parse(Message(extBase, input, data, be) + rest) == Some(ReceivedFrom(extBase, input, data, be))
  {
    hide LoadHdr, LoadBus, LoadOffsets, Parse, HdrOf, BusOf, ExtOf, Header, HeaderSize;
    var m := Message(extBase, input, data, be);
    HeaderBack(extBase, input, data + be + rest, m + rest);
    HeaderBack(extBase, input, data + be, m);
    FramedIff(extBase, input, data, be);
    ExtSet(extBase, input);
    ParseFrom(m + rest, m, ReceivedFrom(extBase, input, data, be));
  }

  /** Data and enables are where rx_dataptr and byte_en_ptr point, and the latter's
      assertions hold. */
  lemma PartsFound(extBase: bool, input: In, data: seq<byte>, be: seq<byte>)
    requires Sendable(extBase, input, data, be)
    ensures var r := ReceivedFrom(extBase, input, data, be);
      && r.Data(|data|) == Some(data) && r.ByteEnables() == Some(be) && r.ByteEnPtrOk()
      && r.DataPtr() == HeaderSize(extBase, input)
  {
    hide Header, HeaderSize, HdrOf, BusOf;
    FramedIff(extBase, input, data, be);
    PartsOf(Header(extBase, input), data, be);
    OffsetsFit(extBase, input);
  }

  lemma PartsOf(header: seq<byte>, data: seq<byte>, be: seq<byte>)
    ensures var m, n := header + data + be, |header|;
            m[n..n + |data|] == data && m[n + |data|..n + |data| + |be|] == be
  {
  }

  lemma OffsetsFit(extBase: bool, input: In)
    ensures HeaderSize(extBase, input) == if Extended(extBase, input) then SIZEOF_EXT_BASE else SIZEOF_BUSACCESS
  {
  }

  /** The master id that rp_decode_payload puts together before it cuts it. */
  function WireMasterId(r: Received): u64
    requires |r.mem| >= SIZEOF_BUSACCESS && (r.at.Some? ==> |r.mem| >= SIZEOF_EXT_BASE)
  {
    if r.at.Some? then MasterId(r.bus.masterId, Load16(true, r.mem, 58), Load32(true, r.mem, 60)) else r.bus.masterId
  }

  /** All 64 bits of the master id are on the wire, in either layout. */
  lemma MasterIdArrives(extBase: bool, input: In, data: seq<byte>, be: seq<byte>)
    requires Sendable(extBase, input, data, be)
    ensures var r := ReceivedFrom(extBase, input, data, be);
      && |r.mem| >= SIZEOF_BUSACCESS && (r.at.Some? ==> |r.mem| >= SIZEOF_EXT_BASE)
      && WireMasterId(r) == input.masterId
  {
    hide Hdr.Wire, Bus.Wire, Ext.Wire, HdrOf, Load16, Load32, SetExt;
    if Extended(extBase, input) {
      var before := HdrOf(extBase, input).Wire() + BusOf(extBase, input).Wire();
      assert Message(extBase, input, data, be) == before + ExtOf(input).Wire() + (data + be);
      UpperIdsBack(before, ExtOf(input), data + be);
      MasterIdParts(input.masterId);
    }
  }

  // ---- streams ----

  datatype Sent = Sent(extBase: bool, input: In, data: seq<byte>, be: seq<byte>)

  function StreamOf(packets: seq<Sent>): seq<byte> {
    if packets == [] then []
    else Message(packets[0].extBase, packets[0].input, packets[0].data, packets[0].be) + StreamOf(packets[1..])
  }

  /** The receiver's loop; None when a packet does not parse. */
  function ParseAll(stream: seq<byte>): Option<seq<Received>>
    decreases |stream|
  {
    if stream == [] then Some([])
    else match Parse(stream)
      case None => None
      case Some(r) =>
        match ParseAll(stream[|r.mem|..])
        case None => None
        case Some(rs) => Some([r] + rs)
  }

  /** A packet has arrived: its fields, its data and its enables. */
  ghost predicate Arrived(p: Sent, r: Received) {
    && r.hdr.cmd == p.input.cmd && r.hdr.id == p.input.id && r.hdr.flags == p.input.flags && r.hdr.dev == p.input.dev
    && r.bus.timestamp == p.input.clk && r.bus.addr == p.input.addr && r.bus.len == p.input.size
    && r.bus.width == p.input.width && r.bus.streamWidth == p.input.streamWidth
    && r.bus.masterId == Low16(p.input.masterId)
    && r.bus.attributes == (if Extended(p.extBase, p.input) then SetExt(p.input.attr) else p.input.attr)
    && r.Data(|p.data|) == Some(p.data) && r.ByteEnables() == Some(p.be) && r.ByteEnPtrOk()
  }

  lemma PacketArrives(p: Sent)
    requires Sendable(p.extBase, p.input, p.data, p.be)
    ensures Arrived(p, ReceivedFrom(p.extBase, p.input, p.data, p.be))
  {
    PartsFound(p.extBase, p.input, p.data, p.be);
  }

  /** A request from a host of either byte order arrives at one of the other. */
  method SendAcross(fromBig: bool, p: Sent) returns (r: Received)
    requires !IsResponse(p.input.flags) && Sendable(p.extBase, p.input, p.data, p.be)
    ensures Arrived(p, r)
  {
    hide ReceivedFrom, Sendable, Message, Parse, Arrived, Host.Sound;
    BothHostsSound();
    PacketArrives(p);
    ParsesBack(p.extBase, p.input, p.data, p.be, []);
    var stream := SendRequest(if fromBig then BIG else LITTLE, p.extBase, p.input, p.data, p.be);
    assert stream + [] == stream;
    var dlen;
    r, dlen := Process(if fromBig then LITTLE else BIG, stream);
  }

  lemma ParseAllStep(m: seq<byte>, rest: seq<byte>, r: Received)
    requires Parse(m + rest) == Some(r) && r.mem == m && ParseAll(rest).Some?
    ensures ParseAll(m + rest) == Some([r] + ParseAll(rest).value)
  {
    hide Parse;
    assert (m + rest)[|m|..] == rest;
  }

  ghost predicate AllArrived(packets: seq<Sent>, rs: seq<Received>) {
    |rs| == |packets| && forall k :: 0 <= k < |packets| ==> Arrived(packets[k], rs[k])
  }

  lemma FirstArrived(packets: seq<Sent>, r: Received, rs: seq<Received>)
    requires packets != [] && Arrived(packets[0], r) && AllArrived(packets[1..], rs)
    ensures AllArrived(packets, [r] + rs)
  {
    hide Arrived;
    forall k | 0 <= k < |packets| ensures Arrived(packets[k], ([r] + rs)[k]) {
      assert k > 0 ==> packets[k] == packets[1..][k - 1] && ([r] + rs)[k] == rs[k - 1];
    }
  }

  /** A stream of any packets, in either layout, is cut back into the same packets. */
  lemma {:induction false} StreamArrives(packets: seq<Sent>)
    requires forall p :: p in packets ==> Sendable(p.extBase, p.input, p.data, p.be)
    ensures ParseAll(StreamOf(packets)).Some?
    ensures AllArrived(packets, ParseAll(StreamOf(packets)).value)
  {
    hide Message, Parse, ReceivedFrom, Arrived, Sendable;
    if packets != [] {
      var p, rest := packets[0], StreamOf(packets[1..]);
      StreamArrives(packets[1..]);
      ParsesBack(p.extBase, p.input, p.data, p.be, rest);
      PacketArrives(p);
      FromOwnMessage(p);
      ParseAllStep(Message(p.extBase, p.input, p.data, p.be), rest, ReceivedFrom(p.extBase, p.input, p.data, p.be));
      FirstArrived(packets, ReceivedFrom(p.extBase, p.input, p.data, p.be), ParseAll(rest).value);
    }
  }

  lemma FromOwnMessage(p: Sent)
    ensures ReceivedFrom(p.extBase, p.input, p.data, p.be).mem == Message(p.extBase, p.input, p.data, p.be)
  {
  }

  // ---- responses ----

  /** rp_busaccess_tx_dataptr. */
  function TxDataPtr(extBase: bool): nat {
    if extBase then SIZEOF_EXT_BASE else SIZEOF_BUSACCESS
  }

  /** It predicts the place of the data unless a packet is extended on account of
      its attributes alone. */
  lemma TxDataPtrIff(extBase: bool, input: In)
    ensures TxDataPtr(extBase) == HeaderSize(extBase, input) <==> extBase || !HasExt(input.attr)
  {
  }

  /** rp_encode_busaccess_in_rsp_init, with the time and response code that
      cmd_read and cmd_write fill in. */
  function Response(r: Received, clk: u64, resp: nat): In
    requires resp < 16
  {
    In(r.hdr.cmd, r.hdr.id, SetResponse(r.hdr.flags), r.hdr.dev, clk, r.bus.masterId, r.bus.addr, resp * 256,
       r.bus.len, r.bus.width, r.bus.streamWidth, 0)
  }

  /** rp_get_busaccess_response. */
  function ResponseCode(r: Received): nat {
    r.bus.attributes / 256 % 16
  }

  lemma ResponseAttributes(resp: nat)
    requires resp < 16
    ensures !HasExt(resp * 256) && resp * 256 / 256 % 16 == resp && SetExt(resp * 256) / 256 % 16 == resp
  {
  }

  lemma ResponseSendable(ownExt: bool, r: Received, clk: u64, resp: nat, answer: seq<byte>)
    requires (r.hdr.cmd == RP_CMD_READ || r.hdr.cmd == RP_CMD_WRITE) && resp < 16
    requires |answer| == (if r.hdr.cmd == RP_CMD_READ then r.bus.len else 0)
    requires |answer| + SIZEOF_EXT_BASE < 0x1_0000_0000
    ensures var out := Response(r, clk, resp);
      && TxDataPtr(ownExt) == HeaderSize(ownExt, out)
      && (Encodable(ownExt, out) <==> ownExt || r.bus.masterId < 0xffff)
      && (Sendable(ownExt, out, answer, []) <==> Encodable(ownExt, out))
      && ResponseCode(ReceivedFrom(ownExt, out, answer, [])) == resp
  {
    ResponseAttributes(resp);
  }

  /** What the requester wants of the response to its request, which it has sent with
      these headers: it is marked as one, repeats the request's fields, and has the
      time, the response code and the data. */
  ghost predicate Answers(back: Received, hdr: Hdr, bus: Bus, clk: u64, resp: nat, answer: seq<byte>) {
    && IsResponse(back.hdr.flags) && ResponseCode(back) == resp && back.bus.timestamp == clk
    && back.hdr.id == hdr.id && back.hdr.dev == hdr.dev && back.hdr.cmd == hdr.cmd
    && (back.hdr.flags == hdr.flags || back.hdr.flags == hdr.flags + 2)
    && back.bus.addr == bus.addr && back.bus.len == bus.len && back.bus.width == bus.width
    && back.bus.streamWidth == bus.streamWidth && back.bus.masterId == bus.masterId
    && back.Data(|answer|) == Some(answer) && back.ByteEnables() == Some([])
  }

  lemma ResponseAnswers(ownExt: bool, r: Received, clk: u64, resp: nat, answer: seq<byte>)
    requires resp < 16 && Sendable(ownExt, Response(r, clk, resp), answer, [])
    requires ResponseCode(ReceivedFrom(ownExt, Response(r, clk, resp), answer, [])) == resp
    ensures Answers(ReceivedFrom(ownExt, Response(r, clk, resp), answer, []), r.hdr, r.bus, clk, resp, answer)
  {
    hide Message, ResponseCode, Sendable, ExtOf, SetExt;
    PartsFound(ownExt, Response(r, clk, resp), answer, []);
  }

  /** The response to a received request, as the requester gets it: its own ID, the
      response code, and for a read the data, which the responder has put where
      tx_dataptr said. */
  lemma ResponseArrives(ownExt: bool, r: Received, clk: u64, resp: nat, answer: seq<byte>)
    requires (r.hdr.cmd == RP_CMD_READ || r.hdr.cmd == RP_CMD_WRITE) && resp < 16
    requires |answer| == (if r.hdr.cmd == RP_CMD_READ then r.bus.len else 0)
    requires |answer| + SIZEOF_EXT_BASE < 0x1_0000_0000
    requires Encodable(ownExt, Response(r, clk, resp))
    ensures TxDataPtr(ownExt) == HeaderSize(ownExt, Response(r, clk, resp))
    ensures var back := Parse(Message(ownExt, Response(r, clk, resp), answer, []));
            back.Some? && Answers(back.value, r.hdr, r.bus, clk, resp, answer)
  {
    hide Parse, Message, Answers, ReceivedFrom, ResponseCode, Sendable;
    ResponseSendable(ownExt, r, clk, resp, answer);
    ResponseAnswers(ownExt, r, clk, resp, answer);
    ParsesWhole(ownExt, Response(r, clk, resp), answer, []);
  }

  /** A request and its response, whatever layouts the two sides understand. The
      responder can encode it, and the requester then gets what it wants, unless the
      response needs the old layout for a master id that the assertion refuses. */
  lemma Exchange(peerExt: bool, ownExt: bool, request: In, data: seq<byte>, be: seq<byte>,
                 clk: u64, resp: nat, answer: seq<byte>, r: Received)
    requires Sendable(peerExt, request, data, be) && resp < 16
    requires |answer| == (if request.cmd == RP_CMD_READ then request.size else 0)
    requires |answer| + SIZEOF_EXT_BASE < 0x1_0000_0000
    requires Parse(Message(peerExt, request, data, be)) == Some(r)
    ensures Encodable(ownExt, Response(r, clk, resp)) <==> ownExt || Low16(request.masterId) < 0xffff
    ensures Encodable(ownExt, Response(r, clk, resp)) ==>
              var back := Parse(Message(ownExt, Response(r, clk, resp), answer, []));
              back.Some? && Answers(back.value, HdrOf(peerExt, request), BusOf(peerExt, request), clk, resp, answer)
  {
    hide Parse, Message, Answers, HeaderSize, Encodable;
    ParsesWhole(peerExt, request, data, be);
    ResponseSendable(ownExt, r, clk, resp, answer);
    if Encodable(ownExt, Response(r, clk, resp)) {
      ResponseArrives(ownExt, r, clk, resp, answer);
    }
  }

  lemma ParsesWhole(extBase: bool, input: In, data: seq<byte>, be: seq<byte>)
    requires Sendable(extBase, input, data, be)
    ensures Parse(Message(extBase, input, data, be)) == Some(ReceivedFrom(extBase, input, data, be))
  {
    ParsesBack(extBase, input, data, be, []);
    assert Message(extBase, input, data, be) + [] == Message(extBase, input, data, be);
  }
}
