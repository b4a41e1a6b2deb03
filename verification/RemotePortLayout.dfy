/** Remote-port packets in memory and on the wire: packed structs whose fields the
    host stores in its own byte order, and swaps in place to and from the big
    endian order of the wire. */
module RemotePortLayout {
  import opened Common

  type u16 = x: nat | x < 0x1_0000
  type u32 = x: nat | x < 0x1_0000_0000
  type u64 = x: nat | x < 0x1_0000_0000_0000_0000

  // ---- bytes ----

  function Pow256(n: nat): (p: nat)
    ensures p > 0
  {
    if n == 0 then 1 else 256 * Pow256(n - 1)
  }

  lemma Powers()
    ensures Pow256(2) == 0x1_0000 && Pow256(4) == 0x1_0000_0000 && Pow256(8) == 0x1_0000_0000_0000_0000
  {
    assert Pow256(1) == 256 && Pow256(3) == 0x100_0000;
    assert Pow256(4) == 256 * Pow256(3);
    assert Pow256(5) == 256 * Pow256(4) && Pow256(6) == 256 * Pow256(5) && Pow256(7) == 256 * Pow256(6);
  }

  function LE(v: nat, n: nat): (s: seq<byte>)
    ensures |s| == n
  {
    if n == 0 then [] else [(v % 256) as byte] + LE(v / 256, n - 1)
  }

  function FromLE(s: seq<byte>): (v: nat)
    ensures v < Pow256(|s|)
  {
    if s == [] then 0 else s[0] as nat + 256 * FromLE(s[1..])
  }

  lemma {:induction false} FromLEOfLE(v: nat, n: nat)
    requires v < Pow256(n)
    ensures FromLE(LE(v, n)) == v
  {
    if n > 0 {
      assert LE(v, n)[1..] == LE(v / 256, n - 1);
      FromLEOfLE(v / 256, n - 1);
    }
  }

  lemma {:induction false} LEOfFromLE(s: seq<byte>)
    ensures LE(FromLE(s), |s|) == s
  {
    if s != [] {
      LEOfFromLE(s[1..]);
      var v := FromLE(s);
      assert v % 256 == s[0] as nat && v / 256 == FromLE(s[1..]);
      assert LE(v, |s|) == [(v % 256) as byte] + LE(v / 256, |s| - 1);
      assert s == [s[0]] + s[1..];
    }
  }

  function Reverse(s: seq<byte>): (r: seq<byte>)
    ensures |r| == |s|
  {
    seq(|s|, i requires 0 <= i < |s| => s[|s| - 1 - i])
  }

  function BE(v: nat, n: nat): (s: seq<byte>)
    ensures |s| == n
  {
    Reverse(LE(v, n))
  }

  function FromBE(s: seq<byte>): (v: nat)
    ensures v < Pow256(|s|)
  {
    FromLE(Reverse(s))
  }

  lemma FromBEOfBE(v: nat, n: nat)
    requires v < Pow256(n)
    ensures FromBE(BE(v, n)) == v
  {
    assert Reverse(BE(v, n)) == LE(v, n);
    FromLEOfLE(v, n);
  }

  /** Bytes read as digits, most significant first. */
  function Number(s: seq<byte>): nat {
    if s == [] then 0 else Number(s[..|s| - 1]) * 256 + s[|s| - 1] as nat
  }

  lemma {:induction false} NumberOfBE(v: nat, n: nat)
    requires v < Pow256(n)
    ensures Number(BE(v, n)) == v
  {
    if n > 0 {
      NumberOfBE(v / 256, n - 1);
      assert BE(v, n)[..n - 1] == BE(v / 256, n - 1);
    }
  }

  /** An integer of n bytes lies at an offset, most significant byte first. */
  predicate IntegerAt(s: seq<byte>, at: nat, v: nat, n: nat) {
    at + n <= |s| && Number(s[at..at + n]) == v
  }

  /** bswap: the n bytes of an integer change places. */
  function Swap(v: nat, n: nat): (r: nat)
    ensures r < Pow256(n)
  {
    FromLE(Reverse(LE(v, n)))
  }

  /** How a host stores an integer, and finds it again. */
  function Store(big: bool, v: nat, n: nat): (s: seq<byte>)
    ensures |s| == n
  {
    if big then BE(v, n) else LE(v, n)
  }

  function Load(big: bool, s: seq<byte>): (v: nat)
    ensures v < Pow256(|s|)
  {
    if big then FromBE(s) else FromLE(s)
  }

  /** What the macros htobe and betoh do on this host. */
  function Flip(big: bool, v: nat, n: nat): nat {
    if big then v else Swap(v, n)
  }

  lemma StoredInNetworkOrder(big: bool, v: nat, n: nat)
    ensures Store(big, Flip(big, v, n), n) == BE(v, n)
  {
    LEOfFromLE(BE(v, n));
  }

  lemma LoadedFromNetworkOrder(big: bool, s: seq<byte>)
    ensures Flip(big, Load(big, s), |s|) == FromBE(s)
  {
    LEOfFromLE(s);
  }

  /** A host: its byte order and its htobe macros, which betoh share. */
  datatype Host = Host(big: bool, be16: u16 -> u16, be32: u32 -> u32, be64: u64 -> u64) {
    ghost predicate Sound() {
      && (forall v: u16 :: be16(v) == Flip(big, v, 2))
      && (forall v: u32 :: be32(v) == Flip(big, v, 4))
      && (forall v: u64 :: be64(v) == Flip(big, v, 8))
    }
  }

  function Bswap16(v: u16): u16 {
    Powers();
    Swap(v, 2)
  }

  function Bswap32(v: u32): u32 {
    Powers();
    Swap(v, 4)
  }

  function Bswap64(v: u64): u64 {
    Powers();
    Swap(v, 8)
  }

  const LITTLE: Host := Host(false, Bswap16, Bswap32, Bswap64)
  const BIG: Host := Host(true, v => v, v => v, v => v)

  lemma BothHostsSound()
    ensures LITTLE.Sound() && BIG.Sound()
  {
  }

  lemma ZeroSwapped(host: Host)
    requires host.Sound()
    ensures host.be32(0) == 0
  {
    assert LE(0, 4) == [0, 0, 0, 0];
    assert Reverse(LE(0, 4)) == LE(0, 4);
    Powers();
    FromLEOfLE(0, 4);
  }

  // ---- the packed structs ----

  const SIZEOF_HDR: nat := 20
  const SIZEOF_BUSACCESS: nat := 58
  const SIZEOF_EXT_BASE: nat := 80

  datatype Hdr = Hdr(cmd: u32, len: u32, id: u32, flags: u32, dev: u32) {
    /** In the memory of a host. */
    function Bytes(big: bool): (s: seq<byte>)
      ensures |s| == SIZEOF_HDR
    {
      Store(big, cmd, 4) + Store(big, len, 4) + Store(big, id, 4) + Store(big, flags, 4) + Store(big, dev, 4)
    }

    function Wire(): (s: seq<byte>)
      ensures |s| == SIZEOF_HDR
    {
      BE(cmd, 4) + BE(len, 4) + BE(id, 4) + BE(flags, 4) + BE(dev, 4)
    }

    /** Every field through htobe, or betoh. */
    function Net(h: Host): Hdr {
      Hdr(h.be32(cmd), h.be32(len), h.be32(id), h.be32(flags), h.be32(dev))
    }
  }

  datatype Bus = Bus(timestamp: u64, attributes: u64, addr: u64, len: u32, width: u32, streamWidth: u32,
                     masterId: u16) {
    function Bytes(big: bool): (s: seq<byte>)
      ensures |s| == SIZEOF_BUSACCESS - SIZEOF_HDR
    {
      Store(big, timestamp, 8) + Store(big, attributes, 8) + Store(big, addr, 8) + Store(big, len, 4)
      + Store(big, width, 4) + Store(big, streamWidth, 4) + Store(big, masterId, 2)
    }

    function Wire(): (s: seq<byte>)
      ensures |s| == SIZEOF_BUSACCESS - SIZEOF_HDR
    {
      BE(timestamp, 8) + BE(attributes, 8) + BE(addr, 8)
      + BE(len, 4) + BE(width, 4) + BE(streamWidth, 4) + BE(masterId, 2)
    }

    function Net(h: Host): Bus {
      Bus(h.be64(timestamp), h.be64(attributes), h.be64(addr), h.be32(len), h.be32(width), h.be32(streamWidth),
          h.be16(masterId))
    }
  }

  datatype Offsets = Offsets(data: u32, next: u32, byteEnable: u32, byteEnableLen: u32) {
    function Net(h: Host): Offsets {
      Offsets(h.be32(data), h.be32(next), h.be32(byteEnable), h.be32(byteEnableLen))
    }
  }

  datatype Ext = Ext(masterId31: u16, masterId63: u32, at: Offsets) {
    function Bytes(big: bool): (s: seq<byte>)
      ensures |s| == SIZEOF_EXT_BASE - SIZEOF_BUSACCESS
    {
      Store(big, masterId31, 2) + Store(big, masterId63, 4) + Store(big, at.data, 4) + Store(big, at.next, 4)
      + Store(big, at.byteEnable, 4) + Store(big, at.byteEnableLen, 4)
    }

    function Wire(): (s: seq<byte>)
      ensures |s| == SIZEOF_EXT_BASE - SIZEOF_BUSACCESS
    {
      BE(masterId31, 2) + BE(masterId63, 4) + BE(at.data, 4) + BE(at.next, 4)
      + BE(at.byteEnable, 4) + BE(at.byteEnableLen, 4)
    }

    function Net(h: Host): Ext {
      Ext(h.be16(masterId31), h.be32(masterId63), at.Net(h))
    }
  }

  lemma HdrStored(h: Hdr, host: Host)
    requires host.Sound()
    ensures h.Net(host).Bytes(host.big) == h.Wire()
  {
    StoredInNetworkOrder(host.big, h.cmd, 4);
    StoredInNetworkOrder(host.big, h.len, 4);
    StoredInNetworkOrder(host.big, h.id, 4);
    StoredInNetworkOrder(host.big, h.flags, 4);
    StoredInNetworkOrder(host.big, h.dev, 4);
  }

  lemma BusStored(b: Bus, host: Host)
    requires host.Sound()
    ensures b.Net(host).Bytes(host.big) == b.Wire()
  {
    StoredInNetworkOrder(host.big, b.timestamp, 8);
    StoredInNetworkOrder(host.big, b.attributes, 8);
    StoredInNetworkOrder(host.big, b.addr, 8);
    StoredInNetworkOrder(host.big, b.len, 4);
    StoredInNetworkOrder(host.big, b.width, 4);
    StoredInNetworkOrder(host.big, b.streamWidth, 4);
    StoredInNetworkOrder(host.big, b.masterId, 2);
  }

  lemma ExtStored(e: Ext, host: Host)
    requires host.Sound()
    ensures e.Net(host).Bytes(host.big) == e.Wire()
  {
    StoredInNetworkOrder(host.big, e.masterId31, 2);
    StoredInNetworkOrder(host.big, e.masterId63, 4);
    StoredInNetworkOrder(host.big, e.at.data, 4);
    StoredInNetworkOrder(host.big, e.at.next, 4);
    StoredInNetworkOrder(host.big, e.at.byteEnable, 4);
    StoredInNetworkOrder(host.big, e.at.byteEnableLen, 4);
  }

  lemma HdrFields(h: Hdr, after: seq<byte>)
    ensures var s := h.Wire() + after;
      && IntegerAt(s, 0, h.cmd, 4) && IntegerAt(s, 4, h.len, 4) && IntegerAt(s, 8, h.id, 4)
      && IntegerAt(s, 12, h.flags, 4) && IntegerAt(s, 16, h.dev, 4)
  {
    hide BE, Number;
    Powers();
    NumberOfBE(h.cmd, 4);
    NumberOfBE(h.len, 4);
    NumberOfBE(h.id, 4);
    NumberOfBE(h.flags, 4);
    NumberOfBE(h.dev, 4);
    var s := h.Wire() + after;
    assert s[0..4] == BE(h.cmd, 4) && s[4..8] == BE(h.len, 4) && s[8..12] == BE(h.id, 4);
    assert s[12..16] == BE(h.flags, 4) && s[16..20] == BE(h.dev, 4);
  }

  lemma BusFields(before: seq<byte>, b: Bus, after: seq<byte>)
    requires |before| == SIZEOF_HDR
    ensures var s := before + b.Wire() + after;
      && IntegerAt(s, 20, b.timestamp, 8) && IntegerAt(s, 28, b.attributes, 8) && IntegerAt(s, 36, b.addr, 8)
      && IntegerAt(s, 44, b.len, 4) && IntegerAt(s, 48, b.width, 4) && IntegerAt(s, 52, b.streamWidth, 4)
      && IntegerAt(s, 56, b.masterId, 2)
  {
    hide BE, Number;
    Powers();
    NumberOfBE(b.timestamp, 8);
    NumberOfBE(b.attributes, 8);
    NumberOfBE(b.addr, 8);
    NumberOfBE(b.len, 4);
    NumberOfBE(b.width, 4);
    NumberOfBE(b.streamWidth, 4);
    NumberOfBE(b.masterId, 2);
    var s := before + b.Wire() + after;
    assert s[20..28] == BE(b.timestamp, 8) && s[28..36] == BE(b.attributes, 8) && s[36..44] == BE(b.addr, 8);
    assert s[44..48] == BE(b.len, 4) && s[48..52] == BE(b.width, 4) && s[52..56] == BE(b.streamWidth, 4);
    assert s[56..58] == BE(b.masterId, 2);
  }

  lemma ExtFields(before: seq<byte>, e: Ext, after: seq<byte>)
    requires |before| == SIZEOF_BUSACCESS
    ensures var s := before + e.Wire() + after;
      && IntegerAt(s, 58, e.masterId31, 2) && IntegerAt(s, 60, e.masterId63, 4) && IntegerAt(s, 64, e.at.data, 4)
      && IntegerAt(s, 68, e.at.next, 4) && IntegerAt(s, 72, e.at.byteEnable, 4)
      && IntegerAt(s, 76, e.at.byteEnableLen, 4)
  {
    hide BE, Number;
    Powers();
    NumberOfBE(e.masterId31, 2);
    NumberOfBE(e.masterId63, 4);
    NumberOfBE(e.at.data, 4);
    NumberOfBE(e.at.next, 4);
    NumberOfBE(e.at.byteEnable, 4);
    NumberOfBE(e.at.byteEnableLen, 4);
    var s := before + e.Wire() + after;
    assert s[58..60] == BE(e.masterId31, 2) && s[60..64] == BE(e.masterId63, 4) && s[64..68] == BE(e.at.data, 4);
    assert s[68..72] == BE(e.at.next, 4) && s[72..76] == BE(e.at.byteEnable, 4);
    assert s[76..80] == BE(e.at.byteEnableLen, 4);
  }

  /** A field of a packet in the memory of a host. */
  function Load16(big: bool, s: seq<byte>, at: nat): u16
    requires at + 2 <= |s|
  {
    Powers();
    Load(big, s[at..at + 2])
  }

  function Load32(big: bool, s: seq<byte>, at: nat): u32
    requires at + 4 <= |s|
  {
    Powers();
    Load(big, s[at..at + 4])
  }

  function Load64(big: bool, s: seq<byte>, at: nat): u64
    requires at + 8 <= |s|
  {
    Powers();
    Load(big, s[at..at + 8])
  }

  /** The structs laid over the memory of a host; with `big`, also what the wire
      says. */
  function LoadHdr(big: bool, s: seq<byte>): Hdr
    requires |s| >= SIZEOF_HDR
  {
    Hdr(Load32(big, s, 0), Load32(big, s, 4), Load32(big, s, 8), Load32(big, s, 12), Load32(big, s, 16))
  }

  function LoadBus(big: bool, s: seq<byte>): Bus
    requires |s| >= SIZEOF_BUSACCESS
  {
    Bus(Load64(big, s, 20), Load64(big, s, 28), Load64(big, s, 36), Load32(big, s, 44), Load32(big, s, 48),
        Load32(big, s, 52), Load16(big, s, 56))
  }

  function LoadOffsets(big: bool, s: seq<byte>): Offsets
    requires |s| >= SIZEOF_EXT_BASE
  {
    Offsets(Load32(big, s, 64), Load32(big, s, 68), Load32(big, s, 72), Load32(big, s, 76))
  }

  function LoadExt(big: bool, s: seq<byte>): Ext
    requires |s| >= SIZEOF_EXT_BASE
  {
    Ext(Load16(big, s, 58), Load32(big, s, 60), LoadOffsets(big, s))
  }

  lemma Loaded16(host: Host, s: seq<byte>, at: nat)
    requires host.Sound() && at + 2 <= |s|
    ensures host.be16(Load16(host.big, s, at)) == Load16(true, s, at)
  {
    LoadedFromNetworkOrder(host.big, s[at..at + 2]);
  }

  lemma Loaded32(host: Host, s: seq<byte>, at: nat)
    requires host.Sound() && at + 4 <= |s|
    ensures host.be32(Load32(host.big, s, at)) == Load32(true, s, at)
  {
    LoadedFromNetworkOrder(host.big, s[at..at + 4]);
  }

  lemma Loaded64(host: Host, s: seq<byte>, at: nat)
    requires host.Sound() && at + 8 <= |s|
    ensures host.be64(Load64(host.big, s, at)) == Load64(true, s, at)
  {
    LoadedFromNetworkOrder(host.big, s[at..at + 8]);
  }

  lemma HdrLoaded(host: Host, s: seq<byte>)
    requires host.Sound() && |s| >= SIZEOF_HDR
    ensures LoadHdr(host.big, s).Net(host) == LoadHdr(true, s)
  {
    Loaded32(host, s, 0);
    Loaded32(host, s, 4);
    Loaded32(host, s, 8);
    Loaded32(host, s, 12);
    Loaded32(host, s, 16);
  }

  lemma BusLoaded(host: Host, s: seq<byte>)
    requires host.Sound() && |s| >= SIZEOF_BUSACCESS
    ensures LoadBus(host.big, s).Net(host) == LoadBus(true, s)
  {
    Loaded64(host, s, 20);
    Loaded64(host, s, 28);
    Loaded64(host, s, 36);
    Loaded32(host, s, 44);
    Loaded32(host, s, 48);
    Loaded32(host, s, 52);
    Loaded16(host, s, 56);
  }

  lemma OffsetsLoaded(host: Host, s: seq<byte>)
    requires host.Sound() && |s| >= SIZEOF_EXT_BASE
    ensures LoadOffsets(host.big, s).Net(host) == LoadOffsets(true, s)
  {
    Loaded32(host, s, 64);
    Loaded32(host, s, 68);
    Loaded32(host, s, 72);
    Loaded32(host, s, 76);
  }

  // ---- what is written is read back ----

  lemma HdrBack(h: Hdr, after: seq<byte>)
    ensures LoadHdr(true, h.Wire() + after) == h
  {
    hide LE, FromLE, Reverse, BE, FromBE;
    Powers();
    var s := h.Wire() + after;
    FromBEOfBE(h.cmd, 4);
    FromBEOfBE(h.len, 4);
    FromBEOfBE(h.id, 4);
    FromBEOfBE(h.flags, 4);
    FromBEOfBE(h.dev, 4);
    assert s[0..4] == BE(h.cmd, 4);
    assert s[4..8] == BE(h.len, 4);
    assert s[8..12] == BE(h.id, 4);
    assert s[12..16] == BE(h.flags, 4);
    assert s[16..20] == BE(h.dev, 4);
  }

  lemma BusBack(before: seq<byte>, b: Bus, after: seq<byte>)
    requires |before| == SIZEOF_HDR
    ensures LoadBus(true, before + b.Wire() + after) == b
  {
    hide LE, FromLE, Reverse, BE, FromBE;
    Powers();
    var s := before + b.Wire() + after;
    FromBEOfBE(b.timestamp, 8);
    FromBEOfBE(b.attributes, 8);
    FromBEOfBE(b.addr, 8);
    FromBEOfBE(b.len, 4);
    FromBEOfBE(b.width, 4);
    FromBEOfBE(b.streamWidth, 4);
    FromBEOfBE(b.masterId, 2);
    assert s[20..28] == BE(b.timestamp, 8);
    assert s[28..36] == BE(b.attributes, 8);
    assert s[36..44] == BE(b.addr, 8);
    assert s[44..48] == BE(b.len, 4);
    assert s[48..52] == BE(b.width, 4);
    assert s[52..56] == BE(b.streamWidth, 4);
    assert s[56..58] == BE(b.masterId, 2);
  }

  lemma UpperIdsBack(before: seq<byte>, e: Ext, after: seq<byte>)
    requires |before| == SIZEOF_BUSACCESS
    ensures var s := before + e.Wire() + after;
            Load16(true, s, 58) == e.masterId31 && Load32(true, s, 60) == e.masterId63
  {
    hide LE, FromLE, Reverse, BE, FromBE;
    Powers();
    var s := before + e.Wire() + after;
    FromBEOfBE(e.masterId31, 2);
    FromBEOfBE(e.masterId63, 4);
    assert s[58..60] == BE(e.masterId31, 2);
    assert s[60..64] == BE(e.masterId63, 4);
  }

  lemma OffsetsBack(before: seq<byte>, e: Ext, after: seq<byte>)
    requires |before| == SIZEOF_BUSACCESS
    ensures LoadOffsets(true, before + e.Wire() + after) == e.at
  {
    hide LE, FromLE, Reverse, BE, FromBE;
    Powers();
    var s := before + e.Wire() + after;
    FromBEOfBE(e.at.data, 4);
    FromBEOfBE(e.at.next, 4);
    FromBEOfBE(e.at.byteEnable, 4);
    FromBEOfBE(e.at.byteEnableLen, 4);
    assert s[64..68] == BE(e.at.data, 4);
    assert s[68..72] == BE(e.at.next, 4);
    assert s[72..76] == BE(e.at.byteEnable, 4);
    assert s[76..80] == BE(e.at.byteEnableLen, 4);
  }
}
