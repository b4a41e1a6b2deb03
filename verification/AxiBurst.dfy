/** The geometry of AXI bursts (sections A3.4.1 and A5.3 of ARM IHI 0022D) as
    tlm2axi_bridge computes it: how many beats a payload takes, and on which lanes
    of which beat each of its bytes travels. */
module AxiBurst {

  /** ValidateBurstWidth, and the widths an AXI data bus may have, in bytes. */
  predicate IsWidth(w: nat) {
    w == 1 || w == 2 || w == 4 || w == 8 || w == 16 || w == 32 || w == 64 || w == 128
  }

  /** A payload of `len` bytes at `addr`, streaming width `sw`, sent in transfers
      of `width` bytes over a bus of `bus` bytes. */
  datatype Burst = Burst(fixed: bool, addr: nat, len: nat, sw: nat, width: nat, bus: nat) {

    /** All that SetupBurstType and ValidateBurstWidth let through, and more: a FIXED
        burst whose streaming width is below the bus must also have a transfer that
        wide, or leave the width to the bridge; and there is a limit on the beats. */
    predicate Valid() {
      && IsWidth(width) && IsWidth(bus) && len > 0 && sw > 0
      && (if fixed then sw < len && sw <= bus else sw >= len)
    }

    /** A transfer is no wider than the bus. */
    predicate Fits() {
      Valid() && width <= bus
    }

    /** How far the address is off its transfer. */
    function Offset(): (r: nat)
      requires width > 0
      ensures r < width
    {
      addr % width
    }

    /** SetupNumBeats. */
    function NumBeats(): nat
      requires width > 0
    {
      if fixed then (len + (width - Offset()) - 1) / (width - Offset())
      else (len + Offset() + width - 1) / width
    }
  }

  function AlignDown(addr: nat, to: nat): (a: nat)
    requires to > 0
    ensures a == addr - addr % to
  {
    addr / to * to
  }

  function Min(a: nat, b: nat): nat {
    if a <= b then a else b
  }

  /** wlen of prepare_wbeat. */
  function WriteLen(b: Burst, addrPos: nat, pos: nat, first: bool): nat
    requires b.Valid() && pos <= b.len
  {
    var addr := b.addr + addrPos % b.sw;
    var maxlen := Min(b.bus - addr % b.bus, b.sw - addrPos % b.sw);
    var wlen := Min(Min(b.len - pos, maxlen), b.width);
    if b.fixed || first then Min(wlen, b.width - addr % b.width) else wlen
  }

  /** readlen of read_resp_phase, whose transaction never leaves its first beat. */
  function ReadLen(b: Burst, addrPos: nat, pos: nat): nat
    requires b.Valid() && pos <= b.len
  {
    var addr := b.addr + addrPos % b.sw;
    Min(Min(Min(b.bus - addr % b.bus, b.len - pos), b.width), b.width - addr % b.width)
  }

  /** bitoffset / 8, in both directions. */
  function Lane(b: Burst, addrPos: nat): (lane: nat)
    requires b.Valid()
    ensures lane < b.bus
  {
    (b.addr + addrPos % b.sw) % b.bus
  }

  // ---- arithmetic ----

  lemma DivModUnique(a: nat, w: nat, q: nat, r: nat)
    requires w > 0 && a == q * w + r && r < w
    ensures a / w == q && a % w == r
  {
    var d := a / w - q;
    assert d * w == r - a % w;
    Multiples(d, w);
  }

  lemma Multiples(d: int, w: nat)
    ensures d > 0 ==> d * w >= w
    ensures d < 0 ==> d * w <= -(w as int)
  {
    if d > 0 {
      GrowsWith(d, w);
    } else if d < 0 {
      GrowsWith(-d, w);
      assert d * w == -(-d * w);
    }
  }

  lemma GrowsWith(y: nat, d: nat)
    requires y > 0
    ensures y * d >= d
  {
    assert y * d == (y - 1) * d + d;
  }

  lemma WidthDivides(w: nat, bus: nat)
    requires IsWidth(w) && IsWidth(bus) && w <= bus
    ensures 0 < w && bus % w == 0
  {
  }

  /** A transfer stays on the bus: lanes from that of `a` to the end of its
      `w`-byte slot. */
  lemma SlotOnBus(a: nat, w: nat, bus: nat)
    requires 0 < w <= bus && bus % w == 0
    ensures a % bus % w == a % w && a % bus + (w - a % w) <= bus
  {
    DivMod(bus, w);
    DivMod(a, bus);
    SlotAt(a, w, bus, bus / w, a / bus, a % bus);
  }

  lemma SlotAt(a: nat, w: nat, bus: nat, m: nat, q: nat, r: nat)
    requires w > 0 && bus == m * w && a == q * bus + r && r < bus
    ensures a % w == r % w && r + (w - r % w) <= bus
  {
    DivMod(r, w);
    SlotArithmetic(a, w, bus, m, q, r, r / w, r % w);
  }

  lemma DivMod(a: nat, w: nat)
    requires w > 0
    ensures a == a / w * w + a % w && 0 <= a % w < w
  {
  }

  lemma SlotArithmetic(a: nat, w: nat, bus: nat, m: nat, q: nat, r: nat, s: nat, t: nat)
    requires w > 0 && bus == m * w && a == q * bus + r && r < bus && r == s * w + t && t < w
    ensures a % w == t && r + (w - t) <= bus
  {
    assert q * (m * w) == (q * m) * w;
    assert (q * m + s) * w == (q * m) * w + s * w;
    DivModUnique(a, w, q * m + s, t);
    Multiples(m - s, w);
    assert (m - s) * w == m * w - s * w;
  }

  /** Ceiling division tells when a counter in steps of g has passed n. */
  lemma CeilDiv(n: nat, g: nat, k: nat)
    requires g > 0
    ensures k < (n + g - 1) / g <==> k * g < n
  {
    var c := (n + g - 1) / g;
    assert c * g <= n + g - 1 < (c + 1) * g;
    if k < c {
      assert (k + 1) * g <= c * g;
    } else {
      assert k * g >= c * g;
    }
  }

  // ---- where each beat starts ----

  /** The bytes a beat after the first carries. */
  function Step(b: Burst): (g: nat)
    requires b.width > 0
    ensures g > 0
  {
    if b.fixed then b.width - b.Offset() else b.width
  }

  /** The payload position at which beat k (from 0) starts; the first INCR beat
      is shortened by the offset. */
  function Start(b: Burst, k: nat): nat
    requires b.width > 0
  {
    if k == 0 then 0
    else if b.fixed then k * Step(b)
    else (assert k * b.width >= b.width; k * b.width - b.Offset())
  }

  /** addr_pos when pos is at beat k: it stays put in a FIXED burst. */
  function AddrPos(b: Burst, k: nat): nat
    requires b.width > 0
  {
    if b.fixed then 0 else Start(b, k)
  }

  lemma BeatsCover(b: Burst, k: nat)
    requires b.Valid()
    ensures k < b.NumBeats() <==> Start(b, k) < b.len
    ensures b.NumBeats() > 0
  {
    if b.fixed {
      CeilDiv(b.len, b.width - b.Offset(), k);
      CeilDiv(b.len, b.width - b.Offset(), 0);
    } else {
      CeilDiv(b.len + b.Offset(), b.width, k);
      CeilDiv(b.len + b.Offset(), b.width, 0);
    }
  }

  lemma StartNext(b: Burst, k: nat)
    requires b.width > 0
    ensures Start(b, k + 1) == if k == 0 then Start(b, 0) + (b.width - b.Offset()) else Start(b, k) + Step(b)
  {
  }

  /** Every beat but the first of an INCR burst is aligned to its width. */
  lemma BeatAligned(b: Burst, k: nat)
    requires b.width > 0
    ensures (b.addr + AddrPos(b, k)) % b.width == if b.fixed || k == 0 then b.Offset() else 0
  {
    if !b.fixed && k > 0 {
      var q := b.addr / b.width;
      assert b.addr == q * b.width + b.Offset();
      assert b.addr + Start(b, k) == (q + k) * b.width + 0;
      DivModUnique(b.addr + Start(b, k), b.width, q + k, 0);
    }
  }

  /** A beat's transfer is on the bus, and only the first may start inside it. */
  lemma BeatSlot(b: Burst, k: nat)
    requires b.Fits()
    ensures b.width > 0 && b.bus > 0
    ensures var a := b.addr + AddrPos(b, k);
      && a % b.bus + (b.width - a % b.width) <= b.bus
      && a % b.width == if b.fixed || k == 0 then b.Offset() else 0
  {
    WidthDivides(b.width, b.bus);
    SlotOnBus(b.addr + AddrPos(b, k), b.width, b.bus);
    BeatAligned(b, k);
  }

  /** The length of every beat, in both directions: up to where the next one
      starts, or the end of the payload. Writing a FIXED burst needs a streaming
      width that holds a whole beat. */
  lemma BeatLens(b: Burst, k: nat)
    requires b.Fits() && Start(b, k) < b.len
    ensures ReadLen(b, AddrPos(b, k), Start(b, k)) == Min(b.len, Start(b, k + 1)) - Start(b, k)
    ensures (b.fixed ==> Step(b) <= b.sw) ==>
              WriteLen(b, AddrPos(b, k), Start(b, k), k == 0) == Min(b.len, Start(b, k + 1)) - Start(b, k)
    ensures Lane(b, AddrPos(b, k)) == (b.addr + AddrPos(b, k)) % b.bus
    ensures Lane(b, AddrPos(b, k)) + (Start(b, k + 1) - Start(b, k)) <= b.bus
  {
    hide WriteLen, ReadLen;
    BeatSlot(b, k);
    Small(AddrPos(b, k), b.sw);
    StartNext(b, k);
    BeatLensAt(b, AddrPos(b, k), Start(b, k), k == 0);
  }

  lemma BeatLensAt(b: Burst, addrPos: nat, pos: nat, first: bool)
    requires b.Valid() && addrPos < b.sw && addrPos % b.sw == addrPos && pos < b.len
    requires var a := b.addr + addrPos; a % b.bus + (b.width - a % b.width) <= b.bus
    requires var g := b.width - (b.addr + addrPos) % b.width;
             (b.fixed || addrPos == pos) && (b.fixed || first || g == b.width)
    ensures var g := b.width - (b.addr + addrPos) % b.width;
            && ReadLen(b, addrPos, pos) == Min(b.len - pos, g)
            && ((b.fixed ==> g <= b.sw - addrPos) ==> WriteLen(b, addrPos, pos, first) == Min(b.len - pos, g))
  {
  }

  lemma Small(x: nat, m: nat)
    requires x < m
    ensures x % m == x
  {
  }

  lemma WriteLenOnBus(b: Burst, addrPos: nat, pos: nat, first: bool)
    requires b.Valid() && pos <= b.len
    ensures Lane(b, addrPos) + WriteLen(b, addrPos, pos, first) <= b.bus
    ensures pos + WriteLen(b, addrPos, pos, first) <= b.len
  {
  }

  /** The data loops go from beat to beat as announced. */
  predicate InBeats(b: Burst) {
    b.Fits() && (b.fixed ==> Step(b) <= b.sw)
  }

  // ---- the announced number of beats ----

  /** The beats the data loop of write_data_phase sends from a position on. */
  function Emitted(b: Burst, addrPos: nat, pos: nat, first: bool): (n: nat)
    requires b.Valid() && pos <= b.len
    ensures n == 0 <==> pos == b.len
    decreases b.len - pos
  {
    if pos == b.len then 0
    else
      var d := WriteLen(b, addrPos, pos, first);
      1 + Emitted(b, if b.fixed then addrPos else addrPos + d, pos + d, false)
  }

  /** pos after k beats. */
  function Sent(b: Burst, k: nat): (pos: nat)
    requires b.width > 0
    ensures pos <= b.len
  {
    Min(b.len, Start(b, k))
  }

  lemma SentLen(b: Burst, k: nat)
    requires b.Fits() && Start(b, k) < b.len
    ensures Sent(b, k) < b.len
    ensures var addrPos := if b.fixed then 0 else Sent(b, k);
            && ReadLen(b, addrPos, Sent(b, k)) == Sent(b, k + 1) - Sent(b, k)
            && ((b.fixed ==> Step(b) <= b.sw) ==>
                  WriteLen(b, addrPos, Sent(b, k), k == 0) == Sent(b, k + 1) - Sent(b, k))
  {
    BeatLens(b, k);
  }

  lemma EmittedUnfold(b: Burst, pos: nat, next: nat, first: bool)
    requires b.Valid() && pos < b.len && WriteLen(b, if b.fixed then 0 else pos, pos, first) == next - pos
    ensures next <= b.len
    ensures Emitted(b, if b.fixed then 0 else pos, pos, first)
            == 1 + Emitted(b, if b.fixed then 0 else next, next, false)
  {
    hide WriteLen;
    WriteLenOnBus(b, if b.fixed then 0 else pos, pos, first);
  }

  lemma {:induction false} EmittedFrom(b: Burst, k: nat)
    requires b.Fits() && k <= b.NumBeats()
    requires b.fixed ==> Step(b) <= b.sw
    ensures Emitted(b, if b.fixed then 0 else Sent(b, k), Sent(b, k), k == 0) == b.NumBeats() - k
    decreases b.NumBeats() - k
  {
    hide Emitted, WriteLen, ReadLen;
    BeatsCover(b, k);
    if k < b.NumBeats() {
      SentLen(b, k);
      EmittedUnfold(b, Sent(b, k), Sent(b, k + 1), k == 0);
      EmittedFrom(b, k + 1);
    }
  }

  predicate AsAnnounced(b: Burst)
    requires b.Valid()
  {
    Emitted(b, 0, 0, true) == b.NumBeats()
  }

  lemma FitsAsAnnounced(b: Burst)
    requires b.Fits() && (b.fixed ==> Step(b) <= b.sw)
    ensures AsAnnounced(b)
  {
    EmittedFrom(b, 0);
  }

  lemma WriteLenBounds(b: Burst, addrPos: nat, pos: nat, first: bool)
    requires b.Valid() && pos < b.len
    ensures WriteLen(b, addrPos, pos, first) <= b.bus
    ensures WriteLen(b, addrPos, pos, first) <= b.sw
    ensures pos < pos + WriteLen(b, addrPos, pos, first) <= b.len
  {
  }

  lemma SeveralBeats(b: Burst)
    requires b.Valid() && b.len > Min(b.bus, b.sw)
    ensures Emitted(b, 0, 0, true) > 1
  {
    WriteLenBounds(b, 0, 0, true);
    EmittedUnfold(b, 0, WriteLen(b, 0, 0, true), true);
  }

  /** A payload that one beat is announced for takes several when a beat cannot
      carry it. */
  lemma Overruns(b: Burst)
    requires b.Valid() && b.len > Min(b.bus, b.sw)
    requires !b.fixed && b.len + b.Offset() <= b.width
    ensures !AsAnnounced(b)
  {
    hide Emitted, IsWidth;
    SeveralBeats(b);
    CeilDiv(b.len + b.Offset(), b.width, 1);
  }

  // ---- INCR transfers wider than the bus ----

  function Ceil(n: nat, g: nat): nat
    requires g > 0
  {
    (n + g - 1) / g
  }

  /** Each round of the loop then goes to the end of the bus. */
  lemma {:induction false} EmittedWide(b: Burst, pos: nat, first: bool)
    requires b.Valid() && !b.fixed && b.width >= b.bus && b.width % b.bus == 0 && pos <= b.len
    requires first || pos == b.len || (b.addr + pos) % b.bus == 0
    ensures pos < b.len ==> Emitted(b, pos, pos, first) == Ceil(b.len - pos + (b.addr + pos) % b.bus, b.bus)
    decreases b.len - pos
  {
    hide Emitted, WriteLen, Ceil;
    if pos < b.len {
      var r := (b.addr + pos) % b.bus;
      var d := Min(b.len - pos, b.bus - r);
      WideLen(b, pos, first);
      EmittedUnfold(b, pos, pos + d, first);
      if d == b.bus - r {
        NextBus(b.addr + pos, d, b.bus);
        EmittedWide(b, pos + d, false);
        CeilZero(b.bus);
        CeilStep(b.len - pos - d, b.bus);
      } else {
        CeilOne(b.len - pos + r, b.bus);
      }
    }
  }

  lemma WideLen(b: Burst, pos: nat, first: bool)
    requires b.Valid() && !b.fixed && b.width >= b.bus && b.width % b.bus == 0 && pos < b.len
    ensures WriteLen(b, pos, pos, first) == Min(b.len - pos, b.bus - (b.addr + pos) % b.bus)
  {
    Small(pos, b.sw);
    SlotOnBus(b.addr + pos, b.bus, b.width);
    WideFit(b.addr + pos, b.bus, b.width);
  }

  /** A bus-wide slot lies inside the wider transfer that holds its address. */
  lemma WideFit(a: nat, bus: nat, w: nat)
    requires 0 < bus <= w && w % bus == 0
    ensures bus - a % bus <= w - a % w
  {
    SlotOnBus(a, bus, w);
  }

  lemma NextBus(a: nat, d: nat, bus: nat)
    requires bus > 0 && d == bus - a % bus
    ensures (a + d) % bus == 0
  {
    DivMod(a, bus);
    assert (a / bus + 1) * bus == a / bus * bus + bus;
    DivModUnique(a + d, bus, a / bus + 1, 0);
  }

  lemma CeilStep(n: nat, g: nat)
    requires g > 0
    ensures Ceil(n + g, g) == 1 + Ceil(n, g)
  {
    DivMod(n + g - 1, g);
    var q := (n + g - 1) / g;
    assert (q + 1) * g == q * g + g;
    DivModUnique(n + g + g - 1, g, q + 1, (n + g - 1) % g);
  }

  lemma CeilZero(g: nat)
    requires g > 0
    ensures Ceil(0, g) == 0
  {
    DivModUnique(g - 1, g, 0, g - 1);
  }

  lemma CeilOne(n: nat, g: nat)
    requires 0 < n <= g
    ensures Ceil(n, g) == 1
  {
    DivModUnique(n + g - 1, g, 1, n - 1);
  }

  lemma ScaledDown(y: nat, w: nat, bus: nat)
    requires y > 0 && w >= 2 * bus
    ensures y * w - w >= 2 * (y * bus) - 2 * bus
  {
    var d := w - 2 * bus;
    assert y * w == 2 * (y * bus) + y * d;
    GrowsWith(y, d);
  }

  /** t bytes from the start of a bus width, n - t bytes into a transfer of
      several bus widths: counted in bus widths and in transfers they take the same
      number of beats only if that is one or two. */
  lemma SameCountIsFew(t: nat, n: nat, bus: nat, w: nat)
    requires 0 < bus && 0 < t <= n && w >= 2 * bus && n - t + bus <= w
    ensures Ceil(t, bus) == Ceil(n, w) <==> t <= bus || (t <= 2 * bus && n > w)
  {
    CeilDiv(t, bus, 0);
    CeilDiv(n, w, 0);
    CeilDiv(t, bus, 1);
    CeilDiv(n, w, 1);
    if t <= 2 * bus {
      CeilDiv(t, bus, 2);
      CeilDiv(n, w, 2);
    } else {
      ManyBeatsDiffer(t, n, bus, w, Ceil(t, bus) - 1);
    }
  }

  lemma ManyBeatsDiffer(t: nat, n: nat, bus: nat, w: nat, y: int)
    requires 0 < bus && 2 * bus < t <= n && w >= 2 * bus && n - t + bus <= w && y == Ceil(t, bus) - 1
    ensures Ceil(n, w) <= y
  {
    CeilDiv(t, bus, 2);
    CeilDiv(t, bus, y + 1);
    CeilDiv(n, w, y);
    ScaledDown(y, w, bus);
    assert (y + 1) * bus == y * bus + bus;
    TwoTimes(y, bus);
  }

  lemma TwoTimes(y: nat, bus: nat)
    requires y >= 2
    ensures y * bus >= 2 * bus
  {
    assert (y - 2) * bus >= 0;
  }

  /** The last of the bus-wide parts of a transfer: the address is in it, or t
      bytes from there, up to two bus widths, stay inside the transfer. */
  lemma LastPart(off: nat, q: nat, m: nat, bus: nat, w: nat, t: nat)
    requires 0 < bus && w == m * bus && q * bus <= off < w && bus < t <= 2 * bus
    ensures t + q * bus > w <==> q + 1 == m
  {
    assert (q + 1) * bus == q * bus + bus;
    assert (q + 2) * bus == q * bus + 2 * bus;
    Multiples(m - q, bus);
    Multiples(m - q - 1, bus);
    Multiples(m - q - 2, bus);
    assert (m - q) * bus == w - q * bus;
    assert (m - q - 1) * bus == w - q * bus - bus;
    assert (m - q - 2) * bus == w - q * bus - 2 * bus;
  }

  lemma WideFacts(b: Burst)
    requires b.Valid() && !b.fixed && b.width > b.bus
    ensures b.len > 0 && b.bus > 0 && b.width % b.bus == 0 && b.width >= 2 * b.bus
    ensures b.Offset() == b.addr % b.width && b.NumBeats() == Ceil(b.len + b.Offset(), b.width)
    ensures AsAnnounced(b) <==> Emitted(b, 0, 0, true) == b.NumBeats()
  {
    hide Emitted;
    WidthDivides(b.bus, b.width);
  }

  /** INCR transfers wider than the bus: announced in transfers, sent in bus
      widths. */
  lemma WideAsAnnounced(b: Burst)
    requires b.Valid() && !b.fixed && b.width > b.bus
    ensures b.bus > 0
    ensures AsAnnounced(b) <==>
              || b.len + b.addr % b.bus <= b.bus
              || (b.Offset() / b.bus + 1 == b.width / b.bus && b.len + b.addr % b.bus <= 2 * b.bus)
  {
    hide *;
    WideFacts(b);
    EmittedWide(b, 0, true);
    FewBeats(b.len, b.addr, b.bus, b.width);
  }

  lemma FewBeats(len: nat, addr: nat, bus: nat, w: nat)
    requires len > 0 && bus > 0 && w % bus == 0 && w >= 2 * bus
    ensures Ceil(len + addr % bus, bus) == Ceil(len + addr % w, w) <==>
              || len + addr % bus <= bus
              || (addr % w / bus + 1 == w / bus && len + addr % bus <= 2 * bus)
  {
    hide Ceil;
    var off := addr % w;
    SlotOnBus(addr, bus, w);
    DivMod(w, bus);
    DivMod(off, bus);
    FewBeatsFrom(len, addr % bus, off, off / bus, w / bus, bus, w);
  }

  lemma FewBeatsFrom(len: nat, r: nat, off: nat, q: nat, m: nat, bus: nat, w: nat)
    requires len > 0 && r < bus && w == m * bus && w >= 2 * bus && off == q * bus + r && bus - r <= w - off
    ensures Ceil(len + r, bus) == Ceil(len + off, w) <==>
              len + r <= bus || (q + 1 == m && len + r <= 2 * bus)
  {
    hide Ceil;
    assert q * bus >= 0;
    SameCountIsFew(len + r, len + off, bus, w);
    if bus < len + r <= 2 * bus {
      LastPart(off, q, m, bus, w, len + r);
    }
  }

  /** Exactly which INCR bursts get the beats announced for them. Transfers wider
      than the bus, which ValidateBurstWidth lets through, do so only when one bus
      width holds the payload, or two do and the first ends the transfer. */
  lemma AsAnnouncedIff(b: Burst)
    requires b.Valid() && !b.fixed
    ensures AsAnnounced(b) <==>
              || b.width <= b.bus
              || b.len + b.addr % b.bus <= b.bus
              || (b.Offset() / b.bus + 1 == b.width / b.bus && b.len + b.addr % b.bus <= 2 * b.bus)
  {
    if b.width <= b.bus {
      FitsAsAnnounced(b);
    } else {
      WideAsAnnounced(b);
    }
  }

  lemma WideFails(w: nat, bus: nat)
    requires IsWidth(w) && IsWidth(bus) && w > bus
    ensures var b := Burst(false, 0, w, w, w, bus); b.Valid() && !AsAnnounced(b)
  {
    hide Emitted;
    Small(0, w);
    Overruns(Burst(false, 0, w, w, w, bus));
  }

  /** Bursts of every address and length get exactly the beats announced for them
      just when transfers are no wider than the bus. */
  lemma AnnouncedIffFits(w: nat, bus: nat)
    requires IsWidth(w) && IsWidth(bus)
    ensures (forall b: Burst :: !b.fixed && b.width == w && b.bus == bus && b.Valid() ==> AsAnnounced(b))
            <==> w <= bus
  {
    hide AsAnnounced;
    forall b: Burst | !b.fixed && b.Fits() ensures AsAnnounced(b) {
      AsAnnouncedIff(b);
    }
    if w > bus {
      WideFails(w, bus);
    }
  }

  // ---- FIXED bursts ----

  /** The bytes a round of the loop carries while enough are left. */
  function Round(b: Burst): (d: nat)
    requires b.Valid()
    ensures 0 < d <= b.width - b.Offset() && d <= b.sw && d <= b.bus - b.addr % b.bus
  {
    Min(Min(b.width - b.Offset(), b.sw), b.bus - b.addr % b.bus)
  }

  lemma FixedLen(b: Burst, pos: nat, first: bool)
    requires b.Valid() && b.fixed && pos < b.len
    ensures WriteLen(b, 0, pos, first) == Min(b.len - pos, Round(b))
  {
    Small(0, b.sw);
  }

  lemma {:induction false} EmittedFixed(b: Burst, pos: nat, first: bool)
    requires b.Valid() && b.fixed && pos <= b.len
    ensures Emitted(b, 0, pos, first) == Ceil(b.len - pos, Round(b))
    decreases b.len - pos
  {
    hide Emitted, WriteLen, Ceil, Round;
    var d := Round(b);
    if pos == b.len {
      CeilZero(d);
      assert Emitted(b, 0, pos, first) == 0;
    } else {
      FixedLen(b, pos, first);
      EmittedUnfold(b, pos, pos + Min(b.len - pos, d), first);
      EmittedFixed(b, pos + Min(b.len - pos, d), false);
      if b.len - pos > d {
        CeilStep(b.len - pos - d, d);
      } else {
        CeilZero(d);
        CeilOne(b.len - pos, d);
      }
    }
  }

  /** n bytes in rounds of d and of g bytes, d <= g: as many rounds just when that
      many of the smaller ones hold them. */
  lemma SameRounds(n: nat, d: nat, g: nat)
    requires n > 0 && 0 < d <= g
    ensures Ceil(n, d) == Ceil(n, g) <==> n <= Ceil(n, g) * d
  {
    var k := Ceil(n, g);
    CeilDiv(n, g, k);
    CeilDiv(n, g, 0);
    CeilDiv(n, g, k - 1);
    CeilDiv(n, d, k);
    CeilDiv(n, d, k - 1);
    assert (k - 1) * d <= (k - 1) * g;
  }

  /** Exactly which FIXED bursts get the beats announced for them: those that as
      many rounds hold, each cut to the transfer, the streaming width and the bus. */
  lemma FixedAsAnnouncedIff(b: Burst)
    requires b.Valid() && b.fixed
    ensures AsAnnounced(b) <==> Ceil(b.len, Round(b)) == b.NumBeats()
  {
    hide Emitted, Round;
    EmittedFixed(b, 0, true);
  }

  /** In other words, the announced beats hold the payload at a round each. */
  lemma FixedBeatsHold(b: Burst)
    requires b.Valid() && b.fixed
    ensures AsAnnounced(b) <==> b.len <= b.NumBeats() * Round(b)
  {
    hide AsAnnounced, Round;
    FixedAsAnnouncedIff(b);
    SameRounds(b.len, Round(b), b.width - b.Offset());
  }

  lemma WholeBeats(b: Burst)
    requires b.Valid() && b.fixed && Round(b) == b.width - b.Offset()
    ensures AsAnnounced(b)
  {
    FixedBeatsHold(b);
    CeilDiv(b.len, b.width - b.Offset(), b.NumBeats());
  }

  /** (sw + 1) whole beats of g bytes make a FIXED burst that d bytes a round do
      not carry as announced. */
  lemma CutBeatsFail(b: Burst)
    requires b.Valid() && b.fixed && Round(b) < b.width - b.Offset()
    requires b.len == (b.sw + 1) * (b.width - b.Offset())
    ensures !AsAnnounced(b)
  {
    hide AsAnnounced, Round, IsWidth;
    var g, n := b.width - b.Offset(), b.sw + 1;
    FixedBeatsHold(b);
    CeilDiv(b.len, g, n);
    CeilDiv(b.len, g, n - 1);
    assert n * g == (n - 1) * g + g;
    assert b.NumBeats() == n;
    Multiples(g - Round(b), n);
    assert n * (g - Round(b)) == n * g - n * Round(b);
  }

  /** FIXED bursts get the beats announced for them, whatever their length, just
      when the streaming width and the rest of the bus hold the bytes of a whole
      beat; transfers that fit on the bus need the streaming width alone. */
  lemma AnnouncedIffStreamHoldsBeat(addr: nat, sw: nat, w: nat, bus: nat)
    requires IsWidth(w) && IsWidth(bus) && 0 < sw <= bus
    ensures (forall b: Burst :: b == Burst(true, addr, b.len, sw, w, bus) && b.Valid() ==> AsAnnounced(b))
            <==> w - addr % w <= Min(sw, bus - addr % bus)
    ensures w <= bus ==> w - addr % w <= bus - addr % bus
  {
    hide AsAnnounced;
    if w <= bus {
      WidthDivides(w, bus);
      SlotOnBus(addr, w, bus);
    }
    if w - addr % w <= Min(sw, bus - addr % bus) {
      forall b: Burst | b == Burst(true, addr, b.len, sw, w, bus) && b.Valid() ensures AsAnnounced(b) {
        WholeBeats(b);
      }
    } else {
      CutFails(addr, sw, w, bus);
    }
  }

  lemma CutFails(addr: nat, sw: nat, w: nat, bus: nat)
    requires IsWidth(w) && IsWidth(bus) && 0 < sw <= bus && w - addr % w > Min(sw, bus - addr % bus)
    ensures exists b: Burst :: b == Burst(true, addr, b.len, sw, w, bus) && b.Valid() && !AsAnnounced(b)
  {
    hide AsAnnounced;
    var len := CutLen(sw, w - addr % w);
    var b := Burst(true, addr, len, sw, w, bus);
    assert b == Burst(true, addr, b.len, sw, w, bus);
    CutBeatsFail(b);
  }

  lemma CutLen(sw: nat, g: nat) returns (len: nat)
    requires g > 0
    ensures len == (sw + 1) * g && len > sw
  {
    len := (sw + 1) * g;
    GrowsWith(g, sw + 1);
    assert g * (sw + 1) == (sw + 1) * g;
  }
}
