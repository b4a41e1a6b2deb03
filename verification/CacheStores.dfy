/** What loads see, and what a store makes of the lines and the memory when nobody
    snoops; and exactly when that is the store the caller asked for. */
module CacheStores {
  import opened AceTypes
  import opened Common
  import opened CacheLines

  /** Byte enables repeat over the payload; none given means all enabled. */
  predicate Enabled(be: seq<bool>, i: nat) {
    |be| == 0 || be[i % |be|]
  }

  function Enables(be: seq<bool>, pos: nat, n: nat): (r: seq<bool>)
    ensures |r| == n
  {
    seq(n, k requires 0 <= k < n => Enabled(be, pos + k))
  }

  /** to_write: the bytes from `pos` on that fall into the first line. */
  function Chunk(addr: nat, pos: nat, len: nat): (n: nat)
    requires pos < len
    ensures 0 < n <= CACHELINE_SZ - (addr + pos) % CACHELINE_SZ && pos + n <= len
  {
    var room := CACHELINE_SZ - (addr + pos) % CACHELINE_SZ;
    if len - pos > room then room else len - pos
  }

  /** What a reader finds at a line: the cached copy, else memory. */
  function LineView(lines: seq<Line>, mem: seq<Data>, a: nat): Data
    requires |lines| > 0 && a < |mem|
  {
    if InCache(lines, a) then lines[Index(a, |lines|)].data else mem[a]
  }

  function ViewOf(lines: seq<Line>, mem: seq<Data>): (v: seq<Data>)
    requires |lines| > 0
    ensures |v| == |mem|
  {
    seq(|mem|, a requires 0 <= a < |mem| => LineView(lines, mem, a))
  }

  /** Clean lines repeat memory, and nothing is shared. */
  ghost predicate Owned(lines: seq<Line>, mem: seq<Data>)
    requires Placed(lines, |mem|)
  {
    forall i :: 0 <= i < |lines| && lines[i].valid ==>
      !lines[i].shared && (!lines[i].dirty ==> lines[i].data == mem[lines[i].tag])
  }

  ghost predicate Ready(lines: seq<Line>, mem: seq<Data>) {
    Placed(lines, |mem|) && Owned(lines, mem)
  }

  // ---- one chunk ----

  /** The line in whose place `a` goes, after a request for a. */
  function Slot(lines: seq<Line>, a: nat): Line
    requires |lines| > 0
  {
    lines[Index(a, |lines|)]
  }

  /** The memory after evict_line of what is in a's place. */
  function WrittenBack(lines: seq<Line>, mem: seq<Data>, a: nat): (m: seq<Data>)
    requires |lines| > 0
    ensures |m| == |mem|
  {
    var l := Slot(lines, a);
    if l.valid && l.dirty && l.tag < |mem| then mem[l.tag := l.data] else mem
  }

  /** The lines after a request for a: make_unique takes the line buffer as it is,
      the others fill it from memory. */
  function Filled(lines: seq<Line>, mem: seq<Data>, a: nat, whole: bool): (r: seq<Line>)
    requires |lines| > 0 && a < |mem|
    ensures |r| == |lines|
  {
    var l := if whole then Slot(lines, a).(valid := true, tag := a, shared := false, dirty := true)
             else Line(true, a, false, false, mem[a]);
    lines[Index(a, |lines|) := l]
  }

  /** write_line. */
  function Written(lines: seq<Line>, a: nat, off: nat, bytes: seq<byte>, en: seq<bool>): (r: seq<Line>)
    requires |lines| > 0 && off + |bytes| <= CACHELINE_SZ && |en| == |bytes|
    ensures |r| == |lines|
  {
    var l := Slot(lines, a);
    lines[Index(a, |lines|) := l.(dirty := true, data := Merge(l.data, off, bytes, en))]
  }

  /** The lines and the memory just before the write of a chunk. */
  function Fetched(lines: seq<Line>, mem: seq<Data>, a: nat, whole: bool): (r: (seq<Line>, seq<Data>))
    requires |lines| > 0 && a < |mem|
    ensures |r.0| == |lines| && |r.1| == |mem|
  {
    if InCache(lines, a) then (lines, mem)
    else
      var mem' := WrittenBack(lines, mem, a);
      (Filled(lines, mem', a, whole), mem')
  }

  lemma FilledView(lines: seq<Line>, mem: seq<Data>, a: nat, whole: bool)
    requires Ready(lines, mem) && a < |mem| && !InCache(lines, a)
    ensures var mem' := WrittenBack(lines, mem, a);
            var lines' := Filled(lines, mem', a, whole);
      && Ready(lines', mem') && InCache(lines', a)
      && ViewOf(lines', mem') == ViewOf(lines, mem)[a := if whole then Slot(lines, a).data else mem[a]]
  {
    var mem' := WrittenBack(lines, mem, a);
    var lines' := Filled(lines, mem', a, whole);
    var i := Index(a, |lines|);
    assert forall j :: 0 <= j < |lines| && j != i ==> lines'[j] == lines[j];
    assert lines[i].valid ==> lines[i].tag != a;
    forall x | 0 <= x < |mem| && x != a ensures LineView(lines', mem', x) == LineView(lines, mem, x) {
      if Index(x, |lines|) == i {
        assert !InCache(lines', x);
      }
    }
  }

  lemma FetchedView(lines: seq<Line>, mem: seq<Data>, a: nat, whole: bool)
    requires Ready(lines, mem) && a < |mem| && !InCache(lines, a)
    ensures var (lines', mem') := Fetched(lines, mem, a, whole);
      && Ready(lines', mem') && InCache(lines', a)
      && ViewOf(lines', mem') == if whole then ViewOf(lines, mem)[a := Slot(lines, a).data] else ViewOf(lines, mem)
  {
    FilledView(lines, mem, a, whole);
    assert ViewOf(lines, mem)[a] == mem[a];
  }

  lemma FetchedPlaced(lines: seq<Line>, mem: seq<Data>, a: nat, l: Line)
    requires Placed(lines, |mem|) && a < |mem| && (l.valid ==> l.tag == a)
    ensures Placed(lines[Index(a, |lines|) := l], |mem|)
  {
  }

  lemma WrittenView(lines: seq<Line>, mem: seq<Data>, a: nat, off: nat, bytes: seq<byte>, en: seq<bool>)
    requires Ready(lines, mem) && a < |mem| && InCache(lines, a)
    requires off + |bytes| <= CACHELINE_SZ && |en| == |bytes|
    ensures var lines' := Written(lines, a, off, bytes, en);
      && Ready(lines', mem)
      && ViewOf(lines', mem) == ViewOf(lines, mem)[a := Merge(ViewOf(lines, mem)[a], off, bytes, en)]
  {
    var lines' := Written(lines, a, off, bytes, en);
    forall x | 0 <= x < |mem| && x != a ensures LineView(lines', mem, x) == LineView(lines, mem, x) {
    }
  }

  // ---- a whole store ----

  /** ACECacheWriteBack::handle_store from `pos` on, undisturbed. */
  function StoreAll(lines: seq<Line>, mem: seq<Data>, addr: nat, data: seq<byte>, be: seq<bool>, pos: nat)
    : (r: (seq<Line>, seq<Data>))
    requires |lines| > 0 && pos <= |data| && addr + |data| <= |mem| * CACHELINE_SZ
    ensures |r.0| == |lines| && |r.1| == |mem|
    decreases |data| - pos
  {
    if pos == |data| then (lines, mem)
    else
      var (lines', mem', n) := StoreChunk(lines, mem, addr, data, be, pos);
      StoreAll(lines', mem', addr, data, be, pos + n)
  }

  function StoreChunk(lines: seq<Line>, mem: seq<Data>, addr: nat, data: seq<byte>, be: seq<bool>, pos: nat)
    : (r: (seq<Line>, seq<Data>, nat))
    requires |lines| > 0 && pos < |data| && addr + |data| <= |mem| * CACHELINE_SZ
    ensures |r.0| == |lines| && |r.1| == |mem| && r.2 == Chunk(addr, pos, |data|)
  {
    var a, n := (addr + pos) / CACHELINE_SZ, Chunk(addr, pos, |data|);
    var (lines', mem') := Fetched(lines, mem, a, n == CACHELINE_SZ);
    (Written(lines', a, (addr + pos) % CACHELINE_SZ, data[pos..pos + n], Enables(be, pos, n)), mem', n)
  }

  /** At line a, v is v0 with the enabled bytes from `pos` on stored. */
  ghost predicate LineStored(v: seq<Data>, v0: seq<Data>, a: nat, addr: nat, data: seq<byte>, be: seq<bool>, pos: nat)
    requires a < |v| && a < |v0|
  {
    forall o :: 0 <= o < CACHELINE_SZ ==>
      v[a][o] == var j := a * CACHELINE_SZ + o - addr;
                 if pos <= j < |data| && Enabled(be, j) then data[j] else v0[a][o]
  }

  ghost predicate Overwritten(v: seq<Data>, v0: seq<Data>, addr: nat, data: seq<byte>, be: seq<bool>, pos: nat) {
    |v| == |v0| && forall a :: 0 <= a < |v| ==> LineStored(v, v0, a, addr, data, be, pos)
  }

  /** Writing a chunk shows no byte of the line buffer that memory does not hold:
      the line is there, or make_unique is not used, or the stale bytes are all
      overwritten or happen to be right. */
  ghost predicate NoStaleByte(lines: seq<Line>, mem: seq<Data>, a: nat, n: nat, en: seq<bool>)
    requires |lines| > 0 && a < |mem| && |en| == n <= CACHELINE_SZ
  {
    InCache(lines, a) || n < CACHELINE_SZ
    || forall o :: 0 <= o < CACHELINE_SZ ==> en[o] || Slot(lines, a).data[o] == mem[a][o]
  }

  ghost predicate NoStaleBytes(lines: seq<Line>, mem: seq<Data>, addr: nat, data: seq<byte>, be: seq<bool>, pos: nat)
    requires |lines| > 0 && pos <= |data| && addr + |data| <= |mem| * CACHELINE_SZ
    decreases |data| - pos
  {
    pos < |data| ==>
      var n := Chunk(addr, pos, |data|);
      var (lines', mem', _) := StoreChunk(lines, mem, addr, data, be, pos);
      && NoStaleByte(lines, mem, (addr + pos) / CACHELINE_SZ, n, Enables(be, pos, n))
      && NoStaleBytes(lines', mem', addr, data, be, pos + n)
  }

  /** One chunk changes one line of the view: the base of the write is the old
      view, or the line buffer after make_unique. */
  lemma ChunkView(lines: seq<Line>, mem: seq<Data>, addr: nat, data: seq<byte>, be: seq<bool>, pos: nat)
    requires Ready(lines, mem) && pos < |data| && addr + |data| <= |mem| * CACHELINE_SZ
    ensures var a, n := (addr + pos) / CACHELINE_SZ, Chunk(addr, pos, |data|);
            var (lines', mem', _) := StoreChunk(lines, mem, addr, data, be, pos);
            var base := if InCache(lines, a) || n < CACHELINE_SZ then ViewOf(lines, mem)[a] else Slot(lines, a).data;
      && Ready(lines', mem')
      && ViewOf(lines', mem') == ViewOf(lines, mem)[a := Merge(base, (addr + pos) % CACHELINE_SZ,
                                                               data[pos..pos + n], Enables(be, pos, n))]
  {
    var a, n := (addr + pos) / CACHELINE_SZ, Chunk(addr, pos, |data|);
    if !InCache(lines, a) {
      FilledView(lines, mem, a, n == CACHELINE_SZ);
    }
    var (lines', mem') := Fetched(lines, mem, a, n == CACHELINE_SZ);
    WrittenView(lines', mem', a, (addr + pos) % CACHELINE_SZ, data[pos..pos + n], Enables(be, pos, n));
  }

  /** The line of the chunk is as stored just when no stale byte shows. */
  lemma ChunkLine(v: seq<Data>, v': seq<Data>, base: Data, addr: nat, data: seq<byte>, be: seq<bool>, pos: nat)
    requires pos < |data| && (addr + pos) / CACHELINE_SZ < |v| == |v'|
    requires var a, n := (addr + pos) / CACHELINE_SZ, Chunk(addr, pos, |data|);
             && v'[a] == Merge(base, (addr + pos) % CACHELINE_SZ, data[pos..pos + n], Enables(be, pos, n))
             && (base == v[a] || n == CACHELINE_SZ)
    ensures var a, n := (addr + pos) / CACHELINE_SZ, Chunk(addr, pos, |data|);
            LineStored(v', v, a, addr, data, be, pos) <==>
              base == v[a] || forall o :: 0 <= o < CACHELINE_SZ ==> Enables(be, pos, n)[o] || base[o] == v[a][o]
  {
    var a, n, off := (addr + pos) / CACHELINE_SZ, Chunk(addr, pos, |data|), (addr + pos) % CACHELINE_SZ;
    assert n == CACHELINE_SZ ==> off == 0;
  }

  /** Bytes before `pos` of other lines are judged alike from pos and from the next
      chunk on. */
  lemma OtherLine(v: seq<Data>, v0: seq<Data>, a: nat, addr: nat, data: seq<byte>, be: seq<bool>, pos: nat)
    requires pos < |data| && a < |v| && a < |v0| && a != (addr + pos) / CACHELINE_SZ
    ensures LineStored(v, v0, a, addr, data, be, pos) <==>
            LineStored(v, v0, a, addr, data, be, pos + Chunk(addr, pos, |data|))
  {
  }

  /** The effect of a store on the view: lines before it keep, and it is the store
      that was asked for just when no chunk shows a stale byte. */
  lemma {:induction false} StoreView(lines: seq<Line>, mem: seq<Data>, addr: nat, data: seq<byte>, be: seq<bool>,
                                     pos: nat)
    requires Ready(lines, mem) && pos <= |data| && addr + |data| <= |mem| * CACHELINE_SZ
    ensures var (lines', mem') := StoreAll(lines, mem, addr, data, be, pos);
      && Ready(lines', mem')
      && (forall a :: 0 <= a < |mem| && (pos == |data| || a < (addr + pos) / CACHELINE_SZ) ==>
            ViewOf(lines', mem')[a] == ViewOf(lines, mem)[a])
      && (Overwritten(ViewOf(lines', mem'), ViewOf(lines, mem), addr, data, be, pos)
          <==> NoStaleBytes(lines, mem, addr, data, be, pos))
    decreases |data| - pos
  {
    hide ViewOf, StoreChunk, Overwritten, Ready, NoStaleByte, Chunk, InCache, Slot, Enables;
    ReadyHasLines(lines, mem);
    if pos == |data| {
      NothingStored(ViewOf(lines, mem), addr, data, be);
    } else {
      var (lines1, mem1, n) := StoreChunk(lines, mem, addr, data, be, pos);
      var (lines', mem') := StoreAll(lines, mem, addr, data, be, pos);
      ChunkView(lines, mem, addr, data, be, pos);
      StoreView(lines1, mem1, addr, data, be, pos + n);
      NextChunk(addr, pos, |data|);
      StoreViewStep(lines, mem, ViewOf(lines1, mem1), ViewOf(lines', mem'), addr, data, be, pos);
    }
  }

  lemma ReadyHasLines(lines: seq<Line>, mem: seq<Data>)
    requires Ready(lines, mem)
    ensures |lines| > 0
  {
  }

  lemma NothingStored(v: seq<Data>, addr: nat, data: seq<byte>, be: seq<bool>)
    ensures Overwritten(v, v, addr, data, be, |data|)
  {
  }

  lemma NextChunk(addr: nat, pos: nat, len: nat)
    requires pos < len
    ensures pos + Chunk(addr, pos, len) == len
            || (addr + pos + Chunk(addr, pos, len)) / CACHELINE_SZ == (addr + pos) / CACHELINE_SZ + 1
  {
  }

  lemma StoreViewStep(lines: seq<Line>, mem: seq<Data>, v1: seq<Data>, v': seq<Data>,
                      addr: nat, data: seq<byte>, be: seq<bool>, pos: nat)
    requires Ready(lines, mem) && pos < |data| && addr + |data| <= |mem| * CACHELINE_SZ && |v1| == |v'| == |mem|
    requires var a, n := (addr + pos) / CACHELINE_SZ, Chunk(addr, pos, |data|);
             var base := if InCache(lines, a) || n < CACHELINE_SZ then ViewOf(lines, mem)[a] else Slot(lines, a).data;
             v1 == ViewOf(lines, mem)[a := Merge(base, (addr + pos) % CACHELINE_SZ,
                                                 data[pos..pos + n], Enables(be, pos, n))]
    requires v'[(addr + pos) / CACHELINE_SZ] == v1[(addr + pos) / CACHELINE_SZ]
    ensures Overwritten(v', ViewOf(lines, mem), addr, data, be, pos) <==>
              var n := Chunk(addr, pos, |data|);
              && NoStaleByte(lines, mem, (addr + pos) / CACHELINE_SZ, n, Enables(be, pos, n))
              && Overwritten(v', v1, addr, data, be, pos + n)
  {
    var v, a, n := ViewOf(lines, mem), (addr + pos) / CACHELINE_SZ, Chunk(addr, pos, |data|);
    var base := if InCache(lines, a) || n < CACHELINE_SZ then v[a] else Slot(lines, a).data;
    ChunkLine(v, v', base, addr, data, be, pos);
    DoneLine(v', v1, addr, data, be, pos);
    assert NoStaleByte(lines, mem, a, n, Enables(be, pos, n)) <==> LineStored(v', v, a, addr, data, be, pos);
    forall x | 0 <= x < |v| && x != a
      ensures LineStored(v', v, x, addr, data, be, pos) <==> LineStored(v', v1, x, addr, data, be, pos + n)
    {
      OtherLine(v', v, x, addr, data, be, pos);
      SameOld(v', v, v1, x, addr, data, be, pos + n);
    }
    LineByLine(v', v, v1, a, addr, data, be, pos, pos + n);
  }

  lemma SameOld(v: seq<Data>, v0: seq<Data>, v1: seq<Data>, a: nat, addr: nat, data: seq<byte>, be: seq<bool>, pos: nat)
    requires a < |v| && a < |v0| && a < |v1| && v0[a] == v1[a]
    ensures LineStored(v, v0, a, addr, data, be, pos) <==> LineStored(v, v1, a, addr, data, be, pos)
  {
  }

  lemma LineByLine(v: seq<Data>, v0: seq<Data>, v1: seq<Data>, a: nat, addr: nat, data: seq<byte>, be: seq<bool>,
                   pos: nat, next: nat)
    requires |v| == |v0| == |v1| && a < |v| && LineStored(v, v1, a, addr, data, be, next)
    requires forall x :: 0 <= x < |v| && x != a ==>
               (LineStored(v, v0, x, addr, data, be, pos) <==> LineStored(v, v1, x, addr, data, be, next))
    ensures Overwritten(v, v0, addr, data, be, pos) <==>
              LineStored(v, v0, a, addr, data, be, pos) && Overwritten(v, v1, addr, data, be, next)
  {
    hide LineStored;
  }

  /** Nothing more of the store concerns a line whose chunk is done. */
  lemma DoneLine(v': seq<Data>, v1: seq<Data>, addr: nat, data: seq<byte>, be: seq<bool>, pos: nat)
    requires pos < |data| && (addr + pos) / CACHELINE_SZ < |v'| == |v1|
    requires v'[(addr + pos) / CACHELINE_SZ] == v1[(addr + pos) / CACHELINE_SZ]
    ensures LineStored(v', v1, (addr + pos) / CACHELINE_SZ, addr, data, be, pos + Chunk(addr, pos, |data|))
  {
  }

  // ---- what a caller can check before ----

  /** Line a will be in the cache when a store from addr on gets there: it is now,
      and no line of the store before it goes in its place. */
  predicate StaysFor(lines: seq<Line>, addr: nat, a: nat)
    requires |lines| > 0
  {
    InCache(lines, a) && a < addr / CACHELINE_SZ + |lines|
  }

  /** The chunk at q is a whole line with disabled bytes, and will miss. */
  predicate MissesSparse(lines: seq<Line>, addr: nat, len: nat, be: seq<bool>, q: nat)
    requires |lines| > 0
  {
    && q < len && Chunk(addr, q, len) == CACHELINE_SZ
    && !StaysFor(lines, addr, (addr + q) / CACHELINE_SZ)
    && exists k :: 0 <= k < CACHELINE_SZ && !Enables(be, q, CACHELINE_SZ)[k]
  }

  /** Each chunk that is a whole line has all its bytes enabled, or hits. */
  ghost predicate NoSparseMiss(lines: seq<Line>, addr: nat, len: nat, be: seq<bool>, pos: nat)
    requires |lines| > 0
  {
    forall q: nat :: pos <= q ==> !MissesSparse(lines, addr, len, be, q)
  }

  /** Other lines of the store stay where they are, as long as the chunk's line goes
      in another place. */
  lemma ChunkKeepsHits(lines: seq<Line>, mem: seq<Data>, addr: nat, data: seq<byte>, be: seq<bool>, pos: nat, a: nat)
    requires |lines| > 0 && pos < |data| && addr + |data| <= |mem| * CACHELINE_SZ
    requires (addr + pos) / CACHELINE_SZ < a && StaysFor(lines, addr, a)
    ensures StaysFor(StoreChunk(lines, mem, addr, data, be, pos).0, addr, a)
  {
    DifferentPlaces((addr + pos) / CACHELINE_SZ, a, |lines|);
  }

  lemma DifferentPlaces(x: nat, y: nat, n: nat)
    requires 0 < n && x < y < x + n
    ensures Index(x, n) != Index(y, n)
  {
    var d := y / n - x / n;
    assert y - x == d * n + (y % n - x % n);
    NoMultipleBetween(d, n);
  }

  lemma NoMultipleBetween(d: int, n: nat)
    requires n > 0
    ensures d * n <= 0 || d * n >= n
  {
    if d > 0 {
      assert d * n == (d - 1) * n + n;
    } else {
      assert d * n <= 0;
    }
  }

  lemma {:induction false} NoSparseMissIsEnough(lines: seq<Line>, mem: seq<Data>, addr: nat, data: seq<byte>,
                                                be: seq<bool>, pos: nat)
    requires |lines| > 0 && pos <= |data| && addr + |data| <= |mem| * CACHELINE_SZ
    requires NoSparseMiss(lines, addr, |data|, be, pos)
    ensures NoStaleBytes(lines, mem, addr, data, be, pos)
    decreases |data| - pos
  {
    hide StoreChunk, MissesSparse, NoStaleByte, NoSparseMiss, Chunk;
    if pos < |data| {
      var (lines', mem', n) := StoreChunk(lines, mem, addr, data, be, pos);
      StillNoMiss(lines, mem, addr, data, be, pos);
      NoSparseMissIsEnough(lines', mem', addr, data, be, pos + n);
      NoStaleHere(lines, mem, addr, |data|, be, pos);
    }
  }

  lemma NoStaleHere(lines: seq<Line>, mem: seq<Data>, addr: nat, len: nat, be: seq<bool>, pos: nat)
    requires |lines| > 0 && pos < len && addr + len <= |mem| * CACHELINE_SZ
    requires NoSparseMiss(lines, addr, len, be, pos)
    ensures var n := Chunk(addr, pos, len); NoStaleByte(lines, mem, (addr + pos) / CACHELINE_SZ, n, Enables(be, pos, n))
  {
    assert !MissesSparse(lines, addr, len, be, pos);
  }

  lemma StillNoMiss(lines: seq<Line>, mem: seq<Data>, addr: nat, data: seq<byte>, be: seq<bool>, pos: nat)
    requires |lines| > 0 && pos < |data| && addr + |data| <= |mem| * CACHELINE_SZ
    requires NoSparseMiss(lines, addr, |data|, be, pos)
    ensures var (lines', _, n) := StoreChunk(lines, mem, addr, data, be, pos);
            NoSparseMiss(lines', addr, |data|, be, pos + n)
  {
    hide StoreChunk, StaysFor, Chunk;
    var n := Chunk(addr, pos, |data|);
    forall q: nat | pos + n <= q
      ensures !MissesSparse(StoreChunk(lines, mem, addr, data, be, pos).0, addr, |data|, be, q)
    {
      assert !MissesSparse(lines, addr, |data|, be, q);
      NextChunk(addr, pos, |data|);
      if q < |data| && StaysFor(lines, addr, (addr + q) / CACHELINE_SZ) {
        ChunkKeepsHits(lines, mem, addr, data, be, pos, (addr + q) / CACHELINE_SZ);
      }
    }
  }

  // ---- stores that are right for all contents ----

  /** The store leaves the view that it should. */
  ghost predicate RightStore(lines: seq<Line>, mem: seq<Data>, addr: nat, data: seq<byte>, be: seq<bool>)
    requires |lines| > 0 && addr + |data| <= |mem| * CACHELINE_SZ
  {
    var (lines', mem') := StoreAll(lines, mem, addr, data, be, 0);
    Overwritten(ViewOf(lines', mem'), ViewOf(lines, mem), addr, data, be, 0)
  }

  /** Caches that differ in the bytes of their line buffers alone. */
  ghost predicate SameTags(lines: seq<Line>, other: seq<Line>) {
    |lines| == |other| && forall i :: 0 <= i < |lines| ==> other[i] == lines[i].(data := other[i].data)
  }

  /** Two caches and memories that differ in line a alone, and there in byte o. */
  ghost predicate Twins(lines: seq<Line>, mem: seq<Data>, other: seq<Line>, otherMem: seq<Data>, a: nat, o: nat) {
    && Ready(lines, mem) && Ready(other, otherMem) && |mem| == |otherMem| && a < |mem| && o < CACHELINE_SZ
    && SameTags(lines, other)
    && (forall i :: 0 <= i < |lines| && !(lines[i].valid && lines[i].tag == a) ==> lines[i] == other[i])
    && (forall x :: 0 <= x < |mem| && x != a ==> mem[x] == otherMem[x])
    && LineView(lines, mem, a)[o] != LineView(other, otherMem, a)[o]
  }

  /** Another content of line a, wherever it is. */
  function Poked(lines: seq<Line>, mem: seq<Data>, a: nat, d: Data): (r: (seq<Line>, seq<Data>))
    requires |lines| > 0 && a < |mem|
    ensures |r.0| == |lines| && |r.1| == |mem|
  {
    var l := Slot(lines, a);
    if !InCache(lines, a) then (lines, mem[a := d])
    else (lines[Index(a, |lines|) := l.(data := d)], if l.dirty then mem else mem[a := d])
  }

  lemma PokedTwins(lines: seq<Line>, mem: seq<Data>, a: nat, d: Data, o: nat)
    requires Ready(lines, mem) && a < |mem| && o < CACHELINE_SZ && d[o] != LineView(lines, mem, a)[o]
    ensures var (other, otherMem) := Poked(lines, mem, a, d); Twins(lines, mem, other, otherMem, a, o)
  {
  }

  /** The line the chunk leaves behind in its place is the same in both. */
  lemma TwinChunk(lines: seq<Line>, mem: seq<Data>, other: seq<Line>, otherMem: seq<Data>, a: nat, o: nat,
                  addr: nat, data: seq<byte>, be: seq<bool>, pos: nat)
    requires Twins(lines, mem, other, otherMem, a, o)
    requires pos < |data| && addr + |data| <= |mem| * CACHELINE_SZ && (addr + pos) / CACHELINE_SZ != a
    requires var n := Chunk(addr, pos, |data|);
             && (n == CACHELINE_SZ && InCache(lines, a)
                 && Index((addr + pos) / CACHELINE_SZ, |lines|) == Index(a, |lines|) ==>
                   forall k :: 0 <= k < n ==> Enables(be, pos, n)[k])
    ensures var x := (addr + pos) / CACHELINE_SZ;
            Slot(StoreChunk(lines, mem, addr, data, be, pos).0, x)
            == Slot(StoreChunk(other, otherMem, addr, data, be, pos).0, x)
  {
    var x, n := (addr + pos) / CACHELINE_SZ, Chunk(addr, pos, |data|);
    var (l1, m1) := Fetched(lines, mem, x, n == CACHELINE_SZ);
    var (l2, m2) := Fetched(other, otherMem, x, n == CACHELINE_SZ);
    if !InCache(lines, x) && n == CACHELINE_SZ && InCache(lines, a) && Index(x, |lines|) == Index(a, |lines|) {
      assert (addr + pos) % CACHELINE_SZ == 0;
      assert Merge(Slot(l1, x).data, 0, data[pos..pos + n], Enables(be, pos, n))
             == Merge(Slot(l2, x).data, 0, data[pos..pos + n], Enables(be, pos, n));
    } else {
      assert Slot(l1, x) == Slot(l2, x);
    }
  }

  lemma TwinStep(lines: seq<Line>, mem: seq<Data>, other: seq<Line>, otherMem: seq<Data>, a: nat, o: nat,
                 addr: nat, data: seq<byte>, be: seq<bool>, pos: nat)
    requires Twins(lines, mem, other, otherMem, a, o)
    requires pos < |data| && addr + |data| <= |mem| * CACHELINE_SZ && (addr + pos) / CACHELINE_SZ != a
    requires var n := Chunk(addr, pos, |data|);
             && (n == CACHELINE_SZ && InCache(lines, a)
                 && Index((addr + pos) / CACHELINE_SZ, |lines|) == Index(a, |lines|) ==>
                   forall k :: 0 <= k < n ==> Enables(be, pos, n)[k])
    ensures var (l1, m1, _) := StoreChunk(lines, mem, addr, data, be, pos);
            var (l2, m2, _) := StoreChunk(other, otherMem, addr, data, be, pos);
            Twins(l1, m1, l2, m2, a, o)
  {
    var (l1, m1, n) := StoreChunk(lines, mem, addr, data, be, pos);
    var (l2, m2, _) := StoreChunk(other, otherMem, addr, data, be, pos);
    var i := Index((addr + pos) / CACHELINE_SZ, |lines|);
    ChunkView(lines, mem, addr, data, be, pos);
    ChunkView(other, otherMem, addr, data, be, pos);
    TwinChunk(lines, mem, other, otherMem, a, o, addr, data, be, pos);
    assert ViewOf(l1, m1)[a] == ViewOf(lines, mem)[a] && ViewOf(l2, m2)[a] == ViewOf(other, otherMem)[a];
    assert forall j :: 0 <= j < |lines| && j != i ==> l1[j] == lines[j] && l2[j] == other[j];
  }

  /** Line a will not be in the cache when the store gets there from pos on. */
  predicate WillMiss(lines: seq<Line>, addr: nat, pos: nat, a: nat)
    requires |lines| > 0
  {
    !InCache(lines, a) || (addr + pos) / CACHELINE_SZ + |lines| <= a
  }

  /** Whole lines that go in a's place before q are stored with all their bytes. */
  ghost predicate PlaceCovered(lines: seq<Line>, addr: nat, len: nat, be: seq<bool>, pos: nat, q: nat, a: nat)
    requires |lines| > 0
  {
    InCache(lines, a) ==>
      forall p {:trigger Enables(be, p, CACHELINE_SZ)} ::
        pos <= p < q < len && Chunk(addr, p, len) == CACHELINE_SZ
        && Index((addr + p) / CACHELINE_SZ, |lines|) == Index(a, |lines|) ==>
          forall k :: 0 <= k < CACHELINE_SZ ==> Enables(be, p, CACHELINE_SZ)[k]
  }

  lemma NotYetThere(addr: nat, pos: nat, q: nat, len: nat)
    requires pos < q < len && Chunk(addr, q, len) == CACHELINE_SZ
    ensures (addr + pos) / CACHELINE_SZ < (addr + q) / CACHELINE_SZ
    ensures pos + Chunk(addr, pos, len) <= q
  {
  }

  lemma WillMissStep(lines: seq<Line>, mem: seq<Data>, addr: nat, data: seq<byte>, be: seq<bool>, pos: nat, q: nat)
    requires |lines| > 0 && pos < q < |data| && addr + |data| <= |mem| * CACHELINE_SZ
    requires Chunk(addr, q, |data|) == CACHELINE_SZ && WillMiss(lines, addr, pos, (addr + q) / CACHELINE_SZ)
    requires PlaceCovered(lines, addr, |data|, be, pos, q, (addr + q) / CACHELINE_SZ)
    ensures var (lines', _, n) := StoreChunk(lines, mem, addr, data, be, pos);
            var a := (addr + q) / CACHELINE_SZ;
      && WillMiss(lines', addr, pos + n, a)
      && PlaceCovered(lines', addr, |data|, be, pos + n, q, a)
  {
    var (lines', _, n) := StoreChunk(lines, mem, addr, data, be, pos);
    var x, a := (addr + pos) / CACHELINE_SZ, (addr + q) / CACHELINE_SZ;
    NotYetThere(addr, pos, q, |data|);
    NextChunk(addr, pos, |data|);
    assert InCache(lines', x) && (InCache(lines', a) ==> InCache(lines, a));
    if x + |lines| == a {
      SamePlace(x, |lines|);
    }
  }

  lemma SamePlace(x: nat, n: nat)
    requires n > 0
    ensures Index(x + n, n) == Index(x, n)
  {
    assert x == x / n * n + x % n;
    NextTurn(x, n, x / n, x % n);
  }

  lemma NextTurn(x: nat, n: nat, q: nat, r: nat)
    requires n > 0 && x == q * n + r && r < n
    ensures (x + n) % n == r
  {
    var d := (x + n) / n - (q + 1);
    assert d * n == r - (x + n) % n;
    NoMultipleBetween(d, n);
    NoMultipleBetween(-d, n);
    assert (-d) * n == -(d * n);
  }

  /** Twins cannot both be stored right: line a is taken from the same line buffer
      in both, and one of the two had another byte there. */
  lemma {:induction false} MissShows(lines: seq<Line>, mem: seq<Data>, other: seq<Line>, otherMem: seq<Data>, o: nat,
                                     addr: nat, data: seq<byte>, be: seq<bool>, pos: nat, q: nat)
    requires pos <= q < |data| && addr + |data| <= |mem| * CACHELINE_SZ && Chunk(addr, q, |data|) == CACHELINE_SZ
    requires Twins(lines, mem, other, otherMem, (addr + q) / CACHELINE_SZ, o)
    requires WillMiss(lines, addr, pos, (addr + q) / CACHELINE_SZ) && !Enables(be, q, CACHELINE_SZ)[o]
    requires PlaceCovered(lines, addr, |data|, be, pos, q, (addr + q) / CACHELINE_SZ)
    ensures !NoStaleBytes(lines, mem, addr, data, be, pos) || !NoStaleBytes(other, otherMem, addr, data, be, pos)
    decreases q - pos
  {
    hide StoreChunk, Twins, WillMiss, PlaceCovered, NoStaleByte, Chunk;
    TwinsFit(lines, mem, other, otherMem, (addr + q) / CACHELINE_SZ, o);
    if pos == q {
      MissShowsHere(lines, mem, other, otherMem, o, addr, |data|, be, q);
    } else {
      var (l1, m1, n) := StoreChunk(lines, mem, addr, data, be, pos);
      var (l2, m2, _) := StoreChunk(other, otherMem, addr, data, be, pos);
      NotYetThere(addr, pos, q, |data|);
      CoveredHere(lines, addr, |data|, be, pos, q);
      TwinStep(lines, mem, other, otherMem, (addr + q) / CACHELINE_SZ, o, addr, data, be, pos);
      WillMissStep(lines, mem, addr, data, be, pos, q);
      MissShows(l1, m1, l2, m2, o, addr, data, be, pos + n, q);
    }
  }

  lemma TwinsFit(lines: seq<Line>, mem: seq<Data>, other: seq<Line>, otherMem: seq<Data>, a: nat, o: nat)
    requires Twins(lines, mem, other, otherMem, a, o)
    ensures |lines| == |other| > 0 && |mem| == |otherMem|
  {
  }

  lemma CoveredHere(lines: seq<Line>, addr: nat, len: nat, be: seq<bool>, pos: nat, q: nat)
    requires |lines| > 0 && pos < q < len && PlaceCovered(lines, addr, len, be, pos, q, (addr + q) / CACHELINE_SZ)
    ensures Chunk(addr, pos, len) == CACHELINE_SZ && InCache(lines, (addr + q) / CACHELINE_SZ)
            && Index((addr + pos) / CACHELINE_SZ, |lines|) == Index((addr + q) / CACHELINE_SZ, |lines|) ==>
              forall k :: 0 <= k < CACHELINE_SZ ==> Enables(be, pos, CACHELINE_SZ)[k]
  {
    assert |Enables(be, pos, CACHELINE_SZ)| == CACHELINE_SZ;
  }

  lemma MissShowsHere(lines: seq<Line>, mem: seq<Data>, other: seq<Line>, otherMem: seq<Data>, o: nat,
                      addr: nat, len: nat, be: seq<bool>, q: nat)
    requires q < len && addr + len <= |mem| * CACHELINE_SZ && Chunk(addr, q, len) == CACHELINE_SZ
    requires Twins(lines, mem, other, otherMem, (addr + q) / CACHELINE_SZ, o)
    requires WillMiss(lines, addr, q, (addr + q) / CACHELINE_SZ) && !Enables(be, q, CACHELINE_SZ)[o]
    ensures var a, en := (addr + q) / CACHELINE_SZ, Enables(be, q, CACHELINE_SZ);
      && |lines| > 0 && |other| > 0 && a < |otherMem|
      && (!NoStaleByte(lines, mem, a, CACHELINE_SZ, en) || !NoStaleByte(other, otherMem, a, CACHELINE_SZ, en))
  {
    var a := (addr + q) / CACHELINE_SZ;
    assert Slot(lines, a) == Slot(other, a);
  }

  lemma LeastSparse(lines: seq<Line>, addr: nat, len: nat, be: seq<bool>, q: nat) returns (r: nat)
    requires |lines| > 0 && MissesSparse(lines, addr, len, be, q)
    ensures MissesSparse(lines, addr, len, be, r)
    ensures forall p: nat :: p < r ==> !MissesSparse(lines, addr, len, be, p)
  {
    hide MissesSparse;
    r := q;
    while exists p: nat :: p < r && MissesSparse(lines, addr, len, be, p)
      invariant MissesSparse(lines, addr, len, be, r)
      decreases r
    {
      var p: nat :| p < r && MissesSparse(lines, addr, len, be, p);
      r := p;
    }
  }

  /** Which stores are right for every content of the lines and the memory: exactly
      those where each whole line with disabled bytes hits. */
  lemma NoSparseMissIff(lines: seq<Line>, mem: seq<Data>, addr: nat, data: seq<byte>, be: seq<bool>)
    requires Ready(lines, mem) && addr + |data| <= |mem| * CACHELINE_SZ
    ensures (forall l, m :: SameTags(lines, l) && |m| == |mem| && Ready(l, m) ==> RightStore(l, m, addr, data, be))
            <==> NoSparseMiss(lines, addr, |data|, be, 0)
  {
    hide RightStore, NoStaleBytes, MissesSparse, Ready, Poked;
    ReadyHasLines(lines, mem);
    if NoSparseMiss(lines, addr, |data|, be, 0) {
      forall l, m | SameTags(lines, l) && |m| == |mem| && Ready(l, m) ensures RightStore(l, m, addr, data, be) {
        NoSparseMissRight(lines, l, m, addr, data, be);
      }
    } else {
      var some: nat :| MissesSparse(lines, addr, |data|, be, some);
      var q := LeastSparse(lines, addr, |data|, be, some);
      SparseMissWrong(lines, mem, addr, data, be, q);
    }
  }

  lemma RightStoreIff(lines: seq<Line>, mem: seq<Data>, addr: nat, data: seq<byte>, be: seq<bool>)
    requires Ready(lines, mem) && addr + |data| <= |mem| * CACHELINE_SZ
    ensures RightStore(lines, mem, addr, data, be) <==> NoStaleBytes(lines, mem, addr, data, be, 0)
  {
    hide StoreAll, Overwritten, NoStaleBytes, ViewOf, Owned;
    StoreView(lines, mem, addr, data, be, 0);
  }

  lemma NoSparseMissRight(lines: seq<Line>, l: seq<Line>, m: seq<Data>, addr: nat, data: seq<byte>, be: seq<bool>)
    requires |lines| > 0 && SameTags(lines, l) && Ready(l, m) && addr + |data| <= |m| * CACHELINE_SZ
    requires NoSparseMiss(lines, addr, |data|, be, 0)
    ensures RightStore(l, m, addr, data, be)
  {
    hide RightStore, NoStaleBytes, Ready;
    forall q: nat ensures !MissesSparse(l, addr, |data|, be, q) {
      assert !MissesSparse(lines, addr, |data|, be, q);
    }
    NoSparseMissIsEnough(l, m, addr, data, be, 0);
    RightStoreIff(l, m, addr, data, be);
  }

  /** The first sparse miss goes wrong for one of two contents of its line. */
  lemma SparseMissWrong(lines: seq<Line>, mem: seq<Data>, addr: nat, data: seq<byte>, be: seq<bool>, q: nat)
    requires Ready(lines, mem) && addr + |data| <= |mem| * CACHELINE_SZ
    requires MissesSparse(lines, addr, |data|, be, q)
    requires forall p: nat :: p < q ==> !MissesSparse(lines, addr, |data|, be, p)
    ensures exists l, m :: SameTags(lines, l) && |m| == |mem| && Ready(l, m) && !RightStore(l, m, addr, data, be)
  {
    hide RightStore, NoStaleBytes, Owned, Poked;
    var a := (addr + q) / CACHELINE_SZ;
    var o :| 0 <= o < CACHELINE_SZ && !Enables(be, q, CACHELINE_SZ)[o];
    var d := LineView(lines, mem, a);
    d := d[o := if d[o] == 0 then 1 else 0];
    var (l, m) := Poked(lines, mem, a, d);
    PokedTwins(lines, mem, a, d, o);
    FirstCovered(lines, addr, |data|, be, q);
    MissShows(lines, mem, l, m, o, addr, data, be, 0, q);
    RightStoreIff(lines, mem, addr, data, be);
    RightStoreIff(l, m, addr, data, be);
    assert SameTags(lines, lines) && SameTags(lines, l);
  }

  lemma FirstCovered(lines: seq<Line>, addr: nat, len: nat, be: seq<bool>, q: nat)
    requires |lines| > 0 && MissesSparse(lines, addr, len, be, q)
    requires forall p: nat :: p < q ==> !MissesSparse(lines, addr, len, be, p)
    ensures var a := (addr + q) / CACHELINE_SZ;
            WillMiss(lines, addr, 0, a) && PlaceCovered(lines, addr, len, be, 0, q, a)
  {
    var a := (addr + q) / CACHELINE_SZ;
    forall p | 0 <= p < q && InCache(lines, a) && Chunk(addr, p, len) == CACHELINE_SZ
               && Index((addr + p) / CACHELINE_SZ, |lines|) == Index(a, |lines|)
      ensures forall k :: 0 <= k < CACHELINE_SZ ==> Enables(be, p, CACHELINE_SZ)[k]
    {
      assert !MissesSparse(lines, addr, len, be, p);
      NotYetThere(addr, p, q, len);
      assert !InCache(lines, (addr + p) / CACHELINE_SZ);
    }
  }

  // ---- one whole line ----

  /** The store of a whole line leaves the view that it should. */
  ghost predicate WholeLineStored(lines: seq<Line>, mem: seq<Data>, a: nat, data: seq<byte>, be: seq<bool>)
    requires |lines| > 0 && a < |mem| && |data| == CACHELINE_SZ
  {
    RightStore(lines, mem, a * CACHELINE_SZ, data, be)
  }

  /** A cache that differs in the line buffer of a's place alone. */
  function WithBuffer(lines: seq<Line>, a: nat, buffer: Data): (r: seq<Line>)
    requires |lines| > 0
    ensures |r| == |lines|
  {
    lines[Index(a, |lines|) := Slot(lines, a).(data := buffer)]
  }

  /** The memory that goes with it: what a clean line of that place repeats. */
  function BehindBuffer(lines: seq<Line>, mem: seq<Data>, a: nat, buffer: Data): (m: seq<Data>)
    requires |lines| > 0
    ensures |m| == |mem|
  {
    var l := Slot(lines, a);
    if l.valid && !l.dirty && l.tag < |mem| then mem[l.tag := buffer] else mem
  }

  /** The bytes that the store disables are the same in both. */
  ghost predicate SameWhereDisabled(buffer: Data, d: Data, be: seq<bool>) {
    forall o :: 0 <= o < CACHELINE_SZ ==> Enabled(be, o) || buffer[o] == d[o]
  }

  lemma WholeLineCase(lines: seq<Line>, mem: seq<Data>, a: nat, data: seq<byte>, be: seq<bool>)
    requires Ready(lines, mem) && a < |mem| && |data| == CACHELINE_SZ
    ensures WholeLineStored(lines, mem, a, data, be) <==>
              InCache(lines, a) || SameWhereDisabled(Slot(lines, a).data, mem[a], be)
  {
    hide RightStore, NoStaleBytes, NoStaleByte, Owned;
    RightStoreIff(lines, mem, a * CACHELINE_SZ, data, be);
    OneChunk(lines, mem, a, data, be);
    StaleInLine(lines, mem, a, be);
  }

  lemma OneChunk(lines: seq<Line>, mem: seq<Data>, a: nat, data: seq<byte>, be: seq<bool>)
    requires |lines| > 0 && a < |mem| && |data| == CACHELINE_SZ
    ensures NoStaleBytes(lines, mem, a * CACHELINE_SZ, data, be, 0)
            <==> NoStaleByte(lines, mem, a, CACHELINE_SZ, Enables(be, 0, CACHELINE_SZ))
  {
    hide NoStaleByte, StoreChunk, Fetched, Written;
    assert Chunk(a * CACHELINE_SZ, 0, CACHELINE_SZ) == CACHELINE_SZ && (a * CACHELINE_SZ + 0) / CACHELINE_SZ == a;
  }

  lemma StaleInLine(lines: seq<Line>, mem: seq<Data>, a: nat, be: seq<bool>)
    requires |lines| > 0 && a < |mem|
    ensures NoStaleByte(lines, mem, a, CACHELINE_SZ, Enables(be, 0, CACHELINE_SZ))
            <==> InCache(lines, a) || SameWhereDisabled(Slot(lines, a).data, mem[a], be)
  {
    assert forall o :: 0 <= o < CACHELINE_SZ ==> Enables(be, 0, CACHELINE_SZ)[o] == Enabled(be, o);
  }

  /** The store of a whole line: a hit stores the enabled bytes, whichever they are;
      a miss uses make_unique, which fetches nothing, and is right for every content
      of the line buffer just when all bytes are enabled. */
  lemma WholeLineStoreIff(lines: seq<Line>, mem: seq<Data>, a: nat, data: seq<byte>, be: seq<bool>)
    requires Ready(lines, mem) && a < |mem| && |data| == CACHELINE_SZ
    ensures InCache(lines, a) ==> WholeLineStored(lines, mem, a, data, be)
    ensures !InCache(lines, a) ==>
              ((forall buffer: Data ::
                  WholeLineStored(WithBuffer(lines, a, buffer), BehindBuffer(lines, mem, a, buffer), a, data, be))
               <==> forall o :: 0 <= o < CACHELINE_SZ ==> Enabled(be, o))
  {
    hide WholeLineStored, SameWhereDisabled, WithBuffer, BehindBuffer, Ready, Enabled;
    WholeLineCase(lines, mem, a, data, be);
    if !InCache(lines, a) {
      forall buffer: Data
        ensures WholeLineStored(WithBuffer(lines, a, buffer), BehindBuffer(lines, mem, a, buffer), a, data, be)
                <==> SameWhereDisabled(buffer, mem[a], be)
      {
        BufferReady(lines, mem, a, buffer);
        WholeLineCase(WithBuffer(lines, a, buffer), BehindBuffer(lines, mem, a, buffer), a, data, be);
      }
      Differing(mem[a], be);
    }
  }

  lemma BufferReady(lines: seq<Line>, mem: seq<Data>, a: nat, buffer: Data)
    requires Ready(lines, mem) && a < |mem| && !InCache(lines, a)
    ensures var (l, m) := (WithBuffer(lines, a, buffer), BehindBuffer(lines, mem, a, buffer));
            Ready(l, m) && !InCache(l, a) && Slot(l, a).data == buffer && m[a] == mem[a]
  {
  }

  lemma Differing(d: Data, be: seq<bool>)
    ensures (forall buffer: Data :: SameWhereDisabled(buffer, d, be))
            <==> forall o :: 0 <= o < CACHELINE_SZ ==> Enabled(be, o)
  {
    if o :| 0 <= o < CACHELINE_SZ && !Enabled(be, o) {
      var buffer: Data := d[o := if d[o] == 0 then 1 else 0];
      assert buffer[o] != d[o];
      assert !SameWhereDisabled(buffer, d, be);
    }
  }
}
