/** cache_ace with the write-back policy, updating its lines in place. The cache
    is the only master of a memory, except that while it waits for a request an
    environment may snoop any lines it likes (`script`). Whatever the script,
    loads and stores terminate and every line stays in its place; when nobody
    snoops, the cache is invisible: loads and stores act on memory directly. */
module AceCache {
  import opened AceTypes
  import opened Common
  import opened CacheLines
  import opened CacheStores

  /** What happens during one wait: snoops that arrive, and the IsShared and
      PassDirty results of the request with the line that a snooped cache has
      sent; None stands for the line from memory. */
  datatype Outcome = Outcome(snoops: seq<(Snoop, nat)>, shared: bool, dirty: bool, data: Option<Data>) {
    function DataOf(mem: Data): Data {
      if data.Some? then data.value else mem
    }
  }

  const QUIET := Outcome([], false, false, None)

  const EMPTY_LINE := Line(false, 0, false, false, seq(CACHELINE_SZ, j => 0))

  /** No response to a request that invalidates all copies says IsShared; the
      interconnect's responses are so, see ResultInv in LineProtocol.dfy. */
  ghost predicate Conforming(script: (nat, Request) -> Outcome) {
    forall k: nat, kind: Request :: kind.Invalidates() ==> !script(k, kind).shared
  }

  class Cache {
    const lines: array<Line>
    var toggle: bool
    var mem: seq<Data>
    var calls: nat
    const script: (nat, Request) -> Outcome

    /** The line each write_line found before it wrote. */
    ghost var found: seq<Line>

    /** The requests that have gone out, with their lines. */
    ghost var asked: seq<(Request, nat)>

    constructor (numLines: nat, mem: seq<Data>, script: (nat, Request) -> Outcome)
      requires numLines > 0 && Conforming(script)
      ensures Valid() && fresh(lines) && this.mem == mem && this.script == script
      ensures Undisturbed() ==> Transparent()
      ensures lines.Length == numLines && forall i :: 0 <= i < numLines ==> lines[i] == EMPTY_LINE
      ensures forall a :: 0 <= a < |mem| ==> LineView(lines[..], mem, a) == mem[a]
    {
      this.lines := new Line[numLines](i => EMPTY_LINE);
      this.mem := mem;
      this.script := script;
      toggle := false;
      calls := 0;
      found, asked := [], [];
    }

    /** Every valid line sits at the index of its tag. */
    ghost predicate Valid()
      reads this, lines
    {
      Placed(lines[..], |mem|) && Conforming(script)
    }

    ghost predicate Undisturbed() {
      forall k: nat, kind: Request :: script(k, kind) == QUIET
    }

    ghost predicate Transparent()
      reads this, lines
    {
      Valid() && Undisturbed() && Owned(lines[..], mem)
    }

    ghost function View(): (v: seq<Data>)
      reads this, lines
      requires Valid()
      ensures |v| == |mem|
    {
      ViewOf(lines[..], mem)
    }

    // ---- snoops ----

    /** b_transport_snoop: dispatch to the handler of the snoop. */
    method Answer(snoop: Snoop, line: nat) returns (resp: Response)
      requires Valid()
      modifies lines
      ensures Valid()
      ensures (lines[..], resp) == SnoopLines(snoop, old(lines[..]), line)
      ensures var i := Index(line, lines.Length);
        && (forall j :: 0 <= j < lines.Length && j != i ==> lines[j] == old(lines[j]))
        && (if old(InCache(lines[..], line)) then RightAnswer(snoop, old(lines[i]), lines[i], resp)
            else resp == MISS && lines[i] == old(lines[i]))
    {
      resp := MISS;
      var i := Index(line, lines.Length);
      if lines[i].valid && lines[i].tag == line {
        var l := lines[i];
        match snoop {
          case SnoopReadOnce =>
            lines[i] := l.(shared := true);
            resp := resp.(shared := true, data := Some(l.data));
          case SnoopReadShared =>
            resp := resp.(wasUnique := !l.shared, shared := true, dirty := l.dirty, data := Some(l.data));
            lines[i] := l.(shared := true, dirty := false);
          case SnoopReadClean =>
            resp := resp.(wasUnique := !l.shared, shared := true, data := Some(l.data));
            lines[i] := l.(shared := true);
          case SnoopReadNotSharedDirty =>
            resp := resp.(wasUnique := !l.shared, shared := true, data := Some(l.data));
            lines[i] := l.(shared := true);
          case SnoopReadUnique =>
            resp := resp.(wasUnique := !l.shared, dirty := l.dirty, data := Some(l.data));
            lines[i] := l.(valid := false);
          case SnoopCleanInvalid =>
            resp := resp.(wasUnique := !l.shared);
            if l.dirty { resp := resp.(dirty := true, data := Some(l.data)); }
            lines[i] := l.(valid := false);
          case SnoopCleanShared =>
            resp := resp.(wasUnique := !l.shared, shared := true);
            if l.dirty { resp := resp.(dirty := true, data := Some(l.data)); }
            lines[i] := l.(shared := true, dirty := false);
          case SnoopMakeInvalid =>
            lines[i] := l.(valid := false);
        }
      }
    }

    /** A wait in do_tlm: the script's snoops arrive. They never bring a line in
        or move one. */
    method Wait(kind: Request, line: nat) returns (o: Outcome)
      requires Valid()
      modifies this`calls, this`asked, lines
      ensures Valid() && o == script(old(calls), kind) && calls == old(calls) + 1
      ensures asked == old(asked) + [(kind, line)]
      ensures forall i :: 0 <= i < lines.Length ==> lines[i] == SnoopedLine(old(lines[i]), o.snoops)
      ensures forall i :: 0 <= i < lines.Length && lines[i].valid ==>
                old(lines[i].valid) && lines[i].tag == old(lines[i].tag)
      ensures Undisturbed() ==> o == QUIET && lines[..] == old(lines[..])
    {
      hide SnoopHit;
      o := script(calls, kind);
      calls := calls + 1;
      asked := asked + [(kind, line)];
      var k := 0;
      while k < |o.snoops|
        invariant Valid() && k <= |o.snoops| && calls == old(calls) + 1 && asked == old(asked) + [(kind, line)]
        invariant forall i :: 0 <= i < lines.Length ==> lines[i] == SnoopedLine(old(lines[i]), o.snoops[..k])
        invariant k == 0 ==> lines[..] == old(lines[..])
      {
        ghost var before := lines[..];
        var resp := Answer(o.snoops[k].0, o.snoops[k].1);
        assert o.snoops[..k + 1][..k] == o.snoops[..k];
        AnswerByLine(before, |mem|, o.snoops[k].0, o.snoops[k].1);
        k := k + 1;
      }
      assert o.snoops[..k] == o.snoops;
      forall i | 0 <= i < lines.Length
        ensures lines[i].valid ==> old(lines[i].valid) && lines[i].tag == old(lines[i].tag)
      {
        SnoopedKeepsTag(old(lines[i]), o.snoops);
      }
    }

    // ---- transactions ----

    /** evict_line: a dirty line goes to memory, by WriteClean and then Evict or
        by WriteBack in turn; a clean one is evicted. Snoops are held back while
        a write is in flight. */
    method EvictLine(i: nat)
      requires Valid() && i < lines.Length && lines[i].valid
      modifies this`toggle, this`mem, lines
      ensures Valid() && |mem| == |old(mem)|
      ensures !lines[i].valid && lines[i].data == old(lines[i].data)
      ensures forall j :: 0 <= j < lines.Length && j != i ==> lines[j] == old(lines[j])
      ensures mem == if old(lines[i].dirty) then old(mem)[old(lines[i].tag) := old(lines[i].data)] else old(mem)
      ensures toggle == (if old(lines[i].dirty) then !old(toggle) else old(toggle))
      ensures old(Transparent()) ==> Transparent() && View() == old(View())
    {
      if lines[i].dirty {
        toggle := !toggle;
        if toggle {
          mem := mem[lines[i].tag := lines[i].data];
          lines[i] := lines[i].(dirty := false);
        }
      }
      if lines[i].dirty {
        mem := mem[lines[i].tag := lines[i].data];
        lines[i] := lines[i].(valid := false);
      } else {
        lines[i] := lines[i].(valid := false);
      }
      assert forall j :: 0 <= j < lines.Length && j != i ==> lines[..][j] == old(lines[..])[j];
    }

    /** The place of a line that is to come in is evicted, if it is taken. */
    method MakeRoom(line: nat)
      requires Valid() && line < |mem| && !InCache(lines[..], line)
      modifies this`toggle, this`mem, lines
      ensures Valid() && mem == WrittenBack(old(lines[..]), old(mem), line)
      ensures var i := Index(line, lines.Length);
        && !lines[i].valid && lines[i].data == old(lines[i].data)
        && lines[..] == old(lines[..])[i := lines[i]]
    {
      var i := Index(line, lines.Length);
      if lines[i].valid { EvictLine(i); }
      assert lines[..] == old(lines[..])[i := lines[i]];
    }

    /** read_shared, read_not_shared_dirty and read_unique. */
    method Fetch(kind: Request, line: nat)
      requires Valid() && line < |mem| && kind.IsRead() && !InCache(lines[..], line)
      modifies this`toggle, this`mem, this`calls, this`asked, lines
      ensures Valid() && |mem| == |old(mem)|
      ensures InCache(lines[..], line)
      ensures asked == old(asked) + [(kind, line)]
      ensures kind == ReadUnique ==> !lines[Index(line, lines.Length)].shared
      ensures mem == WrittenBack(old(lines[..]), old(mem), line)
      ensures var o := script(old(calls), kind);
        && lines[Index(line, lines.Length)] == Line(true, line, o.shared, o.dirty, o.DataOf(mem[line]))
        && OthersSnooped(old(lines[..]), lines[..], Index(line, lines.Length), o.snoops)
      ensures Undisturbed() ==> (lines[..], mem) == Fetched(old(lines[..]), old(mem), line, false)
      ensures old(Transparent()) ==> Transparent() && View() == old(View())
    {
      hide WrittenBack, ViewOf, Owned;
      ghost var was, memWas := lines[..], mem;
      MakeRoom(line);
      var i := Index(line, lines.Length);
      ghost var room := lines[..];
      var o := Wait(kind, line);
      var l := Line(true, line, o.shared, o.dirty, o.DataOf(mem[line]));
      FetchedPlaced(lines[..], mem, line, l);
      ghost var waited := lines[..];
      lines[i] := l;
      assert lines[..] == waited[i := lines[i]];
      assert waited == room ==> lines[..] == was[i := lines[i]];
      if old(Transparent()) { FetchedView(was, memWas, line, false); }
    }

    /** clean_unique of a line found shared. The snoops of a competing request
        may have taken the line away meanwhile; then it is evicted. */
    method CleanUnique(line: nat)
      requires Valid() && InCache(lines[..], line)
      modifies this`calls, this`asked, lines
      ensures Valid()
      ensures asked == old(asked) + [(Request.CleanUnique, line)]
      ensures InCache(lines[..], line) ==> !lines[Index(line, lines.Length)].shared
      ensures !InCache(lines[..], line) ==> !lines[Index(line, lines.Length)].valid
      ensures var i, snoops := Index(line, lines.Length), script(old(calls), Request.CleanUnique).snoops;
              var l := SnoopedLine(old(lines[i]), snoops);
        && lines[i] == (if l.valid then l.(shared := false) else l)
        && OthersSnooped(old(lines[..]), lines[..], i, snoops)
      ensures old(Transparent()) ==> Transparent() && View() == old(View())
    {
      var i := Index(line, lines.Length);
      var o := Wait(Request.CleanUnique, line);
      if lines[i].valid {
        lines[i] := lines[i].(shared := false);
      } else {
        lines[i] := lines[i].(valid := true);
        lines[i] := lines[i].(valid := false);
      }
    }

    /** make_unique: the line buffer is not filled. */
    method MakeUnique(line: nat)
      requires Valid() && line < |mem| && !InCache(lines[..], line)
      modifies this`toggle, this`mem, this`calls, this`asked, lines
      ensures Valid() && |mem| == |old(mem)|
      ensures asked == old(asked) + [(Request.MakeUnique, line)]
      ensures InCache(lines[..], line) && !lines[Index(line, lines.Length)].shared
      ensures mem == WrittenBack(old(lines[..]), old(mem), line)
      ensures var i := Index(line, lines.Length);
        && lines[i] == Line(true, line, false, true, old(lines[i].data))
        && OthersSnooped(old(lines[..]), lines[..], i, script(old(calls), Request.MakeUnique).snoops)
      ensures Undisturbed() ==> (lines[..], mem) == Fetched(old(lines[..]), old(mem), line, true)
      ensures old(Transparent()) ==>
                && Transparent()
                && View() == old(View())[line := old(lines[..])[Index(line, lines.Length)].data]
    {
      hide WrittenBack, ViewOf, Owned;
      ghost var was, memWas := lines[..], mem;
      MakeRoom(line);
      var i := Index(line, lines.Length);
      ghost var room := lines[..];
      var o := Wait(Request.MakeUnique, line);
      ghost var waited := lines[..];
      SnoopedKeepsTag(room[i], o.snoops);
      FetchedPlaced(waited, mem, line, lines[i].(valid := true, tag := line, shared := false, dirty := true));
      lines[i] := lines[i].(valid := true, tag := line, shared := false, dirty := true);
      assert lines[..] == waited[i := lines[i]];
      assert waited == room ==> lines[..] == was[i := lines[i]];
      if old(Transparent()) { FetchedView(was, memWas, line, true); }
    }

    /** A line taken in with PassDirty is this cache's to write: once it is evicted,
        memory has the bytes that came with it. */
    method TakeAndEvict(kind: Request, line: nat)
      requires Valid() && line < |mem| && kind.IsRead() && !InCache(lines[..], line)
      modifies this`toggle, this`mem, this`calls, this`asked, lines
      ensures Valid() && |mem| == |old(mem)| && !InCache(lines[..], line)
      ensures var o, before := script(old(calls), kind), WrittenBack(old(lines[..]), old(mem), line);
              mem == if o.dirty then before[line := o.DataOf(before[line])] else before
    {
      hide WrittenBack;
      Fetch(kind, line);
      EvictLine(Index(line, lines.Length));
    }

    // ---- byte accesses ----

    /** read_line: copies the enabled bytes of one chunk to the payload. */
    method ReadLine(addr: nat, data: array<byte>, be: seq<bool>, pos: nat) returns (n: nat)
      requires Valid() && pos < data.Length && InCache(lines[..], (addr + pos) / CACHELINE_SZ)
      modifies data
      ensures n == Chunk(addr, pos, data.Length)
      ensures forall j :: 0 <= j < data.Length ==>
                data[j] == if pos <= j < pos + n && Enabled(be, j)
                           then lines[Index((addr + pos) / CACHELINE_SZ, lines.Length)].data[(addr + j) % CACHELINE_SZ]
                           else old(data[j])
    {
      var l := lines[Index((addr + pos) / CACHELINE_SZ, lines.Length)];
      var off := (addr + pos) % CACHELINE_SZ;
      n := Chunk(addr, pos, data.Length);
      var i := 0;
      while i < n
        invariant i <= n
        invariant forall j :: 0 <= j < data.Length ==>
                    data[j] == if pos <= j < pos + i && Enabled(be, j) then l.data[(addr + j) % CACHELINE_SZ]
                               else old(data[j])
      {
        SameLine(addr, pos, pos + i);
        if Enabled(be, pos + i) {
          data[pos + i] := l.data[off + i];
        }
        i := i + 1;
      }
    }

    /** The loop of write_line. */
    method OverwriteBytes(i: nat, off: nat, data: seq<byte>, be: seq<bool>, pos: nat, n: nat)
      requires i < lines.Length && pos + n <= |data| && off + n <= CACHELINE_SZ
      modifies lines
      ensures lines[..] == old(lines[..])[i := old(lines[i]).(data := Merge(old(lines[i]).data, off, data[pos..pos + n],
                                                                            Enables(be, pos, n)))]
    {
      var k := 0;
      while k < n
        invariant k <= n
        invariant lines[..] == old(lines[..])[i := old(lines[i]).(data := lines[i].data)]
        invariant forall j :: 0 <= j < CACHELINE_SZ ==>
                    lines[i].data[j] == if off <= j < off + k && Enabled(be, pos + (j - off))
                                        then data[pos + (j - off)] else old(lines[i]).data[j]
      {
        if Enabled(be, pos + k) {
          lines[i] := lines[i].(data := lines[i].data[off + k := data[pos + k]]);
        }
        k := k + 1;
      }
      assert lines[i].data == Merge(old(lines[i]).data, off, data[pos..pos + n], Enables(be, pos, n));
    }

    /** write_line: overwrites the enabled bytes of one chunk and marks it dirty. */
    method WriteLine(addr: nat, data: seq<byte>, be: seq<bool>, pos: nat) returns (n: nat)
      requires Valid() && pos < |data| && InCache(lines[..], (addr + pos) / CACHELINE_SZ)
      modifies this`found, lines
      ensures Valid()
      ensures n == Chunk(addr, pos, |data|)
      ensures lines[..] == Written(old(lines[..]), (addr + pos) / CACHELINE_SZ, (addr + pos) % CACHELINE_SZ,
                                   data[pos..pos + n], Enables(be, pos, n))
      ensures found == old(found) + [Slot(old(lines[..]), (addr + pos) / CACHELINE_SZ)]
    {
      hide Merge, Enables;
      var i := Index((addr + pos) / CACHELINE_SZ, lines.Length);
      found := found + [lines[i]];
      n := Chunk(addr, pos, |data|);
      OverwriteBytes(i, (addr + pos) % CACHELINE_SZ, data, be, pos, n);
      lines[i] := lines[i].(dirty := true);
    }

    // ---- the processor side ----

    /** ACECacheWriteBack::handle_load. */
    method HandleLoad(addr: nat, data: array<byte>, be: seq<bool>)
      requires Valid() && addr + data.Length <= |mem| * CACHELINE_SZ
      modifies this`toggle, this`mem, this`calls, this`asked, lines, data
      ensures Valid() && |mem| == |old(mem)|
      ensures AskedFor(old(asked), asked, addr, data.Length, false)
      ensures old(Transparent()) ==>
                && Transparent() && View() == old(View())
                && forall j :: 0 <= j < data.Length ==>
                     data[j] == if Enabled(be, j) then ByteAt(old(View()), addr + j) else old(data[j])
    {
      var pos := 0;
      while pos < data.Length
        invariant Valid() && |mem| == |old(mem)| && pos <= data.Length
        invariant AskedFor(old(asked), asked, addr, data.Length, false)
        invariant old(Transparent()) ==> Transparent() && View() == old(View())
        invariant forall j :: pos <= j < data.Length ==> data[j] == old(data[j])
        invariant old(Transparent()) ==> forall j :: 0 <= j < pos ==>
                    data[j] == if Enabled(be, j) then ByteAt(old(View()), addr + j) else old(data[j])
        decreases data.Length - pos, if InCache(lines[..], (addr + pos) / CACHELINE_SZ) then 0 else 1
      {
        var line := (addr + pos) / CACHELINE_SZ;
        if InCache(lines[..], line) {
          var n := ReadLine(addr, data, be, pos);
          forall j | pos <= j < pos + n
            ensures old(Transparent()) ==>
                      data[j] == if Enabled(be, j) then ByteAt(old(View()), addr + j) else old(data[j])
          {
            SameLine(addr, pos, j);
          }
          pos := pos + n;
        } else {
          toggle := !toggle;
          Fetch(if toggle then ReadShared else ReadNotSharedDirty, line);
        }
      }
    }

    /** ACECacheWriteBack::handle_store. Undisturbed, it is the store that was asked
        for just when no chunk shows a stale byte of a line buffer, and surely when
        whole lines with disabled bytes hit. Under any snoops, each of its lines is
        written once, in order, and only when the cache holds it unshared. */
    method HandleStore(addr: nat, data: seq<byte>, be: seq<bool>)
      requires Valid() && addr + |data| <= |mem| * CACHELINE_SZ
      modifies this`toggle, this`mem, this`calls, this`asked, this`found, lines
      ensures Valid() && |mem| == |old(mem)|
      ensures WroteUnshared(old(found), found, addr, |data|) && AskedFor(old(asked), asked, addr, |data|, true)
      ensures old(Transparent()) ==>
                && Transparent()
                && (lines[..], mem) == StoreAll(old(lines[..]), old(mem), addr, data, be, 0)
                && (Overwritten(View(), old(View()), addr, data, be, 0)
                    <==> NoStaleBytes(old(lines[..]), old(mem), addr, data, be, 0))
                && (NoSparseMiss(old(lines[..]), addr, |data|, be, 0) ==>
                      Overwritten(View(), old(View()), addr, data, be, 0))
    {
      hide StoreAll, StoreChunk, Fetched, Written, ViewOf, Owned, Overwritten, NoStaleBytes, NoSparseMiss,
           WroteUnshared, AskedFor;
      var pos := 0;
      NothingWritten(found, addr);
      NothingAsked(asked, addr, |data|);
      while pos < |data|
        invariant Valid() && |mem| == |old(mem)| && pos <= |data|
        invariant old(Transparent()) ==> Transparent()
        invariant WroteUnshared(old(found), found, addr, pos) && AtChunk(addr, pos, |data|)
        invariant AskedFor(old(asked), asked, addr, |data|, true)
        invariant old(Transparent()) ==> StoreAll(lines[..], mem, addr, data, be, pos)
                                         == StoreAll(old(lines[..]), old(mem), addr, data, be, 0)
        decreases |data| - pos, Rank(lines[..], (addr + pos) / CACHELINE_SZ)
      {
        var line := (addr + pos) / CACHELINE_SZ;
        ghost var was, memWas := lines[..], mem;
        UnsharedHit(was, mem, line);
        if InCache(lines[..], line) {
          if !lines[Index(line, lines.Length)].shared {
            HitReady(was, mem, addr, data, be, pos);
            WroteNext(old(found), found, addr, pos, |data|, Slot(was, line));
            var n := WriteLine(addr, data, be, pos);
            HitStored(was, mem, addr, data, be, pos);
            pos := pos + n;
          } else {
            AskedNext(old(asked), asked, addr, |data|, pos, Request.CleanUnique);
            CleanUnique(line);
          }
        } else {
          var n := Chunk(addr, pos, |data|);
          if n == CACHELINE_SZ {
            AskedNext(old(asked), asked, addr, |data|, pos, Request.MakeUnique);
            MakeUnique(line);
          } else {
            AskedNext(old(asked), asked, addr, |data|, pos, ReadUnique);
            Fetch(ReadUnique, line);
          }
          MissStored(was, memWas, addr, data, be, pos);
        }
      }
      NothingLeft(lines[..], mem, addr, data, be);
      if old(Transparent()) {
        StoreView(old(lines[..]), old(mem), addr, data, be, 0);
        if NoSparseMiss(old(lines[..]), addr, |data|, be, 0) {
          NoSparseMissIsEnough(old(lines[..]), old(mem), addr, data, be, 0);
        }
      }
    }
  }

  /** From `before` on, the lines of the first n bytes have each been written once, in
      order, each found valid and unshared. */
  ghost predicate WroteUnshared(before: seq<Line>, found: seq<Line>, addr: nat, n: nat) {
    && before <= found
    && |found| - |before| == (if n == 0 then 0 else (addr + n - 1) / CACHELINE_SZ - addr / CACHELINE_SZ + 1)
    && forall k :: |before| <= k < |found| ==>
         found[k].valid && !found[k].shared && found[k].tag == addr / CACHELINE_SZ + (k - |before|)
  }

  /** From `before` on, a load has asked for its own lines to share; a store to own its
      lines, and to make a line without its data exactly when it covers the line. */
  ghost predicate AskedFor(before: seq<(Request, nat)>, asked: seq<(Request, nat)>, addr: nat, len: nat, store: bool) {
    && before <= asked
    && forall k :: |before| <= k < |asked| ==>
         var (kind, line) := asked[k];
         var whole := addr <= line * CACHELINE_SZ && (line + 1) * CACHELINE_SZ <= addr + len;
         && addr / CACHELINE_SZ <= line && line * CACHELINE_SZ < addr + len
         && (if store then kind in {Request.CleanUnique, if whole then Request.MakeUnique else ReadUnique}
             else kind in {ReadShared, ReadNotSharedDirty})
  }

  lemma NothingAsked(asked: seq<(Request, nat)>, addr: nat, len: nat)
    ensures AskedFor(asked, asked, addr, len, true)
  {
  }

  lemma AskedNext(before: seq<(Request, nat)>, asked: seq<(Request, nat)>, addr: nat, len: nat, pos: nat, kind: Request)
    requires AskedFor(before, asked, addr, len, true) && AtChunk(addr, pos, len) && pos < len
    requires kind == Request.CleanUnique
             || kind == (if Chunk(addr, pos, len) == CACHELINE_SZ then Request.MakeUnique else ReadUnique)
    ensures AskedFor(before, asked + [(kind, (addr + pos) / CACHELINE_SZ)], addr, len, true)
  {
  }

  /** Chunks start at line boundaries, except for the first. */
  predicate AtChunk(addr: nat, pos: nat, len: nat) {
    pos == 0 || pos == len || (addr + pos) % CACHELINE_SZ == 0
  }

  lemma NothingWritten(found: seq<Line>, addr: nat)
    ensures WroteUnshared(found, found, addr, 0)
  {
  }

  lemma WroteNext(before: seq<Line>, found: seq<Line>, addr: nat, pos: nat, len: nat, l: Line)
    requires WroteUnshared(before, found, addr, pos) && AtChunk(addr, pos, len) && pos < len
    requires l.valid && !l.shared && l.tag == (addr + pos) / CACHELINE_SZ
    ensures var pos' := pos + Chunk(addr, pos, len);
            WroteUnshared(before, found + [l], addr, pos') && AtChunk(addr, pos', len)
  {
  }

  /** Every line but the one at i is what the snoops have made of it. */
  ghost predicate OthersSnooped(before: seq<Line>, after: seq<Line>, i: nat, snoops: seq<(Snoop, nat)>)
    requires |before| == |after|
  {
    forall j :: 0 <= j < |before| && j != i ==> after[j] == SnoopedLine(before[j], snoops)
  }

  /** Snoops leave an invalid line alone and never bring one in. */
  lemma {:induction false} SnoopedKeepsTag(l: Line, snoops: seq<(Snoop, nat)>)
    ensures var l' := SnoopedLine(l, snoops);
            if l.valid then l'.tag == l.tag else l' == l
  {
    if snoops != [] { SnoopedKeepsTag(l, snoops[..|snoops| - 1]); }
  }

  lemma AnswerByLine(lines: seq<Line>, bound: nat, snoop: Snoop, line: nat)
    requires Placed(lines, bound)
    ensures var lines' := SnoopLines(snoop, lines, line).0;
      |lines'| == |lines| && forall i :: 0 <= i < |lines| ==>
        lines'[i] == if lines[i].valid && lines[i].tag == line then SnoopHit(snoop, lines[i]).0 else lines[i]
  {
  }

  lemma HitStored(lines: seq<Line>, mem: seq<Data>, addr: nat, data: seq<byte>, be: seq<bool>, pos: nat)
    requires |lines| > 0 && pos < |data| && addr + |data| <= |mem| * CACHELINE_SZ
    requires InCache(lines, (addr + pos) / CACHELINE_SZ)
    ensures var a, n := (addr + pos) / CACHELINE_SZ, Chunk(addr, pos, |data|);
            StoreAll(lines, mem, addr, data, be, pos)
            == StoreAll(Written(lines, a, (addr + pos) % CACHELINE_SZ, data[pos..pos + n], Enables(be, pos, n)),
                        mem, addr, data, be, pos + n)
  {
  }

  lemma NothingLeft(lines: seq<Line>, mem: seq<Data>, addr: nat, data: seq<byte>, be: seq<bool>)
    requires |lines| > 0 && addr + |data| <= |mem| * CACHELINE_SZ
    ensures StoreAll(lines, mem, addr, data, be, |data|) == (lines, mem)
  {
  }

  lemma HitReady(lines: seq<Line>, mem: seq<Data>, addr: nat, data: seq<byte>, be: seq<bool>, pos: nat)
    requires |lines| > 0 && pos < |data| && addr + |data| <= |mem| * CACHELINE_SZ
    requires InCache(lines, (addr + pos) / CACHELINE_SZ)
    ensures Ready(lines, mem) ==>
              var a, n := (addr + pos) / CACHELINE_SZ, Chunk(addr, pos, |data|);
              Ready(Written(lines, a, (addr + pos) % CACHELINE_SZ, data[pos..pos + n], Enables(be, pos, n)), mem)
  {
    if Ready(lines, mem) { ChunkView(lines, mem, addr, data, be, pos); }
  }

  lemma UnsharedHit(lines: seq<Line>, mem: seq<Data>, a: nat)
    requires |lines| > 0
    ensures Ready(lines, mem) && InCache(lines, a) ==> !lines[Index(a, |lines|)].shared
  {
  }

  /** A miss is a hit once the line has been fetched. */
  lemma MissStored(lines: seq<Line>, mem: seq<Data>, addr: nat, data: seq<byte>, be: seq<bool>, pos: nat)
    requires |lines| > 0 && pos < |data| && addr + |data| <= |mem| * CACHELINE_SZ
    requires !InCache(lines, (addr + pos) / CACHELINE_SZ)
    ensures var a, whole := (addr + pos) / CACHELINE_SZ, Chunk(addr, pos, |data|) == CACHELINE_SZ;
            var (lines', mem') := Fetched(lines, mem, a, whole);
            StoreAll(lines, mem, addr, data, be, pos) == StoreAll(lines', mem', addr, data, be, pos)
  {
    var (lines', mem') := Fetched(lines, mem, (addr + pos) / CACHELINE_SZ, Chunk(addr, pos, |data|) == CACHELINE_SZ);
    assert InCache(lines', (addr + pos) / CACHELINE_SZ);
    HitStored(lines', mem', addr, data, be, pos);
  }

  /** A whole line with one disabled byte, stored to an empty cache: the byte is
      that of the line buffer, and memory's is gone. */
  method SparseMiss() returns (was: byte, now: byte, enabled: bool)
    ensures !enabled && was != now
  {
    var mem: seq<Data> := [seq(CACHELINE_SZ, i => 1)];
    var c := new Cache(1, mem, (k, kind) => QUIET);
    var data: seq<byte> := seq(CACHELINE_SZ, i => 2);
    var be := seq(CACHELINE_SZ, i => i > 0);
    was, enabled := c.mem[0][0], Enabled(be, 0);
    c.MakeUnique(0);
    var n := c.WriteLine(0, data, be, 0);
    now := c.lines[0].data[0];
  }

  /** The progress of a store on a line: shared, then missing, then unique. */
  function Rank(lines: seq<Line>, a: nat): nat
    requires |lines| > 0
  {
    if !InCache(lines, a) then 1 else if lines[Index(a, |lines|)].shared then 2 else 0
  }

  function ByteAt(v: seq<Data>, b: nat): byte
    requires b < |v| * CACHELINE_SZ
  {
    v[b / CACHELINE_SZ][b % CACHELINE_SZ]
  }

  lemma SameLine(addr: nat, pos: nat, j: nat)
    requires pos <= j && (addr + pos) % CACHELINE_SZ + (j - pos) < CACHELINE_SZ
    ensures (addr + j) / CACHELINE_SZ == (addr + pos) / CACHELINE_SZ
    ensures (addr + j) % CACHELINE_SZ == (addr + pos) % CACHELINE_SZ + (j - pos)
  {
  }
}
