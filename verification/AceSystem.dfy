/** Any number of write-back caches, the coherent interconnect and one memory
    behind it, as a state machine. One label is the code that runs between two
    SystemC waits; labels of different caches and of the interconnect's threads
    interleave freely. Processor requests are per-line chunks: a longer load or
    store is a sequence of them. */
module AceSystem {
  import opened AceTypes
  import opened Common
  import opened CacheLines
  import opened LineProtocol
  import Orderer

  /** The part of handle_load or handle_store that concerns one line. */
  datatype Op =
    | Load(line: nat, off: nat, len: nat)
    | Store(line: nat, off: nat, bytes: seq<byte>, en: seq<bool>)

  /** Where the thread that holds the cache's mutex stands.
      Writing: inside writeback or writeclean of `victim`.
      Waiting: inside do_tlm of a snooping request. */
  datatype Thread =
    | Idle
    | Ready(op: Op)
    | Writing(op: Op, next: Request, victim: nat, back: bool, written: bool)
    | Waiting(op: Op, txn: Txn)

  datatype Cache = Cache(lines: seq<Line>, toggle: bool, thread: Thread)

  datatype System = System(caches: seq<Cache>, ord: Orderer.State, mem: seq<Data>)

  datatype Label =
    | Ask(c: nat, op: Op)         // the processor side calls b_transport
    | Go(c: nat)                  // the cache thread looks the line up
    | Answer(c: nat, p: nat)      // cache p answers the snoop of cache c's request
    | Collect(c: nat, p: nat)     // PortDone for that answer
    | Drained(c: nat)             // snoop_done_thread
    | Downstream(c: nat)          // the downstream port serves c's line
    | Resume(c: nat)              // the done event reaches cache c

  datatype Event =
    | Tau
    | Loaded(line: nat, off: nat, bytes: seq<byte>)
    | Stored(line: nat, off: nat, bytes: seq<byte>, en: seq<bool>)

  /** What callers may ask: inside one line of memory, and no disabled byte in a
      store that covers a whole line. */
  predicate OpOk(op: Op, lines: nat) {
    match op
    case Load(line, off, len) => line < lines && 0 < len && off + len <= CACHELINE_SZ
    case Store(line, off, bytes, en) =>
      && line < lines && 0 < |bytes| && off + |bytes| <= CACHELINE_SZ && |en| == |bytes|
      && (|bytes| == CACHELINE_SZ ==> forall i :: 0 <= i < |en| ==> en[i])
  }

  function SnoopTx(c: nat, line: nat): Orderer.Tx {
    Orderer.Tx(c, line * CACHELINE_SZ, CACHELINE_SZ, true, false)
  }

  function WriteTx(c: nat, line: nat): Orderer.Tx {
    Orderer.Tx(c, line * CACHELINE_SZ, CACHELINE_SZ, false, false)
  }

  /** The interconnect's processing of cache c's snooping request has begun. */
  predicate Started(s: System, c: nat) {
    c in Orderer.Ids(s.ord.ongoing)
  }

  predicate IsWriting(c: Cache) {
    c.thread.Writing?
  }

  ghost predicate WellFormed(s: System) {
    forall c :: 0 <= c < |s.caches| ==> |s.caches[c].lines| > 0
  }

  function SetCache(s: System, c: nat, cache: Cache): System
    requires c < |s.caches|
  {
    s.(caches := s.caches[c := cache])
  }

  // ---- the cache thread between two waits ----

  /** do_tlm of a snooping request, up to its wait. */
  function IssueTxn(s: System, c: nat, op: Op, kind: Request): System
    requires c < |s.caches| && |s.caches[c].lines| > 0
  {
    var cache := s.caches[c];
    var buffer := cache.lines[Index(op.line, |cache.lines|)].data;
    SetCache(s, c, cache.(thread := Waiting(op, FreshTxn(kind, c, |s.caches|, buffer))))
      .(ord := Orderer.Arrive(s.ord, SnoopTx(c, op.line)))
  }

  /** do_tlm of a WriteBack or WriteClean of the line in op's place. */
  function IssueWrite(s: System, c: nat, op: Op, next: Request, back: bool): System
    requires c < |s.caches| && |s.caches[c].lines| > 0
  {
    var cache := s.caches[c];
    var victim := cache.lines[Index(op.line, |cache.lines|)].tag;
    SetCache(s, c, cache.(thread := Writing(op, next, victim, back, false)))
      .(ord := Orderer.Arrive(s.ord, WriteTx(c, victim)))
  }

  /** Evict, and the end of a WriteBack: the line in op's place is given up. */
  function DropLine(s: System, c: nat, op: Op): System
    requires c < |s.caches| && |s.caches[c].lines| > 0
  {
    var cache := s.caches[c];
    var i := Index(op.line, |cache.lines|);
    SetCache(s, c, cache.(lines := cache.lines[i := cache.lines[i].(valid := false)]))
  }

  /** read_shared, read_not_shared_dirty, read_unique and make_unique: evict_line
      if needed, then the request. A dirty victim is written by WriteClean or
      WriteBack in turn. */
  function Fill(s: System, c: nat, op: Op, kind: Request): System
    requires c < |s.caches| && |s.caches[c].lines| > 0
  {
    var cache := s.caches[c];
    var l := cache.lines[Index(op.line, |cache.lines|)];
    if l.valid && l.dirty then
      IssueWrite(SetCache(s, c, cache.(toggle := !cache.toggle)), c, op, kind, cache.toggle)
    else if l.valid then
      IssueTxn(DropLine(s, c, op), c, op, kind)
    else
      IssueTxn(s, c, op, kind)
  }

  function FullLine(op: Op): bool
    requires op.Store?
  {
    |op.bytes| == CACHELINE_SZ
  }

  /** One pass of the loop of handle_load or handle_store: a hit ends the chunk,
      anything else leads to a wait. */
  function Continue(s: System, c: nat, op: Op): (System, Event)
    requires c < |s.caches| && |s.caches[c].lines| > 0 && OpOk(op, |s.mem|)
  {
    var cache := s.caches[c];
    var i := Index(op.line, |cache.lines|);
    var l := cache.lines[i];
    match op
    case Load(line, off, len) =>
      if InCache(cache.lines, line) then
        (SetCache(s, c, cache.(thread := Idle)), Loaded(line, off, l.data[off..off + len]))
      else
        var kind := if !cache.toggle then ReadShared else ReadNotSharedDirty;
        (Fill(SetCache(s, c, cache.(toggle := !cache.toggle)), c, op, kind), Tau)
    case Store(line, off, bytes, en) =>
      if InCache(cache.lines, line) && !l.shared then
        var l' := l.(data := Merge(l.data, off, bytes, en), dirty := true);
        (SetCache(s, c, cache.(lines := cache.lines[i := l'], thread := Idle)), Stored(line, off, bytes, en))
      else if InCache(cache.lines, line) then
        (IssueTxn(s, c, op, CleanUnique), Tau)
      else
        (Fill(s, c, op, if FullLine(op) then MakeUnique else ReadUnique), Tau)
  }

  // ---- the steps ----

  /** The line in op's place after do_tlm returned. */
  function Installed(lines: seq<Line>, op: Op, t: Txn): seq<Line>
    requires |lines| > 0
  {
    var i := Index(op.line, |lines|);
    var own := if lines[i].valid then Some(lines[i]) else None;
    var l := Install(t, op.line, own);
    if l.Some? then lines[i := l.value] else lines
  }

  /** The done event of a snooping request: the orderer lets go of it, restarts
      whom it blocked, and the cache takes the result in. */
  function FinishTxn(s: System, c: nat): System
    requires c < |s.caches| && |s.caches[c].lines| > 0 && s.caches[c].thread.Waiting?
  {
    var cache := s.caches[c];
    var op := cache.thread.op;
    SetCache(s, c, cache.(lines := Installed(cache.lines, op, cache.thread.txn), thread := Ready(op)))
      .(ord := Orderer.Finish(s.ord, SnoopTx(c, op.line)))
  }

  /** The done event of a line write. After a WriteBack the line is invalid;
      after a WriteClean it is clean and is then evicted in the same step. */
  function FinishWrite(s: System, c: nat): System
    requires c < |s.caches| && |s.caches[c].lines| > 0 && s.caches[c].thread.Writing?
  {
    var cache := s.caches[c];
    var th := cache.thread;
    var i := Index(th.op.line, |cache.lines|);
    var l := if th.back then cache.lines[i].(valid := false)
             else cache.lines[i].(dirty := false).(valid := false);
    SetCache(s, c, cache.(lines := cache.lines[i := l], thread := Ready(th.op)))
      .(ord := Orderer.Finish(s.ord, WriteTx(c, th.victim)))
  }

  predicate Enabled(s: System, l: Label)
  {
    && l.c < |s.caches|
    && |s.caches[l.c].lines| > 0
    && var th := s.caches[l.c].thread;
    match l
    case Ask(_, op) => th.Idle? && OpOk(op, |s.mem|)
    case Go(_) => th.Ready? && OpOk(th.op, |s.mem|)
    case Answer(c, p) =>
      && th.Waiting? && Started(s, c) && th.txn.phase == Snooping
      && p != c && p < |s.caches| && |s.caches[p].lines| > 0 && p < |th.txn.ports| && th.txn.ports[p].Pending?
      && !IsWriting(s.caches[p])
    case Collect(c, p) =>
      && th.Waiting? && Started(s, c) && th.txn.phase == Snooping
      && p < |th.txn.ports| && th.txn.ports[p].Answered?
    case Drained(c) =>
      th.Waiting? && Started(s, c) && th.txn.phase == Snooping && AllMerged(th.txn)
    case Downstream(c) =>
      || (th.Waiting? && Started(s, c) && th.txn.phase in {Push, Fetch} && th.op.line < |s.mem|)
      || (th.Writing? && !th.written && th.victim < |s.mem|)
    case Resume(c) =>
      || (th.Waiting? && Started(s, c) && th.txn.phase == Done && OpOk(th.op, |s.mem|))
      || (th.Writing? && th.written)
  }

  function Step(s: System, l: Label): (System, Event)
    requires Enabled(s, l)
  {
    var cache := s.caches[l.c];
    var th := cache.thread;
    match l
    case Ask(c, op) =>
      (SetCache(s, c, cache.(thread := Ready(op))), Tau)
    case Go(c) =>
      Continue(s, c, th.op)
    case Answer(c, p) =>
      var (lines, resp) := SnoopLines(th.txn.kind.AcSnoop(), s.caches[p].lines, th.op.line);
      var t := th.txn.(ports := th.txn.ports[p := Answered(resp)]);
      (SetCache(SetCache(s, p, s.caches[p].(lines := lines)), c,
                cache.(thread := Waiting(th.op, t))), Tau)
    case Collect(c, p) =>
      (SetCache(s, c, cache.(thread := Waiting(th.op, PortDone(th.txn, p)))), Tau)
    case Drained(c) =>
      (SetCache(s, c, cache.(thread := Waiting(th.op, Drain(th.txn)))), Tau)
    case Downstream(c) =>
      if th.Waiting? then
        var (t, line) := Access(th.txn, s.mem[th.op.line]);
        (SetCache(s, c, cache.(thread := Waiting(th.op, t))).(mem := s.mem[th.op.line := line]), Tau)
      else
        var i := Index(th.op.line, |cache.lines|);
        (SetCache(s, c, cache.(thread := th.(written := true)))
           .(mem := s.mem[th.victim := cache.lines[i].data]), Tau)
    case Resume(c) =>
      if th.Waiting? then
        Continue(FinishTxn(s, c), c, th.op)
      else
        (IssueTxn(FinishWrite(s, c), c, th.op, th.next), Tau)
  }

  // ---- runs, and the flat memory they refine ----

  predicate Initial(s: System)
  {
    && s.ord == Orderer.EMPTY
    && forall c :: 0 <= c < |s.caches| ==>
         && |s.caches[c].lines| > 0
         && s.caches[c].thread == Idle
         && forall i :: 0 <= i < |s.caches[c].lines| ==> !s.caches[c].lines[i].valid
  }

  /** The state and the events after a sequence of labels; a label that is not
      enabled is skipped, so that every sequence of labels is a run. */
  function Run(s: System, labels: seq<Label>): (System, seq<Event>)
  {
    if labels == [] then (s, [])
    else
      var n := |labels| - 1;
      var (before, events) := Run(s, labels[..n]);
      if Enabled(before, labels[n]) then
        var (after, e) := Step(before, labels[n]);
        (after, events + [e])
      else (before, events + [Tau])
  }

  /** One flat byte memory, one store at a time. */
  function Flat(mem: seq<Data>, events: seq<Event>): (r: seq<Data>)
    ensures |r| == |mem|
  {
    if events == [] then mem
    else Apply(Flat(mem, events[..|events| - 1]), events[|events| - 1])
  }

  function Apply(mem: seq<Data>, e: Event): (r: seq<Data>)
    ensures |r| == |mem|
  {
    match e
    case Stored(line, off, bytes, en) =>
      if line < |mem| && off + |bytes| <= CACHELINE_SZ && |en| == |bytes| then
        mem[line := Merge(mem[line], off, bytes, en)]
      else mem
    case _ => mem
  }

  /** A load returns what the flat memory holds. */
  predicate Returns(mem: seq<Data>, e: Event) {
    e.Loaded? ==>
      e.line < |mem| && e.off + |e.bytes| <= CACHELINE_SZ && e.bytes == mem[e.line][e.off..e.off + |e.bytes|]
  }

  // ---- one address of the system ----

  function CopyAt(lines: seq<Line>, a: nat): Option<Line>
    requires |lines| > 0
  {
    if InCache(lines, a) then Some(lines[Index(a, |lines|)]) else None
  }

  function TxnAt(s: System, c: nat, a: nat): Option<Txn>
    requires c < |s.caches|
  {
    var th := s.caches[c].thread;
    if th.Waiting? && th.op.line == a && Started(s, c) then Some(th.txn) else None
  }

  function WriteAt(s: System, c: nat, a: nat): Write
    requires c < |s.caches|
  {
    var th := s.caches[c].thread;
    if th.Writing? && th.victim == a then (if th.written then Written else Queued) else NoWrite
  }

  ghost function ViewAt(s: System, a: nat): View
    requires WellFormed(s) && a < |s.mem|
  {
    var n := |s.caches|;
    View(seq(n, c requires 0 <= c < n => CopyAt(s.caches[c].lines, a)),
         seq(n, c requires 0 <= c < n => TxnAt(s, c, a)),
         seq(n, c requires 0 <= c < n => WriteAt(s, c, a)),
         s.mem[a])
  }
}
