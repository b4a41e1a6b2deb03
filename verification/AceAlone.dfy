/** The two models of the cache fit together. CacheStores says what the loops of
    handle_load and handle_store do to the lines and the memory of a cache nobody
    snoops, and the class of AceCache.dfy is proved to do that; AceSystem says what
    the threads of caches and interconnect do between two waits. Here the chunks of
    the former are runs of the latter. */
module AceAlone {
  import opened AceTypes
  import opened Common
  import opened CacheLines
  import opened LineProtocol
  import opened AceSystem
  import opened AceCoherence
  import C = CacheStores
  import Orderer

  /** One cache, whose thread is idle, and the memory. */
  predicate Rests(s: System, lines: seq<Line>, mem: seq<Data>) {
    && |s.caches| == 1 && s.caches[0].lines == lines && s.caches[0].thread == Idle
    && s.ord == Orderer.EMPTY && s.mem == mem
  }

  /** It waits for a request about to be processed, its line buffer being free. */
  predicate Waits(s: System, lines: seq<Line>, mem: seq<Data>, op: Op, kind: Request)
  {
    && |s.caches| == 1 && |lines| > 0 && s.caches[0].lines == lines && s.mem == mem
    && s.caches[0].thread == Waiting(op, FreshTxn(kind, 0, 1, C.Slot(lines, op.line).data))
    && s.ord == Orderer.State([SnoopTx(0, op.line)], [])
  }

  /** It waits for the victim's write. */
  predicate Writes(s: System, lines: seq<Line>, mem: seq<Data>, op: Op, kind: Request)
  {
    && |s.caches| == 1 && |lines| > 0 && s.caches[0].lines == lines && s.mem == mem
    && var victim := C.Slot(lines, op.line).tag;
    && (exists back :: s.caches[0].thread == Writing(op, kind, victim, back, false))
    && s.ord == Orderer.State([WriteTx(0, victim)], [])
  }

  // ---- runs put together ----

  lemma RunOn(s: System, labels: seq<Label>, l: Label)
    ensures var (before, events) := Run(s, labels);
            Run(s, labels + [l]) == if Enabled(before, l)
                                    then (Step(before, l).0, events + [Step(before, l).1]) else (before, events + [Tau])
  {
    hide Enabled, Step;
    assert (labels + [l])[..|labels|] == labels;
  }

  lemma {:induction false} RunAppend(s: System, first: seq<Label>, rest: seq<Label>)
    ensures Run(s, first + rest) == (Run(Run(s, first).0, rest).0, Run(s, first).1 + Run(Run(s, first).0, rest).1)
  {
    hide *;
    if rest == [] {
      NothingRun(Run(s, first).0);
      assert first + rest == first && Run(s, first).1 + [] == Run(s, first).1;
    } else {
      var n := |rest| - 1;
      var (s1, e1) := Run(s, first);
      RunAppend(s, first, rest[..n]);
      RunOn(s, first + rest[..n], rest[n]);
      RunOn(s1, rest[..n], rest[n]);
      Regroup(e1, Run(s1, rest[..n]).1, Tau);
      if Enabled(Run(s1, rest[..n]).0, rest[n]) {
        Regroup(e1, Run(s1, rest[..n]).1, Step(Run(s1, rest[..n]).0, rest[n]).1);
      }
      assert first + rest == (first + rest[..n]) + [rest[n]] && rest == rest[..n] + [rest[n]];
    }
  }

  lemma Regroup(a: seq<Event>, b: seq<Event>, e: Event)
    ensures a + b + [e] == a + (b + [e])
  {
  }

  lemma NothingRun(s: System)
    ensures Run(s, []) == (s, [])
  {
  }

  lemma RunOne(s: System, l: Label)
    requires Enabled(s, l)
    ensures Run(s, [l]) == (Step(s, l).0, [Step(s, l).1])
  {
    hide Enabled, Step;
    NothingRun(s);
    RunOn(s, [], l);
    assert [] + [l] == [l] && [] + [Step(s, l).1] == [Step(s, l).1];
  }

  // ---- the parts of a chunk ----

  /** How the request of an operation that misses is called. */
  predicate Asks(op: Op, kind: Request) {
    match op
    case Load(_, _, _) => kind == ReadShared || kind == ReadNotSharedDirty
    case Store(_, _, _, _) => kind == if FullLine(op) then MakeUnique else ReadUnique
  }

  predicate Whole(op: Op) {
    op.Store? && FullLine(op)
  }

  /** The lines when the operation is done, and what it reports. */
  function Result(lines: seq<Line>, op: Op): (seq<Line>, Event)
    requires |lines| > 0 && OpOk(op, op.line + 1)
  {
    match op
    case Load(line, off, len) => (lines, Loaded(line, off, C.Slot(lines, line).data[off..off + len]))
    case Store(line, off, bytes, en) => (C.Written(lines, line, off, bytes, en), Stored(line, off, bytes, en))
  }

  const SERVED: seq<Label> := [Drained(0), Downstream(0), Resume(0)]

  lemma OnlyFinishes(t: Orderer.Tx)
    ensures Orderer.Finish(Orderer.State([t], []), t) == Orderer.EMPTY
  {
    assert [t][1..] == [];
    assert Orderer.Remove([], t.id) == [];
  }

  /** One waiting cache and its transaction, the only one the orderer knows. */
  function Pending(lines: seq<Line>, toggle: bool, op: Op, t: Txn, mem: seq<Data>): System {
    System([Cache(lines, toggle, Waiting(op, t))], Orderer.State([SnoopTx(0, op.line)], []), mem)
  }

  lemma PendingStarted(lines: seq<Line>, toggle: bool, op: Op, t: Txn, mem: seq<Data>)
    ensures Started(Pending(lines, toggle, op, t, mem), 0)
  {
    assert SnoopTx(0, op.line) in [SnoopTx(0, op.line)];
  }

  lemma ReplaceOnly(cache: Cache, next: Cache)
    ensures [cache][0 := next] == [next]
  {
  }

  lemma DrainAlone(lines: seq<Line>, toggle: bool, op: Op, kind: Request, mem: seq<Data>, buffer: Data)
    requires |lines| > 0
    ensures var t := FreshTxn(kind, 0, 1, buffer);
            var s := Pending(lines, toggle, op, t, mem);
            Enabled(s, Drained(0)) && Step(s, Drained(0)) == (Pending(lines, toggle, op, t.(phase := Fetch), mem), Tau)
  {
    var t := FreshTxn(kind, 0, 1, buffer);
    PendingStarted(lines, toggle, op, t, mem);
    assert AllMerged(t) && Drain(t) == t.(phase := Fetch);
    ReplaceOnly(Cache(lines, toggle, Waiting(op, t)), Cache(lines, toggle, Waiting(op, Drain(t))));
  }

  lemma FetchAlone(lines: seq<Line>, toggle: bool, op: Op, t: Txn, mem: seq<Data>)
    requires |lines| > 0 && op.line < |mem| && t.phase == Fetch && t.push.None?
    ensures var s := Pending(lines, toggle, op, t, mem);
            var t' := t.(ok := true, phase := Done, data := if t.kind.IsRead() then mem[op.line] else t.data);
            Enabled(s, Downstream(0)) && Step(s, Downstream(0)) == (Pending(lines, toggle, op, t', mem), Tau)
  {
    PendingStarted(lines, toggle, op, t, mem);
    ReplaceOnly(Cache(lines, toggle, Waiting(op, t)), Cache(lines, toggle, Waiting(op, Access(t, mem[op.line]).0)));
    assert mem[op.line := mem[op.line]] == mem;
  }

  lemma ResumeAlone(lines: seq<Line>, toggle: bool, op: Op, t: Txn, mem: seq<Data>)
    requires |lines| > 0 && OpOk(op, |mem|) && t.phase == Done && Asks(op, t.kind) && !t.shared && !t.dirty
    requires !C.Slot(lines, op.line).valid
    ensures var s := Pending(lines, toggle, op, t, mem);
            var filled := lines[Index(op.line, |lines|) := Line(true, op.line, false, Whole(op), t.data)];
            && Enabled(s, Resume(0))
            && Rests(Step(s, Resume(0)).0, Result(filled, op).0, mem) && Step(s, Resume(0)).1 == Result(filled, op).1
  {
    PendingStarted(lines, toggle, op, t, mem);
    var s := Pending(lines, toggle, op, t, mem);
    var filled := lines[Index(op.line, |lines|) := Line(true, op.line, false, Whole(op), t.data)];
    OnlyFinishes(SnoopTx(0, op.line));
    ReplaceOnly(s.caches[0], Cache(filled, toggle, AceSystem.Ready(op)));
    assert Install(t, op.line, None) == Some(filled[Index(op.line, |lines|)]);
    assert FinishTxn(s, 0) == System([Cache(filled, toggle, AceSystem.Ready(op))], Orderer.EMPTY, mem);
  }

  /** A request that nobody is snooped for goes downstream and comes back. */
  lemma ServedFills(s: System, lines: seq<Line>, mem: seq<Data>, op: Op, kind: Request)
    requires Waits(s, lines, mem, op, kind) && OpOk(op, |mem|) && Asks(op, kind) && !C.Slot(lines, op.line).valid
    ensures var (s', events) := Run(s, SERVED);
            var (lines', e) := Result(C.Filled(lines, mem, op.line, Whole(op)), op);
            Rests(s', lines', mem) && events == [Tau, Tau, e]
  {
    hide Enabled, Step, Run;
    var toggle, buffer := s.caches[0].toggle, C.Slot(lines, op.line).data;
    var t := FreshTxn(kind, 0, 1, buffer);
    var t' := t.(ok := true, phase := Done, data := if kind.IsRead() then mem[op.line] else buffer);
    assert s == Pending(lines, toggle, op, t, mem);
    DrainAlone(lines, toggle, op, kind, mem, buffer);
    FetchAlone(lines, toggle, op, t.(phase := Fetch), mem);
    ResumeAlone(lines, toggle, op, t', mem);
    ThreeSteps(s, Drained(0), Downstream(0), Resume(0));
  }

  lemma ThreeSteps(s: System, l0: Label, l1: Label, l2: Label)
    requires Enabled(s, l0) && Enabled(Step(s, l0).0, l1) && Enabled(Step(Step(s, l0).0, l1).0, l2)
    ensures var (s1, e0) := Step(s, l0);
            var (s2, e1) := Step(s1, l1);
            var (s3, e2) := Step(s2, l2);
            Run(s, [l0, l1, l2]) == (s3, [e0, e1, e2])
  {
    hide Enabled, Step, Run;
    RunOne(s, l0);
    RunOn(s, [l0], l1);
    RunOn(s, [l0, l1], l2);
    assert [l0] + [l1] == [l0, l1] && [l0, l1] + [l2] == [l0, l1, l2];
    var e0, s1 := Step(s, l0).1, Step(s, l0).0;
    var e1, s2 := Step(s1, l1).1, Step(s1, l1).0;
    assert [e0] + [e1] == [e0, e1] && [e0, e1] + [Step(s2, l2).1] == [e0, e1, Step(s2, l2).1];
  }

  /** The lines as they are while the request of a miss waits; a WriteBack and an
      Evict leave the dirty flag of the invalid line as it was. */
  predicate FreedTo(lines: seq<Line>, op: Op, freed: seq<Line>) {
    && |lines| == |freed| > 0
    && !C.Slot(freed, op.line).valid && C.Slot(freed, op.line).data == C.Slot(lines, op.line).data
    && freed[Index(op.line, |lines|) := C.Slot(lines, op.line)] == lines
  }

  lemma FilledFromFreed(lines: seq<Line>, freed: seq<Line>, mem: seq<Data>, op: Op)
    requires FreedTo(lines, op, freed) && op.line < |mem|
    ensures C.Filled(freed, mem, op.line, Whole(op)) == C.Filled(lines, mem, op.line, Whole(op))
  {
    var i := Index(op.line, |lines|);
    var x := C.Filled(lines, mem, op.line, Whole(op))[i];
    assert freed[i := C.Slot(lines, op.line)][i := x] == freed[i := x];
  }

  /** The write of the victim goes downstream, and the request follows. */
  lemma VictimWritten(s: System, lines: seq<Line>, mem: seq<Data>, op: Op, kind: Request)
    requires Writes(s, lines, mem, op, kind) && OpOk(op, |mem|) && C.Slot(lines, op.line).tag < |mem|
    ensures exists freed :: FreedTo(lines, op, freed)
              && Waits(Run(s, [Downstream(0), Resume(0)]).0, freed,
                       mem[C.Slot(lines, op.line).tag := C.Slot(lines, op.line).data], op, kind)
    ensures Run(s, [Downstream(0), Resume(0)]).1 == [Tau, Tau]
  {
    var l := C.Slot(lines, op.line);
    var toggle, mem' := s.caches[0].toggle, mem[l.tag := l.data];
    var back :| s.caches[0].thread == Writing(op, kind, l.tag, back, false);
    var s1 := System([Cache(lines, toggle, Writing(op, kind, l.tag, back, true))], s.ord, mem');
    assert Enabled(s, Downstream(0));
    assert Step(s, Downstream(0)) == (s1, Tau) by {
      assert s.caches == [s.caches[0]];
      ReplaceOnly(s.caches[0], Cache(lines, toggle, Writing(op, kind, l.tag, back, true)));
    }
    VictimGone(s1, lines, op, kind, back);
    RunOne(s, Downstream(0));
    RunOn(s, [Downstream(0)], Resume(0));
    assert [Downstream(0)] + [Resume(0)] == [Downstream(0), Resume(0)];
  }

  lemma VictimGone(s: System, lines: seq<Line>, op: Op, kind: Request, back: bool)
    requires |s.caches| == 1 && |lines| > 0 && s.caches[0].lines == lines
    requires s.caches[0].thread == Writing(op, kind, C.Slot(lines, op.line).tag, back, true)
    requires s.ord == Orderer.State([WriteTx(0, C.Slot(lines, op.line).tag)], [])
    ensures Enabled(s, Resume(0)) && Step(s, Resume(0)).1 == Tau
    ensures exists freed :: FreedTo(lines, op, freed) && Waits(Step(s, Resume(0)).0, freed, s.mem, op, kind)
  {
    var l, i := C.Slot(lines, op.line), Index(op.line, |lines|);
    var freed := lines[i := if back then l.(valid := false) else l.(dirty := false).(valid := false)];
    var toggle := s.caches[0].toggle;
    OnlyFinishes(WriteTx(0, l.tag));
    ReplaceOnly(s.caches[0], Cache(freed, toggle, AceSystem.Ready(op)));
    assert FinishWrite(s, 0) == System([Cache(freed, toggle, AceSystem.Ready(op))], Orderer.EMPTY, s.mem);
    Issued(freed, toggle, s.mem, op, kind);
    assert FreedTo(lines, op, freed);
  }

  lemma Issued(lines: seq<Line>, toggle: bool, mem: seq<Data>, op: Op, kind: Request)
    requires |lines| > 0
    ensures Waits(IssueTxn(System([Cache(lines, toggle, AceSystem.Ready(op))], Orderer.EMPTY, mem), 0, op, kind),
                  lines, mem, op, kind)
  {
    var t := FreshTxn(kind, 0, 1, C.Slot(lines, op.line).data);
    ReplaceOnly(Cache(lines, toggle, AceSystem.Ready(op)), Cache(lines, toggle, Waiting(op, t)));
    assert !Orderer.IsOverlapping([], SnoopTx(0, op.line));
    assert [] + [SnoopTx(0, op.line)] == [SnoopTx(0, op.line)];
  }

  // ---- one chunk ----

  /** The lines and the memory after an operation on one line, and what it reports. */
  function Performed(lines: seq<Line>, mem: seq<Data>, op: Op): (r: (seq<Line>, seq<Data>, Event))
    requires |lines| > 0 && OpOk(op, |mem|)
    ensures |r.0| == |lines| && |r.1| == |mem|
  {
    var (lines', mem') := C.Fetched(lines, mem, op.line, Whole(op));
    (Result(lines', op).0, mem', Result(lines', op).1)
  }

  function KindOf(op: Op, toggle: bool): (kind: Request)
    ensures Asks(op, kind)
  {
    if op.Load? then (if !toggle then ReadShared else ReadNotSharedDirty)
    else if FullLine(op) then MakeUnique else ReadUnique
  }

  /** The thread waits, for the victim's write or already for the request. */
  ghost predicate Awaits(s: System, lines: seq<Line>, mem: seq<Data>, op: Op, kind: Request)
    requires |lines| > 0
  {
    var l := C.Slot(lines, op.line);
    if l.valid && l.dirty then Writes(s, lines, mem, op, kind)
    else exists freed :: FreedTo(lines, op, freed) && Waits(s, freed, mem, op, kind)
  }

  /** Where Continue leads when the operation misses. */
  lemma Misses(s: System, lines: seq<Line>, mem: seq<Data>, op: Op)
    requires |s.caches| == 1 && |lines| > 0 && OpOk(op, |mem|) && !InCache(lines, op.line)
    requires s == System([Cache(lines, s.caches[0].toggle, AceSystem.Ready(op))], Orderer.EMPTY, mem)
    ensures Continue(s, 0, op).1 == Tau
    ensures Awaits(Continue(s, 0, op).0, lines, mem, op, KindOf(op, s.caches[0].toggle))
  {
    hide Fill, Awaits;
    var toggle := s.caches[0].toggle;
    var kind, toggle' := KindOf(op, toggle), if op.Load? then !toggle else toggle;
    var s1 := System([Cache(lines, toggle', AceSystem.Ready(op))], Orderer.EMPTY, mem);
    ReplaceOnly(s.caches[0], s1.caches[0]);
    assert Continue(s, 0, op) == (Fill(s1, 0, op, kind), Tau);
    Filling(lines, toggle', mem, op, kind);
  }

  lemma Filling(lines: seq<Line>, toggle: bool, mem: seq<Data>, op: Op, kind: Request)
    requires |lines| > 0
    ensures Awaits(Fill(System([Cache(lines, toggle, AceSystem.Ready(op))], Orderer.EMPTY, mem), 0, op, kind),
                   lines, mem, op, kind)
  {
    hide Fill, Writes, Waits, FreedTo;
    if C.Slot(lines, op.line).valid && C.Slot(lines, op.line).dirty {
      FillingDirty(lines, toggle, mem, op, kind);
    } else {
      FillingClean(lines, toggle, mem, op, kind);
    }
  }

  lemma FillingDirty(lines: seq<Line>, toggle: bool, mem: seq<Data>, op: Op, kind: Request)
    requires |lines| > 0 && C.Slot(lines, op.line).valid && C.Slot(lines, op.line).dirty
    ensures Writes(Fill(System([Cache(lines, toggle, AceSystem.Ready(op))], Orderer.EMPTY, mem), 0, op, kind),
                   lines, mem, op, kind)
  {
    var l, i := C.Slot(lines, op.line), Index(op.line, |lines|);
    var cache := Cache(lines, toggle, AceSystem.Ready(op));
    var writing := Writing(op, kind, l.tag, toggle, false);
    ReplaceOnly(cache, cache.(toggle := !toggle));
    ReplaceOnly(cache.(toggle := !toggle), Cache(lines, !toggle, writing));
    var s1 := System([cache.(toggle := !toggle)], Orderer.EMPTY, mem);
    assert SetCache(System([cache], Orderer.EMPTY, mem), 0, cache.(toggle := !toggle)) == s1;
    assert IssueWrite(s1, 0, op, kind, toggle).caches == [Cache(lines, !toggle, writing)];
    assert IssueWrite(s1, 0, op, kind, toggle).ord == Orderer.State([WriteTx(0, l.tag)], []);
  }

  lemma FillingClean(lines: seq<Line>, toggle: bool, mem: seq<Data>, op: Op, kind: Request)
    requires |lines| > 0 && !(C.Slot(lines, op.line).valid && C.Slot(lines, op.line).dirty)
    ensures exists freed :: FreedTo(lines, op, freed)
              && Waits(Fill(System([Cache(lines, toggle, AceSystem.Ready(op))], Orderer.EMPTY, mem), 0, op, kind),
                       freed, mem, op, kind)
  {
    var l, i := C.Slot(lines, op.line), Index(op.line, |lines|);
    var cache := Cache(lines, toggle, AceSystem.Ready(op));
    var freed := if l.valid then lines[i := l.(valid := false)] else lines;
    ReplaceOnly(cache, cache.(lines := freed));
    assert Fill(System([cache], Orderer.EMPTY, mem), 0, op, kind)
           == IssueTxn(System([cache.(lines := freed)], Orderer.EMPTY, mem), 0, op, kind);
    Issued(freed, toggle, mem, op, kind);
    assert freed[i := l] == lines;
    assert FreedTo(lines, op, freed);
  }

  function Path(lines: seq<Line>, op: Op): seq<Label>
    requires |lines| > 0
  {
    var l := C.Slot(lines, op.line);
    [Ask(0, op), Go(0)]
    + (if InCache(lines, op.line) then []
       else if l.valid && l.dirty then [Downstream(0), Resume(0)] + SERVED
       else SERVED)
  }

  /** One report, at the end. */
  predicate Reports(events: seq<Event>, e: Event) {
    |events| > 0 && events[|events| - 1] == e && forall k :: 0 <= k < |events| - 1 ==> events[k] == Tau
  }

  /** A request that waits with the place of its line free ends the chunk. */
  lemma WaitsIsPerformed(s: System, lines: seq<Line>, freed: seq<Line>, mem: seq<Data>, op: Op, kind: Request)
    requires FreedTo(lines, op, freed) && Waits(s, freed, mem, op, kind) && OpOk(op, |mem|) && Asks(op, kind)
    ensures var (lines', e) := Result(C.Filled(lines, mem, op.line, Whole(op)), op);
            Rests(Run(s, SERVED).0, lines', mem) && Run(s, SERVED).1 == [Tau, Tau, e]
  {
    hide Run, Waits;
    ServedFills(s, freed, mem, op, kind);
    FilledFromFreed(lines, freed, mem, op);
  }

  lemma WritesIsPerformed(s: System, lines: seq<Line>, mem: seq<Data>, op: Op, kind: Request)
    requires Writes(s, lines, mem, op, kind) && OpOk(op, |mem|) && Asks(op, kind)
    requires C.Slot(lines, op.line).tag < |mem|
    ensures var l := C.Slot(lines, op.line);
            var mem' := mem[l.tag := l.data];
            var (lines', e) := Result(C.Filled(lines, mem', op.line, Whole(op)), op);
            var (s', events) := Run(s, [Downstream(0), Resume(0)] + SERVED);
            Rests(s', lines', mem') && events == [Tau, Tau, Tau, Tau, e]
  {
    hide Run, Waits, Writes, FreedTo, Rests;
    var l := C.Slot(lines, op.line);
    var mem', s1 := mem[l.tag := l.data], Run(s, [Downstream(0), Resume(0)]).0;
    VictimWritten(s, lines, mem, op, kind);
    var freed :| FreedTo(lines, op, freed) && Waits(s1, freed, mem', op, kind);
    WaitsIsPerformed(s1, lines, freed, mem', op, kind);
    RunAppend(s, [Downstream(0), Resume(0)], SERVED);
  }

  lemma Asked(s: System, lines: seq<Line>, mem: seq<Data>, op: Op)
    requires Rests(s, lines, mem) && |lines| > 0 && OpOk(op, |mem|)
    ensures var s1 := System([Cache(lines, s.caches[0].toggle, AceSystem.Ready(op))], Orderer.EMPTY, mem);
            Run(s, [Ask(0, op), Go(0)]) == (Continue(s1, 0, op).0, [Tau, Continue(s1, 0, op).1])
  {
    hide Run, Continue;
    var s1 := System([Cache(lines, s.caches[0].toggle, AceSystem.Ready(op))], Orderer.EMPTY, mem);
    assert s.caches == [s.caches[0]];
    ReplaceOnly(s.caches[0], s1.caches[0]);
    assert Step(s, Ask(0, op)) == (s1, Tau);
    RunOne(s, Ask(0, op));
    RunOn(s, [Ask(0, op)], Go(0));
    assert [Ask(0, op)] + [Go(0)] == [Ask(0, op), Go(0)];
    assert [Tau] + [Continue(s1, 0, op).1] == [Tau, Continue(s1, 0, op).1];
  }

  lemma Hits(lines: seq<Line>, toggle: bool, mem: seq<Data>, op: Op)
    requires |lines| > 0 && OpOk(op, |mem|) && InCache(lines, op.line) && (op.Store? ==> !C.Slot(lines, op.line).shared)
    ensures var (s', e) := Continue(System([Cache(lines, toggle, AceSystem.Ready(op))], Orderer.EMPTY, mem), 0, op);
            Rests(s', Result(lines, op).0, mem) && e == Result(lines, op).1
  {
    ReplaceOnly(Cache(lines, toggle, AceSystem.Ready(op)), Cache(Result(lines, op).0, toggle, Idle));
  }

  lemma MissIsPerformed(s: System, lines: seq<Line>, mem: seq<Data>, op: Op)
    requires |s.caches| == 1 && C.Ready(lines, mem) && OpOk(op, |mem|) && !InCache(lines, op.line)
    requires s == System([Cache(lines, s.caches[0].toggle, AceSystem.Ready(op))], Orderer.EMPTY, mem)
    ensures var (s', events) := Run(Continue(s, 0, op).0, Path(lines, op)[2..]);
            var (lines', mem', e) := Performed(lines, mem, op);
            Rests(s', lines', mem') && Reports([Tau, Continue(s, 0, op).1] + events, e)
  {
    hide Run, Continue, Waits, Writes, FreedTo, Rests;
    var s2 := Continue(s, 0, op).0;
    var l := C.Slot(lines, op.line);
    Misses(s, lines, mem, op);
    var kind := KindOf(op, s.caches[0].toggle);
    if l.valid && l.dirty {
      assert Path(lines, op)[2..] == [Downstream(0), Resume(0)] + SERVED;
      WritesIsPerformed(s2, lines, mem, op, kind);
    } else {
      var freed :| FreedTo(lines, op, freed) && Waits(s2, freed, mem, op, kind);
      assert Path(lines, op)[2..] == SERVED;
      WaitsIsPerformed(s2, lines, freed, mem, op, kind);
    }
  }

  lemma OneCache(s: System, lines: seq<Line>, mem: seq<Data>)
    requires Rests(s, lines, mem)
    ensures |s.caches| == 1
  {
  }

  /** One chunk of the loops of handle_load and handle_store is a run of the system:
      the same lines, the same memory, and one report of what was loaded or stored. */
  lemma ChunkIsRun(s: System, lines: seq<Line>, mem: seq<Data>, op: Op)
    requires Rests(s, lines, mem) && C.Ready(lines, mem) && OpOk(op, |mem|)
    ensures var (s', events) := Run(s, Path(lines, op));
            var (lines', mem', e) := Performed(lines, mem, op);
            Rests(s', lines', mem') && Reports(events, e)
  {
    hide Run, Continue, Rests;
    OneCache(s, lines, mem);
    var toggle := s.caches[0].toggle;
    var s1 := System([Cache(lines, toggle, AceSystem.Ready(op))], Orderer.EMPTY, mem);
    Asked(s, lines, mem, op);
    if InCache(lines, op.line) {
      Hits(lines, toggle, mem, op);
      assert [Ask(0, op), Go(0)] + [] == [Ask(0, op), Go(0)];
    } else {
      MissIsPerformed(s1, lines, mem, op);
      RunAppend(s, [Ask(0, op), Go(0)], Path(lines, op)[2..]);
      assert Path(lines, op) == [Ask(0, op), Go(0)] + Path(lines, op)[2..];
    }
  }

  /** What the chunk reports is what it does to the view: the flat memory of the
      system's events and the view of the cache stay the same. */
  lemma PerformedView(lines: seq<Line>, mem: seq<Data>, op: Op)
    requires C.Ready(lines, mem) && OpOk(op, |mem|)
    ensures var (lines', mem', e) := Performed(lines, mem, op);
      && C.Ready(lines', mem')
      && C.ViewOf(lines', mem') == Apply(C.ViewOf(lines, mem), e)
      && Returns(C.ViewOf(lines, mem), e)
  {
    var v := C.ViewOf(lines, mem);
    var (lines1, mem1) := C.Fetched(lines, mem, op.line, Whole(op));
    if !InCache(lines, op.line) {
      C.FetchedView(lines, mem, op.line, Whole(op));
    }
    if op.Store? {
      C.WrittenView(lines1, mem1, op.line, op.off, op.bytes, op.en);
      if FullLine(op) {
        assert Merge(C.ViewOf(lines1, mem1)[op.line], 0, op.bytes, op.en) == Merge(v[op.line], 0, op.bytes, op.en);
      }
    } else {
      assert C.ViewOf(lines1, mem1)[op.line] == C.Slot(lines1, op.line).data;
    }
  }

  // ---- a whole load or store ----

  /** handle_load or handle_store: the bytes of the payload, or none for a load. */
  datatype Transfer = Loads(addr: nat, len: nat) | Stores(addr: nat, data: seq<byte>, be: seq<bool>) {

    function Len(): nat {
      if Loads? then len else |data|
    }

    /** The part that concerns one line. */
    function OpAt(pos: nat): Op
      requires pos < Len()
    {
      var line, off, n := (addr + pos) / CACHELINE_SZ, (addr + pos) % CACHELINE_SZ, C.Chunk(addr, pos, Len());
      if Loads? then Load(line, off, n) else Store(line, off, data[pos..pos + n], C.Enables(be, pos, n))
    }

    /** Inside the memory, and whole lines with all their bytes enabled. */
    ghost predicate Ok(memLines: nat) {
      && addr + Len() <= memLines * CACHELINE_SZ
      && forall pos: nat :: pos < Len() ==> OpOk(OpAt(pos), memLines)
    }
  }

  /** The lines, the memory and the labels when chunk after chunk is performed. */
  ghost function PerformAll(lines: seq<Line>, mem: seq<Data>, a: Transfer, pos: nat)
    : (r: (seq<Line>, seq<Data>, seq<Label>))
    requires |lines| > 0 && pos <= a.Len() && a.Ok(|mem|)
    decreases a.Len() - pos
  {
    if pos == a.Len() then (lines, mem, [])
    else
      var op := a.OpAt(pos);
      var (lines1, mem1, _) := Performed(lines, mem, op);
      var (lines', mem', labels) := PerformAll(lines1, mem1, a, pos + C.Chunk(a.addr, pos, a.Len()));
      (lines', mem', Path(lines, op) + labels)
  }

  lemma {:induction false} StoreIsPerformed(lines: seq<Line>, mem: seq<Data>, addr: nat, data: seq<byte>,
                                            be: seq<bool>, pos: nat)
    requires |lines| > 0 && pos <= |data| && Stores(addr, data, be).Ok(|mem|)
    ensures var (lines', mem', _) := PerformAll(lines, mem, Stores(addr, data, be), pos);
            C.StoreAll(lines, mem, addr, data, be, pos) == (lines', mem')
    decreases |data| - pos
  {
    hide C.StoreChunk, Performed, Path, OpOk, Transfer.OpAt;
    if pos < |data| {
      var (lines1, mem1, n) := C.StoreChunk(lines, mem, addr, data, be, pos);
      ChunkIsPerformed(lines, mem, addr, data, be, pos);
      StoreIsPerformed(lines1, mem1, addr, data, be, pos + n);
    }
  }

  lemma ChunkIsPerformed(lines: seq<Line>, mem: seq<Data>, addr: nat, data: seq<byte>, be: seq<bool>, pos: nat)
    requires |lines| > 0 && pos < |data| && Stores(addr, data, be).Ok(|mem|)
    ensures var (lines', mem', e) := Performed(lines, mem, Stores(addr, data, be).OpAt(pos));
            C.StoreChunk(lines, mem, addr, data, be, pos) == (lines', mem', C.Chunk(addr, pos, |data|))
  {
    hide C.Fetched, C.Written;
  }

  /** A whole load or store of a cache nobody snoops is a run of the system, which
      reports it chunk by chunk: the cache's view is the flat memory of the reports,
      and every load among them returns what it holds. */
  lemma {:induction false} AccessIsRun(s: System, lines: seq<Line>, mem: seq<Data>, a: Transfer, pos: nat)
    requires Rests(s, lines, mem) && C.Ready(lines, mem) && pos <= a.Len() && a.Ok(|mem|)
    ensures var (lines', mem', labels) := PerformAll(lines, mem, a, pos);
            var (s', events) := Run(s, labels);
      && Rests(s', lines', mem') && C.Ready(lines', mem')
      && C.ViewOf(lines', mem') == Flat(C.ViewOf(lines, mem), events)
      && Faithful(C.ViewOf(lines, mem), events)
    decreases a.Len() - pos
  {
    hide Run, Rests, C.Ready, C.ViewOf, Flat, Performed, Path, Faithful;
    C.ReadyHasLines(lines, mem);
    if pos == a.Len() {
      NothingRun(s);
      NothingStored(C.ViewOf(lines, mem));
    } else {
      var op := a.OpAt(pos);
      var (lines1, mem1, e) := Performed(lines, mem, op);
      var (s1, events1) := Run(s, Path(lines, op));
      ChunkIsRun(s, lines, mem, op);
      PerformedView(lines, mem, op);
      ReportsFlat(C.ViewOf(lines, mem), events1, e);
      AccessIsRun(s1, lines1, mem1, a, pos + C.Chunk(a.addr, pos, a.Len()));
      var (_, _, labels) := PerformAll(lines1, mem1, a, pos + C.Chunk(a.addr, pos, a.Len()));
      RunAppend(s, Path(lines, op), labels);
      FlatAppend(C.ViewOf(lines, mem), events1, Run(s1, labels).1);
      FaithfulJoin(C.ViewOf(lines, mem), events1, Run(s1, labels).1);
    }
  }

  lemma NothingStored(mem: seq<Data>)
    ensures Flat(mem, []) == mem && Faithful(mem, [])
  {
  }

  lemma ReportsFlat(mem: seq<Data>, events: seq<Event>, e: Event)
    requires Reports(events, e)
    ensures Flat(mem, events) == Apply(mem, e)
    ensures Returns(mem, e) ==> Faithful(mem, events)
  {
    TausKeep(mem, events[..|events| - 1]);
  }

  lemma {:induction false} TausKeep(mem: seq<Data>, events: seq<Event>)
    requires forall k :: 0 <= k < |events| ==> events[k] == Tau
    ensures Flat(mem, events) == mem
  {
    if events != [] { TausKeep(mem, events[..|events| - 1]); }
  }

  lemma {:induction false} FlatAppend(mem: seq<Data>, first: seq<Event>, rest: seq<Event>)
    ensures Flat(mem, first + rest) == Flat(Flat(mem, first), rest)
  {
    if rest == [] {
      assert first + rest == first;
    } else {
      var n := |rest| - 1;
      assert (first + rest)[..|first| + n] == first + rest[..n];
      FlatAppend(mem, first, rest[..n]);
    }
  }

  lemma FaithfulJoin(mem: seq<Data>, first: seq<Event>, rest: seq<Event>)
    requires Faithful(mem, first) && Faithful(Flat(mem, first), rest)
    ensures Faithful(mem, first + rest)
  {
    hide Flat, Returns;
    var all, n := first + rest, |first|;
    forall k | 0 <= k < |all| ensures Returns(Flat(mem, all[..k]), all[k]) {
      if k < n {
        assert all[..k] == first[..k];
      } else {
        assert all[..k] == first + rest[..k - n];
        FlatAppend(mem, first, rest[..k - n]);
      }
    }
  }
}
