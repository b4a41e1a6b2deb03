/** Every enabled step keeps the invariant; only a store moves the flat memory. */
module AceSteps {
  import opened AceTypes
  import opened Common
  import opened CacheLines
  import opened LineProtocol
  import opened LineProofs
  import opened AceSystem
  import opened AceInvariant
  import Orderer

  // ---- the cache thread ----

  lemma IdleKeeps(s: System, c: nat, th: Thread, flat: seq<Data>)
    requires SysInv(s, flat) && c < |s.caches|
    requires !Busy(s.caches[c].thread) && (th.Idle? || (th.Ready? && OpOk(th.op, |s.mem|)))
    ensures SysInv(SetCache(s, c, s.caches[c].(thread := th)), flat)
  {
    var s' := SetCache(s, c, s.caches[c].(thread := th));
    SameEntries(s, s');
    SameLines(s, s', flat);
  }

  /** write_line on a unique hit. */
  ghost predicate StoreHits(s: System, c: nat, op: Op)
  {
    && c < |s.caches| && s.caches[c].thread == Ready(op) && |s.caches[c].lines| > 0
    && op.Store? && OpOk(op, |s.mem|) && InCache(s.caches[c].lines, op.line)
    && !s.caches[c].lines[Index(op.line, |s.caches[c].lines|)].shared
  }

  lemma StoreHitViews(s: System, c: nat, op: Op, a: nat)
    requires WellFormed(s) && StoreHits(s, c, op) && a < |s.mem|
    ensures var v, w := ViewAt(s, a), ViewAt(Continue(s, c, op).0, a);
            if a == op.line then
              Holds(v, c) && !v.copies[c].value.shared
              && var stored := Merge(v.copies[c].value.data, op.off, op.bytes, op.en);
                 w == v.(copies := v.copies[c := Some(v.copies[c].value.(data := stored, dirty := true))])
            else w == v
  {
    var v, w := ViewAt(s, a), ViewAt(Continue(s, c, op).0, a);
    assert w.txns == v.txns && w.writes == v.writes;
    if a == op.line {
      var stored := Merge(v.copies[c].value.data, op.off, op.bytes, op.en);
      assert w.copies == v.copies[c := Some(v.copies[c].value.(data := stored, dirty := true))];
    } else {
      assert w.copies == v.copies;
    }
  }

  lemma StoreHitKeeps(s: System, c: nat, op: Op, flat: seq<Data>)
    requires SysInv(s, flat) && StoreHits(s, c, op)
    ensures var (s', e) := Continue(s, c, op); SysInv(s', Apply(flat, e))
  {
    var (s', e) := Continue(s, c, op);
    SameEntries(s, s');
    forall a | 0 <= a < |s.mem| ensures LineInv(ViewAt(s', a), Apply(flat, e)[a]) {
      StoreHitViews(s, c, op, a);
      if a == op.line {
        StoreKeeps(ViewAt(s, a), c, flat[a], Apply(flat, e)[a]);
      }
    }
  }

  lemma ContinueKeeps(s: System, c: nat, op: Op, flat: seq<Data>)
    requires SysInv(s, flat) && c < |s.caches| && s.caches[c].thread == Ready(op)
    ensures var (s', e) := Continue(s, c, op); SysInv(s', Apply(flat, e)) && Returns(flat, e)
  {
    var cache := s.caches[c];
    var hit := InCache(cache.lines, op.line);
    if op.Load? && hit {
      IdleKeeps(s, c, Idle, flat);
      assert Holds(ViewAt(s, op.line), c);
    } else if op.Load? {
      ToggleKeeps(s, c, !cache.toggle, flat);
      var kind := if !cache.toggle then ReadShared else ReadNotSharedDirty;
      FillKeeps(SetCache(s, c, cache.(toggle := !cache.toggle)), c, op, kind, flat);
    } else if hit && !cache.lines[Index(op.line, |cache.lines|)].shared {
      StoreHitKeeps(s, c, op, flat);
    } else if hit {
      IssueTxnKeeps(s, c, op, CleanUnique, flat);
    } else {
      FillKeeps(s, c, op, if FullLine(op) then MakeUnique else ReadUnique, flat);
    }
  }

  // ---- the interconnect's threads ----

  /** Replaces cache c's transaction, which has started. */
  function SetSysTxn(s: System, c: nat, t: Txn): System
    requires c < |s.caches| && s.caches[c].thread.Waiting?
  {
    SetCache(s, c, s.caches[c].(thread := Waiting(s.caches[c].thread.op, t)))
  }

  lemma SetTxnView(s: System, c: nat, t: Txn, a: nat)
    requires WellFormed(s) && c < |s.caches| && s.caches[c].thread.Waiting? && Started(s, c) && a < |s.mem|
    ensures var v, w := ViewAt(s, a), ViewAt(SetSysTxn(s, c, t), a);
            if a == s.caches[c].thread.op.line then
              Active(v, c) && v.txns[c].value == s.caches[c].thread.txn && w == SetTxn(v, c, t)
            else w == v
  {
    var v, w := ViewAt(s, a), ViewAt(SetSysTxn(s, c, t), a);
    assert w.copies == v.copies && w.writes == v.writes;
    if a == s.caches[c].thread.op.line {
      assert w.txns == v.txns[c := Some(t)];
    } else {
      assert w.txns == v.txns;
    }
  }

  /** A change of a started transaction that keeps its line keeps the system. */
  lemma SetSysTxnKeeps(s: System, c: nat, t: Txn, flat: seq<Data>)
    requires SysInv(s, flat) && c < |s.caches| && s.caches[c].thread.Waiting? && Started(s, c)
    requires t.kind == s.caches[c].thread.txn.kind
    requires var line := s.caches[c].thread.op.line; LineInv(SetTxn(ViewAt(s, line), c, t), flat[line])
    ensures SysInv(SetSysTxn(s, c, t), flat)
  {
    var s' := SetSysTxn(s, c, t);
    assert forall x :: Listed(s, x) ==> Listed(s', x);
    assert CachesInv(s');
    forall a | 0 <= a < |s.mem| ensures LineInv(ViewAt(s', a), flat[a]) {
      SetTxnView(s, c, t, a);
    }
  }

  lemma CollectKeeps(s: System, c: nat, p: nat, flat: seq<Data>)
    requires SysInv(s, flat) && Enabled(s, Collect(c, p))
    ensures SysInv(Step(s, Collect(c, p)).0, flat)
  {
    var th := s.caches[c].thread;
    SetTxnView(s, c, th.txn, th.op.line);
    PortDoneKeeps(ViewAt(s, th.op.line), c, p, flat[th.op.line]);
    SetSysTxnKeeps(s, c, PortDone(th.txn, p), flat);
  }

  lemma DrainedKeeps(s: System, c: nat, flat: seq<Data>)
    requires SysInv(s, flat) && Enabled(s, Drained(c))
    ensures SysInv(Step(s, Drained(c)).0, flat)
  {
    var th := s.caches[c].thread;
    SetTxnView(s, c, th.txn, th.op.line);
    DrainKeeps(ViewAt(s, th.op.line), c, flat[th.op.line]);
    SetSysTxnKeeps(s, c, Drain(th.txn), flat);
  }

  /** A snoop changes nothing but the snooped line. */
  lemma SnoopLinesCopies(snoop: Snoop, lines: seq<Line>, line: nat, a: nat)
    requires |lines| > 0
    ensures var (after, resp) := SnoopLines(snoop, lines, line);
      && |after| == |lines|
      && (a != line ==> CopyAt(after, a) == CopyAt(lines, a))
      && (CopyAt(after, line), resp) == SnoopCopy(snoop, CopyAt(lines, line))
  {
  }

  /** A snooped cache that is not writing stays consistent with its thread. */
  lemma SnoopThread(cache: Cache, snoop: Snoop, line: nat, c: nat, n: nat, memLines: nat)
    requires Placed(cache.lines, memLines) && ThreadInv(cache, c, n, memLines) && !IsWriting(cache)
    ensures var after := cache.(lines := SnoopLines(snoop, cache.lines, line).0);
            Placed(after.lines, memLines) && ThreadInv(after, c, n, memLines)
  {
  }

  lemma AnswerCaches(s: System, c: nat, p: nat)
    requires CachesInv(s) && Enabled(s, Answer(c, p))
    ensures CachesInv(Step(s, Answer(c, p)).0)
  {
    var th := s.caches[c].thread;
    SnoopThread(s.caches[p], th.txn.kind.AcSnoop(), th.op.line, p, |s.caches|, |s.mem|);
  }

  lemma AnswerViews(s: System, c: nat, p: nat, a: nat)
    requires WellFormed(s) && Enabled(s, Answer(c, p)) && a < |s.mem|
    ensures WellFormed(Step(s, Answer(c, p)).0)
    ensures var v, w := ViewAt(s, a), ViewAt(Step(s, Answer(c, p)).0, a);
            if a == s.caches[c].thread.op.line then Active(v, c) && w == AnswerView(v, c, p) else w == v
  {
    var s' := Step(s, Answer(c, p)).0;
    var th := s.caches[c].thread;
    var v, w := ViewAt(s, a), ViewAt(s', a);
    SnoopLinesCopies(th.txn.kind.AcSnoop(), s.caches[p].lines, th.op.line, a);
    if a == th.op.line {
      var u := AnswerView(v, c, p);
      assert w.copies == u.copies;
      assert w.txns == u.txns;
      assert w.writes == u.writes;
    } else {
      assert w.copies == v.copies;
      assert w.txns == v.txns;
      assert w.writes == v.writes;
    }
  }

  lemma AnswerLine(s: System, c: nat, p: nat, a: nat, latest: Data)
    requires WellFormed(s) && Enabled(s, Answer(c, p)) && a < |s.mem| && LineInv(ViewAt(s, a), latest)
    ensures WellFormed(Step(s, Answer(c, p)).0)
    ensures LineInv(ViewAt(Step(s, Answer(c, p)).0, a), latest)
  {
    AnswerViews(s, c, p, a);
    if a == s.caches[c].thread.op.line {
      LineProofs.AnswerKeeps(ViewAt(s, a), c, p, latest);
    }
  }

  lemma AnswerKeepsSystem(s: System, c: nat, p: nat, flat: seq<Data>)
    requires SysInv(s, flat) && Enabled(s, Answer(c, p))
    ensures SysInv(Step(s, Answer(c, p)).0, flat)
  {
    var s' := Step(s, Answer(c, p)).0;
    AnswerCaches(s, c, p);
    SameEntries(s, s');
    forall a | 0 <= a < |s.mem| ensures LineInv(ViewAt(s', a), flat[a]) {
      AnswerLine(s, c, p, a, flat[a]);
    }
  }

  /** What the downstream port's access does to one address. */
  function Accessed(s: System, c: nat, a: nat, v: View): View
    requires c < |s.caches| && c < |v.copies| && c < |v.txns| && c < |v.writes|
  {
    var th := s.caches[c].thread;
    if th.Waiting? && a == th.op.line && v.txns[c].Some? then AccessView(v, c)
    else if th.Writing? && a == th.victim && v.copies[c].Some? then
      v.(writes := v.writes[c := Written], mem := v.copies[c].value.data)
    else v
  }

  lemma DownstreamViews(s: System, c: nat, a: nat)
    requires CachesInv(s) && WellFormed(s) && Enabled(s, Downstream(c)) && a < |s.mem|
    ensures ViewAt(Step(s, Downstream(c)).0, a) == Accessed(s, c, a, ViewAt(s, a))
  {
    var s' := Step(s, Downstream(c)).0;
    var u, w := Accessed(s, c, a, ViewAt(s, a)), ViewAt(s', a);
    assert w.copies == u.copies;
    assert w.txns == u.txns;
    assert w.writes == u.writes;
  }

  lemma DownstreamKeeps(s: System, c: nat, flat: seq<Data>)
    requires SysInv(s, flat) && Enabled(s, Downstream(c))
    ensures SysInv(Step(s, Downstream(c)).0, flat)
  {
    var s' := Step(s, Downstream(c)).0;
    var th := s.caches[c].thread;
    SameEntries(s, s');
    forall a | 0 <= a < |s.mem| ensures LineInv(ViewAt(s', a), flat[a]) {
      DownstreamViews(s, c, a);
      if th.Waiting? && a == th.op.line {
        AccessKeeps(ViewAt(s, a), c, flat[a]);
      } else if th.Writing? && a == th.victim {
        WriteAccessKeeps(ViewAt(s, a), c, flat[a]);
      }
    }
  }

  // ---- the done event ----

  /** What the orderer's lists are after it let go of cache c's entry. */
  lemma FinishIds(s: System, c: nat)
    requires OrdererInv(s) && Started(s, c)
    ensures c < |s.caches| && Busy(s.caches[c].thread)
    ensures var o' := Orderer.Finish(s.ord, TxOf(c, s.caches[c].thread));
      && Orderer.Inv(o')
      && c !in Orderer.Ids(o'.ongoing) && c !in Orderer.Ids(o'.overlapping)
      && (forall p :: p in Orderer.Ids(s.ord.ongoing) && p != c ==> p in Orderer.Ids(o'.ongoing))
      && (forall p :: p in Orderer.Ids(s.ord.overlapping) && p != c ==>
            p in Orderer.Ids(o'.ongoing) || p in Orderer.Ids(o'.overlapping))
      && (forall t :: t in o'.ongoing || t in o'.overlapping ==> t in s.ord.ongoing || t in s.ord.overlapping)
  {
    ListedTx(s, c);
    var done := TxOf(c, s.caches[c].thread);
    var g := Orderer.Remove(s.ord.ongoing, c);
    var o' := Orderer.Finish(s.ord, done);
    Orderer.FinishKeeps(s.ord, done);
    Orderer.RestartMembers(s.ord.overlapping, g, done);
    assert forall t :: t in s.ord.overlapping ==> t.id in Orderer.Ids(s.ord.overlapping);
    assert c in Orderer.Ids(s.ord.ongoing);
    forall p | p in Orderer.Ids(s.ord.ongoing) && p != c ensures p in Orderer.Ids(o'.ongoing) {
      var t :| t in s.ord.ongoing && t.id == p;
      assert t in o'.ongoing;
    }
    forall p | p in Orderer.Ids(s.ord.overlapping) && p != c
      ensures p in Orderer.Ids(o'.ongoing) || p in Orderer.Ids(o'.overlapping)
    {
      var t :| t in s.ord.overlapping && t.id == p;
      assert t in o'.ongoing || t in o'.overlapping;
    }
  }

  /** At most one request is active on a line. */
  lemma ActiveAlone(s: System, a: nat)
    requires OrdererInv(s) && WellFormed(s) && a < |s.mem|
    ensures OneTxn(ViewAt(s, a))
  {
    var v := ViewAt(s, a);
    forall r: nat, q: nat | Active(v, r) && Active(v, q) ensures r == q {
      ListedTx(s, r);
      ListedTx(s, q);
      assert Orderer.Meets(SnoopTx(r, a), SnoopTx(q, a));
    }
  }

  /** u is a line before the orderer restarted those it held back. */
  ghost predicate BeforeRestart(s: System, a: nat, u: View)
    requires WellFormed(s) && a < |s.mem|
  {
    var w := ViewAt(s, a);
    && u.copies == w.copies && u.writes == w.writes && u.mem == w.mem && |u.txns| == |w.txns|
    && forall q :: 0 <= q < |u.txns| && u.txns[q] != w.txns[q] ==>
         u.txns[q].None? && IsFresh(w.txns[q].value, q, |s.caches|)
  }

  lemma RestartAdds(s: System, a: nat, u: View, r: nat)
    requires WellFormed(s) && a < |s.mem| && BeforeRestart(s, a, u) && OneTxn(ViewAt(s, a))
    requires r < |u.txns| && u.txns[r] != ViewAt(s, a).txns[r]
    ensures var w := ViewAt(s, a);
      && Active(w, r)
      && (forall q: nat :: !Active(u, q))
      && w == u.(txns := u.txns[r := w.txns[r]])
  {
    var w := ViewAt(s, a);
    assert Active(w, r);
    forall q: nat ensures !Active(u, q) {
      assert Active(u, q) ==> Active(w, q);
    }
    forall q | 0 <= q < |u.txns| && q != r ensures u.txns[q] == w.txns[q] {
      assert !Active(w, q);
    }
    assert w.txns == u.txns[r := w.txns[r]];
  }

  lemma RestartKeepsLine(s: System, a: nat, u: View, latest: Data)
    requires CachesInv(s) && OrdererInv(s) && WellFormed(s) && a < |s.mem|
    requires BeforeRestart(s, a, u) && LineInv(u, latest)
    ensures LineInv(ViewAt(s, a), latest)
  {
    ActiveAlone(s, a);
    if u.txns != ViewAt(s, a).txns {
      var r :| 0 <= r < |u.txns| && u.txns[r] != ViewAt(s, a).txns[r];
      RestartAdds(s, a, u, r);
      StartKeeps(u, r, ViewAt(s, a).txns[r].value, latest);
    }
  }

  // ---- done events of line writes ----

  lemma FinishWriteOrderer(s: System, c: nat)
    requires CachesInv(s) && OrdererInv(s) && Started(s, c) && c < |s.caches| && s.caches[c].thread.Writing?
    requires WellFormed(s)
    ensures CachesInv(FinishWrite(s, c)) && OrdererInv(FinishWrite(s, c))
  {
    var s' := FinishWrite(s, c);
    FinishIds(s, c);
    forall x | x in s'.ord.ongoing || x in s'.ord.overlapping ensures Listed(s', x) {
      assert Listed(s, x);
      assert x.id in Orderer.Ids(s'.ord.ongoing) || x.id in Orderer.Ids(s'.ord.overlapping);
    }
  }

  /** Waiting requests appear on their line when the orderer restarts them. */
  lemma RestartedTxns(s: System, c: nat, s': System, a: nat, q: nat)
    requires OrdererInv(s) && Started(s, c) && c < |s.caches|
    requires s'.ord == Orderer.Finish(s.ord, TxOf(c, s.caches[c].thread))
    requires |s'.caches| == |s.caches| && q < |s.caches| && !Busy(s'.caches[c].thread)
    requires q != c ==> s'.caches[q].thread == s.caches[q].thread
    ensures TxnAt(s', c, a).None?
    ensures q != c && TxnAt(s, q, a) != TxnAt(s', q, a) ==>
              TxnAt(s, q, a).None? && IsFresh(TxnAt(s', q, a).value, q, |s.caches|)
  {
    FinishIds(s, c);
  }

  /** The victim's line as the cache and the memory leave it. */
  function WrittenOff(s: System, c: nat, a: nat, v: View): View
    requires c < |s.caches| && s.caches[c].thread.Writing? && c < |v.writes| && c < |v.copies|
  {
    if a == s.caches[c].thread.victim then v.(writes := v.writes[c := NoWrite], copies := v.copies[c := None]) else v
  }

  lemma FinishWriteViews(s: System, c: nat, a: nat)
    requires CachesInv(s) && OrdererInv(s) && WellFormed(s)
    requires Started(s, c) && c < |s.caches| && s.caches[c].thread.Writing?
    requires a < |s.mem|
    ensures WellFormed(FinishWrite(s, c)) && BeforeRestart(FinishWrite(s, c), a, WrittenOff(s, c, a, ViewAt(s, a)))
  {
    var s' := FinishWrite(s, c);
    var u, w := WrittenOff(s, c, a, ViewAt(s, a)), ViewAt(s', a);
    assert u.copies == w.copies;
    assert u.writes == w.writes;
    forall q | 0 <= q < |u.txns| && u.txns[q] != w.txns[q]
      ensures u.txns[q].None? && IsFresh(w.txns[q].value, q, |s.caches|)
    {
      RestartedTxns(s, c, s', a, q);
    }
  }

  lemma FinishWriteKeeps(s: System, c: nat, flat: seq<Data>)
    requires SysInv(s, flat) && Started(s, c)
    requires c < |s.caches| && s.caches[c].thread.Writing? && s.caches[c].thread.written
    ensures SysInv(FinishWrite(s, c), flat)
  {
    var s' := FinishWrite(s, c);
    FinishWriteOrderer(s, c);
    forall a | 0 <= a < |s.mem| ensures LineInv(ViewAt(s', a), flat[a]) {
      var v := ViewAt(s, a);
      if a == s.caches[c].thread.victim {
        DropKeeps(v, c, flat[a]);
      }
      FinishWriteViews(s, c, a);
      RestartKeepsLine(s', a, WrittenOff(s, c, a, v), flat[a]);
    }
  }

  // ---- done events of snooping requests ----

  lemma FinishTxnOrderer(s: System, c: nat)
    requires CachesInv(s) && OrdererInv(s) && Started(s, c) && c < |s.caches| && s.caches[c].thread.Waiting?
    requires WellFormed(s)
    ensures CachesInv(FinishTxn(s, c)) && OrdererInv(FinishTxn(s, c))
  {
    var s' := FinishTxn(s, c);
    FinishIds(s, c);
    forall x | x in s'.ord.ongoing || x in s'.ord.overlapping ensures Listed(s', x) {
      assert Listed(s, x);
      assert x.id in Orderer.Ids(s'.ord.ongoing) || x.id in Orderer.Ids(s'.ord.overlapping);
    }
  }

  /** The requested line as its cache installs it. */
  function TakenIn(s: System, c: nat, a: nat, v: View): View
    requires c < |s.caches| && s.caches[c].thread.Waiting?
    requires c < |v.copies| && c < |v.txns|
  {
    var line := s.caches[c].thread.op.line;
    if a == line && v.txns[c].Some? then CompleteView(v, c, line) else v
  }

  lemma InstalledCopies(s: System, c: nat, a: nat)
    requires CachesInv(s) && WellFormed(s) && c < |s.caches| && s.caches[c].thread.Waiting?
    ensures var th, lines := s.caches[c].thread, s.caches[c].lines;
            var after := Installed(lines, th.op, th.txn);
      && |after| == |lines|
      && CopyAt(after, a) == if a == th.op.line then Install(th.txn, a, CopyAt(lines, a)) else CopyAt(lines, a)
  {
  }

  lemma FinishTxnViews(s: System, c: nat, a: nat)
    requires CachesInv(s) && OrdererInv(s) && WellFormed(s)
    requires Started(s, c) && c < |s.caches| && s.caches[c].thread.Waiting?
    requires a < |s.mem|
    ensures WellFormed(FinishTxn(s, c)) && BeforeRestart(FinishTxn(s, c), a, TakenIn(s, c, a, ViewAt(s, a)))
  {
    var s' := FinishTxn(s, c);
    InstalledCopies(s, c, a);
    var u, w := TakenIn(s, c, a, ViewAt(s, a)), ViewAt(s', a);
    assert u.copies == w.copies;
    assert u.writes == w.writes;
    forall q | 0 <= q < |u.txns| && u.txns[q] != w.txns[q]
      ensures u.txns[q].None? && IsFresh(w.txns[q].value, q, |s.caches|)
    {
      RestartedTxns(s, c, s', a, q);
    }
  }

  /** A MakeUnique leaves the cache with whatever its line buffer held, until the
      store that follows in the same step. */
  function AfterTxn(s: System, c: nat, flat: seq<Data>): seq<Data>
    requires c < |s.caches| && s.caches[c].thread.Waiting?
  {
    var th := s.caches[c].thread;
    if th.txn.kind == MakeUnique && th.op.line < |flat| then flat[th.op.line := th.txn.data] else flat
  }

  lemma FinishTxnKeeps(s: System, c: nat, flat: seq<Data>)
    requires SysInv(s, flat) && Started(s, c)
    requires c < |s.caches| && s.caches[c].thread.Waiting? && s.caches[c].thread.txn.phase == Done
    ensures SysInv(FinishTxn(s, c), AfterTxn(s, c, flat))
  {
    var s' := FinishTxn(s, c);
    var th := s.caches[c].thread;
    FinishTxnOrderer(s, c);
    forall a | 0 <= a < |s.mem| ensures LineInv(ViewAt(s', a), AfterTxn(s, c, flat)[a]) {
      var v := ViewAt(s, a);
      if a == th.op.line && th.txn.kind == MakeUnique {
        MakeKeeps(v, c, a, flat[a], th.txn.data);
      } else if a == th.op.line {
        CompleteKeeps(v, c, a, flat[a]);
      }
      FinishTxnViews(s, c, a);
      RestartKeepsLine(s', a, TakenIn(s, c, a, v), AfterTxn(s, c, flat)[a]);
    }
  }
}
