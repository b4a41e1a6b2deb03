/** The inductive invariant of the coherent system and the effect of each piece
    of a step on it. */
module AceInvariant {
  import opened AceTypes
  import opened Common
  import opened CacheLines
  import opened LineProtocol
  import opened LineProofs
  import opened AceSystem
  import Orderer

  /** Loads fetch a copy to share, stores a copy to own. */
  predicate KindFits(op: Op, kind: Request) {
    match op
    case Load(_, _, _) => kind in {ReadShared, ReadNotSharedDirty}
    case Store(_, _, _, _) => kind.Invalidates() && (kind == MakeUnique ==> FullLine(op))
  }

  /** What a thread's place says about its own cache. */
  ghost predicate ThreadInv(cache: Cache, c: nat, n: nat, memLines: nat)
    requires |cache.lines| > 0
  {
    match cache.thread
    case Idle => true
    case Ready(op) => OpOk(op, memLines)
    case Writing(op, next, victim, back, written) =>
      && OpOk(op, memLines) && next != CleanUnique && KindFits(op, next)
      && Index(victim, |cache.lines|) == Index(op.line, |cache.lines|)
      && InCache(cache.lines, victim) && victim < memLines
    case Waiting(op, t) =>
      && OpOk(op, memLines) && KindFits(op, t.kind)
      && var l := cache.lines[Index(op.line, |cache.lines|)];
         if t.kind == CleanUnique then l.valid ==> l.tag == op.line && l.shared
         else !l.valid
  }

  ghost predicate CachesInv(s: System)
  {
    forall c :: 0 <= c < |s.caches| ==>
      Placed(s.caches[c].lines, |s.mem|) && ThreadInv(s.caches[c], c, |s.caches|, |s.mem|)
  }

  predicate Busy(th: Thread) {
    th.Writing? || th.Waiting?
  }

  /** The entry a busy thread has in one of the orderer's lists. */
  function TxOf(c: nat, th: Thread): Orderer.Tx
    requires Busy(th)
  {
    if th.Writing? then WriteTx(c, th.victim) else SnoopTx(c, th.op.line)
  }

  ghost predicate Listed(s: System, t: Orderer.Tx) {
    && t.id < |s.caches|
    && Busy(s.caches[t.id].thread)
    && t == TxOf(t.id, s.caches[t.id].thread)
  }

  ghost predicate OrdererInv(s: System)
  {
    && Orderer.Inv(s.ord)
    && (forall t :: t in s.ord.ongoing || t in s.ord.overlapping ==> Listed(s, t))
    && (forall c :: 0 <= c < |s.caches| && Busy(s.caches[c].thread) ==>
          c in Orderer.Ids(s.ord.ongoing) || c in Orderer.Ids(s.ord.overlapping))
    && (forall c :: 0 <= c < |s.caches| && s.caches[c].thread.Waiting? && !Started(s, c) ==>
          IsFresh(s.caches[c].thread.txn, c, |s.caches|))
  }

  ghost predicate LinesInv(s: System, flat: seq<Data>)
    requires WellFormed(s)
  {
    && |flat| == |s.mem|
    && forall a :: 0 <= a < |s.mem| ==> LineInv(ViewAt(s, a), flat[a])
  }

  ghost predicate SysInv(s: System, flat: seq<Data>)
  {
    && CachesInv(s)
    && OrdererInv(s)
    && WellFormed(s)
    && LinesInv(s, flat)
  }

  // ---- issuing a request ----

  lemma ArriveIds(o: Orderer.State, t: Orderer.Tx)
    ensures var o' := Orderer.Arrive(o, t);
            if Orderer.MustWait(o, t) then
              && Orderer.Ids(o'.ongoing) == Orderer.Ids(o.ongoing)
              && Orderer.Ids(o'.overlapping) == Orderer.Ids(o.overlapping) + {t.id}
            else
              && Orderer.Ids(o'.ongoing) == Orderer.Ids(o.ongoing) + {t.id}
              && Orderer.Ids(o'.overlapping) == Orderer.Ids(o.overlapping)
  {
    assert forall x :: x in o.ongoing + [t] <==> x in o.ongoing || x == t;
    assert forall x :: x in o.overlapping + [t] <==> x in o.overlapping || x == t;
  }

  /** The orderer knows an id exactly by the entry of that cache's thread. */
  lemma ListedTx(s: System, c: nat)
    requires OrdererInv(s)
    ensures c in Orderer.Ids(s.ord.ongoing) ==>
              c < |s.caches| && Busy(s.caches[c].thread) && TxOf(c, s.caches[c].thread) in s.ord.ongoing
    ensures c in Orderer.Ids(s.ord.overlapping) ==>
              c < |s.caches| && s.caches[c].thread.Waiting? && TxOf(c, s.caches[c].thread) in s.ord.overlapping
  {
    if c in Orderer.Ids(s.ord.ongoing) {
      var t :| t in s.ord.ongoing && t.id == c;
      assert Listed(s, t);
    }
    if c in Orderer.Ids(s.ord.overlapping) {
      var t :| t in s.ord.overlapping && t.id == c;
      assert Listed(s, t);
    }
  }

  /** Two requests of one line never run together. */
  lemma StartsAlone(s: System, c: nat, line: nat)
    requires OrdererInv(s) && WellFormed(s) && line < |s.mem|
    requires !Orderer.MustWait(s.ord, SnoopTx(c, line))
    ensures forall q: nat :: !Active(ViewAt(s, line), q)
  {
    forall q: nat ensures !Active(ViewAt(s, line), q) {
      ListedTx(s, q);
    }
  }

  /** Thread c may issue a request of this kind. */
  ghost predicate MayIssue(s: System, c: nat, op: Op, kind: Request)
  {
    && c < |s.caches| && s.caches[c].thread == Ready(op) && |s.caches[c].lines| > 0
    && KindFits(op, kind)
    && var l := s.caches[c].lines[Index(op.line, |s.caches[c].lines|)];
       if kind == CleanUnique then l.valid && l.tag == op.line && l.shared else !l.valid
  }

  lemma IssueTxnOrderer(s: System, c: nat, op: Op, kind: Request)
    requires CachesInv(s) && OrdererInv(s) && MayIssue(s, c, op, kind)
    ensures CachesInv(IssueTxn(s, c, op, kind)) && OrdererInv(IssueTxn(s, c, op, kind))
  {
    var s' := IssueTxn(s, c, op, kind);
    var t := SnoopTx(c, op.line);
    ListedTx(s, c);
    ArriveIds(s.ord, t);
    Orderer.ArriveKeeps(s.ord, t);
    forall x | x in s'.ord.ongoing || x in s'.ord.overlapping ensures Listed(s', x) {
      if x != t {
        assert Listed(s, x);
        assert x.id in Orderer.Ids(s.ord.ongoing) || x.id in Orderer.Ids(s.ord.overlapping);
      }
    }
  }

  lemma IssueTxnViews(s: System, c: nat, op: Op, kind: Request, a: nat)
    requires WellFormed(s) && c < |s.caches| && a < |s.mem|
    requires !Started(s, c) && !Busy(s.caches[c].thread)
    ensures var v, s' := ViewAt(s, a), IssueTxn(s, c, op, kind);
            ViewAt(s', a) == if a == op.line && !Orderer.MustWait(s.ord, SnoopTx(c, op.line))
                             then v.(txns := v.txns[c := Some(s'.caches[c].thread.txn)]) else v
  {
    var s' := IssueTxn(s, c, op, kind);
    var v, w := ViewAt(s, a), ViewAt(s', a);
    ArriveIds(s.ord, SnoopTx(c, op.line));
    assert forall p :: 0 <= p < |s.caches| && p != c ==> TxnAt(s', p, a) == TxnAt(s, p, a);
    assert w.copies == v.copies;
    assert w.writes == v.writes;
    if a == op.line && !Orderer.MustWait(s.ord, SnoopTx(c, op.line)) {
      assert w.txns == v.txns[c := Some(s'.caches[c].thread.txn)];
    } else {
      assert w.txns == v.txns;
    }
  }

  lemma IssueTxnLine(s: System, c: nat, op: Op, kind: Request, a: nat, latest: Data)
    requires CachesInv(s) && OrdererInv(s) && WellFormed(s) && MayIssue(s, c, op, kind)
    requires a < |s.mem| && LineInv(ViewAt(s, a), latest)
    ensures LineInv(ViewAt(IssueTxn(s, c, op, kind), a), latest)
  {
    ListedTx(s, c);
    IssueTxnViews(s, c, op, kind, a);
    if a == op.line && !Orderer.MustWait(s.ord, SnoopTx(c, op.line)) {
      StartsAlone(s, c, a);
      StartKeeps(ViewAt(s, a), c, IssueTxn(s, c, op, kind).caches[c].thread.txn, latest);
    }
  }

  lemma IssueTxnKeeps(s: System, c: nat, op: Op, kind: Request, flat: seq<Data>)
    requires SysInv(s, flat) && MayIssue(s, c, op, kind)
    ensures SysInv(IssueTxn(s, c, op, kind), flat)
  {
    IssueTxnOrderer(s, c, op, kind);
    forall a | 0 <= a < |s.mem| ensures LineInv(ViewAt(IssueTxn(s, c, op, kind), a), flat[a]) {
      IssueTxnLine(s, c, op, kind, a, flat[a]);
    }
  }

  // ---- issuing a line write ----

  ghost predicate MayWrite(s: System, c: nat, op: Op, next: Request)
  {
    && c < |s.caches| && s.caches[c].thread == Ready(op) && |s.caches[c].lines| > 0
    && next != CleanUnique && KindFits(op, next)
    && var l := s.caches[c].lines[Index(op.line, |s.caches[c].lines|)];
       l.valid && l.dirty
  }

  lemma IssueWriteOrderer(s: System, c: nat, op: Op, next: Request, back: bool)
    requires CachesInv(s) && OrdererInv(s) && MayWrite(s, c, op, next)
    ensures CachesInv(IssueWrite(s, c, op, next, back)) && OrdererInv(IssueWrite(s, c, op, next, back))
  {
    var s' := IssueWrite(s, c, op, next, back);
    var t := WriteTx(c, s'.caches[c].thread.victim);
    ListedTx(s, c);
    ArriveIds(s.ord, t);
    Orderer.ArriveKeeps(s.ord, t);
    forall x | x in s'.ord.ongoing || x in s'.ord.overlapping ensures Listed(s', x) {
      if x != t {
        assert Listed(s, x);
        assert x.id in Orderer.Ids(s.ord.ongoing) || x.id in Orderer.Ids(s.ord.overlapping);
      }
    }
  }

  lemma IssueWriteViews(s: System, c: nat, op: Op, next: Request, back: bool, a: nat)
    requires WellFormed(s) && c < |s.caches| && a < |s.mem|
    requires !Busy(s.caches[c].thread)
    ensures var v, s' := ViewAt(s, a), IssueWrite(s, c, op, next, back);
            ViewAt(s', a) == if a == s'.caches[c].thread.victim then v.(writes := v.writes[c := Queued]) else v
  {
    var s' := IssueWrite(s, c, op, next, back);
    var v, w := ViewAt(s, a), ViewAt(s', a);
    ArriveIds(s.ord, WriteTx(c, s'.caches[c].thread.victim));
    assert w.copies == v.copies;
    assert w.txns == v.txns;
    if a == s'.caches[c].thread.victim {
      assert w.writes == v.writes[c := Queued];
    } else {
      assert w.writes == v.writes;
    }
  }

  lemma IssueWriteLine(s: System, c: nat, op: Op, next: Request, back: bool, a: nat, latest: Data)
    requires CachesInv(s) && WellFormed(s) && MayWrite(s, c, op, next)
    requires a < |s.mem| && LineInv(ViewAt(s, a), latest)
    ensures LineInv(ViewAt(IssueWrite(s, c, op, next, back), a), latest)
  {
    IssueWriteViews(s, c, op, next, back, a);
    if a == IssueWrite(s, c, op, next, back).caches[c].thread.victim {
      assert DirtyCopy(ViewAt(s, a), c);
      WriteBeginKeeps(ViewAt(s, a), c, latest);
    }
  }

  lemma IssueWriteKeeps(s: System, c: nat, op: Op, next: Request, back: bool, flat: seq<Data>)
    requires SysInv(s, flat) && MayWrite(s, c, op, next)
    ensures SysInv(IssueWrite(s, c, op, next, back), flat)
  {
    IssueWriteOrderer(s, c, op, next, back);
    forall a | 0 <= a < |s.mem| ensures LineInv(ViewAt(IssueWrite(s, c, op, next, back), a), flat[a]) {
      IssueWriteLine(s, c, op, next, back, a, flat[a]);
    }
  }

  // ---- giving up a clean line; the toggle ----

  /** The orderer is untouched while threads keep their entries. */
  lemma SameEntries(s: System, s': System)
    requires OrdererInv(s) && s'.ord == s.ord && |s'.caches| == |s.caches|
    requires forall c :: 0 <= c < |s.caches| ==>
               var th, th' := s.caches[c].thread, s'.caches[c].thread;
               && (Busy(th) <==> Busy(th'))
               && (Busy(th) ==> TxOf(c, th) == TxOf(c, th'))
               && (th'.Waiting? && !Started(s, c) ==> th' == th)
    ensures OrdererInv(s')
  {
    assert forall x :: Listed(s, x) ==> Listed(s', x);
  }

  /** Nothing an address can see has changed. */
  lemma SameLines(s: System, s': System, flat: seq<Data>)
    requires WellFormed(s) && LinesInv(s, flat)
    requires s'.mem == s.mem && s'.ord == s.ord && |s'.caches| == |s.caches|
    requires forall c :: 0 <= c < |s.caches| ==>
               && s'.caches[c].lines == s.caches[c].lines
               && (Busy(s.caches[c].thread) || Busy(s'.caches[c].thread) ==> s'.caches[c].thread == s.caches[c].thread)
    ensures WellFormed(s') && LinesInv(s', flat)
  {
    forall a | 0 <= a < |s.mem| ensures ViewAt(s', a) == ViewAt(s, a) {
      var v, w := ViewAt(s, a), ViewAt(s', a);
      assert w.copies == v.copies;
      assert w.txns == v.txns;
      assert w.writes == v.writes;
    }
  }

  lemma ToggleKeeps(s: System, c: nat, toggle: bool, flat: seq<Data>)
    requires SysInv(s, flat) && c < |s.caches|
    ensures SysInv(SetCache(s, c, s.caches[c].(toggle := toggle)), flat)
  {
    var s' := SetCache(s, c, s.caches[c].(toggle := toggle));
    SameEntries(s, s');
    SameLines(s, s', flat);
  }

  lemma DropLineLine(s: System, c: nat, op: Op, a: nat, latest: Data)
    requires WellFormed(s) && CachesInv(s) && c < |s.caches| && s.caches[c].thread == Ready(op)
    requires var l := s.caches[c].lines[Index(op.line, |s.caches[c].lines|)]; l.valid && !l.dirty
    requires a < |s.mem| && LineInv(ViewAt(s, a), latest)
    ensures LineInv(ViewAt(DropLine(s, c, op), a), latest)
  {
    var victim := s.caches[c].lines[Index(op.line, |s.caches[c].lines|)].tag;
    var v, w := ViewAt(s, a), ViewAt(DropLine(s, c, op), a);
    assert w.txns == v.txns && w.writes == v.writes;
    if a == victim {
      DropKeeps(v, c, latest);
      assert w == v.(writes := v.writes[c := NoWrite], copies := v.copies[c := None]);
    } else {
      assert w.copies == v.copies;
    }
  }

  lemma DropLineKeeps(s: System, c: nat, op: Op, flat: seq<Data>)
    requires SysInv(s, flat) && c < |s.caches| && s.caches[c].thread == Ready(op)
    requires var l := s.caches[c].lines[Index(op.line, |s.caches[c].lines|)]; l.valid && !l.dirty
    ensures SysInv(DropLine(s, c, op), flat)
  {
    var s' := DropLine(s, c, op);
    SameEntries(s, s');
    forall a | 0 <= a < |s.mem| ensures LineInv(ViewAt(s', a), flat[a]) {
      DropLineLine(s, c, op, a, flat[a]);
    }
  }

  lemma FillKeeps(s: System, c: nat, op: Op, kind: Request, flat: seq<Data>)
    requires SysInv(s, flat) && c < |s.caches| && s.caches[c].thread == Ready(op)
    requires kind != CleanUnique && KindFits(op, kind)
    ensures SysInv(Fill(s, c, op, kind), flat)
  {
    var cache := s.caches[c];
    var l := cache.lines[Index(op.line, |cache.lines|)];
    if l.valid && l.dirty {
      ToggleKeeps(s, c, !cache.toggle, flat);
      IssueWriteKeeps(SetCache(s, c, cache.(toggle := !cache.toggle)), c, op, kind, cache.toggle, flat);
    } else if l.valid {
      DropLineKeeps(s, c, op, flat);
      IssueTxnKeeps(DropLine(s, c, op), c, op, kind, flat);
    } else {
      IssueTxnKeeps(s, c, op, kind, flat);
    }
  }
}
