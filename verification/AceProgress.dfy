/** No deadlock, and no endless work: pending requests always have an enabled
    step, and without new requests all of them finish within a bound. */
module AceProgress {
  import opened AceTypes
  import opened Common
  import opened CacheLines
  import opened LineProtocol
  import opened LineProofs
  import opened AceSystem
  import opened AceInvariant
  import opened AceSteps
  import opened AceCoherence
  import Orderer

  ghost predicate AllIdle(s: System) {
    forall c :: 0 <= c < |s.caches| ==> s.caches[c].thread.Idle?
  }

  /** A started request always has a step, unless a snooped cache is writing. */
  lemma StartedCanStep(s: System, c: nat, flat: seq<Data>) returns (l: Label)
    requires SysInv(s, flat) && c < |s.caches| && s.caches[c].thread.Waiting? && Started(s, c)
    requires forall p :: 0 <= p < |s.caches| ==> !IsWriting(s.caches[p])
    ensures Enabled(s, l) && !l.Ask?
  {
    var th := s.caches[c].thread;
    var v := ViewAt(s, th.op.line);
    assert Active(v, c) && v.txns[c].value == th.txn;
    assert TxnInv(v, c, flat[th.op.line]);
    match th.txn.phase {
      case Snooping =>
        if AllMerged(th.txn) {
          l := Drained(c);
        } else {
          var p :| 0 <= p < |th.txn.ports| && !th.txn.ports[p].Merged?;
          l := if th.txn.ports[p].Pending? then Answer(c, p) else Collect(c, p);
        }
      case Push => l := Downstream(c);
      case Fetch => l := Downstream(c);
      case Done => l := Resume(c);
    }
  }

  /** A stalled request waits for one that has started, or for a line write. */
  lemma StalledWaitsForSomeone(s: System, c: nat) returns (d: nat)
    requires OrdererInv(s) && c < |s.caches| && Busy(s.caches[c].thread)
    ensures d < |s.caches| && Busy(s.caches[d].thread) && Started(s, d)
  {
    ListedTx(s, c);
    if Started(s, c) {
      d := c;
    } else {
      var u := TxOf(c, s.caches[c].thread);
      assert u in s.ord.overlapping;
      var t :| t in s.ord.ongoing && Orderer.Meets(u, t);
      d := t.id;
      ListedTx(s, d);
    }
  }

  /** No deadlock: line writes never stall, snoops wait only for line writes of
      the snooped cache, and stalled requests only for others that can move. */
  lemma PendingCanStep(s: System, flat: seq<Data>) returns (l: Label)
    requires SysInv(s, flat) && !AllIdle(s)
    ensures Enabled(s, l) && !l.Ask?
  {
    if c :| 0 <= c < |s.caches| && s.caches[c].thread.Ready? {
      l := Go(c);
    } else if c :| 0 <= c < |s.caches| && s.caches[c].thread.Writing? {
      l := if s.caches[c].thread.written then Resume(c) else Downstream(c);
    } else {
      var c :| 0 <= c < |s.caches| && !s.caches[c].thread.Idle?;
      var d := StalledWaitsForSomeone(s, c);
      l := StartedCanStep(s, d, flat);
    }
  }

  // ---- the measure ----

  function PortWork(ports: seq<Port>): nat
  {
    if ports == [] then 0
    else (if ports[0].Pending? then 2 else if ports[0].Answered? then 1 else 0) + PortWork(ports[1..])
  }

  function TxnWork(t: Txn): nat
  {
    match t.phase
    case Snooping => 4 + PortWork(t.ports)
    case Push => 3
    case Fetch => 2
    case Done => 1
  }

  /** More than any one request can take with n masters. */
  function TxnBound(n: nat): nat {
    2 * n + 5
  }

  /** The longest way of a store: a lost CleanUnique and then a ReadUnique; of a
      miss: a line write and then the request. */
  function ThreadWork(th: Thread, n: nat): nat
  {
    match th
    case Idle => 0
    case Ready(_) => 2 * TxnBound(n)
    case Writing(_, _, _, _, written) => TxnBound(n) + (if written then 0 else 1)
    case Waiting(_, t) => TxnWork(t) + (if t.kind == CleanUnique then TxnBound(n) else 0)
  }

  function Work(caches: seq<Cache>, n: nat): nat
  {
    if caches == [] then 0 else ThreadWork(caches[0].thread, n) + Work(caches[1..], n)
  }

  lemma {:induction false} PortWorkSet(ports: seq<Port>, p: nat, x: Port)
    requires p < |ports|
    ensures PortWork(ports[p := x]) == PortWork(ports) - PortWork([ports[p]]) + PortWork([x])
  {
    if p > 0 {
      assert ports[p := x][1..] == ports[1..][p - 1 := x];
      PortWorkSet(ports[1..], p - 1, x);
    } else {
      assert ports[p := x][1..] == ports[1..];
    }
  }

  lemma {:induction false} PortWorkBound(ports: seq<Port>)
    ensures PortWork(ports) <= 2 * |ports|
  {
    if ports != [] { PortWorkBound(ports[1..]); }
  }

  /** If only thread c changes, so does the sum. */
  lemma {:induction false} WorkDecreases(a: seq<Cache>, b: seq<Cache>, c: nat, n: nat)
    requires |a| == |b| && c < |a|
    requires forall p :: 0 <= p < |a| && p != c ==> a[p].thread == b[p].thread
    requires ThreadWork(b[c].thread, n) < ThreadWork(a[c].thread, n)
    ensures Work(b, n) < Work(a, n)
  {
    if c == 0 {
      WorkSame(a[1..], b[1..], n);
    } else {
      WorkDecreases(a[1..], b[1..], c - 1, n);
    }
  }

  lemma {:induction false} WorkSame(a: seq<Cache>, b: seq<Cache>, n: nat)
    requires |a| == |b| && forall p :: 0 <= p < |a| ==> a[p].thread == b[p].thread
    ensures Work(b, n) == Work(a, n)
  {
    if a != [] { WorkSame(a[1..], b[1..], n); }
  }

  /** A new request is less work than a lookup, whichever way the miss goes. */
  lemma IssueWork(s: System, c: nat, op: Op, kind: Request)
    requires c < |s.caches| && |s.caches[c].lines| > 0
    ensures var th := IssueTxn(s, c, op, kind).caches[c].thread;
            ThreadWork(th, |s.caches|) < (if kind == CleanUnique then 2 else 1) * TxnBound(|s.caches|)
  {
    var n := |s.caches|;
    var t := IssueTxn(s, c, op, kind).caches[c].thread.txn;
    PortWorkSet(seq(n, p => Pending), c, Merged);
    assert seq(n, p => Pending)[c := Merged] == t.ports;
    PortWorkBound(seq(n, p => Pending));
  }

  lemma FillWork(s: System, c: nat, op: Op, kind: Request)
    requires c < |s.caches| && |s.caches[c].lines| > 0 && kind != CleanUnique
    ensures var s', n := Fill(s, c, op, kind), |s.caches|;
      && |s'.caches| == n
      && (forall p :: 0 <= p < n && p != c ==> s'.caches[p].thread == s.caches[p].thread)
      && ThreadWork(s'.caches[c].thread, n) <
           (if s.caches[c].lines[Index(op.line, |s.caches[c].lines|)].valid then 2 else 1) * TxnBound(n)
  {
    IssueWork(s, c, op, kind);
    IssueWork(DropLine(s, c, op), c, op, kind);
  }

  lemma ContinueWork(s: System, c: nat, op: Op)
    requires c < |s.caches| && |s.caches[c].lines| > 0 && OpOk(op, |s.mem|)
    ensures var s', n := Continue(s, c, op).0, |s.caches|;
      && |s'.caches| == n
      && (forall p :: 0 <= p < n && p != c ==> s'.caches[p].thread == s.caches[p].thread)
      && ThreadWork(s'.caches[c].thread, n) <
           (if s.caches[c].lines[Index(op.line, |s.caches[c].lines|)].valid then 2 else 1) * TxnBound(n)
  {
    var cache := s.caches[c];
    match op {
      case Load(_, _, _) =>
        var kind := if !cache.toggle then ReadShared else ReadNotSharedDirty;
        FillWork(SetCache(s, c, cache.(toggle := !cache.toggle)), c, op, kind);
      case Store(_, _, _, _) =>
        IssueWork(s, c, op, CleanUnique);
        FillWork(s, c, op, if FullLine(op) then MakeUnique else ReadUnique);
    }
  }

  lemma GoWork(s: System, c: nat)
    requires Enabled(s, Go(c))
    ensures Work(Step(s, Go(c)).0.caches, |s.caches|) < Work(s.caches, |s.caches|)
  {
    ContinueWork(s, c, s.caches[c].thread.op);
    WorkDecreases(s.caches, Step(s, Go(c)).0.caches, c, |s.caches|);
  }

  lemma DrainedWork(s: System, c: nat)
    requires Enabled(s, Drained(c))
    ensures Work(Step(s, Drained(c)).0.caches, |s.caches|) < Work(s.caches, |s.caches|)
  {
    WorkDecreases(s.caches, Step(s, Drained(c)).0.caches, c, |s.caches|);
  }

  lemma DownstreamWork(s: System, c: nat)
    requires Enabled(s, Downstream(c))
    ensures Work(Step(s, Downstream(c)).0.caches, |s.caches|) < Work(s.caches, |s.caches|)
  {
    WorkDecreases(s.caches, Step(s, Downstream(c)).0.caches, c, |s.caches|);
  }

  lemma AnswerWork(s: System, c: nat, p: nat)
    requires Enabled(s, Answer(c, p))
    ensures var s' := Step(s, Answer(c, p)).0;
            Work(s'.caches, |s.caches|) < Work(s.caches, |s.caches|)
  {
    var s' := Step(s, Answer(c, p)).0;
    var t := s.caches[c].thread.txn;
    PortWorkSet(t.ports, p, s'.caches[c].thread.txn.ports[p]);
    WorkDecreases(s.caches, s'.caches, c, |s.caches|);
  }

  lemma CollectWork(s: System, c: nat, p: nat)
    requires Enabled(s, Collect(c, p))
    ensures Work(Step(s, Collect(c, p)).0.caches, |s.caches|) < Work(s.caches, |s.caches|)
  {
    PortWorkSet(s.caches[c].thread.txn.ports, p, Merged);
    WorkDecreases(s.caches, Step(s, Collect(c, p)).0.caches, c, |s.caches|);
  }

  /** After do_tlm the access hits, unless a CleanUnique lost its line. */
  lemma FinishedHits(s: System, c: nat, flat: seq<Data>)
    requires SysInv(s, flat) && Enabled(s, Resume(c)) && s.caches[c].thread.Waiting?
    ensures var s1, th := FinishTxn(s, c), s.caches[c].thread;
            var l := s1.caches[c].lines[Index(th.op.line, |s1.caches[c].lines|)];
            if l.valid then l.tag == th.op.line && (th.op.Store? ==> !l.shared)
            else th.txn.kind == CleanUnique
  {
    var th := s.caches[c].thread;
    var v := ViewAt(s, th.op.line);
    assert Active(v, c) && v.txns[c].value == th.txn;
    assert TxnInv(v, c, flat[th.op.line]);
  }

  lemma HitEnds(s: System, c: nat, op: Op)
    requires c < |s.caches| && |s.caches[c].lines| > 0 && OpOk(op, |s.mem|)
    requires InCache(s.caches[c].lines, op.line)
    requires op.Store? ==> !s.caches[c].lines[Index(op.line, |s.caches[c].lines|)].shared
    ensures var s' := Continue(s, c, op).0;
      && |s'.caches| == |s.caches| && s'.caches[c].thread == Idle
      && (forall p :: 0 <= p < |s.caches| && p != c ==> s'.caches[p].thread == s.caches[p].thread)
  {
  }

  /** What is left to do after do_tlm returned: nothing, or after a lost
      CleanUnique one more request. */
  lemma ResumedWork(s: System, c: nat, flat: seq<Data>)
    requires SysInv(s, flat) && Enabled(s, Resume(c)) && s.caches[c].thread.Waiting?
    ensures var s', n := Continue(FinishTxn(s, c), c, s.caches[c].thread.op).0, |s.caches|;
      && |s'.caches| == n
      && (forall p :: 0 <= p < n && p != c ==> s'.caches[p].thread == s.caches[p].thread)
      && ThreadWork(s'.caches[c].thread, n) < (if s.caches[c].thread.txn.kind == CleanUnique then TxnBound(n) else 1)
  {
    var th, s1 := s.caches[c].thread, FinishTxn(s, c);
    FinishedHits(s, c, flat);
    if s1.caches[c].lines[Index(th.op.line, |s1.caches[c].lines|)].valid {
      HitEnds(s1, c, th.op);
    } else {
      ContinueWork(s1, c, th.op);
    }
  }

  lemma ResumeTxnWork(s: System, c: nat, flat: seq<Data>)
    requires SysInv(s, flat) && Enabled(s, Resume(c)) && s.caches[c].thread.Waiting?
    ensures Work(Step(s, Resume(c)).0.caches, |s.caches|) < Work(s.caches, |s.caches|)
  {
    ResumedWork(s, c, flat);
    WorkDecreases(s.caches, Step(s, Resume(c)).0.caches, c, |s.caches|);
  }

  lemma ResumeWriteWork(s: System, c: nat, flat: seq<Data>)
    requires SysInv(s, flat) && Enabled(s, Resume(c)) && s.caches[c].thread.Writing?
    ensures Work(Step(s, Resume(c)).0.caches, |s.caches|) < Work(s.caches, |s.caches|)
  {
    var th := s.caches[c].thread;
    IssueWork(FinishWrite(s, c), c, th.op, th.next);
    WorkDecreases(s.caches, Step(s, Resume(c)).0.caches, c, |s.caches|);
  }

  /** Every step that is not a new request brings all requests nearer their end. */
  lemma StepsReduceWork(s: System, l: Label, flat: seq<Data>)
    requires SysInv(s, flat) && Enabled(s, l) && !l.Ask?
    ensures Work(Step(s, l).0.caches, |s.caches|) < Work(s.caches, |s.caches|)
  {
    match l {
      case Go(c) => GoWork(s, c);
      case Answer(c, p) => AnswerWork(s, c, p);
      case Collect(c, p) => CollectWork(s, c, p);
      case Drained(c) => DrainedWork(s, c);
      case Downstream(c) => DownstreamWork(s, c);
      case Resume(c) =>
        if s.caches[c].thread.Waiting? { ResumeTxnWork(s, c, flat); } else { ResumeWriteWork(s, c, flat); }
    }
  }

  // ---- from every reachable state ----

  /** A run of enabled steps without new requests. */
  ghost predicate Quiet(s: System, labels: seq<Label>)
    decreases labels
  {
    labels == [] || (Enabled(s, labels[0]) && !labels[0].Ask? && Quiet(Step(s, labels[0]).0, labels[1..]))
  }

  ghost function After(s: System, labels: seq<Label>): System
    requires Quiet(s, labels)
    decreases labels
  {
    if labels == [] then s else After(Step(s, labels[0]).0, labels[1..])
  }

  lemma StepKeepsCount(s: System, l: Label)
    requires Enabled(s, l)
    ensures |Step(s, l).0.caches| == |s.caches|
  {
  }

  /** Whatever order the scheduler picks, only so many steps fit. */
  lemma {:induction false} QuietRunsAreShort(s: System, labels: seq<Label>, flat: seq<Data>)
    requires SysInv(s, flat) && Quiet(s, labels)
    ensures |labels| + Work(After(s, labels).caches, |s.caches|) <= Work(s.caches, |s.caches|)
    decreases labels
  {
    if labels != [] {
      var (s', e) := Step(s, labels[0]);
      StepKeeps(s, labels[0], flat);
      StepsReduceWork(s, labels[0], flat);
      StepKeepsCount(s, labels[0]);
      QuietRunsAreShort(s', labels[1..], Apply(flat, e));
    }
  }

  /** No deadlock and no livelock: in any reachable state with requests pending a
      step is enabled, and every run without new requests is bounded, so it can
      only end with every cache idle. */
  lemma AllRequestsFinish(s: System, labels: seq<Label>, quiet: seq<Label>)
    requires Initial(s)
    requires Quiet(Run(s, labels).0, quiet)
    ensures var s' := Run(s, labels).0; |quiet| <= Work(s'.caches, |s'.caches|)
    ensures (forall l :: Enabled(After(Run(s, labels).0, quiet), l) ==> l.Ask?) ==>
              AllIdle(After(Run(s, labels).0, quiet))
  {
    RunsAreCoherent(s, labels);
    var s' := Run(s, labels).0;
    QuietRunsAreShort(s', quiet, FlatAfter(s, labels));
    var flat := QuietKeeps(s', quiet, FlatAfter(s, labels));
    if !AllIdle(After(s', quiet)) {
      var l := PendingCanStep(After(s', quiet), flat);
    }
  }

  lemma {:induction false} QuietKeeps(s: System, labels: seq<Label>, flat: seq<Data>) returns (flat': seq<Data>)
    requires SysInv(s, flat) && Quiet(s, labels)
    ensures SysInv(After(s, labels), flat')
    decreases labels
  {
    if labels == [] {
      flat' := flat;
    } else {
      StepKeeps(s, labels[0], flat);
      flat' := QuietKeeps(Step(s, labels[0]).0, labels[1..], Apply(flat, Step(s, labels[0]).1));
    }
  }
}
