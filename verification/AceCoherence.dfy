/** The main results: over every run, any number of write-back caches behind the
    interconnect behave like one flat byte memory. */
module AceCoherence {
  import opened AceTypes
  import opened Common
  import opened CacheLines
  import opened LineProtocol
  import opened LineProofs
  import opened AceSystem
  import opened AceInvariant
  import opened AceSteps
  import Orderer

  /** A store of a whole line does not depend on what the line held. */
  lemma MergeFull(d: Data, d': Data, bytes: seq<byte>, en: seq<bool>)
    requires |bytes| == CACHELINE_SZ && |en| == |bytes| && forall i :: 0 <= i < |en| ==> en[i]
    ensures Merge(d, 0, bytes, en) == Merge(d', 0, bytes, en)
  {
  }

  /** A completed MakeUnique is followed at once by the store that asked for it,
      so what the line buffer held never shows. */
  lemma MakeThenStore(s: System, c: nat, flat: seq<Data>)
    requires CachesInv(s) && c < |s.caches| && |flat| == |s.mem|
    requires s.caches[c].thread.Waiting? && s.caches[c].thread.txn.kind == MakeUnique
    ensures var op := s.caches[c].thread.op;
            var e := Continue(FinishTxn(s, c), c, op).1;
            && e == Stored(op.line, op.off, op.bytes, op.en)
            && Apply(AfterTxn(s, c, flat), e) == Apply(flat, e)
  {
    var th := s.caches[c].thread;
    var flat1 := AfterTxn(s, c, flat);
    MergeFull(flat[th.op.line], flat1[th.op.line], th.op.bytes, th.op.en);
  }

  lemma ResumeTxnKeeps(s: System, c: nat, flat: seq<Data>)
    requires SysInv(s, flat) && Enabled(s, Resume(c)) && s.caches[c].thread.Waiting?
    ensures var (s', e) := Step(s, Resume(c)); SysInv(s', Apply(flat, e)) && Returns(flat, e)
  {
    FinishTxnKeeps(s, c, flat);
    ContinueKeeps(FinishTxn(s, c), c, s.caches[c].thread.op, AfterTxn(s, c, flat));
    if s.caches[c].thread.txn.kind == MakeUnique {
      MakeThenStore(s, c, flat);
    }
  }

  lemma ResumeWriteKeeps(s: System, c: nat, flat: seq<Data>)
    requires SysInv(s, flat) && Enabled(s, Resume(c)) && s.caches[c].thread.Writing?
    ensures SysInv(Step(s, Resume(c)).0, flat)
  {
    var th := s.caches[c].thread;
    ListedTx(s, c);
    FinishWriteKeeps(s, c, flat);
    IssueTxnKeeps(FinishWrite(s, c), c, th.op, th.next, flat);
  }

  lemma StepKeeps(s: System, l: Label, flat: seq<Data>)
    requires SysInv(s, flat) && Enabled(s, l)
    ensures var (s', e) := Step(s, l); SysInv(s', Apply(flat, e)) && Returns(flat, e)
  {
    match l {
      case Ask(c, op) => IdleKeeps(s, c, Ready(op), flat);
      case Go(c) => ContinueKeeps(s, c, s.caches[c].thread.op, flat);
      case Answer(c, p) => AnswerKeepsSystem(s, c, p, flat);
      case Collect(c, p) => CollectKeeps(s, c, p, flat);
      case Drained(c) => DrainedKeeps(s, c, flat);
      case Downstream(c) => DownstreamKeeps(s, c, flat);
      case Resume(c) =>
        if s.caches[c].thread.Waiting? {
          ResumeTxnKeeps(s, c, flat);
        } else {
          ResumeWriteKeeps(s, c, flat);
        }
    }
  }

  lemma InitialInv(s: System)
    requires Initial(s)
    ensures SysInv(s, s.mem)
  {
    forall a | 0 <= a < |s.mem| ensures LineInv(ViewAt(s, a), s.mem[a]) {
      var v := ViewAt(s, a);
      assert forall p: nat :: !Holds(v, p);
      assert forall p: nat :: !Active(v, p);
    }
  }

  /** Each load among the events has returned what the stores before it left. */
  ghost predicate Faithful(mem: seq<Data>, events: seq<Event>) {
    forall k :: 0 <= k < |events| ==> Returns(Flat(mem, events[..k]), events[k])
  }

  lemma FaithfulAppend(mem: seq<Data>, events: seq<Event>, e: Event)
    requires Faithful(mem, events) && Returns(Flat(mem, events), e)
    ensures Faithful(mem, events + [e]) && Flat(mem, events + [e]) == Apply(Flat(mem, events), e)
  {
    assert (events + [e])[..|events|] == events;
    forall k | 0 <= k < |events| + 1 ensures Returns(Flat(mem, (events + [e])[..k]), (events + [e])[k]) {
      assert k <= |events| ==> (events + [e])[..k] == events[..k];
    }
  }

  /** Refinement. After any run from reset, every load has returned exactly what
      a single flat memory holds when the stores are applied to it in the order
      in which they completed. */
  lemma {:induction false} RunsAreCoherent(s: System, labels: seq<Label>)
    requires Initial(s)
    ensures var (s', events) := Run(s, labels);
      |events| == |labels| && SysInv(s', Flat(s.mem, events)) && Faithful(s.mem, events)
  {
    if labels == [] {
      InitialInv(s);
    } else {
      var n := |labels| - 1;
      RunsAreCoherent(s, labels[..n]);
      var (before, past) := Run(s, labels[..n]);
      if Enabled(before, labels[n]) {
        StepKeeps(before, labels[n], Flat(s.mem, past));
        FaithfulAppend(s.mem, past, Step(before, labels[n]).1);
      } else {
        FaithfulAppend(s.mem, past, Tau);
      }
    }
  }

  // ---- what holds in every reachable state ----

  /** The flat memory that the events so far have built. */
  function FlatAfter(s: System, labels: seq<Label>): seq<Data> {
    Flat(s.mem, Run(s, labels).1)
  }

  predicate HoldsLine(s: System, c: nat, a: nat) {
    c < |s.caches| && |s.caches[c].lines| > 0 && InCache(s.caches[c].lines, a)
  }

  function LineOf(s: System, c: nat, a: nat): Line
    requires HoldsLine(s, c, a)
  {
    s.caches[c].lines[Index(a, |s.caches[c].lines|)]
  }

  lemma HeldInView(s: System, c: nat, a: nat)
    requires WellFormed(s) && a < |s.mem| && HoldsLine(s, c, a)
    ensures Holds(ViewAt(s, a), c) && ViewAt(s, a).copies[c].value == LineOf(s, c, a)
  {
  }

  lemma HeldInMemory(s: System, c: nat, a: nat)
    requires CachesInv(s) && HoldsLine(s, c, a)
    ensures a < |s.mem|
  {
  }

  /** Single writer, many readers; and all readers agree. */
  lemma SingleWriterAlways(s: System, labels: seq<Label>, c: nat, d: nat, a: nat)
    requires Initial(s)
    requires var s' := Run(s, labels).0; HoldsLine(s', c, a) && HoldsLine(s', d, a) && c != d
    ensures var s' := Run(s, labels).0;
      && LineOf(s', c, a).shared && LineOf(s', d, a).shared
      && !(LineOf(s', c, a).dirty && LineOf(s', d, a).dirty)
      && LineOf(s', c, a).data == LineOf(s', d, a).data
      && a < |s.mem| && LineOf(s', c, a).data == FlatAfter(s, labels)[a]
  {
    var s' := Run(s, labels).0;
    RunsAreCoherent(s, labels);
    HeldInMemory(s', c, a);
    HeldInView(s', c, a);
    HeldInView(s', d, a);
    var v := ViewAt(s', a);
    assert LineInv(v, FlatAfter(s, labels)[a]);
    assert DirtyCopy(v, c) && DirtyCopy(v, d) ==> c == d;
  }

  /** Who is responsible for a line that memory may not hold: a dirty cacheline,
      a dirty snoop answer before PortDone, the PassDirty result of a request, or
      the line the interconnect is about to push downstream. */
  datatype Owner = Copy(c: nat) | InAnswer(r: nat, p: nat) | Passed(r: nat) | Pushing(r: nat)

  predicate Owns(v: View, o: Owner) {
    match o
    case Copy(c) => c < |v.copies| && v.copies[c].Some? && v.copies[c].value.dirty
    case InAnswer(r, p) =>
      && r < |v.txns| && v.txns[r].Some? && p < |v.txns[r].value.ports|
      && v.txns[r].value.ports[p].Answered? && v.txns[r].value.ports[p].resp.dirty
    case Passed(r) => r < |v.txns| && v.txns[r].Some? && v.txns[r].value.dirty
    case Pushing(r) => r < |v.txns| && v.txns[r].Some? && v.txns[r].value.push.Some?
  }

  /** The bytes an owner answers for. */
  function OwnedData(v: View, o: Owner): Option<Data>
    requires Owns(v, o)
  {
    match o
    case Copy(c) => Some(v.copies[c].value.data)
    case InAnswer(r, p) => v.txns[r].value.ports[p].resp.data
    case Passed(r) => Some(v.txns[r].value.data)
    case Pushing(r) => v.txns[r].value.push
  }

  lemma OwnerIsUnique(v: View, o: Owner, o': Owner, latest: Data)
    requires LineInv(v, latest) && Owns(v, o) && Owns(v, o')
    ensures o == o'
  {
    OwnerKind(v, o, latest);
    OwnerKind(v, o', latest);
    if o.Copy? && o'.Copy? {
      assert DirtyCopy(v, o.c) && DirtyCopy(v, o'.c);
    }
  }

  /** An owner inside a transaction excludes dirty copies and other transactions. */
  lemma OwnerKind(v: View, o: Owner, latest: Data)
    requires LineInv(v, latest) && Owns(v, o)
    ensures if o.Copy? then DirtyCopy(v, o.c)
            else Active(v, o.r) && TxnInv(v, o.r, latest) && Carries(v.txns[o.r].value)
                 && (o.InAnswer? ==> DirtyResponse(v.txns[o.r].value, o.p))
  {
    if !o.Copy? {
      assert TxnInv(v, o.r, latest);
      if o.InAnswer? { assert DirtyResponse(v.txns[o.r].value, o.p); }
    }
  }

  lemma OwnerHasLatest(v: View, o: Owner, latest: Data)
    requires LineInv(v, latest) && Owns(v, o)
    ensures OwnedData(v, o) == Some(latest)
  {
    OwnerKind(v, o, latest);
    match o {
      case Copy(c) => assert Holds(v, c);
      case InAnswer(r, p) =>
        var t := v.txns[r].value;
        assert PortInv(t, t.ports[p], v.copies[p], latest);
      case _ =>
    }
  }

  lemma NoOwnerMeansMemory(v: View, latest: Data)
    requires LineInv(v, latest) && forall o :: !Owns(v, o)
    ensures v.mem == latest || BeingMade(v)
  {
    if p: nat :| DirtyCopy(v, p) {
      assert Owns(v, Copy(p));
    }
    if r: nat :| Active(v, r) && Carries(v.txns[r].value) {
      var t := v.txns[r].value;
      assert !Owns(v, Passed(r)) && !Owns(v, Pushing(r));
      var p: nat :| DirtyResponse(t, p);
      assert Owns(v, InAnswer(r, p));
    }
  }

  /** In every reachable state, each line of memory has at most one owner, the
      owner holds what the flat memory holds, and without an owner memory does:
      no eviction, WriteClean, snoop or push loses the latest value. The one
      exception is a line that a MakeUnique in flight is about to overwrite. */
  lemma LatestValueIsOwned(s: System, labels: seq<Label>, a: nat)
    requires Initial(s) && a < |s.mem|
    ensures var s' := Run(s, labels).0;
      && WellFormed(s') && |s'.mem| == |s.mem|
      && var v, latest := ViewAt(s', a), FlatAfter(s, labels)[a];
      && (forall o, o' :: Owns(v, o) && Owns(v, o') ==> o == o')
      && (forall o :: Owns(v, o) ==> OwnedData(v, o) == Some(latest))
      && ((forall o :: !Owns(v, o)) ==> v.mem == latest || BeingMade(v))
  {
    RunsAreCoherent(s, labels);
    var v, latest := ViewAt(Run(s, labels).0, a), FlatAfter(s, labels)[a];
    assert LineInv(v, latest);
    forall o, o' | Owns(v, o) && Owns(v, o') ensures o == o' { OwnerIsUnique(v, o, o', latest); }
    forall o | Owns(v, o) ensures OwnedData(v, o) == Some(latest) { OwnerHasLatest(v, o, latest); }
    if forall o :: !Owns(v, o) { NoOwnerMeansMemory(v, latest); }
  }
}
