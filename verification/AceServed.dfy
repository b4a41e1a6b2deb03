/** What the caches are asked is what they do: over every run, the operations each
    cache has accepted are, in order, those whose effects its steps report, and at
    most the one it is still busy with. */
module AceServed {
  import opened AceTypes
  import opened Common
  import opened CacheLines
  import opened AceSystem
  import opened AceInvariant
  import opened AceCoherence
  import opened AceProgress
  import opened LineProtocol
  import Orderer

  /** The operations that cache c has accepted. */
  function Accepted(s: System, labels: seq<Label>, c: nat): seq<Op> {
    if labels == [] then []
    else
      var n, l := |labels| - 1, labels[|labels| - 1];
      Accepted(s, labels[..n], c)
      + (if l.Ask? && l.c == c && Enabled(Run(s, labels[..n]).0, l) then [l.op] else [])
  }

  /** What the steps of cache c have reported. */
  function Reported(labels: seq<Label>, events: seq<Event>, c: nat): seq<Event>
    requires |labels| == |events|
  {
    if labels == [] then []
    else
      var n := |labels| - 1;
      Reported(labels[..n], events[..n], c) + (if labels[n].c == c && events[n] != Tau then [events[n]] else [])
  }

  /** The event is the effect of the operation: a load of its bytes, a store of its
      enabled bytes. */
  predicate Effect(op: Op, e: Event) {
    match op
    case Load(line, off, len) => e.Loaded? && e.line == line && e.off == off && |e.bytes| == len
    case Store(line, off, bytes, en) => e == Stored(line, off, bytes, en)
  }

  /** The accepted operations have had their effects in order, except for the last
      one while the thread is still at it. */
  ghost predicate Served(ops: seq<Op>, events: seq<Event>, th: Thread) {
    && |ops| == |events| + (if th.Idle? then 0 else 1)
    && (forall k :: 0 <= k < |events| ==> Effect(ops[k], events[k]))
    && (!th.Idle? ==> th.op == ops[|events|])
  }

  lemma {:induction false} EveryStepTold(s: System, labels: seq<Label>)
    ensures |Run(s, labels).1| == |labels| && |Run(s, labels).0.caches| == |s.caches|
  {
    hide Step, Enabled;
    if labels != [] {
      var n := |labels| - 1;
      EveryStepTold(s, labels[..n]);
      if Enabled(Run(s, labels[..n]).0, labels[n]) { StepKeepsCount(Run(s, labels[..n]).0, labels[n]); }
    }
  }

  /** A pass of the loop ends the operation with its effect, or goes on with it. */
  ghost predicate GoesOn(op: Op, th: Thread, e: Event) {
    if th.Idle? then Effect(op, e) else e == Tau && th.op == op
  }

  lemma ContinueServes(s: System, c: nat, op: Op)
    requires c < |s.caches| && |s.caches[c].lines| > 0 && OpOk(op, |s.mem|)
    ensures var (s', e) := Continue(s, c, op);
            |s'.caches| == |s.caches| && GoesOn(op, s'.caches[c].thread, e)
  {
    hide Merge, Orderer.Arrive;
  }

  /** The steps of a cache that is at an operation keep to it. */
  lemma OwnStep(s: System, l: Label)
    requires Enabled(s, l) && !l.Ask?
    ensures var (s', e) := Step(s, l);
      && !s.caches[l.c].thread.Idle? && |s'.caches| == |s.caches|
      && GoesOn(s.caches[l.c].thread.op, s'.caches[l.c].thread, e)
  {
    hide Continue, SnoopLines, PortDone, Drain, Access, Orderer.Arrive, Orderer.Finish;
    match l {
      case Go(c) => ContinueServes(s, c, s.caches[c].thread.op);
      case Resume(c) =>
        if s.caches[c].thread.Waiting? {
          ContinueServes(FinishTxn(s, c), c, s.caches[c].thread.op);
        }
      case _ =>
    }
  }

  lemma ContinueOthers(s: System, c: nat, op: Op, d: nat)
    requires c < |s.caches| && |s.caches[c].lines| > 0 && OpOk(op, |s.mem|) && d < |s.caches| && d != c
    ensures var s' := Continue(s, c, op).0; d < |s'.caches| && s'.caches[d] == s.caches[d]
  {
    hide Merge, Orderer.Arrive;
  }

  /** No other cache changes what a thread is at. */
  lemma OtherStep(s: System, l: Label, d: nat)
    requires Enabled(s, l) && d < |s.caches| && d != l.c
    ensures var s' := Step(s, l).0; d < |s'.caches| && s'.caches[d].thread == s.caches[d].thread
  {
    hide Continue, SnoopLines, PortDone, Drain, Access, Orderer.Arrive, Orderer.Finish;
    match l {
      case Go(c) => ContinueOthers(s, c, s.caches[c].thread.op, d);
      case Resume(c) =>
        if s.caches[c].thread.Waiting? {
          ContinueOthers(FinishTxn(s, c), c, s.caches[c].thread.op, d);
        }
      case _ =>
    }
  }

  /** One step, as seen by cache c. */
  lemma StepServes(s: System, l: Label, c: nat, ops: seq<Op>, events: seq<Event>)
    requires Enabled(s, l) && c < |s.caches| && Served(ops, events, s.caches[c].thread)
    ensures c < |Step(s, l).0.caches|
    ensures Served(ops + (if l.Ask? && l.c == c then [l.op] else []),
                   events + (if l.c == c && Step(s, l).1 != Tau then [Step(s, l).1] else []),
                   Step(s, l).0.caches[c].thread)
  {
    StepKeepsCount(s, l);
    if l.c != c {
      OtherStep(s, l, c);
      hide Step, Enabled;
      assert ops + [] == ops && events + [] == events;
    } else if l.Ask? {
      assert events + [] == events;
    } else {
      OwnStep(s, l);
      hide Step, Enabled;
      assert ops + [] == ops && events + [] == events;
    }
  }

  /** Every cache serves what it accepts: in order, each once, with the effect that
      was asked for. An idle cache has served everything. What its loads return is
      the flat memory's, see RunsAreCoherent. */
  lemma {:induction false} ServedInOrder(s: System, labels: seq<Label>, c: nat)
    requires c < |s.caches| && s.caches[c].thread.Idle?
    ensures var (s', events) := Run(s, labels);
      && |events| == |labels| && c < |s'.caches|
      && Served(Accepted(s, labels, c), Reported(labels, events, c), s'.caches[c].thread)
  {
    hide Step, Enabled, Served;
    EveryStepTold(s, labels);
    if labels == [] {
      NothingAsked(s.caches[c].thread);
    } else {
      var n := |labels| - 1;
      ServedInOrder(s, labels[..n], c);
      EveryStepTold(s, labels[..n]);
      var (before, past) := Run(s, labels[..n]);
      var ops, events := Accepted(s, labels[..n], c), Reported(labels[..n], past, c);
      if Enabled(before, labels[n]) {
        StepServes(before, labels[n], c, ops, events);
        assert (past + [Step(before, labels[n]).1])[..n] == past;
      } else {
        assert (past + [Tau])[..n] == past;
        assert ops + [] == ops && events + [] == events;
      }
    }
  }

  lemma NothingAsked(th: Thread)
    requires th.Idle?
    ensures Served([], [], th)
  {
  }

  /** A cache that is idle accepts every request inside the memory, in every reachable
      state. */
  lemma IdleAccepts(s: System, labels: seq<Label>, c: nat, op: Op)
    requires Initial(s) && c < |s.caches| && OpOk(op, |s.mem|)
    requires var s' := Run(s, labels).0; c < |s'.caches| && s'.caches[c].thread.Idle?
    ensures Enabled(Run(s, labels).0, Ask(c, op))
    ensures Accepted(s, labels + [Ask(c, op)], c) == Accepted(s, labels, c) + [op]
  {
    RunsAreCoherent(s, labels);
    assert (labels + [Ask(c, op)])[..|labels|] == labels;
  }
}
