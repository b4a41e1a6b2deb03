/** Runs of the orderer: equal ranges are served first come, first served. */
module OrdererHistory {
  import opened Orderer

  datatype Event = Arrival(t: Tx) | Completion(t: Tx)

  /** The orderer with the order of arrivals and the order of starts. */
  datatype History = History(s: State, arrived: seq<Tx>, started: seq<Tx>)

  ghost predicate CanStep(s: State, e: Event) {
    match e
    case Arrival(t) => t.len > 0 && t.id !in Ids(s.ongoing) && t.id !in Ids(s.overlapping)
    case Completion(t) => t in s.ongoing
  }

  function Step(h: History, e: Event): History
  {
    match e
    case Arrival(t) =>
      History(Arrive(h.s, t), h.arrived + [t], if MustWait(h.s, t) then h.started else h.started + [t])
    case Completion(t) =>
      var s' := Finish(h.s, t);
      var kept := |Remove(h.s.ongoing, t.id)|;
      History(s', h.arrived, if kept <= |s'.ongoing| then h.started + s'.ongoing[kept..] else h.started)
  }

  function Run(events: seq<Event>): History
  {
    if events == [] then History(EMPTY, [], [])
    else Step(Run(events[..|events| - 1]), events[|events| - 1])
  }

  ghost predicate ValidRun(events: seq<Event>) {
    events == [] ||
    (ValidRun(events[..|events| - 1]) && CanStep(Run(events[..|events| - 1]).s, events[|events| - 1]))
  }

  /** Over every run: disjoint ranges, and nobody waits for nothing. */
  lemma {:induction false} RunKeepsInv(events: seq<Event>)
    requires ValidRun(events)
    ensures Inv(Run(events).s)
  {
    if events != [] {
      RunKeepsInv(events[..|events| - 1]);
      match events[|events| - 1] {
        case Arrival(t) => ArriveKeeps(Run(events[..|events| - 1]).s, t);
        case Completion(t) => FinishKeeps(Run(events[..|events| - 1]).s, t);
      }
    }
  }

  /** The exclusive transactions on exactly this range, in order. */
  function Select(txs: seq<Tx>, addr: nat, len: nat): seq<Tx>
  {
    if txs == [] then []
    else if txs[0].Exclusive() && txs[0].addr == addr && txs[0].len == len then
      [txs[0]] + Select(txs[1..], addr, len)
    else
      Select(txs[1..], addr, len)
  }

  lemma {:induction false} SelectAppend(s: seq<Tx>, t: seq<Tx>, addr: nat, len: nat)
    ensures Select(s + t, addr, len) == Select(s, addr, len) + Select(t, addr, len)
  {
    if s == [] {
      assert s + t == t;
    } else {
      assert (s + t)[1..] == s[1..] + t && (s + t)[0] == s[0];
      SelectAppend(s[1..], t, addr, len);
    }
  }

  ghost predicate Blocked(ongoing: seq<Tx>, done: Tx, addr: nat, len: nat) {
    forall u: Tx :: u.addr == addr && u.len == len ==> !Meets(done, u) || IsOverlapping(ongoing, u)
  }

  /** The transactions that Restart starts, in order. */
  function Restarted(queue: seq<Tx>, ongoing: seq<Tx>, done: Tx): seq<Tx>
  {
    if queue == [] then []
    else if Meets(done, queue[0]) && !IsOverlapping(ongoing, queue[0]) then
      [queue[0]] + Restarted(queue[1..], ongoing + [queue[0]], done)
    else
      Restarted(queue[1..], ongoing, done)
  }

  lemma {:induction false} RestartAppends(queue: seq<Tx>, ongoing: seq<Tx>, done: Tx)
    ensures Restart(queue, ongoing, done).ongoing == ongoing + Restarted(queue, ongoing, done)
  {
    if queue != [] {
      if Meets(done, queue[0]) && !IsOverlapping(ongoing, queue[0]) {
        RestartAppends(queue[1..], ongoing + [queue[0]], done);
        assert ongoing + [queue[0]] + Restarted(queue[1..], ongoing + [queue[0]], done)
            == ongoing + Restarted(queue, ongoing, done);
      } else {
        RestartAppends(queue[1..], ongoing, done);
      }
    }
  }

  /** While one transaction on the range cannot start, none behind it can. */
  lemma {:induction false} BlockedStartsNone(queue: seq<Tx>, ongoing: seq<Tx>, done: Tx, addr: nat, len: nat)
    requires Blocked(ongoing, done, addr, len)
    ensures Select(Restarted(queue, ongoing, done), addr, len) == []
  {
    if queue != [] {
      var u := queue[0];
      if Meets(done, u) && !IsOverlapping(ongoing, u) {
        forall w: Tx | w.addr == addr && w.len == len
          ensures !Meets(done, w) || IsOverlapping(ongoing + [u], w)
        {
          if IsOverlapping(ongoing, w) {
            var x :| x in ongoing && Meets(w, x);
            assert x in ongoing + [u];
          }
        }
        BlockedStartsNone(queue[1..], ongoing + [u], done, addr, len);
      } else {
        BlockedStartsNone(queue[1..], ongoing, done, addr, len);
      }
    }
  }

  lemma {:induction false} RestartKeepsOrder(queue: seq<Tx>, ongoing: seq<Tx>, done: Tx, addr: nat, len: nat)
    ensures Select(Restarted(queue, ongoing, done), addr, len)
          + Select(Restart(queue, ongoing, done).overlapping, addr, len) == Select(queue, addr, len)
  {
    if queue != [] {
      var u := queue[0];
      if Meets(done, u) && !IsOverlapping(ongoing, u) {
        RestartKeepsOrder(queue[1..], ongoing + [u], done, addr, len);
        SelectAppend([u], Restarted(queue[1..], ongoing + [u], done), addr, len);
        SelectAppend([u], queue[1..], addr, len);
        assert [u] + queue[1..] == queue;
      } else {
        RestartKeepsOrder(queue[1..], ongoing, done, addr, len);
        if u.Exclusive() && u.addr == addr && u.len == len {
          assert Blocked(ongoing, done, addr, len);
          BlockedStartsNone(queue[1..], ongoing, done, addr, len);
        }
      }
    }
  }

  ghost predicate Ordered(h: History, addr: nat, len: nat) {
    Select(h.started, addr, len) + Select(h.s.overlapping, addr, len) == Select(h.arrived, addr, len)
  }

  /** In every run and for every range, the transactions on that range have
      started in the order they arrived; those still waiting are the last. */
  lemma {:induction false} StartInArrivalOrder(events: seq<Event>, addr: nat, len: nat)
    requires ValidRun(events)
    ensures Ordered(Run(events), addr, len)
  {
    if events != [] {
      var before := events[..|events| - 1];
      StartInArrivalOrder(before, addr, len);
      RunKeepsInv(before);
      match events[|events| - 1] {
        case Arrival(t) => ArrivalKeepsOrder(Run(before), t, addr, len);
        case Completion(t) => CompletionKeepsOrder(Run(before), t, addr, len);
      }
    }
  }

  lemma ArrivalKeepsOrder(h: History, t: Tx, addr: nat, len: nat)
    requires Inv(h.s) && Ordered(h, addr, len)
    ensures Ordered(Step(h, Arrival(t)), addr, len)
  {
    SelectAppend(h.arrived, [t], addr, len);
    SelectAppend(h.started, [t], addr, len);
    SelectAppend(h.s.overlapping, [t], addr, len);
    if !MustWait(h.s, t) && t.Exclusive() && t.addr == addr && t.len == len {
      NoneQueuedOnFreeRange(h.s.overlapping, h.s.ongoing, t);
    }
  }

  lemma CompletionKeepsOrder(h: History, t: Tx, addr: nat, len: nat)
    requires Ordered(h, addr, len)
    ensures Ordered(Step(h, Completion(t)), addr, len)
  {
    var g := Remove(h.s.ongoing, t.id);
    var restarted := Restarted(h.s.overlapping, g, t);
    RestartAppends(h.s.overlapping, g, t);
    RestartKeepsOrder(h.s.overlapping, g, t, addr, len);
    assert Finish(h.s, t).ongoing[|g|..] == restarted;
    SelectAppend(h.started, restarted, addr, len);
  }

  /** A newcomer that may start finds nobody waiting on the same range. */
  lemma {:induction false} NoneQueuedOnFreeRange(queue: seq<Tx>, ongoing: seq<Tx>, t: Tx)
    requires forall u :: u in queue ==> IsOverlapping(ongoing, u)
    requires !IsOverlapping(ongoing, t)
    ensures Select(queue, t.addr, t.len) == []
  {
    if queue != [] {
      EqualRangesMeetAlike(ongoing, queue[0], t);
      NoneQueuedOnFreeRange(queue[1..], ongoing, t);
    }
  }

  lemma EqualRangesMeetAlike(ongoing: seq<Tx>, t: Tx, u: Tx)
    ensures t.addr == u.addr && t.len == u.len ==> (IsOverlapping(ongoing, t) <==> IsOverlapping(ongoing, u))
  {
    assert t.addr == u.addr && t.len == u.len ==> forall x :: Meets(t, x) <==> Meets(u, x);
  }
}
