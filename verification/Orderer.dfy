/** iconnect_ace::OverlappingTxOrderer. A snooping transaction waits while any
    ongoing transaction shares a byte with it; line writes never wait. */
module Orderer {

  /** A transaction as the orderer sees it; `id` stands for the C++ pointer. */
  datatype Tx = Tx(id: nat, addr: nat, len: nat, snooping: bool, dvm: bool) {

    /** Transaction::InAddressRange. */
    predicate InAddressRange(a: nat) {
      addr <= a < addr + len
    }

    /** The orderer keeps these apart: snooping, and not a DVM operation. */
    predicate Exclusive() {
      snooping && !dvm
    }
  }

  /** The three endpoint tests of is_overlapping and restart_overlapping. */
  predicate Meets(t: Tx, u: Tx)
  {
    || u.InAddressRange(t.addr)
    || (0 < t.addr + t.len && u.InAddressRange(t.addr + t.len - 1))
    || t.InAddressRange(u.addr)
  }

  datatype State = State(ongoing: seq<Tx>, overlapping: seq<Tx>)

  const EMPTY := State([], [])

  predicate IsOverlapping(ongoing: seq<Tx>, t: Tx)
  {
    exists u :: u in ongoing && Meets(t, u)
  }

  predicate MustWait(s: State, t: Tx)
  {
    t.snooping && IsOverlapping(s.ongoing, t) && !t.dvm
  }

  /** OverlappingTxOrderer::process up to its wait for the done event. */
  function Arrive(s: State, t: Tx): State
  {
    if MustWait(s, t) then
      s.(overlapping := s.overlapping + [t])
    else
      s.(ongoing := s.ongoing + [t])
  }

  /** m_ongoing_tx.remove(&trans). */
  function Remove(ongoing: seq<Tx>, id: nat): (r: seq<Tx>)
    ensures forall t :: t in r <==> t in ongoing && t.id != id
  {
    if ongoing == [] then []
    else if ongoing[0].id == id then Remove(ongoing[1..], id)
    else [ongoing[0]] + Remove(ongoing[1..], id)
  }

  /** restart_overlapping, from the head of the remaining queue on. */
  function Restart(queue: seq<Tx>, ongoing: seq<Tx>, done: Tx): State
  {
    if queue == [] then
      State(ongoing, [])
    else if Meets(done, queue[0]) && !IsOverlapping(ongoing, queue[0]) then
      Restart(queue[1..], ongoing + [queue[0]], done)
    else
      var rest := Restart(queue[1..], ongoing, done);
      State(rest.ongoing, [queue[0]] + rest.overlapping)
  }

  /** OverlappingTxOrderer::process after the done event. */
  function Finish(s: State, done: Tx): State
  {
    Restart(s.overlapping, Remove(s.ongoing, done.id), done)
  }

  // ---- what the orderer keeps ----

  function Ids(txs: seq<Tx>): set<nat> {
    set t | t in txs :: t.id
  }

  ghost predicate Distinct(txs: seq<Tx>) {
    forall i, j :: 0 <= i < j < |txs| ==> txs[i].id != txs[j].id
  }

  /** Started exclusive transactions have pairwise disjoint byte ranges. */
  ghost predicate Disjoint(txs: seq<Tx>) {
    forall t, u :: t in txs && u in txs && t.id != u.id && t.Exclusive() && u.Exclusive() ==> !Meets(t, u)
  }

  ghost predicate NonEmpty(txs: seq<Tx>) {
    forall t :: t in txs ==> t.len > 0
  }

  ghost predicate Inv(s: State) {
    && NonEmpty(s.ongoing) && NonEmpty(s.overlapping)
    && Distinct(s.ongoing) && Distinct(s.overlapping) && Ids(s.ongoing) !! Ids(s.overlapping)
    && Disjoint(s.ongoing)
    && (forall u :: u in s.overlapping ==> u.Exclusive() && IsOverlapping(s.ongoing, u))
  }

  /** The endpoint tests decide whether two ranges share a byte. */
  lemma MeetsIffShareByte(t: Tx, u: Tx)
    requires t.len > 0 && u.len > 0
    ensures Meets(t, u) <==> exists a: nat :: t.InAddressRange(a) && u.InAddressRange(a)
    ensures Meets(t, u) <==> Meets(u, t)
  {
    if Meets(t, u) {
      var a := if u.InAddressRange(t.addr) then t.addr
               else if u.InAddressRange(t.addr + t.len - 1) then t.addr + t.len - 1 else u.addr;
      assert t.InAddressRange(a) && u.InAddressRange(a);
    }
  }

  lemma {:induction false} RestartMembers(queue: seq<Tx>, ongoing: seq<Tx>, done: Tx)
    ensures var s := Restart(queue, ongoing, done);
            && ongoing <= s.ongoing
            && (forall t :: t in s.ongoing || t in s.overlapping <==> t in ongoing || t in queue)
            && (forall t :: t in s.ongoing ==> t in ongoing || (t in queue && Meets(done, t)))
            && (forall t :: t in s.overlapping ==> t in queue)
  {
    if queue != [] {
      assert forall t :: t in queue <==> t == queue[0] || t in queue[1..];
      if Meets(done, queue[0]) && !IsOverlapping(ongoing, queue[0]) {
        RestartMembers(queue[1..], ongoing + [queue[0]], done);
      } else {
        RestartMembers(queue[1..], ongoing, done);
      }
    }
  }

  lemma {:induction false} RestartDistinct(queue: seq<Tx>, ongoing: seq<Tx>, done: Tx)
    requires Distinct(queue) && Distinct(ongoing) && Ids(ongoing) !! Ids(queue)
    ensures var s := Restart(queue, ongoing, done);
            Distinct(s.ongoing) && Distinct(s.overlapping) && Ids(s.ongoing) !! Ids(s.overlapping)
  {
    if queue != [] {
      HeadIsDistinct(queue);
      if Meets(done, queue[0]) && !IsOverlapping(ongoing, queue[0]) {
        AppendKeeps(ongoing, queue[0]);
        RestartDistinct(queue[1..], ongoing + [queue[0]], done);
      } else {
        RestartDistinct(queue[1..], ongoing, done);
        RestartMembers(queue[1..], ongoing, done);
      }
    }
  }

  lemma HeadIsDistinct(queue: seq<Tx>)
    requires queue != [] && Distinct(queue)
    ensures Distinct(queue[1..]) && Ids(queue) == Ids(queue[1..]) + {queue[0].id} && queue[0].id !in Ids(queue[1..])
  {
    assert forall t :: t in queue <==> t == queue[0] || t in queue[1..];
  }

  lemma {:induction false} RestartDisjoint(queue: seq<Tx>, ongoing: seq<Tx>, done: Tx)
    requires Disjoint(ongoing) && NonEmpty(queue) && NonEmpty(ongoing)
    ensures Disjoint(Restart(queue, ongoing, done).ongoing)
  {
    if queue != [] {
      if Meets(done, queue[0]) && !IsOverlapping(ongoing, queue[0]) {
        forall t | t in ongoing ensures !Meets(t, queue[0]) { MeetsIffShareByte(t, queue[0]); }
        RestartDisjoint(queue[1..], ongoing + [queue[0]], done);
      } else {
        RestartDisjoint(queue[1..], ongoing, done);
      }
    }
  }

  /** A queued transaction that met `done` is either started or still blocked. */
  lemma {:induction false} RestartForgetsNone(queue: seq<Tx>, ongoing: seq<Tx>, done: Tx)
    ensures var s := Restart(queue, ongoing, done);
            forall u :: u in s.overlapping && Meets(done, u) ==> IsOverlapping(s.ongoing, u)
  {
    if queue != [] {
      if Meets(done, queue[0]) && !IsOverlapping(ongoing, queue[0]) {
        RestartForgetsNone(queue[1..], ongoing + [queue[0]], done);
      } else {
        RestartForgetsNone(queue[1..], ongoing, done);
        RestartMembers(queue[1..], ongoing, done);
      }
    }
  }

  lemma {:induction false} RemoveKeepsDistinct(ongoing: seq<Tx>, id: nat)
    requires Distinct(ongoing)
    ensures Distinct(Remove(ongoing, id))
  {
    if ongoing != [] {
      var rest := Remove(ongoing[1..], id);
      RemoveKeepsDistinct(ongoing[1..], id);
      forall j | 0 <= j < |rest| ensures rest[j].id != ongoing[0].id {
        assert rest[j] in ongoing[1..];
      }
    }
  }

  lemma ArriveKeeps(s: State, t: Tx)
    requires Inv(s) && t.len > 0 && t.id !in Ids(s.ongoing) && t.id !in Ids(s.overlapping)
    ensures Inv(Arrive(s, t))
  {
    if MustWait(s, t) {
      AppendKeeps(s.overlapping, t);
    } else {
      AppendKeeps(s.ongoing, t);
      forall u | u in s.ongoing ensures Meets(t, u) <==> Meets(u, t) { MeetsIffShareByte(t, u); }
    }
  }

  /** Line writes and DVM operations never wait; any other transaction waits exactly
      when it shares a byte with one that has started, and nobody else is moved. */
  lemma StartsAtOnceIff(s: State, t: Tx)
    requires NonEmpty(s.ongoing) && t.len > 0
    ensures var s' := Arrive(s, t);
      && (s' == s.(ongoing := s.ongoing + [t]) <==>
            !t.snooping || t.dvm
            || forall u, a: nat :: u in s.ongoing && t.InAddressRange(a) ==> !u.InAddressRange(a))
      && (s' == s.(ongoing := s.ongoing + [t]) || s' == s.(overlapping := s.overlapping + [t]))
  {
    assert |s.ongoing + [t]| != |s.ongoing|;
    forall u | u in s.ongoing
      ensures Meets(t, u) <==> exists a: nat :: t.InAddressRange(a) && u.InAddressRange(a)
    {
      MeetsIffShareByte(t, u);
    }
  }

  lemma AppendKeeps(txs: seq<Tx>, t: Tx)
    requires Distinct(txs) && t.id !in Ids(txs)
    ensures Distinct(txs + [t]) && Ids(txs + [t]) == Ids(txs) + {t.id}
  {
    assert forall u :: u in txs ==> u.id in Ids(txs);
    assert forall u :: u in txs + [t] <==> u in txs || u == t;
  }

  lemma FinishKeeps(s: State, done: Tx)
    requires Inv(s) && done in s.ongoing
    ensures Inv(Finish(s, done))
  {
    var g := Remove(s.ongoing, done.id);
    var s' := Finish(s, done);
    RemoveKeepsDistinct(s.ongoing, done.id);
    RestartMembers(s.overlapping, g, done);
    RestartDistinct(s.overlapping, g, done);
    RestartDisjoint(s.overlapping, g, done);
    RestartForgetsNone(s.overlapping, g, done);
    forall u | u in s'.overlapping ensures u.Exclusive() && IsOverlapping(s'.ongoing, u) {
      var t :| t in s.ongoing && Meets(u, t);
      MeetsIffShareByte(u, t);
      if t.id == done.id {
        DistinctIsUnique(s.ongoing, t, done);
      } else {
        assert t in s'.ongoing;
      }
    }
  }

  lemma DistinctIsUnique(txs: seq<Tx>, t: Tx, u: Tx)
    requires Distinct(txs) && t in txs && u in txs && t.id == u.id
    ensures t == u
  {
    var i :| 0 <= i < |txs| && txs[i] == t;
    var j :| 0 <= j < |txs| && txs[j] == u;
  }
}
