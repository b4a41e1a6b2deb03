/** The interconnect's objects, updating their fields in place: the orderer's
    two lists and the collector of snoop answers. */
module IConnect {
  import opened AceTypes
  import opened Common
  import opened CacheLines
  import opened LineProtocol
  import opened Orderer

  class OverlappingTxOrderer {
    var ongoing: seq<Tx>
    var overlapping: seq<Tx>

    constructor ()
      ensures Contents() == EMPTY
    {
      ongoing, overlapping := [], [];
    }

    function Contents(): State
      reads this
    {
      State(ongoing, overlapping)
    }

    /** is_overlapping. */
    method Overlaps(t: Tx) returns (found: bool)
      ensures found <==> IsOverlapping(ongoing, t)
    {
      var i := 0;
      while i < |ongoing|
        invariant i <= |ongoing|
        invariant forall j :: 0 <= j < i ==> !Meets(t, ongoing[j])
      {
        if Meets(t, ongoing[i]) { return true; }
        i := i + 1;
      }
      return false;
    }

    /** process, up to its wait. Tells whether the transaction was passed on. */
    method Process(t: Tx) returns (started: bool)
      modifies this
      ensures Contents() == Arrive(old(Contents()), t)
      ensures started <==> !MustWait(old(Contents()), t)
    {
      started := true;
      if t.snooping {
        var found := Overlaps(t);
        if found && !t.dvm {
          overlapping := overlapping + [t];
          started := false;
        } else {
          ongoing := ongoing + [t];
        }
      } else {
        ongoing := ongoing + [t];
      }
    }

    /** process, after its wait: forget the transaction and restart those it held
        back, in the order of the list. */
    method Done(t: Tx)
      modifies this
      ensures Contents() == Finish(old(Contents()), t)
    {
      ongoing := Remove(ongoing, t.id);
      ghost var all := Restart(overlapping, ongoing, t);
      var i := 0;
      while i < |overlapping|
        invariant i <= |overlapping|
        invariant var rest := Restart(overlapping[i..], ongoing, t);
                  all == State(rest.ongoing, overlapping[..i] + rest.overlapping)
        decreases |overlapping| - i
      {
        var u := overlapping[i];
        ghost var tail := overlapping[i + 1..];
        ghost var head := overlapping[..i];
        assert overlapping[i..][1..] == tail;
        var found := Overlaps(u);
        if Meets(t, u) && !found {
          overlapping := overlapping[..i] + overlapping[i + 1..];
          ongoing := ongoing + [u];
          assert overlapping[i..] == tail && overlapping[..i] == head;
        } else {
          i := i + 1;
          assert overlapping[..i] == head + [u];
        }
      }
    }
  }

  /** The number of ports PortDone has merged. */
  function Merges(ports: seq<Port>): nat
  {
    if ports == [] then 0 else (if ports[0].Merged? then 1 else 0) + Merges(ports[1..])
  }

  lemma {:induction false} MergesAll(ports: seq<Port>)
    ensures Merges(ports) <= |ports|
    ensures Merges(ports) == |ports| <==> forall p :: 0 <= p < |ports| ==> ports[p].Merged?
  {
    if ports != [] {
      MergesAll(ports[1..]);
      assert forall p :: 1 <= p < |ports| ==> ports[p] == ports[1..][p - 1];
      if forall p :: 0 <= p < |ports| ==> ports[p].Merged? {
        assert forall p :: 0 <= p < |ports[1..]| ==> ports[1..][p] == ports[p + 1];
      }
    }
  }

  lemma {:induction false} MergesSet(ports: seq<Port>, p: nat)
    requires p < |ports| && !ports[p].Merged?
    ensures Merges(ports[p := Merged]) == Merges(ports) + 1
  {
    if p > 0 {
      assert ports[p := Merged][1..] == ports[1..][p - 1 := Merged];
      MergesSet(ports[1..], p - 1);
    } else {
      assert ports[p := Merged][1..] == ports[1..];
    }
  }

  /** A SnoopTransaction of a cache's request, together with the attributes of
      the request that it writes to. */
  class SnoopTransaction {
    const kind: Request
    const numMastersToSnoop: nat
    var numPortsDone: nat
    var answers: seq<Port>
    var shared: bool
    var dirty: bool
    var ok: bool
    var data: Data
    var execDsGp: bool
    var dsData: Data

    constructor (kind: Request, r: nat, n: nat, buffer: Data)
      requires r < n
      ensures Valid() && Value() == FreshTxn(kind, r, n, buffer)
    {
      this.kind := kind;
      this.numMastersToSnoop := n - 1;
      this.numPortsDone := 0;
      this.answers := seq(n, p => if p == r then Merged else Pending);
      shared, dirty, ok, execDsGp := false, false, false, false;
      data, dsData := buffer, buffer;
      new;
      MergesSet(seq(n, p => Pending), r);
      assert answers == seq(n, p => Pending)[r := Merged];
      NoMerges(n);
    }

    /** The counter counts the merged ports, the issuing one apart. */
    ghost predicate Valid()
      reads this
    {
      |answers| == numMastersToSnoop + 1 && Merges(answers) == numPortsDone + 1
    }

    function Value(): Txn
      reads this
    {
      Txn(kind, Snooping, answers, shared, dirty, ok, data, if execDsGp then Some(dsData) else None)
    }

    /** snoop_master_thread: the snooped cache's response has arrived. */
    method Receive(p: nat, resp: Response)
      requires Valid() && p < |answers| && answers[p].Pending?
      modifies this`answers
      ensures Valid() && Value() == old(Value()).(ports := old(answers)[p := Answered(resp)])
    {
      MergesSet(answers, p);
      MergesSet(answers[p := Answered(resp)], p);
      assert answers[p := Answered(resp)][p := Merged] == answers[p := Merged];
      answers := answers[p := Answered(resp)];
    }

    /** update_trans_response: a read needs data, the others only an answer. */
    method UpdateTransResponse(resp: Response)
      modifies this`ok
      ensures ok == (old(ok) || resp.data.Some? || !kind.AcSnoop().IsRead())
    {
      match kind.AcSnoop() {
        case SnoopCleanInvalid => ok := true;
        case SnoopMakeInvalid => ok := true;
        case _ => if resp.data.Some? { ok := true; }
      }
    }

    /** The response's attributes and data, towards the master or downstream. */
    method TakeResponse(resp: Response)
      modifies this`shared, this`dirty, this`data, this`execDsGp, this`dsData
      ensures shared == (old(shared) || resp.shared)
      ensures var passes := AllowPassDirty(INNER, kind.ArSnoop());
        && data == (if resp.data.Some? && kind.AcSnoop().IsRead() then resp.data.value else old(data))
        && dirty == (old(dirty) || (resp.data.Some? && passes && resp.dirty))
        && execDsGp == (old(execDsGp) || (resp.data.Some? && !passes && resp.dirty))
        && dsData == (if resp.data.Some? && !passes && resp.dirty then resp.data.value else old(dsData))
    {
      if resp.shared { shared := true; }
      if resp.data.Some? {
        if kind.AcSnoop().IsRead() { data := resp.data.value; }
        if AllowPassDirty(INNER, kind.ArSnoop()) {
          if resp.dirty { dirty := true; }
        } else if resp.dirty {
          dsData := resp.data.value;
          execDsGp := true;
        }
      }
    }

    /** PortDone, and SnoopDone. */
    method Merge(p: nat) returns (done: bool)
      requires Valid() && p < |answers| && answers[p].Answered?
      modifies this
      ensures Valid() && Value() == PortDone(old(Value()), p)
      ensures done <==> AllMerged(Value())
    {
      TakeResponse(answers[p].resp);
      UpdateTransResponse(answers[p].resp);
      MergesSet(answers, p);
      answers := answers[p := Merged];
      numPortsDone := numPortsDone + 1;
      MergesAll(answers);
      done := numPortsDone == numMastersToSnoop;
    }
  }

  lemma {:induction false} NoMerges(n: nat)
    ensures Merges(seq(n, p => Pending)) == 0
  {
    if n > 0 {
      NoMerges(n - 1);
      assert seq(n, p => Pending)[1..] == seq(n - 1, p => Pending);
    }
  }
}
