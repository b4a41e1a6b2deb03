/** How axi2tlm_bridge runs the transactions it has accepted: one worker thread
    per transaction ID in the list, each taking its ID's transactions in order
    and waiting while an older one touches the same 4K page. Threads interleave
    freely; a label is the code between two waits. */
module AxiScheduler {
  import opened Common

  /** `uid` stands for the C++ pointer. */
  datatype Tr = Tr(uid: nat, id: nat, addr: nat) {
    function Page(): nat { addr / 4096 }
  }

  datatype Phase = Spawned | Blocked(tr: Tr) | Running(tr: Tr)

  datatype Worker = Worker(id: nat, phase: Phase)

  /** One direction of the bridge. `data` is wrDataList: writes whose data have not
      all come; a read goes from there to the list in the step that accepts it, so
      its runs are those where every Accept is followed by a Listed. `list` is
      rtList or wtList, `fifo` leads to the response channel, and `responding` is on
      that channel. */
  datatype State = State(data: seq<Tr>, list: seq<Tr>, workers: seq<Worker>, fifo: seq<Tr>, responding: seq<Tr>,
                         outstanding: nat)

  const MAX_TRANSACTIONS: nat := 16

  const EMPTY := State([], [], [], [], [], 0)

  // ---- the list searches ----

  function GetFirstWithID(list: seq<Tr>, id: nat): Option<Tr>
  {
    if list == [] then None
    else if list[0].id == id then Some(list[0])
    else GetFirstWithID(list[1..], id)
  }

  predicate InList(list: seq<Tr>, id: nat) {
    GetFirstWithID(list, id).Some?
  }

  /** Searches up to tr itself for an older transaction of the same page. */
  predicate OverlappingAddress(list: seq<Tr>, tr: Tr)
  {
    if list == [] || list[0] == tr then false
    else list[0].Page() == tr.Page() || OverlappingAddress(list[1..], tr)
  }

  function Remove(list: seq<Tr>, uid: nat): (r: seq<Tr>)
    ensures forall t :: t in r <==> t in list && t.uid != uid
  {
    if list == [] then []
    else if list[0].uid == uid then Remove(list[1..], uid)
    else [list[0]] + Remove(list[1..], uid)
  }

  // ---- the threads ----

  datatype Label =
    | Accept(t: Tr)     // address handshake
    | Listed            // the oldest accepted one has its data
    | Look(w: nat)      // a spawned worker begins
    | Begin(w: nat)     // the worker's wait is over: b_transport
    | Finish(w: nat)    // b_transport and its delay are over
    | Deliver           // the response thread takes the next one
    | Retire            // its last beat is accepted

  function DropWorker(workers: seq<Worker>, w: nat): seq<Worker>
    requires w < |workers|
  {
    workers[..w] + workers[w + 1..]
  }

  /** The head of the loop in RunTLMTransaction. */
  function NextFor(s: State, w: nat): State
    requires w < |s.workers|
  {
    var next := GetFirstWithID(s.list, s.workers[w].id);
    if next.Some? then s.(workers := s.workers[w := s.workers[w].(phase := Blocked(next.value))])
    else s.(workers := DropWorker(s.workers, w))
  }

  predicate Enabled(s: State, l: Label)
  {
    match l
    case Accept(t) =>
      && s.outstanding < MAX_TRANSACTIONS
      && (forall u :: u in s.list ==> u.uid != t.uid) && (forall u :: u in s.data ==> u.uid != t.uid)
    case Listed => s.data != []
    case Look(w) => w < |s.workers| && s.workers[w].phase.Spawned?
    case Begin(w) =>
      w < |s.workers| && s.workers[w].phase.Blocked? && !OverlappingAddress(s.list, s.workers[w].phase.tr)
    case Finish(w) =>
      w < |s.workers| && s.workers[w].phase.Running? && |s.fifo| < MAX_TRANSACTIONS
    case Deliver => s.responding == [] && s.fifo != []
    case Retire => s.responding != [] && s.outstanding > 0
  }

  function Step(s: State, l: Label): State
    requires Enabled(s, l)
  {
    match l
    case Accept(t) => s.(data := s.data + [t], outstanding := s.outstanding + 1)
    case Listed =>
      var t := s.data[0];
      s.(data := s.data[1..], list := s.list + [t],
         workers := if InList(s.list, t.id) then s.workers else s.workers + [Worker(t.id, Spawned)])
    case Look(w) => NextFor(s, w)
    case Begin(w) =>
      s.(workers := s.workers[w := s.workers[w].(phase := Running(s.workers[w].phase.tr))])
    case Finish(w) =>
      var tr := s.workers[w].phase.tr;
      NextFor(s.(list := Remove(s.list, tr.uid), fifo := s.fifo + [tr]), w)
    case Deliver => s.(fifo := s.fifo[1..], responding := [s.fifo[0]])
    case Retire => s.(responding := [], outstanding := s.outstanding - 1)
  }

  /** What Accept adds to the order of arrival, Finish to that of completion and
      Retire to that of the responses. */
  datatype History = History(s: State, accepted: seq<Tr>, completed: seq<Tr>, retired: seq<Tr>)

  function Record(h: History, l: Label): History
  {
    if !Enabled(h.s, l) then h
    else
      match l
      case Accept(t) => h.(s := Step(h.s, l), accepted := h.accepted + [t])
      case Finish(w) => h.(s := Step(h.s, l), completed := h.completed + [h.s.workers[w].phase.tr])
      case Retire => h.(s := Step(h.s, l), retired := h.retired + h.s.responding)
      case _ => h.(s := Step(h.s, l))
  }

  /** Labels that are not enabled are skipped. */
  function Run(labels: seq<Label>): History
  {
    if labels == [] then History(EMPTY, [], [], [])
    else Record(Run(labels[..|labels| - 1]), labels[|labels| - 1])
  }

  // ---- the invariant ----

  /** The transactions with the given key, in list order. */
  function Select(list: seq<Tr>, key: Tr -> nat, k: nat): seq<Tr>
  {
    if list == [] then []
    else if key(list[0]) == k then [list[0]] + Select(list[1..], key, k)
    else Select(list[1..], key, k)
  }

  const ID: Tr -> nat := (t: Tr) => t.id
  const PAGE: Tr -> nat := (t: Tr) => t.Page()

  ghost predicate First(list: seq<Tr>, key: Tr -> nat, t: Tr) {
    var same := Select(list, key, key(t));
    same != [] && same[0] == t
  }

  ghost predicate DistinctUids(list: seq<Tr>) {
    forall i, j :: 0 <= i < j < |list| ==> list[i].uid != list[j].uid
  }

  function Ids(list: seq<Tr>): set<nat> {
    set t | t in list :: t.id
  }

  function WorkerIds(workers: seq<Worker>): set<nat> {
    set w | w in workers :: w.id
  }

  ghost predicate DistinctWorkers(workers: seq<Worker>) {
    forall i, j :: 0 <= i < j < |workers| ==> workers[i].id != workers[j].id
  }

  /** A worker holds the first transaction of its ID; once it runs, it is also
      the first of its page. */
  ghost predicate WorkerInv(list: seq<Tr>, w: Worker) {
    && (!w.phase.Spawned? ==> w.phase.tr.id == w.id && First(list, ID, w.phase.tr))
    && (w.phase.Running? ==> First(list, PAGE, w.phase.tr))
  }

  ghost predicate CountInv(s: State) {
    s.outstanding == |s.data| + |s.list| + |s.fifo| + |s.responding| <= MAX_TRANSACTIONS && |s.responding| <= 1
  }

  /** Each transaction is in one place. */
  ghost predicate DataInv(s: State) {
    && DistinctUids(s.list) && DistinctUids(s.data)
    && (forall t, u :: t in s.list && u in s.data ==> t.uid != u.uid)
  }

  ghost predicate Inv(s: State) {
    && DataInv(s)
    && DistinctWorkers(s.workers)
    && WorkerIds(s.workers) == Ids(s.list)
    && (forall i :: 0 <= i < |s.workers| ==> WorkerInv(s.list, s.workers[i]))
    && CountInv(s)
  }

  // ---- searches and selections ----

  lemma {:induction false} SelectAppend(a: seq<Tr>, b: seq<Tr>, key: Tr -> nat, k: nat)
    ensures Select(a + b, key, k) == Select(a, key, k) + Select(b, key, k)
  {
    if a == [] {
      assert a + b == b;
    } else {
      assert (a + b)[0] == a[0] && (a + b)[1..] == a[1..] + b;
      SelectAppend(a[1..], b, key, k);
    }
  }

  lemma {:induction false} SelectMembers(list: seq<Tr>, key: Tr -> nat, k: nat)
    ensures forall t :: t in Select(list, key, k) <==> t in list && key(t) == k
  {
    if list != [] { SelectMembers(list[1..], key, k); }
  }

  lemma {:induction false} FirstWithID(list: seq<Tr>, id: nat)
    ensures var f := GetFirstWithID(list, id);
      && (f.None? <==> forall t :: t in list ==> t.id != id)
      && (f.Some? ==> f.value in list && f.value.id == id && First(list, ID, f.value))
  {
    if list != [] { FirstWithID(list[1..], id); }
  }

  lemma {:induction false} NoOverlapIsFirst(list: seq<Tr>, tr: Tr)
    requires tr in list
    ensures !OverlappingAddress(list, tr) <==> First(list, PAGE, tr)
    decreases list
  {
    if list[0] != tr {
      NoOverlapIsFirst(list[1..], tr);
    }
  }

  /** Removing the first of a key removes the first of its selection. */
  lemma {:induction false} RemoveSelect(list: seq<Tr>, tr: Tr, key: Tr -> nat, k: nat)
    requires DistinctUids(list) && tr in list
    ensures key(tr) != k ==> Select(Remove(list, tr.uid), key, k) == Select(list, key, k)
    ensures key(tr) == k && First(list, key, tr) ==> Select(Remove(list, tr.uid), key, k) == Select(list, key, k)[1..]
    decreases list
  {
    if list[0] == tr {
      RemoveAbsent(list[1..], tr.uid);
    } else {
      assert list[0].uid != tr.uid;
      RemoveSelect(list[1..], tr, key, k);
    }
  }

  lemma {:induction false} RemoveAbsent(list: seq<Tr>, uid: nat)
    requires forall t :: t in list ==> t.uid != uid
    ensures Remove(list, uid) == list
  {
    if list != [] { RemoveAbsent(list[1..], uid); }
  }

  lemma {:induction false} RemoveKeepsDistinct(list: seq<Tr>, tr: Tr)
    requires DistinctUids(list) && tr in list
    ensures DistinctUids(Remove(list, tr.uid)) && |Remove(list, tr.uid)| == |list| - 1
    decreases list
  {
    if list[0] == tr {
      RemoveAbsent(list[1..], tr.uid);
    } else {
      assert list[0].uid != tr.uid;
      var rest := Remove(list[1..], tr.uid);
      RemoveKeepsDistinct(list[1..], tr);
      forall j | 0 <= j < |rest| ensures rest[j].uid != list[0].uid {
        assert rest[j] in list[1..];
      }
    }
  }

  /** The first of its key stays first while others come and go. */
  lemma FirstStays(list: seq<Tr>, list': seq<Tr>, t: Tr, gone: Tr, key: Tr -> nat)
    requires DistinctUids(list) && First(list, key, t)
    requires (gone in list && gone != t && list' == Remove(list, gone.uid)) || list' == list + [gone]
    ensures First(list', key, t)
  {
    if list' == list + [gone] {
      SelectAppend(list, [gone], key, key(t));
    } else if key(gone) == key(t) {
      RemoveKeepsOrderOf(list, gone, key);
    } else {
      RemoveSelect(list, gone, key, key(t));
    }
  }

  /** Removing any but the first leaves the first. */
  lemma {:induction false} RemoveKeepsOrderOf(list: seq<Tr>, gone: Tr, key: Tr -> nat)
    requires DistinctUids(list) && gone in list
    ensures var same := Select(list, key, key(gone));
            same != [] && (same[0] != gone ==>
              var same' := Select(Remove(list, gone.uid), key, key(gone)); same' != [] && same'[0] == same[0])
    decreases list
  {
    if list[0] == gone {
    } else {
      assert list[0].uid != gone.uid;
      RemoveKeepsOrderOf(list[1..], gone, key);
    }
  }

  // ---- every step keeps the invariant ----

  lemma IdsAppend(list: seq<Tr>, t: Tr)
    ensures Ids(list + [t]) == Ids(list) + {t.id}
  {
    assert forall u :: u in list + [t] <==> u in list || u == t;
  }

  lemma WorkerIdsAppend(workers: seq<Worker>, w: Worker)
    ensures WorkerIds(workers + [w]) == WorkerIds(workers) + {w.id}
  {
    assert forall u :: u in workers + [w] <==> u in workers || u == w;
  }

  lemma WorkerIdsSet(workers: seq<Worker>, i: nat, w: Worker)
    requires i < |workers| && w.id == workers[i].id
    ensures WorkerIds(workers[i := w]) == WorkerIds(workers)
  {
    var after := workers[i := w];
    forall u | u in workers ensures u.id in WorkerIds(after) {
      var j :| 0 <= j < |workers| && workers[j] == u;
      assert after[j] in after && after[j].id == u.id;
    }
    forall u | u in after ensures u.id in WorkerIds(workers) {
      var j :| 0 <= j < |after| && after[j] == u;
      assert workers[j] in workers && workers[j].id == u.id;
    }
  }

  lemma WorkerIdsDrop(workers: seq<Worker>, i: nat)
    requires i < |workers| && DistinctWorkers(workers)
    ensures WorkerIds(DropWorker(workers, i)) == WorkerIds(workers) - {workers[i].id}
    ensures DistinctWorkers(DropWorker(workers, i))
  {
    var after := DropWorker(workers, i);
    forall u | u in workers && u.id != workers[i].id ensures u in after {
      var j :| 0 <= j < |workers| && workers[j] == u;
      assert after[if j < i then j else j - 1] == u;
    }
    forall u | u in after ensures u in workers && u.id != workers[i].id {
      var j :| 0 <= j < |after| && after[j] == u;
      assert workers[if j < i then j else j + 1] == u;
    }
  }

  lemma InListIff(list: seq<Tr>, id: nat)
    ensures InList(list, id) <==> id in Ids(list)
  {
    FirstWithID(list, id);
  }

  lemma WorkerStays(list: seq<Tr>, list': seq<Tr>, w: Worker, gone: Tr)
    requires DistinctUids(list) && WorkerInv(list, w)
    requires list' == list + [gone] || (gone in list && list' == Remove(list, gone.uid) && gone.id != w.id)
    ensures WorkerInv(list', w)
  {
    if !w.phase.Spawned? {
      FirstStays(list, list', w.phase.tr, gone, ID);
      if w.phase.Running? { FirstStays(list, list', w.phase.tr, gone, PAGE); }
    }
  }

  lemma AcceptKeeps(s: State, t: Tr)
    requires Inv(s) && Enabled(s, Accept(t))
    ensures Inv(Step(s, Accept(t)))
  {
    assert forall i :: 0 <= i < |s.data| ==> s.data[i] in s.data;
  }

  lemma ListedKeeps(s: State)
    requires Inv(s) && Enabled(s, Listed)
    ensures Inv(Step(s, Listed))
  {
    var t, s' := s.data[0], Step(s, Listed);
    InListIff(s.list, t.id);
    IdsAppend(s.list, t);
    WorkerIdsAppend(s.workers, Worker(t.id, Spawned));
    forall i | 0 <= i < |s'.workers| ensures WorkerInv(s'.list, s'.workers[i]) {
      if i < |s.workers| { WorkerStays(s.list, s'.list, s.workers[i], t); }
    }
    assert forall i :: 0 <= i < |s.workers| ==> s.workers[i].id in WorkerIds(s.workers);
    MovedData(s, s');
  }

  lemma MovedData(s: State, s': State)
    requires DataInv(s) && s.data != [] && s'.data == s.data[1..] && s'.list == s.list + [s.data[0]]
    ensures DataInv(s')
  {
    assert forall i :: 0 <= i < |s.list| ==> s.list[i] in s.list;
    assert forall u :: u in s'.data ==> u in s.data && u.uid != s.data[0].uid;
  }

  /** Everything but worker w is in order, and w's ID may have left the list. */
  ghost predicate InvExcept(s: State, w: nat) {
    && w < |s.workers|
    && DataInv(s)
    && DistinctWorkers(s.workers)
    && WorkerIds(s.workers) == Ids(s.list) + {s.workers[w].id}
    && (forall i :: 0 <= i < |s.workers| && i != w ==> WorkerInv(s.list, s.workers[i]))
    && CountInv(s)
  }

  lemma NextForKeeps(s: State, w: nat)
    requires InvExcept(s, w)
    ensures Inv(NextFor(s, w))
  {
    var id := s.workers[w].id;
    FirstWithID(s.list, id);
    InListIff(s.list, id);
    if InList(s.list, id) {
      WorkerIdsSet(s.workers, w, s.workers[w].(phase := Blocked(GetFirstWithID(s.list, id).value)));
    } else {
      WorkerIdsDrop(s.workers, w);
    }
  }

  lemma BeginKeeps(s: State, w: nat)
    requires Inv(s) && Enabled(s, Begin(w))
    ensures Inv(Step(s, Begin(w)))
  {
    var tr := s.workers[w].phase.tr;
    assert WorkerInv(s.list, s.workers[w]);
    SelectMembers(s.list, ID, tr.id);
    NoOverlapIsFirst(s.list, tr);
    WorkerIdsSet(s.workers, w, s.workers[w].(phase := Running(tr)));
  }

  lemma FinishKeeps(s: State, w: nat)
    requires Inv(s) && Enabled(s, Finish(w))
    ensures Inv(Step(s, Finish(w)))
  {
    var tr := s.workers[w].phase.tr;
    var s1 := s.(list := Remove(s.list, tr.uid), fifo := s.fifo + [tr]);
    assert WorkerInv(s.list, s.workers[w]);
    SelectMembers(s.list, ID, tr.id);
    RemoveKeepsDistinct(s.list, tr);
    forall i | 0 <= i < |s1.workers| && i != w ensures WorkerInv(s1.list, s1.workers[i]) {
      WorkerStays(s.list, s1.list, s.workers[i], tr);
    }
    forall u | u in s.list && u.id != tr.id ensures u in s1.list {
      SameUid(s.list, u, tr);
    }
    assert Ids(s1.list) + {tr.id} == Ids(s.list);
    NextForKeeps(s1, w);
  }

  lemma SameUid(list: seq<Tr>, t: Tr, u: Tr)
    requires DistinctUids(list) && t in list && u in list
    ensures t.uid == u.uid ==> t == u
  {
    var i :| 0 <= i < |list| && list[i] == t;
    var j :| 0 <= j < |list| && list[j] == u;
  }

  lemma StepKeeps(s: State, l: Label)
    requires Inv(s) && Enabled(s, l)
    ensures Inv(Step(s, l))
  {
    match l {
      case Accept(t) => AcceptKeeps(s, t);
      case Listed => ListedKeeps(s);
      case Look(w) =>
        assert s.workers[w].id in WorkerIds(s.workers);
        NextForKeeps(s, w);
      case Begin(w) => BeginKeeps(s, w);
      case Finish(w) => FinishKeeps(s, w);
      case Deliver =>
      case Retire =>
    }
  }

  lemma {:induction false} RunKeepsInv(labels: seq<Label>)
    ensures Inv(Run(labels).s)
  {
    if labels != [] {
      var n := |labels| - 1;
      RunKeepsInv(labels[..n]);
      if Enabled(Run(labels[..n]).s, labels[n]) {
        StepKeeps(Run(labels[..n]).s, labels[n]);
      }
    }
  }

  // ---- the results ----

  /** One worker per ID in the list, and none for any other. */
  lemma OneWorkerPerID(labels: seq<Label>)
    ensures var s := Run(labels).s; WorkerIds(s.workers) == Ids(s.list) && DistinctWorkers(s.workers)
  {
    RunKeepsInv(labels);
  }

  /** No two transactions of one 4K page, nor two of one ID, run together. */
  lemma RunningApart(labels: seq<Label>, v: nat, w: nat)
    requires var s := Run(labels).s;
             v < |s.workers| && w < |s.workers| && s.workers[v].phase.Running? && s.workers[w].phase.Running? && v != w
    ensures var s := Run(labels).s;
            var t, u := s.workers[v].phase.tr, s.workers[w].phase.tr;
            t.Page() != u.Page() && t.id != u.id
  {
    RunKeepsInv(labels);
    var s := Run(labels).s;
    assert WorkerInv(s.list, s.workers[v]) && WorkerInv(s.list, s.workers[w]);
  }

  /** The transactions of one ID, and likewise those of one page, have completed
      in the order they were accepted; then come those in the list, and last those
      without data. */
  ghost predicate Ordered(h: History, key: Tr -> nat, k: nat) {
    Select(h.completed, key, k) + Select(h.s.list, key, k) + Select(h.s.data, key, k) == Select(h.accepted, key, k)
  }

  lemma {:induction false} InAcceptanceOrder(labels: seq<Label>, key: Tr -> nat, k: nat)
    requires key == ID || key == PAGE
    ensures Ordered(Run(labels), key, k)
  {
    if labels != [] {
      var n := |labels| - 1;
      InAcceptanceOrder(labels[..n], key, k);
      RunKeepsInv(labels[..n]);
      RecordInOrder(Run(labels[..n]), labels[n], key, k);
    }
  }

  lemma RecordInOrder(h: History, l: Label, key: Tr -> nat, k: nat)
    requires key == ID || key == PAGE
    requires Inv(h.s) && Ordered(h, key, k)
    ensures Ordered(Record(h, l), key, k)
  {
    hide Select;
    if Enabled(h.s, l) {
      match l {
        case Accept(t) => AcceptInOrder(h, t, key, k);
        case Listed =>
          MoveData(h.completed, h.s.list, h.s.data, key, k);
        case Finish(w) => FinishInOrder(h, w, key, k);
        case _ =>
      }
    }
  }

  lemma AcceptInOrder(h: History, t: Tr, key: Tr -> nat, k: nat)
    requires Enabled(h.s, Accept(t)) && Ordered(h, key, k)
    ensures Ordered(Record(h, Accept(t)), key, k)
  {
    hide Select;
    var a, b, c := Select(h.completed, key, k), Select(h.s.list, key, k), Select(h.s.data, key, k);
    SelectAppend(h.accepted, [t], key, k);
    SelectAppend(h.s.data, [t], key, k);
    assert a + b + (c + Select([t], key, k)) == a + b + c + Select([t], key, k);
  }

  lemma MoveData(completed: seq<Tr>, list: seq<Tr>, data: seq<Tr>, key: Tr -> nat, k: nat)
    requires data != []
    ensures Select(completed, key, k) + Select(list + [data[0]], key, k) + Select(data[1..], key, k)
         == Select(completed, key, k) + Select(list, key, k) + Select(data, key, k)
  {
    hide Select;
    SelectAppend(list, [data[0]], key, k);
    SelectAppend([data[0]], data[1..], key, k);
    assert [data[0]] + data[1..] == data;
    var a, b := Select(completed, key, k), Select(list, key, k);
    var c, d := Select([data[0]], key, k), Select(data[1..], key, k);
    assert a + (b + c) + d == a + b + (c + d);
  }

  lemma MoveFirst(completed: seq<Tr>, list: seq<Tr>, tr: Tr, key: Tr -> nat, k: nat)
    requires DistinctUids(list) && tr in list && First(list, key, tr)
    ensures Select(completed + [tr], key, k) + Select(Remove(list, tr.uid), key, k)
         == Select(completed, key, k) + Select(list, key, k)
  {
    var a, b := Select(completed, key, k), Select(list, key, k);
    RemoveSelect(list, tr, key, k);
    SelectAppend(completed, [tr], key, k);
    if key(tr) == k {
      assert (a + [tr]) + b[1..] == a + b;
    } else {
      assert a + [] == a;
    }
  }

  lemma FinishInOrder(h: History, w: nat, key: Tr -> nat, k: nat)
    requires key == ID || key == PAGE
    requires Inv(h.s) && Enabled(h.s, Finish(w)) && Ordered(h, key, k)
    ensures Ordered(Record(h, Finish(w)), key, k)
  {
    var tr := h.s.workers[w].phase.tr;
    assert WorkerInv(h.s.list, h.s.workers[w]);
    SelectMembers(h.s.list, ID, tr.id);
    MoveFirst(h.completed, h.s.list, tr, key, k);
  }

  /** Which transactions may begin: a worker's, exactly when it is the oldest of its
      page; and the master may always have 16 outstanding. */
  lemma BeginsIffOldest(labels: seq<Label>, w: nat)
    requires w < |Run(labels).s.workers| && Run(labels).s.workers[w].phase.Blocked?
    ensures var s := Run(labels).s; Enabled(s, Begin(w)) <==> First(s.list, PAGE, s.workers[w].phase.tr)
  {
    RunKeepsInv(labels);
    var s := Run(labels).s;
    assert WorkerInv(s.list, s.workers[w]);
    SelectMembers(s.list, ID, s.workers[w].id);
    NoOverlapIsFirst(s.list, s.workers[w].phase.tr);
  }

  /** Responses leave in the order of completion: those retired, the one on the
      channel and those in the fifo are all that has completed. */
  lemma {:induction false} ResponsesInOrder(labels: seq<Label>)
    ensures var h := Run(labels); h.retired + h.s.responding + h.s.fifo == h.completed
  {
    if labels != [] {
      var n := |labels| - 1;
      ResponsesInOrder(labels[..n]);
      RunKeepsInv(labels[..n]);
      RecordResponses(Run(labels[..n]), labels[n]);
    }
  }

  lemma RecordResponses(h: History, l: Label)
    requires h.retired + h.s.responding + h.s.fifo == h.completed && CountInv(h.s)
    ensures var h' := Record(h, l); h'.retired + h'.s.responding + h'.s.fifo == h'.completed
  {
    if Enabled(h.s, l) && l.Finish? {
      var tr := h.s.workers[l.w].phase.tr;
      assert Record(h, l).s.fifo == h.s.fifo + [tr] && Record(h, l).s.responding == h.s.responding;
    }
  }

  /** What has been accepted is, per ID and per page, what has been answered, is
      being answered, waits in the fifo, in the list or for its data, in this order;
      nothing is lost and nothing doubled. */
  lemma AnsweredInOrder(labels: seq<Label>, key: Tr -> nat, k: nat)
    requires key == ID || key == PAGE
    ensures var h := Run(labels);
            Select(h.retired, key, k) + Select(h.s.responding, key, k) + Select(h.s.fifo, key, k)
            + Select(h.s.list, key, k) + Select(h.s.data, key, k) == Select(h.accepted, key, k)
  {
    hide Select;
    var h := Run(labels);
    InAcceptanceOrder(labels, key, k);
    ResponsesInOrder(labels);
    SelectAppend(h.retired + h.s.responding, h.s.fifo, key, k);
    SelectAppend(h.retired, h.s.responding, key, k);
  }

  /** Two addresses are of one page exactly when one aligned block of 4096 bytes
      holds both. */
  lemma SamePageIff(t: Tr, u: Tr)
    ensures t.Page() == u.Page() <==>
              exists block: nat :: block % 4096 == 0
                && block <= t.addr < block + 4096 && block <= u.addr < block + 4096
  {
    if t.Page() == u.Page() {
      var block := t.Page() * 4096;
      assert block % 4096 == 0 && block <= t.addr < block + 4096;
    }
  }

  /** The oldest transaction never waits: its worker can take it up, begin it or
      finish it, and the fifo always has room. */
  lemma OldestCanMove(labels: seq<Label>) returns (l: Label)
    requires Run(labels).s.list != []
    ensures Enabled(Run(labels).s, l)
    ensures (l.Look? || l.Begin? || l.Finish?) && Run(labels).s.workers[l.w].id == Run(labels).s.list[0].id
  {
    RunKeepsInv(labels);
    var s := Run(labels).s;
    assert s.list[0].id in Ids(s.list);
    var u :| u in s.workers && u.id == s.list[0].id;
    var w :| 0 <= w < |s.workers| && s.workers[w] == u;
    assert WorkerInv(s.list, s.workers[w]);
    l := match u.phase { case Spawned => Look(w) case Blocked(_) => Begin(w) case Running(_) => Finish(w) };
  }

  /** Every transaction the master counts as outstanding is in one place, and there
      are never more than 16. */
  lemma AllOutstanding(labels: seq<Label>)
    ensures var s := Run(labels).s;
            s.outstanding == |s.data| + |s.list| + |s.fifo| + |s.responding| <= MAX_TRANSACTIONS
  {
    RunKeepsInv(labels);
  }

  /** With at most 16 transactions outstanding the 16-deep fifo never blocks. */
  lemma FifoNeverBlocks(labels: seq<Label>, w: nat)
    requires var s := Run(labels).s; w < |s.workers| && s.workers[w].phase.Running?
    ensures Enabled(Run(labels).s, Finish(w))
  {
    RunKeepsInv(labels);
    var s := Run(labels).s;
    assert WorkerInv(s.list, s.workers[w]);
    SelectMembers(s.list, ID, s.workers[w].id);
    assert |s.list| > 0;
  }

  // ---- progress ----

  /** Nothing is held back without cause, in any reachable state: the master may have
      up to 16 outstanding, data are taken whenever they are awaited, a spawned worker
      may look and a running one finish, and responses go out one after the other. */
  lemma NotHeldBack(labels: seq<Label>, t: Tr, w: nat)
    ensures var s := Run(labels).s;
      && (Enabled(s, Accept(t)) <==> s.outstanding < 16 && forall u :: u in s.list + s.data ==> u.uid != t.uid)
      && (Enabled(s, Listed) <==> s.data != [])
      && (w < |s.workers| ==> (Enabled(s, Look(w)) <==> s.workers[w].phase.Spawned?))
      && (w < |s.workers| ==> (Enabled(s, Finish(w)) <==> s.workers[w].phase.Running?))
      && (Enabled(s, Deliver) <==> s.responding == [] && s.fifo != [])
      && (Enabled(s, Retire) <==> s.responding != [])
  {
    hide Run;
    RunKeepsInv(labels);
    var s := Run(labels).s;
    if w < |s.workers| && s.workers[w].phase.Running? {
      FifoNeverBlocks(labels, w);
    }
    assert forall u :: u in s.list || u in s.data <==> u in s.list + s.data;
  }

  /** While anything is outstanding a step other than a new request is enabled. */
  lemma OutstandingCanMove(labels: seq<Label>) returns (l: Label)
    requires Run(labels).s.outstanding > 0
    ensures Enabled(Run(labels).s, l) && !l.Accept?
  {
    RunKeepsInv(labels);
    var s := Run(labels).s;
    if s.list != [] {
      l := OldestCanMove(labels);
    } else {
      l := if s.data != [] then Listed else if s.responding != [] then Retire else Deliver;
    }
  }

  function PhaseWork(phase: Phase): nat {
    match phase case Spawned => 3 case Blocked(_) => 2 case Running(_) => 1
  }

  function WorkersWork(workers: seq<Worker>): nat {
    if workers == [] then 0
    else WorkersWork(workers[..|workers| - 1]) + PhaseWork(workers[|workers| - 1].phase)
  }

  /** The steps that are left without new requests, at most. */
  function Work(s: State): nat {
    10 * |s.data| + 6 * |s.list| + WorkersWork(s.workers) + 2 * |s.fifo| + |s.responding|
  }

  lemma {:induction false} WorkersSplit(workers: seq<Worker>, w: nat, u: Worker)
    requires w < |workers|
    ensures WorkersWork(workers) == WorkersWork(DropWorker(workers, w)) + PhaseWork(workers[w].phase)
    ensures WorkersWork(workers[w := u]) == WorkersWork(DropWorker(workers, w)) + PhaseWork(u.phase)
  {
    var n := |workers| - 1;
    if w == n {
      assert DropWorker(workers, w) == workers[..n] && workers[w := u][..n] == workers[..n];
    } else {
      WorkersSplit(workers[..n], w, u);
      var dropped := DropWorker(workers, w);
      assert dropped[..|dropped| - 1] == DropWorker(workers[..n], w) && dropped[|dropped| - 1] == workers[n];
      assert workers[w := u][..n] == workers[..n][w := u];
    }
  }

  lemma NextForWork(s: State, w: nat)
    requires w < |s.workers|
    ensures Work(NextFor(s, w)) <= Work(s) - PhaseWork(s.workers[w].phase) + 2
  {
    var next := GetFirstWithID(s.list, s.workers[w].id);
    WorkersSplit(s.workers, w, if next.Some? then s.workers[w].(phase := Blocked(next.value)) else s.workers[w]);
  }

  lemma StepWorks(s: State, l: Label)
    requires Inv(s) && Enabled(s, l) && !l.Accept?
    ensures Work(Step(s, l)) < Work(s)
  {
    match l {
      case Listed =>
        var spawned := s.workers + [Worker(s.data[0].id, Spawned)];
        assert spawned[..|spawned| - 1] == s.workers;
      case Look(w) => NextForWork(s, w);
      case Begin(w) => WorkersSplit(s.workers, w, s.workers[w].(phase := Running(s.workers[w].phase.tr)));
      case Finish(w) =>
        var tr := s.workers[w].phase.tr;
        assert WorkerInv(s.list, s.workers[w]);
        SelectMembers(s.list, ID, tr.id);
        RemoveKeepsDistinct(s.list, tr);
        NextForWork(s.(list := Remove(s.list, tr.uid), fifo := s.fifo + [tr]), w);
      case _ =>
    }
  }

  /** Runs of enabled steps without new requests. */
  ghost predicate Quiet(labels: seq<Label>, quiet: seq<Label>)
    decreases quiet
  {
    quiet == []
    || (Enabled(Run(labels).s, quiet[0]) && !quiet[0].Accept? && Quiet(labels + [quiet[0]], quiet[1..]))
  }

  lemma RunOn(labels: seq<Label>, l: Label)
    ensures Run(labels + [l]) == Record(Run(labels), l)
  {
    assert (labels + [l])[..|labels|] == labels;
  }

  lemma QuietStep(labels: seq<Label>, l: Label)
    requires Enabled(Run(labels).s, l) && !l.Accept?
    ensures Work(Run(labels + [l]).s) < Work(Run(labels).s)
  {
    hide Run, Step, Work;
    RunKeepsInv(labels);
    StepWorks(Run(labels).s, l);
    RunOn(labels, l);
  }

  /** Every accepted transaction is answered: whatever the order of the threads, only
      so many steps fit, and when none is left nothing is outstanding. */
  lemma {:induction false} AllAnswered(labels: seq<Label>, quiet: seq<Label>)
    requires Quiet(labels, quiet)
    ensures |quiet| + Work(Run(labels + quiet).s) <= Work(Run(labels).s)
    ensures (forall l :: Enabled(Run(labels + quiet).s, l) ==> l.Accept?) ==> Run(labels + quiet).s.outstanding == 0
    decreases quiet
  {
    hide Run, Work, Enabled;
    if quiet == [] {
      assert labels + quiet == labels;
      if Run(labels).s.outstanding > 0 {
        var l := OutstandingCanMove(labels);
      }
    } else {
      QuietStep(labels, quiet[0]);
      AllAnswered(labels + [quiet[0]], quiet[1..]);
      assert labels + [quiet[0]] + quiet[1..] == labels + quiet;
    }
  }
}
