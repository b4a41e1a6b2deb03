/** The two AXI4 write checkers watch the same clock edges and must agree which
    response IDs may come: axi_handshakes_checker counts, check_wr_tx keeps the
    transactions themselves. Both pair the k-th write address with the k-th
    WLAST, whichever of the two comes first. */
module AxiPairing {
  import opened Common

  datatype Aw = Aw(id: nat, len: nat)

  /** The handshakes that complete at one clock edge: AW, W (with its wlast), B. */
  datatype Edge = Edge(aw: Option<Aw>, w: Option<bool>, b: Option<nat>)

  function RemoveFirst(s: seq<nat>, x: nat): seq<nat>
  {
    if s == [] then [] else if s[0] == x then s[1..] else [s[0]] + RemoveFirst(s[1..], x)
  }

  // ---- axi_handshakes_checker::run, AXI4 with IDs ----

  datatype Counts = Counts(wd: int, b: nat, aw: nat, wlast: nat, awids: seq<nat>, bids: seq<nat>)

  class HandshakesChecker {
    var wd: int
    var b: nat
    var aw: nat
    var wlast: nat
    var awids: seq<nat>
    var bids: seq<nat>

    constructor ()
      ensures Value() == Counts(0, 0, 0, 0, [], [])
    {
      wd, b, aw, wlast, awids, bids := 0, 0, 0, 0, [], [];
    }

    function Value(): Counts
      reads this
    {
      Counts(wd, b, aw, wlast, awids, bids)
    }

    method OnAw(a: Aw)
      modifies this
      ensures Value() == CountAw(old(Value()), Some(a))
    {
      wd := wd + a.len + 1;
      if wlast > aw {
        b := b + 1;
        wlast := wlast - 1;
        bids := bids + [a.id];
      } else {
        aw := aw + 1;
        awids := awids + [a.id];
      }
    }

    /** The assertion is the checker's own: a WLAST that finds an address counted
        finds its ID too. */
    method OnW(last: bool)
      requires CountsInv(Value())
      modifies this
      ensures Value() == CountW(old(Value()), Some(last))
    {
      wd := wd - 1;
      if last {
        if aw > wlast {
          assert awids != [];
          b := b + 1;
          aw := aw - 1;
          bids := bids + [awids[0]];
          awids := awids[1..];
        } else {
          wlast := wlast + 1;
        }
      }
    }

    method OnB(id: nat)
      requires CountsInv(Value())
      modifies this
      ensures Value() == CountB(old(Value()), Some(id))
    {
      if id in bids {
        bids := RemoveFirst(bids, id);
        b := b - 1;
      }
    }

    /** One clock edge. */
    method Clock(e: Edge)
      requires CountsInv(Value())
      modifies this
      ensures Value() == CountEdge(old(Value()), e) && CountsInv(Value())
    {
      CountEdgeKeeps(Value(), e);
      if e.aw.Some? { OnAw(e.aw.value); }
      if e.w.Some? { OnW(e.w.value); }
      if e.b.Some? { OnB(e.b.value); }
    }
  }

  function CountAw(c: Counts, aw: Option<Aw>): Counts
  {
    if aw.None? then c
    else if c.wlast > c.aw then
      c.(wd := c.wd + aw.value.len + 1, b := c.b + 1, wlast := c.wlast - 1, bids := c.bids + [aw.value.id])
    else
      c.(wd := c.wd + aw.value.len + 1, aw := c.aw + 1, awids := c.awids + [aw.value.id])
  }

  function CountW(c: Counts, w: Option<bool>): Counts
  {
    if w.None? then c
    else if !w.value then c.(wd := c.wd - 1)
    else if c.aw > c.wlast && c.awids != [] then
      c.(wd := c.wd - 1, b := c.b + 1, aw := c.aw - 1, bids := c.bids + [c.awids[0]], awids := c.awids[1..])
    else
      c.(wd := c.wd - 1, wlast := c.wlast + 1)
  }

  function CountB(c: Counts, b: Option<nat>): Counts
  {
    if b.Some? && b.value in c.bids && c.b > 0 then
      c.(b := c.b - 1, bids := RemoveFirst(c.bids, b.value))
    else c
  }

  function CountEdge(c: Counts, e: Edge): Counts {
    CountB(CountW(CountAw(c, e.aw), e.w), e.b)
  }

  /** The counters count the lists, and never do addresses and WLASTs wait for
      each other at the same time. */
  ghost predicate CountsInv(c: Counts) {
    c.b == |c.bids| && c.aw == |c.awids| && !(c.aw > 0 && c.wlast > 0)
  }

  lemma {:induction false} RemoveFirstLength(s: seq<nat>, x: nat)
    requires x in s
    ensures |RemoveFirst(s, x)| == |s| - 1
  {
    if s[0] != x { RemoveFirstLength(s[1..], x); }
  }

  lemma CountEdgeKeeps(c: Counts, e: Edge)
    requires CountsInv(c)
    ensures CountsInv(CountAw(c, e.aw)) && CountsInv(CountW(CountAw(c, e.aw), e.w)) && CountsInv(CountEdge(c, e))
  {
    var c2 := CountW(CountAw(c, e.aw), e.w);
    if e.b.Some? && e.b.value in c2.bids { RemoveFirstLength(c2.bids, e.b.value); }
  }

  // ---- check_wr_tx::wr_check, AXI4 ----

  /** A write address with the beat it expects next (1 for the first). */
  datatype Wt = Wt(id: nat, numBeats: nat, beat: nat)

  /** `premature` counts the bursts reported because WLAST came too early, and
      `overflow` the entries reported and dropped because a list was full. */
  datatype Lists = Lists(wt: seq<Wt>, wdata: seq<bool>, resp: seq<nat>, premature: nat, overflow: nat)

  const AXI4_MAX_BURSTLENGTH: nat := 256

  class WriteTxChecker {
    var wtList: seq<Wt>
    var wdataList: seq<bool>
    var respList: seq<nat>
    var premature: nat
    var overflow: nat
    var unexpected: nat
    const maxDepth: nat

    constructor (maxDepth: nat)
      ensures Value() == Lists([], [], [], 0, 0) && unexpected == 0 && this.maxDepth == maxDepth
    {
      wtList, wdataList, respList, premature, overflow, unexpected := [], [], [], 0, 0, 0;
      this.maxDepth := maxDepth;
    }

    function Value(): Lists
      reads this
    {
      Lists(wtList, wdataList, respList, premature, overflow)
    }

    /** process_aw_w_axi4. */
    method Process()
      modifies this`wtList, this`wdataList, this`respList, this`premature, this`overflow
      ensures Value() == ProcessLists(old(Value()), maxDepth)
    {
      while wtList != [] && wdataList != []
        invariant ProcessLists(Value(), maxDepth) == ProcessLists(old(Value()), maxDepth)
        decreases |wdataList|
      {
        var wt := wtList[0].(beat := wtList[0].beat + 1);
        wtList := [wt] + wtList[1..];
        if wdataList[0] {
          if wt.beat <= wt.numBeats { premature := premature + 1; }
          wtList := wtList[1..];
          if |respList| < maxDepth { respList := respList + [wt.id]; } else { overflow := overflow + 1; }
        }
        wdataList := wdataList[1..];
      }
    }

    method Clock(e: Edge)
      modifies this
      ensures Value() == ListEdge(old(Value()), e, maxDepth)
      ensures unexpected == old(unexpected) + (if Refused(old(Value()), e, maxDepth) then 1 else 0)
    {
      if e.aw.Some? {
        if |wtList| < maxDepth {
          wtList := wtList + [Wt(e.aw.value.id, e.aw.value.len + 1, 1)];
        } else {
          overflow := overflow + 1;
        }
      }
      if e.w.Some? {
        if |wdataList| < maxDepth * AXI4_MAX_BURSTLENGTH {
          wdataList := wdataList + [e.w.value];
        } else {
          overflow := overflow + 1;
        }
      }
      Process();
      if e.b.Some? {
        if e.b.value in respList {
          respList := RemoveFirst(respList, e.b.value);
        } else {
          unexpected := unexpected + 1;
        }
      }
    }
  }

  /** The oldest beat goes to the oldest address that still lacks its WLAST. */
  function ProcessLists(l: Lists, depth: nat): Lists
    decreases |l.wdata|
  {
    if l.wt == [] || l.wdata == [] then l
    else
      var wt := l.wt[0].(beat := l.wt[0].beat + 1);
      if l.wdata[0] then ProcessLists(PairOldest(l, wt, depth), depth)
      else ProcessLists(l.(wt := [wt] + l.wt[1..], wdata := l.wdata[1..]), depth)
  }

  /** The oldest address and a WLAST become an expected response. */
  function PairOldest(l: Lists, wt: Wt, depth: nat): (r: Lists)
    requires l.wt != [] && l.wdata != []
    ensures |r.wdata| == |l.wdata| - 1
  {
    Lists(l.wt[1..], l.wdata[1..],
          if |l.resp| < depth then l.resp + [wt.id] else l.resp,
          if wt.beat <= wt.numBeats then l.premature + 1 else l.premature,
          if |l.resp| < depth then l.overflow else l.overflow + 1)
  }

  function PushAw(l: Lists, aw: Option<Aw>, depth: nat): Lists {
    if aw.None? then l
    else if |l.wt| < depth then l.(wt := l.wt + [Wt(aw.value.id, aw.value.len + 1, 1)])
    else l.(overflow := l.overflow + 1)
  }

  function PushW(l: Lists, w: Option<bool>, depth: nat): Lists {
    if w.None? then l
    else if |l.wdata| < depth * AXI4_MAX_BURSTLENGTH then l.(wdata := l.wdata + [w.value])
    else l.(overflow := l.overflow + 1)
  }

  function ListAwW(l: Lists, e: Edge, depth: nat): Lists {
    ProcessLists(PushW(PushAw(l, e.aw, depth), e.w, depth), depth)
  }

  function ListEdge(l: Lists, e: Edge, depth: nat): Lists {
    var l' := ListAwW(l, e, depth);
    if e.b.Some? && e.b.value in l'.resp then l'.(resp := RemoveFirst(l'.resp, e.b.value)) else l'
  }

  /** The B handshake of the edge is reported as unexpected. */
  predicate Refused(l: Lists, e: Edge, depth: nat) {
    e.b.Some? && e.b.value !in ListAwW(l, e, depth).resp
  }

  // ---- agreement ----

  function Ids(wt: seq<Wt>): seq<nat> {
    if wt == [] then [] else [wt[0].id] + Ids(wt[1..])
  }

  function CountLast(wdata: seq<bool>): nat {
    if wdata == [] then 0 else (if wdata[0] then 1 else 0) + CountLast(wdata[1..])
  }

  /** Addresses, and WLASTs, that have no partner yet, and the response IDs. */
  datatype Pending = Pending(awids: seq<nat>, wlast: nat, bids: seq<nat>)

  /** Pairs in order as long as both sides have something. */
  function Pair(p: Pending): Pending
    decreases p.wlast
  {
    if p.awids == [] || p.wlast == 0 then p
    else Pair(Pending(p.awids[1..], p.wlast - 1, p.bids + [p.awids[0]]))
  }

  function PendingOfLists(l: Lists): Pending {
    Pending(Ids(l.wt), CountLast(l.wdata), l.resp)
  }

  function PendingOfCounts(c: Counts): Pending {
    Pending(c.awids, c.wlast, c.bids)
  }

  lemma {:induction false} OverflowGrows(l: Lists, depth: nat)
    ensures ProcessLists(l, depth).overflow >= l.overflow
    decreases |l.wdata|
  {
    if l.wt != [] && l.wdata != [] {
      var wt := l.wt[0].(beat := l.wt[0].beat + 1);
      if l.wdata[0] {
        OverflowGrows(PairOldest(l, wt, depth), depth);
      } else {
        OverflowGrows(l.(wt := [wt] + l.wt[1..], wdata := l.wdata[1..]), depth);
      }
    }
  }

  /** The transaction checker pairs addresses with WLASTs, beat counts aside, as
      long as it drops nothing. */
  lemma {:induction false} ProcessPairs(l: Lists, depth: nat)
    requires ProcessLists(l, depth).overflow == l.overflow
    ensures PendingOfLists(ProcessLists(l, depth)) == Pair(PendingOfLists(l))
    ensures var l' := ProcessLists(l, depth); l'.wt == [] || l'.wdata == []
    decreases |l.wdata|
  {
    if l.wt != [] && l.wdata != [] {
      var wt := l.wt[0].(beat := l.wt[0].beat + 1);
      if l.wdata[0] {
        OverflowGrows(PairOldest(l, wt, depth), depth);
        ProcessPairs(PairOldest(l, wt, depth), depth);
      } else {
        ProcessPairs(l.(wt := [wt] + l.wt[1..], wdata := l.wdata[1..]), depth);
        assert Ids([wt] + l.wt[1..]) == Ids(l.wt);
      }
    }
  }

  lemma {:induction false} IdsAppend(wt: seq<Wt>, x: Wt)
    ensures Ids(wt + [x]) == Ids(wt) + [x.id]
  {
    if wt == [] {
      assert wt + [x] == [x];
    } else {
      assert (wt + [x])[1..] == wt[1..] + [x];
      IdsAppend(wt[1..], x);
    }
  }

  lemma {:induction false} CountLastAppend(wdata: seq<bool>, x: bool)
    ensures CountLast(wdata + [x]) == CountLast(wdata) + (if x then 1 else 0)
  {
    if wdata == [] {
      assert wdata + [x] == [x];
    } else {
      assert (wdata + [x])[1..] == wdata[1..] + [x];
      CountLastAppend(wdata[1..], x);
    }
  }

  /** What both checkers see of an edge, before pairing. */
  function Add(p: Pending, e: Edge): Pending {
    Pending(if e.aw.Some? then p.awids + [e.aw.value.id] else p.awids,
            if e.w == Some(true) then p.wlast + 1 else p.wlast, p.bids)
  }

  lemma ListAwWPairs(l: Lists, e: Edge, depth: nat)
    requires ListAwW(l, e, depth).overflow == l.overflow
    ensures PendingOfLists(ListAwW(l, e, depth)) == Pair(Add(PendingOfLists(l), e))
  {
    var pushed := PushW(PushAw(l, e.aw, depth), e.w, depth);
    OverflowGrows(pushed, depth);
    Pushed(l, e, depth);
    ProcessPairs(pushed, depth);
  }

  lemma Pushed(l: Lists, e: Edge, depth: nat)
    ensures var pushed := PushW(PushAw(l, e.aw, depth), e.w, depth);
      && pushed.overflow >= l.overflow
      && (pushed.overflow == l.overflow ==> PendingOfLists(pushed) == Add(PendingOfLists(l), e))
  {
    if e.aw.Some? { IdsAppend(l.wt, Wt(e.aw.value.id, e.aw.value.len + 1, 1)); }
    if e.w.Some? { CountLastAppend(l.wdata, e.w.value); }
  }

  lemma CountAwWPairs(c: Counts, e: Edge)
    requires CountsInv(c)
    ensures PendingOfCounts(CountW(CountAw(c, e.aw), e.w)) == Pair(Add(PendingOfCounts(c), e))
  {
    var p := Add(PendingOfCounts(c), e);
    if p.awids != [] && p.wlast > 0 {
      var q := Pending(p.awids[1..], p.wlast - 1, p.bids + [p.awids[0]]);
      assert q.awids == [] || q.wlast == 0;
      assert Pair(p) == q;
    }
  }

  function Counted(edges: seq<Edge>): Counts {
    if edges == [] then Counts(0, 0, 0, 0, [], []) else CountEdge(Counted(edges[..|edges| - 1]), edges[|edges| - 1])
  }

  function Listed(edges: seq<Edge>, depth: nat): Lists {
    if edges == [] then Lists([], [], [], 0, 0)
    else ListEdge(Listed(edges[..|edges| - 1], depth), edges[|edges| - 1], depth)
  }

  /** The counters count their lists after every trace. */
  lemma {:induction false} CountsAlways(edges: seq<Edge>)
    ensures CountsInv(Counted(edges))
  {
    if edges != [] {
      CountsAlways(edges[..|edges| - 1]);
      CountEdgeKeeps(Counted(edges[..|edges| - 1]), edges[|edges| - 1]);
    }
  }

  lemma {:induction false} AgreeUntilDrop(edges: seq<Edge>, depth: nat)
    requires Listed(edges, depth).overflow == 0
    ensures PendingOfLists(Listed(edges, depth)) == PendingOfCounts(Counted(edges))
  {
    if edges != [] {
      var n := |edges| - 1;
      var c, l := Counted(edges[..n]), Listed(edges[..n], depth);
      var pushed := PushW(PushAw(l, edges[n].aw, depth), edges[n].w, depth);
      OverflowGrows(pushed, depth);
      Pushed(l, edges[n], depth);
      AgreeUntilDrop(edges[..n], depth);
      CountsAlways(edges[..n]);
      CountEdgeKeeps(c, edges[n]);
      ListAwWPairs(l, edges[n], depth);
      CountAwWPairs(c, edges[n]);
    }
  }

  // ---- the k-th address with the k-th WLAST ----

  function AwIds(edges: seq<Edge>): seq<nat> {
    if edges == [] then []
    else AwIds(edges[..|edges| - 1]) + (if edges[|edges| - 1].aw.Some? then [edges[|edges| - 1].aw.value.id] else [])
  }

  function WLasts(edges: seq<Edge>): nat {
    if edges == [] then 0
    else WLasts(edges[..|edges| - 1]) + (if edges[|edges| - 1].w == Some(true) then 1 else 0)
  }

  /** The IDs in the order in which they became response IDs. */
  function Paired(edges: seq<Edge>): seq<nat> {
    if edges == [] then []
    else
      var c := Counted(edges[..|edges| - 1]);
      var c' := CountW(CountAw(c, edges[|edges| - 1].aw), edges[|edges| - 1].w);
      Paired(edges[..|edges| - 1]) + (if |c.bids| <= |c'.bids| then c'.bids[|c.bids|..] else [])
  }

  function Min(a: nat, b: nat): nat {
    if a < b then a else b
  }

  /** The k-th response ID is that of the k-th address, as soon as both that
      address and the k-th WLAST have been seen; nothing else is waiting. */
  lemma {:induction false} KthWithKth(edges: seq<Edge>)
    ensures var n := Min(|AwIds(edges)|, WLasts(edges));
      && Paired(edges) == AwIds(edges)[..n]
      && Counted(edges).awids == AwIds(edges)[n..]
      && Counted(edges).wlast == WLasts(edges) - n
  {
    if edges != [] {
      var m := |edges| - 1;
      KthWithKth(edges[..m]);
      CountsAlways(edges[..m]);
      var c, e := Counted(edges[..m]), edges[m];
      CountAwWPairs(c, e);
      var ids, lasts := AwIds(edges[..m]), WLasts(edges[..m]);
      var n := Min(|ids|, lasts);
      var n' := Min(|ids + AwOf(e)|, lasts + (if e.w == Some(true) then 1 else 0));
      PairNext(c, e, ids, lasts);
      PairedStep(edges, (ids + AwOf(e))[n..n']);
      Glue(ids, AwOf(e), n, n');
    }
  }

  lemma SliceOne(s: seq<nat>, n: nat)
    requires n < |s|
    ensures s[n..n + 1] == [s[n]]
  {
  }

  lemma Glue(ids: seq<nat>, more: seq<nat>, n: nat, n': nat)
    requires n <= |ids| && n <= n' <= |ids + more|
    ensures ids[..n] + (ids + more)[n..n'] == (ids + more)[..n']
  {
  }

  lemma PairedStep(edges: seq<Edge>, next: seq<nat>)
    requires edges != []
    requires var c, e := Counted(edges[..|edges| - 1]), edges[|edges| - 1];
             CountW(CountAw(c, e.aw), e.w).bids == c.bids + next
    ensures Paired(edges) == Paired(edges[..|edges| - 1]) + next
    ensures var c, e := Counted(edges[..|edges| - 1]), edges[|edges| - 1];
            var c' := CountW(CountAw(c, e.aw), e.w);
            && Counted(edges).awids == c'.awids && Counted(edges).wlast == c'.wlast
            && AwIds(edges) == AwIds(edges[..|edges| - 1]) + AwOf(e)
            && WLasts(edges) == WLasts(edges[..|edges| - 1]) + (if e.w == Some(true) then 1 else 0)
  {
  }

  function AwOf(e: Edge): seq<nat> {
    if e.aw.Some? then [e.aw.value.id] else []
  }

  /** One edge, when `ids` and `lasts` have come before it and are paired as far
      as possible: what it pairs is the next of `ids`. */
  lemma PairNext(c: Counts, e: Edge, ids: seq<nat>, lasts: nat)
    requires CountsInv(c)
    requires c.awids == ids[Min(|ids|, lasts)..] && c.wlast == lasts - Min(|ids|, lasts)
    ensures var ids' := ids + AwOf(e);
            var lasts' := lasts + (if e.w == Some(true) then 1 else 0);
            var n := Min(|ids|, lasts);
            var n' := Min(|ids'|, lasts');
            var p := Pair(Add(PendingOfCounts(c), e));
            && n <= n' && p.awids == ids'[n'..] && p.wlast == lasts' - n' && p.bids == c.bids + ids'[n..n']
  {
    hide Pair;
    var p := Add(PendingOfCounts(c), e);
    var n := Min(|ids|, lasts);
    WaitAfter(c.awids, ids, AwOf(e), n);
    PairsOne(p, ids + AwOf(e), p.wlast + n, n);
  }

  lemma WaitAfter(awids: seq<nat>, ids: seq<nat>, more: seq<nat>, n: nat)
    requires n <= |ids| && awids == ids[n..]
    ensures awids + more == (ids + more)[n..]
  {
  }

  /** With n of `ids` paired, at most one more can be. */
  lemma PairsOne(p: Pending, ids: seq<nat>, lasts: nat, n: nat)
    requires n <= |ids| && n <= lasts && p.awids == ids[n..] && p.wlast == lasts - n
    requires |p.awids| <= 1 || p.wlast <= 1
    ensures var n', q := Min(|ids|, lasts), Pair(p);
            q.awids == ids[n'..] && q.wlast == lasts - n' && q.bids == p.bids + ids[n..n']
  {
    if p.awids != [] && p.wlast > 0 {
      var q := Pending(p.awids[1..], p.wlast - 1, p.bids + [p.awids[0]]);
      assert Pair(p) == Pair(q) == q;
      SliceOne(ids, n);
    } else {
      assert ids[n..n] == [];
    }
  }

  // ---- what check_wr_tx holds after a trace ----

  predicate Last(e: Edge) {
    e.w.Some? && e.w.value
  }

  /** What has been seen on the channels: the addresses, for every WLAST the beats
      of its burst before it, and the beats since the last one. */
  datatype Seen = Seen(aws: seq<Aw>, bursts: seq<nat>, tail: nat) {

    /** How many addresses have got their WLAST. */
    function Done(): (n: nat)
      ensures n <= |aws| && n <= |bursts|
    {
      Min(|aws|, |bursts|)
    }

    function See(e: Edge): Seen {
      Seen(if e.aw.Some? then aws + [e.aw.value] else aws,
           if Last(e) then bursts + [tail] else bursts,
           if e.w.None? then tail else if Last(e) then 0 else tail + 1)
    }

    /** The wlast flags of the beats whose address has not come. */
    function EarlyBeats(): seq<bool> {
      if |aws| > |bursts| then [] else Beats(bursts[Done()..], tail)
    }

    /** A response becomes due. */
    predicate Pairs(e: Edge) {
      See(e).Done() > Done()
    }
  }

  function SeenOn(edges: seq<Edge>): Seen {
    if edges == [] then Seen([], [], 0) else SeenOn(edges[..|edges| - 1]).See(edges[|edges| - 1])
  }

  function Falses(k: nat): (r: seq<bool>)
    ensures |r| == k
  {
    seq(k, _ => false)
  }

  function Beats(bursts: seq<nat>, tail: nat): seq<bool> {
    if bursts == [] then Falses(tail) else Falses(bursts[0]) + [true] + Beats(bursts[1..], tail)
  }

  /** The addresses that wait for their WLAST: the beats since the last one belong
      to the oldest. */
  function Open(aws: seq<Aw>, tail: nat): (r: seq<Wt>)
    ensures |r| == |aws|
  {
    seq(|aws|, k requires 0 <= k < |aws| => Wt(aws[k].id, aws[k].len + 1, if k == 0 then 1 + tail else 1))
  }

  /** The bursts among the first n whose WLAST came before the announced beat. */
  function Early(aws: seq<Aw>, bursts: seq<nat>, n: nat): nat
    requires n <= |aws| && n <= |bursts|
  {
    if n == 0 then 0
    else Early(aws, bursts, n - 1) + (if bursts[n - 1] + 1 < aws[n - 1].len + 1 then 1 else 0)
  }

  function ListsAfter(t: Seen, resp: seq<nat>): Lists {
    Lists(Open(t.aws[t.Done()..], t.tail), t.EarlyBeats(), resp, Early(t.aws, t.bursts, t.Done()), 0)
  }

  /** The depth tests pass at an edge: there is room for the address, for the beat,
      and for the response that becomes due. */
  predicate Room(t: Seen, e: Edge, responses: nat, depth: nat) {
    && (e.aw.Some? ==> |t.aws| - t.Done() < depth)
    && (e.w.Some? ==> |t.EarlyBeats()| < depth * AXI4_MAX_BURSTLENGTH)
    && (t.Pairs(e) ==> responses < depth)
  }

  /** They pass at every edge of the trace. */
  predicate HasRoom(edges: seq<Edge>, depth: nat) {
    edges != [] ==>
      var before, e := edges[..|edges| - 1], edges[|edges| - 1];
      HasRoom(before, depth) && Room(SeenOn(before), e, |Counted(before).bids|, depth)
  }

  lemma {:induction false} BeatsNext(bursts: seq<nat>, tail: nat)
    ensures Beats(bursts, tail) + [false] == Beats(bursts, tail + 1)
    ensures Beats(bursts, tail) + [true] == Beats(bursts + [tail], 0)
  {
    if bursts == [] {
      assert Beats([tail], 0) == Falses(tail) + [true] + Beats([], 0);
      assert Falses(tail) + [false] == Falses(tail + 1);
    } else {
      var rest := bursts[1..];
      BeatsNext(rest, tail);
      assert (bursts + [tail])[1..] == rest + [tail];
      assert Beats(bursts, tail) == Falses(bursts[0]) + [true] + Beats(rest, tail);
    }
  }

  lemma {:induction false} EarlyPrefix(aws: seq<Aw>, bursts: seq<nat>, n: nat, aws': seq<Aw>, bursts': seq<nat>)
    requires n <= |aws| && n <= |bursts| && aws <= aws' && bursts <= bursts'
    ensures Early(aws, bursts, n) == Early(aws', bursts', n)
  {
    if n > 0 { EarlyPrefix(aws, bursts, n - 1, aws', bursts'); }
  }

  lemma OneBeat(wt: Wt, more: seq<Wt>, rest: seq<bool>, l: Lists, depth: nat)
    ensures ProcessLists(l.(wt := [wt] + more, wdata := [false] + rest), depth)
            == ProcessLists(l.(wt := [wt.(beat := wt.beat + 1)] + more, wdata := rest), depth)
  {
    assert ([false] + rest)[1..] == rest && ([wt] + more)[1..] == more;
  }

  /** Beats without WLAST are counted to the oldest address. */
  lemma {:induction false} Counting(wt: Wt, more: seq<Wt>, k: nat, rest: seq<bool>, l: Lists, depth: nat)
    ensures ProcessLists(l.(wt := [wt] + more, wdata := Falses(k) + rest), depth)
            == ProcessLists(l.(wt := [wt.(beat := wt.beat + k)] + more, wdata := rest), depth)
    decreases k
  {
    hide ProcessLists;
    if k == 0 {
      assert Falses(0) + rest == rest;
    } else {
      assert Falses(k) + rest == [false] + (Falses(k - 1) + rest);
      OneBeat(wt, more, Falses(k - 1) + rest, l, depth);
      Counting(wt.(beat := wt.beat + 1), more, k - 1, rest, l, depth);
    }
  }

  /** The oldest address takes the beats up to the next WLAST, whatever waits behind
      them and whether or not the response list is full: its burst is reported
      exactly when that WLAST comes before the announced beat. */
  lemma OneBurst(wt: Wt, more: seq<Wt>, beats: nat, rest: seq<bool>, l: Lists, depth: nat)
    ensures ProcessLists(l.(wt := [wt] + more, wdata := Falses(beats) + [true] + rest), depth)
            == ProcessLists(Lists(more, rest, if |l.resp| < depth then l.resp + [wt.id] else l.resp,
                                  l.premature + (if wt.beat + beats < wt.numBeats then 1 else 0),
                                  if |l.resp| < depth then l.overflow else l.overflow + 1), depth)
  {
    var wt' := wt.(beat := wt.beat + beats);
    assert Falses(beats) + [true] + rest == Falses(beats) + ([true] + rest);
    Counting(wt, more, beats, [true] + rest, l, depth);
    assert ([true] + rest)[1..] == rest && ([wt'] + more)[1..] == more;
  }

  // ---- one edge ----

  function WtOf(e: Edge): seq<Wt> {
    if e.aw.Some? then [Wt(e.aw.value.id, e.aw.value.len + 1, 1)] else []
  }

  function BeatOf(e: Edge): seq<bool> {
    if e.w.Some? then [e.w.value] else []
  }

  /** The lists of a trace with the edge's address and beat pushed. */
  function Arrived(t: Seen, e: Edge, resp: seq<nat>): Lists {
    var l := ListsAfter(t, resp);
    l.(wt := l.wt + WtOf(e), wdata := l.wdata + BeatOf(e))
  }

  /** The lists after processing: at most one response more. */
  function Settled(t: Seen, e: Edge, resp: seq<nat>, depth: nat): Lists {
    if !t.Pairs(e) then ListsAfter(t.See(e), resp)
    else if |resp| < depth then ListsAfter(t.See(e), resp + [t.See(e).aws[t.Done()].id])
    else ListsAfter(t.See(e), resp).(overflow := 1)
  }

  lemma SeeEarly(t: Seen, e: Edge)
    ensures Early(t.See(e).aws, t.See(e).bursts, t.Done()) == Early(t.aws, t.bursts, t.Done())
  {
    EarlyPrefix(t.aws, t.bursts, t.Done(), t.See(e).aws, t.See(e).bursts);
  }

  lemma BeatsOn(t: Seen, e: Edge, k: nat)
    requires k <= |t.bursts|
    ensures Beats(t.bursts[k..], t.tail) + BeatOf(e) == Beats(t.See(e).bursts[k..], t.See(e).tail)
  {
    hide Beats;
    var bursts := t.bursts[k..];
    BeatsNext(bursts, t.tail);
    if e.w.None? {
      assert Beats(bursts, t.tail) + [] == Beats(bursts, t.tail);
    } else if Last(e) {
      assert t.See(e).bursts[k..] == bursts + [t.tail];
    }
  }

  function Oldest(t: Seen): Wt
    requires |t.aws| > |t.bursts|
  {
    var aw := t.aws[|t.bursts|];
    Wt(aw.id, aw.len + 1, 1 + t.tail)
  }

  /** The addresses behind the oldest one. */
  function Behind(t: Seen): seq<Wt>
    requires |t.aws| > |t.bursts|
  {
    Open(t.aws[|t.bursts| + 1..], 0)
  }

  lemma OldestFirst(t: Seen)
    requires |t.aws| > |t.bursts|
    ensures ListsAfter(t, []).wt == [Oldest(t)] + Behind(t)
    ensures t.Done() == |t.bursts| && t.EarlyBeats() == []
  {
  }

  lemma ArrivedBehind(t: Seen, e: Edge, resp: seq<nat>)
    requires |t.aws| > |t.bursts|
    ensures var t1 := t.See(e.(w := None));
      && |t1.aws| > |t1.bursts|
      && Arrived(t, e, resp).wt == [Oldest(t)] + Behind(t1) && Arrived(t, e, resp).wdata == BeatOf(e)
  {
    hide Seen.EarlyBeats, Early;
    OldestFirst(t);
    var n, t1 := |t.bursts| + 1, t.See(e.(w := None));
    if e.aw.Some? {
      assert t1.aws[n..] == t.aws[n..] + [e.aw.value];
    }
    assert Behind(t1) == Behind(t) + WtOf(e);
    assert [Oldest(t)] + Behind(t) + WtOf(e) == [Oldest(t)] + (Behind(t) + WtOf(e));
  }

  lemma WLastTaken(t: Seen, e: Edge, resp: seq<nat>)
    requires |t.aws| > |t.bursts| && Last(e)
    ensures var t', n := t.See(e), t.Done();
      && t'.Done() == n + 1 && t'.EarlyBeats() == [] && t'.aws[n].id == Oldest(t).id
      && ListsAfter(t', resp).wt == Behind(t.See(e.(w := None)))
      && Early(t'.aws, t'.bursts, n + 1)
         == Early(t.aws, t.bursts, n) + (if Oldest(t).beat < Oldest(t).numBeats then 1 else 0)
  {
    var t', n := t.See(e), t.Done();
    SeeEarly(t, e);
    assert t'.bursts[n + 1..] == [] && Falses(0) == [];
  }

  lemma EarlyNext(t: Seen, e: Edge)
    requires t.Done() < |t.See(e).aws| && t.Done() < |t.See(e).bursts|
    ensures var t', n := t.See(e), t.Done();
            Early(t'.aws, t'.bursts, n + 1)
            == Early(t.aws, t.bursts, n) + (if t'.bursts[n] + 1 < t'.aws[n].len + 1 then 1 else 0)
  {
    SeeEarly(t, e);
  }

  /** Addresses wait: the beat goes to the oldest. */
  lemma LastBeatTaken(t: Seen, e: Edge, resp: seq<nat>, depth: nat)
    requires |t.aws| > |t.bursts| && Last(e)
    ensures ProcessLists(Arrived(t, e, resp), depth) == Settled(t, e, resp, depth)
  {
    hide Open, Seen.EarlyBeats, Beats, Behind, Oldest;
    ArrivedBehind(t, e, resp);
    assert Falses(0) + [true] + [] == [true];
    OneBurst(Oldest(t), Behind(t.See(e.(w := None))), 0, [], Arrived(t, e, resp), depth);
    WLastTaken(t, e, resp);
    OldestFirst(t);
  }

  lemma BeatTaken(t: Seen, e: Edge, resp: seq<nat>, depth: nat)
    requires |t.aws| > |t.bursts| && !Last(e)
    ensures ProcessLists(Arrived(t, e, resp), depth) == Settled(t, e, resp, depth)
  {
    hide Open, Seen.EarlyBeats, Beats;
    var wt, more := Oldest(t), Behind(t.See(e.(w := None)));
    ArrivedBehind(t, e, resp);
    OldestFirst(t.See(e));
    SeeEarly(t, e);
    if e.w.Some? {
      assert [false] + [] == [false];
      OneBeat(wt, more, [], Arrived(t, e, resp), depth);
    }
  }

  /** No address waits or comes: the beat has to wait. */
  lemma BeatWaits(t: Seen, e: Edge, resp: seq<nat>, depth: nat)
    requires |t.aws| <= |t.bursts| && e.aw.None?
    ensures ProcessLists(Arrived(t, e, resp), depth) == Settled(t, e, resp, depth)
  {
    var l, t', n := Arrived(t, e, resp), t.See(e), t.Done();
    SeeEarly(t, e);
    BeatsOn(t, e, n);
    assert l.wt == [];
    assert t'.Done() == n && !(|t'.aws| > |t'.bursts|);
    assert l.wdata == t'.EarlyBeats();
  }

  /** An address comes after as many WLASTs as addresses: it takes the beats since. */
  lemma AddressTakesTail(t: Seen, e: Edge, resp: seq<nat>, depth: nat)
    requires |t.aws| == |t.bursts| && e.aw.Some?
    ensures ProcessLists(Arrived(t, e, resp), depth) == Settled(t, e, resp, depth)
  {
    hide Early;
    var l, t', n := Arrived(t, e, resp), t.See(e), t.Done();
    SeeEarly(t, e);
    if Last(e) { EarlyNext(t, e); }
    var wt := WtOf(e)[0];
    assert l.wt == [wt] + [] && l.wdata == Falses(t.tail) + BeatOf(e);
    assert t'.aws[n..] == [e.aw.value];
    if Last(e) {
      assert l.wdata == Falses(t.tail) + [true] + [];
      OneBurst(wt, [], t.tail, [], l, depth);
      assert t'.bursts[n + 1..] == [] && t'.aws[n + 1..] == [] && Falses(0) == [];
    } else {
      Counting(wt, [], t.tail, BeatOf(e), l, depth);
      if e.w.Some? {
        assert [false] + [] == [false];
        OneBeat(wt.(beat := wt.beat + t.tail), [], [], l, depth);
      }
      assert ProcessLists(l, depth) == l.(wt := Open([e.aw.value], t'.tail), wdata := []);
    }
  }

  /** An address comes late: it takes the oldest burst that waits for one. */
  lemma AddressTakesBurst(t: Seen, e: Edge, resp: seq<nat>, depth: nat)
    requires |t.aws| < |t.bursts| && e.aw.Some?
    ensures ProcessLists(Arrived(t, e, resp), depth) == Settled(t, e, resp, depth)
  {
    hide Early, Falses;
    var l, t', n := Arrived(t, e, resp), t.See(e), t.Done();
    EarlyNext(t, e);
    var rest := Beats(t.bursts[n + 1..], t.tail) + BeatOf(e);
    assert t.bursts[n..][1..] == t.bursts[n + 1..];
    assert l.wt == [WtOf(e)[0]] + [] && l.wdata == Falses(t.bursts[n]) + [true] + rest;
    OneBurst(WtOf(e)[0], [], t.bursts[n], rest, l, depth);
    BeatsOn(t, e, n + 1);
    assert t'.Done() == n + 1 && !(|t'.aws| > |t'.bursts|);
    assert t'.EarlyBeats() == rest;
    assert t'.aws[n + 1..] == [];
  }

  lemma Settles(t: Seen, e: Edge, resp: seq<nat>, depth: nat)
    ensures ProcessLists(Arrived(t, e, resp), depth) == Settled(t, e, resp, depth)
  {
    hide *;
    if |t.aws| > |t.bursts| && Last(e) {
      LastBeatTaken(t, e, resp, depth);
    } else if |t.aws| > |t.bursts| {
      BeatTaken(t, e, resp, depth);
    } else if e.aw.None? {
      BeatWaits(t, e, resp, depth);
    } else if |t.aws| == |t.bursts| {
      AddressTakesTail(t, e, resp, depth);
    } else {
      AddressTakesBurst(t, e, resp, depth);
    }
  }

  lemma EdgeOnLists(t: Seen, e: Edge, resp: seq<nat>, depth: nat)
    ensures var l' := ListAwW(ListsAfter(t, resp), e, depth);
      && (Room(t, e, |resp|, depth) <==> l'.overflow == 0)
      && (Room(t, e, |resp|, depth) ==> l' == Settled(t, e, resp, depth))
  {
    hide ProcessLists, Open, Early, Seen.EarlyBeats;
    var pushed := PushW(PushAw(ListsAfter(t, resp), e.aw, depth), e.w, depth);
    OverflowGrows(pushed, depth);
    Settles(t, e, resp, depth);
    if pushed.overflow == 0 {
      assert pushed.wt == Arrived(t, e, resp).wt && pushed.wdata == Arrived(t, e, resp).wdata;
    }
  }

  // ---- whole traces ----

  lemma OverflowStays(l: Lists, e: Edge, depth: nat)
    ensures ListEdge(l, e, depth).overflow == ListAwW(l, e, depth).overflow >= l.overflow
  {
    hide ProcessLists;
    Pushed(l, e, depth);
    OverflowGrows(PushW(PushAw(l, e.aw, depth), e.w, depth), depth);
  }

  /** check_wr_tx drops nothing exactly when its depth tests pass, and then its lists
      are those of the trace: the addresses without WLAST with the beats the oldest has
      had, the beats without address, the responses of the other checker, and a report
      for every early WLAST. */
  lemma {:induction false} ListsOfTrace(edges: seq<Edge>, depth: nat)
    ensures HasRoom(edges, depth) <==> Listed(edges, depth).overflow == 0
    ensures HasRoom(edges, depth) ==> Listed(edges, depth) == ListsAfter(SeenOn(edges), Counted(edges).bids)
  {
    if edges == [] {
      NothingSeen();
    } else {
      var m := |edges| - 1;
      ListsOfTrace(edges[..m], depth);
      TraceStep(edges, depth);
    }
  }

  lemma NothingSeen()
    ensures ListsAfter(Seen([], [], 0), []) == Lists([], [], [], 0, 0)
  {
  }

  lemma TraceStep(edges: seq<Edge>, depth: nat)
    requires edges != []
    requires var before := edges[..|edges| - 1];
             && (HasRoom(before, depth) <==> Listed(before, depth).overflow == 0)
             && (HasRoom(before, depth) ==> Listed(before, depth) == ListsAfter(SeenOn(before), Counted(before).bids))
    ensures HasRoom(edges, depth) <==> Listed(edges, depth).overflow == 0
    ensures HasRoom(edges, depth) ==> Listed(edges, depth) == ListsAfter(SeenOn(edges), Counted(edges).bids)
  {
    hide ListAwW, Open, Early, Seen.EarlyBeats;
    var before, e := edges[..|edges| - 1], edges[|edges| - 1];
    OverflowStays(Listed(before, depth), e, depth);
    if HasRoom(before, depth) {
      EdgeOnLists(SeenOn(before), e, Counted(before).bids, depth);
      if Listed(edges, depth).overflow == 0 { AgreeUntilDrop(edges, depth); }
    }
  }

  /** After every edge of every trace for which the depth tests have passed, the two
      checkers agree, in order, on the response IDs they accept and on what still
      waits for its partner. */
  lemma CheckersAgree(edges: seq<Edge>, depth: nat)
    requires HasRoom(edges, depth)
    ensures PendingOfLists(Listed(edges, depth)) == PendingOfCounts(Counted(edges))
  {
    ListsOfTrace(edges, depth);
    AgreeUntilDrop(edges, depth);
  }

  /** The burst length check reports exactly the bursts of the trace whose WLAST
      comes before their announced beat, each once; one that comes after is not
      reported. */
  lemma ReportsOnlyEarlyWLast(edges: seq<Edge>, depth: nat)
    requires HasRoom(edges, depth)
    ensures var t := SeenOn(edges); Listed(edges, depth).premature == Early(t.aws, t.bursts, t.Done())
    ensures |SeenOn(edges).aws| == |AwIds(edges)| && |SeenOn(edges).bursts| == WLasts(edges)
  {
    ListsOfTrace(edges, depth);
    SeenCounts(edges);
  }

  lemma {:induction false} SeenCounts(edges: seq<Edge>)
    ensures |SeenOn(edges).aws| == |AwIds(edges)| && |SeenOn(edges).bursts| == WLasts(edges)
    ensures forall k :: 0 <= k < |AwIds(edges)| ==> SeenOn(edges).aws[k].id == AwIds(edges)[k]
  {
    if edges != [] { SeenCounts(edges[..|edges| - 1]); }
  }

  // ---- the beats still expected ----

  function Announced(edges: seq<Edge>): nat {
    if edges == [] then 0
    else
      var e := edges[|edges| - 1];
      Announced(edges[..|edges| - 1]) + (if e.aw.Some? then e.aw.value.len + 1 else 0)
  }

  function BeatsSeen(edges: seq<Edge>): nat {
    if edges == [] then 0
    else BeatsSeen(edges[..|edges| - 1]) + (if edges[|edges| - 1].w.Some? then 1 else 0)
  }

  /** m_wd is the announced beats less those seen, whichever comes first: below zero
      an address is expected, above zero a beat. */
  lemma {:induction false} BeatsExpected(edges: seq<Edge>)
    ensures Counted(edges).wd == Announced(edges) - BeatsSeen(edges)
  {
    if edges != [] { BeatsExpected(edges[..|edges| - 1]); }
  }

  // ---- responses ----

  function Times(s: seq<nat>, x: nat): nat {
    multiset(s)[x]
  }

  /** The responses that have become due: the addresses that have got their WLAST. */
  function Due(edges: seq<Edge>): seq<nat> {
    AwIds(edges)[..Min(|AwIds(edges)|, WLasts(edges))]
  }

  /** How many times each ID has been answered. A B handshake answers a response of
      its ID that is due and not answered yet, or none. */
  function Answered(edges: seq<Edge>): multiset<nat> {
    if edges == [] then multiset{}
    else
      var before, e := Answered(edges[..|edges| - 1]), edges[|edges| - 1];
      if e.b.Some? && before[e.b.value] < Times(Due(edges), e.b.value) then before + multiset{e.b.value} else before
  }

  /** The responses that wait: those whose rank among the responses of their ID is
      above the number of answers to it. */
  function Unanswered(due: seq<nat>, answered: multiset<nat>): seq<nat> {
    if due == [] then []
    else
      var n := |due| - 1;
      Unanswered(due[..n], answered) + (if Times(due, due[n]) > answered[due[n]] then [due[n]] else [])
  }

  lemma LastOf(due: seq<nat>)
    requires due != []
    ensures forall x: nat ::
              Times(due, x) == Times(due[..|due| - 1], x) + (if x == due[|due| - 1] then 1 else 0)
  {
    var n := |due| - 1;
    assert due == due[..n] + [due[n]];
  }

  /** Of every ID the answers and the waiting responses are those due. */
  lemma {:induction false} UnansweredCount(due: seq<nat>, answered: multiset<nat>, x: nat)
    ensures Times(Unanswered(due, answered), x)
            == if Times(due, x) > answered[x] then Times(due, x) - answered[x] else 0
  {
    if due != [] {
      UnansweredCount(due[..|due| - 1], answered, x);
      LastOf(due);
    }
  }

  lemma UnansweredHas(due: seq<nat>, answered: multiset<nat>, x: nat)
    ensures x in Unanswered(due, answered) <==> Times(due, x) > answered[x]
  {
    UnansweredCount(due, answered, x);
    assert x in Unanswered(due, answered) <==> Times(Unanswered(due, answered), x) > 0;
  }

  lemma UnansweredDue(due: seq<nat>, answered: multiset<nat>, y: nat)
    requires answered[y] <= Times(due, y)
    ensures Unanswered(due + [y], answered) == Unanswered(due, answered) + [y]
  {
    assert (due + [y])[..|due|] == due;
    LastOf(due + [y]);
  }

  lemma {:induction false} RemoveFirstAt(s: seq<nat>, y: nat, x: nat)
    ensures x in s ==> RemoveFirst(s + [y], x) == RemoveFirst(s, x) + [y]
    ensures x !in s ==> RemoveFirst(s + [y], x) == if x == y then s else s + [y]
  {
    if s == [] {
      assert s + [y] == [y] && [y][1..] == [];
    } else {
      assert (s + [y])[1..] == s[1..] + [y];
      RemoveFirstAt(s[1..], y, x);
    }
  }

  lemma {:induction false} AllAnswered(due: seq<nat>, answered: multiset<nat>, x: nat)
    requires Times(due, x) <= answered[x]
    ensures Unanswered(due, answered + multiset{x}) == Unanswered(due, answered)
  {
    if due != [] {
      LastOf(due);
      AllAnswered(due[..|due| - 1], answered, x);
    }
  }

  lemma LastWaits(due: seq<nat>, answered: multiset<nat>)
    requires due != []
    ensures var n := |due| - 1;
            Unanswered(due, answered)
            == Unanswered(due[..n], answered) + (if Times(due, due[n]) > answered[due[n]] then [due[n]] else [])
  {
  }

  /** An answer takes the oldest waiting response of its ID. */
  lemma {:induction false} UnansweredNext(due: seq<nat>, answered: multiset<nat>, x: nat)
    requires Times(due, x) > answered[x]
    ensures Unanswered(due, answered + multiset{x}) == RemoveFirst(Unanswered(due, answered), x)
  {
    hide Unanswered, RemoveFirst;
    assert due != [];
    var front, y := due[..|due| - 1], due[|due| - 1];
    var waiting := Unanswered(front, answered);
    LastOf(due);
    LastWaits(due, answered);
    LastWaits(due, answered + multiset{x});
    UnansweredHas(front, answered, x);
    RemoveFirstAt(waiting, y, x);
    if Times(front, x) > answered[x] {
      UnansweredNext(front, answered, x);
    } else {
      AllAnswered(front, answered, x);
    }
    assert waiting + [] == waiting && RemoveFirst(waiting, x) + [] == RemoveFirst(waiting, x);
  }

  /** At one edge at most one response becomes due, and the counters take it up. */
  lemma DueNext(edges: seq<Edge>) returns (next: seq<nat>)
    requires edges != []
    ensures |next| <= 1 && Due(edges) == Due(edges[..|edges| - 1]) + next
    ensures var c, e := Counted(edges[..|edges| - 1]), edges[|edges| - 1];
            CountW(CountAw(c, e.aw), e.w).bids == c.bids + next
  {
    var before, e := edges[..|edges| - 1], edges[|edges| - 1];
    var c := Counted(before);
    KthWithKth(before);
    KthWithKth(edges);
    CountsAlways(before);
    var ids, lasts := AwIds(before), WLasts(before);
    PairNext(c, e, ids, lasts);
    CountAwWPairs(c, e);
    next := (ids + AwOf(e))[Min(|ids|, lasts)..Min(|ids + AwOf(e)|, lasts + (if e.w == Some(true) then 1 else 0))];
    PairedStep(edges, next);
    AtMostOne(c, e, ids, lasts);
  }

  lemma AtMostOne(c: Counts, e: Edge, ids: seq<nat>, lasts: nat)
    requires CountsInv(c) && c.awids == ids[Min(|ids|, lasts)..] && c.wlast == lasts - Min(|ids|, lasts)
    ensures Min(|ids + AwOf(e)|, lasts + (if e.w == Some(true) then 1 else 0)) <= Min(|ids|, lasts) + 1
  {
  }

  /** The counters hold the responses due and not answered. */
  ghost predicate Expects(bids: seq<nat>, due: seq<nat>, answered: multiset<nat>) {
    bids == Unanswered(due, answered) && forall x: nat :: answered[x] <= Times(due, x)
  }

  lemma DueStep(edges: seq<Edge>)
    requires edges != []
    requires var before := edges[..|edges| - 1]; Expects(Counted(before).bids, Due(before), Answered(before))
    ensures var before, e := edges[..|edges| - 1], edges[|edges| - 1];
            Expects(CountW(CountAw(Counted(before), e.aw), e.w).bids, Due(edges), Answered(before))
  {
    hide Unanswered, CountW, CountAw, Due, Answered, Counted;
    var before := edges[..|edges| - 1];
    var next := DueNext(edges);
    if next == [] {
      assert Due(before) + [] == Due(before) && Counted(before).bids + [] == Counted(before).bids;
    } else {
      assert next == [next[0]];
      UnansweredDue(Due(before), Answered(before), next[0]);
      MoreDue(Due(before), next[0]);
    }
  }

  lemma MoreDue(due: seq<nat>, y: nat)
    ensures forall x: nat :: Times(due + [y], x) >= Times(due, x)
  {
  }

  lemma AnswerStep(c: Counts, e: Edge, due: seq<nat>, answered: multiset<nat>)
    requires c.b == |c.bids| && Expects(c.bids, due, answered)
    ensures var answered' := if e.b.Some? && answered[e.b.value] < Times(due, e.b.value)
                             then answered + multiset{e.b.value} else answered;
            Expects(CountB(c, e.b).bids, due, answered')
  {
    hide Unanswered, RemoveFirst, Times;
    if e.b.Some? {
      UnansweredHas(due, answered, e.b.value);
      if answered[e.b.value] < Times(due, e.b.value) { UnansweredNext(due, answered, e.b.value); }
    }
  }

  /** The expected IDs after any trace are those of the responses due and not
      answered, in the order in which they became due: a B handshake whose ID is
      expected is accepted and takes the oldest of its ID, any other changes nothing. */
  lemma {:induction false} ExpectedIds(edges: seq<Edge>)
    ensures Counted(edges).bids == Unanswered(Due(edges), Answered(edges))
    ensures forall x: nat :: Answered(edges)[x] <= Times(Due(edges), x)
  {
    if edges != [] {
      var before, e := edges[..|edges| - 1], edges[|edges| - 1];
      ExpectedIds(before);
      DueStep(edges);
      CountsAlways(before);
      CountEdgeKeeps(Counted(before), e);
      AnswerStep(CountW(CountAw(Counted(before), e.aw), e.w), e, Due(edges), Answered(before));
    }
  }

  /** Of every ID: what waits and what has been answered is what has become due. */
  lemma AnswersAddUp(edges: seq<Edge>, x: nat)
    ensures Times(Counted(edges).bids, x) + Answered(edges)[x] == Times(Due(edges), x)
  {
    ExpectedIds(edges);
    UnansweredCount(Due(edges), Answered(edges), x);
  }

  // ---- unexpected responses ----

  function Responses(edges: seq<Edge>): nat {
    if edges == [] then 0
    else Responses(edges[..|edges| - 1]) + (if edges[|edges| - 1].b.Some? then 1 else 0)
  }

  /** What check_wr_tx counts as unexpected. */
  function Unexpected(edges: seq<Edge>, depth: nat): nat {
    if edges == [] then 0
    else
      var before := edges[..|edges| - 1];
      Unexpected(before, depth) + (if Refused(Listed(before, depth), edges[|edges| - 1], depth) then 1 else 0)
  }

  /** check_wr_tx reports exactly the B handshakes that answer nothing. */
  lemma {:induction false} ReportsOnlyUnexpected(edges: seq<Edge>, depth: nat)
    requires HasRoom(edges, depth)
    ensures Unexpected(edges, depth) == Responses(edges) - |Answered(edges)|
    ensures Listed(edges, depth).resp == Unanswered(Due(edges), Answered(edges))
  {
    CheckersAgree(edges, depth);
    ExpectedIds(edges);
    if edges != [] {
      var before, e := edges[..|edges| - 1], edges[|edges| - 1];
      ReportsOnlyUnexpected(before, depth);
      RefusedIff(edges, depth);
    }
  }

  lemma RefusedIff(edges: seq<Edge>, depth: nat)
    requires edges != [] && HasRoom(edges, depth)
    ensures var before, e := edges[..|edges| - 1], edges[|edges| - 1];
            Refused(Listed(before, depth), e, depth)
            <==> e.b.Some? && Answered(before)[e.b.value] >= Times(Due(edges), e.b.value)
  {
    hide Unanswered, CountW, CountAw, Due, ListAwW, ListEdge, Times;
    var before, e := edges[..|edges| - 1], edges[|edges| - 1];
    ExpectedIds(before);
    DueStep(edges);
    RespBefore(edges, depth);
    if e.b.Some? { UnansweredHas(Due(edges), Answered(before), e.b.value); }
  }

  /** Before the B handshake of the edge both checkers expect the same IDs. */
  lemma RespBefore(edges: seq<Edge>, depth: nat)
    requires edges != [] && HasRoom(edges, depth)
    ensures var before, e := edges[..|edges| - 1], edges[|edges| - 1];
            ListAwW(Listed(before, depth), e, depth).resp == CountW(CountAw(Counted(before), e.aw), e.w).bids
  {
    hide ListAwW, CountW, CountAw;
    var before, e := edges[..|edges| - 1], edges[|edges| - 1];
    var l := Listed(before, depth);
    ListsOfTrace(edges, depth);
    ListsOfTrace(before, depth);
    CheckersAgree(before, depth);
    OverflowStays(l, e, depth);
    ListAwWPairs(l, e, depth);
    CountsAlways(before);
    CountAwWPairs(Counted(before), e);
  }
}
