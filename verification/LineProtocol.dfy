/** The life of one cacheline address: the copies the caches hold, the snooping
    transaction the interconnect runs on it, the line writes on their way
    downstream and the memory behind them. Every function below is what one
    atomic step of the caches or the interconnect does to that address; the
    lemmas in LineProofs.dfy show that each keeps LineInv. */
module LineProtocol {
  import opened AceTypes
  import opened Common
  import opened CacheLines

  /** One port of a SnoopTransaction: not yet answered, answered but not yet
      merged by PortDone, or merged. The issuing port counts as merged. */
  datatype Port = Pending | Answered(resp: Response) | Merged

  /** Snooping: ports are still being collected.  Push: m_ds_gp carries dirty
      data downstream.  Fetch: the request itself goes downstream.  Done: the
      response is set and the issuing cache is about to resume. */
  datatype Phase = Snooping | Push | Fetch | Done

  /** A snooping transaction as the interconnect keeps it: the attributes that
      travel back to the master (IsShared, PassDirty, OK response, data) and the
      line m_ds_gp is to write downstream. */
  datatype Txn = Txn(kind: Request, phase: Phase, ports: seq<Port>,
                     shared: bool, dirty: bool, ok: bool, data: Data, push: Option<Data>)

  /** A WriteBack or WriteClean of this line: in the downstream fifo, or already
      performed with the cache still waiting. */
  datatype Write = NoWrite | Queued | Written

  datatype View = View(copies: seq<Option<Line>>, txns: seq<Option<Txn>>, writes: seq<Write>, mem: Data)

  // ---- what the interconnect does with a transaction ----

  /** A transaction handed to the snoop engine by port r, with the cache's own
      line buffer as its data pointer. */
  function FreshTxn(kind: Request, r: nat, n: nat, buffer: Data): Txn
  {
    Txn(kind, Snooping, seq(n, p => if p == r then Merged else Pending), false, false, false, buffer, None)
  }

  /** SnoopTransaction::PortDone with update_trans_response. */
  function PortDone(t: Txn, p: nat): Txn
    requires p < |t.ports| && t.ports[p].Answered?
  {
    var resp := t.ports[p].resp;
    var hasData := resp.data.Some?;
    var passes := AllowPassDirty(INNER, t.kind.ArSnoop());
    t.(ports := t.ports[p := Merged],
       shared := t.shared || resp.shared,
       data := if hasData && t.kind.AcSnoop().IsRead() then resp.data.value else t.data,
       dirty := t.dirty || (hasData && passes && resp.dirty),
       push := if hasData && !passes && resp.dirty then resp.data else t.push,
       ok := t.ok || hasData || !t.kind.AcSnoop().IsRead())
  }

  predicate AllMerged(t: Txn) {
    forall p :: 0 <= p < |t.ports| ==> t.ports[p].Merged?
  }

  /** snoop_done_thread: clean first if dirty data may not go to the master;
      otherwise finalize, which means Done when a response is set and the
      downstream port when it is not. */
  function Drain(t: Txn): Txn
  {
    t.(phase := if t.push.Some? then Push else if t.ok then Done else Fetch)
  }

  /** The downstream access of phase Push or Fetch; an ignore command (a
      CleanUnique or MakeUnique with nobody to snoop) moves no data. */
  function Access(t: Txn, mem: Data): (Txn, Data)
  {
    if t.phase == Push && t.push.Some? then
      (t.(push := None, phase := if t.ok then Done else Fetch), t.push.value)
    else
      (t.(ok := true, phase := Done, data := if t.kind.IsRead() then mem else t.data), mem)
  }

  /** What the issuing cache's line becomes when do_tlm returns. CleanUnique
      finds its line still valid or invalidated meanwhile (and then evicts it). */
  function Install(t: Txn, tag: nat, own: Option<Line>): Option<Line>
  {
    match t.kind
    case CleanUnique => if own.Some? then Some(own.value.(shared := false)) else None
    case MakeUnique => Some(Line(true, tag, false, true, t.data))
    case _ => Some(Line(true, tag, t.shared, t.dirty, t.data))
  }

  // ---- the same on the view of one address ----

  function SnoopCopy(snoop: Snoop, copy: Option<Line>): (Option<Line>, Response)
  {
    if copy.None? then
      (None, MISS)
    else
      var (l, resp) := SnoopHit(snoop, copy.value);
      (if l.valid then Some(l) else None, resp)
  }

  ghost predicate Shape(v: View) {
    |v.copies| == |v.txns| == |v.writes|
  }

  ghost predicate Active(v: View, r: nat) {
    r < |v.txns| && v.txns[r].Some?
  }

  function AnswerView(v: View, r: nat, p: nat): View
    requires r < |v.txns| && v.txns[r].Some?
    requires p < |v.copies| && p < |v.txns[r].value.ports|
  {
    var t := v.txns[r].value;
    var (copy, resp) := SnoopCopy(t.kind.AcSnoop(), v.copies[p]);
    v.(copies := v.copies[p := copy],
       txns := v.txns[r := Some(t.(ports := t.ports[p := Answered(resp)]))])
  }

  function AccessView(v: View, r: nat): View
    requires r < |v.txns| && v.txns[r].Some?
  {
    var (t, mem) := Access(v.txns[r].value, v.mem);
    v.(txns := v.txns[r := Some(t)], mem := mem)
  }

  function CompleteView(v: View, r: nat, tag: nat): View
    requires r < |v.txns| && v.txns[r].Some? && r < |v.copies|
  {
    v.(txns := v.txns[r := None], copies := v.copies[r := Install(v.txns[r].value, tag, v.copies[r])])
  }

  // ---- the invariant ----

  ghost predicate Holds(v: View, p: nat) {
    p < |v.copies| && v.copies[p].Some?
  }

  ghost predicate DirtyCopy(v: View, p: nat) {
    Holds(v, p) && v.copies[p].value.dirty
  }

  /** All copies carry the latest value. */
  ghost predicate CopiesAgree(v: View, latest: Data) {
    forall p: nat :: Holds(v, p) ==> v.copies[p].value.valid && v.copies[p].value.data == latest
  }

  /** A copy that is not shared is the only one. */
  ghost predicate SingleWriter(v: View) {
    forall p: nat, q: nat :: Holds(v, p) && !v.copies[p].value.shared && Holds(v, q) ==> p == q
  }

  ghost predicate OneDirtyCopy(v: View) {
    forall p: nat, q: nat :: DirtyCopy(v, p) && DirtyCopy(v, q) ==> p == q
  }

  ghost predicate OneTxn(v: View) {
    forall r: nat, q: nat :: Active(v, r) && Active(v, q) ==> r == q
  }

  /** A line write belongs to the dirty copy it is taken from. */
  ghost predicate WritesCarryDirty(v: View, latest: Data) {
    forall p :: 0 <= p < |v.writes| && v.writes[p] != NoWrite ==>
      DirtyCopy(v, p) && (v.writes[p] == Written ==> v.mem == latest)
  }

  /** A response on its way to PortDone holds dirty data. */
  ghost predicate DirtyResponse(t: Txn, p: nat) {
    p < |t.ports| && t.ports[p].Answered? && t.ports[p].resp.dirty
  }

  /** The transaction is responsible for the line: it holds the PassDirty
      result, or a line still to be pushed downstream, or a dirty response. */
  ghost predicate Carries(t: Txn) {
    t.dirty || t.push.Some? || exists p: nat :: DirtyResponse(t, p)
  }

  /** The transaction has obtained the line from a snooped cache or memory. */
  ghost predicate HasData(t: Txn) {
    || (t.kind.IsRead() && t.ok)
    || t.push.Some?
    || exists p :: 0 <= p < |t.ports| && t.ports[p].Answered? && t.ports[p].resp.data.Some?
  }

  ghost predicate ResponseInv(kind: Request, resp: Response, latest: Data) {
    && (resp.data.Some? ==> resp.data.value == latest)
    && (resp.dirty ==> resp.data.Some? && kind in {ReadShared, ReadUnique, CleanUnique})
    && (resp.shared ==> resp.data.Some? && !kind.Invalidates())
    && (kind == MakeUnique ==> resp.data.None?)
    && (kind == CleanUnique && resp.data.Some? ==> resp.dirty)
  }

  /** A port that has answered either holds nothing any more or holds a shared
      copy the transaction knows about. */
  ghost predicate PortInv(t: Txn, port: Port, copy: Option<Line>, latest: Data) {
    match port
    case Pending => true
    case Answered(resp) =>
      && ResponseInv(t.kind, resp, latest)
      && (copy.Some? ==> !t.kind.Invalidates() && copy.value.shared && resp.shared)
    case Merged =>
      copy.Some? ==> !t.kind.Invalidates() && copy.value.shared && t.shared && t.ok
  }

  ghost predicate PhaseInv(t: Txn) {
    && (t.phase != Snooping ==> AllMerged(t))
    && (t.phase == Push ==> t.push.Some?)
    && (t.phase in {Fetch, Done} ==> t.push.None?)
    && (t.phase == Fetch ==> !t.ok)
    && (t.phase == Done ==> t.ok)
  }

  ghost predicate ResultInv(t: Txn, latest: Data) {
    && (t.kind.IsRead() && t.ok ==> t.data == latest)
    && (t.push.Some? ==> t.kind == CleanUnique && t.ok && t.push.value == latest)
    && (t.dirty ==> t.ok && t.kind in {ReadShared, ReadUnique})
    && (t.shared ==> t.ok && !t.kind.Invalidates())
  }

  /** Responsibility for the line sits in one place of the transaction. */
  ghost predicate OneCarrier(t: Txn) {
    && !(t.dirty && t.push.Some?)
    && (forall p: nat :: DirtyResponse(t, p) ==> !t.dirty && t.push.None?)
    && (forall p: nat, q: nat :: DirtyResponse(t, p) && DirtyResponse(t, q) ==> p == q)
  }

  ghost predicate TxnInv(v: View, r: nat, latest: Data)
    requires Shape(v) && Active(v, r)
  {
    var t := v.txns[r].value;
    && |t.ports| == |v.copies|
    && t.ports[r] == Merged
    && (Holds(v, r) ==> t.kind == CleanUnique && v.copies[r].value.shared)
    && (forall p :: 0 <= p < |t.ports| && p != r ==> PortInv(t, t.ports[p], v.copies[p], latest))
    && PhaseInv(t)
    && ResultInv(t, latest)
    && OneCarrier(t)
    && (HasData(t) ==> forall p: nat :: Holds(v, p) ==> v.copies[p].value.shared)
    && (Carries(t) ==> forall p: nat :: !DirtyCopy(v, p))
  }

  /** Somebody other than memory is responsible for the line. */
  ghost predicate HasOwner(v: View) {
    || (exists p: nat :: DirtyCopy(v, p))
    || (exists r: nat :: Active(v, r) && Carries(v.txns[r].value))
  }

  /** A MakeUnique in flight may have dropped the latest value, because its
      master is going to overwrite the whole line. */
  ghost predicate BeingMade(v: View) {
    exists r: nat :: Active(v, r) && v.txns[r].value.kind == MakeUnique
  }

  ghost predicate LineInv(v: View, latest: Data) {
    && Shape(v)
    && CopiesAgree(v, latest)
    && SingleWriter(v)
    && OneDirtyCopy(v)
    && OneTxn(v)
    && WritesCarryDirty(v, latest)
    && (forall r: nat :: Active(v, r) ==> TxnInv(v, r, latest))
    && (!HasOwner(v) && !BeingMade(v) ==> v.mem == latest)
  }
}
