/** Every step on one address keeps LineInv. Only a store changes `latest`. */
module LineProofs {
  import opened AceTypes
  import opened Common
  import opened CacheLines
  import opened LineProtocol

  /** A started transaction that has not seen any response yet. */
  ghost predicate IsFresh(t: Txn, r: nat, n: nat)
  {
    && r < n
    && t == FreshTxn(t.kind, r, n, t.data)
  }

  /** The orderer lets a transaction start when no other runs on the line. */
  lemma StartKeeps(v: View, r: nat, t: Txn, latest: Data)
    requires LineInv(v, latest)
    requires forall q: nat :: !Active(v, q)
    requires IsFresh(t, r, |v.copies|)
    requires Holds(v, r) ==> t.kind == CleanUnique && v.copies[r].value.shared
    ensures LineInv(v.(txns := v.txns[r := Some(t)]), latest)
  {
    var w := v.(txns := v.txns[r := Some(t)]);
    assert forall q: nat :: Active(w, q) ==> Active(v, q) || q == r;
    assert forall q: nat :: Holds(w, q) <==> Holds(v, q);
    assert forall q: nat :: DirtyCopy(w, q) <==> DirtyCopy(v, q);
    assert TxnInv(w, r, latest);
  }

  /** What the protocol needs of a snooped cache: its new copy and its response. */
  ghost predicate AnswerOk(kind: Request, before: Option<Line>, after: Option<Line>, resp: Response, latest: Data)
  {
    && ResponseInv(kind, resp, latest)
    && (after.Some? ==>
          && before.Some? && after.value.valid && !kind.Invalidates() && after.value.shared && resp.shared
          && after.value.data == before.value.data)
    && (after.Some? && after.value.dirty ==> before.value.dirty && !resp.dirty)
    && (resp.data.Some? ==> before.Some?)
    && (resp.dirty ==> before.Some? && before.value.dirty)
    && (before.Some? && before.value.dirty ==> (after.Some? && after.value.dirty) || resp.dirty || kind == MakeUnique)
  }

  lemma SnoopIsOk(kind: Request, copy: Option<Line>, latest: Data)
    requires copy.Some? ==> copy.value.data == latest && copy.value.valid
    ensures var (after, resp) := SnoopCopy(kind.AcSnoop(), copy); AnswerOk(kind, copy, after, resp, latest)
  {
  }

  function Answer(v: View, r: nat, p: nat, after: Option<Line>, resp: Response): View
    requires r < |v.txns| && v.txns[r].Some?
    requires p < |v.copies| && p < |v.txns[r].value.ports|
  {
    var t := v.txns[r].value;
    v.(copies := v.copies[p := after], txns := v.txns[r := Some(t.(ports := t.ports[p := Answered(resp)]))])
  }

  lemma AnswerTxn(v: View, r: nat, p: nat, after: Option<Line>, resp: Response, latest: Data)
    requires LineInv(v, latest)
    requires Active(v, r) && p < |v.copies| && v.txns[r].value.ports[p].Pending?
    requires AnswerOk(v.txns[r].value.kind, v.copies[p], after, resp, latest)
    ensures TxnInv(Answer(v, r, p, after, resp), r, latest)
  {
    var w := Answer(v, r, p, after, resp);
    var t, t' := v.txns[r].value, w.txns[r].value;
    assert TxnInv(v, r, latest);
    assert forall q: nat :: Holds(w, q) ==> Holds(v, q);
    assert forall q: nat :: DirtyCopy(w, q) ==> DirtyCopy(v, q);
    assert forall q: nat :: q != p ==> (DirtyResponse(t', q) <==> DirtyResponse(t, q));
    assert HasData(t') ==> HasData(t) || resp.data.Some?;
    assert Carries(t') ==> Carries(t) || resp.dirty;
    assert resp.dirty ==> DirtyCopy(v, p) && !Carries(t);
    forall q: nat | HasData(t') && Holds(w, q) ensures w.copies[q].value.shared {
      assert Holds(v, q);
      if !HasData(t) { assert Holds(v, p); }
    }
  }

  lemma AnswerOwner(v: View, r: nat, p: nat, after: Option<Line>, resp: Response, latest: Data)
    requires LineInv(v, latest)
    requires Active(v, r) && p < |v.copies| && v.txns[r].value.ports[p].Pending?
    requires AnswerOk(v.txns[r].value.kind, v.copies[p], after, resp, latest)
    ensures var w := Answer(v, r, p, after, resp); HasOwner(v) || BeingMade(v) ==> HasOwner(w) || BeingMade(w)
  {
    var w := Answer(v, r, p, after, resp);
    var t, t' := v.txns[r].value, w.txns[r].value;
    assert Active(w, r);
    if q: nat :| DirtyCopy(v, q) {
      if q == p {
        assert resp.dirty ==> DirtyResponse(t', p);
        assert DirtyCopy(w, p) || Carries(t') || t'.kind == MakeUnique;
      } else {
        assert DirtyCopy(w, q);
      }
    } else if q: nat :| Active(v, q) && Carries(v.txns[q].value) {
      assert q == r;
      forall d: nat | DirtyResponse(t, d) ensures DirtyResponse(t', d) {}
      assert Carries(t');
    }
  }

  /** A snooped cache answers. */
  lemma AnswerKeeps(v: View, r: nat, p: nat, latest: Data)
    requires LineInv(v, latest)
    requires Active(v, r) && p < |v.copies| && v.txns[r].value.ports[p].Pending?
    requires v.writes[p] == NoWrite
    ensures LineInv(AnswerView(v, r, p), latest)
  {
    var (after, resp) := SnoopCopy(v.txns[r].value.kind.AcSnoop(), v.copies[p]);
    SnoopIsOk(v.txns[r].value.kind, v.copies[p], latest);
    AnswerTxn(v, r, p, after, resp, latest);
    AnswerOwner(v, r, p, after, resp, latest);
    AnswerRest(v, r, p, after, resp, latest);
  }

  lemma AnswerRest(v: View, r: nat, p: nat, after: Option<Line>, resp: Response, latest: Data)
    requires LineInv(v, latest)
    requires Active(v, r) && p < |v.copies| && v.txns[r].value.ports[p].Pending?
    requires v.writes[p] == NoWrite
    requires AnswerOk(v.txns[r].value.kind, v.copies[p], after, resp, latest)
    requires var w := Answer(v, r, p, after, resp);
             TxnInv(w, r, latest) && (HasOwner(v) || BeingMade(v) ==> HasOwner(w) || BeingMade(w))
    ensures LineInv(Answer(v, r, p, after, resp), latest)
  {
    var w := Answer(v, r, p, after, resp);
    assert forall q: nat :: Active(w, q) ==> Active(v, q);
    assert forall q: nat :: Holds(w, q) ==> Holds(v, q);
    assert forall q: nat :: DirtyCopy(w, q) ==> DirtyCopy(v, q);
    assert forall q: nat :: q != p ==> (DirtyCopy(w, q) <==> DirtyCopy(v, q));
  }

  function SetTxn(v: View, r: nat, t: Txn): View
    requires r < |v.txns|
  {
    v.(txns := v.txns[r := Some(t)])
  }

  lemma PortDoneTxn(v: View, r: nat, p: nat, latest: Data)
    requires LineInv(v, latest)
    requires Active(v, r) && p < |v.copies| && v.txns[r].value.ports[p].Answered?
    requires v.txns[r].value.phase == Snooping
    ensures var w := SetTxn(v, r, PortDone(v.txns[r].value, p)); Shape(w) && TxnInv(w, r, latest)
  {
    var t := v.txns[r].value;
    var t' := PortDone(t, p);
    var w := SetTxn(v, r, t');
    assert TxnInv(v, r, latest);
    assert PortInv(t, t.ports[p], v.copies[p], latest);
    assert forall q: nat :: DirtyResponse(t', q) <==> q != p && DirtyResponse(t, q);
    assert forall q: nat :: Holds(w, q) <==> Holds(v, q);
    assert forall q: nat :: DirtyCopy(w, q) <==> DirtyCopy(v, q);
    assert HasData(t') ==> HasData(t);
    PortDoneCarries(t, p, latest);
    assert forall q: nat :: DirtyResponse(t', q) ==> DirtyResponse(t, q) && !DirtyResponse(t, p);
  }

  /** PortDone merges an answer, in whatever order the ports answer. */
  lemma PortDoneKeeps(v: View, r: nat, p: nat, latest: Data)
    requires LineInv(v, latest)
    requires Active(v, r) && p < |v.copies| && v.txns[r].value.ports[p].Answered?
    requires v.txns[r].value.phase == Snooping
    ensures LineInv(SetTxn(v, r, PortDone(v.txns[r].value, p)), latest)
  {
    hide TxnInv, Carries, PortDone, HasData;
    var t := v.txns[r].value;
    AnswerFits(v, r, p, latest);
    var w := SetTxn(v, r, PortDone(t, p));
    PortDoneTxn(v, r, p, latest);
    PortDoneCarries(t, p, latest);
    assert PortDone(t, p).kind == t.kind by { KindStays(t, p); }
    assert forall q: nat :: Holds(w, q) <==> Holds(v, q);
    assert forall q: nat :: DirtyCopy(w, q) <==> DirtyCopy(v, q);
    assert forall q: nat :: Active(w, q) <==> Active(v, q);
    assert HasOwner(v) ==> HasOwner(w);
    assert BeingMade(v) ==> BeingMade(w);
  }

  lemma KindStays(t: Txn, p: nat)
    requires p < |t.ports| && t.ports[p].Answered?
    ensures PortDone(t, p).kind == t.kind
  {
  }

  lemma AnswerFits(v: View, r: nat, p: nat, latest: Data)
    requires LineInv(v, latest)
    requires Active(v, r) && p < |v.copies| && v.txns[r].value.ports[p].Answered?
    ensures p < |v.txns[r].value.ports|
    ensures ResponseInv(v.txns[r].value.kind, v.txns[r].value.ports[p].resp, latest)
  {
    assert TxnInv(v, r, latest);
    assert PortInv(v.txns[r].value, v.txns[r].value.ports[p], v.copies[p], latest);
  }

  /** Merging neither loses nor duplicates responsibility for the line. */
  lemma PortDoneCarries(t: Txn, p: nat, latest: Data)
    requires p < |t.ports| && t.ports[p].Answered? && ResponseInv(t.kind, t.ports[p].resp, latest)
    ensures Carries(PortDone(t, p)) <==> Carries(t)
  {
    var t' := PortDone(t, p);
    assert forall q: nat :: DirtyResponse(t', q) <==> q != p && DirtyResponse(t, q);
    if Carries(t') && !t'.dirty && t'.push.None? {
      var q: nat :| DirtyResponse(t', q);
      assert DirtyResponse(t, q);
    } else if Carries(t') {
      assert t.dirty || t.push.Some? || DirtyResponse(t, p);
    }
    if Carries(t) && !t.dirty && t.push.None? {
      var q: nat :| DirtyResponse(t, q);
      assert q != p ==> DirtyResponse(t', q);
    }
  }

  /** All ports merged: clean, finish or fetch. */
  lemma DrainKeeps(v: View, r: nat, latest: Data)
    requires LineInv(v, latest)
    requires Active(v, r) && v.txns[r].value.phase == Snooping && AllMerged(v.txns[r].value)
    ensures LineInv(SetTxn(v, r, Drain(v.txns[r].value)), latest)
  {
    var t := v.txns[r].value;
    var t' := Drain(t);
    var w := SetTxn(v, r, t');
    assert TxnInv(v, r, latest);
    assert forall q: nat :: DirtyResponse(t', q) <==> DirtyResponse(t, q);
    assert forall q: nat :: Holds(w, q) <==> Holds(v, q);
    assert forall q: nat :: DirtyCopy(w, q) <==> DirtyCopy(v, q);
    assert forall q: nat :: Active(w, q) ==> Active(v, q);
    assert TxnInv(w, r, latest);
    assert Active(w, r);
  }

  /** Once every port of a read is merged without data, nobody holds the line. */
  lemma FetchFindsNoCopy(v: View, r: nat, latest: Data)
    requires LineInv(v, latest)
    requires Active(v, r) && v.txns[r].value.phase == Fetch
    ensures forall p: nat :: Holds(v, p) ==> p == r && v.txns[r].value.kind == CleanUnique
    ensures v.txns[r].value.kind.IsRead() ==> v.mem == latest
  {
    var t := v.txns[r].value;
    assert TxnInv(v, r, latest);
    forall p: nat | Holds(v, p) ensures p == r && t.kind == CleanUnique {
      assert p != r ==> PortInv(t, t.ports[p], v.copies[p], latest);
    }
    assert forall p: nat :: !DirtyResponse(t, p);
    assert !Carries(t);
  }

  /** Dirty data goes downstream, or the line is read from there. */
  lemma AccessKeeps(v: View, r: nat, latest: Data)
    requires LineInv(v, latest)
    requires Active(v, r) && v.txns[r].value.phase in {Push, Fetch}
    ensures LineInv(AccessView(v, r), latest)
  {
    var t := v.txns[r].value;
    var w := AccessView(v, r);
    var t' := w.txns[r].value;
    assert TxnInv(v, r, latest);
    if t.phase == Fetch { FetchFindsNoCopy(v, r, latest); }
    assert forall q: nat :: !DirtyResponse(t, q) && !DirtyResponse(t', q);
    assert forall q: nat :: Holds(w, q) <==> Holds(v, q);
    assert forall q: nat :: DirtyCopy(w, q) <==> DirtyCopy(v, q);
    assert forall q: nat :: Active(w, q) ==> Active(v, q);
    assert Carries(t) <==> t.phase == Push || t.dirty;
    assert TxnInv(w, r, latest);
    assert Active(w, r);
  }

  /** When a transaction is done, every other copy is known to it. */
  lemma DoneKnowsCopies(v: View, r: nat, p: nat, latest: Data)
    requires LineInv(v, latest)
    requires Active(v, r) && v.txns[r].value.phase == Done
    requires Holds(v, p) && p != r
    ensures var t := v.txns[r].value; !t.kind.Invalidates() && v.copies[p].value.shared && t.shared
  {
    assert TxnInv(v, r, latest);
    var t := v.txns[r].value;
    assert t.ports[p].Merged?;
    assert PortInv(t, t.ports[p], v.copies[p], latest);
  }

  /** The issuing cache resumes and installs the line (MakeUnique apart). */
  lemma CompleteKeeps(v: View, r: nat, tag: nat, latest: Data)
    requires LineInv(v, latest)
    requires Active(v, r) && v.txns[r].value.phase == Done && v.txns[r].value.kind != MakeUnique
    ensures LineInv(CompleteView(v, r, tag), latest)
    ensures forall q: nat :: !Active(CompleteView(v, r, tag), q)
  {
    var t := v.txns[r].value;
    var w := CompleteView(v, r, tag);
    assert TxnInv(v, r, latest);
    assert forall q: nat :: Active(w, q) ==> Active(v, q) && q != r;
    assert forall q: nat :: q != r ==> (Holds(w, q) <==> Holds(v, q));
    assert forall q: nat :: q != r ==> (DirtyCopy(w, q) <==> DirtyCopy(v, q));
    forall p: nat | Holds(v, p) && p != r
      ensures !t.kind.Invalidates() && v.copies[p].value.shared && t.shared
    {
      DoneKnowsCopies(v, r, p, latest);
    }
    assert forall q: nat :: !DirtyResponse(t, q);
    assert Carries(t) ==> t.dirty;
    if !HasOwner(w) {
      assert !DirtyCopy(w, r);
      assert !HasOwner(v);
    }
  }

  /** After CompleteKeeps of a ReadUnique, or of a CleanUnique that found its
      line still valid, the cache may write: nobody else holds the line. */
  lemma CompleteGrantsUnique(v: View, r: nat, tag: nat, latest: Data)
    requires LineInv(v, latest)
    requires Active(v, r) && v.txns[r].value.phase == Done && v.txns[r].value.kind.Invalidates()
    ensures forall p: nat :: Holds(v, p) ==> p == r
    ensures var own := Install(v.txns[r].value, tag, v.copies[r]); own.Some? ==> !own.value.shared
  {
    assert TxnInv(v, r, latest);
    forall p: nat | Holds(v, p) ensures p == r {
      if p != r { DoneKnowsCopies(v, r, p, latest); }
    }
  }

  /** MakeUnique completes and the store that asked for it overwrites the whole
      line in the same atomic step. */
  lemma MakeKeeps(v: View, r: nat, tag: nat, latest: Data, stored: Data)
    requires LineInv(v, latest)
    requires Active(v, r) && v.txns[r].value.phase == Done && v.txns[r].value.kind == MakeUnique
    ensures var w := v.(txns := v.txns[r := None],
                        copies := v.copies[r := Some(Line(true, tag, false, true, stored))]);
            LineInv(w, stored) && forall q: nat :: !Active(w, q)
  {
    var w := v.(txns := v.txns[r := None], copies := v.copies[r := Some(Line(true, tag, false, true, stored))]);
    CompleteGrantsUnique(v, r, tag, latest);
    assert forall q: nat :: Active(w, q) ==> Active(v, q) && q != r;
    assert forall q: nat :: Holds(w, q) ==> q == r;
    assert DirtyCopy(w, r);
    assert forall q: nat :: DirtyCopy(v, q) ==> Holds(v, q);
    assert TxnInv(v, r, latest);
    assert WritesCarryDirty(w, stored);
  }

  lemma LoneCopy(v: View, w: View, p: nat)
    requires SingleWriter(v) && Holds(v, p) && !v.copies[p].value.shared
    requires |w.copies| == |v.copies| && forall q :: 0 <= q < |v.copies| && q != p ==> w.copies[q] == v.copies[q]
    ensures forall q: nat :: Holds(w, q) || Holds(v, q) ==> Holds(v, q) && q == p
  {
    forall q: nat | Holds(w, q) || Holds(v, q) ensures Holds(v, q) && q == p {
      assert q != p ==> Holds(v, q);
    }
  }

  /** A store hits a line the cache holds unique. */
  lemma StoreKeeps(v: View, p: nat, latest: Data, stored: Data)
    requires LineInv(v, latest)
    requires Holds(v, p) && !v.copies[p].value.shared && v.writes[p] == NoWrite && !Active(v, p)
    ensures LineInv(v.(copies := v.copies[p := Some(v.copies[p].value.(data := stored, dirty := true))]), stored)
  {
    var w := v.(copies := v.copies[p := Some(v.copies[p].value.(data := stored, dirty := true))]);
    assert forall q: nat :: Active(w, q) <==> Active(v, q);
    LoneCopy(v, w, p);
    assert DirtyCopy(w, p);
    assert forall q: nat :: DirtyCopy(v, q) ==> q == p;
    forall r: nat | Active(v, r) ensures TxnInv(w, r, stored) {
      StoreTxn(v, w, p, r, latest, stored);
    }
  }

  lemma StoreTxn(v: View, w: View, p: nat, r: nat, latest: Data, stored: Data)
    requires LineInv(v, latest)
    requires Holds(v, p) && !v.copies[p].value.shared && !Active(v, p) && Active(v, r)
    requires w == v.(copies := v.copies[p := Some(v.copies[p].value.(data := stored, dirty := true))])
    ensures TxnInv(w, r, stored)
  {
    var t := v.txns[r].value;
    assert TxnInv(v, r, latest);
    assert !HasData(t);
    LoneCopy(v, w, p);
    forall q | 0 <= q < |t.ports| && q != r ensures PortInv(t, t.ports[q], w.copies[q], stored) {
      assert PortInv(t, t.ports[q], v.copies[q], latest);
    }
    CarriesHasData(v, r, latest);
  }

  /** Responsibility for a line comes with its data. */
  lemma CarriesHasData(v: View, r: nat, latest: Data)
    requires LineInv(v, latest) && Active(v, r)
    ensures Carries(v.txns[r].value) ==> HasData(v.txns[r].value)
  {
    var t := v.txns[r].value;
    assert TxnInv(v, r, latest);
    if q: nat :| DirtyResponse(t, q) {
      assert PortInv(t, t.ports[q], v.copies[q], latest);
    }
  }

  /** A WriteBack or WriteClean of a dirty line goes downstream. */
  lemma WriteBeginKeeps(v: View, p: nat, latest: Data)
    requires LineInv(v, latest)
    requires DirtyCopy(v, p)
    ensures LineInv(v.(writes := v.writes[p := Queued]), latest)
  {
    var w := v.(writes := v.writes[p := Queued]);
    Reuse(v, w, latest);
  }

  /** Nothing but the line writes and memory changed. */
  lemma Reuse(v: View, w: View, latest: Data)
    requires LineInv(v, latest)
    requires w == v.(writes := w.writes, mem := w.mem) && |w.writes| == |v.writes|
    ensures Shape(w) && CopiesAgree(w, latest) && SingleWriter(w) && OneDirtyCopy(w) && OneTxn(w)
    ensures forall r: nat :: Active(w, r) ==> TxnInv(w, r, latest)
    ensures HasOwner(w) <==> HasOwner(v)
    ensures BeingMade(w) <==> BeingMade(v)
    ensures forall p: nat :: DirtyCopy(w, p) <==> DirtyCopy(v, p)
  {
    assert forall q: nat :: Active(w, q) <==> Active(v, q);
    assert forall q: nat :: Holds(w, q) <==> Holds(v, q);
    assert forall q: nat :: DirtyCopy(w, q) <==> DirtyCopy(v, q);
    forall r: nat | Active(w, r) ensures TxnInv(w, r, latest) { assert TxnInv(v, r, latest); }
  }

  lemma WriteAccessKeeps(v: View, p: nat, latest: Data)
    requires LineInv(v, latest)
    requires p < |v.writes| && v.writes[p] == Queued && Holds(v, p)
    ensures LineInv(v.(writes := v.writes[p := Written], mem := v.copies[p].value.data), latest)
  {
    Reuse(v, v.(writes := v.writes[p := Written], mem := v.copies[p].value.data), latest);
  }

  /** A line leaves its cache: after its write has reached memory, or clean. */
  lemma DropKeeps(v: View, p: nat, latest: Data)
    requires LineInv(v, latest)
    requires Holds(v, p) && !Active(v, p)
    requires v.writes[p] == Written || (v.writes[p] == NoWrite && !v.copies[p].value.dirty)
    ensures LineInv(v.(writes := v.writes[p := NoWrite], copies := v.copies[p := None]), latest)
  {
    var w := v.(writes := v.writes[p := NoWrite], copies := v.copies[p := None]);
    assert forall q: nat :: Active(w, q) <==> Active(v, q);
    assert forall q: nat :: Holds(w, q) <==> Holds(v, q) && q != p;
    assert forall q: nat :: DirtyCopy(w, q) <==> DirtyCopy(v, q) && q != p;
    forall r: nat | Active(w, r) ensures TxnInv(w, r, latest) { assert TxnInv(v, r, latest); }
    if !HasOwner(w) && !BeingMade(w) && v.writes[p] == NoWrite {
      assert !HasOwner(v);
    }
  }
}
