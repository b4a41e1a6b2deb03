/** Values of tlm-modules/cache-ace.h: a cacheline, what a snoop does to it, and
    the accesses of the processor side. The class in AceCache.dfy updates real
    lines in place and is proved against these functions. */
module CacheLines {
  import opened AceTypes
  import opened Common

  /** A tag is kept as a line number: the aligned address over CACHELINE_SZ. */
  datatype Line = Line(valid: bool, tag: nat, shared: bool, dirty: bool, data: Data)

  /** cache_ace's snoop handlers, applied to a line whose tag matches. */
  function SnoopHit(snoop: Snoop, l: Line): (Line, Response)
  {
    match snoop
    case SnoopReadOnce =>
      (l.(shared := true), Response(true, false, false, Some(l.data)))
    case SnoopReadShared =>
      (l.(shared := true, dirty := false), Response(true, l.dirty, !l.shared, Some(l.data)))
    case SnoopReadClean =>
      (l.(shared := true), Response(true, false, !l.shared, Some(l.data)))
    case SnoopReadNotSharedDirty =>
      (l.(shared := true), Response(true, false, !l.shared, Some(l.data)))
    case SnoopReadUnique =>
      (l.(valid := false), Response(false, l.dirty, !l.shared, Some(l.data)))
    case SnoopCleanInvalid =>
      (l.(valid := false), Response(false, l.dirty, !l.shared, if l.dirty then Some(l.data) else None))
    case SnoopCleanShared =>
      (l.(shared := true, dirty := false),
       Response(true, l.dirty, !l.shared, if l.dirty then Some(l.data) else None))
    case SnoopMakeInvalid =>
      (l.(valid := false), MISS)
  }

  /** What a snooped master owes the others for a line it holds, whatever the snoop:
      l is the line before, l' after. Dirty data stay in the line or go with the
      answer, not both, unless the other is going to overwrite them all. */
  predicate RightAnswer(snoop: Snoop, l: Line, l': Line, resp: Response) {
    && (l.dirty && !snoop.SnoopMakeInvalid? ==>
          (l'.valid && l'.dirty && l'.data == l.data) != (resp.dirty && resp.data == Some(l.data)))
    && (!l.dirty ==> !resp.dirty && !(l'.valid && l'.dirty))
    && (snoop.IsRead() ==> resp.data == Some(l.data))
    && (resp.data.Some? ==> resp.data.value == l.data && (snoop.IsRead() || l.dirty))
    && (resp.dirty ==> resp.data.Some? && l.dirty)
    && (snoop in {SnoopReadUnique, SnoopCleanInvalid, SnoopMakeInvalid} <==> !l'.valid)
    && (l'.valid ==> l'.shared && l'.tag == l.tag && l'.data == l.data)
    && (resp.shared <==> l'.valid)
    && (resp.wasUnique <==> !l.shared && !snoop.SnoopReadOnce? && !snoop.SnoopMakeInvalid?)
  }

  lemma HitAnswersRight(snoop: Snoop, l: Line)
    requires l.valid
    ensures var (l', resp) := SnoopHit(snoop, l); RightAnswer(snoop, l, l', resp)
  {
  }

  /** Overwrites the enabled bytes of a line from offset `off` on. */
  function Merge(d: Data, off: nat, bytes: seq<byte>, en: seq<bool>): (r: Data)
    requires off + |bytes| <= CACHELINE_SZ && |en| == |bytes|
    ensures forall i {:trigger r[i]} :: 0 <= i < CACHELINE_SZ ==>
              r[i] == if off <= i < off + |bytes| && en[i - off] then bytes[i - off] else d[i]
  {
    seq(CACHELINE_SZ, i requires 0 <= i < CACHELINE_SZ =>
      if off <= i < off + |bytes| && en[i - off] then bytes[i - off] else d[i])
  }

  // ---- the direct-mapped array ----

  /** get_index(get_tag(addr)). */
  function Index(line: nat, n: nat): (i: nat)
    requires n > 0
    ensures i < n
  {
    line % n
  }

  predicate InCache(lines: seq<Line>, line: nat)
    requires |lines| > 0
  {
    var l := lines[Index(line, |lines|)];
    l.valid && l.tag == line
  }

  /** b_transport_snoop's handler call on the whole cache. */
  function SnoopLines(snoop: Snoop, lines: seq<Line>, line: nat): (seq<Line>, Response)
    requires |lines| > 0
  {
    if InCache(lines, line) then
      var i := Index(line, |lines|);
      var (l, resp) := SnoopHit(snoop, lines[i]);
      (lines[i := l], resp)
    else
      (lines, MISS)
  }

  /** What a line becomes when snoops of any addresses arrive one after the other. */
  function SnoopedLine(l: Line, snoops: seq<(Snoop, nat)>): Line {
    if snoops == [] then l
    else
      var n := |snoops| - 1;
      var l' := SnoopedLine(l, snoops[..n]);
      if l'.valid && l'.tag == snoops[n].1 then SnoopHit(snoops[n].0, l').0 else l'
  }

  /** How many of these snoops are answered with dirty data. */
  function HandedOver(l: Line, snoops: seq<(Snoop, nat)>): nat {
    if snoops == [] then 0
    else
      var n := |snoops| - 1;
      var l' := SnoopedLine(l, snoops[..n]);
      HandedOver(l, snoops[..n])
      + (if l'.valid && l'.tag == snoops[n].1 && SnoopHit(snoops[n].0, l').1.dirty then 1 else 0)
  }

  /** Whatever snoops come, a dirty line is handed over once, or still there. */
  lemma {:induction false} HandedOverOnce(l: Line, snoops: seq<(Snoop, nat)>)
    requires l.valid && l.dirty && forall k :: 0 <= k < |snoops| ==> snoops[k] != (SnoopMakeInvalid, l.tag)
    ensures var l' := SnoopedLine(l, snoops);
      && HandedOver(l, snoops) == (if l'.valid && l'.dirty then 0 else 1)
      && (l'.valid ==> l'.tag == l.tag && l'.data == l.data)
  {
    if snoops != [] {
      var n := |snoops| - 1;
      HandedOverOnce(l, snoops[..n]);
      var l' := SnoopedLine(l, snoops[..n]);
      if l'.valid { HitAnswersRight(snoops[n].0, l'); }
    }
  }

  /** Every valid line sits at the index of its tag. */
  ghost predicate Placed(lines: seq<Line>, bound: nat) {
    && |lines| > 0
    && forall i :: 0 <= i < |lines| && lines[i].valid ==> lines[i].tag < bound && Index(lines[i].tag, |lines|) == i
  }
}
