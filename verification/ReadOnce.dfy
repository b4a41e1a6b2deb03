/** ReadOnce of any address and length: the interconnect cuts it into cachelines,
    which come back from the caches or from memory in any order, and copy_data
    puts the bytes of each where they belong. */
module ReadOnce {
  import opened AceTypes
  import opened Common

  function AlignDown(addr: nat): (a: nat)
    ensures a <= addr
  {
    addr / CACHELINE_SZ * CACHELINE_SZ
  }

  /** Transaction::num_segments. */
  function NumSegments(addr: nat, len: nat): nat
    requires len > 0
  {
    (AlignDown(addr + len - 1 + CACHELINE_SZ) - AlignDown(addr)) / CACHELINE_SZ
  }

  /** The address snoop_engine_thread gives to the k-th SnoopTransaction. */
  function SegmentAddr(addr: nat, k: nat): nat {
    AlignDown(addr) + k * CACHELINE_SZ
  }

  /** Where copy_data puts a cacheline: offset in the payload, offset in the
      line, and length. */
  datatype Range = Range(dst: int, src: int, len: int)

  function CopyRange(snoopAddr: nat, gpAddr: nat, gpLen: nat): Range
  {
    var first := snoopAddr <= gpAddr < snoopAddr + CACHELINE_SZ;
    var r := if first then Range(0, gpAddr - snoopAddr, CACHELINE_SZ - (gpAddr - snoopAddr))
             else Range(snoopAddr - gpAddr, 0, CACHELINE_SZ);
    if snoopAddr + CACHELINE_SZ > gpAddr + gpLen then
      r.(len := r.len - (snoopAddr + CACHELINE_SZ - (gpAddr + gpLen)))
    else r
  }

  ghost predicate Covers(addr: nat, len: nat, k: nat, j: nat) {
    var r := CopyRange(SegmentAddr(addr, k), addr, len);
    r.dst <= j < r.dst + r.len
  }

  /** Every segment stays inside the payload and inside its line, and its bytes
      land at the payload index of their address. */
  lemma SegmentInBounds(addr: nat, len: nat, k: nat)
    requires len > 0 && k < NumSegments(addr, len)
    ensures var r := CopyRange(SegmentAddr(addr, k), addr, len);
      && 0 <= r.dst && 0 < r.len && r.dst + r.len <= len
      && 0 <= r.src && r.src + r.len <= CACHELINE_SZ
      && addr + r.dst == SegmentAddr(addr, k) + r.src
  {
  }

  /** The segments tile the payload: each byte is written by exactly one of them,
      the one of its own line. */
  lemma SegmentsTile(addr: nat, len: nat, j: nat)
    requires len > 0 && j < len
    ensures var k := (addr + j) / CACHELINE_SZ - addr / CACHELINE_SZ;
      && 0 <= k < NumSegments(addr, len)
      && forall m: nat :: m < NumSegments(addr, len) ==> (Covers(addr, len, m, j) <==> m == k)
  {
  }

  /** copy_data. */
  method CopyData(snoopAddr: nat, line: Data, gpAddr: nat, payload: array<byte>)
    requires var r := CopyRange(snoopAddr, gpAddr, payload.Length);
             0 <= r.dst && 0 <= r.src && 0 <= r.len && r.src + r.len <= CACHELINE_SZ && r.dst + r.len <= payload.Length
    modifies payload
    ensures var r := CopyRange(snoopAddr, gpAddr, payload.Length);
            forall j :: 0 <= j < payload.Length ==>
              payload[j] == if r.dst <= j < r.dst + r.len then line[r.src + (j - r.dst)] else old(payload[j])
  {
    var n, src, dst := CACHELINE_SZ, 0, 0;
    if snoopAddr <= gpAddr < snoopAddr + CACHELINE_SZ {
      var offset := gpAddr - snoopAddr;
      n := n - offset;
      src := src + offset;
    } else {
      dst := dst + (snoopAddr - gpAddr);
    }
    if snoopAddr + CACHELINE_SZ > gpAddr + payload.Length {
      n := n - (snoopAddr + CACHELINE_SZ - (gpAddr + payload.Length));
    }
    var i := 0;
    while i < n
      invariant 0 <= i <= n
      invariant forall j :: 0 <= j < payload.Length ==>
                  payload[j] == if dst <= j < dst + i then line[src + (j - dst)] else old(payload[j])
    {
      payload[dst + i] := line[src + i];
      i := i + 1;
    }
  }

  /** The segments arrive in the order `order` lists them; each line is the one
      at the segment's address when it arrives. */
  method Assemble(addr: nat, payload: array<byte>, lineAt: nat -> Data, order: seq<nat>)
    requires payload.Length > 0
    requires forall i :: 0 <= i < |order| ==> order[i] < NumSegments(addr, payload.Length)
    requires forall k: nat :: k < NumSegments(addr, payload.Length) ==> k in order
    modifies payload
    ensures forall j :: 0 <= j < payload.Length ==>
              payload[j] == lineAt((addr + j) / CACHELINE_SZ)[(addr + j) % CACHELINE_SZ]
  {
    var n := 0;
    while n < |order|
      invariant n <= |order|
      invariant forall j :: 0 <= j < payload.Length && (addr + j) / CACHELINE_SZ - addr / CACHELINE_SZ in order[..n] ==>
                  payload[j] == lineAt((addr + j) / CACHELINE_SZ)[(addr + j) % CACHELINE_SZ]
    {
      var k := order[n];
      SegmentInBounds(addr, payload.Length, k);
      label before:
      CopyData(SegmentAddr(addr, k), lineAt(addr / CACHELINE_SZ + k), addr, payload);
      assert order[..n + 1] == order[..n] + [k];
      forall j | 0 <= j < payload.Length && (addr + j) / CACHELINE_SZ - addr / CACHELINE_SZ in order[..n + 1]
        ensures payload[j] == lineAt((addr + j) / CACHELINE_SZ)[(addr + j) % CACHELINE_SZ]
      {
        SegmentsTile(addr, payload.Length, j);
        assert Covers(addr, payload.Length, k, j) <==> k == (addr + j) / CACHELINE_SZ - addr / CACHELINE_SZ;
      }
      n := n + 1;
    }
    forall j | 0 <= j < payload.Length
      ensures payload[j] == lineAt((addr + j) / CACHELINE_SZ)[(addr + j) % CACHELINE_SZ]
    {
      SegmentsTile(addr, payload.Length, j);
      assert order[..n] == order;
    }
  }
}
