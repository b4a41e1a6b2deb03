/** Vocabulary of the ACE model: cachelines, the request and snoop
    encodings of tlm-bridges/amba-ace.h, and the predicates that decide where
    dirty data may travel. */
module AceTypes {
  import opened Common

  /** The template default of cache_ace and iconnect_ace. */
  const CACHELINE_SZ: nat := 64

  /** The bytes of one cacheline. */
  type Data = d: seq<byte> | |d| == CACHELINE_SZ witness seq(CACHELINE_SZ, i => 0)

  /** Domain encodings. */
  const NON_SHARABLE := 0
  const INNER := 1
  const OUTER := 2
  const SYSTEM := 3

  /** AR encodings; ReadNoSnoop shares the encoding of ReadOnce. */
  const AR_READ_ONCE := 0x0
  const AR_READ_SHARED := 0x1
  const AR_READ_CLEAN := 0x2
  const AR_READ_NOT_SHARED_DIRTY := 0x3
  const AR_READ_UNIQUE := 0x7
  const AR_CLEAN_SHARED := 0x8
  const AR_CLEAN_INVALID := 0x9
  const AR_CLEAN_UNIQUE := 0xb
  const AR_MAKE_UNIQUE := 0xc
  const AR_MAKE_INVALID := 0xd

  /** ace_helpers::AllowPassDirty: may a read of this kind hand responsibility
      for dirty data to the master that issued it? */
  predicate AllowPassDirty(domain: int, snoop: int)
  {
    if snoop == AR_READ_ONCE && (domain == NON_SHARABLE || domain == SYSTEM) then
      false
    else if snoop in {AR_READ_ONCE, AR_READ_CLEAN, AR_CLEAN_UNIQUE, AR_MAKE_UNIQUE} then
      !(domain == INNER || domain == OUTER)
    else if snoop in {AR_CLEAN_SHARED, AR_CLEAN_INVALID, AR_MAKE_INVALID} then
      !(domain == NON_SHARABLE || domain == INNER || domain == OUTER)
    else
      true
  }

  /** In the shareable domains, only the reads that may leave their line dirty or
      unique take over responsibility; a clean or once-only read, and the requests
      that only want other copies cleaned or gone, do not. */
  lemma PassDirtyInShareable(domain: int, snoop: int)
    requires domain == INNER || domain == OUTER
    ensures snoop in {AR_READ_SHARED, AR_READ_NOT_SHARED_DIRTY, AR_READ_UNIQUE} ==> AllowPassDirty(domain, snoop)
    ensures snoop in {AR_READ_ONCE, AR_READ_CLEAN, AR_CLEAN_UNIQUE, AR_MAKE_UNIQUE} ==> !AllowPassDirty(domain, snoop)
    ensures snoop in {AR_CLEAN_SHARED, AR_CLEAN_INVALID, AR_MAKE_INVALID} ==> !AllowPassDirty(domain, snoop)
  {
  }

  /** The snooping requests a write-back cache issues. All carry domain Inner. */
  datatype Request = ReadShared | ReadNotSharedDirty | ReadUnique | CleanUnique | MakeUnique {

    function ArSnoop(): int {
      match this
      case ReadShared => AR_READ_SHARED
      case ReadNotSharedDirty => AR_READ_NOT_SHARED_DIRTY
      case ReadUnique => AR_READ_UNIQUE
      case CleanUnique => AR_CLEAN_UNIQUE
      case MakeUnique => AR_MAKE_UNIQUE
    }

    /** SnoopTransaction::init_snoop_genattr: the snoop the other masters see. */
    function AcSnoop(): Snoop {
      match this
      case ReadShared => SnoopReadShared
      case ReadNotSharedDirty => SnoopReadNotSharedDirty
      case ReadUnique => SnoopReadUnique
      case CleanUnique => SnoopCleanInvalid
      case MakeUnique => SnoopMakeInvalid
    }

    /** Whether the request transfers a line to the master. */
    predicate IsRead() {
      ReadShared? || ReadNotSharedDirty? || ReadUnique?
    }

    /** Whether a snooped master gives its copy up. */
    predicate Invalidates() {
      ReadUnique? || CleanUnique? || MakeUnique?
    }
  }

  /** The snoops a cache answers (AC encodings, DVM apart). */
  datatype Snoop =
    | SnoopReadOnce
    | SnoopReadShared
    | SnoopReadClean
    | SnoopReadNotSharedDirty
    | SnoopReadUnique
    | SnoopCleanInvalid
    | SnoopCleanShared
    | SnoopMakeInvalid
  {
    /** SnoopTransaction::is_read_snoop: only these copy data to the master. */
    predicate IsRead() {
      SnoopReadOnce? || SnoopReadShared? || SnoopReadClean? || SnoopReadNotSharedDirty? || SnoopReadUnique?
    }
  }

  /** A snoop response: IsShared, PassDirty, WasUnique and the line when
      DataTransfer is set. */
  datatype Response = Response(shared: bool, dirty: bool, wasUnique: bool, data: Option<Data>)

  const MISS := Response(false, false, false, None)
}
