/** XGMII framing (clause 46 of IEEE 802.3): tlm2xgmii_bridge prints packets as
    words of control and data characters, xgmii2tlm_bridge parses them back. */
module Xgmii {
  import opened Common

  datatype Mode = Mode10G | Mode1G

  /** What one lane carries in one word. */
  datatype Char = Char(ctrl: bool, data: byte)

  /** xxd and xxc, lane by lane. */
  type Word = w: seq<Char> | |w| == 8 witness seq(8, l => Char(true, 0))

  const IDLE: Char := Char(true, 0x07)
  const SOF: Char := Char(true, 0xfb)
  const EOF: Char := Char(true, 0xfd)
  const ERROR: Char := Char(true, 0xfe)

  const CHECKSUM: seq<byte> := [0xC0, 0xC1, 0xC2, 0xC3]

  /** sizeof buf. */
  const MAX_PACKET_SIZE: nat := 8192

  // ---- sending ----

  function Lanes(mode: Mode): nat {
    if mode == Mode10G then 8 else 1
  }

  /** The words carry these characters, one after the other. */
  ghost predicate Spells(mode: Mode, words: seq<Word>, chars: seq<Char>) {
    && |chars| == |words| * Lanes(mode)
    && forall k, l {:trigger words[k][l]} :: 0 <= k < |words| && 0 <= l < Lanes(mode) ==>
         words[k][l] == chars[k * Lanes(mode) + l]
  }

  lemma SpellsAppend(mode: Mode, a: seq<Word>, ca: seq<Char>, b: seq<Word>, cb: seq<Char>)
    requires Spells(mode, a, ca) && Spells(mode, b, cb)
    ensures Spells(mode, a + b, ca + cb)
  {
    forall k, l | 0 <= k < |a + b| && 0 <= l < Lanes(mode)
      ensures (a + b)[k][l] == (ca + cb)[k * Lanes(mode) + l]
    {
      if k >= |a| { assert (a + b)[k] == b[k - |a|]; }
    }
  }

  /** ctrl as 64 bits, lowest first: bit i of the shifted register. */
  function Bit(ctrl: seq<bool>, i: nat): bool {
    i < |ctrl| && ctrl[i]
  }

  function CharsOf(buf: seq<byte>, len: nat, ctrl: seq<bool>): (s: seq<Char>)
    requires len <= |buf|
    ensures |s| == len
  {
    seq(len, i requires 0 <= i < len => Char(Bit(ctrl, i), buf[i]))
  }

  /** push_data_buf: one word. */
  method FillWord(mode: Mode, buf: seq<byte>, start: nat, len: nat, ctrl: seq<bool>)
    returns (word: Word, rest: seq<bool>)
    requires start + Lanes(mode) <= len <= |buf|
    ensures forall l :: 0 <= l < Lanes(mode) ==> word[l] == Char(Bit(ctrl, l), buf[start + l])
    ensures rest == ctrl[if |ctrl| < Lanes(mode) then |ctrl| else Lanes(mode)..]
  {
    word := seq(8, l => Char(true, 0));
    rest := ctrl;
    var i, l := start, 0;
    while l < Lanes(mode) && i < len
      invariant l <= Lanes(mode) && i == start + l
      invariant rest == ctrl[if |ctrl| < l then |ctrl| else l..]
      invariant forall m :: 0 <= m < l ==> word[m] == Char(Bit(ctrl, m), buf[start + m])
      decreases Lanes(mode) - l
    {
      word := word[l := Char(rest != [] && rest[0], buf[i])];
      rest := if rest != [] then rest[1..] else [];
      i := i + 1;
      l := l + 1;
    }
  }

  /** The characters at i are those of the word, whose control bits have been
      shifted down to c. */
  lemma WordPushed(mode: Mode, buf: seq<byte>, len: nat, ctrl: seq<bool>, i: nat, c: seq<bool>, word: Word)
    requires i + Lanes(mode) <= len <= |buf| && c == ctrl[if |ctrl| < i then |ctrl| else i..]
    requires forall l :: 0 <= l < Lanes(mode) ==> word[l] == Char(Bit(c, l), buf[i + l])
    ensures Spells(mode, [word], CharsOf(buf, len, ctrl)[i..i + Lanes(mode)])
  {
    forall l | 0 <= l < Lanes(mode) ensures word[l] == CharsOf(buf, len, ctrl)[i..i + Lanes(mode)][l] {
      assert Bit(c, l) == Bit(ctrl, i + l);
    }
  }

  lemma NothingPushed(mode: Mode)
    ensures Spells(mode, [], [])
  {
  }

  /** push_data_buf. */
  method PushDataBuf(mode: Mode, buf: seq<byte>, len: nat, ctrl: seq<bool>) returns (words: seq<Word>)
    requires len <= |buf| && len % Lanes(mode) == 0
    ensures Spells(mode, words, CharsOf(buf, len, ctrl))
  {
    hide Spells, CharsOf, Bit;
    words := [];
    var i, c := 0, ctrl;
    ghost var chars := CharsOf(buf, len, ctrl);
    NothingPushed(mode);
    while i < len
      invariant i % Lanes(mode) == 0 && i <= len
      invariant c == ctrl[if |ctrl| < i then |ctrl| else i..]
      invariant Spells(mode, words, chars[..i])
    {
      var word, rest := FillWord(mode, buf, i, len, c);
      WordPushed(mode, buf, len, ctrl, i, c, word);
      SpellsAppend(mode, words, chars[..i], [word], chars[i..i + Lanes(mode)]);
      assert chars[..i + Lanes(mode)] == chars[..i] + chars[i..i + Lanes(mode)];
      words := words + [word];
      c := rest;
      i := i + Lanes(mode);
    }
    assert chars[..i] == chars;
  }

  function Body(p: seq<byte>): seq<byte> {
    p + CHECKSUM
  }

  function Data(s: seq<byte>): (r: seq<Char>)
    ensures |r| == |s|
  {
    seq(|s|, i requires 0 <= i < |s| => Char(false, s[i]))
  }

  function Idles(n: nat): (r: seq<Char>)
    ensures |r| == n
  {
    seq(n, i => IDLE)
  }

  const PREAMBLE: seq<Char> := [SOF] + Data([0x55, 0x55, 0x55, 0x55, 0x55, 0x55, 0xd5])

  /** Idles that fill the words after the EOF. */
  function Padding(len: nat): nat {
    var n := len % 8 + 5;
    (if n > 8 then 16 - n else 8 - n) + 8
  }

  /** Everything one packet puts on the wire. */
  function PacketChars(p: seq<byte>): seq<Char> {
    Idles(16) + PREAMBLE + Data(Body(p)) + [EOF] + Idles(Padding(|p|))
  }

  /** process_packet. */
  method ProcessPacket(mode: Mode, data: seq<byte>) returns (words: seq<Word>)
    ensures Spells(mode, words, PacketChars(data))
  {
    var idle: seq<byte> := seq(8, i => 0x07);
    var ones := seq(64, i => i < 8);
    var idles := PushDataBuf(mode, idle, 8, ones);
    assert CharsOf(idle, 8, ones) == Idles(8);
    SpellsAppend(mode, idles, Idles(8), idles, Idles(8));
    assert Idles(8) + Idles(8) == Idles(16);

    var sofPreamble: seq<byte> := [0xfb, 0x55, 0x55, 0x55, 0x55, 0x55, 0x55, 0xd5];
    var one := seq(64, i => i == 0);
    var preamble := PushDataBuf(mode, sofPreamble, 8, one);
    assert CharsOf(sofPreamble, 8, one) == PREAMBLE;
    SpellsAppend(mode, idles + idles, Idles(16), preamble, PREAMBLE);

    var whole := |data| - |data| % 8;
    var none := seq(64, i => false);
    var front := PushDataBuf(mode, data, whole, none);
    assert CharsOf(data, whole, none) == Data(data[..whole]);
    SpellsAppend(mode, idles + idles + preamble, Idles(16) + PREAMBLE, front, Data(data[..whole]));

    var tail := ProcessTail(mode, data, whole);
    SpellsAppend(mode, idles + idles + preamble + front, Idles(16) + PREAMBLE + Data(data[..whole]),
                 tail, TailChars(data, whole));
    SpellsAppend(mode, idles + idles + preamble + front + tail,
                 Idles(16) + PREAMBLE + Data(data[..whole]) + TailChars(data, whole), idles, Idles(8));
    words := idles + idles + preamble + front + tail + idles;
    TailFits(data, whole);
  }

  function TailChars(data: seq<byte>, whole: nat): seq<Char>
    requires whole <= |data|
  {
    Data(data[whole..] + CHECKSUM) + [EOF] + Idles(Padding(|data|) - 8)
  }

  lemma TailFits(data: seq<byte>, whole: nat)
    requires whole <= |data|
    ensures Idles(16) + PREAMBLE + Data(data[..whole]) + TailChars(data, whole) + Idles(8) == PacketChars(data)
  {
    assert Data(data[..whole]) + Data(data[whole..] + CHECKSUM) == Data(Body(data));
    assert Idles(Padding(|data|) - 8) + Idles(8) == Idles(Padding(|data|));
  }

  /** The last bytes, the checksum, the EOF and idles up to a whole word. */
  method ProcessTail(mode: Mode, data: seq<byte>, whole: nat) returns (words: seq<Word>)
    requires whole == |data| - |data| % 8
    ensures Spells(mode, words, TailChars(data, whole))
  {
    var d: seq<byte> := seq(16, i => 0x07);
    var rest := data[whole..];
    d := rest + d[|rest|..];
    var len := |rest|;
    d := d[len := 0xC0][len + 1 := 0xC1][len + 2 := 0xC2][len + 3 := 0xC3][len + 4 := 0xFD];
    len := len + 5;
    var c := seq(64, i => len - 1 <= i < 32);
    var n := if len > 8 then 16 else 8;
    words := PushDataBuf(mode, d, n, c);
    assert CharsOf(d, n, c) == TailChars(data, whole);
  }

  // ---- receiving ----

  /** A write sent to the target: the length announced, and the bytes gathered. */
  datatype Transfer = Transfer(length: nat, bytes: seq<byte>) {

    /** The bytes the target will read, if it has been given that many. */
    function Payload(): Option<seq<byte>> {
      if length <= |bytes| then Some(bytes[..length]) else None
    }
  }

  /** `got` is what has been written to buf. Memory ends at MAX_PACKET_SIZE; that a
      step does not write beyond it is stated apart. */
  datatype Rx = Rx(got: seq<byte>, sof: bool, p55: bool, d5: bool, delivered: seq<Transfer>) {
    predicate Valid() {
      |got| <= MAX_PACKET_SIZE && (d5 ==> sof)
    }
  }

  function Reset(delivered: seq<Transfer>): Rx {
    Rx([], false, false, false, delivered)
  }

  /** len - 4 in 32 bits. */
  function LengthOf(len: nat): nat {
    (len + 0x1_0000_0000 - 4) % 0x1_0000_0000
  }

  /** process_byte on values. */
  function ByteStep(s: Rx, c: Char): Rx
  {
    if c.ctrl then
      if c == SOF then Rx([], true, false, false, s.delivered)
      else if c == ERROR then Reset(s.delivered)
      else if c == EOF then
        Reset(if s.d5 then s.delivered + [Transfer(LengthOf(|s.got|), s.got)] else s.delivered)
      else s
    else
      var t := if s.sof && s.d5 then s.(got := s.got + [c.data])
               else if s.sof && s.p55 then s.(d5 := c.data == 0xd5)
               else if s.sof then s.(p55 := c.data == 0x55)
               else s;
      if |t.got| == MAX_PACKET_SIZE then Reset(s.delivered) else t
  }

  /** process_byte would write to buf when it is full: its test comes after the
      write, and misses a buffer that the fast path has filled. */
  predicate ByteOverruns(s: Rx, c: Char) {
    !c.ctrl && s.sof && s.d5 && |s.got| >= MAX_PACKET_SIZE
  }

  /** The slow path: lane by lane. */
  function BytesStep(s: Rx, chars: seq<Char>, n: nat): Rx
    requires n <= |chars|
  {
    if n == 0 then s else ByteStep(BytesStep(s, chars, n - 1), chars[n - 1])
  }

  predicate AllData(w: Word) {
    forall l :: 0 <= l < 8 ==> !w[l].ctrl
  }

  predicate TakesFastPath(mode: Mode, s: Rx, w: Word) {
    mode == Mode10G && s.d5 && AllData(w)
  }

  function Bytes(w: Word): (d: seq<byte>)
    ensures |d| == 8
  {
    seq(8, l requires 0 <= l < 8 => w[l].data)
  }

  /** The fast path: the whole word is packet data. */
  function FastStep(s: Rx, w: Word): Rx {
    s.(got := s.got + Bytes(w))
  }

  lemma BytesData(s: Rx, w: Word, n: nat)
    requires s.Valid() && |s.got| < MAX_PACKET_SIZE && s.d5 && AllData(w) && n <= 8
    ensures BytesStep(s, w, n) == if |s.got| + n < MAX_PACKET_SIZE then s.(got := s.got + Bytes(w)[..n])
                                  else Reset(s.delivered)
  {
    if n > 0 {
      BytesData(s, w, n - 1);
      assert Bytes(w)[..n] == Bytes(w)[..n - 1] + [w[n - 1].data];
    }
  }

  /** The fast path equals eight process_byte calls just when the buffer stays
      short of full: it has no test of its own. On a full buffer both overrun. */
  lemma FastIsSlow(s: Rx, w: Word)
    requires s.Valid() && s.d5 && AllData(w)
    ensures |s.got| < MAX_PACKET_SIZE ==>
              (FastStep(s, w) == BytesStep(s, w, 8) <==> |s.got| + 8 < MAX_PACKET_SIZE)
    ensures |s.got| == MAX_PACKET_SIZE ==> FastOverruns(s) && ByteOverruns(s, w[0])
  {
    if |s.got| < MAX_PACKET_SIZE {
      BytesData(s, w, 8);
      assert Bytes(w)[..8] == Bytes(w);
    }
  }

  predicate FastOverruns(s: Rx) {
    |s.got| + 8 > MAX_PACKET_SIZE
  }

  function WordStep(mode: Mode, s: Rx, w: Word): Rx
  {
    if TakesFastPath(mode, s, w) then FastStep(s, w) else BytesStep(s, w, Lanes(mode))
  }

  /** A word is taken without a write beyond the buffer. */
  ghost predicate WordFits(mode: Mode, s: Rx, w: Word) {
    if TakesFastPath(mode, s, w) then !FastOverruns(s)
    else forall n :: 0 <= n < Lanes(mode) ==> !ByteOverruns(BytesStep(s, w, n), w[n])
  }

  ghost predicate InBuffer(mode: Mode, s: Rx, words: seq<Word>)
    decreases |words|
  {
    words != [] ==> WordFits(mode, s, words[0]) && InBuffer(mode, WordStep(mode, s, words[0]), words[1..])
  }

  function Run(mode: Mode, s: Rx, words: seq<Word>): Rx
    decreases |words|
  {
    if words == [] then s else Run(mode, WordStep(mode, s, words[0]), words[1..])
  }

  /** xgmii2tlm_bridge. */
  class Receiver {
    const mode: Mode
    const buf: array<byte>
    var len: nat
    var sofFound: bool
    var preamble55Found: bool
    var preambleD5Found: bool
    var delivered: seq<Transfer>

    constructor (mode: Mode)
      ensures this.mode == mode && Valid() && fresh(buf) && Value() == Reset([])
    {
      this.mode := mode;
      this.buf := new byte[MAX_PACKET_SIZE];
      len, sofFound, preamble55Found, preambleD5Found, delivered := 0, false, false, false, [];
    }

    ghost predicate Valid()
      reads this
    {
      buf.Length == MAX_PACKET_SIZE && len <= MAX_PACKET_SIZE && (preambleD5Found ==> sofFound)
    }

    ghost function Value(): (r: Rx)
      reads this, buf
      requires Valid()
      ensures r.Valid()
    {
      Rx(buf[..len], sofFound, preamble55Found, preambleD5Found, delivered)
    }

    method DoReset()
      requires buf.Length == MAX_PACKET_SIZE
      modifies this`len, this`sofFound, this`preamble55Found, this`preambleD5Found
      ensures Valid() && Value() == Reset(delivered)
    {
      len, sofFound, preamble55Found, preambleD5Found := 0, false, false, false;
    }

    method ProcessByte(c: Char)
      requires Valid() && !ByteOverruns(Value(), c)
      modifies this`len, this`sofFound, this`preamble55Found, this`preambleD5Found, this`delivered, buf
      ensures Valid() && Value() == ByteStep(old(Value()), c)
    {
      if c.ctrl {
        if c.data == 0xfb {
          sofFound, preamble55Found, preambleD5Found := true, false, false;
          len := 0;
        }
        if c.data == 0xfe {
          DoReset();
        }
        if c.data == 0xfd {
          if !preambleD5Found {
            DoReset();
            return;
          }
          delivered := delivered + [Transfer(LengthOf(len), buf[..len])];
          DoReset();
        }
      } else {
        if sofFound {
          if preambleD5Found {
            buf[len] := c.data;
            assert buf[..len + 1] == old(buf[..len]) + [c.data];
            len := len + 1;
          } else if preamble55Found {
            if c.data == 0xd5 { preambleD5Found := true; }
          } else {
            if c.data == 0x55 { preamble55Found := true; }
          }
        }
        if len == buf.Length {
          DoReset();
        }
      }
    }

    /** One turn of process. */
    method ProcessWord(w: Word)
      requires Valid() && WordFits(mode, Value(), w)
      modifies this`len, this`sofFound, this`preamble55Found, this`preambleD5Found, this`delivered, buf
      ensures Valid() && Value() == WordStep(mode, old(Value()), w)
    {
      if mode == Mode10G && preambleD5Found && AllData(w) {
        forall i | 0 <= i < 8 {
          buf[len + i] := w[i].data;
        }
        assert buf[..len + 8] == old(buf[..len]) + Bytes(w);
        len := len + 8;
      } else {
        var l := 0;
        while l < Lanes(mode)
          invariant l <= Lanes(mode) && Valid() && Value() == BytesStep(old(Value()), w, l)
        {
          assert !ByteOverruns(BytesStep(old(Value()), w, l), w[l]);
          ProcessByte(w[l]);
          l := l + 1;
        }
      }
    }

    /** process, for a stretch of words. */
    method Process(words: seq<Word>)
      requires Valid() && InBuffer(mode, Value(), words)
      modifies this`len, this`sofFound, this`preamble55Found, this`preambleD5Found, this`delivered, buf
      ensures Valid() && Value() == Run(mode, old(Value()), words)
    {
      var k := 0;
      while k < |words|
        invariant k <= |words| && Valid() && InBuffer(mode, Value(), words[k..])
        invariant Run(mode, Value(), words[k..]) == Run(mode, old(Value()), words)
      {
        assert words[k..][1..] == words[k + 1..];
        ProcessWord(words[k]);
        k := k + 1;
      }
    }
  }

  lemma {:induction false} RunAppend(mode: Mode, s: Rx, a: seq<Word>, b: seq<Word>)
    ensures InBuffer(mode, s, a + b) <==> InBuffer(mode, s, a) && InBuffer(mode, Run(mode, s, a), b)
    ensures Run(mode, s, a + b) == Run(mode, Run(mode, s, a), b)
    decreases |a|
  {
    if a == [] {
      assert a + b == b;
    } else {
      assert (a + b)[1..] == a[1..] + b;
      RunAppend(mode, WordStep(mode, s, a[0]), a[1..], b);
    }
  }

  // ---- the round trip ----

  /** Short enough for the receiver, checksum included: process_byte gives up a
      buffer that it fills, the fast path does not. */
  predicate Fits(mode: Mode, p: seq<byte>) {
    if mode == Mode10G then |Body(p)| <= MAX_PACKET_SIZE else |Body(p)| < MAX_PACKET_SIZE
  }

  function Sent(p: seq<byte>): Transfer {
    Transfer(|p|, Body(p))
  }

  /** The receiver after i characters of a packet; in 10G mode, after whole words
      and as far as the buffer reaches. */
  function After(mode: Mode, p: seq<byte>, past: seq<Transfer>, i: nat): Rx
  {
    if i <= 16 then Reset(past)
    else if i == 17 then Rx([], true, false, false, past)
    else if i < 24 then Rx([], true, true, false, past)
    else if i <= 24 + |Body(p)| then
      if mode == Mode10G || i - 24 < MAX_PACKET_SIZE then Rx(Body(p)[..i - 24], true, true, true, past)
      else Reset(past)
    else Reset(if Fits(mode, p) then past + [Sent(p)] else past)
  }

  lemma CharAt(p: seq<byte>, i: nat)
    requires i < |PacketChars(p)|
    ensures |PacketChars(p)| == 24 + |Body(p)| + 1 + Padding(|p|)
    ensures PacketChars(p)[i] == if i < 16 then IDLE
                                 else if i == 16 then SOF
                                 else if i < 23 then Char(false, 0x55)
                                 else if i == 23 then Char(false, 0xd5)
                                 else if i < 24 + |Body(p)| then Char(false, Body(p)[i - 24])
                                 else if i == 24 + |Body(p)| then EOF
                                 else IDLE
  {
    if 16 <= i < 24 { assert PacketChars(p)[i] == PREAMBLE[i - 16]; }
  }

  /** Where process_byte agrees: everywhere but on the byte that fills the buffer
      in 10G mode, and beyond it. */
  lemma CharStep(mode: Mode, p: seq<byte>, past: seq<Transfer>, i: nat)
    requires i < |PacketChars(p)|
    requires mode == Mode1G || i < 24 + MAX_PACKET_SIZE - 1 || (Fits(mode, p) && i >= 24 + |Body(p)|)
    ensures ByteStep(After(mode, p, past, i), PacketChars(p)[i]) == After(mode, p, past, i + 1)
    ensures !ByteOverruns(After(mode, p, past, i), PacketChars(p)[i])
  {
    hide PacketChars, Idles, Data;
    var body := Body(p);
    CharAt(p, i);
    if 24 <= i < 24 + |body| {
      assert body[..i + 1 - 24] == body[..i - 24] + [body[i - 24]];
    } else if i == 24 + |body| {
      assert body[..|body|] == body;
    }
  }

  lemma {:induction false} CharsStep(mode: Mode, p: seq<byte>, past: seq<Transfer>, i: nat, w: Word, n: nat)
    requires i + n <= |PacketChars(p)| && n <= 8
    requires mode == Mode1G || i + n < 24 + MAX_PACKET_SIZE
             || (Fits(mode, p) && (|Body(p)| < MAX_PACKET_SIZE || i >= 24 + |Body(p)|))
    requires forall l :: 0 <= l < n ==> w[l] == PacketChars(p)[i + l]
    ensures BytesStep(After(mode, p, past, i), w, n) == After(mode, p, past, i + n)
    ensures forall m :: 0 <= m < n ==> !ByteOverruns(BytesStep(After(mode, p, past, i), w, m), w[m])
  {
    hide After, PacketChars, ByteStep, ByteOverruns;
    if n > 0 {
      CharsStep(mode, p, past, i, w, n - 1);
      CharStep(mode, p, past, i + n - 1);
    }
  }

  /** A word of data characters alone lies inside the body, and inside the body a
      word has data characters alone. */
  lemma FastWordInBody(mode: Mode, p: seq<byte>, past: seq<Transfer>, i: nat, w: Word)
    requires i + 8 <= |PacketChars(p)| && i % 8 == 0
    requires forall l :: 0 <= l < 8 ==> w[l] == PacketChars(p)[i + l]
    ensures After(mode, p, past, i).d5 && AllData(w) ==> 24 <= i && i - 24 + 8 <= |Body(p)|
    ensures 24 <= i && i - 24 + 8 <= |Body(p)| ==> AllData(w)
  {
    var end := 24 + |Body(p)|;
    assert PacketChars(p)[end] == EOF;
    if AllData(w) {
      forall j | i <= j < i + 8 ensures !PacketChars(p)[j].ctrl {
        assert w[j - i] == PacketChars(p)[i + (j - i)];
      }
    }
  }

  /** Every word up to the end of the buffer, and of a packet that fits every
      word, is taken without an overrun and leads to the next. */
  lemma PacketWord(mode: Mode, p: seq<byte>, past: seq<Transfer>, words: seq<Word>, k: nat)
    requires Spells(mode, words, PacketChars(p)) && k < |words|
    requires mode == Mode1G || Fits(mode, p) || (k + 1) * 8 <= 24 + MAX_PACKET_SIZE
    ensures var i := k * Lanes(mode);
      && WordFits(mode, After(mode, p, past, i), words[k])
      && WordStep(mode, After(mode, p, past, i), words[k]) == After(mode, p, past, (k + 1) * Lanes(mode))
  {
    var i := k * Lanes(mode);
    if mode == Mode1G {
      CharsStep(mode, p, past, i, words[k], 1);
    } else {
      FastWordInBody(mode, p, past, i, words[k]);
      if TakesFastPath(mode, After(mode, p, past, i), words[k]) {
        FastWord(p, past, i, words[k]);
      } else {
        CharsStep(mode, p, past, i, words[k], 8);
      }
    }
  }

  lemma FastWord(p: seq<byte>, past: seq<Transfer>, i: nat, w: Word)
    requires 24 <= i && i - 24 + 8 <= |Body(p)| && AllData(w)
    requires i + 8 <= |PacketChars(p)| && forall l :: 0 <= l < 8 ==> w[l] == PacketChars(p)[i + l]
    ensures FastStep(After(Mode10G, p, past, i), w) == After(Mode10G, p, past, i + 8)
  {
    var body := Body(p);
    forall l | 0 <= l < 8 ensures Bytes(w)[l] == body[i - 24..i - 24 + 8][l] {
      assert PacketChars(p)[i + l] == Char(false, body[i + l - 24]);
    }
    assert Bytes(w) == body[i - 24..i - 24 + 8];
    assert body[..i - 24] + body[i - 24..i - 24 + 8] == body[..i + 8 - 24];
  }

  lemma RunNothing(mode: Mode, s: Rx, words: seq<Word>)
    requires words == []
    ensures InBuffer(mode, s, words) && Run(mode, s, words) == s
  {
  }

  lemma RunFrom(mode: Mode, s: Rx, words: seq<Word>, k: nat)
    requires k < |words| && WordFits(mode, s, words[k])
    ensures InBuffer(mode, s, words[k..]) <==> InBuffer(mode, WordStep(mode, s, words[k]), words[k + 1..])
    ensures Run(mode, s, words[k..]) == Run(mode, WordStep(mode, s, words[k]), words[k + 1..])
  {
    assert words[k..][0] == words[k] && words[k..][1..] == words[k + 1..];
  }

  lemma {:induction false} PacketRun(mode: Mode, p: seq<byte>, past: seq<Transfer>, words: seq<Word>, k: nat)
    requires Spells(mode, words, PacketChars(p)) && k <= |words| && (mode == Mode1G || Fits(mode, p))
    ensures var s := After(mode, p, past, k * Lanes(mode));
      && InBuffer(mode, s, words[k..])
      && Run(mode, s, words[k..]) == After(mode, p, past, |PacketChars(p)|)
    decreases |words| - k
  {
    hide After, PacketChars, WordStep, WordFits, InBuffer, Run, Fits;
    if k == |words| {
      RunNothing(mode, After(mode, p, past, |PacketChars(p)|), words[k..]);
    } else {
      PacketWord(mode, p, past, words, k);
      PacketRun(mode, p, past, words, k + 1);
      RunFrom(mode, After(mode, p, past, k * Lanes(mode)), words, k);
    }
  }

  /** One packet, after whatever has been delivered before. */
  lemma PacketArrives(mode: Mode, p: seq<byte>, past: seq<Transfer>, words: seq<Word>)
    requires Fits(mode, p) && Spells(mode, words, PacketChars(p))
    ensures InBuffer(mode, Reset(past), words) && Run(mode, Reset(past), words) == Reset(past + [Sent(p)])
    ensures Sent(p).Payload() == Some(p)
  {
    PacketRun(mode, p, past, words, 0);
    assert words[0..] == words;
    assert Body(p)[..|p|] == p;
  }

  /** A packet that is too long for 1G mode is dropped, nothing else is lost, and
      the buffer is respected. */
  lemma LongPacketDropped(p: seq<byte>, past: seq<Transfer>, words: seq<Word>)
    requires !Fits(Mode1G, p) && Spells(Mode1G, words, PacketChars(p))
    ensures InBuffer(Mode1G, Reset(past), words) && Run(Mode1G, Reset(past), words) == Reset(past)
  {
    PacketRun(Mode1G, p, past, words, 0);
    assert words[0..] == words;
  }

  /** The first word after the one that fills the buffer. */
  const FULL: nat := (24 + MAX_PACKET_SIZE) / 8

  /** A packet that is too long for 10G mode fills the buffer, and the next word
      overruns it: on the fast path if it is still all data, else in process_byte. */
  lemma LongPacketOverruns(p: seq<byte>, past: seq<Transfer>, words: seq<Word>)
    requires !Fits(Mode10G, p) && Spells(Mode10G, words, PacketChars(p))
    ensures FULL < |words| && InBuffer(Mode10G, Reset(past), words[..FULL])
    ensures var s := Run(Mode10G, Reset(past), words[..FULL]);
      && |s.got| == MAX_PACKET_SIZE && !WordFits(Mode10G, s, words[FULL])
      && (TakesFastPath(Mode10G, s, words[FULL]) <==> |Body(p)| >= MAX_PACKET_SIZE + 8)
      && (!TakesFastPath(Mode10G, s, words[FULL]) ==> ByteOverruns(s, words[FULL][0]))
  {
    FillsBuffer(p, past, words, FULL);
    WordOverruns(p, past, words[FULL]) by {
      assert forall l :: 0 <= l < 8 ==> words[FULL][l] == PacketChars(p)[FULL * 8 + l];
    }
  }

  lemma WordOverruns(p: seq<byte>, past: seq<Transfer>, w: Word)
    requires !Fits(Mode10G, p) && FULL * 8 + 8 <= |PacketChars(p)|
    requires forall l :: 0 <= l < 8 ==> w[l] == PacketChars(p)[FULL * 8 + l]
    ensures var s := After(Mode10G, p, past, FULL * 8);
      && |s.got| == MAX_PACKET_SIZE && !WordFits(Mode10G, s, w)
      && (TakesFastPath(Mode10G, s, w) <==> |Body(p)| >= MAX_PACKET_SIZE + 8)
      && (!TakesFastPath(Mode10G, s, w) ==> ByteOverruns(s, w[0]))
  {
    var s := After(Mode10G, p, past, FULL * 8);
    FastWordInBody(Mode10G, p, past, FULL * 8, w);
    assert w[0] == PacketChars(p)[FULL * 8 + 0] == Char(false, Body(p)[MAX_PACKET_SIZE]);
    assert BytesStep(s, w, 0) == s;
  }

  lemma {:induction false} FillsBuffer(p: seq<byte>, past: seq<Transfer>, words: seq<Word>, k: nat)
    requires !Fits(Mode10G, p) && Spells(Mode10G, words, PacketChars(p)) && k <= FULL < |words|
    ensures InBuffer(Mode10G, Reset(past), words[..k])
    ensures Run(Mode10G, Reset(past), words[..k]) == After(Mode10G, p, past, k * 8)
  {
    hide After, PacketChars, WordStep, WordFits, InBuffer, Run, Fits;
    if k == 0 {
      RunNothing(Mode10G, Reset(past), words[..k]);
      AfterNothing(p, past);
    } else {
      FillsBuffer(p, past, words, k - 1);
      PacketWord(Mode10G, p, past, words, k - 1);
      assert words[..k] == words[..k - 1] + [words[k - 1]];
      RunAppend(Mode10G, Reset(past), words[..k - 1], [words[k - 1]]);
      RunOne(Mode10G, After(Mode10G, p, past, (k - 1) * 8), words[k - 1]);
    }
  }

  lemma AfterNothing(p: seq<byte>, past: seq<Transfer>)
    ensures After(Mode10G, p, past, 0) == Reset(past)
  {
  }

  lemma RunOne(mode: Mode, s: Rx, w: Word)
    ensures InBuffer(mode, s, [w]) <==> WordFits(mode, s, w)
    ensures Run(mode, s, [w]) == WordStep(mode, s, w)
  {
    assert [w][1..] == [];
  }

  /** In 10G mode the buffer is respected just for the packets that fit it. */
  lemma InBufferIffFits(p: seq<byte>, past: seq<Transfer>, words: seq<Word>)
    requires Spells(Mode10G, words, PacketChars(p))
    ensures InBuffer(Mode10G, Reset(past), words) <==> Fits(Mode10G, p)
  {
    if Fits(Mode10G, p) {
      PacketArrives(Mode10G, p, past, words);
    } else {
      hide InBuffer, WordFits, Run, WordStep, Fits;
      LongPacketOverruns(p, past, words);
      var s := Run(Mode10G, Reset(past), words[..FULL]);
      assert words == words[..FULL] + words[FULL..];
      RunAppend(Mode10G, Reset(past), words[..FULL], words[FULL..]);
      FirstWordFits(Mode10G, s, words[FULL..]);
    }
  }

  lemma FirstWordFits(mode: Mode, s: Rx, words: seq<Word>)
    requires words != []
    ensures InBuffer(mode, s, words) ==> WordFits(mode, s, words[0])
  {
  }

  /** A packet arrives intact, without a write beyond the buffer, just when it
      fits: up to 8192 bytes with its checksum in 10G mode, up to 8191 in 1G mode. */
  lemma ArrivesIffFits(mode: Mode, p: seq<byte>, past: seq<Transfer>, words: seq<Word>)
    requires Spells(mode, words, PacketChars(p))
    ensures InBuffer(mode, Reset(past), words) && Run(mode, Reset(past), words) == Reset(past + [Sent(p)])
            <==> Fits(mode, p)
  {
    if Fits(mode, p) {
      PacketArrives(mode, p, past, words);
    } else if mode == Mode10G {
      InBufferIffFits(p, past, words);
    } else {
      LongPacketDropped(p, past, words);
      assert |past + [Sent(p)]| != |past|;
    }
  }

  // ---- errors and frames cut short ----

  /** The idles before a packet leave the receiver as it is, and the SOF starts over:
      the state before does not matter. */
  lemma StartsOver(mode: Mode, p: seq<byte>, s: Rx, i: nat, w: Word, n: nat)
    requires i + n <= 24 && n <= 8 && i % 8 + n <= 8
    requires i + n <= |PacketChars(p)| && forall l :: 0 <= l < n ==> w[l] == PacketChars(p)[i + l]
    ensures BytesStep(From(mode, p, s, i), w, n) == From(mode, p, s, i + n)
    ensures forall m :: 0 <= m < n ==> !ByteOverruns(BytesStep(From(mode, p, s, i), w, m), w[m])
  {
    hide PacketChars;
    if n > 0 {
      StartsOver(mode, p, s, i, w, n - 1);
      CharAt(p, i + n - 1);
    }
  }

  /** The receiver after i characters of a packet that finds it in state s. */
  function From(mode: Mode, p: seq<byte>, s: Rx, i: nat): Rx {
    if i <= 16 then s else After(mode, p, s.delivered, i)
  }

  lemma FirstWords(mode: Mode, p: seq<byte>, s: Rx, words: seq<Word>, k: nat)
    requires Spells(mode, words, PacketChars(p)) && k < |words| && (k + 1) * Lanes(mode) <= 24
    ensures var i := k * Lanes(mode);
      && WordFits(mode, From(mode, p, s, i), words[k])
      && WordStep(mode, From(mode, p, s, i), words[k]) == From(mode, p, s, (k + 1) * Lanes(mode))
  {
    var i := k * Lanes(mode);
    assert words[k][0] == PacketChars(p)[i + 0];
    assert mode == Mode10G ==> words[k][0].ctrl;
    StartsOver(mode, p, s, i, words[k], Lanes(mode));
  }

  lemma {:induction false} FromRun(mode: Mode, p: seq<byte>, s: Rx, words: seq<Word>, k: nat)
    requires Spells(mode, words, PacketChars(p)) && k <= |words| && Fits(mode, p) && k * Lanes(mode) <= 24
    ensures var s1 := From(mode, p, s, k * Lanes(mode));
      && InBuffer(mode, s1, words[k..])
      && Run(mode, s1, words[k..]) == Reset(s.delivered + [Sent(p)])
    decreases |words| - k
  {
    hide PacketChars, WordStep, WordFits, InBuffer, Run, Spells;
    if k * Lanes(mode) == 24 {
      PacketRun(mode, p, s.delivered, words, k);
      PacketDone(mode, p, s.delivered);
    } else {
      NotYetDone(mode, p, words, k);
      FirstWords(mode, p, s, words, k);
      FromRun(mode, p, s, words, k + 1);
      RunFrom(mode, From(mode, p, s, k * Lanes(mode)), words, k);
    }
  }

  lemma PacketDone(mode: Mode, p: seq<byte>, past: seq<Transfer>)
    requires Fits(mode, p)
    ensures After(mode, p, past, |PacketChars(p)|) == Reset(past + [Sent(p)])
  {
  }

  lemma NotYetDone(mode: Mode, p: seq<byte>, words: seq<Word>, k: nat)
    requires Spells(mode, words, PacketChars(p)) && k <= |words| && k * Lanes(mode) < 24
    ensures k < |words| && (k + 1) * Lanes(mode) <= 24
  {
  }

  /** A packet arrives whatever state it finds the receiver in: in the middle of a
      frame that has lost its end, or with a full buffer. */
  lemma ArrivesFromAnyState(mode: Mode, p: seq<byte>, s: Rx, words: seq<Word>)
    requires Fits(mode, p) && Spells(mode, words, PacketChars(p))
    ensures InBuffer(mode, s, words) && Run(mode, s, words) == Reset(s.delivered + [Sent(p)])
  {
    FromRun(mode, p, s, words, 0);
    assert words[0..] == words;
  }

  /** A frame without the start delimiter is not delivered: outside a body, as long as
      the delimiter byte does not come, neither does a body. */
  lemma {:induction false} NoDelimiterNoDelivery(mode: Mode, s: Rx, words: seq<Word>)
    requires !s.d5
    requires forall k, l :: 0 <= k < |words| && 0 <= l < Lanes(mode) ==> words[k][l] != Char(false, 0xd5)
    ensures !Run(mode, s, words).d5 && Run(mode, s, words).delivered == s.delivered
    decreases |words|
  {
    if words != [] {
      BytesNoDelimiter(s, words[0], Lanes(mode));
      NoDelimiterNoDelivery(mode, WordStep(mode, s, words[0]), words[1..]);
    }
  }

  lemma {:induction false} BytesNoDelimiter(s: Rx, w: Word, n: nat)
    requires n <= 8 && !s.d5 && forall l :: 0 <= l < n ==> w[l] != Char(false, 0xd5)
    ensures !BytesStep(s, w, n).d5 && BytesStep(s, w, n).delivered == s.delivered
  {
    if n > 0 { BytesNoDelimiter(s, w, n - 1); }
  }

  /** Nor is one without the preamble byte that must come before it. */
  lemma {:induction false} NoPreambleNoDelivery(mode: Mode, s: Rx, words: seq<Word>)
    requires !s.d5 && !s.p55
    requires forall k, l :: 0 <= k < |words| && 0 <= l < Lanes(mode) ==> words[k][l] != Char(false, 0x55)
    ensures !Run(mode, s, words).d5 && Run(mode, s, words).delivered == s.delivered
    decreases |words|
  {
    if words != [] {
      BytesNoPreamble(s, words[0], Lanes(mode));
      NoPreambleNoDelivery(mode, WordStep(mode, s, words[0]), words[1..]);
    }
  }

  lemma {:induction false} BytesNoPreamble(s: Rx, w: Word, n: nat)
    requires n <= 8 && !s.d5 && !s.p55 && forall l :: 0 <= l < n ==> w[l] != Char(false, 0x55)
    ensures !BytesStep(s, w, n).d5 && !BytesStep(s, w, n).p55 && BytesStep(s, w, n).delivered == s.delivered
  {
    if n > 0 { BytesNoPreamble(s, w, n - 1); }
  }

  /** Out of any frame. */
  predicate Outside(s: Rx) {
    !s.sof && !s.d5
  }

  lemma {:induction false} BytesNoEof(s: Rx, w: Word, n: nat)
    requires n <= 8 && forall l :: 0 <= l < n ==> w[l] != EOF
    ensures BytesStep(s, w, n).delivered == s.delivered
  {
    if n > 0 { BytesNoEof(s, w, n - 1); }
  }

  lemma {:induction false} BytesOutside(s: Rx, w: Word, m: nat, n: nat)
    requires m <= n <= 8 && Outside(BytesStep(s, w, m)) && forall l :: m <= l < n ==> w[l] != SOF
    ensures Outside(BytesStep(s, w, n)) && BytesStep(s, w, n).delivered == BytesStep(s, w, m).delivered
  {
    if n > m { BytesOutside(s, w, m, n - 1); }
  }

  /** Without an EOF nothing is delivered. */
  lemma {:induction false} NoEofNoDelivery(mode: Mode, s: Rx, words: seq<Word>)
    requires forall k, l :: 0 <= k < |words| && 0 <= l < Lanes(mode) ==> words[k][l] != EOF
    ensures Run(mode, s, words).delivered == s.delivered
    decreases |words|
  {
    if words != [] {
      BytesNoEof(s, words[0], Lanes(mode));
      NoEofNoDelivery(mode, WordStep(mode, s, words[0]), words[1..]);
    }
  }

  /** Without an SOF nothing is taken up. */
  lemma {:induction false} NoSofNoFrame(mode: Mode, s: Rx, words: seq<Word>)
    requires Outside(s)
    requires forall k, l :: 0 <= k < |words| && 0 <= l < Lanes(mode) ==> words[k][l] != SOF
    ensures Outside(Run(mode, s, words)) && Run(mode, s, words).delivered == s.delivered
    decreases |words|
  {
    if words != [] {
      assert BytesStep(s, words[0], 0) == s;
      BytesOutside(s, words[0], 0, Lanes(mode));
      NoSofNoFrame(mode, WordStep(mode, s, words[0]), words[1..]);
    }
  }

  /** The word with the ERROR: no EOF before it, no SOF after it. */
  lemma ErrorWord(mode: Mode, s: Rx, w: Word, e: nat)
    requires e < Lanes(mode) && w[e] == ERROR
    requires (forall l :: 0 <= l < e ==> w[l] != EOF) && forall l :: e < l < Lanes(mode) ==> w[l] != SOF
    ensures Outside(WordStep(mode, s, w)) && WordStep(mode, s, w).delivered == s.delivered
  {
    BytesNoEof(s, w, e);
    assert BytesStep(s, w, e + 1) == Reset(s.delivered);
    BytesOutside(s, w, e + 1, Lanes(mode));
  }

  /** A frame with an ERROR in it is not delivered, whatever state it finds: `words`
      has no EOF up to the ERROR in lane e of word k, and no SOF from there on. The
      next packet arrives. */
  lemma ErrorDropsFrame(mode: Mode, s: Rx, words: seq<Word>, k: nat, e: nat, p: seq<byte>, next: seq<Word>)
    requires k < |words| && e < Lanes(mode) && words[k][e] == ERROR
    requires forall j, l :: 0 <= j < |words| && 0 <= l < Lanes(mode) ==>
               && (j < k || (j == k && l < e) ==> words[j][l] != EOF)
               && (j > k || (j == k && l > e) ==> words[j][l] != SOF)
    requires Fits(mode, p) && Spells(mode, next, PacketChars(p))
    ensures Run(mode, s, words).delivered == s.delivered && Outside(Run(mode, s, words))
    ensures Run(mode, s, words + next) == Reset(s.delivered + [Sent(p)])
  {
    hide WordStep, PacketChars, Spells, Fits, Run, BytesStep;
    var s1 := Run(mode, s, words[..k]);
    NoEofNoDelivery(mode, s, words[..k]);
    ErrorWord(mode, s1, words[k], e);
    NoSofNoFrame(mode, WordStep(mode, s1, words[k]), words[k + 1..]);
    assert words == words[..k] + [words[k]] + words[k + 1..];
    RunAppend(mode, s, words[..k], [words[k]]);
    RunOne(mode, s1, words[k]);
    RunAppend(mode, s, words[..k] + [words[k]], words[k + 1..]);
    RunAppend(mode, s, words, next);
    ArrivesFromAnyState(mode, p, Run(mode, s, words), next);
  }

  // ---- streams ----

  function Concat(frames: seq<seq<Word>>): seq<Word> {
    if frames == [] then [] else Concat(frames[..|frames| - 1]) + frames[|frames| - 1]
  }

  function SentAll(packets: seq<seq<byte>>): (r: seq<Transfer>)
    ensures |r| == |packets|
  {
    seq(|packets|, k requires 0 <= k < |packets| => Sent(packets[k]))
  }

  ghost predicate SpellsAll(mode: Mode, frames: seq<seq<Word>>, packets: seq<seq<byte>>) {
    |frames| == |packets| && forall k :: 0 <= k < |frames| ==> Spells(mode, frames[k], PacketChars(packets[k]))
  }

  lemma AllPayloads(packets: seq<seq<byte>>)
    ensures forall k :: 0 <= k < |packets| ==> SentAll(packets)[k].Payload() == Some(packets[k])
  {
    forall k | 0 <= k < |packets| ensures SentAll(packets)[k].Payload() == Some(packets[k]) {
      assert Body(packets[k])[..|packets[k]|] == packets[k];
    }
  }

  lemma SentLast(packets: seq<seq<byte>>, n: nat)
    requires |packets| == n + 1
    ensures SentAll(packets) == SentAll(packets[..n]) + [Sent(packets[n])]
  {
  }

  lemma {:induction false} FramesRun(mode: Mode, packets: seq<seq<byte>>, frames: seq<seq<Word>>)
    requires SpellsAll(mode, frames, packets) && forall k :: 0 <= k < |packets| ==> Fits(mode, packets[k])
    ensures InBuffer(mode, Reset([]), Concat(frames))
    ensures Run(mode, Reset([]), Concat(frames)) == Reset(SentAll(packets))
  {
    hide InBuffer, Run, PacketChars, Fits, Sent, Spells, SentAll;
    var n := |frames| - 1;
    if frames == [] {
      RunNothing(mode, Reset([]), Concat(frames));
      NothingSent(packets);
    } else {
      FramesRun(mode, packets[..n], frames[..n]);
      PacketArrives(mode, packets[n], SentAll(packets[..n]), frames[n]);
      RunAppend(mode, Reset([]), Concat(frames[..n]), frames[n]);
      SentLast(packets, n);
    }
  }

  lemma NothingSent(packets: seq<seq<byte>>)
    requires packets == []
    ensures SentAll(packets) == []
  {
  }

  /** Any sequence of packets that fit the buffer is delivered, byte for byte and
      in order, in both modes and through the fast path. */
  lemma StreamArrives(mode: Mode, packets: seq<seq<byte>>, frames: seq<seq<Word>>)
    requires SpellsAll(mode, frames, packets) && forall k :: 0 <= k < |packets| ==> Fits(mode, packets[k])
    ensures InBuffer(mode, Reset([]), Concat(frames))
    ensures var out := Run(mode, Reset([]), Concat(frames)).delivered;
      |out| == |packets| && forall k :: 0 <= k < |packets| ==> out[k].Payload() == Some(packets[k])
  {
    FramesRun(mode, packets, frames);
    AllPayloads(packets);
  }

  /** The two bridges back to back. */
  method Transmit(mode: Mode, packets: seq<seq<byte>>) returns (delivered: seq<Transfer>)
    requires forall k :: 0 <= k < |packets| ==> Fits(mode, packets[k])
    ensures |delivered| == |packets|
    ensures forall k :: 0 <= k < |packets| ==> delivered[k].Payload() == Some(packets[k])
  {
    var r := new Receiver(mode);
    var k := 0;
    while k < |packets|
      invariant k <= |packets| && fresh(r) && fresh(r.buf) && r.mode == mode && r.Valid()
      invariant r.Value() == Reset(r.delivered) && |r.delivered| == k
      invariant forall j :: 0 <= j < k ==> r.delivered[j].Payload() == Some(packets[j])
    {
      var words := ProcessPacket(mode, packets[k]);
      PacketArrives(mode, packets[k], r.delivered, words);
      r.Process(words);
      k := k + 1;
    }
    delivered := r.delivered;
  }

  /** The length announced for a frame exceeds what was gathered exactly when the
      frame is shorter than a checksum. */
  lemma RuntLength(got: seq<byte>)
    requires |got| <= MAX_PACKET_SIZE
    ensures Transfer(LengthOf(|got|), got).Payload().Some? <==> |got| >= |CHECKSUM|
  {
  }
}
