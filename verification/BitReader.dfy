/** jpgd's input side: octets with 0xFF stuffing undone, and the 32-bit bit buffer. */
module BitReader {
  import opened Bits

  const M_EOI := 0xD9
  const JPGD_IN_BUF_SIZE := 8192

  /** The bits of some bytes. */
  function ByteBits(bytes: seq<nat>): BitString {
    if bytes == [] then [] else Enc(bytes[0], 8) + ByteBits(bytes[1..])
  }

  predicate IsBytes(bytes: seq<nat>) {
    forall i :: 0 <= i < |bytes| ==> bytes[i] < 256
  }

  datatype OctetStep = OctetStep(octet: nat, rest: seq<nat>, tem: bool)

  /** The next octet of entropy-coded data: stuffing is undone, a marker yields 0xFF and stays, and the padding after
    * the end alternates between 0xFF and 0xD9. */
  function NextOctet(rest: seq<nat>, tem: bool): OctetStep {
    if rest == [] then OctetStep(if tem then M_EOI else 0xFF, [], !tem)
    else if rest[0] != 0xFF then OctetStep(rest[0], rest[1..], tem)
    else if |rest| == 1 then OctetStep(0xFF, rest, !tem)
    else if rest[1] == 0 then OctetStep(0xFF, rest[2..], tem)
    else OctetStep(0xFF, rest, tem)
  }

  /** The next k octets. */
  function Octets(rest: seq<nat>, tem: bool, k: nat): (os: seq<nat>)
    ensures |os| == k
    decreases k
  {
    if k == 0 then []
    else var o := NextOctet(rest, tem); [o.octet] + Octets(o.rest, o.tem, k - 1)
  }

  /** A marker is never passed: from there on all octets are 0xFF. */
  lemma {:induction false} AtMarker(rest: seq<nat>, tem: bool, k: nat)
    requires |rest| >= 2 && rest[0] == 0xFF && rest[1] != 0
    ensures NextOctet(rest, tem).rest == rest && forall i :: 0 <= i < k ==> Octets(rest, tem, k)[i] == 0xFF
  {
    if k > 0 { AtMarker(rest, tem, k - 1); }
  }

  /** After the end the octets are 0xFF and 0xD9 by turns. */
  lemma {:induction false} AfterEnd(tem: bool, k: nat)
    ensures forall i :: 0 <= i < k ==> Octets([], tem, k)[i] == if (i % 2 == 0) == tem then 0xD9 else 0xFF
    decreases k
  {
    if k > 0 { AfterEnd(!tem, k - 1); }
  }

  /** The bits in the buffer, followed by the bits of the octets still to come, start with bs. */
  ghost predicate Upcoming(window: BitString, rest: seq<nat>, tem: bool, bs: BitString) {
    exists k: nat :: bs <= window + ByteBits(Octets(rest, tem, k))
  }

  lemma {:induction false} ByteBitsLength(bytes: seq<nat>)
    ensures |ByteBits(bytes)| == 8 * |bytes|
  {
    if bytes != [] { ByteBitsLength(bytes[1..]); }
  }

  lemma {:induction false} ByteBitsConcat(a: seq<nat>, b: seq<nat>)
    ensures ByteBits(a + b) == ByteBits(a) + ByteBits(b)
  {
    if a == [] {
      assert a + b == b;
    } else {
      ByteBitsConcat(a[1..], b);
      assert (a + b)[1..] == a[1..] + b;
    }
  }

  /** More octets only add bits at the end. */
  lemma {:induction false} OctetsExtend(rest: seq<nat>, tem: bool, j: nat, k: nat)
    requires j <= k
    ensures ByteBits(Octets(rest, tem, j)) <= ByteBits(Octets(rest, tem, k))
    decreases k
  {
    if j > 0 {
      var o := NextOctet(rest, tem);
      OctetsExtend(o.rest, o.tem, j - 1, k - 1);
      assert Octets(rest, tem, j)[1..] == Octets(o.rest, o.tem, j - 1);
      assert Octets(rest, tem, k)[1..] == Octets(o.rest, o.tem, k - 1);
    }
  }

  /** Reading n bits takes them off the front of whatever is upcoming. */
  ghost predicate Passed(w: BitString, rest: seq<nat>, tem: bool, n: nat, w': BitString, rest': seq<nat>, tem': bool) {
    forall bs :: Upcoming(w, rest, tem, bs) && n <= |bs| ==> Upcoming(w', rest', tem', bs[n..])
  }

  lemma Skip(window: BitString, rest: seq<nat>, tem: bool, bs: BitString, n: nat)
    requires Upcoming(window, rest, tem, bs) && n <= |bs| && n <= |window|
    ensures window[..n] == bs[..n]
    ensures Upcoming(window[n..], rest, tem, bs[n..])
  {
    var k: nat :| bs <= window + ByteBits(Octets(rest, tem, k));
    var all := window + ByteBits(Octets(rest, tem, k));
    assert all[..|bs|] == bs;
    assert all[n..] == window[n..] + ByteBits(Octets(rest, tem, k));
    assert bs[n..] == all[n..][..|bs| - n];
    assert window[..n] == all[..n] == bs[..n];
  }

  /** Taking the next two octets into the buffer keeps what is upcoming. */
  lemma Refill(window: BitString, rest: seq<nat>, tem: bool, bs: BitString)
    requires Upcoming(window, rest, tem, bs)
    ensures var n := NextWord(rest, tem); Upcoming(window + n.word, n.rest, n.tem, bs)
  {
    var n := NextWord(rest, tem);
    var k: nat :| bs <= window + ByteBits(Octets(rest, tem, k));
    OctetsExtend(rest, tem, k, k + 2);
    var more := ByteBits(Octets(n.rest, n.tem, k));
    TwoOctets(rest, tem, k);
    assert window + n.word + more == window + (n.word + more);
    assert bs <= window + ByteBits(Octets(rest, tem, k + 2));
  }

  lemma TwoOctets(rest: seq<nat>, tem: bool, k: nat)
    ensures var n := NextWord(rest, tem);
      ByteBits(Octets(rest, tem, k + 2)) == n.word + ByteBits(Octets(n.rest, n.tem, k))
  {
    var o1 := NextOctet(rest, tem);
    var o2 := NextOctet(o1.rest, o1.tem);
    assert Octets(rest, tem, k + 2)[1..] == Octets(o1.rest, o1.tem, k + 1);
    assert Octets(o1.rest, o1.tem, k + 1)[1..] == Octets(o2.rest, o2.tem, k);
  }

  lemma NextOctetByte(rest: seq<nat>, tem: bool)
    requires IsBytes(rest)
    ensures NextOctet(rest, tem).octet < 256 && IsBytes(NextOctet(rest, tem).rest)
  {
  }

  /** Two plain bytes are the next two octets. */
  lemma PlainOctets(rest: seq<nat>, tem: bool)
    requires |rest| >= 2 && rest[0] != 0xFF && rest[1] != 0xFF
    ensures NextOctet(rest, tem) == OctetStep(rest[0], rest[1..], tem)
    ensures NextOctet(rest[1..], tem) == OctetStep(rest[1], rest[2..], tem)
  {
  }

  datatype WordStep = WordStep(word: BitString, rest: seq<nat>, tem: bool)

  /** The bits of the next two octets. */
  function NextWord(rest: seq<nat>, tem: bool): WordStep {
    var o1 := NextOctet(rest, tem);
    var o2 := NextOctet(o1.rest, o1.tem);
    WordStep(Enc(o1.octet, 8) + Enc(o2.octet, 8), o2.rest, o2.tem)
  }

  /** The next two octets as a number, and what is left after them. */
  lemma TwoOctetWord(rest: seq<nat>, tem: bool)
    requires IsBytes(rest)
    ensures var o1 := NextOctet(rest, tem); var o2 := NextOctet(o1.rest, o1.tem);
      && IsBytes(o1.rest) && IsBytes(o2.rest) && o1.octet * 256 + o2.octet < Pow2(16)
      && WordStep(Enc(o1.octet * 256 + o2.octet, 16), o2.rest, o2.tem) == NextWord(rest, tem)
  {
    hide Enc, NextOctet, Pow2;
    var o1 := NextOctet(rest, tem);
    NextOctetByte(rest, tem);
    NextOctetByte(o1.rest, o1.tem);
    TwoBytes(o1.octet, NextOctet(o1.rest, o1.tem).octet);
  }

  lemma TwoBytes(c1: nat, c2: nat)
    requires c1 < 256 && c2 < 256
    ensures c1 * 256 + c2 < Pow2(16)
    ensures Enc(c1 * 256 + c2, 16) == Enc(c1, 8) + Enc(c2, 8)
  {
    hide *;
    Pow2Values();
    ValConcat(Enc(c1, 8), Enc(c2, 8));
    ValEnc(c1, 8);
    ValEnc(c2, 8);
    EncVal(Enc(c1, 8) + Enc(c2, 8));
  }

  // ----- The bit buffer -----

  /** A 32-bit left shift. */
  function Shl(x: nat, n: nat): nat {
    (x * Pow2(n)) % Pow2(32)
  }

  /** The register holds the window's bits from the top, and zeros below. */
  ghost predicate Register(buf: nat, left: int, window: BitString) {
    0 <= left <= 16 && |window| == 16 + left && buf == Val(window + Zeros(16 - left))
  }

  lemma Peek(buf: nat, left: int, window: BitString, n: nat)
    requires Register(buf, left, window) && n <= 16
    ensures buf < 0x1_0000_0000 && buf / Pow2(32 - n) == Val(window[..n])
  {
    var reg := window + Zeros(16 - left);
    Pow2Values();
    ValSplit(reg, n);
    assert reg[..n] == window[..n];
  }

  lemma DropBits(buf: nat, left: int, window: BitString, n: nat)
    requires Register(buf, left, window) && n < left
    ensures Register(Shl(buf, n), left - n, window[n..])
  {
    var reg := window + Zeros(16 - left);
    ShiftLeft(reg, n);
    assert reg[n..] + Zeros(n) == window[n..] + Zeros(16 - (left - n));
  }

  lemma DropAndFill(buf: nat, left: int, window: BitString, n: nat, v: nat)
    requires Register(buf, left, window) && left <= n <= 16 && v < Pow2(16)
    ensures 0 <= left && Shl(buf, left) % 0x1_0000 == 0
    ensures Register(Shl(Shl(buf, left) + v, n - left), left - n + 16, (window + Enc(v, 16))[n..])
  {
    WindowLength(buf, left, window);
    hide *;
    EmptyLow(buf, left, window);
    FillLow(window[left..], v, 16);
    FullShift(Shl(buf, left) + v, window[left..] + Enc(v, 16), n - left);
    DropTwice(window, Enc(v, 16), left, n);
  }

  lemma DropTwice(a: BitString, b: BitString, i: nat, n: nat)
    requires i <= n && i <= |a| && n <= |a| + |b|
    ensures (a[i..] + b)[n - i..] == (a + b)[n..]
  {
  }

  lemma WindowLength(buf: nat, left: int, window: BitString)
    requires Register(buf, left, window)
    ensures 0 <= left <= 16 && |window| == 16 + left
  {
  }

  lemma EmptyLow(buf: nat, left: int, window: BitString)
    requires Register(buf, left, window)
    ensures 0 <= left <= 16 && |window[left..]| == 16
    ensures Shl(buf, left) == Val(window[left..] + Zeros(16))
    ensures Shl(buf, left) % 0x1_0000 == 0
  {
    var reg := window + Zeros(16 - left);
    ShiftLeft(reg, left);
    assert reg[left..] + Zeros(left) == window[left..] + Zeros(16);
    LowZeros(window[left..]);
  }

  lemma LowZeros(bits: BitString)
    ensures Val(bits + Zeros(16)) % 0x1_0000 == 0
  {
    ValConcat(bits, Zeros(16));
    ValZeros(16);
    Pow2Values();
  }

  lemma FullShift(full: nat, bits: BitString, m: nat)
    requires |bits| == 32 && full == Val(bits) && m <= 16
    ensures Register(Shl(full, m), 16 - m, bits[m..])
  {
    ShiftLeft(bits, m);
  }

  /** n bits out at the top and the 16 bits of v in at the bottom. */
  method ShiftIn(buf: nat, left: int, n: nat, v: nat, ghost window: BitString) returns (buf': nat, left': int)
    requires Register(buf, left, window) && left <= n <= 16 && v < Pow2(16)
    ensures n <= |window| && Register(buf', left', (window + Enc(v, 16))[n..])
  {
    hide *;
    WindowLength(buf, left, window);
    DropAndFill(buf, left, window, n, v);
    left' := left - n;
    buf' := Shl(buf, n + left');
    buf' := buf' + v;
    buf' := Shl(buf', -left');
    left' := left' + 16;
  }

  class Reader {
    /** What the buffer still holds, followed by what the stream still holds. */
    var rest: seq<nat>
    /** How many of those bytes are in the buffer. */
    var inBufLeft: nat
    var temFlag: bool
    var bitBuf: nat
    var bitsLeft: int
    /** The bits that the register holds. */
    ghost var window: BitString

    ghost predicate Valid()
      reads this
    {
      && IsBytes(rest) && inBufLeft <= |rest|
      && Register(bitBuf, bitsLeft, window)
    }

    /** The next bits to be read start with bs. */
    ghost predicate Has(bs: BitString)
      reads this
    {
      Upcoming(window, rest, temFlag, bs)
    }

    /** A reader at the start of entropy-coded data; the register still holds what marker scanning left there. */
    constructor (stream: seq<nat>, bitBuf: nat)
      requires IsBytes(stream) && bitBuf < 0x1_0000_0000
      ensures rest == stream && inBufLeft == 0 && !temFlag && this.bitBuf == bitBuf
    {
      rest, inBufLeft, temFlag, this.bitBuf, bitsLeft, window := stream, 0, false, bitBuf, 16, [];
    }

    /** Primes the bit buffer at the start of a scan: whatever the register held, the stream's bits are next. */
    method StartScan()
      requires IsBytes(rest) && inBufLeft <= |rest| && bitBuf < 0x1_0000_0000
      modifies this
      ensures Valid()
      ensures forall bs :: Upcoming([], old(rest), old(temFlag), bs) ==> Has(bs)
    {
      hide *;
      ghost var bytes, tem, w := rest, temFlag, Enc(bitBuf, 32);
      OldRegister(bitBuf);
      window := w;
      bitsLeft := 16;
      Consistent();
      var _ := GetBitsNoMarkers(16);
      ghost var w1, bytes1, tem1 := window, rest, temFlag;
      var _ := GetBitsNoMarkers(16);
      Primed(w, bytes, tem, w1, bytes1, tem1);
    }

    lemma Primed(w: BitString, bytes: seq<nat>, tem: bool, w1: BitString, bytes1: seq<nat>, tem1: bool)
      requires |w| == 32 && Passed(w, bytes, tem, 16, w1, bytes1, tem1)
      requires Passed(w1, bytes1, tem1, 16, window, rest, temFlag)
      ensures forall bs :: Upcoming([], bytes, tem, bs) ==> Has(bs)
    {
      hide Upcoming, Passed;
      forall bs | Upcoming([], bytes, tem, bs) ensures Has(bs) {
        PrimedRegister(w, bytes, tem, w1, bytes1, tem1, window, rest, temFlag, bs);
      }
    }

    /** One character, and whether it is padding after the end. */
    method GetChar() returns (c: nat, padding: bool)
      requires inBufLeft <= |rest|
      modifies this`rest, this`inBufLeft, this`temFlag
      ensures inBufLeft <= |rest|
      ensures old(rest) == [] ==> padding && rest == [] && temFlag == !old(temFlag) && c == if old(temFlag)
          then M_EOI else 0xFF
      ensures old(rest) != [] ==> !padding && [c] + rest == old(rest) && temFlag == old(temFlag)
    {
      if inBufLeft == 0 {
        inBufLeft := if |rest| < JPGD_IN_BUF_SIZE then |rest| else JPGD_IN_BUF_SIZE;
        if inBufLeft == 0 {
          c := if temFlag then M_EOI else 0xFF;
          temFlag := !temFlag;
          return c, true;
        }
      }
      c, padding := rest[0], false;
      rest, inBufLeft := rest[1..], inBufLeft - 1;
    }

    method StuffChar(c: nat)
      requires inBufLeft <= |rest|
      modifies this`rest, this`inBufLeft
      ensures inBufLeft <= |rest| && rest == [c] + old(rest)
    {
      rest, inBufLeft := [c] + rest, inBufLeft + 1;
    }

    method GetOctet() returns (octet: nat)
      requires inBufLeft <= |rest|
      modifies this`rest, this`inBufLeft, this`temFlag
      ensures inBufLeft <= |rest| && OctetStep(octet, rest, temFlag) == NextOctet(old(rest), old(temFlag))
    {
      var c, padding := GetChar();
      if c == 0xFF {
        if padding { return 0xFF; }
        c, padding := GetChar();
        if padding {
          StuffChar(0xFF);
          return 0xFF;
        }
        if c == 0x00 { return 0xFF; }
        StuffChar(c);
        StuffChar(0xFF);
        return 0xFF;
      }
      return c;
    }

    /** The next two octets: the two bytes themselves if neither is 0xFF and both are buffered. */
    method GetWord() returns (v: nat)
      requires inBufLeft <= |rest| && IsBytes(rest)
      modifies this`rest, this`inBufLeft, this`temFlag
      ensures inBufLeft <= |rest| && IsBytes(rest) && v < Pow2(16)
      ensures WordStep(Enc(v, 16), rest, temFlag) == NextWord(old(rest), old(temFlag))
    {
      hide Enc, NextOctet, Pow2, NextWord;
      TwoOctetWord(rest, temFlag);
      if inBufLeft < 2 || rest[0] == 0xFF || rest[1] == 0xFF {
        var c1 := GetOctet();
        var c2 := GetOctet();
        v := c1 * 256 + c2;
      } else {
        PlainOctets(rest, temFlag);
        v := rest[0] * 256 + rest[1];
        rest, inBufLeft := rest[2..], inBufLeft - 2;
      }
    }

    /** Shifts n bits out of a register that holds more. */
    method Drop(n: nat)
      requires Valid() && n < bitsLeft
      modifies this`bitBuf, this`bitsLeft, this`window
      ensures Valid() && window == old(window)[n..]
    {
      WindowLength(bitBuf, bitsLeft, window);
      DropBits(bitBuf, bitsLeft, window, n);
      hide Register, Shl;
      bitBuf := Shl(bitBuf, n);
      bitsLeft := bitsLeft - n;
      window := window[n..];
    }

    /** Shifts n bits out and 16 new ones in. The source's or is an addition here, since the low half of the register is
      * zero by then. */
    method DropAndRefill(n: nat)
      requires Valid() && bitsLeft <= n <= 16
      modifies this
      ensures Valid()
      ensures var w := NextWord(old(rest), old(temFlag));
        rest == w.rest && temFlag == w.tem && |old(window)| >= n && window == (old(window) + w.word)[n..]
    {
      ghost var w := window;
      assert inBufLeft <= |rest| && IsBytes(rest) && Register(bitBuf, bitsLeft, w);
      hide *;
      var v := GetWord();
      bitBuf, bitsLeft := ShiftIn(bitBuf, bitsLeft, n, v, w);
      window := (w + Enc(v, 16))[n..];
      Consistent();
    }

    lemma Consistent()
      requires IsBytes(rest) && inBufLeft <= |rest| && Register(bitBuf, bitsLeft, window)
      ensures Valid()
    {
    }

    /** get_bits_no_markers(): the next n bits as a number. */
    method GetBitsNoMarkers(n: nat) returns (i: nat)
      requires Valid() && n <= 16
      modifies this
      ensures Valid()
      ensures |old(window)| >= 16 && i == Val(old(window)[..n])
      ensures Passed(old(window), old(rest), old(temFlag), n, window, rest, temFlag)
    {
      ghost var w, r, t := window, rest, temFlag;
      WindowLength(bitBuf, bitsLeft, w);
      hide Upcoming, Register, Val, NextWord, Passed;
      if n == 0 {
        NoBits(w, r, t);
        return 0;
      }
      Peek(bitBuf, bitsLeft, w, n);
      i := bitBuf / Pow2(32 - n);
      if bitsLeft - n <= 0 {
        DropAndRefill(n);
        RefillAndSkip(w, r, t, n);
      } else {
        Drop(n);
        SkipAll(w, r, t, n);
      }
    }
  }

  lemma RefillAndSkip(w: BitString, rest: seq<nat>, tem: bool, n: nat)
    requires n <= |w|
    ensures var next := NextWord(rest, tem); Passed(w, rest, tem, n, (w + next.word)[n..], next.rest, next.tem)
  {
    hide Upcoming, NextWord;
    var next := NextWord(rest, tem);
    var full := w + next.word;
    forall bs | Upcoming(w, rest, tem, bs) && n <= |bs| ensures Upcoming(full[n..], next.rest, next.tem, bs[n..]) {
      Refill(w, rest, tem, bs);
      Skip(full, next.rest, next.tem, bs, n);
    }
  }

  lemma SkipAll(w: BitString, rest: seq<nat>, tem: bool, n: nat)
    requires n <= |w|
    ensures Passed(w, rest, tem, n, w[n..], rest, tem)
  {
    hide Upcoming;
    forall bs | Upcoming(w, rest, tem, bs) && n <= |bs| ensures Upcoming(w[n..], rest, tem, bs[n..]) {
      Skip(w, rest, tem, bs, n);
    }
  }

  lemma NoBits(w: BitString, rest: seq<nat>, tem: bool)
    ensures Val(w[..0]) == 0 && Passed(w, rest, tem, 0, w, rest, tem)
  {
    hide Upcoming;
    assert forall bs: BitString {:trigger bs[0..]} :: bs[0..] == bs;
  }

  // ----- The start of a scan -----

  lemma OldRegister(buf: nat)
    requires buf < 0x1_0000_0000
    ensures |Enc(buf, 32)| == 32 && Register(buf, 16, Enc(buf, 32))
  {
    Pow2Values();
    ValEnc(buf, 32);
    hide Enc, Val;
    assert Enc(buf, 32) + Zeros(0) == Enc(buf, 32);
  }

  /** Two reads of 16 bits put the next 32 bits of the stream into a full register. */
  lemma PrimedRegister(w: BitString, rest: seq<nat>, tem: bool, w1: BitString, rest1: seq<nat>, tem1: bool,
                       w2: BitString, rest2: seq<nat>, tem2: bool, bs: BitString)
    requires |w| == 32 && Upcoming([], rest, tem, bs)
    requires Passed(w, rest, tem, 16, w1, rest1, tem1) && Passed(w1, rest1, tem1, 16, w2, rest2, tem2)
    ensures Upcoming(w2, rest2, tem2, bs)
  {
    BeforeStream(w, rest, tem, bs);
    hide Upcoming;
    var all := w + bs;
    assert Upcoming(w1, rest1, tem1, all[16..]);
    assert Upcoming(w2, rest2, tem2, all[16..][16..]);
    assert all[16..][16..] == bs;
  }

  lemma BeforeStream(w: BitString, rest: seq<nat>, tem: bool, bs: BitString)
    requires Upcoming([], rest, tem, bs)
    ensures Upcoming(w, rest, tem, w + bs)
  {
    var k: nat :| bs <= [] + ByteBits(Octets(rest, tem, k));
    assert [] + ByteBits(Octets(rest, tem, k)) == ByteBits(Octets(rest, tem, k));
    assert w + bs <= w + ByteBits(Octets(rest, tem, k));
  }
}
