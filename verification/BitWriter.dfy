/** tiny_jpeg's output side: bits are packed into bytes, and a zero byte follows every 0xFF. */
module BitWriter {
  import opened Bits
  import opened BitReader

  /** The bytes of entropy-coded data with a zero stuffed after every 0xFF. */
  function Stuff(data: seq<nat>): seq<nat> {
    if data == [] then []
    else Stuff(data[..|data| - 1]) + if data[|data| - 1] == 0xFF then [0xFF, 0] else [data[|data| - 1]]
  }

  lemma {:induction false} StuffConcat(a: seq<nat>, b: seq<nat>)
    ensures Stuff(a + b) == Stuff(a) + Stuff(b)
  {
    if b == [] {
      assert a + b == a;
    } else {
      StuffConcat(a, b[..|b| - 1]);
      assert (a + b)[..|a + b| - 1] == a + b[..|b| - 1];
    }
  }

  lemma StuffOne(c: nat)
    ensures Stuff([c]) == if c == 0xFF then [0xFF, 0] else [c]
  {
    assert [c][..0] == [];
  }

  /** There is no marker in stuffed data: a zero follows every 0xFF. */
  lemma {:induction false} NoMarkers(data: seq<nat>)
    ensures forall i :: 0 <= i < |Stuff(data)| && Stuff(data)[i] == 0xFF ==>
      i + 1 < |Stuff(data)| && Stuff(data)[i + 1] == 0
  {
    if data != [] {
      NoMarkers(data[..|data| - 1]);
    }
  }

  /** Reading octets undoes the stuffing, whatever marker follows. */
  lemma {:induction false} StuffedOctets(data: seq<nat>, tail: seq<nat>, tem: bool)
    ensures Octets(Stuff(data) + tail, tem, |data|) == data
  {
    if data != [] {
      var c, more := data[0], data[1..];
      assert data == [c] + more;
      StuffConcat([c], more);
      StuffOne(c);
      StuffedOctets(more, tail, tem);
      var rest := Stuff(data) + tail;
      assert rest == Stuff([c]) + (Stuff(more) + tail);
      assert NextOctet(rest, tem) == OctetStep(c, Stuff(more) + tail, tem) by {
        if c == 0xFF {
          assert rest[0] == 0xFF && rest[1] == 0 && rest[2..] == Stuff(more) + tail;
        } else {
          assert rest[0] == c && rest[1..] == Stuff(more) + tail;
        }
      }
    }
  }

  /** Every prefix of the bits of the data is what an empty register has coming. */
  lemma StuffedUpcoming(data: seq<nat>, tail: seq<nat>, tem: bool, window: BitString, bs: BitString)
    requires bs <= ByteBits(data)
    ensures Upcoming(window, Stuff(data) + tail, tem, window + bs)
  {
    StuffedOctets(data, tail, tem);
    var k := |data|;
    assert window + bs <= window + ByteBits(Octets(Stuff(data) + tail, tem, k));
  }

  /** The register holds the pending bits from the top, and zeros below. */
  ghost predicate Pending(buffer: int, pending: BitString) {
    |pending| <= 32 && buffer == Val(pending + Zeros(32 - |pending|))
  }

  lemma PushBits(buffer: nat, pending: BitString, n: nat, bits: nat, z: nat)
    requires Pending(buffer, pending) && |pending| + n + z == 32 && bits < Pow2(n)
    ensures Pending(buffer + bits * Pow2(z), pending + Enc(bits, n))
  {
    hide *;
    PendingIs(buffer, pending, n + z);
    ZerosSplit(pending, n, z);
    PushValue(pending, bits, n, z);
    IsPending(buffer + bits * Pow2(z), pending + Enc(bits, n), z);
  }

  lemma PendingIs(buffer: int, pending: BitString, z: nat)
    requires Pending(buffer, pending) && |pending| + z == 32
    ensures buffer == Val(pending + Zeros(z))
  {
    hide Val, Zeros;
  }

  lemma IsPending(buffer: int, pending: BitString, z: nat)
    requires buffer == Val(pending + Zeros(z)) && |pending| + z == 32
    ensures Pending(buffer, pending)
  {
    hide Val, Zeros;
  }

  lemma ZerosSplit(pending: BitString, n: nat, z: nat)
    ensures pending + Zeros(n + z) == pending + Zeros(n) + Zeros(z)
  {
  }

  lemma PushValue(pending: BitString, bits: nat, n: nat, z: nat)
    requires bits < Pow2(n)
    ensures Val(pending + Zeros(n) + Zeros(z)) + bits * Pow2(z) == Val(pending + Enc(bits, n) + Zeros(z))
  {
    hide *;
    FillLow(pending, bits, n);
    ValConcat(pending + Zeros(n), Zeros(z));
    ValConcat(pending + Enc(bits, n), Zeros(z));
    SumTimes(Val(pending + Zeros(n)), bits, Val(pending + Enc(bits, n)), Pow2(z));
  }

  lemma SumTimes(a: nat, b: nat, c: nat, p: nat)
    requires a + b == c
    ensures a * p + b * p == c * p
  {
    MulDistr(a, b, p);
  }

  lemma PopByte(buffer: nat, pending: BitString)
    requires Pending(buffer, pending) && |pending| >= 8
    ensures var c := buffer / 0x100_0000;
      c < 256 && Enc(c, 8) == pending[..8] && Pending((buffer * 256) % 0x1_0000_0000, pending[8..])
  {
    var reg := pending + Zeros(32 - |pending|);
    assert reg[..8] == pending[..8] && reg[8..] + Zeros(8) == pending[8..] + Zeros(32 - |pending[8..]|);
    PopValue(reg);
  }

  lemma PopValue(reg: BitString)
    requires |reg| == 32
    ensures Val(reg) / 0x100_0000 < 256 && Enc(Val(reg) / 0x100_0000, 8) == reg[..8]
    ensures (Val(reg) * 256) % 0x1_0000_0000 == Val(reg[8..] + Zeros(8))
  {
    hide *;
    Pow2Values();
    ValSplit(reg, 8);
    EncVal(reg[..8]);
    ShiftLeft(reg, 8);
  }

  class Writer {
    var out: seq<nat>
    var bitbuffer: nat
    var location: nat
    /** The bytes written, before stuffing. */
    ghost var data: seq<nat>
    ghost var pending: BitString

    ghost predicate Valid()
      reads this
    {
      && out == Stuff(data) && IsBytes(data)
      && location == |pending| < 8 && Pending(bitbuffer, pending)
    }

    /** All bits written so far. */
    ghost function Written(): BitString
      reads this
    {
      ByteBits(data) + pending
    }

    constructor ()
      ensures Valid() && Written() == [] && out == []
    {
      out, bitbuffer, location := [], 0, 0;
      data, pending := [], [];
      new;
      ValZeros(32);
      assert [] + Zeros(32) == Zeros(32);
    }

    /** Writes the most significant byte, with a zero after 0xFF, and pops it off the register. */
    method WriteByte()
      requires location == |pending| >= 8 && Pending(bitbuffer, pending) && out == Stuff(data) && IsBytes(data)
      modifies this
      ensures location == |pending| == old(location) - 8 && Pending(bitbuffer, pending)
      ensures out == Stuff(data) && IsBytes(data) && Written() == old(Written())
    {
      PopByte(bitbuffer, pending);
      hide Pending, Enc, Stuff, ByteBits;
      var c := bitbuffer / 0x100_0000;
      AppendByte(data, pending, c);
      out := out + if c == 0xFF then [c, 0] else [c];
      bitbuffer := (bitbuffer * 256) % 0x1_0000_0000;
      location := location - 8;
      data, pending := data + [c], pending[8..];
    }

    /** Appends the low n bits of `bits`. The source's or is an addition here, since those places are zero. */
    method WriteBits(n: nat, bits: nat)
      requires Valid() && 1 <= n <= 16 && bits < Pow2(n)
      modifies this
      ensures Valid() && Written() == old(Written()) + Enc(bits, n)
    {
      hide Pending, Enc, Stuff, ByteBits;
      var nloc := location + n;
      PushBits(bitbuffer, pending, n, bits, 32 - nloc);
      bitbuffer := bitbuffer + bits * Pow2(32 - nloc);
      location := nloc;
      pending := pending + Enc(bits, n);
      while location >= 8
        invariant location == |pending| && Pending(bitbuffer, pending) && out == Stuff(data) && IsBytes(data)
        invariant Written() == old(Written()) + Enc(bits, n)
      {
        WriteByte();
      }
    }

    /** Pads the last byte with zeros and appends the end marker. */
    method Finish()
      requires Valid()
      modifies this
      ensures IsBytes(data) && out == Stuff(data) + [0xFF, M_EOI]
      ensures old(Written()) <= ByteBits(data) && |ByteBits(data)| == 8 * |data| < |old(Written())| + 8
      ensures ByteBits(data) == old(Written()) + Zeros(8 * |data| - |old(Written())|)
    {
      hide Pending, Enc, Stuff, ByteBits;
      WrittenLength(data, pending);
      if 0 < location < 8 {
        Pow2Mono(0, 8 - location);
        EncZero(8 - location);
        WriteBits(8 - location, 0);
      }
      WrittenLength(data, pending);
      assert pending == [];
      out := out + [0xFF, M_EOI];
    }
  }

  lemma {:induction false} EncZero(n: nat)
    ensures Enc(0, n) == Zeros(n)
  {
    if n > 0 { EncZero(n - 1); }
  }

  lemma WrittenLength(data: seq<nat>, pending: BitString)
    ensures |ByteBits(data) + pending| == 8 * |data| + |pending|
    ensures pending == [] ==> ByteBits(data) + pending == ByteBits(data)
  {
    ByteBitsLength(data);
  }

  lemma AppendByte(data: seq<nat>, pending: BitString, c: nat)
    requires |pending| >= 8 && Enc(c, 8) == pending[..8]
    ensures Stuff(data + [c]) == Stuff(data) + if c == 0xFF then [c, 0] else [c]
    ensures ByteBits(data + [c]) + pending[8..] == ByteBits(data) + pending
  {
    hide *;
    StuffConcat(data, [c]);
    StuffOne(c);
    ByteBitsConcat(data, [c]);
    OneByte(c);
    assert pending == pending[..8] + pending[8..];
  }

  lemma OneByte(c: nat)
    ensures ByteBits([c]) == Enc(c, 8)
  {
    assert [c][1..] == [];
  }
}
