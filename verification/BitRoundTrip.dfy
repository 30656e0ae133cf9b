/** What tiny_jpeg's bit writer writes, jpgd's bit reader reads. */
module BitRoundTrip {
  import opened Bits
  import opened BitReader
  import opened BitWriter

  lemma StreamBytes(data: seq<nat>)
    requires IsBytes(data)
    ensures IsBytes(Stuff(data) + [0xFF, M_EOI])
  {
    StuffBytes(data);
  }

  lemma {:induction false} StuffBytes(data: seq<nat>)
    requires IsBytes(data)
    ensures IsBytes(Stuff(data))
  {
    if data != [] { StuffBytes(data[..|data| - 1]); }
  }

  /** The stream's bits are next in the primed register. */
  lemma StreamAhead(data: seq<nat>, stream: seq<nat>, bits: BitString)
    requires bits <= ByteBits(data) && stream == Stuff(data) + [0xFF, M_EOI]
    ensures Upcoming([], stream, false, bits)
  {
    hide Upcoming, Stuff, ByteBits;
    StuffedUpcoming(data, [0xFF, M_EOI], false, [], bits);
    assert [] + bits == bits;
  }

  /** A number and the bits it is written with. */
  datatype Field = Field(bits: nat, length: nat) {
    predicate Valid() {
      1 <= length <= 16 && bits < Pow2(length)
    }
  }

  function FieldBits(fields: seq<Field>): BitString {
    if fields == [] then [] else Enc(fields[0].bits, fields[0].length) + FieldBits(fields[1..])
  }

  lemma {:induction false} FieldBitsNext(fields: seq<Field>, i: nat)
    requires i < |fields|
    ensures FieldBits(fields[..i + 1]) == FieldBits(fields[..i]) + Enc(fields[i].bits, fields[i].length)
  {
    hide Enc;
    var f := fields[0];
    if i == 0 {
      assert fields[..1][1..] == [] && FieldBits([]) == [];
    } else {
      FieldBitsNext(fields[1..], i - 1);
      assert fields[1..][..i] == fields[..i + 1][1..] && fields[1..][..i - 1] == fields[..i][1..];
      assert FieldBits(fields[..i + 1]) == Enc(f.bits, f.length) + FieldBits(fields[..i + 1][1..]);
      assert FieldBits(fields[..i]) == Enc(f.bits, f.length) + FieldBits(fields[..i][1..]);
    }
  }

  lemma FieldBitsFirst(fields: seq<Field>, i: nat)
    requires i < |fields|
    ensures FieldBits(fields[i..]) == Enc(fields[i].bits, fields[i].length) + FieldBits(fields[i + 1..])
  {
    hide Enc;
    assert fields[i..][1..] == fields[i + 1..];
  }

  /** The next field of what is upcoming is what is read. */
  lemma ReadsField(w: BitString, rest: seq<nat>, tem: bool, f: Field, more: BitString,
                   w': BitString, rest': seq<nat>, tem': bool)
    requires f.Valid() && |w| >= f.length && Upcoming(w, rest, tem, Enc(f.bits, f.length) + more)
    requires Passed(w, rest, tem, f.length, w', rest', tem')
    ensures Val(w[..f.length]) == f.bits && Upcoming(w', rest', tem', more)
  {
    hide Upcoming, Pow2;
    var word := Enc(f.bits, f.length);
    Skip(w, rest, tem, word + more, f.length);
    assert (word + more)[..f.length] == word && (word + more)[f.length..] == more;
    ValEnc(f.bits, f.length);
  }

  /** Writes the fields, and gives the file's bytes; they stuff and pad the bits of the fields. */
  method WriteFields(fields: seq<Field>) returns (stream: seq<nat>)
    requires forall i :: 0 <= i < |fields| ==> fields[i].Valid()
    ensures IsBytes(stream) && Upcoming([], stream, false, FieldBits(fields))
  {
    hide *;
    var w := new Writer();
    NoFields(fields);
    for i := 0 to |fields|
      invariant w.Valid() && w.Written() == FieldBits(fields[..i]) && fresh(w)
    {
      FieldBitsNext(fields, i);
      FieldBounds(fields[i]);
      w.WriteBits(fields[i].length, fields[i].bits);
    }
    assert fields[..|fields|] == fields;
    w.Finish();
    StreamBytes(w.data);
    StreamAhead(w.data, w.out, FieldBits(fields));
    stream := w.out;
  }

  lemma NoFields(fields: seq<Field>)
    ensures FieldBits(fields[..0]) == [] && fields[0..] == fields
  {
  }

  lemma FieldBounds(f: Field)
    requires f.Valid()
    ensures 1 <= f.length <= 16 && f.bits < Pow2(f.length)
  {
  }

  /** Reads the next field. */
  method ReadField(r: Reader, fields: seq<Field>, i: nat) returns (v: nat)
    requires i < |fields| && fields[i].Valid() && r.Valid() && r.Has(FieldBits(fields[i..]))
    modifies r
    ensures v == fields[i].bits && r.Valid() && r.Has(FieldBits(fields[i + 1..]))
  {
    hide *;
    FieldBounds(fields[i]);
    FieldBitsFirst(fields, i);
    HasIs(r, FieldBits(fields[i..]));
    ghost var w, rest, tem := r.window, r.rest, r.temFlag;
    v := r.GetBitsNoMarkers(fields[i].length);
    ReadsField(w, rest, tem, fields[i], FieldBits(fields[i + 1..]), r.window, r.rest, r.temFlag);
    HasIs(r, FieldBits(fields[i + 1..]));
  }

  lemma HasIs(r: Reader, bs: BitString)
    ensures r.Has(bs) <==> Upcoming(r.window, r.rest, r.temFlag, bs)
  {
  }

  /** Writer and reader are inverse: for all numbers written with 1 to 16 bits each, reading as many bits from the
    * stuffed and padded bytes gives the numbers back, whatever the reader's register held before. */
  method WriteThenRead(fields: seq<Field>, oldRegister: nat) returns (values: seq<nat>)
    requires oldRegister < 0x1_0000_0000 && forall i :: 0 <= i < |fields| ==> fields[i].Valid()
    ensures |values| == |fields| && forall i :: 0 <= i < |fields| ==> values[i] == fields[i].bits
  {
    hide *;
    var stream := WriteFields(fields);
    var r := new Reader(stream, oldRegister);
    r.StartScan();
    NoFields(fields);
    values := [];
    for i := 0 to |fields|
      invariant r.Valid() && r.Has(FieldBits(fields[i..])) && fresh(r)
      invariant |values| == i && forall j :: 0 <= j < i ==> values[j] == fields[j].bits
    {
      var v := ReadField(r, fields, i);
      values := values + [v];
    }
  }
}
