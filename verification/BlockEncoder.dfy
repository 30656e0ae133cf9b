/** tiny_jpeg's entropy coder: the extended Huffman tables and one data unit (sections C.2 and F.1.2 of ITU-T T.81). */
module BlockEncoder {
  import opened Bits
  import opened Canonical
  import opened Coefficients
  import opened BitWriter

  /** Sizes and codes by symbol. */
  datatype Book = Book(size: seq<nat>, code: seq<nat>)

  /** The book lists the symbol with a code that fits its size. */
  predicate Lists(b: Book, s: nat) {
    s < |b.size| && s < |b.code| && 1 <= b.size[s] <= 16 && b.code[s] < Pow2(b.size[s])
  }

  function Word(b: Book, s: nat): BitString
    requires Lists(b, s)
  {
    Enc(b.code[s], b.size[s])
  }

  // ----- The tables -----

  /** tjei_huff_get_code_lengths() */
  method GetCodeLengths(huffsize: array<nat>, bits: seq<nat>)
    requires |bits| == 16 && |Lens([0] + bits, 16)| < huffsize.Length
    modifies huffsize
    ensures var lens := Lens([0] + bits, 16); huffsize[..|lens|] == lens && huffsize[|lens|] == 0
  {
    var k := 0;
    for i := 0 to 16
      invariant k == |Lens([0] + bits, i)| <= |Lens([0] + bits, 16)| && huffsize[..k] == Lens([0] + bits, i)
      invariant i > 0 ==> huffsize[k] == 0
    {
      LensMono([0] + bits, i + 1, 16);
      for j := 0 to bits[i]
        invariant k == |Lens([0] + bits, i)| + j
        invariant huffsize[..k] == Lens([0] + bits, i) + Repeat(i + 1, j)
      {
        huffsize[k] := i + 1;
        k := k + 1;
        assert Repeat(i + 1, j + 1) == Repeat(i + 1, j) + [i + 1];
      }
      huffsize[k] := 0;
    }
  }

  /** tjei_huff_get_codes(): its 16-bit code can wrap around only after the last word. */
  method GetCodes(codes: array<nat>, huffsize: array<nat>, ghost lens: seq<nat>)
    requires CodeLengths(lens) && |lens| > 0
    requires huffsize.Length > |lens| && codes.Length >= |lens| && huffsize != codes
    requires huffsize[..|lens|] == lens && huffsize[|lens|] == 0
    modifies codes
    ensures forall k :: 0 <= k < |lens| ==> codes[k] == Code(lens, k)
  {
    hide Widening, Code, Start;
    ghost var n := |lens|;
    var code: nat, k: nat, sz: nat := 0, 0, huffsize[0];
    WideningFirst(lens);
    while true
      invariant k < n && sz == lens[k] && Widening(lens, k, sz, code)
      invariant forall j :: 0 <= j < k ==> codes[j] == Code(lens, j)
      decreases n - k
    {
      ghost var k0 := k;
      while true
        invariant k0 <= k < n && sz == lens[k] && Widening(lens, k, sz, code)
        invariant forall j :: 0 <= j < k ==> codes[j] == Code(lens, j)
        decreases n - k
      {
        WideningNext(lens, k, sz, code);
        codes[k] := code;
        if k + 1 < n { WideningSmall(lens, k + 1, sz, code + 1); }
        k, code := k + 1, (code + 1) % 0x1_0000;
        if huffsize[k] != sz { break; }
      }
      if huffsize[k] == 0 { return; }
      while true
        invariant k < n && sz < lens[k] && Widening(lens, k, sz, code)
        invariant forall j :: 0 <= j < k ==> codes[j] == Code(lens, j)
        decreases lens[k] - sz
      {
        WideningStep(lens, k, sz, code);
        WideningSmall(lens, k, sz + 1, code * 2);
        sz, code := sz + 1, code * 2 % 0x1_0000;
        if huffsize[k] == sz { break; }
      }
    }
  }

  /** The book lists every symbol with its word, and nothing else. */
  ghost predicate BookOf(b: Book, codes: seq<BitString>, vals: seq<nat>) {
    && |codes| <= |vals| && |b.size| == |b.code| == 256
    && (forall k :: 0 <= k < |codes| ==> Lists(b, vals[k]) && Word(b, vals[k]) == codes[k])
    && (forall s :: 0 <= s < 256 && s !in vals[..|codes|] ==> b.size[s] == 0)
  }

  /** tjei_huff_get_extended() */
  method GetExtended(ehuffsize: array<nat>, ehuffcode: array<nat>, huffval: seq<nat>, huffsize: array<nat>,
                     huffcode: array<nat>, count: nat)
    requires ehuffsize.Length == 256 == ehuffcode.Length && 1 <= count <= |huffval|
    requires count <= huffsize.Length && count <= huffcode.Length
    requires ehuffsize != ehuffcode && huffsize != ehuffsize && huffsize != ehuffcode && huffcode != ehuffsize
        && huffcode != ehuffcode
    requires forall k :: 0 <= k < count ==> huffval[k] < 256
    requires forall j, k :: 0 <= j < k < count ==> huffval[j] != huffval[k]
    modifies ehuffsize, ehuffcode
    ensures forall k :: 0 <= k < count ==> ehuffsize[huffval[k]] == huffsize[k] && ehuffcode[huffval[k]] == huffcode[k]
    ensures forall s :: 0 <= s < 256 && s !in huffval[..count] ==> ehuffsize[s] == old(ehuffsize[s])
  {
    var k := 0;
    while true
      invariant 0 <= k < count
      invariant forall j :: 0 <= j < k ==> ehuffsize[huffval[j]] == huffsize[j] && ehuffcode[huffval[j]] == huffcode[j]
      invariant forall s :: 0 <= s < 256 && s !in huffval[..k] ==> ehuffsize[s] == old(ehuffsize[s])
      decreases count - k
    {
      var val := huffval[k];
      ehuffcode[val] := huffcode[k];
      ehuffsize[val] := huffsize[k];
      assert huffval[..k + 1] == huffval[..k] + [val];
      k := k + 1;
      if k >= count { break; }
    }
  }

  /** tjei_huff_expand(), for one table. */
  method HuffExpand(bits: seq<nat>, vals: seq<nat>) returns (book: Book, ghost codes: seq<BitString>)
    requires |bits| == 16 && CodeLengths(Lens([0] + bits, 16)) && 0 < |Lens([0] + bits, 16)| <= |vals| <= 256
    requires forall k :: 0 <= k < |Lens([0] + bits, 16)| ==> vals[k] < 256
    requires forall j, k :: 0 <= j < k < |Lens([0] + bits, 16)| ==> vals[j] != vals[k]
    ensures codes == Codes(Lens([0] + bits, 16)) && BookOf(book, codes, vals)
  {
    hide Code, Lens, Start;
    ghost var lens := Lens([0] + bits, 16);
    var count := 0;
    CountNext([0] + bits, 0);
    for k := 0 to 16
      invariant count == |Lens([0] + bits, k)|
    {
      CountNext([0] + bits, k);
      count := count + bits[k];
    }
    var huffsize, huffcode := new nat[257], new nat[256];
    var ehuffsize, ehuffcode := new nat[256](_ => 0), new nat[256](_ => 0);
    GetCodeLengths(huffsize, bits);
    GetCodes(huffcode, huffsize, lens);
    assert forall k :: 0 <= k < count ==> huffsize[k] == huffsize[..count][k];
    GetExtended(ehuffsize, ehuffcode, vals, huffsize, huffcode, count);
    book := Book(ehuffsize[..], ehuffcode[..]);
    codes := Codes(lens);
    forall k | 0 <= k < |codes| ensures Lists(book, vals[k]) && Word(book, vals[k]) == codes[k] {
      CodeFits(lens, k);
    }
  }

  lemma CountNext(counts: seq<nat>, k: nat)
    requires k + 1 < |counts|
    ensures |Lens(counts, 0)| == 0 && |Lens(counts, k + 1)| == |Lens(counts, k)| + counts[k + 1]
  {
  }

  // ----- One data unit -----

  /** The symbol of no further coefficients, and that of sixteen zeros. */
  const EOB := 0x00
  const ZRL := 0xF0

  /** How many zeros follow from coefficient i on. */
  function ZeroRun(du: seq<int>, i: nat): (r: nat)
    requires i <= |du|
    ensures i + r <= |du|
    ensures forall j :: i <= j < i + r ==> du[j] == 0
    ensures i + r < |du| ==> du[i + r] != 0
    decreases |du| - i
  {
    if i == |du| || du[i] != 0 then 0 else 1 + ZeroRun(du, i + 1)
  }

  /** The AC table lists all symbols that a data unit can need, for magnitudes of at most 10 bits. */
  ghost predicate ListsAc(ac: Book) {
    forall s :: 0 <= s < 256 && (s == EOB || s == ZRL || 1 <= s % 16 <= 10) ==> Lists(ac, s)
  }

  ghost predicate ListsDc(dc: Book) {
    forall c :: 0 <= c <= 11 ==> Lists(dc, c)
  }

  /** The AC coefficients of a data unit fit the baseline process. */
  predicate AcInRange(du: seq<int>) {
    |du| == 64 && forall j :: 1 <= j < 64 ==> BitLen(Abs(du[j])) <= 10
  }

  /** The code of the AC coefficients from i on, in zig-zag order (section F.1.2.2 of ITU-T T.81): nothing is left to
    * code after coefficient 63, a block that ends in zeros ends with EOB, and every other run of zeros is coded with
    * the coefficient after it, sixteen zeros at a time. */
  ghost function AcBits(ac: Book, du: seq<int>, i: nat): BitString
    requires ListsAc(ac) && AcInRange(du) && 1 <= i <= 64
    decreases 64 - i
  {
    var run := ZeroRun(du, i);
    if i == 64 then []
    else if i + run == 64 then Word(ac, EOB)
    else if run >= 16 then Word(ac, ZRL) + AcBits(ac, du, i + 16)
    else CoefficientBits(ac, run, du[i + run]) + AcBits(ac, du, i + run + 1)
  }

  /** A run of zeros and the coefficient that ends it. */
  ghost function CoefficientBits(ac: Book, run: nat, v: int): BitString
    requires ListsAc(ac) && run < 16 && v != 0 && BitLen(Abs(v)) <= 10
  {
    BitLenRange(Abs(v));
    LaterSymbols(ac, run, BitLen(Abs(v)));
    Word(ac, 16 * run + BitLen(Abs(v))) + Enc(Amplitude(v), BitLen(Abs(v)))
  }

  /** The code of the DC coefficient, as a difference (section F.1.2.1). */
  ghost function DcBits(dc: Book, diff: int): BitString
    requires ListsDc(dc) && BitLen(Abs(diff)) <= 11
  {
    Word(dc, BitLen(Abs(diff))) + Enc(Amplitude(diff), BitLen(Abs(diff)))
  }

  ghost function BlockBits(dc: Book, ac: Book, pred: int, du: seq<int>): BitString
    requires ListsDc(dc) && ListsAc(ac) && AcInRange(du) && BitLen(Abs(du[0] - pred)) <= 11
  {
    DcBits(dc, du[0] - pred) + AcBits(ac, du, 1)
  }

  /** The coefficients of a block in zig-zag order. */
  function ZigZagged(block: seq<int>): (du: seq<int>)
    requires |block| == 64
    ensures |du| == 64
  {
    ZigZagInverse();
    seq(64, k requires 0 <= k < 64 => block[G_ZAG[k]])
  }

  method WriteSymbol(w: Writer, b: Book, s: nat)
    requires w.Valid() && Lists(b, s)
    modifies w
    ensures w.Valid() && w.Written() == old(w.Written()) + Word(b, s)
  {
    w.WriteBits(b.size[s], b.code[s]);
  }

  /** The bits of an amplitude are the number the source writes. */
  lemma AmplitudeFits(v: int)
    requires v != 0 && BitLen(Abs(v)) <= 15
    ensures 1 <= BitLen(Abs(v)) && Amplitude(v) < Pow2(BitLen(Abs(v))) && Amplitude(v) % 0x1_0000 == Amplitude(v)
    ensures -0x8000_0000 < v < 0x8000_0000
  {
    AbsBounds(v);
    hide *;
    AmplitudeIs(v);
    BitLenRange(Abs(v));
    Pow2Mono(BitLen(Abs(v)), 15);
    Pow2Values();
  }

  lemma AbsBounds(v: int)
    ensures v <= Abs(v) && 0 <= v + Abs(v) && (v != 0 ==> Abs(v) > 0)
  {
  }

  lemma NoDifference()
    ensures BitLen(Abs(0)) == 0 && Enc(Amplitude(0), 0) == []
  {
  }

  lemma LaterSymbols(ac: Book, run: nat, c: nat)
    requires ListsAc(ac) && run < 16 && 1 <= c <= 10
    ensures Lists(ac, 16 * run + c)
  {
  }

  /** A symbol for a run and a category, and the amplitude. */
  method WriteValue(w: Writer, b: Book, run: nat, v: int)
    requires w.Valid() && v != 0 && BitLen(Abs(v)) <= 15 && Lists(b, 16 * run + BitLen(Abs(v)))
    modifies w
    ensures w.Valid()
    ensures w.Written() == old(w.Written()) + (Word(b, 16 * run + BitLen(Abs(v))) + Enc(Amplitude(v), BitLen(Abs(v))))
  {
    hide *;
    AmplitudeFits(v);
    var bits, num := VariableLengthInt(v);
    WriteSymbol(w, b, run * 16 + num);
    w.WriteBits(num, bits);
  }

  method EncodeDc(w: Writer, dc: Book, diff: int)
    requires w.Valid() && ListsDc(dc) && BitLen(Abs(diff)) <= 11
    modifies w
    ensures w.Valid() && w.Written() == old(w.Written()) + DcBits(dc, diff)
  {
    DcBitsAre(dc, diff);
    hide *;
    if diff != 0 {
      WriteValue(w, dc, 0, diff);
    } else {
      NoDifference();
      WriteSymbol(w, dc, 0);
    }
  }

  lemma DcBitsAre(dc: Book, diff: int)
    requires ListsDc(dc) && BitLen(Abs(diff)) <= 11
    ensures Lists(dc, BitLen(Abs(diff)))
    ensures DcBits(dc, diff) == Word(dc, BitLen(Abs(diff))) + Enc(Amplitude(diff), BitLen(Abs(diff)))
  {
  }

  method EncodeCoefficient(w: Writer, ac: Book, zeroCount: nat, v: int)
    requires w.Valid() && ListsAc(ac) && zeroCount < 16 && v != 0 && BitLen(Abs(v)) <= 10
    modifies w
    ensures w.Valid() && w.Written() == old(w.Written()) + CoefficientBits(ac, zeroCount, v)
  {
    CoefficientBitsAre(ac, zeroCount, v);
    hide *;
    WriteValue(w, ac, zeroCount, v);
  }

  lemma CoefficientBitsAre(ac: Book, run: nat, v: int)
    requires ListsAc(ac) && run < 16 && v != 0 && BitLen(Abs(v)) <= 10
    ensures Lists(ac, 16 * run + BitLen(Abs(v)))
    ensures CoefficientBits(ac, run, v) == Word(ac, 16 * run + BitLen(Abs(v))) + Enc(Amplitude(v), BitLen(Abs(v)))
  {
    BitLenRange(Abs(v));
    LaterSymbols(ac, run, BitLen(Abs(v)));
  }

  // ----- Steps of the AC code -----

  /** z zeros have been counted up to coefficient i. */
  predicate Counted(du: seq<int>, i: nat, z: nat) {
    z < 16 && z < i <= |du| && forall j :: i - z <= j < i ==> du[j] == 0
  }

  lemma {:induction false} RunCounted(du: seq<int>, i: nat, z: nat)
    requires z <= i <= |du| && forall j :: i - z <= j < i ==> du[j] == 0
    ensures ZeroRun(du, i - z) == z + ZeroRun(du, i)
  {
    if z > 0 { RunCounted(du, i, z - 1); }
  }

  lemma {:induction false} RunStops(du: seq<int>, i: nat, last: nat)
    requires i <= last < |du| && du[last] != 0
    ensures i + ZeroRun(du, i) <= last
  {
  }

  lemma SixteenZeros(ac: Book, du: seq<int>, i: nat, last: nat)
    requires ListsAc(ac) && AcInRange(du) && Counted(du, i, 15) && i < last < 64 && du[i] == 0 && du[last] != 0
    ensures i - 15 >= 1 && AcBits(ac, du, i - 15) == Word(ac, ZRL) + AcBits(ac, du, i + 1)
  {
    hide Word, Lists;
    RunCounted(du, i + 1, 16);
    RunStops(du, i + 1, last);
  }

  lemma CodedCoefficient(ac: Book, du: seq<int>, i: nat, z: nat)
    requires ListsAc(ac) && AcInRange(du) && Counted(du, i, z) && i < 64 && du[i] != 0
    ensures BitLen(Abs(du[i])) <= 10 && i - z >= 1
    ensures AcBits(ac, du, i - z) == CoefficientBits(ac, z, du[i]) + AcBits(ac, du, i + 1)
  {
    hide Word, Lists, CoefficientBits;
    RunCounted(du, i, z);
  }

  lemma {:induction false} ZerosToTheEnd(du: seq<int>, i: nat)
    requires i <= |du| && forall j :: i <= j < |du| ==> du[j] == 0
    ensures i + ZeroRun(du, i) == |du|
  {
  }

  lemma LastBits(ac: Book, du: seq<int>, i: nat)
    requires ListsAc(ac) && AcInRange(du) && 1 <= i <= 64 && forall j :: i <= j < 64 ==> du[j] == 0
    ensures AcBits(ac, du, i) == if i == 64 then [] else Word(ac, EOB)
  {
    ZerosToTheEnd(du, i);
  }

  /** What has been written and what is left make up the total. */
  ghost predicate Left(total: BitString, written: BitString, left: BitString) {
    written + left == total
  }

  lemma LeftNext(total: BitString, written: BitString, next: BitString, left: BitString)
    requires Left(total, written, next + left)
    ensures Left(total, written + next, left)
  {
    assert written + next + left == written + (next + left);
  }

  lemma LeftAll(written: BitString, left: BitString)
    ensures Left(written + left, written, left)
  {
  }

  lemma LeftLast(total: BitString, written: BitString, next: BitString)
    requires Left(total, written, next)
    ensures total == written + next
  {
  }

  /** All but the coefficients from i on has been written. */
  ghost predicate Coding(w: Writer, ac: Book, du: seq<int>, total: BitString, i: nat)
    reads w
  {
    w.Valid() && ListsAc(ac) && AcInRange(du) && 1 <= i <= 64 && Left(total, w.Written(), AcBits(ac, du, i))
  }

  /** The same, with z more zeros counted up to coefficient i. */
  ghost predicate Counting(w: Writer, ac: Book, du: seq<int>, total: BitString, i: nat, z: nat)
    reads w
  {
    Counted(du, i, z) && Coding(w, ac, du, total, i - z)
  }

  /** The last coefficient that is not zero, or the first one. */
  method LastNonZero(du: seq<int>) returns (last: nat)
    requires |du| == 64
    ensures last < 64 && (last == 0 || du[last] != 0) && forall j :: last < j < 64 ==> du[j] == 0
  {
    last := 0;
    var i := 63;
    while i > 0
      invariant 0 <= i <= 63 && forall j :: i < j < 64 ==> du[j] == 0
    {
      if du[i] != 0 { return i; }
      i := i - 1;
    }
  }

  /** Writes the symbol for the sixteen zeros that end with coefficient i. */
  method WriteZeros(w: Writer, ac: Book, du: seq<int>, i: nat, ghost last: nat, ghost total: BitString)
    requires 16 <= i < last < |du| && du[last] != 0 && du[i] == 0 && Counted(du, i, 15)
    requires Coding(w, ac, du, total, i - 15)
    modifies w
    ensures Coding(w, ac, du, total, i + 1)
  {
    SymbolsListed(ac, du);
    SixteenZeros(ac, du, i, last);
    LeftNext(total, w.Written(), Word(ac, ZRL), AcBits(ac, du, i + 1));
    hide ListsAc, Lists, Word, AcInRange, AcBits, Left, Counted;
    WriteSymbol(w, ac, ZRL);
  }

  /** Counts one zero; sixteen of them are written as one symbol. */
  method CountZero(w: Writer, ac: Book, du: seq<int>, i: nat, z: nat, ghost last: nat, ghost total: BitString)
    returns (zeroCount: nat)
    requires i <= last < |du| && du[last] != 0 && du[i] == 0 && Counting(w, ac, du, total, i, z)
    modifies w
    ensures i < last && Counting(w, ac, du, total, i + 1, zeroCount)
  {
    hide ListsAc, Lists, Word, AcInRange, AcBits, Left;
    zeroCount := z + 1;
    if zeroCount == 16 {
      WriteZeros(w, ac, du, i, last, total);
      zeroCount := 0;
    }
  }

  /** Counts the zeros before a coefficient. */
  method SkipZeros(w: Writer, ac: Book, du: seq<int>, start: nat, ghost last: nat, ghost total: BitString)
    returns (i: nat, zeroCount: nat)
    requires start <= last < |du| && du[last] != 0 && Counting(w, ac, du, total, start, 0)
    modifies w
    ensures start <= i <= last && du[i] != 0 && Counting(w, ac, du, total, i, zeroCount)
  {
    hide *;
    i, zeroCount := start, 0;
    while du[i] == 0
      invariant start <= i <= last && Counting(w, ac, du, total, i, zeroCount)
      decreases last - i
    {
      zeroCount := CountZero(w, ac, du, i, zeroCount, last, total);
      i := i + 1;
    }
  }

  /** Writes the coefficient after its zeros. */
  method CodeCoefficient(w: Writer, ac: Book, du: seq<int>, i: nat, zeroCount: nat, ghost total: BitString)
    requires i < |du| && du[i] != 0 && Counting(w, ac, du, total, i, zeroCount)
    modifies w
    ensures Counting(w, ac, du, total, i + 1, 0)
  {
    SymbolsListed(ac, du);
    CodedCoefficient(ac, du, i, zeroCount);
    LeftNext(total, w.Written(), CoefficientBits(ac, zeroCount, du[i]), AcBits(ac, du, i + 1));
    hide ListsAc, Lists, Word, AcInRange, AcBits, Left, CoefficientBits;
    EncodeCoefficient(w, ac, zeroCount, du[i]);
  }

  lemma SymbolsListed(ac: Book, du: seq<int>)
    requires ListsAc(ac) && AcInRange(du)
    ensures Lists(ac, EOB) && Lists(ac, ZRL) && |du| == 64
  {
  }

  method EncodeAc(w: Writer, ac: Book, du: seq<int>)
    requires w.Valid() && ListsAc(ac) && AcInRange(du)
    modifies w
    ensures w.Valid() && w.Written() == old(w.Written()) + AcBits(ac, du, 1)
  {
    ghost var total := w.Written() + AcBits(ac, du, 1);
    LeftAll(w.Written(), AcBits(ac, du, 1));
    assert |du| == 64 && Counting(w, ac, du, total, 1, 0);
    hide *;
    var last := LastNonZero(du);
    var i := 1;
    while i <= last
      invariant 1 <= i <= last + 1 && Counting(w, ac, du, total, i, 0)
    {
      var zeroCount;
      i, zeroCount := SkipZeros(w, ac, du, i, last, total);
      CodeCoefficient(w, ac, du, i, zeroCount, total);
      i := i + 1;
    }
    EndBlock(w, ac, du, last, i, total);
  }

  method EndBlock(w: Writer, ac: Book, du: seq<int>, last: nat, ghost i: nat, ghost total: BitString)
    requires last < 64 && Counting(w, ac, du, total, i, 0) && (last == 63 <==> i == 64)
    requires |du| == 64 && forall j :: i <= j < 64 ==> du[j] == 0
    modifies w
    ensures w.Valid() && w.Written() == total
  {
    SymbolsListed(ac, du);
    LastBits(ac, du, i);
    LeftLast(total, w.Written(), AcBits(ac, du, i));
    hide ListsAc, Lists, Word, AcInRange, AcBits, Left;
    if last != 63 {
      WriteSymbol(w, ac, EOB);
    }
  }

  /** tjei_encode_and_write_MCU(), from the quantised coefficients on. */
  method EncodeBlock(w: Writer, block: seq<int>, dc: Book, ac: Book, pred: int) returns (pred': int)
    requires w.Valid() && |block| == 64 && ListsDc(dc) && ListsAc(ac)
    requires AcInRange(ZigZagged(block)) && BitLen(Abs(block[0] - pred)) <= 11
    modifies w
    ensures ZigZagged(block)[0] == block[0] == pred'
    ensures w.Valid() && w.Written() == old(w.Written()) + BlockBits(dc, ac, pred, ZigZagged(block))
  {
    hide *;
    var du := ZigZagOrder(block);
    BlockBitsAre(dc, ac, pred, du);
    var diff := du[0] - pred;
    pred' := du[0];
    EncodeDc(w, dc, diff);
    EncodeAc(w, ac, du);
  }

  lemma BlockBitsAre(dc: Book, ac: Book, pred: int, du: seq<int>)
    requires ListsDc(dc) && ListsAc(ac) && AcInRange(du) && BitLen(Abs(du[0] - pred)) <= 11
    ensures BlockBits(dc, ac, pred, du) == DcBits(dc, du[0] - pred) + AcBits(ac, du, 1)
  {
  }

  method ZigZagOrder(block: seq<int>) returns (du: seq<int>)
    requires |block| == 64
    ensures du == ZigZagged(block) && du[0] == block[0]
  {
    ZigZagInverse();
    hide *;
    du := Reorder(block, TJEI_ZIG_ZAG);
    Reordered(block, du);
  }

  method Reorder(block: seq<int>, order: seq<nat>) returns (du: seq<int>)
    requires |block| == |order| == 64 && forall j :: 0 <= j < 64 ==> order[j] < 64
    requires forall i, j :: 0 <= i < j < 64 ==> order[i] != order[j]
    ensures |du| == 64 && forall j :: 0 <= j < 64 ==> du[order[j]] == block[j]
  {
    var d := new int[64];
    for i := 0 to 64
      invariant forall j :: 0 <= j < i ==> d[order[j]] == block[j]
    {
      d[order[i]] := block[i];
    }
    du := d[..];
  }

  lemma Reordered(block: seq<int>, du: seq<int>)
    requires |block| == |du| == 64
    requires forall j :: 0 <= j < 64 ==> TJEI_ZIG_ZAG[j] < 64 && du[TJEI_ZIG_ZAG[j]] == block[j]
    ensures du == ZigZagged(block) && du[0] == block[0]
  {
    ZigZagInverse();
    FirstPlace();
    hide G_ZAG, TJEI_ZIG_ZAG;
    forall k | 0 <= k < 64 ensures du[k] == ZigZagged(block)[k] {
      assert du[TJEI_ZIG_ZAG[G_ZAG[k]]] == block[G_ZAG[k]];
    }
  }

  lemma FirstPlace()
    ensures G_ZAG[0] == 0
  {
  }
}
