/** The video path end to end: tiny_jpeg's bytes, decoded by jpgd, give the transforms of the coded coefficients times
  * their quantisers. */
module EntropyRoundTrip {
  import opened Bits
  import opened Canonical
  import opened Coefficients
  import opened BitReader
  import opened BitWriter
  import opened BitRoundTrip
  import opened HuffTables
  import opened BlockEncoder
  import opened BlockDecoder
  import opened Idct
  import opened Scan
  import opened DctAccuracy

  // ----- Encoding a scan -----

  /** The three blocks of a minimum coded unit, in the order of the picture. */
  datatype Mcu = Mcu(y: seq<int>, b: seq<int>, r: seq<int>) {
    predicate Valid() {
      |y| == |b| == |r| == 64
    }
  }

  /** tiny_jpeg's layout: a luma and two chroma components, one block each. */
  function Ycc(luma: Books, chroma: Books): (l: Layout)
    ensures l.Valid() && |l.books| == 3 == |l.org|
  {
    Layout([luma, chroma, chroma], [0, 1, 2])
  }

  /** The blocks of the units, in coding order. */
  function BlocksOf(mcus: seq<Mcu>): (blocks: seq<seq<int>>)
    ensures |blocks| == 3 * |mcus|
    ensures forall m :: 0 <= m < |mcus| ==>
      blocks[3 * m] == mcus[m].y && blocks[3 * m + 1] == mcus[m].b && blocks[3 * m + 2] == mcus[m].r
  {
    seq(3 * |mcus|, n requires 0 <= n < 3 * |mcus| =>
      if n % 3 == 0 then mcus[n / 3].y else if n % 3 == 1 then mcus[n / 3].b else mcus[n / 3].r)
  }

  /** With `written` so far, the blocks from n on make up the rest of the total. */
  ghost predicate Remaining(written: BitString, l: Layout, preds: seq<int>, blocks: seq<seq<int>>, n: nat,
                            total: BitString) {
    && l.Valid() && |preds| == |l.books| && n <= |blocks|
    && ScanCodable(l, preds, blocks, n) && Left(total, written, ScanBits(l, preds, blocks, n))
  }

  /** Blocks before n have been written. */
  ghost predicate Writing(w: Writer, l: Layout, preds: seq<int>, blocks: seq<seq<int>>, n: nat, total: BitString)
    reads w
  {
    w.Valid() && Remaining(w.Written(), l, preds, blocks, n, total)
  }

  /** A block that can be coded with these tables. */
  ghost predicate CanCode(books: Books, block: seq<int>, pred: int) {
    |block| == 64 && Codable(books.dc, books.ac, pred, ZigZagged(block)) && ZigZagged(block)[0] == block[0]
  }

  ghost function BitsOf(books: Books, block: seq<int>, pred: int): BitString
    requires CanCode(books, block, pred)
  {
    BlockBits(books.dc, books.ac, pred, ZigZagged(block))
  }

  /** One block, and its component's new DC prediction. */
  method EncodeNext(w: Writer, books: Books, block: seq<int>, pred: int, ghost l: Layout, ghost preds: seq<int>,
                    ghost blocks: seq<seq<int>>, ghost n: nat, ghost c: nat, ghost total: BitString)
    returns (pred': int)
    requires Writing(w, l, preds, blocks, n, total) && n < |blocks| && blocks[n] == block
    requires l.Valid() && c < |l.books| && l.Component(n) == c && l.books[c] == books && c < |preds| && preds[c] == pred
    modifies w
    ensures Writing(w, l, preds[c := pred'], blocks, n + 1, total)
  {
    hide *;
    IsRemaining(w, l, preds, blocks, n, total);
    ghost var written := w.Written();
    NextCanBeCoded(written, l, preds, blocks, n, total, c);
    pred' := EncodeCodable(w, books, block, pred);
    RemainingNext(written, l, preds, blocks, n, total, c);
    IsWriting(w, l, preds[c := pred'], blocks, n + 1, total);
  }

  method EncodeCodable(w: Writer, books: Books, block: seq<int>, pred: int) returns (pred': int)
    requires w.Valid() && CanCode(books, block, pred)
    modifies w
    ensures w.Valid() && |block| == 64 && pred' == block[0] && w.Written() == old(w.Written())
        + BitsOf(books, block, pred)
  {
    hide ZigZagged, BlockBits, ListsDc, ListsAc, AcInRange, BitLen;
    pred' := EncodeBlock(w, block, books.dc, books.ac, pred);
  }

  lemma NextCanBeCoded(written: BitString, l: Layout, preds: seq<int>, blocks: seq<seq<int>>, n: nat,
                       total: BitString, c: nat)
    requires Remaining(written, l, preds, blocks, n, total) && n < |blocks| && l.Component(n) == c
    ensures c < |l.books| == |preds| && CanCode(l.books[c], blocks[n], preds[c])
  {
    FirstPlace();
    hide Codable, Left, G_ZAG;
  }

  lemma RemainingNext(written: BitString, l: Layout, preds: seq<int>, blocks: seq<seq<int>>, n: nat, total: BitString,
                      c: nat)
    requires Remaining(written, l, preds, blocks, n, total) && n < |blocks| && l.Valid() && l.Component(n) == c
    requires c < |l.books| == |preds| && CanCode(l.books[c], blocks[n], preds[c])
    ensures |blocks[n]| == 64
    ensures Remaining(written + BitsOf(l.books[c], blocks[n], preds[c]), l, preds[c := blocks[n][0]], blocks, n + 1,
                      total)
  {
    hide BlockBits, Left, ZigZagged, ListsDc, ListsAc, AcInRange, BitLen;
    var books := l.books[c];
    var du := ZigZagged(blocks[n]);
    LeftNext(total, written, BlockBits(books.dc, books.ac, preds[c], du),
             ScanBits(l, preds[c := du[0]], blocks, n + 1));
  }

  lemma IsRemaining(w: Writer, l: Layout, preds: seq<int>, blocks: seq<seq<int>>, n: nat, total: BitString)
    requires Writing(w, l, preds, blocks, n, total)
    ensures w.Valid() && Remaining(w.Written(), l, preds, blocks, n, total)
  {
  }

  lemma IsWriting(w: Writer, l: Layout, preds: seq<int>, blocks: seq<seq<int>>, n: nat, total: BitString)
    requires w.Valid() && Remaining(w.Written(), l, preds, blocks, n, total)
    ensures Writing(w, l, preds, blocks, n, total)
  {
  }

  /** The block loop of tjei_encode_main(), from the quantised coefficients on. */
  method EncodeScan(w: Writer, luma: Books, chroma: Books, mcus: seq<Mcu>)
    requires w.Valid() && ScanCodable(Ycc(luma, chroma), [0, 0, 0], BlocksOf(mcus), 0)
    modifies w
    ensures w.Valid()
    ensures w.Written() == old(w.Written()) + ScanBits(Ycc(luma, chroma), [0, 0, 0], BlocksOf(mcus), 0)
  {
    hide *;
    ghost var l, blocks := Ycc(luma, chroma), BlocksOf(mcus);
    ghost var total := w.Written() + ScanBits(l, [0, 0, 0], blocks, 0);
    AllRemaining(w.Written(), l, [0, 0, 0], blocks);
    IsWriting(w, l, [0, 0, 0], blocks, 0, total);
    var predY, predB, predR := 0, 0, 0;
    for m := 0 to |mcus|
      invariant Writing(w, l, [predY, predB, predR], blocks, 3 * m, total)
    {
      YccParts(luma, chroma, m);
      var oldY, oldB, oldR := predY, predB, predR;
      predY := EncodeNext(w, luma, mcus[m].y, predY, l, [oldY, oldB, oldR], blocks, 3 * m, 0, total);
      assert [oldY, oldB, oldR][0 := predY] == [predY, oldB, oldR];
      predB := EncodeNext(w, chroma, mcus[m].b, predB, l, [predY, oldB, oldR], blocks, 3 * m + 1, 1, total);
      assert [predY, oldB, oldR][1 := predB] == [predY, predB, oldR];
      predR := EncodeNext(w, chroma, mcus[m].r, predR, l, [predY, predB, oldR], blocks, 3 * m + 2, 2, total);
      assert [predY, predB, oldR][2 := predR] == [predY, predB, predR];
    }
    AllWritten(w, l, [predY, predB, predR], blocks, total);
  }

  lemma AllRemaining(written: BitString, l: Layout, preds: seq<int>, blocks: seq<seq<int>>)
    requires l.Valid() && |preds| == |l.books| && ScanCodable(l, preds, blocks, 0)
    ensures Remaining(written, l, preds, blocks, 0, written + ScanBits(l, preds, blocks, 0))
  {
    LeftAll(written, ScanBits(l, preds, blocks, 0));
  }

  lemma YccParts(luma: Books, chroma: Books, m: nat)
    ensures var l := Ycc(luma, chroma);
      && l.books[0] == luma && l.books[1] == l.books[2] == chroma
      && l.Component(3 * m) == 0 && l.Component(3 * m + 1) == 1 && l.Component(3 * m + 2) == 2
  {
  }

  lemma AllWritten(w: Writer, l: Layout, preds: seq<int>, blocks: seq<seq<int>>, total: BitString)
    requires Writing(w, l, preds, blocks, |blocks|, total)
    ensures w.Valid() && w.Written() == total
  {
    LeftLast(total, w.Written(), []);
    assert w.Written() + [] == w.Written();
  }

  // ----- The tables of both sides -----

  /** A Huffman table as it stands in the file: how many words of each length, and their symbols. */
  datatype HuffSpec = HuffSpec(bits: seq<nat>, vals: seq<nat>) {
    ghost predicate Valid() {
      && |bits| == 16 && CodeLengths(Lens([0] + bits, 16)) && 0 < |Lens([0] + bits, 16)| <= |vals| <= 256
      && (forall k :: 0 <= k < |Lens([0] + bits, 16)| ==> vals[k] < 256)
      && (forall j, k :: 0 <= j < k < |Lens([0] + bits, 16)| ==> vals[j] != vals[k])
    }

    /** The canonical code of the table. */
    ghost function Words(): seq<BitString>
      requires Valid()
    {
      Codes(Lens([0] + bits, 16))
    }

    ghost predicate Has(s: nat)
      requires |bits| == 16
    {
      |Lens([0] + bits, 16)| <= |vals| && s in vals[..|Lens([0] + bits, 16)|]
    }
  }

  /** A DC table with all categories up to 11. */
  ghost predicate DcSpec(h: HuffSpec) {
    h.Valid() && forall c :: 0 <= c <= 11 ==> h.Has(c)
  }

  /** An AC table with all runs and categories up to 10. */
  ghost predicate AcSpec(h: HuffSpec) {
    h.Valid() && forall s :: 0 <= s < 256 && (s == EOB || s == ZRL || 1 <= s % 16 <= 10) ==> h.Has(s)
  }

  function Padded(vals: seq<nat>): (p: seq<nat>)
    requires |vals| <= 256
    ensures |p| == 256 && p[..|vals|] == vals
  {
    vals + seq(256 - |vals|, _ => 0)
  }

  /** The encoder's book and the decoder's tables for the same table of the file; false where the decoder refuses it. */
  method BothTables(h: HuffSpec) returns (book: Book, t: Tables, accepted: bool)
    requires h.Valid()
    ensures fresh(Parts(t))
    ensures forall s :: 0 <= s < 256 && h.Has(s) ==> Lists(book, s)
    ensures accepted <==> !Overfull(h.Words())
    ensures accepted ==> t.Valid() && BookOf(book, t.codes, t.vals)
  {
    ghost var codes;
    book, codes := HuffExpand(h.bits, h.vals);
    t := new Tables();
    IsProper(h);
    hide *;
    accepted := t.MakeHuffTable([0] + h.bits, Padded(h.vals));
    AllListed(h, book, codes);
    SameBook(h, book, codes, t);
  }

  lemma IsProper(h: HuffSpec)
    requires h.Valid()
    ensures ProperTable([0] + h.bits, Padded(h.vals))
  {
    hide Lens, Start;
    var p := Padded(h.vals);
    assert forall k :: 0 <= k < |h.vals| ==> p[k] == p[..|h.vals|][k];
  }

  lemma AllListed(h: HuffSpec, book: Book, codes: seq<BitString>)
    requires h.Valid() && codes == Codes(Lens([0] + h.bits, 16)) && BookOf(book, codes, h.vals)
    ensures forall s :: 0 <= s < 256 && h.Has(s) ==> Lists(book, s)
  {
    hide Lens, Codes, Lists, Word, CodeLengths;
  }

  lemma SameBook(h: HuffSpec, book: Book, codes: seq<BitString>, t: Tables)
    requires h.Valid() && codes == Codes(Lens([0] + h.bits, 16)) && BookOf(book, codes, h.vals)
    requires IsCodeOf(t.codes, [0] + h.bits) && t.vals == Padded(h.vals)
    ensures BookOf(book, t.codes, t.vals) && t.codes == h.Words()
  {
    hide Lens, Codes, Lists, Word, CodeLengths;
    var p, n := t.vals, |h.vals|;
    assert forall k :: 0 <= k < n ==> p[k] == p[..n][k];
    assert p[..|codes|] == h.vals[..|codes|];
  }

  // ----- The round trip -----

  /** The coefficients of the blocks from n on are in the range of the baseline process: differences of DC coefficients
    * of at most 11 bits, AC coefficients of at most 10. */
  ghost predicate InRange(org: seq<nat>, preds: seq<int>, blocks: seq<seq<int>>, n: nat)
    requires |org| > 0 && (forall b :: 0 <= b < |org| ==> org[b] < |preds|) && n <= |blocks|
    decreases |blocks| - n
  {
    n == |blocks| ||
    var c := org[n % |org|];
    && |blocks[n]| == 64 && AcInRange(ZigZagged(blocks[n]))
    && BitLen(Abs(blocks[n][0] - preds[c])) <= 11 && -0x8000_0000 <= blocks[n][0] < 0x8000_0000
    && InRange(org, preds[c := blocks[n][0]], blocks, n + 1)
  }

  lemma {:induction false} RangeCodable(l: Layout, preds: seq<int>, blocks: seq<seq<int>>, n: nat)
    requires l.Valid() && |preds| == |l.books| && n <= |blocks| && InRange(l.org, preds, blocks, n)
    requires forall c :: 0 <= c < |l.books| ==> ListsDc(l.books[c].dc) && ListsAc(l.books[c].ac)
    ensures ScanCodable(l, preds, blocks, n)
    decreases |blocks| - n
  {
    hide ListsDc, ListsAc, AcInRange, BitLen;
    if n < |blocks| {
      FirstPlace();
      hide G_ZAG;
      var c := l.Component(n);
      RangeCodable(l, preds[c := blocks[n][0]], blocks, n + 1);
    }
  }

  lemma SpecsList(luma: Books, chroma: Books, ldc: HuffSpec, lac: HuffSpec, cdc: HuffSpec, cac: HuffSpec)
    requires DcSpec(ldc) && AcSpec(lac) && DcSpec(cdc) && AcSpec(cac)
    requires forall s :: 0 <= s < 256 && ldc.Has(s) ==> Lists(luma.dc, s)
    requires forall s :: 0 <= s < 256 && lac.Has(s) ==> Lists(luma.ac, s)
    requires forall s :: 0 <= s < 256 && cdc.Has(s) ==> Lists(chroma.dc, s)
    requires forall s :: 0 <= s < 256 && cac.Has(s) ==> Lists(chroma.ac, s)
    ensures var l := Ycc(luma, chroma);
      forall c :: 0 <= c < |l.books| ==> ListsDc(l.books[c].dc) && ListsAc(l.books[c].ac)
  {
    hide Lists;
  }

  /** Encodes the units, and gives the file's bytes from the start of the entropy-coded data on. */
  method Encode(luma: Books, chroma: Books, mcus: seq<Mcu>) returns (stream: seq<nat>, ghost data: seq<nat>)
    requires ScanCodable(Ycc(luma, chroma), [0, 0, 0], BlocksOf(mcus), 0)
    ensures IsBytes(stream) && stream == Stuff(data) + [0xFF, M_EOI]
    ensures ScanBits(Ycc(luma, chroma), [0, 0, 0], BlocksOf(mcus), 0) <= ByteBits(data)
  {
    hide *;
    var w := new Writer();
    EncodeScan(w, luma, chroma, mcus);
    ghost var bits := ScanBits(Ycc(luma, chroma), [0, 0, 0], BlocksOf(mcus), 0);
    assert [] + bits == bits;
    w.Finish();
    stream, data := w.out, w.data;
    StreamBytes(data);
  }

  /** Row r of the picture: the transforms of its blocks times their quantisers. */
  ghost predicate RowSamples(sample: seq<int>, blocks: seq<seq<int>>, r: nat, size: nat, org: seq<nat>,
                             quant: seq<seq<int>>) {
    && r * size + size <= |blocks| && QuantFit(blocks, org, quant)
    && Sampled(sample, 0, RestoredFrom(blocks, r * size, size, org, quant), size)
  }

  ghost predicate QuantFit(blocks: seq<seq<int>>, org: seq<nat>, quant: seq<seq<int>>) {
    && |org| > 0 && (forall b :: 0 <= b < |org| ==> org[b] < |quant|)
    && (forall c :: 0 <= c < |quant| ==> |quant[c]| == 64) && (forall j :: 0 <= j < |blocks| ==> |blocks[j]| == 64)
  }

  /** The samples at this place: the inverse transform of the block's coefficients times their quantisers. */
  ghost predicate BlockSamples(sample: seq<int>, at: nat, block: seq<int>, q: seq<int>) {
    |block| == |q| == 64 && at + 64 <= |sample| && IsIdct(Restored(block, q), sample[at..at + 64])
  }

  /** The samples of the three blocks of a unit. */
  ghost predicate UnitSamples(sample: seq<int>, at: nat, unit: Mcu, quantY: seq<int>, quantC: seq<int>) {
    && BlockSamples(sample, at, unit.y, quantY)
    && BlockSamples(sample, at + 64, unit.b, quantC) && BlockSamples(sample, at + 128, unit.r, quantC)
  }

  /** Row r of the picture, unit by unit. */
  ghost predicate UnitRow(sample: seq<int>, mcus: seq<Mcu>, r: nat, units: nat, quantY: seq<int>, quantC: seq<int>) {
    && r * units + units <= |mcus|
    && forall k :: 0 <= k < units ==> UnitSamples(sample, 192 * k, mcus[r * units + k], quantY, quantC)
  }

  lemma BlockOfRow(sample: seq<int>, blocks: seq<seq<int>>, r: nat, size: nat, org: seq<nat>, quant: seq<seq<int>>,
                   a: nat, b: nat)
    requires RowSamples(sample, blocks, r, size, org, quant) && a < size && IndexIn(r * size + a, |org|, b)
    ensures b < |org| && org[b] < |quant| && r * size + a < |blocks|
    ensures BlockSamples(sample, 64 * a, blocks[r * size + a], quant[org[b]])
  {
    hide FullIdct, Restored;
    var restored := RestoredFrom(blocks, r * size, size, org, quant);
    assert SampledAt(sample, 0 + 64 * a, restored[a]);
    FullIsIdct(restored[a]);
  }

  lemma UnitIndex(r: nat, units: nat, k: nat, m: nat)
    requires k < units
    ensures r * (units * 3) + 3 * k == 3 * (r * units + k) && IndexIn(r * (units * 3) + 3 * k, 3, 0)
    ensures 3 * m >= r * (units * 3) + units * 3 ==> r * units + units <= m
  {
    MulAssoc(r, units, 3);
  }

  lemma RowFits(sample: seq<int>, blocks: seq<seq<int>>, r: nat, size: nat, org: seq<nat>, quant: seq<seq<int>>)
    requires RowSamples(sample, blocks, r, size, org, quant)
    ensures r * size + size <= |blocks|
  {
    hide Sampled;
  }

  lemma RowUnits(sample: seq<int>, mcus: seq<Mcu>, r: nat, units: nat, quantY: seq<int>, quantC: seq<int>)
    requires RowSamples(sample, BlocksOf(mcus), r, units * 3, [0, 1, 2], [quantY, quantC, quantC])
    ensures UnitRow(sample, mcus, r, units, quantY, quantC)
  {
    hide RowSamples, BlockSamples, BlocksOf, IndexIn;
    RowFits(sample, BlocksOf(mcus), r, units * 3, [0, 1, 2], [quantY, quantC, quantC]);
    forall k | 0 <= k < units
      ensures r * units + units <= |mcus| && UnitSamples(sample, 192 * k, mcus[r * units + k], quantY, quantC)
    {
      UnitIndex(r, units, k, |mcus|);
      BlockOfUnit(r * (units * 3) + 3 * k, 0, 3);
      BlockOfUnit(r * (units * 3) + 3 * k, 1, 3);
      BlockOfUnit(r * (units * 3) + 3 * k, 2, 3);
      BlockOfRow(sample, BlocksOf(mcus), r, units * 3, [0, 1, 2], [quantY, quantC, quantC], 3 * k, 0);
      BlockOfRow(sample, BlocksOf(mcus), r, units * 3, [0, 1, 2], [quantY, quantC, quantC], 3 * k + 1, 1);
      BlockOfRow(sample, BlocksOf(mcus), r, units * 3, [0, 1, 2], [quantY, quantC, quantC], 3 * k + 2, 2);
    }
    if units == 0 { UnitIndex(r, 1, 0, |mcus|); }
  }

  /** How close the samples of a decoded block are to the exact inverse transform of its coefficients times their
    * quantisers. */
  lemma BlockAccurate(c: seq<real>, sample: seq<int>, at: nat, block: seq<int>, q: seq<int>, j: nat, k: nat)
    requires Cosines(c) && BlockSamples(sample, at, block, q) && j < 8 && k < 8
    ensures |c| == 9 && |block| == |q| == 64 && at + 64 <= |sample|
    ensures Within(sample[at + 8 * j + k] as real, Saturate(ExactSample(c, Restored(block, q), j, k) + 128.0),
                   0.7 + Magnitudes(Restored(block, q)) / 16384.0)
  {
    hide IsIdct, Restored, Cosines, ExactSample, Magnitudes, Within, Saturate;
    SamplesAccurate(c, Restored(block, q), sample[at..at + 64], j, k);
  }

  lemma RowStarts(d: UnitDecoder, sample: array<int>, l: Layout, blocks: seq<seq<int>>, n: nat, more: BitString,
                  size: nat)
    returns (restored: seq<seq<int>>)
    requires d.At(l, blocks, n, more) && n + size <= |blocks| && QuantFit(blocks, d.org, d.quant)
    ensures |restored| == size && d.InRow(sample, l, blocks, n, more, 0, restored)
    ensures restored == RestoredFrom(blocks, n, size, d.org, d.quant)
  {
    restored := RestoredFrom(blocks, n, size, d.org, d.quant);
  }

  lemma RowEnds(d: UnitDecoder, sample: array<int>, l: Layout, blocks: seq<seq<int>>, r: nat, more: BitString,
                size: nat,
                restored: seq<seq<int>>)
    requires |restored| == size && d.InRow(sample, l, blocks, r * size, more, size, restored)
    ensures d.At(l, blocks, r * size + size, more) && RowSamples(sample[..], blocks, r, size, d.org, d.quant)
  {
    hide Sampled, RestoredFrom;
  }

  lemma RowIndex(r: nat, rows: nat, units: nat, m: nat, size: nat)
    requires m > 0 && size == units * m && r < rows
    ensures r * size + size == (r + 1) * size <= rows * size && IndexIn(r * size, m, 0)
  {
    MulAssoc(r, units, m);
    DivMod(r * units, 0, m);
    NextRowBlock(r, rows, size);
  }

  /** The decoder's side: all rows of units, as samples. */
  method DecodeRows(d: UnitDecoder, rows: nat, unitsPerRow: nat, size: nat, ghost l: Layout,
                    ghost blocks: seq<seq<int>>,
                    ghost more: BitString)
    returns (ok: bool, samples: seq<seq<int>>)
    requires d.Valid() && size == unitsPerRow * |d.org|
    modifies d`lastDcVal, d`maxZag, d.r, d.coefficients
    ensures ok ==> |samples| == rows
    ensures old(d.At(l, blocks, 0, more)) && QuantFit(blocks, d.org, d.quant) && |blocks| == rows * size ==>
      ok && forall r :: 0 <= r < rows ==> RowSamples(samples[r], blocks, r, size, d.org, d.quant)
  {
    hide *;
    d.UnitFacts();
    ghost var m := |d.org|;
    ghost var follows := d.At(l, blocks, 0, more) && QuantFit(blocks, d.org, d.quant) && |blocks| == rows * size;
    var sample := new int[64 * size];
    ok, samples := true, [];
    for r := 0 to rows
      invariant ok && d.Valid() && |samples| == r
      invariant follows ==> d.At(l, blocks, r * size, more)
      invariant follows ==> forall k :: 0 <= k < r ==> RowSamples(samples[k], blocks, k, size, d.org, d.quant)
    {
      RowIndex(r, rows, unitsPerRow, m, size);
      NewAside(d, sample);
      ghost var restored: seq<seq<int>> := [];
      if follows { restored := RowStarts(d, sample, l, blocks, r * size, more, size); }
      ok := d.DecodeRow(sample, unitsPerRow, l, blocks, r * size, more, restored);
      if !ok { return; }
      if follows { RowEnds(d, sample, l, blocks, r, more, size, restored); }
      samples := samples + [sample[..]];
    }
  }

  lemma NewAside(d: UnitDecoder, sample: array<int>)
    requires sample !in d.coefficients && sample !in d.tableObjects
    ensures d.Aside(sample)
  {
  }

  /** The decoder's tree has room for all four tables. */
  ghost predicate NoneOverfull(ldc: HuffSpec, lac: HuffSpec, cdc: HuffSpec, cac: HuffSpec) {
    && ldc.Valid() && lac.Valid() && cdc.Valid() && cac.Valid()
    && !Overfull(ldc.Words()) && !Overfull(lac.Words()) && !Overfull(cdc.Words()) && !Overfull(cac.Words())
  }

  lemma AreNoneOverfull(ldc: HuffSpec, lac: HuffSpec, cdc: HuffSpec, cac: HuffSpec)
    requires ldc.Valid() && lac.Valid() && cdc.Valid() && cac.Valid()
    ensures NoneOverfull(ldc, lac, cdc, cac) <==>
      !Overfull(ldc.Words()) && !Overfull(lac.Words()) && !Overfull(cdc.Words()) && !Overfull(cac.Words())
  {
  }

  lemma SpecsValid(ldc: HuffSpec, lac: HuffSpec, cdc: HuffSpec, cac: HuffSpec)
    requires DcSpec(ldc) && AcSpec(lac) && DcSpec(cdc) && AcSpec(cac)
    ensures ldc.Valid() && lac.Valid() && cdc.Valid() && cac.Valid()
  {
  }

  lemma RangeIsCodable(luma: Books, chroma: Books, mcus: seq<Mcu>)
    requires InRange([0, 1, 2], [0, 0, 0], BlocksOf(mcus), 0)
    requires var l := Ycc(luma, chroma);
      forall c :: 0 <= c < |l.books| ==> ListsDc(l.books[c].dc) && ListsAc(l.books[c].ac)
    ensures ScanCodable(Ycc(luma, chroma), [0, 0, 0], BlocksOf(mcus), 0)
  {
    hide ScanCodable, InRange, BlocksOf, ListsDc, ListsAc;
    RangeCodable(Ycc(luma, chroma), [0, 0, 0], BlocksOf(mcus), 0);
  }

  lemma {:induction false} RangeSizes(org: seq<nat>, preds: seq<int>, blocks: seq<seq<int>>, n: nat)
    requires |org| > 0 && (forall b :: 0 <= b < |org| ==> org[b] < |preds|) && n <= |blocks|
    requires InRange(org, preds, blocks, n)
    ensures forall j :: n <= j < |blocks| ==> |blocks[j]| == 64
    decreases |blocks| - n
  {
    hide AcInRange, BitLen;
    if n < |blocks| { RangeSizes(org, preds[org[n % |org|] := blocks[n][0]], blocks, n + 1); }
  }

  lemma StartsAt(d: UnitDecoder, luma: Books, chroma: Books, blocks: seq<seq<int>>)
    requires d.org == [0, 1, 2] && |d.dcTab| == |d.acTab| == 3 && d.lastDcVal == [0, 0, 0]
    requires SameCodes(luma.dc, luma.ac, d.dcTab[0], d.acTab[0])
    requires SameCodes(chroma.dc, chroma.ac, d.dcTab[1], d.acTab[1])
        && SameCodes(chroma.dc, chroma.ac, d.dcTab[2], d.acTab[2])
    requires ScanCodable(Ycc(luma, chroma), [0, 0, 0], blocks, 0)
    requires d.r.Has(ScanBits(Ycc(luma, chroma), [0, 0, 0], blocks, 0))
    ensures d.At(Ycc(luma, chroma), blocks, 0, [])
  {
    hide SameCodes, ScanCodable, ScanBits;
    var bits := ScanBits(Ycc(luma, chroma), [0, 0, 0], blocks, 0);
    assert bits + [] == bits;
  }

  lemma Same(dc: Book, ac: Book, dcTab: Tables, acTab: Tables)
    requires BookOf(dc, dcTab.codes, dcTab.vals) && BookOf(ac, acTab.codes, acTab.vals)
    ensures SameCodes(dc, ac, dcTab, acTab)
  {
  }

  lemma NoParts(r: Reader, t: Tables)
    ensures r !in Parts(t)
  {
  }

  /** Decodes a file's entropy-coded data. */
  method DecodeStream(stream: seq<nat>, oldRegister: nat, ldc: Tables, lac: Tables, cdc: Tables, cac: Tables,
                      quantY: seq<int>, quantC: seq<int>, rows: nat, unitsPerRow: nat,
                      ghost luma: Books, ghost chroma: Books, ghost blocks: seq<seq<int>>, ghost data: seq<nat>)
    returns (ok: bool, samples: seq<seq<int>>)
    requires IsBytes(stream) && oldRegister < 0x1_0000_0000 && |quantY| == |quantC| == 64
    requires ldc.Valid() && lac.Valid() && cdc.Valid() && cac.Valid()
    requires SameCodes(luma.dc, luma.ac, ldc, lac) && SameCodes(chroma.dc, chroma.ac, cdc, cac)
    requires ScanCodable(Ycc(luma, chroma), [0, 0, 0], blocks, 0) && stream == Stuff(data) + [0xFF, M_EOI]
    requires ScanBits(Ycc(luma, chroma), [0, 0, 0], blocks, 0) <= ByteBits(data)
    requires |blocks| == rows * (unitsPerRow * 3) && QuantFit(blocks, [0, 1, 2], [quantY, quantC, quantC])
    ensures ok && |samples| == rows
    ensures forall r :: 0 <= r < rows ==>
      RowSamples(samples[r], blocks, r, unitsPerRow * 3, [0, 1, 2], [quantY, quantC, quantC])
  {
    hide *;
    var reader := new Reader(stream, oldRegister);
    ghost var bits := ScanBits(Ycc(luma, chroma), [0, 0, 0], blocks, 0);
    StreamAhead(data, stream, bits);
    reader.StartScan();
    ghost var objects := Parts(ldc) + Parts(lac) + Parts(cdc) + Parts(cac);
    NoParts(reader, ldc);
    NoParts(reader, lac);
    NoParts(reader, cdc);
    NoParts(reader, cac);
    var d := new UnitDecoder(reader, [0, 1, 2], [ldc, cdc, cdc], [lac, cac, cac], [quantY, quantC, quantC], objects);
    StartsAt(d, luma, chroma, blocks);
    ok, samples := DecodeRows(d, rows, unitsPerRow, unitsPerRow * 3, Ycc(luma, chroma), blocks, []);
  }

  /** What tiny_jpeg encodes, jpgd decodes: for every sequence of units in the range of the baseline process and all
    * tables that list the symbols needed, the samples are the transforms of the coefficients times their quantisers,
    * unless the decoder has no room for one of the tables. */
  method RoundTrip(ldc: HuffSpec, lac: HuffSpec, cdc: HuffSpec, cac: HuffSpec, quantY: seq<int>, quantC: seq<int>,
                   mcus: seq<Mcu>, rows: nat, unitsPerRow: nat, oldRegister: nat)
    returns (accepted: bool, ok: bool, samples: seq<seq<int>>)
    requires DcSpec(ldc) && AcSpec(lac) && DcSpec(cdc) && AcSpec(cac) && |quantY| == |quantC| == 64
    requires 3 * |mcus| == rows * (unitsPerRow * 3) && oldRegister < 0x1_0000_0000
    requires InRange([0, 1, 2], [0, 0, 0], BlocksOf(mcus), 0)
    ensures accepted <==> NoneOverfull(ldc, lac, cdc, cac)
    ensures accepted ==> ok && |samples| == rows
    ensures accepted ==> forall r :: 0 <= r < rows ==>
      && RowSamples(samples[r], BlocksOf(mcus), r, unitsPerRow * 3, [0, 1, 2], [quantY, quantC, quantC])
      && UnitRow(samples[r], mcus, r, unitsPerRow, quantY, quantC)
  {
    hide *;
    ok, samples := false, [];
    SpecsValid(ldc, lac, cdc, cac);
    var ldcBook, ldcTab, a1 := BothTables(ldc);
    var lacBook, lacTab, a2 := BothTables(lac);
    var cdcBook, cdcTab, a3 := BothTables(cdc);
    var cacBook, cacTab, a4 := BothTables(cac);
    accepted := a1 && a2 && a3 && a4;
    AreNoneOverfull(ldc, lac, cdc, cac);
    if !accepted { return; }
    Same(ldcBook, lacBook, ldcTab, lacTab);
    Same(cdcBook, cacBook, cdcTab, cacTab);
    var luma, chroma := Books(ldcBook, lacBook), Books(cdcBook, cacBook);
    SpecsList(luma, chroma, ldc, lac, cdc, cac);
    RangeIsCodable(luma, chroma, mcus);
    var stream;
    ghost var data;
    stream, data := Encode(luma, chroma, mcus);
    FitsQuant(mcus, quantY, quantC);
    ok, samples := DecodeStream(stream, oldRegister, ldcTab, lacTab, cdcTab, cacTab, quantY, quantC, rows, unitsPerRow,
                                luma, chroma, BlocksOf(mcus), data);
    forall r | 0 <= r < rows ensures UnitRow(samples[r], mcus, r, unitsPerRow, quantY, quantC) {
      RowUnits(samples[r], mcus, r, unitsPerRow, quantY, quantC);
    }
  }

  lemma FitsQuant(mcus: seq<Mcu>, quantY: seq<int>, quantC: seq<int>)
    requires InRange([0, 1, 2], [0, 0, 0], BlocksOf(mcus), 0) && |quantY| == |quantC| == 64
    ensures QuantFit(BlocksOf(mcus), [0, 1, 2], [quantY, quantC, quantC])
  {
    hide InRange, BlocksOf;
    RangeSizes([0, 1, 2], [0, 0, 0], BlocksOf(mcus), 0);
  }
}
