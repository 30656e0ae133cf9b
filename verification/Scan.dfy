/** A whole scan: what tiny_jpeg writes for all blocks of a picture, and what jpgd makes of it. */
module Scan {
  import opened Bits
  import opened Coefficients
  import opened BitReader
  import opened HuffTables
  import opened BlockEncoder
  import opened BlockDecoder
  import opened Idct

  // ----- The code of a scan -----

  /** The tables of a component. */
  datatype Books = Books(dc: Book, ac: Book)

  /** The components of a scan with their tables, and the component of each block of a minimum coded unit. */
  datatype Layout = Layout(books: seq<Books>, org: seq<nat>) {
    predicate Valid() {
      |org| > 0 && forall b :: 0 <= b < |org| ==> org[b] < |books|
    }

    /** The component of block n of the scan. */
    function Component(n: nat): (c: nat)
      requires Valid()
      ensures c < |books|
    {
      org[n % |org|]
    }
  }

  /** The blocks from n on can be coded, with these DC predictions. */
  ghost predicate ScanCodable(l: Layout, preds: seq<int>, blocks: seq<seq<int>>, n: nat)
    requires l.Valid() && |preds| == |l.books| && n <= |blocks|
    decreases |blocks| - n
  {
    n == |blocks| ||
    var c := l.Component(n);
    && |blocks[n]| == 64 && Codable(l.books[c].dc, l.books[c].ac, preds[c], ZigZagged(blocks[n]))
    && ScanCodable(l, preds[c := ZigZagged(blocks[n])[0]], blocks, n + 1)
  }

  /** The code of the blocks from n on: each component's DC coefficients are coded as differences. */
  ghost function ScanBits(l: Layout, preds: seq<int>, blocks: seq<seq<int>>, n: nat): BitString
    requires l.Valid() && |preds| == |l.books| && n <= |blocks| && ScanCodable(l, preds, blocks, n)
    decreases |blocks| - n
  {
    if n == |blocks| then []
    else
      var c := l.Component(n);
      BlockBits(l.books[c].dc, l.books[c].ac, preds[c], ZigZagged(blocks[n]))
      + ScanBits(l, preds[c := ZigZagged(blocks[n])[0]], blocks, n + 1)
  }

  // ----- Decoding units -----

  /** All that tables consist of. */
  ghost function Parts(t: Tables): set<object> {
    {t, t.lookUp, t.lookUp2, t.codeSize, t.tree}
  }

  class UnitDecoder {
    const r: Reader
    /** The component of each block of a unit. */
    const org: seq<nat>
    /** The tables and the quantisers of each component. */
    const dcTab: seq<Tables>
    const acTab: seq<Tables>
    const quant: seq<seq<int>>
    /** The coefficients of each block of a unit. */
    const coefficients: seq<array<int>>
    ghost const tableObjects: set<object>
    var lastDcVal: seq<int>
    var maxZag: seq<nat>

    ghost predicate Shaped() {
      && |org| > 0 && (forall b :: 0 <= b < |org| ==> org[b] < |quant|)
      && r !in tableObjects && this !in tableObjects
      && |dcTab| == |acTab| == |quant| && |coefficients| == |org|
      && (forall c :: 0 <= c < |quant| ==> |quant[c]| == 64)
      && (forall b :: 0 <= b < |org| ==> coefficients[b].Length == 64)
      && (forall a, b :: 0 <= a < b < |org| ==> coefficients[a] != coefficients[b])
      && (forall b, c :: 0 <= b < |org| && 0 <= c < |quant| ==>
          Apart(coefficients[b], dcTab[c]) && Apart(coefficients[b], acTab[c]))
    }

    /** The tables are in order, and all that they consist of is in the footprint. */
    ghost predicate TablesValid()
      reads tableObjects
    {
      && (forall c :: 0 <= c < |dcTab| ==> InFootprint(dcTab[c]) && dcTab[c].Valid())
      && (forall c :: 0 <= c < |acTab| ==> InFootprint(acTab[c]) && acTab[c].Valid())
    }

    ghost predicate InFootprint(t: Tables) {
      Parts(t) <= tableObjects
    }

    /** The storage of a block is no part of the tables. */
    static ghost predicate Apart(p: array<int>, t: Tables) {
      p != t.lookUp && p != t.lookUp2 && p != t.tree
    }

    /** The storage of every block is zero from its bound on. */
    ghost predicate Bounded()
      reads this, coefficients
    {
      |coefficients| == |maxZag| && forall b :: 0 <= b < |coefficients| ==> Bound(coefficients[b][..], maxZag[b])
    }

    ghost predicate Valid()
      reads this, r, tableObjects, coefficients
    {
      r.Valid() && Shaped() && |lastDcVal| == |quant| && TablesValid() && Bounded()
    }

    /** The encoder of this layout uses the same codes. */
    ghost predicate Decodes(l: Layout)
      reads dcTab, acTab
    {
      && l.Valid() && l.org == org && |l.books| == |dcTab| == |acTab|
      && (forall c :: 0 <= c < |l.books| ==> SameCodes(l.books[c].dc, l.books[c].ac, dcTab[c], acTab[c]))
    }

    /** The reader is at block n of the scan, and the DC predictions are those of the encoder. */
    ghost predicate At(l: Layout, blocks: seq<seq<int>>, n: nat, more: BitString)
      reads this, r, dcTab, acTab
    {
      Decodes(l) && AtScan(r, l, lastDcVal, blocks, n, more)
    }

    constructor (r: Reader, org: seq<nat>, dcTab: seq<Tables>, acTab: seq<Tables>, quant: seq<seq<int>>,
                 ghost tableObjects: set<object>)
      requires r.Valid() && |org| > 0 && |dcTab| == |acTab| == |quant| && forall b :: 0 <= b < |org| ==>
          org[b] < |quant|
      requires r !in tableObjects
      requires forall c :: 0 <= c < |quant| ==> |quant[c]| == 64
      requires forall c :: 0 <= c < |quant| ==> Parts(dcTab[c]) <= tableObjects && dcTab[c].Valid()
      requires forall c :: 0 <= c < |quant| ==> Parts(acTab[c]) <= tableObjects && acTab[c].Valid()
      ensures Valid() && this.r == r && this.org == org && this.dcTab == dcTab && this.acTab == acTab
          && this.quant == quant
      ensures this.tableObjects == tableObjects && lastDcVal == Repeated(0, |quant|) && fresh(coefficients)
    {
      this.r, this.org, this.dcTab, this.acTab, this.quant := r, org, dcTab, acTab, quant;
      this.tableObjects := tableObjects;
      var storage := NewBlocks(|org|);
      coefficients := storage;
      lastDcVal := Repeated(0, |quant|);
      maxZag := Repeated(64, |org|);
      new;
      hide Entered, Register, ZigZagged, IsBytes;
    }

    lemma BlockFacts(b: nat) returns (was: seq<seq<int>>)
      requires Valid() && b < |org|
      ensures var c := org[b]; var p := coefficients[b];
        && c < |dcTab| == |acTab| == |quant| == |lastDcVal| && b < |coefficients| == |maxZag| == |org|
        && r.Valid() && dcTab[c].Valid() && acTab[c].Valid() && |quant[c]| == 64 == p.Length
        && Bound(p[..], maxZag[b])
        && p != acTab[c].lookUp && p != acTab[c].lookUp2 && p != acTab[c].tree
      ensures forall a :: 0 <= a < |coefficients| && a != b ==> coefficients[a] != coefficients[b]
      ensures Shaped() && TablesValid()
      ensures this !in tableObjects
      ensures |was| == |coefficients| && forall a :: 0 <= a < |was| ==>
          was[a] == coefficients[a][..] && Bound(was[a], maxZag[a])
      ensures forall c :: 0 <= c < |dcTab| ==> Apart(coefficients[b], dcTab[c]) && Apart(coefficients[b], acTab[c])
    {
      var c := org[b];
      was := seq(|coefficients|, a requires 0 <= a < |coefficients| reads coefficients => coefficients[a][..]);
      assert Apart(coefficients[b], acTab[c]);
    }

    /** What the encoder coded at the reader's place. */
    lemma AtParts(l: Layout, blocks: seq<seq<int>>, n: nat, more: BitString, b: nat)
      requires At(l, blocks, n, more) && n < |blocks| && b == n % |l.org|
      ensures b < |org| == |l.org| && l.Valid() && org[b] == l.Component(n) < |l.books| == |lastDcVal| == |dcTab|
          == |acTab|
      ensures |blocks[n]| == 64 && SameCodes(l.books[org[b]].dc, l.books[org[b]].ac, dcTab[org[b]], acTab[org[b]])
      ensures Decodes(l)
      ensures var c := org[b];
        var preds := lastDcVal[c := ZigZagged(blocks[n])[0]];
        && ScanCodable(l, preds, blocks, n + 1)
        && AtBlock(r, l.books[c].dc, l.books[c].ac, lastDcVal[c], ZigZagged(blocks[n]),
                   ScanBits(l, preds, blocks, n + 1) + more)
    {
      hide SameCodes, ZigZagged;
      ScanParts(l, lastDcVal, blocks, n, more);
      hide ScanBits, ScanCodable, BlockBits, Codable;
    }

    /** The arguments for following the encoder through block n; anything if it is not there. */
    lemma Follow(l: Layout, blocks: seq<seq<int>>, n: nat, more: BitString, b: nat)
      returns (codes: Books, du: seq<int>, left: BitString, preds: seq<int>)
      requires Shaped() && b < |org| && IndexIn(n, |org|, b)
      ensures At(l, blocks, n, more) && n < |blocks| ==>
        var c := org[b];
        && Decodes(l) && c < |lastDcVal| == |dcTab| == |acTab| && |blocks[n]| == 64 && du == ZigZagged(blocks[n])
        && SameCodes(codes.dc, codes.ac, dcTab[c], acTab[c]) && AtBlock(r, codes.dc, codes.ac, lastDcVal[c], du, left)
        && preds == lastDcVal[c := du[0]] && IsScan(l, preds, blocks, n + 1, more, left)
    {
      hide ScanBits, ScanCodable, BlockBits, Codable, ZigZagged, SameCodes, AtBlock;
      codes, du, left, preds := Books(Book([], []), Book([], [])), [], [], [];
      if At(l, blocks, n, more) && n < |blocks| {
        AtParts(l, blocks, n, more, b);
        codes, du := l.books[org[b]], ZigZagged(blocks[n]);
        preds := lastDcVal[org[b] := du[0]];
        left := ScanBits(l, preds, blocks, n + 1) + more;
      }
    }

    /** The tables are not touched by decoding into the storage of block b. */
    method Decode(b: nat, dc: int, zag: nat, ghost codes: Books, ghost du: seq<int>, ghost left: BitString)
      returns (ok: bool, dc': int, zag': nat)
      requires b < |org| == |coefficients| && org[b] < |dcTab| == |acTab| == |quant| && |quant[org[b]]| == 64
      requires r.Valid() && TablesValid() && coefficients[b].Length == 64 && Bound(coefficients[b][..], zag)
      requires forall c :: 0 <= c < |dcTab| ==> Apart(coefficients[b], dcTab[c]) && Apart(coefficients[b], acTab[c])
      modifies r, coefficients[b]
      ensures r.Valid() && TablesValid() && (ok ==> Bound(coefficients[b][..], zag'))
      ensures SameCodes(codes.dc, codes.ac, dcTab[org[b]], acTab[org[b]]) ==>
        old(AtBlock(r, codes.dc, codes.ac, dc, du, left)) ==>
          ok && Dequantised(ZigZagged(coefficients[b][..]), du, quant[org[b]]) && dc' == du[0] && r.Has(left)
    {
      BoundMeans(coefficients[b][..], zag);
      var c := org[b];
      assert dcTab[c].Valid() && acTab[c].Valid() && Apart(coefficients[b], acTab[c]);
      hide ZigZagged, SameCodes, AtBlock, Dequantised, Entered, Register, Placed, ZeroFrom, Bound, Upcoming, IsBytes,
        Int16;
      ghost var symbols;
      ok, dc', zag', symbols :=
        DecodeBlock(r, dcTab[c], acTab[c], quant[c], coefficients[b], dc, zag, codes.dc, codes.ac, du, left);
      if ok { PlacedBound(coefficients[b][..], symbols, quant[c], zag'); }
    }

    /** Keeps the DC prediction and the bound of a decoded block. */
    method Keep(b: nat, dc: int, zag: nat, ghost was: seq<seq<int>>)
      requires r.Valid() && Shaped() && TablesValid() && |lastDcVal| == |quant| && b < |org| && org[b] < |quant|
      requires b < |coefficients| == |maxZag| == |was| && Bound(coefficients[b][..], zag)
      requires forall a :: 0 <= a < |was| && a != b ==> coefficients[a][..] == was[a] && Bound(was[a], maxZag[a])
      requires this !in tableObjects
      modifies this`lastDcVal, this`maxZag
      ensures Valid() && lastDcVal == old(lastDcVal)[org[b] := dc]
    {
      hide *;
      ghost var zags := maxZag;
      lastDcVal := lastDcVal[org[b] := dc];
      maxZag := maxZag[b := zag];
      BoundedAfter(b, was, zags);
      Consistent();
    }

    /** Decodes one block of a unit. */
    method DecodeBlockOf(b: nat, ghost l: Layout, ghost blocks: seq<seq<int>>, ghost n: nat, ghost more: BitString)
      returns (ok: bool)
      requires Valid() && b < |org| && IndexIn(n, |org|, b) && b < |coefficients|
      modifies this`lastDcVal, this`maxZag, r, coefficients[b]
      ensures ok ==> Valid()
      ensures old(At(l, blocks, n, more)) && n < |blocks| ==>
        ok && At(l, blocks, n + 1, more) && BlockIs(b, blocks[n])
    {
      hide *;
      ghost var follows := At(l, blocks, n, more) && n < |blocks|;
      ghost var was := BlockFacts(b);
      ghost var codes, du, left, preds := Follow(l, blocks, n, more, b);
      var dc, zag;
      ok, dc, zag := Decode(b, lastDcVal[org[b]], maxZag[b], codes, du, left);
      if follows { BlockIsDecoded(b, blocks[n]); }
      if ok { Keep(b, dc, zag, was); }
      if follows {
        IsAtScan(r, l, preds, blocks, n + 1, more, left);
        NowAt(l, blocks, n + 1, more);
      }
    }

    /** The storage of block b holds the coefficients of this block times their quantisers. */
    ghost predicate BlockIs(b: nat, block: seq<int>)
      requires b < |coefficients|
      reads coefficients[b]
    {
      && coefficients[b].Length == 64 == |block| && b < |org| && org[b] < |quant|
      && Dequantised(ZigZagged(coefficients[b][..]), ZigZagged(block), quant[org[b]])
    }

    lemma BlockIsDecoded(b: nat, block: seq<int>)
      requires b < |coefficients| && coefficients[b].Length == 64 == |block| && b < |org| && org[b] < |quant|
      requires Dequantised(ZigZagged(coefficients[b][..]), ZigZagged(block), quant[org[b]])
      ensures BlockIs(b, block)
    {
    }

    lemma BoundedAfter(b: nat, was: seq<seq<int>>, zags: seq<nat>)
      requires b < |coefficients| == |maxZag| == |was| == |zags| && Bound(coefficients[b][..], maxZag[b])
      requires forall a :: 0 <= a < |was| && a != b ==>
        maxZag[a] == zags[a] && coefficients[a][..] == was[a] && Bound(was[a], zags[a])
      ensures Bounded()
    {
      hide Bound;
    }

    lemma Consistent()
      requires r.Valid() && Shaped() && |lastDcVal| == |quant| && TablesValid() && Bounded()
      ensures Valid()
    {
    }

    lemma NowAt(l: Layout, blocks: seq<seq<int>>, n: nat, more: BitString)
      requires Decodes(l) && AtScan(r, l, lastDcVal, blocks, n, more)
      ensures At(l, blocks, n, more)
    {
    }

    // ----- Units and rows -----

    /** Blocks n on are the first b blocks of a unit. */
    ghost predicate FirstBlocks(blocks: seq<seq<int>>, n: nat, b: nat)
      requires b <= |coefficients|
      reads coefficients[..b]
    {
      n + b <= |blocks| && forall a :: 0 <= a < b ==> InPlace(a, blocks, n)
    }

    ghost predicate InPlace(a: nat, blocks: seq<seq<int>>, n: nat)
      requires a < |coefficients|
      reads coefficients[a]
    {
      n + a < |blocks| && BlockIs(a, blocks[n + a])
    }

    lemma NextBlocks(blocks: seq<seq<int>>, n: nat, b: nat)
      requires b < |coefficients| && FirstBlocks(blocks, n, b) && n + b < |blocks| && BlockIs(b, blocks[n + b])
      ensures FirstBlocks(blocks, n, b + 1)
    {
      hide BlockIs;
      assert InPlace(b, blocks, n);
    }

    lemma NoBlocks(l: Layout, blocks: seq<seq<int>>, n: nat, more: BitString)
      requires At(l, blocks, n, more)
      ensures FirstBlocks(blocks, n, 0)
    {
    }

    lemma UnitFacts()
      requires Valid()
      ensures |org| == |coefficients| == |maxZag| > 0
      ensures forall b :: 0 <= b < |coefficients| ==> coefficients[b] !in coefficients[..b]
    {
    }

    /** decode_next_row(), for one unit. */
    method DecodeUnit(ghost l: Layout, ghost blocks: seq<seq<int>>, ghost n: nat, ghost more: BitString)
        returns (ok: bool)
      requires Valid() && IndexIn(n, |org|, 0)
      modifies this`lastDcVal, this`maxZag, r, coefficients
      ensures ok ==> Valid()
      ensures old(At(l, blocks, n, more)) && n + |org| <= |blocks| ==>
        ok && At(l, blocks, n + |org|, more) && |org| <= |coefficients| && FirstBlocks(blocks, n, |org|)
    {
      hide *;
      ghost var follows := At(l, blocks, n, more) && n + |org| <= |blocks|;
      if follows { NoBlocks(l, blocks, n, more); }
      UnitFacts();
      ok := true;
      for b := 0 to |org|
        invariant Valid() && ok
        invariant follows ==> At(l, blocks, n + b, more) && FirstBlocks(blocks, n, b)
      {
        BlockOfUnit(n, b, |org|);
        ok := DecodeBlockOf(b, l, blocks, n + b, more);
        if !ok { return; }
        if follows {
          NextBlocks(blocks, n, b);
        }
      }
    }
    // ----- Samples -----

    /** What the storage holds. */
    ghost function Contents(): (c: seq<seq<int>>)
      reads coefficients
      ensures |c| == |coefficients| && forall b :: 0 <= b < |c| ==> c[b] == coefficients[b][..]
    {
      seq(|coefficients|, b requires 0 <= b < |coefficients| reads coefficients => coefficients[b][..])
    }

    /** The sample buffer is no part of the decoder's state. */
    ghost predicate Aside(sample: array<int>) {
      sample !in coefficients && sample !in tableObjects
    }

    lemma IsAside(sample: array<int>)
      requires Aside(sample)
      ensures sample !in coefficients && sample !in tableObjects
    {
    }

    /** transform_mcu(): the samples of the blocks of a unit. */
    method TransformUnit(sample: array<int>, at: nat)
      requires Valid() && at + 64 * |org| <= sample.Length && Aside(sample)
      modifies sample
      ensures Valid() && Contents() == old(Contents()) && |org| == |coefficients|
          && Sampled(sample[..], at, Contents(), |org|)
      ensures sample[..at] == old(sample[..at])
    {
      hide *;
      IsAside(sample);
      BlocksBounded();
      NothingSampled(sample[..], at, Contents());
      for b := 0 to |org|
        invariant Valid() && Sampled(sample[..], at, Contents(), b) && sample[..at] == old(sample[..at])
      {
        TransformBlock(sample, at, b);
      }
    }

    method TransformBlock(sample: array<int>, at: nat, b: nat)
      requires b < |coefficients| == |maxZag| && Bound(coefficients[b][..], maxZag[b])
      requires at + 64 * (b + 1) <= sample.Length && sample !in coefficients && Sampled(sample[..], at, Contents(), b)
      modifies sample
      ensures Sampled(sample[..], at, Contents(), b + 1) && sample[..at] == old(sample[..at])
    {
      hide *;
      ghost var was, blocks := sample[..], Contents();
      BoundMeans(coefficients[b][..], maxZag[b]);
      InverseDct(coefficients[b][..], sample, at + 64 * b, maxZag[b]);
      SampledNext(was, sample[..], at, blocks, b);
    }

    lemma BlocksBounded()
      requires Valid()
      ensures |coefficients| == |org| == |maxZag|
      ensures forall b :: 0 <= b < |coefficients| ==> Bound(coefficients[b][..], maxZag[b])
    {
      hide Bound;
    }

    lemma UnitRestored(blocks: seq<seq<int>>, n: nat, count: nat, k: nat)
      requires Valid() && |org| <= |coefficients| && FirstBlocks(blocks, n + k, |org|)
      requires IndexIn(n, |org|, 0) && IndexIn(n + k, |org|, 0) && k + |org| <= count && n + count <= |blocks|
      requires forall j :: 0 <= j < |blocks| ==> |blocks[j]| == 64
      ensures Part(Contents(), RestoredFrom(blocks, n, count, org, quant), k)
    {
      hide TablesValid, Bounded, Dequantised;
      forall b | 0 <= b < |org| ensures Contents()[b] == Restored(blocks[n + k + b], quant[org[(n + k + b) % |org|]]) {
        assert InPlace(b, blocks, n + k);
        BlockOfUnit(n + k, b, |org|);
        DequantisedIs(coefficients[b][..], blocks[n + k + b], quant[org[b]]);
      }
    }

    /** One unit of a row, to samples. */
    method DecodeAndTransform(sample: array<int>, rowBlock: nat, ghost l: Layout, ghost blocks: seq<seq<int>>,
                              ghost n: nat,
                              ghost more: BitString, ghost restored: seq<seq<int>>)
      returns (ok: bool)
      requires Valid() && IndexIn(n, |org|, 0) && IndexIn(n + rowBlock, |org|, 0) && Aside(sample)
      requires 64 * (rowBlock + |org|) <= sample.Length
      modifies this`lastDcVal, this`maxZag, r, coefficients, sample
      ensures ok ==> Valid()
      ensures old(InRow(sample, l, blocks, n, more, rowBlock, restored)) && rowBlock + |org| <= |restored| ==>
        ok && InRow(sample, l, blocks, n, more, rowBlock + |org|, restored)
    {
      hide *;
      IsAside(sample);
      ghost var follows := InRow(sample, l, blocks, n, more, rowBlock, restored) && rowBlock + |org| <= |restored|;
      if follows { RowParts(sample, l, blocks, n, more, rowBlock, restored); }
      ghost var was := sample[..];
      ok := DecodeUnit(l, blocks, n + rowBlock, more);
      if !ok { return; }
      ghost var c := Contents();
      if follows { UnitRestored(blocks, n, |restored|, rowBlock); }
      UnitFacts();
      TransformUnit(sample, 64 * rowBlock);
      if follows {
        RowSampled(was, sample[..], c, restored, rowBlock);
        IsInRow(sample, l, blocks, n, more, rowBlock + |org|, restored);
      }
    }

    /** The reader is at block rowBlock of a row, and the samples before it are those of the restored blocks. */
    ghost predicate InRow(sample: array<int>, l: Layout, blocks: seq<seq<int>>, n: nat, more: BitString, rowBlock: nat,
                          restored: seq<seq<int>>)
      reads this, r, dcTab, acTab, sample
    {
      && At(l, blocks, n + rowBlock, more) && Sampled(sample[..], 0, restored, rowBlock)
      && |org| > 0 && n + |restored| <= |blocks| && (forall j :: 0 <= j < |blocks| ==> |blocks[j]| == 64)
      && (forall b :: 0 <= b < |org| ==> org[b] < |quant|) && (forall c :: 0 <= c < |quant| ==> |quant[c]| == 64)
      && restored == RestoredFrom(blocks, n, |restored|, org, quant)
    }

    lemma RowParts(sample: array<int>, l: Layout, blocks: seq<seq<int>>, n: nat, more: BitString, rowBlock: nat,
                   restored: seq<seq<int>>)
      requires InRow(sample, l, blocks, n, more, rowBlock, restored)
      ensures At(l, blocks, n + rowBlock, more) && Sampled(sample[..], 0, restored, rowBlock)
      ensures |org| > 0 && n + |restored| <= |blocks| && forall j :: 0 <= j < |blocks| ==> |blocks[j]| == 64
      ensures (forall b :: 0 <= b < |org| ==> org[b] < |quant|) && (forall c :: 0 <= c < |quant| ==> |quant[c]| == 64)
      ensures restored == RestoredFrom(blocks, n, |restored|, org, quant)
    {
      hide At, Sampled, RestoredFrom;
    }

    lemma IsInRow(sample: array<int>, l: Layout, blocks: seq<seq<int>>, n: nat, more: BitString, rowBlock: nat,
                  restored: seq<seq<int>>)
      requires At(l, blocks, n + rowBlock, more) && Sampled(sample[..], 0, restored, rowBlock)
      requires |org| > 0 && n + |restored| <= |blocks| && forall j :: 0 <= j < |blocks| ==> |blocks[j]| == 64
      requires (forall b :: 0 <= b < |org| ==> org[b] < |quant|) && (forall c :: 0 <= c < |quant| ==> |quant[c]| == 64)
      requires restored == RestoredFrom(blocks, n, |restored|, org, quant)
      ensures InRow(sample, l, blocks, n, more, rowBlock, restored)
    {
      hide At, Sampled, RestoredFrom;
    }

    /** decode_next_row(): the samples of a row of units. If the reader is at the code of these blocks, they are the
      * transforms of the encoded blocks times their quantisers. */
    method DecodeRow(sample: array<int>, units: nat, ghost l: Layout, ghost blocks: seq<seq<int>>, ghost n: nat,
                     ghost more: BitString, ghost restored: seq<seq<int>>)
      returns (ok: bool)
      requires Valid() && IndexIn(n, |org|, 0) && sample.Length == 64 * (units * |org|) && Aside(sample)
      modifies this`lastDcVal, this`maxZag, r, coefficients, sample
      ensures ok ==> Valid()
      ensures old(InRow(sample, l, blocks, n, more, 0, restored)) && |restored| == units * |org| ==>
        ok && InRow(sample, l, blocks, n, more, |restored|, restored)
    {
      hide *;
      ghost var size := |org|;
      ghost var follows := InRow(sample, l, blocks, n, more, 0, restored) && |restored| == units * size;
      var rowBlock: nat := 0;
      ok := true;
      for mcuRow := 0 to units
        invariant ok && Valid() && rowBlock == mcuRow * size && IndexIn(n + rowBlock, size, 0)
        invariant follows ==> InRow(sample, l, blocks, n, more, rowBlock, restored)
      {
        NextRowBlock(mcuRow, units, size);
        NextIndex(n + rowBlock, size);
        ok := DecodeAndTransform(sample, rowBlock, l, blocks, n, more, restored);
        if !ok { return; }
        rowBlock := rowBlock + |org|;
      }
    }
  }

  /** Block n is block b of its unit. */
  ghost predicate IndexIn(n: nat, size: nat, b: nat) {
    size > 0 && n % size == b
  }

  lemma BlockOfUnit(n: nat, b: nat, size: nat)
    requires b < size && IndexIn(n, size, 0)
    ensures IndexIn(n + b, size, b)
  {
    DivMod(n / size, b, size);
  }

  // ----- Restored blocks -----

  /** The samples at this place are the transform of this block. */
  ghost predicate SampledAt(sample: seq<int>, at: nat, block: seq<int>) {
    at + 64 <= |sample| && |block| == 64 && sample[at..at + 64] == FullIdct(block)
  }

  /** From this place on, the samples are the transforms of the first b blocks. */
  ghost predicate Sampled(sample: seq<int>, at: nat, blocks: seq<seq<int>>, b: nat) {
    b <= |blocks| && forall a :: 0 <= a < b ==> SampledAt(sample, at + 64 * a, blocks[a])
  }

  lemma NothingSampled(sample: seq<int>, at: nat, blocks: seq<seq<int>>)
    ensures Sampled(sample, at, blocks, 0)
  {
  }

  lemma SampledNext(was: seq<int>, sample: seq<int>, at: nat, blocks: seq<seq<int>>, b: nat)
    requires b < |blocks| && |was| == |sample| && at + 64 * (b + 1) <= |sample| && Sampled(was, at, blocks, b)
    requires |blocks[b]| == 64 && sample[at + 64 * b..at + 64 * b + 64] == FullIdct(blocks[b])
    requires forall t :: 0 <= t < |sample| && !(at + 64 * b <= t < at + 64 * b + 64) ==> sample[t] == was[t]
    ensures Sampled(sample, at, blocks, b + 1) && sample[..at] == was[..at]
  {
    hide FullIdct;
    forall a | 0 <= a < b + 1 ensures SampledAt(sample, at + 64 * a, blocks[a]) {
      if a < b {
        var x := at + 64 * a;
        assert SampledAt(was, x, blocks[a]);
        assert sample[x..x + 64] == was[x..x + 64];
      }
    }
  }

  /** A quantised block times its quantisers, both in the order of the picture. */
  ghost function Restored(block: seq<int>, q: seq<int>): (p: seq<int>)
    requires |block| == |q| == 64
    ensures |p| == 64
  {
    ZigZagInverse();
    seq(64, i requires 0 <= i < 64 => Int16(block[i] * q[TJEI_ZIG_ZAG[i]]))
  }

  /** Both zig-zag orders cancel out. */
  lemma DequantisedIs(p: seq<int>, block: seq<int>, q: seq<int>)
    requires |p| == |block| == |q| == 64 && Dequantised(ZigZagged(p), ZigZagged(block), q)
    ensures p == Restored(block, q)
  {
    ZigZagInverse();
    hide G_ZAG, TJEI_ZIG_ZAG, Int16;
    forall i | 0 <= i < 64 ensures p[i] == Restored(block, q)[i] {
      var k := TJEI_ZIG_ZAG[i];
      assert ZigZagged(p)[k] == Int16(ZigZagged(block)[k] * q[k]);
    }
  }

  /** The restored blocks of a part of the scan. */
  ghost function RestoredFrom(blocks: seq<seq<int>>, n: nat, count: nat, org: seq<nat>,
                              quant: seq<seq<int>>): (rs: seq<seq<int>>)
    requires n + count <= |blocks| && |org| > 0 && (forall b :: 0 <= b < |org| ==> org[b] < |quant|)
    requires (forall c :: 0 <= c < |quant| ==> |quant[c]| == 64)
        && (forall j :: 0 <= j < |blocks| ==> |blocks[j]| == 64)
    ensures |rs| == count
  {
    seq(count, k requires 0 <= k < count => Restored(blocks[n + k], quant[org[(n + k) % |org|]]))
  }

  /** The blocks c are a part of the blocks rs. */
  ghost predicate Part(c: seq<seq<int>>, rs: seq<seq<int>>, k: nat) {
    k + |c| <= |rs| && rs[k..k + |c|] == c
  }

  lemma RowSampled(was: seq<int>, sample: seq<int>, c: seq<seq<int>>, rs: seq<seq<int>>, k: nat)
    requires |was| == |sample| && Sampled(was, 0, rs, k) && Part(c, rs, k) && Sampled(sample, 64 * k, c, |c|)
    requires 64 * k <= |sample| && sample[..64 * k] == was[..64 * k]
    ensures Sampled(sample, 0, rs, k + |c|)
  {
    hide FullIdct;
    forall a | 0 <= a < k + |c| ensures SampledAt(sample, 0 + 64 * a, rs[a]) {
      if a < k {
        assert SampledAt(was, 0 + 64 * a, rs[a]);
        assert sample[..64 * k][64 * a..64 * a + 64] == was[..64 * k][64 * a..64 * a + 64];
      } else {
        assert SampledAt(sample, 64 * k + 64 * (a - k), c[a - k]);
        assert rs[k..k + |c|][a - k] == rs[a];
      }
    }
  }

  lemma NextRowBlock(m: nat, units: nat, size: nat)
    requires m < units
    ensures (m + 1) * size == m * size + size <= units * size
  {
    MulMono(m + 1, units, size);
    MulDistr(m, 1, size);
  }

  lemma NextIndex(n: nat, size: nat)
    requires IndexIn(n, size, 0)
    ensures IndexIn(n + size, size, 0)
  {
    MulDistr(n / size, 1, size);
    DivMod(n / size + 1, 0, size);
  }

  /** What is left of the scan's code. */
  ghost predicate IsScan(l: Layout, preds: seq<int>, blocks: seq<seq<int>>, n: nat, more: BitString, left: BitString) {
    && l.Valid() && |l.books| == |preds| && n <= |blocks|
    && ScanCodable(l, preds, blocks, n) && left == ScanBits(l, preds, blocks, n) + more
  }

  lemma IsAtScan(r: Reader, l: Layout, preds: seq<int>, blocks: seq<seq<int>>, n: nat, more: BitString, left: BitString)
    requires IsScan(l, preds, blocks, n, more, left) && r.Has(left)
    ensures AtScan(r, l, preds, blocks, n, more)
  {
  }

  lemma BoundMeans(block: seq<int>, zag: nat)
    requires Bound(block, zag)
    ensures |block| == 64 && 1 <= zag <= 64 && ZeroFrom(ZigZagged(block), zag)
  {
  }

  lemma PlacedBound(block: seq<int>, symbols: seq<AcSymbol>, q: seq<int>, zag: nat)
    requires |block| == 64 && Placed(ZigZagged(block), symbols, q, zag) && 1 <= zag <= 64
    ensures Bound(block, zag)
  {
  }

  /** The reader is at block n of the scan. */
  ghost predicate AtScan(r: Reader, l: Layout, preds: seq<int>, blocks: seq<seq<int>>, n: nat, more: BitString)
    reads r
  {
    && l.Valid() && |l.books| == |preds| && n <= |blocks|
    && ScanCodable(l, preds, blocks, n) && r.Has(ScanBits(l, preds, blocks, n) + more)
  }

  lemma ScanParts(l: Layout, preds: seq<int>, blocks: seq<seq<int>>, n: nat, more: BitString)
    requires l.Valid() && |preds| == |l.books| && n < |blocks| && ScanCodable(l, preds, blocks, n)
    ensures |blocks[n]| == 64
    ensures var c := l.Component(n);
      var du := ZigZagged(blocks[n]);
      && Codable(l.books[c].dc, l.books[c].ac, preds[c], du)
      && ScanCodable(l, preds[c := du[0]], blocks, n + 1)
      && ScanBits(l, preds, blocks, n) + more
         == BlockBits(l.books[c].dc, l.books[c].ac, preds[c], du)
           + (ScanBits(l, preds[c := du[0]], blocks, n + 1) + more)
  {
    hide BlockBits, ZigZagged;
    var c := l.Component(n);
    var du := ZigZagged(blocks[n]);
    assert Codable(l.books[c].dc, l.books[c].ac, preds[c], du);
    Associate(BlockBits(l.books[c].dc, l.books[c].ac, preds[c], du), ScanBits(l, preds[c := du[0]], blocks, n + 1),
              more);
  }

  lemma Associate(a: BitString, b: BitString, c: BitString)
    ensures a + b + c == a + (b + c)
  {
  }

  /** The coefficients are zero from the bound on. */
  ghost predicate Bound(block: seq<int>, zag: nat) {
    |block| == 64 && 1 <= zag <= 64 && ZeroFrom(ZigZagged(block), zag)
  }

  function Repeated<T>(x: T, n: nat): (s: seq<T>)
    ensures |s| == n && forall i :: 0 <= i < n ==> s[i] == x
  {
    seq(n, _ => x)
  }

  method NewBlocks(n: nat) returns (storage: seq<array<int>>)
    ensures |storage| == n && fresh(storage)
    ensures forall b :: 0 <= b < n ==> storage[b].Length == 64
    ensures forall a, b :: 0 <= a < b < n ==> storage[a] != storage[b]
  {
    storage := [];
    for b := 0 to n
      invariant |storage| == b && fresh(storage)
      invariant forall k :: 0 <= k < b ==> storage[k].Length == 64
      invariant forall j, k :: 0 <= j < k < b ==> storage[j] != storage[k]
    {
      var p := new int[64];
      storage := storage + [p];
    }
  }
}
