/** tiny_jpeg's default Huffman tables (section K.3 of ITU-T T.81): they list what can occur, and the decoder's tree has
  * room for them, so that nothing is left that could go wrong on the video path. */
module StandardTables {
  import opened Bits
  import opened Canonical
  import opened CodeTrees
  import opened HuffTables
  import opened TreeRoom
  import opened DefaultSymbols
  import opened Scan
  import opened EntropyRoundTrip

  const LUMA_DC_LEN: seq<nat> := [0, 1, 5, 1, 1, 1, 1, 1, 1, 0, 0, 0, 0, 0, 0, 0]

  const CHROMA_DC_LEN: seq<nat> := [0, 3, 1, 1, 1, 1, 1, 1, 1, 1, 1, 0, 0, 0, 0, 0]

  const LUMA_AC_LEN: seq<nat> := [0, 2, 1, 3, 3, 2, 4, 3, 5, 5, 4, 4, 0, 0, 1, 125]

  const CHROMA_AC_LEN: seq<nat> := [0, 2, 1, 2, 4, 4, 3, 4, 7, 5, 4, 4, 0, 1, 2, 119]

  // ----- Lengths -----

  function Total(counts: seq<nat>, t: nat): nat
    requires t < |counts|
  {
    if t == 0 then 0 else Total(counts, t - 1) + counts[t]
  }

  lemma {:induction false} LensTotal(counts: seq<nat>, t: nat)
    requires t < |counts|
    ensures |Lens(counts, t)| == Total(counts, t)
  {
    if t > 0 { LensTotal(counts, t - 1); }
  }

  lemma CountsFit(counts: seq<nat>)
    requires |counts| == 17 && Space(counts, 16) <= 0x1_0000
    ensures CodeLengths(Lens(counts, 16))
  {
    LensOrder(counts, 16);
    SpaceIsStart(counts, 16);
  }

  lemma LumaDcCounts()
    ensures var counts := [0] + LUMA_DC_LEN;
      |counts| == 17 && Total(counts, 16) == 12 && Space(counts, 16) <= 0x1_0000 && 2 * Room(counts, 16) <= TREE_MAX
  {
    var counts := [0] + LUMA_DC_LEN;
    Pow2Values();
    assert Pow2(13) == 0x2000 && Pow2(14) == 0x4000;
    assert Total(counts, 1) == 0 && Space(counts, 1) == 0x0;
    assert Total(counts, 2) == 1 && Space(counts, 2) == 0x4000;
    assert Total(counts, 3) == 6 && Space(counts, 3) == 0xE000;
    assert Total(counts, 4) == 7 && Space(counts, 4) == 0xF000;
    assert Total(counts, 5) == 8 && Space(counts, 5) == 0xF800;
    assert Total(counts, 6) == 9 && Space(counts, 6) == 0xFC00;
    assert Total(counts, 7) == 10 && Space(counts, 7) == 0xFE00;
    assert Total(counts, 8) == 11 && Space(counts, 8) == 0xFF00;
    assert Total(counts, 9) == 12 && Space(counts, 9) == 0xFF80;
    assert Total(counts, 10) == 12 && Space(counts, 10) == 0xFF80;
    assert Total(counts, 11) == 12 && Space(counts, 11) == 0xFF80;
    assert Total(counts, 12) == 12 && Space(counts, 12) == 0xFF80;
    assert Total(counts, 13) == 12 && Space(counts, 13) == 0xFF80;
    assert Total(counts, 14) == 12 && Space(counts, 14) == 0xFF80;
    assert Total(counts, 15) == 12 && Space(counts, 15) == 0xFF80;
    assert Total(counts, 16) == 12 && Space(counts, 16) == 0xFF80;
    assert Room(counts, 9) == 1;
    assert Room(counts, 10) == 1;
    assert Room(counts, 11) == 1;
    assert Room(counts, 12) == 1;
    assert Room(counts, 13) == 1;
    assert Room(counts, 14) == 1;
    assert Room(counts, 15) == 1;
    assert Room(counts, 16) == 1;
  }

  lemma ChromaDcCounts()
    ensures var counts := [0] + CHROMA_DC_LEN;
      |counts| == 17 && Total(counts, 16) == 12 && Space(counts, 16) <= 0x1_0000 && 2 * Room(counts, 16) <= TREE_MAX
  {
    var counts := [0] + CHROMA_DC_LEN;
    Pow2Values();
    assert Pow2(13) == 0x2000 && Pow2(14) == 0x4000;
    assert Total(counts, 1) == 0 && Space(counts, 1) == 0x0;
    assert Total(counts, 2) == 3 && Space(counts, 2) == 0xC000;
    assert Total(counts, 3) == 4 && Space(counts, 3) == 0xE000;
    assert Total(counts, 4) == 5 && Space(counts, 4) == 0xF000;
    assert Total(counts, 5) == 6 && Space(counts, 5) == 0xF800;
    assert Total(counts, 6) == 7 && Space(counts, 6) == 0xFC00;
    assert Total(counts, 7) == 8 && Space(counts, 7) == 0xFE00;
    assert Total(counts, 8) == 9 && Space(counts, 8) == 0xFF00;
    assert Total(counts, 9) == 10 && Space(counts, 9) == 0xFF80;
    assert Total(counts, 10) == 11 && Space(counts, 10) == 0xFFC0;
    assert Total(counts, 11) == 12 && Space(counts, 11) == 0xFFE0;
    assert Total(counts, 12) == 12 && Space(counts, 12) == 0xFFE0;
    assert Total(counts, 13) == 12 && Space(counts, 13) == 0xFFE0;
    assert Total(counts, 14) == 12 && Space(counts, 14) == 0xFFE0;
    assert Total(counts, 15) == 12 && Space(counts, 15) == 0xFFE0;
    assert Total(counts, 16) == 12 && Space(counts, 16) == 0xFFE0;
    assert Room(counts, 9) == 1;
    assert Room(counts, 10) == 2;
    assert Room(counts, 11) == 3;
    assert Room(counts, 12) == 3;
    assert Room(counts, 13) == 3;
    assert Room(counts, 14) == 3;
    assert Room(counts, 15) == 3;
    assert Room(counts, 16) == 3;
  }

  lemma LumaAcCounts()
    ensures var counts := [0] + LUMA_AC_LEN;
      |counts| == 17 && Total(counts, 16) == 162 && Space(counts, 16) <= 0x1_0000 && 2 * Room(counts, 16) <= TREE_MAX
  {
    var counts := [0] + LUMA_AC_LEN;
    Pow2Values();
    assert Pow2(13) == 0x2000 && Pow2(14) == 0x4000;
    assert Total(counts, 1) == 0 && Space(counts, 1) == 0x0;
    assert Total(counts, 2) == 2 && Space(counts, 2) == 0x8000;
    assert Total(counts, 3) == 3 && Space(counts, 3) == 0xA000;
    assert Total(counts, 4) == 6 && Space(counts, 4) == 0xD000;
    assert Total(counts, 5) == 9 && Space(counts, 5) == 0xE800;
    assert Total(counts, 6) == 11 && Space(counts, 6) == 0xF000;
    assert Total(counts, 7) == 15 && Space(counts, 7) == 0xF800;
    assert Total(counts, 8) == 18 && Space(counts, 8) == 0xFB00;
    assert Total(counts, 9) == 23 && Space(counts, 9) == 0xFD80;
    assert Total(counts, 10) == 28 && Space(counts, 10) == 0xFEC0;
    assert Total(counts, 11) == 32 && Space(counts, 11) == 0xFF40;
    assert Total(counts, 12) == 36 && Space(counts, 12) == 0xFF80;
    assert Total(counts, 13) == 36 && Space(counts, 13) == 0xFF80;
    assert Total(counts, 14) == 36 && Space(counts, 14) == 0xFF80;
    assert Total(counts, 15) == 37 && Space(counts, 15) == 0xFF82;
    assert Total(counts, 16) == 162 && Space(counts, 16) == 0xFFFF;
    assert Room(counts, 9) == 5;
    assert Room(counts, 10) == 10;
    assert Room(counts, 11) == 15;
    assert Room(counts, 12) == 21;
    assert Room(counts, 13) == 29;
    assert Room(counts, 14) == 45;
    assert Room(counts, 15) == 77;
    assert Room(counts, 16) == 140;
  }

  lemma ChromaAcCounts()
    ensures var counts := [0] + CHROMA_AC_LEN;
      |counts| == 17 && Total(counts, 16) == 162 && Space(counts, 16) <= 0x1_0000 && 2 * Room(counts, 16) <= TREE_MAX
  {
    var counts := [0] + CHROMA_AC_LEN;
    Pow2Values();
    assert Pow2(13) == 0x2000 && Pow2(14) == 0x4000;
    assert Total(counts, 1) == 0 && Space(counts, 1) == 0x0;
    assert Total(counts, 2) == 2 && Space(counts, 2) == 0x8000;
    assert Total(counts, 3) == 3 && Space(counts, 3) == 0xA000;
    assert Total(counts, 4) == 5 && Space(counts, 4) == 0xC000;
    assert Total(counts, 5) == 9 && Space(counts, 5) == 0xE000;
    assert Total(counts, 6) == 13 && Space(counts, 6) == 0xF000;
    assert Total(counts, 7) == 16 && Space(counts, 7) == 0xF600;
    assert Total(counts, 8) == 20 && Space(counts, 8) == 0xFA00;
    assert Total(counts, 9) == 27 && Space(counts, 9) == 0xFD80;
    assert Total(counts, 10) == 32 && Space(counts, 10) == 0xFEC0;
    assert Total(counts, 11) == 36 && Space(counts, 11) == 0xFF40;
    assert Total(counts, 12) == 40 && Space(counts, 12) == 0xFF80;
    assert Total(counts, 13) == 40 && Space(counts, 13) == 0xFF80;
    assert Total(counts, 14) == 41 && Space(counts, 14) == 0xFF84;
    assert Total(counts, 15) == 43 && Space(counts, 15) == 0xFF88;
    assert Total(counts, 16) == 162 && Space(counts, 16) == 0xFFFF;
    assert Room(counts, 9) == 6;
    assert Room(counts, 10) == 11;
    assert Room(counts, 11) == 16;
    assert Room(counts, 12) == 22;
    assert Room(counts, 13) == 30;
    assert Room(counts, 14) == 46;
    assert Room(counts, 15) == 77;
    assert Room(counts, 16) == 137;
  }

  /** One word of 15 bits and 255 of 16 bits. */
  const MANY_PREFIXES: seq<nat> := [0, 0, 0, 0, 0, 0, 0, 0, 0] + [0, 0, 0, 0, 0, 0, 1, 255]

  lemma ManyPrefixesCounts()
    ensures var counts := MANY_PREFIXES;
      |counts| == 17 && Total(counts, 16) == 256 && Space(counts, 16) <= 0x1_0000 && 2 * Room(counts, 16) > TREE_MAX
  {
    var counts := MANY_PREFIXES;
    Pow2Values();
    assert Pow2(13) == 0x2000 && Pow2(14) == 0x4000;
    assert Total(counts, 1) == 0 && Space(counts, 1) == 0x0;
    assert Total(counts, 2) == 0 && Space(counts, 2) == 0x0;
    assert Total(counts, 3) == 0 && Space(counts, 3) == 0x0;
    assert Total(counts, 4) == 0 && Space(counts, 4) == 0x0;
    assert Total(counts, 5) == 0 && Space(counts, 5) == 0x0;
    assert Total(counts, 6) == 0 && Space(counts, 6) == 0x0;
    assert Total(counts, 7) == 0 && Space(counts, 7) == 0x0;
    assert Total(counts, 8) == 0 && Space(counts, 8) == 0x0;
    assert Total(counts, 9) == 0 && Space(counts, 9) == 0x0;
    assert Total(counts, 10) == 0 && Space(counts, 10) == 0x0;
    assert Total(counts, 11) == 0 && Space(counts, 11) == 0x0;
    assert Total(counts, 12) == 0 && Space(counts, 12) == 0x0;
    assert Total(counts, 13) == 0 && Space(counts, 13) == 0x0;
    assert Total(counts, 14) == 0 && Space(counts, 14) == 0x0;
    assert Total(counts, 15) == 1 && Space(counts, 15) == 0x2;
    assert Total(counts, 16) == 256 && Space(counts, 16) == 0x101;
    assert Room(counts, 9) == 2;
    assert Room(counts, 10) == 5;
    assert Room(counts, 11) == 10;
    assert Room(counts, 12) == 19;
    assert Room(counts, 13) == 36;
    assert Room(counts, 14) == 69;
    assert Room(counts, 15) == 134;
    assert Room(counts, 16) == 262;
  }

  /** A table with one of the default lists of lengths is a proper one, and the decoder accepts it. */
  lemma DefaultAccepted(h: HuffSpec)
    requires h.bits in {LUMA_DC_LEN, CHROMA_DC_LEN, LUMA_AC_LEN, CHROMA_AC_LEN}
    ensures |h.bits| == 16 && CodeLengths(Lens([0] + h.bits, 16)) && !Overfull(Codes(Lens([0] + h.bits, 16)))
    ensures |Lens([0] + h.bits, 16)| == if h.bits in {LUMA_DC_LEN, CHROMA_DC_LEN} then 12 else 162
  {
    var counts := [0] + h.bits;
    LumaDcCounts();
    ChromaDcCounts();
    LumaAcCounts();
    ChromaAcCounts();
    LensTotal(counts, 16);
    hide Space, Room, Total, Lens;
    CountsFit(counts);
    AcceptedIfRoom(counts);
  }

  /** A proper table that the decoder refuses: its words have 262 prefixes of 8 to 15 bits. */
  lemma ProperButRefused()
    ensures var vals := seq(256, k => k);
      ProperTable(MANY_PREFIXES, vals) && Overfull(Codes(Lens(MANY_PREFIXES, 16)))
  {
    var counts := MANY_PREFIXES;
    ManyPrefixesCounts();
    LensTotal(counts, 16);
    hide Space, Room, Total, Lens, MANY_PREFIXES;
    CountsFit(counts);
    AcceptedIfRoom(counts);
  }

  // ----- The tables -----

  const LUMA_DC := HuffSpec(LUMA_DC_LEN, DC_VALS)

  const CHROMA_DC := HuffSpec(CHROMA_DC_LEN, DC_VALS)

  const LUMA_AC := HuffSpec(LUMA_AC_LEN, LUMA_AC_VALS)

  const CHROMA_AC := HuffSpec(CHROMA_AC_LEN, CHROMA_AC_VALS)

  lemma Categories()
    ensures |DC_VALS| == 12 && forall c :: 0 <= c < 12 ==> DC_VALS[c] == c
  {
  }

  lemma DcDefault(h: HuffSpec)
    requires h == LUMA_DC || h == CHROMA_DC
    ensures DcSpec(h) && !Overfull(h.Words())
  {
    DefaultAccepted(h);
    Categories();
    hide CodeLengths, Lens, Codes, Overfull, DC_VALS;
    assert h.vals[..12] == h.vals;
    forall c | 0 <= c <= 11 ensures c in h.vals[..12] { assert h.vals[..12][c] == c; }
  }

  lemma AcDefault(h: HuffSpec)
    requires h == LUMA_AC || h == CHROMA_AC
    ensures AcSpec(h) && !Overfull(h.Words())
  {
    DefaultAccepted(h);
    hide CodeLengths, Lens, Codes, Overfull;
    hide LUMA_AC_VALS, CHROMA_AC_VALS, LUMA_PLACES, CHROMA_PLACES;
    if h == LUMA_AC {
      LumaListing();
      ListedOnce(LUMA_AC_VALS, LUMA_PLACES, 3);
    } else {
      ChromaListing();
      ListedOnce(CHROMA_AC_VALS, CHROMA_PLACES, 0);
    }
    assert h.vals[..162] == h.vals;
  }

  /** The video path: whatever tiny_jpeg encodes with its tables, jpgd decodes, to the transforms of the coefficients
    * times their quantisers. */
  method DefaultRoundTrip(quantY: seq<int>, quantC: seq<int>, mcus: seq<Mcu>, rows: nat, unitsPerRow: nat,
                          oldRegister: nat)
    returns (samples: seq<seq<int>>)
    requires |quantY| == |quantC| == 64 && 3 * |mcus| == rows * (unitsPerRow * 3) && oldRegister < 0x1_0000_0000
    requires InRange([0, 1, 2], [0, 0, 0], BlocksOf(mcus), 0)
    ensures |samples| == rows
    ensures forall r :: 0 <= r < rows ==>
      && RowSamples(samples[r], BlocksOf(mcus), r, unitsPerRow * 3, [0, 1, 2], [quantY, quantC, quantC])
      && UnitRow(samples[r], mcus, r, unitsPerRow, quantY, quantC)
  {
    hide *;
    DcDefault(LUMA_DC);
    DcDefault(CHROMA_DC);
    AcDefault(LUMA_AC);
    AcDefault(CHROMA_AC);
    NoneIsOverfull(LUMA_DC, LUMA_AC, CHROMA_DC, CHROMA_AC);
    var accepted, ok;
    accepted, ok, samples := RoundTrip(LUMA_DC, LUMA_AC, CHROMA_DC, CHROMA_AC, quantY, quantC, mcus, rows,
                                       unitsPerRow, oldRegister);
  }

  lemma NoneIsOverfull(ldc: HuffSpec, lac: HuffSpec, cdc: HuffSpec, cac: HuffSpec)
    requires DcSpec(ldc) && AcSpec(lac) && DcSpec(cdc) && AcSpec(cac)
    requires !Overfull(ldc.Words()) && !Overfull(lac.Words()) && !Overfull(cdc.Words()) && !Overfull(cac.Words())
    ensures NoneOverfull(ldc, lac, cdc, cac)
  {
    hide Overfull;
  }
}
