/** The symbols of tiny_jpeg's default Huffman tables (section K.3 of ITU-T T.81): each that can occur is listed
  * once. */
module DefaultSymbols {
  import opened BlockEncoder
  import opened HuffTables

  /** The categories, for both components. */
  const DC_VALS: seq<nat> := [0, 1, 2, 3, 4, 5, 6, 7, 8, 9, 10, 11]

  const LUMA_AC_ROWS: seq<seq<nat>> := [
    [0x01, 0x02, 0x03, 0x00, 0x04, 0x11, 0x05, 0x12],
    [0x21, 0x31, 0x41, 0x06, 0x13, 0x51, 0x61, 0x07],
    [0x22, 0x71, 0x14, 0x32, 0x81, 0x91, 0xA1, 0x08],
    [0x23, 0x42, 0xB1, 0xC1, 0x15, 0x52, 0xD1, 0xF0],
    [0x24, 0x33, 0x62, 0x72, 0x82, 0x09, 0x0A, 0x16],
    [0x17, 0x18, 0x19, 0x1A, 0x25, 0x26, 0x27, 0x28],
    [0x29, 0x2A, 0x34, 0x35, 0x36, 0x37, 0x38, 0x39],
    [0x3A, 0x43, 0x44, 0x45, 0x46, 0x47, 0x48, 0x49],
    [0x4A, 0x53, 0x54, 0x55, 0x56, 0x57, 0x58, 0x59],
    [0x5A, 0x63, 0x64, 0x65, 0x66, 0x67, 0x68, 0x69],
    [0x6A, 0x73, 0x74, 0x75, 0x76, 0x77, 0x78, 0x79],
    [0x7A, 0x83, 0x84, 0x85, 0x86, 0x87, 0x88, 0x89],
    [0x8A, 0x92, 0x93, 0x94, 0x95, 0x96, 0x97, 0x98],
    [0x99, 0x9A, 0xA2, 0xA3, 0xA4, 0xA5, 0xA6, 0xA7],
    [0xA8, 0xA9, 0xAA, 0xB2, 0xB3, 0xB4, 0xB5, 0xB6],
    [0xB7, 0xB8, 0xB9, 0xBA, 0xC2, 0xC3, 0xC4, 0xC5],
    [0xC6, 0xC7, 0xC8, 0xC9, 0xCA, 0xD2, 0xD3, 0xD4],
    [0xD5, 0xD6, 0xD7, 0xD8, 0xD9, 0xDA, 0xE1, 0xE2],
    [0xE3, 0xE4, 0xE5, 0xE6, 0xE7, 0xE8, 0xE9, 0xEA],
    [0xF1, 0xF2, 0xF3, 0xF4, 0xF5, 0xF6, 0xF7, 0xF8]]

  const LUMA_AC_VALS: seq<nat> := Flat(LUMA_AC_ROWS) + [0xF9, 0xFA]

  const CHROMA_AC_ROWS: seq<seq<nat>> := [
    [0x00, 0x01, 0x02, 0x03, 0x11, 0x04, 0x05, 0x21],
    [0x31, 0x06, 0x12, 0x41, 0x51, 0x07, 0x61, 0x71],
    [0x13, 0x22, 0x32, 0x81, 0x08, 0x14, 0x42, 0x91],
    [0xA1, 0xB1, 0xC1, 0x09, 0x23, 0x33, 0x52, 0xF0],
    [0x15, 0x62, 0x72, 0xD1, 0x0A, 0x16, 0x24, 0x34],
    [0xE1, 0x25, 0xF1, 0x17, 0x18, 0x19, 0x1A, 0x26],
    [0x27, 0x28, 0x29, 0x2A, 0x35, 0x36, 0x37, 0x38],
    [0x39, 0x3A, 0x43, 0x44, 0x45, 0x46, 0x47, 0x48],
    [0x49, 0x4A, 0x53, 0x54, 0x55, 0x56, 0x57, 0x58],
    [0x59, 0x5A, 0x63, 0x64, 0x65, 0x66, 0x67, 0x68],
    [0x69, 0x6A, 0x73, 0x74, 0x75, 0x76, 0x77, 0x78],
    [0x79, 0x7A, 0x82, 0x83, 0x84, 0x85, 0x86, 0x87],
    [0x88, 0x89, 0x8A, 0x92, 0x93, 0x94, 0x95, 0x96],
    [0x97, 0x98, 0x99, 0x9A, 0xA2, 0xA3, 0xA4, 0xA5],
    [0xA6, 0xA7, 0xA8, 0xA9, 0xAA, 0xB2, 0xB3, 0xB4],
    [0xB5, 0xB6, 0xB7, 0xB8, 0xB9, 0xBA, 0xC2, 0xC3],
    [0xC4, 0xC5, 0xC6, 0xC7, 0xC8, 0xC9, 0xCA, 0xD2],
    [0xD3, 0xD4, 0xD5, 0xD6, 0xD7, 0xD8, 0xD9, 0xDA],
    [0xE2, 0xE3, 0xE4, 0xE5, 0xE6, 0xE7, 0xE8, 0xE9],
    [0xEA, 0xF2, 0xF3, 0xF4, 0xF5, 0xF6, 0xF7, 0xF8]]

  const CHROMA_AC_VALS: seq<nat> := Flat(CHROMA_AC_ROWS) + [0xF9, 0xFA]

  /** Where the symbols of each run stand in the lists, by category. */
  const LUMA_PLACES: seq<seq<nat>> := [
    [0, 1, 2, 4, 6, 11, 15, 23, 37, 38],
    [5, 7, 12, 18, 28, 39, 40, 41, 42, 43],
    [8, 16, 24, 32, 44, 45, 46, 47, 48, 49],
    [9, 19, 33, 50, 51, 52, 53, 54, 55, 56],
    [10, 25, 57, 58, 59, 60, 61, 62, 63, 64],
    [13, 29, 65, 66, 67, 68, 69, 70, 71, 72],
    [14, 34, 73, 74, 75, 76, 77, 78, 79, 80],
    [17, 35, 81, 82, 83, 84, 85, 86, 87, 88],
    [20, 36, 89, 90, 91, 92, 93, 94, 95, 96],
    [21, 97, 98, 99, 100, 101, 102, 103, 104, 105],
    [22, 106, 107, 108, 109, 110, 111, 112, 113, 114],
    [26, 115, 116, 117, 118, 119, 120, 121, 122, 123],
    [27, 124, 125, 126, 127, 128, 129, 130, 131, 132],
    [30, 133, 134, 135, 136, 137, 138, 139, 140, 141],
    [142, 143, 144, 145, 146, 147, 148, 149, 150, 151],
    [152, 153, 154, 155, 156, 157, 158, 159, 160, 161]]

  const CHROMA_PLACES: seq<seq<nat>> := [
    [1, 2, 3, 5, 6, 9, 13, 20, 27, 36],
    [4, 10, 16, 21, 32, 37, 43, 44, 45, 46],
    [7, 17, 28, 38, 41, 47, 48, 49, 50, 51],
    [8, 18, 29, 39, 52, 53, 54, 55, 56, 57],
    [11, 22, 58, 59, 60, 61, 62, 63, 64, 65],
    [12, 30, 66, 67, 68, 69, 70, 71, 72, 73],
    [14, 33, 74, 75, 76, 77, 78, 79, 80, 81],
    [15, 34, 82, 83, 84, 85, 86, 87, 88, 89],
    [19, 90, 91, 92, 93, 94, 95, 96, 97, 98],
    [23, 99, 100, 101, 102, 103, 104, 105, 106, 107],
    [24, 108, 109, 110, 111, 112, 113, 114, 115, 116],
    [25, 117, 118, 119, 120, 121, 122, 123, 124, 125],
    [26, 126, 127, 128, 129, 130, 131, 132, 133, 134],
    [35, 135, 136, 137, 138, 139, 140, 141, 142, 143],
    [40, 144, 145, 146, 147, 148, 149, 150, 151, 152],
    [42, 153, 154, 155, 156, 157, 158, 159, 160, 161]]

  function Flat(rows: seq<seq<nat>>): seq<nat> {
    if rows == [] then [] else Flat(rows[..|rows| - 1]) + rows[|rows| - 1]
  }

  /** End of block, sixteen zeros, and every run with every category up to 10. */
  predicate IsAcSymbol(s: nat) {
    s < 256 && (s == EOB || s == ZRL || 1 <= s % 16 <= 10)
  }

  /** Symbol s belongs at place k. */
  predicate Belongs(places: seq<seq<nat>>, eob: nat, s: nat, k: nat) {
    if s == EOB then k == eob
    else if s == ZRL then k == 31
    else s < 256 && 1 <= s % 16 <= 10 && |places| == 16 && |places[s / 16]| == 10 && places[s / 16][s % 16 - 1] == k
  }

  predicate RowBelongs(places: seq<seq<nat>>, eob: nat, row: seq<nat>, at: nat) {
    && |row| == 8
    && Belongs(places, eob, row[0], at) && Belongs(places, eob, row[1], at + 1) && Belongs(places, eob, row[2], at + 2)
    && Belongs(places, eob, row[3], at + 3) && Belongs(places, eob, row[4], at + 4)
    && Belongs(places, eob, row[5], at + 5)
    && Belongs(places, eob, row[6], at + 6) && Belongs(places, eob, row[7], at + 7)
  }

  ghost predicate AllBelong(places: seq<seq<nat>>, eob: nat, rows: seq<seq<nat>>) {
    |rows| == 20 && forall r :: 0 <= r < 20 ==> RowBelongs(places, eob, rows[r], 8 * r)
  }

  /** A list of all symbols, each at its place. */
  ghost predicate Listing(vals: seq<nat>, places: seq<seq<nat>>, eob: nat) {
    |vals| == 162 && forall k :: 0 <= k < 162 ==> Belongs(places, eob, vals[k], k)
  }

  lemma {:induction false} FlatBelongs(places: seq<seq<nat>>, eob: nat, rows: seq<seq<nat>>, n: nat)
    requires AllBelong(places, eob, rows) && n <= 20
    ensures |Flat(rows[..n])| == 8 * n && forall k :: 0 <= k < 8 * n ==> Belongs(places, eob, Flat(rows[..n])[k], k)
  {
    hide Belongs;
    if n > 0 {
      FlatBelongs(places, eob, rows, n - 1);
      assert rows[..n][..n - 1] == rows[..n - 1];
      assert RowBelongs(places, eob, rows[n - 1], 8 * (n - 1));
      RowAt(places, eob, rows[n - 1], 8 * (n - 1));
    }
  }

  lemma RowAt(places: seq<seq<nat>>, eob: nat, row: seq<nat>, at: nat)
    requires RowBelongs(places, eob, row, at)
    ensures |row| == 8 && forall j :: 0 <= j < 8 ==> Belongs(places, eob, row[j], at + j)
  {
    hide Belongs;
  }

  lemma IsListing(places: seq<seq<nat>>, eob: nat, rows: seq<seq<nat>>, a: nat, b: nat)
    requires AllBelong(places, eob, rows) && Belongs(places, eob, a, 160) && Belongs(places, eob, b, 161)
    ensures Listing(Flat(rows) + [a, b], places, eob)
  {
    hide Belongs, Flat;
    FlatBelongs(places, eob, rows, 20);
    assert rows[..20] == rows;
  }

  /** Every symbol, in the order of runs. */
  function AllSymbols(): (all: seq<nat>)
    ensures |all| == 162
  {
    [EOB, ZRL] + seq(160, i requires 0 <= i < 160 => 16 * (i / 10) + i % 10 + 1)
  }

  lemma IsAmongAll(s: nat)
    requires IsAcSymbol(s)
    ensures s in AllSymbols()
  {
    if s == EOB {
      assert AllSymbols()[0] == s;
    } else if s == ZRL {
      assert AllSymbols()[1] == s;
    } else {
      assert AllSymbols()[2 + 10 * (s / 16) + s % 16 - 1] == s;
    }
  }

  lemma Belonging(vals: seq<nat>, places: seq<seq<nat>>, eob: nat)
    requires Listing(vals, places, eob)
    ensures forall k :: 0 <= k < 162 ==> IsAcSymbol(vals[k])
    ensures forall j, k :: 0 <= j < k < 162 ==> vals[j] != vals[k]
  {
    assert forall j, k :: 0 <= j < k < 162 ==> Belongs(places, eob, vals[j], j) && Belongs(places, eob, vals[k], k);
  }

  /** Such a list has every symbol once. */
  lemma ListedOnce(vals: seq<nat>, places: seq<seq<nat>>, eob: nat)
    requires Listing(vals, places, eob)
    ensures |vals| == 162 && forall k :: 0 <= k < 162 ==> vals[k] < 256
    ensures forall j, k :: 0 <= j < k < 162 ==> vals[j] != vals[k]
    ensures forall s :: IsAcSymbol(s) ==> s in vals
  {
    Belonging(vals, places, eob);
    forall s | IsAcSymbol(s) ensures s in vals {
      if s !in vals {
        var more := vals + [s];
        forall i | 0 <= i < |more| ensures more[i] in AllSymbols() { IsAmongAll(more[i]); }
        NoMoreThan(more, AllSymbols());
        assert false;
      }
    }
  }

  lemma LumaRows0()
    ensures RowBelongs(LUMA_PLACES, 3, LUMA_AC_ROWS[0], 0) && RowBelongs(LUMA_PLACES, 3, LUMA_AC_ROWS[1], 8)
  {
    assert RowBelongs(LUMA_PLACES, 3, LUMA_AC_ROWS[0], 0);
  }

  lemma LumaRows2()
    ensures RowBelongs(LUMA_PLACES, 3, LUMA_AC_ROWS[2], 16) && RowBelongs(LUMA_PLACES, 3, LUMA_AC_ROWS[3], 24)
  {
    assert RowBelongs(LUMA_PLACES, 3, LUMA_AC_ROWS[2], 16);
  }

  lemma LumaRows4()
    ensures RowBelongs(LUMA_PLACES, 3, LUMA_AC_ROWS[4], 32) && RowBelongs(LUMA_PLACES, 3, LUMA_AC_ROWS[5], 40)
  {
    assert RowBelongs(LUMA_PLACES, 3, LUMA_AC_ROWS[4], 32);
  }

  lemma LumaRows6()
    ensures RowBelongs(LUMA_PLACES, 3, LUMA_AC_ROWS[6], 48) && RowBelongs(LUMA_PLACES, 3, LUMA_AC_ROWS[7], 56)
  {
    assert RowBelongs(LUMA_PLACES, 3, LUMA_AC_ROWS[6], 48);
  }

  lemma LumaRows8()
    ensures RowBelongs(LUMA_PLACES, 3, LUMA_AC_ROWS[8], 64) && RowBelongs(LUMA_PLACES, 3, LUMA_AC_ROWS[9], 72)
  {
    assert RowBelongs(LUMA_PLACES, 3, LUMA_AC_ROWS[8], 64);
  }

  lemma LumaRows10()
    ensures RowBelongs(LUMA_PLACES, 3, LUMA_AC_ROWS[10], 80) && RowBelongs(LUMA_PLACES, 3, LUMA_AC_ROWS[11], 88)
  {
    assert RowBelongs(LUMA_PLACES, 3, LUMA_AC_ROWS[10], 80);
  }

  lemma LumaRows12()
    ensures RowBelongs(LUMA_PLACES, 3, LUMA_AC_ROWS[12], 96) && RowBelongs(LUMA_PLACES, 3, LUMA_AC_ROWS[13], 104)
  {
    assert RowBelongs(LUMA_PLACES, 3, LUMA_AC_ROWS[12], 96);
  }

  lemma LumaRows14()
    ensures RowBelongs(LUMA_PLACES, 3, LUMA_AC_ROWS[14], 112) && RowBelongs(LUMA_PLACES, 3, LUMA_AC_ROWS[15], 120)
  {
    assert RowBelongs(LUMA_PLACES, 3, LUMA_AC_ROWS[14], 112);
  }

  lemma LumaRows16()
    ensures RowBelongs(LUMA_PLACES, 3, LUMA_AC_ROWS[16], 128) && RowBelongs(LUMA_PLACES, 3, LUMA_AC_ROWS[17], 136)
  {
    assert RowBelongs(LUMA_PLACES, 3, LUMA_AC_ROWS[16], 128);
  }

  lemma LumaRows18()
    ensures RowBelongs(LUMA_PLACES, 3, LUMA_AC_ROWS[18], 144) && RowBelongs(LUMA_PLACES, 3, LUMA_AC_ROWS[19], 152)
  {
    assert RowBelongs(LUMA_PLACES, 3, LUMA_AC_ROWS[18], 144);
  }

  lemma ChromaRows0()
    ensures RowBelongs(CHROMA_PLACES, 0, CHROMA_AC_ROWS[0], 0) && RowBelongs(CHROMA_PLACES, 0, CHROMA_AC_ROWS[1], 8)
  {
    assert RowBelongs(CHROMA_PLACES, 0, CHROMA_AC_ROWS[0], 0);
  }

  lemma ChromaRows2()
    ensures RowBelongs(CHROMA_PLACES, 0, CHROMA_AC_ROWS[2], 16) && RowBelongs(CHROMA_PLACES, 0, CHROMA_AC_ROWS[3], 24)
  {
    assert RowBelongs(CHROMA_PLACES, 0, CHROMA_AC_ROWS[2], 16);
  }

  lemma ChromaRows4()
    ensures RowBelongs(CHROMA_PLACES, 0, CHROMA_AC_ROWS[4], 32) && RowBelongs(CHROMA_PLACES, 0, CHROMA_AC_ROWS[5], 40)
  {
    assert RowBelongs(CHROMA_PLACES, 0, CHROMA_AC_ROWS[4], 32);
  }

  lemma ChromaRows6()
    ensures RowBelongs(CHROMA_PLACES, 0, CHROMA_AC_ROWS[6], 48) && RowBelongs(CHROMA_PLACES, 0, CHROMA_AC_ROWS[7], 56)
  {
    assert RowBelongs(CHROMA_PLACES, 0, CHROMA_AC_ROWS[6], 48);
  }

  lemma ChromaRows8()
    ensures RowBelongs(CHROMA_PLACES, 0, CHROMA_AC_ROWS[8], 64) && RowBelongs(CHROMA_PLACES, 0, CHROMA_AC_ROWS[9], 72)
  {
    assert RowBelongs(CHROMA_PLACES, 0, CHROMA_AC_ROWS[8], 64);
  }

  lemma ChromaRows10()
    ensures RowBelongs(CHROMA_PLACES, 0, CHROMA_AC_ROWS[10], 80) && RowBelongs(CHROMA_PLACES, 0, CHROMA_AC_ROWS[11], 88)
  {
    assert RowBelongs(CHROMA_PLACES, 0, CHROMA_AC_ROWS[10], 80);
  }

  lemma ChromaRows12()
    ensures RowBelongs(CHROMA_PLACES, 0, CHROMA_AC_ROWS[12], 96)
        && RowBelongs(CHROMA_PLACES, 0, CHROMA_AC_ROWS[13], 104)
  {
    assert RowBelongs(CHROMA_PLACES, 0, CHROMA_AC_ROWS[12], 96);
  }

  lemma ChromaRows14()
    ensures RowBelongs(CHROMA_PLACES, 0, CHROMA_AC_ROWS[14], 112)
        && RowBelongs(CHROMA_PLACES, 0, CHROMA_AC_ROWS[15], 120)
  {
    assert RowBelongs(CHROMA_PLACES, 0, CHROMA_AC_ROWS[14], 112);
  }

  lemma ChromaRows16()
    ensures RowBelongs(CHROMA_PLACES, 0, CHROMA_AC_ROWS[16], 128)
        && RowBelongs(CHROMA_PLACES, 0, CHROMA_AC_ROWS[17], 136)
  {
    assert RowBelongs(CHROMA_PLACES, 0, CHROMA_AC_ROWS[16], 128);
  }

  lemma ChromaRows18()
    ensures RowBelongs(CHROMA_PLACES, 0, CHROMA_AC_ROWS[18], 144)
        && RowBelongs(CHROMA_PLACES, 0, CHROMA_AC_ROWS[19], 152)
  {
    assert RowBelongs(CHROMA_PLACES, 0, CHROMA_AC_ROWS[18], 144);
  }

  lemma LumaListing()
    ensures Listing(LUMA_AC_VALS, LUMA_PLACES, 3)
  {
    hide Belongs, RowBelongs, LUMA_PLACES, Flat, Listing;
    assert |LUMA_AC_ROWS| == 20;
    hide LUMA_AC_ROWS;
    LumaRows0();
    LumaRows2();
    LumaRows4();
    LumaRows6();
    LumaRows8();
    LumaRows10();
    LumaRows12();
    LumaRows14();
    LumaRows16();
    LumaRows18();
    assert AllBelong(LUMA_PLACES, 3, LUMA_AC_ROWS);
    LumaLast();
    IsListing(LUMA_PLACES, 3, LUMA_AC_ROWS, 0xF9, 0xFA);
  }

  lemma LumaLast()
    ensures Belongs(LUMA_PLACES, 3, 0xF9, 160) && Belongs(LUMA_PLACES, 3, 0xFA, 161)
  {
  }

  lemma ChromaListing()
    ensures Listing(CHROMA_AC_VALS, CHROMA_PLACES, 0)
  {
    hide Belongs, RowBelongs, CHROMA_PLACES, Flat, Listing;
    assert |CHROMA_AC_ROWS| == 20;
    hide CHROMA_AC_ROWS;
    ChromaRows0();
    ChromaRows2();
    ChromaRows4();
    ChromaRows6();
    ChromaRows8();
    ChromaRows10();
    ChromaRows12();
    ChromaRows14();
    ChromaRows16();
    ChromaRows18();
    assert AllBelong(CHROMA_PLACES, 0, CHROMA_AC_ROWS);
    ChromaLast();
    IsListing(CHROMA_PLACES, 0, CHROMA_AC_ROWS, 0xF9, 0xFA);
  }

  lemma ChromaLast()
    ensures Belongs(CHROMA_PLACES, 0, 0xF9, 160) && Belongs(CHROMA_PLACES, 0, 0xFA, 161)
  {
  }
}
