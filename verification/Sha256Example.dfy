/** An example, step by step: the digest of the three letters "abc" (appendix B.1 of FIPS 180-2). */
module Sha256Example {
  import opened Sha256

  const LETTERS: seq<Byte> := [0x61, 0x62, 0x63]

  /** The padded message, which is one block. */
  function Block(): (b: seq<Byte>)
    ensures |b| == 64
  {
    LETTERS + [0x80] + Zeros(59) + [0x18]
  }

  lemma PaddedLetters()
    ensures Pad(LETTERS) == Block()
  {
    assert ZeroCount(3) == 52;
    assert LengthBytes(24) == [0, 0, 0, 0, 0, 0, 0, 0x18];
    assert Zeros(59) == Zeros(52) + [0, 0, 0, 0, 0, 0, 0];
  }

  /** Word t of the schedule is w. */
  ghost predicate WordIs(b: seq<Byte>, t: nat, w: Word) {
    |b| == 64 && Schedule(b, t) == w
  }

  lemma NextIs(b: seq<Byte>, t: nat, w2: Word, w7: Word, w15: Word, w16: Word, w: Word)
    requires t >= 16 && WordIs(b, t - 2, w2) && WordIs(b, t - 7, w7) && WordIs(b, t - 15, w15) && WordIs(b, t - 16, w16)
    requires Add(Add(Add(Sigma1(w2), w7), Sigma0(w15)), w16) == w
    ensures WordIs(b, t, w)
  {
    hide Add, Sigma0, Sigma1;
    NextWord(b, t);
  }

  lemma FirstIs(b: seq<Byte>, t: nat, b0: Byte, b1: Byte, b2: Byte, b3: Byte, w: Word)
    requires |b| == 64 && t < 16 && b[4 * t] == b0 && b[4 * t + 1] == b1 && b[4 * t + 2] == b2 && b[4 * t + 3] == b3
    requires BigEndian(b0, b1, b2, b3) == w
    ensures WordIs(b, t, w)
  {
    hide BigEndian;
  }

  lemma Words0(b: seq<Byte>)
    requires b == Block()
    ensures WordIs(b, 0, 0x61626380) && (forall t :: 1 <= t < 15 ==> WordIs(b, t, 0)) && WordIs(b, 15, 0x18)
  {
    hide WordIs;
    FirstIs(b, 0, 0x61, 0x62, 0x63, 0x80, 0x61626380);
    forall t | 1 <= t < 15 ensures WordIs(b, t, 0) { FirstIs(b, t, 0, 0, 0, 0, 0); }
    FirstIs(b, 15, 0, 0, 0, 0x18, 0x18);
  }

  lemma Words16(b: seq<Byte>)
    requires b == Block()
    ensures WordIs(b, 16, 0x61626380) && WordIs(b, 17, 0x000f0000) && WordIs(b, 18, 0x7da86405)
    ensures WordIs(b, 19, 0x600003c6) && WordIs(b, 20, 0x3e9d7b78) && WordIs(b, 21, 0x0183fc00)
    ensures WordIs(b, 22, 0x12dcbfdb) && WordIs(b, 23, 0xe2e2c38e)
  {
    hide WordIs, Block;
    Words0(b);
    NextIs(b, 16, 0x00000000, 0x00000000, 0x00000000, 0x61626380, 0x61626380);
    NextIs(b, 17, 0x00000018, 0x00000000, 0x00000000, 0x00000000, 0x000f0000);
    NextIs(b, 18, 0x61626380, 0x00000000, 0x00000000, 0x00000000, 0x7da86405);
    NextIs(b, 19, 0x000f0000, 0x00000000, 0x00000000, 0x00000000, 0x600003c6);
    NextIs(b, 20, 0x7da86405, 0x00000000, 0x00000000, 0x00000000, 0x3e9d7b78);
    NextIs(b, 21, 0x600003c6, 0x00000000, 0x00000000, 0x00000000, 0x0183fc00);
    NextIs(b, 22, 0x3e9d7b78, 0x00000018, 0x00000000, 0x00000000, 0x12dcbfdb);
    NextIs(b, 23, 0x0183fc00, 0x61626380, 0x00000000, 0x00000000, 0xe2e2c38e);
  }

  lemma Words24(b: seq<Byte>)
    requires b == Block()
    ensures WordIs(b, 24, 0xc8215c1a) && WordIs(b, 25, 0xb73679a2) && WordIs(b, 26, 0xe5bc3909)
    ensures WordIs(b, 27, 0x32663c5b) && WordIs(b, 28, 0x9d209d67) && WordIs(b, 29, 0xec8726cb)
    ensures WordIs(b, 30, 0x702138a4) && WordIs(b, 31, 0xd3b7973b)
  {
    hide WordIs, Block;
    Words0(b);
    Words16(b);
    NextIs(b, 24, 0x12dcbfdb, 0x000f0000, 0x00000000, 0x00000000, 0xc8215c1a);
    NextIs(b, 25, 0xe2e2c38e, 0x7da86405, 0x00000000, 0x00000000, 0xb73679a2);
    NextIs(b, 26, 0xc8215c1a, 0x600003c6, 0x00000000, 0x00000000, 0xe5bc3909);
    NextIs(b, 27, 0xb73679a2, 0x3e9d7b78, 0x00000000, 0x00000000, 0x32663c5b);
    NextIs(b, 28, 0xe5bc3909, 0x0183fc00, 0x00000000, 0x00000000, 0x9d209d67);
    NextIs(b, 29, 0x32663c5b, 0x12dcbfdb, 0x00000000, 0x00000000, 0xec8726cb);
    NextIs(b, 30, 0x9d209d67, 0xe2e2c38e, 0x00000018, 0x00000000, 0x702138a4);
    NextIs(b, 31, 0xec8726cb, 0xc8215c1a, 0x61626380, 0x00000018, 0xd3b7973b);
  }

  lemma Words32(b: seq<Byte>)
    requires b == Block()
    ensures WordIs(b, 32, 0x93f5997f) && WordIs(b, 33, 0x3b68ba73) && WordIs(b, 34, 0xaff4ffc1)
    ensures WordIs(b, 35, 0xf10a5c62) && WordIs(b, 36, 0x0a8b3996) && WordIs(b, 37, 0x72af830a)
    ensures WordIs(b, 38, 0x9409e33e) && WordIs(b, 39, 0x24641522)
  {
    hide WordIs, Block;
    Words16(b);
    Words24(b);
    NextIs(b, 32, 0x702138a4, 0xb73679a2, 0x000f0000, 0x61626380, 0x93f5997f);
    NextIs(b, 33, 0xd3b7973b, 0xe5bc3909, 0x7da86405, 0x000f0000, 0x3b68ba73);
    NextIs(b, 34, 0x93f5997f, 0x32663c5b, 0x600003c6, 0x7da86405, 0xaff4ffc1);
    NextIs(b, 35, 0x3b68ba73, 0x9d209d67, 0x3e9d7b78, 0x600003c6, 0xf10a5c62);
    NextIs(b, 36, 0xaff4ffc1, 0xec8726cb, 0x0183fc00, 0x3e9d7b78, 0x0a8b3996);
    NextIs(b, 37, 0xf10a5c62, 0x702138a4, 0x12dcbfdb, 0x0183fc00, 0x72af830a);
    NextIs(b, 38, 0x0a8b3996, 0xd3b7973b, 0xe2e2c38e, 0x12dcbfdb, 0x9409e33e);
    NextIs(b, 39, 0x72af830a, 0x93f5997f, 0xc8215c1a, 0xe2e2c38e, 0x24641522);
  }

  lemma Words40(b: seq<Byte>)
    requires b == Block()
    ensures WordIs(b, 40, 0x9f47bf94) && WordIs(b, 41, 0xf0a64f5a) && WordIs(b, 42, 0x3e246a79)
    ensures WordIs(b, 43, 0x27333ba3) && WordIs(b, 44, 0x0c4763f2) && WordIs(b, 45, 0x840abf27)
    ensures WordIs(b, 46, 0x7a290d5d) && WordIs(b, 47, 0x065c43da)
  {
    hide WordIs, Block;
    Words24(b);
    Words32(b);
    NextIs(b, 40, 0x9409e33e, 0x3b68ba73, 0xb73679a2, 0xc8215c1a, 0x9f47bf94);
    NextIs(b, 41, 0x24641522, 0xaff4ffc1, 0xe5bc3909, 0xb73679a2, 0xf0a64f5a);
    NextIs(b, 42, 0x9f47bf94, 0xf10a5c62, 0x32663c5b, 0xe5bc3909, 0x3e246a79);
    NextIs(b, 43, 0xf0a64f5a, 0x0a8b3996, 0x9d209d67, 0x32663c5b, 0x27333ba3);
    NextIs(b, 44, 0x3e246a79, 0x72af830a, 0xec8726cb, 0x9d209d67, 0x0c4763f2);
    NextIs(b, 45, 0x27333ba3, 0x9409e33e, 0x702138a4, 0xec8726cb, 0x840abf27);
    NextIs(b, 46, 0x0c4763f2, 0x24641522, 0xd3b7973b, 0x702138a4, 0x7a290d5d);
    NextIs(b, 47, 0x840abf27, 0x9f47bf94, 0x93f5997f, 0xd3b7973b, 0x065c43da);
  }

  lemma Words48(b: seq<Byte>)
    requires b == Block()
    ensures WordIs(b, 48, 0xfb3e89cb) && WordIs(b, 49, 0xcc7617db) && WordIs(b, 50, 0xb9e66c34)
    ensures WordIs(b, 51, 0xa9993667) && WordIs(b, 52, 0x84badedd) && WordIs(b, 53, 0xc21462bc)
    ensures WordIs(b, 54, 0x1487472c) && WordIs(b, 55, 0xb20f7a99)
  {
    hide WordIs, Block;
    Words32(b);
    Words40(b);
    NextIs(b, 48, 0x7a290d5d, 0xf0a64f5a, 0x3b68ba73, 0x93f5997f, 0xfb3e89cb);
    NextIs(b, 49, 0x065c43da, 0x3e246a79, 0xaff4ffc1, 0x3b68ba73, 0xcc7617db);
    NextIs(b, 50, 0xfb3e89cb, 0x27333ba3, 0xf10a5c62, 0xaff4ffc1, 0xb9e66c34);
    NextIs(b, 51, 0xcc7617db, 0x0c4763f2, 0x0a8b3996, 0xf10a5c62, 0xa9993667);
    NextIs(b, 52, 0xb9e66c34, 0x840abf27, 0x72af830a, 0x0a8b3996, 0x84badedd);
    NextIs(b, 53, 0xa9993667, 0x7a290d5d, 0x9409e33e, 0x72af830a, 0xc21462bc);
    NextIs(b, 54, 0x84badedd, 0x065c43da, 0x24641522, 0x9409e33e, 0x1487472c);
    NextIs(b, 55, 0xc21462bc, 0xfb3e89cb, 0x9f47bf94, 0x24641522, 0xb20f7a99);
  }

  lemma Words56(b: seq<Byte>)
    requires b == Block()
    ensures WordIs(b, 56, 0xef57b9cd) && WordIs(b, 57, 0xebe6b238) && WordIs(b, 58, 0x9fe3095e)
    ensures WordIs(b, 59, 0x78bc8d4b) && WordIs(b, 60, 0xa43fcf15) && WordIs(b, 61, 0x668b2ff8)
    ensures WordIs(b, 62, 0xeeaba2cc) && WordIs(b, 63, 0x12b1edeb)
  {
    hide WordIs, Block;
    Words40(b);
    Words48(b);
    NextIs(b, 56, 0x1487472c, 0xcc7617db, 0xf0a64f5a, 0x9f47bf94, 0xef57b9cd);
    NextIs(b, 57, 0xb20f7a99, 0xb9e66c34, 0x3e246a79, 0xf0a64f5a, 0xebe6b238);
    NextIs(b, 58, 0xef57b9cd, 0xa9993667, 0x27333ba3, 0x3e246a79, 0x9fe3095e);
    NextIs(b, 59, 0xebe6b238, 0x84badedd, 0x0c4763f2, 0x27333ba3, 0x78bc8d4b);
    NextIs(b, 60, 0x9fe3095e, 0xc21462bc, 0x840abf27, 0x0c4763f2, 0xa43fcf15);
    NextIs(b, 61, 0x78bc8d4b, 0x1487472c, 0x7a290d5d, 0x840abf27, 0x668b2ff8);
    NextIs(b, 62, 0xa43fcf15, 0xb20f7a99, 0x065c43da, 0x7a290d5d, 0xeeaba2cc);
    NextIs(b, 63, 0x668b2ff8, 0xef57b9cd, 0xfb3e89cb, 0x065c43da, 0x12b1edeb);
  }

  /** The working variables after t rounds are v. */
  ghost predicate After(b: seq<Byte>, t: nat, v: Hash)
    requires t <= 64
  {
    |b| == 64 && Rounds(Initial, b, t) == v
  }

  lemma OneRound(b: seq<Byte>, t: nat, v: Hash, k: Word, w: Word) returns (next: Hash)
    requires t < 64 && After(b, t, v) && K()[t] == k && WordIs(b, t, w)
    ensures next == Round(v, k, w) && After(b, t + 1, next)
  {
    hide Round, K;
    NextRound(Initial, b, t);
    next := Round(v, k, w);
  }

  lemma Rounds0(b: seq<Byte>)
    requires b == Block()
    ensures After(b, 0, Initial)
  {
  }

  lemma Rounds8(b: seq<Byte>)
    requires b == Block()
    ensures After(b, 8, Hash(0x85a07b5f, 0xe5030380, 0x2b4209f5, 0x04409a6a,
                             0x0c657a79, 0x9b27a401, 0x714260ad, 0x43ada245))
  {
    hide After, WordIs, Block;
    Rounds0(b);
    Words0(b);
    var v := Hash(0x6a09e667, 0xbb67ae85, 0x3c6ef372, 0xa54ff53a, 0x510e527f, 0x9b05688c, 0x1f83d9ab, 0x5be0cd19);
    v := OneRound(b, 0, v, 0x428a2f98, 0x61626380);
    v := OneRound(b, 1, v, 0x71374491, 0x00000000);
    v := OneRound(b, 2, v, 0xb5c0fbcf, 0x00000000);
    v := OneRound(b, 3, v, 0xe9b5dba5, 0x00000000);
    v := OneRound(b, 4, v, 0x3956c25b, 0x00000000);
    v := OneRound(b, 5, v, 0x59f111f1, 0x00000000);
    v := OneRound(b, 6, v, 0x923f82a4, 0x00000000);
    v := OneRound(b, 7, v, 0xab1c5ed5, 0x00000000);
  }

  lemma Rounds16(b: seq<Byte>)
    requires b == Block()
    ensures After(b, 16, Hash(0xb0fa238e, 0xc0645fde, 0xd932eb16, 0x87912990,
                              0x07590dcd, 0x0b92f20c, 0x745a48de, 0x1e578218))
  {
    hide After, WordIs, Block;
    Rounds8(b);
    Words0(b);
    var v := Hash(0x85a07b5f, 0xe5030380, 0x2b4209f5, 0x04409a6a, 0x0c657a79, 0x9b27a401, 0x714260ad, 0x43ada245);
    v := OneRound(b, 8, v, 0xd807aa98, 0x00000000);
    v := OneRound(b, 9, v, 0x12835b01, 0x00000000);
    v := OneRound(b, 10, v, 0x243185be, 0x00000000);
    v := OneRound(b, 11, v, 0x550c7dc3, 0x00000000);
    v := OneRound(b, 12, v, 0x72be5d74, 0x00000000);
    v := OneRound(b, 13, v, 0x80deb1fe, 0x00000000);
    v := OneRound(b, 14, v, 0x9bdc06a7, 0x00000000);
    v := OneRound(b, 15, v, 0xc19bf174, 0x00000018);
  }

  lemma Rounds24(b: seq<Byte>)
    requires b == Block()
    ensures After(b, 24, Hash(0xc5d53d8d, 0xa7a3623f, 0xc2606d6d, 0x9dc68b63,
                              0xaa47c347, 0x49f5114a, 0xe1257970, 0x8ada8930))
  {
    hide After, WordIs, Block;
    Rounds16(b);
    Words16(b);
    var v := Hash(0xb0fa238e, 0xc0645fde, 0xd932eb16, 0x87912990, 0x07590dcd, 0x0b92f20c, 0x745a48de, 0x1e578218);
    v := OneRound(b, 16, v, 0xe49b69c1, 0x61626380);
    v := OneRound(b, 17, v, 0xefbe4786, 0x000f0000);
    v := OneRound(b, 18, v, 0x0fc19dc6, 0x7da86405);
    v := OneRound(b, 19, v, 0x240ca1cc, 0x600003c6);
    v := OneRound(b, 20, v, 0x2de92c6f, 0x3e9d7b78);
    v := OneRound(b, 21, v, 0x4a7484aa, 0x0183fc00);
    v := OneRound(b, 22, v, 0x5cb0a9dc, 0x12dcbfdb);
    v := OneRound(b, 23, v, 0x76f988da, 0xe2e2c38e);
  }

  lemma Rounds32(b: seq<Byte>)
    requires b == Block()
    ensures After(b, 32, Hash(0x73b33bf5, 0xea992a22, 0xa0060b30, 0x363482c9,
                              0xba591112, 0x0109ab3a, 0xade79437, 0x6112a3b7))
  {
    hide After, WordIs, Block;
    Rounds24(b);
    Words24(b);
    var v := Hash(0xc5d53d8d, 0xa7a3623f, 0xc2606d6d, 0x9dc68b63, 0xaa47c347, 0x49f5114a, 0xe1257970, 0x8ada8930);
    v := OneRound(b, 24, v, 0x983e5152, 0xc8215c1a);
    v := OneRound(b, 25, v, 0xa831c66d, 0xb73679a2);
    v := OneRound(b, 26, v, 0xb00327c8, 0xe5bc3909);
    v := OneRound(b, 27, v, 0xbf597fc7, 0x32663c5b);
    v := OneRound(b, 28, v, 0xc6e00bf3, 0x9d209d67);
    v := OneRound(b, 29, v, 0xd5a79147, 0xec8726cb);
    v := OneRound(b, 30, v, 0x06ca6351, 0x702138a4);
    v := OneRound(b, 31, v, 0x14292967, 0xd3b7973b);
  }

  lemma Rounds40(b: seq<Byte>)
    requires b == Block()
    ensures After(b, 40, Hash(0x79ea687a, 0x6dc57a8a, 0x34df1604, 0x41a65cb1,
                              0x1efbc0a0, 0xf0781bc8, 0xa507a53d, 0x0772a26b))
  {
    hide After, WordIs, Block;
    Rounds32(b);
    Words32(b);
    var v := Hash(0x73b33bf5, 0xea992a22, 0xa0060b30, 0x363482c9, 0xba591112, 0x0109ab3a, 0xade79437, 0x6112a3b7);
    v := OneRound(b, 32, v, 0x27b70a85, 0x93f5997f);
    v := OneRound(b, 33, v, 0x2e1b2138, 0x3b68ba73);
    v := OneRound(b, 34, v, 0x4d2c6dfc, 0xaff4ffc1);
    v := OneRound(b, 35, v, 0x53380d13, 0xf10a5c62);
    v := OneRound(b, 36, v, 0x650a7354, 0x0a8b3996);
    v := OneRound(b, 37, v, 0x766a0abb, 0x72af830a);
    v := OneRound(b, 38, v, 0x81c2c92e, 0x9409e33e);
    v := OneRound(b, 39, v, 0x92722c85, 0x24641522);
  }

  lemma Rounds48(b: seq<Byte>)
    requires b == Block()
    ensures After(b, 48, Hash(0x4172328d, 0xa14c14b0, 0x72ab4b91, 0x26628815,
                              0xfecf0bc6, 0xd57b94a9, 0xb7755da1, 0xa80f11f0))
  {
    hide After, WordIs, Block;
    Rounds40(b);
    Words40(b);
    var v := Hash(0x79ea687a, 0x6dc57a8a, 0x34df1604, 0x41a65cb1, 0x1efbc0a0, 0xf0781bc8, 0xa507a53d, 0x0772a26b);
    v := OneRound(b, 40, v, 0xa2bfe8a1, 0x9f47bf94);
    v := OneRound(b, 41, v, 0xa81a664b, 0xf0a64f5a);
    v := OneRound(b, 42, v, 0xc24b8b70, 0x3e246a79);
    v := OneRound(b, 43, v, 0xc76c51a3, 0x27333ba3);
    v := OneRound(b, 44, v, 0xd192e819, 0x0c4763f2);
    v := OneRound(b, 45, v, 0xd6990624, 0x840abf27);
    v := OneRound(b, 46, v, 0xf40e3585, 0x7a290d5d);
    v := OneRound(b, 47, v, 0x106aa070, 0x065c43da);
  }

  lemma Rounds56(b: seq<Byte>)
    requires b == Block()
    ensures After(b, 56, Hash(0x38cc9913, 0x3ec45cdb, 0xf5702fdb, 0x101fd28f,
                              0x54cb266b, 0xe50e1b4f, 0x9f4787c3, 0x529e7d00))
  {
    hide After, WordIs, Block;
    Rounds48(b);
    Words48(b);
    var v := Hash(0x4172328d, 0xa14c14b0, 0x72ab4b91, 0x26628815, 0xfecf0bc6, 0xd57b94a9, 0xb7755da1, 0xa80f11f0);
    v := OneRound(b, 48, v, 0x19a4c116, 0xfb3e89cb);
    v := OneRound(b, 49, v, 0x1e376c08, 0xcc7617db);
    v := OneRound(b, 50, v, 0x2748774c, 0xb9e66c34);
    v := OneRound(b, 51, v, 0x34b0bcb5, 0xa9993667);
    v := OneRound(b, 52, v, 0x391c0cb3, 0x84badedd);
    v := OneRound(b, 53, v, 0x4ed8aa4a, 0xc21462bc);
    v := OneRound(b, 54, v, 0x5b9cca4f, 0x1487472c);
    v := OneRound(b, 55, v, 0x682e6ff3, 0xb20f7a99);
  }

  lemma Rounds64(b: seq<Byte>)
    requires b == Block()
    ensures After(b, 64, Hash(0x506e3058, 0xd39a2165, 0x04d24d6c, 0xb85e2ce9,
                              0x5ef50f24, 0xfb121210, 0x948d25b6, 0x961f4894))
  {
    hide After, WordIs, Block;
    Rounds56(b);
    Words56(b);
    var v := Hash(0x38cc9913, 0x3ec45cdb, 0xf5702fdb, 0x101fd28f, 0x54cb266b, 0xe50e1b4f, 0x9f4787c3, 0x529e7d00);
    v := OneRound(b, 56, v, 0x748f82ee, 0xef57b9cd);
    v := OneRound(b, 57, v, 0x78a5636f, 0xebe6b238);
    v := OneRound(b, 58, v, 0x84c87814, 0x9fe3095e);
    v := OneRound(b, 59, v, 0x8cc70208, 0x78bc8d4b);
    v := OneRound(b, 60, v, 0x90befffa, 0xa43fcf15);
    v := OneRound(b, 61, v, 0xa4506ceb, 0x668b2ff8);
    v := OneRound(b, 62, v, 0xbef9a3f7, 0xeeaba2cc);
    v := OneRound(b, 63, v, 0xc67178f2, 0x12b1edeb);
  }

  /** The hash of the letters. */
  lemma HashOfLetters()
    ensures HashOf(LETTERS) == Hash(0xba7816bf, 0x8f01cfea, 0x414140de, 0x5dae2223,
                                    0xb00361a3, 0x96177a9c, 0xb410ff61, 0xf20015ad)
  {
    PaddedLetters();
    OneBlock(Block());
    Rounds64(Block());
    hide Block, Rounds, Pad;
  }

  lemma OneBlock(b: seq<Byte>)
    requires |b| == 64
    ensures Blocks(b) == Plus(Initial, Rounds(Initial, b, 64))
  {
    hide Rounds, Plus;
    assert b[..0] == [] && b[0..] == b;
  }

  /** The digest of "abc", as in appendix B.1 of FIPS 180-2. */
  lemma DigestOfLetters(digest: seq<Byte>)
    ensures IsDigest(digest, HashOf(LETTERS)) <==>
      digest ==
        [0xba, 0x78, 0x16, 0xbf, 0x8f, 0x01, 0xcf, 0xea, 0x41, 0x41, 0x40, 0xde, 0x5d, 0xae, 0x22, 0x23]
      + [0xb0, 0x03, 0x61, 0xa3, 0x96, 0x17, 0x7a, 0x9c, 0xb4, 0x10, 0xff, 0x61, 0xf2, 0x00, 0x15, 0xad]
  {
    HashOfLetters();
    hide HashOf;
    var known: seq<Byte> :=
      [0xba, 0x78, 0x16, 0xbf, 0x8f, 0x01, 0xcf, 0xea, 0x41, 0x41, 0x40, 0xde, 0x5d, 0xae, 0x22, 0x23]
      + [0xb0, 0x03, 0x61, 0xa3, 0x96, 0x17, 0x7a, 0x9c, 0xb4, 0x10, 0xff, 0x61, 0xf2, 0x00, 0x15, 0xad];
    assert IsDigest(known, HashOf(LETTERS));
    if IsDigest(digest, HashOf(LETTERS)) { DigestUnique(digest, known, HashOf(LETTERS)); }
  }
}
