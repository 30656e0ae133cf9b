/** The streaming SHA-256 that names assets (src/sha256.c), after FIPS 180-4. */
module Sha256 {

  type Byte = bv8
  type Word = bv32

  datatype Hash = Hash(a: Word, b: Word, c: Word, d: Word, e: Word, f: Word, g: Word, h: Word)

  // ----- The standard: sections 4.1.2, 4.2.2, 5.1.1, 5.3.3 and 6.2.2 -----

  /** Addition modulo 2^32. */
  function Add(x: Word, y: Word): Word { x + y }

  function RotR(x: Word, n: bv6): Word
    requires 0 < n < 32
  {
    (x >> n) | (x << (32 - n))
  }

  function Ch(x: Word, y: Word, z: Word): Word { (x & y) ^ (!x & z) }

  function Maj(x: Word, y: Word, z: Word): Word { (x & y) ^ (x & z) ^ (y & z) }

  function Sum0(x: Word): Word { RotR(x, 2) ^ RotR(x, 13) ^ RotR(x, 22) }

  function Sum1(x: Word): Word { RotR(x, 6) ^ RotR(x, 11) ^ RotR(x, 25) }

  function Sigma0(x: Word): Word { RotR(x, 7) ^ RotR(x, 18) ^ (x >> 3) }

  function Sigma1(x: Word): Word { RotR(x, 17) ^ RotR(x, 19) ^ (x >> 10) }

  /** The round constants. */
  function K(): (k: seq<Word>)
    ensures |k| == 64
  {
    [0x428a2f98, 0x71374491, 0xb5c0fbcf, 0xe9b5dba5, 0x3956c25b, 0x59f111f1, 0x923f82a4, 0xab1c5ed5]
    + [0xd807aa98, 0x12835b01, 0x243185be, 0x550c7dc3, 0x72be5d74, 0x80deb1fe, 0x9bdc06a7, 0xc19bf174]
    + [0xe49b69c1, 0xefbe4786, 0x0fc19dc6, 0x240ca1cc, 0x2de92c6f, 0x4a7484aa, 0x5cb0a9dc, 0x76f988da]
    + [0x983e5152, 0xa831c66d, 0xb00327c8, 0xbf597fc7, 0xc6e00bf3, 0xd5a79147, 0x06ca6351, 0x14292967]
    + [0x27b70a85, 0x2e1b2138, 0x4d2c6dfc, 0x53380d13, 0x650a7354, 0x766a0abb, 0x81c2c92e, 0x92722c85]
    + [0xa2bfe8a1, 0xa81a664b, 0xc24b8b70, 0xc76c51a3, 0xd192e819, 0xd6990624, 0xf40e3585, 0x106aa070]
    + [0x19a4c116, 0x1e376c08, 0x2748774c, 0x34b0bcb5, 0x391c0cb3, 0x4ed8aa4a, 0x5b9cca4f, 0x682e6ff3]
    + [0x748f82ee, 0x78a5636f, 0x84c87814, 0x8cc70208, 0x90befffa, 0xa4506ceb, 0xbef9a3f7, 0xc67178f2]
  }

  const Initial := Hash(0x6a09e667, 0xbb67ae85, 0x3c6ef372, 0xa54ff53a, 0x510e527f, 0x9b05688c, 0x1f83d9ab, 0x5be0cd19)

  function BigEndian(b0: Byte, b1: Byte, b2: Byte, b3: Byte): Word {
    ((b0 as Word) << 24) | ((b1 as Word) << 16) | ((b2 as Word) << 8) | (b3 as Word)
  }

  /** Word t of the message schedule of a block. */
  function Schedule(block: seq<Byte>, t: nat): Word
    requires |block| == 64
  {
    if t < 16 then BigEndian(block[4 * t], block[4 * t + 1], block[4 * t + 2], block[4 * t + 3])
    else Add(Add(Add(Sigma1(Schedule(block, t - 2)), Schedule(block, t - 7)), Sigma0(Schedule(block, t - 15))),
             Schedule(block, t - 16))
  }

  function Round(v: Hash, k: Word, w: Word): Hash {
    var t1 := Add(Add(Add(Add(v.h, Sum1(v.e)), Ch(v.e, v.f, v.g)), k), w);
    var t2 := Add(Sum0(v.a), Maj(v.a, v.b, v.c));
    Hash(Add(t1, t2), v.a, v.b, v.c, Add(v.d, t1), v.e, v.f, v.g)
  }

  /** The working variables after t rounds. */
  function Rounds(start: Hash, block: seq<Byte>, t: nat): Hash
    requires |block| == 64 && t <= 64
  {
    if t == 0 then start else Round(Rounds(start, block, t - 1), K()[t - 1], Schedule(block, t - 1))
  }

  function Plus(x: Hash, y: Hash): Hash {
    Hash(Add(x.a, y.a), Add(x.b, y.b), Add(x.c, y.c), Add(x.d, y.d), Add(x.e, y.e), Add(x.f, y.f), Add(x.g, y.g),
         Add(x.h, y.h))
  }

  function Compress(start: Hash, block: seq<Byte>): Hash
    requires |block| == 64
  {
    Plus(start, Rounds(start, block, 64))
  }

  /** The hash after these whole blocks. */
  function Blocks(bytes: seq<Byte>): Hash
    requires |bytes| % 64 == 0
  {
    if bytes == [] then Initial else Compress(Blocks(bytes[..|bytes| - 64]), bytes[|bytes| - 64..])
  }

  function Zeros(n: nat): (zs: seq<Byte>)
    ensures |zs| == n
  {
    seq(n, i => 0)
  }

  /** A number below 2^64 in eight bytes, the highest first. */
  function LengthBytes(n: nat): (b: seq<Byte>)
    requires n < 0x1_0000_0000_0000_0000
    ensures |b| == 8
  {
    Spread(n as bv64)
  }

  function Spread(x: bv64): seq<Byte> {
    [((x >> 56) & 0xff) as Byte, ((x >> 48) & 0xff) as Byte, ((x >> 40) & 0xff) as Byte, ((x >> 32) & 0xff) as Byte,
     ((x >> 24) & 0xff) as Byte, ((x >> 16) & 0xff) as Byte, ((x >> 8) & 0xff) as Byte, (x & 0xff) as Byte]
  }

  /** The eight bytes are the number, the highest first. */
  lemma SpreadIs(x: bv64)
    ensures var b := Spread(x);
      |b| == 8 && x == ((b[0] as bv64) << 56) | ((b[1] as bv64) << 48) | ((b[2] as bv64) << 40) | ((b[3] as bv64) << 32)
        | ((b[4] as bv64) << 24) | ((b[5] as bv64) << 16) | ((b[6] as bv64) << 8) | (b[7] as bv64)
  {
  }

  /** So many zeros bring a message and a one bit to 56 modulo 64. */
  function ZeroCount(n: nat): (k: nat)
    ensures k < 64 && (n + 1 + k) % 64 == 56 && (n + 1 + k + 8) % 64 == 0
  {
    (119 - n % 64) % 64
  }

  function Pad(m: seq<Byte>): (padded: seq<Byte>)
    requires 8 * |m| < 0x1_0000_0000_0000_0000
    ensures |padded| % 64 == 0
  {
    m + [0x80] + Zeros(ZeroCount(|m|)) + LengthBytes(8 * |m|)
  }

  function HashOf(m: seq<Byte>): Hash
    requires 8 * |m| < 0x1_0000_0000_0000_0000
  {
    Blocks(Pad(m))
  }

  // ----- The forms in the program -----

  lemma ChIs(x: Word, y: Word, z: Word)
    ensures z ^ (x & (y ^ z)) == Ch(x, y, z)
  {
  }

  lemma MajIs(x: Word, y: Word, z: Word)
    ensures (x & (y | z)) | (y & z) == Maj(x, y, z)
  {
  }

  /** What a little-endian machine reads as a word. */
  function Loaded(b0: Byte, b1: Byte, b2: Byte, b3: Byte): Word {
    (b0 as Word) | ((b1 as Word) << 8) | ((b2 as Word) << 16) | ((b3 as Word) << 24)
  }

  /** BYTESWAP */
  function Swap(x: Word): Word {
    (RotR(x, 8) & 0xff00ff00) | (((x << 8) | (x >> 24)) & 0x00ff00ff)
  }

  lemma SwapIs(b0: Byte, b1: Byte, b2: Byte, b3: Byte)
    ensures Swap(Loaded(b0, b1, b2, b3)) == BigEndian(b0, b1, b2, b3)
  {
  }

  /** BYTESWAP64 */
  function Swap64(x: bv64): bv64 {
    ((Swap((x & 0xffff_ffff) as Word) as bv64) << 32) | (Swap(((x >> 32) & 0xffff_ffff) as Word) as bv64)
  }

  /** The bytes of a 64-bit number in the memory of a little-endian machine. */
  function Stored(x: bv64): (b: seq<Byte>)
    ensures |b| == 8
  {
    [(x & 0xff) as Byte, ((x >> 8) & 0xff) as Byte, ((x >> 16) & 0xff) as Byte, ((x >> 24) & 0xff) as Byte,
     ((x >> 32) & 0xff) as Byte, ((x >> 40) & 0xff) as Byte, ((x >> 48) & 0xff) as Byte, ((x >> 56) & 0xff) as Byte]
  }

  lemma StoredIs(x: bv64)
    ensures Stored(Swap64(x)) == Spread(x)
  {
  }

  /** DO_ROUND */
  method DoRound(v: Hash, k: Word, w: Word) returns (next: Hash)
    ensures next == Round(v, k, w)
  {
    hide Ch, Maj, Sum0, Sum1, Add;
    var Hash(a, b, c, d, e, f, g, h) := v;
    ChIs(e, f, g);
    MajIs(a, b, c);
    var t1 := Add(Add(Add(Add(h, Sum1(e)), g ^ (e & (f ^ g))), k), w);
    var t2 := Add(Sum0(a), (a & (b | c)) | (b & c));
    h := g;
    g := f;
    f := e;
    e := Add(d, t1);
    d := c;
    c := b;
    b := a;
    a := Add(t1, t2);
    next := Hash(a, b, c, d, e, f, g, h);
  }

  class Context {
    var totalLength: nat
    var hash: Hash
    const buffer: array<Byte>
    var bufferLength: nat

    /** This message has been taken in. */
    ghost predicate Holds(m: seq<Byte>)
      reads this, buffer
    {
      && buffer.Length == 64 && bufferLength < 64 && Taken(m, totalLength, hash, buffer[..bufferLength])
    }

    /** sha256_init() */
    constructor ()
      ensures Holds([]) && fresh(buffer)
    {
      totalLength, bufferLength, hash := 0, 0, Initial;
      buffer := new Byte[64];
      new;
      assert buffer[..bufferLength] == [];
    }

    /** SHA256Guts() on the buffer. */
    method Guts()
      requires buffer.Length == 64
      modifies this`hash
      ensures hash == Compress(old(hash), buffer[..])
    {
      hide *;
      ghost var block := buffer[..];
      var buf := new Word[64];
      var W := 0;
      for i := 0 to 16
        invariant W == i && hash == old(hash) && buffer[..] == block
        invariant forall t :: 0 <= t < i ==> buf[t] == Schedule(block, t)
      {
        FirstWord(block, i);
        buf[W] := Swap(Loaded(buffer[4 * i], buffer[4 * i + 1], buffer[4 * i + 2], buffer[4 * i + 3]));
        W := W + 1;
      }
      var W16, W15, W7, W2 := 0, 1, 9, 14;
      for i := 0 to 48
        invariant hash == old(hash) && W == 16 + i && W16 == i && W15 == 1 + i && W7 == 9 + i && W2 == 14 + i
        invariant forall t :: 0 <= t < 16 + i ==> buf[t] == Schedule(block, t)
      {
        NextWord(block, 16 + i);
        buf[W] := Add(Add(Add(Sigma1(buf[W2]), buf[W7]), Sigma0(buf[W15])), buf[W16]);
        W, W7, W16, W2, W15 := W + 1, W7 + 1, W16 + 1, W2 + 1, W15 + 1;
      }
      var v := hash;
      var k := K();
      NoRounds(v, block);
      W := 0;
      for i := 0 to 16
        invariant W == 4 * i && v == Rounds(hash, block, 4 * i) && hash == old(hash)
        invariant forall t :: 0 <= t < 64 ==> buf[t] == Schedule(block, t)
      {
        for j := 0 to 4
          invariant W == 4 * i + j && v == Rounds(hash, block, 4 * i + j) && hash == old(hash)
          invariant forall t :: 0 <= t < 64 ==> buf[t] == Schedule(block, t)
        {
          NextRound(hash, block, W);
          v := DoRound(v, k[W], buf[W]);
          W := W + 1;
        }
      }
      CompressIs(hash, block);
      hash := Plus(hash, v);
    }

    /** sha256_update(): whatever was taken in before, the buffer is filled and hashed as often as it gets full. */
    method Update(data: seq<Byte>, ghost m: seq<Byte>)
      requires Holds(m) && |data| < 0x1_0000_0000
      modifies this, buffer
      ensures Holds(m + data)
    {
      hide *;
      var pos := 0;
      assert m + data[..0] == m;
      while pos < |data|
        invariant pos <= |data| && Holds(m + data[..pos])
      {
        HoldsIs(m + data[..pos]);
        var bufferBytesLeft := 64 - bufferLength;
        var bytesToCopy := if bufferBytesLeft > |data| - pos then |data| - pos else bufferBytesLeft;
        ghost var part, chunk := buffer[..bufferLength], data[pos..pos + bytesToCopy];
        assert m + data[..pos] + chunk == m + data[..pos + bytesToCopy];
        CopyIn(buffer, bufferLength, data[pos..pos + bytesToCopy]);
        TakeMore(m + data[..pos], totalLength, hash, part, chunk);
        totalLength := (totalLength + 8 * bytesToCopy) % 0x1_0000_0000_0000_0000;
        bufferLength := bufferLength + bytesToCopy;
        pos := pos + bytesToCopy;
        if bufferLength == 64 {
          assert buffer[..] == part + chunk;
          Guts();
          bufferLength := 0;
          assert buffer[..0] == [];
        }
        HoldsIf(m + data[..pos]);
      }
      assert data[..|data|] == data;
    }

    lemma HoldsIs(m: seq<Byte>)
      requires Holds(m)
      ensures buffer.Length == 64 && bufferLength < 64 && Taken(m, totalLength, hash, buffer[..bufferLength])
    {
    }

    lemma HoldsIf(m: seq<Byte>)
      requires buffer.Length == 64 && bufferLength < 64 && Taken(m, totalLength, hash, buffer[..bufferLength])
      ensures Holds(m)
    {
    }

    /** sha256_final(): pads what was taken in, and gives the bytes of the hash. */
    method Final(ghost m: seq<Byte>) returns (digest: seq<Byte>)
      requires Holds(m) && 8 * |m| < 0x1_0000_0000_0000_0000
      modifies this, buffer
      ensures IsDigest(digest, HashOf(m))
    {
      hide *;
      HoldsIs(m);
      TakenIs(m, totalLength, hash, buffer[..bufferLength]);
      var bytesToPad := 120 - bufferLength;
      if bytesToPad > 64 { bytesToPad := bytesToPad - 64; }
      var lengthPad := Swap64(totalLength as bv64);
      ghost var padded := m + ([0x80] + Zeros(bytesToPad - 1));
      Update([0x80] + Zeros(bytesToPad - 1), m);
      Update(Stored(lengthPad), padded);
      PadIs(m, bytesToPad, lengthPad);
      HoldsIs(Pad(m));
      TakenWhole(Pad(m), totalLength, hash, buffer[..bufferLength]);
      digest := BytesOfHash(hash);
    }
  }

  /** The bytes of each word, the highest first. */
  method BytesOfHash(hash: Hash) returns (digest: seq<Byte>)
    ensures IsDigest(digest, hash)
  {
    hide WordAt, WordOf;
    digest := [];
    for i := 0 to 8
      invariant |digest| == 4 * i && forall j :: 0 <= j < i ==> WordAt(digest, j) == WordOf(hash, j)
    {
      var w := WordOf(hash, i);
      AppendWord(digest, w, i);
      digest := digest + [((w >> 24) & 0xff) as Byte, ((w >> 16) & 0xff) as Byte, ((w >> 8) & 0xff) as Byte,
                          (w & 0xff) as Byte];
    }
    assert IsDigest(digest, hash);
  }

  function WordOf(hash: Hash, j: nat): Word
    requires j < 8
  {
    [hash.a, hash.b, hash.c, hash.d, hash.e, hash.f, hash.g, hash.h][j]
  }

  lemma AppendWord(bytes: seq<Byte>, w: Word, n: nat)
    requires |bytes| == 4 * n
    ensures var more := bytes + [((w >> 24) & 0xff) as Byte, ((w >> 16) & 0xff) as Byte, ((w >> 8) & 0xff) as Byte,
                                 (w & 0xff) as Byte];
      WordAt(more, n) == w && forall j :: 0 <= j < n ==> WordAt(more, j) == WordAt(bytes, j)
  {
    hide BigEndian;
    BytesOf(w);
  }

  /** The state after a message: its bits, the hash of its whole blocks, and what comes after them. */
  ghost predicate Taken(m: seq<Byte>, total: nat, hash: Hash, part: seq<Byte>) {
    var rest := |m| % 64;
    total == BitCount(|m|) && hash == Blocks(m[..|m| - rest]) && part == m[|m| - rest..]
  }

  /** The length in bits, as far as 64 bits go. */
  function BitCount(n: nat): nat {
    8 * n % 0x1_0000_0000_0000_0000
  }

  lemma TakeMore(m: seq<Byte>, total: nat, hash: Hash, part: seq<Byte>, chunk: seq<Byte>)
    requires Taken(m, total, hash, part) && |part| + |chunk| <= 64
    ensures var t := (total + 8 * |chunk|) % 0x1_0000_0000_0000_0000;
      if |part| + |chunk| < 64 then Taken(m + chunk, t, hash, part + chunk)
      else Taken(m + chunk, t, Compress(hash, part + chunk), [])
  {
    hide *;
    var whole := TakenParts(m, total, hash, part);
    LengthSum(|m|, |chunk|);
    assert m + chunk == whole + (part + chunk);
    var t := (total + 8 * |chunk|) % 0x1_0000_0000_0000_0000;
    if |part| + |chunk| < 64 {
      IsTaken(m + chunk, t, hash, whole, part + chunk);
    } else {
      OneMoreBlock(whole, part + chunk);
      assert m + chunk == m + chunk + [];
      IsTaken(m + chunk, t, Compress(hash, part + chunk), m + chunk, []);
    }
  }

  lemma TakenParts(m: seq<Byte>, total: nat, hash: Hash, part: seq<Byte>) returns (whole: seq<Byte>)
    requires Taken(m, total, hash, part)
    ensures m == whole + part && |whole| % 64 == 0 && |part| < 64 && hash == Blocks(whole) && total == BitCount(|m|)
  {
    hide Blocks, BitCount;
    whole := m[..|m| - |m| % 64];
  }

  lemma IsTaken(m: seq<Byte>, total: nat, hash: Hash, whole: seq<Byte>, part: seq<Byte>)
    requires m == whole + part && |whole| % 64 == 0 && |part| < 64 && hash == Blocks(whole) && total == BitCount(|m|)
    ensures Taken(m, total, hash, part)
  {
    hide Blocks, BitCount;
    RestSum(|whole|, |part|);
    assert m[..|m| - |part|] == whole;
  }

  lemma OneMoreBlock(whole: seq<Byte>, block: seq<Byte>)
    requires |whole| % 64 == 0 && |block| == 64
    ensures |whole + block| % 64 == 0 && Blocks(whole + block) == Compress(Blocks(whole), block)
  {
    hide Compress;
    var all := whole + block;
    assert all[..|all| - 64] == whole && all[|all| - 64..] == block;
  }

  lemma LengthSum(a: nat, b: nat)
    ensures (BitCount(a) + 8 * b) % 0x1_0000_0000_0000_0000 == BitCount(a + b)
  {
  }

  lemma RestSum(a: nat, b: nat)
    requires a % 64 + b < 64
    ensures (a + b) % 64 == a % 64 + b
  {
  }

  lemma TakenIs(m: seq<Byte>, total: nat, hash: Hash, part: seq<Byte>)
    requires Taken(m, total, hash, part)
    ensures total == 8 * |m| % 0x1_0000_0000_0000_0000 && |part| == |m| % 64
  {
  }

  lemma TakenWhole(m: seq<Byte>, total: nat, hash: Hash, part: seq<Byte>)
    requires Taken(m, total, hash, part) && |m| % 64 == 0
    ensures hash == Blocks(m)
  {
    assert m[..|m|] == m;
  }

  /** The padding of the program, with the length behind it, is that of the standard. */
  lemma PadIs(m: seq<Byte>, toPad: nat, lengthPad: bv64)
    requires 8 * |m| < 0x1_0000_0000_0000_0000 && toPad == if |m| % 64 < 56 then 56 - |m| % 64 else 120 - |m| % 64
    requires lengthPad == Swap64((8 * |m|) as bv64)
    ensures m + ([0x80] + Zeros(toPad - 1)) + Stored(lengthPad) == Pad(m) && |Pad(m)| % 64 == 0
        && HashOf(m) == Blocks(Pad(m))
  {
    hide *;
    ZeroCountIs(|m|);
    StoredIs((8 * |m|) as bv64);
    PadParts(m);
    assert m + ([0x80] + Zeros(toPad - 1)) == m + [0x80] + Zeros(toPad - 1);
  }

  lemma ZeroCountIs(n: nat)
    ensures ZeroCount(n) == if n % 64 < 56 then 55 - n % 64 else 119 - n % 64
  {
  }

  lemma PadParts(m: seq<Byte>)
    requires 8 * |m| < 0x1_0000_0000_0000_0000
    ensures Pad(m) == m + [0x80] + Zeros(ZeroCount(|m|)) + Spread((8 * |m|) as bv64) && HashOf(m) == Blocks(Pad(m))
  {
    hide Spread, Blocks, Zeros, ZeroCount;
  }

  /** Word j of a sequence of bytes, the highest byte first. */
  function WordAt(bytes: seq<Byte>, j: nat): Word
    requires 4 * j + 4 <= |bytes|
  {
    BigEndian(bytes[4 * j], bytes[4 * j + 1], bytes[4 * j + 2], bytes[4 * j + 3])
  }

  /** The bytes of the eight words of a hash. */
  ghost predicate IsDigest(bytes: seq<Byte>, hash: Hash) {
    |bytes| == 32 && forall j :: 0 <= j < 8 ==> WordAt(bytes, j) == WordOf(hash, j)
  }

  lemma BytesOf(w: Word)
    ensures BigEndian(((w >> 24) & 0xff) as Byte, ((w >> 16) & 0xff) as Byte, ((w >> 8) & 0xff) as Byte,
                      (w & 0xff) as Byte) == w
  {
  }

  /** memcpy() */
  method CopyIn(buffer: array<Byte>, at: nat, bytes: seq<Byte>)
    requires at + |bytes| <= buffer.Length
    modifies buffer
    ensures buffer[..at + |bytes|] == old(buffer[..at]) + bytes
  {
    forall i | 0 <= i < |bytes| { buffer[at + i] := bytes[i]; }
  }

  /** The digest of a message that comes in pieces is that of the whole, wherever it is cut. */
  method DigestOf(pieces: seq<seq<Byte>>) returns (digest: seq<Byte>)
    requires forall i :: 0 <= i < |pieces| ==> |pieces[i]| < 0x1_0000_0000
    requires 8 * |Joined(pieces)| < 0x1_0000_0000_0000_0000
    ensures IsDigest(digest, HashOf(Joined(pieces)))
  {
    hide *;
    var context := new Context();
    JoinedNone();
    for i := 0 to |pieces|
      invariant fresh(context) && fresh(context.buffer) && context.Holds(Joined(pieces[..i]))
    {
      JoinedNext(pieces, i);
      context.Update(pieces[i], Joined(pieces[..i]));
    }
    assert pieces[..|pieces|] == pieces;
    digest := context.Final(Joined(pieces));
  }

  function Joined(pieces: seq<seq<Byte>>): seq<Byte> {
    if pieces == [] then [] else Joined(pieces[..|pieces| - 1]) + pieces[|pieces| - 1]
  }

  lemma JoinedNone()
    ensures Joined([]) == []
  {
  }

  lemma JoinedNext(pieces: seq<seq<Byte>>, i: nat)
    requires i < |pieces|
    ensures Joined(pieces[..i + 1]) == Joined(pieces[..i]) + pieces[i]
  {
    assert pieces[..i + 1][..i] == pieces[..i];
  }

  /** A hash has one digest. */
  lemma DigestUnique(a: seq<Byte>, b: seq<Byte>, hash: Hash)
    requires IsDigest(a, hash) && IsDigest(b, hash)
    ensures a == b
  {
    hide WordAt, WordOf;
    forall i | 0 <= i < 32 ensures a[i] == b[i] {
      assert WordAt(a, i / 4) == WordOf(hash, i / 4) == WordAt(b, i / 4);
      SameWord(a, b, i / 4);
      assert i == 4 * (i / 4) + i % 4;
    }
  }

  lemma SameWord(a: seq<Byte>, b: seq<Byte>, j: nat)
    requires 4 * j + 4 <= |a| == |b| && WordAt(a, j) == WordAt(b, j)
    ensures a[4 * j] == b[4 * j] && a[4 * j + 1] == b[4 * j + 1] && a[4 * j + 2] == b[4 * j + 2]
        && a[4 * j + 3] == b[4 * j + 3]
  {
    hide BigEndian;
    SameBytes(a[4 * j], a[4 * j + 1], a[4 * j + 2], a[4 * j + 3], b[4 * j], b[4 * j + 1], b[4 * j + 2], b[4 * j + 3]);
  }

  lemma SameBytes(a0: Byte, a1: Byte, a2: Byte, a3: Byte, b0: Byte, b1: Byte, b2: Byte, b3: Byte)
    requires BigEndian(a0, a1, a2, a3) == BigEndian(b0, b1, b2, b3)
    ensures a0 == b0 && a1 == b1 && a2 == b2 && a3 == b3
  {
  }

  lemma FirstWord(block: seq<Byte>, t: nat)
    requires |block| == 64 && t < 16
    ensures Schedule(block, t) == Swap(Loaded(block[4 * t], block[4 * t + 1], block[4 * t + 2], block[4 * t + 3]))
  {
    hide BigEndian, Swap, Loaded;
    SwapIs(block[4 * t], block[4 * t + 1], block[4 * t + 2], block[4 * t + 3]);
  }

  lemma NextWord(block: seq<Byte>, t: nat)
    requires |block| == 64 && 16 <= t
    ensures Schedule(block, t)
         == Add(Add(Add(Sigma1(Schedule(block, t - 2)), Schedule(block, t - 7)), Sigma0(Schedule(block, t - 15))),
             Schedule(block, t - 16))
  {
    hide Sigma0, Sigma1, Add;
  }

  lemma NoRounds(start: Hash, block: seq<Byte>)
    requires |block| == 64
    ensures Rounds(start, block, 0) == start
  {
  }

  lemma NextRound(start: Hash, block: seq<Byte>, t: nat)
    requires |block| == 64 && t < 64
    ensures Rounds(start, block, t + 1) == Round(Rounds(start, block, t), K()[t], Schedule(block, t))
  {
    hide Round, K, Schedule;
  }

  lemma CompressIs(start: Hash, block: seq<Byte>)
    requires |block| == 64
    ensures Compress(start, block) == Plus(start, Rounds(start, block, 64))
  {
  }
}
