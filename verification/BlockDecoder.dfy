/** jpgd's decoding of one block into coefficient storage that still holds an earlier block. */
module BlockDecoder {
  import opened Bits
  import opened Coefficients
  import opened BitReader
  import opened HuffTables
  import opened HuffDecoder
  import opened BlockEncoder

  // ----- What a sequence of AC symbols means -----

  /** A symbol of the AC code with its extra bits. */
  datatype AcSymbol = AcSymbol(run: nat, size: nat, extra: nat)

  /** How far a block has been decoded: coefficients before k are known, all others zero. */
  datatype Progress = Going(k: nat, zz: seq<int>) | Done(k: nat, zz: seq<int>) | Failed

  function AcStep(k: nat, zz: seq<int>, s: AcSymbol, q: seq<int>): (after: Progress)
    requires k < 64 == |zz| == |q|
    ensures !after.Failed? ==> |after.zz| == 64 && after.k <= 64
  {
    if s.size != 0 then
      if k + s.run > 63 then Failed
      else Going(k + s.run + 1, zz[k + s.run := Int16(Extend(s.extra, s.size) * q[k + s.run])])
    else if s.run == 15 then
      if k + 16 > 64 then Failed else Going(k + 16, zz)
    else Done(k, zz)
  }

  /** A cleared block after the symbols. */
  function AcRun(symbols: seq<AcSymbol>, q: seq<int>): (after: Progress)
    requires |q| == 64
    ensures !after.Failed? ==> |after.zz| == 64 && after.k <= 64
  {
    if symbols == [] then Going(1, seq(64, _ => 0))
    else
      var before := AcRun(symbols[..|symbols| - 1], q);
      if before.Going? && before.k < 64 then AcStep(before.k, before.zz, symbols[|symbols| - 1], q) else before
  }

  lemma RunNext(symbols: seq<AcSymbol>, s: AcSymbol, q: seq<int>)
    requires |q| == 64
    ensures var before := AcRun(symbols, q); var after := AcRun(symbols + [s], q);
      before.Going? && before.k < 64 ==> after == AcStep(before.k, before.zz, s, q)
  {
    assert (symbols + [s])[..|symbols|] == symbols;
  }

  // ----- Stale coefficients -----

  /** The storage z, in zig-zag order, holds the coefficients zz before k, and zeros from prev on; in between it may
    * still hold an earlier block. */
  ghost predicate Partly(z: seq<int>, zz: seq<int>, k: nat, prev: nat) {
    && |z| == |zz| == 64 && 1 <= k
    && (forall j :: 1 <= j < k && j < 64 ==> z[j] == zz[j])
    && (forall j :: k <= j < 64 && prev <= j ==> z[j] == 0)
    && (forall j :: k <= j < 64 ==> zz[j] == 0)
  }

  /** All AC coefficients from n on are zero. */
  ghost predicate ZeroFrom(z: seq<int>, n: nat) {
    |z| == 64 && forall j :: n <= j < 64 && 1 <= j ==> z[j] == 0
  }

  /** The storage with coefficients k up to n cleared. */
  function Cleared(z: seq<int>, k: nat, n: nat): (c: seq<int>)
    requires |z| == 64
    ensures |c| == 64
  {
    seq(64, j requires 0 <= j < 64 => if k <= j < n then 0 else z[j])
  }

  lemma ClearedRun(z: seq<int>, zz: seq<int>, k: nat, prev: nat, n: nat, k': nat)
    requires Partly(z, zz, k, prev) && k <= k' <= 64 && (n == k' || prev <= n <= k')
    ensures Partly(Cleared(z, k, n), zz, k', prev)
  {
  }

  lemma NothingToClear(z: seq<int>, zz: seq<int>, k: nat, prev: nat, k': nat)
    requires Partly(z, zz, k, prev) && prev <= k <= k' <= 64
    ensures Partly(z, zz, k', prev)
  {
  }

  lemma CoefficientSet(z: seq<int>, zz: seq<int>, k: nat, prev: nat, v: int)
    requires Partly(z, zz, k, prev) && k < 64
    ensures Partly(z[k := v], zz[k := v], k + 1, prev)
  {
  }

  /** Storing at g_ZAG[k] sets coefficient k. */
  lemma StoreZag(p: seq<int>, k: nat, v: int)
    requires |p| == 64 && k < 64
    ensures |G_ZAG| == 64 && G_ZAG[k] < 64
    ensures ZigZagged(p[G_ZAG[k] := v]) == ZigZagged(p)[k := v]
    ensures ZigZagged(p)[k] == p[G_ZAG[k]]
  {
    ZigZagInverse();
    hide G_ZAG, TJEI_ZIG_ZAG;
    forall j | 0 <= j < 64 ensures p[G_ZAG[k] := v][G_ZAG[j]] == ZigZagged(p)[k := v][j] {
      assert TJEI_ZIG_ZAG[G_ZAG[j]] == j && TJEI_ZIG_ZAG[G_ZAG[k]] == k;
    }
  }

  method Store(p: array<int>, k: nat, v: int)
    requires p.Length == 64 && k < 64
    modifies p
    ensures ZigZagged(p[..]) == ZigZagged(old(p[..]))[k := v]
  {
    StoreZag(p[..], k, v);
    hide *;
    ghost var was, at := p[..], G_ZAG[k];
    p[G_ZAG[k]] := v;
    assert p[..] == was[at := v];
  }

  /** Clears coefficients k up to n. */
  method Clear(p: array<int>, k: nat, n: nat)
    requires p.Length == 64 && k <= n <= 64
    modifies p
    ensures ZigZagged(p[..]) == Cleared(ZigZagged(old(p[..])), k, n)
  {
    hide ZigZagged;
    ghost var z := ZigZagged(p[..]);
    var kt := k;
    while kt < n
      invariant k <= kt <= n && ZigZagged(p[..]) == Cleared(z, k, kt)
    {
      Store(p, kt, 0);
      kt := kt + 1;
    }
  }

  /** The source's clearing of at most r stale coefficients before a step from k to k + r. */
  method ClearRun(p: array<int>, k: nat, r: nat, prev: nat, ghost zz: seq<int>)
    requires p.Length == 64 && k + r <= 64 && prev <= 64 && Partly(ZigZagged(p[..]), zz, k, prev)
    modifies p
    ensures Partly(ZigZagged(p[..]), zz, k + r, prev)
    ensures ZigZagged(p[..])[0] == old(ZigZagged(p[..])[0])
  {
    PartlyFacts(ZigZagged(p[..]), zz, k, prev);
    ghost var z := ZigZagged(p[..]);
    hide ZigZagged, Partly;
    if k < prev {
      var n := if r < prev - k then r else prev - k;
      Clear(p, k, k + n);
      ClearedRun(z, zz, k, prev, k + n, k + r);
    } else {
      NothingToClear(z, zz, k, prev, k + r);
    }
  }

  // ----- The AC loop -----

  lemma PartlyFacts(z: seq<int>, zz: seq<int>, k: nat, prev: nat)
    requires Partly(z, zz, k, prev)
    ensures |z| == |zz| == 64 && 1 <= k
    ensures forall j :: 1 <= j < k && j < 64 ==> z[j] == zz[j]
    ensures forall j :: k <= j < 64 ==> zz[j] == 0
  {
  }

  /** Places what one AC symbol says; false where the source stops decoding. */
  method PlaceSymbol(p: array<int>, s: AcSymbol, k: nat, q: seq<int>, prev: nat, ghost zz: seq<int>)
    returns (ok: bool, next: bool, k': nat)
    requires p.Length == 64 == |q| && 1 <= k < 64 && prev <= 64 && Partly(ZigZagged(p[..]), zz, k, prev) && |zz| == 64
    modifies p
    ensures var after := AcStep(k, zz, s, q);
      && (ok <==> !after.Failed?)
      && (ok ==> (next <==> after.Going?) && k' == after.k && Partly(ZigZagged(p[..]), after.zz, k', prev))
    ensures ZigZagged(p[..])[0] == old(ZigZagged(p[..])[0])
  {
    PartlyFacts(ZigZagged(p[..]), zz, k, prev);
    hide ZigZagged, Partly, Int16, Extend;
    k' := k;
    if s.size != 0 {
      if s.run != 0 {
        if k + s.run > 63 { return false, false, k; }
        ClearRun(p, k, s.run, prev, zz);
        k' := k' + s.run;
      }
      if k' >= 64 { return false, false, k'; }
      PartlyFacts(ZigZagged(p[..]), zz, k', prev);
      var v := Int16(Extend(s.extra, s.size) * q[k']);
      CoefficientSet(ZigZagged(p[..]), zz, k', prev, v);
      Store(p, k', v);
      return true, true, k' + 1;
    } else if s.run == 15 {
      if k + 16 > 64 { return false, false, k; }
      ClearRun(p, k, 16, prev, zz);
      k' := k' + 15;
      LastOfRun(p[..], zz, k', prev);
      if p[G_ZAG[k' % 64]] != 0 { return false, false, k'; }
      return true, true, k' + 1;
    }
    return true, false, k;
  }

  /** The source's check of the last coefficient of a run of sixteen never fires. */
  lemma LastOfRun(p: seq<int>, zz: seq<int>, k: nat, prev: nat)
    requires |p| == 64 && k < 64 && k >= 1 && Partly(ZigZagged(p), zz, k + 1, prev) && zz[k] == 0
    ensures |G_ZAG| == 64 && k % 64 == k && G_ZAG[k] < 64 && p[G_ZAG[k]] == 0
  {
    hide G_ZAG;
    StoreZag(p, k, 0);
  }

  // ----- Following an encoder -----

  /** The dequantised AC coefficients before k, and zeros. */
  ghost function Expected(du: seq<int>, q: seq<int>, k: nat): (zz: seq<int>)
    requires |du| == |q| == 64
    ensures |zz| == 64
  {
    seq(64, j requires 0 <= j < 64 => if 1 <= j < k then Int16(du[j] * q[j]) else 0)
  }

  lemma ExpectedNext(du: seq<int>, q: seq<int>, k: nat, r: nat)
    requires |du| == |q| == 64 && 1 <= k && k + r < 64 && forall j :: k <= j < k + r ==> du[j] == 0
    ensures Expected(du, q, k + r + 1) == Expected(du, q, k)[k + r := Int16(du[k + r] * q[k + r])]
  {
    hide Int16;
    IntZero();
    forall j | k <= j < k + r ensures Int16(du[j] * q[j]) == 0 { ZeroTimes(du[j], q[j]); }
  }

  lemma ZeroTimes(x: int, y: int)
    requires x == 0
    ensures x * y == 0
  {
  }

  lemma IntZero()
    ensures Int16(0) == 0
  {
  }

  lemma ExpectedZeros(du: seq<int>, q: seq<int>, k: nat, k': nat)
    requires |du| == |q| == 64 && 1 <= k <= k' <= 64 && forall j :: k <= j < k' ==> du[j] == 0
    ensures Expected(du, q, k') == Expected(du, q, k)
  {
    hide Int16;
    IntZero();
    forall j | k <= j < k' ensures Int16(du[j] * q[j]) == 0 { ZeroTimes(du[j], q[j]); }
  }

  /** The first symbol of what is left of an encoded block, its extra bits, and what follows. */
  lemma FirstSymbol(ac: Book, du: seq<int>, q: seq<int>, k: nat, more: BitString)
    returns (s: nat, e: BitString, more': BitString)
    requires ListsAc(ac) && AcInRange(du) && 1 <= k < 64 == |q|
    ensures s < 256 && Lists(ac, s) && |e| == s % 16 && AcBits(ac, du, k) + more == Word(ac, s) + e + more'
    ensures var after := AcStep(k, Expected(du, q, k), AcSymbol(s / 16, s % 16, Val(e)), q);
      && (after.Going? || after.Done?)
      && (after.Going? ==>
          k < after.k && after.zz == Expected(du, q, after.k) && more' == AcBits(ac, du, after.k) + more)
      && (after.Done? ==> after.zz == Expected(du, q, 64) && more' == more)
  {
    var run := ZeroRun(du, k);
    assert |du| == 64;
    hide *;
    if k + run == 64 {
      EndSymbol(ac, du, k, more);
      s, e, more' := EOB, [], more;
      StepRuns(k, Expected(du, q, k), q);
      ExpectedZeros(du, q, k, 64);
    } else if run >= 16 {
      ZerosSymbol(ac, du, k, more);
      s, e, more' := ZRL, [], AcBits(ac, du, k + 16) + more;
      StepRuns(k, Expected(du, q, k), q);
      ExpectedZeros(du, q, k, k + 16);
    } else {
      s, e, more' := FirstCoefficient(ac, du, q, k, run, more);
    }
  }

  /** Nothing but zeros is left. */
  lemma EndSymbol(ac: Book, du: seq<int>, k: nat, more: BitString)
    requires ListsAc(ac) && AcInRange(du) && 1 <= k < 64 && k + ZeroRun(du, k) == 64
    ensures |du| == 64 && EOB == 0 && Lists(ac, EOB) && AcBits(ac, du, k) + more == Word(ac, EOB) + [] + more
  {
    assert |du| == 64;
    hide AcInRange, Lists, Word;
    assert AcBits(ac, du, k) == Word(ac, EOB);
    hide AcBits;
    NoExtraBits(Word(ac, EOB), [], more);
    assert Word(ac, EOB) + [] == Word(ac, EOB) && [] + more == more;
  }

  lemma NoExtraBits(w: BitString, a: BitString, b: BitString)
    ensures w + a + b == w + [] + (a + b)
  {
  }

  /** Sixteen zeros come first. */
  lemma ZerosSymbol(ac: Book, du: seq<int>, k: nat, more: BitString)
    requires ListsAc(ac) && AcInRange(du) && 1 <= k < 64 && 16 <= ZeroRun(du, k) < 64 - k
    ensures |du| == 64 && ZRL == 0xF0 && Lists(ac, ZRL)
    ensures AcBits(ac, du, k) + more == Word(ac, ZRL) + [] + (AcBits(ac, du, k + 16) + more)
  {
    assert |du| == 64;
    hide AcInRange, Lists, Word;
    assert AcBits(ac, du, k) == Word(ac, ZRL) + AcBits(ac, du, k + 16);
    hide AcBits;
    NoExtraBits(Word(ac, ZRL), AcBits(ac, du, k + 16), more);
  }

  /** The symbols without a coefficient. */
  lemma StepRuns(k: nat, zz: seq<int>, q: seq<int>)
    requires k < 64 == |zz| == |q|
    ensures AcStep(k, zz, AcSymbol(0, 0, Val([])), q) == Done(k, zz)
    ensures k + 16 <= 64 ==> AcStep(k, zz, AcSymbol(15, 0, Val([])), q) == Going(k + 16, zz)
  {
    hide Extend, Int16;
  }

  lemma FirstCoefficient(ac: Book, du: seq<int>, q: seq<int>, k: nat, run: nat, more: BitString)
    returns (s: nat, e: BitString, more': BitString)
    requires ListsAc(ac) && AcInRange(du) && 1 <= k && k + run < 64 == |q| && run < 16 && run == ZeroRun(du, k)
    ensures s < 256 && Lists(ac, s) && |e| == s % 16 && AcBits(ac, du, k) + more == Word(ac, s) + e + more'
    ensures AcStep(k, Expected(du, q, k), AcSymbol(s / 16, s % 16, Val(e)), q)
            == Going(k + run + 1, Expected(du, q, k + run + 1))
    ensures more' == AcBits(ac, du, k + run + 1) + more
  {
    var v := du[k + run];
    var c := BitLen(Abs(v));
    CoefficientFirst(ac, du, k, run);
    ExpectedNext(du, q, k, run);
    assert |du| == 64 && v != 0;
    hide *;
    AmplitudeFits(v);
    CoefficientBitsAre(ac, run, v);
    s, e, more' := 16 * run + c, Enc(Amplitude(v), c), AcBits(ac, du, k + run + 1) + more;
    SymbolParts(run, c);
    Reassociate(Word(ac, s), e, AcBits(ac, du, k + run + 1), more);
    ValEnc(Amplitude(v), c);
    ExtendInverts(v);
    StepCoefficient(k, Expected(du, q, k), run, c, Val(e), q);
  }

  lemma CoefficientFirst(ac: Book, du: seq<int>, k: nat, run: nat)
    requires ListsAc(ac) && AcInRange(du) && 1 <= k && k + run < 64 && run < 16 && run == ZeroRun(du, k)
    ensures BitLen(Abs(du[k + run])) <= 10
    ensures AcBits(ac, du, k) == CoefficientBits(ac, run, du[k + run]) + AcBits(ac, du, k + run + 1)
  {
    hide CoefficientBits, Word, Lists, BitLen, Abs, ListsAc;
  }

  lemma StepCoefficient(k: nat, zz: seq<int>, run: nat, c: nat, x: nat, q: seq<int>)
    requires k + run < 64 == |zz| == |q| && c != 0
    ensures AcStep(k, zz, AcSymbol(run, c, x), q) == Going(k + run + 1, zz[k + run := Int16(Extend(x, c) * q[k + run])])
  {
    hide Int16, Extend;
  }

  lemma SymbolParts(run: nat, c: nat)
    requires run < 16 && c < 16
    ensures 16 * run + c < 256 && (16 * run + c) / 16 == run && (16 * run + c) % 16 == c
  {
  }

  lemma Reassociate(a: BitString, b: BitString, c: BitString, d: BitString)
    ensures (a + b) + c + d == a + b + (c + d)
  {
  }

  // ----- Decoding a block -----

  lemma WordOf(book: Book, codes: seq<BitString>, vals: seq<nat>, s: nat) returns (k: nat)
    requires BookOf(book, codes, vals) && Lists(book, s)
    ensures k < |codes| <= |vals| && vals[k] == s && codes[k] == Word(book, s)
  {
    assert s in vals[..|codes|];
    k :| 0 <= k < |codes| && vals[k] == s;
  }

  lemma SymbolDecoded(book: Book, codes: seq<BitString>, vals: seq<nat>, w: BitString, rest: seq<nat>, tem: bool,
                      sym: nat, extra: nat, w': BitString, rest': seq<nat>, tem': bool, s: nat, e: BitString,
                        more: BitString)
    requires Decoded(codes, vals, w, rest, tem, sym, extra, w', rest', tem') && BookOf(book, codes, vals)
    requires Lists(book, s) && |e| == s % 16 && Upcoming(w, rest, tem, Word(book, s) + e + more)
    ensures sym == s && extra == Val(e) && Upcoming(w', rest', tem', more)
  {
    hide BookOf, Lists, Word, Upcoming;
    var k := WordOf(book, codes, vals, s);
    assert Upcoming(w, rest, tem, codes[k] + e + more);
  }

  /** The reader is where an encoder was that has coded the same coefficients. */
  ghost predicate Following(r: Reader, ac: Book, du: seq<int>, q: seq<int>, more: BitString, p: Progress)
    reads r
  {
    && ListsAc(ac) && AcInRange(du) && |q| == 64
    && match p {
         case Going(k, zz) => 1 <= k <= 64 && zz == Expected(du, q, k) && r.Has(AcBits(ac, du, k) + more)
         case Done(k, zz) => zz == Expected(du, q, 64) && r.Has(more)
         case Failed => false
       }
  }

  method ReadAc(r: Reader, t: Tables, q: seq<int>, k: nat, ghost zz: seq<int>, ghost ac: Book, ghost du: seq<int>,
                ghost more: BitString)
    returns (s: AcSymbol)
    requires r.Valid() && t.Valid() && k < 64 == |q| == |zz|
    modifies r
    ensures r.Valid()
    ensures old(Following(r, ac, du, q, more, Going(k, zz))) && BookOf(ac, t.codes, t.vals) ==>
      Following(r, ac, du, q, more, AcStep(k, zz, s, q))
  {
    ghost var w, rest, tem := r.window, r.rest, r.temFlag;
    ghost var follows := Following(r, ac, du, q, more, Going(k, zz)) && BookOf(ac, t.codes, t.vals);
    ghost var has := Upcoming(w, rest, tem, AcBits'(ac, du, k) + more);
    assert follows ==> ListsAc(ac) && AcInRange(du) && 1 <= k && zz == Expected(du, q, k) && has;
    hide Following, Upcoming, Decoded, BookOf, ListsAc, AcInRange, AcBits', Expected, AcStep, Register, Entered;
    var sym, extra := HuffDecodeExtra(r, t);
    s := AcSymbol(sym / 16, sym % 16, extra);
    if follows {
      AfterSymbol(r, ac, du, q, k, more, t.codes, t.vals, w, rest, tem, sym, extra);
    }
  }

  /** What is left of the code of a block, for any arguments. */
  ghost function AcBits'(ac: Book, du: seq<int>, k: nat): BitString {
    if ListsAc(ac) && AcInRange(du) && 1 <= k <= 64 then AcBits(ac, du, k) else []
  }

  lemma AfterSymbol(r: Reader, ac: Book, du: seq<int>, q: seq<int>, k: nat, more: BitString,
                    codes: seq<BitString>, vals: seq<nat>, w: BitString, rest: seq<nat>, tem: bool, sym: nat,
                      extra: nat)
    requires BookOf(ac, codes, vals) && ListsAc(ac) && AcInRange(du) && 1 <= k < 64 == |q|
    requires Upcoming(w, rest, tem, AcBits'(ac, du, k) + more)
    requires Decoded(codes, vals, w, rest, tem, sym, extra, r.window, r.rest, r.temFlag)
    ensures Following(r, ac, du, q, more, AcStep(k, Expected(du, q, k), AcSymbol(sym / 16, sym % 16, extra), q))
  {
    hide Upcoming, Decoded, BookOf, ListsAc, AcInRange, AcBits, Expected, AcStep, Lists, Word, Val;
    var s, e, more' := FirstSymbol(ac, du, q, k, more);
    SymbolDecoded(ac, codes, vals, w, rest, tem, sym, extra, r.window, r.rest, r.temFlag, s, e, more');
  }

  // ----- The whole block -----

  /** The storage holds what the AC symbols say of a cleared block; coefficients from k on are zero. */
  ghost predicate Placed(z: seq<int>, symbols: seq<AcSymbol>, q: seq<int>, k: nat) {
    |z| == |q| == 64 &&
    var end := AcRun(symbols, q);
    && (end.Done? || (end.Going? && end.k == 64)) && k == end.k
    && (forall j :: 1 <= j < 64 ==> z[j] == end.zz[j])
    && ZeroFrom(z, k)
  }

  /** The state of the AC loop. */
  ghost predicate InBlock(z: seq<int>, symbols: seq<AcSymbol>, q: seq<int>, k: nat, prev: nat) {
    |q| == 64 && 1 <= k <= 64 &&
    var at := AcRun(symbols, q); !at.Failed? && at.k == k && Partly(z, at.zz, k, prev)
  }

  /** More symbols are to come. */
  ghost predicate Open(symbols: seq<AcSymbol>, q: seq<int>) {
    |q| == 64 && AcRun(symbols, q).Going?
  }

  lemma BlockStart(z: seq<int>, q: seq<int>, prev: nat)
    requires |q| == 64 && ZeroFrom(z, prev)
    ensures InBlock(z, [], q, 1, prev) && Open([], q)
  {
  }

  lemma BlockEnd(z: seq<int>, z': seq<int>, symbols: seq<AcSymbol>, q: seq<int>, k: nat, prev: nat)
    requires InBlock(z, symbols, q, k, prev) && (k == 64 || !Open(symbols, q)) && |z| == 64 && prev <= 64
    requires z' == if k < prev then Cleared(z, k, prev) else z
    ensures Placed(z', symbols, q, k)
  {
  }

  /** The reader is where an encoder was that has finished the block. */
  ghost predicate Ended(r: Reader, du: seq<int>, q: seq<int>, more: BitString, symbols: seq<AcSymbol>)
    reads r
  {
    |q| == |du| == 64 && !AcRun(symbols, q).Failed? && AcRun(symbols, q).zz == Expected(du, q, 64) && r.Has(more)
  }

  lemma FollowingEnds(r: Reader, ac: Book, du: seq<int>, q: seq<int>, more: BitString, symbols: seq<AcSymbol>)
    requires |q| == 64 && Following(r, ac, du, q, more, AcRun(symbols, q))
    requires !Open(symbols, q) || AcRun(symbols, q).k == 64
    ensures Ended(r, du, q, more, symbols)
  {
    hide AcRun, ListsAc, Expected;
    if Open(symbols, q) {
      assert AcBits(ac, du, 64) == [];
      assert [] + more == more;
    }
  }

  lemma FailedNotFollowing(r: Reader, ac: Book, du: seq<int>, q: seq<int>, more: BitString, symbols: seq<AcSymbol>)
    requires |q| == 64 && AcRun(symbols, q).Failed?
    ensures !Following(r, ac, du, q, more, AcRun(symbols, q))
  {
  }

  /** Decodes and places one AC symbol. */
  method DecodeSymbol(r: Reader, t: Tables, q: seq<int>, p: array<int>, k: nat, prev: nat, ghost symbols: seq<AcSymbol>,
                      ghost ac: Book, ghost du: seq<int>, ghost more: BitString)
    returns (ok: bool, next: bool, k': nat, ghost symbols': seq<AcSymbol>)
    requires r.Valid() && t.Valid() && |q| == 64 == p.Length && prev <= 64 && p != t.lookUp && p != t.lookUp2
        && p != t.tree
    requires k < 64 && Open(symbols, q) && InBlock(ZigZagged(p[..]), symbols, q, k, prev)
    modifies r, p
    ensures r.Valid() && t.Valid()
    ensures ok ==> InBlock(ZigZagged(p[..]), symbols', q, k', prev) && (next <==> Open(symbols', q))
    ensures ok && next ==> k < k'
    ensures !ok ==> AcRun(symbols', q).Failed?
    ensures ZigZagged(p[..])[0] == old(ZigZagged(p[..])[0])
    ensures old(Following(r, ac, du, q, more, AcRun(symbols, q))) && BookOf(ac, t.codes, t.vals) ==>
      Following(r, ac, du, q, more, AcRun(symbols', q))
  {
    hide *;
    ghost var zz := OpenBlock(ZigZagged(p[..]), symbols, q, k, prev);
    var s := ReadAc(r, t, q, k, zz, ac, du, more);
    symbols' := symbols + [s];
    ok, next, k' := PlaceSymbol(p, s, k, q, prev, zz);
    SymbolPlaced(ZigZagged(p[..]), symbols, s, q, k, zz, prev);
  }

  lemma OpenBlock(z: seq<int>, symbols: seq<AcSymbol>, q: seq<int>, k: nat, prev: nat) returns (zz: seq<int>)
    requires Open(symbols, q) && InBlock(z, symbols, q, k, prev)
    ensures |zz| == 64 && 1 <= k && AcRun(symbols, q) == Going(k, zz) && Partly(z, zz, k, prev)
  {
    hide AcRun, Partly;
    zz := AcRun(symbols, q).zz;
  }

  lemma SymbolPlaced(z: seq<int>, symbols: seq<AcSymbol>, s: AcSymbol, q: seq<int>, k: nat, zz: seq<int>, prev: nat)
    requires k < 64 == |q| == |zz| && AcRun(symbols, q) == Going(k, zz)
    ensures var after := AcStep(k, zz, s, q);
      && AcRun(symbols + [s], q) == after
      && (!after.Failed? && Partly(z, after.zz, after.k, prev) ==>
          InBlock(z, symbols + [s], q, after.k, prev) && (after.Going? <==> Open(symbols + [s], q)))
      && (after.Going? ==> k < after.k)
  {
    RunNext(symbols, s, q);
    hide AcRun, Int16, Extend;
  }

  /** Decodes the AC coefficients; false where the source stops decoding. */
  method DecodeAc(r: Reader, t: Tables, q: seq<int>, p: array<int>, prev: nat, ghost ac: Book, ghost du: seq<int>,
                  ghost more: BitString)
    returns (ok: bool, k: nat, ghost symbols: seq<AcSymbol>)
    requires r.Valid() && t.Valid() && |q| == 64 == p.Length && prev <= 64 && p != t.lookUp && p != t.lookUp2
        && p != t.tree
    requires ZeroFrom(ZigZagged(p[..]), prev)
    modifies r, p
    ensures r.Valid() && t.Valid()
    ensures ok ==> 1 <= k <= 64 && Placed(ZigZagged(p[..]), symbols, q, k)
    ensures !ok ==> AcRun(symbols, q).Failed?
    ensures ZigZagged(p[..])[0] == old(ZigZagged(p[..])[0])
    ensures old(Following(r, ac, du, q, more, AcRun([], q))) && BookOf(ac, t.codes, t.vals) ==>
      ok && Ended(r, du, q, more, symbols)
  {
    ghost var follows := Following(r, ac, du, q, more, AcRun([], q)) && BookOf(ac, t.codes, t.vals);
    BlockStart(ZigZagged(p[..]), q, prev);
    hide *;
    ok, k, symbols := true, 1, [];
    while k < 64
      invariant 1 <= k <= 64 && r.Valid() && t.Valid() && InBlock(ZigZagged(p[..]), symbols, q, k, prev)
          && Open(symbols, q)
      invariant ZigZagged(p[..])[0] == old(ZigZagged(p[..])[0])
      invariant follows ==> Following(r, ac, du, q, more, AcRun(symbols, q))
      decreases 64 - k
    {
      var next;
      ok, next, k, symbols := DecodeSymbol(r, t, q, p, k, prev, symbols, ac, du, more);
      if !ok {
        FailedNotFollowing(r, ac, du, q, more, symbols);
        return;
      }
      InBlockBounds(ZigZagged(p[..]), symbols, q, k, prev);
      if !next { break; }
    }
    InBlockBounds(ZigZagged(p[..]), symbols, q, k, prev);
    if follows { FollowingEnds(r, ac, du, q, more, symbols); }
    ghost var z := ZigZagged(p[..]);
    if k < prev {
      Clear(p, k, prev);
    }
    BlockEnd(z, ZigZagged(p[..]), symbols, q, k, prev);
    ClearedFirst(z, k, prev);
  }

  lemma ClearedFirst(z: seq<int>, k: nat, n: nat)
    requires |z| == 64 && 1 <= k
    ensures Cleared(z, k, n)[0] == z[0]
  {
  }

  lemma InBlockBounds(z: seq<int>, symbols: seq<AcSymbol>, q: seq<int>, k: nat, prev: nat)
    requires InBlock(z, symbols, q, k, prev)
    ensures 1 <= k <= 64 && AcRun(symbols, q).k == k
  {
  }

  // ----- With the DC coefficient -----

  /** The conversion of a sum to a 32-bit integer. */
  function Int32(x: int): (y: int)
    ensures -0x8000_0000 <= y < 0x8000_0000 && (x - y) % 0x1_0000_0000 == 0
    ensures -0x8000_0000 <= x < 0x8000_0000 ==> y == x
  {
    (x + 0x8000_0000) % 0x1_0000_0000 - 0x8000_0000
  }

  /** What an encoder can code: magnitudes of the baseline process, and tables that list every symbol for them. */
  ghost predicate Codable(dc: Book, ac: Book, pred: int, du: seq<int>) {
    && ListsDc(dc) && ListsAc(ac) && AcInRange(du) && BitLen(Abs(du[0] - pred)) <= 11
    && -0x8000_0000 <= du[0] < 0x8000_0000
  }

  /** The encoder's books and the decoder's tables are for the same codes. */
  ghost predicate SameCodes(dc: Book, ac: Book, dcTab: Tables, acTab: Tables)
    reads dcTab, acTab
  {
    BookOf(dc, dcTab.codes, dcTab.vals) && BookOf(ac, acTab.codes, acTab.vals)
  }

  /** The reader is at the code of this block. */
  ghost predicate AtBlock(r: Reader, dc: Book, ac: Book, pred: int, du: seq<int>, more: BitString)
    reads r
  {
    Codable(dc, ac, pred, du) && r.Has(BlockBits(dc, ac, pred, du) + more)
  }

  lemma DcDecoded(dc: Book, diff: int, rest: BitString)
    requires ListsDc(dc) && BitLen(Abs(diff)) <= 11
    ensures var c := BitLen(Abs(diff)); var e := Enc(Amplitude(diff), c);
      && c % 16 == c && Lists(dc, c) && |e| == c && DcBits(dc, diff) + rest == Word(dc, c) + e + rest
      && Extend(Val(e), c) == diff
  {
    hide *;
    DcBitsAre(dc, diff);
    DifferenceExtends(diff);
  }

  lemma DifferenceExtends(diff: int)
    requires BitLen(Abs(diff)) <= 11
    ensures Extend(Val(Enc(Amplitude(diff), BitLen(Abs(diff)))), BitLen(Abs(diff))) == diff
  {
    if diff == 0 {
      NoDifference();
      assert Val([]) == 0;
    } else {
      hide *;
      AmplitudeFits(diff);
      ExtendInverts(diff);
      ValEnc(Amplitude(diff), BitLen(Abs(diff)));
    }
  }

  /** The reader is at the code of this difference. */
  ghost predicate AtDc(r: Reader, dc: Book, diff: int, rest: BitString)
    reads r
  {
    ListsDc(dc) && BitLen(Abs(diff)) <= 11 && r.Has(DcBits(dc, diff) + rest)
  }

  method ReadDc(r: Reader, t: Tables, ghost dc: Book, ghost diff: int, ghost rest: BitString) returns (ok: bool, s: int)
    requires r.Valid() && t.Valid()
    modifies r
    ensures r.Valid()
    ensures old(AtDc(r, dc, diff, rest)) && BookOf(dc, t.codes, t.vals) ==> ok && s == diff && r.Has(rest)
  {
    ghost var w, bytes, tem := r.window, r.rest, r.temFlag;
    ghost var follows := AtDc(r, dc, diff, rest) && BookOf(dc, t.codes, t.vals);
    assert follows ==> ListsDc(dc) && BitLen(Abs(diff)) <= 11 && Upcoming(w, bytes, tem, DcBits(dc, diff) + rest);
    hide AtDc, BookOf, ListsDc, DcBits, Upcoming, Decoded, Extend, Lists, Word, Amplitude, Entered, Register;
    var sym, extra := HuffDecodeExtra(r, t);
    if follows {
      var c := BitLen(Abs(diff));
      DcDecoded(dc, diff, rest);
      SymbolDecoded(dc, t.codes, t.vals, w, bytes, tem, sym, extra, r.window, r.rest, r.temFlag, c,
                    Enc(Amplitude(diff), c), rest);
    }
    if sym >= 16 { return false, 0; }
    ok, s := true, Extend(extra, sym);
  }

  lemma StoreFirst(z: seq<int>, v: int, prev: nat)
    requires ZeroFrom(z, prev)
    ensures |z| == 64 && z[0 := v][0] == v && ZeroFrom(z[0 := v], prev)
  {
  }

  /** The code of a block's AC coefficients and what follows it, for any arguments. */
  ghost function AfterDc(ac: Book, du: seq<int>, more: BitString): BitString {
    AcBits'(ac, du, 1) + more
  }

  lemma BlockParts(r: Reader, dc: Book, ac: Book, pred: int, du: seq<int>, more: BitString)
    requires AtBlock(r, dc, ac, pred, du, more)
    ensures |du| == 64 && AtDc(r, dc, du[0] - pred, AfterDc(ac, du, more))
    ensures Int32(du[0]) == du[0] && ListsAc(ac) && AcInRange(du)
  {
    hide DcBits, AcBits, ListsDc, ListsAc;
    assert BlockBits(dc, ac, pred, du) + more == DcBits(dc, du[0] - pred) + AfterDc(ac, du, more) by {
      assert DcBits(dc, du[0] - pred) + AcBits(ac, du, 1) + more == DcBits(dc, du[0] - pred)
          + (AcBits(ac, du, 1) + more);
    }
  }

  lemma AtCoefficients(r: Reader, ac: Book, du: seq<int>, q: seq<int>, more: BitString)
    requires ListsAc(ac) && AcInRange(du) && |q| == 64 && r.Has(AfterDc(ac, du, more))
    ensures Following(r, ac, du, q, more, AcRun([], q))
  {
    hide AcBits, ListsAc, Int16;
    assert Expected(du, q, 1) == seq(64, _ => 0);
  }

  /** Every coefficient is the encoded one times its quantiser. */
  ghost predicate Dequantised(z: seq<int>, du: seq<int>, q: seq<int>) {
    |z| == |du| == |q| == 64 && forall j :: 0 <= j < 64 ==> z[j] == Int16(du[j] * q[j])
  }

  lemma AllDequantised(r: Reader, z: seq<int>, symbols: seq<AcSymbol>, k: nat, du: seq<int>, q: seq<int>,
                       more: BitString)
    requires Placed(z, symbols, q, k) && Ended(r, du, q, more, symbols) && z[0] == Int16(du[0] * q[0])
    ensures Dequantised(z, du, q) && r.Has(more)
  {
    hide AcRun, Int16;
  }

  /** The parts of the block that the reader is at, if it is at one. */
  lemma BlockBegins(r: Reader, dcTab: Tables, acTab: Tables, dc: Book, ac: Book, pred: int, du: seq<int>,
                    more: BitString)
    returns (follows: bool, diff: int, rest: BitString)
    ensures follows == (AtBlock(r, dc, ac, pred, du, more) && SameCodes(dc, ac, dcTab, acTab))
    ensures rest == AfterDc(ac, du, more)
    ensures follows ==>
      && |du| == 64 && diff == du[0] - pred && AtDc(r, dc, diff, rest) && Int32(du[0]) == du[0] && ListsAc(ac)
      && AcInRange(du) && BookOf(dc, dcTab.codes, dcTab.vals) && BookOf(ac, acTab.codes, acTab.vals)
  {
    hide AtBlock, AtDc, ListsAc, AcInRange, BookOf, Int32, AfterDc;
    follows, diff, rest := AtBlock(r, dc, ac, pred, du, more) && SameCodes(dc, ac, dcTab, acTab), 0,
        AfterDc(ac, du, more);
    if follows {
      BlockParts(r, dc, ac, pred, du, more);
      diff := du[0] - pred;
    }
  }

  /** decode_next_row(), for one block: false where the source stops decoding. Whatever the storage held, it then holds
    * the DC coefficient and what the AC symbols say, and only zeros from maxZag on. If the reader is at the code of a
    * block, those are the block's coefficients times their quantisers. */
  method DecodeBlock(r: Reader, dcTab: Tables, acTab: Tables, q: seq<int>, p: array<int>, lastDc: int, prevNumSet: nat,
                     ghost dc: Book, ghost ac: Book, ghost du: seq<int>, ghost more: BitString)
    returns (ok: bool, lastDc': int, maxZag: nat, ghost symbols: seq<AcSymbol>)
    requires r.Valid() && dcTab.Valid() && acTab.Valid() && |q| == 64 == p.Length && prevNumSet <= 64
    requires p != acTab.lookUp && p != acTab.lookUp2 && p != acTab.tree
    requires ZeroFrom(ZigZagged(p[..]), prevNumSet)
    modifies r, p
    ensures r.Valid() && acTab.Valid()
    ensures ok ==> 1 <= maxZag <= 64 && Placed(ZigZagged(p[..]), symbols, q, maxZag)
    ensures ok ==> ZigZagged(p[..])[0] == Int16(lastDc' * q[0])
    ensures old(AtBlock(r, dc, ac, lastDc, du, more)) && SameCodes(dc, ac, dcTab, acTab) ==>
      ok && Dequantised(ZigZagged(p[..]), du, q) && lastDc' == du[0] && r.Has(more)
  {
    hide *;
    ghost var follows, diff, rest := BlockBegins(r, dcTab, acTab, dc, ac, lastDc, du, more);
    lastDc', maxZag, symbols := lastDc, 1, [];
    var s;
    ok, s := ReadDc(r, dcTab, dc, diff, rest);
    if !ok { return; }
    assert follows ==> s + lastDc == du[0];
    lastDc' := Int32(s + lastDc);
    StoreFirst(ZigZagged(p[..]), Int16(lastDc' * q[0]), prevNumSet);
    Store(p, 0, Int16(lastDc' * q[0]));
    if follows { AtCoefficients(r, ac, du, q, more); }
    ok, maxZag, symbols := DecodeAc(r, acTab, q, p, prevNumSet, ac, du, more);
    if follows { AllDequantised(r, ZigZagged(p[..]), symbols, maxZag, du, q, more); }
  }
}
