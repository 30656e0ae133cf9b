/** The in-memory asset store, and the transfer of an asset in chunks (src/assetstore.c, src/asset.c). */
module AssetFetch {
  import opened JsonInts
  import opened AssetRanges

  /** The state of one asset in a store. */
  class Asset {
    var exists_: bool
    var complete: bool
    var totalSize: nat
    /** "ranges", which is deleted once the asset is complete. */
    var hasRanges: bool
    const list: RangeList
    var data: array<nat>

    ghost predicate Valid()
      reads this, list
    {
      && (hasRanges ==> Canonical(list.ranges)) && (exists_ ==> data.Length == totalSize)
      && (exists_ && !complete ==> hasRanges)
    }

    /** The ranges written so far, as long as they are kept. */
    ghost function Had(): seq<Range>
      reads this, list
    {
      if exists_ then list.ranges else []
    }

    /** The asset is new or not complete yet. */
    ghost predicate Tracked()
      reads this
    {
      !exists_ || hasRanges
    }

    constructor ()
      ensures Valid() && !exists_ && fresh(list) && fresh(data)
    {
      exists_, complete, totalSize, hasRanges := false, false, 0, false;
      list := new RangeList();
      data := new nat[0];
    }

    /** _update_asset_state(): the asset is complete when its one range is everything. */
    method UpdateState()
      requires Valid()
      modifies this`complete, this`hasRanges
      ensures Valid()
      ensures var done := old(hasRanges) && list.ranges == [Range(0, totalSize)];
        complete == (old(complete) || done) && hasRanges == (old(hasRanges) && !done)
    {
      if hasRanges && |list.ranges| == 1 {
        var range := list.ranges[0];
        if range.first == 0 && range.last == totalSize {
          assert list.ranges == [Range(0, totalSize)];
          complete := true;
          hasRanges := false;
        }
      }
    }

    /** _memstorestore_write() */
    method Write(offset: nat, bytes: seq<nat>, total: nat) returns (written: nat)
      requires Valid() && offset + |bytes| <= total && (exists_ ==> total == totalSize)
      modifies this, list, data
      ensures Valid() && exists_ && totalSize == total && written == |bytes|
      ensures old(exists_) ==> data == old(data)
      ensures !old(exists_) ==> fresh(data)
      ensures data[offset..offset + |bytes|] == bytes
      ensures old(exists_) ==> forall i :: 0 <= i < total && !(offset <= i < offset + |bytes|) ==>
          data[i] == old(data[i])
      ensures old(Tracked()) ==> Canonical(list.ranges)
      ensures old(Tracked()) ==>
        forall x: nat :: Has(list.ranges, x) <==> Has(old(Had()), x) || In(Range(offset, offset + |bytes|), x)
      ensures old(Tracked()) ==> (complete <==> (old(exists_) && old(complete)) || list.ranges == [Range(0, total)])
      ensures hasRanges == (old(Tracked()) && list.ranges != [Range(0, total)])
    {
      if !exists_ {
        data := new nat[total];
        exists_, complete, totalSize, hasRanges := true, false, total, true;
        list.ranges := [];
      }
      CopyInto(data, offset, bytes);
      if hasRanges {
        list.MergeRange(offset, offset + |bytes|);
      }
      UpdateState();
      written := |bytes|;
    }
  }

  /** memcpy() */
  method CopyInto(data: array<nat>, offset: nat, bytes: seq<nat>)
    requires offset + |bytes| <= data.Length
    modifies data
    ensures data[offset..offset + |bytes|] == bytes
    ensures forall i :: 0 <= i < data.Length && !(offset <= i < offset + |bytes|) ==> data[i] == old(data[i])
  {
    forall i | 0 <= i < |bytes| { data[offset + i] := bytes[i]; }
    assert data[offset..offset + |bytes|] == bytes;
  }

  // ----- The transfer -----

  /** What comes back for a request: a chunk with the total size, or that it is not available. */
  datatype Answer = Chunk(bytes: seq<nat>, total: nat) | Missing

  datatype Reply = Request(offset: nat, length: nat) | NowAvailable | NowUnavailable | Nothing

  /** _memstore_read(): the bytes from the offset on, as many as asked for or all that there are, and the total size. */
  method Read(a: Asset, offset: nat, length: nat) returns (bytes: seq<nat>, total: nat)
    requires a.Valid() && a.exists_ && offset <= a.totalSize
    ensures total == a.totalSize && offset + |bytes| <= total && bytes == a.data[offset..offset + |bytes|]
    ensures |bytes| <= length && (|bytes| == length || offset + |bytes| == total)
  {
    total := a.totalSize;
    var n := if length < total - offset then length else total - offset;
    bytes := a.data[offset..offset + n];
  }

  /** A client that serves a request from its store; offset and length are read from the header as ints. */
  method Serve(a: Asset, offset: nat, length: nat) returns (answer: Answer)
    requires a.Valid() && (a.exists_ ==> ValueInt(offset) <= a.totalSize)
    ensures answer == Missing <==> !a.exists_ || ValueInt(offset) == a.totalSize || length == 0
    ensures answer.Chunk? ==>
      var first, end := ValueInt(offset), ValueInt(offset) + |answer.bytes|;
      && answer.total == a.totalSize && end <= a.totalSize && answer.bytes == a.data[first..end]
      && |answer.bytes| <= ValueInt(length) && (|answer.bytes| == ValueInt(length) || end == a.totalSize)
  {
    if !a.exists_ { return Missing; }
    var bytes, total := Read(a, ValueInt(offset), ValueInt(length));
    answer := if |bytes| > 0 then Chunk(bytes, total) else Missing;
  }

  /** asset_handle(), for a chunk: writes it, and asks for the next one or signals that the asset is available. */
  method HandleData(a: Asset, offset: nat, bytes: seq<nat>, total: nat, chunk: nat) returns (reply: Reply)
    requires a.Valid() && offset + |bytes| <= total && (a.exists_ ==> total == a.totalSize)
    modifies a, a.list, a.data
    ensures a.Valid() && a.exists_ && a.totalSize == total
    ensures old(a.exists_) ==> a.data == old(a.data)
    ensures !old(a.exists_) ==> fresh(a.data)
    ensures a.data[offset..offset + |bytes|] == bytes
    ensures old(a.exists_) ==> forall i :: 0 <= i < total && !(offset <= i < offset + |bytes|) ==>
        a.data[i] == old(a.data[i])
    ensures old(a.Tracked()) ==> Canonical(a.list.ranges)
    ensures old(a.Tracked()) ==>
      forall x: nat :: Has(a.list.ranges, x) <==> Has(old(a.Had()), x) || In(Range(offset, offset + |bytes|), x)
    ensures old(a.Tracked()) ==> (a.complete <==>
        (old(a.exists_) && old(a.complete)) || a.list.ranges == [Range(0, total)])
    ensures a.hasRanges == (old(a.Tracked()) && a.list.ranges != [Range(0, total)])
    ensures reply == if bytes == [] then Nothing
                     else if offset + |bytes| < total
                     then Request(offset + |bytes|, if chunk < total - offset - |bytes| then chunk
                                  else total - offset - |bytes|)
                     else NowAvailable
  {
    var written := a.Write(offset, bytes, total);
    reply := Nothing;
    if written > 0 {
      if offset + |bytes| < total {
        var left := total - offset - |bytes|;
        reply := Request(offset + |bytes|, if chunk < left then chunk else left);
      } else {
        reply := NowAvailable;
      }
    }
  }

  /** The first `offset` bytes have arrived, and are recorded as one range. */
  ghost predicate Fetched(a: Asset, source: seq<nat>, offset: nat)
    reads a, a.list, a.data
  {
    && a.Valid() && offset <= |source|
    && (offset == 0 ==> !a.exists_)
    && (offset > 0 ==> a.exists_ && a.totalSize == |source| && a.data[..offset] == source[..offset])
    && (0 < offset < |source| ==> a.hasRanges && !a.complete && a.list.ranges == [Range(0, offset)])
    && (0 < offset == |source| ==> !a.hasRanges && a.complete && a.list.ranges == [Range(0, offset)])
  }

  /** The next chunk extends the one range. */
  lemma RangeExtended(before: seq<Range>, after: seq<Range>, offset: nat, end: nat)
    requires Canonical(after) && offset < end && before == (if offset == 0 then [] else [Range(0, offset)])
    requires forall x: nat :: Has(after, x) <==> Has(before, x) || In(Range(offset, end), x)
    ensures after == [Range(0, end)]
  {
    var one := [Range(0, end)];
    forall x: nat ensures Has(after, x) <==> Has(one, x) {
      assert Has(one, x) <==> In(one[0], x);
      if offset > 0 { assert Has(before, x) <==> In(before[0], x); }
    }
    CanonicalUnique(after, one);
  }

  /** A whole transfer from one store to another that has nothing of the asset yet: it takes as many requests as chunks
    * fit in the asset, rounded up, signals once that the asset is available, and leaves it complete with the bytes of
    * the source as far as an int goes, since that is how the total size is read from a chunk's header. */
  method Fetch(provider: Asset, requester: Asset, chunk: nat) returns (requests: nat, signals: nat)
    requires provider.Valid() && provider.exists_ && provider.totalSize >= 1 && chunk >= 1
    requires requester.Valid() && !requester.exists_ && provider != requester
    requires provider.list != requester.list && provider.data != requester.data
    modifies requester, requester.list, requester.data
    ensures signals == 1 && provider.data[..] == old(provider.data[..])
    ensures requester.exists_ && requester.complete && !requester.hasRanges
    ensures requester.totalSize == ValueInt(provider.totalSize)
        && requester.list.ranges == [Range(0, requester.totalSize)]
    ensures provider.data.Length == provider.totalSize && requester.data[..] == provider.data[..requester.totalSize]
    ensures requester.data[..] == provider.data[..] <==> provider.totalSize <= INT_MAX
    ensures (requests - 1) * chunk < requester.totalSize <= requests * chunk
  {
    hide Canonical, Has, In, Fetched, Serves;
    ghost var source := provider.data[..];
    ghost var seen := source[..ValueInt(|source|)];
    requests, signals := 0, 0;
    var offset: nat, length: nat, done := 0, chunk, false;
    FetchStart(provider, requester, source);
    while !done
      invariant Serves(provider, source) && Fetched(requester, seen, offset) && (done <==> offset == |seen|)
      invariant provider.data != requester.data && offset <= |seen|
      invariant requester.data == old(requester.data) || fresh(requester.data)
      invariant !done ==> Asked(offset, length, chunk, |source|) && offset == requests * chunk
      invariant done ==> (requests - 1) * chunk < |seen| <= requests * chunk
      invariant signals == if done then 1 else 0
      decreases |seen| - offset, !done
    {
      offset, length, done := FetchChunk(provider, requester, offset, length, chunk, source);
      requests := requests + 1;
      assert requests * chunk == (requests - 1) * chunk + chunk;
      if done { signals := signals + 1; }
    }
    FetchEnd(provider, requester, source);
  }

  /** The provider has these bytes. */
  ghost predicate Serves(provider: Asset, source: seq<nat>)
    reads provider, provider.list, provider.data
  {
    provider.Valid() && provider.exists_ && provider.totalSize == |source| && provider.data[..] == source
  }

  /** A chunk or what is left is asked for, and no byte beyond what an int can count. */
  predicate Asked(offset: nat, length: nat, chunk: nat, size: nat) {
    && length >= 1 && offset < ValueInt(size) && offset + ValueInt(length) <= INT_MAX
    && (length == chunk || length == ValueInt(size) - offset <= chunk)
  }

  lemma FetchStart(provider: Asset, requester: Asset, source: seq<nat>)
    requires provider.Valid() && provider.exists_ && source == provider.data[..] && requester.Valid()
        && !requester.exists_
    ensures Serves(provider, source) && Fetched(requester, source[..ValueInt(|source|)], 0)
  {
  }

  lemma FetchEnd(provider: Asset, requester: Asset, source: seq<nat>)
    requires Serves(provider, source) && source != []
    requires Fetched(requester, source[..ValueInt(|source|)], ValueInt(|source|))
    ensures provider.data[..] == source && provider.data.Length == provider.totalSize == |source|
    ensures requester.exists_ && requester.complete && !requester.hasRanges && requester.totalSize == ValueInt(|source|)
    ensures requester.list.ranges == [Range(0, requester.totalSize)]
        && requester.data[..] == source[..requester.totalSize]
  {
  }

  lemma FetchedParts(a: Asset, seen: seq<nat>, offset: nat)
    requires Fetched(a, seen, offset) && offset < |seen|
    ensures a.Valid() && a.Tracked() && a.Had() == (if offset == 0 then [] else [Range(0, offset)])
    ensures a.exists_ <==> offset > 0
    ensures a.exists_ ==> a.totalSize == a.data.Length == |seen| && a.data[..offset] == seen[..offset] && !a.complete
  {
  }

  lemma IsFetched(a: Asset, seen: seq<nat>, offset: nat)
    requires a.Valid() && a.exists_ && a.totalSize == |seen| && 0 < offset <= |seen|
        && a.data[..offset] == seen[..offset]
    requires a.list.ranges == [Range(0, offset)] && a.hasRanges == !a.complete == (offset != |seen|)
    ensures Fetched(a, seen, offset)
  {
  }

  lemma PartOfChunk(provider: Asset, source: seq<nat>, offset: nat, total: nat, bytes: seq<nat>)
    requires Serves(provider, source) && offset + |bytes| <= total <= |source| == provider.data.Length
    requires bytes == provider.data[offset..offset + |bytes|]
    ensures bytes == source[..total][offset..offset + |bytes|]
  {
    assert provider.data[..][offset..offset + |bytes|] == bytes;
  }

  /** A request, and what the requester makes of the chunk that comes back. */
  method FetchChunk(provider: Asset, requester: Asset, offset: nat, length: nat, chunk: nat, ghost source: seq<nat>)
    returns (next: nat, more: nat, done: bool)
    requires Serves(provider, source) && Fetched(requester, source[..ValueInt(|source|)], offset)
    requires Asked(offset, length, chunk, |source|) && chunk >= 1
    requires provider != requester && provider.list != requester.list && provider.data != requester.data
    modifies requester, requester.list, requester.data
    ensures Serves(provider, source) && Fetched(requester, source[..ValueInt(|source|)], next)
    ensures offset < next && (done <==> next == ValueInt(|source|))
    ensures next == if offset + chunk < ValueInt(|source|) then offset + chunk else ValueInt(|source|)
    ensures !done ==> Asked(next, more, chunk, |source|)
    ensures requester.data == old(requester.data) || fresh(requester.data)
  {
    hide Fetched;
    var answer := Serve(provider, offset, length);
    var total := ValueInt(answer.total);
    var bytes := answer.bytes;
    assert 0 < |bytes| <= total - offset;
    PartOfChunk(provider, source, offset, total, bytes);
    var reply := TakeChunk(requester, offset, bytes, total, chunk, source[..total]);
    next, more, done := offset + |bytes|, 0, reply.NowAvailable?;
    if reply.Request? { next, more := reply.offset, reply.length; }
  }

  /** The requester takes the next chunk in. */
  method TakeChunk(requester: Asset, offset: nat, bytes: seq<nat>, total: nat, chunk: nat, ghost seen: seq<nat>)
    returns (reply: Reply)
    requires Fetched(requester, seen, offset) && total == |seen| && chunk >= 1
    requires 0 < |bytes| <= |seen| - offset && bytes == seen[offset..offset + |bytes|]
    modifies requester, requester.list, requester.data
    ensures Fetched(requester, seen, offset + |bytes|)
    ensures if offset + |bytes| == |seen| then reply == NowAvailable
            else reply.Request? && reply.offset == offset + |bytes| && 1 <= reply.length <= |seen| - reply.offset
                 && (reply.length == chunk || reply.length == |seen| - reply.offset <= chunk)
    ensures requester.data == old(requester.data) || fresh(requester.data)
  {
    hide Canonical, Has, In, Fetched;
    FetchedParts(requester, seen, offset);
    ghost var before := requester.Had();
    reply := HandleData(requester, offset, bytes, total, chunk);
    RangeExtended(before, requester.list.ranges, offset, offset + |bytes|);
    assert requester.data[..offset] == seen[..offset];
    assert requester.data[..offset + |bytes|] == seen[..offset] + bytes == seen[..offset + |bytes|];
    IsFetched(requester, seen, offset + |bytes|);
  }

  /** An asset of no bytes in the provider's store is reported as not available. */
  method FetchEmpty(provider: Asset, chunk: nat) returns (reply: Reply)
    requires provider.Valid() && provider.exists_ && provider.totalSize == 0
    ensures reply == NowUnavailable
  {
    var answer := Serve(provider, 0, chunk);
    reply := if answer == Missing then NowUnavailable else Nothing;
  }

  /** An empty chunk of an asset of no bytes, as a provider's own callback may send it: the asset is complete in the
    * store, and nothing is signalled. */
  method EmptyChunk(requester: Asset, chunk: nat) returns (reply: Reply)
    requires requester.Valid() && !requester.exists_
    modifies requester, requester.list, requester.data
    ensures reply == Nothing && requester.exists_ && requester.complete
  {
    reply := HandleData(requester, 0, [], 0, chunk);
    OnlyZero(requester.list.ranges);
  }

  lemma OnlyZero(rs: seq<Range>)
    requires Canonical(rs) && forall x: nat :: Has(rs, x) <==> Has([], x) || In(Range(0, 0), x)
    ensures rs == [Range(0, 0)]
  {
    var one := [Range(0, 0)];
    forall x: nat ensures Has(rs, x) <==> Has(one, x) { assert Has(one, x) <==> In(one[0], x); }
    CanonicalUnique(rs, one);
  }
}
