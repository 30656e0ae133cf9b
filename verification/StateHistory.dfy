/** The ring of world states that both ends keep, and the deltas between them (src/delta.c). */
module StateHistory {
  import opened MergePatches

  datatype Slot = Empty | Full(state: Json)

  /** A world state: its entities and its revision, and no nulls, which a merge patch could not carry. */
  predicate IsState(j: Json) {
    && j.Obj? && j.members.Keys == {"entities", "revision"} && NullFree(j)
    && j.members["revision"].Num? && j.members["revision"].n >= 0
  }

  function Revision(j: Json): nat
    requires IsState(j)
  {
    j.members["revision"].n
  }

  // ----- Deltas -----

  const PATCH_STYLE := "patch_style"
  const PATCH_FROM := "patch_from"

  /** The full state as a delta. */
  function SetDelta(now: Json): (d: Json)
    requires IsState(now)
    ensures d.Obj?
  {
    Obj(now.members[PATCH_STYLE := Str("set")])
  }

  /** The merge patch from one state to another as a delta. */
  function MergeDelta(was: Json, now: Json): (d: Json)
    requires IsState(was) && IsState(now)
    ensures d.Obj?
  {
    Obj(Generate(was, now).members[PATCH_STYLE := Str("merge")][PATCH_FROM := Num(Revision(was))])
  }

  /** What both libraries' asserts demand of a delta. */
  predicate IsDelta(d: Json) {
    && d.Obj? && PATCH_STYLE in d.members && d.members[PATCH_STYLE].Str?
    && (PATCH_FROM in d.members ==> d.members[PATCH_FROM].Num? && d.members[PATCH_FROM].n >= 0)
    && (d.members[PATCH_STYLE].s == "merge" ==> PATCH_FROM in d.members)
  }

  /** The delta without what says how to apply it. */
  function Detached(d: Json): Json
    requires d.Obj?
  {
    Obj(d.members - {PATCH_STYLE, PATCH_FROM})
  }

  lemma DeltaParts(was: Json, now: Json)
    requires IsState(was) && IsState(now)
    ensures IsDelta(SetDelta(now)) && PATCH_FROM !in SetDelta(now).members
        && SetDelta(now).members[PATCH_STYLE] == Str("set")
    ensures IsDelta(MergeDelta(was, now)) && MergeDelta(was, now).members[PATCH_STYLE] == Str("merge")
    ensures PATCH_FROM in MergeDelta(was, now).members && MergeDelta(was, now).members[PATCH_FROM] == Num(Revision(was))
    ensures Detached(SetDelta(now)) == now && Detached(MergeDelta(was, now)) == Generate(was, now)
  {
    var p := Generate(was, now).members;
    assert p.Keys <= {"entities", "revision"};
    assert PATCH_STYLE !in p && PATCH_FROM !in p;
    assert p[PATCH_STYLE := Str("merge")][PATCH_FROM := Num(Revision(was))] - {PATCH_STYLE, PATCH_FROM} == p;
    assert now.members[PATCH_STYLE := Str("set")] - {PATCH_STYLE, PATCH_FROM} == now.members;
  }

  /** What applying a delta comes to: a new state, no state, or a failed assertion. */
  datatype Outcome = Accepted(state: Json) | Rejected | Malformed

  /** The slots and the revision inserted last. */
  datatype Ring = Ring(slots: seq<Slot>, latest: nat) {
    predicate Valid() {
      |slots| > 0 && forall i :: 0 <= i < |slots| && slots[i].Full? ==> IsState(slots[i].state)
    }

    function Get(rev: nat): Slot
      requires |slots| > 0
    {
      slots[rev % |slots|]
    }

    /** The ring has the state of this revision. */
    predicate Has(rev: nat)
      requires Valid()
    {
      Get(rev).Full? && Revision(Get(rev).state) == rev
    }

    function Insert(state: Json): (r: Ring)
      requires Valid() && IsState(state)
      ensures r.Valid() && |r.slots| == |slots|
    {
      Ring(slots[Revision(state) % |slots| := Full(state)], Revision(state))
    }

    /** What to send to a client that has acknowledged a revision: a patch from it if the ring still has it, otherwise
      * the full state. */
    function Delta(ack: nat): Json
      requires Valid() && Get(latest).Full?
    {
      if Has(ack) then MergeDelta(Get(ack).state, Get(latest).state) else SetDelta(Get(latest).state)
    }

    /** What applying a delta comes to. */
    function Apply(d: Json): Outcome
      requires Valid() && d.Obj?
    {
      if !IsDelta(d) then Malformed
      else if PATCH_FROM in d.members && !Has(d.members[PATCH_FROM].n) then Rejected
      else
        var result := if d.members[PATCH_STYLE].s == "merge"
                      then MergePatch(Get(d.members[PATCH_FROM].n).state, Detached(d)) else Detached(d);
        if IsState(result) then Accepted(result) else Malformed
    }
  }

  /** A `set` gives its state, in whatever ring. */
  lemma SetAccepted(r: Ring, now: Json)
    requires r.Valid() && IsState(now)
    ensures r.Apply(SetDelta(now)) == Accepted(now)
  {
    DeltaParts(now, now);
  }

  /** A patch gives its state in a ring with the state it starts from, and nothing in a ring without that revision. */
  lemma MergeAccepted(r: Ring, was: Json, now: Json)
    requires r.Valid() && IsState(was) && IsState(now)
    ensures !r.Has(Revision(was)) ==> r.Apply(MergeDelta(was, now)) == Rejected
    ensures r.Get(Revision(was)) == Full(was) ==> r.Apply(MergeDelta(was, now)) == Accepted(now)
  {
    DeltaParts(was, now);
    PatchRoundTrip(was, now);
  }

  // ----- The ring in memory -----

  datatype CacheEntry = NoEntry | CacheEntry(from: nat, upTo: nat, json: Json)

  /** statehistory_t, and the cache of the deltas computed from it. */
  class History {
    const slots: array<Slot>
    var latestRevision: nat
    const cache: array<CacheEntry>

    ghost function Model(): Ring
      reads this, slots
    {
      Ring(slots[..], latestRevision)
    }

    /** Whatever the cache holds for the latest revision is the delta that would be computed. */
    ghost predicate Coherent()
      reads this, slots, cache
    {
      forall i :: 0 <= i < cache.Length && cache[i].CacheEntry? && cache[i].upTo == latestRevision ==>
        Model().Valid() && Model().Get(latestRevision).Full? && cache[i].json == Model().Delta(cache[i].from)
    }

    /** Cached deltas are for revisions inserted up to now. */
    ghost predicate CacheOld()
      reads this, cache
    {
      forall i :: 0 <= i < cache.Length && cache[i].CacheEntry? ==> cache[i].upTo <= latestRevision
    }

    ghost predicate Valid()
      reads this, slots, cache
    {
      Model().Valid() && cache.Length == slots.Length && Coherent() && CacheOld()
    }

    constructor (n: nat)
      requires n > 0
      ensures Valid() && Model() == Ring(seq(n, _ => Empty), 0) && fresh(slots) && fresh(cache)
    {
      slots := new Slot[n](_ => Empty);
      cache := new CacheEntry[n](_ => NoEntry);
      latestRevision := 0;
    }

    method Get(rev: nat) returns (s: Slot)
      requires Model().Valid()
      ensures s == Model().Get(rev)
    {
      s := slots[rev % slots.Length];
    }

    /** allo_delta_insert(). The cache stays coherent if revisions ascend, as they do at the server. */
    method Insert(state: Json)
      requires Model().Valid() && IsState(state)
      modifies this`latestRevision, slots
      ensures Model() == old(Model()).Insert(state)
      ensures old(Valid()) && Revision(state) > old(latestRevision) ==> Valid()
    {
      var rev := Revision(state);
      ghost var was := slots[..];
      slots[rev % slots.Length] := Full(state);
      latestRevision := rev;
      assert slots[..] == was[rev % slots.Length := Full(state)];
    }

    /** allo_delta_compute() */
    method Compute(ack: nat) returns (json: Json)
      requires Valid() && Model().Get(latestRevision).Full? && ack != latestRevision
      modifies cache
      ensures Valid() && json == Model().Delta(ack)
    {
      var latest := slots[latestRevision % slots.Length].state;
      var from := slots[ack % slots.Length];
      var entry := cache[ack % cache.Length];
      if entry.CacheEntry? && entry.upTo == latestRevision && entry.from == ack {
        return entry.json;
      }
      if from.Empty? || Revision(from.state) != ack {
        json := SetDelta(latest);
      } else {
        json := MergeDelta(from.state, latest);
      }
      cache[ack % cache.Length] := CacheEntry(ack, latestRevision, json);
    }

    /** allo_delta_apply(), without the diff: the new state if there is one. */
    method Apply(d: Json) returns (result: Slot)
      requires Model().Valid() && IsDelta(d) && Model().Apply(d) != Malformed
      modifies this`latestRevision, slots
      ensures old(Model().Apply(d)) == Rejected ==> result == Empty && Model() == old(Model())
      ensures forall s :: old(Model().Apply(d)) == Accepted(s) ==>
          result == Full(s) && Model() == old(Model()).Insert(s)
    {
      var merge := d.members[PATCH_STYLE].s == "merge";
      var body := Detached(d);
      var state := body;
      if PATCH_FROM in d.members {
        var from := d.members[PATCH_FROM].n;
        var current := slots[from % slots.Length];
        if current.Empty? || Revision(current.state) != from { return Empty; }
        if merge { state := MergePatch(current.state, body); }
      }
      Insert(state);
      result := Full(state);
    }
  }
}
