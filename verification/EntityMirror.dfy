/** The client's list of entities, kept up to date by the differences between the states it accepts
  * (src/client/client.c). */
module EntityMirror {
  import opened JsonInts
  import opened MergePatches
  import opened StateHistory
  import opened StateDiff
  import opened Sync

  datatype Entity = Entity(id: string, components: Members)

  ghost predicate Distinct(es: seq<Entity>) {
    forall i, j :: 0 <= i < j < |es| ==> es[i].id != es[j].id
  }

  ghost predicate HasId(es: seq<Entity>, id: string) {
    exists i :: 0 <= i < |es| && es[i].id == id
  }

  /** One entry for each of these entities. */
  ghost predicate OneEach(es: seq<Entity>, ids: iset<string>) {
    Distinct(es) && forall id :: HasId(es, id) <==> id in ids
  }

  /** The list mirrors a state: one entry for each of its entities, with its components. */
  ghost predicate Mirrors(es: seq<Entity>, state: Json) {
    && OneEach(es, iset id | id in Entities(state))
    && forall i :: 0 <= i < |es| ==> es[i].components == Components(state, es[i].id)
  }

  // ----- Lookups and changes -----

  /** state_get_entity(): the first entity with the id, or none. */
  method GetEntity(es: seq<Entity>, id: string) returns (i: nat)
    ensures i <= |es| && (i < |es| <==> HasId(es, id)) && (i < |es| ==> es[i].id == id)
  {
    i := 0;
    while i < |es|
      invariant i <= |es| && forall j :: 0 <= j < i ==> es[j].id != id
    {
      if es[i].id == id { return; }
      i := i + 1;
    }
  }

  lemma OneMore(es: seq<Entity>, ids: iset<string>, e: Entity)
    requires OneEach(es, ids) && e.id !in ids
    ensures OneEach([e] + es, ids + iset{e.id})
  {
    var more := [e] + es;
    forall i, j | 0 <= i < j < |more| ensures more[i].id != more[j].id {
      assert HasId(es, more[j].id);
    }
    forall id ensures HasId(more, id) <==> id in ids + iset{e.id} {
      if id == e.id { assert more[0].id == id; }
      if HasId(es, id) { var i :| 0 <= i < |es| && es[i].id == id; assert more[i + 1].id == id; }
      if HasId(more, id) && id != e.id { var i :| 0 <= i < |more| && more[i].id == id; assert es[i - 1].id == id; }
    }
  }

  lemma OneLess(es: seq<Entity>, ids: iset<string>, i: nat)
    requires OneEach(es, ids) && i < |es|
    ensures OneEach(es[..i] + es[i + 1..], ids - iset{es[i].id})
  {
    var less := es[..i] + es[i + 1..];
    assert forall k :: 0 <= k < |less| ==> less[k] == es[if k < i then k else k + 1];
    forall id ensures HasId(less, id) <==> id in ids - iset{es[i].id} {
      if HasId(es, id) && id != es[i].id {
        var j :| 0 <= j < |es| && es[j].id == id;
        assert less[if j < i then j else j - 1].id == id;
      }
      if HasId(less, id) {
        var j :| 0 <= j < |less| && less[j].id == id;
        assert es[if j < i then j else j + 1].id == id;
      }
    }
  }

  lemma OneChanged(es: seq<Entity>, ids: iset<string>, i: nat, cs: Members)
    requires OneEach(es, ids) && i < |es|
    ensures OneEach(es[i := Entity(es[i].id, cs)], ids)
  {
    var same := es[i := Entity(es[i].id, cs)];
    assert forall k :: 0 <= k < |es| ==> same[k].id == es[k].id;
    forall id ensures HasId(same, id) <==> id in ids {
      if HasId(es, id) { var j :| 0 <= j < |es| && es[j].id == id; assert same[j].id == id; }
      if HasId(same, id) { var j :| 0 <= j < |same| && same[j].id == id; assert es[j].id == id; }
    }
  }

  lemma SameIds(es: seq<Entity>, ids: iset<string>, same: iset<string>)
    requires OneEach(es, ids) && forall id :: id in same <==> id in ids
    ensures OneEach(es, same)
  {
  }

  /** These ids and the first n of the list. */
  ghost function With(ids: iset<string>, list: seq<string>, n: nat): iset<string>
    requires n <= |list|
  {
    iset id | id in ids || id in list[..n]
  }

  /** These ids without the first n of the list. */
  ghost function Without(ids: iset<string>, list: seq<string>, n: nat): iset<string>
    requires n <= |list|
  {
    iset id | id in ids && id !in list[..n]
  }

  ghost predicate NoneTwice(list: seq<string>) {
    forall i, j :: 0 <= i < j < |list| ==> list[i] != list[j]
  }

  /** New entities go to the head of the list. */
  method InsertAll(es: seq<Entity>, new_: seq<string>, ghost ids: iset<string>) returns (es': seq<Entity>)
    requires OneEach(es, ids) && (forall i :: 0 <= i < |new_| ==> new_[i] !in ids) && NoneTwice(new_)
    ensures OneEach(es', With(ids, new_, |new_|))
  {
    hide OneEach;
    es' := es;
    SameIds(es', ids, With(ids, new_, 0));
    for i := 0 to |new_|
      invariant OneEach(es', With(ids, new_, i))
    {
      assert new_[..i + 1] == new_[..i] + [new_[i]];
      OneMore(es', With(ids, new_, i), Entity(new_[i], map[]));
      es' := [Entity(new_[i], map[])] + es';
      SameIds(es', With(ids, new_, i) + iset{new_[i]}, With(ids, new_, i + 1));
    }
  }

  lemma IdThere(es: seq<Entity>, ids: iset<string>, id: string)
    requires OneEach(es, ids)
    ensures HasId(es, id) <==> id in ids
  {
  }

  /** Removes entities; each of them is found. */
  method RemoveAll(es: seq<Entity>, gone: seq<string>, ghost ids: iset<string>) returns (es': seq<Entity>)
    requires OneEach(es, ids) && (forall i :: 0 <= i < |gone| ==> gone[i] in ids) && NoneTwice(gone)
    ensures OneEach(es', Without(ids, gone, |gone|))
  {
    hide OneEach, HasId;
    es' := es;
    SameIds(es', ids, Without(ids, gone, 0));
    for i := 0 to |gone|
      invariant OneEach(es', Without(ids, gone, i))
    {
      assert gone[..i + 1] == gone[..i] + [gone[i]];
      IdThere(es', Without(ids, gone, i), gone[i]);
      var k := GetEntity(es', gone[i]);
      OneLess(es', Without(ids, gone, i), k);
      es' := es'[..k] + es'[k + 1..];
      SameIds(es', Without(ids, gone, i) - iset{gone[i]}, Without(ids, gone, i + 1));
    }
  }

  /** The entities among `done` have the components of the state. */
  ghost predicate Updated(es: seq<Entity>, state: Json, done: set<string>) {
    forall i :: 0 <= i < |es| && es[i].id in done ==> es[i].components == Components(state, es[i].id)
  }

  /** Gives every entity of the state its components; each of them is found. */
  method UpdateAll(es: seq<Entity>, state: Json) returns (es': seq<Entity>)
    requires IsWorld(state) && OneEach(es, iset id | id in Entities(state))
    ensures Mirrors(es', state)
  {
    hide *;
    es' := es;
    ghost var ids := iset id | id in Entities(state);
    var left := Entities(state).Keys;
    ghost var done: set<string> := {};
    NoneUpdated(es, state);
    while left != {}
      invariant left !! done && left + done == Entities(state).Keys && OneEach(es', ids) && Updated(es', state, done)
      decreases |left|
    {
      var id :| id in left;
      IdThere(es', ids, id);
      var i := GetEntity(es', id);
      OneChanged(es', ids, i, Components(state, id));
      UpdatedNext(es', ids, state, i, done);
      es' := es'[i := Entity(es'[i].id, Components(state, id))];
      left, done := left - {id}, done + {id};
    }
    AllUpdated(es', state, ids);
  }

  lemma NoneUpdated(es: seq<Entity>, state: Json)
    ensures Updated(es, state, {})
  {
  }

  lemma UpdatedNext(es: seq<Entity>, ids: iset<string>, state: Json, i: nat, done: set<string>)
    requires OneEach(es, ids) && i < |es| && Updated(es, state, done)
    ensures Updated(es[i := Entity(es[i].id, Components(state, es[i].id))], state, done + {es[i].id})
  {
    hide Components, HasId;
  }

  lemma AllUpdated(es: seq<Entity>, state: Json, ids: iset<string>)
    requires ids == (iset id | id in Entities(state)) && OneEach(es, ids) && Updated(es, state, Entities(state).Keys)
    ensures Mirrors(es, state)
  {
    hide Components, Entities;
    forall i | 0 <= i < |es| ensures es[i].components == Components(state, es[i].id) {
      assert HasId(es, es[i].id);
    }
  }

  // ----- The client -----

  lemma Twice(list: seq<string>, i: nat, j: nat)
    requires i < j < |list| && list[i] == list[j]
    ensures multiset(list)[list[i]] >= 2
  {
    assert list == list[..j] + list[j..];
    assert list[i] in list[..j] && list[j] in list[j..];
  }

  lemma ListedOnce(list: seq<string>, elements: iset<string>)
    requires Lists(list, elements)
    ensures NoneTwice(list) && forall x :: x in list <==> x in elements
  {
    forall x ensures x in list <==> x in elements { assert x in list <==> multiset(list)[x] > 0; }
    forall i, j | 0 <= i < j < |list| ensures list[i] != list[j] {
      if list[i] == list[j] {
        Twice(list, i, j);
        assert false;
      }
    }
  }

  /** The differences lead from one set of ids to the other. */
  lemma DiffLists(d: Diff, was: Json, now: Json)
    requires Exact(d, was, now, AllEntities(was, now))
    ensures NoneTwice(d.newEntities) && NoneTwice(d.deletedEntities)
    ensures forall id :: id in d.newEntities <==> id in Entities(now) && id !in Entities(was)
    ensures forall id :: id in d.deletedEntities <==> id in Entities(was) && id !in Entities(now)
  {
    hide Lists, Entities;
    var all := AllEntities(was, now);
    ListedOnce(d.newEntities, iset e | e in all && e in Entities(now) && e !in Entities(was));
    ListedOnce(d.deletedEntities, iset e | e in all && e in Entities(was) && e !in Entities(now));
  }

  lemma MirrorIds(es: seq<Entity>, state: Json)
    requires Mirrors(es, state)
    ensures OneEach(es, iset id | id in Entities(state))
  {
  }

  lemma IdsChange(come: seq<string>, gone: seq<string>, was: Json, now: Json)
    requires forall id :: id in come <==> id in Entities(now) && id !in Entities(was)
    requires forall id :: id in gone <==> id in Entities(was) && id !in Entities(now)
    ensures var more := With((iset id | id in Entities(was)), come, |come|);
      && (forall i :: 0 <= i < |gone| ==> gone[i] in more)
      && (forall id :: id in Without(more, gone, |gone|) <==> id in Entities(now))
  {
    hide Entities;
    assert come[..|come|] == come && gone[..|gone|] == gone;
  }

  /** _handle_parsed_statediff(): insertions, then deletions, then the components of every entity. */
  method HandleStateDiff(es: seq<Entity>, ghost was: Json, now: Json, d: Diff) returns (es': seq<Entity>)
    requires IsWorld(now) && Mirrors(es, was) && Exact(d, was, now, AllEntities(was, now))
    ensures Mirrors(es', now)
  {
    hide *;
    DiffLists(d, was, now);
    MirrorIds(es, was);
    ghost var ids := iset id | id in Entities(was);
    es' := InsertAll(es, d.newEntities, ids);
    ghost var more := With(ids, d.newEntities, |d.newEntities|);
    IdsChange(d.newEntities, d.deletedEntities, was, now);
    es' := RemoveAll(es', d.deletedEntities, more);
    SameIds(es', Without(more, d.deletedEntities, |d.deletedEntities|), iset id | id in Entities(now));
    es' := UpdateAll(es', now);
  }

  /** The state of the latest revision; null if there is none yet. */
  function Latest(r: Ring): Json
    requires r.Valid()
  {
    if r.Get(r.latest).Full? then r.Get(r.latest).state else Null
  }

  ghost predicate Worlds(r: Ring) {
    r.Valid() && forall i :: 0 <= i < |r.slots| && r.slots[i].Full? ==> IsWorld(r.slots[i].state)
  }

  /** A delta to `now` as the server sends it, of which the ring has the state it starts from or nothing. */
  ghost predicate Fits(r: Ring, d: Json, was: Json, now: Json) {
    && r.Valid() && IsWorld(now)
    && (d == SetDelta(now)
        || (IsState(was) && d == MergeDelta(was, now) && (r.Has(Revision(was)) ==> r.Get(Revision(was)) == Full(was))))
  }

  lemma FitsApplies(r: Ring, d: Json, was: Json, now: Json)
    requires Fits(r, d, was, now)
    ensures IsWorld(now) && IsState(now) && IsDelta(d) && (r.Apply(d) == Accepted(now) || r.Apply(d) == Rejected)
    ensures PATCH_FROM !in d.members ==>
        d.members[PATCH_STYLE] == Str("set") && Detached(d) == now && r.Apply(d) == Accepted(now)
    ensures PATCH_FROM in d.members ==>
      && d.members[PATCH_STYLE] == Str("merge") && IsState(was) && d.members[PATCH_FROM] == Num(Revision(was))
      && Detached(d) == Generate(was, now) && MergePatch(was, Detached(d)) == now
      && (r.Apply(d) == Accepted(now) <==> r.Has(Revision(was)))
        && (r.Has(Revision(was)) ==> r.Get(Revision(was)) == Full(was))
  {
    if d == SetDelta(now) {
      DeltaParts(now, now);
      SetAccepted(r, now);
    } else {
      DeltaParts(was, now);
      MergeAccepted(r, was, now);
      PatchRoundTrip(was, now);
    }
  }

  lemma LatestWorld(r: Ring)
    requires Worlds(r)
    ensures Latest(r) == Null || IsWorld(Latest(r))
  {
  }

  lemma InsertWorld(r: Ring, now: Json)
    requires Worlds(r) && IsWorld(now)
    ensures Worlds(r.Insert(now)) && Latest(r.Insert(now)) == now
  {
  }

  class Client {
    const history: History
    var entities: seq<Entity>
    var ackStateRev: nat
    var revision: nat

    ghost predicate Valid()
      reads this, history, history.slots
    {
      Worlds(history.Model()) && Mirrors(entities, Latest(history.Model()))
    }

    constructor (n: nat)
      requires n > 0
      ensures Valid() && history.Model() == Ring(seq(n, _ => Empty), 0) && fresh(history) && fresh(history.slots)
      ensures entities == [] && ackStateRev == 0 == history.latestRevision
    {
      history := new History(n);
      entities, ackStateRev, revision := [], 0, 0;
    }

    /** alloclient_parse_statediff(): applies a delta, with the differences from the latest state, and acknowledges the
      * new revision, as far as an int goes. A delta that does not apply changes nothing, not even the
      * acknowledgement. */
    method ParseStateDiff(delta: Json, ghost was: Json, ghost now: Json) returns (rev: nat, diff: Diff)
      requires Valid() && Fits(history.Model(), delta, was, now)
      requires history.Model().Apply(delta) == Accepted(now) ==> now != Latest(history.Model())
      modifies this`entities, this`ackStateRev, this`revision, history`latestRevision, history.slots
      ensures Valid()
      ensures var before := old(history.Model());
        if before.Apply(delta) == Accepted(now) then
          && history.Model() == before.Insert(now) && rev == Revision(now)
          && ackStateRev == revision == ValueInt(Revision(now))
          && Exact(diff, Latest(before), now, AllEntities(Latest(before), now)) && Mirrors(entities, now)
        else
          history.Model() == before && rev == 0 && entities == old(entities) && ackStateRev == old(ackStateRev)
    {
      hide *;
      ghost var ring := history.Model();
      Parts(ring);
      FitsApplies(ring, delta, was, now);
      LatestWorld(ring);
      var body := Detached(delta);
      var latest := history.Get(history.latestRevision);
      var latestState := if latest.Full? then latest.state else Null;
      LatestIs(ring);
      if PATCH_FROM !in delta.members {
        diff := MergeDiff(latestState, body, Generate(latestState, body));
        Accept(body, latestState, diff);
        rev := Revision(body);
      } else {
        var from := delta.members[PATCH_FROM].n;
        var current := history.Get(from);
        HasIs(ring, from);
        if current.Empty? || Revision(current.state) != from {
          return 0, Diff([], [], [], [], []);
        }
        var state := MergePatch(current.state, body);
        if from % history.slots.Length == history.latestRevision % history.slots.Length {
          SameSlotSame(ring, from);
          diff := MergeDiff(latestState, state, body);
        } else {
          diff := MergeDiff(latestState, state, Generate(latestState, state));
        }
        Accept(state, latestState, diff);
        rev := Revision(state);
      }
    }

    lemma Parts(r: Ring)
      requires Valid() && r == history.Model()
      ensures Worlds(r) && r.Valid() && Mirrors(entities, Latest(r))
      ensures r.latest == history.latestRevision && |r.slots| == history.slots.Length > 0
    {
    }

    /** Reacts to a new state, and makes it the latest. */
    method Accept(now: Json, ghost was: Json, diff: Diff)
      requires Worlds(history.Model()) && history.Model().Valid() && IsWorld(now) && was == Latest(history.Model())
      requires Mirrors(entities, was) && Exact(diff, was, now, AllEntities(was, now))
      modifies this`entities, this`ackStateRev, this`revision, history`latestRevision, history.slots
      ensures IsState(now) && old(history.Model()).Valid()
      ensures Valid() && Mirrors(entities, now) && history.Model() == old(history.Model()).Insert(now)
      ensures ackStateRev == revision == ValueInt(Revision(now))
    {
      hide *;
      ghost var before := history.Model();
      WorldIsState(now);
      InsertWorld(before, now);
      entities := HandleStateDiff(entities, was, now, diff);
      var rev := ValueInt(Revision(now));
      ackStateRev, revision := rev, rev;
      history.Insert(now);
      NowValid(now);
    }

    lemma NowValid(now: Json)
      requires Worlds(history.Model()) && history.Model().Valid() && Latest(history.Model()) == now
          && Mirrors(entities, now)
      ensures Valid()
    {
    }
  }

  /** In every run, what the server has sent fits the client's ring: so the client follows the server's entities. */
  lemma SentFits(n: nat, steps: seq<Step>, d: Json) returns (was: Json, now: Json)
    requires n > 0 && d in After(n, steps).sent && forall s :: s in After(n, steps).states ==> IsWorld(s)
    ensures var w := After(n, steps); Fits(w.client, d, was, now) && now in w.states && Worlds(w.client)
  {
    AlwaysSafe(n, steps);
    var w := After(n, steps);
    hide After, Safe, Keeps, SetDelta, MergeDelta, IsWorld, IsState;
    SafeParts(w, d);
    var from, rev := SentIs(w.states, d);
    now := w.states[rev - 1];
    was := if from == 0 then now else w.states[from - 1];
    if from > 0 && w.client.Has(from) { HasGenuine(w.states, w.client, from); }
  }

  lemma SafeParts(w: World, d: Json)
    requires Safe(w) && d in w.sent
    ensures IsHistory(w.states) && GenuineRing(w.states, w.client) && SentBy(w.states, d)
  {
  }

  lemma WorldIsState(now: Json)
    requires IsWorld(now)
    ensures IsState(now)
  {
  }

  lemma LatestIs(r: Ring)
    requires r.Valid()
    ensures Latest(r) == if r.Get(r.latest).Full? then r.Get(r.latest).state else Null
  {
  }

  lemma HasIs(r: Ring, rev: nat)
    requires r.Valid()
    ensures r.Get(rev).Full? ==> IsState(r.Get(rev).state)
    ensures r.Has(rev) <==> r.Get(rev).Full? && Revision(r.Get(rev).state) == rev
  {
  }

  /** A state in the slot of the latest revision is the latest state. */
  lemma SameSlotSame(r: Ring, rev: nat)
    requires r.Valid() && rev % |r.slots| == r.latest % |r.slots|
    ensures r.Get(rev) == r.Get(r.latest)
  {
  }

  // ----- Whole runs -----

  /** Only deltas that were sent arrive, and none of them gives the state that is the client's latest already. */
  ghost predicate Arrivals(n: nat, steps: seq<Step>)
    requires n > 0
  {
    forall k :: 0 <= k < |steps| && steps[k].Deliver? ==> Arrives(After(n, steps[..k]), steps[k].d)
  }

  ghost predicate Arrives(w: World, d: Json) {
    d in w.sent && w.client.Valid() && d.Obj? && w.client.Apply(d) != Accepted(Latest(w.client))
  }

  /** In every such run the client's ring is that of the protocol, and its list mirrors its latest state; it
    * acknowledges its latest revision exactly as long as that is an int. */
  method FollowRun(n: nat, steps: seq<Step>) returns (client: Client)
    requires n > 0 && Arrivals(n, steps) && forall s :: s in After(n, steps).states ==> IsWorld(s)
    ensures client.Valid() && client.history.Model() == After(n, steps).client
    ensures client.history.Model().Valid() && Mirrors(client.entities, Latest(client.history.Model()))
    ensures client.ackStateRev == ValueInt(client.history.latestRevision)
    ensures client.ackStateRev == client.history.latestRevision <==> client.history.latestRevision <= INT_MAX
  {
    hide Do, Start, Arrives, Arrivals, Latest, Mirrors, IsWorld;
    client := new Client(n);
    RunStart(n, steps, client.history.Model());
    for i := 0 to |steps|
      invariant fresh(client) && fresh(client.history) && fresh(client.history.slots)
      invariant client.Valid() && client.history.Model() == After(n, steps[..i]).client
      invariant client.ackStateRev == ValueInt(client.history.latestRevision)
    {
      RunNext(n, steps, i);
      match steps[i] {
        case Deliver(d) => DeliverTo(client, d, n, steps[..i]);
        case Tick(now) => NotDelivered(After(n, steps[..i]), steps[i]);
        case Ack(rev) => NotDelivered(After(n, steps[..i]), steps[i]);
      }
    }
    assert steps[..|steps|] == steps;
    client.Parts(client.history.Model());
  }

  /** The client takes a delta in as the protocol does. */
  method DeliverTo(client: Client, d: Json, ghost n: nat, ghost steps: seq<Step>)
    requires n > 0 && Arrives(After(n, steps), d) && forall s :: s in After(n, steps).states ==> IsWorld(s)
    requires client.Valid() && client.history.Model() == After(n, steps).client
    requires client.ackStateRev == ValueInt(client.history.latestRevision)
    modifies client`entities, client`ackStateRev, client`revision, client.history`latestRevision, client.history.slots
    ensures client.Valid() && client.history.Model() == Do(After(n, steps), Deliver(d)).client
    ensures client.ackStateRev == ValueInt(client.history.latestRevision)
  {
    hide *;
    ghost var w := After(n, steps);
    ArrivesParts(w, d);
    ghost var was, now := SentFits(n, steps, d);
    FitsApplies(w.client, d, was, now);
    DeliverIs(w, d, now);
    client.Parts(client.history.Model());
    var _, _ := client.ParseStateDiff(d, was, now);
    client.Parts(client.history.Model());
    InsertLatest(w.client, now);
  }

  lemma ArrivesParts(w: World, d: Json)
    requires Arrives(w, d)
    ensures d in w.sent && w.client.Valid() && d.Obj? && w.client.Apply(d) != Accepted(Latest(w.client))
  {
  }

  lemma DeliverIs(w: World, d: Json, now: Json)
    requires d in w.sent && w.client.Valid() && d.Obj? && IsState(now)
    requires w.client.Apply(d) == Accepted(now) || w.client.Apply(d) == Rejected
    ensures Do(w, Deliver(d)).client == if w.client.Apply(d) == Accepted(now) then w.client.Insert(now) else w.client
  {
  }

  lemma InsertLatest(r: Ring, now: Json)
    requires r.Valid() && IsState(now)
    ensures r.Insert(now).latest == Revision(now)
  {
  }

  lemma NotDelivered(w: World, step: Step)
    requires !step.Deliver?
    ensures Do(w, step).client == w.client
  {
  }

  lemma RunStart(n: nat, steps: seq<Step>, r: Ring)
    requires n > 0 && r.latest == 0 && |r.slots| == n && forall i :: 0 <= i < n ==> r.slots[i] == Empty
    ensures After(n, steps[..0]).client == r
  {
  }

  /** What holds of step i of a run. */
  lemma RunNext(n: nat, steps: seq<Step>, i: nat)
    requires n > 0 && Arrivals(n, steps) && (forall s :: s in After(n, steps).states ==> IsWorld(s)) && i < |steps|
    ensures After(n, steps[..i + 1]) == Do(After(n, steps[..i]), steps[i])
    ensures steps[i].Deliver? ==> Arrives(After(n, steps[..i]), steps[i].d)
    ensures forall s :: s in After(n, steps[..i]).states ==> IsWorld(s)
  {
    hide Do, IsWorld, Arrives;
    assert steps[..i + 1][..i] == steps[..i];
    StatesStay(n, steps, i);
  }

  lemma {:induction false} StatesStay(n: nat, steps: seq<Step>, i: nat)
    requires n > 0 && i <= |steps|
    ensures After(n, steps[..i]).states <= After(n, steps).states
    decreases |steps|
  {
    if i == |steps| {
      assert steps[..i] == steps;
    } else {
      var before := steps[..|steps| - 1];
      StatesStay(n, before, i);
      assert before[..i] == steps[..i];
    }
  }
}
