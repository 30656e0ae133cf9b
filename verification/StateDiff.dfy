/** What changed between two world states: the lists of entities and components that the client reacts to. */
module StateDiff {
  import opened Options
  import opened MergePatches
  import opened StateHistory

  /** A state whose entities are objects with their id and their components. */
  predicate IsWorld(j: Json) {
    && IsState(j) && j.members["entities"].Obj?
    && forall e :: e in j.members["entities"].members ==> IsEntity(e, j.members["entities"].members[e])
  }

  predicate IsEntity(id: string, e: Json) {
    && e.Obj? && e.members.Keys == {"id", "components"} && e.members["id"] == Str(id) && e.members["components"].Obj?
    && NullFree(e)
  }

  /** The entities of a state, and none of a state that is not there. */
  function Entities(j: Json): map<string, Json> {
    if IsWorld(j) then j.members["entities"].members else map[]
  }

  /** The components of an entity of a state; none if it does not have the entity. */
  function Components(j: Json, e: string): map<string, Json> {
    if e in Entities(j) && IsEntity(e, Entities(j)[e]) then Entities(j)[e].members["components"].members else map[]
  }

  /** A component with its old and its new value. */
  datatype Ref = Ref(entity: string, component: string, was: Option<Json>, now: Option<Json>)

  datatype Diff = Diff(newEntities: seq<string>, deletedEntities: seq<string>,
                       newComponents: seq<Ref>, deletedComponents: seq<Ref>, updatedComponents: seq<Ref>)

  // ----- What the lists should hold -----

  type Members = map<string, Json>

  /** The component r.component of r.entity has come, with this value. */
  predicate IsNew(r: Ref, was: Members, now: Members) {
    r.component in now && r.component !in was && r.was == None && r.now == Some(now[r.component])
  }

  predicate IsDeleted(r: Ref, was: Members, now: Members) {
    r.component in was && r.component !in now && r.was == Some(was[r.component]) && r.now == None
  }

  predicate IsUpdated(r: Ref, was: Members, now: Members) {
    && r.component in was && r.component in now && was[r.component] != now[r.component]
    && r.was == Some(was[r.component]) && r.now == Some(now[r.component])
  }

  /** The list has exactly these elements, each once. */
  ghost predicate Lists<T(!new)>(list: seq<T>, elements: iset<T>) {
    forall x :: multiset(list)[x] == if x in elements then 1 else 0
  }

  /** These, and what has come in some components of entity e. */
  ghost function WithNew(refs: iset<Ref>, e: string, was: Members, now: Members, cs: set<string>): iset<Ref> {
    iset r: Ref | r in refs || (r.entity == e && r.component in cs && IsNew(r, was, now))
  }

  ghost function WithDeleted(refs: iset<Ref>, e: string, was: Members, now: Members, cs: set<string>): iset<Ref> {
    iset r: Ref | r in refs || (r.entity == e && r.component in cs && IsDeleted(r, was, now))
  }

  ghost function WithUpdated(refs: iset<Ref>, e: string, was: Members, now: Members, cs: set<string>): iset<Ref> {
    iset r: Ref | r in refs || (r.entity == e && r.component in cs && IsUpdated(r, was, now))
  }

  /** The component lists have `before` and the differences of entity e in the components `cs`. */
  ghost predicate ExactIn(d: Diff, before: Expected, e: string, was: Members, now: Members, cs: set<string>) {
    && Lists(d.newComponents, WithNew(before.new_, e, was, now, cs))
    && Lists(d.deletedComponents, WithDeleted(before.deleted, e, was, now, cs))
    && Lists(d.updatedComponents, WithUpdated(before.updated, e, was, now, cs))
  }

  datatype Expected = Expected(new_: iset<Ref>, deleted: iset<Ref>, updated: iset<Ref>)

  /** The component differences in the entities `es`. */
  ghost function ExpectedOf(was: Json, now: Json, es: set<string>): Expected {
    Expected(iset r: Ref | r.entity in es && IsNew(r, Components(was, r.entity), Components(now, r.entity)),
             iset r: Ref | r.entity in es && IsDeleted(r, Components(was, r.entity), Components(now, r.entity)),
             iset r: Ref | r.entity in es && IsUpdated(r, Components(was, r.entity), Components(now, r.entity)))
  }

  /** The lists have exactly the differences in the entities `es`. */
  ghost predicate Exact(d: Diff, was: Json, now: Json, es: set<string>) {
    && Lists(d.newEntities, iset e | e in es && e in Entities(now) && e !in Entities(was))
    && Lists(d.deletedEntities, iset e | e in es && e in Entities(was) && e !in Entities(now))
    && Lists(d.newComponents, ExpectedOf(was, now, es).new_)
    && Lists(d.deletedComponents, ExpectedOf(was, now, es).deleted)
    && Lists(d.updatedComponents, ExpectedOf(was, now, es).updated)
  }

  // ----- Computing them -----

  lemma ListsAdd<T(!new)>(list: seq<T>, elements: iset<T>, x: T, more: iset<T>)
    requires Lists(list, elements) && x !in elements && forall y :: y in more <==> y in elements || y == x
    ensures Lists(list + [x], more)
  {
    assert multiset(list + [x]) == multiset(list) + multiset{x};
  }

  lemma ListsSame<T(!new)>(list: seq<T>, elements: iset<T>, same: iset<T>)
    requires Lists(list, elements) && forall y :: y in same <==> y in elements
    ensures Lists(list, same)
  {
  }

  /** What a component's entry in a patch of the components means. */
  predicate Entry(c: string, partial: Members, was: Members, now: Members) {
    c in partial && if partial[c] == Null then c in was && c !in now
                    else c in now && (c in was ==> was[c] != now[c])
  }

  /** Lists one component that differs. */
  method DiffComponent(e: string, c: string, partial: Members, was: Members, now: Members, d: Diff,
                       ghost before: Expected, ghost cs: set<string>)
    returns (d': Diff)
    requires ExactIn(d, before, e, was, now, cs) && c !in cs && Entry(c, partial, was, now)
    requires forall r :: r in before.new_ || r in before.deleted || r in before.updated ==> r.entity != e
    ensures ExactIn(d', before, e, was, now, cs + {c})
    ensures d'.newEntities == d.newEntities && d'.deletedEntities == d.deletedEntities
  {
    hide *;
    var ref := Ref(e, c, if c in was then Some(was[c]) else None, if c in now then Some(now[c]) else None);
    OneMoreComponent(e, c, partial, was, now, before, cs, ref);
    ExactInParts(d, before, e, was, now, cs);
    ghost var n0, n1 := WithNew(before.new_, e, was, now, cs), WithNew(before.new_, e, was, now, cs + {c});
    ghost var d0, d1 := WithDeleted(before.deleted, e, was, now, cs),
        WithDeleted(before.deleted, e, was, now, cs + {c});
    ghost var u0, u1 := WithUpdated(before.updated, e, was, now, cs),
        WithUpdated(before.updated, e, was, now, cs + {c});
    AddsMeans(c !in was, n0, n1, ref);
    AddsMeans(partial[c] == Null, d0, d1, ref);
    AddsMeans(partial[c] != Null && c in was, u0, u1, ref);
    if partial[c] == Null {
      d' := d.(deletedComponents := d.deletedComponents + [ref]);
      ListsSame(d.newComponents, n0, n1);
      ListsAdd(d.deletedComponents, d0, ref, d1);
      ListsSame(d.updatedComponents, u0, u1);
    } else if c !in was {
      d' := d.(newComponents := d.newComponents + [ref]);
      ListsAdd(d.newComponents, n0, ref, n1);
      ListsSame(d.deletedComponents, d0, d1);
      ListsSame(d.updatedComponents, u0, u1);
    } else {
      d' := d.(updatedComponents := d.updatedComponents + [ref]);
      ListsSame(d.newComponents, n0, n1);
      ListsSame(d.deletedComponents, d0, d1);
      ListsAdd(d.updatedComponents, u0, ref, u1);
    }
    IsExactIn(d', before, e, was, now, cs + {c});
  }

  lemma ExactInParts(d: Diff, before: Expected, e: string, was: Members, now: Members, cs: set<string>)
    requires ExactIn(d, before, e, was, now, cs)
    ensures Lists(d.newComponents, WithNew(before.new_, e, was, now, cs))
    ensures Lists(d.deletedComponents, WithDeleted(before.deleted, e, was, now, cs))
    ensures Lists(d.updatedComponents, WithUpdated(before.updated, e, was, now, cs))
  {
  }

  lemma IsExactIn(d: Diff, before: Expected, e: string, was: Members, now: Members, cs: set<string>)
    requires Lists(d.newComponents, WithNew(before.new_, e, was, now, cs))
    requires Lists(d.deletedComponents, WithDeleted(before.deleted, e, was, now, cs))
    requires Lists(d.updatedComponents, WithUpdated(before.updated, e, was, now, cs))
    ensures ExactIn(d, before, e, was, now, cs)
  {
  }

  /** The second set has this reference more if b holds, and is the same otherwise. */
  ghost predicate AddsIf(b: bool, before: iset<Ref>, after: iset<Ref>, ref: Ref) {
    (b ==> ref !in before) && forall r :: r in after <==> r in before || (b && r == ref)
  }

  lemma AddsMeans(b: bool, before: iset<Ref>, after: iset<Ref>, ref: Ref)
    requires AddsIf(b, before, after, ref)
    ensures b ==> ref !in before && forall r :: r in after <==> r in before || r == ref
    ensures !b ==> forall r :: r in after <==> r in before
  {
  }

  /** A component that differs adds its reference to one of the sets. */
  lemma OneMoreComponent(e: string, c: string, partial: Members, was: Members, now: Members, before: Expected,
                         cs: set<string>, ref: Ref)
    requires c !in cs && Entry(c, partial, was, now)
    requires ref == Ref(e, c, if c in was then Some(was[c]) else None, if c in now then Some(now[c]) else None)
    requires forall r :: r in before.new_ || r in before.deleted || r in before.updated ==> r.entity != e
    ensures c in partial && (partial[c] == Null ==> c in was) && (partial[c] != Null ==> c in now)
    ensures AddsIf(c !in was, WithNew(before.new_, e, was, now, cs), WithNew(before.new_, e, was, now, cs + {c}), ref)
    ensures AddsIf(partial[c] == Null, WithDeleted(before.deleted, e, was, now, cs),
                   WithDeleted(before.deleted, e, was, now, cs + {c}), ref)
    ensures AddsIf(partial[c] != Null && c in was, WithUpdated(before.updated, e, was, now, cs),
                   WithUpdated(before.updated, e, was, now, cs + {c}), ref)
  {
  }

  /** Lists all components of a patch of the components. */
  method DiffComponents(e: string, partial: Members, was: Members, now: Members, d: Diff, ghost before: Expected)
    returns (d': Diff)
    requires ExactIn(d, before, e, was, now, {}) && forall c :: c in partial ==> Entry(c, partial, was, now)
    requires forall r :: r in before.new_ || r in before.deleted || r in before.updated ==> r.entity != e
    ensures ExactIn(d', before, e, was, now, partial.Keys)
    ensures d'.newEntities == d.newEntities && d'.deletedEntities == d.deletedEntities
  {
    hide *;
    d' := d;
    var left := partial.Keys;
    assert partial.Keys - left == {};
    while left != {}
      invariant left <= partial.Keys && ExactIn(d', before, e, was, now, partial.Keys - left)
      invariant d'.newEntities == d.newEntities && d'.deletedEntities == d.deletedEntities
      decreases |left|
    {
      var c :| c in left;
      assert partial.Keys - left + {c} == partial.Keys - (left - {c});
      d' := DiffComponent(e, c, partial, was, now, d', before, partial.Keys - left);
      left := left - {c};
    }
    assert partial.Keys - left == partial.Keys;
  }

  // ----- Entities -----

  /** The member of an object, or no members if there is none. */
  function MembersOf(j: Json, key: string): Members {
    if j.Obj? && key in j.members && j.members[key].Obj? then j.members[key].members else map[]
  }

  /** What an entity's entry in a patch of the entities means. */
  ghost predicate EntityEntry(e: string, edesc: Json, was: Json, now: Json) {
    if edesc == Null then e in Entities(was) && e !in Entities(now)
    else if e !in Entities(was) then e in Entities(now) && edesc == Entities(now)[e]
    else
      var partial, cw, cn := MembersOf(edesc, "components"), Components(was, e), Components(now, e);
      && e in Entities(now) && (forall c :: c in partial ==> Entry(c, partial, cw, cn))
      && (forall c :: c in cw && (c !in cn || cw[c] != cn[c]) ==> c in partial)
        && (forall c :: c in cn && c !in cw ==> c in partial)
  }

  /** A patch of the entities: an entry for every entity that differs. */
  ghost predicate EntityPatch(patch: Members, was: Json, now: Json) {
    && (forall e :: e in patch ==> EntityEntry(e, patch[e], was, now))
    && (forall e :: e !in patch ==>
        (e in Entities(was) <==> e in Entities(now)) && Components(was, e) == Components(now, e))
  }

  lemma SameEntity(a: Json, b: Json, e: string)
    requires IsEntity(e, a) && IsEntity(e, b) && a.members["components"] == b.members["components"]
    ensures a == b
  {
    assert a.members == b.members;
  }

  lemma GeneratedEntry(was: Json, now: Json, e: string)
    requires IsWorld(was) && IsWorld(now)
    requires was.members["entities"] != now.members["entities"]
        && Differs(was.members["entities"], now.members["entities"], e)
    ensures var patch := Generate(was.members["entities"], now.members["entities"]);
      patch.Obj? && e in patch.members && EntityEntry(e, patch.members[e], was, now)
  {
    var ew, en := was.members["entities"].members, now.members["entities"].members;
    if e in ew && e in en {
      var a, b := ew[e], en[e];
      assert IsEntity(e, a) && IsEntity(e, b);
      assert a.members.Keys == b.members.Keys == {"id", "components"};
      if a.members["components"] == b.members["components"] { SameEntity(a, b, e); }
      assert Differs(a, b, "components");
      ComponentEntries(a, b, e);
    }
  }

  lemma ComponentEntries(a: Json, b: Json, e: string)
    requires IsEntity(e, a) && IsEntity(e, b) && Differs(a, b, "components")
    ensures var patch := Generate(a, b);
      var partial, cw, cn := MembersOf(patch, "components"), a.members["components"].members,
          b.members["components"].members;
      && patch != Null && (forall c :: c in partial ==> Entry(c, partial, cw, cn))
      && (forall c :: c in cw && (c !in cn || cw[c] != cn[c]) ==> c in partial)
        && (forall c :: c in cn && c !in cw ==> c in partial)
  {
    var ca, cb := a.members["components"], b.members["components"];
    var p := Generate(ca, cb);
    assert NullFree(cb);
    assert Generate(a, b).members["components"] == p;
    forall c | c in p.members ensures Entry(c, p.members, ca.members, cb.members) {
      if c in cb.members {
        if c in ca.members { GenerateNotNull(ca.members[c], cb.members[c]); }
      }
    }
  }

  lemma PatchOfEntities(was: Json, now: Json)
    requires IsWorld(was) && IsWorld(now)
    ensures var ew, en := was.members["entities"], now.members["entities"];
      MembersOf(Generate(was, now), "entities") == if ew == en then map[] else Generate(ew, en).members
  {
    hide NullFree, IsEntity;
    var ew, en := was.members["entities"], now.members["entities"];
    assert Differs(was, now, "entities") <==> ew != en;
  }

  lemma SameElsewhere(was: Json, now: Json, e: string)
    requires IsWorld(was) && IsWorld(now) && !Differs(was.members["entities"], now.members["entities"], e)
    ensures (e in Entities(was) <==> e in Entities(now)) && Components(was, e) == Components(now, e)
  {
  }

  /** The patch between two states lists the entities that differ. */
  lemma GeneratedEntities(was: Json, now: Json)
    requires (was == Null || IsWorld(was)) && IsWorld(now)
    ensures EntityPatch(MembersOf(Generate(was, now), "entities"), was, now)
  {
    var patch := MembersOf(Generate(was, now), "entities");
    if was == Null {
      assert patch == Entities(now) && Entities(was) == map[];
      forall e | e in patch ensures patch[e] != Null { assert IsEntity(e, patch[e]); }
    } else {
      PatchOfEntities(was, now);
      AllEntries(was, now, patch);
    }
  }

  lemma AllEntries(was: Json, now: Json, patch: Members)
    requires IsWorld(was) && IsWorld(now)
    requires var ew, en := was.members["entities"], now.members["entities"];
      patch == if ew == en then map[] else Generate(ew, en).members
    ensures EntityPatch(patch, was, now)
  {
    var ew, en := was.members["entities"], now.members["entities"];
    hide EntityEntry, Components, Entities, IsWorld;
    forall e | e in patch ensures EntityEntry(e, patch[e], was, now) {
      GeneratedEntry(was, now, e);
    }
    forall e | e !in patch ensures (e in Entities(was) <==> e in Entities(now))
        && Components(was, e) == Components(now, e) {
      if Differs(ew, en, e) { GeneratedEntry(was, now, e); } else { SameElsewhere(was, now, e); }
    }
  }

  /** Lists what has changed in one entity. */
  method DiffEntity(e: string, edesc: Json, was: Json, now: Json, d: Diff, ghost es: set<string>) returns (d': Diff)
    requires IsWorld(now) && Exact(d, was, now, es) && e !in es && EntityEntry(e, edesc, was, now)
    ensures Exact(d', was, now, es + {e})
  {
    ghost var before := ExpectedOf(was, now, es);
    hide Lists, ExactIn, Entry, EntityEntry, ExpectedOf, Exact, Differing, Components, Entities, MembersOf, IsWorld;
    NothingYet(d, was, now, es, e);
    if edesc == Null {
      d' := d.(deletedEntities := d.deletedEntities + [e]);
      // every component of the entity is gone
      var gone := map c | c in Components(was, e) :: Null;
      EntityGone(e, edesc, was, now, gone);
      d' := DiffComponents(e, gone, Components(was, e), Components(now, e), d', before);
      EntityDone(d, d', was, now, es, e, gone.Keys);
    } else if e !in Entities(was) {
      d' := d.(newEntities := d.newEntities + [e]);
      // every component of the entity is new
      var come := MembersOf(edesc, "components");
      EntityCome(e, edesc, was, now);
      d' := DiffComponents(e, come, Components(was, e), Components(now, e), d', before);
      EntityDone(d, d', was, now, es, e, come.Keys);
    } else {
      var partial := MembersOf(edesc, "components");
      EntityStays(e, edesc, was, now);
      d' := DiffComponents(e, partial, Components(was, e), Components(now, e), d, before);
      EntityDone(d, d', was, now, es, e, partial.Keys);
    }
  }

  predicate SameComponents(d: Diff, d': Diff) {
    d.newComponents == d'.newComponents && d.deletedComponents == d'.deletedComponents
      && d.updatedComponents == d'.updatedComponents
  }

  lemma NothingYet(d: Diff, was: Json, now: Json, es: set<string>, e: string)
    requires Exact(d, was, now, es) && e !in es
    ensures var before := ExpectedOf(was, now, es);
      && (forall d': Diff :: SameComponents(d', d) ==>
          ExactIn(d', before, e, Components(was, e), Components(now, e), {}))
      && (forall r :: r in before.new_ || r in before.deleted || r in before.updated ==> r.entity != e)
  {
    hide IsNew, IsDeleted, IsUpdated;
  }

  /** The components `cs` are all of an entity that differ. */
  ghost predicate Differing(was: Members, now: Members, cs: set<string>) {
    && (forall c :: c in was && (c !in now || was[c] != now[c]) ==> c in cs)
      && (forall c :: c in now && c !in was ==> c in cs)
  }

  lemma EntityGone(e: string, edesc: Json, was: Json, now: Json, gone: Members)
    requires EntityEntry(e, edesc, was, now) && edesc == Null && gone == map c | c in Components(was, e) :: Null
    ensures forall c :: c in gone ==> Entry(c, gone, Components(was, e), Components(now, e))
    ensures Differing(Components(was, e), Components(now, e), gone.Keys) && e in Entities(was) && e !in Entities(now)
  {
  }

  lemma EntityCome(e: string, edesc: Json, was: Json, now: Json)
    requires EntityEntry(e, edesc, was, now) && edesc != Null && e !in Entities(was) && IsWorld(now)
    ensures var come := MembersOf(edesc, "components");
      && (forall c :: c in come ==> Entry(c, come, Components(was, e), Components(now, e)))
      && Differing(Components(was, e), Components(now, e), come.Keys) && e in Entities(now)
  {
    assert IsEntity(e, edesc);
    assert NullFree(edesc.members["components"]);
  }

  lemma EntityStays(e: string, edesc: Json, was: Json, now: Json)
    requires EntityEntry(e, edesc, was, now) && edesc != Null && e in Entities(was)
    ensures var partial := MembersOf(edesc, "components");
      && (forall c :: c in partial ==> Entry(c, partial, Components(was, e), Components(now, e)))
      && Differing(Components(was, e), Components(now, e), partial.Keys) && e in Entities(now)
  {
  }

  lemma EntityDone(d: Diff, d': Diff, was: Json, now: Json, es: set<string>, e: string, cs: set<string>)
    requires Exact(d, was, now, es) && e !in es && Differing(Components(was, e), Components(now, e), cs)
    requires ExactIn(d', ExpectedOf(was, now, es), e, Components(was, e), Components(now, e), cs)
    requires d'.newEntities == d.newEntities + (if e in Entities(now) && e !in Entities(was) then [e] else [])
    requires d'.deletedEntities == d.deletedEntities + (if e in Entities(was) && e !in Entities(now) then [e] else [])
    ensures Exact(d', was, now, es + {e})
  {
    EntitiesDone(d.newEntities, was, now, es, e);
    EntitiesDone(d.deletedEntities, now, was, es, e);
    ComponentsDone(d', was, now, es, e, cs);
  }

  lemma EntitiesDone(list: seq<string>, was: Json, now: Json, es: set<string>, e: string)
    requires Lists(list, (iset x | x in es && x in Entities(now) && x !in Entities(was))) && e !in es
    ensures Lists(list + (if e in Entities(now) && e !in Entities(was) then [e] else []),
                  iset x | x in es + {e} && x in Entities(now) && x !in Entities(was))
  {
    hide Lists;
    var a := iset x | x in es && x in Entities(now) && x !in Entities(was);
    var b := iset x | x in es + {e} && x in Entities(now) && x !in Entities(was);
    if e in Entities(now) && e !in Entities(was) {
      ListsAdd(list, a, e, b);
    } else {
      assert list + [] == list;
      ListsSame(list, a, b);
    }
  }

  lemma ComponentsDone(d: Diff, was: Json, now: Json, es: set<string>, e: string, cs: set<string>)
    requires Differing(Components(was, e), Components(now, e), cs)
    requires ExactIn(d, ExpectedOf(was, now, es), e, Components(was, e), Components(now, e), cs)
    ensures Lists(d.newComponents, ExpectedOf(was, now, es + {e}).new_)
    ensures Lists(d.deletedComponents, ExpectedOf(was, now, es + {e}).deleted)
    ensures Lists(d.updatedComponents, ExpectedOf(was, now, es + {e}).updated)
  {
    hide Lists, Components, ExpectedOf;
    NewDone(d.newComponents, was, now, es, e, cs);
    DeletedDone(d.deletedComponents, was, now, es, e, cs);
    UpdatedDone(d.updatedComponents, was, now, es, e, cs);
  }

  lemma NewDone(list: seq<Ref>, was: Json, now: Json, es: set<string>, e: string, cs: set<string>)
    requires Differing(Components(was, e), Components(now, e), cs)
    requires Lists(list, WithNew(ExpectedOf(was, now, es).new_, e, Components(was, e), Components(now, e), cs))
    ensures Lists(list, ExpectedOf(was, now, es + {e}).new_)
  {
    hide Lists, Components;
    ListsSame(list, WithNew(ExpectedOf(was, now, es).new_, e, Components(was, e), Components(now, e), cs),
              ExpectedOf(was, now, es + {e}).new_);
  }

  lemma DeletedDone(list: seq<Ref>, was: Json, now: Json, es: set<string>, e: string, cs: set<string>)
    requires Differing(Components(was, e), Components(now, e), cs)
    requires Lists(list, WithDeleted(ExpectedOf(was, now, es).deleted, e, Components(was, e), Components(now, e), cs))
    ensures Lists(list, ExpectedOf(was, now, es + {e}).deleted)
  {
    hide Lists, Components;
    ListsSame(list, WithDeleted(ExpectedOf(was, now, es).deleted, e, Components(was, e), Components(now, e), cs),
              ExpectedOf(was, now, es + {e}).deleted);
  }

  lemma UpdatedDone(list: seq<Ref>, was: Json, now: Json, es: set<string>, e: string, cs: set<string>)
    requires Differing(Components(was, e), Components(now, e), cs)
    requires Lists(list, WithUpdated(ExpectedOf(was, now, es).updated, e, Components(was, e), Components(now, e), cs))
    ensures Lists(list, ExpectedOf(was, now, es + {e}).updated)
  {
    hide Lists, Components;
    ListsSame(list, WithUpdated(ExpectedOf(was, now, es).updated, e, Components(was, e), Components(now, e), cs),
              ExpectedOf(was, now, es + {e}).updated);
  }

  lemma NothingListed(was: Json, now: Json)
    ensures Exact(Diff([], [], [], [], []), was, now, {})
  {
  }

  /** Every entity of either state. */
  function AllEntities(was: Json, now: Json): set<string> {
    Entities(was).Keys + Entities(now).Keys
  }

  /** Entities without an entry have no differences. */
  lemma OthersSame(d: Diff, was: Json, now: Json, patch: Members)
    requires EntityPatch(patch, was, now) && Exact(d, was, now, patch.Keys)
    ensures Exact(d, was, now, AllEntities(was, now))
  {
    var all, es := AllEntities(was, now), patch.Keys;
    var x, y := ExpectedOf(was, now, es), ExpectedOf(was, now, all);
    OtherComponents(was, now, patch);
    hide Lists, Components, Entities, ExpectedOf;
    ListsSame(d.newEntities, (iset e | e in es && e in Entities(now) && e !in Entities(was)),
              (iset e | e in all && e in Entities(now) && e !in Entities(was)));
    ListsSame(d.deletedEntities, (iset e | e in es && e in Entities(was) && e !in Entities(now)),
              (iset e | e in all && e in Entities(was) && e !in Entities(now)));
  }

  /** Entities that the patch does not mention have no components that differ. */
  lemma OtherComponents(was: Json, now: Json, patch: Members)
    requires EntityPatch(patch, was, now)
    ensures ExpectedOf(was, now, patch.Keys) == ExpectedOf(was, now, AllEntities(was, now))
  {
    hide EntityPatch, Entities, Components, IsNew, IsDeleted, IsUpdated, AllEntities;
    forall e | e in patch ensures e in AllEntities(was, now) { EntryThere(patch, was, now, e); }
    forall r: Ref | r.entity !in patch
      ensures !IsNew(r, Components(was, r.entity), Components(now, r.entity))
      ensures !IsDeleted(r, Components(was, r.entity), Components(now, r.entity))
      ensures !IsUpdated(r, Components(was, r.entity), Components(now, r.entity))
    {
      NoneElsewhere(was, now, patch, r);
    }
  }

  lemma EntryThere(patch: Members, was: Json, now: Json, e: string)
    requires EntityPatch(patch, was, now) && e in patch
    ensures e in AllEntities(was, now)
  {
    hide Entry, Components;
    EntryOf(patch, was, now, e);
  }

  lemma NoneElsewhere(was: Json, now: Json, patch: Members, r: Ref)
    requires EntityPatch(patch, was, now) && r.entity !in patch
    ensures !IsNew(r, Components(was, r.entity), Components(now, r.entity))
    ensures !IsDeleted(r, Components(was, r.entity), Components(now, r.entity))
    ensures !IsUpdated(r, Components(was, r.entity), Components(now, r.entity))
  {
    hide EntityEntry, Entities, Components;
  }

  /** _compute_merge_diff(), for a delta from the latest state: exactly the differences between the states, each
    * once. */
  method MergeDiff(was: Json, now: Json, delta: Json) returns (d: Diff)
    requires (was == Null || IsWorld(was)) && IsWorld(now) && delta == Generate(was, now)
    ensures Exact(d, was, now, AllEntities(was, now))
  {
    hide *;
    GeneratedEntities(was, now);
    var patch := MembersOf(delta, "entities");
    d := Diff([], [], [], [], []);
    NothingListed(was, now);
    var left := patch.Keys;
    assert patch.Keys - left == {};
    while left != {}
      invariant left <= patch.Keys && Exact(d, was, now, patch.Keys - left)
      decreases |left|
    {
      var e :| e in left;
      assert patch.Keys - left + {e} == patch.Keys - (left - {e});
      EntryOf(patch, was, now, e);
      d := DiffEntity(e, patch[e], was, now, d, patch.Keys - left);
      left := left - {e};
    }
    assert patch.Keys - left == patch.Keys;
    OthersSame(d, was, now, patch);
  }

  lemma EntryOf(patch: Members, was: Json, now: Json, e: string)
    requires EntityPatch(patch, was, now) && e in patch
    ensures EntityEntry(e, patch[e], was, now)
  {
  }
}
