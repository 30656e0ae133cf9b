/** JSON values, and merge patches on them (section 2 of RFC 7396). */
module MergePatches {

  datatype Json =
    | Null
    | Bool(b: bool)
    | Num(n: int)
    | Str(s: string)
    | Arr(elements: seq<Json>)
    | Obj(members: map<string, Json>)

  /** No member is null, at any depth; arrays are not looked into. */
  predicate NullFree(j: Json) {
    j.Obj? ==> forall k :: k in j.members ==> j.members[k] != Null && NullFree(j.members[k])
  }

  /** Applying a merge patch. An absent target counts as null. */
  function MergePatch(target: Json, patch: Json): (r: Json)
    ensures patch.Obj? <==> r.Obj?
    decreases patch
  {
    if patch.Obj? then
      var was := if target.Obj? then target.members else map[];
      Obj(map k | k in was.Keys + patch.members.Keys && (k in patch.members ==> patch.members[k] != Null) ::
        if k in patch.members then MergePatch(if k in was then was[k] else Null, patch.members[k]) else was[k])
    else patch
  }

  /** The merge patch between two values: key by key where both are objects, otherwise the new value. */
  function Generate(was: Json, now: Json): (p: Json)
    ensures now.Obj? ==> p.Obj?
    decreases now
  {
    if !was.Obj? || !now.Obj? then now
    else
      Obj(map k | k in was.members.Keys + now.members.Keys && Differs(was, now, k) ::
        if k !in now.members then Null
        else if k !in was.members then now.members[k]
        else Generate(was.members[k], now.members[k]))
  }

  /** The member k is not the same in both objects. */
  predicate Differs(was: Json, now: Json, k: string)
    requires was.Obj? && now.Obj?
  {
    (k in was.members) != (k in now.members)
      || (k in was.members && k in now.members && was.members[k] != now.members[k])
  }

  /** A value without nulls, as a patch of something that is no object, is itself. */
  lemma {:induction false} PatchOfNothing(target: Json, patch: Json)
    requires NullFree(patch) && !target.Obj?
    ensures MergePatch(target, patch) == patch
    decreases patch
  {
    if patch.Obj? {
      forall k | k in patch.members ensures MergePatch(Null, patch.members[k]) == patch.members[k] {
        PatchOfNothing(Null, patch.members[k]);
      }
    }
  }

  /** The generated patch, applied to the old value, gives the new one. */
  lemma {:induction false} PatchRoundTrip(was: Json, now: Json)
    requires NullFree(now)
    ensures MergePatch(was, Generate(was, now)) == now
    decreases now
  {
    if !was.Obj? {
      PatchOfNothing(was, now);
    } else if now.Obj? {
      var p := Generate(was, now);
      var r := MergePatch(was, p);
      forall k | k in now.members ensures k in r.members && r.members[k] == now.members[k] {
        PatchedMember(was, now, k);
      }
      assert forall k :: k in r.members ==> k in now.members;
    }
  }

  lemma {:induction false} PatchedMember(was: Json, now: Json, k: string)
    requires NullFree(now) && was.Obj? && now.Obj? && k in now.members
    ensures var r := MergePatch(was, Generate(was, now)); k in r.members && r.members[k] == now.members[k]
    decreases now, 0
  {
    if k !in was.members {
      PatchOfNothing(Null, now.members[k]);
    } else if was.members[k] != now.members[k] {
      PatchRoundTrip(was.members[k], now.members[k]);
      GenerateNotNull(was.members[k], now.members[k]);
    }
  }

  lemma GenerateNotNull(was: Json, now: Json)
    requires now != Null
    ensures Generate(was, now) != Null
  {
  }
}
