/** Synchronisation over a channel that may lose deltas but keeps their order, with a client that acknowledges only what
  * it has applied: no delta that arrives is ever rejected. */
module SyncInOrder {
  import opened MergePatches
  import opened StateHistory
  import opened Sync

  /** The world, the deltas in the order of sending, how many of them are past delivery, and the revisions the client
    * has applied. */
  datatype Link = Link(w: World, log: seq<Json>, next: nat, applied: set<nat>)

  /** DeliverAt(i) skips, and so loses, the deltas before i that have not been delivered. */
  datatype LinkStep = LinkTick(now: Json) | LinkAck(rev: nat) | DeliverAt(i: nat)

  ghost function LinkStart(n: nat): Link
    requires n > 0
  {
    Link(Start(n), [], 0, {})
  }

  ghost function DoLink(l: Link, step: LinkStep): Link {
    match step
    case LinkTick(now) =>
      if !TickOk(l.w, now) then l
      else l.(w := Do(l.w, Tick(now)), log := l.log + [l.w.server.Insert(now).Delta(l.w.serverAck)])
    case LinkAck(rev) => if rev in l.applied then l.(w := Do(l.w, Ack(rev))) else l
    case DeliverAt(i) =>
      if !(l.next <= i < |l.log|) || !l.w.client.Valid() || !l.log[i].Obj? then l
      else
        var out := l.w.client.Apply(l.log[i]);
        Link(Do(l.w, Deliver(l.log[i])), l.log, i + 1,
             if out.Accepted? && IsState(out.state) then l.applied + {Revision(out.state)} else l.applied)
  }

  ghost function AfterLink(n: nat, steps: seq<LinkStep>): Link
    requires n > 0
  {
    if steps == [] then LinkStart(n) else DoLink(AfterLink(n, steps[..|steps| - 1]), steps[|steps| - 1])
  }

  /** Delta i is to revision i + 1: a full state, or a patch from a revision the client had applied, less than a ring's
    * length before. */
  ghost predicate Sendable(states: seq<Json>, applied: set<nat>, n: nat, d: Json, i: nat) {
    && i < |states| && IsState(states[i])
    && (d == SetDelta(states[i]) || exists from ::
        from in applied && i + 1 - from < n && PatchTo(states, d, from, i + 1))
  }

  /** The client's ring has every revision it has applied that is less than a ring's length before its newest. */
  ghost predicate ClientKeeps(states: seq<Json>, applied: set<nat>, r: Ring) {
    && r.Valid()
    && forall rev :: rev in applied ==>
         1 <= rev <= r.latest && rev <= |states| && (r.latest - rev < |r.slots| ==> r.Get(rev) == Full(states[rev - 1]))
  }

  ghost predicate InOrder(l: Link) {
    && Safe(l.w) && |l.log| == |l.w.states| && l.w.client.latest <= l.next <= |l.log|
    && (l.w.serverAck == 0 || l.w.serverAck in l.applied)
    && ClientKeeps(l.w.states, l.applied, l.w.client)
    && (forall i :: 0 <= i < |l.log| ==>
        l.log[i] in l.w.sent && Sendable(l.w.states, l.applied, |l.w.client.slots|, l.log[i], i))
  }

  lemma SendableLater(states: seq<Json>, applied: set<nat>, n: nat, d: Json, i: nat, now: Json, more: set<nat>)
    requires Sendable(states, applied, n, d, i) && applied <= more
    ensures Sendable(states + [now], more, n, d, i) && Sendable(states, more, n, d, i)
  {
    hide SetDelta, MergeDelta;
    var all := states + [now];
    assert all[i] == states[i];
    if d != SetDelta(states[i]) {
      var from :| from in applied && i + 1 - from < n && PatchTo(states, d, from, i + 1);
      assert PatchTo(all, d, from, i + 1);
    }
  }

  lemma TickInOrder(l: Link, now: Json)
    requires InOrder(l) && TickOk(l.w, now)
    ensures InOrder(DoLink(l, LinkTick(now)))
  {
    var l' := DoLink(l, LinkTick(now));
    var states, n := l'.w.states, |l.w.client.slots|;
    SafeTick(l.w, now);
    assert Safe(l'.w);
    hide SetDelta, MergeDelta, GenuineRing, Keeps;
    SafeParts(l'.w);
    SentNow(states, l'.w.server, l.w.serverAck);
    forall i | 0 <= i < |l'.log| ensures l'.log[i] in l'.w.sent && Sendable(states, l.applied, n, l'.log[i], i) {
      if i < |l.log| {
        SendableLater(l.w.states, l.applied, n, l.log[i], i, now, l.applied);
      } else if l'.w.server.Has(l.w.serverAck) {
        assert PatchTo(states, l'.log[i], l.w.serverAck, i + 1);
      }
    }
  }

  lemma SafeParts(w: World)
    requires Safe(w)
    ensures IsHistory(w.states) && GenuineRing(w.states, w.server) && Keeps(w.states, w.server)
        && GenuineRing(w.states, w.client)
    ensures |w.server.slots| == |w.client.slots|
  {
  }

  /** A delta in its turn is accepted. */
  lemma Accepts(l: Link, i: nat)
    requires InOrder(l) && l.next <= i < |l.log|
    ensures l.w.client.Valid() && l.log[i].Obj? && i < |l.w.states| && Genuine(l.w.states, l.w.states[i])
    ensures l.w.client.Apply(l.log[i]) == Accepted(l.w.states[i])
  {
    var states, r := l.w.states, l.w.client;
    assert Sendable(states, l.applied, |r.slots|, l.log[i], i);
    hide SetDelta, MergeDelta, GenuineRing, Keeps;
    if l.log[i] == SetDelta(states[i]) {
      SetAccepted(r, states[i]);
    } else {
      var from :| from in l.applied && i + 1 - from < |r.slots| && PatchTo(states, l.log[i], from, i + 1);
      MergeAccepted(r, states[from - 1], states[i]);
    }
  }

  lemma KeepsApplied(states: seq<Json>, applied: set<nat>, r: Ring, s: Json)
    requires ClientKeeps(states, applied, r) && Genuine(states, s) && Revision(s) > r.latest
    ensures ClientKeeps(states, applied + {Revision(s)}, r.Insert(s))
  {
    var rev, n := Revision(s), |r.slots|;
    forall a | a in applied && rev - a < n ensures r.Insert(s).Get(a) == Full(states[a - 1]) {
      OtherSlot(a, rev, n);
      assert r.Get(a) == Full(states[a - 1]);
    }
  }

  lemma DeliverInOrder(l: Link, i: nat)
    requires InOrder(l) && l.next <= i < |l.log|
    ensures InOrder(DoLink(l, DeliverAt(i)))
  {
    Accepts(l, i);
    SafeDeliver(l.w, l.log[i]);
    var s, n := l.w.states[i], |l.w.client.slots|;
    KeepsApplied(l.w.states, l.applied, l.w.client, s);
    var l' := DoLink(l, DeliverAt(i));
    assert l' == Link(l.w.(client := l.w.client.Insert(s)), l.log, i + 1, l.applied + {i + 1});
    hide SetDelta, MergeDelta, GenuineRing, Keeps, ClientKeeps;
    forall j | 0 <= j < |l.log| ensures Sendable(l.w.states, l'.applied, n, l.log[j], j) {
      SendableLater(l.w.states, l.applied, n, l.log[j], j, s, l'.applied);
    }
  }

  lemma {:induction false} AlwaysInOrder(n: nat, steps: seq<LinkStep>)
    requires n > 0
    ensures InOrder(AfterLink(n, steps)) && |AfterLink(n, steps).w.client.slots| == n
  {
    if steps != [] {
      AlwaysInOrder(n, steps[..|steps| - 1]);
      var l, step := AfterLink(n, steps[..|steps| - 1]), steps[|steps| - 1];
      match step
      case LinkTick(now) => if TickOk(l.w, now) { TickInOrder(l, now); }
      case LinkAck(rev) =>
      case DeliverAt(i) => if l.next <= i < |l.log| { Accepts(l, i); DeliverInOrder(l, i); }
    }
  }

  /** Sync never stalls: in every such run, whichever delta arrives next is accepted, and brings the client to the state
    * that the server had when it sent it. */
  lemma SyncNeverStalls(n: nat, steps: seq<LinkStep>, i: nat)
    requires n > 0
    requires var l := AfterLink(n, steps); l.next <= i < |l.log|
    ensures var l := AfterLink(n, steps);
      && l.w.client.Valid() && l.log[i].Obj? && i < |l.w.states| && IsState(l.w.states[i])
      && Revision(l.w.states[i]) == i + 1
      && l.w.client.Apply(l.log[i]) == Accepted(l.w.states[i])
      && AfterLink(n, steps + [DeliverAt(i)]).w.client == l.w.client.Insert(l.w.states[i])
  {
    AlwaysInOrder(n, steps);
    Accepts(AfterLink(n, steps), i);
    assert (steps + [DeliverAt(i)])[..|steps|] == steps;
  }
}
