/** What becomes of synchronisation with the acknowledgements that the client sends, which are ints. */
module Acknowledgements {
  import opened JsonInts
  import opened MergePatches
  import opened StateHistory
  import opened Sync

  /** The server's ring has a revision exactly if it is among the newest ones, as many as there are slots. */
  lemma ServerHolds(states: seq<Json>, r: Ring, rev: nat)
    requires IsHistory(states) && GenuineRing(states, r) && Keeps(states, r)
    ensures r.Valid() && (r.Has(rev) <==> 1 <= rev <= |states| && |states| - rev < |r.slots|)
  {
    if 1 <= rev <= |states| && |states| - rev < |r.slots| { KeepsAt(states, r, rev); }
    if r.Has(rev) { HasRecent(states, r, rev); }
  }

  /** The delta of the next tick after any acknowledgement: it is rejected exactly if the server's ring then has the
    * acknowledged revision and the client's has not. */
  lemma AckedNext(w: World, ack: nat, now: Json) returns (d: Json)
    requires Safe(w) && IsState(now) && Revision(now) == |w.states| + 1 != ack
    ensures var after := Do(Do(w, Ack(ack)), Tick(now));
      after == World(w.states + [now], w.server.Insert(now), ack, w.sent + {d}, w.client)
    ensures w.client.Valid() && d.Obj?
    ensures var held := 1 <= ack <= |w.states| && |w.states| + 1 - ack < |w.client.slots|;
      && w.client.Apply(d) == (if held && !w.client.Has(ack) then Rejected else Accepted(now))
      && (!held ==> d == SetDelta(now))
  {
    var states, server := w.states + [now], w.server.Insert(now);
    GenuineLater(w.states, w.server, now);
    GenuineInsert(states, w.server, now);
    KeepsInsert(w.states, w.server, now);
    hide GenuineRing, Keeps, SetDelta, MergeDelta;
    SentNow(states, server, ack);
    ServerHolds(states, server, ack);
    RingValid(w.states, w.client);
    d := server.Delta(ack);
    if server.Has(ack) {
      MergeAccepted(w.client, w.states[ack - 1], now);
      if w.client.Has(ack) { HasGenuine(w.states, w.client, ack); }
    } else {
      SetAccepted(w.client, now);
    }
  }

  /** What the client acknowledges after a run. */
  ghost function ClientAck(n: nat, steps: seq<Step>): nat
    requires n > 0
  {
    ValueInt(After(n, steps).client.latest)
  }

  /** After any run, with the client's own acknowledgement: the next delta is rejected exactly if the client is past the
    * largest int, has not applied that revision, and the server's ring still has it. */
  lemma OwnAckNext(n: nat, steps: seq<Step>, now: Json) returns (d: Json)
    requires n > 0 && IsState(now) && Revision(now) == |After(n, steps).states| + 1
    ensures var w := After(n, steps);
      var more := steps + [Ack(ClientAck(n, steps))] + [Tick(now)];
      && After(n, more).sent == w.sent + {d} && w.client.Valid() && d.Obj?
      && w.client.Apply(d) ==
           (if w.client.latest > INT_MAX && !w.client.Has(INT_MAX) && Revision(now) - INT_MAX < n then Rejected
            else Accepted(now))
      && (w.client.latest > INT_MAX && Revision(now) - INT_MAX >= n ==> d == SetDelta(now))
  {
    AlwaysSafe(n, steps);
    LatestHeld(n, steps);
    var w, ack := After(n, steps), ClientAck(n, steps);
    d := AckedNext(w, ack, now);
    hide *;
    OneMoreStep(n, steps, Ack(ack));
    OneMoreStep(n, steps + [Ack(ack)], Tick(now));
  }

  // ----- A client that stalls -----

  function PlainState(rev: nat): (s: Json)
    ensures IsState(s) && Revision(s) == rev
  {
    var s := Obj(map["entities" := Obj(map[]), "revision" := Num(rev)]);
    assert s.members.Keys == {"entities", "revision"};
    assert NullFree(s.members["entities"]) && NullFree(s.members["revision"]);
    s
  }

  function Ticks(k: nat): seq<Step> {
    if k == 0 then [] else Ticks(k - 1) + [Tick(PlainState(k))]
  }

  /** Nothing has been delivered or acknowledged, and the server has made k revisions. */
  ghost predicate Idle(w: World, n: nat, k: nat)
    requires n > 0
  {
    && Safe(w) && |w.states| == k && w.serverAck == 0 && w.client == EmptyRing(n)
    && (k > 0 ==> SetDelta(PlainState(k)) in w.sent)
  }

  lemma {:induction false} AfterTicks(n: nat, k: nat)
    requires n > 0
    ensures Idle(After(n, Ticks(k)), n, k)
  {
    hide *;
    TicksAre(n, k);
    if k == 0 {
      IdleStart(n);
    } else {
      AfterTicks(n, k - 1);
      OneMoreStep(n, Ticks(k - 1), Tick(PlainState(k)));
      IdleTick(After(n, Ticks(k - 1)), n, k - 1);
    }
  }

  lemma TicksAre(n: nat, k: nat)
    requires n > 0
    ensures k == 0 ==> After(n, Ticks(k)) == Start(n)
    ensures k > 0 ==> Ticks(k) == Ticks(k - 1) + [Tick(PlainState(k))]
  {
    hide Do, Start, PlainState;
  }

  lemma IdleStart(n: nat)
    requires n > 0
    ensures Idle(Start(n), n, 0)
  {
    AlwaysSafe(n, []);
  }

  lemma IdleTick(w: World, n: nat, k: nat)
    requires n > 0 && Idle(w, n, k)
    ensures Idle(Do(w, Tick(PlainState(k + 1))), n, k + 1)
  {
    hide Safe, SetDelta, MergeDelta;
    SafeAfterTick(w, PlainState(k + 1));
    var d := AckedNext(w, 0, PlainState(k + 1));
    SameAck(w, 0);
  }

  lemma SafeAfterTick(w: World, now: Json)
    requires Safe(w) && IsState(now) && Revision(now) == |w.states| + 1 != w.serverAck
    ensures Safe(Do(w, Tick(now)))
  {
    SafeTick(w, now);
  }

  lemma SameAck(w: World, ack: nat)
    requires w.serverAck == ack
    ensures Do(w, Ack(ack)) == w
  {
  }

  /** A possible run: the client applies revision top - 1, misses top and applies top + 1, patched from top - 1. */
  lemma MissesOne(n: nat, top: nat) returns (steps: seq<Step>)
    requires n >= 3 && top >= 2
    ensures var w := After(n, steps);
      |w.states| == top + 1 && w.client.Valid() && w.client.latest == top + 1 && !w.client.Has(top)
  {
    var a, b, c := PlainState(top - 1), PlainState(top), PlainState(top + 1);
    var s1 := Ticks(top - 1) + [Deliver(SetDelta(a))];
    var s2 := s1 + [Tick(b)];
    var s3 := s2 + [Ack(top - 1)] + [Tick(c)];
    AfterTicks(n, top - 1);
    OneMoreStep(n, Ticks(top - 1), Deliver(SetDelta(a)));
    TakesFirst(After(n, Ticks(top - 1)), n, top - 1);
    OneMoreStep(n, s1, Tick(b));
    MissesNext(After(n, s1), b);
    AlwaysSafe(n, s2);
    OneMoreStep(n, s2, Ack(top - 1));
    OneMoreStep(n, s2 + [Ack(top - 1)], Tick(c));
    OneTaken(n, top - 1);
    hide *;
    var d := AckedNext(After(n, s2), top - 1, c);
    steps := s3 + [Deliver(d)];
    OneMoreStep(n, s3, Deliver(d));
    TakesPatch(After(n, s3), n, top, d);
  }

  /** The first state that the client takes. */
  lemma TakesFirst(w: World, n: nat, k: nat)
    requires n > 0 && k > 0 && Idle(w, n, k)
    ensures Do(w, Deliver(SetDelta(PlainState(k)))) == w.(client := EmptyRing(n).Insert(PlainState(k)))
    ensures |w.states| == k && w.serverAck == 0
  {
    hide Safe, SetDelta;
    SetAccepted(EmptyRing(n), PlainState(k));
  }

  /** A tick whose delta is lost. */
  lemma MissesNext(w: World, now: Json)
    requires IsState(now)
    ensures Do(w, Tick(now)).client == w.client && Do(w, Tick(now)).serverAck == w.serverAck
    ensures w.server.Valid() && Revision(now) == |w.states| + 1 != w.serverAck ==>
        Do(w, Tick(now)).states == w.states + [now]
  {
  }

  lemma OneTaken(n: nat, k: nat)
    requires n > 0
    ensures EmptyRing(n).Insert(PlainState(k)).Has(k)
  {
  }

  /** The state patched to is the client's latest, and the one in between is not in its ring. */
  lemma TakesPatch(w: World, n: nat, top: nat, d: Json)
    requires n > 0 && top >= 1 && w.client == EmptyRing(n).Insert(PlainState(top - 1))
    requires d in w.sent && d.Obj? && w.client.Apply(d) == Accepted(PlainState(top + 1))
    ensures var after := Do(w, Deliver(d));
      after.states == w.states && after.client.Valid() && after.client.latest == top + 1 && !after.client.Has(top)
  {
    hide SetDelta, MergeDelta;
    var c := PlainState(top + 1);
    assert Do(w, Deliver(d)).client == w.client.Insert(c);
    assert forall i :: 0 <= i < n && w.client.Insert(c).slots[i].Full? ==>
      w.client.Insert(c).slots[i].state in {PlainState(top - 1), c};
  }

  /** A client stalls: there is a possible run after which it acknowledges the largest int, which it has not applied,
    * and the delta that the server then sends is rejected. */
  lemma Stalls(n: nat) returns (steps: seq<Step>)
    requires n >= 3
    ensures var w := After(n, steps);
      && |w.states| == w.client.latest == INT_MAX + 1 && ClientAck(n, steps) == INT_MAX
      && w.client.Valid() && !w.client.Has(INT_MAX)
    ensures forall now :: IsState(now) && Revision(now) == INT_MAX + 2 ==>
      var more := After(n, steps + [Ack(INT_MAX)] + [Tick(now)]);
      exists d :: more.sent == After(n, steps).sent + {d} && d.Obj? && After(n, steps).client.Apply(d) == Rejected
  {
    var top := INT_MAX;
    assert top >= 2;
    steps := MissesOne(n, top);
    forall now | IsState(now) && Revision(now) == INT_MAX + 2
      ensures var more := After(n, steps + [Ack(INT_MAX)] + [Tick(now)]);
        exists d :: more.sent == After(n, steps).sent + {d} && d.Obj? && After(n, steps).client.Apply(d) == Rejected
    {
      var d := OwnAckNext(n, steps, now);
    }
  }
}
