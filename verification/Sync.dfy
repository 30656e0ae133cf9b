/** World-state synchronisation over an unreliable channel: a server that ticks, and a client that applies and
  * acknowledges deltas. */
module Sync {
  import opened MergePatches
  import opened StateHistory
  import Bits

  function EmptyRing(n: nat): (r: Ring)
    requires n > 0
    ensures r.Valid() && |r.slots| == n
  {
    Ring(seq(n, _ => Empty), 0)
  }

  /** states[r - 1] is the server's state of revision r. */
  ghost predicate IsHistory(states: seq<Json>) {
    forall i :: 0 <= i < |states| ==> IsState(states[i]) && Revision(states[i]) == i + 1
  }

  /** The state that a slot claims to be, as the server had it. */
  ghost predicate Genuine(states: seq<Json>, s: Json) {
    IsState(s) && 1 <= Revision(s) <= |states| && s == states[Revision(s) - 1]
  }

  /** Every filled slot holds exactly the state that it claims. */
  ghost predicate GenuineRing(states: seq<Json>, r: Ring) {
    && r.Valid()
    && forall i :: 0 <= i < |r.slots| && r.slots[i].Full? ==>
         Genuine(states, r.slots[i].state) && Revision(r.slots[i].state) % |r.slots| == i
  }

  /** The server's ring still has its newest states, as many as it has slots. */
  ghost predicate Keeps(states: seq<Json>, r: Ring) {
    && r.Valid() && r.latest == |states|
    && forall rev :: 1 <= rev <= |states| && |states| - rev < |r.slots| ==> r.Get(rev) == Full(states[rev - 1])
  }

  /** A delta that the server has sent: the full state of revision `rev`, or a patch to it. */
  ghost predicate DeltaTo(states: seq<Json>, d: Json, rev: nat) {
    && 1 <= rev <= |states| && IsState(states[rev - 1])
    && (d == SetDelta(states[rev - 1]) || exists from :: PatchTo(states, d, from, rev))
  }

  ghost predicate PatchTo(states: seq<Json>, d: Json, from: nat, rev: nat) {
    && 1 <= from < rev <= |states| && IsState(states[from - 1]) && IsState(states[rev - 1])
    && d == MergeDelta(states[from - 1], states[rev - 1])
  }

  ghost predicate SentBy(states: seq<Json>, d: Json) {
    exists rev: nat :: DeltaTo(states, d, rev)
  }

  // ----- Steps -----

  /** The server with the revision the client has acknowledged to it, every delta sent so far, and the client. */
  datatype World = World(states: seq<Json>, server: Ring, serverAck: nat, sent: set<Json>, client: Ring)

  /** The server ticks, an acknowledgement of any revision arrives, or a delta arrives that was sent at any time before:
    * so deltas and acknowledgements may be lost, delayed, duplicated and reordered. */
  datatype Step = Tick(now: Json) | Ack(rev: nat) | Deliver(d: Json)

  ghost function Start(n: nat): World
    requires n > 0
  {
    World([], EmptyRing(n), 0, {}, EmptyRing(n))
  }

  /** A tick makes the next revision; it asks for no patch from that revision to itself. */
  ghost predicate TickOk(w: World, now: Json) {
    IsState(now) && Revision(now) == |w.states| + 1 != w.serverAck && w.server.Valid()
  }

  ghost function Do(w: World, step: Step): World {
    match step
    case Tick(now) =>
      if !TickOk(w, now) then w
      else
        var server := w.server.Insert(now);
        w.(states := w.states + [now], server := server, sent := w.sent + {server.Delta(w.serverAck)})
    case Ack(rev) => w.(serverAck := rev)
    case Deliver(d) =>
      if d !in w.sent || !d.Obj? || !w.client.Valid() then w
      else
        match w.client.Apply(d)
        case Accepted(s) => if IsState(s) then w.(client := w.client.Insert(s)) else w
        case _ => w
  }

  ghost function After(n: nat, steps: seq<Step>): World
    requires n > 0
  {
    if steps == [] then Start(n) else Do(After(n, steps[..|steps| - 1]), steps[|steps| - 1])
  }

  // ----- Safety -----

  ghost predicate Safe(w: World) {
    && IsHistory(w.states) && |w.server.slots| == |w.client.slots|
    && GenuineRing(w.states, w.server) && Keeps(w.states, w.server) && GenuineRing(w.states, w.client)
    && forall d :: d in w.sent ==> SentBy(w.states, d)
  }

  lemma GenuineLater(states: seq<Json>, r: Ring, now: Json)
    requires GenuineRing(states, r)
    ensures GenuineRing(states + [now], r)
  {
  }

  lemma SentLater(states: seq<Json>, d: Json, now: Json)
    requires SentBy(states, d)
    ensures SentBy(states + [now], d)
  {
    var all := states + [now];
    var rev: nat :| DeltaTo(states, d, rev);
    assert all[rev - 1] == states[rev - 1];
    if d != SetDelta(states[rev - 1]) {
      var from :| PatchTo(states, d, from, rev);
      assert PatchTo(all, d, from, rev);
    }
    assert DeltaTo(all, d, rev);
  }

  lemma GenuineInsert(states: seq<Json>, r: Ring, s: Json)
    requires GenuineRing(states, r) && Genuine(states, s)
    ensures GenuineRing(states, r.Insert(s))
  {
  }

  /** After a tick the ring has the new state, and loses only the one that is as many revisions older as it has
    * slots. */
  lemma KeepsInsert(states: seq<Json>, r: Ring, now: Json)
    requires Keeps(states, r) && IsState(now) && Revision(now) == |states| + 1
    ensures Keeps(states + [now], r.Insert(now))
  {
    var all, n := states + [now], |r.slots|;
    forall rev | 1 <= rev <= |all| && |all| - rev < n ensures r.Insert(now).Get(rev) == Full(all[rev - 1]) {
      if rev < |all| {
        OtherSlot(rev, |all|, n);
        assert r.Get(rev) == Full(states[rev - 1]);
      }
    }
  }

  lemma OtherSlot(a: nat, b: nat, n: nat)
    requires a < b < a + n
    ensures a % n != b % n
  {
    if a % n == b % n {
      Bits.MulDistr(b / n, a / n, n);
      BetweenMultiples(b / n - a / n, n);
      assert false;
    }
  }

  lemma BetweenMultiples(d: int, n: nat)
    ensures !(0 < d * n < n)
  {
    if d <= 0 { Bits.MulMono(d, 0, n); } else { Bits.MulMono(1, d, n); }
  }

  /** What a tick sends. */
  lemma SentNow(states: seq<Json>, r: Ring, ack: nat)
    requires IsHistory(states) && states != [] && GenuineRing(states, r) && Keeps(states, r) && ack != |states|
    ensures DeltaTo(states, r.Delta(ack), |states|)
    ensures r.Has(ack) ==> 1 <= ack < |states| && |states| - ack < |r.slots|
    ensures r.Has(ack) ==> r.Delta(ack) == MergeDelta(states[ack - 1], states[|states| - 1])
    ensures !r.Has(ack) ==> r.Delta(ack) == SetDelta(states[|states| - 1])
  {
    hide SetDelta, MergeDelta;
    KeepsAt(states, r, |states|);
    if r.Has(ack) {
      HasRecent(states, r, ack);
      assert PatchTo(states, r.Delta(ack), ack, |states|);
    }
  }

  lemma KeepsAt(states: seq<Json>, r: Ring, rev: nat)
    requires Keeps(states, r) && 1 <= rev <= |states| && |states| - rev < |r.slots|
    ensures r.Get(rev) == Full(states[rev - 1])
  {
  }

  /** The ring has no state that is as many revisions old as it has slots. */
  lemma HasRecent(states: seq<Json>, r: Ring, rev: nat)
    requires IsHistory(states) && GenuineRing(states, r) && Keeps(states, r) && r.Has(rev)
    ensures 1 <= rev <= |states| && |states| - rev < |r.slots| && r.Get(rev) == Full(states[rev - 1])
  {
    var n := |r.slots|;
    if |states| - rev >= n {
      var k := SameSlot(rev, |states|, n);
      KeepsAt(states, r, k);
      assert false;
    }
  }

  /** The newest number up to b that falls into the slot of a. */
  lemma SameSlot(a: nat, b: nat, n: nat) returns (k: nat)
    requires n > 0 && a + n <= b
    ensures a < k <= b < k + n && k % n == a % n
  {
    var q := (b - a) / n;
    QuotientBounds(b - a, n);
    k := a + q * n;
    AddMultiple(a, q, n);
  }

  lemma QuotientBounds(x: nat, n: nat)
    requires 0 < n <= x
    ensures var q := x / n; q >= 1 && 0 < n <= q * n <= x < q * n + n
  {
    Bits.MulMono(1, x / n, n);
  }

  lemma AddMultiple(a: nat, q: nat, n: nat)
    requires n > 0
    ensures (a + q * n) % n == a % n
  {
    Bits.MulDistr(a / n, q, n);
    Bits.DivMod(a / n + q, a % n, n);
  }

  lemma HasGenuine(states: seq<Json>, r: Ring, rev: nat)
    requires IsHistory(states) && GenuineRing(states, r) && 1 <= rev <= |states| && r.Has(rev)
    ensures r.Get(rev) == Full(states[rev - 1])
  {
  }

  /** What a sent delta is; `from` is 0 for a full state. */
  lemma SentIs(states: seq<Json>, d: Json) returns (from: nat, rev: nat)
    requires IsHistory(states) && SentBy(states, d)
    ensures 1 <= rev <= |states| && from < rev && Genuine(states, states[rev - 1])
    ensures from == 0 ==> d == SetDelta(states[rev - 1])
    ensures from > 0 ==> Genuine(states, states[from - 1]) && Revision(states[from - 1]) == from
                         && d == MergeDelta(states[from - 1], states[rev - 1])
  {
    hide SetDelta, MergeDelta;
    rev :| DeltaTo(states, d, rev);
    from := 0;
    if d != SetDelta(states[rev - 1]) { from :| PatchTo(states, d, from, rev); }
  }

  /** Whatever the client's ring holds, a delta that the server has sent makes it a state of the server, or is
    * rejected. */
  lemma AppliedGenuine(states: seq<Json>, r: Ring, d: Json)
    requires IsHistory(states) && GenuineRing(states, r) && SentBy(states, d)
    ensures r.Valid() && d.Obj? && r.Apply(d) != Malformed
    ensures forall s :: r.Apply(d) == Accepted(s) ==> Genuine(states, s)
  {
    RingValid(states, r);
    var from, rev := SentIs(states, d);
    hide *;
    GenuineState(states, states[rev - 1]);
    if from == 0 {
      SetAccepted(r, states[rev - 1]);
    } else {
      GenuineState(states, states[from - 1]);
      MergeAccepted(r, states[from - 1], states[rev - 1]);
      if r.Has(from) { HasGenuine(states, r, from); }
    }
  }

  lemma RingValid(states: seq<Json>, r: Ring)
    requires GenuineRing(states, r)
    ensures r.Valid()
  {
  }

  lemma GenuineState(states: seq<Json>, s: Json)
    requires Genuine(states, s)
    ensures IsState(s)
  {
  }

  lemma SafeTick(w: World, now: Json)
    requires Safe(w) && TickOk(w, now)
    ensures Safe(Do(w, Tick(now)))
  {
    var states, server := w.states + [now], w.server.Insert(now);
    GenuineLater(w.states, w.server, now);
    GenuineLater(w.states, w.client, now);
    GenuineInsert(states, w.server, now);
    KeepsInsert(w.states, w.server, now);
    hide GenuineRing, Keeps;
    SentNow(states, server, w.serverAck);
    forall d | d in w.sent + {server.Delta(w.serverAck)} ensures SentBy(states, d) {
      if d in w.sent { SentLater(w.states, d, now); }
    }
  }

  lemma SafeDeliver(w: World, d: Json)
    requires Safe(w) && d in w.sent
    ensures Safe(Do(w, Deliver(d)))
  {
    AppliedGenuine(w.states, w.client, d);
    if w.client.Apply(d).Accepted? {
      GenuineInsert(w.states, w.client, w.client.Apply(d).state);
    }
  }

  lemma {:induction false} AlwaysSafe(n: nat, steps: seq<Step>)
    requires n > 0
    ensures Safe(After(n, steps)) && |After(n, steps).client.slots| == n
  {
    if steps != [] {
      AlwaysSafe(n, steps[..|steps| - 1]);
      var w, step := After(n, steps[..|steps| - 1]), steps[|steps| - 1];
      match step
      case Tick(now) => if TickOk(w, now) { SafeTick(w, now); }
      case Ack(rev) =>
      case Deliver(d) => if d in w.sent { SafeDeliver(w, d); }
    }
  }

  /** Sync safety: in every run, under any loss, delay, duplication or reordering and whatever the client acknowledges,
    * a state that the client accepts is the server's state of that revision, no delta fails an assertion, and every
    * filled slot of the client holds the state it claims. */
  lemma SyncSafety(n: nat, steps: seq<Step>, d: Json)
    requires n > 0 && d in After(n, steps).sent
    ensures var w := After(n, steps);
      && w.client.Valid() && d.Obj? && w.client.Apply(d) != Malformed
      && (forall s :: w.client.Apply(d) == Accepted(s) ==> Genuine(w.states, s))
      && GenuineRing(w.states, w.client)
  {
    AlwaysSafe(n, steps);
    AppliedGenuine(After(n, steps).states, After(n, steps).client, d);
  }

  // ----- Recovery -----

  /** The client's latest revision is in its ring, if there has been one. */
  lemma {:induction false} LatestHeld(n: nat, steps: seq<Step>)
    requires n > 0
    ensures var w := After(n, steps);
      w.client.Valid() && w.client.latest <= |w.states| && (w.client.latest == 0 || w.client.Has(w.client.latest))
  {
    if steps != [] {
      var before, step := steps[..|steps| - 1], steps[|steps| - 1];
      var w := After(n, before);
      LatestHeld(n, before);
      AlwaysSafe(n, before);
      if step.Deliver? && step.d in w.sent { AppliedGenuine(w.states, w.client, step.d); }
    }
  }

  /** The delta that the server sends for the client's latest revision. */
  ghost predicate IsNext(w: World, now: Json, d: Json)
    requires IsState(now)
  {
    w.server.Valid() && w.server.Insert(now).Get(Revision(now)).Full?
      && d == w.server.Insert(now).Delta(w.client.latest)
  }

  /** What the client makes of the delta that the next tick sends if its latest revision is acknowledged. */
  lemma NextAccepted(w: World, now: Json) returns (d: Json)
    requires Safe(w) && IsState(now) && Revision(now) == |w.states| + 1
    requires w.client.latest <= |w.states| && (w.client.latest == 0 || w.client.Has(w.client.latest))
    ensures IsNext(w, now, d) && w.client.Valid() && d.Obj? && w.client.Apply(d) == Accepted(now)
  {
    var ack, states, server := w.client.latest, w.states + [now], w.server.Insert(now);
    GenuineLater(w.states, w.server, now);
    GenuineInsert(states, w.server, now);
    KeepsInsert(w.states, w.server, now);
    hide GenuineRing, Keeps;
    SentNow(states, server, ack);
    d := server.Delta(ack);
    if server.Has(ack) {
      HasGenuine(w.states, w.client, ack);
      MergeAccepted(w.client, w.states[ack - 1], now);
    } else {
      SetAccepted(w.client, now);
    }
  }

  /** Sync recovers: after any run, whatever was lost, delayed or reordered, once the client's latest revision is
    * acknowledged, the delta of the next tick brings the client to the server's state if it arrives next. */
  lemma Recovers(n: nat, steps: seq<Step>, now: Json) returns (d: Json)
    requires n > 0 && IsState(now) && Revision(now) == |After(n, steps).states| + 1
    ensures var client := After(n, steps).client;
      var more := steps + [Ack(client.latest)] + [Tick(now)];
      && After(n, more).sent == After(n, steps).sent + {d}
      && client.Valid() && d.Obj? && client.Apply(d) == Accepted(now)
      && After(n, more + [Deliver(d)]).client == client.Insert(now)
  {
    var w, client := After(n, steps), After(n, steps).client;
    var more := steps + [Ack(client.latest)] + [Tick(now)];
    AlwaysSafe(n, steps);
    LatestHeld(n, steps);
    hide *;
    d := NextAccepted(w, now);
    OneMoreStep(n, steps, Ack(client.latest));
    OneMoreStep(n, steps + [Ack(client.latest)], Tick(now));
    OneMoreStep(n, more, Deliver(d));
    NextDelivered(w, now, d);
  }

  lemma OneMoreStep(n: nat, steps: seq<Step>, step: Step)
    requires n > 0
    ensures After(n, steps + [step]) == Do(After(n, steps), step)
  {
    hide Do;
    assert (steps + [step])[..|steps|] == steps;
  }

  lemma NextDelivered(w: World, now: Json, d: Json)
    requires Safe(w) && IsState(now) && Revision(now) == |w.states| + 1 && w.client.latest <= |w.states|
    requires IsNext(w, now, d) && d.Obj? && w.client.Valid() && w.client.Apply(d) == Accepted(now)
    ensures var after := Do(Do(w, Ack(w.client.latest)), Tick(now));
      && after.sent == w.sent + {d} && Do(after, Deliver(d)).client == w.client.Insert(now)
  {
  }
}
