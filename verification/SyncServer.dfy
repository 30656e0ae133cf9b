/** The server's side of synchronisation: the broadcast of every tick (src/standalone_server.cpp). */
module SyncServer {
  import opened MergePatches
  import opened StateHistory
  import opened Sync

  /** Where the source rolls the revision over to 0. */
  const ROLLOVER := 9007199254740990

  function StateOf(entities: Json, revision: nat): Json {
    Obj(map["entities" := entities, "revision" := Num(revision)])
  }

  class Server {
    const hist: History
    var revision: nat
    /** The revision that each client's intent acknowledges. */
    var acks: seq<nat>

    ghost predicate Valid()
      reads this, hist, hist.slots, hist.cache
    {
      hist.Valid() && hist.latestRevision == revision
    }

    /** The server is that of a world, as far as one client is concerned. */
    ghost predicate ServerOf(w: World, client: nat)
      reads this, hist, hist.slots
    {
      hist.Model() == w.server && revision == |w.states| && client < |acks| && acks[client] == w.serverAck
    }

    constructor (n: nat, clients: nat)
      requires n > 0
      ensures Valid() && revision == 0 && |acks| == clients
      ensures forall i: nat :: i < clients ==> ServerOf(Start(n), i)
    {
      hist := new History(n);
      revision := 0;
      acks := seq(clients, _ => 0);
    }

    /** handle_intent(): the step of an acknowledgement for this client, and none for the others. */
    method HandleIntent(client: nat, ack: nat)
      requires Valid() && client < |acks|
      modifies this`acks
      ensures Valid() && |acks| == |old(acks)|
      ensures forall w :: old(ServerOf(w, client)) ==> ServerOf(Do(w, Ack(ack)), client)
      ensures forall w, i: nat :: old(ServerOf(w, i)) && i != client ==> ServerOf(w, i)
    {
      acks := acks[client := ack];
    }

    /** broadcast_server_state(), below the rollover: the step of a tick for every client, to which the delta goes that
      * the step sends, cached or not. */
    method BroadcastServerState(entities: Json) returns (sent: seq<Json>)
      requires Valid() && revision + 1 < ROLLOVER && IsState(StateOf(entities, revision + 1))
      requires forall i :: 0 <= i < |acks| ==> acks[i] != revision + 1
      modifies this`revision, hist`latestRevision, hist.slots, hist.cache
      ensures Valid() && revision == old(revision) + 1 && |sent| == |acks|
      ensures hist.Model() == old(hist.Model()).Insert(StateOf(entities, revision))
      ensures hist.Model().Get(revision).Full? && forall i :: 0 <= i < |acks| ==> sent[i] == hist.Model().Delta(acks[i])
      ensures forall w, i: nat :: old(ServerOf(w, i)) ==>
        var after := Do(w, Tick(StateOf(entities, revision)));
        ServerOf(after, i) && after.states == w.states + [StateOf(entities, revision)] && after.sent == w.sent
          + {sent[i]}
    {
      hide IsState, SetDelta, MergeDelta;
      revision := revision + 1;
      var state := StateOf(entities, revision);
      RevisionOf(entities, revision);
      hist.Insert(state);
      ghost var ring := hist.Model();
      sent := [];
      for i := 0 to |acks|
        invariant Valid() && hist.Model() == ring && |sent| == i
        invariant forall j :: 0 <= j < i ==> sent[j] == ring.Delta(acks[j])
      {
        var json := hist.Compute(acks[i]);
        sent := sent + [json];
      }
    }
  }

  lemma RevisionOf(entities: Json, revision: nat)
    requires IsState(StateOf(entities, revision))
    ensures Revision(StateOf(entities, revision)) == revision
  {
  }
}
