/** The server's table of assets that clients want and it does not have (src/server.c). */
module Relay {
  import opened Options

  type Peer = nat

  /** What goes out to a peer: a request for an asset, its first bytes, or that nobody has it. */
  datatype Message = Ask(peer: Peer, id: string) | Deliver(peer: Peer, id: string) | Missing(peer: Peer, id: string)

  /** An entry of the table, and who asked first, which the server does not keep. */
  datatype Row = Row(id: string, recipients: seq<Peer>, source: Option<Peer>, sources: seq<Peer>, asker: Peer)

  datatype Table = Table(clients: seq<Peer>, rows: seq<Row>, sent: seq<Message>)

  datatype Event =
    | Connected(peer: Peer)
    | Requested(peer: Peer, id: string)
    | Data(peer: Peer, id: string)
    | Completed(peer: Peer, id: string)
    | Failed(peer: Peer, id: string)
    | Lost(peer: Peer)

  // ----- Steps -----

  function Find(rows: seq<Row>, id: string): (i: nat)
    ensures i <= |rows| && (i < |rows| ==> rows[i].id == id)
    ensures forall j :: 0 <= j < i ==> rows[j].id != id
  {
    if rows == [] || rows[0].id == id then 0 else 1 + Find(rows[1..], id)
  }

  function FindPeer(ps: seq<Peer>, p: Peer): (i: nat)
    ensures i <= |ps| && (i < |ps| ==> ps[i] == p)
    ensures forall j :: 0 <= j < i ==> ps[j] != p
  {
    if ps == [] || ps[0] == p then 0 else 1 + FindPeer(ps[1..], p)
  }

  /** Without the first occurrence of a peer. */
  function Less(ps: seq<Peer>, p: Peer): (less: seq<Peer>)
    ensures multiset(less) == multiset(ps) - multiset{p}
  {
    var i := FindPeer(ps, p);
    if i == |ps| then
      assert p !in multiset(ps);
      ps
    else
      assert ps == ps[..i] + [p] + ps[i + 1..];
      ps[..i] + ps[i + 1..]
  }

  function Others(ps: seq<Peer>, p: Peer): (others: seq<Peer>)
    ensures forall q :: q in others <==> q in ps && q != p
    ensures |others| <= |ps|
  {
    if ps == [] then [] else Others(ps[..|ps| - 1], p) + if ps[|ps| - 1] == p then [] else [ps[|ps| - 1]]
  }

  function Asks(ps: seq<Peer>, id: string): seq<Message> {
    seq(|ps|, i requires 0 <= i < |ps| => Ask(ps[i], id))
  }

  function Deliveries(ps: seq<Peer>, id: string): seq<Message> {
    seq(|ps|, i requires 0 <= i < |ps| => Deliver(ps[i], id))
  }

  function Failures(ps: seq<Peer>, id: string): seq<Message> {
    seq(|ps|, i requires 0 <= i < |ps| => Missing(ps[i], id))
  }

  function Cut(rows: seq<Row>, i: nat): seq<Row>
    requires i < |rows|
  {
    rows[..i] + rows[i + 1..]
  }

  /** An entry after losing a peer. */
  function Lesser(row: Row, p: Peer): Row {
    row.(recipients := Less(row.recipients, p), sources := Less(row.sources, p))
  }

  /** The entries that still have a potential source after losing a peer. */
  function SweptRows(rows: seq<Row>, p: Peer): seq<Row> {
    if rows == [] then []
    else
      var front, last := rows[..|rows| - 1], Lesser(rows[|rows| - 1], p);
      SweptRows(front, p) + if last.sources == [] then [] else [last]
  }

  /** What is sent about those that have none. */
  function SweptSent(rows: seq<Row>, p: Peer): seq<Message> {
    if rows == [] then []
    else
      var front, last := rows[..|rows| - 1], Lesser(rows[|rows| - 1], p);
      SweptSent(front, p) + if last.sources == [] then Failures(last.recipients, last.id) else []
  }

  function Step(t: Table, e: Event): Table {
    match e
    case Connected(p) => t.(clients := [p] + t.clients)
    case Requested(p, id) =>
      var i := Find(t.rows, id);
      if i < |t.rows| then t.(rows := t.rows[i := t.rows[i].(recipients := t.rows[i].recipients + [p])])
      else
        var others := Others(t.clients, p);
        t.(rows := t.rows + [Row(id, [p], None, others, p)], sent := t.sent + Asks(others, id))
    case Data(p, id) =>
      var i := Find(t.rows, id);
      if i < |t.rows| && (t.rows[i].source.None? || t.rows[i].source == Some(p))
      then t.(rows := t.rows[i := t.rows[i].(source := Some(p))]) else t
    case Completed(p, id) =>
      var i := Find(t.rows, id);
      if i < |t.rows| then t.(rows := Cut(t.rows, i), sent := t.sent + Deliveries(t.rows[i].recipients, id)) else t
    case Failed(p, id) =>
      var i := Find(t.rows, id);
      if i == |t.rows| then t
      else
        var sources := Less(t.rows[i].sources, p);
        if sources == [] then t.(rows := Cut(t.rows, i), sent := t.sent + Failures(t.rows[i].recipients, id))
        else t.(rows := t.rows[i := t.rows[i].(sources := sources)])
    case Lost(p) =>
      Table(Others(t.clients, p), SweptRows(t.rows, p), t.sent + SweptSent(t.rows, p))
  }

  /** Only connected peers do something, and only others connect. */
  predicate Enabled(t: Table, e: Event) {
    if e.Connected? then e.peer !in t.clients else e.peer in t.clients
  }

  function Run(t: Table, events: seq<Event>): Table {
    if events == [] then t else Step(Run(t, events[..|events| - 1]), events[|events| - 1])
  }

  predicate Possible(t: Table, events: seq<Event>) {
    events == [] ||
    (Possible(t, events[..|events| - 1]) && Enabled(Run(t, events[..|events| - 1]), events[|events| - 1]))
  }

  const Empty := Table([], [], [])

  // ----- What every run keeps -----

  ghost predicate NoneTwice(ps: seq<Peer>) {
    forall i, j :: 0 <= i < j < |ps| ==> ps[i] != ps[j]
  }

  /** The potential sources are distinct connected peers other than the first asker. */
  ghost predicate Sound(row: Row, clients: seq<Peer>) {
    NoneTwice(row.sources) && row.asker !in row.sources && forall q :: q in row.sources ==> q in clients
  }

  ghost predicate OneEach(rows: seq<Row>) {
    forall i, j :: 0 <= i < j < |rows| ==> rows[i].id != rows[j].id
  }

  /** Sound for these clients throughout. */
  ghost predicate AllSound(rows: seq<Row>, clients: seq<Peer>) {
    forall i :: 0 <= i < |rows| ==> Sound(rows[i], clients)
  }

  /** There is at most one entry for an asset, and all entries are sound. */
  ghost predicate Inv(t: Table) {
    NoneTwice(t.clients) && OneEach(t.rows) && AllSound(t.rows, t.clients)
  }

  lemma {:induction false} OthersDistinct(ps: seq<Peer>, p: Peer)
    requires NoneTwice(ps)
    ensures NoneTwice(Others(ps, p))
  {
    if ps != [] {
      var front := ps[..|ps| - 1];
      OthersDistinct(front, p);
      forall i | 0 <= i < |Others(front, p)| ensures Others(front, p)[i] != ps[|ps| - 1] {
        assert Others(front, p)[i] in Others(front, p);
      }
    }
  }

  lemma LessIs(ps: seq<Peer>, p: Peer)
    ensures var i := FindPeer(ps, p); Less(ps, p) == if i == |ps| then ps else ps[..i] + ps[i + 1..]
  {
  }

  lemma CutDistinct(ps: seq<Peer>, i: nat)
    requires NoneTwice(ps) && i < |ps|
    ensures NoneTwice(ps[..i] + ps[i + 1..]) && forall q :: q in ps[..i] + ps[i + 1..] <==> q in ps && q != ps[i]
  {
    var less := ps[..i] + ps[i + 1..];
    assert forall k :: 0 <= k < |less| ==> less[k] == ps[if k < i then k else k + 1];
    forall q | q in ps && q != ps[i] ensures q in less {
      var k :| 0 <= k < |ps| && ps[k] == q;
      assert less[if k < i then k else k - 1] == q;
    }
  }

  lemma LessDistinct(ps: seq<Peer>, p: Peer)
    requires NoneTwice(ps)
    ensures NoneTwice(Less(ps, p)) && forall q :: q in Less(ps, p) <==> q in ps && q != p
  {
    hide Less, NoneTwice;
    LessIs(ps, p);
    if FindPeer(ps, p) < |ps| { CutDistinct(ps, FindPeer(ps, p)); }
  }

  lemma LesserSound(row: Row, p: Peer, clients: seq<Peer>)
    requires Sound(row, clients)
    ensures Sound(Lesser(row, p), clients) && Sound(Lesser(row, p), Others(clients, p))
  {
    LessDistinct(row.sources, p);
  }

  /** Every entry has the id of one of these. */
  ghost predicate IdsAmong(less: seq<Row>, rows: seq<Row>) {
    forall i :: 0 <= i < |less| ==> exists j :: 0 <= j < |rows| && rows[j].id == less[i].id
  }

  lemma {:induction false} SweptSound(rows: seq<Row>, p: Peer, clients: seq<Peer>)
    requires OneEach(rows) && AllSound(rows, clients)
    ensures OneEach(SweptRows(rows, p)) && AllSound(SweptRows(rows, p), Others(clients, p))
    ensures IdsAmong(SweptRows(rows, p), rows)
  {
    hide *;
    if rows != [] {
      var front, last := rows[..|rows| - 1], rows[|rows| - 1];
      assert rows == front + [last];
      FrontSound(front, last, clients);
      SweptSound(front, p, clients);
      LesserSound(last, p, clients);
      SweptUnfold(rows, p);
      OneMoreSwept(front, last, SweptRows(front, p), Lesser(last, p), Others(clients, p));
    } else {
      SweptUnfold(rows, p);
      NoRows(clients, p);
    }
  }

  lemma NoRows(clients: seq<Peer>, p: Peer)
    ensures OneEach([]) && AllSound([], Others(clients, p)) && IdsAmong([], [])
  {
  }

  lemma SweptUnfold(rows: seq<Row>, p: Peer)
    ensures SweptRows(rows, p) ==
      if rows == [] then []
      else if Lesser(rows[|rows| - 1], p).sources == [] then SweptRows(rows[..|rows| - 1], p)
      else SweptRows(rows[..|rows| - 1], p) + [Lesser(rows[|rows| - 1], p)]
    ensures rows != [] ==> Lesser(rows[|rows| - 1], p).id == rows[|rows| - 1].id
  {
    hide Less;
  }

  lemma FrontSound(front: seq<Row>, last: Row, clients: seq<Peer>)
    requires OneEach(front + [last]) && AllSound(front + [last], clients)
    ensures OneEach(front) && AllSound(front, clients) && Sound(last, clients)
  {
    hide Sound;
    assert forall i :: 0 <= i < |front| ==> (front + [last])[i] == front[i];
    assert (front + [last])[|front|] == last;
    assert forall i, j :: 0 <= i < j < |front| ==> (front + [last])[i].id != (front + [last])[j].id;
  }

  lemma OneMoreSwept(front: seq<Row>, last: Row, swept: seq<Row>, less: Row, clients: seq<Peer>)
    requires OneEach(front + [last]) && OneEach(swept) && IdsAmong(swept, front)
    requires AllSound(swept, clients) && Sound(less, clients) && less.id == last.id
    ensures OneEach(swept + [less]) && AllSound(swept + [less], clients)
    ensures IdsAmong(swept + [less], front + [last]) && IdsAmong(swept, front + [last])
  {
    hide Sound;
    var rows := front + [last];
    forall i | 0 <= i < |swept| ensures swept[i].id != less.id && exists j ::
        0 <= j < |rows| && rows[j].id == swept[i].id {
      var j :| 0 <= j < |front| && front[j].id == swept[i].id;
      assert rows[j] == front[j] && rows[|front|] == last;
    }
    assert rows[|front|].id == less.id;
  }

  lemma CutSound(rows: seq<Row>, i: nat, clients: seq<Peer>)
    requires OneEach(rows) && AllSound(rows, clients) && i < |rows|
    ensures OneEach(Cut(rows, i)) && AllSound(Cut(rows, i), clients)
  {
    hide Sound;
    assert forall k :: 0 <= k < |rows| - 1 ==> Cut(rows, i)[k] == rows[if k < i then k else k + 1];
  }

  lemma StepInv(t: Table, e: Event)
    requires Inv(t) && Enabled(t, e)
    ensures Inv(Step(t, e))
  {
    var p := e.peer;
    match e
    case Connected(_) =>
    case Requested(_, id) =>
      OthersDistinct(t.clients, p);
    case Data(_, id) =>
    case Completed(_, id) =>
      if Find(t.rows, id) < |t.rows| { CutSound(t.rows, Find(t.rows, id), t.clients); }
    case Failed(_, id) =>
      var i := Find(t.rows, id);
      if i < |t.rows| {
        CutSound(t.rows, i, t.clients);
        LessDistinct(t.rows[i].sources, p);
      }
    case Lost(_) =>
      OthersDistinct(t.clients, p);
      SweptSound(t.rows, p, t.clients);
  }

  /** In every run. */
  lemma {:induction false} RunInv(events: seq<Event>)
    requires Possible(Empty, events)
    ensures Inv(Run(Empty, events))
  {
    if events != [] {
      RunInv(events[..|events| - 1]);
      StepInv(Run(Empty, events[..|events| - 1]), events[|events| - 1]);
    }
  }

  // ----- Every request is answered -----

  /** How often a peer waits for an asset in an entry. */
  function WaitingIn(row: Row, p: Peer, id: string): nat {
    if row.id == id then multiset(row.recipients)[p] else 0
  }

  function Waiting(rows: seq<Row>, p: Peer, id: string): nat {
    if rows == [] then 0 else Waiting(rows[..|rows| - 1], p, id) + WaitingIn(rows[|rows| - 1], p, id)
  }

  function Count(sent: seq<Message>, m: Message): nat {
    multiset(sent)[m]
  }

  lemma CountCat(a: seq<Message>, b: seq<Message>, m: Message)
    ensures Count(a + b, m) == Count(a, m) + Count(b, m)
  {
  }

  lemma {:induction false} CountAll(ps: seq<Peer>, other: string, p: Peer, id: string)
    ensures Count(Deliveries(ps, other), Deliver(p, id)) == if other == id then multiset(ps)[p] else 0
    ensures Count(Failures(ps, other), Missing(p, id)) == if other == id then multiset(ps)[p] else 0
    ensures Count(Asks(ps, other), Ask(p, id)) == if other == id then multiset(ps)[p] else 0
  {
    if ps != [] {
      var front, last := ps[..|ps| - 1], ps[|ps| - 1];
      CountAll(front, other, p, id);
      assert ps == front + [last];
      assert Deliveries(ps, other) == Deliveries(front, other) + [Deliver(last, other)];
      assert Failures(ps, other) == Failures(front, other) + [Missing(last, other)];
      assert Asks(ps, other) == Asks(front, other) + [Ask(last, other)];
    }
  }

  lemma CountOther(ps: seq<Peer>, other: string, p: Peer, id: string)
    ensures Count(Deliveries(ps, other), Missing(p, id)) == 0 && Count(Deliveries(ps, other), Ask(p, id)) == 0
    ensures Count(Failures(ps, other), Deliver(p, id)) == 0 && Count(Failures(ps, other), Ask(p, id)) == 0
    ensures Count(Asks(ps, other), Deliver(p, id)) == 0 && Count(Asks(ps, other), Missing(p, id)) == 0
  {
    assert Missing(p, id) !in Deliveries(ps, other) && Ask(p, id) !in Deliveries(ps, other);
    assert Deliver(p, id) !in Failures(ps, other) && Ask(p, id) !in Failures(ps, other);
    assert Deliver(p, id) !in Asks(ps, other) && Missing(p, id) !in Asks(ps, other);
  }

  function Answered(sent: seq<Message>, p: Peer, id: string): nat {
    Count(sent, Deliver(p, id)) + Count(sent, Missing(p, id))
  }

  /** When a peer is lost that waits for the asset, one of its requests goes with it. */
  function DroppedBy(t: Table, e: Event, p: Peer, id: string): nat {
    if e == Lost(p) && Waiting(t.rows, p, id) > 0 then 1 else 0
  }

  function Dropped(t: Table, events: seq<Event>, p: Peer, id: string): nat {
    if events == [] then 0
    else
      var before := events[..|events| - 1];
      Dropped(t, before, p, id) + DroppedBy(Run(t, before), events[|events| - 1], p, id)
  }

  lemma {:induction false} WaitingCat(a: seq<Row>, b: seq<Row>, p: Peer, id: string)
    ensures Waiting(a + b, p, id) == Waiting(a, p, id) + Waiting(b, p, id)
  {
    if b == [] {
      assert a + b == a;
    } else {
      assert (a + b)[..|a + b| - 1] == a + b[..|b| - 1];
      WaitingCat(a, b[..|b| - 1], p, id);
    }
  }

  /** The entry at i counts apart from the others. */
  lemma WaitingAt(rows: seq<Row>, i: nat, p: Peer, id: string)
    requires i < |rows|
    ensures Waiting(rows, p, id) == Waiting(Cut(rows, i), p, id) + WaitingIn(rows[i], p, id)
  {
    hide WaitingIn;
    assert rows == rows[..i] + ([rows[i]] + rows[i + 1..]);
    WaitingCat(rows[..i], [rows[i]] + rows[i + 1..], p, id);
    WaitingCat([rows[i]], rows[i + 1..], p, id);
    WaitingCat(rows[..i], rows[i + 1..], p, id);
    WaitingOne(rows[i], p, id);
  }

  lemma WaitingOne(row: Row, p: Peer, id: string)
    ensures Waiting([row], p, id) == WaitingIn(row, p, id)
  {
    assert [row][..0] == [];
  }

  lemma WaitingSet(rows: seq<Row>, i: nat, row: Row, p: Peer, id: string)
    requires i < |rows|
    ensures Waiting(rows[i := row], p, id) + WaitingIn(rows[i], p, id) == Waiting(rows, p, id) + WaitingIn(row, p, id)
  {
    hide Waiting, WaitingIn;
    WaitingAt(rows, i, p, id);
    WaitingAt(rows[i := row], i, p, id);
    assert Cut(rows[i := row], i) == Cut(rows, i);
  }

  lemma AnsweredCat(a: seq<Message>, b: seq<Message>, p: Peer, id: string)
    ensures Answered(a + b, p, id) == Answered(a, p, id) + Answered(b, p, id)
  {
  }

  lemma AnsweredAll(ps: seq<Peer>, other: string, p: Peer, id: string)
    ensures Answered(Deliveries(ps, other), p, id) == if other == id then multiset(ps)[p] else 0
    ensures Answered(Failures(ps, other), p, id) == if other == id then multiset(ps)[p] else 0
    ensures Answered(Asks(ps, other), p, id) == 0
  {
    hide Deliveries, Failures, Asks;
    CountAll(ps, other, p, id);
    CountOther(ps, other, p, id);
  }

  /** Without an entry for the asset nobody waits for it. */
  lemma {:induction false} WaitingNone(rows: seq<Row>, p: Peer, id: string)
    requires forall i :: 0 <= i < |rows| ==> rows[i].id != id
    ensures Waiting(rows, p, id) == 0
  {
    if rows != [] { WaitingNone(rows[..|rows| - 1], p, id); }
  }

  lemma LesserWaiting(row: Row, p: Peer, q: Peer, id: string)
    ensures WaitingIn(Lesser(row, p), q, id) == WaitingIn(row, q, id) - if q == p && WaitingIn(row, q, id) > 0 then 1
        else 0
  {
  }

  /** Each entry loses one request of the lost peer; what is left waits on or is answered. */
  lemma {:induction false} SweptBalance(rows: seq<Row>, p: Peer, q: Peer, id: string)
    requires OneEach(rows)
    ensures Waiting(SweptRows(rows, p), q, id) + Answered(SweptSent(rows, p), q, id)
         == Waiting(rows, q, id) - if q == p && Waiting(rows, q, id) > 0 then 1 else 0
  {
    if rows != [] {
      var front, last := rows[..|rows| - 1], rows[|rows| - 1];
      var less := Lesser(last, p);
      SweptBalance(front, p, q, id);
      LesserWaiting(last, p, q, id);
      if last.id == id { WaitingNone(front, q, id); }
      hide OneEach, Waiting, SweptRows, SweptSent, Lesser, Answered;
      SweptLast(rows, p, q, id);
    }
  }

  lemma SweptLast(rows: seq<Row>, p: Peer, q: Peer, id: string)
    requires rows != []
    ensures var front, last := rows[..|rows| - 1], rows[|rows| - 1];
      && Waiting(rows, q, id) == Waiting(front, q, id) + WaitingIn(last, q, id)
      && Waiting(SweptRows(rows, p), q, id) + Answered(SweptSent(rows, p), q, id)
         == Waiting(SweptRows(front, p), q, id) + Answered(SweptSent(front, p), q, id)
           + WaitingIn(Lesser(last, p), q, id)
  {
    hide *;
    var front, last, less := rows[..|rows| - 1], rows[|rows| - 1], Lesser(rows[|rows| - 1], p);
    LastUnfold(rows, p, q, id);
    if less.sources == [] {
      assert SweptRows(rows, p) == SweptRows(front, p);
      AnsweredCat(SweptSent(front, p), Failures(less.recipients, less.id), q, id);
      AnsweredAll(less.recipients, less.id, q, id);
      WaitingInIs(less, q, id);
    } else {
      assert SweptSent(rows, p) == SweptSent(front, p);
      WaitingCat(SweptRows(front, p), [less], q, id);
      WaitingOne(less, q, id);
    }
  }

  lemma WaitingInIs(row: Row, p: Peer, id: string)
    ensures WaitingIn(row, p, id) == if row.id == id then multiset(row.recipients)[p] else 0
  {
  }

  lemma LastUnfold(rows: seq<Row>, p: Peer, q: Peer, id: string)
    requires rows != []
    ensures var front, last, less := rows[..|rows| - 1], rows[|rows| - 1], Lesser(rows[|rows| - 1], p);
      && Waiting(rows, q, id) == Waiting(front, q, id) + WaitingIn(last, q, id)
      && SweptRows(rows, p) == SweptRows(front, p) + (if less.sources == [] then [] else [less])
      && SweptSent(rows, p) == SweptSent(front, p)
        + (if less.sources == [] then Failures(less.recipients, less.id) else [])
  {
    hide Lesser, WaitingIn;
  }

  /** One step: a new request waits; what no longer waits has been answered, or went with its peer. */
  lemma StepBalance(t: Table, e: Event, p: Peer, id: string)
    requires OneEach(t.rows)
    ensures Waiting(t.rows, p, id) + (if e == Requested(p, id) then 1 else 0) + Answered(t.sent, p, id)
         == Waiting(Step(t, e).rows, p, id) + Answered(Step(t, e).sent, p, id) + DroppedBy(t, e, p, id)
  {
    hide Answered, Waiting, OneEach, Less;
    match e
    case Connected(_) =>
    case Requested(q, other) =>
      var i := Find(t.rows, other);
      if i < |t.rows| {
        WaitingSet(t.rows, i, t.rows[i].(recipients := t.rows[i].recipients + [q]), p, id);
      } else {
        var others := Others(t.clients, q);
        WaitingCat(t.rows, [Row(other, [q], None, others, q)], p, id);
        WaitingOne(Row(other, [q], None, others, q), p, id);
        AnsweredCat(t.sent, Asks(others, other), p, id);
        AnsweredAll(others, other, p, id);
      }
    case Data(q, other) =>
      var i := Find(t.rows, other);
      if i < |t.rows| { WaitingSet(t.rows, i, t.rows[i].(source := Some(q)), p, id); }
    case Completed(q, other) =>
      var i := Find(t.rows, other);
      if i < |t.rows| {
        WaitingAt(t.rows, i, p, id);
        AnsweredCat(t.sent, Deliveries(t.rows[i].recipients, other), p, id);
        AnsweredAll(t.rows[i].recipients, other, p, id);
      }
    case Failed(q, other) =>
      var i := Find(t.rows, other);
      if i < |t.rows| {
        WaitingAt(t.rows, i, p, id);
        WaitingSet(t.rows, i, t.rows[i].(sources := Less(t.rows[i].sources, q)), p, id);
        AnsweredCat(t.sent, Failures(t.rows[i].recipients, other), p, id);
        AnsweredAll(t.rows[i].recipients, other, p, id);
      }
    case Lost(q) =>
      SweptBalance(t.rows, q, p, id);
      AnsweredCat(t.sent, SweptSent(t.rows, q), p, id);
  }

  /** In every run, each request of a peer for an asset waits, has been answered once, or went when the peer was
    * lost. */
  lemma {:induction false} RunBalance(events: seq<Event>, p: Peer, id: string)
    requires Possible(Empty, events)
    ensures multiset(events)[Requested(p, id)] == Waiting(Run(Empty, events).rows, p, id)
      + Answered(Run(Empty, events).sent, p, id) + Dropped(Empty, events, p, id)
  {
    if events != [] {
      var front, last := events[..|events| - 1], events[|events| - 1];
      assert events == front + [last];
      RunBalance(front, p, id);
      RunInv(front);
      StepBalance(Run(Empty, front), last, p, id);
    }
  }

  // ----- Who is told what -----

  /** A sweep sends nothing but failures. */
  lemma {:induction false} SweptFails(rows: seq<Row>, p: Peer, q: Peer, id: string)
    ensures Count(SweptSent(rows, p), Deliver(q, id)) == 0 && Count(SweptSent(rows, p), Ask(q, id)) == 0
  {
    hide *;
    if rows == [] {
      NothingSwept(p, q, id);
    } else {
      var front, less := rows[..|rows| - 1], Lesser(rows[|rows| - 1], p);
      SweptFails(front, p, q, id);
      LastUnfold(rows, p, q, id);
      CountCat(SweptSent(front, p), Failures(less.recipients, less.id), Deliver(q, id));
      CountCat(SweptSent(front, p), Failures(less.recipients, less.id), Ask(q, id));
      CountOther(less.recipients, less.id, q, id);
      if less.sources != [] { assert SweptSent(rows, p) == SweptSent(front, p); }
    }
  }

  lemma NothingSwept(p: Peer, q: Peer, id: string)
    ensures Count(SweptSent([], p), Deliver(q, id)) == 0 && Count(SweptSent([], p), Ask(q, id)) == 0
  {
  }

  /** With one entry for each asset, those that wait for it are its recipients. */
  lemma WaitingOnly(rows: seq<Row>, i: nat, p: Peer)
    requires OneEach(rows) && i < |rows|
    ensures Waiting(rows, p, rows[i].id) == multiset(rows[i].recipients)[p]
  {
    WaitingAt(rows, i, p, rows[i].id);
    forall k | 0 <= k < |Cut(rows, i)| ensures Cut(rows, i)[k].id != rows[i].id {
      assert Cut(rows, i)[k] == rows[if k < i then k else k + 1];
    }
    WaitingNone(Cut(rows, i), p, rows[i].id);
  }

  /** This step leaves the entry of an asset without a potential source: the last one fails or is lost. */
  ghost predicate LeftWithout(t: Table, e: Event, id: string) {
    && (e.Lost? || (e.Failed? && e.id == id))
    && exists i :: 0 <= i < |t.rows| && t.rows[i].id == id && OnlySource(t.rows[i], e.peer)
  }

  ghost predicate OnlySource(row: Row, p: Peer) {
    forall q :: q in row.sources ==> q == p
  }

  lemma LeastSource(row: Row, p: Peer)
    requires NoneTwice(row.sources)
    ensures OnlySource(row, p) <==> Less(row.sources, p) == []
  {
    hide Less, NoneTwice;
    LessDistinct(row.sources, p);
    if Less(row.sources, p) != [] { assert Less(row.sources, p)[0] in Less(row.sources, p); }
  }

  /** Without an entry, or with this one. */
  lemma LeftWithoutIs(t: Table, e: Event, id: string)
    requires Inv(t) && (e.Lost? || (e.Failed? && e.id == id))
    ensures var i := Find(t.rows, id);
      LeftWithout(t, e, id) <==> i < |t.rows| && Less(t.rows[i].sources, e.peer) == []
  {
    hide OnlySource, Less;
    var i := Find(t.rows, id);
    if i < |t.rows| {
      assert Sound(t.rows[i], t.clients);
      LeastSource(t.rows[i], e.peer);
    }
  }

  /** A step delivers an asset to a peer exactly once for each of its requests when the asset is complete, and
    * otherwise not at all. */
  lemma StepDelivers(t: Table, e: Event, p: Peer, id: string)
    requires OneEach(t.rows)
    ensures Count(Step(t, e).sent, Deliver(p, id))
         == Count(t.sent, Deliver(p, id)) + if e.Completed? && e.id == id then Waiting(t.rows, p, id) else 0
  {
    hide Count, Waiting, OneEach, Less, Others, SweptSent, SweptRows;
    match e
    case Requested(q, other) =>
      CountCat(t.sent, Asks(Others(t.clients, q), other), Deliver(p, id));
      CountOther(Others(t.clients, q), other, p, id);
    case Completed(q, other) =>
      var i := Find(t.rows, other);
      if i < |t.rows| {
        CountCat(t.sent, Deliveries(t.rows[i].recipients, other), Deliver(p, id));
        CountAll(t.rows[i].recipients, other, p, id);
        if other == id { WaitingOnly(t.rows, i, p); }
      } else if other == id {
        WaitingNone(t.rows, p, id);
      }
    case Failed(q, other) =>
      var i := Find(t.rows, other);
      if i < |t.rows| {
        CountCat(t.sent, Failures(t.rows[i].recipients, other), Deliver(p, id));
        CountOther(t.rows[i].recipients, other, p, id);
      }
    case Lost(q) =>
      CountCat(t.sent, SweptSent(t.rows, q), Deliver(p, id));
      SweptFails(t.rows, q, p, id);
    case _ =>
  }

  /** A step tells a peer that an asset is missing exactly once for each of its requests that is still there when the
    * entry is left without a potential source, and otherwise not at all. */
  lemma StepFails(t: Table, e: Event, p: Peer, id: string)
    requires Inv(t)
    ensures Count(Step(t, e).sent, Missing(p, id)) == Count(t.sent, Missing(p, id))
      + if LeftWithout(t, e, id) then Waiting(t.rows, p, id) - DroppedBy(t, e, p, id) else 0
  {
    hide Count, Waiting, OneEach, Less, Others, SweptSent, SweptRows, AllSound, LeftWithout;
    match e
    case Requested(q, other) =>
      CountCat(t.sent, Asks(Others(t.clients, q), other), Missing(p, id));
      CountOther(Others(t.clients, q), other, p, id);
      NotLeftWithout(t, e, id);
    case Completed(q, other) =>
      var i := Find(t.rows, other);
      if i < |t.rows| {
        CountCat(t.sent, Deliveries(t.rows[i].recipients, other), Missing(p, id));
        CountOther(t.rows[i].recipients, other, p, id);
      }
      NotLeftWithout(t, e, id);
    case Failed(q, other) =>
      var i := Find(t.rows, other);
      if i < |t.rows| {
        CountCat(t.sent, Failures(t.rows[i].recipients, other), Missing(p, id));
        CountAll(t.rows[i].recipients, other, p, id);
        if other == id { WaitingOnly(t.rows, i, p); }
      }
      if other == id { LeftWithoutIs(t, e, id); } else { NotLeftWithout(t, e, id); }
    case Lost(q) =>
      CountCat(t.sent, SweptSent(t.rows, q), Missing(p, id));
      LeftWithoutIs(t, e, id);
      SweptMissing(t.rows, q, p, id);
    case _ => NotLeftWithout(t, e, id);
  }

  lemma NotLeftWithout(t: Table, e: Event, id: string)
    requires !e.Lost? && (e.Failed? ==> e.id != id)
    ensures !LeftWithout(t, e, id)
  {
  }

  lemma SweptMissing(rows: seq<Row>, p: Peer, q: Peer, id: string)
    requires OneEach(rows)
    ensures var i := Find(rows, id);
      Count(SweptSent(rows, p), Missing(q, id)) == if i < |rows| && Less(rows[i].sources, p) == []
        then Waiting(rows, q, id) - (if q == p && Waiting(rows, q, id) > 0 then 1 else 0) else 0
  {
    hide OneEach, Waiting, WaitingIn, SweptRows, SweptSent, Less;
    var i := Find(rows, id);
    SweptBalance(rows, p, q, id);
    SweptFails(rows, p, q, id);
    if i < |rows| {
      SweptAt(rows, p, i, q);
      LesserWaiting(rows[i], p, q, id);
      WaitingInIs(rows[i], q, id);
      WaitingOnly(rows, i, q);
    } else {
      SweptNone(rows, p, q, id);
      WaitingNone(rows, q, id);
    }
  }

  lemma {:induction false} OthersOnce(ps: seq<Peer>, p: Peer, q: Peer)
    requires NoneTwice(ps)
    ensures multiset(Others(ps, p))[q] == if q in ps && q != p then 1 else 0
  {
    if ps != [] {
      var front, last := ps[..|ps| - 1], ps[|ps| - 1];
      assert ps == front + [last];
      OthersOnce(front, p, q);
    }
  }

  /** A step asks a peer for an asset exactly if another one wants it that is not in the table, and then once. */
  lemma StepAsks(t: Table, e: Event, q: Peer, id: string)
    requires NoneTwice(t.clients)
    ensures Count(Step(t, e).sent, Ask(q, id)) == Count(t.sent, Ask(q, id))
      + if e.Requested? && e.id == id && !Listed(t, id) && q in t.clients && q != e.peer then 1 else 0
  {
    hide Count, NoneTwice, Less, Others, SweptSent, SweptRows;
    match e
    case Requested(p, other) =>
      var others := Others(t.clients, p);
      CountCat(t.sent, Asks(others, other), Ask(q, id));
      CountAll(others, other, q, id);
      OthersOnce(t.clients, p, q);
    case Completed(p, other) =>
      var i := Find(t.rows, other);
      if i < |t.rows| {
        CountCat(t.sent, Deliveries(t.rows[i].recipients, other), Ask(q, id));
        CountOther(t.rows[i].recipients, other, q, id);
      }
    case Failed(p, other) =>
      var i := Find(t.rows, other);
      if i < |t.rows| {
        CountCat(t.sent, Failures(t.rows[i].recipients, other), Ask(q, id));
        CountOther(t.rows[i].recipients, other, q, id);
      }
    case Lost(p) =>
      CountCat(t.sent, SweptSent(t.rows, p), Ask(q, id));
      SweptFails(t.rows, p, q, id);
    case _ =>
  }

  /** There is an entry for the asset. */
  ghost predicate Listed(t: Table, id: string) {
    exists i :: 0 <= i < |t.rows| && t.rows[i].id == id
  }

  /** How many of a peer's requests for an asset were still waiting when it was completed. */
  ghost function Fulfilled(events: seq<Event>, p: Peer, id: string): nat {
    if events == [] then 0
    else
      var before, e := events[..|events| - 1], events[|events| - 1];
      Fulfilled(before, p, id) + if e.Completed? && e.id == id then Waiting(Run(Empty, before).rows, p, id) else 0
  }

  /** And when its entry was left without a potential source. */
  ghost function Refused(events: seq<Event>, p: Peer, id: string): nat {
    if events == [] then 0
    else
      var before, e := events[..|events| - 1], events[|events| - 1];
      var t := Run(Empty, before);
      Refused(before, p, id) + if LeftWithout(t, e, id) then Waiting(t.rows, p, id) - DroppedBy(t, e, p, id) else 0
  }

  /** In every run, a peer gets an asset for the requests that were fulfilled, and is told that it is missing for those
    * that were refused. */
  lemma {:induction false} RunTells(events: seq<Event>, p: Peer, id: string)
    requires Possible(Empty, events)
    ensures Count(Run(Empty, events).sent, Deliver(p, id)) == Fulfilled(events, p, id)
    ensures Count(Run(Empty, events).sent, Missing(p, id)) == Refused(events, p, id)
  {
    hide Step, LeftWithout, Waiting, DroppedBy, Inv, Enabled;
    if events != [] {
      var front, last := events[..|events| - 1], events[|events| - 1];
      RunTells(front, p, id);
      RunInv(front);
      OneOfEach(Run(Empty, front));
      StepDelivers(Run(Empty, front), last, p, id);
      StepFails(Run(Empty, front), last, p, id);
    }
  }

  lemma OneOfEach(t: Table)
    requires Inv(t)
    ensures OneEach(t.rows)
  {
  }

  // ----- Peers that ask twice, entries that nobody can fill -----

  /** An entry stays with one occurrence less of the lost peer, unless no potential source is left. */
  lemma {:induction false} SweptAt(rows: seq<Row>, p: Peer, i: nat, q: Peer)
    requires OneEach(rows) && i < |rows|
    ensures var less := Lesser(rows[i], p);
      Waiting(SweptRows(rows, p), q, rows[i].id) == if less.sources == [] then 0 else WaitingIn(less, q, rows[i].id)
  {
    hide *;
    var front, last, id := rows[..|rows| - 1], rows[|rows| - 1], rows[i].id;
    FrontOnce(rows, front, i);
    if i < |front| {
      SweptAt(front, p, i, q);
    } else {
      SweptNone(front, p, q, id);
    }
    LastUnfold(rows, p, q, id);
    var less := Lesser(last, p);
    if less.sources == [] {
      assert SweptRows(rows, p) == SweptRows(front, p);
    } else {
      WaitingCat(SweptRows(front, p), [less], q, id);
      WaitingOne(less, q, id);
      WaitingInIs(less, q, id);
      SameId(last, p);
    }
  }

  lemma FrontOnce(rows: seq<Row>, front: seq<Row>, i: nat)
    requires OneEach(rows) && i < |rows| && front == rows[..|rows| - 1]
    ensures OneEach(front)
    ensures i < |front| ==> rows[|rows| - 1].id != rows[i].id
    ensures i == |front| ==> forall k :: 0 <= k < |front| ==> front[k].id != rows[i].id
  {
  }

  lemma SameId(row: Row, p: Peer)
    ensures Lesser(row, p).id == row.id
  {
  }

  lemma SweptNone(rows: seq<Row>, p: Peer, q: Peer, id: string)
    requires OneEach(rows) && forall i :: 0 <= i < |rows| ==> rows[i].id != id
    ensures Waiting(SweptRows(rows, p), q, id) == 0
  {
    WaitingNone(rows, q, id);
    SweptBalance(rows, p, q, id);
  }

  /** A lost peer is still a recipient exactly when it had asked more than once and another source is left. */
  lemma LostStillWaits(rows: seq<Row>, p: Peer, i: nat)
    requires OneEach(rows) && i < |rows| && NoneTwice(rows[i].sources)
    ensures Waiting(SweptRows(rows, p), p, rows[i].id) > 0 <==>
      multiset(rows[i].recipients)[p] > 1 && exists q :: q in rows[i].sources && q != p
  {
    hide OneEach, NoneTwice, SweptRows, Waiting, Less;
    SweptAt(rows, p, i, p);
    LesserWaiting(rows[i], p, p, rows[i].id);
    LessDistinct(rows[i].sources, p);
    var less := Less(rows[i].sources, p);
    if less != [] { assert less[0] in less; }
  }

  /** Two requests for one asset, and the peer is gone: a run that keeps it as a recipient. */
  lemma LingeringPeer()
    ensures var events := [Connected(1), Connected(2), Requested(1, "a"), Requested(1, "a"), Lost(1)];
      Possible(Empty, events) && 1 !in Run(Empty, events).clients && Waiting(Run(Empty, events).rows, 1, "a") == 1
  {
    hide Step, Run, Possible, Waiting, Enabled;
    var asked, again := Row("a", [1], None, [2], 1), Row("a", [1, 1], None, [2], 1);
    var t1, t2 := Table([1], [], []), Table([2, 1], [], []);
    var t3, t4 := Table([2, 1], [asked], [Ask(2, "a")]), Table([2, 1], [again], [Ask(2, "a")]);
    NothingYet();
    TwoClients();
    AskedTwice();
    RunOn([], Connected(1), Empty, t1, [Connected(1)]);
    RunOn([Connected(1)], Connected(2), t1, t2, [Connected(1), Connected(2)]);
    RunOn([Connected(1), Connected(2)], Requested(1, "a"), t2, t3, [Connected(1), Connected(2), Requested(1, "a")]);
    RunOn([Connected(1), Connected(2), Requested(1, "a")], Requested(1, "a"), t3, t4,
          [Connected(1), Connected(2), Requested(1, "a"), Requested(1, "a")]);
    RunOn([Connected(1), Connected(2), Requested(1, "a"), Requested(1, "a")], Lost(1), t4, Step(t4, Lost(1)),
          [Connected(1), Connected(2), Requested(1, "a"), Requested(1, "a"), Lost(1)]);
    ClientsStep(t4, Lost(1), 1);
    LostRows(t4, 1);
    StillListed(again);
  }

  lemma LostRows(t: Table, p: Peer)
    ensures Step(t, Lost(p)).rows == SweptRows(t.rows, p)
  {
  }

  lemma NothingYet()
    ensures Possible(Empty, []) && Run(Empty, []) == Empty
  {
  }

  lemma TwoClients()
    ensures Enabled(Empty, Connected(1)) && Step(Empty, Connected(1)) == Table([1], [], [])
    ensures Enabled(Table([1], [], []), Connected(2)) && Step(Table([1], [], []), Connected(2)) == Table([2, 1], [], [])
  {
  }

  lemma AskedTwice()
    ensures var t, asked := Table([2, 1], [], []), Table([2, 1], [Row("a", [1], None, [2], 1)], [Ask(2, "a")]);
      && Enabled(t, Requested(1, "a")) && Step(t, Requested(1, "a")) == asked
      && Enabled(asked, Requested(1, "a"))
      && Step(asked, Requested(1, "a")) == asked.(rows := [Row("a", [1, 1], None, [2], 1)])
      && Enabled(asked.(rows := [Row("a", [1, 1], None, [2], 1)]), Lost(1))
  {
    assert [2, 1][..1] == [2] && [2][..0] == [];
    assert Others([], 1) == [] && Others([2], 1) == [2];
    assert Others([2, 1], 1) == [2];
    assert Asks([2], "a") == [Ask(2, "a")];
    var row := Row("a", [1], None, [2], 1);
    assert Find([row], "a") == 0;
    assert row.recipients + [1] == [1, 1];
    assert [row][0 := row.(recipients := row.recipients + [1])] == [Row("a", [1, 1], None, [2], 1)];
  }

  lemma StillListed(row: Row)
    requires row == Row("a", [1, 1], None, [2], 1)
    ensures Waiting(SweptRows([row], 1), 1, "a") == 1
  {
    hide Waiting, SweptRows;
    SweptAt([row], 1, 0, 1);
    LesserWaiting(row, 1, 1, "a");
    LessDistinct([2], 1);
    assert 2 in row.sources;
  }

  lemma RunOn(events: seq<Event>, e: Event, t: Table, next: Table, more: seq<Event>)
    requires Possible(Empty, events) && Run(Empty, events) == t && Enabled(t, e) && Step(t, e) == next
        && more == events + [e]
    ensures Possible(Empty, more) && Run(Empty, more) == next
  {
    assert more[..|events|] == events;
  }

  /** No peer asks for what it is waiting for. */
  ghost predicate NoRepeats(events: seq<Event>) {
    forall k :: 0 <= k < |events| && events[k].Requested? ==>
      Waiting(Run(Empty, events[..k]).rows, events[k].peer, events[k].id) == 0
  }

  /** Then all that wait are connected, and nothing is sent for a peer that is gone. */
  lemma {:induction false} RunConnected(events: seq<Event>, p: Peer, id: string)
    requires Possible(Empty, events) && NoRepeats(events)
    ensures Waiting(Run(Empty, events).rows, p, id) <= if p in Run(Empty, events).clients then 1 else 0
  {
    if events != [] {
      var front, last := events[..|events| - 1], events[|events| - 1];
      forall k | 0 <= k < |front| && front[k].Requested?
        ensures Waiting(Run(Empty, front[..k]).rows, front[k].peer, front[k].id) == 0
      {
        assert front[..k] == events[..k] && front[k] == events[k];
      }
      RunConnected(front, p, id);
      RunInv(front);
      var t := Run(Empty, front);
      StepBalance(t, last, p, id);
      AnswersStay(t, last, p, id);
      ClientsStep(t, last, p);
    }
  }

  lemma AnswersStay(t: Table, e: Event, p: Peer, id: string)
    ensures Answered(Step(t, e).sent, p, id) >= Answered(t.sent, p, id)
  {
    hide SweptRows, SweptSent, Others, Less;
  }

  lemma ClientsStep(t: Table, e: Event, p: Peer)
    ensures p in Step(t, e).clients <==> (p in t.clients || e == Connected(p)) && e != Lost(p)
  {
  }

  /** After a peer is lost, every entry has a potential source left. */
  lemma {:induction false} SweptHaveSources(rows: seq<Row>, p: Peer)
    ensures forall i :: 0 <= i < |SweptRows(rows, p)| ==> SweptRows(rows, p)[i].sources != []
  {
    if rows != [] { SweptHaveSources(rows[..|rows| - 1], p); }
  }

  ghost predicate Unfillable(t: Table) {
    exists i :: 0 <= i < |t.rows| && t.rows[i].sources == []
  }

  /** An entry without a potential source appears exactly when the only client asks for an asset that is not in the
    * table. */
  lemma BecomesUnfillable(t: Table, e: Event)
    requires Inv(t) && Enabled(t, e) && !Unfillable(t)
    ensures Unfillable(Step(t, e)) <==> e.Requested? && t.clients == [e.peer] && Find(t.rows, e.id) == |t.rows|
  {
    if e.Lost? { SweptHaveSources(t.rows, e.peer); }
    if e.Requested? && Find(t.rows, e.id) == |t.rows| {
      var others := Others(t.clients, e.peer);
      assert Step(t, e).rows[|t.rows|].sources == others;
      if others == [] { OnlyClient(t.clients, e.peer); } else { assert others[0] in others; }
    }
  }

  lemma OnlyClient(ps: seq<Peer>, p: Peer)
    requires NoneTwice(ps) && p in ps && Others(ps, p) == []
    ensures ps == [p]
  {
    assert forall i :: 0 <= i < |ps| ==> ps[i] in ps;
  }

  // ----- A source that is gone -----

  /** The entry of an asset takes its data from this peer. */
  predicate TakesFrom(t: Table, id: string, q: Peer) {
    var i := Find(t.rows, id);
    i < |t.rows| && t.rows[i].source == Some(q)
  }

  /** One step with a lost source: the entry goes, or keeps it, and takes no data from any other peer. */
  lemma LostSourceStep(t: Table, e: Event, id: string, q: Peer)
    requires Inv(t) && Enabled(t, e) && TakesFrom(t, id, q) && q !in t.clients && e != Connected(q)
    ensures q !in Step(t, e).clients
    ensures Find(Step(t, e).rows, id) < |Step(t, e).rows| ==> TakesFrom(Step(t, e), id, q)
    ensures e.Data? && e.id == id ==> Step(t, e) == t
  {
    hide Less, SweptSent;
    ClientsStep(t, e, q);
    var i := Find(t.rows, id);
    match e
    case Connected(_) =>
    case Requested(_, other) =>
      var j := Find(t.rows, other);
      if j < |t.rows| {
        SourceSet(t.rows, j, t.rows[j].(recipients := t.rows[j].recipients + [e.peer]), id);
      } else {
        SourceAdded(t.rows, Row(other, [e.peer], None, Others(t.clients, e.peer), e.peer), id);
      }
    case Data(_, other) =>
      var j := Find(t.rows, other);
      if j < |t.rows| && other != id { SourceSet(t.rows, j, t.rows[j].(source := Some(e.peer)), id); }
    case Completed(_, other) =>
      var j := Find(t.rows, other);
      if j < |t.rows| { SourceCut(t.rows, j, id); }
    case Failed(_, other) =>
      var j := Find(t.rows, other);
      if j < |t.rows| {
        SourceCut(t.rows, j, id);
        SourceSet(t.rows, j, t.rows[j].(sources := Less(t.rows[j].sources, e.peer)), id);
      }
    case Lost(_) => SourceSwept(t.rows, e.peer, id);
  }

  /** What the table has for an asset. */
  ghost predicate SameSource(rows: seq<Row>, next: seq<Row>, id: string) {
    var i, j := Find(rows, id), Find(next, id);
    j < |next| ==> i < |rows| && next[j].source == rows[i].source
  }

  lemma FindIs(rows: seq<Row>, i: nat, id: string)
    requires OneEach(rows) && i < |rows| && rows[i].id == id
    ensures Find(rows, id) == i
  {
  }

  lemma SourceSet(rows: seq<Row>, j: nat, row: Row, id: string)
    requires OneEach(rows) && j < |rows| && row.id == rows[j].id && (row.id == id ==> row.source == rows[j].source)
    ensures SameSource(rows, rows[j := row], id)
  {
    var next := rows[j := row];
    var k := Find(next, id);
    if k < |next| { FindIs(rows, k, id); }
  }

  lemma SourceAdded(rows: seq<Row>, row: Row, id: string)
    requires Find(rows, id) < |rows|
    ensures SameSource(rows, rows + [row], id)
  {
    var i, j := Find(rows, id), Find(rows + [row], id);
    assert (rows + [row])[i] == rows[i];
    assert forall k :: 0 <= k < i ==> (rows + [row])[k] == rows[k];
  }

  lemma SourceCut(rows: seq<Row>, j: nat, id: string)
    requires OneEach(rows) && j < |rows|
    ensures SameSource(rows, Cut(rows, j), id)
  {
    var next := Cut(rows, j);
    var k := Find(next, id);
    if k < |next| {
      assert next[k] == rows[if k < j then k else k + 1];
      FindIs(rows, if k < j then k else k + 1, id);
    }
  }

  lemma SourceSwept(rows: seq<Row>, p: Peer, id: string)
    requires OneEach(rows)
    ensures SameSource(rows, SweptRows(rows, p), id)
  {
    hide Less;
    var next := SweptRows(rows, p);
    var k := Find(next, id);
    if k < |next| {
      var i := SweptFrom(rows, p, k);
      FindIs(rows, i, id);
    }
  }

  /** The entry that a swept one comes from. */
  lemma {:induction false} SweptFrom(rows: seq<Row>, p: Peer, k: nat) returns (i: nat)
    requires k < |SweptRows(rows, p)|
    ensures i < |rows| && SweptRows(rows, p)[k] == Lesser(rows[i], p)
    ensures rows[i].id == SweptRows(rows, p)[k].id && rows[i].source == SweptRows(rows, p)[k].source
  {
    hide Less;
    var front := rows[..|rows| - 1];
    if k < |SweptRows(front, p)| { i := SweptFrom(front, p, k); } else { i := |rows| - 1; }
  }

  /** The entry of an asset is there all the time. */
  ghost predicate Remains(t: Table, events: seq<Event>, id: string) {
    forall k :: 0 <= k <= |events| ==> Find(Run(t, events[..k]).rows, id) < |Run(t, events[..k]).rows|
  }

  /** In any continuation, an entry whose source is lost and does not come back keeps it as long as it remains, and
    * takes no data. */
  lemma {:induction false} LostSource(t: Table, events: seq<Event>, id: string, q: Peer)
    requires Inv(t) && Possible(t, events) && TakesFrom(t, id, q) && q !in t.clients && Connected(q) !in events
    requires Remains(t, events, id)
    ensures Inv(Run(t, events)) && TakesFrom(Run(t, events), id, q) && q !in Run(t, events).clients
    ensures forall p :: Step(Run(t, events), Data(p, id)) == Run(t, events) || p == q
  {
    if events != [] {
      var front, last := events[..|events| - 1], events[|events| - 1];
      assert forall k :: 0 <= k <= |front| ==> front[..k] == events[..k];
      LostSource(t, front, id, q);
      assert events[..|events|] == events && last in events;
      hide Step, Find, Inv, Enabled;
      StepInv(Run(t, front), last);
      LostSourceStep(Run(t, front), last, id, q);
    }
  }

  /** A run after which a peer waits for an asset that a connected peer may have, but that the lost one was to
    * deliver. */
  lemma WaitsForLostSource()
    ensures var events := [Connected(1), Connected(2), Connected(3), Requested(1, "a"), Data(2, "a"), Lost(2)];
      var t := Run(Empty, events);
      && Possible(Empty, events) && TakesFrom(t, "a", 2) && 2 !in t.clients && Waiting(t.rows, 1, "a") == 1
      && t.rows[Find(t.rows, "a")].sources == [3] && 3 in t.clients
  {
    hide Step, Run, Possible, Waiting, Enabled;
    var asked, begun := Row("a", [1], None, [3, 2], 1), Row("a", [1], Some(2), [3, 2], 1);
    var t1, t2, t3 := Table([1], [], []), Table([2, 1], [], []), Table([3, 2, 1], [], []);
    var t4, t5 := Table([3, 2, 1], [asked], [Ask(3, "a"), Ask(2, "a")]),
        Table([3, 2, 1], [begun], [Ask(3, "a"), Ask(2, "a")]);
    var left := Row("a", [1], Some(2), [3], 1);
    NothingYet();
    TwoClients();
    ThirdClient();
    AskedBoth();
    SourceChosen();
    SourceLost();
    RunOn([], Connected(1), Empty, t1, [Connected(1)]);
    RunOn([Connected(1)], Connected(2), t1, t2, [Connected(1), Connected(2)]);
    RunOn([Connected(1), Connected(2)], Connected(3), t2, t3, [Connected(1), Connected(2), Connected(3)]);
    RunOn([Connected(1), Connected(2), Connected(3)], Requested(1, "a"), t3, t4,
          [Connected(1), Connected(2), Connected(3), Requested(1, "a")]);
    RunOn([Connected(1), Connected(2), Connected(3), Requested(1, "a")], Data(2, "a"), t4, t5,
          [Connected(1), Connected(2), Connected(3), Requested(1, "a"), Data(2, "a")]);
    RunOn([Connected(1), Connected(2), Connected(3), Requested(1, "a"), Data(2, "a")], Lost(2), t5,
          Table([3, 1], [left], [Ask(3, "a"), Ask(2, "a")]),
          [Connected(1), Connected(2), Connected(3), Requested(1, "a"), Data(2, "a"), Lost(2)]);
    WaitingOne(left, 1, "a");
    assert Find([left], "a") == 0;
  }

  lemma ThirdClient()
    ensures var t := Table([2, 1], [], []);
      Enabled(t, Connected(3)) && Step(t, Connected(3)) == Table([3, 2, 1], [], [])
  {
  }

  lemma AskedBoth()
    ensures var t, asked := Table([3, 2, 1], [], []), Row("a", [1], None, [3, 2], 1);
      Enabled(t, Requested(1, "a"))
        && Step(t, Requested(1, "a")) == Table([3, 2, 1], [asked], [Ask(3, "a"), Ask(2, "a")])
  {
    assert [3, 2, 1][..2] == [3, 2] && [3, 2][..1] == [3] && [3][..0] == [];
    assert Others([], 1) == [] && Others([3], 1) == [3] && Others([3, 2], 1) == [3, 2];
    assert Others([3, 2, 1], 1) == [3, 2];
    assert Asks([3, 2], "a") == [Ask(3, "a"), Ask(2, "a")];
  }

  lemma SourceChosen()
    ensures var t := Table([3, 2, 1], [Row("a", [1], None, [3, 2], 1)], [Ask(3, "a"), Ask(2, "a")]);
      Enabled(t, Data(2, "a")) && Step(t, Data(2, "a")) == t.(rows := [Row("a", [1], Some(2), [3, 2], 1)])
  {
    var row := Row("a", [1], None, [3, 2], 1);
    assert Find([row], "a") == 0;
    assert [row][0 := row.(source := Some(2))] == [Row("a", [1], Some(2), [3, 2], 1)];
  }

  lemma SourceLost()
    ensures var sent := [Ask(3, "a"), Ask(2, "a")];
      var t := Table([3, 2, 1], [Row("a", [1], Some(2), [3, 2], 1)], sent);
      Enabled(t, Lost(2)) && Step(t, Lost(2)) == Table([3, 1], [Row("a", [1], Some(2), [3], 1)], sent)
  {
    hide Others, SweptRows, SweptSent, Less;
    OthersLeft();
    SourcesLeft();
    OneSwept(Row("a", [1], Some(2), [3, 2], 1), Row("a", [1], Some(2), [3], 1), 2);
  }

  lemma OthersLeft()
    ensures Others([3, 2, 1], 2) == [3, 1]
  {
    assert [3, 2, 1][..2] == [3, 2] && [3, 2][..1] == [3] && [3][..0] == [];
    assert Others([], 2) == [] && Others([3], 2) == [3] && Others([3, 2], 2) == [3];
  }

  lemma SourcesLeft()
    ensures Less([1], 2) == [1] && Less([3, 2], 2) == [3]
  {
    hide *;
    LessIs([1], 2);
    LessIs([3, 2], 2);
    assert [3, 2][..1] + [3, 2][2..] == [3];
  }

  /** An entry alone that loses a peer and keeps a source. */
  lemma OneSwept(row: Row, left: Row, p: Peer)
    requires Less(row.recipients, p) == left.recipients && Less(row.sources, p) == left.sources != []
    requires left == row.(recipients := left.recipients, sources := left.sources)
    ensures SweptRows([row], p) == [left] && SweptSent([row], p) == []
  {
    hide Less;
    assert [row][..0] == [] && SweptRows([], p) == [] && SweptSent([], p) == [];
    assert Lesser(row, p) == left;
  }

  // ----- What becomes of an entry -----

  function EntryOf(rows: seq<Row>, id: string): Option<Row> {
    var i := Find(rows, id);
    if i < |rows| then Some(rows[i]) else None
  }

  lemma EntryAt(rows: seq<Row>, i: nat, id: string)
    requires OneEach(rows) && i < |rows|
    ensures rows[i].id == id ==> EntryOf(rows, id) == Some(rows[i])
    ensures EntryOf(Cut(rows, i), id) == if rows[i].id == id then None else EntryOf(rows, id)
  {
    var less, k := Cut(rows, i), Find(Cut(rows, i), id);
    assert forall m :: 0 <= m < |less| ==> less[m] == rows[if m < i then m else m + 1];
    if rows[i].id != id && Find(rows, id) < |rows| {
      var m := Find(rows, id);
      assert less[if m < i then m else m - 1] == rows[m];
      FindIs(rows, if k < i then k else k + 1, id);
    }
  }

  lemma EntrySet(rows: seq<Row>, i: nat, row: Row, id: string)
    requires OneEach(rows) && i < |rows| && row.id == rows[i].id
    ensures EntryOf(rows[i := row], id) == if row.id == id then Some(row) else EntryOf(rows, id)
  {
    var next := rows[i := row];
    var k := Find(rows, id);
    if k < |rows| {
      assert next[k].id == id;
      FindIs(next, k, id);
      if row.id == id { FindIs(rows, i, id); }
    }
  }

  lemma EntryAdded(rows: seq<Row>, row: Row, id: string)
    requires Find(rows, row.id) == |rows|
    ensures EntryOf(rows + [row], id) == if row.id == id then Some(row) else EntryOf(rows, id)
  {
    var next := rows + [row];
    var k := Find(rows, id);
    assert forall m :: 0 <= m < |rows| ==> next[m] == rows[m];
    assert next[|rows|] == row;
    if k < |rows| { assert next[k].id == id && Find(next, id) == k; }
  }

  lemma {:induction false} EntrySwept(rows: seq<Row>, p: Peer, id: string)
    requires OneEach(rows)
    ensures var was := EntryOf(rows, id);
      EntryOf(SweptRows(rows, p), id) ==
        if was.None? || Lesser(was.value, p).sources == [] then None else Some(Lesser(was.value, p))
  {
    hide *;
    SweptUnfold(rows, p);
    if rows == [] {
      NoEntry(id);
    } else {
      var front, last := rows[..|rows| - 1], rows[|rows| - 1];
      FrontOnce(rows, front, |rows| - 1);
      EntrySwept(front, p, id);
      assert rows == front + [last];
      NoneFound(front, last.id);
      EntryAdded(front, last, id);
      NoneSwept(front, p, last.id);
      if Lesser(last, p).sources != [] { EntryAdded(SweptRows(front, p), Lesser(last, p), id); }
      NoneFound(front, id);
    }
  }

  lemma NoEntry(id: string)
    ensures EntryOf([], id) == None
  {
  }

  lemma NoneFound(rows: seq<Row>, id: string)
    ensures (forall k :: 0 <= k < |rows| ==> rows[k].id != id) <==> Find(rows, id) == |rows|
    ensures EntryOf(rows, id) == None <==> Find(rows, id) == |rows|
  {
  }

  lemma NoneSwept(rows: seq<Row>, p: Peer, id: string)
    requires forall k :: 0 <= k < |rows| ==> rows[k].id != id
    ensures Find(SweptRows(rows, p), id) == |SweptRows(rows, p)|
  {
    hide SweptRows, Less;
    if k :| 0 <= k < |SweptRows(rows, p)| && SweptRows(rows, p)[k].id == id { var i := SweptFrom(rows, p, k); }
  }

  /** A step makes an entry when an asset is wanted, and it goes when the asset is complete or when no potential source
    * is left. */
  lemma StepListed(t: Table, e: Event, id: string)
    requires Inv(t)
    ensures Listed(Step(t, e), id) <==>
      (Listed(t, id) && !(e.Completed? && e.id == id) && !LeftWithout(t, e, id)) || (e.Requested? && e.id == id)
  {
    hide *;
    NextEntry(t, e, id);
    ListedIs(t, id);
    ListedIs(Step(t, e), id);
    if e.Lost? || (e.Failed? && e.id == id) { EntryLeft(t, e, id); } else { NotLeftWithout(t, e, id); }
  }

  lemma ListedIs(t: Table, id: string)
    ensures Listed(t, id) <==> EntryOf(t.rows, id).Some?
  {
  }

  lemma EntryLeft(t: Table, e: Event, id: string)
    requires Inv(t) && (e.Lost? || (e.Failed? && e.id == id))
    ensures LeftWithout(t, e, id) <==>
      EntryOf(t.rows, id).Some? && Less(EntryOf(t.rows, id).value.sources, e.peer) == []
  {
    hide Less;
    LeftWithoutIs(t, e, id);
  }

  /** The entry of an asset after a step. */
  lemma NextEntry(t: Table, e: Event, id: string)
    requires Inv(t)
    ensures var was, next := EntryOf(t.rows, id), EntryOf(Step(t, e).rows, id);
      match e
      case Connected(_) => next == was
      case Requested(p, x) =>
        if x != id then next == was
        else if was.None? then next == Some(Row(id, [p], None, Others(t.clients, p), p))
        else next == Some(was.value.(recipients := was.value.recipients + [p]))
      case Data(p, x) =>
        if x != id || was.None? || (was.value.source.Some? && was.value.source != Some(p)) then next == was
        else next == Some(was.value.(source := Some(p)))
      case Completed(_, x) => next == if x == id then None else was
      case Failed(p, x) =>
        if x != id || was.None? then next == was
        else if Less(was.value.sources, p) == [] then next == None
        else next == Some(was.value.(sources := Less(was.value.sources, p)))
      case Lost(p) =>
        if was.None? || Less(was.value.sources, p) == [] then next == None
        else
          next == Some(was.value.(recipients := Less(was.value.recipients, p), sources := Less(was.value.sources, p)))
  {
    hide OneEach, AllSound, NoneTwice, Cut, SweptRows, SweptSent, Less, Others, Asks, Deliveries, Failures;
    match e
    case Connected(_) =>
    case Requested(p, x) =>
      var i := Find(t.rows, x);
      if i < |t.rows| {
        EntrySet(t.rows, i, t.rows[i].(recipients := t.rows[i].recipients + [p]), id);
      } else {
        EntryAdded(t.rows, Row(x, [p], None, Others(t.clients, p), p), id);
      }
    case Data(p, x) =>
      var i := Find(t.rows, x);
      if i < |t.rows| { EntrySet(t.rows, i, t.rows[i].(source := Some(p)), id); }
    case Completed(_, x) =>
      var i := Find(t.rows, x);
      if i < |t.rows| { EntryAt(t.rows, i, id); }
    case Failed(p, x) =>
      var i := Find(t.rows, x);
      if i < |t.rows| {
        EntryAt(t.rows, i, id);
        EntrySet(t.rows, i, t.rows[i].(sources := Less(t.rows[i].sources, p)), id);
      }
    case Lost(p) =>
      EntrySwept(t.rows, p, id);
      if EntryOf(t.rows, id).Some? { LesserIs(EntryOf(t.rows, id).value, p); }
  }

  lemma LesserIs(row: Row, p: Peer)
    ensures Lesser(row, p) == row.(recipients := Less(row.recipients, p), sources := Less(row.sources, p))
  {
  }

  /** A peer is a potential source of an entry. */
  ghost predicate MayHave(t: Table, id: string, q: Peer) {
    exists i :: 0 <= i < |t.rows| && t.rows[i].id == id && q in t.rows[i].sources
  }

  /** The potential sources of a new entry are all other clients, and an entry loses one when it fails or is lost. */
  lemma StepSources(t: Table, e: Event, id: string, q: Peer)
    requires Inv(t) && Enabled(t, e) && Listed(Step(t, e), id)
    ensures MayHave(Step(t, e), id, q) <==>
      if Listed(t, id) then MayHave(t, id, q) && e != Failed(q, id) && e != Lost(q) else q in t.clients && q != e.peer
  {
    hide *;
    NextEntry(t, e, id);
    StepInv(t, e);
    EntrySources(t, id);
    EntrySources(Step(t, e), id);
    ListedIs(t, id);
    ListedIs(Step(t, e), id);
    MayHaveIs(t, id, q);
    MayHaveIs(Step(t, e), id, q);
    var was, next := EntryOf(t.rows, id), EntryOf(Step(t, e).rows, id);
    if was.Some? {
      LessDistinct(was.value.sources, e.peer);
      assert next.value.sources ==
        if e == Lost(e.peer) || e == Failed(e.peer, id) then Less(was.value.sources, e.peer) else was.value.sources;
    }
  }

  lemma EntrySources(t: Table, id: string)
    requires Inv(t)
    ensures OneEach(t.rows) && (EntryOf(t.rows, id).Some? ==> NoneTwice(EntryOf(t.rows, id).value.sources))
  {
    hide NoneTwice, OneEach;
  }

  lemma MayHaveIs(t: Table, id: string, q: Peer)
    requires OneEach(t.rows)
    ensures MayHave(t, id, q) <==> EntryOf(t.rows, id).Some? && q in EntryOf(t.rows, id).value.sources
  {
  }

  /** The first peer that sends data becomes the source, and stays it. */
  lemma StepSource(t: Table, e: Event, id: string)
    requires Inv(t) && Listed(t, id) && Listed(Step(t, e), id)
    ensures forall q: Peer :: TakesFrom(Step(t, e), id, q) <==>
      TakesFrom(t, id, q) || (e == Data(q, id) && forall p: Peer :: !TakesFrom(t, id, p))
  {
    hide *;
    NextEntry(t, e, id);
    ListedIs(t, id);
    ListedIs(Step(t, e), id);
    TakesFromIs(t, id);
    TakesFromIs(Step(t, e), id);
  }

  lemma TakesFromIs(t: Table, id: string)
    ensures forall q: Peer ::
      TakesFrom(t, id, q) <==> EntryOf(t.rows, id).Some? && EntryOf(t.rows, id).value.source == Some(q)
  {
  }

  // ----- The server -----

  class Wanted {
    const id: string
    var recipients: seq<Peer>
    var source: Option<Peer>
    var sources: seq<Peer>
    ghost const asker: Peer

    constructor (id: string, ghost asker: Peer)
      ensures this.id == id && recipients == [] && source == None && sources == [] && this.asker == asker
    {
      this.id, this.asker := id, asker;
      recipients, source, sources := [], None, [];
    }
  }

  ghost function RowOf(w: Wanted): Row
    reads w
  {
    Row(w.id, w.recipients, w.source, w.sources, w.asker)
  }

  ghost function Rows(ws: seq<Wanted>): (rows: seq<Row>)
    reads ws
    ensures |rows| == |ws| && forall i :: 0 <= i < |ws| ==> rows[i] == RowOf(ws[i])
  {
    if ws == [] then [] else Rows(ws[..|ws| - 1]) + [RowOf(ws[|ws| - 1])]
  }

  ghost predicate Apart(ws: seq<Wanted>) {
    forall i, j :: 0 <= i < j < |ws| ==> ws[i] != ws[j]
  }

  /** Takes the first occurrence of a peer out of a list. */
  method Remove(ps: seq<Peer>, p: Peer) returns (less: seq<Peer>)
    ensures less == Less(ps, p)
  {
    hide Less;
    LessIs(ps, p);
    for i := 0 to |ps|
      invariant forall j :: 0 <= j < i ==> ps[j] != p
    {
      if ps[i] == p { return ps[..i] + ps[i + 1..]; }
    }
    return ps;
  }

  class Server {
    var clients: seq<Peer>
    var wanted: seq<Wanted>
    var sent: seq<Message>

    ghost function Abs(): Table
      reads this, wanted
    {
      Table(clients, Rows(wanted), sent)
    }

    constructor ()
      ensures Apart(wanted) && Abs() == Empty
    {
      clients, wanted, sent := [], [], [];
    }

    /** handle_incoming_connection() */
    method Connect(p: Peer)
      requires Apart(wanted)
      modifies this`clients
      ensures Apart(wanted) && Abs() == Step(old(Abs()), Connected(p))
    {
      clients := [p] + clients;
    }

    /** _asset_is_wanted() */
    method IsWanted(id: string) returns (i: nat)
      ensures i == Find(Rows(wanted), id)
    {
      hide Rows;
      ghost var rows := Rows(wanted);
      for k := 0 to |wanted|
        invariant forall j :: 0 <= j < k ==> rows[j].id != id
      {
        assert rows[k] == RowOf(wanted[k]);
        if wanted[k].id == id { return k; }
      }
      return |wanted|;
    }

    /** _request_missing_asset() */
    method RequestMissingAsset(p: Peer, id: string)
      requires Apart(wanted)
      modifies this, wanted
      ensures Apart(wanted) && Abs() == Step(old(Abs()), Requested(p, id))
    {
      hide *;
      ghost var rows := Rows(wanted);
      RequestedRows(Abs(), p, id);
      AbsIs();
      var i := IsWanted(id);
      if i < |wanted| {
        var w := wanted[i];
        RowsSplit(wanted, i);
        RowOfIs(w);
        w.recipients := w.recipients + [p];
        RowsSplit(wanted, i);
        RowOfIs(w);
        assert Rows(wanted) == rows[i := rows[i].(recipients := w.recipients)];
      } else {
        var w := new Wanted(id, p);
        OneApart(wanted, w);
        RowsLast(wanted, w);
        wanted := wanted + [w];
        w.recipients := [p];
        QueueSources(w, p);
        RowsLast(old(wanted), w);
        RowOfIs(w);
        Broadcast(p, id);
      }
      AbsIs();
    }

    /** All other clients may have the asset. */
    method QueueSources(w: Wanted, p: Peer)
      requires w.sources == []
      modifies w`sources
      ensures w.sources == Others(clients, p)
    {
      for k := 0 to |clients|
        invariant w.sources == Others(clients[..k], p)
      {
        assert clients[..k + 1][..k] == clients[..k];
        if clients[k] != p { w.sources := w.sources + [clients[k]]; }
      }
      assert clients[..|clients|] == clients;
    }

    /** asset_request() by _asset_send_func_broadcast(): to everyone but one. */
    method Broadcast(p: Peer, id: string)
      modifies this`sent
      ensures sent == old(sent) + Asks(Others(clients, p), id)
    {
      for k := 0 to |clients|
        invariant sent == old(sent) + Asks(Others(clients[..k], p), id)
      {
        assert clients[..k + 1][..k] == clients[..k];
        if clients[k] != p { sent := sent + [Ask(clients[k], id)]; }
      }
      assert clients[..|clients|] == clients;
    }

    /** _asset_write_func(): data is taken from the first peer that sends some, and from no other. */
    method AssetWrite(p: Peer, id: string) returns (taken: bool)
      requires Apart(wanted)
      modifies wanted
      ensures Apart(wanted) && Abs() == Step(old(Abs()), Data(p, id))
      ensures var rows := old(Rows(wanted)); var i := Find(rows, id);
        taken <==> i < |rows| && (rows[i].source == None || rows[i].source == Some(p))
    {
      hide Rows, SweptRows, SweptSent, Less, Others;
      var i := IsWanted(id);
      taken := i < |wanted| && (wanted[i].source == None || wanted[i].source == Some(p));
      if taken { wanted[i].source := Some(p); }
    }

    /** _asset_state_callback_func() for an asset that is there now. */
    method NowAvailable(p: Peer, id: string)
      requires Apart(wanted)
      modifies this
      ensures Apart(wanted) && Abs() == Step(old(Abs()), Completed(p, id))
      ensures old(OneEach(Rows(wanted))) ==>
        forall q: Peer, x: string ::
          Count(sent, Deliver(q, x)) ==
            old(Count(sent, Deliver(q, x))) + (if x == id then old(Waiting(Rows(wanted), q, x)) else 0)
    {
      hide Rows, Cut, Apart, Count, Waiting, OneEach;
      ghost var t := Abs();
      var i := IsWanted(id);
      if i < |wanted| { ForwardWantedAsset(wanted[i], i); }
      if OneEach(t.rows) {
        forall q: Peer, x: string
          ensures Count(sent, Deliver(q, x)) ==
            Count(t.sent, Deliver(q, x)) + (if x == id then Waiting(t.rows, q, x) else 0)
        {
          StepDelivers(t, Completed(p, id), q, x);
        }
      }
    }

    /** _forward_wanted_asset() */
    method ForwardWantedAsset(w: Wanted, ghost at: nat)
      requires Apart(wanted) && at < |wanted| && wanted[at] == w
      modifies this`wanted, this`sent
      ensures Apart(wanted) && wanted == old(wanted)[..at] + old(wanted)[at + 1..]
      ensures Rows(wanted) == Cut(old(Rows(wanted)), at) && sent == old(sent) + Deliveries(w.recipients, w.id)
    {
      hide Rows, Cut, Apart;
      for k := 0 to |w.recipients|
        invariant sent == old(sent) + Deliveries(w.recipients[..k], w.id) && wanted == old(wanted)
      {
        sent := sent + [Deliver(w.recipients[k], w.id)];
      }
      Unlink(w, at);
    }

    /** _forward_wanted_asset_failure() */
    method ForwardWantedAssetFailure(w: Wanted, ghost at: nat)
      requires Apart(wanted) && at < |wanted| && wanted[at] == w
      modifies this`wanted, this`sent
      ensures Apart(wanted) && wanted == old(wanted)[..at] + old(wanted)[at + 1..]
      ensures Rows(wanted) == Cut(old(Rows(wanted)), at) && sent == old(sent) + Failures(w.recipients, w.id)
    {
      hide Rows, Cut, Apart;
      for k := 0 to |w.recipients|
        invariant sent == old(sent) + Failures(w.recipients[..k], w.id) && wanted == old(wanted)
      {
        sent := sent + [Missing(w.recipients[k], w.id)];
      }
      Unlink(w, at);
    }

    /** Splices an entry out of the table. */
    method Unlink(w: Wanted, ghost at: nat)
      requires Apart(wanted) && at < |wanted| && wanted[at] == w
      modifies this`wanted
      ensures Apart(wanted) && wanted == old(wanted)[..at] + old(wanted)[at + 1..]
      ensures Rows(wanted) == Cut(old(Rows(wanted)), at)
    {
      for i := 0 to |wanted|
        invariant i <= at && wanted == old(wanted)
      {
        if wanted[i] == w {
          wanted := wanted[..i] + wanted[i + 1..];
          return;
        }
      }
    }

    /** _asset_state_callback_func() for an asset that a peer turns out not to have. */
    method NowUnavailable(p: Peer, id: string)
      requires Apart(wanted)
      modifies this, wanted
      ensures Apart(wanted) && Abs() == Step(old(Abs()), Failed(p, id))
    {
      hide *;
      ghost var rows := Rows(wanted);
      var i := IsWanted(id);
      FailedRows(Abs(), p, id);
      AbsIs();
      if i == |wanted| { return; }
      var w := wanted[i];
      ghost var before, after := wanted[..i], wanted[i + 1..];
      RowsSplit(wanted, i);
      RowOfIs(w);
      w.sources := Remove(w.sources, p);
      RowsSplit(wanted, i);
      RowOfIs(w);
      AbsIs();
      assert Rows(wanted) == rows[i := rows[i].(sources := w.sources)];
      if |w.sources| == 0 {
        CutSet(rows, i, Rows(wanted)[i]);
        ForwardWantedAssetFailure(w, i);
        AbsIs();
      }
    }

    lemma AbsIs()
      ensures Abs() == Table(clients, Rows(wanted), sent)
    {
    }

    /** _remove_client_from_wanted(): the table shrinks while it is gone through. */
    method RemoveClientFromWanted(p: Peer)
      requires Apart(wanted)
      modifies this`wanted, this`sent, wanted
      ensures Apart(wanted)
      ensures Rows(wanted) == SweptRows(old(Rows(wanted)), p) && sent == old(sent) + SweptSent(old(Rows(wanted)), p)
    {
      hide *;
      ghost var was, rows := wanted, Rows(wanted);
      ghost var k: nat := 0;
      var i: nat := 0;
      SweepStart(was, p, sent);
      while i < |wanted|
        invariant Sweeping(was, rows, p, k, wanted, i, old(sent), sent) && k <= |was| && i <= |wanted|
        decreases |was| - k
      {
        SweepAt(was, rows, p, k, wanted, i, old(sent), sent);
        i := SweepEntry(p, i, was, rows, k, old(sent));
        k := k + 1;
      }
      SweepEnd(was, rows, p, k, wanted, i, old(sent), sent);
    }

    /** The sweep on one entry; the next one is at the place returned. */
    method SweepEntry(p: Peer, i: nat, ghost was: seq<Wanted>, ghost rows: seq<Row>, ghost k: nat,
                      ghost base: seq<Message>)
      returns (next: nat)
      requires i < |wanted| && Sweeping(was, rows, p, k, wanted, i, base, sent)
      modifies this`wanted, this`sent, wanted[i]
      ensures k < |was| && next <= |wanted| && Sweeping(was, rows, p, k + 1, wanted, next, base, sent)
      ensures forall w :: w in wanted ==> w in old(wanted)
    {
      hide *;
      var w := wanted[i];
      SweepAt(was, rows, p, k, wanted, i, base, sent);
      ghost var left, rest := wanted[..i], was[k + 1..];
      LosePeer(w, p);
      SweptNext(rows, k, p);
      if |w.sources| == 0 {
        ForwardWantedAssetFailure(w, i);
        next := i;
        SweepGone(was, rows, p, k, left, rest, wanted, i, base, sent);
      } else {
        next := i + 1;
        RowsLast(left, w);
        SweepLeft(was, rows, p, k, left, rest, wanted, i, base, sent);
      }
    }

    /** The splices on one entry. */
    method LosePeer(w: Wanted, p: Peer)
      modifies w
      ensures RowOf(w) == Lesser(old(RowOf(w)), p)
      ensures w.sources == RowOf(w).sources && w.recipients == RowOf(w).recipients && w.id == RowOf(w).id
    {
      hide Less;
      w.recipients := Remove(w.recipients, p);
      w.sources := Remove(w.sources, p);
    }

    /** handle_lost_connection() */
    method LoseConnection(p: Peer)
      requires Apart(wanted)
      modifies this, wanted
      ensures Apart(wanted) && Abs() == Step(old(Abs()), Lost(p))
    {
      hide Rows, SweptRows, SweptSent, Less;
      RemoveClientFromWanted(p);
      ghost var was := clients;
      var left: seq<Peer> := [];
      for k := 0 to |clients|
        invariant left == Others(clients[..k], p)
      {
        assert clients[..k + 1][..k] == clients[..k];
        if clients[k] != p { left := left + [clients[k]]; }
      }
      assert clients[..|clients|] == clients;
      clients := left;
    }
  }

  lemma RowsLast(ws: seq<Wanted>, w: Wanted)
    ensures Rows(ws + [w]) == Rows(ws) + [RowOf(w)]
  {
  }

  lemma CutSet(rows: seq<Row>, i: nat, row: Row)
    requires i < |rows|
    ensures Cut(rows[i := row], i) == Cut(rows, i)
  {
  }

  lemma RowOfIs(w: Wanted)
    ensures RowOf(w) == Row(w.id, w.recipients, w.source, w.sources, w.asker)
  {
  }

  lemma RowsSplit(ws: seq<Wanted>, i: nat)
    requires i < |ws| && Apart(ws)
    ensures Rows(ws) == Rows(ws[..i]) + [RowOf(ws[i])] + Rows(ws[i + 1..])
    ensures ws[i] !in ws[..i] && ws[i] !in ws[i + 1..] && |Rows(ws[..i])| == i
  {
  }

  lemma OneApart(ws: seq<Wanted>, w: Wanted)
    requires Apart(ws) && w !in ws
    ensures Apart(ws + [w])
  {
  }

  /** What becomes of the table with a request. */
  lemma RequestedRows(t: Table, p: Peer, id: string)
    ensures var i, next := Find(t.rows, id), Step(t, Requested(p, id));
      && i <= |t.rows|
      && (i < |t.rows| ==>
          next == Table(t.clients, t.rows[i := t.rows[i].(recipients := t.rows[i].recipients + [p])], t.sent))
      && (i == |t.rows| ==>
          next == Table(t.clients, t.rows + [Row(id, [p], None, Others(t.clients, p), p)],
                        t.sent + Asks(Others(t.clients, p), id)))
  {
    hide Others, Asks;
  }

  /** What becomes of the table when a peer fails. */
  lemma FailedRows(t: Table, p: Peer, id: string)
    ensures var i, next := Find(t.rows, id), Step(t, Failed(p, id));
      && i <= |t.rows|
      && (i == |t.rows| ==> next == t)
      && (i < |t.rows| ==>
          t.rows[i].id == id &&
          var sources := Less(t.rows[i].sources, p);
          if sources == [] then next == Table(t.clients, Cut(t.rows, i), t.sent + Failures(t.rows[i].recipients, id))
          else next == Table(t.clients, t.rows[i := t.rows[i].(sources := sources)], t.sent))
  {
    hide Less;
  }

  /** The entries from i on are those from k on of before; of those that have been gone through the rest is before i. */
  ghost predicate Sweeping(was: seq<Wanted>, rows: seq<Row>, p: Peer, k: nat, now: seq<Wanted>, i: nat,
                           base: seq<Message>, sent: seq<Message>)
    reads was, now
  {
    && Apart(was) && Apart(now) && |rows| == |was| && k <= |was| && i <= |now| && now[i..] == was[k..]
    && (forall m :: 0 <= m < |now| ==> now[m] in was)
    && Rows(now[..i]) == SweptRows(rows[..k], p) && Rows(was[k..]) == rows[k..]
    && sent == base + SweptSent(rows[..k], p)
  }

  lemma SweepStart(was: seq<Wanted>, p: Peer, sent: seq<Message>)
    requires Apart(was)
    ensures Sweeping(was, Rows(was), p, 0, was, 0, sent, sent)
  {
    hide Rows;
    assert was[0..] == was && Rows(was)[0..] == Rows(was);
  }

  lemma SweepAt(was: seq<Wanted>, rows: seq<Row>, p: Peer, k: nat, now: seq<Wanted>, i: nat,
                base: seq<Message>, sent: seq<Message>)
    requires Sweeping(was, rows, p, k, now, i, base, sent) && i < |now|
    ensures Apart(was) && Apart(now) && sent == base + SweptSent(rows[..k], p)
        && Rows(now[..i]) == SweptRows(rows[..k], p)
    ensures k < |was| == |rows| && now[i] == was[k] && RowOf(now[i]) == rows[k]
    ensures Rows(was[k + 1..]) == rows[k + 1..] && now[i] !in now[..i] && now[i] !in was[k + 1..]
    ensures now == now[..i] + [now[i]] + was[k + 1..] && now[i + 1..] == was[k + 1..]
    ensures forall m :: 0 <= m < i ==> now[..i][m] in was
  {
    hide Rows, RowOf;
    assert now[i] == now[i..][0] == was[k];
    assert now[i + 1..] == now[i..][1..] == was[k..][1..] == was[k + 1..];
    RowsFirst(was[k..], rows[k..]);
    RowsSplit(now, i);
  }

  lemma RowsFirst(ws: seq<Wanted>, rows: seq<Row>)
    requires Rows(ws) == rows && ws != []
    ensures rows != [] && RowOf(ws[0]) == rows[0] && Rows(ws[1..]) == rows[1..]
  {
  }

  lemma SweptNext(rows: seq<Row>, k: nat, p: Peer)
    requires k < |rows|
    ensures var less := Lesser(rows[k], p);
      && SweptRows(rows[..k + 1], p) == SweptRows(rows[..k], p) + (if less.sources == [] then [] else [less])
      && SweptSent(rows[..k + 1], p) == SweptSent(rows[..k], p)
        + (if less.sources == [] then Failures(less.recipients, less.id) else [])
  {
    hide Lesser;
    assert rows[..k + 1][..k] == rows[..k];
  }

  lemma SweepGone(was: seq<Wanted>, rows: seq<Row>, p: Peer, k: nat, left: seq<Wanted>, rest: seq<Wanted>,
                  now: seq<Wanted>, i: nat, base: seq<Message>, sent: seq<Message>)
    requires k < |was| && |left| == i && rest == was[k + 1..] && Apart(was) && |rows| == |was|
    requires forall m :: 0 <= m < i ==> left[m] in was
    requires now == left + rest && Apart(now)
    requires Rows(left) == SweptRows(rows[..k + 1], p) && Rows(rest) == rows[k + 1..]
        && sent == base + SweptSent(rows[..k + 1], p)
    ensures Sweeping(was, rows, p, k + 1, now, i, base, sent)
  {
    hide Rows;
    assert now[..i] == left;
  }

  lemma SweepLeft(was: seq<Wanted>, rows: seq<Row>, p: Peer, k: nat, left: seq<Wanted>, rest: seq<Wanted>,
                  now: seq<Wanted>, i: nat, base: seq<Message>, sent: seq<Message>)
    requires k < |was| && |left| == i && rest == was[k + 1..] && Apart(was) && |rows| == |was|
    requires forall m :: 0 <= m < i ==> left[m] in was
    requires now == left + [was[k]] + rest && Apart(now)
    requires Rows(left + [was[k]]) == SweptRows(rows[..k + 1], p) && Rows(rest) == rows[k + 1..]
    requires sent == base + SweptSent(rows[..k + 1], p)
    ensures Sweeping(was, rows, p, k + 1, now, i + 1, base, sent)
  {
    hide Rows;
    assert now[..i + 1] == left + [was[k]];
  }

  lemma SweepEnd(was: seq<Wanted>, rows: seq<Row>, p: Peer, k: nat, now: seq<Wanted>, i: nat,
                 base: seq<Message>, sent: seq<Message>)
    requires Sweeping(was, rows, p, k, now, i, base, sent) && i >= |now|
    ensures Apart(now) && Rows(now) == SweptRows(rows, p) && sent == base + SweptSent(rows, p)
  {
    hide Rows;
    assert |now[i..]| == |was[k..]|;
    assert now[..i] == now && rows[..k] == rows;
  }
}
