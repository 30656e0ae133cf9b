/** Adding trees of entities to the world, and removing an entity with or without its descendants (src/state.c). */
module EntityGraph {
  import opened Options
  import opened MergePatches

  /** One item of a JSON object. An object built by appending may hold the same name twice. */
  datatype Member = Member(name: string, value: Json)

  // ----- Objects as lists of members -----

  function LowerChar(c: char): char {
    if 'A' <= c <= 'Z' then c - 'A' + 'a' else c
  }

  function Lower(s: string): string {
    if s == "" then "" else [LowerChar(s[0])] + Lower(s[1..])
  }

  /** Position of the first member with this name, or the length. */
  function Find(ms: seq<Member>, name: string): (i: nat)
    ensures i <= |ms| && (i < |ms| ==> ms[i].name == name)
    ensures forall j :: 0 <= j < i ==> ms[j].name != name
  {
    if ms == [] || ms[0].name == name then 0 else 1 + Find(ms[1..], name)
  }

  /** The same, in any spelling of the name. */
  function FindFolded(ms: seq<Member>, name: string): (i: nat)
    ensures i <= |ms| && (i < |ms| ==> Lower(ms[i].name) == Lower(name))
    ensures forall j :: 0 <= j < i ==> Lower(ms[j].name) != Lower(name)
  {
    if ms == [] || Lower(ms[0].name) == Lower(name) then 0 else 1 + FindFolded(ms[1..], name)
  }

  /** The same letter, of whatever case, or the same other character. */
  predicate SameLetter(a: char, b: char) {
    a == b || ('A' <= a <= 'Z' && b as int == a as int + 32) || ('A' <= b <= 'Z' && a as int == b as int + 32)
  }

  /** Two spellings of one name. */
  predicate Alike(s: string, t: string) {
    |s| == |t| && forall i :: 0 <= i < |s| ==> SameLetter(s[i], t[i])
  }

  lemma {:induction false} FoldedAlike(s: string, t: string)
    ensures Lower(s) == Lower(t) <==> Alike(s, t)
  {
    if s != "" && t != "" {
      FoldedAlike(s[1..], t[1..]);
      assert Lower(s) == [LowerChar(s[0])] + Lower(s[1..]) && Lower(t) == [LowerChar(t[0])] + Lower(t[1..]);
      assert Lower(s)[0] == LowerChar(s[0]) && Lower(s)[1..] == Lower(s[1..]);
      assert Lower(t)[0] == LowerChar(t[0]) && Lower(t)[1..] == Lower(t[1..]);
      AlikeParts(s, t);
    }
  }

  lemma AlikeParts(s: string, t: string)
    requires s != "" && t != ""
    ensures Alike(s, t) <==> SameLetter(s[0], t[0]) && Alike(s[1..], t[1..])
  {
    hide SameLetter;
    if SameLetter(s[0], t[0]) && Alike(s[1..], t[1..]) {
      forall i | 0 <= i < |s| ensures SameLetter(s[i], t[i]) {
        if i > 0 { assert SameLetter(s[1..][i - 1], t[1..][i - 1]); }
      }
    }
  }

  /** Position k holds the first member with this name, in any spelling. */
  ghost predicate FirstAlike(ms: seq<Member>, name: string, k: nat) {
    k < |ms| && Alike(ms[k].name, name) && forall j :: 0 <= j < k ==> !Alike(ms[j].name, name)
  }

  lemma FoldedFirst(ms: seq<Member>, name: string, k: nat)
    ensures FirstAlike(ms, name, k) <==> k < |ms| && FindFolded(ms, name) == k
    ensures FindFolded(ms, name) == |ms| <==> forall j :: 0 <= j < |ms| ==> !Alike(ms[j].name, name)
  {
    hide Lower, Alike;
    forall j | 0 <= j < |ms| ensures Alike(ms[j].name, name) <==> Lower(ms[j].name) == Lower(name) {
      FoldedAlike(ms[j].name, name);
    }
  }

  /** The parent that an entity's components name. */
  function Parent(ms: seq<Member>): Option<string> {
    var i := Find(ms, "relationships");
    if i < |ms| && ms[i].value.Obj? && "parent" in ms[i].value.members && ms[i].value.members["parent"].Str?
    then Some(ms[i].value.members["parent"].s) else None
  }

  /** cJSON_DeleteItemFromObject(components, "relationships"): the first member in any spelling goes. */
  function Released(ms: seq<Member>): seq<Member> {
    var i := FindFolded(ms, "relationships");
    if i < |ms| then ms[..i] + ms[i + 1..] else ms
  }

  /** The parent is that of the first member of exactly this name, if it is an object that has one. */
  lemma ParentMeans(ms: seq<Member>, p: string)
    ensures Parent(ms) == Some(p) <==> exists i :: 0 <= i < |ms| && NamesParent(ms, i, p)
  {
    hide Find;
    if Parent(ms) == Some(p) { assert NamesParent(ms, Find(ms, "relationships"), p); }
    if i :| 0 <= i < |ms| && NamesParent(ms, i, p) { assert Find(ms, "relationships") == i; }
  }

  ghost predicate NamesParent(ms: seq<Member>, i: nat, p: string)
    requires i < |ms|
  {
    && ms[i].name == "relationships" && (forall j :: 0 <= j < i ==> ms[j].name != "relationships")
    && ms[i].value.Obj? && "parent" in ms[i].value.members && ms[i].value.members["parent"] == Str(p)
  }

  /** Exactly the first member in any spelling goes. */
  lemma ReleasedMeans(ms: seq<Member>, k: nat)
    ensures FirstAlike(ms, "relationships", k) ==> Released(ms) == ms[..k] + ms[k + 1..]
    ensures (forall j :: 0 <= j < |ms| ==> !Alike(ms[j].name, "relationships")) ==> Released(ms) == ms
  {
    hide FindFolded, FirstAlike, Alike;
    FoldedFirst(ms, "relationships", k);
  }

  /** The first spelling of "relationships" is the plain one. */
  predicate Plain(ms: seq<Member>) {
    var i := FindFolded(ms, "relationships");
    i < |ms| && ms[i].name == "relationships"
  }

  /** The members after the first spelling of "relationships". */
  function Behind(ms: seq<Member>): seq<Member> {
    var i := FindFolded(ms, "relationships");
    if i < |ms| then ms[i + 1..] else []
  }

  lemma {:induction false} FindBehind(a: seq<Member>, b: seq<Member>, name: string)
    requires forall i :: 0 <= i < |a| ==> a[i].name != name
    ensures Find(a + b, name) == |a| + Find(b, name)
  {
    if a == [] {
      assert a + b == b;
    } else {
      assert (a + b)[1..] == a[1..] + b;
      FindBehind(a[1..], b, name);
    }
  }

  /** The member that is found decides. */
  lemma ParentFound(a: seq<Member>, b: seq<Member>)
    requires Find(a, "relationships") < |a| && Find(b, "relationships") < |b|
    requires a[Find(a, "relationships")] == b[Find(b, "relationships")]
    ensures Parent(a) == Parent(b)
  {
    hide Find;
  }

  lemma ParentNowhere(a: seq<Member>, b: seq<Member>)
    requires Find(a, "relationships") == |a| && Find(b, "relationships") == |b|
    ensures Parent(a) == Parent(b)
  {
    hide Find;
  }

  /** Members of other names before do not matter. */
  lemma ParentBehind(a: seq<Member>, b: seq<Member>)
    requires forall i :: 0 <= i < |a| ==> a[i].name != "relationships"
    ensures Parent(a + b) == Parent(b)
  {
    hide *;
    FindBehind(a, b, "relationships");
    var i := Find(b, "relationships");
    if i < |b| {
      assert (a + b)[|a| + i] == b[i];
      ParentFound(a + b, b);
    } else {
      ParentNowhere(a + b, b);
    }
  }

  lemma ReleasedIs(ms: seq<Member>)
    ensures var k := FindFolded(ms, "relationships");
      && k <= |ms| && (forall j :: 0 <= j < k ==> ms[j].name != "relationships")
      && (k == |ms| ==> Released(ms) == ms && !Plain(ms))
      && (k < |ms| ==> Released(ms) == ms[..k] + Behind(ms) && Behind(ms) == ms[k + 1..])
      && (k < |ms| ==> (Plain(ms) <==> ms[k].name == "relationships"))
  {
    hide FindFolded, Lower;
    NoneSpelled(ms, "relationships");
  }

  /** No member before the first spelling of a name has the name. */
  lemma NoneSpelled(ms: seq<Member>, name: string)
    ensures forall j :: 0 <= j < FindFolded(ms, name) ==> ms[j].name != name
  {
    hide Lower;
  }

  /** An entity that is released names the parent that comes behind, or still the one it had if another spelling came
    * first. */
  lemma ReleasedParent(ms: seq<Member>)
    ensures Parent(Released(ms)) == if Plain(ms) then Parent(Behind(ms)) else Parent(ms)
  {
    hide *;
    ReleasedIs(ms);
    var k := FindFolded(ms, "relationships");
    if k < |ms| {
      ParentBehind(ms[..k], ms[k + 1..]);
      if !Plain(ms) {
        ParentBehind(ms[..k + 1], ms[k + 1..]);
        assert ms == ms[..k + 1] + ms[k + 1..];
      }
    }
  }

  function Relationships(p: string): Member {
    Member("relationships", Obj(map["parent" := Str(p)]))
  }

  /** Another spelling comes first: the child keeps its parent. */
  lemma OtherSpellingFirst(value: Json, p: string)
    ensures var ms := [Member("Relationships", value), Relationships(p)];
      Parent(ms) == Some(p) && !Plain(ms) && Parent(Released(ms)) == Some(p)
  {
    hide *;
    var other := Member("Relationships", value);
    SpellingFolds();
    SpellingFirst([other, Relationships(p)]);
    ParentIs([other, Relationships(p)], 1, p);
    ReleasedParent([other, Relationships(p)]);
  }

  lemma SpellingFirst(ms: seq<Member>)
    requires |ms| == 2 && Lower(ms[0].name) == Lower("relationships") && ms[0].name != "relationships"
    ensures !Plain(ms) && Find(ms[..1], "relationships") == 1
  {
    hide Lower;
  }

  lemma SpellingFolds()
    ensures Lower("Relationships") == Lower("relationships") && "Relationships"[0] != "relationships"[0]
  {
    var rest := "elationships";
    assert "Relationships" == ['R'] + rest && "relationships" == ['r'] + rest;
    FoldsFirst('R', 'r', rest);
  }

  lemma FoldsFirst(a: char, b: char, rest: string)
    requires LowerChar(a) == LowerChar(b)
    ensures Lower([a] + rest) == Lower([b] + rest)
  {
    assert ([a] + rest)[1..] == rest && ([b] + rest)[1..] == rest;
  }

  /** A child that was added with relationships of its own has two: it is released into the second. */
  lemma SecondRelationships(x: string, p: string)
    ensures var ms := Filled([Relationships(x)], Some(p));
      Parent(ms) == Some(x) && Plain(ms) && Parent(Released(ms)) == Some(p)
  {
    hide *;
    var ms := Filled([Relationships(x)], Some(p));
    FilledAt([Relationships(x)], p);
    assert ms[0] == ms[..1][0] == Relationships(x) && ms[1..][0] == Relationships(p);
    NoneBefore(ms);
    ParentIs(ms, 0, x);
    NoneBefore(ms[1..]);
    ParentIs(ms[1..], 0, p);
    PlainFirst(ms, x);
    ReleasedParent(ms);
  }

  lemma NoneBefore(ms: seq<Member>)
    ensures Find(ms[..0], "relationships") == 0
  {
  }

  lemma PlainFirst(ms: seq<Member>, x: string)
    requires ms != [] && ms[0] == Relationships(x)
    ensures Plain(ms) && Behind(ms) == ms[1..]
  {
    hide Lower;
  }

  // ----- Who descends from whom -----

  /** Every id with the parent it names. */
  type Graph = map<string, Option<string>>

  /** Going n times from an entity to its parent leads to r. */
  ghost predicate Chain(g: Graph, x: string, r: string, n: nat)
    decreases n
  {
    x in g && if n == 0 then x == r else g[x].Some? && Chain(g, g[x].value, r, n - 1)
  }

  ghost predicate Reaches(g: Graph, x: string, r: string) {
    exists n: nat :: Chain(g, x, r, n)
  }

  /** The entities whose parent chain reaches r, itself included. */
  ghost function Down(g: Graph, r: string): set<string> {
    set x | x in g && Reaches(g, x, r)
  }

  /** Every parent that is named is there. */
  ghost predicate Resolves(g: Graph) {
    forall x :: x in g && g[x].Some? ==> g[x].value in g
  }

  /** With an entity come those that name it as their parent. */
  ghost predicate Closed(g: Graph, ids: set<string>) {
    forall x :: x in g && g[x].Some? && g[x].value in ids ==> x in ids
  }

  lemma DownClosed(g: Graph, r: string)
    ensures Closed(g, Down(g, r)) && (r in g ==> r in Down(g, r))
  {
    forall x | x in g && g[x].Some? && g[x].value in Down(g, r) ensures x in Down(g, r) {
      var n: nat :| Chain(g, g[x].value, r, n);
      assert Chain(g, x, r, n + 1);
    }
    if r in g { assert Chain(g, r, r, 0); }
  }

  lemma {:induction false} ChainInClosed(g: Graph, ids: set<string>, x: string, r: string, n: nat)
    requires Closed(g, ids) && r in ids && Chain(g, x, r, n)
    ensures x in ids
    decreases n
  {
    if n > 0 { ChainInClosed(g, ids, g[x].value, r, n - 1); }
  }

  /** The descendants are the least set of ids whose removal can leave every parent resolved. */
  lemma LeastRemoval(g: Graph, r: string, ids: set<string>)
    requires Resolves(g) && r in ids && r in g
    ensures Resolves(g - Down(g, r))
    ensures Resolves(g - ids) ==> Down(g, r) <= ids
  {
    DownClosed(g, r);
    if Resolves(g - ids) {
      forall x | x in g && g[x].Some? && g[x].value in ids ensures x in ids {
        assert x in ids || x in g - ids;
      }
      InClosed(g, ids, r);
    }
  }

  lemma InClosed(g: Graph, ids: set<string>, r: string)
    requires Closed(g, ids) && r in ids
    ensures Down(g, r) <= ids
  {
    forall x | x in Down(g, r) ensures x in ids {
      var n: nat :| Chain(g, x, r, n);
      ChainInClosed(g, ids, x, r, n);
    }
  }

  /** A chain in a part of the graph is one in the whole. */
  lemma {:induction false} ChainInWhole(g: Graph, gone: set<string>, x: string, r: string, n: nat)
    requires Chain(g - gone, x, r, n)
    ensures Chain(g, x, r, n)
    decreases n
  {
    if n > 0 { ChainInWhole(g, gone, g[x].value, r, n - 1); }
  }

  lemma {:induction false} ChainOn(g: Graph, x: string, y: string, r: string, n: nat, m: nat)
    requires Chain(g, x, y, n) && Chain(g, y, r, m)
    ensures Chain(g, x, r, n + m)
    decreases n
  {
    if n > 0 { ChainOn(g, g[x].value, y, r, n - 1, m); }
  }

  /** These are the children of r other than itself, each once. */
  ghost predicate ChildrenOf(g: Graph, r: string, cs: seq<string>) {
    && (forall i, j :: 0 <= i < j < |cs| ==> cs[i] != cs[j])
    && (forall x :: x in cs <==> x in g && x != r && g[x] == Some(r))
  }

  /** r and the descendants of its first i children are gone; only the other children have lost their parent. */
  ghost predicate Cascading(g: Graph, r: string, cs: seq<string>, i: nat, gone: set<string>) {
    && ChildrenOf(g, r, cs) && i <= |cs| && r in g
    && r in gone && gone <= Down(g, r)
    && (forall k :: 0 <= k < |cs| ==> (cs[k] in gone <==> k < i))
    && (forall x :: x in g && x !in gone && g[x].Some? && g[x].value in gone ==> g[x].value == r)
  }

  lemma CascadeStart(g: Graph, r: string, cs: seq<string>)
    requires ChildrenOf(g, r, cs) && r in g
    ensures Cascading(g, r, cs, 0, {r})
  {
    DownClosed(g, r);
    assert forall k :: 0 <= k < |cs| ==> cs[k] in cs;
  }

  lemma CascadeNext(g: Graph, r: string, cs: seq<string>, i: nat, gone: set<string>)
    requires Cascading(g, r, cs, i, gone) && i < |cs|
    ensures cs[i] in g && cs[i] !in gone
    ensures Cascading(g, r, cs, i + 1, gone + Down(g - gone, cs[i]))
  {
    var c, less := cs[i], g - gone;
    assert c in cs;
    var more := Down(less, c);
    DownClosed(less, c);
    ChildDown(g, r, gone, c);
    forall k | i < k < |cs| ensures cs[k] !in more {
      assert cs[k] in cs;
      forall n: nat ensures !Chain(less, cs[k], c, n) {
        assert n == 0 || !Chain(less, r, c, n - 1);
      }
    }
  }

  /** What descends from a child in a part of the graph descends from r in the whole. */
  lemma ChildDown(g: Graph, r: string, gone: set<string>, c: string)
    requires r in g && c in g && g[c] == Some(r)
    ensures Down(g - gone, c) <= Down(g, r)
  {
    assert Chain(g, r, r, 0) && Chain(g, c, r, 1);
    forall x | x in Down(g - gone, c) ensures x in Down(g, r) {
      var n: nat :| Chain(g - gone, x, c, n);
      ChainInWhole(g, gone, x, c, n);
      ChainOn(g, x, c, r, n, 1);
      assert Chain(g, x, r, n + 1);
    }
  }

  lemma CascadeEnd(g: Graph, r: string, cs: seq<string>, gone: set<string>)
    requires Cascading(g, r, cs, |cs|, gone)
    ensures gone == Down(g, r)
  {
    InClosed(g, gone, r);
  }

  // ----- Trees of entities -----

  /** An entity to add: its loose components, and its children. */
  datatype Spec = Spec(members: seq<Member>, children: seq<Spec>)

  /** What is added for one entity. */
  datatype Row = Row(id: string, owner: string, components: seq<Member>)

  function Size(spec: Spec): nat
    decreases spec
  {
    1 + SizeAll(spec.children)
  }

  function SizeAll(specs: seq<Spec>): nat
    decreases specs
  {
    if specs == [] then 0 else SizeAll(specs[..|specs| - 1]) + Size(specs[|specs| - 1])
  }

  function Identity(): Json {
    Obj(map["matrix" := Arr([Num(1), Num(0), Num(0), Num(0)] + [Num(0), Num(1), Num(0), Num(0)]
                          + [Num(0), Num(0), Num(1), Num(0)] + [Num(0), Num(0), Num(0), Num(1)])])
  }

  /** The components with the parent and a transform; what is there already comes first. */
  function Filled(ms: seq<Member>, parent: Option<string>): seq<Member> {
    ms + (if parent.Some? then [Relationships(parent.value)] else [])
    + (if FindFolded(ms, "transform") == |ms| then [Member("transform", Identity())] else [])
  }

  /** A transform that moves nothing. */
  ghost predicate IdentityTransform(m: Member) {
    && m.name == "transform" && m.value.Obj? && m.value.members.Keys == {"matrix"}
    && m.value.members["matrix"].Arr? && |m.value.members["matrix"].elements| == 16
    && forall i, j :: 0 <= i < 4 && 0 <= j < 4 ==> Entry(m.value.members["matrix"].elements, i, j)
  }

  ghost predicate Entry(matrix: seq<Json>, i: nat, j: nat)
    requires |matrix| == 16 && i < 4 && j < 4
  {
    matrix[4 * i + j] == Num(if i == j then 1 else 0)
  }

  lemma IdentityIs()
    ensures IdentityTransform(Member("transform", Identity()))
  {
    var m := Identity().members["matrix"].elements;
    assert |m| == 16;
    assert Entry(m, 0, 0) && Entry(m, 0, 1) && Entry(m, 0, 2) && Entry(m, 0, 3);
    assert Entry(m, 1, 0) && Entry(m, 1, 1) && Entry(m, 1, 2) && Entry(m, 1, 3);
    assert Entry(m, 2, 0) && Entry(m, 2, 1) && Entry(m, 2, 2) && Entry(m, 2, 3);
    assert Entry(m, 3, 0) && Entry(m, 3, 1) && Entry(m, 3, 2) && Entry(m, 3, 3);
  }

  /** The members come first, unchanged; then relationships if and only if there is a parent, and then a transform if
    * and only if no member has that name in any spelling. */
  ghost predicate Completed(all: seq<Member>, ms: seq<Member>, parent: Option<string>) {
    var bare := forall i :: 0 <= i < |ms| ==> !Alike(ms[i].name, "transform");
    && |all| == |ms| + (if parent.Some? then 1 else 0) + (if bare then 1 else 0) && all[..|ms|] == ms
    && (parent.Some? ==> all[|ms|].name == "relationships"
                         && all[|ms|].value == Obj(map["parent" := Str(parent.value)]))
    && (bare ==> IdentityTransform(all[|all| - 1]))
  }

  lemma FilledCompleted(ms: seq<Member>, parent: Option<string>)
    ensures Completed(Filled(ms, parent), ms, parent)
  {
    hide FindFolded, Identity, IdentityTransform, Alike;
    FoldedFirst(ms, "transform", |ms|);
    IdentityIs();
  }

  /** An entity for one spec: of the agent, or of the place without one. */
  ghost predicate Made(row: Row, id: string, agent: Option<string>, ms: seq<Member>, parent: Option<string>) {
    && row.id == id && (agent.Some? ==> row.owner == agent.value) && (agent.None? ==> row.owner == "place")
    && Completed(row.components, ms, parent)
  }

  /** These are the entities of a tree: the root comes last, before it its children with their own trees, the first
    * child last. The ids are used in order. */
  ghost predicate TreeOf(rows: seq<Row>, agent: Option<string>, spec: Spec, parent: Option<string>, ids: seq<string>)
    decreases spec
  {
    && 0 < |rows| <= |ids| && Made(rows[|rows| - 1], ids[0], agent, spec.members, parent)
    && TreesOf(rows[..|rows| - 1], agent, spec.children, ids[0], ids[1..])
  }

  ghost predicate TreesOf(rows: seq<Row>, agent: Option<string>, specs: seq<Spec>, parent: string, ids: seq<string>)
    decreases specs
  {
    if specs == [] then rows == []
    else
      exists n :: 0 <= n <= |rows| <= |ids| && LastTree(rows, n, agent, specs, parent, ids)
  }

  /** The first n rows are those of the last spec, and the others those of the specs before. */
  ghost predicate LastTree(rows: seq<Row>, n: nat, agent: Option<string>, specs: seq<Spec>, parent: string,
                           ids: seq<string>)
    requires specs != [] && n <= |rows| <= |ids|
    decreases specs, 0
  {
    && TreeOf(rows[..n], agent, specs[|specs| - 1], Some(parent), ids[|rows| - n..])
    && TreesOf(rows[n..], agent, specs[..|specs| - 1], parent, ids)
  }

  /** The rows of a tree, in the order of the list: what is added later comes earlier. */
  ghost function Added(owner: string, spec: Spec, parent: Option<string>, ids: seq<string>): (rows: seq<Row>)
    requires |ids| >= Size(spec)
    ensures |rows| == Size(spec)
    decreases spec
  {
    AddedAll(owner, spec.children, ids[0], ids[1..]) + [Row(ids[0], owner, Filled(spec.members, parent))]
  }

  ghost function AddedAll(owner: string, specs: seq<Spec>, parent: string, ids: seq<string>): (rows: seq<Row>)
    requires |ids| >= SizeAll(specs)
    ensures |rows| == SizeAll(specs)
    decreases specs
  {
    if specs == [] then []
    else
      var front, last := specs[..|specs| - 1], specs[|specs| - 1];
      Added(owner, last, Some(parent), ids[SizeAll(front)..]) + AddedAll(owner, front, parent, ids)
  }

  lemma {:induction false} AddedTree(agent: Option<string>, spec: Spec, parent: Option<string>, ids: seq<string>)
    requires |ids| >= Size(spec)
    ensures TreeOf(Added(OwnerOf(agent), spec, parent, ids), agent, spec, parent, ids)
    decreases spec
  {
    hide Made, Filled, Completed;
    AddedTrees(agent, spec.children, ids[0], ids[1..]);
    FilledCompleted(spec.members, parent);
    var rows := Added(OwnerOf(agent), spec, parent, ids);
    assert rows[..|rows| - 1] == AddedAll(OwnerOf(agent), spec.children, ids[0], ids[1..]);
    IsMade(rows[|rows| - 1], ids[0], agent, spec.members, parent);
  }

  lemma IsMade(row: Row, id: string, agent: Option<string>, ms: seq<Member>, parent: Option<string>)
    requires row == Row(id, OwnerOf(agent), Filled(ms, parent))
    ensures Made(row, id, agent, ms, parent)
  {
    hide Filled, Completed;
    FilledCompleted(ms, parent);
  }

  lemma {:induction false} AddedTrees(agent: Option<string>, specs: seq<Spec>, parent: string, ids: seq<string>)
    requires |ids| >= SizeAll(specs)
    ensures TreesOf(AddedAll(OwnerOf(agent), specs, parent, ids), agent, specs, parent, ids)
    decreases specs
  {
    hide TreeOf;
    if specs != [] {
      var front, last := specs[..|specs| - 1], specs[|specs| - 1];
      AddedTree(agent, last, Some(parent), ids[SizeAll(front)..]);
      AddedTrees(agent, front, parent, ids);
      var rows, n := AddedAll(OwnerOf(agent), specs, parent, ids), Size(last);
      assert rows[..n] == Added(OwnerOf(agent), last, Some(parent), ids[SizeAll(front)..]);
      assert rows[n..] == AddedAll(OwnerOf(agent), front, parent, ids);
      assert LastTree(rows, n, agent, specs, parent, ids);
    }
  }

  /** The ids are used in order. */
  lemma {:induction false} AddedIds(owner: string, spec: Spec, parent: Option<string>, ids: seq<string>)
    requires |ids| >= Size(spec)
    ensures forall k :: 0 <= k < Size(spec) ==> Added(owner, spec, parent, ids)[k].id == ids[Size(spec) - 1 - k]
    decreases spec
  {
    AddedAllIds(owner, spec.children, ids[0], ids[1..]);
  }

  lemma {:induction false} AddedAllIds(owner: string, specs: seq<Spec>, parent: string, ids: seq<string>)
    requires |ids| >= SizeAll(specs)
    ensures forall k :: 0 <= k < SizeAll(specs) ==>
        AddedAll(owner, specs, parent, ids)[k].id == ids[SizeAll(specs) - 1 - k]
    decreases specs
  {
    if specs != [] {
      var front, last := specs[..|specs| - 1], specs[|specs| - 1];
      AddedIds(owner, last, Some(parent), ids[SizeAll(front)..]);
      AddedAllIds(owner, front, parent, ids);
    }
  }

  /** No descendant brings relationships of its own, which would come before the ones that are added. */
  ghost predicate Free(spec: Spec)
    decreases spec, 0
  {
    forall i :: 0 <= i < |spec.children| ==> FreeChild(spec.children[i])
  }

  ghost predicate FreeChild(spec: Spec)
    decreases spec, 1
  {
    Find(spec.members, "relationships") == |spec.members| && Free(spec)
  }

  /** Every row but the last names a later one as its parent. */
  ghost predicate Rooted(rows: seq<Row>) {
    forall k :: 0 <= k < |rows| - 1 ==> NamesLater(rows, k)
  }

  ghost predicate NamesLater(rows: seq<Row>, k: nat)
    requires k < |rows|
  {
    exists j :: k < j < |rows| && Parent(rows[k].components) == Some(rows[j].id)
  }

  lemma FilledParent(ms: seq<Member>, p: string)
    requires Find(ms, "relationships") == |ms|
    ensures Parent(Filled(ms, Some(p))) == Some(p)
  {
    hide *;
    FilledAt(ms, p);
    ParentIs(Filled(ms, Some(p)), |ms|, p);
  }

  lemma FilledAt(ms: seq<Member>, p: string)
    ensures var all := Filled(ms, Some(p));
      |all| > |ms| && all[..|ms|] == ms && all[|ms|] == Relationships(p)
  {
    hide FindFolded, Identity;
  }

  lemma ParentIs(ms: seq<Member>, k: nat, p: string)
    requires k < |ms| && ms[k] == Relationships(p)
    requires Find(ms[..k], "relationships") == k
    ensures Parent(ms) == Some(p)
  {
    FindAt(ms, k, "relationships");
    hide Find;
  }

  lemma FindAt(ms: seq<Member>, k: nat, name: string)
    requires k < |ms| && ms[k].name == name && Find(ms[..k], name) == k
    ensures Find(ms, name) == k
  {
    assert forall i :: 0 <= i < k ==> ms[..k][i] == ms[i];
  }

  lemma {:induction false} AddedRooted(owner: string, spec: Spec, parent: Option<string>, ids: seq<string>)
    requires |ids| >= Size(spec) && Free(spec)
    ensures Rooted(Added(owner, spec, parent, ids))
    decreases spec
  {
    AddedAllRooted(owner, spec.children, ids[0], ids[1..], Row(ids[0], owner, Filled(spec.members, parent)));
  }

  lemma RootAlone(root: Row)
    ensures Rooted([root])
  {
  }

  lemma AddedRoot(owner: string, spec: Spec, parent: Option<string>, ids: seq<string>)
    requires |ids| >= Size(spec)
    ensures Size(spec) > 0 && Added(owner, spec, parent, ids)[Size(spec) - 1].components == Filled(spec.members, parent)
  {
    hide Filled;
  }

  lemma {:induction false} AddedAllRooted(owner: string, specs: seq<Spec>, parent: string, ids: seq<string>, root: Row)
    requires |ids| >= SizeAll(specs) && root.id == parent && forall i :: 0 <= i < |specs| ==> FreeChild(specs[i])
    ensures Rooted(AddedAll(owner, specs, parent, ids) + [root])
    decreases specs
  {
    hide Rooted, Added, Find, Filled, Parent;
    if specs != [] {
      var front, last := specs[..|specs| - 1], specs[|specs| - 1];
      assert FreeChild(last);
      var some := ids[SizeAll(front)..];
      AddedRooted(owner, last, Some(parent), some);
      AddedAllRooted(owner, front, parent, ids, root);
      FilledParent(last.members, parent);
      AddedRoot(owner, last, Some(parent), some);
      RootedBoth(Added(owner, last, Some(parent), some), AddedAll(owner, front, parent, ids) + [root]);
      assert AddedAll(owner, specs, parent, ids) + [root]
          == Added(owner, last, Some(parent), some) + (AddedAll(owner, front, parent, ids) + [root]);
    } else {
      RootAlone(root);
      assert AddedAll(owner, specs, parent, ids) + [root] == [root];
    }
  }

  lemma RootedBoth(a: seq<Row>, b: seq<Row>)
    requires Rooted(a) && Rooted(b) && a != [] && b != []
    requires Parent(a[|a| - 1].components) == Some(b[|b| - 1].id)
    ensures Rooted(a + b)
  {
    hide Parent;
    forall k | 0 <= k < |a + b| - 1 ensures NamesLater(a + b, k) {
      if k < |a| - 1 {
        assert NamesLater(a, k);
        var j :| k < j < |a| && Parent(a[k].components) == Some(a[j].id);
        assert (a + b)[j] == a[j];
      } else if k == |a| - 1 {
        assert (a + b)[|a + b| - 1] == b[|b| - 1];
      } else {
        assert NamesLater(b, k - |a|);
        var j :| k - |a| < j < |b| && Parent(b[k - |a|].components) == Some(b[j].id);
        assert (a + b)[|a| + j] == b[j];
      }
    }
  }

  // ----- The list of entities -----

  class Entity {
    const id: string
    const owner: string
    var components: seq<Member>

    constructor (id: string, owner: string, components: seq<Member>)
      ensures this.id == id && this.owner == owner && this.components == components
    {
      this.id, this.owner, this.components := id, owner, components;
    }
  }

  ghost predicate Unique(es: seq<Entity>) {
    forall i, j :: 0 <= i < j < |es| ==> es[i].id != es[j].id
  }

  ghost function Links(es: seq<Entity>): (g: Graph)
    requires Unique(es)
    reads es
  {
    map e | e in es :: e.id := Parent(e.components)
  }

  /** The entities that are left without some of the ids, in order. */
  ghost function Without(es: seq<Entity>, gone: set<string>): (left: seq<Entity>)
    ensures |left| <= |es|
    ensures forall i :: 0 <= i < |left| ==> left[i] in es && left[i].id !in gone
  {
    if es == [] then []
    else Without(es[..|es| - 1], gone) + if es[|es| - 1].id in gone then [] else [es[|es| - 1]]
  }

  lemma {:induction false} WithoutHas(es: seq<Entity>, gone: set<string>)
    ensures forall e :: e in Without(es, gone) <==> e in es && e.id !in gone
  {
    if es != [] {
      WithoutHas(es[..|es| - 1], gone);
      assert es == es[..|es| - 1] + [es[|es| - 1]];
    }
  }

  lemma WithoutLast(es: seq<Entity>, last: Entity, gone: set<string>)
    ensures Without(es + [last], gone) == if last.id in gone then Without(es, gone) else Without(es, gone) + [last]
  {
    assert (es + [last])[..|es|] == es;
  }

  lemma {:induction false} WithoutBoth(es: seq<Entity>, a: set<string>, b: set<string>)
    ensures Without(Without(es, a), b) == Without(es, a + b)
  {
    if es != [] {
      var front, last := es[..|es| - 1], es[|es| - 1];
      assert es == front + [last];
      WithoutBoth(front, a, b);
      WithoutLast(front, last, a);
      WithoutLast(front, last, a + b);
      WithoutLast(Without(front, a), last, b);
    }
  }

  lemma {:induction false} WithoutUnique(es: seq<Entity>, gone: set<string>)
    requires Unique(es)
    ensures Unique(Without(es, gone))
  {
    if es != [] {
      var front := es[..|es| - 1];
      assert es == front + [es[|es| - 1]];
      WithoutLast(front, es[|es| - 1], gone);
      WithoutUnique(front, gone);
      NewLast(front, es[|es| - 1], gone);
    }
  }

  lemma NewLast(front: seq<Entity>, last: Entity, gone: set<string>)
    requires Unique(front + [last]) && Unique(Without(front, gone))
    ensures Unique(Without(front, gone) + [last])
  {
    var left := Without(front, gone);
    forall i | 0 <= i < |left| ensures left[i].id != last.id {
      var j :| 0 <= j < |front| && front[j] == left[i];
      assert (front + [last])[j] == front[j] && (front + [last])[|front|] == last;
    }
  }

  lemma {:induction false} WithoutNone(es: seq<Entity>, gone: set<string>)
    requires forall e :: e in es ==> e.id !in gone
    ensures Without(es, gone) == es
  {
    if es != [] {
      assert es[|es| - 1] in es;
      WithoutNone(es[..|es| - 1], gone);
    }
  }

  lemma {:induction false} WithoutAll(es: seq<Entity>, gone: set<string>)
    requires forall e :: e in es ==> e.id in gone
    ensures Without(es, gone) == []
  {
    if es != [] {
      assert es[|es| - 1] in es;
      WithoutAll(es[..|es| - 1], gone);
    }
  }

  lemma {:induction false} WithoutAppend(a: seq<Entity>, b: seq<Entity>, gone: set<string>)
    ensures Without(a + b, gone) == Without(a, gone) + Without(b, gone)
  {
    if b == [] {
      assert a + b == a;
    } else {
      assert (a + b)[..|a + b| - 1] == a + b[..|b| - 1];
      WithoutAppend(a, b[..|b| - 1], gone);
    }
  }

  lemma OnlyOne(es: seq<Entity>, i: nat)
    requires Unique(es) && i < |es|
    ensures (forall e :: e in es[..i] ==> e.id != es[i].id) && (forall e :: e in es[i + 1..] ==> e.id != es[i].id)
  {
  }

  /** Unlinking one element. */
  lemma Unlinked(es: seq<Entity>, i: nat)
    requires Unique(es) && i < |es|
    ensures es[..i] + es[i + 1..] == Without(es, {es[i].id})
  {
    hide *;
    var gone, before, at, after := {es[i].id}, es[..i], es[i..i + 1], es[i + 1..];
    OnlyOne(es, i);
    assert es == before + at + after;
    WithoutAppend(before + at, after, gone);
    WithoutAppend(before, at, gone);
    WithoutNone(before, gone);
    WithoutNone(after, gone);
    WithoutAll(at, gone);
  }

  lemma LinkOf(es: seq<Entity>, e: Entity)
    requires Unique(es) && e in es
    ensures e.id in Links(es) && Links(es)[e.id] == Parent(e.components)
  {
    hide Parent;
  }

  lemma LinkFrom(es: seq<Entity>, x: string) returns (e: Entity)
    requires Unique(es) && x in Links(es)
    ensures e in es && e.id == x && Links(es)[x] == Parent(e.components)
  {
    hide Parent;
    e :| e in es && e.id == x;
    LinkOf(es, e);
  }

  lemma LinksWithout(es: seq<Entity>, gone: set<string>)
    requires Unique(es)
    ensures Unique(Without(es, gone)) && Links(Without(es, gone)) == Links(es) - gone
  {
    hide *;
    WithoutUnique(es, gone);
    WithoutHas(es, gone);
    var left := Without(es, gone);
    forall x | x in Links(left) ensures x in Links(es) - gone && Links(left)[x] == Links(es)[x] {
      var e := LinkFrom(left, x);
      LinkOf(es, e);
    }
    forall x | x in Links(es) - gone ensures x in Links(left) {
      var e := LinkFrom(es, x);
      LinkOf(left, e);
    }
  }

  datatype Mode = Cascade | Reparent

  ghost function IdsOf(es: seq<Entity>): (ids: seq<string>)
    ensures |ids| == |es| && forall i :: 0 <= i < |es| ==> ids[i] == es[i].id
  {
    seq(|es|, i requires 0 <= i < |es| => es[i].id)
  }

  class State {
    var entities: seq<Entity>

    /** state_get_entity() */
    method GetEntity(eid: string) returns (e: Entity?)
      ensures e == null <==> eid == "" || forall x :: x in entities ==> x.id != eid
      ensures e != null ==> e in entities && e.id == eid
    {
      if |eid| == 0 { return null; }
      for i := 0 to |entities|
        invariant forall j :: 0 <= j < i ==> entities[j].id != eid
      {
        if entities[i].id == eid { return entities[i]; }
      }
      return null;
    }

    /** The entities that name this one as their parent, in order. */
    method Children(id: string) returns (children: seq<Entity>)
      requires Unique(entities) && forall e :: e in entities ==> e.id != id
      ensures forall e :: e in children <==> e in entities && Parent(e.components) == Some(id)
      ensures Unique(children) && forall i :: 0 <= i < |children| ==> children[i] in entities
    {
      hide Parent;
      children := [];
      for i := 0 to |entities|
        invariant forall e :: e in children <==> e in entities[..i] && Parent(e.components) == Some(id)
        invariant Unique(children) && forall j :: 0 <= j < |children| ==> children[j] in entities
      {
        assert entities[..i + 1] == entities[..i] + [entities[i]];
        if Parent(entities[i].components) == Some(id) {
          OnlyOne(entities, i);
          children := children + [entities[i]];
        }
      }
      assert entities[..|entities|] == entities;
    }

    /** allo_state_remove_entity() */
    method RemoveEntity(removed: Entity, mode: Mode)
      requires Unique(entities) && removed in entities
      modifies this, if mode == Reparent then set e | e in entities else {}
      ensures Unique(entities)
      ensures mode == Cascade ==> entities == Without(old(entities), old(Down(Links(entities), removed.id)))
      ensures mode == Reparent ==> entities == Without(old(entities), {removed.id})
      ensures mode == Reparent ==> forall e :: e in entities ==>
        e.components == old(if Parent(e.components) == Some(removed.id) then Released(e.components) else e.components)
      decreases |entities|
    {
      hide *;
      ghost var was, r := entities, removed.id;
      var at :| 0 <= at < |entities| && entities[at] == removed;
      Unlinked(entities, at);
      WithoutUnique(entities, {r});
      WithoutHas(entities, {r});
      entities := entities[..at] + entities[at + 1..];
      var children := Children(removed.id);
      if mode == Cascade {
        ghost var g, cs, gone := Links(was), IdsOf(children), {r};
        ChildIds(was, removed, children);
        CascadeStart(g, r, cs);
        for i := 0 to |children|
          invariant Cascading(g, r, cs, i, gone) && entities == Without(was, gone) && |entities| < |was|
        {
          CascadeNext(g, r, cs, i, gone);
          LinksWithout(was, gone);
          WithoutBoth(was, gone, Down(g - gone, cs[i]));
          StillThere(was, gone, children, i);
          RemoveEntity(children[i], mode);
          gone := gone + Down(g - gone, cs[i]);
        }
        CascadeEnd(g, r, cs, gone);
        WithoutUnique(was, gone);
      } else {
        for i := 0 to |children|
          invariant entities == Without(was, {r})
          invariant forall e :: e in entities ==>
            e.components == if e in children[..i] then old(Released(e.components)) else old(e.components)
        {
          FirstTime(children, i);
          children[i].components := Released(children[i].components);
          assert children[..i + 1] == children[..i] + [children[i]];
        }
        assert children[..|children|] == children;
      }
    }

    /** allo_state_remove_entity_id() */
    method RemoveEntityId(eid: string, mode: Mode) returns (found: bool)
      requires Unique(entities)
      modifies this, if mode == Reparent then set e | e in entities else {}
      ensures Unique(entities)
      ensures found <==> eid != "" && old(exists e :: e in entities && e.id == eid)
      ensures !found ==> entities == old(entities) && forall e :: e in entities ==> e.components == old(e.components)
      ensures found && mode == Cascade ==> entities == Without(old(entities), old(Down(Links(entities), eid)))
      ensures found && mode == Reparent ==> entities == Without(old(entities), {eid})
      ensures old(Resolves(Links(entities))) && mode == Cascade ==> Resolves(Links(entities))
      ensures old(Resolves(Links(entities))) && found && mode == Reparent ==>
        (Resolves(Links(entities)) <==>
         forall e :: e in entities && old(Parent(e.components)) == Some(eid) ==>
           old(Plain(e.components)) && Finds(old(entities), eid, old(Parent(Behind(e.components)))))
    {
      hide *;
      ghost var was, g, resolved := entities, Links(entities), Resolves(Links(entities));
      var removed := GetEntity(eid);
      if removed == null { return false; }
      ResolvesMeans(entities);
      RemoveEntity(removed, mode);
      found := true;
      WithoutHas(was, {eid});
      ResolvesMeans(entities);
      if resolved {
        if mode == Cascade {
          LinksWithout(was, Down(g, eid));
          CascadeResolves(g, eid);
        } else {
          forall e | e in was && e in entities
            ensures Names(entities, Parent(e.components)) <==> (old(Parent(e.components)) == Some(eid) ==>
              old(Plain(e.components)) && Finds(was, eid, old(Parent(Behind(e.components)))))
          {
            NamesLeft(was, entities, eid, Parent(e.components));
            if old(Parent(e.components)) == Some(eid) {
              ReleasedParent(old(e.components));
              FindsMeans(was, eid, Some(eid));
            } else {
              FindsMeans(was, eid, Parent(e.components));
            }
          }
        }
      }
    }

    /** allo_state_add_entity_from_spec(), with loose components; the ids are what allo_generate_id() gives one by
      * one. */
    method AddFromSpec(agent: Option<string>, spec: Spec, parent: Option<string>, ids: seq<string>)
      returns (e: Entity, rest: seq<string>)
      requires |ids| >= Size(spec)
      modifies this
      ensures rest == ids[Size(spec)..] && Grown(old(entities), entities, Added(OwnerOf(agent), spec, parent, ids))
      ensures Size(spec) <= |entities| && e == entities[Size(spec) - 1]
      ensures Grew(old(entities), entities) && TreeOf(NewRows(old(entities), entities), agent, spec, parent, ids)
      decreases spec
    {
      hide *;
      ghost var was, owner := entities, OwnerOf(agent);
      var children := spec.children;
      SizeIs(spec);
      e := new Entity(ids[0], OwnerOf(agent), Filled(spec.members, parent));
      entities := [e] + entities;
      rest := ids[1..];
      NoneAdded(owner, children, ids, entities);
      for i := 0 to |children|
        invariant Adding(owner, children, ids, i, [e] + was, entities, rest)
        invariant e.id == ids[0] && e.owner == owner && e.components == Filled(spec.members, parent)
      {
        ghost var mid, some := entities, rest;
        NextFits(owner, children, ids, i, [e] + was, entities, rest);
        var _, left := AddFromSpec(agent, children[i], Some(e.id), rest);
        rest := left;
        OneMoreAdded(owner, children, ids, i, [e] + was, mid, entities, some, rest);
      }
      AllAdded(owner, spec, parent, ids, was, e, entities, rest);
      GrownRows(was, entities, Added(owner, spec, parent, ids));
      AddedTree(agent, spec, parent, ids);
    }

    /** Removing the root of what was just added, with its descendants, restores the list exactly if all that was added
      * descends from it. */
    method AddThenRemove(agent: Option<string>, spec: Spec, parent: Option<string>, ids: seq<string>)
      requires |ids| >= Size(spec) && Unique(entities)
      requires forall i, j :: 0 <= i < j < |ids| ==> ids[i] != ids[j]
      requires forall e :: e in entities ==>
          e.id !in ids && (Parent(e.components).Some? ==> Parent(e.components).value !in ids)
      modifies this
      ensures entities == old(entities) <==> AllDescend(Added(OwnerOf(agent), spec, parent, ids))
      ensures Free(spec) ==> entities == old(entities)
    {
      hide *;
      ghost var was, rows := entities, Added(OwnerOf(agent), spec, parent, ids);
      var e, _ := AddFromSpec(agent, spec, parent, ids);
      AddedIds(OwnerOf(agent), spec, parent, ids);
      SizeIs(spec);
      Newcomers(was, rows, ids);
      GrownUnique(was, entities, rows);
      GrownDown(was, entities, rows);
      GrownLeft(was, entities, rows);
      GrownAt(was, entities, rows, |rows| - 1);
      if Free(spec) {
        AddedRooted(OwnerOf(agent), spec, parent, ids);
        RootedDescend(was, rows);
      }
      RemoveEntity(e, Cascade);
    }
  }

  function OwnerOf(agent: Option<string>): string {
    if agent.Some? then agent.value else "place"
  }

  /** These rows were put before the list. */
  ghost predicate Grown(was: seq<Entity>, now: seq<Entity>, rows: seq<Row>)
    reads now
  {
    && |now| == |rows| + |was| && now[|rows|..] == was
    && forall k :: 0 <= k < |rows| ==> rows[k] == Row(now[k].id, now[k].owner, now[k].components)
  }

  /** The list was put after others. */
  ghost predicate Grew(was: seq<Entity>, now: seq<Entity>) {
    |was| <= |now| && now[|now| - |was|..] == was
  }

  /** The entities before the ones that were there. */
  ghost function NewRows(was: seq<Entity>, now: seq<Entity>): (rows: seq<Row>)
    requires Grew(was, now)
    reads now
    ensures |rows| + |was| == |now|
    ensures forall k :: 0 <= k < |rows| ==> rows[k] == Row(now[k].id, now[k].owner, now[k].components)
  {
    seq(|now| - |was|, k requires 0 <= k < |now| - |was| reads now => Row(now[k].id, now[k].owner, now[k].components))
  }

  lemma GrownRows(was: seq<Entity>, now: seq<Entity>, rows: seq<Row>)
    requires Grown(was, now, rows)
    ensures Grew(was, now) && NewRows(was, now) == rows
  {
  }

  lemma GrownBoth(was: seq<Entity>, mid: seq<Entity>, now: seq<Entity>, a: seq<Row>, b: seq<Row>)
    requires Grown(was, mid, a) && Grown(mid, now, b)
    ensures Grown(was, now, b + a)
  {
    assert forall k :: 0 <= k < |mid| ==> now[|b| + k] == mid[k];
  }

  lemma GrownOne(was: seq<Entity>, e: Entity, now: seq<Entity>, row: seq<Row>)
    requires now == [e] + was && row == [Row(e.id, e.owner, e.components)]
    ensures Grown(was, now, row)
  {
    assert now[1..] == was;
  }

  lemma SizeIs(spec: Spec)
    ensures Size(spec) == 1 + SizeAll(spec.children)
  {
  }

  /** The first i children have been added. */
  ghost predicate Adding(owner: string, specs: seq<Spec>, ids: seq<string>, i: nat, was: seq<Entity>, now: seq<Entity>,
                         rest: seq<string>)
    reads now
  {
    && i <= |specs| && |ids| >= 1 + SizeAll(specs) && SizeAll(specs[..i]) <= SizeAll(specs)
    && rest == ids[1 + SizeAll(specs[..i])..] && Grown(was, now, AddedAll(owner, specs[..i], ids[0], ids[1..]))
  }

  lemma NoneAdded(owner: string, specs: seq<Spec>, ids: seq<string>, now: seq<Entity>)
    requires |ids| >= 1 + SizeAll(specs)
    ensures Adding(owner, specs, ids, 0, now, now, ids[1..])
  {
    assert specs[..0] == [];
  }

  lemma {:induction false} SizeSplit(specs: seq<Spec>, i: nat)
    requires i < |specs|
    ensures SizeAll(specs[..i + 1]) == SizeAll(specs[..i]) + Size(specs[i]) && SizeAll(specs[..i + 1]) <= SizeAll(specs)
    decreases |specs|
  {
    assert specs[..i + 1][..i] == specs[..i];
    if i + 1 < |specs| {
      var front := specs[..|specs| - 1];
      SizeSplit(front, i);
      assert front[..i + 1] == specs[..i + 1] && front[..i] == specs[..i];
    } else {
      assert specs[..i + 1] == specs;
    }
  }

  lemma NextFits(owner: string, specs: seq<Spec>, ids: seq<string>, i: nat, was: seq<Entity>, now: seq<Entity>,
                 rest: seq<string>)
    requires Adding(owner, specs, ids, i, was, now, rest) && i < |specs|
    ensures |rest| >= Size(specs[i])
  {
    SizeSplit(specs, i);
  }

  lemma AddedNext(owner: string, specs: seq<Spec>, parent: string, ids: seq<string>, i: nat)
    requires i < |specs| && |ids| >= SizeAll(specs)
    ensures SizeAll(specs[..i + 1]) <= |ids| && SizeAll(specs[..i]) + Size(specs[i]) <= |ids|
    ensures AddedAll(owner, specs[..i + 1], parent, ids)
         == Added(owner, specs[i], Some(parent), ids[SizeAll(specs[..i])..]) + AddedAll(owner, specs[..i], parent, ids)
  {
    SizeSplit(specs, i);
    assert specs[..i + 1][..i] == specs[..i];
  }

  lemma OneMoreAdded(owner: string, specs: seq<Spec>, ids: seq<string>, i: nat, was: seq<Entity>, mid: seq<Entity>,
                     now: seq<Entity>, some: seq<string>, rest: seq<string>)
    requires Adding(owner, specs, ids, i, was, mid, some) && i < |specs|
    requires |some| >= Size(specs[i]) && rest == some[Size(specs[i])..]
    requires Grown(mid, now, Added(owner, specs[i], Some(ids[0]), some))
    ensures Adding(owner, specs, ids, i + 1, was, now, rest)
  {
    hide Grown, Added, AddedAll;
    SizeSplit(specs, i);
    AddedNext(owner, specs, ids[0], ids[1..], i);
    assert ids[1..][SizeAll(specs[..i])..] == some;
    GrownBoth(was, mid, now, AddedAll(owner, specs[..i], ids[0], ids[1..]), Added(owner, specs[i], Some(ids[0]), some));
  }

  lemma AllAdded(owner: string, spec: Spec, parent: Option<string>, ids: seq<string>, was: seq<Entity>, e: Entity,
                 now: seq<Entity>, rest: seq<string>)
    requires Adding(owner, spec.children, ids, |spec.children|, [e] + was, now, rest) && |ids| >= Size(spec)
    requires e.id == ids[0] && e.owner == owner && e.components == Filled(spec.members, parent)
    ensures Grown(was, now, Added(owner, spec, parent, ids)) && rest == ids[Size(spec)..]
    ensures Size(spec) <= |now| && now[Size(spec) - 1] == e
  {
    hide *;
    var mid, row := [e] + was, [Row(e.id, e.owner, e.components)];
    AddingEnd(owner, spec.children, ids, mid, now, rest);
    SizeIs(spec);
    var rows := AddedAll(owner, spec.children, ids[0], ids[1..]);
    GrownOne(was, e, mid, row);
    GrownBoth(was, mid, now, row, rows);
    AddedIs(owner, spec, parent, ids);
    GrownOld([e] + was, now, rows, |rows|);
  }

  lemma AddingEnd(owner: string, specs: seq<Spec>, ids: seq<string>, was: seq<Entity>, now: seq<Entity>,
                  rest: seq<string>)
    requires Adding(owner, specs, ids, |specs|, was, now, rest)
    ensures |ids| >= 1 + SizeAll(specs) && Grown(was, now, AddedAll(owner, specs, ids[0], ids[1..]))
    ensures rest == ids[1 + SizeAll(specs)..] && |now| == SizeAll(specs) + |was|
  {
    assert specs[..|specs|] == specs;
  }

  lemma AddedIs(owner: string, spec: Spec, parent: Option<string>, ids: seq<string>)
    requires |ids| >= Size(spec)
    ensures SizeAll(spec.children) == Size(spec) - 1
    ensures Added(owner, spec, parent, ids)
         == AddedAll(owner, spec.children, ids[0], ids[1..]) + [Row(ids[0], owner, Filled(spec.members, parent))]
  {
    hide Filled;
  }

  ghost function NewIds(rows: seq<Row>): set<string> {
    set k | 0 <= k < |rows| :: rows[k].id
  }

  /** The rows have ids of their own, and no entity of the list has one of these or names one as its parent. */
  ghost predicate AllNew(was: seq<Entity>, rows: seq<Row>)
    reads was
  {
    && (forall i, j :: 0 <= i < j < |rows| ==> rows[i].id != rows[j].id)
    && (forall i :: 0 <= i < |was| ==> was[i].id !in NewIds(rows))
    && (forall i :: 0 <= i < |was| ==> Parent(was[i].components).Some? ==>
        Parent(was[i].components).value !in NewIds(rows))
  }

  lemma Newcomers(was: seq<Entity>, rows: seq<Row>, ids: seq<string>)
    requires |rows| <= |ids| && forall k :: 0 <= k < |rows| ==> rows[k].id == ids[|rows| - 1 - k]
    requires forall i, j :: 0 <= i < j < |ids| ==> ids[i] != ids[j]
    requires forall e :: e in was ==>
        e.id !in ids && (Parent(e.components).Some? ==> Parent(e.components).value !in ids)
    ensures AllNew(was, rows)
  {
    hide Parent;
    assert forall x :: x in NewIds(rows) ==> x in ids;
    assert forall i :: 0 <= i < |was| ==> was[i] in was;
  }

  lemma GrownAt(was: seq<Entity>, now: seq<Entity>, rows: seq<Row>, k: nat)
    requires Grown(was, now, rows) && k < |rows|
    ensures |now| == |rows| + |was| && rows[k] == Row(now[k].id, now[k].owner, now[k].components)
        && rows[k].id in NewIds(rows)
  {
  }

  lemma GrownOld(was: seq<Entity>, now: seq<Entity>, rows: seq<Row>, k: nat)
    requires Grown(was, now, rows) && |rows| <= k < |now|
    ensures |now| == |rows| + |was| && now[k] == was[k - |rows|]
  {
    assert now[|rows|..][k - |rows|] == now[k];
  }

  lemma GrownUnique(was: seq<Entity>, now: seq<Entity>, rows: seq<Row>)
    requires Grown(was, now, rows) && AllNew(was, rows) && Unique(was)
    ensures Unique(now)
  {
    hide Grown, Parent, NewIds;
    forall i, j | 0 <= i < j < |now| ensures now[i].id != now[j].id {
      if i < |rows| { GrownAt(was, now, rows, i); } else { GrownOld(was, now, rows, i); }
      if j < |rows| { GrownAt(was, now, rows, j); } else { GrownOld(was, now, rows, j); }
    }
  }

  /** Taking some of the new ids away restores the list exactly if these are all of them. */
  lemma GrownLeft(was: seq<Entity>, now: seq<Entity>, rows: seq<Row>)
    requires Grown(was, now, rows) && AllNew(was, rows)
    ensures forall gone :: gone <= NewIds(rows) ==> (Without(now, gone) == was <==> gone == NewIds(rows))
  {
    hide Without, Parent, AllNew, NewIds, Grown;
    forall gone | gone <= NewIds(rows) ensures Without(now, gone) == was <==> gone == NewIds(rows) {
      if gone == NewIds(rows) { AllTaken(was, now, rows); } else { NotAllTaken(was, now, rows, gone); }
    }
  }

  lemma AllTaken(was: seq<Entity>, now: seq<Entity>, rows: seq<Row>)
    requires Grown(was, now, rows) && AllNew(was, rows)
    ensures Without(now, NewIds(rows)) == was
  {
    hide Without, Parent;
    assert now == now[..|rows|] + now[|rows|..];
    WithoutAppend(now[..|rows|], was, NewIds(rows));
    WithoutAll(now[..|rows|], NewIds(rows));
    WithoutNone(was, NewIds(rows));
  }

  lemma NotAllTaken(was: seq<Entity>, now: seq<Entity>, rows: seq<Row>, gone: set<string>)
    requires Grown(was, now, rows) && AllNew(was, rows) && gone <= NewIds(rows) && gone != NewIds(rows)
    ensures Without(now, gone) != was
  {
    hide Without, Parent, Grown;
    var x :| x in NewIds(rows) && x !in gone;
    var k :| 0 <= k < |rows| && rows[k].id == x;
    GrownAt(was, now, rows, k);
    WithoutHas(now, gone);
    assert now[k] in Without(now, gone);
  }

  /** What the rows name as parents. */
  ghost function RowLinks(rows: seq<Row>): Graph {
    map x | x in NewIds(rows) :: ParentAmong(rows, x)
  }

  ghost function ParentAmong(rows: seq<Row>, x: string): Option<string>
    requires x in NewIds(rows)
  {
    var k :| 0 <= k < |rows| && rows[k].id == x;
    Parent(rows[k].components)
  }

  /** Every row's parents lead to the last row. */
  ghost predicate AllDescend(rows: seq<Row>) {
    rows != [] && Down(RowLinks(rows), rows[|rows| - 1].id) == NewIds(rows)
  }

  /** What descends from the last row descends from it among the rows. */
  lemma GrownDown(was: seq<Entity>, now: seq<Entity>, rows: seq<Row>)
    requires Grown(was, now, rows) && AllNew(was, rows) && Unique(now) && rows != []
    ensures Down(Links(now), rows[|rows| - 1].id) <= NewIds(rows)
    ensures AllDescend(rows) <==> Down(Links(now), rows[|rows| - 1].id) == NewIds(rows)
  {
    hide *;
    var g, r := Links(now), rows[|rows| - 1].id;
    NewClosed(was, now, rows);
    GrownAt(was, now, rows, |rows| - 1);
    InClosed(g, NewIds(rows), r);
    PartOf(was, now, rows);
    DownInPart(g, g.Keys - NewIds(rows), r);
    DescendMeans(rows);
  }

  lemma DescendMeans(rows: seq<Row>)
    ensures AllDescend(rows) <==> rows != [] && Down(RowLinks(rows), rows[|rows| - 1].id) == NewIds(rows)
  {
  }

  /** The links of the rows are those of the list among the new ids. */
  lemma PartOf(was: seq<Entity>, now: seq<Entity>, rows: seq<Row>)
    requires Grown(was, now, rows) && AllNew(was, rows) && Unique(now)
    ensures RowLinks(rows) == Links(now) - (Links(now).Keys - NewIds(rows))
  {
    hide Parent, Grown, Links;
    var g := Links(now);
    forall x | x in NewIds(rows) ensures x in g && g[x] == RowLinks(rows)[x] {
      var k :| 0 <= k < |rows| && rows[k].id == x && ParentAmong(rows, x) == Parent(rows[k].components);
      GrownAt(was, now, rows, k);
      LinkOf(now, now[k]);
    }
  }

  /** If nothing that goes descends from r, the same ids descend from it without what goes. */
  lemma DownInPart(g: Graph, gone: set<string>, r: string)
    requires Down(g, r) !! gone
    ensures Down(g - gone, r) == Down(g, r)
  {
    forall x | x in Down(g, r) ensures x in Down(g - gone, r) {
      var n: nat :| Chain(g, x, r, n);
      ChainInPart(g, gone, x, r, n);
    }
    forall x | x in Down(g - gone, r) ensures x in Down(g, r) {
      var n: nat :| Chain(g - gone, x, r, n);
      ChainInWhole(g, gone, x, r, n);
    }
  }

  lemma {:induction false} ChainInPart(g: Graph, gone: set<string>, x: string, r: string, n: nat)
    requires Chain(g, x, r, n) && Down(g, r) !! gone
    ensures Chain(g - gone, x, r, n)
    decreases n
  {
    assert x in Down(g, r);
    if n > 0 { ChainInPart(g, gone, g[x].value, r, n - 1); }
  }

  /** If every row but the last names a later one, all descend from the last. */
  lemma RootedDescend(was: seq<Entity>, rows: seq<Row>)
    requires Rooted(rows) && rows != [] && AllNew(was, rows)
    ensures AllDescend(rows)
  {
    hide Rooted, Parent;
    var r := rows[|rows| - 1].id;
    forall x | x in NewIds(rows) ensures x in Down(RowLinks(rows), r) {
      var k :| 0 <= k < |rows| && rows[k].id == x;
      RowReaches(was, rows, k);
    }
  }

  lemma {:induction false} RowReaches(was: seq<Entity>, rows: seq<Row>, k: nat)
    requires Rooted(rows) && AllNew(was, rows) && k < |rows|
    ensures rows[k].id in Down(RowLinks(rows), rows[|rows| - 1].id)
    decreases |rows| - k
  {
    hide *;
    var g, r := RowLinks(rows), rows[|rows| - 1].id;
    RowLink(was, rows, k);
    DownClosed(g, r);
    if k < |rows| - 1 {
      var j := Later(rows, k);
      RowReaches(was, rows, j);
      ClosedStep(g, Down(g, r), rows[k].id);
    }
  }

  lemma RowLink(was: seq<Entity>, rows: seq<Row>, k: nat)
    requires AllNew(was, rows) && k < |rows|
    ensures rows[k].id in RowLinks(rows) && RowLinks(rows)[rows[k].id] == Parent(rows[k].components)
  {
    hide Parent;
    var x := rows[k].id;
    var j :| 0 <= j < |rows| && rows[j].id == x && ParentAmong(rows, x) == Parent(rows[j].components);
    assert j == k;
  }

  lemma Later(rows: seq<Row>, k: nat) returns (j: nat)
    requires Rooted(rows) && k < |rows| - 1
    ensures k < j < |rows| && Parent(rows[k].components) == Some(rows[j].id)
  {
    hide Parent;
    assert NamesLater(rows, k);
    j :| k < j < |rows| && Parent(rows[k].components) == Some(rows[j].id);
  }

  lemma ClosedStep(g: Graph, ids: set<string>, x: string)
    requires Closed(g, ids) && x in g && g[x].Some? && g[x].value in ids
    ensures x in ids
  {
  }

  lemma NewClosed(was: seq<Entity>, now: seq<Entity>, rows: seq<Row>)
    requires Grown(was, now, rows) && AllNew(was, rows) && Unique(now)
    ensures Closed(Links(now), NewIds(rows))
  {
    hide Parent, NewIds, Links, Grown;
    forall x | x in Links(now) && Links(now)[x].Some? && Links(now)[x].value in NewIds(rows) ensures x in NewIds(rows) {
      var e := LinkFrom(now, x);
      var k :| 0 <= k < |now| && now[k] == e;
      if k < |rows| { GrownAt(was, now, rows, k); } else { GrownOld(was, now, rows, k); }
    }
  }

  /** The parent, if there is one, is in the list. */
  ghost predicate Names(es: seq<Entity>, p: Option<string>) {
    p.Some? ==> exists i :: 0 <= i < |es| && es[i].id == p.value
  }

  /** The parent, if there is one, is in the list and another than the one that goes. */
  ghost predicate Finds(es: seq<Entity>, gone: string, p: Option<string>) {
    p != Some(gone) && Names(es, p)
  }

  lemma FindsMeans(es: seq<Entity>, gone: string, p: Option<string>)
    ensures Finds(es, gone, p) <==> p != Some(gone) && Names(es, p)
  {
  }

  lemma NamesLeft(es: seq<Entity>, left: seq<Entity>, gone: string, p: Option<string>)
    requires left == Without(es, {gone})
    ensures Names(left, p) <==> Finds(es, gone, p)
  {
    hide Without;
    WithoutHas(es, {gone});
    if Finds(es, gone, p) && p.Some? {
      var i :| 0 <= i < |es| && es[i].id == p.value;
      assert es[i] in left;
    }
    if Names(left, p) && p.Some? {
      var i :| 0 <= i < |left| && left[i].id == p.value;
      assert left[i] in left;
    }
  }

  lemma ResolvesMeans(es: seq<Entity>)
    requires Unique(es)
    ensures Resolves(Links(es)) <==> forall e :: e in es ==> Names(es, Parent(e.components))
  {
    hide Parent, Links;
    if Resolves(Links(es)) {
      forall e | e in es ensures Names(es, Parent(e.components)) {
        LinkOf(es, e);
        if Parent(e.components).Some? { var f := LinkFrom(es, Parent(e.components).value); }
      }
    }
    if forall e :: e in es ==> Names(es, Parent(e.components)) {
      forall x | x in Links(es) && Links(es)[x].Some? ensures Links(es)[x].value in Links(es) {
        var e := LinkFrom(es, x);
        var i :| 0 <= i < |es| && es[i].id == Parent(e.components).value;
        LinkOf(es, es[i]);
      }
    }
  }

  lemma CascadeResolves(g: Graph, r: string)
    requires Resolves(g)
    ensures Resolves(g - Down(g, r))
  {
    DownClosed(g, r);
  }

  /** A child that is not gone. */
  lemma StillThere(es: seq<Entity>, gone: set<string>, children: seq<Entity>, i: nat)
    requires i < |children| && children[i] in es && children[i].id !in gone
    ensures children[i] in Without(es, gone) && IdsOf(children)[i] == children[i].id && |IdsOf(children)| == |children|
  {
    WithoutHas(es, gone);
  }

  lemma FirstTime(es: seq<Entity>, i: nat)
    requires Unique(es) && i < |es|
    ensures es[i] !in es[..i]
  {
  }

  /** The entities found are the children in the graph. */
  lemma ChildIds(es: seq<Entity>, r: Entity, children: seq<Entity>)
    requires Unique(es) && r in es && Unique(children)
    requires forall e :: e in children <==> e in Without(es, {r.id}) && Parent(e.components) == Some(r.id)
    ensures ChildrenOf(Links(es), r.id, IdsOf(children)) && r.id in Links(es) && |IdsOf(children)| == |children|
  {
    hide Parent, Links, Without;
    var g, cs := Links(es), IdsOf(children);
    WithoutHas(es, {r.id});
    LinkOf(es, r);
    forall x ensures x in cs <==> x in g && x != r.id && g[x] == Some(r.id) {
      if x in cs {
        var i :| 0 <= i < |cs| && cs[i] == x;
        assert children[i] in children;
        LinkOf(es, children[i]);
      }
      if x in g && x != r.id && g[x] == Some(r.id) {
        var e := LinkFrom(es, x);
        var i :| 0 <= i < |children| && children[i] == e;
        assert cs[i] == x;
      }
    }
  }
}
