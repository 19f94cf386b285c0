/** The pure conversions of the web client: argue-react/src/game/Game.tsx turns the server's
    snapshot into the graph the canvas draws, with handles written as `"index,generation"`
    strings; argue-react/src/game/Canvas.tsx colours the edges and merges each new snapshot
    into the nodes on screen, keeping their pinned positions. */
module Client {
  import opened Strings
  import opened Decimal
  import ProofGraph

  /** `IndexDTO`: an arena handle as the server encodes it, `[index, generation]`. */
  type IndexDto = (int, int)

  /** `Index`: the client's string form of a handle. */
  type Index = string

  /** `StatementDTO` and the `GameState` payload as the client reads them. */
  datatype StatementView = StatementView(id: IndexDto, statement: string, state: ProofGraph.ProofState,
                                         parents: seq<IndexDto>, children: seq<IndexDto>)
  datatype ServerGameState = ServerGameState(statements: seq<StatementView>, root: IndexDto)

  /** An optional pinned coordinate `fx`, `fy` or `fz`. */
  datatype Coord = Unset | At(value: real)

  datatype Node = Node(id: Index, statement: string, state: ProofGraph.ProofState, fx: Coord, fy: Coord, fz: Coord)

  /** A drawn edge, from the premise (`source`) to the conclusion (`target`). */
  datatype Link = Link(source: Index, target: Index)

  datatype GraphData = GraphData(nodes: seq<Node>, links: seq<Link>, rootId: Index)

  // ---------------------------------------------------------------------------------------
  // Handles as strings

  /** `toIndex`: both numbers in decimal, separated by a comma. */
  function ToIndex(d: IndexDto): (r: Index)
    ensures Split(r, ',') == [IntToString(d.0), IntToString(d.1)]
  {
    var r := IntToString(d.0) + "," + IntToString(d.1);
    assert r == IntToString(d.0) + [','] + IntToString(d.1);
    SplitAt(IntToString(d.0), IntToString(d.1), ',');
    r
  }

  /** `toIndexDTO`: split at the commas and read the first two pieces with `parseInt`; a
      missing second piece is `undefined`, which `parseInt` reads as `NaN` (`None`). */
  function ToIndexDto(s: Index): (r: (Option, Option))
    ensures r.0 == JsParseInt(Split(s, ',')[0])
    ensures ',' !in s ==> r.1 == Option.None
  {
    var parts := Split(s, ',');
    (JsParseInt(parts[0]), if |parts| >= 2 then JsParseInt(parts[1]) else Option.None)
  }

  /** Reading a handle back from its string gives the handle, for every pair of integers. */
  lemma IndexRoundTrip(d: IndexDto)
    ensures ToIndexDto(ToIndex(d)) == (Option.Some(d.0), Option.Some(d.1))
  {
    ParseIntToString(d.0);
    ParseIntToString(d.1);
  }

  /** Two handles have the same string exactly when they are the same handle. */
  lemma ToIndexInjective(a: IndexDto, b: IndexDto)
    ensures ToIndex(a) == ToIndex(b) <==> a == b
  {
    if ToIndex(a) == ToIndex(b) {
      IndexRoundTrip(a);
      IndexRoundTrip(b);
    }
  }

  // ---------------------------------------------------------------------------------------
  // Snapshot to graph

  /** The drawn node of a statement: same text and state, nothing pinned. */
  function NodeOf(s: StatementView): Node {
    Node(ToIndex(s.id), s.statement, s.state, Unset, Unset, Unset)
  }

  /** The edges into one statement, one per child in child order. */
  function LinksOf(s: StatementView): (r: seq<Link>)
    ensures |r| == |s.children|
    ensures forall j :: 0 <= j < |r| ==> r[j] == Link(ToIndex(s.children[j]), ToIndex(s.id))
  {
    seq(|s.children|, j requires 0 <= j < |s.children| => Link(ToIndex(s.children[j]), ToIndex(s.id)))
  }

  /** The number of (statement, child) pairs. */
  function TotalChildren(ss: seq<StatementView>): nat {
    if ss == [] then 0 else TotalChildren(ss[..|ss| - 1]) + |ss[|ss| - 1].children|
  }

  /** Reference order of the edges: statement by statement, each statement's children in
      order. */
  function AllLinks(ss: seq<StatementView>): (r: seq<Link>)
    ensures |r| == TotalChildren(ss)
  {
    if ss == [] then [] else AllLinks(ss[..|ss| - 1]) + LinksOf(ss[|ss| - 1])
  }

  /** Every edge comes from some child pair, and every child pair gives an edge. */
  lemma {:induction false} AllLinksPairs(ss: seq<StatementView>, l: Link)
    ensures l in AllLinks(ss) <==>
      exists i, j :: 0 <= i < |ss| && 0 <= j < |ss[i].children| && l == Link(ToIndex(ss[i].children[j]), ToIndex(ss[i].id))
    decreases |ss|
  {
    if ss != [] {
      var n := |ss| - 1;
      var front := ss[..n];
      AllLinksPairs(front, l);
      assert forall i | 0 <= i < n :: front[i] == ss[i];
      if l in LinksOf(ss[n]) {
        var j :| 0 <= j < |LinksOf(ss[n])| && LinksOf(ss[n])[j] == l;
        assert l == Link(ToIndex(ss[n].children[j]), ToIndex(ss[n].id));
      }
      if exists i, j :: 0 <= i < |ss| && 0 <= j < |ss[i].children| && l == Link(ToIndex(ss[i].children[j]), ToIndex(ss[i].id)) {
        var i, j :| 0 <= i < |ss| && 0 <= j < |ss[i].children| && l == Link(ToIndex(ss[i].children[j]), ToIndex(ss[i].id));
        if i == n {
          assert LinksOf(ss[n])[j] == l;
        }
      }
    }
  }

  /** One more statement adds its edges at the end. */
  lemma AllLinksSnoc(ss: seq<StatementView>, i: nat)
    requires i < |ss|
    ensures AllLinks(ss[..i + 1]) == AllLinks(ss[..i]) + LinksOf(ss[i])
  {
    assert ss[..i + 1][..i] == ss[..i];
  }

  /** `toGraphData`: walks the statements in order, pushing one node per statement and one
      edge per child. */
  method ToGraphData(state: ServerGameState) returns (g: GraphData)
    ensures |g.nodes| == |state.statements|
    ensures forall i :: 0 <= i < |g.nodes| ==> g.nodes[i] == NodeOf(state.statements[i])
    ensures g.links == AllLinks(state.statements) && |g.links| == TotalChildren(state.statements)
    ensures g.rootId == ToIndex(state.root)
  {
    var ss := state.statements;
    var nodes: seq<Node> := [];
    var links: seq<Link> := [];
    var i := 0;
    while i < |ss|
      invariant 0 <= i <= |ss|
      invariant |nodes| == i && forall k :: 0 <= k < i ==> nodes[k] == NodeOf(ss[k])
      invariant links == AllLinks(ss[..i])
    {
      nodes, links := Visit(ss, i, nodes, links);
      i := i + 1;
    }
    assert ss[..i] == ss;
    assert links == AllLinks(ss);
    g := GraphData(nodes, links, ToIndex(state.root));
  }

  /** One round of the loop of `toGraphData`: the node of statement `i`, then its edges. */
  method Visit(ss: seq<StatementView>, i: nat, nodes: seq<Node>, links: seq<Link>) returns (nodes': seq<Node>, links': seq<Link>)
    requires i < |ss|
    requires |nodes| == i && forall k :: 0 <= k < i ==> nodes[k] == NodeOf(ss[k])
    requires links == AllLinks(ss[..i])
    ensures |nodes'| == i + 1 && forall k :: 0 <= k < i + 1 ==> nodes'[k] == NodeOf(ss[k])
    ensures links' == AllLinks(ss[..i + 1])
  {
    nodes' := nodes + [NodeOf(ss[i])];
    assert forall k :: 0 <= k < i ==> nodes'[k] == nodes[k];
    links' := PushLinks(links, ss[i]);
    AllLinksSnoc(ss, i);
  }

  /** The inner loop of `toGraphData`: one edge per child, in order. */
  method PushLinks(links: seq<Link>, s: StatementView) returns (r: seq<Link>)
    ensures r == links + LinksOf(s)
  {
    r := links;
    var j := 0;
    while j < |s.children|
      invariant 0 <= j <= |s.children|
      invariant r == links + LinksOf(s)[..j]
    {
      r := r + [Link(ToIndex(s.children[j]), ToIndex(s.id))];
      assert LinksOf(s)[..j + 1] == LinksOf(s)[..j] + [LinksOf(s)[j]];
      j := j + 1;
    }
    assert LinksOf(s)[..j] == LinksOf(s);
  }

  // ---------------------------------------------------------------------------------------
  // Edge colouring

  datatype EdgeColour = ImpliedProvenEdge | ImpliedUnprovenEdge | PlainEdge

  /** `edgeState`: an edge into an implied conclusion shows whether it carries proof: always
      into a proven implication, and into an unproven one exactly when the premise is proven.
      Other edges are plain. */
  function EdgeState(source: Node, target: Node): (r: EdgeColour)
    ensures r == PlainEdge <==> !target.state.IsImplied()
    ensures r == ImpliedProvenEdge <==>
      target.state == ProofGraph.ImpliedProven || (target.state == ProofGraph.ImpliedUnproven && source.state.IsProven())
  {
    if target.state == ProofGraph.ImpliedProven then ImpliedProvenEdge
    else if target.state == ProofGraph.ImpliedUnproven then
      if source.state == ProofGraph.ImpliedProven || source.state == ProofGraph.DirectlyProven then ImpliedProvenEdge
      else ImpliedUnprovenEdge
    else PlainEdge
  }

  /** The drawn node of a live handle of the server's tree. */
  function Drawn(t: ProofGraph.Tree, h: ProofGraph.Handle): Node
    requires h in t.nodes
  {
    Node("", t.nodes[h].statement, t.nodes[h].state, Unset, Unset, Unset)
  }

  /** On a well-formed agreeing tree, the colours tell the truth: every edge into a proven
      implication is green, and an unproven implication has at least one edge showing the
      missing proof, unless it has no premises at all. */
  lemma ColoursShowGaps(t: ProofGraph.Tree, p: ProofGraph.Handle)
    requires ProofGraph.WellFormed(t) && ProofGraph.Consistent(t) && p in t.nodes && t.nodes[p].state.IsImplied()
    ensures t.nodes[p].state == ProofGraph.ImpliedProven ==>
      forall c | c in t.nodes[p].children :: EdgeState(Drawn(t, c), Drawn(t, p)) == ImpliedProvenEdge
    ensures t.nodes[p].state == ProofGraph.ImpliedUnproven ==>
      exists c :: c in t.nodes[p].children && EdgeState(Drawn(t, c), Drawn(t, p)) == ImpliedUnprovenEdge
  {
    if t.nodes[p].state == ProofGraph.ImpliedUnproven {
      assert ProofGraph.ConsistentAt(t, p);
      var c :| c in t.nodes[p].children && !(c in t.nodes && t.nodes[c].state.IsProven());
      assert EdgeState(Drawn(t, c), Drawn(t, p)) == ImpliedUnprovenEdge;
    }
  }

  // ---------------------------------------------------------------------------------------
  // Merging a snapshot into the drawn nodes

  /** `Array.prototype.find` on ids: the first position holding `id`, or -1. */
  function Find(ns: seq<Node>, id: Index): (k: int)
    ensures -1 <= k < |ns|
    ensures k >= 0 ==> ns[k].id == id && forall j :: 0 <= j < k ==> ns[j].id != id
    ensures k < 0 ==> forall j :: 0 <= j < |ns| ==> ns[j].id != id
  {
    if ns == [] then -1
    else if ns[0].id == id then 0
    else
      var k := Find(ns[1..], id);
      if k < 0 then -1 else k + 1
  }

  function Ids(ns: seq<Node>): set<Index> {
    set i | 0 <= i < |ns| :: ns[i].id
  }

  /** No id occurs twice. */
  predicate Distinct(ns: seq<Node>) {
    forall i, j :: 0 <= i < j < |ns| ==> ns[i].id != ns[j].id
  }

  /** The pinned position of a node. */
  function Pins(n: Node): (Coord, Coord, Coord) {
    (n.fx, n.fy, n.fz)
  }

  const Origin: (Coord, Coord, Coord) := (At(0.0), At(0.0), At(0.0))

  /** One step of the loop of `updateGraph`: a node already drawn takes the new text and
      state in place; a new node is pinned at the origin and appended. */
  function MergeOne(used: seq<Node>, n: Node): seq<Node> {
    var k := Find(used, n.id);
    if k >= 0 then used[k := used[k].(statement := n.statement, state := n.state)]
    else used + [n.(fx := At(0.0), fy := At(0.0), fz := At(0.0))]
  }

  function MergeAll(used: seq<Node>, ns: seq<Node>): seq<Node>
    decreases |ns|
  {
    if ns == [] then used else MergeAll(MergeOne(used, ns[0]), ns[1..])
  }

  /** The final filter of `updateGraph`: the drawn nodes whose id occurs in `ns`, in order. */
  function Keep(used: seq<Node>, ns: seq<Node>): seq<Node>
    decreases |used|
  {
    if used == [] then []
    else (if Find(ns, used[0].id) >= 0 then [used[0]] else []) + Keep(used[1..], ns)
  }

  /** `updateGraph`: merge, drop what the snapshot no longer has, and take the edges and the
      root from the snapshot. */
  function UpdateGraph(incoming: GraphData, current: GraphData): (r: GraphData)
    ensures r.links == incoming.links && r.rootId == incoming.rootId
  {
    GraphData(Keep(MergeAll(current.nodes, incoming.nodes), incoming.nodes), incoming.links, incoming.rootId)
  }

  /** How a merged node relates to the drawn and the incoming nodes: text and state from the
      incoming node when there is one (else unchanged), position from the drawn node when
      there was one (else the origin). */
  predicate MergedFrom(m: Node, used: seq<Node>, ns: seq<Node>) {
    && (Find(ns, m.id) >= 0 ==>
          m.statement == ns[Find(ns, m.id)].statement && m.state == ns[Find(ns, m.id)].state)
    && (Find(ns, m.id) < 0 && Find(used, m.id) >= 0 ==> m == used[Find(used, m.id)])
    && (Find(used, m.id) >= 0 ==> Pins(m) == Pins(used[Find(used, m.id)]))
    && (Find(used, m.id) < 0 ==> Pins(m) == Origin)
  }

  /** A single merge step keeps the ids distinct, adds the new id, and relates every node as
      `MergedFrom` says. */
  lemma MergeOneSpec(used: seq<Node>, n: Node)
    requires Distinct(used)
    ensures var u := MergeOne(used, n);
      && Distinct(u) && Ids(u) == Ids(used) + {n.id}
      && forall i :: 0 <= i < |u| ==> MergedFrom(u[i], used, [n])
  {
    var u := MergeOne(used, n);
    var k := Find(used, n.id);
    forall i | 0 <= i < |u|
      ensures MergedFrom(u[i], used, [n])
    {
      if i < |used| {
        assert u[i].id == used[i].id;
        assert Find(used, u[i].id) == i;
      }
    }
    if k >= 0 {
      assert Ids(u) == Ids(used) by {
        forall x | x in Ids(used) ensures x in Ids(u) {
          var i :| 0 <= i < |used| && used[i].id == x;
          assert u[i].id == x;
        }
      }
    } else {
      assert Ids(u) == Ids(used) + {n.id} by {
        forall x | x in Ids(used) ensures x in Ids(u) {
          var i :| 0 <= i < |used| && used[i].id == x;
          assert u[i].id == x;
        }
        assert u[|used|].id == n.id;
      }
    }
  }

  /** The whole merge loop: distinct ids stay distinct, the ids are the old ones and the
      incoming ones, and every node is `MergedFrom` the drawn and the incoming nodes. */
  lemma {:induction false} MergeAllSpec(used: seq<Node>, ns: seq<Node>)
    requires Distinct(used) && Distinct(ns)
    ensures var u := MergeAll(used, ns);
      && Distinct(u) && Ids(u) == Ids(used) + Ids(ns)
      && forall i :: 0 <= i < |u| ==> MergedFrom(u[i], used, ns)
    decreases |ns|
  {
    if ns != [] {
      var n := ns[0];
      var rest := ns[1..];
      var u1 := MergeOne(used, n);
      MergeOneSpec(used, n);
      assert Distinct(rest);
      MergeAllSpec(u1, rest);
      var u := MergeAll(u1, rest);
      assert Ids(ns) == {n.id} + Ids(rest) by {
        forall x | x in Ids(ns) ensures x in {n.id} + Ids(rest) {
          var i :| 0 <= i < |ns| && ns[i].id == x;
          if i > 0 { assert rest[i - 1].id == x; }
        }
        forall x | x in Ids(rest) ensures x in Ids(ns) {
          var i :| 0 <= i < |rest| && rest[i].id == x;
          assert ns[i + 1].id == x;
        }
      }
      forall i | 0 <= i < |u|
        ensures MergedFrom(u[i], used, ns)
      {
        var m := u[i];
        var id := m.id;
        assert MergedFrom(m, u1, rest);
        FindCons(ns, id);
        if id == n.id {
          assert Find(rest, id) < 0;
          var k1 := Find(u1, id);
          assert k1 >= 0 by { assert id in Ids(u1); }
          assert MergedFrom(u1[k1], used, [n]);
        } else {
          assert Find([n], id) < 0;
          if Find(u1, id) >= 0 {
            assert MergedFrom(u1[Find(u1, id)], used, [n]);
          } else {
            assert id !in Ids(u1);
          }
        }
      }
    }
  }

  /** `Find` on a non-empty sequence, by its head. */
  lemma FindCons(ns: seq<Node>, id: Index)
    requires ns != [] && Distinct(ns)
    ensures ns[0].id == id ==> Find(ns, id) == 0 && Find(ns[1..], id) < 0
    ensures ns[0].id != id ==> Find(ns, id) == (if Find(ns[1..], id) < 0 then -1 else Find(ns[1..], id) + 1)
  {
  }

  /** Ids and distinctness of a sequence by its head. */
  lemma IdsCons(n: Node, ns: seq<Node>)
    ensures Ids([n] + ns) == {n.id} + Ids(ns)
    ensures Distinct([n] + ns) <==> Distinct(ns) && n.id !in Ids(ns)
  {
    var l := [n] + ns;
    forall x | x in Ids(l) ensures x in {n.id} + Ids(ns) {
      var i :| 0 <= i < |l| && l[i].id == x;
      if i > 0 { assert ns[i - 1].id == x; }
    }
    forall x | x in Ids(ns) ensures x in Ids(l) {
      var i :| 0 <= i < |ns| && ns[i].id == x;
      assert l[i + 1].id == x;
    }
    assert l[0].id == n.id;
    if Distinct(l) {
      forall i, j | 0 <= i < j < |ns| ensures ns[i].id != ns[j].id {
        assert l[i + 1] == ns[i] && l[j + 1] == ns[j];
      }
      forall i | 0 <= i < |ns| ensures ns[i].id != n.id {
        assert l[i + 1] == ns[i];
      }
    }
    if Distinct(ns) && n.id !in Ids(ns) {
      forall i, j | 0 <= i < j < |l| ensures l[i].id != l[j].id {
        if i == 0 {
          assert l[j] == ns[j - 1];
        } else {
          assert l[i] == ns[i - 1] && l[j] == ns[j - 1];
        }
      }
    }
  }

  /** The filter keeps exactly the nodes whose id the snapshot has, in order. */
  lemma {:induction false} KeepSpec(used: seq<Node>, ns: seq<Node>)
    requires Distinct(used)
    ensures var r := Keep(used, ns);
      && Distinct(r) && Ids(r) == Ids(used) * Ids(ns)
      && forall i :: 0 <= i < |r| ==> r[i] in used
    decreases |used|
  {
    if used != [] {
      var rest := used[1..];
      assert used == [used[0]] + rest;
      IdsCons(used[0], rest);
      KeepSpec(rest, ns);
      var r1 := Keep(rest, ns);
      if Find(ns, used[0].id) >= 0 {
        assert ns[Find(ns, used[0].id)].id == used[0].id;
        IdsCons(used[0], r1);
      } else {
        assert used[0].id !in Ids(ns);
        assert Keep(used, ns) == r1;
      }
    }
  }

  /** `updateGraph`, for a screen and a snapshot without repeated ids: the result shows
      exactly the statements of the snapshot, once each; each takes its text and state
      from the snapshot and keeps its position if it was on screen, and otherwise is
      pinned at the origin. */
  lemma UpdateGraphMerges(incoming: GraphData, current: GraphData)
    requires Distinct(current.nodes) && Distinct(incoming.nodes)
    ensures var r := UpdateGraph(incoming, current);
      && Distinct(r.nodes) && Ids(r.nodes) == Ids(incoming.nodes)
      && forall i :: 0 <= i < |r.nodes| ==>
           var m := r.nodes[i];
           var k := Find(incoming.nodes, m.id);
           && 0 <= k && m.statement == incoming.nodes[k].statement && m.state == incoming.nodes[k].state
           && (Find(current.nodes, m.id) >= 0 ==> Pins(m) == Pins(current.nodes[Find(current.nodes, m.id)]))
           && (Find(current.nodes, m.id) < 0 ==> Pins(m) == Origin)
  {
    var u := MergeAll(current.nodes, incoming.nodes);
    MergeAllSpec(current.nodes, incoming.nodes);
    KeepSpec(u, incoming.nodes);
    var r := Keep(u, incoming.nodes);
    forall i | 0 <= i < |r|
      ensures Find(incoming.nodes, r[i].id) >= 0 && MergedFrom(r[i], current.nodes, incoming.nodes)
    {
      assert r[i] in u;
      var j :| 0 <= j < |u| && u[j] == r[i];
      assert r[i].id in Ids(r);
    }
  }
}
