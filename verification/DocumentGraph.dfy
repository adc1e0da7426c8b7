// The graph of document links: bounded transitive closure by breadth-first search.
module DocumentGraph {
  import opened Seqs

  datatype Node = Node(documentType: string, documentId: string)
  datatype Direction = Forward | Backward
  datatype LinkStatus = Active | Superseded | ReversedLink
  datatype Link = Link(id: nat, source: Node, target: Node, relation: string, status: LinkStatus)

  /** A neighbour together with the link that leads to it. */
  datatype Edge = Edge(node: Node, relation: string, linkId: nat, direction: Direction)

  function From(link: Link, direction: Direction): Node {
    if direction.Forward? then link.source else link.target
  }

  function To(link: Link, direction: Direction): Node {
    if direction.Forward? then link.target else link.source
  }

  function Touches(node: Node, direction: Direction): Link -> bool {
    (link: Link) => link.status.Active? && From(link, direction) == node
  }

  function EdgeOf(link: Link, direction: Direction): Edge {
    Edge(To(link, direction), link.relation, link.id, direction)
  }

  /** What was created from a document, or what it was created from. */
  function Neighbours(links: seq<Link>, node: Node, direction: Direction): seq<Edge> {
    var found := Filter(links, Touches(node, direction));
    seq(|found|, i requires 0 <= i < |found| => EdgeOf(found[i], direction))
  }

  /** Visited documents are remembered by this text. */
  function Key(node: Node): string {
    node.documentType + ":" + node.documentId
  }

  /** Document type codes contain no colon. */
  ghost predicate PlainType(node: Node) {
    ':' !in node.documentType
  }

  /** No two of the documents are remembered by the same text. */
  ghost predicate KeysApart(nodes: set<Node>) {
    forall a, b {:trigger Key(a), Key(b)} | a in nodes && b in nodes :: Key(a) == Key(b) ==> a == b
  }

  function FirstColon(s: string): nat {
    if s == [] || s[0] == ':' then 0 else 1 + FirstColon(s[1..])
  }

  lemma {:induction false} ColonAfter(a: string, b: string)
    requires ':' !in a
    ensures FirstColon(a + ":" + b) == |a|
  {
    if a == [] {
      assert (a + ":" + b)[0] == ':';
    } else {
      ColonAfter(a[1..], b);
      assert (a + ":" + b)[1..] == a[1..] + ":" + b;
    }
  }

  lemma ColonSplits(a: string, b: string, c: string, d: string)
    requires ':' !in a && ':' !in c && a + ":" + b == c + ":" + d
    ensures a == c && b == d
  {
    ColonAfter(a, b);
    ColonAfter(c, d);
    var s := a + ":" + b;
    assert s[..|a|] == a && s[|a| + 1..] == b;
    assert (c + ":" + d)[..|c|] == c && (c + ":" + d)[|c| + 1..] == d;
  }

  /** Then different documents have different keys. */
  lemma KeyIsInjective(a: Node, b: Node)
    requires PlainType(a) && PlainType(b) && Key(a) == Key(b)
    ensures a == b
  {
    ColonSplits(a.documentType, a.documentId, b.documentType, b.documentId);
  }

  /** With a colon in a type code they need not. */
  lemma KeyClash()
    ensures Key(Node("A:B", "C")) == Key(Node("A", "B:C")) && Node("A:B", "C") != Node("A", "B:C")
  {
    assert "A:B" + ":" + "C" == "A:B:C" && "A" + ":" + "B:C" == "A:B:C";
    assert |"A:B"| == 3 && |"A"| == 1;
  }

  /** The edge tells of an active link: its other end, its relation, its id, and the way it was followed. */
  ghost predicate IsEdge(links: seq<Link>, direction: Direction, edge: Edge) {
    exists link :: link in links && link.status == Active
      && edge == Edge(if direction == Forward then link.target else link.source, link.relation, link.id, direction)
  }

  // ----- reachability -----

  ghost function Successors(links: seq<Link>, direction: Direction, nodes: set<Node>): set<Node> {
    set link | link in links && link.status.Active? && From(link, direction) in nodes :: To(link, direction)
  }

  /** The nodes at distance at most d. */
  ghost function Within(links: seq<Link>, direction: Direction, start: Node, d: nat): set<Node> {
    if d == 0 then {start}
    else Within(links, direction, start, d - 1) + Successors(links, direction, Within(links, direction, start, d - 1))
  }

  lemma {:induction false} WithinGrows(links: seq<Link>, direction: Direction, start: Node, d: nat, e: nat)
    requires d <= e
    ensures Within(links, direction, start, d) <= Within(links, direction, start, e)
    decreases e
  {
    if d < e {
      WithinGrows(links, direction, start, d, e - 1);
    }
  }

  lemma OneHopIn(links: seq<Link>, direction: Direction, inner: set<Node>, nodes: set<Node>, x: Node)
    requires inner <= nodes && x in Successors(links, direction, inner)
    ensures x in Successors(links, direction, nodes)
  {}

  /** A radius that no link leads out of holds every greater one. */
  lemma {:induction false} Saturated(links: seq<Link>, direction: Direction, start: Node, d: nat, e: nat, nodes: set<Node>)
    requires d <= e && Within(links, direction, start, d) <= nodes
    requires forall x | x in Successors(links, direction, nodes) :: x in nodes
    ensures Within(links, direction, start, e) <= nodes
    decreases e
  {
    if d < e {
      Saturated(links, direction, start, d, e - 1, nodes);
      var inner := Within(links, direction, start, e - 1);
      forall x | x in Successors(links, direction, inner) ensures x in nodes {
        OneHopIn(links, direction, inner, nodes, x);
      }
    }
  }

  /** The nodes of the edges found so far. */
  ghost function NodesOf(edges: seq<Edge>): set<Node> {
    set edge | edge in edges :: edge.node
  }

  lemma NeighboursAreSuccessors(links: seq<Link>, node: Node, direction: Direction)
    ensures NodesOf(Neighbours(links, node, direction)) == Successors(links, direction, {node})
  {
    var found := Filter(links, Touches(node, direction));
    var edges := Neighbours(links, node, direction);
    forall x ensures x in NodesOf(edges) <==> x in Successors(links, direction, {node}) {
      if x in NodesOf(edges) {
        var i :| 0 <= i < |edges| && edges[i].node == x;
        assert found[i] in found && Touches(node, direction)(found[i]);
      }
      if x in Successors(links, direction, {node}) {
        var link :| link in links && link.status.Active? && From(link, direction) in {node} && To(link, direction) == x;
        assert Touches(node, direction)(link) && link in found;
        var i :| 0 <= i < |found| && found[i] == link;
        assert edges[i] in edges;
      }
    }
  }

  // ----- what the search has found -----

  /** Listed in non-decreasing distance: whatever radius holds the later node holds the earlier one. */
  ghost predicate Nearer(links: seq<Link>, direction: Direction, start: Node, a: Node, b: Node) {
    forall d: nat :: b in Within(links, direction, start, d) ==> a in Within(links, direction, start, d)
  }

  ghost predicate ByDistance(links: seq<Link>, direction: Direction, start: Node, found: seq<Edge>) {
    forall i, j | 0 <= i < j < |found| ::
      found[i].node != found[j].node && Nearer(links, direction, start, found[i].node, found[j].node)
  }

  /** The edge is an active link out of a node that lies strictly nearer to the start. */
  ghost predicate RealEdge(links: seq<Link>, direction: Direction, start: Node, edge: Edge) {
    exists link, d: nat :: link in links && link.status.Active? && edge == EdgeOf(link, direction)
      && From(link, direction) in Within(links, direction, start, d) && edge.node !in Within(links, direction, start, d)
  }

  ghost predicate RealEdges(links: seq<Link>, direction: Direction, start: Node, found: seq<Edge>) {
    forall edge | edge in found :: RealEdge(links, direction, start, edge)
  }

  /** Complete up to a set of nodes: everything but the start, once, in order of distance, over real links. */
  ghost predicate Found(links: seq<Link>, direction: Direction, start: Node, found: seq<Edge>, nodes: set<Node>) {
    && NodesOf(found) == nodes - {start}
    && ByDistance(links, direction, start, found)
    && RealEdges(links, direction, start, found)
  }

  /** One more node, from the layer just beyond radius d. */
  lemma FoundOneMore(links: seq<Link>, direction: Direction, start: Node, found: seq<Edge>, nodes: set<Node>, link: Link, d: nat)
    requires Found(links, direction, start, found, nodes) && start in nodes
    requires Within(links, direction, start, d) <= nodes <= Within(links, direction, start, d + 1)
    requires link in links && link.status.Active? && From(link, direction) in Within(links, direction, start, d)
    requires To(link, direction) !in nodes
    ensures Found(links, direction, start, found + [EdgeOf(link, direction)], nodes + {To(link, direction)})
  {
    var node := To(link, direction);
    var edge := EdgeOf(link, direction);
    var longer := found + [edge];
    assert NodesOf(longer) == NodesOf(found) + {node} by {
      forall x | x in NodesOf(found) + {node} ensures x in NodesOf(longer) {
        if x == node {
          assert edge in longer;
        } else {
          var e :| e in found && e.node == x;
          assert e in longer;
        }
      }
    }
    forall a | a in nodes ensures Nearer(links, direction, start, a, node) {
      forall e: nat | node in Within(links, direction, start, e) ensures a in Within(links, direction, start, e) {
        if e <= d {
          WithinGrows(links, direction, start, e, d);
        } else {
          WithinGrows(links, direction, start, d + 1, e);
        }
      }
    }
    forall i, j | 0 <= i < j < |longer|
      ensures longer[i].node != longer[j].node && Nearer(links, direction, start, longer[i].node, longer[j].node)
    {
      assert longer[i] == found[i] && found[i] in found && found[i].node in NodesOf(found);
    }
    assert RealEdge(links, direction, start, edge);
  }

  lemma {:induction false} WithinPlain(links: seq<Link>, direction: Direction, start: Node, d: nat)
    requires PlainType(start) && forall link | link in links :: PlainType(link.source) && PlainType(link.target)
    ensures forall n | n in Within(links, direction, start, d) :: PlainType(n)
  {
    if d > 0 {
      WithinPlain(links, direction, start, d - 1);
    }
  }

  /** Without colons in document types no two documents within reach share a key. */
  lemma PlainTypesKeepApart(links: seq<Link>, direction: Direction, start: Node, d: nat)
    requires PlainType(start) && forall link | link in links :: PlainType(link.source) && PlainType(link.target)
    ensures KeysApart(Within(links, direction, start, d))
  {
    WithinPlain(links, direction, start, d);
    var nodes := Within(links, direction, start, d);
    forall a, b | a in nodes && b in nodes && Key(a) == Key(b) ensures a == b {
      KeyIsInjective(a, b);
    }
  }

  // ----- the search -----

  ghost function KeysOf(nodes: set<Node>): set<string> {
    set node | node in nodes :: Key(node)
  }

  lemma KeyKnown(nodes: set<Node>, all: set<Node>, node: Node)
    requires KeysApart(all) && nodes <= all && node in all
    ensures Key(node) in KeysOf(nodes) <==> node in nodes
  {
    if Key(node) in KeysOf(nodes) {
      var n :| n in nodes && Key(n) == Key(node);
    }
  }

  /** The state inside one layer: `nodes` are visited, those beyond radius d form the next frontier. */
  ghost predicate Exploring(links: seq<Link>, direction: Direction, start: Node, d: nat, nodes: set<Node>,
                            visited: set<string>, found: seq<Edge>, next: seq<Node>) {
    && Within(links, direction, start, d) <= nodes <= Within(links, direction, start, d + 1)
    && start in nodes
    && visited == KeysOf(nodes)
    && Found(links, direction, start, found, nodes)
    && Elements(next) == nodes - Within(links, direction, start, d)
  }

  /** One unvisited neighbour joins everything at once. */
  lemma ExploreOne(links: seq<Link>, direction: Direction, start: Node, d: nat, nodes: set<Node>, visited: set<string>,
                   found: seq<Edge>, next: seq<Node>, link: Link)
    requires Exploring(links, direction, start, d, nodes, visited, found, next)
    requires link in links && link.status.Active? && From(link, direction) in Within(links, direction, start, d)
    requires To(link, direction) !in nodes
    ensures var node := To(link, direction);
      Exploring(links, direction, start, d, nodes + {node}, visited + {Key(node)}, found + [EdgeOf(link, direction)],
                next + [node])
  {
    var node := To(link, direction);
    FoundOneMore(links, direction, start, found, nodes, link, d);
    assert node in Successors(links, direction, Within(links, direction, start, d));
    assert KeysOf(nodes + {node}) == KeysOf(nodes) + {Key(node)};
    assert Elements(next + [node]) == Elements(next) + {node};
  }

  lemma OneMoreEdge(edges: seq<Edge>, i: nat)
    requires i < |edges|
    ensures NodesOf(edges[..i + 1]) == NodesOf(edges[..i]) + {edges[i].node}
  {
    assert edges[..i + 1] == edges[..i] + [edges[i]];
    assert edges[i] in edges[..i + 1];
    forall e | e in edges[..i] ensures e in edges[..i + 1] {}
  }

  /** What holds whether or not keys clash: every key is listed once and remembered, and only documents within
      radius d are listed or waiting. */
  ghost predicate Tidy(links: seq<Link>, direction: Direction, start: Node, d: nat, visited: set<string>,
                       found: seq<Edge>, next: seq<Node>) {
    && Key(start) in visited
    && (forall i | 0 <= i < |found| :: Key(found[i].node) in visited && Key(found[i].node) != Key(start))
    && (forall i, j | 0 <= i < j < |found| :: Key(found[i].node) != Key(found[j].node))
    && (forall edge | edge in found :: edge.node in Within(links, direction, start, d) && IsEdge(links, direction, edge))
    && (forall node | node in next :: node in Within(links, direction, start, d))
  }

  lemma TidyOneMore(links: seq<Link>, direction: Direction, start: Node, d: nat, visited: set<string>, found: seq<Edge>,
                    next: seq<Node>, edge: Edge)
    requires Tidy(links, direction, start, d, visited, found, next)
    requires edge.node in Within(links, direction, start, d) && Key(edge.node) !in visited && IsEdge(links, direction, edge)
    ensures Tidy(links, direction, start, d, visited + {Key(edge.node)}, found + [edge], next + [edge.node])
  {}

  lemma TidyFurther(links: seq<Link>, direction: Direction, start: Node, d: nat, visited: set<string>, found: seq<Edge>,
                    next: seq<Node>)
    requires Tidy(links, direction, start, d, visited, found, next)
    ensures Tidy(links, direction, start, d + 1, visited, found, [])
  {
    WithinGrows(links, direction, start, d, d + 1);
  }

  lemma OneHopFurther(links: seq<Link>, direction: Direction, start: Node, d: nat, link: Link)
    requires link in links && link.status.Active? && From(link, direction) in Within(links, direction, start, d)
    ensures To(link, direction) in Within(links, direction, start, d + 1)
  {
    assert To(link, direction) in Successors(links, direction, Within(links, direction, start, d));
  }

  lemma Absorbed<T>(nodes: set<T>, node: T)
    requires node in nodes
    ensures nodes + {node} == nodes
  {}

  /** Where keys are apart, a known key is a known document, and an unknown one joins. */
  lemma ExploreKey(links: seq<Link>, direction: Direction, start: Node, d: nat, nodes: set<Node>, visited: set<string>,
                   found: seq<Edge>, next: seq<Node>, link: Link)
    requires link in links && link.status.Active? && From(link, direction) in Within(links, direction, start, d)
    requires KeysApart(Within(links, direction, start, d + 1))
    requires Exploring(links, direction, start, d, nodes, visited, found, next)
    ensures var node := To(link, direction);
      if Key(node) in visited then Exploring(links, direction, start, d, nodes + {node}, visited, found, next)
      else Exploring(links, direction, start, d, nodes + {node}, visited + {Key(node)}, found + [EdgeOf(link, direction)],
                     next + [node])
  {
    var node := To(link, direction);
    OneHopFurther(links, direction, start, d, link);
    KeyKnown(nodes, Within(links, direction, start, d + 1), node);
    if Key(node) in visited {
      Absorbed(nodes, node);
    } else {
      ExploreOne(links, direction, start, d, nodes, visited, found, next, link);
    }
  }

  /** One edge: followed if it leads to a key not seen before. */
  method ExploreEdge(links: seq<Link>, direction: Direction, ghost start: Node, ghost d: nat, ghost apart: bool, edge: Edge,
                     ghost link: Link, ghost nodes0: set<Node>, visited0: set<string>, found0: seq<Edge>, next0: seq<Node>)
    returns (ghost nodes: set<Node>, visited: set<string>, found: seq<Edge>, next: seq<Node>)
    requires link in links && link.status.Active? && From(link, direction) in Within(links, direction, start, d)
    requires edge == EdgeOf(link, direction)
    requires Tidy(links, direction, start, d + 1, visited0, found0, next0)
    requires apart ==> KeysApart(Within(links, direction, start, d + 1))
    requires apart ==> Exploring(links, direction, start, d, nodes0, visited0, found0, next0)
    ensures Tidy(links, direction, start, d + 1, visited, found, next)
    ensures apart ==> Exploring(links, direction, start, d, nodes, visited, found, next)
    ensures nodes == nodes0 + {edge.node}
  {
    OneHopFurther(links, direction, start, d, link);
    assert IsEdge(links, direction, EdgeOf(link, direction));
    nodes := nodes0 + {edge.node};
    if apart { ExploreKey(links, direction, start, d, nodes0, visited0, found0, next0, link); }
    if Key(edge.node) in visited0 {
      visited, found, next := visited0, found0, next0;
    } else {
      TidyOneMore(links, direction, start, d + 1, visited0, found0, next0, edge);
      visited, found, next := visited0 + {Key(edge.node)}, found0 + [edge], next0 + [edge.node];
    }
  }

  lemma EdgeLink(links: seq<Link>, node: Node, direction: Direction, i: nat)
    requires i < |Neighbours(links, node, direction)|
    ensures |Filter(links, Touches(node, direction))| == |Neighbours(links, node, direction)|
    ensures var link := Filter(links, Touches(node, direction))[i];
      && link in links && link.status.Active? && From(link, direction) == node
      && Neighbours(links, node, direction)[i] == EdgeOf(link, direction)
  {
    var found := Filter(links, Touches(node, direction));
    assert found[i] in found && Touches(node, direction)(found[i]);
  }

  /** All neighbours of one node of the frontier. */
  method ExploreNode(links: seq<Link>, direction: Direction, ghost start: Node, ghost d: nat, ghost apart: bool, node: Node,
                     ghost nodes0: set<Node>, visited0: set<string>, found0: seq<Edge>, next0: seq<Node>)
    returns (ghost nodes: set<Node>, visited: set<string>, found: seq<Edge>, next: seq<Node>)
    requires node in Within(links, direction, start, d)
    requires Tidy(links, direction, start, d + 1, visited0, found0, next0)
    requires apart ==> KeysApart(Within(links, direction, start, d + 1))
    requires apart ==> Exploring(links, direction, start, d, nodes0, visited0, found0, next0)
    ensures Tidy(links, direction, start, d + 1, visited, found, next)
    ensures apart ==> Exploring(links, direction, start, d, nodes, visited, found, next)
    ensures nodes == nodes0 + Successors(links, direction, {node})
  {
    nodes, visited, found, next := nodes0, visited0, found0, next0;
    var edges := Neighbours(links, node, direction);
    NeighboursAreSuccessors(links, node, direction);
    assert NodesOf(edges[..0]) == {};
    for i := 0 to |edges|
      invariant Tidy(links, direction, start, d + 1, visited, found, next)
      invariant apart ==> Exploring(links, direction, start, d, nodes, visited, found, next)
      invariant nodes == nodes0 + NodesOf(edges[..i])
    {
      EdgeLink(links, node, direction, i);
      OneMoreEdge(edges, i);
      nodes, visited, found, next := ExploreEdge(links, direction, start, d, apart, edges[i],
                                                 Filter(links, Touches(node, direction))[i], nodes, visited, found, next);
    }
    assert edges[..|edges|] == edges;
  }

  /** Between layers: everything within radius d is known, and the frontier is the outermost layer. */
  ghost predicate LayerDone(links: seq<Link>, direction: Direction, start: Node, d: nat, visited: set<string>,
                            found: seq<Edge>, frontier: seq<Node>) {
    && visited == KeysOf(Within(links, direction, start, d))
    && Found(links, direction, start, found, Within(links, direction, start, d))
    && Elements(frontier) == OuterLayer(links, direction, start, d)
  }

  ghost function OuterLayer(links: seq<Link>, direction: Direction, start: Node, d: nat): set<Node> {
    if d == 0 then {start} else Within(links, direction, start, d) - Within(links, direction, start, d - 1)
  }

  lemma StartExploring(links: seq<Link>, direction: Direction, start: Node, d: nat, visited: set<string>,
                       found: seq<Edge>, frontier: seq<Node>)
    requires LayerDone(links, direction, start, d, visited, found, frontier)
    ensures Exploring(links, direction, start, d, Within(links, direction, start, d), visited, found, [])
  {
    WithinGrows(links, direction, start, 0, d);
    WithinGrows(links, direction, start, d, d + 1);
  }

  lemma DoneExploring(links: seq<Link>, direction: Direction, start: Node, d: nat, nodes: set<Node>, visited: set<string>,
                      found: seq<Edge>, next: seq<Node>)
    requires Exploring(links, direction, start, d, nodes, visited, found, next)
    requires nodes == Within(links, direction, start, d) + Successors(links, direction, OuterLayer(links, direction, start, d))
    ensures LayerDone(links, direction, start, d + 1, visited, found, next)
  {
    FrontierSuffices(links, direction, start, d, OuterLayer(links, direction, start, d));
  }

  lemma OneMoreSource(links: seq<Link>, direction: Direction, frontier: seq<Node>, i: nat)
    requires i < |frontier|
    ensures Successors(links, direction, Elements(frontier[..i + 1]))
         == Successors(links, direction, Elements(frontier[..i])) + Successors(links, direction, {frontier[i]})
  {
    assert frontier[..i + 1] == frontier[..i] + [frontier[i]];
    assert Elements(frontier[..i + 1]) == Elements(frontier[..i]) + {frontier[i]};
  }

  /** One layer: every node of the frontier in turn. */
  method ExploreLayer(links: seq<Link>, direction: Direction, ghost start: Node, ghost d: nat, ghost apart: bool,
                      frontier: seq<Node>, visited0: set<string>, found0: seq<Edge>)
    returns (visited: set<string>, found: seq<Edge>, next: seq<Node>)
    requires Tidy(links, direction, start, d, visited0, found0, frontier)
    requires apart ==> KeysApart(Within(links, direction, start, d + 1))
    requires apart ==> LayerDone(links, direction, start, d, visited0, found0, frontier)
    ensures Tidy(links, direction, start, d + 1, visited, found, next)
    ensures apart ==> LayerDone(links, direction, start, d + 1, visited, found, next)
  {
    TidyFurther(links, direction, start, d, visited0, found0, frontier);
    ghost var inner := Within(links, direction, start, d);
    ghost var nodes := inner;
    if apart { StartExploring(links, direction, start, d, visited0, found0, frontier); }
    visited, found, next := visited0, found0, [];
    for i := 0 to |frontier|
      invariant Tidy(links, direction, start, d + 1, visited, found, next)
      invariant apart ==> Exploring(links, direction, start, d, nodes, visited, found, next)
      invariant nodes == inner + Successors(links, direction, Elements(frontier[..i]))
    {
      assert frontier[i] in frontier;
      OneMoreSource(links, direction, frontier, i);
      nodes, visited, found, next := ExploreNode(links, direction, start, d, apart, frontier[i], nodes, visited, found, next);
    }
    assert frontier[..|frontier|] == frontier;
    if apart { DoneExploring(links, direction, start, d, nodes, visited, found, next); }
  }

  /** Only the last layer can lead anywhere new. */
  lemma FrontierSuffices(links: seq<Link>, direction: Direction, start: Node, d: nat, frontier: set<Node>)
    requires frontier == if d == 0 then {start}
                         else Within(links, direction, start, d) - Within(links, direction, start, d - 1)
    ensures Within(links, direction, start, d + 1)
         == Within(links, direction, start, d) + Successors(links, direction, frontier)
  {
    if d > 0 {
      var inner, outer := Within(links, direction, start, d - 1), Within(links, direction, start, d);
      assert outer == inner + frontier;
      assert Successors(links, direction, outer) == Successors(links, direction, inner) + Successors(links, direction, frontier);
    }
  }

  lemma SameSet<T>(a: set<T>, b: set<T>)
    requires a <= b <= a
    ensures a == b
  {}

  /** An empty layer means that no greater depth finds anything. */
  lemma NothingFurther(links: seq<Link>, direction: Direction, start: Node, depth: nat, maxDepth: nat)
    requires 0 < depth <= maxDepth
    requires forall x | x in Within(links, direction, start, depth) :: x in Within(links, direction, start, depth - 1)
    ensures Within(links, direction, start, maxDepth) == Within(links, direction, start, depth)
  {
    var inner, outer, all := Within(links, direction, start, depth - 1), Within(links, direction, start, depth),
                             Within(links, direction, start, maxDepth);
    forall x | x in Successors(links, direction, inner) ensures x in inner {
      assert x in outer;
    }
    Saturated(links, direction, start, depth - 1, maxDepth, inner);
    WithinGrows(links, direction, start, depth - 1, depth);
    WithinGrows(links, direction, start, depth, maxDepth);
    SameSet(all, outer);
  }

  lemma StartLayer(links: seq<Link>, direction: Direction, start: Node)
    ensures Tidy(links, direction, start, 0, {Key(start)}, [], [start])
    ensures LayerDone(links, direction, start, 0, {Key(start)}, [], [start])
  {
    assert KeysOf({start}) == {Key(start)};
  }

  lemma ApartWithin(links: seq<Link>, direction: Direction, start: Node, d: nat, e: nat)
    requires d <= e && KeysApart(Within(links, direction, start, e))
    ensures KeysApart(Within(links, direction, start, d))
  {
    WithinGrows(links, direction, start, d, e);
  }

  /** The search ends early only when there is nothing further to find. */
  lemma LastLayer(links: seq<Link>, direction: Direction, start: Node, d: nat, e: nat, visited: set<string>, found: seq<Edge>)
    requires d <= e && LayerDone(links, direction, start, d, visited, found, [])
    ensures Within(links, direction, start, e) == Within(links, direction, start, d)
  {
    assert start in {start};
    var outer := OuterLayer(links, direction, start, d);
    assert outer == {};
    if d > 0 {
      forall x | x in Within(links, direction, start, d) ensures x in Within(links, direction, start, d - 1) {
        assert x !in outer;
      }
      NothingFurther(links, direction, start, d, e);
    }
  }

  /** Two documents with one key cannot both be listed. */
  lemma ListedAreApart(links: seq<Link>, direction: Direction, start: Node, d: nat, visited: set<string>, found: seq<Edge>,
                       next: seq<Node>, nodes: set<Node>)
    requires Tidy(links, direction, start, d, visited, found, next) && nodes <= NodesOf(found) + {start}
    ensures KeysApart(nodes)
  {
    forall a, b | a in nodes && b in nodes && Key(a) == Key(b) ensures a == b {
      if a != start {
        var i := PlaceOf(found, a);
        if b != start {
          var j := PlaceOf(found, b);
          assert i == j;
        }
      } else if b != start {
        var j := PlaceOf(found, b);
      }
    }
  }

  lemma PlaceOf(found: seq<Edge>, node: Node) returns (i: nat)
    requires node in NodesOf(found)
    ensures i < |found| && found[i].node == node
  {
    var edge :| edge in found && edge.node == node;
    i :| i < |found| && found[i] == edge;
  }

  lemma SearchEnds(links: seq<Link>, direction: Direction, start: Node, d: nat, e: nat, visited: set<string>, found: seq<Edge>,
                   next: seq<Node>)
    requires d <= e && Tidy(links, direction, start, d, visited, found, next)
    ensures forall edge | edge in found :: edge.node in Within(links, direction, start, e) - {start}
    ensures Found(links, direction, start, found, Within(links, direction, start, e)) ==> KeysApart(Within(links, direction, start, e))
  {
    var all := Within(links, direction, start, e);
    WithinGrows(links, direction, start, d, e);
    if Found(links, direction, start, found, all) {
      ListedAreApart(links, direction, start, d, visited, found, next, all);
    }
    forall edge | edge in found ensures edge.node in all - {start} {
      var i :| 0 <= i < |found| && found[i] == edge;
      assert Key(found[i].node) != Key(start);
    }
  }

  /** On any links, cyclic or not: every key once and only documents within reach; and everything within the given number
      of hops except the start, each once, nearest first, exactly when no two documents within reach share a key. */
  method TransitiveClosure(links: seq<Link>, start: Node, direction: Direction, maxDepth: nat) returns (found: seq<Edge>)
    ensures forall edge | edge in found ::
      edge.node in Within(links, direction, start, maxDepth) - {start} && IsEdge(links, direction, edge)
    ensures forall i, j | 0 <= i < j < |found| :: Key(found[i].node) != Key(found[j].node)
    ensures Found(links, direction, start, found, Within(links, direction, start, maxDepth))
       <==> KeysApart(Within(links, direction, start, maxDepth))
  {
    ghost var all := Within(links, direction, start, maxDepth);
    ghost var apart := KeysApart(all);
    var visited := {Key(start)};
    var frontier := [start];
    var depth: nat := 0;
    found := [];
    StartLayer(links, direction, start);
    while depth < maxDepth && |frontier| > 0
      invariant depth <= maxDepth
      invariant Tidy(links, direction, start, depth, visited, found, frontier)
      invariant apart ==> LayerDone(links, direction, start, depth, visited, found, frontier)
      decreases maxDepth - depth
    {
      if apart { ApartWithin(links, direction, start, depth + 1, maxDepth); }
      visited, found, frontier := ExploreLayer(links, direction, start, depth, apart, frontier, visited, found);
      depth := depth + 1;
    }
    if apart && depth < maxDepth { LastLayer(links, direction, start, depth, maxDepth, visited, found); }
    SearchEnds(links, direction, start, depth, maxDepth, visited, found, frontier);
  }
}
