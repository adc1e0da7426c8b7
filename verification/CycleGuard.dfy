// The guard against cycles in document chains, and how far it can see.
module CycleGuard {
  import opened Seqs
  import opened DocumentGraph

  /** Hops the guard follows. */
  const MAX_DEPTH := 50

  // ----- paths -----

  ghost predicate Linked(links: seq<Link>, direction: Direction, a: Node, b: Node) {
    exists link :: link in links && link.status.Active? && From(link, direction) == a && To(link, direction) == b
  }

  ghost predicate Hop(links: seq<Link>, direction: Direction, path: seq<Node>, i: int)
    requires 0 <= i < |path| - 1
  {
    Linked(links, direction, path[i], path[i + 1])
  }

  ghost predicate IsPath(links: seq<Link>, direction: Direction, path: seq<Node>) {
    path != [] && forall i {:trigger Hop(links, direction, path, i)} | 0 <= i < |path| - 1 :: Hop(links, direction, path, i)
  }

  ghost predicate PathBetween(links: seq<Link>, direction: Direction, path: seq<Node>, a: Node, b: Node) {
    IsPath(links, direction, path) && path[0] == a && path[|path| - 1] == b
  }

  lemma ExtendPath(links: seq<Link>, direction: Direction, path: seq<Node>, b: Node)
    requires IsPath(links, direction, path) && Linked(links, direction, path[|path| - 1], b)
    ensures IsPath(links, direction, path + [b])
  {
    var longer := path + [b];
    forall i | 0 <= i < |longer| - 1 ensures Hop(links, direction, longer, i) {
      if i < |path| - 1 {
        assert Hop(links, direction, path, i);
      }
    }
  }

  lemma SubPath(links: seq<Link>, direction: Direction, path: seq<Node>, i: nat, j: nat)
    requires IsPath(links, direction, path) && i < j <= |path|
    ensures IsPath(links, direction, path[i..j])
  {
    forall k | 0 <= k < j - i - 1 ensures Hop(links, direction, path[i..j], k) {
      assert Hop(links, direction, path, i + k);
    }
  }

  /** A node is within d hops exactly when some path of at most d links leads to it. */
  lemma {:induction false} WithinHasPath(links: seq<Link>, direction: Direction, a: Node, b: Node, d: nat) returns (path: seq<Node>)
    requires b in Within(links, direction, a, d)
    ensures PathBetween(links, direction, path, a, b) && |path| <= d + 1
    decreases d
  {
    if d == 0 {
      return [a];
    }
    if b in Within(links, direction, a, d - 1) {
      path := WithinHasPath(links, direction, a, b, d - 1);
    } else {
      var link :| link in links && link.status.Active? && From(link, direction) in Within(links, direction, a, d - 1)
                  && To(link, direction) == b;
      var shorter := WithinHasPath(links, direction, a, From(link, direction), d - 1);
      ExtendPath(links, direction, shorter, b);
      path := shorter + [b];
    }
  }

  lemma {:induction false} PathIsWithin(links: seq<Link>, direction: Direction, path: seq<Node>, k: nat)
    requires IsPath(links, direction, path) && k < |path|
    ensures path[k] in Within(links, direction, path[0], k)
    decreases k
  {
    if k > 0 {
      PathIsWithin(links, direction, path, k - 1);
      assert Hop(links, direction, path, k - 1);
    }
  }

  lemma WithinIffPath(links: seq<Link>, direction: Direction, a: Node, b: Node, d: nat)
    ensures b in Within(links, direction, a, d)
       <==> exists path :: PathBetween(links, direction, path, a, b) && |path| <= d + 1
  {
    if b in Within(links, direction, a, d) {
      var path := WithinHasPath(links, direction, a, b, d);
    }
    if path :| PathBetween(links, direction, path, a, b) && |path| <= d + 1 {
      PathIsWithin(links, direction, path, |path| - 1);
      WithinGrows(links, direction, a, |path| - 1, d);
    }
  }

  /** A hop is an active link followed from its source to its target, or back. */
  lemma LinkedIff(links: seq<Link>, a: Node, b: Node)
    ensures Linked(links, Forward, a, b) <==> exists link :: link in links && link.status == Active && link.source == a && link.target == b
    ensures Linked(links, Backward, a, b) <==> exists link :: link in links && link.status == Active && link.target == a && link.source == b
  {
    forall link: Link
      ensures From(link, Forward) == To(link, Backward) == link.source && To(link, Forward) == From(link, Backward) == link.target {}
  }

  // ----- forward and backward views -----

  function Opposite(direction: Direction): Direction {
    if direction.Forward? then Backward else Forward
  }

  function Reversed(path: seq<Node>): seq<Node> {
    seq(|path|, i requires 0 <= i < |path| => path[|path| - 1 - i])
  }

  lemma ReversedIsPath(links: seq<Link>, direction: Direction, path: seq<Node>)
    requires IsPath(links, direction, path)
    ensures IsPath(links, Opposite(direction), Reversed(path))
  {
    forall i | 0 <= i < |path| - 1 ensures Hop(links, Opposite(direction), Reversed(path), i) {
      assert Hop(links, direction, path, |path| - 2 - i);
      var link :| link in links && link.status.Active? && From(link, direction) == path[|path| - 2 - i]
                  && To(link, direction) == path[|path| - 2 - i + 1];
      assert From(link, Opposite(direction)) == Reversed(path)[i] && To(link, Opposite(direction)) == Reversed(path)[i + 1];
    }
  }

  lemma ReachedBothWays(links: seq<Link>, direction: Direction, a: Node, b: Node, d: nat)
    requires b in Within(links, direction, a, d)
    ensures a in Within(links, Opposite(direction), b, d)
  {
    var path := WithinHasPath(links, direction, a, b, d);
    ReversedIsPath(links, direction, path);
    assert PathBetween(links, Opposite(direction), Reversed(path), b, a);
    WithinIffPath(links, Opposite(direction), b, a, d);
  }

  /** What a document leads to and what it comes from mirror each other at every depth bound. */
  lemma ForwardMirrorsBackward(links: seq<Link>, x: Node, y: Node, d: nat)
    ensures y in Within(links, Forward, x, d) <==> x in Within(links, Backward, y, d)
  {
    if y in Within(links, Forward, x, d) {
      ReachedBothWays(links, Forward, x, y, d);
    }
    if x in Within(links, Backward, y, d) {
      ReachedBothWays(links, Backward, y, x, d);
    }
  }

  // ----- the guard -----

  /** Refuses a link from a document to itself, or to one from which the search finds the way back. A refusal is always
      right; without clashing keys ahead of the target so is an acceptance. */
  method AssertNoCycle(links: seq<Link>, source: Node, target: Node) returns (ok: bool)
    ensures !ok ==> !Passes(links, source, target)
    ensures KeysApart(Within(links, Forward, target, MAX_DEPTH)) ==> (ok <==> Passes(links, source, target))
  {
    WithinGrows(links, Forward, target, 0, MAX_DEPTH);
    if source == target {
      return false;
    }
    var downstream := TransitiveClosure(links, target, Forward, MAX_DEPTH);
    ok := !(exists edge | edge in downstream :: edge.node == source);
    assert (exists edge | edge in downstream :: edge.node == source) <==> source in NodesOf(downstream);
  }

  ghost predicate Passes(links: seq<Link>, source: Node, target: Node) {
    source !in Within(links, Forward, target, MAX_DEPTH)
  }

  /** A link passes the guard exactly when no path of at most 50 links leads from its target back to its source. */
  lemma PassesIff(links: seq<Link>, source: Node, target: Node)
    ensures Passes(links, source, target) <==> forall path | PathBetween(links, Forward, path, target, source) :: |path| - 1 > 50
  {
    WithinIffPath(links, Forward, target, source, MAX_DEPTH);
  }

  ghost predicate Acyclic(links: seq<Link>) {
    forall path | IsPath(links, Forward, path) && |path| > 1 :: path[0] != path[|path| - 1]
  }

  ghost predicate Reaches(links: seq<Link>, a: Node, b: Node) {
    exists path :: PathBetween(links, Forward, path, a, b)
  }

  lemma ReachesIsTransitive(links: seq<Link>, a: Node, b: Node, c: Node)
    requires Reaches(links, a, b) && Reaches(links, b, c)
    ensures Reaches(links, a, c)
  {
    var p :| PathBetween(links, Forward, p, a, b);
    var q :| PathBetween(links, Forward, q, b, c);
    var r := p + q[1..];
    forall i | 0 <= i < |r| - 1 ensures Hop(links, Forward, r, i) {
      if i < |p| - 1 {
        assert Hop(links, Forward, p, i);
      } else {
        assert Hop(links, Forward, q, i - |p| + 1);
        assert r[i] == q[i - |p| + 1] && r[i + 1] == q[i - |p| + 2];
      }
    }
    assert PathBetween(links, Forward, r, a, c);
  }

  lemma WithinReaches(links: seq<Link>, a: Node, b: Node, d: nat)
    requires b in Within(links, Forward, a, d)
    ensures Reaches(links, a, b)
  {
    var path := WithinHasPath(links, Forward, a, b, d);
  }

  lemma ReachesWithin(links: seq<Link>, a: Node, b: Node)
    ensures Reaches(links, a, b) <==> exists d: nat :: b in Within(links, Forward, a, d)
  {
    if path :| PathBetween(links, Forward, path, a, b) {
      PathIsWithin(links, Forward, path, |path| - 1);
    }
    if d: nat :| b in Within(links, Forward, a, d) {
      WithinReaches(links, a, b, d);
    }
  }

  function NewLink(id: nat, source: Node, target: Node, relation: string): Link {
    Link(id, source, target, relation, Active)
  }

  lemma NewHop(links: seq<Link>, link: Link, a: Node, b: Node)
    requires Linked(links + [link], Forward, a, b)
    ensures Linked(links, Forward, a, b) || (a == link.source && b == link.target)
  {
    var l :| l in links + [link] && l.status.Active? && From(l, Forward) == a && To(l, Forward) == b;
    assert l in links || l == link;
  }

  /** With one more link, whatever is reached was reached before or goes through the new link. */
  lemma {:induction false} ThroughNewLink(links: seq<Link>, link: Link, path: seq<Node>)
    requires IsPath(links + [link], Forward, path)
    ensures var a, b := path[0], path[|path| - 1];
      Reaches(links, a, b) || (Reaches(links, a, link.source) && Reaches(links, link.target, b))
    decreases |path|
  {
    var a, b, n := path[0], path[|path| - 1], |path| - 1;
    if n == 0 {
      assert PathBetween(links, Forward, [a], a, b);
    } else {
      SubPath(links + [link], Forward, path, 0, n);
      assert path[..n] == path[0..n];
      ThroughNewLink(links, link, path[..n]);
      assert Hop(links + [link], Forward, path, n - 1);
      NewHop(links, link, path[n - 1], b);
      if Linked(links, Forward, path[n - 1], b) {
        ExtendPath(links, Forward, [path[n - 1]], b);
        assert PathBetween(links, Forward, [path[n - 1]] + [b], path[n - 1], b);
        if Reaches(links, a, path[n - 1]) {
          ReachesIsTransitive(links, a, path[n - 1], b);
        } else {
          ReachesIsTransitive(links, link.target, path[n - 1], b);
        }
      } else {
        assert PathBetween(links, Forward, [b], b, b);
      }
    }
  }

  /** A path that is none without the new link passes over it. */
  lemma PassesOver(links: seq<Link>, link: Link, path: seq<Node>) returns (k: nat)
    requires IsPath(links + [link], Forward, path) && !IsPath(links, Forward, path)
    ensures k < |path| - 1 && path[k] == link.source && path[k + 1] == link.target
  {
    k :| 0 <= k < |path| - 1 && !Hop(links, Forward, path, k);
    assert Hop(links + [link], Forward, path, k);
    NewHop(links, link, path[k], path[k + 1]);
  }

  /** A cycle that the new link closes runs from its target back to its source. */
  lemma CycleUsesNewLink(links: seq<Link>, link: Link, path: seq<Node>)
    requires Acyclic(links)
    requires IsPath(links + [link], Forward, path) && |path| > 1 && path[0] == path[|path| - 1]
    ensures Reaches(links, link.target, link.source)
  {
    var k := PassesOver(links, link, path);
    var tail, head := path[k + 1..|path|], path[0..k + 1];
    SubPath(links + [link], Forward, path, k + 1, |path|);
    SubPath(links + [link], Forward, path, 0, k + 1);
    assert tail[0] == link.target && tail[|tail| - 1] == path[0];
    assert head[0] == path[0] && head[|head| - 1] == link.source;
    ThroughNewLink(links, link, tail);
    ThroughNewLink(links, link, head);
    if Reaches(links, link.target, path[0]) && Reaches(links, path[0], link.source) {
      ReachesIsTransitive(links, link.target, path[0], link.source);
    }
  }

  lemma ReachedBackClosesCycle(links: seq<Link>, link: Link)
    requires link.status.Active? && Reaches(links, link.target, link.source)
    ensures !Acyclic(links + [link])
  {
    var path :| PathBetween(links, Forward, path, link.target, link.source);
    forall i | 0 <= i < |path| - 1 ensures Hop(links + [link], Forward, path, i) {
      assert Hop(links, Forward, path, i);
      var l :| l in links && l.status.Active? && From(l, Forward) == path[i] && To(l, Forward) == path[i + 1];
      assert l in links + [link];
    }
    assert link in links + [link];
    assert Linked(links + [link], Forward, link.source, link.target);
    ExtendPath(links + [link], Forward, path, link.target);
    var closed := path + [link.target];
    assert closed[0] == closed[|closed| - 1];
  }

  /** An added link keeps an acyclic graph acyclic exactly when its source cannot be reached from its target. */
  lemma AddedLinkIff(links: seq<Link>, link: Link)
    requires Acyclic(links) && link.status.Active?
    ensures Acyclic(links + [link]) <==> !Reaches(links, link.target, link.source)
  {
    if Reaches(links, link.target, link.source) {
      ReachedBackClosesCycle(links, link);
    } else {
      forall path | IsPath(links + [link], Forward, path) && |path| > 1 ensures path[0] != path[|path| - 1] {
        if path[0] == path[|path| - 1] {
          CycleUsesNewLink(links, link, path);
        }
      }
    }
  }

  /** The shortest way from a to b, if any, has at most the guard's number of hops. */
  ghost predicate InSight(links: seq<Link>, a: Node, b: Node) {
    Reaches(links, a, b) ==> b in Within(links, Forward, a, MAX_DEPTH)
  }

  /** On acyclic links the guard never refuses a harmless link, and it lets a harmful one through exactly
      when the way back from target to source is longer than it looks. */
  lemma GuardExactly(links: seq<Link>, link: Link)
    requires Acyclic(links) && link.status.Active?
    ensures !Passes(links, link.source, link.target) ==> !Acyclic(links + [link])
    ensures Passes(links, link.source, link.target) ==>
              (Acyclic(links + [link]) <==> InSight(links, link.target, link.source))
  {
    AddedLinkIff(links, link);
    ReachesWithin(links, link.target, link.source);
    if !Passes(links, link.source, link.target) {
      WithinReaches(links, link.target, link.source, MAX_DEPTH);
    }
  }

  /** If no shortest path exceeds the guard's depth, passing the guard and staying acyclic are the same. */
  lemma GuardSuffices(links: seq<Link>, link: Link)
    requires Acyclic(links) && link.status.Active?
    requires forall a, b :: InSight(links, a, b)
    ensures Passes(links, link.source, link.target) <==> Acyclic(links + [link])
  {
    GuardExactly(links, link);
  }

  // ----- links added one at a time -----

  /** A link is added when it passes the guard, and left out otherwise. */
  ghost function AddGuarded(links: seq<Link>, added: seq<Link>): seq<Link>
    decreases |added|
  {
    if added == [] then links
    else if Passes(links, added[0].source, added[0].target) then AddGuarded(links + [added[0]], added[1..])
    else AddGuarded(links, added[1..])
  }

  /** Whenever a link passed the guard, a way back from its target, if there was one, was short enough to be seen. */
  ghost predicate AlwaysInSight(links: seq<Link>, added: seq<Link>)
    decreases |added|
  {
    if added == [] then true
    else if Passes(links, added[0].source, added[0].target) then
      InSight(links, added[0].target, added[0].source) && AlwaysInSight(links + [added[0]], added[1..])
    else AlwaysInSight(links, added[1..])
  }

  lemma CycleStays(links: seq<Link>, link: Link)
    requires Acyclic(links + [link])
    ensures Acyclic(links)
  {
    forall path | IsPath(links, Forward, path) && |path| > 1 ensures path[0] != path[|path| - 1] {
      forall i | 0 <= i < |path| - 1 ensures Hop(links + [link], Forward, path, i) {
        assert Hop(links, Forward, path, i);
        var l :| l in links && l.status.Active? && From(l, Forward) == path[i] && To(l, Forward) == path[i + 1];
        assert l in links + [link];
      }
      assert IsPath(links + [link], Forward, path);
    }
  }

  lemma {:induction false} CyclesStay(links: seq<Link>, added: seq<Link>)
    requires Acyclic(AddGuarded(links, added))
    ensures Acyclic(links)
    decreases |added|
  {
    if added != [] {
      if Passes(links, added[0].source, added[0].target) {
        CyclesStay(links + [added[0]], added[1..]);
        CycleStays(links, added[0]);
      } else {
        CyclesStay(links, added[1..]);
      }
    }
  }

  /** Over any run of additions through the guard an acyclic graph stays acyclic exactly as long as every accepted link
      had its way back in sight. */
  lemma {:induction false} GuardedRunIff(links: seq<Link>, added: seq<Link>)
    requires Acyclic(links) && forall link | link in added :: link.status.Active?
    ensures Acyclic(AddGuarded(links, added)) <==> AlwaysInSight(links, added)
    decreases |added|
  {
    if added != [] {
      var link := added[0];
      assert link in added;
      if Passes(links, link.source, link.target) {
        GuardExactly(links, link);
        if Acyclic(links + [link]) {
          GuardedRunIff(links + [link], added[1..]);
        } else if Acyclic(AddGuarded(links + [link], added[1..])) {
          CyclesStay(links + [link], added[1..]);
        }
      } else {
        GuardedRunIff(links, added[1..]);
      }
    }
  }

  // ----- a chain that is too long -----

  function Xs(n: nat): string {
    seq(n, i => 'x')
  }

  function Doc(n: nat): Node {
    Node("DOC", Xs(n))
  }

  /** Documents 0 to n, each created from the one before. */
  function Chain(n: nat): seq<Link> {
    seq(n, i requires 0 <= i < n => NewLink(i, Doc(i), Doc(i + 1), "DERIVED_FROM"))
  }

  lemma LinkOfChain(n: nat, link: Link) returns (i: nat)
    requires link in Chain(n)
    ensures i < n && link.source == Doc(i) && link.target == Doc(i + 1)
  {
    i :| i < n && Chain(n)[i] == link;
  }

  lemma ChainHop(n: nat, a: Node, b: Node)
    requires Linked(Chain(n), Forward, a, b)
    ensures exists i: nat :: i < n && a == Doc(i) && b == Doc(i + 1)
    ensures |b.documentId| == |a.documentId| + 1
  {
    var link :| link in Chain(n) && link.status.Active? && From(link, Forward) == a && To(link, Forward) == b;
    var i := LinkOfChain(n, link);
    assert a == Doc(i) && b == Doc(i + 1);
  }

  lemma {:induction false} ChainClimbs(n: nat, path: seq<Node>, k: nat)
    requires IsPath(Chain(n), Forward, path) && k < |path|
    ensures |path[k].documentId| == |path[0].documentId| + k
  {
    if k > 0 {
      ChainClimbs(n, path, k - 1);
      assert Hop(Chain(n), Forward, path, k - 1);
      ChainHop(n, path[k - 1], path[k]);
    }
  }

  lemma {:induction false} ChainPath(n: nat, k: nat) returns (path: seq<Node>)
    requires k <= n
    ensures PathBetween(Chain(n), Forward, path, Doc(0), Doc(k))
  {
    if k == 0 {
      return [Doc(0)];
    }
    var shorter := ChainPath(n, k - 1);
    assert Chain(n)[k - 1] in Chain(n);
    assert Linked(Chain(n), Forward, Doc(k - 1), Doc(k));
    ExtendPath(Chain(n), Forward, shorter, Doc(k));
    path := shorter + [Doc(k)];
  }

  /** In any chain longer than the guard's depth, linking the end back to the beginning passes the guard
      and closes a cycle. */
  lemma LongChainEscapes(n: nat)
    requires n > MAX_DEPTH
    ensures Acyclic(Chain(n))
    ensures Passes(Chain(n), Doc(n), Doc(0))
    ensures !Acyclic(Chain(n) + [NewLink(n, Doc(n), Doc(0), "DERIVED_FROM")])
  {
    forall path | IsPath(Chain(n), Forward, path) && |path| > 1 ensures path[0] != path[|path| - 1] {
      ChainClimbs(n, path, |path| - 1);
    }
    if Doc(n) in Within(Chain(n), Forward, Doc(0), MAX_DEPTH) {
      var path := WithinHasPath(Chain(n), Forward, Doc(0), Doc(n), MAX_DEPTH);
      ChainClimbs(n, path, |path| - 1);
    }
    var path := ChainPath(n, n);
    ReachedBackClosesCycle(Chain(n), NewLink(n, Doc(n), Doc(0), "DERIVED_FROM"));
  }
}
