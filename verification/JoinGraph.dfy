/** Routing over the directed graph of stored joins: reachability, the canonical
    shortest path, and the choice of a query's root model. */
module JoinGraphs {
  import opened Models
  import opened Names

  type Adjacency = map<string, set<string>>

  /** The stored outgoing neighbours of `node`; a missing key has none. */
  function Succ(adj: Adjacency, node: string): set<string> {
    if node in adj then adj[node] else {}
  }

  // ------------------------------------------------------------------ paths

  /** `hops` leads from `root` to `target` along stored edges; `root` itself is not listed. */
  ghost predicate IsPath(adj: Adjacency, root: string, hops: seq<string>, target: string) {
    if hops == [] then root == target else
      && hops[|hops| - 1] == target
      && target in Succ(adj, Penultimate(root, hops))
      && IsPath(adj, root, hops[..|hops| - 1], Penultimate(root, hops))
  }

  /** The node the last hop leaves from. */
  ghost function Penultimate(root: string, hops: seq<string>): string
    requires hops != []
  {
    if |hops| == 1 then root else hops[|hops| - 2]
  }

  ghost predicate Reachable(adj: Adjacency, root: string, target: string) {
    exists hops :: IsPath(adj, root, hops, target)
  }

  /** A path no other path beats: none is shorter, and among those as short it comes first. */
  ghost predicate IsBestPath(adj: Adjacency, root: string, hops: seq<string>, target: string) {
    && IsPath(adj, root, hops, target)
    && forall other :: IsPath(adj, root, other, target) && other != hops ==>
         |hops| < |other| || (|hops| == |other| && PathLt(hops, other))
  }

  lemma BestPathUnique(adj: Adjacency, root: string, p: seq<string>, q: seq<string>, target: string)
    requires IsBestPath(adj, root, p, target) && IsBestPath(adj, root, q, target)
    ensures p == q
  {
    if p != q { PathTransitive(p, q, p); PathIrreflexive(p); }
  }

  lemma PathSnoc(adj: Adjacency, root: string, hops: seq<string>, u: string, v: string)
    requires IsPath(adj, root, hops, u) && v in Succ(adj, u)
    ensures IsPath(adj, root, hops + [v], v)
  {
    assert (hops + [v])[..|hops|] == hops;
  }

  lemma PathUnsnoc(adj: Adjacency, root: string, hops: seq<string>, v: string) returns (u: string)
    requires IsPath(adj, root, hops, v) && hops != []
    ensures IsPath(adj, root, hops[..|hops| - 1], u) && v in Succ(adj, u)
    ensures hops == hops[..|hops| - 1] + [v]
  {
    u := Penultimate(root, hops);
  }

  lemma {:induction false} NothingLeaves(adj: Adjacency, root: string, hops: seq<string>, target: string)
    requires Succ(adj, root) == {} && IsPath(adj, root, hops, target)
    ensures target == root
    decreases |hops|
  {
    if hops != [] {
      var u := PathUnsnoc(adj, root, hops, target);
      NothingLeaves(adj, root, hops[..|hops| - 1], u);
    }
  }

  /** A set closed under edges holds everything reachable from its members. */
  lemma {:induction false} ClosedHoldsReachable(
    adj: Adjacency, closed: set<string>, root: string, hops: seq<string>, target: string)
    requires root in closed && IsPath(adj, root, hops, target)
    requires forall n :: n in closed ==> Succ(adj, n) <= closed
    ensures target in closed
    decreases |hops|
  {
    if hops != [] {
      var u := PathUnsnoc(adj, root, hops, target);
      ClosedHoldsReachable(adj, closed, root, hops[..|hops| - 1], u);
    }
  }

  // --------------------------------------------------------------- distances

  /** What breadth-first search establishes about its distance table. */
  ghost predicate Layered(adj: Adjacency, root: string, dist: map<string, nat>) {
    && root in dist && dist[root] == 0
    && (forall u, v :: u in dist && v in Succ(adj, u) ==> v in dist && dist[v] <= dist[u] + 1)
    && (forall v {:trigger HasParent(adj, dist, v)} :: v in dist && v != root ==> HasParent(adj, dist, v))
  }

  /** Some discovered node one layer nearer has an edge to `v`. */
  ghost predicate HasParent(adj: Adjacency, dist: map<string, nat>, v: string)
    requires v in dist
  {
    exists u :: u in dist && v in Succ(adj, u) && dist[u] + 1 == dist[v]
  }

  lemma {:induction false} NoShorterPath(
    adj: Adjacency, root: string, dist: map<string, nat>, hops: seq<string>, target: string)
    requires Layered(adj, root, dist) && IsPath(adj, root, hops, target)
    ensures target in dist && dist[target] <= |hops|
    decreases |hops|
  {
    if hops != [] {
      var u := PathUnsnoc(adj, root, hops, target);
      NoShorterPath(adj, root, dist, hops[..|hops| - 1], u);
    }
  }

  lemma {:induction false} DiscoveredIsReachable(
    adj: Adjacency, root: string, dist: map<string, nat>, v: string) returns (hops: seq<string>)
    requires Layered(adj, root, dist) && v in dist
    ensures IsPath(adj, root, hops, v) && |hops| == dist[v]
    decreases dist[v]
  {
    if v == root {
      hops := [];
    } else {
      assert HasParent(adj, dist, v);
      var u :| u in dist && v in Succ(adj, u) && dist[u] + 1 == dist[v];
      var init := DiscoveredIsReachable(adj, root, dist, u);
      PathSnoc(adj, root, init, u, v);
      hops := init + [v];
    }
  }

  /** `best` holds the best path to `v`, of `d` hops. */
  ghost predicate HasBest(adj: Adjacency, root: string, best: map<string, seq<string>>, v: string, d: nat) {
    v in best && |best[v]| == d && IsBestPath(adj, root, best[v], v)
  }

  /** Every node of a layer before `d` has its best path. */
  ghost predicate BestBelow(
    adj: Adjacency, root: string, dist: map<string, nat>, best: map<string, seq<string>>, d: nat)
  {
    forall v :: v in dist && dist[v] < d ==> HasBest(adj, root, best, v, dist[v])
  }

  lemma BestGrows(
    adj: Adjacency, root: string, dist: map<string, nat>, best: map<string, seq<string>>,
    v: string, hops: seq<string>, d: nat)
    requires BestBelow(adj, root, dist, best, d) && v in dist && dist[v] == d
    requires |hops| == d && IsBestPath(adj, root, hops, v)
    ensures BestBelow(adj, root, dist, best[v := hops], d) && HasBest(adj, root, best[v := hops], v, d)
    ensures forall w :: HasBest(adj, root, best, w, d) ==> HasBest(adj, root, best[v := hops], w, d)
  {
    forall w | w in dist && dist[w] < d ensures HasBest(adj, root, best[v := hops], w, dist[w]) {
      assert HasBest(adj, root, best, w, dist[w]);
    }
  }

  lemma RootIsBest(adj: Adjacency, root: string, dist: map<string, nat>)
    requires Layered(adj, root, dist)
    ensures BestBelow(adj, root, dist, map[root := []], 1)
  {
    assert IsBestPath(adj, root, [], root);
    forall v | v in dist && dist[v] < 1 ensures v == root {
      assert v == root || HasParent(adj, dist, v);
    }
  }

  /** `u` is one layer nearer than `v` and has an edge to it. */
  predicate IsParent(adj: Adjacency, dist: map<string, nat>, v: string, u: string)
    requires v in dist
  {
    u in dist && dist[u] + 1 == dist[v] && v in Succ(adj, u)
  }

  /** The path to `u` does not come after the path to `w`. */
  predicate NoLater(best: map<string, seq<string>>, u: string, w: string) {
    u in best && w in best && (best[w] == best[u] || PathLt(best[u], best[w]))
  }

  lemma NoLaterTransitive(best: map<string, seq<string>>, u: string, f: string, w: string)
    requires u in best && f in best && PathLt(best[u], best[f]) && NoLater(best, f, w)
    ensures NoLater(best, u, w)
  {
    if best[w] != best[f] { PathTransitive(best[u], best[f], best[w]); }
  }

  /** Among the nodes in `seen`, the parent whose best path is least, if there is one at all. */
  ghost predicate IsLeast(
    adj: Adjacency, dist: map<string, nat>, best: map<string, seq<string>>, v: string, seen: seq<string>,
    found: Option<string>)
    requires v in dist
  {
    && (found.Some? ==> IsParent(adj, dist, v, found.value) && found.value in best)
    && forall w :: w in seen && IsParent(adj, dist, v, w) ==> found.Some? && NoLater(best, found.value, w)
  }

  lemma LeastGoesOn(
    adj: Adjacency, dist: map<string, nat>, best: map<string, seq<string>>, v: string, seen: seq<string>,
    before: Option<string>, u: string, found: Option<string>)
    requires v in dist && IsLeast(adj, dist, best, v, seen, before) && (IsParent(adj, dist, v, u) ==> u in best)
    requires found ==
      if IsParent(adj, dist, v, u) && (before.None? || PathLt(best[u], best[before.value])) then Some(u) else before
    ensures IsLeast(adj, dist, best, v, seen + [u], found)
  {
    if IsParent(adj, dist, v, u) && before.Some? { PathTotal(best[u], best[before.value]); }
    forall w | w in seen + [u] && IsParent(adj, dist, v, w) ensures found.Some? && NoLater(best, found.value, w) {
      if w in seen && found != before { NoLaterTransitive(best, u, before.value, w); }
    }
  }

  lemma ParentHasBest(
    adj: Adjacency, root: string, dist: map<string, nat>, best: map<string, seq<string>>, v: string, u: string)
    requires v in dist && BestBelow(adj, root, dist, best, dist[v]) && IsParent(adj, dist, v, u)
    ensures u in best
  {
    assert HasBest(adj, root, best, u, dist[u]);
  }

  /** The best path to `v` extends the best path to the least of its parents. */
  lemma BestViaParent(
    adj: Adjacency, root: string, dist: map<string, nat>, best: map<string, seq<string>>,
    v: string, u: string)
    requires Layered(adj, root, dist) && v in dist && v != root
    requires BestBelow(adj, root, dist, best, dist[v])
    requires IsParent(adj, dist, v, u) && forall w :: IsParent(adj, dist, v, w) ==> NoLater(best, u, w)
    ensures u in best && |best[u]| + 1 == dist[v] && IsBestPath(adj, root, best[u] + [v], v)
  {
    var hops := best[u] + [v];
    assert HasBest(adj, root, best, u, dist[u]);
    PathSnoc(adj, root, best[u], u, v);
    forall other | IsPath(adj, root, other, v) && other != hops
      ensures |hops| < |other| || (|hops| == |other| && PathLt(hops, other))
    {
      NoShorterPath(adj, root, dist, other, v);
      if |other| == |hops| {
        var w := PathUnsnoc(adj, root, other, v);
        var init := other[..|other| - 1];
        NoShorterPath(adj, root, dist, init, w);
        assert IsParent(adj, dist, v, w);
        assert HasBest(adj, root, best, w, dist[w]);
        assert best[u] == init || PathLt(best[u], init) by {
          if best[u] != best[w] && best[w] != init { PathTransitive(best[u], best[w], init); }
        }
        assert best[u] != init;
        PathLtExtends(best[u], init, [v], [v]);
      }
    }
  }

  // ------------------------------------------------------ the search's states

  /** All edges out of `u` lead at most one layer further. */
  ghost predicate Settled(adj: Adjacency, dist: map<string, nat>, u: string)
    requires u in dist
  {
    forall v :: v in Succ(adj, u) ==> v in dist && dist[v] <= dist[u] + 1
  }

  /** The table so far: distances are attained, `done` is settled, the rest is queued. */
  ghost predicate Table(adj: Adjacency, root: string, dist: map<string, nat>, done: set<string>) {
    && root in dist && dist[root] == 0
    && (forall v {:trigger HasParent(adj, dist, v)} :: v in dist && v != root ==> HasParent(adj, dist, v))
    && (forall u :: u in done ==> u in dist && Settled(adj, dist, u))
  }

  /** The queue holds discovered nodes, nearest first. */
  ghost predicate Queue(dist: map<string, nat>, frontier: seq<string>) {
    && (forall i :: 0 <= i < |frontier| ==> frontier[i] in dist)
    && (forall i, j :: 0 <= i < j < |frontier| ==> dist[frontier[i]] <= dist[frontier[j]])
  }

  /** Between turns: everything unsettled is queued and no node is two layers past the front. */
  ghost predicate Searching(
    adj: Adjacency, root: string, dist: map<string, nat>, frontier: seq<string>, done: set<string>)
  {
    && Table(adj, root, dist, done) && Queue(dist, frontier)
    && (forall n :: n in dist && n !in done ==> n in frontier)
    && (frontier != [] ==> forall n :: n in dist ==> dist[n] <= dist[frontier[0]] + 1)
  }

  /** During the turn of `node`: it is off the queue, and what it discovers goes behind. */
  ghost predicate Expanding(
    adj: Adjacency, root: string, dist: map<string, nat>, frontier: seq<string>, done: set<string>, node: string)
  {
    && Table(adj, root, dist, done) && Queue(dist, [node] + frontier)
    && (forall n :: n in dist && n !in done ==> n == node || n in frontier)
    && node in dist && (forall n :: n in dist ==> dist[n] <= dist[node] + 1)
  }

  lemma SearchStarts(adj: Adjacency, root: string)
    ensures Searching(adj, root, map[root := 0], [root], {})
  {
  }

  lemma SearchIsOver(adj: Adjacency, root: string, dist: map<string, nat>, done: set<string>)
    requires Searching(adj, root, dist, [], done)
    ensures Layered(adj, root, dist)
  {
    forall u, v | u in dist && v in Succ(adj, u) ensures v in dist && dist[v] <= dist[u] + 1 {
      assert Settled(adj, dist, u);
    }
  }

  lemma TurnStarts(adj: Adjacency, root: string, dist: map<string, nat>, frontier: seq<string>, done: set<string>)
    requires Searching(adj, root, dist, frontier, done) && frontier != []
    ensures Expanding(adj, root, dist, frontier[1..], done, frontier[0])
  {
    assert frontier == [frontier[0]] + frontier[1..];
  }

  lemma Discovers(
    adj: Adjacency, root: string, dist: map<string, nat>, frontier: seq<string>, done: set<string>,
    node: string, nbr: string)
    requires Expanding(adj, root, dist, frontier, done, node) && nbr in Succ(adj, node) && nbr !in dist
    ensures Expanding(adj, root, dist[nbr := dist[node] + 1], frontier + [nbr], done, node)
  {
    var dist' := dist[nbr := dist[node] + 1];
    forall v | v in dist' && v != root ensures HasParent(adj, dist', v) {
      if v == nbr {
        assert dist'[node] + 1 == dist'[nbr];
      } else {
        assert HasParent(adj, dist, v);
        var u :| u in dist && v in Succ(adj, u) && dist[u] + 1 == dist[v];
        assert dist'[u] + 1 == dist'[v];
      }
    }
    assert [node] + (frontier + [nbr]) == ([node] + frontier) + [nbr];
    forall i | 0 <= i < |[node] + frontier| ensures dist[([node] + frontier)[i]] <= dist[node] + 1 { }
  }

  lemma TurnEnds(
    adj: Adjacency, root: string, dist: map<string, nat>, frontier: seq<string>, done: set<string>, node: string)
    requires Expanding(adj, root, dist, frontier, done, node) && Settled(adj, dist, node)
    ensures Searching(adj, root, dist, frontier, done + {node})
  {
    var all := [node] + frontier;
    forall i | 0 <= i < |frontier| ensures frontier[i] in dist && dist[node] <= dist[frontier[i]] {
      assert all[i + 1] == frontier[i] && all[0] == node;
    }
    forall i, j | 0 <= i < j < |frontier| ensures dist[frontier[i]] <= dist[frontier[j]] {
      assert all[i + 1] == frontier[i] && all[j + 1] == frontier[j];
    }
  }

  /** The nodes in `seen` that are of layer `d` have their best paths. */
  ghost predicate LayerBest(
    adj: Adjacency, root: string, dist: map<string, nat>, best: map<string, seq<string>>, seen: seq<string>, d: nat)
  {
    forall w :: w in seen && w in dist && dist[w] == d ==> HasBest(adj, root, best, w, d)
  }

  lemma LayerIsDone(
    adj: Adjacency, root: string, dist: map<string, nat>, best: map<string, seq<string>>, order: seq<string>, d: nat)
    requires BestBelow(adj, root, dist, best, d) && (forall n :: n in dist ==> n in order)
    requires LayerBest(adj, root, dist, best, order[..|order|], d)
    ensures BestBelow(adj, root, dist, best, d + 1)
  {
    assert order[..|order|] == order;
  }

  /** Extending the least parent's path gives a node its best one, and keeps the others. */
  lemma NodeIsBest(
    adj: Adjacency, root: string, dist: map<string, nat>, best: map<string, seq<string>>, seen: seq<string>,
    v: string, u: string, d: nat)
    requires Layered(adj, root, dist) && v in dist && dist[v] == d && d > 0 && BestBelow(adj, root, dist, best, d)
    requires LayerBest(adj, root, dist, best, seen, d)
    requires IsParent(adj, dist, v, u) && forall w :: IsParent(adj, dist, v, w) ==> NoLater(best, u, w)
    ensures u in best
    ensures var best' := best[v := best[u] + [v]];
      BestBelow(adj, root, dist, best', d) && LayerBest(adj, root, dist, best', seen + [v], d)
  {
    BestViaParent(adj, root, dist, best, v, u);
    BestGrows(adj, root, dist, best, v, best[u] + [v], d);
  }

  // ---------------------------------------------------------- hops and roots

  lemma {:induction false} ShortestExists(adj: Adjacency, root: string, hops: seq<string>, target: string)
    requires IsPath(adj, root, hops, target)
    ensures exists p :: IsShortest(adj, root, p, target)
    decreases |hops|
  {
    if other :| IsPath(adj, root, other, target) && |other| < |hops| {
      ShortestExists(adj, root, other, target);
    } else {
      assert IsShortest(adj, root, hops, target);
    }
  }

  ghost predicate IsShortest(adj: Adjacency, root: string, hops: seq<string>, target: string) {
    && IsPath(adj, root, hops, target)
    && forall other :: IsPath(adj, root, other, target) ==> |hops| <= |other|
  }

  /** The true graph distance, 0 for an unreachable target. */
  ghost function Hops(adj: Adjacency, root: string, target: string): nat {
    if hops :| IsShortest(adj, root, hops, target) then |hops| else 0
  }

  ghost function TotalHops(adj: Adjacency, root: string, mentioned: set<string>): nat {
    if mentioned == {} then 0 else
      var m :| m in mentioned; Hops(adj, root, m) + TotalHops(adj, root, mentioned - {m})
  }

  /** The sum does not depend on the order the mentioned models are visited in. */
  lemma {:induction false} TotalHopsSplit(adj: Adjacency, root: string, mentioned: set<string>, x: string)
    requires x in mentioned
    ensures TotalHops(adj, root, mentioned) == Hops(adj, root, x) + TotalHops(adj, root, mentioned - {x})
    decreases |mentioned|
  {
    var m :| m in mentioned
      && TotalHops(adj, root, mentioned) == Hops(adj, root, m) + TotalHops(adj, root, mentioned - {m});
    if m != x {
      TotalHopsSplit(adj, root, mentioned - {m}, x);
      TotalHopsSplit(adj, root, mentioned - {x}, m);
      assert mentioned - {m} - {x} == mentioned - {x} - {m};
    }
  }

  ghost predicate ReachesAll(adj: Adjacency, root: string, mentioned: set<string>) {
    forall m :: m in mentioned ==> Reachable(adj, root, m)
  }

  /** `a` wins over `b`: fewer total hops, then being mentioned, then the smaller name. */
  ghost predicate Beats(adj: Adjacency, mentioned: set<string>, a: string, b: string) {
    var ha, hb := TotalHops(adj, a, mentioned), TotalHops(adj, b, mentioned);
    ha < hb || (ha == hb && (
      (a in mentioned && b !in mentioned) || ((a in mentioned <==> b in mentioned) && StrLt(a, b))))
  }

  ghost predicate IsBestRoot(adj: Adjacency, candidates: seq<string>, mentioned: set<string>, root: string) {
    && root in candidates && ReachesAll(adj, root, mentioned)
    && forall c :: c in candidates && c != root && ReachesAll(adj, c, mentioned) ==>
         Beats(adj, mentioned, root, c)
  }

  /** The root depends only on which candidates there are, not on their order: lists with
      the same members have the same best root. */
  lemma BestRootUnique(
    adj: Adjacency, candidates: seq<string>, reordered: seq<string>, mentioned: set<string>, a: string, b: string)
    requires forall c :: c in candidates <==> c in reordered
    requires IsBestRoot(adj, candidates, mentioned, a) && IsBestRoot(adj, reordered, mentioned, b)
    ensures a == b
  {
    if a != b && StrLt(a, b) && StrLt(b, a) { StrTransitive(a, b, a); StrIrreflexive(a); }
  }

  lemma BeatsTransitive(adj: Adjacency, mentioned: set<string>, a: string, b: string, c: string)
    requires Beats(adj, mentioned, a, b) && Beats(adj, mentioned, b, c)
    ensures Beats(adj, mentioned, a, c)
  {
    if StrLt(a, b) && StrLt(b, c) { StrTransitive(a, b, c); }
  }

  // -------------------------------------------------------------- the graph

  class JoinGraph {
    const adj: Adjacency

    constructor (adjacency: Adjacency)
      ensures adj == adjacency
    {
      adj := adjacency;
    }

    /** Everything a discovered node can be. */
    ghost function Universe(root: string): set<string> {
      {root} + set k, v | k in adj && v in adj[k] :: v
    }

    method ReachableFrom(root: string) returns (seen: set<string>)
      ensures forall n :: n in seen <==> Reachable(adj, root, n)
    {
      seen := {root};
      var frontier := [root];
      ghost var done := {};
      assert IsPath(adj, root, [], root);
      while frontier != []
        invariant root in seen && seen <= Universe(root)
        invariant forall i :: 0 <= i < |frontier| ==> frontier[i] in seen
        invariant forall n :: n in seen ==> n in done || n in frontier
        invariant forall n :: n in seen ==> Reachable(adj, root, n)
        invariant forall n :: n in done ==> Succ(adj, n) <= seen
        decreases Universe(root) - seen, |frontier|
      {
        var node := frontier[0];
        assert frontier == [node] + frontier[1..];
        var found := Discover(root, node, seen);
        done := done + {node};
        seen, frontier := seen + (set n | n in found), frontier[1..] + found;
        assert found != [] ==> found[0] in seen;
      }
      forall n | Reachable(adj, root, n) ensures n in seen {
        var hops :| IsPath(adj, root, hops, n);
        ClosedHoldsReachable(adj, seen, root, hops, n);
      }
    }

    /** The neighbours of `node` not seen before, in the order they are come upon. */
    method Discover(root: string, node: string, seen: set<string>) returns (found: seq<string>)
      requires Reachable(adj, root, node)
      ensures forall n :: n in found <==> n in Succ(adj, node) && n !in seen
      ensures forall n :: n in found ==> Reachable(adj, root, n) && n in Universe(root)
    {
      found := [];
      var rest := Succ(adj, node);
      while rest != {}
        invariant rest <= Succ(adj, node)
        invariant forall n :: n in found <==> n in Succ(adj, node) - rest && n !in seen
      {
        var nbr :| nbr in rest;
        if nbr !in seen && nbr !in found {
          found := found + [nbr];
        }
        rest := rest - {nbr};
      }
      ghost var hops :| IsPath(adj, root, hops, node);
      forall n | n in found ensures Reachable(adj, root, n) && n in Universe(root) {
        PathSnoc(adj, root, hops, node, n);
      }
    }

    /** Breadth-first distances from `root`, with the nodes in order of discovery. */
    method Distances(root: string) returns (dist: map<string, nat>, order: seq<string>)
      ensures Layered(adj, root, dist)
      ensures forall n :: n in order <==> n in dist
    {
      dist, order := map[root := 0], [root];
      var frontier := [root];
      ghost var done := {};
      SearchStarts(adj, root);
      while frontier != []
        invariant Searching(adj, root, dist, frontier, done)
        invariant dist.Keys <= Universe(root)
        invariant forall n :: n in order <==> n in dist
        decreases Universe(root) - dist.Keys, |frontier|
      {
        var node := frontier[0];
        TurnStarts(adj, root, dist, frontier, done);
        ghost var keys := dist.Keys;
        frontier := frontier[1..];
        dist, order, frontier := Expand(root, node, dist, order, frontier, done);
        TurnEnds(adj, root, dist, frontier, done, node);
        done := done + {node};
      }
      SearchIsOver(adj, root, dist, done);
    }

    /** Discovers the neighbours of `node` in name order. */
    method Expand(
      root: string, node: string, dist: map<string, nat>, order: seq<string>, frontier: seq<string>,
      ghost done: set<string>)
      returns (dist': map<string, nat>, order': seq<string>, frontier': seq<string>)
      requires Expanding(adj, root, dist, frontier, done, node)
      requires dist.Keys <= Universe(root)
      requires forall n :: n in order <==> n in dist
      ensures Expanding(adj, root, dist', frontier', done, node) && Settled(adj, dist', node)
      ensures dist.Keys <= dist'.Keys <= Universe(root)
      ensures forall n :: n in order' <==> n in dist'
      ensures dist'.Keys == dist.Keys ==> frontier' == frontier
    {
      dist', order', frontier' := dist, order, frontier;
      var nbrs := SortNames(Succ(adj, node));
      var i := 0;
      while i < |nbrs|
        invariant 0 <= i <= |nbrs|
        invariant Expanding(adj, root, dist', frontier', done, node)
        invariant dist.Keys <= dist'.Keys <= Universe(root)
        invariant forall n :: n in order' <==> n in dist'
        invariant forall k :: 0 <= k < i ==> nbrs[k] in dist'
        invariant dist'.Keys == dist.Keys ==> frontier' == frontier
      {
        var nbr := nbrs[i];
        if nbr !in dist' {
          Discovers(adj, root, dist', frontier', done, node, nbr);
          dist', order', frontier' := dist'[nbr := dist'[node] + 1], order' + [nbr], frontier' + [nbr];
        }
        i := i + 1;
      }
    }

    method ShortestPath(root: string, target: string) returns (path: Option<seq<string>>)
      ensures path.None? <==> !Reachable(adj, root, target)
      ensures path.Some? ==> IsBestPath(adj, root, path.value, target)
    {
      assert IsPath(adj, root, [], root);
      if root == target {
        return Some([]);
      }
      if target !in adj && root !in adj {
        forall hops | IsPath(adj, root, hops, target) ensures false {
          NothingLeaves(adj, root, hops, target);
        }
        return None;
      }
      var dist, order := Distances(root);
      if target !in dist {
        forall hops | IsPath(adj, root, hops, target) ensures false {
          NoShorterPath(adj, root, dist, hops, target);
        }
        return None;
      }
      var best := BestPaths(root, dist, order, dist[target]);
      assert HasBest(adj, root, best, target, dist[target]);
      return Some(best[target]);
    }

    /** Propagates the least path layer by layer, up to layer `last`. */
    method BestPaths(root: string, dist: map<string, nat>, order: seq<string>, last: nat)
      returns (best: map<string, seq<string>>)
      requires Layered(adj, root, dist)
      requires forall n :: n in order <==> n in dist
      ensures BestBelow(adj, root, dist, best, last + 1)
    {
      best := map[root := []];
      RootIsBest(adj, root, dist);
      var d := 1;
      while d <= last
        invariant 1 <= d <= last + 1
        invariant BestBelow(adj, root, dist, best, d)
      {
        best := BestLayer(root, dist, order, best, d);
        d := d + 1;
      }
    }

    /** Gives every node of layer `d` its best path, from those of the layer before. */
    method BestLayer(
      root: string, dist: map<string, nat>, order: seq<string>, best: map<string, seq<string>>, d: nat)
      returns (best': map<string, seq<string>>)
      requires Layered(adj, root, dist) && 1 <= d
      requires forall n :: n in order <==> n in dist
      requires BestBelow(adj, root, dist, best, d)
      ensures BestBelow(adj, root, dist, best', d + 1)
    {
      best' := best;
      var i := 0;
      while i < |order|
        invariant 0 <= i <= |order|
        invariant BestBelow(adj, root, dist, best', d)
        invariant LayerBest(adj, root, dist, best', order[..i], d)
      {
        var v := order[i];
        assert order[..i + 1] == order[..i] + [v];
        if dist[v] == d {
          var u := LeastParent(root, dist, order, best', v);
          NodeIsBest(adj, root, dist, best', order[..i], v, u, d);
          best' := best'[v := best'[u] + [v]];
        }
        i := i + 1;
      }
      LayerIsDone(adj, root, dist, best', order, d);
    }

    /** `min(best[u] for u in preds)`, returning the parent it is attained at. */
    method LeastParent(
      root: string, dist: map<string, nat>, order: seq<string>, best: map<string, seq<string>>, v: string)
      returns (least: string)
      requires v in dist && HasParent(adj, dist, v)
      requires forall n :: n in order <==> n in dist
      requires BestBelow(adj, root, dist, best, dist[v])
      ensures IsParent(adj, dist, v, least)
      ensures forall w :: IsParent(adj, dist, v, w) ==> NoLater(best, least, w)
    {
      var found: Option<string> := None;
      var i := 0;
      while i < |order|
        invariant 0 <= i <= |order|
        invariant IsLeast(adj, dist, best, v, order[..i], found)
      {
        var u := order[i];
        ghost var before := found;
        if IsParent(adj, dist, v, u) {
          ParentHasBest(adj, root, dist, best, v, u);
          if found.Some? { ParentHasBest(adj, root, dist, best, v, found.value); }
          if found.None? || PathLt(best[u], best[found.value]) { found := Some(u); }
        }
        assert order[..i + 1] == order[..i] + [u];
        LeastGoesOn(adj, dist, best, v, order[..i], before, u, found);
        i := i + 1;
      }
      assert order[..|order|] == order;
      ghost var parent :| parent in dist && v in Succ(adj, parent) && dist[parent] + 1 == dist[v];
      assert IsParent(adj, dist, v, parent) && parent in order;
      least := found.value;
    }
  }

  /** Some model called `n` has a stored join to `t`. */
  ghost predicate Stored(models: seq<Model>, n: string, t: string) {
    exists m :: m in models && m.name == n && JoinsTo(m.joins, t)
  }

  ghost predicate JoinsTo(joins: seq<ModelJoin>, t: string) {
    exists j :: j in joins && j.target == t
  }

  /** Node names are the given models; edges to unknown models are dropped. */
  method BuildFromModels(models: seq<Model>) returns (graph: JoinGraph)
    ensures fresh(graph)
    ensures graph.adj.Keys == set m | m in models :: m.name
    ensures forall n, t :: t in Succ(graph.adj, n) <==> t in graph.adj && Stored(models, n, t)
  {
    var names := set m | m in models :: m.name;
    var adj: Adjacency := map n | n in names :: {};
    var i := 0;
    while i < |models|
      invariant 0 <= i <= |models| && adj.Keys == names
      invariant forall n, t :: t in Succ(adj, n) <==> t in names && Stored(models[..i], n, t)
    {
      var m := models[i];
      ghost var was := adj;
      adj := AddJoins(adj, m);
      forall n, t ensures t in Succ(adj, n) <==> t in names && Stored(models[..i + 1], n, t) {
        assert models[..i + 1] == models[..i] + [m];
        assert t in was <==> t in names;
        assert t in Succ(adj, n) ==> t in Succ(was, n) || (n == m.name && t in was && JoinsTo(m.joins, t));
        assert t in Succ(was, n) ==> t in Succ(adj, n);
        assert (n == m.name && t in was && JoinsTo(m.joins, t)) ==> t in Succ(adj, n);
        assert Stored(models[..i + 1], n, t) <==>
               Stored(models[..i], n, t) || (m.name == n && JoinsTo(m.joins, t));
      }
      i := i + 1;
    }
    assert models[..|models|] == models;
    graph := new JoinGraph(adj);
  }

  method AddJoins(adj: Adjacency, m: Model) returns (adj': Adjacency)
    requires m.name in adj
    ensures adj'.Keys == adj.Keys
    ensures forall n, t :: t in Succ(adj', n) <==>
              t in Succ(adj, n) || (n == m.name && t in adj && JoinsTo(m.joins, t))
  {
    adj' := adj;
    var k := 0;
    while k < |m.joins|
      invariant 0 <= k <= |m.joins| && adj'.Keys == adj.Keys
      invariant forall n :: n != m.name ==> Succ(adj', n) == Succ(adj, n)
      invariant forall t :: t in adj'[m.name] <==> t in adj[m.name] || (t in adj && JoinsTo(m.joins[..k], t))
    {
      assert m.joins[..k + 1] == m.joins[..k] + [m.joins[k]];
      if m.joins[k].target in adj {
        adj' := adj'[m.name := adj'[m.name] + {m.joins[k].target}];
      }
      k := k + 1;
    }
    assert m.joins[..k] == m.joins;
  }

  method MinHopsRoot(graph: JoinGraph, candidates: seq<string>, mentioned: set<string>)
    returns (root: Option<string>)
    ensures root.None? <==> forall c :: c in candidates ==> !ReachesAll(graph.adj, c, mentioned)
    ensures root.Some? ==> IsBestRoot(graph.adj, candidates, mentioned, root.value)
  {
    root := None;
    var rootHops := 0;
    var i := 0;
    while i < |candidates|
      invariant 0 <= i <= |candidates|
      invariant root.None? <==> forall k :: 0 <= k < i ==> !ReachesAll(graph.adj, candidates[k], mentioned)
      invariant root.Some? ==> rootHops == TotalHops(graph.adj, root.value, mentioned)
      invariant root.Some? ==> root.value in candidates[..i] && ReachesAll(graph.adj, root.value, mentioned)
      invariant root.Some? ==> forall k :: 0 <= k < i ==>
        candidates[k] == root.value || !ReachesAll(graph.adj, candidates[k], mentioned)
        || Beats(graph.adj, mentioned, root.value, candidates[k])
    {
      var c := candidates[i];
      var valid, hops := SumHops(graph, c, mentioned);
      if valid {
        if root.None? {
          root, rootHops := Some(c), hops;
        } else if KeyLt(hops, c in mentioned, c, rootHops, root.value in mentioned, root.value) {
          forall k | 0 <= k < i && candidates[k] != c && ReachesAll(graph.adj, candidates[k], mentioned)
            ensures Beats(graph.adj, mentioned, c, candidates[k])
          {
            if candidates[k] != root.value { BeatsTransitive(graph.adj, mentioned, c, root.value, candidates[k]); }
          }
          root, rootHops := Some(c), hops;
        } else {
          StrTotal(c, root.value);
        }
      }
      i := i + 1;
    }
  }

  /** The comparison of the (hops, not mentioned, name) key tuples. */
  predicate KeyLt(h0: nat, m0: bool, n0: string, h1: nat, m1: bool, n1: string) {
    h0 < h1 || (h0 == h1 && ((m0 && !m1) || (m0 == m1 && StrLt(n0, n1))))
  }

  /** Whether `root` reaches every mentioned model, and if so its summed distance. */
  method SumHops(graph: JoinGraph, root: string, mentioned: set<string>) returns (valid: bool, hops: nat)
    ensures valid <==> ReachesAll(graph.adj, root, mentioned)
    ensures valid ==> hops == TotalHops(graph.adj, root, mentioned)
  {
    valid, hops := true, 0;
    var rest := mentioned;
    while rest != {}
      invariant rest <= mentioned
      invariant valid <==> forall m :: m in mentioned - rest ==> Reachable(graph.adj, root, m)
      invariant valid ==> hops + TotalHops(graph.adj, root, rest) == TotalHops(graph.adj, root, mentioned)
    {
      var m :| m in rest;
      var path := graph.ShortestPath(root, m);
      TotalHopsSplit(graph.adj, root, rest, m);
      if path.None? {
        valid := false;
      } else {
        HopsOfBestPath(graph.adj, root, path.value, m);
        hops := hops + |path.value|;
      }
      rest := rest - {m};
    }
  }

  lemma HopsOfBestPath(adj: Adjacency, root: string, hops: seq<string>, target: string)
    requires IsBestPath(adj, root, hops, target)
    ensures Hops(adj, root, target) == |hops|
  {
    assert IsShortest(adj, root, hops, target);
  }
}
