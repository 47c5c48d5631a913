/** Dependency graphs, and the depth-first search that looks for a cycle in one. */
module Cycles {
  import opened Models

  type Graph<!K> = map<K, seq<K>>

  function Next<K>(g: Graph<K>, k: K): seq<K> {
    if k in g then g[k] else []
  }

  /** A non-empty list whose every element depends on the one after it. */
  ghost predicate IsChain<K>(g: Graph<K>, p: seq<K>) {
    |p| > 0 && (|p| == 1 || (p[1] in Next(g, p[0]) && IsChain(g, p[1..])))
  }

  ghost predicate IsCycle<K>(g: Graph<K>, c: seq<K>) {
    |c| >= 2 && IsChain(g, c) && c[0] == c[|c| - 1]
  }

  /** `p` is a chain from `k` that ends where the cycle `c` starts. */
  ghost predicate LeadsTo<K>(g: Graph<K>, k: K, p: seq<K>, c: seq<K>) {
    IsChain(g, p) && p[0] == k && IsCycle(g, c) && p[|p| - 1] == c[0]
  }

  ghost predicate CyclicFrom<K(!new)>(g: Graph<K>, k: K) {
    exists p, c :: LeadsTo(g, k, p, c)
  }

  // ---------------------------------------------------------------- chains

  lemma {:induction false} ChainJoin<K>(g: Graph<K>, p: seq<K>, q: seq<K>)
    requires IsChain(g, p) && IsChain(g, q) && q[0] in Next(g, p[|p| - 1])
    ensures IsChain(g, p + q)
    decreases |p|
  {
    if |p| == 1 {
      assert (p + q)[1..] == q;
    } else {
      ChainJoin(g, p[1..], q);
      assert (p + q)[1..] == p[1..] + q;
    }
  }

  lemma ChainSnoc<K>(g: Graph<K>, p: seq<K>, k: K)
    requires p == [] || (IsChain(g, p) && k in Next(g, p[|p| - 1]))
    ensures IsChain(g, p + [k])
  {
    if p != [] { ChainJoin(g, p, [k]); }
  }

  lemma {:induction false} ChainPart<K>(g: Graph<K>, p: seq<K>, i: nat, j: nat)
    requires IsChain(g, p) && i < j <= |p|
    ensures IsChain(g, p[i..j])
    decreases |p|
  {
    if i > 0 {
      ChainPart(g, p[1..], i - 1, j - 1);
      assert p[1..][i - 1..j - 1] == p[i..j];
    } else if j > 1 {
      ChainPart(g, p[1..], 0, j - 1);
      assert p[0..j][1..] == p[1..][0..j - 1];
    }
  }

  /** A cycle has chains of every length leaving it. */
  lemma {:induction false} CycleUnrolls<K>(g: Graph<K>, c: seq<K>, n: nat) returns (p: seq<K>)
    requires IsCycle(g, c)
    ensures IsChain(g, p) && p[0] == c[0] && p[|p| - 1] == c[0] && |p| > n
  {
    if n == 0 {
      p := c;
    } else {
      var q := CycleUnrolls(g, c, n - 1);
      ChainJoin(g, q, c[1..]);
      p := q + c[1..];
    }
  }

  /** So a key a cycle is reachable from starts chains of every length. */
  lemma LongChain<K(!new)>(g: Graph<K>, k: K, n: nat) returns (p: seq<K>)
    requires CyclicFrom(g, k)
    ensures IsChain(g, p) && p[0] == k && |p| == n + 1
  {
    var lead, c :| LeadsTo(g, k, lead, c);
    var laps := CycleUnrolls(g, c, n + 1);
    ChainJoin(g, lead, laps[1..]);
    var whole := lead + laps[1..];
    ChainPart(g, whole, 0, n + 1);
    p := whole[0..n + 1];
  }

  lemma CyclicStep<K(!new)>(g: Graph<K>, k: K, next: K)
    requires next in Next(g, k) && CyclicFrom(g, next)
    ensures CyclicFrom(g, k)
  {
    var p, c :| LeadsTo(g, next, p, c);
    assert ([k] + p)[1..] == p;
    assert LeadsTo(g, k, [k] + p, c);
  }

  lemma CycleIsCyclic<K(!new)>(g: Graph<K>, c: seq<K>)
    requires IsCycle(g, c)
    ensures CyclicFrom(g, c[0]) && c[0] in g
  {
    assert LeadsTo(g, c[0], [c[0]], c);
  }

  // ------------------------------------------------------- finishing orders

  /** Every key's dependencies come before it. */
  ghost predicate Ordered<K>(g: Graph<K>, done: seq<K>) {
    forall i, d :: 0 <= i < |done| && d in Next(g, done[i]) ==> d in done[..i]
  }

  function FirstIndex<K(==)>(done: seq<K>, k: K): (i: nat)
    requires k in done
    ensures i < |done| && done[i] == k && k !in done[..i]
  {
    if done[0] == k then 0 else
      assert done == [done[0]] + done[1..];
      var i := FirstIndex(done[1..], k);
      assert done[..i + 1] == [done[0]] + done[1..][..i];
      i + 1
  }

  lemma {:induction false} ChainDescends<K>(g: Graph<K>, done: seq<K>, p: seq<K>)
    requires Ordered(g, done) && IsChain(g, p) && p[0] in done
    ensures p[|p| - 1] in done
    ensures |p| > 1 ==> FirstIndex(done, p[|p| - 1]) < FirstIndex(done, p[0])
    decreases |p|
  {
    if |p| > 1 {
      var i := FirstIndex(done, p[0]);
      assert p[1] in done[..i];
      FirstIndexBelow(done, p[1], i);
      ChainDescends(g, done, p[1..]);
    }
  }

  lemma FirstIndexBelow<K>(done: seq<K>, k: K, i: nat)
    requires i <= |done| && k in done[..i]
    ensures k in done && FirstIndex(done, k) < i
  {
    var j :| 0 <= j < i && done[j] == k;
    assert forall m :: 0 <= m < FirstIndex(done, k) ==> done[..FirstIndex(done, k)][m] != k;
  }

  /** Nothing in a finishing order leads to a cycle. */
  lemma OrderedIsAcyclic<K(!new)>(g: Graph<K>, done: seq<K>, k: K)
    requires Ordered(g, done) && k in done
    ensures !CyclicFrom(g, k)
  {
    forall p, c | LeadsTo(g, k, p, c) ensures false {
      ChainDescends(g, done, p);
      ChainDescends(g, done, c);
    }
  }

  /** A chain that depends on one of its own keys has closed a cycle. */
  lemma ClosesCycle<K(!new)>(g: Graph<K>, chain: seq<K>, k: K)
    requires chain != [] && IsChain(g, chain) && k in chain && k in Next(g, chain[|chain| - 1])
    ensures IsCycle(g, chain[FirstIndex(chain, k)..] + [k]) && CyclicFrom(g, k)
  {
    var from := FirstIndex(chain, k);
    ChainPart(g, chain, from, |chain|);
    assert chain[from..|chain|] == chain[from..];
    ChainSnoc(g, chain[from..], k);
    CycleIsCyclic(g, chain[from..] + [k]);
  }

  // ------------------------------------------------------------- the search

  class CycleFinder<K(==, !new)> {
    const graph: Graph<K>
    var onStack: seq<K>
    var onStackSet: set<K>
    var visited: set<K>
    /** The visited keys in the order the search finished them. */
    ghost var done: seq<K>
    ghost const universe: set<K>

    ghost predicate Valid()
      reads this
    {
      && (onStack == [] || IsChain(graph, onStack))
      && (forall k :: k in onStackSet <==> k in onStack)
      && (forall k :: k in visited <==> k in done)
      && Ordered(graph, done)
      && (forall k, d :: k in universe && d in Next(graph, k) ==> d in universe)
    }

    constructor (g: Graph<K>, ghost start: K)
      ensures graph == g && Valid() && onStack == [] && visited == {} && start in universe
    {
      graph, onStack, onStackSet, visited := g, [], {}, {};
      done, universe := [], {start} + (set k, d | k in g && d in g[k] :: d);
    }

    /** Searches from `node`, whose predecessors are on the stack. On success the stack and
        everything visited before are as they were, and `node` is visited. A cycle that is
        found starts at a key of the stack, which is left standing. */
    method Visit(node: K) returns (found: Option<seq<K>>)
      requires Valid() && node in universe
      requires onStack != [] ==> node in Next(graph, onStack[|onStack| - 1])
      modifies this`onStack, this`onStackSet, this`visited, this`done
      ensures Valid()
      ensures found.None? ==> onStack == old(onStack) && onStackSet == old(onStackSet)
      ensures found.None? ==> node in visited && old(visited) <= visited
      ensures found.Some? ==> IsCycle(graph, found.value) && found.value[0] in onStack
      ensures found.Some? ==> old(onStack) <= onStack && (old(onStack) == [] ==> onStack[0] == node)
      decreases universe - onStackSet - visited
    {
      if node in onStackSet {
        var idx := FirstIndex(onStack, node);
        ChainPart(graph, onStack, idx, |onStack|);
        assert onStack[idx..|onStack|] == onStack[idx..];
        ChainSnoc(graph, onStack[idx..], node);
        return Some(onStack[idx..] + [node]);
      }
      if node in visited {
        return None;
      }
      ChainSnoc(graph, onStack, node);
      onStack, onStackSet := onStack + [node], onStackSet + {node};
      var deps := Next(graph, node);
      var i := 0;
      while i < |deps|
        invariant 0 <= i <= |deps| && Valid()
        invariant onStack == old(onStack) + [node] && onStackSet == old(onStackSet) + {node}
        invariant old(visited) <= visited
        invariant forall j :: 0 <= j < i ==> deps[j] in visited
      {
        assert node in universe - old(onStackSet) - old(visited);
        assert universe - onStackSet - visited < universe - old(onStackSet) - old(visited);
        found := Visit(deps[i]);
        if found.Some? {
          assert old(onStack) <= old(onStack) + [node];
          return found;
        }
        i := i + 1;
      }
      Finish(node);
      found := None;
    }

    /** Pops `node` and records it as visited. */
    method Finish(node: K)
      requires Valid() && onStack != [] && onStack[|onStack| - 1] == node && node !in onStack[..|onStack| - 1]
      requires forall d :: d in Next(graph, node) ==> d in visited
      modifies this`onStack, this`onStackSet, this`visited, this`done
      ensures Valid()
      ensures onStack == old(onStack)[..|old(onStack)| - 1] && onStackSet == old(onStackSet) - {node}
      ensures visited == old(visited) + {node}
    {
      var below := onStack[..|onStack| - 1];
      assert onStack == below + [node];
      if below != [] { ChainPart(graph, onStack, 0, |below|); }
      onStack, onStackSet, visited := below, onStackSet - {node}, visited + {node};
      forall i, d | 0 <= i < |done + [node]| && d in Next(graph, (done + [node])[i])
        ensures d in (done + [node])[..i]
      {
        assert (done + [node])[..i] == done[..i];
      }
      done := done + [node];
    }
  }

  /** A cycle is returned exactly if one is reachable from `start`, and then it is one. */
  method DetectCycle<K(==, !new)>(graph: Graph<K>, start: K) returns (found: Option<seq<K>>)
    ensures found.Some? <==> CyclicFrom(graph, start)
    ensures found.Some? ==> IsCycle(graph, found.value) && exists p :: LeadsTo(graph, start, p, found.value)
  {
    var finder := new CycleFinder(graph, start);
    found := finder.Visit(start);
    if found.Some? {
      var i := FirstIndex(finder.onStack, found.value[0]);
      ChainPart(graph, finder.onStack, 0, i + 1);
      assert LeadsTo(graph, start, finder.onStack[0..i + 1], found.value);
    } else {
      OrderedIsAcyclic(graph, finder.done, start);
    }
  }
}
