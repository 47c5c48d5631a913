/** Making the inner joins of imported models symmetric. */
module JoinMirrors {
  import opened Models

  type Pairs = seq<(string, string)>

  function Reverse(pairs: Pairs): Pairs {
    seq(|pairs|, i requires 0 <= i < |pairs| => (pairs[i].1, pairs[i].0))
  }

  lemma ReverseTwice(pairs: Pairs)
    ensures Reverse(Reverse(pairs)) == pairs
  {
  }

  type Row = map<string, int>

  ghost predicate Agree(left: Row, right: Row, pairs: Pairs) {
    forall p :: p in pairs ==> p.0 in left && p.1 in right && left[p.0] == right[p.1]
  }

  /** The reverse joins the same rows, seen from the other model. */
  lemma ReverseJoinsTheSame(left: Row, right: Row, pairs: Pairs)
    ensures |Reverse(pairs)| == |pairs| && (Agree(left, right, pairs) <==> Agree(right, left, Reverse(pairs)))
  {
    assert forall i :: 0 <= i < |pairs| ==> Reverse(pairs)[i] in Reverse(pairs) && pairs[i] in pairs;
  }

  /** A join to `target` on these pairs, of whatever type. */
  predicate HasJoin(joins: seq<ModelJoin>, target: string, pairs: Pairs) {
    exists j :: j in joins && j.target == target && j.pairs == pairs
  }

  type Joins = map<string, seq<ModelJoin>>

  /** The join is not inner, or leads nowhere known, or has its reverse. */
  predicate IsMirrored(joins: Joins, name: string, j: ModelJoin) {
    j.joinType == Inner && j.target in joins ==> HasJoin(joins[j.target], name, Reverse(j.pairs))
  }

  predicate ModelIsMirrored(joins: Joins, name: string)
    requires name in joins
  {
    forall j :: j in joins[name] ==> IsMirrored(joins, name, j)
  }

  ghost predicate AllMirrored(joins: Joins) {
    forall n :: n in joins ==> ModelIsMirrored(joins, n)
  }

  /** Joins are only added, and only reverses of inner joins that are there. */
  ghost predicate Grown(before: Joins, after: Joins) {
    && before.Keys == after.Keys
    && (forall n :: n in before ==> before[n] <= after[n])
    && (forall n, j :: n in after && j in after[n] ==> j in before[n] || IsReverse(after, n, j))
  }

  ghost predicate IsReverse(joins: Joins, name: string, j: ModelJoin) {
    && j.joinType == Inner && j.target in joins
    && exists r :: r in joins[j.target] && r.joinType == Inner && r.target == name && j.pairs == Reverse(r.pairs)
  }

  function Add(joins: Joins, name: string, j: ModelJoin): Joins
    requires name in joins
  {
    joins[name := joins[name] + [j]]
  }

  lemma HasJoinStays(joins: seq<ModelJoin>, j: ModelJoin, target: string, pairs: Pairs)
    requires HasJoin(joins, target, pairs)
    ensures HasJoin(joins + [j], target, pairs)
  {
    var r :| r in joins && r.target == target && r.pairs == pairs;
    assert r in joins + [j];
  }

  /** Adding the reverse of a join leaves everything mirrored that was. */
  lemma AddKeepsMirrored(joins: Joins, name: string, j: ModelJoin, n: string, other: ModelJoin)
    requires name in joins && j in joins[name] && j.joinType == Inner && j.target in joins
    requires var joins' := Add(joins, j.target, ModelJoin(name, Reverse(j.pairs), Inner));
      n in joins && (other in joins[n] ==> IsMirrored(joins, n, other)) && other in joins'[n]
    ensures IsMirrored(Add(joins, j.target, ModelJoin(name, Reverse(j.pairs), Inner)), n, other)
  {
    var added := ModelJoin(name, Reverse(j.pairs), Inner);
    var joins' := Add(joins, j.target, added);
    if other.joinType == Inner && other.target in joins {
      if other in joins[n] {
        if other.target == j.target { HasJoinStays(joins[j.target], added, n, Reverse(other.pairs)); }
      } else {
        assert other == added && n == j.target;
        ReverseTwice(j.pairs);
        assert j in joins'[name];
      }
    }
  }

  lemma AddGrows(before: Joins, joins: Joins, name: string, j: ModelJoin)
    requires Grown(before, joins)
    requires name in joins && j in joins[name] && j.joinType == Inner && j.target in joins
    ensures Grown(before, Add(joins, j.target, ModelJoin(name, Reverse(j.pairs), Inner)))
  {
    var added := ModelJoin(name, Reverse(j.pairs), Inner);
    var joins' := Add(joins, j.target, added);
    forall n, o | n in joins' && o in joins'[n] ensures o in before[n] || IsReverse(joins', n, o) {
      if o in joins[n] {
        if o !in before[n] {
          var r :| r in joins[o.target] && r.joinType == Inner && r.target == n && o.pairs == Reverse(r.pairs);
          assert r in joins'[o.target];
        }
      } else {
        assert o == added && n == j.target && j in joins'[name];
      }
    }
  }

  // ------------------------------------------------------------ termination

  /** The pairs, either way round, of a model's joins to itself: all it can come to have. */
  ghost function SelfPairs(joins: seq<ModelJoin>, name: string): set<Pairs> {
    (set j | j in joins && j.target == name :: j.pairs) + (set j | j in joins && j.target == name :: Reverse(j.pairs))
  }

  ghost function Present(joins: seq<ModelJoin>, name: string): set<Pairs> {
    set j | j in joins && j.target == name :: j.pairs
  }

  /** A self-join's reverse is one of the pairs that are missing, and adding it brings no new ones. */
  lemma SelfJoinIsOneFewer(joins: seq<ModelJoin>, name: string, j: ModelJoin)
    requires j in joins && j.target == name && !HasJoin(joins, name, Reverse(j.pairs))
    ensures var joins' := joins + [ModelJoin(name, Reverse(j.pairs), Inner)];
      SelfPairs(joins', name) - Present(joins', name) < SelfPairs(joins, name) - Present(joins, name)
  {
    var added := ModelJoin(name, Reverse(j.pairs), Inner);
    var joins' := joins + [added];
    ReverseTwice(j.pairs);
    assert Present(joins', name) == Present(joins, name) + {added.pairs} by {
      forall p | p in Present(joins, name) + {added.pairs} ensures p in Present(joins', name) {
        if p == added.pairs { assert added in joins'; } else {
          var r :| r in joins && r.target == name && r.pairs == p;
          assert r in joins';
        }
      }
    }
    assert added.pairs in SelfPairs(joins, name);
    assert j in joins' && j.pairs in Present(joins', name);
    assert SelfPairs(joins', name) <= SelfPairs(joins, name) by {
      forall p | p in SelfPairs(joins', name) ensures p in SelfPairs(joins, name) {
        if p in Present(joins', name) {
        } else {
          var r :| r in joins' && r.target == name && Reverse(r.pairs) == p;
          assert r in joins;
        }
      }
    }
    assert added.pairs !in Present(joins, name);
  }

  /** The self-joins that can still be added. */
  ghost function Missing(joins: seq<ModelJoin>, name: string): set<Pairs> {
    SelfPairs(joins, name) - Present(joins, name)
  }

  ghost function NamesIn(order: seq<string>): set<string> {
    set n | n in order
  }

  ghost predicate AreMirrored(joins: Joins, names: set<string>) {
    forall n :: n in names && n in joins ==> ModelIsMirrored(joins, n)
  }

  ghost predicate FirstAreMirrored(joins: Joins, name: string, i: nat)
    requires name in joins && i <= |joins[name]|
  {
    forall k :: 0 <= k < i ==> IsMirrored(joins, name, joins[name][k])
  }

  // ------------------------------------------------------------------ import

  class Importer {
    var joins: Joins

    constructor (joins: Joins)
      ensures this.joins == joins
    {
      this.joins := joins;
    }

    /** Mirrors the joins of one model, those added on the way included. */
    method MirrorModel(name: string, ghost before: Joins, ghost done: set<string>)
      requires name in joins && Grown(before, joins) && AreMirrored(joins, done)
      modifies this
      ensures Grown(before, joins) && joins.Keys == old(joins).Keys && AreMirrored(joins, done + {name})
      ensures AllMirrored(old(joins)) ==> joins == old(joins)
    {
      var i := 0;
      while i < |joins[name]|
        invariant joins.Keys == old(joins).Keys && i <= |joins[name]| && Grown(before, joins)
        invariant AreMirrored(joins, done) && FirstAreMirrored(joins, name, i)
        invariant AllMirrored(old(joins)) ==> joins == old(joins)
        decreases Missing(joins[name], name), |joins[name]| - i
      {
        MirrorAt(name, i, before, done);
        i := i + 1;
      }
    }

    /** Looks at one join, and adds its reverse if that is called for. */
    method MirrorAt(name: string, i: nat, ghost before: Joins, ghost done: set<string>)
      requires name in joins && i < |joins[name]| && Grown(before, joins)
      requires AreMirrored(joins, done) && FirstAreMirrored(joins, name, i)
      modifies this
      ensures Grown(before, joins) && joins.Keys == old(joins).Keys && i < |joins[name]|
      ensures AreMirrored(joins, done) && FirstAreMirrored(joins, name, i + 1)
      ensures AllMirrored(old(joins)) ==> joins == old(joins)
      ensures joins[name] == old(joins)[name] || Missing(joins[name], name) < Missing(old(joins)[name], name)
    {
      var j := joins[name][i];
      if j.joinType != Inner || j.target !in joins { return; }
      if HasJoin(joins[j.target], name, Reverse(j.pairs)) { return; }
      MirrorOne(name, j, before, done, i);
    }

    /** Adds the reverse of one join. */
    method MirrorOne(name: string, j: ModelJoin, ghost before: Joins, ghost done: set<string>, ghost i: nat)
      requires name in joins && i < |joins[name]| && joins[name][i] == j && Grown(before, joins)
      requires j.joinType == Inner && j.target in joins && !HasJoin(joins[j.target], name, Reverse(j.pairs))
      requires AreMirrored(joins, done) && FirstAreMirrored(joins, name, i)
      modifies this
      ensures joins == Add(old(joins), j.target, ModelJoin(name, Reverse(j.pairs), Inner)) && Grown(before, joins)
      ensures AreMirrored(joins, done) && FirstAreMirrored(joins, name, i + 1)
      ensures !AllMirrored(old(joins))
      ensures j.target == name ==> Missing(joins[name], name) < Missing(old(joins)[name], name)
    {
      ghost var was := joins;
      var added := ModelJoin(name, Reverse(j.pairs), Inner);
      if j.target == name { SelfJoinIsOneFewer(joins[name], name, j); }
      AddGrows(before, joins, name, j);
      joins := joins[j.target := joins[j.target] + [added]];
      forall n, o | n in done && n in joins && o in joins[n] ensures IsMirrored(joins, n, o) {
        AddKeepsMirrored(was, name, j, n, o);
      }
      forall k | 0 <= k < i + 1 ensures IsMirrored(joins, name, joins[name][k]) {
        if k < i {
          AddKeepsMirrored(was, name, j, name, was[name][k]);
        } else {
          assert added in joins[j.target];
        }
      }
      assert j in was[name];
    }

    /** Afterwards every inner join to a known model, the added ones included, has its reverse; the
        joins of before are a prefix of each list; and doing it again adds nothing. */
    method MirrorInnerJoins(order: seq<string>)
      requires forall n :: n in order <==> n in joins
      modifies this
      ensures AllMirrored(joins) && Grown(old(joins), joins)
      ensures AllMirrored(old(joins)) ==> joins == old(joins)
    {
      for k := 0 to |order|
        invariant joins.Keys == old(joins).Keys && Grown(old(joins), joins)
        invariant AreMirrored(joins, NamesIn(order[..k]))
        invariant AllMirrored(old(joins)) ==> joins == old(joins)
      {
        assert order[k] in order;
        ghost var done := NamesIn(order[..k]);
        MirrorModel(order[k], old(joins), done);
        assert order[..k + 1] == order[..k] + [order[k]];
        assert done + {order[k]} == NamesIn(order[..k + 1]);
      }
      assert order[..|order|] == order;
    }
  }
}
