/** Lowering keeps a formula's meaning. */
module LoweringMeaning {
  import opened Models
  import opened Formulas
  import opened Rewriting
  import opened Lowering

  // -------------------------------------------------------------- resolving

  /** Every identifier is one of the names or a placeholder, and nothing is quoted yet. */
  predicate WordsIn(t: Term, names: seq<string>, subs: seq<Sub>)
    decreases t, 1
  {
    match t
    case Word(n) => n in names || IsBound(subs, n)
    case Apply(_, args) => AllWordsIn(args, names, subs)
    case Quoted(_) => false
    case Mangled(_) => false
    case _ => true
  }

  predicate AllWordsIn(args: seq<Term>, names: seq<string>, subs: seq<Sub>)
    decreases args, 0
  {
    args == [] || (WordsIn(args[0], names, subs) && AllWordsIn(args[1..], names, subs))
  }

  /** The identifier occurs in the expression. */
  predicate Occurs(t: Term, n: string)
    decreases t, 1
  {
    t == Word(n) || (t.Apply? && AnyOccurs(t.args, n))
  }

  predicate AnyOccurs(args: seq<Term>, n: string)
    decreases args, 0
  {
    args != [] && (Occurs(args[0], n) || AnyOccurs(args[1..], n))
  }

  /** Something in the expression is neither a literal nor a quoted alias. */
  predicate Illegible(t: Term)
    decreases t, 1
  {
    t.Word? || t.Path? || t.Mangled? || (t.Apply? && AnyIllegible(t.args))
  }

  predicate AnyIllegible(args: seq<Term>)
    decreases args, 0
  {
    args != [] && (Illegible(args[0]) || AnyIllegible(args[1..]))
  }

  lemma {:induction false} IllegibleHasNoValue(t: Term, env: Env)
    requires Illegible(t)
    ensures Eval(t, env).None?
    decreases t, 1
  {
    if t.Apply? { AnyIllegibleHasNoValue(t.args, env); }
  }

  lemma {:induction false} AnyIllegibleHasNoValue(args: seq<Term>, env: Env)
    requires AnyIllegible(args)
    ensures EvalAll(args, env).None?
    decreases args, 0
  {
    if Illegible(args[0]) { IllegibleHasNoValue(args[0], env); } else { AnyIllegibleHasNoValue(args[1..], env); }
  }

  /** An expression with a name that cannot be read stays illegible. */
  lemma {:induction false} UnreadableIsIllegible(t: Term, n: string, d: Dict)
    requires Occurs(t, n) && !Readable(d, n)
    ensures Illegible(Resolve(t, d))
    decreases t, 1
  {
    if t.Apply? {
      ResolveApply(t.op, t.args, d);
      AnyUnreadableIsIllegible(t.args, n, d);
    } else {
      NameBecomes(n, d);
    }
  }

  lemma {:induction false} AnyUnreadableIsIllegible(args: seq<Term>, n: string, d: Dict)
    requires AnyOccurs(args, n) && !Readable(d, n)
    ensures AnyIllegible(ResolveAll(args, d))
    decreases args, 0
  {
    assert ResolveAll(args, d)[1..] == ResolveAll(args[1..], d);
    if Occurs(args[0], n) { UnreadableIsIllegible(args[0], n, d); } else { AnyUnreadableIsIllegible(args[1..], n, d); }
  }

  /** The name is rewritten into an alias that holds its value. */
  predicate Denotes(n: string, d: Dict, env: Env, values: map<string, Value>) {
    Readable(d, n) && d.at[n] in env && n in values && env[d.at[n]] == values[n]
  }

  lemma {:induction false} ResolveMeans(
    t: Term, d: Dict, env: Env, values: map<string, Value>, names: seq<string>, subs: seq<Sub>)
    requires WordsIn(t, names, subs)
    requires forall n :: n in names || IsBound(subs, n) ==> Denotes(n, d, env, values)
    ensures Eval(Resolve(t, d), env) == TermMeaning(t, values)
    ensures TermMeaning(t, values).None? ==> Illegible(Resolve(t, d))
    decreases t, 1
  {
    match t
    case Word(n) => NameBecomes(n, d);
    case Apply(op, args) =>
      ResolveApply(op, args, d);
      ResolveAllMeans(args, d, env, values, names, subs);
    case Literal(_) => NotToBeRewritten(t, ByLength(d.order), d.at);
    case Path(_) => NotToBeRewritten(t, ByLength(d.order), d.at);
  }

  lemma {:induction false} ResolveAllMeans(
    args: seq<Term>, d: Dict, env: Env, values: map<string, Value>, names: seq<string>, subs: seq<Sub>)
    requires AllWordsIn(args, names, subs)
    requires forall n :: n in names || IsBound(subs, n) ==> Denotes(n, d, env, values)
    ensures EvalAll(ResolveAll(args, d), env) == TermMeaningAll(args, values)
    ensures TermMeaningAll(args, values).None? ==> AnyIllegible(ResolveAll(args, d))
    decreases args, 0
  {
    if args != [] {
      ResolveMeans(args[0], d, env, values, names, subs);
      ResolveAllMeans(args[1..], d, env, values, names, subs);
      assert ResolveAll(args, d)[1..] == ResolveAll(args[1..], d);
    }
  }

  lemma PairResolves(s: Term, t: Term, d: Dict)
    ensures ResolveAll([s, t], d) == [Resolve(s, d), Resolve(t, d)]
  {
    var none: seq<Term> := [];
    assert [s, t][1..] == [t] && [t][1..] == none && ResolveAll(none, d) == [];
    assert ResolveAll([t], d) == [Resolve(t, d)];
  }

  lemma ApplyPairResolves(op: string, s: Term, t: Term, d: Dict)
    ensures Resolve(Apply(op, [s, t]), d) == Apply(op, [Resolve(s, d), Resolve(t, d)])
  {
    ResolveApply(op, [s, t], d);
    PairResolves(s, t, d);
  }

  lemma PairEvaluates(s: Term, t: Term, env: Env)
    requires Eval(s, env).Some? && Eval(t, env).Some?
    ensures EvalAll([s, t], env) == Some([Eval(s, env).value, Eval(t, env).value])
  {
    assert [Eval(s, env).value] + ([Eval(t, env).value] + []) == [Eval(s, env).value, Eval(t, env).value];
    var none: seq<Term> := [];
    assert [s, t][1..] == [t] && [t][1..] == none && EvalAll(none, env) == Some([]);
    assert EvalAll([t], env) == Cons(Eval(t, env), Some([]));
  }

  lemma ChangeResolves(fn: string, x: string, shifted: string, d: Dict)
    requires Readable(d, x) && Readable(d, shifted)
    ensures Resolve(ChangeTerm(fn, Word(x), Word(shifted)), d) == ChangeTerm(fn, Quoted(d.at[x]), Quoted(d.at[shifted]))
  {
    var a, b, zero, one := Word(x), Word(shifted), Literal("0"), Literal("1.0");
    var delta := Apply("-", [a, b]);
    NameBecomes(x, d);
    NameBecomes(shifted, d);
    ApplyPairResolves("-", a, b, d);
    if fn != "change" {
      NotToBeRewritten(zero, ByLength(d.order), d.at);
      NotToBeRewritten(one, ByLength(d.order), d.at);
      ApplyPairResolves("!=", b, zero, d);
      ApplyPairResolves("*", delta, one, d);
      ApplyPairResolves("/", Apply("*", [delta, one]), b, d);
      ApplyPairResolves("CASE", Apply("!=", [b, zero]), Apply("/", [Apply("*", [delta, one]), b]), d);
    }
  }

  lemma PairOccurs(op: string, s: Term, t: Term, n: string)
    requires Occurs(s, n) || Occurs(t, n)
    ensures Occurs(Apply(op, [s, t]), n)
  {
    assert [s, t][1..] == [t];
  }

  lemma ChangeOccurs(fn: string, x: string, shifted: string)
    ensures Occurs(ChangeTerm(fn, Word(x), Word(shifted)), x) && Occurs(ChangeTerm(fn, Word(x), Word(shifted)), shifted)
  {
    var a, b, zero, one := Word(x), Word(shifted), Literal("0"), Literal("1.0");
    var delta := Apply("-", [a, b]);
    PairOccurs("-", a, b, x);
    PairOccurs("-", a, b, shifted);
    if fn != "change" {
      PairOccurs("*", delta, one, x);
      PairOccurs("/", Apply("*", [delta, one]), b, x);
      PairOccurs("/", Apply("*", [delta, one]), b, shifted);
      PairOccurs("CASE", Apply("!=", [b, zero]), Apply("/", [Apply("*", [delta, one]), b]), x);
      PairOccurs("CASE", Apply("!=", [b, zero]), Apply("/", [Apply("*", [delta, one]), b]), shifted);
    }
  }

  lemma ChangeEvaluates(fn: string, x: Alias, shifted: Alias, env: Env)
    requires x in env && shifted in env
    ensures Eval(ChangeTerm(fn, Quoted(x), Quoted(shifted)), env) == Some(ChangeOf(fn, env[x], env[shifted]))
  {
    var a, b, zero, one := Quoted(x), Quoted(shifted), Literal("0"), Literal("1.0");
    var delta := Apply("-", [a, b]);
    PairEvaluates(a, b, env);
    if fn != "change" {
      var scaled := Apply("*", [delta, one]);
      PairEvaluates(b, zero, env);
      PairEvaluates(delta, one, env);
      PairEvaluates(scaled, b, env);
      PairEvaluates(Apply("!=", [b, zero]), Apply("/", [scaled, b]), env);
    }
  }

  // --------------------------------------------------- binding placeholders

  predicate DistinctNames(bindings: seq<Binding>) {
    forall i, j :: 0 <= i < j < |bindings| ==> bindings[i].name != bindings[j].name
  }

  lemma {:induction false} BindAllAt(d: Dict, bindings: seq<Binding>)
    requires DistinctNames(bindings)
    ensures forall b :: b in bindings ==>
      b.name in BindAll(d, bindings).at && BindAll(d, bindings).at[b.name] == b.alias
    ensures forall n :: n in d.at && (forall b :: b in bindings ==> b.name != n) ==>
      n in BindAll(d, bindings).at && BindAll(d, bindings).at[n] == d.at[n]
    decreases |bindings|
  {
    if bindings != [] {
      var first, rest := bindings[0], bindings[1..];
      BindAllAt(Put(d, first.name, first.alias), rest);
      assert forall b :: b in rest ==> b.name != first.name;
      assert bindings == [first] + rest;
    }
  }

  lemma {:induction false} WithoutAppend(order: seq<string>, n: string, k: string)
    ensures Without(order + [n], k) == Without(order, k) + (if n == k then [] else [n])
  {
    if order != [] {
      WithoutAppend(order[1..], n, k);
      assert (order + [n])[1..] == order[1..] + [n];
    }
  }

  lemma {:induction false} WithoutAbsent(order: seq<string>, k: string)
    requires k !in order
    ensures Without(order, k) == order
  {
    if order != [] { WithoutAbsent(order[1..], k); }
  }

  /** Dropping a name and binding others can be done in either order. */
  lemma {:induction false} RemoveThenBind(d: Dict, k: string, bindings: seq<Binding>)
    requires forall b :: b in bindings ==> b.name != k
    ensures Remove(BindAll(d, bindings), k) == BindAll(Remove(d, k), bindings)
    decreases |bindings|
  {
    if bindings != [] {
      var b := bindings[0];
      WithoutAppend(d.order, b.name, k);
      assert Remove(Put(d, b.name, b.alias), k) == Put(Remove(d, k), b.name, b.alias);
      RemoveThenBind(Put(d, b.name, b.alias), k, bindings[1..]);
    }
  }

  lemma {:induction false} PutThenBind(d: Dict, k: string, a: Alias, bindings: seq<Binding>)
    requires k in d.at && (forall b :: b in bindings ==> b.name != k)
    ensures Put(BindAll(d, bindings), k, a) == BindAll(Put(d, k, a), bindings)
    decreases |bindings|
  {
    if bindings != [] {
      var b := bindings[0];
      assert Put(Put(d, b.name, b.alias), k, a) == Put(Put(d, k, a), b.name, b.alias);
      PutThenBind(Put(d, b.name, b.alias), k, a, bindings[1..]);
    }
  }

  /** After an expression is resolved, its placeholders stand for exactly what they stood for
      before, and no name has moved. */
  lemma {:induction false} BindingsAreRestored(d: Dict, bindings: seq<Binding>)
    requires DistinctNames(bindings) && (forall k :: k in d.order <==> k in d.at)
    ensures RestoreAll(BindAll(d, bindings), bindings, Shadowed(d, bindings)) == d
    decreases |bindings|
  {
    if bindings != [] {
      var b, rest := bindings[0], bindings[1..];
      assert forall r :: r in rest ==> r.name != b.name;
      assert Shadowed(d, bindings)[1..] == Shadowed(d, rest);
      if b.name in d.at { ShadowIsRestored(d, b, rest); } else { NewNameIsRemoved(d, b, rest); }
      BindingsAreRestored(d, rest);
    }
  }

  lemma ShadowIsRestored(d: Dict, b: Binding, rest: seq<Binding>)
    requires b.name in d.at && forall r :: r in rest ==> r.name != b.name
    ensures Put(BindAll(Put(d, b.name, b.alias), rest), b.name, d.at[b.name]) == BindAll(d, rest)
  {
    PutThenBind(Put(d, b.name, b.alias), b.name, d.at[b.name], rest);
    assert Put(Put(d, b.name, b.alias), b.name, d.at[b.name]) == d;
  }

  lemma NewNameIsRemoved(d: Dict, b: Binding, rest: seq<Binding>)
    requires b.name !in d.at && b.name !in d.order && forall r :: r in rest ==> r.name != b.name
    ensures Remove(BindAll(Put(d, b.name, b.alias), rest), b.name) == BindAll(d, rest)
  {
    RemoveThenBind(Put(d, b.name, b.alias), b.name, rest);
    WithoutAppend(d.order, b.name, b.name);
    WithoutAbsent(d.order, b.name);
    assert Remove(Put(d, b.name, b.alias), b.name) == d;
  }
}
