/** Which columns read which: a lowered formula reads its aggregates, and a column that reads an
    alias nobody has cannot be computed. */
module LoweringReaders {
  import opened Models
  import opened Formulas
  import opened FormulaParsing
  import opened Rewriting
  import opened Lowering
  import opened LoweringScopes
  import opened LoweringMeaning
  import opened LoweringCorrect

  /** One step reads an alias. */
  predicate Mentions(t: Term, a: Alias)
    decreases t, 1
  {
    t == Quoted(a) || (t.Apply? && AnyMentions(t.args, a))
  }

  predicate AnyMentions(args: seq<Term>, a: Alias)
    decreases args, 0
  {
    args != [] && (Mentions(args[0], a) || AnyMentions(args[1..], a))
  }

  predicate Reads(s: Step, a: Alias) {
    match s
    case MeasureStep(_, _) => false
    case ExprStep(_, sql) => Mentions(sql, a)
    case TransformStep(_, _, input) => input == a
  }

  predicate SomeReads(steps: seq<Step>, a: Alias) {
    exists s :: s in steps && Reads(s, a)
  }

  lemma {:induction false} MentionsNeeds(t: Term, a: Alias, env: Env)
    requires Mentions(t, a) && a !in env
    ensures Eval(t, env).None?
    decreases t, 1
  {
    if t.Apply? { AnyMentionsNeeds(t.args, a, env); }
  }

  lemma {:induction false} AnyMentionsNeeds(args: seq<Term>, a: Alias, env: Env)
    requires AnyMentions(args, a) && a !in env
    ensures EvalAll(args, env).None?
    decreases args, 0
  {
    if Mentions(args[0], a) { MentionsNeeds(args[0], a, env); } else { AnyMentionsNeeds(args[1..], a, env); }
  }

  /** Some step reads an alias that no earlier step has. */
  ghost predicate Stuck(steps: seq<Step>, a: Alias) {
    exists i :: 0 <= i < |steps| && Reads(steps[i], a) && forall k :: 0 <= k < i ==> steps[k].alias != a
  }

  lemma StuckDangles(steps: seq<Step>, a: Alias)
    requires Stuck(steps, a)
    ensures Run(steps).None?
  {
    var i :| 0 <= i < |steps| && Reads(steps[i], a) && forall k :: 0 <= k < i ==> steps[k].alias != a;
    if Run(steps[..i]).Some? {
      RunAliases(steps[..i]);
      assert a !in Run(steps[..i]).value;
      if steps[i].ExprStep? { MentionsNeeds(steps[i].sql, a, Run(steps[..i]).value); }
    }
    if Run(steps).Some? { RunCut(steps, i); }
  }

  // ------------------------------------- a lowered formula reads its aggregates

  lemma {:induction false} OccursIsMentioned(t: Term, n: string, d: Dict)
    requires Occurs(t, n) && Readable(d, n)
    ensures Mentions(Resolve(t, d), d.at[n])
    decreases t, 1
  {
    if t.Apply? {
      ResolveApply(t.op, t.args, d);
      AnyOccursIsMentioned(t.args, n, d);
    } else {
      NameBecomes(n, d);
    }
  }

  lemma {:induction false} AnyOccursIsMentioned(args: seq<Term>, n: string, d: Dict)
    requires AnyOccurs(args, n) && Readable(d, n)
    ensures AnyMentions(ResolveAll(args, d), d.at[n])
    decreases args, 0
  {
    var r := ResolveAll(args, d);
    assert r[0] == Resolve(args[0], d) && r[1..] == ResolveAll(args[1..], d);
    if Occurs(args[0], n) { OccursIsMentioned(args[0], n, d); } else { AnyOccursIsMentioned(args[1..], n, d); }
  }

  /** The aggregate is surfaced, and its alias is read. */
  ghost predicate IsRead(st: State, r: AggRef) {
    r in st.canon && SomeReads(st.steps, st.canon[r])
  }

  lemma IsReadStays(st: State, st': State, r: AggRef)
    requires IsRead(st, r) && st.steps <= st'.steps && st.canon.Items <= st'.canon.Items
    ensures IsRead(st', r)
  {
    assert (r, st.canon[r]) in st.canon.Items;
    var s :| s in st.steps && Reads(s, st.canon[r]);
    assert s in st'.steps;
  }

  lemma LastIsRead(st: State, s: Step, r: AggRef)
    requires r in st.canon && Reads(s, st.canon[r]) && s in st.steps
    ensures IsRead(st, r)
  {
  }

  lemma {:induction false} UsedIsRead(
    c: Config, v: Scope, spec: Spec, field: string, st: State, refs: AggRefs, st': State, a: Alias, r: AggRef)
    requires WellNamed(c, v) && Sound(c, v, st) && IsScoped(v, refs) && Consistent(v, spec, refs)
    requires Owned(v, st, field) && Fresh(st, field) && Legible(c, spec, field, st)
    requires Flatten(c, spec, field, st) == Ok((st', a)) && SpecMeaning(c.grouping, spec).Some? && Uses(spec, r)
    ensures if spec.AggSpec? then r in st'.canon && st'.canon[r] == a else IsRead(st', r)
    decreases spec, 1
  {
    FlattenMeans(c, v, spec, field, st, refs, st', a);
    match spec
    case AggSpec(_) => EnsureIsSound(c, v, st, Canonical(r), r, st', refs);
    case Arithmetic(sql, names, own, _) =>
      var st1 := EnsureAll(c, st, names, own).value;
      EnsureAllIsSound(c, v, st, names, own, refs, st1);
      var n :| n in names && n in own && own[n] == r;
      NameIsMentioned(sql, n, own, refs, st1, st1.known, r);
      LastIsRead(st', st'.steps[|st1.steps|], r);
    case Mixed(_, _, _, _, _) => MixedUsedIsRead(c, v, spec, field, st, refs, st', a, r);
    case TransformSpec(fn, inner, p) =>
      var first := Flatten(c, inner, "_inner_" + field, st).value;
      CoreOf(field);
      UsedIsRead(c, v, inner, "_inner_" + field, st, refs, first.0, first.1, r);
      TransformReads(c, spec, field, st, first.0, first.1, st', a);
      if inner.AggSpec? {
        LastIsRead(st', st'.steps[|first.0.steps|], r);
      } else {
        IsReadStays(first.0, st', r);
      }
  }

  lemma {:induction false} MixedUsedIsRead(
    c: Config, v: Scope, spec: Spec, field: string, st: State, refs: AggRefs, st': State, a: Alias, r: AggRef)
    requires WellNamed(c, v) && Sound(c, v, st) && IsScoped(v, refs) && Consistent(v, spec, refs) && spec.Mixed?
    requires Owned(v, st, field) && Fresh(st, field) && Legible(c, spec, field, st)
    requires Flatten(c, spec, field, st) == Ok((st', a)) && SpecMeaning(c.grouping, spec).Some? && Uses(spec, r)
    ensures IsRead(st', r)
    decreases spec, 0
  {
    var st1 := EnsureAll(c, st, spec.names, spec.refs).value;
    EnsureAllIsSound(c, v, st, spec.names, spec.refs, refs, st1);
    NumberedCountsUp(spec.subs, 0);
    assert spec.subs[0..] == spec.subs;
    var subs := FlattenSubs(c, spec.subs, field, st1).value;
    FlattenSubsMean(c, v, spec.subs, 0, field, st1, refs, subs.0, subs.1);
    if AnyUses(spec.subs, r) {
      AnyUsedIsRead(c, v, spec.subs, 0, field, st1, refs, subs.0, subs.1, r);
      IsReadStays(subs.0, st', r);
    } else {
      var n :| n in spec.names && n in spec.refs && spec.refs[n] == r;
      assert StandsFor(st1, refs, n);
      BoundNameIsMentioned(c, spec, n, refs, subs.0, subs.1, r);
      LastIsRead(st', st'.steps[|subs.0.steps|], r);
    }
  }

  lemma BoundNameIsMentioned(
    c: Config, spec: Spec, n: string, refs: AggRefs, st: State, bindings: seq<Binding>, r: AggRef)
    requires spec.Mixed? && IsRefs(refs) && Numbered(spec.subs) && |bindings| == |spec.subs| && Run(st.steps).Some?
    requires forall i :: 0 <= i < |spec.subs| ==> BindingHolds(c, st, spec.subs[i], bindings[i])
    requires n in spec.refs && spec.refs[n] == r && spec.refs.Items <= refs.Items && n in refs && StandsFor(st, refs, n)
    requires Readable(BindAll(st.known, bindings), n) && Occurs(spec.sql, n)
    ensures r in st.canon && Mentions(Resolve(spec.sql, BindAll(st.known, bindings)), st.canon[r])
  {
    BindingsAreDistinct(c, st, spec.subs, bindings);
    BindAllAt(st.known, bindings);
    RefIsNoPlaceholder(n);
    NameIsMentioned(spec.sql, n, spec.refs, refs, st, BindAll(st.known, bindings), r);
  }

  lemma {:induction false} AnyUsedIsRead(
    c: Config, v: Scope, subs: seq<Sub>, from: nat, field: string, st: State, refs: AggRefs,
    st': State, bindings: seq<Binding>, r: AggRef)
    requires WellNamed(c, v) && Sound(c, v, st) && IsScoped(v, refs) && AllConsistent(v, subs, refs)
    requires NumberedFrom(subs, from) && LegibleSubs(c, subs, field, st)
    requires FlattenSubs(c, subs, field, st) == Ok((st', bindings))
    requires SubMeanings(c.grouping, subs).Some? && AnyUses(subs, r)
    ensures IsRead(st', r)
    decreases subs
  {
    var name := Allocate(c, st, subs[0].placeholder + "_" + field);
    var sth := st.(hidden := st.hidden + {name});
    var first := Flatten(c, subs[0].spec, name, sth).value;
    HiddenIsFresh(c, v, st, from, field, name, sth);
    FlattenMeans(c, v, subs[0].spec, name, sth, refs, first.0, first.1);
    if Uses(subs[0].spec, r) {
      UsedIsRead(c, v, subs[0].spec, name, sth, refs, first.0, first.1, r);
      FlattenSubsMean(c, v, subs[1..], from + 1, field, first.0, refs, st', bindings[1..]);
      IsReadStays(first.0, st', r);
    } else {
      AnyUsedIsRead(c, v, subs[1..], from + 1, field, first.0, refs, st', bindings[1..], r);
    }
  }

  lemma NameIsMentioned(sql: Term, n: string, own: AggRefs, refs: AggRefs, st: State, d: Dict, r: AggRef)
    requires n in own && own[n] == r && own.Items <= refs.Items && n in refs && StandsFor(st, refs, n)
    requires Readable(d, n) && d.at[n] == st.known.at[n] && Occurs(sql, n)
    ensures r in st.canon && Mentions(Resolve(sql, d), st.canon[r])
  {
    assert (n, own[n]) in own.Items;
    OccursIsMentioned(sql, n, d);
  }

  /** The first column a transform adds after its operand's reads the operand's. */
  lemma TransformReads(
    c: Config, spec: Spec, field: string, st: State, st1: State, input: Alias, st': State, a: Alias)
    requires spec.TransformSpec? && Flatten(c, spec.inner, "_inner_" + field, st) == Ok((st1, input))
    requires Flatten(c, spec, field, st) == Ok((st', a))
    ensures st1.steps <= st'.steps && |st'.steps| > |st1.steps| && st'.canon == st1.canon
    ensures Reads(st'.steps[|st1.steps|], input)
  {
  }
}
