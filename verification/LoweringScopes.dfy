/** What lowering keeps: every name it knows is a computed column, and its names never clash. */
module LoweringScopes {
  import opened Models
  import opened Formulas
  import opened FormulaParsing
  import opened Rewriting
  import opened Lowering

  // ------------------------------------------------------------------- runs

  lemma RunSnoc(steps: seq<Step>, s: Step)
    ensures Run(steps + [s]) == Exec(Run(steps), s)
  {
    assert (steps + [s])[..|steps|] == steps;
  }

  lemma {:induction false} RunAliases(steps: seq<Step>)
    requires Run(steps).Some?
    ensures forall s :: s in steps ==> s.alias in Run(steps).value
    ensures forall a :: a in Run(steps).value ==> exists s :: s in steps && s.alias == a
  {
    if steps != [] {
      var n := |steps| - 1;
      RunAliases(steps[..n]);
      assert steps == steps[..n] + [steps[n]];
      forall a | a in Run(steps).value ensures exists s :: s in steps && s.alias == a {
        if a == steps[n].alias {
          assert steps[n] in steps;
        } else {
          var s :| s in steps[..n] && s.alias == a;
          assert s in steps;
        }
      }
    }
  }

  /** A column that cannot be computed is not repaired by later ones. */
  lemma {:induction false} RunPrefix(steps: seq<Step>, more: seq<Step>)
    requires Run(steps + more).Some?
    ensures Run(steps).Some? && Run(steps).value.Items <= Run(steps + more).value.Items
    decreases |more|
  {
    if more == [] {
      assert steps + more == steps;
    } else {
      var n := |more| - 1;
      assert steps + more == (steps + more[..n]) + [more[n]];
      RunSnoc(steps + more[..n], more[n]);
      RunPrefix(steps, more[..n]);
    }
  }

  /** Each column of a run can be computed from those before it. */
  lemma RunCut(steps: seq<Step>, i: nat)
    requires i < |steps| && Run(steps).Some?
    ensures Run(steps[..i]).Some? && StepValue(steps[i], Run(steps[..i]).value).Some?
  {
    var before := steps[..i] + [steps[i]];
    assert steps == before + steps[i + 1..];
    RunSnoc(steps[..i], steps[i]);
    RunPrefix(before, steps[i + 1..]);
  }

  // ------------------------------------------------------------------ names

  /** A name without the `_inner_` and `_ts_` put in front of it. */
  function Core(n: string): string {
    if "_inner_" <= n then Core(n[7..]) else if "_ts_" <= n then Core(n[4..]) else n
  }

  lemma CoreOf(n: string)
    ensures Core("_inner_" + n) == Core(n) && Core("_ts_" + n) == Core(n)
  {
    assert ("_inner_" + n)[7..] == n && ("_ts_" + n)[4..] == n;
    assert ("_ts_" + n)[1] == 't';
  }

  lemma HiddenIsCore(n: string)
    requires HiddenShape(n)
    ensures Core(n) == n
  {
    assert n[1] == 't' && "_inner_"[1] == 'i' && "_ts_"[2] == 's';
  }

  /** The aggregates, formula names and measure renames of one query. */
  datatype Scope = Scope(refs: set<AggRef>, fields: set<string>, renames: set<string>)

  /** What lowering takes for granted of user names: canonical names tell aggregates apart and look
      like none of the names that are made up, and nor do the others. */
  ghost predicate WellNamed(c: Config, v: Scope) {
    && v.fields <= c.reserved && v.renames <= c.reserved && v.fields !! v.renames
    && (forall r :: r in v.refs ==> GoodName(Canonical(r)) && !HiddenShape(Canonical(r)))
    && (forall r :: r in v.refs ==> Canonical(r) !in v.fields && Canonical(r) !in v.renames)
    && (forall r, s :: r in v.refs && s in v.refs && Canonical(r) == Canonical(s) ==> r == s)
    && (forall n :: n in v.renames ==> GoodName(n))
    && (forall n :: n in v.fields ==> Core(n) == n && !("__agg" <= n))
  }

  predicate GoodName(n: string) {
    IsIdentifier(n) && Core(n) == n && !("__agg" <= n)
  }

  predicate MeasureNamed(v: Scope, s: Step)
    requires s.MeasureStep?
  {
    s.ref in v.refs && (s.alias.name == Canonical(s.ref) || s.alias.name in v.renames)
  }

  /** Who may own a name that lowering makes up. */
  predicate Owned(v: Scope, st: State, n: string) {
    Core(n) in v.fields || Core(n) in st.hidden
  }

  /** Every step is named after its aggregate, or after the formula it belongs to. */
  ghost predicate Named(c: Config, v: Scope, st: State) {
    && (forall s :: s in st.steps ==> s.alias.model == c.model)
    && (forall s :: s in st.steps && s.MeasureStep? ==> MeasureNamed(v, s))
    && (forall s :: s in st.steps && !s.MeasureStep? ==> Owned(v, st, s.alias.name))
    && (forall h :: h in st.hidden ==> HiddenShape(h) && h !in c.reserved)
  }

  /** Every name stands for a computed column; one that cannot be delimited, only for its own. */
  ghost predicate Knows(c: Config, d: Dict, env: Env) {
    && (forall k :: k in d.order ==> k in d.at)
    && (forall k :: k in d.at ==> k in d.order && d.at[k] in env && (Bounded(k) || d.at[k] == Alias(c.model, k)))
  }

  /** Every aggregate is surfaced under an alias that holds it. */
  ghost predicate Surfaces(st: State, env: Env) {
    && (forall r :: r in st.canon ==>
          st.canon[r] in env && env[st.canon[r]] == AggValue(r) && IsIdentifier(st.canon[r].name))
    && (forall s :: s in st.steps && s.MeasureStep? ==> s.ref in st.canon && st.canon[s.ref] == s.alias)
  }

  ghost predicate Computed(c: Config, st: State) {
    Run(st.steps).Some? && Surfaces(st, Run(st.steps).value) && Knows(c, st.known, Run(st.steps).value)
  }

  ghost predicate Sound(c: Config, v: Scope, st: State) {
    Named(c, v, st) && Computed(c, st)
  }

  lemma StartIsSound(c: Config, v: Scope)
    ensures Sound(c, v, START)
  {
  }

  /** No column has this name yet. */
  predicate Unused(st: State, n: string) {
    forall s :: s in st.steps ==> s.alias.name != n
  }

  /** A made-up name is not a measure's. */
  lemma OwnedIsNoMeasure(c: Config, v: Scope, st: State, n: string)
    requires WellNamed(c, v) && Named(c, v, st) && Owned(v, st, n)
    ensures forall s :: s in st.steps && s.MeasureStep? ==> s.alias.name != n
    ensures forall r :: r in v.refs ==> Canonical(r) != n
    ensures !("__agg" <= n)
  {
    if Core(n) in st.hidden { HiddenIsCore(Core(n)); }
    if "__agg" <= n { AggIsCore(n); }
  }

  lemma AggIsCore(n: string)
    requires "__agg" <= n
    ensures Core(n) == n && !HiddenShape(n)
  {
    assert n[1] == "__agg"[1] && "_inner_"[1] == 'i' && "_ts_"[1] == 't';
  }

  // -------------------------------------------------------------- operations

  lemma PutIsKnown(c: Config, d: Dict, env: Env, k: string, a: Alias, env': Env)
    requires Knows(c, d, env) && env.Keys <= env'.Keys && a in env' && (Bounded(k) || a == Alias(c.model, k))
    ensures Knows(c, Put(d, k, a), env')
  {
    var d' := Put(d, k, a);
    forall n | n in d'.at
      ensures n in d'.order && d'.at[n] in env' && (Bounded(n) || d'.at[n] == Alias(c.model, n))
    {
      if n !in d.at {
        assert d'.order[|d.order|] == n;
      } else {
        var i :| 0 <= i < |d.order| && d.order[i] == n;
        assert d'.order[i] == n;
      }
    }
  }

  /** Adding a column under a new name of a formula. */
  lemma EmitIsSound(c: Config, v: Scope, st: State, s: Step, st': State)
    requires WellNamed(c, v) && Sound(c, v, st) && !s.MeasureStep? && s.alias.model == c.model
    requires Owned(v, st, s.alias.name) && Unused(st, s.alias.name)
    requires StepValue(s, Run(st.steps).value).Some?
    requires st' == st.(steps := st.steps + [s], known := Put(st.known, s.alias.name, s.alias))
    ensures Sound(c, v, st')
    ensures Run(st'.steps).value == Run(st.steps).value[s.alias := StepValue(s, Run(st.steps).value).value]
  {
    RunSnoc(st.steps, s);
    RunAliases(st.steps);
    PutIsKnown(c, st.known, Run(st.steps).value, s.alias.name, s.alias, Run(st'.steps).value);
    EmitNamed(c, v, st, s, st');
  }

  lemma EmitNamed(c: Config, v: Scope, st: State, s: Step, st': State)
    requires Named(c, v, st) && s.alias.model == c.model && st'.hidden == st.hidden && st'.steps == st.steps + [s]
    requires if s.MeasureStep? then MeasureNamed(v, s) else Owned(v, st, s.alias.name)
    ensures Named(c, v, st')
  {
  }

  /** How a state grows while a formula is lowered under a name. */
  ghost predicate Grows(st: State, st': State, field: string) {
    && st.steps <= st'.steps && st.hidden <= st'.hidden && st.canon.Items <= st'.canon.Items
    && (forall i :: |st.steps| <= i < |st'.steps| ==> NewName(st, st', field, st'.steps[i]))
  }

  /** Nothing but measures was added. */
  ghost predicate AddsMeasures(st: State, st': State) {
    && st.steps <= st'.steps && st.hidden == st'.hidden && st.canon.Items <= st'.canon.Items
    && (forall i :: |st.steps| <= i < |st'.steps| ==> st'.steps[i].MeasureStep?)
  }

  predicate NewName(st: State, st': State, field: string, s: Step) {
    || s.MeasureStep?
    || (Core(s.alias.name) == Core(field) && |s.alias.name| >= |field|)
    || (Core(s.alias.name) in st'.hidden && Core(s.alias.name) !in st.hidden)
  }

  /** No name of the formula's family is taken yet. */
  predicate Fresh(st: State, field: string) {
    forall s :: s in st.steps && !s.MeasureStep? ==> Core(s.alias.name) != Core(field)
  }

  /** The name stands for its aggregate. */
  predicate StandsFor(st: State, refs: AggRefs, n: string)
    requires n in refs
  {
    n in st.known.at && refs[n] in st.canon && st.known.at[n] == st.canon[refs[n]]
  }

  /** Whatever names stood for their aggregates still do. */
  predicate KeepsNames(st: State, st': State, refs: AggRefs) {
    forall n :: n in refs && StandsFor(st, refs, n) ==> StandsFor(st', refs, n)
  }

  lemma EnsureIsSound(c: Config, v: Scope, st: State, key: string, ref: AggRef, st': State, refs: AggRefs)
    requires WellNamed(c, v) && Sound(c, v, st) && ref in v.refs && Bounded(key)
    requires Ensure(c, st, key, ref) == Ok(st')
    requires key in refs ==> refs[key] == ref
    ensures Sound(c, v, st')
    ensures ref in st'.canon && key in st'.known.at && st'.known.at[key] == st'.canon[ref]
    ensures AddsMeasures(st, st') && KeepsNames(st, st', refs)
  {
    if ref in st.canon {
      ReuseIsSound(c, v, st, key, ref, st');
    } else {
      MeasureIsNew(c, v, st, ref);
      NewMeasureIsSound(c, v, st, key, ref, st');
    }
  }

  lemma ReuseIsSound(c: Config, v: Scope, st: State, key: string, ref: AggRef, st': State)
    requires Sound(c, v, st) && ref in st.canon && Bounded(key)
    requires Ensure(c, st, key, ref) == Ok(st')
    ensures Sound(c, v, st')
  {
    PutIsKnown(c, st.known, Run(st.steps).value, key, st.canon[ref], Run(st.steps).value);
  }

  /** An aggregate that is not surfaced has no measure under its canonical name either. */
  lemma MeasureIsNew(c: Config, v: Scope, st: State, ref: AggRef)
    requires WellNamed(c, v) && Sound(c, v, st) && ref in v.refs && ref !in st.canon
    ensures !HasMeasure(st.steps, Alias(c.model, Canonical(ref)))
  {
    forall s | s in st.steps && s.MeasureStep? ensures s.alias != Alias(c.model, Canonical(ref)) {
      assert s.ref != ref && s.ref in v.refs;
    }
  }

  lemma NewMeasureIsSound(c: Config, v: Scope, st: State, key: string, ref: AggRef, st': State)
    requires WellNamed(c, v) && Sound(c, v, st) && ref in v.refs && Bounded(key)
    requires ref !in st.canon && !HasMeasure(st.steps, Alias(c.model, Canonical(ref)))
    requires Ensure(c, st, key, ref) == Ok(st')
    ensures Sound(c, v, st')
  {
    var alias, env := Alias(c.model, Canonical(ref)), Run(st.steps).value;
    var s := MeasureStep(alias, ref);
    RunSnoc(st.steps, s);
    RunAliases(st.steps);
    CanonicalIsNew(c, v, st, ref);
    NewMeasureSurfaces(st, env, s, st');
    PutIsKnown(c, st.known, env, key, alias, env[alias := AggValue(ref)]);
    EmitNamed(c, v, st, s, st');
  }

  lemma NewMeasureSurfaces(st: State, env: Env, s: Step, st': State)
    requires Surfaces(st, env) && s.MeasureStep? && s.alias !in env && s.ref !in st.canon && IsIdentifier(s.alias.name)
    requires st'.steps == st.steps + [s] && st'.canon == st.canon[s.ref := s.alias]
    ensures Surfaces(st', env[s.alias := AggValue(s.ref)])
  {
  }

  lemma CanonicalIsNew(c: Config, v: Scope, st: State, ref: AggRef)
    requires WellNamed(c, v) && Named(c, v, st) && ref in v.refs
      && !HasMeasure(st.steps, Alias(c.model, Canonical(ref)))
    ensures forall s :: s in st.steps ==> s.alias != Alias(c.model, Canonical(ref))
  {
    forall s | s in st.steps ensures s.alias != Alias(c.model, Canonical(ref)) {
      if !s.MeasureStep? { OwnedIsNoMeasure(c, v, st, s.alias.name); }
    }
  }

  lemma {:induction false} EnsureAllIsSound(
    c: Config, v: Scope, st: State, names: seq<string>, some: AggRefs, refs: AggRefs, st': State)
    requires WellNamed(c, v) && Sound(c, v, st) && IsScoped(v, refs) && some.Items <= refs.Items
    requires EnsureAll(c, st, names, some) == Ok(st')
    ensures Sound(c, v, st')
    ensures forall n :: n in names ==> n in some && n in refs && StandsFor(st', refs, n)
    ensures AddsMeasures(st, st') && KeepsNames(st, st', refs)
    decreases |names|
  {
    if names != [] {
      var n, st1 := names[0], Ensure(c, st, names[0], some[names[0]]).value;
      assert (n, some[n]) in some.Items;
      EnsureIsSound(c, v, st, n, some[n], st1, refs);
      EnsureAllIsSound(c, v, st1, names[1..], some, refs, st');
      assert StandsFor(st1, refs, n);
    }
  }

  /** The aggregates behind a formula's placeholders are the query's. */
  ghost predicate IsScoped(v: Scope, refs: AggRefs) {
    IsRefs(refs) && forall n :: n in refs ==> Bounded(n) && refs[n] in v.refs
  }
}
