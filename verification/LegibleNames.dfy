/** Names that lowering can always write into an expression: letters, digits and underscores, which
    are what every measure with a name of its own has. */
module LegibleNames {
  import opened Models
  import opened Formulas
  import opened FormulaParsing
  import opened Rewriting
  import opened Lowering
  import opened LoweringScopes
  import opened LoweringMeaning
  import opened LoweringCorrect
  import opened LoweringLimits

  predicate NoDots(d: Dict) {
    forall k :: k in d.order ==> StartsPlain(k)
  }

  predicate StartsPlain(n: string) {
    n == "" || n[0] != '.'
  }

  lemma PlainIsReadable(d: Dict, n: string)
    requires n in d.order && n in d.at && Bounded(n) && NoDots(d) && IsWord(d.at[n].model) && IsWord(d.at[n].name)
    ensures Readable(d, n)
  {
    ByLengthFalls(d.order);
    AfterIsIn(ByLength(d.order), n);
    forall k | k in After(ByLength(d.order), n) ensures !Stands(k, InQuotes(d.at[n])) { WordsAreWhole(d.at[n], k); }
  }

  /** A change or an expression around transforms is somewhere inside: what hidden names are made for. */
  predicate NeedsHidden(spec: Spec) {
    spec.Mixed? || (spec.TransformSpec? && (spec.fn in CHANGES || NeedsHidden(spec.inner)))
  }

  /** The query's names are plain where they have to be. */
  ghost predicate Plain(c: Config, spec: Spec, field: string, st: State) {
    IsWord(c.model) && StartsPlain(field) && (NeedsHidden(spec) ==> IsWord(field)) && NoDots(st.known)
  }

  lemma {:induction false} EnsureAllNoDots(c: Config, st: State, names: seq<string>, refs: AggRefs, st': State)
    requires EnsureAll(c, st, names, refs) == Ok(st') && NoDots(st.known) && forall n :: n in names ==> StartsPlain(n)
    ensures NoDots(st'.known)
    decreases |names|
  {
    if names != [] {
      EnsureAllNoDots(c, Ensure(c, st, names[0], refs[names[0]]).value, names[1..], refs, st');
    }
  }

  lemma CanonIsPlain(c: Config, v: Scope, st: State, r: AggRef)
    requires Sound(c, v, st) && r in st.canon
    ensures st.canon[r].model == c.model && IsIdentifier(st.canon[r].name)
  {
    RunAliases(st.steps);
  }

  /** Names that stand for their aggregates can be read. */
  lemma RefsAreReadable(c: Config, v: Scope, st: State, refs: AggRefs, d: Dict, names: seq<string>)
    requires Sound(c, v, st) && IsScoped(v, refs) && IsWord(c.model) && NoDots(d) && Listed(d)
    requires forall n :: n in names ==> n in refs && StandsFor(st, refs, n) && n in d.at && d.at[n] == st.known.at[n]
    ensures AllReadable(d, names)
  {
    forall n | n in names ensures Readable(d, n) {
      CanonIsPlain(c, v, st, refs[n]);
      PlainIsReadable(d, n);
    }
  }

  lemma RefsStartPlain(v: Scope, refs: AggRefs)
    requires IsScoped(v, refs)
    ensures forall n :: n in refs ==> StartsPlain(n)
  {
  }

  // ----------------------------------------------------------- made-up names

  lemma {:induction false} DecimalIsWord(n: nat)
    ensures IsWord(Decimal(n))
  {
    if n >= 10 { DecimalIsWord(n / 10); }
  }

  lemma WordsJoin(s: string, t: string)
    requires IsWord(s) && IsWord(t)
    ensures IsWord(s + t)
  {
  }

  lemma CandidateIsWord(k: nat, field: string, j: nat)
    requires IsWord(field)
    ensures IsWord(Candidate(Placeholder(k) + "_" + field, j)) && IsIdentifier(Placeholder(k))
  {
    DecimalIsWord(k);
    DecimalIsWord(j + 1);
    WordsJoin("_t", Decimal(k));
    WordsJoin(Placeholder(k), "_");
    WordsJoin(Placeholder(k) + "_", field);
    if j > 0 {
      WordsJoin(Placeholder(k) + "_" + field, "_");
      WordsJoin(Placeholder(k) + "_" + field + "_", Decimal(j + 1));
    }
  }

  lemma HiddenIsWord(c: Config, st: State, k: nat, field: string)
    requires IsWord(field)
    ensures IsIdentifier(Allocate(c, st, Placeholder(k) + "_" + field))
  {
    var name := Allocate(c, st, Placeholder(k) + "_" + field);
    var j: nat :| name == Candidate(Placeholder(k) + "_" + field, j);
    CandidateIsWord(k, field, j);
  }

  lemma PrefixedIsWord(field: string)
    requires IsWord(field)
    ensures IsIdentifier("_inner_" + field) && IsIdentifier("_ts_" + field)
  {
    WordsJoin("_inner_", field);
    WordsJoin("_ts_", field);
  }

  lemma WordIsBounded(n: string)
    requires IsIdentifier(n)
    ensures Bounded(n) && StartsPlain(n)
  {
    assert n[0] in n && n[|n| - 1] in n;
  }

  lemma PutNoDots(d: Dict, k: string, a: Alias)
    requires NoDots(d) && StartsPlain(k)
    ensures NoDots(Put(d, k, a))
  {
  }

  lemma {:induction false} BindAllNoDots(d: Dict, bindings: seq<Binding>)
    requires NoDots(d) && forall b :: b in bindings ==> StartsPlain(b.name)
    ensures NoDots(BindAll(d, bindings))
    decreases |bindings|
  {
    if bindings != [] {
      assert bindings == [bindings[0]] + bindings[1..];
      BindAllNoDots(Put(d, bindings[0].name, bindings[0].alias), bindings[1..]);
    }
  }

  // ------------------------------------------------------------------ changes

  /** The operand of a transform has a plain alias. */
  predicate PlainAlias(c: Config, a: Alias) {
    a.model == c.model && IsIdentifier(a.name)
  }

  lemma InnerIsPlain(
    c: Config, v: Scope, st: State, inner: Spec, field: string, refs: AggRefs, st1: State, input: Alias)
    requires WellNamed(c, v) && Sound(c, v, st) && IsScoped(v, refs) && Consistent(v, inner, refs) && IsWord(field)
    requires Flatten(c, inner, "_inner_" + field, st) == Ok((st1, input)) && Sound(c, v, st1)
    ensures PlainAlias(c, input)
  {
    PrefixedIsWord(field);
    if inner.AggSpec? {
      EnsureIsSound(c, v, st, Canonical(inner.ref), inner.ref, st1, map[]);
      CanonIsPlain(c, v, st1, inner.ref);
    }
  }

  /** Whatever name stands for a plain alias can be delimited. */
  lemma KeyIsReadable(c: Config, d: Dict, env: Env, key: string, input: Alias)
    requires Knows(c, d, env) && key in d.at && d.at[key] == input && PlainAlias(c, input) && IsWord(c.model)
      && NoDots(d)
    ensures Readable(d, key)
  {
    if !Bounded(key) { WordIsBounded(input.name); }
    PlainIsReadable(d, key);
  }

  lemma PlainChange(
    c: Config, v: Scope, st: State, spec: Spec, field: string, refs: AggRefs, st1: State, input: Alias)
    requires WellNamed(c, v) && Sound(c, v, st) && IsScoped(v, refs) && spec.TransformSpec? && spec.fn in CHANGES
    requires Owned(v, st, field) && Fresh(st, field) && IsWord(c.model) && IsWord(field) && NoDots(st1.known)
    requires Flatten(c, spec.inner, "_inner_" + field, st) == Ok((st1, input)) && PlainAlias(c, input)
    requires SpecMeaning(c.grouping, spec.inner).Some?
    requires Lowered(c, v, st, st1, "_inner_" + field, refs, input, SpecMeaning(c.grouping, spec.inner).value)
    ensures LegibleChange(c, st1, field, spec.params, input)
  {
    var shift := ShiftStep(c, field, spec.params, input);
    var st2 := st1.(steps := st1.steps + [shift], known := Put(st1.known, shift.alias.name, shift.alias));
    ChangeNamesAreUnused(c, v, st, st1, field);
    InnerGrows(st, st1, field);
    ShiftIsAdded(c, v, st, st1, shift, st2, field, refs);
    PrefixedIsWord(field);
    WordIsBounded("_ts_" + field);
    PutNoDots(st1.known, "_ts_" + field, shift.alias);
    PlainIsReadable(st2.known, "_ts_" + field);
    var key := FirstKey(st2.known.order, st2.known.at, input);
    if key.Some? { KeyIsReadable(c, st2.known, Run(st2.steps).value, key.value, input); }
  }

  /** No name shorter than `n` that is known stands inside its quoted alias. */
  ghost predicate Undisturbed(order: seq<string>, n: string, a: Alias) {
    forall k :: k in order && |k| < |n| ==> !Stands(k, InQuotes(a))
  }

  /** The change of an aggregate is computed exactly if a word boundary can follow its name, and no
      shorter name known so far, nor the aggregate's own, stands inside the shift's quoted alias. */
  lemma AggregateChangeIsComputed(
    c: Config, v: Scope, spec: Spec, r: AggRef, field: string, refs: AggRefs, st: State, st': State, a: Alias,
    shifted: string)
    requires WellNamed(c, v) && Sound(c, v, st) && IsScoped(v, refs) && r in v.refs
    requires spec.TransformSpec? && spec.fn in CHANGES && spec.inner == AggSpec(r)
    requires Owned(v, st, field) && Fresh(st, field) && shifted == "_ts_" + field && shifted !in st.known.at
    requires IsWord(c.model) && NoDots(st.known) && Flatten(c, spec, field, st) == Ok((st', a))
    ensures Run(st'.steps).Some? <==>
      EndsInWord(field) && Undisturbed(st.known.order + [Canonical(r)], shifted, Alias(c.model, shifted))
  {
    var first := Flatten(c, AggSpec(r), "_inner_" + field, st).value;
    RunsIfLegible(c, v, spec, r, field, refs, st, st', a, first.0, first.1);
    OperandIsPlain(c, v, r, field, refs, st, first.0, first.1, shifted);
    KeyAndShift(
      c, first.0, field, spec.params, first.1, Run(first.0.steps).value, Canonical(r), shifted,
      Alias(c.model, shifted));
    SameNames(c, st, r, first.0, shifted, Alias(c.model, shifted));
  }

  lemma RunsIfLegible(
    c: Config, v: Scope, spec: Spec, r: AggRef, field: string, refs: AggRefs, st: State, st': State, a: Alias,
    st1: State, input: Alias)
    requires WellNamed(c, v) && Sound(c, v, st) && IsScoped(v, refs) && r in v.refs
    requires spec.TransformSpec? && spec.fn in CHANGES && spec.inner == AggSpec(r)
    requires Owned(v, st, field) && Fresh(st, field) && Flatten(c, spec, field, st) == Ok((st', a))
    requires Flatten(c, AggSpec(r), "_inner_" + field, st) == Ok((st1, input))
    ensures Run(st'.steps).Some? <==> LegibleChange(c, st1, field, spec.params, input)
  {
    assert Consistent(v, spec.inner, refs);
    assert SpecMeaning(c.grouping, spec.inner).Some?;
    ChangeValue(c.grouping, spec);
    AggregateIsLegible(c, spec, r, field, st, st1, input);
    FlattenMeans(c, v, spec, field, st, refs, st', a);
    if Hopeless(st'.steps) { HopelessIsNotRun(st'.steps); }
  }

  lemma AggregateIsLegible(c: Config, spec: Spec, r: AggRef, field: string, st: State, st1: State, input: Alias)
    requires spec.TransformSpec? && spec.fn in CHANGES && spec.inner == AggSpec(r)
    requires Flatten(c, AggSpec(r), "_inner_" + field, st) == Ok((st1, input))
    ensures Legible(c, spec, field, st) <==> LegibleChange(c, st1, field, spec.params, input)
  {
    assert Legible(c, spec.inner, "_inner_" + field, st);
  }

  lemma OperandIsPlain(
    c: Config, v: Scope, r: AggRef, field: string, refs: AggRefs, st: State, st1: State, input: Alias, shifted: string)
    requires WellNamed(c, v) && Sound(c, v, st) && IsScoped(v, refs) && r in v.refs && NoDots(st.known)
    requires Owned(v, st, field) && Fresh(st, field) && shifted == "_ts_" + field && shifted !in st.known.at
    requires Flatten(c, AggSpec(r), "_inner_" + field, st) == Ok((st1, input))
    ensures Sound(c, v, st1) && PlainAlias(c, input) && NoDots(st1.known) && input != Alias(c.model, shifted)
    ensures shifted !in st1.known.at && Canonical(r) in st1.known.at && st1.known.at[Canonical(r)] == input
  {
    EnsureGives(c, v, r, st, st1, shifted);
    CoreOf(field);
    OwnedIsNoMeasure(c, v, st, shifted);
    ShiftIsNew(c, v, field, st, st1, input, shifted);
  }

  lemma EnsureGives(c: Config, v: Scope, r: AggRef, st: State, st1: State, other: string)
    requires WellNamed(c, v) && Sound(c, v, st) && r in v.refs && NoDots(st.known)
    requires Ensure(c, st, Canonical(r), r) == Ok(st1)
    ensures Sound(c, v, st1) && AddsMeasures(st, st1) && NoDots(st1.known) && r in st1.canon
      && Canonical(r) in st1.known.at
    ensures st1.known.at[Canonical(r)] == st1.canon[r] && PlainAlias(c, st1.canon[r])
    ensures st1.canon[r] in Run(st1.steps).value
    ensures other !in st.known.at && other != Canonical(r) ==> other !in st1.known.at
  {
    WordIsBounded(Canonical(r));
    EnsureIsSound(c, v, st, Canonical(r), r, st1, map[]);
    CanonIsPlain(c, v, st1, r);
  }

  lemma ShiftIsNew(c: Config, v: Scope, field: string, st: State, st1: State, input: Alias, shifted: string)
    requires WellNamed(c, v) && Named(c, v, st1) && Owned(v, st, field) && Fresh(st, field) && AddsMeasures(st, st1)
    requires Core(shifted) == Core(field) && Run(st1.steps).Some? && input in Run(st1.steps).value
    ensures input != Alias(c.model, shifted)
  {
    MeasuresGrow(c, v, st, st1, shifted);
    FreshIsUnused(c, v, st1, shifted);
    InputIsEarlier(c, st1, input, Alias(c.model, shifted));
  }

  lemma SameNames(c: Config, st: State, r: AggRef, st1: State, shifted: string, alias: Alias)
    requires Ensure(c, st, Canonical(r), r) == Ok(st1) && (forall k :: k in st.known.at ==> k in st.known.order)
    ensures Undisturbed(st1.known.order, shifted, alias) <==>
      Undisturbed(st.known.order + [Canonical(r)], shifted, alias)
  {
    assert forall k :: k in st1.known.order <==> k in st.known.order + [Canonical(r)];
  }

  lemma KeyAndShift(
    c: Config, st1: State, field: string, p: Params, input: Alias, env: Env, key: string, shifted: string, alias: Alias)
    requires Knows(c, st1.known, env) && PlainAlias(c, input) && IsWord(c.model) && NoDots(st1.known)
    requires shifted == "_ts_" + field && alias == Alias(c.model, shifted) && input != alias
    requires shifted !in st1.known.at && key in st1.known.at && st1.known.at[key] == input
    requires AddTransform(
      c, st1, shifted, "time_shift", Params(p.extra, [], None), ShiftOf(c.grouping, p), input).Ok?
    ensures LegibleChange(c, st1, field, p, input) <==>
      EndsInWord(field) && Undisturbed(st1.known.order, shifted, alias)
  {
    var known := Put(st1.known, shifted, alias);
    InnerStartsPlain(field);
    PutNoDots(st1.known, shifted, alias);
    InputHasAKey(st1.known, key, input, shifted, alias);
    var found := FirstKey(known.order, known.at, input).value;
    KeyIsFound(c, st1.known, env, found, input, shifted, alias);
    ChangeLegibility(c, st1, field, p, input, shifted, alias, found);
    ShiftIsReadable(st1.known, field, shifted, alias);
  }

  lemma ChangeLegibility(
    c: Config, st1: State, field: string, p: Params, input: Alias, shifted: string, alias: Alias, found: string)
    requires shifted == "_ts_" + field && alias == Alias(c.model, shifted)
    requires AddTransform(
      c, st1, shifted, "time_shift", Params(p.extra, [], None), ShiftOf(c.grouping, p), input).Ok?
    requires var known := Put(st1.known, shifted, alias); FirstKey(known.order, known.at, input) == Some(found)
    ensures LegibleChange(c, st1, field, p, input) <==>
      Readable(Put(st1.known, shifted, alias), found) && Readable(Put(st1.known, shifted, alias), shifted)
  {
  }

  lemma ShiftIsReadable(d: Dict, field: string, shifted: string, alias: Alias)
    requires (forall k :: k in d.order <==> k in d.at) && shifted !in d.at && shifted == "_ts_" + field
    ensures Readable(Put(d, shifted, alias), shifted) <==> EndsInWord(field) && Undisturbed(d.order, shifted, alias)
  {
    ShiftIsBounded(field);
    ShiftIsWhole(d, shifted, alias);
    assert shifted in Put(d, shifted, alias).order;
  }

  lemma ShiftIsWhole(d: Dict, shifted: string, alias: Alias)
    requires (forall k :: k in d.order <==> k in d.at) && shifted !in d.at
    ensures Whole(Put(d, shifted, alias), shifted) <==> Undisturbed(d.order, shifted, alias)
  {
    var known := Put(d, shifted, alias);
    assert known.order == d.order + [shifted] && known.order[..|known.order| - 1] == d.order;
    NewestIsWhole(known, shifted);
  }

  lemma KeyIsFound(c: Config, d: Dict, env: Env, found: string, input: Alias, shifted: string, alias: Alias)
    requires Knows(c, d, env) && PlainAlias(c, input) && IsWord(c.model) && input != alias
    requires NoDots(Put(d, shifted, alias)) && found in Put(d, shifted, alias).at
    requires Put(d, shifted, alias).at[found] == input
    ensures Readable(Put(d, shifted, alias), found)
  {
    if !Bounded(found) { WordIsBounded(input.name); }
    PlainIsReadable(Put(d, shifted, alias), found);
  }

  // -------------------------------------------------------- mixed expressions

  /** The placeholders' transforms have plain aliases. */
  ghost predicate PlainBindings(c: Config, subs: seq<Sub>, bindings: seq<Binding>) {
    |bindings| == |subs| &&
    forall i :: 0 <= i < |subs| ==> bindings[i].name == subs[i].placeholder && PlainAlias(c, bindings[i].alias)
  }

  lemma PlainMixed(
    c: Config, v: Scope, spec: Spec, refs: AggRefs, st1: State, st2: State, bindings: seq<Binding>)
    requires Sound(c, v, st2) && IsScoped(v, refs) && Consistent(v, spec, refs) && spec.Mixed? && IsWord(c.model)
    requires forall n :: n in spec.names ==> n in refs && StandsFor(st1, refs, n)
    requires SubsLowered(c, v, st1, spec.subs, st2, refs, bindings)
    requires PlainBindings(c, spec.subs, bindings) && NoDots(st2.known)
    ensures LegibleMixed(BindAll(st2.known, bindings), spec.names, spec.subs)
    ensures RestoreAll(BindAll(st2.known, bindings), bindings, Shadowed(st2.known, bindings)) == st2.known
  {
    var bound := BindAll(st2.known, bindings);
    BindingsAreDistinct(c, st2, spec.subs, bindings);
    BindingsAreRestored(st2.known, bindings);
    BindAllAt(st2.known, bindings);
    BindAllLists(st2.known, bindings);
    forall b | b in bindings ensures StartsPlain(b.name) { PlaceholderIsPlain(b.name); }
    BindAllNoDots(st2.known, bindings);
    forall n | n in spec.names ensures n in bound.at && bound.at[n] == st2.known.at[n] { RefIsNoPlaceholder(n); }
    RefsAreReadable(c, v, st2, refs, bound, spec.names);
    forall s | s in spec.subs ensures Readable(bound, s.placeholder) {
      var i :| 0 <= i < |spec.subs| && spec.subs[i] == s;
      assert bindings[i] in bindings;
      PlaceholderIsPlain(s.placeholder);
      PlainIsReadable(bound, s.placeholder);
    }
  }

  lemma PlaceholderIsPlain(n: string)
    requires IsPlaceholder(n)
    ensures Bounded(n) && StartsPlain(n)
  {
    var k: nat :| n == Placeholder(k);
    CandidateIsWord(k, "", 0);
    WordIsBounded(n);
  }

  // -------------------------------------------------------------- all formulas

  /** Under a plain name every name that lowering writes is legible. A formula that needs no hidden
      columns may have any name that does not start with a dot. */
  lemma {:induction false} PlainIsLegible(c: Config, v: Scope, spec: Spec, field: string, st: State, refs: AggRefs)
    requires WellNamed(c, v) && Sound(c, v, st) && IsScoped(v, refs) && Consistent(v, spec, refs)
    requires Owned(v, st, field) && Fresh(st, field) && Plain(c, spec, field, st)
    requires SpecMeaning(c.grouping, spec).Some?
    ensures Legible(c, spec, field, st)
    ensures var r := Flatten(c, spec, field, st); r.Ok? ==> NoDots(r.value.0.known)
    decreases spec, 2
  {
    match spec
    case AggSpec(r) =>
      var e := Ensure(c, st, Canonical(r), r);
      WordIsBounded(Canonical(r));
    case Arithmetic(_, _, _, _) => PlainArithmetic(c, v, spec, field, st, refs);
    case Mixed(_, _, _, _, _) => PlainMixedIsLegible(c, v, spec, field, st, refs);
    case TransformSpec(fn, inner, p) =>
      CoreOf(field);
      InnerStartsPlain(field);
      if NeedsHidden(inner) { PrefixedIsWord(field); }
      PlainIsLegible(c, v, inner, "_inner_" + field, st, refs);
      var r := Flatten(c, inner, "_inner_" + field, st);
      if r.Ok? {
        if fn in CHANGES { PlainChangeAfter(c, v, st, spec, field, refs, r.value.0, r.value.1); }
        TransformNoDots(c, spec, field, st, r.value.0, r.value.1);
      }
  }

  lemma PlainMeasures(
    c: Config, v: Scope, names: seq<string>, own: AggRefs, st: State, refs: AggRefs, st1: State)
    requires WellNamed(c, v) && Sound(c, v, st) && IsScoped(v, refs) && own.Items <= refs.Items && NoDots(st.known)
    requires EnsureAll(c, st, names, own) == Ok(st1)
    ensures Sound(c, v, st1) && NoDots(st1.known) && Listed(st1.known)
    ensures forall n :: n in names ==> n in refs && StandsFor(st1, refs, n)
  {
    EnsureAllIsSound(c, v, st, names, own, refs, st1);
    RefsStartPlain(v, refs);
    EnsureAllNoDots(c, st, names, own, st1);
  }

  lemma PlainArithmetic(c: Config, v: Scope, spec: Spec, field: string, st: State, refs: AggRefs)
    requires WellNamed(c, v) && Sound(c, v, st) && IsScoped(v, refs) && Consistent(v, spec, refs) && spec.Arithmetic?
    requires Plain(c, spec, field, st)
    ensures Legible(c, spec, field, st)
    ensures var r := Flatten(c, spec, field, st); r.Ok? ==> NoDots(r.value.0.known)
  {
    var e := EnsureAll(c, st, spec.names, spec.refs);
    if e.Ok? {
      PlainMeasures(c, v, spec.names, spec.refs, st, refs, e.value);
      RefsAreReadable(c, v, e.value, refs, e.value.known, spec.names);
      PutNoDots(e.value.known, field, Alias(c.model, field));
    }
  }

  lemma PlainChangeAfter(
    c: Config, v: Scope, st: State, spec: Spec, field: string, refs: AggRefs, st1: State, input: Alias)
    requires WellNamed(c, v) && Sound(c, v, st) && IsScoped(v, refs) && spec.TransformSpec? && spec.fn in CHANGES
    requires Consistent(v, spec.inner, refs) && SpecMeaning(c.grouping, spec.inner).Some?
    requires Owned(v, st, field) && Fresh(st, field) && IsWord(c.model) && IsWord(field) && NoDots(st1.known)
    requires Flatten(c, spec.inner, "_inner_" + field, st) == Ok((st1, input))
    requires Legible(c, spec.inner, "_inner_" + field, st)
    ensures LegibleChange(c, st1, field, spec.params, input)
  {
    CoreOf(field);
    FlattenMeans(c, v, spec.inner, "_inner_" + field, st, refs, st1, input);
    InnerIsPlain(c, v, st, spec.inner, field, refs, st1, input);
    PlainChange(c, v, st, spec, field, refs, st1, input);
  }

  lemma InnerStartsPlain(field: string)
    ensures StartsPlain("_inner_" + field) && StartsPlain("_ts_" + field)
  {
    assert ("_inner_" + field)[0] == '_' && ("_ts_" + field)[0] == '_';
  }

  lemma TransformNoDots(c: Config, spec: Spec, field: string, st: State, st1: State, input: Alias)
    requires spec.TransformSpec? && Flatten(c, spec.inner, "_inner_" + field, st) == Ok((st1, input))
    requires NoDots(st1.known) && StartsPlain(field)
    ensures var r := Flatten(c, spec, field, st); r.Ok? ==> NoDots(r.value.0.known)
  {
    InnerStartsPlain(field);
  }

  lemma {:induction false} PlainMixedIsLegible(c: Config, v: Scope, spec: Spec, field: string, st: State, refs: AggRefs)
    requires WellNamed(c, v) && Sound(c, v, st) && IsScoped(v, refs) && Consistent(v, spec, refs) && spec.Mixed?
    requires Owned(v, st, field) && Fresh(st, field) && Plain(c, spec, field, st)
    requires SpecMeaning(c.grouping, spec).Some?
    ensures Legible(c, spec, field, st)
    ensures var r := Flatten(c, spec, field, st); r.Ok? ==> NoDots(r.value.0.known)
    decreases spec, 1
  {
    var e := EnsureAll(c, st, spec.names, spec.refs);
    if e.Ok? {
      PlainMeasures(c, v, spec.names, spec.refs, st, refs, e.value);
      SubsHaveMeanings(c.grouping, spec);
      PlainSubsOfMixed(c, v, spec, field, refs, e.value);
      MixedIsLegible(c, spec, field, st, e.value);
    }
  }

  lemma SubsHaveMeanings(g: Grouping, spec: Spec)
    requires spec.Mixed? && SpecMeaning(g, spec).Some?
    ensures SubMeanings(g, spec.subs).Some?
  {
  }

  lemma MixedIsLegible(c: Config, spec: Spec, field: string, st: State, st1: State)
    requires spec.Mixed? && EnsureAll(c, st, spec.names, spec.refs) == Ok(st1) && StartsPlain(field)
    requires LegibleSubs(c, spec.subs, field, st1)
    requires var r := FlattenSubs(c, spec.subs, field, st1);
      r.Ok? ==>
        var bound := BindAll(r.value.0.known, r.value.1);
        && LegibleMixed(bound, spec.names, spec.subs) && NoDots(r.value.0.known)
        && RestoreAll(bound, r.value.1, Shadowed(r.value.0.known, r.value.1)) == r.value.0.known
    ensures Legible(c, spec, field, st)
    ensures var r := Flatten(c, spec, field, st); r.Ok? ==> NoDots(r.value.0.known)
  {
  }

  lemma {:induction false} PlainSubsOfMixed(c: Config, v: Scope, spec: Spec, field: string, refs: AggRefs, st1: State)
    requires WellNamed(c, v) && Sound(c, v, st1) && IsScoped(v, refs) && Consistent(v, spec, refs) && spec.Mixed?
    requires IsWord(c.model) && IsWord(field) && NoDots(st1.known) && SubMeanings(c.grouping, spec.subs).Some?
    requires forall n :: n in spec.names ==> n in refs && StandsFor(st1, refs, n)
    ensures LegibleSubs(c, spec.subs, field, st1)
    ensures var r := FlattenSubs(c, spec.subs, field, st1);
      r.Ok? ==>
        var bound := BindAll(r.value.0.known, r.value.1);
        && LegibleMixed(bound, spec.names, spec.subs) && NoDots(r.value.0.known)
        && RestoreAll(bound, r.value.1, Shadowed(r.value.0.known, r.value.1)) == r.value.0.known
    decreases spec, 0
  {
    NumberedCountsUp(spec.subs, 0);
    assert spec.subs[0..] == spec.subs;
    PlainSubsAreLegible(c, v, spec.subs, 0, field, st1, refs);
    var r := FlattenSubs(c, spec.subs, field, st1);
    if r.Ok? {
      FlattenSubsMean(c, v, spec.subs, 0, field, st1, refs, r.value.0, r.value.1);
      PlainMixed(c, v, spec, refs, st1, r.value.0, r.value.1);
    }
  }

  lemma {:induction false} PlainSubsAreLegible(
    c: Config, v: Scope, subs: seq<Sub>, from: nat, field: string, st: State, refs: AggRefs)
    requires WellNamed(c, v) && Sound(c, v, st) && IsScoped(v, refs) && AllConsistent(v, subs, refs)
    requires NumberedFrom(subs, from) && IsWord(c.model) && IsWord(field) && NoDots(st.known)
    requires SubMeanings(c.grouping, subs).Some?
    ensures LegibleSubs(c, subs, field, st)
    ensures var r := FlattenSubs(c, subs, field, st);
      r.Ok? ==> NoDots(r.value.0.known) && PlainBindings(c, subs, r.value.1)
    decreases subs, 0
  {
    if subs != [] {
      var name := Allocate(c, st, subs[0].placeholder + "_" + field);
      var sth := st.(hidden := st.hidden + {name});
      PlainSubIsLegible(c, v, subs[0], from, field, st, refs, name, sth);
      var r := Flatten(c, subs[0].spec, name, sth);
      if r.Ok? {
        PlainSubsAreLegible(c, v, subs[1..], from + 1, field, r.value.0, refs);
        var rest := FlattenSubs(c, subs[1..], field, r.value.0);
        if rest.Ok? { PlainBindingsCons(c, subs, Binding(subs[0].placeholder, r.value.1), rest.value.1); }
      }
    }
  }

  lemma {:induction false} PlainSubIsLegible(
    c: Config, v: Scope, s: Sub, k: nat, field: string, st: State, refs: AggRefs, name: string, sth: State)
    requires WellNamed(c, v) && Sound(c, v, st) && IsScoped(v, refs) && Consistent(v, s.spec, refs)
    requires s.spec.TransformSpec? && s.placeholder == Placeholder(k)
    requires IsWord(c.model) && IsWord(field) && NoDots(st.known) && SpecMeaning(c.grouping, s.spec).Some?
    requires name == Allocate(c, st, s.placeholder + "_" + field) && sth == st.(hidden := st.hidden + {name})
    ensures Legible(c, s.spec, name, sth)
    ensures var r := Flatten(c, s.spec, name, sth);
      r.Ok? ==> Sound(c, v, r.value.0) && NoDots(r.value.0.known) && PlainAlias(c, r.value.1)
    decreases s, 3
  {
    HiddenIsPlain(c, v, s.spec, k, field, st, name, sth);
    PlainIsLegible(c, v, s.spec, name, sth, refs);
    var r := Flatten(c, s.spec, name, sth);
    if r.Ok? { FlattenMeans(c, v, s.spec, name, sth, refs, r.value.0, r.value.1); }
  }

  lemma HiddenIsPlain(c: Config, v: Scope, spec: Spec, k: nat, field: string, st: State, name: string, sth: State)
    requires WellNamed(c, v) && Sound(c, v, st) && IsWord(c.model) && IsWord(field) && NoDots(st.known)
    requires name == Allocate(c, st, Placeholder(k) + "_" + field) && sth == st.(hidden := st.hidden + {name})
    ensures Sound(c, v, sth) && Owned(v, sth, name) && Fresh(sth, name) && Plain(c, spec, name, sth)
      && IsIdentifier(name)
  {
    HiddenIsFresh(c, v, st, k, field, name, sth);
    HiddenIsWord(c, st, k, field);
    WordIsBounded(name);
  }

  lemma PlainBindingsCons(c: Config, subs: seq<Sub>, b: Binding, rest: seq<Binding>)
    requires subs != [] && b.name == subs[0].placeholder && PlainAlias(c, b.alias) && PlainBindings(c, subs[1..], rest)
    ensures PlainBindings(c, subs, [b] + rest)
  {
    forall i | 0 <= i < |subs|
      ensures var own := ([b] + rest)[i]; own.name == subs[i].placeholder && PlainAlias(c, own.alias)
    {
      if i > 0 { assert subs[i] == subs[1..][i - 1] && ([b] + rest)[i] == rest[i - 1]; }
    }
  }
}
