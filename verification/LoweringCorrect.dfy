/** Parsing and then lowering a formula keeps its meaning. */
module LoweringCorrect {
  import opened Models
  import opened Formulas
  import opened FormulaParsing
  import opened Rewriting
  import opened Lowering
  import opened LoweringScopes
  import opened LoweringMeaning

  // ---------------------------------------------------------- parsed specs

  /** The formula uses the aggregate: itself, in its expression, or inside a transform. */
  predicate Uses(spec: Spec, r: AggRef)
    decreases spec, 1
  {
    match spec
    case AggSpec(own) => own == r
    case Arithmetic(sql, names, refs, _) => exists n :: n in names && n in refs && refs[n] == r
    case Mixed(sql, names, subs, refs, _) =>
      (exists n :: n in names && n in refs && refs[n] == r) || AnyUses(subs, r)
    case TransformSpec(_, inner, _) => Uses(inner, r)
  }

  predicate AnyUses(subs: seq<Sub>, r: AggRef)
    decreases subs, 0
  {
    subs != [] && (Uses(subs[0].spec, r) || AnyUses(subs[1..], r))
  }

  /** Dotted paths have a dot. */
  predicate WellDotted(a: Ast)
    decreases a, 1
  {
    match a
    case Dotted(path) => '.' in path
    case Op(_, _, args) => AllWellDotted(args)
    case Scalar(_, args) => AllWellDotted(args)
    case Transform(_, x, _) => WellDotted(x)
    case _ => true
  }

  predicate AllWellDotted(args: seq<Ast>)
    decreases args, 0
  {
    args == [] || (WellDotted(args[0]) && AllWellDotted(args[1..]))
  }

  /** What parsing says of a spec: its identifiers are exactly its names and its placeholders. */
  predicate Consistent(v: Scope, spec: Spec, refs: AggRefs)
    decreases spec, 1
  {
    match spec
    case AggSpec(r) => r in v.refs
    case Arithmetic(sql, names, own, _) => own.Items <= refs.Items && WordsIn(sql, names, []) && AllOccur(sql, names)
    case Mixed(sql, names, subs, own, _) =>
      && own.Items <= refs.Items && WordsIn(sql, names, subs) && AllOccur(sql, names) && AllPlaced(sql, subs)
      && Numbered(subs) && AllConsistent(v, subs, refs)
    case TransformSpec(_, inner, _) => Consistent(v, inner, refs)
  }

  predicate AllOccur(sql: Term, names: seq<string>) {
    forall n :: n in names ==> Occurs(sql, n)
  }

  predicate AllPlaced(sql: Term, subs: seq<Sub>) {
    forall s :: s in subs ==> Occurs(sql, s.placeholder)
  }

  predicate AllConsistent(v: Scope, subs: seq<Sub>, refs: AggRefs)
    decreases subs, 0
  {
    subs == [] ||
    (subs[0].spec.TransformSpec? && Consistent(v, subs[0].spec, refs) && AllConsistent(v, subs[1..], refs))
  }

  lemma {:induction false} WordsStay(t: Term, h: Hoisted, h': Hoisted)
    requires WordsIn(t, h.names, h.subs) && Extends(h, h')
    ensures WordsIn(t, h'.names, h'.subs)
    decreases t, 1
  {
    if t.Apply? {
      AllWordsStay(t.args, h, h');
    } else if t.Word? {
      if t.name in h.names {
        var i :| 0 <= i < |h.names| && h.names[i] == t.name;
        assert h'.names[i] == t.name;
      } else {
        var i :| 0 <= i < |h.subs| && h.subs[i].placeholder == t.name;
        assert h'.subs[i].placeholder == t.name;
      }
    }
  }

  lemma {:induction false} AllWordsStay(args: seq<Term>, h: Hoisted, h': Hoisted)
    requires AllWordsIn(args, h.names, h.subs) && Extends(h, h')
    ensures AllWordsIn(args, h'.names, h'.subs)
    decreases args, 0
  {
    if args != [] {
      WordsStay(args[0], h, h');
      AllWordsStay(args[1..], h, h');
    }
  }

  lemma {:induction false} TextIsConsistent(a: Ast, names: seq<string>)
    requires !HasCall(a) && (forall n :: n in NamesOf(a) ==> n in names)
    ensures WordsIn(ToTerm(a), names, [])
    decreases a, 1
  {
    if a.Op? { TextsAreConsistent(a.args, names); }
  }

  lemma {:induction false} TextsAreConsistent(args: seq<Ast>, names: seq<string>)
    requires !AnyHasCall(args) && (forall n :: n in NamesOfAll(args) ==> n in names)
    ensures AllWordsIn(ToTerms(args), names, [])
    decreases args, 0
  {
    if args != [] {
      TextIsConsistent(args[0], names);
      TextsAreConsistent(args[1..], names);
      assert ToTerms(args)[1..] == ToTerms(args[1..]);
    }
  }

  lemma {:induction false} TextOccurs(a: Ast, n: string)
    requires !HasCall(a) && WellDotted(a) && n in NamesOf(a) && '.' !in n
    ensures Occurs(ToTerm(a), n)
    decreases a, 1
  {
    if a.Op? { TextsOccur(a.args, n); }
  }

  lemma {:induction false} TextsOccur(args: seq<Ast>, n: string)
    requires !AnyHasCall(args) && AllWellDotted(args) && n in NamesOfAll(args) && '.' !in n
    ensures AnyOccurs(ToTerms(args), n)
    decreases args, 0
  {
    assert ToTerms(args)[1..] == ToTerms(args[1..]);
    if n in NamesOf(args[0]) { TextOccurs(args[0], n); } else { TextsOccur(args[1..], n); }
  }

  lemma {:induction false} HoistOccurs(a: Ast, refs: AggRefs, h: Hoisted, t: Term, h': Hoisted, n: string)
    requires Hoist(a, refs, h) == Ok((t, h')) && n in h'.names && n !in h.names
    ensures Occurs(t, n)
    decreases a, if a.Transform? then 3 else 0
  {
    if a.Op? {
      var r := HoistAll(a.args, refs, h).value;
      HoistAllOccurs(a.args, refs, h, r.0, r.1, n);
    } else if a.Scalar? {
      var r := HoistAll(a.args, refs, h).value;
      HoistAllOccurs(a.args, refs, h, r.0, r.1, n);
    }
  }

  lemma {:induction false} HoistAllOccurs(
    args: seq<Ast>, refs: AggRefs, h: Hoisted, ts: seq<Term>, h': Hoisted, n: string)
    requires HoistAll(args, refs, h) == Ok((ts, h')) && n in h'.names && n !in h.names
    ensures AnyOccurs(ts, n)
    decreases args, 4
  {
    if args != [] {
      var first := Hoist(args[0], refs, h).value;
      if n in first.1.names {
        HoistOccurs(args[0], refs, h, first.0, first.1, n);
      } else {
        HoistAllOccurs(args[1..], refs, first.1, ts[1..], h', n);
      }
    }
  }

  /** Every placeholder is left in the expression. */
  lemma {:induction false} HoistPlaces(a: Ast, refs: AggRefs, h: Hoisted, t: Term, h': Hoisted, k: nat)
    requires Hoist(a, refs, h) == Ok((t, h')) && Numbered(h.subs) && |h.subs| <= k < |h'.subs|
    ensures Occurs(t, h'.subs[k].placeholder)
    decreases a, if a.Transform? then 3 else 0
  {
    if a.Op? {
      var r := HoistAll(a.args, refs, h).value;
      HoistAllPlaces(a.args, refs, h, r.0, r.1, k);
    } else if a.Scalar? {
      var r := HoistAll(a.args, refs, h).value;
      HoistAllPlaces(a.args, refs, h, r.0, r.1, k);
    }
  }

  lemma {:induction false} HoistAllPlaces(args: seq<Ast>, refs: AggRefs, h: Hoisted, ts: seq<Term>, h': Hoisted, k: nat)
    requires HoistAll(args, refs, h) == Ok((ts, h')) && Numbered(h.subs) && |h.subs| <= k < |h'.subs|
    ensures AnyOccurs(ts, h'.subs[k].placeholder)
    decreases args, 4
  {
    if args != [] {
      var first := Hoist(args[0], refs, h).value;
      HoistExtends(args[0], refs, h, first.0, first.1);
      HoistAllExtends(args[1..], refs, first.1, ts[1..], h');
      if k < |first.1.subs| {
        HoistPlaces(args[0], refs, h, first.0, first.1, k);
        assert h'.subs[k] == first.1.subs[k];
      } else {
        HoistAllPlaces(args[1..], refs, first.1, ts[1..], h', k);
      }
    }
  }

  lemma {:induction false} AllConsistentSnoc(v: Scope, subs: seq<Sub>, s: Sub, refs: AggRefs)
    requires AllConsistent(v, subs, refs) && Consistent(v, s.spec, refs) && s.spec.TransformSpec?
    ensures AllConsistent(v, subs + [s], refs)
  {
    if subs != [] {
      AllConsistentSnoc(v, subs[1..], s, refs);
      assert (subs + [s])[1..] == subs[1..] + [s];
    } else {
      assert (subs + [s])[1..] == [];
    }
  }

  lemma {:induction false} ParseIsConsistent(v: Scope, a: Ast, refs: AggRefs, spec: Spec)
    requires Parse(a, refs) == Ok(spec) && IsScoped(v, refs) && WellDotted(a)
    ensures Consistent(v, spec, refs)
    decreases a, 2
  {
    match a
    case Name(_) =>
    case Const(_) =>
    case Dotted(_) =>
    case Transform(_, operand, _) => ParseIsConsistent(v, operand, refs, Parse(operand, refs).value);
    case Scalar(_, _) => MixedIsConsistent(v, a, refs, spec);
    case Op(_, _, _) =>
      if HasCall(a) {
        MixedIsConsistent(v, a, refs, spec);
      } else {
        TextIsConsistent(a, NamesOf(a));
        forall n | n in NamesOf(a) ensures Occurs(ToTerm(a), n) { TextOccurs(a, n); }
      }
  }

  lemma {:induction false} MixedIsConsistent(v: Scope, a: Ast, refs: AggRefs, spec: Spec)
    requires (a.Op? || a.Scalar?) && ParseMixed(a, refs) == Ok(spec) && IsScoped(v, refs) && WellDotted(a)
    ensures Consistent(v, spec, refs)
    decreases a, 1
  {
    var r := Hoist(a, refs, Hoisted([], [])).value;
    HoistIsConsistent(v, a, refs, Hoisted([], []), r.0, r.1);
    forall n | n in r.1.names ensures Occurs(r.0, n) { HoistOccurs(a, refs, Hoisted([], []), r.0, r.1, n); }
    forall s | s in r.1.subs ensures Occurs(r.0, s.placeholder) {
      var k :| 0 <= k < |r.1.subs| && r.1.subs[k] == s;
      HoistPlaces(a, refs, Hoisted([], []), r.0, r.1, k);
    }
  }

  lemma {:induction false} HoistIsConsistent(v: Scope, a: Ast, refs: AggRefs, h: Hoisted, t: Term, h': Hoisted)
    requires Hoist(a, refs, h) == Ok((t, h')) && IsScoped(v, refs) && WellDotted(a)
    requires Numbered(h.subs) && AllConsistent(v, h.subs, refs)
    ensures Numbered(h'.subs) && AllConsistent(v, h'.subs, refs) && WordsIn(t, h'.names, h'.subs)
    decreases a, if a.Transform? then 3 else 0
  {
    match a
    case Const(_) =>
    case Dotted(_) =>
    case Name(_) => if !IsBound(h.subs, a.id) { assert h'.names[|h.names|] == a.id; }
    case Transform(_, _, _) =>
      var spec := Parse(a, refs).value;
      ParseIsConsistent(v, a, refs, spec);
      AllConsistentSnoc(v, h.subs, h'.subs[|h.subs|], refs);
      assert h'.subs[|h.subs|].placeholder == t.name;
    case Op(_, _, args) =>
      var r := HoistAll(args, refs, h).value;
      HoistAllIsConsistent(v, args, refs, h, r.0, r.1);
    case Scalar(_, args) =>
      var r := HoistAll(args, refs, h).value;
      HoistAllIsConsistent(v, args, refs, h, r.0, r.1);
  }

  lemma {:induction false} HoistAllIsConsistent(
    v: Scope, args: seq<Ast>, refs: AggRefs, h: Hoisted, ts: seq<Term>, h': Hoisted)
    requires HoistAll(args, refs, h) == Ok((ts, h')) && IsScoped(v, refs) && AllWellDotted(args)
    requires Numbered(h.subs) && AllConsistent(v, h.subs, refs)
    ensures Numbered(h'.subs) && AllConsistent(v, h'.subs, refs) && AllWordsIn(ts, h'.names, h'.subs)
    decreases args, 4
  {
    if args != [] {
      var first := Hoist(args[0], refs, h).value;
      HoistIsConsistent(v, args[0], refs, h, first.0, first.1);
      HoistAllIsConsistent(v, args[1..], refs, first.1, ts[1..], h');
      HoistAllExtends(args[1..], refs, first.1, ts[1..], h');
      WordsStay(first.0, first.1, h');
    }
  }

  // ------------------------------------------------------------- new names

  lemma UnusedInFamily(c: Config, v: Scope, st: State, st': State, field: string, n: string)
    requires WellNamed(c, v) && Named(c, v, st) && Named(c, v, st')
    requires Fresh(st, field) && Grows(st, st', "_inner_" + field)
    requires Owned(v, st, n) && Core(n) == Core(field) && |n| < |"_inner_" + field|
    ensures Unused(st', n)
  {
    assert Owned(v, st', n);
    OwnedIsNoMeasure(c, v, st', n);
    forall i | 0 <= i < |st'.steps| ensures st'.steps[i].alias.name != n {
      if i < |st.steps| { assert st'.steps[i] == st.steps[i]; }
    }
  }

  /** Nothing but measures and the families of new hidden names was added. */
  ghost predicate AddsHidden(st: State, st': State) {
    && st.steps <= st'.steps && st.hidden <= st'.hidden && st.canon.Items <= st'.canon.Items
    && forall i :: |st.steps| <= i < |st'.steps| ==>
         var s := st'.steps[i];
         s.MeasureStep? || (Core(s.alias.name) in st'.hidden && Core(s.alias.name) !in st.hidden)
  }

  lemma UnusedBesideHidden(c: Config, v: Scope, st: State, st': State, n: string)
    requires WellNamed(c, v) && Named(c, v, st) && Named(c, v, st') && Fresh(st, n)
    requires AddsHidden(st, st') && Owned(v, st, n)
    ensures Unused(st', n)
  {
    assert Owned(v, st', n);
    OwnedIsNoMeasure(c, v, st', n);
    forall i | 0 <= i < |st'.steps| ensures st'.steps[i].alias.name != n {
      if i < |st.steps| { assert st'.steps[i] == st.steps[i]; }
    }
  }

  lemma CandidateShape(placeholder: nat, field: string, k: nat)
    ensures HiddenShape(Candidate(Placeholder(placeholder) + "_" + field, k))
  {
    var preferred := Placeholder(placeholder) + "_" + field;
    var n := Candidate(preferred, k);
    assert n[0] == '_' && n[1] == 't' && n[2] == Decimal(placeholder)[0];
  }

  // ------------------------------------------------------------- only appending

  lemma {:induction false} EnsureAllAppends(c: Config, st: State, names: seq<string>, refs: AggRefs, st': State)
    requires EnsureAll(c, st, names, refs) == Ok(st')
    ensures st.steps <= st'.steps
    decreases |names|
  {
    if names != [] {
      EnsureAllAppends(c, Ensure(c, st, names[0], refs[names[0]]).value, names[1..], refs, st');
    }
  }

  lemma {:induction false} FlattenAppends(c: Config, spec: Spec, field: string, st: State, st': State, a: Alias)
    requires Flatten(c, spec, field, st) == Ok((st', a))
    ensures st.steps <= st'.steps
    decreases spec, 1
  {
    match spec
    case AggSpec(_) =>
    case Arithmetic(_, names, refs, _) => EnsureAllAppends(c, st, names, refs, EnsureAll(c, st, names, refs).value);
    case Mixed(_, names, subs, refs, _) =>
      var st1 := EnsureAll(c, st, names, refs).value;
      EnsureAllAppends(c, st, names, refs, st1);
      var r := FlattenSubs(c, subs, field, st1).value;
      FlattenSubsAppends(c, subs, field, st1, r.0, r.1);
    case TransformSpec(_, inner, _) =>
      var r := Flatten(c, inner, "_inner_" + field, st).value;
      FlattenAppends(c, inner, "_inner_" + field, st, r.0, r.1);
  }

  lemma {:induction false} FlattenSubsAppends(
    c: Config, subs: seq<Sub>, field: string, st: State, st': State, bindings: seq<Binding>)
    requires FlattenSubs(c, subs, field, st) == Ok((st', bindings))
    ensures st.steps <= st'.steps
    decreases subs, 0
  {
    if subs != [] {
      var name := Allocate(c, st, subs[0].placeholder + "_" + field);
      var first := Flatten(c, subs[0].spec, name, st.(hidden := st.hidden + {name})).value;
      FlattenAppends(c, subs[0].spec, name, st.(hidden := st.hidden + {name}), first.0, first.1);
      FlattenSubsAppends(c, subs[1..], field, first.0, st', bindings[1..]);
    }
  }

  /** Some column's SQL is illegible. */
  ghost predicate Hopeless(steps: seq<Step>) {
    exists s :: s in steps && s.ExprStep? && Illegible(s.sql)
  }

  lemma HopelessIsNotRun(steps: seq<Step>)
    requires Hopeless(steps)
    ensures Run(steps).None?
  {
    var s :| s in steps && s.ExprStep? && Illegible(s.sql);
    var i :| 0 <= i < |steps| && steps[i] == s;
    if Run(steps[..i]).Some? { IllegibleHasNoValue(s.sql, Run(steps[..i]).value); }
    if Run(steps).Some? { RunCut(steps, i); }
  }

  lemma HopelessOn(steps: seq<Step>, steps': seq<Step>)
    requires Hopeless(steps) && steps <= steps'
    ensures Hopeless(steps')
  {
    var s :| s in steps && s.ExprStep? && Illegible(s.sql);
    assert s in steps';
  }

  lemma HopelessLast(st: State, s: Step, st': State)
    requires s.ExprStep? && Illegible(s.sql) && st'.steps == st.steps + [s]
    ensures Hopeless(st'.steps)
  {
    assert st'.steps[|st.steps|] == s;
  }

  // ------------------------------------------------------------------ meaning

  predicate AllReadable(d: Dict, names: seq<string>) {
    forall n :: n in names ==> Readable(d, n)
  }

  /** Every name that lowering writes into an expression can be delimited there, and no name whose
      turn comes later stands inside its quoted alias. */
  predicate Legible(c: Config, spec: Spec, field: string, st: State)
    decreases spec, 1
  {
    match spec
    case AggSpec(_) => true
    case Arithmetic(_, names, refs, _) =>
      var st1 := EnsureAll(c, st, names, refs);
      st1.Ok? ==> AllReadable(st1.value.known, names)
    case Mixed(_, names, subs, refs, _) =>
      var st1 := EnsureAll(c, st, names, refs);
      st1.Ok? ==>
        && LegibleSubs(c, subs, field, st1.value)
        && var r := FlattenSubs(c, subs, field, st1.value);
           r.Ok? ==> LegibleMixed(BindAll(r.value.0.known, r.value.1), names, subs)
    case TransformSpec(fn, inner, p) =>
      && Legible(c, inner, "_inner_" + field, st)
      && var r := Flatten(c, inner, "_inner_" + field, st);
         r.Ok? && fn in CHANGES ==> LegibleChange(c, r.value.0, field, p, r.value.1)
  }

  predicate LegibleMixed(bound: Dict, names: seq<string>, subs: seq<Sub>) {
    AllReadable(bound, names) && forall s :: s in subs ==> Readable(bound, s.placeholder)
  }

  /** The name of the operand and that of its hidden shift can be read. */
  predicate LegibleChange(c: Config, st: State, field: string, p: Params, input: Alias) {
    var st' := AddTransform(
      c, st, "_ts_" + field, "time_shift", Params(p.extra, [], None), ShiftOf(c.grouping, p), input);
    st'.Ok? ==>
      var known := st'.value.known;
      var key := FirstKey(known.order, known.at, input);
      key.Some? ==> Readable(known, key.value) && Readable(known, "_ts_" + field)
  }

  predicate LegibleSubs(c: Config, subs: seq<Sub>, field: string, st: State)
    decreases subs, 0
  {
    subs == [] ||
    var name := Allocate(c, st, subs[0].placeholder + "_" + field);
    var sth := st.(hidden := st.hidden + {name});
    && Legible(c, subs[0].spec, name, sth)
    && var r := Flatten(c, subs[0].spec, name, sth);
       r.Ok? ==> LegibleSubs(c, subs[1..], field, r.value.0)
  }

  /** The alias holds the value, and all else is as it was. */
  ghost predicate Lowered(
    c: Config, v: Scope, st: State, st': State, field: string, refs: AggRefs, a: Alias, value: Value)
  {
    && Sound(c, v, st') && Grows(st, st', field) && KeepsNames(st, st', refs)
    && a in Run(st'.steps).value && Run(st'.steps).value[a] == value
  }

  /** Adding the formula's own column at the end. */
  lemma EmitLowers(c: Config, v: Scope, st: State, st1: State, s: Step, st2: State, field: string, refs: AggRefs)
    requires WellNamed(c, v) && Sound(c, v, st1) && IsScoped(v, refs) && KeepsNames(st, st1, refs)
    requires Grows(st, st1, field) && Owned(v, st, field) && Unused(st1, field)
    requires !s.MeasureStep? && s.alias == Alias(c.model, field) && StepValue(s, Run(st1.steps).value).Some?
    requires st2 == st1.(steps := st1.steps + [s], known := Put(st1.known, field, s.alias))
    ensures Lowered(c, v, st, st2, field, refs, s.alias, StepValue(s, Run(st1.steps).value).value)
  {
    assert Owned(v, st1, field);
    EmitIsSound(c, v, st1, s, st2);
    OwnedIsNoMeasure(c, v, st1, field);
    StepGrows(st, st1, s, st2, field);
  }

  lemma StepGrows(st: State, st1: State, s: Step, st2: State, field: string)
    requires Grows(st, st1, field) && Core(s.alias.name) == Core(field) && |s.alias.name| >= |field|
    requires st2.steps == st1.steps + [s] && st2.hidden == st1.hidden && st2.canon == st1.canon
    ensures Grows(st, st2, field)
  {
    forall i | |st.steps| <= i < |st2.steps| ensures NewName(st, st2, field, st2.steps[i]) {
      StepIsNew(st, st1, s, st2, field, i);
    }
  }

  lemma StepIsNew(st: State, st1: State, s: Step, st2: State, field: string, i: nat)
    requires Grows(st, st1, field) && Core(s.alias.name) == Core(field) && |s.alias.name| >= |field|
    requires st2.steps == st1.steps + [s] && st2.hidden == st1.hidden && |st.steps| <= i < |st2.steps|
    ensures NewName(st, st2, field, st2.steps[i])
  {
    if i < |st1.steps| { assert NewName(st, st1, field, st1.steps[i]); }
  }

  lemma MeasuresGrow(c: Config, v: Scope, st: State, st': State, field: string)
    requires AddsMeasures(st, st')
    ensures Grows(st, st', field) && (Fresh(st, field) ==> Fresh(st', field))
    ensures Owned(v, st, field) ==> Owned(v, st', field)
  {
    forall s | s in st'.steps && !s.MeasureStep? ensures s in st.steps {
      var i :| 0 <= i < |st'.steps| && st'.steps[i] == s;
      assert i < |st.steps|;
    }
  }

  lemma FreshIsUnused(c: Config, v: Scope, st: State, field: string)
    requires WellNamed(c, v) && Named(c, v, st) && Owned(v, st, field) && Fresh(st, field)
    ensures Unused(st, field)
  {
    OwnedIsNoMeasure(c, v, st, field);
  }

  lemma ArithmeticMeans(c: Config, v: Scope, st: State, spec: Spec, field: string, refs: AggRefs, st': State, a: Alias)
    requires WellNamed(c, v) && Sound(c, v, st) && IsScoped(v, refs) && Consistent(v, spec, refs) && spec.Arithmetic?
    requires Owned(v, st, field) && Fresh(st, field)
    requires Flatten(c, spec, field, st) == Ok((st', a))
    ensures var m := SpecMeaning(c.grouping, spec);
      if m.Some? && Legible(c, spec, field, st) then Lowered(c, v, st, st', field, refs, a, m.value)
      else Hopeless(st'.steps)
  {
    var st1, values := EnsureAll(c, st, spec.names, spec.refs).value, RefValues(spec.refs);
    EnsureAllIsSound(c, v, st, spec.names, spec.refs, refs, st1);
    MeasuresGrow(c, v, st, st1, field);
    FreshIsUnused(c, v, st1, field);
    var s := ExprStep(a, Resolve(spec.sql, st1.known));
    if AllReadable(st1.known, spec.names) {
      forall n | n in spec.names || IsBound([], n) ensures Denotes(n, st1.known, Run(st1.steps).value, values) {
        RefDenotes(c, st1, refs, spec.refs, st1.known, n, values);
      }
      ResolveMeans(spec.sql, st1.known, Run(st1.steps).value, values, spec.names, []);
      if SpecMeaning(c.grouping, spec).Some? {
        EmitLowers(c, v, st, st1, s, st', field, refs);
      } else {
        HopelessLast(st1, s, st');
      }
    } else {
      var n :| n in spec.names && !Readable(st1.known, n);
      UnreadableIsIllegible(spec.sql, n, st1.known);
      HopelessLast(st1, s, st');
    }
  }

  /** A name that stands for its aggregate holds its value. */
  lemma RefDenotes(c: Config, st: State, refs: AggRefs, own: AggRefs, d: Dict, n: string, values: map<string, Value>)
    requires Computed(c, st) && n in own && n in refs && own.Items <= refs.Items && StandsFor(st, refs, n)
    requires Readable(d, n) && d.at[n] == st.known.at[n]
    requires n in values && values[n] == AggValue(own[n])
    ensures Denotes(n, d, Run(st.steps).value, values)
  {
    assert (n, own[n]) in own.Items;
  }

  lemma TransformValue(g: Grouping, spec: Spec)
    requires spec.TransformSpec? && SpecMeaning(g, spec.inner).Some?
    ensures SpecMeaning(g, spec).Some?
    ensures SpecMeaning(g, spec).value ==
      TransformOf(g, spec.fn, spec.params, IsPredicateSpec(spec.inner), SpecMeaning(g, spec.inner).value)
  {
  }

  lemma ChangeValue(g: Grouping, spec: Spec)
    requires spec.TransformSpec? && spec.fn in CHANGES && SpecMeaning(g, spec.inner).Some?
    ensures var x := SpecMeaning(g, spec.inner).value;
      SpecMeaning(g, spec) == Some(ChangeOf(spec.fn, x, WindowValue(ShiftOf(g, spec.params), x)))
  {
    TransformValue(g, spec);
  }

  lemma TransformUnfolds(
    c: Config, st: State, spec: Spec, field: string, st1: State, input: Alias, s: Step, st': State, a: Alias)
    requires spec.TransformSpec? && spec.fn !in CHANGES
    requires Flatten(c, spec.inner, "_inner_" + field, st) == Ok((st1, input))
    requires Flatten(c, spec, field, st) == Ok((st', a))
    requires s == TransformStep(Alias(c.model, field), WindowOf(
      c.grouping, spec.fn, Offset(spec.params.extra, 1), spec.params, IsPredicateSpec(spec.inner)), input)
    ensures a == s.alias && st' == st1.(steps := st1.steps + [s], known := Put(st1.known, field, a))
  {
  }

  lemma TransformMeans(
    c: Config, v: Scope, st: State, spec: Spec, field: string, refs: AggRefs, st1: State, input: Alias, st': State,
    a: Alias)
    requires WellNamed(c, v) && Sound(c, v, st) && IsScoped(v, refs) && spec.TransformSpec? && spec.fn !in CHANGES
    requires Owned(v, st, field) && Fresh(st, field)
    requires Flatten(c, spec.inner, "_inner_" + field, st) == Ok((st1, input))
    requires Flatten(c, spec, field, st) == Ok((st', a))
    requires SpecMeaning(c.grouping, spec.inner).Some?
    requires Lowered(c, v, st, st1, "_inner_" + field, refs, input, SpecMeaning(c.grouping, spec.inner).value)
    ensures Lowered(c, v, st, st', field, refs, a, SpecMeaning(c.grouping, spec).value)
  {
    var window := WindowOf(c.grouping, spec.fn, Offset(spec.params.extra, 1), spec.params, IsPredicateSpec(spec.inner));
    var s := TransformStep(Alias(c.model, field), window, input);
    TransformUnfolds(c, st, spec, field, st1, input, s, st', a);
    TransformValue(c.grouping, spec);
    CoreOf(field);
    UnusedInFamily(c, v, st, st1, field, field);
    InnerGrows(st, st1, field);
    EmitLowers(c, v, st, st1, s, st', field, refs);
  }

  lemma InnerGrows(st: State, st1: State, field: string)
    requires Grows(st, st1, "_inner_" + field)
    ensures Grows(st, st1, field)
  {
    CoreOf(field);
    forall i | |st.steps| <= i < |st1.steps| ensures NewName(st, st1, field, st1.steps[i]) {
      assert NewName(st, st1, "_inner_" + field, st1.steps[i]);
    }
  }

  lemma ChangeMeans(
    c: Config, v: Scope, st: State, spec: Spec, field: string, refs: AggRefs, st1: State, input: Alias, st': State,
    a: Alias)
    requires WellNamed(c, v) && Sound(c, v, st) && IsScoped(v, refs) && spec.TransformSpec? && spec.fn in CHANGES
    requires Owned(v, st, field) && Fresh(st, field)
    requires LegibleChange(c, st1, field, spec.params, input)
    requires Flatten(c, spec.inner, "_inner_" + field, st) == Ok((st1, input))
    requires Flatten(c, spec, field, st) == Ok((st', a))
    requires SpecMeaning(c.grouping, spec.inner).Some?
    requires Lowered(c, v, st, st1, "_inner_" + field, refs, input, SpecMeaning(c.grouping, spec.inner).value)
    ensures Lowered(c, v, st, st', field, refs, a, SpecMeaning(c.grouping, spec).value)
  {
    var shift := ShiftStep(c, field, spec.params, input);
    var st2 := st1.(steps := st1.steps + [shift], known := Put(st1.known, shift.alias.name, shift.alias));
    ChangeUnfolds(c, st, spec, field, st1, input, st2, st', a);
    ChangeNamesAreUnused(c, v, st, st1, field);
    InnerGrows(st, st1, field);
    ShiftIsAdded(c, v, st, st1, shift, st2, field, refs);
    ChangeIsEmitted(c, v, st, st2, field, spec.fn, input, refs, st', a);
    ChangeValue(c.grouping, spec);
  }

  function ShiftStep(c: Config, field: string, p: Params, input: Alias): Step {
    TransformStep(Alias(c.model, "_ts_" + field), ShiftOf(c.grouping, p), input)
  }

  lemma ChangeUnfolds(
    c: Config, st: State, spec: Spec, field: string, st1: State, input: Alias, st2: State, st': State, a: Alias)
    requires spec.TransformSpec? && spec.fn in CHANGES
    requires Flatten(c, spec.inner, "_inner_" + field, st) == Ok((st1, input))
    requires Flatten(c, spec, field, st) == Ok((st', a))
    requires var shift := ShiftStep(c, field, spec.params, input);
      st2 == st1.(steps := st1.steps + [shift], known := Put(st1.known, shift.alias.name, shift.alias))
    ensures a == Alias(c.model, field)
    ensures var key := FirstKey(st2.known.order, st2.known.at, input);
      key.Some? &&
      st' == AddExpr(c, st2, field, Resolve(ChangeTerm(spec.fn, Word(key.value), Word("_ts_" + field)), st2.known))
    ensures var key := FirstKey(st2.known.order, st2.known.at, input).value;
      LegibleChange(c, st1, field, spec.params, input) <==>
      Readable(st2.known, key) && Readable(st2.known, "_ts_" + field)
  {
    assert AddChange(c, st1, field, spec.fn, spec.params, input) == Ok((st', a));
  }

  lemma ChangeNamesAreUnused(c: Config, v: Scope, st: State, st1: State, field: string)
    requires WellNamed(c, v) && Named(c, v, st) && Named(c, v, st1)
    requires Fresh(st, field) && Grows(st, st1, "_inner_" + field) && Owned(v, st, field)
    ensures Unused(st1, "_ts_" + field) && Unused(st1, field)
  {
    CoreOf(field);
    UnusedInFamily(c, v, st, st1, field, "_ts_" + field);
    UnusedInFamily(c, v, st, st1, field, field);
  }

  lemma ChangeIsEmitted(
    c: Config, v: Scope, st: State, st2: State, field: string, fn: string, input: Alias, refs: AggRefs, st': State,
    a: Alias)
    requires WellNamed(c, v) && Sound(c, v, st2) && IsScoped(v, refs) && KeepsNames(st, st2, refs)
    requires Grows(st, st2, field) && Owned(v, st, field) && Unused(st2, field)
    requires "_ts_" + field in st2.known.at && st2.known.at["_ts_" + field] == Alias(c.model, "_ts_" + field)
    requires a == Alias(c.model, field)
    requires var key := FirstKey(st2.known.order, st2.known.at, input);
      key.Some? && Readable(st2.known, key.value) && Readable(st2.known, "_ts_" + field) &&
      st' == AddExpr(c, st2, field, Resolve(ChangeTerm(fn, Word(key.value), Word("_ts_" + field)), st2.known))
    ensures var env := Run(st2.steps).value;
      && input in env && Alias(c.model, "_ts_" + field) in env
      && Lowered(c, v, st, st', field, refs, a, ChangeOf(fn, env[input], env[Alias(c.model, "_ts_" + field)]))
  {
    var key := FirstKey(st2.known.order, st2.known.at, input).value;
    ChangeResolves(fn, key, "_ts_" + field, st2.known);
    ChangeEvaluates(fn, input, Alias(c.model, "_ts_" + field), Run(st2.steps).value);
    var s := ExprStep(a, Resolve(ChangeTerm(fn, Word(key), Word("_ts_" + field)), st2.known));
    EmitLowers(c, v, st, st2, s, st', field, refs);
  }

  /** A change one of whose names cannot be read leaves an illegible column. */
  lemma ChangeDangles(
    c: Config, st: State, spec: Spec, field: string, st1: State, input: Alias, st': State, a: Alias)
    requires spec.TransformSpec? && spec.fn in CHANGES && !LegibleChange(c, st1, field, spec.params, input)
    requires Flatten(c, spec.inner, "_inner_" + field, st) == Ok((st1, input))
    requires Flatten(c, spec, field, st) == Ok((st', a))
    ensures Hopeless(st'.steps)
  {
    var shift := ShiftStep(c, field, spec.params, input);
    var st2 := st1.(steps := st1.steps + [shift], known := Put(st1.known, shift.alias.name, shift.alias));
    ChangeUnfolds(c, st, spec, field, st1, input, st2, st', a);
    var key := FirstKey(st2.known.order, st2.known.at, input).value;
    var sql := ChangeTerm(spec.fn, Word(key), Word("_ts_" + field));
    ChangeOccurs(spec.fn, key, "_ts_" + field);
    UnreadableIsIllegible(sql, if Readable(st2.known, key) then "_ts_" + field else key, st2.known);
    HopelessLast(st2, ExprStep(a, Resolve(sql, st2.known)), st');
  }

  lemma ShiftIsAdded(
    c: Config, v: Scope, st: State, st1: State, shift: Step, st2: State, field: string, refs: AggRefs)
    requires WellNamed(c, v) && Sound(c, v, st1) && IsScoped(v, refs) && KeepsNames(st, st1, refs)
    requires Grows(st, st1, field) && Owned(v, st, field)
    requires shift.TransformStep? && shift.alias == Alias(c.model, "_ts_" + field)
      && shift.input in Run(st1.steps).value
    requires Unused(st1, "_ts_" + field) && Unused(st1, field)
    requires st2 == st1.(steps := st1.steps + [shift], known := Put(st1.known, "_ts_" + field, shift.alias))
    ensures Sound(c, v, st2) && Grows(st, st2, field) && KeepsNames(st, st2, refs) && Unused(st2, field)
    ensures Run(st2.steps).value ==
      Run(st1.steps).value[shift.alias := WindowValue(shift.window, Run(st1.steps).value[shift.input])]
    ensures shift.input != shift.alias
  {
    CoreOf(field);
    assert Owned(v, st1, "_ts_" + field);
    EmitIsSound(c, v, st1, shift, st2);
    OwnedIsNoMeasure(c, v, st1, "_ts_" + field);
    InputIsEarlier(c, st1, shift.input, shift.alias);
    StepGrows(st, st1, shift, st2, field);
  }

  lemma InputIsEarlier(c: Config, st: State, input: Alias, a: Alias)
    requires Run(st.steps).Some? && input in Run(st.steps).value && Unused(st, a.name)
    ensures input != a
  {
    RunAliases(st.steps);
  }

  // -------------------------------------------------------- mixed expressions

  /** What lowering the transforms of an expression leaves. */
  ghost predicate SubsLowered(
    c: Config, v: Scope, st: State, subs: seq<Sub>, st': State, refs: AggRefs, bindings: seq<Binding>)
  {
    && Sound(c, v, st') && AddsHidden(st, st') && KeepsNames(st, st', refs) && |bindings| == |subs|
    && (forall i :: 0 <= i < |subs| ==> BindingHolds(c, st', subs[i], bindings[i]))
  }

  ghost predicate BindingHolds(c: Config, st: State, s: Sub, b: Binding)
    requires Run(st.steps).Some?
  {
    && b.name == s.placeholder && b.alias in Run(st.steps).value
    && SpecMeaning(c.grouping, s.spec) == Some(Run(st.steps).value[b.alias])
  }

  /** A hidden name is new, and so is its family. */
  lemma HiddenIsFresh(c: Config, v: Scope, st: State, placeholder: nat, field: string, name: string, st': State)
    requires WellNamed(c, v) && Sound(c, v, st)
    requires name == Allocate(c, st, Placeholder(placeholder) + "_" + field)
    requires st' == st.(hidden := st.hidden + {name})
    ensures Sound(c, v, st') && Owned(v, st', name) && Fresh(st', name) && Core(name) == name && name !in st.hidden
  {
    var k: nat :| name == Candidate(Placeholder(placeholder) + "_" + field, k);
    CandidateShape(placeholder, field, k);
    HiddenIsCore(name);
  }

  lemma SubIsLowered(
    c: Config, v: Scope, st: State, s: Sub, name: string, sth: State, refs: AggRefs, st1: State, a: Alias, value: Value)
    requires sth == st.(hidden := st.hidden + {name}) && Core(name) == name && name !in st.hidden
    requires Lowered(c, v, sth, st1, name, refs, a, value)
    ensures AddsHidden(st, st1) && KeepsNames(st, st1, refs)
  {
    forall i | |st.steps| <= i < |st1.steps|
      ensures var t := st1.steps[i];
        t.MeasureStep? || (Core(t.alias.name) in st1.hidden && Core(t.alias.name) !in st.hidden)
    {
      assert NewName(sth, st1, name, st1.steps[i]);
    }
    forall n | n in refs && StandsFor(st, refs, n) ensures StandsFor(st1, refs, n) { assert StandsFor(sth, refs, n); }
  }

  lemma AddsHiddenOn(st: State, st1: State, st2: State)
    requires AddsHidden(st, st1) && AddsHidden(st1, st2)
    ensures AddsHidden(st, st2)
  {
    forall i | |st.steps| <= i < |st2.steps|
      ensures var s := st2.steps[i];
        s.MeasureStep? || (Core(s.alias.name) in st2.hidden && Core(s.alias.name) !in st.hidden)
    {
      if i < |st1.steps| { assert st2.steps[i] == st1.steps[i]; }
    }
  }

  lemma BindingStillHolds(c: Config, st: State, st': State, s: Sub, b: Binding)
    requires Run(st.steps).Some? && BindingHolds(c, st, s, b) && st.steps <= st'.steps && Run(st'.steps).Some?
    ensures BindingHolds(c, st', s, b)
  {
    assert st'.steps == st.steps + st'.steps[|st.steps|..];
    RunPrefix(st.steps, st'.steps[|st.steps|..]);
    assert (b.alias, Run(st.steps).value[b.alias]) in Run(st.steps).value.Items;
  }

  lemma SubsLoweredCons(
    c: Config, v: Scope, st: State, subs: seq<Sub>, st1: State, st': State, refs: AggRefs, b: Binding,
    rest: seq<Binding>)
    requires subs != [] && Sound(c, v, st1) && AddsHidden(st, st1) && KeepsNames(st, st1, refs)
    requires BindingHolds(c, st1, subs[0], b) && SubsLowered(c, v, st1, subs[1..], st', refs, rest)
    ensures SubsLowered(c, v, st, subs, st', refs, [b] + rest)
  {
    AddsHiddenOn(st, st1, st');
    BindingStillHolds(c, st1, st', subs[0], b);
    forall i | 0 <= i < |subs| ensures BindingHolds(c, st', subs[i], ([b] + rest)[i]) {
      if i > 0 { assert subs[i] == subs[1..][i - 1] && ([b] + rest)[i] == rest[i - 1]; }
    }
  }

  /** The placeholders count up from `from`; the tail of a numbered list does. */
  predicate NumberedFrom(subs: seq<Sub>, from: nat) {
    subs == [] || (subs[0].placeholder == Placeholder(from) && NumberedFrom(subs[1..], from + 1))
  }

  lemma {:induction false} NumberedCountsUp(subs: seq<Sub>, k: nat)
    requires Numbered(subs) && k <= |subs|
    ensures NumberedFrom(subs[k..], k)
    decreases |subs| - k
  {
    if k < |subs| {
      NumberedCountsUp(subs, k + 1);
      assert subs[k..][1..] == subs[k + 1..];
    }
  }

  lemma MixedMeans(
    c: Config, v: Scope, st: State, spec: Spec, field: string, refs: AggRefs,
    st1: State, st2: State, bindings: seq<Binding>, st': State, a: Alias)
    requires WellNamed(c, v) && Sound(c, v, st) && IsScoped(v, refs) && Consistent(v, spec, refs) && spec.Mixed?
    requires Owned(v, st, field) && Fresh(st, field)
    requires EnsureAll(c, st, spec.names, spec.refs) == Ok(st1)
    requires FlattenSubs(c, spec.subs, field, st1) == Ok((st2, bindings))
    requires Flatten(c, spec, field, st) == Ok((st', a))
    requires SubMeanings(c.grouping, spec.subs).Some? && SubsLowered(c, v, st1, spec.subs, st2, refs, bindings)
    requires LegibleMixed(BindAll(st2.known, bindings), spec.names, spec.subs)
    ensures var m := SpecMeaning(c.grouping, spec);
      if m.Some? then Lowered(c, v, st, st', field, refs, a, m.value) else Hopeless(st'.steps)
  {
    var m := SubMeanings(c.grouping, spec.subs).value;
    var values, env := RefValues(spec.refs) + m, Run(st2.steps).value;
    var bound := BindAll(st2.known, bindings);
    EnsureAllIsSound(c, v, st, spec.names, spec.refs, refs, st1);
    MeasuresGrow(c, v, st, st1, field);
    UnusedBesideHidden(c, v, st1, st2, field);
    BindingsAreDistinct(c, st2, spec.subs, bindings);
    BindingsAreRestored(st2.known, bindings);
    MixedNamesDenote(c, v, st2, spec, refs, bindings, m);
    ResolveMeans(spec.sql, bound, env, values, spec.names, spec.subs);
    var s := ExprStep(a, Resolve(spec.sql, bound));
    if SpecMeaning(c.grouping, spec).Some? {
      HiddenGrows(st, st1, st2, field);
      EmitLowers(c, v, st, st2, s, st', field, refs);
    } else {
      HopelessLast(st2, s, st');
    }
  }

  /** An expression one of whose names cannot be read is illegible. */
  lemma MixedDangles(
    c: Config, spec: Spec, field: string, st: State, st1: State, st2: State, bindings: seq<Binding>, st': State,
    a: Alias)
    requires spec.Mixed? && AllOccur(spec.sql, spec.names) && AllPlaced(spec.sql, spec.subs)
    requires EnsureAll(c, st, spec.names, spec.refs) == Ok(st1)
    requires FlattenSubs(c, spec.subs, field, st1) == Ok((st2, bindings))
    requires Flatten(c, spec, field, st) == Ok((st', a))
    requires !LegibleMixed(BindAll(st2.known, bindings), spec.names, spec.subs)
    ensures Hopeless(st'.steps)
  {
    var bound := BindAll(st2.known, bindings);
    var n :| Occurs(spec.sql, n) && !Readable(bound, n);
    UnreadableIsIllegible(spec.sql, n, bound);
    HopelessLast(st2, ExprStep(a, Resolve(spec.sql, bound)), st');
  }

  lemma HiddenGrows(st: State, st1: State, st2: State, field: string)
    requires AddsMeasures(st, st1) && AddsHidden(st1, st2)
    ensures Grows(st, st2, field)
  {
    forall i | |st.steps| <= i < |st2.steps| ensures NewName(st, st2, field, st2.steps[i]) {
      if i < |st1.steps| { assert st2.steps[i] == st1.steps[i]; }
    }
  }

  lemma BindingsAreDistinct(c: Config, st: State, subs: seq<Sub>, bindings: seq<Binding>)
    requires Numbered(subs) && |bindings| == |subs| && Run(st.steps).Some?
    requires forall i :: 0 <= i < |subs| ==> BindingHolds(c, st, subs[i], bindings[i])
    ensures DistinctNames(bindings) && forall b :: b in bindings ==> IsPlaceholder(b.name)
  {
    NumberedIsDistinct(subs);
    forall i, j | 0 <= i < j < |bindings| ensures bindings[i].name != bindings[j].name {
      assert BindingHolds(c, st, subs[i], bindings[i]) && BindingHolds(c, st, subs[j], bindings[j]);
    }
    forall b | b in bindings ensures IsPlaceholder(b.name) {
      var i :| 0 <= i < |bindings| && bindings[i] == b;
      assert BindingHolds(c, st, subs[i], b);
    }
  }

  /** With the placeholders bound, every identifier of the expression has its value. */
  lemma MixedNamesDenote(
    c: Config, v: Scope, st: State, spec: Spec, refs: AggRefs, bindings: seq<Binding>, m: map<string, Value>)
    requires Computed(c, st) && IsScoped(v, refs) && spec.Mixed? && spec.refs.Items <= refs.Items && Numbered(spec.subs)
    requires |bindings| == |spec.subs|
    requires forall i :: 0 <= i < |spec.subs| ==> BindingHolds(c, st, spec.subs[i], bindings[i])
    requires SubMeanings(c.grouping, spec.subs) == Some(m)
    requires forall n :: n in spec.names ==> n in spec.refs && n in refs && StandsFor(st, refs, n)
    requires LegibleMixed(BindAll(st.known, bindings), spec.names, spec.subs)
    ensures forall n :: n in spec.names || IsBound(spec.subs, n) ==>
      Denotes(n, BindAll(st.known, bindings), Run(st.steps).value, RefValues(spec.refs) + m)
  {
    var bound, env, values := BindAll(st.known, bindings), Run(st.steps).value, RefValues(spec.refs) + m;
    BindingsAreDistinct(c, st, spec.subs, bindings);
    BindAllAt(st.known, bindings);
    NumberedIsDistinct(spec.subs);
    SubMeaningsAt(c.grouping, spec.subs, m);
    forall n | n in spec.names || IsBound(spec.subs, n) ensures Denotes(n, bound, env, values) {
      if IsBound(spec.subs, n) {
        var i :| 0 <= i < |spec.subs| && spec.subs[i].placeholder == n;
        assert BindingHolds(c, st, spec.subs[i], bindings[i]) && bindings[i] in bindings && spec.subs[i] in spec.subs;
      } else {
        RefIsNoPlaceholder(n);
        RefDenotes(c, st, refs, spec.refs, bound, n, values);
      }
    }
  }

  // ------------------------------------------------------------- main results

  /** Lowering a formula makes columns that can be computed and an alias that holds its meaning,
      exactly if it has one and every name is legible; else some column is illegible. */
  lemma {:induction false} FlattenMeans(
    c: Config, v: Scope, spec: Spec, field: string, st: State, refs: AggRefs, st': State, a: Alias)
    requires WellNamed(c, v) && Sound(c, v, st) && IsScoped(v, refs) && Consistent(v, spec, refs)
    requires Owned(v, st, field) && Fresh(st, field)
    requires Flatten(c, spec, field, st) == Ok((st', a))
    ensures var m := SpecMeaning(c.grouping, spec);
      if m.Some? && Legible(c, spec, field, st) then Lowered(c, v, st, st', field, refs, a, m.value)
      else Hopeless(st'.steps)
    decreases spec, 1
  {
    match spec
    case AggSpec(r) =>
      EnsureIsSound(c, v, st, Canonical(r), r, st', refs);
      MeasuresGrow(c, v, st, st', field);
    case Arithmetic(_, _, _, _) => ArithmeticMeans(c, v, st, spec, field, refs, st', a);
    case Mixed(_, names, subs, own, _) =>
      var st1 := EnsureAll(c, st, names, own).value;
      EnsureAllIsSound(c, v, st, names, own, refs, st1);
      MeasuresGrow(c, v, st, st1, field);
      NumberedCountsUp(subs, 0);
      assert subs[0..] == subs;
      var r := FlattenSubs(c, subs, field, st1).value;
      FlattenSubsMean(c, v, subs, 0, field, st1, refs, r.0, r.1);
      if !(SubMeanings(c.grouping, subs).Some? && LegibleSubs(c, subs, field, st1)) {
        HopelessOn(r.0.steps, st'.steps);
      } else if LegibleMixed(BindAll(r.0.known, r.1), names, subs) {
        MixedMeans(c, v, st, spec, field, refs, st1, r.0, r.1, st', a);
      } else {
        MixedDangles(c, spec, field, st, st1, r.0, r.1, st', a);
      }
    case TransformSpec(fn, inner, p) =>
      var r := Flatten(c, inner, "_inner_" + field, st).value;
      CoreOf(field);
      FlattenMeans(c, v, inner, "_inner_" + field, st, refs, r.0, r.1);
      if !(SpecMeaning(c.grouping, inner).Some? && Legible(c, inner, "_inner_" + field, st)) {
        TransformAppends(c, spec, field, st, r.0, r.1, st', a);
        HopelessOn(r.0.steps, st'.steps);
      } else if fn !in CHANGES {
        TransformMeans(c, v, st, spec, field, refs, r.0, r.1, st', a);
      } else if LegibleChange(c, r.0, field, p, r.1) {
        ChangeMeans(c, v, st, spec, field, refs, r.0, r.1, st', a);
      } else {
        ChangeDangles(c, st, spec, field, r.0, r.1, st', a);
      }
  }

  lemma TransformAppends(
    c: Config, spec: Spec, field: string, st: State, st1: State, input: Alias, st': State, a: Alias)
    requires spec.TransformSpec? && Flatten(c, spec.inner, "_inner_" + field, st) == Ok((st1, input))
    requires Flatten(c, spec, field, st) == Ok((st', a))
    ensures st1.steps <= st'.steps
  {
  }

  lemma {:induction false} FlattenSubsMean(
    c: Config, v: Scope, subs: seq<Sub>, from: nat, field: string, st: State, refs: AggRefs, st': State,
    bindings: seq<Binding>)
    requires WellNamed(c, v) && Sound(c, v, st) && IsScoped(v, refs) && AllConsistent(v, subs, refs)
    requires NumberedFrom(subs, from) && FlattenSubs(c, subs, field, st) == Ok((st', bindings))
    ensures if SubMeanings(c.grouping, subs).Some? && LegibleSubs(c, subs, field, st)
            then SubsLowered(c, v, st, subs, st', refs, bindings)
            else Hopeless(st'.steps)
    decreases subs, 0
  {
    if subs != [] {
      var name := Allocate(c, st, subs[0].placeholder + "_" + field);
      var sth := st.(hidden := st.hidden + {name});
      var first := Flatten(c, subs[0].spec, name, sth).value;
      FirstSubMeans(c, v, subs[0], from, field, st, refs, name, sth, first.0, first.1);
      FlattenSubsAppends(c, subs[1..], field, first.0, st', bindings[1..]);
      if !(SpecMeaning(c.grouping, subs[0].spec).Some? && Legible(c, subs[0].spec, name, sth)) {
        HopelessOn(first.0.steps, st'.steps);
      } else {
        FlattenSubsMean(c, v, subs[1..], from + 1, field, first.0, refs, st', bindings[1..]);
        SubsMeanOn(c, v, st, subs, first.0, st', refs, bindings);
      }
    }
  }

  lemma {:induction false} FirstSubMeans(
    c: Config, v: Scope, s: Sub, k: nat, field: string, st: State, refs: AggRefs, name: string, sth: State,
    st1: State, a: Alias)
    requires WellNamed(c, v) && Sound(c, v, st) && IsScoped(v, refs) && Consistent(v, s.spec, refs)
    requires s.placeholder == Placeholder(k) && name == Allocate(c, st, s.placeholder + "_" + field)
    requires sth == st.(hidden := st.hidden + {name}) && Flatten(c, s.spec, name, sth) == Ok((st1, a))
    ensures if SpecMeaning(c.grouping, s.spec).Some? && Legible(c, s.spec, name, sth)
            then Sound(c, v, st1) && AddsHidden(st, st1) && KeepsNames(st, st1, refs)
              && BindingHolds(c, st1, s, Binding(s.placeholder, a))
            else Hopeless(st1.steps)
    decreases s, 2
  {
    HiddenIsFresh(c, v, st, k, field, name, sth);
    FlattenMeans(c, v, s.spec, name, sth, refs, st1, a);
    if SpecMeaning(c.grouping, s.spec).Some? && Legible(c, s.spec, name, sth) {
      SubIsLowered(c, v, st, s, name, sth, refs, st1, a, SpecMeaning(c.grouping, s.spec).value);
    }
  }

  lemma SubsMeanOn(
    c: Config, v: Scope, st: State, subs: seq<Sub>, st1: State, st': State, refs: AggRefs, bindings: seq<Binding>)
    requires subs != [] && bindings != [] && Sound(c, v, st1) && AddsHidden(st, st1) && KeepsNames(st, st1, refs)
    requires BindingHolds(c, st1, subs[0], bindings[0])
    ensures SubsLowered(c, v, st1, subs[1..], st', refs, bindings[1..]) ==>
      SubsLowered(c, v, st, subs, st', refs, bindings)
  {
    if SubsLowered(c, v, st1, subs[1..], st', refs, bindings[1..]) {
      SubsLoweredCons(c, v, st, subs, st1, st', refs, bindings[0], bindings[1..]);
      assert [bindings[0]] + bindings[1..] == bindings;
    }
  }

  /** A formula, parsed and lowered: its columns can be computed in order exactly if what was read
      means something and every name written into an expression is legible; then its alias holds
      that meaning. */
  lemma LoweringKeepsMeaning(
    c: Config, v: Scope, a: Ast, refs: AggRefs, spec: Spec, field: string, st: State, st': State, alias: Alias)
    requires WellNamed(c, v) && Sound(c, v, st) && IsScoped(v, refs) && WellDotted(a)
    requires field in v.fields && Fresh(st, field)
    requires Parse(a, refs) == Ok(spec) && Flatten(c, spec, field, st) == Ok((st', alias))
    ensures Run(st'.steps).Some? <==> Meaning(c.grouping, AsRead(a), refs).Some? && Legible(c, spec, field, st)
    ensures Run(st'.steps).None? ==> Hopeless(st'.steps)
    ensures Run(st'.steps).Some? ==>
      && alias in Run(st'.steps).value && Run(st'.steps).value[alias] == Meaning(c.grouping, AsRead(a), refs).value
      && Sound(c, v, st') && Grows(st, st', field)
  {
    ParseReads(c.grouping, a, refs, spec);
    ParseIsConsistent(v, a, refs, spec);
    FlattenMeans(c, v, spec, field, st, refs, st', alias);
    if Hopeless(st'.steps) { HopelessIsNotRun(st'.steps); }
  }
}
