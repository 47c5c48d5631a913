/** What the columns of transforms are: their windows field by field, at every depth of a formula. */
module LoweringSteps {
  import opened Models
  import opened Formulas
  import opened Rewriting
  import opened Lowering
  import opened LoweringCorrect
  import FilterPrinter
  import FilterText

  // ------------------------------------------------------------------ fields

  /** The number that digits say. */
  function NumberOf(s: string): int {
    if s == "" then 0 else NumberOf(s[..|s| - 1]) * 10 + (s[|s| - 1] as int - '0' as int)
  }

  /** The text says the number, with a sign in front of its digits if that is negative. */
  predicate Says(s: string, n: int) {
    if n < 0 then s != "" && s[0] == '-' && NumberOf(s[1..]) == -n else NumberOf(s) == n
  }

  lemma {:induction false} DecimalIsNumber(n: nat)
    ensures NumberOf(Decimal(n)) == n
    ensures n > 0 ==> Decimal(n)[0] != '0'
  {
    var s := Decimal(n);
    assert Digit(n % 10) as int - '0' as int == n % 10;
    if n >= 10 {
      DecimalIsNumber(n / 10);
      assert s[..|s| - 1] == Decimal(n / 10);
    } else {
      assert s[..|s| - 1] == "";
    }
  }

  /** The offset is the first argument if that is a number. */
  predicate IsOffset(offset: int, extra: seq<Arg>, otherwise: int) {
    if extra == [] then offset == otherwise else
      match extra[0]
      case TextArg(_) => offset == otherwise
      case IntArg(n) => offset == n
  }

  /** The granularity is the text of the second argument. */
  predicate IsGranularity(granularity: Option<string>, extra: seq<Arg>) {
    if |extra| < 2 then granularity == None else
      granularity.Some? &&
      match extra[1]
      case TextArg(t) => granularity.value == t
      case IntArg(n) => Says(granularity.value, n)
  }

  predicate InRankFamily(fn: string) {
    fn == "rank" || fn == "percent_rank" || fn == "dense_rank" || fn == "ntile"
  }

  predicate NeedsTime(fn: string) {
    || fn == "cumsum" || fn == "change" || fn == "change_pct" || fn == "time_shift" || fn == "first" || fn == "last"
    || fn == "lag" || fn == "lead" || fn == "consecutive_periods"
  }

  /** The shift of a change looks one period back unless told otherwise, within the query's
      dimensions. */
  predicate IsShift(g: Grouping, p: Params, w: Window) {
    && w.fn == "time_shift" && IsOffset(w.offset, p.extra, -1) && IsGranularity(w.granularity, p.extra)
    && w.partition == g.aliases && w.ordered && !w.booleanInput && w.n == None
  }

  /** Any other transform: one period on unless told otherwise, within the query's dimensions; ranks
      within the columns they name, or everything. */
  predicate IsOwnWindow(g: Grouping, t: Spec, w: Window)
    requires t.TransformSpec?
  {
    var p := t.params;
    && w.fn == t.fn && IsOffset(w.offset, p.extra, 1) && IsGranularity(w.granularity, p.extra)
    && (if InRankFamily(t.fn) then IsNamedPartition(g, p.partitionBy, w.partition) else w.partition == g.aliases)
    && (w.ordered <==> NeedsTime(t.fn)) && w.n == p.n
    && (w.booleanInput <==> (t.inner.Arithmetic? || t.inner.Mixed?) && t.inner.isPredicate)
  }

  predicate IsNamedPartition(g: Grouping, names: seq<string>, partition: seq<string>) {
    && |partition| == |names|
    && forall i :: 0 <= i < |names| ==> names[i] in g.byName && partition[i] == g.byName[names[i]]
  }

  lemma WindowFields(g: Grouping, fn: string, offset: int, p: Params, booleanInput: bool, default: int)
    requires offset == Offset(p.extra, default)
    ensures var w := WindowOf(g, fn, offset, p, booleanInput);
      && w.fn == fn && IsOffset(w.offset, p.extra, default) && IsGranularity(w.granularity, p.extra)
      && w.n == p.n && w.booleanInput == booleanInput && (w.ordered <==> NeedsTime(fn))
      && (!InRankFamily(fn) ==> w.partition == g.aliases)
      && (InRankFamily(fn) && PartitionKnown(g, p) ==> IsNamedPartition(g, p.partitionBy, w.partition))
  {
    if |p.extra| >= 2 && p.extra[1].IntArg? { ArgIsNumber(p.extra[1].n); }
  }

  lemma ArgIsNumber(n: int)
    ensures Says(ArgText(IntArg(n)), n)
  {
    if n < 0 {
      DecimalIsNumber(-n);
      var s := ArgText(IntArg(n));
      assert s[0] == '-' && s[1..] == Decimal(-n);
    } else {
      DecimalIsNumber(n);
    }
  }

  /** What a change is worth: its operand less the operand's values one period back, unless told
      otherwise. */
  lemma ChangeMeaning(g: Grouping, spec: Spec, x: Value) returns (shift: Window)
    requires spec.TransformSpec? && spec.fn == "change" && SpecMeaning(g, spec.inner) == Some(x)
    ensures IsShift(g, spec.params, shift)
    ensures SpecMeaning(g, spec) == Some(OpValue("-", [x, WindowValue(shift, x)]))
  {
    var p := spec.params;
    shift := ShiftOf(g, p);
    WindowFields(g, "time_shift", Offset(p.extra, -1), Params(p.extra, [], None), false, -1);
    ChangeValue(g, spec);
  }

  // ------------------------------------------------------------ one transform

  /** A transform is lowered to one column, a change to two: its shift, and an expression. */
  lemma TransformSteps(
    c: Config, t: Spec, field: string, st: State, st1: State, input: Alias, st': State, a: Alias)
    requires t.TransformSpec? && Flatten(c, t.inner, "_inner_" + field, st) == Ok((st1, input))
    requires Flatten(c, t, field, st) == Ok((st', a))
    ensures a == Alias(c.model, field) && st1.steps <= st'.steps
    ensures var n := |st1.steps|;
      if t.fn == "change" || t.fn == "change_pct" then
        && |st'.steps| == n + 2 && st'.steps[n].TransformStep? && st'.steps[n + 1].ExprStep?
        && st'.steps[n].alias == Alias(c.model, "_ts_" + field) && st'.steps[n].input == input
        && IsShift(c.grouping, t.params, st'.steps[n].window) && st'.steps[n + 1].alias == a
      else
        && |st'.steps| == n + 1 && st'.steps[n].TransformStep? && st'.steps[n].alias == a
        && st'.steps[n].input == input && IsOwnWindow(c.grouping, t, st'.steps[n].window)
  {
    var p := t.params;
    if t.fn in CHANGES {
      WindowFields(c.grouping, "time_shift", Offset(p.extra, -1), Params(p.extra, [], None), false, -1);
      assert AddChange(c, st1, field, t.fn, p, input) == Ok((st', a));
    } else {
      WindowFields(c.grouping, t.fn, Offset(p.extra, 1), p, IsPredicateSpec(t.inner), 1);
    }
  }

  /** Two transforms that both join the query to itself. */
  predicate BothJoinItself(outer: string, inside: string) {
    || ((outer == "change" || outer == "change_pct")
        && (inside == "time_shift" || inside == "change" || inside == "change_pct"))
    || (outer == "time_shift" && inside == "time_shift")
  }

  lemma NestsIffBothJoin(outer: string, inner: Spec)
    ensures Nests(outer, inner) <==> inner.TransformSpec? && BothJoinItself(outer, inner.fn)
  {
  }

  /** A transform directly in another is rejected exactly if both are self-joins. */
  lemma SelfJoinsDoNotNest(c: Config, t: Spec, field: string, st: State)
    requires t.TransformSpec? && t.inner.TransformSpec? && BothJoinItself(t.fn, t.inner.fn)
    ensures Flatten(c, t, field, st) == Err(NestedSelfJoin(t.fn, t.inner.fn))
  {
    NestsIffBothJoin(t.fn, t.inner);
  }

  /** After its operand, a transform is rejected exactly if it needs a time dimension that the query does
      not have, or is partitioned by what is no dimension. */
  lemma TransformIsRejected(c: Config, t: Spec, field: string, st: State, st1: State, input: Alias)
    requires t.TransformSpec? && (t.inner.TransformSpec? ==> !BothJoinItself(t.fn, t.inner.fn))
    requires Flatten(c, t.inner, "_inner_" + field, st) == Ok((st1, input))
    ensures var r := Flatten(c, t, field, st);
      if NeedsTime(t.fn) && !c.hasTime then
        r == Err(NeedsTimeDimension(if t.fn == "change" || t.fn == "change_pct" then "_ts_" + field else field))
      else if InRankFamily(t.fn) && !PartitionKnown(c.grouping, t.params) then r == Err(UnknownPartition(t.fn))
      else r.Ok? || r == Err(NoInnerKey(input))
  {
    NestsIffBothJoin(t.fn, t.inner);
    Families(t.fn);
    if t.fn in CHANGES {
      assert Flatten(c, t, field, st) == AddChange(c, st1, field, t.fn, t.params, input);
      ChangeIsRejected(c, st1, field, t.fn, t.params, input);
    } else {
      OwnIsRejected(c, t, field, st, st1, input);
    }
  }

  lemma Families(fn: string)
    ensures fn in CHANGES <==> fn == "change" || fn == "change_pct"
    ensures fn in RANK_FAMILY <==> InRankFamily(fn)
    ensures fn in TIME_TRANSFORMS <==> NeedsTime(fn)
    ensures fn in CHANGES ==> NeedsTime(fn) && !InRankFamily(fn)
  {
  }

  lemma OwnIsRejected(c: Config, t: Spec, field: string, st: State, st1: State, input: Alias)
    requires t.TransformSpec? && t.fn !in CHANGES && !Nests(t.fn, t.inner)
    requires Flatten(c, t.inner, "_inner_" + field, st) == Ok((st1, input))
    ensures var r := Flatten(c, t, field, st);
      if t.fn in TIME_TRANSFORMS && !c.hasTime then r == Err(NeedsTimeDimension(field))
      else if t.fn in RANK_FAMILY && !PartitionKnown(c.grouping, t.params) then r == Err(UnknownPartition(t.fn))
      else r.Ok?
  {
  }

  lemma ChangeIsRejected(c: Config, st: State, field: string, fn: string, p: Params, input: Alias)
    ensures var r := AddChange(c, st, field, fn, p, input);
      if !c.hasTime then r == Err(NeedsTimeDimension("_ts_" + field)) else r.Ok? || r == Err(NoInnerKey(input))
  {
  }

  // ---------------------------------------------------------------- any depth

  /** The transform is the spec itself, or inside. */
  predicate IsIn(spec: Spec, t: Spec)
    decreases spec, 1
  {
    spec == t ||
    match spec
    case TransformSpec(_, inner, _) => IsIn(inner, t)
    case Mixed(_, _, subs, _, _) => IsInAny(subs, t)
    case _ => false
  }

  predicate IsInAny(subs: seq<Sub>, t: Spec)
    decreases subs, 0
  {
    subs != [] && (IsIn(subs[0].spec, t) || IsInAny(subs[1..], t))
  }

  /** The column is that of a transform inside the formula: its own window, or its hidden shift. */
  ghost predicate IsOf(g: Grouping, t: Spec, s: Step) {
    t.TransformSpec? && s.TransformStep? &&
    if t.fn == "change" || t.fn == "change_pct" then IsShift(g, t.params, s.window) else IsOwnWindow(g, t, s.window)
  }

  ghost predicate Explained(g: Grouping, spec: Spec, s: Step) {
    s.TransformStep? ==> exists t :: IsIn(spec, t) && IsOf(g, t, s)
  }

  ghost predicate ExplainedByAny(g: Grouping, subs: seq<Sub>, s: Step) {
    s.TransformStep? ==> exists t :: IsInAny(subs, t) && IsOf(g, t, s)
  }

  lemma {:induction false} EnsureAllAddsMeasures(c: Config, st: State, names: seq<string>, refs: AggRefs, st': State)
    requires EnsureAll(c, st, names, refs) == Ok(st')
    ensures st.steps <= st'.steps && forall i :: |st.steps| <= i < |st'.steps| ==> st'.steps[i].MeasureStep?
    decreases |names|
  {
    if names != [] {
      EnsureAllAddsMeasures(c, Ensure(c, st, names[0], refs[names[0]]).value, names[1..], refs, st');
    }
  }

  /** Every column of a transform that lowering adds is one of the formula's, with its fields. */
  lemma {:induction false} StepsAreExplained(c: Config, spec: Spec, field: string, st: State, st': State, a: Alias)
    requires Flatten(c, spec, field, st) == Ok((st', a))
    ensures st.steps <= st'.steps
    ensures forall i :: |st.steps| <= i < |st'.steps| ==> Explained(c.grouping, spec, st'.steps[i])
    decreases spec, 1
  {
    match spec
    case AggSpec(_) =>
    case Arithmetic(_, names, refs, _) =>
      EnsureAllAddsMeasures(c, st, names, refs, EnsureAll(c, st, names, refs).value);
    case Mixed(_, names, subs, refs, _) =>
      var st1 := EnsureAll(c, st, names, refs).value;
      EnsureAllAddsMeasures(c, st, names, refs, st1);
      var r := FlattenSubs(c, subs, field, st1).value;
      SubStepsAreExplained(c, subs, field, st1, r.0, r.1);
      forall i | |st.steps| <= i < |st'.steps| ensures Explained(c.grouping, spec, st'.steps[i]) {
        if i < |st1.steps| {
          assert st'.steps[i] == st1.steps[i];
        } else if i < |r.0.steps| {
          assert st'.steps[i] == r.0.steps[i] && ExplainedByAny(c.grouping, subs, r.0.steps[i]);
        }
      }
    case TransformSpec(_, inner, _) =>
      var r := Flatten(c, inner, "_inner_" + field, st).value;
      StepsAreExplained(c, inner, "_inner_" + field, st, r.0, r.1);
      TransformSteps(c, spec, field, st, r.0, r.1, st', a);
      forall i | |st.steps| <= i < |st'.steps| ensures Explained(c.grouping, spec, st'.steps[i]) {
        if i < |r.0.steps| {
          assert st'.steps[i] == r.0.steps[i] && Explained(c.grouping, inner, r.0.steps[i]);
        } else if i == |r.0.steps| {
          assert IsIn(spec, spec) && IsOf(c.grouping, spec, st'.steps[i]);
        }
      }
  }

  lemma {:induction false} SubStepsAreExplained(
    c: Config, subs: seq<Sub>, field: string, st: State, st': State, bindings: seq<Binding>)
    requires FlattenSubs(c, subs, field, st) == Ok((st', bindings))
    ensures st.steps <= st'.steps
    ensures forall i :: |st.steps| <= i < |st'.steps| ==> ExplainedByAny(c.grouping, subs, st'.steps[i])
    decreases subs, 0
  {
    if subs != [] {
      var name := Allocate(c, st, subs[0].placeholder + "_" + field);
      var sth := st.(hidden := st.hidden + {name});
      var first := Flatten(c, subs[0].spec, name, sth).value;
      StepsAreExplained(c, subs[0].spec, name, sth, first.0, first.1);
      SubStepsAreExplained(c, subs[1..], field, first.0, st', bindings[1..]);
      forall i | |st.steps| <= i < |st'.steps| ensures ExplainedByAny(c.grouping, subs, st'.steps[i]) {
        if i < |first.0.steps| {
          assert st'.steps[i] == first.0.steps[i] && Explained(c.grouping, subs[0].spec, first.0.steps[i]);
        } else {
          assert ExplainedByAny(c.grouping, subs[1..], st'.steps[i]);
        }
      }
    }
  }

  // ---------------------------------------------------------------- parsing

  /** A call of a transform parses exactly if its operand does and its arguments are its own: ranks take
      no further positional ones, only they are partitioned, and only `ntile` counts, from 1 on. */
  lemma TransformIsParsed(fn: string, x: Ast, p: Params, refs: AggRefs)
    ensures Parse(Transform(fn, x, p), refs).Ok? <==>
      && Parse(x, refs).Ok?
      && (if InRankFamily(fn) then p.extra == [] else p.partitionBy == [])
      && (if fn == "ntile" then p.n.Some? && p.n.value >= 1 else p.n == None)
    ensures Parse(Transform(fn, x, p), refs).Ok? ==>
      Parse(Transform(fn, x, p), refs).value == TransformSpec(fn, Parse(x, refs).value, p)
  {
    Families(fn);
  }

  ghost predicate IsKnown(fn: string) {
    exists s :: s in FilterPrinter.SCALARS && FilterText.SameIgnoringCase(fn, s)
  }

  /** A scalar function is rejected exactly if it is not known, in any letter case; else only its arguments
      can be. */
  lemma ScalarIsParsed(fn: string, args: seq<Ast>, refs: AggRefs)
    ensures !IsKnown(fn) ==> Parse(Scalar(fn, args), refs) == Err(UnknownFunction(fn))
    ensures IsKnown(fn) ==>
      match HoistAll(args, refs, Hoisted([], []))
      case Err(e) => Parse(Scalar(fn, args), refs) == Err(e)
      case Ok(_) => Parse(Scalar(fn, args), refs).Ok?
  {
    var a, h0 := Scalar(fn, args), Hoisted([], []);
    FilterText.KnownInAnyCase(fn);
    assert IsScalar(fn) <==> IsKnown(fn);
    assert Parse(a, refs) == if IsScalar(fn) then ParseMixed(a, refs) else Err(UnknownFunction(fn));
    if IsScalar(fn) && HoistAll(args, refs, h0).Ok? {
      assert Hoist(a, refs, h0) == Ok((Apply(fn, HoistAll(args, refs, h0).value.0), HoistAll(args, refs, h0).value.1));
    }
  }

  /** `*:count` is `_count`; `revenue:percentile(p=0.5)` is `revenue_percentile_p_0_5`. */
  lemma CanonicalIs(r: AggRef)
    ensures Canonical(r) == (if r.measure == "*" then [] else r.measure) + ("_" + (r.agg + r.suffix))
    ensures r == AggRef("*", "count", "") ==> Canonical(r) == "_count"
    ensures r == AggRef("revenue", "percentile", "_p_0_5") ==> Canonical(r) == "revenue_percentile_p_0_5"
  {
    var under := "_";
    assert (r.measure + under) + r.agg + r.suffix == r.measure + (under + (r.agg + r.suffix));
    assert under + r.agg + r.suffix == [] + (under + (r.agg + r.suffix));
  }
}
