/** The enrichment pass as it runs: lists that are appended to, and a dictionary rewritten in place. */
module Enrichers {
  import opened Models
  import opened Formulas
  import opened Rewriting
  import opened Lowering
  import opened QueryLowering

  datatype Kind = Measure | Expression | Transformation

  function KindOf(s: Step): Kind {
    match s
    case MeasureStep(_, _) => Measure
    case ExprStep(_, _) => Expression
    case TransformStep(_, _, _) => Transformation
  }

  /** The steps of one kind, in order. */
  function Select(steps: seq<Step>, k: Kind): seq<Step> {
    if steps == [] then [] else (if KindOf(steps[0]) == k then [steps[0]] else []) + Select(steps[1..], k)
  }

  lemma {:induction false} SelectSnoc(steps: seq<Step>, s: Step, k: Kind)
    ensures Select(steps + [s], k) == Select(steps, k) + (if KindOf(s) == k then [s] else [])
  {
    if steps == [] {
      assert ([] + [s])[1..] == [];
    } else {
      SelectSnoc(steps[1..], s, k);
      assert (steps + [s])[1..] == steps[1..] + [s];
    }
  }

  lemma {:induction false} SelectIn(steps: seq<Step>, s: Step, k: Kind)
    ensures s in Select(steps, k) <==> s in steps && KindOf(s) == k
  {
    if steps != [] {
      SelectIn(steps[1..], s, k);
      assert steps == [steps[0]] + steps[1..];
    }
  }

  lemma {:induction false} SelectRenamed(steps: seq<Step>, from: Alias, to: Alias, k: Kind)
    ensures Select(RenameFirst(steps, from, to), k) ==
      if k == Measure then RenameFirst(Select(steps, k), from, to) else Select(steps, k)
  {
    if steps != [] {
      SelectRenamed(steps[1..], from, to, k);
      var rest := RenameFirst(steps, from, to);
      assert rest[1..] ==
        if steps[0].MeasureStep? && steps[0].alias == from then steps[1..] else RenameFirst(steps[1..], from, to);
      assert rest[0] ==
        if steps[0].MeasureStep? && steps[0].alias == from then MeasureStep(to, steps[0].ref) else steps[0];
      assert [] + Select(rest[1..], k) == Select(rest[1..], k) && [] + Select(steps[1..], k) == Select(steps[1..], k);
      if k == Measure && steps[0].MeasureStep? {
        var own := Select(steps, k);
        assert own == [steps[0]] + Select(steps[1..], k) && own[0] == steps[0] && own[1..] == Select(steps[1..], k);
      }
    }
  }

  lemma {:induction false} RenameFound(steps: seq<Step>, from: Alias, to: Alias, i: nat)
    requires i <= |steps| && forall j :: 0 <= j < i ==> !(steps[j].MeasureStep? && steps[j].alias == from)
    requires i < |steps| ==> steps[i].MeasureStep? && steps[i].alias == from
    ensures RenameFirst(steps, from, to) == if i < |steps| then steps[i := MeasureStep(to, steps[i].ref)] else steps
  {
    if i > 0 { RenameFound(steps[1..], from, to, i - 1); }
  }

  lemma MeasuresOnly(steps: seq<Step>)
    ensures forall s :: s in Select(steps, Measure) ==> s.MeasureStep?
  {
    forall s | s in Select(steps, Measure) ensures s.MeasureStep? { SelectIn(steps, s, Measure); }
  }

  /** What a rename does to each list. */
  lemma RenamedLists(steps: seq<Step>, from: Alias, to: Alias, i: nat)
    requires var measures := Select(steps, Measure);
      && i <= |measures| && (forall j :: 0 <= j < i ==> measures[j].alias != from)
      && (i < |measures| ==> measures[i].MeasureStep? && measures[i].alias == from)
    ensures var measures, renamed := Select(steps, Measure), RenameFirst(steps, from, to);
      && Select(renamed, Measure) ==
           (if i < |measures| then measures[i := MeasureStep(to, measures[i].ref)] else measures)
      && Select(renamed, Expression) == Select(steps, Expression)
      && Select(renamed, Transformation) == Select(steps, Transformation)
  {
    RenameFound(Select(steps, Measure), from, to, i);
    SelectRenamed(steps, from, to, Measure);
    SelectRenamed(steps, from, to, Expression);
    SelectRenamed(steps, from, to, Transformation);
  }

  // ----------------------------------------------------- one name at a time

  /** No key twice, and the order lists exactly the keys. */
  ghost predicate Ordered(d: Dict) {
    && (forall k :: k in d.order <==> k in d.at)
    && (forall i, j :: 0 <= i < j < |d.order| ==> d.order[i] != d.order[j])
  }

  /** Rewrites the known names, longest first. */
  method ResolveSql(d: Dict, sql: Term) returns (resolved: Term)
    requires Ordered(d)
    ensures resolved == Resolve(sql, d)
    ensures forall n :: sql == Word(n) && Readable(d, n) ==> resolved == Quoted(d.at[n])
    ensures forall n :: sql == Word(n) && !Readable(d, n) ==> resolved.Word? || resolved.Mangled?
  {
    resolved := sql;
    var names := ByLength(d.order);
    ByLengthFalls(d.order);
    for i := 0 to |names|
      invariant RewriteEach(resolved, names[i..], d.at) == Resolve(sql, d)
    {
      assert names[i..][0] == names[i] && names[i..][1..] == names[i + 1..];
      assert names[i] in names;
      resolved := Substitute(resolved, names[i], d.at[names[i]]);
    }
    if sql.Word? { NameBecomes(sql.name, d); }
  }

  lemma PutOrdered(d: Dict, k: string, a: Alias)
    requires Ordered(d)
    ensures Ordered(Put(d, k, a))
  {
  }

  lemma {:induction false} WithoutOrdered(order: seq<string>, k: string)
    requires forall i, j :: 0 <= i < j < |order| ==> order[i] != order[j]
    ensures forall i, j :: 0 <= i < j < |Without(order, k)| ==> Without(order, k)[i] != Without(order, k)[j]
    ensures forall n :: n in Without(order, k) <==> n in order && n != k
  {
    if order != [] {
      assert order == [order[0]] + order[1..];
      WithoutOrdered(order[1..], k);
      assert order[0] !in order[1..];
    }
  }

  lemma RemoveOrdered(d: Dict, k: string)
    requires Ordered(d)
    ensures Ordered(Remove(d, k))
  {
    WithoutOrdered(d.order, k);
  }

  // ------------------------------------------------------------------ the pass

  /** What follows a list of bindings already made. */
  function Continue(made: seq<Binding>, rest: Result<(State, seq<Binding>), Error>)
    : Result<(State, seq<Binding>), Error>
  {
    match rest
    case Err(e) => Err(e)
    case Ok((st, more)) => Ok((st, made + more))
  }

  /** The state of one enrichment: three lists of columns, the dictionary of known names, the
      index of aggregates and the names given to hoisted transforms. `steps` remembers in what
      order the columns were added. */
  class Enricher {
    const c: Config
    var measures: seq<Step>
    var expressions: seq<Step>
    var transforms: seq<Step>
    var known: Dict
    var canon: map<AggRef, Alias>
    var hidden: set<string>
    ghost var steps: seq<Step>

    ghost function Contents(): State
      reads this
    {
      State(steps, known, canon, hidden)
    }

    ghost predicate Valid()
      reads this
    {
      && measures == Select(steps, Measure) && expressions == Select(steps, Expression)
      && transforms == Select(steps, Transformation) && Ordered(known)
    }

    constructor (c: Config)
      ensures Valid() && Contents() == START && this.c == c
    {
      this.c := c;
      measures, expressions, transforms, steps := [], [], [], [];
      known, canon, hidden := Dict([], map[]), map[], {};
    }

    method Append(s: Step)
      requires Valid()
      modifies this
      ensures Valid() && Contents() == old(Contents()).(steps := old(steps) + [s])
    {
      match s {
        case MeasureStep(_, _) => measures := measures + [s];
        case ExprStep(_, _) => expressions := expressions + [s];
        case TransformStep(_, _, _) => transforms := transforms + [s];
      }
      SelectSnoc(steps, s, Measure);
      SelectSnoc(steps, s, Expression);
      SelectSnoc(steps, s, Transformation);
      steps := steps + [s];
    }

    method Learn(key: string, a: Alias)
      requires Valid()
      modifies this`known
      ensures Valid() && known == Put(old(known), key, a)
    {
      PutOrdered(known, key, a);
      known := Put(known, key, a);
    }

    method EnsureAggregatedMeasure(key: string, ref: AggRef) returns (error: Option<Error>)
      requires Valid()
      modifies this
      ensures match Ensure(c, old(Contents()), key, ref)
        case Err(e) => error == Some(e)
        case Ok(st) => error == None && Contents() == st && Valid()
    {
      var alias := Alias(c.model, Canonical(ref));
      if ref in canon {
        Learn(key, canon[ref]);
        return None;
      }
      var found := exists m :: m in measures && m.alias == alias;
      assert found == HasMeasure(steps, alias) by { forall s: Step { SelectIn(steps, s, Measure); } }
      if found {
        Learn(key, alias);
        canon := canon[ref := alias];
        return None;
      }
      if ref !in c.measures { return Some(UnresolvedMeasure(ref)); }
      Append(MeasureStep(alias, ref));
      Learn(key, alias);
      canon := canon[ref := alias];
      return None;
    }

    method EnsureMeasures(names: seq<string>, refs: AggRefs) returns (error: Option<Error>)
      requires Valid()
      modifies this
      ensures match EnsureAll(c, old(Contents()), names, refs)
        case Err(e) => error == Some(e)
        case Ok(st) => error == None && Contents() == st && Valid()
    {
      for i := 0 to |names|
        invariant Valid()
        invariant EnsureAll(c, Contents(), names[i..], refs) == EnsureAll(c, old(Contents()), names, refs)
      {
        assert names[i..][0] == names[i] && names[i..][1..] == names[i + 1..];
        if names[i] !in refs { return Some(BareName(names[i])); }
        error := EnsureAggregatedMeasure(names[i], refs[names[i]]);
        if error.Some? { return; }
      }
      return None;
    }

    method AllocateHiddenName(preferred: string) returns (candidate: string)
      requires Valid()
      modifies this`hidden
      ensures Valid() && candidate == Allocate(c, old(Contents()), preferred)
      ensures Contents() == old(Contents()).(hidden := old(hidden) + {candidate})
    {
      candidate := preferred;
      var k := 0;
      ghost var taken := Taken(c, Contents());
      ghost var left := taken;
      while candidate in c.reserved || candidate in hidden || candidate in known.at
        invariant candidate == Candidate(preferred, k)
        invariant forall j: nat :: j >= k && Candidate(preferred, j) in taken ==> Candidate(preferred, j) in left
        invariant FirstFree(taken, preferred, k, left) == Allocate(c, Contents(), preferred)
        decreases left
      {
        forall j: nat | j >= k + 1 ensures Candidate(preferred, j) != candidate {
          if Candidate(preferred, j) == candidate { CandidateInjective(preferred, j, k); }
        }
        left := left - {candidate};
        k := k + 1;
        candidate := preferred + "_" + Decimal(k + 1);
      }
      hidden := hidden + {candidate};
    }

    method AddExpression(name: string, sql: Term)
      requires Valid()
      modifies this
      ensures Valid() && Contents() == AddExpr(c, old(Contents()), name, sql)
    {
      Append(ExprStep(Alias(c.model, name), sql));
      Learn(name, Alias(c.model, name));
    }

    method AddTransformStep(name: string, fn: string, p: Params, window: Window, input: Alias)
      returns (error: Option<Error>)
      requires Valid()
      modifies this
      ensures match AddTransform(c, old(Contents()), name, fn, p, window, input)
        case Err(e) => error == Some(e)
        case Ok(st) => error == None && Contents() == st && Valid()
    {
      if fn in TIME_TRANSFORMS && !c.hasTime { return Some(NeedsTimeDimension(name)); }
      if fn in RANK_FAMILY && !PartitionKnown(c.grouping, p) { return Some(UnknownPartition(fn)); }
      Append(TransformStep(Alias(c.model, name), window, input));
      Learn(name, Alias(c.model, name));
      return None;
    }

    /** Binds the placeholders for as long as it takes to resolve an expression. */
    method ResolveBound(bindings: seq<Binding>, sql: Term) returns (resolved: Term)
      requires Valid()
      modifies this`known
      ensures Valid() && resolved == Resolve(sql, BindAll(old(known), bindings))
      ensures known == RestoreAll(BindAll(old(known), bindings), bindings, Shadowed(old(known), bindings))
    {
      var prior := Shadowed(known, bindings);
      BindPlaceholders(bindings);
      resolved := ResolveSql(known, sql);
      RestorePlaceholders(bindings, prior);
    }

    method BindPlaceholders(bindings: seq<Binding>)
      requires Valid()
      modifies this`known
      ensures Valid() && known == BindAll(old(known), bindings)
    {
      for i := 0 to |bindings|
        invariant Valid() && BindAll(known, bindings[i..]) == BindAll(old(known), bindings)
      {
        assert bindings[i..][1..] == bindings[i + 1..];
        Learn(bindings[i].name, bindings[i].alias);
      }
    }

    method RestorePlaceholders(bindings: seq<Binding>, prior: seq<Option<Alias>>)
      requires Valid() && |bindings| == |prior|
      modifies this`known
      ensures Valid() && known == RestoreAll(old(known), bindings, prior)
    {
      for i := 0 to |bindings|
        invariant Valid() && RestoreAll(known, bindings[i..], prior[i..]) == RestoreAll(old(known), bindings, prior)
      {
        assert bindings[i..][1..] == bindings[i + 1..] && prior[i..][1..] == prior[i + 1..];
        if prior[i].None? { Forget(bindings[i].name); } else { Learn(bindings[i].name, prior[i].value); }
      }
    }

    method Forget(key: string)
      requires Valid()
      modifies this`known
      ensures Valid() && known == Remove(old(known), key)
    {
      RemoveOrdered(known, key);
      known := Remove(known, key);
    }

    method FlattenSpec(spec: Spec, field: string) returns (r: Result<Alias, Error>)
      requires Valid()
      modifies this
      ensures match Flatten(c, spec, field, old(Contents()))
        case Err(e) => r == Err(e)
        case Ok((st, a)) => r == Ok(a) && Contents() == st && Valid()
      decreases spec, 1
    {
      match spec {
        case AggSpec(ref) =>
          var error := EnsureAggregatedMeasure(Canonical(ref), ref);
          if error.Some? { return Err(error.value); }
          return Ok(known.at[Canonical(ref)]);
        case Arithmetic(sql, names, refs, _) =>
          var error := EnsureMeasures(names, refs);
          if error.Some? { return Err(error.value); }
          var resolved := ResolveSql(known, sql);
          AddExpression(field, resolved);
          return Ok(Alias(c.model, field));
        case Mixed(sql, names, subs, refs, _) =>
          var error := EnsureMeasures(names, refs);
          if error.Some? { return Err(error.value); }
          var bindings := FlattenSubTransforms(subs, field);
          if bindings.Err? { return Err(bindings.error); }
          var resolved := ResolveBound(bindings.value, sql);
          AddExpression(field, resolved);
          return Ok(Alias(c.model, field));
        case TransformSpec(fn, inner, p) =>
          r := FlattenTransform(spec, field);
      }
    }

    method FlattenTransform(spec: Spec, field: string) returns (r: Result<Alias, Error>)
      requires Valid() && spec.TransformSpec?
      modifies this
      ensures match Flatten(c, spec, field, old(Contents()))
        case Err(e) => r == Err(e)
        case Ok((st, a)) => r == Ok(a) && Contents() == st && Valid()
      decreases spec, 0
    {
      var fn, p := spec.fn, spec.params;
      if Nests(fn, spec.inner) { return Err(NestedSelfJoin(fn, spec.inner.fn)); }
      var input := FlattenSpec(spec.inner, "_inner_" + field);
      if input.Err? { return Err(input.error); }
      if fn in CHANGES {
        r := AddChangeSteps(field, fn, p, input.value);
        return;
      }
      var window := WindowOf(c.grouping, fn, Offset(p.extra, 1), p, IsPredicateSpec(spec.inner));
      var error := AddTransformStep(field, fn, p, window, input.value);
      if error.Some? { return Err(error.value); }
      return Ok(Alias(c.model, field));
    }

    method AddChangeSteps(field: string, fn: string, p: Params, input: Alias) returns (r: Result<Alias, Error>)
      requires Valid()
      modifies this
      ensures match AddChange(c, old(Contents()), field, fn, p, input)
        case Err(e) => r == Err(e)
        case Ok((st, a)) => r == Ok(a) && Contents() == st && Valid()
    {
      var shifted := "_ts_" + field;
      var error := AddTransformStep(
        shifted, "time_shift", Params(p.extra, [], None), ShiftOf(c.grouping, p), input);
      if error.Some? { return Err(error.value); }
      var key := FirstKey(known.order, known.at, input);
      if key.None? { return Err(NoInnerKey(input)); }
      var sql := ResolveSql(known, ChangeTerm(fn, Word(key.value), Word(shifted)));
      AddExpression(field, sql);
      return Ok(Alias(c.model, field));
    }

    method FlattenSubTransforms(subs: seq<Sub>, field: string) returns (r: Result<seq<Binding>, Error>)
      requires Valid()
      modifies this
      ensures match FlattenSubs(c, subs, field, old(Contents()))
        case Err(e) => r == Err(e)
        case Ok((st, bindings)) => r == Ok(bindings) && Contents() == st && Valid()
      decreases subs, 0
    {
      var bindings: seq<Binding> := [];
      ContinueFromNothing(FlattenSubs(c, subs, field, Contents()));
      assert subs[0..] == subs;
      for i := 0 to |subs|
        invariant Valid()
        invariant Continue(bindings, FlattenSubs(c, subs[i..], field, Contents())) ==
          FlattenSubs(c, subs, field, old(Contents()))
      {
        SubsStep(c, subs, i, field, Contents());
        var name := AllocateHiddenName(subs[i].placeholder + "_" + field);
        var alias := FlattenSpec(subs[i].spec, name);
        if alias.Err? { return Err(alias.error); }
        var binding := Binding(subs[i].placeholder, alias.value);
        ContinueOn(bindings, [binding], FlattenSubs(c, subs[i + 1..], field, Contents()));
        bindings := bindings + [binding];
      }
      assert subs[|subs|..] == [] && bindings + [] == bindings;
      return Ok(bindings);
    }

    method RenameFirstMeasure(prev: Alias, user: Alias)
      requires Valid()
      modifies this`measures, this`steps
      ensures Valid() && steps == RenameFirst(old(steps), prev, user)
    {
      MeasuresOnly(steps);
      var i := 0;
      while i < |measures| && measures[i].alias != prev
        invariant i <= |measures| && forall j :: 0 <= j < i ==> measures[j].alias != prev
      {
        i := i + 1;
      }
      RenamedLists(steps, prev, user, i);
      if i < |measures| { measures := measures[i := MeasureStep(user, measures[i].ref)]; }
      steps := RenameFirst(steps, prev, user);
    }

    /** Surfaces an aggregate under the name its measure was given. */
    method RenameMeasure(ref: AggRef, name: string)
      requires Valid()
      modifies this
      ensures Valid() && Contents() == Rename(c, old(Contents()), ref, name)
    {
      var user, prev := Alias(c.model, name), Alias(c.model, Canonical(ref));
      RenameFirstMeasure(prev, user);
      Learn(name, user);
      Learn(Canonical(ref), user);
      canon := map r | r in canon :: if canon[r] == prev then user else canon[r];
    }

    method EnrichField(f: Field, declared: map<AggRef, string>) returns (r: Result<map<AggRef, string>, Error>)
      requires Valid()
      modifies this
      ensures match AddField(c, Progress(old(Contents()), declared), f)
        case Err(e) => r == Err(e)
        case Ok(p) => r == Ok(p.declared) && Contents() == p.st && Valid()
    {
      var given := GivenName(f);
      if given.Some? && given.value in c.columns { return Err(Collision(given.value)); }
      match f {
        case Aggregate(ref, _) =>
          if ref in declared && declared[ref] != Public(f) { return Err(Collision(Public(f))); }
          var error := EnsureAggregatedMeasure(Canonical(ref), ref);
          if error.Some? { return Err(error.value); }
          if IsRenamed(f) {
            if Canonical(ref) in c.columns { return Err(Collision(f.name.value)); }
            RenameMeasure(ref, f.name.value);
          }
          return Ok(declared[ref := Public(f)]);
        case Formula(ast, refs, fieldName, _) =>
          var spec := Parse(ast, refs);
          if spec.Err? { return Err(spec.error); }
          var alias := FlattenSpec(spec.value, fieldName);
          if alias.Err? { return Err(alias.error); }
          return Ok(declared);
      }
    }

    /** Lowers the measures of a query. On success, and given well-formed names, their columns can
        be computed exactly if no aggregate is renamed after its use and every formula is legible,
        and then hold what they mean. */
    method EnrichMeasures(fields: seq<Field>) returns (error: Option<Error>)
      requires Valid() && Contents() == START
      modifies this
      ensures match AddFields(c, Progress(START, map[]), fields)
        case Err(e) => error == Some(e)
        case Ok(p) => error == None && Contents() == p.st && Valid()
      ensures forall refs :: error == None && QueryOk(c, refs, fields) ==>
        (Run(steps).Some? <==> RenamedInTime(fields) && AllLegible(c, Progress(START, map[]), fields)) &&
        (Run(steps).Some? ==> forall f :: f in fields ==> Surfaced(c, Contents(), f))
    {
      var declared: map<AggRef, string> := map[];
      for i := 0 to |fields|
        invariant Valid()
        invariant AddFields(c, Progress(Contents(), declared), fields[i..]) ==
          AddFields(c, Progress(START, map[]), fields)
      {
        assert fields[i..][0] == fields[i] && fields[i..][1..] == fields[i + 1..];
        var r := EnrichField(fields[i], declared);
        if r.Err? { return Some(r.error); }
        declared := r.value;
      }
      forall refs | QueryOk(c, refs, fields)
        ensures Run(steps).Some? <==> RenamedInTime(fields) && AllLegible(c, Progress(START, map[]), fields)
        ensures Run(steps).Some? ==> forall f :: f in fields ==> Surfaced(c, Contents(), f)
      {
        QueryIsComputable(c, refs, fields, Progress(Contents(), declared));
      }
      return None;
    }

    /** What is left to do from the `i`-th transform on, in terms of the rest. */
    lemma SubsStep(c: Config, subs: seq<Sub>, i: nat, field: string, st: State)
      requires i < |subs|
      ensures var name := Allocate(c, st, subs[i].placeholder + "_" + field);
        FlattenSubs(c, subs[i..], field, st) ==
          match Flatten(c, subs[i].spec, name, st.(hidden := st.hidden + {name}))
          case Err(e) => Err(e)
          case Ok((st1, alias)) =>
            Continue([Binding(subs[i].placeholder, alias)], FlattenSubs(c, subs[i + 1..], field, st1))
    {
      assert subs[i..][0] == subs[i] && subs[i..][1..] == subs[i + 1..];
    }

    lemma ContinueFromNothing(rest: Result<(State, seq<Binding>), Error>)
      ensures Continue([], rest) == rest
    {
      if rest.Ok? { assert [] + rest.value.1 == rest.value.1; }
    }

    lemma ContinueOn(made: seq<Binding>, next: seq<Binding>, rest: Result<(State, seq<Binding>), Error>)
      ensures Continue(made, Continue(next, rest)) == Continue(made + next, rest)
    {
      if rest.Ok? { assert made + (next + rest.value.1) == (made + next) + rest.value.1; }
    }
  }
}
