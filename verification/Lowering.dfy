/** Lowering: a nested formula becomes a list of named columns, each computed from earlier ones. */
module Lowering {
  import opened Models
  import opened Formulas
  import opened Rewriting

  // ------------------------------------------------------------------ steps

  /** A column to compute: an aggregate, an expression over aliases, or a transform of one. */
  datatype Step =
    | MeasureStep(alias: Alias, ref: AggRef)
    | ExprStep(alias: Alias, sql: Term)
    | TransformStep(alias: Alias, window: Window, input: Alias)

  type Env = map<Alias, Value>

  /** The value of resolved SQL; an identifier, a path or mangled text in it has none. */
  function Eval(t: Term, env: Env): Option<Value>
    decreases t, 1
  {
    match t
    case Literal(x) => Some(LiteralValue(x))
    case Quoted(a) => if a in env then Some(env[a]) else None
    case Word(_) => None
    case Path(_) => None
    case Mangled(_) => None
    case Apply(op, args) => ApplyTo(op, EvalAll(args, env))
  }

  function EvalAll(args: seq<Term>, env: Env): Option<seq<Value>>
    decreases args, 0
  {
    if args == [] then Some([]) else Cons(Eval(args[0], env), EvalAll(args[1..], env))
  }

  function StepValue(s: Step, env: Env): Option<Value> {
    match s
    case MeasureStep(_, ref) => Some(AggValue(ref))
    case ExprStep(_, sql) => Eval(sql, env)
    case TransformStep(_, window, input) => if input in env then Some(WindowValue(window, env[input])) else None
  }

  /** Computes one more column: it may read earlier aliases only, and its own must be new. */
  function Exec(env: Option<Env>, s: Step): Option<Env> {
    if env.None? || s.alias in env.value then None else
      match StepValue(s, env.value)
      case None => None
      case Some(v) => Some(env.value[s.alias := v])
  }

  /** Computes the columns in order. */
  function Run(steps: seq<Step>): Option<Env> {
    if steps == [] then Some(map[]) else Exec(Run(steps[..|steps| - 1]), steps[|steps| - 1])
  }

  // ------------------------------------------------------------------ state

  /** What enrichment has built so far. `known` says which alias a name stands for, `canon` which
      alias an aggregate is surfaced under; `hidden` are the names given to hoisted transforms. */
  datatype State = State(steps: seq<Step>, known: Dict, canon: map<AggRef, Alias>, hidden: set<string>)

  const START := State([], Dict([], map[]), map[], {})

  /** What enrichment is given. `reserved` are the public names of measures and dimensions;
      `columns` the model's own columns; `measures` the aggregates it can compute. */
  datatype Config = Config(
    model: string, reserved: set<string>, columns: set<string>, measures: set<AggRef>, hasTime: bool,
    grouping: Grouping)

  // ------------------------------------------------------------- operations

  predicate HasMeasure(steps: seq<Step>, a: Alias) {
    exists s :: s in steps && s.MeasureStep? && s.alias == a
  }

  /** Makes `key` stand for the aggregate, which is computed unless it already is. */
  function Ensure(c: Config, st: State, key: string, ref: AggRef): Result<State, Error> {
    var alias := Alias(c.model, Canonical(ref));
    if ref in st.canon then Ok(st.(known := Put(st.known, key, st.canon[ref])))
    else if HasMeasure(st.steps, alias)
      then Ok(st.(known := Put(st.known, key, alias), canon := st.canon[ref := alias]))
    else if ref !in c.measures then Err(UnresolvedMeasure(ref))
    else Ok(State(
      st.steps + [MeasureStep(alias, ref)], Put(st.known, key, alias), st.canon[ref := alias], st.hidden))
  }

  function EnsureAll(c: Config, st: State, names: seq<string>, refs: AggRefs): Result<State, Error>
    decreases |names|
  {
    if names == [] then Ok(st)
    else if names[0] !in refs then Err(BareName(names[0]))
    else match Ensure(c, st, names[0], refs[names[0]])
      case Err(e) => Err(e)
      case Ok(st') => EnsureAll(c, st', names[1..], refs)
  }

  /** The `k`-th candidate for a hidden name: the preferred one, then `_2`, `_3`, ... */
  function Candidate(preferred: string, k: nat): string {
    if k == 0 then preferred else preferred + "_" + Decimal(k + 1)
  }

  lemma CandidateInjective(preferred: string, j: nat, k: nat)
    requires Candidate(preferred, j) == Candidate(preferred, k)
    ensures j == k
  {
    if j > 0 && k > 0 {
      var n := |preferred| + 1;
      assert Candidate(preferred, j)[n..] == Decimal(j + 1) && Candidate(preferred, k)[n..] == Decimal(k + 1);
      DecimalInjective(j + 1, k + 1);
    }
  }

  /** The first candidate from the `k`-th on that is not taken; `left` bounds how many can be. */
  function FirstFree(taken: set<string>, preferred: string, k: nat, ghost left: set<string>): (r: string)
    requires forall j: nat :: j >= k && Candidate(preferred, j) in taken ==> Candidate(preferred, j) in left
    ensures r !in taken && exists j: nat :: r == Candidate(preferred, j)
    decreases left
  {
    var candidate := Candidate(preferred, k);
    if candidate !in taken then candidate else
      assert forall j: nat :: j >= k + 1 ==> Candidate(preferred, j) != candidate by {
        forall j: nat | j >= k + 1 ensures Candidate(preferred, j) != candidate {
          if Candidate(preferred, j) == candidate { CandidateInjective(preferred, j, k); }
        }
      }
      FirstFree(taken, preferred, k + 1, left - {candidate})
  }

  function Taken(c: Config, st: State): set<string> {
    c.reserved + st.hidden + st.known.at.Keys
  }

  function Allocate(c: Config, st: State, preferred: string): (r: string)
    ensures r !in Taken(c, st) && exists j: nat :: r == Candidate(preferred, j)
  {
    FirstFree(Taken(c, st), preferred, 0, Taken(c, st))
  }

  /** The `j`-th candidate is the first from the `k`-th on that is free. */
  predicate IsFirstFree(taken: set<string>, preferred: string, k: nat, j: nat) {
    k <= j && Candidate(preferred, j) !in taken && forall i :: k <= i < j ==> Candidate(preferred, i) in taken
  }

  lemma {:induction false} FirstFreeIsFirst(
    taken: set<string>, preferred: string, k: nat, left: set<string>) returns (j: nat)
    requires forall j: nat :: j >= k && Candidate(preferred, j) in taken ==> Candidate(preferred, j) in left
    ensures IsFirstFree(taken, preferred, k, j) && FirstFree(taken, preferred, k, left) == Candidate(preferred, j)
    decreases left
  {
    if Candidate(preferred, k) !in taken {
      j := k;
    } else {
      forall i: nat | i >= k + 1 ensures Candidate(preferred, i) != Candidate(preferred, k) {
        if Candidate(preferred, i) == Candidate(preferred, k) { CandidateInjective(preferred, i, k); }
      }
      j := FirstFreeIsFirst(taken, preferred, k + 1, left - {Candidate(preferred, k)});
    }
  }

  /** A hidden name is the preferred one if that is free, and else the first free numbered one. */
  lemma AllocatesFirst(c: Config, st: State, preferred: string) returns (j: nat)
    ensures IsFirstFree(Taken(c, st), preferred, 0, j)
    ensures Allocate(c, st, preferred) == if j == 0 then preferred else preferred + "_" + Decimal(j + 1)
  {
    j := FirstFreeIsFirst(Taken(c, st), preferred, 0, Taken(c, st));
  }

  function AddExpr(c: Config, st: State, name: string, sql: Term): State {
    var alias := Alias(c.model, name);
    st.(steps := st.steps + [ExprStep(alias, sql)], known := Put(st.known, name, alias))
  }

  function AddTransform(
    c: Config, st: State, name: string, fn: string, p: Params, window: Window, input: Alias): Result<State, Error>
  {
    var alias := Alias(c.model, name);
    if fn in TIME_TRANSFORMS && !c.hasTime then Err(NeedsTimeDimension(name))
    else if fn in RANK_FAMILY && !PartitionKnown(c.grouping, p) then Err(UnknownPartition(fn))
    else Ok(st.(steps := st.steps + [TransformStep(alias, window, input)], known := Put(st.known, name, alias)))
  }

  /** The SQL of `change` and `change_pct` over the names of a column and of its shift. */
  function ChangeTerm(fn: string, x: Term, shifted: Term): Term {
    var delta := Apply("-", [x, shifted]);
    if fn == "change" then delta else
      Apply("CASE", [Apply("!=", [shifted, Literal("0")]),
                     Apply("/", [Apply("*", [delta, Literal("1.0")]), shifted])])
  }

  /** A placeholder and the alias its transform was lowered to. */
  datatype Binding = Binding(name: string, alias: Alias)

  function BindAll(d: Dict, bindings: seq<Binding>): Dict
    decreases |bindings|
  {
    if bindings == [] then d else BindAll(Put(d, bindings[0].name, bindings[0].alias), bindings[1..])
  }

  /** What the placeholders stood for before. */
  function Shadowed(d: Dict, bindings: seq<Binding>): (r: seq<Option<Alias>>)
    ensures |r| == |bindings|
  {
    seq(|bindings|, i requires 0 <= i < |bindings| =>
      if bindings[i].name in d.at then Some(d.at[bindings[i].name]) else None)
  }

  function RestoreAll(d: Dict, bindings: seq<Binding>, prior: seq<Option<Alias>>): Dict
    requires |bindings| == |prior|
    decreases |bindings|
  {
    if bindings == [] then d else
      var d' := if prior[0].None? then Remove(d, bindings[0].name) else Put(d, bindings[0].name, prior[0].value);
      RestoreAll(d', bindings[1..], prior[1..])
  }

  // ---------------------------------------------------------------- flatten

  predicate Nests(outer: string, inner: Spec) {
    inner.TransformSpec? &&
    ((outer in CHANGES && (inner.fn == "time_shift" || inner.fn in CHANGES)) ||
     (outer == "time_shift" && inner.fn == "time_shift"))
  }

  /** Lowers a formula under the given name; returns the alias that holds its value. */
  function Flatten(c: Config, spec: Spec, field: string, st: State): Result<(State, Alias), Error>
    decreases spec, 1
  {
    match spec
    case AggSpec(ref) =>
      (match Ensure(c, st, Canonical(ref), ref)
       case Err(e) => Err(e)
       case Ok(st') => Ok((st', st'.known.at[Canonical(ref)])))
    case Arithmetic(sql, names, refs, _) =>
      (match EnsureAll(c, st, names, refs)
       case Err(e) => Err(e)
       case Ok(st') => Ok((AddExpr(c, st', field, Resolve(sql, st'.known)), Alias(c.model, field))))
    case Mixed(sql, names, subs, refs, _) =>
      (match EnsureAll(c, st, names, refs)
       case Err(e) => Err(e)
       case Ok(st1) =>
         match FlattenSubs(c, subs, field, st1)
         case Err(e) => Err(e)
         case Ok((st2, bindings)) =>
           var bound := BindAll(st2.known, bindings);
           var restored := RestoreAll(bound, bindings, Shadowed(st2.known, bindings));
           Ok((AddExpr(c, st2.(known := restored), field, Resolve(sql, bound)), Alias(c.model, field))))
    case TransformSpec(fn, inner, p) =>
      if Nests(fn, inner) then Err(NestedSelfJoin(fn, inner.fn)) else
        match Flatten(c, inner, "_inner_" + field, st)
        case Err(e) => Err(e)
        case Ok((st1, input)) =>
          if fn in CHANGES then AddChange(c, st1, field, fn, p, input) else
            var window := WindowOf(c.grouping, fn, Offset(p.extra, 1), p, IsPredicateSpec(inner));
            match AddTransform(c, st1, field, fn, p, window, input)
            case Err(e) => Err(e)
            case Ok(st2) => Ok((st2, Alias(c.model, field)))
  }

  /** `change` and `change_pct` become a hidden shift and an expression over it. */
  function AddChange(c: Config, st: State, field: string, fn: string, p: Params, input: Alias)
    : Result<(State, Alias), Error>
  {
    var shifted := "_ts_" + field;
    match AddTransform(c, st, shifted, "time_shift", Params(p.extra, [], None), ShiftOf(c.grouping, p), input)
    case Err(e) => Err(e)
    case Ok(st') =>
      match FirstKey(st'.known.order, st'.known.at, input)
      case None => Err(NoInnerKey(input))
      case Some(key) =>
        var sql := ChangeTerm(fn, Word(key), Word(shifted));
        Ok((AddExpr(c, st', field, Resolve(sql, st'.known)), Alias(c.model, field)))
  }

  /** Lowers the transforms taken out of an expression, each under a hidden name of its own. */
  function FlattenSubs(c: Config, subs: seq<Sub>, field: string, st: State): Result<(State, seq<Binding>), Error>
    decreases subs, 0
  {
    if subs == [] then Ok((st, [])) else
      var name := Allocate(c, st, subs[0].placeholder + "_" + field);
      match Flatten(c, subs[0].spec, name, st.(hidden := st.hidden + {name}))
      case Err(e) => Err(e)
      case Ok((st1, alias)) =>
        match FlattenSubs(c, subs[1..], field, st1)
        case Err(e) => Err(e)
        case Ok((st2, rest)) => Ok((st2, [Binding(subs[0].placeholder, alias)] + rest))
  }
}
