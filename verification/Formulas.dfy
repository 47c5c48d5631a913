/** Measure formulas: their syntax trees, the field specs they are parsed into, and the column
    values both of these mean. */
module Formulas {
  import opened Models
  import FilterPrinter

  // ------------------------------------------------------------ vocabulary

  /** `measure:agg(...)`; `suffix` is the identifier form of the arguments. */
  datatype AggRef = AggRef(measure: string, agg: string, suffix: string)

  /** The canonical column name of an aggregated measure. */
  function Canonical(r: AggRef): string {
    (if r.measure == "*" then "_" else r.measure + "_") + r.agg + r.suffix
  }

  const CHANGES := {"change", "change_pct"}
  const RANK_FAMILY := {"rank", "percent_rank", "dense_rank", "ntile"}
  const TIME_TRANSFORMS := {
    "cumsum", "change", "change_pct", "time_shift", "first", "last", "lag", "lead", "consecutive_periods"}

  /** A literal argument of a transform. */
  datatype Arg = IntArg(n: int) | TextArg(text: string)

  /** What follows a transform's operand at the call site. */
  datatype Params = Params(extra: seq<Arg>, partitionBy: seq<string>, n: Option<int>)

  /** A formula after its aggregations were replaced by placeholder names. `Op` is an arithmetic,
      comparison or boolean operator, `isPredicate` for the last two; `Scalar` a pass-through
      function; `Transform` a call of one of the transforms. */
  datatype Ast =
    | Const(text: string)
    | Name(id: string)
    | Dotted(path: string)
    | Op(op: string, isPredicate: bool, args: seq<Ast>)
    | Scalar(fn: string, args: seq<Ast>)
    | Transform(fn: string, operand: Ast, params: Params)

  /** A column of the query's result: `<model>.<name>`. */
  datatype Alias = Alias(model: string, name: string)

  /** Expression text by its structure: identifiers, dotted paths, quoted aliases, operators, and
      text that was a name or an alias before another name was rewritten inside it. */
  datatype Term =
    | Literal(text: string)
    | Word(name: string)
    | Path(path: string)
    | Quoted(alias: Alias)
    | Mangled(text: string)
    | Apply(op: string, args: seq<Term>)

  type AggRefs = map<string, AggRef>

  datatype Spec =
    | AggSpec(ref: AggRef)
    | Arithmetic(sql: Term, names: seq<string>, refs: AggRefs, isPredicate: bool)
    | Mixed(sql: Term, names: seq<string>, subs: seq<Sub>, refs: AggRefs, isPredicate: bool)
    | TransformSpec(fn: string, inner: Spec, params: Params)

  /** A transform taken out of an expression, and the name left in its place. */
  datatype Sub = Sub(placeholder: string, spec: Spec)

  datatype Error =
    | BareName(name: string) | UnknownFunction(fn: string) | BadParams(fn: string)
    | NestedSelfJoin(outer: string, inside: string) | NeedsTimeDimension(name: string)
    | UnresolvedMeasure(ref: AggRef) | UnknownPartition(fn: string) | NoInnerKey(alias: Alias)
    | Collision(name: string)

  // ---------------------------------------------------------------- decimals

  function Digit(n: nat): char
    requires n < 10
  {
    "0123456789"[n]
  }

  /** `str(n)`. */
  function Decimal(n: nat): (s: string)
    ensures s != "" && '0' <= s[0] <= '9'
  {
    if n < 10 then [Digit(n)] else Decimal(n / 10) + [Digit(n % 10)]
  }

  lemma {:induction false} DecimalInjective(m: nat, n: nat)
    requires Decimal(m) == Decimal(n)
    ensures m == n
    decreases m
  {
    var a, b := Decimal(m), Decimal(n);
    assert a[|a| - 1] == Digit(m % 10) && b[|b| - 1] == Digit(n % 10);
    if m >= 10 && n >= 10 {
      assert Decimal(m / 10) == a[..|a| - 1] && Decimal(n / 10) == b[..|b| - 1];
      DecimalInjective(m / 10, n / 10);
    }
  }

  /** The name that stands for the `k`-th transform taken out of an expression. */
  function Placeholder(k: nat): string {
    "_t" + Decimal(k)
  }

  lemma PlaceholderInjective(j: nat, k: nat)
    requires Placeholder(j) == Placeholder(k)
    ensures j == k
  {
    assert Decimal(j) == Placeholder(j)[2..] && Decimal(k) == Placeholder(k)[2..];
    DecimalInjective(j, k);
  }

  /** `_t` and a digit: how every placeholder and every hidden name starts. */
  predicate HiddenShape(n: string) {
    |n| >= 3 && n[0] == '_' && n[1] == 't' && '0' <= n[2] <= '9'
  }

  // ----------------------------------------------------------------- parsing

  /** The arguments a transform accepts. */
  predicate ParamsOk(fn: string, p: Params) {
    && (fn in RANK_FAMILY ==> p.extra == [])
    && (fn !in RANK_FAMILY ==> p.partitionBy == [])
    && (fn == "ntile" <==> p.n.Some?) && (p.n.Some? ==> p.n.value > 0)
  }

  predicate IsScalar(fn: string) {
    FilterPrinter.Lower(fn) in FilterPrinter.SCALARS
  }

  predicate HasCall(a: Ast)
    decreases a, 1
  {
    a.Scalar? || a.Transform? || (a.Op? && AnyHasCall(a.args))
  }

  predicate AnyHasCall(args: seq<Ast>)
    decreases args, 0
  {
    args != [] && (HasCall(args[0]) || AnyHasCall(args[1..]))
  }

  /** The names and dotted paths of an expression. */
  function NamesOf(a: Ast): seq<string>
    decreases a, 1
  {
    match a
    case Name(id) => [id]
    case Dotted(path) => [path]
    case Op(_, _, args) => NamesOfAll(args)
    case _ => []
  }

  function NamesOfAll(args: seq<Ast>): seq<string>
    decreases args, 0
  {
    if args == [] then [] else NamesOf(args[0]) + NamesOfAll(args[1..])
  }

  /** The text of an expression. */
  function ToTerm(a: Ast): Term
    decreases a, 1
  {
    match a
    case Const(t) => Literal(t)
    case Name(id) => Word(id)
    case Dotted(path) => Path(path)
    case Op(op, _, args) => Apply(op, ToTerms(args))
    case Scalar(fn, args) => Apply(fn, ToTerms(args))
    case Transform(fn, x, _) => Apply(fn, [ToTerm(x)])
  }

  function ToTerms(args: seq<Ast>): seq<Term>
    decreases args, 0
  {
    if args == [] then [] else [ToTerm(args[0])] + ToTerms(args[1..])
  }

  function Restrict(refs: AggRefs, names: seq<string>): AggRefs {
    map n | n in names && n in refs :: refs[n]
  }

  predicate IsFirstMissing(names: seq<string>, refs: AggRefs, i: nat)
    requires i < |names|
  {
    names[i] !in refs && forall k :: 0 <= k < i ==> names[k] in refs
  }

  function FirstMissing(names: seq<string>, refs: AggRefs): (r: Option<string>)
    ensures r.None? <==> forall n :: n in names ==> n in refs
    ensures r.Some? ==> exists i :: 0 <= i < |names| && names[i] == r.value && IsFirstMissing(names, refs, i)
  {
    if names == [] then None
    else if names[0] !in refs then
      assert IsFirstMissing(names, refs, 0);
      Some(names[0])
    else
      assert forall i :: 0 <= i < |names| - 1 && IsFirstMissing(names[1..], refs, i) ==>
        IsFirstMissing(names, refs, i + 1);
      FirstMissing(names[1..], refs)
  }

  function Parse(a: Ast, refs: AggRefs): Result<Spec, Error>
    decreases a, 2
  {
    match a
    case Name(id) => if id in refs then Ok(AggSpec(refs[id])) else Err(BareName(id))
    case Dotted(path) => Err(BareName(path))
    case Const(t) => Ok(Arithmetic(Literal(t), [], map[], false))
    case Scalar(fn, _) => if IsScalar(fn) then ParseMixed(a, refs) else Err(UnknownFunction(fn))
    case Transform(fn, operand, params) =>
      (match Parse(operand, refs)
       case Err(e) => Err(e)
       case Ok(inner) => if ParamsOk(fn, params) then Ok(TransformSpec(fn, inner, params)) else Err(BadParams(fn)))
    case Op(_, isPredicate, _) =>
      if HasCall(a) then ParseMixed(a, refs) else
        var names := NamesOf(a);
        match FirstMissing(names, refs)
        case Some(n) => Err(BareName(n))
        case None => Ok(Arithmetic(ToTerm(a), names, Restrict(refs, names), isPredicate))
  }

  function ParseMixed(a: Ast, refs: AggRefs): Result<Spec, Error>
    requires a.Op? || a.Scalar?
    decreases a, 1
  {
    match Hoist(a, refs, Hoisted([], []))
    case Err(e) => Err(e)
    case Ok((sql, h)) => Ok(Mixed(sql, h.names, h.subs, Restrict(refs, h.names), a.Op? && a.isPredicate))
  }

  /** What the walk over a mixed expression has taken out so far. */
  datatype Hoisted = Hoisted(subs: seq<Sub>, names: seq<string>)

  predicate IsBound(subs: seq<Sub>, name: string) {
    exists i :: 0 <= i < |subs| && subs[i].placeholder == name
  }

  /** Replaces every outermost transform call by the next placeholder. */
  function Hoist(a: Ast, refs: AggRefs, h: Hoisted): Result<(Term, Hoisted), Error>
    decreases a, if a.Transform? then 3 else 0
  {
    match a
    case Transform(_, _, _) =>
      (match Parse(a, refs)
       case Err(e) => Err(e)
       case Ok(spec) =>
         var p := Placeholder(|h.subs|);
         Ok((Word(p), Hoisted(h.subs + [Sub(p, spec)], h.names))))
    case Name(id) => Ok((Word(id), if IsBound(h.subs, id) then h else Hoisted(h.subs, h.names + [id])))
    case Const(t) => Ok((Literal(t), h))
    case Dotted(path) => Ok((Path(path), h))
    case Op(op, _, args) =>
      (match HoistAll(args, refs, h)
       case Err(e) => Err(e)
       case Ok((terms, h')) => Ok((Apply(op, terms), h')))
    case Scalar(fn, args) =>
      if !IsScalar(fn) then Err(UnknownFunction(fn)) else
        match HoistAll(args, refs, h)
        case Err(e) => Err(e)
        case Ok((terms, h')) => Ok((Apply(fn, terms), h'))
  }

  function HoistAll(args: seq<Ast>, refs: AggRefs, h: Hoisted): Result<(seq<Term>, Hoisted), Error>
    decreases args, 4
  {
    if args == [] then Ok(([], h)) else
      match Hoist(args[0], refs, h)
      case Err(e) => Err(e)
      case Ok((t, h')) =>
        match HoistAll(args[1..], refs, h')
        case Err(e) => Err(e)
        case Ok((ts, h'')) => Ok(([t] + ts, h''))
  }

  // ----------------------------------------------------------------- meaning

  /** A window or self-join transform with its resolved parameters. */
  datatype Window = Window(
    fn: string, offset: int, granularity: Option<string>, partition: seq<string>, ordered: bool,
    booleanInput: bool, n: Option<int>)

  /** A column's values, as the term that computes them: nothing is known of aggregates, operators
      and windows, so what is equal here is equal under every interpretation of them. */
  datatype Value =
    | LiteralValue(text: string)
    | AggValue(ref: AggRef)
    | OpValue(op: string, args: seq<Value>)
    | WindowValue(window: Window, input: Value)

  function Offset(extra: seq<Arg>, default: int): int {
    if extra != [] && extra[0].IntArg? then extra[0].n else default
  }

  function ArgText(a: Arg): string {
    match a
    case TextArg(t) => t
    case IntArg(n) => if n < 0 then "-" + Decimal(-n) else Decimal(n)
  }

  function Granularity(extra: seq<Arg>): Option<string> {
    if |extra| >= 2 then Some(ArgText(extra[1])) else None
  }

  /** What a query groups by: its dimensions' aliases, and the alias of every column that a
      `partition_by` may name. */
  datatype Grouping = Grouping(aliases: seq<string>, byName: map<string, string>)

  predicate PartitionKnown(g: Grouping, p: Params) {
    forall c :: c in p.partitionBy ==> c in g.byName
  }

  function WindowOf(g: Grouping, fn: string, offset: int, p: Params, booleanInput: bool): Window {
    var partition :=
      if fn !in RANK_FAMILY then g.aliases
      else seq(|p.partitionBy|, i requires 0 <= i < |p.partitionBy| =>
                 if p.partitionBy[i] in g.byName then g.byName[p.partitionBy[i]] else "");
    Window(fn, offset, Granularity(p.extra), partition, fn in TIME_TRANSFORMS, booleanInput, p.n)
  }

  /** The shift hidden in `change` and `change_pct`. */
  function ShiftOf(g: Grouping, p: Params): Window {
    WindowOf(g, "time_shift", Offset(p.extra, -1), Params(p.extra, [], None), false)
  }

  /** `x` minus itself shifted, or that as a guarded fraction of the shifted. */
  function ChangeOf(fn: string, x: Value, shifted: Value): Value {
    var delta := OpValue("-", [x, shifted]);
    if fn == "change" then delta else
      OpValue("CASE", [OpValue("!=", [shifted, LiteralValue("0")]),
                       OpValue("/", [OpValue("*", [delta, LiteralValue("1.0")]), shifted])])
  }

  /** What a transform makes of a column. */
  function TransformOf(g: Grouping, fn: string, p: Params, booleanInput: bool, x: Value): Value {
    if fn in CHANGES then ChangeOf(fn, x, WindowValue(ShiftOf(g, p), x))
    else WindowValue(WindowOf(g, fn, Offset(p.extra, 1), p, booleanInput), x)
  }

  /** What a formula means: its aggregates, combined by the operators and transforms as they are
      nested. A name that is no aggregate means nothing. */
  function Meaning(g: Grouping, a: Ast, refs: AggRefs): Option<Value>
    decreases a, 1
  {
    match a
    case Const(t) => Some(LiteralValue(t))
    case Name(id) => if id in refs then Some(AggValue(refs[id])) else None
    case Dotted(_) => None
    case Op(op, _, args) => ApplyTo(op, MeaningAll(g, args, refs))
    case Scalar(fn, args) => ApplyTo(fn, MeaningAll(g, args, refs))
    case Transform(fn, x, p) =>
      match Meaning(g, x, refs)
      case None => None
      case Some(v) => Some(TransformOf(g, fn, p, x.Op? && x.isPredicate, v))
  }

  function MeaningAll(g: Grouping, args: seq<Ast>, refs: AggRefs): Option<seq<Value>>
    decreases args, 0
  {
    if args == [] then Some([]) else Cons(Meaning(g, args[0], refs), MeaningAll(g, args[1..], refs))
  }

  function ApplyTo(op: string, args: Option<seq<Value>>): Option<Value> {
    if args.None? then None else Some(OpValue(op, args.value))
  }

  function Cons(first: Option<Value>, rest: Option<seq<Value>>): Option<seq<Value>> {
    if first.None? || rest.None? then None else Some([first.value] + rest.value)
  }

  /** The value of an expression whose identifiers have these values. */
  function TermMeaning(t: Term, values: map<string, Value>): Option<Value>
    decreases t, 1
  {
    match t
    case Literal(x) => Some(LiteralValue(x))
    case Word(n) => if n in values then Some(values[n]) else None
    case Path(_) => None
    case Quoted(_) => None
    case Mangled(_) => None
    case Apply(op, args) => ApplyTo(op, TermMeaningAll(args, values))
  }

  function TermMeaningAll(args: seq<Term>, values: map<string, Value>): Option<seq<Value>>
    decreases args, 0
  {
    if args == [] then Some([]) else Cons(TermMeaning(args[0], values), TermMeaningAll(args[1..], values))
  }

  function RefValues(refs: AggRefs): map<string, Value> {
    map n | n in refs :: AggValue(refs[n])
  }

  predicate IsPredicateSpec(s: Spec) {
    (s.Arithmetic? || s.Mixed?) && s.isPredicate
  }

  function SpecMeaning(g: Grouping, s: Spec): Option<Value>
    decreases s, 1
  {
    match s
    case AggSpec(r) => Some(AggValue(r))
    case Arithmetic(sql, _, refs, _) => TermMeaning(sql, RefValues(refs))
    case Mixed(sql, _, subs, refs, _) =>
      (match SubMeanings(g, subs)
       case None => None
       case Some(m) => TermMeaning(sql, RefValues(refs) + m))
    case TransformSpec(fn, inner, p) =>
      match SpecMeaning(g, inner)
      case None => None
      case Some(v) => Some(TransformOf(g, fn, p, IsPredicateSpec(inner), v))
  }

  /** The values of the transforms taken out of a mixed expression, by placeholder. */
  function SubMeanings(g: Grouping, subs: seq<Sub>): Option<map<string, Value>>
    decreases subs, 0
  {
    if subs == [] then Some(map[]) else
      match (SpecMeaning(g, subs[0].spec), SubMeanings(g, subs[1..]))
      case (Some(v), Some(m)) => Some(m[subs[0].placeholder := v])
      case _ => None
  }
}
