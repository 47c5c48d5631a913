/** Lowering all the measures of a query, with the renaming of its aggregates. */
module QueryLowering {
  import opened Models
  import opened Formulas
  import opened FormulaParsing
  import opened Rewriting
  import opened Lowering
  import opened LoweringScopes
  import opened LoweringMeaning
  import opened LoweringCorrect
  import opened LoweringReaders
  import opened LegibleNames

  /** A query measure: one aggregate, or a formula over several. A formula without a name of its
      own goes by its mangled text. */
  datatype Field =
    | Aggregate(ref: AggRef, name: Option<string>)
    | Formula(ast: Ast, refs: AggRefs, fieldName: string, isNamed: bool)

  /** The name the measure surfaces under. */
  function Public(f: Field): string {
    match f
    case Aggregate(ref, name) => if name.Some? then name.value else Canonical(ref)
    case Formula(_, _, fieldName, _) => fieldName
  }

  function GivenName(f: Field): Option<string> {
    if f.Aggregate? then f.name else if f.isNamed then Some(f.fieldName) else None
  }

  predicate IsRenamed(f: Field) {
    f.Aggregate? && f.name.Some? && f.name.value != Canonical(f.ref)
  }

  // ------------------------------------------------------- collision pre-pass

  /** Two measures that would surface as one, or a name that is another's canonical name. */
  predicate Collide(f: Field, g: Field) {
    || Public(f) == Public(g)
    || (g.Aggregate? && GivenName(f) == Some(Canonical(g.ref)))
    || (f.Aggregate? && GivenName(g) == Some(Canonical(f.ref)))
  }

  predicate NoCollisions(fields: seq<Field>, occupied: set<string>) {
    && (forall i :: 0 <= i < |fields| ==> Public(fields[i]) !in occupied)
    && (forall i, j :: 0 <= i < j < |fields| ==> !Collide(fields[i], fields[j]))
  }

  /** The check in front of lowering: each measure against the dimensions and those before it. */
  method CheckSurfaces(fields: seq<Field>, occupied: set<string>) returns (collision: Option<string>)
    ensures collision.None? <==> NoCollisions(fields, occupied)
  {
    for i := 0 to |fields|
      invariant forall k :: 0 <= k < i ==> Public(fields[k]) !in occupied
      invariant forall k, j :: 0 <= k < j < i ==> !Collide(fields[k], fields[j])
    {
      if Public(fields[i]) in occupied { return Some(Public(fields[i])); }
      for k := 0 to i
        invariant forall j :: 0 <= j < k ==> !Collide(fields[j], fields[i])
      {
        if Collide(fields[k], fields[i]) { return Some(Public(fields[i])); }
      }
    }
    return None;
  }

  /** The name in the result is the given one, and without one an aggregate's canonical name. */
  predicate SurfacesAs(f: Field, n: string) {
    match f
    case Aggregate(ref, None) => n == Canonical(ref)
    case Aggregate(_, Some(given)) => n == given
    case Formula(_, _, fieldName, _) => n == fieldName
  }

  predicate IsGiven(f: Field, n: string) {
    match f
    case Aggregate(_, given) => given == Some(n)
    case Formula(_, _, fieldName, isNamed) => isNamed && n == fieldName
  }

  predicate IsCanonical(f: Field, n: string) {
    f.Aggregate? && n == Canonical(f.ref)
  }

  /** Two measures surface under one name, or the name given to the one is the other's canonical name. */
  predicate Clash(f: Field, g: Field, n: string) {
    (SurfacesAs(f, n) && SurfacesAs(g, n)) || (IsGiven(f, n) && IsCanonical(g, n))
  }

  lemma CollideIffClash(f: Field, g: Field)
    ensures Collide(f, g) <==> exists n :: Clash(f, g, n) || Clash(g, f, n)
  {
    if Collide(f, g) {
      var n := if Public(f) == Public(g) then Public(f)
        else if g.Aggregate? && GivenName(f) == Some(Canonical(g.ref)) then Canonical(g.ref)
        else GivenName(g).value;
      assert Clash(f, g, n) || Clash(g, f, n);
    }
  }

  /** What the check asks for, name by name, of any two measures in whatever order. */
  lemma PassesIffApart(fields: seq<Field>, occupied: set<string>)
    ensures NoCollisions(fields, occupied) <==>
      && (forall i, n :: 0 <= i < |fields| && SurfacesAs(fields[i], n) ==> n !in occupied)
      && (forall i, j, n :: 0 <= i < |fields| && 0 <= j < |fields| && i != j ==> !Clash(fields[i], fields[j], n))
  {
    assert forall f, n :: SurfacesAs(f, n) <==> n == Public(f);
    forall i, j | 0 <= i < |fields| && 0 <= j < |fields|
      ensures Collide(fields[i], fields[j]) <==>
        exists n :: Clash(fields[i], fields[j], n) || Clash(fields[j], fields[i], n)
    {
      CollideIffClash(fields[i], fields[j]);
    }
  }

  // ------------------------------------------------------------------ renames

  /** Gives the first measure of that alias another one, in place. */
  function RenameFirst(steps: seq<Step>, from: Alias, to: Alias): (r: seq<Step>)
    ensures |r| == |steps|
  {
    if steps == [] then []
    else if steps[0].MeasureStep? && steps[0].alias == from then [MeasureStep(to, steps[0].ref)] + steps[1..]
    else [steps[0]] + RenameFirst(steps[1..], from, to)
  }

  function Rename(c: Config, st: State, ref: AggRef, name: string): State {
    var user, prev := Alias(c.model, name), Alias(c.model, Canonical(ref));
    State(
      RenameFirst(st.steps, prev, user),
      Put(Put(st.known, name, user), Canonical(ref), user),
      map r | r in st.canon :: if st.canon[r] == prev then user else st.canon[r],
      st.hidden)
  }

  /** What has been lowered, and the names under which aggregates were declared. */
  datatype Progress = Progress(st: State, declared: map<AggRef, string>)

  function AddField(c: Config, p: Progress, f: Field): Result<Progress, Error> {
    if GivenName(f).Some? && GivenName(f).value in c.columns then Err(Collision(GivenName(f).value)) else
      match f
      case Aggregate(ref, _) =>
        if ref in p.declared && p.declared[ref] != Public(f) then Err(Collision(Public(f))) else
          (match Ensure(c, p.st, Canonical(ref), ref)
           case Err(e) => Err(e)
           case Ok(st) =>
             var declared := p.declared[ref := Public(f)];
             if !IsRenamed(f) then Ok(Progress(st, declared))
             else if Canonical(ref) in c.columns then Err(Collision(f.name.value))
             else Ok(Progress(Rename(c, st, ref, f.name.value), declared)))
      case Formula(ast, refs, fieldName, _) =>
        match Parse(ast, refs)
        case Err(e) => Err(e)
        case Ok(spec) =>
          match Flatten(c, spec, fieldName, p.st)
          case Err(e) => Err(e)
          case Ok((st, _)) => Ok(p.(st := st))
  }

  function AddFields(c: Config, p: Progress, fields: seq<Field>): Result<Progress, Error>
    decreases |fields|
  {
    if fields == [] then Ok(p) else
      match AddField(c, p, fields[0])
      case Err(e) => Err(e)
      case Ok(p') => AddFields(c, p', fields[1..])
  }

  // --------------------------------------------------------------- hypotheses

  function FormulaNames(fields: seq<Field>): set<string> {
    set f | f in fields && f.Formula? :: f.fieldName
  }

  function RenamedNames(fields: seq<Field>): set<string> {
    set f | f in fields && IsRenamed(f) :: f.name.value
  }

  function ScopeOf(refs: set<AggRef>, fields: seq<Field>): Scope {
    Scope(refs, FormulaNames(fields), RenamedNames(fields))
  }

  /** Whether a measure uses an aggregate. */
  predicate UsesRef(f: Field, r: AggRef) {
    match f
    case Aggregate(ref, _) => ref == r
    case Formula(ast, refs, _, _) => var spec := Parse(ast, refs); spec.Ok? && Uses(spec.value, r)
  }

  /** What lowering takes for granted of one measure. */
  ghost predicate WellFormed(c: Config, refs: set<AggRef>, f: Field) {
    match f
    case Aggregate(ref, _) => ref in refs
    case Formula(ast, own, fieldName, _) =>
      && IsScoped(Scope(refs, {}, {}), own) && WellDotted(ast)
      && var spec := Parse(ast, own); spec.Ok? ==> !spec.value.AggSpec?
  }

  ghost predicate QueryOk(c: Config, refs: set<AggRef>, fields: seq<Field>) {
    && WellNamed(c, ScopeOf(refs, fields)) && NoCollisions(fields, {})
    && forall f :: f in fields ==> WellFormed(c, refs, f)
  }

  /** What a measure is worth. */
  function FieldValue(c: Config, f: Field): Option<Value> {
    match f
    case Aggregate(ref, _) => Some(AggValue(ref))
    case Formula(ast, refs, _, _) => Meaning(c.grouping, AsRead(ast), refs)
  }

  /** The measure means something, and every name it makes lowering write is legible. */
  predicate FieldLegible(c: Config, st: State, f: Field) {
    match f
    case Aggregate(_, _) => true
    case Formula(ast, refs, fieldName, _) =>
      FieldValue(c, f).Some? &&
      var spec := Parse(ast, refs); spec.Ok? ==> Legible(c, spec.value, fieldName, st)
  }

  /** So it is for each measure when its turn comes. */
  predicate AllLegible(c: Config, p: Progress, fields: seq<Field>)
    decreases |fields|
  {
    fields == [] ||
    (FieldLegible(c, p.st, fields[0]) &&
     var p' := AddField(c, p, fields[0]); p'.Ok? ==> AllLegible(c, p'.value, fields[1..]))
  }

  /** An aggregate is renamed after a formula has used it. */
  predicate IsLate(done: seq<Field>, f: Field) {
    IsRenamed(f) && exists g :: g in done && g.Formula? && UsesRef(g, f.ref)
  }

  /** No aggregate is renamed after a formula has used it. */
  predicate RenamedInTime(fields: seq<Field>) {
    forall j :: 0 <= j < |fields| ==> !IsLate(fields[..j], fields[j])
  }

  /** A measure that is given its own canonical name is lowered like one without a name, and is never
      late, whatever has used it before. */
  lemma OwnNameIsNoName(c: Config, p: Progress, ref: AggRef, done: seq<Field>)
    requires Canonical(ref) !in c.columns
    ensures AddField(c, p, Aggregate(ref, Some(Canonical(ref)))) == AddField(c, p, Aggregate(ref, None))
    ensures !IsLate(done, Aggregate(ref, Some(Canonical(ref))))
  {
  }

  // ---------------------------------------------------------------- invariant

  /** Every measure so far surfaces with its value, and every aggregate under its canonical name
      unless it was declared. */
  ghost predicate Holds(c: Config, refs: set<AggRef>, done: seq<Field>, p: Progress) {
    && Sound(c, ScopeOf(refs, done), p.st)
    && (forall f :: f in done ==> Surfaced(c, p.st, f))
    && (forall r :: r in p.declared <==> exists f :: f in done && f.Aggregate? && f.ref == r)
    && (forall f :: f in done && f.Aggregate? ==> p.declared[f.ref] == Public(f))
    && (forall r :: r in p.st.canon ==> r in p.declared || p.st.canon[r] == Alias(c.model, Canonical(r)))
    && (forall r :: r in p.st.canon ==> exists f :: f in done && UsesRef(f, r))
    && (forall f, r :: f in done && f.Formula? && UsesRef(f, r) ==> IsRead(p.st, r))
  }

  ghost predicate Surfaced(c: Config, st: State, f: Field)
    requires Run(st.steps).Some?
  {
    var alias, env := Alias(c.model, Public(f)), Run(st.steps).value;
    alias in env && FieldValue(c, f) == Some(env[alias])
  }

  lemma NamedGrows(c: Config, v: Scope, w: Scope, st: State)
    requires Sound(c, v, st) && v.refs == w.refs && v.fields <= w.fields && v.renames <= w.renames
    ensures Sound(c, w, st)
  {
  }

  lemma ScopeGrows(refs: set<AggRef>, done: seq<Field>, all: seq<Field>)
    requires done <= all
    ensures ScopeOf(refs, done).fields <= ScopeOf(refs, all).fields
    ensures ScopeOf(refs, done).renames <= ScopeOf(refs, all).renames
  {
    forall f | f in done ensures f in all {
      var i :| 0 <= i < |done| && done[i] == f;
      assert all[i] == f;
    }
  }

  lemma ScopeIsWellNamed(c: Config, refs: set<AggRef>, done: seq<Field>, all: seq<Field>)
    requires done <= all && WellNamed(c, ScopeOf(refs, all))
    ensures WellNamed(c, ScopeOf(refs, done))
  {
    ScopeGrows(refs, done, all);
  }

  /** Names already surfaced stay so while columns are only added. */
  lemma SurfacedStays(c: Config, st: State, st': State, f: Field)
    requires Run(st.steps).Some? && Surfaced(c, st, f) && st.steps <= st'.steps && Run(st'.steps).Some?
    ensures Surfaced(c, st', f)
  {
    var alias := Alias(c.model, Public(f));
    assert st'.steps == st.steps + st'.steps[|st.steps|..];
    RunPrefix(st.steps, st'.steps[|st.steps|..]);
    assert (alias, Run(st.steps).value[alias]) in Run(st.steps).value.Items;
  }

  // --------------------------------------------------------- surfaced aggregates

  lemma {:induction false} EnsureAllSurfaces(c: Config, st: State, names: seq<string>, refs: AggRefs, st': State)
    requires EnsureAll(c, st, names, refs) == Ok(st')
    ensures forall r :: r in st'.canon ==>
      || (r in st.canon && st'.canon[r] == st.canon[r])
      || (st'.canon[r] == Alias(c.model, Canonical(r)) && exists n :: n in names && n in refs && refs[n] == r)
    decreases |names|
  {
    if names != [] {
      EnsureAllSurfaces(c, Ensure(c, st, names[0], refs[names[0]]).value, names[1..], refs, st');
    }
  }

  /** Lowering a formula surfaces no aggregate that it does not use, and new ones canonically. */
  ghost predicate SurfacesOnly(c: Config, st: State, st': State, spec: Spec) {
    forall r :: r in st'.canon ==>
      || (r in st.canon && st'.canon[r] == st.canon[r])
      || (st'.canon[r] == Alias(c.model, Canonical(r)) && Uses(spec, r))
  }

  lemma {:induction false} FlattenSurfaces(c: Config, spec: Spec, field: string, st: State, st': State, a: Alias)
    requires Flatten(c, spec, field, st) == Ok((st', a))
    ensures SurfacesOnly(c, st, st', spec)
    decreases spec, 1
  {
    match spec
    case AggSpec(_) =>
    case Arithmetic(_, names, refs, _) => EnsureAllSurfaces(c, st, names, refs, EnsureAll(c, st, names, refs).value);
    case Mixed(_, names, subs, refs, _) =>
      var st1 := EnsureAll(c, st, names, refs).value;
      EnsureAllSurfaces(c, st, names, refs, st1);
      var r := FlattenSubs(c, subs, field, st1).value;
      FlattenSubsSurfaces(c, subs, field, st1, r.0, r.1);
    case TransformSpec(_, inner, _) =>
      var r := Flatten(c, inner, "_inner_" + field, st).value;
      FlattenSurfaces(c, inner, "_inner_" + field, st, r.0, r.1);
  }

  lemma {:induction false} FlattenSubsSurfaces(
    c: Config, subs: seq<Sub>, field: string, st: State, st': State, bindings: seq<Binding>)
    requires FlattenSubs(c, subs, field, st) == Ok((st', bindings))
    ensures forall r :: r in st'.canon ==>
      || (r in st.canon && st'.canon[r] == st.canon[r])
      || (st'.canon[r] == Alias(c.model, Canonical(r)) && AnyUses(subs, r))
    decreases subs, 0
  {
    if subs != [] {
      var name := Allocate(c, st, subs[0].placeholder + "_" + field);
      var first := Flatten(c, subs[0].spec, name, st.(hidden := st.hidden + {name})).value;
      FlattenSurfaces(c, subs[0].spec, name, st.(hidden := st.hidden + {name}), first.0, first.1);
      FlattenSubsSurfaces(c, subs[1..], field, first.0, st', bindings[1..]);
    }
  }

  // -------------------------------------------------------------- one measure

  /** `done` and then `f` are the first measures of the query. */
  ghost predicate Next(c: Config, refs: set<AggRef>, done: seq<Field>, f: Field, all: seq<Field>) {
    QueryOk(c, refs, all) && done + [f] <= all
  }

  lemma NextIsApart(c: Config, refs: set<AggRef>, done: seq<Field>, f: Field, all: seq<Field>)
    requires Next(c, refs, done, f, all)
    ensures WellFormed(c, refs, f) && forall g :: g in done ==> !Collide(g, f)
    ensures WellNamed(c, ScopeOf(refs, done)) && WellNamed(c, ScopeOf(refs, done + [f]))
  {
    var n := |done|;
    assert all[n] == (done + [f])[n] == f && f in all;
    ScopeIsWellNamed(c, refs, done + [f], all);
    ScopeIsWellNamed(c, refs, done, all);
    forall g | g in done ensures !Collide(g, f) {
      var i :| 0 <= i < n && done[i] == g;
      assert all[i] == (done + [f])[i] == g;
    }
  }

  lemma FormulaIsFresh(c: Config, refs: set<AggRef>, done: seq<Field>, f: Field, all: seq<Field>, st: State)
    requires Next(c, refs, done, f, all) && f.Formula? && Sound(c, ScopeOf(refs, done), st)
    ensures Sound(c, ScopeOf(refs, done + [f]), st) && Fresh(st, f.fieldName)
    ensures f.fieldName in ScopeOf(refs, done + [f]).fields
  {
    NextIsApart(c, refs, done, f, all);
    ScopeGrows(refs, done, done + [f]);
    NamedGrows(c, ScopeOf(refs, done), ScopeOf(refs, done + [f]), st);
    assert f in done + [f];
    assert f.fieldName in ScopeOf(refs, done + [f]).fields;
  }

  lemma FormulaHolds(
    c: Config, refs: set<AggRef>, done: seq<Field>, f: Field, all: seq<Field>, p: Progress, p': Progress)
    requires Next(c, refs, done, f, all) && Holds(c, refs, done, p) && f.Formula? && FieldLegible(c, p.st, f)
    requires AddField(c, p, f) == Ok(p')
    ensures Holds(c, refs, done + [f], p') && p.st.steps <= p'.st.steps
  {
    var v, spec := ScopeOf(refs, done + [f]), Parse(f.ast, f.refs).value;
    var alias := Flatten(c, spec, f.fieldName, p.st).value.1;
    NextIsApart(c, refs, done, f, all);
    FormulaIsFresh(c, refs, done, f, all, p.st);
    LoweringKeepsMeaning(c, v, f.ast, f.refs, spec, f.fieldName, p.st, p'.st, alias);
    FlattenSurfaces(c, spec, f.fieldName, p.st, p'.st, alias);
    FlattenNamesIt(c, spec, f.fieldName, p.st, p'.st, alias);
    ParseIsConsistent(v, f.ast, f.refs, spec);
    ParseReads(c.grouping, f.ast, f.refs, spec);
    forall r | UsesRef(f, r) ensures IsRead(p'.st, r) {
      UsedIsRead(c, v, spec, f.fieldName, p.st, f.refs, p'.st, alias, r);
    }
    HoldsOn(c, refs, done, f, p, p');
  }

  lemma FlattenNamesIt(c: Config, spec: Spec, field: string, st: State, st': State, a: Alias)
    requires Flatten(c, spec, field, st) == Ok((st', a)) && !spec.AggSpec?
    ensures a == Alias(c.model, field)
  {
  }

  /** What is left to show after a measure when columns were only added. */
  lemma HoldsOn(c: Config, refs: set<AggRef>, done: seq<Field>, f: Field, p: Progress, p': Progress)
    requires Holds(c, refs, done, p) && Sound(c, ScopeOf(refs, done + [f]), p'.st) && p.st.steps <= p'.st.steps
    requires Surfaced(c, p'.st, f) && p.st.canon.Items <= p'.st.canon.Items
    requires forall r :: f.Formula? && UsesRef(f, r) ==> IsRead(p'.st, r)
    requires p'.declared == if f.Aggregate? then p.declared[f.ref := Public(f)] else p.declared
    requires f.Aggregate? ==> f.ref !in p.declared
    requires forall r :: r in p'.st.canon ==>
      || (r in p.st.canon && p'.st.canon[r] == p.st.canon[r])
      || ((p'.st.canon[r] == Alias(c.model, Canonical(r)) || r in p'.declared) && UsesRef(f, r))
    ensures Holds(c, refs, done + [f], p')
  {
    forall g | g in done + [f] ensures Surfaced(c, p'.st, g) {
      if g in done { SurfacedStays(c, p.st, p'.st, g); }
    }
    DeclaredOn(done, f, p, p');
    forall g, r | g in done + [f] && g.Formula? && UsesRef(g, r) ensures IsRead(p'.st, r) {
      if g in done { IsReadStays(p.st, p'.st, r); }
    }
    forall r | r in p'.st.canon ensures exists g :: g in done + [f] && UsesRef(g, r) {
      if r in p.st.canon && p'.st.canon[r] == p.st.canon[r] {
        var g :| g in done && UsesRef(g, r);
        assert g in done + [f];
      } else {
        assert f in done + [f];
      }
    }
  }

  lemma DeclaredOn(done: seq<Field>, f: Field, p: Progress, p': Progress)
    requires forall r :: r in p.declared <==> exists g :: g in done && g.Aggregate? && g.ref == r
    requires forall g :: g in done && g.Aggregate? ==> p.declared[g.ref] == Public(g)
    requires p'.declared == if f.Aggregate? then p.declared[f.ref := Public(f)] else p.declared
    requires f.Aggregate? ==> f.ref !in p.declared
    ensures forall r :: r in p'.declared <==> exists g :: g in done + [f] && g.Aggregate? && g.ref == r
    ensures forall g :: g in done + [f] && g.Aggregate? ==> p'.declared[g.ref] == Public(g)
  {
    forall r | r in p'.declared ensures exists g :: g in done + [f] && g.Aggregate? && g.ref == r {
      if r in p.declared {
        var g :| g in done && g.Aggregate? && g.ref == r;
        assert g in done + [f];
      } else {
        assert f in done + [f];
      }
    }
  }

  /** An aggregate cannot be declared twice. */
  lemma NotDeclared(
    c: Config, refs: set<AggRef>, done: seq<Field>, f: Field, all: seq<Field>, p: Progress, p': Progress)
    requires Next(c, refs, done, f, all) && Holds(c, refs, done, p) && f.Aggregate? && AddField(c, p, f) == Ok(p')
    ensures f.ref !in p.declared
  {
    NextIsApart(c, refs, done, f, all);
  }

  /** An aggregate that was not renamed is surfaced under its canonical name. */
  lemma EnsureSurfaces(c: Config, v: Scope, st: State, ref: AggRef, st': State)
    requires WellNamed(c, v) && Sound(c, v, st) && ref in v.refs && Ensure(c, st, Canonical(ref), ref) == Ok(st')
    requires ref in st.canon ==> st.canon[ref] == Alias(c.model, Canonical(ref))
    ensures Sound(c, v, st') && st.steps <= st'.steps && st'.canon == st.canon[ref := Alias(c.model, Canonical(ref))]
    ensures var env := Run(st'.steps).value;
      Alias(c.model, Canonical(ref)) in env && env[Alias(c.model, Canonical(ref))] == AggValue(ref)
  {
    EnsureIsSound(c, v, st, Canonical(ref), ref, st', map[]);
  }

  lemma AggregateHolds(
    c: Config, refs: set<AggRef>, done: seq<Field>, f: Field, all: seq<Field>, p: Progress, p': Progress)
    requires Next(c, refs, done, f, all) && Holds(c, refs, done, p) && f.Aggregate? && !IsRenamed(f)
    requires AddField(c, p, f) == Ok(p')
    ensures Holds(c, refs, done + [f], p') && p.st.steps <= p'.st.steps
  {
    var v := ScopeOf(refs, done + [f]);
    NextIsApart(c, refs, done, f, all);
    NotDeclared(c, refs, done, f, all, p, p');
    ScopeGrows(refs, done, done + [f]);
    NamedGrows(c, ScopeOf(refs, done), v, p.st);
    EnsureSurfaces(c, v, p.st, f.ref, p'.st);
    HoldsOn(c, refs, done, f, p, p');
  }

  // ------------------------------------------------------------ a rename in time

  lemma {:induction false} RenameLast(steps: seq<Step>, s: Step, to: Alias)
    requires s.MeasureStep? && !HasMeasure(steps, s.alias)
    ensures RenameFirst(steps + [s], s.alias, to) == steps + [MeasureStep(to, s.ref)]
  {
    if steps == [] {
      assert (steps + [s])[1..] == [];
    } else {
      assert (steps + [s])[1..] == steps[1..] + [s];
      assert !(steps[0].MeasureStep? && steps[0].alias == s.alias);
      forall t | t in steps[1..] ensures !(t.MeasureStep? && t.alias == s.alias) { assert t in steps; }
      RenameLast(steps[1..], s, to);
    }
  }

  /** A rename in time finds its aggregate unused, and only gives the new measure another name. */
  lemma RenameInTime(
    c: Config, v: Scope, st: State, ref: AggRef, name: string, st1: State)
    requires WellNamed(c, v) && Sound(c, v, st) && ref in v.refs && ref !in st.canon && name != Canonical(ref)
    requires Ensure(c, st, Canonical(ref), ref) == Ok(st1)
    ensures var user := Alias(c.model, name);
      Rename(c, st1, ref, name) == State(
        st.steps + [MeasureStep(user, ref)], Put(Put(st.known, Canonical(ref), user), name, user),
        st.canon[ref := user], st.hidden)
  {
    var user, prev := Alias(c.model, name), Alias(c.model, Canonical(ref));
    MeasureIsNew(c, v, st, ref);
    PrevIsUnused(c, v, st, ref);
    RenameLast(st.steps, MeasureStep(prev, ref), user);
    PutAgain(st.known, Canonical(ref), prev, name, user);
    Retarget(st.canon, ref, prev, user);
  }

  lemma PrevIsUnused(c: Config, v: Scope, st: State, ref: AggRef)
    requires WellNamed(c, v) && Sound(c, v, st) && ref in v.refs && ref !in st.canon
    ensures forall r :: r in st.canon ==> st.canon[r] != Alias(c.model, Canonical(ref))
  {
    MeasureIsNew(c, v, st, ref);
    CanonicalIsNew(c, v, st, ref);
    RunAliases(st.steps);
  }

  lemma PutAgain(d: Dict, k: string, a: Alias, n: string, b: Alias)
    requires k != n
    ensures Put(Put(Put(d, k, a), n, b), k, b) == Put(Put(d, k, b), n, b)
  {
    assert d.at[k := a][n := b][k := b] == d.at[k := b][n := b];
  }

  lemma Retarget(canon: map<AggRef, Alias>, ref: AggRef, prev: Alias, user: Alias)
    requires ref !in canon && forall r :: r in canon ==> canon[r] != prev
    ensures var canon' := canon[ref := prev];
      (map r | r in canon' :: if canon'[r] == prev then user else canon'[r]) == canon[ref := user]
  {
  }

  lemma RenamedIsSound(c: Config, v: Scope, st: State, ref: AggRef, name: string, st': State)
    requires WellNamed(c, v) && Sound(c, v, st) && ref in v.refs && ref !in st.canon && name in v.renames
    requires Unused(st, name)
    requires var user := Alias(c.model, name);
      st' == State(
        st.steps + [MeasureStep(user, ref)], Put(Put(st.known, Canonical(ref), user), name, user),
        st.canon[ref := user], st.hidden)
    ensures Sound(c, v, st')
    ensures Run(st'.steps).value == Run(st.steps).value[Alias(c.model, name) := AggValue(ref)]
  {
    var user, env := Alias(c.model, name), Run(st.steps).value;
    var s, env' := MeasureStep(user, ref), env[user := AggValue(ref)];
    RunSnoc(st.steps, s);
    AliasIsNew(st, user);
    EmitNamed(c, v, st, s, st');
    NewMeasureSurfaces(st, env, s, st');
    BothAreKnown(c, st.known, env, Canonical(ref), name, user, env');
  }

  lemma AliasIsNew(st: State, a: Alias)
    requires Run(st.steps).Some? && Unused(st, a.name)
    ensures a !in Run(st.steps).value
  {
    RunAliases(st.steps);
  }

  lemma BothAreKnown(c: Config, d: Dict, env: Env, k: string, n: string, a: Alias, env': Env)
    requires Knows(c, d, env) && env.Keys <= env'.Keys && a in env' && Bounded(k) && Bounded(n)
    ensures Knows(c, Put(Put(d, k, a), n, a), env')
  {
    PutIsKnown(c, d, env, k, a, env');
    PutIsKnown(c, Put(d, k, a), env', n, a, env');
  }

  lemma RenamedHolds(
    c: Config, refs: set<AggRef>, done: seq<Field>, f: Field, all: seq<Field>, p: Progress, p': Progress)
    requires Next(c, refs, done, f, all) && Holds(c, refs, done, p) && IsRenamed(f) && !IsLate(done, f)
    requires AddField(c, p, f) == Ok(p')
    ensures Holds(c, refs, done + [f], p')
  {
    NextIsApart(c, refs, done, f, all);
    NotDeclared(c, refs, done, f, all, p, p');
    NotYetUsed(c, refs, done, f, p);
    RenameIsUnused(c, refs, done, f, all, p.st);
    RenameUnfolds(c, p, f, p');
    RenameSurfaces(c, ScopeOf(refs, done + [f]), p.st, f.ref, f.name.value, p'.st);
    RenamedHoldsOn(c, refs, done, f, p, p');
  }

  lemma RenamedHoldsOn(c: Config, refs: set<AggRef>, done: seq<Field>, f: Field, p: Progress, p': Progress)
    requires Holds(c, refs, done, p) && Sound(c, ScopeOf(refs, done + [f]), p'.st) && p.st.steps <= p'.st.steps
    requires IsRenamed(f) && f.ref !in p.declared && f.ref !in p.st.canon
    requires p'.declared == p.declared[f.ref := f.name.value]
    requires p'.st.canon == p.st.canon[f.ref := Alias(c.model, f.name.value)] && Surfaced(c, p'.st, f)
    ensures Holds(c, refs, done + [f], p')
  {
    OneMore(p.st.canon, f.ref, Alias(c.model, f.name.value));
    assert UsesRef(f, f.ref) && f.ref in p'.declared;
    HoldsOn(c, refs, done, f, p, p');
  }

  lemma OneMore(canon: map<AggRef, Alias>, ref: AggRef, a: Alias)
    requires ref !in canon
    ensures canon.Items <= canon[ref := a].Items
    ensures forall r :: r in canon[ref := a] ==> r == ref || (r in canon && canon[ref := a][r] == canon[r])
  {
  }

  lemma RenameUnfolds(c: Config, p: Progress, f: Field, p': Progress)
    requires IsRenamed(f) && AddField(c, p, f) == Ok(p')
    ensures p'.declared == p.declared[f.ref := f.name.value]
    ensures var st1 := Ensure(c, p.st, Canonical(f.ref), f.ref);
      st1.Ok? && p'.st == Rename(c, st1.value, f.ref, f.name.value)
  {
  }

  lemma NotYetUsed(c: Config, refs: set<AggRef>, done: seq<Field>, f: Field, p: Progress)
    requires Holds(c, refs, done, p) && IsRenamed(f) && !IsLate(done, f) && f.ref !in p.declared
    ensures f.ref !in p.st.canon
  {
    assert forall g :: g in done ==> !UsesRef(g, f.ref);
  }

  lemma RenameSurfaces(c: Config, v: Scope, st: State, ref: AggRef, name: string, st': State)
    requires WellNamed(c, v) && Sound(c, v, st) && ref in v.refs && ref !in st.canon && name in v.renames
    requires Unused(st, name)
    requires var st1 := Ensure(c, st, Canonical(ref), ref); st1.Ok? && st' == Rename(c, st1.value, ref, name)
    ensures Sound(c, v, st') && st.steps <= st'.steps && st'.canon == st.canon[ref := Alias(c.model, name)]
    ensures var env := Run(st'.steps).value; Alias(c.model, name) in env && env[Alias(c.model, name)] == AggValue(ref)
  {
    RenameInTime(c, v, st, ref, name, Ensure(c, st, Canonical(ref), ref).value);
    RenamedIsSound(c, v, st, ref, name, st');
  }

  lemma RenameIsUnused(c: Config, refs: set<AggRef>, done: seq<Field>, f: Field, all: seq<Field>, st: State)
    requires Next(c, refs, done, f, all) && IsRenamed(f) && Sound(c, ScopeOf(refs, done), st)
    ensures Sound(c, ScopeOf(refs, done + [f]), st) && Unused(st, f.name.value)
    ensures f.name.value in ScopeOf(refs, done + [f]).renames
  {
    var name, v := f.name.value, ScopeOf(refs, done + [f]);
    NextIsApart(c, refs, done, f, all);
    ScopeGrows(refs, done, done + [f]);
    NamedGrows(c, ScopeOf(refs, done), v, st);
    assert f in done + [f];
    assert name in v.renames && name !in RenamedNames(done);
  }

  // -------------------------------------------------------------- a late rename

  lemma {:induction false} RunIsDistinct(steps: seq<Step>)
    requires Run(steps).Some?
    ensures forall j, k :: 0 <= j < k < |steps| ==> steps[j].alias != steps[k].alias
  {
    if steps != [] {
      var n := |steps| - 1;
      RunIsDistinct(steps[..n]);
      RunAliases(steps[..n]);
      forall j | 0 <= j < n ensures steps[j].alias != steps[n].alias { assert steps[j] in steps[..n]; }
    }
  }

  lemma {:induction false} RenameAt(steps: seq<Step>, from: Alias, to: Alias, k: nat)
    requires k < |steps|
    ensures var r := RenameFirst(steps, from, to)[k];
      r == steps[k] || (steps[k].MeasureStep? && steps[k].alias == from && r == MeasureStep(to, steps[k].ref))
  {
    if !(steps[0].MeasureStep? && steps[0].alias == from) && k > 0 { RenameAt(steps[1..], from, to, k - 1); }
  }

  /** No alias `from` is left, if only one measure had it. */
  lemma {:induction false} RenameRemoves(steps: seq<Step>, from: Alias, to: Alias)
    requires from != to && forall j, k :: 0 <= j < k < |steps| ==> steps[j].alias != steps[k].alias
    requires forall s :: s in steps && s.alias == from ==> s.MeasureStep?
    ensures forall s :: s in RenameFirst(steps, from, to) ==> s.alias != from
  {
    if steps != [] {
      assert steps[0] in steps;
      if steps[0].alias == from {
        forall s | s in steps[1..] ensures s.alias != from {
          var k :| 0 <= k < |steps[1..]| && steps[1..][k] == s;
          assert s == steps[k + 1];
        }
      } else {
        forall s | s in steps[1..] ensures s in steps {}
        RenameRemoves(steps[1..], from, to);
      }
    }
  }

  /** Renaming an aggregate that is read already leaves its reader without an input. */
  lemma ReaderIsStuck(c: Config, v: Scope, st: State, ref: AggRef, user: Alias)
    requires WellNamed(c, v) && Sound(c, v, st) && ref in v.refs && IsRead(st, ref)
    requires st.canon[ref] == Alias(c.model, Canonical(ref)) && user != st.canon[ref]
    ensures Stuck(RenameFirst(st.steps, st.canon[ref], user), st.canon[ref])
  {
    var prev := st.canon[ref];
    var steps := RenameFirst(st.steps, prev, user);
    var s :| s in st.steps && Reads(s, prev);
    var i :| 0 <= i < |st.steps| && st.steps[i] == s;
    RunIsDistinct(st.steps);
    CanonicalIsAMeasure(c, v, st, ref);
    RenameRemoves(st.steps, prev, user);
    RenameAt(st.steps, prev, user, i);
    assert Reads(steps[i], prev);
    forall k | 0 <= k < i ensures steps[k].alias != prev { assert steps[k] in steps; }
  }

  lemma LateIsStuck(
    c: Config, refs: set<AggRef>, done: seq<Field>, f: Field, all: seq<Field>, p: Progress, p': Progress)
    requires Next(c, refs, done, f, all) && Holds(c, refs, done, p) && IsLate(done, f) && AddField(c, p, f) == Ok(p')
    ensures Stuck(p'.st.steps, Alias(c.model, Canonical(f.ref)))
  {
    NextIsApart(c, refs, done, f, all);
    NotDeclared(c, refs, done, f, all, p, p');
    var g :| g in done && g.Formula? && UsesRef(g, f.ref);
    assert IsRead(p.st, f.ref);
    RenameOfKnown(c, p, f, p');
    ReaderIsStuck(c, ScopeOf(refs, done), p.st, f.ref, Alias(c.model, f.name.value));
  }

  lemma RenameOfKnown(c: Config, p: Progress, f: Field, p': Progress)
    requires IsRenamed(f) && f.ref in p.st.canon && AddField(c, p, f) == Ok(p')
    ensures p'.st.steps == RenameFirst(p.st.steps, Alias(c.model, Canonical(f.ref)), Alias(c.model, f.name.value))
  {
  }

  lemma CanonicalIsAMeasure(c: Config, v: Scope, st: State, ref: AggRef)
    requires WellNamed(c, v) && Named(c, v, st) && ref in v.refs
    ensures forall s :: s in st.steps && s.alias == Alias(c.model, Canonical(ref)) ==> s.MeasureStep?
  {
    forall s | s in st.steps && s.alias == Alias(c.model, Canonical(ref)) ensures s.MeasureStep? {
      if !s.MeasureStep? { OwnedIsNoMeasure(c, v, st, s.alias.name); }
    }
  }

  lemma StuckOn(steps: seq<Step>, steps': seq<Step>, a: Alias)
    requires Stuck(steps, a) && steps <= steps'
    ensures Stuck(steps', a)
  {
    var i :| 0 <= i < |steps| && Reads(steps[i], a) && forall k :: 0 <= k < i ==> steps[k].alias != a;
    assert steps'[i] == steps[i];
  }

  lemma StuckRenamed(steps: seq<Step>, from: Alias, to: Alias, a: Alias)
    requires Stuck(steps, a) && to != a
    ensures Stuck(RenameFirst(steps, from, to), a)
  {
    var i :| 0 <= i < |steps| && Reads(steps[i], a) && forall k :: 0 <= k < i ==> steps[k].alias != a;
    var r := RenameFirst(steps, from, to);
    RenameAt(steps, from, to, i);
    forall k | 0 <= k < i ensures r[k].alias != a { RenameAt(steps, from, to, k); }
    assert Reads(r[i], a);
  }

  lemma StuckAfter(c: Config, p: Progress, f: Field, p': Progress, a: Alias)
    requires AddField(c, p, f) == Ok(p') && Stuck(p.st.steps, a) && (IsRenamed(f) ==> f.name.value != a.name)
    ensures Stuck(p'.st.steps, a)
  {
    match f
    case Aggregate(ref, _) =>
      var st := Ensure(c, p.st, Canonical(ref), ref).value;
      StuckOn(p.st.steps, st.steps, a);
      if IsRenamed(f) {
        StuckRenamed(st.steps, Alias(c.model, Canonical(ref)), Alias(c.model, f.name.value), a);
      }
    case Formula(ast, refs, fieldName, _) =>
      var spec := Parse(ast, refs).value;
      var r := Flatten(c, spec, fieldName, p.st).value;
      FlattenAppends(c, spec, fieldName, p.st, r.0, r.1);
      StuckOn(p.st.steps, r.0.steps, a);
  }

  lemma {:induction false} StuckToTheEnd(c: Config, p: Progress, fields: seq<Field>, p': Progress, a: Alias)
    requires AddFields(c, p, fields) == Ok(p') && Stuck(p.st.steps, a)
    requires forall f :: f in fields && IsRenamed(f) ==> f.name.value != a.name
    ensures Stuck(p'.st.steps, a)
    decreases |fields|
  {
    if fields != [] {
      var p1 := AddField(c, p, fields[0]).value;
      StuckAfter(c, p, fields[0], p1, a);
      StuckToTheEnd(c, p1, fields[1..], p', a);
    }
  }

  // ------------------------------------------------------------- whole queries

  lemma FieldHolds(
    c: Config, refs: set<AggRef>, done: seq<Field>, f: Field, all: seq<Field>, p: Progress, p': Progress)
    requires Next(c, refs, done, f, all) && Holds(c, refs, done, p) && AddField(c, p, f) == Ok(p')
    requires !IsLate(done, f) && FieldLegible(c, p.st, f)
    ensures Holds(c, refs, done + [f], p')
  {
    if f.Formula? {
      FormulaHolds(c, refs, done, f, all, p, p');
    } else if IsRenamed(f) {
      RenamedHolds(c, refs, done, f, all, p, p');
    } else {
      AggregateHolds(c, refs, done, f, all, p, p');
    }
  }

  /** None of the last measures renames an aggregate late. */
  predicate InTime(done: seq<Field>, rest: seq<Field>)
    decreases |rest|
  {
    rest == [] || (!IsLate(done, rest[0]) && InTime(done + [rest[0]], rest[1..]))
  }

  lemma LateDangles(
    c: Config, refs: set<AggRef>, done: seq<Field>, rest: seq<Field>, p: Progress, p1: Progress, p': Progress)
    requires QueryOk(c, refs, done + rest) && Holds(c, refs, done, p) && rest != [] && IsLate(done, rest[0])
    requires AddField(c, p, rest[0]) == Ok(p1) && AddFields(c, p1, rest[1..]) == Ok(p')
    ensures Run(p'.st.steps).None?
  {
    var prev := Alias(c.model, Canonical(rest[0].ref));
    IsNext(c, refs, done, rest);
    LateIsStuck(c, refs, done, rest[0], done + rest, p, p1);
    RenamesKeepAway(c, refs, done, rest);
    StuckToTheEnd(c, p1, rest[1..], p', prev);
    StuckDangles(p'.st.steps, prev);
  }

  // ------------------------------------------------------ an illegible formula

  lemma HopelessAfter(c: Config, p: Progress, f: Field, p': Progress)
    requires AddField(c, p, f) == Ok(p') && Hopeless(p.st.steps)
    ensures Hopeless(p'.st.steps)
  {
    match f
    case Aggregate(ref, _) =>
      var st := Ensure(c, p.st, Canonical(ref), ref).value;
      HopelessOn(p.st.steps, st.steps);
      if IsRenamed(f) {
        HopelessRenamed(st.steps, Alias(c.model, Canonical(ref)), Alias(c.model, f.name.value));
      }
    case Formula(ast, refs, fieldName, _) =>
      var spec := Parse(ast, refs).value;
      var r := Flatten(c, spec, fieldName, p.st).value;
      FlattenAppends(c, spec, fieldName, p.st, r.0, r.1);
      HopelessOn(p.st.steps, r.0.steps);
  }

  lemma HopelessRenamed(steps: seq<Step>, from: Alias, to: Alias)
    requires Hopeless(steps)
    ensures Hopeless(RenameFirst(steps, from, to))
  {
    var s :| s in steps && s.ExprStep? && Illegible(s.sql);
    var i :| 0 <= i < |steps| && steps[i] == s;
    RenameAt(steps, from, to, i);
    assert RenameFirst(steps, from, to)[i] == s;
  }

  lemma {:induction false} HopelessToTheEnd(c: Config, p: Progress, fields: seq<Field>, p': Progress)
    requires AddFields(c, p, fields) == Ok(p') && Hopeless(p.st.steps)
    ensures Hopeless(p'.st.steps)
    decreases |fields|
  {
    if fields != [] {
      var p1 := AddField(c, p, fields[0]).value;
      HopelessAfter(c, p, fields[0], p1);
      HopelessToTheEnd(c, p1, fields[1..], p');
    }
  }

  lemma IllegibleDangles(
    c: Config, refs: set<AggRef>, done: seq<Field>, rest: seq<Field>, p: Progress, p1: Progress, p': Progress)
    requires QueryOk(c, refs, done + rest) && Holds(c, refs, done, p) && rest != []
    requires !FieldLegible(c, p.st, rest[0])
    requires AddField(c, p, rest[0]) == Ok(p1) && AddFields(c, p1, rest[1..]) == Ok(p')
    ensures Run(p'.st.steps).None?
  {
    var f := rest[0];
    var v, spec := ScopeOf(refs, done + [f]), Parse(f.ast, f.refs).value;
    IsNext(c, refs, done, rest);
    NextIsApart(c, refs, done, f, done + rest);
    FormulaIsFresh(c, refs, done, f, done + rest, p.st);
    LoweringKeepsMeaning(
      c, v, f.ast, f.refs, spec, f.fieldName, p.st, p1.st, Flatten(c, spec, f.fieldName, p.st).value.1);
    HopelessToTheEnd(c, p1, rest[1..], p');
    HopelessIsNotRun(p'.st.steps);
  }

  lemma IsNext(c: Config, refs: set<AggRef>, done: seq<Field>, rest: seq<Field>)
    requires QueryOk(c, refs, done + rest) && rest != []
    ensures Next(c, refs, done, rest[0], done + rest) && done + rest == (done + [rest[0]]) + rest[1..]
  {
  }

  /** No rename takes the canonical name of an aggregate of the query. */
  lemma RenamesKeepAway(c: Config, refs: set<AggRef>, done: seq<Field>, rest: seq<Field>)
    requires QueryOk(c, refs, done + rest) && rest != [] && rest[0].Aggregate?
    ensures forall g :: g in rest[1..] && IsRenamed(g) ==> g.name.value != Canonical(rest[0].ref)
  {
    var all := done + rest;
    assert rest[0] in all;
    forall g | g in rest[1..] && IsRenamed(g) ensures g.name.value != Canonical(rest[0].ref) {
      assert g in all && g.name.value in RenamedNames(all);
    }
  }

  lemma {:induction false} FieldsHold(
    c: Config, refs: set<AggRef>, done: seq<Field>, rest: seq<Field>, p: Progress, p': Progress)
    requires QueryOk(c, refs, done + rest) && Holds(c, refs, done, p) && AddFields(c, p, rest) == Ok(p')
    ensures if InTime(done, rest) && AllLegible(c, p, rest) then Holds(c, refs, done + rest, p')
            else Run(p'.st.steps).None?
    decreases |rest|
  {
    if rest == [] {
      assert done + rest == done;
    } else {
      var f, p1 := rest[0], AddField(c, p, rest[0]).value;
      IsNext(c, refs, done, rest);
      if IsLate(done, f) {
        LateDangles(c, refs, done, rest, p, p1, p');
      } else if !FieldLegible(c, p.st, f) {
        IllegibleDangles(c, refs, done, rest, p, p1, p');
      } else {
        FieldHolds(c, refs, done, f, done + rest, p, p1);
        FieldsHold(c, refs, done + [f], rest[1..], p1, p');
      }
    }
  }

  lemma {:induction false} InTimeIsRenamedInTime(done: seq<Field>, rest: seq<Field>)
    ensures InTime(done, rest) <==>
      forall j :: |done| <= j < |done + rest| ==> !IsLate((done + rest)[..j], (done + rest)[j])
    decreases |rest|
  {
    if rest != [] {
      InTimeIsRenamedInTime(done + [rest[0]], rest[1..]);
      assert done + rest == done + [rest[0]] + rest[1..];
      assert (done + rest)[..|done|] == done && (done + rest)[|done|] == rest[0];
    }
  }

  /** All the columns of a lowered query can be computed in order exactly if no aggregate is renamed
      after a formula has used it, and every formula means something and is legible when its turn
      comes; then every measure surfaces with what it means. */
  lemma QueryIsComputable(c: Config, refs: set<AggRef>, fields: seq<Field>, p: Progress)
    requires QueryOk(c, refs, fields) && AddFields(c, Progress(START, map[]), fields) == Ok(p)
    ensures Run(p.st.steps).Some? <==> RenamedInTime(fields) && AllLegible(c, Progress(START, map[]), fields)
    ensures Run(p.st.steps).Some? ==> forall f :: f in fields ==> Surfaced(c, p.st, f)
  {
    InTimeIsRenamedInTime([], fields);
    assert [] + fields == fields;
    assert InTime([], fields) <==> RenamedInTime(fields);
    StartHolds(c, refs);
    FieldsHold(c, refs, [], fields, Progress(START, map[]), p);
  }

  lemma StartHolds(c: Config, refs: set<AggRef>)
    ensures Holds(c, refs, [], Progress(START, map[]))
  {
    StartIsSound(c, ScopeOf(refs, []));
  }

  // ---------------------------------------------------- measures with names

  /** The measure means something, and its name is plain where it has to be. */
  predicate PlainField(c: Config, f: Field) {
    match f
    case Aggregate(_, _) => true
    case Formula(ast, refs, fieldName, _) =>
      && FieldValue(c, f).Some? && StartsPlain(fieldName)
      && var spec := Parse(ast, refs); spec.Ok? && NeedsHidden(spec.value) ==> IsWord(fieldName)
  }

  lemma PlainFieldIsLegible(c: Config, refs: set<AggRef>, done: seq<Field>, f: Field, all: seq<Field>, p: Progress)
    requires Next(c, refs, done, f, all) && Holds(c, refs, done, p)
    requires IsWord(c.model) && PlainField(c, f) && NoDots(p.st.known)
    ensures FieldLegible(c, p.st, f)
    ensures var p' := AddField(c, p, f); p'.Ok? ==> NoDots(p'.value.st.known)
  {
    var v := ScopeOf(refs, done + [f]);
    NextIsApart(c, refs, done, f, all);
    match f
    case Aggregate(ref, _) => AggregateNoDots(c, v, p, f);
    case Formula(ast, own, fieldName, _) =>
      var spec := Parse(ast, own);
      if spec.Ok? {
        FormulaIsFresh(c, refs, done, f, all, p.st);
        ParseIsConsistent(v, ast, own, spec.value);
        ParseReads(c.grouping, ast, own, spec.value);
        PlainIsLegible(c, v, spec.value, fieldName, p.st, own);
      }
  }

  lemma AggregateNoDots(c: Config, v: Scope, p: Progress, f: Field)
    requires WellNamed(c, v) && f.Aggregate? && f.ref in v.refs && (IsRenamed(f) ==> f.name.value in v.renames)
    requires NoDots(p.st.known)
    ensures var p' := AddField(c, p, f); p'.Ok? ==> NoDots(p'.value.st.known)
  {
    WordIsBounded(Canonical(f.ref));
    if IsRenamed(f) { WordIsBounded(f.name.value); }
    EnsureNoDots(c, p.st, f.ref);
  }

  lemma EnsureNoDots(c: Config, st: State, ref: AggRef)
    requires NoDots(st.known) && StartsPlain(Canonical(ref))
    ensures var st' := Ensure(c, st, Canonical(ref), ref);
      st'.Ok? ==>
        && NoDots(st'.value.known)
        && forall name :: StartsPlain(name) ==> NoDots(Rename(c, st'.value, ref, name).known)
  {
  }

  lemma {:induction false} PlainFieldsAreLegible(
    c: Config, refs: set<AggRef>, done: seq<Field>, rest: seq<Field>, p: Progress)
    requires QueryOk(c, refs, done + rest) && Holds(c, refs, done, p) && InTime(done, rest)
    requires IsWord(c.model) && NoDots(p.st.known) && forall f :: f in rest ==> PlainField(c, f)
    ensures AllLegible(c, p, rest)
    decreases |rest|
  {
    if rest != [] {
      IsNext(c, refs, done, rest);
      PlainFieldIsLegible(c, refs, done, rest[0], done + rest, p);
      var p' := AddField(c, p, rest[0]);
      if p'.Ok? {
        FieldHolds(c, refs, done, rest[0], done + rest, p, p'.value);
        PlainFieldsAreLegible(c, refs, done + [rest[0]], rest[1..], p'.value);
      }
    }
  }

  /** A query whose measures have plain names where hidden columns are made from them is computable
      exactly if no aggregate is renamed late. */
  lemma PlainQueryIsComputable(c: Config, refs: set<AggRef>, fields: seq<Field>, p: Progress)
    requires QueryOk(c, refs, fields) && AddFields(c, Progress(START, map[]), fields) == Ok(p)
    requires IsWord(c.model) && forall f :: f in fields ==> PlainField(c, f)
    ensures Run(p.st.steps).Some? <==> RenamedInTime(fields)
  {
    QueryIsComputable(c, refs, fields, p);
    InTimeIsRenamedInTime([], fields);
    assert [] + fields == fields;
    assert InTime([], fields) <==> RenamedInTime(fields);
    StartHolds(c, refs);
    if RenamedInTime(fields) { PlainFieldsAreLegible(c, refs, [], fields, Progress(START, map[])); }
  }
}
