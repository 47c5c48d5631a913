/** Planning the JOINs of a query: which paths it needs, and the order they are joined in. */
module JoinPlans {
  import opened Models
  import opened Aliases
  import JoinGraphs

  type Path = seq<string>

  /** What a join target resolves to: its table, and its model if there is one. */
  datatype Target = Target(table: string, model: Option<Model>)

  type Targets = map<string, Target>

  /** `left.leftColumn = right.rightColumn`. */
  datatype Condition = Condition(left: string, leftColumn: string, right: string, rightColumn: string)

  datatype Entry = Entry(table: string, alias: string, conditions: seq<Condition>, joinType: JoinType)

  // ---------------------------------------------------------- specification

  ghost predicate IsPrefix(q: Path, needed: set<Path>) {
    q != [] && exists p :: p in needed && q <= p
  }

  /** The model a walk is at after one more hop; a target without a model leaves it where it was. */
  function Advance(m: Model, segment: string, targets: Targets): Model {
    if segment in targets && targets[segment].model.Some? then targets[segment].model.value else m
  }

  /** The model a path reaches, if every hop is a declared join on the model reached so far. */
  function Reach(root: Model, path: Path, targets: Targets): Option<Model> {
    if path == [] then Some(root) else
      var last := path[|path| - 1];
      match Reach(root, path[..|path| - 1], targets)
      case None => None
      case Some(m) => if FindJoin(m.joins, last).None? then None else Some(Advance(m, last, targets))
  }

  predicate Walkable(root: Model, path: Path, targets: Targets) {
    Reach(root, path, targets).Some?
  }

  function AliasAt(base: string, path: Path): string {
    if path == [] then base else Join(path)
  }

  function Conditions(pairs: seq<(string, string)>, left: string, right: string): (r: seq<Condition>)
    ensures |r| == |pairs|
    ensures forall c :: c in r ==> c.left == left && c.right == right
  {
    if pairs == [] then [] else
      [Condition(left, pairs[0].0, right, pairs[0].1)] + Conditions(pairs[1..], left, right)
  }

  function TableOf(segment: string, targets: Targets): string {
    if segment in targets then targets[segment].table else segment
  }

  /** The JOIN of a path's last hop: on the first join the model before it declares. */
  function EntryFor(base: string, root: Model, path: Path, targets: Targets): Entry
    requires path != [] && Walkable(root, path, targets)
  {
    var n := |path| - 1;
    var join := FindJoin(Reach(root, path[..n], targets).value.joins, path[n]).value;
    Entry(TableOf(path[n], targets), Join(path), Conditions(join.pairs, AliasAt(base, path[..n]), Join(path)),
      join.joinType)
  }

  /** The paths and their prefixes all have different aliases. */
  ghost predicate AliasesApart(needed: set<Path>) {
    forall p, q :: IsPrefix(p, needed) && IsPrefix(q, needed) && Join(p) == Join(q) ==> p == q
  }

  lemma CleanPathsAreApart(needed: set<Path>)
    requires forall p :: p in needed ==> AllClean(p)
    ensures AliasesApart(needed)
  {
    forall p, q | IsPrefix(p, needed) && IsPrefix(q, needed) && Join(p) == Join(q) ensures p == q {
      PrefixIsClean(p, needed);
      PrefixIsClean(q, needed);
      JoinInjective(p, q);
    }
  }

  lemma PrefixIsClean(q: Path, needed: set<Path>)
    requires IsPrefix(q, needed) && forall p :: p in needed ==> AllClean(p)
    ensures AllClean(q)
  {
    var p :| p in needed && q <= p;
    assert AllClean(p);
    forall i | 0 <= i < |q| ensures Clean(q[i]) { assert q[i] == p[i]; }
  }

  lemma {:induction false} WalkablePrefix(root: Model, path: Path, n: nat, targets: Targets)
    requires n <= |path| && Walkable(root, path, targets)
    ensures Walkable(root, path[..n], targets)
    decreases |path|
  {
    if n < |path| {
      var m := |path| - 1;
      WalkablePrefix(root, path[..m], n, targets);
      assert path[..m][..n] == path[..n];
    } else {
      assert path[..n] == path;
    }
  }

  // ------------------------------------------------------- needed paths

  /** Adds every non-empty prefix of `segments`. */
  method AddWithPrefixes(segments: Path, paths: set<Path>) returns (more: set<Path>)
    ensures more == paths + set i | 1 <= i <= |segments| :: segments[..i]
  {
    more := paths;
    for i := 1 to |segments| + 1
      invariant more == paths + set k | 1 <= k < i :: segments[..k]
    {
      more := more + {segments[..i]};
    }
  }

  // ------------------------------------------------------------- invariant

  /** The plan so far, with the path each entry was made for. */
  ghost predicate Planned(
    base: string, root: Model, targets: Targets, needed: set<Path>, entries: seq<Entry>, origin: seq<Path>)
  {
    && |entries| == |origin|
    && (forall k :: 0 <= k < |origin| ==> IsPrefix(origin[k], needed) && Walkable(root, origin[k], targets))
    && (forall k :: 0 <= k < |origin| ==> entries[k] == EntryFor(base, root, origin[k], targets))
    && (forall j, k :: 0 <= j < k < |origin| ==> origin[j] != origin[k])
    && ParentsFirst(origin)
  }

  /** A path's parent, if it has one, is there already. */
  predicate After(earlier: seq<Path>, path: Path) {
    |path| <= 1 || path[..|path| - 1] in earlier
  }

  predicate ParentsFirst(paths: seq<Path>) {
    paths == [] || (ParentsFirst(paths[..|paths| - 1]) && After(paths[..|paths| - 1], paths[|paths| - 1]))
  }

  lemma {:induction false} ParentIsBefore(paths: seq<Path>, k: nat)
    requires ParentsFirst(paths) && k < |paths|
    ensures After(paths[..k], paths[k])
    decreases |paths|
  {
    var n := |paths| - 1;
    if k < n {
      ParentIsBefore(paths[..n], k);
      assert paths[..n][..k] == paths[..k];
    }
  }

  /** The models found so far, by the segment that led to them. */
  ghost predicate Remembered(targets: Targets, origin: seq<Path>, models: map<string, Model>) {
    && (forall s :: s in models ==> s in targets && targets[s].model == Some(models[s]))
    && (forall p :: p in origin ==> p != [])
    && (forall p :: p in origin ==>
          (p[|p| - 1] in targets && targets[p[|p| - 1]].model.Some? ==> p[|p| - 1] in models))
  }

  /** Every walkable prefix of the path is planned. */
  ghost predicate Covers(root: Model, targets: Targets, origin: seq<Path>, path: Path) {
    forall n :: 1 <= n <= |path| && Walkable(root, path[..n], targets) ==> path[..n] in origin
  }

  predicate HasAlias(entries: seq<Entry>, alias: string) {
    exists e :: e in entries && e.alias == alias
  }

  /** An alias is taken exactly by its own path. */
  lemma AliasIsOrigin(
    base: string, root: Model, targets: Targets, needed: set<Path>, entries: seq<Entry>, origin: seq<Path>, q: Path)
    requires Planned(base, root, targets, needed, entries, origin) && AliasesApart(needed) && IsPrefix(q, needed)
    ensures HasAlias(entries, Join(q)) <==> q in origin
  {
    if HasAlias(entries, Join(q)) {
      var e :| e in entries && e.alias == Join(q);
      var k :| 0 <= k < |entries| && entries[k] == e;
      assert origin[k] == q;
    }
    if q in origin {
      var k :| 0 <= k < |origin| && origin[k] == q;
      assert entries[k] in entries && entries[k].alias == Join(q);
    }
  }

  lemma PlanOneMore(
    base: string, root: Model, targets: Targets, needed: set<Path>, entries: seq<Entry>, origin: seq<Path>, q: Path)
    requires Planned(base, root, targets, needed, entries, origin) && q !in origin
    requires IsPrefix(q, needed) && Walkable(root, q, targets) && After(origin, q)
    ensures Planned(base, root, targets, needed, entries + [EntryFor(base, root, q, targets)], origin + [q])
  {
    assert (origin + [q])[..|origin|] == origin;
  }

  // ------------------------------------------------------------------- plan

  /** The walk has come `i` hops far, to this model and alias. */
  ghost predicate Walking(
    base: string, root: Model, targets: Targets, needed: set<Path>, path: Path, i: nat,
    entries: seq<Entry>, models: map<string, Model>, origin: seq<Path>, model: Model, alias: string)
    requires i <= |path|
  {
    && Planned(base, root, targets, needed, entries, origin) && Remembered(targets, origin, models)
    && Reach(root, path[..i], targets) == Some(model) && alias == AliasAt(base, path[..i])
    && forall n :: 1 <= n <= i ==> path[..n] in origin
  }

  lemma ReachNext(root: Model, path: Path, i: nat, targets: Targets)
    requires i < |path|
    ensures Reach(root, path[..i + 1], targets) ==
      match Reach(root, path[..i], targets)
      case None => None
      case Some(m) => if FindJoin(m.joins, path[i]).None? then None else Some(Advance(m, path[i], targets))
  {
    var q := path[..i + 1];
    assert q[..|q| - 1] == path[..i] && q[|q| - 1] == path[i];
  }

  /** A hop that is planned already leads where it led then. */
  lemma HopAgain(
    base: string, root: Model, targets: Targets, needed: set<Path>, path: Path, i: nat,
    entries: seq<Entry>, models: map<string, Model>, origin: seq<Path>, model: Model, alias: string)
    requires i < |path|
    requires Walking(base, root, targets, needed, path, i, entries, models, origin, model, alias)
    requires path[..i + 1] in origin
    ensures var model' := if path[i] in models then models[path[i]] else model;
      Walking(base, root, targets, needed, path, i + 1, entries, models, origin, model', Join(path[..i + 1]))
  {
    var q := path[..i + 1];
    ReachNext(root, path, i, targets);
    assert Walkable(root, q, targets) by { var k :| 0 <= k < |origin| && origin[k] == q; }
    assert q[|q| - 1] == path[i];
  }

  /** A hop along a declared join is planned next. */
  lemma HopPlanned(
    base: string, root: Model, targets: Targets, needed: set<Path>, path: Path, i: nat,
    entries: seq<Entry>, models: map<string, Model>, origin: seq<Path>, model: Model, alias: string)
    requires i < |path| && path in needed
    requires Walking(base, root, targets, needed, path, i, entries, models, origin, model, alias)
    requires path[..i + 1] !in origin && FindJoin(model.joins, path[i]).Some?
    ensures
      var segment, hop, join := path[i], Join(path[..i + 1]), FindJoin(model.joins, path[i]).value;
      var entry := Entry(TableOf(segment, targets), hop, Conditions(join.pairs, alias, hop), join.joinType);
      var models' := if segment in targets && targets[segment].model.Some?
        then models[segment := targets[segment].model.value] else models;
      Walking(base, root, targets, needed, path, i + 1, entries + [entry], models', origin + [path[..i + 1]],
        Advance(model, segment, targets), hop)
  {
    var q, segment := path[..i + 1], path[i];
    ReachNext(root, path, i, targets);
    EntryOfHop(base, root, targets, path, i, model);
    assert q[..|q| - 1] == path[..i] && q <= path;
    PlanOneMore(base, root, targets, needed, entries, origin, q);
    RememberOneMore(targets, origin, models, q);
    assert q in origin + [q];
  }

  lemma EntryOfHop(base: string, root: Model, targets: Targets, path: Path, i: nat, model: Model)
    requires i < |path| && Reach(root, path[..i], targets) == Some(model) && FindJoin(model.joins, path[i]).Some?
    ensures Walkable(root, path[..i + 1], targets)
    ensures
      var hop, join := Join(path[..i + 1]), FindJoin(model.joins, path[i]).value;
      EntryFor(base, root, path[..i + 1], targets) ==
        Entry(TableOf(path[i], targets), hop, Conditions(join.pairs, AliasAt(base, path[..i]), hop), join.joinType)
  {
    var q := path[..i + 1];
    ReachNext(root, path, i, targets);
    assert q[..|q| - 1] == path[..i] && q[|q| - 1] == path[i];
  }

  lemma RememberOneMore(targets: Targets, origin: seq<Path>, models: map<string, Model>, q: Path)
    requires Remembered(targets, origin, models) && q != []
    ensures var segment := q[|q| - 1];
      Remembered(targets, origin + [q],
        if segment in targets && targets[segment].model.Some?
        then models[segment := targets[segment].model.value] else models)
  {
  }

  /** Joins a path hop by hop, as far as declared joins lead. */
  method JoinPath(
    base: string, root: Model, targets: Targets, path: Path, entries: seq<Entry>, models: map<string, Model>,
    ghost needed: set<Path>, ghost origin: seq<Path>)
    returns (entries': seq<Entry>, models': map<string, Model>, ghost origin': seq<Path>)
    requires path in needed && AliasesApart(needed)
    requires Planned(base, root, targets, needed, entries, origin) && Remembered(targets, origin, models)
    ensures Planned(base, root, targets, needed, entries', origin') && Remembered(targets, origin', models')
    ensures origin <= origin' && Covers(root, targets, origin', path)
  {
    entries', models', origin' := entries, models, origin;
    var model, alias := root, base;
    for i := 0 to |path|
      invariant Walking(base, root, targets, needed, path, i, entries', models', origin', model, alias)
      invariant origin <= origin'
    {
      var isJoined;
      entries', models', model, isJoined, origin' :=
        JoinHop(base, root, targets, path, i, entries', models', model, alias, needed, origin');
      if !isJoined { return; }
      alias := Join(path[..i + 1]);
    }
  }

  /** Goes on by one hop, joining it unless it has been, and stops where no join is declared. */
  method JoinHop(
    base: string, root: Model, targets: Targets, path: Path, i: nat, entries: seq<Entry>, models: map<string, Model>,
    model: Model, alias: string, ghost needed: set<Path>, ghost origin: seq<Path>)
    returns (entries': seq<Entry>, models': map<string, Model>, model': Model, isJoined: bool,
      ghost origin': seq<Path>)
    requires i < |path| && path in needed && AliasesApart(needed)
    requires Walking(base, root, targets, needed, path, i, entries, models, origin, model, alias)
    ensures origin <= origin'
    ensures isJoined ==>
      Walking(base, root, targets, needed, path, i + 1, entries', models', origin', model', Join(path[..i + 1]))
    ensures !isJoined ==> origin' == origin && entries' == entries && models' == models
    ensures !isJoined ==> Covers(root, targets, origin, path)
  {
    entries', models', model', origin' := entries, models, model, origin;
    var segment, hop := path[i], Join(path[..i + 1]);
    assert path[..i + 1] <= path;
    AliasIsOrigin(base, root, targets, needed, entries, origin, path[..i + 1]);
    if HasAlias(entries, hop) {
      HopAgain(base, root, targets, needed, path, i, entries, models, origin, model, alias);
      if segment in models { model' := models[segment]; }
      isJoined := true;
    } else {
      var join := FindJoin(model.joins, segment);
      isJoined := join.Some?;
      if isJoined {
        entries', models', model', origin' :=
          AddHop(base, root, targets, path, i, entries, models, model, alias, join.value, needed, origin);
      } else {
        ReachNext(root, path, i, targets);
        StopsHere(root, targets, origin, path, i);
      }
    }
  }

  /** Adds the JOIN of one hop. */
  method AddHop(
    base: string, root: Model, targets: Targets, path: Path, i: nat, entries: seq<Entry>, models: map<string, Model>,
    model: Model, alias: string, join: ModelJoin, ghost needed: set<Path>, ghost origin: seq<Path>)
    returns (entries': seq<Entry>, models': map<string, Model>, model': Model, ghost origin': seq<Path>)
    requires i < |path| && path in needed && path[..i + 1] !in origin && FindJoin(model.joins, path[i]) == Some(join)
    requires Walking(base, root, targets, needed, path, i, entries, models, origin, model, alias)
    ensures Walking(base, root, targets, needed, path, i + 1, entries', models', origin', model', Join(path[..i + 1]))
    ensures origin <= origin'
  {
    HopPlanned(base, root, targets, needed, path, i, entries, models, origin, model, alias);
    var segment, hop := path[i], Join(path[..i + 1]);
    entries' := entries + [Entry(TableOf(segment, targets), hop, Conditions(join.pairs, alias, hop), join.joinType)];
    models', model' := models, model;
    if segment in targets && targets[segment].model.Some? {
      models' := models[segment := targets[segment].model.value];
      model' := targets[segment].model.value;
    }
    origin' := origin + [path[..i + 1]];
  }

  /** Past a hop that is no declared join nothing can be walked. */
  lemma StopsHere(root: Model, targets: Targets, origin: seq<Path>, path: Path, i: nat)
    requires i < |path| && !Walkable(root, path[..i + 1], targets)
    requires forall n :: 1 <= n <= i ==> path[..n] in origin
    ensures Covers(root, targets, origin, path)
  {
    forall n | i < n <= |path| ensures !Walkable(root, path[..n], targets) {
      if Walkable(root, path[..n], targets) {
        assert path[..n][..i + 1] == path[..i + 1];
        WalkablePrefix(root, path[..n], i + 1, targets);
      }
    }
  }

  lemma ShortestExists(paths: set<Path>)
    requires paths != {}
    ensures exists p :: p in paths && forall q :: q in paths ==> |p| <= |q|
  {
    var p :| p in paths;
    ShortestIsThere(paths, p);
  }

  lemma {:induction false} ShortestIsThere(paths: set<Path>, p: Path)
    requires p in paths
    ensures exists s :: s in paths && forall q :: q in paths ==> |s| <= |q|
    decreases |p|
  {
    if q :| q in paths && |q| < |p| { ShortestIsThere(paths, q); }
  }

  lemma {:induction false} PlannedHasPrefixes(paths: seq<Path>, path: Path, n: nat)
    requires ParentsFirst(paths) && path in paths && 1 <= n <= |path|
    ensures path[..n] in paths
    decreases |path|
  {
    if n == |path| {
      assert path[..n] == path;
    } else {
      var k :| 0 <= k < |paths| && paths[k] == path;
      ParentIsBefore(paths, k);
      var parent := path[..|path| - 1];
      assert parent in paths[..k] && parent in paths;
      PlannedHasPrefixes(paths, parent, n);
      assert parent[..n] == path[..n];
    }
  }

  /** The entry is for a needed path, or a prefix of one, along declared joins. */
  ghost predicate IsPlanned(base: string, root: Model, targets: Targets, needed: set<Path>, e: Entry) {
    exists q :: IsPrefix(q, needed) && Walkable(root, q, targets) && e == EntryFor(base, root, q, targets)
  }

  /** The entry joins the last hop of `q`: it is made from the first join to it that the model before
      declares, with that model's columns on the left and the target's on the right. */
  ghost predicate JoinsAlong(base: string, root: Model, targets: Targets, q: Path, e: Entry) {
    q != [] &&
    var n := |q| - 1;
    var before := Reach(root, q[..n], targets);
    && before.Some? && e.alias == Join(q)
    && (if q[n] in targets then e.table == targets[q[n]].table else e.table == q[n])
    && exists i :: IsFirstJoin(before.value.joins, i, q[n]) && MadeFrom(before.value.joins[i], base, q, e)
  }

  ghost predicate MadeFrom(join: ModelJoin, base: string, q: Path, e: Entry)
    requires q != []
  {
    var left := if |q| == 1 then base else Join(q[..|q| - 1]);
    && e.joinType == join.joinType && |e.conditions| == |join.pairs|
    && forall k :: 0 <= k < |join.pairs| ==>
         e.conditions[k] == Condition(left, join.pairs[k].0, e.alias, join.pairs[k].1)
  }

  /** What the conditions say of a row on the left and one on the right. */
  ghost predicate Match<V(!new)>(conditions: seq<Condition>, left: string -> V, right: string -> V) {
    forall c :: c in conditions ==> left(c.leftColumn) == right(c.rightColumn)
  }

  /** A row of the model before and one of the target match exactly if they agree on every declared
      pair of columns. */
  lemma RowsMatchOnPairs<V(!new)>(
    join: ModelJoin, base: string, q: Path, e: Entry, left: string -> V, right: string -> V)
    requires q != [] && MadeFrom(join, base, q, e)
    ensures Match(e.conditions, left, right) <==>
      forall k :: 0 <= k < |join.pairs| ==> left(join.pairs[k].0) == right(join.pairs[k].1)
  {
    if Match(e.conditions, left, right) {
      forall k | 0 <= k < |join.pairs| ensures left(join.pairs[k].0) == right(join.pairs[k].1) {
        assert e.conditions[k] in e.conditions;
      }
    }
  }

  lemma {:induction false} ConditionsAt(pairs: seq<(string, string)>, left: string, right: string, k: nat)
    requires k < |pairs|
    ensures Conditions(pairs, left, right)[k] == Condition(left, pairs[k].0, right, pairs[k].1)
  {
    if k > 0 { ConditionsAt(pairs[1..], left, right, k - 1); }
  }

  lemma EntryJoinsAlong(base: string, root: Model, targets: Targets, q: Path)
    requires q != [] && Walkable(root, q, targets)
    ensures JoinsAlong(base, root, targets, q, EntryFor(base, root, q, targets))
  {
    var e, n := EntryFor(base, root, q, targets), |q| - 1;
    var joins := Reach(root, q[..n], targets).value.joins;
    var join := FindJoin(joins, q[n]).value;
    var i := FirstJoinOf(joins, q[n]);
    forall k | 0 <= k < |join.pairs|
      ensures e.conditions[k] == Condition(AliasAt(base, q[..n]), join.pairs[k].0, e.alias, join.pairs[k].1)
    {
      ConditionsAt(join.pairs, AliasAt(base, q[..n]), e.alias, k);
    }
    assert MadeFrom(join, base, q, e);
  }

  /** Every entry joins along a needed walkable path, and every such path has its entry. */
  ghost predicate PlanIsFor(base: string, root: Model, targets: Targets, needed: set<Path>, entries: seq<Entry>) {
    && (forall e :: e in entries ==>
          exists q :: IsNeeded(root, targets, needed, q) && JoinsAlong(base, root, targets, q, e))
    && (forall q :: IsNeeded(root, targets, needed, q) ==>
          exists e :: e in entries && JoinsAlong(base, root, targets, q, e))
  }

  ghost predicate IsNeeded(root: Model, targets: Targets, needed: set<Path>, q: Path) {
    IsPrefix(q, needed) && Walkable(root, q, targets)
  }

  lemma PlanJoinsAlong(base: string, root: Model, targets: Targets, needed: set<Path>, entries: seq<Entry>)
    requires forall e :: e in entries <==> IsPlanned(base, root, targets, needed, e)
    ensures PlanIsFor(base, root, targets, needed, entries)
  {
    forall e | e in entries
      ensures exists q :: IsNeeded(root, targets, needed, q) && JoinsAlong(base, root, targets, q, e)
    {
      var q :| IsPrefix(q, needed) && Walkable(root, q, targets) && e == EntryFor(base, root, q, targets);
      EntryJoinsAlong(base, root, targets, q);
      assert IsNeeded(root, targets, needed, q);
    }
    forall q | IsNeeded(root, targets, needed, q)
      ensures exists e :: e in entries && JoinsAlong(base, root, targets, q, e)
    {
      EntryJoinsAlong(base, root, targets, q);
      assert IsPlanned(base, root, targets, needed, EntryFor(base, root, q, targets));
    }
  }

  /** A join condition is about its own alias and the base or an earlier one. */
  ghost predicate WellScoped(base: string, entries: seq<Entry>, k: nat)
    requires k < |entries|
  {
    forall c :: c in entries[k].conditions ==>
      c.right == entries[k].alias && (c.left == base || HasAlias(entries[..k], c.left))
  }

  lemma PlanIsWellScoped(
    base: string, root: Model, targets: Targets, needed: set<Path>, entries: seq<Entry>, origin: seq<Path>, k: nat)
    requires Planned(base, root, targets, needed, entries, origin) && k < |entries|
    ensures WellScoped(base, entries, k)
  {
    var q := origin[k];
    ParentIsBefore(origin, k);
    if |q| > 1 {
      var parent := q[..|q| - 1];
      var j :| 0 <= j < k && origin[j] == parent;
      assert entries[..k][j] == EntryFor(base, root, parent, targets) && entries[..k][j] in entries[..k];
    }
  }

  lemma AliasesAreDistinct(
    base: string, root: Model, targets: Targets, needed: set<Path>, entries: seq<Entry>, origin: seq<Path>)
    requires Planned(base, root, targets, needed, entries, origin) && AliasesApart(needed)
    ensures forall j, k :: 0 <= j < k < |entries| ==> entries[j].alias != entries[k].alias
  {
    forall j, k | 0 <= j < k < |entries| ensures entries[j].alias != entries[k].alias {
      assert IsPrefix(origin[j], needed) && IsPrefix(origin[k], needed) && origin[j] != origin[k];
    }
  }

  lemma PlanIsComplete(
    base: string, root: Model, targets: Targets, needed: set<Path>, entries: seq<Entry>, origin: seq<Path>)
    requires Planned(base, root, targets, needed, entries, origin)
    requires forall p :: p in needed ==> Covers(root, targets, origin, p)
    ensures forall e :: e in entries <==> IsPlanned(base, root, targets, needed, e)
  {
    forall e | e in entries ensures IsPlanned(base, root, targets, needed, e) {
      var k :| 0 <= k < |entries| && entries[k] == e;
      assert IsPrefix(origin[k], needed);
    }
    forall e | IsPlanned(base, root, targets, needed, e) ensures e in entries {
      var q :| IsPrefix(q, needed) && Walkable(root, q, targets) && e == EntryFor(base, root, q, targets);
      var p :| p in needed && q <= p;
      assert p[..|q|] == q && Covers(root, targets, origin, p);
      var k :| 0 <= k < |origin| && origin[k] == q;
      assert entries[k] == e;
    }
  }

  /** Plans the JOINs, shorter paths first and equally long ones in any order. The plan does not
      depend on that order: it joins exactly the walkable prefixes of needed paths, each once. */
  method ResolveJoins(base: string, root: Model, targets: Targets, needed: set<Path>) returns (entries: seq<Entry>)
    requires AliasesApart(needed)
    ensures PlanIsFor(base, root, targets, needed, entries)
    ensures forall e :: e in entries <==> IsPlanned(base, root, targets, needed, e)
    ensures forall j, k :: 0 <= j < k < |entries| ==> entries[j].alias != entries[k].alias
    ensures forall k :: 0 <= k < |entries| ==> WellScoped(base, entries, k)
    ensures forall p :: p in needed && p != [] ==> (HasAlias(entries, Join(p)) <==> Walkable(root, p, targets))
  {
    entries := [];
    var left := needed;
    var models: map<string, Model> := map[];
    ghost var origin: seq<Path> := [];
    while left != {}
      invariant left <= needed
      invariant Planned(base, root, targets, needed, entries, origin) && Remembered(targets, origin, models)
      invariant forall p :: p in needed - left ==> Covers(root, targets, origin, p)
      decreases |left|
    {
      ShortestExists(left);
      var path :| path in left && forall q :: q in left ==> |path| <= |q|;
      ghost var was := origin;
      if path != [] && HasAlias(entries, Join(path)) {
        assert path <= path;
        AliasIsOrigin(base, root, targets, needed, entries, origin, path);
        forall n | 1 <= n <= |path| ensures path[..n] in origin { PlannedHasPrefixes(origin, path, n); }
      } else {
        entries, models, origin := JoinPath(base, root, targets, path, entries, models, needed, origin);
      }
      forall p | p in needed - left ensures Covers(root, targets, origin, p) {
        StillCovers(root, targets, was, origin, p);
      }
      left := left - {path};
    }
    PlanIsComplete(base, root, targets, needed, entries, origin);
    PlanJoinsAlong(base, root, targets, needed, entries);
    AliasesAreDistinct(base, root, targets, needed, entries, origin);
    forall k | 0 <= k < |entries| ensures WellScoped(base, entries, k) {
      PlanIsWellScoped(base, root, targets, needed, entries, origin, k);
    }
    forall p | p in needed && p != [] ensures HasAlias(entries, Join(p)) <==> Walkable(root, p, targets) {
      assert p <= p && p[..|p|] == p && Covers(root, targets, origin, p);
      AliasIsOrigin(base, root, targets, needed, entries, origin, p);
    }
  }

  lemma StillCovers(root: Model, targets: Targets, was: seq<Path>, origin: seq<Path>, p: Path)
    requires Covers(root, targets, was, p) && was <= origin
    ensures Covers(root, targets, origin, p)
  {
    forall n | 1 <= n <= |p| && Walkable(root, p[..n], targets) ensures p[..n] in origin {
      var k :| 0 <= k < |was| && was[k] == p[..n];
      assert origin[k] == p[..n];
    }
  }

  // ------------------------------------------------------- routes are plannable

  /** The graph has an edge exactly where a model declares a join to another of its models. */
  ghost predicate GraphOf(adj: JoinGraphs.Adjacency, targets: Targets) {
    forall n :: n in adj ==>
      && n in targets && targets[n].model.Some? && targets[n].model.value.name == n
      && forall t :: t in JoinGraphs.Succ(adj, n) <==> t in adj && FindJoin(targets[n].model.value.joins, t).Some?
  }

  /** The paths of the join graph are the walkable paths between its models: a route the graph
      finds is always planned in full. */
  lemma {:induction false} RoutesAreWalkable(
    adj: JoinGraphs.Adjacency, targets: Targets, root: Model, hops: Path, t: string)
    requires GraphOf(adj, targets) && root.name in adj && targets[root.name].model == Some(root)
    requires forall h :: h in hops ==> h in adj
    ensures JoinGraphs.IsPath(adj, root.name, hops, t) <==>
      Walkable(root, hops, targets) && Reach(root, hops, targets).value.name == t
    ensures Walkable(root, hops, targets) ==>
      var m := Reach(root, hops, targets).value;
      && m.name in adj && targets[m.name].model == Some(m)
      && m.name == if hops == [] then root.name else hops[|hops| - 1]
    decreases |hops|
  {
    if hops != [] {
      var n := |hops| - 1;
      var init, last, before := hops[..n], hops[n], JoinGraphs.Penultimate(root.name, hops);
      assert last in hops && forall h :: h in init ==> h in hops;
      RoutesAreWalkable(adj, targets, root, init, before);
    }
  }
}
