/** Which derived columns a derived column refers to, and the save-time check that these
    dependencies form no cycle. */
module ColumnDependencies {
  import opened Models
  import opened Aliases
  import opened Cycles
  import opened Names

  datatype Key = Key(model: string, column: string)

  // ------------------------------------------------------------ resolution

  /** The references of an expression, in the order they stand in it. */
  function Refs(sql: Sql): seq<Ref> {
    match sql
    case Text(_) => []
    case Col(r) => [r]
    case App(_, args) => RefsOfAll(args)
    case Paren(e) => Refs(e)
  }

  function RefsOfAll(args: seq<Sql>): seq<Ref> {
    if args == [] then [] else Refs(args[0]) + RefsOfAll(args[1..])
  }

  /** Follows direct joins from `host`, hop by hop. */
  function Walk(reg: Registry, host: Model, hops: seq<string>): Option<Model>
    decreases |hops|
  {
    if hops == [] then Some(host)
    else if FindJoin(host.joins, hops[0]).None? || hops[0] !in reg then None
    else Walk(reg, reg[hops[0]], hops[1..])
  }

  /** The model a table qualifier means inside `host`: the host itself, or where its hops lead. */
  function ResolveTarget(reg: Registry, host: Model, table: Option<string>): Option<Model> {
    if table.None? || table.value == host.name then Some(host)
    else Walk(reg, host, Split(table.value))
  }

  method ResolveTargetForRef(table: Option<string>, host: Model, reg: Registry) returns (target: Option<Model>)
    ensures target == ResolveTarget(reg, host, table)
  {
    if table.None? || table.value == host.name {
      return Some(host);
    }
    var parts := Split(table.value);
    var current := host;
    var i := 0;
    while i < |parts|
      invariant 0 <= i <= |parts|
      invariant Walk(reg, host, parts) == Walk(reg, current, parts[i..])
    {
      assert parts[i..][1..] == parts[i + 1..];
      if FindJoin(current.joins, parts[i]).None? {
        return None;
      }
      if parts[i] !in reg {
        return None;
      }
      current := reg[parts[i]];
      i := i + 1;
    }
    return Some(current);
  }

  lemma {:induction false} WalkEndsAtLastHop(reg: Registry, host: Model, hops: seq<string>)
    requires Registered(reg) && hops != [] && Walk(reg, host, hops).Some?
    ensures hops[|hops| - 1] in reg && Walk(reg, host, hops).value == reg[hops[|hops| - 1]]
    decreases |hops|
  {
    if |hops| > 1 { WalkEndsAtLastHop(reg, reg[hops[0]], hops[1..]); }
  }

  lemma {:induction false} WalkAppend(reg: Registry, host: Model, p: seq<string>, q: seq<string>)
    requires Walk(reg, host, p).Some?
    ensures Walk(reg, host, p + q) == Walk(reg, Walk(reg, host, p).value, q)
    decreases |p|
  {
    if p == [] {
      assert p + q == q;
    } else {
      assert (p + q)[1..] == p[1..] + q;
      WalkAppend(reg, reg[p[0]], p[1..], q);
    }
  }

  /** The derived column a reference depends on, if any: it must be in root scope, carry no
      catalog or schema, resolve, and name a column with a definition. */
  function Dependency(reg: Registry, host: Model, ref: Ref): Option<Key> {
    if !ref.inRootScope || ref.db.Some? then None else
      match ResolveTarget(reg, host, ref.table)
      case None => None
      case Some(target) =>
        match FindColumn(target.columns, ref.name)
        case Some(Column(name, Some(_))) => Some(Key(target.name, name))
        case _ => None
  }

  function Dependencies(reg: Registry, host: Model, refs: seq<Ref>): (deps: seq<Key>)
    ensures forall k :: k in deps <==> exists r :: r in refs && Dependency(reg, host, r) == Some(k)
  {
    if refs == [] then [] else
      var rest := Dependencies(reg, host, refs[1..]);
      assert refs == [refs[0]] + refs[1..];
      match Dependency(reg, host, refs[0])
      case None => rest
      case Some(k) => [k] + rest
  }

  /** The definition of a derived column. */
  function Definition(reg: Registry, k: Key): Option<Sql> {
    if k.model !in reg then None else
      match FindColumn(reg[k.model].columns, k.column)
      case None => None
      case Some(c) => c.definition
  }

  function DerivedKeys(reg: Registry): (keys: set<Key>)
    ensures forall k :: k in keys <==> Definition(reg, k).Some?
  {
    var keys := set n, c | n in reg && c in reg[n].columns && Definition(reg, Key(n, c.name)).Some? :: Key(n, c.name);
    assert forall k :: Definition(reg, k).Some? ==>
      var c := FindColumn(reg[k.model].columns, k.column).value;
      c in reg[k.model].columns && k == Key(k.model, c.name);
    keys
  }

  /** The nodes are the derived columns, the edges what their definitions refer to. */
  ghost predicate IsDependencyGraph(reg: Registry, g: Graph<Key>) {
    && (forall k :: k in g <==> Definition(reg, k).Some?)
    && (forall k :: k in g ==> g[k] == Dependencies(reg, reg[k.model], Refs(Definition(reg, k).value)))
  }

  function BuildDependencyGraph(reg: Registry): (g: Graph<Key>)
    ensures IsDependencyGraph(reg, g)
  {
    map k | k in DerivedKeys(reg) :: Dependencies(reg, reg[k.model], Refs(Definition(reg, k).value))
  }

  ghost function DependencyGraph(reg: Registry): (g: Graph<Key>)
    ensures IsDependencyGraph(reg, g)
  {
    assert IsDependencyGraph(reg, BuildDependencyGraph(reg));
    var g :| IsDependencyGraph(reg, g);
    g
  }

  lemma DependencyGraphUnique(reg: Registry, g: Graph<Key>)
    requires IsDependencyGraph(reg, g)
    ensures g == DependencyGraph(reg)
  {
  }

  // --------------------------------------------------------------- prefetch

  /** `names` holds the joined models of all its members, as far as they are registered. */
  ghost predicate JoinClosed(reg: Registry, names: set<string>) {
    forall n, j :: n in names && n in reg && j in reg[n].joins && j.target in reg ==> j.target in names
  }

  /** `out` is `reg` cut down to what is reachable from `root` over joins: the least closed set. */
  ghost predicate IsPrefetch(reg: Registry, root: string, out: Registry) {
    && root in out && out.Keys <= reg.Keys && (forall n :: n in out ==> out[n] == reg[n])
    && JoinClosed(reg, out.Keys)
    && forall names :: root in names && JoinClosed(reg, names) ==> out.Keys <= names
  }

  /** Every member of the list is registered under its own name. */
  ghost predicate Listed(out: Registry, models: seq<Model>) {
    forall i :: 0 <= i < |models| ==> models[i].name in out && out[models[i].name] == models[i]
  }

  method PrefetchReachableModels(model: Model, storage: Registry) returns (out: Registry)
    requires Registered(storage)
    ensures IsPrefetch(storage[model.name := model], model.name, out)
  {
    ghost var reg := storage[model.name := model];
    out := map[model.name := model];
    var queue := [model];
    ghost var done := {};
    while queue != []
      invariant model.name in out && out.Keys <= reg.Keys && (forall n :: n in out ==> out[n] == reg[n])
      invariant Listed(out, queue)
      invariant forall n :: n in out && n !in done ==> out[n] in queue
      invariant forall n, j :: n in done && n in reg && j in reg[n].joins && j.target in reg ==> j.target in out
      invariant forall names :: model.name in names && JoinClosed(reg, names) ==> out.Keys <= names
      decreases reg.Keys - out.Keys, |queue|
    {
      var current := queue[0];
      assert queue == [current] + queue[1..];
      var found;
      out, found := Fetch(current, storage, out, model);
      queue := queue[1..] + found;
      done := done + {current.name};
    }
  }

  /** Loads the join targets of `current` that are not there yet and exist. */
  method Fetch(current: Model, storage: Registry, before: Registry, ghost model: Model)
    returns (out: Registry, found: seq<Model>)
    requires Registered(storage)
    requires model.name in before && before.Keys <= storage[model.name := model].Keys
    requires forall n :: n in before ==> before[n] == storage[model.name := model][n]
    requires current.name in before && before[current.name] == current
    ensures before.Keys <= out.Keys <= storage[model.name := model].Keys
    ensures forall n :: n in out ==> out[n] == storage[model.name := model][n]
    ensures forall n :: n in out && n !in before ==> out[n] in found
    ensures Listed(out, found)
    ensures forall j :: j in current.joins && j.target in storage[model.name := model] ==> j.target in out
    ensures forall names :: before.Keys <= names && JoinClosed(storage[model.name := model], names) ==>
      out.Keys <= names
    ensures out.Keys == before.Keys ==> found == []
  {
    ghost var reg := storage[model.name := model];
    out, found := before, [];
    var i := 0;
    while i < |current.joins|
      invariant 0 <= i <= |current.joins|
      invariant before.Keys <= out.Keys <= reg.Keys && (forall n :: n in out ==> out[n] == reg[n])
      invariant forall n :: n in out && n !in before ==> out[n] in found
      invariant Listed(out, found)
      invariant forall k :: 0 <= k < i && current.joins[k].target in reg ==> current.joins[k].target in out
      invariant forall names :: before.Keys <= names && JoinClosed(reg, names) ==> out.Keys <= names
      invariant out.Keys == before.Keys ==> found == []
    {
      var name := current.joins[i].target;
      if name !in out && name in storage {
        forall names | before.Keys <= names && JoinClosed(reg, names) ensures name in names {
          assert current.joins[i] in reg[current.name].joins;
        }
        out, found := out[name := storage[name]], found + [storage[name]];
      }
      i := i + 1;
    }
  }

  // -------------------------------------------------------------- validation

  /** Every derived column of every prefetched model, models in name order. */
  method Roots(reachable: Registry) returns (roots: seq<Key>)
    ensures forall k :: Definition(reachable, k).Some? ==> k in roots
  {
    roots := [];
    var names := SortNames(reachable.Keys);
    var i := 0;
    while i < |names|
      invariant 0 <= i <= |names|
      invariant forall k :: Definition(reachable, k).Some? && k.model in names[..i] ==> k in roots
    {
      var added := DerivedColumns(names[i], reachable[names[i]].columns);
      assert names[..i + 1] == names[..i] + [names[i]];
      forall k | Definition(reachable, k).Some? && k.model == names[i] ensures k in added {
        var c := FindColumn(reachable[k.model].columns, k.column).value;
        assert c in reachable[k.model].columns && c.definition.Some?;
      }
      roots := roots + added;
      i := i + 1;
    }
  }

  method DerivedColumns(model: string, columns: seq<Column>) returns (keys: seq<Key>)
    ensures forall c :: c in columns && c.definition.Some? ==> Key(model, c.name) in keys
  {
    keys := [];
    var i := 0;
    while i < |columns|
      invariant 0 <= i <= |columns|
      invariant forall k :: 0 <= k < i && columns[k].definition.Some? ==> Key(model, columns[k].name) in keys
    {
      if columns[i].definition.Some? {
        keys := keys + [Key(model, columns[i].name)];
      }
      i := i + 1;
    }
  }

  ghost predicate Acyclic(reg: Registry) {
    forall c :: !IsCycle(DependencyGraph(reg), c)
  }

  /** The save-time check. It reports a cycle exactly if the dependency graph over the
      prefetched models has one, and what it reports is one. */
  method ValidateNoColumnCycles(model: Model, storage: Registry)
    returns (cycle: Option<seq<Key>>, reachable: Registry)
    requires Registered(storage)
    ensures IsPrefetch(storage[model.name := model], model.name, reachable)
    ensures cycle.None? <==> Acyclic(reachable)
    ensures cycle.Some? ==> IsCycle(DependencyGraph(reachable), cycle.value)
  {
    reachable := PrefetchReachableModels(model, storage);
    var roots := Roots(reachable);
    DependencyGraphUnique(reachable, BuildDependencyGraph(reachable));
    cycle := FirstCycle(BuildDependencyGraph(reachable), roots);
    if cycle.None? {
      RootsSuffice(reachable, roots);
    }
  }

  /** A fresh search from each root in turn, up to the first cycle. */
  method FirstCycle(graph: Graph<Key>, roots: seq<Key>) returns (cycle: Option<seq<Key>>)
    ensures cycle.None? ==> forall k :: k in roots ==> !CyclicFrom(graph, k)
    ensures cycle.Some? ==> IsCycle(graph, cycle.value)
  {
    var i := 0;
    while i < |roots|
      invariant 0 <= i <= |roots|
      invariant forall k :: 0 <= k < i ==> !CyclicFrom(graph, roots[k])
    {
      cycle := DetectCycle(graph, roots[i]);
      if cycle.Some? {
        return;
      }
      i := i + 1;
    }
    cycle := None;
  }

  lemma RootsSuffice(reg: Registry, roots: seq<Key>)
    requires forall k :: Definition(reg, k).Some? ==> k in roots
    requires forall k :: k in roots ==> !CyclicFrom(DependencyGraph(reg), k)
    ensures Acyclic(reg)
  {
    var graph := DependencyGraph(reg);
    forall c ensures !IsCycle(graph, c) {
      if IsCycle(graph, c) {
        CycleIsCyclic(graph, c);
      }
    }
  }

  // ------------------------------------- from the prefetched models to all

  /** Inside the prefetched models resolution never leaves them. */
  lemma {:induction false} WalkStaysPrefetched(
    reg: Registry, root: string, out: Registry, host: Model, hops: seq<string>)
    requires Registered(reg) && IsPrefetch(reg, root, out) && host.name in out && out[host.name] == host
    ensures Walk(out, host, hops) == Walk(reg, host, hops)
    ensures Walk(reg, host, hops).Some? ==>
              var m := Walk(reg, host, hops).value; m.name in out && out[m.name] == m
    decreases |hops|
  {
    if hops != [] && FindJoin(host.joins, hops[0]).Some? && hops[0] in reg {
      var j := FindJoin(host.joins, hops[0]).value;
      assert host.name in reg && j in reg[host.name].joins;
      WalkStaysPrefetched(reg, root, out, reg[hops[0]], hops[1..]);
    }
  }

  lemma {:induction false} DependenciesAgree(reg: Registry, root: string, out: Registry, host: Model, refs: seq<Ref>)
    requires Registered(reg) && IsPrefetch(reg, root, out) && host.name in out && out[host.name] == host
    ensures Dependencies(out, host, refs) == Dependencies(reg, host, refs)
    ensures forall k :: k in Dependencies(reg, host, refs) ==> k.model in out
    decreases |refs|
  {
    if refs != [] {
      var r := refs[0];
      if r.table.Some? { WalkStaysPrefetched(reg, root, out, host, Split(r.table.value)); }
      DependenciesAgree(reg, root, out, host, refs[1..]);
    }
  }

  lemma {:induction false} ChainStaysPrefetched(reg: Registry, root: string, out: Registry, p: seq<Key>)
    requires Registered(reg) && IsPrefetch(reg, root, out)
    requires IsChain(DependencyGraph(reg), p) && p[0].model in out
    ensures IsChain(DependencyGraph(out), p) && p[|p| - 1].model in out
    decreases |p|
  {
    if |p| > 1 {
      var host := reg[p[0].model];
      DependenciesAgree(reg, root, out, host, Refs(Definition(reg, p[0]).value));
      assert p[1] in Next(DependencyGraph(out), p[0]);
      ChainStaysPrefetched(reg, root, out, p[1..]);
    }
  }

  /** What the save-time check accepted has no reachable cycle among all registered models. */
  lemma AcceptedIsAcyclic(reg: Registry, root: string, out: Registry, k: Key)
    requires Registered(reg) && IsPrefetch(reg, root, out) && Acyclic(out) && k.model in out
    ensures !CyclicFrom(DependencyGraph(reg), k)
  {
    forall p, c | LeadsTo(DependencyGraph(reg), k, p, c) ensures false {
      ChainStaysPrefetched(reg, root, out, p);
      ChainStaysPrefetched(reg, root, out, c);
      assert IsCycle(DependencyGraph(out), c);
    }
  }
}
