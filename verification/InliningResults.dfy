/** When inlining raises, what it leaves behind, and what its hypotheses are for. */
module InliningResults {
  import opened Models
  import opened Aliases
  import opened Cycles
  import opened ColumnDependencies
  import opened ColumnInlining

  // -------------------------------------------------- raising means a cycle

  /** What the inliner replaces is a dependency in the save-time sense, and the other way round,
      unless the reference spells an alias that leads nowhere as a path of joins. */
  lemma InlinedIsDependency(reg: Registry, shared: bool, root: string, f: Frame, isRoot: bool, ref: Ref)
    requires WellBehaved(reg) && Believes(reg, root, f, isRoot) && ref.db.None?
    requires SpellsAlias(root, f, ref) ==> Walk(reg, f.model, Split(ref.table.value)).Some?
    ensures
      match Reached(reg, shared, root, f, isRoot, ref.table)
      case None => Dependency(reg, f.model, ref) == None
      case Some((g, _)) =>
        Dependency(reg, f.model, ref) == if IsInlinedAt(g, ref) then Some(Key(g.model.name, ref.name)) else None
  {
    TargetsAgree(reg, shared, root, f, isRoot, ref.table);
    if SpellsAlias(root, f, ref) { OwnAliasWalksHome(reg, root, f, ref.table.value); }
  }

  /** A path of joins that has the host's own alias ends at the host. */
  lemma OwnAliasWalksHome(reg: Registry, root: string, f: Frame, table: string)
    requires WellBehaved(reg) && GoodFrame(reg, root, f) && table == AliasOf(root, f.path)
    requires Walk(reg, f.model, Split(table)).Some?
    ensures Walk(reg, f.model, Split(table)) == Some(f.model)
  {
    WalkEndsAtLastHop(reg, f.model, Split(table));
    if f.path == [] {
      SplitName(root);
    } else {
      SplitOfJoin(f.path);
      WalkEndsAtLastHop(reg, reg[root], f.path);
    }
  }

  /** The recursion's chain is a chain of dependencies, and `refs` stand in its last definition. */
  ghost predicate OnChain(reg: Registry, visited: seq<Key>, model: Model, refs: seq<Ref>) {
    visited == [] || (
      && IsChain(DependencyGraph(reg), visited)
      && forall r :: r in refs && Dependency(reg, model, r).Some? ==>
           Dependency(reg, model, r).value in Next(DependencyGraph(reg), visited[|visited| - 1]))
  }

  ghost predicate SomeCyclic(reg: Registry, model: Model, refs: seq<Ref>) {
    exists r :: r in refs && Dependency(reg, model, r).Some?
      && CyclicFrom(DependencyGraph(reg), Dependency(reg, model, r).value)
  }

  lemma NextOf(reg: Registry, key: Key, model: Model)
    requires Definition(reg, key).Some? && reg[key.model] == model
    ensures Next(DependencyGraph(reg), key) == Dependencies(reg, model, Refs(Definition(reg, key).value))
  {
  }

  lemma {:induction false} RaiseIsCycle(
    reg: Registry, shared: bool, root: string, refs: seq<Ref>, f: Frame, isRoot: bool, visited: seq<Key>, n: nat,
    cycle: seq<Key>)
    requires WellBehaved(reg) && Believes(reg, root, f, isRoot) && |Pending(reg, visited)| <= n
    requires Unspelled(reg, shared, root, f, isRoot, refs, n, true) && OnChain(reg, visited, f.model, refs)
    requires ExpandRefs(reg, shared, refs, f.model, AliasOf(root, f.path), visited, isRoot) == Err(cycle)
    ensures IsCycle(DependencyGraph(reg), cycle) && SomeCyclic(reg, f.model, refs)
    decreases n, 1, |refs|
  {
    var r := refs[0];
    if ExpandRef(reg, shared, r, f.model, AliasOf(root, f.path), visited, isRoot).Err? {
      var k := RefRaiseIsCycle(reg, shared, root, r, f, isRoot, visited, n, cycle);
      assert r in refs && Dependency(reg, f.model, r) == Some(k);
    } else {
      assert refs == [r] + refs[1..];
      RaiseIsCycle(reg, shared, root, refs[1..], f, isRoot, visited, n, cycle);
      var s :| s in refs[1..] && Dependency(reg, f.model, s).Some?
        && CyclicFrom(DependencyGraph(reg), Dependency(reg, f.model, s).value);
      assert s in refs;
    }
  }

  lemma {:induction false} RefRaiseIsCycle(
    reg: Registry, shared: bool, root: string, ref: Ref, f: Frame, isRoot: bool, visited: seq<Key>, n: nat,
    cycle: seq<Key>)
    returns (key: Key)
    requires WellBehaved(reg) && Believes(reg, root, f, isRoot) && |Pending(reg, visited)| <= n
    requires !MeetsAlias(reg, shared, root, f, isRoot, ref, n, true) && OnChain(reg, visited, f.model, [ref])
    requires ExpandRef(reg, shared, ref, f.model, AliasOf(root, f.path), visited, isRoot) == Err(cycle)
    ensures IsCycle(DependencyGraph(reg), cycle)
    ensures Dependency(reg, f.model, ref) == Some(key) && CyclicFrom(DependencyGraph(reg), key)
    decreases n, 0, 0
  {
    var g, keeps := RaisingRef(reg, shared, root, ref, f, isRoot, visited, n);
    var k, inner := InlinedStep(reg, shared, root, f, isRoot, ref, visited, g, keeps);
    key := k;
    var graph := DependencyGraph(reg);
    assert visited != [] ==> key in Next(graph, visited[|visited| - 1]) by { assert ref in [ref]; }
    if key in visited {
      ClosesCycle(graph, visited, key);
    } else {
      ChainGoesOn(reg, visited, key, g.model);
      PendingShrinks(reg, visited, key);
      UnspelledInside(reg, shared, root, f, isRoot, ref, n, true, g, keeps);
      RaiseIsCycle(
        reg, shared, root, Refs(Definition(reg, key).value), g, keeps, visited + [key], n - 1, cycle);
      CyclicDefinition(reg, key, g.model);
    }
  }

  /** Only a derived column that a reference leads to can make it raise. */
  lemma RaisingRef(
    reg: Registry, shared: bool, root: string, ref: Ref, f: Frame, isRoot: bool, visited: seq<Key>, n: nat)
    returns (g: Frame, keeps: bool)
    requires WellBehaved(reg) && Believes(reg, root, f, isRoot)
    requires !MeetsAlias(reg, shared, root, f, isRoot, ref, n, true)
    requires ExpandRef(reg, shared, ref, f.model, AliasOf(root, f.path), visited, isRoot).Err?
    ensures ref.db.None? && Reached(reg, shared, root, f, isRoot, ref.table) == Some((g, keeps)) && IsInlinedAt(g, ref)
    ensures Dependency(reg, f.model, ref) == Some(Key(g.model.name, ref.name))
  {
    TargetsAgree(reg, shared, root, f, isRoot, ref.table);
    InlinedIsDependency(reg, shared, root, f, isRoot, ref);
    var reached := Reached(reg, shared, root, f, isRoot, ref.table).value;
    g, keeps := reached.0, reached.1;
  }

  lemma ChainGoesOn(reg: Registry, visited: seq<Key>, key: Key, model: Model)
    requires Definition(reg, key).Some? && reg[key.model] == model
    requires visited != [] ==> IsChain(DependencyGraph(reg), visited)
    requires visited != [] ==> key in Next(DependencyGraph(reg), visited[|visited| - 1])
    ensures OnChain(reg, visited + [key], model, Refs(Definition(reg, key).value))
  {
    ChainSnoc(DependencyGraph(reg), visited, key);
    NextOf(reg, key, model);
  }

  /** What is not met at all is not met inside a definition either. */
  lemma UnspelledInside(
    reg: Registry, shared: bool, root: string, f: Frame, isRoot: bool, ref: Ref, n: nat, dead: bool, g: Frame,
    keeps: bool)
    requires !MeetsAlias(reg, shared, root, f, isRoot, ref, n, dead) && ref.db.None? && n > 0
    requires Reached(reg, shared, root, f, isRoot, ref.table) == Some((g, keeps)) && IsInlinedAt(g, ref)
    ensures Unspelled(reg, shared, root, g, keeps, Refs(DefinitionIn(g.model, ref.name).value), n - 1, dead)
  {
  }

  lemma CyclicDefinition(reg: Registry, key: Key, model: Model)
    requires Definition(reg, key).Some? && reg[key.model] == model
    requires SomeCyclic(reg, model, Refs(Definition(reg, key).value))
    ensures CyclicFrom(DependencyGraph(reg), key)
  {
    NextOf(reg, key, model);
    var graph, refs := DependencyGraph(reg), Refs(Definition(reg, key).value);
    var s :| s in refs && Dependency(reg, model, s).Some? && CyclicFrom(graph, Dependency(reg, model, s).value);
    CyclicStep(graph, key, Dependency(reg, model, s).value);
  }

  // ------------------------------------------- a cycle is never got through

  /** The reference behind an edge of the dependency graph. */
  lemma RefTo(reg: Registry, key: Key, model: Model, next: Key) returns (ref: Ref)
    requires Definition(reg, key).Some? && reg[key.model] == model && next in Next(DependencyGraph(reg), key)
    ensures ref in Refs(Definition(reg, key).value) && Dependency(reg, model, ref) == Some(next)
  {
    NextOf(reg, key, model);
    ref :| ref in Refs(Definition(reg, key).value) && Dependency(reg, model, ref) == Some(next);
  }

  /** Inlining the reference would go through these derived columns, one inside the other. */
  ghost predicate GoesThrough(reg: Registry, model: Model, ref: Ref, keys: seq<Key>)
    decreases |keys|
  {
    keys != [] && Dependency(reg, model, ref) == Some(keys[0]) &&
    (|keys| == 1 || (Definition(reg, keys[0]).Some? && exists s :: InnerRef(reg, keys, s)))
  }

  ghost predicate InnerRef(reg: Registry, keys: seq<Key>, s: Ref)
    requires |keys| > 1 && Definition(reg, keys[0]).Some?
    decreases |keys|, 0
  {
    s in Refs(Definition(reg, keys[0]).value) && GoesThrough(reg, reg[keys[0].model], s, keys[1..])
  }

  lemma {:induction false} ChainIsGoneThrough(reg: Registry, model: Model, ref: Ref, p: seq<Key>)
    requires IsChain(DependencyGraph(reg), p) && Dependency(reg, model, ref) == Some(p[0])
    ensures GoesThrough(reg, model, ref, p)
    decreases |p|
  {
    if |p| > 1 {
      var s := RefTo(reg, p[0], reg[p[0].model], p[1]);
      ChainIsGoneThrough(reg, reg[p[0].model], s, p[1..]);
      assert InnerRef(reg, p, s);
    }
  }

  /** What is expanded without an error goes through no more derived columns than were pending. */
  lemma {:induction false} ExpandedIsShallow(
    reg: Registry, shared: bool, root: string, ref: Ref, f: Frame, isRoot: bool, visited: seq<Key>, n: nat,
    keys: seq<Key>)
    requires WellBehaved(reg) && Believes(reg, root, f, isRoot) && |Pending(reg, visited)| <= n
    requires !MeetsAlias(reg, shared, root, f, isRoot, ref, n, true) && GoesThrough(reg, f.model, ref, keys)
    requires ExpandRef(reg, shared, ref, f.model, AliasOf(root, f.path), visited, isRoot).Ok?
    ensures |keys| <= |Pending(reg, visited)|
    decreases n
  {
    InlinedIsDependency(reg, shared, root, f, isRoot, ref);
    var (g, keeps) := Reached(reg, shared, root, f, isRoot, ref.table).value;
    var key, inner := InlinedStep(reg, shared, root, f, isRoot, ref, visited, g, keeps);
    PendingShrinks(reg, visited, key);
    if |keys| > 1 {
      var s :| InnerRef(reg, keys, s);
      AllExpanded(reg, shared, Refs(Definition(reg, key).value), g.model, AliasOf(root, g.path), visited + [key],
        keeps, s);
      ExpandedIsShallow(reg, shared, root, s, g, keeps, visited + [key], n - 1, keys[1..]);
    }
  }

  lemma {:induction false} AllExpanded(
    reg: Registry, shared: bool, refs: seq<Ref>, model: Model, alias: string, visited: seq<Key>, isRoot: bool, ref: Ref)
    requires Hosted(reg, model) && ExpandRefs(reg, shared, refs, model, alias, visited, isRoot).Ok? && ref in refs
    ensures ExpandRef(reg, shared, ref, model, alias, visited, isRoot).Ok?
    decreases |refs|
  {
    if refs[0] != ref { AllExpanded(reg, shared, refs[1..], model, alias, visited, isRoot, ref); }
  }

  /** Expansion from a root model raises exactly if some reference leads to a dependency cycle; then
      what it reports is one. */
  lemma RaisesIffCyclic(reg: Registry, shared: bool, root: string, sql: Sql)
    requires WellBehaved(reg) && root in reg
    requires Unspelled(reg, shared, root, Frame([], reg[root]), true, Refs(sql), |Pending(reg, [])|, true)
    ensures
      match Expand(reg, shared, sql, reg[root], root, [], true)
      case Err(cycle) => IsCycle(DependencyGraph(reg), cycle) && SomeCyclic(reg, reg[root], Refs(sql))
      case Ok(_) => !SomeCyclic(reg, reg[root], Refs(sql))
  {
    var f, n := Frame([], reg[root]), |Pending(reg, [])|;
    match Expand(reg, shared, sql, reg[root], root, [], true) {
      case Err(cycle) => RaiseIsCycle(reg, shared, root, Refs(sql), f, true, [], n, cycle);
      case Ok(_) =>
        forall r | r in Refs(sql) && Dependency(reg, reg[root], r).Some?
          ensures !CyclicFrom(DependencyGraph(reg), Dependency(reg, reg[root], r).value)
        {
          if CyclicFrom(DependencyGraph(reg), Dependency(reg, reg[root], r).value) {
            var p := LongChain(DependencyGraph(reg), Dependency(reg, reg[root], r).value, n);
            ChainIsGoneThrough(reg, reg[root], r, p);
            AllExpanded(reg, shared, Refs(sql), reg[root], root, [], true, r);
            ExpandedIsShallow(reg, shared, root, r, f, true, [], n, p);
          }
        }
    }
  }

  // ---------------------------------------- a cycle leaves nothing to mean

  lemma TargetFrameHosted(reg: Registry, f: Frame, table: Option<string>)
    requires Registered(reg) && Hosted(reg, f.model)
    ensures var g := TargetFrame(reg, f, table);
      ResolveTarget(reg, f.model, table) == (if g.None? then None else Some(g.value.model)) &&
      (g.Some? ==> Hosted(reg, g.value.model))
  {
    if table.Some? && table.value != f.model.name && Walk(reg, f.model, Split(table.value)).Some? {
      WalkEndsAtLastHop(reg, f.model, Split(table.value));
    }
  }

  /** A reference through more than `n` derived columns has no meaning at depth `n`. */
  lemma {:induction false} DeepMeansNothing(reg: Registry, root: string, ref: Ref, f: Frame, n: nat, keys: seq<Key>)
    requires Registered(reg) && Hosted(reg, f.model) && GoesThrough(reg, f.model, ref, keys) && |keys| > n
    ensures UnfoldRef(reg, root, ref, f, n) == None
    decreases n
  {
    TargetFrameHosted(reg, f, ref.table);
    if n > 0 {
      var g := TargetFrame(reg, f, ref.table).value;
      var s :| InnerRef(reg, keys, s);
      DeepMeansNothing(reg, root, s, g, n - 1, keys[1..]);
      OneRefMeaningless(reg, root, Refs(DefinitionIn(g.model, ref.name).value), g, n - 1, s);
    }
  }

  lemma {:induction false} OneRefMeaningless(reg: Registry, root: string, refs: seq<Ref>, f: Frame, n: nat, ref: Ref)
    requires ref in refs && UnfoldRef(reg, root, ref, f, n) == None
    ensures UnfoldRefs(reg, root, refs, f, n) == None
    decreases |refs|
  {
    if refs[0] != ref { OneRefMeaningless(reg, root, refs[1..], f, n, ref); }
  }

  /** SQL that leads to a dependency cycle has no meaning, however deep definitions are nested. */
  lemma CyclicMeansNothing(reg: Registry, root: string, sql: Sql, f: Frame, n: nat)
    requires Registered(reg) && Hosted(reg, f.model) && SomeCyclic(reg, f.model, Refs(sql))
    ensures Unfold(reg, root, sql, f, n) == None
  {
    var r :| r in Refs(sql) && Dependency(reg, f.model, r).Some?
      && CyclicFrom(DependencyGraph(reg), Dependency(reg, f.model, r).value);
    var p := LongChain(DependencyGraph(reg), Dependency(reg, f.model, r).value, n);
    ChainIsGoneThrough(reg, f.model, r, p);
    DeepMeansNothing(reg, root, r, f, n, p);
    OneRefMeaningless(reg, root, Refs(sql), f, n, r);
  }

  lemma AcceptedIsNotCyclic(reg: Registry, root: string, accepted: Registry, refs: seq<Ref>)
    requires Registered(reg) && IsPrefetch(reg, root, accepted) && Acyclic(accepted)
    ensures !SomeCyclic(reg, reg[root], refs)
  {
    DependenciesAgree(reg, root, accepted, reg[root], refs);
    forall r | r in refs && Dependency(reg, reg[root], r).Some?
      ensures !CyclicFrom(DependencyGraph(reg), Dependency(reg, reg[root], r).value)
    {
      AcceptedIsAcyclic(reg, root, accepted, Dependency(reg, reg[root], r).value);
    }
  }

  /** A model the save-time check accepted never makes the inliner raise. */
  lemma AcceptedNeverRaises(reg: Registry, shared: bool, root: string, accepted: Registry, sql: Sql)
    requires WellBehaved(reg) && root in reg
    requires Unspelled(reg, shared, root, Frame([], reg[root]), true, Refs(sql), |Pending(reg, [])|, true)
    requires IsPrefetch(reg, root, accepted) && Acyclic(accepted)
    ensures Expand(reg, shared, sql, reg[root], root, [], true).Ok?
  {
    AcceptedIsNotCyclic(reg, root, accepted, Refs(sql));
    RaisesIffCyclic(reg, shared, root, sql);
  }

  // -------------------------------------------------- nothing left to inline

  /** A reference that stays as it is: out of scope, unresolved where it was written, or a base
      column (or unknown name) of the table at a path from the root, under that path's alias. */
  ghost predicate Settled(reg: Registry, root: string, r: Ref) {
    || r.db.Some? || !r.inRootScope
    || (exists m :: m in reg && ResolveTarget(reg, reg[m], r.table).None?)
    || (exists f ::
          GoodFrame(reg, root, f) && r.table == Some(AliasOf(root, f.path)) && DefinitionIn(f.model, r.name).None?)
  }

  ghost predicate AllSettled(reg: Registry, root: string, refs: seq<Ref>) {
    forall r :: r in refs ==> Settled(reg, root, r)
  }

  lemma {:induction false} FillSettled(reg: Registry, root: string, sql: Sql, subs: seq<Sql>)
    requires |subs| == |Refs(sql)| && forall i :: 0 <= i < |subs| ==> AllSettled(reg, root, Refs(subs[i]))
    ensures AllSettled(reg, root, Refs(Fill(sql, subs)))
    decreases sql, 1
  {
    match sql
    case Text(_) =>
    case Col(_) =>
    case App(_, args) => FillAllSettled(reg, root, args, subs);
    case Paren(e) => FillSettled(reg, root, e, subs);
  }

  lemma {:induction false} FillAllSettled(reg: Registry, root: string, args: seq<Sql>, subs: seq<Sql>)
    requires |subs| == |RefsOfAll(args)| && forall i :: 0 <= i < |subs| ==> AllSettled(reg, root, Refs(subs[i]))
    ensures AllSettled(reg, root, RefsOfAll(FillAll(args, subs)))
    decreases args, 0
  {
    if args != [] {
      var n := |Refs(args[0])|;
      FillSettled(reg, root, args[0], subs[..n]);
      FillAllSettled(reg, root, args[1..], subs[n..]);
      assert FillAll(args, subs)[1..] == FillAll(args[1..], subs[n..]);
    }
  }

  lemma {:induction false} ExpandSettles(
    reg: Registry, shared: bool, root: string, sql: Sql, f: Frame, isRoot: bool, visited: seq<Key>, expanded: Sql)
    requires WellBehaved(reg) && Believes(reg, root, f, isRoot)
    requires Expand(reg, shared, sql, f.model, AliasOf(root, f.path), visited, isRoot) == Ok(expanded)
    ensures AllSettled(reg, root, Refs(expanded))
    decreases Pending(reg, visited), 2, 0
  {
    var subs := ExpandRefs(reg, shared, Refs(sql), f.model, AliasOf(root, f.path), visited, isRoot).value;
    RefsSettle(reg, shared, root, Refs(sql), f, isRoot, visited, subs);
    FillSettled(reg, root, sql, subs);
  }

  lemma {:induction false} RefsSettle(
    reg: Registry, shared: bool, root: string, refs: seq<Ref>, f: Frame, isRoot: bool, visited: seq<Key>,
    subs: seq<Sql>)
    requires WellBehaved(reg) && Believes(reg, root, f, isRoot)
    requires ExpandRefs(reg, shared, refs, f.model, AliasOf(root, f.path), visited, isRoot) == Ok(subs)
    ensures forall i :: 0 <= i < |subs| ==> AllSettled(reg, root, Refs(subs[i]))
    decreases Pending(reg, visited), 1, |refs|
  {
    if refs != [] {
      assert subs == [subs[0]] + subs[1..];
      RefSettles(reg, shared, root, refs[0], f, isRoot, visited, subs[0]);
      RefsSettle(reg, shared, root, refs[1..], f, isRoot, visited, subs[1..]);
    }
  }

  lemma {:induction false} RefSettles(
    reg: Registry, shared: bool, root: string, ref: Ref, f: Frame, isRoot: bool, visited: seq<Key>, sub: Sql)
    requires WellBehaved(reg) && Believes(reg, root, f, isRoot)
    requires ExpandRef(reg, shared, ref, f.model, AliasOf(root, f.path), visited, isRoot) == Ok(sub)
    ensures AllSettled(reg, root, Refs(sub))
    decreases Pending(reg, visited), 0, 0
  {
    TargetsAgree(reg, shared, root, f, isRoot, ref.table);
    var reached := Reached(reg, shared, root, f, isRoot, ref.table);
    if ref.db.None? && reached.Some? && IsInlinedAt(reached.value.0, ref) {
      var g, keeps := reached.value.0, reached.value.1;
      var key, inner := InlinedStep(reg, shared, root, f, isRoot, ref, visited, g, keeps);
      PendingShrinks(reg, visited, key);
      ExpandSettles(reg, shared, root, Definition(reg, key).value, g, keeps, visited + [key], inner.value);
    } else if reached.None? {
      assert f.model.name in reg && ResolveTarget(reg, reg[f.model.name], ref.table).None?;
    }
  }

  // ----------------------------------------------------- coming home, shared

  lemma ExpandOne(
    reg: Registry, shared: bool, ref: Ref, model: Model, alias: string, visited: seq<Key>, isRoot: bool)
    requires Hosted(reg, model)
    ensures Expand(reg, shared, Col(ref), model, alias, visited, isRoot) ==
      ExpandRef(reg, shared, ref, model, alias, visited, isRoot)
  {
    var subs := ExpandRefs(reg, shared, [ref], model, alias, visited, isRoot);
    assert [ref][1..] == [];
    assert ExpandRefs(reg, shared, [], model, alias, visited, isRoot) == Ok([]);
    if subs.Ok? { assert subs.value == [ExpandRef(reg, shared, ref, model, alias, visited, isRoot).value]; }
  }

  lemma UnfoldOne(reg: Registry, root: string, ref: Ref, f: Frame, n: nat)
    requires UnfoldRef(reg, root, ref, f, n).Some?
    ensures Unfold(reg, root, Col(ref), f, n) == Some(Plain(UnfoldRef(reg, root, ref, f, n).value))
  {
    assert [ref][1..] == [];
    assert UnfoldRefs(reg, root, [], f, n) == Some([]);
    var v := UnfoldRef(reg, root, ref, f, n).value;
    assert [v] + [] == [v];
    assert UnfoldRefs(reg, root, [ref], f, n) == Some([v]);
  }

  const NAME_OF_CUSTOMER := Ref(None, Some("c"), "name", true)
  const ORDERS :=
    Model("o", [Column("note", Some(Col(NAME_OF_CUSTOMER)))], [ModelJoin("c", [("customer", "id")], Left)])
  const CUSTOMERS := Model("c", [], [ModelJoin("o", [("lastOrder", "id")], Left)])

  /** Orders `o` and customers `c` join each other; an order's `note` is its customer's name. */
  const ROUND_TRIP: Registry := map["o" := ORDERS, "c" := CUSTOMERS]

  lemma RoundTripWalks()
    ensures Split("c__o") == ["c", "o"] && Split("c") == ["c"]
    ensures Walk(ROUND_TRIP, ORDERS, ["c"]) == Some(CUSTOMERS)
    ensures Walk(ROUND_TRIP, ORDERS, ["c", "o"]) == Some(ORDERS)
  {
    SplitName("o");
    SplitName("c");
    SplitFirst("c", "o");
    assert "c" + "__" + "o" == "c__o";
    assert ["c", "o"][1..] == ["o"] && ["o"][1..] == [] && ["c"][1..] == [];
    assert FindJoin(ORDERS.joins, "c").Some? && FindJoin(CUSTOMERS.joins, "o").Some?;
  }

  /** With shared objects, a walk that comes back to the root model keeps the root flag: the note of
      the customer's last order reads the customer of the order at hand, `c`, where it should read
      the customer of that last order, `c__o__c`. With fresh objects it does. */
  lemma ComingHomeMisreads()
    ensures
      var sql, there := Col(Ref(None, Some("c__o"), "note", true)), Some(Join(["c", "o", "c"]));
      && Expand(ROUND_TRIP, true, sql, ORDERS, "o", [], true) == Ok(Paren(Col(NAME_OF_CUSTOMER)))
      && Expand(ROUND_TRIP, false, sql, ORDERS, "o", [], true) == Ok(Paren(Col(NAME_OF_CUSTOMER.(table := there))))
      && Unfold(ROUND_TRIP, "o", sql, Frame([], ORDERS), 1) == Some(Col(NAME_OF_CUSTOMER.(table := there)))
  {
    var ref := Ref(None, Some("c__o"), "note", true);
    ComesHome(true, ref);
    ComesHome(false, ref);
    HomeIsFar(ref);
    assert "c__o" + "__" + "c" == Join(["c", "o", "c"]) by { HomeAlias(); }
  }

  lemma HomeAlias()
    ensures Join(["c", "o", "c"]) == "c__o__c" == "c__o" + "__" + "c"
  {
    assert ["c", "o", "c"][1..] == ["o", "c"] && ["o", "c"][1..] == ["c"];
  }

  /** What is made of `c__o.note`, if objects are shared and if not. */
  lemma ComesHome(shared: bool, ref: Ref)
    requires ref == Ref(None, Some("c__o"), "note", true)
    ensures Expand(ROUND_TRIP, shared, Col(ref), ORDERS, "o", [], true) ==
      Ok(Paren(Col(NAME_OF_CUSTOMER.(table := Some(if shared then "c" else "c__o" + "__" + "c")))))
  {
    RoundTripWalks();
    JoinOfSplit("c__o");
    JoinOfSplit("c");
    var key := Key("o", "note");
    assert DefinitionIn(ORDERS, "note") == Some(Col(NAME_OF_CUSTOMER)) && DefinitionIn(CUSTOMERS, "name") == None;
    ExpandOne(ROUND_TRIP, shared, NAME_OF_CUSTOMER, ORDERS, "c__o", [key], shared);
    ExpandOne(ROUND_TRIP, shared, ref, ORDERS, "o", [], true);
    assert WalkTarget(ROUND_TRIP, shared, ORDERS, "o", "c__o", true) == Some(Target(ORDERS, "c__o", shared));
    assert [] + [key] == [key];
  }

  lemma HomeIsFar(ref: Ref)
    requires ref == Ref(None, Some("c__o"), "note", true)
    ensures Unfold(ROUND_TRIP, "o", Col(ref), Frame([], ORDERS), 1) ==
      Some(Col(NAME_OF_CUSTOMER.(table := Some(Join(["c", "o", "c"])))))
  {
    var home := Frame(["c", "o"], ORDERS);
    HomeFrames(home);
    assert DefinitionIn(ORDERS, "note") == Some(Col(NAME_OF_CUSTOMER)) && DefinitionIn(CUSTOMERS, "name") == None;
    UnfoldOne(ROUND_TRIP, "o", NAME_OF_CUSTOMER, home, 0);
    assert UnfoldRef(ROUND_TRIP, "o", ref, Frame([], ORDERS), 1) ==
      Unfold(ROUND_TRIP, "o", Col(NAME_OF_CUSTOMER), home, 0);
    UnfoldOne(ROUND_TRIP, "o", ref, Frame([], ORDERS), 1);
  }

  lemma HomeFrames(home: Frame)
    requires home == Frame(["c", "o"], ORDERS)
    ensures TargetFrame(ROUND_TRIP, Frame([], ORDERS), Some("c__o")) == Some(home)
    ensures TargetFrame(ROUND_TRIP, home, Some("c")) == Some(Frame(["c", "o", "c"], CUSTOMERS))
  {
    RoundTripWalks();
    assert [] + ["c", "o"] == ["c", "o"] && ["c", "o"] + ["c"] == ["c", "o", "c"];
  }
}
