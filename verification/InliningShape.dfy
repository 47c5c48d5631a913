/** The shape of expanded SQL: the tree that was given, node for node, with only its column leaves
    replaced; and what that makes of its text. */
module InliningShape {
  import opened Models
  import opened ColumnDependencies
  import opened ColumnInlining
  import opened SqlText

  // ----------------------------------------------------------- node for node

  /** `out` is `sql` with the same texts, operators and parentheses. A column leaf stays, gets the alias
      of the table it was found on, or becomes its definition, in parentheses and itself expanded. */
  ghost predicate Becomes(
    reg: Registry, shared: bool, root: string, sql: Sql, f: Frame, isRoot: bool, out: Sql)
    decreases out, 1
  {
    match sql
    case Text(_) => out == sql
    case App(op, args) => out.App? && out.op == op && AllBecome(reg, shared, root, args, f, isRoot, out.args)
    case Paren(e) => out.Paren? && Becomes(reg, shared, root, e, f, isRoot, out.inner)
    case Col(r) =>
      if r.db.Some? then out == sql else
        match Reached(reg, shared, root, f, isRoot, r.table)
        case None => out == sql
        case Some((g, keeps)) =>
          match DefinitionIn(g.model, r.name)
          case None => out == Col(Ref(None, Some(AliasOf(root, g.path)), r.name, r.inRootScope))
          case Some(definition) =>
            if r.inRootScope then out.Paren? && Becomes(reg, shared, root, definition, g, keeps, out.inner)
            else out == sql
  }

  ghost predicate AllBecome(
    reg: Registry, shared: bool, root: string, args: seq<Sql>, f: Frame, isRoot: bool, outs: seq<Sql>)
    decreases outs, 0
  {
    |args| == |outs| &&
    (args == [] ||
     (Becomes(reg, shared, root, args[0], f, isRoot, outs[0])
      && AllBecome(reg, shared, root, args[1..], f, isRoot, outs[1..])))
  }

  lemma {:induction false} FillBecomes(
    reg: Registry, shared: bool, root: string, sql: Sql, f: Frame, isRoot: bool, subs: seq<Sql>)
    requires |subs| == |Refs(sql)|
    requires forall i :: 0 <= i < |subs| ==> Becomes(reg, shared, root, Col(Refs(sql)[i]), f, isRoot, subs[i])
    ensures Becomes(reg, shared, root, sql, f, isRoot, Fill(sql, subs))
    decreases sql, 1
  {
    match sql
    case Text(_) =>
    case Col(_) =>
    case App(_, args) => FillAllBecomes(reg, shared, root, args, f, isRoot, subs);
    case Paren(e) => FillBecomes(reg, shared, root, e, f, isRoot, subs);
  }

  lemma {:induction false} FillAllBecomes(
    reg: Registry, shared: bool, root: string, args: seq<Sql>, f: Frame, isRoot: bool, subs: seq<Sql>)
    requires |subs| == |RefsOfAll(args)|
    requires forall i :: 0 <= i < |subs| ==> Becomes(reg, shared, root, Col(RefsOfAll(args)[i]), f, isRoot, subs[i])
    ensures AllBecome(reg, shared, root, args, f, isRoot, FillAll(args, subs))
    decreases args, 0
  {
    if args != [] {
      var n := |Refs(args[0])|;
      forall i | 0 <= i < n ensures Becomes(reg, shared, root, Col(Refs(args[0])[i]), f, isRoot, subs[..n][i]) {
        assert RefsOfAll(args)[i] == Refs(args[0])[i];
      }
      FillBecomes(reg, shared, root, args[0], f, isRoot, subs[..n]);
      forall i | 0 <= i < |subs[n..]|
        ensures Becomes(reg, shared, root, Col(RefsOfAll(args[1..])[i]), f, isRoot, subs[n..][i])
      {
        assert RefsOfAll(args)[n + i] == RefsOfAll(args[1..])[i];
      }
      FillAllBecomes(reg, shared, root, args[1..], f, isRoot, subs[n..]);
      assert FillAll(args, subs)[1..] == FillAll(args[1..], subs[n..]);
    }
  }

  /** Expanded SQL is the SQL that was given, node for node. */
  lemma {:induction false} ExpandBecomes(
    reg: Registry, shared: bool, root: string, sql: Sql, f: Frame, isRoot: bool, visited: seq<Key>, out: Sql)
    requires WellBehaved(reg) && Believes(reg, root, f, isRoot)
    requires Expand(reg, shared, sql, f.model, AliasOf(root, f.path), visited, isRoot) == Ok(out)
    ensures Becomes(reg, shared, root, sql, f, isRoot, out)
    decreases Pending(reg, visited), 2, 0
  {
    var subs := ExpandRefs(reg, shared, Refs(sql), f.model, AliasOf(root, f.path), visited, isRoot).value;
    RefsBecome(reg, shared, root, Refs(sql), f, isRoot, visited, subs);
    FillBecomes(reg, shared, root, sql, f, isRoot, subs);
  }

  lemma {:induction false} RefsBecome(
    reg: Registry, shared: bool, root: string, refs: seq<Ref>, f: Frame, isRoot: bool, visited: seq<Key>,
    subs: seq<Sql>)
    requires WellBehaved(reg) && Believes(reg, root, f, isRoot)
    requires ExpandRefs(reg, shared, refs, f.model, AliasOf(root, f.path), visited, isRoot) == Ok(subs)
    ensures forall i :: 0 <= i < |subs| ==> Becomes(reg, shared, root, Col(refs[i]), f, isRoot, subs[i])
    decreases Pending(reg, visited), 1, |refs|
  {
    if refs != [] {
      assert subs == [subs[0]] + subs[1..];
      RefBecomes(reg, shared, root, refs[0], f, isRoot, visited, subs[0]);
      RefsBecome(reg, shared, root, refs[1..], f, isRoot, visited, subs[1..]);
    }
  }

  lemma {:induction false} RefBecomes(
    reg: Registry, shared: bool, root: string, ref: Ref, f: Frame, isRoot: bool, visited: seq<Key>, sub: Sql)
    requires WellBehaved(reg) && Believes(reg, root, f, isRoot)
    requires ExpandRef(reg, shared, ref, f.model, AliasOf(root, f.path), visited, isRoot) == Ok(sub)
    ensures Becomes(reg, shared, root, Col(ref), f, isRoot, sub)
    decreases Pending(reg, visited), 0, 0
  {
    TargetsAgree(reg, shared, root, f, isRoot, ref.table);
    var reached := Reached(reg, shared, root, f, isRoot, ref.table);
    if ref.db.None? && reached.Some? && IsInlinedAt(reached.value.0, ref) {
      var g, keeps := reached.value.0, reached.value.1;
      var key, inner := InlinedStep(reg, shared, root, f, isRoot, ref, visited, g, keeps);
      PendingShrinks(reg, visited, key);
      ExpandBecomes(reg, shared, root, Definition(reg, key).value, g, keeps, visited + [key], inner.value);
    }
  }

  /** There is only one such tree. */
  lemma {:induction false} BecomesOne(
    reg: Registry, shared: bool, root: string, sql: Sql, f: Frame, isRoot: bool, a: Sql, b: Sql)
    requires Becomes(reg, shared, root, sql, f, isRoot, a) && Becomes(reg, shared, root, sql, f, isRoot, b)
    ensures a == b
    decreases a, 1
  {
    match sql
    case Text(_) =>
    case App(_, args) => AllBecomeOne(reg, shared, root, args, f, isRoot, a.args, b.args);
    case Paren(e) => BecomesOne(reg, shared, root, e, f, isRoot, a.inner, b.inner);
    case Col(r) =>
      if a != sql && a.Paren? {
        var (g, keeps) := Reached(reg, shared, root, f, isRoot, r.table).value;
        BecomesOne(reg, shared, root, DefinitionIn(g.model, r.name).value, g, keeps, a.inner, b.inner);
      }
  }

  lemma {:induction false} AllBecomeOne(
    reg: Registry, shared: bool, root: string, args: seq<Sql>, f: Frame, isRoot: bool, a: seq<Sql>, b: seq<Sql>)
    requires AllBecome(reg, shared, root, args, f, isRoot, a) && AllBecome(reg, shared, root, args, f, isRoot, b)
    ensures a == b
    decreases a, 0
  {
    if args != [] {
      BecomesOne(reg, shared, root, args[0], f, isRoot, a[0], b[0]);
      AllBecomeOne(reg, shared, root, args[1..], f, isRoot, a[1..], b[1..]);
      assert a == [a[0]] + a[1..] && b == [b[0]] + b[1..];
    }
  }

  // -------------------------------------------------------------- its text

  /** Every definition is the reading of some text. */
  ghost predicate DefinitionsRead(t: Table, reg: Registry) {
    forall n, c :: n in reg && c in reg[n].columns && c.definition.Some? ==> Grouped(t, c.definition.value)
  }

  lemma {:induction false} BecomesGrouped(
    t: Table, reg: Registry, shared: bool, root: string, sql: Sql, f: Frame, isRoot: bool, out: Sql)
    requires WellBehaved(reg) && Believes(reg, root, f, isRoot) && DefinitionsRead(t, reg) && Grouped(t, sql)
    requires Becomes(reg, shared, root, sql, f, isRoot, out)
    ensures Grouped(t, out) && (if sql.App? then Tier(t, out) == Tier(t, sql) else Tier(t, out) == t.top + 1)
    decreases out, 1
  {
    match sql
    case Text(_) =>
    case App(_, args) => AllBecomeGrouped(t, reg, shared, root, args, f, isRoot, out.args);
    case Paren(e) => BecomesGrouped(t, reg, shared, root, e, f, isRoot, out.inner);
    case Col(r) =>
      if r.db.None? && Reached(reg, shared, root, f, isRoot, r.table).Some? {
        var (g, keeps) := Reached(reg, shared, root, f, isRoot, r.table).value;
        TargetsAgree(reg, shared, root, f, isRoot, r.table);
        var column := FindColumn(g.model.columns, r.name);
        if IsInlinedAt(g, r) {
          assert g.model.name in reg && column.value in reg[g.model.name].columns;
          BecomesGrouped(t, reg, shared, root, column.value.definition.value, g, keeps, out.inner);
        }
      }
  }

  lemma {:induction false} AllBecomeGrouped(
    t: Table, reg: Registry, shared: bool, root: string, args: seq<Sql>, f: Frame, isRoot: bool, outs: seq<Sql>)
    requires WellBehaved(reg) && Believes(reg, root, f, isRoot) && DefinitionsRead(t, reg)
    requires forall i :: 0 <= i < |args| ==> Grouped(t, args[i])
    requires AllBecome(reg, shared, root, args, f, isRoot, outs)
    ensures |outs| == |args| && forall i :: 0 <= i < |outs| ==>
      Grouped(t, outs[i]) &&
      (if args[i].App? then Tier(t, outs[i]) == Tier(t, args[i]) else Tier(t, outs[i]) == t.top + 1)
    decreases outs, 0
  {
    if args != [] {
      BecomesGrouped(t, reg, shared, root, args[0], f, isRoot, outs[0]);
      AllBecomeGrouped(t, reg, shared, root, args[1..], f, isRoot, outs[1..]);
      forall i | 0 < i < |outs|
        ensures Grouped(t, outs[i])
        ensures if args[i].App? then Tier(t, outs[i]) == Tier(t, args[i]) else Tier(t, outs[i]) == t.top + 1
      {
        assert outs[i] == outs[1..][i - 1] && args[i] == args[1..][i - 1];
      }
    }
  }

  /** Whatever the precedences of its operators, SQL that was read from text, with definitions that were,
      is expanded to a tree whose text is read as just that tree: no operand is regrouped. */
  lemma ExpandedTextReadsBack(t: Table, reg: Registry, shared: bool, root: string, sql: Sql, out: Sql)
    requires WellBehaved(reg) && root in reg && WellTiered(t) && DefinitionsRead(t, reg) && Grouped(t, sql)
    requires Expand(reg, shared, sql, reg[root], root, [], true) == Ok(out)
    ensures Becomes(reg, shared, root, sql, Frame([], reg[root]), true, out)
    ensures Read(t, Write(t, out)) == Some(out)
  {
    ExpandBecomes(reg, shared, root, sql, Frame([], reg[root]), true, [], out);
    BecomesGrouped(t, reg, shared, root, sql, Frame([], reg[root]), true, out);
    GroupedReadsBack(t, out);
  }
}
