/** Inlining of derived columns: every reference to one is replaced, in parentheses, by the
    column's own SQL, qualified for the join path it was reached along. */
module ColumnInlining {
  import opened Models
  import opened Aliases
  import opened Cycles
  import opened ColumnDependencies

  ghost predicate Hosted(reg: Registry, model: Model) {
    Registered(reg) && model.name in reg && reg[model.name] == model
  }

  function DefinitionIn(model: Model, name: string): Option<Sql> {
    match FindColumn(model.columns, name)
    case None => None
    case Some(c) => c.definition
  }

  // ---------------------------------------------------- the expansion rules

  /** A model, the alias to emit for it, and whether it is the very object the walk started from. */
  datatype Target = Target(model: Model, alias: string, isSame: bool)

  /** Where a table alias seen inside `source` leads. `shared` tells how models are resolved: to one
      object for each name, which the host is one of, or to a fresh object each time. */
  function WalkTarget(
    reg: Registry, shared: bool, source: Model, sourceAlias: string, tableAlias: string, isRoot: bool): Option<Target>
  {
    if tableAlias == sourceAlias || tableAlias == source.name then Some(Target(source, sourceAlias, true)) else
      match Walk(reg, source, Split(tableAlias))
      case None => None
      case Some(target) =>
        var walked := Join(Split(tableAlias));
        Some(Target(
          target, if isRoot then walked else sourceAlias + "__" + walked, shared && target.name == source.name))
  }

  /** `keys` are the derived columns not on the recursion's chain yet. */
  ghost predicate ArePending(reg: Registry, visited: seq<Key>, keys: set<Key>) {
    forall k :: k in keys <==> Definition(reg, k).Some? && k !in visited
  }

  lemma PendingExists(reg: Registry, visited: seq<Key>)
    ensures exists keys :: ArePending(reg, visited, keys)
  {
    assert ArePending(reg, visited, DerivedKeys(reg) - set k | k in visited);
  }

  ghost function Pending(reg: Registry, visited: seq<Key>): (keys: set<Key>)
    ensures ArePending(reg, visited, keys)
  {
    PendingExists(reg, visited);
    var keys :| ArePending(reg, visited, keys);
    keys
  }

  lemma PendingShrinks(reg: Registry, visited: seq<Key>, k: Key)
    requires Definition(reg, k).Some? && k !in visited
    ensures Pending(reg, visited + [k]) < Pending(reg, visited)
    ensures |Pending(reg, visited + [k])| < |Pending(reg, visited)|
  {
    assert forall x :: x in visited + [k] <==> x in visited || x == k;
    assert Pending(reg, visited + [k]) == Pending(reg, visited) - {k};
    assert k in Pending(reg, visited);
  }

  lemma TargetHosted(
    reg: Registry, shared: bool, source: Model, sourceAlias: string, tableAlias: string, isRoot: bool)
    requires Hosted(reg, source) && WalkTarget(reg, shared, source, sourceAlias, tableAlias, isRoot).Some?
    ensures Hosted(reg, WalkTarget(reg, shared, source, sourceAlias, tableAlias, isRoot).value.model)
  {
    if tableAlias != sourceAlias && tableAlias != source.name {
      WalkEndsAtLastHop(reg, source, Split(tableAlias));
    }
  }

  function Expand(
    reg: Registry, shared: bool, sql: Sql, model: Model, alias: string, visited: seq<Key>, isRoot: bool)
    : Result<Sql, seq<Key>>
    requires Hosted(reg, model)
    decreases Pending(reg, visited), 2, 0
  {
    match ExpandRefs(reg, shared, Refs(sql), model, alias, visited, isRoot)
    case Err(cycle) => Err(cycle)
    case Ok(subs) => Ok(Fill(sql, subs))
  }

  function ExpandRefs(
    reg: Registry, shared: bool, refs: seq<Ref>, model: Model, alias: string, visited: seq<Key>, isRoot: bool)
    : (r: Result<seq<Sql>, seq<Key>>)
    requires Hosted(reg, model)
    ensures r.Ok? ==> |r.value| == |refs|
    decreases Pending(reg, visited), 1, |refs|
  {
    if refs == [] then Ok([]) else
      match ExpandRef(reg, shared, refs[0], model, alias, visited, isRoot)
      case Err(cycle) => Err(cycle)
      case Ok(sub) =>
        match ExpandRefs(reg, shared, refs[1..], model, alias, visited, isRoot)
        case Err(cycle) => Err(cycle)
        case Ok(subs) => Ok([sub] + subs)
  }

  function ExpandRef(
    reg: Registry, shared: bool, ref: Ref, model: Model, alias: string, visited: seq<Key>, isRoot: bool)
    : Result<Sql, seq<Key>>
    requires Hosted(reg, model)
    decreases Pending(reg, visited), 0, 0
  {
    if ref.db.Some? then Ok(Col(ref)) else
      var tableAlias := if ref.table.None? then alias else ref.table.value;
      match WalkTarget(reg, shared, model, alias, tableAlias, isRoot)
      case None => Ok(Col(ref))
      case Some(Target(target, canonical, isSame)) =>
        match DefinitionIn(target, ref.name)
        case None => Ok(Col(ref.(table := Some(canonical))))
        case Some(definition) =>
          var key := Key(target.name, ref.name);
          if !ref.inRootScope then Ok(Col(ref))
          else if key in visited then Err(visited[FirstIndex(visited, key)..] + [key])
          else
            TargetHosted(reg, shared, model, alias, tableAlias, isRoot);
            PendingShrinks(reg, visited, key);
            match Expand(reg, shared, definition, target, canonical, visited + [key], isRoot && isSame)
            case Err(cycle) => Err(cycle)
            case Ok(expanded) => Ok(Paren(expanded))
  }

  /** The expression with its references, in order, replaced by `subs`. */
  function Fill(sql: Sql, subs: seq<Sql>): Sql
    requires |subs| == |Refs(sql)|
  {
    match sql
    case Text(_) => sql
    case Col(_) => subs[0]
    case App(op, args) => App(op, FillAll(args, subs))
    case Paren(e) => Paren(Fill(e, subs))
  }

  function FillAll(args: seq<Sql>, subs: seq<Sql>): (filled: seq<Sql>)
    requires |subs| == |RefsOfAll(args)|
    ensures |filled| == |args|
  {
    if args == [] then [] else
      var n := |Refs(args[0])|;
      [Fill(args[0], subs[..n])] + FillAll(args[1..], subs[n..])
  }

  // ------------------------------------------------------- what SQL denotes

  /** The expression without its parentheses, which group but mean nothing themselves. */
  function Plain(sql: Sql): Sql {
    match sql
    case Text(_) => sql
    case Col(_) => sql
    case App(op, args) => App(op, PlainAll(args))
    case Paren(e) => Plain(e)
  }

  function PlainAll(args: seq<Sql>): (plain: seq<Sql>)
    ensures |plain| == |args|
  {
    if args == [] then [] else [Plain(args[0])] + PlainAll(args[1..])
  }

  /** A way to read SQL: literals, operators, and the cell a (db, table, column) names. */
  datatype Interp<!V> = Interp(
    text: string -> V, app: (string, seq<V>) -> V, cell: (Option<string>, Option<string>, string) -> V)

  function Eval<V>(i: Interp<V>, sql: Sql): V {
    match sql
    case Text(t) => i.text(t)
    case Col(r) => i.cell(r.db, r.table, r.name)
    case App(op, args) => i.app(op, EvalAll(i, args))
    case Paren(e) => Eval(i, e)
  }

  function EvalAll<V>(i: Interp<V>, args: seq<Sql>): seq<V> {
    if args == [] then [] else [Eval(i, args[0])] + EvalAll(i, args[1..])
  }

  /** Under every reading an expression is worth what its parenthesis-free form is worth. */
  lemma {:induction false} EvalPlain<V>(i: Interp<V>, sql: Sql)
    ensures Eval(i, sql) == Eval(i, Plain(sql))
    decreases sql, 1
  {
    match sql
    case Text(_) =>
    case Col(_) =>
    case App(_, args) => EvalPlainAll(i, args);
    case Paren(e) => EvalPlain(i, e);
  }

  lemma {:induction false} EvalPlainAll<V>(i: Interp<V>, args: seq<Sql>)
    ensures EvalAll(i, args) == EvalAll(i, PlainAll(args))
    decreases args, 0
  {
    if args != [] {
      EvalPlain(i, args[0]);
      EvalPlainAll(i, args[1..]);
      assert PlainAll(args)[1..] == PlainAll(args[1..]);
    }
  }

  lemma {:induction false} PlainFill(sql: Sql, subs: seq<Sql>)
    requires |subs| == |Refs(sql)|
    ensures Plain(Fill(sql, subs)) == Plain(Fill(sql, PlainAll(subs)))
    decreases sql, 1
  {
    match sql
    case Text(_) =>
    case Col(_) => PlainTwice(subs[0]);
    case App(_, args) => PlainFillAll(args, subs);
    case Paren(e) => PlainFill(e, subs);
  }

  lemma {:induction false} PlainFillAll(args: seq<Sql>, subs: seq<Sql>)
    requires |subs| == |RefsOfAll(args)|
    ensures PlainAll(FillAll(args, subs)) == PlainAll(FillAll(args, PlainAll(subs)))
    decreases args, 0
  {
    if args != [] {
      var n := |Refs(args[0])|;
      PlainFill(args[0], subs[..n]);
      PlainFillAll(args[1..], subs[n..]);
      PlainAllSplits(subs, n);
      assert FillAll(args, subs)[1..] == FillAll(args[1..], subs[n..]);
      assert FillAll(args, PlainAll(subs))[1..] == FillAll(args[1..], PlainAll(subs)[n..]);
    }
  }

  lemma {:induction false} PlainAllSplits(subs: seq<Sql>, n: nat)
    requires n <= |subs|
    ensures PlainAll(subs)[..n] == PlainAll(subs[..n])
    ensures PlainAll(subs)[n..] == PlainAll(subs[n..])
    decreases n
  {
    if n > 0 {
      PlainAllSplits(subs[1..], n - 1);
      assert subs[..n][1..] == subs[1..][..n - 1];
      assert subs[1..][n - 1..] == subs[n..];
    }
  }

  lemma {:induction false} PlainTwice(sql: Sql)
    ensures Plain(Plain(sql)) == Plain(sql)
    decreases sql, 1
  {
    match sql
    case Text(_) =>
    case Col(_) =>
    case App(_, args) => PlainAllTwice(args);
    case Paren(e) => PlainTwice(e);
  }

  lemma {:induction false} PlainAllTwice(args: seq<Sql>)
    ensures PlainAll(PlainAll(args)) == PlainAll(args)
    decreases args, 0
  {
    if args != [] {
      PlainTwice(args[0]);
      PlainAllTwice(args[1..]);
      assert PlainAll(args)[1..] == PlainAll(args[1..]);
    }
  }

  // ------------------------------------------- what the original SQL means

  /** A model together with the join path it was reached along; the FROM root has path []. */
  datatype Frame = Frame(path: seq<string>, model: Model)

  /** The alias under which the query exposes the table at `path`. */
  function AliasOf(root: string, path: seq<string>): string {
    if path == [] then root else Join(path)
  }

  function TargetFrame(reg: Registry, f: Frame, table: Option<string>): Option<Frame> {
    if table.None? || table.value == f.model.name then Some(f) else
      match Walk(reg, f.model, Split(table.value))
      case None => None
      case Some(target) => Some(Frame(f.path + Split(table.value), target))
  }

  /** What `sql` says in frame `f`, parentheses apart, when a derived column stands for its own
      definition read in its own frame, with at most `n` definitions nested; None if that is
      not enough. A base column is the cell of its table's path; what does not resolve stays. */
  ghost function Unfold(reg: Registry, root: string, sql: Sql, f: Frame, n: nat): Option<Sql>
    decreases n, 2, 0
  {
    match UnfoldRefs(reg, root, Refs(sql), f, n)
    case None => None
    case Some(vals) => Some(Plain(Fill(sql, vals)))
  }

  ghost function UnfoldRefs(reg: Registry, root: string, refs: seq<Ref>, f: Frame, n: nat)
    : (vals: Option<seq<Sql>>)
    ensures vals.Some? ==> |vals.value| == |refs|
    decreases n, 1, |refs|
  {
    if refs == [] then Some([]) else
      match UnfoldRef(reg, root, refs[0], f, n)
      case None => None
      case Some(v) =>
        match UnfoldRefs(reg, root, refs[1..], f, n)
        case None => None
        case Some(vs) => Some([v] + vs)
  }

  ghost function UnfoldRef(reg: Registry, root: string, ref: Ref, f: Frame, n: nat): Option<Sql>
    decreases n, 0, 0
  {
    var asWritten := Some(Col(ref));
    if ref.db.Some? then asWritten else
      match TargetFrame(reg, f, ref.table)
      case None => asWritten
      case Some(target) =>
        match DefinitionIn(target.model, ref.name)
        case None => Some(Col(ref.(table := Some(AliasOf(root, target.path)))))
        case Some(definition) =>
          if !ref.inRootScope then asWritten
          else if n == 0 then None
          else Unfold(reg, root, definition, target, n - 1)
  }

  // ------------------------------------------------------------- where it is

  /** Joining names into aliases is unambiguous. */
  ghost predicate WellBehaved(reg: Registry) {
    Registered(reg) && forall n :: n in reg ==> Clean(n)
  }

  /** The frame's path really leads from the root to its model. */
  ghost predicate GoodFrame(reg: Registry, root: string, f: Frame) {
    && root in reg && Walk(reg, reg[root], f.path) == Some(f.model) && Hosted(reg, f.model)
    && AllClean(f.path)
  }

  /** The inliner holds `f` for the frame it is in; the root flag is kept on the root model only. */
  ghost predicate Believes(reg: Registry, root: string, f: Frame, isRoot: bool) {
    GoodFrame(reg, root, f) && (f.path == [] ==> isRoot) && (isRoot ==> f.model == reg[root])
  }

  /** The frame that the inliner takes a reference to be in, and the flag it passes on. */
  function Reached(reg: Registry, shared: bool, root: string, f: Frame, isRoot: bool, table: Option<string>)
    : Option<(Frame, bool)>
  {
    if table.None? || table.value == AliasOf(root, f.path) || table.value == f.model.name then Some((f, isRoot)) else
      match Walk(reg, f.model, Split(table.value))
      case None => None
      case Some(target) =>
        Some((Frame((if isRoot then [] else f.path) + Split(table.value), target),
              isRoot && shared && target.name == f.model.name))
  }

  lemma {:induction false} WalkedAreRegistered(reg: Registry, host: Model, hops: seq<string>)
    requires Walk(reg, host, hops).Some?
    ensures forall h :: h in hops ==> h in reg
    decreases |hops|
  {
    if hops != [] { WalkedAreRegistered(reg, reg[hops[0]], hops[1..]); }
  }

  /** Walking on from a frame appends the hops to its path and their alias to its alias. */
  lemma WalkExtendsPath(reg: Registry, root: string, f: Frame, table: string)
    requires WellBehaved(reg) && GoodFrame(reg, root, f) && Walk(reg, f.model, Split(table)).Some?
    ensures GoodFrame(reg, root, Frame(f.path + Split(table), Walk(reg, f.model, Split(table)).value))
    ensures AliasOf(root, f.path + Split(table)) ==
      if f.path == [] then Join(Split(table)) else AliasOf(root, f.path) + "__" + Join(Split(table))
  {
    var hops := Split(table);
    WalkEndsAtLastHop(reg, f.model, hops);
    WalkedAreRegistered(reg, f.model, hops);
    WalkAppend(reg, reg[root], f.path, hops);
    if f.path != [] { JoinAppend(f.path, hops); } else { assert f.path + hops == hops; }
  }

  /** The alias bookkeeping in terms of frames: what is emitted is always the alias of the frame the
      inliner takes the reference to be in, and that is one the root really leads to. */
  lemma TargetsAgree(reg: Registry, shared: bool, root: string, f: Frame, isRoot: bool, table: Option<string>)
    requires WellBehaved(reg) && Believes(reg, root, f, isRoot)
    ensures
      var alias := AliasOf(root, f.path);
      var found := WalkTarget(reg, shared, f.model, alias, if table.None? then alias else table.value, isRoot);
      match Reached(reg, shared, root, f, isRoot, table)
      case None => found.None?
      case Some((g, keeps)) =>
        && Believes(reg, root, g, keeps) && found.Some?
        && found.value.model == g.model && found.value.alias == AliasOf(root, g.path)
        && keeps == (isRoot && found.value.isSame)
  {
    if table.Some? && table.value != AliasOf(root, f.path) && table.value != f.model.name
      && Walk(reg, f.model, Split(table.value)).Some?
    {
      var start := if isRoot then Frame([], reg[root]) else f;
      WalkExtendsPath(reg, root, start, table.value);
      assert start.path + Split(table.value) != [];
      WalkEndsAtLastHop(reg, f.model, Split(table.value));
    }
  }

  // --------------------------------------------------------- spelled aliases

  /** A qualifier that is not the host's name but the alias the inliner has for it. */
  predicate SpellsAlias(root: string, f: Frame, ref: Ref) {
    ref.table == Some(AliasOf(root, f.path)) && ref.table.value != f.model.name
  }

  /** The reference is to a derived column, where it leads, and will be replaced by its definition. */
  predicate IsInlinedAt(g: Frame, ref: Ref) {
    ref.inRootScope && DefinitionIn(g.model, ref.name).Some?
  }

  /** With at most `n` definitions nested, a reference is met that spells its host's alias; with
      `dead`, only one that leads nowhere as a path of joins counts. */
  ghost predicate MeetsAlias(
    reg: Registry, shared: bool, root: string, f: Frame, isRoot: bool, ref: Ref, n: nat, dead: bool)
    decreases n
  {
    ref.db.None? &&
    ((SpellsAlias(root, f, ref) && (dead ==> Walk(reg, f.model, Split(ref.table.value)).None?)) ||
     match Reached(reg, shared, root, f, isRoot, ref.table)
     case None => false
     case Some((g, keeps)) =>
       IsInlinedAt(g, ref) && n > 0 &&
       exists s :: s in Refs(DefinitionIn(g.model, ref.name).value)
         && MeetsAlias(reg, shared, root, g, keeps, s, n - 1, dead))
  }

  ghost predicate Unspelled(
    reg: Registry, shared: bool, root: string, f: Frame, isRoot: bool, refs: seq<Ref>, n: nat, dead: bool)
  {
    forall r :: r in refs ==> !MeetsAlias(reg, shared, root, f, isRoot, r, n, dead)
  }

  // ------------------------------------------------------- misplaced columns

  /** Where the inliner is, compared with where the SQL means it to be: on a joined model it reached
      without coming home; at the root; back on the root model with the root flag still set; or in a
      frame other than the one it takes itself to be in. */
  datatype Mode = Aligned | AtRoot | AtHome | Lost

  /** The mode after following a path of joins, which comes home if it ends at its own host. */
  function Walked(shared: bool, mode: Mode, comesHome: bool): Mode {
    match mode
    case Aligned => Aligned
    case AtRoot => if shared && comesHome then AtHome else Aligned
    case AtHome => Lost
    case Lost => Lost
  }

  function ModeAt(shared: bool, mode: Mode, host: Model, table: Option<string>, target: Model): Mode {
    if table.None? || table.value == host.name then mode else Walked(shared, mode, target.name == host.name)
  }

  /** With at most `n` definitions nested, the reference leads to a base column in a wrong frame: a
      coming-home derived reference was met under the root flag, and its definition walks on. */
  ghost predicate Misplaced(reg: Registry, shared: bool, mode: Mode, host: Model, ref: Ref, n: nat)
    decreases n
  {
    ref.db.None? &&
    match ResolveTarget(reg, host, ref.table)
    case None => false
    case Some(target) =>
      var there := ModeAt(shared, mode, host, ref.table, target);
      match DefinitionIn(target, ref.name)
      case None => there == Lost
      case Some(definition) =>
        ref.inRootScope && n > 0 &&
        exists s :: s in Refs(definition) && Misplaced(reg, shared, there, target, s, n - 1)
  }

  ghost predicate AnyMisplaced(reg: Registry, shared: bool, mode: Mode, host: Model, refs: seq<Ref>, n: nat) {
    exists r :: r in refs && Misplaced(reg, shared, mode, host, r, n)
  }

  /** If every lookup gives a fresh object, nothing is misplaced. */
  lemma {:induction false} FreshIsNeverMisplaced(reg: Registry, mode: Mode, host: Model, ref: Ref, n: nat)
    requires mode == Aligned || mode == AtRoot
    ensures !Misplaced(reg, false, mode, host, ref, n)
    decreases n
  {
    var target := ResolveTarget(reg, host, ref.table);
    if target.Some? && n > 0 {
      var there := ModeAt(false, mode, host, ref.table, target.value);
      var definition := DefinitionIn(target.value, ref.name);
      if definition.Some? {
        forall s | s in Refs(definition.value) ensures !Misplaced(reg, false, there, target.value, s, n - 1) {
          FreshIsNeverMisplaced(reg, there, target.value, s, n - 1);
        }
      }
    }
  }

  /** The SQL means frame `p`, and the inliner is in frame `f`. */
  ghost predicate InMode(reg: Registry, root: string, mode: Mode, p: Frame, f: Frame, isRoot: bool) {
    && GoodFrame(reg, root, p) && Believes(reg, root, f, isRoot) && p.model == f.model
    && match mode
       case Aligned => p == f && !isRoot
       case AtRoot => p == f && isRoot && f.path == []
       case AtHome => p == f && isRoot && f.path != []
       case Lost => p.path != f.path && p.path != [] && f.path != []
  }

  /** Both frames after following a reference that does not spell the host's alias. */
  lemma ModesAgree(
    reg: Registry, shared: bool, root: string, mode: Mode, p: Frame, f: Frame, isRoot: bool, ref: Ref)
    requires WellBehaved(reg) && InMode(reg, root, mode, p, f, isRoot) && !SpellsAlias(root, f, ref)
    ensures
      match Reached(reg, shared, root, f, isRoot, ref.table)
      case None => TargetFrame(reg, p, ref.table).None? && ResolveTarget(reg, f.model, ref.table).None?
      case Some((g, keeps)) =>
        var q := TargetFrame(reg, p, ref.table);
        && q.Some? && ResolveTarget(reg, f.model, ref.table) == Some(g.model)
        && InMode(reg, root, ModeAt(shared, mode, f.model, ref.table, g.model), q.value, g, keeps)
  {
    TargetsAgree(reg, shared, root, f, isRoot, ref.table);
    if ref.table.Some? && ref.table.value != f.model.name && Walk(reg, f.model, Split(ref.table.value)).Some? {
      var hops := Split(ref.table.value);
      WalkExtendsPath(reg, root, p, ref.table.value);
      WalkEndsAtLastHop(reg, f.model, hops);
      PathsStayApart(p.path, f.path, hops);
      assert [] + hops == hops;
    }
  }

  lemma PathsStayApart(p: seq<string>, q: seq<string>, hops: seq<string>)
    ensures p != q ==> p + hops != q + hops
    ensures p != [] ==> p + hops != hops
    ensures hops != [] ==> p + hops != [] && q + hops != []
  {
    if p != q && |p| == |q| {
      var i :| 0 <= i < |p| && p[i] != q[i];
      assert (p + hops)[i] == p[i] && (q + hops)[i] == q[i];
    }
    assert |p + hops| == |p| + |hops| && |q + hops| == |q| + |hops|;
  }

  // --------------------------------------------- equal fillings of one expression

  /** Two fillings of an expression say the same exactly if their pieces do. */
  lemma {:induction false} SameFilling(sql: Sql, s: seq<Sql>, t: seq<Sql>)
    requires |s| == |t| == |Refs(sql)|
    ensures Plain(Fill(sql, s)) == Plain(Fill(sql, t)) <==> PlainAll(s) == PlainAll(t)
    decreases sql, 1
  {
    match sql
    case Text(_) =>
    case Col(_) => assert s == [s[0]] && t == [t[0]] && PlainAll(s) == [Plain(s[0])] && PlainAll(t) == [Plain(t[0])];
    case App(_, args) => SameFillings(args, s, t);
    case Paren(e) => SameFilling(e, s, t);
  }

  lemma {:induction false} SameFillings(args: seq<Sql>, s: seq<Sql>, t: seq<Sql>)
    requires |s| == |t| == |RefsOfAll(args)|
    ensures PlainAll(FillAll(args, s)) == PlainAll(FillAll(args, t)) <==> PlainAll(s) == PlainAll(t)
    decreases args, 0
  {
    if args != [] {
      var n := |Refs(args[0])|;
      SameFilling(args[0], s[..n], t[..n]);
      SameFillings(args[1..], s[n..], t[n..]);
      PlainAllSplits(s, n);
      PlainAllSplits(t, n);
      var a, b := PlainAll(s), PlainAll(t);
      assert a == a[..n] + a[n..] && b == b[..n] + b[n..];
      var u, v := FillAll(args, s), FillAll(args, t);
      assert u[1..] == FillAll(args[1..], s[n..]) && v[1..] == FillAll(args[1..], t[n..]);
      SamePieces(u, v);
    }
  }

  // --------------------------------------------------- meaning is preserved

  /** Expanded SQL has a meaning, and says just that exactly if nothing in it is misplaced. */
  lemma {:induction false} ExpandMeans(
    reg: Registry, shared: bool, root: string, sql: Sql, mode: Mode, p: Frame, f: Frame, isRoot: bool,
    visited: seq<Key>, n: nat, expanded: Sql)
    requires WellBehaved(reg) && InMode(reg, root, mode, p, f, isRoot) && |Pending(reg, visited)| <= n
    requires Unspelled(reg, shared, root, f, isRoot, Refs(sql), n, false)
    requires Expand(reg, shared, sql, f.model, AliasOf(root, f.path), visited, isRoot) == Ok(expanded)
    ensures Unfold(reg, root, sql, p, n).Some?
    ensures Unfold(reg, root, sql, p, n) == Some(Plain(expanded)) <==>
      !AnyMisplaced(reg, shared, mode, f.model, Refs(sql), n)
    decreases n, 3, 0
  {
    var subs := ExpandRefs(reg, shared, Refs(sql), f.model, AliasOf(root, f.path), visited, isRoot).value;
    ExpandRefsMean(reg, shared, root, Refs(sql), mode, p, f, isRoot, visited, n, subs);
    SameFilling(sql, subs, UnfoldRefs(reg, root, Refs(sql), p, n).value);
  }

  lemma {:induction false} ExpandRefsMean(
    reg: Registry, shared: bool, root: string, refs: seq<Ref>, mode: Mode, p: Frame, f: Frame, isRoot: bool,
    visited: seq<Key>, n: nat, subs: seq<Sql>)
    requires WellBehaved(reg) && InMode(reg, root, mode, p, f, isRoot) && |Pending(reg, visited)| <= n
    requires Unspelled(reg, shared, root, f, isRoot, refs, n, false)
    requires ExpandRefs(reg, shared, refs, f.model, AliasOf(root, f.path), visited, isRoot) == Ok(subs)
    ensures UnfoldRefs(reg, root, refs, p, n).Some?
    ensures PlainAll(UnfoldRefs(reg, root, refs, p, n).value) == PlainAll(subs) <==>
      !AnyMisplaced(reg, shared, mode, f.model, refs, n)
    decreases n, 2, |refs|
  {
    if refs != [] {
      assert subs == [subs[0]] + subs[1..];
      ExpandRefMeans(reg, shared, root, refs[0], mode, p, f, isRoot, visited, n, subs[0]);
      ExpandRefsMean(reg, shared, root, refs[1..], mode, p, f, isRoot, visited, n, subs[1..]);
      UnfoldRefsSplit(reg, root, refs, p, n);
      SamePieces(UnfoldRefs(reg, root, refs, p, n).value, subs);
      AnyMisplacedSplits(reg, shared, mode, f.model, refs, n);
    }
  }

  lemma UnfoldRefsSplit(reg: Registry, root: string, refs: seq<Ref>, p: Frame, n: nat)
    requires refs != [] && UnfoldRef(reg, root, refs[0], p, n).Some? && UnfoldRefs(reg, root, refs[1..], p, n).Some?
    ensures UnfoldRefs(reg, root, refs, p, n).Some?
    ensures UnfoldRefs(reg, root, refs, p, n).value[0] == UnfoldRef(reg, root, refs[0], p, n).value
    ensures UnfoldRefs(reg, root, refs, p, n).value[1..] == UnfoldRefs(reg, root, refs[1..], p, n).value
  {
  }

  lemma SamePieces(s: seq<Sql>, t: seq<Sql>)
    requires |s| == |t| > 0
    ensures PlainAll(s) == PlainAll(t) <==> Plain(s[0]) == Plain(t[0]) && PlainAll(s[1..]) == PlainAll(t[1..])
  {
    var a, b := PlainAll(s), PlainAll(t);
    assert a == [Plain(s[0])] + PlainAll(s[1..]) && b == [Plain(t[0])] + PlainAll(t[1..]);
    assert a[0] == Plain(s[0]) && b[0] == Plain(t[0]) && a[1..] == PlainAll(s[1..]) && b[1..] == PlainAll(t[1..]);
    assert a == b <==> a[0] == b[0] && a[1..] == b[1..];
  }

  lemma AnyMisplacedSplits(reg: Registry, shared: bool, mode: Mode, host: Model, refs: seq<Ref>, n: nat)
    requires refs != []
    ensures AnyMisplaced(reg, shared, mode, host, refs, n) <==>
      Misplaced(reg, shared, mode, host, refs[0], n) || AnyMisplaced(reg, shared, mode, host, refs[1..], n)
  {
    assert refs == [refs[0]] + refs[1..];
  }

  lemma {:induction false} ExpandRefMeans(
    reg: Registry, shared: bool, root: string, ref: Ref, mode: Mode, p: Frame, f: Frame, isRoot: bool,
    visited: seq<Key>, n: nat, sub: Sql)
    requires WellBehaved(reg) && InMode(reg, root, mode, p, f, isRoot) && |Pending(reg, visited)| <= n
    requires !MeetsAlias(reg, shared, root, f, isRoot, ref, n, false)
    requires ExpandRef(reg, shared, ref, f.model, AliasOf(root, f.path), visited, isRoot) == Ok(sub)
    ensures UnfoldRef(reg, root, ref, p, n).Some?
    ensures Plain(UnfoldRef(reg, root, ref, p, n).value) == Plain(sub) <==>
      !Misplaced(reg, shared, mode, f.model, ref, n)
    decreases n, 1, 0
  {
    if ref.db.None? {
      ModesAgree(reg, shared, root, mode, p, f, isRoot, ref);
      TargetsAgree(reg, shared, root, f, isRoot, ref.table);
      match Reached(reg, shared, root, f, isRoot, ref.table) {
        case None =>
        case Some((g, keeps)) =>
          if IsInlinedAt(g, ref) {
            InlinedMeans(reg, shared, root, ref, mode, p, f, isRoot, visited, n, sub, g, keeps);
          } else if DefinitionIn(g.model, ref.name).None? && ModeAt(shared, mode, f.model, ref.table, g.model).Lost? {
            AliasesDiffer(root, TargetFrame(reg, p, ref.table).value.path, g.path);
          }
      }
    }
  }

  lemma AliasesDiffer(root: string, p: seq<string>, q: seq<string>)
    requires AllClean(p) && AllClean(q) && p != [] && q != []
    ensures AliasOf(root, p) == AliasOf(root, q) <==> p == q
  {
    if AliasOf(root, p) == AliasOf(root, q) { JoinInjective(p, q); }
  }

  /** What inlining one reference does: report a cycle, or expand the definition where it is
      believed to live. */
  lemma InlinedStep(
    reg: Registry, shared: bool, root: string, f: Frame, isRoot: bool, ref: Ref, visited: seq<Key>, g: Frame,
    keeps: bool)
    returns (key: Key, inner: Result<Sql, seq<Key>>)
    requires WellBehaved(reg) && Believes(reg, root, f, isRoot) && ref.db.None? && IsInlinedAt(g, ref)
    requires Reached(reg, shared, root, f, isRoot, ref.table) == Some((g, keeps))
    ensures Believes(reg, root, g, keeps) && key == Key(g.model.name, ref.name)
    ensures Definition(reg, key) == DefinitionIn(g.model, ref.name)
    ensures inner == if key in visited then Err(visited[FirstIndex(visited, key)..] + [key])
      else Expand(reg, shared, Definition(reg, key).value, g.model, AliasOf(root, g.path), visited + [key], keeps)
    ensures ExpandRef(reg, shared, ref, f.model, AliasOf(root, f.path), visited, isRoot) ==
      if inner.Ok? then Ok(Paren(inner.value)) else inner
  {
    TargetsAgree(reg, shared, root, f, isRoot, ref.table);
    key := Key(g.model.name, ref.name);
    inner := if key in visited then Err(visited[FirstIndex(visited, key)..] + [key])
      else Expand(reg, shared, Definition(reg, key).value, g.model, AliasOf(root, g.path), visited + [key], keeps);
  }

  /** An inlined reference stands for its definition in the frame it was meant in, unless something
      in that is misplaced. */
  lemma {:induction false} InlinedMeans(
    reg: Registry, shared: bool, root: string, ref: Ref, mode: Mode, p: Frame, f: Frame, isRoot: bool,
    visited: seq<Key>, n: nat, sub: Sql, g: Frame, keeps: bool)
    requires WellBehaved(reg) && InMode(reg, root, mode, p, f, isRoot) && |Pending(reg, visited)| <= n
    requires ref.db.None? && !MeetsAlias(reg, shared, root, f, isRoot, ref, n, false)
    requires Reached(reg, shared, root, f, isRoot, ref.table) == Some((g, keeps)) && IsInlinedAt(g, ref)
    requires ExpandRef(reg, shared, ref, f.model, AliasOf(root, f.path), visited, isRoot) == Ok(sub)
    ensures UnfoldRef(reg, root, ref, p, n).Some?
    ensures Plain(UnfoldRef(reg, root, ref, p, n).value) == Plain(sub) <==>
      !Misplaced(reg, shared, mode, f.model, ref, n)
    decreases n, 0, 0
  {
    var key, inner := InlinedStep(reg, shared, root, f, isRoot, ref, visited, g, keeps);
    var q, definition := TargetFrame(reg, p, ref.table), Definition(reg, key).value;
    PendingShrinks(reg, visited, key);
    ModesAgree(reg, shared, root, mode, p, f, isRoot, ref);
    var there := ModeAt(shared, mode, f.model, ref.table, g.model);
    ExpandMeans(reg, shared, root, definition, there, q.value, g, keeps, visited + [key], n - 1, inner.value);
    PlainTwice(Unfold(reg, root, definition, q.value, n - 1).value);
    UnfoldIsPlain(reg, root, definition, q.value, n - 1);
    UnfoldStep(reg, root, ref, p, q.value, definition, n);
    MisplacedStep(reg, shared, mode, f.model, ref, g.model, definition, n);
  }

  lemma UnfoldStep(reg: Registry, root: string, ref: Ref, p: Frame, q: Frame, definition: Sql, n: nat)
    requires ref.db.None? && ref.inRootScope && TargetFrame(reg, p, ref.table) == Some(q)
    requires DefinitionIn(q.model, ref.name) == Some(definition) && n > 0
    ensures UnfoldRef(reg, root, ref, p, n) == Unfold(reg, root, definition, q, n - 1)
  {
  }

  lemma MisplacedStep(
    reg: Registry, shared: bool, mode: Mode, host: Model, ref: Ref, target: Model, definition: Sql, n: nat)
    requires ref.db.None? && ref.inRootScope && ResolveTarget(reg, host, ref.table) == Some(target)
    requires DefinitionIn(target, ref.name) == Some(definition) && n > 0
    ensures Misplaced(reg, shared, mode, host, ref, n) <==>
      AnyMisplaced(reg, shared, ModeAt(shared, mode, host, ref.table, target), target, Refs(definition), n - 1)
  {
  }

  lemma UnfoldIsPlain(reg: Registry, root: string, sql: Sql, p: Frame, n: nat)
    requires Unfold(reg, root, sql, p, n).Some?
    ensures Plain(Unfold(reg, root, sql, p, n).value) == Unfold(reg, root, sql, p, n).value
  {
    PlainTwice(Fill(sql, UnfoldRefs(reg, root, Refs(sql), p, n).value));
  }

  /** Expanding SQL of a root model: the result says what the original does exactly if no coming-home
      derived reference, met under the root flag, walks on; with fresh objects it always does. */
  lemma ExpansionMeans(reg: Registry, shared: bool, root: string, sql: Sql, n: nat, expanded: Sql)
    requires WellBehaved(reg) && root in reg && |Pending(reg, [])| <= n
    requires Unspelled(reg, shared, root, Frame([], reg[root]), true, Refs(sql), n, false)
    requires Expand(reg, shared, sql, reg[root], root, [], true) == Ok(expanded)
    ensures Unfold(reg, root, sql, Frame([], reg[root]), n) == Some(Plain(expanded)) <==>
      !AnyMisplaced(reg, shared, AtRoot, reg[root], Refs(sql), n)
    ensures !shared ==> Unfold(reg, root, sql, Frame([], reg[root]), n) == Some(Plain(expanded))
  {
    var f := Frame([], reg[root]);
    ExpandMeans(reg, shared, root, sql, AtRoot, f, f, true, [], n, expanded);
    if !shared {
      forall r | r in Refs(sql) ensures !Misplaced(reg, false, AtRoot, reg[root], r, n) {
        FreshIsNeverMisplaced(reg, AtRoot, reg[root], r, n);
      }
    }
  }
}
