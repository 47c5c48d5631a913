/** The inliner as it runs: the parsed expression's column nodes are collected first and then
    rewritten in place, one after the other. */
module ColumnExpander {
  import opened Models
  import opened Aliases
  import opened Cycles
  import opened ColumnDependencies
  import opened ColumnInlining

  method WalkPathToTarget(
    reg: Registry, shared: bool, source: Model, sourceAlias: string, tableAlias: string, isRoot: bool)
    returns (target: Option<Target>)
    ensures target == WalkTarget(reg, shared, source, sourceAlias, tableAlias, isRoot)
  {
    if tableAlias == sourceAlias || tableAlias == source.name {
      return Some(Target(source, sourceAlias, true));
    }
    var parts := Split(tableAlias);
    var current := source;
    var i := 0;
    while i < |parts|
      invariant 0 <= i <= |parts|
      invariant Walk(reg, source, parts) == Walk(reg, current, parts[i..])
    {
      assert parts[i..][1..] == parts[i + 1..];
      if FindJoin(current.joins, parts[i]).None? || parts[i] !in reg {
        return None;
      }
      current := reg[parts[i]];
      i := i + 1;
    }
    var walked := Join(parts);
    target := Some(Target(
      current, if isRoot then walked else sourceAlias + "__" + walked, shared && current.name == source.name));
  }

  /** Rewrites the column node in slot `i`: left alone, requalified, or replaced by the
      expanded definition; the other slots stay. */
  method ProcessColumnNode(
    slots: array<Sql>, i: nat, reg: Registry, shared: bool, model: Model, alias: string, visited: seq<Key>,
    isRoot: bool)
    returns (raised: Option<seq<Key>>)
    requires Hosted(reg, model) && i < slots.Length && slots[i].Col?
    modifies slots
    ensures forall j :: 0 <= j < slots.Length && j != i ==> slots[j] == old(slots[j])
    ensures ExpandRef(reg, shared, old(slots[i]).ref, model, alias, visited, isRoot) ==
      if raised.Some? then Err(raised.value) else Ok(slots[i])
    decreases Pending(reg, visited), 0
  {
    var ref := slots[i].ref;
    if ref.db.Some? {
      return None;
    }
    var tableAlias := if ref.table.None? then alias else ref.table.value;
    var found := WalkPathToTarget(reg, shared, model, alias, tableAlias, isRoot);
    if found.None? {
      return None;
    }
    var Target(target, canonical, isSame) := found.value;
    var definition := DefinitionIn(target, ref.name);
    if definition.None? {
      slots[i] := Col(ref.(table := Some(canonical)));
      return None;
    }
    if !ref.inRootScope {
      return None;
    }
    var key := Key(target.name, ref.name);
    if key in visited {
      return Some(visited[FirstIndex(visited, key)..] + [key]);
    }
    TargetHosted(reg, shared, model, alias, tableAlias, isRoot);
    PendingShrinks(reg, visited, key);
    var expanded := ExpandDerivedRefs(definition, reg, shared, target, canonical, visited + [key], isRoot && isSame);
    if expanded.Err? {
      return Some(expanded.error);
    }
    slots[i] := Paren(expanded.value.value);
    raised := None;
  }

  /** What the remaining references add to the slots rewritten so far. */
  ghost function Continued(done: seq<Sql>, rest: Result<seq<Sql>, seq<Key>>): Result<seq<Sql>, seq<Key>> {
    if rest.Err? then rest else Ok(done + rest.value)
  }

  lemma ContinueOn(done: seq<Sql>, next: Sql, rest: Result<seq<Sql>, seq<Key>>)
    ensures Continued(done, Continued([next], rest)) == Continued(done + [next], rest)
  {
    if rest.Ok? { assert done + ([next] + rest.value) == done + [next] + rest.value; }
  }

  function ExpandOptional(
    reg: Registry, shared: bool, sql: Option<Sql>, model: Model, alias: string, visited: seq<Key>, isRoot: bool)
    : Result<Option<Sql>, seq<Key>>
    requires Hosted(reg, model)
  {
    if sql.None? then Ok(None) else
      match Expand(reg, shared, sql.value, model, alias, visited, isRoot)
      case Err(cycle) => Err(cycle)
      case Ok(expanded) => Ok(Some(expanded))
  }

  method ExpandDerivedRefs(
    sql: Option<Sql>, reg: Registry, shared: bool, model: Model, alias: string, visited: seq<Key>, isRoot: bool)
    returns (r: Result<Option<Sql>, seq<Key>>)
    requires Hosted(reg, model)
    ensures r == ExpandOptional(reg, shared, sql, model, alias, visited, isRoot)
    decreases Pending(reg, visited), 1
  {
    if sql.None? {
      return Ok(None);
    }
    var refs := Refs(sql.value);
    var slots := new Sql[|refs|](i requires 0 <= i < |refs| => Col(refs[i]));
    var i := 0;
    assert refs[0..] == refs;
    ghost var all := ExpandRefs(reg, shared, refs, model, alias, visited, isRoot);
    if all.Ok? { assert slots[..0] + all.value == all.value; }
    while i < |refs|
      invariant 0 <= i <= |refs| == slots.Length
      invariant forall j :: i <= j < |refs| ==> slots[j] == Col(refs[j])
      invariant ExpandRefs(reg, shared, refs, model, alias, visited, isRoot) ==
        Continued(slots[..i], ExpandRefs(reg, shared, refs[i..], model, alias, visited, isRoot))
    {
      ghost var done := slots[..i];
      var raised := ProcessColumnNode(slots, i, reg, shared, model, alias, visited, isRoot);
      assert slots[..i] == done;
      assert refs[i..][0] == refs[i] && refs[i..][1..] == refs[i + 1..];
      if raised.Some? {
        return Err(raised.value);
      }
      assert slots[..i + 1] == done + [slots[i]];
      ContinueOn(done, slots[i], ExpandRefs(reg, shared, refs[i + 1..], model, alias, visited, isRoot));
      i := i + 1;
    }
    assert refs[|refs|..] == [];
    assert slots[..|refs|] + [] == slots[..];
    r := Ok(Some(Fill(sql.value, slots[..])));
  }
}
