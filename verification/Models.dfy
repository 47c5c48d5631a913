/** The semantic layer's entities, as far as names, joins and derived columns go. */
module Models {

  datatype Option<+T> = None | Some(value: T)

  datatype Result<+T, +E> = Ok(value: T) | Err(error: E)

  /** A column reference in parsed SQL. `db` holds a catalog or schema qualifier, which takes
      the reference out of reach; `inRootScope` is false under a subquery, CTE or set operation. */
  datatype Ref = Ref(db: Option<string>, table: Option<string>, name: string, inRootScope: bool)

  datatype Sql =
    | Text(text: string)
    | Col(ref: Ref)
    | App(op: string, args: seq<Sql>)
    | Paren(inner: Sql)

  /** `definition` is None for a base column: no SQL of its own, or just its own name. */
  datatype Column = Column(name: string, definition: Option<Sql>)

  datatype JoinType = Left | Inner

  datatype ModelJoin = ModelJoin(target: string, pairs: seq<(string, string)>, joinType: JoinType)

  datatype Model = Model(name: string, columns: seq<Column>, joins: seq<ModelJoin>)

  /** A fixed lookup of models by name. */
  type Registry = map<string, Model>

  ghost predicate Registered(reg: Registry) {
    forall n :: n in reg ==> reg[n].name == n
  }

  /** The first column called `name`. */
  function FindColumn(columns: seq<Column>, name: string): (found: Option<Column>)
    ensures found.Some? ==> found.value in columns && found.value.name == name
    ensures found.None? ==> forall c :: c in columns ==> c.name != name
  {
    if columns == [] then None
    else if columns[0].name == name then Some(columns[0])
    else FindColumn(columns[1..], name)
  }

  /** The first direct join to `target`. */
  function FindJoin(joins: seq<ModelJoin>, target: string): (found: Option<ModelJoin>)
    ensures found.Some? ==> found.value in joins && found.value.target == target
    ensures found.None? ==> forall j :: j in joins ==> j.target != target
  {
    if joins == [] then None
    else if joins[0].target == target then Some(joins[0])
    else FindJoin(joins[1..], target)
  }

  predicate IsFirstColumn(columns: seq<Column>, i: int, name: string) {
    0 <= i < |columns| && columns[i].name == name && forall k :: 0 <= k < i ==> columns[k].name != name
  }

  predicate IsFirstJoin(joins: seq<ModelJoin>, i: int, target: string) {
    0 <= i < |joins| && joins[i].target == target && forall k :: 0 <= k < i ==> joins[k].target != target
  }

  lemma {:induction false} FirstIsFound(columns: seq<Column>, i: nat, name: string)
    requires IsFirstColumn(columns, i, name)
    ensures FindColumn(columns, name) == Some(columns[i])
  {
    if i > 0 { FirstIsFound(columns[1..], i - 1, name); }
  }

  lemma {:induction false} FirstJoinIsFound(joins: seq<ModelJoin>, i: nat, target: string)
    requires IsFirstJoin(joins, i, target)
    ensures FindJoin(joins, target) == Some(joins[i])
  {
    if i > 0 { FirstJoinIsFound(joins[1..], i - 1, target); }
  }

  lemma {:induction false} FirstJoinOf(joins: seq<ModelJoin>, target: string) returns (i: nat)
    requires FindJoin(joins, target).Some?
    ensures IsFirstJoin(joins, i, target) && FindJoin(joins, target) == Some(joins[i])
  {
    if joins[0].target == target {
      i := 0;
    } else {
      var k := FirstJoinOf(joins[1..], target);
      i := k + 1;
    }
  }
}
