/** Database structure reporting (lib/dba.js:77-82 and 286-391): which
    schema and order a walk over the catalog asks for, and the small lookups
    over the rows the engine returns. The engine's execution of the queries
    (ordering included) is not modelled; its answers are inputs. */
module Catalog {
  import opened Common
  import opened SqlText

  /** A row of a schema's `sqlite_master`. `sql` is null for objects the
      engine creates implicitly. */
  datatype DbObject = DbObject(kind: string, name: string, sql: Option<string>)

  /** The `cfg` argument of `walk_objects`, `clear` and `_schema_from_cfg`:
      omitted (`undefined`), a bare string (which has neither a `schema` nor an
      `_ordering` property), or an object with optional `schema` and
      `_ordering`. A `null` cfg is not one of these. */
  datatype Cfg = Omitted | Bare(text: string) | Settings(schema: Option<string>, ordering: Option<string>)

  /** `_schema_from_cfg`: `cfg.schema`, defaulting to "main". */
  function SchemaOf(cfg: Cfg): (schema: string)
    ensures cfg.Settings? && cfg.schema.Some? ==> schema == cfg.schema.value
    ensures !(cfg.Settings? && cfg.schema.Some?) ==> schema == "main"
  {
    match cfg
    case Settings(Some(s), _) => s
    case _ => "main"
  }

  /** `cfg._ordering`. */
  function OrderingOf(cfg: Cfg): Option<string> {
    match cfg
    case Settings(_, o) => o
    case _ => None
  }

  datatype Direction = Ascending | Descending

  function DirectionWord(d: Direction): string {
    match d
    case Ascending => "asc"
    case Descending => "desc"
  }

  /** The query `walk_objects` sends. */
  function WalkSql(schemaX: string, d: Direction): string {
    "select\n    type      as type,\n    name      as name,\n    sql       as sql\n  from "
      + schemaX + ".sqlite_master\n  order by type " + DirectionWord(d) + ", name;"
  }

  datatype Walk = Walk(schema: string, direction: Direction, sql: string)

  /** `walk_objects(cfg)`: validates the schema and the ordering, then
      queries the schema's catalog by type (descending only for the "drop"
      ordering) and then by name. */
  function WalkObjects(v: Validators, cfg: Cfg): (r: Result<Walk>)
    ensures r.Ok? <==> v.schema(SchemaOf(cfg)) && v.ordering(OrderingOf(cfg))
    ensures !v.schema(SchemaOf(cfg)) ==> r == Err(InvalidSchema(SchemaOf(cfg)))
    ensures r.Ok? ==> r.value.schema == SchemaOf(cfg)
    ensures r.Ok? ==> (r.value.direction == Descending <==> OrderingOf(cfg) == Some("drop"))
  {
    var schema := SchemaOf(cfg);
    if !v.schema(schema) then Err(InvalidSchema(schema))
    else if !v.ordering(OrderingOf(cfg)) then Err(InvalidOrdering(OrderingOf(cfg)))
    else
      var d := if OrderingOf(cfg) == Some("drop") then Descending else Ascending;
      Ok(Walk(schema, d, WalkSql(AsIdentifier(schema), d)))
  }

  /** A bare schema name, as `copy_schema` passes it, names no schema and no
      ordering: the walk reads "main" in ascending order whatever the name. */
  lemma BareNameWalksMain(v: Validators, name: string)
    requires v.schema("main") && v.ordering(None)
    ensures WalkObjects(v, Bare(name)) == Ok(Walk("main", Ascending, WalkSql(AsIdentifier("main"), Ascending)))
  {
  }

  /** Strict lexicographic order by character code, the order of SQLite's
      default BINARY collation on text (UTF-8 byte order is code point order). */
  predicate LexLess(a: string, b: string)
    decreases |a|
  {
    b != [] && (a == [] || a[0] < b[0] || (a[0] == b[0] && LexLess(a[1..], b[1..])))
  }

  /** `x` may come before `y` in a walk: by type in the walk's direction,
      then by name ascending. */
  predicate Precedes(x: DbObject, y: DbObject, d: Direction) {
    match d
    case Ascending => LexLess(x.kind, y.kind) || (x.kind == y.kind && !LexLess(y.name, x.name))
    case Descending => LexLess(y.kind, x.kind) || (x.kind == y.kind && !LexLess(y.name, x.name))
  }

  /** The order the engine returns a walk's rows in. */
  predicate InWalkOrder(objects: seq<DbObject>, d: Direction) {
    forall i, j :: 0 <= i < j < |objects| ==> Precedes(objects[i], objects[j], d)
  }

  /** In the ascending walk, 'index' sorts before 'table': every index is
      visited before every table. */
  lemma AscendingPutsIndexesFirst(objects: seq<DbObject>, i: nat, j: nat)
    requires InWalkOrder(objects, Ascending)
    requires i < |objects| && j < |objects|
    requires objects[i].kind == "index" && objects[j].kind == "table"
    ensures i < j
  {
    assert LexLess("index", "table");
    assert !LexLess("table", "index");
  }

  /** In the descending ("drop") walk, views come before tables and tables
      before indexes. */
  lemma DescendingPutsIndexesLast(objects: seq<DbObject>, i: nat, j: nat)
    requires InWalkOrder(objects, Descending)
    requires i < |objects| && j < |objects|
    requires objects[i].kind in {"table", "view"} && objects[j].kind == "index"
    ensures i < j
  {
    assert !LexLess("table", "index") && !LexLess("view", "index");
  }

  /** The value of one named column in each row, in row order. */
  function Project(rows: seq<Row>, key: string): (r: seq<Value>)
    ensures |r| == |rows|
    ensures forall i :: 0 <= i < |rows| ==> r[i] == Field(rows[i], key)
    decreases |rows|
  {
    if rows == [] then [] else [Field(rows[0], key)] + Project(rows[1..], key)
  }

  /** `list_schema_names`: the `name` of every row of `list_schemas`. */
  function ListSchemaNames(schemaRows: seq<Row>): (names: seq<Value>)
    ensures |names| == |schemaRows|
    ensures forall i :: 0 <= i < |schemaRows| ==> names[i] == Field(schemaRows[i], "name")
  {
    Project(schemaRows, "name")
  }

  /** `type_of(name, schema)`: the type of the first catalog row with that
      name, or null. The `schema` argument is accepted and not used. */
  method TypeOf(name: string, schema: string, catalog: seq<DbObject>) returns (r: Option<string>)
    ensures r.None? <==> forall i :: 0 <= i < |catalog| ==> catalog[i].name != name
    ensures r.Some? ==> exists i :: (0 <= i < |catalog| && catalog[i].name == name && r.value == catalog[i].kind
      && forall j :: 0 <= j < i ==> catalog[j].name != name)
  {
    var i := 0;
    while i < |catalog|
      invariant i <= |catalog|
      invariant forall j :: 0 <= j < i ==> catalog[j].name != name
    {
      if catalog[i].name == name {
        return Some(catalog[i].kind);
      }
      i := i + 1;
    }
    return None;
  }

  /** The query `_dependencies_of(table, schema)` sends. */
  function ForeignKeyListSql(table: string, schema: string): string {
    "pragma " + AsIdentifier(schema) + ".foreign_key_list( " + AsIdentifier(table) + " )"
  }

  /** `dependencies_of(table, schema)`: validates `schema`, but calls
      `_dependencies_of(table)` without it, so the foreign keys are always
      read from "main"; the result is the `table` column of each row.
      `engine` gives the rows the engine returns for a query text. */
  function DependenciesOf(v: Validators, table: string, schema: string, engine: string -> seq<Row>): (r: Result<seq<Value>>)
    ensures r.Err? <==> !v.schema(schema)
    ensures r.Err? ==> r.error == InvalidSchema(schema)
    ensures r.Ok? ==> var rows := engine(ForeignKeyListSql(table, "main"));
      |r.value| == |rows| && forall i :: 0 <= i < |rows| ==> r.value[i] == Field(rows[i], "table")
  {
    if !v.schema(schema) then Err(InvalidSchema(schema))
    else Ok(Project(engine(ForeignKeyListSql(table, "main")), "table"))
  }

  /** Two accepted schema arguments give the same dependencies. */
  lemma DependenciesIgnoreSchema(v: Validators, table: string, s1: string, s2: string, engine: string -> seq<Row>)
    requires v.schema(s1) && v.schema(s2)
    ensures DependenciesOf(v, table, s1, engine) == DependenciesOf(v, table, s2, engine)
  {
  }
}
