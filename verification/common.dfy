/** Data shared by every component of the database access layer: optional and
    fallible results, the errors the layer raises, the values it renders into
    SQL, the rows the engine hands back, and the argument checks it delegates
    to its type library. */
module Common {

  datatype Option<+T> = None | Some(value: T)

  /** The failures raised by the layer; the comment on each gives the tag its
      message starts with. */
  datatype Error =
    | EmptyResult                                        // µ33833
    | UndefinedLiteral                                   // µ12341
    | UnsupportedLiteral(kind: string)                   // µ12342
    | PlaceholderFailed(placeholder: Option<string>, cause: Error)  // µ55563
    | InvalidSchema(schema: string)                      // validate.ic_schema
    | InvalidOrdering(ordering: Option<string>)          // validate.dba_list_objects_ordering
    | InvalidPath(path: string)                          // validate.ic_path
    | UnknownSchema(schema: string)                      // µ57873
    | UnknownObjectType(kind: string, name: string)      // µ49888
    | UnexpectedSql(sql: string)                         // µ49889
    | NotSerializable                                    // TypeError from JSON.stringify

  datatype Result<+T> = Ok(value: T) | Err(error: Error)

  /** A JavaScript value, classified by the kind the type library reports for
      it. `Float` stands for every number; `Other` for any kind without an SQL
      literal form (functions, objects, NaN and the like). */
  datatype Value =
    | Text(text: string)
    | List(items: seq<Value>)
    | Float(number: real)
    | Boolean(truth: bool)
    | Null
    | Undefined
    | Other(kind: string)

  /** A row as the engine returns it: column names with their values, in the
      order a `for ... in` loop enumerates them. */
  type Row = seq<(string, Value)>

  /** `row[key]`: the value of the first column called `key`, or undefined. */
  function Field(row: Row, key: string): (v: Value)
    ensures (forall i :: 0 <= i < |row| ==> row[i].0 != key) ==> v == Undefined
    ensures v != Undefined ==> exists i :: 0 <= i < |row| && row[i] == (key, v)
  {
    if row == [] then Undefined
    else if row[0].0 == key then row[0].1
    else Field(row[1..], key)
  }

  /** The argument checks the layer delegates to its type library, which is
      not part of this model: each says whether an argument is acceptable. */
  datatype Validators = Validators(
    schema: string -> bool,
    ordering: Option<string> -> bool,
    path: string -> bool)
}
