# icql database access layer, modelled in Dafny

This project models the core of `lib/dba.js`, the `Dba` class of icql, which is a
convenience layer over an embedded SQLite connection. It models these parts:

- **SQL text construction.** `as_identifier`, `escape_text`, `as_sql` and the
  `attach` statement. The quoting follows the doubled-quote rule of ISO/IEC 9075-2,
  subclauses 5.2 and 5.3. Identifiers, text literals and the parts of the
  attach statement read back as exactly the text they were built from. List
  literals do not (see below).
- **`interpolate`.** The placeholder pattern `/\$(?:(.+?)\b|\{([^}]+)\})/g` is
  followed exactly: lazy first alternative, word boundary, and the braced
  alternative only as a fallback.
- **The query result adapters.** `limit`, `single_row`, `first_row`,
  `first_value`, `single_value`, `all_first_values`, `first_values`, `list`.
- **The statement cache.** This covers `query`, `run`, `_run_or_query` (including
  its choice between `run`, `all` and `iterate`) and `prepare`.
- **Database structure reporting.** `_schema_from_cfg`, `walk_objects` and the
  order of its rows, `list_schema_names`, `type_of`, `dependencies_of`.
- **The two schema operations, as statement planners.** `clear` and
  `copy_schema`. Each is given the answers of the engine (the walked catalog
  rows, the listed schema names, the initial foreign-key state). It returns the
  statements that change the connection, in order, and the error it raises.
  The read queries it makes (the foreign-key state, the walk, the schema list)
  appear only through their answers.

Modules follow the components of the source file:

- `Common`: options, results, the layer's errors, JavaScript values, rows and
  the argument validators.
- `SqlText`, `Interpolation`, `ResultAdapters`, `StatementCache`, `Catalog`.
- `Steps`: the statements and foreign-key pragmas the schema operations send,
  and the connection's foreign-key switch.
- `SchemaClear`, `CreatePattern` (the regular expression `copy_schema` rewrites
  with), `SchemaCopy`.

Outside the model, and given as parameters instead:

- The argument checks of the type library (`validate.ic_schema`, `ic_path`,
  `dba_list_objects_ordering`) are the `Validators` predicates.
- `Number.prototype.toString` and `JSON.stringify` are the `Formats`
  functions.
- The engine's answers: rows, whether a statement is a reader, and
  `get_foreign_key_state`.

### Behaviour of the code that the model keeps

- `limit(n, it)` pulls an element before comparing the count with `n`. When
  the source is longer than `n`, it advances the source one element past the
  last one it yields. `ResultAdapters.Limit` returns that count as `pulled`.
- `copy_schema` calls `walk_objects(from_schema)` with the bare name. A string
  has no `schema` and no `_ordering` property, so the walk always reads "main"
  in ascending type order (`Catalog.BareNameWalksMain`).
  - Ascending order puts "index" before "table", so indexes are visited
    before tables (`Catalog.AscendingPutsIndexesFirst`).
  - The inserts still read from `from_schema`.
- `${name}` does not work as a placeholder. The first alternative already
  matches `${` and reads the key "{" (`Interpolation.BracedNameQuirk`).
  - The braced alternative is reached only when the first one fails. Its
    capture is not the one the replacer reads, so the key read is "undefined"
    (`Interpolation.UndefinedKeyQuirk`).
- `dependencies_of(table, schema)` validates `schema` and then ignores it. The
  foreign keys are always read from "main"
  (`Catalog.DependenciesIgnoreSchema`). `type_of` also ignores its schema.
- `clear` switches foreign keys off before the walk validates the ordering.
  A walk that fails leaves them off.
- In a stored `CREATE UNIQUE INDEX ...` the words `CREATE UNIQUE` do not match
  the rewrite pattern. When nothing later in the text matches either (no
  further `c` or `C` at all), the text comes back unchanged and `copy_schema`
  raises µ49889 on it (`CreatePattern.UniqueIndexIsNotRewritten`). A later
  match, for example `create table` inside a string literal, is rewritten
  instead (`CreatePattern.RewriteChangesExactlyOnMatch`). Triggers raise
  µ49888.
- `as_sql` of a list puts the `JSON.stringify` text between single quotes
  without escaping it. A `'` inside the JSON text (a list holding `"it's"`)
  ends the token early (`SqlText.ListLiteralEndsAtFirstQuote`,
  `SqlText.ListLiteralExample`).

## Model

| member | source | states |
|---|---|---|
| SqlText.AsIdentifierReadsBack | lib/dba.js:514-516 | the identifier is the name between double quotes; reading it back (each doubled quote as one) gives exactly the name; it is two characters longer than the name plus one per quote in it |
| SqlText.EscapeTextReadsBack | lib/dba.js:521-524 | the escaped text reads back as exactly the input, and is longer by one character per single quote |
| SqlText.AsSql | lib/dba.js:527-550 | a literal exists exactly for the kinds other than undefined (µ12341) and the unsupported kinds (µ12342, naming the kind), and for lists only when `JSON.stringify` succeeds (otherwise its TypeError); a text literal scans as one quoted token holding exactly the text; a list gives its JSON text between single quotes, unescaped; a float gives its `toString()` text; booleans give 1/0 and null gives `null` |
| SqlText.TextLiteralToken | lib/dba.js:537 | a text literal is the quoted text and still reads back as that text when more SQL follows it |
| SqlText.ListLiteralEndsAtFirstQuote | lib/dba.js:538-539 | a list literal whose JSON text holds a single quote does not read back as that JSON text: the quoted token ends at the first quote inside it |
| SqlText.ListLiteralExample | lib/dba.js:538-539 | the list `["it's"]` gives a literal whose quoted token is only `["it` |
| SqlText.AttachSql | lib/dba.js:419-423 | the statement is produced exactly when both the path and the schema pass their checks; the path is checked first, and each failure names the rejected argument |
| SqlText.AttachNamesPathAndSchema | lib/dba.js:422 | whatever characters they contain, the attach statement reads back as exactly the given path literal followed by exactly the given schema identifier |
| Interpolation.Interpolate | lib/dba.js:553-563 | a text without `$` is returned unchanged |
| Interpolation.InterpolateLiteralPrefix | lib/dba.js:553-563 | text before the first `$` is copied through and the rest is interpolated on its own |
| Interpolation.NameRun | lib/dba.js:586 | at a `$` followed by word characters, the placeholder takes the whole maximal run of word characters as its name |
| Interpolation.InterpolateTemplate | lib/dba.js:553-563 | for any template of literal text and `$name` holes, interpolation equals hole-by-hole filling with each binding's literal, failing at the first hole without one |
| Interpolation.SinglePlaceholder | lib/dba.js:553-563 | one placeholder between two `$`-free texts: both texts are kept and the placeholder becomes its literal, or the call fails with µ55563 naming it and carrying the literal's error |
| Interpolation.UndefinedExample | lib/dba.js:556-561 | an undefined binding fails the call with µ55563 around µ12341 |
| Interpolation.ColumnTypesQuery | lib/dba.js:364 | the `column_types` query holds the table name as a quoted string literal |
| Interpolation.BracedNameQuirk | lib/dba.js:586 | `${x}` matches only `${` and reads the key "{", so the call fails even when `x` is bound |
| Interpolation.UndefinedKeyQuirk | lib/dba.js:586 | when the first alternative fails, the braced one matches and the binding under "undefined" is read |
| ResultAdapters.Limit | lib/dba.js:87-97 | yields the first min(n, length) elements (none for n <= 0), in order, and pulls one element more than it yields whenever the source is longer |
| ResultAdapters.FirstRow | lib/dba.js:136-141 | absent exactly for an empty result, otherwise the first row |
| ResultAdapters.SingleRow | lib/dba.js:100-106 | fails with µ33833 exactly on an empty result, and otherwise returns what `first_row` returns |
| ResultAdapters.SingleValueAgreesWithFirstValue | lib/dba.js:144-160 | `single_value` fails exactly when there is no row and otherwise equals `first_value` |
| ResultAdapters.AllFirstValues | lib/dba.js:109-120 | one value per row that has a column, namely its first column's value, in row order |
| ResultAdapters.FirstValueHeadsAllFirstValues | lib/dba.js:153-160 | `first_value` is present exactly when the first row has a column, and is then the head of `all_first_values` |
| ResultAdapters.FirstValues | lib/dba.js:123-133 | yields as many values as all rows have columns together |
| ResultAdapters.FirstValuesOfSingleColumns | lib/dba.js:123-133 | on single-column rows `first_values` and `all_first_values` yield the same values |
| ResultAdapters.FirstValuesDifferOnWideRows | lib/dba.js:123-133 | once any row has two columns, `first_values` yields more values than `all_first_values` |
| ResultAdapters.List | lib/dba.js:162-164 | collects every element in order |
| StatementCache.Statement | lib/dba.js:172 | the handle cached under the exact text is returned, and prepared and stored only when absent; other entries are untouched; the cache stays valid |
| StatementCache.Query | lib/dba.js:169-174 | the cached handle for the text is iterated with the arguments given |
| StatementCache.RunSql | lib/dba.js:177-182 | the cached handle for the text is run with the arguments given |
| StatementCache.ChooseMode | lib/dba.js:189-214 | `run` exactly for statements without data; `all` exactly for data inside a procedure or before the batch's last statement; `iterate` exactly for data of a last statement outside a procedure |
| StatementCache.RunOrQuery | lib/dba.js:185-215 | calls the cached handle in the mode its reader flag selects, passing `Q` exactly when it is not null |
| StatementCache.Prepare | lib/dba.js:224-227 | a fresh handle distinct from every cached one; the cache itself is unchanged |
| StatementCache.ReplayOnlyGrows | lib/dba.js:169-227 | over any history of calls, cache entries are never replaced or dropped, exactly the texts of `query`, `run` and `_run_or_query` are added, and validity is kept |
| StatementCache.HandleIsStable | lib/dba.js:172 | once a text is cached, every later lookup returns the same handle |
| StatementCache.OnlyLastStatementIterates | lib/dba.js:200-214 | in a batch, only the last statement outside a procedure may be iterated lazily |
| Catalog.SchemaOf | lib/dba.js:77-82 | the configured schema, or "main" when none is given |
| Catalog.WalkObjects | lib/dba.js:294-307 | the walk is issued exactly when the schema and the ordering pass their checks (schema first); it reads that schema, descending by type exactly for the "drop" ordering |
| Catalog.BareNameWalksMain | lib/dba.js:443 | the walk `copy_schema` requests reads "main" in ascending order, whatever name it is given |
| Catalog.AscendingPutsIndexesFirst | lib/dba.js:299-306 | in an ascending walk every index comes before every table |
| Catalog.DescendingPutsIndexesLast | lib/dba.js:286-306 | in a descending walk every table and view comes before every index |
| Catalog.ListSchemaNames | lib/dba.js:337-346 | one name per listed schema, in order, each that row's `name` |
| Catalog.TypeOf | lib/dba.js:349-358 | the type of the first catalog row with that name, and null exactly when no row has it |
| Catalog.DependenciesOf | lib/dba.js:374-391 | fails exactly when the schema is rejected; otherwise one entry per foreign-key row of the table in "main", each that row's `table` |
| Catalog.DependenciesIgnoreSchema | lib/dba.js:379-391 | any two accepted schema arguments give the same dependencies |
| Steps.PragmaTextDeterminesStep | lib/dba.js:279 | the pragma texts sent (`foreign_keys = true/false;`, and the schema-prefixed `foreign_keys = on/off;` and `foreign_key_check;` of `copy_schema`) never coincide for different pragmas: the text fixes the target schema and the state set |
| SchemaClear.DropSqlNamesObject | lib/dba.js:410 | the drop statement names the object's type and reads back as its exact name |
| SchemaClear.DropsRunWithForeignKeysOff | lib/dba.js:402-414 | every drop runs with foreign keys off, and the saved state is restored at the end |
| SchemaClear.Clear | lib/dba.js:397-416 | validation failures and the statements sent before them; on success it requests the descending ("drop") walk of the configured schema, sends one drop per walked object in walk order between switching foreign keys off and restoring them, returns the count of objects, and runs every drop with them off; when the rows come in the requested order, every table and view is dropped before every index |
| CreatePattern.SkipSpacesSkipsSpaces | lib/dba.js:462 | `\s*` consumes exactly the run of JavaScript white space |
| CreatePattern.FindMatchIsLeftmost | lib/dba.js:462 | the match found is the leftmost one, and none is found only when the pattern matches nowhere |
| CreatePattern.RewriteChangesExactlyOnMatch | lib/dba.js:462-466 | the rewrite leaves the SQL unchanged exactly when the pattern does not occur, which is when µ49889 is raised |
| CreatePattern.RewriteOfStoredCreate | lib/dba.js:462 | a stored `CREATE TABLE/INDEX/VIEW ...` has its head replaced by `create <type> <to>.` and the rest kept |
| CreatePattern.UniqueIndexIsNotRewritten | lib/dba.js:462-466 | a stored `CREATE UNIQUE INDEX` without further C's is left unchanged |
| SchemaCopy.CopyableMeansNoProblem | lib/dba.js:448-466 | a walk copies through exactly when no object that is not skipped has an unknown type or unrewritable SQL |
| SchemaCopy.CopyOne | lib/dba.js:455-471 | an unknown type raises µ49888 and unchanged SQL raises µ49889, with no statement queued; otherwise the rewritten create, and an insert exactly for tables |
| SchemaCopy.CopyObjects | lib/dba.js:445-472 | skips objects without SQL and `sqlite_sequence`; stops at the first object it cannot copy, with the creates of the earlier ones; otherwise one create per copied object and one insert per copied table, in walk order |
| SchemaCopy.CopySchema | lib/dba.js:428-509 | the validation order and its errors; foreign keys off before the walk; on success the full plan of creates, then inserts, then switching enforcement on and checking it; on failure the first object that stops it and the statements sent until then |
| SchemaCopy.FailedCopyLeavesForeignKeysOff | lib/dba.js:440-466 | a copy that fails after starting leaves foreign keys off |
| SchemaCopy.FinishedCopyTurnsForeignKeysOn | lib/dba.js:440-507 | every create and insert of a finished copy runs with foreign keys off, and enforcement is on at the end whatever it was before |
| SchemaCopy.InsertsCountTables | lib/dba.js:469-471 | exactly one insert per copied table |

## Left out

- The engine itself: prepared statements, their execution, the rows they
  return and the order `order by` gives them. Rows and reader flags are
  inputs. The walk's order is stated as a predicate (`InWalkOrder`) that the
  ordering lemmas assume.
- The constructor, `_echo`, `_debug` and the `cfg.debug` block of
  `copy_schema` (lib/dba.js:474-500). They only write output, and the
  debugging walks send nothing that changes the database.
- The pass-throughs `aggregate`, `backup`, `checkpoint`, `close`, `function`,
  `load`, `pragma`, `transaction` and `execute`. Each delegates straight to the
  engine. `execute` appears as the `Execute` step.
- `read(path)`: file input.
- `get_foreign_key_state`: an engine query. Its answer is the `fkInitial`
  parameter of `SchemaClear.Clear`.
- `set_foreign_key_state`: modelled as the step it sends. Its boolean check is
  left out because the only callers pass booleans.
- The query texts of `catalog`, `list_objects_2`, `list_schemas` and
  `column_types`. Their answers are inputs; only the `column_types`
  interpolation is modelled.
- `list_as_json` and number-to-text conversion: they are the `Formats`
  functions. `json` answers nothing where `JSON.stringify` throws, and
  `as_sql` then fails with `NotSerializable`; which lists those are is not
  modelled.
- A `null` cfg: `walk_objects(null)` throws a TypeError when it reads
  `cfg._ordering`, while `clear(null)` treats it like an omitted cfg. `Cfg`
  has no `null` case.
- `validate.*` from the type library: these are the `Validators` predicates.
- `as_hollerith` / `from_hollerith`: a foreign library.
- Error messages: each error keeps its tag and the values it names, not the
  `rpr` text.
- JavaScript property order puts integer-like keys first in `for ... in`. A
  row's columns are taken in the order given.
- `Q[key]` lookups ignore inherited properties such as `constructor`, which a
  plain object would also answer.
- `$` patterns in the replacement string of `String.prototype.replace` are
  not modelled. A `to_schema` containing `$&`, `$1` or `` $` `` is taken
  literally.
- Interpolation.Interpolate: its own contract covers only text without `$`;
  the placeholder behaviour is stated by the lemmas about it.
- ResultAdapters.Limit: `n` is an integer; a fractional `n` is not modelled.
- Generator laziness. A generator is modelled by what it yields when consumed
  to the end; `limit` also reports how far it pulled.
- ResultAdapters.FirstValues: its own contract states only the count; the
  values are related to `all_first_values` by the lemmas.
