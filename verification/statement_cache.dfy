/** The statement cache and execution-mode choice (lib/dba.js:169-227).
    The engine is reduced to two facts: each `prepare` yields a new handle,
    numbered here from a counter, and a handle reports whether its statement
    returns data (`reader`), given here as a function of the SQL text. */
module StatementCache {
  import opened Common

  datatype Handle = Handle(id: nat, reader: bool)

  /** The part of a connection this layer owns: the cache from exact SQL text
      to handle, and the number of handles prepared so far. */
  datatype Connection = Connection(statements: map<string, Handle>, prepared: nat)

  /** The statement method a call ends in. */
  datatype Mode = UseRun | UseAll | UseIterate

  /** A call on a handle with its arguments. */
  datatype Call<P> = Call(handle: Handle, mode: Mode, args: seq<P>)

  /** Every cached handle was prepared on this connection, knows whether its
      text returns data, and no two texts share a handle. */
  ghost predicate Valid(c: Connection, readsData: string -> bool) {
    && (forall sql :: sql in c.statements ==> c.statements[sql].id < c.prepared)
    && (forall sql :: sql in c.statements ==> c.statements[sql].reader == readsData(sql))
    && (forall a, b :: a in c.statements && b in c.statements && a != b ==>
          c.statements[a].id != c.statements[b].id)
  }

  /** The cache of `after` keeps every entry of `before` unchanged. */
  ghost predicate Extends(before: Connection, after: Connection) {
    && before.prepared <= after.prepared
    && (forall sql :: sql in before.statements ==>
          sql in after.statements && after.statements[sql] == before.statements[sql])
  }

  /** `base[sql] ?= prepare(sql)`: the cached handle for this exact text,
      prepared and stored only when absent. */
  function Statement(c: Connection, sql: string, readsData: string -> bool): (r: (Connection, Handle))
    ensures Extends(c, r.0)
    ensures r.0.statements.Keys == c.statements.Keys + {sql}
    ensures sql in r.0.statements && r.0.statements[sql] == r.1
    ensures sql in c.statements ==> r.0 == c
    ensures Valid(c, readsData) ==> Valid(r.0, readsData) && r.1.reader == readsData(sql)
  {
    if sql in c.statements then (c, c.statements[sql])
    else
      var h := Handle(c.prepared, readsData(sql));
      (Connection(c.statements[sql := h], c.prepared + 1), h)
  }

  /** `query(sql, ...P)`: the cached statement, iterated over. */
  function Query<P>(c: Connection, sql: string, params: seq<P>, readsData: string -> bool): (r: (Connection, Call<P>))
    ensures Extends(c, r.0) && sql in r.0.statements
    ensures r.1 == Call(r.0.statements[sql], UseIterate, params)
  {
    var (c', h) := Statement(c, sql, readsData);
    (c', Call(h, UseIterate, params))
  }

  /** `run(sql, ...P)`: the cached statement, run. */
  function RunSql<P>(c: Connection, sql: string, params: seq<P>, readsData: string -> bool): (r: (Connection, Call<P>))
    ensures Extends(c, r.0) && sql in r.0.statements
    ensures r.1 == Call(r.0.statements[sql], UseRun, params)
  {
    var (c', h) := Statement(c, sql, readsData);
    (c', Call(h, UseRun, params))
  }

  /** The decision of `_run_or_query`: a statement that returns no data is
      run; one that does is materialised inside a procedure or when it is not
      the last of its batch, and otherwise iterated. */
  function ChooseMode(reader: bool, entryType: string, isLast: bool): (m: Mode)
    ensures m == UseRun <==> !reader
    ensures m == UseAll <==> reader && (entryType == "procedure" || !isLast)
    ensures m == UseIterate <==> reader && entryType != "procedure" && isLast
  {
    if !reader then UseRun
    else if entryType == "procedure" || !isLast then UseAll
    else UseIterate
  }

  /** `_run_or_query(entry_type, is_last, sql, Q)`: `Q` is passed on exactly
      when it is not null. */
  function RunOrQuery<P>(c: Connection, entryType: string, isLast: bool, sql: string,
                         q: Option<P>, readsData: string -> bool): (r: (Connection, Call<P>))
    ensures Extends(c, r.0) && sql in r.0.statements
    ensures r.1.handle == r.0.statements[sql]
    ensures r.1.mode == ChooseMode(r.1.handle.reader, entryType, isLast)
    ensures |r.1.args| <= 1 && (r.1.args != [] <==> q.Some?)
    ensures q.Some? ==> r.1.args[0] == q.value
  {
    var (c', h) := Statement(c, sql, readsData);
    var args := match q case Some(x) => [x] case None => [];
    (c', Call(h, ChooseMode(h.reader, entryType, isLast), args))
  }

  /** `prepare(sql)`: a fresh handle straight from the engine; the cache is
      left alone. */
  function Prepare(c: Connection, sql: string, readsData: string -> bool): (r: (Connection, Handle))
    ensures r.0.statements == c.statements && r.0.prepared == c.prepared + 1
    ensures Valid(c, readsData) ==> Valid(r.0, readsData)
    ensures Valid(c, readsData) ==> forall s :: s in c.statements ==> c.statements[s].id != r.1.id
    ensures r.1.reader == readsData(sql)
  {
    (Connection(c.statements, c.prepared + 1), Handle(c.prepared, readsData(sql)))
  }

  /** The calls a caller can make on a connection. */
  datatype Op = QueryOp(sql: string) | RunOp(sql: string)
              | RunOrQueryOp(entryType: string, isLast: bool, sql: string)
              | PrepareOp(sql: string)

  function Apply(c: Connection, op: Op, readsData: string -> bool): Connection {
    match op
    case QueryOp(sql) => Query<bool>(c, sql, [], readsData).0
    case RunOp(sql) => RunSql<bool>(c, sql, [], readsData).0
    case RunOrQueryOp(e, l, sql) => RunOrQuery<bool>(c, e, l, sql, None, readsData).0
    case PrepareOp(sql) => Prepare(c, sql, readsData).0
  }

  function Replay(c: Connection, ops: seq<Op>, readsData: string -> bool): Connection
    decreases |ops|
  {
    if ops == [] then c else Replay(Apply(c, ops[0], readsData), ops[1..], readsData)
  }

  /** The texts the cache gains from a history: all but those of `prepare`. */
  function CachedTexts(ops: seq<Op>): set<string>
    decreases |ops|
  {
    if ops == [] then {}
    else (if ops[0].PrepareOp? then {} else {ops[0].sql}) + CachedTexts(ops[1..])
  }

  /** Over any history of calls the cache only grows: no entry is ever
      replaced or dropped, exactly the texts of `query`, `run` and
      `_run_or_query` are added, and validity is kept. */
  lemma {:induction false} ReplayOnlyGrows(c: Connection, ops: seq<Op>, readsData: string -> bool)
    ensures Extends(c, Replay(c, ops, readsData))
    ensures Replay(c, ops, readsData).statements.Keys == c.statements.Keys + CachedTexts(ops)
    ensures Valid(c, readsData) ==> Valid(Replay(c, ops, readsData), readsData)
    decreases |ops|
  {
    if ops != [] {
      var c1 := Apply(c, ops[0], readsData);
      ReplayOnlyGrows(c1, ops[1..], readsData);
      match ops[0]
      case QueryOp(sql) =>
      case RunOp(sql) =>
      case RunOrQueryOp(e, l, sql) =>
      case PrepareOp(sql) =>
    }
  }

  /** One handle per distinct text for the lifetime of the connection: once
      a text is cached, every later lookup of it returns the same handle. */
  lemma HandleIsStable(c: Connection, sql: string, ops: seq<Op>, readsData: string -> bool)
    ensures var c1 := Statement(c, sql, readsData);
      Statement(Replay(c1.0, ops, readsData), sql, readsData).1 == c1.1
  {
    var c1 := Statement(c, sql, readsData);
    ReplayOnlyGrows(c1.0, ops, readsData);
  }

  /** Within a batch run outside a procedure, only the last statement may be
      iterated lazily; every earlier statement that returns data is
      materialised, so no two cursors are open at once. */
  lemma OnlyLastStatementIterates(readers: seq<bool>, entryType: string, i: nat)
    requires i < |readers|
    requires ChooseMode(readers[i], entryType, i == |readers| - 1) == UseIterate
    ensures i == |readers| - 1 && entryType != "procedure"
  {
  }
}
