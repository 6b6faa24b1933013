/** `copy_schema(from, to)` (lib/dba.js:428-509) as a statement planner:
    given the schema names the connection lists and the objects the walk
    returns, the statements it sends and the failure it raises. */
module SchemaCopy {
  import opened Common
  import opened SqlText
  import opened Catalog
  import opened Steps
  import opened CreatePattern

  /** Objects the loop passes over: no SQL (implicit objects), empty SQL, or
      the engine's `sqlite_sequence` table. */
  predicate Skipped(o: DbObject) {
    o.sql.None? || o.sql.value == "" || o.name == "sqlite_sequence"
  }

  /** The failure the loop raises at a non-skipped object, if any: an
      unknown type, or SQL the rewrite leaves unchanged, which happens
      exactly when the pattern finds no match (`RewriteChangesExactlyOnMatch`). */
  function Problem(o: DbObject): Option<Error>
    requires !Skipped(o)
  {
    if o.kind != "table" && o.kind != "view" && o.kind != "index" then Some(UnknownObjectType(o.kind, o.name))
    else if FindMatch(o.sql.value, 0).None? then Some(UnexpectedSql(o.sql.value))
    else None
  }

  /** No object in `objs` stops the loop. */
  predicate Copyable(objs: seq<DbObject>)
    decreases |objs|
  {
    objs == [] ||
      var last := objs[|objs| - 1];
      Copyable(objs[..|objs| - 1]) && (Skipped(last) || Problem(last).None?)
  }

  /** `Copyable` holds exactly when every object the loop does not skip has
      no problem. */
  lemma {:induction false} CopyableMeansNoProblem(objs: seq<DbObject>)
    ensures Copyable(objs) <==> forall j :: 0 <= j < |objs| && !Skipped(objs[j]) ==> Problem(objs[j]).None?
    decreases |objs|
  {
    if objs != [] {
      var n := |objs| - 1;
      CopyableMeansNoProblem(objs[..n]);
      assert forall j :: 0 <= j < n ==> objs[..n][j] == objs[j];
    }
  }

  /** The loop stops at `walked[i]` with `failure`: the first object it
      cannot copy. */
  predicate StopsAt(walked: seq<DbObject>, i: int, failure: Option<Error>) {
    && 0 <= i < |walked| && !Skipped(walked[i]) && failure == Problem(walked[i])
    && Copyable(walked[..i])
  }

  /** The statement copying `name`'s rows once every object exists. */
  function InsertSql(name: string, fromX: string, toX: string): string {
    "insert into " + toX + "." + AsIdentifier(name) + " select * from " + fromX + "." + AsIdentifier(name) + ";"
  }

  /** One create statement per copied object, in walk order. */
  function Creates(objs: seq<DbObject>, toX: string): (r: seq<Step>)
    ensures OnlyExecutes(r)
    decreases |objs|
  {
    if objs == [] then []
    else
      var last := objs[|objs| - 1];
      Creates(objs[..|objs| - 1], toX)
        + (if Skipped(last) then [] else [Execute(RewriteCreate(last.sql.value, last.kind, toX))])
  }

  /** One insert statement per copied table, in walk order. */
  function Inserts(objs: seq<DbObject>, fromX: string, toX: string): (r: seq<Step>)
    ensures OnlyExecutes(r)
    decreases |objs|
  {
    if objs == [] then []
    else
      var last := objs[|objs| - 1];
      Inserts(objs[..|objs| - 1], fromX, toX)
        + (if Skipped(last) || last.kind != "table" then [] else [Execute(InsertSql(last.name, fromX, toX))])
  }

  /** What `copy_schema` sent, and the error it raised if it did not finish. */
  datatype Trace = Trace(steps: seq<Step>, failure: Option<Error>)

  /** Both names pass the schema check and are listed on the connection. */
  predicate Admitted(v: Validators, from: string, to: string, schemas: seq<Value>) {
    v.schema(from) && v.schema(to) && Text(from) in schemas && Text(to) in schemas
  }

  /** The statements sent when every object is copied. */
  function CopyPlan(walked: seq<DbObject>, fromX: string, toX: string): seq<Step> {
    [ForeignKeys(Some(toX), false)] + Creates(walked, toX) + Inserts(walked, fromX, toX)
      + [ForeignKeys(Some(toX), true), ForeignKeyCheck(toX)]
  }

  /** Visiting a skipped object leaves the plan as it was. */
  lemma SkippedStep(walked: seq<DbObject>, i: nat, fromX: string, toX: string)
    requires i < |walked| && Skipped(walked[i])
    ensures Copyable(walked[..i + 1]) == Copyable(walked[..i])
    ensures Creates(walked[..i + 1], toX) == Creates(walked[..i], toX)
    ensures Inserts(walked[..i + 1], fromX, toX) == Inserts(walked[..i], fromX, toX)
  {
    assert walked[..i + 1][..i] == walked[..i];
  }

  /** Visiting a copied object adds its create, and its insert if it is a table. */
  lemma CopiedStep(walked: seq<DbObject>, i: nat, fromX: string, toX: string)
    requires i < |walked| && !Skipped(walked[i])
    ensures Copyable(walked[..i + 1]) <==> Copyable(walked[..i]) && Problem(walked[i]).None?
    ensures var d := walked[i];
      Creates(walked[..i + 1], toX) == Creates(walked[..i], toX) + [Execute(RewriteCreate(d.sql.value, d.kind, toX))]
    ensures walked[i].kind == "table" ==>
      Inserts(walked[..i + 1], fromX, toX) == Inserts(walked[..i], fromX, toX) + [Execute(InsertSql(walked[i].name, fromX, toX))]
    ensures walked[i].kind != "table" ==> Inserts(walked[..i + 1], fromX, toX) == Inserts(walked[..i], fromX, toX)
  {
    assert walked[..i + 1][..i] == walked[..i];
  }

  /** One pass of the loop over a non-skipped object: the type check, the
      rewrite of its SQL into the target schema, the check that the rewrite
      changed something, and the statements it queues. */
  method CopyOne(d: DbObject, fromX: string, toX: string)
    returns (create: Option<Step>, insert: Option<Step>, failure: Option<Error>)
    requires !Skipped(d)
    ensures failure == Problem(d)
    ensures create.Some? <==> failure.None?
    ensures failure.None? ==> create == Some(Execute(RewriteCreate(d.sql.value, d.kind, toX)))
    ensures failure.None? ==> (insert.Some? <==> d.kind == "table")
    ensures failure.None? && insert.Some? ==> insert.value == Execute(InsertSql(d.name, fromX, toX))
  {
    insert := None;
    if d.kind != "table" && d.kind != "view" && d.kind != "index" {
      return None, None, Some(UnknownObjectType(d.kind, d.name));
    }
    var sql := RewriteCreate(d.sql.value, d.kind, toX);
    RewriteChangesExactlyOnMatch(d.sql.value, d.kind, toX);
    if sql == d.sql.value {
      return None, None, Some(UnexpectedSql(d.sql.value));
    }
    create := Some(Execute(sql));
    if d.kind == "table" {
      insert := Some(Execute(InsertSql(d.name, fromX, toX)));
    }
    failure := None;
  }

  /** The loop of `copy_schema` over the walked objects: skips what it
      skips, stops at the first object it cannot copy, and otherwise collects
      one create per object and one insert per table. */
  method CopyObjects(walked: seq<DbObject>, fromX: string, toX: string)
    returns (creates: seq<Step>, inserts: seq<Step>, failure: Option<Error>, stop: nat)
    ensures failure.None? <==> Copyable(walked)
    ensures failure.None? ==> creates == Creates(walked, toX) && inserts == Inserts(walked, fromX, toX)
    ensures failure.Some? ==> StopsAt(walked, stop, failure) && creates == Creates(walked[..stop], toX)
  {
    creates, inserts := [], [];
    assert walked[..0] == [];
    var i := 0;
    while i < |walked|
      invariant i <= |walked|
      invariant Copyable(walked[..i])
      invariant creates == Creates(walked[..i], toX)
      invariant inserts == Inserts(walked[..i], fromX, toX)
    {
      var d := walked[i];
      if Skipped(d) {
        SkippedStep(walked, i, fromX, toX);
      } else {
        var create, insert, problem := CopyOne(d, fromX, toX);
        CopiedStep(walked, i, fromX, toX);
        if problem.Some? {
          CopyableMeansNoProblem(walked);
          return creates, inserts, problem, i;
        }
        creates := creates + [create.value];
        if insert.Some? {
          inserts := inserts + [insert.value];
        }
      }
      i := i + 1;
    }
    assert walked[..i] == walked;
    return creates, inserts, None, 0;
  }

  /** `copy_schema(from, to)`. `schemas` is what `list_schema_names` returns
      and `walked` the rows of the walk. The walk is asked with the bare
      name, so it reads "main" in ascending order (`BareNameWalksMain`).
      Each object is created in `to` as it is visited; the row copies wait
      until all objects exist; enforcement is switched off for the copy and
      back on and checked at the end. */
  method CopySchema(v: Validators, from: string, to: string, schemas: seq<Value>, walked: seq<DbObject>)
    returns (r: Trace)
    ensures !v.schema(from) ==> r == Trace([], Some(InvalidSchema(from)))
    ensures v.schema(from) && !v.schema(to) ==> r == Trace([], Some(InvalidSchema(to)))
    ensures v.schema(from) && v.schema(to) && Text(from) !in schemas ==> r == Trace([], Some(UnknownSchema(from)))
    ensures v.schema(from) && v.schema(to) && Text(from) in schemas && Text(to) !in schemas ==>
      r == Trace([], Some(UnknownSchema(to)))
    ensures Admitted(v, from, to, schemas) && WalkObjects(v, Bare(from)).Err? ==>
      r == Trace([ForeignKeys(Some(AsIdentifier(to)), false)], Some(WalkObjects(v, Bare(from)).error))
    ensures r.failure.None? <==> Admitted(v, from, to, schemas) && WalkObjects(v, Bare(from)).Ok? && Copyable(walked)
    ensures r.failure.None? ==> r.steps == CopyPlan(walked, AsIdentifier(from), AsIdentifier(to))
    ensures Admitted(v, from, to, schemas) && WalkObjects(v, Bare(from)).Ok? && r.failure.Some? ==>
      exists i :: StopsAt(walked, i, r.failure)
        && r.steps == [ForeignKeys(Some(AsIdentifier(to)), false)] + Creates(walked[..i], AsIdentifier(to))
  {
    if !v.schema(from) { return Trace([], Some(InvalidSchema(from))); }
    if !v.schema(to) { return Trace([], Some(InvalidSchema(to))); }
    if Text(from) !in schemas { return Trace([], Some(UnknownSchema(from))); }
    if Text(to) !in schemas { return Trace([], Some(UnknownSchema(to))); }
    var toX := AsIdentifier(to);
    var fromX := AsIdentifier(from);
    var off := [ForeignKeys(Some(toX), false)];
    var walk := WalkObjects(v, Bare(from));
    if walk.Err? { return Trace(off, Some(walk.error)); }
    var creates, inserts, failure, stop := CopyObjects(walked, fromX, toX);
    if failure.Some? {
      return Trace(off + creates, failure);
    }
    return Trace(off + creates + inserts + [ForeignKeys(Some(toX), true), ForeignKeyCheck(toX)], None);
  }

  /** A copy that fails part-way leaves enforcement off. */
  lemma FailedCopyLeavesForeignKeysOff(fk: bool, objs: seq<DbObject>, toX: string)
    ensures FkAfter(fk, [ForeignKeys(Some(toX), false)] + Creates(objs, toX)) == false
  {
    FkAfterAppend(fk, [ForeignKeys(Some(toX), false)], Creates(objs, toX));
    ExecutesKeepForeignKeys(false, Creates(objs, toX));
  }

  /** A finished copy leaves enforcement on, whatever it was before, and every
      create and insert runs with it off. */
  lemma FinishedCopyTurnsForeignKeysOn(fk: bool, walked: seq<DbObject>, fromX: string, toX: string)
    ensures FkAfter(fk, CopyPlan(walked, fromX, toX)) == true
    ensures var plan := CopyPlan(walked, fromX, toX);
      forall i :: 0 <= i < |plan| && plan[i].Execute? ==> !FkAfter(fk, plan[..i])
  {
    var body := Creates(walked, toX) + Inserts(walked, fromX, toX);
    var plan := CopyPlan(walked, fromX, toX);
    var off := [ForeignKeys(Some(toX), false)];
    var tail := [ForeignKeys(Some(toX), true), ForeignKeyCheck(toX)];
    assert OnlyExecutes(body);
    assert plan == off + body + tail;
    assert FkAfter(false, tail) == FkAfter(true, [ForeignKeyCheck(toX)]) == FkAfter(true, []);
    FkAfterAppend(fk, off + body, tail);
    FkAfterAppend(fk, off, body);
    ExecutesKeepForeignKeys(false, body);
    forall k | 0 <= k < |plan| && plan[k].Execute?
      ensures !FkAfter(fk, plan[..k])
    {
      assert 1 <= k <= |body|;
      assert plan[..k] == off + body[..k - 1];
      assert OnlyExecutes(body[..k - 1]);
      FkAfterAppend(fk, off, body[..k - 1]);
      ExecutesKeepForeignKeys(false, body[..k - 1]);
    }
  }

  /** The objects that get a row copy. */
  predicate CopiedTable(o: DbObject) {
    !Skipped(o) && o.kind == "table"
  }

  /** Every copied table gets exactly one insert. */
  lemma {:induction false} InsertsCountTables(objs: seq<DbObject>, fromX: string, toX: string)
    ensures |Inserts(objs, fromX, toX)| == |set k | 0 <= k < |objs| && CopiedTable(objs[k])|
    decreases |objs|
  {
    if objs != [] {
      var n := |objs| - 1;
      var prefix := objs[..n];
      InsertsCountTables(prefix, fromX, toX);
      var before := set k | 0 <= k < n && CopiedTable(prefix[k]);
      var after := set k | 0 <= k < |objs| && CopiedTable(objs[k]);
      assert forall k :: 0 <= k < n ==> prefix[k] == objs[k];
      if CopiedTable(objs[n]) {
        assert after == before + {n};
      } else {
        assert after == before;
      }
    }
  }
}
