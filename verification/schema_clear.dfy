/** `clear(cfg)` (lib/dba.js:397-416) as a statement planner: given the
    initial foreign-key state and the objects the "drop" walk returns, the
    statements it sends, the count it returns, and the failure it raises. */
module SchemaClear {
  import opened Common
  import opened SqlText
  import opened Catalog
  import opened Steps

  /** Tables and views: the objects a descending walk visits before indexes. */
  predicate DroppedFirst(o: DbObject) {
    o.kind == "table" || o.kind == "view"
  }

  /** Every table and view comes before every index. */
  predicate IndexesLast(objects: seq<DbObject>) {
    forall i, j :: 0 <= i < |objects| && 0 <= j < |objects| && DroppedFirst(objects[i]) && objects[j].kind == "index" ==>
      i < j
  }

  /** The descending ("drop") walk puts every index last. */
  lemma DropWalkPutsIndexesLast(objects: seq<DbObject>)
    requires InWalkOrder(objects, Descending)
    ensures IndexesLast(objects)
  {
    forall i, j | 0 <= i < |objects| && 0 <= j < |objects| && DroppedFirst(objects[i]) && objects[j].kind == "index"
      ensures i < j
    {
      DescendingPutsIndexesLast(objects, i, j);
    }
  }

  /** One drop statement per object, in order. */
  method DropAll(walked: seq<DbObject>) returns (drops: seq<Step>)
    ensures |drops| == |walked|
    ensures forall i :: 0 <= i < |walked| ==> drops[i] == Execute(DropSql(walked[i]))
    ensures OnlyExecutes(drops)
  {
    drops := [];
    var i := 0;
    while i < |walked|
      invariant i <= |walked| && i == |drops|
      invariant forall j :: 0 <= j < i ==> drops[j] == Execute(DropSql(walked[j]))
    {
      drops := drops + [Execute(DropSql(walked[i]))];
      i := i + 1;
    }
  }

  /** The statement dropping one object; the name is quoted, the schema is
      not named. */
  function DropSql(o: DbObject): string {
    "drop " + o.kind + " if exists " + AsIdentifier(o.name) + ";"
  }

  /** The drop statement reads back as the object's type and exact name. */
  lemma DropSqlNamesObject(o: DbObject)
    ensures var prefix := "drop " + o.kind + " if exists ";
      && DropSql(o)[..|prefix|] == prefix
      && ScanQuoted(DropSql(o)[|prefix|..], '"') == Some((o.name, ";"))
  {
    var prefix := "drop " + o.kind + " if exists ";
    assert DropSql(o) == prefix + (Quote(o.name, '"') + ";");
    QuotedTokenEnds(o.name, '"', ";");
  }

  /** Switching enforcement off, running plain statements and switching it
      back to `fk` runs every statement with enforcement off and ends at `fk`. */
  lemma DropsRunWithForeignKeysOff(fk: bool, drops: seq<Step>)
    requires OnlyExecutes(drops)
    ensures var steps := [ForeignKeys(None, false)] + drops + [ForeignKeys(None, fk)];
      && FkAfter(fk, steps) == fk
      && forall i :: 0 <= i < |steps| && steps[i].Execute? ==> !FkAfter(fk, steps[..i])
  {
    var steps := [ForeignKeys(None, false)] + drops + [ForeignKeys(None, fk)];
    forall k | 0 <= k < |steps| && steps[k].Execute?
      ensures !FkAfter(fk, steps[..k])
    {
      assert steps[..k] == [steps[0]] + drops[..k - 1];
      assert OnlyExecutes(drops[..k - 1]);
      FkAfterAppend(fk, [steps[0]], drops[..k - 1]);
      ExecutesKeepForeignKeys(false, drops[..k - 1]);
    }
    FkAfterAppend(fk, [ForeignKeys(None, false)] + drops, [ForeignKeys(None, fk)]);
  }

  /** `clear(cfg)`: validates the schema, saves the foreign-key state and
      switches enforcement off, requests the "drop" walk of the schema (a walk
      whose ordering check fails raises with enforcement left off), drops each
      object in walk order, restores the saved state and returns the count.
      `request` is the walk query sent, if any; `walked` is what the engine
      answers to it. */
  method Clear(v: Validators, cfg: Cfg, fkInitial: bool, walked: seq<DbObject>)
    returns (steps: seq<Step>, count: nat, failure: Option<Error>, request: Option<Walk>)
    ensures failure.None? <==> v.schema(SchemaOf(cfg)) && v.ordering(Some("drop"))
    ensures !v.schema(SchemaOf(cfg)) ==> steps == [] && failure == Some(InvalidSchema(SchemaOf(cfg)))
    ensures v.schema(SchemaOf(cfg)) && !v.ordering(Some("drop")) ==>
      steps == [ForeignKeys(None, false)] && failure == Some(InvalidOrdering(Some("drop")))
    ensures request.Some? <==> failure.None?
    ensures request.Some? ==> request == Some(WalkObjects(v, Settings(Some(SchemaOf(cfg)), Some("drop"))).value)
    ensures request.Some? ==> request.value.schema == SchemaOf(cfg) && request.value.direction == Descending
    ensures failure.None? ==> count == |walked| && |steps| == |walked| + 2
    ensures failure.None? ==> steps[0] == ForeignKeys(None, false) && steps[|steps| - 1] == ForeignKeys(None, fkInitial)
    ensures failure.None? ==> forall i :: 0 <= i < |walked| ==> steps[i + 1] == Execute(DropSql(walked[i]))
    ensures failure.None? ==> FkAfter(fkInitial, steps) == fkInitial
    ensures forall i :: 0 <= i < |steps| && steps[i].Execute? ==> !FkAfter(fkInitial, steps[..i])
    // When the engine answers in the order requested, every table and view
    // is dropped before every index.
    ensures failure.None? && InWalkOrder(walked, request.value.direction) ==> IndexesLast(walked)
  {
    var schema := SchemaOf(cfg);
    if !v.schema(schema) {
      return [], 0, Some(InvalidSchema(schema)), None;
    }
    count := 0;
    steps := [ForeignKeys(None, false)];
    var walk := WalkObjects(v, Settings(Some(schema), Some("drop")));
    if walk.Err? {
      return steps, 0, Some(walk.error), None;
    }
    request := Some(walk.value);
    var drops := DropAll(walked);
    count := |drops|;
    steps := [ForeignKeys(None, false)] + drops + [ForeignKeys(None, fkInitial)];
    failure := None;
    DropsRunWithForeignKeysOff(fkInitial, drops);
    if InWalkOrder(walked, Descending) {
      DropWalkPutsIndexesLast(walked);
    }
  }
}
