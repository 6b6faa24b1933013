/** The statements the schema operations send to the engine, and how they
    move the connection's foreign-key enforcement switch. */
module Steps {
  import opened Common

  /** `Execute` is a call of `execute(sql)`; the other two are `pragma` calls.
      `ForeignKeys(None, b)` is what `set_foreign_key_state(b)` sends, and
      `ForeignKeys(Some(x), b)` the schema-prefixed form `copy_schema` sends. */
  datatype Step =
    | Execute(sql: string)
    | ForeignKeys(target: Option<string>, on: bool)
    | ForeignKeyCheck(schemaX: string)

  /** The text handed to the engine for each step. */
  function StepText(s: Step): string {
    match s
    case Execute(sql) => sql
    case ForeignKeys(None, on) => "foreign_keys = " + (if on then "true" else "false") + ";"
    case ForeignKeys(Some(x), on) => x + ".foreign_keys = " + (if on then "on" else "off") + ";"
    case ForeignKeyCheck(x) => x + ".foreign_key_check;"
  }

  /** Distinct pragmas send distinct texts: the text of a pragma step
      determines its target and the state it sets. */
  lemma PragmaTextDeterminesStep(a: Step, b: Step)
    requires !a.Execute? && !b.Execute?
    requires StepText(a) == StepText(b)
    ensures a == b
  {
    var t := StepText(a);
    PragmaEnding(a);
    PragmaEnding(b);
    match a
    case ForeignKeys(None, on) =>
      assert t[|t| - 3] == (if on then 'u' else 's');
    case ForeignKeys(Some(x), on) =>
      SameSuffix(x, b.target.value, SwitchSuffix(on));
    case ForeignKeyCheck(x) =>
      SameSuffix(x, b.schemaX, ".foreign_key_check;");
  }

  /** What follows the schema name in a schema-prefixed switch. */
  function SwitchSuffix(on: bool): string {
    ".foreign_keys = " + (if on then "on" else "off") + ";"
  }

  /** The character before a pragma's closing `;` tells which pragma it is. */
  function PragmaMark(s: Step): char
    requires !s.Execute?
  {
    match s
    case ForeignKeys(None, _) => 'e'
    case ForeignKeys(Some(_), on) => if on then 'n' else 'f'
    case ForeignKeyCheck(_) => 'k'
  }

  lemma PragmaEnding(s: Step)
    requires !s.Execute?
    ensures |StepText(s)| >= 3 && StepText(s)[|StepText(s)| - 2] == PragmaMark(s)
    ensures s.ForeignKeys? && s.target.None? ==> StepText(s)[|StepText(s)| - 3] == (if s.on then 'u' else 's')
    ensures s.ForeignKeys? && s.target.Some? ==> StepText(s) == s.target.value + SwitchSuffix(s.on)
    ensures s.ForeignKeyCheck? ==> StepText(s) == s.schemaX + ".foreign_key_check;"
  {
  }

  lemma SameSuffix(x: string, y: string, suffix: string)
    requires x + suffix == y + suffix
    ensures x == y
  {
    assert x == (x + suffix)[..|x|];
    assert y == (y + suffix)[..|y|];
  }

  /** Foreign-key enforcement after the steps, starting from `fk`: the last
      switch wins (the setting belongs to the connection). */
  function FkAfter(fk: bool, steps: seq<Step>): bool
    decreases |steps|
  {
    if steps == [] then fk
    else FkAfter(if steps[0].ForeignKeys? then steps[0].on else fk, steps[1..])
  }

  predicate OnlyExecutes(steps: seq<Step>) {
    forall i :: 0 <= i < |steps| ==> steps[i].Execute?
  }

  lemma {:induction false} FkAfterAppend(fk: bool, a: seq<Step>, b: seq<Step>)
    ensures FkAfter(fk, a + b) == FkAfter(FkAfter(fk, a), b)
    decreases |a|
  {
    if a == [] {
      assert a + b == b;
    } else {
      assert (a + b)[1..] == a[1..] + b;
      FkAfterAppend(if a[0].ForeignKeys? then a[0].on else fk, a[1..], b);
    }
  }

  /** Plain statements leave the switch where it was. */
  lemma {:induction false} ExecutesKeepForeignKeys(fk: bool, steps: seq<Step>)
    requires OnlyExecutes(steps)
    ensures FkAfter(fk, steps) == fk
    decreases |steps|
  {
    if steps != [] {
      ExecutesKeepForeignKeys(fk, steps[1..]);
    }
  }
}
