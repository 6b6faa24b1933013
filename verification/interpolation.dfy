/** `interpolate` (lib/dba.js:553-563): textual substitution of `$name`
    placeholders by SQL literals, with the placeholder pattern of
    lib/dba.js:586, `/\$(?:(.+?)\b|\{([^}]+)\})/g`, followed exactly.

    The first alternative is tried first: a lazy run of at least one
    character other than a line terminator, up to the first word boundary.
    Only when it fails is the braced alternative tried; its capture is the
    second group, while the replacer reads only the first, so the binding is
    looked up under JavaScript's `Q[undefined]`, that is the key "undefined". */
module Interpolation {
  import opened Common
  import opened SqlText

  /** `\w` of a JavaScript regular expression without the `u` flag. */
  predicate IsWordChar(c: char) {
    ('a' <= c <= 'z') || ('A' <= c <= 'Z') || ('0' <= c <= '9') || c == '_'
  }

  /** The characters `.` does not match. */
  predicate IsLineTerminator(c: char) {
    c == '\n' || c == '\r' || c == '\U{2028}' || c == '\U{2029}'
  }

  /** `\b` between positions k - 1 and k (the end of the text counts as a non-word character). */
  predicate IsBoundary(s: string, k: nat)
    requires 0 < k <= |s|
  {
    IsWordChar(s[k - 1]) != (k < |s| && IsWordChar(s[k]))
  }

  /** The first alternative `\$(.+?)\b` anchored at the `$` that starts `s`:
      `.+?` has consumed s[1..k]; it stops at the first boundary and cannot
      cross a line terminator. The result is where the match ends. */
  function LazyNameEnd(s: string, k: nat): (r: Option<nat>)
    requires 2 <= k
    ensures r.Some? ==> k <= r.value <= |s| && IsBoundary(s, r.value)
    decreases |s| + 1 - k
  {
    if k > |s| then None
    else if IsLineTerminator(s[k - 1]) then None
    else if IsBoundary(s, k) then Some(k)
    else LazyNameEnd(s, k + 1)
  }

  /** The first index at or after `i` holding `c`. */
  function IndexOf(s: string, c: char, i: nat): (r: Option<nat>)
    ensures r.Some? ==> i <= r.value < |s| && s[r.value] == c
    ensures r.Some? ==> forall j :: i <= j < r.value ==> s[j] != c
    ensures r.None? ==> forall j :: i <= j < |s| ==> s[j] != c
    decreases |s| - i
  {
    if i >= |s| then None
    else if s[i] == c then Some(i)
    else IndexOf(s, c, i + 1)
  }

  /** A match of the placeholder pattern: its length, and the first capture
      group (absent when the braced alternative matched). */
  datatype Placeholder = Placeholder(length: nat, name: Option<string>)

  function MatchPlaceholder(s: string): (r: Option<Placeholder>)
    requires |s| > 0 && s[0] == '$'
    ensures r.Some? ==> 2 <= r.value.length <= |s|
  {
    match LazyNameEnd(s, 2)
    case Some(k) => Some(Placeholder(k, Some(s[1..k])))
    case None =>
      if |s| >= 2 && s[1] == '{' then
        match IndexOf(s, '}', 2)
        case Some(j) => if j >= 3 then Some(Placeholder(j + 1, None)) else None
        case None => None
      else None
  }

  /** The property key `Q[$1]` reads: an undefined capture becomes "undefined". */
  function KeyOf(name: Option<string>): string {
    match name
    case Some(n) => n
    case None => "undefined"
  }

  /** `Q[key]` on a plain object: an absent key reads as undefined. */
  function Lookup(bindings: map<string, Value>, key: string): Value {
    if key in bindings then bindings[key] else Undefined
  }

  function Prefix(t: string, r: Result<string>): Result<string> {
    match r
    case Ok(u) => Ok(t + u)
    case Err(e) => Err(e)
  }

  /** `interpolate(sql, Q)`: scanning left to right, each placeholder match is
      replaced by the SQL literal of its binding; the first binding without a
      literal aborts the whole call with µ55563 naming the placeholder. */
  function Interpolate(fmt: Formats, sql: string, bindings: map<string, Value>): (r: Result<string>)
    ensures '$' !in sql ==> r == Ok(sql)
    decreases |sql|
  {
    if sql == [] then Ok([])
    else if sql[0] != '$' then
      assert '$' !in sql ==> '$' !in sql[1..];
      assert sql == [sql[0]] + sql[1..];
      Prefix([sql[0]], Interpolate(fmt, sql[1..], bindings))
    else
      match MatchPlaceholder(sql)
      case None => Prefix("$", Interpolate(fmt, sql[1..], bindings))
      case Some(p) =>
        match AsSql(fmt, Lookup(bindings, KeyOf(p.name)))
        case Err(e) => Err(PlaceholderFailed(p.name, e))
        case Ok(literal) => Prefix(literal, Interpolate(fmt, sql[p.length..], bindings))
  }

  /** A character other than `$` is copied and the scan moves on. */
  lemma LiteralStep(fmt: Formats, s: string, bindings: map<string, Value>)
    requires |s| > 0 && s[0] != '$'
    ensures Interpolate(fmt, s, bindings) == Prefix([s[0]], Interpolate(fmt, s[1..], bindings))
  {
  }

  lemma PrefixPrefix(a: string, b: string, r: Result<string>)
    ensures Prefix(a, Prefix(b, r)) == Prefix(a + b, r)
  {
    if r.Ok? {
      assert a + (b + r.value) == (a + b) + r.value;
    }
  }

  /** Text before the first `$` is copied through unchanged. */
  lemma {:induction false} InterpolateLiteralPrefix(fmt: Formats, t: string, u: string, bindings: map<string, Value>)
    requires '$' !in t
    ensures Interpolate(fmt, t + u, bindings) == Prefix(t, Interpolate(fmt, u, bindings))
    decreases |t|
  {
    if t == [] {
      assert t + u == u;
      var r := Interpolate(fmt, u, bindings);
      if r.Ok? {
        assert t + r.value == r.value;
      }
    } else {
      var s := t + u;
      assert s[0] == t[0] && s[1..] == t[1..] + u;
      assert '$' !in t[1..];
      LiteralStep(fmt, s, bindings);
      InterpolateLiteralPrefix(fmt, t[1..], u, bindings);
      PrefixPrefix([t[0]], t[1..], Interpolate(fmt, u, bindings));
      assert [t[0]] + t[1..] == t;
    }
  }

  /** A placeholder starting with a word character takes the maximal run of
      word characters as its name. */
  lemma {:induction false} NameRunFrom(s: string, j: nat, k: nat)
    requires 2 <= j <= k <= |s|
    requires forall i :: 1 <= i < k ==> IsWordChar(s[i])
    requires k == |s| || !IsWordChar(s[k])
    ensures LazyNameEnd(s, j) == Some(k)
    decreases k - j
  {
    assert !IsLineTerminator(s[j - 1]);
    if j < k {
      assert !IsBoundary(s, j);
      NameRunFrom(s, j + 1, k);
    } else {
      assert IsBoundary(s, j);
    }
  }

  lemma NameRun(s: string, k: nat)
    requires |s| > 0 && s[0] == '$'
    requires 2 <= k <= |s|
    requires forall i :: 1 <= i < k ==> IsWordChar(s[i])
    requires k == |s| || !IsWordChar(s[k])
    ensures MatchPlaceholder(s) == Some(Placeholder(k, Some(s[1..k])))
  {
    NameRunFrom(s, 2, k);
  }

  /** A `$name` followed by a non-word character (or nothing) is replaced by
      the literal of the name's binding. */
  lemma HoleStep(fmt: Formats, n: string, rest: string, bindings: map<string, Value>)
    requires IsName(n)
    requires rest == [] || !IsWordChar(rest[0])
    ensures var lit := AsSql(fmt, Lookup(bindings, n));
      Interpolate(fmt, "$" + n + rest, bindings)
        == if lit.Err? then Err(PlaceholderFailed(Some(n), lit.error)) else Prefix(lit.value, Interpolate(fmt, rest, bindings))
  {
    var s := "$" + n + rest;
    var k := |n| + 1;
    assert s[1..k] == n;
    assert s[k..] == rest;
    assert forall i :: 1 <= i < k ==> s[i] == n[i - 1];
    assert k < |s| ==> s[k] == rest[0];
    NameRun(s, k);
  }

  /** A reference reading of a template: literal text and `$name` holes. */
  datatype Piece = Lit(text: string) | Hole(name: string)

  function Template(ps: seq<Piece>): string
    decreases |ps|
  {
    if ps == [] then []
    else
      match ps[0]
      case Lit(t) => t + Template(ps[1..])
      case Hole(n) => "$" + n + Template(ps[1..])
  }

  /** Filling each hole with its binding's literal, failing at the first
      hole whose binding has none. */
  function Fill(fmt: Formats, ps: seq<Piece>, bindings: map<string, Value>): Result<string>
    decreases |ps|
  {
    if ps == [] then Ok([])
    else
      match ps[0]
      case Lit(t) => Prefix(t, Fill(fmt, ps[1..], bindings))
      case Hole(n) =>
        match AsSql(fmt, Lookup(bindings, n))
        case Err(e) => Err(PlaceholderFailed(Some(n), e))
        case Ok(literal) => Prefix(literal, Fill(fmt, ps[1..], bindings))
  }

  predicate IsName(n: string) {
    |n| > 0 && forall i :: 0 <= i < |n| ==> IsWordChar(n[i])
  }

  /** Literals hold no `$`; holes are word-character names not directly
      followed by another word character. */
  predicate WellFormed(ps: seq<Piece>)
    decreases |ps|
  {
    ps == [] ||
    match ps[0]
    case Lit(t) => '$' !in t && WellFormed(ps[1..])
    case Hole(n) =>
      var after := Template(ps[1..]);
      IsName(n) && (after == [] || !IsWordChar(after[0])) && WellFormed(ps[1..])
  }

  /** On a well-formed template, `interpolate` is hole-by-hole filling: each
      `$name` is replaced by the literal of its binding and the text around
      the holes is preserved. */
  lemma {:induction false} InterpolateTemplate(fmt: Formats, ps: seq<Piece>, bindings: map<string, Value>)
    requires WellFormed(ps)
    ensures Interpolate(fmt, Template(ps), bindings) == Fill(fmt, ps, bindings)
    decreases |ps|
  {
    if ps != [] {
      var rest := Template(ps[1..]);
      InterpolateTemplate(fmt, ps[1..], bindings);
      match ps[0]
      case Lit(t) =>
        InterpolateLiteralPrefix(fmt, t, rest, bindings);
      case Hole(n) =>
        HoleStep(fmt, n, rest, bindings);
    }
  }

  /** One placeholder between two pieces of text: the text on both sides is
      kept and the placeholder becomes its binding's literal. */
  lemma SinglePlaceholder(fmt: Formats, before: string, name: string, after: string, bindings: map<string, Value>)
    requires '$' !in before && '$' !in after
    requires IsName(name)
    requires after == [] || !IsWordChar(after[0])
    ensures var lit := AsSql(fmt, Lookup(bindings, name));
      Interpolate(fmt, before + "$" + name + after, bindings)
        == if lit.Err? then Err(PlaceholderFailed(Some(name), lit.error)) else Ok(before + lit.value + after)
  {
    var s := "$" + name + after;
    assert before + "$" + name + after == before + s;
    InterpolateLiteralPrefix(fmt, before, s, bindings);
    HoleStep(fmt, name, after, bindings);
    match AsSql(fmt, Lookup(bindings, name))
    case Err(e) =>
    case Ok(literal) => assert before + (literal + after) == before + literal + after;
  }

  /** `interpolate("select $x;", {x: 5})` gives `select 5;`. */
  lemma SelectExample(fmt: Formats)
    ensures Interpolate(fmt, "select $x;", map["x" := Float(5.0)]) == Ok("select " + fmt.number(5.0) + ";")
  {
    assert "select $x;" == "select " + "$" + "x" + ";";
    SinglePlaceholder(fmt, "select ", "x", ";", map["x" := Float(5.0)]);
  }

  /** An undefined binding fails the call with µ55563 naming the placeholder. */
  lemma UndefinedExample(fmt: Formats)
    ensures Interpolate(fmt, "select $x;", map["x" := Undefined])
         == Err(PlaceholderFailed(Some("x"), UndefinedLiteral))
  {
    assert "select $x;" == "select " + "$" + "x" + ";";
    SinglePlaceholder(fmt, "select ", "x", ";", map["x" := Undefined]);
  }

  /** The query `column_types` builds (lib/dba.js:364): the table name becomes
      a quoted string literal. */
  lemma ColumnTypesQuery(fmt: Formats, table: string)
    ensures Interpolate(fmt, "pragma table_info( $table );", map["table" := Text(table)])
         == Ok("pragma table_info( " + Quote(table, '\'') + " );")
  {
    assert "pragma table_info( $table );" == "pragma table_info( " + "$" + "table" + " );";
    SinglePlaceholder(fmt, "pragma table_info( ", "table", " );", map["table" := Text(table)]);
    TextLiteralToken(fmt, table, []);
  }

  /** The braced form does not work as a name: in `${x}` the first
      alternative already matches `${`, so the key read is "{" and the text
      `x}` stays; binding `x` does not help. */
  lemma BracedNameQuirk(fmt: Formats)
    ensures MatchPlaceholder("${x}") == Some(Placeholder(2, Some("{")))
    ensures Interpolate(fmt, "${x}", map["x" := Text("a")])
         == Err(PlaceholderFailed(Some("{"), UndefinedLiteral))
  {
    var s := "${x}";
    assert !IsLineTerminator(s[1]) && IsBoundary(s, 2);
    assert s[1..2] == "{";
  }

  /** The braced alternative is reached only when the first one fails, as in
      `${-}` at the end of the text; its name is then undefined and the
      binding read is the one under the key "undefined". */
  lemma UndefinedKeyQuirk(fmt: Formats)
    ensures MatchPlaceholder("${-}") == Some(Placeholder(4, None))
    ensures Interpolate(fmt, "${-}", map["undefined" := Boolean(true)]) == Ok("1")
  {
    var s := "${-}";
    assert !IsBoundary(s, 2) && !IsBoundary(s, 3) && !IsBoundary(s, 4);
    assert LazyNameEnd(s, 2) == None;
    assert IndexOf(s, '}', 2) == Some(3);
    assert MatchPlaceholder(s) == Some(Placeholder(4, None));
    assert AsSql(fmt, Lookup(map["undefined" := Boolean(true)], KeyOf(None))) == Ok("1");
    assert s[4..] == [];
    assert Interpolate(fmt, s[4..], map["undefined" := Boolean(true)]) == Ok([]);
    assert "1" + [] == "1";
  }
}
