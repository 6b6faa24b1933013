/** Rendering of identifiers and values as SQL source text (lib/dba.js,
    "SQL CONSTRUCTION"). Both quoted forms follow the doubled-quote rule of
    ISO/IEC 9075-2, subclause 5.2 (<delimited identifier>, where a double
    quote inside the identifier is written twice) and subclause 5.3
    (<character string literal>, where a single quote inside the literal is
    written twice). */
module SqlText {
  import opened Common

  /** The text with every occurrence of the quote character `q` written twice. */
  function Double(s: string, q: char): string {
    if s == [] then []
    else (if s[0] == q then [q, q] else [s[0]]) + Double(s[1..], q)
  }

  /** Doubling adds one character per quote. */
  lemma {:induction false} DoubleLength(s: string, q: char)
    ensures |Double(s, q)| == |s| + multiset(s)[q]
    decreases |s|
  {
    if s != [] {
      DoubleLength(s[1..], q);
      assert s == [s[0]] + s[1..];
      assert multiset(s) == multiset([s[0]]) + multiset(s[1..]);
    }
  }

  /** Text without the quote character is left as it is. */
  lemma {:induction false} DoubleWithoutQuote(s: string, q: char)
    requires q !in s
    ensures Double(s, q) == s
    decreases |s|
  {
    if s != [] {
      assert q !in s[1..];
      DoubleWithoutQuote(s[1..], q);
      assert s == [s[0]] + s[1..];
    }
  }

  function Cons(c: char, o: Option<string>): Option<string> {
    match o
    case None => None
    case Some(t) => Some([c] + t)
  }

  /** Reads back a doubled text: every `q` must be followed by a second `q`,
      and the pair stands for one `q`. A lone `q` makes the text unreadable. */
  function Undouble(s: string, q: char): Option<string>
    decreases |s|
  {
    if s == [] then Some([])
    else if s[0] != q then Cons(s[0], Undouble(s[1..], q))
    else if |s| >= 2 && s[1] == q then Cons(q, Undouble(s[2..], q))
    else None
  }

  lemma {:induction false} UndoubleOfDouble(s: string, q: char)
    ensures Undouble(Double(s, q), q) == Some(s)
    decreases |s|
  {
    if s != [] {
      UndoubleOfDouble(s[1..], q);
      var rest := Double(s[1..], q);
      if s[0] == q {
        assert Double(s, q) == [q, q] + rest;
        assert ([q, q] + rest)[2..] == rest;
      } else {
        assert Double(s, q) == [s[0]] + rest;
        assert ([s[0]] + rest)[1..] == rest;
      }
      assert s == [s[0]] + s[1..];
    }
  }

  /** The converse: whatever reads back, doubles back to the text it was read from. */
  lemma {:induction false} DoubleOfUndouble(u: string, q: char)
    requires Undouble(u, q).Some?
    ensures Double(Undouble(u, q).value, q) == u
    decreases |u|
  {
    if u != [] {
      if u[0] != q {
        DoubleOfUndouble(u[1..], q);
        var t := Undouble(u[1..], q).value;
        assert Undouble(u, q).value == [u[0]] + t;
        assert ([u[0]] + t)[1..] == t;
        assert u == [u[0]] + u[1..];
      } else {
        DoubleOfUndouble(u[2..], q);
        var t := Undouble(u[2..], q).value;
        assert Undouble(u, q).value == [q] + t;
        assert ([q] + t)[1..] == t;
        assert u == [q, q] + u[2..];
      }
    }
  }

  /** `q`, the text with `q` doubled, `q`. */
  function Quote(s: string, q: char): string {
    [q] + Double(s, q) + [q]
  }

  /** Lexes one quoted token from the body after its opening quote: the
      content up to the closing quote (with doubled quotes read as one) and
      the text after the closing quote. */
  function ScanBody(s: string, q: char): Option<(string, string)>
    decreases |s|
  {
    if s == [] then None
    else if s[0] != q then
      match ScanBody(s[1..], q)
      case None => None
      case Some(p) => Some(([s[0]] + p.0, p.1))
    else if |s| >= 2 && s[1] == q then
      match ScanBody(s[2..], q)
      case None => None
      case Some(p) => Some(([q] + p.0, p.1))
    else Some(([], s[1..]))
  }

  /** How an SQL lexer reads a token delimited by `q` at the start of `s`. */
  function ScanQuoted(s: string, q: char): Option<(string, string)> {
    if |s| > 0 && s[0] == q then ScanBody(s[1..], q) else None
  }

  lemma {:induction false} ScanBodyOfDouble(t: string, q: char, rest: string)
    requires rest == [] || rest[0] != q
    ensures ScanBody(Double(t, q) + [q] + rest, q) == Some((t, rest))
    decreases |t|
  {
    if t == [] {
      ScanBodyClose(Double(t, q) + [q] + rest, q, rest);
    } else {
      ScanBodyOfDouble(t[1..], q, rest);
      if t[0] == q {
        ScanBodyQuoteStep(t, q, rest);
      } else {
        ScanBodyPlainStep(t, q, rest);
      }
    }
  }

  lemma ScanBodyQuoteStep(t: string, q: char, rest: string)
    requires t != [] && t[0] == q
    requires ScanBody(Double(t[1..], q) + [q] + rest, q) == Some((t[1..], rest))
    ensures ScanBody(Double(t, q) + [q] + rest, q) == Some((t, rest))
  {
    var tail := Double(t[1..], q) + [q] + rest;
    assert Double(t, q) == [q, q] + Double(t[1..], q);
    ScanBodyPair(Double(t, q) + [q] + rest, q, tail);
    assert t == [q] + t[1..];
  }

  lemma ScanBodyPlainStep(t: string, q: char, rest: string)
    requires t != [] && t[0] != q
    requires ScanBody(Double(t[1..], q) + [q] + rest, q) == Some((t[1..], rest))
    ensures ScanBody(Double(t, q) + [q] + rest, q) == Some((t, rest))
  {
    var tail := Double(t[1..], q) + [q] + rest;
    assert Double(t, q) == [t[0]] + Double(t[1..], q);
    ScanBodyPlain(Double(t, q) + [q] + rest, q, tail);
    assert t == [t[0]] + t[1..];
  }

  lemma ScanBodyClose(s: string, q: char, rest: string)
    requires rest == [] || rest[0] != q
    requires s == [q] + rest
    ensures ScanBody(s, q) == Some(([], rest))
  {
    assert s[1..] == rest;
  }

  lemma ScanBodyPair(s: string, q: char, tail: string)
    requires s == [q, q] + tail
    ensures ScanBody(s, q) == match ScanBody(tail, q)
      case None => None
      case Some(p) => Some(([q] + p.0, p.1))
  {
    assert s[2..] == tail;
  }

  lemma ScanBodyPlain(s: string, q: char, tail: string)
    requires |s| > 0 && s[0] != q && s == [s[0]] + tail
    ensures ScanBody(s, q) == match ScanBody(tail, q)
      case None => None
      case Some(p) => Some(([s[0]] + p.0, p.1))
  {
    assert s[1..] == tail;
  }

  /** A quoted token ends exactly where the quoting put its closing quote,
      whatever the text contains and whatever follows (unless that starts
      with the same quote, which would continue the token). */
  lemma QuotedTokenEnds(t: string, q: char, rest: string)
    requires rest == [] || rest[0] != q
    ensures ScanQuoted(Quote(t, q) + rest, q) == Some((t, rest))
  {
    var s := Quote(t, q) + rest;
    assert s == [q] + (Double(t, q) + [q] + rest);
    assert s[1..] == Double(t, q) + [q] + rest;
    ScanBodyOfDouble(t, q, rest);
  }

  /** `as_identifier`: a delimited identifier for any name. */
  function AsIdentifier(text: string): string {
    Quote(text, '"')
  }

  /** An identifier is the name between double quotes, each inner quote
      doubled, and it reads back as exactly the name. */
  lemma AsIdentifierReadsBack(text: string)
    ensures var r := AsIdentifier(text);
      && |r| == |text| + 2 + multiset(text)['"']
      && r[0] == '"' && r[|r| - 1] == '"'
      && Undouble(r[1..|r| - 1], '"') == Some(text)
  {
    UndoubleOfDouble(text, '"');
    DoubleLength(text, '"');
    var r := Quote(text, '"');
    assert r[1..|r| - 1] == Double(text, '"');
  }

  /** `escape_text`: the body of a character string literal. */
  function EscapeText(x: string): string {
    Double(x, '\'')
  }

  /** The escaped body is the text with each single quote doubled, and it
      reads back as exactly the text. */
  lemma EscapeTextReadsBack(x: string)
    ensures |EscapeText(x)| == |x| + multiset(x)['\'']
    ensures Undouble(EscapeText(x), '\'') == Some(x)
  {
    UndoubleOfDouble(x, '\'');
    DoubleLength(x, '\'');
  }

  /** The two renderings the layer borrows from the runtime, which are not
      part of this model: a number's `toString()` and a list's JSON text.
      `json` answers `None` where `JSON.stringify` throws (a BigInt element,
      a cyclic list). */
  datatype Formats = Formats(number: real -> string, json: seq<Value> -> Option<string>)

  /** `as_sql`: the SQL literal for a value, or the error for a kind that has none. */
  function AsSql(fmt: Formats, x: Value): (r: Result<string>)
    ensures r.Ok? <==> !(x.Undefined? || x.Other? || (x.List? && fmt.json(x.items).None?))
    ensures x.Undefined? ==> r == Err(UndefinedLiteral)
    ensures x.Other? ==> r == Err(UnsupportedLiteral(x.kind))
    ensures x.Text? ==> r.Ok? && ScanQuoted(r.value, '\'') == Some((x.text, []))
    ensures x.List? && fmt.json(x.items).None? ==> r == Err(NotSerializable)
    ensures x.List? && fmt.json(x.items).Some? ==> r == Ok("'" + fmt.json(x.items).value + "'")
    ensures x.Float? ==> r == Ok(fmt.number(x.number))
    ensures x.Boolean? ==> r == Ok(if x.truth then "1" else "0")
    ensures x.Null? ==> r == Ok("null")
  {
    match x
    case Text(s) =>
      QuotedTokenEnds(s, '\'', []);
      assert "'" + EscapeText(s) + "'" == Quote(s, '\'') + [];
      Ok("'" + EscapeText(s) + "'")
    case List(items) =>
      if fmt.json(items).None? then Err(NotSerializable) else Ok("'" + fmt.json(items).value + "'")
    case Float(n) => Ok(fmt.number(n))
    case Boolean(b) => Ok(if b then "1" else "0")
    case Null => Ok("null")
    case Undefined => Err(UndefinedLiteral)
    case Other(kind) => Err(UnsupportedLiteral(kind))
  }

  /** A text value's literal is the quoted text, so it reads back as that text
      even when it is followed by more SQL. */
  lemma TextLiteralToken(fmt: Formats, s: string, rest: string)
    requires rest == [] || rest[0] != '\''
    ensures AsSql(fmt, Text(s)) == Ok(Quote(s, '\''))
    ensures ScanQuoted(AsSql(fmt, Text(s)).value + rest, '\'') == Some((s, rest))
  {
    QuotedTokenEnds(s, '\'', rest);
  }

  /** A list literal is the JSON text between single quotes, without
      escaping: a single quote inside the JSON text ends the token there, and
      the rest of the JSON text is left over as SQL. */
  lemma {:induction false} ListLiteralEndsAtFirstQuote(fmt: Formats, items: seq<Value>, a: string, b: string)
    requires fmt.json(items) == Some(a + "'" + b)
    requires '\'' !in a
    requires b != [] && b[0] != '\''
    ensures AsSql(fmt, List(items)).Ok?
    ensures ScanQuoted(AsSql(fmt, List(items)).value, '\'') == Some((a, b + "'"))
    ensures ScanQuoted(AsSql(fmt, List(items)).value, '\'') != Some((fmt.json(items).value, []))
  {
    var r := AsSql(fmt, List(items)).value;
    assert r == "'" + fmt.json(items).value + "'";
    DoubleWithoutQuote(a, '\'');
    ScanBodyOfDouble(a, '\'', b + "'");
    assert r[1..] == Double(a, '\'') + ['\''] + (b + "'");
  }

  /** The list `["it's"]` renders as `'["it's"]'`, which an SQL lexer reads
      as the literal `["it` followed by the SQL text `s"]'`. */
  lemma ListLiteralExample(fmt: Formats)
    requires fmt.json([Text("it's")]) == Some("[\"it's\"]")
    ensures ScanQuoted(AsSql(fmt, List([Text("it's")])).value, '\'') == Some(("[\"it", "s\"]'"))
  {
    assert "[\"it's\"]" == "[\"it" + "'" + "s\"]";
    ListLiteralEndsAtFirstQuote(fmt, [Text("it's")], "[\"it", "s\"]");
    assert "s\"]" + "'" == "s\"]'";
  }

  /** The statement `attach` builds. */
  function AttachSql(v: Validators, path: string, schema: string): (r: Result<string>)
    ensures r.Ok? <==> v.path(path) && v.schema(schema)
    ensures !v.path(path) ==> r == Err(InvalidPath(path))
    ensures v.path(path) && !v.schema(schema) ==> r == Err(InvalidSchema(schema))
  {
    if !v.path(path) then Err(InvalidPath(path))
    else if !v.schema(schema) then Err(InvalidSchema(schema))
    else Ok("attach " + Quote(path, '\'') + " as " + AsIdentifier(schema) + ";")
  }

  /** Whatever characters the path and the schema name contain, the attach
      statement reads back as exactly that path and that schema name. */
  lemma AttachNamesPathAndSchema(v: Validators, path: string, schema: string)
    requires v.path(path) && v.schema(schema)
    ensures var sql := AttachSql(v, path, schema).value;
      && sql[..7] == "attach "
      && ScanQuoted(sql[7..], '\'') == Some((path, " as " + AsIdentifier(schema) + ";"))
      && ScanQuoted(AsIdentifier(schema) + ";", '"') == Some((schema, ";"))
  {
    var sql := AttachSql(v, path, schema).value;
    var tail := " as " + AsIdentifier(schema) + ";";
    assert sql == "attach " + (Quote(path, '\'') + tail);
    assert sql[7..] == Quote(path, '\'') + tail;
    QuotedTokenEnds(path, '\'', tail);
    QuotedTokenEnds(schema, '"', ";");
  }
}
