/** The textual rewrite `copy_schema` applies to each stored CREATE statement
    (lib/dba.js:462): `sql.replace(re, "create <type> <to>.")` with the
    case-insensitive pattern `\s*CREATE\s*(TABLE|INDEX|VIEW)\s*`, which
    replaces the first match only. */
module CreatePattern {
  import opened Common

  /** `\s` of a JavaScript regular expression. */
  predicate IsJsSpace(c: char) {
    var n := c as int;
    || (9 <= n <= 13) || n == 0x20 || n == 0xA0 || n == 0x1680 || (0x2000 <= n <= 0x200A)
    || n == 0x2028 || n == 0x2029 || n == 0x202F || n == 0x205F || n == 0x3000 || n == 0xFEFF
  }

  /** `\s*` from `i`: the end of the longest run of spaces. */
  function SkipSpaces(s: string, i: nat): (j: nat)
    requires i <= |s|
    ensures i <= j <= |s|
    decreases |s| - i
  {
    if i < |s| && IsJsSpace(s[i]) then SkipSpaces(s, i + 1) else i
  }

  /** `\s*` consumes spaces only, and stops at a non-space. */
  lemma {:induction false} SkipSpacesSkipsSpaces(s: string, i: nat)
    requires i <= |s|
    ensures forall k :: i <= k < SkipSpaces(s, i) ==> IsJsSpace(s[k])
    ensures SkipSpaces(s, i) == |s| || !IsJsSpace(s[SkipSpaces(s, i)])
    decreases |s| - i
  {
    if i < |s| && IsJsSpace(s[i]) {
      SkipSpacesSkipsSpaces(s, i + 1);
    }
  }

  /** `c` matches the upper-case ASCII letter `u` under the `i` flag. */
  predicate FoldsTo(c: char, u: char) {
    c == u || c as int == u as int + 32
  }

  /** `CREATE` at `i`, ignoring ASCII case. */
  predicate CreateAt(s: string, i: nat) {
    && i + 6 <= |s|
    && FoldsTo(s[i], 'C') && FoldsTo(s[i + 1], 'R') && FoldsTo(s[i + 2], 'E')
    && FoldsTo(s[i + 3], 'A') && FoldsTo(s[i + 4], 'T') && FoldsTo(s[i + 5], 'E')
  }

  /** `TABLE` at `i`, ignoring ASCII case. */
  predicate TableAt(s: string, i: nat) {
    && i + 5 <= |s|
    && FoldsTo(s[i], 'T') && FoldsTo(s[i + 1], 'A') && FoldsTo(s[i + 2], 'B')
    && FoldsTo(s[i + 3], 'L') && FoldsTo(s[i + 4], 'E')
  }

  /** `INDEX` at `i`, ignoring ASCII case. */
  predicate IndexAt(s: string, i: nat) {
    && i + 5 <= |s|
    && FoldsTo(s[i], 'I') && FoldsTo(s[i + 1], 'N') && FoldsTo(s[i + 2], 'D')
    && FoldsTo(s[i + 3], 'E') && FoldsTo(s[i + 4], 'X')
  }

  /** `VIEW` at `i`, ignoring ASCII case. */
  predicate ViewAt(s: string, i: nat) {
    && i + 4 <= |s|
    && FoldsTo(s[i], 'V') && FoldsTo(s[i + 1], 'I') && FoldsTo(s[i + 2], 'E') && FoldsTo(s[i + 3], 'W')
  }

  /** The length of the alternative `(TABLE|INDEX|VIEW)` that matches at `i`,
      or 0. The alternatives start with different letters, so at most one
      matches. */
  function KeywordLength(s: string, i: nat): (k: nat)
    ensures k == 0 || i + k <= |s|
  {
    if TableAt(s, i) then 5
    else if IndexAt(s, i) then 5
    else if ViewAt(s, i) then 4
    else 0
  }

  /** The parts of the pattern, in order. */
  datatype Part = Lead | Create | Gap | Keyword | Trail

  function Rank(p: Part): nat {
    match p
    case Lead => 4
    case Create => 3
    case Gap => 2
    case Keyword => 1
    case Trail => 0
  }

  /** The end of a match of the pattern from `part` on, starting at `p`.
      Every `\s*` is greedy and what follows it cannot start with a space,
      so the regular expression never backtracks and the match is unique. */
  function MatchFrom(s: string, p: nat, part: Part): (e: Option<nat>)
    requires p <= |s|
    ensures e.Some? ==> p <= e.value <= |s|
    ensures e.Some? && part != Trail ==> p < e.value
    decreases |s| - p, Rank(part)
  {
    match part
    case Lead => MatchFrom(s, SkipSpaces(s, p), Create)
    case Create => if CreateAt(s, p) then MatchFrom(s, p + 6, Gap) else None
    case Gap => MatchFrom(s, SkipSpaces(s, p), Keyword)
    case Keyword =>
      var k := KeywordLength(s, p);
      if k == 0 then None else MatchFrom(s, p + k, Trail)
    case Trail => Some(SkipSpaces(s, p))
  }

  /** The end of a match starting at `i`, if the pattern matches there. */
  function MatchAt(s: string, i: nat): (e: Option<nat>)
    requires i <= |s|
    ensures e.Some? ==> i < e.value <= |s|
  {
    MatchFrom(s, i, Lead)
  }

  /** The object type matched at `p` ends in a letter. */
  lemma KeywordEndsInLetter(s: string, p: nat)
    requires KeywordLength(s, p) > 0
    ensures s[p + KeywordLength(s, p) - 1] != '.'
  {
  }

  /** Trailing spaces end in a space, or where they started. */
  lemma TrailEndsBeforeDot(s: string, p: nat)
    requires 0 < p <= |s| && s[p - 1] != '.'
    ensures s[SkipSpaces(s, p) - 1] != '.'
  {
    SkipSpacesSkipsSpaces(s, p);
    if SkipSpaces(s, p) > p {
      assert IsJsSpace(s[SkipSpaces(s, p) - 1]);
    }
  }

  /** A match from `part` on ends in a space or a letter of the object type,
      never in '.'; for the trailing spaces this needs the character before
      them not to be '.'. */
  lemma {:induction false} MatchEndsBeforeDot(s: string, p: nat, part: Part)
    requires p <= |s| && MatchFrom(s, p, part).Some?
    requires part == Trail ==> 0 < p && s[p - 1] != '.'
    ensures s[MatchFrom(s, p, part).value - 1] != '.'
    decreases |s| - p, Rank(part)
  {
    match part
    case Lead => MatchEndsBeforeDot(s, SkipSpaces(s, p), Create);
    case Create => MatchEndsBeforeDot(s, p + 6, Gap);
    case Gap => MatchEndsBeforeDot(s, SkipSpaces(s, p), Keyword);
    case Keyword =>
      KeywordEndsInLetter(s, p);
      MatchEndsBeforeDot(s, p + KeywordLength(s, p), Trail);
    case Trail => TrailEndsBeforeDot(s, p);
  }

  /** The leftmost match at or after `i`, as (start, end). */
  function FindMatch(s: string, i: nat): (r: Option<(nat, nat)>)
    requires i <= |s|
    ensures r.Some? ==> i <= r.value.0 < r.value.1 <= |s|
    decreases |s| - i
  {
    match MatchAt(s, i)
    case Some(e) => Some((i, e))
    case None => if i == |s| then None else FindMatch(s, i + 1)
  }

  /** `FindMatch` finds a match, the leftmost one, and finds none only when
      there is none. */
  lemma {:induction false} FindMatchIsLeftmost(s: string, i: nat)
    requires i <= |s|
    ensures var r := FindMatch(s, i);
      && (r.Some? ==> MatchAt(s, r.value.0) == Some(r.value.1))
      && (r.Some? ==> forall k :: i <= k < r.value.0 ==> MatchAt(s, k).None?)
      && (r.None? ==> forall k :: i <= k <= |s| ==> MatchAt(s, k).None?)
    decreases |s| - i
  {
    if MatchAt(s, i).None? && i < |s| {
      FindMatchIsLeftmost(s, i + 1);
    }
  }

  /** `sql.replace(pattern, "create <kind> <toX>.")`. */
  function RewriteCreate(sql: string, kind: string, toX: string): string {
    match FindMatch(sql, 0)
    case None => sql
    case Some((a, e)) => sql[..a] + "create " + kind + " " + toX + "." + sql[e..]
  }

  /** The rewrite leaves the text unchanged exactly when the pattern does not
      occur: the replacement ends in '.', the matched text does not. */
  lemma RewriteChangesExactlyOnMatch(sql: string, kind: string, toX: string)
    ensures RewriteCreate(sql, kind, toX) == sql <==> FindMatch(sql, 0).None?
  {
    var f := FindMatch(sql, 0);
    if f.Some? {
      var a, e := f.value.0, f.value.1;
      var rep := "create " + kind + " " + toX + ".";
      var r := sql[..a] + rep + sql[e..];
      assert RewriteCreate(sql, kind, toX) == r;
      FindMatchIsLeftmost(sql, 0);
      MatchEndsBeforeDot(sql, a, Lead);
      if |r| == |sql| {
        assert r[e - 1] == rep[|rep| - 1] == '.';
      }
    }
  }

  /** The pattern cannot match where no 'c' or 'C' follows. */
  lemma {:induction false} NoMatchWithoutC(s: string, i: nat)
    requires i <= |s|
    requires forall k :: i <= k < |s| ==> !FoldsTo(s[k], 'C')
    ensures FindMatch(s, i).None?
    decreases |s| - i
  {
    assert MatchFrom(s, SkipSpaces(s, i), Create).None?;
    if i < |s| {
      NoMatchWithoutC(s, i + 1);
    }
  }

  lemma SkipStops(s: string, i: nat)
    requires i < |s| && !IsJsSpace(s[i])
    ensures SkipSpaces(s, i) == i
  {
  }

  lemma SkipStep(s: string, i: nat)
    requires i < |s| && IsJsSpace(s[i])
    ensures SkipSpaces(s, i) == SkipSpaces(s, i + 1)
  {
  }

  /** The type word of a stored statement selects its own alternative. */
  lemma StoredKeyword(s: string, word: string)
    requires word == "TABLE" || word == "INDEX" || word == "VIEW"
    requires 7 + |word| <= |s| && s[7..7 + |word|] == word
    ensures KeywordLength(s, 7) == |word|
  {
    assert s[7] == word[0] && s[8] == word[1] && s[9] == word[2] && s[10] == word[3];
    if word != "VIEW" {
      assert s[11] == word[4];
    }
  }

  /** `\s*CREATE\s*` takes the upper-case, single-spaced `CREATE ` of a
      stored statement. */
  lemma StoredCreateHead(s: string)
    requires 7 < |s| && s[..7] == "CREATE " && !IsJsSpace(s[7])
    ensures MatchFrom(s, 0, Lead) == MatchFrom(s, 7, Keyword)
  {
    assert s[0] == 'C' && s[1] == 'R' && s[2] == 'E' && s[3] == 'A' && s[4] == 'T' && s[5] == 'E';
    assert s[6] == ' ';
    SkipStops(s, 0);
    SkipStep(s, 6);
    SkipStops(s, 7);
    assert MatchFrom(s, 6, Gap) == MatchFrom(s, 7, Keyword);
  }

  /** The pattern matches a stored `CREATE <TYPE> ` prefix whole. */
  lemma StoredCreateMatches(word: string, rest: string)
    requires word == "TABLE" || word == "INDEX" || word == "VIEW"
    requires rest == [] || !IsJsSpace(rest[0])
    ensures MatchAt("CREATE " + word + " " + rest, 0) == Some(8 + |word|)
  {
    var s := "CREATE " + word + " " + rest;
    var n := |word|;
    assert s[..7] == "CREATE ";
    assert s[7..7 + n] == word;
    assert s[7] == word[0] && s[7 + n] == ' ';
    StoredCreateHead(s);
    StoredKeyword(s, word);
    SkipStep(s, 7 + n);
    if 8 + n < |s| {
      assert s[8 + n] == rest[0];
      SkipStops(s, 8 + n);
    }
    assert MatchFrom(s, 7 + n, Trail) == Some(8 + n);
  }

  /** The engine stores a statement with its leading `CREATE <TYPE>` in upper
      case and single-spaced; such a text is rewritten to create the object
      in `toX`, with the rest of the statement kept as it is. */
  lemma RewriteOfStoredCreate(word: string, rest: string, kind: string, toX: string)
    requires word == "TABLE" || word == "INDEX" || word == "VIEW"
    requires rest == [] || !IsJsSpace(rest[0])
    ensures RewriteCreate("CREATE " + word + " " + rest, kind, toX) == "create " + kind + " " + toX + "." + rest
  {
    var s := "CREATE " + word + " " + rest;
    var e := 8 + |word|;
    StoredCreateMatches(word, rest);
    assert FindMatch(s, 0) == Some((0, e));
    assert s[..0] == [] && s[e..] == rest;
    var rep := "create " + kind + " " + toX + ".";
    assert RewriteCreate(s, kind, toX) == [] + rep + rest;
  }

  /** A keyword between CREATE and the object type defeats the pattern, so
      `copy_schema` rejects a unique index with µ49889. */
  lemma UniqueIndexIsNotRewritten(rest: string, kind: string, toX: string)
    requires forall k :: 0 <= k < |rest| ==> !FoldsTo(rest[k], 'C')
    ensures RewriteCreate("CREATE UNIQUE INDEX " + rest, kind, toX) == "CREATE UNIQUE INDEX " + rest
  {
    var s := "CREATE UNIQUE INDEX " + rest;
    assert s[..20] == "CREATE UNIQUE INDEX ";
    assert s[0] == 'C' && s[6] == ' ' && s[7] == 'U';
    SkipStops(s, 0);
    SkipStep(s, 6);
    SkipStops(s, 7);
    assert KeywordLength(s, 7) == 0;
    assert MatchFrom(s, 7, Keyword).None?;
    assert MatchFrom(s, 0, Create).None?;
    forall k | 1 <= k < |s|
      ensures !FoldsTo(s[k], 'C')
    {
      if k >= 20 {
        assert s[k] == rest[k - 20];
      } else {
        assert s[k] == s[..20][k];
      }
    }
    NoMatchWithoutC(s, 1);
  }
}
