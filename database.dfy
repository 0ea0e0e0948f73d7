/** The database manager: SQL parameters are written into the statement
    text before it is posted to the Turso HTTP endpoint, the JSON reply is
    turned into row dictionaries, and the query helpers turn every
    exception into an empty or negative answer. */
module Database {
  import opened Wrappers
  import opened Text

  // ---------------------------------------------------------------------
  // Parameter rendering

  /** The Python values the helpers pass as parameters. */
  datatype Param = Null | Str(s: string) | Flag(b: bool) | Number(n: int)

  /** param.replace("'", "''"). */
  function DoubleQuotes(s: string): (r: string)
    ensures |r| >= |s|
  {
    if s == [] then []
    else (if s[0] == '\'' then "''" else [s[0]]) + DoubleQuotes(s[1..])
  }

  /** The SQL text of one parameter: NULL, a quoted string with its quotes
      doubled, 1 or 0 for a boolean, str() of a number. */
  function Render(p: Param): (r: string)
    ensures p.Str? ==> |r| >= 2 && r[0] == '\'' && r[|r| - 1] == '\''
    ensures p.Null? ==> r == "NULL"
    ensures p.Flag? ==> r == (if p.b then "1" else "0")
  {
    match p
    case Null => "NULL"
    case Str(s) => "'" + DoubleQuotes(s) + "'"
    case Flag(b) => if b then "1" else "0"
    case Number(n) => IntToString(n)
  }

  /** How SQL reads the body of a string literal after its opening quote:
      '' stands for one quote and a lone quote ends the literal. The result
      is the literal's value and the text after it. */
  function ReadQuoted(t: string): Option<(string, string)>
    decreases |t|
  {
    if t == [] then None
    else if t[0] == '\'' then
      if |t| >= 2 && t[1] == '\'' then
        match ReadQuoted(t[2..])
        case None => None
        case Some((v, rest)) => Some(("'" + v, rest))
      else Some(([], t[1..]))
    else
      match ReadQuoted(t[1..])
      case None => None
      case Some((v, rest)) => Some(([t[0]] + v, rest))
  }

  lemma {:induction false} ReadQuotedDoubled(s: string, rest: string)
    requires rest == [] || rest[0] != '\''
    ensures ReadQuoted(DoubleQuotes(s) + "'" + rest) == Some((s, rest))
  {
    if s == [] {
      var t := DoubleQuotes(s) + "'" + rest;
      assert t == "'" + rest;
      assert t[1..] == rest;
    } else {
      ReadQuotedDoubled(s[1..], rest);
      ReadQuotedDoubledStep(s, rest);
    }
  }

  /** The first character of the string, doubled if it is a quote, is
      read back in front of the rest. */
  lemma {:induction false} ReadQuotedDoubledStep(s: string, rest: string)
    requires s != []
    requires ReadQuoted(DoubleQuotes(s[1..]) + "'" + rest) == Some((s[1..], rest))
    ensures ReadQuoted(DoubleQuotes(s) + "'" + rest) == Some((s, rest))
  {
    var tail := DoubleQuotes(s[1..]) + "'" + rest;
    assert s == [s[0]] + s[1..];
    if s[0] == '\'' {
      assert DoubleQuotes(s) + "'" + rest == "''" + tail;
      ReadQuotedEscaped(tail);
    } else {
      assert DoubleQuotes(s) + "'" + rest == [s[0]] + tail;
      ReadQuotedPlain(s[0], tail);
    }
  }

  /** A doubled quote stands for one quote, and reading goes on after it. */
  lemma {:induction false} ReadQuotedEscaped(tail: string)
    ensures ReadQuoted("''" + tail) ==
      match ReadQuoted(tail)
      case None => None
      case Some((v, rest)) => Some(("'" + v, rest))
  {
    assert ("''" + tail)[2..] == tail;
  }

  /** Any other character is kept, and reading goes on after it. */
  lemma {:induction false} ReadQuotedPlain(c: char, tail: string)
    requires c != '\''
    ensures ReadQuoted([c] + tail) ==
      match ReadQuoted(tail)
      case None => None
      case Some((v, rest)) => Some(([c] + v, rest))
  {
    assert ([c] + tail)[1..] == tail;
  }

  /** A rendered string parameter is read back by SQL as exactly that
      string, and the literal ends where the rendering ends, provided the
      text after it does not start with another quote. */
  lemma {:induction false} RenderedStringReadsBack(s: string, rest: string)
    requires rest == [] || rest[0] != '\''
    ensures var r := Render(Str(s)) + rest;
      r[0] == '\'' && ReadQuoted(r[1..]) == Some((s, rest))
  {
    var r := Render(Str(s)) + rest;
    assert r[1..] == DoubleQuotes(s) + "'" + rest;
    ReadQuotedDoubled(s, rest);
  }

  /** The rendered parameters, in order. */
  function RenderAll(params: seq<Param>): (safe: seq<string>)
    ensures |safe| == |params|
    ensures forall i :: 0 <= i < |params| ==> safe[i] == Render(params[i])
  {
    if params == [] then [] else [Render(params[0])] + RenderAll(params[1..])
  }

  /** The loop that builds safe_params. */
  method RenderParams(params: seq<Param>) returns (safe: seq<string>)
    ensures safe == RenderAll(params)
  {
    safe := [];
    for i := 0 to |params|
      invariant |safe| == i
      invariant forall j :: 0 <= j < i ==> safe[j] == Render(params[j])
    {
      safe := safe + [Render(params[i])];
    }
  }

  // ---------------------------------------------------------------------
  // '?' substitution

  /** final_query.replace('?', param, 1) for each rendered parameter in
      turn: each step searches the whole text, including the parameters
      already written into it. */
  function SubstituteAsWritten(query: string, safe: seq<string>): string
    decreases |safe|
  {
    if safe == [] then query
    else SubstituteAsWritten(ReplaceFirst(query, '?', safe[0]), safe[1..])
  }

  /** The substitution loop of execute_query. */
  method Substitute(query: string, safe: seq<string>) returns (final: string)
    ensures final == SubstituteAsWritten(query, safe)
  {
    final := query;
    for i := 0 to |safe|
      invariant SubstituteAsWritten(final, safe[i..]) == SubstituteAsWritten(query, safe)
    {
      assert safe[i..][1..] == safe[i + 1..];
      final := ReplaceFirst(final, '?', safe[i]);
    }
  }

  /** The statement text execute_query builds, as written. */
  function StatementAsWritten(query: string, params: Option<seq<Param>>): string {
    if params.Some? && params.value != [] then
      SubstituteAsWritten(query, RenderAll(params.value))
    else query
  }

  /** The statement text with each of the query's own marks taken by the
      next parameter: the intended text, the reference the substitution as
      written is measured against. */
  function StatementText(query: string, params: Option<seq<Param>>): string {
    if params.Some? && params.value != [] then
      Positional(query, RenderAll(params.value))
    else query
  }

  /** No rendered parameter holds a '?'. */
  predicate MarkFreeParams(params: Option<seq<Param>>) {
    params.Some? ==> forall k :: 0 <= k < |params.value| ==> '?' !in Render(params.value[k])
  }

  /** The statement-building half of execute_query: without parameters, or
      with an empty tuple, the query is sent as it is; when no rendered
      parameter holds a '?', the text is the intended one. */
  method FinalQuery(query: string, params: Option<seq<Param>>) returns (final: string)
    ensures final == StatementAsWritten(query, params)
    ensures params.None? || params.value == [] ==> final == query
    ensures MarkFreeParams(params) ==> final == StatementText(query, params)
  {
    if params.Some? && params.value != [] {
      var safe := RenderParams(params.value);
      final := Substitute(query, safe);
      if MarkFreeParams(params) {
        AsWrittenAgreesWithoutMarks(query, safe);
      }
    } else {
      final := query;
    }
  }

  /** The substitution as intended: the query's own '?' marks are taken left
      to right, each by the next parameter, and parameter text is never
      searched again. Marks beyond the parameters stay. */
  function Positional(query: string, safe: seq<string>): string
    decreases |query|
  {
    if query == [] then []
    else if query[0] == '?' && safe != [] then safe[0] + Positional(query[1..], safe[1..])
    else [query[0]] + Positional(query[1..], safe)
  }

  /** pieces[0] + safe[0] + pieces[1] + safe[1] + ... + pieces[n]. */
  function Interleave(pieces: seq<string>, safe: seq<string>): string
    requires |pieces| == |safe| + 1
  {
    if safe == [] then pieces[0] else pieces[0] + safe[0] + Interleave(pieces[1..], safe[1..])
  }

  lemma {:induction false} PositionalNoMark(text: string, rest: string, safe: seq<string>)
    requires '?' !in text
    ensures Positional(text + rest, safe) == text + Positional(rest, safe)
  {
    if text != [] {
      assert (text + rest)[1..] == text[1..] + rest;
      PositionalNoMark(text[1..], rest, safe);
      assert text == [text[0]] + text[1..];
    } else {
      assert text + rest == rest;
    }
  }

  /** Intended behaviour: a query whose text between its marks is
      `pieces`, with as many parameters as marks, comes out with each mark
      replaced by its own parameter, whatever the parameters contain. */
  lemma {:induction false} PositionalFillsEachMark(pieces: seq<string>, safe: seq<string>)
    requires |pieces| == |safe| + 1
    requires forall k :: 0 <= k < |pieces| ==> '?' !in pieces[k]
    ensures Positional(Join(pieces, "?"), safe) == Interleave(pieces, safe)
  {
    if safe == [] {
      PositionalNoMark(pieces[0], [], safe);
      assert pieces[0] + [] == pieces[0];
    } else {
      var rest := Join(pieces[1..], "?");
      assert Join(pieces, "?") == pieces[0] + ("?" + rest);
      PositionalNoMark(pieces[0], "?" + rest, safe);
      assert ("?" + rest)[1..] == rest;
      PositionalFillsEachMark(pieces[1..], safe[1..]);
    }
  }

  /** Replacing the first mark of a text whose first mark follows `a`. */
  lemma {:induction false} ReplaceFirstAt(a: string, b: string, p: string)
    requires '?' !in a
    ensures ReplaceFirst(a + "?" + b, '?', p) == a + p + b
  {
    var t := a + "?" + b;
    IndexOfAfterPrefix(a, '?', b);
    assert t[..|a|] == a;
    assert t[|a| + 1..] == b;
  }

  lemma {:induction false} PositionalOfMarkFree(q: string, safe: seq<string>)
    requires '?' !in q
    ensures Positional(q, safe) == q
  {
    PositionalNoMark(q, [], safe);
    assert q + [] == q;
  }

  lemma {:induction false} AsWrittenOfMarkFree(q: string, safe: seq<string>)
    requires '?' !in q
    ensures SubstituteAsWritten(q, safe) == q
  {
    if safe != [] {
      AsWrittenOfMarkFree(q, safe[1..]);
    }
  }

  /** Positional on a text whose first mark follows `a`. */
  lemma {:induction false} PositionalAtMark(a: string, b: string, safe: seq<string>)
    requires '?' !in a && safe != []
    ensures Positional(a + "?" + b, safe) == a + safe[0] + Positional(b, safe[1..])
  {
    assert a + "?" + b == a + ("?" + b);
    PositionalNoMark(a, "?" + b, safe);
    assert ("?" + b)[1..] == b;
  }

  lemma {:induction false} SplitAtFirstMark(q: string) returns (a: string, b: string)
    requires '?' in q
    ensures q == a + "?" + b && '?' !in a
  {
    var k := IndexOf(q, '?');
    a, b := q[..k], q[k + 1..];
    assert q == a + "?" + b;
  }

  /** One step of the substitution as written, when the text before the
      first mark holds no mark: if the rest agrees, so does the whole. */
  lemma {:induction false} AsWrittenStep(done: string, a: string, b: string, safe: seq<string>)
    requires '?' !in done && '?' !in a && safe != []
    requires SubstituteAsWritten(done + a + safe[0] + b, safe[1..])
      == done + a + safe[0] + Positional(b, safe[1..])
    ensures SubstituteAsWritten(done + (a + "?" + b), safe) == done + Positional(a + "?" + b, safe)
  {
    assert done + (a + "?" + b) == (done + a) + "?" + b;
    ReplaceFirstAt(done + a, b, safe[0]);
    PositionalAtMark(a, b, safe);
    var tail := Positional(b, safe[1..]);
    Associate(done, a, safe[0], tail);
  }

  lemma {:induction false} Associate(w: string, x: string, y: string, z: string)
    ensures w + x + y + z == w + (x + y + z)
  {
  }

  lemma {:induction false} AsWrittenAgreesFrom(done: string, q: string, safe: seq<string>)
    requires '?' !in done
    requires forall k :: 0 <= k < |safe| ==> '?' !in safe[k]
    ensures SubstituteAsWritten(done + q, safe) == done + Positional(q, safe)
    decreases |safe|
  {
    if safe == [] {
      PositionalNoParams(q);
    } else if '?' !in q {
      assert '?' !in done + q;
      AsWrittenOfMarkFree(done + q, safe);
      PositionalOfMarkFree(q, safe);
    } else {
      var a, b := SplitAtFirstMark(q);
      assert '?' !in safe[0];
      AsWrittenAgreesFrom(done + a + safe[0], b, safe[1..]);
      AsWrittenStep(done, a, b, safe);
    }
  }

  lemma {:induction false} PositionalNoParams(q: string)
    ensures Positional(q, []) == q
    decreases |q|
  {
    if q != [] {
      PositionalNoParams(q[1..]);
      assert q == [q[0]] + q[1..];
    }
  }

  /** When no rendered parameter holds a '?', the substitution as written
      is the intended one. */
  lemma {:induction false} AsWrittenAgreesWithoutMarks(query: string, safe: seq<string>)
    requires forall k :: 0 <= k < |safe| ==> '?' !in safe[k]
    ensures SubstituteAsWritten(query, safe) == Positional(query, safe)
  {
    AsWrittenAgreesFrom([], query, safe);
    assert [] + query == query;
  }

  /** A string parameter holding a '?' has that mark taken by the next
      parameter: with the query "? ?" and the parameters 'a?' and 'b', the
      second value lands inside the first literal. */
  lemma {:induction false} QuestionMarkInParamShifts()
    ensures Render(Str("a?")) == "'a?'" && Render(Str("b")) == "'b'"
    ensures SubstituteAsWritten("? ?", ["'a?'", "'b'"]) == "'a'b'' ?"
    ensures Positional("? ?", ["'a?'", "'b'"]) == "'a?' 'b'"
  {
    RenderedQuestionMark();
    MarkInLiteralAsWritten();
    MarkInLiteralPositional();
  }

  lemma {:induction false} MarkInLiteralAsWritten()
    ensures SubstituteAsWritten("? ?", ["'a?'", "'b'"]) == "'a'b'' ?"
  {
    var safe := ["'a?'", "'b'"];
    ReplaceFirstAt([], " ?", safe[0]);
    assert "? ?" == [] + "?" + " ?";
    var step1 := [] + safe[0] + " ?";
    assert step1 == "'a" + "?" + "' ?";
    ReplaceFirstAt("'a", "' ?", safe[1]);
    assert SubstituteAsWritten("? ?", safe) == SubstituteAsWritten(step1, safe[1..]);
    assert SubstituteAsWritten(step1, safe[1..]) == ReplaceFirst(step1, '?', safe[1]);
  }

  lemma {:induction false} MarkInLiteralPositional()
    ensures Positional("? ?", ["'a?'", "'b'"]) == "'a?' 'b'"
  {
    var safe := ["'a?'", "'b'"];
    assert "? ?" == [] + "?" + " ?";
    PositionalAtMark([], " ?", safe);
    PositionalAtMark(" ", [], safe[1..]);
    assert " ?" == " " + "?" + [];
    PositionalNoParams([]);
  }

  lemma {:induction false} RenderedQuestionMark()
    ensures Render(Str("a?")) == "'a?'" && Render(Str("b")) == "'b'"
  {
    assert DoubleQuotes("?") == "?" by { assert "?"[1..] == []; }
    assert DoubleQuotes("a?") == "a?" by { assert "a?"[1..] == "?"; }
    assert DoubleQuotes("b") == "b" by { assert "b"[1..] == []; }
  }

  // ---------------------------------------------------------------------
  // The JSON reply and _parse_response

  /** A decoded JSON value. Objects keep their members in document order;
      the JSON decoder keeps the last value of a repeated key. */
  datatype Json =
    | JNull
    | JBool(b: bool)
    | JNum(n: int)
    | JStr(s: string)
    | JArr(items: seq<Json>)
    | JObj(members: seq<(string, Json)>)

  /** Python truthiness of a decoded value. */
  predicate Truthy(j: Json) {
    match j
    case JNull => false
    case JBool(b) => b
    case JNum(n) => n != 0
    case JStr(s) => s != []
    case JArr(items) => items != []
    case JObj(members) => members != []
  }

  /** The value of the last member named `key`. */
  function Lookup(members: seq<(string, Json)>, key: string): (r: Option<Json>)
    ensures r.None? <==> forall k :: 0 <= k < |members| ==> members[k].0 != key
    ensures r.Some? ==> exists k :: 0 <= k < |members| && members[k] == (key, r.value)
  {
    if members == [] then None
    else
      var last := members[|members| - 1];
      var front := members[..|members| - 1];
      if last.0 == key then Some(last.1)
      else
        var r := Lookup(front, key);
        assert forall k :: 0 <= k < |front| ==> front[k] == members[k];
        r
  }

  /** The distinct keys of an object, in order of first appearance, as a
      dict built by the decoder iterates them. */
  function Keys(members: seq<(string, Json)>): (keys: seq<string>)
    ensures forall k :: 0 <= k < |members| ==> members[k].0 in keys
    ensures forall key :: key in keys ==> exists k :: 0 <= k < |members| && members[k].0 == key
  {
    if members == [] then []
    else
      var front := Keys(members[..|members| - 1]);
      var key := members[|members| - 1].0;
      assert forall k :: 0 <= k < |members| - 1 ==> members[..|members| - 1][k] == members[k];
      if key in front then front else front + [key]
  }

  /** `key in j`: a key of an object, an element of a list, a substring
      of a string; anything else raises TypeError. */
  function In(j: Json, key: string): (r: Result<bool, string>)
    ensures j.JObj? ==> r == Success(exists k :: 0 <= k < |j.members| && j.members[k].0 == key)
    ensures j.JArr? ==> r == Success(JStr(key) in j.items)
    ensures j.JStr? ==> r == Success(Contains(j.s, key))
    ensures r.Failure? <==> j.JNull? || j.JBool? || j.JNum?
  {
    match j
    case JObj(members) => Success(Lookup(members, key).Some?)
    case JArr(items) => Success(JStr(key) in items)
    case JStr(s) => Success(Contains(s, key))
    case _ => Failure("TypeError: argument of type is not iterable")
  }

  /** `j[key]` with a string key: only an object can answer. */
  function Index(j: Json, key: string): (r: Result<Json, string>)
    ensures r.Success? ==> j.JObj? && Lookup(j.members, key) == Some(r.value)
    ensures j.JObj? && Lookup(j.members, key).Some? ==> r.Success?
  {
    match j
    case JObj(members) =>
      (match Lookup(members, key)
       case Some(v) => Success(v)
       case None => Failure("KeyError"))
    case _ => Failure("TypeError: indices must be integers")
  }

  /** What a `for` loop walks over: the items of a list, the keys of an
      object, the characters of a string. */
  function Iterate(j: Json): (r: Result<seq<Json>, string>)
    ensures j.JArr? ==> r == Success(j.items)
    ensures r.Failure? <==> j.JNull? || j.JBool? || j.JNum?
  {
    match j
    case JArr(items) => Success(items)
    case JObj(members) => Success(seq(|Keys(members)|, k requires 0 <= k < |Keys(members)| => JStr(Keys(members)[k])))
    case JStr(s) => Success(seq(|s|, k requires 0 <= k < |s| => JStr([s[k]])))
    case _ => Failure("TypeError: object is not iterable")
  }

  /** len(j). */
  function Len(j: Json): (r: Result<nat, string>)
    ensures j.JArr? ==> r == Success(|j.items|)
    ensures r.Failure? <==> j.JNull? || j.JBool? || j.JNum?
  {
    match j
    case JArr(items) => Success(|items|)
    case JObj(members) => Success(|Keys(members)|)
    case JStr(s) => Success(|s|)
    case _ => Failure("TypeError: object has no len()")
  }

  /** j[i] for an index below len(j): an object's keys are strings, so an
      integer index is never one of them. */
  function Item(j: Json, i: nat): (r: Result<Json, string>)
    requires Len(j).Success? && i < Len(j).value
    ensures j.JArr? ==> r == Success(j.items[i])
    ensures r.Failure? <==> j.JObj?
  {
    match j
    case JArr(items) => Success(items[i])
    case JStr(s) => Success(JStr([s[i]]))
    case JObj(_) => Failure("KeyError")
  }

  /** A list or a dict cannot be a dict key. */
  predicate Hashable(j: Json) {
    !j.JArr? && !j.JObj?
  }

  /** One turn of the inner loop: `if i < len(row_data): row_dict[col] =
      row_data[i]`. */
  function StoreColumn(d: map<Json, Json>, i: nat, col: Json, row: Json): Result<map<Json, Json>, string> {
    var n :- Len(row);
    if i < n then
      var v :- Item(row, i);
      if Hashable(col) then Success(d[col := v]) else Failure("TypeError: unhashable type")
    else Success(d)
  }

  /** The dict the inner loop builds for one row. */
  function RowDict(cols: seq<Json>, row: Json): Result<map<Json, Json>, string>
    decreases |cols|
  {
    if cols == [] then Success(map[])
    else
      var d :- RowDict(cols[..|cols| - 1], row);
      StoreColumn(d, |cols| - 1, cols[|cols| - 1], row)
  }

  /** The dicts of the outer loop; the columns are iterated afresh for each
      row, so they are never looked at when there is no row. */
  function RowDicts(cols: Json, rows: seq<Json>): Result<seq<map<Json, Json>>, string>
    decreases |rows|
  {
    if rows == [] then Success([])
    else
      var ds :- RowDicts(cols, rows[..|rows| - 1]);
      var cs :- Iterate(cols);
      var d :- RowDict(cs, rows[|rows| - 1]);
      Success(ds + [d])
  }

  /** MockResult: rows and last_insert_rowid, None being JNull. */
  datatype QueryResult = QueryResult(rows: seq<map<Json, Json>>, lastInsertRowid: Json)

  /** The rows of a results object that has both "columns" and "rows":
      indexing it by "columns" fails unless it is an object, and then
      indexing it by "rows" cannot fail. */
  function ColumnRows(results: Json): Result<seq<map<Json, Json>>, string>
    requires In(results, "rows") == Success(true)
  {
    var cols :- Index(results, "columns");
    var rowsData := Index(results, "rows").value;
    var rows :- Iterate(rowsData);
    RowDicts(cols, rows)
  }

  /** The reading of a results object: the membership test of "columns"
      is the one that can raise, since the later tests ask the same
      value. Then its rows, then last_insert_rowid. */
  function ReadResults(results: Json): Result<QueryResult, string> {
    var hasColumns :- In(results, "columns");
    var rows :- if hasColumns && In(results, "rows").value then ColumnRows(results) else Success([]);
    if In(results, "last_insert_rowid").value then
      var id :- Index(results, "last_insert_rowid");
      Success(QueryResult(rows, id))
    else Success(QueryResult(rows, JNull))
  }

  /** _parse_response: only a non-empty list is read, through the results
      of its first item. Any exception it raises is a Failure. */
  function ParseSpec(data: Json): Result<QueryResult, string> {
    if data.JArr? && |data.items| > 0 then
      var first := data.items[0];
      var hasResults :- In(first, "results");
      if !hasResults then Success(QueryResult([], JNull))
      else
        var results :- Index(first, "results");
        ReadResults(results)
    else Success(QueryResult([], JNull))
  }

  /** Once the dict of a prefix of the columns fails, so does the row. */
  lemma {:induction false} RowDictFailureStays(cols: seq<Json>, row: Json, i: nat)
    requires i <= |cols| && RowDict(cols[..i], row).Failure?
    ensures RowDict(cols, row) == RowDict(cols[..i], row)
    decreases |cols| - i
  {
    if i < |cols| {
      assert cols[..i + 1][..i] == cols[..i];
      RowDictFailureStays(cols, row, i + 1);
    } else {
      assert cols[..i] == cols;
    }
  }

  lemma {:induction false} RowDictsFailureStays(cols: Json, rows: seq<Json>, i: nat)
    requires i <= |rows| && RowDicts(cols, rows[..i]).Failure?
    ensures RowDicts(cols, rows) == RowDicts(cols, rows[..i])
    decreases |rows| - i
  {
    if i < |rows| {
      assert rows[..i + 1][..i] == rows[..i];
      RowDictsFailureStays(cols, rows, i + 1);
    } else {
      assert rows[..i] == rows;
    }
  }

  /** The inner loop of _parse_response. */
  method BuildRow(cols: seq<Json>, row: Json) returns (r: Result<map<Json, Json>, string>)
    ensures r == RowDict(cols, row)
  {
    var rowDict := map[];
    for i := 0 to |cols|
      invariant RowDict(cols[..i], row) == Success(rowDict)
    {
      assert cols[..i + 1][..i] == cols[..i];
      var n := Len(row);
      if n.Failure? {
        RowDictFailureStays(cols, row, i + 1);
        return Failure(n.error);
      }
      if i < n.value {
        var v := Item(row, i);
        if v.Failure? {
          RowDictFailureStays(cols, row, i + 1);
          return Failure(v.error);
        }
        if !Hashable(cols[i]) {
          RowDictFailureStays(cols, row, i + 1);
          return Failure("TypeError: unhashable type");
        }
        rowDict := rowDict[cols[i] := v.value];
      }
    }
    assert cols[..|cols|] == cols;
    return Success(rowDict);
  }

  /** The outer loop of _parse_response, over the rows. */
  method BuildRows(cols: Json, rowsData: seq<Json>) returns (r: Result<seq<map<Json, Json>>, string>)
    ensures r == RowDicts(cols, rowsData)
  {
    var rows := [];
    for k := 0 to |rowsData|
      invariant RowDicts(cols, rowsData[..k]) == Success(rows)
    {
      assert rowsData[..k + 1][..k] == rowsData[..k];
      var cs := Iterate(cols);
      if cs.Failure? {
        RowDictsFailureStays(cols, rowsData, k + 1);
        return Failure(cs.error);
      }
      var rowDict := BuildRow(cs.value, rowsData[k]);
      if rowDict.Failure? {
        RowDictsFailureStays(cols, rowsData, k + 1);
        return Failure(rowDict.error);
      }
      rows := rows + [rowDict.value];
    }
    assert rowsData[..|rowsData|] == rowsData;
    return Success(rows);
  }

  /** _parse_response with its loops; an exception is a Failure. */
  method ParseResponse(data: Json) returns (r: Result<QueryResult, string>)
    ensures r == ParseSpec(data)
  {
    var rows := [];
    var lastInsertRowid := JNull;
    if data.JArr? && |data.items| > 0 {
      var first := data.items[0];
      var hasResults :- In(first, "results");
      if hasResults {
        var results :- Index(first, "results");
        var hasColumns :- In(results, "columns");
        if hasColumns && In(results, "rows").value {
          var cols :- Index(results, "columns");
          var rowsData := Index(results, "rows").value;
          var rowItems :- Iterate(rowsData);
          rows :- BuildRows(cols, rowItems);
        }
        if In(results, "last_insert_rowid").value {
          lastInsertRowid :- Index(results, "last_insert_rowid");
        }
      }
    }
    return Success(QueryResult(rows, lastInsertRowid));
  }

  // ---------------------------------------------------------------------
  // What the reading yields

  function Min(a: nat, b: nat): nat {
    if a < b then a else b
  }

  /** Column names as the decoder gives them. */
  function Columns(names: seq<string>): (cols: seq<Json>)
    ensures |cols| == |names|
    ensures forall i :: 0 <= i < |names| ==> cols[i] == JStr(names[i])
  {
    seq(|names|, i requires 0 <= i < |names| => JStr(names[i]))
  }

  /** The keys of `d` are the names of the first n columns. */
  ghost predicate KeysAre(d: map<Json, Json>, names: seq<string>, n: nat)
    requires n <= |names|
  {
    forall key :: key in d <==> exists i :: 0 <= i < n && key == JStr(names[i])
  }

  /** Among the first n columns, each name's last column gives its value. */
  ghost predicate LastWins(d: map<Json, Json>, names: seq<string>, items: seq<Json>, n: nat)
    requires n <= |names| && n <= |items|
  {
    forall i :: 0 <= i < n && (forall j :: i < j < n ==> names[j] != names[i]) ==>
      JStr(names[i]) in d && d[JStr(names[i])] == items[i]
  }

  /** The dict of one row maps the name of column i to item i for every i
      below both lengths, the last such column winning for a repeated
      name, and has no other key. */
  ghost predicate RowMatches(d: map<Json, Json>, names: seq<string>, items: seq<Json>) {
    var n := Min(|names|, |items|);
    KeysAre(d, names, n) && LastWins(d, names, items, n)
  }

  /** Storing column n adds exactly its name to the keys. */
  lemma {:induction false} RowKeysStep(d: map<Json, Json>, names: seq<string>, n: nat, v: Json)
    requires n < |names| && KeysAre(d, names, n)
    ensures KeysAre(d[JStr(names[n]) := v], names, n + 1)
  {
    var stored := d[JStr(names[n]) := v];
    forall key
      ensures key in stored <==> exists i :: 0 <= i < n + 1 && key == JStr(names[i])
    {
      if key != JStr(names[n]) {
        if exists i :: 0 <= i < n + 1 && key == JStr(names[i]) {
          var i :| 0 <= i < n + 1 && key == JStr(names[i]);
          assert i < n;
        }
      }
    }
  }

  /** Storing column n gives its name item n and keeps the value of every
      other name. */
  lemma {:induction false} RowValuesStep(d: map<Json, Json>, names: seq<string>, items: seq<Json>, n: nat)
    requires n < |names| && n < |items| && LastWins(d, names, items, n)
    ensures LastWins(d[JStr(names[n]) := items[n]], names, items, n + 1)
  {
    var e := d[JStr(names[n]) := items[n]];
    forall i | 0 <= i < n + 1 && (forall j :: i < j < n + 1 ==> names[j] != names[i])
      ensures JStr(names[i]) in e && e[JStr(names[i])] == items[i]
    {
      if i < n {
        assert names[n] != names[i];
        LastWinsAt(d, names, items, n, i);
      }
    }
  }

  lemma {:induction false} LastWinsAt(d: map<Json, Json>, names: seq<string>, items: seq<Json>, n: nat, i: nat)
    requires n <= |names| && n <= |items| && LastWins(d, names, items, n)
    requires i < n && forall j :: i < j < n ==> names[j] != names[i]
    ensures JStr(names[i]) in d && d[JStr(names[i])] == items[i]
  {
  }

  /** The dict the inner loop has built after its first k turns. */
  lemma {:induction false} RowDictPrefix(names: seq<string>, items: seq<Json>, k: nat)
    requires k <= |names|
    ensures RowDict(Columns(names)[..k], JArr(items)).Success?
    ensures var d := RowDict(Columns(names)[..k], JArr(items)).value;
      KeysAre(d, names, Min(k, |items|)) && LastWins(d, names, items, Min(k, |items|))
  {
    if k == 0 {
      assert Columns(names)[..k] == [];
    } else {
      RowDictPrefix(names, items, k - 1);
      var d := RowDict(Columns(names)[..k - 1], JArr(items)).value;
      RowDictTurn(names, items, k);
      if k - 1 < |items| {
        RowKeysStep(d, names, k - 1, items[k - 1]);
        RowValuesStep(d, names, items, k - 1);
      }
    }
  }

  /** Turn k of the inner loop on a list row stores column k - 1 when the
      row is long enough and skips it otherwise. */
  lemma {:induction false} RowDictTurn(names: seq<string>, items: seq<Json>, k: nat)
    requires 0 < k <= |names|
    requires RowDict(Columns(names)[..k - 1], JArr(items)).Success?
    ensures var d := RowDict(Columns(names)[..k - 1], JArr(items)).value;
      RowDict(Columns(names)[..k], JArr(items)) ==
        if k - 1 < |items| then Success(d[JStr(names[k - 1]) := items[k - 1]]) else Success(d)
  {
    var cols := Columns(names)[..k];
    assert cols[..k - 1] == Columns(names)[..k - 1];
    assert cols[k - 1] == JStr(names[k - 1]);
  }

  /** A row given as a list, with string column names, reads as the dict
      RowMatches describes. */
  lemma {:induction false} RowDictOfList(names: seq<string>, items: seq<Json>)
    ensures RowDict(Columns(names), JArr(items)).Success?
    ensures RowMatches(RowDict(Columns(names), JArr(items)).value, names, items)
  {
    RowDictPrefix(names, items, |names|);
    assert Columns(names)[..|names|] == Columns(names);
  }

  function RowLists(rows: seq<seq<Json>>): (items: seq<Json>)
    ensures |items| == |rows|
    ensures forall k :: 0 <= k < |rows| ==> items[k] == JArr(rows[k])
  {
    seq(|rows|, k requires 0 <= k < |rows| => JArr(rows[k]))
  }

  lemma {:induction false} RowDictsOfLists(names: seq<string>, rows: seq<seq<Json>>)
    ensures var r := RowDicts(JArr(Columns(names)), RowLists(rows));
      && r.Success? && |r.value| == |rows|
      && forall k :: 0 <= k < |rows| ==> RowMatches(r.value[k], names, rows[k])
  {
    RowDictsEach(names, rows);
    var r := RowDicts(JArr(Columns(names)), RowLists(rows));
    forall k | 0 <= k < |rows| ensures RowMatches(r.value[k], names, rows[k]) {
      RowDictOfList(names, rows[k]);
    }
  }

  /** The outer loop builds, for each row, the dict of that row. */
  lemma {:induction false} RowDictsEach(names: seq<string>, rows: seq<seq<Json>>)
    ensures var r := RowDicts(JArr(Columns(names)), RowLists(rows));
      && r.Success? && |r.value| == |rows|
      && forall k :: 0 <= k < |rows| ==> RowDict(Columns(names), JArr(rows[k])) == Success(r.value[k])
  {
    if rows != [] {
      var m := |rows| - 1;
      RowDictsEach(names, rows[..m]);
      RowDictsTurn(names, rows);
    }
  }

  /** The last turn of the outer loop appends the dict of the last row. */
  lemma {:induction false} RowDictsTurn(names: seq<string>, rows: seq<seq<Json>>)
    requires rows != []
    requires RowDicts(JArr(Columns(names)), RowLists(rows[..|rows| - 1])).Success?
    ensures RowDict(Columns(names), JArr(rows[|rows| - 1])).Success?
    ensures RowDicts(JArr(Columns(names)), RowLists(rows)) ==
      Success(RowDicts(JArr(Columns(names)), RowLists(rows[..|rows| - 1])).value
        + [RowDict(Columns(names), JArr(rows[|rows| - 1])).value])
  {
    var m := |rows| - 1;
    var items := RowLists(rows);
    assert items[..m] == RowLists(rows[..m]);
    RowDictPrefix(names, rows[m], |names|);
    assert Columns(names)[..|names|] == Columns(names);
  }

  /** The reply the HTTP endpoint gives: one statement result with column
      names, rows given as lists, and the id of the last inserted row. */
  function TursoReply(names: seq<string>, rows: seq<seq<Json>>, id: Json): Json {
    JArr([JObj([("results", TursoResults(names, rows, id))])])
  }

  /** The results object of such a reply. */
  function TursoResults(names: seq<string>, rows: seq<seq<Json>>, id: Json): Json {
    JObj([
      ("columns", JArr(Columns(names))),
      ("rows", JArr(RowLists(rows))),
      ("last_insert_rowid", id)])
  }

  /** Each of its three keys finds its own value. */
  lemma {:induction false} TursoResultsLookups(names: seq<string>, rows: seq<seq<Json>>, id: Json)
    ensures var ms := TursoResults(names, rows, id).members;
      && Lookup(ms, "columns") == Some(JArr(Columns(names)))
      && Lookup(ms, "rows") == Some(JArr(RowLists(rows)))
      && Lookup(ms, "last_insert_rowid") == Some(id)
  {
    var ms := TursoResults(names, rows, id).members;
    assert "last_insert_rowid" != "columns" && "rows" != "columns" && "last_insert_rowid" != "rows" by {
      assert "last_insert_rowid"[0] != "columns"[0] && "rows"[0] != "columns"[0];
      assert "last_insert_rowid"[0] != "rows"[0];
    }
    assert ms[..2][..1] == ms[..1];
    assert Lookup(ms[..1], "columns") == Some(JArr(Columns(names)));
    assert Lookup(ms[..2], "columns") == Some(JArr(Columns(names)));
    assert Lookup(ms[..2], "rows") == Some(JArr(RowLists(rows)));
  }

  /** Reading that results object gives the dicts the outer loop builds
      and the id. */
  lemma {:induction false} ReadTursoResults(names: seq<string>, rows: seq<seq<Json>>, id: Json)
    ensures RowDicts(JArr(Columns(names)), RowLists(rows)).Success?
    ensures ReadResults(TursoResults(names, rows, id)) ==
      Success(QueryResult(RowDicts(JArr(Columns(names)), RowLists(rows)).value, id))
  {
    var results := TursoResults(names, rows, id);
    TursoResultsLookups(names, rows, id);
    assert In(results, "columns") == Success(true);
    assert In(results, "rows") == Success(true);
    assert In(results, "last_insert_rowid") == Success(true);
    TursoColumnRows(names, rows, id);
  }

  /** Its rows are the dicts the outer loop builds. */
  lemma {:induction false} TursoColumnRows(names: seq<string>, rows: seq<seq<Json>>, id: Json)
    requires In(TursoResults(names, rows, id), "rows") == Success(true)
    ensures RowDicts(JArr(Columns(names)), RowLists(rows)).Success?
    ensures ColumnRows(TursoResults(names, rows, id)) == RowDicts(JArr(Columns(names)), RowLists(rows))
  {
    TursoResultsLookups(names, rows, id);
    RowDictsEach(names, rows);
  }

  /** Such a reply is read as one dict per row, each as RowMatches
      describes, and its last_insert_rowid. */
  lemma {:induction false} ParseTursoReply(names: seq<string>, rows: seq<seq<Json>>, id: Json)
    ensures var r := ParseSpec(TursoReply(names, rows, id));
      && r.Success? && |r.value.rows| == |rows|
      && (forall k :: 0 <= k < |rows| ==> RowMatches(r.value.rows[k], names, rows[k]))
      && r.value.lastInsertRowid == id
  {
    var first := JObj([("results", TursoResults(names, rows, id))]);
    assert TursoReply(names, rows, id) == JArr([first]);
    assert Lookup(first.members, "results") == Some(TursoResults(names, rows, id));
    ReadTursoResults(names, rows, id);
    RowDictsOfLists(names, rows);
  }

  /** A reply that is not a non-empty list, or whose first item is an
      object without "results", gives no rows and no id; so does a
      results object without "columns", which is how an INSERT answers. */
  lemma {:induction false} ParseRepliesWithoutRows(data: Json, id: Json)
    ensures !data.JArr? || data.items == [] ==> ParseSpec(data) == Success(QueryResult([], JNull))
    ensures (data.JArr? && data.items != [] && data.items[0].JObj?
      && Lookup(data.items[0].members, "results").None?) ==> ParseSpec(data) == Success(QueryResult([], JNull))
    ensures ParseSpec(JArr([JObj([("results", JObj([("last_insert_rowid", id)]))])])) == Success(QueryResult([], id))
  {
    var results := JObj([("last_insert_rowid", id)]);
    assert Lookup(results.members, "columns").None?;
  }

  // ---------------------------------------------------------------------
  // The manager and its queries

  /** The POST to the endpoint: url, Authorization header and statement in,
      decoded JSON out, or the error of a refused connection or of a
      status other than 200. */
  type Post = (string, string, string) -> Result<Json, string>

  datatype Manager = Manager(token: string, workingUrl: string)

  const MissingSettingsMessage := "חובה לספק TURSO_DATABASE_URL ו-TURSO_AUTH_TOKEN"
  const TestQuery := "SELECT 1 as test"

  /** execute_query: the statement text, the POST, the reading of the
      reply. An exception from any of them is a Failure. */
  function ExecuteQuery(m: Manager, post: Post, query: string, params: Option<seq<Param>>): Result<QueryResult, string> {
    var data :- post(m.workingUrl, "Bearer " + m.token, StatementAsWritten(query, params));
    ParseSpec(data)
  }

  /** When no rendered parameter holds a '?', the statement execute_query
      posts is the intended one, each mark taken by its own parameter. */
  lemma {:induction false} ExecuteQuerySendsIntended(m: Manager, post: Post, query: string, params: Option<seq<Param>>)
    requires MarkFreeParams(params)
    ensures ExecuteQuery(m, post, query, params) ==
      (var data :- post(m.workingUrl, "Bearer " + m.token, StatementText(query, params)); ParseSpec(data))
  {
    if params.Some? && params.value != [] {
      AsWrittenAgreesWithoutMarks(query, RenderAll(params.value));
    }
  }

  /** The constructor: both settings must be present and non-empty, every
      "libsql://" of the URL becomes "https://", and a failing test query
      is raised again. */
  function Connect(url: Option<string>, token: Option<string>, post: Post): Result<Manager, string> {
    if url.None? || url.value == [] || token.None? || token.value == [] then
      Failure(MissingSettingsMessage)
    else
      var m := Manager(token.value, ReplaceAll(url.value, "libsql://", "https://"));
      var test :- ExecuteQuery(m, post, TestQuery, None);
      Success(m)
  }

  lemma {:induction false} ReplaceAllWithoutMatch(s: string, pat: string, rep: string)
    requires pat != []
    requires forall i :: 0 <= i <= |s| ==> !OccursAt(s, pat, i)
    ensures ReplaceAll(s, pat, rep) == s
    decreases |s|
  {
    if |s| >= |pat| {
      assert !OccursAt(s, pat, 0);
      assert forall i :: 0 <= i <= |s| - 1 ==> (OccursAt(s[1..], pat, i) ==> OccursAt(s, pat, i + 1)) by {
        forall i | 0 <= i <= |s| - 1 && OccursAt(s[1..], pat, i)
          ensures OccursAt(s, pat, i + 1)
        {
          assert s[1..][i..i + |pat|] == s[i + 1..i + 1 + |pat|];
        }
      }
      ReplaceAllWithoutMatch(s[1..], pat, rep);
      assert s == [s[0]] + s[1..];
    }
  }

  /** A libsql:// URL whose remainder holds no second "libsql://" is
      reached over https://; the constructor accepts it exactly when the
      test query succeeds there. */
  lemma {:induction false} ConnectRewritesScheme(rest: string, token: string, post: Post)
    requires token != []
    requires forall i :: 0 <= i <= |rest| ==> !OccursAt(rest, "libsql://", i)
    ensures var r := Connect(Some("libsql://" + rest), Some(token), post);
      && (r.Success? <==> ExecuteQuery(Manager(token, "https://" + rest), post, TestQuery, None).Success?)
      && (r.Success? ==> r.value == Manager(token, "https://" + rest))
  {
    var url := "libsql://" + rest;
    assert url[..|"libsql://"|] == "libsql://";
    assert url[|"libsql://"|..] == rest;
    ReplaceAllWithoutMatch(rest, "libsql://", "https://");
  }

  /** The constructor succeeds exactly when both settings are present and
      non-empty and the test query succeeds; a missing setting is reported
      before anything is sent. */
  lemma {:induction false} ConnectSucceedsIff(url: Option<string>, token: Option<string>, post: Post)
    ensures url.None? || url.value == [] || token.None? || token.value == [] ==>
      Connect(url, token, post) == Failure(MissingSettingsMessage)
    ensures Connect(url, token, post).Success? <==>
      (&& url.Some? && url.value != [] && token.Some? && token.value != []
       && ExecuteQuery(Manager(token.value, ReplaceAll(url.value, "libsql://", "https://")), post, TestQuery, None).Success?)
  {
  }

  const AllGamesQuery := "SELECT * FROM games ORDER BY game_date, game_time"
  const GamesByStatusQuery := "SELECT * FROM games WHERE status = ? ORDER BY game_date, game_time"
  const GameByIdQuery := "SELECT * FROM games WHERE game_id = ?"
  const GameRegistrationsQuery := "SELECT gr.*, u.first_name, u.last_name, u.username, p.position_name FROM game_registrations gr JOIN users u ON gr.user_id = u.user_id JOIN positions p ON gr.position_id = p.position_id WHERE gr.game_id = ? AND gr.status = 'confirmed' ORDER BY p.position_name"
  const AllPositionsQuery := "SELECT * FROM positions ORDER BY position_id"
  const AuthenticateQuery := "SELECT * FROM users WHERE username = ? AND password_hash = ? AND is_active = 1"
  const UserByUsernameQuery := "SELECT * FROM users WHERE username = ?"
  const CreateUserQuery := "INSERT INTO users (username, email, password_hash, first_name, last_name, phone, user_type) VALUES (?, ?, ?, ?, ?, ?, 'player')"
  const CreateGameQuery := "INSERT INTO games (title, game_date, game_time, location, max_players, created_by, description) VALUES (?, ?, ?, ?, ?, ?, ?)"
  const ExistingRegistrationQuery := "SELECT * FROM game_registrations WHERE game_id = ? AND user_id = ?"
  const PositionTakenQuery := "SELECT * FROM game_registrations WHERE game_id = ? AND position_id = ? AND status = 'confirmed'"
  const InsertRegistrationQuery := "INSERT INTO game_registrations (game_id, user_id, position_id) VALUES (?, ?, ?)"
  const CancelRegistrationQuery := "DELETE FROM game_registrations WHERE game_id = ? AND user_id = ?"

  type Row = map<Json, Json>

  /** Python truthiness of a parameter. */
  predicate ParamTruthy(p: Param) {
    match p
    case Null => false
    case Str(s) => s != []
    case Flag(b) => b
    case Number(n) => n != 0
  }

  /** `result.rows if result and result.rows else []` inside a try whose
      except returns []. */
  function RowsOrEmpty(r: Result<QueryResult, string>): seq<Row> {
    if r.Success? then r.value.rows else []
  }

  /** `result.rows[0]` when there is a row, None otherwise or on an
      exception. */
  function FirstRowOrNone(r: Result<QueryResult, string>): Option<Row> {
    if r.Success? && r.value.rows != [] then Some(r.value.rows[0]) else None
  }

  /** `result.last_insert_rowid` when it is truthy, None otherwise or on an
      exception. */
  function InsertedIdOrNone(r: Result<QueryResult, string>): Option<Json> {
    if r.Success? && Truthy(r.value.lastInsertRowid) then Some(r.value.lastInsertRowid) else None
  }

  function GetAllGames(m: Manager, post: Post, status: Param): seq<Row> {
    if ParamTruthy(status) then RowsOrEmpty(ExecuteQuery(m, post, GamesByStatusQuery, Some([status])))
    else RowsOrEmpty(ExecuteQuery(m, post, AllGamesQuery, None))
  }

  function GetGameById(m: Manager, post: Post, gameId: Param): Option<Row> {
    FirstRowOrNone(ExecuteQuery(m, post, GameByIdQuery, Some([gameId])))
  }

  function GetGameRegistrations(m: Manager, post: Post, gameId: Param): seq<Row> {
    RowsOrEmpty(ExecuteQuery(m, post, GameRegistrationsQuery, Some([gameId])))
  }

  function GetAllPositions(m: Manager, post: Post): seq<Row> {
    RowsOrEmpty(ExecuteQuery(m, post, AllPositionsQuery, None))
  }

  /** The password is compared through its SHA-256 hex digest, `sha256`. */
  function AuthenticateUser(m: Manager, post: Post, sha256: string -> string, username: Param, password: string): Option<Row> {
    FirstRowOrNone(ExecuteQuery(m, post, AuthenticateQuery, Some([username, Str(sha256(password))])))
  }

  function GetUserByUsername(m: Manager, post: Post, username: Param): Option<Row> {
    FirstRowOrNone(ExecuteQuery(m, post, UserByUsernameQuery, Some([username])))
  }

  /** create_user; the caller passes Str("") for the default phone. */
  function CreateUser(m: Manager, post: Post, sha256: string -> string, username: Param, email: Param,
                      password: string, firstName: Param, lastName: Param, phone: Param): Option<Json>
  {
    InsertedIdOrNone(ExecuteQuery(m, post, CreateUserQuery,
      Some([username, email, Str(sha256(password)), firstName, lastName, phone])))
  }

  /** create_game; the caller passes Str("") and Number(10) for the
      defaults of description and max_players. */
  function CreateGame(m: Manager, post: Post, title: Param, gameDate: Param, gameTime: Param, location: Param,
                      createdBy: Param, description: Param, maxPlayers: Param): Option<Json>
  {
    InsertedIdOrNone(ExecuteQuery(m, post, CreateGameQuery,
      Some([title, gameDate, gameTime, location, maxPlayers, createdBy, description])))
  }

  function CancelRegistration(m: Manager, post: Post, gameId: Param, userId: Param): bool {
    ExecuteQuery(m, post, CancelRegistrationQuery, Some([gameId, userId])).Success?
  }

  /** The dict register_to_game returns. */
  datatype Reply = Reply(success: bool, message: string)

  const AlreadyRegisteredMessage := "כבר נרשמת למשחק זה"
  const PositionTakenMessage := "הפוזיציה הזו כבר תפוסה"
  const RegisteredMessage := "נרשמת בהצלחה למשחק!"
  const ErrorPrefix := "שגיאה: "

  /** The three statements register_to_game may send. */
  datatype Step = CheckRegistered | CheckPosition | Insert

  /** The decisions of register_to_game given what each of its three
      statements returns or raises, with the statements it sends, in
      order. The result of the insert is a MockResult, which is always
      truthy, so an insert that does not raise reports success. */
  function RegisterOutcome(existing: Result<QueryResult, string>, taken: Result<QueryResult, string>,
                           inserted: Result<QueryResult, string>): (Reply, seq<Step>)
  {
    if existing.Failure? then (Reply(false, ErrorPrefix + existing.error), [CheckRegistered])
    else if existing.value.rows != [] then (Reply(false, AlreadyRegisteredMessage), [CheckRegistered])
    else if taken.Failure? then (Reply(false, ErrorPrefix + taken.error), [CheckRegistered, CheckPosition])
    else if taken.value.rows != [] then (Reply(false, PositionTakenMessage), [CheckRegistered, CheckPosition])
    else if inserted.Failure? then (Reply(false, ErrorPrefix + inserted.error), [CheckRegistered, CheckPosition, Insert])
    else (Reply(true, RegisteredMessage), [CheckRegistered, CheckPosition, Insert])
  }

  /** register_to_game; a statement outside the steps RegisterOutcome
      lists is never sent. */
  function RegisterToGame(m: Manager, post: Post, gameId: Param, userId: Param, positionId: Param): (Reply, seq<Step>) {
    RegisterOutcome(
      ExecuteQuery(m, post, ExistingRegistrationQuery, Some([gameId, userId])),
      ExecuteQuery(m, post, PositionTakenQuery, Some([gameId, positionId])),
      ExecuteQuery(m, post, InsertRegistrationQuery, Some([gameId, userId, positionId])))
  }

  /** register_to_game asks "already registered?" first and "position
      taken?" second, and sends the insert only when both find no row; it
      reports success exactly when the insert also goes through. */
  lemma {:induction false} RegisterToGameOrder(existing: Result<QueryResult, string>, taken: Result<QueryResult, string>,
                            inserted: Result<QueryResult, string>)
    ensures var (reply, ran) := RegisterOutcome(existing, taken, inserted);
      var checksPass := existing.Success? && existing.value.rows == [] && taken.Success? && taken.value.rows == [];
      && |ran| >= 1
      && ran <= [CheckRegistered, CheckPosition, Insert]
      && (Insert in ran <==> checksPass)
      && (reply.success <==> checksPass && inserted.Success?)
      && (existing.Success? && existing.value.rows != [] ==>
            reply == Reply(false, AlreadyRegisteredMessage) && ran == [CheckRegistered])
      && (existing.Success? && existing.value.rows == [] && taken.Success? && taken.value.rows != [] ==>
            reply == Reply(false, PositionTakenMessage))
      && (existing.Failure? ==>
            reply == Reply(false, ErrorPrefix + existing.error) && ran == [CheckRegistered])
  {
  }

  lemma {:induction false} ExecuteFails(m: Manager, post: Post, query: string, params: Option<seq<Param>>)
    requires forall url, auth, statement :: post(url, auth, statement).Failure?
    ensures ExecuteQuery(m, post, query, params).Failure?
  {
    var data := post(m.workingUrl, "Bearer " + m.token, StatementAsWritten(query, params));
    assert data.Failure?;
  }

  /** When every request fails, the row-returning helpers answer with
      their defaults instead of raising. */
  lemma {:induction false} ReadHelpersFallBack(m: Manager, post: Post, sha256: string -> string, p: Param, password: string)
    requires forall url, auth, statement :: post(url, auth, statement).Failure?
    ensures GetAllGames(m, post, p) == [] && GetGameRegistrations(m, post, p) == [] && GetAllPositions(m, post) == []
    ensures GetGameById(m, post, p).None? && GetUserByUsername(m, post, p).None?
    ensures AuthenticateUser(m, post, sha256, p, password).None?
  {
    ListHelpersFallBack(m, post, p);
    RowHelpersFallBack(m, post, p);
    ExecuteFails(m, post, AuthenticateQuery, Some([p, Str(sha256(password))]));
  }

  lemma {:induction false} ListHelpersFallBack(m: Manager, post: Post, p: Param)
    requires forall url, auth, statement :: post(url, auth, statement).Failure?
    ensures GetAllGames(m, post, p) == [] && GetGameRegistrations(m, post, p) == [] && GetAllPositions(m, post) == []
  {
    ExecuteFails(m, post, GamesByStatusQuery, Some([p]));
    ExecuteFails(m, post, AllGamesQuery, None);
    ExecuteFails(m, post, GameRegistrationsQuery, Some([p]));
    ExecuteFails(m, post, AllPositionsQuery, None);
  }

  lemma {:induction false} RowHelpersFallBack(m: Manager, post: Post, p: Param)
    requires forall url, auth, statement :: post(url, auth, statement).Failure?
    ensures GetGameById(m, post, p).None? && GetUserByUsername(m, post, p).None?
  {
    ExecuteFails(m, post, GameByIdQuery, Some([p]));
    ExecuteFails(m, post, UserByUsernameQuery, Some([p]));
  }

  /** When every request fails, the writing helpers answer None or
      False. */
  lemma {:induction false} WriteHelpersFallBack(m: Manager, post: Post, sha256: string -> string, p: Param, q: Param, r: Param, password: string)
    requires forall url, auth, statement :: post(url, auth, statement).Failure?
    ensures CreateUser(m, post, sha256, p, q, password, r, p, q).None?
    ensures CreateGame(m, post, p, q, r, p, q, r, p).None?
    ensures !CancelRegistration(m, post, p, q)
  {
    ExecuteFails(m, post, CreateUserQuery, Some([p, q, Str(sha256(password)), r, p, q]));
    ExecuteFails(m, post, CreateGameQuery, Some([p, q, r, p, p, q, r]));
    ExecuteFails(m, post, CancelRegistrationQuery, Some([p, q]));
  }
}
