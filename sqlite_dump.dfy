/**
 * The SQLite-to-PostgreSQL dump script (dumb_sqlite.py): the schema rewrite
 * `convert_schema`, the SQL literal of one column value, and the `INSERT`
 * statement of one row.
 */
module SqliteDump {
  import opened Common
  import opened Text

  // ---------------------------------------------------------------------------
  // Schema conversion

  /** `s.replace(pat, repl)`: every occurrence of `pat`, scanning left to right without overlaps, becomes `repl`. */
  function ReplaceAll(s: string, pat: string, repl: string): string
    requires pat != []
  {
    if |s| < |pat| then s
    else if s[..|pat|] == pat then repl + ReplaceAll(s[|pat|..], pat, repl)
    else [s[0]] + ReplaceAll(s[1..], pat, repl)
  }

  /** `pat` occurs in `s` at position `i`. */
  predicate OccursAt(s: string, pat: string, i: int) {
    0 <= i && i + |pat| <= |s| && s[i..i + |pat|] == pat
  }

  /** `pat` occurs somewhere in `s` (`pat in s`). */
  predicate Occurs(s: string, pat: string) {
    exists i :: 0 <= i <= |s| && OccursAt(s, pat, i)
  }

  /** Replacing a pattern that does not occur leaves the text unchanged. */
  lemma {:induction false} ReplaceAbsent(s: string, pat: string, repl: string)
    requires pat != [] && !Occurs(s, pat)
    ensures ReplaceAll(s, pat, repl) == s
  {
    if |s| >= |pat| {
      assert !OccursAt(s, pat, 0);
      assert s[0..0 + |pat|] == s[..|pat|];
      forall i | OccursAt(s[1..], pat, i)
        ensures false
      {
        assert s[i + 1..i + 1 + |pat|] == s[1..][i..i + |pat|];
        assert OccursAt(s, pat, i + 1);
      }
      ReplaceAbsent(s[1..], pat, repl);
      assert [s[0]] + s[1..] == s;
    }
  }

  /**
   * `convert_schema`: four replace-all passes in this order: AUTOINCREMENT to
   * SERIAL, INTEGER to INT, TEXT to VARCHAR, BOOLEAN to BOOL.
   */
  function ConvertSchema(sql: string): string {
    var s1 := ReplaceAll(sql, "AUTOINCREMENT", "SERIAL");
    var s2 := ReplaceAll(s1, "INTEGER", "INT");
    var s3 := ReplaceAll(s2, "TEXT", "VARCHAR");
    ReplaceAll(s3, "BOOLEAN", "BOOL")
  }

  /** A schema without any of the four SQLite keywords comes through unchanged. */
  lemma ConvertSchemaUnchanged(sql: string)
    requires !Occurs(sql, "AUTOINCREMENT") && !Occurs(sql, "INTEGER")
    requires !Occurs(sql, "TEXT") && !Occurs(sql, "BOOLEAN")
    ensures ConvertSchema(sql) == sql
  {
    ReplaceAbsent(sql, "AUTOINCREMENT", "SERIAL");
    ReplaceAbsent(sql, "INTEGER", "INT");
    ReplaceAbsent(sql, "TEXT", "VARCHAR");
    ReplaceAbsent(sql, "BOOLEAN", "BOOL");
  }

  // ---------------------------------------------------------------------------
  // String literals

  /** `value.replace("'", "''")`: every single quote doubled. */
  function Escape(s: string): (r: string)
    ensures |r| >= |s|
  {
    if s == [] then []
    else (if s[0] == '\'' then "''" else [s[0]]) + Escape(s[1..])
  }

  /** The literal of a text value: the escaped text between single quotes. */
  function Quote(s: string): (r: string)
    ensures |r| >= 2 && r[0] == '\'' && r[|r| - 1] == '\''
  {
    "'" + Escape(s) + "'"
  }

  /** Reads the inside of a literal back: `''` is one quote; a lone quote is not valid. */
  function Unescape(t: string): Option<string>
  {
    if t == [] then Some([])
    else if t[0] == '\'' then
      if |t| >= 2 && t[1] == '\'' then
        match Unescape(t[2..])
        case Some(rest) => Some("'" + rest)
        case None => None
      else None
    else
      match Unescape(t[1..])
      case Some(rest) => Some([t[0]] + rest)
      case None => None
  }

  /** Reads a quoted literal back: drop the outer quotes, collapse each `''`. */
  function Unquote(t: string): Option<string> {
    if |t| >= 2 && t[0] == '\'' && t[|t| - 1] == '\'' then Unescape(t[1..|t| - 1]) else None
  }

  lemma {:induction false} UnescapeEscape(s: string)
    ensures Unescape(Escape(s)) == Some(s)
  {
    if s != [] {
      UnescapeEscape(s[1..]);
      var e := Escape(s);
      if s[0] == '\'' {
        assert e[2..] == Escape(s[1..]);
      } else {
        assert e[1..] == Escape(s[1..]);
      }
      assert [s[0]] + s[1..] == s;
    }
  }

  /** The quoting round trip: unquoting the literal of a text gives the text back. */
  lemma QuoteRoundTrip(s: string)
    ensures Unquote(Quote(s)) == Some(s)
  {
    var q := Quote(s);
    assert q[1..|q| - 1] == Escape(s);
    UnescapeEscape(s);
  }

  /** Different texts give different literals. */
  lemma QuoteInjective(s: string, t: string)
    requires Quote(s) == Quote(t)
    ensures s == t
  {
    QuoteRoundTrip(s);
    QuoteRoundTrip(t);
  }

  // ---------------------------------------------------------------------------
  // Integers

  function DigitChar(d: int): char
    requires 0 <= d < 10
  {
    ('0' as int + d) as char
  }

  predicate IsDigit(c: char) {
    '0' <= c <= '9'
  }

  /** The decimal digits of `n`, as `str(n)` writes them. */
  function NatText(n: nat): (r: string)
    ensures r != [] && forall i :: 0 <= i < |r| ==> IsDigit(r[i])
  {
    if n < 10 then [DigitChar(n)] else NatText(n / 10) + [DigitChar(n % 10)]
  }

  /** `str(n)` of an integer: a minus sign before the digits of a negative number. */
  function IntText(n: int): string {
    if n < 0 then "-" + NatText(-n) else NatText(n)
  }

  function ParseNat(s: string): int {
    if s == [] then 0 else ParseNat(s[..|s| - 1]) * 10 + (s[|s| - 1] as int - '0' as int)
  }

  function ParseInt(s: string): int {
    if |s| > 0 && s[0] == '-' then -ParseNat(s[1..]) else ParseNat(s)
  }

  lemma {:induction false} ParseNatText(n: nat)
    ensures ParseNat(NatText(n)) == n
  {
    if n >= 10 {
      ParseNatText(n / 10);
      var r := NatText(n);
      assert r[..|r| - 1] == NatText(n / 10);
    }
  }

  /** Reading the decimal text of an integer gives the integer back. */
  lemma ParseIntText(n: int)
    ensures ParseInt(IntText(n)) == n
  {
    if n < 0 {
      ParseNatText(-n);
      assert IntText(n)[1..] == NatText(-n);
    } else {
      ParseNatText(n);
    }
  }

  // ---------------------------------------------------------------------------
  // Column values and rows

  /**
   * A column value as the SQLite cursor returns it. `Other` stands for the
   * remaining types (floats, blobs), carrying the text `str(value)` gives.
   */
  datatype SqlValue = Text(s: string) | Null | Int(n: int) | Other(shown: string)

  /** The SQL literal of one value. */
  function Literal(v: SqlValue): string {
    match v
    case Text(s) => Quote(s)
    case Null => "NULL"
    case Int(n) => IntText(n)
    case Other(shown) => shown
  }

  /**
   * The first character of a literal tells the kind of value: a quote for
   * text, `N` for NULL, a digit or a minus sign for an integer.
   */
  lemma LiteralHead(v: SqlValue)
    requires !v.Other?
    ensures Literal(v) != []
    ensures v.Text? <==> Literal(v)[0] == '\''
    ensures v.Null? <==> Literal(v)[0] == 'N'
    ensures v.Int? <==> Literal(v)[0] == '-' || IsDigit(Literal(v)[0])
  {
    if v.Int? {
      var n := v.n;
      assert IsDigit(NatText(if n < 0 then -n else n)[0]);
    }
  }

  /** Text, NULL and integer values are told apart by their literals, and each literal reads back to its value. */
  lemma LiteralInjective(a: SqlValue, b: SqlValue)
    requires !a.Other? && !b.Other?
    requires Literal(a) == Literal(b)
    ensures a == b
  {
    LiteralHead(a);
    LiteralHead(b);
    if a.Text? && b.Text? {
      QuoteInjective(a.s, b.s);
    } else if a.Int? && b.Int? {
      ParseIntText(a.n);
      ParseIntText(b.n);
    }
  }

  /** The literals of a row, in column order. */
  function Literals(row: seq<SqlValue>): (r: seq<string>)
    ensures |r| == |row| && forall i :: 0 <= i < |row| ==> r[i] == Literal(row[i])
  {
    seq(|row|, i requires 0 <= i < |row| => Literal(row[i]))
  }

  /** `INSERT INTO <table> VALUES (<literals joined by ", ">);`. */
  function InsertStatement(table: string, row: seq<SqlValue>): string {
    "INSERT INTO " + table + " VALUES (" + Join(Literals(row), ", ") + ");"
  }

  /** The row loop: one literal per column, appended in column order, then the statement. */
  method RenderInsert(table: string, row: seq<SqlValue>) returns (sql: string)
    ensures sql == InsertStatement(table, row)
  {
    var values: seq<string> := [];
    var i := 0;
    while i < |row|
      invariant 0 <= i <= |row|
      invariant values == Literals(row[..i])
    {
      var value := row[i];
      if value.Text? {
        values := values + [Quote(value.s)];
      } else if value.Null? {
        values := values + ["NULL"];
      } else {
        values := values + [Literal(value)];
      }
      i := i + 1;
    }
    assert row[..|row|] == row;
    sql := "INSERT INTO " + table + " VALUES (" + Join(values, ", ") + ");";
  }

  /** What the script writes for one table: the converted `CREATE TABLE` and one `INSERT` line per row. */
  function TableDump(table: string, createSql: string, rows: seq<seq<SqlValue>>): string {
    if rows == [] then ConvertSchema(createSql) + ";\n"
    else TableDump(table, createSql, rows[..|rows| - 1]) + InsertStatement(table, rows[|rows| - 1]) + "\n"
  }

  /** The table loop: the schema line first, then the rows in the order the cursor returns them. */
  method DumpTable(table: string, createSql: string, rows: seq<seq<SqlValue>>) returns (out: string)
    ensures out == TableDump(table, createSql, rows)
  {
    out := ConvertSchema(createSql) + ";\n";
    var k := 0;
    while k < |rows|
      invariant 0 <= k <= |rows|
      invariant out == TableDump(table, createSql, rows[..k])
    {
      assert rows[..k + 1][..k] == rows[..k];
      var sql := RenderInsert(table, rows[k]);
      out := out + sql + "\n";
      k := k + 1;
    }
    assert rows[..|rows|] == rows;
  }

  /** The dump of a table starts with its converted schema and grows by one statement per row. */
  lemma {:induction false} TableDumpPrefix(table: string, createSql: string, rows: seq<seq<SqlValue>>, k: nat)
    requires k <= |rows|
    ensures StartsWith(TableDump(table, createSql, rows), TableDump(table, createSql, rows[..k]))
  {
    if k < |rows| {
      var init := rows[..|rows| - 1];
      assert init[..k] == rows[..k];
      TableDumpPrefix(table, createSql, init, k);
      StartsWithConcat(TableDump(table, createSql, init), InsertStatement(table, rows[|rows| - 1]) + "\n",
        TableDump(table, createSql, rows[..k]));
      assert TableDump(table, createSql, rows) ==
        TableDump(table, createSql, init) + (InsertStatement(table, rows[|rows| - 1]) + "\n");
    } else {
      assert rows[..k] == rows;
    }
  }
}
