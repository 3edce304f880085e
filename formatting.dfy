/**
  The text the agent builds from query results: the schema listing of
  `fetch_schema` (agent.py:59-62), the foreign-key listing of
  `fetch_relationships` (agent.py:89-91), and the escaping of the fields
  written to the interaction log (agent.py:122-124).
*/
module Formatting {
  import opened Wrappers
  import opened Text

  /** Python's `sep.join(parts)`. */
  function Join(sep: string, parts: seq<string>): (r: string)
    ensures parts == [] ==> r == []
    ensures |parts| == 1 ==> r == parts[0]
  {
    if parts == [] then []
    else if |parts| == 1 then parts[0]
    else parts[0] + sep + Join(sep, parts[1..])
  }

  /** One more part is joined after a separator. */
  lemma {:induction false} JoinSnoc(sep: string, parts: seq<string>, x: string)
    requires parts != []
    ensures Join(sep, parts + [x]) == Join(sep, parts) + sep + x
    decreases |parts|
  {
    var s := parts + [x];
    assert s[0] == parts[0];
    assert s[1..] == parts[1..] + [x];
    if |parts| > 1 {
      JoinSnoc(sep, parts[1..], x);
      var j := Join(sep, parts[1..]);
      assert parts[0] + sep + (j + sep + x) == (parts[0] + sep + j) + sep + x;
    } else {
      assert s[1..] == [x];
    }
  }

  // ---------------------------------------------------------------------------
  // fetch_schema: group (table, column) rows by table
  // ---------------------------------------------------------------------------

  /** The tables of `rows` in the order they are first seen: the key order
      of the dictionary filled with `setdefault`. */
  function Tables(rows: seq<(string, string)>): seq<string>
  {
    if rows == [] then []
    else
      var p := Tables(rows[..|rows| - 1]);
      var t := rows[|rows| - 1].0;
      if t in p then p else p + [t]
  }

  /** Each table is listed once, and the listed tables are exactly those
      occurring in the rows. */
  lemma {:induction false} TablesListEachTableOnce(rows: seq<(string, string)>)
    ensures forall i, j :: 0 <= i < j < |Tables(rows)| ==> Tables(rows)[i] != Tables(rows)[j]
    ensures forall i :: 0 <= i < |rows| ==> rows[i].0 in Tables(rows)
    ensures forall t :: t in Tables(rows) ==> exists i :: 0 <= i < |rows| && rows[i].0 == t
  {
    if rows != [] {
      var front := rows[..|rows| - 1];
      TablesListEachTableOnce(front);
      assert forall i :: 0 <= i < |front| ==> rows[i] == front[i];
    }
  }

  /** The columns listed under table `t`, in row order. */
  function ColumnsOf(rows: seq<(string, string)>, t: string): (r: seq<string>)
    ensures |r| <= |rows|
  {
    if rows == [] then []
    else
      ColumnsOf(rows[..|rows| - 1], t)
      + (if rows[|rows| - 1].0 == t then [rows[|rows| - 1].1] else [])
  }

  /** One table's entry: `TABLE: t`, then `COLUMNS: ` and its columns
      joined by `, `, each line ended by a newline. */
  function TableBlock(t: string, cols: seq<string>): string
  {
    "TABLE: " + t + "\nCOLUMNS: " + Join(", ", cols) + "\n"
  }

  /** The schema text: the table entries joined by newlines. */
  function SchemaText(rows: seq<(string, string)>): string
  {
    var ts := Tables(rows);
    Join("\n", seq(|ts|, k requires 0 <= k < |ts| => TableBlock(ts[k], ColumnsOf(rows, ts[k]))))
  }

  /** `tables` and `columns` are the dictionary that grouping `rows` with
      `setdefault(...).append` has built: its keys in insertion order, and
      each key's list. */
  ghost predicate Grouped(rows: seq<(string, string)>, tables: seq<string>, columns: map<string, seq<string>>)
  {
    && tables == Tables(rows)
    && (forall t :: t in columns <==> t in tables)
    && (forall t :: t in columns ==> columns[t] == ColumnsOf(rows, t))
  }

  /** The text built from such a dictionary. */
  function DictText(tables: seq<string>, columns: map<string, seq<string>>): string
    requires forall t :: t in tables ==> t in columns
  {
    Join("\n", seq(|tables|, k requires 0 <= k < |tables| => TableBlock(tables[k], columns[tables[k]])))
  }

  /** The grouping loop of `fetch_schema` over the rows the schema query
      returned, and the text built from the dictionary. */
  method FormatSchema(rows: seq<(string, string)>) returns (text: string)
    ensures text == SchemaText(rows)
  {
    var tables: seq<string> := [];
    var columns: map<string, seq<string>> := map[];
    var i := 0;
    while i < |rows|
      invariant 0 <= i <= |rows|
      invariant Grouped(rows[..i], tables, columns)
    {
      var (table, column) := rows[i];
      var tables', columns';
      if table !in columns {
        tables' := tables + [table];
        columns' := columns[table := [column]];
      } else {
        tables' := tables;
        columns' := columns[table := columns[table] + [column]];
      }
      GroupingStep(rows, i, tables, columns, tables', columns');
      tables, columns := tables', columns';
      i := i + 1;
    }
    assert rows[..i] == rows;
    GroupedText(rows, tables, columns);
    text := DictText(tables, columns);
  }

  /** One row more keeps the dictionary in step: its table is added if new,
      its column appended to that table's list. */
  lemma GroupingStep(rows: seq<(string, string)>, i: nat, tables: seq<string>, columns: map<string, seq<string>>,
                     tables': seq<string>, columns': map<string, seq<string>>)
    requires i < |rows| && Grouped(rows[..i], tables, columns)
    requires rows[i].0 !in columns ==> tables' == tables + [rows[i].0] && columns' == columns[rows[i].0 := [rows[i].1]]
    requires rows[i].0 in columns ==> tables' == tables && columns' == columns[rows[i].0 := columns[rows[i].0] + [rows[i].1]]
    ensures Grouped(rows[..i + 1], tables', columns')
  {
    assert rows[..i + 1] == rows[..i] + [(rows[i].0, rows[i].1)];
    GroupedSnoc(rows[..i], rows[i].0, rows[i].1, tables, columns, tables', columns');
  }

  lemma GroupedSnoc(p: seq<(string, string)>, t: string, c: string, tables: seq<string>, columns: map<string, seq<string>>,
                    tables': seq<string>, columns': map<string, seq<string>>)
    requires Grouped(p, tables, columns)
    requires t !in columns ==> tables' == tables + [t] && columns' == columns[t := [c]]
    requires t in columns ==> tables' == tables && columns' == columns[t := columns[t] + [c]]
    ensures Grouped(p + [(t, c)], tables', columns')
  {
    SnocTables(p, t, c);
    forall u | u in columns'
      ensures columns'[u] == ColumnsOf(p + [(t, c)], u)
    {
      GroupedColumnStep(p, t, c, columns, columns', u);
    }
  }

  lemma GroupedColumnStep(p: seq<(string, string)>, t: string, c: string,
                          columns: map<string, seq<string>>, columns': map<string, seq<string>>, u: string)
    requires forall v :: v in columns <==> v in Tables(p)
    requires forall v :: v in columns ==> columns[v] == ColumnsOf(p, v)
    requires t !in columns ==> columns' == columns[t := [c]]
    requires t in columns ==> columns' == columns[t := columns[t] + [c]]
    requires u in columns'
    ensures columns'[u] == ColumnsOf(p + [(t, c)], u)
  {
    SnocColumns(p, t, c, u);
    if u == t && t !in columns {
      ColumnsOfAbsent(p, t);
    }
  }

  lemma SnocTables(p: seq<(string, string)>, t: string, c: string)
    ensures Tables(p + [(t, c)]) == if t in Tables(p) then Tables(p) else Tables(p) + [t]
  {
    assert (p + [(t, c)])[..|p|] == p;
  }

  lemma SnocColumns(p: seq<(string, string)>, t: string, c: string, u: string)
    ensures ColumnsOf(p + [(t, c)], u) == ColumnsOf(p, u) + if t == u then [c] else []
  {
    assert (p + [(t, c)])[..|p|] == p;
  }

  /** The dictionary's text is the schema text of the rows. */
  lemma GroupedText(rows: seq<(string, string)>, tables: seq<string>, columns: map<string, seq<string>>)
    requires Grouped(rows, tables, columns)
    ensures forall t :: t in tables ==> t in columns
    ensures DictText(tables, columns) == SchemaText(rows)
  {
    var xs := seq(|tables|, k requires 0 <= k < |tables| => TableBlock(tables[k], columns[tables[k]]));
    var ys := seq(|tables|, k requires 0 <= k < |tables| => TableBlock(tables[k], ColumnsOf(rows, tables[k])));
    assert forall k :: 0 <= k < |tables| ==> xs[k] == ys[k];
    assert xs == ys;
  }

  /** A table that never occurs has no columns. */
  lemma {:induction false} ColumnsOfAbsent(rows: seq<(string, string)>, t: string)
    requires t !in Tables(rows)
    ensures ColumnsOf(rows, t) == []
  {
    if rows != [] {
      var front := rows[..|rows| - 1];
      assert rows[|rows| - 1].0 in Tables(rows);
      assert forall u :: u in Tables(front) ==> u in Tables(rows);
      ColumnsOfAbsent(front, t);
    }
  }

  /** Later rows never reorder the tables already seen: the table order of
      a prefix is a prefix of the table order. */
  lemma {:induction false} TablesKeepFirstSeenOrder(a: seq<(string, string)>, b: seq<(string, string)>)
    ensures Tables(a) <= Tables(a + b)
    decreases |b|
  {
    if b == [] {
      assert a + b == a;
    } else {
      var b' := b[..|b| - 1];
      assert (a + b)[..|a + b| - 1] == a + b';
      TablesKeepFirstSeenOrder(a, b');
    }
  }

  /** Grouping keeps the column order: the columns of `a + b` under `t` are
      those of `a` followed by those of `b`. */
  lemma {:induction false} ColumnsOfAppend(a: seq<(string, string)>, b: seq<(string, string)>, t: string)
    ensures ColumnsOf(a + b, t) == ColumnsOf(a, t) + ColumnsOf(b, t)
    decreases |b|
  {
    if b == [] {
      assert a + b == a;
    } else {
      var b' := b[..|b| - 1];
      assert (a + b)[..|a + b| - 1] == a + b';
      ColumnsOfAppend(a, b', t);
    }
  }

  /** Every column of the rows appears under its own table. */
  lemma {:induction false} ColumnListed(rows: seq<(string, string)>, i: nat)
    requires i < |rows|
    ensures rows[i].1 in ColumnsOf(rows, rows[i].0)
  {
    var a, b := rows[..i + 1], rows[i + 1..];
    assert rows == a + b;
    ColumnsOfAppend(a, b, rows[i].0);
    assert a[..|a| - 1] == rows[..i];
    assert ColumnsOf(a, rows[i].0) == ColumnsOf(rows[..i], rows[i].0) + [rows[i].1];
  }

  /** Two columns of one table, from an ordered query. */
  lemma TwoColumnsOneTable(t: string, c1: string, c2: string)
    ensures SchemaText([(t, c1), (t, c2)]) == "TABLE: " + t + "\nCOLUMNS: " + c1 + ", " + c2 + "\n"
  {
    var rows := [(t, c1), (t, c2)];
    assert rows[..1] == [(t, c1)];
    assert rows[..1][..0] == [];
    assert Tables(rows[..1]) == [t];
    assert Tables(rows) == [t];
    assert ColumnsOf(rows[..1], t) == [c1];
    assert ColumnsOf(rows, t) == [c1, c2];
    assert [c1, c2][1..] == [c2];
  }

  // ---------------------------------------------------------------------------
  // fetch_relationships
  // ---------------------------------------------------------------------------

  /** One foreign key: source table and column, target table and column. */
  datatype ForeignKey = ForeignKey(source: string, sourceColumn: string, target: string, targetColumn: string)

  const RelationshipsHeader := "Relationships / Foreign Keys:\n"

  /** `- src.col -> tgt.col`, ended by a newline. */
  function KeyLine(k: ForeignKey): string
  {
    "- " + k.source + "." + k.sourceColumn + " -> " + k.target + "." + k.targetColumn + "\n"
  }

  function KeyLines(keys: seq<ForeignKey>): string
  {
    if keys == [] then [] else KeyLine(keys[0]) + KeyLines(keys[1..])
  }

  /** The relationship text: the header, then one line per key in row order. */
  function RelationshipsText(keys: seq<ForeignKey>): (r: string)
    ensures RelationshipsHeader <= r
  {
    RelationshipsHeader + KeyLines(keys)
  }

  /** The lines of two runs of keys are those of each, in order. */
  lemma {:induction false} KeyLinesAppend(a: seq<ForeignKey>, b: seq<ForeignKey>)
    ensures KeyLines(a + b) == KeyLines(a) + KeyLines(b)
  {
    if a == [] {
      assert a + b == b;
    } else {
      assert (a + b)[1..] == a[1..] + b;
      KeyLinesAppend(a[1..], b);
    }
  }

  /** Each key's line is part of the text. */
  lemma {:induction false} KeyListed(keys: seq<ForeignKey>, i: nat)
    requires i < |keys|
    ensures exists p :: OccursAt(RelationshipsText(keys), KeyLine(keys[i]), p)
  {
    var a, b := keys[..i], keys[i..];
    assert keys == a + b;
    KeyLinesAppend(a, b);
    assert KeyLines(b) == KeyLine(keys[i]) + KeyLines(b[1..]);
    OccursAfter(RelationshipsText(keys), RelationshipsHeader, KeyLines(a), KeyLine(keys[i]), KeyLines(b[1..]));
  }

  /** `y` occurs in `h + u + y + z` right after `h + u`. */
  lemma OccursAfter(text: string, h: string, u: string, y: string, z: string)
    requires text == h + (u + (y + z))
    ensures OccursAt(text, y, |h| + |u|)
  {
    assert text[|h| + |u|..|h| + |u| + |y|] == y;
  }

  /** Without foreign keys only the header is left. */
  lemma NoKeysHeaderOnly()
    ensures RelationshipsText([]) == "Relationships / Foreign Keys:\n"
  {
  }

  // ---------------------------------------------------------------------------
  // log_interaction: field escaping
  // ---------------------------------------------------------------------------

  /** The escaping of one character: a newline becomes a space, a comma a
      semicolon. */
  function EscapeChar(c: char): char
  {
    if c == '\n' then ' ' else if c == ',' then ';' else c
  }

  /** `s.replace("\n", " ").replace(",", ";") if s else ""`: a field that
      cannot break the comma-separated log line. */
  function CsvSafe(s: Option<string>): (r: string)
    ensures s.None? || s == Some([]) ==> r == []
    ensures s.Some? ==> |r| == |s.value|
    ensures s.Some? ==> forall i :: 0 <= i < |r| ==> r[i] == EscapeChar(s.value[i])
  {
    if s.None? || s.value == [] then []
    else
      var once := ReplaceAll(s.value, "\n", " ");
      ReplaceCharMaps(s.value, '\n', ' ');
      ReplaceCharMaps(once, ',', ';');
      ReplaceAll(once, ",", ";")
  }

  /** Replacing one character by another rewrites each occurrence in place. */
  lemma {:induction false} ReplaceCharMaps(s: string, c: char, d: char)
    ensures |ReplaceAll(s, [c], [d])| == |s|
    ensures forall i :: 0 <= i < |s| ==> ReplaceAll(s, [c], [d])[i] == if s[i] == c then d else s[i]
  {
    if s != [] {
      ReplaceCharMaps(s[1..], c, d);
      assert [c] <= s <==> s[0] == c;
    }
  }

  /** An escaped field holds no comma and no newline. */
  lemma CsvSafeSeparatorFree(s: Option<string>)
    ensures ',' !in CsvSafe(s) && '\n' !in CsvSafe(s)
  {
    var r := CsvSafe(s);
    assert forall i :: 0 <= i < |r| ==> r[i] != ',' && r[i] != '\n';
  }

  /** Escaping changes nothing in a field that has no comma or newline. */
  lemma CsvSafeOfPlain(s: string)
    requires ',' !in s && '\n' !in s
    ensures CsvSafe(Some(s)) == s
  {
    var r := CsvSafe(Some(s));
    assert forall i :: 0 <= i < |s| ==> s[i] in s;
    assert forall i :: 0 <= i < |s| ==> r[i] == s[i];
  }

  /** `len(results) if results else 0`. */
  function RowsCount<T>(results: Option<seq<T>>): (n: nat)
    ensures results.None? ==> n == 0
    ensures results.Some? ==> n == |results.value|
  {
    if results.Some? && results.value != [] then |results.value| else 0
  }
}
