/**
 * How db.go turns the rows of one data file into a single multi-row insert
 * statement: the column list (`getInsertFields`), each row's value list and
 * bound parameters (`generateInsert`), and the statement text `load` issues.
 */
module Insert {
  import opened Wrappers
  import opened Text
  import opened Errors
  import opened Conf

  /** A column name as it appears in the statement: between backquotes. */
  function Quote(name: string): string
  {
    "`" + name + "`"
  }

  lemma QuoteInjective(a: string, b: string)
    requires Quote(a) == Quote(b)
    ensures a == b
  {
    assert a == Quote(a)[1..|a| + 1];
    assert b == Quote(b)[1..|b| + 1];
  }

  /** The column a cell goes to: its `column` override, or else the field name. */
  function Destination(field: string, cell: CellDef): string
  {
    if cell.column == "" then field else cell.column
  }

  /** The quoted column field `f` of the row goes to: the key `generateInsert` indexes it by. */
  function Key(row: Row, f: string): string
    requires f in row
  {
    Quote(Destination(f, row[f]))
  }

  /** The columns the fields of one row go to. */
  function RowColumns(row: Row): set<string>
  {
    set f | f in row :: Destination(f, row[f])
  }

  /** The columns any of the rows writes to, unquoted. */
  function Columns(rows: seq<Row>): set<string>
    decreases |rows|
  {
    if rows == [] then {} else Columns(rows[..|rows| - 1]) + RowColumns(rows[|rows| - 1])
  }

  /** The column list of the insert, as a set: every quoted destination of every row. */
  function QuotedColumns(rows: seq<Row>): set<string>
  {
    set c | c in Columns(rows) :: Quote(c)
  }

  /** A column is listed exactly when some field of some row goes to it. */
  lemma {:induction false} ColumnsMembers(rows: seq<Row>, c: string)
    ensures c in Columns(rows) <==> exists k, f :: 0 <= k < |rows| && f in rows[k] && Destination(f, rows[k][f]) == c
    decreases |rows|
  {
    if rows != [] {
      var init := rows[..|rows| - 1];
      ColumnsMembers(init, c);
      if c in Columns(rows) {
        if c !in Columns(init) {
          var f :| f in rows[|rows| - 1] && Destination(f, rows[|rows| - 1][f]) == c;
        } else {
          var k, f :| 0 <= k < |init| && f in init[k] && Destination(f, init[k][f]) == c;
          assert rows[k] == init[k];
        }
      } else {
        forall k, f | 0 <= k < |rows| && f in rows[k] ensures Destination(f, rows[k][f]) != c {
          if k < |init| {
            assert rows[k] == init[k];
          } else {
            assert Destination(f, rows[k][f]) in RowColumns(rows[|rows| - 1]);
          }
        }
      }
    }
  }

  /** `sort.Strings`: an ascending permutation of its input. */
  method SortStrings(a: seq<string>) returns (r: seq<string>)
    ensures Sorted(r) && multiset(r) == multiset(a)
  {
    r := [];
    for i := 0 to |a|
      invariant Sorted(r) && multiset(r) == multiset(a[..i])
    {
      assert a[..i + 1] == a[..i] + [a[i]];
      r := InsertSorted(r, a[i]);
    }
    assert a[..|a|] == a;
  }

  /**
   * `getInsertFields`: collects every row's destinations into a set, quotes
   * them, and sorts them. The result lists each column once, in ascending order
   * of the quoted names, and so depends only on the set of columns.
   */
  method GetInsertFields(rows: seq<Row>) returns (fields: seq<string>)
    ensures StrictlySorted(fields)
    ensures Elems(fields) == QuotedColumns(rows)
    ensures fields == SortedSet(QuotedColumns(rows))
  {
    var fieldMap: set<string> := {};
    for i := 0 to |rows|
      invariant fieldMap == Columns(rows[..i])
    {
      var row := rows[i];
      var keys := row.Keys;
      ghost var seen: set<string> := {};
      while keys != {}
        invariant keys !! seen && keys + seen == row.Keys
        invariant fieldMap == Columns(rows[..i]) + set f | f in seen :: Destination(f, row[f])
        decreases keys
      {
        var field :| field in keys;
        var def := row[field];
        if def.column == "" {
          fieldMap := fieldMap + {field};
        } else {
          fieldMap := fieldMap + {def.column};
        }
        keys := keys - {field};
        seen := seen + {field};
      }
      assert rows[..i + 1][..i] == rows[..i] && rows[..i + 1][i] == row;
    }
    assert rows[..|rows|] == rows;

    var unsorted: seq<string> := [];
    var remaining := fieldMap;
    ghost var done: set<string> := {};
    while remaining != {}
      invariant remaining !! done && remaining + done == fieldMap
      invariant forall x :: x in Elems(unsorted) <==> exists c :: c in done && Quote(c) == x
      invariant Distinct(unsorted)
      decreases remaining
    {
      var field :| field in remaining;
      AppendQuoted(unsorted, done, field);
      unsorted := unsorted + [Quote(field)];
      remaining := remaining - {field};
      done := done + {field};
    }
    assert Elems(unsorted) == QuotedColumns(rows);
    fields := SortStrings(unsorted);
    PermutationKeepsDistinct(unsorted, fields);
    SortedDistinctIsStrict(fields);
    assert Elems(fields) == Elems(unsorted) by {
      forall x ensures x in Elems(fields) <==> x in Elems(unsorted) {
        assert x in Elems(fields) <==> x in multiset(fields);
        assert x in Elems(unsorted) <==> x in multiset(unsorted);
      }
    }
    StrictlySortedUnique(fields, SortedSet(QuotedColumns(rows)));
  }

  lemma AppendQuoted(unsorted: seq<string>, done: set<string>, field: string)
    requires forall x :: x in Elems(unsorted) <==> exists c :: c in done && Quote(c) == x
    requires Distinct(unsorted) && field !in done
    ensures forall x :: x in Elems(unsorted + [Quote(field)]) <==> exists c :: c in done + {field} && Quote(c) == x
    ensures Distinct(unsorted + [Quote(field)])
  {
    var u := unsorted + [Quote(field)];
    assert Elems(u) == Elems(unsorted) + {Quote(field)};
    forall k | 0 <= k < |unsorted| ensures unsorted[k] != Quote(field) {
      assert unsorted[k] in Elems(unsorted);
      var c :| c in done && Quote(c) == unsorted[k];
      if unsorted[k] == Quote(field) {
        QuoteInjective(c, field);
      }
    }
    forall i, j | 0 <= i < j < |u| ensures u[i] != u[j] {
      if j < |unsorted| {
        assert u[i] == unsorted[i] && u[j] == unsorted[j];
      } else {
        assert u[i] == unsorted[i];
      }
    }
  }

  /**
   * No two fields of the row go to the same column. Without this, which of
   * the colliding cells a column takes depends on Go's map iteration order.
   */
  ghost predicate DistinctDestinations(row: Row)
  {
    forall f, g :: f in row && g in row && Destination(f, row[f]) == Destination(g, row[g]) ==> f == g
  }

  /** The cell of the row that goes to the quoted column, if any. */
  ghost function CellAt(row: Row, column: string): Option<CellDef>
  {
    if exists f :: f in row && Key(row, f) == column then
      var f :| f in row && Key(row, f) == column;
      Some(row[f])
    else None
  }

  /** What one column of a row contributes: the text in the value list and the parameters bound. */
  datatype Rendered = Rendered(text: string, bound: seq<Param>)

  /** A cell written into the statement text rather than bound as a parameter. */
  predicate IsInline(cell: Option<CellDef>)
  {
    cell.Some? && cell.value.notNil && !cell.value.isParameter
  }

  /**
   * `generateInsert`'s per-column rule: a missing or null cell binds nil, a
   * parameter cell binds its value, and any other cell is written inline.
   */
  function Render(cell: Option<CellDef>): (r: Rendered)
    ensures IsInline(cell) <==> r.bound == []
    ensures IsInline(cell) ==> r.text == cell.value.value
    ensures !IsInline(cell) ==> r.text == "?" && |r.bound| == 1
    ensures (cell.None? || !cell.value.notNil) ==> r.bound == [Nil]
    ensures cell.Some? && cell.value.notNil && cell.value.isParameter ==> r.bound == [Str(cell.value.value)]
  {
    match cell
    case None => Rendered("?", [Nil])
    case Some(c) =>
      if !c.notNil then Rendered("?", [Nil])
      else if c.isParameter then Rendered("?", [Str(c.value)])
      else Rendered(c.value, [])
  }

  /** The value list of a row, column by column. */
  ghost function RowValues(fields: seq<string>, row: Row): (values: seq<string>)
    ensures |values| == |fields|
  {
    seq(|fields|, i requires 0 <= i < |fields| => Render(CellAt(row, fields[i])).text)
  }

  /** The parameters a row binds, in column order. */
  ghost function RowParams(fields: seq<string>, row: Row): seq<Param>
    decreases |fields|
  {
    if fields == [] then []
    else RowParams(fields[..|fields| - 1], row) + Render(CellAt(row, fields[|fields| - 1])).bound
  }

  /**
   * `generateInsert`: indexes the row's cells by quoted destination, then walks
   * the column list, rendering each column's cell (or nil for a missing one).
   */
  method GenerateInsert(fields: seq<string>, row: Row) returns (values: seq<string>, params: seq<Param>)
    requires DistinctDestinations(row)
    ensures values == RowValues(fields, row)
    ensures params == RowParams(fields, row)
  {
    params := [];
    values := [];
    assert RowValues([], row) == [];
    var columns: map<string, CellDef> := map[];
    var keys := row.Keys;
    ghost var seen: set<string> := {};
    while keys != {}
      invariant keys !! seen && keys + seen == row.Keys
      invariant Indexes(row, seen, columns)
      decreases keys
    {
      var field :| field in keys;
      var cellDef := row[field];
      IndexStep(row, seen, columns, field);
      assert Key(row, field) == if cellDef.column == "" then Quote(field) else Quote(cellDef.column);
      if cellDef.column == "" {
        columns := columns[Quote(field) := cellDef];
      } else {
        columns := columns[Quote(cellDef.column) := cellDef];
      }
      keys := keys - {field};
      seen := seen + {field};
    }
    for i := 0 to |fields|
      invariant values == RowValues(fields[..i], row)
      invariant params == RowParams(fields[..i], row)
    {
      var field := fields[i];
      ColumnIsCell(row, columns, field);
      RowParamsStep(fields, row, i);
      ghost var r := Render(if field in columns then Some(columns[field]) else None);
      if field in columns {
        var cellDef := columns[field];
        if !cellDef.notNil {
          values := values + ["?"];
          params := params + [Nil];
        } else if cellDef.isParameter {
          values := values + ["?"];
          params := params + [Str(cellDef.value)];
        } else {
          values := values + [cellDef.value];
          params := params + [];
        }
      } else {
        values := values + ["?"];
        params := params + [Nil];
      }
      assert values == RowValues(fields[..i], row) + [r.text] && params == RowParams(fields[..i], row) + r.bound;
    }
    assert fields[..|fields|] == fields;
  }

  lemma RowParamsStep(fields: seq<string>, row: Row, i: nat)
    requires i < |fields|
    ensures RowParams(fields[..i + 1], row) == RowParams(fields[..i], row) + Render(CellAt(row, fields[i])).bound
    ensures RowValues(fields[..i + 1], row) == RowValues(fields[..i], row) + [Render(CellAt(row, fields[i])).text]
  {
    assert fields[..i + 1][..i] == fields[..i] && fields[..i + 1][i] == fields[i];
  }

  /** The quoted columns the fields `seen` of the row go to. */
  function KeysOf(row: Row, seen: set<string>): set<string>
    requires seen <= row.Keys
  {
    set f | f in seen :: Key(row, f)
  }

  /** `columns` indexes the fields `seen` of the row by quoted destination. */
  ghost predicate Indexes(row: Row, seen: set<string>, columns: map<string, CellDef>)
  {
    && seen <= row.Keys
    && columns.Keys == KeysOf(row, seen)
    && (forall f :: f in seen ==> columns[Key(row, f)] == row[f])
  }

  lemma IndexStep(row: Row, seen: set<string>, columns: map<string, CellDef>, field: string)
    requires DistinctDestinations(row) && Indexes(row, seen, columns) && field in row && field !in seen
    ensures Indexes(row, seen + {field}, columns[Key(row, field) := row[field]])
  {
    var q := Key(row, field);
    assert KeysOf(row, seen + {field}) == KeysOf(row, seen) + {q};
    forall g | g in seen ensures Key(row, g) != q {
      if Key(row, g) == q {
        QuoteInjective(Destination(g, row[g]), Destination(field, row[field]));
      }
    }
  }

  /** The index `generateInsert` builds agrees with `CellAt` on the column. */
  lemma ColumnIsCell(row: Row, columns: map<string, CellDef>, c: string)
    requires DistinctDestinations(row) && Indexes(row, row.Keys, columns)
    ensures (c in columns <==> CellAt(row, c).Some?) && (c in columns ==> columns[c] == CellAt(row, c).value)
  {
    if c in columns {
      var f :| f in row && Key(row, f) == c;
      assert columns[c] == row[f];
      var g :| g in row && Key(row, g) == c && CellAt(row, c) == Some(row[g]);
      QuoteInjective(Destination(f, row[f]), Destination(g, row[g]));
    }
  }

  /** How many entries of the value list are the placeholder "?". */
  function Placeholders(values: seq<string>): nat
    decreases |values|
  {
    if values == [] then 0
    else Placeholders(values[..|values| - 1]) + (if values[|values| - 1] == "?" then 1 else 0)
  }

  /** No inline cell of the row is spelled "?" (which would read as a placeholder). */
  ghost predicate NoinlinePlaceholder(row: Row)
  {
    forall f :: f in row && row[f].notNil && !row[f].isParameter ==> row[f].value != "?"
  }

  /** Each "?" in a row's value list has exactly one bound parameter, in order. */
  lemma {:induction false} PlaceholdersMatchParams(fields: seq<string>, row: Row)
    requires NoinlinePlaceholder(row)
    ensures Placeholders(RowValues(fields, row)) == |RowParams(fields, row)|
    decreases |fields|
  {
    if fields != [] {
      var init := fields[..|fields| - 1];
      PlaceholdersMatchParams(init, row);
      var values := RowValues(fields, row);
      assert values[..|values| - 1] == RowValues(init, row);
      var cell := CellAt(row, fields[|fields| - 1]);
      if IsInline(cell) {
        var f :| f in row && Key(row, f) == fields[|fields| - 1] && cell == Some(row[f]);
      }
    }
  }

  /** One parenthesised value group of the statement. */
  ghost function RowGroup(fields: seq<string>, row: Row): string
  {
    "(" + Join(RowValues(fields, row), ",") + ")"
  }

  ghost function RowGroups(fields: seq<string>, rows: seq<Row>): (groups: seq<string>)
    ensures |groups| == |rows|
    decreases |rows|
  {
    if rows == [] then [] else RowGroups(fields, rows[..|rows| - 1]) + [RowGroup(fields, rows[|rows| - 1])]
  }

  /** All rows' parameters, row after row. */
  ghost function AllParams(fields: seq<string>, rows: seq<Row>): seq<Param>
    decreases |rows|
  {
    if rows == [] then [] else AllParams(fields, rows[..|rows| - 1]) + RowParams(fields, rows[|rows| - 1])
  }

  /** All rows' value lists, row after row. */
  ghost function AllValues(fields: seq<string>, rows: seq<Row>): seq<string>
    decreases |rows|
  {
    if rows == [] then [] else AllValues(fields, rows[..|rows| - 1]) + RowValues(fields, rows[|rows| - 1])
  }

  lemma {:induction false} PlaceholdersAppend(a: seq<string>, b: seq<string>)
    ensures Placeholders(a + b) == Placeholders(a) + Placeholders(b)
    decreases |b|
  {
    if b != [] {
      var b' := b[..|b| - 1];
      PlaceholdersAppend(a, b');
      assert (a + b)[..|a + b| - 1] == a + b';
    } else {
      assert a + b == a;
    }
  }

  /** The statement binds exactly as many parameters as its value lists hold placeholders. */
  lemma {:induction false} InsertPlaceholdersMatchParams(fields: seq<string>, rows: seq<Row>)
    requires forall k :: 0 <= k < |rows| ==> NoinlinePlaceholder(rows[k])
    ensures Placeholders(AllValues(fields, rows)) == |AllParams(fields, rows)|
    decreases |rows|
  {
    if rows != [] {
      var init := rows[..|rows| - 1];
      InsertPlaceholdersMatchParams(fields, init);
      PlaceholdersMatchParams(fields, rows[|rows| - 1]);
      PlaceholdersAppend(AllValues(fields, init), RowValues(fields, rows[|rows| - 1]));
    }
  }

  /** The column list of a data set's insert. */
  ghost function InsertFields(rows: seq<Row>): seq<string>
  {
    SortedSet(QuotedColumns(rows))
  }

  /** The statement `load` issues for a data set, under the run's prefix. */
  ghost function InsertQuery(prefix: string, data: DataDef): string
  {
    var fields := InsertFields(data.rows);
    "insert into `" + prefix + "_" + data.schema + "`.`" + data.table + "` (" + Join(fields, ",") + ") VALUES "
      + Join(RowGroups(fields, data.rows), ",")
  }

  /** The parameters bound to that statement. */
  ghost function InsertParams(data: DataDef): seq<Param>
  {
    AllParams(InsertFields(data.rows), data.rows)
  }

  /** Every row of the data set has fields going to distinct columns. */
  ghost predicate WellFormedData(data: DataDef)
  {
    forall k :: 0 <= k < |data.rows| ==> DistinctDestinations(data.rows[k])
  }

  lemma RowsStep(fields: seq<string>, rows: seq<Row>, i: nat)
    requires i < |rows|
    ensures RowGroups(fields, rows[..i + 1]) == RowGroups(fields, rows[..i]) + [RowGroup(fields, rows[i])]
    ensures AllParams(fields, rows[..i + 1]) == AllParams(fields, rows[..i]) + RowParams(fields, rows[i])
  {
    assert rows[..i + 1][..i] == rows[..i] && rows[..i + 1][i] == rows[i];
  }

  /**
   * The statement-building part of `load`: the column list, then one value
   * group and its parameters per row.
   */
  method BuildInsert(prefix: string, data: DataDef) returns (query: string, parameters: seq<Param>)
    requires WellFormedData(data)
    ensures query == InsertQuery(prefix, data)
    ensures parameters == InsertParams(data)
  {
    var fields := GetInsertFields(data.rows);
    var rows: seq<string> := [];
    parameters := [];
    for i := 0 to |data.rows|
      invariant rows == RowGroups(fields, data.rows[..i])
      invariant parameters == AllParams(fields, data.rows[..i])
    {
      var rowInsert, rowParams := GenerateInsert(fields, data.rows[i]);
      RowsStep(fields, data.rows, i);
      rows := rows + ["(" + Join(rowInsert, ",") + ")"];
      parameters := parameters + rowParams;
    }
    assert data.rows[..|data.rows|] == data.rows;
    assert fields == InsertFields(data.rows);
    query := "insert into `" + prefix + "_" + data.schema + "`.`" + data.table + "` (" + Join(fields, ",") + ") VALUES "
      + Join(rows, ",");
  }

  /**
   * The column list sorts the quoted names, which is not the order of the bare
   * names: "a" comes before "a-b", but "`a-b`" comes before "`a`".
   */
  lemma QuotedOrderDiffers()
    ensures Less("a", "a-b") && Less(Quote("a-b"), Quote("a"))
  {
    assert "a-b"[..1] == "a";
  }
}
