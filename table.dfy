/** The table-building steps of the import-statistics page: keep the
    finished-import events, sort them by creation time, and derive the
    one-step-lag columns `rows_delta` and `schema_evolution`. Each step is
    a whole-column operation, so each is a function on sequences; the
    column primitives (`Shift`, `FillNa`, ...) mirror the pandas calls the
    script chains together. */
module Table {
  import opened Events

  /** A cell that may be missing (pandas' NaN). */
  datatype Option<T> = None | Some(value: T)

  // ---------------------------------------------------------------------
  // Event filter

  /** The records whose `event` is the finished-import sentinel, in their
      original order. */
  function ImportsOnly(rs: seq<Record>): (r: seq<Record>)
    ensures |r| <= |rs|
    ensures forall x :: x in r <==> x in rs && x.event == IMPORT_DONE
  {
    if |rs| == 0 then []
    else
      var rest := ImportsOnly(rs[..|rs| - 1]);
      assert rs == rs[..|rs| - 1] + [rs[|rs| - 1]];
      if rs[|rs| - 1].event == IMPORT_DONE then rest + [rs[|rs| - 1]] else rest
  }

  /** The filter keeps each finished-import record as often as it occurs
      and no other record. */
  lemma {:induction false} ImportsOnlyCounts(rs: seq<Record>, x: Record)
    ensures multiset(ImportsOnly(rs))[x] == if x.event == IMPORT_DONE then multiset(rs)[x] else 0
    decreases |rs|
  {
    if |rs| > 0 {
      var init := rs[..|rs| - 1];
      ImportsOnlyCounts(init, x);
      assert rs == init + [rs[|rs| - 1]];
    }
  }

  /** Filtering commutes with concatenation, so the filter keeps the
      relative order of the records it keeps. */
  lemma {:induction false} ImportsOnlyAppend(a: seq<Record>, b: seq<Record>)
    ensures ImportsOnly(a + b) == ImportsOnly(a) + ImportsOnly(b)
    decreases |b|
  {
    if |b| > 0 {
      var init := b[..|b| - 1];
      assert (a + b)[..|a + b| - 1] == a + init;
      ImportsOnlyAppend(a, init);
    } else {
      assert a + b == a;
    }
  }

  /** Filtering twice keeps the same records as filtering once. */
  lemma {:induction false} ImportsOnlyIdempotent(rs: seq<Record>)
    ensures ImportsOnly(ImportsOnly(rs)) == ImportsOnly(rs)
    decreases |rs|
  {
    if |rs| > 0 {
      var init := rs[..|rs| - 1];
      var last := rs[|rs| - 1];
      ImportsOnlyIdempotent(init);
      if last.event == IMPORT_DONE {
        ImportsOnlyAppend(ImportsOnly(init), [last]);
        assert ImportsOnly([last]) == ImportsOnly([])+ [last];
      }
    }
  }

  /** A table of finished imports passes the filter unchanged. */
  lemma {:induction false} ImportsOnlyKeepsAll(rs: seq<Record>)
    requires forall i :: 0 <= i < |rs| ==> rs[i].event == IMPORT_DONE
    ensures ImportsOnly(rs) == rs
    decreases |rs|
  {
    if |rs| > 0 {
      ImportsOnlyKeepsAll(rs[..|rs| - 1]);
      assert rs == rs[..|rs| - 1] + [rs[|rs| - 1]];
    }
  }

  /** No record the filter drops comes before a record it keeps. The
      filter keeps the row labels `0, 1, ...` the collected records carry,
      while the columns flattened out of the kept rows are labelled afresh
      from 0; the two line up exactly in this case. */
  predicate ImportsLead(rs: seq<Record>)
  {
    forall i, j :: 0 <= i < j < |rs| && rs[j].event == IMPORT_DONE ==> rs[i].event == IMPORT_DONE
  }

  /** When the finished imports lead, the kept records are exactly the
      first `|ImportsOnly(rs)|` records, labelled `0, 1, ...`. */
  lemma {:induction false} ImportsLeadPrefix(rs: seq<Record>)
    requires ImportsLead(rs)
    ensures ImportsOnly(rs) == rs[..|ImportsOnly(rs)|]
    decreases |rs|
  {
    if |rs| > 0 {
      var init := rs[..|rs| - 1];
      if rs[|rs| - 1].event == IMPORT_DONE {
        ImportsOnlyKeepsAll(rs);
      } else {
        ImportsLeadPrefix(init);
        var k := |ImportsOnly(rs)|;
        assert rs[..k] == init[..k];
      }
    }
  }

  /** When the kept records are the first `|ImportsOnly(rs)|` records, the
      records after them are all dropped, so the finished imports lead. */
  lemma {:induction false} AlignedImportsLead(rs: seq<Record>)
    requires ImportsOnly(rs) == rs[..|ImportsOnly(rs)|]
    ensures ImportsLead(rs)
  {
    var k := |ImportsOnly(rs)|;
    var a, b := rs[..k], rs[k..];
    assert rs == a + b;
    forall m | 0 <= m < k
      ensures rs[m].event == IMPORT_DONE
    {
      assert a[m] in ImportsOnly(rs);
    }
    ImportsOnlyKeepsAll(a);
    ImportsOnlyAppend(a, b);
    assert ImportsOnly(b) == [];
    forall m | k <= m < |rs|
      ensures rs[m].event != IMPORT_DONE
    {
      assert b[m - k] == rs[m];
      assert rs[m] !in ImportsOnly(b);
    }
  }

  /** The filter keeps the labels of the records it keeps, and the
      flattened columns are labelled `0 .. |ImportsOnly(rs)| - 1`: the two
      agree exactly when the finished imports lead. */
  lemma ImportsLeadAligned(rs: seq<Record>)
    ensures ImportsLead(rs) <==> ImportsOnly(rs) == rs[..|ImportsOnly(rs)|]
  {
    if ImportsLead(rs) {
      ImportsLeadPrefix(rs);
    }
    if ImportsOnly(rs) == rs[..|ImportsOnly(rs)|] {
      AlignedImportsLead(rs);
    }
  }

  // ---------------------------------------------------------------------
  // Ascending sort by `created`

  predicate SortedByCreated(t: seq<Record>)
  {
    forall i, j :: 0 <= i < j < |t| ==> t[i].created <= t[j].created
  }

  /** Place `x` after every record created no later than it. */
  function Insert(x: Record, t: seq<Record>): (r: seq<Record>)
    requires SortedByCreated(t)
    ensures SortedByCreated(r)
    ensures multiset(r) == multiset(t) + multiset{x}
    ensures |r| == |t| + 1
    ensures r[0] == if |t| == 0 || x.created < t[0].created then x else t[0]
  {
    if |t| == 0 then [x]
    else if x.created < t[0].created then [x] + t
    else
      var rest := Insert(x, t[1..]);
      assert t == [t[0]] + t[1..];
      [t[0]] + rest
  }

  /** The table sorted ascending by `created` (insertion sort). */
  function SortByCreated(t: seq<Record>): (r: seq<Record>)
    ensures SortedByCreated(r)
    ensures multiset(r) == multiset(t)
    ensures |r| == |t|
  {
    if |t| == 0 then []
    else
      assert t == t[..|t| - 1] + [t[|t| - 1]];
      Insert(t[|t| - 1], SortByCreated(t[..|t| - 1]))
  }

  // ---------------------------------------------------------------------
  // Column primitives

  /** `Series.shift()`: every value moves one row down, the first row is missing. */
  function Shift<T>(col: seq<T>): (r: seq<Option<T>>)
    ensures |r| == |col|
    ensures |col| > 0 ==> r[0] == None
    ensures forall i :: 0 < i < |col| ==> r[i] == Some(col[i - 1])
  {
    if |col| == 0 then []
    else [None] + seq(|col| - 1, i requires 0 <= i < |col| - 1 => Some(col[i]))
  }

  /** A column with no missing value. */
  function Lift<T>(col: seq<T>): (r: seq<Option<T>>)
    ensures |r| == |col|
    ensures forall i :: 0 <= i < |col| ==> r[i] == Some(col[i])
  {
    seq(|col|, i requires 0 <= i < |col| => Some(col[i]))
  }

  /** Row-wise `a - b`; missing wherever either operand is missing. */
  function Subtract(a: seq<Option<int>>, b: seq<Option<int>>): (r: seq<Option<int>>)
    requires |a| == |b|
    ensures |r| == |a|
    ensures forall i :: 0 <= i < |a| ==>
      r[i] == if a[i].Some? && b[i].Some? then Some(a[i].value - b[i].value) else None
  {
    seq(|a|, i requires 0 <= i < |a| =>
      if a[i].Some? && b[i].Some? then Some(a[i].value - b[i].value) else None)
  }

  /** `Series.fillna(v)`: every missing value replaced by `v`. */
  function FillNa(col: seq<Option<int>>, v: int): (r: seq<int>)
    ensures |r| == |col|
    ensures forall i :: 0 <= i < |col| && col[i].None? ==> r[i] == v
    ensures forall i :: 0 <= i < |col| && col[i].Some? ==> r[i] == col[i].value
  {
    seq(|col|, i requires 0 <= i < |col| => if col[i].Some? then col[i].value else v)
  }

  function RowsCounts(t: seq<Record>): (r: seq<int>)
    ensures |r| == |t|
  {
    seq(|t|, i requires 0 <= i < |t| => t[i].rowsCount)
  }

  function ImportedColumns(t: seq<Record>): (r: seq<seq<string>>)
    ensures |r| == |t|
  {
    seq(|t|, i requires 0 <= i < |t| => t[i].importedColumns)
  }

  // ---------------------------------------------------------------------
  // rows_delta

  /** `rowsCount - rowsCount.shift()`, then `fillna(0)`. */
  function RowsDelta(t: seq<Record>): (d: seq<int>)
    ensures |d| == |t|
    ensures |t| > 0 ==> d[0] == 0
    ensures forall i :: 0 < i < |t| ==> d[i] == t[i].rowsCount - t[i - 1].rowsCount
  {
    var rows := RowsCounts(t);
    FillNa(Subtract(Lift(rows), Shift(rows)), 0)
  }

  function Sum(s: seq<int>): int
  {
    if |s| == 0 then 0 else Sum(s[..|s| - 1]) + s[|s| - 1]
  }

  /** The deltas invert to the counts: each row's count is the first
      row's count plus the deltas up to and including that row. */
  lemma {:induction false} DeltasRebuildCounts(t: seq<Record>, i: nat)
    requires i < |t|
    ensures t[i].rowsCount == t[0].rowsCount + Sum(RowsDelta(t)[..i + 1])
  {
    var d := RowsDelta(t);
    if i == 0 {
      assert d[..1][..0] == [];
    } else {
      DeltasRebuildCounts(t, i - 1);
      assert d[..i + 1][..i] == d[..i];
    }
  }

  /** The deltas of a non-empty table sum to its last count minus its first. */
  lemma DeltasSumToChange(t: seq<Record>)
    requires |t| > 0
    ensures Sum(RowsDelta(t)) == t[|t| - 1].rowsCount - t[0].rowsCount
  {
    DeltasRebuildCounts(t, |t| - 1);
    assert RowsDelta(t)[..|t|] == RowsDelta(t);
  }

  // ---------------------------------------------------------------------
  // schema_evolution

  /** `Series.equals`: same length and equal row by row, where a missing
      value equals only a missing value. */
  function SeriesEquals<T(==)>(a: seq<Option<T>>, b: seq<Option<T>>): (same: bool)
    ensures same <==> |a| == |b| && forall i :: 0 <= i < |a| ==> a[i] == b[i]
  {
    a == b
  }

  /** The column as the script computes it: ONE comparison of the whole
      `importedColumns` column with its shifted copy, broadcast to every
      row. */
  function SchemaEvolutionAsWritten(t: seq<Record>): (r: seq<bool>)
    ensures |r| == |t|
    ensures forall i, j :: 0 <= i < |t| && 0 <= j < |t| ==> r[i] == r[j]
  {
    var cols := ImportedColumns(t);
    var same := SeriesEquals(Lift(cols), Shift(cols));
    seq(|t|, i requires 0 <= i < |t| => same)
  }

  /** As written, the column is false on every row of every non-empty
      table: the first row always compares a present value with the
      missing value the shift put there. */
  lemma SchemaEvolutionAsWrittenAlwaysFalse(t: seq<Record>)
    requires |t| > 0
    ensures forall i :: 0 <= i < |t| ==> !SchemaEvolutionAsWritten(t)[i]
  {
    var cols := ImportedColumns(t);
    assert Lift(cols)[0] != Shift(cols)[0];
  }

  /** Row-wise comparison of a column with its lag; missing where the lag is. */
  function EqualsLag<T(==)>(col: seq<T>, lag: seq<Option<T>>): (r: seq<Option<bool>>)
    requires |col| == |lag|
    ensures |r| == |col|
  {
    seq(|col|, i requires 0 <= i < |col| =>
      if lag[i].Some? then Some(col[i] == lag[i].value) else None)
  }

  /** The per-row schema flag: whether a row imported the same columns as
      the row before it; unknown on the first row, which has none. */
  function SchemaEvolution(t: seq<Record>): (r: seq<Option<bool>>)
    ensures |r| == |t|
    ensures |t| > 0 ==> r[0] == None
    ensures forall i :: 0 < i < |t| ==>
      r[i] == Some(t[i].importedColumns == t[i - 1].importedColumns)
  {
    var cols := ImportedColumns(t);
    EqualsLag(cols, Shift(cols))
  }

  /** The flag agrees with its predecessor on every row exactly when the
      schema never changed across the table. */
  lemma SchemaNeverChanged(t: seq<Record>)
    ensures (forall i :: 0 < i < |t| ==> SchemaEvolution(t)[i] == Some(true))
        <==> (forall i :: 0 <= i < |t| ==> t[i].importedColumns == t[0].importedColumns)
  {
    if forall i :: 0 < i < |t| ==> SchemaEvolution(t)[i] == Some(true) {
      forall i | 0 <= i < |t|
        ensures t[i].importedColumns == t[0].importedColumns
      {
        SameAsFirst(t, i);
      }
    }
  }

  lemma {:induction false} SameAsFirst(t: seq<Record>, k: nat)
    requires forall i :: 0 < i < |t| ==> SchemaEvolution(t)[i] == Some(true)
    requires k < |t|
    ensures t[k].importedColumns == t[0].importedColumns
  {
    if k > 0 {
      SameAsFirst(t, k - 1);
      assert SchemaEvolution(t)[k] == Some(true);
    }
  }

  /** Three imports with columns [a,b], [a,b], [a,c]: the per-row flag is
      unknown, same, changed; the script's column is false on all three. */
  lemma SchemaEvolutionExample()
    ensures var t := [Record("1", IMPORT_DONE, 1, 10, ["a", "b"]),
                      Record("2", IMPORT_DONE, 2, 10, ["a", "b"]),
                      Record("3", IMPORT_DONE, 3, 10, ["a", "c"])];
      && SchemaEvolution(t) == [None, Some(true), Some(false)]
      && SchemaEvolutionAsWritten(t) == [false, false, false]
  {
    var t := [Record("1", IMPORT_DONE, 1, 10, ["a", "b"]),
              Record("2", IMPORT_DONE, 2, 10, ["a", "b"]),
              Record("3", IMPORT_DONE, 3, 10, ["a", "c"])];
    assert ["a", "b"] != ["a", "c"] by { assert ["a", "b"][1] != ["a", "c"][1]; }
    SchemaEvolutionAsWrittenAlwaysFalse(t);
  }

  // ---------------------------------------------------------------------
  // The enriched table

  /** One row of the enriched table; `S` is the type of its schema flag. */
  datatype Row<S> = Row(record: Record, rowsDelta: int, schemaEvolution: S)

  function Records<S>(table: seq<Row<S>>): (r: seq<Record>)
    ensures |r| == |table|
    ensures forall i :: 0 <= i < |table| ==> r[i] == table[i].record
  {
    seq(|table|, i requires 0 <= i < |table| => table[i].record)
  }

  /** The `rows_delta` column of every row: 0 on the first row, the count
      minus the predecessor's count on every later row. */
  predicate DeltaColumn<S>(table: seq<Row<S>>)
  {
    && (|table| > 0 ==> table[0].rowsDelta == 0)
    && forall i :: 0 < i < |table| ==>
      table[i].rowsDelta == table[i].record.rowsCount - table[i - 1].record.rowsCount
  }

  /** The per-row schema flags: unknown on the first row, then whether a
      row imported the same columns as its predecessor. */
  predicate SchemaFlags(table: seq<Row<Option<bool>>>)
  {
    && (|table| > 0 ==> table[0].schemaEvolution == None)
    && forall i :: 0 < i < |table| ==>
      table[i].schemaEvolution
      == Some(table[i].record.importedColumns == table[i - 1].record.importedColumns)
  }

  /** Add the two lag columns as the script does: `rows_delta` row by
      row, `schema_evolution` as the one broadcast comparison. */
  function Enrich(t: seq<Record>): (table: seq<Row<bool>>)
    ensures Records(table) == t
    ensures DeltaColumn(table)
    ensures forall i :: 0 <= i < |table| ==> !table[i].schemaEvolution
  {
    var delta := RowsDelta(t);
    var schema := SchemaEvolutionAsWritten(t);
    assert forall i :: 0 <= i < |t| ==> !schema[i] by {
      if |t| > 0 { SchemaEvolutionAsWrittenAlwaysFalse(t); }
    }
    var table := seq(|t|, i requires 0 <= i < |t| => Row(t[i], delta[i], schema[i]));
    assert Records(table) == t;
    table
  }

  /** Add the two lag columns with the per-row schema flag the chart of
      schema changes calls for. */
  function EnrichIntended(t: seq<Record>): (table: seq<Row<Option<bool>>>)
    ensures Records(table) == t
    ensures DeltaColumn(table)
    ensures SchemaFlags(table)
  {
    var delta := RowsDelta(t);
    var schema := SchemaEvolution(t);
    var table := seq(|t|, i requires 0 <= i < |t| => Row(t[i], delta[i], schema[i]));
    assert Records(table) == t;
    table
  }

  /** The finished imports of the collected records, oldest first. */
  function SortedImports(raw: seq<Record>): (t: seq<Record>)
    ensures multiset(t) == multiset(ImportsOnly(raw))
    ensures SortedByCreated(t)
    ensures forall i :: 0 <= i < |t| ==> t[i].event == IMPORT_DONE
  {
    var imports := ImportsOnly(raw);
    SortedKeepsEvent(imports);
    SortByCreated(imports)
  }

  /** Why building the table can fail. An empty listing gives a frame with
      no columns, so selecting the event columns fails. A listing with no
      finished import leaves no `rowsCount` column after flattening, so the
      integer coercion fails. When a dropped record precedes a kept one, the
      flattened columns, labelled afresh from 0, join rows they do not
      belong to: some row is left without a `rowsCount`, and the page fails,
      at the latest at the integer coercion of that missing value. */
  datatype BuildError = NoEventColumns | NoRowsCountColumn | MisalignedRows

  datatype Result<T> = Ok(value: T) | Err(error: BuildError)

  /** The missing-column errors alone: what building the table runs into
      once the flattened columns are joined by position. */
  function MissingColumns(raw: seq<Record>): (e: Option<BuildError>)
    ensures e.None? <==> ImportsOnly(raw) != []
    ensures raw == [] ==> e == Some(NoEventColumns)
    ensures raw != [] && ImportsOnly(raw) == [] ==> e == Some(NoRowsCountColumn)
  {
    if raw == [] then Some(NoEventColumns)
    else if ImportsOnly(raw) == [] then Some(NoRowsCountColumn)
    else None
  }

  /** Which error, if any, building the table from `raw` runs into as the
      script joins the flattened columns, by label. */
  function ShapeError(raw: seq<Record>): (e: Option<BuildError>)
    ensures e.None? <==> ImportsOnly(raw) != [] && ImportsLead(raw)
    ensures raw == [] ==> e == Some(NoEventColumns)
    ensures raw != [] && ImportsOnly(raw) == [] ==> e == Some(NoRowsCountColumn)
    ensures e == Some(MisalignedRows) <==> ImportsOnly(raw) != [] && !ImportsLead(raw)
  {
    match MissingColumns(raw)
    case Some(e) => Some(e)
    case None => if ImportsLead(raw) then None else Some(MisalignedRows)
  }

  /** Filter, sort, then add the two lag columns, as the script does. */
  function BuildTable(raw: seq<Record>): (r: Result<seq<Row<bool>>>)
    ensures r.Err? <==> ImportsOnly(raw) == [] || !ImportsLead(raw)
    ensures raw == [] ==> r == Err(NoEventColumns)
    ensures raw != [] && ImportsOnly(raw) == [] ==> r == Err(NoRowsCountColumn)
    ensures r == Err(MisalignedRows) <==> ImportsOnly(raw) != [] && !ImportsLead(raw)
    ensures r.Ok? ==> multiset(Records(r.value)) == multiset(ImportsOnly(raw))
    ensures r.Ok? ==> SortedByCreated(Records(r.value))
    ensures r.Ok? ==> forall i :: 0 <= i < |r.value| ==> r.value[i].record.event == IMPORT_DONE
    ensures r.Ok? ==> DeltaColumn(r.value)
    ensures r.Ok? ==> forall i :: 0 <= i < |r.value| ==> !r.value[i].schemaEvolution
  {
    match ShapeError(raw)
    case Some(e) => Err(e)
    case None => Ok(Enrich(SortedImports(raw)))
  }

  /** The pipeline as evidently intended: the flattened columns joined by
      position, so every finished import keeps its own fields, and the
      per-row schema flag in place of the broadcast comparison. */
  function BuildTableIntended(raw: seq<Record>): (r: Result<seq<Row<Option<bool>>>>)
    ensures r.Err? <==> ImportsOnly(raw) == []
    ensures raw == [] ==> r == Err(NoEventColumns)
    ensures raw != [] && ImportsOnly(raw) == [] ==> r == Err(NoRowsCountColumn)
    ensures r.Ok? ==> multiset(Records(r.value)) == multiset(ImportsOnly(raw))
    ensures r.Ok? ==> SortedByCreated(Records(r.value))
    ensures r.Ok? ==> forall i :: 0 <= i < |r.value| ==> r.value[i].record.event == IMPORT_DONE
    ensures r.Ok? ==> DeltaColumn(r.value)
    ensures r.Ok? ==> SchemaFlags(r.value)
  {
    match MissingColumns(raw)
    case Some(e) => Err(e)
    case None => Ok(EnrichIntended(SortedImports(raw)))
  }

  /** A non-import ahead of a finished import: the script fails although
      there is an import to tabulate; joined by position it is tabulated.
      With the records the other way round both succeed. */
  lemma MisalignedExample(imp: Record, other: Record)
    requires imp.event == IMPORT_DONE && other.event != IMPORT_DONE
    ensures BuildTable([other, imp]) == Err(MisalignedRows)
    ensures BuildTableIntended([other, imp]).Ok?
    ensures BuildTable([imp, other]).Ok?
  {
    assert ImportsOnly([other, imp]) == [imp] by {
      assert [other, imp][..1] == [other];
    }
    assert ImportsOnly([imp, other]) == [imp] by {
      assert [imp, other][..1] == [imp];
    }
  }

  /** Sorting keeps every row's `event`, so the sorted filtered table holds
      finished imports only. */
  lemma SortedKeepsEvent(t: seq<Record>)
    requires forall x :: x in t ==> x.event == IMPORT_DONE
    ensures forall i :: 0 <= i < |t| ==> SortByCreated(t)[i].event == IMPORT_DONE
  {
    var r := SortByCreated(t);
    forall i | 0 <= i < |r|
      ensures r[i].event == IMPORT_DONE
    {
      assert r[i] in multiset(r);
      assert r[i] in multiset(t);
    }
  }
}
