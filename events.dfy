/** Event records returned by the Storage API's table-events listing,
    reduced to the fields the import-statistics pipeline reads. */
module Events {

  /** The `event` value of a finished table import; the listing query
      filters on it and the table step keeps only records carrying it. */
  const IMPORT_DONE: string := "storage.tableImportDone"

  /** One event record. `created` is the ISO timestamp abstracted to an
      integer that orders like the timestamp; `rowsCount` and
      `importedColumns` come from the flattened nested objects. */
  datatype Record = Record(
    id: string,
    event: string,
    created: int,
    rowsCount: int,
    importedColumns: seq<string>)

  /** One page of the listing: the JSON array of one response. */
  type Page = seq<Record>

  /** The number of rows of all frames together. */
  function TotalRows<T>(ps: seq<seq<T>>): nat
  {
    if |ps| == 0 then 0 else TotalRows(ps[..|ps| - 1]) + |ps[|ps| - 1]|
  }

  /** Row-wise concatenation of frames, as `pd.concat(..., axis=0)`: its
      row count is the sum of the frames' row counts. */
  function Concat<T>(ps: seq<seq<T>>): (r: seq<T>)
    ensures |ps| == 0 ==> r == []
    ensures |r| == TotalRows(ps)
  {
    if |ps| == 0 then [] else Concat(ps[..|ps| - 1]) + ps[|ps| - 1]
  }

  /** Appending one more frame appends its rows at the end. */
  lemma ConcatAppend<T>(ps: seq<seq<T>>, p: seq<T>)
    ensures Concat(ps + [p]) == Concat(ps) + p
  {
    assert (ps + [p])[..|ps|] == ps;
  }

  /** A row is in a concatenation exactly when it is in one of the frames:
      nothing is dropped and nothing is invented. */
  lemma {:induction false} ConcatMembers<T>(ps: seq<seq<T>>, x: T)
    ensures x in Concat(ps) <==> exists k :: 0 <= k < |ps| && x in ps[k]
    decreases |ps|
  {
    if |ps| > 0 {
      var init := ps[..|ps| - 1];
      ConcatMembers(init, x);
      if x in ps[|ps| - 1] {
        assert 0 <= |ps| - 1 < |ps| && x in ps[|ps| - 1];
      }
      if x in Concat(init) {
        var k :| 0 <= k < |init| && x in init[k];
        assert x in ps[k];
      }
      if exists k :: 0 <= k < |ps| && x in ps[k] {
        var k :| 0 <= k < |ps| && x in ps[k];
        if k < |ps| - 1 {
          assert x in init[k];
        }
      }
    }
  }
}
