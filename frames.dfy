/**
 * A parsed CSV table, as the converter's data frame holds it: an ordered
 * header of unique column names and one row per record, each row mapping
 * every header name to its cell text. The operations are the three frame
 * operations the converter uses: selecting-and-renaming columns through a
 * mapping, and assigning a whole column.
 */
module Frames {
  import opened Mappings

  type Row = map<string, string>

  datatype Frame = Frame(header: seq<string>, rows: seq<Row>)

  function Columns(header: seq<string>): set<string>
  {
    set c | c in header
  }

  /** Unique header names, and every row has a cell for exactly those columns. */
  predicate WellFormed(f: Frame)
  {
    && Distinct(f.header)
    && forall i :: 0 <= i < |f.rows| ==> f.rows[i].Keys == Columns(f.header)
  }

  /**
   * One row renamed through a mapping: the cell of each key's column ends up
   * under the key's value, and no other column survives.
   */
  function RenameRow(m: Mapping, row: Row): (r: Row)
    requires forall j :: 0 <= j < |m| ==> m[j].0 in row
    requires Distinct(Values(m))
    ensures r.Keys == Columns(Values(m))
    ensures forall j :: 0 <= j < |m| ==> m[j].1 in r && r[m[j].1] == row[m[j].0]
  {
    KeysValuesAt(m);
    if m == [] then map[]
    else
      KeysValuesAt(m[1..]);
      assert Values(m) == [m[0].1] + Values(m[1..]);
      RenameRow(m[1..], row)[m[0].1 := row[m[0].0]]
  }

  /**
   * Keeping only the mapping's keys, in the mapping's order, and renaming
   * each to its value. The row count and order are those of `f`.
   */
  function SelectRenamed(f: Frame, m: Mapping): (r: Frame)
    requires WellFormed(f)
    requires forall j :: 0 <= j < |m| ==> m[j].0 in f.header
    requires Distinct(Values(m))
    ensures WellFormed(r)
    ensures r.header == Values(m)
    ensures |r.rows| == |f.rows|
    ensures forall i, j :: 0 <= i < |f.rows| && 0 <= j < |m| ==>
              m[j].1 in r.rows[i] && r.rows[i][m[j].1] == f.rows[i][m[j].0]
  {
    KeysValuesAt(m);
    Frame(Values(m), seq(|f.rows|, i requires 0 <= i < |f.rows| => RenameRow(m, f.rows[i])))
  }

  /**
   * Assigning a column: an existing column keeps its place and takes the new
   * cells; a new column is added at the right. Every other cell is kept.
   */
  function Assign(f: Frame, name: string, cells: seq<string>): (r: Frame)
    requires WellFormed(f)
    requires |cells| == |f.rows|
    ensures WellFormed(r)
    ensures r.header == if name in f.header then f.header else f.header + [name]
    ensures |r.rows| == |f.rows|
    ensures forall i :: 0 <= i < |r.rows| ==> r.rows[i][name] == cells[i]
    ensures forall i, c :: 0 <= i < |r.rows| && c in f.rows[i] && c != name ==>
              c in r.rows[i] && r.rows[i][c] == f.rows[i][c]
  {
    var header := if name in f.header then f.header else f.header + [name];
    assert Columns(header) == Columns(f.header) + {name};
    Frame(header, seq(|f.rows|, i requires 0 <= i < |f.rows| => f.rows[i][name := cells[i]]))
  }

  /** The cells of column `name`, each with `prefix` in front (a string plus a column). */
  function Prefixed(prefix: string, f: Frame, name: string): seq<string>
    requires WellFormed(f)
    requires name in f.header
  {
    seq(|f.rows|, i requires 0 <= i < |f.rows| => prefix + f.rows[i][name])
  }

  /** A scalar broadcast to every row. */
  function Broadcast(value: string, f: Frame): seq<string>
  {
    seq(|f.rows|, _ => value)
  }
}
