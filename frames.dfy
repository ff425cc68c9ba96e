/**
 * Tables as the export sees them: a list of column names and a list of rows, each row a
 * map from column name to cell text. A cell that pandas would hold as missing (NaN, None,
 * NaT) is the empty string here.
 */
module Frames {

  /** The columns of the published export, in order. */
  const FINAL_COLS: seq<string> := [
    "Status", "User Name", "User email", "Timestamp", "n_Duration", "End Date Time",
    "n_Name", "City", "State", "Zip", "Country", "n_Place", "n_Lati", "n_Long",
    "n_park_nbr", "n_activity", "n_notes"
  ]

  type Row = map<string, string>

  datatype Frame = Frame(columns: seq<string>, rows: seq<Row>)

  predicate Distinct(cs: seq<string>) {
    forall i, j | 0 <= i < j < |cs| :: cs[i] != cs[j]
  }

  /** Every row has exactly the frame's columns, and no column is listed twice. */
  predicate WellFormed(f: Frame) {
    Distinct(f.columns) && forall i | 0 <= i < |f.rows| :: f.rows[i].Keys == set c | c in f.columns
  }

  /** `DataFrame.empty`: no rows or no columns. */
  predicate Empty(f: Frame) {
    |f.rows| == 0 || |f.columns| == 0
  }

  /** The text of a cell; a column the row lacks reads as "". */
  function Cell(r: Row, c: string): string {
    if c in r then r[c] else ""
  }

  /** A column as a list of cells, or "" in every row when the frame lacks it (`df.get(c, "")`). */
  function Column(f: Frame, c: string): (r: seq<string>)
    ensures |r| == |f.rows|
    ensures forall i | 0 <= i < |r| :: r[i] == Cell(f.rows[i], c)
  {
    seq(|f.rows|, i requires 0 <= i < |f.rows| => Cell(f.rows[i], c))
  }

  /** A column with the same text in every row. */
  function Fill(n: nat, v: string): (r: seq<string>)
    ensures |r| == n && forall i | 0 <= i < n :: r[i] == v
  {
    seq(n, _ => v)
  }

  /**
   * `df[c] = vals`: the column takes the given cells, row by row; a new column goes last.
   */
  function WithColumn(f: Frame, c: string, vals: seq<string>): (r: Frame)
    requires |vals| == |f.rows|
    ensures WellFormed(f) ==> WellFormed(r)
    ensures |r.rows| == |f.rows|
    ensures r.columns == if c in f.columns then f.columns else f.columns + [c]
    ensures Column(r, c) == vals
    ensures forall d, i | d != c && 0 <= i < |f.rows| :: Cell(r.rows[i], d) == Cell(f.rows[i], d)
  {
    var cols := if c in f.columns then f.columns else f.columns + [c];
    var rows := seq(|f.rows|, i requires 0 <= i < |f.rows| => f.rows[i][c := vals[i]]);
    var r := Frame(cols, rows);
    assert forall i | 0 <= i < |rows| :: rows[i].Keys == f.rows[i].Keys + {c};
    assert (set d | d in cols) == (set d | d in f.columns) + {c};
    r
  }

  /** `names` that `cs` lacks, appended in order (each once), as a loop of `df[c] = ""` does. */
  function AppendMissing(cs: seq<string>, names: seq<string>): (r: seq<string>)
    ensures forall c :: c in r <==> c in cs || c in names
    ensures |cs| <= |r| && r[..|cs|] == cs
    ensures Distinct(cs) ==> Distinct(r)
  {
    if names == [] then cs
    else
      var p := AppendMissing(cs, names[..|names| - 1]);
      var c := names[|names| - 1];
      if c in p then p
      else
        assert (p + [c])[..|cs|] == p[..|cs|];
        p + [c]
  }

  /**
   * The missing names are appended in the order they first occur: a missing name whose first
   * occurrence comes later in `names` lands after an earlier one.
   */
  lemma {:induction false} AppendedInOrder(cs: seq<string>, names: seq<string>, i: nat, j: nat) returns (p: nat, q: nat)
    requires i < j < |names| && names[i] !in cs && names[j] !in cs && names[j] !in names[..j]
    ensures p < q < |AppendMissing(cs, names)|
    ensures AppendMissing(cs, names)[p] == names[i] && AppendMissing(cs, names)[q] == names[j]
  {
    var init := names[..|names| - 1];
    var prev := AppendMissing(cs, init);
    if j < |names| - 1 {
      assert init[..j] == names[..j];
      p, q := AppendedInOrder(cs, init, i, j);
    } else {
      assert init == names[..j];
      assert names[i] in prev by { assert init[i] == names[i]; }
      p :| p < |prev| && prev[p] == names[i];
      q := |prev|;
    }
  }

  /** `df[cols]`: the given columns, in the given order, of every row. */
  function Select(f: Frame, cols: seq<string>): (r: Frame)
    ensures r.columns == cols && |r.rows| == |f.rows|
    ensures forall i | 0 <= i < |f.rows| :: r.rows[i].Keys == set c | c in cols
    ensures forall i, c | 0 <= i < |f.rows| && c in cols :: r.rows[i][c] == Cell(f.rows[i], c)
  {
    Frame(cols, seq(|f.rows|, i requires 0 <= i < |f.rows| => map c | c in cols :: Cell(f.rows[i], c)))
  }
}
