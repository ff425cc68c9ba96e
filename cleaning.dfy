/**
 * `clean`: the normalisation of a freshly fetched table before it is appended to the export.
 * Country is inferred per row, the coordinates are converted, the place text is tidied, and
 * every export column is made to exist.
 */
module Cleaning {
  import opened Wrappers
  import opened Frames
  import opened Country
  import opened Place

  /** The address used for the country check: `Address` when it is non-empty, else the raw place text. */
  function AddressForCheck(r: Row): string {
    if |Cell(r, "Address")| > 0 then Cell(r, "Address") else Cell(r, "n_Place")
  }

  /** The inferred country of a row. */
  function CountryOf(r: Row): string {
    DecideCountry(AddressForCheck(r), Cell(r, "State"), Cell(r, "LocCountry"))
  }

  /**
   * A coordinate after `pd.to_numeric(errors="coerce").round(6)`: a missing cell stays missing,
   * and the numeric conversion and rounding, which are floating point, are the parameter `coord`.
   */
  function CoordCell(s: string, coord: string -> string): (r: string)
    ensures s == "" ==> r == ""
  {
    if s == "" then "" else coord(s)
  }

  /** The columns that `clean` assigns, in the order it first assigns them. */
  const ASSIGNED: seq<string> := ["Country", "n_Lati", "n_Long", "n_Place", "Status"]

  /** The columns of a cleaned table: the input's, then the assigned ones, then the missing export columns. */
  function CleanedColumns(cols: seq<string>): seq<string> {
    AppendMissing(AppendMissing(cols, ASSIGNED), FINAL_COLS)
  }

  /** What cell `c` of row `r` holds after cleaning. */
  function CleanCell(r: Row, c: string, coord: string -> string): string {
    if c == "Country" then CountryOf(r)
    else if c == "n_Lati" || c == "n_Long" then CoordCell(Cell(r, c), coord)
    else if c == "n_Place" then CleanPlace(Cell(r, "n_Place"))
    else Cell(r, c)
  }

  function CleanRow(r: Row, cols: seq<string>, coord: string -> string): Row {
    map c | c in cols :: CleanCell(r, c, coord)
  }

  /**
   * The table `clean` returns. An empty table gives an empty table with exactly the export
   * columns; a table without `Timestamp` or `End Date Time` raises a `KeyError`.
   */
  function CleanSpec(df: Frame, coord: string -> string): Result<Frame> {
    if Empty(df) then Ok(Frame(FINAL_COLS, []))
    else if "Timestamp" !in df.columns || "End Date Time" !in df.columns then Err("KeyError")
    else
      var cols := CleanedColumns(df.columns);
      Ok(Frame(cols, seq(|df.rows|, i requires 0 <= i < |df.rows| => CleanRow(df.rows[i], cols, coord))))
  }

  /** The cells that `clean` computes rather than copies. */
  const COMPUTED: set<string> := {"Country", "n_Lati", "n_Long", "n_Place"}

  lemma {:induction false} CopiedCell(r: Row, c: string, coord: string -> string)
    requires c !in COMPUTED
    ensures CleanCell(r, c, coord) == Cell(r, c)
  {
  }

  /** The four computed cells, by name. */
  lemma CountryCell(r: Row, coord: string -> string)
    ensures CleanCell(r, "Country", coord) == CountryOf(r)
  {
  }

  lemma LatiCell(r: Row, coord: string -> string)
    ensures CleanCell(r, "n_Lati", coord) == CoordCell(Cell(r, "n_Lati"), coord)
  {
    assert "n_Lati" != "Country";
  }

  lemma LongCell(r: Row, coord: string -> string)
    ensures CleanCell(r, "n_Long", coord) == CoordCell(Cell(r, "n_Long"), coord)
  {
    assert "n_Long" != "Country";
  }

  lemma PlaceCell(r: Row, coord: string -> string)
    ensures CleanCell(r, "n_Place", coord) == CleanPlace(Cell(r, "n_Place"))
  {
    assert "n_Place" != "Country" by {
      assert "n_Place"[0] != "Country"[0];
    }
    assert "n_Place" != "n_Lati" && "n_Place" != "n_Long";
  }

  /** The timestamp columns are not among those `clean` assigns. */
  lemma TimestampsNotAssigned(cs: seq<string>, k: nat)
    requires k <= |ASSIGNED|
    ensures "Timestamp" in AppendMissing(cs, ASSIGNED[..k]) <==> "Timestamp" in cs
    ensures "End Date Time" in AppendMissing(cs, ASSIGNED[..k]) <==> "End Date Time" in cs
  {
    assert "Timestamp" !in ASSIGNED && "End Date Time" !in ASSIGNED;
    assert forall c | c in ASSIGNED[..k] :: c in ASSIGNED;
  }

  /**
   * Part way through `clean`: `f` has columns `cols`, and in row `i` the cells named in
   * `done` are cleaned while the others are still those of row `i` of `df`.
   */
  ghost predicate Partial(df: Frame, f: Frame, cols: seq<string>, done: set<string>, coord: string -> string) {
    f.columns == cols && |f.rows| == |df.rows| &&
    forall i | 0 <= i < |df.rows| ::
      f.rows[i] == map c | c in cols :: if c in done then CleanCell(df.rows[i], c, coord) else Cell(df.rows[i], c)
  }

  /** Assigning a cleaned column. */
  lemma AssignStep(df: Frame, f: Frame, cols: seq<string>, done: set<string>, c: string,
                   vals: seq<string>, coord: string -> string)
    requires Partial(df, f, cols, done, coord) && |vals| == |df.rows|
    requires forall i | 0 <= i < |df.rows| :: vals[i] == CleanCell(df.rows[i], c, coord)
    ensures Partial(df, WithColumn(f, c, vals), if c in cols then cols else cols + [c], done + {c}, coord)
  {
    var g := WithColumn(f, c, vals);
    var cols' := if c in cols then cols else cols + [c];
    forall i | 0 <= i < |df.rows|
      ensures g.rows[i] == map d | d in cols' :: if d in done + {c} then CleanCell(df.rows[i], d, coord) else Cell(df.rows[i], d)
    {
      assert g.rows[i] == f.rows[i][c := vals[i]];
      AssignRow(df.rows[i], cols, done, c, coord);
    }
  }

  /** One row of `AssignStep`. */
  lemma AssignRow(r: Row, cols: seq<string>, done: set<string>, c: string, coord: string -> string)
    ensures (map d | d in cols :: if d in done then CleanCell(r, d, coord) else Cell(r, d))[c := CleanCell(r, c, coord)]
      == map d | d in (if c in cols then cols else cols + [c]) :: if d in done + {c} then CleanCell(r, d, coord) else Cell(r, d)
  {
  }

  /** Adding a column that the input lacks, filled with "". */
  lemma FillStep(df: Frame, f: Frame, cols: seq<string>, done: set<string>, c: string, coord: string -> string)
    requires WellFormed(df) && Partial(df, f, cols, done, coord)
    requires c !in done && c !in df.columns
    ensures Partial(df, WithColumn(f, c, Fill(|df.rows|, "")), if c in cols then cols else cols + [c], done, coord)
  {
    var g := WithColumn(f, c, Fill(|df.rows|, ""));
    var cols' := if c in cols then cols else cols + [c];
    forall i | 0 <= i < |df.rows|
      ensures g.rows[i] == map d | d in cols' :: if d in done then CleanCell(df.rows[i], d, coord) else Cell(df.rows[i], d)
    {
      assert c !in df.rows[i];
      assert g.rows[i] == f.rows[i][c := ""];
      FillRow(df.rows[i], cols, done, c, coord);
    }
  }

  /** One row of `FillStep`. */
  lemma FillRow(r: Row, cols: seq<string>, done: set<string>, c: string, coord: string -> string)
    requires c !in done && c !in r
    ensures (map d | d in cols :: if d in done then CleanCell(r, d, coord) else Cell(r, d))[c := ""]
      == map d | d in (if c in cols then cols else cols + [c]) :: if d in done then CleanCell(r, d, coord) else Cell(r, d)
  {
  }

  /** Once the computed cells are done, every row is cleaned. */
  lemma PartialDone(df: Frame, f: Frame, cols: seq<string>, done: set<string>, coord: string -> string)
    requires Partial(df, f, cols, done, coord) && COMPUTED <= done
    ensures f.columns == cols && |f.rows| == |df.rows|
    ensures forall i | 0 <= i < |df.rows| :: f.rows[i] == CleanRow(df.rows[i], cols, coord)
  {
    forall i, c | 0 <= i < |df.rows| && c in cols && c !in done
      ensures CleanCell(df.rows[i], c, coord) == Cell(df.rows[i], c)
    {
      CopiedCell(df.rows[i], c, coord);
    }
  }

  /** At the start nothing is cleaned yet. */
  lemma PartialStart(df: Frame, coord: string -> string)
    requires WellFormed(df)
    ensures Partial(df, df, df.columns, {}, coord)
  {
    forall i | 0 <= i < |df.rows| {
      StartRow(df.rows[i], df.columns, coord);
    }
  }

  /** One row of `PartialStart`. */
  lemma StartRow(r: Row, cols: seq<string>, coord: string -> string)
    requires r.Keys == set c | c in cols
    ensures r == map c | c in cols :: if c in {} then CleanCell(r, c, coord) else Cell(r, c)
  {
    var m := map c | c in cols :: if c in {} then CleanCell(r, c, coord) else Cell(r, c);
    assert m.Keys == r.Keys;
    forall c | c in r ensures m[c] == r[c] { }
  }

  /**
   * `clean`, step by step on a copy of the table: assign Country, the coordinates and the
   * place, check the timestamp columns, then add `Status` and every missing export column.
   * Timestamps are already text here (see `Extract`), so their conversion changes nothing.
   */
  method Clean(df: Frame, coord: string -> string) returns (r: Result<Frame>)
    requires WellFormed(df)
    ensures r == CleanSpec(df, coord)
  {
    if Empty(df) {
      return Ok(Frame(FINAL_COLS, []));
    }
    var f;
    ghost var done;
    f, done := AssignComputed(df, coord);
    TimestampsNotAssigned(df.columns, 4);
    if "Timestamp" !in f.columns || "End Date Time" !in f.columns {
      return Err("KeyError");
    }
    f := AddMissing(df, f, ["Status"], done, coord);
    StatusColumns(df.columns);
    f := AddMissing(df, f, FINAL_COLS, done, coord);
    CleanedIsSpec(df, f, done, coord);
    return Ok(f);
  }

  /** Adding `Status` completes the assigned columns. */
  lemma StatusColumns(cs: seq<string>)
    ensures AppendMissing(AppendMissing(cs, ASSIGNED[..4]), ["Status"]) == AppendMissing(cs, ASSIGNED)
  {
    assert ASSIGNED[..4] + ["Status"] == ASSIGNED;
    AppendMissingConcat(cs, ASSIGNED[..4], ["Status"]);
  }

  /** A table cleaned in every computed cell, with the cleaned columns, is what `clean` returns. */
  lemma CleanedIsSpec(df: Frame, f: Frame, done: set<string>, coord: string -> string)
    requires !Empty(df) && "Timestamp" in df.columns && "End Date Time" in df.columns
    requires Partial(df, f, CleanedColumns(df.columns), done, coord) && COMPUTED <= done
    ensures CleanSpec(df, coord) == Ok(f)
  {
    PartialDone(df, f, f.columns, done, coord);
    assert f.rows == seq(|df.rows|, i requires 0 <= i < |df.rows| => CleanRow(df.rows[i], f.columns, coord));
  }

  /**
   * The first four assignments of `clean`: Country, `n_Lati`, `n_Long` and `n_Place`.
   * The set of assigned columns is written as the running union `{} + {"Country"} + ...`,
   * one term per step, so that each step's postcondition is literally the next step's
   * precondition.
   */
  method AssignComputed(df: Frame, coord: string -> string) returns (f: Frame, ghost done: set<string>)
    requires WellFormed(df)
    ensures Partial(df, f, AppendMissing(df.columns, ASSIGNED[..4]), done, coord)
    ensures COMPUTED <= done && forall c | c in done :: c in f.columns
  {
    PartialStart(df, coord);
    assert df.columns == AppendMissing(df.columns, ASSIGNED[..0]);
    f := AssignCountry(df, coord);
    f := AssignCoordinates(df, f, coord);
    f := AssignPlace(df, f, coord);
    done := {} + {"Country"} + {"n_Lati"} + {"n_Long"} + {"n_Place"};
    FourListed("Country", "n_Lati", "n_Long", "n_Place", f.columns);
  }

  /** Country from `address_for_check`, the state and the location's country. */
  method AssignCountry(df: Frame, coord: string -> string) returns (f: Frame)
    requires Partial(df, df, AppendMissing(df.columns, ASSIGNED[..0]), {}, coord)
    ensures Partial(df, f, AppendMissing(df.columns, ASSIGNED[..1]), {} + {"Country"}, coord)
    ensures "Country" in f.columns
  {
    var n := |df.rows|;
    var country := seq(n, i requires 0 <= i < n => CountryOf(df.rows[i]));
    forall i | 0 <= i < n ensures country[i] == CleanCell(df.rows[i], "Country", coord) {
      CountryCell(df.rows[i], coord);
    }
    AssignStep(df, df, df.columns, {}, "Country", country, coord);
    f := WithColumn(df, "Country", country);
    // NextColumns is called for its postcondition: the column list grows by this name.
    ghost var cols := NextColumns(df.columns, ASSIGNED, 0, df.columns);
  }

  /** Both coordinate columns, latitude first. */
  method AssignCoordinates(df: Frame, f: Frame, coord: string -> string) returns (g: Frame)
    requires Partial(df, f, AppendMissing(df.columns, ASSIGNED[..1]), {} + {"Country"}, coord)
    requires "Country" in f.columns
    ensures Partial(df, g, AppendMissing(df.columns, ASSIGNED[..3]), {} + {"Country"} + {"n_Lati"} + {"n_Long"}, coord)
    ensures "Country" in g.columns && "n_Lati" in g.columns && "n_Long" in g.columns
  {
    assert ASSIGNED[1] == "n_Lati" && ASSIGNED[2] == "n_Long";
    var h := AssignCoordinate(df, f, "n_Lati", 1, {} + {"Country"}, coord);
    assert "Country" in h.columns && "n_Lati" in h.columns;
    g := AssignCoordinate(df, h, "n_Long", 2, {} + {"Country"} + {"n_Lati"}, coord);
  }

  /** One coordinate column (`n_Lati` or `n_Long`), converted. */
  method AssignCoordinate(df: Frame, f: Frame, c: string, k: nat, ghost done: set<string>, coord: string -> string)
    returns (g: Frame)
    requires k < |ASSIGNED| && ASSIGNED[k] == c && (c == "n_Lati" || c == "n_Long")
    requires Partial(df, f, AppendMissing(df.columns, ASSIGNED[..k]), done, coord)
    ensures Partial(df, g, AppendMissing(df.columns, ASSIGNED[..k + 1]), done + {c}, coord)
    ensures c in g.columns && forall x | x in f.columns :: x in g.columns
  {
    var n := |df.rows|;
    var vals := seq(n, i requires 0 <= i < n => CoordCell(Cell(df.rows[i], c), coord));
    forall i | 0 <= i < n ensures vals[i] == CleanCell(df.rows[i], c, coord) {
      LatiCell(df.rows[i], coord);
      LongCell(df.rows[i], coord);
    }
    AssignStep(df, f, f.columns, done, c, vals, coord);
    g := WithColumn(f, c, vals);
    // NextColumns is called for its postcondition: the column list grows by this name.
    ghost var cols := NextColumns(df.columns, ASSIGNED, k, f.columns);
  }

  /** The place text, tidied from the raw place column. */
  method AssignPlace(df: Frame, f: Frame, coord: string -> string) returns (g: Frame)
    requires Partial(df, f, AppendMissing(df.columns, ASSIGNED[..3]), {} + {"Country"} + {"n_Lati"} + {"n_Long"}, coord)
    requires "Country" in f.columns && "n_Lati" in f.columns && "n_Long" in f.columns
    ensures Partial(df, g, AppendMissing(df.columns, ASSIGNED[..4]), {} + {"Country"} + {"n_Lati"} + {"n_Long"} + {"n_Place"}, coord)
    ensures "Country" in g.columns && "n_Lati" in g.columns && "n_Long" in g.columns && "n_Place" in g.columns
  {
    var n := |df.rows|;
    var place := Column(df, "n_Place");
    var tidy := seq(n, i requires 0 <= i < n => CleanPlace(place[i]));
    forall i | 0 <= i < n ensures tidy[i] == CleanCell(df.rows[i], "n_Place", coord) {
      PlaceCell(df.rows[i], coord);
    }
    AssignStep(df, f, f.columns, {} + {"Country"} + {"n_Lati"} + {"n_Long"}, "n_Place", tidy, coord);
    g := WithColumn(f, "n_Place", tidy);
    // NextColumns is called for its postcondition: the column list grows by this name.
    ghost var cols := NextColumns(df.columns, ASSIGNED, 3, f.columns);
  }

  lemma FourListed(a: string, b: string, c: string, d: string, cols: seq<string>)
    requires a in cols && b in cols && c in cols && d in cols
    ensures forall x | x in {} + {a} + {b} + {c} + {d} :: x in cols
  {
  }

  /** `for c in names: if c not in df.columns: df[c] = ""`. */
  method AddMissing(df: Frame, f: Frame, names: seq<string>, ghost done: set<string>, coord: string -> string)
    returns (g: Frame)
    requires WellFormed(df) && Partial(df, f, f.columns, done, coord)
    requires forall c | c in done :: c in f.columns
    requires forall c | c in df.columns :: c in f.columns
    ensures Partial(df, g, AppendMissing(f.columns, names), done, coord)
    ensures forall c | c in f.columns :: c in g.columns
  {
    g := f;
    assert names[..0] == [];
    for k := 0 to |names|
      invariant Partial(df, g, AppendMissing(f.columns, names[..k]), done, coord)
      invariant forall c | c in f.columns :: c in g.columns
    {
      ghost var cols := g.columns;
      if names[k] !in g.columns {
        FillStep(df, g, cols, done, names[k], coord);
        g := WithColumn(g, names[k], Fill(|df.rows|, ""));
      }
      cols := NextColumns(f.columns, names, k, cols);
    }
    assert names[..|names|] == names;
  }

  /** One more name processed: the column list grows by that name when it is new. */
  lemma NextColumns(cs: seq<string>, names: seq<string>, k: nat, cols: seq<string>) returns (next: seq<string>)
    requires k < |names| && cols == AppendMissing(cs, names[..k])
    ensures next == AppendMissing(cs, names[..k + 1])
    ensures next == if names[k] in cols then cols else cols + [names[k]]
  {
    assert names[..k + 1][..k] == names[..k];
    next := AppendMissing(cs, names[..k + 1]);
  }

  lemma AppendMissingConcat(cs: seq<string>, a: seq<string>, b: seq<string>)
    ensures AppendMissing(AppendMissing(cs, a), b) == AppendMissing(cs, a + b)
    decreases |b|
  {
    if b != [] {
      assert (a + b)[..|a + b| - 1] == a + b[..|b| - 1];
      AppendMissingConcat(cs, a, b[..|b| - 1]);
    } else {
      assert a + b == a;
    }
  }

  /** `clean` fails exactly when a non-empty table lacks one of the timestamp columns. */
  lemma CleanFails(df: Frame, coord: string -> string)
    ensures CleanSpec(df, coord).Err? <==>
              !Empty(df) && ("Timestamp" !in df.columns || "End Date Time" !in df.columns)
    ensures Empty(df) ==> CleanSpec(df, coord) == Ok(Frame(FINAL_COLS, []))
  {
  }

  /** Row `i` of a cleaned non-empty table is row `i` of the input, cleaned. */
  lemma CleanRowAt(df: Frame, coord: string -> string, i: nat)
    requires CleanSpec(df, coord).Ok? && !Empty(df) && i < |df.rows|
    ensures CleanSpec(df, coord).value.columns == CleanedColumns(df.columns)
    ensures |CleanSpec(df, coord).value.rows| == |df.rows|
    ensures CleanSpec(df, coord).value.rows[i] == CleanRow(df.rows[i], CleanedColumns(df.columns), coord)
  {
  }

  /** The cleaned columns are the input's, the assigned ones and the export columns. */
  lemma CleanedColumnsHold(cols: seq<string>)
    ensures forall c :: c in CleanedColumns(cols) <==> c in cols || c in ASSIGNED || c in FINAL_COLS
    ensures "Country" in CleanedColumns(cols) && "n_Place" in CleanedColumns(cols)
    ensures Distinct(cols) ==> Distinct(CleanedColumns(cols))
  {
    assert "Country" in ASSIGNED && "n_Place" in ASSIGNED;
  }

  /**
   * Cleaning a non-empty table keeps its rows and their order, and gives every row every
   * export column, so a well-formed table stays well-formed.
   */
  lemma CleanShape(df: Frame, coord: string -> string)
    requires CleanSpec(df, coord).Ok? && !Empty(df)
    ensures |CleanSpec(df, coord).value.rows| == |df.rows|
    ensures forall c | c in FINAL_COLS :: c in CleanSpec(df, coord).value.columns
    ensures forall i, c | 0 <= i < |df.rows| && c in FINAL_COLS :: c in CleanSpec(df, coord).value.rows[i]
    ensures WellFormed(df) ==> WellFormed(CleanSpec(df, coord).value)
  {
    var cols := CleanedColumns(df.columns);
    CleanedColumnsHold(df.columns);
    var t := CleanSpec(df, coord).value;
    CleanRowAt(df, coord, 0);
    forall i | 0 <= i < |df.rows|
      ensures t.rows[i].Keys == set c | c in cols
    {
      CleanRowAt(df, coord, i);
    }
  }

  /**
   * Country is decided from `Address` when it is non-empty and otherwise from the raw,
   * uncleaned place text, together with `State` and `LocCountry`.
   */
  lemma CleanCountry(df: Frame, coord: string -> string, i: nat)
    requires CleanSpec(df, coord).Ok? && !Empty(df) && i < |df.rows|
    ensures var row := CleanSpec(df, coord).value.rows[i];
      "Country" in row &&
      row["Country"] == DecideCountry(
        if Cell(df.rows[i], "Address") != "" then Cell(df.rows[i], "Address") else Cell(df.rows[i], "n_Place"),
        Cell(df.rows[i], "State"), Cell(df.rows[i], "LocCountry"))
  {
    CleanRowAt(df, coord, i);
    CleanedColumnsHold(df.columns);
    CountryCell(df.rows[i], coord);
  }

  /**
   * The cleaned place has no two neighbouring whitespace characters (a lone tab or newline
   * stays) and no space or comma at either end.
   */
  lemma CleanPlaceColumn(df: Frame, coord: string -> string, i: nat)
    requires CleanSpec(df, coord).Ok? && !Empty(df) && i < |df.rows|
    ensures var row := CleanSpec(df, coord).value.rows[i];
      "n_Place" in row && row["n_Place"] == CleanPlace(Cell(df.rows[i], "n_Place")) &&
      NoDoubleSpace(row["n_Place"]) &&
      (row["n_Place"] == "" || (!IsSpaceOrComma(row["n_Place"][0]) && !IsSpaceOrComma(row["n_Place"][|row["n_Place"]| - 1])))
  {
    CleanRowAt(df, coord, i);
    CleanedColumnsHold(df.columns);
    PlaceCell(df.rows[i], coord);
  }

  /** Every other cell is copied, so a column the input lacks, `Status` included, is "" in every row. */
  lemma CleanCopies(df: Frame, coord: string -> string, i: nat, c: string)
    requires CleanSpec(df, coord).Ok? && !Empty(df) && i < |df.rows|
    requires c in CleanedColumns(df.columns) && c !in COMPUTED
    ensures var row := CleanSpec(df, coord).value.rows[i];
      c in row && row[c] == Cell(df.rows[i], c) && (c !in df.rows[i] ==> row[c] == "")
  {
    CleanRowAt(df, coord, i);
    CopiedCell(df.rows[i], c, coord);
  }

  /** A missing coordinate stays missing. */
  lemma CleanCoordinates(df: Frame, coord: string -> string, i: nat)
    requires CleanSpec(df, coord).Ok? && !Empty(df) && i < |df.rows|
    ensures var row := CleanSpec(df, coord).value.rows[i];
      "n_Lati" in row && "n_Long" in row &&
      (Cell(df.rows[i], "n_Lati") == "" ==> row["n_Lati"] == "") &&
      (Cell(df.rows[i], "n_Long") == "" ==> row["n_Long"] == "")
  {
    CleanRowAt(df, coord, i);
    assert "n_Lati" in ASSIGNED && "n_Long" in ASSIGNED;
    CleanedColumnsHold(df.columns);
    LatiCell(df.rows[i], coord);
    LongCell(df.rows[i], coord);
  }
}
