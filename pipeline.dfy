/**
 * One pass of the export (`run_once`): read the watermark in incremental mode, fetch
 * and clean the new journals, append them to the existing export, upload it, and only
 * then move the watermark. The folder changes only through the writes listed in a
 * run's trace, in that order.
 */
module Pipeline {
  import opened Wrappers
  import opened Text
  import opened ObjectIds
  import opened Projection
  import opened Frames
  import opened Cleaning
  import opened Extract
  import opened Store

  /** `RUN_MODE`, lowercased, is exactly "inc"; any other mode is a full run. */
  predicate Incremental(runMode: string) {
    Lower(runMode) == "inc"
  }

  /**
   * The existing export brought to the columns `cols`: columns it lacks read "" in
   * every row, and columns beyond `cols` are dropped.
   */
  function Conform(existing: Frame, cols: seq<string>): (r: seq<Row>)
    ensures |r| == |existing.rows|
    ensures forall i | 0 <= i < |r| :: r[i].Keys == set c | c in cols
    ensures forall i, c | 0 <= i < |r| && c in cols ::
      r[i][c] == if c in existing.columns then Cell(existing.rows[i], c) else ""
  {
    seq(|existing.rows|, i requires 0 <= i < |existing.rows| =>
      map c | c in cols :: if c in existing.columns then Cell(existing.rows[i], c) else "")
  }

  /**
   * The uploaded table: the existing rows conformed to the export columns, when the
   * existing export is not empty, followed by the cleaned rows on the export columns,
   * with nothing removed.
   */
  function MergeSpec(existing: Frame, cleaned: Frame): Frame {
    MergeOn(existing, cleaned, FINAL_COLS)
  }

  /** The merge on the columns `cols`. */
  function MergeOn(existing: Frame, cleaned: Frame, cols: seq<string>): Frame {
    var kept := if Empty(existing) then [] else Conform(existing, cols);
    Frame(cols, kept + Select(cleaned, cols).rows)
  }

  /**
   * The merged table has the export columns, the existing rows first and in order, then
   * the cleaned rows in order; its length is the sum of the two.
   */
  lemma MergeRows(existing: Frame, cleaned: Frame)
    ensures var r := MergeSpec(existing, cleaned); var n := if Empty(existing) then 0 else |existing.rows|;
      r.columns == FINAL_COLS && |r.rows| == n + |cleaned.rows| &&
      (forall i, c | 0 <= i < n && c in FINAL_COLS ::
        r.rows[i][c] == if c in existing.columns then Cell(existing.rows[i], c) else "") &&
      (forall i, c | 0 <= i < |cleaned.rows| && c in FINAL_COLS :: r.rows[n + i][c] == Cell(cleaned.rows[i], c))
  {
    MergeOnRows(existing, cleaned, FINAL_COLS);
  }

  /** `MergeRows` for any list of columns. */
  lemma MergeOnRows(existing: Frame, cleaned: Frame, cols: seq<string>)
    ensures var r := MergeOn(existing, cleaned, cols); var n := if Empty(existing) then 0 else |existing.rows|;
      r.columns == cols && |r.rows| == n + |cleaned.rows| &&
      (forall i, c | 0 <= i < n && c in cols ::
        r.rows[i][c] == if c in existing.columns then Cell(existing.rows[i], c) else "") &&
      (forall i, c | 0 <= i < |cleaned.rows| && c in cols :: r.rows[n + i][c] == Cell(cleaned.rows[i], c))
  {
    var n := if Empty(existing) then 0 else |existing.rows|;
    var kept := if Empty(existing) then [] else Conform(existing, cols);
    var r := MergeOn(existing, cleaned, cols);
    forall i | 0 <= i < |cleaned.rows| ensures r.rows[n + i] == Select(cleaned, cols).rows[i] {
      assert |kept| == n;
    }
  }

  /** `for c in cols: if c not in existing.columns: existing[c] = ""`. */
  method AddEmptyColumns(existing: Frame, cols: seq<string>) returns (e: Frame)
    ensures |e.rows| == |existing.rows|
    ensures forall c | c in existing.columns || c in cols :: c in e.columns
    ensures forall i, c | 0 <= i < |e.rows| && c in e.columns ::
      Cell(e.rows[i], c) == if c in existing.columns then Cell(existing.rows[i], c) else ""
  {
    e := existing;
    for k := 0 to |cols|
      invariant |e.rows| == |existing.rows|
      invariant forall c | c in existing.columns || c in cols[..k] :: c in e.columns
      invariant forall i, c | 0 <= i < |e.rows| && c in e.columns ::
        Cell(e.rows[i], c) == if c in existing.columns then Cell(existing.rows[i], c) else ""
    {
      var c := cols[k];
      assert cols[..k + 1] == cols[..k] + [c];
      if c !in e.columns {
        EmptyColumnStep(existing, e, c);
        e := WithColumn(e, c, Fill(|e.rows|, ""));
      }
    }
    assert cols[..|cols|] == cols;
  }

  /** One new column of `AddEmptyColumns`: the new cells are "" and the others are kept. */
  lemma EmptyColumnStep(existing: Frame, e: Frame, c: string)
    requires |e.rows| == |existing.rows| && c !in e.columns
    requires forall c | c in existing.columns :: c in e.columns
    requires forall i, c | 0 <= i < |e.rows| && c in e.columns ::
      Cell(e.rows[i], c) == if c in existing.columns then Cell(existing.rows[i], c) else ""
    ensures var e' := WithColumn(e, c, Fill(|e.rows|, ""));
      && |e'.rows| == |existing.rows| && e'.columns == e.columns + [c]
      && forall i, d | 0 <= i < |e'.rows| && d in e'.columns ::
           Cell(e'.rows[i], d) == if d in existing.columns then Cell(existing.rows[i], d) else ""
  {
    var e' := WithColumn(e, c, Fill(|e.rows|, ""));
    assert forall i | 0 <= i < |e.rows| :: Cell(e'.rows[i], c) == Column(e', c)[i];
  }

  /** Selecting the columns of a frame extended by `AddEmptyColumns` conforms the original. */
  lemma SelectConformed(existing: Frame, e: Frame, cols: seq<string>)
    requires |e.rows| == |existing.rows|
    requires forall c | c in cols :: c in e.columns
    requires forall i, c | 0 <= i < |e.rows| && c in e.columns ::
      Cell(e.rows[i], c) == if c in existing.columns then Cell(existing.rows[i], c) else ""
    ensures Select(e, cols).rows == Conform(existing, cols)
  {
    var a := Select(e, cols).rows;
    var b := Conform(existing, cols);
    forall i | 0 <= i < |a| ensures a[i] == b[i] {
      assert a[i].Keys == b[i].Keys;
    }
  }

  /**
   * The merge block of `run_once`: a non-empty existing export gets each missing export
   * column as "", is cut to the export columns and has the cleaned rows appended.
   */
  method Merge(existing: Frame, cleaned: Frame) returns (out: Frame)
    ensures out == MergeSpec(existing, cleaned)
  {
    if Empty(existing) {
      return Select(cleaned, FINAL_COLS);
    }
    var e := AddEmptyColumns(existing, FINAL_COLS);
    SelectConformed(existing, e, FINAL_COLS);
    var kept := Select(e, FINAL_COLS);
    out := Frame(FINAL_COLS, kept.rows + Select(cleaned, FINAL_COLS).rows);
  }

  /** How a run ends. */
  datatype Outcome = NoNewData | FetchFailed(msg: string) | CleanFailed(msg: string) | Published(table: Frame)

  /** A write to the folder. */
  datatype Write = Upload(name: string, table: Frame) | Mark(lastOid: string)

  /** The folder after one write. */
  function Step(objs: seq<DriveObject>, w: Write): seq<DriveObject> {
    match w
    case Upload(name, t) => Upsert(objs, name, Table(t))
    case Mark(id) => SaveWatermarkSpec(objs, id)
  }

  /** The folder after the writes, in order. */
  function Apply(objs: seq<DriveObject>, ws: seq<Write>): seq<DriveObject>
    decreases |ws|
  {
    if ws == [] then objs else Apply(Step(objs, ws[0]), ws[1..])
  }

  lemma {:induction false} ApplyConcat(objs: seq<DriveObject>, a: seq<Write>, b: seq<Write>)
    ensures Apply(objs, a + b) == Apply(Apply(objs, a), b)
    decreases |a|
  {
    if a == [] {
      assert a + b == b;
    } else {
      assert (a + b)[0] == a[0] && (a + b)[1..] == a[1..] + b;
      ApplyConcat(Step(objs, a[0]), a[1..], b);
      assert Apply(objs, a + b) == Apply(Step(objs, a[0]), a[1..] + b);
      assert Apply(objs, a) == Apply(Step(objs, a[0]), a[1..]);
    }
  }

  /** What `get_watermark` wrote, when it migrated a watermark from the export. */
  function MigrationWrites(objs: seq<DriveObject>, outputName: string): (ws: seq<Write>)
    ensures Apply(objs, ws) == WatermarkSpec(objs, outputName).objects
  {
    var read := WatermarkSpec(objs, outputName);
    if Lookup(objs, WATERMARK_FILE).Some? && Lookup(objs, WATERMARK_FILE).value.JsonObject? then []
    else if read.lastOid.Some? then
      assert Apply(objs, [Mark(read.lastOid.value)]) == Step(objs, Mark(read.lastOid.value)) by {
        assert [Mark(read.lastOid.value)][1..] == [];
      }
      [Mark(read.lastOid.value)]
    else []
  }

  /** The cursor the run starts from: the watermark in incremental mode, none otherwise. */
  function StartCursor(objs: seq<DriveObject>, runMode: string, outputName: string): Option<string> {
    if Incremental(runMode) then WatermarkSpec(objs, outputName).lastOid else None
  }

  /** The writes `get_watermark` makes in incremental mode: at most one watermark save. */
  function PreWrites(objs: seq<DriveObject>, runMode: string, outputName: string): seq<Write> {
    if Incremental(runMode) then MigrationWrites(objs, outputName) else []
  }

  /** A run: how it ended and the writes it made, in order. */
  datatype Run = Run(outcome: Outcome, writes: seq<Write>)

  /**
   * The end of a run whose `clean` succeeded: merge with the existing export as it is
   * after the watermark read, upload, then save the fetched cursor in incremental mode.
   */
  function Publication(objs: seq<DriveObject>, runMode: string, outputName: string,
                       cursor: Option<string>, cleaned: Frame): Run
  {
    var pre := PreWrites(objs, runMode, outputName);
    var out := MergeSpec(ReadSheet(Apply(objs, pre), outputName), cleaned);
    var post := if Incremental(runMode) && cursor.Some? && cursor.value != "" then [Mark(cursor.value)] else [];
    Run(Published(out), pre + [Upload(outputName, out)] + post)
  }

  /**
   * The run after `fetch` returned: an exception raised by `fetch` or `clean` ends it
   * with the writes made so far, and an empty table ends it with no new data.
   */
  function AfterFetch(objs: seq<DriveObject>, runMode: string, outputName: string,
                      fetched: Result<Fetched>, coord: string -> string): Run
  {
    var pre := PreWrites(objs, runMode, outputName);
    if fetched.Err? then Run(FetchFailed(fetched.msg), pre)
    else if Empty(fetched.value.raw) then Run(NoNewData, pre)
    else
      match CleanSpec(fetched.value.raw, coord)
      case Err(m) => Run(CleanFailed(m), pre)
      case Ok(cleaned) => Publication(objs, runMode, outputName, fetched.value.cursor, cleaned)
  }

  /** `run_once` over the folder `objs` and the journals collection `js`. */
  function RunSpec(objs: seq<DriveObject>, runMode: string, outputName: string, js: seq<Journal>,
                   show: Value -> string, coord: string -> string): Run
  {
    AfterFetch(objs, runMode, outputName, Fetch(js, StartCursor(objs, runMode, outputName), show), coord)
  }

  /** The start of `run_once`: the watermark is read only in incremental mode. */
  method ReadCursor(drive: Drive, runMode: string, outputName: string) returns (lastOid: Option<string>)
    modifies drive
    ensures lastOid == StartCursor(old(drive.objects), runMode, outputName)
    ensures drive.objects == Apply(old(drive.objects), PreWrites(old(drive.objects), runMode, outputName))
  {
    lastOid := None;
    if Lower(runMode) == "inc" {
      lastOid := drive.GetWatermark(outputName);
    }
  }

  /** Download the existing export, append the cleaned rows, and upload the result. */
  method Publish(drive: Drive, outputName: string, cleaned: Frame) returns (out: Frame)
    modifies drive
    ensures out == MergeSpec(ReadSheet(old(drive.objects), outputName), cleaned)
    ensures drive.objects == Step(old(drive.objects), Upload(outputName, out))
  {
    var existing := drive.DownloadExcel(outputName);
    out := Merge(existing, cleaned);
    drive.UploadExcel(outputName, out);
  }

  /** The folder a publishing run leaves: `get_watermark`'s writes, the upload, then the cursor save. */
  lemma PublicationFolder(objs: seq<DriveObject>, runMode: string, outputName: string,
                          cursor: Option<string>, cleaned: Frame)
    ensures var run := Publication(objs, runMode, outputName, cursor, cleaned);
      var uploaded := Step(Apply(objs, PreWrites(objs, runMode, outputName)), Upload(outputName, run.outcome.table));
      Apply(objs, run.writes) ==
        if Incremental(runMode) && cursor.Some? && cursor.value != "" then SaveWatermarkSpec(uploaded, cursor.value) else uploaded
  {
    var run := Publication(objs, runMode, outputName, cursor, cleaned);
    var pre := PreWrites(objs, runMode, outputName);
    var up := [Upload(outputName, run.outcome.table)];
    var post := if Incremental(runMode) && cursor.Some? && cursor.value != "" then [Mark(cursor.value)] else [];
    assert run.writes == pre + up + post;
    ApplyConcat(objs, pre, up);
    ApplyConcat(objs, pre + up, post);
    assert up[1..] == [];
    if post != [] {
      assert post[1..] == [];
    }
  }

  /** Merge, upload, and in incremental mode save the cursor, on a drive `get_watermark` has written to. */
  method PublishRun(drive: Drive, runMode: string, outputName: string, cursor: Option<string>,
                    cleaned: Frame, ghost objs: seq<DriveObject>) returns (o: Outcome)
    requires drive.objects == Apply(objs, PreWrites(objs, runMode, outputName))
    modifies drive
    ensures o == Publication(objs, runMode, outputName, cursor, cleaned).outcome
    ensures drive.objects == Apply(objs, Publication(objs, runMode, outputName, cursor, cleaned).writes)
  {
    var out := Publish(drive, outputName, cleaned);
    if Lower(runMode) == "inc" && cursor.Some? && cursor.value != "" {
      drive.SaveWatermark(cursor.value);
    }
    PublicationFolder(objs, runMode, outputName, cursor, cleaned);
    return Published(out);
  }

  /** The run after `fetch`, on a drive that `get_watermark` has already written to. */
  method FinishRun(drive: Drive, runMode: string, outputName: string, fetched: Result<Fetched>,
                   coord: string -> string, ghost objs: seq<DriveObject>) returns (o: Outcome)
    requires drive.objects == Apply(objs, PreWrites(objs, runMode, outputName))
    requires fetched.Ok? ==> WellFormed(fetched.value.raw)
    modifies drive
    ensures o == AfterFetch(objs, runMode, outputName, fetched, coord).outcome
    ensures drive.objects == Apply(objs, AfterFetch(objs, runMode, outputName, fetched, coord).writes)
  {
    if fetched.Err? {
      return FetchFailed(fetched.msg);
    }
    if Empty(fetched.value.raw) {
      return NoNewData;
    }
    var cleaned := Clean(fetched.value.raw, coord);
    if cleaned.Err? {
      return CleanFailed(cleaned.msg);
    }
    o := PublishRun(drive, runMode, outputName, fetched.value.cursor, cleaned.value, objs);
  }

  /** `run_once`: the folder ends as the run's writes leave it, and the outcome is the run's. */
  method RunOnce(drive: Drive, runMode: string, outputName: string, js: seq<Journal>,
                 show: Value -> string, coord: string -> string) returns (o: Outcome)
    modifies drive
    ensures o == RunSpec(old(drive.objects), runMode, outputName, js, show, coord).outcome
    ensures drive.objects == Apply(old(drive.objects), RunSpec(old(drive.objects), runMode, outputName, js, show, coord).writes)
  {
    ghost var objs := drive.objects;
    var lastOid := ReadCursor(drive, runMode, outputName);
    var fetched := Fetch(js, lastOid, show);
    if fetched.Ok? {
      FetchTable(js, lastOid, show);
    }
    o := FinishRun(drive, runMode, outputName, fetched, coord, objs);
  }

  /** A fetched batch that is not empty has a `journal_id` cursor naming its last journal. */
  lemma FetchedBatch(js: seq<Journal>, lastOid: Option<string>, show: Value -> string)
    requires Fetch(js, lastOid, show).Ok? && !Empty(Fetch(js, lastOid, show).value.raw)
    ensures Batch(js, lastOid) != []
    ensures var b := Batch(js, lastOid);
      Fetch(js, lastOid, show).value.cursor == Some(Hex(b[|b| - 1].id))
    ensures |Fetch(js, lastOid, show).value.raw.rows| == |Batch(js, lastOid)|
  {
    FetchTable(js, lastOid, show);
    FetchCursor(js, lastOid, show);
  }

  /**
   * The writes of a publishing run: `get_watermark`'s, then one upload of the merged
   * table, then the cursor save, made exactly in incremental mode with a non-empty cursor.
   * The upload holds the existing rows, when that export is not empty, then the cleaned rows.
   */
  lemma PublicationWrites(objs: seq<DriveObject>, runMode: string, outputName: string,
                          cursor: Option<string>, cleaned: Frame)
    ensures var run := Publication(objs, runMode, outputName, cursor, cleaned);
      var pre := PreWrites(objs, runMode, outputName);
      var existing := ReadSheet(Apply(objs, pre), outputName);
      var t := run.outcome.table;
      run.outcome.Published? &&
      run.writes == pre + [Upload(outputName, t)] +
        (if Incremental(runMode) && cursor.Some? && cursor.value != "" then [Mark(cursor.value)] else []) &&
      t.columns == FINAL_COLS && |t.rows| == (if Empty(existing) then 0 else |existing.rows|) + |cleaned.rows|
  {
    var pre := PreWrites(objs, runMode, outputName);
    MergeRows(ReadSheet(Apply(objs, pre), outputName), cleaned);
  }

  /** After publishing in incremental mode, the watermark file reads as the fetched cursor. */
  lemma PublicationMarks(objs: seq<DriveObject>, runMode: string, outputName: string, cursor: string, cleaned: Frame)
    requires Incremental(runMode) && cursor != ""
    ensures var run := Publication(objs, runMode, outputName, Some(cursor), cleaned);
      Lookup(Apply(objs, run.writes), WATERMARK_FILE) == Some(JsonObject(Some(cursor)))
  {
    var run := Publication(objs, runMode, outputName, Some(cursor), cleaned);
    var before := PreWrites(objs, runMode, outputName) + [Upload(outputName, run.outcome.table)];
    ApplyConcat(objs, before, [Mark(cursor)]);
    assert Apply(Apply(objs, before), [Mark(cursor)]) == SaveWatermarkSpec(Apply(objs, before), cursor) by {
      assert [Mark(cursor)][1..] == [];
    }
    SaveWatermarkReadsBack(Apply(objs, before), cursor);
  }

  /** In a full run the only write is the upload, which leaves any other object as it was. */
  lemma PublicationFull(objs: seq<DriveObject>, runMode: string, outputName: string,
                        cursor: Option<string>, cleaned: Frame)
    requires !Incremental(runMode)
    ensures var run := Publication(objs, runMode, outputName, cursor, cleaned);
      run.writes == [Upload(outputName, run.outcome.table)] &&
      forall n | n != outputName :: Lookup(Apply(objs, run.writes), n) == Lookup(objs, n)
  {
    var run := Publication(objs, runMode, outputName, cursor, cleaned);
    var t := run.outcome.table;
    assert run.writes == [Upload(outputName, t)];
    assert Apply(objs, run.writes) == Upsert(objs, outputName, Table(t)) by {
      assert run.writes[1..] == [];
    }
    UpsertLookup(objs, outputName, Table(t));
  }

  /** The export has no `journal_id` column. */
  lemma JournalIdNotExported()
    ensures "journal_id" !in FINAL_COLS
  {
    forall c | c in FINAL_COLS ensures c != "journal_id" {
      assert c[0] != 'j';
    }
  }

  /**
   * The export that `run_once` uploads has only the export columns, so when the watermark
   * file is missing or unreadable the migration finds no cursor in it and writes nothing.
   */
  lemma NoMigrationFromOwnExport(objs: seq<DriveObject>, outputName: string)
    requires !(Lookup(objs, WATERMARK_FILE).Some? && Lookup(objs, WATERMARK_FILE).value.JsonObject?)
    requires ReadSheet(objs, outputName).columns == FINAL_COLS
    ensures WatermarkSpec(objs, outputName) == WatermarkRead(None, objs)
  {
    JournalIdNotExported();
  }

  /** A run that ends before publishing makes no write beyond what `get_watermark` did. */
  lemma RunWithoutPublishing(objs: seq<DriveObject>, runMode: string, outputName: string, js: seq<Journal>,
                             show: Value -> string, coord: string -> string)
    requires !RunSpec(objs, runMode, outputName, js, show, coord).outcome.Published?
    ensures RunSpec(objs, runMode, outputName, js, show, coord).writes == PreWrites(objs, runMode, outputName)
  {
    var f := Fetch(js, StartCursor(objs, runMode, outputName), show);
    AfterFetchWithoutPublishing(objs, runMode, outputName, f, coord);
  }

  lemma AfterFetchWithoutPublishing(objs: seq<DriveObject>, runMode: string, outputName: string,
                                    fetched: Result<Fetched>, coord: string -> string)
    requires !AfterFetch(objs, runMode, outputName, fetched, coord).outcome.Published?
    ensures AfterFetch(objs, runMode, outputName, fetched, coord).writes == PreWrites(objs, runMode, outputName)
  {
    if fetched.Ok? && !Empty(fetched.value.raw) && CleanSpec(fetched.value.raw, coord).Ok? {
      assert false;
    }
  }

  /**
   * With nothing new to fetch the run reports no new data and makes no write beyond what
   * `get_watermark` did: nothing is uploaded and no cursor is saved.
   */
  lemma RunNoNewData(objs: seq<DriveObject>, runMode: string, outputName: string, js: seq<Journal>,
                     show: Value -> string, coord: string -> string)
    requires Selected(js, CursorOf(StartCursor(objs, runMode, outputName))) == []
    ensures RunSpec(objs, runMode, outputName, js, show, coord) == Run(NoNewData, PreWrites(objs, runMode, outputName))
  {
    FetchNothing(js, StartCursor(objs, runMode, outputName), show);
  }

  /**
   * A publishing run uploads once, after `get_watermark`'s own writes; the only write after
   * the upload is the save of the batch's last `journal_id`, made exactly in incremental
   * mode. The upload holds the existing rows then one cleaned row per fetched journal.
   */
  lemma RunPublishing(objs: seq<DriveObject>, runMode: string, outputName: string, js: seq<Journal>,
                      show: Value -> string, coord: string -> string)
    requires RunSpec(objs, runMode, outputName, js, show, coord).outcome.Published?
    ensures var run := RunSpec(objs, runMode, outputName, js, show, coord);
      var pre := PreWrites(objs, runMode, outputName);
      var b := Batch(js, StartCursor(objs, runMode, outputName));
      var existing := ReadSheet(Apply(objs, pre), outputName);
      var t := run.outcome.table;
      b != [] &&
      run.writes == pre + [Upload(outputName, t)] + (if Incremental(runMode) then [Mark(Hex(b[|b| - 1].id))] else []) &&
      t.columns == FINAL_COLS && |t.rows| == (if Empty(existing) then 0 else |existing.rows|) + |b|
  {
    var lastOid := StartCursor(objs, runMode, outputName);
    var f := Fetch(js, lastOid, show).value;
    FetchedBatch(js, lastOid, show);
    CleanShape(f.raw, coord);
    PublicationWrites(objs, runMode, outputName, f.cursor, CleanSpec(f.raw, coord).value);
  }

  /** A full run neither reads nor writes the watermark: it fetches every finished journal and only uploads. */
  lemma FullRun(objs: seq<DriveObject>, runMode: string, outputName: string, js: seq<Journal>,
                show: Value -> string, coord: string -> string)
    requires !Incremental(runMode) && outputName != WATERMARK_FILE
    ensures StartCursor(objs, runMode, outputName) == None
    ensures forall w | w in RunSpec(objs, runMode, outputName, js, show, coord).writes :: w.Upload? && w.name == outputName
    ensures Lookup(Apply(objs, RunSpec(objs, runMode, outputName, js, show, coord).writes), WATERMARK_FILE) ==
      Lookup(objs, WATERMARK_FILE)
  {
    var f := Fetch(js, None, show);
    if f.Ok? && !Empty(f.value.raw) && CleanSpec(f.value.raw, coord).Ok? {
      PublicationFull(objs, runMode, outputName, f.value.cursor, CleanSpec(f.value.raw, coord).value);
    }
  }

  /**
   * After an incremental run publishes, the watermark names the largest id of the batch,
   * which is past the cursor the run started from whenever that cursor parsed.
   */
  lemma RunAdvancesWatermark(objs: seq<DriveObject>, runMode: string, outputName: string, js: seq<Journal>,
                             show: Value -> string, coord: string -> string) returns (m: ObjectId)
    requires Incremental(runMode) && RunSpec(objs, runMode, outputName, js, show, coord).outcome.Published?
    ensures var lastOid := StartCursor(objs, runMode, outputName);
      var sel := Selected(js, CursorOf(lastOid));
      var final := Apply(objs, RunSpec(objs, runMode, outputName, js, show, coord).writes);
      (exists j | j in sel :: j.id == m) &&
      Lookup(final, WATERMARK_FILE) == Some(JsonObject(Some(Hex(m)))) &&
      (forall j | j in sel :: j.id <= m) &&
      (CursorOf(lastOid).Some? ==> m > CursorOf(lastOid).value)
  {
    var lastOid := StartCursor(objs, runMode, outputName);
    var f := Fetch(js, lastOid, show).value;
    FetchedBatch(js, lastOid, show);
    var b := Batch(js, lastOid);
    m := b[|b| - 1].id;
    BatchLastIsMax(js, lastOid);
    assert |Hex(m)| == OID_HEX_LEN;
    PublicationMarks(objs, runMode, outputName, Hex(m), CleanSpec(f.raw, coord).value);
  }

  /** A run that starts from a saved watermark past every matching journal finds nothing and writes nothing. */
  lemma RunFromCoveringWatermark(objs: seq<DriveObject>, runMode: string, outputName: string, js: seq<Journal>,
                                 show: Value -> string, coord: string -> string, m: ObjectId)
    requires Incremental(runMode) && Lookup(objs, WATERMARK_FILE) == Some(JsonObject(Some(Hex(m))))
    requires forall j | j in js && !Nullish(j.endTime) :: j.id <= m
    ensures RunSpec(objs, runMode, outputName, js, show, coord) == Run(NoNewData, [])
  {
    HexRoundTrip(m);
    assert |Hex(m)| == OID_HEX_LEN;
    WatermarkFromJson(objs, outputName);
    assert StartCursor(objs, runMode, outputName) == Some(Hex(m));
    assert PreWrites(objs, runMode, outputName) == [];
    CoveredSelectsNothing(js, m);
    RunNoNewData(objs, runMode, outputName, js, show, coord);
  }

  /** A cursor at or past every journal with an end time selects nothing. */
  lemma CoveredSelectsNothing(js: seq<Journal>, m: ObjectId)
    requires forall j | j in js && !Nullish(j.endTime) :: j.id <= m
    ensures Selected(js, Some(m)) == []
  {
  }

  /**
   * Running again over the same collection after an incremental run published finds no
   * new data and writes nothing: the saved watermark covers every journal it selected,
   * and every journal it did not select.
   */
  lemma RunAgainFindsNothing(objs: seq<DriveObject>, runMode: string, outputName: string, js: seq<Journal>,
                             show: Value -> string, coord: string -> string)
    requires Incremental(runMode) && RunSpec(objs, runMode, outputName, js, show, coord).outcome.Published?
    ensures var after := Apply(objs, RunSpec(objs, runMode, outputName, js, show, coord).writes);
      RunSpec(after, runMode, outputName, js, show, coord) == Run(NoNewData, [])
  {
    var lastOid := StartCursor(objs, runMode, outputName);
    var sel := Selected(js, CursorOf(lastOid));
    var after := Apply(objs, RunSpec(objs, runMode, outputName, js, show, coord).writes);
    var m := RunAdvancesWatermark(objs, runMode, outputName, js, show, coord);
    forall j | j in js && !Nullish(j.endTime) ensures j.id <= m {
      if Matches(j, CursorOf(lastOid)) {
        assert j in sel;
      }
    }
    RunFromCoveringWatermark(after, runMode, outputName, js, show, coord, m);
  }
}
