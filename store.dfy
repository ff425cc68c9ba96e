/**
 * The Drive folder the export lives in, as a list of named objects in the order a
 * listing returns them, and the watermark protocol kept in it: `find_file_id`,
 * `save_watermark`, `get_watermark` with its migration from the export, and the
 * whole-object upload and download of the export workbook.
 */
module Store {
  import opened Wrappers
  import opened ObjectIds
  import opened Frames

  /** Name of the object holding the cursor between runs. */
  const WATERMARK_FILE: string := "watermark.json"

  /**
   * What an object holds, as far as the pipeline can read it: a workbook (read as a
   * table of text cells), a JSON object with or without a string `last_oid` member,
   * or anything else, which neither reader accepts.
   */
  datatype Content = Table(frame: Frame) | JsonObject(lastOid: Option<string>) | Other

  datatype DriveObject = DriveObject(name: string, content: Content)

  /** `find_file_id`: the position of the first object with that name in the listing. */
  function FindFirst(objs: seq<DriveObject>, name: string): (r: Option<nat>)
    ensures r.Some? ==> r.value < |objs| && objs[r.value].name == name
    ensures r.Some? ==> forall k | 0 <= k < r.value :: objs[k].name != name
    ensures r.None? <==> forall k | 0 <= k < |objs| :: objs[k].name != name
  {
    if objs == [] then None
    else if objs[0].name == name then Some(0)
    else
      match FindFirst(objs[1..], name)
      case None => None
      case Some(i) => Some(i + 1)
  }

  /** The first match is determined by the names alone. */
  lemma {:induction false} FindFirstIs(objs: seq<DriveObject>, name: string, i: nat)
    requires i < |objs| && objs[i].name == name
    requires forall k | 0 <= k < i :: objs[k].name != name
    ensures FindFirst(objs, name) == Some(i)
  {
    if i > 0 {
      FindFirstIs(objs[1..], name, i - 1);
    }
  }

  /** What a reader fetching `name` by `find_file_id` sees: the content of the first match. */
  function Lookup(objs: seq<DriveObject>, name: string): Option<Content> {
    match FindFirst(objs, name)
    case None => None
    case Some(i) => Some(objs[i].content)
  }

  /**
   * Update-or-create: the first object with that name gets the new content, or a new
   * object goes at the end of the listing when there is none.
   */
  function Upsert(objs: seq<DriveObject>, name: string, c: Content): (r: seq<DriveObject>)
    ensures FindFirst(objs, name).Some? ==> (|r| == |objs| &&
      r[FindFirst(objs, name).value] == DriveObject(name, c) &&
      forall k | 0 <= k < |objs| && k != FindFirst(objs, name).value :: r[k] == objs[k])
    ensures FindFirst(objs, name).None? ==> r == objs + [DriveObject(name, c)]
  {
    match FindFirst(objs, name)
    case Some(i) => objs[i := DriveObject(name, c)]
    case None => objs + [DriveObject(name, c)]
  }

  /** After an update-or-create, `name` reads as the new content and every other name reads as before. */
  lemma UpsertLookup(objs: seq<DriveObject>, name: string, c: Content)
    ensures Lookup(Upsert(objs, name, c), name) == Some(c)
    ensures forall n | n != name :: Lookup(Upsert(objs, name, c), n) == Lookup(objs, n)
  {
    var r := Upsert(objs, name, c);
    forall n | n != name ensures Lookup(r, n) == Lookup(objs, n) {
      match FindFirst(objs, n)
      case None =>
        assert forall k | 0 <= k < |r| :: r[k].name != n;
      case Some(i) =>
        FindFirstIs(r, n, i);
    }
    match FindFirst(objs, name)
    case None =>
      FindFirstIs(r, name, |objs|);
    case Some(i) =>
      FindFirstIs(r, name, i);
  }

  /** Writing the same content twice leaves the folder as writing it once. */
  lemma UpsertIdempotent(objs: seq<DriveObject>, name: string, c: Content)
    ensures Upsert(Upsert(objs, name, c), name, c) == Upsert(objs, name, c)
  {
    var r := Upsert(objs, name, c);
    match FindFirst(objs, name)
    case None =>
      FindFirstIs(r, name, |objs|);
    case Some(i) =>
      FindFirstIs(r, name, i);
  }

  /**
   * `download_excel`: the table of the first object with that name, or an empty table
   * when there is none or it does not read as a workbook.
   */
  function ReadSheet(objs: seq<DriveObject>, name: string): (r: Frame)
    ensures (Lookup(objs, name).Some? && Lookup(objs, name).value.Table?) ==> r == Lookup(objs, name).value.frame
    ensures !(Lookup(objs, name).Some? && Lookup(objs, name).value.Table?) ==> r == Frame([], []) && Empty(r)
  {
    match Lookup(objs, name)
    case Some(Table(f)) => f
    case _ => Frame([], [])
  }

  /**
   * `save_watermark`: an empty id changes nothing; any other id replaces the first
   * `watermark.json` with `{"last_oid": id}`, or creates one.
   */
  function SaveWatermarkSpec(objs: seq<DriveObject>, lastOid: string): seq<DriveObject> {
    if lastOid == "" then objs else Upsert(objs, WATERMARK_FILE, JsonObject(Some(lastOid)))
  }

  /** A saved watermark reads back as saved, and no other name reads differently. */
  lemma SaveWatermarkReadsBack(objs: seq<DriveObject>, lastOid: string)
    requires lastOid != ""
    ensures Lookup(SaveWatermarkSpec(objs, lastOid), WATERMARK_FILE) == Some(JsonObject(Some(lastOid)))
    ensures forall n | n != WATERMARK_FILE :: Lookup(SaveWatermarkSpec(objs, lastOid), n) == Lookup(objs, n)
  {
    UpsertLookup(objs, WATERMARK_FILE, JsonObject(Some(lastOid)));
  }

  /** The ids among the strings that parse as ObjectIds, in order, skipping the rest. */
  function ParsedIds(cells: seq<string>): (r: seq<ObjectId>)
    ensures forall o | o in r :: exists s | s in cells :: ParseOid(s) == Some(o)
    ensures forall s | s in cells && ParseOid(s).Some? :: ParseOid(s).value in r
  {
    if cells == [] then []
    else
      var rest := ParsedIds(cells[..|cells| - 1]);
      var s := cells[|cells| - 1];
      assert forall t | t in cells :: t in cells[..|cells| - 1] || t == s;
      match ParseOid(s)
      case None => rest
      case Some(o) => rest + [o]
  }

  /** `max(oids)`: ObjectIds compare as their 12 bytes, that is, as numbers. */
  function MaxId(ids: seq<ObjectId>): (m: ObjectId)
    requires ids != []
    ensures m in ids && forall o | o in ids :: o <= m
  {
    if |ids| == 1 then ids[0]
    else
      var rest := MaxId(ids[1..]);
      assert forall o | o in ids :: o == ids[0] || o in ids[1..];
      if ids[0] >= rest then ids[0] else rest
  }

  /** The result of `get_watermark` and the folder it leaves behind. */
  datatype WatermarkRead = WatermarkRead(lastOid: Option<string>, objects: seq<DriveObject>)

  /**
   * `get_watermark`: a `watermark.json` that reads as a JSON object gives its `last_oid`
   * and nothing else happens. Otherwise the export is scanned: when it is non-empty, has
   * a `journal_id` column and some of its cells parse as ids, the largest of them is the
   * result and is saved; otherwise there is no watermark.
   */
  function WatermarkSpec(objs: seq<DriveObject>, excelName: string): WatermarkRead {
    match Lookup(objs, WATERMARK_FILE)
    case Some(JsonObject(w)) => WatermarkRead(w, objs)
    case _ =>
      var existing := ReadSheet(objs, excelName);
      if !Empty(existing) && "journal_id" in existing.columns then
        var oids := ParsedIds(Column(existing, "journal_id"));
        if oids != [] then
          var last := Hex(MaxId(oids));
          WatermarkRead(Some(last), SaveWatermarkSpec(objs, last))
        else WatermarkRead(None, objs)
      else WatermarkRead(None, objs)
  }

  /** A readable watermark file decides the result and the folder is untouched. */
  lemma WatermarkFromJson(objs: seq<DriveObject>, excelName: string)
    requires Lookup(objs, WATERMARK_FILE).Some? && Lookup(objs, WATERMARK_FILE).value.JsonObject?
    ensures WatermarkSpec(objs, excelName) == WatermarkRead(Lookup(objs, WATERMARK_FILE).value.lastOid, objs)
  {
  }

  /**
   * Without a readable watermark file, the result is the largest id in the export's
   * `journal_id` column, written as a `journal_id`, and it is saved so that the next read
   * finds it; with no such id there is no watermark and nothing changes.
   */
  lemma WatermarkMigrated(objs: seq<DriveObject>, excelName: string)
    requires !(Lookup(objs, WATERMARK_FILE).Some? && Lookup(objs, WATERMARK_FILE).value.JsonObject?)
    ensures var w := WatermarkSpec(objs, excelName); var t := ReadSheet(objs, excelName);
      var cells := Column(t, "journal_id");
      (w.lastOid.Some? <==> !Empty(t) && "journal_id" in t.columns && exists s | s in cells :: ParseOid(s).Some?) &&
      (w.lastOid.None? ==> w.objects == objs) &&
      (w.lastOid.Some? ==> exists m: ObjectId ::
        w.lastOid.value == Hex(m) && (exists s | s in cells :: ParseOid(s) == Some(m)) &&
        (forall s | s in cells && ParseOid(s).Some? :: ParseOid(s).value <= m) &&
        Lookup(w.objects, WATERMARK_FILE) == Some(JsonObject(Some(Hex(m)))))
  {
    var t := ReadSheet(objs, excelName);
    var cells := Column(t, "journal_id");
    var oids := ParsedIds(cells);
    if oids != [] {
      var m := MaxId(oids);
      HexRoundTrip(m);
      SaveWatermarkReadsBack(objs, Hex(m));
    } else {
      assert forall s | s in cells :: ParseOid(s).None?;
    }
  }

  /** Reading the watermark a second time gives the same answer and changes nothing more. */
  lemma WatermarkStable(objs: seq<DriveObject>, excelName: string)
    ensures var w := WatermarkSpec(objs, excelName);
      WatermarkSpec(w.objects, excelName) == w
  {
    var w := WatermarkSpec(objs, excelName);
    if w.objects != objs {
      SaveWatermarkReadsBack(objs, w.lastOid.value);
    }
  }

  /** The migration scan: `ObjectId(s)` on each cell, keeping those that parse. */
  method ScanIds(cells: seq<string>) returns (oids: seq<ObjectId>)
    ensures oids == ParsedIds(cells)
  {
    oids := [];
    for i := 0 to |cells|
      invariant oids == ParsedIds(cells[..i])
    {
      assert cells[..i + 1][..i] == cells[..i];
      var o := ParseOid(cells[i]);
      if o.Some? {
        oids := oids + [o.value];
      }
    }
    assert cells[..|cells|] == cells;
  }

  /** The folder, which the pipeline changes only by whole-object writes. */
  class Drive {
    var objects: seq<DriveObject>

    constructor(objs: seq<DriveObject>)
      ensures objects == objs
    {
      objects := objs;
    }

    /** `download_excel`: read the export workbook, or an empty table. */
    method DownloadExcel(name: string) returns (t: Frame)
      ensures t == ReadSheet(objects, name)
    {
      var fid := FindFirst(objects, name);
      if fid.None? {
        return Frame([], []);
      }
      match objects[fid.value].content
      case Table(f) => t := f;
      case _ => t := Frame([], []);
    }

    /** `upload_excel`: replace the first object of that name with the table, or create it. */
    method UploadExcel(name: string, t: Frame)
      modifies this
      ensures objects == Upsert(old(objects), name, Table(t))
    {
      var fid := FindFirst(objects, name);
      if fid.Some? {
        objects := objects[fid.value := DriveObject(name, Table(t))];
      } else {
        objects := objects + [DriveObject(name, Table(t))];
      }
    }

    /** `save_watermark`. */
    method SaveWatermark(lastOid: string)
      modifies this
      ensures objects == SaveWatermarkSpec(old(objects), lastOid)
    {
      if lastOid == "" {
        return;
      }
      var fid := FindFirst(objects, WATERMARK_FILE);
      var c := JsonObject(Some(lastOid));
      if fid.Some? {
        objects := objects[fid.value := DriveObject(WATERMARK_FILE, c)];
      } else {
        objects := objects + [DriveObject(WATERMARK_FILE, c)];
      }
    }

    /** `get_watermark`, with the migration scan as a loop over the `journal_id` cells. */
    method GetWatermark(excelName: string) returns (w: Option<string>)
      modifies this
      ensures WatermarkRead(w, objects) == WatermarkSpec(old(objects), excelName)
    {
      var fid := FindFirst(objects, WATERMARK_FILE);
      if fid.Some? && objects[fid.value].content.JsonObject? {
        return objects[fid.value].content.lastOid;
      }
      var existing := DownloadExcel(excelName);
      if !Empty(existing) && "journal_id" in existing.columns {
        var oids := ScanIds(Column(existing, "journal_id"));
        if oids != [] {
          var last := Hex(MaxId(oids));
          SaveWatermark(last);
          return Some(last);
        }
      }
      return None;
    }
  }
}
