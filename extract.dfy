/**
 * `fetch`: select the finished journals past the cursor, project and sort them by
 * `journal_id`, turn the documents into a table, and hand back the new cursor.
 */
module Extract {
  import opened Wrappers
  import opened ObjectIds
  import opened Projection
  import opened Frames

  /** The cursor a watermark gives: none for a missing or empty one, and none when it is not an ObjectId. */
  function CursorOf(lastOid: Option<string>): Option<ObjectId> {
    if lastOid.Some? && lastOid.value != "" then ParseOid(lastOid.value) else None
  }

  /** The `$match` stage: the end time is set, and the id is past the cursor when there is one. */
  predicate Matches(j: Journal, cursor: Option<ObjectId>) {
    !Nullish(j.endTime) && (cursor.None? || j.id > cursor.value)
  }

  /** The journals that `$match` lets through, in collection order. */
  function Selected(js: seq<Journal>, cursor: Option<ObjectId>): (r: seq<Journal>)
    ensures forall j | j in r :: j in js && Matches(j, cursor)
    ensures forall j | j in js && Matches(j, cursor) :: j in r
    ensures |r| <= |js|
  {
    if js == [] then []
    else
      var rest := Selected(js[..|js| - 1], cursor);
      var j := js[|js| - 1];
      assert forall k | k in js :: k in js[..|js| - 1] || k == j;
      if Matches(j, cursor) then rest + [j] else rest
  }

  /** `$match` neither drops nor repeats a journal: each matching one is kept as often as the collection holds it. */
  lemma {:induction false} SelectedCounts(js: seq<Journal>, cursor: Option<ObjectId>)
    ensures forall j :: multiset(Selected(js, cursor))[j] == if Matches(j, cursor) then multiset(js)[j] else 0
  {
    if js != [] {
      var init := js[..|js| - 1];
      SelectedCounts(init, cursor);
      assert js == init + [js[|js| - 1]];
    }
  }

  /** Insert a journal before the first one whose `journal_id` sorts after its own. */
  function Insert(j: Journal, s: seq<Journal>): (r: seq<Journal>)
    ensures multiset(r) == multiset(s) + multiset{j}
  {
    if s == [] then [j]
    else if LexLess(Hex(j.id), Hex(s[0].id)) then [j] + s
    else
      assert s == [s[0]] + s[1..];
      [s[0]] + Insert(j, s[1..])
  }

  /** An inserted sequence holds the old elements and the new one. */
  lemma InsertFrom(j: Journal, s: seq<Journal>)
    ensures forall x | x in Insert(j, s) :: x == j || x in s
  {
    var r := Insert(j, s);
    forall x | x in r ensures x == j || x in s {
      assert x in multiset(r);
    }
  }

  /** `{"$sort": {"journal_id": 1}}`: a stable sort on the `journal_id` strings. */
  function SortByJournalId(s: seq<Journal>): (r: seq<Journal>)
    ensures multiset(r) == multiset(s)
  {
    if s == [] then []
    else
      assert s == s[..|s| - 1] + [s[|s| - 1]];
      Insert(s[|s| - 1], SortByJournalId(s[..|s| - 1]))
  }

  /** Ids never decrease along the sequence. */
  predicate SortedIds(s: seq<Journal>) {
    forall a, b | 0 <= a < b < |s| :: s[a].id <= s[b].id
  }

  lemma {:induction false} InsertSorted(j: Journal, s: seq<Journal>)
    requires SortedIds(s)
    ensures SortedIds(Insert(j, s))
    decreases |s|
  {
    if s != [] {
      HexOrder(j.id, s[0].id);
      if !LexLess(Hex(j.id), Hex(s[0].id)) {
        InsertSorted(j, s[1..]);
        var t := Insert(j, s[1..]);
        InsertFrom(j, s[1..]);
        forall k | 0 <= k < |t| ensures s[0].id <= t[k].id {
          assert t[k] in t;
          if t[k] != j {
            var m :| 0 <= m < |s[1..]| && s[1..][m] == t[k];
            assert s[1 + m] == t[k];
          }
        }
      }
    }
  }

  /** Sorting on the `journal_id` strings sorts on the ids themselves. */
  lemma {:induction false} SortedByJournalId(s: seq<Journal>)
    ensures SortedIds(SortByJournalId(s))
    decreases |s|
  {
    if s != [] {
      SortedByJournalId(s[..|s| - 1]);
      InsertSorted(s[|s| - 1], SortByJournalId(s[..|s| - 1]));
    }
  }

  /** The projected documents, or the first projection error, which aborts the aggregation. */
  function ProjectAll(js: seq<Journal>): (r: Result<seq<Doc>>)
    ensures r.Ok? <==> forall j | j in js :: ProjectDoc(j).Ok?
    ensures r.Ok? ==> |r.value| == |js| && forall i | 0 <= i < |js| :: r.value[i] == ProjectDoc(js[i]).value
  {
    if js == [] then Ok([])
    else
      var first := ProjectDoc(js[0]);
      if first.Err? then Err(first.msg)
      else
        var rest := ProjectAll(js[1..]);
        assert forall j | j in js :: j == js[0] || j in js[1..];
        if rest.Err? then Err(rest.msg) else Ok([first.value] + rest.value)
  }

  /** The column names of one document, in `$project` order. */
  function DocKeys(d: Doc, outs: seq<Out>): (r: seq<string>)
    ensures forall c | c in outs && c in d :: OutName(c) in r
  {
    if outs == [] then []
    else
      var rest := DocKeys(d, outs[1..]);
      var k := OutName(outs[0]);
      assert forall c | c in outs :: c == outs[0] || c in outs[1..];
      if outs[0] in d then [k] + rest else rest
  }

  /** The columns `pd.DataFrame(docs)` builds: every key of every document, in order of first appearance. */
  function DocColumns(docs: seq<Doc>): seq<string> {
    ColumnsOf(docs, PROJECT_OUTS)
  }

  /** The keys of `docs` in order of first appearance, each document's keys listed in the order of `outs`. */
  function ColumnsOf(docs: seq<Doc>, outs: seq<Out>): seq<string> {
    if docs == [] then []
    else AppendMissing(ColumnsOf(docs[..|docs| - 1], outs), DocKeys(docs[|docs| - 1], outs))
  }

  /** No column is listed twice. */
  lemma {:induction false} ColumnsDistinct(docs: seq<Doc>, outs: seq<Out>)
    ensures Distinct(ColumnsOf(docs, outs))
    decreases |docs|
  {
    if docs != [] {
      ColumnsDistinct(docs[..|docs| - 1], outs);
    }
  }

  /** Every listed field of every document is a column. */
  lemma {:induction false} FieldIsColumn(docs: seq<Doc>, outs: seq<Out>, i: nat, c: Out)
    requires i < |docs| && c in docs[i] && c in outs
    ensures OutName(c) in ColumnsOf(docs, outs)
    decreases |docs|
  {
    var n := |docs| - 1;
    if i < n {
      assert docs[..n][i] == docs[i];
      FieldIsColumn(docs[..n], outs, i, c);
    }
    ColumnsGrow(docs, outs, OutName(c));
  }

  /** The columns of a list of documents hold those of its prefix and the keys of its last document. */
  lemma ColumnsGrow(docs: seq<Doc>, outs: seq<Out>, k: string)
    requires docs != []
    requires k in ColumnsOf(docs[..|docs| - 1], outs) || k in DocKeys(docs[|docs| - 1], outs)
    ensures k in ColumnsOf(docs, outs)
  {
  }

  /** The text of a cell: a null is missing, a string is itself, any other value is rendered by `show`. */
  function Render(v: Value, show: Value -> string): (r: string)
    ensures v.Str? ==> r == v.s
    ensures v == Null ==> r == ""
  {
    match v
    case Null => ""
    case Str(s) => s
    case _ => show(v)
  }

  /** Cell `k` of a document's row: missing when the document has no such field. */
  function DocCell(d: Doc, k: string, show: Value -> string): string {
    match NameToOut(k)
    case Some(c) => if c in d then Render(d[c], show) else ""
    case None => ""
  }

  /** `pd.DataFrame(docs)`: one row per document, in order. */
  function FromDocs(docs: seq<Doc>, show: Value -> string): (r: Frame)
    ensures WellFormed(r) && |r.rows| == |docs|
    ensures r.columns == DocColumns(docs)
    ensures forall i, k | 0 <= i < |docs| && k in r.columns :: r.rows[i][k] == DocCell(docs[i], k, show)
  {
    var cols := DocColumns(docs);
    ColumnsDistinct(docs, PROJECT_OUTS);
    Frame(cols, seq(|docs|, i requires 0 <= i < |docs| => map k | k in cols :: DocCell(docs[i], k, show)))
  }

  /** The `journal_id` text of a document. */
  function JournalIdOf(d: Doc): string {
    if JournalId in d && d[JournalId].Str? then d[JournalId].s else ""
  }

  /** What `fetch` returns: the table and the cursor for the next run. */
  datatype Fetched = Fetched(raw: Frame, cursor: Option<string>)

  /**
   * `fetch(db, last_oid)` over the journals collection `js`: no documents leaves the cursor
   * as it was; otherwise the cursor becomes the `journal_id` of the last document.
   */
  function Fetch(js: seq<Journal>, lastOid: Option<string>, show: Value -> string): Result<Fetched> {
    var sorted := SortByJournalId(Selected(js, CursorOf(lastOid)));
    var docs := ProjectAll(sorted);
    if docs.Err? then Err(docs.msg)
    else if |docs.value| == 0 then Ok(Fetched(Frame([], []), lastOid))
    else Ok(Fetched(FromDocs(docs.value, show), Some(JournalIdOf(docs.value[|docs.value| - 1]))))
  }

  /** The journals `fetch` returns, in the order it returns them. */
  function Batch(js: seq<Journal>, lastOid: Option<string>): seq<Journal> {
    SortByJournalId(Selected(js, CursorOf(lastOid)))
  }

  /** With nothing selected, `fetch` returns an empty table and the incoming cursor unchanged. */
  lemma FetchNothing(js: seq<Journal>, lastOid: Option<string>, show: Value -> string)
    requires Selected(js, CursorOf(lastOid)) == []
    ensures Fetch(js, lastOid, show) == Ok(Fetched(Frame([], []), lastOid))
  {
  }

  /** A missing, empty or unparseable watermark filters on the end time only. */
  lemma NoCursorNoFilter(js: seq<Journal>, lastOid: Option<string>)
    requires lastOid.None? || lastOid.value == "" || ParseOid(lastOid.value).None?
    ensures forall j | j in js :: j in Selected(js, CursorOf(lastOid)) <==> !Nullish(j.endTime)
  {
  }

  /**
   * The fetched table has one row per selected journal, in `journal_id` order, and a
   * non-empty one is not `empty` and carries each journal's id in its `journal_id` column.
   */
  lemma FetchTable(js: seq<Journal>, lastOid: Option<string>, show: Value -> string)
    requires Fetch(js, lastOid, show).Ok?
    ensures var t := Fetch(js, lastOid, show).value.raw;
      WellFormed(t) && |t.rows| == |Batch(js, lastOid)| && (Empty(t) <==> |t.rows| == 0)
    ensures var t := Fetch(js, lastOid, show).value.raw;
      |t.rows| > 0 ==> ("journal_id" in t.columns &&
        forall i | 0 <= i < |t.rows| :: t.rows[i]["journal_id"] == Hex(Batch(js, lastOid)[i].id))
  {
    var b := Batch(js, lastOid);
    var docs := ProjectAll(b);
    BatchOrder(js, lastOid);
    if |docs.value| > 0 {
      forall i | 0 <= i < |b| ensures JournalId in docs.value[i] && docs.value[i][JournalId] == Str(Hex(b[i].id)) {
        ProjectDocValues(b[i]);
        Listed(JournalId);
      }
      FieldIsColumn(docs.value, PROJECT_OUTS, 0, JournalId);
      var t := FromDocs(docs.value, show);
      forall i | 0 <= i < |t.rows| ensures t.rows[i]["journal_id"] == Hex(b[i].id) {
        NameRoundTrip(JournalId);
      }
    }
  }

  /** The batch is the selection, reordered so that ids never decrease. */
  lemma BatchOrder(js: seq<Journal>, lastOid: Option<string>)
    ensures var b := Batch(js, lastOid); var sel := Selected(js, CursorOf(lastOid));
      |b| == |sel| && SortedIds(b) && (forall j :: j in b <==> j in sel)
  {
    var b := Batch(js, lastOid);
    var sel := Selected(js, CursorOf(lastOid));
    assert |multiset(b)| == |multiset(sel)|;
    SortedByJournalId(sel);
    assert forall j :: j in b <==> j in multiset(b);
  }

  /**
   * The last journal of a non-empty batch holds the largest selected id, and that id is
   * past the incoming cursor whenever the cursor parses.
   */
  lemma BatchLastIsMax(js: seq<Journal>, lastOid: Option<string>)
    requires Batch(js, lastOid) != []
    ensures var b := Batch(js, lastOid); var sel := Selected(js, CursorOf(lastOid));
      b[|b| - 1] in sel && (forall k | k in sel :: k.id <= b[|b| - 1].id) &&
      (CursorOf(lastOid).Some? ==> b[|b| - 1].id > CursorOf(lastOid).value)
  {
    var b := Batch(js, lastOid);
    BatchOrder(js, lastOid);
    SortedLastIsMax(b);
  }

  /** The last journal of a sorted, non-empty list holds the largest id. */
  lemma SortedLastIsMax(b: seq<Journal>)
    requires SortedIds(b) && b != []
    ensures forall k | k in b :: k.id <= b[|b| - 1].id
  {
    forall k | k in b ensures k.id <= b[|b| - 1].id {
      var m :| 0 <= m < |b| && b[m] == k;
    }
  }

  /** With something selected, the new cursor is the `journal_id` of the batch's last journal. */
  lemma FetchCursor(js: seq<Journal>, lastOid: Option<string>, show: Value -> string)
    requires Fetch(js, lastOid, show).Ok? && Batch(js, lastOid) != []
    ensures var b := Batch(js, lastOid);
      Fetch(js, lastOid, show).value.cursor == Some(Hex(b[|b| - 1].id))
  {
    var b := Batch(js, lastOid);
    var docs := ProjectAll(b);
    assert docs.Ok? && |docs.value| == |b|;
    var last := b[|b| - 1];
    assert docs.value[|b| - 1] == ProjectDoc(last).value;
    ProjectDocValues(last);
    Listed(JournalId);
    assert JournalIdOf(docs.value[|b| - 1]) == Hex(last.id);
  }
}
