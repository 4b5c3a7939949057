/** The record-set loader: every upload is read on its own, tagged with its
    file name, and routed either to the loaded frames or to the failed
    names; the loaded frames are concatenated into one table, and nothing
    downstream runs when no upload could be read. */
module Loader {
  import opened Basics
  import opened Records

  /** One uploaded file: its name and its bytes. */
  datatype Upload = Upload(name: string, payload: seq<bv8>)

  /** A row as a reader returns it; a missing or NaN cell is `None`. */
  datatype RawRow = RawRow(
    country: string,
    service: string,
    volume: int,
    trx: int,
    customer: Option<string>,
    month: Option<string>,
    cohort: Option<string>)

  /** A parsed file: the optional columns it has, and its rows. */
  datatype Sheet = Sheet(schema: Schema, rows: seq<RawRow>)

  /** The delimited-text and spreadsheet readers. They are library code the
      model does not look into; `None` is the exception a malformed file
      raises. */
  datatype Readers = Readers(csv: seq<bv8> -> Option<Sheet>, excel: seq<bv8> -> Option<Sheet>)

  /** A loaded file: its name, its columns, and its rows tagged with its name. */
  datatype Frame = Frame(name: string, schema: Schema, rows: seq<Record>)

  /** What loading a batch comes to: either nothing could be read and the
      page stops, or a merged table together with the frames it came from. */
  datatype Outcome =
    | Halted(failed: seq<string>)
    | Ready(table: Table, frames: seq<Frame>, failed: seq<string>)

  predicate EndsWith(s: string, suffix: string)
  {
    |suffix| <= |s| && s[|s| - |suffix|..] == suffix
  }

  /** The text `astype(str)` gives a month cell; a missing cell reads "nan". */
  function Text(cell: Option<string>): string
  {
    if cell.Some? then cell.value else "nan"
  }

  /** A raw row of file `name` as a row of the merged table: tagged with the
      file name, with the cells of columns the file lacks left missing. */
  function TagRow(name: string, schema: Schema, raw: RawRow): (r: Record)
    ensures r.source == name
    ensures r.country == raw.country && r.service == raw.service
    ensures r.volume == raw.volume && r.trx == raw.trx
    ensures r.customer == (if schema.hasCustomer then raw.customer else None)
    ensures r.month == (if schema.hasMonth then Text(raw.month) else "nan")
    ensures r.cohort == (if schema.hasCohort then Text(raw.cohort) else "nan")
  {
    Record(
      raw.country, raw.service, raw.volume, raw.trx,
      if schema.hasCustomer then raw.customer else None,
      if schema.hasMonth then Text(raw.month) else "nan",
      if schema.hasCohort then Text(raw.cohort) else "nan",
      name)
  }

  /** The reader the file name selects: a name ending in ".csv" is read as
      delimited text, anything else as a spreadsheet. */
  function Read(u: Upload, readers: Readers): Option<Sheet>
  {
    if EndsWith(u.name, ".csv") then readers.csv(u.payload) else readers.excel(u.payload)
  }

  /** `load_single_file`: the parsed file with every row tagged with the
      file's name, or `None` when reading failed. */
  function LoadFile(u: Upload, readers: Readers): (f: Option<Frame>)
    ensures f.Some? <==> Read(u, readers).Some?
    ensures f.Some? ==>
      && f.value.name == u.name
      && f.value.schema == Read(u, readers).value.schema
      && |f.value.rows| == |Read(u, readers).value.rows|
      && (forall i :: 0 <= i < |f.value.rows| ==>
            f.value.rows[i] == TagRow(u.name, Read(u, readers).value.schema, Read(u, readers).value.rows[i]))
      && forall r :: r in f.value.rows ==> r.source == u.name
  {
    match Read(u, readers)
    case None => None
    case Some(sheet) =>
      var rows := seq(|sheet.rows|, i requires 0 <= i < |sheet.rows| => TagRow(u.name, sheet.schema, sheet.rows[i]));
      Some(Frame(u.name, sheet.schema, rows))
  }

  predicate Loads(u: Upload, readers: Readers)
  {
    LoadFile(u, readers).Some?
  }

  /** The uploads that load, in upload order. */
  function Loadable(uploads: seq<Upload>, readers: Readers): seq<Upload>
  {
    Keep(uploads, Loading(readers))
  }

  function Loading(readers: Readers): Upload -> bool
  {
    u => Loads(u, readers)
  }

  function Failing(readers: Readers): Upload -> bool
  {
    u => !Loads(u, readers)
  }

  /** The uploads that fail, in upload order. */
  function Unreadable(uploads: seq<Upload>, readers: Readers): seq<Upload>
  {
    Keep(uploads, Failing(readers))
  }

  function Names(us: seq<Upload>): seq<string>
  {
    seq(|us|, i requires 0 <= i < |us| => us[i].name)
  }

  /** Every upload is either loadable or unreadable, never both. */
  lemma Partition(uploads: seq<Upload>, readers: Readers)
    ensures |Loadable(uploads, readers)| + |Unreadable(uploads, readers)| == |uploads|
    ensures forall u :: u in uploads ==> (u in Loadable(uploads, readers) <==> u !in Unreadable(uploads, readers))
  {
    KeepSplit(uploads, Loading(readers), Failing(readers));
  }

  /** The frames of the uploads that load, in upload order. */
  function LoadedFrames(us: seq<Upload>, readers: Readers): seq<Frame>
  {
    if |us| == 0 then []
    else
      var last := LoadFile(us[|us| - 1], readers);
      LoadedFrames(us[..|us| - 1], readers) + (if last.Some? then [last.value] else [])
  }

  /** There is one loaded frame per loadable upload. */
  lemma {:induction false} LoadedFramesCount(us: seq<Upload>, readers: Readers)
    ensures |LoadedFrames(us, readers)| == |Loadable(us, readers)|
  {
    if |us| > 0 {
      LoadedFramesCount(us[..|us| - 1], readers);
    }
  }

  /** The loaded frames line up with the loadable uploads. */
  lemma {:induction false} LoadedFramesMatch(us: seq<Upload>, readers: Readers)
    ensures |LoadedFrames(us, readers)| == |Loadable(us, readers)|
    ensures forall j :: 0 <= j < |LoadedFrames(us, readers)| ==>
      LoadFile(Loadable(us, readers)[j], readers) == Some(LoadedFrames(us, readers)[j])
  {
    LoadedFramesCount(us, readers);
    if |us| > 0 {
      var init := us[..|us| - 1];
      LoadedFramesMatch(init, readers);
    }
  }

  /** Each frame's rows carry its name. */
  lemma {:induction false} LoadedFramesTagged(us: seq<Upload>, readers: Readers)
    ensures forall f, r :: f in LoadedFrames(us, readers) && r in f.rows ==> r.source == f.name
  {
    if |us| > 0 {
      LoadedFramesTagged(us[..|us| - 1], readers);
    }
  }

  lemma NamesAppend(a: seq<Upload>, b: seq<Upload>)
    ensures Names(a + b) == Names(a) + Names(b)
  {
  }

  /** The loop over the uploads: each file goes to `frames` when it loads
      and its name to `failed` when it does not, in upload order. */
  method LoadUploads(uploads: seq<Upload>, readers: Readers) returns (frames: seq<Frame>, failed: seq<string>)
    ensures |frames| + |failed| == |uploads|
    ensures |frames| == |Loadable(uploads, readers)|
    ensures forall i :: 0 <= i < |frames| ==> LoadFile(Loadable(uploads, readers)[i], readers) == Some(frames[i])
    ensures failed == Names(Unreadable(uploads, readers))
    ensures forall f, r :: f in frames && r in f.rows ==> r.source == f.name
  {
    frames, failed := [], [];
    for i := 0 to |uploads|
      invariant frames == LoadedFrames(uploads[..i], readers)
      invariant failed == Names(Unreadable(uploads[..i], readers))
    {
      var u := uploads[i];
      var prefix := uploads[..i + 1];
      assert prefix[..i] == uploads[..i] && prefix[i] == u;
      var single := LoadFile(u, readers);
      if single.Some? {
        frames := frames + [single.value];
      } else {
        NamesAppend(Unreadable(uploads[..i], readers), [u]);
        failed := failed + [u.name];
      }
    }
    assert uploads[..|uploads|] == uploads;
    LoadedFramesMatch(uploads, readers);
    LoadedFramesTagged(uploads, readers);
    Partition(uploads, readers);
  }

  /** All rows of the frames, one frame after another. */
  function Concat(frames: seq<Frame>): (rows: seq<Record>)
    ensures forall r :: r in rows <==> exists f :: f in frames && r in f.rows
  {
    if |frames| == 0 then []
    else
      var rest := Concat(frames[1..]);
      assert forall f :: f in frames <==> f == frames[0] || f in frames[1..];
      frames[0].rows + rest
  }

  function RowCount(frames: seq<Frame>): nat
  {
    if |frames| == 0 then 0 else |frames[0].rows| + RowCount(frames[1..])
  }

  /** Where frame `i`'s rows start in the concatenation: the row count of
      the frames before it. */
  function Offset(frames: seq<Frame>, i: nat): nat
    requires i <= |frames|
  {
    RowCount(frames[..i])
  }

  /** Frame `i`'s rows sit, unchanged and in order, right after the rows
      of the frames before it. */
  lemma {:induction false} ConcatAt(frames: seq<Frame>, i: nat)
    requires i < |frames|
    ensures Offset(frames, i) + |frames[i].rows| == Offset(frames, i + 1) <= |Concat(frames)|
    ensures Concat(frames)[Offset(frames, i)..Offset(frames, i + 1)] == frames[i].rows
  {
    var head, tail := frames[0], frames[1..];
    assert frames[..1][1..] == [];
    if i > 0 {
      ConcatAt(tail, i - 1);
      assert frames[..i][1..] == tail[..i - 1];
      assert frames[..i + 1][1..] == tail[..i];
    }
  }

  lemma ConcatSlices(frames: seq<Frame>)
    ensures forall i :: 0 <= i < |frames| ==>
      Offset(frames, i) + |frames[i].rows| == Offset(frames, i + 1) &&
      Offset(frames, i) + |frames[i].rows| <= |Concat(frames)| &&
      Concat(frames)[Offset(frames, i)..Offset(frames, i) + |frames[i].rows|] == frames[i].rows
  {
    forall i | 0 <= i < |frames|
      ensures Offset(frames, i) + |frames[i].rows| == Offset(frames, i + 1)
      ensures Offset(frames, i) + |frames[i].rows| <= |Concat(frames)|
      ensures Concat(frames)[Offset(frames, i)..Offset(frames, i) + |frames[i].rows|] == frames[i].rows
    {
      ConcatAt(frames, i);
    }
  }

  /** `pd.concat(dataframes, ignore_index=True)`: the row-wise union, frame
      after frame; a column exists when any file has it. */
  function Merge(frames: seq<Frame>): (t: Table)
    ensures |t.rows| == RowCount(frames)
    ensures forall r :: r in t.rows <==> exists f :: f in frames && r in f.rows
    ensures forall i :: 0 <= i < |frames| ==>
      Offset(frames, i) + |frames[i].rows| == Offset(frames, i + 1) &&
      Offset(frames, i) + |frames[i].rows| <= |t.rows| &&
      t.rows[Offset(frames, i)..Offset(frames, i) + |frames[i].rows|] == frames[i].rows
    ensures t.schema.hasCustomer <==> exists f :: f in frames && f.schema.hasCustomer
    ensures t.schema.hasMonth <==> exists f :: f in frames && f.schema.hasMonth
    ensures t.schema.hasCohort <==> exists f :: f in frames && f.schema.hasCohort
  {
    var schema := Schema(
      exists f :: f in frames && f.schema.hasCustomer,
      exists f :: f in frames && f.schema.hasMonth,
      exists f :: f in frames && f.schema.hasCohort);
    ConcatLength(frames);
    ConcatSlices(frames);
    Table(schema, Concat(frames))
  }

  lemma {:induction false} ConcatLength(frames: seq<Frame>)
    ensures |Concat(frames)| == RowCount(frames)
  {
    if |frames| > 0 {
      ConcatLength(frames[1..]);
    }
  }

  /** The whole load step: read every upload, stop when none could be read,
      otherwise merge what was read. */
  method Ingest(uploads: seq<Upload>, readers: Readers) returns (o: Outcome)
    ensures o.Halted? <==> forall u :: u in uploads ==> !Loads(u, readers)
    ensures o.failed == Names(Unreadable(uploads, readers))
    ensures o.Ready? ==> |o.frames| + |o.failed| == |uploads| && o.table == Merge(o.frames)
    ensures o.Ready? ==> |o.frames| == |Loadable(uploads, readers)|
    ensures o.Ready? ==> forall i :: 0 <= i < |o.frames| ==>
      LoadFile(Loadable(uploads, readers)[i], readers) == Some(o.frames[i])
    ensures o.Ready? ==> forall r :: r in o.table.rows ==> r.source in Names(Loadable(uploads, readers))
  {
    var frames, failed := LoadUploads(uploads, readers);
    var ok := Loadable(uploads, readers);
    if |frames| == 0 {
      assert forall u :: u in uploads && Loads(u, readers) ==> u in ok;
      o := Halted(failed);
    } else {
      assert ok[0] in ok;
      o := Ready(Merge(frames), frames, failed);
      MergedSources(frames, ok, readers);
    }
  }

  /** Every merged row comes from one of the files that loaded. */
  lemma MergedSources(frames: seq<Frame>, ok: seq<Upload>, readers: Readers)
    requires |frames| == |ok|
    requires forall i :: 0 <= i < |frames| ==> LoadFile(ok[i], readers) == Some(frames[i])
    requires forall f, r :: f in frames && r in f.rows ==> r.source == f.name
    ensures forall r :: r in Concat(frames) ==> r.source in Names(ok)
  {
    forall r | r in Concat(frames)
      ensures r.source in Names(ok)
    {
      var f :| f in frames && r in f.rows;
      var i :| 0 <= i < |frames| && frames[i] == f;
      assert Names(ok)[i] == ok[i].name == f.name;
    }
  }
}
