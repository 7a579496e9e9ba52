/** What `get_df` promises about its result, stated over the whole
    directory tree: when it fails and with which error, how many rows it
    returns, where each row comes from and in which order, and which entries
    and files cannot affect it. */
module GetDfProperties {
  import opened Results
  import opened Labels
  import opened Frames
  import opened Loader

  /** Rows each file read contributes (a file that cannot be read
      contributes none, and aborts the load anyway). */
  function SourceRowCounts(srcs: seq<Source>): (counts: seq<nat>)
    ensures |counts| == |srcs|
  {
    seq(|srcs|, k requires 0 <= k < |srcs| =>
      if srcs[k].file.contents.Parsed? then |srcs[k].file.contents.frame.rows| else 0)
  }

  /** `rec` is row `i` of file `src`, labelled from `src`'s folder and file
      name alone. */
  ghost predicate Traced(rec: Record, src: Source, i: nat) {
    && src.file.contents.Parsed?
    && i < |src.file.contents.frame.rows|
    && SubjectId(src.file.name).Some?
    && Labeled(rec, src.file.contents.frame.columns, src.file.contents.frame.rows[i],
               ActivityLabel(src.folder), SubjectId(src.file.name).value)
  }

  /** The load succeeds exactly when at least one file is read and every
      file read can be parsed and has a subject id in its name; it fails for
      want of data exactly when no file is read; otherwise it fails with the
      error of the first file, in traversal order, that cannot be loaded. */
  lemma GetDfOutcome(root: seq<Entry>)
    ensures GetDf(root).Success? <==>
      |Sources(root)| > 0 && forall k :: 0 <= k < |Sources(root)| ==> Loadable(Sources(root)[k])
    ensures GetDf(root) == Failure(NothingToConcatenate) <==> |Sources(root)| == 0
    ensures GetDf(root).Failure? && |Sources(root)| > 0 ==>
      exists k :: 0 <= k < |Sources(root)| && LoadFile(Sources(root)[k]) == Failure(GetDf(root).error) &&
        (forall j :: 0 <= j < k ==> Loadable(Sources(root)[j]))
  {
    var srcs := Sources(root);
    var all := LoadAll(srcs);
    if all.Failure? {
      var k :| 0 <= k < |LoadEach(srcs)| && LoadEach(srcs)[k] == Failure(all.error) &&
        (forall j :: 0 <= j < k ==> LoadEach(srcs)[j].Success?);
      assert LoadFile(srcs[k]) == Failure(all.error);
    }
  }

  /** The output has as many rows as all files read hold together. */
  lemma RowCount(root: seq<Entry>, t: Table)
    requires GetDf(root) == Success(t)
    ensures |t.records| == Sum(SourceRowCounts(Sources(root)))
  {
    RowsTraceToSources(root, t);
  }

  /** Frames loaded from files are those files' labelled frames, one per
      file, each with the file's row count. */
  lemma LoadedFrames(srcs: seq<Source>, frames: seq<DataFrame>)
    requires LoadAll(srcs) == Success(frames)
    ensures |frames| == |srcs|
    ensures forall k :: 0 <= k < |srcs| ==> LoadFile(srcs[k]) == Success(frames[k])
    ensures RowCounts(frames) == SourceRowCounts(srcs)
  {
    forall k | 0 <= k < |srcs|
      ensures LoadFile(srcs[k]) == Success(frames[k])
      ensures |frames[k].rows| == SourceRowCounts(srcs)[k]
    {
      assert LoadEach(srcs)[k] == Success(frames[k]);
      var src := srcs[k];
      LabelFrameLabels(src.file.contents.frame, ActivityLabel(src.folder), SubjectId(src.file.name).value);
    }
  }

  /** Row `i` of the frame loaded from `src` is row `i` of the file, labelled. */
  lemma LoadedRowTraced(src: Source, frame: DataFrame, i: nat)
    requires LoadFile(src) == Success(frame) && i < |frame.rows|
    ensures Traced(Record(frame.columns, frame.rows[i]), src, i)
  {
    LabelRow(src.file.contents.frame, ActivityLabel(src.folder), SubjectId(src.file.name).value, i);
  }

  /** Row `k` of the output is row `Positions[k].1` of file `Positions[k].0`
      (so rows keep traversal order, file by file), and it carries that
      file's folder label and subject id; no row content is consulted. */
  lemma RowsTraceToSources(root: seq<Entry>, t: Table)
    requires GetDf(root) == Success(t)
    ensures var srcs := Sources(root);
      var ps := Positions(SourceRowCounts(srcs));
      |t.records| == |ps| &&
      forall k :: 0 <= k < |ps| ==> Traced(t.records[k], srcs[ps[k].0], ps[k].1)
  {
    var srcs := Sources(root);
    var frames := LoadAll(srcs).value;
    assert t.records == Concat(frames);
    LoadedFrames(srcs, frames);
    ConcatRows(frames);
    var ps := Positions(SourceRowCounts(srcs));
    forall k | 0 <= k < |ps|
      ensures Traced(t.records[k], srcs[ps[k].0], ps[k].1)
    {
      LoadedRowTraced(srcs[ps[k].0], frames[ps[k].0], ps[k].1);
    }
  }

  /** `src` is a file of the visible folder `e`, tagged with its name. */
  predicate RootFolderHolds(e: Entry, src: Source) {
    e.Folder? && !IsHidden(e.name) && src.folder == e.name && src.file in e.files
  }

  /** Two root entries that contribute the same files are interchangeable. */
  lemma SameEntrySources(a: seq<Entry>, e1: Entry, e2: Entry, b: seq<Entry>)
    requires EntrySources(e1) == EntrySources(e2)
    ensures Sources(a + [e1] + b) == Sources(a + [e2] + b)
  {
    SourcesAppend(a + [e1], b);
    SourcesAppend(a, [e1]);
    SourcesAppend(a + [e2], b);
    SourcesAppend(a, [e2]);
    assert [e1][1..] == [] && [e2][1..] == [];
  }

  /** Every `.csv` file of every visible folder of the root is read,
      wherever the folder and the file stand in their listings. */
  lemma CsvFileIsRead(a: seq<Entry>, folder: string, before: seq<FileEntry>, x: FileEntry,
                      after: seq<FileEntry>, b: seq<Entry>)
    requires IsCsv(x.name) && !IsHidden(folder)
    ensures Source(folder, x) in Sources(a + [Folder(folder, before + [x] + after)] + b)
  {
    var files := before + [x] + after;
    var e := Folder(folder, files);
    CsvSourcesExact(folder, files);
    assert x in files;
    var mine := CsvSources(folder, files);
    assert Source(folder, x) in mine;
    assert [e][1..] == [];
    assert Sources([e]) == mine;
    SourcesAppend(a, [e]);
    SourcesAppend(a + [e], b);
    assert Sources(a + [e] + b) == Sources(a) + mine + Sources(b);
  }

  /** Every file the walk reads is an entry of a visible folder of the root,
      tagged with that folder's name. */
  lemma {:induction false} SourcesFromRoot(root: seq<Entry>)
    ensures forall k :: 0 <= k < |Sources(root)| ==>
      exists j :: 0 <= j < |root| && RootFolderHolds(root[j], Sources(root)[k])
  {
    if |root| > 0 {
      SourcesFromRoot(root[1..]);
      var head := EntrySources(root[0]);
      var rest := Sources(root[1..]);
      assert Sources(root) == head + rest;
      if root[0].Folder? && !IsHidden(root[0].name) {
        CsvSourcesExact(root[0].name, root[0].files);
      }
      forall k | 0 <= k < |Sources(root)|
        ensures exists j :: 0 <= j < |root| && RootFolderHolds(root[j], Sources(root)[k])
      {
        if k < |head| {
          assert RootFolderHolds(root[0], Sources(root)[k]);
        } else {
          var j :| 0 <= j < |root[1..]| && RootFolderHolds(root[1..][j], rest[k - |head|]);
          assert RootFolderHolds(root[j + 1], Sources(root)[k]);
        }
      }
    } else {
      assert Sources(root) == [];
    }
  }

  /** A hidden root entry, or one that is not a directory, adds no file to
      the walk, wherever it stands in the listing. */
  lemma SkippedEntryReadsNothing(a: seq<Entry>, e: Entry, b: seq<Entry>)
    requires IsHidden(e.name) || e.NotFolder?
    ensures Sources(a + [e] + b) == Sources(a + b)
  {
    assert [e][1..] == [];
    assert Sources([e]) == [];
    SourcesAppend(a, [e]);
    assert Sources(a + [e]) == Sources(a);
    SourcesAppend(a + [e], b);
    SourcesAppend(a, b);
  }

  /** A hidden root entry, or one that is not a directory, contributes no
      rows: removing it from the listing changes nothing, error included. */
  lemma SkippedEntryIsIgnored(a: seq<Entry>, e: Entry, b: seq<Entry>)
    requires IsHidden(e.name) || e.NotFolder?
    ensures GetDf(a + [e] + b) == GetDf(a + b)
  {
    SkippedEntryReadsNothing(a, e, b);
  }

  /** A file whose name does not end in `.csv` is never read: adding it to
      or removing it from any folder changes nothing, error included. */
  lemma NonCsvFileIsIgnored(a: seq<Entry>, folder: string, before: seq<FileEntry>, x: FileEntry,
                            after: seq<FileEntry>, b: seq<Entry>)
    requires !IsCsv(x.name)
    ensures GetDf(a + [Folder(folder, before + [x] + after)] + b) == GetDf(a + [Folder(folder, before + after)] + b)
  {
    CsvSourcesAppend(folder, before + [x], after);
    CsvSourcesAppend(folder, before, [x]);
    CsvSourcesAppend(folder, before, after);
    assert [x][1..] == [];
    SameEntrySources(a, Folder(folder, before + [x] + after), Folder(folder, before + after), b);
  }

  /** A root holding only hidden entries reads no file. */
  lemma {:induction false} HiddenOnlyReadsNothing(root: seq<Entry>)
    requires forall k :: 0 <= k < |root| ==> IsHidden(root[k].name)
    ensures Sources(root) == []
  {
    if |root| > 0 {
      HiddenOnlyReadsNothing(root[1..]);
    }
  }

  /** ... so loading it fails rather than returning an empty table. */
  lemma HiddenOnlyFails(root: seq<Entry>)
    requires forall k :: 0 <= k < |root| ==> IsHidden(root[k].name)
    ensures GetDf(root) == Failure(NothingToConcatenate)
  {
    HiddenOnlyReadsNothing(root);
  }
}
