/** `get_df`: walk the dataset root, label every row of every CSV file with
    its folder's activity and its file's subject id, and concatenate.

    The directory tree is an input value (what `os.listdir` and
    `os.path.isdir` would report, in listing order) and each file carries what
    `read_csv` made of it. `GetDf` is the loader as a pure function: first the
    traversal picks the files to read (`Sources`), then they are loaded in
    that order, the first failure aborting the whole load (`LoadAll`).
    `LoadDataset` is the loop-by-loop version of the same walk. */
module Loader {
  import opened Results
  import opened PyStr
  import opened Labels
  import opened Frames

  /** What reading a file gives: a frame, or a failure of the CSV reader
      (unreadable, malformed, or not a file at all). */
  datatype Contents = Parsed(frame: DataFrame) | Unreadable

  /** A directory entry inside an activity folder. */
  datatype FileEntry = FileEntry(name: string, contents: Contents)

  /** An entry of the dataset root: a folder and its listing, or anything
      that is not a directory. */
  datatype Entry = Folder(name: string, files: seq<FileEntry>) | NotFolder(name: string)

  /** Why a load aborts. */
  datatype LoadError =
    | ReadFailed(folder: string, file: string)     // `read_csv` raised
    | NoSubjectId(folder: string, file: string)    // `split('_')[1]` raised IndexError
    | NothingToConcatenate                         // `pd.concat([])` raised

  /** Hidden entries of the root (`.DS_Store`, ...) are skipped. */
  predicate IsHidden(name: string)
    ensures IsHidden(name) <==> |name| > 0 && name[0] == '.'
  {
    StartsWith(name, ".")
  }

  /** Only files whose name ends in `.csv` are read. */
  predicate IsCsv(name: string)
    ensures IsCsv(name) <==> 4 <= |name| && name[|name| - 4..] == ".csv"
  {
    EndsWith(name, ".csv")
  }

  /** A file the walk reads, with the folder it was found in. */
  datatype Source = Source(folder: string, file: FileEntry)

  /** The `.csv` files of one folder, in listing order. */
  function CsvSources(folder: string, files: seq<FileEntry>): (srcs: seq<Source>)
    ensures |srcs| <= |files|
    ensures forall k :: 0 <= k < |srcs| ==> srcs[k].folder == folder && IsCsv(srcs[k].file.name)
  {
    if |files| == 0 then []
    else
      var rest := CsvSources(folder, files[1..]);
      if IsCsv(files[0].name) then [Source(folder, files[0])] + rest else rest
  }

  /** The files read from one root entry: none for a hidden entry or a
      non-directory, the folder's `.csv` files otherwise. */
  function EntrySources(e: Entry): (srcs: seq<Source>)
    ensures |srcs| > 0 ==> e.Folder? && !IsHidden(e.name)
    ensures forall k :: 0 <= k < |srcs| ==> srcs[k].folder == e.name && IsCsv(srcs[k].file.name)
  {
    if IsHidden(e.name) then []
    else
      match e
      case NotFolder(_) => []
      case Folder(name, files) => CsvSources(name, files)
  }

  /** Every file the walk reads, in traversal order. */
  function Sources(root: seq<Entry>): (srcs: seq<Source>)
    ensures forall k :: 0 <= k < |srcs| ==> !IsHidden(srcs[k].folder) && IsCsv(srcs[k].file.name)
  {
    if |root| == 0 then []
    else
      var head := EntrySources(root[0]);
      var rest := Sources(root[1..]);
      assert forall k :: |head| <= k < |head + rest| ==> (head + rest)[k] == rest[k - |head|];
      head + rest
  }

  /** A record is row `row` (under header `columns`) of a file, labelled:
      `activity` and `subject_id` read the given values, `Unnamed: 0` is
      gone, `time_step` holds its values (or, in a file without
      `Unnamed: 0`, reads as in the file), and every other column reads as
      in the file. */
  ghost predicate Labeled(rec: Record, columns: seq<string>, row: Row, activity: string, subject: string) {
    && rec.Get(ActivityColumn) == Some(activity)
    && rec.Get(SubjectColumn) == Some(subject)
    && rec.Get(IndexColumn) == None
    && (forall c :: c != ActivityColumn && c != SubjectColumn && c != IndexColumn && c != TimeStepColumn ==>
          rec.Get(c) == Cell(columns, row, c))
    && (IndexColumn in columns && TimeStepColumn !in columns ==>
          rec.Get(TimeStepColumn) == Cell(columns, row, IndexColumn))
    && (IndexColumn !in columns ==> rec.Get(TimeStepColumn) == Cell(columns, row, TimeStepColumn))
  }

  /** The three edits made to a frame once it is read: the `activity`
      column, the `subject_id` column, then the rename. */
  function LabelFrame(f: DataFrame, activity: string, subject: string): (g: DataFrame)
    ensures |g.rows| == |f.rows|
    ensures ActivityColumn in g.columns && SubjectColumn in g.columns && IndexColumn !in g.columns
  {
    var f1 := SetColumn(f, ActivityColumn, activity);
    var f2 := SetColumn(f1, SubjectColumn, subject);
    var j1 :| 0 <= j1 < |f1.columns| && f1.columns[j1] == ActivityColumn;
    assert f2.columns[j1] == ActivityColumn;
    var j2 :| 0 <= j2 < |f2.columns| && f2.columns[j2] == SubjectColumn;
    var g := RenameIndexColumn(f2);
    assert g.columns[j1] == ActivityColumn && g.columns[j2] == SubjectColumn;
    g
  }

  /** The two added columns neither bring in a `time_step` column nor add
      or drop an `Unnamed: 0` one. */
  lemma AddedColumnsKeepHeader(f: DataFrame, activity: string, subject: string)
    ensures TimeStepColumn !in f.columns ==>
      TimeStepColumn !in SetColumn(SetColumn(f, ActivityColumn, activity), SubjectColumn, subject).columns
    ensures IndexColumn in f.columns ==>
      IndexColumn in SetColumn(SetColumn(f, ActivityColumn, activity), SubjectColumn, subject).columns
    ensures IndexColumn !in f.columns ==>
      IndexColumn !in SetColumn(SetColumn(f, ActivityColumn, activity), SubjectColumn, subject).columns
  {
    var f1 := SetColumn(f, ActivityColumn, activity);
    var f2 := SetColumn(f1, SubjectColumn, subject);
    if TimeStepColumn in f2.columns {
      var j :| 0 <= j < |f2.columns| && f2.columns[j] == TimeStepColumn;
      assert j < |f1.columns| ==> f1.columns[j] == f2.columns[j];
      assert j < |f.columns| ==> f.columns[j] == f1.columns[j];
    }
    if IndexColumn in f.columns {
      var j :| 0 <= j < |f.columns| && f.columns[j] == IndexColumn;
      assert f1.columns[j] == IndexColumn;
      assert f2.columns[j] == IndexColumn;
    }
    if IndexColumn in f2.columns {
      var j :| 0 <= j < |f2.columns| && f2.columns[j] == IndexColumn;
      assert j < |f1.columns| ==> f1.columns[j] == f2.columns[j];
      assert j < |f.columns| ==> f.columns[j] == f1.columns[j];
    }
  }

  /** Row `i` after the two added columns: it reads the activity and the
      subject id there, and every other column as in the file. */
  lemma AddedColumnsCells(f: DataFrame, activity: string, subject: string, i: nat)
    requires i < |f.rows|
    ensures var f2 := SetColumn(SetColumn(f, ActivityColumn, activity), SubjectColumn, subject);
      && Cell(f2.columns, f2.rows[i], ActivityColumn) == Some(activity)
      && Cell(f2.columns, f2.rows[i], SubjectColumn) == Some(subject)
      && forall c :: c != ActivityColumn && c != SubjectColumn ==>
           Cell(f2.columns, f2.rows[i], c) == Cell(f.columns, f.rows[i], c)
  {
  }

  /** Labelling keeps row `i` in place and labels it. */
  lemma LabelRow(f: DataFrame, activity: string, subject: string, i: nat)
    requires i < |f.rows|
    ensures |LabelFrame(f, activity, subject).rows| == |f.rows|
    ensures Labeled(Record(LabelFrame(f, activity, subject).columns, LabelFrame(f, activity, subject).rows[i]),
                    f.columns, f.rows[i], activity, subject)
  {
    var f2 := SetColumn(SetColumn(f, ActivityColumn, activity), SubjectColumn, subject);
    var g := RenameIndexColumn(f2);
    var row := f2.rows[i];
    AddedColumnsKeepHeader(f, activity, subject);
    AddedColumnsCells(f, activity, subject, i);
    RenameCells(f2, i);
    forall c | c != ActivityColumn && c != SubjectColumn && c != IndexColumn && c != TimeStepColumn
      ensures Cell(g.columns, row, c) == Cell(f.columns, f.rows[i], c)
    {
      assert Cell(g.columns, row, c) == Cell(f2.columns, row, c);
    }
  }

  /** Labelling keeps every row, in place, and labels it. */
  lemma LabelFrameLabels(f: DataFrame, activity: string, subject: string)
    ensures |LabelFrame(f, activity, subject).rows| == |f.rows|
    ensures forall i :: 0 <= i < |f.rows| ==>
      Labeled(Record(LabelFrame(f, activity, subject).columns, LabelFrame(f, activity, subject).rows[i]),
              f.columns, f.rows[i], activity, subject)
  {
    var g := LabelFrame(f, activity, subject);
    forall i | 0 <= i < |f.rows|
      ensures Labeled(Record(g.columns, g.rows[i]), f.columns, f.rows[i], activity, subject)
    {
      LabelRow(f, activity, subject, i);
    }
  }

  /** A file the loader can read and label. */
  predicate Loadable(src: Source) {
    src.file.contents.Parsed? && '_' in src.file.name
  }

  /** Lines 40-47 for one file: read it (its contents are given), add the
      activity column, take the subject id from the file name, add it, rename. */
  function LoadFile(src: Source): (r: Result<DataFrame, LoadError>)
    ensures r.Success? <==> Loadable(src)
    ensures src.file.contents.Unreadable? ==> r == Failure(ReadFailed(src.folder, src.file.name))
    ensures src.file.contents.Parsed? && '_' !in src.file.name ==>
      r == Failure(NoSubjectId(src.folder, src.file.name))
    ensures r.Success? ==>
      r.value == LabelFrame(src.file.contents.frame, ActivityLabel(src.folder), SubjectId(src.file.name).value)
  {
    match src.file.contents
    case Unreadable => Failure(ReadFailed(src.folder, src.file.name))
    case Parsed(f) =>
      match SubjectId(src.file.name)
      case None => Failure(NoSubjectId(src.folder, src.file.name))
      case Some(id) => Success(LabelFrame(f, ActivityLabel(src.folder), id))
  }

  /** The outcome of loading each file, in order. */
  function LoadEach(srcs: seq<Source>): (rs: seq<Result<DataFrame, LoadError>>)
    ensures |rs| == |srcs|
    ensures forall k :: 0 <= k < |srcs| ==> rs[k] == LoadFile(srcs[k])
  {
    seq(|srcs|, k requires 0 <= k < |srcs| => LoadFile(srcs[k]))
  }

  /** Loads the files in order; the first file that fails aborts the rest. */
  function LoadAll(srcs: seq<Source>): (r: Result<seq<DataFrame>, LoadError>)
    ensures r.Success? <==> forall k :: 0 <= k < |srcs| ==> Loadable(srcs[k])
    ensures r.Success? ==> |r.value| == |srcs|
  {
    Collect(LoadEach(srcs))
  }

  /** `get_df`. */
  function GetDf(root: seq<Entry>): (r: Result<Table, LoadError>)
    ensures r == Failure(NothingToConcatenate) <==> |Sources(root)| == 0
  {
    var frames :- LoadAll(Sources(root));
    if |frames| == 0 then Failure(NothingToConcatenate) else Success(Table(Concat(frames)))
  }

  /** The traversal distributes over the listing. */
  lemma {:induction false} SourcesAppend(a: seq<Entry>, b: seq<Entry>)
    ensures Sources(a + b) == Sources(a) + Sources(b)
  {
    if |a| == 0 {
      assert a + b == b;
    } else {
      assert (a + b)[1..] == a[1..] + b;
      SourcesAppend(a[1..], b);
    }
  }

  /** The `.csv` filter distributes over a folder's listing. */
  lemma {:induction false} CsvSourcesAppend(folder: string, a: seq<FileEntry>, b: seq<FileEntry>)
    ensures CsvSources(folder, a + b) == CsvSources(folder, a) + CsvSources(folder, b)
  {
    if |a| == 0 {
      assert a + b == b;
    } else {
      assert (a + b)[1..] == a[1..] + b;
      CsvSourcesAppend(folder, a[1..], b);
    }
  }

  /** The files read from a folder are exactly its `.csv` entries: every
      one comes from the listing, and every `.csv` entry of the listing is
      read. */
  lemma {:induction false} CsvSourcesExact(folder: string, files: seq<FileEntry>)
    ensures forall k :: 0 <= k < |CsvSources(folder, files)| ==> CsvSources(folder, files)[k].file in files
    ensures forall f :: f in files && IsCsv(f.name) ==> Source(folder, f) in CsvSources(folder, files)
  {
    if |files| > 0 {
      CsvSourcesExact(folder, files[1..]);
      assert forall f :: f in files ==> f == files[0] || f in files[1..];
    }
  }

  /** Loading distributes over the list of files. */
  lemma LoadEachAppend(a: seq<Source>, b: seq<Source>)
    ensures LoadEach(a + b) == LoadEach(a) + LoadEach(b)
  {
  }

  /** The files of the first `n + 1` root entries are those of the first
      `n`, then those of entry `n`. */
  lemma SourcesSnoc(root: seq<Entry>, n: nat)
    requires n < |root|
    ensures Sources(root[..n + 1]) == Sources(root[..n]) + EntrySources(root[n])
  {
    SourcesAppend(root[..n], [root[n]]);
    assert root[..n + 1] == root[..n] + [root[n]];
    assert [root[n]][1..] == [];
  }

  /** The `.csv` files among the first `m + 1` of a folder's listing. */
  lemma CsvSourcesSnoc(folder: string, files: seq<FileEntry>, m: nat)
    requires m < |files|
    ensures CsvSources(folder, files[..m + 1]) ==
      CsvSources(folder, files[..m]) + (if IsCsv(files[m].name) then [Source(folder, files[m])] else [])
  {
    CsvSourcesAppend(folder, files[..m], [files[m]]);
    assert files[..m + 1] == files[..m] + [files[m]];
    assert [files[m]][1..] == [];
  }

  /** One more file that loads extends the loaded frames by one. */
  lemma LoadAllSnoc(done: seq<Source>, src: Source, frames: seq<DataFrame>, frame: DataFrame)
    requires LoadAll(done) == Success(frames) && LoadFile(src) == Success(frame)
    ensures LoadAll(done + [src]) == Success(frames + [frame])
  {
    LoadEachAppend(done, [src]);
    assert LoadEach([src]) == [LoadFile(src)];
    CollectSnoc(LoadEach(done), LoadFile(src));
  }

  /** A failing file after files that all loaded is the failure of the whole
      run, whatever follows it. */
  lemma LoadAllFailsAt(before: seq<Source>, src: Source, after: seq<Source>)
    requires LoadAll(before).Success? && LoadFile(src).Failure?
    ensures LoadAll(before + [src] + after) == Failure(LoadFile(src).error)
  {
    LoadEachAppend(before, [src]);
    LoadEachAppend(before + [src], after);
    assert LoadEach([src]) == [LoadFile(src)];
    CollectFailsAt(LoadEach(before), LoadFile(src), LoadEach(after));
  }

  /** A folder's `.csv` files, cut around its `m`-th entry, a `.csv` file. */
  lemma CsvSourcesAround(folder: string, files: seq<FileEntry>, m: nat)
    requires m < |files| && IsCsv(files[m].name)
    ensures CsvSources(folder, files) ==
      CsvSources(folder, files[..m]) + [Source(folder, files[m])] + CsvSources(folder, files[m + 1..])
  {
    assert files == files[..m + 1] + files[m + 1..];
    CsvSourcesAppend(folder, files[..m + 1], files[m + 1..]);
    CsvSourcesSnoc(folder, files, m);
  }

  /** Once a prefix of the files has failed, nothing after it matters. */
  lemma LoadAllPrefixFails(a: seq<Source>, b: seq<Source>)
    requires LoadAll(a).Failure?
    ensures LoadAll(a + b) == LoadAll(a)
  {
    LoadEachAppend(a, b);
    CollectAppend(LoadEach(a), LoadEach(b));
  }

  lemma Regroup<T>(a: seq<T>, x: seq<T>, b: seq<T>)
    ensures a + x + b == a + (x + b)
  {
  }

  /** The files read so far grow by one with each `.csv` entry of a folder. */
  lemma FolderPrefixGrows(done: seq<Source>, folder: string, files: seq<FileEntry>, m: nat)
    requires m < |files| && IsCsv(files[m].name)
    ensures done + CsvSources(folder, files[..m + 1]) == done + CsvSources(folder, files[..m]) + [Source(folder, files[m])]
  {
    CsvSourcesSnoc(folder, files, m);
  }

  /** One more `.csv` file of a folder that loads extends the frames loaded
      so far by its labelled frame. */
  lemma FolderStepLoads(done: seq<Source>, folder: string, files: seq<FileEntry>, m: nat,
                        frames: seq<DataFrame>, frame: DataFrame)
    requires m < |files| && IsCsv(files[m].name)
    requires LoadAll(done + CsvSources(folder, files[..m])) == Success(frames)
    requires LoadFile(Source(folder, files[m])) == Success(frame)
    ensures LoadAll(done + CsvSources(folder, files[..m + 1])) == Success(frames + [frame])
  {
    FolderPrefixGrows(done, folder, files, m);
    LoadAllSnoc(done + CsvSources(folder, files[..m]), Source(folder, files[m]), frames, frame);
  }

  /** A `.csv` file of a folder that does not load ends the walk with its
      error, whatever the rest of the folder holds. */
  lemma FolderStepFails(done: seq<Source>, folder: string, files: seq<FileEntry>, m: nat)
    requires m < |files| && IsCsv(files[m].name)
    requires LoadAll(done + CsvSources(folder, files[..m])).Success?
    requires LoadFile(Source(folder, files[m])).Failure?
    ensures LoadAll(done + CsvSources(folder, files)) == Failure(LoadFile(Source(folder, files[m])).error)
  {
    var src := Source(folder, files[m]);
    var rest := CsvSources(folder, files[m + 1..]);
    CsvSourcesAround(folder, files, m);
    Regroup(done, CsvSources(folder, files[..m]) + [src], rest);
    Regroup(done, CsvSources(folder, files[..m]), [src]);
    LoadAllFailsAt(done + CsvSources(folder, files[..m]), src, rest);
  }

  /** A file of a folder that is not a `.csv` file is not read. */
  lemma FolderStepSkips(done: seq<Source>, folder: string, files: seq<FileEntry>, m: nat)
    requires m < |files| && !IsCsv(files[m].name)
    ensures done + CsvSources(folder, files[..m + 1]) == done + CsvSources(folder, files[..m])
  {
    CsvSourcesSnoc(folder, files, m);
  }

  /** One visible folder of the walk (lines 28-49): its activity label,
      then the inner loop over its files, appending to the frames already
      loaded from the files `done`. The label is computed here rather than
      before the `isdir` test; it depends on the folder name alone. */
  method LoadFolder(ghost done: seq<Source>, frames: seq<DataFrame>, folder: string, files: seq<FileEntry>)
    returns (r: Result<seq<DataFrame>, LoadError>)
    requires LoadAll(done) == Success(frames)
    ensures r == LoadAll(done + CsvSources(folder, files))
  {
    var activityLabel := ActivityLabel(folder);
    var dataFrames := frames;
    assert done + CsvSources(folder, files[..0]) == done;
    for m := 0 to |files|
      invariant LoadAll(done + CsvSources(folder, files[..m])) == Success(dataFrames)
    {
      var file := files[m];
      if IsCsv(file.name) {
        if file.contents.Unreadable? {
          FolderStepFails(done, folder, files, m);
          return Failure(ReadFailed(folder, file.name));
        }
        var dfTemp := file.contents.frame;
        dfTemp := SetColumn(dfTemp, ActivityColumn, activityLabel);
        var subject := SubjectId(file.name);
        if subject.None? {
          FolderStepFails(done, folder, files, m);
          return Failure(NoSubjectId(folder, file.name));
        }
        dfTemp := SetColumn(dfTemp, SubjectColumn, subject.value);
        dfTemp := RenameIndexColumn(dfTemp);
        FolderStepLoads(done, folder, files, m, dataFrames, dfTemp);
        dataFrames := dataFrames + [dfTemp];
      } else {
        FolderStepSkips(done, folder, files, m);
      }
    }
    assert files[..|files|] == files;
    return Success(dataFrames);
  }

  /** A hidden root entry, or one that is not a directory, adds no file. */
  lemma RootStepSkips(root: seq<Entry>, n: nat)
    requires n < |root| && (IsHidden(root[n].name) || root[n].NotFolder?)
    ensures Sources(root[..n + 1]) == Sources(root[..n])
  {
    SourcesSnoc(root, n);
  }

  /** A visible folder of the root adds its `.csv` files. */
  lemma RootStepFolder(root: seq<Entry>, n: nat)
    requires n < |root| && !IsHidden(root[n].name) && root[n].Folder?
    ensures Sources(root[..n + 1]) == Sources(root[..n]) + CsvSources(root[n].name, root[n].files)
  {
    SourcesSnoc(root, n);
  }

  /** The files of the root are those of its first `n` entries, then those
      of the rest. */
  lemma SourcesSplitAt(root: seq<Entry>, n: nat)
    requires n <= |root|
    ensures Sources(root) == Sources(root[..n]) + Sources(root[n..])
  {
    assert root == root[..n] + root[n..];
    SourcesAppend(root[..n], root[n..]);
  }

  /** Once the files of the first `n` root entries fail, the files of the
      whole root fail with the same error. */
  lemma RootPrefixFails(root: seq<Entry>, n: nat)
    requires n <= |root| && LoadAll(Sources(root[..n])).Failure?
    ensures LoadAll(Sources(root)) == LoadAll(Sources(root[..n]))
  {
    SourcesSplitAt(root, n);
    LoadAllPrefixFails(Sources(root[..n]), Sources(root[n..]));
  }

  /** A file of the root that fails to load makes the walk fail with its error. */
  lemma RootFails(root: seq<Entry>)
    requires LoadAll(Sources(root)).Failure?
    ensures GetDf(root) == Failure(LoadAll(Sources(root)).error)
  {
  }

  /** When every file of the root loads, the walk concatenates the frames,
      or fails when there are none. */
  lemma RootLoads(root: seq<Entry>, frames: seq<DataFrame>)
    requires LoadAll(Sources(root[..|root|])) == Success(frames)
    ensures GetDf(root) == if |frames| == 0 then Failure(NothingToConcatenate) else Success(Table(Concat(frames)))
  {
    assert root[..|root|] == root;
  }

  /** The walk written as the source writes it (lines 20-53): a loop over
      the root, an accumulator, and the first error ending the load. */
  method LoadDataset(root: seq<Entry>) returns (r: Result<Table, LoadError>)
    ensures r == GetDf(root)
  {
    var dataFrames: seq<DataFrame> := [];
    for n := 0 to |root|
      invariant LoadAll(Sources(root[..n])) == Success(dataFrames)
    {
      var entry := root[n];
      if !IsHidden(entry.name) {
        if entry.Folder? {
          RootStepFolder(root, n);
          var loaded := LoadFolder(Sources(root[..n]), dataFrames, entry.name, entry.files);
          if loaded.Failure? {
            RootPrefixFails(root, n + 1);
            RootFails(root);
            return Failure(loaded.error);
          }
          dataFrames := loaded.value;
        } else {
          RootStepSkips(root, n);
        }
      } else {
        RootStepSkips(root, n);
      }
    }
    RootLoads(root, dataFrames);
    if |dataFrames| == 0 {
      return Failure(NothingToConcatenate);
    }
    return Success(Table(Concat(dataFrames)));
  }
}
