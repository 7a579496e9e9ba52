# Dataset loader of the activity-recognition trainer, in Dafny

`get_df` (`model_training/model_helper.py`) turns a directory of motion-sensor
recordings into one labelled table. The root holds one folder per activity
trial (`dws_1`, `jog_2`, ...). Each folder holds one CSV file per subject
(`sub_1.csv`, ...). Every row read from a file gets two constant columns:

- `activity`: the readable name of the folder's activity code, which is the
  text before the first `_` in the folder name;
- `subject_id`: the second `_`-separated token of the file name, cut at its
  first `.`.

The leading index column `Unnamed: 0` is renamed to `time_step`. All row sets
are then concatenated in traversal order.

This project models that loader as pure functions over an explicit directory
tree and proves what it promises:

- when it fails, and with which error;
- how many rows it returns, and in which order;
- which folder and file each row comes from, and which labels it carries;
- which entries and files cannot affect the result.

Files and modules:

- `results.dfy` (`Results`): `Option` and `Result`, plus `Collect`. `Collect`
  runs outcomes in order and stops at the first failure, the way an
  exception ends the Python loops.
- `pystr.dfy` (`PyStr`): Python's `startswith`, `endswith` and `split` with a
  one-character separator, with `split`/`join` proved mutually inverse.
- `labels.dfy` (`Labels`, `LabelExamples`): the six-entry activity table, the
  activity code of a folder, and the subject id of a file, with the naming
  examples.
- `frames.dfy` (`Frames`): frames as a header plus rectangular rows of text
  cells. Covers scalar column assignment (`df[name] = value`), the
  `Unnamed: 0` rename, and row-wise concatenation with a fresh row index.
- `loader.dfy` (`Loader`): the directory tree as data and `GetDf` itself.
  `GetDf` picks the files the walk reads (`Sources`), loads them in order
  (`LoadAll`), and concatenates them. `LoadDataset`/`LoadFolder` are the same
  walk written as the source's nested loops, proved equal to `GetDf`.
- `properties.dfy` (`GetDfProperties`): end-to-end theorems about `GetDf`.

How the filesystem becomes data: the root is a sequence of entries in listing
order. Each entry is either `Folder(name, files)` or `NotFolder(name)`. A file
is `FileEntry(name, contents)`. Its contents are either the frame `read_csv`
produced (`Parsed`) or a reader failure (`Unreadable`). Cell values are kept as
text.

## Model

| member | source | states |
|---|---|---|
| `PyStr.Split` | model_training/model_helper.py:28 | `split` on one character gives one more piece than there are separators; no piece contains the separator; joining the pieces with it gives back the input |
| `PyStr.SplitJoin` | model_training/model_helper.py:44 | the other direction of the round trip: splitting a join of separator-free pieces returns exactly those pieces |
| `PyStr.SplitAfter` | model_training/model_helper.py:28 | the first piece is everything before the first separator, and the remaining pieces are the split of what follows it |
| `PyStr.FirstPiece` | model_training/model_helper.py:28 | piece 0 is a prefix of the input that is either the whole input or stops just before a separator |
| `PyStr.CountZero` | model_training/model_helper.py:44 | a string has no occurrence of a character exactly when its occurrence count is zero, so `split` yields a single piece exactly then |
| `Labels.LookupActivity` | model_training/model_helper.py:29 | a code gets `Unknown` exactly when it is not one of the six codes, and a known code gets its mapped name |
| `Labels.ActivityCode` | model_training/model_helper.py:28 | the activity code is the longest underscore-free prefix of the folder name: it is the whole name or is followed by `_` |
| `Labels.SubjectId` | model_training/model_helper.py:44 | deriving the subject id fails (the `IndexError`) exactly when the file name has no `_`; a derived id contains neither `_` nor `.` |
| `Labels.CodeOfConventionalFolder` | model_training/model_helper.py:27-28 | a folder named `<code>_<anything>` with an underscore-free `code` has activity code `code` |
| `Labels.CodeOfFolderWithoutUnderscore` | model_training/model_helper.py:28-29 | a folder name without `_` is its own code, so it is labelled `Unknown` unless it equals one of the six codes |
| `Labels.LabelOfConventionalFolder` | model_training/model_helper.py:28-29 | `<code>_<anything>` is labelled with the mapped name of a known code and `Unknown` for any other code |
| `Labels.CodeOfFolderStartingWith` | model_training/model_helper.py:28 | an underscore-free code that is the whole folder name, or is followed by `_`, is the folder's activity code |
| `Labels.ActivityLabelByPrefix` | model_training/model_helper.py:28-29 | the label read off the table directly: a folder named after one of the six codes, alone or followed by `_`, gets that code's name; a folder starting with none of them that way gets `Unknown` |
| `Labels.SubjectIdAfterPrefix` | model_training/model_helper.py:44 | after the first `_` of a file name, the subject id is the text up to the next `_` or `.` |
| `Labels.SubjectIdOfConventionalName` | model_training/model_helper.py:44 | a file named `<prefix>_<id>.<extension>` has subject id `id` |
| `LabelExamples.KnownFolderLabel` | model_training/model_helper.py:11-18 | each of the six codes, followed by `_` and any trial suffix, labels its folder with the mapped activity name |
| `LabelExamples.DownstairsFolder` | model_training/model_helper.py:27-29 | the folder `dws_1` is labelled `Downstairs` |
| `LabelExamples.UnknownFolder` | model_training/model_helper.py:29 | the folder `run_3`, whose code is not in the table, is labelled `Unknown` rather than rejected |
| `LabelExamples.SubjectOfSub1` | model_training/model_helper.py:44 | `sub_1.csv` has subject id `1` |
| `LabelExamples.SubjectStopsAtSecondUnderscore` | model_training/model_helper.py:44 | `a_b_7.csv` has subject id `b`, not `7` |
| `Frames.SetColumn` | model_training/model_helper.py:43-44 | assigning a scalar to a column keeps the row count and the existing columns in place. The column is always present afterwards, even in a frame with no rows, and is added at the end only when absent. Every row reads the value there, and every other column reads as before |
| `Frames.RenameIndexColumn` | model_training/model_helper.py:47 | only columns named exactly `Unnamed: 0` change, to `time_step`; order and the other names are kept, no `Unnamed: 0` remains, and without one the frame is unchanged |
| `Frames.RenameCells` | model_training/model_helper.py:47 | after the rename, `Unnamed: 0` reads as absent. `time_step` reads the old index values when the header had no `time_step` already, and reads as before when there was no `Unnamed: 0`. Every other column reads as before |
| `Frames.RenameIdempotent` | model_training/model_helper.py:47 | renaming a second time changes nothing |
| `Frames.Concat` | model_training/model_helper.py:52 | the concatenation has as many rows as all frames hold together |
| `Frames.Positions` | model_training/model_helper.py:52 | the enumeration of (frame, row) pairs has one entry per row in total, each naming an existing frame and one of its rows |
| `Frames.PositionsOrdered` | model_training/model_helper.py:52 | the enumeration is strictly increasing in frame-then-row order: frame after frame, each frame's rows in order |
| `Frames.ConcatRows` | model_training/model_helper.py:52 | row `k` of the concatenation is row `Positions[k].1` of frame `Positions[k].0`, header included |
| `Results.Collect` | model_training/model_helper.py:23-49 | the sequential run succeeds exactly when every step does, and then returns every value in order; otherwise it returns the error of the earliest failing step, all steps before it having succeeded |
| `Results.CollectAppend` | model_training/model_helper.py:23-49 | running two batches one after the other equals running the first, then, only if it succeeded, the second |
| `Loader.CsvSources` | model_training/model_helper.py:35-36 | a folder contributes at most as many files as its listing holds, each named `*.csv` and tagged with the folder |
| `Loader.CsvSourcesExact` | model_training/model_helper.py:35-36 | the files read from a folder are exactly its `.csv` entries: each comes from the listing, and every `.csv` entry of the listing is read |
| `Loader.IsHidden` | model_training/model_helper.py:25 | a root entry is skipped as hidden exactly when its name starts with `.` |
| `Loader.IsCsv` | model_training/model_helper.py:36 | a file is read exactly when its name ends in the four characters `.csv` (case-sensitive) |
| `Loader.EntrySources` | model_training/model_helper.py:25-36 | only a visible folder contributes files, and each file it contributes is a `.csv` file tagged with that folder |
| `Loader.Sources` | model_training/model_helper.py:23-36 | every file the walk reads is a `.csv` file in a folder whose name does not start with `.` |
| `Loader.CsvSourcesAppend` | model_training/model_helper.py:35-36 | the `.csv` filter distributes over a folder's listing, keeping listing order |
| `Loader.SourcesAppend` | model_training/model_helper.py:23 | the traversal distributes over the root listing, keeping listing order |
| `Loader.LoadFile` | model_training/model_helper.py:40-47 | a file loads exactly when it parses and its name contains `_`; a reader failure and a missing subject token give their own errors, tagged with folder and file name |
| `Loader.LabelFrame` | model_training/model_helper.py:43-47 | a labelled frame keeps the file's row count, has both an `activity` and a `subject_id` column, and has no `Unnamed: 0` column |
| `Loader.LoadAll` | model_training/model_helper.py:40-49 | loading the files in order succeeds exactly when every file is loadable, and then yields one frame per file |
| `Loader.LabelFrameLabels` | model_training/model_helper.py:43-47 | labelling keeps every row, in place. Each row reads the activity and subject id and has no `Unnamed: 0`. Under `time_step` it reads its old index, or, in a file without `Unnamed: 0`, the file's own `time_step` value. Every other column reads as in the file |
| `Loader.LabelRow` | model_training/model_helper.py:43-47 | labelling keeps row `i` at position `i`. The row reads the activity and subject id and has no `Unnamed: 0`. Under `time_step` it reads its old index, or, in a file without `Unnamed: 0`, the file's own `time_step` value. Every other column reads as in the file |
| `Loader.AddedColumnsKeepHeader` | model_training/model_helper.py:43-44 | adding the two label columns creates no `time_step` column and neither adds nor removes an `Unnamed: 0` one, so the later rename acts exactly as on the file's own header |
| `Loader.LoadFolder` | model_training/model_helper.py:28-49 | labelling a folder and running the inner loop over its listing yields exactly the functional load of the files read so far plus that folder's `.csv` files |
| `Loader.LoadDataset` | model_training/model_helper.py:20-53 | the nested loops with accumulator and early exit compute exactly `GetDf` |
| `Loader.GetDf` | model_training/model_helper.py:20-53 | `get_df` fails with the empty-concatenation error exactly when the walk reads no file. Its other outcomes are stated by `GetDfProperties.GetDfOutcome` and `GetDfProperties.RowsTraceToSources`, and `Loader.LoadDataset` is the loop form proved equal to it |
| `GetDfProperties.GetDfOutcome` | model_training/model_helper.py:20-53 | the load succeeds exactly when at least one file is read and every file read loads. It fails for lack of data exactly when no file is read. Otherwise it fails with the error of the first file that does not load |
| `GetDfProperties.RowCount` | model_training/model_helper.py:49-52 | the output has as many rows as all the files read hold together |
| `GetDfProperties.RowsTraceToSources` | model_training/model_helper.py:43-52 | output rows are the files' rows in traversal order, file after file. Each carries the label of its own folder name and the subject id of its own file name, and its other columns are as read |
| `GetDfProperties.LoadedFrames` | model_training/model_helper.py:40-49 | the frames collected are, one per file read and in the same order, exactly those files' loaded frames, with the files' row counts |
| `GetDfProperties.LoadedRowTraced` | model_training/model_helper.py:43-47 | each row of a loaded frame is the same row of its file, labelled from that file's folder and name |
| `GetDfProperties.SameEntrySources` | model_training/model_helper.py:23-36 | two root entries that lead to the same files read are interchangeable in any listing |
| `GetDfProperties.SkippedEntryReadsNothing` | model_training/model_helper.py:25-34 | a hidden root entry, or one that is not a directory, adds no file to the walk wherever it stands in the listing |
| `GetDfProperties.SkippedEntryIsIgnored` | model_training/model_helper.py:25-34 | a hidden root entry, or one that is not a directory, can be removed from the listing without changing the result, error included |
| `GetDfProperties.NonCsvFileIsIgnored` | model_training/model_helper.py:36 | adding or removing a file whose name does not end in `.csv`, anywhere in any folder, does not change the result, error included |
| `GetDfProperties.CsvFileIsRead` | model_training/model_helper.py:35-36 | every `.csv` file of every visible folder is read, wherever the folder and the file stand in their listings |
| `GetDfProperties.SourcesFromRoot` | model_training/model_helper.py:23-36 | every file the walk reads is an entry of a visible folder of the root, tagged with that folder's name |
| `GetDfProperties.HiddenOnlyReadsNothing` | model_training/model_helper.py:25 | a root holding only hidden entries reads no file |
| `GetDfProperties.HiddenOnlyFails` | model_training/model_helper.py:52 | loading a root holding only hidden entries fails with the empty-concatenation error rather than returning an empty table |

## Left out

- Filesystem access (`os.listdir`, `os.path.isdir`, `os.path.join`): the tree
  is an input value. Listing order is taken as given, because `listdir`
  leaves it unspecified. A root path that does not exist is not modelled,
  since the model starts from a listing.
- `pd.read_csv`: a file's parsed header and rows are an input. Every reader
  failure (malformed, unreadable, a directory whose name ends in `.csv`) is
  the single opaque `Unreadable` outcome. Cells are kept as text, so pandas'
  type inference is not modelled. `read_csv` renames duplicate header names;
  the model takes the resulting header as given.
- `pd.concat` column alignment: each output record keeps the header of the
  file it came from. `Record.Get` gives `None` where pandas would fill in a
  missing value. The order of the union of columns is not modelled. Neither
  is pandas' refusal to align frames that carry duplicate column names.
- Column lookup `Frames.Cell` reads the first column of a given name. Where
  the rename creates a second `time_step` column (a file that already had
  one), pandas would return both.
- Dtypes and index objects. `ignore_index=True` only renumbers the rows
  0..n-1, which is their position in `Table.records`.
- `str.split` is modelled only with the one-character separators the loader
  uses.
- A two-folder example (`dws_1/a_1.csv` with three rows, then
  `jog_2/b_5.csv` with two) is not proved as one concrete instance. Its parts
  are: `GetDfProperties.RowsTraceToSources` for the rows and their order,
  `LabelExamples.KnownFolderLabel` for the labels, and
  `Labels.SubjectIdOfConventionalName` for the subject ids.
- The rename applies to every column named exactly `Unnamed: 0`, wherever
  it stands. It is not limited to the unnamed first column that `read_csv`
  produces for an index written by `to_csv`.
- Hidden files inside a folder (say `._sub_1.csv`) are not skipped. Only
  hidden root entries are. The model follows the code.
