/** How `get_df` turns folder and file names into the `activity` and
    `subject_id` labels: the activity code is the folder name up to its first
    `_`, looked up in a fixed six-entry table; the subject id is the second
    `_`-separated token of the file name, cut at its first `.`. */
module Labels {
  import opened Results
  import opened PyStr

  /** The fixed table from activity code to readable activity name. */
  const ActivityMap: map<string, string> := map[
    "dws" := "Downstairs",
    "ups" := "Upstairs",
    "sit" := "Sitting",
    "std" := "Standing",
    "wlk" := "Walking",
    "jog" := "Jogging"
  ]

  /** The label of every code missing from `ActivityMap`. */
  const Unknown: string := "Unknown"

  /** `activity_map.get(code, 'Unknown')`. */
  function LookupActivity(code: string): (name: string)
    ensures name == Unknown <==> code !in ActivityMap
    ensures code in ActivityMap ==> name == ActivityMap[code]
    ensures name in ActivityMap.Values || name == Unknown
  {
    if code in ActivityMap then ActivityMap[code] else Unknown
  }

  /** `folder.split('_')[0]`: the longest prefix of the folder name without
      an underscore. */
  function ActivityCode(folder: string): (code: string)
    ensures '_' !in code
    ensures StartsWith(folder, code)
    ensures code == folder || folder[|code|] == '_'
  {
    FirstPiece(folder, '_');
    Split(folder, '_')[0]
  }

  /** The `activity` label every row read from `folder` receives. */
  function ActivityLabel(folder: string): string {
    LookupActivity(ActivityCode(folder))
  }

  /** `filename.split('_')[1].split('.')[0]`; `None` is the `IndexError` that a
      file name without an underscore raises. */
  function SubjectId(filename: string): (id: Option<string>)
    ensures id.None? <==> '_' !in filename
    ensures id.Some? ==> '_' !in id.value && '.' !in id.value
  {
    CountZero(filename, '_');
    var parts := Split(filename, '_');
    if |parts| < 2 then None else Some(Split(parts[1], '.')[0])
  }

  /** A folder named `<code>_<anything>` has activity code `code`. */
  lemma CodeOfConventionalFolder(code: string, rest: string)
    requires '_' !in code
    ensures ActivityCode(code + "_" + rest) == code
  {
    SplitAfter(code, rest, '_');
  }

  /** A folder name without `_` is its own activity code, so it is labelled
      `Unknown` unless it is exactly one of the six codes. */
  lemma CodeOfFolderWithoutUnderscore(folder: string)
    requires '_' !in folder
    ensures ActivityCode(folder) == folder
    ensures ActivityLabel(folder) == Unknown <==> folder !in ActivityMap
  {
    SplitNoSep(folder, '_');
  }

  /** Every folder named `<code>_<anything>` with a known code is labelled
      with the mapped activity name; any other code gives `Unknown`. */
  lemma LabelOfConventionalFolder(code: string, rest: string)
    requires '_' !in code
    ensures code in ActivityMap ==> ActivityLabel(code + "_" + rest) == ActivityMap[code]
    ensures code !in ActivityMap ==> ActivityLabel(code + "_" + rest) == Unknown
  {
    CodeOfConventionalFolder(code, rest);
  }

  /** An underscore-free code that is the whole folder name, or is followed
      by `_`, is the folder's activity code. */
  lemma CodeOfFolderStartingWith(folder: string, code: string)
    requires '_' !in code
    requires folder == code || StartsWith(folder, code + "_")
    ensures ActivityCode(folder) == code
  {
    if folder == code {
      CodeOfFolderWithoutUnderscore(folder);
    } else {
      var rest := folder[|code| + 1..];
      assert folder == code + "_" + rest;
      CodeOfConventionalFolder(code, rest);
    }
  }

  /** The label read off the table directly: a folder named after one of the
      six codes, alone or followed by `_`, gets that code's name; a folder
      that starts with none of them that way gets `Unknown`. */
  lemma ActivityLabelByPrefix(folder: string)
    ensures forall code :: code in ActivityMap && (folder == code || StartsWith(folder, code + "_")) ==>
      ActivityLabel(folder) == ActivityMap[code]
    ensures (forall code :: code in ActivityMap ==> folder != code && !StartsWith(folder, code + "_")) ==>
      ActivityLabel(folder) == Unknown
  {
    forall code | code in ActivityMap && (folder == code || StartsWith(folder, code + "_"))
      ensures ActivityLabel(folder) == ActivityMap[code]
    {
      assert '_' !in code;
      CodeOfFolderStartingWith(folder, code);
    }
    var c := ActivityCode(folder);
    if c in ActivityMap && c != folder {
      assert (c + "_") == folder[..|c| + 1];
    }
  }

  /** After the first `_` of a file name, the subject id is the text up to
      the next `_` or `.`, whichever comes first. */
  lemma SubjectIdAfterPrefix(prefix: string, tail: string)
    requires '_' !in prefix
    ensures SubjectId(prefix + "_" + tail) == Some(Split(Split(tail, '_')[0], '.')[0])
  {
    SplitAfter(prefix, tail, '_');
  }

  /** The naming convention `<prefix>_<id>.<extension>` decodes back to `id`. */
  lemma SubjectIdOfConventionalName(prefix: string, id: string, extension: string)
    requires '_' !in prefix && '_' !in id && '.' !in id && '_' !in extension
    ensures SubjectId(prefix + "_" + id + "." + extension) == Some(id)
  {
    var tail := id + "." + extension;
    assert prefix + "_" + id + "." + extension == prefix + "_" + tail;
    SubjectIdAfterPrefix(prefix, tail);
    SplitNoSep(tail, '_');
    SplitAfter(id, extension, '.');
  }
}


/** The naming examples of the dataset's conventions, one lemma each. */
module LabelExamples {
  import opened Results
  import opened PyStr
  import opened Labels

  /** None of the six codes contains `_`, so each is recognised in front of
      any trial suffix. */
  lemma KnownFolderLabel(code: string, rest: string)
    requires code in ActivityMap
    ensures ActivityLabel(code + "_" + rest) == ActivityMap[code]
  {
    assert '_' !in code;
    LabelOfConventionalFolder(code, rest);
  }

  /** `dws_1` is a Downstairs folder. */
  lemma DownstairsFolder()
    ensures ActivityLabel("dws_1") == "Downstairs"
  {
    assert "dws" + "_" + "1" == "dws_1";
    KnownFolderLabel("dws", "1");
  }

  /** A folder whose code is not one of the six, `run_3`, is labelled
      `Unknown` rather than rejected. */
  lemma UnknownFolder()
    ensures ActivityLabel("run_3") == Unknown
  {
    assert "run" + "_" + "3" == "run_3";
    assert "run" !in ActivityMap;
    LabelOfConventionalFolder("run", "3");
  }

  /** `sub_1.csv` belongs to subject `1`. */
  lemma SubjectOfSub1()
    ensures SubjectId("sub_1.csv") == Some("1")
  {
    assert "sub" + "_" + "1" + "." + "csv" == "sub_1.csv";
    SubjectIdOfConventionalName("sub", "1", "csv");
  }

  /** Only the second token counts: `a_b_7.csv` belongs to subject `b`, not `7`. */
  lemma SubjectStopsAtSecondUnderscore()
    ensures SubjectId("a_b_7.csv") == Some("b")
  {
    assert "a" + "_" + "b_7.csv" == "a_b_7.csv";
    assert "b" + "_" + "7.csv" == "b_7.csv";
    SubjectIdAfterPrefix("a", "b_7.csv");
    SplitAfter("b", "7.csv", '_');
    SplitNoSep("b", '.');
  }
}
