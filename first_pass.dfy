/** The first-pass merge worker (merge.py): read every uploaded file,
    concatenate the non-empty tables in file order, drop repeated rows keeping
    the first, and report the row statistics as one JSON object on stdout. */
module FirstPass {
  import opened Base
  import opened Json
  import opened Paths
  import opened Tables
  import opened Ingest

  /** The exceptions the worker raises, each rendered by `Message`. */
  datatype MergeError =
    | NoFilesProvided
    | FileNotFound(path: Path)
    | FileDoesNotExist(path: Path)
    | UnsupportedFormat(ext: string)
    | ReaderFailed(message: string)
    | NoValidFiles
    | NotIterable(typeName: string)
    | NotAPath(typeName: string)
    | Unhashable(typeName: string)

  /** `str(e)` of each exception (merge.py:31, 43, 58, 64, 77), and of the
      `TypeError`s Python raises when the argument cannot be iterated, when
      `os.path.abspath` is given something other than a string (merge.py:61),
      and when `drop_duplicates` meets a cell it cannot hash (merge.py:79). */
  function Message(e: MergeError): string {
    match e
    case NoFilesProvided => "No files provided for merging"
    case FileNotFound(p) => "File not found: " + p
    case FileDoesNotExist(p) => "File does not exist: " + p
    case UnsupportedFormat(ext) => "Unsupported file format: " + ext
    case ReaderFailed(m) => m
    case NoValidFiles => "No valid files to merge"
    case NotIterable(t) => "'" + t + "' object is not iterable"
    case NotAPath(t) => "expected str, bytes or os.PathLike object, not " + t
    case Unhashable(t) => "unhashable type: '" + t + "'"
  }

  /** `read_file` (merge.py:27-50): the existence check comes before the
      extension is looked at; the extension is lower-cased before dispatch. */
  function ReadFile(p: Path, disk: Disk): Result<Table, MergeError> {
    if p !in disk then Err(FileDoesNotExist(p))
    else match FormatOf(WorkerExtension(p))
      case None => Err(UnsupportedFormat(WorkerExtension(p)))
      case Some(f) =>
        match Parse(disk[p], f)
        case Ok(t) => Ok(t)
        case Err(m) => Err(ReaderFailed(m))
  }

  /** A missing file is reported as missing whatever its extension; an
      existing file with an unsupported extension is refused with that
      lower-cased extension before any reader runs. */
  lemma ReadFileChecks(p: Path, disk: Disk)
    ensures ReadFile(p, disk).Err? && ReadFile(p, disk).error.FileDoesNotExist? <==> p !in disk
    ensures ReadFile(p, disk).Err? && ReadFile(p, disk).error.UnsupportedFormat? <==>
      p in disk && WorkerExtension(p) !in Allowed
    ensures ReadFile(p, disk).Err? && ReadFile(p, disk).error.UnsupportedFormat? ==>
      ReadFile(p, disk).error.ext == Lower(SplitExt(p))
  {
    FormatOfAllowed(WorkerExtension(p));
  }

  /** A stored upload that passed the server's filter is never refused for
      its extension, once `merge_files` has made its path absolute. */
  lemma StoredUploadIsReadable(cwd: Path, tempPath: Path, originalName: string, disk: Disk)
    requires PlainTempPath(tempPath) && Accepts(originalName)
    ensures !(ReadFile(AbsPath(cwd, StoredPath(tempPath, originalName)), disk).Err? &&
              ReadFile(AbsPath(cwd, StoredPath(tempPath, originalName)), disk).error.UnsupportedFormat?)
  {
    AcceptedUploadHasReader(tempPath, originalName);
    AbsPathKeepsExtension(cwd, StoredPath(tempPath, originalName));
  }

  /** The first path that does not exist. */
  function FirstMissing(ps: seq<Path>, disk: Disk): (r: Option<Path>)
    ensures r.None? <==> forall i :: 0 <= i < |ps| ==> ps[i] in disk
    ensures r.Some? ==>
      exists i :: 0 <= i < |ps| && ps[i] == r.value && r.value !in disk && (forall j :: 0 <= j < i ==> ps[j] in disk)
  {
    if ps == [] then None
    else if ps[0] !in disk then Some(ps[0])
    else
      var r := FirstMissing(ps[1..], disk);
      assert forall i :: 1 <= i < |ps| ==> ps[i] == ps[1..][i - 1];
      r
  }

  /** The outcome of reading each file, in order (merge.py:68-69). */
  function Reads(ps: seq<Path>, disk: Disk): (rs: seq<Result<Table, MergeError>>)
    ensures |rs| == |ps|
    ensures forall i :: 0 <= i < |ps| ==> rs[i] == ReadFile(ps[i], disk)
  {
    seq(|ps|, i requires 0 <= i < |ps| => ReadFile(ps[i], disk))
  }

  /** The tables that are kept: those that are not empty, in order. */
  function NonEmpty(ts: seq<Table>): (r: seq<Table>)
    ensures |r| <= |ts|
    ensures forall t :: t in r <==> t in ts && !IsEmpty(t)
  {
    if ts == [] then []
    else NonEmpty(ts[..|ts| - 1]) + (if IsEmpty(ts[|ts| - 1]) then [] else [ts[|ts| - 1]])
  }

  /** The kept tables are the non-empty tables read, each once and in the
      order read: kept table `j` is table `idx[j]` read, the positions
      increase, and they are exactly the positions of the non-empty tables. */
  lemma {:induction false} NonEmptyKeepsOrder(ts: seq<Table>) returns (idx: seq<nat>)
    ensures |idx| == |NonEmpty(ts)|
    ensures forall j :: 0 <= j < |idx| ==> idx[j] < |ts| && NonEmpty(ts)[j] == ts[idx[j]]
    ensures forall j, j' :: 0 <= j < j' < |idx| ==> idx[j] < idx[j']
    ensures forall i :: 0 <= i < |ts| ==> (!IsEmpty(ts[i]) <==> i in idx)
  {
    if ts == [] {
      idx := [];
    } else {
      var n := |ts| - 1;
      var front := ts[..n];
      var before := NonEmptyKeepsOrder(front);
      var kept := NonEmpty(front);
      forall i | 0 <= i < n ensures !IsEmpty(ts[i]) <==> i in before {
        assert ts[i] == front[i];
      }
      PositionsStep(ts, before);
      if IsEmpty(ts[n]) {
        assert NonEmpty(ts) == kept;
        idx := before;
      } else {
        assert NonEmpty(ts) == kept + [ts[n]];
        idx := before + [n];
        forall j | 0 <= j < |idx| ensures idx[j] < |ts| && NonEmpty(ts)[j] == ts[idx[j]] {
          if j < |before| {
            assert NonEmpty(ts)[j] == kept[j];
            assert front[before[j]] == ts[before[j]];
          }
        }
      }
    }
  }

  /** The positions of the non-empty tables, one table further on. */
  lemma PositionsStep(ts: seq<Table>, before: seq<nat>)
    requires ts != []
    requires forall j :: 0 <= j < |before| ==> before[j] < |ts| - 1
    requires forall i :: 0 <= i < |ts| - 1 ==> (!IsEmpty(ts[i]) <==> i in before)
    ensures var idx := before + (if IsEmpty(ts[|ts| - 1]) then [] else [|ts| - 1]);
      forall i :: 0 <= i < |ts| ==> (!IsEmpty(ts[i]) <==> i in idx)
  {
    var n := |ts| - 1;
    var idx := before + (if IsEmpty(ts[n]) then [] else [n]);
    forall i | 0 <= i < |ts| ensures !IsEmpty(ts[i]) <==> i in idx {
      if i < n {
        assert i in idx <==> i in before;
      } else if IsEmpty(ts[n]) {
        assert n !in before by {
          forall j | 0 <= j < |before| ensures before[j] != n {
          }
        }
      } else {
        assert idx[|before|] == i;
      }
    }
  }

  /** The statistics object the worker prints (merge.py:88-95), with the
      merged table it writes. */
  datatype Summary = Summary(merged: Table, totalRows: nat, duplicatesRemoved: int, filePath: string)

  /** Concatenation onto the first-seen column union, then `drop_duplicates`,
      then the counts (merge.py:79, 91-92). */
  function Summarize(kept: seq<Table>): Summary {
    var cols := UnionColumns(kept);
    var rows := DropDuplicates(ConcatRows(kept, cols));
    Summary(Table(cols, rows), |rows|, RowCount(kept) - |rows|, "merged_data.csv")
  }

  /** Every cell of `t`, read under one of its columns, can be hashed. */
  predicate HashableCells(t: Table) {
    forall i, c :: 0 <= i < |t.rows| && c in t.columns ==> Hashable(CellAt(t.columns, t.rows[i], c))
  }

  predicate AllHashable(ts: seq<Table>) {
    forall k :: 0 <= k < |ts| ==> HashableCells(ts[k])
  }

  /** `pd.concat(dataframes).drop_duplicates()` (merge.py:79): the merge
      fails on the first nested list or dict cell of the concatenation;
      otherwise it is the summary of the kept tables. */
  function Deduplicate(kept: seq<Table>): Result<Summary, MergeError> {
    var cols := UnionColumns(kept);
    match FirstUnhashable(ConcatRows(kept, cols), |cols|)
    case Some(t) => Err(Unhashable(t))
    case None => Ok(Summarize(kept))
  }

  /** `drop_duplicates` succeeds exactly when no table holds a nested list or
      dict under one of its columns, and then gives the summary; otherwise it
      names the type it could not hash. */
  lemma DeduplicateOutcome(kept: seq<Table>)
    ensures Deduplicate(kept).Ok? <==> AllHashable(kept)
    ensures Deduplicate(kept).Ok? ==> Deduplicate(kept).value == Summarize(kept)
    ensures Deduplicate(kept).Err? ==>
      Deduplicate(kept).error == Unhashable("list") || Deduplicate(kept).error == Unhashable("dict")
  {
    var cols := UnionColumns(kept);
    FirstUnhashableSpec(ConcatRows(kept, cols), |cols|);
    HashableConcat(kept, cols);
  }

  /** The concatenation holds only hashable cells exactly when every table
      does under its own columns. */
  lemma HashableConcat(kept: seq<Table>, cols: seq<Label>)
    requires cols == UnionColumns(kept)
    ensures AllHashable(kept) <==>
      forall n, j :: 0 <= n < |ConcatRows(kept, cols)| && 0 <= j < |cols| ==> Hashable(CellIn(ConcatRows(kept, cols)[n], j))
  {
    var all := ConcatRows(kept, cols);
    if AllHashable(kept) {
      forall n, j | 0 <= n < |all| && 0 <= j < |cols| ensures Hashable(CellIn(all[n], j)) {
        var k, i := ConcatRowAt(kept, cols, n);
        assert HashableCells(kept[k]);
      }
    } else {
      var k :| 0 <= k < |kept| && !HashableCells(kept[k]);
      var i, c :| 0 <= i < |kept[k].rows| && c in kept[k].columns && !Hashable(CellAt(kept[k].columns, kept[k].rows[i], c));
      UnionColumnsSpec(kept);
      var j := FirstIndex(cols, c);
      var n := ConcatRowOf(kept, cols, k, i);
      assert !Hashable(CellIn(all[n], j));
    }
  }

  /** The only error `drop_duplicates` adds is the unhashable cell. */
  lemma DeduplicateError(kept: seq<Table>)
    ensures Deduplicate(kept).Err? ==> Deduplicate(kept).error.Unhashable?
  {
  }

  /** Where a row of the concatenation comes from. */
  lemma ConcatRowAt(ts: seq<Table>, cols: seq<Label>, n: nat) returns (k: nat, i: nat)
    requires n < |ConcatRows(ts, cols)|
    ensures k < |ts| && i < |ts[k].rows|
    ensures ConcatRows(ts, cols)[n] == ReindexRow(ts[k].columns, ts[k].rows[i], cols)
  {
    ConcatRowsLayout(ts, cols);
    k, i := LocateRow(ts, n);
  }

  /** Where a table's row lands in the concatenation. */
  lemma ConcatRowOf(ts: seq<Table>, cols: seq<Label>, k: nat, i: nat) returns (n: nat)
    requires k < |ts| && i < |ts[k].rows|
    ensures n < |ConcatRows(ts, cols)|
    ensures ConcatRows(ts, cols)[n] == ReindexRow(ts[k].columns, ts[k].rows[i], cols)
  {
    ConcatRowsLayout(ts, cols);
    n := RowsBefore(ts, k) + i;
  }

  /** `merge_files` (merge.py:57-97) once its paths are a list of strings made
      absolute: validation, existence of every path, every read, the
      skipping of empty tables, the merge. */
  function MergeSpec(paths: seq<Path>, disk: Disk): Result<Summary, MergeError> {
    if paths == [] then Err(NoFilesProvided)
    else match FirstMissing(paths, disk)
      case Some(p) => Err(FileNotFound(p))
      case None =>
        match Sequence(Reads(paths, disk))
        case Err(e) => Err(e)
        case Ok(read) => if NonEmpty(read) == [] then Err(NoValidFiles) else Deduplicate(NonEmpty(read))
  }

  /** `[os.path.abspath(path) for path in file_paths]` (merge.py:61) over the
      items a loop visits: every item is made absolute, and the first item
      that is not a string makes `abspath` raise. */
  function AbsPaths(cwd: Path, items: seq<Json>): (r: Result<seq<Path>, MergeError>)
    ensures r.Ok? <==> forall i :: 0 <= i < |items| ==> items[i].Str?
    ensures r.Ok? ==> |r.value| == |items| && forall i :: 0 <= i < |items| ==> r.value[i] == AbsPath(cwd, items[i].s)
    ensures r.Err? ==>
      exists i :: 0 <= i < |items| && !items[i].Str? && r.error == NotAPath(PyTypeName(items[i])) &&
        forall j :: 0 <= j < i ==> items[j].Str?
  {
    if items == [] then Ok([])
    else if !items[0].Str? then Err(NotAPath(PyTypeName(items[0])))
    else
      var rest := AbsPaths(cwd, items[1..]);
      assert forall i :: 1 <= i < |items| ==> items[i] == items[1..][i - 1];
      match rest
      case Err(e) => Err(e)
      case Ok(ps) => Ok([AbsPath(cwd, items[0].s)] + ps)
  }

  /** Each of `paths`, made absolute. */
  function Absolute(cwd: Path, paths: seq<Path>): (abs: seq<Path>)
    ensures |abs| == |paths|
    ensures forall i :: 0 <= i < |paths| ==> abs[i] == AbsPath(cwd, paths[i])
  {
    seq(|paths|, i requires 0 <= i < |paths| => AbsPath(cwd, paths[i]))
  }

  /** `merge_files(file_paths)` (merge.py:52-97) on whatever `json.loads`
      gave: a falsy argument is refused, one that cannot be iterated fails,
      the items are made absolute, and the merge proper runs on them. */
  function MergeArgument(filePaths: Json, cwd: Path, disk: Disk): Result<Summary, MergeError> {
    if PyFalsy(filePaths) then Err(NoFilesProvided)
    else match Elements(filePaths)
      case None => Err(NotIterable(PyTypeName(filePaths)))
      case Some(items) =>
        match AbsPaths(cwd, items)
        case Err(e) => Err(e)
        case Ok(paths) => MergeSpec(paths, disk)
  }

  /** `merge_files`, step by step: the emptiness check, the absolute paths,
      then the loops over them. */
  method MergeFiles(filePaths: Json, cwd: Path, disk: Disk) returns (r: Result<Summary, MergeError>)
    ensures r == MergeArgument(filePaths, cwd, disk)
  {
    if PyFalsy(filePaths) {
      return Err(NoFilesProvided);
    }
    var items := Elements(filePaths);
    if items.None? {
      return Err(NotIterable(PyTypeName(filePaths)));
    }
    var absolute := AbsPaths(cwd, items.value);
    if absolute.Err? {
      return Err(absolute.error);
    }
    ElementsOfNonEmpty(filePaths);
    r := MergePaths(absolute.value, disk);
  }

  /** The part of `merge_files` that works on the absolute paths of a
      non-empty argument: the existence loop with its early raise, then the
      read loop that appends every non-empty table, and the de-duplication
      (merge.py:62-79). */
  method MergePaths(paths: seq<Path>, disk: Disk) returns (r: Result<Summary, MergeError>)
    requires paths != []
    ensures r == MergeSpec(paths, disk)
  {
    var i := 0;
    while i < |paths|
      invariant 0 <= i <= |paths|
      invariant forall j :: 0 <= j < i ==> paths[j] in disk
    {
      if paths[i] !in disk {
        MissingFirst(paths, disk, i);
        return Err(FileNotFound(paths[i]));
      }
      i := i + 1;
    }
    var dataframes: seq<Table> := [];
    ghost var read: seq<Table> := [];
    i := 0;
    while i < |paths|
      invariant 0 <= i <= |paths|
      invariant ReadSoFar(paths, disk, i, read)
      invariant dataframes == NonEmpty(read)
    {
      var df := ReadFile(paths[i], disk);
      ReadStep(paths, disk, i, read);
      if df.Err? {
        return Err(df.error);
      }
      if !IsEmpty(df.value) {
        dataframes := dataframes + [df.value];
      }
      read := read + [df.value];
      i := i + 1;
    }
    AfterAllReads(paths, disk, read);
    if dataframes == [] {
      return Err(NoValidFiles);
    }
    return Deduplicate(dataframes);
  }

  /** Every path exists and the first `i` files read as `read`. */
  predicate ReadSoFar(paths: seq<Path>, disk: Disk, i: nat, read: seq<Table>) {
    && paths != []
    && i <= |paths|
    && (forall j :: 0 <= j < |paths| ==> paths[j] in disk)
    && Sequence(Reads(paths, disk)[..i]) == Ok(read)
  }

  /** One more read: an error is the merge's error; a table extends what was
      read, and the kept tables when it is not empty. */
  lemma ReadStep(paths: seq<Path>, disk: Disk, i: nat, read: seq<Table>)
    requires i < |paths| && ReadSoFar(paths, disk, i, read)
    ensures ReadFile(paths[i], disk).Err? ==> MergeSpec(paths, disk) == Err(ReadFile(paths[i], disk).error)
    ensures ReadFile(paths[i], disk).Ok? ==>
      && ReadSoFar(paths, disk, i + 1, read + [ReadFile(paths[i], disk).value])
      && NonEmpty(read + [ReadFile(paths[i], disk).value]) ==
           NonEmpty(read) + (if IsEmpty(ReadFile(paths[i], disk).value) then [] else [ReadFile(paths[i], disk).value])
  {
    var rs := Reads(paths, disk);
    assert rs[i] == ReadFile(paths[i], disk);
    if rs[i].Err? {
      SequenceStepErr(rs, i, read);
    } else {
      SequenceStep(rs, i, read);
      NonEmptyStep(read, rs[i].value);
    }
  }

  lemma MissingFirst(paths: seq<Path>, disk: Disk, i: nat)
    requires i < |paths| && paths[i] !in disk && forall j :: 0 <= j < i ==> paths[j] in disk
    ensures MergeSpec(paths, disk) == Err(FileNotFound(paths[i]))
  {
    var m := FirstMissing(paths, disk);
    var i' :| 0 <= i' < |paths| && paths[i'] == m.value && m.value !in disk && forall j :: 0 <= j < i' ==> paths[j] in disk;
    assert i' == i;
  }

  lemma NonEmptyStep(ts: seq<Table>, t: Table)
    ensures NonEmpty(ts + [t]) == NonEmpty(ts) + (if IsEmpty(t) then [] else [t])
  {
    assert (ts + [t])[..|ts|] == ts;
  }

  lemma AfterAllReads(paths: seq<Path>, disk: Disk, read: seq<Table>)
    requires ReadSoFar(paths, disk, |paths|, read)
    ensures MergeSpec(paths, disk) == if NonEmpty(read) == [] then Err(NoValidFiles) else Deduplicate(NonEmpty(read))
  {
    assert Reads(paths, disk)[..|paths|] == Reads(paths, disk);
  }

  /** An empty list is refused first, and nothing else is refused with
      that error (merge.py:57-58). */
  lemma NoFilesIffEmpty(paths: seq<Path>, disk: Disk)
    ensures MergeSpec(paths, disk) == Err(NoFilesProvided) <==> paths == []
  {
    if paths != [] && FirstMissing(paths, disk).None? {
      var rs := Reads(paths, disk);
      if Sequence(rs).Err? {
        var i := FirstError(rs);
        ReadFileErrors(paths[i], disk);
      } else {
        DeduplicateError(NonEmpty(Sequence(rs).value));
      }
    }
  }

  /** Every path's existence is checked before any file is read: the first
      missing path is the error, whatever the files before it hold
      (merge.py:61-65). */
  lemma MissingBeforeReading(paths: seq<Path>, disk: Disk)
    ensures forall i :: (0 <= i < |paths| && paths[i] !in disk && (forall j :: 0 <= j < i ==> paths[j] in disk)) ==>
      MergeSpec(paths, disk) == Err(FileNotFound(paths[i]))
  {
    forall i | 0 <= i < |paths| && paths[i] !in disk && (forall j :: 0 <= j < i ==> paths[j] in disk)
      ensures MergeSpec(paths, disk) == Err(FileNotFound(paths[i]))
    {
      MissingFirst(paths, disk, i);
    }
  }

  /** When every path exists, the files are read in order and the first
      read that fails is the error (merge.py:68-69). */
  lemma FirstReadFailure(paths: seq<Path>, disk: Disk, i: nat)
    requires forall j :: 0 <= j < |paths| ==> paths[j] in disk
    requires i < |paths| && ReadFile(paths[i], disk).Err?
    requires forall j :: 0 <= j < i ==> ReadFile(paths[j], disk).Ok?
    ensures MergeSpec(paths, disk) == Err(ReadFile(paths[i], disk).error)
  {
    var rs := Reads(paths, disk);
    var r := Sequence(rs);
    var i' :| 0 <= i' < |rs| && rs[i'] == Err(r.error) && forall j :: 0 <= j < i' ==> rs[j].Ok?;
    assert i' == i;
  }

  /** The errors `read_file` can raise: never one of the list-level ones,
      and "does not exist" exactly for a missing path. */
  lemma ReadFileErrors(p: Path, disk: Disk)
    ensures ReadFile(p, disk).Err? ==>
      !ReadFile(p, disk).error.NoFilesProvided? && !ReadFile(p, disk).error.FileNotFound? &&
      !ReadFile(p, disk).error.NoValidFiles? &&
      (ReadFile(p, disk).error.FileDoesNotExist? <==> p !in disk)
    ensures ReadFile(p, disk).Ok? ==> p in disk
  {
  }

  /** The existence check inside `read_file` never fires from `merge_files`:
      every path already passed the earlier check. */
  lemma InnerCheckUnreachable(paths: seq<Path>, disk: Disk)
    ensures !(MergeSpec(paths, disk).Err? && MergeSpec(paths, disk).error.FileDoesNotExist?)
  {
    if paths != [] && FirstMissing(paths, disk).None? {
      var rs := Reads(paths, disk);
      if Sequence(rs).Err? {
        var i := FirstError(rs);
        ReadFileErrors(paths[i], disk);
      } else {
        DeduplicateError(NonEmpty(Sequence(rs).value));
      }
    }
  }

  /** "No valid files to merge" exactly when every file was read and every
      table is empty (merge.py:70, 76-77). */
  lemma NoValidFilesIffAllEmpty(paths: seq<Path>, disk: Disk)
    ensures MergeSpec(paths, disk) == Err(NoValidFiles) <==>
      paths != [] && forall i :: 0 <= i < |paths| ==> ReadFile(paths[i], disk).Ok? && IsEmpty(ReadFile(paths[i], disk).value)
  {
    if MergeSpec(paths, disk) == Err(NoValidFiles) {
      AllEmptyWhenNoValidFiles(paths, disk);
    }
    if paths != [] && forall i :: 0 <= i < |paths| ==> ReadFile(paths[i], disk).Ok? && IsEmpty(ReadFile(paths[i], disk).value) {
      NoValidFilesWhenAllEmpty(paths, disk);
    }
  }

  lemma AllEmptyWhenNoValidFiles(paths: seq<Path>, disk: Disk)
    requires MergeSpec(paths, disk) == Err(NoValidFiles)
    ensures paths != [] && forall i :: 0 <= i < |paths| ==> ReadFile(paths[i], disk).Ok? && IsEmpty(ReadFile(paths[i], disk).value)
  {
    var rs := Reads(paths, disk);
    if FirstMissing(paths, disk).Some? {
      assert false;
    } else if Sequence(rs).Err? {
      var i := FirstError(rs);
      ReadFileErrors(paths[i], disk);
    } else {
      var read := Sequence(rs).value;
      DeduplicateError(NonEmpty(read));
      NonEmptyNone(read);
      forall i | 0 <= i < |paths| ensures ReadFile(paths[i], disk).Ok? && IsEmpty(ReadFile(paths[i], disk).value) {
        assert rs[i] == Ok(read[i]);
      }
    }
  }

  lemma NoValidFilesWhenAllEmpty(paths: seq<Path>, disk: Disk)
    requires paths != [] && forall i :: 0 <= i < |paths| ==> ReadFile(paths[i], disk).Ok? && IsEmpty(ReadFile(paths[i], disk).value)
    ensures MergeSpec(paths, disk) == Err(NoValidFiles)
  {
    var read := seq(|paths|, i requires 0 <= i < |paths| => ReadFile(paths[i], disk).value);
    AllReadsOk(paths, disk, read);
    NonEmptyNone(read);
  }

  lemma NonEmptyNone(ts: seq<Table>)
    ensures NonEmpty(ts) == [] <==> forall i :: 0 <= i < |ts| ==> IsEmpty(ts[i])
  {
    if NonEmpty(ts) == [] {
      forall i | 0 <= i < |ts| ensures IsEmpty(ts[i]) {
        assert ts[i] in ts;
      }
    } else {
      assert NonEmpty(ts)[0] in NonEmpty(ts);
    }
  }

  /** The tables that were merged, when the merge succeeds. */
  function Kept(paths: seq<Path>, disk: Disk): seq<Table>
    requires MergeSpec(paths, disk).Ok?
  {
    NonEmpty(Sequence(Reads(paths, disk)).value)
  }

  /** A successful merge is the summary of the non-empty tables read; there
      is at least one of them, and none holds a nested list or dict. */
  lemma MergeIsSummary(paths: seq<Path>, disk: Disk)
    requires MergeSpec(paths, disk).Ok?
    ensures MergeSpec(paths, disk).value == Summarize(Kept(paths, disk))
    ensures Kept(paths, disk) != [] && forall t :: t in Kept(paths, disk) ==> !IsEmpty(t)
    ensures AllHashable(Kept(paths, disk))
  {
    DeduplicateOutcome(Kept(paths, disk));
  }

  /** Once every file reads as a table and some table is not empty, the
      merge succeeds exactly when no kept table holds a nested list or dict,
      and otherwise fails naming the type it could not hash (merge.py:79). */
  lemma NestedCellFails(paths: seq<Path>, disk: Disk, read: seq<Table>)
    requires paths != [] && |read| == |paths|
    requires forall i :: 0 <= i < |paths| ==> ReadFile(paths[i], disk) == Ok(read[i])
    requires NonEmpty(read) != []
    ensures MergeSpec(paths, disk).Ok? <==> AllHashable(NonEmpty(read))
    ensures MergeSpec(paths, disk).Err? ==>
      MergeSpec(paths, disk) == Err(Unhashable("list")) || MergeSpec(paths, disk) == Err(Unhashable("dict"))
  {
    AllReadsOk(paths, disk, read);
    DeduplicateOutcome(NonEmpty(read));
  }

  /** What a merge of non-empty tables promises (merge.py:79, 91-93): no two
      rows of the result compare equal, the columns are the union of the tables'
      columns, and `total_rows` plus `duplicates_removed` is the number of
      rows read, so nothing negative is ever reported as removed. */
  lemma SummaryCounts(kept: seq<Table>)
    ensures var s := Summarize(kept);
      && s.totalRows == |s.merged.rows|
      && s.totalRows + s.duplicatesRemoved == RowCount(kept)
      && 0 <= s.duplicatesRemoved
      && NoDuplicates(RowKeys(s.merged.rows))
      && s.merged.columns == UnionColumns(kept)
      && s.filePath == "merged_data.csv"
  {
    var all := ConcatRows(kept, UnionColumns(kept));
    ConcatRowsLayout(kept, UnionColumns(kept));
    DropDuplicatesSpec(all);
  }

  /** Every row of every merged table, reindexed onto the union of columns,
      compares equal to a row of the result. */
  lemma SummaryKeepsEveryRow(kept: seq<Table>)
    ensures var s := Summarize(kept);
      forall k, i :: 0 <= k < |kept| && 0 <= i < |kept[k].rows| ==>
        RowKey(ReindexRow(kept[k].columns, kept[k].rows[i], s.merged.columns)) in RowKeys(s.merged.rows)
  {
    var cols := UnionColumns(kept);
    var all := ConcatRows(kept, cols);
    DropDuplicatesSpec(all);
    forall k, i | 0 <= k < |kept| && 0 <= i < |kept[k].rows|
      ensures RowKey(ReindexRow(kept[k].columns, kept[k].rows[i], cols)) in RowKeys(DropDuplicates(all))
    {
      var n := ConcatRowOf(kept, cols, k, i);
      assert RowKeys(all)[n] == RowKey(ReindexRow(kept[k].columns, kept[k].rows[i], cols));
    }
  }

  /** Every row of the result is a row of one of the merged tables,
      reindexed onto the union of columns. */
  lemma SummaryInventsNoRow(kept: seq<Table>)
    ensures var s := Summarize(kept);
      forall row :: row in s.merged.rows ==>
        exists k, i :: 0 <= k < |kept| && 0 <= i < |kept[k].rows| &&
          row == ReindexRow(kept[k].columns, kept[k].rows[i], s.merged.columns)
  {
    var cols := UnionColumns(kept);
    var all := ConcatRows(kept, cols);
    ConcatRowsLayout(kept, cols);
    DropDuplicatesSpec(all);
    forall row | row in DropDuplicates(all)
      ensures exists k, i :: 0 <= k < |kept| && 0 <= i < |kept[k].rows| && row == ReindexRow(kept[k].columns, kept[k].rows[i], cols)
    {
      var n :| 0 <= n < |all| && all[n] == row;
      var k, i := LocateRow(kept, n);
      assert all[RowsBefore(kept, k) + i] == ReindexRow(kept[k].columns, kept[k].rows[i], cols);
    }
  }

  /** Which table, and which of its rows, a position of the concatenation
      comes from. */
  lemma {:induction false} LocateRow(ts: seq<Table>, n: nat) returns (k: nat, i: nat)
    requires n < RowCount(ts)
    ensures k < |ts| && i < |ts[k].rows| && n == RowsBefore(ts, k) + i
  {
    if n < |ts[0].rows| {
      k, i := 0, n;
    } else {
      var k', i' := LocateRow(ts[1..], n - |ts[0].rows|);
      k, i := k' + 1, i';
    }
  }

  /** Nothing is reported as removed exactly when no two concatenated rows
      compare equal. */
  lemma NothingRemovedIffNoRepeat(kept: seq<Table>)
    ensures Summarize(kept).duplicatesRemoved == 0 <==> NoDuplicates(RowKeys(ConcatRows(kept, UnionColumns(kept))))
  {
    var all := ConcatRows(kept, UnionColumns(kept));
    ConcatRowsLayout(kept, UnionColumns(kept));
    DropDuplicatesSpec(all);
  }

  /** A table whose rows fill its columns, with no column name twice. */
  predicate WellFormed(t: Table) {
    NoDuplicates(t.columns) && forall i :: 0 <= i < |t.rows| ==> |t.rows[i]| == |t.columns|
  }

  /** Reindexing a well-formed table onto its own columns changes nothing. */
  lemma ReindexOntoOwnColumns(t: Table, i: nat)
    requires WellFormed(t) && i < |t.rows|
    ensures ReindexRow(t.columns, t.rows[i], t.columns) == t.rows[i]
  {
    var row := ReindexRow(t.columns, t.rows[i], t.columns);
    forall j | 0 <= j < |t.columns| ensures row[j] == t.rows[i][j] {
      assert FirstIndex(t.columns, t.columns[j]) == j;
    }
  }

  /** Uploading the same file twice, under two stored paths that read as the
      same table, merges to that file's rows once, and reports every row of
      the second copy as a removed duplicate. */
  lemma SameFileTwice(p: Path, q: Path, disk: Disk)
    requires ReadFile(p, disk).Ok? && ReadFile(q, disk) == ReadFile(p, disk) && !IsEmpty(ReadFile(p, disk).value)
    requires WellFormed(ReadFile(p, disk).value) && NoDuplicates(RowKeys(ReadFile(p, disk).value.rows))
    requires HashableCells(ReadFile(p, disk).value)
    ensures MergeSpec([p, q], disk).Ok?
    ensures MergeSpec([p, q], disk).value.merged == ReadFile(p, disk).value
    ensures MergeSpec([p, q], disk).value.totalRows == |ReadFile(p, disk).value.rows|
    ensures MergeSpec([p, q], disk).value.duplicatesRemoved == |ReadFile(p, disk).value.rows|
  {
    var t := ReadFile(p, disk).value;
    ReadTwice(p, q, disk, t);
    HashableTwice(t);
    SummarizeTwice(t);
  }

  lemma ReadTwice(p: Path, q: Path, disk: Disk, t: Table)
    requires ReadFile(p, disk) == Ok(t) && ReadFile(q, disk) == Ok(t) && !IsEmpty(t)
    ensures MergeSpec([p, q], disk) == Deduplicate([t, t])
  {
    AllReadsOk([p, q], disk, [t, t]);
    NonEmptyTwice(t);
  }

  lemma HashableTwice(t: Table)
    requires HashableCells(t)
    ensures Deduplicate([t, t]) == Ok(Summarize([t, t]))
  {
    DeduplicateOutcome([t, t]);
    assert AllHashable([t, t]);
  }

  lemma NonEmptyTwice(t: Table)
    requires !IsEmpty(t)
    ensures NonEmpty([t, t]) == [t, t]
  {
    assert [t, t][..1] == [t];
    assert [t][..0] == [];
  }

  /** When every file reads as a table, the merge is decided by the tables
      alone. */
  lemma AllReadsOk(paths: seq<Path>, disk: Disk, read: seq<Table>)
    requires paths != [] && |read| == |paths|
    requires forall i :: 0 <= i < |paths| ==> ReadFile(paths[i], disk) == Ok(read[i])
    ensures MergeSpec(paths, disk) == if NonEmpty(read) == [] then Err(NoValidFiles) else Deduplicate(NonEmpty(read))
  {
    EveryReadOk(paths, disk, read);
  }

  lemma EveryReadOk(paths: seq<Path>, disk: Disk, read: seq<Table>)
    requires |read| == |paths|
    requires forall i :: 0 <= i < |paths| ==> ReadFile(paths[i], disk) == Ok(read[i])
    ensures FirstMissing(paths, disk).None?
    ensures Sequence(Reads(paths, disk)) == Ok(read)
  {
    forall i | 0 <= i < |paths| ensures paths[i] in disk {
      ReadFileErrors(paths[i], disk);
    }
    var rs := Reads(paths, disk);
    assert forall i :: 0 <= i < |rs| ==> rs[i] == Ok(read[i]);
    assert Sequence(rs).value == read;
  }

  /** Merging a well-formed table with itself gives the table back. */
  lemma SummarizeTwice(t: Table)
    requires WellFormed(t) && NoDuplicates(RowKeys(t.rows))
    ensures Summarize([t, t]) == Summary(t, |t.rows|, |t.rows|, "merged_data.csv")
  {
    ColumnsOfTwo(t, t);
    RowsTwice(t);
    RowCountOfTwo(t, t);
  }

  lemma RowCountOfTwo(t: Table, u: Table)
    ensures RowCount([t, u]) == |t.rows| + |u.rows|
  {
    assert [u][1..] == [];
    assert RowCount([u]) == |u.rows|;
    assert [t, u][1..] == [u];
  }

  lemma ColumnsOfTwo(t: Table, u: Table)
    requires NoDuplicates(t.columns) && u.columns == t.columns
    ensures UnionColumns([t, u]) == t.columns
  {
    assert AllColumnNames([t, u]) == t.columns + t.columns by {
      assert [u][1..] == [];
      assert AllColumnNames([u]) == u.columns + [];
      assert u.columns + [] == u.columns;
      assert [t, u][1..] == [u];
    }
    KeepFirstAbsorbs(t.columns, t.columns);
    KeepFirstOfDistinct(t.columns);
  }

  lemma RowsTwice(t: Table)
    requires WellFormed(t) && NoDuplicates(RowKeys(t.rows))
    ensures DropDuplicates(ConcatRows([t, t], t.columns)) == t.rows
  {
    var g := ReindexedGroups([t, t], t.columns);
    forall i | 0 <= i < |t.rows| ensures g[0][i] == t.rows[i] && g[1][i] == t.rows[i] {
      ReindexOntoOwnColumns(t, i);
    }
    assert g[0] == t.rows && g[1] == t.rows;
    assert Flatten(g) == t.rows + t.rows by {
      assert g[1..][1..] == [];
      assert Flatten(g[1..]) == t.rows + [];
      assert t.rows + [] == t.rows;
    }
    forall r | r in t.rows ensures RowKey(r) in RowKeys(t.rows) {
      var i :| 0 <= i < |t.rows| && t.rows[i] == r;
      assert RowKeys(t.rows)[i] == RowKey(r);
    }
    DropDuplicatesAbsorbs(t.rows, t.rows);
    DropDuplicatesOfDistinct(t.rows);
  }

  /** Two one-row files over the same columns whose rows differ only in
      cells Python holds equal (`true` and `1`, `false` and `0`, `null` and a
      missing value) merge to the first file's row: one row in total, one
      reported as removed (merge.py:79, 91-92). */
  lemma PythonEqualRowsMerge(cols: seq<Label>, r1: Row, r2: Row)
    requires NoDuplicates(cols) && |r1| == |cols| && |r2| == |cols|
    requires RowKey(r1) == RowKey(r2)
    ensures Summarize([Table(cols, [r1]), Table(cols, [r2])]) == Summary(Table(cols, [r1]), 1, 1, "merged_data.csv")
  {
    var t, u := Table(cols, [r1]), Table(cols, [r2]);
    ColumnsOfTwo(t, u);
    RowCountOfTwo(t, u);
    ConcatOfRows(cols, r1, r2);
    PythonEqualCells(r1, r2);
  }

  lemma ConcatOfRows(cols: seq<Label>, r1: Row, r2: Row)
    requires NoDuplicates(cols) && |r1| == |cols| && |r2| == |cols|
    ensures ConcatRows([Table(cols, [r1]), Table(cols, [r2])], cols) == [r1, r2]
  {
    var t, u := Table(cols, [r1]), Table(cols, [r2]);
    var g := ReindexedGroups([t, u], cols);
    ReindexOntoOwnColumns(t, 0);
    ReindexOntoOwnColumns(u, 0);
    assert g[0] == [r1] && g[1] == [r2];
    assert Flatten(g) == [r1, r2] by {
      assert g[1..][1..] == [];
      assert Flatten(g[1..]) == [r2] + [];
    }
  }

  /** An upload whose `flag` is `true` and one whose `flag` is `1`, with the
      same `id`, merge to one row. */
  lemma TrueFlagMatchesOne()
    ensures var cols := [Str("id"), Str("flag")];
      Summarize([Table(cols, [[Present(Num(1)), Present(Bool(true))]]), Table(cols, [[Present(Num(1)), Present(Num(1))]])])
        == Summary(Table(cols, [[Present(Num(1)), Present(Bool(true))]]), 1, 1, "merged_data.csv")
  {
    var cols := [Str("id"), Str("flag")];
    var r1, r2 := [Present(Num(1)), Present(Bool(true))], [Present(Num(1)), Present(Num(1))];
    assert RowKey(r1) == RowKey(r2) by {
      assert RowKey(r1)[0] == RowKey(r2)[0] && RowKey(r1)[1] == RowKey(r2)[1];
    }
    assert NoDuplicates(cols) by {
      assert cols[0] != cols[1];
    }
    PythonEqualRowsMerge(cols, r1, r2);
  }

  /** What the worker process leaves: its exit status and the JSON object it
      prints on stdout. */
  datatype Outcome = Outcome(exitCode: int, report: Json)

  /** The object printed when something went wrong (the traceback field is
      not modelled). */
  function Failure(message: string): Json {
    Obj([("success", Bool(false)), ("message", Str(message))])
  }

  /** The object printed on success (merge.py:88-95). */
  function SummaryJson(s: Summary): Json {
    Obj([
      ("success", Bool(true)),
      ("message", Str("Files merged successfully")),
      ("total_rows", Num(s.totalRows)),
      ("duplicates_removed", Num(s.duplicatesRemoved)),
      ("columns", Arr(s.merged.columns)),
      ("filePath", Str(s.filePath))])
  }

  /** Python truthiness of a parsed JSON value. */
  predicate PyFalsy(j: Json) {
    j == Null || j == Bool(false) || j == Num(0) || j == Str("") || j == Arr([]) || j == Obj([])
  }

  /** The script's entry point (merge.py:109-131): `args` are the command
      line arguments after the script name, each as `json.loads` reads it,
      and `cwd` is the worker's working directory. */
  function MergeMain(args: seq<Result<Json, string>>, cwd: Path, disk: Disk): Outcome {
    if |args| == 0 then Outcome(1, Failure("No file paths provided"))
    else match args[0]
      case Err(m) => Outcome(1, Failure(m))
      case Ok(j) =>
        match MergeArgument(j, cwd, disk)
        case Ok(s) => Outcome(0, SummaryJson(s))
        case Err(e) => Outcome(1, Failure(Message(e)))
  }

  /** The `success` flag of a printed report. */
  predicate Succeeded(report: Json) {
    report.Obj? && Lookup(report.props, "success") == Some(Bool(true))
  }

  /** The exit status tells success from failure, and a run on a parsed
      argument succeeds exactly when `merge_files` does: every failure,
      whatever raised it, exits with status 1 and prints `success: false`
      with the exception's message (merge.py:99-107, 112-117, 123-131). */
  lemma MergeMainOutcome(args: seq<Result<Json, string>>, cwd: Path, disk: Disk)
    ensures MergeMain(args, cwd, disk).exitCode == 0 <==> Succeeded(MergeMain(args, cwd, disk).report)
    ensures MergeMain(args, cwd, disk).exitCode != 0 ==> MergeMain(args, cwd, disk).exitCode == 1
    ensures |args| == 0 ==> MergeMain(args, cwd, disk) == Outcome(1, Failure("No file paths provided"))
    ensures |args| >= 1 && args[0].Err? ==> MergeMain(args, cwd, disk) == Outcome(1, Failure(args[0].error))
    ensures |args| >= 1 && args[0].Ok? ==>
      (MergeMain(args, cwd, disk).exitCode == 0 <==> MergeArgument(args[0].value, cwd, disk).Ok?) &&
      (MergeArgument(args[0].value, cwd, disk).Err? ==>
        MergeMain(args, cwd, disk).report == Failure(Message(MergeArgument(args[0].value, cwd, disk).error)))
  {
    MainConsistent(args, cwd, disk);
  }

  /** Every outcome the script can produce: exit status 0 with a successful
      report, or status 1 with a failed one. */
  predicate Consistent(o: Outcome) {
    (o.exitCode == 0 && Succeeded(o.report)) || (o.exitCode == 1 && !Succeeded(o.report))
  }

  lemma MainConsistent(args: seq<Result<Json, string>>, cwd: Path, disk: Disk)
    ensures Consistent(MergeMain(args, cwd, disk))
  {
    if |args| == 0 {
      FailureFails("No file paths provided");
    } else if args[0].Err? {
      FailureFails(args[0].error);
    } else {
      var r := MergeArgument(args[0].value, cwd, disk);
      if r.Ok? {
        SummarySucceeds(r.value);
      } else {
        FailureFails(Message(r.error));
      }
    }
  }

  lemma FailureFails(message: string)
    ensures !Succeeded(Failure(message))
  {
    assert Lookup(Failure(message).props, "success") == Some(Bool(false));
  }

  lemma SummarySucceeds(s: Summary)
    ensures Succeeded(SummaryJson(s))
  {
    assert Lookup(SummaryJson(s).props, "success") == Some(Bool(true));
  }

  /** What `merge_files` makes of each kind of argument: a list of strings
      is merged from their absolute paths, so a missing file is reported
      under its absolute path; a string is iterated character by character
      and an object key by key; the first item of a list that is not a
      string, and a number or `true`, make Python raise (merge.py:57-61). */
  lemma MergeArgumentCases(filePaths: Json, cwd: Path, disk: Disk)
    ensures forall paths :: filePaths == Arr(Strs(paths)) ==>
      MergeArgument(filePaths, cwd, disk) == MergeSpec(Absolute(cwd, paths), disk)
    ensures filePaths.Str? && filePaths.s != [] ==>
      MergeArgument(filePaths, cwd, disk) == MergeSpec(Absolute(cwd, Characters(filePaths.s)), disk)
    ensures filePaths.Obj? && filePaths.props != [] ==>
      MergeArgument(filePaths, cwd, disk) == MergeSpec(Absolute(cwd, Keys(DictOf(filePaths.props))), disk)
    ensures filePaths.Arr? ==>
      forall i :: 0 <= i < |filePaths.items| && !filePaths.items[i].Str? &&
                  (forall j :: 0 <= j < i ==> filePaths.items[j].Str?) ==>
        MergeArgument(filePaths, cwd, disk) == Err(NotAPath(PyTypeName(filePaths.items[i])))
    ensures filePaths.Num? && filePaths.n != 0 ==> MergeArgument(filePaths, cwd, disk) == Err(NotIterable("int"))
    ensures filePaths == Bool(true) ==> MergeArgument(filePaths, cwd, disk) == Err(NotIterable("bool"))
    ensures filePaths == Null ==> MergeArgument(filePaths, cwd, disk) == Err(NoFilesProvided)
  {
    forall paths | filePaths == Arr(Strs(paths))
      ensures MergeArgument(filePaths, cwd, disk) == MergeSpec(Absolute(cwd, paths), disk)
    {
      ArgumentOfStrings(cwd, disk, paths);
    }
    if filePaths.Str? && filePaths.s != [] {
      OfStrings(cwd, Characters(filePaths.s));
      ElementsOfNonEmpty(filePaths);
    }
    if filePaths.Obj? && filePaths.props != [] {
      OfStrings(cwd, Keys(DictOf(filePaths.props)));
      ElementsOfNonEmpty(filePaths);
    }
    if filePaths.Arr? {
      FirstNonString(cwd, filePaths.items);
    }
  }

  /** A list of strings is made absolute item by item. */
  lemma OfStrings(cwd: Path, paths: seq<Path>)
    ensures AbsPaths(cwd, Strs(paths)) == Ok(Absolute(cwd, paths))
  {
    var r := AbsPaths(cwd, Strs(paths));
    assert forall i :: 0 <= i < |paths| ==> Strs(paths)[i].Str?;
    assert r.value == Absolute(cwd, paths);
  }

  /** The first item that is not a string is the one `abspath` refuses. */
  lemma FirstNonString(cwd: Path, items: seq<Json>)
    ensures forall i :: 0 <= i < |items| && !items[i].Str? && (forall j :: 0 <= j < i ==> items[j].Str?) ==>
      AbsPaths(cwd, items) == Err(NotAPath(PyTypeName(items[i])))
  {
  }

  /** On the list of stored paths the server passes, stdout and the exit
      status follow the merge of their absolute paths. */
  lemma MainOnPaths(args: seq<Result<Json, string>>, cwd: Path, disk: Disk, paths: seq<Path>)
    requires |args| >= 1 && args[0] == Ok(Arr(Strs(paths)))
    ensures MergeMain(args, cwd, disk) == match MergeSpec(Absolute(cwd, paths), disk)
      case Ok(s) => Outcome(0, SummaryJson(s))
      case Err(e) => Outcome(1, Failure(Message(e)))
  {
    ArgumentOfStrings(cwd, disk, paths);
  }

  /** A list of strings is merged from their absolute paths; the empty list
      is refused before and after making it absolute alike. */
  lemma ArgumentOfStrings(cwd: Path, disk: Disk, paths: seq<Path>)
    ensures MergeArgument(Arr(Strs(paths)), cwd, disk) == MergeSpec(Absolute(cwd, paths), disk)
  {
    var items := Strs(paths);
    if paths == [] {
      assert PyFalsy(Arr(items));
      assert Absolute(cwd, paths) == [];
    } else {
      assert !PyFalsy(Arr(items)) by {
        assert |items| > 0;
      }
      assert Elements(Arr(items)) == Some(items);
      OfStrings(cwd, paths);
    }
  }

}
