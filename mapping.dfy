/** The mapping worker (mapping.py): read every stored upload, rename each
    table's columns through the user's `old -> new` mapping, pad every table
    to the set of all column names and concatenate the rows, keeping every
    one of them. The merged table goes to `merged_output.csv`; the worker
    prints a JSON report.

    The column set is a Python `set` (mapping.py:48), whose iteration order
    is not specified: a merged row is therefore a map from column name to
    cell, and the merged table has a set of columns, not a sequence. */
module Mapping {
  import opened Base
  import opened Json
  import opened Paths
  import opened Tables
  import opened Ingest
  import FirstPass

  /** Why one file could not be read. */
  datatype ReadProblem =
    | UnsupportedFormat(ext: string)
    | NoSuchFile
    | ParserFailed(message: string)
    | NotAPath(typeName: string)

  /** The exceptions `merge_files` turns into its failure report. */
  datatype MappingError =
    | HasNoLength(typeName: string)
    | TooFewFiles
    | ReadFailed(file: string, problem: ReadProblem)
    | DuplicateLabels
    | MissingKey(key: int)

  /** `str(e)` of each exception (mapping.py:24, 26, 32, 39, 49): a read
      failure is re-raised naming the file, around the original message, and
      a `KeyError` shows only the key. */
  function Message(e: MappingError): string {
    match e
    case HasNoLength(t) => "object of type '" + t + "' has no len()"
    case TooFewFiles => "At least two files are required for merging"
    case ReadFailed(file, problem) => "Error reading file " + file + ": " + ProblemMessage(file, problem)
    case DuplicateLabels => "cannot reindex on an axis with duplicate labels"
    case MissingKey(k) => IntText(k)
  }

  function ProblemMessage(file: string, problem: ReadProblem): string {
    match problem
    case UnsupportedFormat(ext) => "Unsupported file format: " + ext
    case NoSuchFile => "[Errno 2] No such file or directory: '" + file + "'"
    case ParserFailed(m) => m
    case NotAPath(t) => "expected str, bytes or os.PathLike object, not " + t
  }

  /** `read_file` (mapping.py:7-26): the extension decides first, so an
      unsupported name is refused whether or not it exists; only then does
      the reader find the file missing. */
  function ReadFile(p: Path, disk: Disk): Result<Table, MappingError> {
    var ext := WorkerExtension(p);
    match FormatOf(ext)
    case None => Err(ReadFailed(p, UnsupportedFormat(ext)))
    case Some(f) =>
      if p !in disk then Err(ReadFailed(p, NoSuchFile))
      else match Parse(disk[p], f)
        case Ok(t) => Ok(t)
        case Err(m) => Err(ReadFailed(p, ParserFailed(m)))
  }

  /** Every failure names the file; an unsupported extension is refused
      before the file system is consulted, and a missing file with a
      supported extension is reported as missing. */
  lemma ReadFileChecks(p: Path, disk: Disk)
    ensures ReadFile(p, disk).Err? ==>
      ReadFile(p, disk).error.ReadFailed? && ReadFile(p, disk).error.file == p
    ensures WorkerExtension(p) !in Allowed ==>
      ReadFile(p, disk) == Err(ReadFailed(p, UnsupportedFormat(Lower(SplitExt(p)))))
    ensures WorkerExtension(p) in Allowed && p !in disk ==>
      ReadFile(p, disk) == Err(ReadFailed(p, NoSuchFile))
  {
    FormatOfAllowed(WorkerExtension(p));
  }

  function IntText(n: int): string {
    if n < 0 then "-" + NatToString(-n) else NatToString(n)
  }

  /** `str(j)` of a value that is not a string, for scalars. */
  function PyText(j: Json): string {
    match j
    case Null => "None"
    case Bool(b) => if b then "True" else "False"
    case Num(n) => IntText(n)
    case Str(s) => s
    case Arr(_) => "[...]"
    case Obj(_) => "{...}"
  }

  /** What `file_paths` holds to `len` and to iteration: a list its items, a
      string its characters, a dict its keys; other values have no length. */
  function PathItems(j: Json): Result<seq<Json>, MappingError> {
    match Elements(j)
    case Some(items) => Ok(items)
    case None => Err(HasNoLength(PyTypeName(j)))
  }

  /** `read_file` of one item of `file_paths`: anything but a string fails in
      `os.path.splitext`. */
  function ReadItem(item: Json, disk: Disk): Result<Table, MappingError> {
    if item.Str? then ReadFile(item.s, disk)
    else Err(ReadFailed(PyText(item), NotAPath(PyTypeName(item))))
  }

  /** The list comprehension of reads (mapping.py:35), one outcome per item. */
  function ReadItems(items: seq<Json>, disk: Disk): (rs: seq<Result<Table, MappingError>>)
    ensures |rs| == |items|
    ensures forall i :: 0 <= i < |items| ==> rs[i] == ReadItem(items[i], disk)
  {
    seq(|items|, i requires 0 <= i < |items| => ReadItem(items[i], disk))
  }

  /** `df.rename(columns=column_matches)` of one label: a header that is a
      key of the mapping becomes that key's value; any other label, integer
      positions included, stays. */
  function RenameLabel(c: Label, renames: Props): Label {
    if c.Str? && Lookup(renames, c.s).Some? then Lookup(renames, c.s).value else c
  }

  function Rename(t: Table, renames: Props): (r: Table)
    ensures |r.columns| == |t.columns| && r.rows == t.rows
    ensures forall j :: 0 <= j < |t.columns| ==> r.columns[j] == RenameLabel(t.columns[j], renames)
  {
    Table(seq(|t.columns|, j requires 0 <= j < |t.columns| => RenameLabel(t.columns[j], renames)), t.rows)
  }

  function RenameEach(ts: seq<Table>, renames: Props): (rs: seq<Table>)
    ensures |rs| == |ts|
    ensures forall k :: 0 <= k < |ts| ==> rs[k] == Rename(ts[k], renames)
  {
    seq(|ts|, k requires 0 <= k < |ts| => Rename(ts[k], renames))
  }

  /** Renaming: a mapped header takes its new name, every other label and
      every cell stays (mapping.py:43-45). */
  lemma RenameSpec(t: Table, renames: Props, j: nat)
    requires j < |t.columns|
    ensures t.columns[j].Str? && t.columns[j].s in Keys(renames) ==>
      Rename(t, renames).columns[j] == Lookup(renames, t.columns[j].s).value
    ensures !(t.columns[j].Str? && t.columns[j].s in Keys(renames)) ==>
      Rename(t, renames).columns[j] == t.columns[j]
    ensures Rename(t, renames).rows == t.rows
  {
  }

  /** A mapping whose new names are not themselves mapped renames once and
      for all: renaming a second time changes nothing. */
  lemma {:induction false} RenameIdempotent(t: Table, renames: Props)
    requires forall k :: k in Keys(renames) ==> !(Lookup(renames, k).value.Str? && Lookup(renames, k).value.s in Keys(renames))
    ensures Rename(Rename(t, renames), renames) == Rename(t, renames)
  {
    var once := Rename(t, renames);
    var twice := Rename(once, renames);
    forall j | 0 <= j < |t.columns| ensures twice.columns[j] == once.columns[j] {
      var c := t.columns[j];
      if c.Str? && Lookup(renames, c.s).Some? {
        assert c.s in Keys(renames);
      }
    }
  }

  /** An empty mapping renames nothing. */
  lemma RenameNothing(t: Table)
    ensures Rename(t, []) == t
  {
    var r := Rename(t, []);
    forall j | 0 <= j < |t.columns| ensures r.columns[j] == t.columns[j] {
      if t.columns[j].Str? {
        assert Lookup([], t.columns[j].s) == None;
      }
    }
  }

  /** `in place`: each frame of the list is renamed where it lies
      (mapping.py:43-45). */
  method RenameAll(frames: array<Table>, renames: Props)
    modifies frames
    ensures forall i :: 0 <= i < frames.Length ==> frames[i] == Rename(old(frames[i]), renames)
  {
    var i := 0;
    while i < frames.Length
      invariant 0 <= i <= frames.Length
      invariant forall j :: 0 <= j < i ==> frames[j] == Rename(old(frames[j]), renames)
      invariant forall j :: i <= j < frames.Length ==> frames[j] == old(frames[j])
    {
      frames[i] := Rename(frames[i], renames);
      i := i + 1;
    }
  }

  /** `set().union(*[df.columns ...])` (mapping.py:48). */
  function ColumnSet(ts: seq<Table>): set<Label> {
    set k, j | 0 <= k < |ts| && 0 <= j < |ts[k].columns| :: ts[k].columns[j]
  }

  /** The union holds exactly the names some table has. */
  lemma ColumnSetMembers(ts: seq<Table>, c: Label)
    ensures c in ColumnSet(ts) <==> exists k :: 0 <= k < |ts| && c in ts[k].columns
  {
    if exists k :: 0 <= k < |ts| && c in ts[k].columns {
      var k :| 0 <= k < |ts| && c in ts[k].columns;
      var j := FirstIndex(ts[k].columns, c);
      assert ts[k].columns[j] in ColumnSet(ts);
    }
  }

  /** After renaming, the union holds exactly the new names of the original
      columns. */
  lemma RenamedColumnSet(ts: seq<Table>, renames: Props, c: Label)
    ensures c in ColumnSet(RenameEach(ts, renames)) <==>
      exists k, j :: 0 <= k < |ts| && 0 <= j < |ts[k].columns| && RenameLabel(ts[k].columns[j], renames) == c
  {
    var rs := RenameEach(ts, renames);
    if c in ColumnSet(rs) {
      var k, j :| 0 <= k < |rs| && 0 <= j < |rs[k].columns| && rs[k].columns[j] == c;
      assert RenameLabel(ts[k].columns[j], renames) == c;
    }
    if exists k, j :: 0 <= k < |ts| && 0 <= j < |ts[k].columns| && RenameLabel(ts[k].columns[j], renames) == c {
      var k, j :| 0 <= k < |ts| && 0 <= j < |ts[k].columns| && RenameLabel(ts[k].columns[j], renames) == c;
      assert rs[k].columns[j] == c;
    }
  }

  /** A row keyed by column name. */
  type Record = map<Label, Cell>

  /** The merged table: a set of columns and the rows over them. */
  datatype Merged = Merged(columns: set<Label>, rows: seq<Record>)

  /** `df.reindex(columns=all_columns)` (mapping.py:49) of a table without
      repeated column names: every row over exactly the union, a column the
      table lacks holding the missing marker. */
  function Pad(t: Table, cols: set<Label>): (rs: seq<Record>)
    ensures |rs| == |t.rows|
    ensures forall i :: 0 <= i < |t.rows| ==> rs[i] == map c | c in cols :: CellAt(t.columns, t.rows[i], c)
  {
    seq(|t.rows|, i requires 0 <= i < |t.rows| => map c | c in cols :: CellAt(t.columns, t.rows[i], c))
  }

  /** Padding keeps every row's values and fills the rest in as missing. */
  lemma PadSpec(t: Table, cols: set<Label>, i: nat, c: Label)
    requires i < |t.rows| && c in cols
    ensures Pad(t, cols)[i].Keys == cols
    ensures c in t.columns && FirstIndex(t.columns, c) < |t.rows[i]| ==>
      Pad(t, cols)[i][c] == t.rows[i][FirstIndex(t.columns, c)]
    ensures c !in t.columns ==> Pad(t, cols)[i][c] == Absent
  {
  }

  /** `pd.reindex` refuses a table in which some name occurs twice, as
      renaming two headers to the same name makes happen. */
  predicate HasRepeatedName(ts: seq<Table>) {
    exists k :: 0 <= k < |ts| && !NoDuplicates(ts[k].columns)
  }

  function PaddedGroups(ts: seq<Table>, cols: set<Label>): (g: seq<seq<Record>>)
    ensures ShapedLike(g, ts)
    ensures forall k :: 0 <= k < |ts| ==> g[k] == Pad(ts[k], cols)
  {
    seq(|ts|, k requires 0 <= k < |ts| => Pad(ts[k], cols))
  }

  /** Padding to the union and `pd.concat(..., ignore_index=True)`
      (mapping.py:48-52): no row is dropped, not even a repeated one. */
  function Combine(ts: seq<Table>): Merged {
    var cols := ColumnSet(ts);
    Merged(cols, Flatten(PaddedGroups(ts, cols)))
  }

  /** Every row of every table is in the result, in file order and then row
      order: row `i` of table `k` follows all rows of the tables before it,
      and the result has exactly as many rows as the tables together. */
  lemma CombineLayout(ts: seq<Table>)
    ensures |Combine(ts).rows| == RowCount(ts)
    ensures forall k :: 0 <= k < |ts| ==> RowsBefore(ts, k) + |ts[k].rows| <= RowCount(ts)
    ensures forall k, i :: 0 <= k < |ts| && 0 <= i < |ts[k].rows| ==>
      Combine(ts).rows[RowsBefore(ts, k) + i] == Pad(ts[k], ColumnSet(ts))[i]
  {
    var g := PaddedGroups(ts, ColumnSet(ts));
    assert Combine(ts).rows == Flatten(g);
    GroupsLayout(g, ts);
  }

  /** Every merged row has exactly the union of column names. */
  lemma CombineRowsOverUnion(ts: seq<Table>, n: nat)
    requires n < |Combine(ts).rows|
    ensures Combine(ts).rows[n].Keys == Combine(ts).columns
  {
    CombineLayout(ts);
    var k, i := FirstPass.LocateRow(ts, n);
    assert Combine(ts).rows[n] == Pad(ts[k], ColumnSet(ts))[i];
  }

  /** `merge_files` (mapping.py:28-72) as one value: the length guard, every
      read in order with the first failure winning, the preview that looks
      up `file_paths[0]` (a `KeyError` for a dict, whose keys are strings),
      the renaming, the reindex that refuses repeated names, the
      concatenation. */
  function MergeSpec(filePaths: Json, renames: Props, disk: Disk): Result<Merged, MappingError> {
    match PathItems(filePaths)
    case Err(m) => Err(m)
    case Ok(items) =>
      if |items| < 2 then Err(TooFewFiles)
      else match Sequence(ReadItems(items, disk))
        case Err(m) => Err(m)
        case Ok(ts) =>
          if filePaths.Obj? then Err(MissingKey(0))
          else
            var renamed := RenameEach(ts, renames);
            if HasRepeatedName(renamed) then Err(DuplicateLabels) else Ok(Combine(renamed))
  }

  /** `merge_files`, step by step: the reads, the preview's first lookup, the
      in-place renaming loop over the frames, the union, the padding and the
      concatenation. */
  method MergeFiles(filePaths: Json, renames: Props, disk: Disk) returns (r: Result<Merged, MappingError>)
    ensures r == MergeSpec(filePaths, renames, disk)
  {
    var itemsOrError := PathItems(filePaths);
    if itemsOrError.Err? {
      return Err(itemsOrError.error);
    }
    var items := itemsOrError.value;
    if |items| < 2 {
      return Err(TooFewFiles);
    }
    var outcome := Sequence(ReadItems(items, disk));
    if outcome.Err? {
      return Err(outcome.error);
    }
    var ts := outcome.value;
    if filePaths.Obj? {
      return Err(MissingKey(0));
    }
    var frames := new Table[|ts|](i requires 0 <= i < |ts| => ts[i]);
    RenameAll(frames, renames);
    var renamed := frames[..];
    assert renamed == RenameEach(ts, renames);
    if HasRepeatedName(renamed) {
      return Err(DuplicateLabels);
    }
    return Ok(Combine(renamed));
  }

  /** The report `merge_files` returns as a JSON string (mapping.py:61-72);
      the traceback field is not modelled. */
  function Report(r: Result<Merged, MappingError>): Json {
    match r
    case Ok(_) => Obj([("success", Bool(true)), ("message", Str("Files merged successfully")), ("output_file", Str("merged_output.csv"))])
    case Err(e) => FirstPass.Failure(Message(e))
  }

  /** A dict of at least two readable paths is read key by key, and then the
      preview's `file_paths[0]` raises `KeyError(0)`: the merge fails with
      the message "0" (mapping.py:35-39). */
  lemma DictPathsFail(props: Props, renames: Props, disk: Disk)
    requires |DictOf(props)| >= 2
    requires Sequence(ReadItems(Strs(Keys(DictOf(props))), disk)).Ok?
    ensures MergeSpec(Obj(props), renames, disk) == Err(MissingKey(0))
    ensures Message(MissingKey(0)) == "0"
  {
    var items := Strs(Keys(DictOf(props)));
    assert PathItems(Obj(props)) == Ok(items);
  }

  /** A list of stored paths, as the server passes them. */
  function PathsArgument(paths: seq<Path>): Json {
    Arr(Strs(paths))
  }

  lemma ReadItemsOfPaths(paths: seq<Path>, disk: Disk, i: nat)
    requires i < |paths|
    ensures ReadItems(Strs(paths), disk)[i] == ReadFile(paths[i], disk)
  {
  }

  /** Fewer than two paths is refused with that message, and it is the only
      way to get it: every read failure names its file and a repeated name
      is reported as such. */
  lemma TooFewIffFewerThanTwo(paths: seq<Path>, renames: Props, disk: Disk)
    ensures MergeSpec(PathsArgument(paths), renames, disk) == Err(TooFewFiles) <==> |paths| < 2
  {
    var r := MergeSpec(PathsArgument(paths), renames, disk);
    MergeOfPaths(paths, renames, disk);
    if |paths| >= 2 {
      if Sequence(ReadItems(Strs(paths), disk)).Err? {
        ReadFailureNamesFile(paths, disk);
        assert r.error.ReadFailed?;
      } else {
        assert r.Ok? || r.error == DuplicateLabels;
      }
    }
  }

  /** The merge of a list of stored paths, guard by guard. */
  lemma MergeOfPaths(paths: seq<Path>, renames: Props, disk: Disk)
    ensures |paths| < 2 ==> MergeSpec(PathsArgument(paths), renames, disk) == Err(TooFewFiles)
    ensures |paths| >= 2 && Sequence(ReadItems(Strs(paths), disk)).Err? ==>
      MergeSpec(PathsArgument(paths), renames, disk) == Err(Sequence(ReadItems(Strs(paths), disk)).error)
    ensures |paths| >= 2 && Sequence(ReadItems(Strs(paths), disk)).Ok? ==>
      MergeSpec(PathsArgument(paths), renames, disk).Ok? ||
      MergeSpec(PathsArgument(paths), renames, disk) == Err(DuplicateLabels)
  {
  }

  /** A failed read is reported with the file it concerns. */
  lemma ReadFailureNamesFile(paths: seq<Path>, disk: Disk)
    requires Sequence(ReadItems(Strs(paths), disk)).Err?
    ensures Sequence(ReadItems(Strs(paths), disk)).error.ReadFailed?
  {
    var i := FirstError(ReadItems(Strs(paths), disk));
    ReadItemsOfPaths(paths, disk, i);
    ReadFileChecks(paths[i], disk);
  }

  /** When there are at least two paths, the first one that cannot be read
      decides the failure, whatever the later ones hold (mapping.py:35). */
  lemma FirstReadFailure(paths: seq<Path>, renames: Props, disk: Disk, i: nat)
    requires 2 <= |paths| && i < |paths| && ReadFile(paths[i], disk).Err?
    requires forall j :: 0 <= j < i ==> ReadFile(paths[j], disk).Ok?
    ensures MergeSpec(PathsArgument(paths), renames, disk) == Err(ReadFile(paths[i], disk).error)
  {
    var rs := ReadItems(Strs(paths), disk);
    ReadsOfPaths(paths, disk);
    var i' := FirstError(rs);
    assert i' == i;
  }

  lemma ReadsOfPaths(paths: seq<Path>, disk: Disk)
    ensures forall j :: 0 <= j < |paths| ==> ReadItems(Strs(paths), disk)[j] == ReadFile(paths[j], disk)
  {
    forall j | 0 <= j < |paths| ensures ReadItems(Strs(paths), disk)[j] == ReadFile(paths[j], disk) {
      ReadItemsOfPaths(paths, disk, j);
    }
  }

  /** Every file reads as a table. */
  lemma AllRead(paths: seq<Path>, disk: Disk, ts: seq<Table>)
    requires |ts| == |paths|
    requires forall i :: 0 <= i < |paths| ==> ReadFile(paths[i], disk) == Ok(ts[i])
    ensures Sequence(ReadItems(Strs(paths), disk)) == Ok(ts)
  {
    var rs := ReadItems(Strs(paths), disk);
    ReadsOfPaths(paths, disk);
    assert forall i :: 0 <= i < |rs| ==> rs[i] == Ok(ts[i]);
    assert Sequence(rs).value == ts;
  }

  /** Once every file is read, the merge is decided by the tables alone. */
  lemma MergeAfterReads(paths: seq<Path>, renames: Props, disk: Disk, ts: seq<Table>)
    requires 2 <= |paths| && Sequence(ReadItems(Strs(paths), disk)) == Ok(ts)
    ensures MergeSpec(PathsArgument(paths), renames, disk) ==
      if HasRepeatedName(RenameEach(ts, renames)) then Err(DuplicateLabels) else Ok(Combine(RenameEach(ts, renames)))
  {
  }

  /** When every file reads and no table ends up with a name twice, the merge
      succeeds with exactly as many rows as were read, over the union of the
      renamed names. */
  lemma MergeKeepsEveryRow(paths: seq<Path>, renames: Props, disk: Disk, ts: seq<Table>)
    requires 2 <= |paths| && |ts| == |paths|
    requires forall i :: 0 <= i < |paths| ==> ReadFile(paths[i], disk) == Ok(ts[i])
    requires !HasRepeatedName(RenameEach(ts, renames))
    ensures MergeSpec(PathsArgument(paths), renames, disk) == Ok(Combine(RenameEach(ts, renames)))
    ensures |Combine(RenameEach(ts, renames)).rows| == RowCount(ts)
  {
    AllRead(paths, disk, ts);
    MergeAfterReads(paths, renames, disk, ts);
    var renamed := RenameEach(ts, renames);
    CombineLayout(renamed);
    SameRowCount(ts, renamed);
  }

  lemma {:induction false} SameRowCount(ts: seq<Table>, us: seq<Table>)
    requires |ts| == |us| && forall k :: 0 <= k < |ts| ==> |us[k].rows| == |ts[k].rows|
    ensures RowCount(us) == RowCount(ts)
  {
    if ts != [] {
      SameRowCount(ts[1..], us[1..]);
    }
  }

  /** Two headers renamed to the same name make the merge fail. */
  lemma CollidingRenames(paths: seq<Path>, renames: Props, disk: Disk, ts: seq<Table>, k: nat)
    requires 2 <= |paths| && |ts| == |paths|
    requires forall i :: 0 <= i < |paths| ==> ReadFile(paths[i], disk) == Ok(ts[i])
    requires k < |ts| && !NoDuplicates(Rename(ts[k], renames).columns)
    ensures MergeSpec(PathsArgument(paths), renames, disk) == Err(DuplicateLabels)
  {
    AllRead(paths, disk, ts);
    MergeAfterReads(paths, renames, disk, ts);
    assert RenameEach(ts, renames)[k] == Rename(ts[k], renames);
  }

  /** `main` (mapping.py:77-107): `args` are the arguments after the script
      name, each as `json.loads` reads it. The mapping must be a dict (its
      `.items()` is called); a failed merge is printed with exit status 0. */
  function MappingMain(args: seq<Result<Json, string>>, disk: Disk): FirstPass.Outcome {
    if |args| < 2 then FirstPass.Outcome(1, FirstPass.Failure("No column matches or file paths received"))
    else match (args[0], args[1])
      case (Err(m), _) => FirstPass.Outcome(1, FirstPass.Failure(m))
      case (Ok(_), Err(m)) => FirstPass.Outcome(1, FirstPass.Failure(m))
      case (Ok(matches), Ok(filePaths)) =>
        if !matches.Obj? then
          FirstPass.Outcome(1, FirstPass.Failure("'" + PyTypeName(matches) + "' object has no attribute 'items'"))
        else FirstPass.Outcome(0, Report(MergeSpec(filePaths, DictOf(matches.props), disk)))
  }

  /** As written, the exit status only says whether the arguments were
      usable: once the mapping is a dict, the status is 0 whatever the merge
      did, and the report carries the outcome. */
  lemma MainExitStatus(args: seq<Result<Json, string>>, disk: Disk)
    ensures MappingMain(args, disk).exitCode == 0 <==>
      |args| >= 2 && args[0].Ok? && args[1].Ok? && args[0].value.Obj?
    ensures |args| < 2 ==> MappingMain(args, disk) == FirstPass.Outcome(1, FirstPass.Failure("No column matches or file paths received"))
  {
  }

  /** A run the server starts with a single stored file exits with status 0
      although the merge failed and the report says so. */
  lemma SingleFileExitsZero(matches: Props, p: Path, disk: Disk)
    ensures MappingMain([Ok(Obj(matches)), Ok(PathsArgument([p]))], disk) ==
      FirstPass.Outcome(0, FirstPass.Failure(Message(TooFewFiles)))
    ensures !FirstPass.Succeeded(MappingMain([Ok(Obj(matches)), Ok(PathsArgument([p]))], disk).report)
  {
    TooFewIffFewerThanTwo([p], DictOf(matches), disk);
    FirstPass.FailureFails(Message(TooFewFiles));
  }

  /** `main` as evidently intended, as merge.py does it: a failed merge exits
      with status 1, so the exit status tells success from failure. */
  function MappingMainReportingFailure(args: seq<Result<Json, string>>, disk: Disk): FirstPass.Outcome {
    var o := MappingMain(args, disk);
    if o.exitCode == 0 && !FirstPass.Succeeded(o.report) then FirstPass.Outcome(1, o.report) else o
  }

  /** With the correction, status 0 means the merge succeeded, and on a list
      of stored paths it happens exactly when the merge does. */
  lemma ReportingFailureExitStatus(args: seq<Result<Json, string>>, disk: Disk)
    ensures MappingMainReportingFailure(args, disk).exitCode == 0 <==> FirstPass.Succeeded(MappingMainReportingFailure(args, disk).report)
    ensures MappingMainReportingFailure(args, disk).report == MappingMain(args, disk).report
    ensures |args| >= 2 && args[0].Ok? && args[0].value.Obj? && args[1].Ok? ==>
      (MappingMainReportingFailure(args, disk).exitCode == 0 <==>
       MergeSpec(args[1].value, DictOf(args[0].value.props), disk).Ok?)
  {
    if |args| < 2 {
      FirstPass.FailureFails("No column matches or file paths received");
    } else if args[0].Err? {
      FirstPass.FailureFails(args[0].error);
    } else if args[1].Err? {
      FirstPass.FailureFails(args[1].error);
    } else if !args[0].value.Obj? {
      FirstPass.FailureFails("'" + PyTypeName(args[0].value) + "' object has no attribute 'items'");
    } else {
      var r := MergeSpec(args[1].value, DictOf(args[0].value.props), disk);
      if r.Ok? {
        assert Lookup(Report(r).props, "success") == Some(Bool(true));
      } else {
        FirstPass.FailureFails(Message(r.error));
      }
    }
  }
}
