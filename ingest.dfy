/** What both workers do to turn a stored upload into a table: pick a reader
    by the lower-cased extension, and for JSON documents normalise the
    document's shape into a list of records before building the table
    (merge.py:12-25 and mapping.py:15-22, which are the same code).

    The parsers themselves (`pd.read_csv`, `pd.read_excel`, `json.load`) are
    not modelled: a stored file is described by what each of them yields for
    it, a value or the message of the exception it raises. */
module Ingest {
  import opened Base
  import opened Json
  import opened Paths
  import opened Tables

  /** What the three parsers yield for one stored file. */
  datatype Content = Content(
    delimited: Result<Table, string>,
    sheet: Result<Table, string>,
    document: Result<Json, string>)

  /** The files on disk, by path. */
  type Disk = map<Path, Content>

  datatype Format = Delimited | Sheet | Document

  /** The reader chosen for a lower-cased extension (merge.py:36-43,
      mapping.py:11-24). */
  function FormatOf(ext: string): Option<Format> {
    if ext == ".csv" then Some(Delimited)
    else if ext == ".json" then Some(Document)
    else if ext == ".xlsx" || ext == ".xls" then Some(Sheet)
    else None
  }

  /** Exactly the four extensions the upload filter allows have a reader. */
  lemma FormatOfAllowed(ext: string)
    ensures FormatOf(ext).Some? <==> ext in Allowed
    ensures FormatOf(ext) == Some(Delimited) <==> ext == ".csv"
    ensures FormatOf(ext) == Some(Document) <==> ext == ".json"
    ensures FormatOf(ext) == Some(Sheet) <==> ext == ".xlsx" || ext == ".xls"
  {
  }

  /** The extension a worker dispatches on. */
  function WorkerExtension(p: Path): string {
    Lower(SplitExt(p))
  }

  /** Every upload the server accepts is stored under a path whose extension
      a worker can read: the server's filter and the workers' dispatch agree
      on the same four formats. */
  lemma AcceptedUploadHasReader(tempPath: Path, originalName: string)
    requires PlainTempPath(tempPath)
    ensures FormatOf(WorkerExtension(StoredPath(tempPath, originalName))).Some? <==> Accepts(originalName)
  {
    StoredExtension(tempPath, originalName);
    FormatOfAllowed(WorkerExtension(StoredPath(tempPath, originalName)));
  }

  /** The dict `json.load` builds from an object's members: a repeated key
      keeps its first position and its last value. */
  function DictOf(props: Props): (d: Props)
    ensures DistinctKeys(d)
    ensures forall k :: Lookup(d, k) == Lookup(props, k)
  {
    CopyAllLookup([], props);
    CopyAll([], props)
  }

  /** Python's name for the type of a parsed JSON value. */
  function PyTypeName(j: Json): string {
    match j
    case Null => "NoneType"
    case Bool(_) => "bool"
    case Num(_) => "int"
    case Str(_) => "str"
    case Arr(_) => "list"
    case Obj(_) => "dict"
  }

  /** The one-character strings a loop over a Python string visits. */
  function Characters(s: string): (cs: seq<string>)
    ensures |cs| == |s|
    ensures forall i :: 0 <= i < |s| ==> cs[i] == [s[i]]
  {
    seq(|s|, i requires 0 <= i < |s| => [s[i]])
  }

  /** What a loop over a parsed JSON value visits in Python: a list's items,
      a string's one-character strings, a dict's keys. `None`, booleans and
      numbers cannot be iterated. */
  function Elements(j: Json): (r: Option<seq<Json>>)
    ensures r.None? <==> j.Null? || j.Bool? || j.Num?
    ensures j.Obj? ==> r == Some(Strs(Keys(DictOf(j.props))))
  {
    match j
    case Arr(items) => Some(items)
    case Str(s) => Some(Strs(Characters(s)))
    case Obj(props) => Some(Strs(Keys(DictOf(props))))
    case _ => None
  }

  /** A non-empty list, string or object has something to visit: an object's
      first key survives into its dict. */
  lemma ElementsOfNonEmpty(j: Json)
    requires j.Arr? || j.Str? || j.Obj?
    ensures |Elements(j).value| == 0 <==> j == Arr([]) || j == Str("") || j == Obj([])
  {
    if j.Obj? && j.props != [] {
      var k := j.props[0].0;
      assert Keys(j.props)[0] == k;
      assert Lookup(DictOf(j.props), k).Some?;
    }
  }

  /** The first value of `d`, in iteration order, that is a list. */
  function FirstList(d: Props): (r: Option<seq<Json>>)
    ensures r.None? <==> forall i :: 0 <= i < |d| ==> !d[i].1.Arr?
    ensures r.Some? ==> exists i :: 0 <= i < |d| && d[i].1 == Arr(r.value) && forall j :: 0 <= j < i ==> !d[j].1.Arr?
  {
    if d == [] then None
    else if d[0].1.Arr? then Some(d[0].1.items)
    else
      var r := FirstList(d[1..]);
      assert forall i :: 1 <= i < |d| ==> d[i] == d[1..][i - 1];
      r
  }

  /** The records a JSON document is read as (merge.py:18-22): an object
      gives the items of its first list-valued entry, a list gives its items,
      and anything else (an object without list values included) is a single
      record. */
  function Records(doc: Json): seq<Json> {
    match doc
    case Obj(props) =>
      (match FirstList(DictOf(props))
       case Some(items) => items
       case None => [doc])
    case Arr(items) => items
    case _ => [doc]
  }

  /** An object yields the items of the first entry, in iteration order,
      whose value is a list. */
  lemma RecordsOfObject(props: Props, i: nat)
    requires i < |DictOf(props)| && DictOf(props)[i].1.Arr?
    requires forall j :: 0 <= j < i ==> !DictOf(props)[j].1.Arr?
    ensures Records(Obj(props)) == DictOf(props)[i].1.items
  {
    var d := DictOf(props);
    var r := FirstList(d);
    var i' :| 0 <= i' < |d| && d[i'].1 == Arr(r.value) && forall j :: 0 <= j < i' ==> !d[j].1.Arr?;
    assert i' == i;
  }

  /** An object none of whose keys holds a list is one record. */
  lemma RecordsOfObjectWithoutList(props: Props)
    requires forall k :: Lookup(props, k).Some? ==> !Lookup(props, k).value.Arr?
    ensures Records(Obj(props)) == [Obj(props)]
  {
    var d := DictOf(props);
    forall i | 0 <= i < |d| ensures !d[i].1.Arr? {
      LookupAt(d, i);
      assert Lookup(props, d[i].0) == Some(d[i].1);
    }
  }

  /** A list is one record per element; any other non-object value is one
      record. */
  lemma RecordsOfNonObject(doc: Json)
    requires !doc.Obj?
    ensures doc.Arr? ==> Records(doc) == doc.items
    ensures !doc.Arr? ==> |Records(doc)| == 1 && Records(doc)[0] == doc
  {
  }

  /** pandas stores JSON `null` as a missing value. */
  function CellOf(v: Json): Cell {
    if v.Null? then Absent else Present(v)
  }

  /** The value `pd.DataFrame(records)` holds for one record under one column
      label: a dict record under the label of one of its keys, a list record
      under the position of one of its items, a scalar record under column 0;
      missing everywhere else. */
  function CellFor(record: Json, col: Json): Cell {
    match record
    case Obj(props) =>
      if col.Str? && Lookup(props, col.s).Some? then CellOf(Lookup(props, col.s).value) else Absent
    case Arr(items) =>
      if col.Num? && 0 <= col.n < |items| then CellOf(items[col.n]) else Absent
    case _ =>
      if col == Num(0) then CellOf(record) else Absent
  }

  predicate IsScalar(j: Json) {
    !j.Obj? && !j.Arr?
  }

  predicate AllDicts(records: seq<Json>) {
    forall i :: 0 <= i < |records| ==> records[i].Obj?
  }

  predicate AllLists(records: seq<Json>) {
    forall i :: 0 <= i < |records| ==> records[i].Arr?
  }

  predicate AllScalars(records: seq<Json>) {
    forall i :: 0 <= i < |records| ==> IsScalar(records[i])
  }

  /** The key labels of every dict record, record by record. */
  function DictKeyGroups(records: seq<Json>): (g: seq<seq<Json>>)
    requires AllDicts(records)
    ensures |g| == |records|
    ensures forall i :: 0 <= i < |records| ==> g[i] == Strs(Keys(DictOf(records[i].props)))
  {
    seq(|records|, i requires 0 <= i < |records| => Strs(Keys(DictOf(records[i].props))))
  }

  /** Widest list record. */
  function MaxWidth(records: seq<Json>): (w: nat)
    requires AllLists(records)
    ensures forall i :: 0 <= i < |records| ==> |records[i].items| <= w
    ensures records != [] ==> exists i :: 0 <= i < |records| && |records[i].items| == w
  {
    if records == [] then 0
    else
      var w := MaxWidth(records[1..]);
      assert forall i :: 1 <= i < |records| ==> records[i] == records[1..][i - 1];
      if |records[0].items| >= w then |records[0].items| else w
  }

  function Positions(n: nat): (ps: seq<Json>)
    ensures |ps| == n
    ensures forall j :: 0 <= j < n ==> ps[j] == Num(j)
  {
    seq(n, j requires 0 <= j < n => Num(j))
  }

  /** The columns `pd.DataFrame(records)` gets: the keys of dict records in
      first-seen order, the positions up to the widest list record, or the
      single column 0 for scalar records. Records of different shapes are
      not given a table here. */
  function FrameColumns(records: seq<Json>): Option<seq<Json>> {
    if AllDicts(records) then Some(KeepFirst(Flatten(DictKeyGroups(records))))
    else if AllLists(records) then Some(Positions(MaxWidth(records)))
    else if AllScalars(records) then Some([Num(0)])
    else None
  }

  function FrameRow(record: Json, columns: seq<Json>): (row: Row)
    ensures |row| == |columns|
    ensures forall j :: 0 <= j < |columns| ==> row[j] == CellFor(record, columns[j])
  {
    seq(|columns|, j requires 0 <= j < |columns| => CellFor(record, columns[j]))
  }

  /** `pd.DataFrame(records)`. */
  function Frame(records: seq<Json>): (r: Result<Table, string>)
    ensures r.Err? <==> FrameColumns(records).None?
    ensures r.Ok? ==> |r.value.rows| == |records|
    ensures r.Ok? ==> forall i :: 0 <= i < |records| ==> r.value.rows[i] == FrameRow(records[i], r.value.columns)
  {
    match FrameColumns(records)
    case None => Err("records of mixed shapes")
    case Some(columns) =>
      Ok(Table(columns, seq(|records|, i requires 0 <= i < |records| => FrameRow(records[i], columns))))
  }

  lemma DictColumnsMembers(records: seq<Json>, c: Json)
    requires AllDicts(records)
    ensures c in KeepFirst(Flatten(DictKeyGroups(records))) <==>
      exists i :: 0 <= i < |records| && c.Str? && c.s in Keys(records[i].props)
  {
    var g := DictKeyGroups(records);
    KeepFirstMembers(Flatten(g), c);
    FlattenMembers(g, c);
    forall i | 0 <= i < |records|
      ensures c in g[i] <==> c.Str? && c.s in Keys(records[i].props)
    {
      var d := DictOf(records[i].props);
      if c.Str? {
        assert Lookup(d, c.s) == Lookup(records[i].props, c.s);
        if c.s in Keys(d) {
          assert g[i][FirstIndex(Keys(d), c.s)] == c;
        }
      }
    }
  }

  /** A table built from dict records has one column per key that some
      record has, no column twice, and each record's value under each of its
      keys; a key a record lacks reads as missing. */
  lemma FrameOfDicts(records: seq<Json>)
    requires AllDicts(records)
    ensures Frame(records).Ok?
    ensures NoDuplicates(Frame(records).value.columns)
    ensures forall c :: c in Frame(records).value.columns <==>
      exists i :: 0 <= i < |records| && c.Str? && c.s in Keys(records[i].props)
    ensures forall i, k :: 0 <= i < |records| && Lookup(records[i].props, k).Some? ==>
      CellAt(Frame(records).value.columns, Frame(records).value.rows[i], Str(k)) == CellOf(Lookup(records[i].props, k).value)
  {
    var cols := KeepFirst(Flatten(DictKeyGroups(records)));
    assert FrameColumns(records) == Some(cols);
    var t := Frame(records).value;
    assert t.columns == cols;
    KeepFirstNoDuplicates(Flatten(DictKeyGroups(records)));
    forall c ensures c in cols <==> exists i :: 0 <= i < |records| && c.Str? && c.s in Keys(records[i].props) {
      DictColumnsMembers(records, c);
    }
    forall i, k | 0 <= i < |records| && Lookup(records[i].props, k).Some?
      ensures CellAt(cols, t.rows[i], Str(k)) == CellOf(Lookup(records[i].props, k).value)
    {
      DictColumnsMembers(records, Str(k));
      DictCell(records[i], cols, k);
    }
  }

  /** A dict record's row holds, under the label of each of its keys, the
      value of that key. */
  lemma DictCell(record: Json, cols: seq<Json>, k: string)
    requires record.Obj? && Str(k) in cols && Lookup(record.props, k).Some?
    ensures CellAt(cols, FrameRow(record, cols), Str(k)) == CellOf(Lookup(record.props, k).value)
  {
    var j := FirstIndex(cols, Str(k));
    assert FrameRow(record, cols)[j] == CellFor(record, Str(k));
  }

  /** One table row per record, whatever the document's shape. */
  lemma FrameRowCount(doc: Json)
    requires Frame(Records(doc)).Ok?
    ensures |Frame(Records(doc)).value.rows| == |Records(doc)|
    ensures !doc.Obj? && !doc.Arr? ==> |Frame(Records(doc)).value.rows| == 1
  {
  }

  /** The table a parser yields for one file, given the reader. */
  function Parse(content: Content, f: Format): Result<Table, string> {
    match f
    case Delimited => content.delimited
    case Sheet => content.sheet
    case Document =>
      match content.document
      case Err(m) => Err(m)
      case Ok(doc) => Frame(Records(doc))
  }
}
