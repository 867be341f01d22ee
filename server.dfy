/** The web server (app.js): the two module-level variables that make up the
    session, `uploadedFiles` and `columnMatches`, and the five handlers that
    read and reassign them. The workers' exit status and printed output, the
    file system and the body parser's result are inputs to the handlers. */
module Server {
  import opened Base
  import opened Json
  import opened Paths
  import opened Ingest
  import FirstPass
  import Mapping

  /** JavaScript truthiness of a JSON value: `null`, `false`, `0` and `""`
      are falsy; every array and object, even an empty one, is truthy. */
  predicate Truthy(j: Json) {
    !(j == Null || j == Bool(false) || j == Num(0) || j == Str(""))
  }

  /** Truthiness of a value that may be `undefined` (`None`). */
  predicate Defined(o: Option<Json>) {
    o.Some? && Truthy(o.value)
  }

  /** The `typeof` operator. */
  function TypeOf(j: Json): string {
    match j
    case Null => "object"
    case Bool(_) => "boolean"
    case Num(_) => "number"
    case Str(_) => "string"
    case Arr(_) => "object"
    case Obj(_) => "object"
  }

  /** Reading property `k` of a parsed value that is not `null`: only an
      object has the named properties used here. */
  function Member(j: Json, k: string): (r: Option<Json>)
    ensures r.Some? ==> j.Obj? && k in Keys(j.props)
  {
    if j.Obj? then Lookup(j.props, k) else None
  }

  /** Own enumerable properties of an array or string: the decimal index
      of each element, in order. */
  function IndexEntries(items: seq<Json>): (ps: Props)
    ensures |ps| == |items|
    ensures forall i :: 0 <= i < |items| ==> ps[i] == (NatToString(i), items[i])
  {
    seq(|items|, i requires 0 <= i < |items| => (NatToString(i), items[i]))
  }

  lemma IndexEntriesDistinct(items: seq<Json>)
    ensures DistinctKeys(IndexEntries(items))
  {
    var ks := Keys(IndexEntries(items));
    forall i, j | 0 <= i < j < |ks| ensures ks[i] != ks[j] {
      if ks[i] == ks[j] {
        NatToStringInjective(i, j);
      }
    }
  }

  /** What object spread and `Object.keys` see of a value: an object its
      properties (a repeated key once, at its first place, with its last
      value), an array or string its indexed elements, anything else —
      `undefined` included — nothing. */
  function Own(o: Option<Json>): (ps: Props)
    ensures DistinctKeys(ps)
  {
    match o
    case None => []
    case Some(j) =>
      match j
      case Obj(props) => DictOf(props)
      case Arr(items) => IndexEntriesDistinct(items); IndexEntries(items)
      case Str(s) => IndexEntriesDistinct(Strs(Characters(s))); IndexEntries(Strs(Characters(s)))
      case _ => []
  }

  /** `{ ...current, ...update }` (app.js:147): an empty object receives the
      own properties of `current`, then those of `update`. */
  function Spread(current: Option<Json>, update: Json): Props {
    CopyAll(CopyAll([], Own(current)), Own(Some(update)))
  }

  /** What one HTTP response carries. `link` is the `redirectUrl` or
      `downloadUrl` field; `matches` the echoed `updatedMatches`. */
  datatype Reply =
    | JsonReply(status: nat, success: bool, message: string, link: Option<string>, matches: Option<Json>)
    | Text(status: nat, text: string)
    | Page(columnMatches: Json)
    | File(name: string)

  function Failed(status: nat, message: string): Reply {
    JsonReply(status, false, message, None, None)
  }

  /** One file of a multipart upload: the name the client gave it and the
      temporary path the upload middleware wrote it to. */
  datatype Upload = Upload(originalName: string, tempPath: Path)

  /** Every file passes the upload filter (app.js:21-28). */
  predicate AllAccepted(files: seq<Upload>) {
    forall i :: 0 <= i < |files| ==> Accepts(files[i].originalName)
  }

  /** The paths the uploads are renamed to (app.js:53-58). */
  function StoredPaths(files: seq<Upload>): (ps: seq<Path>)
    ensures |ps| == |files|
    ensures forall i :: 0 <= i < |files| ==> ps[i] == StoredPath(files[i].tempPath, files[i].originalName)
  {
    seq(|files|, i requires 0 <= i < |files| => StoredPath(files[i].tempPath, files[i].originalName))
  }

  /** How the server judges a finished worker run. */
  datatype Verdict = Accept(matches: Option<Json>) | Refuse(status: nat, message: string)

  /** The `close` handler of the merge worker (app.js:79-118): `output` is
      what `JSON.parse` makes of the collected stdout, or its error. */
  function ClassifyMerge(code: int, output: Result<Json, string>): (v: Verdict)
    ensures v.Accept? <==> code == 0 && output.Ok? && Defined(Member(output.value, "success"))
    ensures v.Accept? ==> v.matches == Member(output.value, "column_matches")
    ensures code != 0 ==> v == Refuse(500, "Error merging files")
    ensures code == 0 && (output.Err? || output.value == Null) ==> v == Refuse(500, "Error processing merge results")
    ensures code == 0 && output.Ok? && output.value != Null && !Defined(Member(output.value, "success")) ==>
      v == Refuse(500, "Error in merge process")
  {
    if code != 0 then Refuse(500, "Error merging files")
    else match output
      case Err(_) => Refuse(500, "Error processing merge results")
      case Ok(result) =>
        // reading a property of `null` throws, and the catch answers
        if result == Null then Refuse(500, "Error processing merge results")
        else if Defined(Member(result, "success")) then Accept(Member(result, "column_matches"))
        else Refuse(500, "Error in merge process")
  }

  function MergeReply(v: Verdict): Reply {
    match v
    case Accept(_) => JsonReply(200, true, "Files processed successfully", Some("/columns"), None)
    case Refuse(status, message) => Failed(status, message)
  }

  /** The edit endpoint's payload check (app.js:140): it lets through
      exactly the arrays and objects. */
  function AcceptsPayload(j: Json): (ok: bool)
    ensures ok <==> j.Arr? || j.Obj?
  {
    Truthy(j) && TypeOf(j) == "object"
  }

  /** The refusal test of `/columns` (app.js:168), negated: the stored
      value is truthy and has at least one own key. */
  predicate ShowsColumns(cm: Option<Json>) {
    Defined(cm) && |Own(cm)| != 0
  }

  /** The page renders exactly for a non-empty object, array or string: an
      empty object, `undefined` and every scalar are refused. */
  lemma ShowsColumnsIff(cm: Option<Json>)
    ensures ShowsColumns(cm) <==> (cm.Some? &&
      ((cm.value.Obj? && cm.value.props != []) || (cm.value.Arr? && cm.value.items != []) || (cm.value.Str? && cm.value.s != [])))
  {
    if cm.Some? && cm.value.Obj? && cm.value.props != [] {
      var ps := cm.value.props;
      assert ps[0].0 in Keys(ps);
      assert Lookup(DictOf(ps), ps[0].0).Some?;
    }
  }

  /** What the submit endpoint answers and which worker arguments it starts
      the mapping worker with, if it starts it. */
  datatype Submission = Submission(reply: Reply, worker: Option<seq<Json>>)

  /** The submit endpoint (app.js:176-235) given the stored paths and the
      worker's exit status. */
  function Submit(body: Json, files: seq<Path>, code: int): Submission {
    if body == Null then
      // destructuring `null` throws, and the catch answers
      Submission(Failed(500, "Internal server error"), None)
    else
      var cm := Member(body, "columnMatches");
      if !Defined(cm) then Submission(Failed(400, "Column matches not provided"), None)
      else if files == [] then Submission(Failed(400, "No files available from the previous merge"), None)
      else
        var reply :=
          if code != 0 then Failed(500, "Error in processing column matches")
          else JsonReply(200, true, "Column matches processed successfully by Python script", Some("/download"), None);
        Submission(reply, Some([cm.value, Mapping.PathsArgument(files)]))
  }

  /** One attempt of the deletion loop: the path, and whether `unlinkSync`
      removed it or threw (and the error was logged). */
  datatype Attempt = Attempt(path: Path, deleted: bool)

  /** The deletion loop (app.js:250-257) over `existing` paths: each path in
      turn is removed if it is still there; a missing one is logged and the
      loop goes on. */
  function Deletions(paths: seq<Path>, existing: set<Path>): (set<Path>, seq<Attempt>)
    decreases |paths|
  {
    if paths == [] then (existing, [])
    else
      var before := Deletions(paths[..|paths| - 1], existing);
      var p := paths[|paths| - 1];
      (before.0 - {p}, before.1 + [Attempt(p, p in before.0)])
  }

  /** An edit is a shallow merge (app.js:147): no key is repeated, a key the
      payload has takes the payload's value, any other key keeps its stored
      value, and the stored keys keep their places at the front. */
  lemma ShallowMerge(current: Option<Json>, update: Json)
    ensures DistinctKeys(Spread(current, update))
    ensures forall k :: Lookup(Spread(current, update), k) == (if k in Keys(Own(Some(update)))
      then Lookup(Own(Some(update)), k) else Lookup(Own(current), k))
    ensures |Own(current)| <= |Spread(current, update)|
    ensures Keys(Spread(current, update))[..|Own(current)|] == Keys(Own(current))
  {
    var base := Own(current);
    assert [] + base == base;
    CopyAllFresh([], base);
    CopyAllLookup(base, Own(Some(update)));
    CopyAllPrefix(base, Own(Some(update)));
  }

  /** Sending the same edit twice leaves what sending it once does. */
  lemma EditIdempotent(current: Option<Json>, update: Json)
    ensures Spread(Some(Obj(Spread(current, update))), update) == Spread(current, update)
  {
    var base := Own(current);
    var once := Spread(current, update);
    assert [] + base == base;
    CopyAllFresh([], base);
    ShallowMerge(current, update);
    assert [] + once == once;
    CopyAllFresh([], once);
    assert Own(Some(Obj(once))) == once;
    CopyAllIdempotent(base, Own(Some(update)));
  }

  /** The merge worker's own reports, as the server judges them: a failed
      merge is refused for its exit status, and a successful one is accepted
      with `column_matches` undefined, because the success report has no
      such key (merge.py:88-95), so `/columns` then refuses to render. */
  lemma FirstPassOutcomeClassified(paths: seq<Path>, cwd: Path, disk: Disk)
    ensures var o := FirstPass.MergeMain([Ok(Arr(Strs(paths)))], cwd, disk);
      var m := FirstPass.MergeSpec(FirstPass.Absolute(cwd, paths), disk);
      (ClassifyMerge(o.exitCode, Ok(o.report)).Accept? <==> m.Ok?) &&
      (m.Err? ==> ClassifyMerge(o.exitCode, Ok(o.report)) == Refuse(500, "Error merging files")) &&
      (m.Ok? ==> ClassifyMerge(o.exitCode, Ok(o.report)) == Accept(None) && !ShowsColumns(None))
  {
    var args: seq<Result<Json, string>> := [Ok(Arr(Strs(paths)))];
    FirstPass.MainOnPaths(args, cwd, disk, paths);
    var r := FirstPass.MergeSpec(FirstPass.Absolute(cwd, paths), disk);
    if r.Ok? {
      SummaryAccepted(r.value);
    }
  }

  /** The success report carries a true `success` and no `column_matches`. */
  lemma SummaryAccepted(s: FirstPass.Summary)
    ensures ClassifyMerge(0, Ok(FirstPass.SummaryJson(s))) == Accept(None)
  {
    var props := FirstPass.SummaryJson(s).props;
    assert Keys(props) == ["success", "message", "total_rows", "duplicates_removed", "columns", "filePath"];
    assert Lookup(props, "success") == Some(Bool(true));
    assert "column_matches" !in Keys(props);
  }

  /** The submit guards, in their order (app.js:178-191): a missing or falsy
      `columnMatches` is refused whatever is stored, an empty batch is refused
      next, neither starts the worker, and the worker is started exactly when
      both pass, with the body's matches (not the stored ones) and the stored
      paths. The reply then follows the worker's exit status alone. */
  lemma SubmitGuardOrder(body: Json, files: seq<Path>, code: int)
    ensures body != Null && !Defined(Member(body, "columnMatches")) ==>
      Submit(body, files, code) == Submission(Failed(400, "Column matches not provided"), None)
    ensures body != Null && Defined(Member(body, "columnMatches")) && files == [] ==>
      Submit(body, files, code) == Submission(Failed(400, "No files available from the previous merge"), None)
    ensures Submit(body, files, code).worker.Some? <==>
      body != Null && Defined(Member(body, "columnMatches")) && files != []
    ensures Submit(body, files, code).worker.Some? ==>
      Submit(body, files, code).worker.value == [Member(body, "columnMatches").value, Mapping.PathsArgument(files)] &&
      (Submit(body, files, code).reply.JsonReply? && Submit(body, files, code).reply.success <==> code == 0)
    ensures Submit(body, files, code).reply.JsonReply? && Submit(body, files, code).reply.success ==>
      Submit(body, files, code).reply.link == Some("/download")
  {
  }

  /** The worker arguments as the worker reads them back: `JSON.stringify`
      then `json.loads` gives every value back. */
  function Decoded(args: seq<Json>): (rs: seq<Result<Json, string>>)
    ensures |rs| == |args| && forall i :: 0 <= i < |args| ==> rs[i] == Ok(args[i])
  {
    seq(|args|, i requires 0 <= i < |args| => Ok(args[i]))
  }

  /** The body the column page sends. */
  function SubmitBody(matches: Props): Json {
    Obj([("columnMatches", Obj(matches))])
  }

  /** The submit endpoint with the mapping worker as written run on what it
      is given (app.js:195-225 with mapping.py:77-107). */
  function SubmitRun(body: Json, files: seq<Path>, disk: Disk): Submission {
    var worker := Submit(body, files, 0).worker;
    var code := if worker.Some? then Mapping.MappingMain(Decoded(worker.value), disk).exitCode else 0;
    Submit(body, files, code)
  }

  /** The same with the worker's exit status corrected. */
  function SubmitRunCorrected(body: Json, files: seq<Path>, disk: Disk): Submission {
    var worker := Submit(body, files, 0).worker;
    var code := if worker.Some? then Mapping.MappingMainReportingFailure(Decoded(worker.value), disk).exitCode else 0;
    Submit(body, files, code)
  }

  /** The column page's body passes both guards when a batch is stored. */
  lemma SubmitBodyPasses(matches: Props, files: seq<Path>, code: int)
    requires files != []
    ensures Submit(SubmitBody(matches), files, code).worker == Some([Obj(matches), Mapping.PathsArgument(files)])
    ensures Submit(SubmitBody(matches), files, code).reply ==
      if code != 0 then Failed(500, "Error in processing column matches")
      else JsonReply(200, true, "Column matches processed successfully by Python script", Some("/download"), None)
  {
    assert Member(SubmitBody(matches), "columnMatches") == Some(Obj(matches));
  }

  /** As written, a submit after a single-file upload is answered as a
      success with a download link, although the merge was refused for
      having fewer than two files and nothing new was written. */
  lemma SingleFileSubmitSucceeds(matches: Props, p: Path, disk: Disk)
    ensures Mapping.MergeSpec(Mapping.PathsArgument([p]), DictOf(matches), disk) == Err(Mapping.TooFewFiles)
    ensures SubmitRun(SubmitBody(matches), [p], disk) ==
      Submission(JsonReply(200, true, "Column matches processed successfully by Python script", Some("/download"), None),
                 Some([Obj(matches), Mapping.PathsArgument([p])]))
  {
    var args := [Obj(matches), Mapping.PathsArgument([p])];
    SubmitBodyPasses(matches, [p], 0);
    assert Decoded(args) == [Ok(Obj(matches)), Ok(Mapping.PathsArgument([p]))];
    Mapping.SingleFileExitsZero(matches, p, disk);
    SubmitBodyPasses(matches, [p], Mapping.MappingMain(Decoded(args), disk).exitCode);
    Mapping.TooFewIffFewerThanTwo([p], DictOf(matches), disk);
  }

  /** With the corrected worker, a submit is answered as a success exactly
      when the mapping merge of the stored files succeeds. */
  lemma CorrectedSubmitReportsMerge(matches: Props, files: seq<Path>, disk: Disk)
    requires files != []
    ensures SubmitRunCorrected(SubmitBody(matches), files, disk).reply.success <==>
      Mapping.MergeSpec(Mapping.PathsArgument(files), DictOf(matches), disk).Ok?
  {
    var args := [Obj(matches), Mapping.PathsArgument(files)];
    SubmitBodyPasses(matches, files, 0);
    assert Decoded(args) == [Ok(Obj(matches)), Ok(Mapping.PathsArgument(files))];
    var code := Mapping.MappingMainReportingFailure(Decoded(args), disk).exitCode;
    SubmitBodyPasses(matches, files, code);
    Mapping.ReportingFailureExitStatus(Decoded(args), disk);
  }

  /** The deletion loop tries every stored path, in order, none skipped; a
      path is deleted exactly when it still exists at its turn (it existed
      and no earlier entry named it); afterwards exactly the stored paths are
      gone from the file system. */
  lemma {:induction false} DeletionsSpec(paths: seq<Path>, existing: set<Path>)
    ensures |Deletions(paths, existing).1| == |paths|
    ensures forall i :: 0 <= i < |paths| ==>
      Deletions(paths, existing).1[i] == Attempt(paths[i], paths[i] in existing && paths[i] !in paths[..i])
    ensures forall p :: p in Deletions(paths, existing).0 <==> p in existing && p !in paths
    decreases |paths|
  {
    if paths != [] {
      var n := |paths| - 1;
      var init := paths[..n];
      DeletionsSpec(init, existing);
      var before := Deletions(init, existing);
      forall i | 0 <= i < |paths|
        ensures Deletions(paths, existing).1[i] == Attempt(paths[i], paths[i] in existing && paths[i] !in paths[..i])
      {
        if i < n {
          assert paths[..i] == init[..i];
          assert paths[i] == init[i];
        } else {
          assert paths[..i] == init;
        }
      }
      assert paths == init + [paths[n]];
    }
  }

  /** Every path a filtered batch is stored under has an extension a worker
      reads, and any other name would have been refused by the filter; the
      merge worker, which reads each path made absolute, sees the same
      extensions. */
  lemma StoredPathsReadable(files: seq<Upload>, cwd: Path)
    requires forall i :: 0 <= i < |files| ==> PlainTempPath(files[i].tempPath)
    ensures AllAccepted(files) <==>
      forall i :: 0 <= i < |files| ==> FormatOf(WorkerExtension(StoredPaths(files)[i])).Some?
    ensures forall i :: 0 <= i < |files| ==>
      WorkerExtension(AbsPath(cwd, StoredPaths(files)[i])) == WorkerExtension(StoredPaths(files)[i])
  {
    forall i | 0 <= i < |files|
      ensures FormatOf(WorkerExtension(StoredPaths(files)[i])).Some? <==> Accepts(files[i].originalName)
      ensures WorkerExtension(AbsPath(cwd, StoredPaths(files)[i])) == WorkerExtension(StoredPaths(files)[i])
    {
      AcceptedUploadHasReader(files[i].tempPath, files[i].originalName);
      AbsPathKeepsExtension(cwd, StoredPaths(files)[i]);
    }
  }

  /** The two module-level variables of app.js. `columnMatches` is `None`
      when it holds `undefined`. */
  class Session {
    var uploadedFiles: seq<Path>
    var columnMatches: Option<Json>

    /** The values the variables start with (app.js:37, 132). */
    constructor()
      ensures uploadedFiles == [] && columnMatches == Some(Obj([]))
    {
      uploadedFiles := [];
      columnMatches := Some(Obj([]));
    }

    /** `POST /api/merge` (app.js:39-129 and the error middleware at
        app.js:262-269). A file the filter rejects aborts the upload; an
        empty upload is refused; otherwise the stored paths replace the
        previous batch before the worker runs, and only an accepted worker
        result assigns `columnMatches`. */
    method Merge(files: seq<Upload>, code: int, output: Result<Json, string>) returns (reply: Reply)
      modifies this
      ensures !AllAccepted(files) ==> reply == Failed(500, "Server error") && unchanged(this)
      ensures AllAccepted(files) && files == [] ==> reply == Failed(400, "No files uploaded") && unchanged(this)
      ensures AllAccepted(files) && files != [] ==>
        uploadedFiles == StoredPaths(files) &&
        reply == MergeReply(ClassifyMerge(code, output)) &&
        columnMatches == (if ClassifyMerge(code, output).Accept? then ClassifyMerge(code, output).matches else old(columnMatches))
    {
      if !AllAccepted(files) {
        return Failed(500, "Server error");
      }
      if files == [] {
        return Failed(400, "No files uploaded");
      }
      uploadedFiles := StoredPaths(files);
      var verdict := ClassifyMerge(code, output);
      if verdict.Accept? {
        columnMatches := verdict.matches;
      }
      reply := MergeReply(verdict);
    }

    /** `POST /api/update-columns` (app.js:135-164): a payload that is not an
        array or object is refused and changes nothing; otherwise the stored
        matches become the shallow merge and are echoed back. */
    method UpdateColumns(payload: Json) returns (reply: Reply)
      modifies this
      ensures !(payload.Arr? || payload.Obj?) ==>
        reply == Failed(400, "Invalid data format. Expected an object with column matches.") && unchanged(this)
      ensures payload.Arr? || payload.Obj? ==>
        columnMatches == Some(Obj(Spread(old(columnMatches), payload))) &&
        uploadedFiles == old(uploadedFiles) &&
        reply == JsonReply(200, true, "Column matches updated successfully", None, columnMatches)
    {
      if !AcceptsPayload(payload) {
        return Failed(400, "Invalid data format. Expected an object with column matches.");
      }
      columnMatches := Some(Obj(Spread(columnMatches, payload)));
      reply := JsonReply(200, true, "Column matches updated successfully", None, columnMatches);
    }

    /** `GET /columns` (app.js:167-172): the page renders exactly when a
        non-empty object, array or string is stored. */
    method ColumnsPage() returns (reply: Reply)
      ensures reply.Page? <==> (columnMatches.Some? &&
        ((columnMatches.value.Obj? && columnMatches.value.props != []) ||
         (columnMatches.value.Arr? && columnMatches.value.items != []) ||
         (columnMatches.value.Str? && columnMatches.value.s != [])))
      ensures reply.Page? ==> reply == Page(columnMatches.value)
      ensures !reply.Page? ==> reply == Text(500, "No column matches available")
    {
      ShowsColumnsIff(columnMatches);
      if !ShowsColumns(columnMatches) {
        return Text(500, "No column matches available");
      }
      reply := Page(columnMatches.value);
    }

    /** `POST /api/submit-columns` (app.js:176-235): no variable changes. */
    method SubmitColumns(body: Json, code: int) returns (reply: Reply, worker: Option<seq<Json>>)
      ensures Submission(reply, worker) == Submit(body, uploadedFiles, code)
    {
      var s := Submit(body, uploadedFiles, code);
      reply, worker := s.reply, s.worker;
    }

    /** `GET /download` (app.js:237-260): when the file was sent, every
        stored path is deleted in turn from `existing`; `uploadedFiles`
        itself stays as it is. */
    method Download(sent: bool, existing: set<Path>) returns (reply: Reply, remaining: set<Path>, log: seq<Attempt>)
      ensures !sent ==> reply == Failed(500, "Error downloading file") && remaining == existing && log == []
      ensures sent ==> reply == File("merged_output.csv") && (remaining, log) == Deletions(uploadedFiles, existing)
    {
      remaining, log := existing, [];
      if !sent {
        return Failed(500, "Error downloading file"), remaining, log;
      }
      reply := File("merged_output.csv");
      var i := 0;
      while i < |uploadedFiles|
        invariant 0 <= i <= |uploadedFiles|
        invariant (remaining, log) == Deletions(uploadedFiles[..i], existing)
      {
        var p := uploadedFiles[i];
        ghost var before := Deletions(uploadedFiles[..i + 1], existing);
        assert uploadedFiles[..i + 1][..i] == uploadedFiles[..i];
        assert before == (remaining - {p}, log + [Attempt(p, p in remaining)]);
        var deleted := false;
        if p in remaining {
          remaining := remaining - {p};
          deleted := true;
        }
        log := log + [Attempt(p, deleted)];
        assert remaining == before.0;
        assert log == before.1;
        i := i + 1;
      }
      assert uploadedFiles[..|uploadedFiles|] == uploadedFiles;
    }
  }
}
