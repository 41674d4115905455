/**
 The Flask back end (api/app.py): the extension check, the upload handler
 that validates, stages and registers a job, the background job that runs
 the analysis over the staged files and settles the task record, and the
 status lookup.

 Per-image analysis is analyze_single_image from the command-line script
 (module PromptGenerate), with the same oracles. The wall clock, uuid
 generation, `secure_filename` and the file system are parameters.
 */
module ApiApp {
  import opened Strings
  import opened Tasks
  import opened PromptGenerate

  const AllowedExtensions: set<string> := {"png", "jpg", "jpeg", "gif", "bmp", "tiff"}
  const UploadFolder: string := "uploads"

  const NoFileSelected: string := "没有选择文件"
  const NoValidImages: string := "没有有效的图片文件"
  const TooManyFiles: string := "最多只能同时上传10张图片"
  const UploadFailedPrefix: string := "上传失败: "

  function TooLargeMessage(name: string): string {
    "文件 \"" + name + "\" 太大，请选择小于16MB的文件"
  }

  // ---------------------------------------------------------------- allowed_file

  /** The text after the last '.', if there is a '.' at all (`rsplit('.', 1)[1]`). */
  function Extension(f: string): (r: Option<string>)
    ensures r.None? <==> '.' !in f
    ensures r.Some? ==> ('.' !in r.value && |r.value| < |f| && f[|f| - |r.value| - 1] == '.'
      && f[|f| - |r.value|..] == r.value)
  {
    if f == [] then None
    else if f[|f| - 1] == '.' then Some("")
    else
      var init := f[..|f| - 1];
      assert f == init + [f[|f| - 1]];
      match Extension(init)
      case None => None
      case Some(e) => Some(e + [f[|f| - 1]])
  }

  /** allowed_file: there is a '.', and the lower-cased text after the last one is an allowed extension. */
  predicate AllowedFile(f: string) {
    Extension(f).Some? && Lower(Extension(f).value) in AllowedExtensions
  }

  /** Splitting at a '.' followed by a dot-free tail finds that tail. */
  lemma {:induction false} ExtensionOfSplit(a: string, e: string)
    requires '.' !in e
    ensures Extension(a + "." + e) == Some(e)
    decreases |e|
  {
    if e != [] {
      var init := e[..|e| - 1];
      assert a + "." + e == (a + "." + init) + [e[|e| - 1]];
      assert (a + "." + e)[..|a + "." + e| - 1] == a + "." + init;
      ExtensionOfSplit(a, init);
    } else {
      assert a + "." + e == a + ".";
    }
  }

  /** A name is allowed exactly when it is some text, a '.', and a dot-free
      tail whose lower-cased form is one of the six extensions. */
  lemma AllowedFileIff(f: string)
    ensures AllowedFile(f) <==>
      exists a, e :: f == a + "." + e && '.' !in e && Lower(e) in AllowedExtensions
  {
    if AllowedFile(f) {
      var e := Extension(f).value;
      var a := f[..|f| - |e| - 1];
      assert f == a + "." + e;
    }
    if exists a, e :: f == a + "." + e && '.' !in e && Lower(e) in AllowedExtensions {
      var a, e :| f == a + "." + e && '.' !in e && Lower(e) in AllowedExtensions;
      ExtensionOfSplit(a, e);
    }
  }

  // ---------------------------------------------------------------- upload_file

  /** One uploaded part: its client-side name and its size in bytes. */
  datatype Upload = Upload(filename: string, size: nat)

  /** What the handler answers: a redirect to the result page of a new
      task, or a redirect to the index with a flashed message. */
  datatype UploadReply = Redirected(taskId: string) | Flashed(message: string)

  /** A part that is kept: a non-empty name that passes allowed_file. */
  predicate ValidUpload(u: Upload) {
    u.filename != "" && AllowedFile(u.filename)
  }

  /** The parts that are kept, in submission order (`[f for f in files if …]`). */
  function ValidUploads(files: seq<Upload>): seq<Upload> {
    Filter(files, ValidUpload)
  }

  /** The kept parts are exactly the submitted parts with a non-empty allowed name. */
  lemma ValidUploadsMembers(files: seq<Upload>)
    ensures |ValidUploads(files)| <= |files|
    ensures forall u :: u in ValidUploads(files) <==> u in files && u.filename != "" && AllowedFile(u.filename)
  {
    FilterMembers(files, ValidUpload);
  }

  /** The comprehension keeps submission order and repeats: a single part is
      kept exactly when it is valid, and filtering distributes over
      concatenation. */
  lemma ValidUploadsAppend(a: seq<Upload>, b: seq<Upload>, u: Upload)
    ensures ValidUploads([u]) == if u.filename != "" && AllowedFile(u.filename) then [u] else []
    ensures ValidUploads(a + b) == ValidUploads(a) + ValidUploads(b)
  {
    FilterCons(u, [], ValidUpload);
    assert [u] + [] == [u];
    FilterAppend(a, b, ValidUpload);
  }

  /** The name of the first part over the size limit, if any. */
  function FirstTooLarge(files: seq<Upload>): (r: Option<string>)
    ensures r.None? <==> forall k :: 0 <= k < |files| ==> files[k].size <= MaxFileSize
    ensures r.Some? ==> exists k :: (0 <= k < |files| && files[k].size > MaxFileSize && files[k].filename == r.value
      && forall j :: 0 <= j < k ==> files[j].size <= MaxFileSize)
  {
    if files == [] then None
    else if files[0].size > MaxFileSize then Some(files[0].filename)
    else
      var r := FirstTooLarge(files[1..]);
      assert r.Some? ==> exists k :: (0 <= k < |files| && files[k].size > MaxFileSize && files[k].filename == r.value
        && forall j :: 0 <= j < k ==> files[j].size <= MaxFileSize)
      by {
        if r.Some? {
          var k :| 0 <= k < |files[1..]| && files[1..][k].size > MaxFileSize && files[1..][k].filename == r.value
            && forall j :: 0 <= j < k ==> files[1..][j].size <= MaxFileSize;
          assert files[k + 1] == files[1..][k];
          assert forall j :: 0 <= j < k + 1 ==> files[j].size <= MaxFileSize by {
            forall j | 0 <= j < k + 1 ensures files[j].size <= MaxFileSize {
              if j > 0 { assert files[j] == files[1..][j - 1]; }
            }
          }
        }
      }
      r
  }

  /** The message upload_file flashes before it writes anything, or None when the request passes. */
  function Rejection(files: Option<seq<Upload>>): Option<string> {
    if files.None? then Some(NoFileSelected)
    else if files.value == [] || (forall k :: 0 <= k < |files.value| ==> files.value[k].filename == "") then Some(NoFileSelected)
    else
      var valid := ValidUploads(files.value);
      if valid == [] then Some(NoValidImages)
      else if |valid| > MaxFiles then Some(TooManyFiles)
      else match FirstTooLarge(valid)
        case Some(name) => Some(TooLargeMessage(name))
        case None => None
  }

  /** A request passes validation exactly when it has a files field whose
      allowed parts number one to ten, none of them over 16 MiB; parts with
      other names are dropped silently. */
  lemma RejectionIff(files: Option<seq<Upload>>)
    ensures Rejection(files).None? <==>
      files.Some? && 1 <= |ValidUploads(files.value)| <= MaxFiles
      && forall u :: u in ValidUploads(files.value) ==> u.size <= MaxFileSize
  {
    if files.Some? && ValidUploads(files.value) != [] {
      var valid := ValidUploads(files.value);
      ValidUploadNamed(files.value);
      SizesWithin(valid);
    }
  }

  /** Some part kept by the filter has a non-empty name. */
  lemma ValidUploadNamed(files: seq<Upload>)
    requires ValidUploads(files) != []
    ensures files != [] && exists k :: 0 <= k < |files| && files[k].filename != ""
  {
    ValidUploadsMembers(files);
    var u := ValidUploads(files)[0];
    assert u in ValidUploads(files);
    var k :| 0 <= k < |files| && files[k] == u;
  }

  /** No part is over the limit exactly when there is no first one. */
  lemma SizesWithin(valid: seq<Upload>)
    ensures FirstTooLarge(valid).None? <==> forall u :: u in valid ==> u.size <= MaxFileSize
  {
    if forall u :: u in valid ==> u.size <= MaxFileSize {
      assert forall k :: 0 <= k < |valid| ==> valid[k] in valid;
    }
  }

  function StagedFile(timestamp: string, i: nat, u: Upload, secure: string -> string): FileInfo {
    var name := StagedName(timestamp, i, secure(u.filename));
    FileInfo(UploadFolder + "/" + name, name, u.filename)
  }

  /** The staged descriptors of the first n valid parts, in submission order. */
  function Staged(valid: seq<Upload>, n: nat, timestamp: string, secure: string -> string): (r: seq<FileInfo>)
    requires n <= |valid|
    ensures |r| == n
    ensures forall k :: 0 <= k < n ==> r[k] == StagedFile(timestamp, k, valid[k], secure)
  {
    seq(n, k requires 0 <= k < n => StagedFile(timestamp, k, valid[k], secure))
  }

  /** upload_file. A rejected request writes nothing and registers nothing.
      Otherwise the valid parts are staged in order; a save that raises ends
      the request with "上传失败: " and its message, leaving the parts saved
      before it on disk. When all are saved, a fresh record is registered
      under `taskId` and the handler redirects to it; `prompt` is the stripped
      prompt field the job is started with. */
  method UploadFile(
    registry: Registry, files: Option<seq<Upload>>, promptField: Option<string>, modelsField: seq<string>,
    timestamp: string, taskId: string, secure: string -> string, saveError: nat -> Option<string>)
    returns (reply: UploadReply, written: seq<FileInfo>, prompt: string)
    modifies registry
    ensures prompt == Trim(promptField.GetOr(""), Python)
    ensures Rejection(files).Some? ==>
      reply == Flashed(Rejection(files).value) && written == [] && registry.tasks == old(registry.tasks)
    ensures Rejection(files).None? ==>
      var valid := ValidUploads(files.value);
      match FirstSaveError(|valid|, saveError)
      case Some(k) =>
        reply == Flashed(UploadFailedPrefix + saveError(k).value)
        && written == Staged(valid, k, timestamp, secure) && registry.tasks == old(registry.tasks)
      case None =>
        reply == Redirected(taskId) && written == Staged(valid, |valid|, timestamp, secure)
        && taskId in registry.tasks && registry.tasks == old(registry.tasks)[taskId := registry.tasks[taskId]]
        && fresh(registry.tasks[taskId])
        && registry.tasks[taskId].status == Processing && registry.tasks[taskId].progress == 0
        && registry.tasks[taskId].total == |valid| && registry.tasks[taskId].results == []
        && registry.tasks[taskId].error == None && registry.tasks[taskId].excelFile == None
        && registry.tasks[taskId].files == written
        && registry.tasks[taskId].selectedModels == ModelsToUse(modelsField)
  {
    prompt := Trim(if promptField.None? then "" else promptField.value, Python);
    written := [];
    if files.None? {
      return Flashed(NoFileSelected), written, prompt;
    }
    var all := files.value;
    if all == [] || forall k :: 0 <= k < |all| ==> all[k].filename == "" {
      return Flashed(NoFileSelected), written, prompt;
    }
    var valid := ValidUploads(all);
    if valid == [] {
      return Flashed(NoValidImages), written, prompt;
    }
    if |valid| > MaxFiles {
      return Flashed(TooManyFiles), written, prompt;
    }
    var tooLarge := CheckSizes(valid);
    if tooLarge.Some? {
      return Flashed(TooLargeMessage(tooLarge.value)), written, prompt;
    }
    // cleanup_old_files() runs here; it touches only files older than an hour
    var failed;
    written, failed := SaveAll(valid, timestamp, secure, saveError);
    if failed.Some? {
      return Flashed(UploadFailedPrefix + saveError(failed.value).value), written, prompt;
    }
    var selected := if modelsField == [] then DefaultModels else modelsField;
    var task := new TaskRecord(written, selected);
    registry.tasks := registry.tasks[taskId := task];
    reply := Redirected(taskId);
  }

  /** The size check over the valid parts, in order: the first part over 16 MiB, if any. */
  method CheckSizes(valid: seq<Upload>) returns (tooLarge: Option<string>)
    ensures tooLarge == FirstTooLarge(valid)
  {
    for k := 0 to |valid|
      invariant FirstTooLarge(valid[k..]) == FirstTooLarge(valid)
    {
      if valid[k].size > MaxFileSize {
        return Some(valid[k].filename);
      }
      assert valid[k..][1..] == valid[k + 1..];
    }
    return None;
  }

  /** The save loop: parts are staged in order until one save raises. */
  method SaveAll(valid: seq<Upload>, timestamp: string, secure: string -> string, saveError: nat -> Option<string>)
    returns (written: seq<FileInfo>, failed: Option<nat>)
    ensures failed == FirstSaveError(|valid|, saveError)
    ensures written == Staged(valid, if failed.Some? then failed.value else |valid|, timestamp, secure)
  {
    written := [];
    for i := 0 to |valid|
      invariant written == Staged(valid, i, timestamp, secure)
      invariant FirstSaveError(i, saveError).None?
    {
      if saveError(i).Some? {
        FirstSaveErrorAt(i, |valid|, saveError);
        return written, Some(i);
      }
      StagedStep(valid, i, timestamp, secure);
      written := written + [StagedFile(timestamp, i, valid[i], secure)];
    }
    failed := None;
  }

  lemma StagedStep(valid: seq<Upload>, i: nat, timestamp: string, secure: string -> string)
    requires i < |valid|
    ensures Staged(valid, i + 1, timestamp, secure) == Staged(valid, i, timestamp, secure) + [StagedFile(timestamp, i, valid[i], secure)]
  {
  }

  // ---------------------------------------------------------------- analyze_images_async

  /** An image whose encoding failed makes analyze_single_image return a
      bare tuple; unpacking its first string into (model, text) raises, and
      the job skips the image. */
  predicate Skipped(i: nat, s: PyServices) {
    s.encodeError(i).Some?
  }

  /** The results image i adds when it is not skipped. */
  function PyImageResults(file: FileInfo, i: nat, prompt: string, models: seq<string>, s: PyServices): seq<AnalysisResult>
    requires !Skipped(i, s)
  {
    ImageResults(file, SingleImageOutcome(i, Some(prompt), Some(models), s).pairs, Translator(s))
  }

  /** The results the job accumulates over `files`; a skipped image adds none. */
  function PyJobResults(files: seq<FileInfo>, prompt: string, models: seq<string>, s: PyServices): seq<AnalysisResult> {
    if files == [] then []
    else
      var n := |files| - 1;
      PyJobResults(files[..n], prompt, models, s)
        + (if Skipped(n, s) then [] else PyImageResults(files[n], n, prompt, models, s))
  }

  /** The progress the record shows after the job has walked `files`:
      one past the last image that was not skipped, or 0. */
  function PyProgress(files: seq<FileInfo>, s: PyServices): nat {
    if files == [] then 0
    else if Skipped(|files| - 1, s) then PyProgress(files[..|files| - 1], s)
    else |files|
  }

  /** What a poller can observe: one snapshot per image that completes,
      holding its position + 1 and the results so far; a skipped image
      publishes nothing. */
  function PySnapshots(files: seq<FileInfo>, prompt: string, models: seq<string>, s: PyServices): seq<(nat, seq<AnalysisResult>)> {
    if files == [] then []
    else
      var n := |files| - 1;
      PySnapshots(files[..n], prompt, models, s)
        + (if Skipped(n, s) then [] else [(|files|, PyJobResults(files, prompt, models, s))])
  }

  lemma PySnapshotsStep(files: seq<FileInfo>, i: nat, prompt: string, models: seq<string>, s: PyServices)
    requires i < |files|
    ensures PySnapshots(files[..i + 1], prompt, models, s)
      == PySnapshots(files[..i], prompt, models, s)
         + (if Skipped(i, s) then [] else [(i + 1, PyJobResults(files[..i + 1], prompt, models, s))])
  {
    assert files[..i + 1][..i] == files[..i];
  }

  /** The loop of analyze_images_async on the task's record. After an image
      that completes, progress is its position + 1 and the record holds the
      results so far (`published` lists these snapshots); a skipped image
      changes nothing in the record. */
  method AnalyzeEach(task: TaskRecord, filesInfo: seq<FileInfo>, prompt: string, models: seq<string>, s: PyServices)
    returns (results: seq<AnalysisResult>, ghost published: seq<(nat, seq<AnalysisResult>)>)
    modifies task
    ensures results == PyJobResults(filesInfo, prompt, models, s)
    ensures task.progress == PyProgress(filesInfo, s) && task.status == Processing
    ensures task.results == if PyProgress(filesInfo, s) == 0 then old(task.results) else results
    ensures task.selectedModels == old(task.selectedModels) && task.total == old(task.total) && task.files == old(task.files)
    ensures task.error == old(task.error) && task.excelFile == old(task.excelFile)
    ensures published == PySnapshots(filesInfo, prompt, models, s)
  {
    task.status := Processing;
    task.progress := 0;
    results := [];
    published := [];
    for i := 0 to |filesInfo|
      invariant published == PySnapshots(filesInfo[..i], prompt, models, s)
      invariant task.progress == PyProgress(filesInfo[..i], s) && task.status == Processing
      invariant task.selectedModels == old(task.selectedModels) && task.total == old(task.total) && task.files == old(task.files)
      invariant task.error == old(task.error) && task.excelFile == old(task.excelFile)
      invariant results == PyJobResults(filesInfo[..i], prompt, models, s)
      invariant task.results == if PyProgress(filesInfo[..i], s) == 0 then old(task.results) else results
    {
      PyJobStep(filesInfo, i, prompt, models, s);
      PySnapshotsStep(filesInfo, i, prompt, models, s);
      var skipped;
      results, skipped := AnalyzeOne(results, filesInfo[i], i, prompt, models, s);
      if !skipped {
        task.progress := i + 1;
        task.results := results;
        published := published + [(task.progress, task.results)];
      }
    }
    assert filesInfo[..|filesInfo|] == filesInfo;
  }

  /** One pass of the loop body, off the record: a skipped image adds
      nothing; otherwise its kept pairs are appended to the results. */
  method AnalyzeOne(results: seq<AnalysisResult>, file: FileInfo, i: nat, prompt: string, models: seq<string>, s: PyServices)
    returns (out: seq<AnalysisResult>, skipped: bool)
    ensures skipped == Skipped(i, s)
    ensures out == results + (if skipped then [] else PyImageResults(file, i, prompt, models, s))
  {
    var outcome := AnalyzeSingleImage(i, Some(prompt), Some(models), s);
    match outcome {
      case BareTuple(_, _) =>
        // `for model_name, analysis_content in outcome` raises on the first string
        out, skipped := results, true;
      case Pairs(ps) =>
        out := results;
        if |ps| > 0 {
          out := CollectKept(results, file, ps, Translator(s));
        }
        skipped := false;
    }
  }

  lemma PyJobStep(files: seq<FileInfo>, i: nat, prompt: string, models: seq<string>, s: PyServices)
    requires i < |files|
    ensures PyJobResults(files[..i + 1], prompt, models, s)
      == PyJobResults(files[..i], prompt, models, s) + (if Skipped(i, s) then [] else PyImageResults(files[i], i, prompt, models, s))
    ensures PyProgress(files[..i + 1], s) == if Skipped(i, s) then PyProgress(files[..i], s) else i + 1
  {
    assert files[..i + 1][..i] == files[..i];
  }

  /** The spreadsheet records: one per result, image column from the original name. */
  method ExcelData(results: seq<AnalysisResult>) returns (data: seq<Row>)
    ensures |data| == |results|
    ensures [Header] + data == Report(results)
  {
    data := [];
    for k := 0 to |results|
      invariant |data| == k
      invariant forall j :: 0 <= j < k ==> data[j] == RowOf(results[j])
    {
      data := data + [RowOf(results[k])];
    }
  }

  /** The staged files that still exist and are removed. */
  function Existing(files: seq<FileInfo>, onDisk: string -> bool): (r: seq<string>)
    ensures forall p :: p in r <==> onDisk(p) && exists k :: 0 <= k < |files| && files[k].filepath == p
  {
    if files == [] then []
    else
      var rest := Existing(files[1..], onDisk);
      assert forall k :: 0 <= k < |files[1..]| ==> files[1..][k] == files[k + 1];
      (if onDisk(files[0].filepath) then [files[0].filepath] else []) + rest
  }

  /** analyze_images_async. A missing record makes the first access raise
      KeyError, which the handler re-raises; otherwise the record under
      `taskId` is the only object changed. Results lead to a report and
      `completed` unless writing it raises (`failed` with that message); no
      results give `failed` with the fixed message. In every case every
      staged file still on disk is removed. */
  method AnalyzeImagesAsync(
    registry: Registry, filesInfo: seq<FileInfo>, taskId: string, customPrompt: string,
    selectedModels: seq<string>, s: PyServices, onDisk: string -> bool, reportName: string)
    returns (raised: bool, report: Option<seq<Row>>, removed: seq<string>, ghost published: seq<(nat, seq<AnalysisResult>)>)
    modifies if taskId in registry.tasks then {registry.tasks[taskId]} else {}
    ensures removed == Existing(filesInfo, onDisk)
    ensures raised <==> taskId !in registry.tasks
    ensures raised ==> report == None && published == []
    ensures taskId in registry.tasks ==>
      var t := registry.tasks[taskId];
      var results := PyJobResults(filesInfo, PromptToUse(customPrompt), ModelsToUse(selectedModels), s);
      && t.selectedModels == old(t.selectedModels) && t.total == old(t.total) && t.files == old(t.files)
      && t.progress == PyProgress(filesInfo, s)
      && t.results == (if PyProgress(filesInfo, s) == 0 then old(t.results) else results)
      && published == PySnapshots(filesInfo, PromptToUse(customPrompt), ModelsToUse(selectedModels), s)
      && report == (if results != [] then Some(Report(results)) else None)
      && (results == [] ==>
            t.status == Failed && t.error == Some(AllImagesFailed) && t.excelFile == old(t.excelFile))
      && (results != [] && s.writeError.Some? ==>
            t.status == Failed && t.error == s.writeError && t.excelFile == old(t.excelFile))
      && (results != [] && s.writeError.None? ==>
            t.status == Completed && t.excelFile == Some(reportName) && t.error == old(t.error))
    ensures (taskId in registry.tasks && old(registry.tasks[taskId].error) == None
      && old(registry.tasks[taskId].excelFile) == None) ==> registry.tasks[taskId].Settled()
  {
    raised := true;
    report := None;
    published := [];
    if taskId in registry.tasks {
      raised := false;
      var task := registry.tasks[taskId];
      var prompt := if customPrompt != "" then customPrompt else DefaultPrompt;
      var models := if selectedModels != [] then selectedModels else DefaultModels;
      var results;
      results, published := AnalyzeEach(task, filesInfo, prompt, models, s);
      if |results| > 0 {
        var data := ExcelData(results);
        report := Some([Header] + data);
      }
      task.Conclude(|results| > 0, s.writeError, reportName);
    }
    // finally: remove each staged file that exists; errors are swallowed
    removed := RemoveStaged(filesInfo, onDisk);
  }

  /** The `finally` block: the paths of the staged files that exist, in order, each removed. */
  method RemoveStaged(filesInfo: seq<FileInfo>, onDisk: string -> bool) returns (removed: seq<string>)
    ensures removed == Existing(filesInfo, onDisk)
  {
    removed := [];
    for k := 0 to |filesInfo|
      invariant removed == Existing(filesInfo[..k], onDisk)
    {
      ExistingStep(filesInfo, k, onDisk);
      if onDisk(filesInfo[k].filepath) {
        removed := removed + [filesInfo[k].filepath];
      }
    }
    assert filesInfo[..|filesInfo|] == filesInfo;
  }

  lemma {:induction false} ExistingStep(files: seq<FileInfo>, k: nat, onDisk: string -> bool)
    requires k < |files|
    ensures Existing(files[..k + 1], onDisk)
      == Existing(files[..k], onDisk) + (if onDisk(files[k].filepath) then [files[k].filepath] else [])
    decreases k
  {
    if k > 0 {
      ExistingStep(files[1..], k - 1, onDisk);
      assert files[1..][..k] == files[..k + 1][1..];
      assert files[1..][..k - 1] == files[..k][1..];
    }
  }

  // ---------------------------------------------------------------- get_status

  /** What the status endpoint answers: 404, or the record's fields. */
  datatype StatusView =
    | NotFound
    | Found(status: Status, progress: nat, total: nat, results: seq<AnalysisResult>,
            error: Option<string>, excelFile: Option<string>)

  /** get_status. */
  function GetStatus(registry: Registry, taskId: string): (v: StatusView)
    reads registry, registry.tasks.Values
    ensures v.NotFound? <==> taskId !in registry.tasks
    ensures v.Found? ==>
      var t := registry.tasks[taskId];
      v == Found(t.status, t.progress, t.total, t.results, t.error, t.excelFile)
  {
    if taskId in registry.tasks then
      var t := registry.tasks[taskId];
      Found(t.status, t.progress, t.total, t.results, t.error, t.excelFile)
    else NotFound
  }

  /** A settled record is reported with exactly one of the report name and
      the error, matching its terminal status. */
  lemma SettledStatus(registry: Registry, taskId: string)
    requires taskId in registry.tasks && registry.tasks[taskId].Settled()
    ensures var v := GetStatus(registry, taskId);
      v.Found? && v.status != Processing
      && (v.excelFile.Some? <==> v.status == Completed) && (v.error.Some? <==> v.status == Failed)
      && !(v.excelFile.Some? && v.error.Some?)
  {
  }

  // ---------------------------------------------------------------- properties of the job

  /** Progress never exceeds the number of images; it reaches it exactly
      when the last image was not skipped; it stays 0 exactly when every
      image was skipped. */
  lemma {:induction false} PyProgressBounds(files: seq<FileInfo>, s: PyServices)
    ensures PyProgress(files, s) <= |files|
    ensures files != [] ==> (PyProgress(files, s) == |files| <==> !Skipped(|files| - 1, s))
    ensures PyProgress(files, s) == 0 <==> forall i :: 0 <= i < |files| ==> Skipped(i, s)
  {
    if files != [] {
      PyProgressBounds(files[..|files| - 1], s);
    }
  }

  /** Progress never goes back: after more images it is at least what it was. */
  lemma {:induction false} PyProgressMonotone(files: seq<FileInfo>, s: PyServices, i: nat, j: nat)
    requires i <= j <= |files|
    ensures PyProgress(files[..i], s) <= PyProgress(files[..j], s)
    decreases j
  {
    if i < j {
      PyProgressMonotone(files, s, i, j - 1);
      assert files[..j][..j - 1] == files[..j - 1];
      PyProgressBounds(files[..j - 1], s);
    }
  }

  /** The snapshots a poller can observe: each one's progress is at most the
      final progress and its results a prefix of the final results; the last
      one is the final record, and there is none exactly when every image was
      skipped. */
  lemma {:induction false} PySnapshotsLast(files: seq<FileInfo>, prompt: string, models: seq<string>, s: PyServices)
    ensures var snaps := PySnapshots(files, prompt, models, s);
      && (snaps == [] <==> PyProgress(files, s) == 0)
      && (snaps != [] ==> snaps[|snaps| - 1] == (PyProgress(files, s), PyJobResults(files, prompt, models, s)))
      && (forall k :: 0 <= k < |snaps| ==> snaps[k].0 <= PyProgress(files, s) && snaps[k].1 <= PyJobResults(files, prompt, models, s))
  {
    if files != [] {
      var n := |files| - 1;
      var init := files[..n];
      PySnapshotsLast(init, prompt, models, s);
      PyProgressBounds(init, s);
      var prev := PySnapshots(init, prompt, models, s);
      var before := PyJobResults(init, prompt, models, s);
      var after := PyJobResults(files, prompt, models, s);
      assert before <= after;
      forall k | 0 <= k < |prev|
        ensures prev[k].1 <= after
      {
        PrefixTransitive(prev[k].1, before, after);
      }
      if Skipped(n, s) {
        assert after == before + [] == before;
      }
    }
  }

  /** Between two snapshots progress strictly grows and results only grow by appending. */
  lemma {:induction false} PySnapshotsMonotone(files: seq<FileInfo>, prompt: string, models: seq<string>, s: PyServices)
    ensures var snaps := PySnapshots(files, prompt, models, s);
      forall k, l :: 0 <= k < l < |snaps| ==> snaps[k].0 < snaps[l].0 && snaps[k].1 <= snaps[l].1
  {
    if files != [] {
      var n := |files| - 1;
      var init := files[..n];
      PySnapshotsMonotone(init, prompt, models, s);
      if !Skipped(n, s) {
        PySnapshotsLast(init, prompt, models, s);
        PyProgressBounds(init, s);
        var prev := PySnapshots(init, prompt, models, s);
        var snaps := PySnapshots(files, prompt, models, s);
        assert snaps == prev + [(|files|, PyJobResults(files, prompt, models, s))];
        forall k, l | 0 <= k < l < |snaps|
          ensures snaps[k].0 < snaps[l].0 && snaps[k].1 <= snaps[l].1
        {
          assert snaps[k] == prev[k];
        }
      }
    }
  }

  lemma PrefixTransitive<T>(a: seq<T>, b: seq<T>, c: seq<T>)
    requires a <= b && b <= c
    ensures a <= c
  {
    assert c[..|a|] == c[..|b|][..|a|];
  }

  /** Every recorded result passed the filter and carries the translation of its own text. */
  lemma {:induction false} PyJobResultsFiltered(files: seq<FileInfo>, prompt: string, models: seq<string>, s: PyServices)
    ensures forall r :: r in PyJobResults(files, prompt, models, s) ==>
      Kept(r.analysis) && r.englishAnalysis == TranslateToEnglish(s.translation(r.analysis))
  {
    if files != [] {
      var n := |files| - 1;
      PyJobResultsFiltered(files[..n], prompt, models, s);
      if !Skipped(n, s) {
        ImageResultsSound(files[n], SingleImageOutcome(n, Some(prompt), Some(models), s).pairs, Translator(s));
      }
    }
  }

  /** A skipped image contributes nothing, so the results are those of the
      images that were not skipped, in image order. */
  lemma SkippedImageAddsNothing(files: seq<FileInfo>, i: nat, prompt: string, models: seq<string>, s: PyServices)
    requires i < |files| && Skipped(i, s)
    ensures PyJobResults(files[..i + 1], prompt, models, s) == PyJobResults(files[..i], prompt, models, s)
    ensures PyProgress(files[..i + 1], s) == PyProgress(files[..i], s)
  {
    assert files[..i + 1][..i] == files[..i];
  }

  /** The job always runs with at least one model, so with a working
      client every result names one of the models (the no-model fallback
      never reaches the results); a client failure, in contrast, is recorded
      as a result under the failure marker. */
  lemma ClientFailureRecorded(file: FileInfo, i: nat, prompt: string, selected: seq<string>, s: PyServices)
    requires !Skipped(i, s)
    ensures s.clientError(i).None? ==>
      forall r :: r in PyImageResults(file, i, prompt, ModelsToUse(selected), s) ==> r.model in ModelsToUse(selected)
    ensures s.clientError(i).Some? ==>
      PyImageResults(file, i, prompt, ModelsToUse(selected), s)
        == [ResultOf(file, Pair(FailureMarker, SetupErrorPrefix + s.clientError(i).value), Translator(s))]
  {
    var ms := ModelsToUse(selected);
    var pairs := SingleImageOutcome(i, Some(prompt), Some(ms), s).pairs;
    if s.clientError(i).None? {
      ImageResultsSound(file, pairs, Translator(s));
      forall r | r in PyImageResults(file, i, prompt, ms, s) ensures r.model in ms {
        var p :| p in pairs && Kept(p.text) && r == ResultOf(file, p, Translator(s));
        var j :| 0 <= j < |pairs| && pairs[j] == p;
      }
    } else {
      var p := Pair(FailureMarker, SetupErrorPrefix + s.clientError(i).value);
      FallbackTextsAreKept(s.clientError(i).value);
      assert pairs == [p];
      assert pairs[..0] == [];
      assert ImageResults(file, pairs, Translator(s)) == ImageResults(file, [], Translator(s)) + [ResultOf(file, p, Translator(s))];
    }
  }
}
