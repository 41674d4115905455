/**
 The Next.js upload route (app/api/upload/route.ts): POST validates the
 whole request before writing anything, writes the files in submission
 order, registers a fresh task record and answers with its id; the handler
 attached to the background analysis marks the record failed when the
 analysis rejects.

 The clock, uuid generation, the working directory and the file system are
 parameters: `timestamp`, `taskId`, `uploadDir`, `dirError` (creating the
 upload directory raised) and `writeError` (writing part i raised).
 */
module UploadRoute {
  import opened Tasks

  const AllowedTypes: seq<string> := ["image/png", "image/jpg", "image/jpeg", "image/gif", "image/bmp", "image/tiff"]

  const NoFilesMessage: string := "没有上传文件"
  const TooManyMessage: string := "最多只能上传10张图片"
  const UploadFailedPrefix: string := "上传失败: "

  function UnsupportedTypeMessage(mimeType: string): string {
    "不支持的文件类型: " + mimeType
  }

  function TooLargeMessage(name: string): string {
    "文件 " + name + " 太大，请选择小于16MB的文件"
  }

  /** One uploaded part: its name, its declared MIME type and its size in bytes. */
  datatype Part = Part(name: string, mimeType: string, size: nat)

  /** The JSON answer: `{taskId}` with status 200, or `{error}` with a 4xx/5xx code. */
  datatype Response = Accepted(taskId: string) | Error(code: nat, message: string)

  /** A part the route accepts: one of the six types and at most 16 MiB. */
  predicate Acceptable(p: Part) {
    p.mimeType in AllowedTypes && p.size <= MaxFileSize
  }

  /** Why a part is refused; the type is tested before the size. */
  function RefusalOf(p: Part): string {
    if p.mimeType !in AllowedTypes then UnsupportedTypeMessage(p.mimeType) else TooLargeMessage(p.name)
  }

  /** The refusal of the first part that is not acceptable, if any. */
  function FirstRefusal(parts: seq<Part>): (r: Option<string>)
    ensures r.None? <==> forall k :: 0 <= k < |parts| ==> Acceptable(parts[k])
    ensures r.Some? ==> exists k :: (0 <= k < |parts| && !Acceptable(parts[k]) && r.value == RefusalOf(parts[k])
      && forall j :: 0 <= j < k ==> Acceptable(parts[j]))
  {
    if parts == [] then None
    else if !Acceptable(parts[0]) then Some(RefusalOf(parts[0]))
    else
      var r := FirstRefusal(parts[1..]);
      assert r.Some? ==> exists k :: (0 <= k < |parts| && !Acceptable(parts[k]) && r.value == RefusalOf(parts[k])
        && forall j :: 0 <= j < k ==> Acceptable(parts[j]))
      by {
        if r.Some? {
          var k :| 0 <= k < |parts[1..]| && !Acceptable(parts[1..][k]) && r.value == RefusalOf(parts[1..][k])
            && forall j :: 0 <= j < k ==> Acceptable(parts[1..][j]);
          assert parts[k + 1] == parts[1..][k];
          forall j | 0 <= j < k + 1 ensures Acceptable(parts[j]) {
            if j > 0 { assert parts[j] == parts[1..][j - 1]; }
          }
        }
      }
      r
  }

  /** The 400 message POST answers before writing anything, or None when the request passes. */
  function Rejection(parts: seq<Part>): Option<string> {
    if parts == [] then Some(NoFilesMessage)
    else if |parts| > MaxFiles then Some(TooManyMessage)
    else FirstRefusal(parts)
  }

  /** A request passes validation exactly when it has one to ten parts, all of an allowed type and at most 16 MiB. */
  lemma RejectionIff(parts: seq<Part>)
    ensures Rejection(parts).None? <==>
      1 <= |parts| <= MaxFiles && forall p :: p in parts ==> Acceptable(p)
  {
    if 1 <= |parts| <= MaxFiles && forall p :: p in parts ==> Acceptable(p) {
      assert forall k :: 0 <= k < |parts| ==> parts[k] in parts;
    }
  }

  /** The descriptor of part i once written: `path.join(uploadDir, filename)`, the staged name and the part's own name. */
  function SavedFile(uploadDir: string, timestamp: string, i: nat, p: Part): FileInfo {
    var name := StagedName(timestamp, i, p.name);
    FileInfo(uploadDir + "/" + name, name, p.name)
  }

  /** The descriptors of the first n parts, in submission order. */
  function SavedFiles(parts: seq<Part>, n: nat, uploadDir: string, timestamp: string): (r: seq<FileInfo>)
    requires n <= |parts|
    ensures |r| == n
    ensures forall k :: 0 <= k < n ==> r[k] == SavedFile(uploadDir, timestamp, k, parts[k])
  {
    seq(n, k requires 0 <= k < n => SavedFile(uploadDir, timestamp, k, parts[k]))
  }

  /** The files of one request are written under pairwise distinct names, and each keeps its part's name. */
  lemma SavedNamesDistinct(parts: seq<Part>, n: nat, uploadDir: string, timestamp: string)
    requires n <= |parts| <= MaxFiles
    ensures forall i, j :: 0 <= i < j < n ==>
      SavedFiles(parts, n, uploadDir, timestamp)[i].filename != SavedFiles(parts, n, uploadDir, timestamp)[j].filename
    ensures forall i :: 0 <= i < n ==> SavedFiles(parts, n, uploadDir, timestamp)[i].originalName == parts[i].name
  {
    forall i, j | 0 <= i < j < n
      ensures SavedFiles(parts, n, uploadDir, timestamp)[i].filename != SavedFiles(parts, n, uploadDir, timestamp)[j].filename
    {
      StagedNamesDistinct(timestamp, i, j, parts[i].name, parts[j].name);
    }
  }

  /** The validation loop: the refusal of the first part that is not acceptable. */
  method CheckParts(parts: seq<Part>) returns (refusal: Option<string>)
    ensures refusal == FirstRefusal(parts)
  {
    for k := 0 to |parts|
      invariant FirstRefusal(parts[k..]) == FirstRefusal(parts)
    {
      var p := parts[k];
      if p.mimeType !in AllowedTypes {
        return Some(UnsupportedTypeMessage(p.mimeType));
      }
      if p.size > MaxFileSize {
        return Some(TooLargeMessage(p.name));
      }
      assert parts[k..][1..] == parts[k + 1..];
    }
    return None;
  }

  /** The write loop: parts are written in order, each pushed onto `saved`, until a write raises. */
  method WriteAll(parts: seq<Part>, uploadDir: string, timestamp: string, writeError: nat -> Option<string>)
    returns (saved: seq<FileInfo>, failed: Option<nat>)
    ensures failed == FirstSaveError(|parts|, writeError)
    ensures saved == SavedFiles(parts, if failed.Some? then failed.value else |parts|, uploadDir, timestamp)
  {
    saved := [];
    for i := 0 to |parts|
      invariant saved == SavedFiles(parts, i, uploadDir, timestamp)
      invariant FirstSaveError(i, writeError).None?
    {
      if writeError(i).Some? {
        FirstSaveErrorAt(i, |parts|, writeError);
        return saved, Some(i);
      }
      saved := saved + [SavedFile(uploadDir, timestamp, i, parts[i])];
    }
    failed := None;
  }

  /** POST. A request refused by validation gets 400 and writes nothing. A
      failure to create the directory or to write a part gets 500 with
      "上传失败: " and the message, and registers nothing (parts written before
      the failing one stay on disk). Otherwise every part is written, a fresh
      record is registered under `taskId`, and the answer carries the id. */
  method Post(
    registry: Registry, parts: seq<Part>, models: seq<string>, uploadDir: string, dirError: Option<string>,
    timestamp: string, taskId: string, writeError: nat -> Option<string>)
    returns (response: Response, saved: seq<FileInfo>)
    modifies registry
    ensures Rejection(parts).Some? ==>
      response == Error(400, Rejection(parts).value) && saved == [] && registry.tasks == old(registry.tasks)
    ensures Rejection(parts).None? && dirError.Some? ==>
      response == Error(500, UploadFailedPrefix + dirError.value) && saved == [] && registry.tasks == old(registry.tasks)
    ensures Rejection(parts).None? && dirError.None? ==>
      match FirstSaveError(|parts|, writeError)
      case Some(k) =>
        response == Error(500, UploadFailedPrefix + writeError(k).value)
        && saved == SavedFiles(parts, k, uploadDir, timestamp) && registry.tasks == old(registry.tasks)
      case None =>
        response == Accepted(taskId) && saved == SavedFiles(parts, |parts|, uploadDir, timestamp)
        && taskId in registry.tasks && registry.tasks == old(registry.tasks)[taskId := registry.tasks[taskId]]
        && fresh(registry.tasks[taskId])
        && registry.tasks[taskId].status == Processing && registry.tasks[taskId].progress == 0
        && registry.tasks[taskId].total == |parts| && registry.tasks[taskId].results == []
        && registry.tasks[taskId].error == None && registry.tasks[taskId].excelFile == None
        && registry.tasks[taskId].files == saved
        && registry.tasks[taskId].selectedModels == ModelsToUse(models)
  {
    saved := [];
    if parts == [] {
      return Error(400, NoFilesMessage), saved;
    }
    if |parts| > MaxFiles {
      return Error(400, TooManyMessage), saved;
    }
    var refusal := CheckParts(parts);
    if refusal.Some? {
      return Error(400, refusal.value), saved;
    }
    if dirError.Some? {
      return Error(500, UploadFailedPrefix + dirError.value), saved;
    }
    var failed;
    saved, failed := WriteAll(parts, uploadDir, timestamp, writeError);
    if failed.Some? {
      return Error(500, UploadFailedPrefix + writeError(failed.value).value), saved;
    }
    var task := new TaskRecord(saved, if |models| > 0 then models else DefaultModels);
    registry.tasks := registry.tasks[taskId := task];
    response := Accepted(taskId);
  }

  /** The `.catch` handler on the background analysis: the record, when
      present, is marked failed with the rejection's message; nothing else
      changes. */
  method OnAnalysisRejected(registry: Registry, taskId: string, message: string)
    modifies if taskId in registry.tasks then {registry.tasks[taskId]} else {}
    ensures taskId in registry.tasks ==>
      var t := registry.tasks[taskId];
      && t.status == Failed && t.error == Some(message)
      && t.progress == old(t.progress) && t.total == old(t.total) && t.results == old(t.results)
      && t.excelFile == old(t.excelFile) && t.files == old(t.files) && t.selectedModels == old(t.selectedModels)
  {
    if taskId in registry.tasks {
      var task := registry.tasks[taskId];
      task.status := Failed;
      task.error := Some(message);
    }
  }
}
