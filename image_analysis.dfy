/**
 The Next.js back end's analysis job (lib/imageAnalysis.ts): per-image,
 per-model analysis, the filter that turns model/text pairs into results,
 translation with its fallback text, the report rows, and the job that
 drives one task record from `processing` to `completed` or `failed`.

 The chat-completion service, the file system and the spreadsheet writer
 are oracles gathered in `Services`.
 */
module ImageAnalysis {
  import opened Strings
  import opened Tasks

  /** What one chat-completion call for an (image, model) pair gave back. */
  datatype Reply = Content(text: string) | NoText | Thrown(message: string)

  /** The outside world as the job sees it. */
  datatype Services = Services(
    // reading image i from disk (or building the client) threw with this message
    setupError: nat -> Option<string>,
    // reply for (prompt, image position, model position)
    reply: (string, nat, nat) -> Reply,
    // the translation service's answer for a text
    translation: string -> TranslateReply,
    // writing the report threw with this message
    writeError: Option<string>)

  const EmptyReplyText: string := "分析失败: 模型返回空结果"
  const TranslationFailed: string := "Translation failed"

  /** translateToEnglish: the trimmed translation, or a fallback text; it never throws. */
  function TranslateToEnglish(r: TranslateReply): (english: string)
    ensures english != ""
    ensures r.Translated? && Trim(r.content, JavaScript) != "" ==> english == Trim(r.content, JavaScript)
    ensures !(r.Translated? && Trim(r.content, JavaScript) != "") ==> StartsWith(english, TranslationFailed)
  {
    match r
    case Translated(c) =>
      if Trim(c, JavaScript) != "" then Trim(c, JavaScript) else TranslationFailed
    case NoContent =>
      TranslationFailed
    case TranslateError(m) =>
      assert (TranslationFailed + ": " + m)[..|TranslationFailed|] == TranslationFailed;
      TranslationFailed + ": " + m
  }

  function Translator(s: Services): string -> string {
    text => TranslateToEnglish(s.translation(text))
  }

  /** The text analyzeSingleImage records for one model's reply. */
  function ReplyText(r: Reply): string {
    match r
    case Content(t) => if t != "" then t else EmptyReplyText
    case NoText => EmptyReplyText
    case Thrown(m) => FailureMarker + ": " + m
  }

  /** A model's entry passes the job's filter exactly when the model replied
      with a non-empty text that does not itself open with the failure marker. */
  lemma ReplyTextKept(r: Reply)
    ensures Kept(ReplyText(r)) <==> r.Content? && Kept(r.text)
  {
    assert EmptyReplyText[..|FailureMarker|] == FailureMarker;
    if r.Thrown? {
      assert (FailureMarker + ": " + r.message)[..|FailureMarker|] == FailureMarker;
    }
  }

  /** The pairs analyzeSingleImage returns for image `i`. */
  function SingleImagePairs(i: nat, prompt: string, models: seq<string>, s: Services): seq<Pair> {
    if s.setupError(i).Some? then [Pair(FailureMarker, SetupErrorPrefix + s.setupError(i).value)]
    else if models == [] then [Pair(FailureMarker, NoModelsText)]
    else seq(|models|, j requires 0 <= j < |models| => Pair(models[j], ReplyText(s.reply(prompt, i, j))))
  }

  /** analyzeSingleImage: one pair per model, in model order; an empty reply
      or a thrown call gives a failure-marked text instead of dropping the model. */
  method AnalyzeSingleImage(i: nat, prompt: string, models: seq<string>, s: Services) returns (pairs: seq<Pair>)
    ensures pairs == SingleImagePairs(i, prompt, models, s)
    ensures s.setupError(i).Some? ==> pairs == [Pair(FailureMarker, SetupErrorPrefix + s.setupError(i).value)]
    ensures s.setupError(i).None? && models == [] ==> pairs == [Pair(FailureMarker, NoModelsText)]
    ensures s.setupError(i).None? && models != [] ==>
      |pairs| == |models| &&
      forall j :: 0 <= j < |models| ==>
        pairs[j].model == models[j] &&
        (s.reply(prompt, i, j).Content? && s.reply(prompt, i, j).text != "" ==> pairs[j].text == ReplyText(s.reply(prompt, i, j))) &&
        (!(s.reply(prompt, i, j).Content? && s.reply(prompt, i, j).text != "") ==> StartsWith(pairs[j].text, FailureMarker))
  {
    if s.setupError(i).Some? {
      return [Pair(FailureMarker, SetupErrorPrefix + s.setupError(i).value)];
    }
    pairs := [];
    for j := 0 to |models|
      invariant |pairs| == j
      invariant forall k :: 0 <= k < j ==> pairs[k] == Pair(models[k], ReplyText(s.reply(prompt, i, k)))
    {
      var text;
      match s.reply(prompt, i, j) {
        case Content(t) =>
          text := if t != "" then t else EmptyReplyText;
        case NoText =>
          text := EmptyReplyText;
        case Thrown(m) =>
          text := FailureMarker + ": " + m;
      }
      pairs := pairs + [Pair(models[j], text)];
    }
    if |pairs| == 0 {
      pairs := [Pair(FailureMarker, NoModelsText)];
    } else {
      forall j | 0 <= j < |models| && !(s.reply(prompt, i, j).Content? && s.reply(prompt, i, j).text != "")
        ensures StartsWith(pairs[j].text, FailureMarker)
      {
        assert EmptyReplyText[..|FailureMarker|] == FailureMarker;
        var r := s.reply(prompt, i, j);
        if r.Thrown? {
          assert (FailureMarker + ": " + r.message)[..|FailureMarker|] == FailureMarker;
        }
      }
    }
  }

  /** The results the job accumulates over `files`, image by image. */
  function JobResults(files: seq<FileInfo>, prompt: string, models: seq<string>, s: Services): seq<AnalysisResult> {
    if files == [] then []
    else
      var n := |files| - 1;
      JobResults(files[..n], prompt, models, s)
        + ImageResults(files[n], SingleImagePairs(n, prompt, models, s), Translator(s))
  }

  /** generateExcelFile: a header row, then one row per result in order, with
      columns original file name, model, analysis, English analysis. */
  method GenerateExcelFile(results: seq<AnalysisResult>) returns (sheet: seq<Row>)
    ensures |sheet| == |results| + 1 && sheet[0] == Header
    ensures forall k :: 0 <= k < |results| ==>
      sheet[k + 1] == Row(results[k].originalFilename, results[k].model, results[k].analysis, results[k].englishAnalysis)
    ensures sheet == Report(results)
  {
    sheet := [Header];
    for k := 0 to |results|
      invariant |sheet| == k + 1 && sheet[0] == Header
      invariant forall m :: 0 <= m < k ==> sheet[m + 1] == RowOf(results[m])
    {
      sheet := sheet + [RowOf(results[k])];
    }
  }

  function Paths(files: seq<FileInfo>): seq<string> {
    seq(|files|, k requires 0 <= k < |files| => files[k].filepath)
  }

  /** One step of the accumulation: the first i+1 images give what the first
      i gave, followed by image i's results. */
  lemma JobResultsStep(files: seq<FileInfo>, i: nat, prompt: string, models: seq<string>, s: Services)
    requires i < |files|
    ensures JobResults(files[..i + 1], prompt, models, s)
      == JobResults(files[..i], prompt, models, s)
         + ImageResults(files[i], SingleImagePairs(i, prompt, models, s), Translator(s))
  {
    assert files[..i + 1][..i] == files[..i];
  }

  /** What a poller can observe after each image: the progress and the
      results accumulated so far. */
  function Snapshots(files: seq<FileInfo>, prompt: string, models: seq<string>, s: Services): seq<(nat, seq<AnalysisResult>)> {
    if files == [] then []
    else Snapshots(files[..|files| - 1], prompt, models, s) + [(|files|, JobResults(files, prompt, models, s))]
  }

  lemma SnapshotsStep(files: seq<FileInfo>, i: nat, prompt: string, models: seq<string>, s: Services)
    requires i < |files|
    ensures Snapshots(files[..i + 1], prompt, models, s)
      == Snapshots(files[..i], prompt, models, s) + [(i + 1, JobResults(files[..i + 1], prompt, models, s))]
  {
    assert files[..i + 1][..i] == files[..i];
  }

  /** After image k, progress is k+1 and the record holds exactly the results
      of the first k+1 images. */
  lemma {:induction false} SnapshotsAt(files: seq<FileInfo>, prompt: string, models: seq<string>, s: Services)
    ensures |Snapshots(files, prompt, models, s)| == |files|
    ensures forall k :: 0 <= k < |files| ==>
      Snapshots(files, prompt, models, s)[k] == (k + 1, JobResults(files[..k + 1], prompt, models, s))
  {
    if files != [] {
      var n := |files| - 1;
      var init := files[..n];
      SnapshotsAt(init, prompt, models, s);
      var snaps := Snapshots(files, prompt, models, s);
      forall k | 0 <= k < |files|
        ensures snaps[k] == (k + 1, JobResults(files[..k + 1], prompt, models, s))
      {
        if k < n {
          assert init[..k + 1] == files[..k + 1];
        } else {
          assert files[..k + 1] == files;
        }
      }
    }
  }

  /** Progress only grows from one snapshot to the next, and results only grow by appending. */
  lemma SnapshotsMonotone(files: seq<FileInfo>, prompt: string, models: seq<string>, s: Services)
    ensures forall k, l :: 0 <= k < l < |Snapshots(files, prompt, models, s)| ==>
      Snapshots(files, prompt, models, s)[k].0 < Snapshots(files, prompt, models, s)[l].0 &&
      Snapshots(files, prompt, models, s)[k].1 <= Snapshots(files, prompt, models, s)[l].1
  {
    SnapshotsAt(files, prompt, models, s);
    var snaps := Snapshots(files, prompt, models, s);
    forall k, l | 0 <= k < l < |files|
      ensures snaps[k].1 <= snaps[l].1
    {
      assert files[..l + 1][..k + 1] == files[..k + 1];
      JobResultsPrefix(files[..l + 1], k + 1, prompt, models, s);
    }
  }

  /** The loop of analyzeImagesAsync over the images, on the task's record:
      after image i, progress is i+1 and the record holds the results so far
      (`published` lists these snapshots); nothing else in the record changes. */
  method AnalyzeEach(task: TaskRecord, filesInfo: seq<FileInfo>, prompt: string, s: Services)
    returns (results: seq<AnalysisResult>, ghost published: seq<(nat, seq<AnalysisResult>)>)
    modifies task
    ensures results == JobResults(filesInfo, prompt, task.selectedModels, s)
    ensures task.progress == |filesInfo| && task.status == Processing
    ensures task.results == if filesInfo == [] then old(task.results) else results
    ensures task.selectedModels == old(task.selectedModels) && task.total == old(task.total) && task.files == old(task.files)
    ensures task.error == old(task.error) && task.excelFile == old(task.excelFile)
    ensures published == Snapshots(filesInfo, prompt, task.selectedModels, s)
  {
    task.status := Processing;
    task.progress := 0;
    results := [];
    published := [];
    // an array is truthy even when empty, so `selected_models || DEFAULT_MODELS` keeps it
    var models := task.selectedModels;
    for i := 0 to |filesInfo|
      invariant task.progress == i && task.status == Processing
      invariant task.selectedModels == models == old(task.selectedModels)
      invariant task.total == old(task.total) && task.files == old(task.files)
      invariant task.error == old(task.error) && task.excelFile == old(task.excelFile)
      invariant results == JobResults(filesInfo[..i], prompt, models, s)
      invariant task.results == if i == 0 then old(task.results) else results
      invariant |published| == i
      invariant published == Snapshots(filesInfo[..i], prompt, models, s)
    {
      var pairs := AnalyzeSingleImage(i, prompt, models, s);
      if |pairs| > 0 {
        results := CollectKept(results, filesInfo[i], pairs, Translator(s));
      }
      JobResultsStep(filesInfo, i, prompt, models, s);
      SnapshotsStep(filesInfo, i, prompt, models, s);
      task.progress := i + 1;
      task.results := results;
      published := published + [(task.progress, task.results)];
    }
    assert filesInfo[..|filesInfo|] == filesInfo;
  }

  /** analyzeImagesAsync. The record under `taskId` (if any) is the only
      object changed. Results lead to a report and `completed`, unless
      writing it throws, which gives `failed` with that message; no results
      give `failed` with the fixed message; a missing record changes nothing.
      Every staged file is unlinked on every path. */
  method AnalyzeImagesAsync(
    filesInfo: seq<FileInfo>, taskId: string, customPrompt: string,
    registry: Registry, s: Services, reportName: string)
    returns (report: Option<seq<Row>>, unlinked: seq<string>, ghost published: seq<(nat, seq<AnalysisResult>)>)
    modifies if taskId in registry.tasks then {registry.tasks[taskId]} else {}
    ensures unlinked == Paths(filesInfo)
    ensures taskId !in registry.tasks ==> report == None && published == []
    ensures taskId in registry.tasks ==>
      var t := registry.tasks[taskId];
      var prompt := PromptToUse(customPrompt);
      var results := JobResults(filesInfo, prompt, old(t.selectedModels), s);
      && t.selectedModels == old(t.selectedModels) && t.total == old(t.total) && t.files == old(t.files)
      && t.progress == |filesInfo|
      && t.results == (if filesInfo == [] then old(t.results) else results)
      && published == Snapshots(filesInfo, prompt, old(t.selectedModels), s)
      && report == (if results != [] then Some(Report(results)) else None)
      && (results == [] ==>
            t.status == Failed && t.error == Some(AllImagesFailed) && t.excelFile == old(t.excelFile))
      && (results != [] && s.writeError.Some? ==>
            t.status == Failed && t.error == s.writeError && t.excelFile == old(t.excelFile))
      && (results != [] && s.writeError.None? ==>
            t.status == Completed && t.excelFile == Some(reportName) && t.error == old(t.error))
    ensures (taskId in registry.tasks && old(registry.tasks[taskId].error) == None
      && old(registry.tasks[taskId].excelFile) == None) ==> registry.tasks[taskId].Settled()
  {
    report := None;
    published := [];
    if taskId in registry.tasks {
      var task := registry.tasks[taskId];
      var results;
      results, published := AnalyzeEach(task, filesInfo, PromptToUse(customPrompt), s);
      if |results| > 0 {
        var sheet := GenerateExcelFile(results);
        report := Some(sheet);
      }
      task.Conclude(|results| > 0, s.writeError, reportName);
    }
    // finally: every staged file is unlinked; an unlink failure is swallowed
    unlinked := UnlinkAll(filesInfo);
  }

  /** The `finally` block: one unlink per staged file, in order. */
  method UnlinkAll(filesInfo: seq<FileInfo>) returns (unlinked: seq<string>)
    ensures unlinked == Paths(filesInfo)
  {
    unlinked := [];
    for k := 0 to |filesInfo|
      invariant unlinked == Paths(filesInfo[..k])
    {
      unlinked := unlinked + [filesInfo[k].filepath];
    }
    assert filesInfo[..|filesInfo|] == filesInfo;
  }

  /** Every recorded result passed the filter and carries the translation of its own text. */
  lemma {:induction false} JobResultsFiltered(files: seq<FileInfo>, prompt: string, models: seq<string>, s: Services)
    ensures forall r :: r in JobResults(files, prompt, models, s) ==>
      Kept(r.analysis) && r.englishAnalysis == TranslateToEnglish(s.translation(r.analysis))
  {
    if files != [] {
      var n := |files| - 1;
      JobResultsFiltered(files[..n], prompt, models, s);
      ImageResultsSound(files[n], SingleImagePairs(n, prompt, models, s), Translator(s));
    }
  }

  /** Results are append-only: what was published after the first k images is
      a prefix of the final list. */
  lemma {:induction false} JobResultsPrefix(files: seq<FileInfo>, k: nat, prompt: string, models: seq<string>, s: Services)
    requires k <= |files|
    ensures JobResults(files[..k], prompt, models, s) <= JobResults(files, prompt, models, s)
    decreases |files|
  {
    if k < |files| {
      var n := |files| - 1;
      var init := files[..n];
      assert init[..k] == files[..k];
      JobResultsPrefix(init, k, prompt, models, s);
      var last := ImageResults(files[n], SingleImagePairs(n, prompt, models, s), Translator(s));
      assert JobResults(files, prompt, models, s) == JobResults(init, prompt, models, s) + last;
      PrefixExtends(JobResults(files[..k], prompt, models, s), JobResults(init, prompt, models, s), last);
    } else {
      assert files[..k] == files;
    }
  }

  /** Image i yields no result: it was readable, there was at least one
      model, and no model replied with a text that passes the filter. */
  predicate ImageFails(i: nat, prompt: string, models: seq<string>, s: Services) {
    s.setupError(i).None? && models != [] &&
    forall j :: 0 <= j < |models| ==> !(s.reply(prompt, i, j).Content? && Kept(ReplyText(s.reply(prompt, i, j))))
  }

  lemma ImageResultsEmptyIff(file: FileInfo, i: nat, prompt: string, models: seq<string>, s: Services)
    ensures ImageResults(file, SingleImagePairs(i, prompt, models, s), Translator(s)) == [] <==> ImageFails(i, prompt, models, s)
  {
    var pairs := SingleImagePairs(i, prompt, models, s);
    ImageResultsEmpty(file, pairs, Translator(s));
    FallbackTextsAreKept(if s.setupError(i).Some? then s.setupError(i).value else "");
    if s.setupError(i).None? && models != [] {
      forall j | 0 <= j < |models|
        ensures Kept(pairs[j].text) <==> s.reply(prompt, i, j).Content? && Kept(s.reply(prompt, i, j).text)
      {
        ReplyTextKept(s.reply(prompt, i, j));
      }
    }
  }

  /** No image produced a result exactly when every image was readable, had
      at least one model, and every model's reply was empty, thrown, or
      itself opened with the failure marker. */
  lemma {:induction false} JobResultsEmptyIff(files: seq<FileInfo>, prompt: string, models: seq<string>, s: Services)
    ensures JobResults(files, prompt, models, s) == [] <==>
      forall i :: 0 <= i < |files| ==> ImageFails(i, prompt, models, s)
  {
    if files != [] {
      var n := |files| - 1;
      JobResultsEmptyIff(files[..n], prompt, models, s);
      ImageResultsEmptyIff(files[n], n, prompt, models, s);
    }
  }

  /** Model j answered image i with a text that passes the filter. */
  predicate Succeeds(i: nat, j: nat, prompt: string, s: Services) {
    s.reply(prompt, i, j).Content? && Kept(ReplyText(s.reply(prompt, i, j)))
  }

  /** `i * m`, written as repeated addition so that the index proofs stay linear. */
  function Rows(i: nat, m: nat): nat {
    if i == 0 then 0 else Rows(i - 1, m) + m
  }

  lemma {:induction false} RowsIsProduct(i: nat, m: nat)
    ensures Rows(i, m) == i * m
  {
    if i > 0 {
      RowsIsProduct(i - 1, m);
    }
  }

  lemma {:induction false} RowsMonotone(i: nat, n: nat, m: nat)
    requires i < n
    ensures Rows(i, m) + m <= Rows(n, m)
    decreases n
  {
    if i + 1 < n {
      RowsMonotone(i, n - 1, m);
    }
  }

  /** Every image was readable and every model answered it with a kept text. */
  predicate AllSucceed(files: seq<FileInfo>, prompt: string, models: seq<string>, s: Services) {
    models != []
    && (forall i :: 0 <= i < |files| ==> s.setupError(i).None?)
    && (forall i, j :: 0 <= i < |files| && 0 <= j < |models| ==> Succeeds(i, j, prompt, s))
  }

  /** The results one image adds when all of its calls succeed: one per model, in model order. */
  lemma ImageAllSucceed(file: FileInfo, n: nat, prompt: string, models: seq<string>, s: Services)
    requires models != [] && s.setupError(n).None?
    requires forall j :: 0 <= j < |models| ==> Succeeds(n, j, prompt, s)
    ensures |ImageResults(file, SingleImagePairs(n, prompt, models, s), Translator(s))| == |models|
    ensures forall j :: 0 <= j < |models| ==>
      ImageResults(file, SingleImagePairs(n, prompt, models, s), Translator(s))[j]
        == ResultOf(file, Pair(models[j], ReplyText(s.reply(prompt, n, j))), Translator(s))
  {
    var pairs := SingleImagePairs(n, prompt, models, s);
    forall j | 0 <= j < |models|
      ensures Kept(pairs[j].text) && pairs[j] == Pair(models[j], ReplyText(s.reply(prompt, n, j)))
    {
      assert Succeeds(n, j, prompt, s);
    }
    ImageResultsAllKept(file, pairs, Translator(s));
  }

  /** The blocks of a list of blocks, joined in order. */
  function Concat<T>(blocks: seq<seq<T>>): seq<T> {
    if blocks == [] then [] else Concat(blocks[..|blocks| - 1]) + blocks[|blocks| - 1]
  }

  /** When every block has length m, element j of block i sits at Rows(i, m) + j. */
  lemma {:induction false} ConcatUniform<T>(blocks: seq<seq<T>>, m: nat, i: nat, j: nat)
    requires forall k :: 0 <= k < |blocks| ==> |blocks[k]| == m
    requires i < |blocks| && j < m
    ensures |Concat(blocks)| == Rows(|blocks|, m)
    ensures Rows(i, m) + j < |Concat(blocks)| && Concat(blocks)[Rows(i, m) + j] == blocks[i][j]
  {
    var n := |blocks| - 1;
    var init := blocks[..n];
    ConcatLength(init, m);
    if i < n {
      ConcatUniform(init, m, i, j);
      RowsMonotone(i, n, m);
    }
  }

  lemma {:induction false} ConcatLength<T>(blocks: seq<seq<T>>, m: nat)
    requires forall k :: 0 <= k < |blocks| ==> |blocks[k]| == m
    ensures |Concat(blocks)| == Rows(|blocks|, m)
  {
    if blocks != [] {
      ConcatLength(blocks[..|blocks| - 1], m);
    }
  }

  /** The results image by image. */
  function PerImage(files: seq<FileInfo>, prompt: string, models: seq<string>, s: Services): seq<seq<AnalysisResult>> {
    seq(|files|, i requires 0 <= i < |files| => ImageResults(files[i], SingleImagePairs(i, prompt, models, s), Translator(s)))
  }

  /** The job's results are the images' results joined in image order. */
  lemma {:induction false} JobResultsConcat(files: seq<FileInfo>, prompt: string, models: seq<string>, s: Services)
    ensures JobResults(files, prompt, models, s) == Concat(PerImage(files, prompt, models, s))
  {
    if files != [] {
      var n := |files| - 1;
      JobResultsConcat(files[..n], prompt, models, s);
      assert PerImage(files, prompt, models, s)[..n] == PerImage(files[..n], prompt, models, s);
    }
  }

  lemma PerImageAllSucceed(files: seq<FileInfo>, prompt: string, models: seq<string>, s: Services, i: nat, j: nat)
    requires AllSucceed(files, prompt, models, s)
    requires i < |files| && j < |models|
    ensures |PerImage(files, prompt, models, s)[i]| == |models|
    ensures PerImage(files, prompt, models, s)[i][j]
      == ResultOf(files[i], Pair(models[j], ReplyText(s.reply(prompt, i, j))), Translator(s))
  {
    ImageAllSucceed(files[i], i, prompt, models, s);
  }

  /** When every call succeeds with a kept text, there is one result per
      (image, model) pair. */
  lemma JobResultsAllSucceedCount(files: seq<FileInfo>, prompt: string, models: seq<string>, s: Services)
    requires AllSucceed(files, prompt, models, s)
    ensures |JobResults(files, prompt, models, s)| == |files| * |models|
  {
    var m := |models|;
    var blocks := PerImage(files, prompt, models, s);
    JobResultsConcat(files, prompt, models, s);
    forall k | 0 <= k < |files|
      ensures |blocks[k]| == m
    {
      PerImageAllSucceed(files, prompt, models, s, k, 0);
    }
    ConcatLength(blocks, m);
    RowsIsProduct(|files|, m);
  }

  /** When every call succeeds with a kept text, results come in
      image-then-model order: the result of model j on image i sits at
      position i * |models| + j. */
  lemma JobResultsAllSucceedAt(files: seq<FileInfo>, prompt: string, models: seq<string>, s: Services, i: nat, j: nat)
    requires AllSucceed(files, prompt, models, s)
    requires i < |files| && j < |models|
    ensures var at := Rows(i, |models|) + j;
      && at == i * |models| + j
      && at < |JobResults(files, prompt, models, s)|
      && JobResults(files, prompt, models, s)[at]
           == ResultOf(files[i], Pair(models[j], ReplyText(s.reply(prompt, i, j))), Translator(s))
  {
    var m := |models|;
    var blocks := PerImage(files, prompt, models, s);
    JobResultsConcat(files, prompt, models, s);
    forall k | 0 <= k < |files|
      ensures |blocks[k]| == m
    {
      PerImageAllSucceed(files, prompt, models, s, k, 0);
    }
    ConcatUniform(blocks, m, i, j);
    RowsIsProduct(i, m);
    PerImageAllSucceed(files, prompt, models, s, i, j);
  }

  /** An empty model selection is kept as it is, so every readable image
      records the fallback pair as a result whose model is the failure marker. */
  lemma {:induction false} EmptySelectionRecordsFallback(files: seq<FileInfo>, prompt: string, s: Services)
    requires forall i :: 0 <= i < |files| ==> s.setupError(i).None?
    ensures |JobResults(files, prompt, [], s)| == |files|
    ensures forall i :: 0 <= i < |files| ==>
      JobResults(files, prompt, [], s)[i] == ResultOf(files[i], Pair(FailureMarker, NoModelsText), Translator(s))
  {
    if files != [] {
      var n := |files| - 1;
      var init := files[..n];
      EmptySelectionRecordsFallback(init, prompt, s);
      EmptySelectionImage(files[n], n, prompt, s);
      var prev := JobResults(init, prompt, [], s);
      var last := ResultOf(files[n], Pair(FailureMarker, NoModelsText), Translator(s));
      var all := JobResults(files, prompt, [], s);
      assert all == prev + [last];
      forall i | 0 <= i < |files|
        ensures all[i] == ResultOf(files[i], Pair(FailureMarker, NoModelsText), Translator(s))
      {
        if i < n {
          assert all[i] == prev[i];
          assert init[i] == files[i];
        }
      }
    }
  }

  /** With no model selected, a readable image contributes the one fallback result. */
  lemma EmptySelectionImage(file: FileInfo, i: nat, prompt: string, s: Services)
    requires s.setupError(i).None?
    ensures ImageResults(file, SingleImagePairs(i, prompt, [], s), Translator(s))
      == [ResultOf(file, Pair(FailureMarker, NoModelsText), Translator(s))]
  {
    FallbackTextsAreKept("");
    var pairs := SingleImagePairs(i, prompt, [], s);
    assert pairs == [Pair(FailureMarker, NoModelsText)];
    assert pairs[..0] == [];
  }

  /** An unreadable image is not skipped: its error text passes the filter
      and is recorded under the model name that is the failure marker. */
  lemma UnreadableImageRecorded(file: FileInfo, i: nat, prompt: string, models: seq<string>, s: Services)
    requires s.setupError(i).Some?
    ensures ImageResults(file, SingleImagePairs(i, prompt, models, s), Translator(s))
      == [ResultOf(file, Pair(FailureMarker, SetupErrorPrefix + s.setupError(i).value), Translator(s))]
  {
    FallbackTextsAreKept(s.setupError(i).value);
  }
}
