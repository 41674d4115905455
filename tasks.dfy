/**
 The entities both back ends share: staged files, model/text pairs,
 analysis results, report rows, the mutable task record and the registry
 that maps task ids to records, the built-in defaults, and the filter rule
 that decides which model/text pairs become analysis results.
 */
module Tasks {
  import opened Strings

  datatype Option<T> = None | Some(value: T) {
    function GetOr(default: T): T {
      if Some? then value else default
    }
  }

  datatype Status = Processing | Completed | Failed

  /** A staged upload: where it is stored, its staged name, and the name the user gave it. */
  datatype FileInfo = FileInfo(filepath: string, filename: string, originalName: string)

  /** One entry of the single-image analysis: a model name and the text recorded for it. */
  datatype Pair = Pair(model: string, text: string)

  datatype AnalysisResult = AnalysisResult(
    filename: string,
    originalFilename: string,
    model: string,
    analysis: string,
    englishAnalysis: string)

  /** What the translation service gave back: a content string, nothing, or an exception. */
  datatype TranslateReply = Translated(content: string) | NoContent | TranslateError(message: string)

  /** One spreadsheet row: image name, model name, analysis text, English text. */
  datatype Row = Row(image: string, model: string, analysis: string, english: string)

  const Header: Row := Row("图片名", "模型名", "分析内容", "英文prompt")

  /** The five model identifiers used when the caller selects none. */
  const DefaultModels: seq<string> := [
    "gpt-4o-0806",
    "anthropic.claude-sonnet-4-20250514-v1:0",
    "gpt-4.1",
    "Doubao-1.5-vision-pro-32k",
    "claude-3-7-sonnet-v1"
  ]

  const DefaultPrompt: string := "请分析这张图片的设计特点、视觉效果和用户体验要素。"

  /** The marker that opens every per-model failure text, and the model name of fallback entries. */
  const FailureMarker: string := "分析失败"
  const NoModelsText: string := "所有模型都无法完成分析"
  const SetupErrorPrefix: string := "分析过程中出现错误: "
  const AllImagesFailed: string := "所有图片分析失败"

  /** The prompt a job uses: the submitted one unless it is empty
      (`customPrompt || DEFAULT_PROMPT`, `custom_prompt if custom_prompt else DEFAULT_PROMPT`). */
  function PromptToUse(customPrompt: string): (p: string)
    ensures p != ""
    ensures customPrompt != "" ==> p == customPrompt
  {
    if customPrompt != "" then customPrompt else DefaultPrompt
  }

  /** The model list a new record gets: the submitted list, or the five defaults when none was submitted. */
  function ModelsToUse(selected: seq<string>): (ms: seq<string>)
    ensures ms != []
    ensures selected != [] ==> ms == selected
  {
    if selected != [] then selected else DefaultModels
  }

  const MaxFiles: nat := 10
  const MaxFileSize: nat := 16 * 1024 * 1024

  /** The filter both jobs apply to a pair's text before recording it. */
  predicate Kept(text: string) {
    text != "" && !StartsWith(text, FailureMarker)
  }

  /** The fallback texts are not prefixed by the failure marker, so they pass the filter. */
  lemma FallbackTextsAreKept(message: string)
    ensures Kept(NoModelsText)
    ensures Kept(SetupErrorPrefix + message)
    ensures !Kept(FailureMarker + message)
  {
    assert NoModelsText[..|FailureMarker|] != FailureMarker by {
      assert NoModelsText[0] != FailureMarker[0];
    }
    var s := SetupErrorPrefix + message;
    assert s[..|FailureMarker|] != FailureMarker by {
      assert s[2] == SetupErrorPrefix[2] != FailureMarker[2];
    }
    assert (FailureMarker + message)[..|FailureMarker|] == FailureMarker;
  }

  /** The staged name of the part at position i: timestamp, the 1-based position as two digits, and the part's (sanitised) name. */
  function StagedName(timestamp: string, i: nat, safeName: string): string {
    timestamp + "_" + ZeroPad2(i + 1) + "_" + safeName
  }

  /** Two parts of one request never share a staged name, whatever their
      original names: the two-digit position tells them apart. */
  lemma StagedNamesDistinct(timestamp: string, i: nat, j: nat, a: string, b: string)
    requires i < MaxFiles && j < MaxFiles && i != j
    ensures StagedName(timestamp, i, a) != StagedName(timestamp, j, b)
  {
    var t := |timestamp|;
    if StagedName(timestamp, i, a) == StagedName(timestamp, j, b) {
      assert StagedName(timestamp, i, a)[t + 1..t + 3] == ZeroPad2(i + 1);
      assert StagedName(timestamp, j, b)[t + 1..t + 3] == ZeroPad2(j + 1);
      ZeroPad2Injective(i + 1, j + 1);
    }
  }

  /** The first position below n whose write raises, if any. */
  function FirstSaveError(n: nat, saveError: nat -> Option<string>): (r: Option<nat>)
    ensures r.None? ==> forall k :: 0 <= k < n ==> saveError(k).None?
    ensures r.Some? ==> r.value < n && saveError(r.value).Some? && forall k :: 0 <= k < r.value ==> saveError(k).None?
  {
    if n == 0 then None
    else
      var r := FirstSaveError(n - 1, saveError);
      if r.Some? then r else if saveError(n - 1).Some? then Some(n - 1) else None
  }

  /** When the first i writes succeed and write i raises, i is the first failing position below any n > i. */
  lemma {:induction false} FirstSaveErrorAt(i: nat, n: nat, saveError: nat -> Option<string>)
    requires i < n && FirstSaveError(i, saveError).None? && saveError(i).Some?
    ensures FirstSaveError(n, saveError) == Some(i)
    decreases n
  {
    if n > i + 1 {
      FirstSaveErrorAt(i, n - 1, saveError);
    }
  }

  function ResultOf(file: FileInfo, p: Pair, translate: string -> string): AnalysisResult {
    AnalysisResult(file.filename, file.originalName, p.model, p.text, translate(p.text))
  }

  /** The results one image contributes: its kept pairs, in order, each with its translation. */
  function ImageResults(file: FileInfo, pairs: seq<Pair>, translate: string -> string): seq<AnalysisResult>
  {
    if pairs == [] then []
    else
      var last := pairs[|pairs| - 1];
      ImageResults(file, pairs[..|pairs| - 1], translate)
        + (if Kept(last.text) then [ResultOf(file, last, translate)] else [])
  }

  /** Every result of an image comes from one of its kept pairs, and every
      kept pair yields a result: nothing is invented and nothing is dropped. */
  lemma {:induction false} ImageResultsSound(file: FileInfo, pairs: seq<Pair>, translate: string -> string)
    ensures forall r :: r in ImageResults(file, pairs, translate) <==>
      exists p :: p in pairs && Kept(p.text) && r == ResultOf(file, p, translate)
  {
    if pairs != [] {
      var init := pairs[..|pairs| - 1];
      ImageResultsSound(file, init, translate);
      assert pairs == init + [pairs[|pairs| - 1]];
    }
  }

  /** An image adds no result exactly when none of its pairs passes the filter. */
  lemma {:induction false} ImageResultsEmpty(file: FileInfo, pairs: seq<Pair>, translate: string -> string)
    ensures ImageResults(file, pairs, translate) == [] <==> forall j :: 0 <= j < |pairs| ==> !Kept(pairs[j].text)
  {
    if pairs != [] {
      var init := pairs[..|pairs| - 1];
      ImageResultsEmpty(file, init, translate);
      assert forall j :: 0 <= j < |init| ==> init[j] == pairs[j];
    }
  }

  /** When every pair passes the filter, the image adds one result per pair, in pair order. */
  lemma {:induction false} ImageResultsAllKept(file: FileInfo, pairs: seq<Pair>, translate: string -> string)
    requires forall j :: 0 <= j < |pairs| ==> Kept(pairs[j].text)
    ensures |ImageResults(file, pairs, translate)| == |pairs|
    ensures forall j :: 0 <= j < |pairs| ==> ImageResults(file, pairs, translate)[j] == ResultOf(file, pairs[j], translate)
  {
    if pairs != [] {
      var init := pairs[..|pairs| - 1];
      ImageResultsAllKept(file, init, translate);
    }
  }

  /** The inner loop both jobs run over one image's pairs: append the kept ones. */
  method CollectKept(results: seq<AnalysisResult>, file: FileInfo, pairs: seq<Pair>, translate: string -> string)
    returns (out: seq<AnalysisResult>)
    ensures out == results + ImageResults(file, pairs, translate)
    ensures forall k :: |results| <= k < |out| ==> Kept(out[k].analysis) && out[k].englishAnalysis == translate(out[k].analysis)
  {
    out := results;
    for j := 0 to |pairs|
      invariant out == results + ImageResults(file, pairs[..j], translate)
      invariant forall k :: |results| <= k < |out| ==> Kept(out[k].analysis) && out[k].englishAnalysis == translate(out[k].analysis)
    {
      var p := pairs[j];
      if p.text != "" && !StartsWith(p.text, FailureMarker) {
        out := out + [ResultOf(file, p, translate)];
      }
      assert pairs[..j + 1][..j] == pairs[..j];
    }
    assert pairs[..|pairs|] == pairs;
  }

  function RowOf(r: AnalysisResult): Row {
    Row(r.originalFilename, r.model, r.analysis, r.englishAnalysis)
  }

  /** The report: a header row, then one row per result. */
  function Report(results: seq<AnalysisResult>): seq<Row> {
    [Header] + seq(|results|, k requires 0 <= k < |results| => RowOf(results[k]))
  }

  /** The mutable status record of one submitted job. */
  class TaskRecord {
    var status: Status
    var progress: nat
    var total: nat
    var results: seq<AnalysisResult>
    var error: Option<string>
    var excelFile: Option<string>
    var files: seq<FileInfo>
    var selectedModels: seq<string>

    /** The record a submission creates. */
    constructor (files: seq<FileInfo>, selectedModels: seq<string>)
      ensures status == Processing && progress == 0 && total == |files| && results == []
      ensures error == None && excelFile == None
      ensures this.files == files && this.selectedModels == selectedModels
    {
      status := Processing;
      progress := 0;
      total := |files|;
      results := [];
      error := None;
      excelFile := None;
      this.files := files;
      this.selectedModels := selectedModels;
    }

    /** The ending both jobs share once the loop is over. With results, the
        report name is recorded and the job completes, unless writing the
        report raised, which fails the job with that message; without
        results the job fails with the fixed message. Nothing else changes,
        and a record that had neither report name nor error ends settled. */
    method Conclude(hasResults: bool, writeError: Option<string>, reportName: string)
      modifies this
      ensures progress == old(progress) && total == old(total) && results == old(results)
      ensures files == old(files) && selectedModels == old(selectedModels)
      ensures !hasResults ==> status == Failed && error == Some(AllImagesFailed) && excelFile == old(excelFile)
      ensures hasResults && writeError.Some? ==> status == Failed && error == writeError && excelFile == old(excelFile)
      ensures hasResults && writeError.None? ==> status == Completed && excelFile == Some(reportName) && error == old(error)
      ensures old(error) == None && old(excelFile) == None ==> Settled()
    {
      if hasResults {
        match writeError {
          case Some(m) =>
            error := Some(m);
            status := Failed;
          case None =>
            excelFile := Some(reportName);
            status := Completed;
        }
      } else {
        error := Some(AllImagesFailed);
        status := Failed;
      }
    }

    /** A finished record: terminal status, and exactly one of the report
        name (on completion) and the error (on failure) is set. */
    predicate Settled()
      reads this
    {
      status != Processing
      && (excelFile.Some? <==> status == Completed)
      && (error.Some? <==> status == Failed)
    }
  }

  /** The process-wide map from task id to record. */
  class Registry {
    var tasks: map<string, TaskRecord>

    constructor ()
      ensures tasks == map[]
    {
      tasks := map[];
    }
  }
}
