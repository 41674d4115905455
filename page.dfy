/**
 The state updaters of the upload page (app/page.tsx): adding selected
 files, removing one, toggling one model or all of them, and the guards in
 front of submission. Each updater is a function from the old list to the
 new one; the lemmas state the invariant the page keeps (at most ten files,
 each of an allowed type and size), the order the updaters preserve, and
 that a request the page submits passes the route's validation.
 */
module Page {
  import opened Tasks
  import opened UploadRoute

  /** One entry of the page's model list. */
  datatype ModelOption = ModelOption(id: string, name: string, description: string)

  const DefaultModelOptions: seq<ModelOption> := [
    ModelOption("gpt-4o-0806", "GPT-4o-0806", "OpenAI最新视觉模型"),
    ModelOption("anthropic.claude-sonnet-4-20250514-v1:0", "Claude Sonnet 4", "Anthropic高性能模型"),
    ModelOption("gpt-4.1", "GPT-4.1", "OpenAI增强版本"),
    ModelOption("Doubao-1.5-vision-pro-32k", "Doubao-1.5-vision-pro-32k", "字节跳动视觉模型"),
    ModelOption("claude-3-7-sonnet-v1", "Claude 3.7 Sonnet", "Anthropic经典模型")
  ]

  const NoFilesAlert: string := "请选择至少一张图片"
  const NoModelsAlert: string := "请选择至少一个分析模型"

  /** `DEFAULT_MODELS.map(m => m.id)`. */
  function Ids(options: seq<ModelOption>): (r: seq<string>)
    ensures |r| == |options| && forall k :: 0 <= k < |options| ==> r[k] == options[k].id
  {
    seq(|options|, k requires 0 <= k < |options| => options[k].id)
  }

  /** The page offers exactly the five models the servers fall back to, in the same order. */
  lemma PageDefaultsMatchServer()
    ensures Ids(DefaultModelOptions) == DefaultModels
  {
  }

  // ---------------------------------------------------------------- files

  /** The filter of handleFileSelect: the selected files of an allowed type and size, in selection order. */
  function ValidFiles(selected: seq<Part>): (r: seq<Part>)
    ensures |r| <= |selected|
    ensures forall p :: p in r <==> p in selected && Acceptable(p)
  {
    if selected == [] then []
    else
      assert selected == [selected[0]] + selected[1..];
      (if Acceptable(selected[0]) then [selected[0]] else []) + ValidFiles(selected[1..])
  }

  /** The filter keeps order: filtering a concatenation concatenates the filtered parts. */
  lemma {:induction false} ValidFilesAppend(a: seq<Part>, b: seq<Part>)
    ensures ValidFiles(a + b) == ValidFiles(a) + ValidFiles(b)
    decreases |a|
  {
    if a != [] {
      assert (a + b)[1..] == a[1..] + b;
      ValidFilesAppend(a[1..], b);
    } else {
      assert a + b == b;
    }
  }

  /** The page's file list: the new list and the alert shown, if any. */
  datatype FileListUpdate = FileListUpdate(files: seq<Part>, alert: Option<string>)

  /** handleFileSelect. No selection changes nothing; a selection whose
      valid files would take the list past ten is refused whole with an
      alert; otherwise the valid files are appended in order. */
  function HandleFileSelect(current: seq<Part>, selected: Option<seq<Part>>): (r: FileListUpdate)
    ensures selected.None? ==> r == FileListUpdate(current, None)
    ensures r.alert.Some? ==> r.files == current && r.alert == Some(TooManyMessage)
    ensures r.alert.None? ==> exists added :: r.files == current + added
  {
    if selected.None? then
      assert current + [] == current;
      FileListUpdate(current, None)
    else
      var valid := ValidFiles(selected.value);
      if |valid| + |current| > MaxFiles then
        FileListUpdate(current, Some(TooManyMessage))
      else FileListUpdate(current + valid, None)
  }

  /** The files on the page: at most ten, each of an allowed type and size. */
  predicate FilesOk(files: seq<Part>) {
    |files| <= MaxFiles && forall p :: p in files ==> Acceptable(p)
  }

  /** Selecting files keeps the page's list within the limits, refuses a
      selection exactly when its valid files would overflow the list, and
      otherwise adds exactly the valid selected files after the old ones. */
  lemma HandleFileSelectKeepsFilesOk(current: seq<Part>, selected: seq<Part>)
    requires FilesOk(current)
    ensures FilesOk(HandleFileSelect(current, Some(selected)).files)
    ensures HandleFileSelect(current, Some(selected)).alert.Some? <==> |current| + |ValidFiles(selected)| > MaxFiles
    ensures HandleFileSelect(current, Some(selected)).alert.None? ==>
      HandleFileSelect(current, Some(selected)).files == current + ValidFiles(selected)
      && forall p :: p in selected && Acceptable(p) ==> p in HandleFileSelect(current, Some(selected)).files
  {
  }

  /** removeFile: `prev.filter((_, i) => i !== index)`. */
  function RemoveFile(files: seq<Part>, index: int): (r: seq<Part>)
    ensures |r| <= |files|
    decreases |files|
  {
    if files == [] then []
    else (if index == 0 then [] else [files[0]]) + RemoveFile(files[1..], index - 1)
  }

  /** Removing position `index` drops exactly that element and keeps the
      others in order; an index outside the list changes nothing. */
  lemma RemoveFileSpec(files: seq<Part>, index: int)
    ensures 0 <= index < |files| ==> RemoveFile(files, index) == files[..index] + files[index + 1..]
    ensures !(0 <= index < |files|) ==> RemoveFile(files, index) == files
  {
    if 0 <= index < |files| {
      RemoveFileInside(files, index);
    } else {
      RemoveFileOutside(files, index);
    }
  }

  lemma {:induction false} RemoveFileInside(files: seq<Part>, index: nat)
    requires index < |files|
    ensures RemoveFile(files, index) == files[..index] + files[index + 1..]
    decreases |files|
  {
    if index == 0 {
      RemoveFileOutside(files[1..], -1);
      assert files[1..] == files[index + 1..];
    } else {
      var rest := files[1..];
      RemoveFileInside(rest, index - 1);
      assert RemoveFile(files, index) == [files[0]] + RemoveFile(rest, index - 1);
      assert rest[..index - 1] == files[1..index];
      assert rest[index..] == files[index + 1..];
      assert [files[0]] + files[1..index] == files[..index];
    }
  }

  lemma {:induction false} RemoveFileOutside(files: seq<Part>, index: int)
    requires !(0 <= index < |files|)
    ensures RemoveFile(files, index) == files
    decreases |files|
  {
    if files != [] {
      RemoveFileOutside(files[1..], index - 1);
      assert [files[0]] + files[1..] == files;
    }
  }

  /** Removing a file keeps the page's list within the limits. */
  lemma RemoveFileKeepsFilesOk(files: seq<Part>, index: int)
    requires FilesOk(files)
    ensures FilesOk(RemoveFile(files, index))
  {
    RemoveFileSpec(files, index);
    if 0 <= index < |files| {
      forall p | p in RemoveFile(files, index) ensures p in files {
        assert p in files[..index] || p in files[index + 1..];
      }
    }
  }

  // ---------------------------------------------------------------- models

  /** `prev.filter(id => id !== modelId)`. */
  function Without(s: seq<string>, x: string): (r: seq<string>)
    ensures x !in r
    ensures forall y :: y != x ==> (y in r <==> y in s)
    ensures |r| <= |s|
  {
    if s == [] then []
    else
      assert s == [s[0]] + s[1..];
      (if s[0] == x then [] else [s[0]]) + Without(s[1..], x)
  }

  lemma {:induction false} WithoutAbsent(s: seq<string>, x: string)
    requires x !in s
    ensures Without(s, x) == s
  {
    if s != [] {
      WithoutAbsent(s[1..], x);
      assert s == [s[0]] + s[1..];
    }
  }

  lemma {:induction false} WithoutAppended(s: seq<string>, x: string)
    ensures Without(s + [x], x) == Without(s, x)
  {
    if s != [] {
      assert (s + [x])[1..] == s[1..] + [x];
      WithoutAppended(s[1..], x);
    } else {
      assert Without([x][1..], x) == [];
    }
  }

  /** toggleModel: drop the id when selected, otherwise append it. */
  function ToggleModel(selected: seq<string>, id: string): (r: seq<string>)
    ensures id in r <==> id !in selected
    ensures forall y :: y != id ==> (y in r <==> y in selected)
  {
    if id in selected then Without(selected, id) else selected + [id]
  }

  /** Toggling an id that is not selected, and toggling it again, gives back the same list;
      toggling appends the id at the end. */
  lemma ToggleTwiceRestores(selected: seq<string>, id: string)
    requires id !in selected
    ensures ToggleModel(selected, id) == selected + [id]
    ensures ToggleModel(ToggleModel(selected, id), id) == selected
  {
    WithoutAppended(selected, id);
    WithoutAbsent(selected, id);
  }

  /** No id appears twice. */
  predicate Distinct(s: seq<string>) {
    forall i, j :: 0 <= i < j < |s| ==> s[i] != s[j]
  }

  lemma {:induction false} WithoutDistinct(s: seq<string>, x: string)
    requires Distinct(s)
    ensures Distinct(Without(s, x))
  {
    if s != [] {
      WithoutDistinct(s[1..], x);
      if s[0] != x {
        assert s[0] !in s[1..];
        assert Without(s, x) == [s[0]] + Without(s[1..], x);
      }
    }
  }

  /** Toggling keeps the selection free of duplicates. */
  lemma ToggleKeepsDistinct(selected: seq<string>, id: string)
    requires Distinct(selected)
    ensures Distinct(ToggleModel(selected, id))
  {
    if id in selected {
      WithoutDistinct(selected, id);
    }
  }

  /** toggleAllModels: clear a full-sized selection, otherwise select every default in page order. */
  function ToggleAllModels(selected: seq<string>): (r: seq<string>)
    ensures r == [] <==> |selected| == |DefaultModelOptions|
    ensures r != [] ==> r == Ids(DefaultModelOptions)
  {
    if |selected| == |DefaultModelOptions| then [] else Ids(DefaultModelOptions)
  }

  /** From the initial all-selected state, toggling all clears the selection and toggling again restores it. */
  lemma ToggleAllTwice()
    ensures ToggleAllModels(Ids(DefaultModelOptions)) == []
    ensures ToggleAllModels(ToggleAllModels(Ids(DefaultModelOptions))) == Ids(DefaultModelOptions)
    ensures Distinct(Ids(DefaultModelOptions))
  {
    var ids := Ids(DefaultModelOptions);
    assert ids == DefaultModels;
    assert ids[0][0] == 'g' && ids[1][0] == 'a' && ids[2][0] == 'g' && ids[3][0] == 'D' && ids[4][0] == 'c';
    assert ids[0][5] == 'o' && ids[2][5] == '.';
  }

  // ---------------------------------------------------------------- submit

  /** What handleSubmit does before building the form. */
  datatype SubmitDecision = Alert(message: string) | Submit

  function SubmitGuard(files: seq<Part>, selectedModels: seq<string>): (d: SubmitDecision)
    ensures d == Submit <==> files != [] && selectedModels != []
    ensures files == [] ==> d == Alert(NoFilesAlert)
    ensures files != [] && selectedModels == [] ==> d == Alert(NoModelsAlert)
  {
    if |files| == 0 then Alert(NoFilesAlert)
    else if |selectedModels| == 0 then Alert(NoModelsAlert)
    else Submit
  }

  /** What the page submits passes the route's validation: a list the page
      keeps within its limits, once the guard lets it through, is never
      refused with 400, and the route records the models the user selected. */
  lemma SubmittedRequestPasses(files: seq<Part>, selectedModels: seq<string>)
    requires FilesOk(files) && SubmitGuard(files, selectedModels) == Submit
    ensures Rejection(files) == None
    ensures ModelsToUse(selectedModels) == selectedModels
  {
    RejectionIff(files);
  }
}
