# Batch image analysis: job lifecycle model

This project models the core of a small web service that analyses batches
of product images with several vision models. Each image is sent to each
selected model. The analysis texts are filtered, translated into English
and collected into a spreadsheet report. A task record tracks progress and
the final outcome. The same logic exists twice, once as a Next.js back end
(TypeScript) and once as a Flask back end (Python). A command-line script
and the browser page that submits the uploads complete the core.

Modules:

- `Strings` (strings.dfy): prefix and suffix tests.
  - Whitespace trimming as JavaScript `trim` and Python `strip` define it.
  - ASCII case mapping and two-digit zero padding.
  - The code-point order Python's `sorted` uses, with a sorted insertion that drops duplicates.
  - An order-keeping filter, the shape of a list comprehension with a condition.
- `Tasks` (tasks.dfy): the entities both back ends share.
  - Staged file descriptors, model/text pairs, analysis results and report rows.
  - The task record (a class updated in place) and the registry of records.
  - The default prompt and model list, and the staged-name scheme.
  - The filter that decides which pairs become results.
- `ImageAnalysis` (image_analysis.dfy): lib/imageAnalysis.ts.
  - Single-image analysis, translation with its fallback, report rows.
  - The background job that fills and settles a task record.
- `PromptGenerate` (prompt_generate.dfy): the command-line script prompt_generate.py.
  - The directory image selector.
  - Single-image analysis with its tag-then-strip pairing.
  - The translation fallback, the spreadsheet row builder and its closing counts.
- `ApiApp` (api_app.dfy): the Flask back end api/app.py.
  - `allowed_file`, and validation, staging and registration in `upload_file`.
  - The background job `analyze_images_async` and `get_status`.
- `UploadRoute` (upload_route.dfy): the Next.js route app/api/upload/route.ts.
  - Validation order, the staged-file list and record creation.
  - The handler for a rejected analysis.
- `Page` (page.dfy): the state updaters of app/page.tsx.
  - File selection, file removal, model toggles and the submit guard.

Calls to the outside world are parameters:

- Model calls, translation calls, image reading and encoding, and the
  spreadsheet writer are oracle fields of the `Services` datatype
  (TypeScript) and the `PyServices` datatype (Python).
  - A model reply is looked up by (prompt, image position, model position).
  - A translation reply is looked up by the text.
  - A setup, encoding or write failure is an `Option<string>` holding the exception message.
- The wall clock and uuid generation become the `timestamp` and `taskId` parameters.
- `secure_filename` becomes the `secure` function parameter.
- Directory listings become a sequence of entry names.
- File-system failures become error parameters.

Quirks of the source are kept and stated as lemmas:

- The fallback pairs ("所有模型都无法完成分析", "分析过程中出现错误: …") pass the
  result filter and are recorded as results.
  - See `Tasks.FallbackTextsAreKept`, `ImageAnalysis.EmptySelectionRecordsFallback`,
    `ImageAnalysis.UnreadableImageRecorded` and `ApiApp.ClientFailureRecorded`.
- In Python, an encoding failure makes `analyze_single_image` return a bare
  two-string tuple. Unpacking it raises, so the Flask job skips the image
  without updating progress (`ApiApp.SkippedImageAddsNothing`). The same
  failure becomes a single failure row in the script (`PromptGenerate.ImageRowsCount`).
- The TypeScript job keeps an empty model selection (`task.selected_models ||
  DEFAULT_MODELS`), and every readable image then yields the no-model
  fallback result (`ImageAnalysis.EmptySelectionRecordsFallback`). The
  Flask job substitutes the defaults (`Tasks.ModelsToUse`).

## Model

| member | source | states |
|---|---|---|
| Strings.TrimIdempotent | lib/imageAnalysis.ts:58 | a trimmed text has no whitespace at either end, so trimming it again changes nothing |
| Strings.TrimIsSlice | prompt_generate.py:73 | trimming yields a contiguous slice of the input, and everything cut off before and after it is whitespace |
| Strings.TrimFixed | lib/imageAnalysis.ts:58 | a text with no whitespace at either end is left as it is |
| Strings.TrimStartSpec | lib/imageAnalysis.ts:58 | trimming the start removes exactly the leading whitespace: a suffix of the input, not opening with whitespace, everything removed was whitespace |
| Strings.TrimEndSpec | prompt_generate.py:73 | trimming the end removes exactly the trailing whitespace: a prefix of the input, not ending with whitespace, everything removed was whitespace |
| Strings.ZeroPad2 | api/app.py:198 | `{i+1:02d}`: below 10 a '0' then the digit; from 10 the decimal rendering; always two characters below 100 |
| Strings.TwoDigits | api/app.py:198 | below 100 the padded rendering is the tens digit then the units digit |
| Strings.ZeroPad2Injective | api/app.py:198 | distinct positions below 100 get distinct two-digit renderings |
| Strings.Insert | prompt_generate.py:105-108 | inserting keeps a list strictly sorted, and its elements are the old ones plus the new one (the set-then-sort step) |
| Strings.StrictlySortedUnique | prompt_generate.py:105-108 | two strictly sorted lists with the same elements are equal, so the sorted de-duplicated listing is unique |
| Strings.LessTotal | prompt_generate.py:108 | Python's string order is total on distinct strings |
| Strings.LessTransitive | prompt_generate.py:108 | Python's string order is transitive |
| Tasks.PromptToUse | lib/imageAnalysis.ts:164 | the prompt a job uses is never empty, and is the submitted one when that is non-empty |
| Tasks.ModelsToUse | api/app.py:211-214 | the models a record gets are never empty, and are the submitted list when that is non-empty |
| Tasks.Kept | lib/imageAnalysis.ts:175 | the filter both jobs apply (also api/app.py:82): a text is kept when it is non-empty and does not open with the failure marker |
| Tasks.FallbackTextsAreKept | lib/imageAnalysis.ts:130-134 | the no-model and setup-error fallback texts pass the filter; a text opening with the failure marker does not |
| Tasks.ImageResultsSound | lib/imageAnalysis.ts:173-187 | an image's results are exactly its kept pairs, each with its own translation: nothing invented, nothing dropped |
| Tasks.ImageResultsEmpty | lib/imageAnalysis.ts:173-174 | an image adds no result exactly when none of its pairs passes the filter |
| Tasks.ImageResultsAllKept | lib/imageAnalysis.ts:173-187 | when every pair passes, the image adds one result per pair, in pair order |
| Tasks.CollectKept | api/app.py:79-93 | the inner loop appends exactly the image's kept pairs to the results, each carrying its translation |
| Tasks.Report | lib/imageAnalysis.ts:235-255 | the reference report: the header row, then one row per result in order (original name, model, analysis, English analysis) |
| Tasks.StagedNamesDistinct | api/app.py:196-198 | two of the at most ten parts of one request never get the same staged name, whatever their own names |
| Tasks.FirstSaveError | api/app.py:195-205 | the position of the first write that raises: all earlier writes succeeded |
| Tasks.FirstSaveErrorAt | api/app.py:195-205 | when the first i writes succeed and write i raises, i is the first failure among any longer run |
| Tasks.TaskRecord.constructor | api/app.py:220-230 | a new record is processing, progress 0, total = number of staged files, no results, no error, no report |
| Tasks.Registry.constructor | api/app.py:37 | the registry starts empty |
| Tasks.TaskRecord.Conclude | lib/imageAnalysis.ts:200-219 | with results: the report name and completed, or failed with the write error; without: failed with "所有图片分析失败"; progress, total, results, files and models unchanged; a fresh record ends settled |
| Tasks.TaskRecord.Settled | lib/imageAnalysis.ts:200-219 | a finished record: not processing, with a report name exactly when completed and an error exactly when failed |
| ImageAnalysis.TranslateToEnglish | lib/imageAnalysis.ts:35-63 | never empty: the trimmed translation when it is non-empty, otherwise a text opening "Translation failed" |
| ImageAnalysis.ReplyTextKept | lib/imageAnalysis.ts:116-127 | a model's entry passes the filter exactly when the model replied with a non-empty text not opening with the failure marker |
| ImageAnalysis.AnalyzeSingleImage | lib/imageAnalysis.ts:68-136 | unreadable image: the single setup-error pair; no models: the single no-model pair; otherwise one pair per model in model order, with the reply or a failure-marked text |
| ImageAnalysis.GenerateExcelFile | lib/imageAnalysis.ts:239-255 | a header row, then one row per result in order, with original name, model, analysis and English analysis |
| ImageAnalysis.JobResults | lib/imageAnalysis.ts:155-198 | the reference results of the job: image by image, the kept pairs of each in pair order, each with its translation |
| ImageAnalysis.JobResultsStep | lib/imageAnalysis.ts:159-193 | the results of the first i+1 images are those of the first i followed by image i's kept pairs |
| ImageAnalysis.SnapshotsMonotone | lib/imageAnalysis.ts:190-191 | between any two snapshots a poller sees progress strictly grow and the results only grow by appending |
| ImageAnalysis.SnapshotsAt | lib/imageAnalysis.ts:190-191 | after image k the record shows progress k+1 and exactly the results of the first k+1 images |
| ImageAnalysis.AnalyzeEach | lib/imageAnalysis.ts:159-198 | the loop leaves progress = number of images and the accumulated results in the record, publishing a snapshot after each image, and changes no other field |
| ImageAnalysis.AnalyzeImagesAsync | lib/imageAnalysis.ts:141-230 | missing record: nothing changes; results: report and completed, or failed with the write error; no results: failed with "所有图片分析失败"; every file is unlinked; a fresh record ends settled |
| ImageAnalysis.UnlinkAll | lib/imageAnalysis.ts:220-229 | the finally loop unlinks every staged file, in order |
| ImageAnalysis.JobResultsFiltered | lib/imageAnalysis.ts:173-186 | every recorded result passed the filter and carries the translation of its own text |
| ImageAnalysis.JobResultsPrefix | lib/imageAnalysis.ts:159-193 | the results after any prefix of the images are a prefix of the final results |
| ImageAnalysis.ImageResultsEmptyIff | lib/imageAnalysis.ts:88-135 | an image yields nothing exactly when it was readable, had models, and no reply passed the filter |
| ImageAnalysis.JobResultsEmptyIff | lib/imageAnalysis.ts:200-212 | the job ends without results (and so failed) exactly when every image yields nothing |
| ImageAnalysis.JobResultsAllSucceedCount | lib/imageAnalysis.ts:159-187 | when every call succeeds there is one result per (image, model) |
| ImageAnalysis.JobResultsAllSucceedAt | lib/imageAnalysis.ts:159-187 | when every call succeeds, result i*m+j is image i's result for model j: image-then-model order |
| ImageAnalysis.EmptySelectionRecordsFallback | lib/imageAnalysis.ts:165 | with an empty model selection, every readable image records exactly one no-model fallback result |
| ImageAnalysis.EmptySelectionImage | lib/imageAnalysis.ts:130-131 | with no model selected a readable image yields exactly the one no-model fallback result |
| ImageAnalysis.UnreadableImageRecorded | lib/imageAnalysis.ts:131-134 | an unreadable image records exactly its setup-error fallback result |
| PromptGenerate.TranslateToEnglish | prompt_generate.py:37-77 | a translated reply gives its stripped content; without a translated text the result opens with "Translation failed"; on an exception it is that prefix followed by the message |
| PromptGenerate.TranslationStripped | prompt_generate.py:73 | a translated result is the slice of the reply left once all leading and trailing whitespace is cut off; it has no whitespace at either end, so stripping it again changes nothing |
| PromptGenerate.StripTagRoundTrip | prompt_generate.py:212-220 | stripping the model's header from a tagged entry gives back the body |
| PromptGenerate.StripTagUntagged | prompt_generate.py:216-219 | an entry without the header is kept as it is |
| PromptGenerate.PyBodyKept | prompt_generate.py:188-207 | every failure text opens with the failure marker; an entry passes the filter exactly when the reply was a non-empty text not opening with the marker |
| PromptGenerate.PyBodyFailure | prompt_generate.py:191-207 | an entry that is not the model's own text opens with the failure marker |
| PromptGenerate.TagEntries | prompt_generate.py:165-207 | one entry per model, in model order: the model's header followed by its reply or failure text |
| PromptGenerate.StripEntries | prompt_generate.py:211-220 | one pair per entry, naming the entry's model and carrying the entry with that model's header stripped |
| PromptGenerate.AnalyzeSingleImage | prompt_generate.py:110-230 | encoding failure exactly gives the bare tuple; client failure gives one setup-error pair; otherwise one pair per model, in model order, whatever each call did |
| PromptGenerate.Glob | prompt_generate.py:102-103 | the entries matching one pattern |
| PromptGenerate.SortedSet | prompt_generate.py:105-108 | strictly sorted, and holds exactly the listed names |
| PromptGenerate.Selected | prompt_generate.py:98-103 | the entries with one of the six extensions in lower or upper case |
| PromptGenerate.ImageListingSpec | prompt_generate.py:92-108 | empty for a missing directory; otherwise sorted, duplicate-free, exactly the image entries; and the only such list |
| PromptGenerate.GetImageFiles | prompt_generate.py:92-108 | the loop builds a sorted, duplicate-free list of exactly the entries with an allowed extension, or [] for a missing directory |
| PromptGenerate.MixedCaseExtensionSkipped | prompt_generate.py:101-103 | with case-sensitive matching "a.JPG" is selected and "a.Jpg" is not |
| PromptGenerate.AppendPairRows | prompt_generate.py:285-296 | one row per pair, no filtering, appended in order |
| PromptGenerate.PairRows | prompt_generate.py:285-296 | one row per pair, in pair order, naming the image and the pair's model, text and translation |
| PromptGenerate.AppendImageRows | prompt_generate.py:277-307 | an image appends one failure row for a bare tuple, otherwise its pair rows |
| PromptGenerate.AnalyzeImagesToExcel | prompt_generate.py:232-339 | no images: nothing written and None; otherwise the rows of every image in listing order, and the output path unless the writer raised |
| PromptGenerate.ImageRowsCount | prompt_generate.py:277-307 | an encoding failure gives exactly one failure row; otherwise one row per model in model order with its text and translation |
| PromptGenerate.CountRows | prompt_generate.py:330-331 | a count never exceeds the number of rows |
| PromptGenerate.CountsPartition | prompt_generate.py:330-331 | the success and failure counts add up to the number of rows |
| PromptGenerate.CountRowsAppend | prompt_generate.py:330-331 | the counts of concatenated rows add up |
| PromptGenerate.FallbacksCountAsFailures | prompt_generate.py:222-230 | an encoding, client or no-model failure gives one row, counted as a failure |
| ApiApp.Extension | api/app.py:41-42 | the text after the last '.', present exactly when there is a '.' |
| ApiApp.ExtensionOfSplit | api/app.py:41-42 | splitting at a '.' followed by a dot-free tail finds that tail |
| ApiApp.AllowedFileIff | api/app.py:39-42 | a name is allowed exactly when it is text, '.', and a dot-free tail whose lower case is one of the six extensions |
| ApiApp.AllowedFile | api/app.py:39-42 | allowed_file: the name has a '.', and the lower-cased text after the last one is one of the six extensions |
| ApiApp.ValidUpload | api/app.py:169 | a part is kept when its name is non-empty and allowed |
| ApiApp.ValidUploads | api/app.py:169 | the kept parts, in submission order, repeats kept |
| ApiApp.ValidUploadsMembers | api/app.py:169 | never more parts than submitted, and the kept parts are exactly those with a non-empty allowed name |
| ApiApp.ValidUploadsAppend | api/app.py:169 | a single part is kept exactly when it is valid, and filtering distributes over concatenation, so submission order and repeats are kept |
| ApiApp.FirstTooLarge | api/app.py:179-187 | none exactly when every part is within 16 MiB; otherwise the name of the first part over it |
| ApiApp.Rejection | api/app.py:159-187 | the message flashed before any write, in the source's order: no files field or all names empty, no valid part, more than ten, then the first part over 16 MiB; None when the request passes |
| ApiApp.RejectionIff | api/app.py:156-187 | a request passes exactly when it has a files field whose allowed parts number one to ten, all within 16 MiB |
| ApiApp.ValidUploadNamed | api/app.py:163-169 | a request with a kept part has a part with a non-empty name |
| ApiApp.SizesWithin | api/app.py:179-187 | no part is too large exactly when there is no first too-large part |
| ApiApp.Staged | api/app.py:194-205 | the staged descriptors of the first n parts, in submission order, keeping each part's own name |
| ApiApp.UploadFile | api/app.py:156-244 | a rejected request writes and registers nothing; a failing save flashes "上传失败: " and registers nothing; otherwise all parts are staged in order and a fresh processing record with the chosen models is registered |
| ApiApp.CheckSizes | api/app.py:179-187 | the size loop finds the first part over 16 MiB |
| ApiApp.SaveAll | api/app.py:194-205 | the save loop stages parts in order until the first save that raises |
| ApiApp.AnalyzeEach | api/app.py:69-102 | the loop publishes exactly the snapshots `PySnapshots` lists and leaves progress and results as the reference functions say; a skipped image changes nothing; no other field changes |
| ApiApp.AnalyzeOne | api/app.py:75-102 | an image whose encoding failed is skipped and adds nothing; otherwise its kept pairs are appended |
| ApiApp.PyJobStep | api/app.py:69-102 | one more image adds its kept results and sets progress to its position+1, unless it is skipped, when neither changes |
| ApiApp.ExcelData | api/app.py:110-117 | one spreadsheet record per result, in order, forming the report after the header |
| ApiApp.Existing | api/app.py:141-148 | the paths removed are exactly the staged paths still on disk |
| ApiApp.AnalyzeImagesAsync | api/app.py:58-148 | a missing record raises and publishes nothing; otherwise the record publishes exactly the snapshots `PySnapshots` lists, and results give a report and completed, or failed with the write error; none give failed with "所有图片分析失败"; staged files on disk are removed; a fresh record ends settled |
| ApiApp.RemoveStaged | api/app.py:141-148 | the finally loop removes each staged file that exists |
| ApiApp.ExistingStep | api/app.py:142-148 | the removal loop's step: one more file adds its path exactly when it exists |
| ApiApp.GetStatus | api/app.py:257-270 | 404 exactly for an unknown id; otherwise the record's status, progress, total, results, error and report name |
| ApiApp.SettledStatus | api/app.py:257-270 | a settled record is reported with exactly one of report name and error, matching its terminal status |
| ApiApp.PyProgressBounds | api/app.py:69-102 | progress never exceeds the number of images, reaches it exactly when the last image was not skipped, stays 0 exactly when all were skipped |
| ApiApp.PyJobResultsFiltered | api/app.py:79-93 | every recorded result passed the filter and carries the translation of its own text |
| ApiApp.SkippedImageAddsNothing | api/app.py:81-102 | an image whose encoding failed adds no result and leaves progress unchanged |
| ApiApp.PyJobResults | api/app.py:69-102 | the reference results of the Flask job: the kept pairs of every image that is not skipped, in image then pair order |
| ApiApp.PyProgress | api/app.py:94-102 | the reference progress: one past the last image that was not skipped, or 0 |
| ApiApp.PySnapshots | api/app.py:94-97 | what a poller can observe: one snapshot per completed image, its position + 1 and the results so far; a skipped image publishes nothing |
| ApiApp.PyProgressMonotone | api/app.py:94-102 | progress never goes back as the job walks more images |
| ApiApp.PySnapshotsLast | api/app.py:94-102 | every snapshot's progress is at most the final progress and its results a prefix of the final results; the last snapshot is the final record; there is none exactly when every image was skipped |
| ApiApp.PySnapshotsMonotone | api/app.py:94-102 | between two snapshots progress strictly grows and results only grow by appending |
| ApiApp.ClientFailureRecorded | api/app.py:76-93 | with a working client every result names a selected model; a client failure is recorded as its setup-error result |
| UploadRoute.FirstRefusal | app/api/upload/route.ts:30-37 | none exactly when every part is acceptable; otherwise the refusal of the first unacceptable part, type before size |
| UploadRoute.Rejection | app/api/upload/route.ts:18-37 | the 400 message, in the route's order: no parts, more than ten, then the first part of a disallowed type or over 16 MiB; None when the request passes |
| UploadRoute.RejectionIff | app/api/upload/route.ts:18-37 | a request passes exactly when it has one to ten parts, each of an allowed type and within 16 MiB |
| UploadRoute.SavedFiles | app/api/upload/route.ts:49-64 | one descriptor per part, in submission order, with the part's own name |
| UploadRoute.SavedNamesDistinct | app/api/upload/route.ts:54 | the parts of one request are written under distinct names and keep their own names |
| UploadRoute.CheckParts | app/api/upload/route.ts:30-37 | the validation loop finds the first refusal |
| UploadRoute.WriteAll | app/api/upload/route.ts:49-64 | the write loop writes parts in order until the first write that raises |
| UploadRoute.Post | app/api/upload/route.ts:11-107 | 400 before any write for a refused request; 500 with "上传失败: " and nothing registered on a write failure; otherwise a fresh processing record with the chosen models and the id in the answer |
| UploadRoute.OnAnalysisRejected | app/api/upload/route.ts:90-97 | a present record is marked failed with the message, nothing else changes; an absent one is left alone |
| Page.Ids | app/page.tsx:75 | the ids of the model options, in order |
| Page.PageDefaultsMatchServer | app/page.tsx:7-13 | the page offers exactly the servers' five default models, in the same order |
| Page.ValidFiles | app/page.tsx:28-32 | the selected files kept are exactly those of an allowed type and at most 16 MiB |
| Page.ValidFilesAppend | app/page.tsx:28-32 | the filter keeps selection order |
| Page.HandleFileSelect | app/page.tsx:25-40 | no selection changes nothing; an overflowing selection leaves the list and alerts; otherwise the list only grows at the end |
| Page.HandleFileSelectKeepsFilesOk | app/page.tsx:25-40 | the list stays at most ten acceptable files; refusal exactly on overflow; otherwise exactly the valid files are appended |
| Page.RemoveFile | app/page.tsx:59-61 | the list never grows |
| Page.RemoveFileSpec | app/page.tsx:59-61 | exactly the element at the index is removed and the rest keep their order; an index outside the list changes nothing |
| Page.RemoveFileKeepsFilesOk | app/page.tsx:59-61 | removing keeps the list within the page's limits |
| Page.Without | app/page.tsx:66 | the id is gone and every other id is kept |
| Page.ToggleModel | app/page.tsx:63-69 | the id is selected afterwards exactly when it was not before; other ids are unaffected |
| Page.ToggleTwiceRestores | app/page.tsx:63-69 | an absent id is appended at the end, and toggling it again restores the list |
| Page.ToggleKeepsDistinct | app/page.tsx:63-69 | toggling keeps the selection free of duplicates |
| Page.ToggleAllModels | app/page.tsx:71-77 | empty exactly when the selection had five entries, otherwise all default ids in page order |
| Page.ToggleAllTwice | app/page.tsx:71-77 | from the initial all-selected state toggling all clears and toggling again restores; the default ids are distinct |
| Page.SubmitGuard | app/page.tsx:82-90 | submission proceeds exactly when there are files and models, with the file alert taking precedence |
| Page.SubmittedRequestPasses | app/page.tsx:82-98 | a file list the page keeps within its limits, once submitted, passes the route's validation, and the route records the selected models |

## Left out

- Chat-completion and translation calls, image reading and base64 encoding are oracles: their outputs are parameters. HTTP clients, retries and the request payloads are not modelled.
- The background thread (api/app.py:233-238) and the un-awaited promise (app/api/upload/route.ts:89) are modelled as a job method the caller runs after registration. Pollers reading the record concurrently are not modelled; `ImageAnalysis.SnapshotsMonotone`, `ApiApp.PySnapshotsLast` and `ApiApp.PySnapshotsMonotone` state what a poller can observe between images.
- Aliasing of the results list: both jobs store the same list object in the record and keep appending to it. The model stores a fresh value after each image, which is what a poller sees at those points.
- cleanup_old_files (api/app.py:44-56) depends on the wall clock and file creation times. It is left out; it touches only files older than an hour.
- Timestamps, uuid generation and `secure_filename` are parameters. Report file names with timestamps are the `reportName` parameter.
- Flask's request-size limit (api/app.py:31) is not modelled. `MAX_CONTENT_LENGTH` is set to the per-file limit, and Flask enforces it when the form is first parsed, at `request.files` (api/app.py:159), inside the handler's `try`. The resulting `RequestEntityTooLarge` is an `Exception`, so `except Exception` (api/app.py:242-244) catches it: the user gets the flash "上传失败: " followed by the 413 error text and a redirect to the index, and nothing is written. The 413 handler at api/app.py:310-313 is not reached from this route. So `ApiApp.Rejection` and `ApiApp.RejectionIff` describe `upload_file` for a request body within 16 MiB: in the deployed app its per-file size branch (api/app.py:185) cannot fire, and ten files of 2 MiB each get that flash instead.
- Flask's flash/redirect/render routing and the `result`, `download_excel` and `cleanup` views are not modelled.
- The image metadata read with PIL and the unused `model_results` list in analyze_single_image, `read_pdf`, and `main`'s argument handling are not modelled.
- Spreadsheet column widths, fonts, fills and sheet names are presentation and are not modelled. The writer is an oracle that either succeeds or raises.
- `start_time` in the record is not modelled (it is never read by the core).
- PromptGenerate.Glob: returns entry names without the directory prefix, so the sort order is that of the names. Within one directory the prefix is common, so the order is the same.
- PromptGenerate.AnalyzeImagesToExcel: the text of the `ValueError` raised when a bare tuple is unpacked is the `unpackMessage` parameter. Output-directory creation is folded into the writer's failure.
- ApiApp.GetStatus: the `.get` defaults are not modelled, because every record the model creates has all six fields.
- ApiApp.UploadFile: a form without a `prompt` field is modelled as the empty prompt, which is what `request.form.get('prompt', '')` yields. An exception raised elsewhere in the handler (other than a failing save) is not modelled.
- UploadRoute.Post: `formData()` failing to parse is not modelled; the directory check and creation are folded into `dirError`. The `prompt` field is passed straight to the job and is not part of the route's answer.
- UploadRoute.OnAnalysisRejected: in this model the TypeScript job catches every failure itself, so the handler is stated on its own rather than wired to a job that rejects.
- Translation is modelled as a function of the text: two equal texts get the same translation.
- ImageAnalysis.JobResultsAllSucceedAt: the image-then-model order is stated for one (image, model) position at a time rather than as a single quantified statement.
- app/api/upload/route.ts:54 writes `${i + 1:02d}`, which is not valid TypeScript. The model uses the evidently intended two-digit 1-based position, as in api/app.py:198.
- The JSX rendering of app/page.tsx, app/layout.tsx and next.config.js are markup and configuration, and are not modelled.
