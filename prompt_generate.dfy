/**
 The command-line batch analyser (prompt_generate.py): the directory image
 selector, the per-image, per-model analysis with its tag-and-strip pairing,
 the translation fallback, and the builder of spreadsheet rows, which keeps
 every pair (no filtering) and adds one failure row for an image whose
 analysis raised.

 The chat-completion service, base64 encoding, the directory listing and
 the spreadsheet writer are oracles gathered in `PyServices`; an image is
 identified by its position in the listing.
 */
module PromptGenerate {
  import opened Strings
  import opened Tasks

  /** What one chat-completion call for an (image, model) pair gave back. */
  datatype PyReply =
    | Content(text: string)   // `message.content`; "" also stands for `None`
    | Malformed               // the first choice has no `message.content`
    | NoChoices               // no response, or an empty `choices` list
    | Raised(message: string) // the call raised

  /** The outside world as the script sees it. */
  datatype PyServices = PyServices(
    // reading and base64-encoding image i raised with this message
    encodeError: nat -> Option<string>,
    // constructing the client for image i raised with this message
    clientError: nat -> Option<string>,
    // reply for (prompt, image position, model position)
    reply: (string, nat, nat) -> PyReply,
    // the translation service's answer for a text
    translation: string -> TranslateReply,
    // writing the spreadsheet raised with this message
    writeError: Option<string>)

  /** What analyze_single_image returns: a list of pairs, or, when encoding
      fails, a bare two-element tuple of strings. */
  datatype Outcome = Pairs(pairs: seq<Pair>) | BareTuple(first: string, second: string)

  const EncodeFailedLabel: string := "编码失败"
  const EncodeFailedPrefix: string := "图片base64编码失败: "
  const EmptyReplyText: string := "分析失败: 模型返回空结果"
  const MalformedText: string := "分析失败: 响应格式异常"
  const NoChoicesText: string := "分析失败: 响应为空或无choices"
  const TranslationFailedPrefix: string := "Translation failed: "
  /** `str(e)` of the AttributeError raised by `None.strip()`. */
  const NoneStripMessage: string := "'NoneType' object has no attribute 'strip'"
  const AnalysisFailedEnglish: string := "Analysis failed"
  const DefaultOutputFile: string := "D:\\code\\data\\主图优化1期\\1期-select\\9756\\result_with_english.xlsx"

  /** The six glob extensions, in the order the selector tries them. */
  const ImageExtensions: seq<string> := ["jpg", "jpeg", "png", "bmp", "gif", "tiff"]

  // ---------------------------------------------------------------- translation

  /** translate_to_english: the stripped reply, or "Translation failed: " and
      the exception text; it never raises. */
  function TranslateToEnglish(r: TranslateReply): (english: string)
    ensures r.Translated? ==> english == Trim(r.content, Python)
    ensures !r.Translated? ==> StartsWith(english, TranslationFailedPrefix)
    ensures r.TranslateError? ==> english[|TranslationFailedPrefix|..] == r.message
  {
    match r
    case Translated(c) =>
      Trim(c, Python)
    case NoContent =>
      assert (TranslationFailedPrefix + NoneStripMessage)[..|TranslationFailedPrefix|] == TranslationFailedPrefix;
      TranslationFailedPrefix + NoneStripMessage
    case TranslateError(m) =>
      assert (TranslationFailedPrefix + m)[..|TranslationFailedPrefix|] == TranslationFailedPrefix;
      TranslationFailedPrefix + m
  }

  /** A translation that arrived is returned fully stripped: the slice of
      the reply left once all leading and trailing whitespace is cut off, with
      no whitespace at either end, which stripping again leaves alone. */
  lemma TranslationStripped(r: TranslateReply)
    requires r.Translated?
    ensures var english := TranslateToEnglish(r);
      && (exists a, b :: 0 <= a <= b <= |r.content| && english == r.content[a..b]
            && (forall k :: 0 <= k < a ==> IsSpace(r.content[k], Python))
            && (forall k :: b <= k < |r.content| ==> IsSpace(r.content[k], Python)))
      && (english != [] ==> !IsSpace(english[0], Python) && !IsSpace(english[|english| - 1], Python))
      && Trim(english, Python) == english
  {
    TrimIsSlice(r.content, Python);
    TrimIdempotent(r.content, Python);
  }

  function Translator(s: PyServices): string -> string {
    text => TranslateToEnglish(s.translation(text))
  }

  // ---------------------------------------------------------------- one image

  /** The header each model's entry carries while the replies are collected. */
  function Tag(model: string): string {
    "[" + model + "分析结果]\n"
  }

  /** The second pass of analyze_single_image: drop the model's header when present. */
  function StripTag(text: string, model: string): string {
    if StartsWith(text, Tag(model)) then text[|Tag(model)|..] else text
  }

  /** Stripping undoes tagging, whatever the body. */
  lemma StripTagRoundTrip(model: string, body: string)
    ensures StripTag(Tag(model) + body, model) == body
  {
    assert (Tag(model) + body)[..|Tag(model)|] == Tag(model);
  }

  /** A text without the header is kept as it is. */
  lemma StripTagUntagged(text: string, model: string)
    requires !StartsWith(text, Tag(model))
    ensures StripTag(text, model) == text
  {
  }

  /** The text recorded for one model's reply, once its header is stripped. */
  function PyBody(r: PyReply): string {
    match r
    case Content(t) => if t != "" then t else EmptyReplyText
    case Malformed => MalformedText
    case NoChoices => NoChoicesText
    case Raised(m) => FailureMarker + ": " + m
  }

  /** Every failure text opens with the failure marker, so a reply's entry
      would pass the web job's filter exactly when the model replied with a
      non-empty text that does not itself open with the marker. */
  lemma PyBodyKept(r: PyReply)
    ensures Kept(PyBody(r)) <==> r.Content? && Kept(r.text)
  {
    assert EmptyReplyText[..|FailureMarker|] == FailureMarker;
    assert MalformedText[..|FailureMarker|] == FailureMarker;
    assert NoChoicesText[..|FailureMarker|] == FailureMarker;
    if r.Raised? {
      assert (FailureMarker + ": " + r.message)[..|FailureMarker|] == FailureMarker;
    }
  }

  /** What analyze_single_image returns for image `i`. */
  function SingleImageOutcome(i: nat, prompt: Option<string>, models: Option<seq<string>>, s: PyServices): Outcome {
    var p := prompt.GetOr(DefaultPrompt);
    var ms := models.GetOr(DefaultModels);
    if s.encodeError(i).Some? then BareTuple(EncodeFailedLabel, EncodeFailedPrefix + s.encodeError(i).value)
    else if s.clientError(i).Some? then Pairs([Pair(FailureMarker, SetupErrorPrefix + s.clientError(i).value)])
    else if ms == [] then Pairs([Pair(FailureMarker, NoModelsText)])
    else Pairs(seq(|ms|, j requires 0 <= j < |ms| => Pair(ms[j], PyBody(s.reply(p, i, j)))))
  }

  /** analyze_single_image. A missing prompt or model list means the
      defaults; an encoding failure gives the bare tuple; a client failure
      gives one setup-error pair; otherwise there is exactly one pair per
      model, in model order, whatever each call did. */
  method AnalyzeSingleImage(i: nat, prompt: Option<string>, models: Option<seq<string>>, s: PyServices)
    returns (out: Outcome)
    ensures out == SingleImageOutcome(i, prompt, models, s)
    ensures out.BareTuple? <==> s.encodeError(i).Some?
    ensures out.Pairs? ==> out.pairs != []
    ensures s.encodeError(i).None? && s.clientError(i).None? && models.GetOr(DefaultModels) != [] ==>
      var ms := models.GetOr(DefaultModels);
      out.Pairs? && |out.pairs| == |ms| &&
      forall j :: 0 <= j < |ms| ==>
        out.pairs[j].model == ms[j] &&
        (s.reply(prompt.GetOr(DefaultPrompt), i, j) == Content(out.pairs[j].text) ||
         StartsWith(out.pairs[j].text, FailureMarker))
  {
    var p := if prompt.None? then DefaultPrompt else prompt.value;
    var ms := if models.None? then DefaultModels else models.value;
    if s.encodeError(i).Some? {
      return BareTuple(EncodeFailedLabel, EncodeFailedPrefix + s.encodeError(i).value);
    }
    if s.clientError(i).Some? {
      return Pairs([Pair(FailureMarker, SetupErrorPrefix + s.clientError(i).value)]);
    }
    var analysisResults := TagEntries(p, i, ms, s);
    var pairs := StripEntries(ms, analysisResults);
    forall k | 0 <= k < |ms| ensures pairs[k] == Pair(ms[k], PyBody(s.reply(p, i, k))) {
      StripTagRoundTrip(ms[k], PyBody(s.reply(p, i, k)));
    }
    if pairs != [] {
      out := Pairs(pairs);
      forall j | 0 <= j < |ms| && s.reply(p, i, j) != Content(pairs[j].text)
        ensures StartsWith(pairs[j].text, FailureMarker)
      {
        PyBodyFailure(s.reply(p, i, j));
      }
    } else {
      out := Pairs([Pair(FailureMarker, NoModelsText)]);
    }
  }

  /** The first pass of analyze_single_image: one tagged entry per model, whatever the call did. */
  method TagEntries(p: string, i: nat, ms: seq<string>, s: PyServices) returns (analysisResults: seq<string>)
    ensures |analysisResults| == |ms|
    ensures forall k :: 0 <= k < |ms| ==> analysisResults[k] == Tag(ms[k]) + PyBody(s.reply(p, i, k))
  {
    analysisResults := [];
    for j := 0 to |ms|
      invariant |analysisResults| == j
      invariant forall k :: 0 <= k < j ==> analysisResults[k] == Tag(ms[k]) + PyBody(s.reply(p, i, k))
    {
      var entry;
      match s.reply(p, i, j) {
        case Content(t) =>
          entry := if t != "" then Tag(ms[j]) + t else Tag(ms[j]) + EmptyReplyText;
        case Malformed =>
          entry := Tag(ms[j]) + MalformedText;
        case NoChoices =>
          entry := Tag(ms[j]) + NoChoicesText;
        case Raised(m) =>
          entry := Tag(ms[j]) + (FailureMarker + ": " + m);
      }
      analysisResults := analysisResults + [entry];
    }
  }

  /** The second pass: pair each model with its entry, header stripped. */
  method StripEntries(ms: seq<string>, analysisResults: seq<string>) returns (pairs: seq<Pair>)
    requires |analysisResults| == |ms|
    ensures |pairs| == |ms|
    ensures forall k :: 0 <= k < |ms| ==> pairs[k] == Pair(ms[k], StripTag(analysisResults[k], ms[k]))
  {
    pairs := [];
    for j := 0 to |ms|
      invariant |pairs| == j
      invariant forall k :: 0 <= k < j ==> pairs[k] == Pair(ms[k], StripTag(analysisResults[k], ms[k]))
    {
      if j < |analysisResults| {
        var text := analysisResults[j];
        var clean := if StartsWith(text, Tag(ms[j])) then text[|Tag(ms[j])|..] else text;
        pairs := pairs + [Pair(ms[j], clean)];
      }
    }
  }

  /** A recorded text that is not the model's own reply is a failure text. */
  lemma PyBodyFailure(r: PyReply)
    ensures r != Content(PyBody(r)) ==> StartsWith(PyBody(r), FailureMarker)
  {
    assert EmptyReplyText[..|FailureMarker|] == FailureMarker;
    assert MalformedText[..|FailureMarker|] == FailureMarker;
    assert NoChoicesText[..|FailureMarker|] == FailureMarker;
    if r.Raised? {
      assert (FailureMarker + ": " + r.message)[..|FailureMarker|] == FailureMarker;
    }
  }

  // ---------------------------------------------------------------- directory listing

  /** glob's `*.<ext>` on one directory entry: not a hidden name, and the
      name ends in "." + ext; with `fold` (Windows) the comparison ignores
      ASCII case. */
  predicate GlobMatch(name: string, ext: string, fold: bool) {
    name != [] && name[0] != '.'
    && if fold then EndsWith(Lower(name), Lower("." + ext)) else EndsWith(name, "." + ext)
  }

  /** The entry matches the k-th extension in lower or upper case. */
  predicate MatchesExtension(name: string, k: nat, fold: bool)
    requires k < |ImageExtensions|
  {
    GlobMatch(name, ImageExtensions[k], fold) || GlobMatch(name, Upper(ImageExtensions[k]), fold)
  }

  predicate IsImageName(name: string, fold: bool) {
    exists k :: 0 <= k < |ImageExtensions| && MatchesExtension(name, k, fold)
  }

  /** glob.glob on the listing: the entries that match, in listing order. */
  function Glob(entries: seq<string>, ext: string, fold: bool): (r: seq<string>)
    ensures forall f :: f in r <==> f in entries && GlobMatch(f, ext, fold)
  {
    if entries == [] then []
    else
      var rest := Glob(entries[1..], ext, fold);
      assert entries == [entries[0]] + entries[1..];
      if GlobMatch(entries[0], ext, fold) then [entries[0]] + rest else rest
  }

  /** The sorted, duplicate-free listing of `found`. */
  function SortedSet(found: seq<string>): (r: seq<string>)
    ensures StrictlySorted(r)
    ensures forall f :: f in r <==> f in found
  {
    if found == [] then []
    else
      var init := found[..|found| - 1];
      assert found == init + [found[|found| - 1]];
      Insert(SortedSet(init), found[|found| - 1])
  }

  /** The entries that are images, in listing order. */
  function Selected(entries: seq<string>, fold: bool): (r: seq<string>)
    ensures forall f :: f in r <==> f in entries && IsImageName(f, fold)
  {
    if entries == [] then []
    else
      var rest := Selected(entries[1..], fold);
      assert entries == [entries[0]] + entries[1..];
      if IsImageName(entries[0], fold) then [entries[0]] + rest else rest
  }

  /** The images the selector lists. */
  function ImageListing(dirExists: bool, entries: seq<string>, fold: bool): seq<string> {
    if !dirExists then [] else SortedSet(Selected(entries, fold))
  }

  /** The listing is empty for a missing directory; otherwise it is sorted,
      holds no duplicates, and holds exactly the entries with one of the six
      extensions in lower or upper case; and it is the only list that does. */
  lemma ImageListingSpec(dirExists: bool, entries: seq<string>, fold: bool, other: seq<string>)
    ensures StrictlySorted(ImageListing(dirExists, entries, fold))
    ensures !dirExists ==> ImageListing(dirExists, entries, fold) == []
    ensures dirExists ==> forall f :: f in ImageListing(dirExists, entries, fold) <==> f in entries && IsImageName(f, fold)
    ensures StrictlySorted(other) && (forall f :: f in other <==> f in ImageListing(dirExists, entries, fold))
      ==> other == ImageListing(dirExists, entries, fold)
  {
    if StrictlySorted(other) && (forall f :: f in other <==> f in ImageListing(dirExists, entries, fold)) {
      StrictlySortedUnique(other, ImageListing(dirExists, entries, fold));
    }
  }

  /** get_image_files. For a missing directory, []; otherwise the sorted,
      duplicate-free list of entries with one of the six extensions in all
      lower or all upper case. */
  method GetImageFiles(dirExists: bool, entries: seq<string>, fold: bool) returns (files: seq<string>)
    ensures StrictlySorted(files)
    ensures !dirExists ==> files == []
    ensures dirExists ==> forall f :: f in files <==> f in entries && IsImageName(f, fold)
  {
    if !dirExists {
      return [];
    }
    var found: seq<string> := [];
    for k := 0 to |ImageExtensions|
      invariant forall f :: f in found <==>
        f in entries && exists k' :: 0 <= k' < k && MatchesExtension(f, k', fold)
    {
      var prev := found;
      var lower := Glob(entries, ImageExtensions[k], fold);
      var upper := Glob(entries, Upper(ImageExtensions[k]), fold);
      found := prev + lower + upper;
      forall f
        ensures f in found <==> f in entries && exists k' :: 0 <= k' < k + 1 && MatchesExtension(f, k', fold)
      {
        if f in entries && exists k' :: 0 <= k' < k + 1 && MatchesExtension(f, k', fold) {
          var k' :| 0 <= k' < k + 1 && MatchesExtension(f, k', fold);
          if k' < k {
            assert f in prev;
          } else {
            assert f in lower || f in upper;
          }
        }
        if f in found && f !in prev {
          assert f in lower || f in upper;
          assert MatchesExtension(f, k, fold);
        }
      }
    }
    // list(set(...)), then sorted(...)
    files := [];
    for j := 0 to |found|
      invariant StrictlySorted(files)
      invariant forall f :: f in files <==> f in found[..j]
    {
      files := Insert(files, found[j]);
    }
    assert found[..|found|] == found;
  }

  lemma NotEndsWith(s: string, suffix: string, k: nat)
    requires k < |suffix| <= |s| && s[|s| - |suffix| + k] != suffix[k]
    ensures !EndsWith(s, suffix)
  {
    assert s[|s| - |suffix|..][k] == s[|s| - |suffix| + k];
  }

  /** With case-sensitive matching, a mixed-case extension is not selected,
      while the all-upper form is. */
  lemma MixedCaseExtensionSkipped()
    ensures !IsImageName("a.Jpg", false)
    ensures IsImageName("a.JPG", false)
  {
    var uppers := ["JPG", "JPEG", "PNG", "BMP", "GIF", "TIFF"];
    forall k | 0 <= k < |ImageExtensions|
      ensures Upper(ImageExtensions[k]) == uppers[k]
    {
      var e := ImageExtensions[k];
      assert |Upper(e)| == |uppers[k]|;
      forall c | 0 <= c < |e| ensures Upper(e)[c] == uppers[k][c] {
        assert Upper(e)[c] == UpperChar(e[c]);
      }
    }
    assert "a.JPG"[1..] == "." + uppers[0];
    assert MatchesExtension("a.JPG", 0, false);
    var name := "a.Jpg";
    forall k | 0 <= k < |ImageExtensions|
      ensures !MatchesExtension(name, k, false)
    {
      var lower := "." + ImageExtensions[k];
      var upper := "." + uppers[k];
      if |lower| == 5 {
        NotEndsWith(name, lower, 0);
        NotEndsWith(name, upper, 0);
      } else {
        NotEndsWith(name, lower, 1);
        NotEndsWith(name, upper, if k == 0 then 2 else 1);
      }
    }
  }

  // ---------------------------------------------------------------- spreadsheet rows

  /** The row an image gets when iterating its outcome raises: unpacking the
      first string of a bare tuple into two names raises `ValueError`, whose
      text is `unpackMessage`. */
  function FailureRow(name: string, unpackMessage: string): Row {
    Row(name, FailureMarker, FailureMarker + ": " + unpackMessage, AnalysisFailedEnglish)
  }

  function PairRow(name: string, p: Pair, s: PyServices): Row {
    Row(name, p.model, p.text, TranslateToEnglish(s.translation(p.text)))
  }

  /** One row per pair, in pair order. */
  function PairRows(name: string, ps: seq<Pair>, s: PyServices): (r: seq<Row>)
    ensures |r| == |ps| && forall j :: 0 <= j < |ps| ==> r[j] == PairRow(name, ps[j], s)
  {
    if ps == [] then []
    else PairRows(name, ps[..|ps| - 1], s) + [PairRow(name, ps[|ps| - 1], s)]
  }

  /** The rows one image adds: one per pair, or the failure row. */
  function ImageRows(name: string, outcome: Outcome, s: PyServices, unpackMessage: string): seq<Row> {
    match outcome
    case BareTuple(_, _) => [FailureRow(name, unpackMessage)]
    case Pairs(ps) => PairRows(name, ps, s)
  }

  /** The rows of the whole listing, image by image. */
  function ExcelRows(images: seq<string>, prompt: string, models: seq<string>, s: PyServices, unpackMessage: string): seq<Row> {
    if images == [] then []
    else
      var n := |images| - 1;
      ExcelRows(images[..n], prompt, models, s, unpackMessage)
        + ImageRows(images[n], SingleImageOutcome(n, Some(prompt), Some(models), s), s, unpackMessage)
  }

  lemma ExcelRowsStep(images: seq<string>, i: nat, prompt: string, models: seq<string>, s: PyServices, unpackMessage: string)
    requires i < |images|
    ensures ExcelRows(images[..i + 1], prompt, models, s, unpackMessage)
      == ExcelRows(images[..i], prompt, models, s, unpackMessage)
         + ImageRows(images[i], SingleImageOutcome(i, Some(prompt), Some(models), s), s, unpackMessage)
  {
    assert images[..i + 1][..i] == images[..i];
  }

  /** One image's rows appended: the failure row for a bare tuple, otherwise one row per pair. */
  method AppendImageRows(rows: seq<Row>, name: string, outcome: Outcome, s: PyServices, unpackMessage: string)
    returns (out: seq<Row>)
    ensures out == rows + ImageRows(name, outcome, s, unpackMessage)
  {
    match outcome {
      case BareTuple(_, _) =>
        out := rows + [FailureRow(name, unpackMessage)];
      case Pairs(ps) =>
        out := AppendPairRows(rows, name, ps, s);
    }
  }

  /** The inner loop of analyze_images_to_excel: one row per pair, no filtering. */
  method AppendPairRows(rows: seq<Row>, name: string, ps: seq<Pair>, s: PyServices) returns (out: seq<Row>)
    ensures out == rows + PairRows(name, ps, s)
  {
    out := rows;
    for j := 0 to |ps|
      invariant out == rows + PairRows(name, ps[..j], s)
    {
      PairRowsStep(name, ps, j, s);
      out := out + [PairRow(name, ps[j], s)];
    }
    assert ps[..|ps|] == ps;
  }

  lemma PairRowsStep(name: string, ps: seq<Pair>, j: nat, s: PyServices)
    requires j < |ps|
    ensures PairRows(name, ps[..j + 1], s) == PairRows(name, ps[..j], s) + [PairRow(name, ps[j], s)]
  {
    assert ps[..j + 1][..j] == ps[..j];
  }

  /** analyze_images_to_excel. No images: nothing is written and the result
      is None. Otherwise the rows are those of every image in listing order,
      and the output path (defaulted) is returned unless the writer raised. */
  method AnalyzeImagesToExcel(
    dirExists: bool, entries: seq<string>, fold: bool,
    prompt: Option<string>, models: Option<seq<string>>, outputFile: Option<string>,
    s: PyServices, unpackMessage: string)
    returns (saved: Option<string>, rows: seq<Row>)
    ensures ImageListing(dirExists, entries, fold) == [] ==> saved == None && rows == []
    ensures ImageListing(dirExists, entries, fold) != [] ==>
      rows == ExcelRows(ImageListing(dirExists, entries, fold), prompt.GetOr(DefaultPrompt), models.GetOr(DefaultModels), s, unpackMessage)
      && saved == (if s.writeError.None? then Some(outputFile.GetOr(DefaultOutputFile)) else None)
  {
    var p := if prompt.None? then DefaultPrompt else prompt.value;
    var ms := if models.None? then DefaultModels else models.value;
    var output := if outputFile.None? then DefaultOutputFile else outputFile.value;
    var imageFiles := GetImageFiles(dirExists, entries, fold);
    ImageListingSpec(dirExists, entries, fold, imageFiles);
    assert imageFiles == ImageListing(dirExists, entries, fold);
    if imageFiles == [] {
      return None, [];
    }
    rows := [];
    for i := 0 to |imageFiles|
      invariant rows == ExcelRows(imageFiles[..i], p, ms, s, unpackMessage)
    {
      ExcelRowsStep(imageFiles, i, p, ms, s, unpackMessage);
      var outcome := AnalyzeSingleImage(i, Some(p), Some(ms), s);
      rows := AppendImageRows(rows, imageFiles[i], outcome, s, unpackMessage);
    }
    assert imageFiles[..|imageFiles|] == imageFiles;
    saved := if s.writeError.None? then Some(output) else None;
  }

  /** An image adds one row per pair of its outcome, or exactly one failure
      row; with every call set up and a non-empty model list, one row per
      model, in model order, carrying the model's text and its translation. */
  lemma ImageRowsCount(name: string, i: nat, prompt: string, models: seq<string>, s: PyServices, unpackMessage: string)
    ensures var rows := ImageRows(name, SingleImageOutcome(i, Some(prompt), Some(models), s), s, unpackMessage);
      && (s.encodeError(i).Some? ==> rows == [FailureRow(name, unpackMessage)])
      && (s.encodeError(i).None? && s.clientError(i).None? && models != [] ==>
            |rows| == |models| &&
            forall j :: 0 <= j < |models| ==>
              rows[j] == Row(name, models[j], PyBody(s.reply(prompt, i, j)),
                             TranslateToEnglish(s.translation(PyBody(s.reply(prompt, i, j))))))
  {
  }

  // ---------------------------------------------------------------- summary counts

  predicate IsFailureRow(r: Row) {
    r.model == FailureMarker
  }

  /** How many rows the closing summary counts as analysed (`failed` false) or as failed. */
  function CountRows(rows: seq<Row>, failed: bool): (n: nat)
    ensures n <= |rows|
  {
    if rows == [] then 0
    else CountRows(rows[1..], failed) + (if IsFailureRow(rows[0]) == failed then 1 else 0)
  }

  /** The two counts partition the rows. */
  lemma {:induction false} CountsPartition(rows: seq<Row>)
    ensures CountRows(rows, false) + CountRows(rows, true) == |rows|
  {
    if rows != [] {
      CountsPartition(rows[1..]);
    }
  }

  /** Counting distributes over concatenation. */
  lemma {:induction false} CountRowsAppend(a: seq<Row>, b: seq<Row>, failed: bool)
    ensures CountRows(a + b, failed) == CountRows(a, failed) + CountRows(b, failed)
  {
    if a == [] {
      assert a + b == b;
    } else {
      assert (a + b)[0] == a[0];
      assert (a + b)[1..] == a[1..] + b;
      CountRowsAppend(a[1..], b, failed);
    }
  }

  /** The fallback pairs are counted as failures even though their texts do
      not open with the failure marker, and so is an image whose encoding
      failed. */
  lemma FallbacksCountAsFailures(name: string, i: nat, prompt: string, models: seq<string>, s: PyServices, unpackMessage: string)
    requires s.encodeError(i).Some? || s.clientError(i).Some? || models == []
    ensures var rows := ImageRows(name, SingleImageOutcome(i, Some(prompt), Some(models), s), s, unpackMessage);
      |rows| == 1 && CountRows(rows, true) == 1 && CountRows(rows, false) == 0
  {
  }
}
