/**
 * The state of the SkuProcessor component of components/sku-processor.tsx and
 * the handlers that change it. The React state and the cancellation ref are the
 * fields of a `Processor`; the processed catalogs are objects, because a retry
 * copies the list but pushes into the catalogs it shares with it. Each handler
 * is a method whose loops are proved to end where the run functions of BatchRun
 * and RetryRun say.
 */
module SkuProcessor {
  import opened Wrappers
  import opened Text
  import opened BatchRun
  import RetryRun
  import Base64
  import DriveDownload

  // ------------------------------------------------------- getBase64Size

  /** The text after the first comma of `s`, if there is a comma. */
  function AfterComma(s: string): (r: Option<string>)
    ensures r.None? <==> ',' !in s
    ensures r.Some? ==> |r.value| < |s| && r.value == s[|s| - |r.value|..] && s[|s| - |r.value| - 1] == ','
    decreases |s|
  {
    if s == [] then None
    else if s[0] == ',' then Some(s[1..])
    else AfterComma(s[1..])
  }

  /** The text of `s` up to its first comma. */
  function UpToComma(s: string): (r: string)
    ensures r <= s && ',' !in r
    ensures |r| < |s| ==> s[|r|] == ','
    decreases |s|
  {
    if s == [] || s[0] == ',' then [] else [s[0]] + UpToComma(s[1..])
  }

  /** `dataUrl.split(",")[1] || ""`: the second comma-separated field, or empty text. */
  function Base64Field(dataUrl: string): (r: string)
    ensures ',' !in r && |r| <= |dataUrl|
  {
    match AfterComma(dataUrl)
    case None => ""
    case Some(rest) => UpToComma(rest)
  }

  /** `getBase64Size`: three quarters of the field's length less its padding,
      never below zero. */
  function GetBase64Size(dataUrl: string): (r: real)
    ensures r >= 0.0
    ensures r <= (|dataUrl| as real) * 0.75
  {
    var b := Base64Field(dataUrl);
    var size := (|b| as real) * 0.75 - (Base64.Padding(b) as real);
    if size > 0.0 then size else 0.0
  }

  lemma {:induction false} AfterCommaSkip(a: string, b: string)
    requires ',' !in a
    ensures AfterComma(a + b) == AfterComma(b)
    decreases |a|
  {
    if a != [] {
      assert (a + b)[0] == a[0] && a[0] != ',';
      assert (a + b)[1..] == a[1..] + b;
      assert forall c :: c in a[1..] ==> c in a;
      AfterCommaSkip(a[1..], b);
    } else {
      assert a + b == b;
    }
  }

  lemma {:induction false} UpToCommaAll(s: string)
    requires ',' !in s
    ensures UpToComma(s) == s
    decreases |s|
  {
    if s != [] {
      UpToCommaAll(s[1..]);
    }
  }

  /** The size the preview shows for a data URI of /api/download is the number of
      bytes the route encoded, whatever content type it names (a type has no comma). */
  lemma SizeOfRouteImage(contentType: string, bytes: seq<Base64.Byte>)
    requires ',' !in contentType
    ensures GetBase64Size(DriveDownload.DataUri(contentType, Base64.Encode(bytes))) == |bytes| as real
  {
    var b := Base64.Encode(bytes);
    FieldOfUri(contentType, b);
    Base64.EncodeSize(bytes);
    var size := (|b| as real) * 0.75 - (Base64.Padding(b) as real);
    assert 3 * |b| == 4 * (|bytes| + Base64.Padding(b));
    assert size == |bytes| as real;
  }

  /** The field `getBase64Size` measures in a data URI is its base 64 text. */
  lemma FieldOfUri(contentType: string, b: string)
    requires ',' !in contentType && ',' !in b
    ensures Base64Field(DriveDownload.DataUri(contentType, b)) == b
  {
    var head := "data:" + contentType + ";base64";
    assert DriveDownload.DataUri(contentType, b) == head + ([','] + b);
    assert ',' !in head;
    AfterCommaSkip(head, [','] + b);
    assert ([','] + b)[1..] == b;
    UpToCommaAll(b);
  }

  // ------------------------------------------------------- the preview

  /** A processed image as the preview lists it (`flattenedImages`). */
  datatype PreviewItem = PreviewItem(path: string, filename: string, data: string)

  /** `flattenedImages`: every entry of every catalog, in order, with its catalog's path. */
  function Flatten(outs: seq<Output>): (r: seq<PreviewItem>)
    ensures |r| == Successes(outs)
  {
    if outs == [] then []
    else
      seq(|outs[0].files|, i requires 0 <= i < |outs[0].files| =>
        PreviewItem(outs[0].path, outs[0].files[i].filename, outs[0].files[i].data))
      + Flatten(outs[1..])
  }

  /** An entry of a catalog appears in the flattened list with that catalog's path. */
  lemma {:induction false} FlattenHas(outs: seq<Output>, c: nat, i: nat)
    requires c < |outs| && i < |outs[c].files|
    ensures PreviewItem(outs[c].path, outs[c].files[i].filename, outs[c].files[i].data) in Flatten(outs)
    decreases c
  {
    if c == 0 {
      assert Flatten(outs)[i] == PreviewItem(outs[0].path, outs[0].files[i].filename, outs[0].files[i].data);
    } else {
      FlattenHas(outs[1..], c - 1, i);
    }
  }

  /** `flattenedImages.findIndex(...)`: the first image with that path and file name. */
  function FindImage(items: seq<PreviewItem>, path: string, filename: string): (r: Option<nat>)
    ensures r.Some? ==> r.value < |items| && items[r.value].path == path && items[r.value].filename == filename
    ensures r.Some? ==> forall j :: 0 <= j < r.value ==> !(items[j].path == path && items[j].filename == filename)
    ensures r.None? ==> forall j :: 0 <= j < |items| ==> !(items[j].path == path && items[j].filename == filename)
    decreases |items|
  {
    if items == [] then None
    else if items[0].path == path && items[0].filename == filename then Some(0)
    else match FindImage(items[1..], path, filename)
      case None => None
      case Some(j) => Some(j + 1)
  }

  /** `navigatePreview`: one step forwards or backwards round the `n` images; no
      preview open, or no images, leaves the index alone. */
  function NavigatePreview(current: Option<nat>, n: nat, direction: int): (r: Option<nat>)
    requires direction == 1 || direction == -1
    ensures current.None? || n == 0 ==> r == current
    ensures current.Some? && n > 0 ==> r.Some? && r.value < n
  {
    if current.None? || n == 0 then current
    else Some((current.value + direction + n) % n)
  }

  /** Inside the range a step moves to the neighbour, and from either end it wraps round. */
  lemma NavigateSteps(i: nat, n: nat)
    requires i < n
    ensures NavigatePreview(Some(i), n, 1) == Some(if i + 1 == n then 0 else i + 1)
    ensures NavigatePreview(Some(i), n, -1) == Some(if i == 0 then n - 1 else i - 1)
  {
    if i + 1 < n {
      WrapHigh(i + 1 + n, n);
    } else {
      WrapTwice(n);
    }
    if i > 0 {
      WrapHigh(i - 1 + n, n);
    } else {
      WrapLow(n - 1, n);
    }
  }

  lemma WrapHigh(x: int, n: int)
    requires 0 < n <= x < 2 * n
    ensures x % n == x - n
  {
  }

  lemma WrapTwice(n: int)
    requires 0 < n
    ensures (2 * n) % n == 0
  {
  }

  lemma WrapLow(x: int, n: int)
    requires 0 <= x < n
    ensures x % n == x
  {
  }

  /** A step forwards and a step back return to the image shown. */
  lemma NavigateBack(i: nat, n: nat)
    requires i < n
    ensures NavigatePreview(NavigatePreview(Some(i), n, 1), n, -1) == Some(i)
    ensures NavigatePreview(NavigatePreview(Some(i), n, -1), n, 1) == Some(i)
  {
    NavigateSteps(i, n);
    var f := if i + 1 == n then 0 else i + 1;
    var b := if i == 0 then n - 1 else i - 1;
    NavigateSteps(f, n);
    NavigateSteps(b, n);
  }

  /** Every image listed under a catalog can be opened in the preview. */
  lemma OpenFinds(outs: seq<Output>, c: nat, i: nat)
    requires c < |outs| && i < |outs[c].files|
    ensures FindImage(Flatten(outs), outs[c].path, outs[c].files[i].filename).Some?
  {
    FlattenHas(outs, c, i);
  }

  /** The effect that keeps the preview index in range (lines 148-152): an index
      past the images goes to the first image, or closes the preview when there
      is none. */
  function ClampPreview(index: Option<nat>, n: nat): (r: Option<nat>)
    ensures r.None? || r.value < n
    ensures index.Some? && index.value < n ==> r == index
    ensures index.None? ==> r.None?
    ensures index.Some? && index.value >= n ==> r == (if n > 0 then Some(0) else None)
  {
    if index.Some? && index.value >= n then (if n > 0 then Some(0) else None) else index
  }

  // ------------------------------------------------------- handleDownloadSingle

  /** The `download` name of one image: the catalog path with its slashes turned
      into dashes, a dash and the file name; the file name alone at the top level. */
  function DownloadName(path: string, filename: string): (r: string)
  {
    if path == "" then filename else ReplaceAll(path, "/", "-") + "-" + filename
  }

  lemma {:induction false} NoSlashLeft(s: string)
    ensures '/' !in ReplaceAll(s, "/", "-")
    decreases |s|
  {
    if |s| >= 1 {
      if s[..1] == "/" {
        NoSlashLeft(s[1..]);
      } else {
        assert s[0] != '/';
        NoSlashLeft(s[1..]);
      }
    }
  }

  /** A download name ends in the file name and carries no slash the file name
      does not: a nested catalog's image downloads as a single flat file. */
  lemma DownloadNameFlat(path: string, filename: string)
    ensures EndsWith(DownloadName(path, filename), filename)
    ensures '/' in DownloadName(path, filename) ==> '/' in filename
    ensures path == "" ==> DownloadName(path, filename) == filename
  {
    var r := DownloadName(path, filename);
    if path != "" {
      NoSlashLeft(path);
      var head := ReplaceAll(path, "/", "-") + "-";
      assert r == head + filename;
      assert r[|r| - |filename|..] == filename;
    } else {
      assert r[|r| - |filename|..] == filename;
    }
  }

  // ------------------------------------------------------- the buttons

  /** `canProcess`: there are catalogs and nothing is running. */
  predicate CanProcess(catalogs: seq<Catalog>, state: State) {
    |catalogs| > 0 && state == Idle
  }

  /** `isProcessing`: downloading, framing or zipping. */
  predicate IsProcessing(state: State) {
    state == Downloading || state == Processing || state == Zipping
  }

  /** The Process button is never enabled while a run is in progress, and a run
      that ends, completed or cancelled, shows no run in progress. */
  lemma ButtonsExclusive(catalogs: seq<Catalog>, state: State)
    ensures CanProcess(catalogs, state) ==> !IsProcessing(state)
    ensures !IsProcessing(Idle) && !IsProcessing(Complete)
    ensures CanProcess(catalogs, Idle) <==> catalogs != []
  {
  }

  // ------------------------------------------------------- the component's state

  /** A processed catalog, shared by reference between `processedFiles` and a
      retry's `newResults`. */
  class ProcessedCatalog {
    const path: string
    var files: seq<ProcessedFile>

    constructor (path: string, files: seq<ProcessedFile>)
      ensures this.path == path && this.files == files
    {
      this.path := path;
      this.files := files;
    }
  }

  /** The values a list of processed catalogs holds now. */
  function Snapshot(cats: seq<ProcessedCatalog>): (r: seq<Output>)
    reads cats
    ensures |r| == |cats|
    ensures forall i :: 0 <= i < |cats| ==> r[i] == Output(cats[i].path, cats[i].files)
  {
    if cats == [] then [] else [Output(cats[0].path, cats[0].files)] + Snapshot(cats[1..])
  }

  /** No catalog object occurs twice in the list. */
  predicate Distinct(cats: seq<ProcessedCatalog>) {
    forall i, j :: 0 <= i < j < |cats| ==> cats[i] != cats[j]
  }

  /** `newResults.find(r => r.path === path)`: the index of the first catalog with the path. */
  method FindCatalog(cats: seq<ProcessedCatalog>, path: string) returns (m: Option<nat>)
    ensures m.Some? ==> m.value < |cats| && cats[m.value].path == path
    ensures m.Some? ==> forall j :: 0 <= j < m.value ==> cats[j].path != path
    ensures m.None? ==> forall j :: 0 <= j < |cats| ==> cats[j].path != path
  {
    var i := 0;
    while i < |cats|
      invariant 0 <= i <= |cats|
      invariant forall j :: 0 <= j < i ==> cats[j].path != path
    {
      if cats[i].path == path {
        return Some(i);
      }
      i := i + 1;
    }
    return None;
  }

  /** Lines 583-596: the entry is pushed into the first catalog with its path,
      which may be one `processedFiles` still holds, or a new catalog is added. */
  method PlaceEntry(cats: seq<ProcessedCatalog>, path: string, f: ProcessedFile) returns (cats': seq<ProcessedCatalog>)
    requires Distinct(cats)
    modifies cats
    ensures Distinct(cats') && cats <= cats' && |cats'| <= |cats| + 1
    ensures forall i :: |cats| <= i < |cats'| ==> fresh(cats'[i])
    ensures Snapshot(cats') == RetryRun.Place(old(Snapshot(cats)), path, f)
  {
    ghost var before := Snapshot(cats);
    var m := FindCatalog(cats, path);
    if m.Some? {
      var c := cats[m.value];
      c.files := c.files + [f];
      cats' := cats;
      RetryRun.PlaceFound(before, path, f, m.value);
      assert forall j :: 0 <= j < |cats| && j != m.value ==> cats[j] != c;
      assert Snapshot(cats') == before[m.value := before[m.value].(files := before[m.value].files + [f])];
    } else {
      var c := new ProcessedCatalog(path, [f]);
      cats' := cats + [c];
      assert path !in RetryRun.Paths(before) by {
        forall j | 0 <= j < |before|
          ensures RetryRun.Paths(before)[j] != path
        {
          assert before[j].path == cats[j].path;
        }
      }
      RetryRun.PlaceNew(before, path, f);
      assert Snapshot(cats') == before + [Output(path, [f])];
    }
  }

  /** The counters and lists a run keeps in local variables: `failed` (a retry's
      `stillFailed`), `totalExpected`, `processedCount` (a retry's `retryCount`),
      and the downloads and cancellation checks made so far. */
  datatype Counters = Counters(failed: seq<FailedDownload>, expected: nat, count: nat, downloads: nat, checks: nat)

  class Processor {
    var catalogs: seq<Catalog>
    /** `frameImage !== null` */
    var hasFrame: bool
    var state: State
    var progress: Progress
    var processedFiles: seq<ProcessedCatalog>
    var failedDownloads: seq<FailedDownload>
    var error: Option<string>
    /** `cancelRequestedRef.current` */
    var cancelRequested: bool
    var previewIndex: Option<nat>

    /** The catalogs shown are distinct objects, as `handleProcess` creates them. */
    predicate Valid()
      reads this
    {
      Distinct(processedFiles)
    }

    /** A component with the catalogs parsed and the frame chosen, before any run. */
    constructor (catalogs: seq<Catalog>, hasFrame: bool)
      ensures this.catalogs == catalogs && this.hasFrame == hasFrame
      ensures state == Idle && progress == Progress(0, 0, Blank)
      ensures processedFiles == [] && failedDownloads == [] && error.None?
      ensures !cancelRequested && previewIndex.None?
      ensures Valid()
    {
      this.catalogs := catalogs;
      this.hasFrame := hasFrame;
      state := Idle;
      progress := Progress(0, 0, Blank);
      processedFiles := [];
      failedDownloads := [];
      error := None;
      cancelRequested := false;
      previewIndex := None;
    }

    /** The run's state as BatchRun describes it: the locals and the fields a run sets. */
    function TallyOf(results: seq<Output>, k: Counters): Tally
      reads this
    {
      Tally(results, k.failed, k.expected, k.count, k.downloads, k.checks, progress, state, cancelRequested)
    }

    /** The fields a step of a run leaves alone. */
    twostate predicate Steady()
      reads this
    {
      && catalogs == old(catalogs) && hasFrame == old(hasFrame)
      && processedFiles == old(processedFiles) && failedDownloads == old(failedDownloads)
      && error == old(error) && previewIndex == old(previewIndex)
    }

    /** `handleStopProcess`: raise the flag and say so in the progress line. */
    method HandleStopProcess()
      modifies this
      ensures cancelRequested && progress == old(progress).(message := StoppingNote)
      ensures Steady() && state == old(state)
    {
      cancelRequested := true;
      progress := progress.(message := StoppingNote);
    }

    /** `handleReset`: no catalogs, no frame, nothing processed, nothing failed. */
    method HandleReset()
      modifies this
      ensures catalogs == [] && !hasFrame && state == Idle && progress == Progress(0, 0, Blank)
      ensures processedFiles == [] && failedDownloads == [] && error.None?
      ensures !cancelRequested && previewIndex.None?
      ensures Valid()
    {
      hasFrame := false;
      catalogs := [];
      state := Idle;
      progress := Progress(0, 0, Blank);
      processedFiles := [];
      failedDownloads := [];
      error := None;
      cancelRequested := false;
      previewIndex := None;
    }

    /** The fields the preview controls leave alone. */
    twostate predicate OnlyPreview()
      reads this
    {
      && catalogs == old(catalogs) && hasFrame == old(hasFrame) && state == old(state)
      && progress == old(progress) && processedFiles == old(processedFiles)
      && failedDownloads == old(failedDownloads) && error == old(error)
      && cancelRequested == old(cancelRequested)
    }

    /** `openPreview`: show the first image with that path and file name; one
        not listed leaves the preview as it was. */
    method OpenPreview(path: string, filename: string)
      modifies this
      ensures OnlyPreview()
      ensures var found := FindImage(Flatten(Snapshot(processedFiles)), path, filename);
        previewIndex == if found.Some? then found else old(previewIndex)
    {
      var found := FindImage(Flatten(Snapshot(processedFiles)), path, filename);
      if found.Some? {
        previewIndex := found;
      }
    }

    /** `closePreview`. */
    method ClosePreview()
      modifies this
      ensures OnlyPreview() && previewIndex.None?
    {
      previewIndex := None;
    }

    /** `navigatePreview`: a step round the images listed. */
    method Navigate(direction: int)
      requires direction == 1 || direction == -1
      modifies this
      ensures OnlyPreview()
      ensures previewIndex == NavigatePreview(old(previewIndex), |Flatten(Snapshot(processedFiles))|, direction)
    {
      var n := |Flatten(Snapshot(processedFiles))|;
      if previewIndex.Some? && n > 0 {
        previewIndex := Some((previewIndex.value + direction + n) % n);
      }
    }

    /** The effect run when the images listed change: the index is kept in range. */
    method KeepPreviewInRange()
      modifies this
      ensures OnlyPreview()
      ensures previewIndex == ClampPreview(old(previewIndex), |Flatten(Snapshot(processedFiles))|)
      ensures previewIndex.Some? ==> previewIndex.value < |Flatten(Snapshot(processedFiles))|
    {
      var n := |Flatten(Snapshot(processedFiles))|;
      if previewIndex.Some? && previewIndex.value >= n {
        previewIndex := if n > 0 then Some(0) else None;
      }
    }

    /** A cancellation check of a run; a Stop press it observes is `handleStopProcess`. */
    method Poll(env: Env, results: seq<Output>, k: Counters) returns (k': Counters)
      modifies this
      ensures Steady() && state == old(state)
      ensures TallyOf(results, k') == Check(env, old(TallyOf(results, k)))
    {
      k' := k;
      if !cancelRequested {
        if env.stop(k.checks) {
          HandleStopProcess();
        }
        k' := k.(checks := k.checks + 1);
      }
    }

    /** The first half of an image of `handleProcess` (lines 428-456). */
    method StartImage(path: string, env: Env, results: seq<Output>, k: Counters) returns (k': Counters)
      modifies this
      ensures Steady()
      ensures TallyOf(results, k') == BeginImage(path, hasFrame, env, old(TallyOf(results, k)))
    {
      k' := Poll(env, results, k);
      if cancelRequested {
        return;
      }
      var n := k'.count + 1;
      k' := k'.(count := n);
      progress := Progress(n, k'.expected, DownloadingNote(path, n, k'.expected));
      if hasFrame {
        state := Processing;
        progress := Progress(n, k'.expected, FrameNote(path));
      }
      k' := Poll(env, results, k');
    }

    /** The images of one download in `handleProcess` (lines 427-467). */
    method ProcessImages(path: string, planned: string, imgs: seq<DownloadedImage>, env: Env,
                         results: seq<Output>, k: Counters, acc: seq<ProcessedFile>)
      returns (k': Counters, acc': seq<ProcessedFile>)
      modifies this
      ensures Steady()
      ensures (TallyOf(results, k'), acc') == RunImages(path, planned, imgs, hasFrame, env, old(TallyOf(results, k)), acc)
    {
      k', acc' := k, acc;
      var i := 0;
      while i < |imgs|
        invariant 0 <= i <= |imgs|
        invariant Steady()
        invariant RunImages(path, planned, imgs[i..], hasFrame, env, TallyOf(results, k'), acc')
          == RunImages(path, planned, imgs, hasFrame, env, old(TallyOf(results, k)), acc)
      {
        ghost var t := TallyOf(results, k');
        RunImagesStep(path, planned, imgs[i..], hasFrame, env, t, acc');
        assert imgs[i..][1..] == imgs[i + 1..];
        k' := StartImage(path, env, results, k');
        if cancelRequested {
          return;
        }
        var img := imgs[i];
        var processed := Framed(hasFrame, env.overlay, img.data);
        acc' := acc' + [ProcessedFile(FinalName(img.filename, planned), processed)];
        if hasFrame {
          state := Downloading;
        }
        i := i + 1;
      }
    }

    /** One file of `handleProcess` after its check (lines 420-474): the download,
        then its images, or the file on the failed list. */
    method ProcessFile(path: string, file: CatalogFile, env: Env, results: seq<Output>, k: Counters,
                       acc: seq<ProcessedFile>)
      returns (k': Counters, acc': seq<ProcessedFile>)
      modifies this
      ensures Steady()
      ensures (TallyOf(results, k'), acc') == DownloadFile(path, file, hasFrame, env, old(TallyOf(results, k)), acc)
    {
      var images := Fetch(env, k.downloads, file.url);
      if Success(images) {
        var extra := if |images.value| > 1 then |images.value| - 1 else 0;
        k' := k.(downloads := k.downloads + 1, expected := k.expected + extra);
        k', acc' := ProcessImages(path, file.filename, images.value, env, results, k', acc);
      } else {
        k' := k.(downloads := k.downloads + 1, failed := k.failed + [FailedDownload(path, file.url, file.filename)]);
        acc' := acc;
      }
    }

    /** The files of one catalog in `handleProcess` (lines 414-475): a check, the
        download, then its images or a failure. */
    method ProcessFiles(path: string, files: seq<CatalogFile>, env: Env, results: seq<Output>, k: Counters)
      returns (k': Counters, catalogFiles: seq<ProcessedFile>)
      modifies this
      ensures Steady()
      ensures (TallyOf(results, k'), catalogFiles) == RunFiles(path, files, hasFrame, env, old(TallyOf(results, k)), [])
    {
      k', catalogFiles := k, [];
      var j := 0;
      while j < |files|
        invariant 0 <= j <= |files|
        invariant Steady()
        invariant RunFiles(path, files[j..], hasFrame, env, TallyOf(results, k'), catalogFiles)
          == RunFiles(path, files, hasFrame, env, old(TallyOf(results, k)), [])
      {
        ghost var t := TallyOf(results, k');
        assert files[j..][1..] == files[j + 1..];
        k' := Poll(env, results, k');
        if cancelRequested {
          return;
        }
        RunFilesStep(path, files[j..], hasFrame, env, t, catalogFiles);
        assert files[j..][0] == files[j];
        k', catalogFiles := ProcessFile(path, files[j], env, results, k', catalogFiles);
        j := j + 1;
      }
    }

    /** Lines 481-486: a finished catalog with an entry joins the results as a new object. */
    static method AddCatalog(results: seq<ProcessedCatalog>, path: string, catalogFiles: seq<ProcessedFile>)
      returns (results': seq<ProcessedCatalog>)
      requires Distinct(results)
      ensures Distinct(results') && results <= results'
      ensures forall i :: |results| <= i < |results'| ==> fresh(results'[i])
      ensures Snapshot(results') == Snapshot(results) + HeadOf(path, catalogFiles)
    {
      results' := results;
      if |catalogFiles| > 0 {
        var c := new ProcessedCatalog(path, catalogFiles);
        results' := results + [c];
        assert Snapshot(results') == Snapshot(results) + [Output(path, catalogFiles)];
      }
    }

    /** One catalog of `handleProcess` (lines 407-486): a check, its files, and
        its entry in the results. */
    method ProcessCatalog(catalog: Catalog, env: Env, results: seq<ProcessedCatalog>, k: Counters)
      returns (results': seq<ProcessedCatalog>, k': Counters)
      requires Distinct(results)
      modifies this
      ensures Steady()
      ensures Distinct(results') && results <= results'
      ensures forall j :: |results| <= j < |results'| ==> fresh(results'[j])
      ensures TallyOf(Snapshot(results'), k') == CatalogStep(catalog, hasFrame, env, old(TallyOf(Snapshot(results), k)))
    {
      results' := results;
      k' := Poll(env, Snapshot(results), k);
      if cancelRequested {
        return;
      }
      var catalogFiles;
      k', catalogFiles := ProcessFiles(catalog.path, catalog.files, env, Snapshot(results), k');
      if cancelRequested {
        return;
      }
      ghost var done := TallyOf(Snapshot(results), k');
      results' := AddCatalog(results, catalog.path, catalogFiles);
      assert TallyOf(Snapshot(results'), k') == Finished(done, catalog.path, catalogFiles);
    }

    /** One catalog, as a step of BatchRun.RunCatalogs over the catalogs `rest`
        still to do, from the run's state `t` to the returned `r`. */
    method NextCatalog(catalog: Catalog, env: Env, results: seq<ProcessedCatalog>, k: Counters,
                       ghost rest: seq<Catalog>, ghost t: Tally)
      returns (results': seq<ProcessedCatalog>, k': Counters, ghost r: Tally)
      requires rest != [] && rest[0] == catalog && Distinct(results)
      requires t == TallyOf(Snapshot(results), k)
      modifies this
      ensures Steady()
      ensures Distinct(results') && results <= results'
      ensures forall j :: |results| <= j < |results'| ==> fresh(results'[j])
      ensures r == TallyOf(Snapshot(results'), k')
      ensures RunCatalogs(rest, hasFrame, env, t) == if r.cancelled then r else RunCatalogs(rest[1..], hasFrame, env, r)
    {
      RunCatalogsUnfold(rest, hasFrame, env, t);
      results', k' := ProcessCatalog(catalog, env, results, k);
      r := TallyOf(Snapshot(results'), k');
    }

    /** The catalogs of `handleProcess` (lines 406-487), until a check finds the
        run cancelled. */
    method ProcessCatalogs(env: Env, k: Counters) returns (results: seq<ProcessedCatalog>, k': Counters)
      modifies this
      ensures Steady()
      ensures forall j :: 0 <= j < |results| ==> fresh(results[j])
      ensures Distinct(results)
      ensures TallyOf(Snapshot(results), k') == RunCatalogs(catalogs, hasFrame, env, old(TallyOf([], k)))
    {
      results, k' := [], k;
      ghost var t0 := TallyOf([], k);
      ghost var t := t0;
      ghost var rest := catalogs;
      var i := 0;
      while i < |catalogs|
        invariant 0 <= i <= |catalogs| && rest == catalogs[i..]
        invariant Steady()
        invariant forall j :: 0 <= j < |results| ==> fresh(results[j])
        invariant Distinct(results)
        invariant t == TallyOf(Snapshot(results), k')
        invariant RunCatalogs(rest, hasFrame, env, t) == RunCatalogs(catalogs, hasFrame, env, t0)
      {
        results, k', t := NextCatalog(catalogs[i], env, results, k', rest, t);
        if cancelRequested {
          return;
        }
        rest := rest[1..];
        i := i + 1;
      }
    }

    /** The end of `handleProcess` (lines 489-515): the results and failures are
        shown; a cancelled run goes back to idle with the cancelled progress line,
        a completed one is complete with the error its counts call for. */
    method Finish(results: seq<ProcessedCatalog>, k: Counters, successCount: nat)
      modifies this
      ensures processedFiles == results && failedDownloads == k.failed
      ensures catalogs == old(catalogs) && hasFrame == old(hasFrame) && previewIndex == old(previewIndex)
      ensures cancelRequested == old(cancelRequested)
      ensures cancelRequested ==> state == Idle && progress == CancelledProgress && error == old(error)
      ensures !cancelRequested ==> state == Complete && progress == old(progress)
      ensures !cancelRequested && old(error).None? ==> error == CompletionError(successCount, |k.failed|, k.expected)
    {
      processedFiles := results;
      failedDownloads := k.failed;
      if cancelRequested {
        state := Idle;
        progress := CancelledProgress;
        return;
      }
      state := Complete;
      if successCount == 0 {
        error := Some(AllFailedMessage(k.expected));
      } else if |k.failed| > 0 {
        error := Some(SomeFailedMessage(|k.failed|, k.expected));
      }
    }

    /** `handleProcess`: with catalogs, a run over all of them from a clean slate.
        The results are new catalog objects; a cancelled run still shows what it
        finished, with the cancelled progress line; a completed one shows its
        progress and the error `CompletionError` gives. */
    method HandleProcess(env: Env)
      requires Valid()
      modifies this
      ensures Valid()
      ensures old(catalogs) == [] ==> unchanged(this)
      ensures catalogs == old(catalogs) && hasFrame == old(hasFrame)
      ensures old(catalogs) != [] ==>
        var r := Process(catalogs, hasFrame, env, old(progress));
        && (forall j :: 0 <= j < |processedFiles| ==> fresh(processedFiles[j]))
        && Snapshot(processedFiles) == r.results && failedDownloads == r.failed
        && cancelRequested == r.cancelled && previewIndex.None?
        && (r.cancelled ==> state == Idle && progress == CancelledProgress && error.None?)
        && (!r.cancelled ==> state == Complete && progress == r.progress
                             && error == CompletionError(Successes(r.results), |r.failed|, r.expected))
    {
      if |catalogs| == 0 {
        return;
      }
      processedFiles := [];
      failedDownloads := [];
      Begin();
      var totalUrls := TotalFiles(catalogs);
      var results, k := ProcessCatalogs(env, Counters([], totalUrls, 0, 0, 0));
      var successCount := Successes(Snapshot(results));
      Finish(results, k, successCount);
    }

    // ----------------------------------------------------- handleRetryFailed

    /** The start shared by both runs: downloading, no error, the flag lowered and
        the preview closed. */
    method Begin()
      modifies this
      ensures state == Downloading && error.None? && !cancelRequested && previewIndex.None?
      ensures catalogs == old(catalogs) && hasFrame == old(hasFrame) && progress == old(progress)
      ensures processedFiles == old(processedFiles) && failedDownloads == old(failedDownloads)
    {
      state := Downloading;
      error := None;
      cancelRequested := false;
      previewIndex := None;
    }

    /** The first part of a retried image (lines 553-580): the count and the
        progress line, a check, the frame's processing state, and a check. */
    method StartRetryImage(path: string, env: Env, results: seq<Output>, k: Counters) returns (k': Counters)
      requires !cancelRequested
      modifies this
      ensures Steady()
      ensures TallyOf(results, k') == RetryRun.RetryStart(path, hasFrame, env, old(TallyOf(results, k)))
    {
      var n := k.count + 1;
      k' := k.(count := n);
      progress := Progress(n, k'.expected, RetryingNote(path, n, k'.expected));
      k' := Poll(env, results, k');
      if cancelRequested {
        return;
      }
      if hasFrame {
        state := Processing;
        progress := Progress(n, k'.expected, FrameNote(path));
      }
      k' := Poll(env, results, k');
    }

    /** After an entry is pushed, a frame's processing state goes back to downloading. */
    method EndImage()
      modifies this
      ensures Steady() && progress == old(progress) && cancelRequested == old(cancelRequested)
      ensures state == if hasFrame then Downloading else old(state)
    {
      if hasFrame {
        state := Downloading;
      }
    }

    /** One image of a retried file (lines 553-600): the count and the progress
        line, a check, the frame, a check, and the entry merged into the results. */
    method RetryImage(path: string, planned: string, img: DownloadedImage, env: Env,
                      cats: seq<ProcessedCatalog>, k: Counters)
      returns (cats': seq<ProcessedCatalog>, k': Counters)
      requires !cancelRequested && Distinct(cats)
      modifies this, cats
      ensures Steady()
      ensures Distinct(cats') && cats <= cats'
      ensures forall j :: |cats| <= j < |cats'| ==> fresh(cats'[j])
      ensures TallyOf(Snapshot(cats'), k') == RetryRun.RetryImage(path, planned, img, hasFrame, env, old(TallyOf(Snapshot(cats), k)))
    {
      cats' := cats;
      k' := StartRetryImage(path, env, Snapshot(cats), k);
      if cancelRequested {
        return;
      }
      var processed := Framed(hasFrame, env.overlay, img.data);
      var finalName := FinalName(img.filename, planned);
      cats' := PlaceEntry(cats, path, ProcessedFile(finalName, processed));
      EndImage();
    }

    /** One image of a retried file, as a step of RetryRun.RetryImages over the
        images `rest` still to do, from the run's state `t` to the returned `r`. */
    method RetryNext(path: string, planned: string, img: DownloadedImage, env: Env,
                     cats: seq<ProcessedCatalog>, k: Counters, ghost rest: seq<DownloadedImage>, ghost t: Tally)
      returns (cats': seq<ProcessedCatalog>, k': Counters, ghost r: Tally)
      requires rest != [] && rest[0] == img && !cancelRequested && Distinct(cats)
      requires t == TallyOf(Snapshot(cats), k)
      modifies this, cats
      ensures Steady()
      ensures Distinct(cats') && cats <= cats'
      ensures forall j :: |cats| <= j < |cats'| ==> fresh(cats'[j])
      ensures r == TallyOf(Snapshot(cats'), k')
      ensures RetryRun.RetryImages(path, planned, rest, hasFrame, env, t)
        == if r.cancelled then r else RetryRun.RetryImages(path, planned, rest[1..], hasFrame, env, r)
    {
      RetryRun.RetryImagesStep(path, planned, rest, hasFrame, env, t);
      cats', k' := RetryImage(path, planned, img, env, cats, k);
      r := TallyOf(Snapshot(cats'), k');
    }

    /** The images of a retried file (lines 552-601). */
    method RetryImages(path: string, planned: string, imgs: seq<DownloadedImage>, env: Env,
                       cats: seq<ProcessedCatalog>, k: Counters)
      returns (cats': seq<ProcessedCatalog>, k': Counters)
      requires !cancelRequested && Distinct(cats)
      modifies this, cats
      ensures Steady()
      ensures Distinct(cats') && cats <= cats'
      ensures forall j :: |cats| <= j < |cats'| ==> fresh(cats'[j])
      ensures TallyOf(Snapshot(cats'), k') == RetryRun.RetryImages(path, planned, imgs, hasFrame, env, old(TallyOf(Snapshot(cats), k)))
    {
      cats', k' := cats, k;
      ghost var t0 := TallyOf(Snapshot(cats), k);
      ghost var t := t0;
      ghost var rest := imgs;
      var i := 0;
      while i < |imgs|
        invariant 0 <= i <= |imgs| && rest == imgs[i..]
        invariant Steady() && !cancelRequested
        invariant Distinct(cats') && cats <= cats'
        invariant forall j :: |cats| <= j < |cats'| ==> fresh(cats'[j])
        invariant t == TallyOf(Snapshot(cats'), k')
        invariant RetryRun.RetryImages(path, planned, rest, hasFrame, env, t)
          == RetryRun.RetryImages(path, planned, imgs, hasFrame, env, t0)
      {
        cats', k', t := RetryNext(path, planned, imgs[i], env, cats', k', rest, t);
        if cancelRequested {
          return;
        }
        rest := rest[1..];
        i := i + 1;
      }
    }

    /** One failed file after its check (lines 545-609): the download, then its
        images, or one more count and the file back on the failed list. */
    method RetryFile(item: FailedDownload, env: Env, cats: seq<ProcessedCatalog>, k: Counters)
      returns (cats': seq<ProcessedCatalog>, k': Counters)
      requires !cancelRequested && Distinct(cats)
      modifies this, cats
      ensures Steady()
      ensures Distinct(cats') && cats <= cats'
      ensures forall j :: |cats| <= j < |cats'| ==> fresh(cats'[j])
      ensures TallyOf(Snapshot(cats'), k') == RetryRun.RetryItem(item, hasFrame, env, old(TallyOf(Snapshot(cats), k)))
    {
      ghost var t := TallyOf(Snapshot(cats), k);
      var images := Fetch(env, k.downloads, item.url);
      if Success(images) {
        var extra := if |images.value| > 1 then |images.value| - 1 else 0;
        k' := k.(downloads := k.downloads + 1, expected := k.expected + extra);
        assert TallyOf(Snapshot(cats), k') == Downloaded(t, images.value);
        cats', k' := RetryImages(item.path, item.filename, images.value, env, cats, k');
        assert TallyOf(Snapshot(cats'), k') == RetryRun.RetryItem(item, hasFrame, env, t);
      } else {
        k' := FailedAgain(item, env, Snapshot(cats), k);
        cats' := cats;
        assert TallyOf(Snapshot(cats'), k') == RetryRun.RetryItem(item, hasFrame, env, t);
      }
    }

    /** A retried file that gives no image (lines 603-609): one more count, its
        progress line, and the file back on the failed list. */
    method FailedAgain(item: FailedDownload, env: Env, results: seq<Output>, k: Counters) returns (k': Counters)
      modifies this
      ensures Steady() && state == old(state) && cancelRequested == old(cancelRequested)
      ensures var n := k.count + 1;
        TallyOf(results, k') == old(TallyOf(results, k)).(downloads := k.downloads + 1, count := n, failed := k.failed + [item],
          progress := Progress(n, k.expected, RetryingNote(item.path, n, k.expected)))
    {
      var n := k.count + 1;
      k' := k.(downloads := k.downloads + 1, count := n, failed := k.failed + [item]);
      progress := Progress(n, k'.expected, RetryingNote(item.path, n, k'.expected));
    }

    /** The failed files of a retry (lines 539-610), each after a check. */
    method RetryFiles(env: Env, cats: seq<ProcessedCatalog>, k: Counters)
      returns (cats': seq<ProcessedCatalog>, k': Counters)
      requires Distinct(cats)
      modifies this, cats
      ensures Steady()
      ensures Distinct(cats') && cats <= cats'
      ensures forall j :: |cats| <= j < |cats'| ==> fresh(cats'[j])
      ensures TallyOf(Snapshot(cats'), k') == RetryRun.RetryItems(failedDownloads, hasFrame, env, old(TallyOf(Snapshot(cats), k)))
    {
      var items := failedDownloads;
      cats', k' := cats, k;
      var i := 0;
      while i < |items|
        invariant 0 <= i <= |items|
        invariant Steady()
        invariant Distinct(cats') && cats <= cats'
        invariant forall j :: |cats| <= j < |cats'| ==> fresh(cats'[j])
        invariant RetryRun.RetryItems(items[i..], hasFrame, env, TallyOf(Snapshot(cats'), k'))
          == RetryRun.RetryItems(items, hasFrame, env, old(TallyOf(Snapshot(cats), k)))
      {
        ghost var t := TallyOf(Snapshot(cats'), k');
        var item := items[i];
        assert items[i..][0] == item && items[i..][1..] == items[i + 1..];
        RetryRun.RetryItemsUnfold(items[i..], hasFrame, env, t);
        k' := Poll(env, Snapshot(cats'), k');
        assert TallyOf(Snapshot(cats'), k') == Check(env, t);
        if cancelRequested {
          return;
        }
        cats', k' := RetryFile(item, env, cats', k');
        assert TallyOf(Snapshot(cats'), k') == RetryRun.RetryItem(item, hasFrame, env, Check(env, t));
        i := i + 1;
      }
    }

    /** The end of `handleRetryFailed` (lines 612-626): a cancelled retry goes back
        to idle with the cancelled progress line and shows nothing new; a completed
        one shows the merged results and the files that failed again. */
    method FinishRetry(newResults: seq<ProcessedCatalog>, k: Counters)
      modifies this
      ensures catalogs == old(catalogs) && hasFrame == old(hasFrame) && previewIndex == old(previewIndex)
      ensures cancelRequested == old(cancelRequested)
      ensures cancelRequested ==> state == Idle && progress == CancelledProgress
      ensures cancelRequested ==> processedFiles == old(processedFiles) && failedDownloads == old(failedDownloads) && error == old(error)
      ensures !cancelRequested ==> state == Complete && progress == old(progress)
      ensures !cancelRequested ==> processedFiles == newResults && failedDownloads == k.failed && error == RetryRun.RetryError(k.failed)
    {
      if cancelRequested {
        state := Idle;
        progress := CancelledProgress;
        return;
      }
      processedFiles := newResults;
      failedDownloads := k.failed;
      state := Complete;
      if |k.failed| > 0 {
        error := Some(NatToString(|k.failed|) + RetryRun.StillFailedSuffix);
      } else {
        error := None;
      }
    }

    /** `handleRetryFailed`: with failures, a retry of each. Recovered images are
        merged into the catalogs shown, by reference, so a cancelled retry leaves
        the catalogs list as it was but its catalogs holding the entries pushed so
        far; a completed one shows the merged list and the files that failed again. */
    method HandleRetryFailed(env: Env)
      requires Valid()
      modifies this, processedFiles
      ensures Valid()
      ensures catalogs == old(catalogs) && hasFrame == old(hasFrame)
      ensures old(failedDownloads) == [] ==> unchanged(this) && unchanged(processedFiles)
      ensures old(failedDownloads) != [] ==>
        var r := RetryRun.Retry(old(Snapshot(processedFiles)), old(failedDownloads), hasFrame, env, old(progress));
        && cancelRequested == r.cancelled && previewIndex.None?
        && old(processedFiles) <= processedFiles
        && (forall j :: |old(processedFiles)| <= j < |processedFiles| ==> fresh(processedFiles[j]))
        && (r.cancelled ==> && processedFiles == old(processedFiles) && failedDownloads == old(failedDownloads)
                            && Snapshot(processedFiles) <= r.results
                            && RetryRun.Extends(old(Snapshot(processedFiles)), Snapshot(processedFiles))
                            && state == Idle && progress == CancelledProgress && error.None?)
        && (!r.cancelled ==> && Snapshot(processedFiles) == r.results && failedDownloads == r.failed
                             && state == Complete && progress == r.progress && error == RetryRun.RetryError(r.failed))
    {
      if |failedDownloads| == 0 {
        return;
      }
      ghost var before := Snapshot(processedFiles);
      Begin();
      var newResults := processedFiles;
      var k := Counters([], |failedDownloads|, 0, 0, 0);
      newResults, k := RetryFiles(env, newResults, k);
      ghost var r := TallyOf(Snapshot(newResults), k);
      FinishRetry(newResults, k);
      assert Snapshot(old(processedFiles)) <= Snapshot(newResults) by {
        assert forall j :: 0 <= j < |old(processedFiles)| ==> Snapshot(old(processedFiles))[j] == Snapshot(newResults)[j];
      }
      if r.cancelled {
        RetryRun.RetryCancelled(before, old(failedDownloads), hasFrame, env, old(progress));
        RetryRun.ExtendsPrefix(before, Snapshot(processedFiles), r.results);
      }
    }
  }
}
