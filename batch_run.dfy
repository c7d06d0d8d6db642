/**
 * What a batch run of components/sku-processor.tsx computes, as functions:
 * `handleProcess` walks catalogs, files and downloaded images; `handleRetryFailed`
 * walks the failed list and merges what it recovers into the earlier results.
 * The SkuProcessor class runs the same steps as loops over its fields and is
 * proved to end where these functions say; the lemmas here state what a run
 * produces.
 *
 * The download, the canvas overlay and the Stop button are the parameters of an
 * `Env`: `download(k, url)` is the reply to the k-th download request of the run,
 * `overlay(data)` is the framed image or `None` where the canvas fails, and
 * `stop(c)` says whether Stop has been pressed by the c-th cancellation check.
 */
module BatchRun {
  import opened Wrappers
  import opened Text
  import SkuParser
  import DriveDownload

  type Catalog = SkuParser.Catalog
  type CatalogFile = SkuParser.CatalogFile

  /** An entry of a processed catalog. */
  datatype ProcessedFile = ProcessedFile(filename: string, data: string)

  /** A processed catalog, as a value. */
  datatype Output = Output(path: string, files: seq<ProcessedFile>)

  /** A file whose download gave no image. */
  datatype FailedDownload = FailedDownload(path: string, url: string, filename: string)

  datatype State = Idle | Parsing | Downloading | Processing | Zipping | Complete | Error

  /** The progress line's message, by the template it is written from. */
  datatype Note =
    | Blank
    | DownloadingNote(path: string, n: nat, total: nat)
    | RetryingNote(path: string, n: nat, total: nat)
    | FrameNote(path: string)
    | StoppingNote
    | CancelledNote
  {
    /** The text shown. */
    function Text(): string {
      match this
      case Blank => ""
      case DownloadingNote(path, n, total) => "Downloading: " + path + " (" + NatToString(n) + "/" + NatToString(total) + ")"
      case RetryingNote(path, n, total) => "Retrying: " + path + " (" + NatToString(n) + "/" + NatToString(total) + ")"
      case FrameNote(path) => "Applying frame: " + path
      case StoppingNote => "Stopping process..."
      case CancelledNote => "Process cancelled"
    }
  }

  datatype Progress = Progress(current: nat, total: nat, message: Note)

  // ------------------------------------------------------- downloadImage

  /** An element of a JSON `images` array: its `data` and `filename` when they are strings. */
  datatype JsonImage = JsonImage(data: Option<string>, filename: Option<string>)

  /** The answer to the POST to /api/download: not ok, a failure (the fetch or the
      JSON parse threw), or a JSON body with an `images` array (when it is one)
      and an `imageData` string. */
  datatype DownloadReply = NotOk | Thrown | Json(images: Option<seq<JsonImage>>, imageData: Option<string>)

  datatype DownloadedImage = DownloadedImage(data: string, filename: Option<string>)

  /** The `images` entries with non-empty string data, in order. */
  function KeepImages(imgs: seq<JsonImage>): (r: seq<DownloadedImage>)
    ensures |r| <= |imgs|
    ensures forall i :: 0 <= i < |r| ==> r[i].data != ""
  {
    if imgs == [] then []
    else
      var rest := KeepImages(imgs[1..]);
      match imgs[0].data
      case Some(d) => if d != "" then [DownloadedImage(d, imgs[0].filename)] + rest else rest
      case None => rest
  }

  /** Every image kept comes from an entry with that data and filename, and an
      entry with non-empty data is kept. */
  lemma {:induction false} KeepImagesExact(imgs: seq<JsonImage>)
    ensures forall i :: 0 <= i < |KeepImages(imgs)| ==>
      JsonImage(Some(KeepImages(imgs)[i].data), KeepImages(imgs)[i].filename) in imgs
    ensures forall j :: 0 <= j < |imgs| && imgs[j].data.Some? && imgs[j].data.value != "" ==>
      DownloadedImage(imgs[j].data.value, imgs[j].filename) in KeepImages(imgs)
    decreases |imgs|
  {
    if imgs != [] {
      KeepImagesExact(imgs[1..]);
      forall j | 0 <= j < |imgs| && imgs[j].data.Some? && imgs[j].data.value != ""
        ensures DownloadedImage(imgs[j].data.value, imgs[j].filename) in KeepImages(imgs)
      {
        if j > 0 {
          assert imgs[j] == imgs[1..][j - 1];
        }
      }
      var rest := KeepImages(imgs[1..]);
      forall i | 0 <= i < |KeepImages(imgs)|
        ensures JsonImage(Some(KeepImages(imgs)[i].data), KeepImages(imgs)[i].filename) in imgs
      {
        var x := KeepImages(imgs)[i];
        if imgs[0].data.Some? && imgs[0].data.value != "" {
          if i > 0 {
            assert x == rest[i - 1];
            assert JsonImage(Some(x.data), x.filename) in imgs[1..];
          }
        } else {
          assert x == rest[i];
          assert JsonImage(Some(x.data), x.filename) in imgs[1..];
        }
      }
    }
  }

  /** `downloadImage`: an `images` array gives its usable entries; otherwise a
      non-empty `imageData` gives one unnamed image; anything else gives null. */
  function DownloadImage(reply: DownloadReply): (r: Option<seq<DownloadedImage>>)
  {
    match reply
    case Json(Some(imgs), _) => Some(KeepImages(imgs))
    case Json(None, Some(d)) => if d != "" then Some([DownloadedImage(d, None)]) else None
    case _ => None
  }

  /** What /api/download sends back, as the client reads it: the data URI as
      `imageData`, or a response that is not ok. */
  function FromRoute(reply: DriveDownload.Reply): DownloadReply {
    match reply
    case ImageData(uri) => Json(None, Some(uri))
    case Failure(_, _) => NotOk
  }

  /** Against the download route, `downloadImage` gives exactly one unnamed image,
      the route's data URI, or null on a failure: the several-images branch is
      never taken. Every image it gives has data. */
  lemma RouteGivesOneImage(body: DriveDownload.RequestBody, net: DriveDownload.Network, reply: DownloadReply)
    ensures match DriveDownload.Respond(body, net)
      case ImageData(uri) => DownloadImage(FromRoute(DriveDownload.Respond(body, net))) == Some([DownloadedImage(uri, None)])
      case Failure(_, _) => DownloadImage(FromRoute(DriveDownload.Respond(body, net))) .None?
    ensures DownloadImage(reply).Some? ==> forall i :: 0 <= i < |DownloadImage(reply).value| ==> DownloadImage(reply).value[i].data != ""
  {
    DriveDownload.RespondDataUri(body, net);
    OneImageFromReply(DriveDownload.Respond(body, net));
  }

  lemma OneImageFromReply(r: DriveDownload.Reply)
    requires r.ImageData? ==> r.uri != ""
    ensures r.ImageData? ==> DownloadImage(FromRoute(r)) == Some([DownloadedImage(r.uri, None)])
    ensures r.Failure? ==> DownloadImage(FromRoute(r)).None?
  {
  }

  // ------------------------------------------------------- one image

  /** The parameters a run sees. */
  datatype Env = Env(
    download: (nat, string) -> DownloadReply,
    stop: nat -> bool,
    overlay: string -> Option<string>)

  /** The images the k-th download of the run gives. */
  function Fetch(env: Env, k: nat, url: string): Option<seq<DownloadedImage>> {
    DownloadImage(env.download(k, url))
  }

  /** `images && images.length > 0`. */
  predicate Success(images: Option<seq<DownloadedImage>>) {
    images.Some? && |images.value| > 0
  }

  /** `applyFrameWithCanvas`, or the image itself when there is no frame: any
      canvas failure gives back the input. */
  function Framed(framed: bool, overlay: string -> Option<string>, data: string): (r: string)
    ensures !framed ==> r == data
    ensures overlay(data).None? ==> r == data
  {
    if framed then overlay(data).GetOr(data) else data
  }

  /** `img.filename || file.filename`. */
  function FinalName(name: Option<string>, planned: string): (r: string)
    ensures r == planned || (name.Some? && r == name.value && r != "")
  {
    if name.Some? && name.value != "" then name.value else planned
  }

  const CancelledProgress := Progress(0, 0, CancelledNote)

  // ------------------------------------------------------- the run's state

  /** Where a run is: the results so far (the retry's merged list), the failures,
      `totalExpected`, the images counted (`processedCount` / `retryCount`), the
      downloads and cancellation checks made, the progress and processing state
      shown, and whether the run was cancelled. */
  datatype Tally = Tally(
    results: seq<Output>, failed: seq<FailedDownload>,
    expected: nat, count: nat, downloads: nat, checks: nat,
    progress: Progress, state: State, cancelled: bool)

  /** A cancellation check: once Stop has been pressed the flag stays raised;
      pressing it (`handleStopProcess`) raises the flag and shows the stopping
      message. */
  function Check(env: Env, t: Tally): (r: Tally)
    ensures r.cancelled <==> t.cancelled || env.stop(t.checks)
    ensures r.results == t.results && r.failed == t.failed && r.count == t.count
    ensures r.expected == t.expected && r.downloads == t.downloads && r.state == t.state
    ensures !r.cancelled ==> r == t.(checks := t.checks + 1)
  {
    if t.cancelled then t
    else if env.stop(t.checks) then
      t.(checks := t.checks + 1, cancelled := true, progress := t.progress.(message := StoppingNote))
    else t.(checks := t.checks + 1)
  }

  // ------------------------------------------------------- handleProcess

  /** A progress line that shows the run's count against its expected total. */
  predicate Shows(t: Tally) {
    t.progress.current == t.count && t.progress.total == t.expected
  }


  /** An image's first half (lines 428-456): a check, the count and the progress
      line, the frame's processing state, and the check after the frame. */
  function BeginImage(path: string, framed: bool, env: Env, t: Tally): (r: Tally)
    ensures r.failed == t.failed && r.results == t.results && r.downloads == t.downloads && r.expected == t.expected
    ensures t.cancelled ==> r == t
    ensures !r.cancelled ==> r.count == t.count + 1 && Shows(r)
  {
    var t1 := Check(env, t);
    if t1.cancelled then t1
    else
      var n := t1.count + 1;
      var shown := Progress(n, t1.expected, if framed then FrameNote(path) else DownloadingNote(path, n, t1.expected));
      Check(env, t1.(count := n, progress := shown, state := if framed then Processing else t1.state))
  }

  /** After the entry is pushed, a frame's processing state goes back to downloading. */
  function EndImage(framed: bool, t: Tally): (r: Tally)
    ensures r == t.(state := r.state)
  {
    if framed then t.(state := Downloading) else t
  }

  /** The entry an image becomes. */
  function Entry(planned: string, img: DownloadedImage, framed: bool, env: Env): ProcessedFile {
    ProcessedFile(FinalName(img.filename, planned), Framed(framed, env.overlay, img.data))
  }

  /** The images of one download (lines 427-467). */
  function RunImages(path: string, planned: string, imgs: seq<DownloadedImage>, framed: bool, env: Env,
                     t: Tally, acc: seq<ProcessedFile>): (Tally, seq<ProcessedFile>)
    decreases |imgs|
  {
    if imgs == [] then (t, acc)
    else
      var t1 := BeginImage(path, framed, env, t);
      if t1.cancelled then (t1, acc)
      else RunImages(path, planned, imgs[1..], framed, env, EndImage(framed, t1), acc + [Entry(planned, imgs[0], framed, env)])
  }

  /** A download that gave images: one more download, and `totalExpected` grows by
      the images beyond the first (lines 423-425). */
  function Downloaded(t: Tally, images: seq<DownloadedImage>): (r: Tally)
    requires |images| > 0
    ensures r == t.(downloads := t.downloads + 1, expected := t.expected + |images| - 1)
  {
    t.(downloads := t.downloads + 1, expected := t.expected + if |images| > 1 then |images| - 1 else 0)
  }

  /** One file after its check (lines 420-474): the download, then its images or
      one failure. */
  function DownloadFile(path: string, file: CatalogFile, framed: bool, env: Env,
                        t: Tally, acc: seq<ProcessedFile>): (Tally, seq<ProcessedFile>)
  {
    var images := Fetch(env, t.downloads, file.url);
    if Success(images) then
      RunImages(path, file.filename, images.value, framed, env, Downloaded(t, images.value), acc)
    else
      (t.(downloads := t.downloads + 1, failed := t.failed + [FailedDownload(path, file.url, file.filename)]), acc)
  }

  /** The files of one catalog (lines 414-475). */
  function RunFiles(path: string, files: seq<CatalogFile>, framed: bool, env: Env,
                    t: Tally, acc: seq<ProcessedFile>): (Tally, seq<ProcessedFile>)
    decreases |files|
  {
    if files == [] then (t, acc)
    else
      var t1 := Check(env, t);
      if t1.cancelled then (t1, acc)
      else
        var next := DownloadFile(path, files[0], framed, env, t1, acc);
        RunFiles(path, files[1..], framed, env, next.0, next.1)
  }

  /** The result a catalog with these entries gives: itself when it has an entry. */
  function HeadOf(path: string, files: seq<ProcessedFile>): (r: seq<Output>)
    ensures |r| <= 1 && (r != [] <==> files != [])
    ensures forall o :: o in r ==> o == Output(path, files)
  {
    if files != [] then [Output(path, files)] else []
  }

  /** A finished catalog joins the results when it has an entry (lines 481-486). */
  function Finished(t: Tally, path: string, files: seq<ProcessedFile>): (r: Tally)
    ensures r == t.(results := t.results + HeadOf(path, files))
  {
    if files != [] then t.(results := t.results + [Output(path, files)]) else t
  }

  /** The catalogs (lines 406-487): a check, the catalog's files, and its entry in
      the results; a cancellation drops the catalog in progress. */
  function RunCatalogs(cats: seq<Catalog>, framed: bool, env: Env, t: Tally): Tally
    decreases |cats|
  {
    if cats == [] then t
    else
      var t1 := Check(env, t);
      if t1.cancelled then t1
      else
        var done := RunFiles(cats[0].path, cats[0].files, framed, env, t1, []);
        if done.0.cancelled then done.0 else RunCatalogs(cats[1..], framed, env, Finished(done.0, cats[0].path, done.1))
  }

  /** `totalUrls`: the number of files in all catalogs. */
  function TotalFiles(cats: seq<Catalog>): nat {
    if cats == [] then 0 else |cats[0].files| + TotalFiles(cats[1..])
  }

  /** A whole `handleProcess` run from the progress shown before it. */
  function Process(cats: seq<Catalog>, framed: bool, env: Env, shown: Progress): Tally {
    RunCatalogs(cats, framed, env, Tally([], [], TotalFiles(cats), 0, 0, 0, shown, Downloading, false))
  }

  // ------------------------------------------------------- what an uncancelled run produces

  /** The entries a downloaded file's images become. */
  function Named(planned: string, imgs: seq<DownloadedImage>, framed: bool, env: Env): (r: seq<ProcessedFile>)
    ensures |r| == |imgs|
  {
    if imgs == [] then [] else [Entry(planned, imgs[0], framed, env)] + Named(planned, imgs[1..], framed, env)
  }

  /** The entries a file gives when it is the k-th download. */
  function FileEntries(file: CatalogFile, k: nat, framed: bool, env: Env): seq<ProcessedFile> {
    var images := Fetch(env, k, file.url);
    if Success(images) then Named(file.filename, images.value, framed, env) else []
  }

  /** The failure a file gives when it is the k-th download: none, or itself. */
  function FileFailures(path: string, file: CatalogFile, k: nat, env: Env): seq<FailedDownload> {
    if Success(Fetch(env, k, file.url)) then [] else [FailedDownload(path, file.url, file.filename)]
  }

  /** The images beyond the first that a file gives when it is the k-th download. */
  function FileExtra(file: CatalogFile, k: nat, env: Env): nat {
    var images := Fetch(env, k, file.url);
    if Success(images) then |images.value| - 1 else 0
  }

  /** The entries a catalog's files give, downloads numbered from `k`. */
  function Produced(files: seq<CatalogFile>, k: nat, framed: bool, env: Env): seq<ProcessedFile>
    decreases |files|
  {
    if files == [] then [] else FileEntries(files[0], k, framed, env) + Produced(files[1..], k + 1, framed, env)
  }

  /** The failures a catalog's files give, in order. */
  function FailedOf(path: string, files: seq<CatalogFile>, k: nat, env: Env): seq<FailedDownload>
    decreases |files|
  {
    if files == [] then [] else FileFailures(path, files[0], k, env) + FailedOf(path, files[1..], k + 1, env)
  }

  /** The images beyond the first of every download that gave several. */
  function Extra(files: seq<CatalogFile>, k: nat, env: Env): nat
    decreases |files|
  {
    if files == [] then 0 else FileExtra(files[0], k, env) + Extra(files[1..], k + 1, env)
  }

  /** The results of the catalogs: one per catalog with an entry, in catalog order. */
  function Outputs(cats: seq<Catalog>, k: nat, framed: bool, env: Env): seq<Output>
    decreases |cats|
  {
    if cats == [] then []
    else
      HeadOf(cats[0].path, Produced(cats[0].files, k, framed, env)) + Outputs(cats[1..], k + |cats[0].files|, framed, env)
  }

  function Failures(cats: seq<Catalog>, k: nat, env: Env): seq<FailedDownload>
    decreases |cats|
  {
    if cats == [] then [] else FailedOf(cats[0].path, cats[0].files, k, env) + Failures(cats[1..], k + |cats[0].files|, env)
  }

  function ExtraAll(cats: seq<Catalog>, k: nat, env: Env): nat
    decreases |cats|
  {
    if cats == [] then 0 else Extra(cats[0].files, k, env) + ExtraAll(cats[1..], k + |cats[0].files|, env)
  }

  /** The number of entries in a list of results (`successCount`, `totalProcessed`). */
  function Successes(outs: seq<Output>): nat {
    if outs == [] then 0 else |outs[0].files| + Successes(outs[1..])
  }

  /** Each file gives either at least one entry or exactly one failure, never both. */
  lemma FileOutcome(path: string, file: CatalogFile, k: nat, framed: bool, env: Env)
    ensures var p := FileEntries(file, k, framed, env);
      var f := FileFailures(path, file, k, env);
      var images := Fetch(env, k, file.url);
      && (Success(images) ==> |p| == |images.value| >= 1 && f == [] && |p| == 1 + FileExtra(file, k, env))
      && (!Success(images) ==> p == [] && f == [FailedDownload(path, file.url, file.filename)] && FileExtra(file, k, env) == 0)
  {
  }

  /** A file list's entries plus its failures are its files plus the extra images. */
  lemma {:induction false} FilesAccounted(path: string, files: seq<CatalogFile>, k: nat, framed: bool, env: Env)
    ensures |Produced(files, k, framed, env)| + |FailedOf(path, files, k, env)| == |files| + Extra(files, k, env)
    decreases |files|
  {
    if files != [] {
      FilesAccounted(path, files[1..], k + 1, framed, env);
      FileOutcome(path, files[0], k, framed, env);
    }
  }

  lemma {:induction false} SuccessesAppend(a: seq<Output>, b: seq<Output>)
    ensures Successes(a + b) == Successes(a) + Successes(b)
    decreases |a|
  {
    if a != [] {
      SuccessesAppend(a[1..], b);
      assert (a + b)[0] == a[0];
      assert (a + b)[1..] == a[1..] + b;
    } else {
      assert a + b == b;
    }
  }

  /** Over all catalogs, entries plus failures are the files plus the extra images. */
  lemma {:induction false} CatalogsAccounted(cats: seq<Catalog>, k: nat, framed: bool, env: Env)
    ensures Successes(Outputs(cats, k, framed, env)) + |Failures(cats, k, env)| == TotalFiles(cats) + ExtraAll(cats, k, env)
    decreases |cats|
  {
    if cats != [] {
      CatalogsAccounted(cats[1..], k + |cats[0].files|, framed, env);
      FilesAccounted(cats[0].path, cats[0].files, k, framed, env);
      CatalogsCounts(cats, k, framed, env);
    }
  }

  /** The counts over catalogs split at the first catalog. */
  lemma CatalogsCounts(cats: seq<Catalog>, k: nat, framed: bool, env: Env)
    requires cats != []
    ensures Successes(Outputs(cats, k, framed, env))
      == |Produced(cats[0].files, k, framed, env)| + Successes(Outputs(cats[1..], k + |cats[0].files|, framed, env))
    ensures |Failures(cats, k, env)| == |FailedOf(cats[0].path, cats[0].files, k, env)| + |Failures(cats[1..], k + |cats[0].files|, env)|
    ensures TotalFiles(cats) == |cats[0].files| + TotalFiles(cats[1..])
    ensures ExtraAll(cats, k, env) == Extra(cats[0].files, k, env) + ExtraAll(cats[1..], k + |cats[0].files|, env)
  {
    CatalogsStep(cats, k, framed, env);
    HeadSuccesses(cats[0].path, Produced(cats[0].files, k, framed, env), Outputs(cats[1..], k + |cats[0].files|, framed, env));
  }

  /** Every result has an entry, and there is at most one per catalog. */
  lemma OutputsHaveEntries(cats: seq<Catalog>, k: nat, framed: bool, env: Env)
    ensures forall o :: o in Outputs(cats, k, framed, env) ==> o.files != []
    ensures |Outputs(cats, k, framed, env)| <= |cats|
  {
    OutputsGather(cats, k, framed, env);
    PartsHaveEntries(framed, env);
    GatherEntries(OutputPart(framed, env), cats, k);
  }

  /** A download's images keep the failures, the results, the downloads and the
      expected total. */
  lemma {:induction false} ImagesKeep(path: string, planned: string, imgs: seq<DownloadedImage>, framed: bool, env: Env,
                                      t: Tally, acc: seq<ProcessedFile>)
    ensures var r := RunImages(path, planned, imgs, framed, env, t, acc).0;
      r.failed == t.failed && r.results == t.results && r.downloads == t.downloads && r.expected == t.expected
    decreases |imgs|
  {
    if imgs != [] {
      var t1 := BeginImage(path, framed, env, t);
      if !t1.cancelled {
        ImagesKeep(path, planned, imgs[1..], framed, env, EndImage(framed, t1), acc + [Entry(planned, imgs[0], framed, env)]);
      }
    }
  }

  /** Uncancelled, a download's images become one entry each, in order, each
      counted, with the progress showing the count. */
  lemma ImagesDone(path: string, planned: string, imgs: seq<DownloadedImage>, framed: bool, env: Env,
                   t: Tally, acc: seq<ProcessedFile>)
    ensures var r := RunImages(path, planned, imgs, framed, env, t, acc).0; var racc := RunImages(path, planned, imgs, framed, env, t, acc).1;
      !r.cancelled ==>
        && racc == acc + Named(planned, imgs, framed, env)
        && r.count == t.count + |imgs|
        && (imgs == [] ==> r == t)
        && (imgs != [] ==> Shows(r))
  {
    ImagesNamed(path, planned, imgs, framed, env, t, acc);
    ImagesShow(path, planned, imgs, framed, env, t, acc);
  }

  /** Uncancelled, every image becomes its entry, in order, and is counted. */
  lemma {:induction false} ImagesNamed(path: string, planned: string, imgs: seq<DownloadedImage>, framed: bool, env: Env,
                                       t: Tally, acc: seq<ProcessedFile>)
    ensures var r := RunImages(path, planned, imgs, framed, env, t, acc).0; var racc := RunImages(path, planned, imgs, framed, env, t, acc).1;
      !r.cancelled ==> racc == acc + Named(planned, imgs, framed, env) && r.count == t.count + |imgs|
    decreases |imgs|
  {
    if imgs != [] {
      var t1 := BeginImage(path, framed, env, t);
      if !t1.cancelled {
        var e := Entry(planned, imgs[0], framed, env);
        ImagesNamed(path, planned, imgs[1..], framed, env, EndImage(framed, t1), acc + [e]);
        assert acc + [e] + Named(planned, imgs[1..], framed, env) == acc + Named(planned, imgs, framed, env);
      }
    }
  }

  /** Uncancelled, a run over some images leaves the progress showing its count. */
  lemma {:induction false} ImagesShow(path: string, planned: string, imgs: seq<DownloadedImage>, framed: bool, env: Env,
                                      t: Tally, acc: seq<ProcessedFile>)
    ensures var r := RunImages(path, planned, imgs, framed, env, t, acc).0;
      !r.cancelled && imgs != [] ==> Shows(r)
    decreases |imgs|
  {
    if imgs != [] {
      var t1 := BeginImage(path, framed, env, t);
      if !t1.cancelled {
        ImagesShow(path, planned, imgs[1..], framed, env, EndImage(framed, t1), acc + [Entry(planned, imgs[0], framed, env)]);
      }
    }
  }

  /** The progress a run shows: the one it started from while nothing has been
      counted, and the count against the expected total once something has. */
  predicate Shown(t: Tally, r: Tally) {
    (r.count == t.count && r.progress == t.progress) || (r.count > t.count && Shows(r))
  }

  /** Progress shown over two stretches of a run, the second adding no expected
      images unless it counts one. */
  lemma ShownTrans(t: Tally, a: Tally, b: Tally)
    requires Shown(t, a) && Shown(a, b)
    requires b.count == a.count ==> b.expected == a.expected
    ensures Shown(t, b)
  {
  }

  /** One file's download always counts as one download, keeps the results, and
      adds that file's failure and extra images; uncancelled, it adds that file's
      entries, each counted, and the progress is untouched or shows the count. */
  lemma DownloadFileDone(path: string, file: CatalogFile, framed: bool, env: Env, t: Tally, acc: seq<ProcessedFile>)
    ensures var r := DownloadFile(path, file, framed, env, t, acc).0; var racc := DownloadFile(path, file, framed, env, t, acc).1;
      && r.results == t.results && r.downloads == t.downloads + 1
      && r.failed == t.failed + FileFailures(path, file, t.downloads, env)
      && r.expected == t.expected + FileExtra(file, t.downloads, env)
      && (t.cancelled ==> r.cancelled)
      && (!r.cancelled ==>
            && racc == acc + FileEntries(file, t.downloads, framed, env)
            && r.count == t.count + |FileEntries(file, t.downloads, framed, env)|
            && Shown(t, r))
  {
    var images := Fetch(env, t.downloads, file.url);
    if Success(images) {
      var t1 := Downloaded(t, images.value);
      ImagesKeep(path, file.filename, images.value, framed, env, t1, acc);
      ImagesDone(path, file.filename, images.value, framed, env, t1, acc);
      if t.cancelled {
        assert RunImages(path, file.filename, images.value, framed, env, t1, acc) == (t1, acc);
      }
    }
  }

  /** A pass over a catalog's files keeps the results; uncancelled, it adds
      exactly that catalog's entries, each counted. */
  lemma {:induction false} FilesDone(path: string, files: seq<CatalogFile>, framed: bool, env: Env,
                                     t: Tally, acc: seq<ProcessedFile>)
    ensures var r := RunFiles(path, files, framed, env, t, acc).0; var racc := RunFiles(path, files, framed, env, t, acc).1;
      && r.results == t.results
      && (!r.cancelled ==>
            && racc == acc + Produced(files, t.downloads, framed, env)
            && r.count == t.count + |Produced(files, t.downloads, framed, env)|)
    decreases |files|
  {
    if files != [] {
      var t1 := Check(env, t);
      if !t1.cancelled {
        var k := t.downloads;
        var next := DownloadFile(path, files[0], framed, env, t1, acc);
        RunFilesStep(path, files, framed, env, t, acc);
        DownloadFileDone(path, files[0], framed, env, t1, acc);
        FilesDone(path, files[1..], framed, env, next.0, next.1);
        FilesStep(path, files, k, next.0.downloads, framed, env);
        Associative(acc, FileEntries(files[0], k, framed, env), Produced(files[1..], next.0.downloads, framed, env));
      }
    }
  }

  /** Uncancelled, a pass over a catalog's files makes one download per file, adds
      exactly that catalog's failures and grows the expected total by its extra
      images. */
  lemma {:induction false} FilesTally(path: string, files: seq<CatalogFile>, framed: bool, env: Env,
                                      t: Tally, acc: seq<ProcessedFile>)
    ensures var r := RunFiles(path, files, framed, env, t, acc).0;
      !r.cancelled ==>
        && r.failed == t.failed + FailedOf(path, files, t.downloads, env)
        && r.downloads == t.downloads + |files|
        && r.expected == t.expected + Extra(files, t.downloads, env)
    decreases |files|
  {
    if files != [] {
      var t1 := Check(env, t);
      if !t1.cancelled {
        var k := t.downloads;
        var next := DownloadFile(path, files[0], framed, env, t1, acc);
        RunFilesStep(path, files, framed, env, t, acc);
        DownloadFileDone(path, files[0], framed, env, t1, acc);
        FilesTally(path, files[1..], framed, env, next.0, next.1);
        FilesStep(path, files, k, next.0.downloads, framed, env);
        Associative(t.failed, FileFailures(path, files[0], k, env), FailedOf(path, files[1..], next.0.downloads, env));
      }
    }
  }

  /** An uncancelled pass over a catalog's files leaves the progress as it found
      it or showing the count. */
  lemma {:induction false} FilesProgress(path: string, files: seq<CatalogFile>, framed: bool, env: Env,
                                         t: Tally, acc: seq<ProcessedFile>)
    ensures var r := RunFiles(path, files, framed, env, t, acc).0;
      !r.cancelled ==> Shown(t, r)
    decreases |files|
  {
    if files != [] {
      var t1 := Check(env, t);
      if !t1.cancelled {
        var k := t.downloads;
        var next := DownloadFile(path, files[0], framed, env, t1, acc);
        RunFilesStep(path, files, framed, env, t, acc);
        DownloadFileDone(path, files[0], framed, env, t1, acc);
        var r := RunFiles(path, files[1..], framed, env, next.0, next.1).0;
        if next.0.cancelled {
          FilesStayCancelled(path, files[1..], framed, env, next.0, next.1);
        } else if !r.cancelled {
          FilesProgress(path, files[1..], framed, env, next.0, next.1);
          FilesDone(path, files[1..], framed, env, next.0, next.1);
          FilesTally(path, files[1..], framed, env, next.0, next.1);
          ExtraBounded(files[1..], next.0.downloads, framed, env);
          ShownTrans(t, next.0, r);
        }
      }
    }
  }

  /** Once cancelled, a pass over files does nothing more. */
  lemma FilesStayCancelled(path: string, files: seq<CatalogFile>, framed: bool, env: Env, t: Tally, acc: seq<ProcessedFile>)
    requires t.cancelled
    ensures RunFiles(path, files, framed, env, t, acc) == (t, acc)
  {
    if files != [] {
      assert Check(env, t) == t;
    }
  }

  /** The first file's share of what a file list gives. */
  lemma FilesStep(path: string, files: seq<CatalogFile>, k: nat, k1: nat, framed: bool, env: Env)
    requires files != [] && k1 == k + 1
    ensures Extra(files, k, env) == FileExtra(files[0], k, env) + Extra(files[1..], k1, env)
    ensures FailedOf(path, files, k, env) == FileFailures(path, files[0], k, env) + FailedOf(path, files[1..], k1, env)
    ensures Produced(files, k, framed, env) == FileEntries(files[0], k, framed, env) + Produced(files[1..], k1, framed, env)
  {
  }

  /** One step of a pass over files. */
  lemma RunFilesStep(path: string, files: seq<CatalogFile>, framed: bool, env: Env, t: Tally, acc: seq<ProcessedFile>)
    requires files != [] && !Check(env, t).cancelled
    ensures var next := DownloadFile(path, files[0], framed, env, Check(env, t), acc);
      RunFiles(path, files, framed, env, t, acc) == RunFiles(path, files[1..], framed, env, next.0, next.1)
  {
  }

  /** One step of a pass over a download's images. */
  lemma RunImagesStep(path: string, planned: string, imgs: seq<DownloadedImage>, framed: bool, env: Env,
                      t: Tally, acc: seq<ProcessedFile>)
    requires imgs != []
    ensures var t1 := BeginImage(path, framed, env, t);
      RunImages(path, planned, imgs, framed, env, t, acc) ==
        if t1.cancelled then (t1, acc)
        else RunImages(path, planned, imgs[1..], framed, env, EndImage(framed, t1), acc + [Entry(planned, imgs[0], framed, env)])
  {
  }

  /** There are never more extra images than entries. */
  lemma {:induction false} ExtraBounded(files: seq<CatalogFile>, k: nat, framed: bool, env: Env)
    ensures Extra(files, k, env) <= |Produced(files, k, framed, env)|
    decreases |files|
  {
    if files != [] {
      ExtraBounded(files[1..], k + 1, framed, env);
      FileOutcome("", files[0], k, framed, env);
    }
  }

  lemma Associative<T>(a: seq<T>, b: seq<T>, c: seq<T>)
    ensures a + b + c == a + (b + c)
  {
  }

  /** A cancelled pass over a catalog's files has recorded a prefix of the
      catalog's failures. */
  lemma {:induction false} FilesCancelled(path: string, files: seq<CatalogFile>, framed: bool, env: Env,
                                          t: Tally, acc: seq<ProcessedFile>)
    ensures var r := RunFiles(path, files, framed, env, t, acc).0;
      r.cancelled ==> t.failed <= r.failed <= t.failed + FailedOf(path, files, t.downloads, env)
    decreases |files|
  {
    if files != [] {
      var t1 := Check(env, t);
      if !t1.cancelled {
        var k := t.downloads;
        var next := DownloadFile(path, files[0], framed, env, t1, acc);
        RunFilesStep(path, files, framed, env, t, acc);
        DownloadFileDone(path, files[0], framed, env, t1, acc);
        FilesStep(path, files, k, next.0.downloads, framed, env);
        FilesCancelled(path, files[1..], framed, env, next.0, next.1);
        Associative(t.failed, FileFailures(path, files[0], k, env), FailedOf(path, files[1..], next.0.downloads, env));
      }
    }
  }

  /** One step of a pass over catalogs that finishes the first one. */
  lemma RunCatalogsStep(cats: seq<Catalog>, framed: bool, env: Env, t: Tally)
    requires cats != [] && !Check(env, t).cancelled
    requires !RunFiles(cats[0].path, cats[0].files, framed, env, Check(env, t), []).0.cancelled
    ensures var done := RunFiles(cats[0].path, cats[0].files, framed, env, Check(env, t), []);
      RunCatalogs(cats, framed, env, t) == RunCatalogs(cats[1..], framed, env, Finished(done.0, cats[0].path, done.1))
  {
  }

  /** One catalog of a run (lines 407-486): a check, its files, and its entry in
      the results. */
  function CatalogStep(cat: Catalog, framed: bool, env: Env, t: Tally): Tally {
    var t1 := Check(env, t);
    if t1.cancelled then t1
    else
      var done := RunFiles(cat.path, cat.files, framed, env, t1, []);
      if done.0.cancelled then done.0 else Finished(done.0, cat.path, done.1)
  }

  /** A pass over catalogs is its catalogs' steps until one is cancelled. */
  lemma RunCatalogsUnfold(cats: seq<Catalog>, framed: bool, env: Env, t: Tally)
    requires cats != []
    ensures var s := CatalogStep(cats[0], framed, env, t);
      RunCatalogs(cats, framed, env, t) == if s.cancelled then s else RunCatalogs(cats[1..], framed, env, s)
  {
  }

  /** The first catalog's share of what a catalog list gives. */
  lemma CatalogsStep(cats: seq<Catalog>, k: nat, framed: bool, env: Env)
    requires cats != []
    ensures Outputs(cats, k, framed, env) ==
      HeadOf(cats[0].path, Produced(cats[0].files, k, framed, env)) + Outputs(cats[1..], k + |cats[0].files|, framed, env)
    ensures Failures(cats, k, env) == FailedOf(cats[0].path, cats[0].files, k, env) + Failures(cats[1..], k + |cats[0].files|, env)
    ensures ExtraAll(cats, k, env) == Extra(cats[0].files, k, env) + ExtraAll(cats[1..], k + |cats[0].files|, env)
  {
  }

  /** A catalog's entry counts its entries. */
  lemma HeadSuccesses(path: string, p: seq<ProcessedFile>, rest: seq<Output>)
    ensures Successes(HeadOf(path, p) + rest) == |p| + Successes(rest)
  {
    SuccessesAppend(HeadOf(path, p), rest);
    if p != [] {
      assert HeadOf(path, p)[1..] == [];
    }
  }

  // ------------------------------------------------------- passes over catalogs in general

  /** `step` catalog by catalog until a step comes back cancelled: the shape of
      the catalogs loop. */
  function Chain(step: (Catalog, Tally) -> Tally, cats: seq<Catalog>, t: Tally): Tally
    decreases |cats|
  {
    if cats == [] then t
    else
      var s := step(cats[0], t);
      if s.cancelled then s else Chain(step, cats[1..], s)
  }

  /** What `part` gives catalog by catalog, downloads numbered from `k`. */
  function Gather<T>(part: (Catalog, nat) -> seq<T>, cats: seq<Catalog>, k: nat): seq<T>
    decreases |cats|
  {
    if cats == [] then [] else part(cats[0], k) + Gather(part, cats[1..], k + |cats[0].files|)
  }

  /** The sum of what `part` gives catalog by catalog, downloads numbered from `k`. */
  function Total(part: (Catalog, nat) -> nat, cats: seq<Catalog>, k: nat): nat
    decreases |cats|
  {
    if cats == [] then 0 else part(cats[0], k) + Total(part, cats[1..], k + |cats[0].files|)
  }

  /** A step that downloads each of its catalog's files once and appends what
      `part` gives to `field`, or, cancelled, a prefix of it. */
  predicate Appends<T(==)>(step: (Catalog, Tally) -> Tally, field: Tally -> seq<T>, part: (Catalog, nat) -> seq<T>,
                       c: Catalog, u: Tally) {
    var s := step(c, u);
    && (!s.cancelled ==> field(s) == field(u) + part(c, u.downloads) && s.downloads == u.downloads + |c.files|)
    && (s.cancelled ==> field(u) <= field(s) <= field(u) + part(c, u.downloads))
  }

  /** A step that downloads each of its catalog's files once and, uncancelled,
      adds what `part` gives to `field`. */
  predicate Adds(step: (Catalog, Tally) -> Tally, field: Tally -> nat, part: (Catalog, nat) -> nat, c: Catalog, u: Tally) {
    var s := step(c, u);
    !s.cancelled ==> field(s) == field(u) + part(c, u.downloads) && s.downloads == u.downloads + |c.files|
  }

  /** Uncancelled, a pass of appending steps appends what all catalogs give and
      downloads each of their files once. */
  lemma {:induction false} ChainAppends<T>(step: (Catalog, Tally) -> Tally, field: Tally -> seq<T>,
                                           part: (Catalog, nat) -> seq<T>, cats: seq<Catalog>, t: Tally)
    requires forall c, u :: Appends(step, field, part, c, u)
    ensures var r := Chain(step, cats, t);
      !r.cancelled ==> field(r) == field(t) + Gather(part, cats, t.downloads) && r.downloads == t.downloads + TotalFiles(cats)
    decreases |cats|
  {
    if cats != [] {
      assert Appends(step, field, part, cats[0], t);
      var s := step(cats[0], t);
      if !s.cancelled {
        ChainAppends(step, field, part, cats[1..], s);
        assert field(s) + Gather(part, cats[1..], s.downloads)
            == field(t) + (part(cats[0], t.downloads) + Gather(part, cats[1..], t.downloads + |cats[0].files|));
      }
    }
  }

  /** Cancelled, a pass of appending steps has appended a prefix of what all
      catalogs give. */
  lemma {:induction false} ChainPrefix<T>(step: (Catalog, Tally) -> Tally, field: Tally -> seq<T>,
                                          part: (Catalog, nat) -> seq<T>, cats: seq<Catalog>, t: Tally)
    requires forall c, u :: Appends(step, field, part, c, u)
    ensures var r := Chain(step, cats, t);
      r.cancelled ==> field(t) <= field(r) <= field(t) + Gather(part, cats, t.downloads)
    decreases |cats|
  {
    if cats != [] {
      assert Appends(step, field, part, cats[0], t);
      var s := step(cats[0], t);
      var whole := field(t) + Gather(part, cats, t.downloads);
      assert whole == (field(t) + part(cats[0], t.downloads)) + Gather(part, cats[1..], t.downloads + |cats[0].files|);
      if !s.cancelled {
        ChainPrefix(step, field, part, cats[1..], s);
      }
    }
  }

  /** Uncancelled, a pass of adding steps adds what all catalogs give. */
  lemma {:induction false} ChainAdds(step: (Catalog, Tally) -> Tally, field: Tally -> nat,
                                     part: (Catalog, nat) -> nat, cats: seq<Catalog>, t: Tally)
    requires forall c, u :: Adds(step, field, part, c, u)
    ensures var r := Chain(step, cats, t);
      !r.cancelled ==> field(r) == field(t) + Total(part, cats, t.downloads)
    decreases |cats|
  {
    if cats != [] {
      assert Adds(step, field, part, cats[0], t);
      var s := step(cats[0], t);
      if !s.cancelled {
        ChainAdds(step, field, part, cats[1..], s);
      }
    }
  }

  /** The entries of gathered results are the sum of the entries of each part. */
  lemma {:induction false} GatherSuccesses(part: (Catalog, nat) -> seq<Output>, size: (Catalog, nat) -> nat,
                                           cats: seq<Catalog>, k: nat)
    requires forall c, j :: Successes(part(c, j)) == size(c, j)
    ensures Successes(Gather(part, cats, k)) == Total(size, cats, k)
    decreases |cats|
  {
    if cats != [] {
      GatherSuccesses(part, size, cats[1..], k + |cats[0].files|);
      SuccessesAppend(part(cats[0], k), Gather(part, cats[1..], k + |cats[0].files|));
    }
  }

  /** A list of results, each with an entry, of at most one result. */
  predicate OneWithEntries(outs: seq<Output>) {
    |outs| <= 1 && forall o :: o in outs ==> o.files != []
  }

  /** Parts of at most one result each, each with an entry, gather into at most
      one result per catalog, each with an entry. */
  lemma {:induction false} GatherEntries(part: (Catalog, nat) -> seq<Output>, cats: seq<Catalog>, k: nat)
    requires forall c, j :: OneWithEntries(part(c, j))
    ensures forall o :: o in Gather(part, cats, k) ==> o.files != []
    ensures |Gather(part, cats, k)| <= |cats|
    decreases |cats|
  {
    if cats != [] {
      GatherEntries(part, cats[1..], k + |cats[0].files|);
      assert OneWithEntries(part(cats[0], k));
    }
  }

  // ------------------------------------------------------- the catalogs loop as such a pass

  /** The catalogs loop's step. */
  function StepOf(framed: bool, env: Env): (Catalog, Tally) -> Tally {
    (c: Catalog, u: Tally) => CatalogStep(c, framed, env, u)
  }

  /** A catalog's result entry, its failures, its entry count and its extra images. */
  function OutputPart(framed: bool, env: Env): (Catalog, nat) -> seq<Output> {
    (c: Catalog, k: nat) => HeadOf(c.path, Produced(c.files, k, framed, env))
  }

  function FailurePart(env: Env): (Catalog, nat) -> seq<FailedDownload> {
    (c: Catalog, k: nat) => FailedOf(c.path, c.files, k, env)
  }

  function EntryPart(framed: bool, env: Env): (Catalog, nat) -> nat {
    (c: Catalog, k: nat) => |Produced(c.files, k, framed, env)|
  }

  function ExtraPart(env: Env): (Catalog, nat) -> nat {
    (c: Catalog, k: nat) => Extra(c.files, k, env)
  }

  function ResultsOf(u: Tally): seq<Output> { u.results }
  function FailedSoFar(u: Tally): seq<FailedDownload> { u.failed }
  function CountOf(u: Tally): nat { u.count }
  function ExpectedOf(u: Tally): nat { u.expected }

  /** A run over catalogs is the pass of the catalogs loop's step. */
  lemma {:induction false} RunChain(cats: seq<Catalog>, framed: bool, env: Env, t: Tally)
    ensures RunCatalogs(cats, framed, env, t) == Chain(StepOf(framed, env), cats, t)
    decreases |cats|
  {
    if cats != [] {
      RunCatalogsUnfold(cats, framed, env, t);
      if !CatalogStep(cats[0], framed, env, t).cancelled {
        RunChain(cats[1..], framed, env, CatalogStep(cats[0], framed, env, t));
      }
    }
  }

  lemma {:induction false} OutputsGather(cats: seq<Catalog>, k: nat, framed: bool, env: Env)
    ensures Outputs(cats, k, framed, env) == Gather(OutputPart(framed, env), cats, k)
    decreases |cats|
  {
    if cats != [] {
      OutputsGather(cats[1..], k + |cats[0].files|, framed, env);
    }
  }

  lemma {:induction false} FailuresGather(cats: seq<Catalog>, k: nat, env: Env)
    ensures Failures(cats, k, env) == Gather(FailurePart(env), cats, k)
    decreases |cats|
  {
    if cats != [] {
      FailuresGather(cats[1..], k + |cats[0].files|, env);
    }
  }

  lemma {:induction false} ExtraAllTotal(cats: seq<Catalog>, k: nat, env: Env)
    ensures ExtraAll(cats, k, env) == Total(ExtraPart(env), cats, k)
    decreases |cats|
  {
    if cats != [] {
      ExtraAllTotal(cats[1..], k + |cats[0].files|, env);
    }
  }

  /** Every step of the catalogs loop appends its catalog's entry and failures,
      or a prefix of them, and adds its entries and extra images to the count and
      to the expected total. */
  lemma StepsAppend(framed: bool, env: Env)
    ensures forall c, u :: Appends(StepOf(framed, env), ResultsOf, OutputPart(framed, env), c, u)
    ensures forall c, u :: Appends(StepOf(framed, env), FailedSoFar, FailurePart(env), c, u)
    ensures forall c, u :: Adds(StepOf(framed, env), CountOf, EntryPart(framed, env), c, u)
    ensures forall c, u :: Adds(StepOf(framed, env), ExpectedOf, ExtraPart(env), c, u)
  {
    forall c, u ensures Appends(StepOf(framed, env), ResultsOf, OutputPart(framed, env), c, u)
                 && Appends(StepOf(framed, env), FailedSoFar, FailurePart(env), c, u)
                 && Adds(StepOf(framed, env), CountOf, EntryPart(framed, env), c, u)
                 && Adds(StepOf(framed, env), ExpectedOf, ExtraPart(env), c, u) {
      CatalogStepDone(c, framed, env, u);
      CatalogStepCancelled(c, framed, env, u);
    }
  }

  /** A catalog's entry has as many entries as the catalog gives. */
  lemma PartsCount(framed: bool, env: Env)
    ensures forall c, j :: Successes(OutputPart(framed, env)(c, j)) == EntryPart(framed, env)(c, j)
  {
    forall c: Catalog, j: nat ensures Successes(OutputPart(framed, env)(c, j)) == EntryPart(framed, env)(c, j) {
      HeadSuccesses(c.path, Produced(c.files, j, framed, env), []);
    }
  }

  /** A catalog's entry is at most one result, with an entry. */
  lemma PartsHaveEntries(framed: bool, env: Env)
    ensures forall c, j :: OneWithEntries(OutputPart(framed, env)(c, j))
  {
  }

  /** An uncancelled pass over catalogs appends exactly their results and counts
      every entry. */
  lemma CatalogsDone(cats: seq<Catalog>, framed: bool, env: Env, t: Tally)
    ensures var r := RunCatalogs(cats, framed, env, t);
      !r.cancelled ==>
        && r.results == t.results + Outputs(cats, t.downloads, framed, env)
        && r.count == t.count + Successes(Outputs(cats, t.downloads, framed, env))
  {
    RunChain(cats, framed, env, t);
    OutputsGather(cats, t.downloads, framed, env);
    StepsAppend(framed, env);
    PartsCount(framed, env);
    ChainAppends(StepOf(framed, env), ResultsOf, OutputPart(framed, env), cats, t);
    ChainAdds(StepOf(framed, env), CountOf, EntryPart(framed, env), cats, t);
    GatherSuccesses(OutputPart(framed, env), EntryPart(framed, env), cats, t.downloads);
  }

  /** Uncancelled, a pass over catalogs downloads each of their files once,
      appends exactly their failures and grows the expected total by their extra
      images. */
  lemma CatalogsTally(cats: seq<Catalog>, framed: bool, env: Env, t: Tally)
    ensures var r := RunCatalogs(cats, framed, env, t);
      !r.cancelled ==>
        && r.failed == t.failed + Failures(cats, t.downloads, env)
        && r.downloads == t.downloads + TotalFiles(cats)
        && r.expected == t.expected + ExtraAll(cats, t.downloads, env)
  {
    RunChain(cats, framed, env, t);
    FailuresGather(cats, t.downloads, env);
    ExtraAllTotal(cats, t.downloads, env);
    StepsAppend(framed, env);
    ChainAppends(StepOf(framed, env), FailedSoFar, FailurePart(env), cats, t);
    ChainAdds(StepOf(framed, env), ExpectedOf, ExtraPart(env), cats, t);
  }

  /** A file list fails at most once per file. */
  lemma {:induction false} FailedBounded(path: string, files: seq<CatalogFile>, k: nat, env: Env)
    ensures |FailedOf(path, files, k, env)| <= |files|
    decreases |files|
  {
    if files != [] {
      FailedBounded(path, files[1..], k + 1, env);
    }
  }

  /** The catalogs fail at most once per file. */
  lemma {:induction false} FailuresBounded(cats: seq<Catalog>, k: nat, env: Env)
    ensures |Failures(cats, k, env)| <= TotalFiles(cats)
    decreases |cats|
  {
    if cats != [] {
      FailuresBounded(cats[1..], k + |cats[0].files|, env);
      FailedBounded(cats[0].path, cats[0].files, k, env);
    }
  }

  /** There are never more extra images than entries, over all catalogs. */
  lemma ExtraAllBounded(cats: seq<Catalog>, k: nat, framed: bool, env: Env)
    ensures ExtraAll(cats, k, env) <= Successes(Outputs(cats, k, framed, env))
  {
    CatalogsAccounted(cats, k, framed, env);
    FailuresBounded(cats, k, env);
  }

  /** An uncancelled pass over catalogs leaves the progress as it found it or
      showing the count. */
  lemma {:induction false} CatalogsProgress(cats: seq<Catalog>, framed: bool, env: Env, t: Tally)
    ensures var r := RunCatalogs(cats, framed, env, t);
      !r.cancelled ==> Shown(t, r)
    decreases |cats|
  {
    if cats != [] {
      var t1 := Check(env, t);
      if !t1.cancelled {
        var k := t.downloads;
        var done := RunFiles(cats[0].path, cats[0].files, framed, env, t1, []);
        FilesProgress(cats[0].path, cats[0].files, framed, env, t1, []);
        FilesTally(cats[0].path, cats[0].files, framed, env, t1, []);
        if !done.0.cancelled {
          RunCatalogsStep(cats, framed, env, t);
          var next := Finished(done.0, cats[0].path, done.1);
          assert next.downloads == k + |cats[0].files|;
          assert Shown(t, next);
          var r := RunCatalogs(cats[1..], framed, env, next);
          if !r.cancelled {
            CatalogsProgress(cats[1..], framed, env, next);
            CatalogsDone(cats[1..], framed, env, next);
            CatalogsTally(cats[1..], framed, env, next);
            ExtraAllBounded(cats[1..], next.downloads, framed, env);
            ShownTrans(t, next, r);
          }
        }
      }
    }
  }

  /** A cancelled run keeps a prefix of what the whole run would produce: the
      catalogs finished before the Stop, never the one in progress, and the
      failures recorded so far. */
  lemma CatalogsCancelled(cats: seq<Catalog>, framed: bool, env: Env, t: Tally)
    ensures var r := RunCatalogs(cats, framed, env, t);
      r.cancelled ==>
        && t.results <= r.results <= t.results + Outputs(cats, t.downloads, framed, env)
        && t.failed <= r.failed <= t.failed + Failures(cats, t.downloads, env)
  {
    RunChain(cats, framed, env, t);
    OutputsGather(cats, t.downloads, framed, env);
    FailuresGather(cats, t.downloads, env);
    StepsAppend(framed, env);
    ChainPrefix(StepOf(framed, env), ResultsOf, OutputPart(framed, env), cats, t);
    ChainPrefix(StepOf(framed, env), FailedSoFar, FailurePart(env), cats, t);
  }

  /** One catalog's step, uncancelled, downloads each of its files once and adds
      its entry (when it has one), its entries to the count, its failures and its
      extra images. */
  lemma CatalogStepDone(cat: Catalog, framed: bool, env: Env, t: Tally)
    ensures var s := CatalogStep(cat, framed, env, t);
      !s.cancelled ==>
        && s.results == t.results + HeadOf(cat.path, Produced(cat.files, t.downloads, framed, env))
        && s.count == t.count + |Produced(cat.files, t.downloads, framed, env)|
        && s.failed == t.failed + FailedOf(cat.path, cat.files, t.downloads, env)
        && s.downloads == t.downloads + |cat.files|
        && s.expected == t.expected + Extra(cat.files, t.downloads, env)
  {
    var t1 := Check(env, t);
    if !t1.cancelled {
      FilesDone(cat.path, cat.files, framed, env, t1, []);
      FilesTally(cat.path, cat.files, framed, env, t1, []);
      assert [] + Produced(cat.files, t.downloads, framed, env) == Produced(cat.files, t.downloads, framed, env);
    }
  }

  /** One catalog's step, cancelled, keeps the results and records a prefix of
      its failures. */
  lemma CatalogStepCancelled(cat: Catalog, framed: bool, env: Env, t: Tally)
    ensures var s := CatalogStep(cat, framed, env, t);
      s.cancelled ==> s.results == t.results && t.failed <= s.failed <= t.failed + FailedOf(cat.path, cat.files, t.downloads, env)
  {
    var t1 := Check(env, t);
    if !t1.cancelled {
      FilesDone(cat.path, cat.files, framed, env, t1, []);
      FilesCancelled(cat.path, cat.files, framed, env, t1, []);
    }
  }

  /** Without a Stop, a run is never cancelled. */
  lemma {:induction false} NoStopNoCancel(cats: seq<Catalog>, framed: bool, env: Env, t: Tally)
    requires forall c :: !env.stop(c)
    requires !t.cancelled
    ensures !RunCatalogs(cats, framed, env, t).cancelled
    decreases |cats|
  {
    if cats != [] {
      var t1 := Check(env, t);
      var done := RunFiles(cats[0].path, cats[0].files, framed, env, t1, []);
      FilesNoStop(cats[0].path, cats[0].files, framed, env, t1, []);
      NoStopNoCancel(cats[1..], framed, env, Finished(done.0, cats[0].path, done.1));
    }
  }

  lemma {:induction false} FilesNoStop(path: string, files: seq<CatalogFile>, framed: bool, env: Env, t: Tally, acc: seq<ProcessedFile>)
    requires forall c :: !env.stop(c)
    requires !t.cancelled
    ensures !RunFiles(path, files, framed, env, t, acc).0.cancelled
    decreases |files|
  {
    if files != [] {
      var t1 := Check(env, t);
      var images := Fetch(env, t1.downloads, files[0].url);
      var next := DownloadFile(path, files[0], framed, env, t1, acc);
      if Success(images) {
        ImagesNoStop(path, files[0].filename, images.value, framed, env, Downloaded(t1, images.value), acc);
      }
      FilesNoStop(path, files[1..], framed, env, next.0, next.1);
    }
  }

  lemma {:induction false} ImagesNoStop(path: string, planned: string, imgs: seq<DownloadedImage>, framed: bool, env: Env,
                                        t: Tally, acc: seq<ProcessedFile>)
    requires forall c :: !env.stop(c)
    requires !t.cancelled
    ensures !RunImages(path, planned, imgs, framed, env, t, acc).0.cancelled
    decreases |imgs|
  {
    if imgs != [] {
      var t1 := BeginImage(path, framed, env, t);
      ImagesNoStop(path, planned, imgs[1..], framed, env, EndImage(framed, t1), acc + [Entry(planned, imgs[0], framed, env)]);
    }
  }

  // ------------------------------------------------------- the completion message

  const AllFailedSuffix := " downloads failed. This usually means the files require Google account access or are not publicly shared with \"Anyone with the link\"."
  const SomeFailedSuffix := " files failed to download."

  function AllFailedMessage(expected: nat): string {
    "All " + NatToString(expected) + AllFailedSuffix
  }

  function SomeFailedMessage(failed: nat, expected: nat): string {
    NatToString(failed) + " of " + NatToString(expected) + SomeFailedSuffix
  }

  /** The error a completed `handleProcess` run shows. */
  function CompletionError(successes: nat, failed: nat, expected: nat): Option<string> {
    if successes == 0 then Some(AllFailedMessage(expected))
    else if failed > 0 then Some(SomeFailedMessage(failed, expected))
    else None
  }

  /** A completed run accounts for every expected download: entries plus failures
      are `totalExpected`, which is the file count plus the extra images; the
      results are those of the catalogs with an entry, in catalog order, and
      every result has an entry. */
  lemma ProcessCompleted(cats: seq<Catalog>, framed: bool, env: Env, shown: Progress)
    requires !Process(cats, framed, env, shown).cancelled
    ensures var r := Process(cats, framed, env, shown);
      && r.results == Outputs(cats, 0, framed, env)
      && r.failed == Failures(cats, 0, env)
      && Successes(r.results) + |r.failed| == r.expected == TotalFiles(cats) + ExtraAll(cats, 0, env)
      && (forall o :: o in r.results ==> o.files != [])
  {
    var t := Tally([], [], TotalFiles(cats), 0, 0, 0, shown, Downloading, false);
    CatalogsDone(cats, framed, env, t);
    CatalogsTally(cats, framed, env, t);
    CompletedRun(cats, framed, env, t, RunCatalogs(cats, framed, env, t));
  }

  /** What the facts about a completed pass over all catalogs give together. */
  lemma CompletedRun(cats: seq<Catalog>, framed: bool, env: Env, t: Tally, r: Tally)
    requires t.results == [] && t.failed == [] && t.count == 0 && t.downloads == 0 && t.expected == TotalFiles(cats)
    requires r.results == t.results + Outputs(cats, t.downloads, framed, env)
    requires r.failed == t.failed + Failures(cats, t.downloads, env)
    requires r.expected == t.expected + ExtraAll(cats, t.downloads, env)
    ensures r.results == Outputs(cats, 0, framed, env)
    ensures r.failed == Failures(cats, 0, env)
    ensures Successes(r.results) + |r.failed| == r.expected == TotalFiles(cats) + ExtraAll(cats, 0, env)
    ensures forall o :: o in r.results ==> o.files != []
  {
    CatalogsAccounted(cats, 0, framed, env);
    OutputsHaveEntries(cats, 0, framed, env);
    assert [] + Outputs(cats, 0, framed, env) == Outputs(cats, 0, framed, env);
    assert [] + Failures(cats, 0, env) == Failures(cats, 0, env);
  }

  /** The progress a completed run leaves: the one shown before it when nothing
      was downloaded, otherwise the entry count against `totalExpected`. */
  lemma ProcessProgress(cats: seq<Catalog>, framed: bool, env: Env, shown: Progress)
    requires !Process(cats, framed, env, shown).cancelled
    ensures var r := Process(cats, framed, env, shown);
      && (Successes(r.results) == 0 ==> r.progress == shown)
      && (Successes(r.results) > 0 ==> r.progress.current == Successes(r.results) && r.progress.total == r.expected)
  {
    var t := Tally([], [], TotalFiles(cats), 0, 0, 0, shown, Downloading, false);
    CatalogsDone(cats, framed, env, t);
    CatalogsProgress(cats, framed, env, t);
    assert [] + Outputs(cats, 0, framed, env) == Outputs(cats, 0, framed, env);
  }

  /** The error a completed run shows says all failed exactly when nothing was
      downloaded (the number it gives is then the failure count), and is absent
      exactly when nothing failed. */
  lemma ProcessMessage(cats: seq<Catalog>, framed: bool, env: Env, shown: Progress)
    requires !Process(cats, framed, env, shown).cancelled
    ensures var r := Process(cats, framed, env, shown);
      && (Successes(r.results) == 0 ==> CompletionError(0, |r.failed|, r.expected) == Some(AllFailedMessage(|r.failed|)))
      && (CompletionError(Successes(r.results), |r.failed|, r.expected).None? <==> r.failed == [] && r.results != [])
  {
    ProcessCompleted(cats, framed, env, shown);
    var r := Process(cats, framed, env, shown);
    SuccessesPositive(r.results);
    CompletionErrorMeaning(Successes(r.results), |r.failed|, r.expected);
  }

  /** Results that all have an entry have an entry between them exactly when
      there is a result. */
  lemma SuccessesPositive(outs: seq<Output>)
    requires forall o :: o in outs ==> o.files != []
    ensures Successes(outs) > 0 <==> outs != []
  {
    if outs != [] {
      assert outs[0] in outs;
    }
  }

  /** When entries and failures make up the expected total, the error says all
      failed, with the failure count, exactly when there is no entry, and is
      absent exactly when there are entries and no failures. */
  lemma CompletionErrorMeaning(successes: nat, failed: nat, expected: nat)
    requires successes + failed == expected
    ensures successes == 0 ==> CompletionError(successes, failed, expected) == Some(AllFailedMessage(failed))
    ensures successes > 0 && failed > 0 ==> CompletionError(successes, failed, expected) == Some(SomeFailedMessage(failed, expected))
    ensures CompletionError(successes, failed, expected).None? <==> successes > 0 && failed == 0
  {
    if successes == 0 {
      assert expected == failed;
    }
  }

  /** A cancelled run has kept a prefix of the completed run's results and failures. */
  lemma ProcessCancelled(cats: seq<Catalog>, framed: bool, env: Env, shown: Progress)
    requires Process(cats, framed, env, shown).cancelled
    ensures var r := Process(cats, framed, env, shown);
      r.results <= Outputs(cats, 0, framed, env) && r.failed <= Failures(cats, 0, env)
  {
    var t := Tally([], [], TotalFiles(cats), 0, 0, 0, shown, Downloading, false);
    CatalogsCancelled(cats, framed, env, t);
    assert [] + Outputs(cats, 0, framed, env) == Outputs(cats, 0, framed, env);
    assert [] + Failures(cats, 0, env) == Failures(cats, 0, env);
  }
}
