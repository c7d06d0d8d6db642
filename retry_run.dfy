/**
 * What `handleRetryFailed` in components/sku-processor.tsx computes, as
 * functions over the `Tally` of BatchRun: the results are `newResults`, the copy
 * of the processed catalogs that recovered images are merged into, and the
 * failures are `stillFailed`. Every file retried counts once in `retryCount`
 * when it fails again and once per image when it gives images.
 */
module RetryRun {
  import opened Wrappers
  import opened Text
  import opened BatchRun
  import SkuParser

  // ------------------------------------------------------- merging an entry

  /** `newResults.find(r => r.path === path)`: push the entry into the first
      result with that path, or add a result of its own at the end. */
  function Place(outs: seq<Output>, path: string, f: ProcessedFile): (r: seq<Output>)
    ensures |r| == |outs| || |r| == |outs| + 1
    decreases |outs|
  {
    if outs == [] then [Output(path, [f])]
    else if outs[0].path == path then [outs[0].(files := outs[0].files + [f])] + outs[1..]
    else [outs[0]] + Place(outs[1..], path, f)
  }

  /** The paths of a list of results. */
  function Paths(outs: seq<Output>): (r: seq<string>)
    ensures |r| == |outs|
    ensures forall i :: 0 <= i < |outs| ==> r[i] == outs[i].path
  {
    if outs == [] then [] else [outs[0].path] + Paths(outs[1..])
  }

  /** When a result has the path, the entry joins the first such result and
      nothing else changes. */
  lemma {:induction false} PlaceFound(outs: seq<Output>, path: string, f: ProcessedFile, i: nat)
    requires i < |outs| && outs[i].path == path
    requires forall j :: 0 <= j < i ==> outs[j].path != path
    ensures Place(outs, path, f) == outs[i := outs[i].(files := outs[i].files + [f])]
    decreases |outs|
  {
    if i > 0 {
      PlaceFound(outs[1..], path, f, i - 1);
      assert outs[1..][i - 1 := outs[i].(files := outs[i].files + [f])]
        == outs[i := outs[i].(files := outs[i].files + [f])][1..];
    }
  }

  /** When no result has the path, the entry becomes a new result at the end. */
  lemma {:induction false} PlaceNew(outs: seq<Output>, path: string, f: ProcessedFile)
    requires path !in Paths(outs)
    ensures Place(outs, path, f) == outs + [Output(path, [f])]
    decreases |outs|
  {
    if outs != [] {
      assert outs[0].path == Paths(outs)[0];
      assert Paths(outs[1..]) == Paths(outs)[1..];
      PlaceNew(outs[1..], path, f);
      assert [outs[0]] + (outs[1..] + [Output(path, [f])]) == outs + [Output(path, [f])];
    }
  }

  /** The earlier results keep their paths and their entries, in order, as a
      prefix of what they hold later. */
  predicate Extends(a: seq<Output>, b: seq<Output>) {
    |a| <= |b| && forall i :: 0 <= i < |a| ==> b[i].path == a[i].path && a[i].files <= b[i].files
  }

  /** A prefix of an extension at least as long as the original is one too. */
  lemma ExtendsPrefix(a: seq<Output>, b: seq<Output>, c: seq<Output>)
    requires Extends(a, c) && b <= c && |a| <= |b|
    ensures Extends(a, b)
  {
  }

  lemma ExtendsTrans(a: seq<Output>, b: seq<Output>, c: seq<Output>)
    requires Extends(a, b) && Extends(b, c)
    ensures Extends(a, c)
  {
    forall i | 0 <= i < |a|
      ensures c[i].path == a[i].path && a[i].files <= c[i].files
    {
      assert b[i].path == a[i].path && a[i].files <= b[i].files;
    }
  }

  /** Placing an entry keeps every earlier result. */
  lemma {:induction false} PlaceExtends(outs: seq<Output>, path: string, f: ProcessedFile)
    ensures Extends(outs, Place(outs, path, f))
    decreases |outs|
  {
    if outs != [] && outs[0].path != path {
      PlaceExtends(outs[1..], path, f);
      var r := Place(outs, path, f);
      var rest := Place(outs[1..], path, f);
      forall i | 0 <= i < |outs|
        ensures r[i].path == outs[i].path && outs[i].files <= r[i].files
      {
        if i > 0 {
          assert r[i] == rest[i - 1];
          assert outs[i] == outs[1..][i - 1];
        }
      }
    }
  }

  /** After an entry is placed, a result with its path is there. */
  lemma {:induction false} PlacePath(outs: seq<Output>, path: string, f: ProcessedFile)
    ensures path in Paths(Place(outs, path, f))
    decreases |outs|
  {
    var r := Place(outs, path, f);
    if outs == [] || outs[0].path == path {
      assert Paths(r)[0] == path;
    } else {
      PlacePath(outs[1..], path, f);
      var rest := Place(outs[1..], path, f);
      var j :| 0 <= j < |rest| && Paths(rest)[j] == path;
      assert r[j + 1] == rest[j];
      assert Paths(r)[j + 1] == path;
    }
  }

  /** Placing an entry adds one entry in all. */
  lemma {:induction false} PlaceCount(outs: seq<Output>, path: string, f: ProcessedFile)
    ensures Successes(Place(outs, path, f)) == Successes(outs) + 1
    decreases |outs|
  {
    var r := Place(outs, path, f);
    if outs == [] {
      assert r[1..] == [];
    } else if outs[0].path == path {
      assert r[1..] == outs[1..];
    } else {
      PlaceCount(outs[1..], path, f);
      assert r[1..] == Place(outs[1..], path, f);
    }
  }

  /** Paths that are all different stay all different: an entry for a path
      already present never opens a second result for it. */
  predicate DistinctPaths(outs: seq<Output>) {
    forall i, j :: 0 <= i < j < |outs| ==> outs[i].path != outs[j].path
  }

  lemma PlaceDistinct(outs: seq<Output>, path: string, f: ProcessedFile)
    requires DistinctPaths(outs)
    ensures DistinctPaths(Place(outs, path, f))
  {
    if path in Paths(outs) {
      var i :| 0 <= i < |outs| && Paths(outs)[i] == path;
      var m := FirstIndex(outs, path, i);
      PlaceFound(outs, path, f, m);
    } else {
      PlaceNew(outs, path, f);
      var r := outs + [Output(path, [f])];
      forall i, j | 0 <= i < j < |r|
        ensures r[i].path != r[j].path
      {
        if j == |outs| {
          assert Paths(outs)[i] == outs[i].path;
        }
      }
    }
  }

  /** The first result with a path, given one with it. */
  lemma {:induction false} FirstIndex(outs: seq<Output>, path: string, i: nat) returns (m: nat)
    requires i < |outs| && outs[i].path == path
    ensures m <= i && outs[m].path == path
    ensures forall j :: 0 <= j < m ==> outs[j].path != path
    decreases i
  {
    if exists j :: 0 <= j < i && outs[j].path == path {
      var j :| 0 <= j < i && outs[j].path == path;
      m := FirstIndex(outs, path, j);
    } else {
      m := i;
    }
  }

  // ------------------------------------------------------- the retry run

  /** One image of a retried file (lines 553-600): the count and the progress
      line, a check, the frame's processing state, the check after the frame, and
      the entry merged into the results. */
  function RetryImage(path: string, planned: string, img: DownloadedImage, framed: bool, env: Env, t: Tally): (r: Tally)
    requires !t.cancelled
    ensures r.failed == t.failed && r.downloads == t.downloads && r.expected == t.expected && r.count == t.count + 1
    ensures !r.cancelled ==> r.progress.current == r.count && r.progress.total == r.expected
    ensures !r.cancelled ==> r.results == Place(t.results, path, Entry(planned, img, framed, env))
    ensures r.cancelled ==> r.results == t.results
  {
    var t1 := RetryStart(path, framed, env, t);
    if t1.cancelled then t1
    else EndImage(framed, t1.(results := Place(t1.results, path, Entry(planned, img, framed, env))))
  }

  /** A retried image up to its entry (lines 553-580): the count and the progress
      line, a check, the frame's processing state, and a check. */
  function RetryStart(path: string, framed: bool, env: Env, t: Tally): (r: Tally)
    ensures r.failed == t.failed && r.results == t.results && r.downloads == t.downloads && r.expected == t.expected
    ensures r.count == t.count + 1
    ensures !r.cancelled ==> r.progress.current == r.count && r.progress.total == r.expected
  {
    var n := t.count + 1;
    var t1 := Check(env, t.(count := n, progress := Progress(n, t.expected, RetryingNote(path, n, t.expected))));
    if t1.cancelled then t1
    else Check(env, if framed then t1.(state := Processing, progress := Progress(n, t1.expected, FrameNote(path))) else t1)
  }

  /** The images of a retried file (lines 552-601). */
  function RetryImages(path: string, planned: string, imgs: seq<DownloadedImage>, framed: bool, env: Env, t: Tally): Tally
    requires !t.cancelled
    decreases |imgs|
  {
    if imgs == [] then t
    else
      var t1 := RetryImage(path, planned, imgs[0], framed, env, t);
      if t1.cancelled then t1 else RetryImages(path, planned, imgs[1..], framed, env, t1)
  }

  /** One failed file after its check (lines 545-609): the download, then its
      images, or one more count and the file back on the failed list. */
  function RetryItem(item: FailedDownload, framed: bool, env: Env, t: Tally): Tally
    requires !t.cancelled
  {
    var images := Fetch(env, t.downloads, item.url);
    if Success(images) then RetryImages(item.path, item.filename, images.value, framed, env, Downloaded(t, images.value))
    else
      var n := t.count + 1;
      t.(downloads := t.downloads + 1, count := n, failed := t.failed + [item],
         progress := Progress(n, t.expected, RetryingNote(item.path, n, t.expected)))
  }

  /** The failed files (lines 539-610), each after a check. */
  function RetryItems(items: seq<FailedDownload>, framed: bool, env: Env, t: Tally): Tally
    decreases |items|
  {
    if items == [] then t
    else
      var t1 := Check(env, t);
      if t1.cancelled then t1 else RetryItems(items[1..], framed, env, RetryItem(items[0], framed, env, t1))
  }

  /** A whole `handleRetryFailed` run over the failed list, from the processed
      catalogs and the progress shown before it. */
  function Retry(results: seq<Output>, failed: seq<FailedDownload>, framed: bool, env: Env, shown: Progress): Tally {
    RetryItems(failed, framed, env, Tally(results, [], |failed|, 0, 0, 0, shown, Downloading, false))
  }

  const StillFailedSuffix := " files still failed. They may require Google account access."

  /** The error a completed retry shows (lines 619-625). */
  function RetryError(stillFailed: seq<FailedDownload>): (r: Option<string>)
    ensures r.None? <==> stillFailed == []
    ensures r.Some? ==> r.value == NatToString(|stillFailed|) + StillFailedSuffix
  {
    if |stillFailed| > 0 then Some(NatToString(|stillFailed|) + StillFailedSuffix) else None
  }

  // ------------------------------------------------------- what an uncancelled retry produces

  /** A failed file as the catalog file it was. */
  function ItemFile(item: FailedDownload): SkuParser.CatalogFile {
    SkuParser.CatalogFile(item.url, item.filename)
  }

  /** The results after placing a file's entries in order. */
  function PlaceAll(outs: seq<Output>, path: string, entries: seq<ProcessedFile>): seq<Output>
    decreases |entries|
  {
    if entries == [] then outs else PlaceAll(Place(outs, path, entries[0]), path, entries[1..])
  }

  /** The results after retrying the files, downloads numbered from `k`. */
  function Merged(outs: seq<Output>, items: seq<FailedDownload>, k: nat, framed: bool, env: Env): seq<Output>
    decreases |items|
  {
    if items == [] then outs
    else Merged(PlaceAll(outs, items[0].path, FileEntries(ItemFile(items[0]), k, framed, env)), items[1..], k + 1, framed, env)
  }

  /** A retried file when it is the k-th download: nothing, or itself when it fails again. */
  function AgainOf(item: FailedDownload, k: nat, env: Env): seq<FailedDownload> {
    if Success(Fetch(env, k, item.url)) then [] else [item]
  }

  /** The files that fail again, in order. */
  function FailedAgain(items: seq<FailedDownload>, k: nat, env: Env): seq<FailedDownload>
    decreases |items|
  {
    if items == [] then [] else AgainOf(items[0], k, env) + FailedAgain(items[1..], k + 1, env)
  }

  /** What a retried file counts when it is the k-th download: its images, or one
      for a failure. */
  function RetriedOf(item: FailedDownload, k: nat, env: Env): nat {
    var images := Fetch(env, k, item.url);
    if Success(images) then |images.value| else 1
  }

  function Retried(items: seq<FailedDownload>, k: nat, env: Env): nat
    decreases |items|
  {
    if items == [] then 0 else RetriedOf(items[0], k, env) + Retried(items[1..], k + 1, env)
  }

  /** The first file's share of what a retry gives. */
  lemma ItemsStep(outs: seq<Output>, items: seq<FailedDownload>, k: nat, k1: nat, framed: bool, env: Env)
    requires items != [] && k1 == k + 1
    ensures Merged(outs, items, k, framed, env)
      == Merged(PlaceAll(outs, items[0].path, FileEntries(ItemFile(items[0]), k, framed, env)), items[1..], k1, framed, env)
    ensures FailedAgain(items, k, env) == AgainOf(items[0], k, env) + FailedAgain(items[1..], k1, env)
    ensures Retried(items, k, env) == RetriedOf(items[0], k, env) + Retried(items[1..], k1, env)
    ensures RetryExtra(items, k, env) == FileExtra(ItemFile(items[0]), k, env) + RetryExtra(items[1..], k1, env)
  {
  }

  /** Each retried file counts one plus its extra images. */
  lemma {:induction false} RetriedIsExpected(items: seq<FailedDownload>, k: nat, env: Env)
    ensures Retried(items, k, env) == |items| + RetryExtra(items, k, env)
    decreases |items|
  {
    if items != [] {
      RetriedIsExpected(items[1..], k + 1, env);
      ItemsStep([], items, k, k + 1, false, env);
    }
  }

  /** The files failing again are some of the files retried, in their order. */
  lemma {:induction false} FailedAgainFrom(items: seq<FailedDownload>, k: nat, env: Env)
    ensures |FailedAgain(items, k, env)| <= |items|
    ensures forall x :: x in FailedAgain(items, k, env) ==> x in items
    decreases |items|
  {
    if items != [] {
      FailedAgainFrom(items[1..], k + 1, env);
      ItemsStep([], items, k, k + 1, false, env);
    }
  }

  /** Placing a file's entries adds exactly those entries. */
  lemma {:induction false} PlaceAllCount(outs: seq<Output>, path: string, entries: seq<ProcessedFile>)
    ensures Successes(PlaceAll(outs, path, entries)) == Successes(outs) + |entries|
    decreases |entries|
  {
    if entries != [] {
      PlaceCount(outs, path, entries[0]);
      PlaceAllCount(Place(outs, path, entries[0]), path, entries[1..]);
    }
  }

  /** Placing a file's entries keeps every earlier result and keeps paths distinct. */
  lemma {:induction false} PlaceAllExtends(outs: seq<Output>, path: string, entries: seq<ProcessedFile>)
    ensures Extends(outs, PlaceAll(outs, path, entries))
    ensures DistinctPaths(outs) ==> DistinctPaths(PlaceAll(outs, path, entries))
    decreases |entries|
  {
    if entries != [] {
      var next := Place(outs, path, entries[0]);
      PlaceExtends(outs, path, entries[0]);
      if DistinctPaths(outs) {
        PlaceDistinct(outs, path, entries[0]);
      }
      PlaceAllExtends(next, path, entries[1..]);
      ExtendsTrans(outs, next, PlaceAll(next, path, entries[1..]));
    }
  }

  /** A completed retry keeps every earlier result, adds the recovered entries,
      and opens no second result for a path. */
  lemma {:induction false} MergedExtends(outs: seq<Output>, items: seq<FailedDownload>, k: nat, framed: bool, env: Env)
    ensures Extends(outs, Merged(outs, items, k, framed, env))
    ensures DistinctPaths(outs) ==> DistinctPaths(Merged(outs, items, k, framed, env))
    decreases |items|
  {
    if items != [] {
      var next := PlaceAll(outs, items[0].path, FileEntries(ItemFile(items[0]), k, framed, env));
      ItemsStep(outs, items, k, k + 1, framed, env);
      PlaceAllExtends(outs, items[0].path, FileEntries(ItemFile(items[0]), k, framed, env));
      MergedExtends(next, items[1..], k + 1, framed, env);
      ExtendsTrans(outs, next, Merged(next, items[1..], k + 1, framed, env));
    }
  }

  /** The entries recovered plus the files failing again are what the retry counted. */
  lemma {:induction false} MergedCount(outs: seq<Output>, items: seq<FailedDownload>, k: nat, framed: bool, env: Env)
    ensures Successes(Merged(outs, items, k, framed, env)) + |FailedAgain(items, k, env)| == Successes(outs) + Retried(items, k, env)
    decreases |items|
  {
    if items != [] {
      var entries := FileEntries(ItemFile(items[0]), k, framed, env);
      var next := PlaceAll(outs, items[0].path, entries);
      ItemsStep(outs, items, k, k + 1, framed, env);
      PlaceAllCount(outs, items[0].path, entries);
      FileOutcome(items[0].path, ItemFile(items[0]), k, framed, env);
      MergedCount(next, items[1..], k + 1, framed, env);
    }
  }

  /** The images beyond the first of every retried download that gave several. */
  function RetryExtra(items: seq<FailedDownload>, k: nat, env: Env): nat
    decreases |items|
  {
    if items == [] then 0 else FileExtra(ItemFile(items[0]), k, env) + RetryExtra(items[1..], k + 1, env)
  }

  // ------------------------------------------------------- what the run does

  /** The first image's share of the entries a file's images give. */
  lemma PlaceAllStep(outs: seq<Output>, path: string, planned: string, imgs: seq<DownloadedImage>, framed: bool, env: Env)
    requires imgs != []
    ensures PlaceAll(outs, path, Named(planned, imgs, framed, env))
      == PlaceAll(Place(outs, path, Entry(planned, imgs[0], framed, env)), path, Named(planned, imgs[1..], framed, env))
  {
    var n := Named(planned, imgs, framed, env);
    assert n[0] == Entry(planned, imgs[0], framed, env);
    assert n[1..] == Named(planned, imgs[1..], framed, env);
  }

  /** A retried file's images keep the failures, the downloads and the expected
      total, and keep every earlier result. */
  lemma {:induction false} ImagesRetriedKeep(path: string, planned: string, imgs: seq<DownloadedImage>, framed: bool, env: Env, t: Tally)
    requires !t.cancelled
    ensures var r := RetryImages(path, planned, imgs, framed, env, t);
      && r.failed == t.failed && r.downloads == t.downloads && r.expected == t.expected
      && Extends(t.results, r.results)
    decreases |imgs|
  {
    if imgs != [] {
      var t1 := RetryImage(path, planned, imgs[0], framed, env, t);
      PlaceExtends(t.results, path, Entry(planned, imgs[0], framed, env));
      if !t1.cancelled {
        ImagesRetriedKeep(path, planned, imgs[1..], framed, env, t1);
        ExtendsTrans(t.results, t1.results, RetryImages(path, planned, imgs[1..], framed, env, t1).results);
      }
    }
  }

  /** Uncancelled, a retried file's images are each placed in order and counted,
      with the progress showing the count. */
  lemma {:induction false} ImagesRetried(path: string, planned: string, imgs: seq<DownloadedImage>, framed: bool, env: Env, t: Tally)
    requires !t.cancelled
    ensures var r := RetryImages(path, planned, imgs, framed, env, t);
      !r.cancelled ==>
        && r.results == PlaceAll(t.results, path, Named(planned, imgs, framed, env))
        && r.count == t.count + |imgs|
        && (imgs == [] ==> r == t)
        && (imgs != [] ==> Shows(r))
    decreases |imgs|
  {
    if imgs != [] {
      var t1 := RetryImage(path, planned, imgs[0], framed, env, t);
      if !t1.cancelled {
        ImagesRetried(path, planned, imgs[1..], framed, env, t1);
        PlaceAllStep(t.results, path, planned, imgs, framed, env);
      }
    }
  }

  /** One retried file: one download; the file back on the failed list exactly
      when it fails again; the expected total grown by its extra images; every
      earlier result kept; and, uncancelled, its entries placed and counted, or
      one count for the failure, with the progress showing the count. */
  lemma RetryItemDone(item: FailedDownload, framed: bool, env: Env, t: Tally)
    requires !t.cancelled
    ensures var r := RetryItem(item, framed, env, t);
      && r.downloads == t.downloads + 1
      && r.failed == t.failed + AgainOf(item, t.downloads, env)
      && r.expected == t.expected + FileExtra(ItemFile(item), t.downloads, env)
      && Extends(t.results, r.results)
      && (!r.cancelled ==>
            && r.results == PlaceAll(t.results, item.path, FileEntries(ItemFile(item), t.downloads, framed, env))
            && r.count == t.count + RetriedOf(item, t.downloads, env)
            && Shows(r))
  {
    var images := Fetch(env, t.downloads, item.url);
    if Success(images) {
      var t1 := Downloaded(t, images.value);
      ImagesRetriedKeep(item.path, item.filename, images.value, framed, env, t1);
      ImagesRetried(item.path, item.filename, images.value, framed, env, t1);
    }
  }

  /** One step of a retry over a file's images. */
  lemma RetryImagesStep(path: string, planned: string, imgs: seq<DownloadedImage>, framed: bool, env: Env, t: Tally)
    requires imgs != [] && !t.cancelled
    ensures var t1 := RetryImage(path, planned, imgs[0], framed, env, t);
      RetryImages(path, planned, imgs, framed, env, t) == if t1.cancelled then t1 else RetryImages(path, planned, imgs[1..], framed, env, t1)
  {
  }

  /** A retry over files is a check, then the first file, then the rest. */
  lemma RetryItemsUnfold(items: seq<FailedDownload>, framed: bool, env: Env, t: Tally)
    requires items != []
    ensures var t1 := Check(env, t);
      RetryItems(items, framed, env, t) == if t1.cancelled then t1 else RetryItems(items[1..], framed, env, RetryItem(items[0], framed, env, t1))
  {
  }

  /** One step of a retry over files. */
  lemma RetryItemsStep(items: seq<FailedDownload>, framed: bool, env: Env, t: Tally)
    requires items != [] && !Check(env, t).cancelled
    ensures RetryItems(items, framed, env, t) == RetryItems(items[1..], framed, env, RetryItem(items[0], framed, env, Check(env, t)))
  {
  }

  /** A retry keeps every earlier result, cancelled or not. */
  lemma {:induction false} ItemsExtend(items: seq<FailedDownload>, framed: bool, env: Env, t: Tally)
    ensures Extends(t.results, RetryItems(items, framed, env, t).results)
    decreases |items|
  {
    if items != [] {
      var t1 := Check(env, t);
      if !t1.cancelled {
        var next := RetryItem(items[0], framed, env, t1);
        RetryItemsStep(items, framed, env, t);
        RetryItemDone(items[0], framed, env, t1);
        ItemsExtend(items[1..], framed, env, next);
        ExtendsTrans(t.results, next.results, RetryItems(items[1..], framed, env, next).results);
      }
    }
  }

  /** Uncancelled, a retry merges exactly the recovered entries and downloads each
      file once. */
  lemma {:induction false} ItemsRetried(items: seq<FailedDownload>, framed: bool, env: Env, t: Tally)
    ensures var r := RetryItems(items, framed, env, t);
      !r.cancelled ==>
        && r.results == Merged(t.results, items, t.downloads, framed, env)
        && r.downloads == t.downloads + |items|
    decreases |items|
  {
    if items != [] {
      var t1 := Check(env, t);
      if !t1.cancelled {
        var next := RetryItem(items[0], framed, env, t1);
        RetryItemsStep(items, framed, env, t);
        RetryItemDone(items[0], framed, env, t1);
        ItemsRetried(items[1..], framed, env, next);
        ItemsStep(t.results, items, t.downloads, next.downloads, framed, env);
      }
    }
  }

  /** Uncancelled, a retry puts back exactly the files that fail again, counts
      every image and every failure, and grows the expected total by the extra
      images. */
  lemma {:induction false} ItemsTally(items: seq<FailedDownload>, framed: bool, env: Env, t: Tally)
    ensures var r := RetryItems(items, framed, env, t);
      !r.cancelled ==>
        && r.failed == t.failed + FailedAgain(items, t.downloads, env)
        && r.count == t.count + Retried(items, t.downloads, env)
        && r.expected == t.expected + RetryExtra(items, t.downloads, env)
        && r.downloads == t.downloads + |items|
    decreases |items|
  {
    if items != [] {
      var t1 := Check(env, t);
      if !t1.cancelled {
        var next := RetryItem(items[0], framed, env, t1);
        RetryItemsStep(items, framed, env, t);
        RetryItemDone(items[0], framed, env, t1);
        ItemsTally(items[1..], framed, env, next);
        ItemsStep(t.results, items, t.downloads, next.downloads, framed, env);
        Associative(t.failed, AgainOf(items[0], t.downloads, env), FailedAgain(items[1..], next.downloads, env));
      }
    }
  }

  /** Uncancelled, a retry over at least one file leaves the progress showing the
      count against the expected total. */
  lemma {:induction false} ItemsProgress(items: seq<FailedDownload>, framed: bool, env: Env, t: Tally)
    ensures var r := RetryItems(items, framed, env, t);
      !r.cancelled && items != [] ==> Shows(r)
    decreases |items|
  {
    if items != [] {
      var t1 := Check(env, t);
      if !t1.cancelled {
        var next := RetryItem(items[0], framed, env, t1);
        RetryItemsStep(items, framed, env, t);
        RetryItemDone(items[0], framed, env, t1);
        if items[1..] != [] {
          ItemsProgress(items[1..], framed, env, next);
        }
      }
    }
  }

  /** A completed retry: the results are the earlier ones with the recovered
      entries merged in, which keeps every earlier result and opens no second
      result for a path; the failed list is exactly the files that failed again,
      in order; and the recovered entries plus the failures are what was retried. */
  lemma RetryCompleted(results: seq<Output>, failed: seq<FailedDownload>, framed: bool, env: Env, shown: Progress)
    requires !Retry(results, failed, framed, env, shown).cancelled
    ensures var r := Retry(results, failed, framed, env, shown);
      && r.results == Merged(results, failed, 0, framed, env)
      && r.failed == FailedAgain(failed, 0, env)
      && Extends(results, r.results)
      && (DistinctPaths(results) ==> DistinctPaths(r.results))
      && |r.failed| <= |failed| && (forall x :: x in r.failed ==> x in failed)
      && Successes(r.results) + |r.failed| == Successes(results) + r.count
  {
    var t := Tally(results, [], |failed|, 0, 0, 0, shown, Downloading, false);
    ItemsRetried(failed, framed, env, t);
    ItemsTally(failed, framed, env, t);
    MergedExtends(results, failed, 0, framed, env);
    MergedCount(results, failed, 0, framed, env);
    FailedAgainFrom(failed, 0, env);
    assert [] + FailedAgain(failed, 0, env) == FailedAgain(failed, 0, env);
  }

  /** A completed retry has counted exactly what it expected: one per file plus
      the extra images; with a file retried, the progress shows that total as
      reached. */
  lemma RetryCounted(results: seq<Output>, failed: seq<FailedDownload>, framed: bool, env: Env, shown: Progress)
    requires !Retry(results, failed, framed, env, shown).cancelled
    ensures var r := Retry(results, failed, framed, env, shown);
      && r.count == r.expected == |failed| + RetryExtra(failed, 0, env)
      && (failed != [] ==> r.progress.current == r.progress.total == r.expected)
  {
    var t := Tally(results, [], |failed|, 0, 0, 0, shown, Downloading, false);
    ItemsTally(failed, framed, env, t);
    ItemsProgress(failed, framed, env, t);
    RetriedIsExpected(failed, 0, env);
  }

  /** A cancelled retry has still added to the earlier results: each keeps its
      path and its entries, as a prefix of what it holds. */
  lemma RetryCancelled(results: seq<Output>, failed: seq<FailedDownload>, framed: bool, env: Env, shown: Progress)
    ensures Extends(results, Retry(results, failed, framed, env, shown).results)
  {
    ItemsExtend(failed, framed, env, Tally(results, [], |failed|, 0, 0, 0, shown, Downloading, false));
  }
}
