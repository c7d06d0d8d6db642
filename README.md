# Stampify core, modelled in Dafny

Stampify turns a pasted or uploaded SKU sheet into folders of product images.
The parser (`lib/sku-parser.ts`) reads the sheet line by line. It sorts the
lines into headers, folder markers and file rows, and groups the file rows
into catalogs. Each catalog is a folder path with an ordered list of
`{url, filename}` entries.

The processor component (`components/sku-processor.tsx`) downloads every
file of every catalog. It does this through the download route
(`app/api/download/route.ts`). That route pulls the bytes of a Google Drive
file through four public download strategies and a final fallback, and
answers with a base64 data URI. The component can put each image under a
frame, and it counts progress against an expected total. It keeps the
failures and can retry them, merging what it gets into the earlier results.
It can be stopped. Its preview can be opened, stepped through and clamped.

Access is guarded in two places:
- `lib/auth.ts` issues and reads a signed session cookie;
- `middleware.ts` turns away requests to non-public paths that carry no
  acceptable session.

The project has one module per concern:

| file | module | models |
|---|---|---|
| `wrappers.dfy` | `Wrappers` | `Option` and `Result`, standing in for `null` and for a thrown error |
| `text.dfy` | `Text` | the JavaScript string operations the sources use: `trim` with JavaScript's white-space set, `split`, `startsWith`, literal `replace` / `replaceAll`, ASCII case folding, and the simple regular-expression captures (`/id=([^&]+)/` and the like) as a literal lead followed by a character class |
| `sku_parser.dfy` | `SkuParser` | `parseSKUFile` and its helpers |
| `base64.dfy` | `Base64` | `toBase64` / `btoa`, with the decoder it is an inverse of (RFC 4648, section 4) |
| `drive_download.dfy` | `DriveDownload` | the download route's `POST` |
| `batch_run.dfy` | `BatchRun` | `downloadImage` and the run of `handleProcess`, as functions over the run's state |
| `retry_run.dfy` | `RetryRun` | the run of `handleRetryFailed` |
| `sku_processor.dfy` | `SkuProcessor` | the component as a `Processor` class whose handlers update its fields, over heap `ProcessedCatalog` objects; also the preview and size helpers |
| `auth.dfy` | `Auth` | the session helpers |
| `middleware.dfy` | `Middleware` | the request guard |

Everything the code gets from outside appears as a parameter:
- the network (`Network`, and the `download` oracle of `Env`), indexed by the
  ordinal of the call;
- the canvas that applies the frame (`overlay`), whose failure gives back
  the input image, as `applyFrameWithCanvas` does;
- the moments at which Stop is pressed (`stop`);
- JWT signing and verification;
- `decodeURIComponent`;
- the `pathname` of `new URL(...)`;
- the environment variable holding the session secret.

The two handlers are written as imperative methods of `Processor` with
loops. Each one is proved equal to a functional description: `BatchRun.Process`
and `RetryRun.Retry`. The lemmas state the properties on those descriptions.

## Model

| member | source | states |
|---|---|---|
| `Base64.SextetOfCharOf` | app/api/download/route.ts:10 | every 6-bit value is read back from the character the alphabet gives it |
| `Base64.OctetsOfSextets` | app/api/download/route.ts:10 | splitting three bytes into four 6-bit groups and joining them again gives the three bytes |
| `Base64.Chars` | app/api/download/route.ts:10 | the first `n` groups become exactly `n` alphabet characters, in order |
| `Base64.Encode` | app/api/download/route.ts:10 | the encoding never holds a comma, so it is the whole field after the data URI's first comma |
| `Base64.Values` | app/api/download/route.ts:10 | a decoded group list matches the input character for character |
| `Base64.DecodeOne` | app/api/download/route.ts:10 | a one-byte tail (two `=` of padding) decodes back to that byte |
| `Base64.DecodeTwo` | app/api/download/route.ts:10 | a two-byte tail (one `=` of padding) decodes back to those bytes |
| `Base64.DecodeEncode` | app/api/download/route.ts:4-11 | decoding the encoding of any byte sequence gives the sequence back |
| `Base64.Padding` | app/api/download/route.ts:10 | the padding is at most two characters |
| `Base64.EncodeSize` | app/api/download/route.ts:10 | four characters for every three bytes once padding is counted; the encoding is empty exactly when the input is |
| `Base64.Latin1` | app/api/download/route.ts:5-9 | the binary string built with `String.fromCharCode` holds only characters below 256, so `btoa` accepts it, and reading its characters back as bytes gives the buffer |
| `Base64.Latin1Bytes` | app/api/download/route.ts:10 | the bytes `btoa` encodes: one per character, equal to its code |
| `Base64.Latin1OfBytes` | app/api/download/route.ts:5-10 | the converse round trip: a string of characters below 256 is the binary string of its own bytes |
| `Base64.ToBase64` | app/api/download/route.ts:4-11 | the loop builds exactly the binary string of the buffer; its `btoa` is the base64 of the buffer and decodes back to the buffer |
| `SkuParser.SlashesForBackslashes` | lib/sku-parser.ts:125 | no backslash is left |
| `SkuParser.NoBackslashes` | lib/sku-parser.ts:125 | text without backslashes passes unchanged |
| `SkuParser.StripDotSlashPrefix` | lib/sku-parser.ts:126 | the result is a suffix of the input |
| `SkuParser.SanitizeFolderPath` | lib/sku-parser.ts:123-131 | only folder-legal characters remain (none of `? % * : \| " < >` or backslash) and there is no white space at either end |
| `SkuParser.SanitizeFolderPathStages` | lib/sku-parser.ts:123-131 | the sanitiser is the six stages composed in the source's order |
| `SkuParser.SanitizeFolderPathDoubleSlash` | lib/sku-parser.ts:128-129 | `x/?/y` sanitises to `x//y`: a doubled slash survives because characters are filtered after slashes are collapsed |
| `SkuParser.SanitizeFolderPathKeepsDots` | lib/sku-parser.ts:127-129 | `x/.:./y` sanitises to `x/../y`: a parent step survives because `..` is removed before the character filter |
| `SkuParser.SanitizeFolderPathLeadingSlash` | lib/sku-parser.ts:126-129 | `?/y` sanitises to `/y`: a leading slash survives because it is stripped before the character filter |
| `SkuParser.SanitizeFilename` | lib/sku-parser.ts:133-138 | no filename-illegal character, no white space at either end, no two white-space characters in a row |
| `SkuParser.SanitizeFilenameIdempotent` | lib/sku-parser.ts:133-138 | sanitising a sanitised name changes nothing |
| `SkuParser.SanitizeFilenameKeeps` | lib/sku-parser.ts:133-138 | every legal character that is not white space survives |
| `SkuParser.Segments` | lib/sku-parser.ts:105 | `split("/").filter(Boolean)`: every part is non-empty and slash-free |
| `SkuParser.SegmentsJoin` | lib/sku-parser.ts:115 | splitting a `/`-join of such parts gives the parts back |
| `SkuParser.FolderBefore` | lib/sku-parser.ts:115 | the folder left when the file part is popped is non-empty and folder-legal |
| `SkuParser.DefaultRootIsFolder` | lib/sku-parser.ts:1 | the default root `katalog` is a non-empty, folder-legal path |
| `SkuParser.SplitPath` | lib/sku-parser.ts:100-121 | the folder is non-empty and folder-legal; the explicit filename is filename-legal and trimmed |
| `SkuParser.SplitPathShape` | lib/sku-parser.ts:100-121 | a filename is split off exactly when the last segment has a 2-4 character extension; it is that segment sanitised; the folder is the default root, the remaining segments, or the whole cleaned path, by case |
| `SkuParser.SplitPathIsSanitized` | lib/sku-parser.ts:116 | the explicit filename is already a fixed point of `sanitizeFilename` |
| `SkuParser.SplitCleaned` | lib/sku-parser.ts:105-120 | on a cleaned path: non-empty legal folder, legal trimmed filename |
| `SkuParser.SplitCleanedShape` | lib/sku-parser.ts:105-120 | the case split of `SplitPathShape`, stated on the cleaned path |
| `SkuParser.SplitOffFile` | lib/sku-parser.ts:111-117 | splitting off a file keeps a non-empty legal folder |
| `SkuParser.SplitOffFileShape` | lib/sku-parser.ts:111-117 | the file is the last segment sanitised; the folder is the other segments, or the root when there are none |
| `SkuParser.UrlInLineFrom` | lib/sku-parser.ts:45 | a match is a non-empty run without white space that starts with `http://` or `https://`, in any case |
| `SkuParser.UrlInLineFromNone` | lib/sku-parser.ts:45 | there is no match exactly when no position starts a URL |
| `SkuParser.UrlAt` | lib/sku-parser.ts:2 | the URL taken at a match position is non-empty, has no white space and starts with the scheme |
| `SkuParser.GuessExtension` | lib/sku-parser.ts:144-152 | the guess is empty or an image extension that the pathname ends with, in any case |
| `SkuParser.GuessExtensionExact` | lib/sku-parser.ts:147-148 | a pathname that ends in an image extension gives exactly that extension in lower case |
| `SkuParser.ExtractGoogleDriveId` | lib/sku-parser.ts:160-170 | an extracted id is never empty |
| `SkuParser.NormalizeFileLink` | lib/sku-parser.ts:154-162 | a link with `file/d/<id>` becomes `https://drive.google.com/uc?id=<id>` |
| `SkuParser.NormalizeIdLink` | lib/sku-parser.ts:164-165 | a link with `id=<id>` and no `file/d/` becomes the `uc?id=` link of that id |
| `SkuParser.NormalizeOtherLink` | lib/sku-parser.ts:156 | a link with neither form is only trimmed |
| `SkuParser.NormalizeDriveFileView` | lib/sku-parser.ts:154-162 | a Drive `file/d/<id>/view` share link becomes the `uc?id=` link of the same id |
| `SkuParser.NormalizeUcLinkStable` | lib/sku-parser.ts:154-165 | normalising a normalised link changes nothing |
| `SkuParser.ExtractParentheticalName` | lib/sku-parser.ts:172-176 | the name is trimmed and, when there is one, holds no parenthesis |
| `SkuParser.NumberedName` | lib/sku-parser.ts:75 | `image-<n><ext>` is non-empty, filename-legal and free of white space |
| `SkuParser.PlanFilename` | lib/sku-parser.ts:71-75 | the chosen filename is never empty, filename-legal and trimmed |
| `SkuParser.PlaceRecord` | lib/sku-parser.ts:57-81 | a file row always lands in a non-empty folder under a non-empty filename |
| `SkuParser.PlaceRecordCount` | lib/sku-parser.ts:69-75 | the numbered fallback name uses the count of files already in that folder, and `.png` when the extension guess fails |
| `SkuParser.PlaceRecordName` | lib/sku-parser.ts:62-75 | a record's name is the sanitised explicit name of its path hint when non-empty, else the sanitised parenthetical name when non-empty, else `image-{n}{ext}` with `n` one more than the files already in its folder |
| `SkuParser.FirstRecordNumberedOne` | lib/sku-parser.ts:69-75 | the first record placed in a folder not seen before, with no explicit or parenthetical name, is called `image-1{ext}` |
| `SkuParser.Values` | lib/sku-parser.ts:84 | the catalogs come out in the order their folders were first seen |
| `SkuParser.CatalogName` | lib/sku-parser.ts:94 | a catalog's name is never empty |
| `SkuParser.EnsureCatalog` | lib/sku-parser.ts:87-98 | afterwards the folder has a catalog |
| `SkuParser.AddFileEffect` | lib/sku-parser.ts:78-81 | the file is appended to its folder's catalog only; a folder joins the order once, when first seen |
| `SkuParser.Columns` | lib/sku-parser.ts:26-29 | the tab-separated columns are trimmed and non-empty |
| `SkuParser.FirstLikelyUrl` | lib/sku-parser.ts:44 | the first column that looks like a URL; none exactly when no column does |
| `SkuParser.FirstOther` | lib/sku-parser.ts:59 | the hint column is a column that differs from the URL |
| `SkuParser.RecordEffect` | lib/sku-parser.ts:66-81 | recording a file keeps the parse state well formed and changes only that folder's list |
| `SkuParser.StepValid` | lib/sku-parser.ts:22-82 | one line keeps the parse state well formed |
| `SkuParser.ParseLinesValid` | lib/sku-parser.ts:16-82 | the whole parse stays well formed: each folder's counter equals its file count |
| `SkuParser.ClassifyCases` | lib/sku-parser.ts:23-55 | a line is blank exactly when trimmed empty, a header exactly when a column is `SKU` or contains `Packshot` or `Etalase` (in any case), and a file row exactly when otherwise a column or a substring is a URL |
| `SkuParser.HeaderLineIgnored` | lib/sku-parser.ts:32-41 | a header line leaves the state unchanged |
| `SkuParser.ParseLineEffect` | lib/sku-parser.ts:22-82 | a file row appends one file to its folder only and makes it the current folder; a folder marker only moves the current folder, and only when it sanitises to something; other lines change nothing |
| `SkuParser.ParseLineExtends` | lib/sku-parser.ts:22-82 | a line never removes a folder or a file |
| `SkuParser.ParseLinesExtends` | lib/sku-parser.ts:22-82 | the parse of a prefix of the lines is a prefix of the whole parse, folder by folder |
| `SkuParser.ParseSkuCatalogs` | lib/sku-parser.ts:84-98 | the result has one catalog per folder path, and each is named after its path |
| `SkuParser.RecordFile` | lib/sku-parser.ts:66-81 | the in-place update of map, counters and current folder equals the functional record step |
| `SkuParser.PlaceRow` | lib/sku-parser.ts:57-75 | the method's folder and file are the placement the functions describe |
| `SkuParser.ParseRow` | lib/sku-parser.ts:23-81 | one pass of the loop body equals the functional step for that line |
| `SkuParser.ParseContentRow` | lib/sku-parser.ts:32-81 | the same for a non-blank line |
| `SkuParser.ParseSkuFile` | lib/sku-parser.ts:16-85 | the loop over the lines computes exactly the functional parse |
| `DriveDownload.Send` | app/api/download/route.ts:45-54 | each fetch is logged, after the earlier ones, with its request and the network's answer |
| `DriveDownload.OrJpeg` | app/api/download/route.ts:86 | an empty content type is replaced by `image/jpeg` |
| `DriveDownload.RouteFileId` | app/api/download/route.ts:21-26 | the id is never empty; there is none exactly when neither `id=` nor `/d/` matches |
| `DriveDownload.StrategyUrls` | app/api/download/route.ts:28-37 | there are four strategies |
| `DriveDownload.DownloadLink` | app/api/download/route.ts:92-94 | a scraped link starts with `/uc?export=download` and has more after it |
| `DriveDownload.TakeNonHtml` | app/api/download/route.ts:83-88 | a body taken from a follow-up request has a non-empty, non-HTML content type |
| `DriveDownload.AppendCall` | app/api/download/route.ts:51-60 | the cookie carried is the last `set-cookie` seen; a new call keeps every non-fallback request carrying it |
| `DriveDownload.ScrapeLinkTracked` | app/api/download/route.ts:92-112 | following the scraped link keeps the cookie discipline and makes no fallback call |
| `DriveDownload.ConfirmTracked` | app/api/download/route.ts:69-88 | retrying with the confirm token keeps the cookie discipline |
| `DriveDownload.InterstitialTracked` | app/api/download/route.ts:65-115 | handling an HTML page keeps the cookie discipline |
| `DriveDownload.TryStrategyTracked` | app/api/download/route.ts:43-128 | one strategy adds exactly its own direct request |
| `DriveDownload.StrategiesTracked` | app/api/download/route.ts:43-129 | from any point the direct requests are the strategy URLs in order, and all four are tried when none succeeds |
| `DriveDownload.StrategyOrder` | app/api/download/route.ts:28-129 | from the start, the direct requests are a non-empty prefix of the four strategies in order, stopping only at a success |
| `DriveDownload.FallbackAndCookies` | app/api/download/route.ts:131-151 | the fallback is made once, without cookies, exactly when every strategy failed; every earlier request carries the cookie last set |
| `DriveDownload.FinalFallbackType` | app/api/download/route.ts:131-151 | after the fallback, a buffer has a non-HTML content type, and with no buffer the type is still `image/jpeg` |
| `DriveDownload.FetchedContentType` | app/api/download/route.ts:39-151 | a downloaded buffer always has a non-empty, non-HTML content type |
| `DriveDownload.ScrapeLinkHit` | app/api/download/route.ts:92-111 | a body taken from the extracted download link is that ok, non-HTML response's body, stored under its own type or image/jpeg |
| `DriveDownload.InterstitialHit` | app/api/download/route.ts:65-114 | a body taken while scraping an HTML page comes from the last request made, the confirm or the extracted-link fetch, which was ok and not HTML, and keeps that response's type or image/jpeg |
| `DriveDownload.TryStrategyHit` | app/api/download/route.ts:43-128 | a body found by one strategy is the last response's: a direct hit is an ok image or octet stream stored under its `image/` type or image/jpeg; a scraped hit keeps its own non-HTML type |
| `DriveDownload.StrategiesHit` | app/api/download/route.ts:43-129 | the strategy that ends the loop produced the body by the rule of its stage |
| `DriveDownload.FetchedTypeByStage` | app/api/download/route.ts:83-146 | the body the route fetched is the last response's, and its type is kept when it contains `image/` (direct hit, fallback) or is the response's own non-HTML type (confirm, extracted link), and is image/jpeg otherwise |
| `DriveDownload.RespondDataUri` | app/api/download/route.ts:176-178 | every image the route answers is a `data:` URI |
| `DriveDownload.FetchImage` | app/api/download/route.ts:39-151 | the strategy loop and fallback, as a method, compute the functional description |
| `DriveDownload.ConfirmWordRedundant` | app/api/download/route.ts:69 | the second confirm pattern never matches where the first did not |
| `DriveDownload.RejectsBadUrls` | app/api/download/route.ts:17-24 | a missing or empty URL gives 400 `URL is required`; a URL with no id gives 400 `Invalid Google Drive URL` |
| `DriveDownload.RespondImage` | app/api/download/route.ts:153-178 | with an id: 500 unless a buffer of at least 1000 bytes came back; otherwise a data URI whose payload decodes to the buffer and whose type follows the magic bytes, else the download's type, never HTML |
| `DriveDownload.MagicTypesAreNotHtml` | app/api/download/route.ts:164-174 | each magic-byte type is a non-empty image type |
| `DriveDownload.IdOrderDiffers` | app/api/download/route.ts:21 | the route prefers `id=` while the parser prefers `file/d/`: for a link with both, they pick different ids |
| `DriveDownload.Post` | app/api/download/route.ts:13-183 | the handler's reply is the functional response |
| `BatchRun.KeepImages` | components/sku-processor.tsx:273-289 | images kept from a JSON `images` list all have data, and there are no more of them than entries |
| `BatchRun.KeepImagesExact` | components/sku-processor.tsx:273-289 | exactly the entries with non-empty string data are kept, with their filenames |
| `BatchRun.RouteGivesOneImage` | components/sku-processor.tsx:290-291 | the route's data URI becomes exactly one image without a filename, and its failures become `null` |
| `BatchRun.Framed` | components/sku-processor.tsx:449-451 | without a frame, or when the canvas fails, the image is unchanged |
| `BatchRun.FinalName` | components/sku-processor.tsx:458 | the image's own non-empty filename wins, else the planned one |
| `BatchRun.Check` | components/sku-processor.tsx:407-410 | a cancellation check cancels exactly when Stop was pressed before it, and changes nothing else |
| `BatchRun.BeginImage` | components/sku-processor.tsx:428-447 | an image not cancelled advances the count by one and shows it against the expected total |
| `BatchRun.EndImage` | components/sku-processor.tsx:464-466 | finishing an image changes only the processing state |
| `BatchRun.Downloaded` | components/sku-processor.tsx:422-425 | a download of `n` images adds `n - 1` to the expected total |
| `BatchRun.HeadOf` | components/sku-processor.tsx:481-486 | a catalog enters the results exactly when it has an entry |
| `BatchRun.Finished` | components/sku-processor.tsx:481-486 | the catalog's entry is appended to the results |
| `BatchRun.Named` | components/sku-processor.tsx:427-467 | one entry per image |
| `BatchRun.FileOutcome` | components/sku-processor.tsx:420-474 | a file gives one entry per image downloaded, or else exactly one failure record |
| `BatchRun.ImagesKeep` | components/sku-processor.tsx:427-467 | the image loop changes neither the failures nor the results nor the expected total |
| `BatchRun.ImagesDone` | components/sku-processor.tsx:427-467 | an image loop not cancelled adds one named entry and one count per image |
| `BatchRun.DownloadFileDone` | components/sku-processor.tsx:415-474 | one file: one download, its failure or its entries, its extra images in the expected total |
| `BatchRun.FilesDone` | components/sku-processor.tsx:414-475 | the file loop, when not cancelled, collects all the files' entries in order |
| `BatchRun.FilesTally` | components/sku-processor.tsx:414-475 | the file loop, when not cancelled, records the files' failures and extra images |
| `BatchRun.FilesProgress` | components/sku-processor.tsx:414-475 | the progress shown after the loop is the count against the expected total |
| `BatchRun.FilesStayCancelled` | components/sku-processor.tsx:415-418 | once cancelled, the file loop does nothing |
| `BatchRun.FilesCancelled` | components/sku-processor.tsx:414-475 | a cancelled file loop has recorded a prefix of its failures |
| `BatchRun.FilesAccounted` | components/sku-processor.tsx:414-475 | entries plus failures equal files plus extra images |
| `BatchRun.ExtraBounded` | components/sku-processor.tsx:422-425 | the extra images never outnumber the entries |
| `BatchRun.CatalogStepDone` | components/sku-processor.tsx:406-487 | one catalog, not cancelled, adds its entry, count, failures, downloads and extra images |
| `BatchRun.CatalogStepCancelled` | components/sku-processor.tsx:477-479 | a cancelled catalog adds no result and a prefix of its failures |
| `BatchRun.CatalogsDone` | components/sku-processor.tsx:406-487 | a run not cancelled appends every catalog's result in order, and counts every entry |
| `BatchRun.CatalogsTally` | components/sku-processor.tsx:406-487 | the run records every failure and download and raises the expected total by the extra images |
| `BatchRun.CatalogsProgress` | components/sku-processor.tsx:406-487 | the progress shown is the count against the expected total |
| `BatchRun.CatalogsCancelled` | components/sku-processor.tsx:406-487 | a cancelled run holds a prefix of the results and of the failures a full run would have |
| `BatchRun.CatalogsAccounted` | components/sku-processor.tsx:406-487 | over all catalogs, entries plus failures equal files plus extra images |
| `BatchRun.OutputsHaveEntries` | components/sku-processor.tsx:481-486 | no result is empty, and there are no more results than catalogs |
| `BatchRun.FailuresBounded` | components/sku-processor.tsx:468-474 | there are no more failures than files |
| `BatchRun.ExtraAllBounded` | components/sku-processor.tsx:422-425 | the extra images never outnumber the entries |
| `BatchRun.NoStopNoCancel` | components/sku-processor.tsx:407-456 | a run in which Stop is never pressed is not cancelled |
| `BatchRun.ProcessCompleted` | components/sku-processor.tsx:379-514 | a completed run's results and failures are the full ones, entries plus failures equal `totalExpected`, and every result has an entry |
| `BatchRun.ProcessProgress` | components/sku-processor.tsx:433-438 | after a completed run the progress shows the entries against `totalExpected`, or is untouched when there were none |
| `BatchRun.ProcessMessage` | components/sku-processor.tsx:500-514 | no entry gives the all-failed message; the error is clear exactly when nothing failed and something was produced |
| `BatchRun.CompletionErrorMeaning` | components/sku-processor.tsx:506-514 | the three error cases: all failed, some of the total failed, none |
| `BatchRun.ProcessCancelled` | components/sku-processor.tsx:489-498 | a cancelled run keeps a prefix of the results and of the failures |
| `RetryRun.Place` | components/sku-processor.tsx:581-595 | merging an entry adds at most one catalog |
| `RetryRun.PlaceFound` | components/sku-processor.tsx:581-589 | an entry for a path already present is appended to the first catalog with that path |
| `RetryRun.PlaceNew` | components/sku-processor.tsx:590-595 | an entry for a new path appends a new one-file catalog |
| `RetryRun.PlaceExtends` | components/sku-processor.tsx:581-595 | merging only extends: no catalog is lost or reordered, and no file is lost |
| `RetryRun.PlacePath` | components/sku-processor.tsx:581-595 | afterwards the path is among the results |
| `RetryRun.PlaceCount` | components/sku-processor.tsx:581-595 | merging adds exactly one entry |
| `RetryRun.PlaceDistinct` | components/sku-processor.tsx:581-595 | results with distinct paths keep distinct paths |
| `RetryRun.PlaceAllCount` | components/sku-processor.tsx:581-595 | merging a file's entries adds exactly that many |
| `RetryRun.PlaceAllExtends` | components/sku-processor.tsx:581-595 | merging a file's entries only extends, and keeps paths distinct |
| `RetryRun.RetryImage` | components/sku-processor.tsx:552-600 | one retried image raises the count by one; not cancelled, it merges its entry and shows the count against the total; cancelled, it merges nothing |
| `RetryRun.RetryStart` | components/sku-processor.tsx:553-558 | the count is raised before the cancellation check |
| `RetryRun.RetryError` | components/sku-processor.tsx:626-632 | the error is clear exactly when nothing still failed, else names how many did |
| `RetryRun.RetriedIsExpected` | components/sku-processor.tsx:537-609 | the retry counts every failed item and every extra image |
| `RetryRun.FailedAgainFrom` | components/sku-processor.tsx:601-609 | what still fails is among what was retried |
| `RetryRun.MergedExtends` | components/sku-processor.tsx:539-610 | the merged results extend the earlier ones and keep paths distinct |
| `RetryRun.MergedCount` | components/sku-processor.tsx:539-610 | merged entries plus what still fails equal the earlier entries plus the items retried |
| `RetryRun.ImagesRetriedKeep` | components/sku-processor.tsx:552-600 | the image loop extends the results and leaves the failures, downloads and total alone |
| `RetryRun.ImagesRetried` | components/sku-processor.tsx:552-600 | the image loop, not cancelled, merges all the entries and counts them |
| `RetryRun.RetryItemDone` | components/sku-processor.tsx:540-609 | one failed item: one download, still failed or merged, its extra images in the total |
| `RetryRun.ItemsExtend` | components/sku-processor.tsx:539-610 | the retry loop only extends the results, cancelled or not |
| `RetryRun.ItemsRetried` | components/sku-processor.tsx:539-610 | the retry loop, not cancelled, gives the merged results |
| `RetryRun.ItemsTally` | components/sku-processor.tsx:539-610 | the retry loop, not cancelled, records what still fails, the count and the extra images |
| `RetryRun.ItemsProgress` | components/sku-processor.tsx:539-610 | the progress shown is the count against the total |
| `RetryRun.RetryCompleted` | components/sku-processor.tsx:522-633 | a completed retry extends the old results, keeps paths distinct, and still fails only on items it retried; entries plus items still failed equal the earlier entries plus the retry's count |
| `RetryRun.RetryCounted` | components/sku-processor.tsx:532-609 | a completed retry's count equals its expected total |
| `RetryRun.RetryCancelled` | components/sku-processor.tsx:612-620 | even a cancelled retry leaves the shared results extended, never shrunk |
| `SkuProcessor.AfterComma` | components/sku-processor.tsx:37 | the text after the first comma; none exactly when there is no comma |
| `SkuProcessor.UpToComma` | components/sku-processor.tsx:37 | the text up to the next comma |
| `SkuProcessor.Base64Field` | components/sku-processor.tsx:37 | the second comma-separated field, or empty |
| `SkuProcessor.GetBase64Size` | components/sku-processor.tsx:36-40 | the estimate is never negative and never above three quarters of the URL's length |
| `SkuProcessor.SizeOfRouteImage` | components/sku-processor.tsx:36-40 | for a data URI from the route, the estimate is exactly the image's byte count |
| `SkuProcessor.FieldOfUri` | components/sku-processor.tsx:37 | the field read from a data URI is its base64 payload |
| `SkuProcessor.Flatten` | components/sku-processor.tsx:137-146 | the flat preview list has one item per entry |
| `SkuProcessor.FlattenHas` | components/sku-processor.tsx:137-146 | every entry of every catalog is in the flat list with its path |
| `SkuProcessor.FindImage` | components/sku-processor.tsx:703-705 | the first item with that path and filename, or none when there is none |
| `SkuProcessor.OpenFinds` | components/sku-processor.tsx:702-709 | every shown entry can be opened |
| `SkuProcessor.NavigatePreview` | components/sku-processor.tsx:181-194 | nothing changes with no preview or no images; otherwise the index stays in range |
| `SkuProcessor.NavigateSteps` | components/sku-processor.tsx:187-189 | forward and back step by one and wrap around at the ends |
| `SkuProcessor.NavigateBack` | components/sku-processor.tsx:181-194 | a step forward then back, or back then forward, returns to the same image |
| `SkuProcessor.ClampPreview` | components/sku-processor.tsx:148-152 | an index in range is kept; one past the end goes to the first image, or closes when there are none |
| `SkuProcessor.DownloadNameFlat` | components/sku-processor.tsx:718-720 | the download name ends with the filename, contains a slash only if the filename does, and is the filename alone when there is no path |
| `SkuProcessor.ButtonsExclusive` | components/sku-processor.tsx:740-744 | Process is offered only when not processing, and when idle exactly when there are catalogs |
| `SkuProcessor.ProcessedCatalog.constructor` | components/sku-processor.tsx:591-594 | a new result catalog holds its path and files |
| `SkuProcessor.Snapshot` | components/sku-processor.tsx:401-404 | the values of the result objects, in order |
| `SkuProcessor.FindCatalog` | components/sku-processor.tsx:581-583 | `find`: the first catalog object with the path, or none when there is none |
| `SkuProcessor.PlaceEntry` | components/sku-processor.tsx:581-595 | pushing into the found object, or appending a fresh one, has the value effect of `RetryRun.Place` |
| `SkuProcessor.Processor.constructor` | components/sku-processor.tsx:63-93 | the component starts idle, with empty results, failures, error and preview |
| `SkuProcessor.Processor.HandleStopProcess` | components/sku-processor.tsx:694-700 | Stop raises the flag and changes only the progress message |
| `SkuProcessor.Processor.HandleReset` | components/sku-processor.tsx:724-737 | every field returns to its initial value |
| `SkuProcessor.Processor.OpenPreview` | components/sku-processor.tsx:702-709 | opens the first matching image, and otherwise leaves the preview alone |
| `SkuProcessor.Processor.ClosePreview` | components/sku-processor.tsx:196-199 | closes the preview and changes nothing else |
| `SkuProcessor.Processor.Navigate` | components/sku-processor.tsx:181-194 | steps the preview as `NavigatePreview` says |
| `SkuProcessor.Processor.KeepPreviewInRange` | components/sku-processor.tsx:148-152 | the effect that keeps the preview index within the list |
| `SkuProcessor.Processor.Poll` | components/sku-processor.tsx:407-410 | a cancellation check on the component's flag is `BatchRun.Check` |
| `SkuProcessor.Processor.StartImage` | components/sku-processor.tsx:428-447 | the in-place start of an image is `BatchRun.BeginImage` |
| `SkuProcessor.Processor.ProcessImages` | components/sku-processor.tsx:427-467 | the image loop computes the functional image run |
| `SkuProcessor.Processor.ProcessFile` | components/sku-processor.tsx:415-474 | one file of the loop is the functional file step |
| `SkuProcessor.Processor.ProcessFiles` | components/sku-processor.tsx:414-475 | the file loop computes the functional file run |
| `SkuProcessor.Processor.AddCatalog` | components/sku-processor.tsx:481-486 | a fresh result object is pushed exactly when the catalog has entries |
| `SkuProcessor.Processor.ProcessCatalog` | components/sku-processor.tsx:407-486 | one catalog of the loop is the functional catalog step |
| `SkuProcessor.Processor.ProcessCatalogs` | components/sku-processor.tsx:406-487 | the catalog loop computes the functional run over fresh, distinct result objects |
| `SkuProcessor.Processor.Finish` | components/sku-processor.tsx:489-514 | publishes results and failures; cancelled it goes idle with the cancelled progress, else complete with the completion error |
| `SkuProcessor.Processor.Begin` | components/sku-processor.tsx:382-388 | the run starts downloading with the error, flag and preview cleared |
| `SkuProcessor.Processor.HandleProcess` | components/sku-processor.tsx:379-520 | with no catalogs nothing changes; otherwise the fields end as `BatchRun.Process` describes: results, failures, state, progress and error |
| `SkuProcessor.Processor.StartRetryImage` | components/sku-processor.tsx:553-558 | the in-place start of a retried image is `RetryRun.RetryStart` |
| `SkuProcessor.Processor.EndImage` | components/sku-processor.tsx:597-599 | with a frame the state goes back to downloading; nothing else changes |
| `SkuProcessor.Processor.RetryImage` | components/sku-processor.tsx:552-600 | one retried image, merged into the shared objects, is `RetryRun.RetryImage` |
| `SkuProcessor.Processor.RetryImages` | components/sku-processor.tsx:552-600 | the retry's image loop computes the functional image run |
| `SkuProcessor.Processor.RetryFile` | components/sku-processor.tsx:540-609 | one failed item is the functional retry step |
| `SkuProcessor.Processor.FailedAgain` | components/sku-processor.tsx:601-609 | an item that fails again is counted, shown and kept as still failed |
| `SkuProcessor.Processor.RetryFiles` | components/sku-processor.tsx:539-610 | the retry loop computes the functional retry run |
| `SkuProcessor.Processor.FinishRetry` | components/sku-processor.tsx:612-632 | cancelled: idle with the cancelled progress, lists untouched; else complete with the merged results, what still failed and the retry error |
| `SkuProcessor.Processor.HandleRetryFailed` | components/sku-processor.tsx:522-633 | with no failures nothing changes; otherwise the fields end as `RetryRun.Retry` describes; a cancelled retry still leaves the shared result objects extended |
| `Auth.GetSecretBuffer` | lib/auth.ts:23-27 | there is a secret exactly when the variable is set and non-empty |
| `Auth.EnsureSecretAgrees` | lib/auth.ts:29-35 | `ensureSecretBuffer` throws its message exactly when there is no secret, and otherwise returns it |
| `Auth.CookieAttributes` | lib/auth.ts:37-66 | the session cookie is `stampify_session`, http-only, lax, secure, on `/`, for 43200 seconds; clearing empties it with max-age 0; creating it throws exactly when there is no secret |
| `Auth.FirstSessionPart` | lib/auth.ts:72 | the first cookie part that starts with `stampify_session=`; none exactly when no part does |
| `Auth.CookieParts` | lib/auth.ts:71 | one part per `;`-separated piece |
| `Auth.HeaderTokenNoMatch` | lib/auth.ts:72-73 | no matching part gives no token |
| `Auth.HeaderTokenFirstMatch` | lib/auth.ts:72-74 | the first matching part gives its decoded value, or the decoder's error |
| `Auth.CookieValueCut` | lib/auth.ts:74 | `split("=", 2)[1]` keeps the value up to any further `=` |
| `Auth.HeaderTokenWins` | lib/auth.ts:80-99 | a non-empty header token is used and the cookie store is never consulted |
| `Auth.CookieStoreFallback` | lib/auth.ts:82-89 | with no header token, or an empty one, the cookie store's token is verified instead |
| `Auth.NoSessionWithoutSecretOrToken` | lib/auth.ts:91-93 | with no secret, or no token anywhere, there is no session |
| `Middleware.PublicPrefixes` | middleware.ts:16-22 | every path under a public prefix, `/_next` or `/static` is public |
| `Middleware.PublicPathShape` | middleware.ts:9-22 | public paths start with `/`; the root and the download route are protected |
| `Middleware.ExtractToken` | middleware.ts:24-34 | extraction throws exactly when decoding the header's session cookie throws |
| `Middleware.Verify` | middleware.ts:36-52 | a verified payload is always acceptable: not disabled, active, and with days remaining |
| `Middleware.PublicPassesThrough` | middleware.ts:56-58 | a public path passes unchanged |
| `Middleware.ProtectedNeedsSession` | middleware.ts:54-73 | a protected path passes, tagged with the user, exactly when a token verifies to an acceptable payload; otherwise it is redirected to `/login` with its path, or the decoder throws |
| `Middleware.StricterThanSessionValid` | middleware.ts:46 | every payload the middleware accepts passes `sessionValid`; the only payloads `sessionValid` accepts and the middleware refuses are those without `remainingDays` |
| `Middleware.EmptyHeaderTokenDiffers` | middleware.ts:28-31 | an empty session cookie in the header wins in the middleware, which then redirects, while `readSession` falls back to the cookie store |

## Behaviour worth knowing

These are differences between what the code does and what one would read
into it. The model follows the code, and each difference is stated as a
lemma.

- `sanitizeFolderPath` works in stages, and the character filter comes last:
  - `SkuParser.SanitizeFolderPathDoubleSlash`: a filtered character between
    two slashes leaves a doubled slash behind;
  - `SkuParser.SanitizeFolderPathKeepsDots`: one between two dots leaves a
    `..` step behind, after `..` has already been removed;
  - `SkuParser.SanitizeFolderPathLeadingSlash`: one before a leading slash
    leaves a leading slash behind.

  So the sanitised path is free of illegal characters, but not of `//`,
  `..` or a leading `/`.
- The route (`app/api/download/route.ts:21`) looks for `id=` first and
  `/d/` second. The parser (`lib/sku-parser.ts:161-165`) looks for `file/d/`
  first. `DriveDownload.IdOrderDiffers` shows a link for which the two pick
  different ids.
- `sessionValid` treats a missing `remainingDays` as valid, because
  `undefined <= 0` is false. The middleware treats it as 0 and refuses it.
  See `Middleware.StricterThanSessionValid`.
- A header cookie `stampify_session=` with an empty value differs between
  the two extractors:
  - `readSession` falls through to the cookie store;
  - the middleware returns the empty string and redirects.

  See `Middleware.EmptyHeaderTokenDiffers`.
- The route always answers with a single `imageData`, never an `images`
  list, so each download gives at most one image, with no filename of its
  own (`BatchRun.RouteGivesOneImage`). The component's multi-image branch is
  modelled all the same, for any reply.
- `handleRetryFailed` copies the result array but not the catalog objects in
  it. Entries merged into an existing catalog are pushed into objects the
  component already shows, and a cancelled retry does not undo that.
  `SkuProcessor.Processor.HandleRetryFailed` states it:
  `processedFiles` keeps the same objects, whose contents have grown.

## Left out

- Network I/O, the browser canvas, `Image` loading, audio (`playSound`) and
  the clock are not modelled. The network and the canvas are oracle
  parameters: the download reply by call ordinal, and the frame overlay with
  failure giving back the input.
- `applyFrameWithCanvas`'s drawing is not modelled, only its contract that
  a failed overlay returns the image unchanged (`BatchRun.Framed`).
- JWT signing and verification (`jose`), `TextEncoder`, `decodeURIComponent`
  and `new URL(...).pathname` are oracle parameters, because their
  algorithms are not part of this code.
- React's scheduling is not modelled: state updates are applied
  immediately, and `setProgress` callbacks see the latest value. The Stop
  button is modelled as pressed at the cancellation checks, so only where
  the code reads the flag.
- `SkuProcessor.Processor.HandleProcess` does not model the `catch` branch
  that sets the `error` state. Nothing in the loop throws: `downloadImage`
  catches its own errors and `applyFrameWithCanvas` never rejects.
- A truthy `imageData` that is not a string is not modelled. `downloadImage`
  would pass it on as an image, but the route only ever sends a string.
- The ZIP download (`handleDownloadAll`, `app/api/create-zip`),
  `formatBytes` and `previewMeta`, the keyboard handler, the file and paste
  upload handlers and the frame upload are outside this model. They are UI
  plumbing around the modelled core.
- `Auth.CookieAttributes` states the cookie's attributes and the 12-hour
  lifetime constant, but not the JWT's own `exp` claim, which belongs to the
  signing library.
- `SkuProcessor.GetBase64Size` returns a real number: JavaScript's
  floating-point arithmetic is exact on these values (multiples of 0.25
  below 2^50), so `real` is used instead of IEEE doubles.
- The route's `runtime = "edge"` setting and the middleware's `matcher`
  configuration are deployment settings, not behaviour.
