# Blob-to-PDF conversion handler, modelled in Dafny

The system is an event-triggered handler: when a blob is created in a storage
account, it decides from the blob's URL whether the blob is a document to
convert. If it is, the handler renders the content to PDF and uploads the
PDF, under a configurable path prefix, to a container of the same name as the
source's, in the account the connection string names. This project models:

- **the eligibility filter** `ShouldConvert` (module `Eligibility`). It takes
  the extension of the URL's last path segment, removes its dots and asks
  whether `txt`, `docx` or `ppt` occurs in it, ignoring letter case. Because
  the test is a substring test, `pptx`, `docxx` and `xtxt` are accepted too.
- **the target resolvers** `GetTargetContainerNameFromUrl` and
  `GetTargetBlobNameFromUrl` (module `Targets`). The PDF goes to the
  container named like the source blob's container, as
  `<prefix>/<source name>.pdf`. The source name
  keeps its subdirectories.
- **the handler `Run`** (module `Dispatcher`). With no content stream it does
  nothing. An ineligible URL gets a skip notice. Otherwise the handler
  parses the account, resolves the container and then the name, renders the
  document and uploads the PDF once. Any exception is logged and thrown again.
  - The collaborators the handler cannot see are the storage account, the
    document library, the storage service and the logger. They are collected
    in a `Host` object that records each call made to it and holds the store's
    blobs.
  - `Dispatch` is the pure plan of one run. `Run` is proved to carry out
    exactly that plan: its record of calls, its final store and its status.
  - The properties of the handler are lemmas about `Plan` and `Dispatch`:
    - at most one upload, and only after a successful render;
    - a fault at any step (account, URL, render, upload) ends the run raised
      with that fault, after a failure notice, and leaves the store as it was;
    - each branch's record of calls is fixed in full: a skip notice only for
      an ineligible URL, one render before the one upload;
    - a retry overwrites instead of duplicating.
- **worked examples** (module `Scenarios`). They cover concrete names and
  concrete runs: a report in a subdirectory, an image, and a corrupt report.
  The file names and directories in them are concrete. Where a lemma takes a
  stem, a name or the URL's host as a parameter, it holds for every value its
  requires admits.

Modelling choices:

- **Extension and separators.** `Path.GetExtension` scans back from the end of
  the string. It stops at the first `.` or at a directory separator. The
  model takes both `/` and `\` as separators, as on Windows. The extension is
  empty when that segment has no dot or ends with its dot. Removing every `.`
  from this extension leaves the same text as removing only its leading one,
  because the extension never holds a second dot. The model removes every
  `.`, as the code does.
- **Letter case.** Letter case is folded for the ASCII letters only. See
  "## Left out".
- **The prefix.** `TARGET_PATH_PREFIX` is a parameter of type
  `Option<string>`. An unset variable is `None`. C# concatenates a null
  string as empty text, so an unset prefix gives `/<name>.pdf`.
- **Blob URLs.** A blob URL is read as `scheme "://" host "/" container "/"
  name`. The name keeps any further `/`. A URL that does not have this shape
  is an `InputError`, the fault that `new Uri` or `new CloudBlob` would raise.
  The reading is proved to invert `Format` on every well-formed URL.
- **Resolution order.** `Run` passes to `Handle` the filter's answer and the
  resolved destination as values. Both functions are pure and total, so
  computing them before the steps that consult them cannot be observed.
  `Handle` consults them in the source's order, and a resolution fault
  surfaces in the source's position: after the account parse, before the
  render.

## Model

| member | source | states |
|---|---|---|
| Eligibility.IsSeparator | BlobPDFConvertFunction.cs:53 | the characters at which `Path.GetExtension`'s backward scan gives up: `/` and `\` |
| Eligibility.DotIndex | BlobPDFConvertFunction.cs:53 | the backward scan finds a dot exactly when the last path segment has one, and then it finds that segment's last dot |
| Eligibility.Extension | BlobPDFConvertFunction.cs:53 | the extension is a suffix starting at the last dot of the last segment, at least two characters long; it is empty only when no such dot exists or the dot ends the string |
| Eligibility.Without | BlobPDFConvertFunction.cs:54 | removing a character leaves no occurrence of it and keeps every other character as often as before; the string shrinks by exactly the occurrences removed, and a string without it is unchanged |
| Eligibility.WithoutAppend | BlobPDFConvertFunction.cs:54 | removal works piece by piece over a concatenation, so the kept characters stay in their order |
| Eligibility.WithoutSingle | BlobPDFConvertFunction.cs:54 | a single character is kept exactly when it is not the one removed |
| Eligibility.ExtensionToken | BlobPDFConvertFunction.cs:53-54 | the token never holds a `.`; it is the text after the segment's last dot, or empty when there is none |
| Eligibility.Lower | BlobPDFConvertFunction.cs:55 | the letter folding of `RegexOptions.IgnoreCase`, for the ASCII letters; characterised by `LowerPairs` |
| Eligibility.LowerPairs | BlobPDFConvertFunction.cs:55 | two characters fold together exactly when they are equal or the two cases of one ASCII letter; folding leaves no upper-case ASCII letter and is idempotent |
| Eligibility.ContainsIgnoreCase | BlobPDFConvertFunction.cs:55 | the scan an unanchored pattern makes for one word, offset by offset, letter case ignored; characterised by `ContainsIgnoreCaseIff` |
| Eligibility.MatchesPattern | BlobPDFConvertFunction.cs:55 | `Regex.IsMatch` with `txt`, `docx` and `ppt` as alternatives and case ignored; characterised by `MatchesPatternIff` |
| Eligibility.ShouldConvert | BlobPDFConvertFunction.cs:51-56 | the filter: the pattern tried on the dot-free extension token; characterised by `ShouldConvertIff`, `ShouldConvertIgnoresCase` and `OnlyLastSegmentCounts` |
| Eligibility.ContainsIgnoreCaseIff | BlobPDFConvertFunction.cs:55 | the left-to-right scan reports a match exactly when the word occurs at some offset, letter case ignored |
| Eligibility.MatchesPatternIff | BlobPDFConvertFunction.cs:55 | the three-way alternation matches exactly when one of the three words occurs in the token |
| Eligibility.ShouldConvertIff | BlobPDFConvertFunction.cs:51-56 | a URL is converted exactly when its last segment has a dot followed by a token containing one of the three words, in any case |
| Eligibility.NoExtensionNotConverted | BlobPDFConvertFunction.cs:53-55 | a URL whose last segment has no dot is never converted |
| Eligibility.ShouldConvertNamed | BlobPDFConvertFunction.cs:53-55 | for `stem.token`, with a token free of dots and separators, the answer depends on the token alone, both ways |
| Eligibility.WordMentionsItself | BlobPDFConvertFunction.cs:55 | every case-variant of a word contains that word, case ignored |
| Eligibility.AllowedExtensionConverted | BlobPDFConvertFunction.cs:51-56 | every name ending in `.txt`, `.docx` or `.ppt`, in any letter case and with any stem, is converted |
| Eligibility.PdfNotConverted | BlobPDFConvertFunction.cs:51-56 | a name ending in `.pdf` is never converted |
| Eligibility.OnlyLastSegmentCounts | BlobPDFConvertFunction.cs:53 | whatever precedes the last `/` or `\` plays no part in the token or the answer |
| Eligibility.DotIndexIgnoresCase | BlobPDFConvertFunction.cs:53 | strings that differ only in letter case have their last dot at the same place |
| Eligibility.ContainsIgnoresCase | BlobPDFConvertFunction.cs:55 | strings that differ only in letter case contain the same words |
| Eligibility.SuffixIgnoresCase | BlobPDFConvertFunction.cs:53 | suffixes of case-variants are case-variants |
| Eligibility.TokenIgnoresCaseAt | BlobPDFConvertFunction.cs:53-54 | case-variants with their last dot at the same place have case-variant tokens |
| Eligibility.TokenIgnoresCase | BlobPDFConvertFunction.cs:53-54 | case-variants of a URL have case-variant tokens |
| Eligibility.ShouldConvertIgnoresCase | BlobPDFConvertFunction.cs:55 | changing the case of letters never changes the filter's answer |
| Targets.Format | BlobPDFConvertFunction.cs:39-40 | the URL a blob's parts spell, `scheme://host/container/name`; the inverse of `ParseBlobUrl` by `ParseFormat` and `ParseRejectsExactly` |
| Targets.FormatNested | BlobPDFConvertFunction.cs:39-40 | a blob URL is its scheme, a `:`, `//`, the host, a `/`, the container, a `/` and the name |
| Targets.SplitFirst | BlobPDFConvertFunction.cs:39-40 | cutting at the first `c` fails exactly when `c` is absent; otherwise it gives a `c`-free front that, glued back with `c` and the rest, is the input |
| Targets.SplitFirstJoin | BlobPDFConvertFunction.cs:39-40 | cutting a `c`-free front glued with `c` to a rest gives back that front and that rest |
| Targets.ParseBlobUrl | BlobPDFConvertFunction.cs:39-40 | an accepted URL yields well-formed parts that format back to the URL; a rejected URL yields an `InputError` naming it |
| Targets.ParseFormat | BlobPDFConvertFunction.cs:39-40 | every well-formed blob URL is read back into exactly its parts |
| Targets.ParseRejectsExactly | BlobPDFConvertFunction.cs:39-40 | a URL is rejected exactly when no well-formed blob URL spells it |
| Targets.PrefixText | BlobPDFConvertFunction.cs:35-41 | the prefix as C# concatenation reads it: an unset variable is null and concatenates as empty text |
| Targets.TargetContainerName | BlobPDFConvertFunction.cs:44-49 | the container is found exactly when the URL parses, is non-empty and holds no `/`; otherwise the fault names the URL |
| Targets.TargetBlobName | BlobPDFConvertFunction.cs:37-42 | the name is found exactly when the URL parses; otherwise the fault names the URL; it starts with the prefix and `/` and ends in `.pdf`, with something between them |
| Targets.ResolveFormatted | BlobPDFConvertFunction.cs:37-49 | for a URL built from its parts, the container is the source's own and the name is the prefix, `/`, the whole source name including subdirectories, and `.pdf` |
| Targets.TargetNameHoldsSourceName | BlobPDFConvertFunction.cs:41 | the text between the prefix's `/` and `.pdf` is the source blob's name |
| Targets.OutputNotReconverted | BlobPDFConvertFunction.cs:41 | the uploaded PDF's own URL is not eligible, so its creation event does not trigger another conversion |
| Dispatcher.Destination | BlobPDFConvertFunction.cs:82-84 | the reference destination of a well-formed URL: the container of the source's name and `<prefix>/<name>.pdf` |
| Dispatcher.Resolve | BlobPDFConvertFunction.cs:82-84 | the destination is found exactly when the URL parses, and is then the container of the source's name with `<prefix>/<name>.pdf`; otherwise the fault names the URL |
| Dispatcher.Plan | BlobPDFConvertFunction.cs:73-116 | the handler's branches in order: no stream, ineligible, account fault, destination fault, render fault, upload fault, success; characterised by `PlanUploads`, `PlanRaisesEachFault` and `UploadFollowsRender` |
| Dispatcher.Dispatch | BlobPDFConvertFunction.cs:66-117 | one run: the plan with the filter's answer and the resolved destination; characterised by `UploadOnlyWhenRendered` and `RunRaisesEachFault` |
| Dispatcher.Calls | BlobPDFConvertFunction.cs:87-114 | the collaborator calls of each outcome in order; a failure ends with its notice (`FaultsAreRaised`) |
| Dispatcher.StatusOf | BlobPDFConvertFunction.cs:112-116 | a failing outcome raises its fault, any other completes |
| Dispatcher.StoreAfter | BlobPDFConvertFunction.cs:102 | only a successful upload writes, and it writes one blob at its target |
| Dispatcher.Host.constructor | BlobPDFConvertFunction.cs:66-69 | a host starts with the given collaborators and store, and with no calls recorded |
| Dispatcher.Host.Render | BlobPDFConvertFunction.cs:87-99 | rendering returns the document library's answer for the content and records one render call |
| Dispatcher.Host.Upload | BlobPDFConvertFunction.cs:102 | the upload records one upload call; the store gains the PDF under the target exactly when the service accepts it, and is otherwise unchanged |
| Dispatcher.Host.LogInformation | BlobPDFConvertFunction.cs:108 | logging records exactly one log call |
| Dispatcher.Handle | BlobPDFConvertFunction.cs:71-116 | given the filter's answer and the destination, the calls made, the final store and the status are exactly those of `Plan` |
| Dispatcher.Run | BlobPDFConvertFunction.cs:66-117 | the calls made, the final store and the status of a run are exactly those of `Dispatch` for its collaborators, prefix, URL and stream |
| Dispatcher.UploadsAppend | BlobPDFConvertFunction.cs:102 | the uploads of two consecutive call sequences are the uploads of the first followed by those of the second |
| Dispatcher.AbsentInputIsNoOp | BlobPDFConvertFunction.cs:73 | without a content stream a run makes no call, changes no blob and completes |
| Dispatcher.IneligibleIsSkipped | BlobPDFConvertFunction.cs:77-109 | an ineligible URL gives exactly one skip notice, no other call, an unchanged store and a normal completion |
| Dispatcher.SkipOnlyWhenIneligible | BlobPDFConvertFunction.cs:73-109 | a skip notice is logged exactly when a stream is present and the filter refuses the URL, and it names that URL; a refused URL makes no other call |
| Dispatcher.RunSkipsOnlyIneligible | BlobPDFConvertFunction.cs:73-109 | over a whole run: a skip notice for `u` is logged exactly when the stream is present, `u` is the URL and the filter refuses it |
| Dispatcher.UploadsOfOutcome | BlobPDFConvertFunction.cs:93-102 | only a completed upload and a failed upload call the storage service, once each, with the target and the rendered PDF; no other outcome uploads anything |
| Dispatcher.PlanUploads | BlobPDFConvertFunction.cs:77-103 | at most one upload is attempted; one is attempted exactly when the stream is present, the filter said yes, the account and the destination are valid and the render succeeded; it sends the rendered bytes to that destination |
| Dispatcher.UploadOnlyWhenRendered | BlobPDFConvertFunction.cs:73-115 | over a whole run, the single upload happens exactly when the stream is present, the URL is eligible and well formed, the account is valid and the document renders, and it goes to `<container>` / `<prefix>/<name>.pdf` |
| Dispatcher.UploadFollowsRender | BlobPDFConvertFunction.cs:87-102 | every upload call comes right after a render call on the stream, and uploads exactly what that render produced |
| Dispatcher.FaultsAreRaised | BlobPDFConvertFunction.cs:112-116 | a run raises exactly when it logs a failure notice; that notice is its last call and names the fault raised; the store is unchanged |
| Dispatcher.PlanRaisesEachFault | BlobPDFConvertFunction.cs:79-116 | once the filter says yes, an account fault, a destination fault, a render fault and an upload fault each end the plan raised with that very fault, in that order of precedence; with none, it completes with the PDF stored at the destination. Each case fixes the whole call record: a failure notice alone, render then notice, render, upload then notice, or render then upload |
| Dispatcher.RunRaisesEachFault | BlobPDFConvertFunction.cs:77-116 | for an eligible URL over a whole run: the account fault, then `InputError(url)` for an unparseable URL, then the render fault, then the upload fault at `<prefix>/<name>.pdf` is raised; otherwise the run completes with the PDF stored there. Each case fixes the whole call record, with the upload sent to that destination |
| Dispatcher.RenderFailureStopsUpload | BlobPDFConvertFunction.cs:87-115 | a render failure means no upload and an unchanged store, and the failure is raised once the filter, the account and the destination have let the document through |
| Dispatcher.RetryOverwrites | BlobPDFConvertFunction.cs:82-102 | applying a run's outcome twice leaves the store as applying it once; no blob but the target is added or changed |
| Dispatcher.PlanRetry | BlobPDFConvertFunction.cs:82-116 | two attempts under any two sets of collaborator answers upload to the same resolved destination; after a raised attempt, or before a successful one, the store is the store of the second attempt alone |
| Dispatcher.RetryLandsOnSameBlob | BlobPDFConvertFunction.cs:82-116 | the same for two runs of one event: both upload only to `<container>` / `<prefix>/<name>.pdf`, and a retry after a failed or successful attempt overwrites that one blob |
| Scenarios.CaseVariantsAccepted | BlobPDFConvertFunction.cs:55 | `.TXT`, `.Docx` and `.PPT` are accepted after any stem |
| Scenarios.LongerTokensAccepted | BlobPDFConvertFunction.cs:55 | `.pptx`, `.docxx` and `.xtxt` are accepted after any stem |
| Scenarios.NoDotRejected | BlobPDFConvertFunction.cs:53-55 | the empty URL and `readme` are refused |
| Scenarios.DirectoryNameIgnored | BlobPDFConvertFunction.cs:53 | `docx/<name>.pdf` is refused |
| Scenarios.TrailingDotRejected | BlobPDFConvertFunction.cs:53 | a name ending in its dot is refused |
| Scenarios.ReportUrlSegments | BlobPDFConvertFunction.cs:53 | the report's URL ends in the path segment `q1.docx` |
| Scenarios.ReportEligible | BlobPDFConvertFunction.cs:77 | `https://<host>/docs/reports/q1.docx` is eligible |
| Scenarios.ReportResolved | BlobPDFConvertFunction.cs:82-84 | with prefix `converted`, the report's PDF goes to container `docs` as `converted/reports/q1.docx.pdf` |
| Scenarios.ReportConverted | BlobPDFConvertFunction.cs:73-103 | a report that renders is uploaded to that destination |
| Scenarios.CorruptReportFails | BlobPDFConvertFunction.cs:87-93 | a report the document library rejects stops at the render |
| Scenarios.StoppedAtRender | BlobPDFConvertFunction.cs:87-116 | an outcome that stops at the render has rendered, logged the fault and raised it, and stored nothing |
| Scenarios.CorruptReportRaised | BlobPDFConvertFunction.cs:112-116 | that run renders, logs the fault and raises it; nothing is uploaded and the store is unchanged |
| Scenarios.PngRejected | BlobPDFConvertFunction.cs:55 | a `.png` name is refused after any stem |
| Scenarios.ImageUrlSegments | BlobPDFConvertFunction.cs:53 | the image's URL ends in the path segment `image.png` |
| Scenarios.ImageIneligible | BlobPDFConvertFunction.cs:77 | `https://<host>/docs/image.png` is not eligible |
| Scenarios.ImageSkipped | BlobPDFConvertFunction.cs:106-109 | the image's run logs one skip notice, makes no other call and completes |

## Left out

- Document rendering with `WordDocument`, `DocIORenderer`, `ConvertToPDF`, `Save` and `Close` is a closed foreign library. It is the function `Services.convert` from content to PDF bytes or a fault.
- The storage client is network I/O: `CloudStorageAccount.Parse`, `CreateCloudBlobClient`, `GetContainerReference`, `GetBlockBlobReference` and `UploadFromStreamAsync`. The account parse is an optional fault, the upload is `Services.uploadFault` plus a map from locators to bytes, and getting a reference is not a call.
- Uri and CloudBlob parsing is reduced to the split `scheme://host/container/name`. Left out are:
  - the `$root` container;
  - path-style and emulator URLs;
  - percent-unescaping;
  - query strings and fragments;
  - scheme validity and ports;
  - the normalisation `new Uri` applies to http(s) paths: it removes dot segments and turns `\` into `/`. For example, `https://h/c/a/../q1.docx` names the blob `q1.docx`, while the model reads the name `a/../q1.docx`.
- Event Grid delivery and the deserialization of the event data are not modelled, and neither is the failure of either. The event's URL is a plain `string` parameter, and the null URL is not modelled.
- Environment-variable reads are replaced by parameters. The connection string becomes `Services.accountFault` and the target prefix becomes `prefix`. The unused `SOURCE_PATH_PREFIX` is not modelled.
- The content stream is its bytes, or `None` for a null stream. Left out are:
  - `async`/`await`;
  - `MemoryStream` position handling;
  - the disposal of the stream and the document.
- Log messages are recorded as `SkipNotice(url)` and `FailureNotice(fault)`. Their text is not modelled.
- The exception's message is represented by the `Fault` value itself.
- The destination account comes from the connection string (`CloudStorageAccount.Parse` of `AzureWebJobsStorage`), not from the event's URL. The model's single store of blobs stands for that account. The URL's authority is parsed but not used, and `Locator` has no account part.
- Dispatcher.Host.Upload: a failed upload writes nothing. `UploadFromStreamAsync` can throw after the service has committed the blob, for example on a response time-out. The model does not cover that case, so its claim that an upload fault leaves the store as it was rests on this assumption.
- Only the ASCII letters are case-folded. The case-insensitive matching of .NET regular expressions can also treat some non-ASCII characters as variants of Latin letters, and the model does not follow such equivalences.
- `Path.GetExtension` is modelled with `/` and `\` as separators, as on Windows. Three platform details are left out:
  - on Linux only `/` separates;
  - on .NET Framework the scan also stops at the volume separator `:`. So `.../c/notes.txt:v2` is refused there, while the model accepts it, because its token is `txt:v2`;
  - .NET Framework throws on characters that are invalid in paths. The model's filter is total.
- General regular-expression semantics are not modelled. Only the fixed alternation `txt|docx|ppt` is, as a substring test.
- Dispatcher.Run: computes the filter's answer and the destination before the steps that use them. Both are pure and total, so the calls, the store and the status are the same as in the source's order.
