# remove-background, modelled in Dafny

remove-background is a small web application that removes image backgrounds.
It has two parts:

- an Express API. It runs one background-removal job at a time through an
  in-memory processing gate and reports whether the gate is busy. It
  validates the input file before calling the removal model. Its link
  controller answers with a URL to the processed image. It also has a
  bearer-token middleware and a mock user endpoint.
- a Next.js frontend. It has two upload routes:
  - a mock route that stores the upload as the "processed" image;
  - a route that forwards the upload to the Express backend and stores the
    returned image under `public/images-output`.

  Around them sit the browser-side helpers: the token and user-id helpers
  in `lib/auth.ts`, the processing-history panel, which keeps the ten most
  recent results in `localStorage`, and the user-history manager, which
  copies the anonymous history to a signed-in user's key.

The model keeps the source's form:

- The processing gate is a class with the same two fields. Its methods are
  proved against value-level functions (`TryEnqueue`, `AfterCompletion`).
  A trace model of requests and completion callbacks carries the
  properties that span several calls: mutual exclusion, and which duration
  is reported. Each callback names the admitted job whose closure runs,
  and the closure takes effect unconditionally, as in the source.
- `localStorage` is a class holding a map and an availability flag. While
  storage is unavailable, every call throws and the caller catches.
- The history panel and the user-history manager are classes over that
  storage.
- Request handlers are methods. Each returns its reply together with the
  ordered list of side effects it performs (mkdir, file writes, the
  service call, the wait).
- The rest is pure functions with lemmas.

The following are parameters of the model:

- the clock;
- `Math.random()`, as the integer `floor(random * 900000000)`;
- the file system's answers;
- the backend's and the download's answers;
- the outcome of `new URL(...)`;
- whether the removal service succeeds.

JavaScript's `split`, `includes`, `startsWith`, `trim`, `toLowerCase`,
`path.basename`, `path.extname` and the `/\.[0-9a-z]+$/i` match are written
out over `seq<char>`. So is `JSON.stringify`/`JSON.parse` for the history
list, with a proved round trip.

Two behaviours of the source that the model keeps as they are:

- The history panel always reads and writes the key
  `imageProcessingHistory`. The user-specific key that the user-history
  manager fills (`imageProcessingHistory_<id>`) is never read by the panel.
- In the remove-background route, the EC2 development host is recognised
  only on port `3000`, with its name compared case-insensitively. The local
  hosts are recognised only as the exact prefixes `localhost:` and
  `127.0.0.1:`, compared case-sensitively. So `LOCALHOST:3000` keeps the
  request's protocol, which `CapitalisedLocalhostNotForced` shows.

## Model

| member | source | states |
|---|---|---|
| ImageProcessingQueue.ProcessingQueue.constructor | apps/api/src/controllers/image-processing-queue.ts:5-7 | a new gate is idle and has no last processing time |
| ImageProcessingQueue.TryEnqueue | apps/api/src/controllers/image-processing-queue.ts:9-20 | after any request the gate is busy and keeps its last duration; the request is admitted at `now` exactly when the gate was idle, and otherwise the state is unchanged and the 429 body carries the last duration |
| ImageProcessingQueue.AfterCompletion | apps/api/src/controllers/image-processing-queue.ts:21-24 | the closure frees the gate and records `now - start`, whatever state it finds: it does not check that its own job holds the gate |
| ImageProcessingQueue.ProcessingQueue.Enqueue | apps/api/src/controllers/image-processing-queue.ts:9-20 | when busy, the state is unchanged and the reply is a 429 carrying the busy message and the last processing time; when idle, the gate becomes busy and the job is admitted with its start time |
| ImageProcessingQueue.ProcessingQueue.Complete | apps/api/src/controllers/image-processing-queue.ts:21-24 | the completion callback frees the gate and records `now - start` as the last processing time |
| ImageProcessingQueue.BusyRejects | apps/api/src/controllers/image-processing-queue.ts:10-18 | a request while processing changes nothing and is answered 429 with the last duration |
| ImageProcessingQueue.IdleAdmits | apps/api/src/controllers/image-processing-queue.ts:19-21 | a request while idle is admitted, marks the gate busy and keeps the last duration |
| ImageProcessingQueue.CompletionFrees | apps/api/src/controllers/image-processing-queue.ts:21-24 | after a completion the gate is idle, reports the elapsed time, and admits the next request |
| ImageProcessingQueue.RunConsistent | apps/api/src/controllers/image-processing-queue.ts:9-25 | over any sequence of requests and callbacks in which no job calls its closure twice, the gate is busy exactly when the last admitted job has not called back, and every earlier job has |
| ImageProcessingQueue.RunWellPaired | apps/api/src/controllers/image-processing-queue.ts:9-25 | in every trace in which no job calls its closure twice, admissions and completions alternate: no job is admitted while another runs, and every completion is the running job's, with the time since its admission |
| ImageProcessingQueue.MutualExclusion | apps/api/src/controllers/image-processing-queue.ts:9-25 | from a new gate, at most one job runs at a time in any trace in which each job calls back at most once |
| ImageProcessingQueue.RepeatedCallbackBreaksExclusion | apps/api/src/controllers/image-processing-queue.ts:19-24 | the closure is unguarded: a first job calling back a second time while a second job runs frees the gate, overwrites the duration with its own, and lets a third job in, leaving two jobs outstanding |
| ImageProcessingQueue.RejectedWhileRunning | apps/api/src/controllers/image-processing-queue.ts:10-18 | while a job runs, any number of further requests leave the state unchanged and are all rejected with 429 |
| ImageProcessingQueue.LastCompletionWins | apps/api/src/controllers/image-processing-queue.ts:22 | in every trace, including ones with repeated or late callbacks, the reported last processing time is the duration of the most recent callback, or the earlier value when none ran |
| ImageProcessingQueue.LastDuration | apps/api/src/controllers/image-processing-queue.ts:22 | a duration it returns is one a completion in the log reported |
| ImageProcessingQueue.DurationsNonNegative | apps/api/src/controllers/image-processing-queue.ts:20-22 | with a clock that does not go backwards, every reported duration is non-negative |
| ImageProcessingQueue.NullBeforeFirstCompletion | apps/api/src/controllers/image-processing-queue.ts:7-15 | every 429 issued before the first completion carries a null last processing time |
| ImageProcessingQueue.ThreeJobScenario | apps/api/src/controllers/image-processing-queue.ts:9-25 | request, request, callback of job 0, request, callback of job 1: admit, reject with null, complete, admit, complete with the second duration |
| ProcessingStatus.Status | apps/api/src/routes/processing-status.route.ts:6-8 | the status body says `processing` exactly when the gate is busy |
| ProcessingStatus.GetStatus | apps/api/src/routes/processing-status.route.ts:6-8 | the endpoint reports the gate's `processing` field |
| ProcessingStatus.RunBalance | apps/api/src/routes/processing-status.route.ts:6-8 | over any trace in which no job calls back twice, admissions plus the jobs running at the start equal completions plus the jobs running at the end |
| ProcessingStatus.StatusBetweenAdmissionAndCompletion | apps/api/src/routes/processing-status.route.ts:6-8 | from a new gate and with each job calling back at most once, the status reports busy exactly when there is one more admission than completions, and idle exactly when they are equal |
| ProcessingStatus.StatusInitiallyIdle | apps/api/src/routes/processing-status.route.ts:6-8 | a new gate reports not processing |
| ApiResponse.SuccessResponse | apps/api/src/utilities/apiResponse.ts:8-12 | status 200 with the data and no error; the message defaults to the success text |
| ApiResponse.ErrorResponse | apps/api/src/utilities/apiResponse.ts:14-18 | the given status and error, no data, the request-error message |
| ApiResponse.ServerErrorResponse | apps/api/src/utilities/apiResponse.ts:20-24 | status 500 with the error's message, no data, the server-error message |
| ApiResponse.EnvelopesDisjoint | apps/api/src/utilities/apiResponse.ts:8-24 | the three envelopes differ pairwise in their messages, so they can never be confused, provided a caller's success message is not one of the two error texts |
| NodePath.StripTrailingSlashes | apps/api/src/controllers/remove-background-link.controller.ts:44 | the result is a prefix of the path that does not end in '/' |
| NodePath.LastSegment | apps/api/src/controllers/remove-background-link.controller.ts:44 | the result is a slash-free suffix of the path |
| NodePath.Basename | apps/api/src/controllers/remove-background-link.controller.ts:44 | `path.basename` contains no '/' |
| NodePath.BasenameOfJoin | apps/api/src/controllers/remove-background-link.controller.ts:44 | the basename of `dir/name` is `name` |
| NodePath.LastSegmentAfterSlash | apps/api/src/controllers/remove-background-link.controller.ts:44 | the last segment of `dir/name` is `name` |
| NodePath.LastDot | apps/api/src/utilities/remove.ts:50 | the index of the last '.', or -1 when there is none |
| NodePath.Extname | apps/api/src/utilities/remove.ts:50 | `path.extname` is empty or a '.' followed by dot-free, slash-free text |
| NodePath.ExtnameOfName | apps/api/src/utilities/remove.ts:50 | the extension of `dir/base.ext` is `.ext` |
| NodePath.LastDotAt | apps/api/src/utilities/remove.ts:50 | the last dot of `base + ".ext"` sits right after `base` |
| RemoveUtility.ValidateInput | apps/api/src/utilities/remove.ts:25-72 | the checks succeed only for a non-empty path to a non-empty file that reads, and give its bytes with a JPEG or PNG MIME type |
| RemoveUtility.CheckFile | apps/api/src/utilities/remove.ts:35-47 | a failed stat throws its message and a zero size throws the empty-file error; success needs a non-empty file that reads |
| RemoveUtility.CheckExtension | apps/api/src/utilities/remove.ts:49-72 | an extension outside the list throws the unsupported-extension error naming it; otherwise the file is accepted exactly when it reads, with its bytes and a JPEG or PNG type |
| RemoveUtility.NoMimeTypeUnreachable | apps/api/src/utilities/remove.ts:67-72 | the "no MIME type" error can never be raised, because every whitelisted extension has a MIME type |
| RemoveUtility.BadPathBeforeFileAccess | apps/api/src/utilities/remove.ts:25-33 | undefined, null and empty paths are refused with their own messages before the file system is consulted |
| RemoveUtility.EmptyFileRejected | apps/api/src/utilities/remove.ts:45-47 | a file of size 0 is refused as empty or corrupt |
| RemoveUtility.ExtensionDecides | apps/api/src/utilities/remove.ts:45-75 | for a non-empty readable file, validation succeeds iff the lower-cased extension is .jpg, .jpeg or .png; on success the blob has that extension's MIME type, otherwise the error names the extension |
| RemoveUtility.WhitelistTable | apps/api/src/utilities/remove.ts:8-13 | the supported formats are exactly .jpg, .jpeg and .png, each with its MIME type |
| RemoveUtility.UpperCasePngAccepted | apps/api/src/utilities/remove.ts:50-75 | an upper-case `.PNG` file is accepted as image/png |
| RemoveUtility.GifRefused | apps/api/src/utilities/remove.ts:50-57 | a `.gif` file is refused with an unsupported-extension error naming `.gif` |
| RemoveUtility.EnsureOutputFormat | apps/api/src/utilities/remove.ts:88-89 | after the two `??=`, the config has an output format; a format already set is kept, a missing one becomes image/png |
| RemoveUtility.RemoveImageBackground | apps/api/src/utilities/remove.ts:22-107 | a validation error is thrown as is; otherwise the model is called on the validated blob with exactly the configuration `{debug: true, model: "medium", output: {format: "image/png"}}`, and its result or error is passed through |
| RemoveBackgroundLink.ImageUrl | apps/api/src/controllers/remove-background-link.controller.ts:44-50 | the URL is `<protocol>://<host>/images-output/` followed by a name without a slash |
| RemoveBackgroundLink.ImageUrlOfOutput | apps/api/src/controllers/remove-background-link.controller.ts:44-50 | the URL is `protocol://host/images-output/` followed by the output file's base name |
| RemoveBackgroundLink.RemoveBackgroundLinkController | apps/api/src/controllers/remove-background-link.controller.ts:16-63 | exactly one response, sent last; mkdir only when the output directory is missing; no file gives 400 without calling the service; a processed file gives 200 with the image URL; a service error gives 500 with its message |
| AuthMiddleware.RequireAuth | apps/api/src/middlewares/auth.middleware.ts:18-58 | every refusal is a 401 |
| AuthMiddleware.AcceptsExactlyBearer | apps/api/src/middlewares/auth.middleware.ts:24-58 | a present header passes iff it is `Bearer ` followed by a non-empty token without spaces |
| AuthMiddleware.BearerSplits | apps/api/src/middlewares/auth.middleware.ts:34 | `Bearer <token>` with a space-free token splits into exactly the scheme and the token |
| AuthMiddleware.MissingHeaderRefused | apps/api/src/middlewares/auth.middleware.ts:26-31 | a missing or empty header gets 401 with the authentication-required message |
| AuthMiddleware.EmptyTokenRefused | apps/api/src/middlewares/auth.middleware.ts:42-54 | `Bearer ` with nothing after it gets 401 "invalid token" |
| AuthMiddleware.WrongShapeRefused | apps/api/src/middlewares/auth.middleware.ts:34-40 | a header that does not split into `Bearer` and one more piece gets 401 with the format message |
| AuthMiddleware.ExtraSpacesRefused | apps/api/src/middlewares/auth.middleware.ts:34-40 | a header with two or more spaces is refused with the format message |
| UserRoute.UserId | apps/api/src/routes/user.route.ts:35-36 | the id is never empty |
| UserRoute.GetUser | apps/api/src/routes/user.route.ts:18-45 | the reply is 401 or 200; 401, with no id and no profile, exactly when the header is missing or empty; 200 carries the non-empty id taken from the header |
| UserRoute.AnyHeaderAccepted | apps/api/src/routes/user.route.ts:22-45 | 401 with a null id iff the header is missing or empty; otherwise 200 with the fixed profile and a non-empty id |
| UserRoute.SecondFieldIsId | apps/api/src/routes/user.route.ts:35-36 | the id is the second space-separated field of the header, whatever the scheme |
| UserRoute.DefaultIdWhenMissing | apps/api/src/routes/user.route.ts:36 | a header without a second field, or with an empty second field, yields `user-123` |
| ImageNames.MessageReply | apps/frontend/app/api/mock-remove-background/route.ts:15-35 | the HTTP status and the body's status agree; no URL and no details |
| ImageNames.UrlReply | apps/frontend/app/api/mock-remove-background/route.ts:65-71 | a 200 reply whose body carries the URL |
| ImageNames.AlnumRun | apps/frontend/app/api/mock-remove-background/route.ts:46 | the length of the longest ASCII-alphanumeric suffix |
| ImageNames.FileExtension | apps/frontend/app/api/mock-remove-background/route.ts:46 | the result is always an extension; it is a suffix of the name when some suffix is one, and `.png` otherwise |
| ImageNames.ExtensionOfName | apps/frontend/app/api/mock-remove-background/route.ts:46 | the extension of `base + ext` is `ext` for any extension `ext` |
| ImageNames.NoExtensionDefaults | apps/frontend/app/api/mock-remove-background/route.ts:46 | a name without a dot, or ending in a non-alphanumeric character, gets `.png` |
| ImageNames.UpperCaseExtensionKept | apps/frontend/app/api/mock-remove-background/route.ts:46 | the case-insensitive match keeps `.JPG` as written |
| ImageNames.RandomSuffix | apps/frontend/app/api/mock-remove-background/route.ts:45 | the random part lies in 100000000..999999999 |
| ImageNames.RandomSuffixDigits | apps/frontend/app/api/mock-remove-background/route.ts:45 | the random part always has exactly nine digits |
| ImageNames.TempFileName | apps/frontend/app/api/remove-background/route.ts:46-49 | the temporary name is `temp-` followed by the suffix `-<timestamp>-<random><ext>` that the output name shares |
| ImageNames.OutputFileName | apps/frontend/app/api/mock-remove-background/route.ts:44-47 | the output name is `output-` followed by the same suffix |
| ImageNames.ImageUrl | apps/frontend/app/api/mock-remove-background/route.ts:60 | the URL starts with `<protocol>://`, then the host, and ends with `/images-output/<file>` |
| ImageNames.OutputFileNameInjective | apps/frontend/app/api/mock-remove-background/route.ts:44-47 | equal output names imply equal timestamp, random draw and extension |
| ImageNames.HostOrDefault | apps/frontend/app/api/mock-remove-background/route.ts:58 | a missing or empty host header becomes `localhost:3000`; a present one is kept |
| ImageNames.OutputNameIsBasename | apps/frontend/app/api/mock-remove-background/route.ts:47-48 | the output name has no '/' and is the base name of the path it is written to |
| MockRemoveBackground.MockProtocol | apps/frontend/app/api/mock-remove-background/route.ts:59 | `http` iff the host contains `localhost` anywhere, `https` otherwise |
| MockRemoveBackground.LocalhostAnywhereIsHttp | apps/frontend/app/api/mock-remove-background/route.ts:58-59 | any host containing `localhost`, and the default host, is served over http |
| MockRemoveBackground.MockUrl | apps/frontend/app/api/mock-remove-background/route.ts:44-60 | the URL names the output file on the request host over http or https, and over http on `localhost:3000` when there is no host header |
| MockRemoveBackground.Post | apps/frontend/app/api/mock-remove-background/route.ts:13-81 | an unreadable form gives 500 and a missing image gives 400, both with no effect; a disallowed type gives 400 with nothing written; otherwise mkdir when needed, write the output, and on success wait 1000 ms and answer 200 with the image URL, while a failed write gives 500 |
| RemoveBackgroundRoute.BackendServiceUrl | apps/frontend/app/api/remove-background/route.ts:74-101 | without a usable public API URL or port, the backend is `http://localhost:3001`; otherwise it is `http://localhost:` followed by that URL's port |
| RemoveBackgroundRoute.BackendIsLocal | apps/frontend/app/api/remove-background/route.ts:74-101 | the backend is always reached on localhost, on some non-empty port |
| RemoveBackgroundRoute.RemoveFirstColon | apps/frontend/app/api/remove-background/route.ts:269 | a string without a colon is unchanged, and one with a colon loses exactly one character |
| RemoveBackgroundRoute.FirstColonRemoved | apps/frontend/app/api/remove-background/route.ts:269 | the colon removed is the first one, and every other character is kept in order |
| RemoveBackgroundRoute.ProtocolForApiAccess | apps/frontend/app/api/remove-background/route.ts:255-279 | the access protocol never contains an upper-case letter, and it is `http` when there is neither a forwarded protocol nor a parsable URL |
| RemoveBackgroundRoute.FirstForwardedProtoWins | apps/frontend/app/api/remove-background/route.ts:260-264 | with a comma-separated `x-forwarded-proto` list, the first entry, trimmed and lower-cased, is the protocol |
| RemoveBackgroundRoute.SingleForwardedProto | apps/frontend/app/api/remove-background/route.ts:260-264 | a single non-empty `x-forwarded-proto` entry such as ` HTTPS` is the protocol, trimmed and lower-cased |
| RemoveBackgroundRoute.ProtocolFromUrl | apps/frontend/app/api/remove-background/route.ts:265-278 | without a forwarded protocol, a request URL whose protocol is `scheme:` gives the lower-cased scheme with the colon removed, and a URL that cannot be parsed gives `http` |
| RemoveBackgroundRoute.HostName | apps/frontend/app/api/remove-background/route.ts:250-252 | the host name has no colon and no white space at either end |
| RemoveBackgroundRoute.HostPort | apps/frontend/app/api/remove-background/route.ts:250-253 | a port is present exactly when the host header contains a colon, and it contains no colon itself |
| RemoveBackgroundRoute.ImageProtocol | apps/frontend/app/api/remove-background/route.ts:281-338 | the image URL uses either `http` or the access protocol, and differs from the access protocol only on the EC2 or a local development host |
| RemoveBackgroundRoute.HostParts | apps/frontend/app/api/remove-background/route.ts:250-253 | `name:port` splits into the trimmed name and the trimmed port |
| RemoveBackgroundRoute.LocalHostsForceHttp | apps/frontend/app/api/remove-background/route.ts:308-333 | `localhost:` and `127.0.0.1:` hosts are always served over http |
| RemoveBackgroundRoute.MissingHostServedOverHttp | apps/frontend/app/api/remove-background/route.ts:250-333 | a missing host header falls back to `localhost:3000` and so to http |
| RemoveBackgroundRoute.Ec2DevHostForcesHttp | apps/frontend/app/api/remove-background/route.ts:299-333 | the EC2 development host on port 3000, in any letter case, is served over http |
| RemoveBackgroundRoute.OtherPortKeepsProtocol | apps/frontend/app/api/remove-background/route.ts:299-338 | a host with a port other than 3000 that does not start with `localhost:` or `127.0.0.1:` keeps the API's protocol |
| RemoveBackgroundRoute.NoPortKeepsProtocol | apps/frontend/app/api/remove-background/route.ts:299-338 | every host without a colon keeps the API's protocol: it is not the EC2 host, and both local prefixes end in a colon |
| RemoveBackgroundRoute.BareLocalHostsKeepProtocol | apps/frontend/app/api/remove-background/route.ts:308-310 | a bare `localhost` or `127.0.0.1`, without a port, is not forced to http |
| RemoveBackgroundRoute.CapitalisedLocalhostNotForced | apps/frontend/app/api/remove-background/route.ts:308-310 | the local-host check is case-sensitive: `Localhost:port` keeps the API's protocol |
| RemoveBackgroundRoute.UploadName | apps/frontend/app/api/remove-background/route.ts:66 | the upload name is the file's name, or `image.png` when that is empty |
| RemoveBackgroundRoute.FinishFromBackend | apps/frontend/app/api/remove-background/route.ts:184-431 | when the backend's URL downloads and the write succeeds, the output is written and the local URL returned; the effects are exactly the write of a usable download followed, unless that write succeeded, by the copy of the backend's file; the reply is the processed URL, the fallback URL when the copy succeeds, or the backend URL or placeholder |
| RemoveBackgroundRoute.ProcessedUrl | apps/frontend/app/api/remove-background/route.ts:250-340 | the URL of the stored image is the fallback URL or the same URL over http, and without a host header it is `http://localhost:3000/images-output/<name>` |
| RemoveBackgroundRoute.FallbackUrl | apps/frontend/app/api/remove-background/route.ts:391-420 | with no forwarded protocol, no parsable URL and no host header, the fallback URL is `http://localhost:3000/images-output/<name>` |
| RemoveBackgroundRoute.ProcessedIsFallbackElsewhere | apps/frontend/app/api/remove-background/route.ts:250-420 | off the development hosts the stored image and its fallback copy get the same URL |
| RemoveBackgroundRoute.HandleAnswer | apps/frontend/app/api/remove-background/route.ts:117-456 | the backend answer decides the reply: unreachable gives a 500 carrying the error details, a non-ok answer a 500 carrying the backend status, a body that is not JSON the generic 500, a JSON `null` body the copy fallback without a download, and the generic 500 when that copy fails (`result.data?.url` throws on the null result), and any other parsed body the processed, fallback or not-saved reply, with exactly the write of a usable download and, unless it succeeded, the copy to the output file |
| RemoveBackgroundRoute.Post | apps/frontend/app/api/remove-background/route.ts:13-456 | the error replies for an unreadable form, a missing image and a refused type; for an accepted upload: the temp write, the backend call on the computed URL, the failure replies for a network error, a non-ok answer or a body that is not JSON; for a JSON `null` body, the copy alone, answered by the fallback reply or by a 500 when the copy fails; otherwise the success or fallback reply, after exactly the output write and copy `FinishFromBackend` performs, on the output name that shares the temp file's timestamp, suffix and extension |
| RemoveBackgroundRoute.TempAndOutputShareSuffix | apps/frontend/app/api/remove-background/route.ts:49 | the temp file and the output file share the timestamp, the random draw and the extension |
| BrowserStorage.LocalStorage.constructor | apps/frontend/lib/auth.ts:15-33 | a store with the given entries and availability |
| BrowserStorage.LocalStorage.GetItem | apps/frontend/lib/auth.ts:26-33 | throws iff storage is unavailable; otherwise the stored value, or null for an absent key |
| BrowserStorage.LocalStorage.SetItem | apps/frontend/lib/auth.ts:15-21 | when available, stores the value under the key and changes nothing else; otherwise throws and changes nothing |
| BrowserStorage.LocalStorage.RemoveItem | apps/frontend/lib/auth.ts:38-44 | when available, removes exactly that key; otherwise throws and changes nothing |
| HistoryJson.HexDigitValue | apps/frontend/components/ProcessingHistory.tsx:55 | reading back a hex digit gives its value |
| HistoryJson.EscapeChar | apps/frontend/components/ProcessingHistory.tsx:55 | an escaped character is never a bare quote |
| HistoryJson.UnescapeEscape | apps/frontend/components/ProcessingHistory.tsx:30 | unescaping one escaped character gives back that character and its length |
| HistoryJson.Encode | apps/frontend/components/ProcessingHistory.tsx:53-56 | `JSON.stringify` of a history is a bracketed array text; `DecodeEncode` is its round trip |
| HistoryJson.Decode | apps/frontend/components/ProcessingHistory.tsx:28-30 | `JSON.parse` of `[]` is the empty history, and a text not starting with `[` does not parse as one |
| HistoryJson.DecodeEscaped | apps/frontend/components/ProcessingHistory.tsx:30 | decoding an escaped body up to its closing quote gives the original string and leaves the rest |
| HistoryJson.DecodeEncodedString | apps/frontend/components/ProcessingHistory.tsx:30 | `JSON.parse` of a stringified string gives the string back |
| HistoryJson.DecodeEncodedItem | apps/frontend/components/ProcessingHistory.tsx:8-13 | an encoded history item decodes to the same item, including an absent `hasError` |
| HistoryJson.DecodeJoined | apps/frontend/components/ProcessingHistory.tsx:30 | a comma-joined list of encoded items decodes to the list |
| HistoryJson.DecodeEncode | apps/frontend/components/ProcessingHistory.tsx:30-55 | parsing the stringified history gives back the same list |
| ProcessingHistory.NewItem | apps/frontend/components/ProcessingHistory.tsx:37-47 | the item carries the given URLs and date; `hasError` defaults to false |
| ProcessingHistory.BoundedPrepend | apps/frontend/components/ProcessingHistory.tsx:49 | the new item first, then the previous history, truncated to ten entries |
| ProcessingHistory.AddAllNewestFirst | apps/frontend/components/ProcessingHistory.tsx:49 | after any sequence of additions, the history is the additions newest first, then the old history, cut at ten |
| ProcessingHistory.BoundedAfterAdd | apps/frontend/components/ProcessingHistory.tsx:49 | the history never exceeds ten entries, and under ten nothing is dropped |
| ProcessingHistory.ProcessingHistoryPanel.constructor | apps/frontend/components/ProcessingHistory.tsx:22 | the panel starts with an empty history |
| ProcessingHistory.ProcessingHistoryPanel.Mount | apps/frontend/components/ProcessingHistory.tsx:25-36 | a non-empty saved history that parses replaces the state; otherwise the state is kept; storage is never written |
| ProcessingHistory.ProcessingHistoryPanel.AddToHistory | apps/frontend/components/ProcessingHistory.tsx:37-59 | the state becomes the bounded prepend of the new item, and the stringified state is saved when storage is available |
| ProcessingHistory.SavedHistoryReloads | apps/frontend/components/ProcessingHistory.tsx:25-59 | what `addToHistory` saves is non-empty and parses back to the panel's state, so a remount restores it |
| ClientAuth.GetAuthToken | apps/frontend/lib/auth.ts:26-33 | a token is returned exactly when storage works and holds one, and it is the stored value |
| ClientAuth.GetUserId | apps/frontend/lib/auth.ts:60-67 | a user id is returned exactly when storage works and holds one, and it is the stored value |
| ClientAuth.Stored | apps/frontend/lib/auth.ts:26-33 | the stored value, or null when absent or when storage throws |
| ClientAuth.SaveAuthToken | apps/frontend/lib/auth.ts:15-21 | the token is stored when storage is available; the user id is untouched |
| ClientAuth.ClearAuthToken | apps/frontend/lib/auth.ts:38-44 | afterwards no token is readable; the user id is untouched |
| ClientAuth.SaveUserId | apps/frontend/lib/auth.ts:49-55 | the id is stored when storage is available; the token is untouched |
| ClientAuth.ClearUserId | apps/frontend/lib/auth.ts:72-78 | afterwards no user id is readable; the token is untouched |
| ClientAuth.IsAuthenticated | apps/frontend/lib/auth.ts:83-85 | authenticated iff a non-empty token is stored and readable |
| ClientAuth.Logout | apps/frontend/lib/auth.ts:90-93 | removes exactly the token and the user id; afterwards not authenticated and no user id |
| ClientAuth.AuthHeaders | apps/frontend/lib/auth.ts:98-101 | a non-empty token gives exactly `Authorization: Bearer <token>`, anything else no headers |
| ClientAuth.GetAuthHeaders | apps/frontend/lib/auth.ts:98-101 | an Authorization header is present iff the user is authenticated |
| ClientAuth.HeadersPassMiddleware | apps/frontend/lib/auth.ts:98-101 | the header the client sends passes the API's middleware iff the token has no space |
| UserHistoryManager.GetUserHistoryKey | apps/frontend/components/UserHistoryManager.tsx:7-9 | a signed-in user gets `imageProcessingHistory_<id>`, anyone else the shared key |
| UserHistoryManager.UserKeysSeparate | apps/frontend/components/UserHistoryManager.tsx:7-9 | distinct users get distinct keys, none equal to the shared key or to the auth keys |
| UserHistoryManager.Migration | apps/frontend/components/UserHistoryManager.tsx:17-36 | a migration happens only from an anonymous to a signed-in user, writes the non-empty anonymous history, as stored, to `imageProcessingHistory_<id>` |
| UserHistoryManager.MigrationOnlyFromAnonymous | apps/frontend/components/UserHistoryManager.tsx:17-36 | history is copied only from anonymous to signed-in, only when a non-empty shared history exists, and to the new user's key |
| UserHistoryManager.HandleUserTransition | apps/frontend/components/UserHistoryManager.tsx:12-49 | the copy is the only change to storage, and nothing changes when there is nothing to migrate |
| UserHistoryManager.Manager.constructor | apps/frontend/components/UserHistoryManager.tsx:53 | the manager starts uninitialised |
| UserHistoryManager.Manager.Initialize | apps/frontend/components/UserHistoryManager.tsx:55-74 | nothing happens until auth is loaded, and only once; on a user change it migrates, then records or clears `currentUserId`; an unavailable storage makes the effect throw after the flag is set |

## Left out

- The event loop is not modelled. The processing gate is modelled call by call and as a trace of requests and callbacks. `_processImage` itself, and the interleaving of its asynchronous work, are not part of this model.
- ImageProcessingQueue.MutualExclusion: holds only for traces in which each job calls its closure at most once (`Disciplined`). The gate does not enforce this. `_processImage`, which the request carries and nothing in the source defines, must call back once, for its own job. `RepeatedCallbackBreaksExclusion` shows what a second call does.
- ImageProcessingQueue.RunWellPaired: assumes the same at-most-once callback discipline, for the same reason.
- ImageProcessingQueue.RunConsistent: assumes the same at-most-once callback discipline, for the same reason.
- ProcessingStatus.RunBalance: assumes the same at-most-once callback discipline. A repeated callback would count as a completion of a job that already completed.
- ProcessingStatus.StatusBetweenAdmissionAndCompletion: assumes the same at-most-once callback discipline, for the same reason.
- ImageProcessingQueue.ProcessingQueue.Enqueue: a synchronous throw from `_processImage` (image-processing-queue.ts:21) is not modelled as an event. It leaves `processing` set with no callback to come, which the model shows as a trace with no callback: by `RejectedWhileRunning`, every later request then gets 429.
- The background-removal model (`@imgly/background-removal-node`), Blob and Buffer conversion, and the image bytes are not modelled. The model's result is a parameter.
- The file system, `fetch`, `new URL`, `Date.now()` and `Math.random()` are parameters. Their internal behaviour is not modelled.
- A failing `mkdirSync` is not modelled. Directory creation always succeeds. It is an effect of the link controller and the mock route, and it is not listed among the effects of the remove-background route.
- RemoveBackgroundRoute.Post: deleting the temporary file with `unlinkSync` is not modelled. Its failures are caught and only logged.
- The success bodies nest the URL as `data.url`. The model keeps that URL as a field of the reply body.
- The `new URL(filePath, import.meta.url)` call at remove.ts:42 is assumed not to throw. Its value is never used.
- Console logging and the toast notification in the history panel are left out. They do not affect state or replies.
- MockRemoveBackground.Post: the one-second sleep appears only as a `Wait(1000)` effect.
- The `historyUpdated` and `userChanged` custom events are left out, as are the `imageProcessed` listener that calls `addToHistory`, and listener removal. Event dispatch is browser machinery. The methods they would call are modelled.
- RemoveBackgroundRoute.Post: the text of `errorDetails` is a parameter. So is the response body of a backend error, which the source formats from runtime error objects.
- RemoveBackgroundRoute.Post: the 90-second abort timeout appears only as a failed fetch.
- Strings.ToLower and Strings.Trim cover ASCII letters and the common white-space characters only. They are not full Unicode case mapping and white-space classes.
- HistoryJson.Decode accepts only the layout `JSON.stringify` produces for a history list. Other valid JSON counts as a parse failure. A `\u` escape of a surrogate code unit (D800 to DFFF) is refused, so surrogate pairs are not decoded; every other `\u` escape is.
- BrowserStorage.LocalStorage.SetItem: quota-exceeded errors are not modelled. Storage either works for every call or throws for every call.
- AuthMiddleware.RequireAuth: the catch block at auth.middleware.ts:59-65 is not modelled, because nothing in its try block can throw.
- UserRoute.GetUser: the 500 reply at user.route.ts:46-53 is not modelled, because nothing in its try block can throw.
- RemoveBackgroundLink.RemoveBackgroundLinkController: the 500 reply covers only an error thrown by the removal service. Errors from `mkdirSync` or `res.json` are not modelled.
- ImageProcessingQueue.ProcessingQueue.Complete: the `processingTime` argument is accepted and ignored, as in the source.
- How the routers and controllers are mounted in the Express app, and the Next.js pages and components other than the two listed, are not part of this model.
