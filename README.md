# nhddl-psu: release download, body readers and configuration output

nhddl-psu builds a PS2 save-container (PSU) holding the NHDDL launcher. The
executable comes from a GitHub release: of `pcm720/nhddl` in the web build at
the repository root (gh.go), and of whatever repository is set at build time
(cmd/nhddl-psu) or passed as `--repo` (cmd/psubuilder) for the `gh` package.
The PSU also gets a generated `nhddl.yaml`. This project models the sequential logic of
that pipeline in Dafny and proves what it promises. The modules follow the
source files:

- `MainGh` (gh.go) is the downloader of the web build: gh.go is in package
  main beside main.go, which builds only for `js && wasm`. It lists the tags of pcm720/nhddl
  with every `nightly` tag moved to the front, resolves a release's first
  asset, and extracts `nhddl.elf` or `nhddl-standalone.elf` from the release
  archive as a record named `nhddl.elf`.
- `Gh` (gh/gh.go) is the `Fetcher` package. It serves both builds: the native
  CLI (cmd/psubuilder) calls the same `GetAllTags` and `GetFiles`, through the
  native fetch wrapper, and the browser build goes through the fetch() bridge.
  It builds the same two API
  URLs for any repository and lists tag names in forge order. It downloads the
  first asset through an optional CORS proxy prefix and returns one record per
  non-directory archive entry named in the targets, in archive order, named by
  its `path.Base`.
- `Fetch` (gh/internal/fetch/fetch_js.go) needs three parts:
  - how the bridged `Fetch` chooses its outcome and formats a fetch() rejection;
  - how it chooses between the streaming body and the whole-buffer body;
  - the two body readers. Each reader is a class whose `Read` and `Close`
    update the fields `pending`, `err` and `read`, proved equal to a pure step
    function. The lemmas about read-to-the-end are stated on that function.
- `NhddlPsu` (cmd/nhddl-psu/nhddl.go) is the hand-written `nhddl.yaml`
  serializer, with a reader proved to invert it whenever the mode holds no
  line terminator (without that condition two configurations can write the
  same file, `NhddlPsu.YamlIsNotEscaped`).
- `Errors`, `Archive` and `Remote` are shared values:
  - the errors with their exact messages;
  - archive entries and file records;
  - Go's `path.Base`;
  - the decoded release metadata.

The collaborators are parameters: the GitHub client, the HTTP client, the
browser's fetch() promise, and the JSON and zip decoders. Each is a total
function from a request (a URL or API arguments) to its decoded outcome, so the
contracts say which URL is requested.

Points where the code behaves differently than a reader might expect. Each is
modelled as the code does it, except the last: a fetch() rejection with a
string cause. `Fetch.Fetch` formats that rejection as the code evidently
intends, and `Fetch.FetchAsWritten` models the panic of the code as written
(see "## Findings"):

- `getAllTags` (gh.go:40-51) shifts the filled slots one place right for every
  `nightly` and puts it in slot 0. That is a stable partition, not an index
  swap. `MainGh.NightlyFirstIsPartition` proves it.
- `getReleaseURL` in gh/gh.go never looks at the HTTP status: it decodes
  whatever body arrives. An empty metadata body is the decoder's `io.EOF`, and
  it is returned as the error. `GetAllTags` treats the same case as an empty
  list. (In gh.go the GitHub API client itself turns a non-2xx status into an
  error, which the model receives as the client's error.)
- `GetFiles` copies the entry's modification time into both timestamps. No
  wall-clock fallback applies to a zero time. That fallback (`time.Now`) exists
  only outside the download path: for the embedded icon files
  (cmd/nhddl-psu/nhddl.go:83-86) and for local files added by cmd/psubuilder
  (cmd/psubuilder/main.go:177-180).
- The functions of gh/gh.go never close the response bodies they get from
  `Fetch`.
- The bridged `Fetch` creates an AbortController but never hands its signal to
  fetch(), because the options object stays empty. `abort()` is still called
  when the context is done, and the model records that call.
- The `arrayReader` does not store a failed load as its error. The next Read
  finds nothing pending and reports `io.EOF` instead
  (`Fetch.ArrayLoadFailureIsNotSticky`).
- The failure callback of the bridged `Fetch` (fetch_js.go:81) reads
  `cause.Get("toString")` before it tests for a string cause. A cause that is
  defined but not an object (a string, null, a number, a boolean) makes it
  panic, so no error reaches the caller.

## Model

| member | source | states |
|---|---|---|
| Errors.Message | gh/gh.go:92 | every message the core creates (here and at gh.go lines 27, 77 and 120, gh/gh.go lines 47 and 131, fetch_js.go lines 87 and 106) is non-empty; "invalid status code " is followed by the `%d` text of the code; a fetch() failure reads "net/http: fetch() failed: " and then the formatted detail; a reader failure is its own message |
| Errors.Decimal | gh.go:77 | the `%d` text of an integer is non-empty, starts with '-' exactly for a negative number, and is all digits otherwise |
| Errors.InvalidStatusNamesCode | gh/gh.go:92 | the "invalid status code" message names the status: after the 20-character prefix come digits that read back as the code |
| Errors.NatDecimal | gh/gh.go:91-93 | the `%d` text of a status code is non-empty, all digits, and has no leading zero for a positive code |
| Errors.NatDecimalRoundTrip | gh/gh.go:91-93 | reading the `%d` digits back gives the code that was rendered |
| Archive.StripTrailingSlashes | gh/gh.go:123 | `path.Base` step: drops exactly the trailing slashes, so the result is a prefix and the removed suffix is all slashes |
| Archive.LastElement | gh/gh.go:123 | `path.Base` step: the slash-free suffix after the last '/', non-empty when the path does not end in '/' |
| Archive.Base | gh/gh.go:123 | `path.Base` is never empty; it is "/" or slash-free; the empty path gives "." |
| Archive.LastElementOfSuffix | gh/gh.go:123 | a slash-free name after a directory prefix ending in '/' is the last element |
| Archive.BaseOfPlainName | gh/gh.go:123 | an entry name without directories is its own record name |
| Archive.BaseStripsDirectories | gh/gh.go:123 | the record name of `dir/name` is `name` |
| MainGh.Names | gh.go:40-50 | one name per listed tag, in forge order, "" for a tag without a name |
| MainGh.NightlyFirst | gh.go:39-53 | the reordered tag list has exactly as many names as the forge list |
| MainGh.Keep | gh.go:40-51 | the reference definition: the subsequence of `nightly` names (or of the others), in order |
| MainGh.NightlyFirstIsPartition | gh.go:40-51 | the reordering equals every `nightly` in order, then every other tag in forge order (stable partition) |
| MainGh.NightlyFirstIsPermutation | gh.go:39-53 | the reordered list is a permutation of the forge names (same multiset) |
| MainGh.NightlyFirstWithoutNightly | gh.go:40-51 | without a `nightly` tag the forge order is returned unchanged |
| MainGh.NightlyFirstMovesNightly | gh.go:41-48 | if `nightly` is present it is at index 0; no other tag precedes a `nightly`; both groups keep their relative order |
| MainGh.ShiftIn | gh.go:41-48 | the inner loop puts "nightly" in slot 0 and moves slots 0..i-1 one slot right, through `t`; the later slots are untouched |
| MainGh.GetAllTags | gh.go:33-54 | the array loop with the nested shift returns the listing error, or exactly the reordered list of the tag names |
| MainGh.GetReleaseURL | gh.go:19-31 | a client error is returned; an empty asset list is "no assets"; otherwise the first asset's download URL |
| MainGh.TargetName | gh.go:94-97 | the target is nhddl-standalone.elf exactly when standalone is asked for, nhddl.elf exactly otherwise |
| MainGh.ElfRecord | gh.go:111-116 | the record of the found entry is named nhddl.elf whichever variant was found, carries the entry's modification time as both times, and holds the bytes read |
| MainGh.FindTarget | gh.go:98-120 | a found executable is always named nhddl.elf and has equal creation and modification times |
| MainGh.FindTargetIsFirstMatch | gh.go:98-120 | with no entry named exactly as the target the result is "target file not found"; otherwise the first such entry alone decides (its bytes renamed and time-stamped, or its read error) |
| MainGh.ElfFromDownload | gh.go:71-91 | a failed GET is returned; a non-200 status is "invalid status code" before the archive is touched; a 200 response gives the archive's read error or exactly the first-match scan of its entries; success implies a 200 response with a readable archive |
| MainGh.DownloadELF | gh.go:56-121 | resolves the release, GETs the first asset's URL and returns the result of scanning its archive for the requested variant; the loop invariant keeps the first-match scan |
| Gh.ReleaseEndpoint | gh/gh.go:37 | the release URL is the API prefix, then the repository, then "/releases/tags/", then the tag last |
| Gh.TagsEndpoint | gh/gh.go:56 | the tag-list URL is the API prefix, then the repository, then "/tags" |
| Gh.GetReleaseURL | gh/gh.go:34-51 | succeeds exactly when the release decodes with at least one asset, giving the first asset's URL; the empty-assets, empty-body (`io.EOF`), transport and decode errors are each returned |
| Gh.GetAllTags | gh/gh.go:53-72 | succeeds exactly on a decoded list or an empty body; an empty body gives no tags; otherwise the names in forge order, same length; other errors are returned |
| Gh.Selected | gh/gh.go:109 | an entry is taken exactly when it is not a directory and its full in-archive name equals one of the targets |
| Gh.Record | gh/gh.go:122-127 | a record's name is non-empty and "/" or slash-free (`path.Base`); both its times are the entry's modification time; it holds the bytes read |
| Gh.Selection | gh/gh.go:108-109 | every selected entry is a non-directory whose full name is one of the targets, and every such entry of the archive is selected |
| Gh.Collect | gh/gh.go:107-129 | a successful scan yields at most one record per entry, each with equal creation and modification times; a failed scan carries the read error of one of the entries |
| Gh.CollectOkIff | gh/gh.go:107-129 | the extraction loop succeeds exactly when every selected entry can be opened and read |
| Gh.CollectRecords | gh/gh.go:107-129 | a successful extraction has one record per selected entry, in archive order: base name, entry time as both times, entry bytes |
| Gh.CollectFirstError | gh/gh.go:112-119 | a failed extraction carries the error of the first selected entry that cannot be read |
| Gh.CollectIsSelection | gh/gh.go:107-129 | the extraction loop succeeds exactly when every selected entry is readable, then gives one record per selected entry in archive order (base name, entry time twice, bytes); otherwise it gives the first unreadable entry's error and nothing else |
| Gh.Extract | gh/gh.go:130-133 | a successful extraction is never empty |
| Gh.ExtractIsSelection | gh/gh.go:107-133 | nothing selected is "no files found"; success exactly when something is selected and all of it is readable, with the records of the selection |
| Gh.ExtractScenario | gh/gh.go:108-127 | with a directory entry, a file inside it and another file, asking for the inner file's full path gives one record named by its base name with its time and bytes |
| Gh.FilesFromDownload | gh/gh.go:87-104 | a failed fetch is returned; a status other than 200 is "invalid status code" with no extraction; a 200 response gives the archive's read error or exactly the extraction of its entries; success implies a 200 response, a readable archive and a non-empty result |
| Gh.GetFiles | gh/gh.go:75-134 | returns the release-resolution error, or the result of downloading proxy prefix + resolved URL and extracting the targets; with an empty proxy the resolved URL itself is downloaded; the loop invariant ties the appended records to the extraction |
| Fetch.FailureDetailAsWritten | gh/internal/fetch/fetch_js.go:76-86 | the callback as written panics exactly on a defined cause that is not an object; when it does not, the message starts with the error's own text |
| Fetch.FailureDetail | gh/internal/fetch/fetch_js.go:76-87 | the message starts with the error's own text; it is extended exactly when the cause is an object with `toString` or a string, by ": " and the cause's text, one level deep |
| Fetch.FailureDetailAgreement | gh/internal/fetch/fetch_js.go:76-87 | the callback as written panics exactly on a defined cause that is not an object, and agrees with the intended message everywhere else |
| Fetch.StringCausePanics | gh/internal/fetch/fetch_js.go:78-85 | a rejection whose cause is a string makes the callback as written panic, whereas the intended message ends in ": " + cause |
| Fetch.FailureError | gh/internal/fetch/fetch_js.go:87 | the rejection error always reads "net/http: fetch() failed: " followed by the formatted message |
| Fetch.ChooseBody | gh/internal/fetch/fetch_js.go:51-57 | the stream reader is used exactly when `body` is neither undefined nor null, the array reader exactly otherwise |
| Fetch.Fetch | gh/internal/fetch/fetch_js.go:92-103 | `abort()` is called exactly when the context is done and an AbortController exists; a result exactly on resolution; a done context gives `ctx.Err()` and a rejection its translated error; the response carries the status and the body strategy |
| Fetch.FetchAsWritten | gh/internal/fetch/fetch_js.go:76-103 | Fetch with the failure callback as written: only a rejection can end in the callback's panic, and then no outcome reaches the caller |
| Fetch.FetchAsWrittenAgreement | gh/internal/fetch/fetch_js.go:76-103 | Fetch as written panics exactly on a rejection whose cause is defined and not an object; whenever it completes, its outcome is that of `Fetch.Fetch` |
| Fetch.StreamRead | gh/internal/fetch/fetch_js.go:116-159 | a stored error is returned with nothing changed; pending plus pulled bytes equal returned plus remaining bytes; min(len(p), available) bytes are returned; `done` is io.EOF and a failed read its message, both stored |
| Fetch.StreamClose | gh/internal/fetch/fetch_js.go:161-170 | stores errClosed only when no error is stored (an earlier io.EOF stays), keeps pending, returns nil |
| Fetch.ReadAfterStreamClose | gh/internal/fetch/fetch_js.go:116-170 | after Close every Read returns the stored error and changes nothing |
| Fetch.StreamDeliversEverything | gh/internal/fetch/fetch_js.go:116-159 | reading a fresh stream reader to the end returns exactly the bytes of the chunks before the stream stops, nothing dropped or duplicated, then io.EOF or the failure message |
| Fetch.ArrayRead | gh/internal/fetch/fetch_js.go:181-223 | a stored error is returned with nothing changed; the buffer is loaded only by the first Read; no byte is dropped or duplicated; io.EOF exactly when nothing is available; a failed load reports its message |
| Fetch.ArrayClose | gh/internal/fetch/fetch_js.go:225-230 | stores errClosed only when no error is stored, keeps the rest, returns nil |
| Fetch.ReadAfterArrayClose | gh/internal/fetch/fetch_js.go:181-230 | after Close every Read returns the stored error and changes nothing |
| Fetch.ArrayServesPending | gh/internal/fetch/fetch_js.go:217-222 | a loaded array reader read to the end returns exactly its pending bytes, then io.EOF |
| Fetch.ArrayDeliversBuffer | gh/internal/fetch/fetch_js.go:181-223 | a fresh array reader read to the end returns exactly the whole buffer then io.EOF, or nothing and the load failure |
| Fetch.ArrayLoadFailureIsNotSticky | gh/internal/fetch/fetch_js.go:185-218 | a failed load is reported once; the next Read, whatever the promise, reports io.EOF |
| Fetch.Copy | gh/internal/fetch/fetch_js.go:156 | Go's `copy` writes min(len(p), len(src)) bytes from the front of src and leaves the rest of p untouched |
| Fetch.StreamReader.constructor | gh/internal/fetch/fetch_js.go:52 | a new stream reader has nothing pending and no error |
| Fetch.StreamReader.Read | gh/internal/fetch/fetch_js.go:116-159 | the new fields and the bytes written to p are those of the step function; bytes received equal bytes delivered plus pending |
| Fetch.StreamReader.Close | gh/internal/fetch/fetch_js.go:161-170 | cancels the stream; the new fields and the result are those of the close step |
| Fetch.ArrayReader.constructor | gh/internal/fetch/fetch_js.go:56 | a new array reader has not loaded, has nothing pending and no error |
| Fetch.ArrayReader.Read | gh/internal/fetch/fetch_js.go:181-223 | the new fields and the bytes written to p are those of the step function; the loaded buffer equals bytes delivered plus pending |
| Fetch.ArrayReader.Close | gh/internal/fetch/fetch_js.go:225-230 | the new fields and the result are those of the close step |
| NhddlPsu.VideoModeEntry | cmd/nhddl-psu/nhddl.go:42-44 | the "480p:" entry is present exactly when the video mode is "480p", and it is one newline-terminated line |
| NhddlPsu.ModeEntry | cmd/nhddl-psu/nhddl.go:45-47 | the mode entry is present exactly when a device mode is set; it is "mode: ", the mode verbatim and a newline |
| NhddlPsu.UdpbdEntry | cmd/nhddl-psu/nhddl.go:48-50 | the IP entry is present exactly when an IP is set; it is "udpbd_ip: " and the IP verbatim, with no newline |
| NhddlPsu.Yaml | cmd/nhddl-psu/nhddl.go:39-53 | the file is empty exactly when the video mode is not "480p" and the mode and the IP are empty |
| NhddlPsu.VideoModeLine | cmd/nhddl-psu/nhddl.go:42-44 | the file starts with "480p:\n" exactly when the video mode is "480p"; the other entries follow it |
| NhddlPsu.EntriesRoundTrip | cmd/nhddl-psu/nhddl.go:45-50 | for a mode without a line terminator, the mode line (present exactly for a non-empty mode, newline-terminated) and the unterminated IP entry read back as the mode and the IP |
| NhddlPsu.YamlRoundTrip | cmd/nhddl-psu/nhddl.go:39-53 | for a mode without a line terminator, reading the file back gives whether 480p is on, the mode and the IP, so the entries come in the order video mode, mode, IP |
| NhddlPsu.EmptyConfigWritesNothing | cmd/nhddl-psu/nhddl.go:55-57 | the empty configuration has the default video mode, no device mode and no IP; its file is empty, and an empty file reads back as those settings |
| NhddlPsu.YamlIsNotEscaped | cmd/nhddl-psu/nhddl.go:46-49 | values are written verbatim: a mode embedding a newline and an IP entry writes the same file as a different configuration |
| NhddlPsu.GetYAML | cmd/nhddl-psu/nhddl.go:39-53 | the builder's conditional appends produce the file, which reads back as the configuration's settings when the mode holds no line terminator, and is empty for the empty configuration |

## Left out

- The GitHub API client, the HTTP client, the browser's fetch(), `encoding/json` and `archive/zip` are foreign code. Each is a parameter mapping a request to its decoded outcome. JSON shapes, zip parsing and DEFLATE are not modelled.
- gh/internal/fetch/fetch.go, the native wrapper over `net/http`, is not part of this model. gh/internal/fetch/response.go is only the `FetchResponse` record, which appears as a datatype.
- The callbacks, channels, `select` and `js.FuncOf`/`Release` of fetch_js.go are concurrency and foreign calls. Each promise is replaced by the outcome it settles with, passed in as a parameter.
- Fetch.Fetch: the rejection branch uses the corrected message (`Fetch.FailureDetail`), not the code as written, which panics for a defined cause that is not an object. `Fetch.FetchAsWritten` models that panic and `Fetch.FetchAsWrittenAgreement` relates the two.
- Fetch.Fetch: the AbortController is a flag saying whether the environment defines one. The fetch options object and `ac.New()` are not modelled.
- Fetch.FailureDetail: a rejection value that is not an object (so `err.Call("toString")` or `err.Get("cause")` would itself panic) is not modelled. Rejections are Error objects with a text and a cause.
- Fetch.StreamRead: a failed `read()` is modelled as a message string. The rejection callback (fetch_js.go:143) reads `args[0].Get("message")`, which panics when the rejection reason is not an object; that panic is not modelled.
- Fetch.ArrayRead: a failed `arrayBuffer()` is modelled as a message string. The rejection callback (fetch_js.go:205) reads `args[0].Get("message")`, which panics when the rejection reason is not an object; that panic is not modelled.
- Fetch.StreamReader.Close: the result of the stream's `cancel()` is ignored by the code. The model only records that cancel was called.
- Fetch.StreamDeliversEverything: reading to the end uses a fixed non-empty buffer size for every Read. `io.ReadAll` grows its buffer.
- Gh.GetFiles: the 20-second deadline, the 5-second metadata deadlines and context cancellation belong to the transport. They appear only as the error it may return.
- MainGh.DownloadELF: the `resp.ContentLength` size handed to `zip.NewReader` is not modelled, because the archive arrives already parsed. Neither is the deferred body close.
- MainGh.GetReleaseURL: the asset URL is a string, not a pointer. A nil `BrowserDownloadURL` (which would panic) is not modelled.
- MainGh.GetAllTags: only the first page of `ListTags` (nil list options) is modelled, as the code requests.
- The progress messages printed with `fmt.Println` are output only and are left out.
- `getEmbeddedFiles` (an embed.FS read with a `time.Now` fallback), main.go, cmd/nhddl-psu/main.go, cmd/psubuilder/main.go and `psu.BuildPSU` are file-system, UI and CLI glue or external code, and are not part of this model.

## Findings

| source | as written | input that shows it | evidently intended | confidence | as-written member | corrected member |
|---|---|---|---|---|---|---|
| gh/internal/fetch/fetch_js.go:81-84 | `cause.Get("toString")` is evaluated for every defined cause, before the check for a string cause; `js.Value.Get` panics on a value that is not an object | fetch() rejected with `new TypeError("Failed to fetch", {cause: "blocked"})` | a string cause is appended as ": blocked", as the branch at line 83 is written to do | medium, not executed | Fetch.StringCausePanics | Fetch.FailureDetail |
