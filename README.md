# axolotl-bucket: a Dafny model of the cache-and-upload core

axolotl-bucket is a caching proxy in front of a Backblaze B2 bucket. Clients
`PUT /v1/pack` a zip archive (a "pack"), get back its SHA-1 hash, and later
`GET /v1/pack?hash=<hash>` it. The proxy keeps a local disk cache keyed by that
hash (`cache/<hash>.zip`), evicts cache files older than `cachePeriod` seconds,
uploads new packs to the bucket as `packs/<hash>.zip` (single-request upload
below 100 MiB, chunked large-file upload from 100 MiB), and serves a bundle
`modfolder.zip` that is re-downloaded from the bucket once it is stale.

This model covers the decision logic of those steps over an explicit state:

- `LocalFs`: the working directory as a map from path to `File(content, lastModified)`
  or `Dir(lastModified)`, plus the `java.io.File` and `Files.move` operations the
  handlers use (exists, lastModified, mkdir, delete, write, move).
- `B2`: the bucket (the current version of each file name, whether the service
  answers, the next file id) and the outcome of each SDK call. A `None` outcome
  is the `B2Exception`.
- `Application`: the process-wide state as class `App` (config, disk, bucket and a
  ghost log of every upload, info, download and delete request issued; the
  listing request of `deleteAllFiles` is not logged, its result is a parameter). It also holds `cacheTask`'s sweep,
  `uploadFile` with its strategy choice, `downloadFile` and `deleteAllFiles`.
- `Checksum`: `getFileChecksum`'s chunked read loop and hex rendering. The digest
  algorithm is a function parameter (SHA-1 at the only call site).
- `Routing`: the `X-API-Key` check.
- `Routes`: the three handlers as methods over `App`, plus client methods for
  request sequences (repeated upload, upload then fetch, eviction then fetch).

Each handler returns the response it sent, if any, and an `Exit`. `Escaped(fault)`
means an exception left the handler, and the server then answers 500 if no
response was sent yet. The clock reading `now` (milliseconds) is a parameter.

Some behaviours of the source worth knowing:

- The remote name of a pack is `packs/<hash>.zip`: `uploadFile` is given the
  cached file, not the original file name.
- The pack route downloads `<hash>.zip` on a cache miss, a name the upload never
  stores (see Findings). `Routes.GetPack` uses `packs/<hash>.zip` instead.
- No handler calls `deleteAllFiles`. It is modelled on its own, and nothing cleans
  up old remote versions after an upload.
- `GET /v1/pack` performs no API-key check, and it uses the hash unchecked as a
  path component. `hash=../modfolder` reads `cache/../modfolder.zip`, which is the
  bundle in the working directory (`Routes.FetchOutsideCache`).
- Paths built from request input (`uploads/$name`, `cache/$hash.zip`) go through
  `LocalFs.Resolve`. It drops empty components as `java.io.File` does, and it
  resolves `.` and `..` against the disk as the operating system does. A file
  part named `""` therefore denotes the uploads folder itself, and staging it
  throws (`Routes.StageEmptyNameFails`).
- `modfolder.zip` lives in the working directory, not under `cache/`, so only its
  own handler evicts it. The sweep never touches it.
- The upload handler never creates `cache/`. On a disk without that folder, the
  move fails after the hash has been sent, the staged file stays in `uploads/`,
  and nothing is uploaded.
- The existence check of the upload handler skips the move when `cache/<hash>.zip`
  exists as a file or as a directory.

## Model

| member | source | states |
|---|---|---|
| `Checksum.Read` | src/main/kotlin/dev/axolotl/bucket/Application.kt:200 | a read returns -1 exactly at end of file, otherwise 1 to 1024 bytes that lie inside the file |
| `Checksum.GetFileChecksum` | src/main/kotlin/dev/axolotl/bucket/Application.kt:193-214 | the whole file, in order, is fed to the digest; the checksum is the hex rendering of that digest, 2 characters per digest byte, all lower-case hex digits |
| `Checksum.HexBytePadded` | src/main/kotlin/dev/axolotl/bucket/Application.kt:210 | `((b and 0xff) + 0x100).toString(16).substring(1)` is exactly the two digits high nibble, low nibble (zero padded) |
| `Checksum.HexStringAppend` | src/main/kotlin/dev/axolotl/bucket/Application.kt:208-211 | appending one byte's rendering extends the checksum of the prefix by that byte's two digits |
| `Checksum.HexStringLength` | src/main/kotlin/dev/axolotl/bucket/Application.kt:208-213 | the checksum has length 2 × digest length (40 for SHA-1) |
| `Checksum.HexStringLowercase` | src/main/kotlin/dev/axolotl/bucket/Application.kt:208-213 | every checksum character is one of 0-9, a-f |
| `Checksum.ParseHexRoundTrip` | src/main/kotlin/dev/axolotl/bucket/Application.kt:206-213 | an independent pairwise hex decoder recovers the digest bytes from the checksum |
| `Checksum.HexStringInjective` | src/main/kotlin/dev/axolotl/bucket/Application.kt:206-213 | distinct digests give distinct checksums, so distinct cache keys |
| `LocalFs.PathParts` | src/main/kotlin/dev/axolotl/bucket/Application.kt:120 | `File("dir/name").name` is `name` and its parent is `dir`, for a non-empty `name` without `/` |
| `LocalFs.ResolvePlain` | src/main/kotlin/dev/axolotl/bucket/routes/PutPackRoute.kt:44 | `dir/name` built from two plain components (non-empty, no `/`, neither `.` nor `..`) denotes exactly that entry, on every disk |
| `LocalFs.ResolveUpAndOver` | src/main/kotlin/dev/axolotl/bucket/routes/GetPackRoute.kt:35 | `dir/../name`, where `dir` is a folder in the working directory, denotes `name` in the working directory |
| `Application.ChooseStrategy` | src/main/kotlin/dev/axolotl/bucket/Application.kt:126-139 | the large-file upload is chosen exactly when `length/1024/1024 >= 100`, i.e. length >= 104857600 bytes; otherwise the small upload |
| `Application.App.CacheSweep` | src/main/kotlin/dev/axolotl/bucket/Application.kt:88-101 | over a walk of the cache folder, a file is deleted exactly when `now >= lastModified + cachePeriod*1000`; directories, younger files and everything outside `cache` are unchanged; no remote call |
| `Application.App.UploadFile` | src/main/kotlin/dev/axolotl/bucket/Application.kt:106-142 | exactly one upload request under `packs/<file name>` with the size-chosen strategy; the bucket stores the bytes if and only if the service answers; the disk is unchanged |
| `Application.App.DownloadFile` | src/main/kotlin/dev/axolotl/bucket/Application.kt:144-164 | exactly one download request, which the backend may reject on its own; the output file holds the remote bytes stamped `now` exactly when the request is not rejected, the service answers, the file is a finished upload, and the output path resolves and can be written; otherwise the disk is unchanged; the bucket is unchanged |
| `Application.FirstMismatch` | src/main/kotlin/dev/axolotl/bucket/Application.kt:180-189 | the index where the loop breaks: every earlier version is the kept one or carries the target name, the version there does neither |
| `Application.PlanSparesExcepted` | src/main/kotlin/dev/axolotl/bucket/Application.kt:181-182 | no deleted version has the excepted version's fileId |
| `Application.PlanDeletesOnlyName` | src/main/kotlin/dev/axolotl/bucket/Application.kt:184-185 | every deleted version's name equals the target exactly |
| `Application.PlanStopsAtFirstMismatch` | src/main/kotlin/dev/axolotl/bucket/Application.kt:184-189 | the deletions are the order-independent selection applied only to the versions before the first other name; nothing later is deleted |
| `Application.ExtensionNotBelow` | src/main/kotlin/dev/axolotl/bucket/Application.kt:172-176 | a name that extends the prefix sorts at or before it only if it is the prefix itself |
| `Application.SortedPlanDeletesAll` | src/main/kotlin/dev/axolotl/bucket/Application.kt:172-190 | for a listing sorted by name whose names all extend the target (what the prefix/start-name request returns), the loop deletes every non-kept version of the target |
| `Application.UnorderedListingLeavesVersion` | src/main/kotlin/dev/axolotl/bucket/Application.kt:180-190 | on a listing where another name sits between two versions of the target, the later version survives |
| `Application.App.DeleteAllFiles` | src/main/kotlin/dev/axolotl/bucket/Application.kt:166-191 | the delete requests issued are the deletion plan up to and including the first one that throws; it ends normally exactly when none throws; the bucket loses exactly the versions deleted before the failure; the disk is unchanged |
| `Application.DeleteVersions` | src/main/kotlin/dev/axolotl/bucket/Application.kt:180-190 | the loop on the bucket value, where the backend may reject any single delete request: it ends normally exactly when no request of the plan throws; it issues the plan up to and including the first failing request; the earlier deletions stay in the bucket |
| `Application.FirstFailureFrom` | src/main/kotlin/dev/axolotl/bucket/Application.kt:185 | the index of the first delete request that throws (service down or request rejected): every earlier request succeeds, and the one there fails |
| `Application.AcceptedDeletesAll` | src/main/kotlin/dev/axolotl/bucket/Application.kt:180-190 | when the service answers and accepts every request, no delete fails, so the whole plan is deleted |
| `Routing.HandleAuthorization` | src/main/kotlin/dev/axolotl/bucket/plugins/Routing.kt:29-38 | access is granted exactly when the header is present and equals `apiKey` (writing nothing); otherwise 400 "API Key invalid" |
| `Routes.CachePathParts` | src/main/kotlin/dev/axolotl/bucket/routes/PutPackRoute.kt:66 | for a hash without `/`, `cache/<hash>.zip` denotes itself, lies directly in `cache`, and its upload name is `packs/<hash>.zip` |
| `Routes.StageSinglePart` | src/main/kotlin/dev/axolotl/bucket/routes/PutPackRoute.kt:35-53 | one file part with a plain name is written to `uploads/<name>` stamped `now`, after the uploads folder is created when it is missing, and `name` becomes that name |
| `Routes.StageEmptyNameFails` | src/main/kotlin/dev/axolotl/bucket/routes/PutPackRoute.kt:37-50 | a file part named `""` denotes the uploads folder itself; its output stream throws and the upload ends with an I/O error before any reply |
| `Routes.PutPack` | src/main/kotlin/dev/axolotl/bucket/routes/PutPackRoute.kt:24-84 | without the key: 400 and nothing else. Otherwise the staged file is the entry `uploads/<name>` resolves to, and a missing one is an I/O error. The reply is its checksum, sent even when later steps fail. An existing `cache/<hash>.zip` means no move and no remote call. A missing `cache` folder makes the move throw after the reply. Otherwise the file moves into the cache and is uploaded exactly once as `packs/<hash>.zip`; the bucket stores it iff the service answers |
| `Routes.GetPack` | src/main/kotlin/dev/axolotl/bucket/routes/GetPackRoute.kt:16-56 | with the download name corrected to `packs/<hash>.zip` (see Findings). No hash: 400 "Need file hash", no remote call, no disk change. The cache folder then exists. When the entry `cache/<hash>.zip` resolves to exists, it is served with no remote call. A miss looks up `packs/<hash>.zip`: missing gives 404, not an upload gives 500, otherwise one download into the cache and the bytes are served; a failed download (including one the backend rejects after the lookup succeeded) or a failed write gives 404 |
| `Routes.GetModFolder` | src/main/kotlin/dev/axolotl/bucket/routes/GetModFolder.kt:15-42 | without the key: 400 and nothing else; a stale `modfolder.zip` is deleted before the existence check; a remaining file is served with no remote call, and a file served that way was not stale; otherwise exactly one download of `modfolder.zip`, then it is served, and a failed download (service down, file missing, or the request rejected) escapes |
| `Routes.AsWrittenDownloadMissesPack` | src/main/kotlin/dev/axolotl/bucket/routes/GetPackRoute.kt:44 | the name passed to `downloadFile`, `<hash>.zip`, is never a name the proxy stores, so that download always throws |
| `Routes.AsWrittenFetchFails` | src/main/kotlin/dev/axolotl/bucket/routes/GetPackRoute.kt:36-44 | on a bucket holding `packs/ab.zip`, the info lookup succeeds with isUpload but the download of `ab.zip` fails, while `packs/ab.zip` downloads |
| `Routes.RepeatedUpload` | src/main/kotlin/dev/axolotl/bucket/routes/PutPackRoute.kt:59-71 | the same bytes uploaded twice under a plain name get the same hash reply; exactly one upload request reaches the bucket when the pack was not cached before, and none when it was |
| `Routes.UploadThenFetch` | src/main/kotlin/dev/axolotl/bucket/routes/GetPackRoute.kt:33-49 | a pack just uploaded under a plain name is served from the cache with its bytes, and the fetch issues no remote request |
| `Routes.SweepThenFetch` | src/main/kotlin/dev/axolotl/bucket/routes/GetPackRoute.kt:35-49 | with the download name corrected to `packs/<hash>.zip` (see Findings): after the sweep evicts a pack, fetching it issues one info request and one download and serves the committed bytes |
| `Routes.FetchOutsideCache` | src/main/kotlin/dev/axolotl/bucket/routes/GetPackRoute.kt:17-49 | `GET /v1/pack?hash=../modfolder` serves `modfolder.zip` from the working directory with no API key, no remote request and no disk change |

## Left out

- The SHA-1 compression function: the digest is a function parameter on byte sequences.
- The B2 SDK internals (multipart large uploads, retries, authorisation, SHA-1 verification of downloads). The bucket keeps only the current version per name, and deleting that version removes the name.
- A failed download leaves no partial file behind.
- Routes.GetPack: uses the corrected download name `packs/<hash>.zip`. As written, the pack route downloads `<hash>.zip` and answers 404 on every cache miss of an uploaded pack (`Routes.AsWrittenDownloadMissesPack`).
- Routes.SweepThenFetch: holds for the corrected `Routes.GetPack` only. The program as written answers 404 on this input.
- LocalFs.Resolve: a path that climbs out of the working directory (`uploads/../../x`) fails in the model, while the operating system would open a file outside it. Symbolic links are not modelled.
- Application.App.UploadFile: a failed upload comes only from an unreachable service; other per-request errors of the upload are not modelled.
- The listing request of `deleteAllFiles`: the versions it yields are a parameter, and a failure while paging through them is not modelled.
- The `isInitialized` guards in `uploadFile`, `downloadFile` and `deleteAllFiles`: `main` creates the client before the server starts, so the guards never fire while requests are served.
- Threads, the executor pool, `Thread.sleep` and the infinite loop of `cacheTask`: the model takes one pass over one walk.
- Application.App.CacheSweep: uses one clock reading per pass, while the source reads the clock once per file.
- Concurrency between requests and the sweep (races on the same hash, a file vanishing mid-serve).
- 64-bit overflow of `lastModified + cachePeriod*1000` and the 32-bit range of `cachePeriod`: integers are unbounded.
- Short reads: `Checksum.Read` returns full 1024-byte chunks until the last one. The checksum does not depend on chunk sizes.
- I/O errors while reading a file that exists: the staged file's bytes are read in one piece.
- The progress percentage (floating point), timing measurements and `println` logging.
- `main`, loading and creating the JSON config, and the `ApplicationConfig` fields other than `apiKey` and `cachePeriod`.
- Ktor multipart parsing: the body is given as a list of parts. Content types of responses.
- The route-tree wiring and the ping route.

## Findings

| source | as written | input that shows it | evidently intended | confidence | as-written member | corrected member |
|---|---|---|---|---|---|---|
| src/main/kotlin/dev/axolotl/bucket/routes/GetPackRoute.kt:44 | on a cache miss, `downloadFile(fileName, cachedFile)` downloads `<hash>.zip`, while the upload stored `packs/<hash>.zip` and line 36 looked up `packs/<hash>.zip` | a pack uploaded through `PUT /v1/pack` (the bucket holds `packs/ab.zip`) whose cache entry was evicted: the lookup succeeds, but the download of `ab.zip` throws, so the answer is 404 "World not found" | download `packs/<hash>.zip`, the name that was uploaded and checked | medium; not executed | `Routes.AsWrittenDownloadMissesPack` | `Routes.GetPack` |
