/**
 * The remote backend, Backblaze B2, as the capability the proxy uses: a bucket
 * holding the current version of each file name, and the outcome of each SDK
 * call on it.  A `None` outcome is the `B2Exception` the SDK throws.
 */
module B2 {
  import opened Common

  /** `uploadSmallFile` (one request) or `uploadLargeFile` (parts on the executor pool). */
  datatype Strategy = Small | Large

  /** The current version of a remote file; `isUpload` is false for hide markers and unfinished large files. */
  datatype RemoteFile = RemoteFile(fileId: nat, content: seq<int8>, isUpload: bool)

  /** A `B2FileVersion` as `fileVersions` lists it. */
  datatype FileVersion = FileVersion(fileId: nat, fileName: string)

  /** One SDK request issued by the proxy. */
  datatype Call =
    | UploadCall(strategy: Strategy, name: string, content: seq<int8>)
    | InfoCall(name: string)
    | DownloadCall(name: string)
    | DeleteCall(version: FileVersion)

  /**
   * The bucket: the current version of every file name, whether the service
   * answers at all, and the file id the next upload receives.
   */
  datatype Bucket = Bucket(files: map<string, RemoteFile>, reachable: bool, nextId: nat)

  /** The bucket after a committed upload of `content` under `name`. */
  function Store(b: Bucket, name: string, content: seq<int8>): Bucket {
    b.(files := b.files[name := RemoteFile(b.nextId, content, true)], nextId := b.nextId + 1)
  }

  /** `uploadSmallFile` and `uploadLargeFile` leave the same bucket behind. */
  function Upload(b: Bucket, name: string, content: seq<int8>): Option<Bucket> {
    if b.reachable then Some(Store(b, name, content)) else None
  }

  /** `getFileInfoByName`: a name with no file is answered with a not-found exception. */
  function FileInfo(b: Bucket, name: string): Option<RemoteFile> {
    if b.reachable && name in b.files then Some(b.files[name]) else None
  }

  /** `downloadByName`: the bytes of the current uploaded version. */
  function Download(b: Bucket, name: string): Option<seq<int8>> {
    if b.reachable && name in b.files && b.files[name].isUpload then Some(b.files[name].content) else None
  }

  /** The bucket once `v` is gone; a version that is not current leaves the current one in place. */
  function Remove(b: Bucket, v: FileVersion): Bucket {
    if v.fileName in b.files && b.files[v.fileName].fileId == v.fileId
    then b.(files := b.files - {v.fileName})
    else b
  }

  /**
   * `deleteFileVersion`: `rejected` is the backend's answer to this one request
   * (a transient error, or a version that is already gone); an unreachable
   * service throws too.
   */
  function DeleteVersion(b: Bucket, v: FileVersion, rejected: bool): Option<Bucket> {
    if b.reachable && !rejected then Some(Remove(b, v)) else None
  }
}
