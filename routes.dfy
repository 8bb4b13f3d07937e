/**
 * The request handlers of `routes/`: `PUT /v1/pack` (stage, hash, reply,
 * deduplicate, move into the cache, upload), `GET /v1/pack?hash=` (serve from the
 * cache or fetch from the bucket) and `GET /v1/modfolder` (the periodically
 * refreshed bundle).  The clock reading `now` and the digest algorithm are
 * parameters; a handler returns the response it sent, if any, and whether an
 * exception escaped it (the server then answers 500 if nothing was sent yet).
 */
module Routes {
  import opened Common
  import opened LocalFs
  import opened B2
  import opened Checksum
  import opened Application
  import opened Routing

  /** A part of the multipart body: a file item with its original file name, or any other part. */
  datatype Part = FileItem(originalFileName: Option<string>, content: seq<int8>) | OtherPart

  /** The exceptions that can escape a handler: the NPE of `!!`, an I/O error, an uncaught `B2Exception`. */
  datatype Fault = MissingFileName | IoFault | RemoteFault

  datatype Exit = Completed | Escaped(fault: Fault)

  /** The disk and the last file name after the `forEachPart` loop, or the fault that ended it. */
  datatype Staging = Staged(fs: Fs, name: Option<string>) | StagingFailed(fs: Fs, fault: Fault)

  /** The path string of `File("cache/$hash.zip")`. */
  function CachePath(hash: string): string {
    "cache/" + hash + ".zip"
  }

  /** The remote name of a pack, `packs/$hash.zip`. */
  function PackRemoteName(hash: string): string {
    "packs/" + hash + ".zip"
  }

  /** The path string of `File("uploads/$name")`, where a `null` name prints as "null". */
  function StagedPath(name: Option<string>): string {
    "uploads/" + (if name.Some? then name.value else "null")
  }

  const ModFolderName: string := "modfolder.zip"

  /** `call.respondFile(file)`: the bytes of a file; reading anything else throws. */
  function Serve(fs: Fs, p: string): (Option<Response>, Exit) {
    if IsFile(fs, p) then (Some(FileBody(fs[p].content)), Completed) else (None, Escaped(IoFault))
  }

  /**
   * A cache path built from a hash without `/` resolves to itself, lies directly
   * in the cache folder, and keeps the name.
   */
  lemma CachePathParts(fs: Fs, hash: string)
    requires NoSlash(hash)
    ensures Resolve(fs, CachePath(hash)) == Some(CachePath(hash))
    ensures Parent(CachePath(hash)) == "cache"
    ensures Name(CachePath(hash)) == hash + ".zip"
    ensures "packs/" + Name(CachePath(hash)) == PackRemoteName(hash)
  {
    var name := hash + ".zip";
    assert NoSlash(name) by {
      forall i | 0 <= i < |name| ensures name[i] != '/' {
        if i >= |hash| {
          assert name[i] == ".zip"[i - |hash|];
        }
      }
    }
    assert IsPlainSegment(name) by {
      assert |name| >= 4;
    }
    ResolvePlain(fs, "cache", name);
    PathParts("cache", name);
    assert "cache" + "/" + name == CachePath(hash);
    assert "packs/" + name == PackRemoteName(hash);
  }

  /** The `forEachPart` loop of the upload handler on disk `fs`, having seen file name `name` so far. */
  function StageParts(fs: Fs, parts: seq<Part>, name: Option<string>, now: int): Staging
    decreases |parts|
  {
    if parts == [] then Staged(fs, name)
    else match parts[0]
      case OtherPart => StageParts(fs, parts[1..], name, now)
      case FileItem(original, content) =>
        if original.None? then StagingFailed(fs, MissingFileName)
        else
          var fs1 := if Exists(fs, "uploads") then fs else Mkdir(fs, "uploads", now);
          var target := Resolve(fs1, "uploads/" + original.value);
          if target.None? then StagingFailed(fs1, IoFault)
          else match Write(fs1, target.value, content, now)
            case None => StagingFailed(fs1, IoFault)
            case Some(fs2) => StageParts(fs2, parts[1..], original, now)
  }

  /**
   * A single file part with a plain name is staged as `uploads/<name>`, stamped
   * `now`, the uploads folder being created first when it is missing.
   */
  lemma StageSinglePart(fs: Fs, name: string, content: seq<int8>, now: int)
    requires !IsFile(fs, "uploads")
    requires IsPlainSegment(name)
    requires !IsDirectory(fs, "uploads/" + name)
    ensures var fs1 := if Exists(fs, "uploads") then fs else Mkdir(fs, "uploads", now);
            StageParts(fs, [FileItem(Some(name), content)], None, now)
              == Staged(fs1["uploads/" + name := File(content, now)], Some(name))
  {
    var fs1 := if Exists(fs, "uploads") then fs else Mkdir(fs, "uploads", now);
    assert IsDirectory(fs1, "uploads");
    assert "uploads/" + name != "uploads" by {
      assert |"uploads/" + name| > |"uploads"|;
    }
    assert !IsDirectory(fs1, "uploads/" + name);
    ResolvePlain(fs1, "uploads", name);
    PathParts("uploads", name);
    assert "uploads" + "/" + name == "uploads/" + name;
    assert Write(fs1, "uploads/" + name, content, now) == Some(fs1["uploads/" + name := File(content, now)]);
    assert [FileItem(Some(name), content)][1..] == [];
  }

  /**
   * A file part whose original name is empty denotes `File("uploads/")`, the
   * uploads folder itself: its output stream throws and nothing is staged.
   */
  lemma StageEmptyNameFails(fs: Fs, content: seq<int8>, now: int)
    requires !IsFile(fs, "uploads")
    ensures var fs1 := if Exists(fs, "uploads") then fs else Mkdir(fs, "uploads", now);
            StageParts(fs, [FileItem(Some(""), content)], None, now) == StagingFailed(fs1, IoFault)
  {
    var fs1 := if Exists(fs, "uploads") then fs else Mkdir(fs, "uploads", now);
    assert IsDirectory(fs1, "uploads");
    WalkFirst(fs1, "", "uploads", "");
    WalkLast(fs1, "uploads", "");
    assert "uploads" + "/" + "" == "uploads/" + "";
  }

  /**
   * `putPackRoute`: after the key check, stage the parts, hash the staged file,
   * reply with the hash, and, unless `cache/<hash>.zip` exists, move the staged
   * file there and upload it once; a failed upload is swallowed and the cache
   * entry stays.
   */
  method PutPack(app: App, key: Option<string>, parts: seq<Part>, sha1: seq<int8> -> seq<int8>, now: int)
    returns (reply: Option<Response>, exit: Exit)
    modifies app
    ensures HandleAuthorization(key, app.apiKey).Denied? ==>
      && reply == Some(Text(400, "API Key invalid")) && exit == Completed
      && app.fs == old(app.fs) && app.bucket == old(app.bucket) && app.calls == old(app.calls)
    ensures HandleAuthorization(key, app.apiKey).Granted? ==>
      var staging := StageParts(old(app.fs), parts, None, now);
      staging.StagingFailed? ==>
        && reply == None && exit == Escaped(staging.fault)
        && app.fs == staging.fs && app.bucket == old(app.bucket) && app.calls == old(app.calls)
    ensures HandleAuthorization(key, app.apiKey).Granted? ==>
      var staging := StageParts(old(app.fs), parts, None, now);
      staging.Staged? ==>
      var staged := Resolve(staging.fs, StagedPath(staging.name));
      !(staged.Some? && IsFile(staging.fs, staged.value)) ==>
        && reply == None && exit == Escaped(IoFault)
        && app.fs == staging.fs && app.bucket == old(app.bucket) && app.calls == old(app.calls)
    ensures HandleAuthorization(key, app.apiKey).Granted? ==>
      var staging := StageParts(old(app.fs), parts, None, now);
      staging.Staged? ==>
      var staged := Resolve(staging.fs, StagedPath(staging.name));
      staged.Some? && IsFile(staging.fs, staged.value) ==>
        var content := staging.fs[staged.value].content;
        var hash := HexString(sha1(content));
        var cached := CachePath(hash);
        && reply == Some(Text(200, hash))
        && (Exists(staging.fs, cached) ==>
              exit == Completed && app.fs == staging.fs && app.bucket == old(app.bucket) && app.calls == old(app.calls))
        && (!Exists(staging.fs, cached) && !IsDirectory(staging.fs, "cache") ==>
              exit == Escaped(IoFault) && app.fs == staging.fs && app.bucket == old(app.bucket) && app.calls == old(app.calls))
        && (!Exists(staging.fs, cached) && IsDirectory(staging.fs, "cache") ==>
              && exit == Completed
              && app.fs == (staging.fs - {staged.value})[cached := staging.fs[staged.value]]
              && app.calls == old(app.calls) + [UploadCall(ChooseStrategy(|content|), PackRemoteName(hash), content)]
              && app.bucket == (if old(app.bucket).reachable then Store(old(app.bucket), PackRemoteName(hash), content)
                                else old(app.bucket)))
  {
    var auth := HandleAuthorization(key, app.apiKey);
    if auth.Denied? {
      return Some(auth.response), Completed;
    }
    var name: Option<string> := None;
    var i := 0;
    while i < |parts|
      invariant 0 <= i <= |parts|
      invariant StageParts(old(app.fs), parts, None, now) == StageParts(app.fs, parts[i..], name, now)
      invariant app.bucket == old(app.bucket) && app.calls == old(app.calls)
    {
      assert parts[i..][1..] == parts[i + 1..];
      match parts[i] {
        case OtherPart =>
        case FileItem(original, content) =>
          if original.None? {
            return None, Escaped(MissingFileName);
          }
          name := original;
          if !Exists(app.fs, "uploads") {
            app.fs := Mkdir(app.fs, "uploads", now);
          }
          var file := Resolve(app.fs, "uploads/" + original.value);
          if file.None? {
            return None, Escaped(IoFault);
          }
          var written := Write(app.fs, file.value, content, now);
          if written.None? {
            return None, Escaped(IoFault);
          }
          app.fs := written.value;
      }
      i := i + 1;
    }
    var uploadedFile := Resolve(app.fs, StagedPath(name));
    if uploadedFile.None? || !IsFile(app.fs, uploadedFile.value) {
      // FileInputStream throws FileNotFoundException
      return None, Escaped(IoFault);
    }
    var uploadedFileHash := GetFileChecksum(sha1, app.fs[uploadedFile.value].content);
    reply := Some(Text(200, uploadedFileHash));
    assert NoSlash(uploadedFileHash) by {
      forall i | 0 <= i < |uploadedFileHash| ensures uploadedFileHash[i] != '/' {
        assert IsHexDigit(uploadedFileHash[i]);
      }
    }
    CachePathParts(app.fs, uploadedFileHash);
    var cachedFile := Resolve(app.fs, CachePath(uploadedFileHash));
    if Exists(app.fs, cachedFile.value) {
      return reply, Completed;
    }
    var moved := Move(app.fs, uploadedFile.value, cachedFile.value);
    if moved.None? {
      return reply, Escaped(IoFault);
    }
    app.fs := moved.value;
    var uploaded := app.UploadFile(cachedFile.value);  // a B2Exception is caught and logged
    exit := Completed;
  }

  /**
   * `getPackRoute`, with the download name corrected to `packs/<hash>.zip` (the
   * name the upload stores and the lookup asks for): a missing `hash` is a 400
   * with no other effect.  Otherwise the cache folder is created if absent; the
   * entry `cache/<hash>.zip` resolves to is served with no remote request when it
   * exists; on a miss the bucket is asked for `packs/<hash>.zip`, a version that
   * is not a finished upload is a 500 with no cache entry, and a finished one is
   * downloaded into the cache and served, unless the backend rejects that download
   * (`rejected`).  Every `B2Exception` is answered 404 "World not found".
   */
  method GetPack(app: App, fileHash: Option<string>, now: int, rejected: bool) returns (reply: Option<Response>, exit: Exit)
    modifies app
    ensures app.bucket == old(app.bucket)
    ensures fileHash.None? ==>
      && reply == Some(Text(400, "Need file hash")) && exit == Completed
      && app.fs == old(app.fs) && app.calls == old(app.calls)
    ensures fileHash.Some? ==> Exists(app.fs, "cache")
    ensures fileHash.Some? ==>
      var fs1 := if Exists(old(app.fs), "cache") then old(app.fs) else Mkdir(old(app.fs), "cache", now);
      var cached := Resolve(fs1, CachePath(fileHash.value));
      cached.Some? && Exists(fs1, cached.value) ==>
        app.calls == old(app.calls) && app.fs == fs1 && (reply, exit) == Serve(fs1, cached.value)
    ensures fileHash.Some? ==>
      var fs1 := if Exists(old(app.fs), "cache") then old(app.fs) else Mkdir(old(app.fs), "cache", now);
      var cached := Resolve(fs1, CachePath(fileHash.value));
      var remote := PackRemoteName(fileHash.value);
      var info := FileInfo(old(app.bucket), remote);
      !(cached.Some? && Exists(fs1, cached.value)) && (info.None? || !info.value.isUpload) ==>
        && app.calls == old(app.calls) + [InfoCall(remote)] && app.fs == fs1 && exit == Completed
        && reply == Some(if info.None? then Text(404, "World not found") else Text(500, "File is not listed as uploaded"))
    ensures fileHash.Some? ==>
      var fs1 := if Exists(old(app.fs), "cache") then old(app.fs) else Mkdir(old(app.fs), "cache", now);
      var cached := Resolve(fs1, CachePath(fileHash.value));
      var remote := PackRemoteName(fileHash.value);
      var info := FileInfo(old(app.bucket), remote);
      var received := if rejected then None else Download(old(app.bucket), remote);
      !(cached.Some? && Exists(fs1, cached.value)) && info.Some? && info.value.isUpload ==>
        && app.calls == old(app.calls) + [InfoCall(remote), DownloadCall(remote)] && exit == Completed
        && (received.Some? && cached.Some? && Write(fs1, cached.value, received.value, now).Some? ==>
              app.fs == fs1[cached.value := File(received.value, now)] && reply == Some(FileBody(received.value)))
        && (!(received.Some? && cached.Some? && Write(fs1, cached.value, received.value, now).Some?) ==>
              app.fs == fs1 && reply == Some(Text(404, "World not found")))
  {
    if fileHash.None? {
      return Some(Text(400, "Need file hash")), Completed;
    }
    var fileName := fileHash.value + ".zip";
    if !Exists(app.fs, "cache") {
      app.fs := Mkdir(app.fs, "cache", now);
    }
    assert "cache/" + fileName == CachePath(fileHash.value);
    var cachedFile := Resolve(app.fs, "cache/" + fileName);
    if cachedFile.None? || !Exists(app.fs, cachedFile.value) {
      var remote := "packs/" + fileName;
      assert remote == PackRemoteName(fileHash.value);
      app.calls := app.calls + [InfoCall(remote)];
      var fileResult := FileInfo(app.bucket, remote);
      if fileResult.None? {
        return Some(Text(404, "World not found")), Completed;
      }
      if !fileResult.value.isUpload {
        return Some(Text(500, "File is not listed as uploaded")), Completed;
      }
      var downloaded := app.DownloadFile(remote, cachedFile, now, rejected);
      if !downloaded {
        return Some(Text(404, "World not found")), Completed;
      }
    }
    var served := Serve(app.fs, cachedFile.value);
    reply, exit := served.0, served.1;
  }

  /**
   * `getModFolderRoute`: after the key check, `modfolder.zip` is deleted when it
   * has outlived the cache period; a remaining file is served with no remote
   * request, otherwise it is downloaded once and served.  A failed download (the
   * backend rejects it when `rejected`) escapes the handler.
   */
  method GetModFolder(app: App, key: Option<string>, now: int, rejected: bool) returns (reply: Option<Response>, exit: Exit)
    modifies app
    ensures app.bucket == old(app.bucket)
    ensures HandleAuthorization(key, app.apiKey).Denied? ==>
      && reply == Some(Text(400, "API Key invalid")) && exit == Completed
      && app.fs == old(app.fs) && app.calls == old(app.calls)
    ensures HandleAuthorization(key, app.apiKey).Granted? ==>
      var stale := Expired(LastModified(old(app.fs), ModFolderName), now, app.cachePeriod);
      var fs1 := if stale then Delete(old(app.fs), ModFolderName) else old(app.fs);
      Exists(fs1, ModFolderName) ==>
        app.calls == old(app.calls) && app.fs == fs1 && (reply, exit) == Serve(fs1, ModFolderName)
    ensures HandleAuthorization(key, app.apiKey).Granted? ==>
      var stale := Expired(LastModified(old(app.fs), ModFolderName), now, app.cachePeriod);
      var fs1 := if stale then Delete(old(app.fs), ModFolderName) else old(app.fs);
      var received := if rejected then None else Download(old(app.bucket), ModFolderName);
      !Exists(fs1, ModFolderName) ==>
        && app.calls == old(app.calls) + [DownloadCall(ModFolderName)]
        && (received.Some? ==>
              app.fs == fs1[ModFolderName := File(received.value, now)]
              && reply == Some(FileBody(received.value)) && exit == Completed)
        && (received.None? ==> app.fs == fs1 && reply == None && exit == Escaped(RemoteFault))
    ensures HandleAuthorization(key, app.apiKey).Granted? && app.calls == old(app.calls) && exit == Completed ==>
      && IsFile(old(app.fs), ModFolderName)
      && !Expired(LastModified(old(app.fs), ModFolderName), now, app.cachePeriod)
  {
    var auth := HandleAuthorization(key, app.apiKey);
    if auth.Denied? {
      return Some(auth.response), Completed;
    }
    var file := ModFolderName;  // a plain name in the working directory, which resolves to itself
    var lastModified := LastModified(app.fs, file) + app.cachePeriod * 1000;
    if now >= lastModified {
      app.fs := Delete(app.fs, file);
    }
    if Exists(app.fs, file) {
      var served := Serve(app.fs, file);
      return served.0, served.1;
    }
    var downloaded := app.DownloadFile(file, Some(file), now, rejected);
    if !downloaded {
      return None, Escaped(RemoteFault);
    }
    var served := Serve(app.fs, file);
    reply, exit := served.0, served.1;
  }

  // ---------------------------------------------------------------------------
  // The download name of GetPackRoute.kt as written

  /** The name `getPackRoute` passes to `downloadFile` as written: the pack name without its folder. */
  function AsWrittenDownloadName(fileHash: string): string {
    fileHash + ".zip"
  }

  /** The bucket holds only names the proxy writes: packs under `packs/`, and the mod folder. */
  predicate ProxyNames(b: Bucket) {
    forall n :: n in b.files ==> n == ModFolderName || StartsWith(n, "packs/")
  }

  /**
   * For every hash the upload route can produce, the as-written download name is
   * not a name the proxy stores, so the download throws and the fetch of a pack
   * that is not cached ends in 404 "World not found".
   */
  lemma AsWrittenDownloadMissesPack(b: Bucket, hash: string)
    requires ProxyNames(b)
    requires forall i :: 0 <= i < |hash| ==> IsHexDigit(hash[i])
    ensures AsWrittenDownloadName(hash) != PackRemoteName(hash)
    ensures Download(b, AsWrittenDownloadName(hash)).None?
  {
    var n := AsWrittenDownloadName(hash);
    assert forall i :: 0 <= i < |n| ==> n[i] != '/' by {
      forall i | 0 <= i < |n| ensures n[i] != '/' {
        if i >= |hash| {
          assert n[i] == ".zip"[i - |hash|];
        } else {
          assert IsHexDigit(hash[i]);
        }
      }
    }
    if |n| >= 6 {
      assert n[..6][5] == n[5] != '/';
    }
    assert !StartsWith(n, "packs/");
    assert PackRemoteName(hash)[5] == '/';
    assert |hash| == 9 ==> n[0] == hash[0] && IsHexDigit(hash[0]);
    assert n != ModFolderName;
  }

  /** A concrete bucket on which the as-written fetch finds the pack listed but cannot download it. */
  lemma AsWrittenFetchFails()
    ensures var b := Bucket(map[PackRemoteName("ab") := RemoteFile(0, [1], true)], true, 1);
            && FileInfo(b, PackRemoteName("ab")).Some? && FileInfo(b, PackRemoteName("ab")).value.isUpload
            && Download(b, AsWrittenDownloadName("ab")).None?
            && Download(b, PackRemoteName("ab")) == Some([1])
  {
    assert AsWrittenDownloadName("ab") != PackRemoteName("ab") by {
      assert AsWrittenDownloadName("ab")[0] == 'a';
    }
  }

  // ---------------------------------------------------------------------------
  // Clients: what a sequence of requests achieves

  /** On every disk, `uploads/<name>` for a plain name resolves to itself. */
  lemma StagedResolves(name: string)
    requires IsPlainSegment(name)
    ensures forall fs: Fs :: Resolve(fs, "uploads/" + name) == Some("uploads/" + name)
  {
    forall fs: Fs ensures Resolve(fs, "uploads/" + name) == Some("uploads/" + name) {
      ResolvePlain(fs, "uploads", name);
      assert "uploads" + "/" + name == "uploads/" + name;
    }
  }

  /**
   * Uploading the same bytes twice gives the same hash both times; the first
   * upload reaches the bucket exactly when the pack was not cached before, and
   * the second never does.
   */
  method RepeatedUpload(app: App, name: string, bytes: seq<int8>, sha1: seq<int8> -> seq<int8>, now1: int, now2: int)
    returns (first: Option<Response>, second: Option<Response>)
    requires IsDirectory(app.fs, "uploads") && IsDirectory(app.fs, "cache")
    requires IsPlainSegment(name)
    requires !IsDirectory(app.fs, "uploads/" + name)
    modifies app
    ensures first == second == Some(Text(200, HexString(sha1(bytes))))
    ensures Exists(old(app.fs), CachePath(HexString(sha1(bytes)))) ==> app.calls == old(app.calls)
    ensures var hash := HexString(sha1(bytes));
            !Exists(old(app.fs), CachePath(hash)) ==>
              app.calls == old(app.calls) + [UploadCall(ChooseStrategy(|bytes|), PackRemoteName(hash), bytes)]
    ensures Exists(app.fs, CachePath(HexString(sha1(bytes))))
  {
    var parts := [FileItem(Some(name), bytes)];
    var staged := "uploads/" + name;
    var hash := HexString(sha1(bytes));
    var cached := CachePath(hash);
    assert staged[0] == 'u' && cached[0] == 'c';
    assert staged != "uploads" && staged != "cache" && cached != "uploads" && staged != cached;
    StageSinglePart(app.fs, name, bytes, now1);
    StagedResolves(name);
    assert StagedPath(Some(name)) == staged;
    var exit1;
    first, exit1 := PutPack(app, Some(app.apiKey), parts, sha1, now1);
    ghost var afterFirst := app.calls;
    assert IsDirectory(app.fs, "uploads") && IsDirectory(app.fs, "cache") && Exists(app.fs, cached);
    assert !IsDirectory(app.fs, staged);
    StageSinglePart(app.fs, name, bytes, now2);
    var exit2;
    second, exit2 := PutPack(app, Some(app.apiKey), parts, sha1, now2);
    assert app.calls == afterFirst;
  }

  /** A pack just uploaded is served from the cache, with no further remote request. */
  method UploadThenFetch(app: App, name: string, bytes: seq<int8>, sha1: seq<int8> -> seq<int8>, now1: int, now2: int)
    returns (hash: string, served: Option<Response>)
    requires IsDirectory(app.fs, "uploads") && IsDirectory(app.fs, "cache")
    requires IsPlainSegment(name)
    requires !IsDirectory(app.fs, "uploads/" + name)
    requires !Exists(app.fs, CachePath(HexString(sha1(bytes))))
    modifies app
    ensures hash == HexString(sha1(bytes))
    ensures served == Some(FileBody(bytes))
    ensures app.calls == old(app.calls) + [UploadCall(ChooseStrategy(|bytes|), PackRemoteName(hash), bytes)]
  {
    var staged := "uploads/" + name;
    var cached := CachePath(HexString(sha1(bytes)));
    assert staged[0] == 'u' && cached[0] == 'c';
    assert staged != cached;
    StageSinglePart(app.fs, name, bytes, now1);
    StagedResolves(name);
    assert StagedPath(Some(name)) == staged;
    var reply, _ := PutPack(app, Some(app.apiKey), [FileItem(Some(name), bytes)], sha1, now1);
    hash := reply.value.body;
    assert NoSlash(hash) by {
      forall i | 0 <= i < |hash| ensures hash[i] != '/' {
        HexStringLowercase(sha1(bytes));
        assert IsHexDigit(hash[i]);
      }
    }
    CachePathParts(app.fs, hash);
    var exit;
    served, exit := GetPack(app, Some(hash), now2, false);
  }

  /**
   * Once the sweep has evicted a pack, fetching it again asks the bucket for it and
   * downloads it exactly once, serving the committed bytes (with the download
   * name corrected as in `GetPack`).
   */
  method SweepThenFetch(app: App, walk: seq<string>, hash: string, now: int) returns (served: Option<Response>)
    requires IsCacheWalk(app.fs, walk)
    requires IsDirectory(app.fs, "cache")
    requires NoSlash(hash)
    requires IsFile(app.fs, CachePath(hash)) && Expired(app.fs[CachePath(hash)].lastModified, now, app.cachePeriod)
    requires var b := app.bucket; b.reachable && PackRemoteName(hash) in b.files && b.files[PackRemoteName(hash)].isUpload
    modifies app
    ensures served == Some(FileBody(old(app.bucket).files[PackRemoteName(hash)].content))
    ensures app.calls == old(app.calls) + [InfoCall(PackRemoteName(hash)), DownloadCall(PackRemoteName(hash))]
  {
    var cached := CachePath(hash);
    assert InCacheTree(cached) by {
      assert cached[..6] == "cache/";
    }
    app.CacheSweep(walk, now);
    assert !Exists(app.fs, cached);
    assert IsDirectory(app.fs, "cache");
    CachePathParts(app.fs, hash);
    var exit;
    served, exit := GetPack(app, Some(hash), now, false);
  }

  /**
   * The pack route takes the hash as a path component unchecked and needs no API
   * key: `hash=../modfolder` names `cache/../modfolder.zip`, which resolves to the
   * bundle in the working directory, so the bundle is served with no key and no
   * remote request.
   */
  method FetchOutsideCache(app: App, now: int) returns (served: Option<Response>)
    requires IsDirectory(app.fs, "cache") && IsFile(app.fs, ModFolderName)
    modifies app
    ensures served == Some(FileBody(old(app.fs)[ModFolderName].content))
    ensures app.calls == old(app.calls) && app.fs == old(app.fs)
  {
    var hash := "../modfolder";
    assert CachePath(hash) == "cache" + "/../" + ModFolderName;
    ResolveUpAndOver(app.fs, "cache", ModFolderName);
    assert Exists(app.fs, "cache") && Exists(app.fs, ModFolderName);
    var exit;
    served, exit := GetPack(app, Some(hash), now, false);
  }
}
