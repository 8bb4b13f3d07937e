/**
 * The helpers of `Application.kt` that the routes share: the periodic cache sweep
 * (`cacheTask`), the upload with its size-based strategy (`uploadFile`), the
 * download into a local file (`downloadFile`) and the clean-up of old remote
 * versions (`deleteAllFiles`).  The process-wide `lateinit` state (the B2 client
 * and bucket, the configuration) is the class `App`.
 */
module Application {
  import opened Common
  import opened LocalFs
  import opened B2

  /** `now >= lastModified + TimeUnit.SECONDS.toMillis(cachePeriod)`: the entry has outlived the cache period. */
  predicate Expired(lastModified: int, now: int, cachePeriod: int) {
    now >= lastModified + cachePeriod * 1000
  }

  /** Entries that `File("cache").walk()` visits: the folder itself and everything below it. */
  predicate InCacheTree(p: string) {
    p == "cache" || StartsWith(p, "cache/")
  }

  /** `walk` is what `File("cache").walk()` enumerates on `fs`: every entry of the cache tree, and nothing else. */
  predicate IsCacheWalk(fs: Fs, walk: seq<string>) {
    && (forall j :: 0 <= j < |walk| ==> walk[j] in fs && InCacheTree(walk[j]))
    && (forall p :: p in fs && InCacheTree(p) ==> p in walk)
  }

  /** Files of at least 100 MiB (integer MiB, as the source divides) use the large-file upload. */
  function ChooseStrategy(fileSizeInBytes: nat): (s: Strategy)
    ensures s == Large <==> fileSizeInBytes >= 104857600
  {
    var fileSizeInKB := fileSizeInBytes / 1024;
    var fileSizeInMB := fileSizeInKB / 1024;
    if fileSizeInMB >= 100 then Large else Small
  }

  // ---------------------------------------------------------------------------
  // deleteAllFiles

  /** The `continue` case: the version the caller wants to keep. */
  predicate Excepted(v: FileVersion, except: Option<FileVersion>) {
    except.Some? && v.fileId == except.value.fileId
  }

  /** The versions the loop of `deleteAllFiles` deletes, in listing order: it stops at the first other name. */
  function DeletionPlan(listing: seq<FileVersion>, name: string, except: Option<FileVersion>): seq<FileVersion> {
    if listing == [] then []
    else if Excepted(listing[0], except) then DeletionPlan(listing[1..], name, except)
    else if listing[0].fileName == name then [listing[0]] + DeletionPlan(listing[1..], name, except)
    else []
  }

  /** The order-independent reference: every listed version of `name` except the kept one. */
  function Matching(listing: seq<FileVersion>, name: string, except: Option<FileVersion>): seq<FileVersion> {
    if listing == [] then []
    else (if !Excepted(listing[0], except) && listing[0].fileName == name then [listing[0]] else [])
         + Matching(listing[1..], name, except)
  }

  /** Index of the first version that is neither kept nor named `name` (the `break`), or `|listing|`. */
  function FirstMismatch(listing: seq<FileVersion>, name: string, except: Option<FileVersion>): (k: nat)
    ensures k <= |listing|
    ensures forall j :: 0 <= j < k ==> Excepted(listing[j], except) || listing[j].fileName == name
    ensures k < |listing| ==> !Excepted(listing[k], except) && listing[k].fileName != name
  {
    if listing == [] then 0
    else if Excepted(listing[0], except) || listing[0].fileName == name
    then 1 + FirstMismatch(listing[1..], name, except)
    else 0
  }

  /** The kept version is never deleted. */
  lemma {:induction false} PlanSparesExcepted(listing: seq<FileVersion>, name: string, except: Option<FileVersion>)
    ensures forall v :: v in DeletionPlan(listing, name, except) ==> !Excepted(v, except)
  {
    if listing != [] {
      PlanSparesExcepted(listing[1..], name, except);
    }
  }

  /** Only versions whose name equals the target exactly are deleted. */
  lemma {:induction false} PlanDeletesOnlyName(listing: seq<FileVersion>, name: string, except: Option<FileVersion>)
    ensures forall v :: v in DeletionPlan(listing, name, except) ==> v.fileName == name
  {
    if listing != [] {
      PlanDeletesOnlyName(listing[1..], name, except);
    }
  }

  /** Nothing after the first other name is looked at: the plan is the reference on the prefix before it. */
  lemma {:induction false} PlanStopsAtFirstMismatch(listing: seq<FileVersion>, name: string, except: Option<FileVersion>)
    ensures DeletionPlan(listing, name, except)
         == Matching(listing[..FirstMismatch(listing, name, except)], name, except)
  {
    if listing != [] {
      var k := FirstMismatch(listing, name, except);
      if k == 0 {
        assert listing[..k] == [];
      } else {
        PlanStopsAtFirstMismatch(listing[1..], name, except);
        assert listing[..k][1..] == listing[1..][..k - 1];
      }
    }
  }

  /** Lexicographic order on names, the order in which B2 lists file versions. */
  predicate LexLe(a: string, b: string)
    decreases |a|
  {
    |a| == 0 || (|b| > 0 && (a[0] < b[0] || (a[0] == b[0] && LexLe(a[1..], b[1..]))))
  }

  /** A name that extends `a` never sorts at or before `a` unless it is `a`. */
  lemma {:induction false} ExtensionNotBelow(a: string, b: string)
    requires StartsWith(b, a)
    requires LexLe(b, a)
    ensures a == b
  {
    if |a| > 0 {
      assert b[0] == a[0];
      assert StartsWith(b[1..], a[1..]) by {
        assert b[1..][..|a| - 1] == b[..|a|][1..];
      }
      ExtensionNotBelow(a[1..], b[1..]);
      assert b == [b[0]] + b[1..];
      assert a == [a[0]] + a[1..];
    } else {
      assert |b| == 0;
    }
  }

  predicate SortedByName(listing: seq<FileVersion>) {
    forall i, j :: 0 <= i < j < |listing| ==> LexLe(listing[i].fileName, listing[j].fileName)
  }

  lemma {:induction false} MatchingNone(listing: seq<FileVersion>, name: string, except: Option<FileVersion>)
    requires forall j :: 0 <= j < |listing| ==> listing[j].fileName != name
    ensures Matching(listing, name, except) == []
  {
    if listing != [] {
      MatchingNone(listing[1..], name, except);
    }
  }

  /**
   * When the listing is what B2 returns for prefix `name` starting at `name`
   * (every name extends `name`, sorted by name), stopping at the first other
   * name loses nothing: every old version of `name` is deleted.
   */
  lemma {:induction false} SortedPlanDeletesAll(listing: seq<FileVersion>, name: string, except: Option<FileVersion>)
    requires SortedByName(listing)
    requires forall j :: 0 <= j < |listing| ==> StartsWith(listing[j].fileName, name)
    ensures DeletionPlan(listing, name, except) == Matching(listing, name, except)
  {
    if listing != [] {
      var v := listing[0];
      if Excepted(v, except) || v.fileName == name {
        SortedPlanDeletesAll(listing[1..], name, except);
      } else {
        var rest := listing[1..];
        forall j | 0 <= j < |rest| ensures rest[j].fileName != name {
          if rest[j].fileName == name {
            assert LexLe(v.fileName, listing[j + 1].fileName);
            ExtensionNotBelow(name, v.fileName);
          }
        }
        MatchingNone(rest, name, except);
      }
    }
  }

  /** Without that ordering the stop condition is unsafe: a later version of the same name survives. */
  lemma UnorderedListingLeavesVersion()
    ensures var listing := [FileVersion(1, "packs/a.zip"), FileVersion(2, "packs/a.zip.old"), FileVersion(3, "packs/a.zip")];
            DeletionPlan(listing, "packs/a.zip", None) == [listing[0]]
            && Matching(listing, "packs/a.zip", None) == [listing[0], listing[2]]
  {
  }

  /** The bucket after each version of `vs` is deleted in turn. */
  function RemoveAll(b: Bucket, vs: seq<FileVersion>): Bucket
    decreases |vs|
  {
    if vs == [] then b else Remove(RemoveAll(b, vs[..|vs| - 1]), vs[|vs| - 1])
  }

  /** The delete requests for `vs`, in order. */
  function DeleteCalls(vs: seq<FileVersion>): seq<Call>
    decreases |vs|
  {
    if vs == [] then [] else DeleteCalls(vs[..|vs| - 1]) + [DeleteCall(vs[|vs| - 1])]
  }

  /** Whether the `j`-th delete request of one `deleteAllFiles` call throws: the service is down or rejects it. */
  predicate DeleteFails(b: Bucket, rejects: nat -> bool, j: nat) {
    !b.reachable || rejects(j)
  }

  /** The first of the delete requests `j` to `n - 1` that throws, or `n` when none does. */
  function FirstFailureFrom(b: Bucket, rejects: nat -> bool, j: nat, n: nat): (k: nat)
    requires j <= n
    decreases n - j
    ensures j <= k <= n
    ensures forall i :: j <= i < k ==> !DeleteFails(b, rejects, i)
    ensures k < n ==> DeleteFails(b, rejects, k)
  {
    if j == n then n
    else if DeleteFails(b, rejects, j) then j
    else FirstFailureFrom(b, rejects, j + 1, n)
  }

  /** When the service answers and accepts every request, none of the `n` deletions fails. */
  lemma {:induction false} AcceptedDeletesAll(b: Bucket, rejects: nat -> bool, j: nat, n: nat)
    requires j <= n
    requires b.reachable && forall i :: j <= i < n ==> !rejects(i)
    ensures FirstFailureFrom(b, rejects, j, n) == n
    decreases n - j
  {
    if j < n {
      AcceptedDeletesAll(b, rejects, j + 1, n);
    }
  }

  /** The loop proof's step at position `i`: `DeletionPlan` unfolded once on `listing[i..]`. */
  lemma PlanStep(listing: seq<FileVersion>, i: nat, name: string, except: Option<FileVersion>)
    requires i < |listing|
    ensures DeletionPlan(listing[i..], name, except)
         == if Excepted(listing[i], except) then DeletionPlan(listing[i + 1..], name, except)
            else if listing[i].fileName == name then [listing[i]] + DeletionPlan(listing[i + 1..], name, except)
            else []
  {
    assert listing[i..][1..] == listing[i + 1..];
  }

  /**
   * The loop proof's view of the plan when `v` is the next request after `deleted`:
   * the requests issued so far and the versions deleted so far are prefixes of it.
   */
  lemma NextInPlan(plan: seq<FileVersion>, deleted: seq<FileVersion>, v: FileVersion, rest: seq<FileVersion>)
    requires plan == deleted + ([v] + rest)
    ensures |deleted| < |plan|
    ensures plan[..|deleted|] == deleted
    ensures plan[..|deleted| + 1] == deleted + [v]
    ensures plan == (deleted + [v]) + rest
  {
    assert plan[..|deleted|] == deleted;
  }

  /** The loop proof's bookkeeping after the delete request for `v`: bucket and request log grow by one step. */
  lemma DeletedOneMore(b: Bucket, deleted: seq<FileVersion>, v: FileVersion)
    ensures RemoveAll(b, deleted + [v]) == Remove(RemoveAll(b, deleted), v)
    ensures DeleteCalls(deleted + [v]) == DeleteCalls(deleted) + [DeleteCall(v)]
  {
    assert (deleted + [v])[..|deleted|] == deleted;
  }

  // ---------------------------------------------------------------------------
  // The process state

  class App {
    /** `config.apiKey`. */
    const apiKey: string
    /** `config.cachePeriod`, in seconds. */
    const cachePeriod: int
    /** The working directory of the process. */
    var fs: Fs
    /** The bucket behind `b2Client` and `bucket`. */
    var bucket: Bucket
    /** Every SDK request issued, in order. */
    ghost var calls: seq<Call>

    constructor (apiKey: string, cachePeriod: int, fs: Fs, bucket: Bucket)
      ensures this.apiKey == apiKey && this.cachePeriod == cachePeriod
      ensures this.fs == fs && this.bucket == bucket && calls == []
    {
      this.apiKey := apiKey;
      this.cachePeriod := cachePeriod;
      this.fs := fs;
      this.bucket := bucket;
      calls := [];
    }

    /**
     * One pass of `cacheTask` over the walk of the cache folder at clock reading
     * `now`: a file is deleted exactly when it has expired; directories, fresh
     * files and everything outside the cache folder stay as they were.
     */
    method CacheSweep(walk: seq<string>, now: int)
      requires IsCacheWalk(fs, walk)
      modifies this
      ensures bucket == old(bucket) && calls == old(calls)
      ensures forall p :: p in fs ==> p in old(fs) && fs[p] == old(fs)[p]
      ensures forall p :: p in old(fs) ==>
        (p !in fs <==> InCacheTree(p) && old(fs)[p].File? && Expired(old(fs)[p].lastModified, now, cachePeriod))
    {
      for i := 0 to |walk|
        invariant bucket == old(bucket) && calls == old(calls)
        invariant forall p :: p in fs ==> p in old(fs) && fs[p] == old(fs)[p]
        invariant forall p :: p in old(fs) ==>
          (p !in fs <==> p in walk[..i] && old(fs)[p].File? && Expired(old(fs)[p].lastModified, now, cachePeriod))
      {
        var it := walk[i];
        assert walk[..i + 1] == walk[..i] + [it];
        if IsDirectory(fs, it) {
          continue;
        }
        var lastModified := LastModified(fs, it) + cachePeriod * 1000;
        var shouldDelete := now >= lastModified;
        if !shouldDelete {
          continue;
        }
        fs := Delete(fs, it);
      }
      assert walk[..|walk|] == walk;
    }

    /**
     * `uploadFile(file)`: exactly one upload request, under `packs/<file name>`,
     * with the strategy chosen by the file's size.  `false` is the `B2Exception`.
     */
    method UploadFile(file: string) returns (uploaded: bool)
      requires IsFile(fs, file)
      modifies this
      ensures fs == old(fs)
      ensures var content := old(fs)[file].content;
              var name := "packs/" + Name(file);
              && calls == old(calls) + [UploadCall(ChooseStrategy(|content|), name, content)]
              && uploaded == old(bucket).reachable
              && bucket == (if uploaded then Store(old(bucket), name, content) else old(bucket))
    {
      var source := fs[file].content;
      var name := "packs/" + Name(file);
      var fileSizeInBytes := |source|;
      var strategy := ChooseStrategy(fileSizeInBytes);
      calls := calls + [UploadCall(strategy, name, source)];
      var fileVersion := Upload(bucket, name, source);
      if fileVersion.None? {
        return false;
      }
      bucket := fileVersion.value;
      uploaded := true;
    }

    /**
     * `downloadFile(fileName, output)`: one download request, which the backend
     * may reject (`rejected`: a transient error, or a file gone since it was
     * looked up); the bytes are written to the entry `output` resolves to (`None`
     * when it does not resolve), stamped `now`.  `false` is the `B2Exception`,
     * which also covers a local write failure of the content handler; the disk is
     * then unchanged.
     */
    method DownloadFile(fileName: string, output: Option<string>, now: int, rejected: bool) returns (ok: bool)
      modifies this
      ensures bucket == old(bucket)
      ensures calls == old(calls) + [DownloadCall(fileName)]
      ensures var d := if rejected then None else Download(old(bucket), fileName);
              && ok == (d.Some? && output.Some? && Write(old(fs), output.value, d.value, now).Some?)
              && fs == (if ok then old(fs)[output.value := File(d.value, now)] else old(fs))
    {
      calls := calls + [DownloadCall(fileName)];
      var received := if rejected then None else Download(bucket, fileName);
      if received.None? || output.None? {
        return false;
      }
      var written := Write(fs, output.value, received.value, now);
      if written.None? {
        return false;
      }
      fs := written.value;
      ok := true;
    }

    /**
     * `deleteAllFiles(fileNameToDelete, exceptFileVersion)` over the versions that
     * `fileVersions` lists, where `rejects(j)` says whether the backend throws on
     * the `j`-th delete request: the requests issued are `DeletionPlan` up to and
     * including the first that throws, and the versions before it stay deleted.
     */
    method DeleteAllFiles(fileNameToDelete: string, exceptFileVersion: Option<FileVersion>,
                          listing: seq<FileVersion>, rejects: nat -> bool)
      returns (ok: bool)
      modifies this
      ensures fs == old(fs)
      ensures var plan := DeletionPlan(listing, fileNameToDelete, exceptFileVersion);
              ok == (FirstFailureFrom(old(bucket), rejects, 0, |plan|) == |plan|)
      ensures var plan := DeletionPlan(listing, fileNameToDelete, exceptFileVersion);
              var k := FirstFailureFrom(old(bucket), rejects, 0, |plan|);
              calls == old(calls) + DeleteCalls(if ok then plan else plan[..k + 1])
      ensures var plan := DeletionPlan(listing, fileNameToDelete, exceptFileVersion);
              bucket == RemoveAll(old(bucket), plan[..FirstFailureFrom(old(bucket), rejects, 0, |plan|)])
    {
      var after;
      ghost var issued;
      ok, after, issued := DeleteVersions(bucket, fileNameToDelete, exceptFileVersion, listing, rejects);
      bucket := after;
      calls := calls + issued;
    }
  }

  /**
   * The loop of `deleteAllFiles` on the bucket value: whether it ran to its end,
   * the bucket it leaves and the requests it issues.  A `B2Exception` ends the
   * loop and leaves the earlier deletions in place.
   */
  method DeleteVersions(b: Bucket, name: string, except: Option<FileVersion>, listing: seq<FileVersion>,
                        rejects: nat -> bool)
    returns (ok: bool, after: Bucket, ghost issued: seq<Call>)
    ensures var plan := DeletionPlan(listing, name, except);
            ok == (FirstFailureFrom(b, rejects, 0, |plan|) == |plan|)
    ensures var plan := DeletionPlan(listing, name, except);
            var k := FirstFailureFrom(b, rejects, 0, |plan|);
            issued == DeleteCalls(if ok then plan else plan[..k + 1])
    ensures var plan := DeletionPlan(listing, name, except);
            after == RemoveAll(b, plan[..FirstFailureFrom(b, rejects, 0, |plan|)])
  {
    ghost var plan := DeletionPlan(listing, name, except);
    ghost var deleted: seq<FileVersion> := [];
    issued := [];
    after := b;
    var i := 0;
    var requests := 0;
    while i < |listing|
      invariant 0 <= i <= |listing|
      invariant requests == |deleted|
      invariant plan == deleted + DeletionPlan(listing[i..], name, except)
      invariant FirstFailureFrom(b, rejects, 0, |plan|) == FirstFailureFrom(b, rejects, |deleted|, |plan|)
      invariant issued == DeleteCalls(deleted)
      invariant after == RemoveAll(b, deleted)
      invariant after.reachable == b.reachable
    {
      var version := listing[i];
      PlanStep(listing, i, name, except);
      if Excepted(version, except) {
        i := i + 1;
        continue;
      }
      if version.fileName != name {
        break;
      }
      NextInPlan(plan, deleted, version, DeletionPlan(listing[i + 1..], name, except));
      DeletedOneMore(b, deleted, version);
      issued := issued + [DeleteCall(version)];
      var result := DeleteVersion(after, version, rejects(requests));
      if result.None? {
        return false, after, issued;
      }
      after := result.value;
      deleted := deleted + [version];
      requests := requests + 1;
      i := i + 1;
    }
    assert plan == deleted by {
      if i == |listing| {
        assert listing[i..] == [];
      }
    }
    ok := true;
  }
}
