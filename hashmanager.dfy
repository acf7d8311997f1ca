/** The hash manager: where a file is stored on disk by its hashes, the
    loop that copies a repository's files there, and its set-up checks.
    The filesystem (stat, directory creation, copying) is a parameter. */
module HashManagers {
  import opened Wrappers
  import opened Paths
  import Strings
  import Configuration
  import Statements

  /** A file's hashes, the Go `[3]string` in its order. */
  datatype Hashes = Hashes(sha1: string, sha256: string, md5: string)

  /** Hashes long enough for GetPathToHash to slice. */
  predicate ValidHashes(h: Hashes) {
    |h.sha1| >= 2 && |h.sha256| >= 2 && |h.md5| >= 2
  }

  class HashManager {
    var hashesPath: string
    var db: Statements.DB?

    /** The zero value. */
    constructor ()
      ensures hashesPath == "" && db == null
    {
      hashesPath := "";
      db := null;
    }

    /** GetPathToHash: three directory levels named by the first two
        characters of the SHA1, SHA256 and MD5, then a file named by the
        SHA1 and SHA256. Slicing the first two characters panics on
        shorter hashes. */
    function GetPathToHash(hSHA1: string, hSHA256: string, hMD5: string): string
      reads this
      requires |hSHA1| >= 2 && |hSHA256| >= 2 && |hMD5| >= 2
    {
      PathToHash(hashesPath, Hashes(hSHA1, hSHA256, hMD5))
    }

    /** setHashesLocation: the path is kept only when the filesystem check
        (it exists, is a directory, is writable) passes. */
    method SetHashesLocation(path: string, checkDir: string -> Outcome) returns (err: Outcome)
      modifies this
      ensures err == checkDir(path)
      ensures err.Pass? ==> hashesPath == path
      ensures err.Fail? ==> hashesPath == old(hashesPath)
      ensures db == old(db)
    {
      err := checkDir(path);
      if err.Fail? {
        return;
      }
      hashesPath := path;
    }

    /** CopyAllFilesToHash: copy every file, in the map's (unspecified)
        order, and keep the entries whose copy stored a new file; the first
        copy error ends the loop. When it succeeds every entry's destination
        exists afterwards; the entries reported are ones whose destination
        was new, and for each new destination exactly one entry is reported,
        so of two files with equal hashes only the first visited is. */
    method CopyAllFilesToHash(pathRoot: string, pathsToHashes: map<string, Hashes>,
                              stored: set<string>, place: (string, string) -> Outcome)
      returns (r: Result<map<string, Hashes>>, stored': set<string>)
      requires forall p :: p in pathsToHashes ==> ValidHashes(pathsToHashes[p])
      ensures stored <= stored'
      ensures r.Ok? ==> CopiedEachOnce(hashesPath, pathRoot, pathsToHashes, stored, place, r.value, stored')
      ensures (forall p :: p in pathsToHashes ==>
                 place(Join([pathRoot, p]), PathToHash(hashesPath, pathsToHashes[p])).Pass?) ==> r.Ok?
      ensures r.Err? ==>
                exists p :: (&& p in pathsToHashes
                             && place(Join([pathRoot, p]), PathToHash(hashesPath, pathsToHashes[p])).Fail?
                             && r.msg == "error copying all files to hashes: "
                                         + place(Join([pathRoot, p]), PathToHash(hashesPath, pathsToHashes[p])).error)
    {
      ghost var dst := Dests(hashesPath, pathsToHashes);
      var copiedFiles: map<string, Hashes> := map[];
      var remaining := pathsToHashes.Keys;
      stored' := stored;
      assert DestsOf(dst, remaining) == {};
      while remaining != {}
        invariant CopyProgress(dst, stored, remaining, copiedFiles, stored')
        invariant forall p :: p in copiedFiles ==>
                    && p in pathsToHashes && copiedFiles[p] == pathsToHashes[p]
                    && place(Join([pathRoot, p]), dst[p]).Pass?
        decreases remaining
      {
        var path :| path in remaining;
        var hashes := pathsToHashes[path];
        var fullPath := Join([pathRoot, path]);
        var (copied, now) := CopyFileToHash(hashesPath, stored', place, fullPath, hashes);
        assert dst[path] == PathToHash(hashesPath, hashes);
        if copied.Err? {
          assert place(fullPath, dst[path]).Fail?;
          return Err("error copying all files to hashes: " + copied.msg), stored';
        }
        if copied.value {
          assert dst[path] !in stored' && now == stored' + {dst[path]};
          assert place(fullPath, dst[path]).Pass?;
          CopyStepStored(dst, stored, remaining, copiedFiles, stored', path, hashes);
          copiedFiles := copiedFiles[path := hashes];
        } else {
          assert dst[path] in stored' && now == stored';
          CopyStepSkipped(dst, stored, remaining, copiedFiles, stored', path);
        }
        remaining := remaining - {path};
        stored' := now;
      }
      CopyDone(hashesPath, pathRoot, pathsToHashes, stored, place, copiedFiles, stored');
      return Ok(copiedFiles), stored';
    }
  }

  /** Where a hash manager located at `root` stores a file with these
      hashes (GetPathToHash). */
  function PathToHash(root: string, h: Hashes): string
    requires ValidHashes(h)
  {
    Join([root, h.sha1[..2], h.sha256[..2], h.md5[..2], h.sha1 + "." + h.sha256])
  }

  /** CopyFileToHash, for a hash manager located at `root`, the files
      under it being the set `stored` of paths that exist: a destination
      that exists already means no copy and `false`; otherwise `place`
      creates the directory and copies the source there, as one step that
      passes or fails with its error, and a copy made means `true`. */
  function CopyFileToHash(root: string, stored: set<string>, place: (string, string) -> Outcome,
                          srcPath: string, h: Hashes): (r: (Result<bool>, set<string>))
    requires ValidHashes(h)
    ensures r.0 == Ok(true) <==> PathToHash(root, h) !in stored && place(srcPath, PathToHash(root, h)).Pass?
    ensures r.0 == Ok(false) <==> PathToHash(root, h) in stored
    ensures r.0.Err? ==> r.0.msg == place(srcPath, PathToHash(root, h)).error && r.1 == stored
    ensures r.0.Ok? ==> r.1 == stored + {PathToHash(root, h)}
  {
    var dst := PathToHash(root, h);
    if dst in stored then (Ok(false), stored)
    else
      match place(srcPath, dst)
      case Fail(e) => (Err(e), stored)
      case Pass => (Ok(true), stored + {dst})
  }

  /** Once CopyFileToHash has stored a file, copying any file with the
      same hashes finds its destination and copies nothing. */
  lemma CopyFileToHashOnce(root: string, stored: set<string>, place: (string, string) -> Outcome,
                           srcPath: string, srcPath': string, h: Hashes)
    requires ValidHashes(h)
    requires CopyFileToHash(root, stored, place, srcPath, h).0.Ok?
    ensures var after := CopyFileToHash(root, stored, place, srcPath, h).1;
            CopyFileToHash(root, after, place, srcPath', h) == (Ok(false), after)
  {
  }

  /** Each key's destination. */
  ghost function Dests(root: string, m: map<string, Hashes>): (dst: map<string, string>)
    requires forall p :: p in m ==> ValidHashes(m[p])
    ensures dst.Keys == m.Keys
    ensures forall p :: p in m ==> dst[p] == PathToHash(root, m[p])
  {
    map p | p in m :: PathToHash(root, m[p])
  }

  /** The destinations, under `dst`, of the keys not in `left`. */
  ghost function DestsOf(dst: map<string, string>, left: set<string>): set<string>
  {
    set p | p in dst && p !in left :: dst[p]
  }

  /** What holds after CopyAllFilesToHash has visited the keys of `dst`
      not in `remaining`, `dst` giving each key's destination: `cur` is
      what was `stored` plus the visited destinations, and the keys
      reported in `copied` are visited, had new and distinct destinations,
      and cover every new destination. */
  ghost predicate CopyProgress(dst: map<string, string>, stored: set<string>, remaining: set<string>,
                               copied: map<string, Hashes>, cur: set<string>)
  {
    && remaining <= dst.Keys
    && cur == stored + DestsOf(dst, remaining)
    && (forall p :: p in copied ==> p in dst && p !in remaining && dst[p] !in stored && dst[p] in cur)
    && (forall p, q :: p in copied && q in copied && dst[p] == dst[q] ==> p == q)
    && (forall x :: x in cur && x !in stored ==> exists q :: q in copied && dst[q] == x)
  }

  /** Visiting one more key adds its destination to DestsOf. */
  lemma DestsOfStep(dst: map<string, string>, remaining: set<string>, path: string)
    requires path in remaining && path in dst
    ensures DestsOf(dst, remaining - {path}) == DestsOf(dst, remaining) + {dst[path]}
  {
  }

  /** A copy that finds its destination stored keeps CopyProgress. */
  lemma CopyStepSkipped(dst: map<string, string>, stored: set<string>, remaining: set<string>,
                        copied: map<string, Hashes>, cur: set<string>, path: string)
    requires CopyProgress(dst, stored, remaining, copied, cur)
    requires path in remaining && dst[path] in cur
    ensures CopyProgress(dst, stored, remaining - {path}, copied, cur)
  {
    DestsOfStep(dst, remaining, path);
  }

  /** A copy that stores a new file keeps CopyProgress, its key now
      reported. */
  lemma CopyStepStored(dst: map<string, string>, stored: set<string>, remaining: set<string>,
                       copied: map<string, Hashes>, cur: set<string>, path: string, h: Hashes)
    requires CopyProgress(dst, stored, remaining, copied, cur)
    requires path in remaining && dst[path] !in cur
    ensures CopyProgress(dst, stored, remaining - {path}, copied[path := h], cur + {dst[path]})
  {
    DestsOfStep(dst, remaining, path);
    forall x | x in cur + {dst[path]} && x !in stored
      ensures exists q :: q in copied[path := h] && dst[q] == x
    {
      if x == dst[path] {
        assert path in copied[path := h];
      } else {
        var q :| q in copied && dst[q] == x;
        assert q in copied[path := h];
      }
    }
  }

  /** What a successful CopyAllFilesToHash promises, for a hash manager
      at `root`: afterwards `cur` is what was `stored` plus every entry's
      destination; each entry reported in `copied` is an entry of `m`
      whose destination was new and whose copy passed; no two reported
      entries share a destination; and every new destination has a
      reported entry. */
  ghost predicate CopiedEachOnce(root: string, pathRoot: string, m: map<string, Hashes>, stored: set<string>,
                                 place: (string, string) -> Outcome, copied: map<string, Hashes>, cur: set<string>)
    requires forall p :: p in m ==> ValidHashes(m[p])
  {
    && cur == stored + (set p | p in m :: PathToHash(root, m[p]))
    && (forall p :: p in copied ==>
          && p in m && copied[p] == m[p]
          && PathToHash(root, m[p]) !in stored
          && place(Join([pathRoot, p]), PathToHash(root, m[p])).Pass?)
    && (forall p, q ::
          (&& p in copied && q in copied
           && PathToHash(root, m[p]) == PathToHash(root, m[q])) ==> p == q)
    && (forall p :: p in m && PathToHash(root, m[p]) !in stored ==>
          exists q :: q in copied && PathToHash(root, m[q]) == PathToHash(root, m[p]))
  }

  /** Once every key is visited, CopyProgress gives CopiedEachOnce. */
  lemma CopyDone(root: string, pathRoot: string, m: map<string, Hashes>, stored: set<string>,
                 place: (string, string) -> Outcome, copied: map<string, Hashes>, cur: set<string>)
    requires forall p :: p in m ==> ValidHashes(m[p])
    requires CopyProgress(Dests(root, m), stored, {}, copied, cur)
    requires forall p :: p in copied ==>
               && p in m && copied[p] == m[p] && place(Join([pathRoot, p]), Dests(root, m)[p]).Pass?
    ensures CopiedEachOnce(root, pathRoot, m, stored, place, copied, cur)
  {
    var dst := Dests(root, m);
    assert DestsOf(dst, {}) == set p | p in m :: PathToHash(root, m[p]);
    forall p | p in m && PathToHash(root, m[p]) !in stored
      ensures exists q :: q in copied && PathToHash(root, m[q]) == PathToHash(root, m[p])
    {
      assert dst[p] in DestsOf(dst, {});
      var q :| q in copied && dst[q] == dst[p];
      assert q in copied && PathToHash(root, m[q]) == PathToHash(root, m[p]);
    }
  }

  /** The stored file's name is the SHA1, a dot and the SHA256, and the
      directory it is stored in (the one CopyFileToHash creates) is the
      hashes path followed by the three two-character prefixes. */
  lemma PathToHashLayout(hm: HashManager, hSHA1: string, hSHA256: string, hMD5: string)
    requires |hSHA1| >= 2 && |hSHA256| >= 2 && |hMD5| >= 2
    requires '/' !in hSHA1 && '/' !in hSHA256
    ensures var dir := Join([hm.hashesPath, hSHA1[..2], hSHA256[..2], hMD5[..2]]);
            && hm.GetPathToHash(hSHA1, hSHA256, hMD5) == dir + "/" + hSHA1 + "." + hSHA256
            && Dir(hm.GetPathToHash(hSHA1, hSHA256, hMD5)) == dir
  {
    var dirElems := [hm.hashesPath, hSHA1[..2], hSHA256[..2], hMD5[..2]];
    var name := hSHA1 + "." + hSHA256;
    assert dirElems[1] != "";
    assert '/' !in name;
    DirOfJoin(dirElems, name);
    assert dirElems + [name] == [hm.hashesPath, hSHA1[..2], hSHA256[..2], hMD5[..2], name];
    assert Join(dirElems) + "/" + name == Join(dirElems) + "/" + hSHA1 + "." + hSHA256;
  }

  /** The shard directory is the directory of the first two prefixes
      followed by the MD5 prefix. */
  lemma ShardDir(root: string, s1: string, s2: string, m: string)
    requires s1 != "" && m != "" && '/' !in m
    ensures Join([root, s1, s2, m]) == Join([root, s1, s2]) + "/" + m
  {
    var pre := [root, s1, s2];
    assert pre[1] != "";
    DirOfJoin(pre, m);
    assert pre + [m] == [root, s1, s2, m];
  }

  /** The MD5 only chooses the last directory: two files with the same
      SHA1 and SHA256 get the same name, and the same path exactly when
      their MD5s start alike. */
  lemma PathToHashMd5(hm: HashManager, hSHA1: string, hSHA256: string, hMD5: string, hMD5': string)
    requires |hSHA1| >= 2 && |hSHA256| >= 2 && |hMD5| >= 2 && |hMD5'| >= 2
    requires '/' !in hSHA1 && '/' !in hSHA256 && '/' !in hMD5 && '/' !in hMD5'
    ensures hm.GetPathToHash(hSHA1, hSHA256, hMD5) == hm.GetPathToHash(hSHA1, hSHA256, hMD5')
            <==> hMD5[..2] == hMD5'[..2]
  {
    var root, s1, s2, m, m' := hm.hashesPath, hSHA1[..2], hSHA256[..2], hMD5[..2], hMD5'[..2];
    assert '/' !in m && '/' !in m';
    if hm.GetPathToHash(hSHA1, hSHA256, hMD5) == hm.GetPathToHash(hSHA1, hSHA256, hMD5') {
      PathToHashLayout(hm, hSHA1, hSHA256, hMD5);
      PathToHashLayout(hm, hSHA1, hSHA256, hMD5');
      ShardDir(root, s1, s2, m);
      ShardDir(root, s1, s2, m');
      Strings.CancelPrefix(Join([root, s1, s2]) + "/", m, m');
    }
  }

  /** PrepareHM: refuse a nil manager, a nil configuration or one without
      a repos location, and a nil database; then set the hashes location,
      and only then the database. The location tested is the configured
      repos location, while the one set is the hashes location. */
  method PrepareHM(hm: HashManager?, cfg: Configuration.Config?, db: Statements.DB?,
                   checkDir: string -> Outcome)
    returns (err: Outcome)
    modifies hm
    ensures hm == null ==> err == Fail("must pass non-nil HashManager")
    ensures hm != null && (cfg == null || cfg.reposLocation == "") ==>
              err == Fail("must pass config string") && unchanged(hm)
    ensures hm != null && cfg != null && cfg.reposLocation != "" && db == null ==>
              err == Fail("must prepare and pass database") && unchanged(hm)
    ensures hm != null && cfg != null && cfg.reposLocation != "" && db != null ==>
              && err == checkDir(cfg.hashesLocation)
              && (err.Pass? ==> hm.hashesPath == cfg.hashesLocation && hm.db == db)
              && (err.Fail? ==> hm.hashesPath == old(hm.hashesPath) && hm.db == old(hm.db))
  {
    if hm == null {
      return Fail("must pass non-nil HashManager");
    }
    if cfg == null || cfg.reposLocation == "" {
      return Fail("must pass config string");
    }
    if db == null {
      return Fail("must prepare and pass database");
    }
    err := hm.SetHashesLocation(cfg.hashesLocation, checkDir);
    if err.Fail? {
      return;
    }
    hm.db := db;
  }
}
