/** The repo manager: where a tracked GitHub repository lives on disk and
    where it is fetched from, its set-up checks, and the choice UpdateRepo
    makes between recording a new retrieval and refreshing the latest one.
    Git and the filesystem are parameters or left out. */
module RepoManagers {
  import opened Wrappers
  import opened Strings
  import opened Paths
  import Configuration
  import Statements

  /** A row of the repos table. */
  datatype Repo = Repo(id: int, orgName: string, repoName: string)

  /** A row of the repo retrievals table; times are a number. */
  datatype RepoRetrieval = RepoRetrieval(id: int, repoId: int, lastRetrieval: int, commitHash: string)

  class RepoManager {
    var reposPath: string
    var db: Statements.DB?

    /** The zero value. */
    constructor ()
      ensures reposPath == "" && db == null
    {
      reposPath := "";
      db := null;
    }

    /** GetPathToRepo: the repos path, then the organisation, then the
        repository name. */
    function GetPathToRepo(repo: Repo): string
      reads this
    {
      Join([reposPath, repo.orgName, repo.repoName])
    }

    /** GetURLToRepo: the repository's clone URL on GitHub. The names are
        not checked for slashes or other characters. */
    function GetURLToRepo(repo: Repo): string {
      "https://github.com/" + repo.orgName + "/" + repo.repoName + ".git"
    }

    /** setReposLocation: the path is kept only when the filesystem check
        (it exists, is a directory, is writable) passes. */
    method SetReposLocation(path: string, checkDir: string -> Outcome) returns (err: Outcome)
      modifies this
      ensures err == checkDir(path)
      ensures err.Pass? ==> reposPath == path
      ensures err.Fail? ==> reposPath == old(reposPath)
      ensures db == old(db)
    {
      err := checkDir(path);
      if err.Fail? {
        return;
      }
      reposPath := path;
    }
  }

  /** PrepareRM: refuse a nil manager, a nil configuration or one without
      a repos location, and a nil database; then set the repos location,
      and only then the database. */
  method PrepareRM(rm: RepoManager?, cfg: Configuration.Config?, db: Statements.DB?,
                   checkDir: string -> Outcome)
    returns (err: Outcome)
    modifies rm
    ensures rm == null ==> err == Fail("must pass non-nil RepoManager")
    ensures rm != null && (cfg == null || cfg.reposLocation == "") ==>
              err == Fail("must pass config string") && unchanged(rm)
    ensures rm != null && cfg != null && cfg.reposLocation != "" && db == null ==>
              err == Fail("must prepare and pass database") && unchanged(rm)
    ensures rm != null && cfg != null && cfg.reposLocation != "" && db != null ==>
              && err == checkDir(cfg.reposLocation)
              && (err.Pass? ==> rm.reposPath == cfg.reposLocation && rm.db == db)
              && (err.Fail? ==> rm.reposPath == old(rm.reposPath) && rm.db == old(rm.db))
  {
    if rm == null {
      return Fail("must pass non-nil RepoManager");
    }
    if cfg == null || cfg.reposLocation == "" {
      return Fail("must pass config string");
    }
    if db == null {
      return Fail("must prepare and pass database");
    }
    err := rm.SetReposLocation(cfg.reposLocation, checkDir);
    if err.Fail? {
      return;
    }
    rm.db := db;
  }

  /** A URL of the form scheme://host/org/name splits at its slashes
      into its five pieces when none of them holds a slash. */
  lemma URLShape(scheme: string, host: string, org: string, name: string)
    requires '/' !in scheme && '/' !in host && '/' !in org && '/' !in name
    ensures SplitOn(scheme + "//" + host + "/" + org + "/" + name, '/') == [scheme, "", host, org, name]
  {
    SplitOnNoSep(scheme, '/');
    SplitBefore(scheme, '/', "");
    assert scheme + "/" + "" == scheme + "/";
    var s2 := scheme + "/" + "/" + host;
    SplitBefore(scheme + "/", '/', host);
    assert scheme + "//" + host == s2;
    SplitBefore(s2, '/', org);
    SplitBefore(s2 + "/" + org, '/', name);
  }

  /** When neither name holds a slash, the URL splits at its slashes into
      the scheme, the empty authority separator, the host, the
      organisation and the repository name with ".git". */
  lemma URLPieces(rm: RepoManager, repo: Repo)
    requires '/' !in repo.orgName && '/' !in repo.repoName
    ensures SplitOn(rm.GetURLToRepo(repo), '/')
            == ["https:", "", "github.com", repo.orgName, repo.repoName + ".git"]
  {
    var scheme, host, prefix := "https:", "github.com", "https://github.com/";
    var org, name := repo.orgName, repo.repoName + ".git";
    assert '/' !in name;
    assert prefix == scheme + "//" + host + "/";
    URLShape(scheme, host, org, name);
    assert rm.GetURLToRepo(repo) == prefix + org + "/" + name;
  }

  /** Equal strings with an equal suffix have equal beginnings. */
  lemma CancelSuffix(m: string, m': string, q: string)
    requires m + q == m' + q
    ensures m == m'
  {
    assert (m + q)[..|m|] == m;
    assert (m' + q)[..|m'|] == m';
  }

  /** Different repositories have different URLs, as long as their names
      hold no slash. */
  lemma URLDeterminesRepo(rm: RepoManager, a: Repo, b: Repo)
    requires '/' !in a.orgName && '/' !in a.repoName
    requires '/' !in b.orgName && '/' !in b.repoName
    ensures rm.GetURLToRepo(a) == rm.GetURLToRepo(b) <==>
              a.orgName == b.orgName && a.repoName == b.repoName
  {
    if rm.GetURLToRepo(a) == rm.GetURLToRepo(b) {
      URLPieces(rm, a);
      URLPieces(rm, b);
      var pa := SplitOn(rm.GetURLToRepo(a), '/');
      assert pa[3] == a.orgName && pa[3] == b.orgName;
      assert pa[4] == a.repoName + ".git" && pa[4] == b.repoName + ".git";
      CancelSuffix(a.repoName, b.repoName, ".git");
    }
  }

  /** With a repos path and non-empty names without slashes, the repo lives
      in the organisation's directory, which lives in the repos path. */
  lemma RepoPathLayout(rm: RepoManager, repo: Repo)
    requires rm.reposPath != ""
    requires repo.orgName != "" && '/' !in repo.orgName
    requires repo.repoName != "" && '/' !in repo.repoName
    ensures rm.GetPathToRepo(repo) == rm.reposPath + "/" + repo.orgName + "/" + repo.repoName
    ensures Dir(rm.GetPathToRepo(repo)) == rm.reposPath + "/" + repo.orgName
    ensures Dir(Dir(rm.GetPathToRepo(repo))) == rm.reposPath
  {
    var root := [rm.reposPath];
    assert Join(root) == rm.reposPath by {
      assert root[..0] == [];
    }
    DirOfJoin(root, repo.orgName);
    var orgDir := root + [repo.orgName];
    DirOfJoin(orgDir, repo.repoName);
    assert orgDir + [repo.repoName] == [rm.reposPath, repo.orgName, repo.repoName];
  }

  /** Two repositories share a directory exactly when they have the same
      organisation and name. */
  lemma RepoPathDeterminesRepo(rm: RepoManager, a: Repo, b: Repo)
    requires rm.reposPath != ""
    requires a.orgName != "" && '/' !in a.orgName && a.repoName != "" && '/' !in a.repoName
    requires b.orgName != "" && '/' !in b.orgName && b.repoName != "" && '/' !in b.repoName
    ensures rm.GetPathToRepo(a) == rm.GetPathToRepo(b) <==>
              a.orgName == b.orgName && a.repoName == b.repoName
  {
    if rm.GetPathToRepo(a) == rm.GetPathToRepo(b) {
      RepoPathLayout(rm, a);
      RepoPathLayout(rm, b);
      CancelPrefix(rm.reposPath + "/", a.orgName, b.orgName);
      CancelPrefix(rm.reposPath + "/" + a.orgName + "/", a.repoName, b.repoName);
    }
  }

  /** The write UpdateRepo makes to the retrievals table once the latest
      commit is known. `now` stands for time.Now(). */
  datatype RetrievalWrite =
    | InsertRetrieval(repoId: int, lastRetrieval: int, commitHash: string)
    | UpdateRetrieval(retrieval: RepoRetrieval, lastRetrieval: int, commitHash: string)

  /** UpdateRepo's choice: a new retrieval when there is no latest one or
      the latest one saw another commit; otherwise the latest one is
      refreshed. */
  function RetrievalWriteFor(repo: Repo, latest: Result<RepoRetrieval>, commitHash: string, now: int): RetrievalWrite {
    if latest.Err? || commitHash != latest.value.commitHash then
      InsertRetrieval(repo.id, now, commitHash)
    else
      UpdateRetrieval(latest.value, now, commitHash)
  }

  /** The retrievals table after a write: an insert adds a row with the
      id the database hands out; an update rewrites the time and commit of
      the rows with the retrieval's id. */
  function ApplyWrite(table: seq<RepoRetrieval>, w: RetrievalWrite, newId: int): (t: seq<RepoRetrieval>)
    ensures w.InsertRetrieval? ==> t == table + [RepoRetrieval(newId, w.repoId, w.lastRetrieval, w.commitHash)]
    ensures w.UpdateRetrieval? ==> |t| == |table|
    ensures w.UpdateRetrieval? ==> forall i :: 0 <= i < |t| ==>
              t[i] == if table[i].id == w.retrieval.id
                      then table[i].(lastRetrieval := w.lastRetrieval, commitHash := w.commitHash)
                      else table[i]
  {
    match w
    case InsertRetrieval(repoId, lr, ch) => table + [RepoRetrieval(newId, repoId, lr, ch)]
    case UpdateRetrieval(r, lr, ch) =>
      if table == [] then []
      else
        var row := table[0];
        var row' := if row.id == r.id then row.(lastRetrieval := lr, commitHash := ch) else row;
        [row'] + ApplyWrite(table[1..], w, newId)
  }

  /** Some row records a retrieval of the repo at that time and commit. */
  predicate HasRetrieval(table: seq<RepoRetrieval>, repoId: int, lastRetrieval: int, commitHash: string) {
    exists i :: 0 <= i < |table| && table[i] == RepoRetrieval(table[i].id, repoId, lastRetrieval, commitHash)
  }

  /** After UpdateRepo's write, the table holds a retrieval of the repo at
      `now` with the fetched commit; a row is added exactly when there was
      no latest retrieval or its commit differs, and otherwise the latest
      row (taken from the table) keeps its id and only its time changes. */
  lemma UpdateRepoRecordsCommit(table: seq<RepoRetrieval>, repo: Repo, latest: Result<RepoRetrieval>,
                                commitHash: string, now: int, newId: int)
    requires latest.Ok? ==> latest.value in table && latest.value.repoId == repo.id
    ensures var t := ApplyWrite(table, RetrievalWriteFor(repo, latest, commitHash, now), newId);
            && HasRetrieval(t, repo.id, now, commitHash)
            && (|t| == |table| + 1 <==> latest.Err? || latest.value.commitHash != commitHash)
            && (|t| == |table| <==> latest.Ok? && latest.value.commitHash == commitHash)
  {
    var w := RetrievalWriteFor(repo, latest, commitHash, now);
    var t := ApplyWrite(table, w, newId);
    if w.InsertRetrieval? {
      assert t[|table|] == RepoRetrieval(newId, repo.id, now, commitHash);
      assert HasRetrieval(t, repo.id, now, commitHash);
    } else {
      var i :| 0 <= i < |table| && table[i] == latest.value;
      assert t[i] == RepoRetrieval(table[i].id, repo.id, now, commitHash);
      assert HasRetrieval(t, repo.id, now, commitHash);
    }
  }

  /** A refresh leaves every other retrieval as it was. */
  lemma UpdateKeepsOtherRows(table: seq<RepoRetrieval>, repo: Repo, latest: Result<RepoRetrieval>,
                             commitHash: string, now: int, newId: int)
    requires latest.Ok? && latest.value.commitHash == commitHash
    ensures var t := ApplyWrite(table, RetrievalWriteFor(repo, latest, commitHash, now), newId);
            forall i :: 0 <= i < |table| && table[i].id != latest.value.id ==> t[i] == table[i]
  {
  }
}
