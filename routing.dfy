/**
 * How `do_GET`, `do_POST`, `do_DELETE` and `do_OPTIONS` map the path part
 * of a request URL to an operation of the control API.
 */
module Routing {
  import opened Prelude

  /** The request methods the handler class implements. */
  datatype Verb = GET | POST | DELETE | OPTIONS

  datatype Endpoint =
    | ServerStatus
    | LogTail
    | ListBackups
    | DownloadBackup(name: string)
    | CreateBackup
    | RestoreBackup
    | ExecuteCommand
    | UploadModpack
    | DeleteBackup(name: string)
    | CorsPreflight
      /** The handler's own 404 answer "Not found". */
    | NotFound

  /** GET and DELETE paths with this prefix address one backup by name. */
  const BACKUP_PREFIX: string := "/api/backup/"

  /** The paths each verb answers exactly, whatever the order the handler tests them in. */
  const GET_PATHS: set<string> := {"/api/status", "/api/logs", "/api/backups"}
  const POST_PATHS: set<string> :=
    {"/api/backup/create", "/api/backup/restore", "/api/command", "/api/upload/modpack"}

  /** Python's `path.split("/")[-1]`: the text after the last '/', or all of `path` when it has none. */
  function LastSegment(path: string): (seg: string)
    ensures '/' !in seg
    ensures |seg| <= |path| && seg == path[|path| - |seg|..]
    ensures |seg| < |path| ==> path[|path| - |seg| - 1] == '/'
    ensures '/' in path ==> |seg| < |path|
  {
    if path == [] || path[|path| - 1] == '/' then ""
    else LastSegment(path[..|path| - 1]) + [path[|path| - 1]]
  }

  /**
   * `path` carries the backup prefix and `name` is its final component:
   * the text after its last '/', which therefore holds no '/' itself.
   */
  predicate Addresses(path: string, name: string) {
    && StartsWith(path, BACKUP_PREFIX)
    && '/' !in name
    && |name| < |path|
    && path[|path| - |name| - 1] == '/'
    && path[|path| - |name|..] == name
  }

  /** The operation a request for `path` with method `verb` reaches. */
  function Route(verb: Verb, path: string): (e: Endpoint)
    ensures e.NotFound? <==>
      match verb
      case GET => path !in GET_PATHS && !StartsWith(path, BACKUP_PREFIX)
      case POST => path !in POST_PATHS
      case DELETE => !StartsWith(path, BACKUP_PREFIX)
      case OPTIONS => false
    ensures (e.DownloadBackup? || e.DeleteBackup?) ==> Addresses(path, e.name)
  {
    match verb
    case GET =>
      if path == "/api/status" then ServerStatus
      else if path == "/api/logs" then LogTail
      else if path == "/api/backups" then ListBackups
      else if StartsWith(path, BACKUP_PREFIX) then
        assert path[0] == '/';
        DownloadBackup(LastSegment(path))
      else NotFound
    case POST =>
      if path == "/api/backup/create" then CreateBackup
      else if path == "/api/backup/restore" then RestoreBackup
      else if path == "/api/command" then ExecuteCommand
      else if path == "/api/upload/modpack" then UploadModpack
      else NotFound
    case DELETE =>
      if StartsWith(path, BACKUP_PREFIX) then
        assert path[0] == '/';
        DeleteBackup(LastSegment(path))
      else NotFound
    case OPTIONS => CorsPreflight
  }

  /** The text after the last '/' of "<dir>/<name>" is `name` when `name` has no '/'. */
  lemma {:induction false} LastSegmentOfJoin(dir: string, name: string)
    requires '/' !in name
    ensures LastSegment(dir + "/" + name) == name
  {
    var path := dir + "/" + name;
    if name != [] {
      var init := name[..|name| - 1];
      assert path[..|path| - 1] == dir + "/" + init;
      LastSegmentOfJoin(dir, init);
      assert name == init + [name[|name| - 1]];
    }
  }

  /**
   * Routing inverts URL building: a GET or DELETE of the backup prefix
   * followed by a name without '/' reaches the download or delete of
   * exactly that name. In particular "/api/backups" is a listing and never a
   * download, since it does not carry the prefix.
   */
  lemma RouteBackupName(name: string)
    requires '/' !in name
    ensures Route(GET, BACKUP_PREFIX + name) == DownloadBackup(name)
    ensures Route(DELETE, BACKUP_PREFIX + name) == DeleteBackup(name)
    ensures Route(GET, "/api/backups") == ListBackups
  {
    var path := BACKUP_PREFIX + name;
    assert path == "/api/backup" + "/" + name;
    LastSegmentOfJoin("/api/backup", name);
    assert StartsWith(path, BACKUP_PREFIX) by {
      assert path[..|BACKUP_PREFIX|] == BACKUP_PREFIX;
    }
    assert path !in GET_PATHS by {
      assert path[|BACKUP_PREFIX| - 1] == '/';
      assert "/api/backups"[|BACKUP_PREFIX| - 1] != '/';
    }
  }
}
