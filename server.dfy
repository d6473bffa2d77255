/**
 * The request handler: one object holding the server directory, whose
 * methods answer the API's requests and change the directory step by step
 * as the handlers of `MinecraftAPIHandler` do.
 */
module Server {
  import opened Prelude
  import opened Model
  import Naming
  import Logs
  import Listing
  import Handlers
  import Routing

  /** The fields of a POST request's JSON body that the handlers read. */
  datatype Request = Request(backupName: Option<string>, command: Option<string>, fileUrl: Option<string>)

  /**
   * What the surroundings supply: the current second and its ISO text, the
   * size and modification time of an archive once `tar` has written it, and
   * whether a process running `server.jar` exists.
   */
  datatype Environment = Environment(
    now: Stamp,
    nowText: string,
    archiveSize: nat,
    archiveModified: string,
    serverRunning: bool)

  class MinecraftServer {
    var backups: map<string, BackupFile>
    var elsewhere: map<string, Entry>
    var world: Option<World>
    var commands: string
    var modpackUrl: Option<string>
    var latestLog: Option<seq<string>>

    /** The directory as a value. */
    function State(): Disk
      reads this
    {
      Disk(backups, elsewhere, world, commands, modpackUrl, latestLog)
    }

    constructor (initial: Disk)
      ensures State() == initial
    {
      backups := initial.backups;
      elsewhere := initial.elsewhere;
      world := initial.world;
      commands := initial.commands;
      modpackUrl := initial.modpackUrl;
      latestLog := initial.latestLog;
    }

    /** `get_server_status`: whether the game runs, who plays, which version, whether there is a world. */
    method GetServerStatus(running: bool) returns (r: Response)
      ensures r.Ok? && r.body.StatusReport?
      ensures r.body.running == running && r.body.worldExists == world.Some?
      ensures latestLog.None? ==> r.body.playersOnline == 0 && r.body.version == Logs.UNKNOWN_VERSION
      ensures latestLog.Some? ==>
        && r.body.playersOnline == Logs.PlayersReported(latestLog.value)
        && r.body.version == Logs.VersionReported(latestLog.value)
    {
      var players: nat := 0;
      var version := Logs.UNKNOWN_VERSION;
      if latestLog.Some? {
        players := Logs.PlayersCount(latestLog.value);
        version := Logs.MinecraftVersion(latestLog.value);
      }
      r := Ok(StatusReport(running, players, version, world.Some?));
    }

    /** `get_logs`. */
    method GetLogs() returns (r: Response)
      ensures r == Ok(LogText(Logs.LogsText(latestLog)))
    {
      if latestLog.Some? {
        var recent := Logs.Tail(latestLog.value);
        r := Ok(LogText(Concat(recent)));
      } else {
        r := Ok(LogText(Logs.LOGS_UNAVAILABLE));
      }
    }

    /** `list_backups`. */
    method ListBackups() returns (r: Response)
      ensures r.Ok? && r.body.BackupList? && Listing.IsListing(backups, r.body.backups)
    {
      var records := Listing.ListingOf(backups);
      r := Ok(BackupList(records));
    }

    /** `create_backup`: writes `world_<date>_<time>.tar.gz` from the world directory. */
    method CreateBackup(t: Stamp, size: nat, modified: string, now: string) returns (r: Response)
      requires ValidStamp(t)
      modifies this
      ensures Handlers.Outcome(State(), r) == Handlers.CreateBackup(old(State()), t, size, modified, now)
    {
      if world.None? {
        r := Fail(404, WORLD_NOT_FOUND);
        return;
      }
      var name := Naming.BackupName(t);
      backups := backups[name := BackupFile(Snapshot(world.value), size, modified)];
      r := Ok(BackupCreated(BackupRecord(name, size, now)));
    }

    /** `download_backup`: a directory where the name leads fails once the file is read. */
    method DownloadBackup(name: string) returns (r: Response)
      ensures r == Handlers.DownloadBackup(State(), name)
    {
      if PlainName(name) {
        if name !in backups {
          r := Fail(404, BACKUP_NOT_FOUND);
          return;
        }
        r := Ok(BackupDownload(name, backups[name]));
      } else {
        if name !in elsewhere {
          r := Fail(404, BACKUP_NOT_FOUND);
          return;
        }
        match elsewhere[name]
        case Folder => r := Fail(500, IS_A_DIRECTORY);
        case File(f) => r := Ok(BackupDownload(name, f));
      }
    }

    /** `restore_backup`: removes the world directory, then extracts what the name leads to. */
    method RestoreBackup(name: Option<string>) returns (r: Response)
      modifies this
      ensures Handlers.Outcome(State(), r) == Handlers.RestoreBackup(old(State()), name)
    {
      if name.None? || name.value == "" {
        r := Fail(400, NO_BACKUP_NAME);
        return;
      }
      var found := Lookup(State(), name.value);
      if found.None? {
        r := Fail(404, BACKUP_NOT_FOUND);
        return;
      }
      if world.Some? {
        world := None;
      }
      match found.value
      case Folder =>
        r := Fail(500, IS_A_DIRECTORY);
      case File(f) =>
        match f.archive {
          case Snapshot(w) =>
            world := Some(w);
            r := Ok(Success(WORLD_RESTORED));
          case Unreadable =>
            r := Fail(500, NOT_AN_ARCHIVE);
        }
    }

    /** `delete_backup`: removes the file the name leads to; a directory there cannot be removed. */
    method DeleteBackup(name: string) returns (r: Response)
      modifies this
      ensures Handlers.Outcome(State(), r) == Handlers.DeleteBackup(old(State()), name)
    {
      var found := Lookup(State(), name);
      if found.None? {
        r := Fail(404, BACKUP_NOT_FOUND);
        return;
      }
      if found.value.Folder? {
        r := Fail(500, IS_A_DIRECTORY);
        return;
      }
      if PlainName(name) {
        backups := backups - {name};
      } else {
        elsewhere := elsewhere - {name};
      }
      r := Ok(Success(BACKUP_DELETED));
    }

    /** `execute_command`: appends the command to `commands.txt`. */
    method ExecuteCommand(command: Option<string>) returns (r: Response)
      modifies this
      ensures Handlers.Outcome(State(), r) == Handlers.ExecuteCommand(old(State()), command)
    {
      if command.None? || command.value == "" {
        r := Fail(400, NO_COMMAND);
        return;
      }
      commands := commands + command.value + "\n";
      r := Ok(Success(COMMAND_SENT));
    }

    /** `upload_modpack`: stores the URL in `modpack_url.txt`. */
    method UploadModpack(url: Option<string>) returns (r: Response)
      modifies this
      ensures Handlers.Outcome(State(), r) == Handlers.UploadModpack(old(State()), url)
    {
      if url.None? || url.value == "" {
        r := Fail(400, NO_FILE_URL);
        return;
      }
      modpackUrl := Some(url.value);
      r := Ok(ModpackSaved(MODPACK_URL_SAVED, url.value));
    }

    /**
     * `do_GET`, `do_POST`, `do_DELETE` and `do_OPTIONS`: the request goes to
     * the handler its route names; an unknown path answers 404 "Not found";
     * reading requests never change the directory.
     */
    method Handle(verb: Routing.Verb, path: string, req: Request, env: Environment) returns (r: Response)
      requires ValidStamp(env.now)
      modifies this
      ensures (verb == Routing.GET || verb == Routing.OPTIONS) ==> State() == old(State())
      ensures match Routing.Route(verb, path)
        case NotFound => r == Fail(404, NOT_FOUND) && State() == old(State())
        case CorsPreflight => r == Ok(Preflight) && State() == old(State())
        case ServerStatus =>
          && r.Ok? && r.body.StatusReport?
          && r.body.running == env.serverRunning && r.body.worldExists == world.Some?
          && (latestLog.None? ==> r.body.playersOnline == 0 && r.body.version == Logs.UNKNOWN_VERSION)
          && (latestLog.Some? ==>
                && r.body.playersOnline == Logs.PlayersReported(latestLog.value)
                && r.body.version == Logs.VersionReported(latestLog.value))
          && State() == old(State())
        case LogTail => r == Ok(LogText(Logs.LogsText(latestLog))) && State() == old(State())
        case ListBackups =>
          && r.Ok? && r.body.BackupList? && Listing.IsListing(backups, r.body.backups)
          && State() == old(State())
        case DownloadBackup(name) => r == Handlers.DownloadBackup(State(), name) && State() == old(State())
        case CreateBackup =>
          Handlers.Outcome(State(), r)
          == Handlers.CreateBackup(old(State()), env.now, env.archiveSize, env.archiveModified, env.nowText)
        case RestoreBackup => Handlers.Outcome(State(), r) == Handlers.RestoreBackup(old(State()), req.backupName)
        case DeleteBackup(name) => Handlers.Outcome(State(), r) == Handlers.DeleteBackup(old(State()), name)
        case ExecuteCommand => Handlers.Outcome(State(), r) == Handlers.ExecuteCommand(old(State()), req.command)
        case UploadModpack => Handlers.Outcome(State(), r) == Handlers.UploadModpack(old(State()), req.fileUrl)
    {
      match Routing.Route(verb, path)
      case NotFound => r := Fail(404, NOT_FOUND);
      case CorsPreflight => r := Ok(Preflight);
      case ServerStatus => r := GetServerStatus(env.serverRunning);
      case LogTail => r := GetLogs();
      case ListBackups => r := ListBackups();
      case DownloadBackup(name) => r := DownloadBackup(name);
      case CreateBackup => r := CreateBackup(env.now, env.archiveSize, env.archiveModified, env.nowText);
      case RestoreBackup => r := RestoreBackup(req.backupName);
      case DeleteBackup(name) => r := DeleteBackup(name);
      case ExecuteCommand => r := ExecuteCommand(req.command);
      case UploadModpack => r := UploadModpack(req.fileUrl);
    }
  }

  /**
   * "/api/backup/" with nothing after it names the backup directory itself:
   * it exists, so a download fails while reading and a delete fails while
   * removing, both with a 500.
   */
  lemma BareBackupPathIsDirectory(d: Disk)
    requires WellFormed(d)
    ensures Routing.Route(Routing.GET, Routing.BACKUP_PREFIX) == Routing.DownloadBackup("")
    ensures Handlers.DownloadBackup(d, "") == Fail(500, IS_A_DIRECTORY)
    ensures Routing.Route(Routing.DELETE, Routing.BACKUP_PREFIX) == Routing.DeleteBackup("")
    ensures Handlers.DeleteBackup(d, "") == Handlers.Outcome(d, Fail(500, IS_A_DIRECTORY))
  {
  }

  /**
   * Two DELETE requests for the same existing backup: the first removes it,
   * the second answers 404 and changes nothing.
   */
  method DeleteTwiceScenario(server: MinecraftServer, name: string) returns (first: Response, second: Response)
    requires PlainName(name) && name in server.backups
    modifies server
    ensures first == Ok(Success(BACKUP_DELETED))
    ensures second == Fail(404, BACKUP_NOT_FOUND)
    ensures server.backups == old(server.backups) - {name}
  {
    Routing.RouteBackupName(name);
    var path := Routing.BACKUP_PREFIX + name;
    var req := Request(None, None, None);
    var env := Environment(Stamp(2024, 1, 1, 0, 0, 0), "", 0, "", false);
    first := server.Handle(Routing.DELETE, path, req, env);
    second := server.Handle(Routing.DELETE, path, req, env);
  }
}
