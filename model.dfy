/**
 * The state of the server directory that the control API reads and writes,
 * as values, and the answers the API sends back.
 *
 * On disk the state is: the `backups/` directory (one archive file per
 * backup), the `world/` directory, `commands.txt`, `modpack_url.txt`, and
 * `logs/latest.log`, which the game server writes and the API only reads.
 */
module Model {
  import opened Prelude

  /** A local date and time at second resolution, as `datetime.now()` gives it. */
  datatype Stamp = Stamp(year: nat, month: nat, day: nat, hour: nat, minute: nat, second: nat)

  /** The ranges a `datetime` keeps its fields in. */
  predicate ValidStamp(t: Stamp) {
    && 1 <= t.year <= 9999
    && 1 <= t.month <= 12
    && 1 <= t.day <= 31
    && t.hour < 24
    && t.minute < 60
    && t.second < 60
  }

  /** The contents of the world directory: each file's relative path and bytes. */
  datatype World = World(files: map<string, seq<bv8>>)

  /**
   * A file in the backup directory, seen as a gzip-compressed tar archive:
   * either one holding a snapshot of the world directory under the entry
   * name "world", or one that cannot be opened as such an archive.
   */
  datatype Archive = Snapshot(world: World) | Unreadable

  /** A backup file with the metadata `os.stat` gives: its size and its modification time rendered as ISO text. */
  datatype BackupFile = BackupFile(archive: Archive, size: nat, modified: string)

  /** One entry of the backup listing, and the description `create_backup` answers with. */
  datatype BackupRecord = BackupRecord(name: string, size: nat, createdAt: string)

  /**
   * A name `os.listdir` can give for an entry of `backups/`: not empty, not
   * "." or "..", and without '/'. `os.path.join(BACKUP_DIR, name)` leads to
   * such an entry exactly for these names; any other name leads to the
   * directory itself, to its parent, or along a relative or absolute path.
   */
  predicate PlainName(name: string) {
    name != "" && name != "." && name != ".." && '/' !in name
  }

  /** What an existing path outside the entries of `backups/` is. */
  datatype Entry = Folder | File(file: BackupFile)

  /**
   * The server directory. `backups` maps the names of the files in
   * `backups/` to the files (an absent directory reads as an empty one, since
   * every reader creates it first); `elsewhere` says what exists at the
   * paths that the other names lead to; `world` is `None` when `world/` does
   * not exist; `commands` is the text of `commands.txt`; `modpackUrl` the
   * text of `modpack_url.txt` if it exists; `latestLog` the lines of
   * `logs/latest.log` if it exists.
   */
  datatype Disk = Disk(
    backups: map<string, BackupFile>,
    elsewhere: map<string, Entry>,
    world: Option<World>,
    commands: string,
    modpackUrl: Option<string>,
    latestLog: Option<seq<string>>)

  /**
   * The shapes a real directory tree gives: the entries of `backups/` have
   * plain names, the other paths are reached only by other names, and "",
   * "." (the backup directory itself) and ".." (the server directory) are
   * directories.
   */
  predicate WellFormed(d: Disk) {
    && (forall name | name in d.backups :: PlainName(name))
    && (forall name | name in d.elsewhere :: !PlainName(name))
    && "" in d.elsewhere && d.elsewhere[""] == Folder
    && "." in d.elsewhere && d.elsewhere["."] == Folder
    && ".." in d.elsewhere && d.elsewhere[".."] == Folder
  }

  /**
   * What exists at `os.path.join(BACKUP_DIR, name)`: for a plain name the
   * entry of `backups/`, for any other name what lies where it leads.
   */
  function Lookup(d: Disk, name: string): (e: Option<Entry>)
    ensures PlainName(name) ==> (e.Some? <==> name in d.backups)
    ensures PlainName(name) && e.Some? ==> e.value == File(d.backups[name])
    ensures !PlainName(name) ==> (e.Some? <==> name in d.elsewhere)
    ensures !PlainName(name) && e.Some? ==> e.value == d.elsewhere[name]
  {
    if PlainName(name) then
      if name in d.backups then Some(File(d.backups[name])) else None
    else if name in d.elsewhere then Some(d.elsewhere[name])
    else None
  }

  /** The JSON body (or, for a download, the file) of a successful answer. */
  datatype Body =
    | StatusReport(running: bool, playersOnline: nat, version: string, worldExists: bool)
    | LogText(logs: string)
    | BackupList(backups: seq<BackupRecord>)
    | BackupCreated(backup: BackupRecord)
    | BackupDownload(name: string, file: BackupFile)
    | Success(message: string)
    | ModpackSaved(message: string, url: string)
    | Preflight

  /** A 200 answer, or an error answer `{"error": message}` with its status code. */
  datatype Response = Ok(body: Body) | Fail(status: nat, message: string)

  const NOT_FOUND: string := "Not found"
  const WORLD_NOT_FOUND: string := "Мир не найден"
  const BACKUP_NOT_FOUND: string := "Бэкап не найден"
  const NO_BACKUP_NAME: string := "Не указано имя бэкапа"
  const WORLD_RESTORED: string := "Мир восстановлен"
  const BACKUP_DELETED: string := "Бэкап удален"
  const NO_COMMAND: string := "Команда не указана"
  const COMMAND_SENT: string := "Команда отправлена"
  const NO_FILE_URL: string := "URL файла не указан"
  const MODPACK_URL_SAVED: string := "URL модпака сохранен"
  /** The error `tarfile` raises for a backup file that is not a gzip archive. */
  const NOT_AN_ARCHIVE: string := "not a gzip file"
  /** The error opening, removing or extracting a directory as a file raises. */
  const IS_A_DIRECTORY: string := "Is a directory"
}
