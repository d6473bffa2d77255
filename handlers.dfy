/**
 * The handlers that act on the server directory, each as a transition from
 * the directory before the request to the directory after it and the
 * answer sent. The guards come first (a missing input answers 400, a
 * missing file 404) and leave the directory as it was.
 */
module Handlers {
  import opened Prelude
  import opened Model
  import opened Naming
  import opened Listing

  datatype Outcome = Outcome(disk: Disk, response: Response)

  /** Python's `not value` for a JSON body field that is absent, null or a string. */
  predicate Missing(field: Option<string>) {
    field.None? || field.value == ""
  }

  /**
   * `create_backup`: archives the world directory under the name made from
   * the current second `t`. `size` is the size of the archive written,
   * `modified` its modification time as the listing renders it, and `now`
   * the time the answer reports.
   */
  function CreateBackup(d: Disk, t: Stamp, size: nat, modified: string, now: string): (o: Outcome)
    requires ValidStamp(t)
    ensures d.world.None? ==> o == Outcome(d, Fail(404, WORLD_NOT_FOUND))
    ensures d.world.Some? ==>
      var name := BackupName(t);
      && o.response == Ok(BackupCreated(BackupRecord(name, size, now)))
      && o.disk.backups.Keys == d.backups.Keys + {name}
      && o.disk.backups[name] == BackupFile(Snapshot(d.world.value), size, modified)
      && (forall n | n in d.backups && n != name :: o.disk.backups[n] == d.backups[n])
      && o.disk.(backups := d.backups) == d
  {
    match d.world
    case None => Outcome(d, Fail(404, WORLD_NOT_FOUND))
    case Some(w) =>
      var name := BackupName(t);
      Outcome(d.(backups := d.backups[name := BackupFile(Snapshot(w), size, modified)]),
              Ok(BackupCreated(BackupRecord(name, size, now))))
  }

  /**
   * `download_backup`: the file at the path the name leads to. A directory
   * there passes the existence test, and reading it fails with a 500.
   */
  function DownloadBackup(d: Disk, name: string): (r: Response)
    ensures Lookup(d, name).None? <==> r == Fail(404, BACKUP_NOT_FOUND)
    ensures PlainName(name) ==> (r.Ok? <==> name in d.backups)
    ensures PlainName(name) && name in d.backups ==> r == Ok(BackupDownload(name, d.backups[name]))
    ensures !PlainName(name) && name in d.elsewhere ==>
      match d.elsewhere[name]
      case Folder => r == Fail(500, IS_A_DIRECTORY)
      case File(f) => r == Ok(BackupDownload(name, f))
  {
    match Lookup(d, name)
    case None => Fail(404, BACKUP_NOT_FOUND)
    case Some(Folder) => Fail(500, IS_A_DIRECTORY)
    case Some(File(f)) => Ok(BackupDownload(name, f))
  }

  /**
   * `restore_backup`: removes the world directory, then extracts the archive
   * at the path the name leads to. The name is used as it arrives in the
   * request body, so it may lead out of the backup directory. Once the path
   * exists the world is gone, whether or not extraction then succeeds: a
   * directory or a file that is not an archive leaves no world and a 500.
   */
  function RestoreBackup(d: Disk, name: Option<string>): (o: Outcome)
    ensures Missing(name) ==> o == Outcome(d, Fail(400, NO_BACKUP_NAME))
    ensures !Missing(name) && Lookup(d, name.value).None? ==> o == Outcome(d, Fail(404, BACKUP_NOT_FOUND))
    ensures !Missing(name) && Lookup(d, name.value).Some? ==>
      && o.disk.(world := d.world) == d
      && match Lookup(d, name.value).value
         case Folder => o.disk.world == None && o.response == Fail(500, IS_A_DIRECTORY)
         case File(f) =>
           match f.archive
           case Snapshot(w) => o.disk.world == Some(w) && o.response == Ok(Success(WORLD_RESTORED))
           case Unreadable => o.disk.world == None && o.response == Fail(500, NOT_AN_ARCHIVE)
  {
    if Missing(name) then Outcome(d, Fail(400, NO_BACKUP_NAME))
    else match Lookup(d, name.value)
      case None => Outcome(d, Fail(404, BACKUP_NOT_FOUND))
      case Some(entry) =>
        var cleared := d.(world := None);
        match entry
        case Folder => Outcome(cleared, Fail(500, IS_A_DIRECTORY))
        case File(f) =>
          match f.archive
          case Snapshot(w) => Outcome(cleared.(world := Some(w)), Ok(Success(WORLD_RESTORED)))
          case Unreadable => Outcome(cleared, Fail(500, NOT_AN_ARCHIVE))
  }

  /**
   * `delete_backup`: removes the file at the path the name leads to. A
   * directory there passes the existence test, and removing it fails with a
   * 500 that changes nothing.
   */
  function DeleteBackup(d: Disk, name: string): (o: Outcome)
    ensures Lookup(d, name).None? ==> o == Outcome(d, Fail(404, BACKUP_NOT_FOUND))
    ensures Lookup(d, name) == Some(Folder) ==> o == Outcome(d, Fail(500, IS_A_DIRECTORY))
    ensures PlainName(name) && name in d.backups ==>
      && o.response == Ok(Success(BACKUP_DELETED))
      && o.disk.backups.Keys == d.backups.Keys - {name}
      && (forall n | n in o.disk.backups :: o.disk.backups[n] == d.backups[n])
      && o.disk.(backups := d.backups) == d
    ensures !PlainName(name) && name in d.elsewhere && d.elsewhere[name].File? ==>
      && o.response == Ok(Success(BACKUP_DELETED))
      && o.disk.elsewhere.Keys == d.elsewhere.Keys - {name}
      && (forall n | n in o.disk.elsewhere :: o.disk.elsewhere[n] == d.elsewhere[n])
      && o.disk.(elsewhere := d.elsewhere) == d
  {
    match Lookup(d, name)
    case None => Outcome(d, Fail(404, BACKUP_NOT_FOUND))
    case Some(Folder) => Outcome(d, Fail(500, IS_A_DIRECTORY))
    case Some(File(_)) =>
      if PlainName(name) then Outcome(d.(backups := d.backups - {name}), Ok(Success(BACKUP_DELETED)))
      else Outcome(d.(elsewhere := d.elsewhere - {name}), Ok(Success(BACKUP_DELETED)))
  }

  /** `execute_command`: appends the command and a newline to `commands.txt`. */
  function ExecuteCommand(d: Disk, command: Option<string>): (o: Outcome)
    ensures Missing(command) ==> o == Outcome(d, Fail(400, NO_COMMAND))
    ensures !Missing(command) ==>
      && o.response == Ok(Success(COMMAND_SENT))
      && |o.disk.commands| == |d.commands| + |command.value| + 1
      && o.disk.commands[..|d.commands|] == d.commands
      && o.disk.commands[|d.commands|..] == command.value + "\n"
      && o.disk.(commands := d.commands) == d
  {
    if Missing(command) then Outcome(d, Fail(400, NO_COMMAND))
    else Outcome(d.(commands := d.commands + command.value + "\n"), Ok(Success(COMMAND_SENT)))
  }

  /** `upload_modpack`: overwrites `modpack_url.txt` with the URL given. */
  function UploadModpack(d: Disk, url: Option<string>): (o: Outcome)
    ensures Missing(url) ==> o == Outcome(d, Fail(400, NO_FILE_URL))
    ensures !Missing(url) ==>
      && o.response == Ok(ModpackSaved(MODPACK_URL_SAVED, url.value))
      && o.disk.modpackUrl == Some(url.value)
      && o.disk.(modpackUrl := d.modpackUrl) == d
  {
    if Missing(url) then Outcome(d, Fail(400, NO_FILE_URL))
    else Outcome(d.(modpackUrl := Some(url.value)), Ok(ModpackSaved(MODPACK_URL_SAVED, url.value)))
  }

  /** Deleting the same file twice succeeds once, then answers 404 and changes nothing. */
  lemma DeleteTwice(d: Disk, name: string)
    requires Lookup(d, name).Some? && Lookup(d, name).value.File?
    ensures DeleteBackup(d, name).response == Ok(Success(BACKUP_DELETED))
    ensures var once := DeleteBackup(d, name).disk;
            DeleteBackup(once, name) == Outcome(once, Fail(404, BACKUP_NOT_FOUND))
  {
  }

  /** Every handler leaves a directory tree of the shape a real one has. */
  lemma WellFormedPreserved(
    d: Disk, t: Stamp, size: nat, modified: string, now: string,
    name: string, restoreName: Option<string>, command: Option<string>, url: Option<string>)
    requires WellFormed(d) && ValidStamp(t)
    ensures WellFormed(CreateBackup(d, t, size, modified, now).disk)
    ensures WellFormed(RestoreBackup(d, restoreName).disk)
    ensures WellFormed(DeleteBackup(d, name).disk)
    ensures WellFormed(ExecuteCommand(d, command).disk)
    ensures WellFormed(UploadModpack(d, url).disk)
  {
    var deleted := DeleteBackup(d, name).disk;
    if !PlainName(name) && name in d.elsewhere && d.elsewhere[name].File? {
      assert name != "" && name != "." && name != "..";
      assert deleted.elsewhere[""] == Folder;
    }
  }

  /**
   * A restore whose name leads to a directory, such as "..", passes the
   * existence test, removes the world and then fails: the world is gone and
   * the answer is a 500.
   */
  lemma RestoreOfFolderLosesWorld(d: Disk, name: string)
    requires WellFormed(d) && (name == "." || name == "..")
    ensures RestoreBackup(d, Some(name)) == Outcome(d.(world := None), Fail(500, IS_A_DIRECTORY))
  {
  }

  /**
   * A new backup appears in the next listing, beside every earlier archive
   * except one of the same second, which it replaces.
   */
  lemma CreatedBackupIsListed(d: Disk, t: Stamp, size: nat, modified: string, now: string)
    requires ValidStamp(t) && d.world.Some?
    ensures var name := BackupName(t);
            Expected(CreateBackup(d, t, size, modified, now).disk.backups)
            == (set r | r in Expected(d.backups) && r.name != name) + {BackupRecord(name, size, modified)}
  {
    var name := BackupName(t);
    var after := CreateBackup(d, t, size, modified, now).disk.backups;
    var lhs := Expected(after);
    var rhs := (set r | r in Expected(d.backups) && r.name != name) + {BackupRecord(name, size, modified)};
    forall r | r in lhs ensures r in rhs {
      var n :| n in after && IsArchiveName(n) && r == RecordOf(n, after[n]);
      if n != name {
        assert r == RecordOf(n, d.backups[n]);
      }
    }
    forall r | r in rhs ensures r in lhs {
      if r.name == name {
        assert r == RecordOf(name, after[name]);
      } else {
        var n :| n in d.backups && IsArchiveName(n) && r == RecordOf(n, d.backups[n]);
        assert r == RecordOf(n, after[n]);
      }
    }
  }

  /**
   * Restoring a backup right after creating it brings back the world it was
   * made from, whatever became of the world in between, and touches no
   * backup.
   */
  lemma RestoreAfterCreate(d: Disk, t: Stamp, size: nat, modified: string, now: string, later: Option<World>)
    requires ValidStamp(t) && d.world.Some?
    ensures var saved := CreateBackup(d, t, size, modified, now).disk.(world := later);
            RestoreBackup(saved, Some(BackupName(t)))
            == Outcome(saved.(world := d.world), Ok(Success(WORLD_RESTORED)))
  {
    var saved := CreateBackup(d, t, size, modified, now).disk.(world := later);
    assert BackupName(t) in saved.backups;
  }

  /**
   * Starting from a directory with no archives: after creating backups in
   * two different seconds and deleting the first, the listing holds exactly
   * the second.
   */
  lemma CreateCreateDeleteListing(
    d: Disk,
    t1: Stamp, size1: nat, modified1: string, now1: string,
    t2: Stamp, size2: nat, modified2: string, now2: string)
    requires Expected(d.backups) == {} && d.world.Some?
    requires ValidStamp(t1) && ValidStamp(t2) && t1 != t2
    ensures var d1 := CreateBackup(d, t1, size1, modified1, now1).disk;
            var d2 := CreateBackup(d1, t2, size2, modified2, now2).disk;
            var d3 := DeleteBackup(d2, BackupName(t1)).disk;
            Expected(d3.backups) == {BackupRecord(BackupName(t2), size2, modified2)}
  {
    BackupNameInjective(t1, t2);
    var d1 := CreateBackup(d, t1, size1, modified1, now1).disk;
    var d2 := CreateBackup(d1, t2, size2, modified2, now2).disk;
    var d3 := DeleteBackup(d2, BackupName(t1)).disk;
    CreatedBackupIsListed(d, t1, size1, modified1, now1);
    CreatedBackupIsListed(d1, t2, size2, modified2, now2);
    var expected := {BackupRecord(BackupName(t2), size2, modified2)};
    forall r | r in Expected(d3.backups) ensures r in expected {
      var n :| n in d3.backups && IsArchiveName(n) && r == RecordOf(n, d3.backups[n]);
      assert RecordOf(n, d2.backups[n]) in Expected(d2.backups);
    }
    assert BackupName(t2) in d3.backups;
    assert RecordOf(BackupName(t2), d3.backups[BackupName(t2)]) in Expected(d3.backups);
  }

  /** Commands reach `commands.txt` in the order they were sent, one per line, after what was there. */
  lemma CommandsAppendInOrder(d: Disk, first: string, second: string)
    requires first != "" && second != ""
    ensures var d1 := ExecuteCommand(d, Some(first)).disk;
            ExecuteCommand(d1, Some(second)).disk.commands == d.commands + first + "\n" + second + "\n"
  {
  }

  /** `modpack_url.txt` keeps only the URL sent last. */
  lemma ModpackUrlLastWriteWins(d: Disk, first: string, second: string)
    requires first != "" && second != ""
    ensures var d1 := UploadModpack(d, Some(first)).disk;
            UploadModpack(d1, Some(second)).disk == UploadModpack(d, Some(second)).disk
  {
  }
}
