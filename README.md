# Minecraft server control API — a verified model

`server_api.py` is a small HTTP API that runs next to a Minecraft server.
It reports the server's status, serves the tail of its log, and manages
world backups. A backup can be created, listed, downloaded, restored or
deleted. The API also queues console commands in `commands.txt` and records
a modpack URL in `modpack_url.txt`. This project models that core in Dafny:

- **Log readers** (`logs.dfy`). The tail served by `GET /api/logs` and the two
  scanners behind `GET /api/status`. The player count takes the newest line
  that mentions "There are" and "players online" and matches `There are (\d+)`.
  The version takes the oldest line that mentions "Starting minecraft server
  version" and matches `version ([\d.]+)`. Both regular expressions are
  written out as one leftmost, greedy `literal(class+)` search.
- **Routing** (`routing.dfy`). How `do_GET`, `do_POST`, `do_DELETE` and
  `do_OPTIONS` map a path to an operation. A backup's name is the text after
  the path's last `/`.
- **The server directory** (`model.dfy`). It is a value: the backup directory
  as a map from file name to archive file, what other names lead to once
  joined to the backup directory ("", ".", "..", paths with '/'), the world
  directory as an optional snapshot, `commands.txt` as text,
  `modpack_url.txt` as a single optional slot, and `logs/latest.log` as its
  lines. `Lookup` is the existence test the handlers run on a joined path.
- **Backup names** (`naming.dfy`). `world_YYYYMMDD_HHMMSS.tar.gz` from a
  timestamp, with a parser proved to invert it in both directions.
- **Listing** (`listing.dfy`). The `.tar.gz` filter and a stable newest-first
  insertion sort on `created_at`.
- **Handlers** (`handlers.dfy`). Every handler that reads or writes the
  directory is a pure transition. It takes the directory before the request
  and returns the directory after it together with the answer. Lemmas here
  relate several requests to each other.
- **The request handler object** (`server.dfy`). A class whose fields are the
  directory. Its methods change the fields step by step, as the Python
  handlers do (restore removes the world first and extracts second), and each
  is proved to agree with its transition. `Handle` dispatches a request
  through the router.

File contents, the clock, archive sizes and modification times, and whether
the game process runs all come in as parameters.

`server_api.py` has no installer for uploaded server zips, no choice of
`server.jar` among several jars, no `.backup` slot, no version marker, no
confinement of backup names to the backup directory and no staged restore.
The modpack upload only stores a URL. A backup name reaches
`restore_backup` unchecked, and the model follows it where it leads.

## Model

| member | source | states |
|---|---|---|
| `Logs.Tail` | server_api.py:122-128 | The result holds exactly min(100, n) lines: the last ones of the file, in their original order. |
| `Logs.LogsTextIsFileSuffix` | server_api.py:125-129 | For an existing log, the served text is the end of the file: the file's text is the lines before the tail followed by the served text. |
| `Logs.Search` | server_api.py:147-150 | A match of `literal(class+)` exists exactly when a group is returned, and a returned group is a non-empty run of class characters. |
| `Logs.SearchIsLeftmostGreedy` | server_api.py:147-150 | A returned group is taken from the line: it is the maximal run of class characters right after the literal of the leftmost match. |
| `Logs.NewestWhere` | server_api.py:145-150 | The backwards search for the newest qualifying line. When it returns an index, that line qualifies and no later line does; when it returns nothing, no line qualifies. `get_players_count` uses it with the test "mentions 'There are' and 'players online' and matches `There are <digits>`", so lines with both phrases but no digits there are passed over. |
| `Logs.PlayersCount` | server_api.py:137-153 | The backwards scan answers the number after "There are " in the newest qualifying line (as `NewestWhere` characterises it), or 0 when there is none. |
| `Logs.OldestWhere` | server_api.py:161-166 | The forward search for the oldest qualifying line. When it returns an index, that line qualifies and no earlier line does; when it returns nothing, no line qualifies. `get_minecraft_version` uses it with the test "mentions 'Starting minecraft server version' and matches `version <digits/dots>`". |
| `Logs.VersionReportedShape` | server_api.py:164-169 | The answer is "unknown" if and only if no line announces a version. Otherwise it is a non-empty run of digits and dots. |
| `Logs.MinecraftVersion` | server_api.py:155-169 | The forward scan answers the `[\d.]+` group from the oldest qualifying line (as `OldestWhere` characterises it), or "unknown" when there is none. |
| `Routing.LastSegment` | server_api.py:61 | The result is the suffix of the path after its last '/', or the whole path when it has no '/'. It never contains '/'. |
| `Routing.Route` | server_api.py:49-91 | A request is 404 "Not found" exactly when its path is in neither the verb's path table nor, for GET and DELETE, under "/api/backup/". A download or delete names the path's final component, which holds no '/'. |
| `Routing.RouteBackupName` | server_api.py:58-62 | GET or DELETE of "/api/backup/" + n reaches the download or delete of exactly n, for any n without '/'. GET "/api/backups" is the listing, not a download. |
| `Naming.BackupName` | server_api.py:203-204 | The name is "world_" + YYYYMMDD + "_" + HHMMSS + ".tar.gz". It is 28 characters long, a plain entry name of the backup directory, and an archive name, so listings include it. |
| `Naming.ParseBackupNameRoundTrip` | server_api.py:203-204 | Reading a generated name back yields the timestamp it was made from. |
| `Naming.ParseBackupNameSound` | server_api.py:203-204 | Every name that parses is exactly the generated name of the timestamp it yields. |
| `Naming.BackupNameInjective` | server_api.py:203-205 | Two backups get the same name if and only if they are made in the same second. |
| `Listing.Insert` | server_api.py:188 | One step of the sort: the result is a permutation of the sorted input plus the new record, and it is still ordered newest first. |
| `Listing.CollectArchives` | server_api.py:177-185 | Whatever order the directory yields its entries in, the scan keeps exactly one record per `.tar.gz` entry (as a multiset), with that entry's name, size and modification time. |
| `Listing.SortNewestFirst` | server_api.py:188 | The result is a permutation of the scanned records, ordered newest first by `created_at`. |
| `Listing.ListingOf` | server_api.py:171-188 | The result holds each record of a `.tar.gz` entry exactly once (as a multiset) and nothing else, ordered non-increasingly by `created_at` under Python's string order. This holds whatever order the directory yields entries in. |
| `Listing.ListingReflectsDirectory` | server_api.py:177-185 | Each listed record belongs to an archive file of the directory and carries that file's size and `created_at`. Every archive file is listed, no name is listed twice, and an empty directory gives an empty list. |
| `Model.Lookup` | server_api.py:256-257 | What `os.path.exists(os.path.join(BACKUP_DIR, name))` finds. A plain name finds exactly the entry of the backup directory, and any other name finds exactly what lies where it leads. |
| `Handlers.CreateBackup` | server_api.py:194-220 | If there is no world, the answer is 404 and nothing changes. Otherwise the store maps the timestamp name to a snapshot of the world, overwriting a same-second entry. Every other entry and the rest of the directory stay as they were, and the answer describes the new backup. |
| `Handlers.DownloadBackup` | server_api.py:224-242 | The answer is 404 exactly when nothing exists where the name leads. A plain name is answered from the backup directory, with the file if and only if it is there. Any other name is answered from what lies where it leads: a file is sent, and a directory (such as "" for the bare "/api/backup/") fails with a 500. |
| `Handlers.RestoreBackup` | server_api.py:244-270 | A missing or empty name gives 400, and a name that leads nowhere gives 404; neither changes anything. Otherwise only the world changes, whatever the name leads to (a backup, or a path outside the backup directory). A world snapshot becomes the world (success). An unreadable file or a directory leaves no world and a 500. |
| `Handlers.DeleteBackup` | server_api.py:272-284 | A name that leads nowhere gives 404 and a directory gives 500, neither with any change. Otherwise exactly the file the name leads to is removed (from the backup directory for a plain name, from outside it for any other name), and everything else stays. |
| `Handlers.ExecuteCommand` | server_api.py:286-304 | A missing or empty command gives 400 and no change. Otherwise `commands.txt` becomes its old text followed by the command and a newline, and nothing else changes. |
| `Handlers.UploadModpack` | server_api.py:308-331 | A missing or empty URL gives 400 and no change. Otherwise `modpack_url.txt` holds exactly the URL, and nothing else changes. |
| `Handlers.DeleteTwice` | server_api.py:272-284 | Deleting the same existing file twice gives success, then 404 with no change. |
| `Handlers.WellFormedPreserved` | server_api.py:194-333 | Every handler keeps the directory tree in the shape a real one has: backup entries have plain names, other names lead outside, and "", "." and ".." stay directories. |
| `Handlers.RestoreOfFolderLosesWorld` | server_api.py:256-270 | Restoring "." or ".." passes the existence test, removes the world, then fails: no world is left and the answer is 500. |
| `Handlers.CreatedBackupIsListed` | server_api.py:177-209 | After a create, the next listing holds the new backup's record and every earlier archive record except one with the same name. |
| `Handlers.RestoreAfterCreate` | server_api.py:197-266 | Restoring the backup just created brings back the world it was made from, whatever happened to the world in between. The backup store is left as it was. |
| `Handlers.CreateCreateDeleteListing` | server_api.py:171-282 | Start with no archives. Create in two different seconds, then delete the first: the listing holds exactly the second backup. |
| `Handlers.CommandsAppendInOrder` | server_api.py:300-302 | Two commands are appended after the existing text, in the order sent, one per line. |
| `Handlers.ModpackUrlLastWriteWins` | server_api.py:323-325 | The URL slot keeps only the URL sent last. |
| `Server.MinecraftServer.GetServerStatus` | server_api.py:93-117 | The status reports the given running flag and whether the world exists. With a log file, the player count and version are the ones the scanners characterise. Without one, they are 0 and "unknown". |
| `Server.MinecraftServer.GetLogs` | server_api.py:119-135 | The answer is the tail text of the log file, or the placeholder when there is no log. |
| `Server.MinecraftServer.ListBackups` | server_api.py:171-192 | The answer is a listing of the current backup directory, as `ListingOf` states. |
| `Server.MinecraftServer.CreateBackup` | server_api.py:194-222 | The new directory and the answer are those of `Handlers.CreateBackup` applied to the old directory. |
| `Server.MinecraftServer.DownloadBackup` | server_api.py:224-242 | The answer is that of `Handlers.DownloadBackup` on the current directory, which is only read. |
| `Server.MinecraftServer.RestoreBackup` | server_api.py:244-270 | Remove the world, then extract: the result is the directory and answer of `Handlers.RestoreBackup`. |
| `Server.MinecraftServer.DeleteBackup` | server_api.py:272-284 | The new directory and the answer are those of `Handlers.DeleteBackup`. |
| `Server.MinecraftServer.ExecuteCommand` | server_api.py:286-306 | The new directory and the answer are those of `Handlers.ExecuteCommand`. |
| `Server.MinecraftServer.UploadModpack` | server_api.py:308-333 | The new directory and the answer are those of `Handlers.UploadModpack`. |
| `Server.MinecraftServer.Handle` | server_api.py:25-91 | Each request reaches the handler its route names, with that handler's answer and new directory. For the status, that includes 0 players and "unknown" when there is no log. An unknown path answers 404 "Not found" and changes nothing. GET and OPTIONS never change the directory. |
| `Server.BareBackupPathIsDirectory` | server_api.py:58-91 | GET and DELETE of the bare "/api/backup/" route to the empty name, which leads to the backup directory itself. The download then fails with 500, and the delete fails with 500 and changes nothing. |
| `Server.DeleteTwiceScenario` | server_api.py:82-91 | Two DELETE requests for an existing backup path: the first removes the backup, and the second answers 404. |

## Left out

- HTTP transport: request parsing, `urlparse`, headers, CORS header values, `Content-Length`, JSON encoding and decoding, and `BaseHTTPRequestHandler`'s own answers (for example 501 for a verb with no handler). The path comes in already parsed, the body fields come in as optional strings, and answers are values.
- JSON body fields that are present but not strings (a number, a list) are not modelled. For strings, "missing" means absent, null or empty, as Python's `not` tests it.
- The `pgrep` call of `get_server_status` is a foreign process call; its outcome is the `running` parameter.
- tar and gzip: an archive is an opaque snapshot of the world. Its size and modification time are parameters, and an archive either holds a world snapshot or cannot be read. Archives with other top-level entries, which extraction would spread over the server directory, are not modelled.
- The clock and `st_mtime`: the timestamp of a new backup, the ISO text of the answer and the rendered modification time are parameters.
- Failures of the file system (permissions, a full disk, a world that is a plain file, a subdirectory inside `backups/`) and the 500 answers they cause are not modelled. The exceptions are what the model does cover: an unreadable file or a directory met by restore, download or delete. A partially written archive left by a failed create is not modelled either.
- A 500 answer carries Python's `str(e)`. The model puts a fixed label naming the failure instead: "not a gzip file" for every file `tarfile` cannot extract (whatever tarfile would say, for example for a gzip that holds no tar), and "Is a directory" for a directory.
- Handlers.DownloadBackup: when reading fails after the check, the source has already sent the 200 status line and headers before the error answer; the model answers 500 only.
- Path resolution: what a name that is not a plain entry name leads to ("", ".", "..", relative or absolute paths) is given by the `elsewhere` map, keyed by the name as sent. The model does not tie two names that lead to the same place to each other (for example `./x` and the backup `x`, or `/minecraft/world` and `../world`).
- `list_backups` creates the backup directory if it is absent; the model does not tell an absent directory from an empty one.
- Reading the log: decoding with `errors='ignore'` and newline translation are not modelled. The log arrives already split into lines.
- Logs.Search: `\d` and `int` are modelled on ASCII digits only; Python also accepts other Unicode decimal digits.
- Naming.BackupName: years are always written with four digits. For years below 1000, the platform's `strftime("%Y")` may not pad.
- Listing.ListingOf: records with equal `created_at` keep the order in which the directory yields entries, as Python's stable sort does. The contract does not state this order because the directory order itself is unspecified.
- Concurrency: the threaded server, `serve_forever`, and the game server writing the world or the log during a request.
