/**
 * `list_backups`: one record per `.tar.gz` file of the backup directory,
 * newest first by their `created_at` text.
 */
module Listing {
  import opened Prelude
  import opened Model
  import opened Naming

  /** The record `list_backups` builds for the file `name`. */
  function RecordOf(name: string, file: BackupFile): BackupRecord {
    BackupRecord(name, file.size, file.modified)
  }

  /** The records a listing must hold, for the files among `names`: one per archive name. */
  function RecordsAmong(backups: map<string, BackupFile>, names: set<string>): set<BackupRecord> {
    set name | name in backups && name in names && IsArchiveName(name) :: RecordOf(name, backups[name])
  }

  /** The records a listing of the whole directory must hold. */
  function Expected(backups: map<string, BackupFile>): set<BackupRecord> {
    RecordsAmong(backups, backups.Keys)
  }

  /** No record is newer than `key`. */
  predicate NoneNewer(rs: seq<BackupRecord>, key: string) {
    forall r | r in rs :: LexLe(r.createdAt, key)
  }

  /** Ordered by `created_at`, newest first (what `sort(reverse=True)` gives). */
  predicate NewestFirst(rs: seq<BackupRecord>) {
    forall i, j | 0 <= i < j < |rs| :: LexLe(rs[j].createdAt, rs[i].createdAt)
  }

  /**
   * What `list_backups` answers for the directory `backups`: each expected
   * record exactly once and nothing else, newest first.
   */
  predicate IsListing(backups: map<string, BackupFile>, rs: seq<BackupRecord>) {
    multiset(rs) == multiset(Expected(backups)) && NewestFirst(rs)
  }

  /** Every record of a listing is the record of an archive file of the directory. */
  lemma ListedRecordsAreFiles(backups: map<string, BackupFile>, rs: seq<BackupRecord>)
    requires IsListing(backups, rs)
    ensures forall i | 0 <= i < |rs| ::
      && rs[i].name in backups
      && IsArchiveName(rs[i].name)
      && rs[i] == RecordOf(rs[i].name, backups[rs[i].name])
  {
    forall i | 0 <= i < |rs|
      ensures rs[i].name in backups && IsArchiveName(rs[i].name)
      ensures rs[i] == RecordOf(rs[i].name, backups[rs[i].name])
    {
      assert rs[i] in multiset(rs);
    }
  }

  /** Every archive file of the directory has a record in a listing. */
  lemma EveryArchiveListed(backups: map<string, BackupFile>, rs: seq<BackupRecord>)
    requires IsListing(backups, rs)
    ensures forall name | name in backups && IsArchiveName(name) ::
      exists i | 0 <= i < |rs| :: rs[i].name == name
  {
    forall name | name in backups && IsArchiveName(name)
      ensures exists i | 0 <= i < |rs| :: rs[i].name == name
    {
      var r := RecordOf(name, backups[name]);
      assert r in multiset(Expected(backups));
      assert r in rs;
    }
  }

  /** A record appears at most once in a listing, since the expected records form a set. */
  lemma ListedOnce(backups: map<string, BackupFile>, rs: seq<BackupRecord>, i: nat, j: nat)
    requires IsListing(backups, rs) && i < j < |rs|
    ensures rs[i] != rs[j]
  {
    var r := rs[j];
    assert rs == rs[..j] + [r] + rs[j + 1..];
    assert multiset(rs)[r] == multiset(rs[..j])[r] + 1 + multiset(rs[j + 1..])[r];
    assert multiset(Expected(backups))[r] <= 1;
    assert r !in rs[..j];
    assert rs[..j][i] == rs[i];
  }

  /**
   * A listing, read entry by entry: every record is the record of an
   * archive file of the directory, with that file's size and modification
   * time; every archive file has a record; no file is listed twice; an empty
   * directory gives an empty listing.
   */
  lemma ListingReflectsDirectory(backups: map<string, BackupFile>, rs: seq<BackupRecord>)
    requires IsListing(backups, rs)
    ensures forall i | 0 <= i < |rs| ::
      && rs[i].name in backups
      && IsArchiveName(rs[i].name)
      && rs[i] == RecordOf(rs[i].name, backups[rs[i].name])
    ensures forall name | name in backups && IsArchiveName(name) ::
      exists i | 0 <= i < |rs| :: rs[i].name == name
    ensures forall i, j | 0 <= i < j < |rs| :: rs[i].name != rs[j].name
    ensures backups == map[] ==> rs == []
  {
    ListedRecordsAreFiles(backups, rs);
    EveryArchiveListed(backups, rs);
    forall i, j | 0 <= i < j < |rs|
      ensures rs[i].name != rs[j].name
    {
      ListedOnce(backups, rs, i, j);
    }
    if backups == map[] {
      assert Expected(backups) == {};
      assert |multiset(rs)| == 0;
    }
  }

  lemma ConsNewestFirst(r: BackupRecord, rs: seq<BackupRecord>)
    requires NewestFirst(rs) && NoneNewer(rs, r.createdAt)
    ensures NewestFirst([r] + rs)
  {
    var out := [r] + rs;
    forall i, j | 0 <= i < j < |out|
      ensures LexLe(out[j].createdAt, out[i].createdAt)
    {
      if i > 0 {
        assert out[i] == rs[i - 1] && out[j] == rs[j - 1];
      } else {
        assert out[j] in rs;
      }
    }
  }

  /** A record strictly newer than the newest of a sorted listing is newer than all of it. */
  lemma NewerThanAll(r: BackupRecord, rs: seq<BackupRecord>)
    requires NewestFirst(rs) && rs != [] && !LexLe(r.createdAt, rs[0].createdAt)
    ensures NoneNewer(rs, r.createdAt)
  {
    LexLeTotal(r.createdAt, rs[0].createdAt);
    forall x | x in rs ensures LexLe(x.createdAt, r.createdAt) {
      var k :| 0 <= k < |rs| && rs[k] == x;
      if k > 0 {
        LexLeTransitive(x.createdAt, rs[0].createdAt, r.createdAt);
      }
    }
  }

  /** Inserting a record no newer than the head into the rest keeps the head the newest. */
  lemma HeadStaysNewest(r: BackupRecord, rs: seq<BackupRecord>, tail: seq<BackupRecord>)
    requires NewestFirst(rs) && rs != [] && LexLe(r.createdAt, rs[0].createdAt)
    requires multiset(tail) == multiset(rs[1..]) + multiset{r}
    ensures NoneNewer(tail, rs[0].createdAt)
  {
    forall x | x in tail ensures LexLe(x.createdAt, rs[0].createdAt) {
      assert x in multiset(tail);
      if x != r {
        var k :| 0 <= k < |rs[1..]| && rs[1..][k] == x;
        assert x == rs[k + 1];
      }
    }
  }

  /**
   * One step of the stable sort: `r` goes in front of the first strictly
   * older record, after every record at least as new.
   */
  function Insert(r: BackupRecord, rs: seq<BackupRecord>): (out: seq<BackupRecord>)
    requires NewestFirst(rs)
    ensures multiset(out) == multiset(rs) + multiset{r}
    ensures NewestFirst(out)
  {
    if rs == [] then [r]
    else if !LexLe(r.createdAt, rs[0].createdAt) then
      NewerThanAll(r, rs);
      ConsNewestFirst(r, rs);
      [r] + rs
    else
      var tail := Insert(r, rs[1..]);
      assert rs == [rs[0]] + rs[1..];
      HeadStaysNewest(r, rs, tail);
      ConsNewestFirst(rs[0], tail);
      [rs[0]] + tail
  }

  /** Widening the set of visited names by one adds that name's record, if it is an archive. */
  lemma RecordsAmongAdd(backups: map<string, BackupFile>, names: set<string>, name: string)
    requires name in backups && name !in names
    ensures IsArchiveName(name) ==>
      && RecordOf(name, backups[name]) !in RecordsAmong(backups, names)
      && RecordsAmong(backups, names + {name}) == RecordsAmong(backups, names) + {RecordOf(name, backups[name])}
    ensures !IsArchiveName(name) ==> RecordsAmong(backups, names + {name}) == RecordsAmong(backups, names)
  {
  }

  /**
   * The scan of `list_backups`: walks the directory entries in whatever
   * order the directory yields them and appends a record for each `.tar.gz`
   * entry.
   */
  method CollectArchives(backups: map<string, BackupFile>) returns (found: seq<BackupRecord>)
    ensures multiset(found) == multiset(Expected(backups))
  {
    found := [];
    var rest := backups.Keys;
    while rest != {}
      invariant rest <= backups.Keys
      invariant multiset(found) == multiset(RecordsAmong(backups, backups.Keys - rest))
      decreases rest
    {
      var name :| name in rest;
      RecordsAmongAdd(backups, backups.Keys - rest, name);
      assert backups.Keys - (rest - {name}) == (backups.Keys - rest) + {name};
      if IsArchiveName(name) {
        found := found + [RecordOf(name, backups[name])];
      }
      rest := rest - {name};
    }
    assert backups.Keys - rest == backups.Keys;
  }

  /** `sort(key=created_at, reverse=True)`: a newest-first permutation of the records. */
  method SortNewestFirst(found: seq<BackupRecord>) returns (rs: seq<BackupRecord>)
    ensures multiset(rs) == multiset(found)
    ensures NewestFirst(rs)
  {
    rs := [];
    var i := 0;
    while i < |found|
      invariant 0 <= i <= |found|
      invariant multiset(rs) == multiset(found[..i])
      invariant NewestFirst(rs)
    {
      rs := Insert(found[i], rs);
      assert found[..i + 1] == found[..i] + [found[i]];
      i := i + 1;
    }
    assert found[..i] == found;
  }

  /** `list_backups`: the scan, then the sort. */
  method ListingOf(backups: map<string, BackupFile>) returns (rs: seq<BackupRecord>)
    ensures IsListing(backups, rs)
  {
    var found := CollectArchives(backups);
    rs := SortNewestFirst(found);
  }
}
