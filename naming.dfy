/**
 * The name `create_backup` gives a new archive:
 * "world_" + strftime("%Y%m%d_%H%M%S") + ".tar.gz".
 */
module Naming {
  import opened Prelude
  import opened Model

  const NAME_PREFIX: string := "world_"
  const ARCHIVE_SUFFIX: string := ".tar.gz"
  /** "world_" (6) + YYYYMMDD (8) + "_" (1) + HHMMSS (6) + ".tar.gz" (7). */
  const NAME_LENGTH: nat := 28

  /** The names `list_backups` reports. */
  predicate IsArchiveName(name: string) {
    EndsWith(name, ARCHIVE_SUFFIX)
  }

  function BackupName(t: Stamp): (name: string)
    requires ValidStamp(t)
    ensures |name| == NAME_LENGTH
    ensures StartsWith(name, NAME_PREFIX) && IsArchiveName(name)
    ensures PlainName(name)
  {
    NAME_PREFIX + Pad(t.year, 4) + Pad(t.month, 2) + Pad(t.day, 2)
    + "_" + Pad(t.hour, 2) + Pad(t.minute, 2) + Pad(t.second, 2)
    + ARCHIVE_SUFFIX
  }

  /** Reads the timestamp back out of a name of the shape `BackupName` produces. */
  function ParseBackupName(name: string): Option<Stamp> {
    if && |name| == NAME_LENGTH
       && StartsWith(name, NAME_PREFIX)
       && AllDigits(name[6..10]) && AllDigits(name[10..12]) && AllDigits(name[12..14])
       && name[14] == '_'
       && AllDigits(name[15..17]) && AllDigits(name[17..19]) && AllDigits(name[19..21])
       && IsArchiveName(name)
    then
      var t := Stamp(
        DecimalValue(name[6..10]), DecimalValue(name[10..12]), DecimalValue(name[12..14]),
        DecimalValue(name[15..17]), DecimalValue(name[17..19]), DecimalValue(name[19..21]));
      if ValidStamp(t) then Some(t) else None
    else None
  }

  /** Every name `create_backup` can produce is read back as the timestamp it was made from. */
  lemma ParseBackupNameRoundTrip(t: Stamp)
    requires ValidStamp(t)
    ensures ParseBackupName(BackupName(t)) == Some(t)
  {
    var name := BackupName(t);
    assert name[6..10] == Pad(t.year, 4);
    assert name[10..12] == Pad(t.month, 2);
    assert name[12..14] == Pad(t.day, 2);
    assert name[15..17] == Pad(t.hour, 2);
    assert name[17..19] == Pad(t.minute, 2);
    assert name[19..21] == Pad(t.second, 2);
    PadValue(t.year, 4);
    PadValue(t.month, 2);
    PadValue(t.day, 2);
    PadValue(t.hour, 2);
    PadValue(t.minute, 2);
    PadValue(t.second, 2);
  }

  /** And every name that parses is exactly the name of the timestamp it yields. */
  lemma ParseBackupNameSound(name: string)
    requires ParseBackupName(name).Some?
    ensures BackupName(ParseBackupName(name).value) == name
  {
    var t := ParseBackupName(name).value;
    DecimalPad(name[6..10]);
    DecimalPad(name[10..12]);
    DecimalPad(name[12..14]);
    DecimalPad(name[15..17]);
    DecimalPad(name[17..19]);
    DecimalPad(name[19..21]);
    assert name == name[..6] + name[6..10] + name[10..12] + name[12..14] + [name[14]]
                   + name[15..17] + name[17..19] + name[19..21] + name[21..];
  }

  /**
   * Two backups get the same name exactly when they are created in the same
   * second: names of different seconds never collide, and a second backup in
   * the same second overwrites the first.
   */
  lemma BackupNameInjective(t1: Stamp, t2: Stamp)
    requires ValidStamp(t1) && ValidStamp(t2)
    ensures BackupName(t1) == BackupName(t2) <==> t1 == t2
  {
    if BackupName(t1) == BackupName(t2) {
      ParseBackupNameRoundTrip(t1);
      ParseBackupNameRoundTrip(t2);
    }
  }
}
