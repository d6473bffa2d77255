/**
 * The three readers of the game server's `logs/latest.log`: the tail served
 * by `GET /api/logs`, and the player count and server version reported by
 * `GET /api/status`. The file is given as the list of its lines, each with
 * its line terminator, as `readlines` and line iteration yield them; `None`
 * stands for a log file that does not exist.
 */
module Logs {
  import opened Prelude

  /** How many trailing lines `get_logs` returns. */
  const TAIL_SIZE: nat := 100
  /** Placeholder text when there is no log file yet ("logs not available yet"). */
  const LOGS_UNAVAILABLE: string := "Логи пока недоступны"

  /** The guard substrings and the regular-expression literal of `get_players_count`. */
  const THERE_ARE: string := "There are"
  const PLAYERS_ONLINE: string := "players online"
  const COUNT_LITERAL: string := "There are "

  /** The guard substring and the regular-expression literal of `get_minecraft_version`. */
  const VERSION_GUARD: string := "Starting minecraft server version"
  const VERSION_LITERAL: string := "version "
  /** What `get_minecraft_version` answers when no line announces a version. */
  const UNKNOWN_VERSION: string := "unknown"

  /** The last `TAIL_SIZE` lines of the file, or all of them when there are fewer. */
  function Tail(lines: seq<string>): (recent: seq<string>)
    ensures |recent| == if |lines| > TAIL_SIZE then TAIL_SIZE else |lines|
    ensures forall i | 0 <= i < |recent| :: recent[i] == lines[|lines| - |recent| + i]
  {
    if |lines| > TAIL_SIZE then lines[|lines| - TAIL_SIZE..] else lines
  }

  /** The `logs` field of the answer to `GET /api/logs`. */
  function LogsText(log: Option<seq<string>>): string {
    match log
    case None => LOGS_UNAVAILABLE
    case Some(lines) => Concat(Tail(lines))
  }

  /**
   * The text served is exactly the end of the file: the whole file is the
   * lines before the tail followed by the served text.
   */
  lemma LogsTextIsFileSuffix(lines: seq<string>)
    ensures var text := LogsText(Some(lines));
            var cut := |lines| - |Tail(lines)|;
            Concat(lines) == Concat(lines[..cut]) + text
  {
    var cut := |lines| - |Tail(lines)|;
    assert lines == lines[..cut] + Tail(lines);
    ConcatAppend(lines[..cut], Tail(lines));
  }

  /*
   * Both log scanners use `re.search` with a pattern of one shape: a literal
   * followed by a capturing group of one or more characters of a class,
   * `There are (\d+)` and `version ([\d.]+)`.
   */

  predicate IsVersionChar(c: char) {
    IsDigit(c) || c == '.'
  }

  /** A match of `lit(cls+)` starts at index `i` of `line`. */
  predicate MatchAt(line: string, lit: string, cls: char -> bool, i: nat) {
    OccursAt(line, lit, i) && i + |lit| < |line| && cls(line[i + |lit|])
  }

  /** The longest run of `cls` characters of `s` from index `j`: what a greedy `cls+` captures. */
  function Run(s: string, j: nat, cls: char -> bool): (r: string)
    requires j <= |s|
    decreases |s| - j
    ensures j + |r| <= |s| && r == s[j..j + |r|]
    ensures forall k | 0 <= k < |r| :: cls(r[k])
    ensures j + |r| == |s| || !cls(s[j + |r|])
  {
    if j == |s| || !cls(s[j]) then "" else [s[j]] + Run(s, j + 1, cls)
  }

  /** The leftmost index at or after `from` where a match of `lit(cls+)` starts. */
  function FirstMatch(line: string, lit: string, cls: char -> bool, from: nat): (i: Option<nat>)
    decreases |line| - from
    ensures i.Some? ==> from <= i.value && MatchAt(line, lit, cls, i.value)
    ensures i.Some? ==> forall j: nat | from <= j < i.value :: !MatchAt(line, lit, cls, j)
    ensures i.None? ==> forall j: nat | from <= j :: !MatchAt(line, lit, cls, j)
  {
    if from >= |line| then None
    else if MatchAt(line, lit, cls, from) then Some(from)
    else FirstMatch(line, lit, cls, from + 1)
  }

  /**
   * The leftmost match's greedy group lies in the line right after the
   * literal, and nothing in the line continues it.
   */
  lemma LeftmostGroup(line: string, lit: string, cls: char -> bool, i: nat)
    requires FirstMatch(line, lit, cls, 0) == Some(i)
    ensures var g := Run(line, i + |lit|, cls);
      && |g| > 0
      && MatchAt(line, lit, cls, i)
      && (forall j: nat | j < i :: !MatchAt(line, lit, cls, j))
      && i + |lit| + |g| <= |line|
      && g == line[i + |lit|..i + |lit| + |g|]
      && (i + |lit| + |g| == |line| || !cls(line[i + |lit| + |g|]))
  {
    var g := Run(line, i + |lit|, cls);
    assert g[0] == line[i + |lit|];
  }

  /** Group 1 of `re.search(lit + "(" + cls + "+)", line)`, or `None` when it does not match. */
  function Search(line: string, lit: string, cls: char -> bool): (g: Option<string>)
    ensures g.Some? <==> exists i: nat :: MatchAt(line, lit, cls, i)
    ensures g.Some? ==> |g.value| > 0 && forall k | 0 <= k < |g.value| :: cls(g.value[k])
  {
    match FirstMatch(line, lit, cls, 0)
    case None => None
    case Some(i) =>
      var group := Run(line, i + |lit|, cls);
      assert group[0] == line[i + |lit|];
      Some(group)
  }

  /**
   * The group `Search` returns is taken from the line: it is the maximal run
   * of class characters right after the literal of the leftmost match.
   */
  lemma SearchIsLeftmostGreedy(line: string, lit: string, cls: char -> bool)
    ensures var g := Search(line, lit, cls);
      g.Some? ==>
        exists i: nat ::
          && MatchAt(line, lit, cls, i)
          && (forall j: nat | j < i :: !MatchAt(line, lit, cls, j))
          && i + |lit| + |g.value| <= |line|
          && g.value == line[i + |lit|..i + |lit| + |g.value|]
          && (i + |lit| + |g.value| == |line| || !cls(line[i + |lit| + |g.value|]))
  {
    match FirstMatch(line, lit, cls, 0)
    case None =>
    case Some(i) =>
      LeftmostGroup(line, lit, cls, i);
      var g := Run(line, i + |lit|, cls);
      assert Search(line, lit, cls) == Some(g);
      assert
        && MatchAt(line, lit, cls, i)
        && (forall j: nat | j < i :: !MatchAt(line, lit, cls, j))
        && i + |lit| + |g| <= |line|
        && g == line[i + |lit|..i + |lit| + |g|]
        && (i + |lit| + |g| == |line| || !cls(line[i + |lit| + |g|]));
  }

  /** A line `get_players_count` takes its answer from. */
  predicate ReportsPlayers(line: string) {
    Contains(line, THERE_ARE) && Contains(line, PLAYERS_ONLINE)
    && Search(line, COUNT_LITERAL, IsDigit).Some?
  }

  /** The number such a line reports: the digits right after the first matching "There are ". */
  function ReportedCount(line: string): nat
    requires ReportsPlayers(line)
  {
    DecimalValue(Search(line, COUNT_LITERAL, IsDigit).value)
  }

  /** A line `get_minecraft_version` takes its answer from. */
  predicate AnnouncesVersion(line: string) {
    Contains(line, VERSION_GUARD) && Search(line, VERSION_LITERAL, IsVersionChar).Some?
  }

  /** The index of the newest line satisfying `p`, if any. */
  function NewestWhere(lines: seq<string>, p: string -> bool): (k: Option<nat>)
    ensures k.Some? ==>
      && k.value < |lines| && p(lines[k.value])
      && forall j | k.value < j < |lines| :: !p(lines[j])
    ensures k.None? ==> forall j | 0 <= j < |lines| :: !p(lines[j])
  {
    if |lines| == 0 then None
    else if p(lines[|lines| - 1]) then Some(|lines| - 1)
    else NewestWhere(lines[..|lines| - 1], p)
  }

  /** The index of the oldest line satisfying `p`, if any. */
  function OldestWhere(lines: seq<string>, p: string -> bool): (k: Option<nat>)
    ensures k.Some? ==>
      && k.value < |lines| && p(lines[k.value])
      && forall j | 0 <= j < k.value :: !p(lines[j])
    ensures k.None? ==> forall j | 0 <= j < |lines| :: !p(lines[j])
  {
    if |lines| == 0 then None
    else if p(lines[0]) then Some(0)
    else match OldestWhere(lines[1..], p)
      case None => None
      case Some(k) => Some(k + 1)
  }

  /** A line satisfying `p` with none after it is the newest one. */
  lemma NewestWhereIs(lines: seq<string>, p: string -> bool, i: nat)
    requires i < |lines| && p(lines[i])
    requires forall j | i < j < |lines| :: !p(lines[j])
    ensures NewestWhere(lines, p) == Some(i)
  {
  }

  /** A line satisfying `p` with none before it is the oldest one. */
  lemma OldestWhereIs(lines: seq<string>, p: string -> bool, i: nat)
    requires i < |lines| && p(lines[i])
    requires forall j | 0 <= j < i :: !p(lines[j])
    ensures OldestWhere(lines, p) == Some(i)
  {
  }

  /**
   * The index of the newest line `get_players_count` takes its answer from.
   * Lines that mention both phrases but have no digits after "There are "
   * are passed over.
   */
  function NewestReport(lines: seq<string>): Option<nat> {
    NewestWhere(lines, ReportsPlayers)
  }

  /** What `get_players_count` answers for an existing log: the newest reported count, or 0. */
  function PlayersReported(lines: seq<string>): nat {
    match NewestReport(lines)
    case None => 0
    case Some(k) => ReportedCount(lines[k])
  }

  /** A reporting line with none after it decides the answer. */
  lemma PlayersReportedAt(lines: seq<string>, i: nat)
    requires i < |lines| && ReportsPlayers(lines[i])
    requires forall j | i < j < |lines| :: !ReportsPlayers(lines[j])
    ensures PlayersReported(lines) == DecimalValue(Search(lines[i], COUNT_LITERAL, IsDigit).value)
  {
    NewestWhereIs(lines, ReportsPlayers, i);
  }

  /** `get_players_count` on an existing log: scans the lines from the newest back. */
  method PlayersCount(lines: seq<string>) returns (n: nat)
    ensures n == PlayersReported(lines)
  {
    var i := |lines|;
    while i > 0
      invariant 0 <= i <= |lines|
      invariant forall j | i <= j < |lines| :: !ReportsPlayers(lines[j])
    {
      i := i - 1;
      var line := lines[i];
      if Contains(line, THERE_ARE) && Contains(line, PLAYERS_ONLINE) {
        var m := Search(line, COUNT_LITERAL, IsDigit);
        if m.Some? {
          n := DecimalValue(m.value);
          PlayersReportedAt(lines, i);
          return;
        }
      }
    }
    n := 0;
  }

  /** The index of the oldest line `get_minecraft_version` takes its answer from. */
  function OldestAnnouncement(lines: seq<string>): Option<nat> {
    OldestWhere(lines, AnnouncesVersion)
  }

  /** What `get_minecraft_version` answers for an existing log. */
  function VersionReported(lines: seq<string>): string {
    match OldestAnnouncement(lines)
    case None => UNKNOWN_VERSION
    case Some(k) => Search(lines[k], VERSION_LITERAL, IsVersionChar).value
  }

  /**
   * The answer is "unknown" exactly when no line announces a version, since
   * a real version is made of digits and dots only and is never empty.
   */
  lemma VersionReportedShape(lines: seq<string>)
    ensures VersionReported(lines) == UNKNOWN_VERSION <==> OldestAnnouncement(lines).None?
    ensures var v := VersionReported(lines);
            v != UNKNOWN_VERSION ==> |v| > 0 && forall k | 0 <= k < |v| :: IsVersionChar(v[k])
  {
    var v := VersionReported(lines);
    if OldestAnnouncement(lines).Some? {
      assert IsVersionChar(v[0]) && !IsVersionChar(UNKNOWN_VERSION[0]);
    }
  }

  /** `get_minecraft_version` on an existing log: scans the lines from the oldest on. */
  method MinecraftVersion(lines: seq<string>) returns (v: string)
    ensures v == VersionReported(lines)
  {
    var i := 0;
    while i < |lines|
      invariant 0 <= i <= |lines|
      invariant forall j | 0 <= j < i :: !AnnouncesVersion(lines[j])
    {
      var line := lines[i];
      if Contains(line, VERSION_GUARD) {
        var m := Search(line, VERSION_LITERAL, IsVersionChar);
        if m.Some? {
          v := m.value;
          OldestWhereIs(lines, AnnouncesVersion, i);
          return;
        }
      }
      i := i + 1;
    }
    v := UNKNOWN_VERSION;
  }
}
