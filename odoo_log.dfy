/** The server log reader (`erp.health.odoo.log`): each line of the log file's tail is
    parsed into a record, and a refresh replaces the whole table with those records.
    The file's lines are an input (`None` when no log file is found). */
module OdooLog {
  import opened Base
  import opened Text
  import opened Clock
  import opened Strptime
  import opened History

  datatype Level = Debug | Info | Warning | Error | Critical

  /** One stored row. */
  datatype LogEntry = LogEntry(timestamp: Moment, level: Level, logger: string, message: string)

  const DefaultLines: int := 500
  const MaxSplit: nat := 6

  function LevelName(l: Level): string {
    match l
    case Debug => "DEBUG"
    case Info => "INFO"
    case Warning => "WARNING"
    case Error => "ERROR"
    case Critical => "CRITICAL"
  }

  /** The words the level field accepts. */
  const LevelNames: seq<string> := ["DEBUG", "INFO", "WARNING", "ERROR", "CRITICAL"]

  /** The stored level: the word itself when it names a level, INFO otherwise. */
  function LevelOf(word: string): (l: Level)
    ensures word in LevelNames ==> LevelName(l) == word
    ensures word !in LevelNames ==> l == Info
  {
    if word == "DEBUG" then Debug
    else if word == "WARNING" then Warning
    else if word == "ERROR" then Error
    else if word == "CRITICAL" then Critical
    else Info
  }

  /** The first position of `c` in `s`. */
  function IndexOf(s: string, c: char): (r: Option<nat>)
    ensures r.Some? ==> r.value < |s| && s[r.value] == c
  {
    if s == [] then None
    else if s[0] == c then Some(0)
    else
      match IndexOf(s[1..], c)
      case None => None
      case Some(i) => Some(i + 1)
  }

  /** There is no `c` before the position `IndexOf` finds, nor anywhere when it finds
      none. */
  lemma {:induction false} IndexOfFirst(s: string, c: char)
    ensures IndexOf(s, c).None? ==> Lacks(s, c)
    ensures IndexOf(s, c).Some? ==> Lacks(s[..IndexOf(s, c).value], c)
  {
    if s != [] && s[0] != c {
      IndexOfFirst(s[1..], c);
      match IndexOf(s[1..], c)
      case None =>
      case Some(i) =>
        assert s[..i + 1] == [s[0]] + s[1..][..i];
    }
  }

  /** `' '.join(parts)`. */
  function JoinOnSpace(parts: seq<string>): string
    requires parts != []
  {
    if |parts| == 1 then parts[0] else parts[0] + " " + JoinOnSpace(parts[1..])
  }

  /** `s.split(' ', maxsplit)`: cut at the first `maxsplit` single spaces, from the
      left; empty parts are kept. */
  function SplitOnSpace(s: string, maxsplit: nat): (parts: seq<string>)
    ensures 1 <= |parts| <= maxsplit + 1
  {
    if maxsplit == 0 then [s]
    else
      match IndexOf(s, ' ')
      case None => [s]
      case Some(i) =>
        var rest := SplitOnSpace(s[i + 1..], maxsplit - 1);
        [s[..i]] + rest
  }

  /** Every part but the last holds no space. */
  lemma {:induction false} SplitPartLacks(s: string, maxsplit: nat, k: nat)
    requires k < |SplitOnSpace(s, maxsplit)| - 1
    ensures Lacks(SplitOnSpace(s, maxsplit)[k], ' ')
  {
    var i := IndexOf(s, ' ').value;
    SplitAtSpace(s, maxsplit, i);
    if k == 0 {
      IndexOfFirst(s, ' ');
    } else {
      SplitPartLacks(s[i + 1..], maxsplit - 1, k - 1);
    }
  }

  /** The last part holds no space either when the split made fewer than `maxsplit`
      cuts. */
  lemma {:induction false} SplitLastLacks(s: string, maxsplit: nat)
    requires |SplitOnSpace(s, maxsplit)| <= maxsplit
    ensures Lacks(SplitOnSpace(s, maxsplit)[|SplitOnSpace(s, maxsplit)| - 1], ' ')
  {
    var parts := SplitOnSpace(s, maxsplit);
    if IndexOf(s, ' ').None? {
      IndexOfFirst(s, ' ');
      assert parts == [s];
    } else {
      var i := IndexOf(s, ' ').value;
      var rest := SplitOnSpace(s[i + 1..], maxsplit - 1);
      SplitAtSpace(s, maxsplit, i);
      SplitLastLacks(s[i + 1..], maxsplit - 1);
      assert parts[|parts| - 1] == rest[|rest| - 1];
    }
  }

  /** A split with cuts left to make cuts at the first space. */
  lemma SplitAtSpace(s: string, maxsplit: nat, i: nat)
    requires maxsplit > 0 && IndexOf(s, ' ') == Some(i)
    ensures SplitOnSpace(s, maxsplit) == [s[..i]] + SplitOnSpace(s[i + 1..], maxsplit - 1)
  {
  }

  /** `s.split(',')[0]`: `s` up to its first comma. */
  function BeforeComma(s: string): (r: string)
    ensures r <= s && Lacks(r, ',')
    ensures |r| < |s| ==> s[|r|] == ','
  {
    IndexOfFirst(s, ',');
    match IndexOf(s, ',')
    case None => s
    case Some(i) => s[..i]
  }

  /** `_parse_log_line`. The line is split on single spaces into at most seven fields;
      with fewer than six there is no record. The timestamp is field 0 and field 1 up
      to its first comma, read by `strptime`; when that fails (the ValueError is
      caught) there is no record. The level is field 3, the logger field 5 stripped,
      and the message field 6 stripped, or with exactly six fields the whole line
      stripped. The fallback logger 'odoo' is unreachable: a line that gets that far
      always has field 5. */
  function ParseLogLine(line: string): (r: Option<LogEntry>)
    ensures var parts := SplitOnSpace(line, MaxSplit);
      r.Some? <==> |parts| >= 6 && ParseDateTime(StampText(parts)).Some?
    ensures var parts := SplitOnSpace(line, MaxSplit);
      r.Some? ==>
        && |parts| >= 6
        && r.value.timestamp == ParseDateTime(StampText(parts)).value
        && r.value.level == LevelOf(parts[3])
        && r.value.logger == Strip(parts[5])
    ensures r.Some? ==> Stripped(r.value.logger) && Lacks(r.value.logger, ' ')
    ensures r.Some? ==> Stripped(r.value.message)
    ensures var parts := SplitOnSpace(line, MaxSplit);
      r.Some? && |parts| == 7 ==> r.value.message == Strip(parts[6])
    ensures r.Some? && |SplitOnSpace(line, MaxSplit)| == 6 ==> r.value.message == Strip(line)
  {
    var parts := SplitOnSpace(line, MaxSplit);
    if |parts| < 6 then None
    else
      var timestamp :- ParseDateTime(StampText(parts));
      var message := if |parts| > 6 then parts[6] else line;
      var logger := Strip(parts[5]);
      assert Lacks(logger, ' ') by {
        if |parts| == 7 { SplitPartLacks(line, MaxSplit, 5); } else { SplitLastLacks(line, MaxSplit); }
        StripKeepsLacks(parts[5], ' ');
      }
      Some(LogEntry(timestamp, LevelOf(parts[3]), logger, Strip(message)))
  }

  /** The text handed to `strptime`: field 0, a space, and field 1 up to its first
      comma (the milliseconds are dropped). */
  function StampText(parts: seq<string>): string
    requires |parts| >= 2
  {
    parts[0] + " " + BeforeComma(parts[1])
  }

  /** The clock reading of a record's timestamp, the time its row is filed under. */
  function LogTime(e: LogEntry): Time {
    EpochSeconds(e.timestamp)
  }

  /** `all_lines[-n:] if len(all_lines) > n else all_lines`, with Python's slicing:
      `n == 0` keeps every line and a negative `n` drops the first `-n` lines. */
  function Tail(all: seq<string>, n: int): (r: seq<string>)
    ensures |r| <= |all| && r == all[|all| - |r|..]
    ensures n > 0 ==> |r| == Min(n, |all|)
    ensures n == 0 ==> r == all
    ensures n < 0 ==> |r| == if |all| + n > 0 then |all| + n else 0
  {
    if |all| > n then
      if n > 0 then all[|all| - n..] else all[Min(-n, |all|)..]
    else all
  }

  /** `refresh_logs(lines)`. When no log file is found the method logs through a
      module-level `_logger` the file never defines, so it raises NameError (the
      handler's own logging call raises it again) and nothing has changed. Otherwise
      every row is deleted and one row is created per line of the tail that parses,
      in file order, and the method returns True. */
  method RefreshLogs(table: Table<LogEntry>, logFile: Option<seq<string>>, lines: int := DefaultLines)
    returns (exit: Exit<bool>)
    requires table.Valid()
    modifies table
    ensures table.Valid()
    ensures exit.Raise? <==> logFile.None?
    ensures exit.Raise? ==> exit.error == NameError
    ensures exit.Raise? ==> table.rows == old(table.rows) && table.nextId == old(table.nextId)
    ensures exit.Return? ==> exit.value
    ensures exit.Return? ==>
      && table.rows == Timed(old(table.nextId), Collect(Tail(logFile.value, lines), ParseLogLine), LogTime)
      && table.nextId == old(table.nextId) + |Collect(Tail(logFile.value, lines), ParseLogLine)|
    ensures exit.Return? ==> forall i, j :: 0 <= i < |table.rows| && 0 <= j < |old(table.rows)| ==>
      table.rows[i].id != old(table.rows)[j].id
  {
    if logFile.None? {
      return Raise(NameError);
    }
    var lastLines := Tail(logFile.value, lines);
    table.DeleteAll();
    table.InsertParsed(lastLines, ParseLogLine, LogTime);
    exit := Return(true);
  }

  /** A line as the server writes it: `%(asctime)s,<ms> %(pid)s %(levelname)s
      %(dbname)s %(name)s: %(message)s`, ending with its newline. */
  function ServerLine(timestamp: Moment, millis: string, pid: string, level: Level,
                      db: string, name: string, message: string): string
  {
    JoinOnSpace([DateText(timestamp), ClockText(timestamp) + "," + millis, pid, LevelName(level),
                 db, name + ":", message + "\n"])
  }

  lemma {:induction false} IndexOfAfter(a: string, c: char, rest: string)
    requires Lacks(a, c)
    ensures IndexOf(a + [c] + rest, c) == Some(|a|)
  {
    if a != [] {
      assert (a + [c] + rest)[1..] == a[1..] + [c] + rest;
      IndexOfAfter(a[1..], c, rest);
    }
  }

  /** Splitting `maxsplit + 1` fields joined by spaces, none of them but the last
      holding a space, gives the fields back. */
  lemma {:induction false} SplitJoin(parts: seq<string>, maxsplit: nat)
    requires |parts| == maxsplit + 1
    requires forall i :: 0 <= i < maxsplit ==> Lacks(parts[i], ' ')
    ensures SplitOnSpace(JoinOnSpace(parts), maxsplit) == parts
  {
    if maxsplit == 0 {
      assert parts == [parts[0]];
    } else {
      var tail := parts[1..];
      SplitCons(parts[0], JoinOnSpace(tail), maxsplit);
      SplitJoin(tail, maxsplit - 1);
      assert parts == [parts[0]] + tail;
    }
  }

  /** A first part without a space, then a space, is cut off first. */
  lemma SplitCons(head: string, rest: string, maxsplit: nat)
    requires Lacks(head, ' ') && maxsplit > 0
    ensures SplitOnSpace(head + " " + rest, maxsplit) == [head] + SplitOnSpace(rest, maxsplit - 1)
  {
    var s := head + " " + rest;
    IndexOfAfter(head, ' ', rest);
    assert s[..|head|] == head && s[|head| + 1..] == rest;
  }

  /** Joining what the split returns gives the text back. */
  lemma {:induction false} JoinSplit(s: string, maxsplit: nat)
    ensures JoinOnSpace(SplitOnSpace(s, maxsplit)) == s
  {
    if maxsplit == 0 || IndexOf(s, ' ').None? {
      assert SplitOnSpace(s, maxsplit) == [s];
    } else {
      var i := IndexOf(s, ' ').value;
      var head, tail := s[..i], s[i + 1..];
      var rest := SplitOnSpace(tail, maxsplit - 1);
      JoinSplit(tail, maxsplit - 1);
      var parts := SplitOnSpace(s, maxsplit);
      assert parts == [head] + rest;
      assert parts[0] == head && parts[1..] == rest;
      assert JoinOnSpace(parts) == head + " " + JoinOnSpace(rest);
      assert s == head + " " + tail;
    }
  }

  /** A line of seven fields whose first two spell a timestamp gives a record. */
  lemma ParseSevenFields(line: string, date: string, clock: string, pid: string, word: string,
                         db: string, logger: string, message: string, timestamp: Moment)
    requires SplitOnSpace(line, MaxSplit) == [date, clock, pid, word, db, logger, message]
    requires ParseDateTime(date + " " + BeforeComma(clock)) == Some(timestamp)
    ensures ParseLogLine(line) == Some(LogEntry(timestamp, LevelOf(word), Strip(logger), Strip(message)))
  {
    var parts := SplitOnSpace(line, MaxSplit);
    assert |parts| == 7 && parts[0] == date && parts[1] == clock;
    assert parts[3] == word && parts[5] == logger && parts[6] == message;
  }

  lemma LevelRoundTrip(l: Level)
    ensures LevelOf(LevelName(l)) == l
  {
  }

  /** A line the server writes splits into its seven fields. */
  lemma ServerLineSplits(timestamp: Moment, millis: string, pid: string, level: Level,
                         db: string, name: string, message: string)
    requires Lacks(millis, ' ') && Lacks(pid, ' ') && Lacks(db, ' ') && Lacks(name, ' ')
    ensures SplitOnSpace(ServerLine(timestamp, millis, pid, level, db, name, message), MaxSplit)
         == [DateText(timestamp), ClockText(timestamp) + "," + millis, pid, LevelName(level),
             db, name + ":", message + "\n"]
  {
    var p1, p3, p5 := ClockText(timestamp) + "," + millis, LevelName(level), name + ":";
    assert Lacks(p1, ' ') && Lacks(p3, ' ') && Lacks(p5, ' ');
    SplitJoin([DateText(timestamp), p1, pid, p3, db, p5, message + "\n"], MaxSplit);
  }

  /** A line the server writes parses back into its timestamp, level, logger and
      message. The logger keeps the colon the server's format puts after the logger
      name, because the line is cut on spaces only. */
  lemma ParseServerLine(timestamp: Moment, millis: string, pid: string, level: Level,
                        db: string, name: string, message: string)
    requires Lacks(millis, ' ') && Lacks(pid, ' ') && Lacks(db, ' ') && Lacks(name, ' ')
    requires name == [] || !IsSpace(name[0])
    requires Stripped(message)
    ensures ParseLogLine(ServerLine(timestamp, millis, pid, level, db, name, message))
         == Some(LogEntry(timestamp, level, name + ":", message))
  {
    var date, clock := DateText(timestamp), ClockText(timestamp);
    var line := ServerLine(timestamp, millis, pid, level, db, name, message);
    ServerLineSplits(timestamp, millis, pid, level, db, name, message);
    IndexOfAfter(clock, ',', millis);
    assert BeforeComma(clock + "," + millis) == clock;
    ParseFormatted(timestamp);
    FormatSplits(timestamp);
    LevelRoundTrip(level);
    LoggerAndMessageKept(name, message);
    ParseSevenFields(line, date, clock + "," + millis, pid, LevelName(level), db, name + ":", message + "\n", timestamp);
  }

  /** The server's logger field and message come through `strip` unchanged. */
  lemma LoggerAndMessageKept(name: string, message: string)
    requires name == [] || !IsSpace(name[0])
    requires Stripped(message)
    ensures Strip(name + ":") == name + ":"
    ensures Strip(message + "\n") == message
  {
    StripDropsTrailingSpace(message, '\n');
    StripOfStripped(name + ":");
  }
}
