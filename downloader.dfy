/** The part of `InstallLocalFromSource::Downloader` that decides what to download:
    reading the lines of a UNIX `ls -l`-style FTP listing, picking the newest
    sub-directory or the newest tar file, and naming the directory the tar file
    unpacks into. The FTP session is not modelled: a listing is the sequence of lines
    `ftp.list('*')` returned, and "today" is a parameter. */
module Downloader {
  import opened Wrappers
  import opened Text
  import opened Calendar

  /** One `{:entry_name, :creation_date}` hash of the script. A directory line with
      only eight fields has no name (Ruby's nil); it is written "" here, which no
      field can be. */
  datatype Entry = Entry(name: string, creationDate: Date)

  /** What the scans raise instead of returning. */
  datatype ScanError =
    | MissingDateFields  // `nil.include?`: a directory line with fewer than eight fields
    | InvalidDate        // `Date.parse` rejects the month, day and year it is given
    | NoDirectoryEntry   // `throw "No directory entry in ..."`
    | NoTarFile          // `throw "No tar file in ..."`

  /** Which of the two scans: `get_the_newest_directory` or `get_the_newest_tar_file`. */
  datatype Kind = Directories | TarFiles

  const TarMarker: string := ".tar."

  // ---------------------------------------------------------------------------
  // Reading one listing line

  /** The directory scan keeps a line whose permission field starts with `d`. */
  predicate IsDirectoryLine(line: string) {
    var f := Fields(line);
    |f| > 0 && f[0][0] == 'd'
  }

  /** The tar scan keeps a line whose ninth field, the name, contains `.tar.`;
      it never looks at the permission field. */
  predicate IsTarLine(line: string) {
    var f := Fields(line);
    |f| > 8 && Contains(f[8], TarMarker)
  }

  predicate Selects(kind: Kind, line: string) {
    match kind
    case Directories => IsDirectoryLine(line)
    case TarFiles => IsTarLine(line)
  }

  /** A year as `ls -l` prints it: four digits, the first not zero. */
  predicate IsYearToken(t: string) {
    |t| == 4 && AllDigits(t) && t[0] != '0'
  }

  /** The year of an entry: this year when the year-or-time field is a clock time,
      otherwise the year the field spells. */
  function InferYear(yearOrTime: string, thisYear: int): (r: Option<int>)
    ensures ':' in yearOrTime ==> r == Some(thisYear)
    ensures ':' !in yearOrTime ==> (r.Some? <==> IsYearToken(yearOrTime))
    ensures ':' !in yearOrTime && r.Some? ==> r.value >= 0 && DecimalString(r.value) == yearOrTime
  {
    if ':' in yearOrTime then Some(thisYear)
    else if IsYearToken(yearOrTime) then
      CanonicalNumeral(yearOrTime);
      Some(DigitsValue(yearOrTime))
    else None
  }

  /** A day of the month as `ls -l` prints it: one or two digits. */
  function ParseDay(t: string): Option<int> {
    if 1 <= |t| <= 2 && AllDigits(t) then Some(DigitsValue(t))
    else None
  }

  /** `Date.parse("#{year}-#{month}-#{day}")` for the month and day tokens of a
      listing line. */
  function ParseDate(year: int, monthToken: string, dayToken: string): (r: Result<Date, ScanError>)
    ensures r.Err? ==> r.error == InvalidDate
    ensures r.Ok? ==> IsValid(r.value) && r.value.year == year
    ensures r.Ok? ==> MonthAbbreviations[r.value.month - 1] == monthToken
    ensures r.Ok? ==> ParseDay(dayToken) == Some(r.value.day)
    ensures (monthToken in MonthAbbreviations && ParseDay(dayToken).Some? &&
             IsValid(Date(year, MonthNumber(monthToken).value, ParseDay(dayToken).value))) ==> r.Ok?
  {
    match (MonthNumber(monthToken), ParseDay(dayToken))
    case (Some(m), Some(d)) =>
      if IsValid(Date(year, m, d)) then Ok(Date(year, m, d)) else Err(InvalidDate)
    case _ => Err(InvalidDate)
  }

  /** The creation date fields 5, 6 and 7 give, before any correction. */
  function CreationDate(f: seq<string>, thisYear: int): Result<Date, ScanError>
    requires |f| >= 8
  {
    match InferYear(f[7], thisYear)
    case None => Err(InvalidDate)
    case Some(y) => ParseDate(y, f[5], f[6])
  }

  /** The tar scan's correction: a date after today is taken to be last year's. */
  function CorrectFutureDate(d: Date, today: Date): (r: Result<Date, ScanError>)
    ensures !Before(today, d) ==> r == Ok(d)
    ensures r.Ok? ==> !Before(today, r.value)
    ensures r.Ok? ==> r.value.month == d.month && r.value.day == d.day
    ensures r.Ok? && Before(today, d) ==> r.value.year == today.year - 1 && IsValid(r.value)
    ensures IsValid(d) && Before(today, d) ==>
              (r.Err? <==> d.month == 2 && d.day == 29 && !IsLeapYear(today.year - 1))
  {
    if Before(today, d) then
      var earlier := Date(today.year - 1, d.month, d.day);
      if IsValid(earlier) then Ok(earlier) else Err(InvalidDate)
    else Ok(d)
  }

  /** The entry the directory scan records for a directory line. */
  function DirectoryEntry(line: string, today: Date): Result<Entry, ScanError>
    requires IsDirectoryLine(line)
  {
    var f := Fields(line);
    if |f| < 8 then Err(MissingDateFields)
    else
      match CreationDate(f, today.year)
      case Err(e) => Err(e)
      case Ok(d) => Ok(Entry(if |f| > 8 then f[8] else "", d))
  }

  /** The entry the tar scan records for a tar line. */
  function TarFileEntry(line: string, today: Date): Result<Entry, ScanError>
    requires IsTarLine(line)
  {
    var f := Fields(line);
    match CreationDate(f, today.year)
    case Err(e) => Err(e)
    case Ok(d) =>
      match CorrectFutureDate(d, today)
      case Err(e) => Err(e)
      case Ok(c) => Ok(Entry(f[8], c))
  }

  /** A directory line raises for want of fields exactly when it has fewer than
      eight; otherwise its entry is named by the ninth field (none when there is no
      ninth) and dated by fields 5 to 7, with no correction of a future date. */
  lemma DirectoryEntryReadsTheFields(line: string, today: Date)
    requires IsDirectoryLine(line)
    ensures DirectoryEntry(line, today) == Err(MissingDateFields) <==> |Fields(line)| < 8
    ensures DirectoryEntry(line, today).Ok? ==>
      var f, e := Fields(line), DirectoryEntry(line, today).value;
      var d := e.creationDate;
      IsValid(d) && InferYear(f[7], today.year) == Some(d.year)
      && MonthAbbreviations[d.month - 1] == f[5] && ParseDay(f[6]) == Some(d.day)
      && e.name == (if |f| > 8 then f[8] else "")
  {
  }

  /** A tar line's entry is named by its ninth field and dated by fields 5 to 7;
      a date after today is moved to the year before today's, so the entry's date
      is never after today. */
  lemma TarFileEntryReadsTheFields(line: string, today: Date)
    requires IsTarLine(line)
    ensures TarFileEntry(line, today).Ok? ==>
      var f, e := Fields(line), TarFileEntry(line, today).value;
      var d := e.creationDate;
      IsValid(d) && !Before(today, d)
      && MonthAbbreviations[d.month - 1] == f[5] && ParseDay(f[6]) == Some(d.day)
      && e.name == f[8]
      && InferYear(f[7], today.year).Some?
      && var y := InferYear(f[7], today.year).value;
         if Before(today, Date(y, d.month, d.day)) then d.year == today.year - 1 else d.year == y
  {
  }

  /** The tar scan's entry, step by step as the loop body computes it: re-parsing
      the month and day with last year's number is the correction. */
  lemma TarFileEntrySteps(line: string, today: Date)
    requires IsTarLine(line)
    ensures var f := Fields(line);
      var y := InferYear(f[7], today.year);
      (y.None? ==> TarFileEntry(line, today) == Err(InvalidDate))
      && (y.Some? ==>
            var d := ParseDate(y.value, f[5], f[6]);
            var c := if d.Ok? && Before(today, d.value) then ParseDate(today.year - 1, f[5], f[6]) else d;
            TarFileEntry(line, today) == if c.Err? then Err(c.error) else Ok(Entry(f[8], c.value)))
  {
  }

  function EntryOf(kind: Kind, line: string, today: Date): Result<Entry, ScanError>
    requires Selects(kind, line)
  {
    match kind
    case Directories => DirectoryEntry(line, today)
    case TarFiles => TarFileEntry(line, today)
  }

  // ---------------------------------------------------------------------------
  // Scanning a listing

  /** The lines a scan keeps, in listing order. */
  function Candidates(kind: Kind, lines: seq<string>): (r: seq<string>)
    ensures forall i :: 0 <= i < |r| ==> Selects(kind, r[i])
    ensures forall l :: l in r <==> l in lines && Selects(kind, l)
    decreases |lines|
  {
    if |lines| == 0 then []
    else
      var init, last := lines[..|lines| - 1], lines[|lines| - 1];
      assert lines == init + [last];
      var rest := Candidates(kind, init);
      if Selects(kind, last) then rest + [last] else rest
  }

  /** What the `each` loop of a scan builds: the entries of the kept lines, or the
      first error a kept line raises. */
  function Scan(kind: Kind, lines: seq<string>, today: Date): Result<seq<Entry>, ScanError>
    decreases |lines|
  {
    if |lines| == 0 then Ok([])
    else
      match Scan(kind, lines[..|lines| - 1], today)
      case Err(e) => Err(e)
      case Ok(es) =>
        var line := lines[|lines| - 1];
        if !Selects(kind, line) then Ok(es)
        else
          match EntryOf(kind, line, today)
          case Err(e) => Err(e)
          case Ok(entry) => Ok(es + [entry])
  }

  function NoEntryError(kind: Kind): ScanError {
    match kind
    case Directories => NoDirectoryEntry
    case TarFiles => NoTarFile
  }

  /** The name a scan returns: the newest kept entry's, or an error. */
  function Newest(kind: Kind, listing: seq<string>, today: Date): Result<string, ScanError> {
    match Scan(kind, listing, today)
    case Err(e) => Err(e)
    case Ok(es) => if |es| == 0 then Err(NoEntryError(kind)) else Ok(NameOfTheNewest(es))
  }

  /** An error that a prefix of the listing raises is the listing's error. */
  lemma {:induction false} ScanErrorPersists(kind: Kind, lines: seq<string>, k: nat, today: Date)
    requires k <= |lines|
    requires Scan(kind, lines[..k], today).Err?
    ensures Scan(kind, lines, today) == Scan(kind, lines[..k], today)
    decreases |lines| - k
  {
    if k < |lines| {
      assert lines[..k + 1][..k] == lines[..k];
      ScanErrorPersists(kind, lines, k + 1, today);
    } else {
      assert lines[..k] == lines;
    }
  }

  /** A scan that succeeds has recorded one entry per kept line, in order. */
  lemma {:induction false} ScanRecordsEveryCandidate(kind: Kind, lines: seq<string>, today: Date)
    requires Scan(kind, lines, today).Ok?
    ensures var c, es := Candidates(kind, lines), Scan(kind, lines, today).value;
      |es| == |c| && forall i :: 0 <= i < |c| ==> EntryOf(kind, c[i], today) == Ok(es[i])
    decreases |lines|
  {
    if |lines| > 0 {
      var init, last := lines[..|lines| - 1], lines[|lines| - 1];
      ScanRecordsEveryCandidate(kind, init, today);
      var c0, c := Candidates(kind, init), Candidates(kind, lines);
      if Selects(kind, last) {
        assert forall j :: 0 <= j < |c0| ==> c[j] == c0[j];
      }
    }
  }

  /** The kept lines of a listing extend those of the listing without its last line. */
  lemma CandidatesOfInit(kind: Kind, lines: seq<string>)
    requires |lines| > 0
    ensures var c0, c := Candidates(kind, lines[..|lines| - 1]), Candidates(kind, lines);
      c == c0 + (if Selects(kind, lines[|lines| - 1]) then [lines[|lines| - 1]] else [])
  {
  }

  /** A scan that fails fails with the error of the first kept line that raises. */
  lemma {:induction false} ScanFailsAtFirstBadCandidate(kind: Kind, lines: seq<string>, today: Date)
    requires Scan(kind, lines, today).Err?
    ensures var c, e := Candidates(kind, lines), Scan(kind, lines, today).error;
      exists i :: 0 <= i < |c| && EntryOf(kind, c[i], today) == Err(e)
                  && forall j :: 0 <= j < i ==> EntryOf(kind, c[j], today).Ok?
    decreases |lines|
  {
    var init := lines[..|lines| - 1];
    var c0, c := Candidates(kind, init), Candidates(kind, lines);
    CandidatesOfInit(kind, lines);
    if Scan(kind, init, today).Err? {
      assert Scan(kind, lines, today) == Scan(kind, init, today);
      ScanFailsAtFirstBadCandidate(kind, init, today);
      var i :| 0 <= i < |c0| && EntryOf(kind, c0[i], today) == Err(Scan(kind, init, today).error)
               && forall j :: 0 <= j < i ==> EntryOf(kind, c0[j], today).Ok?;
      FailureInPrefix(kind, c0, c, i, today);
    } else {
      ScanRecordsEveryCandidate(kind, init, today);
      assert c == c0 + [lines[|lines| - 1]];
      FailureAtEnd(kind, c0, c, today);
    }
  }

  lemma FailureInPrefix(kind: Kind, c0: seq<string>, c: seq<string>, i: nat, today: Date)
    requires c0 <= c && i < |c0|
    requires forall j :: 0 <= j < |c| ==> Selects(kind, c[j])
    requires EntryOf(kind, c0[i], today).Err?
    requires forall j :: 0 <= j < i ==> EntryOf(kind, c0[j], today).Ok?
    ensures exists k :: 0 <= k < |c| && EntryOf(kind, c[k], today) == EntryOf(kind, c0[i], today)
                        && forall j :: 0 <= j < k ==> EntryOf(kind, c[j], today).Ok?
  {
    assert forall j :: 0 <= j < |c0| ==> c[j] == c0[j];
    assert c[i] == c0[i];
  }

  lemma FailureAtEnd(kind: Kind, c0: seq<string>, c: seq<string>, today: Date)
    requires |c| == |c0| + 1 && c0 <= c
    requires forall j :: 0 <= j < |c| ==> Selects(kind, c[j])
    requires EntryOf(kind, c[|c0|], today).Err?
    requires forall j :: 0 <= j < |c0| ==> EntryOf(kind, c0[j], today).Ok?
    ensures exists k :: 0 <= k < |c| && EntryOf(kind, c[k], today) == EntryOf(kind, c[|c0|], today)
                        && forall j :: 0 <= j < k ==> EntryOf(kind, c[j], today).Ok?
  {
    assert forall j :: 0 <= j < |c0| ==> c[j] == c0[j];
  }

  /** A scan keeps exactly the selected lines, in order: it succeeds exactly when
      every kept line yields an entry, and then it has recorded those entries. */
  lemma ScanKeepsExactlyTheCandidates(kind: Kind, lines: seq<string>, today: Date)
    ensures var c, s := Candidates(kind, lines), Scan(kind, lines, today);
      (s.Ok? <==> forall i :: 0 <= i < |c| ==> EntryOf(kind, c[i], today).Ok?)
      && (s.Ok? ==> |s.value| == |c| && forall i :: 0 <= i < |c| ==> EntryOf(kind, c[i], today) == Ok(s.value[i]))
  {
    if Scan(kind, lines, today).Ok? {
      ScanRecordsEveryCandidate(kind, lines, today);
    } else {
      ScanFailsAtFirstBadCandidate(kind, lines, today);
    }
  }

  /** A scan fails for want of entries exactly when the listing has no line it keeps. */
  lemma NewestFailsWithoutCandidates(kind: Kind, listing: seq<string>, today: Date)
    ensures Newest(kind, listing, today) == Err(NoEntryError(kind)) <==> Candidates(kind, listing) == []
  {
    var s, c := Scan(kind, listing, today), Candidates(kind, listing);
    if s.Err? {
      ScanFailsAtFirstBadCandidate(kind, listing, today);
      var i :| 0 <= i < |c| && EntryOf(kind, c[i], today) == Err(s.error);
      EntryErrorsAreReadErrors(kind, c[i], today);
    } else {
      ScanRecordsEveryCandidate(kind, listing, today);
    }
  }

  /** Reading one line fails only for want of fields or for a bad date. */
  lemma EntryErrorsAreReadErrors(kind: Kind, line: string, today: Date)
    requires Selects(kind, line)
    ensures EntryOf(kind, line, today).Err? ==>
              EntryOf(kind, line, today).error == MissingDateFields || EntryOf(kind, line, today).error == InvalidDate
    ensures kind == TarFiles && EntryOf(kind, line, today).Err? ==> EntryOf(kind, line, today).error == InvalidDate
  {
  }

  /** A scan that succeeds returns the name of a kept line whose date is not before
      the date of any kept line. */
  lemma NewestIsANewestCandidate(kind: Kind, listing: seq<string>, today: Date)
    requires Newest(kind, listing, today).Ok?
    ensures var c := Candidates(kind, listing);
      (forall j :: 0 <= j < |c| ==> EntryOf(kind, c[j], today).Ok?)
      && exists i :: 0 <= i < |c| && EntryOf(kind, c[i], today).value.name == Newest(kind, listing, today).value
           && forall j :: 0 <= j < |c| ==>
                !Before(EntryOf(kind, c[i], today).value.creationDate, EntryOf(kind, c[j], today).value.creationDate)
  {
    ScanKeepsExactlyTheCandidates(kind, listing, today);
    var es := Scan(kind, listing, today).value;
    var c := Candidates(kind, listing);
    var i :| 0 <= i < |es| && es[i].name == NameOfTheNewest(es)
             && forall j :: 0 <= j < |es| ==> !Before(es[i].creationDate, es[j].creationDate);
    assert EntryOf(kind, c[i], today).value == es[i];
  }

  /** The tar file a scan picks is named like an archive and is not dated after today. */
  lemma NewestTarFileIsAnArchive(listing: seq<string>, today: Date)
    requires Newest(TarFiles, listing, today).Ok?
    ensures var n := Newest(TarFiles, listing, today).value;
      Contains(n, TarMarker) && NoSpace(n)
      && exists l :: l in listing && IsTarLine(l) && TarFileEntry(l, today).Ok?
           && TarFileEntry(l, today).value.name == n && !Before(today, TarFileEntry(l, today).value.creationDate)
  {
    NewestIsANewestCandidate(TarFiles, listing, today);
    var c := Candidates(TarFiles, listing);
    var i :| 0 <= i < |c| && EntryOf(TarFiles, c[i], today).value.name == Newest(TarFiles, listing, today).value;
    assert c[i] in c;
  }

  // ---------------------------------------------------------------------------
  // Newest selection

  /** Index of an entry whose date no other entry's date follows. */
  function NewestIndex(entries: seq<Entry>): (k: nat)
    requires |entries| > 0
    ensures k < |entries|
    ensures forall j :: 0 <= j < |entries| ==> !Before(entries[k].creationDate, entries[j].creationDate)
    decreases |entries|
  {
    if |entries| == 1 then 0
    else
      var k := NewestIndex(entries[..|entries| - 1]);
      assert forall j :: 0 <= j < |entries| - 1 ==> entries[..|entries| - 1][j] == entries[j];
      if Before(entries[k].creationDate, entries[|entries| - 1].creationDate) then |entries| - 1 else k
  }

  /** `sort_by { creation_date }[-1][:entry_name]`: the name of an entry with the
      latest date. Which of several equally new entries wins is not promised, since
      `sort_by` is not stable. */
  function NameOfTheNewest(entries: seq<Entry>): (r: string)
    requires |entries| > 0
    ensures exists i :: 0 <= i < |entries| && entries[i].name == r
              && forall j :: 0 <= j < |entries| ==> !Before(entries[i].creationDate, entries[j].creationDate)
  {
    var k := NewestIndex(entries);
    entries[k].name
  }

  // ---------------------------------------------------------------------------
  // The two scans as the script runs them

  /** `get_the_newest_directory` on the lines of a listing. */
  method GetTheNewestDirectory(listing: seq<string>, today: Date) returns (r: Result<string, ScanError>)
    ensures r == Newest(Directories, listing, today)
  {
    var thisYear := today.year;
    var nameAndCreationDate: seq<Entry> := [];
    for i := 0 to |listing|
      invariant Scan(Directories, listing[..i], today) == Ok(nameAndCreationDate)
    {
      assert listing[..i + 1][..i] == listing[..i];
      var elems := Fields(listing[i]);
      // skip every line that is not a directory
      if !(|elems| > 0 && elems[0][0] == 'd') {
        continue;
      }
      if |elems| < 8 {
        ScanErrorPersists(Directories, listing, i + 1, today);
        return Err(MissingDateFields);
      }
      var month, day, yearOrTime := elems[5], elems[6], elems[7];
      var entryName := if |elems| > 8 then elems[8] else "";
      var year := InferYear(yearOrTime, thisYear);
      if year.None? {
        ScanErrorPersists(Directories, listing, i + 1, today);
        return Err(InvalidDate);
      }
      var creationDate := ParseDate(year.value, month, day);
      if creationDate.Err? {
        ScanErrorPersists(Directories, listing, i + 1, today);
        return Err(creationDate.error);
      }
      nameAndCreationDate := nameAndCreationDate + [Entry(entryName, creationDate.value)];
    }
    assert listing[..|listing|] == listing;
    if |nameAndCreationDate| == 0 {
      return Err(NoDirectoryEntry);
    }
    r := Ok(NameOfTheNewest(nameAndCreationDate));
  }

  /** `get_the_newest_tar_file` on the lines of a listing. */
  method GetTheNewestTarFile(listing: seq<string>, today: Date) returns (r: Result<string, ScanError>)
    ensures r == Newest(TarFiles, listing, today)
  {
    var thisYear := today.year;
    var nameAndCreationDate: seq<Entry> := [];
    for i := 0 to |listing|
      invariant Scan(TarFiles, listing[..i], today) == Ok(nameAndCreationDate)
    {
      assert listing[..i + 1][..i] == listing[..i];
      var elems := Fields(listing[i]);
      // skip every line whose name is not an archive name
      if !(|elems| > 8 && Contains(elems[8], TarMarker)) {
        continue;
      }
      TarFileEntrySteps(listing[i], today);
      var entryName := elems[8];
      var month, day, yearOrTime := elems[5], elems[6], elems[7];
      var year := InferYear(yearOrTime, thisYear);
      if year.None? {
        ScanErrorPersists(TarFiles, listing, i + 1, today);
        return Err(InvalidDate);
      }
      var creationDate := ParseDate(year.value, month, day);
      if creationDate.Ok? && Before(today, creationDate.value) {
        // a listing leaves the year out for recent files
        creationDate := ParseDate(today.year - 1, month, day);
      }
      if creationDate.Err? {
        ScanErrorPersists(TarFiles, listing, i + 1, today);
        return Err(creationDate.error);
      }
      nameAndCreationDate := nameAndCreationDate + [Entry(entryName, creationDate.value)];
    }
    assert listing[..|listing|] == listing;
    if |nameAndCreationDate| == 0 {
      return Err(NoTarFile);
    }
    r := Ok(NameOfTheNewest(nameAndCreationDate));
  }

  // ---------------------------------------------------------------------------
  // From the tar file to the unpacked directory

  /** The last position at or before `i` where `t` occurs in `s`, or -1. */
  function LastOccurrence(s: string, t: string, i: int): (k: int)
    requires i >= -1
    ensures -1 <= k <= i
    ensures k >= 0 ==> OccursAt(s, t, k)
    ensures forall j :: k < j <= i ==> !OccursAt(s, t, j)
    decreases i + 1
  {
    if i < 0 then -1
    else if OccursAt(s, t, i) then i
    else LastOccurrence(s, t, i - 1)
  }

  /** The first group of matching the regular expression `(.*)\.tar\..*` against
      the name: the greedy group stops at the last `.tar.` of the name. A name without `.tar.` makes the script raise; the tar
      scan only ever passes names with one, and names from a listing hold no newline,
      which `.` would not match. */
  function LibAndVersion(tarFile: string): (r: string)
    requires Contains(tarFile, TarMarker)
    requires '\n' !in tarFile
    ensures r + TarMarker <= tarFile
    ensures forall j :: |r| < j ==> !OccursAt(tarFile, TarMarker, j)
  {
    var k := LastOccurrence(tarFile, TarMarker, |tarFile| - |TarMarker|);
    assert OccursAt(tarFile, TarMarker, k);
    tarFile[..k]
  }

  /** An archive name `base.tar.ext` unpacks into `base` when no `.tar.` starts
      after the one that ends the base. */
  lemma LibAndVersionOfArchive(base: string, ext: string)
    requires '\n' !in base && '\n' !in ext
    requires !Contains("tar." + ext, TarMarker)
    ensures Contains(base + TarMarker + ext, TarMarker)
    ensures LibAndVersion(base + TarMarker + ext) == base
  {
    var rest := "tar." + ext;
    var name := base + TarMarker + ext;
    assert name == (base + ".") + rest;
    assert '\n' !in name;
    assert OccursAt(name, TarMarker, |base|);
    var r := LibAndVersion(name);
    assert OccursAt(name, TarMarker, |r|) by { assert name[|r|..|r| + |TarMarker|] == TarMarker; }
    if |r| > |base| {
      OccursInSuffix(base + ".", rest, TarMarker, |r|);
    }
    assert |r| == |base|;
  }

  /** `@unzipped_dir_name = lib_and_version(newest_tar_file)`: the directory the
      newest tar file of a listing unpacks into. */
  function UnzippedDirName(listing: seq<string>, today: Date): (r: Result<string, ScanError>)
    ensures r.Ok? <==> Newest(TarFiles, listing, today).Ok?
    ensures r.Err? ==> r == Newest(TarFiles, listing, today)
    ensures r.Ok? ==> r.value + TarMarker <= Newest(TarFiles, listing, today).value
    ensures r.Ok? ==> forall j :: |r.value| < j ==> !OccursAt(Newest(TarFiles, listing, today).value, TarMarker, j)
  {
    match Newest(TarFiles, listing, today)
    case Err(e) => Err(e)
    case Ok(name) =>
      NewestTarFileIsAnArchive(listing, today);
      assert forall i :: 0 <= i < |name| ==> !IsSpace(name[i]);
      Ok(LibAndVersion(name))
  }
}
