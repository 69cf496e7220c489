# install-local-from-source, modelled in Dafny

`install-local-from-source.rb` fetches the newest source release of a library from
an FTP server, unpacks it and installs it below a local root. This project models
the part of the script that makes decisions, and proves properties of it:

- **Downloader** (`downloader.dfy`). It reads the lines of a UNIX `ls -l`-style FTP
  listing and picks the newest sub-directory (`get_the_newest_directory`) or the
  newest tar file (`get_the_newest_tar_file`). It chooses the newest entry
  (`name_of_the_newest`). It names the directory an archive unpacks into
  (`lib_and_version`, `@unzipped_dir_name`). The two scans are `method`s whose
  loops mirror the Ruby `each` blocks, including their early exits. Each is proved
  equal to one specification function, `Newest`. The lemmas about `Newest` state
  what a scan keeps, when it fails and what it returns.
- **Text** (`text.dfy`). The Ruby `String` operations the scans depend on:
  `split` with no argument, `lines`, `include?`, the `\s` and `\w` character
  classes, and decimal numerals.
- **Calendar** (`calendar.dfy`). Gregorian dates, their validity (the dates
  `Date.parse` accepts for the year, month abbreviation and day a listing prints)
  and their order.
- **Strings** (`strings.dfy`). The script's `String` extensions: `colorize`, `red`,
  `green`, `pink` and `align_to_right`, which strips the common indentation of a
  here-document.
- **ShellVariables** (`shell_variables.dfy`). `ShellVariables.check`: whether
  `PATH`, `LD_LIBRARY_PATH` and `PKG_CONFIG_PATH` point into the installation root,
  and which of them are reported.
- **Config** (`config.dfy`). `Config.valid?` over the four settings.
- **Scenarios** (`scenarios.dfy`). Concrete listing lines, names and
  here-documents, and what the model makes of them.

Where they do not come back as values, the errors the script raises are modelled
as `Err` results: Ruby's `NoMethodError` on a missing field, `Date::Error` from
`Date.parse` and `throw` when nothing is found. "Today" and the process
environment are parameters. An FTP listing is the sequence of lines that
`ftp.list('*')` returns.

Three points where the script's text behaves differently from a plain reading of
its intent. The model follows the code in each:

- The unpacked directory name is everything before the *last* `.tar.` of the
  archive name, because the group `(.*)` in `(.*)\.tar\..*` is greedy. It is not
  everything before the first `.tar`.
- `sort_by` is not stable. When several entries share the newest date, any one of
  them may be returned, not necessarily the last one listed. `NameOfTheNewest`
  therefore promises one entry with a newest date, and no particular one among
  ties.
- The tar scan selects lines on the name field alone and never looks at the
  permission field. A directory whose name contains `.tar.` is kept as a tar file
  (`Scenarios.TarScanKeepsArchiveLikeDirectories`).

## Model

| member | source | states |
|---|---|---|
| Downloader.IsDirectoryLine | install-local-from-source.rb:317-318 | the directory scan keeps a line whose first field starts with `d`; an empty line has no first field and is skipped |
| Downloader.IsTarLine | install-local-from-source.rb:341-342 | the tar scan keeps a line that has a ninth field containing `.tar.`; a line without one is skipped |
| Downloader.Selects | install-local-from-source.rb:318 | which of the two line tests a scan applies |
| Downloader.IsYearToken | install-local-from-source.rb:322 | the year field of a listing: four digits, the first not zero |
| Downloader.ParseDay | install-local-from-source.rb:324 | the day field of a listing: one or two digits, read as a number |
| Downloader.CreationDate | install-local-from-source.rb:320-324 | the date fields 5 to 7 give: the inferred year, then `Date.parse` of year, month and day |
| Downloader.DirectoryEntry | install-local-from-source.rb:314-325 | a directory line's entry: fewer than eight fields raise, otherwise the ninth field dated by `CreationDate` |
| Downloader.TarFileEntry | install-local-from-source.rb:338-354 | a tar line's entry: the ninth field dated by `CreationDate`, then by `CorrectFutureDate` |
| Downloader.EntryOf | install-local-from-source.rb:314-354 | the entry the chosen scan reads from a kept line |
| Downloader.Scan | install-local-from-source.rb:313-355 | the `each` loop of a scan: the entries of the kept lines, in order, or the first error a kept line raises |
| Downloader.Newest | install-local-from-source.rb:309-360 | a scan's result: its error; the "no entry" error when it recorded nothing; else the name of the newest entry |
| Downloader.GetTheNewestDirectory | install-local-from-source.rb:309-331 | the directory scan's loop returns exactly `Newest(Directories, listing, today)`, errors included |
| Downloader.GetTheNewestTarFile | install-local-from-source.rb:333-360 | the tar scan's loop, including the re-parse of a future date with last year, returns exactly `Newest(TarFiles, listing, today)` |
| Downloader.InferYear | install-local-from-source.rb:322 | a year-or-time field containing `:` gives this year. Otherwise it gives a year exactly when the field is a four-digit year, and that year prints back as the field |
| Downloader.ParseDate | install-local-from-source.rb:324 | `Date.parse` of year-month-day fails only with InvalidDate. A result is a valid date whose month abbreviation and day are the given tokens. Every valid combination of tokens parses |
| Downloader.CorrectFutureDate | install-local-from-source.rb:349-352 | a date not after today is kept. A corrected date keeps month and day, is in the year before today's and is never after today. For a valid future date, it fails exactly on 29 February when last year was not a leap year |
| Downloader.DirectoryEntryReadsTheFields | install-local-from-source.rb:314-325 | a directory line fails for want of fields exactly when it has fewer than eight. Its entry is the ninth field, dated by fields 5 to 7 with the year inferred and no correction of a future date |
| Downloader.TarFileEntryReadsTheFields | install-local-from-source.rb:338-354 | a tar line's entry is named by its ninth field and dated by fields 5 to 7. The date is valid and never after today. The year is last year's exactly when the inferred date lies after today |
| Downloader.TarFileEntrySteps | install-local-from-source.rb:344-352 | a tar line's entry is what the loop body computes step by step: infer the year, parse, and parse again with last year when the first date is after today |
| Downloader.EntryErrorsAreReadErrors | install-local-from-source.rb:320-324 | reading a kept line fails only with MissingDateFields or InvalidDate, and reading a tar line only with InvalidDate |
| Downloader.Candidates | install-local-from-source.rb:318 | the kept lines are exactly the listing's lines that the scan selects (directory lines: a leading `d`; tar lines: `.tar.` in the ninth field) |
| Downloader.ScanErrorPersists | install-local-from-source.rb:313-326 | once a prefix of the listing raises, the whole scan raises the same error: the loop stops at the first failure |
| Downloader.ScanRecordsEveryCandidate | install-local-from-source.rb:325 | a successful scan records one entry per kept line, in order, each the entry that line reads as |
| Downloader.ScanFailsAtFirstBadCandidate | install-local-from-source.rb:313-326 | a failing scan fails with the error of a kept line that raises, and every kept line before it reads without error |
| Downloader.ScanKeepsExactlyTheCandidates | install-local-from-source.rb:313-326 | a scan succeeds exactly when every kept line reads as an entry. Its entries then correspond one-to-one, in order, to the kept lines |
| Downloader.NewestFailsWithoutCandidates | install-local-from-source.rb:328 | the scan throws "no entry" exactly when the listing has no line it keeps |
| Downloader.NewestIsANewestCandidate | install-local-from-source.rb:328-330 | a successful scan returns the name of a kept line whose date is not before the date of any kept line |
| Downloader.NewestTarFileIsAnArchive | install-local-from-source.rb:341-357 | the tar file picked contains `.tar.`, has no whitespace, comes from a tar line of the listing and is not dated after today |
| Downloader.NewestIndex | install-local-from-source.rb:363 | the chosen index is in range and no entry's date follows its date |
| Downloader.NameOfTheNewest | install-local-from-source.rb:362-364 | the returned name is that of an entry whose date is not before any other entry's date |
| Downloader.LastOccurrence | install-local-from-source.rb:306 | the result is an occurrence of the pattern at or before the bound (or -1), and no occurrence lies between it and the bound |
| Downloader.LibAndVersion | install-local-from-source.rb:305-307 | the result followed by `.tar.` is a prefix of the name, and no `.tar.` starts after the result: the group stops at the last marker |
| Downloader.LibAndVersionOfArchive | install-local-from-source.rb:305-307 | `base.tar.ext` comes back as `base` when `tar.ext` holds no further `.tar.` |
| Downloader.UnzippedDirName | install-local-from-source.rb:270-273 | the unpacked directory name exists exactly when the tar scan succeeds and carries its error otherwise. Followed by `.tar.` it is a prefix of the newest tar file, and no `.tar.` of that name starts after it |
| Text.IsSpace | install-local-from-source.rb:314 | the characters `split` separates on and `\s` matches: space and tab to carriage return |
| Text.IsWordChar | install-local-from-source.rb:390 | the characters `\w` matches on ASCII text: letters, digits and `_` |
| Text.Contains | install-local-from-source.rb:238 | `include?`: the pattern occurs at some position of the text |
| Text.ContainsIsSplit | install-local-from-source.rb:238 | `include?` holds exactly when the text is some text, the pattern, then some more text |
| Text.WordLength | install-local-from-source.rb:314 | the leading run holds no whitespace and ends at whitespace or at the end |
| Text.Fields | install-local-from-source.rb:314 | `split` gives only non-empty fields without whitespace |
| Text.FieldsOfJoin | install-local-from-source.rb:314 | splitting fields joined by single spaces gives the fields back |
| Text.FieldsSkipSpace | install-local-from-source.rb:314 | `split` ignores a leading run of whitespace of any length |
| Text.FieldsOfWordThenSpace | install-local-from-source.rb:314 | a word followed by a run of whitespace of any length is the first field, and the rest splits as it would alone |
| Text.SpacedJoin | install-local-from-source.rb:314 | fields each followed by its own run of whitespace, as a listing pads its columns |
| Text.FieldsOfSpacedJoin | install-local-from-source.rb:314 | splitting fields separated by runs of whitespace of any lengths (the last run possibly empty) gives the fields back |
| Text.WordLengthOfWord | install-local-from-source.rb:314 | a word followed by whitespace or nothing is the leading run |
| Text.LineLength | install-local-from-source.rb:390 | the first line ends at the first newline, which it includes, or at the end of the text |
| Text.Lines | install-local-from-source.rb:390-392 | joining the pieces of `lines` gives the text back |
| Text.LinesAreCutAfterNewlines | install-local-from-source.rb:390-392 | no piece of `lines` is empty, every piece but the last ends in a newline, and no piece has a newline before its end |
| Text.LinesOfLine | install-local-from-source.rb:390-392 | a line ending in its only newline is the first piece of whatever text follows it |
| Text.DecimalString | install-local-from-source.rb:373 | the numeral printed for a number is non-empty, all digits, and reads back as the number |
| Text.CanonicalNumeral | install-local-from-source.rb:322 | a numeral without a leading zero is the one printed for its value |
| Calendar.IsValid | install-local-from-source.rb:324 | the dates `Date.parse` accepts: a month from 1 to 12 and a day within that month of that year |
| Calendar.Before | install-local-from-source.rb:349 | `Date#<`: the order of (year, month, day) |
| Calendar.DaysInMonth | install-local-from-source.rb:324 | every month has 28 to 31 days, and 29 exactly for February of a leap year |
| Calendar.MonthNumber | install-local-from-source.rb:324 | a month token gets a number exactly when it is one of the twelve abbreviations, and the number names that abbreviation |
| Calendar.BeforeIsStrictTotalOrder | install-local-from-source.rb:349 | date comparison is irreflexive, transitive and total |
| Strings.Colorize | install-local-from-source.rb:372-374 | the result is the escape `ESC [`, the colour code as digits that read back as the code, `m`, the text unchanged, and the reset `ESC [0m` |
| Strings.Red | install-local-from-source.rb:376-378 | the text between `ESC [31m` and the reset |
| Strings.Green | install-local-from-source.rb:380-382 | the text between `ESC [32m` and the reset |
| Strings.Pink | install-local-from-source.rb:384-386 | the text between `ESC [35m` and the reset |
| Strings.LeadingSpace | install-local-from-source.rb:390 | the group `(\s+)` is the whole leading whitespace run of a line |
| Strings.IsIndentedWord | install-local-from-source.rb:390 | a line matches `^(\s+)\w+`: leading whitespace, then a word character |
| Strings.IsShortestIndentation | install-local-from-source.rb:389-391 | the indentation `align_to_right` removes: the shortest qualifying indentation below 1000, or 0 |
| Strings.Drop | install-local-from-source.rb:392 | `l[n..-1]`: the line without its first `n` characters, and nothing for a shorter line (Ruby's nil, joined as "") |
| Strings.Unindent | install-local-from-source.rb:392 | the lines, each without its first `n` characters, joined |
| Strings.ShortestIndentation | install-local-from-source.rb:389-391 | the loop finds the shortest leading whitespace of a line that starts with whitespace and then a word character, ignoring indentations of 1000 or more; 0 when there is none |
| Strings.ShortestIndentationIsUnique | install-local-from-source.rb:389-391 | at most one indentation meets that description |
| Strings.UnindentByNothing | install-local-from-source.rb:392 | removing an indentation of 0 from every line gives the lines joined back together |
| Strings.UnindentUndoesIndent | install-local-from-source.rb:392 | removing an indentation every line has gives the lines without it |
| Strings.AlignToRight | install-local-from-source.rb:388-393 | the result is the text's lines with the shortest indentation cut from each (lines shorter than it vanish), and the text unchanged when no line qualifies |
| ShellVariables.HasValue | install-local-from-source.rb:237-244 | true exactly when the variable is set and its value is some text, then the expected part, then some more text |
| ShellVariables.Failing | install-local-from-source.rb:198-200 | the variables whose requirement fails, in the order they are checked |
| ShellVariables.Check | install-local-from-source.rb:194-202 | the variables count as set exactly when all three requirements hold. The reports are exactly the failing variables, in check order. Each variable is reported exactly when its requirement fails, and nothing is reported exactly when all are set |
| ShellVariables.FailingHasNoDuplicates | install-local-from-source.rb:198-200 | no variable is reported twice |
| Config.Valid | install-local-from-source.rb:48-50 | valid exactly when all four settings are non-empty. It raises (None) exactly when the first three are non-empty and `groups` printed nothing |
| Config.ShippedSettingsAreInvalid | install-local-from-source.rb:19-28 | with the two roots left empty as shipped, the settings are invalid whoever runs the script |
| Scenarios.ProjectVersionOfTarball | install-local-from-source.rb:305-307 | `foo-1.2.3.tar.gz` unpacks into `foo-1.2.3` |
| Scenarios.ProjectVersionStopsAtLastMarker | install-local-from-source.rb:305-307 | `skel.tar.d-1.0.tar.gz` unpacks into `skel.tar.d-1.0`, not `skel` |
| Scenarios.NewestOfThreeDates | install-local-from-source.rb:362-364 | of three entries, the one dated 2021-06-15 is picked |
| Scenarios.DirectoryScanKeepsFutureDates | install-local-from-source.rb:320-325 | on 2026-01-10 a directory listed as `Dec 20 12:00` is dated 2026-12-20, after today |
| Scenarios.DirectoryScanReadsPaddedColumns | install-local-from-source.rb:314-325 | a directory line whose columns are padded with runs of spaces and a tab splits into the same fields and reads as the same entry |
| Scenarios.TarScanMovesFutureDatesBack | install-local-from-source.rb:345-352 | on 2026-01-10 a tar file listed as `Dec 20 12:00` is dated 2025-12-20 |
| Scenarios.TarScanKeepsArchiveLikeDirectories | install-local-from-source.rb:340-342 | a directory line named `skel.tar.d` is read as a tar entry |
| Scenarios.TarScanRaisesOnLeapDayOfLastYear | install-local-from-source.rb:349-351 | on 2024-02-01 a tar file listed as `Feb 29 10:00` is moved to 2023-02-29, and the line reads as InvalidDate |
| Scenarios.TarScanOfLeapDayListingRaises | install-local-from-source.rb:337-357 | the tar scan of a listing made of that one line raises InvalidDate |
| Scenarios.AlignedHereDoc | install-local-from-source.rb:388-393 | a here-document indented by four and two spaces after an empty line loses two spaces per line and the empty line |
| Scenarios.TarLineOfFields | install-local-from-source.rb:338-354 | a tar line written out from its fields reads as the entry those fields describe |

## Left out

- The FTP session (`Net::FTP.open`, `login`, `chdir`, `pwd`, `getbinaryfile`) is not modelled. A listing is a sequence of lines, and the directory named in a "no entry" error is dropped.
- `download_newest_and_extract` is not modelled beyond working out the unpacked directory name. Its other steps are shell commands, prompts on standard input and tests on the file system.
- The installer steps (`install_newest`, `configure`/`make` runs), `AutoApt`, `interpret_cmds` and `ShellVariables.setup` (which appends to `.bashrc`) are left out. They only run commands and write files.
- The question `ShellVariables.check` asks, and its `exit`, are not modelled. Check returns whether it would ask, and which variables it reports.
- The report messages (`msg_error`, `msg_ok`, `puts_and_exit`) are left out as output. Check reports the variable names rather than the printed sentences.
- `Date.today` is a parameter. The outputs of `whoami` and `groups` are fields of `Config.Settings`.
- `Config.number_of_cores` is not modelled. It only counts processors in `/proc/cpuinfo` for `make`.
- Downloader.DirectoryEntry: a directory line with exactly eight fields has no name. Ruby sets `entry_name` to nil, and `name_of_the_newest` can then return nil. The model names such an entry "" and returns `Ok("")`. No field of a line can be "", so the two cases stay apart.
- Downloader.ParseDate: `Date.parse` is lenient. The model accepts exactly the tokens an `ls -l` listing prints and reports anything else as InvalidDate. These tokens are a three-letter English month abbreviation, a one- or two-digit day and a four-digit year without a leading zero. Ruby may make sense of other spellings.
- Calendar.IsValid: dates follow the proleptic Gregorian calendar, so Ruby's switch to the Julian calendar before 1582 is not modelled.
- Downloader.NameOfTheNewest: it does not say which entry wins a tie on the newest date, because `sort_by` is not stable.
- Downloader.LibAndVersion: it requires a name without a newline (Ruby's `.` does not match one) and with `.tar.` in it. The only caller passes names from the tar scan, which have both properties. Ruby would raise on a name without a match.
- Strings.Colorize: the colour code is a natural number. The script passes only 31, 32 and 35.
- Strings.IsIndentedWord: `\w` covers ASCII letters, digits and `_` only. Non-ASCII word characters are not considered.
