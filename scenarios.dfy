/** Concrete listing lines and names, and what the model makes of them. */
module Scenarios {
  import opened Wrappers
  import opened Text
  import opened Calendar
  import opened Downloader
  import opened Strings

  /** The fields of a directory line for version bucket "3.1" modified on
      20 December at noon, as a server prints it a few weeks later. */
  const DirectoryFields: seq<string> :=
    ["drwxr-xr-x", "2", "ftp", "ftp", "4096", "Dec", "20", "12:00", "3.1"]

  /** The same date on a tar file. */
  const TarFields: seq<string> :=
    ["-rw-r--r--", "1", "ftp", "ftp", "1048576", "Dec", "20", "12:00", "clutter-3.1.tar.xz"]

  /** A directory whose name happens to contain `.tar.`. */
  const ArchiveLikeDirectoryFields: seq<string> :=
    ["drwxr-xr-x", "2", "ftp", "ftp", "4096", "Jan", "5", "2020", "skel.tar.d"]

  /** `.tar.` does not occur in "tar.gz". */
  lemma NoMarkerInTarGz()
    ensures !Contains("tar.gz", TarMarker)
  {
    forall k | 0 <= k <= 1 ensures !OccursAt("tar.gz", TarMarker, k) {
      assert "tar.gz"[k..k + 5][0] != TarMarker[0];
    }
  }

  lemma ProjectVersionOfTarball()
    ensures Contains("foo-1.2.3.tar.gz", TarMarker)
    ensures LibAndVersion("foo-1.2.3.tar.gz") == "foo-1.2.3"
  {
    assert "foo-1.2.3.tar.gz" == "foo-1.2.3" + TarMarker + "gz";
    NoMarkerInTarGz();
    assert "tar." + "gz" == "tar.gz";
    LibAndVersionOfArchive("foo-1.2.3", "gz");
  }

  /** The greedy group keeps everything before the last `.tar.`. */
  lemma ProjectVersionStopsAtLastMarker()
    ensures Contains("skel.tar.d-1.0.tar.gz", TarMarker)
    ensures LibAndVersion("skel.tar.d-1.0.tar.gz") == "skel.tar.d-1.0"
  {
    assert "skel.tar.d-1.0.tar.gz" == "skel.tar.d-1.0" + TarMarker + "gz";
    NoMarkerInTarGz();
    assert "tar." + "gz" == "tar.gz";
    LibAndVersionOfArchive("skel.tar.d-1.0", "gz");
  }

  /** Of 2020-01-01, 2021-06-15 and 2019-12-31 the second is the newest. */
  lemma NewestOfThreeDates()
    ensures NameOfTheNewest([Entry("a", Date(2020, 1, 1)), Entry("b", Date(2021, 6, 15)),
                             Entry("c", Date(2019, 12, 31))]) == "b"
  {
    var es := [Entry("a", Date(2020, 1, 1)), Entry("b", Date(2021, 6, 15)), Entry("c", Date(2019, 12, 31))];
    var i :| 0 <= i < |es| && es[i].name == NameOfTheNewest(es)
             && forall j :: 0 <= j < |es| ==> !Before(es[i].creationDate, es[j].creationDate);
    assert !Before(es[i].creationDate, es[1].creationDate);
  }

  lemma NamesWithMarkers()
    ensures OccursAt("clutter-3.1.tar.xz", TarMarker, 11)
    ensures OccursAt("skel.tar.d", TarMarker, 4)
    ensures OccursAt("x.tar.gz", TarMarker, 1)
  {
    assert "clutter-3.1.tar.xz" == "clutter-3.1" + TarMarker + "xz";
    assert "skel.tar.d" == "skel" + TarMarker + "d";
    assert "x.tar.gz" == "x" + TarMarker + "gz";
  }

  lemma MonthsOfTheScenarios()
    ensures MonthNumber("Jan") == Some(1) && MonthNumber("Feb") == Some(2) && MonthNumber("Dec") == Some(12)
  {
  }

  lemma TwoDigitDays()
    ensures ParseDay("20") == Some(20) && ParseDay("29") == Some(29) && ParseDay("5") == Some(5)
  {
    assert "20"[..1] == "2" && "29"[..1] == "2" && "2"[..0] == "" && "5"[..0] == "";
  }

  lemma Year2020()
    ensures InferYear("2020", 2026) == Some(2020)
  {
    assert ':' !in "2020";
    assert "2020"[..3] == "202" && "202"[..2] == "20" && "20"[..1] == "2" && "2"[..0] == "";
  }

  /** The date fields of a line seen on 10 January 2026 at a clock time in
      December name 20 December 2026. */
  lemma DecemberClockTimeDate()
    ensures CreationDate(DirectoryFields, 2026) == Ok(Date(2026, 12, 20))
    ensures CreationDate(TarFields, 2026) == Ok(Date(2026, 12, 20))
  {
    TwoDigitDays();
    MonthsOfTheScenarios();
    assert ':' in "12:00" by { assert "12:00"[2] == ':'; }
    assert IsValid(Date(2026, 12, 20));
  }

  /** Seen on 10 January 2026, the clock-time directory line is dated 20 December
      2026, after today: the directory scan keeps that date. */
  lemma DirectoryScanKeepsFutureDates()
    ensures IsDirectoryLine(JoinFields(DirectoryFields))
    ensures DirectoryEntry(JoinFields(DirectoryFields), Date(2026, 1, 10)) == Ok(Entry("3.1", Date(2026, 12, 20)))
    ensures Before(Date(2026, 1, 10), Date(2026, 12, 20))
  {
    DirectoryFieldsAreFields();
    FieldsOfJoin(DirectoryFields);
    DecemberClockTimeDate();
  }

  /** The column padding of a listing line: runs of spaces of several lengths,
      and a tab before the name. */
  const Padding: seq<string> := ["  ", "    ", " ", "     ", " ", "  ", " ", "\t ", ""]

  lemma PaddingIsSpace()
    ensures forall i :: 0 <= i < |Padding| ==> AllSpace(Padding[i])
    ensures forall i :: 0 <= i < |Padding| - 1 ==> |Padding[i]| > 0
  {
  }

  /** The directory line written with padded columns reads as the same entry. */
  lemma DirectoryScanReadsPaddedColumns()
    ensures Fields(SpacedJoin(DirectoryFields, Padding)) == DirectoryFields
    ensures IsDirectoryLine(SpacedJoin(DirectoryFields, Padding))
    ensures DirectoryEntry(SpacedJoin(DirectoryFields, Padding), Date(2026, 1, 10))
              == Ok(Entry("3.1", Date(2026, 12, 20)))
  {
    DirectoryFieldsAreFields();
    PaddingIsSpace();
    FieldsOfSpacedJoin(DirectoryFields, Padding);
    DecemberClockTimeDate();
  }

  predicate AreFields(fs: seq<string>) {
    forall i :: 0 <= i < |fs| ==> |fs[i]| > 0 && NoSpace(fs[i])
  }

  lemma ScenarioFieldsAreFields()
    ensures AreFields(DirectoryFields) && AreFields(TarFields)
    ensures AreFields(ArchiveLikeDirectoryFields) && AreFields(LeapDayFields)
    ensures Contains(TarFields[8], TarMarker) && Contains(ArchiveLikeDirectoryFields[8], TarMarker)
    ensures Contains(LeapDayFields[8], TarMarker)
  {
    NamesWithMarkers();
    DirectoryFieldsAreFields();
    TarFieldsAreFields();
    ArchiveLikeFieldsAreFields();
    LeapDayFieldsAreFields();
  }

  lemma DirectoryFieldsAreFields() ensures AreFields(DirectoryFields) {}
  lemma TarFieldsAreFields() ensures AreFields(TarFields) {}
  lemma ArchiveLikeFieldsAreFields() ensures AreFields(ArchiveLikeDirectoryFields) {}
  lemma LeapDayFieldsAreFields() ensures AreFields(LeapDayFields) {}

  /** A tar line written out from its fields, read back. */
  lemma TarLineOfFields(fs: seq<string>, today: Date)
    requires |fs| == 9 && AreFields(fs)
    requires Contains(fs[8], TarMarker)
    ensures IsTarLine(JoinFields(fs))
    ensures TarFileEntry(JoinFields(fs), today) ==
      match CreationDate(fs, today.year)
      case Err(e) => Err(e)
      case Ok(d) => (match CorrectFutureDate(d, today) case Err(e) => Err(e) case Ok(c) => Ok(Entry(fs[8], c)))
  {
    FieldsOfJoin(fs);
  }

  /** The tar scan moves the same date back to 20 December 2025. */
  lemma TarScanMovesFutureDatesBack()
    ensures IsTarLine(JoinFields(TarFields))
    ensures TarFileEntry(JoinFields(TarFields), Date(2026, 1, 10))
              == Ok(Entry("clutter-3.1.tar.xz", Date(2025, 12, 20)))
  {
    ScenarioFieldsAreFields();
    TarLineOfFields(TarFields, Date(2026, 1, 10));
    DecemberClockTimeDate();
  }

  /** The tar scan does not look at the permission field: a directory named like
      an archive is kept as a tar file. */
  lemma TarScanKeepsArchiveLikeDirectories()
    ensures IsDirectoryLine(JoinFields(ArchiveLikeDirectoryFields))
    ensures IsTarLine(JoinFields(ArchiveLikeDirectoryFields))
    ensures TarFileEntry(JoinFields(ArchiveLikeDirectoryFields), Date(2026, 10, 14))
              == Ok(Entry("skel.tar.d", Date(2020, 1, 5)))
  {
    ScenarioFieldsAreFields();
    FieldsOfJoin(ArchiveLikeDirectoryFields);
    TarLineOfFields(ArchiveLikeDirectoryFields, Date(2026, 10, 14));
    JanuaryDate();
  }

  lemma JanuaryDate()
    ensures CreationDate(ArchiveLikeDirectoryFields, 2026) == Ok(Date(2020, 1, 5))
  {
    TwoDigitDays();
    Year2020();
    MonthsOfTheScenarios();
  }

  const LeapDayFields: seq<string> :=
    ["-rw-r--r--", "1", "ftp", "ftp", "512", "Feb", "29", "10:00", "x.tar.gz"]

  lemma LeapDayDate()
    ensures CreationDate(LeapDayFields, 2024) == Ok(Date(2024, 2, 29))
  {
    TwoDigitDays();
    MonthsOfTheScenarios();
    assert ':' in "10:00" by { assert "10:00"[2] == ':'; }
  }

  lemma LeapDayOfLastYearFails()
    ensures CorrectFutureDate(Date(2024, 2, 29), Date(2024, 2, 1)) == Err(InvalidDate)
  {
  }

  /** On 1 February 2024 a tar file listed as 29 February at a clock time is moved
      to 29 February 2023, which does not exist: the scan raises. */
  lemma TarScanRaisesOnLeapDayOfLastYear()
    ensures IsTarLine(JoinFields(LeapDayFields))
    ensures TarFileEntry(JoinFields(LeapDayFields), Date(2024, 2, 1)) == Err(InvalidDate)
  {
    ScenarioFieldsAreFields();
    TarLineOfFields(LeapDayFields, Date(2024, 2, 1));
    LeapDayDate();
    LeapDayOfLastYearFails();
  }

  /** A listing made of that one line: the tar scan raises InvalidDate. */
  lemma TarScanOfLeapDayListingRaises()
    ensures Newest(TarFiles, [JoinFields(LeapDayFields)], Date(2024, 2, 1)) == Err(InvalidDate)
  {
    var l := JoinFields(LeapDayFields);
    TarScanRaisesOnLeapDayOfLastYear();
    assert [l][..|[l]| - 1] == [] && [l][|[l]| - 1] == l;
    assert Selects(TarFiles, l);
    assert EntryOf(TarFiles, l, Date(2024, 2, 1)) == Err(InvalidDate);
    assert Scan(TarFiles, [], Date(2024, 2, 1)) == Ok([]);
    assert Scan(TarFiles, [l], Date(2024, 2, 1)) == Err(InvalidDate);
  }

  /** A here-document whose lines are indented by four and two spaces after an
      empty first line. */
  const HereDocLines: seq<string> := ["\n", "    foo\n", "  bar\n"]

  lemma HereDocIndentation()
    ensures LeadingSpace("\n") == 1 && LeadingSpace("    foo\n") == 4 && LeadingSpace("  bar\n") == 2
  {
    assert "    foo\n"[1..] == "   foo\n" && "   foo\n"[1..] == "  foo\n";
    assert "  foo\n"[1..] == " foo\n" && " foo\n"[1..] == "foo\n";
    assert "  bar\n"[1..] == " bar\n" && " bar\n"[1..] == "bar\n";
  }

  lemma LinesOfHereDoc()
    ensures Lines("\n    foo\n  bar\n") == HereDocLines
  {
    var ls := HereDocLines;
    assert "\n    foo\n  bar\n" == ls[0] + (ls[1] + (ls[2] + ""));
    LinesOfLine(ls[2], "");
    LinesOfLine(ls[1], ls[2] + "");
    LinesOfLine(ls[0], ls[1] + (ls[2] + ""));
  }

  lemma HereDocShortestIndentation()
    ensures IsShortestIndentation(HereDocLines, 2)
  {
    HereDocIndentation();
    assert IsIndentedWord(HereDocLines[2]);
  }

  /** The here-document loses its two common spaces, and the empty first line,
      shorter than that, disappears with its newline. */
  lemma AlignedHereDoc()
    ensures Lines("\n    foo\n  bar\n") == HereDocLines
    ensures IsShortestIndentation(HereDocLines, 2)
    ensures Unindent(HereDocLines, 2) == "  foo\nbar\n"
  {
    LinesOfHereDoc();
    HereDocShortestIndentation();
    UnindentHereDoc();
  }

  lemma UnindentHereDoc()
    ensures Unindent(HereDocLines, 2) == "  foo\nbar\n"
  {
    var ls := HereDocLines;
    assert ls[1..] == [ls[1], ls[2]] && ls[1..][1..] == [ls[2]] && ls[1..][1..][1..] == [];
    assert Drop(ls[0], 2) == "";
    assert Drop(ls[1], 2) == "  foo\n";
    assert Drop(ls[2], 2) == "bar\n";
    assert Unindent([ls[2]], 2) == "bar\n";
    assert Unindent([ls[1], ls[2]], 2) == "  foo\n" + "bar\n";
  }
}
