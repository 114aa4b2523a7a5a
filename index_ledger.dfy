/**
 * The artifact index `index.md`: a Markdown header followed by one CSV line
 * per artifact, `ID,ARTIFACT_ID,NAME,STATUS,IS_FILE,PARENT`. The ledger hands
 * out sequential document IDs, refuses a second entry for an artifact ID
 * (compared without regard to case), rewrites one entry in place and answers
 * lookups and filtered listings.
 *
 * The file is modelled by two fields: whether it exists and its text. Every
 * query splits the text at `'\n'` and parses each line on its own, so the
 * entries are a function of the text (`EntriesOf`).
 */
module IndexLedger {

  import opened Wrappers
  import opened Text
  import opened Csv

  const SchemaVersion := "1.1"
  const ColumnNames := ["ID", "ARTIFACT_ID", "NAME", "STATUS", "IS_FILE", "PARENT"]
  /** At least `ID` and `ARTIFACT_ID` must be present on a line. */
  const RequiredColumns := 2

  /** One parsed index line. */
  datatype Entry = Entry(
    docId: string,
    artifactId: string,
    name: Option<string>,
    status: Option<string>,
    isFile: bool,
    parent: Option<string>)

  datatype LedgerError = AlreadyExists(artifactId: string)

  // ------------------------------------------------------------ one line

  /** An optional column: the stripped text, or nothing when that is empty. */
  function OptionalColumn(s: string): Option<string>
  {
    if Strip(s) == "" then None else Some(Strip(s))
  }

  /** `IS_FILE`: true, 1 or yes in any case; an empty column counts as true. */
  function IsFileColumn(s: string): bool
  {
    var v := if Strip(s) == "" then "true" else Lower(Strip(s));
    v == "true" || v == "1" || v == "yes"
  }

  /** The parts padded with empty strings up to the six columns. */
  function Padded(parts: seq<string>): (r: seq<string>)
    ensures |r| >= |ColumnNames| && |r| >= |parts| && r[..|parts|] == parts
  {
    if |parts| >= |ColumnNames| then parts else parts + seq(|ColumnNames| - |parts|, _ => "")
  }

  predicate OptionTrimmed(o: Option<string>)
  {
    o.None? || (o.value != [] && Trimmed(o.value))
  }

  /** What every parsed entry satisfies. */
  predicate ValidEntry(e: Entry)
  {
    IsDigits(e.docId) && e.artifactId != [] && Trimmed(e.artifactId)
    && OptionTrimmed(e.name) && OptionTrimmed(e.status) && OptionTrimmed(e.parent)
  }

  /** The entry held by the padded columns, if the first is a number and the second is not blank. */
  function EntryOfColumns(p: seq<string>): (r: Option<Entry>)
    requires |p| >= |ColumnNames|
    ensures r.Some? ==> ValidEntry(r.value)
  {
    var docId := Strip(p[0]);
    var artifactId := Strip(p[1]);
    if !IsDigits(docId) || artifactId == [] then None
    else
      StripIsTrimmed(p[1]);
      StripIsTrimmed(p[2]);
      StripIsTrimmed(p[3]);
      StripIsTrimmed(p[5]);
      Some(Entry(docId, artifactId, OptionalColumn(p[2]), OptionalColumn(p[3]),
                 IsFileColumn(p[4]), OptionalColumn(p[5])))
  }

  /** The columns of a stripped line: its CSV record, or its comma-separated parts when the reader rejects it. */
  function LineColumns(l: string): (r: seq<string>)
  {
    match FirstRecord(l) case Some(fs) => fs case None => Split(l, ',')
  }

  /**
   * One index line: stripped; ignored when empty or without a comma; read as
   * a CSV record, or split at every comma when the CSV reader rejects it;
   * ignored unless the first column is a number and the second is not blank.
   */
  function ParseIndexLine(line: string): (r: Option<Entry>)
    ensures r.Some? ==> Strip(line) != [] && ',' in Strip(line) && ValidEntry(r.value)
  {
    var l := Strip(line);
    if l == [] || ',' !in l then None
    else
      var parts := LineColumns(l);
      if |parts| < RequiredColumns then None
      else EntryOfColumns(Padded(parts))
  }

  function OrEmpty(o: Option<string>): string
  {
    if o.Some? then o.value else ""
  }

  /** The six columns of an entry as the writer receives them. */
  function Columns(docId: string, artifactId: string, name: Option<string>, status: Option<string>,
                   isFile: bool, parent: Option<string>): seq<string>
  {
    [docId, artifactId, OrEmpty(name), OrEmpty(status), if isFile then "true" else "false", OrEmpty(parent)]
  }

  /** One index line: the columns written by the CSV writer, then stripped of the line end. */
  function FormatIndexLine(docId: string, artifactId: string, name: Option<string>, status: Option<string>,
                           isFile: bool, parent: Option<string>): string
  {
    Strip(WriteRow(Columns(docId, artifactId, name, status, isFile, parent)))
  }

  function FormatEntry(e: Entry): string
  {
    FormatIndexLine(e.docId, e.artifactId, e.name, e.status, e.isFile, e.parent)
  }

  /** An optional value as it reads back: an empty string is no value. */
  function NonEmpty(o: Option<string>): Option<string>
  {
    if o.Some? && o.value != "" then o else None
  }

  /** A column value that reads back unchanged and keeps its line whole. */
  predicate CleanText(s: string)
  {
    Trimmed(s) && '\n' !in s && '\r' !in s && |s| <= FieldLimit
  }

  predicate CleanOption(o: Option<string>)
  {
    o.None? || CleanText(o.value)
  }

  /** An entry whose line reads back as the entry itself. */
  predicate CleanEntry(e: Entry)
  {
    IsDigits(e.docId) && |e.docId| <= FieldLimit && e.artifactId != [] && CleanText(e.artifactId)
    && CleanOption(e.name) && CleanOption(e.status) && CleanOption(e.parent)
  }

  /** The entry that the line written for `e` reads back as. */
  function ReadBack(e: Entry): Entry
  {
    Entry(e.docId, e.artifactId, NonEmpty(e.name), NonEmpty(e.status), e.isFile, NonEmpty(e.parent))
  }

  /** Written fields that start with a number and end trimmed make a trimmed line with a comma. */
  lemma WrittenLine(fs: seq<string>)
    requires |fs| >= 2 && IsDigits(fs[0]) && Trimmed(fs[|fs| - 1])
    ensures var w := Fields(fs); w != [] && Trimmed(w) && ',' in w
  {
    WrittenStart(fs);
    WrittenEnd(fs);
  }

  /** A first field of digits is written as it is, followed by a comma. */
  lemma WrittenStart(fs: seq<string>)
    requires |fs| >= 2 && IsDigits(fs[0])
    ensures var w := Fields(fs); |w| > |fs[0]| && !IsSpace(w[0]) && w[|fs[0]|] == ','
  {
    var w := Fields(fs);
    var d := fs[0];
    assert !NeedsQuotes(d) by {
      DigitsOut(d, ',');
      DigitsOut(d, '"');
      DigitsOut(d, '\r');
      DigitsOut(d, '\n');
    }
    assert w == d + ("," + Fields(fs[1..]));
    assert IsDigit(w[0]);
  }

  /** A trimmed last field leaves the written fields ending in a non-space. */
  lemma WrittenEnd(fs: seq<string>)
    requires |fs| >= 2 && Trimmed(fs[|fs| - 1])
    ensures var w := Fields(fs); w != [] && !IsSpace(w[|w| - 1])
  {
    var w := Fields(fs);
    var q := QuoteField(fs[|fs| - 1]);
    FieldsLast(fs);
    if q == [] {
      assert w[|w| - 1] == ',';
    } else {
      QuoteFieldEnd(fs[|fs| - 1]);
      assert w[|w| - 1] == q[|q| - 1];
    }
  }

  /** A written trimmed field ends in a non-space, or is empty. */
  lemma QuoteFieldEnd(f: string)
    requires Trimmed(f)
    ensures var q := QuoteField(f); q != [] ==> !IsSpace(q[|q| - 1])
  {
  }

  /** Stripping a written row removes exactly its line terminator. */
  lemma StripRow(w: string)
    requires w != [] && Trimmed(w)
    ensures Strip(w + "\r\n") == w
  {
    assert w + "\r\n" == "" + w + "\r\n";
    StripAround("", w, "\r\n");
  }

  /** The line written for a clean entry is its fields as written: trimmed, with a comma and no line break. */
  lemma WrittenColumns(e: Entry)
    requires CleanEntry(e)
    ensures var fs := Columns(e.docId, e.artifactId, e.name, e.status, e.isFile, e.parent);
      var w := Fields(fs);
      FormatEntry(e) == w && w != [] && Trimmed(w) && ',' in w && '\n' !in w && '\r' !in w
  {
    var fs := Columns(e.docId, e.artifactId, e.name, e.status, e.isFile, e.parent);
    var w := Fields(fs);
    assert w != [] && Trimmed(w) && ',' in w by {
      assert fs[0] == e.docId && fs[5] == OrEmpty(e.parent);
      WrittenLine(fs);
    }
    assert '\n' !in w by {
      ColumnsUnbroken(e, '\n');
      FieldsKeepOut(fs, '\n');
    }
    assert '\r' !in w by {
      ColumnsUnbroken(e, '\r');
      FieldsKeepOut(fs, '\r');
    }
    StripRow(w);
  }

  /** No column of a clean entry holds a line break. */
  lemma ColumnsUnbroken(e: Entry, c: char)
    requires CleanEntry(e) && (c == '\n' || c == '\r')
    ensures var fs := Columns(e.docId, e.artifactId, e.name, e.status, e.isFile, e.parent);
      forall i :: 0 <= i < |fs| ==> c !in fs[i]
  {
    DigitsOut(e.docId, c);
    assert c !in (if e.isFile then "true" else "false");
  }

  lemma LowerWords()
    ensures Lower("true") == "true" && Lower("false") == "false"
  {
    assert Lower("true") == "true" by {
      assert forall i :: 0 <= i < 4 ==> Lower("true")[i] == "true"[i];
    }
    assert Lower("false") == "false" by {
      assert forall i :: 0 <= i < 5 ==> Lower("false")[i] == "false"[i];
    }
  }

  lemma CleanColumn(o: Option<string>)
    requires CleanOption(o)
    ensures OptionalColumn(OrEmpty(o)) == NonEmpty(o)
  {
    if o.Some? {
      TrimmedStrip(o.value);
    }
  }

  /** `IS_FILE` as written reads back as the same flag. */
  lemma IsFileWords()
    ensures IsFileColumn("true") && !IsFileColumn("false")
  {
    LowerWords();
    TrimmedStrip("true");
    TrimmedStrip("false");
  }

  /** The columns of a clean entry, given one by one, read back as the entry. */
  lemma ReadBackColumns(p: seq<string>, e: Entry)
    requires CleanEntry(e) && p == Columns(e.docId, e.artifactId, e.name, e.status, e.isFile, e.parent)
    ensures EntryOfColumns(p) == Some(ReadBack(e))
  {
    ReadBackKeys(p, e);
    ReadBackOptionals(p, e);
  }

  /** The number, the ID and the file flag of a clean entry read back unchanged. */
  lemma ReadBackKeys(p: seq<string>, e: Entry)
    requires CleanEntry(e) && p == Columns(e.docId, e.artifactId, e.name, e.status, e.isFile, e.parent)
    ensures Strip(p[0]) == e.docId && Strip(p[1]) == e.artifactId && IsFileColumn(p[4]) == e.isFile
  {
    assert p[0] == e.docId && p[1] == e.artifactId;
    assert p[4] == if e.isFile then "true" else "false";
    DigitsTrimmed(p[0]);
    TrimmedStrip(p[0]);
    TrimmedStrip(p[1]);
    IsFileWords();
  }

  /** The optional columns of a clean entry read back with empty values dropped. */
  lemma ReadBackOptionals(p: seq<string>, e: Entry)
    requires CleanEntry(e) && p == Columns(e.docId, e.artifactId, e.name, e.status, e.isFile, e.parent)
    ensures OptionalColumn(p[2]) == NonEmpty(e.name) && OptionalColumn(p[3]) == NonEmpty(e.status)
    ensures OptionalColumn(p[5]) == NonEmpty(e.parent)
  {
    assert p[2] == OrEmpty(e.name) && p[3] == OrEmpty(e.status) && p[5] == OrEmpty(e.parent);
    CleanColumn(e.name);
    CleanColumn(e.status);
    CleanColumn(e.parent);
  }


  /** A trimmed line with a comma whose CSV record has all six columns parses through that record. */
  lemma ParseRecordLine(l: string, fs: seq<string>)
    requires l != [] && Trimmed(l) && ',' in l && FirstRecord(l) == Some(fs) && |fs| == |ColumnNames|
    ensures ParseIndexLine(l) == EntryOfColumns(fs)
  {
    TrimmedStrip(l);
  }

  /** A line written for a clean entry parses back to that entry, with empty values dropped. */
  lemma FormatParseRoundTrip(e: Entry)
    requires CleanEntry(e)
    ensures ParseIndexLine(FormatEntry(e)) == Some(ReadBack(e))
  {
    var fs := Columns(e.docId, e.artifactId, e.name, e.status, e.isFile, e.parent);
    var w := Fields(fs);
    assert FormatEntry(e) == w by {
      WrittenColumns(e);
    }
    assert ParseIndexLine(w) == EntryOfColumns(fs) by {
      WrittenColumns(e);
      ColumnsRead(e);
      ParseRecordLine(w, fs);
    }
    assert EntryOfColumns(fs) == Some(ReadBack(e)) by {
      ReadBackColumns(fs, e);
    }
  }

  /** The CSV reader gives back the six written columns of a clean entry. */
  lemma ColumnsRead(e: Entry)
    requires CleanEntry(e)
    ensures var fs := Columns(e.docId, e.artifactId, e.name, e.status, e.isFile, e.parent);
      FirstRecord(Fields(fs)) == Some(fs)
  {
    var fs := Columns(e.docId, e.artifactId, e.name, e.status, e.isFile, e.parent);
    forall i | 0 <= i < |fs| ensures |fs[i]| <= FieldLimit {
      assert i == 4 ==> |fs[i]| <= 5;
    }
    ReadRow(fs);
    assert fs != [""];
  }

  /**
   * A line that is blank, has no comma, or (once stripped) starts with a
   * character other than a digit, a double quote or a comma is not an entry:
   * its first column cannot be a number. This covers every header line.
   */
  lemma NonEntryLine(line: string)
    requires var l := Strip(line);
      l == [] || ',' !in l || (l[0] != '"' && l[0] != ',' && !IsDigit(l[0]))
    ensures ParseIndexLine(line) == None
  {
    var l := Strip(line);
    if l != [] && ',' in l {
      StripIsTrimmed(line);
      var parts := LineColumns(l);
      if FirstRecord(l).None? {
        SplitSingle(l, ',');
        assert parts[0] == [l[0]] + Split(l[1..], ',')[0];
      } else {
        FirstFieldStart(l);
      }
      if |parts| >= RequiredColumns {
        var p0 := parts[0];
        assert p0 != [] && p0[0] == l[0];
        StripKeepsFirst(p0);
        assert Padded(parts)[0] == p0;
      }
    }
  }

  // ------------------------------------------------------------ the header

  // The lines of a newly created index file (long lines are written in pieces).
  const TitleLine := "# ReSpecT Artifact ID Index"
  const PurposeLine := "This file tracks all artifacts " + "in the ReSpecT repository " + "with their metadata."
  const VersionLine := "Schema Version: " + SchemaVersion
  const FormatLine := "Format: " + Join(ColumnNames, ',')
  const IdLine := "- ID: Sequential numeric " + "identifier"
  const ArtifactIdLine := "- ARTIFACT_ID: Full artifact ID " + "(e.g., PRD-1, REQ-2)"
  const NameLine := "- NAME: Human-readable artifact " + "name (optional)"
  const StatusLine := "- STATUS: Current artifact " + "status (optional)"
  const IsFileLine := "- IS_FILE: true if artifact has " + "own file, false if " + "referenced only"
  const ParentLine := "- PARENT: Parent artifact ID " + "for nested artifacts, " + "null for top-level files"
  const IndexHeading := "## Artifact Index"

  const HeaderLines := [
    TitleLine, "", PurposeLine, VersionLine, "", FormatLine,
    IdLine, ArtifactIdLine, NameLine, StatusLine, IsFileLine, ParentLine,
    "", IndexHeading, "", ""]

  /** The text of a newly created index file. */
  const InitialContent := Join(HeaderLines, '\n')

  /** A header line: a single line that is empty or starts like prose, not like an entry. */
  predicate HeaderLike(l: string)
  {
    NoControl(l) && (l == [] || (!IsSpace(l[0]) && l[0] != '"' && l[0] != ',' && !IsDigit(l[0])))
  }

  /** No control character, so in particular no line break. */
  predicate NoControl(l: string)
  {
    forall k :: 0 <= k < |l| ==> l[k] >= ' '
  }

  lemma NoControlOneLine(l: string)
    requires NoControl(l)
    ensures '\n' !in l && '\r' !in l
  {
  }

  lemma HeaderLikeNotEntry(l: string)
    requires HeaderLike(l)
    ensures ParseIndexLine(l) == None
  {
    NoControlOneLine(l);
    if l != [] {
      StripKeepsFirst(l);
    }
    NonEntryLine(l);
  }

  lemma ColumnNamesOneLine()
    ensures NoControl(Join(ColumnNames, ','))
  {
    forall i | 0 <= i < |ColumnNames| ensures NoControl(ColumnNames[i]) { }
    JoinNoControl(ColumnNames);
  }

  lemma {:induction false} JoinNoControl(parts: seq<string>)
    requires forall i :: 0 <= i < |parts| ==> NoControl(parts[i])
    ensures NoControl(Join(parts, ','))
    decreases |parts|
  {
    if |parts| > 1 {
      JoinNoControl(parts[1..]);
      var j := Join(parts, ',');
      var a, b := parts[0], Join(parts[1..], ',');
      assert j == a + [','] + b;
      assert forall k :: 0 <= k < |j| ==> j[k] == if k < |a| then a[k] else if k == |a| then ',' else b[k - |a| - 1];
    }
  }

  lemma ShortLines()
    ensures HeaderLike(TitleLine) && HeaderLike(VersionLine) && HeaderLike(IndexHeading)
  {
  }

  lemma PurposeLineOk() ensures HeaderLike(PurposeLine) { }

  lemma NoControlConcat(a: string, b: string)
    requires NoControl(a) && NoControl(b)
    ensures NoControl(a + b)
  {
    assert forall k :: 0 <= k < |a + b| ==> (a + b)[k] == if k < |a| then a[k] else b[k - |a|];
  }

  lemma FormatLineOk()
    ensures HeaderLike(FormatLine)
  {
    ColumnNamesOneLine();
    NoControlConcat("Format: ", Join(ColumnNames, ','));
  }

  lemma IdLineOk() ensures HeaderLike(IdLine) { }

  lemma ArtifactIdLineOk() ensures HeaderLike(ArtifactIdLine) { }

  lemma NameLineOk() ensures HeaderLike(NameLine) { }

  lemma StatusLineOk() ensures HeaderLike(StatusLine) { }

  lemma IsFileLineOk() ensures HeaderLike(IsFileLine) { }

  lemma ParentLineOk() ensures HeaderLike(ParentLine) { }

  lemma HeaderLinesAreHeaderLike()
    ensures forall i :: 0 <= i < |HeaderLines| ==> HeaderLike(HeaderLines[i])
  {
    ShortLines();
    PurposeLineOk();
    FormatLineOk();
    IdLineOk();
    ArtifactIdLineOk();
    NameLineOk();
    StatusLineOk();
    IsFileLineOk();
    ParentLineOk();
  }

  // ------------------------------------------------------------ all entries

  /** Each line parsed on its own. */
  function ParseLines(lines: seq<string>): (r: seq<Option<Entry>>)
    ensures |r| == |lines|
    ensures forall j :: 0 <= j < |lines| ==> r[j] == ParseIndexLine(lines[j])
  {
    seq(|lines|, j requires 0 <= j < |lines| => ParseIndexLine(lines[j]))
  }

  /** The entries of a list of lines, in order: one per line that parses. */
  function EntriesOf(lines: seq<string>): seq<Entry>
  {
    Present(ParseLines(lines))
  }

  lemma ParseLinesConcat(a: seq<string>, b: seq<string>)
    ensures ParseLines(a + b) == ParseLines(a) + ParseLines(b)
  {
    var c := a + b;
    var l, r := ParseLines(c), ParseLines(a) + ParseLines(b);
    forall j | 0 <= j < |c|
      ensures l[j] == r[j]
    {
      if j < |a| {
        assert c[j] == a[j];
      } else {
        assert c[j] == b[j - |a|];
      }
    }
  }

  lemma EntriesConcat(a: seq<string>, b: seq<string>)
    ensures EntriesOf(a + b) == EntriesOf(a) + EntriesOf(b)
  {
    ParseLinesConcat(a, b);
    PresentConcat(ParseLines(a), ParseLines(b));
  }

  /** An entry is listed exactly when some line parses to it. */
  lemma EntriesFromLines(lines: seq<string>, e: Entry)
    ensures e in EntriesOf(lines) <==> exists j :: 0 <= j < |lines| && ParseIndexLine(lines[j]) == Some(e)
  {
    PresentMembers(ParseLines(lines), e);
  }

  /** Every listed entry satisfies what parsing guarantees. */
  lemma EntriesValid(lines: seq<string>)
    ensures forall e :: e in EntriesOf(lines) ==> ValidEntry(e)
  {
    forall e | e in EntriesOf(lines) ensures ValidEntry(e) {
      EntriesFromLines(lines, e);
    }
  }

  /** A newly created index file lists no artifacts. */
  lemma InitialContentHasNoEntries()
    ensures Split(InitialContent, '\n') == HeaderLines
    ensures EntriesOf(Split(InitialContent, '\n')) == []
    ensures '\r' !in InitialContent
  {
    HeaderLinesAreHeaderLike();
    forall i | 0 <= i < |HeaderLines| ensures '\n' !in HeaderLines[i] && '\r' !in HeaderLines[i] {
      NoControlOneLine(HeaderLines[i]);
    }
    JoinKeepsOut(HeaderLines, '\n', '\r');
    SplitJoin(HeaderLines, '\n');
    forall i | 0 <= i < |HeaderLines| ensures ParseIndexLine(HeaderLines[i]) == None {
      HeaderLikeNotEntry(HeaderLines[i]);
    }
    PresentNone(ParseLines(HeaderLines));
  }

  // ------------------------------------------------------------ lookups

  /** What a lookup compares: the artifact ID without regard to case, or the document ID exactly. */
  datatype Key = ById(artifactId: string) | ByDocId(docId: string)

  predicate KeyMatches(e: Entry, key: Key)
  {
    match key
    case ById(id) => Upper(e.artifactId) == Upper(id)
    case ByDocId(d) => e.docId == d
  }

  /** The position of the first entry matching `key`. */
  function FirstMatch(es: seq<Entry>, key: Key): (r: Option<nat>)
    ensures r.Some? ==> (r.value < |es| && KeyMatches(es[r.value], key)
      && forall j :: 0 <= j < r.value ==> !KeyMatches(es[j], key))
    ensures r.None? ==> forall j :: 0 <= j < |es| ==> !KeyMatches(es[j], key)
  {
    if es == [] then None
    else if KeyMatches(es[0], key) then Some(0)
    else match FirstMatch(es[1..], key)
      case None => None
      case Some(k) => Some(k + 1)
  }

  /** The first entry matching `key`, as the lookups return it. */
  function Find(es: seq<Entry>, key: Key): (r: Option<Entry>)
    ensures r.Some? <==> exists k :: 0 <= k < |es| && KeyMatches(es[k], key)
    ensures r.Some? ==> r.value in es && KeyMatches(r.value, key)
  {
    match FirstMatch(es, key)
    case None => None
    case Some(k) => Some(es[k])
  }

  /** A position that matches with no match before it is the first match. */
  lemma FirstMatchIs(es: seq<Entry>, key: Key, k: nat)
    requires k < |es| && KeyMatches(es[k], key)
    requires forall j :: 0 <= j < k ==> !KeyMatches(es[j], key)
    ensures FirstMatch(es, key) == Some(k)
  {
  }

  /** A parsed line that is an entry matching `key`. */
  predicate Hit(p: Option<Entry>, key: Key)
  {
    p.Some? && KeyMatches(p.value, key)
  }

  /** The position of the first line whose entry matches `key`. */
  function FirstHit(ps: seq<Option<Entry>>, key: Key): (r: Option<nat>)
    ensures r.Some? ==> (r.value < |ps| && Hit(ps[r.value], key)
      && forall j :: 0 <= j < r.value ==> !Hit(ps[j], key))
    ensures r.None? ==> forall j :: 0 <= j < |ps| ==> !Hit(ps[j], key)
  {
    if ps == [] then None
    else if Hit(ps[0], key) then Some(0)
    else match FirstHit(ps[1..], key)
      case None => None
      case Some(k) => Some(k + 1)
  }

  lemma FirstHitIs(ps: seq<Option<Entry>>, key: Key, i: nat)
    requires i < |ps| && Hit(ps[i], key)
    requires forall j :: 0 <= j < i ==> !Hit(ps[j], key)
    ensures FirstHit(ps, key) == Some(i)
  {
  }

  /** The entries around a line that parses. */
  lemma PresentSplitAt(ps: seq<Option<Entry>>, i: nat)
    requires i < |ps| && ps[i].Some?
    ensures Present(ps) == Present(ps[..i]) + [ps[i].value] + Present(ps[i + 1..])
  {
    assert ps == ps[..i] + [ps[i]] + ps[i + 1..];
    PresentConcat(ps[..i] + [ps[i]], ps[i + 1..]);
    PresentConcat(ps[..i], [ps[i]]);
    assert Present([ps[i]]) == [] + [ps[i].value];
  }

  /** No listed entry matches when no line does. */
  lemma NoHitNoMatch(ps: seq<Option<Entry>>, key: Key)
    requires forall j :: 0 <= j < |ps| ==> !Hit(ps[j], key)
    ensures forall k :: 0 <= k < |Present(ps)| ==> !KeyMatches(Present(ps)[k], key)
  {
    var es := Present(ps);
    forall k | 0 <= k < |es| ensures !KeyMatches(es[k], key) {
      PresentMembers(ps, es[k]);
    }
  }

  /** The first matching line holds the first matching entry. */
  /** A parsed line matches exactly when some listed entry does. */
  lemma HitIsFound(ps: seq<Option<Entry>>, key: Key)
    ensures FirstHit(ps, key).Some? <==> FirstMatch(Present(ps), key).Some?
    ensures FirstHit(ps, key).Some? <==> Find(Present(ps), key).Some?
  {
    FirstHitIsFirstMatch(ps, key);
  }

  lemma FirstHitIsFirstMatch(ps: seq<Option<Entry>>, key: Key)
    ensures FirstHit(ps, key).None? ==> FirstMatch(Present(ps), key).None?
    ensures FirstHit(ps, key).Some? ==> (var i := FirstHit(ps, key).value;
      FirstMatch(Present(ps), key) == Some(|Present(ps[..i])|)
      && Present(ps) == Present(ps[..i]) + [ps[i].value] + Present(ps[i + 1..]))
  {
    match FirstHit(ps, key)
    case None =>
      NoHitNoMatch(ps, key);
    case Some(i) =>
      FirstHitAt(ps, key, i);
  }

  lemma FirstHitAt(ps: seq<Option<Entry>>, key: Key, i: nat)
    requires i < |ps| && Hit(ps[i], key)
    requires forall j :: 0 <= j < i ==> !Hit(ps[j], key)
    ensures FirstMatch(Present(ps), key) == Some(|Present(ps[..i])|)
    ensures Present(ps) == Present(ps[..i]) + [ps[i].value] + Present(ps[i + 1..])
  {
    PresentSplitAt(ps, i);
    var before := ps[..i];
    assert forall j :: 0 <= j < |before| ==> !Hit(before[j], key);
    NoHitNoMatch(before, key);
    var front := Present(before);
    var es := front + [ps[i].value] + Present(ps[i + 1..]);
    var k := |front|;
    assert es[k] == ps[i].value;
    assert forall j :: 0 <= j < k ==> es[j] == front[j];
    FirstMatchIs(es, key, k);
  }

  // ------------------------------------------------------------ document IDs

  /** `int(doc_id)`; an entry's ID is always a digit string, so the zero case never contributes. */
  function DocNumber(e: Entry): nat
  {
    if IsDigits(e.docId) then DigitsValue(e.docId) else 0
  }

  function Max(a: nat, b: nat): nat
  {
    if a >= b then a else b
  }

  /** The highest document number, 0 for none. */
  function MaxDocId(es: seq<Entry>): nat
  {
    if es == [] then 0 else Max(MaxDocId(es[..|es| - 1]), DocNumber(es[|es| - 1]))
  }

  /** `MaxDocId` bounds every number and is one of them, unless there are none. */
  lemma {:induction false} MaxDocIdBounds(es: seq<Entry>)
    ensures forall k :: 0 <= k < |es| ==> DocNumber(es[k]) <= MaxDocId(es)
    ensures MaxDocId(es) == 0 || exists k :: 0 <= k < |es| && DocNumber(es[k]) == MaxDocId(es)
    decreases |es|
  {
    if es != [] {
      var init := es[..|es| - 1];
      MaxDocIdBounds(init);
      assert forall k :: 0 <= k < |init| ==> init[k] == es[k];
      if MaxDocId(es) != 0 && MaxDocId(es) != DocNumber(es[|es| - 1]) {
        var k :| 0 <= k < |init| && DocNumber(init[k]) == MaxDocId(init);
        assert es[k] == init[k];
      }
    }
  }

  lemma MaxDocIdStep(es: seq<Entry>, i: nat)
    requires i < |es|
    ensures MaxDocId(es[..i + 1]) == Max(MaxDocId(es[..i]), DocNumber(es[i]))
  {
    assert es[..i + 1][..i] == es[..i];
  }

  /** The next document number: 1 for an empty index, else one more than the highest. */
  function NextDocId(es: seq<Entry>): (r: nat)
    ensures r >= 1
    ensures forall k :: 0 <= k < |es| ==> DocNumber(es[k]) < r
  {
    MaxDocIdBounds(es);
    if es == [] then 1 else MaxDocId(es) + 1
  }

  /** The next number is the least positive number above every existing one. */
  lemma NextDocIdLeast(es: seq<Entry>, m: nat)
    requires m >= 1 && forall k :: 0 <= k < |es| ==> DocNumber(es[k]) < m
    ensures NextDocId(es) <= m
  {
    MaxDocIdBounds(es);
  }

  predicate DistinctDocNumbers(es: seq<Entry>)
  {
    forall i, j :: 0 <= i < j < |es| ==> DocNumber(es[i]) != DocNumber(es[j])
  }

  predicate DistinctArtifactIds(es: seq<Entry>)
  {
    forall i, j :: 0 <= i < j < |es| ==> Upper(es[i].artifactId) != Upper(es[j].artifactId)
  }

  /** An entry numbered with the next ID keeps document numbers distinct. */
  lemma NextDocIdFresh(es: seq<Entry>, e: Entry)
    requires DistinctDocNumbers(es) && e.docId == NatToString(NextDocId(es))
    ensures DistinctDocNumbers(es + [e])
    ensures forall k :: 0 <= k < |es| ==> es[k].docId != e.docId
  {
    NatToStringValue(NextDocId(es));
    assert DocNumber(e) == NextDocId(es);
    var all := es + [e];
    forall i, j | 0 <= i < j < |all| ensures DocNumber(all[i]) != DocNumber(all[j]) {
      if j == |es| {
        assert all[i] == es[i];
      }
    }
  }

  /** Adding an artifact ID that no entry has keeps artifact IDs distinct. */
  lemma AbsentIdKeepsDistinct(es: seq<Entry>, e: Entry)
    requires DistinctArtifactIds(es) && Find(es, ById(e.artifactId)).None?
    ensures DistinctArtifactIds(es + [e])
  {
    var all := es + [e];
    forall i, j | 0 <= i < j < |all| ensures Upper(all[i].artifactId) != Upper(all[j].artifactId) {
      if j == |es| {
        assert all[i] == es[i];
        assert !KeyMatches(es[i], ById(e.artifactId));
      }
    }
  }

  /**
   * The entry `add_artifact` appends, read back, keeps both document numbers
   * and artifact IDs distinct: with `Ledger.AddArtifact`'s last postcondition,
   * a successful add never produces a second entry for an ID or a number.
   */
  lemma AddKeepsDistinct(es: seq<Entry>, e: Entry)
    requires DistinctDocNumbers(es) && DistinctArtifactIds(es)
    requires Find(es, ById(e.artifactId)).None? && e.docId == NatToString(NextDocId(es))
    ensures DistinctDocNumbers(es + [ReadBack(e)]) && DistinctArtifactIds(es + [ReadBack(e)])
  {
    NextDocIdFresh(es, ReadBack(e));
    AbsentIdKeepsDistinct(es, ReadBack(e));
  }

  // ------------------------------------------------------------ filters

  /** One of the three filters of `get_artifacts_by_filter`. */
  datatype Criterion = IsFileIs(isFile: bool) | StatusIs(status: string) | ParentIs(parent: string)

  predicate Meets(e: Entry, c: Criterion)
  {
    match c
    case IsFileIs(b) => e.isFile == b
    case StatusIs(s) => e.status == Some(s)
    case ParentIs(p) => e.parent == Some(p)
  }

  /** One list comprehension: the entries meeting `c`, in order. */
  function Keep(es: seq<Entry>, c: Criterion): (r: seq<Entry>)
    ensures |r| <= |es|
  {
    if es == [] then [] else (if Meets(es[0], c) then [es[0]] else []) + Keep(es[1..], c)
  }

  /** A filter that is applied only when it is given. */
  function Narrow(es: seq<Entry>, c: Option<Criterion>): seq<Entry>
  {
    if c.None? then es else Keep(es, c.value)
  }

  function IsFileFilter(isFile: Option<bool>): Option<Criterion>
  {
    if isFile.Some? then Some(IsFileIs(isFile.value)) else None
  }

  function StatusFilter(status: Option<string>): Option<Criterion>
  {
    if status.Some? then Some(StatusIs(status.value)) else None
  }

  function ParentFilter(parent: Option<string>): Option<Criterion>
  {
    if parent.Some? then Some(ParentIs(parent.value)) else None
  }

  predicate Wanted(e: Entry, isFile: Option<bool>, status: Option<string>, parent: Option<string>)
  {
    (isFile.None? || e.isFile == isFile.value)
    && (status.None? || e.status == Some(status.value))
    && (parent.None? || e.parent == Some(parent.value))
  }

  /** The entries meeting every given criterion, in one pass. */
  function Select(es: seq<Entry>, isFile: Option<bool>, status: Option<string>, parent: Option<string>): seq<Entry>
  {
    if es == [] then [] else Picked(es[0], isFile, status, parent) + Select(es[1..], isFile, status, parent)
  }

  /** One entry, kept when wanted. */
  function Picked(e: Entry, isFile: Option<bool>, status: Option<string>, parent: Option<string>): seq<Entry>
  {
    if Wanted(e, isFile, status, parent) then [e] else []
  }

  /** The selection holds exactly the wanted entries of the index. */
  lemma {:induction false} SelectMembers(es: seq<Entry>, isFile: Option<bool>, status: Option<string>, parent: Option<string>)
    ensures forall e :: e in Select(es, isFile, status, parent) <==> e in es && Wanted(e, isFile, status, parent)
    decreases |es|
  {
    if es != [] {
      SelectMembers(es[1..], isFile, status, parent);
      assert es == [es[0]] + es[1..];
    }
  }

  /** Selection keeps the order of the index. */
  lemma {:induction false} SelectConcat(a: seq<Entry>, b: seq<Entry>, isFile: Option<bool>, status: Option<string>, parent: Option<string>)
    ensures Select(a + b, isFile, status, parent) == Select(a, isFile, status, parent) + Select(b, isFile, status, parent)
    decreases |a|
  {
    if a == [] {
      assert a + b == b;
    } else {
      SelectCons(a, b, isFile, status, parent);
      SelectConcat(a[1..], b, isFile, status, parent);
      var h, sa, sb := Picked(a[0], isFile, status, parent), Select(a[1..], isFile, status, parent), Select(b, isFile, status, parent);
      assert h + (sa + sb) == (h + sa) + sb;
    }
  }

  lemma SelectCons(a: seq<Entry>, b: seq<Entry>, isFile: Option<bool>, status: Option<string>, parent: Option<string>)
    requires a != []
    ensures Select(a + b, isFile, status, parent) == Picked(a[0], isFile, status, parent) + Select(a[1..] + b, isFile, status, parent)
  {
    assert (a + b)[0] == a[0] && (a + b)[1..] == a[1..] + b;
  }

  lemma {:induction false} NarrowConcat(a: seq<Entry>, b: seq<Entry>, c: Option<Criterion>)
    ensures Narrow(a + b, c) == Narrow(a, c) + Narrow(b, c)
    decreases |a|
  {
    if c.Some? && a != [] {
      assert (a + b)[0] == a[0] && (a + b)[1..] == a[1..] + b;
      NarrowConcat(a[1..], b, c);
    } else if a == [] {
      assert a + b == b;
    }
  }

  lemma NarrowOne(e: Entry, c: Option<Criterion>)
    ensures Narrow([e], c) == if c.None? || Meets(e, c.value) then [e] else []
  {
    if c.Some? {
      assert [e][1..] == [];
    }
  }

  /** The three filters applied one after the other select what one combined test selects. */
  lemma {:induction false} FiltersCompose(es: seq<Entry>, isFile: Option<bool>, status: Option<string>, parent: Option<string>)
    ensures Narrow(Narrow(Narrow(es, IsFileFilter(isFile)), StatusFilter(status)), ParentFilter(parent))
      == Select(es, isFile, status, parent)
    decreases |es|
  {
    var f, s, p := IsFileFilter(isFile), StatusFilter(status), ParentFilter(parent);
    if es != [] {
      var x := es[0];
      var rest := es[1..];
      assert es == [x] + rest;
      NarrowConcat([x], rest, f);
      NarrowOne(x, f);
      var n1 := Narrow([x], f);
      NarrowConcat(n1, Narrow(rest, f), s);
      var n2 := Narrow(n1, s);
      if n1 != [] { NarrowOne(x, s); }
      NarrowConcat(n2, Narrow(Narrow(rest, f), s), p);
      if n2 != [] { NarrowOne(x, p); }
      FiltersCompose(rest, isFile, status, parent);
    }
  }

  // ------------------------------------------------------------ appending and updating

  /** A clean entry's line holds no line break of either kind. */
  lemma CleanLineOneLine(e: Entry)
    requires CleanEntry(e)
    ensures '\n' !in FormatEntry(e) && '\r' !in FormatEntry(e)
  {
    WrittenColumns(e);
  }

  /** The file after `add_artifact` writes `line`: a separating newline only when the content lacks one. */
  function Appended(content: string, line: string): string
  {
    content + (if content != [] && !EndsWith(content, "\n") then "\n" else "") + line + "\n"
  }

  lemma EntriesOfOne(line: string, e: Entry)
    requires ParseIndexLine(line) == Some(e)
    ensures EntriesOf([line]) == [e]
  {
    assert ParseLines([line]) == [Some(e)];
    assert [Some(e)][..0] == [];
  }

  lemma EntriesOfBlank()
    ensures EntriesOf([""]) == []
  {
    NonEntryLine("");
    var ps: seq<Option<Entry>> := [None];
    assert ParseLines([""]) == ps;
    assert ps[..0] == [];
  }

  /** The lines that appending leaves in front of the new line. */
  function AppendBase(content: string): seq<string>
  {
    if content == [] then []
    else if EndsWith(content, "\n") then Split(content[..|content| - 1], '\n')
    else Split(content, '\n')
  }

  /** Appending adds the line and an empty last line after the existing lines. */
  lemma AppendedLines(content: string, line: string)
    requires '\n' !in line
    ensures Split(Appended(content, line), '\n') == AppendBase(content) + [line] + [""]
    ensures Split(content, '\n') == AppendBase(content) || Split(content, '\n') == AppendBase(content) + [""]
  {
    var tail := line + ['\n'] + "";
    SplitConcat(line, '\n', "");
    SplitNoSeparator(line, '\n');
    assert Split(tail, '\n') == [line] + [""];
    if content == [] {
      assert Appended(content, line) == tail;
    } else if EndsWith(content, "\n") {
      var u := content[..|content| - 1];
      assert content == u + ['\n'] + "";
      assert Appended(content, line) == u + ['\n'] + tail;
      SplitConcat(u, '\n', tail);
      SplitConcat(u, '\n', "");
    } else {
      assert Appended(content, line) == content + ['\n'] + tail;
      SplitConcat(content, '\n', tail);
    }
  }

  lemma EntriesBlankEnd(a: seq<string>)
    ensures EntriesOf(a + [""]) == EntriesOf(a)
  {
    EntriesConcat(a, [""]);
    EntriesOfBlank();
  }

  lemma EntriesLineEnd(a: seq<string>, line: string, e: Entry)
    requires EntriesOf([line]) == [e]
    ensures EntriesOf(a + [line] + [""]) == EntriesOf(a) + [e]
  {
    EntriesBlankEnd(a + [line]);
    EntriesConcat(a, [line]);
  }

  /** Appending a line that parses lists exactly one more entry, after the others. */
  lemma AppendEntry(content: string, line: string, e: Entry)
    requires '\n' !in line && ParseIndexLine(line) == Some(e)
    ensures EntriesOf(Split(Appended(content, line), '\n')) == EntriesOf(Split(content, '\n')) + [e]
  {
    EntriesOfOne(line, e);
    AppendedLines(content, line);
    EntriesLineEnd(AppendBase(content), line, e);
    EntriesBlankEnd(AppendBase(content));
  }

  /** Appending a clean entry's line to text read in text mode lists that entry last. */
  lemma AppendClean(content: string, e: Entry)
    requires '\r' !in content && CleanEntry(e)
    ensures EntriesOf(Split(Newlines(Appended(content, FormatEntry(e))), '\n'))
      == EntriesOf(Split(content, '\n')) + [ReadBack(e)]
  {
    var line := FormatEntry(e);
    CleanLineOneLine(e);
    FormatParseRoundTrip(e);
    assert '\r' !in Appended(content, line);
    NewlinesPlain(Appended(content, line));
    AppendEntry(content, line, ReadBack(e));
  }

  /** `update_artifact`'s assignments: each given value replaces the field, the rest keep theirs. */
  function Revise(e: Entry, name: Option<string>, status: Option<string>, isFile: Option<bool>,
                  parent: Option<string>): Entry
  {
    Entry(e.docId, e.artifactId,
          if name.Some? then name else e.name,
          if status.Some? then status else e.status,
          if isFile.Some? then isFile.value else e.isFile,
          if parent.Some? then parent else e.parent)
  }

  /** A given value as it reads back after the update: an empty one clears the field. */
  function Given(v: Option<string>, current: Option<string>): Option<string>
  {
    if v.Some? then NonEmpty(v) else current
  }

  /** An update keeps the document and artifact IDs and changes only the fields it is given. */
  lemma RevisedFields(e: Entry, name: Option<string>, status: Option<string>, isFile: Option<bool>,
                      parent: Option<string>)
    requires ValidEntry(e)
    ensures var r := ReadBack(Revise(e, name, status, isFile, parent));
      r.docId == e.docId && r.artifactId == e.artifactId
      && r.name == Given(name, e.name) && r.status == Given(status, e.status)
      && r.isFile == (if isFile.Some? then isFile.value else e.isFile)
      && r.parent == Given(parent, e.parent)
  {
  }

  lemma ParseLinesPrefix(lines: seq<string>, i: nat)
    requires i <= |lines|
    ensures ParseLines(lines[..i]) == ParseLines(lines)[..i]
  {
  }

  /** The entries around lines that hold one entry. */
  lemma EntriesAround(before: seq<string>, m: seq<string>, after: seq<string>, e: Entry)
    requires EntriesOf(m) == [e]
    ensures EntriesOf(before + m + after) == EntriesOf(before) + [e] + EntriesOf(after)
  {
    EntriesConcat(before + m, after);
    EntriesConcat(before, m);
  }

  /** Replacing lines that hold one entry by others that hold one changes exactly that entry. */
  lemma EntriesReplaced(before: seq<string>, m: seq<string>, m': seq<string>, after: seq<string>, e: Entry, e': Entry)
    requires EntriesOf(m) == [e] && EntriesOf(m') == [e']
    ensures |EntriesOf(before)| < |EntriesOf(before + m + after)|
    ensures EntriesOf(before + m + after)[|EntriesOf(before)|] == e
    ensures EntriesOf(before + m' + after) == EntriesOf(before + m + after)[|EntriesOf(before)| := e']
  {
    EntriesAround(before, m, after, e);
    EntriesAround(before, m', after, e');
    ReplaceMiddle(EntriesOf(before), e, e', EntriesOf(after));
  }

  lemma ReplaceMiddle(x: seq<Entry>, e: Entry, e': Entry, y: seq<Entry>)
    ensures (x + [e] + y)[|x|] == e
    ensures (x + [e] + y)[|x| := e'] == x + [e'] + y
  {
  }

  /** The lines of the rewritten file. */
  lemma ReplacedLines(lines: seq<string>, i: nat, l': string)
    requires i < |lines| && '\n' !in l'
    requires forall k :: 0 <= k < |lines| ==> '\n' !in lines[k]
    ensures Split(Join(lines[i := l'], '\n'), '\n') == lines[..i] + [l'] + lines[i + 1..]
    ensures lines == lines[..i] + [lines[i]] + lines[i + 1..]
  {
    var lines' := lines[i := l'];
    assert forall k :: 0 <= k < |lines'| ==> '\n' !in lines'[k];
    SplitJoin(lines', '\n');
    assert lines' == lines[..i] + [l'] + lines[i + 1..];
  }

  /** Rewriting the first matching line changes exactly the first matching entry. */
  lemma UpdateEntries(lines: seq<string>, key: Key, i: nat, e': Entry)
    requires forall k :: 0 <= k < |lines| ==> '\n' !in lines[k]
    requires FirstHit(ParseLines(lines), key) == Some(i)
    requires CleanEntry(e')
    ensures FirstMatch(EntriesOf(lines), key).Some?
    ensures var k := FirstMatch(EntriesOf(lines), key).value;
      EntriesOf(lines)[k] == ParseIndexLine(lines[i]).value
      && EntriesOf(Split(Join(lines[i := FormatEntry(e')], '\n'), '\n')) == EntriesOf(lines)[k := ReadBack(e')]
  {
    var ps := ParseLines(lines);
    FirstHitIsFirstMatch(ps, key);
    ParseLinesPrefix(lines, i);
    var l' := FormatEntry(e');
    CleanLineOneLine(e');
    FormatParseRoundTrip(e');
    EntriesOfOne(l', ReadBack(e'));
    EntriesOfOne(lines[i], ps[i].value);
    ReplacedLines(lines, i, l');
    EntriesReplaced(lines[..i], [lines[i]], [l'], lines[i + 1..], ps[i].value, ReadBack(e'));
  }

  // ------------------------------------------------------------ the ledger

  /** The first entry matching `key`, by a search loop. */
  method FindEntry(es: seq<Entry>, key: Key) returns (r: Option<Entry>)
    ensures r == Find(es, key)
  {
    var i := 0;
    while i < |es|
      invariant 0 <= i <= |es|
      invariant forall j :: 0 <= j < i ==> !KeyMatches(es[j], key)
    {
      if KeyMatches(es[i], key) {
        FirstMatchIs(es, key, i);
        return Some(es[i]);
      }
      i := i + 1;
    }
    return None;
  }

  /** The highest document number among `es`, skipping IDs that are not numbers. */
  method HighestDocId(es: seq<Entry>) returns (maxId: nat)
    ensures maxId == MaxDocId(es)
  {
    maxId := 0;
    var i := 0;
    while i < |es|
      invariant 0 <= i <= |es|
      invariant maxId == MaxDocId(es[..i])
    {
      MaxDocIdStep(es, i);
      var docId := es[i].docId;
      if IsDigits(docId) {
        var value := DigitsValue(docId);
        if value > maxId {
          maxId := value;
        }
      }
      i := i + 1;
    }
    assert es[..|es|] == es;
  }

  /** The position of the first parsed line whose entry matches `key`. */
  method FindLine(ps: seq<Option<Entry>>, key: Key) returns (r: Option<nat>)
    ensures r == FirstHit(ps, key)
  {
    var i := 0;
    while i < |ps|
      invariant 0 <= i <= |ps|
      invariant forall j :: 0 <= j < i ==> !Hit(ps[j], key)
    {
      if ps[i].Some? && KeyMatches(ps[i].value, key) {
        FirstHitIs(ps, key, i);
        return Some(i);
      }
      i := i + 1;
    }
    return None;
  }

  /**
   * The index file `index.md`: whether it exists and its content
   * as a file opened in text mode reads it.
   */
  class Ledger {
    var present: bool
    var text: string

    /** Text read in text mode never holds a carriage return. */
    predicate Valid()
      reads this
    {
      '\r' !in text
    }

    /** A ledger over the file as found on disk. */
    constructor (exists': bool, disk: string)
      ensures present == exists' && text == Newlines(disk) && Valid()
    {
      present := exists';
      text := Newlines(disk);
    }

    function Lines(): seq<string>
      reads this
    {
      Split(text, '\n')
    }

    /** The entries listed: one per line that parses, none when the file is missing. */
    function Entries(): seq<Entry>
      reads this
    {
      if present then EntriesOf(Lines()) else []
    }

    /** Creates the file with its header when it is missing; the entries stay as they were. */
    method EnsureIndexFileExists()
      requires Valid()
      modifies this
      ensures Valid() && present
      ensures text == if old(present) then old(text) else InitialContent
      ensures Entries() == old(Entries())
    {
      if !present {
        InitialContentHasNoEntries();
        NewlinesPlain(InitialContent);
        present := true;
        text := Newlines(InitialContent);
      }
    }

    /** Every entry, in file order. */
    method GetAllArtifacts() returns (r: seq<Entry>)
      ensures r == Entries()
      ensures forall e :: e in r ==> ValidEntry(e)
    {
      if !present {
        return [];
      }
      var lines := Split(text, '\n');
      ghost var ps := ParseLines(lines);
      r := [];
      var i := 0;
      while i < |lines|
        invariant 0 <= i <= |lines|
        invariant r == Present(ps[..i])
      {
        var parsed := ParseIndexLine(lines[i]);
        assert ps[..i + 1][..i] == ps[..i] && ps[..i + 1][i] == parsed;
        if parsed.Some? {
          r := r + [parsed.value];
        }
        i := i + 1;
      }
      assert ps[..|lines|] == ps;
      EntriesValid(lines);
    }

    /** The first entry whose artifact ID equals `artifactId` ignoring case. */
    method GetArtifactById(artifactId: string) returns (r: Option<Entry>)
      ensures r == Find(Entries(), ById(artifactId))
    {
      var all := GetAllArtifacts();
      r := FindEntry(all, ById(artifactId));
    }

    /** The first entry whose document ID is exactly `docId`. */
    method GetArtifactByDocId(docId: string) returns (r: Option<Entry>)
      ensures r == Find(Entries(), ByDocId(docId))
    {
      var all := GetAllArtifacts();
      r := FindEntry(all, ByDocId(docId));
    }

    /** The next document number, after creating the file if needed. */
    method GetNextDocId() returns (n: nat)
      requires Valid()
      modifies this
      ensures Valid() && present
      ensures text == if old(present) then old(text) else InitialContent
      ensures Entries() == old(Entries())
      ensures n == NextDocId(Entries())
    {
      EnsureIndexFileExists();
      var all := GetAllArtifacts();
      if |all| == 0 {
        return 1;
      }
      var maxId := HighestDocId(all);
      n := maxId + 1;
    }

    /**
     * Adds an entry with the next document number, or fails when the artifact
     * ID is already listed. The whole allocation is one atomic step.
     */
    method AddArtifact(artifactId: string, name: Option<string>, status: Option<string>, isFile: bool,
                       parent: Option<string>) returns (r: Result<string, LedgerError>)
      requires Valid()
      modifies this
      ensures Valid()
      ensures Find(old(Entries()), ById(artifactId)).Some? ==>
        r == Failure(AlreadyExists(artifactId)) && present == old(present) && text == old(text)
      ensures Find(old(Entries()), ById(artifactId)).None? ==>
        (var docId := NatToString(NextDocId(old(Entries())));
         var base := if old(present) then old(text) else InitialContent;
         r == Success(docId) && present
         && text == Newlines(Appended(base, FormatIndexLine(docId, artifactId, name, status, isFile, parent))))
      ensures r.Success? && CleanEntry(Entry(r.value, artifactId, name, status, isFile, parent)) ==>
        Entries() == old(Entries()) + [ReadBack(Entry(r.value, artifactId, name, status, isFile, parent))]
      ensures r.Success? && CleanEntry(Entry(r.value, artifactId, name, status, isFile, parent))
              && DistinctDocNumbers(old(Entries())) && DistinctArtifactIds(old(Entries())) ==>
                DistinctDocNumbers(Entries()) && DistinctArtifactIds(Entries())
    {
      var existing := GetArtifactById(artifactId);
      if existing.Some? {
        return Failure(AlreadyExists(artifactId));
      }
      var docId := AppendArtifact(artifactId, name, status, isFile, parent);
      return Success(docId);
    }

    /** The locked part of `add_artifact`: number the entry with the next ID and append its line. */
    method AppendArtifact(artifactId: string, name: Option<string>, status: Option<string>, isFile: bool,
                          parent: Option<string>) returns (docId: string)
      requires Valid() && Find(Entries(), ById(artifactId)).None?
      modifies this
      ensures Valid() && present
      ensures docId == NatToString(NextDocId(old(Entries())))
      ensures text == Newlines(Appended(if old(present) then old(text) else InitialContent,
                                        FormatIndexLine(docId, artifactId, name, status, isFile, parent)))
      ensures CleanEntry(Entry(docId, artifactId, name, status, isFile, parent)) ==>
        Entries() == old(Entries()) + [ReadBack(Entry(docId, artifactId, name, status, isFile, parent))]
      ensures CleanEntry(Entry(docId, artifactId, name, status, isFile, parent))
              && DistinctDocNumbers(old(Entries())) && DistinctArtifactIds(old(Entries())) ==>
                DistinctDocNumbers(Entries()) && DistinctArtifactIds(Entries())
    {
      ghost var before := Entries();
      EnsureIndexFileExists();
      var next := GetNextDocId();
      docId := NatToString(next);
      var line := FormatIndexLine(docId, artifactId, name, status, isFile, parent);
      var content := text;
      text := Newlines(Appended(content, line));
      ghost var e := Entry(docId, artifactId, name, status, isFile, parent);
      if CleanEntry(e) {
        AppendClean(content, e);
        if DistinctDocNumbers(before) && DistinctArtifactIds(before) {
          AddKeepsDistinct(before, e);
        }
      }
    }

    /**
     * Applies the given values to the first entry whose artifact ID matches
     * ignoring case and rewrites the file; reports whether one matched.
     */
    method UpdateArtifact(artifactId: string, name: Option<string>, status: Option<string>,
                          isFile: Option<bool>, parent: Option<string>) returns (updated: bool)
      requires Valid()
      modifies this
      ensures Valid() && present == old(present)
      ensures updated <==> old(present) && FirstHit(ParseLines(old(Lines())), ById(artifactId)).Some?
      ensures updated <==> Find(old(Entries()), ById(artifactId)).Some?
      ensures updated <==> FirstMatch(old(Entries()), ById(artifactId)).Some?
      ensures !updated ==> text == old(text)
      ensures updated ==>
        (var lines := old(Lines());
         var i := FirstHit(ParseLines(lines), ById(artifactId)).value;
         text == Newlines(Join(lines[i := FormatEntry(Revise(ParseIndexLine(lines[i]).value, name, status, isFile, parent))], '\n')))
      ensures updated ==>
        (var k := FirstMatch(old(Entries()), ById(artifactId)).value;
         var revised := Revise(old(Entries())[k], name, status, isFile, parent);
         CleanEntry(revised) ==> Entries() == old(Entries())[k := ReadBack(revised)])
    {
      if !present {
        return false;
      }
      var lines := Split(text, '\n');
      var key := ById(artifactId);
      var parsed := ParseLines(lines);
      var hit := FindLine(parsed, key);
      FirstHitIsFirstMatch(parsed, key);
      if hit.None? {
        return false;
      }
      var i := hit.value;
      var revised := Revise(parsed[i].value, name, status, isFile, parent);
      ghost var es := EntriesOf(lines);
      ghost var k := FirstMatch(es, key).value;
      assert es[k] == parsed[i].value;
      lines := lines[i := FormatEntry(revised)];
      text := Newlines(Join(lines, '\n'));
      if CleanEntry(revised) {
        UpdateClean(old(text), key, i, revised);
      }
      return true;
    }

    /** The entries meeting every given filter, in file order. */
    method GetArtifactsByFilter(isFile: Option<bool>, status: Option<string>, parent: Option<string>)
      returns (r: seq<Entry>)
      ensures r == Select(Entries(), isFile, status, parent)
    {
      var all := GetAllArtifacts();
      r := all;
      if isFile.Some? {
        r := Keep(r, IsFileIs(isFile.value));
      }
      assert r == Narrow(all, IsFileFilter(isFile));
      if status.Some? {
        r := Keep(r, StatusIs(status.value));
      }
      assert r == Narrow(Narrow(all, IsFileFilter(isFile)), StatusFilter(status));
      if parent.Some? {
        r := Keep(r, ParentIs(parent.value));
      }
      FiltersCompose(all, isFile, status, parent);
    }

    /** The entries whose parent is `parentId`. */
    method GetChildrenArtifacts(parentId: string) returns (r: seq<Entry>)
      ensures r == Select(Entries(), None, None, Some(parentId))
      ensures forall e :: e in r <==> e in Entries() && e.parent == Some(parentId)
    {
      r := GetArtifactsByFilter(None, None, Some(parentId));
      SelectMembers(Entries(), None, None, Some(parentId));
    }
  }

  /** Rewriting the first matching line of text read in text mode changes exactly the first matching entry. */
  lemma UpdateClean(t: string, key: Key, i: nat, e': Entry)
    requires '\r' !in t && FirstHit(ParseLines(Split(t, '\n')), key) == Some(i) && CleanEntry(e')
    ensures FirstMatch(EntriesOf(Split(t, '\n')), key).Some?
    ensures var lines := Split(t, '\n');
      var k := FirstMatch(EntriesOf(lines), key).value;
      EntriesOf(lines)[k] == ParseIndexLine(lines[i]).value
      && EntriesOf(Split(Newlines(Join(lines[i := FormatEntry(e')], '\n')), '\n')) == EntriesOf(lines)[k := ReadBack(e')]
  {
    var lines := Split(t, '\n');
    UpdatedText(lines, i, e', t);
    UpdateEntries(lines, key, i, e');
    NewlinesPlain(Join(lines[i := FormatEntry(e')], '\n'));
  }

  /** The lines of a file read in text mode, rewritten at a clean line, hold no carriage return. */
  lemma UpdatedText(lines: seq<string>, i: nat, e': Entry, t: string)
    requires '\r' !in t && lines == Split(t, '\n') && i < |lines| && CleanEntry(e')
    ensures forall k :: 0 <= k < |lines| ==> '\n' !in lines[k]
    ensures '\r' !in Join(lines[i := FormatEntry(e')], '\n')
  {
    CleanLineOneLine(e');
    var lines' := lines[i := FormatEntry(e')];
    forall k | 0 <= k < |lines'| ensures '\r' !in lines'[k] {
      if k != i {
        PartOfSplit(t, '\n', k);
      }
    }
    JoinKeepsOut(lines', '\n', '\r');
  }
}
