/**
 * `PRDHandler.add_nested_artifact`: putting the content of a nested
 * acceptance artifact (a UACC or SACC block) into a PRD file, under its
 * `## Acceptance Tests` section.
 *
 * The three regular expressions the operation searches with are written out
 * as matchers on positions: the version footer `<!-- ReSpecT v... -->`, the
 * section header line `^\s*##\s+Acceptance Tests\s*$` and the next
 * top-level heading `^\s*##\s+`, each under the leftmost-match rule of
 * `re.search`. Loading the PRD and writing the file back are left to the
 * caller: the outcome of `get_artifact` comes in as a parameter and the
 * result says which file gets which text.
 */
module Nested {

  import opened Wrappers
  import opened Text
  import opened TypeRegistry
  import Handlers

  /** The section header line the nested content goes under. */
  const AccHeader: string := "## Acceptance Tests"

  /** The only parent type that takes nested artifacts. */
  const PrdCode: string := "PRD"

  // ------------------------------------------------------------ matchers

  /** `w` occurs in `t` at position `p`, compared exactly. */
  predicate LiteralAt(t: string, p: nat, w: string)
  {
    p + |w| <= |t| && t[p..p + |w|] == w
  }

  /** Where the run of whitespace from `i` ends: what a greedy `\s*` takes. */
  function SpaceEnd(t: string, i: nat): (r: nat)
    requires i <= |t|
    ensures i <= r <= |t|
    ensures forall k :: i <= k < r ==> IsSpace(t[k])
    ensures r < |t| ==> !IsSpace(t[r])
    decreases |t| - i
  {
    if i < |t| && IsSpace(t[i]) then SpaceEnd(t, i + 1) else i
  }

  /** A character of the class `[\d.]`. */
  predicate IsVersionChar(c: char)
  {
    IsDigit(c) || c == '.'
  }

  /** Where the run of `[\d.]` from `i` ends. */
  function VersionEnd(t: string, i: nat): (r: nat)
    requires i <= |t|
    ensures i <= r <= |t|
    ensures forall k :: i <= k < r ==> IsVersionChar(t[k])
    ensures r < |t| ==> !IsVersionChar(t[r])
    decreases |t| - i
  {
    if i < |t| && IsVersionChar(t[i]) then VersionEnd(t, i + 1) else i
  }

  /**
   * `<!--\s*ReSpecT\s+v[\d.]+\s*-->` matches at `p`. Every run is followed
   * by a character its class does not contain, so the greedy runs are the
   * only ones that can succeed and no backtracking is needed.
   */
  predicate FooterAt(t: string, p: nat)
    requires p <= |t|
  {
    LiteralAt(t, p, "<!--")
    && (var a := SpaceEnd(t, p + 4);
        LiteralAt(t, a, "ReSpecT")
        && (var b := SpaceEnd(t, a + 7);
            b > a + 7 && LiteralAt(t, b, "v")
            && (var c := VersionEnd(t, b + 1);
                c > b + 1 && LiteralAt(t, SpaceEnd(t, c), "-->"))))
  }

  /** At each position, the position itself when a footer match starts there. */
  function FooterMarks(t: string): (r: seq<Option<nat>>)
    ensures |r| == |t|
    ensures forall q :: 0 <= q < |t| ==> (r[q].Some? <==> FooterAt(t, q))
  {
    seq(|t|, q requires 0 <= q < |t| => if FooterAt(t, q) then Some(q) else None)
  }

  /** `re.search` for the footer: the `start()` of its leftmost match. */
  function FindFooter(t: string): (r: Option<nat>)
    ensures r.Some? ==> r.value < |t| && FooterAt(t, r.value)
    ensures forall q :: 0 <= q < (if r.Some? then r.value else |t|) ==> !FooterAt(t, q)
  {
    FirstSome(FooterMarks(t), 0)
  }

  /** `^` under MULTILINE: the start of the text or just after a newline. */
  predicate LineStart(t: string, p: nat)
    requires p <= |t|
  {
    p == 0 || t[p - 1] == '\n'
  }

  /** `$` under MULTILINE: the end of the text or just before a newline. */
  predicate LineEnd(t: string, e: nat)
    requires e <= |t|
  {
    e == |t| || t[e] == '\n'
  }

  /**
   * The largest `e` between `lo` and `hi` where `$` holds: where a greedy
   * `\s*$` comes to rest after giving back characters.
   */
  function LastLineEnd(t: string, lo: nat, hi: nat): (r: Option<nat>)
    requires lo <= hi <= |t|
    ensures r.Some? ==> lo <= r.value <= hi && LineEnd(t, r.value)
    ensures forall e :: (if r.Some? then r.value + 1 else lo) <= e <= hi ==> !LineEnd(t, e)
    decreases hi - lo
  {
    if LineEnd(t, hi) then Some(hi)
    else if hi == lo then None
    else LastLineEnd(t, lo, hi - 1)
  }

  /** Where a match of `^\s*##\s+Acceptance Tests\s*$` (MULTILINE) that starts at `p` ends. */
  function HeaderEndAt(t: string, p: nat): (r: Option<nat>)
    requires p <= |t|
    ensures r.Some? ==> p < r.value <= |t|
  {
    if !LineStart(t, p) then None
    else
      var a := SpaceEnd(t, p);
      if !LiteralAt(t, a, "##") then None
      else
        var b := SpaceEnd(t, a + 2);
        if b == a + 2 || !LiteralAt(t, b, "Acceptance Tests") then None
        else LastLineEnd(t, b + 16, SpaceEnd(t, b + 16))
  }

  /** The span of a match. */
  datatype Span = Span(start: nat, end: nat)

  /** At each position, where a header match starting there ends. */
  function HeaderEnds(t: string): (r: seq<Option<nat>>)
    ensures |r| == |t|
    ensures forall q :: 0 <= q < |t| ==> r[q] == HeaderEndAt(t, q)
  {
    seq(|t|, q requires 0 <= q < |t| => HeaderEndAt(t, q))
  }

  /** `header_pattern.search(text)`: the leftmost header match. */
  function FindHeader(t: string): (r: Option<Span>)
    ensures r.Some? ==> r.value.start < |t| && HeaderEndAt(t, r.value.start) == Some(r.value.end)
    ensures forall q :: 0 <= q < (if r.Some? then r.value.start else |t|) ==> HeaderEndAt(t, q).None?
  {
    var rs := HeaderEnds(t);
    match FirstSome(rs, 0)
    case None => None
    case Some(i) => Some(Span(i, rs[i].value))
  }

  /** `^\s*##\s+` (MULTILINE) matches at `p`. */
  predicate TopHeadingAt(s: string, p: nat)
    requires p <= |s|
  {
    LineStart(s, p)
    && (var a := SpaceEnd(s, p); LiteralAt(s, a, "##") && a + 2 < |s| && IsSpace(s[a + 2]))
  }

  /** At each position, the position itself when a top-level heading starts there. */
  function HeadingMarks(s: string): (r: seq<Option<nat>>)
    ensures |r| == |s|
    ensures forall q :: 0 <= q < |s| ==> (r[q].Some? <==> TopHeadingAt(s, q))
  {
    seq(|s|, q requires 0 <= q < |s| => if TopHeadingAt(s, q) then Some(q) else None)
  }

  /** `re.search(r"^\s*##\s+", s, re.MULTILINE)`: the `start()` of the leftmost match. */
  function FindTopHeading(s: string): (r: Option<nat>)
    ensures r.Some? ==> r.value < |s| && TopHeadingAt(s, r.value)
    ensures forall q :: 0 <= q < (if r.Some? then r.value else |s|) ==> !TopHeadingAt(s, q)
  {
    FirstSome(HeadingMarks(s), 0)
  }

  // ----------------------------------------------------------- insertion

  /** Some line of the PRD is the section header once stripped. */
  predicate HasSection(lines: seq<string>)
  {
    exists i :: 0 <= i < |lines| && Strip(lines[i]) == AccHeader
  }

  /**
   * No section and no footer: the header goes on the end of the line list
   * (after a blank line when the last line is not blank), the joined text
   * loses its trailing whitespace, and the body follows a blank line.
   */
  function AppendSection(lines: seq<string>, body: string): string
  {
    var baseText := RStrip(Join(Padded(lines) + [AccHeader, ""], '\n')) + "\n\n";
    baseText + body + "\n"
  }

  /** The line list with a blank line added when its last line is not blank. */
  function Padded(lines: seq<string>): seq<string>
  {
    if lines != [] && Strip(lines[|lines| - 1]) != "" then lines + [""] else lines
  }

  /** No section but a footer at `pos`: header and body go in just before it. */
  function SectionBeforeFooter(text: string, pos: nat, body: string): string
    requires pos <= |text|
  {
    var insertion := "\n\n" + AccHeader + "\n\n" + body + "\n";
    RStrip(text[..pos]) + insertion + text[pos..]
  }

  /** The paths that create the section: before the footer when there is one, at the end otherwise. */
  function NewSection(lines: seq<string>, text: string, body: string): string
  {
    match FindFooter(text)
    case Some(p) => SectionBeforeFooter(text, p, body)
    case None => AppendSection(lines, body)
  }

  /** The body put in at `pos`, with the newlines that followed `pos` dropped. */
  function IntoSection(text: string, pos: nat, body: string): string
    requires pos <= |text|
  {
    var insertion := "\n\n" + body + "\n";
    RStrip(text[..pos]) + insertion + (if pos < |text| then LStripChar(text[pos..], '\n') else "")
  }

  /**
   * Where the existing section ends: at the first top-level heading of the
   * text after the header match, else at the version footer, else at the end.
   */
  function SectionEnd(text: string, headerEnd: nat): (r: nat)
    requires headerEnd <= |text|
    ensures r <= |text|
  {
    match FindTopHeading(text[headerEnd..])
    case Some(k) => headerEnd + k
    case None =>
      match FindFooter(text)
      case Some(p) => p
      case None => |text|
  }

  /**
   * The new text of the PRD. `'\n'.join(content.split('\n'))` is `content`
   * itself (`Text.JoinSplit`), so the text searched is the content; the
   * line list is kept for the section test and the append path.
   */
  function WithNested(content: string, nested: string): string
  {
    var lines := Split(content, '\n');
    var body := Strip(nested);
    if !HasSection(lines) then NewSection(lines, content, body)
    else match FindHeader(content)
      case None => NewSection(lines, content, body)
      case Some(h) => IntoSection(content, SectionEnd(content, h.end), body)
  }

  // ----------------------------------------------------------- operation

  datatype NestedError =
    | ParentUnknown(pe: TypeError)          // `get_artifact_type_from_id` raised on the parent
    | ParentNotPrd(parentType: string)
    | NestedTypeUnknown(ne: TypeError)      // `validate_and_normalize_artifact_type` raised
    | TypeNotAllowed(nestedType: string, allowed: seq<string>)
    | Unreadable(id: string, message: Option<string>) // `get_artifact` failed
    | NoFilePath(id: string)

  /** What a successful call writes: the normalised nested type, the PRD's file and its new text. */
  datatype Added = Added(nestedType: string, filePath: string, text: string)

  /** Every check of `add_nested_artifact` passes, and `added` is what it writes. */
  predicate NestedAccepted(reg: Registry, parent: string, newType: string, nested: string,
                           loaded: Result<Handlers.Loaded, Option<string>>, added: Added)
  {
    && TypeFromId(reg, parent) == Success(PrdCode)
    && ValidateAndNormalizeType(reg, newType) == Success(added.nestedType)
    && added.nestedType in reg.types[PrdCode].addableNestedTypes
    && loaded.Success? && loaded.value.filePath == Some(added.filePath) && added.filePath != ""
    && added.text == WithNested(loaded.value.content, nested)
  }

  /**
   * `add_nested_artifact`: the parent must be a PRD, the nested type must be
   * among the PRD's `addable_nested_artifact_types`, and the PRD must load
   * from a file. A parent of type PRD means PRD is configured, so the lookup
   * of the PRD's record cannot fail here.
   */
  function AddNestedArtifact(reg: Registry, parent: string, newType: string, nested: string,
                             loaded: Result<Handlers.Loaded, Option<string>>): (r: Result<Added, NestedError>)
    ensures r.Success? ==> NestedAccepted(reg, parent, newType, nested, loaded, r.value)
  {
    match TypeFromId(reg, parent)
    case Failure(e) => Failure(ParentUnknown(e))
    case Success(parentType) =>
      if parentType != PrdCode then Failure(ParentNotPrd(parentType))
      else
        var allowed := reg.types[PrdCode].addableNestedTypes;
        match ValidateAndNormalizeType(reg, newType)
        case Failure(e) => Failure(NestedTypeUnknown(e))
        case Success(t) =>
          if t !in allowed then Failure(TypeNotAllowed(t, allowed))
          else match loaded
            case Failure(m) => Failure(Unreadable(parent, m))
            case Success(a) =>
              if a.filePath.None? || a.filePath.value == "" then Failure(NoFilePath(parent))
              else Success(Added(t, a.filePath.value, WithNested(a.content, nested)))
  }

  /** The call succeeds exactly when every check passes, and then writes the new text. */
  lemma AddNestedIff(reg: Registry, parent: string, newType: string, nested: string,
                     loaded: Result<Handlers.Loaded, Option<string>>, added: Added)
    ensures AddNestedArtifact(reg, parent, newType, nested, loaded) == Success(added)
        <==> NestedAccepted(reg, parent, newType, nested, loaded, added)
  {
  }

  /** A PRD whose configuration lists no nested types refuses every nested artifact. */
  lemma NoNestedTypesRefuse(reg: Registry, parent: string, newType: string, nested: string,
                            loaded: Result<Handlers.Loaded, Option<string>>)
    requires TypeFromId(reg, parent) == Success(PrdCode)
    requires reg.types[PrdCode].addableNestedTypes == []
    ensures AddNestedArtifact(reg, parent, newType, nested, loaded).Failure?
    ensures ValidateAndNormalizeType(reg, newType).Success? ==>
        AddNestedArtifact(reg, parent, newType, nested, loaded)
        == Failure(TypeNotAllowed(ValidateAndNormalizeType(reg, newType).value, []))
  {
  }

  // ------------------------------------------------------- text properties

  /**
   * `r` is `content` with `inserted` put in at one place, where only
   * whitespace of `content` was dropped.
   */
  predicate KeepsAround(content: string, r: string, inserted: string)
  {
    exists k, m :: 0 <= k <= m <= |content| && AllSpace(content[k..m]) && r == content[..k] + inserted + content[m..]
  }

  /**
   * `content` is `left`, a run of whitespace `gap` and `right`: putting
   * `inserted` in place of the gap keeps everything else.
   */
  lemma KeepsAroundAt(content: string, left: string, gap: string, right: string, inserted: string)
    requires content == left + gap + right && AllSpace(gap)
    ensures KeepsAround(content, left + inserted + right, inserted)
  {
    var k := |left|;
    var m := |left| + |gap|;
    assert content[..k] == left;
    assert content[k..m] == gap;
    assert content[m..] == right;
  }

  lemma SpaceConcat(a: string, b: string)
    requires AllSpace(a) && AllSpace(b)
    ensures AllSpace(a + b)
  {
    forall i | 0 <= i < |a + b|
      ensures IsSpace((a + b)[i])
    {
      if i < |a| {
        assert (a + b)[i] == a[i];
      } else {
        assert (a + b)[i] == b[i - |a|];
      }
    }
  }

  /** What `rstrip()` takes off a prefix of `text` is whitespace. */
  lemma RStripPrefix(text: string, pos: nat) returns (gap: string)
    requires pos <= |text|
    ensures AllSpace(gap) && text == RStrip(text[..pos]) + gap + text[pos..]
  {
    var pre := text[..pos];
    var left := RStrip(pre);
    gap := pre[|left|..];
    assert pre == left + gap;
    assert text == pre + text[pos..];
  }

  /** What `lstrip('\n')` takes off is whitespace. */
  lemma LStripNewlines(s: string) returns (gap: string)
    ensures AllSpace(gap) && s == gap + LStripChar(s, '\n')
  {
    var r := LStripChar(s, '\n');
    gap := s[..|s| - |r|];
    forall i | 0 <= i < |gap|
      ensures IsSpace(gap[i])
    {
      assert gap[i] == s[i] == '\n';
    }
    assert s == gap + s[|s| - |r|..];
  }

  /** The in-section insertion keeps the text on both sides, losing only whitespace at the seam. */
  lemma IntoSectionKeeps(text: string, pos: nat, body: string)
    requires pos <= |text|
    ensures KeepsAround(text, IntoSection(text, pos, body), "\n\n" + body + "\n")
  {
    var left := RStrip(text[..pos]);
    var g1 := RStripPrefix(text, pos);
    var right := if pos < |text| then LStripChar(text[pos..], '\n') else "";
    var g2: string := "";
    if pos < |text| {
      g2 := LStripNewlines(text[pos..]);
    }
    assert text[pos..] == g2 + right;
    SpaceConcat(g1, g2);
    Regroup(text, left, g1, text[pos..], g2, right);
    KeepsAroundAt(text, left, g1 + g2, right, "\n\n" + body + "\n");
  }

  /** Creating the section before the footer keeps the text on both sides. */
  lemma BeforeFooterKeeps(text: string, pos: nat, body: string)
    requires pos <= |text|
    ensures KeepsAround(text, SectionBeforeFooter(text, pos, body), "\n\n" + AccHeader + "\n\n" + body + "\n")
  {
    var g := RStripPrefix(text, pos);
    KeepsAroundAt(text, RStrip(text[..pos]), g, text[pos..], "\n\n" + AccHeader + "\n\n" + body + "\n");
  }

  /** Regrouping a concatenation whose middle part is itself split. */
  lemma Regroup(text: string, left: string, g1: string, mid: string, g2: string, right: string)
    requires text == left + g1 + mid && mid == g2 + right
    ensures text == left + (g1 + g2) + right
  {
  }

  /** Joining a list with a header line and an empty line after it. */
  lemma JoinHeaderLines(ls: seq<string>, header: string)
    requires |ls| >= 1
    ensures Join(ls + [header, ""], '\n') == Join(ls, '\n') + "\n" + header + "\n"
  {
    JoinConcat(ls, [header, ""], '\n');
    JoinPair(header, "", '\n');
    RegroupHeader(Join(ls, '\n'), header);
  }

  /** Joining two lines. */
  lemma JoinPair(a: string, b: string, d: char)
    ensures Join([a, b], d) == a + [d] + b
  {
    assert [a, b][1..] == [b];
  }

  lemma RegroupHeader(j: string, header: string)
    ensures j + ['\n'] + (header + ['\n'] + "") == j + "\n" + header + "\n"
  {
  }

  /** Joining a list with an empty line after it. */
  lemma JoinBlankLine(ls: seq<string>)
    requires |ls| >= 1
    ensures Join(ls + [""], '\n') == Join(ls, '\n') + "\n"
  {
    JoinConcat(ls, [""], '\n');
  }

  /** The non-blank case of the append path: a blank line, the header and an empty line. */
  lemma JoinPaddedNonBlank(lines: seq<string>, header: string)
    requires |lines| >= 1
    ensures Join(lines + [""] + [header, ""], '\n') == (Join(lines, '\n') + "\n\n" + header) + "\n"
  {
    JoinBlankLine(lines);
    JoinHeaderLines(lines + [""], header);
    RegroupNewlines(Join(lines, '\n'), header);
  }

  lemma RegroupNewlines(j: string, header: string)
    ensures j + "\n" + "\n" + header + "\n" == (j + "\n\n" + header) + "\n"
  {
  }

  /** A text ending in a non-space character loses only a final newline to `rstrip()`. */
  lemma RStripLineEnd(pre: string, header: string)
    requires header != [] && !IsSpace(header[|header| - 1])
    ensures RStrip(pre + header + "\n") == pre + header
  {
    var kept := pre + header;
    assert kept[|kept| - 1] == header[|header| - 1];
    assert AllSpace("\n");
    RStripSkips(kept, "\n");
  }

  /** The append path when the last line is not blank: a blank line goes in before the header. */
  lemma PaddedJoinNonBlank(lines: seq<string>, header: string)
    requires |lines| >= 1 && Strip(lines[|lines| - 1]) != ""
    requires header != [] && !IsSpace(header[|header| - 1])
    ensures RStrip(Join(Padded(lines) + [header, ""], '\n')) == Join(lines, '\n') + "\n\n" + header
  {
    JoinPaddedNonBlank(lines, header);
    RStripLineEnd(Join(lines, '\n') + "\n\n", header);
  }

  /** The append path when the last line is blank: the header follows it directly. */
  lemma PaddedJoinBlank(lines: seq<string>, header: string)
    requires |lines| >= 1 && Strip(lines[|lines| - 1]) == ""
    requires header != [] && !IsSpace(header[|header| - 1])
    ensures RStrip(Join(Padded(lines) + [header, ""], '\n')) == Join(lines, '\n') + "\n" + header
  {
    JoinHeaderLines(lines, header);
    RStripLineEnd(Join(lines, '\n') + "\n", header);
  }

  /**
   * The joined, right-stripped line list of the append path is the whole
   * text, then a newline (two when the last line is not blank), then
   * `header`, for any header that does not end in whitespace.
   */
  lemma PaddedJoin(lines: seq<string>, header: string)
    requires |lines| >= 1 && header != [] && !IsSpace(header[|header| - 1])
    ensures RStrip(Join(Padded(lines) + [header, ""], '\n'))
        == Join(lines, '\n') + (if Strip(lines[|lines| - 1]) != "" then "\n\n" else "\n") + header
  {
    if Strip(lines[|lines| - 1]) != "" {
      PaddedJoinNonBlank(lines, header);
    } else {
      PaddedJoinBlank(lines, header);
    }
  }

  /**
   * Appending the section keeps all of the text: the header follows one
   * newline when the last line is already blank, a blank line otherwise.
   */
  lemma AppendSectionShape(lines: seq<string>, content: string, body: string)
    requires |lines| >= 1 && Join(lines, '\n') == content
    ensures AppendSection(lines, body)
      == content + ((if Strip(lines[|lines| - 1]) != "" then "\n\n" else "\n") + AccHeader + "\n\n" + body + "\n")
  {
    assert AccHeader[|AccHeader| - 1] == 's';
    PaddedJoin(lines, AccHeader);
    RegroupAppended(content, if Strip(lines[|lines| - 1]) != "" then "\n\n" else "\n", AccHeader, body);
  }

  lemma RegroupAppended(content: string, sep: string, header: string, body: string)
    ensures content + sep + header + "\n\n" + body + "\n" == content + (sep + header + "\n\n" + body + "\n")
  {
  }

  /** Appending leaves the whole text in front of the new section. */
  lemma AppendSectionKeeps(lines: seq<string>, content: string, body: string)
    requires |lines| >= 1 && Join(lines, '\n') == content
    ensures KeepsAround(content, AppendSection(lines, body), "\n\n" + AccHeader + "\n\n" + body + "\n")
         || KeepsAround(content, AppendSection(lines, body), "\n" + AccHeader + "\n\n" + body + "\n")
  {
    AppendSectionShape(lines, content, body);
    var sep := if Strip(lines[|lines| - 1]) != "" then "\n\n" else "\n";
    AppendedKeeps(content, sep + AccHeader + "\n\n" + body + "\n");
  }

  /** Text put after all of `content` keeps it. */
  lemma AppendedKeeps(content: string, inserted: string)
    ensures KeepsAround(content, content + inserted, inserted)
  {
    KeepsAroundAt(content, content, "", "", inserted);
    assert content + inserted + "" == content + inserted;
  }

  /** Creating the section keeps the text, whichever of its two paths is taken. */
  lemma NewSectionKeeps(lines: seq<string>, content: string, body: string)
    requires |lines| >= 1 && Join(lines, '\n') == content
    ensures var s := NewSection(lines, content, body);
      KeepsAround(content, s, "\n\n" + AccHeader + "\n\n" + body + "\n")
      || KeepsAround(content, s, "\n" + AccHeader + "\n\n" + body + "\n")
  {
    match FindFooter(content)
    case Some(p) => BeforeFooterKeeps(content, p, body);
    case None => AppendSectionKeeps(lines, content, body);
  }

  /** A stripped line equal to `w` is `w` with whitespace on both sides. */
  lemma StripParts(line: string, w: string) returns (lead: nat)
    requires Strip(line) == w
    ensures lead + |w| <= |line| && line[lead..lead + |w|] == w
    ensures AllSpace(line[..lead]) && AllSpace(line[lead + |w|..])
  {
    var inner := LStrip(line);
    lead := |line| - |inner|;
    assert inner == line[lead..];
    assert line[lead..lead + |w|] == inner[..|w|];
    assert line[lead + |w|..] == inner[|w|..];
  }

  /**
   * Where line `i` starts in the joined text: the line follows there, a
   * line start before it and a line end after it.
   */
  lemma LineOffset(lines: seq<string>, t: string, i: nat) returns (p: nat)
    requires Join(lines, '\n') == t && i < |lines|
    ensures p + |lines[i]| <= |t| && t[p..p + |lines[i]|] == lines[i]
    ensures LineStart(t, p) && LineEnd(t, p + |lines[i]|)
  {
    var pre := if i == 0 then "" else Join(lines[..i], '\n') + "\n";
    var post := if i == |lines| - 1 then "" else "\n" + Join(lines[i + 1..], '\n');
    var tail := Join(lines[i..], '\n');
    assert tail == lines[i] + post by {
      if i < |lines| - 1 {
        assert lines[i..] == [lines[i]] + lines[i + 1..];
        JoinConcat([lines[i]], lines[i + 1..], '\n');
      } else {
        assert lines[i..] == [lines[i]];
      }
    }
    assert t == pre + tail by {
      if i == 0 {
        assert lines[i..] == lines;
      } else {
        assert lines == lines[..i] + lines[i..];
        JoinConcat(lines[..i], lines[i..], '\n');
      }
    }
    p := |pre|;
    assert t == pre + lines[i] + post;
    assert t[p..p + |lines[i]|] == lines[i];
  }

  /** What matching the header literal at `a` needs of the characters of `AccHeader`. */
  lemma HeaderPieces(t: string, a: nat)
    requires a + |AccHeader| <= |t| && t[a..a + |AccHeader|] == AccHeader
    ensures t[a] == '#' && t[a + 2] == ' ' && t[a + 3] == 'A'
    ensures LiteralAt(t, a, "##") && LiteralAt(t, a + 3, "Acceptance Tests")
  {
    var hd := t[a..a + 19];
    assert t[a] == hd[0];
    assert t[a + 2] == hd[2];
    assert t[a + 3] == hd[3];
    assert t[a..a + 2] == hd[..2];
    assert t[a + 3..a + 19] == hd[3..];
  }

  /**
   * From the line start `p` to the line end `e` of `t` there is only
   * whitespace around `w`, which starts at `a`.
   */
  predicate PaddedLine(t: string, p: nat, a: nat, e: nat, w: string)
  {
    p <= a && a + |w| <= e <= |t| && LineStart(t, p) && LineEnd(t, e)
    && t[a..a + |w|] == w
    && (forall k :: p <= k < a ==> IsSpace(t[k]))
    && (forall k :: a + |w| <= k < e ==> IsSpace(t[k]))
  }

  lemma HeaderLineMatches(t: string, p: nat, a: nat, e: nat)
    requires PaddedLine(t, p, a, e, AccHeader)
    ensures HeaderEndAt(t, p).Some?
  {
    HeaderPieces(t, a);
    assert SpaceEnd(t, p) == a;
    assert SpaceEnd(t, a + 2) == a + 3;
    var w := SpaceEnd(t, a + 19);
    assert e <= w;
    assert LastLineEnd(t, a + 19, w).Some?;
  }

  /** The facts about a line at offset `p` of `t`, carried over to `t`. */
  lemma LineFacts(t: string, p: nat, line: string, lead: nat, w: string)
    requires p + |line| <= |t| && t[p..p + |line|] == line
    requires LineStart(t, p) && LineEnd(t, p + |line|)
    requires lead + |w| <= |line| && line[lead..lead + |w|] == w
    requires AllSpace(line[..lead]) && AllSpace(line[lead + |w|..])
    ensures PaddedLine(t, p, p + lead, p + |line|, w)
  {
    forall k | p <= k < p + lead
      ensures IsSpace(t[k])
    {
      assert t[k] == t[p..p + |line|][k - p] == line[..lead][k - p];
    }
    forall k | p + lead + |w| <= k < p + |line|
      ensures IsSpace(t[k])
    {
      assert t[k] == t[p..p + |line|][k - p] == line[lead + |w|..][k - p - lead - |w|];
    }
    forall j | 0 <= j < |w|
      ensures t[p + lead..p + lead + |w|][j] == w[j]
    {
      assert t[p + lead + j] == t[p..p + |line|][lead + j] == line[lead..lead + |w|][j];
    }
  }

  /**
   * A line that strips to `w`, found in the joined text: where it starts,
   * where `w` starts, and where the line ends.
   */
  lemma StrippedLineAt(lines: seq<string>, content: string, i: nat, w: string) returns (p: nat, a: nat, e: nat)
    requires Join(lines, '\n') == content && i < |lines| && Strip(lines[i]) == w
    ensures PaddedLine(content, p, a, e, w)
  {
    p := LineOffset(lines, content, i);
    var lead := StripParts(lines[i], w);
    LineFacts(content, p, lines[i], lead, w);
    a := p + lead;
    e := p + |lines[i]|;
  }

  /** A PRD with a section header line has a header match, so the fallback of the code is never taken. */
  lemma SectionHeaderMatched(lines: seq<string>, content: string)
    requires Join(lines, '\n') == content && HasSection(lines)
    ensures FindHeader(content).Some?
  {
    var i :| 0 <= i < |lines| && Strip(lines[i]) == AccHeader;
    var p, a, e := StrippedLineAt(lines, content, i, AccHeader);
    HeaderLineMatches(content, p, a, e);
  }

  /**
   * The new text of the PRD keeps all of the old one: the block that goes
   * in is the stripped content (under a new section header when the PRD had
   * none), and at the insertion point only whitespace of the old text is lost.
   */
  lemma NestedKeepsText(content: string, nested: string)
    ensures var r := WithNested(content, nested);
      var body := Strip(nested);
      (HasSection(Split(content, '\n')) ==> KeepsAround(content, r, "\n\n" + body + "\n"))
      && (!HasSection(Split(content, '\n')) ==>
            KeepsAround(content, r, "\n\n" + AccHeader + "\n\n" + body + "\n")
            || KeepsAround(content, r, "\n" + AccHeader + "\n\n" + body + "\n"))
  {
    var lines := Split(content, '\n');
    var body := Strip(nested);
    JoinSplit(content, '\n');
    if HasSection(lines) {
      SectionHeaderMatched(lines, content);
      var h := FindHeader(content).value;
      IntoSectionKeeps(content, SectionEnd(content, h.end), body);
    } else {
      NewSectionKeeps(lines, content, body);
    }
  }
}
