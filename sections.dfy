/**
 * Sections of a markdown document: the lines from a `### <ID>` heading up to
 * the next `### ` heading of another artifact, how a section is read and
 * rewritten in place, and the `*Tests*:` line of a section.
 */
module Sections {

  import opened Wrappers
  import opened Text

  const HeadingMark := "### "
  const TestsMark := "*Tests*:"
  const ReqPrefix := "REQ-"

  // ------------------------------------------------------------ ranges

  /** No line in `[i, j)` satisfies `p`. */
  predicate NoneIn(lines: seq<string>, p: string -> bool, i: nat, j: nat)
    requires i <= j <= |lines|
  {
    forall k :: i <= k < j ==> !p(lines[k])
  }

  /** The first line at or after `i` that satisfies `p`. */
  function First(lines: seq<string>, p: string -> bool, i: nat): (r: Option<nat>)
    requires i <= |lines|
    ensures r.Some? ==> i <= r.value < |lines| && p(lines[r.value]) && NoneIn(lines, p, i, r.value)
    ensures r.None? ==> NoneIn(lines, p, i, |lines|)
    decreases |lines| - i
  {
    if i == |lines| then None
    else if p(lines[i]) then Some(i)
    else First(lines, p, i + 1)
  }

  /** The converse: a line that satisfies `p` with none before it is the first. */
  /** A line that fails `p` extends a stretch of lines that all fail it. */
  lemma NoneInStep(lines: seq<string>, p: string -> bool, i: nat, j: nat)
    requires i <= j < |lines| && NoneIn(lines, p, i, j) && !p(lines[j])
    ensures NoneIn(lines, p, i, j + 1)
  {
  }

  lemma {:induction false} FirstIs(lines: seq<string>, p: string -> bool, i: nat, j: nat)
    requires i <= j <= |lines| && NoneIn(lines, p, i, j)
    ensures j < |lines| && p(lines[j]) ==> First(lines, p, i) == Some(j)
    ensures j == |lines| ==> First(lines, p, i) == None
    decreases j - i
  {
    if i < j {
      FirstIs(lines, p, i + 1, j);
    }
  }

  /** A line that opens the section: its stripped text starts with `head`. */
  predicate IsStart(line: string, head: string)
  {
    StartsWith(Strip(line), head)
  }

  /** A line that closes the section: another `### ` heading. */
  predicate IsStop(line: string, head: string)
  {
    StartsWith(Strip(line), HeadingMark) && !StartsWith(Strip(line), head)
  }

  function Opens(head: string): string -> bool
  {
    line => IsStart(line, head)
  }

  function Closes(head: string): string -> bool
  {
    line => IsStop(line, head)
  }

  /** The first line at or after `j` that satisfies `closes`, or the end of the file. */
  function EndFrom(lines: seq<string>, closes: string -> bool, j: nat): (r: nat)
    requires j <= |lines|
    ensures j <= r <= |lines| && (r < |lines| ==> closes(lines[r])) && NoneIn(lines, closes, j, r)
  {
    match First(lines, closes, j)
    case None => |lines|
    case Some(e) => e
  }

  /**
   * The half-open line range `[start, end)` from the first line that
   * `opens` to the next line after it that `closes`, or to the end.
   */
  function Range(lines: seq<string>, opens: string -> bool, closes: string -> bool): (r: Option<(nat, nat)>)
    ensures r.Some? ==> r.value.0 < r.value.1 <= |lines|
  {
    match First(lines, opens, 0)
    case None => None
    case Some(s) => Some((s, EndFrom(lines, closes, s + 1)))
  }

  /** What the range is, both ways. */
  lemma RangeIs(lines: seq<string>, opens: string -> bool, closes: string -> bool, s: nat, e: nat)
    requires s < e <= |lines|
    ensures Range(lines, opens, closes) == Some((s, e)) <==>
      (opens(lines[s]) && NoneIn(lines, opens, 0, s)
       && (e < |lines| ==> closes(lines[e])) && NoneIn(lines, closes, s + 1, e))
  {
    if opens(lines[s]) && NoneIn(lines, opens, 0, s)
       && (e < |lines| ==> closes(lines[e])) && NoneIn(lines, closes, s + 1, e) {
      FirstIs(lines, opens, 0, s);
      FirstIs(lines, closes, s + 1, e);
    }
  }

  /** No range exactly when no line opens one. */
  lemma NoRangeIff(lines: seq<string>, opens: string -> bool, closes: string -> bool)
    ensures Range(lines, opens, closes) == None <==> NoneIn(lines, opens, 0, |lines|)
  {
    if NoneIn(lines, opens, 0, |lines|) {
      FirstIs(lines, opens, 0, |lines|);
    }
  }

  /** The section of the artifact whose heading line starts with `head`. */
  function SectionRange(lines: seq<string>, head: string): (r: Option<(nat, nat)>)
    ensures r.Some? ==> r.value.0 < r.value.1 <= |lines|
  {
    Range(lines, Opens(head), Closes(head))
  }

  /**
   * The scan of `_get_non_file_artifact` and `_update_non_file_artifact`:
   * find the opening line, then the closing one.
   */
  method FindRange(lines: seq<string>, opens: string -> bool, closes: string -> bool) returns (r: Option<(nat, nat)>)
    ensures r == Range(lines, opens, closes)
  {
    var i := 0;
    while i < |lines|
      invariant i <= |lines| && First(lines, opens, i) == First(lines, opens, 0)
    {
      if opens(lines[i]) {
        var end := |lines|;
        var j := i + 1;
        while j < |lines|
          invariant i + 1 <= j <= |lines| && First(lines, closes, j) == First(lines, closes, i + 1)
        {
          if closes(lines[j]) {
            end := j;
            break;
          }
          j := j + 1;
        }
        return Some((i, end));
      }
      i := i + 1;
    }
    return None;
  }

  /** The text `_get_non_file_artifact` returns for a range: the lines joined, trailing whitespace removed. */
  function SectionText(lines: seq<string>, s: nat, e: nat): string
    requires s <= e <= |lines|
  {
    RStrip(Join(lines[s..e], '\n'))
  }

  /** A section opened by a `### ` heading never reads as empty text. */
  lemma SectionTextNotBlank(lines: seq<string>, head: string, s: nat, e: nat)
    requires s < e <= |lines| && StartsWith(head, HeadingMark) && IsStart(lines[s], head)
    ensures SectionText(lines, s, e) != []
  {
    var part := lines[s..e];
    assert part[0] == lines[s];
    JoinEnds(part, '\n');
    var j := Join(part, '\n');
    var l := lines[s];
    var off := |l| - |LStrip(l)|;
    assert Strip(l)[0] == '#';
    assert l[off] == '#';
    assert j[off] == '#' && !IsSpace(j[off]);
    RStripKeepsNonSpace(j, off);
  }

  // ------------------------------------------------------------ splicing

  /** The lines of replacement content: `new_content.rstrip('\n').split('\n')`. */
  function NewLines(content: string): (r: seq<string>)
    ensures |r| >= 1
  {
    Split(RStripChar(content, '\n'), '\n')
  }

  /** `lines[:start] + new_lines + lines[end:]` */
  function Splice(lines: seq<string>, s: nat, e: nat, content: string): (r: seq<string>)
    requires s <= e <= |lines|
    ensures |r| == s + |NewLines(content)| + (|lines| - e)
  {
    lines[..s] + NewLines(content) + lines[e..]
  }

  /**
   * Replacing a range by lines that open with a line that opens the range and
   * hold no line that closes it: the range is found at the same start and
   * spans exactly the new lines, and what lies outside it is untouched.
   */
  lemma ReplaceRange(lines: seq<string>, opens: string -> bool, closes: string -> bool, s: nat, e: nat, nl: seq<string>, out: seq<string>)
    requires Range(lines, opens, closes) == Some((s, e)) && out == lines[..s] + nl + lines[e..]
    requires |nl| >= 1 && opens(nl[0]) && NoneIn(nl, closes, 1, |nl|)
    ensures s + |nl| <= |out| && Range(out, opens, closes) == Some((s, s + |nl|))
    ensures out[..s] == lines[..s] && out[s..s + |nl|] == nl && out[s + |nl|..] == lines[e..]
  {
    var n := |nl|;
    assert NoneIn(lines, opens, 0, s) && (e < |lines| ==> closes(lines[e])) by {
      RangeIs(lines, opens, closes, s, e);
    }
    assert NoneIn(out, opens, 0, s) by {
      forall k | 0 <= k < s ensures !opens(out[k]) {
        assert out[k] == lines[k];
      }
    }
    assert opens(out[s]) by {
      assert out[s] == nl[0];
    }
    assert NoneIn(out, closes, s + 1, s + n) by {
      forall k | s + 1 <= k < s + n ensures !closes(out[k]) {
        assert out[k] == nl[k - s];
      }
    }
    assert s + n < |out| ==> closes(out[s + n]) by {
      if s + n < |out| {
        assert out[s + n] == lines[e];
      }
    }
    RangeIs(out, opens, closes, s, s + n);
    assert out[..s] == lines[..s];
    assert out[s..s + n] == nl;
    assert out[s + n..] == lines[e..];
  }

  /**
   * Reading back a rewritten section: the section is found at the same start
   * and spans exactly the new lines, what lies outside it is untouched, and
   * it reads as the new content without its trailing whitespace.
   */
  lemma SpliceReadsBack(lines: seq<string>, opens: string -> bool, closes: string -> bool, s: nat, e: nat, content: string, out: seq<string>)
    requires Range(lines, opens, closes) == Some((s, e)) && out == Splice(lines, s, e, content)
    requires opens(NewLines(content)[0]) && NoneIn(NewLines(content), closes, 1, |NewLines(content)|)
    ensures s + |NewLines(content)| <= |out|
    ensures Range(out, opens, closes) == Some((s, s + |NewLines(content)|))
    ensures out[..s] == lines[..s] && out[s + |NewLines(content)|..] == lines[e..]
    ensures SectionText(out, s, s + |NewLines(content)|) == RStrip(content)
  {
    var nl := NewLines(content);
    assert s + |nl| <= |out| && Range(out, opens, closes) == Some((s, s + |nl|))
      && out[..s] == lines[..s] && out[s..s + |nl|] == nl && out[s + |nl|..] == lines[e..] by {
      ReplaceRange(lines, opens, closes, s, e, nl, out);
    }
    assert SectionText(out, s, s + |nl|) == RStrip(content) by {
      SectionTextOf(out, s, s + |nl|, nl);
      NewLinesText(content);
    }
  }

  lemma SectionTextOf(lines: seq<string>, s: nat, e: nat, part: seq<string>)
    requires s <= e <= |lines| && lines[s..e] == part
    ensures SectionText(lines, s, e) == RStrip(Join(part, '\n'))
  {
  }

  /** Joining the new lines back gives the content up to trailing whitespace. */
  lemma NewLinesText(content: string)
    ensures RStrip(Join(NewLines(content), '\n')) == RStrip(content)
  {
    JoinSplit(RStripChar(content, '\n'), '\n');
    RStripAfterChar(content);
  }

  // ------------------------------------------------------------ section body of a test artifact

  /** `_extract_artifact_section`: the lines from `### <id>:` to the next other `### ` heading. */
  function ArtifactSection(content: string, id: string): string
  {
    var head := HeadingMark + id + ":";
    Join(RangeLines(Split(content, '\n'), Opens(head), Closes(head)), '\n')
  }

  /** `_extract_artifact_section`, with its `in_section` flag. */
  method ExtractArtifactSection(content: string, id: string) returns (r: string)
    ensures r == ArtifactSection(content, id)
  {
    var lines := Split(content, '\n');
    var head := HeadingMark + id + ":";
    SectionDisjoint(head);
    var sectionLines := CollectRange(lines, Opens(head), Closes(head));
    r := Join(sectionLines, '\n');
  }

  /** No line both opens and closes. */
  ghost predicate Disjoint(opens: string -> bool, closes: string -> bool)
  {
    forall line :: !(opens(line) && closes(line))
  }

  lemma SectionDisjoint(head: string)
    ensures Disjoint(Opens(head), Closes(head))
  {
  }

  /** The lines of a range. */
  function RangeLines(lines: seq<string>, opens: string -> bool, closes: string -> bool): seq<string>
  {
    match Range(lines, opens, closes)
    case None => []
    case Some((s, e)) => lines[s..e]
  }

  /** The lines of the range, collected one by one behind an `in_section` flag. */
  method CollectRange(lines: seq<string>, opens: string -> bool, closes: string -> bool) returns (collected: seq<string>)
    requires Disjoint(opens, closes)
    ensures collected == RangeLines(lines, opens, closes)
  {
    collected := [];
    var inSection := false;
    ghost var s: nat := 0;
    var i := 0;
    while i < |lines|
      invariant i <= |lines|
      invariant !inSection ==> (collected == [] && First(lines, opens, 0) == First(lines, opens, i))
      invariant inSection ==> (First(lines, opens, 0) == Some(s) && s < i
        && collected == lines[s..i] && First(lines, closes, s + 1) == First(lines, closes, i))
    {
      var line := lines[i];
      if opens(line) {
        if !inSection {
          s := i;
        }
        inSection := true;
        collected := collected + [line];
      } else {
        if inSection && closes(line) {
          break;
        }
        if inSection {
          collected := collected + [line];
        }
      }
      if inSection {
        assert lines[s..i + 1] == lines[s..i] + [lines[i]];
      }
      i := i + 1;
    }
  }

  // ------------------------------------------------------------ `*Tests*:` line

  /** What `^REQ-\d+$` accepts: `$` also lets one final newline through. */
  predicate IsReqId(s: string)
  {
    var u := DropFinalNewline(s);
    StartsWith(u, ReqPrefix) && IsDigits(u[|ReqPrefix|..])
  }

  /** The items that are requirement IDs, in order. */
  function KeepReqIds(items: seq<string>): (r: seq<string>)
    ensures forall x :: x in r <==> x in items && IsReqId(x)
    ensures |r| <= |items|
  {
    if items == [] then []
    else
      var front := items[..|items| - 1];
      var last := items[|items| - 1];
      assert items == front + [last];
      KeepReqIds(front) + (if IsReqId(last) then [last] else [])
  }

  /** The stripped comma-separated items after the `*Tests*:` marker of a line. */
  function TestItems(line: string): seq<string>
  {
    var stripped := Strip(line);
    if |stripped| < |TestsMark| then []
    else
      var text := Strip(stripped[|TestsMark|..]);
      if text == [] then [] else StripAll(Split(text, ','))
  }

  predicate IsTestsLine(line: string)
  {
    StartsWith(Strip(line), TestsMark)
  }

  /** `_extract_test_requirements`: the requirement IDs of the first `*Tests*:` line only. */
  function TestRequirements(section: string): seq<string>
  {
    var lines := Split(section, '\n');
    match First(lines, IsTestsLine, 0)
    case None => []
    case Some(i) => KeepReqIds(TestItems(lines[i]))
  }

  /** The IDs read are exactly the requirement-shaped items of the first `*Tests*:` line, in order. */
  lemma TestRequirementsCharacterized(section: string, x: string)
    ensures var lines := Split(section, '\n');
      match First(lines, IsTestsLine, 0)
      case None => TestRequirements(section) == []
      case Some(i) => (x in TestRequirements(section) <==> x in TestItems(lines[i]) && IsReqId(x))
    ensures forall y :: y in TestRequirements(section) ==> IsReqId(y)
  {
  }

  /** `_extract_test_requirements`: scan for the first `*Tests*:` line and read it. */
  method ExtractTestRequirements(section: string) returns (reqIds: seq<string>)
    ensures reqIds == TestRequirements(section)
  {
    reqIds := [];
    var lines := Split(section, '\n');
    var i := 0;
    while i < |lines|
      invariant i <= |lines| && First(lines, IsTestsLine, i) == First(lines, IsTestsLine, 0)
    {
      if IsTestsLine(lines[i]) {
        reqIds := CollectReqIds(TestItems(lines[i]));
        return;
      }
      i := i + 1;
    }
  }

  /** The inner loop: the items that match `^REQ-\d+$`, in order. */
  method CollectReqIds(items: seq<string>) returns (reqIds: seq<string>)
    ensures reqIds == KeepReqIds(items)
  {
    reqIds := [];
    var k := 0;
    while k < |items|
      invariant k <= |items| && reqIds == KeepReqIds(items[..k])
    {
      assert items[..k + 1][..k] == items[..k];
      if IsReqId(items[k]) {
        reqIds := reqIds + [items[k]];
      }
      k := k + 1;
    }
    assert items[..|items|] == items;
  }
}
