/**
 * The line-level text transforms of the per-type handlers: checking off a
 * step of a TASK (or UACC/SACC), reading a TASK's section out of a TASKPRD,
 * the requirement IDs of its `*Implements*:` line and the parent PRD of its
 * `*Parent*:` line.
 */
module HandlerText {

  import opened Wrappers
  import opened Text
  import opened Sections

  // ------------------------------------------------------------ step check-off

  /** The beginning `[ ] <step> ` of an open step line. */
  function StepPrefix(step: string): string
  {
    "[ ] " + step + " "
  }

  /**
   * A line that `^(\[ \]) (<step>) (.+)$` matches: the step number taken
   * literally, then at least one more character. Lines of a split on
   * line breaks hold no line break, which `.` would refuse.
   */
  predicate IsOpenStep(line: string, step: string)
  {
    StartsWith(line, StepPrefix(step)) && |line| > |StepPrefix(step)| && '\n' !in line
  }

  function OpenStep(step: string): string -> bool
  {
    line => IsOpenStep(line, step)
  }

  /** `[x] <step> <rest>`: the same line with its box ticked. */
  function Ticked(line: string): string
    requires |line| >= 4
  {
    "[x] " + line[4..]
  }

  /** The lines after ticking the first open line of `step`; `None` when there is none. */
  function MarkStepLines(lines: seq<string>, step: string): (r: Option<seq<string>>)
  {
    match First(lines, OpenStep(step), 0)
    case None => None
    case Some(i) => Some(lines[i := Ticked(lines[i])])
  }

  /** `mark_step_done` on an artifact's text. */
  function MarkStepDone(content: string, step: string): (r: Option<string>)
  {
    match MarkStepLines(Split(content, '\n'), step)
    case None => None
    case Some(lines) => Some(Join(lines, '\n'))
  }

  /** The scan of `mark_step_done`: tick the first matching line, then stop. */
  method MarkStep(content: string, step: string) returns (r: Option<string>)
    ensures r == MarkStepDone(content, step)
  {
    var lines := Split(content, '\n');
    ghost var original := lines;
    var updated := false;
    var i := 0;
    while i < |lines|
      invariant i <= |lines| && lines == original && !updated
      invariant First(lines, OpenStep(step), i) == First(lines, OpenStep(step), 0)
    {
      if IsOpenStep(lines[i], step) {
        lines := lines[i := Ticked(lines[i])];
        updated := true;
        break;
      }
      i := i + 1;
    }
    if !updated {
      return None;
    }
    return Some(Join(lines, '\n'));
  }

  /** How many lines satisfy `p`. */
  function CountWhere(lines: seq<string>, p: string -> bool): nat
  {
    if lines == [] then 0 else (if p(lines[0]) then 1 else 0) + CountWhere(lines[1..], p)
  }

  lemma {:induction false} CountWhereZero(lines: seq<string>, p: string -> bool)
    ensures CountWhere(lines, p) == 0 <==> NoneIn(lines, p, 0, |lines|)
    decreases |lines|
  {
    if lines != [] {
      CountWhereZero(lines[1..], p);
      assert forall k :: 1 <= k < |lines| ==> lines[k] == lines[1..][k - 1];
    }
  }

  /** Replacing a line that satisfies `p` by one that does not lowers the count by one. */
  lemma {:induction false} CountWhereReplace(lines: seq<string>, i: nat, x: string, p: string -> bool)
    requires i < |lines| && p(lines[i]) && !p(x)
    ensures CountWhere(lines[i := x], p) == CountWhere(lines, p) - 1
    decreases i
  {
    if i == 0 {
      assert lines[i := x][1..] == lines[1..];
    } else {
      assert lines[i := x][1..] == lines[1..][i - 1 := x];
      CountWhereReplace(lines[1..], i - 1, x, p);
    }
  }

  /**
   * The check-off fails exactly when no line is an open line of the step;
   * otherwise only the first such line changes, into its ticked form, and
   * the number of open lines of the step drops by one.
   */
  lemma MarkStepLinesCorrect(lines: seq<string>, step: string)
    ensures MarkStepLines(lines, step).None? <==> forall k :: 0 <= k < |lines| ==> !IsOpenStep(lines[k], step)
    ensures MarkStepLines(lines, step).Some? ==>
      var r := MarkStepLines(lines, step).value;
      |r| == |lines|
      && (exists i :: 0 <= i < |lines| && IsOpenStep(lines[i], step)
            && (forall k :: 0 <= k < i ==> !IsOpenStep(lines[k], step))
            && r[i] == "[x] " + lines[i][4..]
            && forall k :: 0 <= k < |lines| && k != i ==> r[k] == lines[k])
      && CountWhere(r, OpenStep(step)) == CountWhere(lines, OpenStep(step)) - 1
  {
    var f := First(lines, OpenStep(step), 0);
    if f.Some? {
      var i := f.value;
      var t := Ticked(lines[i]);
      assert t[1] == 'x' && StepPrefix(step)[1] == ' ';
      assert !IsOpenStep(t, step);
      CountWhereReplace(lines, i, t, OpenStep(step));
    }
  }

  /** A ticked line of a split holds no line break, so the text splits back into the ticked lines. */
  lemma MarkStepDoneLines(content: string, step: string)
    ensures MarkStepDone(content, step).Some? ==>
      Split(MarkStepDone(content, step).value, '\n') == MarkStepLines(Split(content, '\n'), step).value
  {
    var lines := Split(content, '\n');
    var f := First(lines, OpenStep(step), 0);
    if f.Some? {
      var i := f.value;
      var r := lines[i := Ticked(lines[i])];
      assert '\n' !in lines[i][4..];
      assert forall k :: 0 <= k < |r| ==> '\n' !in r[k];
      SplitJoin(r, '\n');
    }
  }

  /** With one open line of the step, ticking it succeeds and a second check-off of the same step fails. */
  lemma MarkStepTwice(content: string, step: string)
    requires CountWhere(Split(content, '\n'), OpenStep(step)) == 1
    ensures MarkStepDone(content, step).Some?
    ensures MarkStepDone(MarkStepDone(content, step).value, step).None?
  {
    var lines := Split(content, '\n');
    CountWhereZero(lines, OpenStep(step));
    MarkStepLinesCorrect(lines, step);
    MarkStepDoneLines(content, step);
    var r := MarkStepLines(lines, step).value;
    CountWhereZero(r, OpenStep(step));
    MarkStepLinesCorrect(r, step);
  }

  // ------------------------------------------------------------ the section of one TASK

  /** `### <task>:` after stripping, which opens the TASK's section. */
  predicate IsTaskHeading(line: string, task: string)
  {
    StartsWith(Strip(line), "### " + task + ":")
  }

  function OpensTask(task: string): string -> bool
  {
    line => IsTaskHeading(line, task)
  }

  /** Any other `### TASK-` heading, which closes it. */
  predicate IsOtherTask(line: string, task: string)
  {
    StartsWith(Strip(line), "### TASK-") && !IsTaskHeading(line, task)
  }

  function ClosesTask(task: string): string -> bool
  {
    line => IsOtherTask(line, task)
  }

  lemma TaskDisjoint(task: string)
    ensures Disjoint(OpensTask(task), ClosesTask(task))
  {
  }

  /** The lines of the TASK's section. */
  function TaskLines(lines: seq<string>, task: string): seq<string>
  {
    RangeLines(lines, OpensTask(task), ClosesTask(task))
  }

  /** `_extract_task_section`: the section's lines joined back, or the empty string. */
  function TaskSection(content: string, task: string): string
  {
    Join(TaskLines(Split(content, '\n'), task), '\n')
  }

  method ExtractTaskSection(content: string, task: string) returns (r: string)
    ensures r == TaskSection(content, task)
  {
    var lines := Split(content, '\n');
    TaskDisjoint(task);
    var collected := CollectRange(lines, OpensTask(task), ClosesTask(task));
    r := Join(collected, '\n');
  }

  /**
   * The section is empty exactly when no line opens it; otherwise it runs
   * from the first `### <task>:` line up to the next other `### TASK-` line
   * (not included), or to the end.
   */
  lemma TaskLinesAre(lines: seq<string>, task: string, s: nat, e: nat)
    requires s < e <= |lines|
    ensures Join(TaskLines(lines, task), '\n') == [] <==> forall k :: 0 <= k < |lines| ==> !IsTaskHeading(lines[k], task)
    ensures IsTaskHeading(lines[s], task) && (forall k :: 0 <= k < s ==> !IsTaskHeading(lines[k], task))
        && (e < |lines| ==> IsOtherTask(lines[e], task)) && (forall k :: s < k < e ==> !IsOtherTask(lines[k], task))
      ==> TaskLines(lines, task) == lines[s..e]
  {
    RangeIs(lines, OpensTask(task), ClosesTask(task), s, e);
    NoRangeIff(lines, OpensTask(task), ClosesTask(task));
    var rg := Range(lines, OpensTask(task), ClosesTask(task));
    if rg.Some? {
      var part := lines[rg.value.0..rg.value.1];
      assert part[0] == lines[rg.value.0];
      JoinEnds(part, '\n');
      assert Strip(part[0]) != [];
    }
  }

  // ------------------------------------------------------------ `*Implements*:`

  const ImplementsMark := "*Implements*:"
  const ParentMark := "*Parent*:"

  /** The end of the run of ASCII digits that starts at `i`. */
  function DigitRunEnd(s: string, i: nat): (r: nat)
    requires i <= |s|
    ensures i <= r <= |s| && (forall k :: i <= k < r ==> IsDigit(s[k])) && (r < |s| ==> !IsDigit(s[r]))
    decreases |s| - i
  {
    if i < |s| && IsDigit(s[i]) then DigitRunEnd(s, i + 1) else i
  }

  /**
   * `\bREQ-(\d+)\b` tried at `p`: the end of the match. The digit run is
   * taken whole: a shorter run is followed by a digit, where `\b` fails.
   */
  function ReqMatchEnd(s: string, p: nat): (r: Option<nat>)
    requires p <= |s|
    ensures r.Some? ==> p + 4 < r.value <= |s|
  {
    if WordBoundary(s, p) && StartsWith(s[p..], ReqPrefix) then
      var q := DigitRunEnd(s, p + 4);
      if q > p + 4 && WordBoundary(s, q) then Some(q) else None
    else None
  }

  /** `re.findall(r'\bREQ-(\d+)\b', s[p:])` scanning from `p`: the digit groups, left to right, without overlap. */
  function ReqGroups(s: string, p: nat): (r: seq<string>)
    requires p <= |s|
    decreases |s| - p
  {
    if p == |s| then []
    else match ReqMatchEnd(s, p)
      case Some(q) => [s[p + 4..q]] + ReqGroups(s, q)
      case None => ReqGroups(s, p + 1)
  }

  /** `REQ-` and a non-empty run of digits: the shape of every ID read. */
  predicate IsReqToken(x: string)
  {
    StartsWith(x, ReqPrefix) && |x| > |ReqPrefix| && IsDigits(x[|ReqPrefix|..])
  }

  /** The whole-word occurrences of requirement IDs in `s` that start at or after `p`. */
  predicate ReqAt(s: string, p: nat, x: string)
  {
    p < |s| && ReqMatchEnd(s, p).Some? && x == s[p..ReqMatchEnd(s, p).value]
  }

  /** A match covers `REQ-` and digits only, so no other match starts inside it. */
  lemma NoMatchInside(s: string, p: nat, k: nat)
    requires p < k <= |s| && ReqMatchEnd(s, p).Some? && k < ReqMatchEnd(s, p).value
    ensures ReqMatchEnd(s, k).None?
  {
    var q := ReqMatchEnd(s, p).value;
    if k < p + 4 {
      assert s[p..][k - p] == s[k] && ReqPrefix[k - p] != 'R';
    } else {
      assert s[p + 4..q][k - p - 4] == s[k];
    }
  }

  /** The group read at a match is its digit part: the match is `REQ-` and the group. */
  lemma MatchIsGroup(s: string, p: nat)
    requires p < |s| && ReqMatchEnd(s, p).Some?
    ensures s[p..ReqMatchEnd(s, p).value] == ReqPrefix + s[p + 4..ReqMatchEnd(s, p).value]
  {
    var q := ReqMatchEnd(s, p).value;
    assert s[p..q] == s[p..][..4] + s[p + 4..q];
  }

  /** Only the group of the match at `p` is read there. */
  lemma SameGroup(g: string, x: string)
    requires ReqPrefix + x == ReqPrefix + g
    ensures x == g
  {
    assert x == (ReqPrefix + x)[4..] && g == (ReqPrefix + g)[4..];
  }

  /**
   * Each group read from `p` on is the digit part of a whole-word match at
   * or after `p`, and every such match whose start no earlier match covers
   * is read.
   */
  lemma {:induction false} ReqGroupsAre(s: string, p: nat, x: string)
    requires p <= |s|
    ensures x in ReqGroups(s, p) <==> exists k :: p <= k && ReqAt(s, k, ReqPrefix + x)
    decreases |s| - p
  {
    if p == |s| {
      assert ReqGroups(s, p) == [];
    } else if ReqMatchEnd(s, p).None? {
      ReqGroupsAre(s, p + 1, x);
      assert !ReqAt(s, p, ReqPrefix + x);
    } else {
      var q := ReqMatchEnd(s, p).value;
      ReqGroupsAre(s, q, x);
      var g := s[p + 4..q];
      MatchIsGroup(s, p);
      assert ReqGroups(s, p) == [g] + ReqGroups(s, q);
      if exists k :: p <= k && ReqAt(s, k, ReqPrefix + x) {
        var k :| p <= k && ReqAt(s, k, ReqPrefix + x);
        if k == p {
          SameGroup(g, x);
        } else if k < q {
          NoMatchInside(s, p, k);
        }
      }
      if x == g {
        assert ReqAt(s, p, ReqPrefix + x);
      }
    }
  }

  /** The ID read for a group. */
  function ReqIds(groups: seq<string>): (r: seq<string>)
    ensures |r| == |groups| && forall k :: 0 <= k < |groups| ==> r[k] == ReqPrefix + groups[k]
  {
    seq(|groups|, k requires 0 <= k < |groups| => ReqPrefix + groups[k])
  }

  predicate IsImplementsLine(line: string)
  {
    StartsWith(Strip(line), ImplementsMark)
  }

  /** The stripped text after `*Implements*:` on an `*Implements*:` line. */
  function ImplementsText(line: string): string
    requires IsImplementsLine(line)
  {
    Strip(Strip(line)[|ImplementsMark|..])
  }

  /** The text of the first `*Implements*:` line, if there is one. */
  function ImplementsTextOf(content: string): (r: Option<string>)
    ensures var lines := Split(content, '\n');
      match First(lines, IsImplementsLine, 0)
      case None => r.None?
      case Some(i) => r == Some(ImplementsText(lines[i]))
  {
    var lines := Split(content, '\n');
    match First(lines, IsImplementsLine, 0)
    case None => None
    case Some(i) => Some(ImplementsText(lines[i]))
  }

  /** `_extract_req_implementations`: the IDs of the first `*Implements*:` line only. */
  function ReqImplementations(content: string): seq<string>
  {
    match ImplementsTextOf(content)
    case None => []
    case Some(t) => ReqIds(ReqGroups(t, 0))
  }

  /** An ID is read from a text exactly when it occurs there as a whole-word `REQ-<digits>`. */
  lemma ReqIdsAre(t: string, x: string)
    ensures x in ReqIds(ReqGroups(t, 0)) <==> exists k :: ReqAt(t, k, x)
    ensures x in ReqIds(ReqGroups(t, 0)) ==> IsReqToken(x)
  {
    var groups := ReqGroups(t, 0);
    if x in ReqIds(groups) {
      var j :| 0 <= j < |groups| && x == ReqPrefix + groups[j];
      ReqGroupsAre(t, 0, groups[j]);
      var k :| 0 <= k && ReqAt(t, k, ReqPrefix + groups[j]);
      ReqAtIsToken(t, k, x);
    }
    if exists k :: ReqAt(t, k, x) {
      var k :| ReqAt(t, k, x);
      ReqAtIsToken(t, k, x);
      var g := x[4..];
      ReqGroupsAre(t, 0, g);
      var j :| 0 <= j < |groups| && groups[j] == g;
      assert ReqIds(groups)[j] == x;
    }
  }

  /**
   * Without an `*Implements*:` line nothing is read; otherwise an ID is read
   * exactly when it occurs as a whole-word `REQ-<digits>` in the text of the
   * first such line, and every ID read has that shape.
   */
  lemma ReqImplementationsAre(content: string, x: string)
    ensures ImplementsTextOf(content).None? ==> ReqImplementations(content) == []
    ensures ImplementsTextOf(content).Some? ==>
      (x in ReqImplementations(content) <==> exists k :: ReqAt(ImplementsTextOf(content).value, k, x))
    ensures x in ReqImplementations(content) ==> IsReqToken(x)
  {
    if ImplementsTextOf(content).Some? {
      ReqIdsAre(ImplementsTextOf(content).value, x);
    }
  }

  lemma ReqAtIsToken(s: string, p: nat, x: string)
    requires ReqAt(s, p, x)
    ensures IsReqToken(x) && x == ReqPrefix + x[4..]
  {
    var q := ReqMatchEnd(s, p).value;
    assert x[..4] == s[p..][..4];
    assert x[4..] == s[p + 4..q];
  }

  /** The scan of `_extract_req_implementations`, with the loop that prefixes each group. */
  method ExtractReqImplementations(content: string) returns (reqIds: seq<string>)
    ensures reqIds == ReqImplementations(content)
  {
    reqIds := [];
    var lines := Split(content, '\n');
    var i := 0;
    while i < |lines|
      invariant i <= |lines| && First(lines, IsImplementsLine, i) == First(lines, IsImplementsLine, 0)
    {
      if IsImplementsLine(lines[i]) {
        reqIds := PrefixGroups(ReqGroups(ImplementsText(lines[i]), 0));
        return;
      }
      i := i + 1;
    }
  }

  /** The loop of `_extract_req_implementations` that turns each group into `REQ-<group>`. */
  method PrefixGroups(matches: seq<string>) returns (reqIds: seq<string>)
    ensures reqIds == ReqIds(matches)
  {
    reqIds := [];
    var k := 0;
    while k < |matches|
      invariant k <= |matches| && |reqIds| == k
      invariant forall j :: 0 <= j < k ==> reqIds[j] == ReqPrefix + matches[j]
    {
      reqIds := reqIds + [ReqPrefix + matches[k]];
      k := k + 1;
    }
  }

  // ------------------------------------------------------------ `*Parent*:`

  predicate IsParentLine(line: string)
  {
    StartsWith(Strip(line), ParentMark)
  }

  /** The parent ID on a `*Parent*:` line: the stripped text before its first colon, if any text. */
  function ParentOn(line: string): (r: Option<string>)
    requires IsParentLine(line)
  {
    var text := AfterParentMark(line);
    if text == [] then None
    else
      var id := BeforeColon(text);
      if id == [] then None else Some(id)
  }

  /** The stripped text after `*Parent*:`. */
  function AfterParentMark(line: string): string
    requires IsParentLine(line)
  {
    Strip(Strip(line)[|ParentMark|..])
  }

  /** The stripped text before the first colon. */
  function BeforeColon(text: string): string
  {
    Strip(Split(text, ':')[0])
  }

  /** The parent PRD that `finalize` of a TASKPRD reads from the first `*Parent*:` line. */
  function ParentPrd(content: string): (r: Option<string>)
  {
    var lines := Split(content, '\n');
    match First(lines, IsParentLine, 0)
    case None => None
    case Some(i) => ParentOn(lines[i])
  }

  method FindParentPrd(content: string) returns (r: Option<string>)
    ensures r == ParentPrd(content)
  {
    var lines := Split(content, '\n');
    r := None;
    var i := 0;
    while i < |lines|
      invariant i <= |lines| && First(lines, IsParentLine, i) == First(lines, IsParentLine, 0)
    {
      if IsParentLine(lines[i]) {
        r := ParentOn(lines[i]);
        break;
      }
      i := i + 1;
    }
  }

  /** A parent found is non-empty, stripped and free of colons. */
  lemma ParentPrdClean(content: string)
    ensures ParentPrd(content).Some? ==>
      var id := ParentPrd(content).value;
      id != [] && Trimmed(id) && ':' !in id
  {
    var lines := Split(content, '\n');
    var f := First(lines, IsParentLine, 0);
    if f.Some? && ParentPrd(content).Some? {
      var text := Strip(Strip(lines[f.value])[|ParentMark|..]);
      StripIsTrimmed(Split(text, ':')[0]);
      StripKeepsOut(Split(text, ':')[0], ':');
    }
  }

  /** A line `*Parent*: <id>: <title>` gives `<id>` back for a clean, colon-free ID and a trimmed title. */
  lemma ParentOnReads(id: string, title: string)
    requires id != [] && Trimmed(id) && ':' !in id
    requires title != [] && Trimmed(title)
    ensures IsParentLine(ParentMark + " " + id + ": " + title)
    ensures ParentOn(ParentMark + " " + id + ": " + title) == Some(id)
  {
    var body := id + ": " + title;
    var line := ParentMark + " " + id + ": " + title;
    assert IsParentLine(line) && AfterParentMark(line) == body by {
      Regroup(ParentMark + " ", id, ": ", title);
      ParentBody(id, title, body);
      ParentLineTrimmed(body, line);
      AfterMark(line, body);
    }
    assert BeforeColon(body) == id by {
      BodyColon(id, title, body);
      TrimmedStrip(id);
    }
    ParentOnOf(line, body, id);
  }

  lemma Regroup(a: string, b: string, c: string, d: string)
    ensures a + b + c + d == a + (b + c + d)
  {
  }

  /** The text after the mark: `strip()` leaves it and the colon ends the ID. */
  lemma ParentBody(id: string, title: string, body: string)
    requires id != [] && Trimmed(id) && ':' !in id
    requires title != [] && Trimmed(title)
    requires body == id + ": " + title
    ensures Trimmed(body) && Strip(" " + body) == body && Split(body, ':')[0] == id
  {
    BodyTrimmed(id, title, body);
    BodyColon(id, title, body);
  }

  lemma BodyTrimmed(id: string, title: string, body: string)
    requires id != [] && Trimmed(id) && title != [] && Trimmed(title)
    requires body == id + ": " + title
    ensures Trimmed(body) && Strip(" " + body) == body
  {
    assert body[0] == id[0] && body[|body| - 1] == title[|title| - 1];
    StripAround(" ", body, "");
    NoTail(" " + body);
  }

  lemma NoTail<T>(s: seq<T>)
    ensures s + [] == s
  {
  }

  lemma BodyColon(id: string, title: string, body: string)
    requires ':' !in id && body == id + ": " + title
    ensures Split(body, ':')[0] == id
  {
    assert body[..|id|] == id && body[|id|] == ':';
    SplitFirstColon(body, id);
  }

  lemma ParentLineTrimmed(body: string, line: string)
    requires Trimmed(body) && body != [] && line == ParentMark + " " + body
    ensures Strip(line) == line
  {
    assert line[|line| - 1] == body[|body| - 1];
    TrimmedStrip(line);
  }

  /** `ParentOn` from its parts: the stripped line, the text after the mark, and its first colon part. */
  lemma ParentOnOf(line: string, body: string, id: string)
    requires IsParentLine(line) && AfterParentMark(line) == body && BeforeColon(body) == id && id != []
    ensures ParentOn(line) == Some(id)
  {
  }

  lemma AfterMark(line: string, body: string)
    requires line == ParentMark + " " + body && Strip(line) == line && Strip(" " + body) == body
    ensures IsParentLine(line) && AfterParentMark(line) == body
  {
    AfterPrefix(ParentMark, " ", body);
  }

  lemma AfterPrefix<T>(a: seq<T>, b: seq<T>, c: seq<T>)
    ensures |a| <= |a + b + c| && (a + b + c)[..|a|] == a && (a + b + c)[|a|..] == b + c
  {
  }

  /** Splitting `id + ":" + rest` on ':' gives `id` first when `id` holds no colon. */
  lemma SplitFirstColon(s: string, id: string)
    requires |s| > |id| && s[..|id|] == id && s[|id|] == ':' && ':' !in id
    ensures Split(s, ':')[0] == id
  {
    var rest := s[|id| + 1..];
    assert s == id + [':'] + rest;
    SplitConcat(id, ':', rest);
    SplitNoSeparator(id, ':');
  }
}
