/**
 * `_scan_content_references`: which artifacts mention a target artifact.
 * Each markdown file is cut into the sections that `### TYPE-n` headings
 * open; a line that mentions the target as a whole word (ignoring case) is
 * credited to the section it lies in, or else to the file's own artifact.
 */
module References {

  import opened Wrappers
  import opened Text
  import opened TypeRegistry
  import HeaderCodec
  import IndexLedger
  import Naming

  // ------------------------------------------------ `^\s*###\s+([A-Z]+-\d+)\b`

  /** The number of ASCII capitals `s` starts with. */
  function UpperRun(s: string): (r: nat)
    ensures r <= |s| && (forall k :: 0 <= k < r ==> IsUpperLetter(s[k])) && (r == |s| || !IsUpperLetter(s[r]))
  {
    if s != [] && IsUpperLetter(s[0]) then 1 + UpperRun(s[1..]) else 0
  }

  /**
   * The section ID a line opens: the line matches `\s*###\s+([A-Z]+-\d+)\b`
   * at its start, and the ID is the captured group.
   */
  function HeadingId(line: string): (r: Option<string>)
  {
    AfterIndent(line[Naming.SpaceRun(line)..])
  }

  predicate StartsWithHashes(s: string)
  {
    |s| >= 3 && s[0] == '#' && s[1] == '#' && s[2] == '#'
  }

  /** `###\s+…` at the start of `s`. */
  function AfterIndent(s: string): (r: Option<string>)
  {
    if StartsWithHashes(s) then AfterHashes(s[3..]) else None
  }

  /** `\s+[A-Z]+-\d+\b` at the start of `s`. */
  function AfterHashes(s: string): (r: Option<string>)
  {
    var k := Naming.SpaceRun(s);
    if k == 0 then None else TypedId(s[k..])
  }

  /** `[A-Z]+-\d+\b` at the start of `s`: the ID it spells. */
  function TypedId(s: string): (r: Option<string>)
    ensures r.Some? ==> UpperRun(s) < |s| && IdNumber(s[UpperRun(s) + 1..]).Some? && r.value == s[..UpperRun(s)] + "-" + IdNumber(s[UpperRun(s) + 1..]).value
  {
    var u := UpperRun(s);
    if u == 0 || u >= |s| || s[u] != '-' then None
    else
      match IdNumber(s[u + 1..])
      case None => None
      case Some(n) => Some(s[..u] + "-" + n)
  }

  /** `\d+\b` at the start of `s`: the digits, when a word boundary follows them. */
  function IdNumber(s: string): (r: Option<string>)
    ensures r.Some? ==> IsDigits(r.value) && r.value <= s
    ensures r.Some? ==> |r.value| == |s| || !IsWordChar(s[|r.value|])
  {
    var d := DigitRun(s);
    if d == [] || (|d| < |s| && IsWordChar(s[|d|])) then None else Some(d)
  }

  /** Every section ID read has the form `TYPE-digits`. */
  lemma HeadingIdForm(line: string)
    requires HeadingId(line).Some?
    ensures exists t: string, n: string :: IsUpperWord(t) && IsDigits(n) && HeadingId(line).value == t + "-" + n
  {
    var s := line[Naming.SpaceRun(line)..][3..];
    var typed := s[Naming.SpaceRun(s)..];
    var u := UpperRun(typed);
    assert HeadingId(line) == TypedId(typed);
    assert IsUpperWord(typed[..u]);
  }

  /** A heading written as `<ws>###<ws2>TYPE-n` followed by a non-word character gives `TYPE-n`. */
  lemma HeadingIdOf(ws: string, ws2: string, t: string, n: string, rest: string)
    requires AllSpace(ws) && AllSpace(ws2) && ws2 != [] && IsUpperWord(t) && IsDigits(n)
    requires rest == [] || !IsWordChar(rest[0])
    ensures HeadingId(ws + "###" + ws2 + t + "-" + n + rest) == Some(t + "-" + n)
  {
    var typed := t + "-" + n + rest;
    assert TypedId(typed) == Some(t + "-" + n) by { TypedIdOf(t, n, rest); }
    HeadingIdThrough(ws + "###" + ws2 + t + "-" + n + rest, ws, ws2, typed);
  }

  lemma HeadingIdThrough(line: string, ws: string, ws2: string, typed: string)
    requires line == ws + "###" + ws2 + typed
    requires AllSpace(ws) && AllSpace(ws2) && ws2 != [] && typed != [] && IsUpperLetter(typed[0])
    ensures HeadingId(line) == TypedId(typed)
  {
    var afterIndent := "###" + (ws2 + typed);
    assert line == ws + afterIndent;
    AfterHashesOf(ws2, typed);
    HeadingIdAfter(ws, afterIndent);
    assert afterIndent[3..] == ws2 + typed;
  }

  /** Leading whitespace is skipped before `###`. */
  lemma HeadingIdAfter(ws: string, s: string)
    requires AllSpace(ws) && StartsWithHashes(s)
    ensures HeadingId(ws + s) == AfterHashes(s[3..])
  {
    Naming.SpaceRunOf(ws, s);
    assert (ws + s)[|ws|..] == s;
  }

  /** At least one whitespace character is skipped after `###`. */
  lemma AfterHashesOf(ws2: string, s: string)
    requires AllSpace(ws2) && ws2 != [] && s != [] && IsUpperLetter(s[0])
    ensures AfterHashes(ws2 + s) == TypedId(s)
  {
    Naming.SpaceRunOf(ws2, s);
    assert (ws2 + s)[|ws2|..] == s;
  }

  /** `TYPE-n` followed by a non-word character is read as `TYPE-n`. */
  lemma TypedIdOf(t: string, n: string, rest: string)
    requires IsUpperWord(t) && IsDigits(n) && (rest == [] || !IsWordChar(rest[0]))
    ensures TypedId(t + "-" + n + rest) == Some(t + "-" + n)
  {
    var s := t + "-" + n + rest;
    assert s == t + ("-" + n + rest);
    UpperRunOf(t, "-" + n + rest);
    assert s[|t|] == '-';
    assert s[..|t|] == t;
    assert s[|t| + 1..] == n + rest;
    IdNumberOf(n, rest);
  }

  /** Digits followed by a non-word character are read as those digits. */
  lemma IdNumberOf(n: string, rest: string)
    requires IsDigits(n) && (rest == [] || !IsWordChar(rest[0]))
    ensures IdNumber(n + rest) == Some(n)
  {
    DigitRunOf(n, rest);
    if rest != [] {
      assert (n + rest)[|n|] == rest[0];
    }
  }

  lemma {:induction false} UpperRunOf(t: string, rest: string)
    requires forall k :: 0 <= k < |t| ==> IsUpperLetter(t[k])
    requires rest == [] || !IsUpperLetter(rest[0])
    ensures UpperRun(t + rest) == |t|
    decreases |t|
  {
    if t != [] {
      assert (t + rest)[1..] == t[1..] + rest;
      UpperRunOf(t[1..], rest);
    }
  }

  lemma {:induction false} DigitRunOf(n: string, rest: string)
    requires forall k :: 0 <= k < |n| ==> IsDigit(n[k])
    requires rest == [] || !IsDigit(rest[0])
    ensures DigitRun(n + rest) == n
    decreases |n|
  {
    if n != [] {
      assert (n + rest)[1..] == n[1..] + rest;
      DigitRunOf(n[1..], rest);
      assert n == [n[0]] + n[1..];
    }
  }

  // ------------------------------------------------ sections of a file

  /** The section ID each line opens, if any. */
  function Heads(lines: seq<string>): (r: seq<Option<string>>)
    ensures |r| == |lines| && forall i :: 0 <= i < |lines| ==> r[i] == HeadingOf()(lines[i])
  {
    seq(|lines|, i requires 0 <= i < |lines| => HeadingOf()(lines[i]))
  }

  function HeadingOf(): string -> Option<string>
  {
    line => HeadingId(line)
  }

  /** A nested section: its ID and its first and last line (numbered from 1). */
  datatype Span = Span(id: string, start: nat, end: nat)

  /**
   * The sections the loop of `_scan_content_references` records, from line
   * index `i` on, with `cur` the section still open (its ID and first line):
   * a heading closes the open section on the line before it.
   */
  function SpansFrom(heads: seq<Option<string>>, i: nat, cur: Option<(string, nat)>): seq<Span>
    requires i <= |heads|
    decreases |heads| - i
  {
    var closed := if cur.Some? then [Span(cur.value.0, cur.value.1, i)] else [];
    if i == |heads| then closed
    else match heads[i]
      case Some(id) => closed + SpansFrom(heads, i + 1, Some((id, i + 1)))
      case None => SpansFrom(heads, i + 1, cur)
  }

  function SpansOf(lines: seq<string>): seq<Span>
  {
    SpansFrom(Heads(lines), 0, None)
  }

  /**
   * The section loop of `_scan_content_references`, over the ID each line
   * opens (`heads == Heads(lines)`): it returns `SpansOf(lines)`.
   */
  method CollectSpans(heads: seq<Option<string>>) returns (spans: seq<Span>)
    ensures spans == SpansFrom(heads, 0, None)
  {
    ghost var all := SpansFrom(heads, 0, None);
    spans := [];
    var cur: Option<(string, nat)> := None;
    var i := 0;
    while i < |heads|
      invariant i <= |heads|
      invariant spans + SpansFrom(heads, i, cur) == all
    {
      ghost var before := SpansFrom(heads, i, cur);
      if heads[i].Some? {
        var next := Some((heads[i].value, i + 1));
        if cur.Some? {
          var sp := Span(cur.value.0, cur.value.1, i);
          assert before == [sp] + SpansFrom(heads, i + 1, next) by {
            SpansStep(heads, i, cur);
          }
          assert spans + before == (spans + [sp]) + SpansFrom(heads, i + 1, next);
          spans := spans + [sp];
        } else {
          assert before == SpansFrom(heads, i + 1, next) by {
            SpansStep(heads, i, cur);
          }
        }
        cur := next;
      } else {
        assert before == SpansFrom(heads, i + 1, cur) by {
          SpansStep(heads, i, cur);
        }
      }
      i := i + 1;
    }
    if cur.Some? {
      spans := spans + [Span(cur.value.0, cur.value.1, |heads|)];
    }
  }

  /** One step of the loop: what line `i` adds to the sections before the rest. */
  lemma SpansStep(heads: seq<Option<string>>, i: nat, cur: Option<(string, nat)>)
    requires i < |heads|
    ensures heads[i].Some? && cur.Some? ==>
      SpansFrom(heads, i, cur) == [Span(cur.value.0, cur.value.1, i)] + SpansFrom(heads, i + 1, Some((heads[i].value, i + 1)))
    ensures heads[i].Some? && cur.None? ==> SpansFrom(heads, i, cur) == SpansFrom(heads, i + 1, Some((heads[i].value, i + 1)))
    ensures heads[i].None? ==> SpansFrom(heads, i, cur) == SpansFrom(heads, i + 1, cur)
  {
  }

  /** `find_container`: the first section holding line `n`, else the file's artifact. */
  function FindContainer(spans: seq<Span>, n: nat, fileId: Option<string>): Option<string>
  {
    if spans == [] then fileId
    else if spans[0].start <= n <= spans[0].end then Some(spans[0].id)
    else FindContainer(spans[1..], n, fileId)
  }

  /** The last heading among the line indices `[i, j)`. */
  function LastHeading(heads: seq<Option<string>>, i: nat, j: nat): (r: Option<nat>)
    requires j <= |heads|
    ensures r.Some? ==> i <= r.value < j && heads[r.value].Some?
    ensures r.Some? ==> forall k :: r.value < k < j ==> heads[k].None?
    ensures r.None? ==> forall k :: i <= k < j ==> heads[k].None?
    decreases j
  {
    if j <= i then None
    else if heads[j - 1].Some? then Some(j - 1)
    else LastHeading(heads, i, j - 1)
  }

  /** The open section comes first and reaches line `i`; the others start after it. */
  predicate OpenFirst(spans: seq<Span>, cur: (string, nat), i: nat)
  {
    spans != [] && spans[0].id == cur.0 && spans[0].start == cur.1 && spans[0].end >= i
    && forall k :: 1 <= k < |spans| ==> spans[k].start > i
  }

  predicate StartAfter(spans: seq<Span>, i: nat)
  {
    forall k :: 0 <= k < |spans| ==> spans[k].start > i
  }

  /** The sections found from `i` on start after `i`, except the open one, which reaches `i`. */
  lemma {:induction false} SpansShape(heads: seq<Option<string>>, i: nat, cur: Option<(string, nat)>)
    requires i <= |heads|
    ensures cur.None? ==> StartAfter(SpansFrom(heads, i, cur), i)
    ensures cur.Some? ==> OpenFirst(SpansFrom(heads, i, cur), cur.value, i)
    decreases |heads| - i
  {
    if i < |heads| {
      match heads[i]
      case Some(id) =>
        SpansShape(heads, i + 1, Some((id, i + 1)));
      case None =>
        SpansShape(heads, i + 1, cur);
    }
  }

  /** No section starting after line `n` holds it. */
  lemma {:induction false} FindContainerLater(spans: seq<Span>, n: nat, fileId: Option<string>)
    requires StartAfter(spans, n)
    ensures FindContainer(spans, n, fileId) == fileId
    decreases |spans|
  {
    if spans != [] {
      FindContainerLater(spans[1..], n, fileId);
    }
  }

  /** Moving the lower end of the window up past a line. */
  lemma {:induction false} LastHeadingStep(heads: seq<Option<string>>, i: nat, j: nat)
    requires i < j <= |heads|
    ensures LastHeading(heads, i, j) ==
      (if LastHeading(heads, i + 1, j).Some? then LastHeading(heads, i + 1, j)
       else if heads[i].Some? then Some(i) else None)
    decreases j
  {
    if j > i + 1 && heads[j - 1].None? {
      LastHeadingStep(heads, i, j - 1);
    }
  }

  lemma {:induction false} SpansFind(heads: seq<Option<string>>, i: nat, cur: Option<(string, nat)>, n: nat, fileId: Option<string>)
    requires i <= n <= |heads|
    requires cur.Some? ==> cur.value.1 <= i
    ensures FindContainer(SpansFrom(heads, i, cur), n, fileId) ==
      match LastHeading(heads, i, n)
      case Some(j) => heads[j]
      case None => if cur.Some? then Some(cur.value.0) else fileId
    decreases |heads| - i
  {
    var spans := SpansFrom(heads, i, cur);
    if i == n {
      SpansShape(heads, i, cur);
      if cur.None? {
        FindContainerLater(spans, n, fileId);
      } else {
        assert spans[0].start <= n <= spans[0].end;
      }
    } else {
      LastHeadingStep(heads, i, n);
      match heads[i]
      case Some(id) =>
        var rest := SpansFrom(heads, i + 1, Some((id, i + 1)));
        SpansStep(heads, i, cur);
        SpansFind(heads, i + 1, Some((id, i + 1)), n, fileId);
        if cur.Some? {
          assert spans[1..] == rest;
          assert !(spans[0].start <= n <= spans[0].end);
        }
        assert FindContainer(spans, n, fileId) == FindContainer(rest, n, fileId);
      case None =>
        SpansFind(heads, i + 1, cur, n, fileId);
    }
  }

  /** Line `n` belongs to the last `###` heading at or above it, else to the file's artifact. */
  lemma ContainerIsLastHeading(lines: seq<string>, n: nat, fileId: Option<string>)
    requires 1 <= n <= |lines|
    ensures FindContainer(SpansOf(lines), n, fileId) ==
      match LastHeading(Heads(lines), 0, n)
      case Some(j) => HeadingId(lines[j])
      case None => fileId
  {
    SpansFind(Heads(lines), 0, None, n, fileId);
  }

  // ------------------------------------------------ mentions

  /**
   * `re.search(r"\b" + re.escape(target) + r"\b", line, re.IGNORECASE)`
   * finds a match starting at `p` or later.
   */
  function MentionFrom(line: string, target: string, p: nat): bool
    requires p <= |line|
    decreases |line| - p
  {
    WholeWordAt(line, target, p, true) || (p < |line| && MentionFrom(line, target, p + 1))
  }

  predicate Mentions(line: string, target: string)
  {
    MentionFrom(line, target, 0)
  }

  /** The scan finds a match exactly when the target stands as a whole word somewhere from `p` on. */
  lemma {:induction false} MentionFromIff(line: string, target: string, p: nat)
    requires p <= |line|
    ensures MentionFrom(line, target, p) <==> exists q :: p <= q <= |line| && WholeWordAt(line, target, q, true)
    decreases |line| - p
  {
    if p < |line| {
      MentionFromIff(line, target, p + 1);
    }
  }

  // ------------------------------------------------ the references of one file

  /** One recorded reference: the 1-based line number and the stripped line. */
  datatype Ref = Ref(lineNumber: nat, lineContent: string)

  /** The file's own artifact ID, read from its first line, when it has one. */
  function FileId(reg: Registry, content: string): Option<string>
  {
    match HeaderCodec.ExtractTypeAndId(reg, content)
    case Success(Some((_, id))) => Some(id)
    case _ => None
  }

  /** What line number `n` (holding `line`) records: its container and the reference. */
  function LineRef(line: string, n: nat, spans: seq<Span>, target: string, fileId: Option<string>): Option<(string, Ref)>
  {
    if Strip(line) == [] || !Mentions(line, target) then None
    else match FindContainer(spans, n, fileId)
      case None => None
      case Some(c) => if c == [] || Upper(c) == Upper(target) then None else Some((c, Ref(n, Strip(line))))
  }

  /** What each line records, by line index. */
  function LineRefs(lines: seq<string>, spans: seq<Span>, target: string, fileId: Option<string>): (r: seq<Option<(string, Ref)>>)
    ensures |r| == |lines|
    ensures forall i :: 0 <= i < |lines| ==> r[i] == LineRef(lines[i], i + 1, spans, target, fileId)
  {
    seq(|lines|, i requires 0 <= i < |lines| => LineRef(lines[i], i + 1, spans, target, fileId))
  }

  /** The references one markdown file records, in line order. */
  function FileRefs(reg: Registry, content: string, target: string): seq<(string, Ref)>
  {
    var lines := Split(content, '\n');
    Present(LineRefs(lines, SpansOf(lines), target, FileId(reg, content)))
  }

  /**
   * The conditions under which line `x.1.lineNumber` is credited to `x.0`:
   * it is not blank, it mentions the target, its container is `x.0`, which
   * is not the target itself, and the stripped line is kept.
   */
  predicate Credited(lines: seq<string>, spans: seq<Span>, target: string, fileId: Option<string>, x: (string, Ref))
  {
    var n := x.1.lineNumber;
    1 <= n <= |lines| && Strip(lines[n - 1]) != [] && Mentions(lines[n - 1], target)
    && FindContainer(spans, n, fileId) == Some(x.0) && x.0 != [] && Upper(x.0) != Upper(target)
    && x.1.lineContent == Strip(lines[n - 1])
  }

  /** Line `n` records `x` exactly when `x` is credited to line `n`. */
  lemma LineRefIff(line: string, n: nat, spans: seq<Span>, target: string, fileId: Option<string>, x: (string, Ref))
    ensures LineRef(line, n, spans, target, fileId) == Some(x) <==>
      x.1.lineNumber == n && Strip(line) != [] && Mentions(line, target)
      && FindContainer(spans, n, fileId) == Some(x.0) && x.0 != [] && Upper(x.0) != Upper(target)
      && x.1.lineContent == Strip(line)
  {
  }

  /** A pair is recorded for a file exactly when it is credited to one of its lines. */
  lemma RefsIff(lines: seq<string>, spans: seq<Span>, target: string, fileId: Option<string>, x: (string, Ref))
    ensures x in Present(LineRefs(lines, spans, target, fileId)) <==> Credited(lines, spans, target, fileId, x)
  {
    var opts := LineRefs(lines, spans, target, fileId);
    PresentMembers(opts, x);
    if x in Present(opts) {
      var j :| 0 <= j < |opts| && opts[j] == Some(x);
      RecordedIsCredited(lines, spans, target, fileId, j, x);
    }
    if Credited(lines, spans, target, fileId, x) {
      CreditedIsRecorded(lines, spans, target, fileId, x);
    }
  }

  lemma RecordedIsCredited(lines: seq<string>, spans: seq<Span>, target: string, fileId: Option<string>, j: nat, x: (string, Ref))
    requires j < |lines| && LineRef(lines[j], j + 1, spans, target, fileId) == Some(x)
    ensures Credited(lines, spans, target, fileId, x)
  {
    LineRefIff(lines[j], j + 1, spans, target, fileId, x);
  }

  lemma CreditedIsRecorded(lines: seq<string>, spans: seq<Span>, target: string, fileId: Option<string>, x: (string, Ref))
    requires Credited(lines, spans, target, fileId, x)
    ensures LineRefs(lines, spans, target, fileId)[x.1.lineNumber - 1] == Some(x)
  {
    var n := x.1.lineNumber;
    LineRefIff(lines[n - 1], n, spans, target, fileId, x);
  }

  /** The recorded line numbers are strictly increasing. */
  lemma {:induction false} RefsOrdered(opts: seq<Option<(string, Ref)>>)
    requires forall j :: 0 <= j < |opts| && opts[j].Some? ==> opts[j].value.1.lineNumber == j + 1
    ensures Increasing(Present(opts), |opts|)
    decreases |opts|
  {
    if opts != [] {
      var front := opts[..|opts| - 1];
      assert forall j :: 0 <= j < |front| ==> front[j] == opts[j];
      RefsOrdered(front);
    }
  }

  /** Line numbers rise along `refs` and none exceeds `bound`. */
  predicate Increasing(refs: seq<(string, Ref)>, bound: nat)
  {
    (forall k :: 0 <= k < |refs| ==> refs[k].1.lineNumber <= bound)
    && forall k, l :: 0 <= k < l < |refs| ==> refs[k].1.lineNumber < refs[l].1.lineNumber
  }

  /** A file's references come in strictly increasing line order. */
  lemma FileRefsOrdered(reg: Registry, content: string, target: string)
    ensures Increasing(FileRefs(reg, content, target), |Split(content, '\n')|)
  {
    var lines := Split(content, '\n');
    RefsOrdered(LineRefs(lines, SpansOf(lines), target, FileId(reg, content)));
  }

  // ------------------------------------------------ `reference_data`

  /** The list stored under `c`, empty when there is none. */
  function Get(data: map<string, seq<Ref>>, c: string): seq<Ref>
  {
    if c in data then data[c] else []
  }

  /** `reference_data.setdefault(c, []).append(ref)`. */
  function Add(data: map<string, seq<Ref>>, x: (string, Ref)): map<string, seq<Ref>>
  {
    data[x.0 := Get(data, x.0) + [x.1]]
  }

  /** `Add` for each pair in turn. */
  function Record(data: map<string, seq<Ref>>, pairs: seq<(string, Ref)>): map<string, seq<Ref>>
    decreases |pairs|
  {
    if pairs == [] then data
    else Add(Record(data, pairs[..|pairs| - 1]), pairs[|pairs| - 1])
  }

  /** The references among `pairs` credited to `c`, in order. */
  function RefsOf(pairs: seq<(string, Ref)>, c: string): (r: seq<Ref>)
    ensures |r| <= |pairs|
  {
    if pairs == [] then []
    else RefsOf(pairs[..|pairs| - 1], c) + (if pairs[|pairs| - 1].0 == c then [pairs[|pairs| - 1].1] else [])
  }

  /** Recording appends to each container's list exactly the references credited to it. */
  lemma {:induction false} RecordGet(data: map<string, seq<Ref>>, pairs: seq<(string, Ref)>, c: string)
    ensures Get(Record(data, pairs), c) == Get(data, c) + RefsOf(pairs, c)
    decreases |pairs|
  {
    if pairs != [] {
      RecordGet(data, pairs[..|pairs| - 1], c);
    }
  }

  /** Recording adds a key exactly for the containers some pair names. */
  lemma {:induction false} RecordKeys(data: map<string, seq<Ref>>, pairs: seq<(string, Ref)>, c: string)
    ensures c in Record(data, pairs) <==> c in data || exists k :: 0 <= k < |pairs| && pairs[k].0 == c
    decreases |pairs|
  {
    if pairs != [] {
      var front := pairs[..|pairs| - 1];
      RecordKeys(data, front, c);
      assert forall k :: 0 <= k < |front| ==> front[k] == pairs[k];
      if exists k :: 0 <= k < |pairs| && pairs[k].0 == c {
        var k :| 0 <= k < |pairs| && pairs[k].0 == c;
        if k < |front| {
          assert front[k].0 == c;
        }
      }
    }
  }

  lemma {:induction false} RecordConcat(data: map<string, seq<Ref>>, p: seq<(string, Ref)>, q: seq<(string, Ref)>)
    ensures Record(data, p + q) == Record(Record(data, p), q)
    decreases |q|
  {
    if q == [] {
      assert p + q == p;
    } else {
      var front := q[..|q| - 1];
      assert (p + q)[..|p + q| - 1] == p + front;
      RecordConcat(data, p, front);
    }
  }

  /** A value stored under a key is never an empty list. */
  predicate NoEmptyLists(data: map<string, seq<Ref>>)
  {
    forall c :: c in data ==> data[c] != []
  }

  lemma {:induction false} RecordNoEmpty(data: map<string, seq<Ref>>, pairs: seq<(string, Ref)>)
    requires NoEmptyLists(data)
    ensures NoEmptyLists(Record(data, pairs))
    decreases |pairs|
  {
    if pairs != [] {
      RecordNoEmpty(data, pairs[..|pairs| - 1]);
    }
  }

  /** A reference is credited to `c` exactly when `(c, ref)` is among the pairs. */
  lemma {:induction false} RefsOfMembers(pairs: seq<(string, Ref)>, c: string, ref: Ref)
    ensures ref in RefsOf(pairs, c) <==> (c, ref) in pairs
    decreases |pairs|
  {
    if pairs != [] {
      var front := pairs[..|pairs| - 1];
      RefsOfMembers(front, c, ref);
      assert pairs == front + [pairs[|pairs| - 1]];
    }
  }

  // ------------------------------------------------ the key order of `reference_data`

  /** A dictionary keeps its keys in first-insertion order: `c` joins the end when it is new. */
  function Note(keys: seq<string>, c: string): seq<string>
  {
    if c in keys then keys else keys + [c]
  }

  /** The key order after recording each pair in turn. */
  function Seen(keys: seq<string>, pairs: seq<(string, Ref)>): seq<string>
    decreases |pairs|
  {
    if pairs == [] then keys else Note(Seen(keys, pairs[..|pairs| - 1]), pairs[|pairs| - 1].0)
  }

  /** The position of the first pair credited to `c`; `|pairs|` when none is. */
  function FirstAt(pairs: seq<(string, Ref)>, c: string): (r: nat)
    ensures r <= |pairs|
    ensures r < |pairs| ==> pairs[r].0 == c
    ensures forall k :: 0 <= k < r ==> pairs[k].0 != c
    decreases |pairs|
  {
    if pairs == [] then 0
    else
      var front := pairs[..|pairs| - 1];
      var f := FirstAt(front, c);
      assert forall k :: 0 <= k < |front| ==> front[k] == pairs[k];
      if f < |front| || pairs[|pairs| - 1].0 == c then f else |pairs|
  }

  /** The keys come in the order of the first pair credited to each, so each comes once. */
  predicate FirstSeenOrder(keys: seq<string>, pairs: seq<(string, Ref)>)
  {
    forall i, j :: 0 <= i < j < |keys| ==> FirstAt(pairs, keys[i]) < FirstAt(pairs, keys[j])
  }

  /**
   * Recording the pairs into an empty dictionary gives exactly the containers
   * some pair names, in the order their first pair comes.
   */
  lemma {:induction false} SeenOrder(pairs: seq<(string, Ref)>)
    ensures forall c :: c in Seen([], pairs) <==> FirstAt(pairs, c) < |pairs|
    ensures forall c :: c in Seen([], pairs) <==> exists k :: 0 <= k < |pairs| && pairs[k].0 == c
    ensures FirstSeenOrder(Seen([], pairs), pairs)
    decreases |pairs|
  {
    if pairs != [] {
      var front, x := pairs[..|pairs| - 1], pairs[|pairs| - 1];
      SeenOrder(front);
      var s' := Seen([], front);
      forall c | FirstAt(front, c) < |front| ensures FirstAt(pairs, c) == FirstAt(front, c) {
      }
      forall c | c in s' ensures FirstAt(pairs, c) < |front| {
      }
      if x.0 !in s' {
        assert FirstAt(pairs, x.0) == |front|;
        assert Seen([], pairs) == s' + [x.0];
      }
    }
    forall c ensures FirstAt(pairs, c) < |pairs| <==> exists k :: 0 <= k < |pairs| && pairs[k].0 == c {
      if exists k :: 0 <= k < |pairs| && pairs[k].0 == c {
        var k :| 0 <= k < |pairs| && pairs[k].0 == c;
        assert FirstAt(pairs, c) <= k;
      }
    }
  }

  lemma {:induction false} SeenConcat(keys: seq<string>, p: seq<(string, Ref)>, q: seq<(string, Ref)>)
    ensures Seen(keys, p + q) == Seen(Seen(keys, p), q)
    decreases |q|
  {
    if q == [] {
      assert p + q == p;
    } else {
      var front := q[..|q| - 1];
      assert (p + q)[..|p + q| - 1] == p + front;
      SeenConcat(keys, p, front);
    }
  }

  /** The keys of `s` that `ids` holds, in their order: the filtering comprehension. */
  function KeepIn(s: seq<string>, ids: set<string>): (r: seq<string>)
    ensures forall c :: c in r <==> c in s && c in ids
    decreases |s|
  {
    if s == [] then []
    else
      assert forall c :: c in s <==> c in s[..|s| - 1] || c == s[|s| - 1];
      KeepIn(s[..|s| - 1], ids) + (if s[|s| - 1] in ids then [s[|s| - 1]] else [])
  }

  /** Filtering keeps the order of the keys it keeps. */
  lemma {:induction false} KeepInOrder(s: seq<string>, ids: set<string>, pairs: seq<(string, Ref)>)
    requires FirstSeenOrder(s, pairs)
    ensures FirstSeenOrder(KeepIn(s, ids), pairs)
    decreases |s|
  {
    if s != [] {
      var front, x := s[..|s| - 1], s[|s| - 1];
      assert forall i :: 0 <= i < |front| ==> front[i] == s[i];
      KeepInOrder(front, ids, pairs);
      var kept := KeepIn(front, ids);
      if x in ids {
        forall i | 0 <= i < |kept| ensures FirstAt(pairs, kept[i]) < FirstAt(pairs, x) {
          assert kept[i] in front;
          var j :| 0 <= j < |front| && front[j] == kept[i];
        }
        assert KeepIn(s, ids) == kept + [x];
      }
    }
  }

  // ------------------------------------------------ the whole repository

  /** A markdown file of the repository: its base name and its text. */
  datatype MdFile = MdFile(name: string, content: string)

  /** `reference_data` once the files have been read in walk order; `index.md` files are skipped. */
  function ScanFiles(reg: Registry, files: seq<MdFile>, target: string): map<string, seq<Ref>>
    decreases |files|
  {
    if files == [] then map[]
    else
      var data := ScanFiles(reg, files[..|files| - 1], target);
      var f := files[|files| - 1];
      if f.name == "index.md" then data else Record(data, FileRefs(reg, f.content, target))
  }

  /** The references credited to `c` across the files, in walk order. */
  function AllRefs(reg: Registry, files: seq<MdFile>, target: string, c: string): seq<Ref>
    decreases |files|
  {
    if files == [] then []
    else
      var f := files[|files| - 1];
      AllRefs(reg, files[..|files| - 1], target, c)
      + (if f.name == "index.md" then [] else RefsOf(FileRefs(reg, f.content, target), c))
  }

  /** The artifact IDs the index lists. */
  function IndexIds(entries: seq<IndexLedger.Entry>): set<string>
  {
    set e | e in entries :: e.artifactId
  }

  /** `_scan_content_references`: `reference_data` restricted to the IDs the index lists. */
  function ScanReferences(reg: Registry, files: seq<MdFile>, target: string, entries: seq<IndexLedger.Entry>): map<string, seq<Ref>>
  {
    var data := ScanFiles(reg, files, target);
    var ids := IndexIds(entries);
    map c | c in data && c in ids :: data[c]
  }

  /** Every pair the files record, in walk order and line order. */
  function AllPairs(reg: Registry, files: seq<MdFile>, target: string): seq<(string, Ref)>
    decreases |files|
  {
    if files == [] then []
    else
      var f := files[|files| - 1];
      AllPairs(reg, files[..|files| - 1], target) + (if f.name == "index.md" then [] else FileRefs(reg, f.content, target))
  }

  /** The key order of `reference_data` once the files have been read in walk order. */
  function ScanOrder(reg: Registry, files: seq<MdFile>, target: string): seq<string>
    decreases |files|
  {
    if files == [] then []
    else
      var keys := ScanOrder(reg, files[..|files| - 1], target);
      var f := files[|files| - 1];
      if f.name == "index.md" then keys else Seen(keys, FileRefs(reg, f.content, target))
  }

  /** The key order of the filtered dictionary `_scan_content_references` returns. */
  function ScanReferencesOrder(reg: Registry, files: seq<MdFile>, target: string, entries: seq<IndexLedger.Entry>): seq<string>
  {
    KeepIn(ScanOrder(reg, files, target), IndexIds(entries))
  }

  lemma {:induction false} ScanOrderSeen(reg: Registry, files: seq<MdFile>, target: string)
    ensures ScanOrder(reg, files, target) == Seen([], AllPairs(reg, files, target))
    decreases |files|
  {
    if files != [] {
      var front, f := files[..|files| - 1], files[|files| - 1];
      ScanOrderSeen(reg, front, target);
      if f.name == "index.md" {
        assert AllPairs(reg, front, target) + [] == AllPairs(reg, front, target);
      } else {
        SeenConcat([], AllPairs(reg, front, target), FileRefs(reg, f.content, target));
      }
    }
  }

  lemma {:induction false} ScanFilesPairs(reg: Registry, files: seq<MdFile>, target: string)
    ensures ScanFiles(reg, files, target) == Record(map[], AllPairs(reg, files, target))
    decreases |files|
  {
    if files != [] {
      var front, f := files[..|files| - 1], files[|files| - 1];
      ScanFilesPairs(reg, front, target);
      if f.name == "index.md" {
        assert AllPairs(reg, front, target) + [] == AllPairs(reg, front, target);
      } else {
        RecordConcat(map[], AllPairs(reg, front, target), FileRefs(reg, f.content, target));
      }
    }
  }

  /**
   * The result's keys in dictionary order: exactly the containers the result
   * holds, each once, in the order their first reference comes across the
   * files in walk order.
   */
  lemma ScanReferencesOrdered(reg: Registry, files: seq<MdFile>, target: string, entries: seq<IndexLedger.Entry>)
    ensures forall c :: c in ScanReferencesOrder(reg, files, target, entries) <==> c in ScanReferences(reg, files, target, entries)
    ensures FirstSeenOrder(ScanReferencesOrder(reg, files, target, entries), AllPairs(reg, files, target))
  {
    var pairs := AllPairs(reg, files, target);
    ScanOrderSeen(reg, files, target);
    ScanFilesPairs(reg, files, target);
    SeenOrder(pairs);
    forall c ensures c in ScanFiles(reg, files, target) <==> c in ScanOrder(reg, files, target) {
      RecordKeys(map[], pairs, c);
    }
    KeepInOrder(ScanOrder(reg, files, target), IndexIds(entries), pairs);
  }

  /** Each container's list gathers its references from every file, in walk order, and is never empty. */
  lemma {:induction false} ScanFilesGet(reg: Registry, files: seq<MdFile>, target: string, c: string)
    ensures Get(ScanFiles(reg, files, target), c) == AllRefs(reg, files, target, c)
    ensures NoEmptyLists(ScanFiles(reg, files, target))
    decreases |files|
  {
    if files != [] {
      var front := files[..|files| - 1];
      var f := files[|files| - 1];
      ScanFilesGet(reg, front, target, c);
      if f.name != "index.md" {
        RecordGet(ScanFiles(reg, front, target), FileRefs(reg, f.content, target), c);
        RecordNoEmpty(ScanFiles(reg, front, target), FileRefs(reg, f.content, target));
      }
    }
  }

  /**
   * The result holds `c` exactly when the index lists it and some file
   * credits a reference to it, and then it holds all of them, in walk order.
   */
  lemma ScanReferencesMeaning(reg: Registry, files: seq<MdFile>, target: string, entries: seq<IndexLedger.Entry>, c: string)
    ensures c in ScanReferences(reg, files, target, entries) <==>
      (exists e :: e in entries && e.artifactId == c) && AllRefs(reg, files, target, c) != []
    ensures c in ScanReferences(reg, files, target, entries) ==> ScanReferences(reg, files, target, entries)[c] == AllRefs(reg, files, target, c)
  {
    ScanFilesGet(reg, files, target, c);
  }

  /**
   * What a file credits to `c`: exactly the non-blank lines that mention the
   * target, lie in a section (or a file) whose artifact is `c`, and where
   * `c` is not the target itself.
   */
  lemma FileRefsMeaning(reg: Registry, content: string, target: string, c: string, ref: Ref)
    ensures ref in RefsOf(FileRefs(reg, content, target), c) <==>
      var lines := Split(content, '\n');
      Credited(lines, SpansOf(lines), target, FileId(reg, content), (c, ref))
  {
    var lines := Split(content, '\n');
    RefsOfMembers(FileRefs(reg, content, target), c, ref);
    RefsIff(lines, SpansOf(lines), target, FileId(reg, content), (c, ref));
  }

  /** `find_container`: the loop over the sections. */
  method FindContainerIn(spans: seq<Span>, n: nat, fileId: Option<string>) returns (r: Option<string>)
    ensures r == FindContainer(spans, n, fileId)
  {
    var k := 0;
    while k < |spans|
      invariant k <= |spans|
      invariant FindContainer(spans, n, fileId) == FindContainer(spans[k..], n, fileId)
    {
      if spans[k].start <= n <= spans[k].end {
        assert spans[k..][0] == spans[k];
        return Some(spans[k].id);
      }
      assert spans[k..][1..] == spans[k + 1..];
      k := k + 1;
    }
    return fileId;
  }

  /** One more line recorded, in the form the loop takes it. */
  lemma RecordNext(data: map<string, seq<Ref>>, opts: seq<Option<(string, Ref)>>, i: nat,
                   cur: map<string, seq<Ref>>, found: Option<(string, Ref)>)
    requires i < |opts| && cur == Record(data, Present(opts[..i])) && found == opts[i]
    ensures (if found.Some? then Add(cur, found.value) else cur) == Record(data, Present(opts[..i + 1]))
  {
    RecordStep(data, opts, i);
  }

  /** One more line recorded: a new container joins the end of the key order. */
  lemma SeenNext(keys: seq<string>, opts: seq<Option<(string, Ref)>>, i: nat,
                 cur: seq<string>, found: Option<(string, Ref)>)
    requires i < |opts| && cur == Seen(keys, Present(opts[..i])) && found == opts[i]
    ensures (if found.Some? then Note(cur, found.value.0) else cur) == Seen(keys, Present(opts[..i + 1]))
  {
    var front := opts[..i + 1];
    assert front[..|front| - 1] == opts[..i] && front[|front| - 1] == opts[i];
    var p := Present(opts[..i]);
    if opts[i].Some? {
      var q := p + [opts[i].value];
      assert Present(front) == q;
      assert q[..|q| - 1] == p && q[|q| - 1] == opts[i].value;
    } else {
      assert Present(front) == p;
    }
  }

  lemma RecordStep(data: map<string, seq<Ref>>, opts: seq<Option<(string, Ref)>>, i: nat)
    requires i < |opts|
    ensures Record(data, Present(opts[..i + 1])) ==
      match opts[i]
      case Some(x) => Add(Record(data, Present(opts[..i])), x)
      case None => Record(data, Present(opts[..i]))
  {
    var front := opts[..i + 1];
    assert front[..|front| - 1] == opts[..i] && front[|front| - 1] == opts[i];
    var p := Present(opts[..i]);
    if opts[i].Some? {
      var q := p + [opts[i].value];
      assert Present(front) == q;
      assert q[..|q| - 1] == p && q[|q| - 1] == opts[i].value;
    } else {
      assert Present(front) == p;
    }
  }

  /** The body of the line loop: what line number `n` records, if anything. */
  method LineReference(line: string, n: nat, spans: seq<Span>, target: string, fileId: Option<string>)
    returns (r: Option<(string, Ref)>)
    ensures r == LineRef(line, n, spans, target, fileId)
  {
    var stripped := Strip(line);
    if stripped == [] || !Mentions(line, target) {
      return None;
    }
    var container := FindContainerIn(spans, n, fileId);
    if container.None? || container.value == [] || Upper(container.value) == Upper(target) {
      return None;
    }
    return Some((container.value, Ref(n, stripped)));
  }

  /**
   * The line loop of `_scan_content_references` for one file: it adds the
   * file's references to `data`.
   */
  method FileReferences(reg: Registry, content: string, target: string, data: map<string, seq<Ref>>, keys: seq<string>)
    returns (data': map<string, seq<Ref>>, keys': seq<string>)
    ensures data' == Record(data, FileRefs(reg, content, target))
    ensures keys' == Seen(keys, FileRefs(reg, content, target))
  {
    var lines := Split(content, '\n');
    var fileId := FileId(reg, content);
    var spans := CollectSpans(Heads(lines));
    data', keys' := RecordLines(lines, spans, target, fileId, data, keys);
  }

  /** The line loop of `_scan_content_references` over one file. */
  method RecordLines(lines: seq<string>, spans: seq<Span>, target: string, fileId: Option<string>,
                     data: map<string, seq<Ref>>, keys: seq<string>) returns (data': map<string, seq<Ref>>, keys': seq<string>)
    ensures data' == Record(data, Present(LineRefs(lines, spans, target, fileId)))
    ensures keys' == Seen(keys, Present(LineRefs(lines, spans, target, fileId)))
  {
    var opts := LineRefs(lines, spans, target, fileId);
    data', keys' := data, keys;
    var i := 0;
    while i < |lines|
      invariant i <= |lines|
      invariant data' == Record(data, Present(opts[..i]))
      invariant keys' == Seen(keys, Present(opts[..i]))
    {
      var found := LineReference(lines[i], i + 1, spans, target, fileId);
      data', keys' := RecordLine(data, keys, opts, i, data', keys', found);
      i := i + 1;
    }
    FullPrefix(opts);
  }

  /**
   * The body of the line loop: the reference found on the line, if any, is
   * added, and a container seen for the first time joins the key order.
   */
  method RecordLine(data: map<string, seq<Ref>>, keys: seq<string>, opts: seq<Option<(string, Ref)>>, i: nat,
                    cur: map<string, seq<Ref>>, curKeys: seq<string>, found: Option<(string, Ref)>)
    returns (next: map<string, seq<Ref>>, nextKeys: seq<string>)
    requires i < |opts| && cur == Record(data, Present(opts[..i])) && found == opts[i]
    requires curKeys == Seen(keys, Present(opts[..i]))
    ensures next == Record(data, Present(opts[..i + 1]))
    ensures nextKeys == Seen(keys, Present(opts[..i + 1]))
  {
    RecordNext(data, opts, i, cur, found);
    SeenNext(keys, opts, i, curKeys, found);
    next, nextKeys := cur, curKeys;
    if found.Some? {
      next := Add(cur, found.value);
      if found.value.0 !in curKeys {
        nextKeys := curKeys + [found.value.0];
      }
    }
  }

  lemma FullPrefix<T>(s: seq<T>)
    ensures s[..|s|] == s
  {
  }

  /**
   * `_scan_content_references`: the file loop over the markdown files in
   * walk order, then the filter on the IDs the index lists. `order` is the
   * result's key order, the order of its first insertion.
   */
  method ScanContentReferences(reg: Registry, files: seq<MdFile>, target: string, index: IndexLedger.Ledger)
    returns (r: map<string, seq<Ref>>, order: seq<string>)
    ensures r == ScanReferences(reg, files, target, index.Entries())
    ensures order == ScanReferencesOrder(reg, files, target, index.Entries())
  {
    var entries := index.GetAllArtifacts();
    var ids := IndexIds(entries);
    var data, keys := ScanEach(reg, files, target);
    r := map c | c in data && c in ids :: data[c];
    order := KeepKeys(keys, ids);
  }

  /** The filtering comprehension's walk over the keys, which keeps their order. */
  method KeepKeys(keys: seq<string>, ids: set<string>) returns (order: seq<string>)
    ensures order == KeepIn(keys, ids)
  {
    order := [];
    var j := 0;
    while j < |keys|
      invariant j <= |keys|
      invariant order == KeepIn(keys[..j], ids)
    {
      assert keys[..j + 1][..j] == keys[..j];
      if keys[j] in ids {
        order := order + [keys[j]];
      }
      j := j + 1;
    }
    assert keys[..|keys|] == keys;
  }

  /** The file loop of `_scan_content_references`, in walk order. */
  method ScanEach(reg: Registry, files: seq<MdFile>, target: string)
    returns (data: map<string, seq<Ref>>, keys: seq<string>)
    ensures data == ScanFiles(reg, files, target)
    ensures keys == ScanOrder(reg, files, target)
  {
    data, keys := map[], [];
    var i := 0;
    while i < |files|
      invariant i <= |files|
      invariant data == ScanFiles(reg, files[..i], target)
      invariant keys == ScanOrder(reg, files[..i], target)
    {
      assert files[..i + 1][..i] == files[..i];
      if files[i].name != "index.md" {
        data, keys := FileReferences(reg, files[i].content, target, data, keys);
      }
      i := i + 1;
    }
    assert files[..|files|] == files;
  }
}
