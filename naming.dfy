/**
 * The text rules the artifact manager applies while finalising a provisional
 * document: the name a heading gives an artifact, whether an artifact is the
 * document's main one, whole-word replacement of provisional tokens and of
 * step references, the target file name and the version footer.
 */
module Naming {

  import opened Wrappers
  import opened Text
  import opened TypeRegistry
  import Sections

  // ------------------------------------------------ `^#+\s*<id>:\s*(.+)$`

  /** The number of `#` characters `s` starts with. */
  function HashRun(s: string): (r: nat)
    ensures r <= |s| && (forall k :: 0 <= k < r ==> s[k] == '#') && (r == |s| || s[r] != '#')
  {
    if s != [] && s[0] == '#' then 1 + HashRun(s[1..]) else 0
  }

  /** The number of whitespace characters `s` starts with (`\s*` is greedy). */
  function SpaceRun(s: string): (r: nat)
    ensures r <= |s| && (forall k :: 0 <= k < r ==> IsSpace(s[k])) && (r == |s| || !IsSpace(s[r]))
  {
    if s != [] && IsSpace(s[0]) then 1 + SpaceRun(s[1..]) else 0
  }

  function Hashes(n: nat): (r: string)
    ensures |r| == n && forall k :: 0 <= k < n ==> r[k] == '#'
  {
    if n == 0 then [] else "#" + Hashes(n - 1)
  }

  /**
   * The stripped line `l` is a run of `#`, optional whitespace, the ID
   * (ignoring case), a colon and at least one more character: what follows
   * the colon.
   */
  function AfterHeadingId(l: string, id: string): Option<string>
  {
    var h := HashRun(l);
    var p := h + SpaceRun(l[h..]);
    var q := p + |id|;
    if h == 0 || q + 1 >= |l| || Lower(l[p..q]) != Lower(id) || l[q] != ':' then None
    else Some(l[q + 1..])
  }

  /** The name that one line gives the artifact `id`, stripped. */
  function NameOf(line: string, id: string): (r: Option<string>)
    ensures r.Some? ==> Trimmed(r.value)
  {
    match AfterHeadingId(Strip(line), id)
    case None => None
    case Some(rest) =>
      StripIsTrimmed(rest);
      Some(Strip(rest))
  }

  lemma {:induction false} HashRunOf(n: nat, t: string)
    requires t == [] || t[0] != '#'
    ensures HashRun(Hashes(n) + t) == n
  {
    if n > 0 {
      assert (Hashes(n) + t)[1..] == Hashes(n - 1) + t;
      HashRunOf(n - 1, t);
    }
  }

  lemma {:induction false} SpaceRunOf(ws: string, t: string)
    requires AllSpace(ws) && (t == [] || !IsSpace(t[0]))
    ensures SpaceRun(ws + t) == |ws|
  {
    if ws != [] {
      assert (ws + t)[1..] == ws[1..] + t;
      SpaceRunOf(ws[1..], t);
    }
  }

  /** `AfterHeadingId` read off the positions where its pattern's parts end. */
  lemma {:induction false} AfterHeadingIdAt(l: string, id: string, h: nat, p: nat)
    requires 0 < h <= p && p + |id| + 1 < |l|
    requires HashRun(l) == h && h + SpaceRun(l[h..]) == p
    requires Lower(l[p..p + |id|]) == Lower(id) && l[p + |id|] == ':'
    ensures AfterHeadingId(l, id) == Some(l[p + |id| + 1..])
  {
  }

  /**
   * A heading written as `#...# <ID>: <name>`, with the ID spelt in any case,
   * gives back the name.
   */
  lemma {:induction false} NameOfHeading(n: nat, ws: string, written: string, id: string, ws2: string, name: string)
    requires n > 0 && AllSpace(ws) && AllSpace(ws2) && Trimmed(name) && name != []
    requires written != [] && written[0] != '#' && !IsSpace(written[0]) && Lower(written) == Lower(id)
    ensures NameOf(Hashes(n) + ws + written + ":" + ws2 + name, id) == Some(name)
  {
    var line := Hashes(n) + ws + written + ":" + ws2 + name;
    var after := ws2 + name;
    HeadingAfterId(line, n, ws, written, id, after);
    HeadingTrimmed(line, n, ws, written, ws2, name);
    StripLeading(ws2, name);
    NameOfParts(line, id, after, name);
  }

  lemma StripLeading(ws: string, name: string)
    requires AllSpace(ws) && Trimmed(name) && name != []
    ensures Strip(ws + name) == name
  {
    assert ws + name == ws + name + [];
    StripAround(ws, name, []);
  }

  lemma NameOfParts(line: string, id: string, after: string, name: string)
    requires Strip(line) == line && AfterHeadingId(line, id) == Some(after) && Strip(after) == name
    ensures NameOf(line, id) == Some(name)
  {
  }

  lemma {:induction false} HeadingAfterId(line: string, n: nat, ws: string, written: string, id: string, after: string)
    requires line == Hashes(n) + ws + written + ":" + after
    requires n > 0 && AllSpace(ws) && written != [] && written[0] != '#' && !IsSpace(written[0])
    requires Lower(written) == Lower(id) && |after| > 0
    ensures AfterHeadingId(line, id) == Some(after)
  {
    assert |written| == |id| by {
      assert |Lower(written)| == |Lower(id)|;
    }
    HeadingLine(line, n, ws, written, after);
    LinePieces(line, Hashes(n) + ws, written, after);
    AfterHeadingIdAt(line, id, n, n + |ws|);
  }

  lemma {:induction false} HeadingTrimmed(line: string, n: nat, ws: string, written: string, ws2: string, name: string)
    requires line == Hashes(n) + ws + written + ":" + ws2 + name
    requires n > 0 && Trimmed(name) && name != []
    ensures Strip(line) == line
  {
    assert line[0] == '#';
    assert line[|line| - 1] == name[|name| - 1];
    TrimmedStrip(line);
  }

  /** Where the `#` run and the spaces after it end in a heading line. */
  lemma {:induction false} HeadingLine(line: string, n: nat, ws: string, written: string, after: string)
    requires line == Hashes(n) + ws + written + ":" + after
    requires AllSpace(ws) && written != [] && written[0] != '#' && !IsSpace(written[0])
    ensures HashRun(line) == n && n + SpaceRun(line[n..]) == n + |ws|
  {
    Regroup(Hashes(n), ws, written, ":", after);
    HeadingRuns(line, n, ws, written + ":" + after);
  }

  /** Concatenation regrouped to the right. */
  lemma Regroup<T>(a: seq<T>, b: seq<T>, c: seq<T>, d: seq<T>, e: seq<T>)
    ensures a + b + c + d + e == a + (b + (c + d + e))
  {
  }

  lemma {:induction false} HeadingRuns(line: string, n: nat, ws: string, rest: string)
    requires line == Hashes(n) + (ws + rest)
    requires AllSpace(ws) && rest != [] && rest[0] != '#' && !IsSpace(rest[0])
    ensures HashRun(line) == n && SpaceRun(line[n..]) == |ws|
  {
    assert (ws + rest)[0] == if ws != [] then ws[0] else rest[0];
    HashRunOf(n, ws + rest);
    assert line[n..] == ws + rest;
    SpaceRunOf(ws, rest);
  }

  lemma LinePieces(line: string, pre: string, written: string, after: string)
    requires line == pre + written + ":" + after
    ensures line[|pre|..|pre| + |written|] == written && line[|pre| + |written|] == ':'
    ensures line[|pre| + |written| + 1..] == after
  {
  }

  predicate Names(line: string, id: string)
  {
    NameOf(line, id).Some?
  }

  function HasName(id: string): string -> bool
  {
    line => Names(line, id)
  }

  /** The name given by the first of `lines` that names the artifact. */
  function FirstName(lines: seq<string>, id: string): Option<string>
  {
    match Sections.First(lines, HasName(id), 0)
    case None => None
    case Some(i) => NameOf(lines[i], id)
  }

  /** `_extract_artifact_name`: the name given by the first line that names the artifact. */
  function ArtifactName(content: string, id: string): Option<string>
  {
    FirstName(Split(content, '\n'), id)
  }

  /** The name read is the one of the first naming line; no such line, no name. */
  lemma {:induction false} FirstNameIs(lines: seq<string>, id: string, i: nat)
    requires i <= |lines| && Sections.NoneIn(lines, HasName(id), 0, i)
    ensures i < |lines| && Names(lines[i], id) ==> FirstName(lines, id) == NameOf(lines[i], id)
    ensures i == |lines| ==> FirstName(lines, id) == None
  {
    Sections.FirstIs(lines, HasName(id), 0, i);
  }

  method ExtractArtifactName(content: string, id: string) returns (r: Option<string>)
    ensures r == ArtifactName(content, id)
  {
    var lines := Split(content, '\n');
    var i := 0;
    while i < |lines|
      invariant i <= |lines| && Sections.NoneIn(lines, HasName(id), 0, i)
    {
      var name := NameOf(lines[i], id);
      if name.Some? {
        FirstNameIs(lines, id, i);
        return name;
      }
      assert !HasName(id)(lines[i]);
      Sections.NoneInStep(lines, HasName(id), 0, i);
      i := i + 1;
    }
    FirstNameIs(lines, id, i);
    return None;
  }

  // ------------------------------------------------ main or nested

  /** A `#` or `##` heading, not `###` or deeper. */
  predicate IsTopHeading(l: string)
  {
    StartsWith(l, "#") && !StartsWith(l, "###")
  }

  /** A stripped line that is a top-level heading and contains the ID. */
  predicate TopHeadingNames(line: string, id: string)
  {
    IsTopHeading(Strip(line)) && Contains(Strip(line), id)
  }

  function NamesInTopHeading(id: string): string -> bool
  {
    line => TopHeadingNames(line, id)
  }

  /** The type named by the text before the first `-`, when there is one. */
  function TypeOfDashed(id: string): Option<string>
  {
    if '-' in id then Some(Upper(Split(id, '-')[0])) else None
  }

  /** The type's `is_file` flag, false for an unknown type or an ID without `-`. */
  function IsFileType(reg: Registry, id: string): bool
  {
    match TypeOfDashed(id)
    case None => false
    case Some(t) =>
      match HasCapability(reg, t, "is_file")
      case Failure(_) => false
      case Success(b) => b
  }

  /** `_is_main_artifact`: a top-level heading mentions the ID, or the type lives in its own file. */
  predicate IsMain(reg: Registry, content: string, id: string)
  {
    Sections.First(Split(content, '\n'), NamesInTopHeading(id), 0).Some? || IsFileType(reg, id)
  }

  /** Both ways: main exactly when some top-level heading holds the ID or the type's flag says so. */
  lemma {:induction false} IsMainIff(reg: Registry, content: string, id: string)
    ensures !IsMain(reg, content, id) <==>
      Sections.NoneIn(Split(content, '\n'), NamesInTopHeading(id), 0, |Split(content, '\n')|) && !IsFileType(reg, id)
  {
    var lines := Split(content, '\n');
    if Sections.NoneIn(lines, NamesInTopHeading(id), 0, |lines|) {
      Sections.FirstIs(lines, NamesInTopHeading(id), 0, |lines|);
    }
  }

  method IsMainArtifact(reg: Registry, content: string, id: string) returns (b: bool)
    ensures b == IsMain(reg, content, id)
  {
    var lines := Split(content, '\n');
    var heading := HeadingNames(lines, id);
    if heading {
      return true;
    }
    b := FileFlag(reg, id);
  }

  /** The loop of `_is_main_artifact` over the lines, which stops at the first top-level heading holding the ID. */
  method HeadingNames(lines: seq<string>, id: string) returns (found: bool)
    ensures found <==> Sections.First(lines, NamesInTopHeading(id), 0).Some?
  {
    var i := 0;
    while i < |lines|
      invariant i <= |lines| && Sections.NoneIn(lines, NamesInTopHeading(id), 0, i)
    {
      var l := Strip(lines[i]);
      if StartsWith(l, "#") && !StartsWith(l, "###") {
        if Contains(l, id) {
          Sections.FirstIs(lines, NamesInTopHeading(id), 0, i);
          return true;
        }
      }
      assert !NamesInTopHeading(id)(lines[i]);
      Sections.NoneInStep(lines, NamesInTopHeading(id), 0, i);
      i := i + 1;
    }
    Sections.FirstIs(lines, NamesInTopHeading(id), 0, i);
    return false;
  }

  /** The `is_file` lookup of `_is_main_artifact` for the type before the first `-`. */
  method FileFlag(reg: Registry, id: string) returns (b: bool)
    ensures b == IsFileType(reg, id)
  {
    if '-' in id {
      var t := Upper(Split(id, '-')[0]);
      var info := GetTypeInfo(reg, t);
      if info.Success? {
        return if "is_file" in info.value.flags then info.value.flags["is_file"] else false;
      }
    }
    return false;
  }

  // ------------------------------------------------ `re.sub(r'\b<w>\b', rep, s)`

  /**
   * The scan `re.sub` makes for a non-empty literal word between `\b`
   * assertions: from position `p`, every whole-word occurrence (compared
   * exactly) is replaced and the scan resumes after it; any other character
   * is copied.
   */
  /** `w` occurs at `p`, compared exactly, with `\b` on both sides. */
  predicate WordAt(s: string, w: string, p: nat)
  {
    p + |w| <= |s| && s[p..p + |w|] == w && WordBoundary(s, p) && WordBoundary(s, p + |w|)
  }

  function ReplaceFrom(s: string, w: string, rep: string, p: nat): string
    requires w != [] && p <= |s|
    decreases |s| - p
  {
    if p == |s| then []
    else if WordAt(s, w, p) then rep + ReplaceFrom(s, w, rep, p + |w|)
    else [s[p]] + ReplaceFrom(s, w, rep, p + 1)
  }

  function ReplaceWord(s: string, w: string, rep: string): string
    requires w != []
  {
    ReplaceFrom(s, w, rep, 0)
  }

  /** No whole-word occurrence of `w` starts in `[i, j)`. */
  predicate NoWordIn(s: string, w: string, i: nat, j: nat)
  {
    forall k :: i <= k < j ==> !WordAt(s, w, k)
  }

  predicate NoWordFrom(s: string, w: string, p: nat)
  {
    NoWordIn(s, w, p, |s|)
  }

  lemma {:induction false} ReplaceAbsent(s: string, w: string, rep: string, p: nat)
    requires w != [] && p <= |s| && NoWordFrom(s, w, p)
    ensures ReplaceFrom(s, w, rep, p) == s[p..]
    decreases |s| - p
  {
    if p < |s| {
      ReplaceAbsent(s, w, rep, p + 1);
      assert s[p..] == [s[p]] + s[p + 1..];
    }
  }

  /** Replacing a word by itself changes nothing. */
  lemma {:induction false} ReplaceSelf(s: string, w: string, p: nat)
    requires w != [] && p <= |s|
    ensures ReplaceFrom(s, w, w, p) == s[p..]
    decreases |s| - p
  {
    if p < |s| {
      if WordAt(s, w, p) {
        ReplaceSelf(s, w, p + |w|);
        assert s[p..] == s[p..p + |w|] + s[p + |w|..];
      } else {
        ReplaceSelf(s, w, p + 1);
        assert s[p..] == [s[p]] + s[p + 1..];
      }
    }
  }

  /** The text before the first occurrence is copied. */
  lemma {:induction false} ReplaceUpTo(s: string, w: string, rep: string, p: nat, k: nat)
    requires w != [] && p <= k <= |s| && NoWordIn(s, w, p, k)
    ensures ReplaceFrom(s, w, rep, p) == s[p..k] + ReplaceFrom(s, w, rep, k)
    decreases k - p
  {
    if p < k {
      assert !WordAt(s, w, p);
      ReplaceSkip(s, w, rep, p);
      ReplaceUpTo(s, w, rep, p + 1, k);
      SliceCons(s, p, k);
      RegroupCons([s[p]], s[p + 1..k], ReplaceFrom(s, w, rep, k));
    }
  }

  /** A place where the word does not stand keeps its character. */
  lemma ReplaceSkip(s: string, w: string, rep: string, p: nat)
    requires w != [] && p < |s| && !WordAt(s, w, p)
    ensures ReplaceFrom(s, w, rep, p) == [s[p]] + ReplaceFrom(s, w, rep, p + 1)
  {
  }

  lemma SliceCons<T>(s: seq<T>, p: nat, k: nat)
    requires p < k <= |s|
    ensures s[p..k] == [s[p]] + s[p + 1..k]
  {
  }

  lemma RegroupCons<T>(x: seq<T>, a: seq<T>, b: seq<T>)
    ensures x + (a + b) == x + a + b
  {
  }

  /** A string that is just the token, between word boundaries, becomes the replacement. */
  lemma ReplaceWhole(w: string, rep: string)
    requires w != [] && IsWordChar(w[0]) && IsWordChar(w[|w| - 1])
    ensures ReplaceWord(w, w, rep) == rep
  {
    assert w[0..|w|] == w;
    assert WordBoundary(w, 0) && WordBoundary(w, |w|);
    assert WordAt(w, w, 0);
    assert ReplaceFrom(w, w, rep, |w|) == [];
    assert ReplaceWord(w, w, rep) == rep + [];
  }

  // ------------------------------------------------ step references

  /**
   * `\bPROVISIONAL<k>\.(\d+)` at `p`: where the step digits start, when a
   * dot and at least one digit follow the provisional number.
   */
  function StepRefAt(s: string, k: string, p: nat): (r: Option<nat>)
    requires p <= |s|
    ensures r.Some? ==> p < r.value <= |s| && DigitRun(s[r.value..]) != []
  {
    var m := p + |ProvisionalMarker| + |k| + 1;
    if WordBoundary(s, p) && m <= |s| && s[p..m] == ProvisionalMarker + k + "." && DigitRun(s[m..]) != [] then Some(m)
    else None
  }

  /**
   * `re.sub(step_pattern, new + r'.\1', s)` from `p`: each step reference
   * `PROVISIONAL<k>.<digits>` becomes `<newNum>.<digits>`.
   */
  function RewriteStepsFrom(s: string, k: string, newNum: string, p: nat): string
    requires p <= |s|
    decreases |s| - p
  {
    if p == |s| then []
    else match StepRefAt(s, k, p)
      case Some(m) =>
        var d := DigitRun(s[m..]);
        newNum + "." + d + RewriteStepsFrom(s, k, newNum, m + |d|)
      case None => [s[p]] + RewriteStepsFrom(s, k, newNum, p + 1)
  }

  function RewriteSteps(s: string, k: string, newNum: string): string
  {
    RewriteStepsFrom(s, k, newNum, 0)
  }

  predicate NoStepRefFrom(s: string, k: string, p: nat)
    requires p <= |s|
  {
    forall j :: p <= j < |s| ==> StepRefAt(s, k, j).None?
  }

  lemma {:induction false} RewriteStepsAbsent(s: string, k: string, newNum: string, p: nat)
    requires p <= |s| && NoStepRefFrom(s, k, p)
    ensures RewriteStepsFrom(s, k, newNum, p) == s[p..]
    decreases |s| - p
  {
    if p < |s| {
      assert StepRefAt(s, k, p).None?;
      RewriteStepsAbsent(s, k, newNum, p + 1);
      assert s[p..] == [s[p]] + s[p + 1..];
    }
  }

  /** The step rewrite of one reference `PROVISIONAL<k>.<m>` that ends the text. */
  lemma StepRefWhole(k: string, d: string, newNum: string)
    requires IsDigits(d)
    ensures RewriteSteps(ProvisionalMarker + k + "." + d, k, newNum) == newNum + "." + d
  {
    var s := ProvisionalMarker + k + "." + d;
    var m := |ProvisionalMarker| + |k| + 1;
    assert s[0..m] == ProvisionalMarker + k + ".";
    assert s[m..] == d;
    DigitRunAll(d);
    assert WordBoundary(s, 0);
    assert StepRefAt(s, k, 0) == Some(m);
    assert RewriteStepsFrom(s, k, newNum, m + |d|) == [];
    assert RewriteSteps(s, k, newNum) == newNum + "." + d + [];
  }

  /** A string of digits is its own maximal digit run. */
  lemma {:induction false} DigitRunAll(d: string)
    requires forall i :: 0 <= i < |d| ==> IsDigit(d[i])
    ensures DigitRun(d) == d
    decreases |d|
  {
    if d != [] {
      DigitRunAll(d[1..]);
      assert d == [d[0]] + d[1..];
    }
  }

  // ------------------------------------------------ `<marker>(\d+)$`

  /** The maximal run of digits `s` ends with. */
  function TrailingDigits(s: string): (r: string)
    ensures |r| <= |s| && r == s[|s| - |r|..]
    ensures forall i :: 0 <= i < |r| ==> IsDigit(r[i])
    ensures |r| == |s| || !IsDigit(s[|s| - |r| - 1])
    decreases |s|
  {
    if s != [] && IsDigit(s[|s| - 1]) then TrailingDigits(s[..|s| - 1]) + [s[|s| - 1]] else []
  }

  /**
   * `re.search(marker + r'(\d+)$', s)` for a marker that does not end in a
   * digit: the digits that end the text (before one final newline), when
   * the marker comes right before them.
   */
  function NumberAfter(s: string, marker: string): Option<string>
  {
    var t := DropFinalNewline(s);
    var d := TrailingDigits(t);
    if d != [] && EndsWith(t[..|t| - |d|], marker) then Some(d) else None
  }

  lemma {:induction false} TrailingDigitsOf(pre: string, d: string)
    requires forall i :: 0 <= i < |d| ==> IsDigit(d[i])
    requires pre == [] || !IsDigit(pre[|pre| - 1])
    ensures TrailingDigits(pre + d) == d
    decreases |d|
  {
    var s := pre + d;
    if d == [] {
      assert s == pre;
      TrailingNone(pre);
    } else {
      var init := d[..|d| - 1];
      assert s[|s| - 1] == d[|d| - 1];
      TrailingStep(s);
      DropLast(pre, d);
      TrailingDigitsOf(pre, init);
      assert d == init + [d[|d| - 1]];
    }
  }

  lemma DropLast<T>(pre: seq<T>, d: seq<T>)
    requires d != []
    ensures (pre + d)[..|pre + d| - 1] == pre + d[..|d| - 1]
  {
  }

  lemma TrailingNone(s: string)
    requires s == [] || !IsDigit(s[|s| - 1])
    ensures TrailingDigits(s) == []
  {
  }

  lemma TrailingStep(s: string)
    requires s != [] && IsDigit(s[|s| - 1])
    ensures TrailingDigits(s) == TrailingDigits(s[..|s| - 1]) + [s[|s| - 1]]
  {
  }

  /** The number written after the marker is the one found. */
  lemma NumberAfterOf(pre: string, marker: string, d: string)
    requires marker != [] && !IsDigit(marker[|marker| - 1]) && IsDigits(d)
    ensures NumberAfter(pre + marker + d, marker) == Some(d)
  {
    var a := pre + marker;
    Pieces(a, d);
    Pieces(pre, marker);
    assert IsDigit(d[|d| - 1]);
    TrailingDigitsOf(a, d);
    NumberAfterPlain(a + d, marker, d);
  }

  lemma NumberAfterPlain(s: string, marker: string, d: string)
    requires s != [] && s[|s| - 1] != '\n'
    requires TrailingDigits(s) == d && d != [] && EndsWith(s[..|s| - |d|], marker)
    ensures NumberAfter(s, marker) == Some(d)
  {
  }

  /** The last element and the two parts of a concatenation. */
  lemma Pieces<T>(a: seq<T>, b: seq<T>)
    requires b != []
    ensures (a + b)[|a + b| - 1] == b[|b| - 1] && (a + b)[..|a + b| - |b|] == a && (a + b)[|a|..] == b
  {
  }

  /** `SACC-PROVISIONAL101` gives `101`; `SACC-17` gives `17`. */
  lemma ProvisionalAndFinalNumbers(t: string, digits: string, n: nat)
    requires IsDigits(digits)
    ensures NumberAfter(t + "-" + ProvisionalMarker + digits, ProvisionalMarker) == Some(digits)
    ensures NumberAfter(t + "-" + NatToString(n), "-") == Some(NatToString(n))
  {
    assert t + "-" + ProvisionalMarker + digits == (t + "-") + ProvisionalMarker + digits;
    NumberAfterOf(t + "-", ProvisionalMarker, digits);
    NumberAfterOf(t, "-", NatToString(n));
  }

  // ------------------------------------------------ target file name

  /** The last position of `c` in `s`. */
  function RFind(s: string, c: char): (r: Option<nat>)
    ensures r.Some? ==> r.value < |s| && s[r.value] == c && c !in s[r.value + 1..]
    ensures r.None? ==> c !in s
    decreases |s|
  {
    if s == [] then None
    else if s[|s| - 1] == c then Some(|s| - 1)
    else
      var r := RFind(s[..|s| - 1], c);
      assert s == s[..|s| - 1] + [s[|s| - 1]];
      r
  }

  /**
   * `PurePath(name).stem` and `.suffix`: the suffix starts at the last dot
   * when that dot is neither the first nor the last character.
   */
  function StemAndSuffix(name: string): (r: (string, string))
    ensures r.0 + r.1 == name
    ensures r.1 == [] || (r.1[0] == '.' && '.' !in r.1[1..] && |r.1| > 1 && r.0 != [])
  {
    match RFind(name, '.')
    case Some(i) =>
      if 0 < i < |name| - 1 then
        assert name == name[..i] + name[i..];
        (name[..i], name[i..])
      else (name, "")
    case None => (name, "")
  }

  /** The first position from `p` where `w` occurs as a whole word. */
  function FindWord(s: string, w: string, p: nat): (r: Option<nat>)
    requires p <= |s|
    ensures r.Some? ==> p <= r.value < |s| && WordAt(s, w, r.value) && NoWordIn(s, w, p, r.value)
    ensures r.None? ==> NoWordFrom(s, w, p)
    decreases |s| - p
  {
    if p == |s| then None
    else if WordAt(s, w, p) then Some(p)
    else FindWord(s, w, p + 1)
  }

  /** The mapping's provisional IDs are never empty. */
  predicate KeysNonEmpty(mapping: seq<(string, string)>)
  {
    forall i :: 0 <= i < |mapping| ==> mapping[i].0 != []
  }

  /**
   * The stem after the first-listed mapping entry that occurs in it as a
   * whole word has been replaced; later entries are not tried.
   */
  function SubstituteFirst(stem: string, mapping: seq<(string, string)>): string
    requires KeysNonEmpty(mapping)
  {
    if mapping == [] then stem
    else if FindWord(stem, mapping[0].0, 0).Some? then ReplaceWord(stem, mapping[0].0, mapping[0].1)
    else SubstituteFirst(stem, mapping[1..])
  }

  /** An entry none of whose predecessors occurs decides the stem. */
  lemma {:induction false} SubstituteFirstIs(stem: string, mapping: seq<(string, string)>, k: nat)
    requires KeysNonEmpty(mapping) && k < |mapping| && FindWord(stem, mapping[k].0, 0).Some?
    requires forall j :: 0 <= j < k ==> FindWord(stem, mapping[j].0, 0).None?
    ensures SubstituteFirst(stem, mapping) == ReplaceWord(stem, mapping[k].0, mapping[k].1)
    decreases k
  {
    if k > 0 {
      assert FindWord(stem, mapping[0].0, 0).None?;
      SubstituteFirstIs(stem, mapping[1..], k - 1);
    }
  }

  /** No entry occurring, the stem is kept. */
  lemma {:induction false} SubstituteNone(stem: string, mapping: seq<(string, string)>)
    requires KeysNonEmpty(mapping)
    requires forall j :: 0 <= j < |mapping| ==> FindWord(stem, mapping[j].0, 0).None?
    ensures SubstituteFirst(stem, mapping) == stem
    decreases |mapping|
  {
    if mapping != [] {
      assert FindWord(stem, mapping[0].0, 0).None?;
      SubstituteNone(stem, mapping[1..]);
    }
  }

  /** `[a-z0-9]` */
  predicate IsLowerAlnum(c: char)
  {
    ('a' <= c <= 'z') || IsDigit(c)
  }

  /** The length of the run of characters outside `[a-z0-9]` that `s` starts with. */
  function OtherRun(s: string): (r: nat)
    ensures r <= |s| && (forall k :: 0 <= k < r ==> !IsLowerAlnum(s[k])) && (r == |s| || IsLowerAlnum(s[r]))
  {
    if s != [] && !IsLowerAlnum(s[0]) then 1 + OtherRun(s[1..]) else 0
  }

  /** `re.sub(r'[^a-z0-9]+', '_', s)`: each maximal run of other characters becomes one `_`. */
  function Collapse(s: string): (r: string)
    ensures SuffixForm(r)
    ensures s == [] <==> r == []
    ensures s != [] && IsLowerAlnum(s[0]) ==> r[0] == s[0]
    ensures s != [] && !IsLowerAlnum(s[0]) ==> r[0] == '_'
    decreases |s|
  {
    if s == [] then []
    else if IsLowerAlnum(s[0]) then [s[0]] + Collapse(s[1..])
    else "_" + Collapse(s[OtherRun(s)..])
  }

  /** Only `[a-z0-9_]`, and no two underscores side by side. */
  predicate SuffixForm(s: string)
  {
    (forall i :: 0 <= i < |s| ==> IsLowerAlnum(s[i]) || s[i] == '_')
    && (forall i :: 0 <= i < |s| - 1 ==> !(s[i] == '_' && s[i + 1] == '_'))
  }

  /** In suffix form, an underscore not at the end is a run of one. */
  lemma OneOther(s: string)
    requires SuffixForm(s) && s != [] && s[|s| - 1] != '_' && !IsLowerAlnum(s[0])
    ensures OtherRun(s) == 1
  {
    assert |s| > 1 && IsLowerAlnum(s[1]);
    assert OtherRun(s[1..]) == 0;
  }

  /** `s.strip().lower()`, runs collapsed, outer underscores stripped. */
  function Sanitize(s: string): string
  {
    StripChar(Collapse(Lower(Strip(s))), '_')
  }

  /** The characters of a string already in suffix form map to themselves. */
  lemma {:induction false} CollapseFixed(s: string)
    requires SuffixForm(s) && (s == [] || s[|s| - 1] != '_')
    ensures Collapse(s) == s
    decreases |s|
  {
    if s != [] {
      var t := s[1..];
      assert SuffixForm(t) by {
        assert forall i :: 0 <= i < |t| ==> t[i] == s[i + 1];
      }
      CollapseFixed(t);
      if IsLowerAlnum(s[0]) {
        assert s == [s[0]] + t;
      } else {
        OneOther(s);
        assert s == "_" + t;
      }
    }
  }

  lemma StripCharKeepsForm(s: string)
    requires SuffixForm(s)
    ensures SuffixForm(StripChar(s, '_'))
  {
    var l := LStripChar(s, '_');
    assert SuffixForm(l) by {
      assert forall i :: 0 <= i < |l| ==> l[i] == s[|s| - |l| + i];
    }
    var r := RStripChar(l, '_');
    assert forall i :: 0 <= i < |r| ==> r[i] == l[i];
  }

  /** A sanitised suffix holds only `[a-z0-9_]`, never `__`, and no `_` at either end. */
  lemma SanitizeForm(s: string)
    ensures SuffixForm(Sanitize(s))
    ensures Sanitize(s) == [] || (Sanitize(s)[0] != '_' && Sanitize(s)[|Sanitize(s)| - 1] != '_')
  {
    var c := Collapse(Lower(Strip(s)));
    StripCharKeepsForm(c);
    var l := LStripChar(c, '_');
    var r := RStripChar(l, '_');
    if r != [] {
      assert r[0] == l[0];
    }
  }

  /** A string in suffix form without outer underscores sanitises to itself. */
  lemma SanitizeFixed(t: string)
    requires SuffixForm(t) && (t == [] || (t[0] != '_' && t[|t| - 1] != '_'))
    ensures Sanitize(t) == t
  {
    SuffixStripped(t);
    SuffixLower(t);
    CollapseFixed(t);
    UnderscoresFixed(t);
  }

  lemma SuffixStripped(t: string)
    requires SuffixForm(t)
    ensures Strip(t) == t
  {
    assert Trimmed(t);
    TrimmedStrip(t);
  }

  lemma SuffixLower(t: string)
    requires SuffixForm(t)
    ensures Lower(t) == t
  {
    assert forall i :: 0 <= i < |t| ==> LowerChar(t[i]) == t[i];
  }

  lemma UnderscoresFixed(t: string)
    requires t == [] || (t[0] != '_' && t[|t| - 1] != '_')
    ensures StripChar(t, '_') == t
  {
    assert LStripChar(t, '_') == t;
    assert RStripChar(t, '_') == t;
  }

  /** Sanitising a sanitised suffix changes nothing. */
  lemma SanitizeIdempotent(s: string)
    ensures Sanitize(Sanitize(s)) == Sanitize(s)
  {
    SanitizeForm(s);
    SanitizeFixed(Sanitize(s));
  }

  /**
   * `_generate_target_filename` on the provisional file's name: the stem
   * with the first occurring provisional ID replaced, then `_<suffix>` when
   * the sanitised suffix is not empty, then the extension.
   */
  function TargetFilename(name: string, mapping: seq<(string, string)>, suffix: Option<string>): string
    requires KeysNonEmpty(mapping)
  {
    var (stem, ext) := StemAndSuffix(name);
    var newStem := SubstituteFirst(stem, mapping);
    if suffix.Some? && Sanitize(suffix.value) != [] then newStem + "_" + Sanitize(suffix.value) + ext
    else newStem + ext
  }

  method GenerateTargetFilename(name: string, mapping: seq<(string, string)>, suffix: Option<string>) returns (r: string)
    requires KeysNonEmpty(mapping)
    ensures r == TargetFilename(name, mapping, suffix)
  {
    var (stem, ext) := StemAndSuffix(name);
    var target := stem;
    var i := 0;
    while i < |mapping|
      invariant i <= |mapping|
      invariant SubstituteFirst(stem, mapping) == SubstituteFirst(stem, mapping[i..])
    {
      var (provisional, final) := mapping[i];
      if FindWord(stem, provisional, 0).Some? {
        target := ReplaceWord(stem, provisional, final);
        break;
      }
      assert mapping[i..][1..] == mapping[i + 1..];
      i := i + 1;
    }
    if i == |mapping| {
      assert mapping[i..] == [];
    }
    if suffix.Some? {
      var s := Sanitize(suffix.value);
      if s != [] {
        target := target + "_" + s;
      }
    }
    return target + ext;
  }

  /** The target keeps the provisional file's extension. */
  lemma TargetKeepsExtension(name: string, mapping: seq<(string, string)>, suffix: Option<string>)
    requires KeysNonEmpty(mapping)
    ensures EndsWith(TargetFilename(name, mapping, suffix), StemAndSuffix(name).1)
  {
    var (stem, ext) := StemAndSuffix(name);
    var newStem := SubstituteFirst(stem, mapping);
    if suffix.Some? && Sanitize(suffix.value) != [] {
      EndsWithConcat(newStem + "_" + Sanitize(suffix.value), ext);
    } else {
      EndsWithConcat(newStem, ext);
    }
  }

  lemma EndsWithConcat(a: string, b: string)
    ensures EndsWith(a + b, b)
  {
    assert (a + b)[|a|..] == b;
  }

  /** With no provisional ID in the stem and no suffix, the name is kept. */
  lemma TargetUnchanged(name: string, mapping: seq<(string, string)>)
    requires KeysNonEmpty(mapping)
    requires forall j :: 0 <= j < |mapping| ==> FindWord(StemAndSuffix(name).0, mapping[j].0, 0).None?
    ensures TargetFilename(name, mapping, None) == name
  {
    SubstituteNone(StemAndSuffix(name).0, mapping);
  }

  // ------------------------------------------------ finalised content

  const Version := "0.1.0"

  /** `get_version_footer` */
  function VersionFooter(): string
  {
    "\n\n<!-- ReSpecT v" + Version + " -->"
  }

  /** What `finalize_provisional_file` writes: the text right-stripped, then the footer. */
  function FinalContent(updated: string): (r: string)
    ensures StartsWith(r, RStrip(updated)) && EndsWith(r, VersionFooter())
  {
    var r := RStrip(updated) + VersionFooter();
    assert r[..|RStrip(updated)|] == RStrip(updated);
    assert r[|r| - |VersionFooter()|..] == VersionFooter();
    r
  }

  /** The footer is added once: what precedes it is the content without trailing whitespace. */
  lemma FinalContentParts(updated: string)
    ensures FinalContent(updated)[..|FinalContent(updated)| - |VersionFooter()|] == RStrip(updated)
  {
  }

  /** `mapping[i]` is the first entry whose new ID starts with `<t>-`. */
  predicate FirstOfType(mapping: seq<(string, string)>, t: string, i: int)
  {
    0 <= i < |mapping| && StartsWith(mapping[i].1, t + "-")
    && forall j :: 0 <= j < i ==> !StartsWith(mapping[j].1, t + "-")
  }

  /**
   * The main artifact's final ID in `finalize_provisional_file`: the first
   * mapped ID, in mapping order, that starts with `<type>-`.
   */
  function MainArtifactId(mapping: seq<(string, string)>, t: string): (r: Option<string>)
    ensures r.Some? ==> StartsWith(r.value, t + "-")
    ensures r.Some? ==> exists i :: FirstOfType(mapping, t, i) && mapping[i].1 == r.value
    ensures r.None? ==> forall i :: 0 <= i < |mapping| ==> !StartsWith(mapping[i].1, t + "-")
  {
    if mapping == [] then None
    else if StartsWith(mapping[0].1, t + "-") then Some(mapping[0].1)
    else
      var r := MainArtifactId(mapping[1..], t);
      assert forall i :: 1 <= i < |mapping| ==> mapping[i] == mapping[1..][i - 1];
      if r.Some? then
        var i :| FirstOfType(mapping[1..], t, i) && mapping[1..][i].1 == r.value;
        assert FirstOfType(mapping, t, i + 1);
        r
      else r
  }

  /** The loop of `finalize_provisional_file` over the mapping, stopping at the first ID of type `t`. */
  method FindMainArtifactId(mapping: seq<(string, string)>, t: string) returns (r: Option<string>)
    ensures r == MainArtifactId(mapping, t)
  {
    var i := 0;
    while i < |mapping|
      invariant i <= |mapping|
      invariant MainArtifactId(mapping, t) == MainArtifactId(mapping[i..], t)
    {
      if StartsWith(mapping[i].1, t + "-") {
        return Some(mapping[i].1);
      }
      assert mapping[i..][1..] == mapping[i + 1..];
      i := i + 1;
    }
    assert mapping[i..] == [];
    return None;
  }
}
