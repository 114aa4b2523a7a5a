/**
 * Artifact headers: recognising an artifact's title line against the
 * configured header formats, reading the block of system-managed
 * `` `Label`: value `` lines that follows it, and rewriting that block with
 * atomic or list updates.
 */
module HeaderCodec {

  import opened Wrappers
  import opened Text
  import opened TypeRegistry

  // ------------------------------------------------------------ header formats

  /**
   * A header format compiled to a pattern: literal characters, `{id}` as
   * `(\d+)` and `{description}` as `(.+)`.
   */
  datatype Seg = Char(c: char) | IdSlot | DescSlot

  const IdPlaceholder := "{id}"
  const DescPlaceholder := "{description}"

  /** Escaping the format and replacing both placeholders, read left to right. */
  function Segments(fmt: string): seq<Seg>
    decreases |fmt|
  {
    if fmt == [] then []
    else if StartsWith(fmt, IdPlaceholder) then [IdSlot] + Segments(fmt[|IdPlaceholder|..])
    else if StartsWith(fmt, DescPlaceholder) then [DescSlot] + Segments(fmt[|DescPlaceholder|..])
    else [Char(fmt[0])] + Segments(fmt[1..])
  }

  /** The length of the leading run of ASCII digits. */
  function DigitCount(s: string): (n: nat)
    ensures n <= |s| && (forall i :: 0 <= i < n ==> IsDigit(s[i])) && (n == |s| || !IsDigit(s[n]))
  {
    if s != [] && IsDigit(s[0]) then 1 + DigitCount(s[1..]) else 0
  }

  /** The length of the leading run without a line break, what `.` may cover. */
  function LineCount(s: string): (n: nat)
    ensures n <= |s| && (forall i :: 0 <= i < n ==> s[i] != '\n') && (n == |s| || s[n] == '\n')
  {
    if s != [] && s[0] != '\n' then 1 + LineCount(s[1..]) else 0
  }

  /** The longest run a slot may take at the front of `s`. */
  function SlotMax(seg: Seg, s: string): nat
  {
    if seg == IdSlot then DigitCount(s) else LineCount(s)
  }

  /**
   * `re.match`: the groups of the first match of `segs` at the start of `s`,
   * trying each slot's longest run first and backtracking one character at a
   * time, as the regular-expression engine does.
   */
  function Match(segs: seq<Seg>, s: string): Option<seq<string>>
    decreases |segs|, |s| + 1
  {
    if segs == [] then Some([])
    else match segs[0]
      case Char(c) => if s != [] && s[0] == c then Match(segs[1..], s[1..]) else None
      case IdSlot => Greedy(segs[1..], s, DigitCount(s))
      case DescSlot => Greedy(segs[1..], s, LineCount(s))
  }

  /** A slot taking `n`, then `n - 1`, ... down to one character. */
  function Greedy(rest: seq<Seg>, s: string, n: nat): Option<seq<string>>
    requires n <= |s|
    decreases |rest| + 1, n
  {
    if n == 0 then None
    else match Match(rest, s[n..])
      case Some(g) => Some([s[..n]] + g)
      case None => Greedy(rest, s, n - 1)
  }

  /** What a slot's group holds: one or more digits for `{id}`, one or more characters of one line for `{description}`. */
  predicate SlotValue(seg: Seg, v: string)
  {
    v != [] && (if seg == IdSlot then forall i :: 0 <= i < |v| ==> IsDigit(v[i]) else '\n' !in v)
  }

  /** Groups that fit the slots of `segs`, one per slot. */
  predicate Fits(segs: seq<Seg>, g: seq<string>)
    decreases |segs|
  {
    if segs == [] then g == []
    else if segs[0].Char? then Fits(segs[1..], g)
    else g != [] && SlotValue(segs[0], g[0]) && Fits(segs[1..], g[1..])
  }

  /** The text `segs` spells with `g` in its slots. */
  function Spell(segs: seq<Seg>, g: seq<string>): string
    requires Fits(segs, g)
    decreases |segs|
  {
    if segs == [] then []
    else if segs[0].Char? then [segs[0].c] + Spell(segs[1..], g)
    else g[0] + Spell(segs[1..], g[1..])
  }

  /** A match found is a way to spell a prefix of the text. */
  lemma {:induction false} MatchSound(segs: seq<Seg>, s: string)
    requires Match(segs, s).Some?
    ensures var g := Match(segs, s).value; Fits(segs, g) && StartsWith(s, Spell(segs, g))
    decreases |segs|, |s| + 1
  {
    if segs != [] {
      match segs[0]
      case Char(c) =>
        MatchSound(segs[1..], s[1..]);
      case IdSlot =>
        GreedySound(segs[0], segs[1..], s, DigitCount(s));
      case DescSlot =>
        GreedySound(segs[0], segs[1..], s, LineCount(s));
    }
  }

  lemma {:induction false} GreedySound(seg: Seg, rest: seq<Seg>, s: string, n: nat)
    requires !seg.Char? && n <= SlotMax(seg, s) && Greedy(rest, s, n).Some?
    ensures var g := Greedy(rest, s, n).value;
      Fits([seg] + rest, g) && StartsWith(s, Spell([seg] + rest, g))
    decreases |rest| + 1, n
  {
    var segs := [seg] + rest;
    assert segs[1..] == rest;
    match Match(rest, s[n..])
    case Some(g) =>
      MatchSound(rest, s[n..]);
      assert SlotValue(seg, s[..n]);
      assert s == s[..n] + s[n..];
    case None =>
      GreedySound(seg, rest, s, n - 1);
  }

  /** Any way to spell a prefix of one line is found: the match succeeds exactly when one exists. */
  lemma {:induction false} MatchComplete(segs: seq<Seg>, g: seq<string>, s: string)
    requires Fits(segs, g) && StartsWith(s, Spell(segs, g))
    ensures Match(segs, s).Some?
    decreases |segs|
  {
    if segs != [] {
      var w := Spell(segs, g);
      match segs[0]
      case Char(c) =>
        assert s[1..][..|w| - 1] == w[1..];
        MatchComplete(segs[1..], g, s[1..]);
      case IdSlot =>
        SlotComplete(segs, g, s);
      case DescSlot =>
        SlotComplete(segs, g, s);
    }
  }

  lemma SlotComplete(segs: seq<Seg>, g: seq<string>, s: string)
    requires segs != [] && !segs[0].Char? && Fits(segs, g) && StartsWith(s, Spell(segs, g))
    ensures Greedy(segs[1..], s, SlotMax(segs[0], s)).Some?
    decreases |segs|, 0
  {
    var v := g[0];
    var m := |v|;
    var w := Spell(segs, g);
    assert w == v + Spell(segs[1..], g[1..]);
    assert s[..m] == v;
    assert s[m..][..|w| - m] == Spell(segs[1..], g[1..]);
    MatchComplete(segs[1..], g[1..], s[m..]);
    if segs[0] == IdSlot {
      assert forall i :: 0 <= i < m ==> IsDigit(s[i]);
      DigitsReach(s, m);
    } else {
      assert forall i :: 0 <= i < m ==> s[i] != '\n' by {
        forall i | 0 <= i < m ensures s[i] != '\n' { assert s[i] == v[i]; }
      }
      LineReach(s, m);
    }
    GreedyFinds(segs[1..], s, SlotMax(segs[0], s), m);
  }

  lemma {:induction false} DigitsReach(s: string, m: nat)
    requires m <= |s| && forall i :: 0 <= i < m ==> IsDigit(s[i])
    ensures m <= DigitCount(s)
    decreases m
  {
    if m > 0 {
      DigitsReach(s[1..], m - 1);
    }
  }

  lemma {:induction false} LineReach(s: string, m: nat)
    requires m <= |s| && forall i :: 0 <= i < m ==> s[i] != '\n'
    ensures m <= LineCount(s)
    decreases m
  {
    if m > 0 {
      LineReach(s[1..], m - 1);
    }
  }

  lemma {:induction false} GreedyFinds(rest: seq<Seg>, s: string, n: nat, m: nat)
    requires 1 <= m <= n <= |s| && Match(rest, s[m..]).Some?
    ensures Greedy(rest, s, n).Some?
    decreases n
  {
    if n > m && Match(rest, s[n..]).None? {
      GreedyFinds(rest, s, n - 1, m);
    }
  }

  // ------------------------------------------------------------ title line

  datatype HeaderError =
    | NoIdGroup(artifactType: string)   // a format without a placeholder matched: `match.group(1)` does not exist
    | NoHeaderLine                      // the content has no header line to update
    | TypeNotDetected                   // no header format recognises the header line

  /** The pattern of type `t`'s header format; empty for a type without one. */
  function FormatOf(reg: Registry, t: string): string
  {
    if t in reg.types then reg.types[t].headerFormat else ""
  }

  /** Type `t` has a header format and it matches the start of `line`. */
  predicate Recognises(reg: Registry, t: string, line: string)
  {
    FormatOf(reg, t) != [] && Match(Segments(FormatOf(reg, t)), line).Some?
  }

  /** The loop over the configured types, in declaration order, from the first of `codes`. */
  function ExtractFrom(reg: Registry, codes: seq<string>, line: string): Result<Option<(string, string)>, HeaderError>
    decreases |codes|
  {
    if codes == [] then Success(None)
    else if !Recognises(reg, codes[0], line) then ExtractFrom(reg, codes[1..], line)
    else
      var g := Match(Segments(FormatOf(reg, codes[0])), line).value;
      if g == [] then Failure(NoIdGroup(codes[0]))
      else Success(Some((codes[0], codes[0] + "-" + g[0])))
  }

  /** The stripped first line of the stripped content. */
  function FirstLine(content: string): (r: string)
    ensures '\n' !in r && Strip(r) == r
  {
    var r := Strip(Split(Strip(content), '\n')[0]);
    StripKeepsOut(Split(Strip(content), '\n')[0], '\n');
    StripIdempotent(Split(Strip(content), '\n')[0]);
    r
  }

  /** `extract_artifact_type_and_id`. */
  function ExtractTypeAndId(reg: Registry, content: string): Result<Option<(string, string)>, HeaderError>
  {
    ExtractFrom(reg, reg.order, FirstLine(content))
  }

  /** The first of `codes` whose format recognises `line`. */
  function FirstRecogniser(reg: Registry, codes: seq<string>, line: string): (r: Option<nat>)
    ensures r.Some? ==> (r.value < |codes| && Recognises(reg, codes[r.value], line)
      && forall k :: 0 <= k < r.value ==> !Recognises(reg, codes[k], line))
    ensures r.None? ==> forall k :: 0 <= k < |codes| ==> !Recognises(reg, codes[k], line)
    decreases |codes|
  {
    if codes == [] then None
    else if Recognises(reg, codes[0], line) then Some(0)
    else match FirstRecogniser(reg, codes[1..], line)
      case None => None
      case Some(k) => Some(k + 1)
  }

  /**
   * The result of the search: nothing when no format recognises the line;
   * otherwise the first recognising type and its first group, which is a
   * run of digits when `{id}` is the format's first placeholder, or an
   * error when its format has no placeholder at all.
   */
  lemma {:induction false} ExtractCharacterized(reg: Registry, codes: seq<string>, line: string)
    ensures FirstRecogniser(reg, codes, line).None? <==> ExtractFrom(reg, codes, line) == Success(None)
    ensures match FirstRecogniser(reg, codes, line)
      case None => true
      case Some(k) =>
        var g := Match(Segments(FormatOf(reg, codes[k])), line).value;
        Fits(Segments(FormatOf(reg, codes[k])), g)
        && StartsWith(line, Spell(Segments(FormatOf(reg, codes[k])), g))
        && ExtractFrom(reg, codes, line)
           == (if g == [] then Failure(NoIdGroup(codes[k])) else Success(Some((codes[k], codes[k] + "-" + g[0]))))
    decreases |codes|
  {
    if codes != [] {
      if Recognises(reg, codes[0], line) {
        MatchSound(Segments(FormatOf(reg, codes[0])), line);
      } else {
        ExtractCharacterized(reg, codes[1..], line);
      }
    }
  }

  /** What the first group is when the first placeholder of the format is `{id}`. */
  lemma IdGroupIsDigits(segs: seq<Seg>, g: seq<string>)
    requires Fits(segs, g) && IdSlot in segs
    requires forall k :: 0 <= k < |segs| && segs[k] == DescSlot ==> exists j :: 0 <= j < k && segs[j] == IdSlot
    ensures g != [] && g[0] != [] && forall i :: 0 <= i < |g[0]| ==> IsDigit(g[0][i])
    decreases |segs|
  {
    if segs[0].Char? {
      assert forall k :: 0 <= k < |segs[1..]| && segs[1..][k] == DescSlot ==> exists j :: 0 <= j < k && segs[1..][j] == IdSlot by {
        forall k | 0 <= k < |segs[1..]| && segs[1..][k] == DescSlot
          ensures exists j :: 0 <= j < k && segs[1..][j] == IdSlot
        {
          var j :| 0 <= j < k + 1 && segs[j] == IdSlot;
          assert j > 0;
          assert segs[1..][j - 1] == IdSlot;
        }
      }
      IdGroupIsDigits(segs[1..], g);
    } else if segs[0] == DescSlot {
      assert false;
    }
  }

  // ------------------------------------------------------------ managed items

  datatype ItemKind = Atomic | ListKind | OtherKind

  /** One entry of `managed_header_items`: its key, label, update kind and the types it applies to. */
  datatype HeaderItem = HeaderItem(key: string, labelText: string, kind: ItemKind, artifactTypes: seq<string>)

  /** `get_managed_headers_for_type`: the items that list type `t`, in configuration order. */
  function ManagedHeadersFor(items: seq<HeaderItem>, t: string): (r: seq<HeaderItem>)
    ensures forall it :: it in r <==> it in items && t in it.artifactTypes
    ensures |r| <= |items|
  {
    if items == [] then []
    else
      var rest := ManagedHeadersFor(items[1..], t);
      assert forall it :: it in items <==> it == items[0] || it in items[1..] by {
        assert items == [items[0]] + items[1..];
      }
      if t in items[0].artifactTypes then [items[0]] + rest else rest
  }

  /** The filter keeps configuration order: it distributes over concatenation. */
  lemma {:induction false} ManagedHeadersConcat(a: seq<HeaderItem>, b: seq<HeaderItem>, t: string)
    ensures ManagedHeadersFor(a + b, t) == ManagedHeadersFor(a, t) + ManagedHeadersFor(b, t)
    decreases |a|
  {
    if a == [] {
      assert a + b == b;
    } else {
      assert (a + b)[0] == a[0] && (a + b)[1..] == a[1..] + b;
      ManagedHeadersConcat(a[1..], b, t);
    }
  }

  /** The label as it appears between backticks: `label.rstrip(':')`. */
  function ShownLabel(it: HeaderItem): string
  {
    RStripChar(it.labelText, ':')
  }

  /**
   * A configuration the block format can carry: item keys are distinct, and
   * every shown label is non-empty, free of backticks and line breaks, and
   * names one item only.
   */
  predicate WellFormed(items: seq<HeaderItem>)
    decreases |items|
  {
    items == []
    || (ShownLabel(items[0]) != [] && '`' !in ShownLabel(items[0]) && '\n' !in ShownLabel(items[0])
        && (forall it :: it in items[1..] ==> it.key != items[0].key && ShownLabel(it) != ShownLabel(items[0]))
        && WellFormed(items[1..]))
  }

  /** The items of one type form a well-formed configuration of their own. */
  lemma {:induction false} ManagedHeadersWellFormed(items: seq<HeaderItem>, t: string)
    requires WellFormed(items)
    ensures WellFormed(ManagedHeadersFor(items, t))
    decreases |items|
  {
    if items != [] {
      ManagedHeadersWellFormed(items[1..], t);
      var rest := ManagedHeadersFor(items[1..], t);
      if t in items[0].artifactTypes {
        var r := [items[0]] + rest;
        assert r[1..] == rest;
      }
    }
  }

  // ------------------------------------------------------------ the header block

  /**
   * The regular expression `` `([^`]+)`:\s*(.+) `` matched at the start of a
   * line without line breaks: the label runs to the next backtick, and the
   * value is the rest after the colon with leading whitespace skipped, or
   * its last character when the rest is whitespace only.
   */
  function LineHeader(line: string): (r: Option<(string, string)>)
    requires '\n' !in line
  {
    if |line| < 2 || line[0] != '`' then None
    else match IndexOf(line[1..], '`')
      case None => None
      case Some(k) => HeaderAfter(line, k + 1)
  }

  /** The rest of the pattern once the label's closing backtick is at `e`. */
  function HeaderAfter(line: string, e: nat): Option<(string, string)>
    requires 1 <= e < |line|
  {
    if e == 1 || |line| <= e + 2 || line[e + 1] != ':' then None
    else Some((line[1..e], ValueOf(line[e + 2..])))
  }

  /** What `\s*(.+)` leaves to the group: the text after leading whitespace, or the last character. */
  function ValueOf(rest: string): string
    requires rest != []
  {
    var v := LStrip(rest);
    if v == [] then [rest[|rest| - 1]] else v
  }

  /** The first item whose shown label is `label`. */
  function FindLabel(app: seq<HeaderItem>, shown: string): (r: Option<nat>)
    ensures r.Some? ==> (r.value < |app| && ShownLabel(app[r.value]) == shown
      && forall k :: 0 <= k < r.value ==> ShownLabel(app[k]) != shown)
    ensures r.None? ==> forall k :: 0 <= k < |app| ==> ShownLabel(app[k]) != shown
    decreases |app|
  {
    if app == [] then None
    else if ShownLabel(app[0]) == shown then Some(0)
    else match FindLabel(app[1..], shown)
      case None => None
      case Some(k) => Some(k + 1)
  }

  /** A stripped line read as a managed header: the item's key and the stripped value. */
  function HeaderOf(app: seq<HeaderItem>, line: string): Option<(string, string)>
    requires '\n' !in line
  {
    match LineHeader(line)
    case None => None
    case Some(lv) =>
      match FindLabel(app, lv.0)
      case None => None
      case Some(k) => Some((app[k].key, Strip(lv.1)))
  }

  /** A line the block takes in: blank, or a header of one of the items. */
  predicate Consumed(app: seq<HeaderItem>, line: string)
    requires '\n' !in line
  {
    Strip(line) == [] || HeaderOfLine(app, line).Some?
  }

  predicate NoBreaks(lines: seq<string>)
  {
    forall k :: 0 <= k < |lines| ==> '\n' !in lines[k]
  }

  /** `body_start_index`: the first line from `i` on that the block does not take in. */
  function StopIndex(app: seq<HeaderItem>, lines: seq<string>, i: nat): (r: nat)
    requires i <= |lines| && NoBreaks(lines)
    ensures i <= r <= |lines|
    ensures forall k :: i <= k < r ==> Consumed(app, lines[k])
    ensures r < |lines| ==> !Consumed(app, lines[r])
    decreases |lines| - i
  {
    if i == |lines| || !Consumed(app, lines[i]) then i else StopIndex(app, lines, i + 1)
  }

  /** A block line, stripped, read as a managed header. */
  function HeaderOfLine(app: seq<HeaderItem>, line: string): Option<(string, string)>
    requires '\n' !in line
  {
    StripKeepsOut(line, '\n');
    HeaderOf(app, Strip(line))
  }

  /** What each line of a block holds as a managed header. */
  function Found(app: seq<HeaderItem>, block: seq<string>): (r: seq<Option<(string, string)>>)
    requires NoBreaks(block)
    ensures |r| == |block| && forall i :: 0 <= i < |block| ==> r[i] == HeaderOfLine(app, block[i])
  {
    seq(|block|, i requires 0 <= i < |block| => HeaderOfLine(app, block[i]))
  }

  /** The map the headers build, a later header for the same key winning. */
  function Gather(hs: seq<Option<(string, string)>>): map<string, string>
  {
    if hs == [] then map[]
    else
      var m := Gather(hs[..|hs| - 1]);
      match hs[|hs| - 1]
      case None => m
      case Some(kv) => m[kv.0 := kv.1]
  }

  /** The headers collected from a block. */
  function Collect(app: seq<HeaderItem>, block: seq<string>): map<string, string>
    requires NoBreaks(block)
  {
    Gather(Found(app, block))
  }

  /** What `parse_managed_headers` returns. */
  datatype Parsed = Parsed(headerLine: string, headers: map<string, string>, body: string)

  /** The lines `parse_managed_headers` works on. */
  function Lines(content: string): (r: seq<string>)
    ensures |r| >= 1 && NoBreaks(r)
  {
    Split(Strip(content), '\n')
  }

  /**
   * `parse_managed_headers`: the header line; then, when a type is detected,
   * the headers of the block that follows it and the lines after the block;
   * otherwise no headers and every line after the header line.
   */
  function Parse(reg: Registry, items: seq<HeaderItem>, content: string): Result<Parsed, HeaderError>
  {
    var lines := Lines(content);
    var h := Strip(lines[0]);
    match ExtractTypeAndId(reg, content)
    case Failure(e) => Failure(e)
    case Success(None) => Success(Parsed(h, map[], Join(lines[1..], '\n')))
    case Success(Some(ti)) =>
      var block := BlockOf(ManagedHeadersFor(items, ti.0), lines);
      Success(Parsed(h, block.0, block.1))
  }

  /** The headers of the block after the first line, and the lines after the block. */
  function BlockOf(app: seq<HeaderItem>, lines: seq<string>): (map<string, string>, string)
    requires |lines| >= 1 && NoBreaks(lines)
  {
    var stop := StopIndex(app, lines, 1);
    NoBreaksSlice(lines, 1, stop);
    (Collect(app, lines[1..stop]), Join(lines[stop..], '\n'))
  }

  lemma NoBreaksSlice(lines: seq<string>, i: nat, j: nat)
    requires i <= j <= |lines| && NoBreaks(lines)
    ensures NoBreaks(lines[i..j])
  {
    assert forall k :: 0 <= k < j - i ==> lines[i..j][k] == lines[i + k];
  }

  /** The headers found after taking in one more block line. */
  lemma CollectStep(app: seq<HeaderItem>, lines: seq<string>, i: nat)
    requires 1 <= i < |lines| && NoBreaks(lines)
    ensures NoBreaks(lines[1..i]) && NoBreaks(lines[1..i + 1])
    ensures Collect(app, lines[1..i + 1]) == match HeaderOfLine(app, lines[i])
      case None => Collect(app, lines[1..i])
      case Some(kv) => Collect(app, lines[1..i])[kv.0 := kv.1]
  {
    NoBreaksSlice(lines, 1, i);
    NoBreaksSlice(lines, 1, i + 1);
    var b := lines[1..i];
    assert lines[1..i + 1] == b + [lines[i]];
    FoundSnoc(app, b, lines[i]);
    GatherSnoc(Found(app, b), HeaderOfLine(app, lines[i]));
  }

  lemma FoundSnoc(app: seq<HeaderItem>, block: seq<string>, line: string)
    requires NoBreaks(block) && '\n' !in line
    ensures NoBreaks(block + [line])
    ensures Found(app, block + [line]) == Found(app, block) + [HeaderOfLine(app, line)]
  {
    assert forall k :: 0 <= k < |block| ==> (block + [line])[k] == block[k];
    assert (block + [line])[|block|] == line;
  }

  /** `extract_artifact_type_and_id`, the loop over the configured types. */
  method DetectType(reg: Registry, content: string) returns (r: Result<Option<(string, string)>, HeaderError>)
    ensures r == ExtractTypeAndId(reg, content)
  {
    var line := FirstLine(content);
    var i := 0;
    while i < |reg.order|
      invariant 0 <= i <= |reg.order|
      invariant ExtractFrom(reg, reg.order[i..], line) == ExtractFrom(reg, reg.order, line)
    {
      var t := reg.order[i];
      var fmt := FormatOf(reg, t);
      if fmt != [] {
        var m := Match(Segments(fmt), line);
        if m.Some? {
          if m.value == [] {
            return Failure(NoIdGroup(t));
          }
          return Success(Some((t, t + "-" + m.value[0])));
        }
      }
      assert reg.order[i..][1..] == reg.order[i + 1..];
      i := i + 1;
    }
    return Success(None);
  }

  /** The search of the applicable items for a label. */
  method FindItem(app: seq<HeaderItem>, shown: string) returns (r: Option<nat>)
    ensures r == FindLabel(app, shown)
  {
    var i := 0;
    while i < |app|
      invariant 0 <= i <= |app|
      invariant forall k :: 0 <= k < i ==> ShownLabel(app[k]) != shown
    {
      if ShownLabel(app[i]) == shown {
        return Some(i);
      }
      i := i + 1;
    }
    return None;
  }

  /** `parse_managed_headers`. */
  method ParseManagedHeaders(reg: Registry, items: seq<HeaderItem>, content: string) returns (r: Result<Parsed, HeaderError>)
    ensures r == Parse(reg, items, content)
  {
    var lines := Lines(content);
    var h := Strip(lines[0]);
    var info := DetectType(reg, content);
    if info.Failure? {
      return Failure(info.error);
    }
    if info.value.None? {
      return Success(Parsed(h, map[], Join(lines[1..], '\n')));
    }
    var headers, bodyStart := ScanBlock(ManagedHeadersFor(items, info.value.value.0), lines);
    return Success(Parsed(h, headers, Join(lines[bodyStart..], '\n')));
  }

  /** The loop of `parse_managed_headers` that advances `body_start_index`. */
  method ScanBlock(app: seq<HeaderItem>, lines: seq<string>) returns (headers: map<string, string>, bodyStart: nat)
    requires |lines| >= 1 && NoBreaks(lines)
    ensures bodyStart == StopIndex(app, lines, 1) && (headers, Join(lines[bodyStart..], '\n')) == BlockOf(app, lines)
  {
    headers := map[];
    bodyStart := 1;
    var i := 1;
    NoBreaksSlice(lines, 1, 1);
    while i < |lines|
      invariant 1 <= i <= |lines| && bodyStart == i
      invariant StopIndex(app, lines, 1) == StopIndex(app, lines, i)
      invariant NoBreaks(lines[1..i]) && headers == Collect(app, lines[1..i])
    {
      CollectStep(app, lines, i);
      StopStep(app, lines, i);
      var blank, kv := ReadLine(app, lines[i]);
      if !blank {
        if kv.None? {
          break;
        }
        headers := headers[kv.value.0 := kv.value.1];
      }
      bodyStart := i + 1;
      i := i + 1;
    }
  }

  /** One line of the block: is it blank, and which managed header does it hold. */
  method ReadLine(app: seq<HeaderItem>, raw: string) returns (blank: bool, kv: Option<(string, string)>)
    requires '\n' !in raw
    ensures blank <==> Strip(raw) == []
    ensures !blank ==> kv == HeaderOfLine(app, raw)
  {
    var line := Strip(raw);
    StripKeepsOut(raw, '\n');
    blank := line == [];
    kv := None;
    if !blank {
      var lh := LineHeader(line);
      if lh.Some? {
        var k := FindItem(app, lh.value.0);
        if k.Some? {
          kv := Some((app[k.value].key, Strip(lh.value.1)));
        }
      }
    }
  }

  lemma StopStep(app: seq<HeaderItem>, lines: seq<string>, i: nat)
    requires 1 <= i < |lines| && NoBreaks(lines)
    ensures Consumed(app, lines[i]) ==> StopIndex(app, lines, i) == StopIndex(app, lines, i + 1)
    ensures !Consumed(app, lines[i]) ==> StopIndex(app, lines, i) == i
  {
  }

  // ------------------------------------------------------------ what a parse finds

  /** A value the block format carries unchanged: non-empty, trimmed, on one line. */
  predicate Clean(v: string)
  {
    v != [] && Trimmed(v) && '\n' !in v
  }

  /** The keys of a list of items. */
  function Keys(app: seq<HeaderItem>): set<string>
  {
    set it | it in app :: it.key
  }

  /** The value group of a stripped line is clean. */
  lemma ValueClean(rest: string)
    requires rest != [] && !IsSpace(rest[|rest| - 1]) && '\n' !in rest
    ensures ValueOf(rest) == LStrip(rest) && Clean(LStrip(rest))
  {
    var v := LStrip(rest);
    if v == [] {
      assert false;
    }
    assert v[|v| - 1] == rest[|rest| - 1];
    StripKeepsOut(rest, '\n');
  }

  /** A header read from a stripped line has a clean value. */
  lemma LineHeaderClean(line: string)
    requires '\n' !in line && Trimmed(line) && LineHeader(line).Some?
    ensures Clean(LineHeader(line).value.1)
  {
    var e := IndexOf(line[1..], '`').value + 1;
    var rest := line[e + 2..];
    assert rest[|rest| - 1] == line[|line| - 1];
    SliceKeepsOut(line, e + 2, |line|, '\n');
    ValueClean(rest);
  }

  /** A managed header read from a block line names an applicable item and has a clean value. */
  lemma HeaderOfLineClean(app: seq<HeaderItem>, line: string)
    requires '\n' !in line && HeaderOfLine(app, line).Some?
    ensures HeaderOfLine(app, line).value.0 in Keys(app) && Clean(HeaderOfLine(app, line).value.1)
  {
    StripKeepsOut(line, '\n');
    var l := Strip(line);
    StripIsTrimmed(line);
    LineHeaderClean(l);
    var v := LineHeader(l).value.1;
    TrimmedStrip(v);
    var k := FindLabel(app, LineHeader(l).value.0).value;
    assert app[k] in app;
  }

  /** The map a run of headers builds has a key exactly when some header has it. */
  lemma {:induction false} GatherKeys(hs: seq<Option<(string, string)>>, key: string)
    ensures key in Gather(hs) <==> exists i :: 0 <= i < |hs| && hs[i].Some? && hs[i].value.0 == key
    decreases |hs|
  {
    if hs != [] {
      var n := |hs| - 1;
      var front := hs[..n];
      GatherKeys(front, key);
      assert forall i :: 0 <= i < n ==> front[i] == hs[i];
    }
  }

  /** The value a key has in the map a run of headers builds is the one of the last header with that key. */
  lemma {:induction false} GatherLast(hs: seq<Option<(string, string)>>, key: string)
    requires key in Gather(hs)
    ensures exists i ::
              0 <= i < |hs| && hs[i] == Some((key, Gather(hs)[key]))
              && forall j :: i < j < |hs| ==> hs[j].None? || hs[j].value.0 != key
    decreases |hs|
  {
    var n := |hs| - 1;
    var front := hs[..n];
    if hs[n].Some? && hs[n].value.0 == key {
      assert hs[n] == Some((key, Gather(hs)[key]));
    } else {
      assert Gather(hs)[key] == Gather(front)[key];
      GatherLast(front, key);
      var i :| 0 <= i < n && front[i] == Some((key, Gather(front)[key]))
        && forall j :: i < j < n ==> front[j].None? || front[j].value.0 != key;
      assert hs[i] == front[i];
      assert forall j :: i < j < n ==> hs[j] == front[j];
    }
  }

  /** The headers of a block name applicable items and have clean values. */
  lemma CollectClean(app: seq<HeaderItem>, block: seq<string>)
    requires NoBreaks(block)
    ensures forall key :: key in Collect(app, block) ==> key in Keys(app) && Clean(Collect(app, block)[key])
  {
    var hs := Found(app, block);
    forall key | key in Gather(hs) ensures key in Keys(app) && Clean(Gather(hs)[key]) {
      GatherLast(hs, key);
      var i :| 0 <= i < |hs| && hs[i] == Some((key, Gather(hs)[key]));
      HeaderOfLineClean(app, block[i]);
    }
  }

  // ------------------------------------------------------------ updates

  /** The applicable item with key `key`. */
  function ItemOf(app: seq<HeaderItem>, key: string): (r: Option<HeaderItem>)
    ensures r.Some? ==> r.value in app && r.value.key == key
    ensures r.None? ==> key !in Keys(app)
    decreases |app|
  {
    if app == [] then None
    else if app[0].key == key then Some(app[0])
    else
      assert forall it :: it in app ==> it == app[0] || it in app[1..] by {
        assert app == [app[0]] + app[1..];
      }
      ItemOf(app[1..], key)
  }

  /** `vals` appended to `acc` in order, each only when it is not already there. */
  function AppendNew(acc: seq<string>, vals: seq<string>): seq<string>
    decreases |vals|
  {
    if vals == [] then acc
    else
      var r := AppendNew(acc, vals[..|vals| - 1]);
      if vals[|vals| - 1] in r then r else r + [vals[|vals| - 1]]
  }

  /** A list header's merge: the existing values, then the new ones not among them, comma-joined. */
  function Merged(existing: string, added: string): string
  {
    Join(AppendNew(StripAll(Split(existing, ',')), StripAll(Split(added, ','))), ',')
  }

  /** One update applied to the header map. */
  function ApplyUpdate(app: seq<HeaderItem>, m: map<string, string>, key: string, v: string): map<string, string>
  {
    match ItemOf(app, key)
    case None => m
    case Some(it) =>
      match it.kind
      case Atomic => m[key := v]
      case ListKind => if key in m then m[key := Merged(m[key], v)] else m[key := v]
      case OtherKind => m
  }

  /** The updates applied one after another, in the order given. */
  function ApplyAll(app: seq<HeaderItem>, m: map<string, string>, ups: seq<(string, string)>): map<string, string>
    decreases |ups|
  {
    if ups == [] then m
    else
      var u := ups[|ups| - 1];
      ApplyUpdate(app, ApplyAll(app, m, ups[..|ups| - 1]), u.0, u.1)
  }

  /** An item's line in the rebuilt block. */
  function ItemLine(it: HeaderItem, v: string): string
  {
    "`" + ShownLabel(it) + "`: " + v
  }

  /** The lines of the present items, in configuration order. */
  function ItemLines(app: seq<HeaderItem>, m: map<string, string>): seq<string>
    decreases |app|
  {
    if app == [] then []
    else
      var it := app[|app| - 1];
      ItemLines(app[..|app| - 1], m) + (if it.key in m then [ItemLine(it, m[it.key])] else [])
  }

  /** The rebuilt content: header line, item lines, and the body when it is not blank. */
  function Render(h: string, app: seq<HeaderItem>, m: map<string, string>, body: string): string
  {
    Join([h] + ItemLines(app, m) + (if Strip(body) != [] then [body] else []), '\n')
  }

  /** `update_managed_header`. */
  function Update(reg: Registry, items: seq<HeaderItem>, content: string, ups: seq<(string, string)>): Result<string, HeaderError>
  {
    match Parse(reg, items, content)
    case Failure(e) => Failure(e)
    case Success(p) =>
      if p.headerLine == [] then Failure(NoHeaderLine)
      else match ExtractTypeAndId(reg, content)
        case Failure(e) => Failure(e)
        case Success(None) => Failure(TypeNotDetected)
        case Success(Some(ti)) =>
          var app := ManagedHeadersFor(items, ti.0);
          Success(Render(p.headerLine, app, ApplyAll(app, p.headers, ups), p.body))
  }

  /** The list merge of `update_managed_header`, with its loop over the new values. */
  method MergeList(existing: string, added: string) returns (r: string)
    ensures r == Merged(existing, added)
  {
    var existingValues := StripAll(Split(existing, ','));
    var newValues := StripAll(Split(added, ','));
    var combined := existingValues;
    var i := 0;
    while i < |newValues|
      invariant 0 <= i <= |newValues|
      invariant combined == AppendNew(existingValues, newValues[..i])
    {
      assert newValues[..i + 1][..i] == newValues[..i];
      if newValues[i] !in combined {
        combined := combined + [newValues[i]];
      }
      i := i + 1;
    }
    assert newValues[..i] == newValues;
    r := Join(combined, ',');
  }

  /** `update_managed_header`: the update loop, then the loop that rebuilds the lines. */
  method UpdateManagedHeader(reg: Registry, items: seq<HeaderItem>, content: string, ups: seq<(string, string)>)
    returns (r: Result<string, HeaderError>)
    ensures r == Update(reg, items, content, ups)
  {
    var parsed := ParseManagedHeaders(reg, items, content);
    if parsed.Failure? {
      return Failure(parsed.error);
    }
    var p := parsed.value;
    if p.headerLine == [] {
      return Failure(NoHeaderLine);
    }
    var info := DetectType(reg, content);
    if info.Failure? {
      // the parse above ran the same detection and succeeded
      assert false;
    }
    if info.value.None? {
      return Failure(TypeNotDetected);
    }
    var app := ManagedHeadersFor(items, info.value.value.0);
    var updated := ApplyEach(app, p.headers, ups);
    var lines := RenderLines(app, updated);
    var all := [p.headerLine] + lines + (if Strip(p.body) != [] then [p.body] else []);
    return Success(Join(all, '\n'));
  }

  /** The loop over the requested updates. */
  method ApplyEach(app: seq<HeaderItem>, m: map<string, string>, ups: seq<(string, string)>) returns (updated: map<string, string>)
    ensures updated == ApplyAll(app, m, ups)
  {
    updated := m;
    var i := 0;
    while i < |ups|
      invariant 0 <= i <= |ups|
      invariant updated == ApplyAll(app, m, ups[..i])
    {
      ApplyAllStep(app, m, ups, i);
      var key := ups[i].0;
      var v := ups[i].1;
      ghost var before := updated;
      var item := ItemOf(app, key);
      if item.Some? {
        if item.value.kind == Atomic {
          updated := updated[key := v];
        } else if item.value.kind == ListKind {
          if key in updated {
            var merged := MergeList(updated[key], v);
            updated := updated[key := merged];
          } else {
            updated := updated[key := v];
          }
        }
      }
      assert updated == ApplyUpdate(app, before, key, v);
      i := i + 1;
    }
    assert ups[..i] == ups;
  }

  lemma ApplyAllStep(app: seq<HeaderItem>, m: map<string, string>, ups: seq<(string, string)>, i: nat)
    requires i < |ups|
    ensures ApplyAll(app, m, ups[..i + 1]) == ApplyUpdate(app, ApplyAll(app, m, ups[..i]), ups[i].0, ups[i].1)
  {
    assert ups[..i + 1][..i] == ups[..i];
  }

  /** The loop that emits the present items' lines in configuration order. */
  method RenderLines(app: seq<HeaderItem>, m: map<string, string>) returns (lines: seq<string>)
    ensures lines == ItemLines(app, m)
  {
    lines := [];
    var i := 0;
    while i < |app|
      invariant 0 <= i <= |app|
      invariant lines == ItemLines(app[..i], m)
    {
      assert app[..i + 1][..i] == app[..i];
      if app[i].key in m {
        lines := lines + [ItemLine(app[i], m[app[i].key])];
      }
      i := i + 1;
    }
    assert app[..i] == app;
  }

  // ------------------------------------------------------------ properties of updates

  /**
   * The merge keeps the existing values in order and appends each new value
   * once, only when it is not already present.
   */
  lemma {:induction false} AppendNewShape(acc: seq<string>, vals: seq<string>)
    ensures var r := AppendNew(acc, vals);
      |acc| <= |r| && r[..|acc|] == acc
      && (forall x :: x in r <==> x in acc || x in vals)
      && (forall i, j :: |acc| <= i < j < |r| ==> r[i] != r[j])
      && (forall i :: |acc| <= i < |r| ==> r[i] !in acc)
    decreases |vals|
  {
    if vals != [] {
      var front := vals[..|vals| - 1];
      var x := vals[|vals| - 1];
      AppendNewShape(acc, front);
      assert forall y :: y in vals <==> y in front || y == x by {
        assert vals == front + [x];
      }
      var r0 := AppendNew(acc, front);
      if x !in r0 {
        var r := r0 + [x];
        assert r[..|r0|] == r0;
        assert r[..|acc|] == r0[..|acc|];
      }
    }
  }

  /** Values all present already leave the list as it is. */
  lemma {:induction false} AppendNewPresent(acc: seq<string>, vals: seq<string>)
    requires forall x :: x in vals ==> x in acc
    ensures AppendNew(acc, vals) == acc
    decreases |vals|
  {
    if vals != [] {
      AppendNewPresent(acc, vals[..|vals| - 1]);
    }
  }

  /** Merging the same values a second time adds nothing. */
  lemma AppendNewIdempotent(acc: seq<string>, vals: seq<string>)
    ensures AppendNew(AppendNew(acc, vals), vals) == AppendNew(acc, vals)
  {
    AppendNewShape(acc, vals);
    AppendNewPresent(AppendNew(acc, vals), vals);
  }

  /** Updates of keys that no applicable item has are ignored, and untouched keys keep their values. */
  lemma {:induction false} ApplyAllFrame(app: seq<HeaderItem>, m: map<string, string>, ups: seq<(string, string)>, key: string)
    requires key !in Keys(app) || forall i :: 0 <= i < |ups| ==> ups[i].0 != key
    ensures key in ApplyAll(app, m, ups) <==> key in m
    ensures key in m ==> ApplyAll(app, m, ups)[key] == m[key]
    decreases |ups|
  {
    if ups != [] {
      ApplyAllFrame(app, m, ups[..|ups| - 1], key);
    }
  }

  /** Every update concerns an applicable atomic item or no applicable item at all. */
  predicate AllAtomic(app: seq<HeaderItem>, ups: seq<(string, string)>)
  {
    forall i :: 0 <= i < |ups| ==> ItemOf(app, ups[i].0).None? || ItemOf(app, ups[i].0).value.kind == Atomic
  }

  /** Atomic updates override: the result is the map overridden by the updates alone. */
  lemma {:induction false} AtomicOverride(app: seq<HeaderItem>, m: map<string, string>, ups: seq<(string, string)>)
    requires AllAtomic(app, ups)
    ensures ApplyAll(app, m, ups) == m + ApplyAll(app, map[], ups)
    decreases |ups|
  {
    if ups != [] {
      var front := ups[..|ups| - 1];
      assert AllAtomic(app, front) by {
        assert forall i :: 0 <= i < |front| ==> front[i] == ups[i];
      }
      AtomicOverride(app, m, front);
    }
  }

  /** Applying the same atomic updates twice gives the map obtained by applying them once. */
  lemma AtomicIdempotent(app: seq<HeaderItem>, m: map<string, string>, ups: seq<(string, string)>)
    requires AllAtomic(app, ups)
    ensures ApplyAll(app, ApplyAll(app, m, ups), ups) == ApplyAll(app, m, ups)
  {
    AtomicOverride(app, m, ups);
    AtomicOverride(app, ApplyAll(app, m, ups), ups);
    var o := ApplyAll(app, map[], ups);
    assert (m + o) + o == m + o;
  }

  // ------------------------------------------------------------ reading back a rebuilt block

  /** In a well-formed configuration an item's shown label finds that item. */
  lemma {:induction false} FindLabelWellFormed(app: seq<HeaderItem>, k: nat)
    requires WellFormed(app) && k < |app|
    ensures FindLabel(app, ShownLabel(app[k])) == Some(k)
    decreases k
  {
    if k > 0 {
      assert app[k] == app[1..][k - 1];
      FindLabelWellFormed(app[1..], k - 1);
    }
  }

  /** The pattern reads a rebuilt line back as its label and value. */
  lemma LineHeaderOfItemLine(shown: string, v: string)
    requires shown != [] && '`' !in shown && '\n' !in shown && Clean(v)
    ensures '\n' !in "`" + shown + "`: " + v
    ensures LineHeader("`" + shown + "`: " + v) == Some((shown, v))
  {
    var line := "`" + shown + "`: " + v;
    var after := "`: " + v;
    assert line == ['`'] + (shown + after);
    assert '\n' !in after;
    ReadsBack(line, shown, after, v);
  }

  lemma ReadsBack(line: string, shown: string, after: string, v: string)
    requires shown != [] && '`' !in shown && Clean(v) && after == "`: " + v
    requires line == ['`'] + (shown + after) && '\n' !in line
    ensures LineHeader(line) == Some((shown, v))
  {
    LabelClosed(line, shown, after);
    AfterLabel(line, shown, after, v);
  }

  /** The label of such a line ends at the first backtick after the opening one. */
  lemma LabelClosed(line: string, shown: string, after: string)
    requires '`' !in shown && after != [] && after[0] == '`'
    requires line == ['`'] + (shown + after) && '\n' !in line
    ensures 1 <= |shown| + 1 < |line| && LineHeader(line) == HeaderAfter(line, |shown| + 1)
  {
    assert line[1..] == shown + after;
    FirstBacktick(shown, after);
  }

  /** After the label come the colon, one space and the value. */
  lemma AfterLabel(line: string, shown: string, after: string, v: string)
    requires shown != [] && Clean(v) && after == "`: " + v && line == ['`'] + (shown + after)
    ensures 1 <= |shown| + 1 < |line| && HeaderAfter(line, |shown| + 1) == Some((shown, v))
  {
    var e := |shown| + 1;
    ThreeParts(['`'], shown, after);
    assert after[1] == ':' && after[2..] == " " + v;
    assert line[e + 2..] == after[2..];
    SpaceThenValue(v);
  }

  /** The middle and the end of a three-part sequence. */
  lemma ThreeParts<T>(a: seq<T>, b: seq<T>, c: seq<T>)
    ensures (a + (b + c))[|a|..|a| + |b|] == b && (a + (b + c))[|a| + |b|..] == c
  {
  }

  lemma FirstBacktick(shown: string, after: string)
    requires '`' !in shown && after != [] && after[0] == '`'
    ensures IndexOf(shown + after, '`') == Some(|shown|)
  {
    var s := shown + after;
    assert s[|shown|] == '`' && s[..|shown|] == shown;
  }

  lemma SpaceThenValue(v: string)
    requires Clean(v)
    ensures ValueOf(" " + v) == v
  {
    assert (" " + v)[1..] == v;
  }

  /** A rebuilt item line is one stripped line that reads back as the item's header. */
  lemma ItemLineReadsBack(app: seq<HeaderItem>, k: nat, v: string)
    requires WellFormed(app) && k < |app| && Clean(v)
    ensures '\n' !in ItemLine(app[k], v) && Trimmed(ItemLine(app[k], v))
    ensures HeaderOfLine(app, ItemLine(app[k], v)) == Some((app[k].key, v))
  {
    WellFormedLabel(app, k);
    var line := ItemLine(app[k], v);
    LineHeaderOfItemLine(ShownLabel(app[k]), v);
    assert line[|line| - 1] == v[|v| - 1];
    TrimmedStrip(line);
    TrimmedStrip(v);
    FindLabelWellFormed(app, k);
  }

  lemma {:induction false} WellFormedLabel(app: seq<HeaderItem>, k: nat)
    requires WellFormed(app) && k < |app|
    ensures ShownLabel(app[k]) != [] && '`' !in ShownLabel(app[k]) && '\n' !in ShownLabel(app[k])
    decreases k
  {
    if k > 0 {
      assert app[k] == app[1..][k - 1];
      WellFormedLabel(app[1..], k - 1);
    }
  }

  /** `body_start_index` lands on the first line from `i` on that the block does not take in. */
  lemma {:induction false} StopAt(app: seq<HeaderItem>, lines: seq<string>, i: nat, j: nat)
    requires i <= j <= |lines| && NoBreaks(lines)
    requires forall k :: i <= k < j ==> Consumed(app, lines[k])
    requires j < |lines| ==> !Consumed(app, lines[j])
    ensures StopIndex(app, lines, i) == j
    decreases j - i
  {
    if i < j {
      StopAt(app, lines, i + 1, j);
    }
  }

  /** The map after one more header. */
  lemma GatherSnoc(hs: seq<Option<(string, string)>>, h: Option<(string, string)>)
    ensures Gather(hs + [h]) == match h
      case None => Gather(hs)
      case Some(kv) => Gather(hs)[kv.0 := kv.1]
  {
    assert (hs + [h])[..|hs|] == hs;
  }

  /** `m` restricted to the keys in `ks`. */
  function Restrict(m: map<string, string>, ks: set<string>): map<string, string>
  {
    map k | k in m && k in ks :: m[k]
  }

  /** The headers the rebuilt lines of the items hold, in configuration order. */
  function ItemHeaders(app: seq<HeaderItem>, m: map<string, string>): seq<Option<(string, string)>>
    decreases |app|
  {
    if app == [] then []
    else
      var it := app[|app| - 1];
      ItemHeaders(app[..|app| - 1], m) + (if it.key in m then [Some((it.key, m[it.key]))] else [])
  }

  /** The rebuilt lines of a prefix of the items read back as the prefix's headers. */
  lemma {:induction false} FoundItemLines(app: seq<HeaderItem>, m: map<string, string>, j: nat)
    requires WellFormed(app) && j <= |app| && forall k :: k in m ==> Clean(m[k])
    ensures NoBreaks(ItemLines(app[..j], m))
    ensures Found(app, ItemLines(app[..j], m)) == ItemHeaders(app[..j], m)
    decreases j
  {
    if j == 0 {
      assert app[..0] == [];
    } else {
      FoundItemLines(app, m, j - 1);
      ItemLinesSnoc(app, m, j);
      var key := app[j - 1].key;
      if key in m {
        ItemLineReadsBack(app, j - 1, m[key]);
        FoundStep(app, ItemLines(app[..j - 1], m), ItemLine(app[j - 1], m[key]), Some((key, m[key])));
      }
    }
  }

  lemma FoundStep(app: seq<HeaderItem>, x: seq<string>, line: string, h: Option<(string, string)>)
    requires NoBreaks(x) && '\n' !in line && HeaderOfLine(app, line) == h
    ensures NoBreaks(x + [line]) && Found(app, x + [line]) == Found(app, x) + [h]
  {
    FoundSnoc(app, x, line);
  }

  /** The map the items' headers build is the map restricted to the items' keys. */
  lemma {:induction false} GatherItemHeaders(app: seq<HeaderItem>, m: map<string, string>, j: nat)
    requires j <= |app|
    ensures Gather(ItemHeaders(app[..j], m)) == Restrict(m, Keys(app[..j]))
    decreases j
  {
    if j == 0 {
      assert app[..0] == [];
      assert Keys(app[..0]) == {};
    } else {
      GatherItemHeaders(app, m, j - 1);
      ItemLinesSnoc(app, m, j);
      var key := app[j - 1].key;
      if key in m {
        GatherSnoc(ItemHeaders(app[..j - 1], m), Some((key, m[key])));
        RestrictAdd(m, Keys(app[..j - 1]), key);
      } else {
        assert ItemHeaders(app[..j], m) == ItemHeaders(app[..j - 1], m);
        RestrictSkip(m, Keys(app[..j - 1]), key);
      }
    }
  }

  lemma ItemLinesSnoc(app: seq<HeaderItem>, m: map<string, string>, j: nat)
    requires 0 < j <= |app|
    ensures ItemLines(app[..j], m) == ItemLines(app[..j - 1], m)
      + (if app[j - 1].key in m then [ItemLine(app[j - 1], m[app[j - 1].key])] else [])
    ensures ItemHeaders(app[..j], m) == ItemHeaders(app[..j - 1], m)
      + (if app[j - 1].key in m then [Some((app[j - 1].key, m[app[j - 1].key]))] else [])
    ensures Keys(app[..j]) == Keys(app[..j - 1]) + {app[j - 1].key}
  {
    assert app[..j][..j - 1] == app[..j - 1] && app[..j][j - 1] == app[j - 1];
    assert app[..j] == app[..j - 1] + [app[j - 1]];
  }

  lemma CollectSnoc(app: seq<HeaderItem>, x: seq<string>, line: string)
    requires NoBreaks(x) && '\n' !in line
    ensures NoBreaks(x + [line])
    ensures Collect(app, x + [line]) == match HeaderOfLine(app, line)
      case None => Collect(app, x)
      case Some(kv) => Collect(app, x)[kv.0 := kv.1]
  {
    FoundSnoc(app, x, line);
    GatherSnoc(Found(app, x), HeaderOfLine(app, line));
  }

  lemma RestrictAdd(m: map<string, string>, ks: set<string>, key: string)
    requires key in m
    ensures Restrict(m, ks + {key}) == Restrict(m, ks)[key := m[key]]
  {
  }

  lemma RestrictSkip(m: map<string, string>, ks: set<string>, key: string)
    requires key !in m
    ensures Restrict(m, ks + {key}) == Restrict(m, ks)
  {
  }

  /** Reading back the rebuilt lines recovers the map. */
  lemma CollectItemLines(app: seq<HeaderItem>, m: map<string, string>)
    requires WellFormed(app) && forall k :: k in m ==> Clean(m[k]) && k in Keys(app)
    ensures NoBreaks(ItemLines(app, m))
    ensures Collect(app, ItemLines(app, m)) == m
  {
    FoundItemLines(app, m, |app|);
    GatherItemHeaders(app, m, |app|);
    assert app[..|app|] == app;
  }

  // ------------------------------------------------------------ updated values stay clean

  /** The stripped parts of a one-line string are trimmed and on one line. */
  lemma StrippedParts(s: string)
    requires '\n' !in s
    ensures forall i :: 0 <= i < |StripAll(Split(s, ','))| ==>
      Trimmed(StripAll(Split(s, ','))[i]) && '\n' !in StripAll(Split(s, ','))[i]
  {
    var parts := Split(s, ',');
    forall i | 0 <= i < |parts|
      ensures Trimmed(Strip(parts[i])) && '\n' !in Strip(parts[i])
    {
      PartOfSplit(s, ',', i);
      StripIsTrimmed(parts[i]);
      StripKeepsOut(parts[i], '\n');
    }
  }

  /** The first stripped part of a clean value is the value itself when it has no comma. */
  lemma SinglePart(e: string)
    requires Clean(e) && |Split(e, ',')| == 1
    ensures StripAll(Split(e, ',')) == [e]
  {
    SplitSingle(e, ',');
    SplitNoSeparator(e, ',');
    TrimmedStrip(e);
  }

  /** Merging into a clean list value gives a clean value. */
  lemma MergedClean(existing: string, added: string)
    requires Clean(existing) && '\n' !in added
    ensures Clean(Merged(existing, added))
  {
    var e := StripAll(Split(existing, ','));
    var n := StripAll(Split(added, ','));
    var p := AppendNew(e, n);
    StrippedParts(existing);
    StrippedParts(added);
    AppendNewShape(e, n);
    assert forall i :: 0 <= i < |p| ==> Trimmed(p[i]) && '\n' !in p[i] by {
      forall i | 0 <= i < |p| ensures Trimmed(p[i]) && '\n' !in p[i] {
        assert p[i] in e || p[i] in n;
      }
    }
    JoinTrimmed(p, ',');
    JoinKeepsOut(p, ',', '\n');
    if |e| == 1 {
      SinglePart(existing);
      JoinEnds(p, ',');
      assert p[0] == e[0];
    } else {
      assert Join(p, ',') == p[0] + [','] + Join(p[1..], ',');
    }
  }

  /** Clean values and applicable keys survive updates with clean values. */
  lemma {:induction false} ApplyAllClean(app: seq<HeaderItem>, m: map<string, string>, ups: seq<(string, string)>)
    requires forall k :: k in m ==> k in Keys(app) && Clean(m[k])
    requires forall i :: 0 <= i < |ups| ==> Clean(ups[i].1)
    ensures forall k :: k in ApplyAll(app, m, ups) ==> k in Keys(app) && Clean(ApplyAll(app, m, ups)[k])
    decreases |ups|
  {
    if ups != [] {
      var front := ups[..|ups| - 1];
      assert forall i :: 0 <= i < |front| ==> front[i] == ups[i];
      ApplyAllClean(app, m, front);
      var u := ups[|ups| - 1];
      ApplyUpdateClean(app, ApplyAll(app, m, front), u.0, u.1);
    }
  }

  /** One update with a clean value keeps the map's values clean and its keys applicable. */
  lemma ApplyUpdateClean(app: seq<HeaderItem>, m: map<string, string>, key: string, v: string)
    requires forall k :: k in m ==> k in Keys(app) && Clean(m[k])
    requires Clean(v)
    ensures var r := ApplyUpdate(app, m, key, v); forall k :: k in r ==> k in Keys(app) && Clean(r[k])
  {
    match ItemOf(app, key)
    case None =>
    case Some(it) =>
      assert it.key in Keys(app);
      if it.kind == ListKind && key in m {
        MergedClean(m[key], v);
      }
  }

  // ------------------------------------------------------------ the round trip

  /** A string whose last character is not whitespace. */
  predicate SolidEnd(s: string)
  {
    s != [] && !IsSpace(s[|s| - 1])
  }

  /** Every rebuilt item line starts with a backtick and ends in its value's last character. */
  lemma {:induction false} ItemLinesSolid(app: seq<HeaderItem>, m: map<string, string>)
    requires forall k :: k in m ==> Clean(m[k])
    ensures forall i :: 0 <= i < |ItemLines(app, m)| ==> SolidEnd(ItemLines(app, m)[i])
    decreases |app|
  {
    if app != [] {
      var it := app[|app| - 1];
      ItemLinesSolid(app[..|app| - 1], m);
      var x := ItemLines(app[..|app| - 1], m);
      if it.key in m {
        var line := ItemLine(it, m[it.key]);
        assert line[|line| - 1] == m[it.key][|m[it.key]| - 1];
        assert forall i :: 0 <= i < |x| ==> (x + [line])[i] == x[i];
      }
    }
  }

  /** The rebuilt item lines are all taken in by the block. */
  lemma ItemLinesConsumed(app: seq<HeaderItem>, m: map<string, string>)
    requires WellFormed(app) && forall k :: k in m ==> Clean(m[k])
    ensures NoBreaks(ItemLines(app, m))
    ensures forall i :: 0 <= i < |ItemLines(app, m)| ==> Consumed(app, ItemLines(app, m)[i])
  {
    FoundItemLines(app, m, |app|);
    assert app[..|app|] == app;
    ItemHeadersSome(app, m);
    var ls := ItemLines(app, m);
    forall i | 0 <= i < |ls| ensures Consumed(app, ls[i]) {
      assert Found(app, ls)[i].Some?;
    }
  }

  lemma {:induction false} ItemHeadersSome(app: seq<HeaderItem>, m: map<string, string>)
    ensures forall i :: 0 <= i < |ItemHeaders(app, m)| ==> ItemHeaders(app, m)[i].Some?
    decreases |app|
  {
    if app != [] {
      ItemHeadersSome(app[..|app| - 1], m);
    }
  }

  /**
   * The lines after the block: none, or a body that starts with a line
   * the block does not take in, ends in the content's last character, and
   * splits back into those lines.
   */
  lemma BodyFacts(app: seq<HeaderItem>, content: string)
    requires Strip(content) != []
    ensures var lines := Lines(content); var stop := StopIndex(app, lines, 1);
      var body := Join(lines[stop..], '\n');
      (stop == |lines| ==> body == [])
      && (stop < |lines| ==>
            Strip(body) != [] && SolidEnd(body) && Split(body, '\n') == lines[stop..] && !Consumed(app, lines[stop]))
  {
    var lines := Lines(content);
    var stop := StopIndex(app, lines, 1);
    if stop < |lines| {
      var rest := lines[stop..];
      assert rest[0] == lines[stop];
      JoinNotBlank(rest);
      NoBreaksSlice(lines, stop, |lines|);
      SplitJoin(rest, '\n');
      var whole := Strip(content);
      StripIsTrimmed(content);
      TailOfSplit(whole, stop);
      var body := Join(rest, '\n');
      assert body[|body| - 1] == whole[|whole| - 1];
    }
  }

  /** Lines joined after a non-blank first line are not blank. */
  lemma JoinNotBlank(parts: seq<string>)
    requires |parts| >= 1 && Strip(parts[0]) != []
    ensures Strip(Join(parts, '\n')) != []
  {
    var j := Join(parts, '\n');
    JoinEnds(parts, '\n');
    StripEmptyIff(j);
    StripEmptyIff(parts[0]);
    assert forall i :: 0 <= i < |parts[0]| ==> parts[0][i] == j[i];
  }

  /** The lines from one on, joined, are a suffix of the text. */
  lemma TailOfSplit(whole: string, stop: nat)
    requires 1 <= stop < |Split(whole, '\n')|
    ensures EndsWith(whole, Join(Split(whole, '\n')[stop..], '\n'))
  {
    var lines := Split(whole, '\n');
    JoinSplit(whole, '\n');
    assert lines == lines[..stop] + lines[stop..];
    JoinConcat(lines[..stop], lines[stop..], '\n');
  }

  /** A one-line string that begins and ends without whitespace. */
  lemma SolidJoin(parts: seq<string>, d: char)
    requires |parts| >= 1 && parts[0] != [] && !IsSpace(parts[0][0]) && SolidEnd(parts[|parts| - 1])
    ensures Join(parts, d) != [] && Trimmed(Join(parts, d))
  {
    JoinEnds(parts, d);
    var j := Join(parts, d);
    var last := parts[|parts| - 1];
    assert j[0] == parts[0][0];
    assert j[|j| - 1] == last[|last| - 1];
  }

  /** The lines the rebuilt content reads as. */
  lemma RenderedLines(h: string, ls: seq<string>, body: string, rest: seq<string>)
    requires h != [] && Trimmed(h) && '\n' !in h && NoBreaks(ls)
    requires forall i :: 0 <= i < |ls| ==> SolidEnd(ls[i])
    requires (rest == [] && Strip(body) == []) || (rest != [] && Strip(body) != [] && SolidEnd(body) && Split(body, '\n') == rest)
    ensures var out := Join([h] + ls + (if Strip(body) != [] then [body] else []), '\n');
      Strip(out) == out && Split(out, '\n') == [h] + ls + rest
  {
    var front := [h] + ls;
    assert NoBreaks(front) by {
      assert forall i :: 0 <= i < |ls| ==> front[i + 1] == ls[i];
    }
    assert SolidEnd(front[|front| - 1]) by {
      if ls != [] { assert front[|front| - 1] == ls[|ls| - 1]; }
    }
    SplitJoin(front, '\n');
    if rest == [] {
      assert front + [] == front;
      SolidJoin(front, '\n');
      TrimmedStrip(Join(front, '\n'));
    } else {
      var all := front + [body];
      JoinConcat(front, [body], '\n');
      SplitConcat(Join(front, '\n'), '\n', body);
      assert all[0] == h && all[|all| - 1] == body;
      SolidJoin(all, '\n');
      TrimmedStrip(Join(all, '\n'));
    }
  }

  /** The block of the rebuilt lines is the item lines, and what follows is the body. */
  lemma ReparseBlock(app: seq<HeaderItem>, h: string, ls: seq<string>, rest: seq<string>, m: map<string, string>)
    requires '\n' !in h && NoBreaks(ls) && NoBreaks(rest)
    requires forall i :: 0 <= i < |ls| ==> Consumed(app, ls[i])
    requires rest != [] ==> !Consumed(app, rest[0])
    requires Collect(app, ls) == m
    ensures NoBreaks([h] + ls + rest)
    ensures BlockOf(app, [h] + ls + rest) == (m, Join(rest, '\n'))
  {
    var all := [h] + ls + rest;
    ConcatNoBreaks(h, ls, rest);
    ConsumedShift(app, all, ls);
    if rest != [] {
      assert all[1 + |ls|] == rest[0];
    }
    StopAt(app, all, 1, 1 + |ls|);
    assert all[1..1 + |ls|] == ls && all[1 + |ls|..] == rest;
  }

  lemma ConcatNoBreaks(h: string, ls: seq<string>, rest: seq<string>)
    requires '\n' !in h && NoBreaks(ls) && NoBreaks(rest)
    ensures NoBreaks([h] + ls + rest)
  {
    var all := [h] + ls + rest;
    forall k | 0 <= k < |all| ensures '\n' !in all[k] {
      if k == 0 {
      } else if k <= |ls| {
        assert all[k] == ls[k - 1];
      } else {
        assert all[k] == rest[k - 1 - |ls|];
      }
    }
  }

  lemma ConsumedShift(app: seq<HeaderItem>, all: seq<string>, ls: seq<string>)
    requires NoBreaks(all) && NoBreaks(ls) && 1 + |ls| <= |all| && all[1..1 + |ls|] == ls
    requires forall i :: 0 <= i < |ls| ==> Consumed(app, ls[i])
    ensures forall k :: 1 <= k < 1 + |ls| ==> Consumed(app, all[k])
  {
    forall k | 1 <= k < 1 + |ls| ensures Consumed(app, all[k]) {
      assert all[k] == ls[k - 1];
    }
  }

  /** A content whose first line is not blank is not blank. */
  lemma HeaderLineNotBlank(content: string)
    requires Strip(Lines(content)[0]) != []
    ensures Strip(content) != []
  {
  }

  /**
   * Updating and parsing again: the rebuilt content keeps its header line
   * and body, and its block reads as the updated headers.
   */
  lemma UpdateThenParse(reg: Registry, items: seq<HeaderItem>, content: string, ups: seq<(string, string)>)
    requires WellFormed(items)
    requires forall i :: 0 <= i < |ups| ==> Clean(ups[i].1)
    requires Update(reg, items, content, ups).Success?
    ensures Parse(reg, items, content).Success? && ExtractTypeAndId(reg, content).Success?
    ensures ExtractTypeAndId(reg, content).value.Some?
    ensures var p := Parse(reg, items, content).value;
      var app := ManagedHeadersFor(items, ExtractTypeAndId(reg, content).value.value.0);
      Parse(reg, items, Update(reg, items, content, ups).value)
        == Success(Parsed(p.headerLine, ApplyAll(app, p.headers, ups), p.body))
      && ExtractTypeAndId(reg, Update(reg, items, content, ups).value) == ExtractTypeAndId(reg, content)
  {
    UpdateOutcomes(reg, items, content, ups);
    var t := ExtractTypeAndId(reg, content).value.value.0;
    var app := ManagedHeadersFor(items, t);
    ParsedHeadersClean(reg, items, content);
    var p := Parse(reg, items, content).value;
    ApplyAllClean(app, p.headers, ups);
    ParseHeaderLine(reg, items, content);
    HeaderLineBlank(content);
    UpdateUnfold(reg, items, content, ups, p);
    RenderThenParse(reg, items, content, ApplyAll(app, p.headers, ups));
  }

  /**
   * A content rebuilt by hand from its header line, any clean map over the
   * applicable items and its body, as the handlers rebuild it, reads back
   * as that map, with the same header line, body and detected type.
   */
  lemma RenderThenParse(reg: Registry, items: seq<HeaderItem>, content: string, m2: map<string, string>)
    requires WellFormed(items) && Strip(content) != []
    requires ExtractTypeAndId(reg, content).Success? && ExtractTypeAndId(reg, content).value.Some?
    requires forall k :: k in m2 ==> Clean(m2[k]) && k in Keys(ManagedHeadersFor(items, ExtractTypeAndId(reg, content).value.value.0))
    ensures Parse(reg, items, content).Success?
    ensures var p := Parse(reg, items, content).value;
      var app := ManagedHeadersFor(items, ExtractTypeAndId(reg, content).value.value.0);
      Parse(reg, items, Render(p.headerLine, app, m2, p.body)) == Success(Parsed(p.headerLine, m2, p.body))
      && ExtractTypeAndId(reg, Render(p.headerLine, app, m2, p.body)) == ExtractTypeAndId(reg, content)
  {
    var ti := ExtractTypeAndId(reg, content).value.value;
    ParseSome(reg, items, content, ti);
    FirstLineIsHead(content);
    RenderReparse(reg, items, content, ti, m2);
  }

  /** The first line is the first of the lines, stripped. */
  lemma FirstLineIsHead(content: string)
    ensures FirstLine(content) == Strip(Lines(content)[0])
  {
  }

  /** The rebuilt content of RenderThenParse, in terms of the split content. */
  lemma RenderReparse(reg: Registry, items: seq<HeaderItem>, content: string, ti: (string, string), m2: map<string, string>)
    requires WellFormed(items) && Strip(content) != []
    requires ExtractTypeAndId(reg, content) == Success(Some(ti))
    requires forall k :: k in m2 ==> Clean(m2[k]) && k in Keys(ManagedHeadersFor(items, ti.0))
    ensures var app := ManagedHeadersFor(items, ti.0); var body := BlockOf(app, Lines(content)).1;
      var out := Render(FirstLine(content), app, m2, body);
      Parse(reg, items, out) == Success(Parsed(FirstLine(content), m2, body))
      && ExtractTypeAndId(reg, out) == ExtractTypeAndId(reg, content)
  {
    var app := ManagedHeadersFor(items, ti.0);
    var rest := RenderedContent(items, ti.0, content, m2);
    var h := FirstLine(content);
    var body := BlockOf(app, Lines(content)).1;
    var ls := [h] + ItemLines(app, m2) + rest;
    assert ls[0] == h;
    ReparseOutput(reg, items, content, Render(h, app, m2, body), h, ls, ti, m2, body);
  }

  /** A content rebuilt from the first line, a clean map and the body of a content that is not blank. */
  lemma RenderedContent(items: seq<HeaderItem>, t: string, content: string, m: map<string, string>) returns (rest: seq<string>)
    requires WellFormed(items) && forall k :: k in m ==> Clean(m[k]) && k in Keys(ManagedHeadersFor(items, t))
    requires Strip(content) != []
    ensures var app := ManagedHeadersFor(items, t); var h := FirstLine(content); var body := BlockOf(app, Lines(content)).1;
      var out := Render(h, app, m, body); var ls := [h] + ItemLines(app, m) + rest;
      Strip(out) == out && Split(out, '\n') == ls && NoBreaks(ls) && BlockOf(app, ls) == (m, body)
  {
    var app := ManagedHeadersFor(items, t);
    ManagedHeadersWellFormed(items, t);
    var lines := Lines(content);
    var h := FirstLine(content);
    var body := BlockOf(app, lines).1;
    assert body == Join(lines[StopIndex(app, lines, 1)..], '\n');
    HeaderLineBlank(content);
    StripIsTrimmed(lines[0]);
    FirstLineIsHead(content);
    rest := SplitBody(app, content);
    RenderedBlock(app, h, m, body, rest);
  }

  /** The lines after the block of a content that is not blank, as BodyFacts describes them. */
  lemma SplitBody(app: seq<HeaderItem>, content: string) returns (rest: seq<string>)
    requires Strip(content) != []
    ensures var lines := Lines(content); var body := Join(lines[StopIndex(app, lines, 1)..], '\n');
      NoBreaks(rest)
      && ((rest == [] && body == [])
          || (rest != [] && Strip(body) != [] && SolidEnd(body) && Split(body, '\n') == rest && !Consumed(app, rest[0])))
  {
    BodyFacts(app, content);
    var lines := Lines(content);
    var stop := StopIndex(app, lines, 1);
    if stop < |lines| {
      rest := lines[stop..];
      assert rest[0] == lines[stop];
      NoBreaksSlice(lines, stop, |lines|);
    } else {
      rest := [];
    }
  }

  /** The lines of a rebuilt content, and the block they read as. */
  lemma RenderedBlock(app: seq<HeaderItem>, h: string, m: map<string, string>, body: string, rest: seq<string>)
    requires WellFormed(app) && forall k :: k in m ==> Clean(m[k]) && k in Keys(app)
    requires h != [] && Trimmed(h) && '\n' !in h && NoBreaks(rest)
    requires (rest == [] && body == [])
      || (rest != [] && Strip(body) != [] && SolidEnd(body) && Split(body, '\n') == rest && !Consumed(app, rest[0]))
    ensures var out := Render(h, app, m, body); var ls := [h] + ItemLines(app, m) + rest;
      Strip(out) == out && Split(out, '\n') == ls && NoBreaks(ls) && BlockOf(app, ls) == (m, body)
  {
    var il := ItemLines(app, m);
    CollectItemLines(app, m);
    ItemLinesSolid(app, m);
    ItemLinesConsumed(app, m);
    RenderedLines(h, il, body, rest);
    ReparseBlock(app, h, il, rest, m);
    BodyIsRest(body, rest);
  }

  /** The headers a parse finds name applicable items and have clean values. */
  lemma ParsedHeadersClean(reg: Registry, items: seq<HeaderItem>, content: string)
    requires ExtractTypeAndId(reg, content).Success? && ExtractTypeAndId(reg, content).value.Some?
    ensures Parse(reg, items, content).Success?
    ensures var app := ManagedHeadersFor(items, ExtractTypeAndId(reg, content).value.value.0);
      var m := Parse(reg, items, content).value.headers;
      forall k :: k in m ==> k in Keys(app) && Clean(m[k])
  {
    var lines := Lines(content);
    var app := ManagedHeadersFor(items, ExtractTypeAndId(reg, content).value.value.0);
    var stop := StopIndex(app, lines, 1);
    NoBreaksSlice(lines, 1, stop);
    CollectClean(app, lines[1..stop]);
  }

  /** The rebuilt content, read again. */
  lemma ReparseOutput(reg: Registry, items: seq<HeaderItem>, content: string, out: string,
                      h: string, ls: seq<string>, ti: (string, string), m: map<string, string>, body: string)
    requires ExtractTypeAndId(reg, content) == Success(Some(ti)) && h == FirstLine(content)
    requires Strip(out) == out && Split(out, '\n') == ls && NoBreaks(ls) && |ls| >= 1 && ls[0] == h
    requires BlockOf(ManagedHeadersFor(items, ti.0), ls) == (m, body)
    ensures ExtractTypeAndId(reg, out) == ExtractTypeAndId(reg, content)
    ensures Parse(reg, items, out) == Success(Parsed(h, m, body))
  {
    LinesOfTrimmed(out, ls);
    FirstLineOf(out, h, ls);
    ExtractSame(reg, out, content);
    ParseSome(reg, items, out, ti);
  }

  lemma BodyIsRest(body: string, rest: seq<string>)
    requires (rest == [] && body == []) || Split(body, '\n') == rest
    ensures Join(rest, '\n') == body
  {
    if rest != [] {
      JoinSplit(body, '\n');
    }
  }

  /** The detection reads only the first line. */
  lemma ExtractSame(reg: Registry, a: string, b: string)
    requires FirstLine(a) == FirstLine(b)
    ensures ExtractTypeAndId(reg, a) == ExtractTypeAndId(reg, b)
  {
  }

  /** `parse_managed_headers` once a type is detected. */
  lemma ParseSome(reg: Registry, items: seq<HeaderItem>, content: string, ti: (string, string))
    requires ExtractTypeAndId(reg, content) == Success(Some(ti))
    ensures var lines := Lines(content); var block := BlockOf(ManagedHeadersFor(items, ti.0), lines);
      Parse(reg, items, content) == Success(Parsed(Strip(lines[0]), block.0, block.1))
  {
  }

  /** The lines of a text with no outer whitespace are its lines split at newlines. */
  lemma LinesOfTrimmed(out: string, ls: seq<string>)
    requires Strip(out) == out && Split(out, '\n') == ls
    ensures Lines(out) == ls
  {
  }

  /** The first line of a text whose first line has no outer whitespace. */
  lemma FirstLineOf(out: string, h: string, ls: seq<string>)
    requires Lines(out) == ls && |ls| >= 1 && ls[0] == h && Strip(h) == h
    ensures FirstLine(out) == h
  {
  }

  /** Every configured item an update names is single-valued. */
  predicate AtomicUpdates(items: seq<HeaderItem>, ups: seq<(string, string)>)
  {
    forall i :: 0 <= i < |ups| ==> forall it :: it in items && it.key == ups[i].0 ==> it.kind == Atomic
  }

  /**
   * Applying the same single-valued updates to the content a first
   * application produced gives that content back.
   */
  lemma UpdateIdempotent(reg: Registry, items: seq<HeaderItem>, content: string, ups: seq<(string, string)>)
    requires WellFormed(items) && AtomicUpdates(items, ups)
    requires forall i :: 0 <= i < |ups| ==> Clean(ups[i].1)
    requires Update(reg, items, content, ups).Success?
    ensures Update(reg, items, Update(reg, items, content, ups).value, ups) == Update(reg, items, content, ups)
  {
    UpdateThenParse(reg, items, content, ups);
    var p := Parse(reg, items, content).value;
    var app := ManagedHeadersFor(items, ExtractTypeAndId(reg, content).value.value.0);
    AtomicUpdatesFor(items, ExtractTypeAndId(reg, content).value.value.0, ups);
    AtomicIdempotent(app, p.headers, ups);
    var out := Update(reg, items, content, ups).value;
    var m2 := ApplyAll(app, p.headers, ups);
    UpdateUnfold(reg, items, content, ups, p);
    UpdateUnfold(reg, items, out, ups, Parsed(p.headerLine, m2, p.body));
  }

  lemma AtomicUpdatesFor(items: seq<HeaderItem>, t: string, ups: seq<(string, string)>)
    requires AtomicUpdates(items, ups)
    ensures AllAtomic(ManagedHeadersFor(items, t), ups)
  {
    var app := ManagedHeadersFor(items, t);
    forall i | 0 <= i < |ups|
      ensures ItemOf(app, ups[i].0).None? || ItemOf(app, ups[i].0).value.kind == Atomic
    {
    }
  }

  /** `update_managed_header` once the parse and the detection are known. */
  lemma UpdateUnfold(reg: Registry, items: seq<HeaderItem>, content: string, ups: seq<(string, string)>, p: Parsed)
    requires Parse(reg, items, content) == Success(p) && p.headerLine != []
    requires ExtractTypeAndId(reg, content).Success? && ExtractTypeAndId(reg, content).value.Some?
    ensures var app := ManagedHeadersFor(items, ExtractTypeAndId(reg, content).value.value.0);
      Update(reg, items, content, ups) == Success(Render(p.headerLine, app, ApplyAll(app, p.headers, ups), p.body))
  {
  }

  /**
   * When `update_managed_header` fails: with the detection's error, for a
   * blank content, or when no type is detected; it succeeds otherwise.
   */
  lemma UpdateOutcomes(reg: Registry, items: seq<HeaderItem>, content: string, ups: seq<(string, string)>)
    ensures Parse(reg, items, content).Failure? <==> ExtractTypeAndId(reg, content).Failure?
    ensures ExtractTypeAndId(reg, content).Failure? ==>
      Update(reg, items, content, ups) == Failure(ExtractTypeAndId(reg, content).error)
    ensures ExtractTypeAndId(reg, content).Success? && Strip(content) == [] ==>
      Update(reg, items, content, ups) == Failure(NoHeaderLine)
    ensures ExtractTypeAndId(reg, content) == Success(None) && Strip(content) != [] ==>
      Update(reg, items, content, ups) == Failure(TypeNotDetected)
    ensures Update(reg, items, content, ups).Success? <==>
      Strip(content) != [] && ExtractTypeAndId(reg, content).Success? && ExtractTypeAndId(reg, content).value.Some?
  {
    ParseHeaderLine(reg, items, content);
    HeaderLineBlank(content);
  }

  /** The header line `parse_managed_headers` reports, and when it fails. */
  lemma ParseHeaderLine(reg: Registry, items: seq<HeaderItem>, content: string)
    ensures Parse(reg, items, content).Failure? <==> ExtractTypeAndId(reg, content).Failure?
    ensures Parse(reg, items, content).Failure? ==> Parse(reg, items, content).error == ExtractTypeAndId(reg, content).error
    ensures Parse(reg, items, content).Success? ==> Parse(reg, items, content).value.headerLine == FirstLine(content)
  {
    FirstLineIsHead(content);
    match ExtractTypeAndId(reg, content)
    case Failure(_) =>
      ParseFailure(reg, items, content);
    case Success(None) =>
      ParseNone(reg, items, content);
    case Success(Some(ti)) =>
      ParseSome(reg, items, content, ti);
  }

  /** `parse_managed_headers` when the detection fails. */
  lemma ParseFailure(reg: Registry, items: seq<HeaderItem>, content: string)
    requires ExtractTypeAndId(reg, content).Failure?
    ensures Parse(reg, items, content) == Failure(ExtractTypeAndId(reg, content).error)
  {
  }

  /** `parse_managed_headers` when no type is detected. */
  lemma ParseNone(reg: Registry, items: seq<HeaderItem>, content: string)
    requires ExtractTypeAndId(reg, content) == Success(None)
    ensures var lines := Lines(content);
      Parse(reg, items, content) == Success(Parsed(Strip(lines[0]), map[], Join(lines[1..], '\n')))
  {
  }

  /** The first line is blank exactly when the whole content is. */
  lemma HeaderLineBlank(content: string)
    ensures FirstLine(content) == [] <==> Strip(content) == []
  {
    if Strip(content) == [] {
      assert Lines(content) == [""];
    } else {
      StripIsTrimmed(content);
      JoinNotBlankFirst(Strip(content));
    }
  }

  /** A text that is not blank and has no outer whitespace has a first line that is not blank. */
  lemma JoinNotBlankFirst(s: string)
    requires s != [] && Trimmed(s)
    ensures Strip(Split(s, '\n')[0]) != []
  {
    var first := Split(s, '\n')[0];
    assert first[0] == s[0];
    StripEmptyIff(first);
  }
}
