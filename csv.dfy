/**
 * The two uses the ledger makes of Python's `csv` module with the default
 * `excel` dialect: reading the first record of a string through
 * `csv.reader(io.StringIO(s))`, and writing one row with `csv.writer`.
 *
 * The reader is CPython's character state machine (`parse_process_char`).
 * `io.StringIO` hands the text over in chunks that end after each `'\n'`,
 * and the reader feeds an end-of-line marker after every chunk; a record is
 * complete once the machine is back in its start state after such a marker.
 */
module Csv {

  import opened Wrappers
  import opened Text

  /** `csv.field_size_limit()`'s default: adding one more character to a field this long is an error. */
  const FieldLimit := 131072

  datatype State = StartRecord | StartField | InField | InQuoted | QuoteInQuoted | EatCrnl

  /** The reader's state, the field being read and the fields of the record so far. */
  datatype Reader = Reader(state: State, field: string, fields: seq<string>)

  function AddChar(r: Reader, c: char, next: State): Option<Reader>
  {
    if |r.field| >= FieldLimit then None else Some(Reader(next, r.field + [c], r.fields))
  }

  function SaveField(r: Reader, next: State): Reader
  {
    Reader(next, "", r.fields + [r.field])
  }

  predicate IsNewline(c: char)
  {
    c == '\n' || c == '\r'
  }

  /** A character at the start of a field. */
  function StepField(r: Reader, c: char): Option<Reader>
  {
    if IsNewline(c) then Some(SaveField(r, EatCrnl))
    else if c == '"' then Some(r.(state := InQuoted))
    else if c == ',' then Some(SaveField(r, StartField))
    else AddChar(r, c, InField)
  }

  /** One character; `None` is a `csv.Error`. */
  function StepChar(r: Reader, c: char): Option<Reader>
  {
    match r.state
    case StartRecord => if IsNewline(c) then Some(r.(state := EatCrnl)) else StepField(r, c)
    case StartField => StepField(r, c)
    case InField =>
      if IsNewline(c) then Some(SaveField(r, EatCrnl))
      else if c == ',' then Some(SaveField(r, StartField))
      else AddChar(r, c, InField)
    case InQuoted => if c == '"' then Some(r.(state := QuoteInQuoted)) else AddChar(r, c, InQuoted)
    case QuoteInQuoted =>
      if c == '"' then AddChar(r, c, InQuoted)
      else if c == ',' then Some(SaveField(r, StartField))
      else if IsNewline(c) then Some(SaveField(r, EatCrnl))
      else AddChar(r, c, InField)
    case EatCrnl => if IsNewline(c) then Some(r) else None
  }

  /** The end-of-line marker after a chunk. */
  function StepEol(r: Reader): Reader
  {
    match r.state
    case StartRecord => r
    case StartField => SaveField(r, StartRecord)
    case InField => SaveField(r, StartRecord)
    case InQuoted => r
    case QuoteInQuoted => SaveField(r, StartRecord)
    case EatCrnl => r.(state := StartRecord)
  }

  /**
   * Feeds the rest `s` of the input. A chunk ends after a `'\n'` and at the
   * end of the input. When the input runs out inside a record, the field in
   * progress is saved if it is non-empty or quoted; otherwise `next()` raises
   * `StopIteration`, which is `None` here like an error.
   */
  function Feed(s: string, r: Reader): Option<seq<string>>
    decreases |s|
  {
    if s == [] then
      if |r.field| != 0 || r.state == InQuoted then Some(r.fields + [r.field]) else None
    else
      match StepChar(r, s[0])
      case None => None
      case Some(r1) =>
        if s[0] == '\n' || |s| == 1 then
          var r2 := StepEol(r1);
          if r2.state == StartRecord then Some(r2.fields) else Feed(s[1..], r2)
        else Feed(s[1..], r1)
  }

  /** `next(csv.reader(io.StringIO(s)))`, or `None` when that raises. */
  function FirstRecord(s: string): Option<seq<string>>
  {
    Feed(s, Reader(StartRecord, "", []))
  }

  // ------------------------------------------------------------ the writer

  /** The characters that make the minimal-quoting writer quote a field. */
  predicate NeedsQuotes(f: string)
  {
    ',' in f || '"' in f || '\r' in f || '\n' in f
  }

  /** Every double quote written twice. */
  function Doubled(f: string): (r: string)
    ensures |r| >= |f|
  {
    if f == [] then [] else (if f[0] == '"' then "\"\"" else [f[0]]) + Doubled(f[1..])
  }

  /** One field as `csv.writer` writes it. */
  function QuoteField(f: string): (r: string)
    ensures r == [] <==> f == []
  {
    if NeedsQuotes(f) then "\"" + Doubled(f) + "\"" else f
  }

  /** The written fields joined by commas. */
  function Fields(fs: seq<string>): string
  {
    if fs == [] then "" else if |fs| == 1 then QuoteField(fs[0]) else QuoteField(fs[0]) + "," + Fields(fs[1..])
  }

  /**
   * `writer.writerow(fs)` with the dialect's `"\r\n"` line terminator. A
   * record of a single empty field is written as `""`, so that it reads back.
   */
  function WriteRow(fs: seq<string>): string
  {
    (if fs == [""] then "\"\"" else Fields(fs)) + "\r\n"
  }

  // ------------------------------------------------------------ reading back

  /** The states in which a `,`, an end of line or the end of the input closes the field. */
  predicate Closing(st: State)
  {
    st == StartField || st == InField || st == QuoteInQuoted
  }

  function ClosedState(f: string): State
  {
    if f == [] then StartField else if NeedsQuotes(f) then QuoteInQuoted else InField
  }

  /** One character that neither ends a chunk nor the input. */
  lemma FeedOn(s: string, r: Reader, r1: Reader)
    requires |s| > 1 && s[0] != '\n' && StepChar(r, s[0]) == Some(r1)
    ensures Feed(s, r) == Feed(s[1..], r1)
  {
  }

  /** The last character of the input, after which the record is complete. */
  lemma FeedEnd(s: string, r: Reader, r1: Reader)
    requires |s| == 1 && StepChar(r, s[0]) == Some(r1) && StepEol(r1).state == StartRecord
    ensures Feed(s, r) == Some(StepEol(r1).fields)
  {
  }

  /** A line break inside quotes ends the chunk but not the record. */
  lemma FeedQuotedNewline(s: string, r: Reader, r1: Reader)
    requires |s| > 1 && s[0] == '\n' && StepChar(r, s[0]) == Some(r1) && r1.state == InQuoted
    ensures Feed(s, r) == Feed(s[1..], r1)
  {
  }

  lemma PlainTail(f: string)
    requires f != [] && !NeedsQuotes(f)
    ensures !NeedsQuotes(f[1..]) && f[0] != ',' && f[0] != '"' && !IsNewline(f[0])
  {
    assert f[0] in f;
    assert forall c :: c in f[1..] ==> c in f;
  }

  /** Characters of an unquoted field are added one by one. */
  lemma {:induction false} FeedUnquoted(f: string, rest: string, r: Reader)
    requires r.state == InField && !NeedsQuotes(f) && rest != [] && |r.field| + |f| <= FieldLimit
    ensures Feed(f + rest, r) == Feed(rest, Reader(InField, r.field + f, r.fields))
    decreases |f|
  {
    if f != [] {
      PlainTail(f);
      var r1 := Reader(InField, r.field + [f[0]], r.fields);
      assert StepChar(r, f[0]) == Some(r1);
      var s := f + rest;
      assert s[0] == f[0] && s[1..] == f[1..] + rest;
      FeedOn(s, r, r1);
      FeedUnquoted(f[1..], rest, r1);
      assert r1.field + f[1..] == r.field + f;
    } else {
      assert f + rest == rest && r.field + f == r.field;
      assert Reader(InField, r.field + f, r.fields) == r;
    }
  }

  /** The characters of a quoted field, with doubled quotes, are added one by one. */
  lemma {:induction false} FeedDoubled(f: string, rest: string, r: Reader)
    requires r.state == InQuoted && rest != [] && |r.field| + |f| <= FieldLimit
    ensures Feed(Doubled(f) + rest, r) == Feed(rest, Reader(InQuoted, r.field + f, r.fields))
    decreases |f|
  {
    if f == [] {
      assert Doubled(f) + rest == rest && r.field + f == r.field;
      assert Reader(InQuoted, r.field + f, r.fields) == r;
    } else {
      var r1 := Reader(InQuoted, r.field + [f[0]], r.fields);
      FeedDoubledStep(f, rest, r);
      FeedDoubled(f[1..], rest, r1);
      assert r1.field + f[1..] == r.field + f;
    }
  }

  /** One character of a quoted field: a quote is read as its doubled pair. */
  lemma FeedDoubledStep(f: string, rest: string, r: Reader)
    requires r.state == InQuoted && rest != [] && f != [] && |r.field| < FieldLimit
    ensures Feed(Doubled(f) + rest, r) == Feed(Doubled(f[1..]) + rest, Reader(InQuoted, r.field + [f[0]], r.fields))
  {
    var r1 := Reader(InQuoted, r.field + [f[0]], r.fields);
    var tail := Doubled(f[1..]) + rest;
    assert |tail| > 0;
    if f[0] == '"' {
      var s := "\"\"" + tail;
      assert Doubled(f) + rest == s;
      var rq := r.(state := QuoteInQuoted);
      assert StepChar(r, '"') == Some(rq);
      assert s[0] == '"' && s[1..] == "\"" + tail;
      FeedOn(s, r, rq);
      assert StepChar(rq, '"') == Some(r1);
      assert s[1..][0] == '"' && s[1..][1..] == tail;
      FeedOn(s[1..], rq, r1);
    } else {
      var s := [f[0]] + tail;
      assert Doubled(f) + rest == s;
      assert StepChar(r, f[0]) == Some(r1);
      assert s[0] == f[0] && s[1..] == tail;
      if f[0] == '\n' {
        FeedQuotedNewline(s, r, r1);
      } else {
        FeedOn(s, r, r1);
      }
    }
  }

  /** A quoted field followed by more input. */
  lemma FeedQuotedField(f: string, rest: string, acc: seq<string>)
    requires rest != [] && |f| <= FieldLimit
    ensures Feed("\"" + Doubled(f) + "\"" + rest, Reader(StartField, "", acc)) == Feed(rest, Reader(QuoteInQuoted, f, acc))
  {
    var r := Reader(StartField, "", acc);
    var s := "\"" + Doubled(f) + "\"" + rest;
    var r1 := Reader(InQuoted, "", acc);
    assert StepChar(r, '"') == Some(r1);
    assert s[0] == '"' && s[1..] == Doubled(f) + ("\"" + rest);
    FeedOn(s, r, r1);
    FeedDoubled(f, "\"" + rest, r1);
    assert "" + f == f;
    var r2 := Reader(InQuoted, f, acc);
    var t := "\"" + rest;
    assert StepChar(r2, '"') == Some(Reader(QuoteInQuoted, f, acc));
    assert t[0] == '"' && t[1..] == rest;
    FeedOn(t, r2, Reader(QuoteInQuoted, f, acc));
  }

  /** An unquoted, non-empty field followed by more input. */
  lemma FeedPlainField(f: string, rest: string, acc: seq<string>)
    requires f != [] && !NeedsQuotes(f) && rest != [] && |f| <= FieldLimit
    ensures Feed(f + rest, Reader(StartField, "", acc)) == Feed(rest, Reader(InField, f, acc))
  {
    var r := Reader(StartField, "", acc);
    PlainTail(f);
    assert "" + [f[0]] == [f[0]];
    var r1 := Reader(InField, [f[0]], acc);
    assert StepChar(r, f[0]) == Some(r1);
    var s := f + rest;
    assert s[0] == f[0] && s[1..] == f[1..] + rest;
    FeedOn(s, r, r1);
    FeedUnquoted(f[1..], rest, r1);
    assert [f[0]] + f[1..] == f;
  }

  /** A written field followed by more input leaves the field, read back, ready to be closed. */
  lemma FeedField(f: string, rest: string, acc: seq<string>)
    requires rest != [] && |f| <= FieldLimit
    ensures Feed(QuoteField(f) + rest, Reader(StartField, "", acc)) == Feed(rest, Reader(ClosedState(f), f, acc))
  {
    if f == [] {
      assert QuoteField(f) + rest == rest;
    } else if NeedsQuotes(f) {
      FeedQuotedField(f, rest, acc);
    } else {
      FeedPlainField(f, rest, acc);
    }
  }

  /** A written field at the very end of the input completes the record. */
  lemma FeedLastField(f: string, acc: seq<string>)
    requires f != [] && |f| <= FieldLimit
    ensures Feed(QuoteField(f), Reader(StartField, "", acc)) == Some(acc + [f])
  {
    var r := Reader(StartField, "", acc);
    if NeedsQuotes(f) {
      var s := "\"" + Doubled(f) + "\"";
      var r1 := Reader(InQuoted, "", acc);
      assert StepChar(r, '"') == Some(r1);
      assert s[0] == '"' && s[1..] == Doubled(f) + "\"";
      FeedOn(s, r, r1);
      FeedDoubled(f, "\"", r1);
      assert "" + f == f;
      var r2 := Reader(InQuoted, f, acc);
      assert StepChar(r2, '"') == Some(Reader(QuoteInQuoted, f, acc));
      FeedEnd("\"", r2, Reader(QuoteInQuoted, f, acc));
    } else if |f| == 1 {
      PlainTail(f);
      assert "" + [f[0]] == f;
      assert StepChar(r, f[0]) == Some(Reader(InField, f, acc));
      FeedEnd(f, r, Reader(InField, f, acc));
    } else {
      var last := f[|f| - 1];
      var init := f[..|f| - 1];
      assert f == init + [last];
      assert !NeedsQuotes(init) && !NeedsQuotes([last]) by {
        assert forall c :: c in init ==> c in f;
        assert last in f;
      }
      FeedPlainField(init, [last], acc);
      var r2 := Reader(InField, init, acc);
      assert StepChar(r2, last) == Some(Reader(InField, f, acc));
      FeedEnd([last], r2, Reader(InField, f, acc));
    }
  }

  /** A comma closes the field; a comma at the very end also reads one more, empty, field. */
  lemma FeedComma(rest: string, r: Reader)
    requires Closing(r.state)
    ensures Feed("," + rest, r)
      == if rest == [] then Some(r.fields + [r.field, ""]) else Feed(rest, Reader(StartField, "", r.fields + [r.field]))
  {
    var s := "," + rest;
    var r1 := SaveField(r, StartField);
    assert StepChar(r, ',') == Some(r1);
    if rest == [] {
      FeedEnd(s, r, r1);
      assert StepEol(r1).fields == r.fields + [r.field, ""];
    } else {
      assert s[0] == ',' && s[1..] == rest;
      FeedOn(s, r, r1);
    }
  }

  /**
   * Reading a written row gives the fields back, up to the field size limit.
   * A row of one empty field is written as nothing and reads as no record.
   */
  lemma {:induction false} ReadWritten(fs: seq<string>, acc: seq<string>)
    requires |fs| >= 1 && (|fs| == 1 ==> fs[0] != [])
    requires forall i :: 0 <= i < |fs| ==> |fs[i]| <= FieldLimit
    ensures Feed(Fields(fs), Reader(StartField, "", acc)) == Some(acc + fs)
    decreases |fs|
  {
    if |fs| == 1 {
      assert acc + fs == acc + [fs[0]];
      FeedLastField(fs[0], acc);
    } else {
      var rest := Fields(fs[1..]);
      assert Fields(fs) == QuoteField(fs[0]) + ("," + rest);
      ReadFieldThenComma(fs[0], rest, acc);
      if rest == [] {
        assert fs == [fs[0], ""];
      } else {
        ReadWritten(fs[1..], acc + [fs[0]]);
        assert acc + [fs[0]] + fs[1..] == acc + fs;
      }
    }
  }

  /** One written field and its comma. */
  lemma ReadFieldThenComma(f: string, rest: string, acc: seq<string>)
    requires |f| <= FieldLimit
    ensures Feed(QuoteField(f) + ("," + rest), Reader(StartField, "", acc))
      == if rest == [] then Some(acc + [f, ""]) else Feed(rest, Reader(StartField, "", acc + [f]))
  {
    FeedField(f, "," + rest, acc);
    FeedComma(rest, Reader(ClosedState(f), f, acc));
  }

  /** The written fields of a record, with no line terminator, read back as the record. */
  lemma ReadRow(fs: seq<string>)
    requires |fs| >= 1 && forall i :: 0 <= i < |fs| ==> |fs[i]| <= FieldLimit
    ensures FirstRecord(if fs == [""] then "\"\"" else Fields(fs)) == Some(fs)
  {
    if fs == [""] {
      var r := Reader(StartRecord, "", []);
      var r1 := Reader(InQuoted, "", []);
      assert StepChar(r, '"') == Some(r1);
      FeedOn("\"\"", r, r1);
      assert "\"\""[1..] == "\"";
      var r2 := Reader(QuoteInQuoted, "", []);
      assert StepChar(r1, '"') == Some(r2);
      assert StepEol(r2) == Reader(StartRecord, "", [""]);
      FeedEnd("\"", r1, r2);
    } else {
      assert |fs| == 1 ==> fs == [fs[0]];
      FieldsStart(fs);
      StartRecordAsField(Fields(fs));
      ReadWritten(fs, []);
      assert [] + fs == fs;
    }
  }

  /** Written fields never start with a line break. */
  lemma FieldsStart(fs: seq<string>)
    requires |fs| >= 1 && fs != [""]
    ensures Fields(fs) != [] && !IsNewline(Fields(fs)[0])
  {
    if |fs| == 1 {
      assert fs == [fs[0]];
      QuoteFieldStart(fs[0]);
    } else {
      FieldsStartMore(fs);
    }
  }

  /** With two or more fields the first character is a comma or the first field's. */
  lemma FieldsStartMore(fs: seq<string>)
    requires |fs| >= 2
    ensures Fields(fs) != [] && !IsNewline(Fields(fs)[0])
  {
    var q := QuoteField(fs[0]);
    var t := "," + Fields(fs[1..]);
    assert Fields(fs) == q + t;
    if q == [] {
      assert q + t == t;
    } else {
      QuoteFieldStart(fs[0]);
      assert (q + t)[0] == q[0];
    }
  }

  /** A written non-empty field starts with a quote or with its own first character. */
  lemma QuoteFieldStart(f: string)
    requires f != []
    ensures QuoteField(f) != [] && !IsNewline(QuoteField(f)[0])
  {
    if !NeedsQuotes(f) {
      PlainTail(f);
    }
  }

  /** Fields that need no quotes are written as they are. */
  lemma {:induction false} FieldsPlain(fs: seq<string>)
    requires forall i :: 0 <= i < |fs| ==> !NeedsQuotes(fs[i])
    ensures Fields(fs) == Join(fs, ',')
    decreases |fs|
  {
    if |fs| > 1 {
      FieldsPlain(fs[1..]);
    }
  }

  /** The reader's start state acts like a field start on anything but a newline. */
  lemma StartRecordAsField(s: string)
    requires s != [] && !IsNewline(s[0])
    ensures FirstRecord(s) == Feed(s, Reader(StartField, "", []))
  {
  }

  /** A text with no double quote and no line break reads like `s.split(',')`. */
  lemma ReadPlain(s: string)
    requires s != [] && '"' !in s && '\r' !in s && '\n' !in s && |s| <= FieldLimit
    ensures FirstRecord(s) == Some(Split(s, ','))
  {
    var parts := Split(s, ',');
    assert s[0] in s;
    PlainParts(s);
    PlainFields(s);
    assert |parts| == 1 ==> parts[0] != [];
    StartRecordAsField(s);
    ReadWritten(parts, []);
    assert [] + parts == parts;
  }

  lemma PlainFields(s: string)
    requires forall i :: 0 <= i < |Split(s, ',')| ==> !NeedsQuotes(Split(s, ',')[i])
    ensures Fields(Split(s, ',')) == s
  {
    JoinSplit(s, ',');
    FieldsPlain(Split(s, ','));
  }

  lemma PlainParts(s: string)
    requires '"' !in s && '\r' !in s && '\n' !in s && |s| <= FieldLimit
    ensures forall i :: 0 <= i < |Split(s, ',')| ==> !NeedsQuotes(Split(s, ',')[i]) && |Split(s, ',')[i]| <= FieldLimit
  {
    var parts := Split(s, ',');
    forall i | 0 <= i < |parts| ensures !NeedsQuotes(parts[i]) && |parts[i]| <= FieldLimit {
      PartOfSplit(s, ',', i);
    }
  }

  // ------------------------------------------------------- written text

  /** Doubling quotes adds no character other than `"`. */
  lemma {:induction false} DoubledKeepsOut(f: string, c: char)
    requires c != '"' && c !in f
    ensures c !in Doubled(f)
    decreases |f|
  {
    if f != [] {
      assert c !in f[1..] by { assert forall k :: 0 <= k < |f[1..]| ==> f[1..][k] == f[k + 1]; }
      DoubledKeepsOut(f[1..], c);
    }
  }

  /** The writer adds only commas and double quotes to the fields' characters. */
  lemma {:induction false} FieldsKeepOut(fs: seq<string>, c: char)
    requires c != ',' && c != '"'
    requires forall i :: 0 <= i < |fs| ==> c !in fs[i]
    ensures c !in Fields(fs)
    decreases |fs|
  {
    if fs != [] {
      DoubledKeepsOut(fs[0], c);
      assert c !in QuoteField(fs[0]);
      if |fs| > 1 {
        FieldsKeepOut(fs[1..], c);
      }
    }
  }

  /** The last character written is that of the last field, or the comma before an empty one. */
  lemma {:induction false} FieldsLast(fs: seq<string>)
    requires |fs| >= 2
    ensures var w := Fields(fs); var q := QuoteField(fs[|fs| - 1]);
      w != [] && w[|w| - 1] == (if q == [] then ',' else q[|q| - 1])
    decreases |fs|
  {
    var tail := fs[1..];
    assert Fields(fs) == QuoteField(fs[0]) + "," + Fields(tail);
    assert tail[|tail| - 1] == fs[|fs| - 1];
    if |fs| > 2 {
      FieldsLast(tail);
    }
  }

  // ------------------------------------------------------- the first field

  /** The first field of the record begins with `c` (while it is being read, it is the field in progress). */
  predicate FirstFieldFrom(r: Reader, c: char)
  {
    (r.fields == [] ==> r.state == InField && r.field != [] && r.field[0] == c)
    && (r.fields != [] ==> r.fields[0] != [] && r.fields[0][0] == c)
  }

  lemma StepKeepsFirstField(r: Reader, ch: char, c: char)
    requires FirstFieldFrom(r, c) && StepChar(r, ch).Some?
    ensures FirstFieldFrom(StepChar(r, ch).value, c) && FirstFieldFrom(StepEol(StepChar(r, ch).value), c)
  {
  }

  lemma {:induction false} FeedKeepsFirstField(s: string, r: Reader, c: char)
    requires FirstFieldFrom(r, c) && Feed(s, r).Some?
    ensures var fs := Feed(s, r).value; fs != [] && fs[0] != [] && fs[0][0] == c
    decreases |s|
  {
    if s != [] {
      StepKeepsFirstField(r, s[0], c);
      var r1 := StepChar(r, s[0]).value;
      if s[0] == '\n' || |s| == 1 {
        var r2 := StepEol(r1);
        if r2.state != StartRecord {
          FeedKeepsFirstField(s[1..], r2, c);
        }
      } else {
        FeedKeepsFirstField(s[1..], r1, c);
      }
    }
  }

  /** A record whose text starts with an ordinary character has a first field starting with it. */
  lemma FirstFieldStart(s: string)
    requires s != [] && !IsNewline(s[0]) && s[0] != '"' && s[0] != ','
    ensures FirstRecord(s).Some? ==> var fs := FirstRecord(s).value; fs != [] && fs[0] != [] && fs[0][0] == s[0]
  {
    var r0 := Reader(StartRecord, "", []);
    var r1 := Reader(InField, [s[0]], []);
    assert "" + [s[0]] == [s[0]];
    assert StepChar(r0, s[0]) == Some(r1);
    if FirstRecord(s).Some? {
      if |s| == 1 {
        assert StepEol(r1).fields == [] + [[s[0]]] == [[s[0]]];
      } else {
        FeedOn(s, r0, r1);
        FeedKeepsFirstField(s[1..], r1, s[0]);
      }
    }
  }
}
