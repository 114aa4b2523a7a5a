/**
 * The parts of Python's `str` that the artifact manager relies on:
 * whitespace stripping, ASCII case mapping, `split`/`join` on one separator
 * character, `isdigit`, `int()` and `str()` on naturals, prefix tests and the
 * word boundary `\b` of the `re` module.
 */
module Text {

  import opened Wrappers

  /** `str.isspace()` of one code point (the whitespace table CPython uses). */
  predicate IsSpace(c: char)
  {
    c == ' ' || ('\t' <= c <= '\r') || ('\U{1C}' <= c <= '\U{1F}')
    || c == '\U{85}' || c == '\U{A0}' || c == '\U{1680}'
    || ('\U{2000}' <= c <= '\U{200A}') || c == '\U{2028}' || c == '\U{2029}'
    || c == '\U{202F}' || c == '\U{205F}' || c == '\U{3000}'
  }

  predicate AllSpace(s: string)
  {
    forall i :: 0 <= i < |s| ==> IsSpace(s[i])
  }

  /** No whitespace at either end: what `strip()` leaves behind. */
  predicate Trimmed(s: string)
  {
    s == [] || (!IsSpace(s[0]) && !IsSpace(s[|s| - 1]))
  }

  /** `s.lstrip()` */
  function LStrip(s: string): (r: string)
    ensures |r| <= |s| && r == s[|s| - |r|..]
    ensures r == [] || !IsSpace(r[0])
    ensures AllSpace(s[..|s| - |r|])
  {
    if |s| > 0 && IsSpace(s[0]) then
      var r := LStrip(s[1..]);
      LStripStep(s, r);
      r
    else
      s
  }

  /** The step of `LStrip`: a leading space extends the stripped prefix by one. */
  lemma LStripStep(s: string, r: string)
    requires |s| > 0 && IsSpace(s[0]) && |r| <= |s| - 1
    requires r == s[1..][|s| - 1 - |r|..] && AllSpace(s[1..][..|s| - 1 - |r|])
    ensures r == s[|s| - |r|..] && AllSpace(s[..|s| - |r|])
  {
    var k := |s| - |r|;
    assert s[1..][k - 1..] == s[k..];
    forall i | 0 <= i < k
      ensures IsSpace(s[..k][i])
    {
      if i > 0 {
        assert s[1..][..k - 1][i - 1] == s[i];
      }
    }
  }

  /** `s.rstrip()` */
  function RStrip(s: string): (r: string)
    ensures |r| <= |s| && r == s[..|r|]
    ensures r == [] || !IsSpace(r[|r| - 1])
    ensures AllSpace(s[|r|..])
  {
    if |s| > 0 && IsSpace(s[|s| - 1]) then
      var r := RStrip(s[..|s| - 1]);
      RStripStep(s, r);
      r
    else
      s
  }

  /** The step of `RStrip`: a trailing space extends the stripped suffix by one. */
  lemma RStripStep(s: string, r: string)
    requires |s| > 0 && IsSpace(s[|s| - 1]) && |r| <= |s| - 1
    requires r == s[..|s| - 1][..|r|] && AllSpace(s[..|s| - 1][|r|..])
    ensures r == s[..|r|] && AllSpace(s[|r|..])
  {
    var k := |r|;
    assert s[..|s| - 1][..k] == s[..k];
    forall i | 0 <= i < |s| - k
      ensures IsSpace(s[k..][i])
    {
      if i < |s| - 1 - k {
        assert s[..|s| - 1][k..][i] == s[k + i];
      }
    }
  }

  /** `s.strip()` */
  function Strip(s: string): (r: string)
  {
    RStrip(LStrip(s))
  }

  lemma StripIsTrimmed(s: string)
    ensures Trimmed(Strip(s))
  {
    var l := LStrip(s);
    var r := RStrip(l);
    if r != [] {
      assert r[0] == l[0];
    }
  }

  lemma TrimmedStrip(s: string)
    requires Trimmed(s)
    ensures Strip(s) == s && LStrip(s) == s && RStrip(s) == s
  {
  }

  lemma StripIdempotent(s: string)
    ensures Strip(Strip(s)) == Strip(s)
  {
    StripIsTrimmed(s);
    TrimmedStrip(Strip(s));
  }

  /** `strip()` gives the empty string exactly for whitespace-only input. */
  lemma StripEmptyIff(s: string)
    ensures Strip(s) == [] <==> AllSpace(s)
  {
    var l := LStrip(s);
    var k := |s| - |l|;
    if Strip(s) == [] {
      forall i | 0 <= i < |s|
        ensures IsSpace(s[i])
      {
        if i < k {
          assert s[..k][i] == s[i];
        } else {
          assert s[i] == l[i - k];
        }
      }
    } else {
      assert l[0] == s[k];
    }
  }

  /** Strip of a string whose stripped inner part is already known. */
  lemma StripAround(a: string, m: string, b: string)
    requires AllSpace(a) && AllSpace(b) && Trimmed(m) && m != []
    ensures Strip(a + m + b) == m
  {
    var mb := m + b;
    assert a + m + b == a + mb;
    assert LStrip(a + mb) == mb by {
      assert mb[0] == m[0];
      LStripSkips(a, mb);
    }
    assert RStrip(mb) == m by {
      assert mb[|m| - 1] == m[|m| - 1];
      RStripSkips(m, b);
    }
    calc {
      Strip(a + m + b);
      RStrip(LStrip(a + mb));
      RStrip(mb);
      m;
    }
  }

  /** `strip()` only removes characters. */
  lemma StripKeepsOut(s: string, c: char)
    requires c !in s
    ensures c !in Strip(s) && c !in LStrip(s) && c !in RStrip(s)
  {
    SliceKeepsOut(s, |s| - |LStrip(s)|, |s|, c);
    SliceKeepsOut(s, 0, |RStrip(s)|, c);
    SliceKeepsOut(LStrip(s), 0, |Strip(s)|, c);
  }

  lemma SliceKeepsOut(s: string, i: nat, j: nat, c: char)
    requires i <= j <= |s| && c !in s
    ensures c !in s[i..j]
  {
    assert forall k :: 0 <= k < j - i ==> s[i..j][k] == s[i + k];
  }

  /** A string that starts with a non-space keeps that first character under `strip()`. */
  lemma StripKeepsFirst(s: string)
    requires s != [] && !IsSpace(s[0])
    ensures Strip(s) != [] && Strip(s)[0] == s[0]
  {
    var r := RStrip(s);
    assert LStrip(s) == s;
    assert |r| < |s| ==> IsSpace(s[|r|]) by {
      if |r| < |s| { assert s[|r|..][0] == s[|r|]; }
    }
    assert r[0] == s[0];
  }

  lemma LStripSkips(a: string, t: string)
    requires AllSpace(a) && (t == [] || !IsSpace(t[0]))
    ensures LStrip(a + t) == t
    decreases |a|
  {
    if a != [] {
      assert (a + t)[1..] == a[1..] + t;
      LStripSkips(a[1..], t);
    }
  }

  /** `rstrip()` keeps every position up to the last non-whitespace character. */
  lemma RStripKeepsNonSpace(s: string, i: nat)
    requires i < |s| && !IsSpace(s[i])
    ensures i < |RStrip(s)|
  {
  }

  lemma {:induction false} RStripSkips(t: string, b: string)
    requires AllSpace(b) && (t == [] || !IsSpace(t[|t| - 1]))
    ensures RStrip(t + b) == t
    decreases |b|
  {
    if b == [] {
      assert t + b == t;
    } else {
      var s := t + b;
      assert s[|s| - 1] == b[|b| - 1];
      assert s[..|s| - 1] == t + b[..|b| - 1];
      RStripSkips(t, b[..|b| - 1]);
    }
  }

  /** `s.rstrip(c)` for a single character `c`. */
  function RStripChar(s: string, c: char): (r: string)
    ensures |r| <= |s| && r == s[..|r|]
    ensures r == [] || r[|r| - 1] != c
    ensures forall i :: |r| <= i < |s| ==> s[i] == c
  {
    if |s| > 0 && s[|s| - 1] == c then RStripChar(s[..|s| - 1], c) else s
  }

  /** Removing trailing newlines first does not change what `rstrip()` leaves. */
  lemma {:induction false} RStripAfterChar(s: string)
    ensures RStrip(RStripChar(s, '\n')) == RStrip(s)
    decreases |s|
  {
    if |s| > 0 && s[|s| - 1] == '\n' {
      RStripAfterChar(s[..|s| - 1]);
    }
  }

  /** `s.lstrip(c)` for a single character `c`. */
  function LStripChar(s: string, c: char): (r: string)
    ensures |r| <= |s| && r == s[|s| - |r|..]
    ensures r == [] || r[0] != c
    ensures forall i :: 0 <= i < |s| - |r| ==> s[i] == c
  {
    if |s| > 0 && s[0] == c then LStripChar(s[1..], c) else s
  }

  /** `s.strip(c)` for a single character `c`. */
  function StripChar(s: string, c: char): string
  {
    RStripChar(LStripChar(s, c), c)
  }

  /** Every part stripped: the list comprehension `[v.strip() for v in ...]`. */
  function StripAll(parts: seq<string>): (r: seq<string>)
    ensures |r| == |parts| && forall i :: 0 <= i < |parts| ==> r[i] == Strip(parts[i])
  {
    seq(|parts|, i requires 0 <= i < |parts| => Strip(parts[i]))
  }

  // ---------------------------------------------------------------- case

  function UpperChar(c: char): char
  {
    if 'a' <= c <= 'z' then (c as int - 32) as char else c
  }

  function LowerChar(c: char): char
  {
    if 'A' <= c <= 'Z' then (c as int + 32) as char else c
  }

  /** `s.upper()` on the ASCII letters. */
  function Upper(s: string): (r: string)
    ensures |r| == |s|
    ensures forall i :: 0 <= i < |s| ==> r[i] == UpperChar(s[i])
  {
    seq(|s|, i requires 0 <= i < |s| => UpperChar(s[i]))
  }

  /** `s.lower()` on the ASCII letters. */
  function Lower(s: string): (r: string)
    ensures |r| == |s|
    ensures forall i :: 0 <= i < |s| ==> r[i] == LowerChar(s[i])
  {
    seq(|s|, i requires 0 <= i < |s| => LowerChar(s[i]))
  }

  predicate IsUpperLetter(c: char)
  {
    'A' <= c <= 'Z'
  }

  /** Non-empty and made of `A`-`Z` only: what the regular expression `[A-Z]+` matches. */
  predicate IsUpperWord(s: string)
  {
    |s| > 0 && forall i :: 0 <= i < |s| ==> IsUpperLetter(s[i])
  }

  lemma UpperIdempotent(s: string)
    ensures Upper(Upper(s)) == Upper(s)
  {
  }

  lemma UpperConcat(a: string, b: string)
    ensures Upper(a + b) == Upper(a) + Upper(b)
  {
  }

  lemma UpperOfUpperWord(s: string)
    requires IsUpperWord(s)
    ensures Upper(s) == s
  {
  }

  lemma UpperOfDigits(s: string)
    requires forall i :: 0 <= i < |s| ==> IsDigit(s[i])
    ensures Upper(s) == s
  {
  }

  /** Case mapping keeps every whitespace character and creates none. */
  lemma UpperKeepsSpace(c: char)
    ensures IsSpace(UpperChar(c)) <==> IsSpace(c)
  {
  }

  lemma UpperTrimmed(s: string)
    requires Trimmed(s)
    ensures Trimmed(Upper(s))
  {
    if s != [] {
      UpperKeepsSpace(s[0]);
      UpperKeepsSpace(s[|s| - 1]);
    }
  }

  // -------------------------------------------------------------- digits

  predicate IsDigit(c: char)
  {
    '0' <= c <= '9'
  }

  /** `s.isdigit()`: non-empty and all digits. */
  predicate IsDigits(s: string)
  {
    |s| > 0 && forall i :: 0 <= i < |s| ==> IsDigit(s[i])
  }

  /** A string of digits has no whitespace at its ends. */
  lemma DigitsTrimmed(s: string)
    requires IsDigits(s)
    ensures Trimmed(s)
  {
  }

  /** A string of digits holds no other character. */
  lemma DigitsOut(s: string, c: char)
    requires IsDigits(s) && !IsDigit(c)
    ensures c !in s
  {
    assert forall k :: 0 <= k < |s| ==> s[k] != c;
  }

  function DigitValue(c: char): nat
    requires IsDigit(c)
  {
    c as int - '0' as int
  }

  function DigitChar(d: nat): (c: char)
    requires d < 10
    ensures IsDigit(c) && DigitValue(c) == d
  {
    ('0' as int + d) as char
  }

  /** `int(s)` for a string of decimal digits. */
  function DigitsValue(s: string): nat
    requires forall i :: 0 <= i < |s| ==> IsDigit(s[i])
  {
    if s == [] then 0 else DigitsValue(s[..|s| - 1]) * 10 + DigitValue(s[|s| - 1])
  }

  /** `str(n)` for a natural number. */
  function NatToString(n: nat): (r: string)
    ensures IsDigits(r)
  {
    if n < 10 then [DigitChar(n)] else NatToString(n / 10) + [DigitChar(n % 10)]
  }

  lemma {:induction false} NatToStringValue(n: nat)
    ensures DigitsValue(NatToString(n)) == n
  {
    if n >= 10 {
      NatToStringValue(n / 10);
      var s := NatToString(n);
      assert s[..|s| - 1] == NatToString(n / 10);
    }
  }

  /** `str(n)` has no leading zero, so it is the canonical spelling of `n`. */
  lemma {:induction false} NatToStringCanonical(n: nat)
    ensures NatToString(n)[0] == '0' <==> n == 0
  {
    if n >= 10 {
      NatToStringCanonical(n / 10);
    }
  }

  /** Leading zeros do not change `int(s)`. */
  lemma {:induction false} LeadingZeroValue(s: string)
    requires forall i :: 0 <= i < |s| ==> IsDigit(s[i])
    ensures DigitsValue("0" + s) == DigitsValue(s)
    decreases |s|
  {
    if s != [] {
      var t := "0" + s;
      assert t[..|t| - 1] == "0" + s[..|s| - 1];
      LeadingZeroValue(s[..|s| - 1]);
    }
  }

  // ------------------------------------------------------------ prefixes

  predicate StartsWith(s: string, p: string)
  {
    |p| <= |s| && s[..|p|] == p
  }

  predicate EndsWith(s: string, p: string)
  {
    |p| <= |s| && s[|s| - |p|..] == p
  }

  /** `sub in s` */
  predicate Contains(s: string, sub: string)
    decreases |s|
  {
    StartsWith(s, sub) || (|s| > 0 && Contains(s[1..], sub))
  }

  /** The position of the first `c` in `s`, as `s.find(c)` gives it. */
  function IndexOf(s: string, c: char): (r: Option<nat>)
    ensures r.Some? ==> r.value < |s| && s[r.value] == c && c !in s[..r.value]
    ensures r.None? ==> c !in s
  {
    if s == [] then None
    else if s[0] == c then Some(0)
    else match IndexOf(s[1..], c)
      case None => None
      case Some(k) => Some(k + 1)
  }

  /** What `$` (without MULTILINE) lets through: one final newline is ignored. */
  function DropFinalNewline(s: string): (r: string)
    ensures r == s || (s == r + "\n")
  {
    if |s| > 0 && s[|s| - 1] == '\n' then s[..|s| - 1] else s
  }

  /**
   * Universal newlines, as a file opened in text mode reads: `\r\n` and a
   * lone `\r` each become `\n`.
   */
  function Newlines(s: string): (r: string)
    ensures '\r' !in r
    decreases |s|
  {
    if s == [] then []
    else if s[0] == '\r' then "\n" + Newlines(if |s| > 1 && s[1] == '\n' then s[2..] else s[1..])
    else [s[0]] + Newlines(s[1..])
  }

  /** Text without a carriage return reads back unchanged. */
  lemma {:induction false} NewlinesPlain(s: string)
    requires '\r' !in s
    ensures Newlines(s) == s
    decreases |s|
  {
    if s != [] {
      NewlinesPlain(s[1..]);
      assert [s[0]] + s[1..] == s;
    }
  }

  // ------------------------------------------------------- split and join

  /** `s.split(d)` for a one-character separator `d`. */
  function Split(s: string, d: char): (r: seq<string>)
    ensures |r| >= 1
    ensures forall k :: 0 <= k < |r| ==> d !in r[k]
  {
    if s == [] then [""]
    else
      var rest := Split(s[1..], d);
      if s[0] == d then [""] + rest else [[s[0]] + rest[0]] + rest[1..]
  }

  /** Each part of a split is made of characters of the input. */
  lemma {:induction false} PartOfSplit(s: string, d: char, i: nat)
    requires i < |Split(s, d)|
    ensures |Split(s, d)[i]| <= |s|
    ensures forall c :: c in Split(s, d)[i] ==> c in s
    decreases |s|
  {
    if s != [] {
      var rest := Split(s[1..], d);
      if s[0] == d {
        if i > 0 { PartOfSplit(s[1..], d, i - 1); }
      } else if i == 0 {
        PartOfSplit(s[1..], d, 0);
      } else {
        PartOfSplit(s[1..], d, i);
      }
      forall c | c in s[1..] ensures c in s { }
    }
  }

  /** The first part of a split is a prefix of the input. */
  lemma {:induction false} SplitFirstPrefix(s: string, d: char)
    ensures StartsWith(s, Split(s, d)[0])
    decreases |s|
  {
    if s != [] && s[0] != d {
      SplitFirstPrefix(s[1..], d);
      var first := Split(s[1..], d)[0];
      assert s[..1 + |first|] == [s[0]] + s[1..][..|first|];
    }
  }

  /** `d.join(parts)` for a one-character separator `d`. */
  function Join(parts: seq<string>, d: char): string
  {
    if |parts| == 0 then ""
    else if |parts| == 1 then parts[0]
    else parts[0] + [d] + Join(parts[1..], d)
  }

  lemma {:induction false} SplitNoSeparator(s: string, d: char)
    requires d !in s
    ensures Split(s, d) == [s]
    decreases |s|
  {
    if s != [] {
      SplitNoSeparator(s[1..], d);
      assert [s[0]] + s[1..] == s;
    }
  }

  lemma {:induction false} SplitConcat(a: string, d: char, b: string)
    ensures Split(a + [d] + b, d) == Split(a, d) + Split(b, d)
    decreases |a|
  {
    if a == [] {
      assert a + [d] + b == [d] + b;
      assert ([d] + b)[1..] == b;
    } else {
      assert (a + [d] + b)[1..] == a[1..] + [d] + b;
      SplitConcat(a[1..], d, b);
    }
  }

  /** Splitting a joined list gives the list back when no part holds the separator. */
  lemma {:induction false} SplitJoin(parts: seq<string>, d: char)
    requires |parts| >= 1
    requires forall k :: 0 <= k < |parts| ==> d !in parts[k]
    ensures Split(Join(parts, d), d) == parts
    decreases |parts|
  {
    if |parts| == 1 {
      SplitNoSeparator(parts[0], d);
    } else {
      SplitConcat(parts[0], d, Join(parts[1..], d));
      SplitNoSeparator(parts[0], d);
      SplitJoin(parts[1..], d);
    }
  }

  /** Joining the parts of a split gives the string back. */
  lemma {:induction false} JoinSplit(s: string, d: char)
    ensures Join(Split(s, d), d) == s
    decreases |s|
  {
    if s != [] {
      JoinSplit(s[1..], d);
      var rest := Split(s[1..], d);
      if s[0] == d {
        assert Split(s, d) == [""] + rest;
        assert Join([""] + rest, d) == "" + [d] + Join(rest, d);
      } else {
        var r := Split(s, d);
        assert r == [[s[0]] + rest[0]] + rest[1..];
        if |rest| == 1 {
          assert Join(r, d) == [s[0]] + rest[0];
        } else {
          assert r[1..] == rest[1..];
          assert Join(rest, d) == rest[0] + [d] + Join(rest[1..], d);
        }
      }
    }
  }

  /** A split into one part means the separator does not occur. */
  lemma SplitSingle(s: string, d: char)
    ensures |Split(s, d)| == 1 ==> d !in s
  {
    JoinSplit(s, d);
    var parts := Split(s, d);
    if |parts| == 1 {
      assert Join(parts, d) == parts[0];
    }
  }

  /** A character outside every part and other than the separator is not in the join. */
  lemma {:induction false} JoinKeepsOut(parts: seq<string>, d: char, c: char)
    requires c != d && forall i :: 0 <= i < |parts| ==> c !in parts[i]
    ensures c !in Join(parts, d)
    decreases |parts|
  {
    if |parts| > 1 {
      JoinKeepsOut(parts[1..], d, c);
    }
  }

  lemma {:induction false} JoinConcat(a: seq<string>, b: seq<string>, d: char)
    requires |a| >= 1 && |b| >= 1
    ensures Join(a + b, d) == Join(a, d) + [d] + Join(b, d)
    decreases |a|
  {
    assert (a + b)[0] == a[0];
    if |a| == 1 {
      assert (a + b)[1..] == b;
    } else {
      assert (a + b)[1..] == a[1..] + b;
      JoinConcat(a[1..], b, d);
      assert Join(a + b, d) == a[0] + [d] + (Join(a[1..], d) + [d] + Join(b, d));
    }
  }

  /** A join begins with its first part and ends with its last. */
  lemma {:induction false} JoinEnds(parts: seq<string>, d: char)
    requires |parts| >= 1
    ensures StartsWith(Join(parts, d), parts[0]) && EndsWith(Join(parts, d), parts[|parts| - 1])
    decreases |parts|
  {
    if |parts| > 1 {
      JoinEnds(parts[1..], d);
      var j := Join(parts[1..], d);
      var s := parts[0] + [d] + j;
      assert s[..|parts[0]|] == parts[0];
      assert s[|s| - |j|..] == j;
      var last := parts[|parts| - 1];
      assert parts[1..][|parts[1..]| - 1] == last;
      assert s[|s| - |last|..] == j[|j| - |last|..];
    }
  }

  /** Joining trimmed parts with a non-space separator gives a trimmed string. */
  lemma {:induction false} JoinTrimmed(parts: seq<string>, d: char)
    requires !IsSpace(d) && forall i :: 0 <= i < |parts| ==> Trimmed(parts[i])
    ensures Trimmed(Join(parts, d))
    decreases |parts|
  {
    if |parts| > 1 {
      JoinTrimmed(parts[1..], d);
      var j := Join(parts[1..], d);
      var s := parts[0] + [d] + j;
      assert s[0] == (if parts[0] == [] then d else parts[0][0]);
      assert s[|s| - 1] == (if j == [] then d else j[|j| - 1]);
    }
  }

  // ------------------------------------------------------ word boundaries

  /** A character of the class `\w` (ASCII letters, digits, underscore). */
  predicate IsWordChar(c: char)
  {
    ('a' <= c <= 'z') || ('A' <= c <= 'Z') || IsDigit(c) || c == '_'
  }

  /** The assertion `\b` at position `p` of `s`. */
  predicate WordBoundary(s: string, p: nat)
    requires p <= |s|
  {
    (p > 0 && IsWordChar(s[p - 1])) != (p < |s| && IsWordChar(s[p]))
  }

  /** `word` occurs in `s` at `p` with `\b` on both sides, compared exactly or ignoring ASCII case. */
  predicate WholeWordAt(s: string, word: string, p: nat, ignoreCase: bool)
  {
    p + |word| <= |s|
    && (if ignoreCase then Upper(s[p..p + |word|]) == Upper(word) else s[p..p + |word|] == word)
    && WordBoundary(s, p) && WordBoundary(s, p + |word|)
  }
}
