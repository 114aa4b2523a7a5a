/**
 * The artifact type registry: the configured artifact types, their flags and
 * statuses, and the checks built on them (type and ID normalisation,
 * provisional tokens, status validation, ID-format checks with suggestions,
 * provisional file names).
 */
module TypeRegistry {

  import opened Wrappers
  import opened Text

  /** The configuration record of one artifact type. */
  datatype TypeInfo = TypeInfo(
    headerFormat: string,              // `header_format`, "" when absent
    flags: map<string, bool>,          // boolean capabilities such as `is_file`, `can_tool_update`, `has_steps`
    validStatuses: Option<seq<string>>, // `valid_statuses`, when the type has its own list
    referenceTypes: seq<string>,       // `reference_types`, [] when absent
    addableNestedTypes: seq<string>,   // `addable_nested_artifact_types`, [] when absent
    moveStatuses: seq<string>)         // `status_update_file_move`, [] when absent

  /**
   * The loaded configuration: type codes in declaration order, the record of
   * each, and the keys of the global status table.
   */
  datatype Registry = Registry(order: seq<string>, types: map<string, TypeInfo>, statuses: seq<string>)
  {
    /**
     * The order lists each configured code once, and every code is an
     * upper-case word (the only codes an ID of the form `[A-Z]+-<digits>`
     * can name).
     */
    predicate Valid()
    {
      |order| > 0
      && (forall i, j :: 0 <= i < j < |order| ==> order[i] != order[j])
      && (forall c :: c in types ==> c in order)
      && (forall k :: 0 <= k < |order| ==> order[k] in types)
      && (forall k :: 0 <= k < |order| ==> IsUpperWord(order[k]))
    }
  }

  datatype TypeError =
    | EmptyType
    | UnknownType(code: string)
    | EmptyId
    | BadIdFormat(id: string)
    | BadProvisionalId(id: string)
    | InvalidStatus(status: string, valid: seq<string>)

  const ProvisionalMarker: string := "PROVISIONAL"

  // ------------------------------------------------------------ lookups

  /** `is_valid_artifact_type`: membership of the upper-cased code. */
  predicate IsValidType(reg: Registry, t: string)
  {
    Upper(t) in reg.types
  }

  /** `get_artifact_type_info`: the record of a type, an error for an unknown one. */
  function GetTypeInfo(reg: Registry, t: string): (r: Result<TypeInfo, TypeError>)
    ensures r.Success? <==> Upper(t) in reg.types
    ensures r.Success? ==> r.value == reg.types[Upper(t)]
  {
    var code := Upper(t);
    UpperIdempotent(t);
    if !IsValidType(reg, code) then Failure(UnknownType(code)) else Success(reg.types[code])
  }

  /** `has_capability`: a missing flag reads as false; an unknown type is an error. */
  function HasCapability(reg: Registry, t: string, capability: string): (r: Result<bool, TypeError>)
    ensures r.Failure? <==> !IsValidType(reg, t)
    ensures r.Success? ==> (r.value <==> capability in reg.types[Upper(t)].flags && reg.types[Upper(t)].flags[capability])
    ensures r.Success? && capability !in reg.types[Upper(t)].flags ==> !r.value
  {
    UpperIdempotent(t);
    match GetTypeInfo(reg, Upper(t))
    case Failure(e) => Failure(e)
    case Success(info) => Success(if capability in info.flags then info.flags[capability] else false)
  }

  /** `can_tool_update` */
  function CanToolUpdate(reg: Registry, t: string): (r: Result<bool, TypeError>)
    ensures r.Failure? <==> !IsValidType(reg, t)
    ensures r.Success? ==> (r.value <==> "can_tool_update" in reg.types[Upper(t)].flags && reg.types[Upper(t)].flags["can_tool_update"])
  {
    HasCapability(reg, t, "can_tool_update")
  }

  /** Lookups treat the code case-insensitively: any spelling finds the same record. */
  lemma LookupIgnoresCase(reg: Registry, t: string)
    ensures IsValidType(reg, t) <==> IsValidType(reg, Upper(t))
    ensures GetTypeInfo(reg, t) == GetTypeInfo(reg, Upper(t))
  {
    UpperIdempotent(t);
  }

  // ----------------------------------------------------- normalisation

  /** `validate_and_normalize_artifact_type` */
  function ValidateAndNormalizeType(reg: Registry, t: string): (r: Result<string, TypeError>)
    ensures AllSpace(t) ==> r == Failure(EmptyType)
    ensures !AllSpace(t) ==> (r.Success? <==> Upper(Strip(t)) in reg.types)
    ensures r.Success? ==> r.value == Upper(Strip(t)) && r.value in reg.types
  {
    StripEmptyIff(t);
    if t == "" || Strip(t) == "" then Failure(EmptyType)
    else
      var normalized := Upper(Strip(t));
      UpperIdempotent(Strip(t));
      if IsValidType(reg, normalized) then Success(normalized) else Failure(UnknownType(t))
  }

  /** Normalising an already normalised type gives it back unchanged. */
  lemma NormalizeTypeIdempotent(reg: Registry, t: string)
    requires ValidateAndNormalizeType(reg, t).Success?
    ensures ValidateAndNormalizeType(reg, ValidateAndNormalizeType(reg, t).value) == ValidateAndNormalizeType(reg, t)
  {
    var n := Upper(Strip(t));
    StripIsTrimmed(t);
    UpperTrimmed(Strip(t));
    TrimmedStrip(n);
    UpperIdempotent(Strip(t));
    StripEmptyIff(t);
    StripEmptyIff(n);
  }

  // ------------------------------------------------ IDs `TYPE-<digits>`

  /**
   * Splits `u` as `[A-Z]+` followed by `-`: the type word and what follows
   * the dash. The word cannot hold a dash, so the split is at the first one.
   */
  function TypeAndRest(u: string): (r: Option<(string, string)>)
    ensures r.Some? ==> IsUpperWord(r.value.0) && u == r.value.0 + "-" + r.value.1
  {
    match IndexOf(u, '-')
    case None => None
    case Some(k) => if IsUpperWord(u[..k]) then Some((u[..k], u[k + 1..])) else None
  }

  lemma TypeAndRestOf(t: string, rest: string)
    requires IsUpperWord(t)
    ensures TypeAndRest(t + "-" + rest) == Some((t, rest))
  {
    var u := t + "-" + rest;
    assert u[|t|] == '-';
    assert forall i :: 0 <= i < |t| ==> u[i] == t[i] && IsUpperLetter(t[i]);
    var k := IndexOf(u, '-').value;
    assert k == |t|;
    assert u[..k] == t && u[k + 1..] == rest;
  }

  /** `u` has the shape `^([A-Z]+)-\d+$` with the type word `t`. */
  predicate IdShaped(u: string, t: string)
  {
    IsUpperWord(t) && StartsWith(u, t + "-") && IsDigits(u[|t| + 1..])
  }

  /** `get_artifact_type_from_id` */
  function TypeFromId(reg: Registry, id: string): (r: Result<string, TypeError>)
    ensures r.Success? ==> r.value in reg.types && IdShaped(DropFinalNewline(Upper(id)), r.value)
    ensures forall t :: IdShaped(DropFinalNewline(Upper(id)), t) && t in reg.types ==> r == Success(t)
    ensures (forall t :: !IdShaped(DropFinalNewline(Upper(id)), t)) ==> r.Failure?
  {
    if id == "" then Failure(EmptyId)
    else
      var u := DropFinalNewline(Upper(id));
      var parse := TypeAndRest(u);
      if parse.Some? && IsDigits(parse.value.1) then
        IdShapedWitness(u, parse.value.0);
        IdShapedUnique(u, parse.value.0);
        TrimmedStrip(parse.value.0);
        UpperOfUpperWord(parse.value.0);
        ValidateAndNormalizeType(reg, parse.value.0)
      else
        IdShapedNone(u);
        Failure(BadIdFormat(id))
  }

  lemma IdShapedWitness(u: string, t: string)
    requires TypeAndRest(u).Some? && TypeAndRest(u).value.0 == t && IsDigits(TypeAndRest(u).value.1)
    ensures IdShaped(u, t)
  {
    assert u[..|t| + 1] == t + "-";
    assert u[|t| + 1..] == TypeAndRest(u).value.1;
  }

  lemma IdShapedUnique(u: string, t: string)
    requires TypeAndRest(u).Some? && TypeAndRest(u).value.0 == t
    ensures forall t' :: IdShaped(u, t') ==> t' == t
  {
    forall t' | IdShaped(u, t') ensures t' == t {
      assert u == t' + "-" + u[|t'| + 1..];
      TypeAndRestOf(t', u[|t'| + 1..]);
    }
  }

  lemma IdShapedNone(u: string)
    requires TypeAndRest(u).None? || !IsDigits(TypeAndRest(u).value.1)
    ensures forall t :: !IdShaped(u, t)
  {
    forall t | IdShaped(u, t) ensures false {
      assert u == t + "-" + u[|t| + 1..];
      TypeAndRestOf(t, u[|t| + 1..]);
    }
  }

  /** The empty string and any ID that is not `TYPE-<digits>` are rejected. */
  lemma TypeFromIdRejects(reg: Registry, id: string)
    requires id == "" || TypeAndRest(DropFinalNewline(Upper(id))).None?
    ensures TypeFromId(reg, id).Failure?
  {
  }

  // ----------------------------------------------- provisional tokens

  /** `text[p..]` starts with the upper-case word `w`, ignoring ASCII case on the text side. */
  predicate MatchesAt(text: string, p: nat, w: string)
  {
    p + |w| <= |text| && forall i :: 0 <= i < |w| ==> UpperChar(text[p + i]) == w[i]
  }

  /**
   * Where a provisional token `<t>-PROVISIONAL<digits>` that starts at `p`
   * ends, comparing the code and the marker ignoring ASCII case, with `\b`
   * before it and after its digits. The code is taken literally, whatever
   * its characters.
   */
  function TokenEnd(text: string, t: string, p: nat): (r: Option<nat>)
    requires p <= |text|
    ensures r.Some? ==> p + |t| + 12 < r.value <= |text|
  {
    var m := p + |t| + 12;
    if WordBoundary(text, p) && MatchesAt(text, p, Upper(t) + "-" + ProvisionalMarker) then
      var q := m + |DigitRun(text[m..])|;
      if q > m && WordBoundary(text, q) then Some(q) else None
    else None
  }

  /** The longest run of digits at the start of `s` (`\d+` is greedy). */
  function DigitRun(s: string): (r: string)
    ensures |r| <= |s| && r == s[..|r|]
    ensures forall i :: 0 <= i < |r| ==> IsDigit(r[i])
    ensures |r| == |s| || !IsDigit(s[|r|])
  {
    if s != [] && IsDigit(s[0]) then [s[0]] + DigitRun(s[1..]) else []
  }

  /** The alternation `(T1|T2|...)` tries the codes in declaration order. */
  function TokenAt(codes: seq<string>, text: string, p: nat): (r: Option<nat>)
    requires p <= |text|
    ensures r.Some? ==> p < r.value <= |text|
  {
    if codes == [] then None
    else if TokenEnd(text, codes[0], p).Some? then TokenEnd(text, codes[0], p)
    else TokenAt(codes[1..], text, p)
  }

  /** The alternation reports the span of the first code that starts a token, and only such spans. */
  lemma {:induction false} TokenAtSpec(codes: seq<string>, text: string, p: nat)
    requires p <= |text|
    ensures TokenAt(codes, text, p).Some? ==> exists k :: 0 <= k < |codes| && TokenEnd(text, codes[k], p) == TokenAt(codes, text, p)
    ensures TokenAt(codes, text, p).None? ==> forall k :: 0 <= k < |codes| ==> TokenEnd(text, codes[k], p).None?
  {
    if codes != [] && TokenEnd(text, codes[0], p).None? {
      TokenAtSpec(codes[1..], text, p);
      assert forall k :: 1 <= k < |codes| ==> codes[k] == codes[1..][k - 1];
    }
  }

  /**
   * The whole pattern at a position. With no configured code the group is
   * `()`, which matches the empty string, so the pattern is
   * `\b-PROVISIONAL\d+\b`.
   */
  function PatternAt(codes: seq<string>, text: string, p: nat): (r: Option<nat>)
    requires p <= |text|
    ensures r.Some? ==> p < r.value <= |text|
  {
    if codes == [] then TokenEnd(text, "", p) else TokenAt(codes, text, p)
  }

  /** The tokens `re.finditer` reports from position `p` on, upper-cased. */
  function ScanTokens(codes: seq<string>, text: string, p: nat): set<string>
    requires p <= |text|
    decreases |text| - p
  {
    if p == |text| then {}
    else match PatternAt(codes, text, p)
      case Some(q) => {Upper(text[p..q])} + ScanTokens(codes, text, q)
      case None => ScanTokens(codes, text, p + 1)
  }

  /** `find_provisional_artifact_ids` */
  method FindProvisionalIds(reg: Registry, text: string) returns (ids: set<string>)
    ensures ids == ScanTokens(reg.order, text, 0)
  {
    ids := {};
    var p := 0;
    while p < |text|
      invariant p <= |text|
      invariant ids + ScanTokens(reg.order, text, p) == ScanTokens(reg.order, text, 0)
      decreases |text| - p
    {
      match PatternAt(reg.order, text, p)
      case Some(q) =>
        ids := ids + {Upper(text[p..q])};
        p := q;
      case None =>
        p := p + 1;
    }
  }

  /** A character whose upper-case form is a letter is itself an ASCII letter. */
  lemma UpperLetterSource(c: char)
    requires IsUpperLetter(UpperChar(c))
    ensures IsWordChar(c) && c != '-' && !IsDigit(c)
  {
  }

  /** The characters of a token span: letters, one dash, the marker's letters, digits. */
  lemma TokenSpanChars(text: string, t: string, p: nat, q: nat)
    requires p <= |text| && IsUpperWord(t) && TokenEnd(text, t, p) == Some(q)
    ensures forall i :: p <= i < p + |t| ==> IsWordChar(text[i]) && !IsDigit(text[i]) && text[i] != '-'
    ensures text[p + |t|] == '-'
    ensures forall i :: p + |t| < i < p + |t| + 12 ==> IsWordChar(text[i]) && !IsDigit(text[i]) && text[i] != '-'
    ensures forall i :: p + |t| + 12 <= i < q ==> IsDigit(text[i])
    ensures q == |text| || !IsWordChar(text[q])
  {
    UpperOfUpperWord(t);
    var w := t + "-" + ProvisionalMarker;
    assert MatchesAt(text, p, w);
    forall i | p <= i < p + |t| ensures IsWordChar(text[i]) && !IsDigit(text[i]) && text[i] != '-' {
      assert UpperChar(text[i]) == w[i - p] == t[i - p];
      UpperLetterSource(text[i]);
    }
    assert UpperChar(text[p + |t|]) == w[|t|] == '-';
    forall i | p + |t| < i < p + |t| + 12 ensures IsWordChar(text[i]) && !IsDigit(text[i]) && text[i] != '-' {
      assert UpperChar(text[i]) == w[i - p] == ProvisionalMarker[i - p - |t| - 1];
      UpperLetterSource(text[i]);
    }
    var m := p + |t| + 12;
    var run := DigitRun(text[m..]);
    forall i | m <= i < q ensures IsDigit(text[i]) {
      assert run[i - m] == text[m..][i - m];
    }
  }

  /** No token can start strictly inside another one, so the scan never skips a token. */
  lemma NoTokenInside(reg: Registry, text: string, p: nat, q: nat, r: nat)
    requires reg.Valid() && p <= |text| && TokenAt(reg.order, text, p) == Some(q) && p < r < q
    ensures TokenAt(reg.order, text, r).None?
  {
    TokenAtSpec(reg.order, text, p);
    TokenAtSpec(reg.order, text, r);
    var k :| 0 <= k < |reg.order| && TokenEnd(text, reg.order[k], p) == Some(q);
    var t := reg.order[k];
    TokenSpanChars(text, t, p, q);
    forall j | 0 <= j < |reg.order| ensures TokenEnd(text, reg.order[j], r).None? {
      assert IsUpperWord(reg.order[j]);
      NoTokenInsideSpan(text, t, p, q, reg.order[j], r);
    }
  }

  lemma NoTokenInsideSpan(text: string, t: string, p: nat, q: nat, t': string, r: nat)
    requires p <= |text| && IsUpperWord(t) && IsUpperWord(t') && TokenEnd(text, t, p) == Some(q) && p < r < q
    ensures TokenEnd(text, t', r).None?
  {
    UpperOfUpperWord(t');
    TokenSpanChars(text, t, p, q);
    var w := t' + "-" + ProvisionalMarker;
    if r == p + |t| + 1 {
      // Right after the dash: `w` and the text part ways within the marker or at its first digit.
      var i := if |t'| <= 11 then |t'| else 11;
      if |t'| <= 11 {
        assert w[i] == '-';
      } else {
        assert w[i] == t'[11] && IsUpperLetter(w[i]);
        assert IsDigit(text[r + i]);
      }
      assert UpperChar(text[r + i]) != w[i];
      assert !MatchesAt(text, r, w);
    } else if r == p + |t| {
      assert UpperChar(text[r]) != w[0];
      assert !MatchesAt(text, r, w);
    } else {
      assert IsWordChar(text[r - 1]) && IsWordChar(text[r]);
      assert !WordBoundary(text, r);
    }
  }

  /** Every token that starts at or after `s` is reported by the scan from `s`. */
  lemma {:induction false} ScanReaches(reg: Registry, text: string, s: nat, p: nat, q: nat)
    requires reg.Valid() && s <= p <= |text| && TokenAt(reg.order, text, p) == Some(q)
    ensures Upper(text[p..q]) in ScanTokens(reg.order, text, s)
    decreases p - s
  {
    if s < p {
      match PatternAt(reg.order, text, s)
      case None =>
        ScanReaches(reg, text, s + 1, p, q);
      case Some(q') =>
        if q' > p {
          NoTokenInside(reg, text, s, q', p);
        } else {
          ScanReaches(reg, text, q', p, q);
        }
    }
  }

  /** Every reported token is the upper-cased text of a token span. */
  lemma {:induction false} ScanSound(codes: seq<string>, text: string, s: nat, tok: string)
    requires s <= |text| && tok in ScanTokens(codes, text, s)
    ensures exists p: nat, q: nat :: s <= p <= |text| && PatternAt(codes, text, p) == Some(q) && tok == Upper(text[p..q])
    decreases |text| - s
  {
    match PatternAt(codes, text, s)
    case Some(q) =>
      if tok != Upper(text[s..q]) { ScanSound(codes, text, q, tok); }
    case None =>
      ScanSound(codes, text, s + 1, tok);
  }

  /** The token spelled by a span: the configured code, the marker, and the span's digits. */
  lemma TokenSpelling(text: string, t: string, p: nat, q: nat)
    requires p <= |text| && IsUpperWord(t) && TokenEnd(text, t, p) == Some(q)
    ensures Upper(text[p..q]) == t + "-" + ProvisionalMarker + text[p + |t| + 12..q]
    ensures IsDigits(text[p + |t| + 12..q])
  {
    UpperOfUpperWord(t);
    TokenSpanChars(text, t, p, q);
    var w := t + "-" + ProvisionalMarker;
    var m := p + |t| + 12;
    assert MatchesAt(text, p, w);
    var u := Upper(text[p..q]);
    var v := w + text[m..q];
    assert |u| == |v|;
    forall i | 0 <= i < |u| ensures u[i] == v[i] {
      if i < |w| {
        assert u[i] == UpperChar(text[p + i]);
      } else {
        assert IsDigit(text[p + i]);
      }
    }
  }

  /**
   * What `find_provisional_artifact_ids` reports: every token is the
   * upper-cased text of a whole-word, case-insensitive occurrence of the
   * pattern, whatever the configured codes; when they are distinct upper-case
   * words it is `<known TYPE>-PROVISIONAL<digits>` and parses as a
   * provisional ID.
   */
  lemma ProvisionalTokensSound(reg: Registry, text: string, tok: string)
    requires tok in ScanTokens(reg.order, text, 0)
    ensures Upper(tok) == tok
    ensures exists p :: WholeWordAt(text, tok, p, true)
    ensures reg.Valid() ==> ParseProvisionalId(reg, tok).Success?
  {
    ScanSound(reg.order, text, 0, tok);
    var p: nat, q: nat :| p <= |text| && PatternAt(reg.order, text, p) == Some(q) && tok == Upper(text[p..q]);
    var t := "";
    if reg.order != [] {
      TokenAtSpec(reg.order, text, p);
      var k :| 0 <= k < |reg.order| && TokenEnd(text, reg.order[k], p) == Some(q);
      t := reg.order[k];
      if reg.Valid() {
        assert t in reg.types;
        TokenParses(reg, text, t, p, q);
      }
    }
    TokenIsWholeWord(text, t, p, q);
    UpperIdempotent(text[p..q]);
  }

  /**
   * With no type configured the pattern still reports the bare
   * `-PROVISIONAL<digits>` tokens, and `parse_provisional_id` rejects each.
   */
  lemma NoTypesTokens(reg: Registry, text: string, tok: string)
    requires reg.order == [] && tok in ScanTokens(reg.order, text, 0)
    ensures |tok| > 12 && tok[..12] == "-" + ProvisionalMarker
    ensures ParseProvisionalId(reg, tok).Failure?
  {
    ScanSound(reg.order, text, 0, tok);
    var p: nat, q: nat :| p <= |text| && PatternAt(reg.order, text, p) == Some(q) && tok == Upper(text[p..q]);
    assert PatternAt(reg.order, text, p) == TokenEnd(text, "", p);
    BareTokenShape(text, p, q);
    assert tok[0] == tok[..12][0] == '-';
    DashFirstRejected(reg, tok);
  }

  /** A match of the bare pattern begins, upper-cased, with `-PROVISIONAL`. */
  lemma BareTokenShape(text: string, p: nat, q: nat)
    requires p <= |text| && TokenEnd(text, "", p) == Some(q)
    ensures |Upper(text[p..q])| > 12 && Upper(text[p..q])[..12] == "-" + ProvisionalMarker
  {
    var tok := Upper(text[p..q]);
    var w := Upper("") + "-" + ProvisionalMarker;
    assert w == "-" + ProvisionalMarker;
    assert MatchesAt(text, p, w);
    forall i | 0 <= i < 12 ensures tok[i] == w[i] {
      assert tok[i] == UpperChar(text[p + i]);
    }
  }

  /** An ID that starts with a dash names no type, so it does not parse. */
  lemma DashFirstRejected(reg: Registry, id: string)
    requires |id| > 1 && id[0] == '-'
    ensures ParseProvisionalId(reg, id).Failure?
  {
    var u := DropFinalNewline(Upper(id));
    assert |u| > 0 && u[0] == '-';
    assert IndexOf(u, '-') == Some(0);
    assert !IsUpperWord(u[..0]);
  }

  lemma TokenIsWholeWord(text: string, t: string, p: nat, q: nat)
    requires p <= |text| && TokenEnd(text, t, p) == Some(q)
    ensures WholeWordAt(text, Upper(text[p..q]), p, true)
  {
    var x := text[p..q];
    var u := Upper(x);
    UpperIdempotent(x);
    assert |u| == |x| == q - p;
    assert text[p..p + |u|] == x;
    assert Upper(text[p..p + |u|]) == Upper(u);
    TokenBoundaries(text, t, p, q);
  }

  /** A token is delimited by `\b` on both sides. */
  lemma TokenBoundaries(text: string, t: string, p: nat, q: nat)
    requires p <= |text| && TokenEnd(text, t, p) == Some(q)
    ensures WordBoundary(text, p) && WordBoundary(text, q)
  {
  }

  lemma TokenParses(reg: Registry, text: string, t: string, p: nat, q: nat)
    requires reg.Valid() && t in reg.types && p <= |text| && TokenEnd(text, t, p) == Some(q)
    ensures ParseProvisionalId(reg, Upper(text[p..q])).Success?
  {
    TokenSpelling(text, t, p, q);
    ParseProvisionalOf(reg, t, text[p + |t| + 12..q]);
  }

  /** And nothing is missed: every such whole-word occurrence is reported. */
  lemma ProvisionalTokensComplete(reg: Registry, text: string, t: string, p: nat, q: nat)
    requires reg.Valid() && t in reg.types && p <= |text| && TokenEnd(text, t, p) == Some(q)
    ensures Upper(text[p..q]) in ScanTokens(reg.order, text, 0)
  {
    var k :| 0 <= k < |reg.order| && reg.order[k] == t;
    FirstCodeWins(reg, text, p, k, q);
    ScanReaches(reg, text, 0, p, TokenAt(reg.order, text, p).value);
  }

  /** When some code starts a token at `p`, the alternation finds the same span. */
  lemma FirstCodeWins(reg: Registry, text: string, p: nat, k: nat, q: nat)
    requires reg.Valid() && k < |reg.order| && p <= |text| && TokenEnd(text, reg.order[k], p) == Some(q)
    ensures TokenAt(reg.order, text, p) == Some(q)
  {
    TokenAtSpec(reg.order, text, p);
    var j :| 0 <= j < |reg.order| && TokenEnd(text, reg.order[j], p) == TokenAt(reg.order, text, p);
    SameToken(text, p, reg.order[k], reg.order[j], q, TokenAt(reg.order, text, p).value);
  }

  /** Two codes that both start a token at `p` are the same code. */
  lemma SameToken(text: string, p: nat, t: string, t': string, q: nat, q': nat)
    requires p <= |text| && IsUpperWord(t) && IsUpperWord(t')
    requires TokenEnd(text, t, p) == Some(q) && TokenEnd(text, t', p) == Some(q')
    ensures t == t' && q == q'
  {
    CodeEndsAtDash(text, t, p, q);
    CodeEndsAtDash(text, t', p, q');
    assert |t| == |t'|;
    CodeSpelledAt(text, t, p);
    CodeSpelledAt(text, t', p);
  }

  /** A code matched at `p` is the upper-cased text there. */
  lemma CodeSpelledAt(text: string, t: string, p: nat)
    requires MatchesAt(text, p, t + "-" + ProvisionalMarker)
    ensures Upper(text[p..p + |t|]) == t
  {
    var w := t + "-" + ProvisionalMarker;
    forall i | 0 <= i < |t| ensures Upper(text[p..p + |t|])[i] == t[i] {
      assert UpperChar(text[p + i]) == w[i] == t[i];
    }
  }

  /** The code of a token runs up to the first dash after its start. */
  lemma CodeEndsAtDash(text: string, t: string, p: nat, q: nat)
    requires p <= |text| && IsUpperWord(t) && TokenEnd(text, t, p) == Some(q)
    ensures IndexOf(text[p..], '-') == Some(|t|)
    ensures MatchesAt(text, p, t + "-" + ProvisionalMarker)
  {
    UpperOfUpperWord(t);
    TokenSpanChars(text, t, p, q);
    var s := text[p..];
    assert s[|t|] == '-';
    assert forall i :: 0 <= i < |t| ==> s[i] == text[p + i] && s[i] != '-';
    assert '-' !in s[..|t|];
  }

  /** `parse_provisional_id` */
  function ParseProvisionalId(reg: Registry, id: string): (r: Result<(string, nat), TypeError>)
    ensures r.Success? ==> r.value.0 in reg.types
  {
    var u := DropFinalNewline(Upper(id));
    match TypeAndRest(u)
    case None => Failure(BadProvisionalId(id))
    case Some((t, rest)) =>
      if StartsWith(rest, ProvisionalMarker) && IsDigits(rest[|ProvisionalMarker|..]) then
        if IsValidType(reg, t) then
          UpperOfUpperWord(t);
          Success((t, DigitsValue(rest[|ProvisionalMarker|..])))
        else Failure(UnknownType(t))
      else Failure(BadProvisionalId(id))
  }

  /** A token built from a known code and digits parses back to the code and the digits' value. */
  lemma ParseProvisionalOf(reg: Registry, t: string, digits: string)
    requires t in reg.types && IsUpperWord(t) && IsDigits(digits)
    ensures ParseProvisionalId(reg, t + "-" + ProvisionalMarker + digits) == Success((t, DigitsValue(digits)))
  {
    var rest := ProvisionalMarker + digits;
    ProvisionalSpelling(t, digits);
    TypeAndRestOf(t, rest);
    assert rest[|ProvisionalMarker|..] == digits;
    UpperOfUpperWord(t);
  }

  /** `<TYPE>-PROVISIONAL<digits>` is its own upper-case form and does not end in a newline. */
  lemma ProvisionalSpelling(t: string, digits: string)
    requires IsUpperWord(t) && (forall i :: 0 <= i < |digits| ==> IsDigit(digits[i]))
    ensures var id := t + "-" + (ProvisionalMarker + digits); Upper(id) == id && DropFinalNewline(id) == id
    ensures t + "-" + ProvisionalMarker + digits == t + "-" + (ProvisionalMarker + digits)
    ensures var id := t + "-" + (ProvisionalMarker + digits); id[|id| - 1] == 'L' || IsDigit(id[|id| - 1])
  {
    var rest := ProvisionalMarker + digits;
    assert IsUpperWord(ProvisionalMarker);
    UpperOfUpperWord(ProvisionalMarker);
    UpperOfDigits(digits);
    UpperConcat(ProvisionalMarker, digits);
    UpperOfIdShape(t, rest);
    var id := t + "-" + rest;
    assert id[|id| - 1] == rest[|rest| - 1];
    assert rest[|rest| - 1] == 'L' || IsDigit(rest[|rest| - 1]) by {
      if |digits| > 0 { assert rest[|rest| - 1] == digits[|digits| - 1]; }
    }
  }

  /** `<TYPE>-<rest>` with an upper-case rest is its own upper-case form. */
  lemma UpperOfIdShape(t: string, rest: string)
    requires IsUpperWord(t) && Upper(rest) == rest
    ensures Upper(t + "-" + rest) == t + "-" + rest
  {
    UpperOfUpperWord(t);
    UpperConcat(t, "-");
    UpperConcat(t + "-", rest);
  }

  /** Anything else is rejected: no `TYPE-` prefix, no marker, no digits, or an unknown type. */
  lemma ParseProvisionalRejects(reg: Registry, id: string)
    requires var u := DropFinalNewline(Upper(id));
      TypeAndRest(u).None?
      || !StartsWith(TypeAndRest(u).value.1, ProvisionalMarker)
      || !IsDigits(TypeAndRest(u).value.1[|ProvisionalMarker|..])
      || TypeAndRest(u).value.0 !in reg.types
    ensures ParseProvisionalId(reg, id).Failure?
  {
    var u := DropFinalNewline(Upper(id));
    if TypeAndRest(u).Some? {
      UpperOfUpperWord(TypeAndRest(u).value.0);
    }
  }

  // ----------------------------------------------------------- statuses

  /** `get_valid_statuses_for_type` */
  function ValidStatusesForType(reg: Registry, t: string): (r: Result<seq<string>, TypeError>)
    ensures r.Failure? <==> !IsValidType(reg, t)
    ensures IsValidType(reg, t) && reg.types[Upper(t)].validStatuses.Some? ==> r == Success(reg.types[Upper(t)].validStatuses.value)
    ensures IsValidType(reg, t) && reg.types[Upper(t)].validStatuses.None? ==> r == Success(reg.statuses)
  {
    UpperIdempotent(t);
    match GetTypeInfo(reg, Upper(t))
    case Failure(e) => Failure(e)
    case Success(info) =>
      Success(if info.validStatuses.Some? then info.validStatuses.value else reg.statuses)
  }

  /** `is_valid_status_for_type` */
  function IsValidStatusForType(reg: Registry, status: string, t: string): (r: Result<bool, TypeError>)
    ensures r.Failure? <==> !IsValidType(reg, t)
    ensures r.Success? ==> (r.value <==> Upper(status) in ValidStatusesForType(reg, t).value)
  {
    match ValidStatusesForType(reg, t)
    case Failure(e) => Failure(e)
    case Success(valid) => Success(Upper(status) in valid)
  }

  /** `validate_and_normalize_status_for_type` */
  function ValidateAndNormalizeStatus(reg: Registry, status: string, t: string): (r: Result<string, TypeError>)
    ensures !IsValidType(reg, t) ==> r == Failure(UnknownType(Upper(t)))
    ensures IsValidType(reg, t) ==>
      (r == Success(Upper(status)) <==> Upper(status) in ValidStatusesForType(reg, t).value)
    ensures IsValidType(reg, t) && r.Failure? ==> r.error == InvalidStatus(status, ValidStatusesForType(reg, t).value)
  {
    var statusUpper := Upper(status);
    UpperIdempotent(status);
    UpperIdempotent(t);
    match IsValidStatusForType(reg, statusUpper, t)
    case Failure(e) => Failure(e)
    case Success(ok) =>
      if !ok then Failure(InvalidStatus(status, ValidStatusesForType(reg, t).value)) else Success(statusUpper)
  }

  /** A normalised status normalises to itself. */
  lemma NormalizeStatusIdempotent(reg: Registry, status: string, t: string)
    requires ValidateAndNormalizeStatus(reg, status, t).Success?
    ensures ValidateAndNormalizeStatus(reg, ValidateAndNormalizeStatus(reg, status, t).value, t)
         == ValidateAndNormalizeStatus(reg, status, t)
  {
    UpperIdempotent(status);
  }

  // ---------------------------------------------------- ID-format check

  datatype IdError = NotGiven | Blank | BadFormat | UnknownIdType(code: string) | NotPositive(number: nat)

  /** The suggestions of `validate_artifact_id_format`, by kind; their wording is not modelled. */
  datatype Suggestion =
    | DidYouMean(id: string)
    | ListValidTypes
    | StaticExamples
    | ExampleIds(ids: seq<string>)
    | TryInstead(id: string)

  datatype IdCheck = IdCheck(
    valid: bool,
    artifactType: Option<string>,
    number: Option<nat>,
    error: Option<IdError>,
    suggestions: Option<seq<Suggestion>>)

  /** The type and number of a valid ID: stripped, upper-cased `TYPE-<digits>`, known type, number > 0. */
  function IdFormat(reg: Registry, id: string): (r: Option<(string, nat)>)
  {
    IdFormatOf(reg, Upper(Strip(id)))
  }

  /** The same, for the already stripped and upper-cased input. */
  function IdFormatOf(reg: Registry, u: string): (r: Option<(string, nat)>)
    ensures r.Some? ==> IsUpperWord(r.value.0) && r.value.0 in reg.types && r.value.1 > 0
  {
    match TypeAndRest(u)
    case None => None
    case Some((t, digits)) =>
      UpperOfUpperWord(t);
      if IsDigits(digits) && IsValidType(reg, t) && DigitsValue(digits) > 0 then Some((t, DigitsValue(digits))) else None
  }

  /** `Did you mean '<T>-1'?` for each code (in order) that the input starts with. */
  function PrefixHints(codes: seq<string>, u: string): seq<Suggestion>
  {
    if codes == [] then []
    else
      var c := codes[|codes| - 1];
      PrefixHints(codes[..|codes| - 1], u) + (if StartsWith(u, c) then [DidYouMean(c + "-1")] else [])
  }

  /** `Did you mean '<T>-<n>'?` for each code (in order) that contains or is contained in the typed code. */
  function RelatedHints(codes: seq<string>, t: string, n: nat): seq<Suggestion>
  {
    if codes == [] then []
    else
      var c := codes[|codes| - 1];
      RelatedHints(codes[..|codes| - 1], t, n)
      + (if Contains(c, t) || Contains(t, c) then [DidYouMean(c + "-" + NatToString(n))] else [])
  }

  /** `<T>-<n>` for each given code. */
  function ExampleIdsFor(codes: seq<string>, n: nat): (r: seq<string>)
    ensures |r| == |codes|
    ensures forall i :: 0 <= i < |codes| ==> r[i] == codes[i] + "-" + NatToString(n)
  {
    if codes == [] then [] else ExampleIdsFor(codes[..|codes| - 1], n) + [codes[|codes| - 1] + "-" + NatToString(n)]
  }

  /** The suggestions for an input that is not `TYPE-<digits>`. */
  function FormatHints(reg: Registry, u: string): seq<Suggestion>
  {
    var hints := (if u in reg.order then [DidYouMean(u + "-1")] else []) + PrefixHints(reg.order, u);
    if hints == [] then [ListValidTypes, StaticExamples] else hints
  }

  /** The suggestions for an unknown type `t` with number `n`. */
  function TypeHints(reg: Registry, t: string, n: nat): seq<Suggestion>
  {
    var hints := RelatedHints(reg.order, t, n);
    if hints == [] then [ExampleIds(ExampleIdsFor(reg.order[..if |reg.order| < 3 then |reg.order| else 3], n))] else hints
  }

  /** `validate_artifact_id_format` */
  method ValidateArtifactIdFormat(reg: Registry, id: string) returns (r: IdCheck)
    ensures r.valid <==> IdFormat(reg, id).Some?
    ensures r.valid ==> r == IdCheck(true, Some(IdFormat(reg, id).value.0), Some(IdFormat(reg, id).value.1), None, None)
    ensures !r.valid ==> r.error.Some? && r.artifactType.None? && r.number.None?
    ensures r.error == Some(NotGiven) <==> id == ""
    ensures r.error == Some(Blank) <==> id != "" && AllSpace(id)
    ensures r.error == Some(BadFormat) ==>
      var p := TypeAndRest(Upper(Strip(id)));
      (p.None? || !IsDigits(p.value.1)) && r.suggestions == Some(FormatHints(reg, Upper(Strip(id))))
    ensures r.error.Some? && r.error.value.UnknownIdType? ==>
      var p := TypeAndRest(Upper(Strip(id)));
      p.Some? && IsDigits(p.value.1) && r.error.value.code == p.value.0 && p.value.0 !in reg.types
      && r.suggestions == Some(TypeHints(reg, p.value.0, DigitsValue(p.value.1)))
    ensures r.error.Some? && r.error.value.NotPositive? ==>
      var p := TypeAndRest(Upper(Strip(id)));
      p.Some? && IsDigits(p.value.1) && p.value.0 in reg.types && DigitsValue(p.value.1) == 0
      && r.suggestions == Some([TryInstead(p.value.0 + "-1")])
  {
    r := IdCheck(false, None, None, None, None);
    if id == "" {
      r := r.(error := Some(NotGiven));
      return;
    }
    var s := Strip(id);
    StripEmptyIff(id);
    if s == "" {
      r := r.(error := Some(Blank));
      return;
    }
    r := CheckNormalizedId(reg, Upper(s));
  }

  /** The checks after stripping and upper-casing: shape, type, number. */
  method CheckNormalizedId(reg: Registry, u: string) returns (r: IdCheck)
    ensures r.valid <==> IdFormatOf(reg, u).Some?
    ensures r.valid ==> r == IdCheck(true, Some(IdFormatOf(reg, u).value.0), Some(IdFormatOf(reg, u).value.1), None, None)
    ensures !r.valid ==> r.error.Some? && r.artifactType.None? && r.number.None?
    ensures r.error.Some? ==> r.error.value.BadFormat? || r.error.value.UnknownIdType? || r.error.value.NotPositive?
    ensures r.error == Some(BadFormat) ==>
      var p := TypeAndRest(u);
      (p.None? || !IsDigits(p.value.1)) && r.suggestions == Some(FormatHints(reg, u))
    ensures r.error.Some? && r.error.value.UnknownIdType? ==>
      var p := TypeAndRest(u);
      p.Some? && IsDigits(p.value.1) && r.error.value.code == p.value.0 && p.value.0 !in reg.types
      && r.suggestions == Some(TypeHints(reg, p.value.0, DigitsValue(p.value.1)))
    ensures r.error.Some? && r.error.value.NotPositive? ==>
      var p := TypeAndRest(u);
      p.Some? && IsDigits(p.value.1) && p.value.0 in reg.types && DigitsValue(p.value.1) == 0
      && r.suggestions == Some([TryInstead(p.value.0 + "-1")])
  {
    var parse := TypeAndRest(u);
    if parse.None? || !IsDigits(parse.value.1) {
      var more := CollectPrefixHints(reg.order, u);
      var hints := (if u in reg.order then [DidYouMean(u + "-1")] else []) + more;
      if hints == [] {
        hints := [ListValidTypes, StaticExamples];
      }
      return IdCheck(false, None, None, Some(BadFormat), Some(hints));
    }
    var t := parse.value.0;
    var number := DigitsValue(parse.value.1);
    UpperOfUpperWord(t);
    if !IsValidType(reg, t) {
      var hints := CollectRelatedHints(reg.order, t, number);
      if hints == [] {
        var firstThree := reg.order[..if |reg.order| < 3 then |reg.order| else 3];
        hints := [ExampleIds(ExampleIdsFor(firstThree, number))];
      }
      return IdCheck(false, None, None, Some(UnknownIdType(t)), Some(hints));
    }
    if number <= 0 {
      return IdCheck(false, None, None, Some(NotPositive(number)), Some([TryInstead(t + "-1")]));
    }
    r := IdCheck(true, Some(t), Some(number), None, None);
  }

  /** The loop over the codes that collects the `Did you mean '<T>-1'?` hints. */
  method CollectPrefixHints(codes: seq<string>, u: string) returns (hints: seq<Suggestion>)
    ensures hints == PrefixHints(codes, u)
  {
    hints := [];
    var i := 0;
    while i < |codes|
      invariant 0 <= i <= |codes|
      invariant hints == PrefixHints(codes[..i], u)
    {
      if StartsWith(u, codes[i]) {
        hints := hints + [DidYouMean(codes[i] + "-1")];
      }
      assert codes[..i + 1][..i] == codes[..i];
      i := i + 1;
    }
    assert codes[..|codes|] == codes;
  }

  /** The loop over the codes that collects the `Did you mean '<T>-<n>'?` hints. */
  method CollectRelatedHints(codes: seq<string>, t: string, n: nat) returns (hints: seq<Suggestion>)
    ensures hints == RelatedHints(codes, t, n)
  {
    hints := [];
    var i := 0;
    while i < |codes|
      invariant 0 <= i <= |codes|
      invariant hints == RelatedHints(codes[..i], t, n)
    {
      var c := codes[i];
      if Contains(c, t) || Contains(t, c) {
        hints := hints + [DidYouMean(c + "-" + NatToString(n))];
      }
      assert codes[..i + 1][..i] == codes[..i];
      i := i + 1;
    }
    assert codes[..|codes|] == codes;
  }

  /** `validate_artifact_id`: the normalised `TYPE-<number>`, or the check's error. */
  method ValidateArtifactId(reg: Registry, id: string) returns (r: Result<string, IdError>)
    ensures r.Success? <==> IdFormat(reg, id).Some?
    ensures r.Success? ==> r.value == IdFormat(reg, id).value.0 + "-" + NatToString(IdFormat(reg, id).value.1)
  {
    var check := ValidateArtifactIdFormat(reg, id);
    if !check.valid {
      return Failure(check.error.value);
    }
    r := Success(check.artifactType.value + "-" + NatToString(check.number.value));
  }

  /** A valid ID is an upper-cased known `TYPE-<digits>` with a positive number, and nothing else is. */
  lemma IdFormatCharacterized(reg: Registry, id: string, t: string, digits: string)
    requires IsUpperWord(t) && Upper(Strip(id)) == t + "-" + digits
    ensures IdFormat(reg, id).Some? <==> IsDigits(digits) && t in reg.types && DigitsValue(digits) > 0
    ensures IdFormat(reg, id).Some? ==> IdFormat(reg, id).value == (t, DigitsValue(digits))
  {
    TypeAndRestOf(t, digits);
    UpperOfUpperWord(t);
  }

  /** The normalised ID is valid again and names the same type and number. */
  lemma NormalizedIdStable(reg: Registry, id: string)
    requires IdFormat(reg, id).Some?
    ensures var (t, n) := IdFormat(reg, id).value; IdFormat(reg, t + "-" + NatToString(n)) == Some((t, n))
  {
    var (t, n) := IdFormat(reg, id).value;
    var s := t + "-" + NatToString(n);
    var parse := TypeAndRest(Upper(Strip(id)));
    assert IsUpperWord(t);
    NatToStringValue(n);
    CleanId(t, NatToString(n));
    IdFormatCharacterized(reg, s, t, NatToString(n));
  }

  /** `<TYPE>-<digits>` is already stripped and upper-case. */
  lemma CleanId(t: string, digits: string)
    requires IsUpperWord(t) && IsDigits(digits)
    ensures Upper(Strip(t + "-" + digits)) == t + "-" + digits
  {
    var s := t + "-" + digits;
    assert s[0] == t[0] && s[|s| - 1] == digits[|digits| - 1];
    assert Trimmed(s);
    TrimmedStrip(s);
    UpperOfDigits(digits);
    UpperOfIdShape(t, digits);
  }

  /** Leading zeros do not survive normalisation: `T-0<digits>` names the same number as `T-<digits>`. */
  lemma LeadingZerosDropped(reg: Registry, t: string, n: nat)
    requires t in reg.types && IsUpperWord(t) && n > 0
    ensures IdFormat(reg, t + "-" + ("0" + NatToString(n))) == Some((t, n))
  {
    var x := NatToString(n);
    var digits := "0" + x;
    assert forall i :: 1 <= i < |digits| ==> digits[i] == x[i - 1];
    assert IsDigits(digits);
    NatToStringValue(n);
    LeadingZeroValue(x);
    CleanId(t, digits);
    IdFormatCharacterized(reg, t + "-" + digits, t, digits);
  }

  // ------------------------------------------------ provisional file names

  datatype FilenameCheck = FilenameCheck(valid: bool, artifactType: Option<string>, filename: string, error: Option<TypeError>)

  /** `validate_provisional_filename` (the result record, not its JSON text) */
  function ValidateProvisionalFilename(reg: Registry, filename: string): (r: FilenameCheck)
    ensures r.filename == filename
    ensures r.valid <==> r.artifactType.Some?
    ensures r.valid ==> r.artifactType.value in reg.types
  {
    var u := DropFinalNewline(Upper(WithoutMd(filename)));
    match TypeAndRest(u)
    case None => FilenameCheck(false, None, filename, Some(BadProvisionalId(filename)))
    case Some((t, rest)) =>
      if StartsWith(rest, ProvisionalMarker) && AllDigits(rest[|ProvisionalMarker|..]) then
        if IsValidType(reg, t) then
          UpperOfUpperWord(t);
          FilenameCheck(true, Some(t), filename, None)
        else FilenameCheck(false, None, filename, Some(UnknownType(t)))
      else FilenameCheck(false, None, filename, Some(BadProvisionalId(filename)))
  }

  /** The file name without one final `.md`. */
  function WithoutMd(filename: string): string
  {
    if EndsWith(filename, ".md") then filename[..|filename| - 3] else filename
  }

  /** Zero or more digits: `\d*`. */
  predicate AllDigits(s: string)
  {
    forall i :: 0 <= i < |s| ==> IsDigit(s[i])
  }

  /**
   * `<TYPE>-PROVISIONAL<digits>` with optional digits, in any letter case and
   * with or without one `.md`, is accepted exactly when the type is known.
   */
  lemma ProvisionalFilenameAccepted(reg: Registry, t: string, digits: string, name: string, withExt: bool)
    requires IsUpperWord(t) && AllDigits(digits) && Upper(name) == t + "-" + ProvisionalMarker + digits
    ensures var filename := if withExt then name + ".md" else name;
      var r := ValidateProvisionalFilename(reg, filename);
      (r.valid <==> t in reg.types) && (r.valid ==> r.artifactType == Some(t))
  {
    var rest := ProvisionalMarker + digits;
    ProvisionalSpelling(t, digits);
    var id := t + "-" + rest;
    assert Upper(name) == id;
    assert UpperChar(name[|name| - 1]) == id[|id| - 1];
    StemOfName(name, withExt);
    TypeAndRestOf(t, rest);
    assert rest[|ProvisionalMarker|..] == digits;
    UpperOfUpperWord(t);
  }

  /**
   * Conversely, an accepted file name is such a name: without one `.md`,
   * upper-cased and without a final newline it reads
   * `<TYPE>-PROVISIONAL<digits>`, for the configured type it reports.
   */
  lemma ProvisionalFilenameShape(reg: Registry, filename: string)
    requires ValidateProvisionalFilename(reg, filename).valid
    ensures var t := ValidateProvisionalFilename(reg, filename).artifactType.value;
      IsUpperWord(t) && t in reg.types
      && exists digits :: AllDigits(digits) && DropFinalNewline(Upper(WithoutMd(filename))) == t + "-" + ProvisionalMarker + digits
  {
    var u := DropFinalNewline(Upper(WithoutMd(filename)));
    var tr := TypeAndRest(u);
    assert tr.Some? && StartsWith(tr.value.1, ProvisionalMarker)
      && ValidateProvisionalFilename(reg, filename).artifactType == Some(tr.value.0);
    var t, rest := tr.value.0, tr.value.1;
    var digits := rest[|ProvisionalMarker|..];
    assert AllDigits(digits);
    assert rest == ProvisionalMarker + digits;
    assert u == t + "-" + ProvisionalMarker + digits;
  }

  /** Stripping `.md` gives back the name, when the name itself does not end in `d` or `D`. */
  lemma StemOfName(name: string, withExt: bool)
    requires |name| > 0 && UpperChar(name[|name| - 1]) != 'D'
    ensures WithoutMd(if withExt then name + ".md" else name) == name
  {
    var filename := if withExt then name + ".md" else name;
    if withExt {
      assert filename[..|filename| - 3] == name;
    } else {
      assert filename[|filename| - 1] != 'd';
    }
  }
}
