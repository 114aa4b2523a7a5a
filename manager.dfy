/**
 * The artifact manager over the index and the document repository:
 * resolving identifiers, allocating artifact IDs, reading and rewriting an
 * artifact (a whole file, or a `### ` section inside some file), and the
 * index search by type.
 *
 * The repository is the sequence of its markdown files in walk order, each
 * with its name and its text as a file opened in text mode reads it.
 */
module Manager {

  import opened Wrappers
  import opened Text
  import opened TypeRegistry
  import opened IndexLedger
  import Sections
  import References
  import Naming
  import Ordering
  import HeaderCodec
  import Handlers
  import HandlerHeaders

  type MdFile = References.MdFile

  datatype ManagerError =
    | NotFound(identifier: string)          // no artifact for the identifier
    | Unindexed(artifactId: string)         // the resolved ID has no index entry
    | BadType(error: TypeError)             // the type or the ID's type is not configured
    | Refused(refusal: LedgerError)         // the index refused the new entry
    | UpdateNotAllowed(artifactType: string) // `can_tool_update` is not set
    | NoFile(artifactId: string)            // no `<ID>_*.md` or `<ID>.md`
    | NoSection(artifactId: string)         // no line opens `### <ID>`
    | NoMatches(artifactType: string)       // the search found nothing
    | RootUnset                             // `RESPECT_DOC_REPO_ROOT` is not set

  // ------------------------------------------------------------ identifier resolution

  /** Some entry has exactly this artifact ID. */
  predicate Listed(es: seq<Entry>, id: string)
  {
    exists k :: 0 <= k < |es| && es[k].artifactId == id
  }

  /**
   * `resolve_artifact_identifier`: an all-digit identifier is a document ID,
   * compared as text, and gives the artifact ID of the first entry with it;
   * anything else is upper-cased and given back only if some entry has
   * exactly that artifact ID.
   */
  function Resolve(es: seq<Entry>, identifier: string): (r: Option<string>)
    ensures IsDigits(identifier) ==>
      (r.Some? <==> exists k :: 0 <= k < |es| && es[k].docId == identifier)
    ensures IsDigits(identifier) && r.Some? ==>
      exists k :: 0 <= k < |es| && es[k].docId == identifier && r.value == es[k].artifactId
        && forall j :: 0 <= j < k ==> es[j].docId != identifier
    ensures !IsDigits(identifier) ==>
      (r.Some? <==> Listed(es, Upper(identifier))) && (r.Some? ==> r.value == Upper(identifier))
    ensures r.Some? ==> Listed(es, r.value)
  {
    if IsDigits(identifier) then
      match FirstMatch(es, ByDocId(identifier))
      case None => None
      case Some(k) => Some(es[k].artifactId)
    else if Listed(es, Upper(identifier)) then Some(Upper(identifier))
    else None
  }

  /** A resolved artifact ID is always found again by `get_artifact_by_id`. */
  lemma ResolvedIsListed(es: seq<Entry>, identifier: string)
    requires Resolve(es, identifier).Some?
    ensures Find(es, ById(Resolve(es, identifier).value)).Some?
  {
    var id := Resolve(es, identifier).value;
    var k :| 0 <= k < |es| && es[k].artifactId == id;
    assert KeyMatches(es[k], ById(id));
  }

  /** The two loops of `resolve_artifact_identifier`, over the entries read. */
  method ResolveIn(es: seq<Entry>, identifier: string) returns (r: Option<string>)
    ensures r == Resolve(es, identifier)
  {
    if IsDigits(identifier) {
      var i := 0;
      while i < |es|
        invariant i <= |es|
        invariant forall j :: 0 <= j < i ==> es[j].docId != identifier
      {
        if es[i].docId == identifier {
          FirstMatchIs(es, ByDocId(identifier), i);
          return Some(es[i].artifactId);
        }
        i := i + 1;
      }
      return None;
    }
    var id := Upper(identifier);
    var i := 0;
    while i < |es|
      invariant i <= |es|
      invariant forall j :: 0 <= j < i ==> es[j].artifactId != id
    {
      if es[i].artifactId == id {
        return Some(id);
      }
      i := i + 1;
    }
    return None;
  }

  // ------------------------------------------------------------ allocation

  /** The entry `get_artifact_id` asks the index to add: no status. */
  function NewEntry(es: seq<Entry>, id: string, name: Option<string>, isFile: bool, parent: Option<string>): Entry
  {
    Entry(NatToString(NextDocId(es)), id, name, None, isFile, parent)
  }

  /**
   * The outcome of `get_artifact_id` on the entries `es`: the normalised
   * type, a dash and the next document number, unless the type is not
   * configured or the index already lists that artifact ID.
   */
  function NewId(reg: Registry, es: seq<Entry>, t: string): (r: Result<string, ManagerError>)
    ensures r.Success? <==>
      (ValidateAndNormalizeType(reg, t).Success?
       && Find(es, ById(Upper(Strip(t)) + "-" + NatToString(NextDocId(es)))).None?)
    ensures r.Success? ==> r.value == Upper(Strip(t)) + "-" + NatToString(NextDocId(es)) && Upper(Strip(t)) in reg.types
    ensures ValidateAndNormalizeType(reg, t).Failure? ==> r == Failure(BadType(ValidateAndNormalizeType(reg, t).error))
  {
    match ValidateAndNormalizeType(reg, t)
    case Failure(e) => Failure(BadType(e))
    case Success(nt) =>
      var id := nt + "-" + NatToString(NextDocId(es));
      if Find(es, ById(id)).Some? then Failure(Refused(AlreadyExists(id))) else Success(id)
  }

  /**
   * After a successful allocation whose entry reads back, the new document
   * number resolves to the new artifact ID, and so does the ID itself.
   */
  lemma NewIdResolves(reg: Registry, es: seq<Entry>, t: string, name: Option<string>, isFile: bool, parent: Option<string>)
    requires NewId(reg, es, t).Success?
    ensures var id := NewId(reg, es, t).value;
      var es' := es + [ReadBack(NewEntry(es, id, name, isFile, parent))];
      Resolve(es', NatToString(NextDocId(es))) == Some(id) && Resolve(es', id) == Some(id)
  {
    var id := NewId(reg, es, t).value;
    var n := NextDocId(es);
    var e := ReadBack(NewEntry(es, id, name, isFile, parent));
    var es' := es + [e];
    NatToStringValue(n);
    forall j | 0 <= j < |es| ensures es'[j].docId != NatToString(n) {
      assert es'[j] == es[j];
      assert DocNumber(es[j]) < n;
    }
    assert es'[|es|] == e;
    FirstMatchIs(es', ByDocId(NatToString(n)), |es|);
    var nt := Upper(Strip(t));
    UpperIdempotent(Strip(t));
    DashedIdIsUpper(nt, NatToString(n));
    assert Listed(es', id);
  }

  /** `<upper-case type>-<number>` is its own upper-case form and is not all digits. */
  lemma DashedIdIsUpper(nt: string, digits: string)
    requires Upper(nt) == nt && IsDigits(digits)
    ensures Upper(nt + "-" + digits) == nt + "-" + digits && !IsDigits(nt + "-" + digits)
  {
    UpperOfDigits(digits);
    UpperConcat(nt, "-");
    UpperConcat(nt + "-", digits);
    var id := nt + "-" + digits;
    assert id[|nt|] == '-';
  }

  // ------------------------------------------------------------ the repository

  /** Text read in text mode never holds a carriage return. */
  predicate ReadAsText(docs: seq<MdFile>)
  {
    forall k :: 0 <= k < |docs| ==> '\r' !in docs[k].content
  }

  function LinesOf(f: MdFile): seq<string>
  {
    Split(f.content, '\n')
  }

  /** `### <ID>`: the heading an embedded artifact starts with. */
  function Heading(id: string): string
  {
    Sections.HeadingMark + id
  }

  /** The range of the section headed `head` in each file. */
  function Ranges(docs: seq<MdFile>, head: string): (rs: seq<Option<(nat, nat)>>)
    ensures |rs| == |docs|
    ensures forall j :: 0 <= j < |docs| ==> rs[j] == Sections.SectionRange(LinesOf(docs[j]), head)
  {
    seq(|docs|, j requires 0 <= j < |docs| => Sections.SectionRange(LinesOf(docs[j]), head))
  }

  /**
   * The walk of `_get_non_file_artifact` and `_update_non_file_artifact`
   * from file `k` on: the first file with a line opening the section headed
   * `head`, with the section's line range.
   */
  function LocateFrom(docs: seq<MdFile>, head: string, k: nat): (r: Option<(nat, nat, nat)>)
    requires k <= |docs|
    ensures r.Some? ==>
      (k <= r.value.0 < |docs|
       && Sections.SectionRange(LinesOf(docs[r.value.0]), head) == Some((r.value.1, r.value.2))
       && forall j :: k <= j < r.value.0 ==> Sections.SectionRange(LinesOf(docs[j]), head).None?)
    ensures r.None? ==> forall j :: k <= j < |docs| ==> Sections.SectionRange(LinesOf(docs[j]), head).None?
  {
    var rs := Ranges(docs, head);
    match FirstSome(rs, k)
    case None => None
    case Some(i) => Some((i, rs[i].value.0, rs[i].value.1))
  }

  function Locate(docs: seq<MdFile>, head: string): (r: Option<(nat, nat, nat)>)
  {
    LocateFrom(docs, head, 0)
  }

  /** The scan of one file for the section headed `head`. */
  method FindSection(lines: seq<string>, head: string) returns (r: Option<(nat, nat)>)
    ensures r == Sections.SectionRange(lines, head)
  {
    r := Sections.FindRange(lines, Sections.Opens(head), Sections.Closes(head));
  }

  /** The walk over the files for the section headed `head`. */
  method LocateSection(docs: seq<MdFile>, head: string) returns (r: Option<(nat, nat, nat)>)
    ensures r == Locate(docs, head)
  {
    var k := 0;
    while k < |docs|
      invariant k <= |docs|
      invariant Locate(docs, head) == LocateFrom(docs, head, k)
    {
      var found := FindSection(LinesOf(docs[k]), head);
      LocateAt(docs, head, k, found);
      if found.Some? {
        return Some((k, found.value.0, found.value.1));
      }
      k := k + 1;
    }
    return None;
  }

  /** A file holding the section with no earlier file holding it is the one found. */
  lemma LocateIs(docs: seq<MdFile>, head: string, from: nat, k: nat, s: nat, e: nat)
    requires from <= k < |docs| && Sections.SectionRange(LinesOf(docs[k]), head) == Some((s, e))
    requires forall j :: from <= j < k ==> Sections.SectionRange(LinesOf(docs[j]), head).None?
    ensures LocateFrom(docs, head, from) == Some((k, s, e))
  {
    FirstSomeIs(Ranges(docs, head), from, k);
  }

  /** The walk stops at a file holding the section and passes over any other. */
  lemma LocateAt(docs: seq<MdFile>, head: string, k: nat, found: Option<(nat, nat)>)
    requires k < |docs| && found == Sections.SectionRange(LinesOf(docs[k]), head)
    ensures found.Some? ==> LocateFrom(docs, head, k) == Some((k, found.value.0, found.value.1))
    ensures found.None? ==> LocateFrom(docs, head, k) == LocateFrom(docs, head, k + 1)
  {
    var rs := Ranges(docs, head);
    if found.Some? {
      LocateIs(docs, head, k, k, found.value.0, found.value.1);
    } else {
      assert FirstSome(rs, k) == FirstSome(rs, k + 1);
    }
  }

  /**
   * `_get_non_file_artifact`: the section's lines joined and right-stripped.
   * The source also fails on an empty text; a section opened by `### ` never
   * reads as empty, so that failure cannot occur.
   */
  function NonFileArtifact(docs: seq<MdFile>, id: string): (r: Result<string, ManagerError>)
    ensures r.Success? <==> Locate(docs, Heading(id)).Some?
    ensures r.Success? ==> r.value != []
  {
    match Locate(docs, Heading(id))
    case None => Failure(NoSection(id))
    case Some((k, s, e)) =>
      var lines := LinesOf(docs[k]);
      Sections.RangeIs(lines, Sections.Opens(Heading(id)), Sections.Closes(Heading(id)), s, e);
      Sections.SectionTextNotBlank(lines, Heading(id), s, e);
      Success(Sections.SectionText(lines, s, e))
  }

  /** `<ID>_*.md` (exact = false) or `<ID>.md` (exact = true). */
  predicate Named(name: string, id: string, exact: bool)
  {
    if exact then name == id + ".md"
    else |name| >= |id| + 4 && StartsWith(name, id + "_") && EndsWith(name, ".md")
  }

  /** The first file from `k` on whose name has the pattern. */
  function FirstNamed(docs: seq<MdFile>, id: string, exact: bool, k: nat): (r: Option<nat>)
    requires k <= |docs|
    ensures r.Some? ==>
      (k <= r.value < |docs| && Named(docs[r.value].name, id, exact)
       && forall j :: k <= j < r.value ==> !Named(docs[j].name, id, exact))
    ensures r.None? ==> forall j :: k <= j < |docs| ==> !Named(docs[j].name, id, exact)
    decreases |docs| - k
  {
    if k == |docs| then None
    else if Named(docs[k].name, id, exact) then Some(k)
    else FirstNamed(docs, id, exact, k + 1)
  }

  /** The file of a file artifact: the first `<ID>_*.md`, else the first `<ID>.md`. */
  function FileFor(docs: seq<MdFile>, id: string): (r: Option<nat>)
    ensures r.Some? ==> r.value < |docs| && (Named(docs[r.value].name, id, false) || Named(docs[r.value].name, id, true))
    ensures r.Some? && !Named(docs[r.value].name, id, false) ==>
      forall j :: 0 <= j < |docs| ==> !Named(docs[j].name, id, false)
    ensures r.None? <==> forall j :: 0 <= j < |docs| ==> !Named(docs[j].name, id, false) && !Named(docs[j].name, id, true)
  {
    match FirstNamed(docs, id, false, 0)
    case Some(k) => Some(k)
    case None => FirstNamed(docs, id, true, 0)
  }

  // ------------------------------------------------------------ writes

  /** What an update writes: a whole file, or the line range of a section in a file. */
  datatype Write =
    | WholeFile(file: nat, text: string)
    | Section(file: nat, start: nat, end: nat, text: string)

  predicate Fits(docs: seq<MdFile>, w: Write)
  {
    w.file < |docs| && (w.Section? ==> w.start <= w.end <= |LinesOf(docs[w.file])|)
  }

  /** The repository after the write, each file read back in text mode. */
  function Apply(docs: seq<MdFile>, w: Write): (r: seq<MdFile>)
    requires Fits(docs, w)
    ensures |r| == |docs| && r[w.file].name == docs[w.file].name
    ensures forall j :: 0 <= j < |docs| && j != w.file ==> r[j] == docs[j]
  {
    var f := docs[w.file];
    match w
    case WholeFile(_, text) => docs[w.file := References.MdFile(f.name, Newlines(text))]
    case Section(_, s, e, text) => docs[w.file := SplicedFile(f, s, e, text)]
  }

  /** `_update_file_artifact`: overwrite the artifact's file. */
  function FileWrite(docs: seq<MdFile>, id: string, content: string): (r: Result<Write, ManagerError>)
    ensures r.Success? ==> Fits(docs, r.value) && r.value.WholeFile? && r.value.text == content
  {
    match FileFor(docs, id)
    case None => Failure(NoFile(id))
    case Some(k) => Success(WholeFile(k, content))
  }

  /** `_update_non_file_artifact`: splice the new lines over the section's range. */
  function SectionWrite(docs: seq<MdFile>, id: string, content: string): (r: Result<Write, ManagerError>)
    ensures r.Success? ==> Fits(docs, r.value) && r.value.Section? && r.value.text == content
    ensures r.Success? <==> NonFileArtifact(docs, id).Success?
  {
    match Locate(docs, Heading(id))
    case None => Failure(NoSection(id))
    case Some((k, s, e)) => Success(Section(k, s, e, content))
  }

  /** Where the section is found, the write splices it there and nowhere else. */
  lemma SectionWriteAt(docs: seq<MdFile>, id: string, content: string, k: nat, s: nat, e: nat)
    requires Locate(docs, Heading(id)) == Some((k, s, e))
    ensures k < |docs| && s < e <= |LinesOf(docs[k])|
    ensures SectionWrite(docs, id, content) == Success(Section(k, s, e, content))
    ensures Apply(docs, Section(k, s, e, content)) == docs[k := SplicedFile(docs[k], s, e, content)]
  {
  }

  /**
   * Splicing content that opens with a line opening the section and holds no
   * line closing it: the section reads back as the content without its
   * trailing whitespace, and no other file changes.
   */
  lemma SectionWriteReadsBack(docs: seq<MdFile>, id: string, content: string)
    requires ReadAsText(docs) && '\r' !in content
    requires SectionWrite(docs, id, content).Success?
    requires Sections.IsStart(Sections.NewLines(content)[0], Heading(id))
    requires Sections.NoneIn(Sections.NewLines(content), Sections.Closes(Heading(id)), 1, |Sections.NewLines(content)|)
    ensures ReadAsText(Apply(docs, SectionWrite(docs, id, content).value))
    ensures NonFileArtifact(Apply(docs, SectionWrite(docs, id, content).value), id) == Success(RStrip(content))
  {
    var w := SectionWrite(docs, id, content).value;
    assert Locate(docs, Heading(id)) == Some((w.file, w.start, w.end));
    SectionReadsBack(docs, w, id);
  }

  /** `SectionWriteReadsBack` for the write of `w.text` over the located section. */
  lemma SectionReadsBack(docs: seq<MdFile>, w: Write, id: string)
    requires ReadAsText(docs) && w.Section? && Fits(docs, w) && '\r' !in w.text
    requires Locate(docs, Heading(id)) == Some((w.file, w.start, w.end))
    requires Sections.IsStart(Sections.NewLines(w.text)[0], Heading(id))
    requires Sections.NoneIn(Sections.NewLines(w.text), Sections.Closes(Heading(id)), 1, |Sections.NewLines(w.text)|)
    ensures ReadAsText(Apply(docs, w))
    ensures NonFileArtifact(Apply(docs, w), id) == Success(RStrip(w.text))
  {
    SplicedWrite(docs, w, Heading(id));
    ApplyReplaces(docs, w);
    ReadsBackAfterReplace(docs, id, w.file, Apply(docs, w)[w.file], RStrip(w.text));
  }

  /** A write replaces exactly the file it names. */
  lemma ApplyReplaces(docs: seq<MdFile>, w: Write)
    requires Fits(docs, w)
    ensures Apply(docs, w) == docs[w.file := Apply(docs, w)[w.file]]
  {
  }

  /** The file a section write changes holds the section over exactly the new lines. */
  lemma SplicedWrite(docs: seq<MdFile>, w: Write, head: string)
    requires ReadAsText(docs) && w.Section? && '\r' !in w.text
    requires Fits(docs, w) && Sections.SectionRange(LinesOf(docs[w.file]), head) == Some((w.start, w.end))
    requires Sections.IsStart(Sections.NewLines(w.text)[0], head)
    requires Sections.NoneIn(Sections.NewLines(w.text), Sections.Closes(head), 1, |Sections.NewLines(w.text)|)
    ensures ReadAsText(Apply(docs, w))
    ensures Sections.SectionRange(LinesOf(Apply(docs, w)[w.file]), head).Some?
    ensures Sections.SectionText(LinesOf(Apply(docs, w)[w.file]), Sections.SectionRange(LinesOf(Apply(docs, w)[w.file]), head).value.0,
                                 Sections.SectionRange(LinesOf(Apply(docs, w)[w.file]), head).value.1) == RStrip(w.text)
  {
    var k := w.file;
    var f := SplicedFile(docs[k], w.start, w.end, w.text);
    SplicedSection(docs[k], head, w.start, w.end, w.text);
    assert Apply(docs, w) == docs[k := f];
    ReadAsTextUpdate(docs, k, f);
  }

  /** A file with content spliced over lines `s` to `e`, as written and read back. */
  function SplicedFile(f: MdFile, s: nat, e: nat, content: string): MdFile
    requires s <= e <= |LinesOf(f)|
  {
    References.MdFile(f.name, Newlines(Join(Sections.Splice(LinesOf(f), s, e, content), '\n')))
  }

  /** Replacing the file a section was found in by one that holds it reads it from there. */
  lemma ReadsBackAfterReplace(docs: seq<MdFile>, id: string, k: nat, f: MdFile, text: string)
    requires Locate(docs, Heading(id)).Some? && Locate(docs, Heading(id)).value.0 == k
    requires Sections.SectionRange(LinesOf(f), Heading(id)).Some?
    requires Sections.SectionText(LinesOf(f), Sections.SectionRange(LinesOf(f), Heading(id)).value.0,
                                  Sections.SectionRange(LinesOf(f), Heading(id)).value.1) == text
    ensures NonFileArtifact(docs[k := f], id) == Success(text)
  {
    var r := Sections.SectionRange(LinesOf(f), Heading(id)).value;
    LocateAfterReplace(docs, Heading(id), k, f, r.0, r.1);
  }

  /**
   * The text of a file after splicing content over the section's range:
   * free of carriage returns, so read back unchanged, and holding the
   * section over exactly the new lines, which read as the stripped content.
   */
  lemma SplicedSection(f: MdFile, head: string, s: nat, e: nat, content: string)
    requires '\r' !in f.content && '\r' !in content
    requires Sections.SectionRange(LinesOf(f), head) == Some((s, e))
    requires Sections.IsStart(Sections.NewLines(content)[0], head)
    requires Sections.NoneIn(Sections.NewLines(content), Sections.Closes(head), 1, |Sections.NewLines(content)|)
    ensures s <= e <= |LinesOf(f)|
    ensures '\r' !in SplicedFile(f, s, e, content).content
    ensures Sections.SectionRange(LinesOf(SplicedFile(f, s, e, content)), head) == Some((s, s + |Sections.NewLines(content)|))
    ensures Sections.SectionText(LinesOf(SplicedFile(f, s, e, content)), s, s + |Sections.NewLines(content)|) == RStrip(content)
    ensures Sections.SectionText(LinesOf(SplicedFile(f, s, e, content)), Sections.SectionRange(LinesOf(SplicedFile(f, s, e, content)), head).value.0,
                                 Sections.SectionRange(LinesOf(SplicedFile(f, s, e, content)), head).value.1) == RStrip(content)
  {
    var lines := LinesOf(f);
    var out := Sections.Splice(lines, s, e, content);
    var nl := Sections.NewLines(content);
    assert Sections.Opens(head)(nl[0]);
    Sections.SpliceReadsBack(lines, Sections.Opens(head), Sections.Closes(head), s, e, content, out);
    SpliceText(f.content, s, e, content);
    SpliceFree(lines, s, e, content, '\r') by {
      SplitFree(f.content, '\r');
    }
    JoinKeepsOut(out, '\n', '\r');
    assert LinesOf(SplicedFile(f, s, e, content)) == out;
  }

  /** Replacing the file a section was found in by one that holds it finds it there again. */
  lemma LocateAfterReplace(docs: seq<MdFile>, head: string, k: nat, f: MdFile, s: nat, e: nat)
    requires Locate(docs, head).Some? && Locate(docs, head).value.0 == k
    requires Sections.SectionRange(LinesOf(f), head) == Some((s, e))
    ensures Locate(docs[k := f], head) == Some((k, s, e))
  {
    var docs' := docs[k := f];
    forall j | 0 <= j < k ensures Sections.SectionRange(LinesOf(docs'[j]), head).None? {
      assert docs'[j] == docs[j];
    }
    LocateIs(docs', head, 0, k, s, e);
  }

  /** No part holds `c`. */
  predicate Free(parts: seq<string>, c: char)
  {
    forall i :: 0 <= i < |parts| ==> c !in parts[i]
  }

  lemma FreeConcat(a: seq<string>, b: seq<string>, c: char)
    requires Free(a, c) && Free(b, c)
    ensures Free(a + b, c)
  {
    forall i | 0 <= i < |a + b| ensures c !in (a + b)[i] {
      if i < |a| {
        assert (a + b)[i] == a[i];
      } else {
        assert (a + b)[i] == b[i - |a|];
      }
    }
  }

  lemma FreeSlices(lines: seq<string>, s: nat, e: nat, c: char)
    requires s <= e <= |lines| && Free(lines, c)
    ensures Free(lines[..s], c) && Free(lines[e..], c)
  {
    forall i | 0 <= i < |lines[e..]| ensures c !in lines[e..][i] {
      assert lines[e..][i] == lines[e + i];
    }
  }

  /** The parts of a split hold neither the separator nor any character the text lacks. */
  lemma SplitFree(t: string, c: char)
    ensures Free(Split(t, '\n'), '\n')
    ensures c !in t ==> Free(Split(t, '\n'), c)
  {
    if c !in t {
      forall i | 0 <= i < |Split(t, '\n')| ensures c !in Split(t, '\n')[i] {
        PartOfSplit(t, '\n', i);
      }
    }
  }

  /** A character free in the lines and in the new content is free in the splice. */
  lemma SpliceFree(lines: seq<string>, s: nat, e: nat, content: string, c: char)
    requires s <= e <= |lines| && Free(lines, c)
    requires c == '\n' || c !in content
    ensures Free(Sections.Splice(lines, s, e, content), c)
  {
    FreeSlices(lines, s, e, c);
    SplitFree(RStripChar(content, '\n'), c);
    if c != '\n' {
      assert c !in RStripChar(content, '\n') by {
        assert RStripChar(content, '\n') == content[..|RStripChar(content, '\n')|];
      }
    }
    var nl := Sections.NewLines(content);
    FreeConcat(lines[..s], nl, c);
    FreeConcat(lines[..s] + nl, lines[e..], c);
  }

  /** The text written for a splice reads back unchanged, and splits into the spliced lines. */
  lemma SpliceText(text: string, s: nat, e: nat, content: string)
    requires '\r' !in text && '\r' !in content && s <= e <= |Split(text, '\n')|
    ensures var out := Sections.Splice(Split(text, '\n'), s, e, content);
      Newlines(Join(out, '\n')) == Join(out, '\n') && Split(Join(out, '\n'), '\n') == out
  {
    var lines := Split(text, '\n');
    var out := Sections.Splice(lines, s, e, content);
    SplitFree(text, '\r');
    SpliceFree(lines, s, e, content, '\r');
    SpliceFree(lines, s, e, content, '\n');
    JoinKeepsOut(out, '\n', '\r');
    NewlinesPlain(Join(out, '\n'));
    SplitJoin(out, '\n');
  }

  /** Replacing one file by text without a carriage return keeps the repository readable. */
  lemma ReadAsTextUpdate(docs: seq<MdFile>, k: nat, f: MdFile)
    requires ReadAsText(docs) && k < |docs| && '\r' !in f.content
    ensures ReadAsText(docs[k := f])
  {
  }

  // ------------------------------------------------------------ update_artifact

  /**
   * The content written for a section artifact: unchanged when, after
   * `lstrip`, it already starts with `### <ID>`; otherwise the heading line
   * `### <ID>` (with `: <name>` for a non-empty name), a newline, and the
   * content without its leading newlines.
   */
  function Prepared(id: string, name: Option<string>, content: string): (r: string)
    ensures StartsWith(LStrip(r), Heading(id))
    ensures StartsWith(LStrip(content), Heading(id)) ==> r == content
  {
    if StartsWith(LStrip(content), Heading(id)) then content
    else
      var headerLine := Heading(id) + (if name.Some? && name.value != [] then ": " + name.value else "");
      PrefixThrough(Heading(id), if name.Some? && name.value != [] then ": " + name.value else "", [], |Heading(id)|);
      var r := headerLine + "\n" + LStripChar(content, '\n');
      PreparedHead(id, headerLine, LStripChar(content, '\n'));
      r
  }

  /** The header line written in front of the content starts the text once it is left-stripped. */
  lemma PreparedHead(id: string, headerLine: string, rest: string)
    requires StartsWith(headerLine, Heading(id))
    ensures StartsWith(LStrip(headerLine + "\n" + rest), Heading(id))
  {
    var r := headerLine + "\n" + rest;
    PrefixThrough(headerLine, "\n", rest, |Heading(id)|);
    assert StartsWith(Heading(id), Sections.HeadingMark);
    HeadedUnstripped(Heading(id), r);
  }

  lemma PrefixThrough<T>(a: seq<T>, b: seq<T>, c: seq<T>, n: nat)
    requires n <= |a|
    ensures n <= |a + b + c| && (a + b + c)[..n] == a[..n]
  {
  }

  /**
   * `update_artifact` as a decision: resolve the identifier, look the
   * artifact up, require `can_tool_update` for the type of its ID, then
   * overwrite its file or splice its section.
   */
  /** A text that starts with a `### ` heading has no leading whitespace to strip. */
  lemma HeadedUnstripped(head: string, r: string)
    requires StartsWith(head, Sections.HeadingMark) && StartsWith(r, head)
    ensures StartsWith(LStrip(r), head)
  {
    assert r[0] == head[0] == '#';
    LStripSkips([], r);
    assert [] + r == r;
  }

  function UpdatePlan(reg: Registry, es: seq<Entry>, docs: seq<MdFile>, identifier: string, content: string): (r: Result<Write, ManagerError>)
    ensures r.Success? ==> Fits(docs, r.value)
    ensures r.Success? ==>
      (exists id, t :: Resolve(es, identifier) == Some(id) && TypeFromId(reg, id) == Success(t)
         && CanToolUpdate(reg, t) == Success(true))
    ensures r.Success? && r.value.Section? ==> StartsWith(LStrip(r.value.text), Heading(Resolve(es, identifier).value))
    ensures Resolve(es, identifier).None? ==> r == Failure(NotFound(identifier))
  {
    match Resolve(es, identifier)
    case None => Failure(NotFound(identifier))
    case Some(id) =>
      ResolvedIsListed(es, identifier);
      var info := Find(es, ById(id)).value;
      match TypeFromId(reg, id)
      case Failure(e) => Failure(BadType(e))
      case Success(t) =>
        if CanToolUpdate(reg, t) != Success(true) then Failure(UpdateNotAllowed(t))
        else if info.isFile then FileWrite(docs, id, content)
        else SectionWrite(docs, id, Prepared(id, info.name, content))
  }

  /** The heading step of `update_artifact` for a section artifact. */
  method PrepareSection(id: string, name: Option<string>, content: string) returns (prepared: string)
    ensures prepared == Prepared(id, name, content)
  {
    prepared := content;
    var head := Heading(id);
    if !StartsWith(LStrip(content), head) {
      var headerLine := head + (if name.Some? && name.value != [] then ": " + name.value else "");
      prepared := headerLine + "\n" + LStripChar(content, '\n');
    }
  }

  /** An allowed update of a listed artifact writes its file, or its section with the heading ensured. */
  lemma UpdatePlanWrites(reg: Registry, es: seq<Entry>, docs: seq<MdFile>, identifier: string, content: string,
                         id: string, entry: Entry, t: string)
    requires Resolve(es, identifier) == Some(id) && Find(es, ById(id)) == Some(entry)
    requires TypeFromId(reg, id) == Success(t) && CanToolUpdate(reg, t) == Success(true)
    ensures entry.isFile ==> UpdatePlan(reg, es, docs, identifier, content) == FileWrite(docs, id, content)
    ensures !entry.isFile ==>
      UpdatePlan(reg, es, docs, identifier, content) == SectionWrite(docs, id, Prepared(id, entry.name, content))
  {
  }

  /** A listed artifact whose ID names no known type is not updated. */
  lemma UpdateBadType(reg: Registry, es: seq<Entry>, docs: seq<MdFile>, identifier: string, content: string,
                      id: string, e: TypeError)
    requires Resolve(es, identifier) == Some(id) && TypeFromId(reg, id) == Failure(e)
    ensures UpdatePlan(reg, es, docs, identifier, content) == Failure(BadType(e))
  {
  }

  /** An update the type does not allow fails, whatever the repository holds. */
  lemma UpdateNeedsPermission(reg: Registry, es: seq<Entry>, docs: seq<MdFile>, identifier: string, content: string, id: string, t: string)
    requires Resolve(es, identifier) == Some(id) && TypeFromId(reg, id) == Success(t)
    requires CanToolUpdate(reg, t) != Success(true)
    ensures UpdatePlan(reg, es, docs, identifier, content) == Failure(UpdateNotAllowed(t))
  {
  }

  // ------------------------------------------------------------ search_artifacts_by_type

  predicate Blank(s: string)
  {
    Strip(s) == []
  }

  /**
   * The status filter: the stripped, upper-cased non-blank parts of the
   * comma-separated list; no filter for an absent or empty status or when
   * every part is blank.
   */
  function StatusValues(status: Option<string>): (r: Option<set<string>>)
    ensures r.Some? ==> r.value != {} && status.Some?
  {
    if status.None? || status.value == [] then None
    else
      var parts := Split(status.value, ',');
      var vs := set i | 0 <= i < |parts| && !Blank(parts[i]) :: Upper(Strip(parts[i]));
      if vs == {} then None else Some(vs)
  }

  /** The type an index entry's ID names: the upper-cased text before the first `-`. */
  function IdType(id: string): Option<string>
  {
    if '-' in id then Some(Upper(Split(id, '-')[0])) else None
  }

  /** The match test of `search_artifacts_by_type` for the upper-cased type `u`. */
  predicate Matches(e: Entry, u: string, values: Option<set<string>>, parent: Option<string>)
  {
    IdType(e.artifactId) == Some(u)
    && (values.None? || (e.status.Some? && e.status.value != [] && Upper(e.status.value) in values.value))
    && (parent.None? || (parent.value != [] && e.parent.Some? && e.parent.value != [] && e.parent.value == parent.value))
  }

  /** The matching entries, in index order. */
  function Matching(es: seq<Entry>, u: string, values: Option<set<string>>, parent: Option<string>): (r: seq<Entry>)
    ensures |r| <= |es|
    ensures forall e :: e in r <==> e in es && Matches(e, u, values, parent)
  {
    if es == [] then []
    else
      var front := Matching(es[..|es| - 1], u, values, parent);
      var last := es[|es| - 1];
      assert es == es[..|es| - 1] + [last];
      if Matches(last, u, values, parent) then front + [last] else front
  }

  /**
   * `search_artifacts_by_type`: an unknown type fails, and so does a search
   * that finds nothing; otherwise the matching entries in index order.
   */
  function SearchByType(reg: Registry, es: seq<Entry>, t: string, status: Option<string>, parent: Option<string>): (r: Result<seq<Entry>, ManagerError>)
    ensures !IsValidType(reg, Upper(t)) ==> r.Failure?
    ensures r.Success? ==> r.value != [] && forall e :: e in r.value <==> e in es && Matches(e, Upper(t), StatusValues(status), parent)
    ensures IsValidType(reg, Upper(t)) && r.Failure? ==> forall e :: e in es ==> !Matches(e, Upper(t), StatusValues(status), parent)
  {
    var u := Upper(t);
    if !IsValidType(reg, u) then Failure(BadType(UnknownType(u)))
    else
      var found := Matching(es, u, StatusValues(status), parent);
      if found == [] then Failure(NoMatches(u)) else Success(found)
  }

  /** With no status and no parent, the search lists every entry of the type. */
  lemma SearchWithoutFilters(reg: Registry, es: seq<Entry>, t: string, e: Entry)
    requires IsValidType(reg, Upper(t)) && e in es && IdType(e.artifactId) == Some(Upper(t))
    ensures SearchByType(reg, es, t, None, None).Success?
    ensures e in SearchByType(reg, es, t, None, None).value
  {
    assert Matches(e, Upper(t), None, None);
  }

  /** The test `search_artifacts_by_type` applies to one entry. */
  method EntryMatches(e: Entry, u: string, values: Option<set<string>>, parent: Option<string>) returns (keep: bool)
    ensures keep == Matches(e, u, values, parent)
  {
    keep := false;
    if '-' in e.artifactId {
      var current := Upper(Split(e.artifactId, '-')[0]);
      if current == u {
        var statusMatch := values.None? || (e.status.Some? && e.status.value != [] && Upper(e.status.value) in values.value);
        var parentMatch := parent.None? || (parent.value != [] && e.parent.Some? && e.parent.value != [] && e.parent.value == parent.value);
        keep := statusMatch && parentMatch;
      }
    }
  }

  /** The loop of `search_artifacts_by_type` over the entries read. */
  method CollectMatching(es: seq<Entry>, u: string, values: Option<set<string>>, parent: Option<string>) returns (r: seq<Entry>)
    ensures r == Matching(es, u, values, parent)
  {
    r := [];
    var i := 0;
    while i < |es|
      invariant i <= |es|
      invariant r == Matching(es[..i], u, values, parent)
    {
      var e := es[i];
      assert es[..i + 1][..i] == es[..i] && es[..i + 1][i] == e;
      var keep := EntryMatches(e, u, values, parent);
      if keep {
        r := r + [e];
      }
      i := i + 1;
    }
    assert es[..|es|] == es;
  }

  // ------------------------------------------------------------ provisional IDs

  /** What the allocation loops of the provisional-ID processing hand on from token to token. */
  datatype Renaming = Renaming(
    mapping: seq<(string, string)>,  // provisional ID to new ID, in insertion order
    content: string,                 // the text with the mapped IDs replaced
    names: seq<(string, string)>,    // new ID to artifact name, for the named ones
    parent: Option<string>)          // the parent given to nested artifacts

  /**
   * The same together with the index entries the next allocation sees.
   * `clean` records that every entry added so far reads back from the index
   * file as it was written, which is what makes `entries` the index's
   * contents.
   */
  datatype Progress = Progress(entries: seq<Entry>, found: Renaming, clean: bool)

  /** Python's falsy `Optional[str]`: `None` or the empty string. */
  predicate Falsy(p: Option<string>)
  {
    p.None? || p.value == []
  }

  /**
   * One token of `_process_provisional_ids`: parse it, read its name from
   * the original text, ask for a new ID (a main artifact in its own file
   * and without parent, or a nested one under the current parent), record
   * the mapping and replace the token as a whole word. A `ValueError` on
   * the way skips the token.
   */
  function Allocate(reg: Registry, original: string, o: Progress, tok: string, isFile: bool): (r: Progress)
  {
    match ParseProvisionalId(reg, tok)
    case Failure(_) => o
    case Success(parsed) =>
      var name := Naming.ArtifactName(original, tok);
      match NewId(reg, o.entries, parsed.0)
      case Failure(_) => o
      case Success(id) =>
        ParsedNonEmpty(reg, tok);
        Granted(o, tok, id, name, isFile)
  }

  /** A provisional ID that parses is not empty. */
  lemma ParsedNonEmpty(reg: Registry, tok: string)
    requires ParseProvisionalId(reg, tok).Success?
    ensures tok != []
  {
  }

  /** A token that parses and gets a new ID is granted it. */
  lemma AllocateGranted(reg: Registry, original: string, o: Progress, tok: string, isFile: bool, id: string)
    requires ParseProvisionalId(reg, tok).Success?
    requires NewId(reg, o.entries, ParseProvisionalId(reg, tok).value.0) == Success(id)
    ensures tok != []
    ensures Allocate(reg, original, o, tok, isFile) == Granted(o, tok, id, Naming.ArtifactName(original, tok), isFile)
  {
  }

  /**
   * One granted token, whether or not the progress is still clean: while it
   * is, the index after the addition and the extended renaming are the ones
   * `Allocate` describes.
   */
  lemma AllocateStep(reg: Registry, original: string, o: Progress, tok: string, isFile: bool, id: string,
                     acc0: Renaming, before: seq<Entry>, after: seq<Entry>)
    requires ParseProvisionalId(reg, tok).Success?
    requires o.clean ==> before == o.entries && acc0 == o.found
    requires NewId(reg, before, ParseProvisionalId(reg, tok).value.0) == Success(id)
    requires CleanEntry(NewEntry(before, id, Naming.ArtifactName(original, tok), isFile, if isFile then None else acc0.parent)) ==>
      after == before + [ReadBack(NewEntry(before, id, Naming.ArtifactName(original, tok), isFile, if isFile then None else acc0.parent))]
    ensures tok != []
    ensures Allocate(reg, original, o, tok, isFile).clean ==>
      after == Allocate(reg, original, o, tok, isFile).entries
      && Extended(acc0, tok, id, Naming.ArtifactName(original, tok), isFile) == Allocate(reg, original, o, tok, isFile).found
  {
    ParsedNonEmpty(reg, tok);
    if o.clean {
      AllocateGranted(reg, original, o, tok, isFile, id);
    } else {
      AllocateTainted(reg, original, o, tok, isFile);
    }
  }

  /** A token that does not parse, or whose type is refused, changes nothing. */
  lemma AllocateKept(reg: Registry, original: string, o: Progress, tok: string, isFile: bool)
    requires ParseProvisionalId(reg, tok).Failure?
      || NewId(reg, o.entries, ParseProvisionalId(reg, tok).value.0).Failure?
    ensures Allocate(reg, original, o, tok, isFile) == o
  {
  }

  /** Once an added entry did not read back, the progress stays tainted. */
  lemma AllocateTainted(reg: Registry, original: string, o: Progress, tok: string, isFile: bool)
    requires !o.clean
    ensures !Allocate(reg, original, o, tok, isFile).clean
  {
    match ParseProvisionalId(reg, tok)
    case Failure(_) =>
    case Success(parsed) =>
      match NewId(reg, o.entries, parsed.0)
      case Failure(_) =>
      case Success(id) =>
        ParsedNonEmpty(reg, tok);
        assert Allocate(reg, original, o, tok, isFile) == Granted(o, tok, id, Naming.ArtifactName(original, tok), isFile);
  }

  /** The new ID `id` for `tok` is recorded: index entry, mapping, text, name and parent. */
  function Granted(o: Progress, tok: string, id: string, name: Option<string>, isFile: bool): (r: Progress)
    requires tok != []
  {
    var e := NewEntry(o.entries, id, name, isFile, if isFile then None else o.found.parent);
    Progress(o.entries + [ReadBack(e)], Extended(o.found, tok, id, name, isFile), o.clean && CleanEntry(e))
  }

  /** The mapping, text, names and parent once `tok` has the new ID `id`. */
  function Extended(acc: Renaming, tok: string, id: string, name: Option<string>, isFile: bool): (r: Renaming)
    requires tok != []
    ensures r.mapping == acc.mapping + [(tok, id)]
  {
    Renaming(acc.mapping + [(tok, id)],
             Naming.ReplaceWord(acc.content, tok, id),
             if name.Some? && name.value != [] then acc.names + [(id, name.value)] else acc.names,
             if isFile && Falsy(acc.parent) then Some(id) else acc.parent)
  }

  function AllocateAll(reg: Registry, original: string, o: Progress, toks: seq<string>, isFile: bool): (r: Progress)
    decreases |toks|
  {
    if toks == [] then o else AllocateAll(reg, original, Allocate(reg, original, o, toks[0], isFile), toks[1..], isFile)
  }

  /** The tokens of `q` that are main artifacts (`main`), or the nested ones, in order. */
  function Keep(reg: Registry, content: string, q: seq<string>, main: bool): (r: seq<string>)
  {
    if q == [] then []
    else Keep(reg, content, q[..|q| - 1], main)
         + (if Naming.IsMain(reg, content, q[|q| - 1]) == main then [q[|q| - 1]] else [])
  }

  /**
   * `_process_provisional_ids` on the index entries `es`: the sorted
   * tokens, main artifacts first and then the nested ones.
   */
  ghost function ProvisionalRun(reg: Registry, es: seq<Entry>, content: string, parent: Option<string>): (r: Progress)
  {
    RunOn(reg, es, content, parent, Ordering.Sorted(ScanTokens(reg.order, content, 0)))
  }

  /** The two loops over the tokens `q`. */
  function RunOn(reg: Registry, es: seq<Entry>, content: string, parent: Option<string>, q: seq<string>): (r: Progress)
  {
    var mains := AllocateAll(reg, content, Progress(es, Renaming([], content, [], parent), true), Keep(reg, content, q, true), true);
    AllocateAll(reg, content, mains, Keep(reg, content, q, false), false)
  }

  lemma {:induction false} KeepMembers(reg: Registry, content: string, q: seq<string>, main: bool)
    ensures forall x :: x in Keep(reg, content, q, main) ==> x in q && Naming.IsMain(reg, content, x) == main
    decreases |q|
  {
    if q != [] {
      KeepMembers(reg, content, q[..|q| - 1], main);
    }
  }

  /** The `i`-th mapping added since `o` and the index entry added with it. */
  function AddedEntry(o: Progress, r: Progress, i: nat): Entry
    requires |o.found.mapping| <= i && |o.entries| + i - |o.found.mapping| < |r.entries|
  {
    r.entries[|o.entries| + i - |o.found.mapping|]
  }

  /**
   * `r` continues `o`: the mapping and the entries only grow, one entry per
   * mapped token of `toks`, each with the new ID, the `is_file` flag and
   * the parent given.
   */
  predicate Extends(o: Progress, r: Progress, toks: seq<string>, isFile: bool, parent: Option<string>)
  {
    |o.found.mapping| <= |r.found.mapping| && |o.entries| <= |r.entries|
    && |r.entries| - |o.entries| == |r.found.mapping| - |o.found.mapping|
    && r.found.mapping[..|o.found.mapping|] == o.found.mapping && r.entries[..|o.entries|] == o.entries
    && forall i :: |o.found.mapping| <= i < |r.found.mapping| ==>
         r.found.mapping[i].0 in toks
         && AddedEntry(o, r, i).artifactId == r.found.mapping[i].1
         && AddedEntry(o, r, i).isFile == isFile
         && AddedEntry(o, r, i).parent == NonEmpty(parent)
  }

  lemma ExtendsTrans(o: Progress, o1: Progress, r: Progress, tok: string, toks: seq<string>, isFile: bool, parent: Option<string>)
    requires toks != [] && tok == toks[0]
    requires Extends(o, o1, [tok], isFile, parent) && Extends(o1, r, toks[1..], isFile, parent)
    ensures Extends(o, r, toks, isFile, parent)
  {
    var m0, m1 := |o.found.mapping|, |o1.found.mapping|;
    assert r.found.mapping[..m0] == r.found.mapping[..m1][..m0];
    assert r.entries[..|o.entries|] == r.entries[..|o1.entries|][..|o.entries|];
    forall i | m0 <= i < |r.found.mapping|
      ensures r.found.mapping[i].0 in toks
      ensures AddedEntry(o, r, i).artifactId == r.found.mapping[i].1
      ensures AddedEntry(o, r, i).isFile == isFile
      ensures AddedEntry(o, r, i).parent == NonEmpty(parent)
    {
      if i < m1 {
        assert r.found.mapping[i] == o1.found.mapping[i];
        assert AddedEntry(o, r, i) == AddedEntry(o, o1, i);
      } else {
        assert AddedEntry(o, r, i) == AddedEntry(o1, r, i);
      }
    }
  }

  /** One allocation adds at most one mapping and one entry, and never changes the text it reads. */
  lemma AllocateExtends(reg: Registry, original: string, o: Progress, tok: string, isFile: bool)
    ensures Extends(o, Allocate(reg, original, o, tok, isFile), [tok], isFile, if isFile then None else o.found.parent)
    ensures !isFile ==> Allocate(reg, original, o, tok, isFile).found.parent == o.found.parent
  {
    match ParseProvisionalId(reg, tok)
    case Failure(_) =>
      Unextended(o);
    case Success(parsed) =>
      match NewId(reg, o.entries, parsed.0)
      case Failure(_) =>
        Unextended(o);
      case Success(id) =>
        GrantedExtends(o, tok, id, Naming.ArtifactName(original, tok), isFile);
  }

  lemma GrantedExtends(o: Progress, tok: string, id: string, name: Option<string>, isFile: bool)
    requires tok != []
    ensures Extends(o, Granted(o, tok, id, name, isFile), [tok], isFile, if isFile then None else o.found.parent)
    ensures !isFile ==> Granted(o, tok, id, name, isFile).found.parent == o.found.parent
  {
    var r := Granted(o, tok, id, name, isFile);
    var e := NewEntry(o.entries, id, name, isFile, if isFile then None else o.found.parent);
    assert r.entries[..|o.entries|] == o.entries;
    assert r.found.mapping[..|o.found.mapping|] == o.found.mapping;
    assert AddedEntry(o, r, |o.found.mapping|) == ReadBack(e);
  }

  lemma Unextended(o: Progress)
    ensures forall toks, isFile, parent :: Extends(o, o, toks, isFile, parent)
  {
    assert o.found.mapping[..|o.found.mapping|] == o.found.mapping;
    assert o.entries[..|o.entries|] == o.entries;
  }

  lemma {:induction false} AllocateAllExtends(reg: Registry, original: string, o: Progress, toks: seq<string>, isFile: bool)
    ensures Extends(o, AllocateAll(reg, original, o, toks, isFile), toks, isFile, if isFile then None else o.found.parent)
    ensures !isFile ==> AllocateAll(reg, original, o, toks, isFile).found.parent == o.found.parent
    decreases |toks|
  {
    if toks == [] {
      assert o.found.mapping[..|o.found.mapping|] == o.found.mapping;
      assert o.entries[..|o.entries|] == o.entries;
    } else {
      var o1 := Allocate(reg, original, o, toks[0], isFile);
      AllocateExtends(reg, original, o, toks[0], isFile);
      AllocateAllExtends(reg, original, o1, toks[1..], isFile);
      ExtendsTrans(o, o1, AllocateAll(reg, original, o, toks, isFile), toks[0], toks, isFile, if isFile then None else o.found.parent);
    }
  }

  /**
   * The parent for nested artifacts after the main ones: the one given when
   * it is not empty, otherwise the ID of the first main artifact mapped.
   */
  lemma {:induction false} MainsParent(reg: Registry, original: string, o: Progress, toks: seq<string>)
    ensures var r := AllocateAll(reg, original, o, toks, true);
      && (!Falsy(o.found.parent) || |r.found.mapping| == |o.found.mapping| ==> r.found.parent == o.found.parent)
      && (Falsy(o.found.parent) && |r.found.mapping| > |o.found.mapping| ==>
            |o.found.mapping| < |r.found.mapping| && r.found.parent == Some(r.found.mapping[|o.found.mapping|].1))
    decreases |toks|
  {
    if toks != [] {
      var o1 := Allocate(reg, original, o, toks[0], true);
      MainsParent(reg, original, o1, toks[1..]);
      AllocateAllExtends(reg, original, o1, toks[1..], true);
      var r := AllocateAll(reg, original, o, toks, true);
      if |o1.found.mapping| > |o.found.mapping| {
        assert r.found.mapping[|o.found.mapping|] == o1.found.mapping[|o.found.mapping|];
      }
    }
  }


  /** No provisional ID in the text: nothing is allocated and the text comes back as it was. */
  lemma ProvisionalNothingFound(reg: Registry, es: seq<Entry>, content: string, parent: Option<string>)
    requires ScanTokens(reg.order, content, 0) == {}
    ensures ProvisionalRun(reg, es, content, parent) == Progress(es, Renaming([], content, [], parent), true)
  {
    Ordering.ElementsEmpty(Ordering.Sorted(ScanTokens(reg.order, content, 0)));
  }

  /** The parent every nested artifact gets: the one given, or else the first main artifact's new ID. */
  function NestedParent(reg: Registry, content: string, m: seq<(string, string)>, parent: Option<string>): Option<string>
  {
    if Falsy(parent) && m != [] && Naming.IsMain(reg, content, m[0].0) then Some(m[0].1) else parent
  }

  /**
   * What `_process_provisional_ids` allocates, for the tokens `q`, on the
   * entries `es`, as `r`: one index entry per mapped token, in mapping
   * order, with the new ID; every mapped token is one of `q`; main
   * artifacts are mapped before nested ones, are files and have no parent;
   * nested ones are not files and all have the same parent.
   */
  predicate Allocations(reg: Registry, content: string, parent: Option<string>, q: seq<string>, es: seq<Entry>, r: Progress)
  {
    && |r.entries| == |es| + |r.found.mapping| && r.entries[..|es|] == es
    && (forall i :: 0 <= i < |r.found.mapping| ==>
        && r.found.mapping[i].0 in q
        && r.entries[|es| + i].artifactId == r.found.mapping[i].1
        && r.entries[|es| + i].isFile == Naming.IsMain(reg, content, r.found.mapping[i].0)
        && r.entries[|es| + i].parent ==
             if Naming.IsMain(reg, content, r.found.mapping[i].0) then None
             else NonEmpty(NestedParent(reg, content, r.found.mapping, parent)))
    && (forall i, j :: 0 <= i < j < |r.found.mapping| && Naming.IsMain(reg, content, r.found.mapping[j].0) ==>
          Naming.IsMain(reg, content, r.found.mapping[i].0))
  }

  /** The allocations of `_process_provisional_ids`, over the sorted tokens found in the text. */
  lemma ProvisionalAllocations(reg: Registry, es: seq<Entry>, content: string, parent: Option<string>)
    ensures Allocations(reg, content, parent, Ordering.Sorted(ScanTokens(reg.order, content, 0)), es,
                        ProvisionalRun(reg, es, content, parent))
  {
    RunAllocations(reg, es, content, parent, Ordering.Sorted(ScanTokens(reg.order, content, 0)));
  }

  lemma RunAllocations(reg: Registry, es: seq<Entry>, content: string, parent: Option<string>, q: seq<string>)
    ensures Allocations(reg, content, parent, q, es, RunOn(reg, es, content, parent, q))
  {
    var mains, nested := Keep(reg, content, q, true), Keep(reg, content, q, false);
    var o0 := Progress(es, Renaming([], content, [], parent), true);
    var o1 := AllocateAll(reg, content, o0, mains, true);
    var r := AllocateAll(reg, content, o1, nested, false);
    KeepMembers(reg, content, q, true);
    KeepMembers(reg, content, q, false);
    AllocateAllExtends(reg, content, o0, mains, true);
    AllocateAllExtends(reg, content, o1, nested, false);
    MainsParent(reg, content, o0, mains);
    PhasesShape(reg, content, parent, q, o0, o1, r, mains, nested);
  }

  /** `RunAllocations` on the two phases' results, with the runs themselves out of sight. */
  lemma PhasesShape(reg: Registry, content: string, parent: Option<string>, q: seq<string>,
                    o0: Progress, o1: Progress, r: Progress, mains: seq<string>, nested: seq<string>)
    requires o0.found.mapping == [] && o0.found.parent == parent
    requires forall x :: x in mains ==> x in q && Naming.IsMain(reg, content, x)
    requires forall x :: x in nested ==> x in q && !Naming.IsMain(reg, content, x)
    requires Extends(o0, o1, mains, true, None) && Extends(o1, r, nested, false, o1.found.parent)
    requires !Falsy(parent) || |o1.found.mapping| == 0 ==> o1.found.parent == parent
    requires Falsy(parent) && |o1.found.mapping| > 0 ==> o1.found.parent == Some(o1.found.mapping[0].1)
    ensures Allocations(reg, content, parent, q, o0.entries, r)
  {
    PhasesCompose(o0, o1, r, mains, nested, o1.found.parent);
    var m, m1 := r.found.mapping, o1.found.mapping;
    forall i | 0 <= i < |m|
      ensures m[i].0 in q
      ensures Naming.IsMain(reg, content, m[i].0) <==> i < |m1|
    {
      if i < |m1| {
        assert m[i].0 in mains;
      } else {
        assert m[i].0 in nested;
      }
    }
    var np := NestedParent(reg, content, m, parent);
    assert |m1| > 0 ==> m[0] == m1[0];
    assert np == o1.found.parent by {
      if m != [] && !Naming.IsMain(reg, content, m[0].0) {
        assert |m1| == 0;
      }
    }
    forall i | 0 <= i < |m|
      ensures r.entries[|o0.entries| + i].parent ==
        if Naming.IsMain(reg, content, m[i].0) then None else NonEmpty(np)
    {
    }
    forall i, j | 0 <= i < j < |m| && Naming.IsMain(reg, content, m[j].0)
      ensures Naming.IsMain(reg, content, m[i].0)
    {
    }
  }

  /** The main phase followed by the nested phase, from an empty mapping. */
  lemma PhasesCompose(o0: Progress, o1: Progress, r: Progress, mains: seq<string>, nested: seq<string>, p1: Option<string>)
    requires o0.found.mapping == []
    requires Extends(o0, o1, mains, true, None) && Extends(o1, r, nested, false, p1)
    ensures |r.entries| == |o0.entries| + |r.found.mapping| && r.entries[..|o0.entries|] == o0.entries
    ensures |o1.found.mapping| <= |r.found.mapping| && r.found.mapping[..|o1.found.mapping|] == o1.found.mapping
    ensures forall i :: 0 <= i < |r.found.mapping| ==>
      var e := r.entries[|o0.entries| + i];
      && e.artifactId == r.found.mapping[i].1
      && (i < |o1.found.mapping| ==> r.found.mapping[i].0 in mains && e.isFile && e.parent == None)
      && (i >= |o1.found.mapping| ==> r.found.mapping[i].0 in nested && !e.isFile && e.parent == NonEmpty(p1))
  {
    var n := |o0.entries|;
    assert r.entries[..n] == r.entries[..|o1.entries|][..n];
    forall i | 0 <= i < |o1.found.mapping|
      ensures r.entries[n + i] == o1.entries[n + i] && r.found.mapping[i] == o1.found.mapping[i]
    {
      assert r.entries[..|o1.entries|][n + i] == o1.entries[n + i];
      assert r.found.mapping[..|o1.found.mapping|][i] == o1.found.mapping[i];
    }
    forall i | 0 <= i < |r.found.mapping|
      ensures r.entries[n + i].artifactId == r.found.mapping[i].1
      ensures i < |o1.found.mapping| ==> r.found.mapping[i].0 in mains && r.entries[n + i].isFile && r.entries[n + i].parent == None
      ensures i >= |o1.found.mapping| ==> r.found.mapping[i].0 in nested && !r.entries[n + i].isFile && r.entries[n + i].parent == NonEmpty(p1)
    {
      if i < |o1.found.mapping| {
        assert r.entries[n + i] == AddedEntry(o0, o1, i);
      } else {
        assert r.entries[n + i] == AddedEntry(o1, r, i);
      }
    }
  }

  /** The split of the sorted tokens by `_is_main_artifact`, in order. */
  method SplitMains(reg: Registry, content: string, q: seq<string>) returns (mains: seq<string>, nested: seq<string>)
    ensures mains == Keep(reg, content, q, true) && nested == Keep(reg, content, q, false)
  {
    mains, nested := [], [];
    var i := 0;
    while i < |q|
      invariant i <= |q|
      invariant mains == Keep(reg, content, q[..i], true) && nested == Keep(reg, content, q[..i], false)
    {
      var b := Naming.IsMainArtifact(reg, content, q[i]);
      assert q[..i + 1][..i] == q[..i];
      if b {
        mains := mains + [q[i]];
      } else {
        nested := nested + [q[i]];
      }
      i := i + 1;
    }
    assert q[..|q|] == q;
  }

  // ------------------------------------------------------------ provisional IDs, filtered

  /**
   * The `allowed_types` filter: a non-empty list keeps the provisional IDs
   * whose parsed type it lists (compared exactly); IDs that do not parse
   * are dropped. No list, or an empty one, keeps them all.
   */
  function FilterTypes(reg: Registry, ids: set<string>, allowed: Option<seq<string>>): (r: set<string>)
  {
    if allowed.None? || allowed.value == [] then ids else set t | t in ids && Kept(reg, t, allowed.value)
  }

  predicate Kept(reg: Registry, t: string, allowed: seq<string>)
  {
    ParseProvisionalId(reg, t).Success? && ParseProvisionalId(reg, t).value.0 in allowed
  }

  /**
   * The step references of the filtered processing: when the provisional
   * ID ends in `PROVISIONAL<k>` and the new ID in `-<n>`, every
   * `PROVISIONAL<k>.<m>` becomes `<n>.<m>`.
   */
  function StepsRenamed(s: string, tok: string, id: string): string
  {
    match Naming.NumberAfter(tok, ProvisionalMarker)
    case None => s
    case Some(k) =>
      match Naming.NumberAfter(id, "-")
      case None => s
      case Some(n) => Naming.RewriteSteps(s, k, n)
  }

  /**
   * One token of `_process_provisional_ids_filtered`: a nested artifact
   * under the given parent; a `ValueError` is passed on.
   */
  function AllocateStrict(reg: Registry, original: string, o: Progress, tok: string): (r: Result<Progress, ManagerError>)
  {
    match ParseProvisionalId(reg, tok)
    case Failure(e) => Failure(BadType(e))
    case Success(parsed) =>
      match NewId(reg, o.entries, parsed.0)
      case Failure(e) => Failure(e)
      case Success(id) =>
        ParsedNonEmpty(reg, tok);
        var g := Granted(o, tok, id, Naming.ArtifactName(original, tok), false);
        Success(Progress(g.entries, Renaming(g.found.mapping, StepsRenamed(g.found.content, tok, id), g.found.names, g.found.parent), g.clean))
  }

  /** The progress made, and the error the loop stopped on. */
  datatype Strict = Strict(progress: Progress, error: Option<ManagerError>)

  function AllocateAllStrict(reg: Registry, original: string, o: Progress, toks: seq<string>): (r: Strict)
    decreases |toks|
  {
    if toks == [] then Strict(o, None)
    else match AllocateStrict(reg, original, o, toks[0])
      case Failure(e) => Strict(o, Some(e))
      case Success(o1) => AllocateAllStrict(reg, original, o1, toks[1..])
  }

  /** `_process_provisional_ids_filtered` on the index entries `es`, over the sorted kept tokens. */
  ghost function FilteredRun(reg: Registry, es: seq<Entry>, content: string, allowed: Option<seq<string>>, parent: Option<string>): (r: Strict)
  {
    AllocateAllStrict(reg, content, Progress(es, Renaming([], content, [], parent), true),
                      Ordering.Sorted(FilterTypes(reg, ScanTokens(reg.order, content, 0), allowed)))
  }

  function Keys(m: seq<(string, string)>): (r: seq<string>)
    ensures |r| == |m| && forall i :: 0 <= i < |m| ==> r[i] == m[i].0
  {
    seq(|m|, i requires 0 <= i < |m| => m[i].0)
  }

  /** A token that parses and gets a new ID is granted it, and its step references are renamed. */
  lemma AllocateStrictGranted(reg: Registry, original: string, o: Progress, tok: string, id: string)
    requires ParseProvisionalId(reg, tok).Success?
    requires NewId(reg, o.entries, ParseProvisionalId(reg, tok).value.0) == Success(id)
    ensures tok != []
    ensures var g := Granted(o, tok, id, Naming.ArtifactName(original, tok), false);
      AllocateStrict(reg, original, o, tok)
        == Success(Progress(g.entries, Renaming(g.found.mapping, StepsRenamed(g.found.content, tok, id), g.found.names, g.found.parent), g.clean))
  {
  }

  /** One strict step adds the token's entry, nested under the parent, or fails and adds nothing. */
  lemma AllocateStrictExtends(reg: Registry, original: string, o: Progress, tok: string)
    ensures AllocateStrict(reg, original, o, tok).Success? ==>
      var o1 := AllocateStrict(reg, original, o, tok).value;
      Extends(o, o1, [tok], false, o.found.parent) && o1.found.parent == o.found.parent
      && Keys(o1.found.mapping) == Keys(o.found.mapping) + [tok]
  {
    var parsed := ParseProvisionalId(reg, tok);
    if parsed.Success? && NewId(reg, o.entries, parsed.value.0).Success? {
      var id := NewId(reg, o.entries, parsed.value.0).value;
      AllocateStrictGranted(reg, original, o, tok, id);
      var name := Naming.ArtifactName(original, tok);
      GrantedExtends(o, tok, id, name, false);
      var g := Granted(o, tok, id, name, false);
      var o1 := AllocateStrict(reg, original, o, tok).value;
      ExtendsSame(o, g, o1, [tok], false, o.found.parent);
      KeysSnoc(o.found.mapping, tok, id);
    } else {
      assert AllocateStrict(reg, original, o, tok).Failure?;
    }
  }

  lemma KeysSnoc(m: seq<(string, string)>, k: string, v: string)
    ensures Keys(m + [(k, v)]) == Keys(m) + [k]
  {
    assert forall i :: 0 <= i < |m| + 1 ==> Keys(m + [(k, v)])[i] == (Keys(m) + [k])[i];
  }

  lemma ExtendsSame(o: Progress, g: Progress, o1: Progress, toks: seq<string>, isFile: bool, parent: Option<string>)
    requires Extends(o, g, toks, isFile, parent) && o1.entries == g.entries && o1.found.mapping == g.found.mapping
    ensures Extends(o, o1, toks, isFile, parent)
  {
    forall i | |o.found.mapping| <= i < |o1.found.mapping| ensures AddedEntry(o, o1, i) == AddedEntry(o, g, i) {
    }
  }

  /**
   * The filtered loop adds one nested entry per mapped token, all under the
   * given parent; when it does not stop on an error, every token is mapped,
   * in order.
   */
  lemma {:induction false} AllocateAllStrictExtends(reg: Registry, original: string, o: Progress, toks: seq<string>)
    ensures var s := AllocateAllStrict(reg, original, o, toks);
      Extends(o, s.progress, toks, false, o.found.parent)
      && (s.error.None? ==> Keys(s.progress.found.mapping) == Keys(o.found.mapping) + toks)
    decreases |toks|
  {
    if toks == [] {
      Unextended(o);
      assert Keys(o.found.mapping) + toks == Keys(o.found.mapping);
    } else {
      AllocateStrictExtends(reg, original, o, toks[0]);
      match AllocateStrict(reg, original, o, toks[0])
      case Failure(_) =>
        Unextended(o);
      case Success(o1) =>
        AllocateAllStrictExtends(reg, original, o1, toks[1..]);
        assert AllocateAllStrict(reg, original, o, toks) == AllocateAllStrict(reg, original, o1, toks[1..]);
        StrictCompose(o, o1, AllocateAllStrict(reg, original, o1, toks[1..]), toks);
    }
  }

  lemma StrictCompose(o: Progress, o1: Progress, s: Strict, toks: seq<string>)
    requires toks != []
    requires Extends(o, o1, [toks[0]], false, o.found.parent) && o1.found.parent == o.found.parent
    requires Keys(o1.found.mapping) == Keys(o.found.mapping) + [toks[0]]
    requires Extends(o1, s.progress, toks[1..], false, o1.found.parent)
    requires s.error.None? ==> Keys(s.progress.found.mapping) == Keys(o1.found.mapping) + toks[1..]
    ensures Extends(o, s.progress, toks, false, o.found.parent)
    ensures s.error.None? ==> Keys(s.progress.found.mapping) == Keys(o.found.mapping) + toks
  {
    ExtendsTrans(o, o1, s.progress, toks[0], toks, false, o.found.parent);
    assert Keys(o.found.mapping) + [toks[0]] + toks[1..] == Keys(o.found.mapping) + toks;
  }

  /**
   * What `_process_provisional_ids_filtered` allocates, for the kept tokens
   * `kept` in the order `q`, on the entries `es`, as `s`: one entry per
   * mapped token, in mapping order, with the new ID; every mapped token was
   * kept by the type filter; none is a file and all have the given parent;
   * with no error, every kept token is mapped, in order.
   */
  predicate StrictAllocations(kept: set<string>, q: seq<string>, es: seq<Entry>, parent: Option<string>, s: Strict)
  {
    && |s.progress.entries| == |es| + |s.progress.found.mapping| && s.progress.entries[..|es|] == es
    && (forall i :: 0 <= i < |s.progress.found.mapping| ==>
          && s.progress.found.mapping[i].0 in kept
          && s.progress.entries[|es| + i].artifactId == s.progress.found.mapping[i].1
          && !s.progress.entries[|es| + i].isFile
          && s.progress.entries[|es| + i].parent == NonEmpty(parent))
    && (s.error.None? ==> Keys(s.progress.found.mapping) == q)
  }

  /** The allocations of `_process_provisional_ids_filtered`, over the sorted kept tokens. */
  lemma FilteredAllocations(reg: Registry, es: seq<Entry>, content: string, allowed: Option<seq<string>>, parent: Option<string>)
    ensures StrictAllocations(FilterTypes(reg, ScanTokens(reg.order, content, 0), allowed),
                              Ordering.Sorted(FilterTypes(reg, ScanTokens(reg.order, content, 0), allowed)),
                              es, parent, FilteredRun(reg, es, content, allowed, parent))
  {
    var kept := FilterTypes(reg, ScanTokens(reg.order, content, 0), allowed);
    var q := Ordering.Sorted(kept);
    var o0 := Progress(es, Renaming([], content, [], parent), true);
    AllocateAllStrictExtends(reg, content, o0, q);
    assert FilteredRun(reg, es, content, allowed, parent) == AllocateAllStrict(reg, content, o0, q);
    StrictShape(o0, AllocateAllStrict(reg, content, o0, q), q, kept);
  }

  lemma StrictShape(o0: Progress, s: Strict, q: seq<string>, kept: set<string>)
    requires o0.found.mapping == [] && Ordering.Elements(q) == kept
    requires Extends(o0, s.progress, q, false, o0.found.parent)
    requires s.error.None? ==> Keys(s.progress.found.mapping) == Keys(o0.found.mapping) + q
    ensures StrictAllocations(kept, q, o0.entries, o0.found.parent, s)
  {
    var r := s.progress;
    assert Keys(o0.found.mapping) + q == q;
    forall i | 0 <= i < |r.found.mapping|
      ensures r.found.mapping[i].0 in kept
      ensures r.entries[|o0.entries| + i].artifactId == r.found.mapping[i].1
      ensures !r.entries[|o0.entries| + i].isFile && r.entries[|o0.entries| + i].parent == NonEmpty(o0.found.parent)
    {
      assert r.entries[|o0.entries| + i] == AddedEntry(o0, r, i);
      assert r.found.mapping[i].0 in Ordering.Elements(q);
    }
  }

  /** Once an added entry did not read back, the filtered loop's progress stays tainted. */
  lemma {:induction false} StrictTainted(reg: Registry, original: string, o: Progress, toks: seq<string>)
    requires !o.clean
    ensures !AllocateAllStrict(reg, original, o, toks).progress.clean
    decreases |toks|
  {
    if toks != [] {
      var tok := toks[0];
      var parsed := ParseProvisionalId(reg, tok);
      if parsed.Success? && NewId(reg, o.entries, parsed.value.0).Success? {
        AllocateStrictGranted(reg, original, o, tok, NewId(reg, o.entries, parsed.value.0).value);
        StrictTainted(reg, original, AllocateStrict(reg, original, o, tok).value, toks[1..]);
      }
    }
  }

  /** Nothing of an allowed type found: nothing is allocated and the text comes back as it was. */
  lemma FilteredNothingFound(reg: Registry, es: seq<Entry>, content: string, allowed: Option<seq<string>>, parent: Option<string>)
    requires FilterTypes(reg, ScanTokens(reg.order, content, 0), allowed) == {}
    ensures FilteredRun(reg, es, content, allowed, parent) == Strict(Progress(es, Renaming([], content, [], parent), true), None)
  {
    Ordering.ElementsEmpty(Ordering.Sorted(FilterTypes(reg, ScanTokens(reg.order, content, 0), allowed)));
  }

  /** The type filter keeps exactly the tokens of a listed type, or all of them. */
  method FilterAllowedTypes(reg: Registry, ids: set<string>, allowed: Option<seq<string>>) returns (kept: set<string>)
    ensures kept == FilterTypes(reg, ids, allowed)
  {
    if allowed.None? || allowed.value == [] {
      return ids;
    }
    kept := {};
    var rest := ids;
    while rest != {}
      invariant rest <= ids
      invariant kept == set x | x in ids - rest && Kept(reg, x, allowed.value)
      decreases |rest|
    {
      var t :| t in rest;
      var parsed := ParseProvisionalId(reg, t);
      FilterStep(reg, ids, rest, t, allowed.value);
      if parsed.Success? && parsed.value.0 in allowed.value {
        kept := kept + {t};
      }
      rest := rest - {t};
    }
    assert ids - rest == ids;
  }

  lemma FilterStep(reg: Registry, ids: set<string>, rest: set<string>, t: string, allowed: seq<string>)
    requires t in rest && rest <= ids
    ensures (set x | x in ids - (rest - {t}) && Kept(reg, x, allowed))
      == (set x | x in ids - rest && Kept(reg, x, allowed)) + (if Kept(reg, t, allowed) then {t} else {})
  {
    assert ids - (rest - {t}) == (ids - rest) + {t};
  }

  // ------------------------------------------------------------ finalize_provisional_file

  /** One allocation never maps the empty token. */
  lemma AllocateKeys(reg: Registry, original: string, o: Progress, tok: string, isFile: bool)
    requires Naming.KeysNonEmpty(o.found.mapping)
    ensures Naming.KeysNonEmpty(Allocate(reg, original, o, tok, isFile).found.mapping)
  {
    match ParseProvisionalId(reg, tok)
    case Failure(_) =>
    case Success(parsed) =>
      match NewId(reg, o.entries, parsed.0)
      case Failure(_) =>
      case Success(id) =>
        AllocateGranted(reg, original, o, tok, isFile, id);
        GrantedKeys(o, tok, id, Naming.ArtifactName(original, tok), isFile);
  }

  lemma KeysSnocNonEmpty(m: seq<(string, string)>, k: string, v: string)
    requires Naming.KeysNonEmpty(m) && k != []
    ensures Naming.KeysNonEmpty(m + [(k, v)])
  {
  }

  lemma GrantedKeys(o: Progress, tok: string, id: string, name: Option<string>, isFile: bool)
    requires tok != [] && Naming.KeysNonEmpty(o.found.mapping)
    ensures Naming.KeysNonEmpty(Granted(o, tok, id, name, isFile).found.mapping)
  {
    assert Granted(o, tok, id, name, isFile).found.mapping == o.found.mapping + [(tok, id)];
  }

  lemma {:induction false} AllocateAllKeys(reg: Registry, original: string, o: Progress, toks: seq<string>, isFile: bool)
    requires Naming.KeysNonEmpty(o.found.mapping)
    ensures Naming.KeysNonEmpty(AllocateAll(reg, original, o, toks, isFile).found.mapping)
    decreases |toks|
  {
    if toks != [] {
      AllocateKeys(reg, original, o, toks[0], isFile);
      AllocateAllKeys(reg, original, Allocate(reg, original, o, toks[0], isFile), toks[1..], isFile);
    }
  }

  /** The mapping `_process_provisional_ids` makes has no empty provisional ID, so it can name the target file. */
  lemma ProvisionalKeys(reg: Registry, es: seq<Entry>, content: string, parent: Option<string>)
    ensures Naming.KeysNonEmpty(ProvisionalRun(reg, es, content, parent).found.mapping)
  {
    var q := Ordering.Sorted(ScanTokens(reg.order, content, 0));
    var o0 := Progress(es, Renaming([], content, [], parent), true);
    AllocateAllKeys(reg, content, o0, Keep(reg, content, q, true), true);
    AllocateAllKeys(reg, content, AllocateAll(reg, content, o0, Keep(reg, content, q, true), true), Keep(reg, content, q, false), false);
  }

  /** What `finalize_provisional_file` decides, short of the moves of the files themselves. */
  datatype Finalization =
    | NothingToFinalize                 // no provisional ID was mapped: nothing is written
    | Finalized(
        target: string,                 // the name of the file written to the repository
        content: string,                // the text written there
        mapping: seq<(string, string)>, // the ID mappings reported
        mainId: Option<string>)         // the result's `target`; the finalization handler runs for it

  /** The provisional file's name gives it a (non-empty) type. */
  predicate ValidName(reg: Registry, filename: string)
  {
    ValidateProvisionalFilename(reg, filename).valid && ValidateProvisionalFilename(reg, filename).artifactType.value != []
  }

  function FileType(reg: Registry, filename: string): string
    requires ValidName(reg, filename)
  {
    ValidateProvisionalFilename(reg, filename).artifactType.value
  }

  /**
   * The main artifact of the finalised file: when the provisional file's
   * name is a valid provisional name of type `T`, the first new ID that
   * starts with `T-`.
   */
  function MainOf(reg: Registry, filename: string, mapping: seq<(string, string)>): (r: Option<string>)
    ensures r.Some? <==> (ValidName(reg, filename) && exists i :: 0 <= i < |mapping| && StartsWith(mapping[i].1, FileType(reg, filename) + "-"))
    ensures r.Some? ==> exists i :: Naming.FirstOfType(mapping, FileType(reg, filename), i) && mapping[i].1 == r.value
  {
    var check := ValidateProvisionalFilename(reg, filename);
    if check.valid && check.artifactType.value != [] then Naming.MainArtifactId(mapping, check.artifactType.value) else None
  }

  /**
   * `finalize_provisional_file` once the provisional IDs of the file
   * `filename` are processed into `mapping` and `updated`: nothing when
   * nothing was mapped; otherwise the target name, the text with its
   * trailing whitespace replaced by the version footer, and the main
   * artifact.
   */
  function FinalizationOf(reg: Registry, filename: string, suffix: Option<string>,
                          mapping: seq<(string, string)>, updated: string): (r: Finalization)
    requires Naming.KeysNonEmpty(mapping)
    ensures r.NothingToFinalize? <==> mapping == []
    ensures r.Finalized? ==>
      && r.mapping == mapping
      && EndsWith(r.target, Naming.StemAndSuffix(filename).1)
      && StartsWith(r.content, RStrip(updated)) && EndsWith(r.content, Naming.VersionFooter())
      && r.mainId == MainOf(reg, filename, mapping)
  {
    if mapping == [] then NothingToFinalize
    else
      Naming.TargetKeepsExtension(filename, mapping, suffix);
      Finalized(Naming.TargetFilename(filename, mapping, suffix), Naming.FinalContent(updated), mapping,
                MainOf(reg, filename, mapping))
  }

  /** A file without provisional IDs is not finalised. */
  lemma NothingToFinalizeWithoutTokens(reg: Registry, es: seq<Entry>, content: string, filename: string, suffix: Option<string>)
    requires ScanTokens(reg.order, content, 0) == {}
    ensures ProvisionalKeysOf(reg, es, content)
    ensures FinalizationOf(reg, filename, suffix, ProvisionalRun(reg, es, content, None).found.mapping,
                           ProvisionalRun(reg, es, content, None).found.content) == NothingToFinalize
  {
    ProvisionalNothingFound(reg, es, content, None);
  }

  ghost predicate ProvisionalKeysOf(reg: Registry, es: seq<Entry>, content: string)
  {
    Naming.KeysNonEmpty(ProvisionalRun(reg, es, content, None).found.mapping)
  }

  /**
   * The main artifact a finalisation reports is one of the artifacts it
   * allocated: an index entry of its own file, with no parent.
   */
  lemma FinalizedMainAllocated(reg: Registry, es: seq<Entry>, content: string, filename: string, suffix: Option<string>)
    ensures ProvisionalKeysOf(reg, es, content)
    ensures var run := ProvisionalRun(reg, es, content, None);
      var f := FinalizationOf(reg, filename, suffix, run.found.mapping, run.found.content);
      f.Finalized? && f.mainId.Some? ==>
        exists k :: |es| <= k < |run.entries| && run.entries[k].artifactId == f.mainId.value
  {
    ProvisionalKeys(reg, es, content, None);
    var run := ProvisionalRun(reg, es, content, None);
    ProvisionalAllocations(reg, es, content, None);
    var f := FinalizationOf(reg, filename, suffix, run.found.mapping, run.found.content);
    if f.Finalized? && f.mainId.Some? {
      var i :| Naming.FirstOfType(run.found.mapping, FileType(reg, filename), i) && run.found.mapping[i].1 == f.mainId.value;
      assert run.entries[|es| + i].artifactId == f.mainId.value;
    }
  }

  // ------------------------------------------------------------ the manager

  // ------------------------------------------------------------ reading an artifact

  /**
   * `get_artifact`: resolve the identifier, find its index entry, then read
   * the artifact's whole file (a file artifact) or its `### ` section.
   */
  function Load(es: seq<Entry>, docs: seq<MdFile>, identifier: string): (r: Result<string, ManagerError>)
    ensures Resolve(es, identifier).None? <==> r == Failure(NotFound(identifier))
    ensures r.Success? ==> Listed(es, Resolve(es, identifier).value)
    ensures r.Failure? ==> r.error.NotFound? || r.error.Unindexed? || r.error.NoFile? || r.error.NoSection?
  {
    match Resolve(es, identifier)
    case None => Failure(NotFound(identifier))
    case Some(id) =>
      match Find(es, ById(id))
      case None => Failure(Unindexed(id))
      case Some(e) =>
        if e.isFile then
          match FileFor(docs, id)
          case None => Failure(NoFile(id))
          case Some(k) => Success(docs[k].content)
        else NonFileArtifact(docs, id)
  }

  /** The `message` `get_artifact` fails with. */
  function LoadMessage(e: ManagerError): string
  {
    match e
    case NotFound(identifier) => "No artifact found for identifier: " + identifier
    case Unindexed(id) => "Artifact " + id + " not found in index"
    case NoFile(id) => "No file found for artifact " + id
    case NoSection(id) => "No content found for non-file artifact " + id
    case RootUnset => "RESPECT_DOC_REPO_ROOT environment variable not set"
    case _ => ""  // `Load` and `LoadFrom` fail with no other error
  }

  /** The `message` `_update_file_artifact` and `_update_non_file_artifact` fail with. */
  function WriteMessage(e: ManagerError): string
  {
    match e
    case NoFile(id) => "No file found for artifact " + id
    case NoSection(id) => "No artifact section found for " + id
    case _ => ""  // the writes fail with no other error
  }

  /**
   * `get_artifact` with the `file_path` it answers: the file read and the
   * text. Once the ID is found in the index it fails when the document root
   * is not configured; with the root configured it is `Load`.
   */
  function LoadFrom(rootSet: bool, es: seq<Entry>, docs: seq<MdFile>, identifier: string): (r: Result<(nat, string), ManagerError>)
    ensures r.Success? ==> rootSet && r.value.0 < |docs| && Load(es, docs, identifier) == Success(r.value.1)
    ensures rootSet && r.Failure? ==> Load(es, docs, identifier) == Failure(r.error)
    ensures !rootSet ==> r.Failure?
    ensures !rootSet ==>
      (r.error == RootUnset <==> Resolve(es, identifier).Some? && Find(es, ById(Resolve(es, identifier).value)).Some?)
    ensures r.Success? ==>
      var id := Resolve(es, identifier).value;
      r.value.0 == if Find(es, ById(id)).value.isFile then FileFor(docs, id).value else Locate(docs, Heading(id)).value.0
  {
    match Resolve(es, identifier)
    case None => Failure(NotFound(identifier))
    case Some(id) =>
      match Find(es, ById(id))
      case None => Failure(Unindexed(id))
      case Some(e) =>
        if !rootSet then Failure(RootUnset)
        else if e.isFile then
          match FileFor(docs, id)
          case None => Failure(NoFile(id))
          case Some(k) => Success((k, docs[k].content))
        else
          match Locate(docs, Heading(id))
          case None => Failure(NoSection(id))
          case Some((k, _, _)) => Success((k, NonFileArtifact(docs, id).value))
  }

  /** Overwriting a file artifact's file: `get_artifact` then reads the new text back. */
  lemma FileWriteLoads(es: seq<Entry>, docs: seq<MdFile>, identifier: string, content: string)
    requires Resolve(es, identifier).Some?
    requires Find(es, ById(Resolve(es, identifier).value)).Some?
    requires Find(es, ById(Resolve(es, identifier).value)).value.isFile
    requires FileWrite(docs, Resolve(es, identifier).value, content).Success?
    ensures Load(es, Apply(docs, FileWrite(docs, Resolve(es, identifier).value, content).value), identifier)
         == Success(Newlines(content))
  {
    var id := Resolve(es, identifier).value;
    var w := FileWrite(docs, id, content).value;
    var after := Apply(docs, w);
    SameNamesFirstNamed(docs, after, id, false, 0);
    SameNamesFirstNamed(docs, after, id, true, 0);
    assert FileFor(after, id) == FileFor(docs, id);
  }

  /** Splicing a section with its heading: `get_artifact` then reads the new section back. */
  lemma SectionWriteLoads(es: seq<Entry>, docs: seq<MdFile>, identifier: string, content: string)
    requires ReadAsText(docs) && '\r' !in content
    requires Resolve(es, identifier).Some?
    requires Find(es, ById(Resolve(es, identifier).value)).Some?
    requires !Find(es, ById(Resolve(es, identifier).value)).value.isFile
    requires SectionWrite(docs, Resolve(es, identifier).value, content).Success?
    requires Sections.IsStart(Sections.NewLines(content)[0], Heading(Resolve(es, identifier).value))
    requires Sections.NoneIn(Sections.NewLines(content), Sections.Closes(Heading(Resolve(es, identifier).value)),
                             1, |Sections.NewLines(content)|)
    ensures Load(es, Apply(docs, SectionWrite(docs, Resolve(es, identifier).value, content).value), identifier)
         == Success(RStrip(content))
  {
    SectionWriteReadsBack(docs, Resolve(es, identifier).value, content);
  }

  /** The file-name walks see only names, so two repositories with the same names agree. */
  lemma {:induction false} SameNamesFirstNamed(a: seq<MdFile>, b: seq<MdFile>, id: string, exact: bool, k: nat)
    requires |a| == |b| && k <= |a|
    requires forall j :: 0 <= j < |a| ==> a[j].name == b[j].name
    ensures FirstNamed(a, id, exact, k) == FirstNamed(b, id, exact, k)
    decreases |a| - k
  {
    if k < |a| {
      SameNamesFirstNamed(a, b, id, exact, k + 1);
    }
  }

  // ------------------------------------------------------------ status updates

  /** The result `update_artifact_status` returns. */
  datatype StatusUpdate =
    | NoArtifact(identifier: string)                 // the identifier resolves to nothing
    | TypeRaised(typeError: TypeError)               // `get_artifact_type_from_id` raised
    | StatusRefused(statusError: TypeError, validStatuses: seq<string>, artifactType: string)
    | StatusSet(success: bool, artifactId: string, status: string, updates: seq<string>, error: Option<string>)

  /**
   * Resolution and validation: the result dictionary before any update,
   * or the early answer when the identifier or the status does not pass.
   */
  function Prechecked(reg: Registry, es: seq<Entry>, identifier: string, status: string): (r: StatusUpdate)
    ensures r.NoArtifact? <==> Resolve(es, identifier).None?
    ensures r.StatusSet? ==>
      Resolve(es, identifier) == Some(r.artifactId) && TypeFromId(reg, r.artifactId).Success?
      && r.status == Upper(status) && r.status in ValidStatusesForType(reg, TypeFromId(reg, r.artifactId).value).value
      && r.success && r.updates == [] && r.error.None?
    ensures r.StatusRefused? ==>
      Resolve(es, identifier).Some? && TypeFromId(reg, Resolve(es, identifier).value) == Success(r.artifactType)
      && r.validStatuses == ValidStatusesForType(reg, r.artifactType).value && Upper(status) !in r.validStatuses
  {
    match Resolve(es, identifier)
    case None => NoArtifact(identifier)
    case Some(id) =>
      match TypeFromId(reg, id)
      case Failure(e) => TypeRaised(e)
      case Success(t) =>
        UpperOfUpperWord(t);
        StatusChecked(reg, id, t, status)
  }

  /** The status validation for the ID `id` of the configured type `t`. */
  function StatusChecked(reg: Registry, id: string, t: string, status: string): (r: StatusUpdate)
    requires IsValidType(reg, t)
    ensures r.StatusSet? || r.StatusRefused?
    ensures r.StatusSet? ==>
      r.artifactId == id && r.status == Upper(status) && r.status in ValidStatusesForType(reg, t).value
      && r.success && r.updates == [] && r.error.None?
    ensures r.StatusRefused? ==>
      r.artifactType == t && r.validStatuses == ValidStatusesForType(reg, t).value && Upper(status) !in r.validStatuses
  {
    match ValidateAndNormalizeStatus(reg, status, t)
    case Failure(e) => StatusRefused(e, ValidStatusesForType(reg, t).value, t)
    case Success(s) => StatusSet(true, id, s, [], None)
  }

  /** A listed artifact ID is found by the index's lookup. */
  lemma ListedFound(es: seq<Entry>, id: string)
    requires Listed(es, id)
    ensures FirstMatch(es, ById(id)).Some?
  {
    var k :| 0 <= k < |es| && es[k].artifactId == id;
    assert KeyMatches(es[k], ById(id));
  }

  /** The update gets past validation and the ID's type has no handler: the fallback runs. */
  predicate FallsBack(reg: Registry, es: seq<Entry>, identifier: string, status: string)
  {
    var pre := Prechecked(reg, es, identifier, status);
    pre.StatusSet? && Handlers.HandlerForId(pre.artifactId).None?
  }

  /** The text of the exception `update_managed_header` raises. */
  function HeaderMessage(e: HeaderCodec.HeaderError): string
  {
    match e
    case NoIdGroup(_) => "no such group"
    case NoHeaderLine => "Could not parse artifact header from content"
    case TypeNotDetected => "Could not determine artifact type from content"
  }

  /** The step of the fallback's header rewrite that failed. */
  datatype HeaderFailure =
    | LoadFailed(loadError: ManagerError)            // `get_artifact` failed
    | HeaderFailed(headerError: HeaderCodec.HeaderError) // `update_managed_header` raised
    | WriteFailed(writeError: ManagerError)          // writing the new text back failed

  /** The warning noted for a failed header rewrite. */
  function FailureNote(f: HeaderFailure): string
  {
    "Warning: " + FailureDetail(f)
  }

  /** What the warning for a failed header rewrite says after `Warning: `. */
  function FailureDetail(f: HeaderFailure): string
  {
    match f
    case LoadFailed(e) => "Could not load artifact content: " + LoadMessage(e)
    case HeaderFailed(e) => "Header update failed: " + HeaderMessage(e)
    case WriteFailed(e) => "Failed to update content header: " + WriteMessage(e)
  }

  /** The update noted for the header rewrite. */
  function ContentNote(h: Result<Write, HeaderFailure>): string
  {
    if h.Success? then ContentUpdated else FailureNote(h.error)
  }

  const ContentUpdated := "Updated STATUS in artifact content"

  /** Every failure is noted as a warning, never as the rewrite having happened. */
  lemma FailureNoteWarns(f: HeaderFailure)
    ensures StartsWith(FailureNote(f), "Warning: ") && FailureNote(f) != ContentUpdated
  {
    var w := "Warning: ";
    PrefixOfConcat(w, FailureDetail(f));
    assert w[0] == 'W' && ContentUpdated[0] == 'U';
  }

  /** A concatenation starts with its first part, and with that part's first character. */
  lemma PrefixOfConcat(w: string, rest: string)
    requires w != []
    ensures StartsWith(w + rest, w) && (w + rest)[0] == w[0]
  {
    assert (w + rest)[..|w|] == w;
  }

  /** Writing the rewritten text back: over the file for a file artifact, else over the section. */
  function WriteBack(es: seq<Entry>, docs: seq<MdFile>, id: string, updated: string): (r: Result<Write, HeaderFailure>)
    ensures r.Success? ==> Fits(docs, r.value) && r.value.text == updated
    ensures r.Failure? ==> r.error.WriteFailed?
  {
    var isFile := match Find(es, ById(id)) case Some(e) => e.isFile case None => false;
    match (if isFile then FileWrite(docs, id, updated) else SectionWrite(docs, id, updated))
    case Failure(e) => Failure(WriteFailed(e))
    case Success(w) => Success(w)
  }

  /**
   * The fallback's header rewrite: load the artifact, set its `STATUS`
   * header, and write it back to its file or its section.
   */
  function HeaderWrite(reg: Registry, items: seq<HeaderCodec.HeaderItem>, rootSet: bool, es: seq<Entry>, docs: seq<MdFile>,
                       id: string, s: string): (r: Result<Write, HeaderFailure>)
    ensures r.Success? ==> Fits(docs, r.value)
  {
    match LoadFrom(rootSet, es, docs, id)
    case Failure(e) => Failure(LoadFailed(e))
    case Success((_, content)) =>
      match HeaderCodec.Update(reg, items, content, [("STATUS", s)])
      case Failure(e) => Failure(HeaderFailed(e))
      case Success(updated) => WriteBack(es, docs, id, updated)
  }

  /** A rewrite whose artifact does not load fails with the load's error. */
  lemma LoadFailedWrite(reg: Registry, items: seq<HeaderCodec.HeaderItem>, rootSet: bool, es: seq<Entry>, docs: seq<MdFile>, id: string, s: string)
    requires LoadFrom(rootSet, es, docs, id).Failure?
    ensures HeaderWrite(reg, items, rootSet, es, docs, id, s) == Failure(LoadFailed(LoadFrom(rootSet, es, docs, id).error))
  {
  }

  /** A rewrite whose header update raises fails with that error. */
  lemma HeaderFailedWrite(reg: Registry, items: seq<HeaderCodec.HeaderItem>, rootSet: bool, es: seq<Entry>, docs: seq<MdFile>, id: string, s: string)
    requires LoadFrom(rootSet, es, docs, id).Success?
    requires HeaderCodec.Update(reg, items, LoadFrom(rootSet, es, docs, id).value.1, [("STATUS", s)]).Failure?
    ensures HeaderWrite(reg, items, rootSet, es, docs, id, s)
         == Failure(HeaderFailed(HeaderCodec.Update(reg, items, LoadFrom(rootSet, es, docs, id).value.1, [("STATUS", s)]).error))
  {
  }

  /** A rewrite whose header update succeeds writes the updated text back. */
  lemma HeaderUpdatedWrite(reg: Registry, items: seq<HeaderCodec.HeaderItem>, rootSet: bool, es: seq<Entry>, docs: seq<MdFile>, id: string, s: string)
    requires LoadFrom(rootSet, es, docs, id).Success?
    requires HeaderCodec.Update(reg, items, LoadFrom(rootSet, es, docs, id).value.1, [("STATUS", s)]).Success?
    ensures HeaderWrite(reg, items, rootSet, es, docs, id, s)
         == WriteBack(es, docs, id, HeaderCodec.Update(reg, items, LoadFrom(rootSet, es, docs, id).value.1, [("STATUS", s)]).value)
  {
  }

  /**
   * What the rewrite writes is the loaded text with its `STATUS` header
   * set, and it fails exactly when loading, the header update or the write
   * fails. Without the document root configured the load fails.
   */
  lemma HeaderWriteText(reg: Registry, items: seq<HeaderCodec.HeaderItem>, rootSet: bool, es: seq<Entry>, docs: seq<MdFile>, id: string, s: string)
    ensures var h := HeaderWrite(reg, items, rootSet, es, docs, id, s);
      && (!rootSet ==> h.Failure? && h.error.LoadFailed?)
      && (rootSet ==> (Load(es, docs, id).Failure? <==> h.Failure? && h.error.LoadFailed?))
      && (h.Success? ==>
            rootSet && Load(es, docs, id).Success?
            && HeaderCodec.Update(reg, items, Load(es, docs, id).value, [("STATUS", s)]) == Success(h.value.text))
      && (h.Failure? && h.error.HeaderFailed? ==>
            rootSet && Load(es, docs, id).Success?
            && HeaderCodec.Update(reg, items, Load(es, docs, id).value, [("STATUS", s)]) == Failure(h.error.headerError))
  {
  }

  /**
   * `update_artifact_status`. `es` is the index before the call and `after`
   * the index once the status has been set in it; `o` stands for the
   * outcomes of the steps this model does not carry out itself: whether the
   * document root is configured, the file move, and the content and
   * covering-test steps of the REQ, TASK, UACC and SACC handlers.
   */
  function StatusUpdateOf(reg: Registry, items: seq<HeaderCodec.HeaderItem>, es: seq<Entry>, docs: seq<MdFile>,
                          identifier: string, status: string, o: Handlers.Outcomes, after: seq<Entry>): (r: StatusUpdate)
    ensures r.NoArtifact? <==> Resolve(es, identifier).None?
    ensures r.StatusSet? ==>
              r.status == Upper(status) && Listed(es, r.artifactId)
              && TypeFromId(reg, r.artifactId).Success?
              && r.status in ValidStatusesForType(reg, TypeFromId(reg, r.artifactId).value).value
    ensures r.StatusSet? ==> (r.success <==> r.error.None?)
  {
    var pre := Prechecked(reg, es, identifier, status);
    if !pre.StatusSet? then pre
    else
      var id, s := pre.artifactId, pre.status;
      match Handlers.HandleStatusUpdate(reg, id, s, HandledOutcomes(reg, items, es, after, docs, id, s, o))
      case Some(report) => WithReport(pre, report)
      case None =>
        // the index update always finds the entry: `Resolve` has just found it there
        WithFallback(pre, ContentNote(HeaderWrite(reg, items, o.rootSet, after, docs, id, s)))
  }

  /** The result once the handler has reported: its message noted, its failure the error. */
  function WithReport(pre: StatusUpdate, report: Handlers.Report): (r: StatusUpdate)
    requires pre.StatusSet?
    ensures r.StatusSet? && r.success == report.success && |r.updates| == 1
  {
    var msg := Handlers.MessageOr(report.message, "Updated " + pre.artifactId + " to " + pre.status);
    pre.(success := report.success, updates := [msg], error := if report.success then None else Some(msg))
  }

  /** The result of the fallback: the index update noted, then the header rewrite's note. */
  function WithFallback(pre: StatusUpdate, note: string): (r: StatusUpdate)
    requires pre.StatusSet?
    ensures r.StatusSet? && r.success == pre.success && |r.updates| == 2 && r.updates[1] == note
  {
    pre.(updates := ["Updated " + pre.artifactId + " status to " + pre.status + " in index (no handler for type)", note])
  }

  // ------------------------------------------------------------ the handlers' own writes

  /** The TASKPRD and PRD handlers rewrite the artifact's file themselves. */
  predicate RewritesFile(id: string)
  {
    Handlers.HandlerForId(id) == Some(Handlers.TaskPrd) || Handlers.HandlerForId(id) == Some(Handlers.Prd)
  }

  /** The text the `update_status_content` of PRD, or else of TASKPRD, writes for the loaded `content`. */
  function StatusContent(reg: Registry, items: seq<HeaderCodec.HeaderItem>, id: string, content: string, s: string): string
  {
    if Handlers.HandlerForId(id) == Some(Handlers.Prd) then HandlerHeaders.PrdStatusContent(reg, items, content, s)
    else HandlerHeaders.TaskPrdStatusContent(reg, items, content, s)
  }

  /**
   * The write of the TASKPRD and PRD `update_status_content`: the artifact
   * loaded, its header lines set, and the new text written over the whole
   * file `get_artifact` read it from. For an artifact that is a section that
   * is the whole file holding the section.
   */
  function ContentRewrite(reg: Registry, items: seq<HeaderCodec.HeaderItem>, rootSet: bool, es: seq<Entry>,
                          docs: seq<MdFile>, id: string, s: string): (r: Result<Write, ManagerError>)
    ensures r.Success? <==> rootSet && Load(es, docs, id).Success?
    ensures r.Success? ==> Fits(docs, r.value) && r.value.WholeFile?
                           && r.value.text == StatusContent(reg, items, id, Load(es, docs, id).value, s)
    ensures r.Failure? ==> LoadFrom(rootSet, es, docs, id) == Failure(r.error)
  {
    match LoadFrom(rootSet, es, docs, id)
    case Failure(e) => Failure(e)
    case Success((k, content)) => Success(WholeFile(k, StatusContent(reg, items, id, content, s)))
  }

  /**
   * For a file artifact the rewrite is the overwrite of the artifact's own
   * file, and `get_artifact` then loads the rewritten text.
   */
  lemma ContentRewriteLoads(reg: Registry, items: seq<HeaderCodec.HeaderItem>, es: seq<Entry>, docs: seq<MdFile>,
                            id: string, s: string)
    requires Resolve(es, id) == Some(id) && Find(es, ById(id)).Some? && Find(es, ById(id)).value.isFile
    requires ContentRewrite(reg, items, true, es, docs, id, s).Success?
    ensures var text := StatusContent(reg, items, id, Load(es, docs, id).value, s);
      var w := ContentRewrite(reg, items, true, es, docs, id, s).value;
      FileWrite(docs, id, text) == Success(w) && Load(es, Apply(docs, w), id) == Success(Newlines(text))
  {
    var text := StatusContent(reg, items, id, Load(es, docs, id).value, s);
    assert FileFor(docs, id).Some?;
    FileWriteLoads(es, docs, id, text);
  }

  /**
   * For an artifact that is a section the rewrite replaces the whole file
   * holding the section with the rewritten section alone.
   */
  lemma ContentRewriteSection(reg: Registry, items: seq<HeaderCodec.HeaderItem>, es: seq<Entry>, docs: seq<MdFile>,
                              id: string, s: string)
    requires Resolve(es, id) == Some(id) && Find(es, ById(id)).Some? && !Find(es, ById(id)).value.isFile
    requires ContentRewrite(reg, items, true, es, docs, id, s).Success?
    ensures Locate(docs, Heading(id)).Some?
    ensures var w := ContentRewrite(reg, items, true, es, docs, id, s).value;
      w.file == Locate(docs, Heading(id)).value.0
      && Apply(docs, w)[w.file].content == Newlines(StatusContent(reg, items, id, NonFileArtifact(docs, id).value, s))
  {
  }

  /** The step the TASKPRD or PRD `update_status_content` answers for its write; the file's name stands for its path. */
  function ContentStep(id: string, s: string, docs: seq<MdFile>, w: Result<Write, ManagerError>): (r: Handlers.Step)
    requires w.Success? ==> Fits(docs, w.value)
    ensures r.success == w.Success? && r.message.Some?
  {
    var name := if Handlers.HandlerForId(id) == Some(Handlers.Prd) then "PRD" else "TASKPRD";
    match w
    case Success(write) => Handlers.Step(true, Some("Updated " + name + " " + id + " status to " + s), Some(docs[write.file].name))
    case Failure(e) => Handlers.Step(false, Some("Failed to retrieve " + name + " " + id + ": " + LoadMessage(e)), None)
  }

  /**
   * The outcomes a handled update meets: the index update looks the ID up
   * in the index as it was, and the TASKPRD and PRD content steps rewrite
   * the artifact as loaded after the index update. The other outcomes come
   * in through `o`.
   */
  function HandledOutcomes(reg: Registry, items: seq<HeaderCodec.HeaderItem>, es: seq<Entry>, after: seq<Entry>,
                           docs: seq<MdFile>, id: string, s: string, o: Handlers.Outcomes): Handlers.Outcomes
  {
    var looked := o.(indexFound := FirstMatch(es, ById(id)).Some?);
    if RewritesFile(id) then looked.(content := ContentStep(id, s, docs, ContentRewrite(reg, items, o.rootSet, after, docs, id, s)))
    else looked
  }

  /**
   * The handler's index update always finds the entry, since `Resolve` has
   * just found the ID in the index: it fails only without the document root.
   */
  lemma HandledIndexFound(reg: Registry, items: seq<HeaderCodec.HeaderItem>, es: seq<Entry>, after: seq<Entry>,
                          docs: seq<MdFile>, identifier: string, status: string, o: Handlers.Outcomes)
    requires Prechecked(reg, es, identifier, status).StatusSet?
    ensures var pre := Prechecked(reg, es, identifier, status);
      var index := HandledOutcomes(reg, items, es, after, docs, pre.artifactId, pre.status, o);
      index.indexFound && (Handlers.IndexStep(index.rootSet, index.indexFound, pre.artifactId, pre.status).success <==> o.rootSet)
  {
    ResolvedIsListed(es, identifier);
    ListedFound(es, Prechecked(reg, es, identifier, status).artifactId);
  }

  // ------------------------------------------------------------ what the status update writes

  /** The update sets the status in the index: the fallback always, a handler when the document root is configured. */
  predicate SetsIndexStatus(reg: Registry, es: seq<Entry>, identifier: string, status: string, o: Handlers.Outcomes)
  {
    var pre := Prechecked(reg, es, identifier, status);
    pre.StatusSet? && (Handlers.HandlerForId(pre.artifactId).None? || o.rootSet)
  }

  /** Every file write of the update is in this model: there is no handler, or it is the TASKPRD or PRD one. */
  predicate WritesModelled(reg: Registry, es: seq<Entry>, identifier: string, status: string)
  {
    var pre := Prechecked(reg, es, identifier, status);
    pre.StatusSet? ==> Handlers.HandlerForId(pre.artifactId).None? || RewritesFile(pre.artifactId)
  }

  /**
   * The file write `update_artifact_status` makes: the fallback's header
   * rewrite, or the TASKPRD or PRD handler's rewrite of the artifact's file.
   */
  function StatusWrite(reg: Registry, items: seq<HeaderCodec.HeaderItem>, es: seq<Entry>, docs: seq<MdFile>,
                       identifier: string, status: string, o: Handlers.Outcomes, after: seq<Entry>): (r: Option<Write>)
    ensures r.Some? ==> Prechecked(reg, es, identifier, status).StatusSet? && Fits(docs, r.value)
    ensures r.Some? && !FallsBack(reg, es, identifier, status) ==>
      RewritesFile(Prechecked(reg, es, identifier, status).artifactId) && r.value.WholeFile?
  {
    var pre := Prechecked(reg, es, identifier, status);
    if !pre.StatusSet? then None
    else if FallsBack(reg, es, identifier, status) then
      match HeaderWrite(reg, items, o.rootSet, after, docs, pre.artifactId, pre.status)
      case Success(w) => Some(w)
      case Failure(_) => None
    else if RewritesFile(pre.artifactId) then
      match ContentRewrite(reg, items, o.rootSet, after, docs, pre.artifactId, pre.status)
      case Success(w) => Some(w)
      case Failure(_) => None
    else None
  }

  /** An update that does not pass the prechecks answers with them and writes nothing. */
  lemma UnsetOutcome(reg: Registry, items: seq<HeaderCodec.HeaderItem>, es: seq<Entry>, docs: seq<MdFile>,
                     identifier: string, status: string, o: Handlers.Outcomes, after: seq<Entry>)
    requires !Prechecked(reg, es, identifier, status).StatusSet?
    ensures StatusUpdateOf(reg, items, es, docs, identifier, status, o, after) == Prechecked(reg, es, identifier, status)
    ensures StatusWrite(reg, items, es, docs, identifier, status, o, after).None?
    ensures !FallsBack(reg, es, identifier, status) && !SetsIndexStatus(reg, es, identifier, status, o)
  {
  }

  /**
   * An update a handler takes answers with the handler's report over the
   * outcomes it meets, and writes the artifact's file for TASKPRD and PRD.
   */
  lemma HandledOutcome(reg: Registry, items: seq<HeaderCodec.HeaderItem>, es: seq<Entry>, docs: seq<MdFile>,
                       identifier: string, status: string, o: Handlers.Outcomes, after: seq<Entry>, pre: StatusUpdate)
    requires pre == Prechecked(reg, es, identifier, status) && pre.StatusSet?
    requires Handlers.HandlerForId(pre.artifactId).Some?
    ensures !FallsBack(reg, es, identifier, status)
    ensures StatusUpdateOf(reg, items, es, docs, identifier, status, o, after)
         == WithReport(pre, Handlers.HandleStatusUpdate(reg, pre.artifactId, pre.status,
                                                        HandledOutcomes(reg, items, es, after, docs, pre.artifactId, pre.status, o)).value)
    ensures StatusWrite(reg, items, es, docs, identifier, status, o, after)
         == if !RewritesFile(pre.artifactId) then None
            else match ContentRewrite(reg, items, o.rootSet, after, docs, pre.artifactId, pre.status)
                 case Success(w) => Some(w)
                 case Failure(_) => None
  {
  }

  /** An update without a handler answers with the fallback and writes the header rewrite. */
  lemma FallbackOutcome(reg: Registry, items: seq<HeaderCodec.HeaderItem>, es: seq<Entry>, docs: seq<MdFile>,
                        identifier: string, status: string, o: Handlers.Outcomes, after: seq<Entry>, pre: StatusUpdate)
    requires pre == Prechecked(reg, es, identifier, status) && pre.StatusSet?
    requires Handlers.HandlerForId(pre.artifactId).None?
    ensures FallsBack(reg, es, identifier, status)
    ensures StatusUpdateOf(reg, items, es, docs, identifier, status, o, after)
         == WithFallback(pre, ContentNote(HeaderWrite(reg, items, o.rootSet, after, docs, pre.artifactId, pre.status)))
    ensures StatusWrite(reg, items, es, docs, identifier, status, o, after)
         == match HeaderWrite(reg, items, o.rootSet, after, docs, pre.artifactId, pre.status)
            case Success(w) => Some(w)
            case Failure(_) => None
  {
  }

  /**
   * Without a handler the status update always succeeds once the status is
   * valid: the resolved ID is always in the index, and a failed header
   * rewrite only adds a warning.
   */
  lemma FallbackSucceeds(reg: Registry, items: seq<HeaderCodec.HeaderItem>, es: seq<Entry>, docs: seq<MdFile>,
                         identifier: string, status: string, o: Handlers.Outcomes, after: seq<Entry>)
    requires FallsBack(reg, es, identifier, status)
    ensures var r := StatusUpdateOf(reg, items, es, docs, identifier, status, o, after);
      r.StatusSet? && r.success && |r.updates| == 2
      && (StatusWrite(reg, items, es, docs, identifier, status, o, after).Some? <==>
          r.updates[1] == ContentUpdated)
  {
    var pre := Prechecked(reg, es, identifier, status);
    var h := HeaderWrite(reg, items, o.rootSet, after, docs, pre.artifactId, pre.status);
    if h.Failure? {
      FailureNoteWarns(h.error);
    }
  }

  /**
   * With a handler the handler's report decides: a failure's error is the
   * note, and the update succeeds only if the handler's content step did,
   * which for TASKPRD and PRD means the artifact's file was rewritten.
   */
  lemma HandledNeedsContent(reg: Registry, items: seq<HeaderCodec.HeaderItem>, es: seq<Entry>, docs: seq<MdFile>,
                            identifier: string, status: string, o: Handlers.Outcomes, after: seq<Entry>)
    requires Prechecked(reg, es, identifier, status).StatusSet?
    requires !FallsBack(reg, es, identifier, status)
    ensures var r := StatusUpdateOf(reg, items, es, docs, identifier, status, o, after);
      var id := Prechecked(reg, es, identifier, status).artifactId;
      r.StatusSet? && |r.updates| == 1 && (!r.success ==> r.error == Some(r.updates[0]))
      && (r.success && !RewritesFile(id) ==> o.content.success)
      && (r.success && RewritesFile(id) ==> StatusWrite(reg, items, es, docs, identifier, status, o, after).Some?)
  {
    var pre := Prechecked(reg, es, identifier, status);
    HandledOutcome(reg, items, es, docs, identifier, status, o, after, pre);
  }

  /**
   * A TASKPRD or PRD update to a status that moves no file succeeds exactly
   * when the handler rewrites the artifact's file.
   */
  lemma RewriteDecides(reg: Registry, items: seq<HeaderCodec.HeaderItem>, es: seq<Entry>, docs: seq<MdFile>,
                       identifier: string, status: string, o: Handlers.Outcomes, after: seq<Entry>)
    requires Prechecked(reg, es, identifier, status).StatusSet?
    requires RewritesFile(Prechecked(reg, es, identifier, status).artifactId)
    requires var pre := Prechecked(reg, es, identifier, status);
      pre.status !in Handlers.MoveStatuses(reg, TypeFromId(reg, pre.artifactId).value)
    ensures StatusUpdateOf(reg, items, es, docs, identifier, status, o, after).success
        <==> StatusWrite(reg, items, es, docs, identifier, status, o, after).Some?
  {
    var pre := Prechecked(reg, es, identifier, status);
    var k := Handlers.HandlerForId(pre.artifactId).value;
    var outcomes := HandledOutcomes(reg, items, es, after, docs, pre.artifactId, pre.status, o);
    HandledOutcome(reg, items, es, docs, identifier, status, o, after, pre);
    Handlers.NoMoveStatus(reg, k, pre.artifactId, pre.status, outcomes);
  }

  class ArtifactManager {
    const reg: Registry
    const index: Ledger
    var docs: seq<MdFile>

    predicate Valid()
      reads this, index
    {
      index.Valid() && ReadAsText(docs)
    }

    /** A manager over the repository's files as found on disk. */
    constructor (reg: Registry, index: Ledger, files: seq<MdFile>)
      requires index.Valid()
      ensures Valid() && this.reg == reg && this.index == index
      ensures |docs| == |files|
      ensures forall k :: 0 <= k < |files| ==> docs[k] == References.MdFile(files[k].name, Newlines(files[k].content))
    {
      this.reg := reg;
      this.index := index;
      docs := seq(|files|, k requires 0 <= k < |files| => References.MdFile(files[k].name, Newlines(files[k].content)));
    }

    method ResolveArtifactIdentifier(identifier: string) returns (r: Option<string>)
      ensures r == Resolve(index.Entries(), identifier)
    {
      var all := index.GetAllArtifacts();
      r := ResolveIn(all, identifier);
    }

    /** `get_artifact_id`: normalise the type, then allocate in the index. */
    method GetArtifactId(t: string, name: Option<string>, isFile: bool, parent: Option<string>) returns (r: Result<string, ManagerError>)
      requires Valid()
      modifies index
      ensures Valid()
      ensures r == NewId(reg, old(index.Entries()), t)
      ensures r.Failure? ==> index.Entries() == old(index.Entries())
      ensures r.Success? && CleanEntry(NewEntry(old(index.Entries()), r.value, name, isFile, parent)) ==>
        index.Entries() == old(index.Entries()) + [ReadBack(NewEntry(old(index.Entries()), r.value, name, isFile, parent))]
    {
      var nt := ValidateAndNormalizeType(reg, t);
      if nt.Failure? {
        return Failure(BadType(nt.error));
      }
      var next := index.GetNextDocId();
      var id := nt.value + "-" + NatToString(next);
      var added := index.AddArtifact(id, name, None, isFile, parent);
      if added.Failure? {
        return Failure(Refused(added.error));
      }
      return Success(id);
    }

    /** `_get_non_file_artifact` */
    method GetNonFileArtifact(id: string) returns (r: Result<string, ManagerError>)
      ensures r == NonFileArtifact(docs, id)
    {
      var found := LocateSection(docs, Heading(id));
      if found.None? {
        return Failure(NoSection(id));
      }
      var (k, s, e) := found.value;
      r := Success(Sections.SectionText(LinesOf(docs[k]), s, e));
    }

    /** The two walks for the file of a file artifact. */
    method FindFile(id: string) returns (r: Option<nat>)
      ensures r == FileFor(docs, id)
    {
      var k := 0;
      while k < |docs|
        invariant k <= |docs|
        invariant FirstNamed(docs, id, false, 0) == FirstNamed(docs, id, false, k)
      {
        if Named(docs[k].name, id, false) {
          return Some(k);
        }
        k := k + 1;
      }
      k := 0;
      while k < |docs|
        invariant k <= |docs|
        invariant FirstNamed(docs, id, true, 0) == FirstNamed(docs, id, true, k)
      {
        if docs[k].name == id + ".md" {
          return Some(k);
        }
        k := k + 1;
      }
      return None;
    }

    /** `_update_file_artifact` */
    method UpdateFileArtifact(id: string, content: string) returns (r: Result<Write, ManagerError>)
      requires Valid()
      modifies this
      ensures Valid()
      ensures r == FileWrite(old(docs), id, content)
      ensures docs == if r.Success? then Apply(old(docs), r.value) else old(docs)
    {
      var found := FindFile(id);
      if found.None? {
        return Failure(NoFile(id));
      }
      var k := found.value;
      var f := References.MdFile(docs[k].name, Newlines(content));
      ReadAsTextUpdate(docs, k, f);
      docs := docs[k := f];
      return Success(WholeFile(k, content));
    }

    /** `_update_non_file_artifact` */
    method UpdateNonFileArtifact(id: string, content: string) returns (r: Result<Write, ManagerError>)
      requires Valid()
      modifies this
      ensures Valid()
      ensures r == SectionWrite(old(docs), id, content)
      ensures docs == if r.Success? then Apply(old(docs), r.value) else old(docs)
    {
      var files := docs;
      var found := LocateSection(files, Heading(id));
      if found.None? {
        return Failure(NoSection(id));
      }
      var k, s, e := found.value.0, found.value.1, found.value.2;
      SectionWriteAt(files, id, content, k, s, e);
      var f := SplicedFile(files[k], s, e, content);
      ReadAsTextUpdate(files, k, f);
      docs := files[k := f];
      return Success(Section(k, s, e, content));
    }

    /** `update_artifact` */
    method UpdateArtifact(identifier: string, content: string) returns (r: Result<Write, ManagerError>)
      requires Valid()
      modifies this
      ensures Valid()
      ensures r == UpdatePlan(reg, index.Entries(), old(docs), identifier, content)
      ensures docs == if r.Success? then Apply(old(docs), r.value) else old(docs)
    {
      var id := ResolveArtifactIdentifier(identifier);
      if id.None? {
        return Failure(NotFound(identifier));
      }
      var info := index.GetArtifactById(id.value);
      ResolvedIsListed(index.Entries(), identifier);
      var entry := info.value;
      var t := TypeFromId(reg, id.value);
      if t.Failure? {
        UpdateBadType(reg, index.Entries(), docs, identifier, content, id.value, t.error);
        return Failure(BadType(t.error));
      }
      var allowed := CanToolUpdate(reg, t.value);
      if allowed != Success(true) {
        UpdateNeedsPermission(reg, index.Entries(), docs, identifier, content, id.value, t.value);
        return Failure(UpdateNotAllowed(t.value));
      }
      UpdatePlanWrites(reg, index.Entries(), docs, identifier, content, id.value, entry, t.value);
      r := WriteListed(id.value, entry, content);
    }

    /** The write `update_artifact` chooses for an allowed update: the file, or the section. */
    method WriteListed(id: string, entry: Entry, content: string) returns (r: Result<Write, ManagerError>)
      requires Valid()
      modifies this
      ensures Valid()
      ensures r == if entry.isFile then FileWrite(old(docs), id, content)
                   else SectionWrite(old(docs), id, Prepared(id, entry.name, content))
      ensures docs == if r.Success? then Apply(old(docs), r.value) else old(docs)
    {
      if entry.isFile {
        r := UpdateFileArtifact(id, content);
      } else {
        var prepared := PrepareSection(id, entry.name, content);
        r := UpdateNonFileArtifact(id, prepared);
      }
    }

    /** `search_artifacts_by_type` */
    method SearchArtifactsByType(t: string, status: Option<string>, parent: Option<string>) returns (r: Result<seq<Entry>, ManagerError>)
      ensures r == SearchByType(reg, index.Entries(), t, status, parent)
    {
      var u := Upper(t);
      if !IsValidType(reg, u) {
        return Failure(BadType(UnknownType(u)));
      }
      var values := StatusValues(status);
      var all := index.GetAllArtifacts();
      var found := CollectMatching(all, u, values, parent);
      if found == [] {
        return Failure(NoMatches(u));
      }
      return Success(found);
    }

    /**
     * One of the two allocation loops of `_process_provisional_ids` over
     * `toks`: main artifacts when `isFile`, nested ones otherwise. `o` is
     * the progress the loop starts from; while every entry added reads
     * back, the loop's renaming and the index follow `AllocateAll`.
     */
    method AllocateEach(original: string, toks: seq<string>, isFile: bool, acc0: Renaming, ghost o: Progress)
      returns (acc: Renaming)
      requires Valid() && Naming.KeysNonEmpty(acc0.mapping)
      requires o.clean ==> index.Entries() == o.entries && acc0 == o.found
      modifies index
      ensures Valid() && Naming.KeysNonEmpty(acc.mapping)
      ensures AllocateAll(reg, original, o, toks, isFile).clean ==>
        index.Entries() == AllocateAll(reg, original, o, toks, isFile).entries
        && acc == AllocateAll(reg, original, o, toks, isFile).found
    {
      acc := acc0;
      ghost var done := o;
      var i := 0;
      while i < |toks|
        invariant i <= |toks| && Valid() && Naming.KeysNonEmpty(acc.mapping)
        invariant AllocateAll(reg, original, o, toks, isFile) == AllocateAll(reg, original, done, toks[i..], isFile)
        invariant done.clean ==> index.Entries() == done.entries && acc == done.found
      {
        acc := AllocateOne(original, toks[i], isFile, acc, done);
        assert toks[i..][1..] == toks[i + 1..];
        done := Allocate(reg, original, done, toks[i], isFile);
        i := i + 1;
      }
    }

    /** One token of the loop: `Allocate`, while every added entry reads back. */
    method AllocateOne(original: string, tok: string, isFile: bool, acc0: Renaming, ghost o: Progress)
      returns (acc: Renaming)
      requires Valid() && Naming.KeysNonEmpty(acc0.mapping)
      requires o.clean ==> index.Entries() == o.entries && acc0 == o.found
      modifies index
      ensures Valid() && Naming.KeysNonEmpty(acc.mapping)
      ensures Allocate(reg, original, o, tok, isFile).clean ==>
        index.Entries() == Allocate(reg, original, o, tok, isFile).entries
        && acc == Allocate(reg, original, o, tok, isFile).found
    {
      acc := acc0;
      ghost var before := index.Entries();
      var parsed := ParseProvisionalId(reg, tok);
      if parsed.Success? {
        var name := Naming.ExtractArtifactName(original, tok);
        var id := GetArtifactId(parsed.value.0, name, isFile, if isFile then None else acc0.parent);
        if id.Success? {
          AllocateStep(reg, original, o, tok, isFile, id.value, acc0, before, index.Entries());
          KeysSnocNonEmpty(acc0.mapping, tok, id.value);
          acc := Extended(acc0, tok, id.value, name, isFile);
        } else if o.clean {
          AllocateKept(reg, original, o, tok, isFile);
        } else {
          AllocateTainted(reg, original, o, tok, isFile);
        }
      } else {
        AllocateKept(reg, original, o, tok, isFile);
      }
    }

    /**
     * `_process_provisional_ids`: the new-ID mapping, the text with the
     * provisional IDs replaced, and the names of the new artifacts.
     */
    method ProcessProvisionalIds(content: string, parent: Option<string>)
      returns (mapping: seq<(string, string)>, updated: string, names: seq<(string, string)>)
      requires Valid()
      modifies index
      ensures Valid() && Naming.KeysNonEmpty(mapping)
      ensures ScanTokens(reg.order, content, 0) == {} ==>
        mapping == [] && updated == content && names == [] && index.Entries() == old(index.Entries())
      ensures ProvisionalRun(reg, old(index.Entries()), content, parent).clean ==>
        && index.Entries() == ProvisionalRun(reg, old(index.Entries()), content, parent).entries
        && mapping == ProvisionalRun(reg, old(index.Entries()), content, parent).found.mapping
        && updated == ProvisionalRun(reg, old(index.Entries()), content, parent).found.content
        && names == ProvisionalRun(reg, old(index.Entries()), content, parent).found.names
    {
      var found := FindProvisionalIds(reg, content);
      if found == {} {
        ProvisionalNothingFound(reg, index.Entries(), content, parent);
        return [], content, [];
      }
      var q := Ordering.Sort(found);
      var mains, nested := SplitMains(reg, content, q);
      ghost var o0 := Progress(index.Entries(), Renaming([], content, [], parent), true);
      var acc := AllocateEach(content, mains, true, Renaming([], content, [], parent), o0);
      acc := AllocateEach(content, nested, false, acc, AllocateAll(reg, content, o0, mains, true));
      return acc.mapping, acc.content, acc.names;
    }

    /** One token of the filtered loop: `AllocateStrict`, while every added entry reads back. */
    method AllocateStrictOne(original: string, tok: string, acc0: Renaming, ghost o: Progress)
      returns (r: Result<Renaming, ManagerError>)
      requires Valid()
      requires o.clean ==> index.Entries() == o.entries && acc0 == o.found
      modifies index
      ensures Valid()
      ensures o.clean ==> (r.Failure? <==> AllocateStrict(reg, original, o, tok).Failure?)
      ensures o.clean && r.Failure? ==> r.error == AllocateStrict(reg, original, o, tok).error && index.Entries() == o.entries
      ensures o.clean && r.Success? && AllocateStrict(reg, original, o, tok).value.clean ==>
        index.Entries() == AllocateStrict(reg, original, o, tok).value.entries
        && r.value == AllocateStrict(reg, original, o, tok).value.found
    {
      var parsed := ParseProvisionalId(reg, tok);
      if parsed.Failure? {
        assert AllocateStrict(reg, original, o, tok) == Failure(BadType(parsed.error));
        return Failure(BadType(parsed.error));
      }
      var name := Naming.ExtractArtifactName(original, tok);
      var id := GetArtifactId(parsed.value.0, name, false, acc0.parent);
      if id.Failure? {
        assert o.clean ==> AllocateStrict(reg, original, o, tok) == Failure(id.error);
        return Failure(id.error);
      }
      ParsedNonEmpty(reg, tok);
      var replaced := Naming.ReplaceWord(acc0.content, tok, id.value);
      var updated := StepsRenamed(replaced, tok, id.value);
      r := Success(Renaming(acc0.mapping + [(tok, id.value)], updated,
                            if name.Some? && name.value != [] then acc0.names + [(id.value, name.value)] else acc0.names,
                            acc0.parent));
      if o.clean {
        AllocateStrictGranted(reg, original, o, tok, id.value);
      }
    }

    /**
     * `_process_provisional_ids_filtered`: as `_process_provisional_ids`,
     * but only for the provisional IDs of the allowed types, all nested
     * under the given parent, step references renamed too, and the first
     * error ends the processing.
     */
    method ProcessProvisionalIdsFiltered(content: string, allowed: Option<seq<string>>, parent: Option<string>)
      returns (r: Result<(seq<(string, string)>, string, seq<(string, string)>), ManagerError>)
      requires Valid()
      modifies index
      ensures Valid()
      ensures FilterTypes(reg, ScanTokens(reg.order, content, 0), allowed) == {} ==>
        r == Success(([], content, [])) && index.Entries() == old(index.Entries())
      ensures FilteredRun(reg, old(index.Entries()), content, allowed, parent).progress.clean ==>
        && index.Entries() == FilteredRun(reg, old(index.Entries()), content, allowed, parent).progress.entries
        && (FilteredRun(reg, old(index.Entries()), content, allowed, parent).error.Some? ==>
              r == Failure(FilteredRun(reg, old(index.Entries()), content, allowed, parent).error.value))
        && (FilteredRun(reg, old(index.Entries()), content, allowed, parent).error.None? ==>
              r == Success((FilteredRun(reg, old(index.Entries()), content, allowed, parent).progress.found.mapping,
                            FilteredRun(reg, old(index.Entries()), content, allowed, parent).progress.found.content,
                            FilteredRun(reg, old(index.Entries()), content, allowed, parent).progress.found.names)))
    {
      var found := FindProvisionalIds(reg, content);
      var kept := FilterAllowedTypes(reg, found, allowed);
      if kept == {} {
        FilteredNothingFound(reg, index.Entries(), content, allowed, parent);
        return Success(([], content, []));
      }
      var q := Ordering.Sort(kept);
      ghost var o0 := Progress(index.Entries(), Renaming([], content, [], parent), true);
      ghost var done := o0;
      assert FilteredRun(reg, o0.entries, content, allowed, parent) == AllocateAllStrict(reg, content, o0, q);
      var acc := Renaming([], content, [], parent);
      var i := 0;
      while i < |q|
        invariant i <= |q| && Valid()
        invariant done.clean ==> AllocateAllStrict(reg, content, o0, q) == AllocateAllStrict(reg, content, done, q[i..])
        invariant !done.clean ==> !AllocateAllStrict(reg, content, o0, q).progress.clean
        invariant done.clean ==> index.Entries() == done.entries && acc == done.found
      {
        var step := AllocateStrictOne(content, q[i], acc, done);
        assert q[i..][1..] == q[i + 1..];
        if step.Failure? {
          return Failure(step.error);
        }
        acc := step.value;
        if done.clean {
          done := AllocateStrict(reg, content, done, q[i]).value;
          if !done.clean {
            StrictTainted(reg, content, done, q[i + 1..]);
          }
        }
        i := i + 1;
      }
      return Success((acc.mapping, acc.content, acc.names));
    }

    /**
     * `finalize_provisional_file` on the provisional file `filename` whose
     * text is `content`: its provisional IDs are processed with no parent,
     * then the target name, the final text and the main artifact follow
     * from the mapping.
     */
    method FinalizeProvisionalFile(filename: string, content: string, suffix: Option<string>) returns (r: Finalization)
      requires Valid()
      modifies index
      ensures Valid()
      ensures ScanTokens(reg.order, content, 0) == {} ==> r == NothingToFinalize && index.Entries() == old(index.Entries())
      ensures ProvisionalRun(reg, old(index.Entries()), content, None).clean ==>
        && Naming.KeysNonEmpty(ProvisionalRun(reg, old(index.Entries()), content, None).found.mapping)
        && index.Entries() == ProvisionalRun(reg, old(index.Entries()), content, None).entries
        && r == FinalizationOf(reg, filename, suffix, ProvisionalRun(reg, old(index.Entries()), content, None).found.mapping,
                               ProvisionalRun(reg, old(index.Entries()), content, None).found.content)
    {
      var mapping, updated, names := ProcessProvisionalIds(content, None);
      if mapping == [] {
        return NothingToFinalize;
      }
      var target := Naming.GenerateTargetFilename(filename, mapping, suffix);
      var check := ValidateProvisionalFilename(reg, filename);
      var main: Option<string> := None;
      if check.valid && check.artifactType.value != [] {
        main := Naming.FindMainArtifactId(mapping, check.artifactType.value);
      }
      r := Finalized(target, Naming.FinalContent(updated), mapping, main);
      assert r == FinalizationOf(reg, filename, suffix, mapping, updated);
    }

    /** `get_artifact`, with the document root configured. */
    method GetArtifact(identifier: string) returns (r: Result<string, ManagerError>)
      ensures r == Load(index.Entries(), docs, identifier)
    {
      var loaded := GetArtifactFrom(true, identifier);
      if loaded.Failure? {
        return Failure(loaded.error);
      }
      return Success(loaded.value.1);
    }

    /** `get_artifact` with the file it read, when the document root may not be configured. */
    method GetArtifactFrom(rootSet: bool, identifier: string) returns (r: Result<(nat, string), ManagerError>)
      ensures r == LoadFrom(rootSet, index.Entries(), docs, identifier)
    {
      var id := ResolveArtifactIdentifier(identifier);
      if id.None? {
        return Failure(NotFound(identifier));
      }
      var info := index.GetArtifactById(id.value);
      if info.None? {
        return Failure(Unindexed(id.value));
      }
      if !rootSet {
        return Failure(RootUnset);
      }
      if info.value.isFile {
        var k := FindFile(id.value);
        if k.None? {
          return Failure(NoFile(id.value));
        }
        return Success((k.value, docs[k.value].content));
      }
      var found := LocateSection(docs, Heading(id.value));
      if found.None? {
        return Failure(NoSection(id.value));
      }
      var text := GetNonFileArtifact(id.value);
      return Success((found.value.0, text.value));
    }

    /** The fallback's header rewrite of `update_artifact_status`, with the update it notes. */
    method UpdateStatusHeader(items: seq<HeaderCodec.HeaderItem>, rootSet: bool, id: string, s: string) returns (note: string)
      requires Valid()
      modifies this
      ensures Valid()
      ensures note == ContentNote(HeaderWrite(reg, items, rootSet, index.Entries(), old(docs), id, s))
      ensures HeaderWrite(reg, items, rootSet, index.Entries(), old(docs), id, s).Success? ==>
                docs == Apply(old(docs), HeaderWrite(reg, items, rootSet, index.Entries(), old(docs), id, s).value)
      ensures HeaderWrite(reg, items, rootSet, index.Entries(), old(docs), id, s).Failure? ==> docs == old(docs)
    {
      ghost var es, files := index.Entries(), docs;
      var info := index.GetArtifactById(id);
      var loaded := GetArtifactFrom(rootSet, id);
      if loaded.Failure? {
        LoadFailedWrite(reg, items, rootSet, es, files, id, s);
        return FailureNote(LoadFailed(loaded.error));
      }
      var updated := HeaderCodec.UpdateManagedHeader(reg, items, loaded.value.1, [("STATUS", s)]);
      if updated.Failure? {
        HeaderFailedWrite(reg, items, rootSet, es, files, id, s);
        return FailureNote(HeaderFailed(updated.error));
      }
      HeaderUpdatedWrite(reg, items, rootSet, es, files, id, s);
      note := WriteBackHeader(id, info, updated.value);
    }

    /** The write-back step of the header rewrite, for the entry `info` of `id`. */
    method WriteBackHeader(id: string, info: Option<Entry>, updated: string) returns (note: string)
      requires Valid() && info == Find(index.Entries(), ById(id))
      modifies this
      ensures Valid()
      ensures note == ContentNote(WriteBack(index.Entries(), old(docs), id, updated))
      ensures docs == match WriteBack(index.Entries(), old(docs), id, updated)
                      case Success(w) => Apply(old(docs), w)
                      case Failure(_) => old(docs)
    {
      var w;
      if info.Some? && info.value.isFile {
        w := UpdateFileArtifact(id, updated);
      } else {
        w := UpdateNonFileArtifact(id, updated);
      }
      if w.Failure? {
        return FailureNote(WriteFailed(w.error));
      }
      return ContentUpdated;
    }

    /** The resolution and validation steps of `update_artifact_status`. */
    method Precheck(identifier: string, status: string) returns (r: StatusUpdate)
      ensures r == Prechecked(reg, index.Entries(), identifier, status)
    {
      var id := ResolveArtifactIdentifier(identifier);
      if id.None? {
        return NoArtifact(identifier);
      }
      var t := TypeFromId(reg, id.value);
      if t.Failure? {
        return TypeRaised(t.error);
      }
      var s := ValidateAndNormalizeStatus(reg, status, t.value);
      if s.Failure? {
        UpperOfUpperWord(t.value);
        var valid := ValidStatusesForType(reg, t.value);
        return StatusRefused(s.error, valid.value, t.value);
      }
      r := StatusSet(true, id.value, s.value, [], None);
    }

    /**
     * `update_artifact_status`. A type with a handler gets the handler's
     * update; any other type has its status set in the index and then in the
     * artifact's `STATUS` header. The outcomes of the steps this model does
     * not carry out come in as `o`.
     */
    method UpdateArtifactStatus(identifier: string, status: string, items: seq<HeaderCodec.HeaderItem>, o: Handlers.Outcomes)
      returns (r: StatusUpdate)
      requires Valid()
      modifies this, index
      ensures Valid()
      ensures r == StatusUpdateOf(reg, items, old(index.Entries()), old(docs), identifier, status, o, index.Entries())
      ensures WritesModelled(reg, old(index.Entries()), identifier, status) ==>
        docs == match StatusWrite(reg, items, old(index.Entries()), old(docs), identifier, status, o, index.Entries())
                case Some(w) => Apply(old(docs), w)
                case None => old(docs)
      ensures !SetsIndexStatus(reg, old(index.Entries()), identifier, status, o) ==> index.text == old(index.text)
      ensures SetsIndexStatus(reg, old(index.Entries()), identifier, status, o) ==>
        match FirstMatch(old(index.Entries()), ById(r.artifactId))
        case None => false
        case Some(k) =>
          var revised := Revise(old(index.Entries())[k], None, Some(r.status), None, None);
          CleanEntry(revised) ==> index.Entries() == old(index.Entries())[k := ReadBack(revised)]
    {
      ghost var es, files := index.Entries(), docs;
      var pre := Precheck(identifier, status);
      if !pre.StatusSet? {
        UnsetOutcome(reg, items, es, files, identifier, status, o, es);
        return pre;
      }
      ResolvedIsListed(es, identifier);
      ListedFound(es, pre.artifactId);
      if Handlers.HandlerForId(pre.artifactId).Some? {
        r := Handle(pre, items, o);
        HandledOutcome(reg, items, es, files, identifier, status, o, index.Entries(), pre);
      } else {
        r := Fallback(pre, items, o.rootSet);
        FallbackOutcome(reg, items, es, files, identifier, status, o, index.Entries(), pre);
      }
    }

    /**
     * The handled update: the handler's index update when the document root
     * is configured, then, for TASKPRD and PRD, its rewrite of the file.
     */
    method Handle(pre: StatusUpdate, items: seq<HeaderCodec.HeaderItem>, o: Handlers.Outcomes) returns (r: StatusUpdate)
      requires Valid() && pre.StatusSet? && FirstMatch(index.Entries(), ById(pre.artifactId)).Some?
      requires Handlers.HandlerForId(pre.artifactId).Some?
      modifies this, index
      ensures Valid()
      ensures r == WithReport(pre, Handlers.HandleStatusUpdate(reg, pre.artifactId, pre.status,
                   HandledOutcomes(reg, items, old(index.Entries()), index.Entries(), old(docs), pre.artifactId, pre.status, o)).value)
      ensures RewritesFile(pre.artifactId) ==>
        docs == match ContentRewrite(reg, items, o.rootSet, index.Entries(), old(docs), pre.artifactId, pre.status)
                case Success(w) => Apply(old(docs), w)
                case Failure(_) => old(docs)
      ensures !o.rootSet ==> index.text == old(index.text)
      ensures o.rootSet ==>
        var k := FirstMatch(old(index.Entries()), ById(pre.artifactId)).value;
        var revised := Revise(old(index.Entries())[k], None, Some(pre.status), None, None);
        CleanEntry(revised) ==> index.Entries() == old(index.Entries())[k := ReadBack(revised)]
    {
      if o.rootSet {
        SetIndexStatus(pre.artifactId, pre.status);
      }
      var content := o.content;
      if RewritesFile(pre.artifactId) {
        content := RewriteStatusContent(items, o.rootSet, pre.artifactId, pre.status);
      }
      var outcomes := o.(indexFound := true, content := content);
      var report := Handlers.HandleStatusUpdate(reg, pre.artifactId, pre.status, outcomes);
      r := WithReport(pre, report.value);
    }

    /**
     * The TASKPRD and PRD `update_status_content`: the artifact loaded, its
     * header lines set and the new text written over the file it was read
     * from; with the step it answers.
     */
    method RewriteStatusContent(items: seq<HeaderCodec.HeaderItem>, rootSet: bool, id: string, s: string)
      returns (step: Handlers.Step)
      requires Valid()
      modifies this
      ensures Valid()
      ensures step == ContentStep(id, s, old(docs), ContentRewrite(reg, items, rootSet, index.Entries(), old(docs), id, s))
      ensures docs == match ContentRewrite(reg, items, rootSet, index.Entries(), old(docs), id, s)
                      case Success(w) => Apply(old(docs), w)
                      case Failure(_) => old(docs)
    {
      var loaded := GetArtifactFrom(rootSet, id);
      if loaded.Failure? {
        return ContentStep(id, s, docs, Failure(loaded.error));
      }
      var (k, content) := loaded.value;
      var w := WholeFile(k, StatusContent(reg, items, id, content, s));
      step := ContentStep(id, s, docs, Success(w));
      var f := References.MdFile(docs[k].name, Newlines(w.text));
      ReadAsTextUpdate(docs, k, f);
      docs := docs[k := f];
    }

    /** The index half of the fallback: the status set on the entry the lookup finds. */
    method SetIndexStatus(id: string, s: string)
      requires Valid() && FirstMatch(index.Entries(), ById(id)).Some?
      modifies index
      ensures Valid()
      ensures var k := FirstMatch(old(index.Entries()), ById(id)).value;
        var revised := Revise(old(index.Entries())[k], None, Some(s), None, None);
        CleanEntry(revised) ==> index.Entries() == old(index.Entries())[k := ReadBack(revised)]
    {
      var ok := index.UpdateArtifact(id, None, Some(s), None, None);
      if !ok {
        // `Resolve` has just found the entry, so the index update finds it too
        assert false;
      }
    }

    /** The fallback of `update_artifact_status`: the status set in the index, then in the `STATUS` header. */
    method Fallback(pre: StatusUpdate, items: seq<HeaderCodec.HeaderItem>, rootSet: bool) returns (r: StatusUpdate)
      requires Valid() && pre.StatusSet? && FirstMatch(index.Entries(), ById(pre.artifactId)).Some?
      modifies this, index
      ensures Valid()
      ensures r == WithFallback(pre, ContentNote(HeaderWrite(reg, items, rootSet, index.Entries(), old(docs),
                                                             pre.artifactId, pre.status)))
      ensures docs == match HeaderWrite(reg, items, rootSet, index.Entries(), old(docs), pre.artifactId, pre.status)
                      case Success(w) => Apply(old(docs), w)
                      case Failure(_) => old(docs)
      ensures var k := FirstMatch(old(index.Entries()), ById(pre.artifactId)).value;
        var revised := Revise(old(index.Entries())[k], None, Some(pre.status), None, None);
        CleanEntry(revised) ==> index.Entries() == old(index.Entries())[k := ReadBack(revised)]
    {
      SetIndexStatus(pre.artifactId, pre.status);
      var note := UpdateStatusHeader(items, rootSet, pre.artifactId, pre.status);
      r := WithFallback(pre, note);
    }
  }
}
