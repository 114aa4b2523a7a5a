# ReSpecT artifact manager: a Dafny model of its consistency engine

ReSpecT keeps a repository of specification artifacts: PRDs, requirements,
tasks and acceptance tests. Each artifact has a typed ID such as `REQ-12`.
Some artifacts are whole Markdown files. Others are `### ID` sections inside
a file. A CSV index ledger records every artifact. This project models the
part of the manager that keeps the ledger, the headers and the files
consistent. It proves what each operation promises.

- **TypeRegistry** (`artifact_type_manager.py`): the configuration of
  artifact types and statuses, held as an immutable value. Covers type and
  ID normalisation, provisional-token discovery and parsing, status checks,
  artifact-ID format checks with their suggestions, and provisional file
  names.
- **Csv** and **IndexLedger** (`artifact_index_manager.py`):
  - the CSV reader and writer for one ledger line;
  - the line codec for `ID,ARTIFACT_ID,NAME,STATUS,IS_FILE,PARENT`;
  - the class `Ledger`, whose state is the ledger file's text. Its methods
    read, look up, allocate, append, update and filter entries. The locked
    allocation of `add_artifact` is one atomic method.
- **HeaderCodec** (`artifact_header_manager.py`): detecting an artifact's
  title line, parsing the `` `Label`: value `` block, and applying atomic and
  list updates. Headers are written in configuration order.
- **Sections**, **References**, **Naming**, **Ordering** and **Manager**
  (`artifact_manager.py`):
  - the repository is the sequence of its Markdown files in walk order,
    each a name and its text;
  - identifier resolution and ID allocation;
  - locating, reading and splicing `### ID` sections;
  - the reference scan;
  - main and nested provisional IDs, and the target file name;
  - finalisation;
  - the status update: a handler's index update and, for TASKPRD and PRD,
    its rewrite of the artifact's file; without a handler, the fallback.
  The class `ArtifactManager` holds the registry, the ledger and the
  repository.
- **HandlerLists**, **HandlerText**, **HandlerHeaders**, **Handlers** and
  **Nested** (`artifact_type_handler.py`):
  - the covering-test and implementing-task lists;
  - step check-off;
  - TASK sections, `*Implements*:` and `*Parent*:` lines;
  - the header metadata rewrite and its legacy fallback;
  - the handler factory and the combination of status-update results;
  - `add_reference`, and the insertion of nested acceptance tests into a PRD.
- **Text** and **Wrappers**: the Python string operations these files rely
  on (`strip`, `split`, `join`, `upper`, `isdigit`, `int`/`str` on digit
  strings, word boundaries), plus `Option` and `Result`.

Every file the source reads or writes comes into the model as a value. Every
file it writes comes out as a value or as a change to the
`ArtifactManager`'s repository field. The environment, the clock and the
logger do not appear.

## Model

| member | source | states |
|---|---|---|
| TypeRegistry.GetTypeInfo | respect_mcp/respect_manager/artifact_type_manager.py:160-177 | succeeds exactly when the upper-cased code is configured, and then returns that code's record |
| TypeRegistry.HasCapability | respect_mcp/respect_manager/artifact_type_manager.py:31-41 | fails exactly for an unknown type; otherwise true iff the flag is present and set, so a missing flag reads as false |
| TypeRegistry.CanToolUpdate | respect_mcp/respect_manager/artifact_type_manager.py:20-29 | fails exactly for an unknown type; otherwise true iff `can_tool_update` is present and set |
| TypeRegistry.LookupIgnoresCase | respect_mcp/respect_manager/artifact_type_manager.py:149-177 | validity and the looked-up record are the same for any spelling of a code and its upper-case form |
| TypeRegistry.ValidateAndNormalizeType | respect_mcp/respect_manager/artifact_type_manager.py:230-251 | blank input is the empty-type error; otherwise succeeds iff the stripped, upper-cased text is a configured code, and returns exactly that text |
| TypeRegistry.NormalizeTypeIdempotent | respect_mcp/respect_manager/artifact_type_manager.py:242-251 | normalising a normalised type returns it unchanged |
| TypeRegistry.TypeFromId | respect_mcp/respect_manager/artifact_type_manager.py:209-228 | a success is a configured code that the upper-cased ID has the `<LETTERS>-<digits>` shape for; every configured code of that shape is the result; an ID of no such shape fails |
| TypeRegistry.TypeFromIdRejects | respect_mcp/respect_manager/artifact_type_manager.py:222-226 | the empty ID and any ID without the `TYPE-<digits>` shape are rejected |
| TypeRegistry.TokenAtSpec | respect_mcp/respect_manager/artifact_type_manager.py:274-277 | the regex alternation at a position reports the first code that ends a token there, and reports nothing exactly when no code does |
| TypeRegistry.FindProvisionalIds | respect_mcp/respect_manager/artifact_type_manager.py:261-280 | the scanning loop returns exactly the set of tokens the left-to-right regex scan finds, for any configured codes, none included (then the group is empty and the bare `-PROVISIONAL<digits>` matches) |
| TypeRegistry.NoTypesTokens | respect_mcp/respect_manager/artifact_type_manager.py:274-279 | with no configured type every reported token starts with `-PROVISIONAL` and does not parse as a provisional ID |
| TypeRegistry.BareTokenShape | respect_mcp/respect_manager/artifact_type_manager.py:274-277 | a match of the pattern with an empty type group reads, upper-cased, `-PROVISIONAL` followed by at least one more character |
| TypeRegistry.DashFirstRejected | respect_mcp/respect_manager/artifact_type_manager.py:294-298 | an ID that starts with a dash has no `TYPE-` prefix and is rejected |
| TypeRegistry.NoTokenInside | respect_mcp/respect_manager/artifact_type_manager.py:274-279 | no token can start strictly inside another, so skipping past a match loses nothing |
| TypeRegistry.ProvisionalTokensSound | respect_mcp/respect_manager/artifact_type_manager.py:261-280 | for any registry every reported ID is upper case and occurs as a whole word (ignoring case) in the text; for a registry of distinct upper-case word codes it also parses as a provisional ID |
| TypeRegistry.TokenBoundaries | respect_mcp/respect_manager/artifact_type_manager.py:274 | a token is delimited by a word boundary at both ends |
| TypeRegistry.ProvisionalTokensComplete | respect_mcp/respect_manager/artifact_type_manager.py:261-280 | every whole-word occurrence of `<known type>-PROVISIONAL<digits>` is reported, upper-cased |
| TypeRegistry.ParseProvisionalId | respect_mcp/respect_manager/artifact_type_manager.py:282-308 | a success names a configured type |
| TypeRegistry.ParseProvisionalOf | respect_mcp/respect_manager/artifact_type_manager.py:294-308 | `<known TYPE>-PROVISIONAL<digits>` parses to that type and the digits' value |
| TypeRegistry.ParseProvisionalRejects | respect_mcp/respect_manager/artifact_type_manager.py:294-306 | an ID with no `TYPE-` prefix, no marker, no digits after it, or an unknown type is rejected |
| TypeRegistry.ValidStatusesForType | respect_mcp/respect_manager/artifact_type_manager.py:318-336 | fails exactly for an unknown type; returns the type's own list when configured, else the global status list |
| TypeRegistry.IsValidStatusForType | respect_mcp/respect_manager/artifact_type_manager.py:349-360 | fails exactly for an unknown type; otherwise true iff the upper-cased status is in the type's list |
| TypeRegistry.ValidateAndNormalizeStatus | respect_mcp/respect_manager/artifact_type_manager.py:408-426 | unknown type is an error; otherwise returns the upper-cased status iff it is allowed for the type, else the invalid-status error carrying the allowed list |
| TypeRegistry.NormalizeStatusIdempotent | respect_mcp/respect_manager/artifact_type_manager.py:421-426 | a normalised status normalises to itself |
| TypeRegistry.ValidateArtifactIdFormat | respect_mcp/respect_manager/artifact_type_manager.py:428-530 | valid iff the ID has the accepted form, and then carries its type and number with no error; the not-given, blank, bad-format, unknown-type and zero-number errors each occur exactly in their case, with the suggestions the source builds |
| TypeRegistry.CheckNormalizedId | respect_mcp/respect_manager/artifact_type_manager.py:470-526 | after stripping and upper-casing: valid iff shape, type and positive number hold; the three error kinds with their conditions and suggestion lists |
| TypeRegistry.CollectPrefixHints | respect_mcp/respect_manager/artifact_type_manager.py:483-485 | the hint loop returns exactly the `<T>-1` suggestions for the codes the input starts with |
| TypeRegistry.CollectRelatedHints | respect_mcp/respect_manager/artifact_type_manager.py:503-505 | the hint loop returns exactly the `<T>-<n>` suggestions for related codes |
| TypeRegistry.ValidateArtifactId | respect_mcp/respect_manager/artifact_type_manager.py:532-556 | succeeds iff the format check passes, returning `TYPE-<number>` with the number in canonical decimal |
| TypeRegistry.IdFormatCharacterized | respect_mcp/respect_manager/artifact_type_manager.py:465-526 | an ID reading `T-<digits>` after strip and upper-case is valid iff the digits are digits, T is configured and the number is positive, and then yields (T, number) |
| TypeRegistry.NormalizedIdStable | respect_mcp/respect_manager/artifact_type_manager.py:532-556 | the normalised ID is valid again with the same type and number |
| TypeRegistry.LeadingZerosDropped | respect_mcp/respect_manager/artifact_type_manager.py:494-526 | `T-0<n>` names the same type and number as `T-<n>` |
| TypeRegistry.ValidateProvisionalFilename | respect_mcp/respect_manager/artifact_type_manager.py:558-618 | keeps the filename; valid iff a type was found, and that type is configured |
| TypeRegistry.ProvisionalFilenameAccepted | respect_mcp/respect_manager/artifact_type_manager.py:589-614 | `<TYPE>-PROVISIONAL<digits?>` in any case, with or without `.md`, is accepted exactly when the type is known, and reports that type |
| TypeRegistry.ProvisionalFilenameShape | respect_mcp/respect_manager/artifact_type_manager.py:589-614 | an accepted name, without one `.md`, upper-cased and without a final newline, reads `<TYPE>-PROVISIONAL<digits>` for the configured type it reports |
| Csv.QuoteField | respect_mcp/respect_manager/artifact_index_manager.py:159-170 | the written field is empty exactly when the field is |
| Csv.ReadWritten | respect_mcp/respect_manager/artifact_index_manager.py:94-96 | the CSV reader reads the writer's fields back unchanged, up to its field size limit |
| Csv.ReadRow | respect_mcp/respect_manager/artifact_index_manager.py:94-96 | the first record of a written row without its line end is exactly the written fields |
| Csv.ReadPlain | respect_mcp/respect_manager/artifact_index_manager.py:93-99 | a line with no quote or line break reads as a record equal to its comma split, so the fallback and the reader agree on it |
| Csv.FieldsPlain | respect_mcp/respect_manager/artifact_index_manager.py:159-171 | fields that need no quoting are written joined by commas, unchanged |
| Csv.FieldsKeepOut | respect_mcp/respect_manager/artifact_index_manager.py:159-171 | the writer adds no character other than commas and quotes |
| Csv.FirstFieldStart | respect_mcp/respect_manager/artifact_index_manager.py:94-96 | a record whose text starts with an ordinary character has a first field starting with that character |
| IndexLedger.Padded | respect_mcp/respect_manager/artifact_index_manager.py:104-106 | the parts are kept as a prefix and padded to at least the six columns |
| IndexLedger.EntryOfColumns | respect_mcp/respect_manager/artifact_index_manager.py:108-138 | an entry is produced only with a digit document ID, a non-blank stripped artifact ID and stripped non-empty optional columns |
| IndexLedger.ParseIndexLine | respect_mcp/respect_manager/artifact_index_manager.py:76-138 | an entry comes only from a non-blank line containing a comma, and satisfies the entry invariant |
| IndexLedger.IsFileWords | respect_mcp/respect_manager/artifact_index_manager.py:121-123 | the written `true`/`false` read back as the same file flag |
| IndexLedger.ReadBackKeys | respect_mcp/respect_manager/artifact_index_manager.py:108-123 | the document number, artifact ID and file flag of a clean entry read back unchanged |
| IndexLedger.ReadBackOptionals | respect_mcp/respect_manager/artifact_index_manager.py:118-126 | name, status and parent read back with empty values turned into no value |
| IndexLedger.FormatParseRoundTrip | respect_mcp/respect_manager/artifact_index_manager.py:76-172 | a formatted line of a clean entry parses back to that entry, empty values dropped |
| IndexLedger.NonEntryLine | respect_mcp/respect_manager/artifact_index_manager.py:85-112 | a blank line, a line without a comma, or one starting with anything but a digit, quote or comma is not an entry (the file's header lines) |
| IndexLedger.EntriesFromLines | respect_mcp/respect_manager/artifact_index_manager.py:174-192 | an entry is listed exactly when some line of the file parses to it |
| IndexLedger.EntriesValid | respect_mcp/respect_manager/artifact_index_manager.py:174-192 | every listed entry satisfies the parsed-entry invariant |
| IndexLedger.InitialContentHasNoEntries | respect_mcp/respect_manager/artifact_index_manager.py:50-74 | the header written for a new index lists no entries |
| IndexLedger.FirstMatch | respect_mcp/respect_manager/artifact_index_manager.py:194-222 | the position found is the first entry matching the key, and none means no entry matches |
| IndexLedger.Find | respect_mcp/respect_manager/artifact_index_manager.py:194-222 | a lookup finds something iff some entry matches, and what it finds is a matching entry of the index |
| IndexLedger.MaxDocIdBounds | respect_mcp/respect_manager/artifact_index_manager.py:224-245 | the maximum bounds every document number and is one of them unless it is 0 |
| IndexLedger.NextDocId | respect_mcp/respect_manager/artifact_index_manager.py:224-245 | the next number is at least 1 and above every existing number |
| IndexLedger.NextDocIdLeast | respect_mcp/respect_manager/artifact_index_manager.py:224-245 | it is the least such number |
| IndexLedger.NextDocIdFresh | respect_mcp/respect_manager/artifact_index_manager.py:224-304 | an entry numbered with it keeps document numbers distinct |
| IndexLedger.AbsentIdKeepsDistinct | respect_mcp/respect_manager/artifact_index_manager.py:264-267 | adding an artifact ID no entry has keeps artifact IDs distinct |
| IndexLedger.AddKeepsDistinct | respect_mcp/respect_manager/artifact_index_manager.py:247-304 | the entry `add_artifact` appends keeps document numbers and artifact IDs distinct |
| IndexLedger.Keep | respect_mcp/respect_manager/artifact_index_manager.py:372-379 | a filter never lengthens the list |
| IndexLedger.SelectMembers | respect_mcp/respect_manager/artifact_index_manager.py:358-381 | the selection holds exactly the index entries meeting every given filter |
| IndexLedger.SelectConcat | respect_mcp/respect_manager/artifact_index_manager.py:358-381 | selection distributes over concatenation, so it keeps the index order |
| IndexLedger.FiltersCompose | respect_mcp/respect_manager/artifact_index_manager.py:372-379 | the three filters applied in turn select what the single combined test selects |
| IndexLedger.AppendEntry | respect_mcp/respect_manager/artifact_index_manager.py:285-296 | appending a parsing line lists exactly one more entry, after the others |
| IndexLedger.AppendClean | respect_mcp/respect_manager/artifact_index_manager.py:285-296 | appending a clean entry's line lists its read-back last |
| IndexLedger.RevisedFields | respect_mcp/respect_manager/artifact_index_manager.py:329-348 | an update keeps document and artifact IDs and changes exactly the given fields |
| IndexLedger.UpdateEntries | respect_mcp/respect_manager/artifact_index_manager.py:327-353 | rewriting the first matching line changes exactly the first matching entry |
| IndexLedger.UpdateClean | respect_mcp/respect_manager/artifact_index_manager.py:323-353 | the same, for file text as read in text mode |
| IndexLedger.FindEntry | respect_mcp/respect_manager/artifact_index_manager.py:194-207 | the search loop returns the first matching entry |
| IndexLedger.HighestDocId | respect_mcp/respect_manager/artifact_index_manager.py:232-245 | the loop returns the highest document number, skipping non-numbers |
| IndexLedger.FindLine | respect_mcp/respect_manager/artifact_index_manager.py:327-330 | the loop returns the first line whose entry matches |
| IndexLedger.Ledger.EnsureIndexFileExists | respect_mcp/respect_manager/artifact_index_manager.py:50-74 | afterwards the file exists; the text is kept if it existed, else the header; the entries do not change |
| IndexLedger.Ledger.GetAllArtifacts | respect_mcp/respect_manager/artifact_index_manager.py:174-192 | every entry in file order, each satisfying the entry invariant |
| IndexLedger.Ledger.GetArtifactById | respect_mcp/respect_manager/artifact_index_manager.py:194-207 | the first entry whose artifact ID matches ignoring case |
| IndexLedger.Ledger.GetArtifactByDocId | respect_mcp/respect_manager/artifact_index_manager.py:209-222 | the first entry with exactly that document ID |
| IndexLedger.Ledger.GetNextDocId | respect_mcp/respect_manager/artifact_index_manager.py:224-245 | creates the file if needed without changing the entries, and returns the next document number |
| IndexLedger.Ledger.AddArtifact | respect_mcp/respect_manager/artifact_index_manager.py:247-304 | a listed ID fails with nothing changed; otherwise returns the next document number, appends the formatted line, lists the read-back entry last and keeps numbers and IDs distinct |
| IndexLedger.Ledger.AppendArtifact | respect_mcp/respect_manager/artifact_index_manager.py:278-300 | the locked part: number with the next ID, append its line, entries grow by the read-back and stay distinct |
| IndexLedger.Ledger.UpdateArtifact | respect_mcp/respect_manager/artifact_index_manager.py:306-356 | reports success iff an entry matches; otherwise the text is unchanged; on success exactly the first matching line is rewritten and the entry list changes only at that entry |
| IndexLedger.Ledger.GetArtifactsByFilter | respect_mcp/respect_manager/artifact_index_manager.py:358-381 | returns exactly the selection in file order |
| IndexLedger.Ledger.GetChildrenArtifacts | respect_mcp/respect_manager/artifact_index_manager.py:383-392 | returns exactly the entries whose parent is the given ID |
| HeaderCodec.DigitCount | respect_mcp/respect_manager/artifact_header_manager.py:103 | the leading run of digits that `(\d+)` may cover: all digits, and followed by a non-digit or the end |
| HeaderCodec.LineCount | respect_mcp/respect_manager/artifact_header_manager.py:103 | the leading run without a line break that `(.+)` may cover |
| HeaderCodec.MatchSound | respect_mcp/respect_manager/artifact_header_manager.py:101-106 | a match of a header format is a way to spell a prefix of the line with the format's placeholders filled |
| HeaderCodec.MatchComplete | respect_mcp/respect_manager/artifact_header_manager.py:101-106 | whenever such a spelling exists, the backtracking match finds one |
| HeaderCodec.FirstLine | respect_mcp/respect_manager/artifact_header_manager.py:84-88 | the first line of the stripped content is stripped and has no line break |
| HeaderCodec.ExtractCharacterized | respect_mcp/respect_manager/artifact_header_manager.py:75-114 | nothing is found exactly when no configured format recognises the first line; otherwise the first recognising type and `TYPE-<first group>` are returned |
| HeaderCodec.IdGroupIsDigits | respect_mcp/respect_manager/artifact_header_manager.py:103-109 | when `{id}` is the first placeholder, the first group is a non-empty run of digits |
| HeaderCodec.ManagedHeadersFor | respect_mcp/respect_manager/artifact_header_manager.py:116-131 | holds exactly the configured items that list the type |
| HeaderCodec.ManagedHeadersConcat | respect_mcp/respect_manager/artifact_header_manager.py:125-131 | the filter distributes over concatenation, so configuration order is kept |
| HeaderCodec.ManagedHeadersWellFormed | respect_mcp/respect_manager/artifact_header_manager.py:116-131 | the items of one type are again a well-formed configuration |
| HeaderCodec.FindLabel | respect_mcp/respect_manager/artifact_header_manager.py:172-177 | the first item whose label without its trailing colons equals the line's label, or none when no item has it |
| HeaderCodec.Found | respect_mcp/respect_manager/artifact_header_manager.py:159-184 | one entry per block line, each the managed header that line holds |
| HeaderCodec.Lines | respect_mcp/respect_manager/artifact_header_manager.py:142 | the stripped content split at line breaks: at least one line, none holding a break |
| HeaderCodec.DetectType | respect_mcp/respect_manager/artifact_header_manager.py:91-114 | the loop over the configured types returns the detection function's result |
| HeaderCodec.FindItem | respect_mcp/respect_manager/artifact_header_manager.py:172-177 | the loop returns the first item with the label |
| HeaderCodec.ParseManagedHeaders | respect_mcp/respect_manager/artifact_header_manager.py:133-187 | the method returns the parse function's result |
| HeaderCodec.ScanBlock | respect_mcp/respect_manager/artifact_header_manager.py:159-186 | the loop stops at the stop index and returns the block's headers and the body from that line on |
| HeaderCodec.ReadLine | respect_mcp/respect_manager/artifact_header_manager.py:160-177 | reports a blank stripped line, and otherwise the managed header the line holds |
| HeaderCodec.MergeList | respect_mcp/respect_manager/artifact_header_manager.py:228-236 | the loop returns the list merge of the existing and the new values |
| HeaderCodec.UpdateManagedHeader | respect_mcp/respect_manager/artifact_header_manager.py:189-254 | the method returns the update function's result |
| HeaderCodec.ApplyEach | respect_mcp/respect_manager/artifact_header_manager.py:216-238 | the loop returns the headers with every requested update applied in order |
| HeaderCodec.RenderLines | respect_mcp/respect_manager/artifact_header_manager.py:244-248 | the loop emits the present items' lines in configuration order |
| HeaderCodec.AppendNewShape | respect_mcp/respect_manager/artifact_header_manager.py:229-236 | the merge keeps the existing values as a prefix, holds exactly the old and new values, and appends each new value once and only if absent |
| HeaderCodec.AppendNewPresent | respect_mcp/respect_manager/artifact_header_manager.py:233-235 | values already all present leave the list unchanged |
| HeaderCodec.AppendNewIdempotent | respect_mcp/respect_manager/artifact_header_manager.py:229-236 | merging the same values again adds nothing |
| HeaderCodec.AtomicOverride | respect_mcp/respect_manager/artifact_header_manager.py:223-225 | atomic updates override: the result is the old map overridden by the updates alone |
| HeaderCodec.AtomicIdempotent | respect_mcp/respect_manager/artifact_header_manager.py:223-225 | applying the same atomic updates twice equals applying them once |
| HeaderCodec.ItemLineReadsBack | respect_mcp/respect_manager/artifact_header_manager.py:166-177 | a rebuilt `` `Label`: value `` line is one stripped line that parses back to that item and value |
| HeaderCodec.CollectItemLines | respect_mcp/respect_manager/artifact_header_manager.py:159-187 | reading the rebuilt item lines back recovers exactly the map |
| HeaderCodec.UpdateThenParse | respect_mcp/respect_manager/artifact_header_manager.py:133-254 | after an update, parsing gives the same header line and body and the old headers with the updates applied, and the detected type and ID are unchanged |
| HeaderCodec.RenderThenParse | respect_mcp/respect_manager/artifact_header_manager.py:133-187 | a content rebuilt from its header line, any clean map over its items and its body parses back to that map |
| HeaderCodec.UpdateIdempotent | respect_mcp/respect_manager/artifact_header_manager.py:189-254 | repeating the same single-valued updates on the updated content gives it back unchanged |
| HeaderCodec.UpdateOutcomes | respect_mcp/respect_manager/artifact_header_manager.py:189-211 | the update fails with the detection's error, for blank content, or when no type is detected, and succeeds otherwise |
| HeaderCodec.ParseFailure | respect_mcp/respect_manager/artifact_header_manager.py:151 | parsing fails with the detection's error when detection fails |
| HeaderCodec.ParseNone | respect_mcp/respect_manager/artifact_header_manager.py:151-153 | with no type detected the parse is the header line, no headers, and every later line as body |
| Sections.First | respect_mcp/respect_manager/artifact_manager.py:556-557 | the first line at or after the start that satisfies the test, with none before it; none means no line from the start on does |
| Sections.EndFrom | respect_mcp/respect_manager/artifact_manager.py:562-568 | the first closing line at or after the start, or the end of the file, with no closing line before it |
| Sections.Range | respect_mcp/respect_manager/artifact_manager.py:492-507 | a found range is non-empty and lies within the lines |
| Sections.RangeIs | respect_mcp/respect_manager/artifact_manager.py:556-570 | the range is (s, e) exactly when s is the first opening line and e the first closing line after it, or the end |
| Sections.NoRangeIff | respect_mcp/respect_manager/artifact_manager.py:578-579 | there is no range exactly when no line opens one |
| Sections.SectionRange | respect_mcp/respect_manager/artifact_manager.py:492-504 | the section of a `### <ID>` heading is a non-empty range within the lines |
| Sections.FindRange | respect_mcp/respect_manager/artifact_manager.py:556-570 | the nested scanning loops return exactly that range |
| Sections.SectionTextNotBlank | respect_mcp/respect_manager/artifact_manager.py:506-516 | a section opened by a `### ` heading never reads as empty text |
| Sections.NewLines | respect_mcp/respect_manager/artifact_manager.py:590 | the replacement's lines are never an empty list |
| Sections.Splice | respect_mcp/respect_manager/artifact_manager.py:593 | the spliced file has the prefix, the new lines and the suffix |
| Sections.ReplaceRange | respect_mcp/respect_manager/artifact_manager.py:593 | replacing a range by lines that open it and never close it: the range is found again at the same start spanning exactly the new lines, and the prefix and suffix are untouched |
| Sections.SpliceReadsBack | respect_mcp/respect_manager/artifact_manager.py:584-596 | after `_update_non_file_artifact`'s splice the section is found at the same start, spans the new lines, everything outside it is unchanged, and it reads back as the new content without trailing whitespace |
| Sections.NewLinesText | respect_mcp/respect_manager/artifact_manager.py:590 | rejoining the replacement's lines gives the content up to trailing whitespace |
| Sections.ExtractArtifactSection | respect_mcp/respect_manager/artifact_manager.py:1275-1304 | the flag-driven loop returns exactly the section the heading opens |
| Sections.SectionDisjoint | respect_mcp/respect_manager/artifact_manager.py:1291-1298 | no line both opens and closes the section |
| Sections.CollectRange | respect_mcp/respect_manager/artifact_manager.py:1285-1304 | the lines collected behind the flag are exactly the range's lines |
| Sections.KeepReqIds | respect_mcp/respect_manager/artifact_manager.py:1326-1330 | keeps exactly the items that are `REQ-<digits>` |
| Sections.TestRequirementsCharacterized | respect_mcp/respect_manager/artifact_manager.py:1306-1333 | with no `*Tests*:` line nothing is read; otherwise an ID is read iff it is a requirement-shaped item of the first such line |
| Sections.ExtractTestRequirements | respect_mcp/respect_manager/artifact_manager.py:1306-1333 | the scanning loop returns exactly those IDs, in order |
| Sections.CollectReqIds | respect_mcp/respect_manager/artifact_manager.py:1327-1330 | the inner loop returns the requirement-shaped items in order |
| References.HeadingIdForm | respect_mcp/respect_manager/artifact_manager.py:227 | every section ID a heading yields has the form `LETTERS-digits` |
| References.HeadingIdOf | respect_mcp/respect_manager/artifact_manager.py:227 | a line `<ws>###<ws>TYPE-n` followed by a non-word character or the end yields `TYPE-n` |
| References.Heads | respect_mcp/respect_manager/artifact_manager.py:254-266 | one entry per line: the section ID that line opens, if any |
| References.CollectSpans | respect_mcp/respect_manager/artifact_manager.py:252-269 | the section loop returns the spans the heading list defines |
| References.LastHeading | respect_mcp/respect_manager/artifact_manager.py:271-275 | the last heading line in a range, with no heading after it, or none when the range holds none |
| References.SpansFind | respect_mcp/respect_manager/artifact_manager.py:252-275 | looking a line up in the built spans gives the last heading above it, else the open section, else the file's ID |
| References.ContainerIsLastHeading | respect_mcp/respect_manager/artifact_manager.py:252-275 | line n belongs to the last `###` heading at or above it, else to the file's artifact |
| References.MentionFromIff | respect_mcp/respect_manager/artifact_manager.py:226-280 | the search succeeds exactly when the target occurs as a whole word, ignoring case, somewhere in the line |
| References.LineRefs | respect_mcp/respect_manager/artifact_manager.py:277-291 | one entry per line: what that line records |
| References.LineRefIff | respect_mcp/respect_manager/artifact_manager.py:277-291 | a line records a pair exactly when it is non-blank, mentions the target, has a non-empty container other than the target (ignoring case), and the pair carries its number and stripped text |
| References.RefsIff | respect_mcp/respect_manager/artifact_manager.py:277-291 | a pair is recorded for a file exactly when it is credited to one of its lines |
| References.RefsOrdered | respect_mcp/respect_manager/artifact_manager.py:277-291 | recorded line numbers strictly increase |
| References.FileRefsOrdered | respect_mcp/respect_manager/artifact_manager.py:277-291 | a file's references come in strictly increasing line order |
| References.RefsOf | respect_mcp/respect_manager/artifact_manager.py:288-291 | a container's references are at most the recorded pairs |
| References.RecordGet | respect_mcp/respect_manager/artifact_manager.py:288-291 | recording appends to each container's list exactly the references credited to it |
| References.RecordKeys | respect_mcp/respect_manager/artifact_manager.py:288-291 | recording adds a key exactly for the containers some pair names |
| References.RecordNoEmpty | respect_mcp/respect_manager/artifact_manager.py:288-291 | recording never leaves an empty list |
| References.RefsOfMembers | respect_mcp/respect_manager/artifact_manager.py:288-291 | a reference is credited to a container exactly when the pair is recorded |
| References.ScanFilesGet | respect_mcp/respect_manager/artifact_manager.py:231-291 | each container's list gathers its references from every file in walk order and is never empty |
| References.ScanReferencesOrdered | respect_mcp/respect_manager/artifact_manager.py:283-295 | the result's key order holds exactly the result's containers, in the order each container's first reference comes across the files in walk order |
| References.SeenOrder | respect_mcp/respect_manager/artifact_manager.py:288-291 | `setdefault` on an empty dictionary leaves exactly the containers some pair names as keys, in the order of their first pair |
| References.SeenConcat | respect_mcp/respect_manager/artifact_manager.py:231-291 | recording two runs of pairs one after the other gives the key order of recording them together |
| References.KeepIn | respect_mcp/respect_manager/artifact_manager.py:293-294 | the filtered key order holds exactly the keys the index lists |
| References.KeepInOrder | respect_mcp/respect_manager/artifact_manager.py:293-294 | filtering keeps the first-insertion order of the keys it keeps |
| References.FirstAt | respect_mcp/respect_manager/artifact_manager.py:288-291 | the position of the first pair credited to a container, and no earlier pair is |
| References.ScanOrderSeen | respect_mcp/respect_manager/artifact_manager.py:231-291 | the file-by-file key order is that of recording all the files' pairs in walk order |
| References.ScanFilesPairs | respect_mcp/respect_manager/artifact_manager.py:231-291 | the file-by-file map is that of recording all the files' pairs in walk order |
| References.SeenNext | respect_mcp/respect_manager/artifact_manager.py:288-291 | one more line's pair adds its container at the end of the key order when it is new |
| References.ScanReferencesMeaning | respect_mcp/respect_manager/artifact_manager.py:210-295 | the result holds a container exactly when the index lists it and some file credits a reference to it, and then holds all of them in walk order |
| References.FileRefsMeaning | respect_mcp/respect_manager/artifact_manager.py:240-291 | what a file credits to a container is exactly the non-blank lines mentioning the target that lie in that container's section or file |
| References.FindContainerIn | respect_mcp/respect_manager/artifact_manager.py:271-275 | the loop over the sections returns `find_container`'s answer |
| References.LineReference | respect_mcp/respect_manager/artifact_manager.py:277-291 | one loop step returns what the line records |
| References.FileReferences | respect_mcp/respect_manager/artifact_manager.py:240-291 | one file's pass adds exactly its references to the map and their new containers to the key order |
| References.RecordLines | respect_mcp/respect_manager/artifact_manager.py:277-291 | the line loop adds exactly the lines' recorded pairs, and their new containers in first-insertion order |
| References.RecordLine | respect_mcp/respect_manager/artifact_manager.py:288-291 | one step extends the map by the line's pair, if any, and appends its container to the key order when it is new |
| References.ScanContentReferences | respect_mcp/respect_manager/artifact_manager.py:210-295 | the method returns the scan's meaning over the index's entries and the result's key order |
| References.KeepKeys | respect_mcp/respect_manager/artifact_manager.py:293-294 | the comprehension's walk over the keys keeps exactly the listed ones, in order |
| References.ScanEach | respect_mcp/respect_manager/artifact_manager.py:231-291 | the file loop returns the fold over the files in walk order and the key order it leaves |
| Naming.NameOf | respect_mcp/respect_manager/artifact_manager.py:781-788 | a name read from a line is stripped |
| Naming.NameOfHeading | respect_mcp/respect_manager/artifact_manager.py:781-788 | a heading `#...# <ID>: <name>`, with the ID in any letter case, yields exactly the name |
| Naming.FirstNameIs | respect_mcp/respect_manager/artifact_manager.py:778-790 | the name read is that of the first naming line; with no such line there is no name |
| Naming.ExtractArtifactName | respect_mcp/respect_manager/artifact_manager.py:766-790 | the line loop returns the name of the first naming line |
| Naming.IsMainIff | respect_mcp/respect_manager/artifact_manager.py:925-965 | an artifact is main exactly when some `#`/`##` heading line holds its ID or its type's `is_file` flag is set |
| Naming.IsMainArtifact | respect_mcp/respect_manager/artifact_manager.py:925-965 | the method returns that decision |
| Naming.HeadingNames | respect_mcp/respect_manager/artifact_manager.py:940-945 | the loop reports a hit exactly when some top-level heading line holds the ID |
| Naming.FileFlag | respect_mcp/respect_manager/artifact_manager.py:947-965 | the flag lookup for the type before the first `-`, false for a missing dash, unknown type or missing flag |
| Naming.ReplaceSelf | respect_mcp/respect_manager/artifact_manager.py:883-884 | replacing a whole word by itself changes nothing |
| Naming.ReplaceWhole | respect_mcp/respect_manager/artifact_manager.py:883-884 | text that is just the token becomes the replacement |
| Naming.StepRefAt | respect_mcp/respect_manager/artifact_manager.py:1183 | a step reference found at a position is followed by at least one digit |
| Naming.StepRefWhole | respect_mcp/respect_manager/artifact_manager.py:1183-1185 | `PROVISIONAL<k>.<m>` is rewritten to `<new>.<m>` |
| Naming.TrailingDigits | respect_mcp/respect_manager/artifact_manager.py:1175-1179 | the maximal run of digits the text ends with |
| Naming.NumberAfterOf | respect_mcp/respect_manager/artifact_manager.py:1175-1181 | the digits written after the marker at the end are the ones found |
| Naming.ProvisionalAndFinalNumbers | respect_mcp/respect_manager/artifact_manager.py:1174-1181 | `T-PROVISIONAL<d>` gives `d`, and `T-<n>` gives `n` |
| Naming.RFind | respect_mcp/respect_manager/artifact_manager.py:978-979 | the last position of the character, or none when it is absent |
| Naming.StemAndSuffix | respect_mcp/respect_manager/artifact_manager.py:978-979 | stem and suffix concatenate to the name; the suffix is empty or a dot with no other dot, not at the start and not alone |
| Naming.FindWord | respect_mcp/respect_manager/artifact_manager.py:983-984 | the first whole-word occurrence from a position, or none when there is none |
| Naming.SubstituteFirstIs | respect_mcp/respect_manager/artifact_manager.py:982-986 | the first mapping entry that occurs in the stem decides the stem, replaced everywhere as a whole word |
| Naming.SubstituteNone | respect_mcp/respect_manager/artifact_manager.py:982-986 | with no entry occurring the stem is kept |
| Naming.Collapse | respect_mcp/respect_manager/artifact_manager.py:991 | each maximal run of characters outside `[a-z0-9]` becomes one `_` |
| Naming.CollapseFixed | respect_mcp/respect_manager/artifact_manager.py:991 | text already in that form, not ending with `_`, is unchanged |
| Naming.SanitizeForm | respect_mcp/respect_manager/artifact_manager.py:989-992 | the sanitised suffix holds only `[a-z0-9_]`, never `__`, and no `_` at either end |
| Naming.SanitizeFixed | respect_mcp/respect_manager/artifact_manager.py:989-992 | such text sanitises to itself |
| Naming.SanitizeIdempotent | respect_mcp/respect_manager/artifact_manager.py:989-992 | sanitising twice equals sanitising once |
| Naming.GenerateTargetFilename | respect_mcp/respect_manager/artifact_manager.py:967-996 | the mapping loop returns the target filename |
| Naming.TargetKeepsExtension | respect_mcp/respect_manager/artifact_manager.py:967-996 | the target keeps the provisional file's extension |
| Naming.TargetUnchanged | respect_mcp/respect_manager/artifact_manager.py:967-996 | with no mapped ID in the stem and no suffix, the name is kept |
| Naming.FinalContent | respect_mcp/respect_manager/artifact_manager.py:1466 | the written file is the right-stripped content followed by the version footer |
| Naming.FinalContentParts | respect_mcp/respect_manager/artifact_manager.py:1466 | what precedes the footer is exactly the right-stripped content |
| Naming.MainArtifactId | respect_mcp/respect_manager/artifact_manager.py:1479-1486 | the first mapped final ID, in mapping order, that starts with `<type>-`; none when no final ID does |
| Naming.FindMainArtifactId | respect_mcp/respect_manager/artifact_manager.py:1483-1486 | the loop returns that ID |
| Ordering.BelowIrreflexive | respect_mcp/respect_manager/artifact_manager.py:847 | Python's string order never puts a string below itself |
| Ordering.BelowTransitive | respect_mcp/respect_manager/artifact_manager.py:847 | the string order is transitive |
| Ordering.BelowTotal | respect_mcp/respect_manager/artifact_manager.py:847 | any two different strings are ordered one way or the other |
| Ordering.SortedExists | respect_mcp/respect_manager/artifact_manager.py:847 | every finite set of IDs has an ascending listing |
| Ordering.Sorted | respect_mcp/respect_manager/artifact_manager.py:847 | `sorted` of a set: ascending, and holding exactly the set's elements |
| Ordering.HeadIsLeast | respect_mcp/respect_manager/artifact_manager.py:847 | the first of an ascending listing is the least element, and the rest lists the others |
| Ordering.AscendingUnique | respect_mcp/respect_manager/artifact_manager.py:847 | only one ascending sequence lists a set, so the processing order is determined |
| Ordering.Sort | respect_mcp/respect_manager/artifact_manager.py:847 | the selection loop returns exactly `sorted` of the set |
| Manager.Resolve | respect_mcp/respect_manager/artifact_manager.py:53-90 | an all-digit identifier resolves iff some entry has that document ID, to the artifact ID of the first such entry; any other resolves iff its upper-case form is a listed artifact ID, to that form; whatever resolves is listed |
| Manager.ResolvedIsListed | respect_mcp/respect_manager/artifact_manager.py:53-90 | a resolved artifact ID is always found again by the index's lookup |
| Manager.ResolveIn | respect_mcp/respect_manager/artifact_manager.py:68-86 | the two loops return the resolution |
| Manager.NewId | respect_mcp/respect_manager/artifact_manager.py:92-129 | succeeds iff the type normalises and the new ID is not yet listed; the new ID is the normalised type, a dash and the next document number; a bad type is reported as such |
| Manager.NewIdResolves | respect_mcp/respect_manager/artifact_manager.py:53-129 | after an allocation whose entry reads back, both the new document number and the new ID resolve to the new ID |
| Manager.Ranges | respect_mcp/respect_manager/artifact_manager.py:486-507 | one section range per file, each the file's own |
| Manager.LocateFrom | respect_mcp/respect_manager/artifact_manager.py:486-513 | the first file from the given one on holding the section, with the section's range; none when no later file holds it |
| Manager.FindSection | respect_mcp/respect_manager/artifact_manager.py:492-507 | the scan of one file returns the section's range |
| Manager.LocateSection | respect_mcp/respect_manager/artifact_manager.py:550-576 | the walk over the files returns the located section |
| Manager.LocateIs | respect_mcp/respect_manager/artifact_manager.py:550-576 | the first file holding the section is the one found |
| Manager.LocateAt | respect_mcp/respect_manager/artifact_manager.py:550-576 | the walk stops at a file holding the section and passes over any other |
| Manager.NonFileArtifact | respect_mcp/respect_manager/artifact_manager.py:480-524 | succeeds exactly when some file holds a `### <ID>` section, and then returns non-empty text |
| Manager.FirstNamed | respect_mcp/respect_manager/artifact_manager.py:404-417 | the first file from a position whose name fits the pattern, with none before it; none when no later name fits |
| Manager.FileFor | respect_mcp/respect_manager/artifact_manager.py:404-420 | the first `<ID>_*.md` file, else the first `<ID>.md`; none exactly when neither pattern names a file |
| Manager.Apply | respect_mcp/respect_manager/artifact_manager.py:470 | a write replaces only the file it names, keeping its name |
| Manager.FileWrite | respect_mcp/respect_manager/artifact_manager.py:435-478 | a file write overwrites the artifact's whole file with exactly the new text |
| Manager.SectionWrite | respect_mcp/respect_manager/artifact_manager.py:526-608 | a section write splices exactly the new text, and succeeds exactly when the section is found |
| Manager.SectionWriteAt | respect_mcp/respect_manager/artifact_manager.py:550-596 | where the section is found the write splices it there and changes no other file |
| Manager.SectionWriteReadsBack | respect_mcp/respect_manager/artifact_manager.py:480-608 | after splicing content that opens the section and holds no closing line, reading the section gives back the content without trailing whitespace |
| Manager.SectionReadsBack | respect_mcp/respect_manager/artifact_manager.py:480-608 | the same for a given section write |
| Manager.ApplyReplaces | respect_mcp/respect_manager/artifact_manager.py:596 | a write replaces exactly the file it names |
| Manager.SplicedWrite | respect_mcp/respect_manager/artifact_manager.py:584-596 | the file a section write changes holds the section over exactly the new lines |
| Manager.ReadsBackAfterReplace | respect_mcp/respect_manager/artifact_manager.py:480-524 | replacing the file the section was found in by one that holds it reads the section from there |
| Manager.SplicedSection | respect_mcp/respect_manager/artifact_manager.py:584-596 | the spliced file has no carriage return, holds the section at the same start over the new lines, and reads it back as the right-stripped content |
| Manager.LocateAfterReplace | respect_mcp/respect_manager/artifact_manager.py:550-576 | replacing the found file by one holding the section finds it there again |
| Manager.Prepared | respect_mcp/respect_manager/artifact_manager.py:385-391 | the written section text starts, once left-stripped, with `### <ID>`, and content that already does is kept unchanged |
| Manager.PreparedHead | respect_mcp/respect_manager/artifact_manager.py:388-391 | the prepended heading line starts the text once left-stripped |
| Manager.HeadedUnstripped | respect_mcp/respect_manager/artifact_manager.py:388 | text starting with a  heading has nothing to left-strip before it |
| Manager.UpdatePlan | respect_mcp/respect_manager/artifact_manager.py:343-395 | a planned write fits the repository and exists only for a resolved ID whose type allows tool updates; a section write keeps the heading; an unresolved identifier is not found |
| Manager.PrepareSection | respect_mcp/respect_manager/artifact_manager.py:385-391 | the heading step returns the prepared text |
| Manager.UpdatePlanWrites | respect_mcp/respect_manager/artifact_manager.py:381-392 | an allowed update writes the file of a file artifact, else the section with the heading ensured |
| Manager.UpdateBadType | respect_mcp/respect_manager/artifact_manager.py:372-374 | a listed artifact whose ID names no configured type is not updated |
| Manager.UpdateNeedsPermission | respect_mcp/respect_manager/artifact_manager.py:375-379 | a type without `can_tool_update` is refused whatever the repository holds |
| Manager.StatusValues | respect_mcp/respect_manager/artifact_manager.py:645-651 | a status filter exists only for a given status and is never empty |
| Manager.Matching | respect_mcp/respect_manager/artifact_manager.py:657-684 | holds exactly the index entries passing the type, status and parent tests |
| Manager.SearchByType | respect_mcp/respect_manager/artifact_manager.py:610-704 | an unknown type fails; a success is non-empty and holds exactly the matching entries; a failure for a known type means nothing matched |
| Manager.SearchWithoutFilters | respect_mcp/respect_manager/artifact_manager.py:645-684 | with no status and no parent every entry of the type is found |
| Manager.EntryMatches | respect_mcp/respect_manager/artifact_manager.py:660-677 | the per-entry test of the loop |
| Manager.CollectMatching | respect_mcp/respect_manager/artifact_manager.py:658-684 | the loop returns the matching entries in index order |
| Manager.AllocateGranted | respect_mcp/respect_manager/artifact_manager.py:858-884 | a token that parses and gets a new ID is granted that ID with the name read for it |
| Manager.AllocateStep | respect_mcp/respect_manager/artifact_manager.py:858-884 | one granted token extends the index and the renaming as the allocation says |
| Manager.AllocateKept | respect_mcp/respect_manager/artifact_manager.py:888-890 | a token that does not parse, or whose ID cannot be made, changes nothing |
| Manager.AllocateTainted | respect_mcp/respect_manager/artifact_manager.py:858-921 | once an added entry did not read back the run stays marked so |
| Manager.Extended | respect_mcp/respect_manager/artifact_manager.py:873-884 | the mapping grows by exactly the token's pair |
| Manager.KeepMembers | respect_mcp/respect_manager/artifact_manager.py:847-852 | the main and nested lists hold only tokens of the set with the matching main flag |
| Manager.AllocateExtends | respect_mcp/respect_manager/artifact_manager.py:858-921 | one allocation adds at most one mapping and one entry, and keeps the nested parent |
| Manager.AllocateAllExtends | respect_mcp/respect_manager/artifact_manager.py:858-921 | a loop over tokens extends the run once per token, with the parent kept for nested ones |
| Manager.MainsParent | respect_mcp/respect_manager/artifact_manager.py:855-879 | the nested parent is the given one when it is set, else the first main artifact's new ID |
| Manager.ProvisionalNothingFound | respect_mcp/respect_manager/artifact_manager.py:831-834 | with no provisional ID in the text nothing is allocated and the text is returned as it was |
| Manager.ProvisionalAllocations | respect_mcp/respect_manager/artifact_manager.py:816-923 | every new entry is the artifact of one mapped token; main tokens come first, as files without parent, then nested ones under the nested parent; the index grows by exactly these entries |
| Manager.RunAllocations | respect_mcp/respect_manager/artifact_manager.py:842-921 | the same for any token order |
| Manager.PhasesCompose | respect_mcp/respect_manager/artifact_manager.py:857-921 | the main phase followed by the nested phase adds one entry per mapped token, mains as files with no parent, nested ones under the parent |
| Manager.SplitMains | respect_mcp/respect_manager/artifact_manager.py:847-852 | the split loop returns the main and the nested tokens, in order |
| Manager.Keys | respect_mcp/respect_manager/artifact_manager.py:873 | the mapping's provisional IDs, in order |
| Manager.AllocateStrictGranted | respect_mcp/respect_manager/artifact_manager.py:1149-1186 | a granted token in the filtered loop also has its step references renamed |
| Manager.AllocateStrictExtends | respect_mcp/respect_manager/artifact_manager.py:1149-1192 | one strict step adds the token's nested entry under the parent, or fails and adds nothing |
| Manager.AllocateAllStrictExtends | respect_mcp/respect_manager/artifact_manager.py:1149-1192 | the filtered loop adds one nested entry per mapped token, and maps every token in order when it does not stop on an error |
| Manager.FilteredAllocations | respect_mcp/respect_manager/artifact_manager.py:1113-1194 | the allocations of the filtered processing over the sorted kept tokens |
| Manager.StrictTainted | respect_mcp/respect_manager/artifact_manager.py:1149-1192 | once an added entry did not read back the filtered run stays marked so |
| Manager.FilteredNothingFound | respect_mcp/respect_manager/artifact_manager.py:1140-1141 | with nothing of an allowed type found nothing is allocated and the text is returned as it was |
| Manager.FilterAllowedTypes | respect_mcp/respect_manager/artifact_manager.py:1128-1138 | the filter keeps exactly the tokens that parse to an allowed type, or all tokens when no list is given |
| Manager.AllocateKeys | respect_mcp/respect_manager/artifact_manager.py:873 | one allocation never maps the empty token |
| Manager.AllocateAllKeys | respect_mcp/respect_manager/artifact_manager.py:858-921 | nor does a loop of them |
| Manager.ProvisionalKeys | respect_mcp/respect_manager/artifact_manager.py:816-923 | the mapping has no empty provisional ID, so it can name the target file |
| Manager.MainOf | respect_mcp/respect_manager/artifact_manager.py:1474-1486 | a main artifact exists exactly when the file's name is a valid provisional name and some new ID starts with its type; it is the first such |
| Manager.FinalizationOf | respect_mcp/respect_manager/artifact_manager.py:1398-1515 | nothing to finalise exactly when nothing was mapped; otherwise the mapping, a target keeping the extension, the right-stripped content with the footer and the main artifact |
| Manager.NothingToFinalizeWithoutTokens | respect_mcp/respect_manager/artifact_manager.py:1446-1454 | a file without provisional IDs is not finalised |
| Manager.FinalizedMainAllocated | respect_mcp/respect_manager/artifact_manager.py:1479-1486 | the main artifact a finalisation reports is one of the entries it allocated |
| Manager.Load | respect_mcp/respect_manager/artifact_manager.py:297-341 | not found exactly when the identifier does not resolve; a success is of a listed artifact; the failures are the not-found, unindexed, no-file and no-section errors |
| Manager.LoadFrom | respect_mcp/respect_manager/artifact_manager.py:297-341 | a success names the file read, the artifact's own file or the one holding its section, and has the root configured; with the root configured it fails and succeeds as `Load`; without it, it fails, with the unset-root error exactly when the ID resolves and is indexed |
| Manager.FileWriteLoads | respect_mcp/respect_manager/artifact_manager.py:297-478 | after overwriting a file artifact's file, loading it gives the new text |
| Manager.SectionWriteLoads | respect_mcp/respect_manager/artifact_manager.py:297-608 | after splicing a section with its heading, loading it gives the new section without trailing whitespace |
| Manager.SameNamesFirstNamed | respect_mcp/respect_manager/artifact_manager.py:404-417 | the file-name walks see only names |
| Manager.Prechecked | respect_mcp/respect_manager/artifact_manager.py:1543-1572 | no artifact exactly when the identifier does not resolve; a passed check carries the resolved ID and the upper-cased status allowed for its type; a refusal carries the type's list, which lacks the status |
| Manager.StatusChecked | respect_mcp/respect_manager/artifact_manager.py:1554-1572 | for a configured type, either the status passes with its upper-cased form allowed, or it is refused with the type's list |
| Manager.ListedFound | respect_mcp/respect_manager/artifact_manager.py:1580 | a listed ID is found by the index's lookup, so the fallback's index update always finds the entry |
| Manager.FailureNoteWarns | respect_mcp/respect_manager/artifact_manager.py:1604-1609 | every failed header rewrite is noted as a warning, never as done |
| Manager.WriteBack | respect_mcp/respect_manager/artifact_manager.py:1596-1601 | the write-back writes exactly the rewritten text, and only a write can fail |
| Manager.HeaderWrite | respect_mcp/respect_manager/artifact_manager.py:1588-1609 | the header rewrite fits the repository |
| Manager.LoadFailedWrite | respect_mcp/respect_manager/artifact_manager.py:1591-1607 | a rewrite whose artifact does not load fails with the load's error |
| Manager.HeaderFailedWrite | respect_mcp/respect_manager/artifact_manager.py:1595-1609 | a rewrite whose header update raises fails with that error |
| Manager.HeaderUpdatedWrite | respect_mcp/respect_manager/artifact_manager.py:1593-1601 | a rewrite whose header update succeeds writes the updated text back |
| Manager.HeaderWriteText | respect_mcp/respect_manager/artifact_manager.py:1588-1609 | what is written is the loaded text with its `STATUS` header set; without the document root the load fails; the rewrite fails exactly when loading, the header update or the write fails |
| Manager.StatusUpdateOf | respect_mcp/respect_manager/artifact_manager.py:1517-1623 | no artifact exactly when the identifier does not resolve; a set status is upper-cased, of a listed ID and allowed for its type; success holds exactly when no error is given |
| Manager.WithReport | respect_mcp/respect_manager/artifact_manager.py:1610-1616 | with a handler the success is the handler's and one update is noted |
| Manager.WithFallback | respect_mcp/respect_manager/artifact_manager.py:1577-1609 | without a handler the success stands and two updates are noted, the second the rewrite's |
| Manager.UnsetOutcome | respect_mcp/respect_manager/artifact_manager.py:1544-1565 | an update refused by the checks answers with them and writes nothing |
| Manager.HandledOutcome | respect_mcp/respect_manager/artifact_manager.py:1576-1616 | an update a handler takes answers with the handler's report over the outcomes it meets, and its file write is the TASKPRD or PRD rewrite of the artifact, none for the other handlers |
| Manager.FallbackOutcome | respect_mcp/respect_manager/artifact_manager.py:1577-1609 | an update without a handler answers with the fallback and writes the header rewrite exactly when it succeeds |
| Manager.StatusWrite | respect_mcp/respect_manager/artifact_manager.py:1577-1609 | a write happens only for an update that passed the checks and fits the repository; off the fallback it is the whole-file rewrite of a TASKPRD or PRD artifact |
| Manager.FallbackSucceeds | respect_mcp/respect_manager/artifact_manager.py:1577-1609 | without a handler the update always succeeds with two notes, and the second says the content was updated exactly when the write happened |
| Manager.HandledNeedsContent | respect_mcp/respect_manager/artifact_manager.py:1610-1616 | with a handler a failure's error is its note, and the update succeeds only if the handler's content step did, which for TASKPRD and PRD means the file was rewritten |
| Manager.ContentRewrite | respect_mcp/respect_manager/artifact_type_handler.py:955-1006 | the TASKPRD and PRD content write succeeds exactly when the root is configured and the artifact loads; it overwrites a whole file with the loaded text after the status header update, and a failure is the load's |
| Manager.ContentRewriteLoads | respect_mcp/respect_manager/artifact_type_handler.py:955-1006 | for a file artifact the rewrite is the overwrite of its own file, after which `get_artifact` loads the rewritten text |
| Manager.ContentRewriteSection | respect_mcp/respect_manager/artifact_type_handler.py:1162-1200 | for an artifact that is a section the rewrite replaces the whole file holding the section with the rewritten section alone |
| Manager.ContentStep | respect_mcp/respect_manager/artifact_type_handler.py:955-1006 | the content step succeeds exactly when the write does, and always carries a message |
| Manager.HandledIndexFound | respect_mcp/respect_manager/artifact_type_handler.py:50-93 | the handler's index update always finds the entry, so it succeeds exactly when the document root is configured |
| Manager.RewriteDecides | respect_mcp/respect_manager/artifact_type_handler.py:426-480 | a TASKPRD or PRD update to a status that moves no file succeeds exactly when the handler rewrites the artifact's file |
| Manager.ArtifactManager.constructor | respect_mcp/respect_manager/artifact_manager.py:24-44 | a manager over the given configuration, index and files read in text mode |
| Manager.ArtifactManager.ResolveArtifactIdentifier | respect_mcp/respect_manager/artifact_manager.py:53-90 | returns the resolution over the index |
| Manager.ArtifactManager.GetArtifactId | respect_mcp/respect_manager/artifact_manager.py:92-129 | returns the new ID or the error; a failure leaves the index as it was; a success whose entry reads back appends it to the index |
| Manager.ArtifactManager.GetNonFileArtifact | respect_mcp/respect_manager/artifact_manager.py:480-524 | returns the section's text |
| Manager.ArtifactManager.FindFile | respect_mcp/respect_manager/artifact_manager.py:404-417 | the two walks return the artifact's file |
| Manager.ArtifactManager.UpdateFileArtifact | respect_mcp/respect_manager/artifact_manager.py:435-478 | returns the file write and applies it, or changes nothing on failure |
| Manager.ArtifactManager.UpdateNonFileArtifact | respect_mcp/respect_manager/artifact_manager.py:526-608 | returns the section write and applies it, or changes nothing on failure |
| Manager.ArtifactManager.UpdateArtifact | respect_mcp/respect_manager/artifact_manager.py:343-395 | returns the planned write and applies it, or changes nothing on failure |
| Manager.ArtifactManager.WriteListed | respect_mcp/respect_manager/artifact_manager.py:381-392 | writes the file of a file artifact, else the prepared section |
| Manager.ArtifactManager.SearchArtifactsByType | respect_mcp/respect_manager/artifact_manager.py:610-704 | returns the search's result over the index |
| Manager.ArtifactManager.AllocateEach | respect_mcp/respect_manager/artifact_manager.py:858-921 | one allocation loop leaves the index and renaming the loop's specification gives, while every entry reads back |
| Manager.ArtifactManager.AllocateOne | respect_mcp/respect_manager/artifact_manager.py:858-890 | one token's allocation, likewise |
| Manager.ArtifactManager.ProcessProvisionalIds | respect_mcp/respect_manager/artifact_manager.py:816-923 | with no tokens nothing changes; otherwise the index, mapping, text and names are the run's, which the allocation lemmas characterise |
| Manager.ArtifactManager.AllocateStrictOne | respect_mcp/respect_manager/artifact_manager.py:1149-1192 | one token of the filtered loop: fails exactly when the step fails, adding nothing; otherwise as specified |
| Manager.ArtifactManager.ProcessProvisionalIdsFiltered | respect_mcp/respect_manager/artifact_manager.py:1113-1194 | with no kept token nothing changes; otherwise the first error is raised or the run's mapping, text and names are returned |
| Manager.ArtifactManager.FinalizeProvisionalFile | respect_mcp/respect_manager/artifact_manager.py:1398-1515 | with no token nothing is finalised and the index is unchanged; otherwise the index is the run's and the result is the finalisation of its mapping and text |
| Manager.ArtifactManager.GetArtifact | respect_mcp/respect_manager/artifact_manager.py:297-341 | returns the loaded text |
| Manager.ArtifactManager.GetArtifactFrom | respect_mcp/respect_manager/artifact_manager.py:297-341 | returns the file read and its text, or the error, as specified |
| Manager.ArtifactManager.UpdateStatusHeader | respect_mcp/respect_manager/artifact_manager.py:1588-1609 | returns the rewrite's note and applies its write exactly when it succeeds |
| Manager.ArtifactManager.WriteBackHeader | respect_mcp/respect_manager/artifact_manager.py:1596-1605 | returns the write-back's note and applies it exactly when it succeeds |
| Manager.ArtifactManager.Precheck | respect_mcp/respect_manager/artifact_manager.py:1543-1572 | returns the checks' result |
| Manager.ArtifactManager.UpdateArtifactStatus | respect_mcp/respect_manager/artifact_manager.py:1517-1623 | returns the specified result; where every write is modelled (no handler, or TASKPRD and PRD) applies exactly the specified file write; the entry found gets the new status when the fallback runs or the handler has the document root, and the index is untouched otherwise |
| Manager.ArtifactManager.Handle | respect_mcp/respect_manager/artifact_type_handler.py:95-125 | the handler's index update sets the status of the entry found when the root is configured and leaves the index untouched otherwise; for TASKPRD and PRD the specified rewrite is applied; returns the specified result |
| Manager.ArtifactManager.RewriteStatusContent | respect_mcp/respect_manager/artifact_type_handler.py:1162-1200 | applies the TASKPRD or PRD rewrite exactly when it succeeds and answers the specified step |
| Manager.ArtifactManager.SetIndexStatus | respect_mcp/respect_manager/artifact_manager.py:1579-1580 | the entry the lookup finds gets the new status and nothing else changes |
| Manager.ArtifactManager.Fallback | respect_mcp/respect_manager/artifact_manager.py:1577-1609 | the status set in the index entry and then in the header, with the specified result |
| HandlerLists.ListReadsBack | respect_mcp/respect_manager/artifact_type_handler.py:571-574 | a list joined from stripped, comma-free entries reads back as those entries |
| HandlerLists.NotedTests | respect_mcp/respect_manager/artifact_type_handler.py:1889-1899 | one output entry per input entry, each the entry with the covering-test note applied |
| HandlerLists.UpdateTestStatusInList | respect_mcp/respect_manager/artifact_type_handler.py:1873-1901 | returns the list with every entry starting with the test's ID given `(<status>)` in place of its old note |
| HandlerLists.NoteEach | respect_mcp/respect_manager/artifact_type_handler.py:1889-1899 | the loop builds the noted entries |
| HandlerLists.LastClose | respect_mcp/respect_manager/artifact_type_handler.py:1895 | the position of the last `)`, with none after it |
| HandlerLists.StatusParen | respect_mcp/respect_manager/artifact_type_handler.py:1895 | the leftmost position where a trailing `(...)` note can begin, none before it |
| HandlerLists.StatusParenOfNoted | respect_mcp/respect_manager/artifact_type_handler.py:1895-1896 | the note the update wrote is the one a later update recognises |
| HandlerLists.NoteTestIdempotent | respect_mcp/respect_manager/artifact_type_handler.py:1891-1896 | noting one entry twice with the same status is noting it once, and the result stays stripped and comma-free |
| HandlerLists.TestStatusListEntries | respect_mcp/respect_manager/artifact_type_handler.py:1886-1901 | the written list splits back into one noted entry per original entry, in order |
| HandlerLists.TestStatusListIdempotent | respect_mcp/respect_manager/artifact_type_handler.py:1873-1901 | updating a covering-test list twice with the same status gives the list of the first update |
| HandlerLists.StableEntries | respect_mcp/respect_manager/artifact_type_handler.py:1886-1901 | every entry of an updated list is clean and left alone by the same update |
| HandlerLists.EntryStable | respect_mcp/respect_manager/artifact_type_handler.py:1891-1896 | the same for one entry |
| HandlerLists.BareId | respect_mcp/respect_manager/artifact_type_handler.py:1582 | the part of an entry before its first ` (` is a prefix of it |
| HandlerLists.BareIdOfNoted | respect_mcp/respect_manager/artifact_type_handler.py:1582-1585 | the bare ID of `task (status)` is the task |
| HandlerLists.Restated | respect_mcp/respect_manager/artifact_type_handler.py:1580-1589 | one output entry per input entry, the task's entries replaced by `task (status)` |
| HandlerLists.UpdateImplementingTaskStatus | respect_mcp/respect_manager/artifact_type_handler.py:1576-1593 | returns the task list with the task's status set, appended when it was missing |
| HandlerLists.RestateEach | respect_mcp/respect_manager/artifact_type_handler.py:1580-1589 | each entry naming the task becomes `task (status)`, the others stay, and the flag says whether any named it |
| HandlerLists.TaskStatusListNames | respect_mcp/respect_manager/artifact_type_handler.py:1576-1593 | afterwards the task is named, every entry naming it carries the new status, and every other entry was in the old list |
| HandlerLists.TaskStatusValueReadsBack | respect_mcp/respect_manager/artifact_type_handler.py:1565-1596 | reading the written header value gives the updated list |
| HandlerLists.TaskStatusValueIdempotent | respect_mcp/respect_manager/artifact_type_handler.py:1565-1596 | writing the same task status twice writes the value of the first update |
| HandlerLists.TaskStatusListFixed | respect_mcp/respect_manager/artifact_type_handler.py:1576-1593 | a list that names the task, each time with the status, is left as it is |
| HandlerLists.InsertByKey | respect_mcp/respect_manager/artifact_type_handler.py:846 | one insertion step adds exactly the new entry |
| HandlerLists.SortByKey | respect_mcp/respect_manager/artifact_type_handler.py:846 | the sort keeps the same entries |
| HandlerLists.SortByKeySorted | respect_mcp/respect_manager/artifact_type_handler.py:846 | the sort orders the entries by key and is a permutation of them |
| HandlerLists.SortByKeyStable | respect_mcp/respect_manager/artifact_type_handler.py:846 | the sort is stable: the entries of each key keep their input order |
| HandlerLists.InsertStable | respect_mcp/respect_manager/artifact_type_handler.py:846 | an insertion into a sorted list keeps the entries of each key in order, the new entry last among those of its key |
| HandlerLists.CountPermutation | respect_mcp/respect_manager/artifact_type_handler.py:846 | a permutation names the task as often as the original |
| HandlerLists.AddImplementingTask | respect_mcp/respect_manager/artifact_type_handler.py:832-846 | returns the task list with the task added when missing, sorted by bare ID |
| HandlerLists.FindTask | respect_mcp/respect_manager/artifact_type_handler.py:833-838 | the search finds the task exactly when some entry names it |
| HandlerLists.ImplementingTasksCorrect | respect_mcp/respect_manager/artifact_type_handler.py:813-846 | the result is sorted by bare ID and a permutation of the entries, plus the task exactly when it was missing; a missing task then appears once; entries with the same bare ID keep their order, an added task after them |
| HandlerLists.WithReferenceCorrect | respect_mcp/respect_manager/artifact_type_handler.py:569-584 | nothing to add exactly when the ID is listed; otherwise the new list is sorted, a permutation of the old plus the ID, and holds the ID once |
| HandlerText.MarkStep | respect_mcp/respect_manager/artifact_type_handler.py:1401-1422 | the scan returns the check-off of the first open line of the step; the UACC and SACC handlers run the same scan |
| HandlerText.MarkStepLinesCorrect | respect_mcp/respect_manager/artifact_type_handler.py:1401-1422 | the check-off fails exactly when no line is `[ ] <step> <text>`; otherwise only the first such line changes, to `[x] <step> <text>`, and one open line of the step fewer remains |
| HandlerText.MarkStepDoneLines | respect_mcp/respect_manager/artifact_type_handler.py:1401-1422 | the written text splits back into the ticked lines |
| HandlerText.MarkStepTwice | respect_mcp/respect_manager/artifact_type_handler.py:1401-1422 | with one open line of the step the check-off succeeds and a second one of the same step fails |
| HandlerText.TaskDisjoint | respect_mcp/respect_manager/artifact_type_handler.py:734-742 | no line both opens the task's section and closes it |
| HandlerText.ExtractTaskSection | respect_mcp/respect_manager/artifact_type_handler.py:718-747 | the loop returns the task's section |
| HandlerText.TaskLinesAre | respect_mcp/respect_manager/artifact_type_handler.py:718-747 | the section is empty exactly when no line opens it; otherwise it runs from the first `### <task>:` line up to the next `### TASK-` line of another task |
| HandlerText.DigitRunEnd | respect_mcp/respect_manager/artifact_type_handler.py:772 | the end of a maximal run of ASCII digits |
| HandlerText.ReqMatchEnd | respect_mcp/respect_manager/artifact_type_handler.py:772-773 | a match of `\bREQ-(\d+)\b` ends after at least one digit and within the text |
| HandlerText.ReqGroupsAre | respect_mcp/respect_manager/artifact_type_handler.py:772-773 | each group read is the digits of a whole-word match, and every match not overlapping an earlier one is read |
| HandlerText.ReqIds | respect_mcp/respect_manager/artifact_type_handler.py:776-777 | one `REQ-<group>` per group, in order |
| HandlerText.ImplementsTextOf | respect_mcp/respect_manager/artifact_type_handler.py:764-769 | the stripped text after the marker on the first `*Implements*:` line, none without one |
| HandlerText.ReqIdsAre | respect_mcp/respect_manager/artifact_type_handler.py:772-777 | an ID is read exactly when it occurs as a whole-word `REQ-<digits>`, and every ID read has that form |
| HandlerText.ReqImplementationsAre | respect_mcp/respect_manager/artifact_type_handler.py:749-780 | without an `*Implements*:` line nothing is read; otherwise an ID is read exactly when it occurs as a whole word in that line's text |
| HandlerText.ExtractReqImplementations | respect_mcp/respect_manager/artifact_type_handler.py:749-780 | the scan returns the requirement IDs of the first `*Implements*:` line |
| HandlerText.PrefixGroups | respect_mcp/respect_manager/artifact_type_handler.py:776-777 | the loop prefixes each group with `REQ-` |
| HandlerText.FindParentPrd | respect_mcp/respect_manager/artifact_type_handler.py:543-556 | the loop returns the parent read from the first `*Parent*:` line |
| HandlerText.ParentPrdClean | respect_mcp/respect_manager/artifact_type_handler.py:543-558 | a parent found is non-empty, stripped and has no colon |
| HandlerText.ParentOnReads | respect_mcp/respect_manager/artifact_type_handler.py:548-555 | a line `*Parent*: <id>: <title>` gives `<id>` back |
| HandlerHeaders.Underscored | respect_mcp/respect_manager/artifact_type_handler.py:290 | every space replaced by `_`, every other character kept |
| HandlerHeaders.HeaderKeyUniform | respect_mcp/respect_manager/artifact_type_handler.py:274-291 | the five named keys translate as the upper-case, underscored rule used for any other key |
| HandlerHeaders.SpelledKey | respect_mcp/respect_manager/artifact_type_handler.py:290 | a key spelled character by character is its upper-case, underscored form |
| HandlerHeaders.HeaderUpdatesDict | respect_mcp/respect_manager/artifact_type_handler.py:274-291 | the translated updates act as the dictionary built: each key once, holding the value of its last update |
| HandlerHeaders.FirstKey | respect_mcp/respect_manager/artifact_type_handler.py:326-330 | the first known key whose `key:` begins the line |
| HandlerHeaders.RunEnd | respect_mcp/respect_manager/artifact_type_handler.py:320-333 | the end of a maximal run of lines with the property |
| HandlerHeaders.RunEndIs | respect_mcp/respect_manager/artifact_type_handler.py:320-333 | a run ended by a line outside it, or by the end, is that maximal run |
| HandlerHeaders.MatchKey | respect_mcp/respect_manager/artifact_type_handler.py:326-333 | the inner loop finds the first key matching the line |
| HandlerHeaders.ScanMetadata | respect_mcp/respect_manager/artifact_type_handler.py:316-333 | the scan records the metadata lines after the header line by key, and their positions are exactly 1 up to the run's end |
| HandlerHeaders.MergeUpdates | respect_mcp/respect_manager/artifact_type_handler.py:336-338 | the existing lines, overridden by each update in turn as `key: value` |
| HandlerHeaders.RemoveScanned | respect_mcp/respect_manager/artifact_type_handler.py:341-342 | after the pops the header line is followed by the lines after the run |
| HandlerHeaders.InsertInOrder | respect_mcp/respect_manager/artifact_type_handler.py:345-349 | the merged lines are inserted after the header line in the order Status, Referenced by |
| HandlerHeaders.LegacyManageHeaderMetadataLines | respect_mcp/respect_manager/artifact_type_handler.py:301-351 | returns the legacy rewrite of the lines |
| HandlerHeaders.LegacyStatus | respect_mcp/respect_manager/artifact_type_handler.py:301-351 | a Status update becomes the line right after the header line |
| HandlerHeaders.LegacyReference | respect_mcp/respect_manager/artifact_type_handler.py:301-351 | a Referenced-by update follows the header line and the Status line, if any |
| HandlerHeaders.LegacyKeeps | respect_mcp/respect_manager/artifact_type_handler.py:301-351 | the header line and every line after the metadata run are kept |
| HandlerHeaders.LegacyIdempotent | respect_mcp/respect_manager/artifact_type_handler.py:301-351 | running the legacy rewrite again with the same updates changes nothing |
| HandlerHeaders.ScanWritten | respect_mcp/respect_manager/artifact_type_handler.py:316-349 | scanning the written block finds, per key, the line written for it |
| HandlerHeaders.Get | respect_mcp/respect_manager/artifact_type_handler.py:813-886 | a dictionary read with the empty string as default |
| HandlerHeaders.ManageOutcome | respect_mcp/respect_manager/artifact_type_handler.py:262-299 | a non-blank text of a detected type takes the managed update, which succeeds; any other falls back to the legacy rewrite |
| HandlerHeaders.ManagedOutcome | respect_mcp/respect_manager/artifact_type_handler.py:272-293 | the managed half |
| HandlerHeaders.LegacyOutcome | respect_mcp/respect_manager/artifact_type_handler.py:295-299 | the fallback half |
| HandlerHeaders.MetadataCases | respect_mcp/respect_manager/artifact_type_handler.py:262-299 | the result is the managed update when it succeeds and the legacy rewrite when it fails |
| HandlerHeaders.ManageReadsBack | respect_mcp/respect_manager/artifact_type_handler.py:262-299 | on the managed path the result reads back with the same header line and body and the translated updates applied |
| HandlerHeaders.TaskPrdStatusWritten | respect_mcp/respect_manager/artifact_type_handler.py:955-1006 | a TASKPRD status update reads back as the STATUS update on the managed path, and writes `Status: <status>` as the second line otherwise |
| HandlerHeaders.TaskPrdManaged | respect_mcp/respect_manager/artifact_type_handler.py:976-983 | the managed half |
| HandlerHeaders.TaskPrdLegacy | respect_mcp/respect_manager/artifact_type_handler.py:976-983 | the legacy half |
| HandlerHeaders.LegacyStatusOnly | respect_mcp/respect_manager/artifact_type_handler.py:301-351 | a Status update alone is written as the second line |
| HandlerHeaders.StatusUpdates | respect_mcp/respect_manager/artifact_type_handler.py:276-277 | a Status update translates to the STATUS key |
| HandlerHeaders.StatusReferencesUpdates | respect_mcp/respect_manager/artifact_type_handler.py:276-279 | Status and Referenced-by updates translate to STATUS and REFERENCED_BY, in order |
| HandlerHeaders.RemoveAll | respect_mcp/respect_manager/artifact_type_handler.py:1181 | removing every occurrence never lengthens the text nor adds a character |
| HandlerHeaders.RemoveAllAbsent | respect_mcp/respect_manager/artifact_type_handler.py:1181 | a text without the word is left as it is |
| HandlerHeaders.PrdStatusUpdates | respect_mcp/respect_manager/artifact_type_handler.py:1178-1182 | the Status update comes first |
| HandlerHeaders.CollectPrdUpdates | respect_mcp/respect_manager/artifact_type_handler.py:1178-1182 | the loop returns the Status update and the references of the first reference line after the header line |
| HandlerHeaders.StatusAndReferencesWritten | respect_mcp/respect_manager/artifact_type_handler.py:262-293 | a Status and a references update read back as the STATUS then the REFERENCED_BY update of the parsed headers |
| HandlerHeaders.PrdStatusWritten | respect_mcp/respect_manager/artifact_type_handler.py:1162-1208 | on the managed path a PRD status update reads back as the STATUS update, followed by the REFERENCED_BY update with the kept references when a reference line was found |
| HandlerHeaders.LegacyStatusAndReferences | respect_mcp/respect_manager/artifact_type_handler.py:301-351 | Status and references are written as the second and third lines |
| HandlerHeaders.PrdStatusLegacy | respect_mcp/respect_manager/artifact_type_handler.py:1162-1208 | on the legacy path the Status line follows the header line and a found reference line is written after it with the kept references |
| Handlers.GetHandler | respect_mcp/respect_manager/artifact_type_handler.py:2245-2268 | a handler found is the one whose type is the upper-cased type |
| Handlers.TableIsSupported | respect_mcp/respect_manager/artifact_type_handler.py:2245-2289 | the table lists exactly the supported types, each for the class reporting it |
| Handlers.GetHandlerIff | respect_mcp/respect_manager/artifact_type_handler.py:2256-2280 | a handler exists exactly for the supported types, in any letter case, and the existence check agrees with the lookup |
| Handlers.GetHandlerOfCode | respect_mcp/respect_manager/artifact_type_handler.py:2245-2268 | every handler class is handed out for the type it reports |
| Handlers.HandlerForId | respect_mcp/respect_manager/artifact_type_handler.py:2303-2307 | an ID without a dash has no handler; otherwise the handler of the text before its first dash |
| Handlers.HandlerForIdCode | respect_mcp/respect_manager/artifact_type_handler.py:2303-2307 | the handler found for an ID reports the ID's upper-cased type |
| Handlers.IndexStep | respect_mcp/respect_manager/artifact_type_handler.py:50-93 | the index update succeeds exactly when the document root is configured and the entry is found, and always carries a message and no path |
| Handlers.MoveStep | respect_mcp/respect_manager/artifact_type_handler.py:199-260 | an ID of no configured type fails; a status outside the type's move list moves nothing and says so; otherwise the move's outcome |
| Handlers.CombineUpdateResults | respect_mcp/respect_manager/artifact_type_handler.py:163-197 | successful exactly when the content step is, with its file path, and the message opens with the index note |
| Handlers.IndexWarningIff | respect_mcp/respect_manager/artifact_type_handler.py:163-197 | the combined message opens with `Warning: ` exactly when the index update failed |
| Handlers.IndexNoteWarns | respect_mcp/respect_manager/artifact_type_handler.py:179-183 | the index note is a warning exactly when the index update failed |
| Handlers.MoveUpdate | respect_mcp/respect_manager/artifact_type_handler.py:426-483 | the TASKPRD and PRD update succeeds exactly when the content update and the move do; the index and content steps are always noted, the move only when it did something |
| Handlers.CoveringUpdate | respect_mcp/respect_manager/artifact_type_handler.py:1715-1772 | the UACC and SACC update succeeds exactly when the content update does; a covering-test failure is noted but decides nothing |
| Handlers.UpdateStatus | respect_mcp/respect_manager/artifact_type_handler.py:95-125 | for every handler class a successful update had a successful content update |
| Handlers.IndexNeverDecides | respect_mcp/respect_manager/artifact_type_handler.py:95-125 | whatever the index answers, the update succeeds or fails alike |
| Handlers.NoMoveStatus | respect_mcp/respect_manager/artifact_type_handler.py:221-223 | for TASKPRD and PRD, a status outside the move list succeeds exactly when the content update does, with two notes |
| Handlers.NoMoveUnnoted | respect_mcp/respect_manager/artifact_type_handler.py:221-223 | the answer for a status that moves nothing adds no note |
| Handlers.HandleStatusUpdate | respect_mcp/respect_manager/artifact_type_handler.py:2292-2309 | no result for an ID without a dash; a result exactly when the ID's type has a handler, and then its update |
| Handlers.HandledNeedsContent | respect_mcp/respect_manager/artifact_type_handler.py:2292-2309 | an update of a supported type is handled, and succeeds only when its content update did |
| Handlers.DefaultFinalize | respect_mcp/respect_manager/artifact_type_handler.py:27-48 | the default finalisation reports completion under the class's type and the given ID |
| Handlers.HandleFinalization | respect_mcp/respect_manager/artifact_type_handler.py:2312-2329 | a result exactly for the supported types; a class without its own finalisation reports completion under the type |
| Handlers.DefaultMarkStep | respect_mcp/respect_manager/artifact_type_handler.py:143-161 | the default step check-off fails, naming the class's type |
| Handlers.MarkStepDone | respect_mcp/respect_manager/artifact_type_handler.py:143-161 | a result exactly for the supported types; a class that does not override `mark_step_done` refuses under the type's own code; only TASK, UACC and SACC check off steps |
| Handlers.AddReference | respect_mcp/respect_manager/artifact_type_handler.py:353-422 | a success passes every check: the target's type lists the referencing type, the target loaded with a file path, and the written text is its header with REFERENCED_BY updated |
| Handlers.AddReferenceIff | respect_mcp/respect_manager/artifact_type_handler.py:353-422 | the reference is added exactly when every check passes, with that path and text |
| Handlers.NoReferenceTypesRefuse | respect_mcp/respect_manager/artifact_type_handler.py:366-376 | a target type without reference types refuses every reference before loading the target |
| Nested.SpaceEnd | respect_mcp/respect_manager/artifact_type_handler.py:1260 | the end of a maximal run of whitespace |
| Nested.VersionEnd | respect_mcp/respect_manager/artifact_type_handler.py:1260 | the end of a maximal run of digits and dots |
| Nested.FooterMarks | respect_mcp/respect_manager/artifact_type_handler.py:1260 | marks exactly the positions where the version footer matches |
| Nested.FindFooter | respect_mcp/respect_manager/artifact_type_handler.py:1260-1263 | the leftmost position where the version footer matches, none when it matches nowhere |
| Nested.LastLineEnd | respect_mcp/respect_manager/artifact_type_handler.py:1280 | the last position in a range where a multi-line end anchor holds, none when it holds nowhere there |
| Nested.HeaderEndAt | respect_mcp/respect_manager/artifact_type_handler.py:1280 | a match of the section header line from a position ends after it, within the text |
| Nested.HeaderEnds | respect_mcp/respect_manager/artifact_type_handler.py:1280-1281 | the end of the header match from each position |
| Nested.FindHeader | respect_mcp/respect_manager/artifact_type_handler.py:1280-1281 | the leftmost header match and its end, none before it |
| Nested.HeadingMarks | respect_mcp/respect_manager/artifact_type_handler.py:1302 | marks exactly the positions where a top-level heading starts |
| Nested.FindTopHeading | respect_mcp/respect_manager/artifact_type_handler.py:1302 | the leftmost top-level heading, none before it |
| Nested.SectionEnd | respect_mcp/respect_manager/artifact_type_handler.py:1300-1311 | the insertion point lies within the text |
| Nested.AddNestedArtifact | respect_mcp/respect_manager/artifact_type_handler.py:1211-1328 | a success passes every check: the parent is a PRD, the normalised type is addable, the PRD loaded with a file path, and the new text is the old with the content inserted |
| Nested.AddNestedIff | respect_mcp/respect_manager/artifact_type_handler.py:1211-1328 | the call succeeds exactly when every check passes, and then writes that text |
| Nested.NoNestedTypesRefuse | respect_mcp/respect_manager/artifact_type_handler.py:1236-1240 | a PRD type with no addable nested types refuses every nested artifact, with the type-not-allowed error for a valid type |
| Nested.IntoSectionKeeps | respect_mcp/respect_manager/artifact_type_handler.py:1313-1316 | inserting into the section keeps the text on both sides, losing only whitespace at the seam |
| Nested.BeforeFooterKeeps | respect_mcp/respect_manager/artifact_type_handler.py:1263-1267 | creating the section before the footer keeps the text on both sides |
| Nested.AppendSectionKeeps | respect_mcp/respect_manager/artifact_type_handler.py:1270-1275 | appending a new section keeps the whole old text in front of it |
| Nested.NewSectionKeeps | respect_mcp/respect_manager/artifact_type_handler.py:1256-1275 | creating the section keeps the old text on either path |
| Nested.SectionHeaderMatched | respect_mcp/respect_manager/artifact_type_handler.py:1255-1282 | a PRD with a section header line always has a header match, so the code's fallback is never taken |
| Nested.NestedKeepsText | respect_mcp/respect_manager/artifact_type_handler.py:1251-1316 | the new text keeps all of the old one around the stripped content, under a new section header when the PRD had none |

## Left out

- File system: `rglob` is read as one fixed walk order of the repository's files. `read_text` and `write_text` are reads and writes of that value. `mkdir`, `unlink` and `Path.exists` are not modelled.
- References.ScanContentReferences and References.ScanFiles: a file `read_text` cannot decode or open is skipped by the source (`respect_mcp/respect_manager/artifact_manager.py:235-238`). The model reads every file, so that skip is not modelled. The same holds for the other walks over the repository.
- Concurrency: the `fcntl` lock around `add_artifact` is not modelled. IndexLedger.Ledger.AddArtifact is one atomic method instead.
- Environment and configuration: `RESPECT_DOC_REPO_ROOT`, `RESPECT_PROVISIONAL_DOC_STORE` and the JSON loading and validation of the type, status and header-item configurations are not modelled. The registry and the header items are given values. Whether the document root is set reaches the status update as a flag: Handlers.IndexStep and the loads of Manager.LoadFrom read it. The other uses of `get_artifact` (Manager.Load) assume the root is set.
- Text.Upper, Text.Lower, Text.IsDigit and Text.IsWordChar are ASCII-only. Python's full Unicode case mapping (`"ß".upper() == "SS"`), Unicode digits under `\d` and `isdigit`, and Unicode word characters under `\b` are not modelled. Identifiers are assumed to be ASCII. Every member built on these inherits the limit, including TypeRegistry.ValidateAndNormalizeType, TypeRegistry.TypeFromId, TypeRegistry.FindProvisionalIds, HandlerHeaders.HeaderKeyUniform, Naming.SanitizeForm, References.LineRefs and HandlerText.ReqIdsAre.
- TypeRegistry.ProvisionalTokensSound, TypeRegistry.ProvisionalTokensComplete, TypeRegistry.NoTokenInside: the parse half of the first, and the other two, are proved only for a registry whose codes are distinct upper-case words (Registry.Valid). The configuration loader (`respect_mcp/respect_manager/artifact_type_manager.py:78-92`) does not check this. With a code such as `AC2` a reported token may fail to parse, and one token may start inside another. TypeRegistry.FindProvisionalIds itself is exact for any codes.
- The general `re` engine: only the specific patterns of the source are written out, as matchers on positions.
- Logging, the wording of messages and suggestions, and the dictionary shape of results: results carry the success flag, the payload and the error kind. The suggestion kinds of TypeRegistry.ValidateArtifactIdFormat are kept, but not their text. The JSON text of `validate_provisional_filename` is not modelled.
- Generic `except Exception` handlers: an error the model cannot raise is not modelled. The exceptions the source raises on purpose are modelled as `Failure` values, for example in `update_managed_header` and `_process_provisional_ids_filtered`.
- IndexLedger.Ledger.AddArtifact, IndexLedger.Ledger.AppendArtifact, Manager.ArtifactManager.GetArtifactId, Manager.ArtifactManager.AllocateEach, Manager.ArtifactManager.AllocateOne, Manager.ArtifactManager.ProcessProvisionalIds, Manager.ArtifactManager.AllocateStrictOne, Manager.ArtifactManager.ProcessProvisionalIdsFiltered and Manager.ArtifactManager.FinalizeProvisionalFile state the new ledger contents only when every entry added is clean. A clean entry has a digit document ID, a non-empty artifact ID, and stripped columns without line breaks within the CSV field-size limit, so it reads back as itself. For other entries the ledger text is still the one written, but its parsed entries are not characterised.
- Manager.ArtifactManager.FinalizeProvisionalFile: locating the provisional file, creating the target directory, writing the new file and deleting the old one are not modelled (`respect_mcp/respect_manager/artifact_manager.py:1398-1515`). The same goes for the call to `handle_artifact_finalization` that follows. The member returns the mapping, the target name, the final content and the main artifact.
- The `finalize` methods of `TaskPRDHandler` and `PRDHandler` (`respect_mcp/respect_manager/artifact_type_handler.py:485-716`, `1071-1160`) read and write several artifacts on a best-effort basis. Only their pieces are modelled: the `*Parent*:` lookup (HandlerText.FindParentPrd), the referenced-by list (HandlerLists.WithReferenceCorrect) and the dispatch (Handlers.HandleFinalization, which takes the custom report as a parameter).
- The per-type `update_status_content` steps of REQ, TASK, UACC and SACC, and `_update_covering_tests`, are not modelled as file rewrites. Their outcomes reach Handlers.UpdateStatus as parameters. The list values they write are modelled by HandlerLists.UpdateTestStatusInList, HandlerLists.UpdateImplementingTaskStatus and HandlerLists.AddImplementingTask. The header blocks these steps rebuild by hand around those values are not modelled (`respect_mcp/respect_manager/artifact_type_handler.py:860-881`, `1600-1631`, `1774-1858`).
- Manager.ArtifactManager.UpdateArtifactStatus: for REQ, TASK, UACC and SACC IDs the handler's content step and `_update_covering_tests` write files that this model does not rewrite. The member therefore states the repository's files after the call only under Manager.WritesModelled: when no handler takes the ID, or when the TASKPRD or PRD handler does. For the other handlers it promises nothing about the files.
- `_move_file_for_status`: the type and status checks are modelled in Handlers.MoveStep. The move itself comes in as the outcome of a step. The move puts the file in a status directory under the same name and with the same text, so the model's repository of names and texts is unchanged by it. The walk order after the move is not modelled.
- The `mark_step_done` methods: the loading of the artifact and the write back through `_update_non_file_artifact` are not modelled. HandlerText.MarkStep models the text change, which is the same in the TASK, UACC and SACC handlers. Handlers.MarkStepDone takes the overriding classes' outcome as a parameter.
- The MCP server and the template manager are outside the consistency engine.
