# companygpt back-end cores in Dafny

A model of the small pieces of original logic in the companygpt back end.
They are the MCP tool servers and the web host that an LLM agent calls. Each
outside system is replaced by a value or an oracle parameter:

- **Document generation** (`docgeneration.py`) is modelled in four files.
  - `docnames.dfy`: the filename sanitiser, the timestamped file name and
    `combine_placeholders`.
  - `deck.dfy`: how `generate_ppt` fills template placeholders.
  - `docgeneration.dfy`: the `generated_docs` memo shared by the Word, Excel
    and PowerPoint tools, and the cleanup tool.
  - `slidekey.dfy`: a structural presentation fingerprint. It is the
    corrected variant of the fingerprint (see Findings).

  The process state is a value: the memo, plus the files of the temporary
  directory. SHA-256 is an uninterpreted `hash` function. The UTC clock
  reading is a parameter. A failure of pandas, python-docx or python-pptx is
  a `fault` parameter. The memo tools are written over a `Scheme`:
  `AsWritten` names files and fingerprints decks as the source does, and
  `Corrected` applies the three corrections under Findings.
- **Calendar** (`calender.py`, `calendar.dfy`). The event list is a
  sequence. Every tool returns the new list with its reply.
- **Employee directory** (`employeedetails.py`, `employees.dfy`). A
  read-only employee list with case-insensitive first-match lookup and the
  holiday lookups.
- **Help desk** (`helpdesk.py`, `helpdesk.dfy`). The "tickets" table is a
  sequence of rows in insertion order. Its primary key on `id` is the
  `UniqueIds` invariant, which every tool keeps. An error raised by the
  database client is a `fault` parameter.
- **Document lookup** (`docingestor.py`, `docingestor.dfy`).
  - The folder listing is a parameter, and so are the PDF loader (file name
    to page texts) and difflib's `get_close_matches` (at most one candidate).
  - The model covers filename resolution, page lookup and the page records
    the ingestor builds before splitting.
  - The two listing filters disagree. `resolve_filename` lower-cases before
    testing for ".pdf"; `persist_documents_from_folder` does not. So a
    "report.PDF" can be read page by page but is never ingested
    (`DocIngestor.UpperCaseSuffixNotIngested`).
- **Session store** (`host.py`, `sessions.dfy`). `agent_store` is a map
  from session id to an opaque agent. The three endpoints are
  transitions. The `uuid4` id and the agent's `run` are parameters.

Shared vocabulary sits in `common.dfy` and `text.dfy`:
- `Option`, a filter with its order and membership lemmas, and a numbered
  flat-map;
- ASCII character classes, lower-casing, join/split, and decimal
  printing and parsing.

The inline comments at `docgeneration.py` lines 147 and 149 call the text
written into placeholder index 0 the "heading or title" and the one
written into index 10 the "content". The assignments themselves write
`placeholders[1]` into index 0 and `placeholders[0]` into index 10, and
the model follows the assignments. The guard for index 0 only checks that
there is at least one text. A slide with a single text therefore raises
an index error for every index-0 placeholder, which is logged and
swallowed (`Deck.SingleTextSlideWarns`).

## Model

| member | source | states |
|---|---|---|
| DocNames.SanitizeFilename | backend/mcp-servers/docgeneration.py:40-45 | The stem is `text[:max_length]` of the words of the text joined by `_`, once line breaks are spaces and disallowed characters are gone; "document" exactly when that slice is empty. It is never empty, holds only word characters, `-` and `_`, and has at most `max_length` characters when `max_length >= 8`. |
| DocNames.ReplaceLineBreaks | backend/mcp-servers/docgeneration.py:41 | Same length; each `\n` and `\r` becomes a space and every other character is kept in place. |
| DocNames.DropDisallowed | backend/mcp-servers/docgeneration.py:42 | A character remains exactly when it occurs in the text and is a `\w`, `\s` or `-` character (the separators U+001C to U+001F count as `\s`); a text of such characters is left unchanged. |
| DocNames.CollapseSpace | backend/mcp-servers/docgeneration.py:43 | The result is empty exactly when the text is, and starts with a space exactly when the text starts with white space, else with the same character. |
| DocNames.CollapseNoAdjacentSpaces | backend/mcp-servers/docgeneration.py:43 | After `re.sub(r'\s+', ' ', s)` no two white-space characters are adjacent. |
| DocNames.CollapseKeepsNonSpace | backend/mcp-servers/docgeneration.py:43 | The collapse keeps every non-space character, in order, and adds none. |
| DocNames.CollapseWordFirst | backend/mcp-servers/docgeneration.py:43 | For a text starting with a non-space character, the collapse is its words separated by single spaces, plus one space when the text ends with white space. |
| DocNames.CollapseIsWords | backend/mcp-servers/docgeneration.py:43 | `re.sub(r'\s+', ' ', s).strip()` equals `' '.join(s.split())`. |
| DocNames.Strip | backend/mcp-servers/docgeneration.py:43 | The result is no longer than the text and neither starts nor ends with white space. |
| DocNames.StripPadded | backend/mcp-servers/docgeneration.py:43 | `strip` of white space, a text with non-space ends, and white space is exactly that text: only edge white space is removed. |
| DocNames.SpacesToUnderscores | backend/mcp-servers/docgeneration.py:44 | Same length; each space becomes `_` and every other character is kept in place. |
| DocNames.PySlicePrefix | backend/mcp-servers/docgeneration.py:45 | Python's `text[:n]`: a prefix of length `min(n, len)` for `n >= 0`, and `len + n` (at least 0) characters for negative `n`. |
| DocNames.Clean | backend/mcp-servers/docgeneration.py:41-44 | The four replacement steps give the words of the filtered text (Python's `split()`) joined by `_`, and that is always a safe name. |
| DocNames.UnderscoreJoin | backend/mcp-servers/docgeneration.py:44 | Replacing the spaces of space-joined words by `_` is joining them with `_`. |
| DocNames.SafeWords | backend/mcp-servers/docgeneration.py:42-44 | Every word of a text of allowed characters holds only word characters and `-`. |
| DocNames.LeadingSpaces | backend/mcp-servers/docgeneration.py:43 | The count of leading white space: every counted character is white space and the next one, if any, is not. |
| DocNames.ContentEnd | backend/mcp-servers/docgeneration.py:43 | The end of the text without its trailing white space: everything after it is white space and the character before it is not. |
| Text.Words | backend/mcp-servers/docgeneration.py:43 | Python's `split()`: non-empty words without white space, the first being the leading non-space run. |
| DocNames.SanitizeIdempotent | backend/mcp-servers/docgeneration.py:40-45 | When `max_length >= 8`, sanitising a sanitised stem gives it back unchanged. |
| DocNames.CleanFixesSafeNames | backend/mcp-servers/docgeneration.py:41-44 | A safe name passes through every replacement step unchanged. |
| DocNames.EarlyStepsFixSafeNames | backend/mcp-servers/docgeneration.py:41-43 | A safe name is unchanged by the line-break replacement, the deletion and the collapsing. |
| DocNames.LateStepsFixSafeNames | backend/mcp-servers/docgeneration.py:43-44 | A safe name is unchanged by `strip` and by the underscore replacement. |
| DocNames.CollapseSingleSpaces | backend/mcp-servers/docgeneration.py:43 | Text whose only white space is isolated plain spaces is unchanged by the `\s+` collapse. |
| DocNames.SanitizeIgnoresPunctuation | backend/mcp-servers/docgeneration.py:41-45 | Inserting a deleted character anywhere in a text does not change its stem. |
| DocNames.SanitizeIgnoresTrailing | backend/mcp-servers/docgeneration.py:41-45 | Appending a deleted character does not change the stem. |
| DocNames.KeptIgnoresPunctuation | backend/mcp-servers/docgeneration.py:41-42 | After the first two steps, a text with an extra deleted character is the text without it. |
| DocNames.LineBreaksAround | backend/mcp-servers/docgeneration.py:41 | The line-break replacement works piece by piece around a character that is not a line break. |
| DocNames.ReplaceLineBreaksConcat | backend/mcp-servers/docgeneration.py:41 | The line-break replacement distributes over concatenation. |
| DocNames.FilterDropsOne | backend/mcp-servers/docgeneration.py:42 | The deletion removes a disallowed character wherever it sits. |
| DocNames.SanitizeFallsBack | backend/mcp-servers/docgeneration.py:45 | A text with no word character, space, hyphen or line break sanitises to "document". |
| DocNames.FormatTimestamp | backend/mcp-servers/docgeneration.py:51 | `%Y%m%d%H%M%S` of a valid clock reading is exactly 14 digits. |
| DocNames.ParseFormatTimestamp | backend/mcp-servers/docgeneration.py:51 | The 14 digits read back as the clock reading they were printed from. |
| DocNames.ParseTimestamp | backend/mcp-servers/docgeneration.py:51 | Reading 14 digits back only yields valid clock readings. |
| DocNames.TimestampedFilename | backend/mcp-servers/docgeneration.py:50-52 | The name is the base, `_`, 14 digits, `.` and the extension, at these exact positions. |
| DocNames.TimestampedFilenameParses | backend/mcp-servers/docgeneration.py:50-52 | The 14 digits of the name read back as the clock reading the name was made with. |
| DocNames.CombineSlide | backend/mcp-servers/docgeneration.py:56-61 | The layout is kept. The title is `placeholders[0]`, or "" when there is none. There are one or two entries, and one when the slide had at most one text. |
| DocNames.CombinePlaceholders | backend/mcp-servers/docgeneration.py:54-63 | One combined slide per slide, in order, each with its layout. |
| DocNames.CombineSlideLossless | backend/mcp-servers/docgeneration.py:57-61 | For texts without line feeds, combining loses nothing: the title and the `\n`-split second entry give back every original text. |
| DocNames.SlideTexts | backend/mcp-servers/docgeneration.py:117 | One space-joined text per slide, in order. |
| DocNames.JoinedTextIgnoresLayout | backend/mcp-servers/docgeneration.py:117 | Slide lists with the same texts slide by slide have the same fingerprint text, whatever their layouts. |
| Deck.PyIndex | backend/mcp-servers/docgeneration.py:141 | A Python index into the layouts that does not raise picks a real layout; a non-negative index picks itself. |
| Deck.AssignPlaceholder | backend/mcp-servers/docgeneration.py:144-151 | Index 0 gets the second text, and fails with one text. Index 10 gets the first text when there are two or more. A refused assignment fails. No other placeholder is touched. |
| Deck.Assignments | backend/mcp-servers/docgeneration.py:144 | The plan assigns each placeholder of the slide by the fixed mapping. |
| Deck.WrittenTexts | backend/mcp-servers/docgeneration.py:147-149 | Each placeholder holds the text written into it, or nothing. |
| Deck.FailuresFrom | backend/mcp-servers/docgeneration.py:150-151 | There are no more warnings than placeholders. |
| Deck.FailuresFromExact | backend/mcp-servers/docgeneration.py:150-151 | A warning is logged for a placeholder exactly when its assignment failed. |
| Deck.FailuresFromAfter | backend/mcp-servers/docgeneration.py:150-151 | No warning names a position before the first one scanned. |
| Deck.RenderSlide | backend/mcp-servers/docgeneration.py:140-154 | An invalid layout index skips the slide with one warning. Otherwise one slide with that layout is added, with one entry per placeholder of the layout. |
| Deck.RenderDeckConcat | backend/mcp-servers/docgeneration.py:136-154 | Slides are rendered independently: the deck and the warnings of a concatenation are those of its parts. |
| Deck.RenderDeckSingle | backend/mcp-servers/docgeneration.py:136-154 | The deck of one slide is that slide's rendering. |
| Deck.BadSlideIsSkipped | backend/mcp-servers/docgeneration.py:153-154 | A slide with a bad layout costs only itself: the slides around it render as if it were absent, and its failure is logged. |
| Deck.TwoTextMapping | backend/mcp-servers/docgeneration.py:146-149 | On a layout with placeholders idx 10 and idx 0, a two-text slide puts the first text in idx 10 and the second in idx 0, with no warning. |
| Deck.SingleTextSlideWarns | backend/mcp-servers/docgeneration.py:146-147 | With a single text, every idx-0 placeholder stays empty and gets a warning. |
| DocGeneration.NameInJoinPath | backend/mcp-servers/docgeneration.py:91 | For a name not starting with `/`, the file name is recovered from `os.path.join(TEMP_DIR, name)`. |
| DocGeneration.ArtifactNameShape | backend/mcp-servers/docgeneration.py:90-91 | Every generated name starts with its stem and `_`, ends with `.ext`, and is recovered from its joined path. |
| DocGeneration.Record | backend/mcp-servers/docgeneration.py:90-94 | A recorded miss adds exactly the entry `h ↦ path` to the memo and exactly one file, named from the stem and extension, to the directory. As written, the path is the timestamped name. |
| DocGeneration.Produce | backend/mcp-servers/docgeneration.py:79-95 | A hit returns the stored path and changes nothing. A miss with a failing render surfaces the error and records nothing. A miss that renders records exactly one entry and one file. |
| DocGeneration.GenerateWordDoc | backend/mcp-servers/docgeneration.py:77-95 | The memo protocol for Word: keyed by the hash of the content (corrected: of "docx:" and the content), stem from the sanitised content, extension "docx". |
| DocGeneration.LineEnd | backend/mcp-servers/docgeneration.py:104 | The first line boundary of `splitlines`, or the end of the text. |
| DocGeneration.FirstLine | backend/mcp-servers/docgeneration.py:104 | `splitlines()` has no first element only for the empty text. Otherwise the first line is the prefix that holds no line boundary and runs up to a boundary or to the end. |
| DocGeneration.ExcelTitle | backend/mcp-servers/docgeneration.py:104 | The title is the first line of a non-empty table text, and "excel_data" for the empty one. |
| DocGeneration.GenerateExcel | backend/mcp-servers/docgeneration.py:97-110 | The memo protocol for Excel, keyed by the hash of the CSV text (corrected: of "xlsx:" and the text). On a miss, a text of blank lines only (the empty text and "\n" among them) raises `read_csv`'s "No columns to parse from file" whatever else happens; another text fails only with the table library's fault, and otherwise is recorded under the sanitised first line. |
| DocGeneration.ExcelWrittenHasFirstLine | backend/mcp-servers/docgeneration.py:103-104 | A spreadsheet is only written for a non-empty text, so its title is always the first line and the "excel_data" branch is never taken. |
| DocGeneration.LeadingBlankLineNamedDocument | backend/mcp-servers/docgeneration.py:103-105 | A table text that starts with a blank line and has a non-blank one later is written under the stem "document": its first line is empty. |
| DocGeneration.GeneratePpt | backend/mcp-servers/docgeneration.py:112-161 | The memo protocol for PowerPoint, keyed by the hash of the space-joined texts as written (corrected: of "pptx:" and the structural key). On a miss it records the deck rendered from the slides. |
| DocGeneration.WordDocRepeatHits | backend/mcp-servers/docgeneration.py:81-83 | A second request for the same content returns the first path and changes nothing. |
| DocGeneration.ExcelRepeatHits | backend/mcp-servers/docgeneration.py:100-104 | A second request for the same CSV, whatever it holds, gets the first call's outcome (its path, or for a blank text the same parse error) and changes nothing. |
| DocGeneration.PptLayoutsShareEntry | backend/mcp-servers/docgeneration.py:117-121 | Slide lists that differ only in layouts share one memo entry. |
| DocGeneration.CleanupTempFiles | backend/mcp-servers/docgeneration.py:164-176 | The memo is emptied. A file is removed exactly when it matches `*.docx`, `*.pptx` or `*.xlsx` and its removal succeeds; other files are kept as they were. The count is the number removed, at most the number of matching files. |
| DocGeneration.CleanupRemovesAllManaged | backend/mcp-servers/docgeneration.py:167-174 | When every removal succeeds, the count is the number of matching files and none is left. |
| DocGeneration.CleanupThenRegenerates | backend/mcp-servers/docgeneration.py:175 | After a sweep, every request misses and renders again. |
| DocGeneration.DigestFilenameCarriesDigest | backend/mcp-servers/docgeneration.py:50-52 | The corrected name holds its digest in the 64 characters before the extension. |
| DocGeneration.OlderEntryKept | backend/mcp-servers/docgeneration.py:92-94 | Writing a file named with another digest keeps a sound entry sound. |
| DocGeneration.NewEntrySound | backend/mcp-servers/docgeneration.py:92-94 | The entry just recorded leads to the file just written, whose key hashes to it. |
| DocGeneration.RecordKeepsSound | backend/mcp-servers/docgeneration.py:90-94 | With the digest in the file name, recording keeps every memo entry leading to a file whose key hashes to that entry. |
| DocGeneration.ProduceKeepsSound | backend/mcp-servers/docgeneration.py:79-95 | The corrected memo protocol keeps the memo sound. |
| DocGeneration.CorrectedWordDocKeepsSound | backend/mcp-servers/docgeneration.py:77-95 | The corrected Word tool keeps the memo sound. |
| DocGeneration.CorrectedExcelKeepsSound | backend/mcp-servers/docgeneration.py:97-110 | The corrected Excel tool keeps the memo sound. |
| DocGeneration.CorrectedPptKeepsSound | backend/mcp-servers/docgeneration.py:112-161 | The corrected PowerPoint tool keeps the memo sound. |
| DocGeneration.ToolKeyInjective | backend/mcp-servers/docgeneration.py:79-83 | Corrected keys with extensions of one width are equal only for the same extension and the same text. |
| DocGeneration.KeyTextIdentifies | backend/mcp-servers/docgeneration.py:79-83 | Two artifacts with one corrected key answer the same request: the same document or spreadsheet, or a deck of the same slide list. |
| DocGeneration.SoundHitServes | backend/mcp-servers/docgeneration.py:81-83 | A hit on a sound entry returns an existing file that answers the request, unless its key collides with the request's under the hash. |
| DocGeneration.CorrectedWordDocHitMatches | backend/mcp-servers/docgeneration.py:79-83 | In a sound memo, a corrected Word hit returns the document of that content, not a spreadsheet or deck of the same text, barring a hash collision. |
| DocGeneration.CorrectedExcelHitMatches | backend/mcp-servers/docgeneration.py:99-101 | In a sound memo, a corrected Excel hit returns the spreadsheet of that CSV, barring a hash collision. |
| DocGeneration.CorrectedPptHitMatches | backend/mcp-servers/docgeneration.py:117-121 | A corrected presentation hit on a sound entry returns a stored file whose key hashes like the request's, and that file is a deck of the same slide list barring a hash collision. |
| DocGeneration.WordThenExcelSharesEntry | backend/mcp-servers/docgeneration.py:79-101 | As written, after a Word document of a text, an Excel request for the same text returns the Word document's path. |
| DocGeneration.SameSecondOverwrite | backend/mcp-servers/docgeneration.py:90-94 | As written, two contents with one stem generated in the same second end up at one path holding the second content. The first content's entry then leads to the wrong document. |
| DocGeneration.PunctuationVariantsShareStem | backend/mcp-servers/docgeneration.py:40-45 | "Hi!" and "Hi?" differ but have the same stem. |
| DocGeneration.TrailingPunctuationSharesStem | backend/mcp-servers/docgeneration.py:41-45 | Any text ending in one or in another deleted character gives one stem. |
| DocGeneration.DistinctDecksShareFingerprint | backend/mcp-servers/docgeneration.py:117 | A two-text title slide on layout 0 and a one-text slide on layout 1 have the same fingerprint text. |
| DocGeneration.PptWrongDeckReturned | backend/mcp-servers/docgeneration.py:117-121 | As written, after one slide list is rendered, a different list with the same joined text gets the same path, whose file holds the first list's deck. |
| SlideKey.Esc | backend/mcp-servers/docgeneration.py:117 | Escaping doubles the length. |
| SlideKey.ReadFieldEsc | backend/mcp-servers/docgeneration.py:117 | An escaped text followed by a marker reads back as the text. |
| SlideKey.DecodePlaceholdersCode | backend/mcp-servers/docgeneration.py:117 | A slide's coded placeholders read back as the placeholder list. |
| SlideKey.DecodeSlideCode | backend/mcp-servers/docgeneration.py:117 | One slide's code reads back as its layout and texts, and decoding continues after it. |
| SlideKey.DecodeStructuralKey | backend/mcp-servers/docgeneration.py:117 | The structural key decodes to every slide's printed layout and texts. |
| SlideKey.StructuralKeyInjective | backend/mcp-servers/docgeneration.py:117-118 | Distinct slide lists have distinct structural keys. |
| Calendar.ListEvents | backend/mcp-servers/calender.py:35-36 | The stored list, unchanged and in order. |
| Calendar.AddEvent | backend/mcp-servers/calender.py:39-51 | Exactly one event is appended and the earlier ones are unchanged. It has the fresh id and the given title, start and end. A recurrence is present exactly when the argument is truthy, and then lower-cased. |
| Calendar.DeleteEvent | backend/mcp-servers/calender.py:54-62 | The kept events are exactly the stored ones with another id. "deleted" is reported exactly when some event had the id, and "No event found" exactly when none had. |
| Calendar.ClearAllEvents | backend/mcp-servers/calender.py:65-69 | The list is empty afterwards. |
| Calendar.RecurringEvents | backend/mcp-servers/calender.py:72-73 | Every listed event carries a recurrence. |
| Calendar.RecurringMembership | backend/mcp-servers/calender.py:73 | An event is listed as recurring exactly when it is stored and carries a recurrence. |
| Calendar.AddEventRecurring | backend/mcp-servers/calender.py:46-49 | Adding with a truthy recurrence appends the new event to the recurring list; adding without one leaves the list as it was. |
| Calendar.AddThenDelete | backend/mcp-servers/calender.py:49-62 | Deleting the unused id of an event just added restores the list and reports a deletion. |
| Calendar.DeleteTwice | backend/mcp-servers/calender.py:57-61 | A second delete of the same id changes nothing and reports "No event found". |
| Common.FilterMembership | backend/mcp-servers/calender.py:57 | A comprehension keeps an element exactly when it is in the list and passes the test. |
| Common.FilterConcat | backend/mcp-servers/calender.py:73 | A comprehension over a concatenation is the concatenation of the comprehensions, so order is kept. |
| Common.FilterKeepsLength | backend/mcp-servers/calender.py:60 | A comprehension keeps the length exactly when every element passes. |
| Employees.FindEmployee | backend/mcp-servers/employeedetails.py:21-25 | The result is the first employee whose name equals the query ignoring case. None means no employee matches. |
| Employees.FindIgnoresCase | backend/mcp-servers/employeedetails.py:23 | Queries equal up to case find the same employee. |
| Employees.ListEmployees | backend/mcp-servers/employeedetails.py:60-61 | The names in record order, one per record. |
| Employees.ListedNamesAreFound | backend/mcp-servers/employeedetails.py:21-61 | A listed name finds the first employee with that name up to case. |
| Employees.ListedNameFindsItself | backend/mcp-servers/employeedetails.py:21-61 | With names distinct up to case, a listed name finds the employee it was listed for. |
| Employees.HolidayEntries | backend/mcp-servers/employeedetails.py:37 | One `"k: v"` entry per holiday, in order. |
| Employees.GetEmployeeDetails | backend/mcp-servers/employeedetails.py:31-38 | "not found" exactly when there is no match. A record without "holidays" raises a KeyError. Otherwise the text is the three lines `Name: …`, `Age: …` and `Holidays â†’ …` joined by line feeds: it opens with the name line and ends with the entries joined by ", ". |
| Employees.DetailsTextLines | backend/mcp-servers/employeedetails.py:38 | Splitting the details at line feeds gives back the name line, the age line and the holiday line, when no name or type holds a line feed. |
| Employees.LookupHoliday | backend/mcp-servers/employeedetails.py:50 | The value stored under the key, and None exactly when no entry has that key. |
| Employees.LookupHolidayFindsEntry | backend/mcp-servers/employeedetails.py:49-50 | With each leave type stored once, as in a dict, the lookup of a stored type gives its value. |
| Employees.GetHolidayByType | backend/mcp-servers/employeedetails.py:44-54 | The employee is missing, or the lower-cased type is missing (also when there are no holidays), or the stored value is reported, quoting the name and type as given. |
| Employees.UpperCaseKindUnreachable | backend/mcp-servers/employeedetails.py:50 | A holiday type stored with an upper-case letter can never be retrieved. |
| Employees.HolidayAppearsInDetails | backend/mcp-servers/employeedetails.py:37-54 | A holiday reported by type is one of the entries the details list. |
| HelpDesk.CreateTicket | backend/mcp-servers/helpdesk.py:32-48 | One open ticket is appended with the fresh id, the given user and issue, the lower-cased priority (default "medium") and the clock reading. A table error or a taken id leaves the table unchanged and reports the failure. |
| HelpDesk.CreateKeepsUniqueIds | backend/mcp-servers/helpdesk.py:36-43 | Creating keeps ids unique. |
| HelpDesk.UpdateFields | backend/mcp-servers/helpdesk.py:53-59 | A field is present exactly when its argument is truthy. The issue is kept verbatim; priority and status are lower-cased. |
| HelpDesk.UpdateTicket | backend/mcp-servers/helpdesk.py:52-76 | With no fields: the table is untouched and "No fields" is reported. Otherwise rows with the id get the fields and no other row changes; "updated" exactly when a row matched, "not found" otherwise. A table error changes nothing. |
| HelpDesk.UpdateKeepsUniqueIds | backend/mcp-servers/helpdesk.py:67 | Updating keeps ids unique. |
| HelpDesk.UpdateTwice | backend/mcp-servers/helpdesk.py:52-76 | Repeating an update changes nothing more. |
| HelpDesk.DeleteTicket | backend/mcp-servers/helpdesk.py:80-92 | The kept rows are exactly those with another id. "deleted" exactly when a row matched, "not found" otherwise. A table error changes nothing. |
| HelpDesk.DeleteKeepsUniqueIds | backend/mcp-servers/helpdesk.py:80-92 | Deleting keeps ids unique. |
| HelpDesk.CreateThenDelete | backend/mcp-servers/helpdesk.py:32-92 | Deleting a ticket just created restores the table. |
| HelpDesk.InsertKeepsOrder | backend/mcp-servers/helpdesk.py:105 | Insertion keeps a list newest first. |
| HelpDesk.InsertAddsOne | backend/mcp-servers/helpdesk.py:105 | Insertion adds exactly the new row to the multiset of rows. |
| HelpDesk.ListTickets | backend/mcp-servers/helpdesk.py:96-113 | The rows passing the given filters, newest first, each as often as in the table. "No tickets found." exactly when none passes. A table error is reported instead. |
| HelpDesk.SelectedStep | backend/mcp-servers/helpdesk.py:99-103 | The selection of a longer prefix appends the next row exactly when it passes. |
| HelpDesk.ListedMembership | backend/mcp-servers/helpdesk.py:99-105 | A ticket is listed exactly when it is stored and passes both filters. |
| HelpDesk.UnfilteredSelectsAll | backend/mcp-servers/helpdesk.py:99-103 | Without filters every row is selected. |
| DocIngestor.FirstWithLower | backend/mcp-servers/docingestor.py:94-96 | The first file whose lower-cased name is the match, or None when no file has it. |
| DocIngestor.ResolveFilename | backend/mcp-servers/docingestor.py:84-97 | The result is a listed PDF whose lower-cased name the matcher picked. None when the matcher picks nothing. Some whenever the pick is one of the lower-cased names. |
| DocIngestor.ExactNameResolves | backend/mcp-servers/docingestor.py:89-96 | With a matcher that prefers exact matches, a listed PDF's own name resolves to it, up to case. |
| DocIngestor.GetPageContent | backend/mcp-servers/docingestor.py:70-82 | "No matching file" exactly when resolution fails. Out of range exactly when the page is below 1 or above the count. Otherwise the content is `pages[page - 1]` of the resolved file. |
| DocIngestor.PageRecords | backend/mcp-servers/docingestor.py:36-39 | One record per page, numbered from 1, with the page's text and the file name. |
| DocIngestor.AllPages | backend/mcp-servers/docingestor.py:32-39 | Every record names a listed file and one of its pages, by 1-based number, with that page's text. |
| DocIngestor.AllPagesComplete | backend/mcp-servers/docingestor.py:32-39 | Every page of every listed file has its record. |
| DocIngestor.PersistDocuments | backend/mcp-servers/docingestor.py:24-43 | A missing folder and "No PDF files found." exactly when their conditions hold. Otherwise the records are exactly those `AllPages` builds from the ".pdf" files: each names an ingested file and one of its pages, by 1-based number, with that page's text. |
| DocIngestor.UpperCaseSuffixNotIngested | backend/mcp-servers/docingestor.py:33-89 | A ".PDF" file passes the resolver's filter but not the ingestor's. |
| Sessions.StartSession | backend/mcp-host/host.py:89-110 | A known session: 204 and nothing changes. Otherwise exactly the fresh id is added, the other sessions are untouched, and the cookie is set to it. |
| Sessions.AskQuery | backend/mcp-host/host.py:112-131 | An unknown session gets 400 "Session not initialized". A known one runs its own agent, and the agent's answer or error comes back with status 200. |
| Sessions.ClearSession | backend/mcp-host/host.py:133-148 | A known session: exactly its id is removed, the others are untouched, the cookie is deleted. Otherwise 204 and nothing changes. |
| Sessions.StartBuildsNewAgent | backend/mcp-host/host.py:93-105 | Every stored agent was built before, and a started session's agent is held by no other session. |
| Sessions.StartThenAsk | backend/mcp-host/host.py:101-126 | The cookie set by `/start` names the new agent, and `/ask` with it runs that agent. |
| Sessions.ClearThenAskRefused | backend/mcp-host/host.py:117-137 | After clearing, asking with the old cookie is refused. |
| Sessions.StartThenClear | backend/mcp-host/host.py:92-137 | Starting a session under an unused id and clearing it restores the store. |
| Text.Lower | backend/mcp-servers/employeedetails.py:23 | `str.lower` on ASCII, character by character. |
| Text.LowerIdempotent | backend/mcp-servers/helpdesk.py:57-59 | Lower-casing twice is lower-casing once. |
| Text.SplitJoin | backend/mcp-servers/docgeneration.py:58 | Splitting a `\n`-join of texts without `\n` gives the texts back. |
| Text.IntToStringInjective | backend/mcp-servers/docgeneration.py:117 | Distinct integers print differently. |
| Text.ParsePadDigits | backend/mcp-servers/docgeneration.py:51 | A zero-padded number reads back as itself. |

## Left out

- Unicode: `\w`, `\s`, `str.split`, `str.strip`, `str.lower` and `splitlines` are modelled on ASCII, with the separators U+001C to U+001F counted as white space as Python does, plus the non-ASCII `splitlines` boundaries. Python's full Unicode classes are not.
- Clock readings with a year outside 1000..9999 are excluded, since `%Y` would print them in another width.
- The JSON files (calendar events, employees) are not modelled; loading and saving are opaque. JSON `null` values are not distinguished from missing keys.
- The Supabase client is not modelled; its errors are the `fault` parameter. The table's order among rows with the same `created_at` is left open: ties keep insertion order, so only "newest first" and the multiset are stated.
- HelpDesk.CreateTicket: a repeated `uuid4` id fails with a primary-key message; the real wording of that database error is not modelled.
- The helpdesk table is a sequence of rows with a unique-id invariant rather than a map, so that listing order can be stated.
- The text splitter, the embedding model, Chroma and `search_documents` are left out: they are library calls. DocIngestor.PersistDocuments therefore stops at the page records and does not model the persisted-chunk count in its message.
- difflib's similarity scoring is an oracle. The only assumption ever made about it is that an exact candidate wins (`PrefersExact`).
- PDF loading raising an exception is not modelled; the loader always returns the pages.
- The agent's internals, `close_all_sessions`, the `/health` endpoint and the logging/printing are not modelled.
- Concurrency between requests is left out: the code has no locking.
- `combine_placeholders`' result is only printed by `generate_ppt`; it is modelled on its own and does not feed the renderer, as in the code.
- DocGeneration.GenerateExcel: the only parse error tied to the text is the one for texts of blank lines. Other texts `read_csv` rejects (such as a row with more fields than the header) raise through the `fault` parameter, which is independent of the text.
- Employees.LookupHoliday: the holidays are a sequence of pairs, which could repeat a type that a dict holds once. The lookup takes the first match, and `LookupHolidayFindsEntry` states the dict behaviour for records whose types are distinct.

## Findings

| source | as written | input that shows it | evidently intended | confidence | as-written member | corrected member |
|---|---|---|---|---|---|---|
| backend/mcp-servers/docgeneration.py:50-52, 90-94 | File names are the sanitised stem plus a second-precision timestamp. Two different contents with the same stem, generated in the same second, are saved to the same path. The second save overwrites the first, and the first content's memo entry now returns the second document. | "Hi!" then "Hi?" (stem "Hi") as Word documents within one second. | A memo entry always leads to the document of its own content: the file name must tell fingerprints apart, e.g. by carrying the digest. | not executed | DocGeneration.SameSecondOverwrite, DocGeneration.PunctuationVariantsShareStem | DocGeneration.RecordKeepsSound, DocGeneration.CorrectedWordDocKeepsSound |
| backend/mcp-servers/docgeneration.py:117-121 | The presentation fingerprint hashes only the space-joined texts. Layouts and the boundaries between slides and placeholders are lost, so a different slide list can hit the entry of an earlier one and get its deck back. | `[{"layout": 0, "placeholders": ["Q1", "Plan"]}]` then `[{"layout": 1, "placeholders": ["Q1 Plan"]}]`. | The fingerprint changes whenever the slide structure changes: the hashed key must be injective on slide lists. | not executed | DocGeneration.PptWrongDeckReturned, DocGeneration.DistinctDecksShareFingerprint | SlideKey.StructuralKeyInjective, DocGeneration.CorrectedPptHitMatches |
| backend/mcp-servers/docgeneration.py:79-83, 99-101 | The Word and Excel tools look up one memo, `generated_docs`, under the hash of the input text alone (and the deck tool under the hash of its joined text). A request to one tool can therefore hit the entry another tool recorded, and gets back a file of the wrong kind. | `generate_word_doc("a,b\n1,2")` then `generate_excel("a,b\n1,2")`: the second call returns the `.docx` path. | Each tool gets back only files it produced: the key must name the tool, e.g. by prefixing the extension to the hashed text. | not executed | DocGeneration.WordThenExcelSharesEntry | DocGeneration.CorrectedExcelHitMatches, DocGeneration.CorrectedWordDocHitMatches |
