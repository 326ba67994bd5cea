/** The document-generation tools and their shared memo
    (backend/mcp-servers/docgeneration.py). Every tool fingerprints its
    input, returns the remembered path on a hit, and otherwise renders a file
    into the temporary directory, remembers its path under the fingerprint
    and returns it. The cleanup tool deletes the generated files and forgets
    everything.

    The process state is a value: the memo (`generated_docs`) and the files
    of the temporary directory. SHA-256 is the `hash` oracle of `Env`, the
    clock reading is a parameter, and a failure of the office libraries
    (parsing, template loading, saving) is a `fault` parameter. */
module DocGeneration {
  import opened Common
  import opened Text
  import opened DocNames
  import opened Deck
  import opened SlideKey

  /** What a file of the temporary directory holds. */
  datatype Artifact =
    | WordFile(text: string)
    | ExcelFile(csv: string)
    | DeckFile(requested: seq<Slide>, rendering: Rendering)
    | OtherFile

  /** The hash function and the temporary directory of the process. */
  datatype Env = Env(hash: string -> string, tempDir: string)

  /** `generated_docs` and the temporary directory, file name to content. */
  datatype State = State(memo: map<string, string>, files: map<string, Artifact>)

  datatype Outcome = Path(path: string) | Raised(error: string)

  datatype Step = Step(state: State, outcome: Outcome)

  /** How files are named and requests fingerprinted: as the source does
      it, or with the three corrections (digest in the file name, structural
      deck fingerprint, the tool's extension in every key). */
  datatype Scheme = AsWritten | Corrected

  /** The title used for an empty table. */
  const SheetTitle: string := "excel_data"

  /** pandas' `EmptyDataError` for a table text without a header line. */
  const EmptyTableError: string := "No columns to parse from file"

  // ---------------------------------------------------------------------
  // Paths
  // ---------------------------------------------------------------------

  function DirPrefix(dir: string): string {
    if dir == [] || EndsWith(dir, "/") then dir else dir + "/"
  }

  /** `os.path.join(dir, name)` on POSIX. */
  function JoinPath(dir: string, name: string): string {
    if StartsWith(name, "/") then name else DirPrefix(dir) + name
  }

  /** The name of a file of `dir` given its path. */
  function NameIn(dir: string, path: string): Option<string> {
    if StartsWith(path, DirPrefix(dir)) then Some(path[|DirPrefix(dir)|..]) else None
  }

  lemma NameInJoinPath(dir: string, name: string)
    requires name == [] || name[0] != '/'
    ensures NameIn(dir, JoinPath(dir, name)) == Some(name)
  {
    var p := DirPrefix(dir) + name;
    assert p[..|DirPrefix(dir)|] == DirPrefix(dir);
    assert p[|DirPrefix(dir)|..] == name;
  }

  // ---------------------------------------------------------------------
  // Naming and fingerprints
  // ---------------------------------------------------------------------

  /** The corrected name: the digest sits between the timestamp and the
      extension, so distinct fingerprints never share a file. */
  function DigestFilename(stem: string, digest: string, ext: string, now: Timestamp): string
    requires ValidTimestamp(now)
  {
    stem + "_" + FormatTimestamp(now) + "_" + digest + "." + ext
  }

  function ArtifactName(scheme: Scheme, stem: string, digest: string, ext: string, now: Timestamp): string
    requires ValidTimestamp(now)
  {
    match scheme
    case AsWritten => TimestampedFilename(stem, ext, now)
    case Corrected => DigestFilename(stem, digest, ext, now)
  }

  /** Every generated name starts with its stem and an underscore and ends
      with the extension; the stem being safe, the name does not start with
      '/', so joining it to the directory and taking it back out again
      gives the name. */
  lemma ArtifactNameShape(scheme: Scheme, stem: string, digest: string, ext: string, now: Timestamp, dir: string)
    requires ValidTimestamp(now)
    requires IsSafeName(stem) && stem != []
    ensures var n := ArtifactName(scheme, stem, digest, ext, now);
            && StartsWith(n, stem + "_") && EndsWith(n, "." + ext)
            && NameIn(dir, JoinPath(dir, n)) == Some(n)
  {
    var ts := FormatTimestamp(now);
    var mid := if scheme == AsWritten then ts else ts + "_" + digest;
    var n := ArtifactName(scheme, stem, digest, ext, now);
    assert n == (stem + "_") + mid + ("." + ext);
    Bracketed(stem + "_", mid, "." + ext);
    assert n[0] == stem[0];
    NameInJoinPath(dir, n);
  }

  /** The 64 characters before a four-letter extension. */
  function DigestOfName(name: string): Option<string> {
    if |name| >= 69 then Some(name[|name| - 69..|name| - 5]) else None
  }

  /** The text a presentation is fingerprinted from. */
  function PptKeyText(scheme: Scheme, slides: seq<Slide>): string {
    match scheme
    case AsWritten => JoinedText(slides)
    case Corrected => StructuralKey(slides)
  }

  /** The text a request of the tool writing `.ext` files is hashed from.
      As written, the three tools share one memo keyed by the input text
      alone; corrected, the extension is part of the key. */
  function ToolKey(scheme: Scheme, ext: string, text: string): string {
    match scheme
    case AsWritten => text
    case Corrected => ext + ":" + text
  }

  /** Corrected keys of extensions of one width tell tools and inputs
      apart. */
  lemma ToolKeyInjective(e1: string, t1: string, e2: string, t2: string)
    requires |e1| == |e2|
    requires ToolKey(Corrected, e1, t1) == ToolKey(Corrected, e2, t2)
    ensures e1 == e2 && t1 == t2
  {
    var k := ToolKey(Corrected, e1, t1);
    assert k == e1 + ([':'] + t1) && k == e2 + ([':'] + t2);
    assert k[..|e1|] == e1 && k[..|e2|] == e2;
    assert k[|e1| + 1..] == t1 && k[|e2| + 1..] == t2;
  }

  /** The text whose hash an artifact is remembered under. */
  function KeyText(scheme: Scheme, art: Artifact): Option<string> {
    match art
    case WordFile(t) => Some(ToolKey(scheme, "docx", t))
    case ExcelFile(c) => Some(ToolKey(scheme, "xlsx", c))
    case DeckFile(req, _) => Some(ToolKey(scheme, "pptx", PptKeyText(scheme, req)))
    case OtherFile => None
  }

  /** `got` answers the request that produced `want`: the same document or
      spreadsheet, or a deck of the same slide list. */
  predicate SameRequest(got: Artifact, want: Artifact) {
    match want
    case WordFile(_) => got == want
    case ExcelFile(_) => got == want
    case DeckFile(req, _) => got.DeckFile? && got.requested == req
    case OtherFile => false
  }

  /** Corrected key texts identify the request: equal keys mean the same
      tool and the same input. */
  lemma KeyTextIdentifies(got: Artifact, want: Artifact)
    requires want != OtherFile
    requires KeyText(Corrected, got) == KeyText(Corrected, want)
    ensures SameRequest(got, want)
  {
    match got
    case WordFile(t) =>
      ToolKeyInjective("docx", t, KeyExt(want), KeyInput(want));
    case ExcelFile(c) =>
      ToolKeyInjective("xlsx", c, KeyExt(want), KeyInput(want));
    case DeckFile(req, _) =>
      ToolKeyInjective("pptx", StructuralKey(req), KeyExt(want), KeyInput(want));
      if want.DeckFile? {
        StructuralKeyInjective(req, want.requested);
      }
    case OtherFile =>
  }

  /** The extension and input text of a corrected key. */
  function KeyExt(art: Artifact): string {
    match art
    case WordFile(_) => "docx"
    case ExcelFile(_) => "xlsx"
    case DeckFile(_, _) => "pptx"
    case OtherFile => ""
  }

  function KeyInput(art: Artifact): string {
    match art
    case WordFile(t) => t
    case ExcelFile(c) => c
    case DeckFile(req, _) => StructuralKey(req)
    case OtherFile => ""
  }

  // ---------------------------------------------------------------------
  // The memo protocol shared by the three generators
  // ---------------------------------------------------------------------

  /** A hit: the remembered path is returned and nothing changes. */
  predicate Hit(st: State, h: string, r: Step) {
    h in st.memo && r == Step(st, Path(st.memo[h]))
  }

  /** A failure: the error surfaces and nothing is remembered or written. */
  predicate Failed(st: State, r: Step) {
    r.state == st && r.outcome.Raised?
  }

  /** A miss that rendered: the memo gains the one entry `h`, pointing at
      the returned path; the file named by that path, whose name starts
      with `stem` and ends with `.ext`, now holds `art`; nothing else in the
      memo or the files changes. */
  predicate Recorded(st: State, env: Env, h: string, stem: string, ext: string, art: Artifact, r: Step) {
    && r.outcome.Path?
    && r.state.memo == st.memo[h := r.outcome.path]
    && NameIn(env.tempDir, r.outcome.path).Some?
    && var n := NameIn(env.tempDir, r.outcome.path).value;
       && StartsWith(n, stem + "_") && EndsWith(n, "." + ext)
       && r.state.files == st.files[n := art]
  }

  /** Render succeeded: write the file and remember its path. */
  function Record(st: State, env: Env, scheme: Scheme, h: string, stem: string, ext: string,
                  now: Timestamp, art: Artifact): (r: Step)
    requires ValidTimestamp(now)
    requires IsSafeName(stem) && stem != []
    requires h !in st.memo
    ensures Recorded(st, env, h, stem, ext, art, r)
    ensures scheme == AsWritten ==> r.outcome.path == JoinPath(env.tempDir, TimestampedFilename(stem, ext, now))
  {
    var name := ArtifactName(scheme, stem, h, ext, now);
    ArtifactNameShape(scheme, stem, h, ext, now, env.tempDir);
    var path := JoinPath(env.tempDir, name);
    Step(State(st.memo[h := path], st.files[name := art]), Path(path))
  }

  /** The memoised write every generator performs: a hit returns the
      remembered path; on a miss, a fault is raised with nothing changed, and
      otherwise the artifact is written and remembered. */
  function Produce(st: State, env: Env, scheme: Scheme, h: string, stem: string, ext: string,
                   now: Timestamp, art: Artifact, fault: Option<string>): (r: Step)
    requires ValidTimestamp(now)
    requires IsSafeName(stem) && stem != []
    ensures h in st.memo ==> Hit(st, h, r)
    ensures h !in st.memo && fault.Some? ==> Failed(st, r) && r.outcome.error == fault.value
    ensures h !in st.memo && fault.None? ==> Recorded(st, env, h, stem, ext, art, r)
  {
    if h in st.memo then Step(st, Path(st.memo[h]))
    else if fault.Some? then Step(st, Raised(fault.value))
    else Record(st, env, scheme, h, stem, ext, now, art)
  }

  // ---------------------------------------------------------------------
  // The three generators
  // ---------------------------------------------------------------------

  /** `generate_word_doc(content)`. */
  function GenerateWordDoc(st: State, env: Env, scheme: Scheme, content: string,
                           now: Timestamp, fault: Option<string>): (r: Step)
    requires ValidTimestamp(now)
    ensures var h := env.hash(ToolKey(scheme, "docx", content));
            && (h in st.memo ==> Hit(st, h, r))
            && (h !in st.memo && fault.Some? ==> Failed(st, r) && r.outcome.error == fault.value)
            && (h !in st.memo && fault.None? ==>
                  Recorded(st, env, h, SanitizeFilename(content, DefaultMaxLength), "docx", WordFile(content), r))
  {
    Produce(st, env, scheme, env.hash(ToolKey(scheme, "docx", content)), SanitizeFilename(content, DefaultMaxLength),
            "docx", now, WordFile(content), fault)
  }

  /** Python's `str.splitlines` line boundaries. */
  predicate IsLineBoundary(c: char) {
    c == '\n' || c == '\r' || c == '\U{0B}' || c == '\U{0C}' || c == '\U{1C}' || c == '\U{1D}'
    || c == '\U{1E}' || c == '\U{85}' || c == '\U{2028}' || c == '\U{2029}'
  }

  function LineEnd(s: string): (k: nat)
    ensures k <= |s|
    ensures forall i :: 0 <= i < k ==> !IsLineBoundary(s[i])
    ensures k < |s| ==> IsLineBoundary(s[k])
  {
    if s == [] || IsLineBoundary(s[0]) then 0 else 1 + LineEnd(s[1..])
  }

  /** The first element of `s.splitlines()`, None when the list is empty.
      Only the empty text has no lines: a text that is a lone line break,
      or "\r\n", still splits into one empty line. */
  function FirstLine(s: string): (r: Option<string>)
    ensures r.None? <==> s == []
    ensures r.Some? ==> && StartsWith(s, r.value)
                        && (forall i :: 0 <= i < |r.value| ==> !IsLineBoundary(r.value[i]))
                        && (|r.value| == |s| || IsLineBoundary(s[|r.value|]))
  {
    if s == [] then None else Some(s[..LineEnd(s)])
  }

  /** The first line is the only boundary-free prefix that runs up to a
      boundary or to the end of a non-empty text. */
  lemma FirstLineUnique(s: string, p: string)
    requires s != [] && StartsWith(s, p)
    requires forall i :: 0 <= i < |p| ==> !IsLineBoundary(p[i])
    requires |p| == |s| || IsLineBoundary(s[|p|])
    ensures FirstLine(s) == Some(p)
  {
  }

  /** The text the spreadsheet is named after: the first line of the table
      text, or "excel_data" for an empty one. Indexing the lines never fails
      here, since the empty text takes the other branch. That branch is
      never reached by `GenerateExcel`: the parser rejects the empty text
      first (`ExcelWrittenHasFirstLine`). */
  function ExcelTitle(csv: string): (t: string)
    ensures csv == [] ==> t == SheetTitle
    ensures csv != [] ==> FirstLine(csv) == Some(t)
  {
    if csv == [] then SheetTitle else FirstLine(csv).value
  }

  /** The stem of a spreadsheet's file name. */
  function ExcelStem(csv: string): string {
    SanitizeFilename(ExcelTitle(csv), DefaultMaxLength)
  }

  /** A table text with no line but blank ones: `read_csv` skips blank
      lines, finds no header and raises `EmptyDataError`. The empty text
      and a lone line break are such texts. */
  predicate BlankTable(csv: string) {
    forall i :: 0 <= i < |csv| ==> csv[i] == '\n' || csv[i] == '\r'
  }

  /** The parse error `read_csv` raises on the text, if the model knows of
      one, and otherwise the library fault. */
  function TableFault(csv: string, fault: Option<string>): Option<string> {
    if BlankTable(csv) then Some(EmptyTableError) else fault
  }

  /** `generate_excel(csv_data)`; `fault` is any other parse or write error
      of the table library. */
  function GenerateExcel(st: State, env: Env, scheme: Scheme, csv: string,
                         now: Timestamp, fault: Option<string>): (r: Step)
    requires ValidTimestamp(now)
    ensures var h := env.hash(ToolKey(scheme, "xlsx", csv));
            && (h in st.memo ==> Hit(st, h, r))
            && (h !in st.memo && BlankTable(csv) ==> Failed(st, r) && r.outcome.error == EmptyTableError)
            && (h !in st.memo && !BlankTable(csv) && fault.Some? ==> Failed(st, r) && r.outcome.error == fault.value)
            && (h !in st.memo && !BlankTable(csv) && fault.None? ==>
                  Recorded(st, env, h, SanitizeFilename(ExcelTitle(csv), DefaultMaxLength), "xlsx", ExcelFile(csv), r))
  {
    Produce(st, env, scheme, env.hash(ToolKey(scheme, "xlsx", csv)), ExcelStem(csv), "xlsx", now, ExcelFile(csv),
            TableFault(csv, fault))
  }

  /** A spreadsheet is only ever written for a text that has a first line:
      the "excel_data" title is unreachable. */
  lemma ExcelWrittenHasFirstLine(st: State, env: Env, scheme: Scheme, csv: string,
                                 now: Timestamp, fault: Option<string>)
    requires ValidTimestamp(now)
    requires env.hash(ToolKey(scheme, "xlsx", csv)) !in st.memo
    requires GenerateExcel(st, env, scheme, csv, now, fault).outcome.Path?
    ensures csv != [] && FirstLine(csv) == Some(ExcelTitle(csv))
  {
  }

  /** A table text that starts with a blank line is parsed (the blank line
      is skipped) but named after its empty first line: "document". */
  lemma LeadingBlankLineNamedDocument(st: State, env: Env, scheme: Scheme, rest: string, now: Timestamp)
    requires ValidTimestamp(now)
    requires !BlankTable(rest)
    requires env.hash(ToolKey(scheme, "xlsx", "\n" + rest)) !in st.memo
    ensures Recorded(st, env, env.hash(ToolKey(scheme, "xlsx", "\n" + rest)), DefaultStem, "xlsx",
                     ExcelFile("\n" + rest), GenerateExcel(st, env, scheme, "\n" + rest, now, None))
  {
    var csv := "\n" + rest;
    var i :| 0 <= i < |rest| && rest[i] != '\n' && rest[i] != '\r';
    assert csv[i + 1] == rest[i];
    FirstLineUnique(csv, []);
    assert ExcelTitle(csv) == [];
  }

  /** `generate_ppt(slides)` with the template's layouts; `fault` is an
      error loading the template or saving the file. Per-slide and
      per-placeholder failures are part of the rendering, not faults. */
  function GeneratePpt(st: State, env: Env, scheme: Scheme, layouts: seq<Layout>, slides: seq<Slide>,
                       now: Timestamp, fault: Option<string>): (r: Step)
    requires ValidTimestamp(now)
    ensures var h := env.hash(ToolKey(scheme, "pptx", PptKeyText(scheme, slides)));
            && (h in st.memo ==> Hit(st, h, r))
            && (h !in st.memo && fault.Some? ==> Failed(st, r) && r.outcome.error == fault.value)
            && (h !in st.memo && fault.None? ==>
                  Recorded(st, env, h, SanitizeFilename(JoinedText(slides), DefaultMaxLength), "pptx",
                           DeckFile(slides, RenderDeck(layouts, slides, 0)), r))
  {
    Produce(st, env, scheme, env.hash(ToolKey(scheme, "pptx", PptKeyText(scheme, slides))),
            SanitizeFilename(JoinedText(slides), DefaultMaxLength), "pptx", now,
            DeckFile(slides, RenderDeck(layouts, slides, 0)), fault)
  }

  /** Asking twice for the same document: the second call hits, returns
      the path of the first and changes nothing. */
  lemma WordDocRepeatHits(st: State, env: Env, scheme: Scheme, content: string,
                          now1: Timestamp, now2: Timestamp, fault2: Option<string>)
    requires ValidTimestamp(now1) && ValidTimestamp(now2)
    ensures var first := GenerateWordDoc(st, env, scheme, content, now1, None);
            var second := GenerateWordDoc(first.state, env, scheme, content, now2, fault2);
            second == Step(first.state, first.outcome)
  {
  }

  lemma ExcelRepeatHits(st: State, env: Env, scheme: Scheme, csv: string,
                        now1: Timestamp, now2: Timestamp, fault2: Option<string>)
    requires ValidTimestamp(now1) && ValidTimestamp(now2)
    ensures var first := GenerateExcel(st, env, scheme, csv, now1, None);
            var second := GenerateExcel(first.state, env, scheme, csv, now2, fault2);
            second == Step(first.state, first.outcome)
  {
  }

  /** The presentation fingerprint ignores layouts: after rendering one
      slide list, a list with the same texts and other layouts gets the same
      file, whose deck was built with the first list's layouts. */
  lemma PptLayoutsShareEntry(st: State, env: Env, layouts: seq<Layout>, a: seq<Slide>, b: seq<Slide>,
                             now1: Timestamp, now2: Timestamp, fault2: Option<string>)
    requires ValidTimestamp(now1) && ValidTimestamp(now2)
    requires |a| == |b| && forall i :: 0 <= i < |a| ==> a[i].placeholders == b[i].placeholders
    ensures var first := GeneratePpt(st, env, AsWritten, layouts, a, now1, None);
            var second := GeneratePpt(first.state, env, AsWritten, layouts, b, now2, fault2);
            second == Step(first.state, first.outcome)
  {
    JoinedTextIgnoresLayout(a, b);
  }

  // ---------------------------------------------------------------------
  // Cleanup
  // ---------------------------------------------------------------------

  /** A name the sweep's patterns `*.docx`, `*.pptx`, `*.xlsx` match (the
      `*` of glob does not match a leading dot). */
  predicate IsManaged(name: string) {
    !StartsWith(name, ".") && (EndsWith(name, ".docx") || EndsWith(name, ".pptx") || EndsWith(name, ".xlsx"))
  }

  function ManagedNames(files: map<string, Artifact>): set<string> {
    set n | n in files && IsManaged(n)
  }

  /** `cleanup_temp_files()`; `removable(path)` says whether `os.remove`
      succeeds. Returns the new state and the number of files deleted. */
  function CleanupTempFiles(st: State, env: Env, removable: string -> bool): (r: (State, nat))
    ensures r.0.memo == map[]
    ensures r.0.files.Keys <= st.files.Keys
    ensures forall n :: n in st.files ==>
              (n in r.0.files <==> !(IsManaged(n) && removable(JoinPath(env.tempDir, n))))
    ensures forall n :: n in r.0.files ==> r.0.files[n] == st.files[n]
    ensures r.1 == |st.files.Keys - r.0.files.Keys|
    ensures r.1 <= |ManagedNames(st.files)|
  {
    var removed := set n | n in st.files && IsManaged(n) && removable(JoinPath(env.tempDir, n));
    var kept := map n | n in st.files && n !in removed :: st.files[n];
    assert st.files.Keys - kept.Keys == removed;
    assert removed <= ManagedNames(st.files);
    SubsetCardinality(removed, ManagedNames(st.files));
    (State(map[], kept), |removed|)
  }

  lemma SubsetCardinality<T>(a: set<T>, b: set<T>)
    requires a <= b
    ensures |a| <= |b|
  {
    assert b == a + (b - a);
  }

  function CleanupMessage(deleted: nat): string {
    "Deleted " + NatToString(deleted) + " temporary files."
  }

  /** When every removal succeeds the count is the number of generated-type
      files and none of them is left. */
  lemma CleanupRemovesAllManaged(st: State, env: Env, removable: string -> bool)
    requires forall n :: n in st.files && IsManaged(n) ==> removable(JoinPath(env.tempDir, n))
    ensures CleanupTempFiles(st, env, removable).1 == |ManagedNames(st.files)|
    ensures ManagedNames(CleanupTempFiles(st, env, removable).0.files) == {}
  {
    var r := CleanupTempFiles(st, env, removable);
    assert st.files.Keys - r.0.files.Keys == ManagedNames(st.files);
  }

  /** After a sweep every request is a fresh miss and renders again. */
  lemma CleanupThenRegenerates(st: State, env: Env, removable: string -> bool, scheme: Scheme,
                               content: string, now: Timestamp)
    requires ValidTimestamp(now)
    ensures var swept := CleanupTempFiles(st, env, removable).0;
            Recorded(swept, env, env.hash(ToolKey(scheme, "docx", content)), SanitizeFilename(content, DefaultMaxLength), "docx",
                     WordFile(content), GenerateWordDoc(swept, env, scheme, content, now, None))
  {
  }

  // ---------------------------------------------------------------------
  // Memo soundness: a remembered path leads to a file whose key hashes to
  // the entry, and so, barring a hash collision, to what was asked for
  // ---------------------------------------------------------------------

  /** The entry `h` points into the temporary directory at a file whose
      fingerprint text hashes to `h`. */
  predicate EntrySound(st: State, env: Env, scheme: Scheme, h: string)
    requires h in st.memo
  {
    match NameIn(env.tempDir, st.memo[h])
    case None => false
    case Some(n) =>
      n in st.files && KeyText(scheme, st.files[n]).Some? && env.hash(KeyText(scheme, st.files[n]).value) == h
  }

  predicate Sound(st: State, env: Env, scheme: Scheme) {
    forall h :: h in st.memo ==> EntrySound(st, env, scheme, h)
  }

  /** The entry `h` names a file whose name carries the digest `h`. */
  predicate EntryNamed(st: State, env: Env, h: string)
    requires h in st.memo
  {
    match NameIn(env.tempDir, st.memo[h])
    case None => false
    case Some(n) => DigestOfName(n) == Some(h)
  }

  predicate Named(st: State, env: Env) {
    forall h :: h in st.memo ==> EntryNamed(st, env, h)
  }

  /** Hex digests of SHA-256 are 64 characters long. */
  ghost predicate DigestWidth(env: Env) {
    forall x :: |env.hash(x)| == 64
  }

  /** The corrected name carries its digest where DigestOfName reads it. */
  lemma DigestFilenameCarriesDigest(stem: string, h: string, ext: string, now: Timestamp)
    requires ValidTimestamp(now)
    requires |h| == 64 && |ext| == 4
    ensures DigestOfName(DigestFilename(stem, h, ext, now)) == Some(h)
  {
    var name := DigestFilename(stem, h, ext, now);
    assert name == stem + "_" + FormatTimestamp(now) + "_" + h + "." + ext;
    assert name[|name| - 69..|name| - 5] == h;
  }

  /** Writing a file whose name carries another digest leaves a sound,
      named entry sound and named. */
  lemma OlderEntryKept(st: State, env: Env, k: string, h: string, path: string, name: string, art: Artifact)
    requires k in st.memo && k != h
    requires EntrySound(st, env, Corrected, k) && EntryNamed(st, env, k)
    requires DigestOfName(name) == Some(h)
    ensures var s := State(st.memo[h := path], st.files[name := art]);
            EntrySound(s, env, Corrected, k) && EntryNamed(s, env, k)
  {
    var n := NameIn(env.tempDir, st.memo[k]).value;
    assert n != name;
  }

  /** The entry just recorded points at the file just written. */
  lemma NewEntrySound(st: State, env: Env, h: string, name: string, art: Artifact)
    requires NameIn(env.tempDir, JoinPath(env.tempDir, name)) == Some(name)
    requires DigestOfName(name) == Some(h)
    requires KeyText(Corrected, art).Some? && env.hash(KeyText(Corrected, art).value) == h
    ensures var s := State(st.memo[h := JoinPath(env.tempDir, name)], st.files[name := art]);
            EntrySound(s, env, Corrected, h) && EntryNamed(s, env, h)
  {
  }

  /** With the digest in the file name, recording a new entry never touches
      the file of an older entry, so soundness is kept. */
  lemma {:induction false} RecordKeepsSound(st: State, env: Env, h: string, stem: string, ext: string,
                                           now: Timestamp, art: Artifact)
    requires ValidTimestamp(now)
    requires IsSafeName(stem) && stem != []
    requires |h| == 64 && |ext| == 4
    requires h !in st.memo
    requires KeyText(Corrected, art).Some? && env.hash(KeyText(Corrected, art).value) == h
    requires Sound(st, env, Corrected) && Named(st, env)
    ensures Sound(Record(st, env, Corrected, h, stem, ext, now, art).state, env, Corrected)
    ensures Named(Record(st, env, Corrected, h, stem, ext, now, art).state, env)
  {
    var name := DigestFilename(stem, h, ext, now);
    DigestFilenameCarriesDigest(stem, h, ext, now);
    ArtifactNameShape(Corrected, stem, h, ext, now, env.tempDir);
    var path := JoinPath(env.tempDir, name);
    var s := Record(st, env, Corrected, h, stem, ext, now, art).state;
    assert s == State(st.memo[h := path], st.files[name := art]);
    NewEntrySound(st, env, h, name, art);
    forall k | k in s.memo
      ensures EntrySound(s, env, Corrected, k) && EntryNamed(s, env, k)
    {
      if k != h {
        OlderEntryKept(st, env, k, h, path, name, art);
      }
    }
  }

  /** The memoised write keeps the memo sound when the artifact's key
      text hashes to the fingerprint it is remembered under. */
  lemma ProduceKeepsSound(st: State, env: Env, h: string, stem: string, ext: string,
                          now: Timestamp, art: Artifact, fault: Option<string>)
    requires ValidTimestamp(now)
    requires IsSafeName(stem) && stem != []
    requires |h| == 64 && |ext| == 4
    requires KeyText(Corrected, art).Some? && env.hash(KeyText(Corrected, art).value) == h
    requires Sound(st, env, Corrected) && Named(st, env)
    ensures var r := Produce(st, env, Corrected, h, stem, ext, now, art, fault).state;
            Sound(r, env, Corrected) && Named(r, env)
  {
    if h !in st.memo && fault.None? {
      RecordKeepsSound(st, env, h, stem, ext, now, art);
    }
  }

  /** Every corrected generator keeps the memo sound. */
  lemma CorrectedWordDocKeepsSound(st: State, env: Env, content: string, now: Timestamp, fault: Option<string>)
    requires ValidTimestamp(now) && DigestWidth(env)
    requires Sound(st, env, Corrected) && Named(st, env)
    ensures var r := GenerateWordDoc(st, env, Corrected, content, now, fault).state;
            Sound(r, env, Corrected) && Named(r, env)
  {
    ProduceKeepsSound(st, env, env.hash(ToolKey(Corrected, "docx", content)), SanitizeFilename(content, DefaultMaxLength),
                      "docx", now, WordFile(content), fault);
  }

  lemma CorrectedExcelKeepsSound(st: State, env: Env, csv: string, now: Timestamp, fault: Option<string>)
    requires ValidTimestamp(now) && DigestWidth(env)
    requires Sound(st, env, Corrected) && Named(st, env)
    ensures var r := GenerateExcel(st, env, Corrected, csv, now, fault).state;
            Sound(r, env, Corrected) && Named(r, env)
  {
    var stem, h := ExcelStem(csv), env.hash(ToolKey(Corrected, "xlsx", csv));
    assert GenerateExcel(st, env, Corrected, csv, now, fault)
        == Produce(st, env, Corrected, h, stem, "xlsx", now, ExcelFile(csv), TableFault(csv, fault));
    ProduceKeepsSound(st, env, h, stem, "xlsx", now, ExcelFile(csv), TableFault(csv, fault));
  }

  lemma CorrectedPptKeepsSound(st: State, env: Env, layouts: seq<Layout>, slides: seq<Slide>,
                               now: Timestamp, fault: Option<string>)
    requires ValidTimestamp(now) && DigestWidth(env)
    requires Sound(st, env, Corrected) && Named(st, env)
    ensures var r := GeneratePpt(st, env, Corrected, layouts, slides, now, fault).state;
            Sound(r, env, Corrected) && Named(r, env)
  {
    var stem, deck := SanitizeFilename(JoinedText(slides), DefaultMaxLength), DeckFile(slides, RenderDeck(layouts, slides, 0));
    var h := env.hash(ToolKey(Corrected, "pptx", PptKeyText(Corrected, slides)));
    CorrectedPptIsProduce(st, env, layouts, slides, now, fault);
    DeckKeyText(slides, RenderDeck(layouts, slides, 0));
    ProduceKeepsSound(st, env, h, stem, "pptx", now, deck, fault);
    var p := Produce(st, env, Corrected, h, stem, "pptx", now, deck, fault).state;
    assert Sound(p, env, Corrected) && Named(p, env);
    assert GeneratePpt(st, env, Corrected, layouts, slides, now, fault).state == p;
  }

  /** A corrected deck is remembered under its request's structural key. */
  lemma DeckKeyText(slides: seq<Slide>, rendering: Rendering)
    ensures KeyText(Corrected, DeckFile(slides, rendering)) == Some(ToolKey(Corrected, "pptx", PptKeyText(Corrected, slides)))
  {
  }

  lemma CorrectedPptIsProduce(st: State, env: Env, layouts: seq<Layout>, slides: seq<Slide>,
                              now: Timestamp, fault: Option<string>)
    requires ValidTimestamp(now)
    ensures GeneratePpt(st, env, Corrected, layouts, slides, now, fault)
         == Produce(st, env, Corrected, env.hash(ToolKey(Corrected, "pptx", PptKeyText(Corrected, slides))),
                    SanitizeFilename(JoinedText(slides), DefaultMaxLength),
                    "pptx", now, DeckFile(slides, RenderDeck(layouts, slides, 0)), fault)
  {
  }

  /** Two distinct texts with one digest. */
  predicate Collide(env: Env, x: string, y: string) {
    x != y && env.hash(x) == env.hash(y)
  }

  /** The step returns the path of a file of the directory that answers
      the request which produced `want`, unless that file's key collides
      with the request's under the hash. */
  predicate Serves(st: State, env: Env, r: Step, want: Artifact)
    requires KeyText(Corrected, want).Some?
  {
    && r.outcome.Path?
    && NameIn(env.tempDir, r.outcome.path).Some?
    && var n := NameIn(env.tempDir, r.outcome.path).value;
       && n in st.files
       && (SameRequest(st.files[n], want)
           || (KeyText(Corrected, st.files[n]).Some?
               && Collide(env, KeyText(Corrected, st.files[n]).value, KeyText(Corrected, want).value)))
  }

  /** A hit on a sound entry serves the request whose key it was looked up
      under. */
  lemma SoundHitServes(st: State, env: Env, want: Artifact)
    requires want != OtherFile
    requires env.hash(KeyText(Corrected, want).value) in st.memo
    requires EntrySound(st, env, Corrected, env.hash(KeyText(Corrected, want).value))
    ensures Serves(st, env, Step(st, Path(st.memo[env.hash(KeyText(Corrected, want).value)])), want)
  {
    var n := NameIn(env.tempDir, st.memo[env.hash(KeyText(Corrected, want).value)]).value;
    if KeyText(Corrected, st.files[n]) == KeyText(Corrected, want) {
      KeyTextIdentifies(st.files[n], want);
    }
  }

  /** With a sound memo, a corrected Word hit returns the document of the
      same content, never a spreadsheet or a deck of the same text, unless
      the hash collides. */
  lemma CorrectedWordDocHitMatches(st: State, env: Env, content: string, now: Timestamp, fault: Option<string>)
    requires ValidTimestamp(now) && Sound(st, env, Corrected)
    requires env.hash(ToolKey(Corrected, "docx", content)) in st.memo
    ensures Serves(st, env, GenerateWordDoc(st, env, Corrected, content, now, fault), WordFile(content))
  {
    SoundHitServes(st, env, WordFile(content));
  }

  /** With a sound memo, a corrected Excel hit returns the spreadsheet of
      the same table text, unless the hash collides. */
  lemma CorrectedExcelHitMatches(st: State, env: Env, csv: string, now: Timestamp, fault: Option<string>)
    requires ValidTimestamp(now) && Sound(st, env, Corrected)
    requires env.hash(ToolKey(Corrected, "xlsx", csv)) in st.memo
    ensures Serves(st, env, GenerateExcel(st, env, Corrected, csv, now, fault), ExcelFile(csv))
  {
    SoundHitServes(st, env, ExcelFile(csv));
  }

  /** When the memo entry it hits is sound (as every entry of a memo kept
      by the corrected tools is), a corrected presentation hit returns an
      existing file whose key hashes like the request's structural key, and
      that file is a deck of the same slide list unless the hash collides. */
  lemma CorrectedPptHitMatches(st: State, env: Env, layouts: seq<Layout>, slides: seq<Slide>,
                               now: Timestamp, fault: Option<string>)
    requires ValidTimestamp(now)
    requires env.hash(ToolKey(Corrected, "pptx", StructuralKey(slides))) in st.memo
    requires EntrySound(st, env, Corrected, env.hash(ToolKey(Corrected, "pptx", StructuralKey(slides))))
    ensures var r := GeneratePpt(st, env, Corrected, layouts, slides, now, fault);
            && r.outcome.Path?
            && NameIn(env.tempDir, r.outcome.path).Some?
            && NameIn(env.tempDir, r.outcome.path).value in st.files
            && KeyText(Corrected, st.files[NameIn(env.tempDir, r.outcome.path).value]).Some?
            && env.hash(KeyText(Corrected, st.files[NameIn(env.tempDir, r.outcome.path).value]).value)
               == env.hash(ToolKey(Corrected, "pptx", StructuralKey(slides)))
    ensures Serves(st, env, GeneratePpt(st, env, Corrected, layouts, slides, now, fault),
                   DeckFile(slides, RenderDeck(layouts, slides, 0)))
  {
    CorrectedPptHit(st, env, layouts, slides, now, fault);
    SoundHitServes(st, env, DeckFile(slides, RenderDeck(layouts, slides, 0)));
  }

  lemma CorrectedPptHit(st: State, env: Env, layouts: seq<Layout>, slides: seq<Slide>,
                        now: Timestamp, fault: Option<string>)
    requires ValidTimestamp(now)
    requires env.hash(ToolKey(Corrected, "pptx", StructuralKey(slides))) in st.memo
    ensures GeneratePpt(st, env, Corrected, layouts, slides, now, fault)
         == Step(st, Path(st.memo[env.hash(ToolKey(Corrected, "pptx", StructuralKey(slides)))]))
  {
  }

  // ---------------------------------------------------------------------
  // The source's behaviour that the corrections address
  // ---------------------------------------------------------------------

  /** Two different texts with the same sanitised stem, generated within the
      same second: the second file overwrites the first, and the first
      text's memo entry now leads to the second text. */
  lemma SameSecondOverwrite(st: State, env: Env, c1: string, c2: string, now: Timestamp)
    requires ValidTimestamp(now)
    requires env.hash(c1) != env.hash(c2)
    requires env.hash(c1) !in st.memo && env.hash(c2) !in st.memo
    requires SanitizeFilename(c1, DefaultMaxLength) == SanitizeFilename(c2, DefaultMaxLength)
    ensures var s1 := GenerateWordDoc(st, env, AsWritten, c1, now, None);
            var s2 := GenerateWordDoc(s1.state, env, AsWritten, c2, now, None);
            && s2.state.memo[env.hash(c1)] == s2.state.memo[env.hash(c2)]
            && s2.state.files[NameIn(env.tempDir, s2.state.memo[env.hash(c1)]).value] == WordFile(c2)
            && !Sound(s2.state, env, AsWritten)
  {
    var s1 := GenerateWordDoc(st, env, AsWritten, c1, now, None);
    var s2 := GenerateWordDoc(s1.state, env, AsWritten, c2, now, None);
    assert !EntrySound(s2.state, env, AsWritten, env.hash(c1));
  }

  /** A concrete pair for the lemma above: "Hi!" and "Hi?" differ but both
      lose their last character to the sanitiser. */
  lemma PunctuationVariantsShareStem(w: string, c1: string, c2: string)
    requires w == "Hi" && c1 == w + ['!'] && c2 == w + ['?']
    ensures c1 != c2
    ensures SanitizeFilename(c1, DefaultMaxLength) == SanitizeFilename(c2, DefaultMaxLength)
  {
    assert c1[|w|] == '!' && c2[|w|] == '?';
    assert !IsKept('!') && !IsKept('?');
    TrailingPunctuationSharesStem(w, '!', '?', DefaultMaxLength);
  }

  /** Any text followed by one or by another character the sanitiser
      deletes gives two texts with one stem. */
  lemma TrailingPunctuationSharesStem(w: string, p: char, q: char, maxLength: int)
    requires !IsKept(p)
    requires !IsKept(q)
    ensures SanitizeFilename(w + [p], maxLength) == SanitizeFilename(w + [q], maxLength)
  {
    SanitizeIgnoresTrailing(w, p, maxLength);
    SanitizeIgnoresTrailing(w, q, maxLength);
  }

  /** As written, the three tools share one memo keyed by the input text
      alone: after a Word document of a text, a spreadsheet request for the
      same text returns the Word document's path. */
  lemma WordThenExcelSharesEntry(st: State, env: Env, c: string, now1: Timestamp, now2: Timestamp,
                                 fault2: Option<string>)
    requires ValidTimestamp(now1) && ValidTimestamp(now2)
    requires env.hash(c) !in st.memo
    ensures var first := GenerateWordDoc(st, env, AsWritten, c, now1, None);
            && first.outcome.Path?
            && NameIn(env.tempDir, first.outcome.path).Some?
            && var n := NameIn(env.tempDir, first.outcome.path).value;
               n in first.state.files && first.state.files[n] == WordFile(c)
    ensures var first := GenerateWordDoc(st, env, AsWritten, c, now1, None);
            GenerateExcel(first.state, env, AsWritten, c, now2, fault2) == Step(first.state, first.outcome)
  {
  }

  /** A concrete pair of different slide lists with one fingerprint text:
      a two-text title slide and a one-text slide on another layout. */
  lemma DistinctDecksShareFingerprint()
    ensures JoinedText([Slide(0, ["Q1", "Plan"])]) == JoinedText([Slide(1, ["Q1 Plan"])])
  {
  }

  /** As written, a different slide list can hit the entry of another: the
      returned file holds the deck of the first list. */
  lemma PptWrongDeckReturned(st: State, env: Env, layouts: seq<Layout>, a: seq<Slide>, b: seq<Slide>,
                             now1: Timestamp, now2: Timestamp)
    requires ValidTimestamp(now1) && ValidTimestamp(now2)
    requires a != b && JoinedText(a) == JoinedText(b)
    requires env.hash(JoinedText(a)) !in st.memo
    ensures var first := GeneratePpt(st, env, AsWritten, layouts, a, now1, None);
            && first.outcome.Path?
            && NameIn(env.tempDir, first.outcome.path).Some?
            && var n := NameIn(env.tempDir, first.outcome.path).value;
               n in first.state.files && first.state.files[n] == DeckFile(a, RenderDeck(layouts, a, 0))
    ensures var first := GeneratePpt(st, env, AsWritten, layouts, a, now1, None);
            GeneratePpt(first.state, env, AsWritten, layouts, b, now2, None) == Step(first.state, first.outcome)
  {
  }
}
