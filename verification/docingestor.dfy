/** The document server (backend/mcp-servers/docingestor.py): it reads the
    PDFs of a folder page by page, and answers requests for one page of a
    document named by a fuzzy hint. The folder listing, the PDF loader
    (file name to page texts) and difflib's matcher are parameters; the
    text splitter, the embeddings and the vector store are not modelled. */
module DocIngestor {
  import opened Common
  import opened Text

  /** `get_close_matches(word, candidates, n=1, cutoff=0.5)`: the best
      candidate scoring at least 0.5, if any. */
  type Matcher = (string, seq<string>) -> Option<string>

  /** The PDF loader: the text of every page of a file, in order. */
  type Loader = string -> seq<string>

  /** difflib scores an exact match 1.0, above every other candidate. */
  ghost predicate PrefersExact(closest: Matcher) {
    forall w, cs :: w in cs ==> closest(w, cs) == Some(w)
  }

  // ---------------------------------------------------------------------
  // Resolving a file name
  // ---------------------------------------------------------------------

  /** The listing filter of `resolve_filename`: the suffix is compared
      after lower-casing. */
  predicate IsPdfName(f: string) {
    EndsWith(Lower(f), ".pdf")
  }

  function PdfFiles(listing: seq<string>): seq<string> {
    Filter(listing, IsPdfName)
  }

  function LowerAll(fs: seq<string>): (r: seq<string>)
    ensures |r| == |fs|
    ensures forall i :: 0 <= i < |fs| ==> r[i] == Lower(fs[i])
  {
    seq(|fs|, i requires 0 <= i < |fs| => Lower(fs[i]))
  }

  /** The first file whose lower-cased name is `m`. */
  function FirstWithLower(files: seq<string>, m: string): (r: Option<nat>)
    ensures r.Some? ==> r.value < |files| && Lower(files[r.value]) == m
    ensures r.Some? ==> forall j :: 0 <= j < r.value ==> Lower(files[j]) != m
    ensures r.None? <==> forall j :: 0 <= j < |files| ==> Lower(files[j]) != m
  {
    if files == [] then None
    else if Lower(files[0]) == m then Some(0)
    else match FirstWithLower(files[1..], m)
      case None => None
      case Some(i) => Some(i + 1)
  }

  /** `resolve_filename(user_input)`: the matcher picks among the
      lower-cased PDF names, and the first listed file with the picked
      lower-cased name is returned with its own case. */
  function ResolveFilename(hint: string, listing: seq<string>, closest: Matcher): (r: Option<string>)
    ensures r.Some? ==> r.value in listing && IsPdfName(r.value)
    ensures r.Some? ==> closest(Lower(hint), LowerAll(PdfFiles(listing))) == Some(Lower(r.value))
    ensures closest(Lower(hint), LowerAll(PdfFiles(listing))).None? ==> r.None?
    ensures var m := closest(Lower(hint), LowerAll(PdfFiles(listing)));
            m.Some? && m.value in LowerAll(PdfFiles(listing)) ==> r.Some?
  {
    var files := PdfFiles(listing);
    match closest(Lower(hint), LowerAll(files))
    case None => None
    case Some(m) =>
      match FirstWithLower(files, m)
      case None => None
      case Some(i) =>
        FilterMembership(listing, IsPdfName, files[i]);
        Some(files[i])
  }

  /** Asking by the exact name of a listed PDF returns that file, or an
      earlier one whose name differs from it only in case. */
  lemma ExactNameResolves(listing: seq<string>, closest: Matcher, f: string)
    requires PrefersExact(closest)
    requires f in listing && IsPdfName(f)
    ensures ResolveFilename(f, listing, closest).Some?
    ensures Lower(ResolveFilename(f, listing, closest).value) == Lower(f)
  {
    var files := PdfFiles(listing);
    FilterMembership(listing, IsPdfName, f);
    var i :| 0 <= i < |files| && files[i] == f;
    assert LowerAll(files)[i] == Lower(f);
  }

  // ---------------------------------------------------------------------
  // One page
  // ---------------------------------------------------------------------

  datatype PageAnswer =
    | NoMatch(hint: string)
    | OutOfRange(page: int, count: nat)
    | Content(file: string, page: int, text: string)

  function PageReply(a: PageAnswer): string {
    match a
    case NoMatch(h) => "No matching file found for '" + h + "'."
    case OutOfRange(p, n) => "Page " + IntToString(p) + " is out of range. This document has " + NatToString(n) + " pages."
    case Content(f, p, t) => "Content from '" + f + "' page " + IntToString(p) + ":\n\n" + t
  }

  /** `get_page_content(page_number, filename_hint)`: pages are numbered
      from 1. */
  function GetPageContent(page: int, hint: string, listing: seq<string>, closest: Matcher, load: Loader): (r: PageAnswer)
    ensures ResolveFilename(hint, listing, closest).None? <==> r == NoMatch(hint)
    ensures ResolveFilename(hint, listing, closest).Some? ==>
              var f := ResolveFilename(hint, listing, closest).value;
              && (page < 1 || page > |load(f)| <==> r == OutOfRange(page, |load(f)|))
              && (1 <= page <= |load(f)| <==> r.Content?)
              && (r.Content? ==> r == Content(f, page, load(f)[page - 1]))
  {
    match ResolveFilename(hint, listing, closest)
    case None => NoMatch(hint)
    case Some(f) =>
      var pages := load(f);
      if page < 1 || page > |pages| then OutOfRange(page, |pages|)
      else Content(f, page, pages[page - 1])
  }

  // ---------------------------------------------------------------------
  // Ingesting a folder
  // ---------------------------------------------------------------------

  /** A loaded page with the metadata the ingestor adds. */
  datatype PageRecord = PageRecord(sourceFile: string, pageNumber: nat, text: string)

  /** The listing filter of `persist_documents_from_folder`: the suffix is
      compared as is, so ".PDF" is not ingested. */
  predicate IsIngested(f: string) {
    EndsWith(f, ".pdf")
  }

  function PageRecords(f: string, pages: seq<string>): (r: seq<PageRecord>)
    ensures |r| == |pages|
    ensures forall i :: 0 <= i < |pages| ==> r[i] == PageRecord(f, i + 1, pages[i])
  {
    seq(|pages|, i requires 0 <= i < |pages| => PageRecord(f, i + 1, pages[i]))
  }

  function TotalPages(files: seq<string>, load: Loader): nat {
    if files == [] then 0 else |load(files[0])| + TotalPages(files[1..], load)
  }

  /** Every page of every file, file by file: each record names a listed
      file and one of its pages by its 1-based number, with that page's
      text. */
  function AllPages(files: seq<string>, load: Loader): (r: seq<PageRecord>)
    ensures |r| == TotalPages(files, load)
    ensures forall k :: 0 <= k < |r| ==>
              && r[k].sourceFile in files
              && 1 <= r[k].pageNumber <= |load(r[k].sourceFile)|
              && r[k].text == load(r[k].sourceFile)[r[k].pageNumber - 1]
  {
    if files == [] then []
    else
      var head := PageRecords(files[0], load(files[0]));
      var tail := AllPages(files[1..], load);
      assert forall k :: 0 <= k < |tail| ==> tail[k].sourceFile in files;
      head + tail
  }

  /** No page is lost: every page of every listed file has its record. */
  lemma {:induction false} AllPagesComplete(files: seq<string>, load: Loader, f: string, n: nat)
    requires f in files && 1 <= n <= |load(f)|
    ensures PageRecord(f, n, load(f)[n - 1]) in AllPages(files, load)
  {
    var head := PageRecords(files[0], load(files[0]));
    if files[0] == f {
      assert head[n - 1] == PageRecord(f, n, load(f)[n - 1]);
    } else {
      AllPagesComplete(files[1..], load, f, n);
    }
    assert AllPages(files, load) == head + AllPages(files[1..], load);
  }

  datatype PersistAnswer = FolderMissing(folder: string) | NoPdfFiles | Persisted(pages: seq<PageRecord>)

  /** `persist_documents_from_folder(folder_path)` up to the splitter: the
      pages of every ingested file, or the reason there are none. */
  function PersistDocuments(folder: string, folderExists: bool, listing: seq<string>, load: Loader): (r: PersistAnswer)
    ensures !folderExists <==> r == FolderMissing(folder)
    ensures folderExists && TotalPages(Filter(listing, IsIngested), load) == 0 <==> r == NoPdfFiles
    ensures r.Persisted? ==>
              && |r.pages| == TotalPages(Filter(listing, IsIngested), load) > 0
              && forall k :: 0 <= k < |r.pages| ==>
                   r.pages[k].sourceFile in listing && IsIngested(r.pages[k].sourceFile)
    ensures r.Persisted? ==>
              && r.pages == AllPages(Filter(listing, IsIngested), load)
              && forall k :: 0 <= k < |r.pages| ==>
                   && 1 <= r.pages[k].pageNumber <= |load(r.pages[k].sourceFile)|
                   && r.pages[k].text == load(r.pages[k].sourceFile)[r.pages[k].pageNumber - 1]
  {
    if !folderExists then FolderMissing(folder)
    else
      var files := Filter(listing, IsIngested);
      var docs := AllPages(files, load);
      if docs == [] then NoPdfFiles
      else
        forall k | 0 <= k < |docs| ensures docs[k].sourceFile in listing && IsIngested(docs[k].sourceFile) {
          FilterMembership(listing, IsIngested, docs[k].sourceFile);
        }
        Persisted(docs)
  }

  /** The two listing filters disagree: a file whose name ends in ".PDF"
      can be resolved and read page by page, but is never ingested. */
  lemma UpperCaseSuffixNotIngested(stem: string)
    ensures IsPdfName(stem + ".PDF")
    ensures !IsIngested(stem + ".PDF")
  {
    LowerConcat(stem, ".PDF");
    var f := stem + ".PDF";
    assert f[|f| - 4..] == ".PDF";
    assert Lower(f)[|f| - 4..] == Lower(".PDF");
  }
}
