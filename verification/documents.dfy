/** The documents view (components/Documents.tsx): the type filter over the
    document list, and the classification of an uploaded file by its
    extension. The upload's size label is not modelled; its date is today's
    date, taken from the ISO timestamp of "now". */
module Documents {
  import opened Wrappers
  import Seqs
  import Strings
  import opened Crm

  /** The filter buttons: 'All', 'PDF', 'DOCX' and 'Sheets'. */
  datatype DocFilter = ShowAll | ShowPdf | ShowDocx | ShowSheets

  /** The predicate of `filteredDocs`. */
  predicate Shown(filter: DocFilter, doc: Doc)
  {
    match filter
    case ShowAll => true
    case ShowSheets => doc.docType == XLSX
    case ShowPdf => doc.docType == PDF
    case ShowDocx => doc.docType == DOCX
  }

  function ShownTest(filter: DocFilter): Doc -> bool
  {
    (doc: Doc) => Shown(filter, doc)
  }

  /** `filteredDocs`. */
  function FilterDocs(docs: seq<Doc>, filter: DocFilter): seq<Doc>
  {
    Seqs.Filter(docs, ShownTest(filter))
  }

  /** 'All' shows every document; 'Sheets' exactly the XLSX ones; 'PDF' and
      'DOCX' exactly the documents of that type, so an image shows only under
      'All'. Every result keeps the documents' order. */
  lemma FilterDocsExactly(docs: seq<Doc>, filter: DocFilter)
    ensures filter == ShowAll ==> FilterDocs(docs, filter) == docs
    ensures forall d :: d in FilterDocs(docs, filter) <==> (d in docs &&
      match filter
      case ShowAll => true
      case ShowSheets => d.docType == XLSX
      case ShowPdf => d.docType == PDF
      case ShowDocx => d.docType == DOCX)
    ensures forall d :: d in FilterDocs(docs, filter) && d.docType == IMG ==> filter == ShowAll
    ensures Seqs.IsSubsequence(FilterDocs(docs, filter), docs)
  {
    Seqs.FilterKeepsAll(docs, ShownTest(filter));
    Seqs.FilterIsSubsequence(docs, ShownTest(filter));
  }

  /** `name.split('.').pop()?.toUpperCase()`. */
  function Extension(name: string): string
  {
    Strings.Upper(Strings.LastPiece(name, '.'))
  }

  /** The extension is the upper-cased text after the last '.' of the name. */
  lemma ExtensionAfterLastDot(stem: string, ext: string)
    requires '.' !in ext
    ensures Extension(stem + "." + ext) == Strings.Upper(ext)
  {
    var s := stem + "." + ext;
    var t := Strings.LastPiece(s, '.');
    Strings.LastPieceIsSuffix(s, '.');
    assert s[|s| - |ext| - 1] == '.';
    assert forall j :: |s| - |t| <= j < |s| ==> s[j] == t[j - (|s| - |t|)] != '.';
    assert forall j :: |s| - |ext| <= j < |s| ==> s[j] == ext[j - (|s| - |ext|)] != '.';
    assert |t| == |ext|;
    assert t == s[|s| - |ext|..] == ext;
  }

  /** The document type an extension selects. */
  function ExtensionType(extension: string): DocType
  {
    if extension == "XLSX" || extension == "XLS" then XLSX
    else if extension == "DOCX" || extension == "DOC" then DOCX
    else if extension == "PDF" then PDF
    else IMG
  }

  /** The classification table of uploads. */
  lemma ExtensionTypeTable(extension: string)
    ensures ExtensionType(extension) == PDF <==> extension == "PDF"
    ensures ExtensionType(extension) == DOCX <==> extension == "DOCX" || extension == "DOC"
    ensures ExtensionType(extension) == XLSX <==> extension == "XLSX" || extension == "XLS"
    ensures ExtensionType(extension) == IMG <==>
      extension !in ["PDF", "DOCX", "DOC", "XLSX", "XLS"]
  {
  }

  /** The `let type` of `handleUpload`, reassigned by successive checks, the
      last matching one winning. */
  method ClassifyUpload(extension: string) returns (docType: DocType)
    ensures docType == ExtensionType(extension)
  {
    docType := IMG;
    if extension == "PDF" {
      docType := PDF;
    }
    if extension == "DOCX" || extension == "DOC" {
      docType := DOCX;
    }
    if extension == "XLSX" || extension == "XLS" {
      docType := XLSX;
    }
  }

  /** The chosen file. */
  datatype UploadFile = UploadFile(name: string, size: nat)

  /** The document `handleUpload` sends to the data service (it has no id yet). */
  datatype NewDoc = NewDoc(name: string, docType: DocType, dateModified: string, owner: string)

  /** `handleUpload`: nothing without a file; otherwise a document with the
      file's name, the type of its extension, today's date and owner 'You'. */
  method Upload(file: Option<UploadFile>, isoNow: string) returns (created: Option<NewDoc>)
    ensures created.None? <==> file.None?
    ensures created.Some? ==>
      created.value == NewDoc(file.value.name, ExtensionType(Extension(file.value.name)), IsoDatePart(isoNow), "You")
  {
    if file.None? {
      return None;
    }
    var extension := Extension(file.value.name);
    var docType := ClassifyUpload(extension);
    created := Some(NewDoc(file.value.name, docType, IsoDatePart(isoNow), "You"));
  }
}
