/** The preview offered under each listed file, chosen from its MIME type and its
    lower-cased name: an image, a text rendering (markdown, a table, or code with
    an optional highlighting language), a notice for PDF files, or nothing. */
module Preview {
  import opened Wrappers
  import opened Text
  import opened Files

  datatype TextKind = Markdown | Table | Code(language: Option<string>)

  datatype Preview = ImagePreview | TextPreview(kind: TextKind) | PdfNotice | NoPreview

  const TextExtensions: seq<string> := [".txt", ".md", ".py", ".json", ".csv", ".html", ".css", ".js"]

  const CodeLanguages: seq<string> := ["py", "json", "html", "css", "js"]

  /** `any(name.endswith(ext) for ext in exts)`. */
  function AnyEndsWith(name: string, exts: seq<string>): (b: bool)
    ensures b <==> exists i :: 0 <= i < |exts| && EndsWith(name, exts[i])
  {
    if exts == [] then false
    else EndsWith(name, exts[0]) || AnyEndsWith(name, exts[1..])
  }

  /** The highlighting language of a code preview: the text after the last dot,
      when it is one of the known languages. */
  function CodeLanguage(fileName: string): (lang: Option<string>)
    ensures lang.Some? <==> LastSegment(fileName, '.') in CodeLanguages
    ensures lang.Some? ==> lang.value == LastSegment(fileName, '.')
    ensures lang.Some? ==> lang.value in CodeLanguages && '.' !in lang.value
  {
    var ext := LastSegment(fileName, '.');
    if ext in CodeLanguages then Some(ext) else None
  }

  /** The preview for a MIME type and an already lower-cased file name. The tests
      are taken in order: the image preview is chosen exactly when the MIME type
      starts with "image/", whatever the name; the text preview exactly when the
      name ends with a text extension and the file is no image; the PDF notice
      only when neither applies; otherwise there is no preview. */
  function Classify(mimeType: string, fileName: string): (p: Preview)
    ensures p == ImagePreview <==> StartsWith(mimeType, "image/")
    ensures p.TextPreview? <==> !StartsWith(mimeType, "image/") && AnyEndsWith(fileName, TextExtensions)
    ensures p == PdfNotice
        <==> !StartsWith(mimeType, "image/") && !AnyEndsWith(fileName, TextExtensions)
             && EndsWith(fileName, ".pdf")
    ensures p == NoPreview
        <==> !StartsWith(mimeType, "image/") && !AnyEndsWith(fileName, TextExtensions)
             && !EndsWith(fileName, ".pdf")
  {
    if StartsWith(mimeType, "image/") then ImagePreview
    else if AnyEndsWith(fileName, TextExtensions) then
      if EndsWith(fileName, ".md") then TextPreview(Markdown)
      else if EndsWith(fileName, ".csv") then TextPreview(Table)
      else TextPreview(Code(CodeLanguage(fileName)))
    else if EndsWith(fileName, ".pdf") then PdfNotice
    else NoPreview
  }

  /** The preview of a listed file: its name is lower-cased first, its MIME type
      is taken as it is. */
  function FilePreview(f: DriveFile): (p: Preview)
    ensures p == ImagePreview <==> StartsWith(MimeOf(f), "image/")
    ensures p.TextPreview?
        <==> !StartsWith(MimeOf(f), "image/") && AnyEndsWith(Lower(f.name), TextExtensions)
  {
    Classify(MimeOf(f), Lower(f.name))
  }

  /** The dotted extension of a name: the text after its last dot, when the
      name has a dot at all. */
  function Extension(fileName: string): (ext: Option<string>)
    ensures ext.Some? ==> '.' !in ext.value && EndsWith(fileName, "." + ext.value)
    ensures ext.None? ==> '.' !in fileName
  {
    var last := LastSegment(fileName, '.');
    if |last| < |fileName| then
      EndsWithSeparated(fileName, '.', last);
      Some(last)
    else None
  }

  /** The same choice written as a lookup on the extension. */
  function ByExtension(mimeType: string, fileName: string): Preview {
    if StartsWith(mimeType, "image/") then ImagePreview
    else
      match Extension(fileName)
      case None => NoPreview
      case Some(ext) =>
        if ext == "md" then TextPreview(Markdown)
        else if ext == "csv" then TextPreview(Table)
        else if ext in CodeLanguages then TextPreview(Code(Some(ext)))
        else if ext == "txt" then TextPreview(Code(None))
        else if ext == "pdf" then PdfNotice
        else NoPreview
  }

  /** Ends with ".<ext>" for a dot-free `ext` exactly when `ext` is the extension. */
  lemma EndsWithExtension(fileName: string, ext: string)
    requires '.' !in ext
    ensures EndsWith(fileName, "." + ext) <==> Extension(fileName) == Some(ext)
  {
    EndsWithSeparated(fileName, '.', ext);
  }

  /** The text extensions without their leading dot. */
  const TextNames: seq<string> := ["txt", "md", "py", "json", "csv", "html", "css", "js"]

  /** A name has a text extension exactly when its extension is a text name. */
  lemma TextExtensionMatch(fileName: string)
    ensures AnyEndsWith(fileName, TextExtensions)
        <==> Extension(fileName).Some? && Extension(fileName).value in TextNames
  {
    if AnyEndsWith(fileName, TextExtensions) {
      var i :| 0 <= i < |TextExtensions| && EndsWith(fileName, TextExtensions[i]);
      TextExtensionAt(fileName, i);
    }
    if Extension(fileName).Some? && Extension(fileName).value in TextNames {
      var i :| 0 <= i < |TextNames| && TextNames[i] == Extension(fileName).value;
      TextExtensionAt(fileName, i);
    }
  }

  lemma TextExtensionAt(fileName: string, i: nat)
    requires i < |TextNames|
    ensures i < |TextExtensions|
    ensures EndsWith(fileName, TextExtensions[i]) <==> Extension(fileName) == Some(TextNames[i])
  {
    TextExtensionDotted(i);
    EndsWithExtension(fileName, TextNames[i]);
  }

  lemma TextExtensionDotted(i: nat)
    requires i < |TextNames|
    ensures |TextExtensions| == |TextNames|
    ensures TextExtensions[i] == "." + TextNames[i] && '.' !in TextNames[i]
  {
  }

  /** The chain of suffix tests agrees with the lookup on the extension. */
  lemma ClassifyByExtension(mimeType: string, fileName: string)
    ensures Classify(mimeType, fileName) == ByExtension(mimeType, fileName)
  {
    if !StartsWith(mimeType, "image/") {
      match Extension(fileName)
      case None => ClassifyNoExtension(mimeType, fileName);
      case Some(ext) =>
        if ext in TextNames {
          ClassifyTextExtension(mimeType, fileName);
        } else {
          ClassifyOtherExtension(mimeType, fileName);
        }
    }
  }

  lemma ClassifyNoExtension(mimeType: string, fileName: string)
    requires !StartsWith(mimeType, "image/") && Extension(fileName).None?
    ensures Classify(mimeType, fileName) == ByExtension(mimeType, fileName)
  {
    TextExtensionMatch(fileName);
    NamedSuffixes(fileName);
  }

  lemma ClassifyTextExtension(mimeType: string, fileName: string)
    requires !StartsWith(mimeType, "image/")
    requires Extension(fileName).Some? && Extension(fileName).value in TextNames
    ensures Classify(mimeType, fileName) == ByExtension(mimeType, fileName)
  {
    TextExtensionMatch(fileName);
    NamedSuffixes(fileName);
    TextByExtension(mimeType, fileName);
    CodeLanguageOfExtension(fileName);
  }

  /** A text name is looked up as markdown, a table, or code in the language it
      names (none for "txt"). */
  lemma TextByExtension(mimeType: string, fileName: string)
    requires !StartsWith(mimeType, "image/")
    requires Extension(fileName).Some? && Extension(fileName).value in TextNames
    ensures var ext := Extension(fileName).value;
      ByExtension(mimeType, fileName)
      == TextPreview(if ext == "md" then Markdown
                     else if ext == "csv" then Table
                     else Code(if ext in CodeLanguages then Some(ext) else None))
  {
  }

  /** The highlighting language is the extension, when that is a known language. */
  lemma CodeLanguageOfExtension(fileName: string)
    requires Extension(fileName).Some?
    ensures CodeLanguage(fileName)
         == if Extension(fileName).value in CodeLanguages then Some(Extension(fileName).value) else None
  {
  }

  /** A name that is no text file is looked up as a PDF or as nothing. */
  lemma OtherByExtension(mimeType: string, fileName: string)
    requires !StartsWith(mimeType, "image/")
    requires Extension(fileName).Some? && Extension(fileName).value !in TextNames
    ensures ByExtension(mimeType, fileName)
         == if Extension(fileName).value == "pdf" then PdfNotice else NoPreview
  {
    assert TextNames[0] == "txt" && TextNames[1] == "md" && TextNames[4] == "csv";
    assert forall lang :: lang in CodeLanguages ==> lang in TextNames;
  }

  /** The four suffixes the preview tests one by one, as extensions. */
  lemma NamedSuffixes(fileName: string)
    ensures EndsWith(fileName, ".md") <==> Extension(fileName) == Some("md")
    ensures EndsWith(fileName, ".csv") <==> Extension(fileName) == Some("csv")
    ensures EndsWith(fileName, ".txt") <==> Extension(fileName) == Some("txt")
    ensures EndsWith(fileName, ".pdf") <==> Extension(fileName) == Some("pdf")
  {
    EndsWithExtension(fileName, "md");
    EndsWithExtension(fileName, "csv");
    EndsWithExtension(fileName, "txt");
    EndsWithExtension(fileName, "pdf");
    assert "." + "md" == ".md" && "." + "csv" == ".csv";
    assert "." + "txt" == ".txt" && "." + "pdf" == ".pdf";
  }

  lemma ClassifyOtherExtension(mimeType: string, fileName: string)
    requires !StartsWith(mimeType, "image/")
    requires Extension(fileName).Some? && Extension(fileName).value !in TextNames
    ensures Classify(mimeType, fileName) == ByExtension(mimeType, fileName)
  {
    OtherByExtension(mimeType, fileName);
    TextExtensionMatch(fileName);
    NamedSuffixes(fileName);
  }

  /** Within the text preview a name ending in ".md" is rendered as markdown. */
  lemma MarkdownKind(mimeType: string, fileName: string)
    requires !StartsWith(mimeType, "image/")
    ensures Classify(mimeType, fileName) == TextPreview(Markdown) <==> EndsWith(fileName, ".md")
  {
    assert TextExtensions[1] == ".md";
  }

  /** Within the text preview a name ending in ".csv" is rendered as a table. */
  lemma TableKind(mimeType: string, fileName: string)
    requires !StartsWith(mimeType, "image/")
    ensures Classify(mimeType, fileName) == TextPreview(Table) <==> EndsWith(fileName, ".csv")
  {
    assert TextExtensions[4] == ".csv";
    NamedSuffixes(fileName);
  }

  /** A ".txt" name is shown as code without a highlighting language, and it is
      the only text extension that is. */
  lemma PlainTextKind(mimeType: string, fileName: string)
    requires !StartsWith(mimeType, "image/")
    ensures Classify(mimeType, fileName) == TextPreview(Code(None)) <==> EndsWith(fileName, ".txt")
  {
    ClassifyByExtension(mimeType, fileName);
    PlainTextByExtension(mimeType, fileName);
  }

  lemma PlainTextByExtension(mimeType: string, fileName: string)
    requires !StartsWith(mimeType, "image/")
    ensures ByExtension(mimeType, fileName) == TextPreview(Code(None)) <==> EndsWith(fileName, ".txt")
  {
    NamedSuffixes(fileName);
  }

  /** Code is highlighted in `lang` exactly when `lang` is a known language and
      the name ends with "." followed by it. */
  lemma CodeLanguageKind(mimeType: string, fileName: string, lang: string)
    requires !StartsWith(mimeType, "image/")
    ensures Classify(mimeType, fileName) == TextPreview(Code(Some(lang)))
        <==> lang in CodeLanguages && EndsWith(fileName, "." + lang)
  {
    ClassifyByExtension(mimeType, fileName);
    CodeByExtension(mimeType, fileName, lang);
  }

  lemma CodeByExtension(mimeType: string, fileName: string, lang: string)
    requires !StartsWith(mimeType, "image/")
    ensures ByExtension(mimeType, fileName) == TextPreview(Code(Some(lang)))
        <==> lang in CodeLanguages && EndsWith(fileName, "." + lang)
  {
    if lang in CodeLanguages {
      EndsWithExtension(fileName, lang);
    }
  }

  /** Matching ignores the case of the name: two files whose names differ only in
      case, with the same MIME type, get the same preview. */
  lemma PreviewIgnoresCase(f: DriveFile, g: DriveFile)
    requires SameIgnoringCase(f.name, g.name) && MimeOf(f) == MimeOf(g)
    ensures FilePreview(f) == FilePreview(g)
  {
    LowerIgnoresCase(f.name, g.name);
  }

  lemma CsvExample()
    ensures FilePreview(DriveFile("a", "Report.CSV", None, Some("text/csv"))) == TextPreview(Table)
  {
    assert Lower("Report.CSV") == "report.csv";
    DiffersFromPrefix("text/csv", "image/", 0);
    assert EndsWith("report.csv", ".csv");
    TableKind("text/csv", "report.csv");
  }

  lemma ImageExample()
    ensures FilePreview(DriveFile("b", "photo.JPG", None, Some("image/jpeg"))) == ImagePreview
  {
    assert StartsWith("image/jpeg", "image/");
  }

  lemma NoPreviewExample()
    ensures FilePreview(DriveFile("c", "archive.zip", None, Some("application/zip"))) == NoPreview
  {
    ArchiveLower();
    ZipByExtension();
    ClassifyByExtension("application/zip", "archive.zip");
  }

  lemma ArchiveLower()
    ensures Lower("archive.zip") == "archive.zip"
  {
  }

  lemma ZipByExtension()
    ensures ByExtension("application/zip", "archive.zip") == NoPreview
  {
    DiffersFromPrefix("application/zip", "image/", 0);
    EndsWithExtension("archive.zip", "zip");
    assert EndsWith("archive.zip", "." + "zip");
  }

  lemma TxtExample()
    ensures FilePreview(DriveFile("d", "notes.txt", None, None)) == TextPreview(Code(None))
  {
    assert Lower("notes.txt") == "notes.txt";
    assert EndsWith("notes.txt", ".txt");
    PlainTextKind("", "notes.txt");
  }

  lemma PythonExample()
    ensures FilePreview(DriveFile("e", "main.PY", None, None)) == TextPreview(Code(Some("py")))
  {
    assert Lower("main.PY") == "main.py";
    assert "py" in CodeLanguages;
    assert EndsWith("main.py", "." + "py");
    CodeLanguageKind("", "main.py", "py");
  }
}
