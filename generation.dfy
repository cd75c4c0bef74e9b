/**
 * Single-document generation: DocTemplateService.generatePdf and the resource
 * lookup it relies on. Loading, font discovery, directory creation and export
 * are environment outcomes; the document's text nodes are resolved in place.
 */
module Generation {
  import opened Wrappers
  import opened Substitution
  import opened Resolver
  import opened Exceptions

  // ---------------------------------------------------------------------------
  // String.trim and the blank-argument checks

  /** s without its leading characters <= ' ' (the first half of String.trim). */
  function TrimStart(s: string): (r: string)
    ensures |r| <= |s| && r == s[|s| - |r|..]
    ensures forall i :: 0 <= i < |s| - |r| ==> s[i] <= ' '
    ensures r != [] ==> r[0] > ' '
  {
    if s != [] && s[0] <= ' ' then TrimStart(s[1..]) else s
  }

  /** s without its trailing characters <= ' ' (the second half of String.trim). */
  function TrimEnd(s: string): (r: string)
    ensures |r| <= |s| && r == s[..|r|]
    ensures forall i :: |r| <= i < |s| ==> s[i] <= ' '
    ensures r != [] ==> r[|r| - 1] > ' '
  {
    if s != [] && s[|s| - 1] <= ' ' then TrimEnd(s[..|s| - 1]) else s
  }

  /** String.trim: both ends stripped of characters <= ' '. */
  function Trim(s: string): string {
    TrimEnd(TrimStart(s))
  }

  /** `s.trim().isEmpty()` holds exactly when every character of s is <= ' '. */
  lemma TrimEmptyIff(s: string)
    ensures Trim(s) == "" <==> AllWhitespace(s)
  {
    var t := TrimStart(s);
    if t != [] {
      assert TrimEnd(t) != [] by {
        assert t[0] > ' ';
      }
      assert s[|s| - |t|] > ' ';
    }
  }

  /** Every character is <= ' ', so trimming leaves nothing (TrimEmptyIff). */
  predicate AllWhitespace(s: string) {
    forall i :: 0 <= i < |s| ==> s[i] <= ' '
  }

  /**
   * A null or blank argument, as the guards `x == null || x.trim().isEmpty()`
   * test it; TrimEmptyIff shows the two readings of "blank" agree.
   */
  predicate Blank(s: Option<string>) {
    s.None? || AllWhitespace(s.value)
  }

  /** The argument checks of generatePdf, in source order; None when both pass. */
  function RequestError(template: Option<string>, output: Option<string>): (r: Option<Throwable>)
    ensures r.None? <==> !Blank(template) && !Blank(output)
    ensures r.Some? ==> r.value.cls == IllegalArgumentException && r.value.cause.None?
  {
    if Blank(template) then Some(Raise(IllegalArgumentException, "templateFileName must not be empty"))
    else if Blank(output) then Some(Raise(IllegalArgumentException, "outputName must not be empty"))
    else None
  }

  // ---------------------------------------------------------------------------
  // Output naming

  /** String.endsWith. */
  predicate EndsWith(s: string, suffix: string) {
    |suffix| <= |s| && s[|s| - |suffix|..] == suffix
  }

  /** The output name with ".pdf" appended unless it already ends with it (case-sensitively). */
  function NormalizeOutputName(name: string): (r: string)
    ensures EndsWith(r, ".pdf")
  {
    if EndsWith(name, ".pdf") then name else name + ".pdf"
  }

  /** Normalisation leaves exactly the names already ending in ".pdf" unchanged. */
  lemma NormalizeIdentityIff(name: string)
    ensures NormalizeOutputName(name) == name <==> EndsWith(name, ".pdf")
  {
    if !EndsWith(name, ".pdf") {
      assert |NormalizeOutputName(name)| == |name| + 4;
    }
  }

  /** Normalising twice is normalising once. */
  lemma NormalizeIdempotent(name: string)
    ensures NormalizeOutputName(NormalizeOutputName(name)) == NormalizeOutputName(name)
  {
    NormalizeIdentityIff(NormalizeOutputName(name));
  }

  /** The check is case-sensitive: an upper-case extension gets ".pdf" appended. */
  lemma NormalizeUpperCaseExtension()
    ensures NormalizeOutputName("report.PDF") == "report.PDF.pdf"
  {
    assert "report.PDF"[6..] != ".pdf" by { assert "report.PDF"[6..][1] != ".pdf"[1]; }
  }

  /** The output directory, relative to the working directory. */
  const OutputDirectory := "pdfs"

  /** Paths.get("pdfs").resolve(name): an absolute name replaces the directory. */
  function OutputPath(name: string): (p: string)
    ensures !StartsWith(name, "/") ==> p == OutputDirectory + "/" + name
  {
    if StartsWith(name, "/") then name else OutputDirectory + "/" + name
  }

  /** Resolving against the output directory keeps the name's ".pdf" ending. */
  lemma OutputPathKeepsExtension(name: string)
    requires EndsWith(name, ".pdf")
    ensures EndsWith(OutputPath(name), ".pdf")
  {
    if !StartsWith(name, "/") {
      var p := OutputPath(name);
      assert p[|p| - 4..] == name[|name| - 4..];
    }
  }

  // ---------------------------------------------------------------------------
  // Resource lookup

  /** The package of DocTemplateService as a resource path prefix. */
  const ClassPackage := "com/mak/service/"

  /** What opening and loading a classpath resource gives: its text nodes, or what was thrown. */
  type Loaded = Result<seq<TextNode>, Throwable>

  /**
   * Class.getResource: a name with a leading '/' is absolute; any other name is
   * relative to the class's package. None when there is no such resource.
   */
  function GetResource(classpath: map<string, Loaded>, name: string): Option<Loaded> {
    var path := if StartsWith(name, "/") then name[1..] else ClassPackage + name;
    if path in classpath then Some(classpath[path]) else None
  }

  /** getResourceAsStream: the name as an absolute resource first, then as given. */
  function LookupTemplate(classpath: map<string, Loaded>, name: string): Option<Loaded> {
    var normalized := if StartsWith(name, "/") then name else "/" + name;
    var first := GetResource(classpath, normalized);
    if first.Some? then first else GetResource(classpath, name)
  }

  /** A plain name is looked up at the classpath root first, then inside the class's package. */
  lemma LookupPlainName(classpath: map<string, Loaded>, name: string)
    requires !StartsWith(name, "/")
    ensures LookupTemplate(classpath, name) ==
      if name in classpath then Some(classpath[name])
      else if ClassPackage + name in classpath then Some(classpath[ClassPackage + name])
      else None
  {
    assert StartsWith("/" + name, "/");
    assert ("/" + name)[1..] == name;
  }

  /** A name with a leading '/' is looked up at the classpath root only. */
  lemma LookupAbsoluteName(classpath: map<string, Loaded>, name: string)
    requires StartsWith(name, "/")
    ensures LookupTemplate(classpath, name) ==
      if name[1..] in classpath then Some(classpath[name[1..]]) else None
  {
  }

  // ---------------------------------------------------------------------------
  // generatePdf

  /**
   * The outcomes of the steps generatePdf cannot compute itself: the classpath,
   * font discovery (whose failure is swallowed), the XPath query for text nodes,
   * creating the output directory and opening the output stream, and the export.
   */
  datatype Environment = Environment(
    classpath: map<string, Loaded>,
    fontSetup: Option<Throwable>,
    traversal: Option<Throwable>,
    outputDirectory: Option<Throwable>,
    conversion: Option<Throwable>)

  /** A generated PDF: its path and the resolved document it was exported from. */
  datatype Artifact = Artifact(path: string, document: seq<TextNode>)

  /** replacePlaceholders' `catch (Exception ex)`: exceptions are wrapped, errors pass through. */
  function ReplaceFailure(t: Throwable): (r: Throwable)
    ensures !IsError(t.cls) ==> r.cls == Docx4JException && r.cause == Some(t)
    ensures IsError(t.cls) ==> r == t
  {
    if IsError(t.cls) then t
    else Wrap(Docx4JException, "Failed to replace placeholders via XPath (paragraph-aware)", t)
  }

  /** The hint given when the PDF exporter's classes are missing at run time. */
  const MissingExporterMessage := "Missing classes for PDF export. Ensure dependency 'org.docx4j:docx4j-export-fo' is on the runtime classpath (use Maven exec or the shaded jar)."

  /** A missing exporter class becomes a Docx4JException with a hint; anything else passes through. */
  function ExportFailure(t: Throwable): (r: Throwable)
    ensures t.cls == NoClassDefFoundError ==> r.cls == Docx4JException && r.cause == Some(t)
    ensures t.cls != NoClassDefFoundError ==> r == t
  {
    if t.cls == NoClassDefFoundError then
      Wrap(Docx4JException, MissingExporterMessage, t)
    else t
  }

  /** The message of the FileNotFoundException for a template the classpath lacks. */
  function NotFoundMessage(name: string): string {
    "Template not found in resources: " + name
  }

  /** What generatePdf returns or throws, step by step in source order. */
  function GenerationOutcome(env: Environment, template: Option<string>, metadata: Option<Metadata>,
                             output: Option<string>): Result<Artifact, Throwable>
  {
    match RequestError(template, output)
    case Some(e) => Failure(e)
    case None =>
      match LookupTemplate(env.classpath, template.value)
      case None => Failure(Raise(FileNotFoundException, NotFoundMessage(template.value)))
      case Some(Failure(t)) => Failure(t)
      case Some(Success(nodes)) =>
        if env.traversal.Some? then Failure(ReplaceFailure(env.traversal.value))
        else if env.outputDirectory.Some? then Failure(env.outputDirectory.value)
        else if env.conversion.Some? then Failure(ExportFailure(env.conversion.value))
        else Success(Artifact(OutputPath(NormalizeOutputName(output.value)), Resolve(nodes, metadata.GetOr([]))))
  }

  /**
   * generatePdf: check the arguments, normalise the output name, load the
   * template, resolve its placeholders in place (a null map counts as empty),
   * and export to pdfs/<name>.
   */
  method GeneratePdf(env: Environment, template: Option<string>, metadata: Option<Metadata>, output: Option<string>)
    returns (r: Result<Artifact, Throwable>)
    ensures r == GenerationOutcome(env, template, metadata, output)
  {
    var error := RequestError(template, output);
    if error.Some? {
      return Failure(error.value);
    }
    var name := template.value;
    var normalized := NormalizeOutputName(output.value);
    var stream := LookupTemplate(env.classpath, name);
    if stream.None? {
      return Failure(Raise(FileNotFoundException, NotFoundMessage(name)));
    }
    if stream.value.Failure? {
      return Failure(stream.value.error);
    }
    var loaded := stream.value.value;
    // A failure of font discovery (env.fontSetup) is caught and ignored.
    var safeMeta := if metadata.Some? then metadata.value else [];
    if env.traversal.Some? {
      return Failure(ReplaceFailure(env.traversal.value));
    }
    var document := new TextNode[|loaded|](i requires 0 <= i < |loaded| => loaded[i]);
    assert document[..] == loaded;
    ReplacePlaceholders(document, safeMeta);
    if env.outputDirectory.Some? {
      return Failure(env.outputDirectory.value);
    }
    if env.conversion.Some? {
      return Failure(ExportFailure(env.conversion.value));
    }
    return Success(Artifact(OutputPath(normalized), document[..]));
  }

  // ---------------------------------------------------------------------------
  // Properties of generation

  /** The template name is checked first, whatever else holds. */
  lemma BlankTemplateRejected(env: Environment, template: Option<string>, metadata: Option<Metadata>, output: Option<string>)
    requires Blank(template)
    ensures GenerationOutcome(env, template, metadata, output)
         == Failure(Raise(IllegalArgumentException, "templateFileName must not be empty"))
  {
  }

  /** The output name is checked second. */
  lemma BlankOutputRejected(env: Environment, template: Option<string>, metadata: Option<Metadata>, output: Option<string>)
    requires !Blank(template) && Blank(output)
    ensures GenerationOutcome(env, template, metadata, output)
         == Failure(Raise(IllegalArgumentException, "outputName must not be empty"))
  {
  }

  /** A template the classpath does not hold is reported by name. */
  lemma MissingTemplateReported(env: Environment, template: string, metadata: Option<Metadata>, output: Option<string>)
    requires !Blank(Some(template)) && !Blank(output)
    requires LookupTemplate(env.classpath, template).None?
    ensures GenerationOutcome(env, Some(template), metadata, output)
         == Failure(Raise(FileNotFoundException, "Template not found in resources: " + template))
  {
  }

  /**
   * Generation succeeds exactly when both names are non-blank, the template is
   * found and loads, and no later step fails; the PDF then lies at pdfs/ under the
   * normalised name (or at the absolute name itself), ends in ".pdf", and holds
   * the template's document with its placeholders resolved.
   */
  lemma GenerationSucceedsIff(env: Environment, template: Option<string>, metadata: Option<Metadata>, output: Option<string>)
    ensures var r := GenerationOutcome(env, template, metadata, output);
      r.Success? <==>
        && !Blank(template) && !Blank(output)
        && LookupTemplate(env.classpath, template.value).Some?
        && LookupTemplate(env.classpath, template.value).value.Success?
        && env.traversal.None? && env.outputDirectory.None? && env.conversion.None?
    ensures var r := GenerationOutcome(env, template, metadata, output);
      r.Success? ==>
        && r.value.path == OutputPath(NormalizeOutputName(output.value))
        && EndsWith(r.value.path, ".pdf")
        && r.value.document == Resolve(LookupTemplate(env.classpath, template.value).value.value, metadata.GetOr([]))
  {
    var r := GenerationOutcome(env, template, metadata, output);
    if r.Success? {
      OutputPathKeepsExtension(NormalizeOutputName(output.value));
    }
  }

  /** A null metadata map behaves as an empty one, leaving every text node as loaded. */
  lemma NullMetadataIsEmpty(env: Environment, template: Option<string>, output: Option<string>)
    ensures GenerationOutcome(env, template, None, output) == GenerationOutcome(env, template, Some([]), output)
    ensures var r := GenerationOutcome(env, template, None, output);
      r.Success? ==> r.value.document == LookupTemplate(env.classpath, template.value).value.value
  {
    var r := GenerationOutcome(env, template, None, output);
    if r.Success? {
      ResolveEmptyMetadata(LookupTemplate(env.classpath, template.value).value.value);
    }
  }

  /** A failure of font discovery never changes the outcome. */
  lemma FontSetupIgnored(env: Environment, failure: Option<Throwable>, template: Option<string>,
                         metadata: Option<Metadata>, output: Option<string>)
    ensures GenerationOutcome(env.(fontSetup := failure), template, metadata, output)
         == GenerationOutcome(env, template, metadata, output)
  {
  }

  /** "junit-output" does not end in ".pdf". */
  lemma JunitNameNormalized()
    ensures NormalizeOutputName("junit-output") == "junit-output" + ".pdf"
  {
    assert "junit-output"[8..] != ".pdf" by { assert "junit-output"[8..][0] != ".pdf"[0]; }
  }

  /** The literal path of the unit test's output. */
  lemma JunitPathText()
    ensures OutputDirectory + "/" + ("junit-output" + ".pdf") == "pdfs/junit-output.pdf"
  {
  }

  /** The unit test's call: "junit-output" becomes pdfs/junit-output.pdf. */
  lemma JunitOutputPath()
    ensures OutputPath(NormalizeOutputName("junit-output")) == "pdfs/junit-output.pdf"
  {
    JunitNameNormalized();
    var name := "junit-output" + ".pdf";
    assert !StartsWith(name, "/") by { assert name[0] != '/'; }
    JunitPathText();
  }
}
