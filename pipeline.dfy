/**
 * The drop pipeline of the renderer: the extension dispatch of processFile
 * (renderer.js:223-277), the batch loop of processFiles (renderer.js:192-221),
 * the image saves (renderer.js:773-859) and the SVG pipeline
 * (renderer.js:347-381). The AI services are optional results, the clock
 * a function from the index of a getTimestamp() call to its stamp.
 */
module Pipeline {
  import opened Strings
  import opened NodePath
  import opened Timestamps
  import opened FolderNaming
  import opened Documents
  import FolderListing
  import Settings

  /** The extensions processFile accepts, after lower-casing. */
  const SupportedTypes: seq<string> := [".png", ".jpg", ".jpeg", ".svg", ".pdf", ".doc", ".docx", ".xls", ".xlsx", ".ppt", ".pptx"]

  /** The handler a supported file goes to. */
  datatype FileKind = Image | Svg | Pdf | Word | Excel | PowerPoint

  /** The switch of processFile over a lower-cased extension. */
  function KindOf(ext: string): Option<FileKind>
  {
    if ext == ".png" || ext == ".jpg" || ext == ".jpeg" then Some(Image)
    else if ext == ".svg" then Some(Svg)
    else if ext == ".pdf" then Some(Pdf)
    else if ext == ".doc" || ext == ".docx" then Some(Word)
    else if ext == ".xls" || ext == ".xlsx" then Some(Excel)
    else if ext == ".ppt" || ext == ".pptx" then Some(PowerPoint)
    else None
  }

  /**
   * The dispatch table: exactly the supported extensions have a handler,
   * and each goes to the handler of its kind.
   */
  lemma KindOfTable(ext: string)
    ensures KindOf(ext).Some? <==> ext in SupportedTypes
    ensures KindOf(ext) == Some(Image) <==> ext in SupportedTypes[..3]
    ensures KindOf(ext) == Some(Svg) <==> ext == ".svg"
    ensures KindOf(ext) == Some(Pdf) <==> ext == ".pdf"
    ensures KindOf(ext) == Some(Word) <==> ext in [".doc", ".docx"]
    ensures KindOf(ext) == Some(Excel) <==> ext in [".xls", ".xlsx"]
    ensures KindOf(ext) == Some(PowerPoint) <==> ext in [".ppt", ".pptx"]
  {
  }

  /** processFile's dispatch on a file name: its extension, lower-cased. */
  function Dispatch(name: string): Option<FileKind>
  {
    KindOf(ToLower(Extname(name)))
  }

  lemma {:induction false} LastDotIgnoresCase(s: string)
    ensures LastIndexOf(ToLower(s), '.') == LastIndexOf(s, '.')
  {
    if s != [] {
      assert ToLower(s)[..|s| - 1] == ToLower(s[..|s| - 1]);
      LastDotIgnoresCase(s[..|s| - 1]);
    }
  }

  /** Lower-casing a name lower-cases its extension and moves nothing. */
  lemma ExtnameIgnoresCase(name: string)
    ensures Extname(ToLower(name)) == ToLower(Extname(name))
  {
    LastDotIgnoresCase(name);
    if ToLower(name) == ".." {
      assert name[0] == '.' && name[1] == '.';
      assert name == "..";
    }
    match LastIndexOf(name, '.')
    case None =>
    case Some(d) =>
      assert ToLower(name)[d..] == ToLower(name[d..]);
  }

  /** Dispatch does not see the case of a name: "REPORT.PDF" goes where "report.pdf" goes. */
  lemma DispatchIgnoresCase(name: string)
    ensures Dispatch(ToLower(name)) == Dispatch(name)
  {
    var ext := Extname(name);
    ExtnameIgnoresCase(name);
    ToLowerIdempotent(ext);
    assert ToLower(Extname(ToLower(name))) == ToLower(ext);
  }

  /** A file processFile accepts has a non-empty extension and a non-empty name before it. */
  lemma SupportedNameHasStem(name: string)
    requires Dispatch(name).Some?
    ensures Extname(name) != [] && Stem(name) != [] && Stem(name) + Extname(name) == name
  {
  }

  /**
   * The base name processFile hands to the image and PDF handlers, as
   * written: the lower-cased extension is stripped from the original name,
   * so nothing is stripped when the extension has upper-case letters.
   */
  function BaseFileNameAsWritten(name: string): string
  {
    BaseName(name, ToLower(Extname(name)))
  }

  /** The base name as written is never empty for a file processFile accepts. */
  lemma AsWrittenBaseNonEmpty(name: string)
    requires Dispatch(name).Some?
    ensures BaseFileNameAsWritten(name) != ""
  {
    var ext := Extname(name);
    KindOfTable(ToLower(ext));
    assert |ToLower(ext)| == |ext| < |name|;
  }

  /** The extension of "Photo.PNG" is ".PNG", which processFile reads as an image but does not strip. */
  lemma PhotoPngBaseName()
    ensures Extname("Photo.PNG") == ".PNG"
    ensures Dispatch("Photo.PNG") == Some(Image)
    ensures BaseFileNameAsWritten("Photo.PNG") == "Photo.PNG"
  {
    var name := "Photo.PNG";
    assert name[5] == '.' && name[6] != '.' && name[7] != '.' && name[8] != '.';
    assert Extname(name) == ".PNG";
    assert ToLower(".PNG") == ".png";
    assert !EndsWith(name, ".png");
  }

  /** "Photo.PNG" is accepted as an image, yet its base name keeps ".PNG". */
  lemma UpperCaseExtensionKept()
    ensures Dispatch("Photo.PNG") == Some(Image)
    ensures BaseFileNameAsWritten("Photo.PNG") == "Photo.PNG"
    ensures BaseFileNameAsWritten("Photo.PNG") + Extname("Photo.PNG") != "Photo.PNG"
    ensures ImageFileName(BaseFileNameAsWritten("Photo.PNG"), true, "") == "Photo.PNG.png"
  {
    PhotoPngBaseName();
    assert |"Photo.PNG" + ".PNG"| != |"Photo.PNG"|;
    assert "Photo.PNG" + ".png" == "Photo.PNG.png";
  }

  /** The extension of "Report.PDF" is ".PDF", which processFile reads as a PDF but does not strip. */
  lemma ReportPdfBaseName()
    ensures Dispatch("Report.PDF") == Some(Pdf)
    ensures BaseFileNameAsWritten("Report.PDF") == "Report.PDF"
  {
    var report := "Report.PDF";
    assert report[6] == '.' && report[7] != '.' && report[8] != '.' && report[9] != '.';
    assert Extname(report) == ".PDF";
    assert ToLower(".PDF") == ".pdf";
    assert !EndsWith(report, ".pdf");
  }

  /** A real drop of "Report.PDF" with two pages names its first page "Report.PDF 1-2.png". */
  lemma ReportFirstPageName()
    ensures PageFileName("Report.PDF", true, 1, 2, "") == "Report.PDF 1-2.png"
  {
    assert NatToString(1) == [DigitChar(1)] == "1";
    assert NatToString(2) == [DigitChar(2)] == "2";
    var stem := "Report.PDF" + " " + NatToString(1) + "-" + NatToString(2);
    assert stem == "Report.PDF 1-2";
  }

  /** A real drop of "Report.PDF" stores the PDF as "Report.PDF.pdf". */
  lemma ReportPdfName()
    ensures PdfFileName("Report.PDF", true, "") == "Report.PDF.pdf"
  {
    assert "Report.PDF" + ".pdf" == "Report.PDF.pdf";
  }

  /** "Report.PDF" is accepted as a PDF, yet its PDF and pages are named after "Report.PDF". */
  lemma UpperCasePdfKept()
    ensures Dispatch("Report.PDF") == Some(Pdf)
    ensures BaseFileNameAsWritten("Report.PDF") == "Report.PDF"
    ensures PdfFileName(BaseFileNameAsWritten("Report.PDF"), true, "") == "Report.PDF.pdf"
    ensures PageFileName(BaseFileNameAsWritten("Report.PDF"), true, 1, 2, "") == "Report.PDF 1-2.png"
  {
    ReportPdfBaseName();
    ReportPdfName();
    ReportFirstPageName();
  }

  /**
   * The base name as intended: the file name without its extension, as the
   * office handlers compute it. The name is the base name followed by the
   * extension, in every case.
   */
  function BaseFileName(name: string): (base: string)
    ensures base + Extname(name) == name
    ensures Dispatch(name).Some? ==> base != []
  {
    Stem(name)
  }

  /** On names whose extension is already lower-case, the two base names agree. */
  lemma BaseFileNameAgreesOnLowerCase(name: string)
    requires ToLower(Extname(name)) == Extname(name)
    ensures BaseFileNameAsWritten(name) == BaseFileName(name)
  {
  }

  /**
   * A file of a batch: its name, and whether a step of its handler that no
   * catch of the handler covers throws. Those steps are: for an image,
   * reading, converting and storing it (renderer.js:248-250, 775-791); for
   * an SVG, reading its bytes (renderer.js:253); for a PDF, creating and
   * removing the rasteriser's temporary folder (renderer.js:290, 343); for
   * a PDF or an office document without a path, copying it to the
   * temporary folder (renderer.js:258, 263-273).
   */
  datatype DroppedFile = DroppedFile(name: string, uncaughtThrow: bool)

  /**
   * What processFile does with one file: an unsupported file is skipped
   * (`false`, nothing written); a supported file whose handler throws
   * outside its own catch propagates the error; every other file is handled.
   */
  datatype FileResult = Skipped | Handled | Threw

  function ResultOf(f: DroppedFile): FileResult
  {
    match Dispatch(f.name)
    case None => Skipped
    case Some(_) => if f.uncaughtThrow then Threw else Handled
  }

  /**
   * processFile returns `false` exactly for an extension outside the
   * supported list, whatever its case; a supported file throws exactly when
   * a step outside its handler's catch does.
   */
  lemma ResultOfCharacterised(f: DroppedFile)
    ensures ResultOf(f) == Skipped <==> ToLower(Extname(f.name)) !in SupportedTypes
    ensures ResultOf(f) == Threw <==> ToLower(Extname(f.name)) in SupportedTypes && f.uncaughtThrow
    ensures ResultOf(DroppedFile(ToLower(f.name), f.uncaughtThrow)) == ResultOf(f)
  {
    KindOfTable(ToLower(Extname(f.name)));
    DispatchIgnoresCase(f.name);
  }

  /** What processFile does with each file of a batch, in order. */
  function Results(files: seq<DroppedFile>): (rs: seq<FileResult>)
    ensures |rs| == |files|
  {
    seq(|files|, i requires 0 <= i < |files| => ResultOf(files[i]))
  }

  /** How many results of a batch are `r`. */
  function Count(rs: seq<FileResult>, r: FileResult): nat
  {
    if rs == [] then 0
    else Count(rs[..|rs| - 1], r) + (if rs[|rs| - 1] == r then 1 else 0)
  }

  /** Counting one more result of a batch. */
  lemma CountStep(rs: seq<FileResult>, i: nat)
    requires i < |rs|
    ensures forall r :: Count(rs[..i + 1], r) == Count(rs[..i], r) + if rs[i] == r then 1 else 0
    ensures Threw in rs[..i + 1] <==> Threw in rs[..i] || rs[i] == Threw
  {
    assert rs[..i + 1] == rs[..i] + [rs[i]];
  }

  /** Without a throw, every file is either handled or skipped. */
  lemma {:induction false} CountsAddUp(rs: seq<FileResult>)
    requires Threw !in rs
    ensures Count(rs, Handled) + Count(rs, Skipped) == |rs|
  {
    if rs != [] {
      CountsAddUp(rs[..|rs| - 1]);
    }
  }

  /** How a batch ends. */
  datatype BatchReport = NothingDetected | Finished(processed: nat, skipped: nat) | Aborted

  /** The status line a batch leaves. */
  datatype Status = SuccessStatus | ErrorStatus | NoStatus

  function StatusOf(report: BatchReport): Status
  {
    match report
    case NothingDetected => ErrorStatus
    case Finished(processed, skipped) =>
      if processed > 0 then SuccessStatus else if skipped > 0 then ErrorStatus else NoStatus
    case Aborted => ErrorStatus
  }

  /**
   * processFiles: an empty batch reports that nothing was detected; a batch
   * is aborted by the first file whose handler throws; otherwise every file
   * is counted once, as processed or as skipped.
   */
  method ProcessFiles(files: seq<DroppedFile>) returns (report: BatchReport)
    ensures files == [] <==> report == NothingDetected
    ensures report.Aborted? <==> Threw in Results(files)
    ensures report.Finished? ==>
              && report.processed == Count(Results(files), Handled)
              && report.skipped == Count(Results(files), Skipped)
              && report.processed + report.skipped == |files|
  {
    if |files| == 0 {
      return NothingDetected;
    }
    ghost var rs := Results(files);
    var processedCount := 0;
    var skippedCount := 0;
    for i := 0 to |files|
      invariant processedCount == Count(rs[..i], Handled) && skippedCount == Count(rs[..i], Skipped)
      invariant Threw !in rs[..i]
    {
      var result := ResultOf(files[i]);
      assert result == rs[i];
      CountStep(rs, i);
      if result == Threw {
        return Aborted;
      } else if result == Skipped {
        skippedCount := skippedCount + 1;
      } else {
        processedCount := processedCount + 1;
      }
    }
    assert rs[..|files|] == rs;
    CountsAddUp(rs);
    report := Finished(processedCount, skippedCount);
  }

  /**
   * The status of a batch that counted each of its files: a success exactly
   * when something was processed, and never silent.
   */
  lemma BatchStatus(report: BatchReport)
    requires report.Finished? ==> report.processed + report.skipped > 0
    ensures StatusOf(report) == SuccessStatus <==> report.Finished? && report.processed > 0
    ensures StatusOf(report) != NoStatus
  {
  }

  /** The AI services are used when AI is enabled and a key is set. */
  predicate AiEnabled(settings: Settings.AppSettings)
  {
    settings.useOpenAI && settings.openAIKey != ""
  }

  /** The stored image: `base.png` on a real drop, `base_<stamp>.png` otherwise. */
  function ImageFileName(baseName: string, realDrop: bool, stamp: string): (name: string)
    ensures FolderListing.IsImageName(name)
    ensures realDrop ==> name == baseName + ".png"
  {
    PngName(if realDrop then baseName else baseName + "_" + stamp)
  }

  /**
   * The description guard: with AI enabled, a description is generated only
   * when none with content exists; a failed generation leaves what was there.
   */
  function DescriptionAfter(aiEnabled: bool, existing: Option<string>, generated: Option<string>): (d: Option<string>)
    ensures !aiEnabled ==> d == existing
    ensures existing.Some? && existing.value != "" ==> d == existing
    ensures aiEnabled && !(existing.Some? && existing.value != "") ==> d == if generated.Some? then generated else existing
  {
    if aiEnabled && !(existing.Some? && existing.value != "") && generated.Some? then generated else existing
  }

  /** A folder holding one image and perhaps `description.txt` lists that image alone. */
  lemma SavedFolderImages(fileName: string, withDescription: bool)
    requires FolderListing.IsImageName(fileName)
    ensures FolderListing.ImageFiles([fileName] + (if withDescription then ["description.txt"] else [])) == [fileName]
  {
    var contents := [fileName] + (if withDescription then ["description.txt"] else []);
    assert !FolderListing.IsImageName("description.txt");
    assert contents[1..] == (if withDescription then ["description.txt"] else []);
    assert FolderListing.ImageFiles(contents[1..]) == [];
  }

  /** The result of saving one image. */
  datatype ImageSaved = ImageSaved(folderName: string, fileName: string, description: Option<string>, recorded: seq<string>)

  /**
   * saveImage and saveImageWithOriginalName (renderer.js:773-815, 817-859).
   * The folder is named by the AI title service when AI is enabled (`title`
   * is its answer, None when it throws), else by the clock. `generated` is
   * the description service's answer. The folder is new, so the guard always
   * lets a description be written, and the only image in it is the saved one.
   */
  method SaveImage(existing: set<string>, settings: Settings.AppSettings, baseName: string, realDrop: bool,
                   title: Option<string>, generated: Option<string>, now: LocalTime, stamp: string)
    returns (saved: ImageSaved)
    requires now.Valid()
    ensures FirstFree(existing, ChooseBaseName(AiEnabled(settings), title, None, now), saved.folderName)
    ensures saved.fileName == ImageFileName(baseName, realDrop, stamp)
    ensures saved.description == if AiEnabled(settings) then generated else None
    ensures saved.recorded == [saved.fileName]
  {
    var folderName, _ := GetFolderName(existing, settings, true, title, None, now);
    var fileName := ImageFileName(baseName, realDrop, stamp);
    var description := DescriptionAfter(AiEnabled(settings), None, generated);
    var contents := [fileName] + (if description.Some? then ["description.txt"] else []);
    assert !FolderListing.IsImageName("description.txt");
    var recorded := FolderListing.ImageFiles(contents);
    SavedFolderImages(fileName, description.Some?);
    saved := ImageSaved(folderName, fileName, description, recorded);
  }

  /** The base name processSVG uses, as written: the literal ".svg" is stripped. */
  function SvgBaseNameAsWritten(fileName: string): string
  {
    BaseName(fileName, ".svg")
  }

  /** "Logo.SVG" is accepted as an SVG, yet its base name keeps ".SVG", and so does its PNG. */
  lemma UpperCaseSvgKept()
    ensures Dispatch("Logo.SVG") == Some(Svg)
    ensures SvgBaseNameAsWritten("Logo.SVG") == "Logo.SVG"
    ensures SvgBaseNameAsWritten("Logo.SVG") + Extname("Logo.SVG") != "Logo.SVG"
    ensures ImageFileName(SvgBaseNameAsWritten("Logo.SVG"), true, "") == "Logo.SVG.png"
  {
    LogoSvgBaseName();
    assert |"Logo.SVG" + ".SVG"| != |"Logo.SVG"|;
    assert "Logo.SVG" + ".png" == "Logo.SVG.png";
  }

  /** The extension of "Logo.SVG" is ".SVG", which dispatches to processSVG but is not a literal ".svg". */
  lemma LogoSvgBaseName()
    ensures Extname("Logo.SVG") == ".SVG"
    ensures Dispatch("Logo.SVG") == Some(Svg)
    ensures SvgBaseNameAsWritten("Logo.SVG") == "Logo.SVG"
  {
    var name := "Logo.SVG";
    assert name[4] == '.' && name[5] != '.' && name[6] != '.' && name[7] != '.';
    assert Extname(name) == ".SVG";
    assert ToLower(".SVG") == ".svg";
    assert !EndsWith(name, ".svg");
  }

  /**
   * On names whose extension is already lower-case, the base names the
   * handlers receive as written are the intended ones, so processFile as
   * written and as intended do the same.
   */
  lemma HandlerBaseNamesAgree(name: string)
    requires ToLower(Extname(name)) == Extname(name)
    ensures BaseFileNameAsWritten(name) == BaseFileName(name)
    ensures Dispatch(name) == Some(Svg) ==> SvgBaseNameAsWritten(name) == BaseFileName(name)
  {
    BaseFileNameAgreesOnLowerCase(name);
    if Dispatch(name) == Some(Svg) {
      KindOfTable(Extname(name));
    }
  }

  /** An SVG is stored; its PNG rendering is stored and both are recorded, or nothing is recorded. */
  datatype SvgOutcome =
    | SvgConverted(folderName: string, svgFileName: string, pngFileName: string)
    | SvgNotConverted(folderName: string, svgFileName: string)
  {
    function Recorded(): seq<string>
    {
      if SvgConverted? then [svgFileName, pngFileName] else []
    }
  }

  /**
   * The body of processSVG (renderer.js:349-380) once its base name is
   * chosen. `converts` is whether the renderer turns the SVG into a PNG.
   * The SVG is stored under clock reading 0, the PNG under reading 1.
   */
  method StoreSvg(existing: set<string>, settings: Settings.AppSettings, fileName: string, baseName: string,
                  realDrop: bool, converts: bool, now: LocalTime, clock: nat -> string)
    returns (outcome: SvgOutcome)
    requires now.Valid()
    ensures FirstFree(existing, ChooseBaseName(false, None, Some(baseName), now), outcome.folderName)
    ensures outcome.svgFileName == if realDrop then fileName else baseName + "_" + clock(0) + ".svg"
    ensures outcome.SvgConverted? <==> converts
    ensures outcome.SvgConverted? ==> outcome.pngFileName == ImageFileName(baseName, realDrop, clock(1))
  {
    var folderName, _ := GetFolderName(existing, settings, false, None, Some(baseName), now);
    var savedSvgFileName := if realDrop then fileName else baseName + "_" + clock(0) + ".svg";
    if !converts {
      return SvgNotConverted(folderName, savedSvgFileName);
    }
    var pngFileName := ImageFileName(baseName, realDrop, clock(1));
    outcome := SvgConverted(folderName, savedSvgFileName, pngFileName);
  }

  /**
   * processSVG (renderer.js:347-381) as written: the folder and the PNG are
   * named after the file name without a literal ".svg".
   */
  method ProcessSvg(existing: set<string>, settings: Settings.AppSettings, fileName: string, realDrop: bool,
                    converts: bool, now: LocalTime, clock: nat -> string)
    returns (outcome: SvgOutcome)
    requires now.Valid()
    ensures FirstFree(existing, ChooseBaseName(false, None, Some(SvgBaseNameAsWritten(fileName)), now), outcome.folderName)
    ensures outcome.svgFileName == if realDrop then fileName else SvgBaseNameAsWritten(fileName) + "_" + clock(0) + ".svg"
    ensures outcome.SvgConverted? <==> converts
    ensures outcome.SvgConverted? ==> outcome.pngFileName == ImageFileName(SvgBaseNameAsWritten(fileName), realDrop, clock(1))
  {
    outcome := StoreSvg(existing, settings, fileName, SvgBaseNameAsWritten(fileName), realDrop, converts, now, clock);
  }

  /**
   * What the outside world answers during one processFile call: the AI
   * title and description services, whether the SVG renderer succeeds, the
   * office converter, the PDF rasteriser's output listing, the local clock
   * and the getTimestamp() readings.
   */
  datatype Environment = Environment(
    title: Option<string>, description: Option<string>, svgConverts: bool,
    conversion: Conversion, raster: Option<seq<string>>, now: LocalTime, clock: nat -> string)

  /** What one processFile call leaves behind. */
  datatype Written =
    | NothingWritten
    | HandlerThrew
    | ImageWritten(image: ImageSaved)
    | SvgWritten(svg: SvgOutcome)
    | PdfWritten(pdf: PdfOutcome)
    | OfficeWritten(office: OfficeOutcome)

  /** What saveImage leaves behind for an image saved under `baseName` (renderer.js:773-815). */
  ghost predicate ImageStored(existing: set<string>, settings: Settings.AppSettings, baseName: string,
                              realDrop: bool, env: Environment, saved: ImageSaved)
    requires env.now.Valid()
  {
    && FirstFree(existing, ChooseBaseName(AiEnabled(settings), env.title, None, env.now), saved.folderName)
    && saved.fileName == ImageFileName(baseName, realDrop, env.clock(0))
    && saved.description == (if AiEnabled(settings) then env.description else None)
    && saved.recorded == [saved.fileName]
  }

  /** What processSVG leaves behind once its base name is `baseName` (renderer.js:349-380). */
  ghost predicate SvgStored(existing: set<string>, fileName: string, baseName: string, realDrop: bool,
                            env: Environment, outcome: SvgOutcome)
    requires env.now.Valid()
  {
    && FirstFree(existing, ChooseBaseName(false, None, Some(baseName), env.now), outcome.folderName)
    && outcome.svgFileName == (if realDrop then fileName else baseName + "_" + env.clock(0) + ".svg")
    && (outcome.SvgConverted? <==> env.svgConverts)
    && (outcome.SvgConverted? ==> outcome.pngFileName == ImageFileName(baseName, realDrop, env.clock(1)))
  }

  /** What processPDF leaves behind once its base name is `baseName` (renderer.js:288-345). */
  ghost predicate PdfStored(existing: set<string>, baseName: string, realDrop: bool, env: Environment,
                            outcome: PdfOutcome)
    requires env.now.Valid()
  {
    && (outcome.PdfFailed? <==> env.raster.None?)
    && (outcome.PdfSaved? ==>
          && FirstFree(existing, ChooseBaseName(false, None, Some(baseName), env.now), outcome.folderName)
          && outcome.pdfFileName == PdfFileName(baseName, realDrop, env.clock(0))
          && outcome.pages == PageWrites(baseName, realDrop, RasterPages(env.raster.value), env.clock, 0))
  }

  /** What an office handler leaves behind for `fileName` (renderer.js:383-432). */
  ghost predicate OfficeStored(existing: set<string>, fileName: string, realDrop: bool, env: Environment,
                               outcome: OfficeOutcome)
    requires env.now.Valid()
  {
    && FirstFree(existing, ChooseBaseName(false, None, Some(Stem(fileName)), env.now), outcome.folderName)
    && outcome.original == OriginalName(fileName, realDrop, env.clock(0))
    && (outcome.Converted? <==> env.conversion == PdfPath(true) && env.raster.Some?)
    && (outcome.Converted? ==>
          && outcome.pdfFileName == PdfFileName(Stem(fileName), realDrop, env.clock(1))
          && outcome.pages == PageWrites(Stem(fileName), realDrop, RasterPages(env.raster.value), env.clock, 1))
    && (outcome.OriginalOnly? ==>
          && (outcome.strayPdf.Some? <==> env.conversion == PdfPath(true))
          && (outcome.strayPdf.Some? ==> outcome.strayPdf.value == PdfFileName(Stem(fileName), realDrop, env.clock(1))))
  }

  /**
   * What processFile's switch leaves behind for `f`, given the base name
   * handed to the image and PDF handlers and the one processSVG computes.
   * processPDF falls back to the path's base name when handed "".
   */
  ghost predicate HandlerOutcome(existing: set<string>, settings: Settings.AppSettings, f: DroppedFile, realDrop: bool,
                          env: Environment, baseFileName: string, svgBaseName: string, written: Written)
    requires env.now.Valid()
  {
    match Dispatch(f.name)
    case None => written == NothingWritten
    case Some(kind) =>
      if f.uncaughtThrow then written == HandlerThrew
      else match kind
        case Image => written.ImageWritten? && ImageStored(existing, settings, baseFileName, realDrop, env, written.image)
        case Svg => written.SvgWritten? && SvgStored(existing, f.name, svgBaseName, realDrop, env, written.svg)
        case Pdf =>
          var pdfBaseName := if baseFileName != "" then baseFileName else BaseName(f.name, ".pdf");
          written.PdfWritten? && PdfStored(existing, pdfBaseName, realDrop, env, written.pdf)
        case _ => written.OfficeWritten? && OfficeStored(existing, f.name, realDrop, env, written.office)
  }

  /**
   * The switch of processFile (renderer.js:233-276) once the base names are
   * chosen: `baseFileName` for the image and PDF handlers, `svgBaseName`
   * for the SVG handler. The office handlers derive their own.
   */
  method HandleFile(existing: set<string>, settings: Settings.AppSettings, f: DroppedFile, realDrop: bool,
                    env: Environment, baseFileName: string, svgBaseName: string)
    returns (written: Written)
    requires env.now.Valid()
    ensures written == NothingWritten <==> ResultOf(f) == Skipped
    ensures written == HandlerThrew <==> ResultOf(f) == Threw
    ensures HandlerOutcome(existing, settings, f, realDrop, env, baseFileName, svgBaseName, written)
  {
    var kind := Dispatch(f.name);
    if kind.None? {
      return NothingWritten;
    }
    if f.uncaughtThrow {
      return HandlerThrew;
    }
    match kind.value
    case Image =>
      var saved := SaveImage(existing, settings, baseFileName, realDrop, env.title, env.description, env.now, env.clock(0));
      written := ImageWritten(saved);
    case Svg =>
      var outcome := StoreSvg(existing, settings, f.name, svgBaseName, realDrop, env.svgConverts, env.now, env.clock);
      written := SvgWritten(outcome);
    case Pdf =>
      var outcome := ProcessPdf(existing, settings, baseFileName, BaseName(f.name, ".pdf"), realDrop, env.raster, env.now, env.clock);
      written := PdfWritten(outcome);
    case _ =>
      var outcome := ProcessOffice(existing, settings, f.name, realDrop, env.conversion, env.raster, env.now, env.clock);
      written := OfficeWritten(outcome);
  }

  /**
   * processFile (renderer.js:223-277) as written: the image and PDF
   * handlers get the name without its lower-cased extension, the SVG
   * handler strips a literal ".svg". An unsupported file writes nothing, a
   * throw outside a handler's catch propagates, every other file goes to
   * the handler of its kind.
   */
  method ProcessFile(existing: set<string>, settings: Settings.AppSettings, f: DroppedFile, realDrop: bool,
                     env: Environment)
    returns (written: Written)
    requires env.now.Valid()
    ensures written == NothingWritten <==> ResultOf(f) == Skipped
    ensures written == HandlerThrew <==> ResultOf(f) == Threw
    ensures HandlerOutcome(existing, settings, f, realDrop, env, BaseFileNameAsWritten(f.name), SvgBaseNameAsWritten(f.name), written)
    ensures Dispatch(f.name) == Some(Pdf) && !f.uncaughtThrow ==>
              written.PdfWritten? && PdfStored(existing, BaseFileNameAsWritten(f.name), realDrop, env, written.pdf)
  {
    if Dispatch(f.name).Some? {
      AsWrittenBaseNonEmpty(f.name);
    }
    written := HandleFile(existing, settings, f, realDrop, env, BaseFileNameAsWritten(f.name), SvgBaseNameAsWritten(f.name));
  }

  /**
   * processFile as intended: every handler gets the file name without its
   * own extension, so a supported file's outputs are named after the name
   * before its extension, whatever the extension's case.
   */
  method ProcessFileIntended(existing: set<string>, settings: Settings.AppSettings, f: DroppedFile, realDrop: bool,
                             env: Environment)
    returns (written: Written)
    requires env.now.Valid()
    ensures written == NothingWritten <==> ResultOf(f) == Skipped
    ensures written == HandlerThrew <==> ResultOf(f) == Threw
    ensures HandlerOutcome(existing, settings, f, realDrop, env, BaseFileName(f.name), BaseFileName(f.name), written)
    ensures Dispatch(f.name) == Some(Pdf) && !f.uncaughtThrow ==>
              written.PdfWritten? && PdfStored(existing, BaseFileName(f.name), realDrop, env, written.pdf)
  {
    if Dispatch(f.name).Some? {
      assert BaseFileName(f.name) != "";
    }
    written := HandleFile(existing, settings, f, realDrop, env, BaseFileName(f.name), BaseFileName(f.name));
  }
}
