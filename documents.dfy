/**
 * The document pipelines of the renderer: a dropped PDF (renderer.js:288-345)
 * and the Word, Excel and PowerPoint pipelines (renderer.js:383-534) with the
 * PDF rasteriser they share (renderer.js:690-730). The rasteriser and the
 * office converters are opaque results. The clock is a function from the
 * index of a getTimestamp() call within one pipeline run to the stamp that
 * call returns.
 */
module Documents {
  import opened Strings
  import opened NodePath
  import opened Sorting
  import opened Timestamps
  import opened FolderNaming
  import Settings

  /** `files.filter(f => f.endsWith('.png'))`: the order is kept. */
  function PngOutputs(files: seq<string>): (r: seq<string>)
    ensures forall f :: f in r <==> f in files && EndsWith(f, ".png")
    ensures multiset(r) <= multiset(files)
    ensures forall f :: multiset(r)[f] == if EndsWith(f, ".png") then multiset(files)[f] else 0
  {
    if files == [] then []
    else
      assert files == [files[0]] + files[1..];
      var rest := PngOutputs(files[1..]);
      if EndsWith(files[0], ".png") then [files[0]] + rest else rest
  }

  /**
   * The rasteriser's output files in the order their pages are saved: the
   * `.png` files only, in JavaScript's default string order.
   */
  function RasterPages(outputs: seq<string>): (pages: seq<string>)
    ensures LexSorted(pages)
    ensures multiset(pages) == multiset(PngOutputs(outputs)) && multiset(pages) <= multiset(outputs)
    ensures forall f :: f in pages <==> f in outputs && EndsWith(f, ".png")
  {
    var pngs := PngOutputs(outputs);
    var sorted := LexSort(pngs);
    assert forall f :: f in sorted <==> f in pngs by {
      forall f ensures f in sorted <==> f in pngs {
        assert f in sorted <==> f in multiset(sorted);
        assert f in pngs <==> f in multiset(pngs);
      }
    }
    sorted
  }

  /** The `.png` name built from a stem. */
  function PngName(stem: string): (name: string)
    ensures |name| == |stem| + 4 && EndsWith(name, ".png") && name[..|stem|] == stem
  {
    var name := stem + ".png";
    assert name[|name| - 4..] == ".png";
    name
  }

  /**
   * The name of page `page` of `total` (1-based): `base i-N.png` on a real
   * drop, `base_page_i_<stamp>.png` otherwise.
   */
  function PageFileName(base: string, realDrop: bool, page: nat, total: nat, stamp: string): (name: string)
    ensures EndsWith(name, ".png")
  {
    if realDrop then PngName(base + " " + NatToString(page) + "-" + NatToString(total))
    else PngName(base + "_page_" + NatToString(page) + "_" + stamp)
  }

  /** One page of a document: the rasteriser output it is read from and the name it is saved under. */
  datatype PageWrite = PageWrite(output: string, fileName: string)

  /**
   * The pages of one run, written from `outputs` in order: page i + 1 of N
   * is read from `outputs[i]`, and it is saved after `offset + i` earlier
   * clock readings of the run, so that reading is its stamp.
   */
  function PageWrites(base: string, realDrop: bool, outputs: seq<string>, clock: nat -> string, offset: nat)
    : (writes: seq<PageWrite>)
    ensures |writes| == |outputs|
    ensures forall i :: 0 <= i < |outputs| ==> writes[i].output == outputs[i] && EndsWith(writes[i].fileName, ".png")
  {
    var total := |outputs|;
    var writes := seq(total, i requires 0 <= i < total =>
                        PageWrite(outputs[i], PageFileName(base, realDrop, i + 1, total, clock(offset + i + 1))));
    assert forall i :: 0 <= i < total ==>
             writes[i] == PageWrite(outputs[i], PageFileName(base, realDrop, i + 1, total, clock(offset + i + 1)));
    writes
  }

  /** Page i + 1 is named with its number, the page count and the clock reading taken just before it. */
  lemma PageWriteAt(base: string, realDrop: bool, outputs: seq<string>, clock: nat -> string, offset: nat, i: nat)
    requires i < |outputs|
    ensures PageWrites(base, realDrop, outputs, clock, offset)[i]
            == PageWrite(outputs[i], PageFileName(base, realDrop, i + 1, |outputs|, clock(offset + i + 1)))
  {
  }

  /** The names the pages are saved under, in page order. */
  function FileNames(writes: seq<PageWrite>): (names: seq<string>)
    ensures |names| == |writes| && forall i :: 0 <= i < |writes| ==> names[i] == writes[i].fileName
  {
    seq(|writes|, i requires 0 <= i < |writes| => writes[i].fileName)
  }

  /** Different page numbers give different names, whatever the stamps. */
  lemma PageFileNameInjective(base: string, realDrop: bool, i: nat, j: nat, total: nat, si: string, sj: string)
    requires PageFileName(base, realDrop, i, total, si) == PageFileName(base, realDrop, j, total, sj)
    ensures i == j
  {
    var sep := if realDrop then '-' else '_';
    var prefix := if realDrop then base + " " else base + "_page_";
    var ti := if realDrop then NatToString(total) + ".png" else si + ".png";
    var tj := if realDrop then NatToString(total) + ".png" else sj + ".png";
    PageFileNameSplit(base, realDrop, i, total, si);
    PageFileNameSplit(base, realDrop, j, total, sj);
    DropPrefix(prefix, NatToString(i) + [sep] + ti, NatToString(j) + [sep] + tj);
    DigitsExclude(NatToString(i), sep);
    DigitsExclude(NatToString(j), sep);
    SplitAtSeparator(NatToString(i), ti, NatToString(j), tj, sep);
    NatToStringInjective(i, j);
  }

  /** A page name is its prefix, the page number, a separator and the rest. */
  lemma PageFileNameSplit(base: string, realDrop: bool, page: nat, total: nat, stamp: string)
    ensures realDrop ==> PageFileName(base, realDrop, page, total, stamp)
                         == (base + " ") + (NatToString(page) + ['-'] + (NatToString(total) + ".png"))
    ensures !realDrop ==> PageFileName(base, realDrop, page, total, stamp)
                          == (base + "_page_") + (NatToString(page) + ['_'] + (stamp + ".png"))
  {
  }

  lemma DropPrefix(p: string, a: string, b: string)
    requires p + a == p + b
    ensures a == b
  {
    assert a == (p + a)[|p|..];
    assert b == (p + b)[|p|..];
  }

  /** The pages of one run never overwrite each other. */
  lemma PageNamesDistinct(base: string, realDrop: bool, outputs: seq<string>, clock: nat -> string, offset: nat)
    ensures forall i, j :: 0 <= i < j < |outputs| ==>
              PageWrites(base, realDrop, outputs, clock, offset)[i].fileName
              != PageWrites(base, realDrop, outputs, clock, offset)[j].fileName
  {
    forall i, j | 0 <= i < j < |outputs|
      ensures PageWrites(base, realDrop, outputs, clock, offset)[i].fileName
              != PageWrites(base, realDrop, outputs, clock, offset)[j].fileName
    {
      PageNamesDiffer(base, realDrop, outputs, clock, offset, i, j);
    }
  }

  lemma PageNamesDiffer(base: string, realDrop: bool, outputs: seq<string>, clock: nat -> string, offset: nat,
                        i: nat, j: nat)
    requires i < j < |outputs|
    ensures PageWrites(base, realDrop, outputs, clock, offset)[i].fileName
            != PageWrites(base, realDrop, outputs, clock, offset)[j].fileName
  {
    PageWriteAt(base, realDrop, outputs, clock, offset, i);
    PageWriteAt(base, realDrop, outputs, clock, offset, j);
    var total := |outputs|;
    if PageFileName(base, realDrop, i + 1, total, clock(offset + i + 1))
       == PageFileName(base, realDrop, j + 1, total, clock(offset + j + 1)) {
      PageFileNameInjective(base, realDrop, i + 1, j + 1, total, clock(offset + i + 1), clock(offset + j + 1));
    }
  }

  /**
   * The pages of a document follow the rasteriser's listing: one page per
   * `.png` output, each read from such an output, in JavaScript's string
   * order of the outputs.
   */
  lemma PagesFollowRasterOrder(base: string, realDrop: bool, listing: seq<string>, clock: nat -> string, offset: nat)
    ensures |PageWrites(base, realDrop, RasterPages(listing), clock, offset)| == |PngOutputs(listing)|
    ensures forall i, j :: 0 <= i < j < |RasterPages(listing)| ==>
              LexLe(PageWrites(base, realDrop, RasterPages(listing), clock, offset)[i].output,
                    PageWrites(base, realDrop, RasterPages(listing), clock, offset)[j].output)
    ensures forall i :: 0 <= i < |RasterPages(listing)| ==>
              PageWrites(base, realDrop, RasterPages(listing), clock, offset)[i].output in listing
              && EndsWith(PageWrites(base, realDrop, RasterPages(listing), clock, offset)[i].output, ".png")
    ensures forall f :: f in listing && EndsWith(f, ".png") ==>
              exists i :: 0 <= i < |RasterPages(listing)|
                          && PageWrites(base, realDrop, RasterPages(listing), clock, offset)[i].output == f
  {
    var pages := RasterPages(listing);
    var w := PageWrites(base, realDrop, pages, clock, offset);
    assert |pages| == |multiset(pages)| == |multiset(PngOutputs(listing))| == |PngOutputs(listing)|;
    forall i | 0 <= i < |pages| ensures w[i].output in listing && EndsWith(w[i].output, ".png") {
      assert w[i].output == pages[i] && pages[i] in pages;
    }
    forall f | f in listing && EndsWith(f, ".png") ensures exists i :: 0 <= i < |pages| && w[i].output == f {
      var i :| 0 <= i < |pages| && pages[i] == f;
      assert w[i].output == f;
    }
  }

  /**
   * The page loop (renderer.js:320-331 and 707-718): page i + 1 of N is read
   * from the i-th output and saved under its page name, in order.
   */
  method SavePages(base: string, realDrop: bool, pages: seq<string>, clock: nat -> string, offset: nat)
    returns (saved: seq<PageWrite>)
    ensures |saved| == |pages|
    ensures forall i :: 0 <= i < |pages| ==>
              saved[i] == PageWrite(pages[i], PageFileName(base, realDrop, i + 1, |pages|, clock(offset + i + 1)))
    ensures saved == PageWrites(base, realDrop, pages, clock, offset)
  {
    var totalPages := |pages|;
    saved := [];
    for i := 0 to |pages|
      invariant |saved| == i
      invariant forall m :: 0 <= m < i ==>
                  saved[m] == PageWrite(pages[m], PageFileName(base, realDrop, m + 1, totalPages, clock(offset + m + 1)))
    {
      var pageNum := i + 1;
      saved := saved + [PageWrite(pages[i], PageFileName(base, realDrop, pageNum, totalPages, clock(offset + pageNum)))];
    }
  }

  /** The name under which a document's PDF is stored. */
  function PdfFileName(base: string, realDrop: bool, stamp: string): (name: string)
    ensures EndsWith(name, ".pdf")
    ensures realDrop ==> name == base + ".pdf"
  {
    var name := if realDrop then base + ".pdf" else base + "_" + stamp + ".pdf";
    assert name[|name| - 4..] == ".pdf";
    name
  }

  /** A dropped PDF either fails before anything is written, or is stored with its pages. */
  datatype PdfOutcome =
    | PdfFailed
    | PdfSaved(folderName: string, pdfFileName: string, pages: seq<PageWrite>)
  {
    /** The file list handed to the folder-structure tracker. */
    function Recorded(): seq<string>
      requires PdfSaved?
    {
      [pdfFileName] + FileNames(pages)
    }
  }

  /** The file list recorded for a stored PDF names no file twice. */
  lemma PdfRecordedDistinct(folderName: string, pdfFileName: string, base: string, realDrop: bool,
                            outputs: seq<string>, clock: nat -> string, offset: nat)
    requires EndsWith(pdfFileName, ".pdf")
    ensures var r := PdfSaved(folderName, pdfFileName, PageWrites(base, realDrop, outputs, clock, offset)).Recorded();
            forall i, j :: 0 <= i < j < |r| ==> r[i] != r[j]
  {
    var w := PageWrites(base, realDrop, outputs, clock, offset);
    var r := PdfSaved(folderName, pdfFileName, w).Recorded();
    PageNamesDistinct(base, realDrop, outputs, clock, offset);
    forall i, j | 0 <= i < j < |r| ensures r[i] != r[j] {
      if i == 0 {
        assert r[j] == w[j - 1].fileName;
        assert EndsWith(r[j], ".png");
        assert r[j][|r[j]| - 4..] != r[i][|r[i]| - 4..];
      } else {
        assert r[i] == w[i - 1].fileName && r[j] == w[j - 1].fileName;
      }
    }
  }

  /**
   * processPDF (renderer.js:288-345). `raster` is the rasteriser's output
   * directory listing, None when it fails; `pathBaseName` is the base name
   * of the file's path, used when `baseFileName` is empty. The folder is
   * named after the document, never by the AI title service.
   */
  method ProcessPdf(existing: set<string>, settings: Settings.AppSettings, baseFileName: string,
                    pathBaseName: string, realDrop: bool, raster: Option<seq<string>>,
                    now: LocalTime, clock: nat -> string)
    returns (outcome: PdfOutcome)
    requires now.Valid()
    ensures outcome.PdfFailed? <==> raster.None?
    ensures outcome.PdfSaved? ==>
              var pdfBaseName := if baseFileName != "" then baseFileName else pathBaseName;
              && FirstFree(existing, ChooseBaseName(false, None, Some(pdfBaseName), now), outcome.folderName)
              && outcome.pdfFileName == PdfFileName(pdfBaseName, realDrop, clock(0))
              && outcome.pages == PageWrites(pdfBaseName, realDrop, RasterPages(raster.value), clock, 0)
  {
    if raster.None? {
      return PdfFailed;
    }
    var pngFiles := RasterPages(raster.value);
    var pdfBaseName := if baseFileName != "" then baseFileName else pathBaseName;
    var folderName, _ := GetFolderName(existing, settings, false, None, Some(pdfBaseName), now);
    var pdfFileName := PdfFileName(pdfBaseName, realDrop, clock(0));
    var savedPngFiles := SavePages(pdfBaseName, realDrop, pngFiles, clock, 0);
    outcome := PdfSaved(folderName, pdfFileName, savedPngFiles);
  }

  /**
   * What an office-to-PDF converter hands back: it throws, it returns no
   * path, or it returns a path at which a PDF does or does not exist.
   */
  datatype Conversion = ConverterFailed | NoPdfPath | PdfPath(pdfExists: bool)

  /**
   * An office document is always stored; either its PDF and pages are stored
   * and recorded with it, or only the original is recorded. `strayPdf` names
   * a PDF copied into the folder before the rasteriser failed.
   */
  datatype OfficeOutcome =
    | Converted(folderName: string, original: string, pdfFileName: string, pages: seq<PageWrite>)
    | OriginalOnly(folderName: string, original: string, strayPdf: Option<string>)
  {
    /** The file list handed to the folder-structure tracker. */
    function Recorded(): seq<string>
    {
      match this
      case Converted(_, original, pdf, pages) => [original, pdf] + FileNames(pages)
      case OriginalOnly(_, original, _) => [original]
    }
  }

  /** The name the original document is stored under. */
  function OriginalName(fileName: string, realDrop: bool, stamp: string): (name: string)
    ensures realDrop ==> name == fileName
    ensures !realDrop ==> |name| == |Stem(fileName)| + 1 + |stamp| + |Extname(fileName)|
    ensures !realDrop ==> EndsWith(name, Extname(fileName)) && name[..|Stem(fileName)|] == Stem(fileName)
  {
    if realDrop then fileName
    else
      var name := Stem(fileName) + "_" + stamp + Extname(fileName);
      assert name[|name| - |Extname(fileName)|..] == Extname(fileName);
      name
  }

  /**
   * processWord, processExcel and processPowerPoint (renderer.js:383-432,
   * 434-483, 485-534), which differ only in their converter and messages.
   * The original is stored first (clock reading 0), then the PDF (reading 1),
   * then the pages (readings 2, 3, ...).
   */
  method ProcessOffice(existing: set<string>, settings: Settings.AppSettings, fileName: string,
                       realDrop: bool, conversion: Conversion, raster: Option<seq<string>>,
                       now: LocalTime, clock: nat -> string)
    returns (outcome: OfficeOutcome)
    requires now.Valid()
    ensures FirstFree(existing, ChooseBaseName(false, None, Some(Stem(fileName)), now), outcome.folderName)
    ensures outcome.original == OriginalName(fileName, realDrop, clock(0))
    ensures outcome.Converted? <==> conversion == PdfPath(true) && raster.Some?
    ensures outcome.Converted? ==>
              && outcome.pdfFileName == PdfFileName(Stem(fileName), realDrop, clock(1))
              && outcome.pages == PageWrites(Stem(fileName), realDrop, RasterPages(raster.value), clock, 1)
    ensures outcome.OriginalOnly? ==>
              && (outcome.strayPdf.Some? <==> conversion == PdfPath(true))
              && (outcome.strayPdf.Some? ==> outcome.strayPdf.value == PdfFileName(Stem(fileName), realDrop, clock(1)))
  {
    var baseName := Stem(fileName);
    var folderName, _ := GetFolderName(existing, settings, false, None, Some(baseName), now);
    var savedFileName := OriginalName(fileName, realDrop, clock(0));
    if conversion != PdfPath(true) {
      return OriginalOnly(folderName, savedFileName, None);
    }
    var pdfFileName := PdfFileName(baseName, realDrop, clock(1));
    if raster.None? {
      return OriginalOnly(folderName, savedFileName, Some(pdfFileName));
    }
    var pngFiles := SavePages(baseName, realDrop, RasterPages(raster.value), clock, 1);
    outcome := Converted(folderName, savedFileName, pdfFileName, pngFiles);
  }
}
