# Image Drop: a verified model of its file-organisation core

Image Drop is a desktop application. Users drop images, SVGs, PDFs and
Office documents onto a window, paste or snip screenshots, and get one
folder per drop under a root folder. This project models the rules that
decide what gets written and under which names:

- **Folder names.** A base name comes from an AI title, else a fallback
  name, else a local-time stamp. It is sanitised, then made unique by
  probing `base`, `base 2`, `base 3`, and so on.
- **The drop pipeline.** This covers:
  - extension dispatch and batch counting;
  - image, SVG, PDF and Office handling;
  - real-drop versus time-stamped file names and `i-N` page naming;
  - the lists of files handed to the folder tracker;
  - the `getTimestamp` rewrite of an ISO time string.
- **The snippet overlay.** Its selection state machine: the readiness
  gate, drag start, preview, release and normalisation of the rectangle,
  and the minimum-size gate.
- **The main-process handlers.** Settings get/save over the key-value
  store, folder listing with image counts, newest-first ordering, the
  image listing of a folder, and folder deletion.

The file system, the clock and all external services are inputs:

- Existing folders are a finite set of names: those for which
  `fs.access(path.join(root, name))` succeeds (renderer.js:888). On a
  case-insensitive file system that set holds every case variant of an
  existing folder, and `.` and `..` are always in it. "First free" results
  are relative to that set.
- A directory listing is a sequence (None when reading fails), and the file
  tree is a set of paths.
- The local clock is a `LocalTime` value. The `getTimestamp()` readings of
  one pipeline run form a function from call index to stamp.
- The AI title and description services are optional strings.
- The PDF rasteriser is its output listing (None when it fails). An Office
  converter is a `Conversion` value.

Modules:

- `Strings`: numerals, padding and lower-casing.
- `NodePath`: `extname`, `basename` and `join` on bare names.
- `Sorting`: JavaScript's default string order (compared by code point,
  which agrees with JavaScript's UTF-16 order on strings without characters
  outside the Basic Multilingual Plane) and newest-first order, as
  insertion sorts.
- `Timestamps`: the folder stamp and `getTimestamp`.
- `FolderNaming`: `getFolderName`.
- `Documents`: the PDF and Office pipelines and page naming.
- `Pipeline`: `processFile`, `processFiles`, the image saves and SVG.
- `SnippetOverlay`: the overlay, as a class with the handlers' state.
- `Settings`: the store, as a class.
- `FolderListing`: get-folders, get-folder-images and delete-folder.

The loops of the source are methods with loop invariants:

- the probe loop of `getFolderName`;
- the batch loop of `processFiles`;
- the page loops;
- the entry loops of get-folders and get-folder-images.

Each is proved against a specification function or an outright property.
The word, Excel and PowerPoint handlers differ only in their converter and
messages, so one method, `Documents.ProcessOffice`, models all three.

## Model

| member | source | states |
|---|---|---|
| Strings.NatToString | renderer.js:889 | An integer renders as a non-empty string of decimal digits, with one digit exactly when the number is below 10 and no leading zero. |
| Strings.ParseNatToString | renderer.js:889 | Reading the rendered digits back gives the number: rendering loses nothing. |
| Strings.NatToStringInjective | renderer.js:889 | Different probe indices render differently. |
| Strings.ZeroPad | renderer.js:882 | `padStart(width, '0')` gives digits only, of length `width` or the numeral's own length if longer. |
| Strings.ZeroPadTwo | renderer.js:882 | A clock field below 100, padded to two digits, is exactly two characters and reads back as its value. |
| Strings.ToLower | renderer.js:224 | Lower-casing keeps the length and maps each character on its own, changing only `A`-`Z`. |
| NodePath.Extname | renderer.js:224 | A name has an extension exactly when it holds a `.` after its first character and is not `..`. The extension then starts with the name's last `.` and is a proper suffix of the name with no other `.`. |
| NodePath.BaseName | renderer.js:225 | `basename(name, suffix)` strips the suffix when the name ends with it; otherwise, or for an empty suffix, the name is returned whole. |
| NodePath.Stem | renderer.js:387 | `basename(name, extname(name))` followed by the extension gives the name back and is non-empty when there is an extension. |
| Sorting.LexSort | renderer.js:316 | The default `sort()` returns a permutation of its input, in JavaScript's string order (by code point). |
| Sorting.SortDescending | main.js:176 | Sorting by `b.created - a.created` returns a permutation of its input with the newest entry first. |
| Timestamps.FolderTimestamp | renderer.js:882 | The folder stamp is the year followed by exactly 15 characters, all digits, `-` or `_`. |
| Timestamps.FolderTimestampRoundTrip | renderer.js:880-883 | The folder stamp decodes back to the clock reading it was made from. |
| Timestamps.FolderTimestampInjective | renderer.js:882 | Different clock readings give different folder stamps. |
| Timestamps.DashSeparators | renderer.js:770 | `replace(/[:.]/g, '-')` replaces every `:` and `.` and touches nothing else. |
| Timestamps.ReplaceFirstT | renderer.js:770 | `replace('T', '_')` changes only the first `T`. |
| Timestamps.BeforeFirstZ | renderer.js:770 | `split('Z')[0]` is the prefix up to the first `Z`. |
| Timestamps.FileTimestamp | renderer.js:769-771 | The stamp is as long as the text before the first `Z`; it holds no `:`, `.` or `Z`, and no `T` up to where the first `T` was. |
| Timestamps.FileTimestampOfIso | renderer.js:769-771 | For the ISO string of any instant, the stamp is `YYYY-MM-DD_HH-mm-ss-sss`. |
| Settings.ReadSettings | main.js:74-80 | Each missing key reads as its default; each present key reads as the stored value. |
| Settings.WriteSettings | main.js:82-86 | Saving sets exactly the three keys, keeps the store well typed and leaves every other key unchanged. |
| Settings.DefaultSettings | main.js:74-80 | An empty store yields Documents/ImageDrop, AI off and an empty key. |
| Settings.SettingsRoundTrip | main.js:74-87 | get-settings after save-settings(s) returns s, whatever was stored before. |
| Settings.SaveSettingsOverwrites | main.js:82-86 | Two saves leave the store as the later save alone would. |
| Settings.SettingsStore.SaveSettings | main.js:82-87 | The store becomes the written map, stays well typed, get-settings returns the saved settings, and success is reported. |
| FolderNaming.ReplaceIllegal | renderer.js:868 | Each of `<>:"/\|?*` becomes `_` in place; every other character stays. |
| FolderNaming.Sanitize | renderer.js:868 | The sanitised name holds no illegal character. Its length is min(length, 100). Every legal character keeps its position. |
| FolderNaming.SanitizeIdempotent | renderer.js:876 | Sanitising twice is sanitising once. |
| FolderNaming.SanitizeKeepsLegalNames | renderer.js:876 | A legal name of at most 100 characters is kept unchanged. |
| FolderNaming.FolderTimestampIsLegal | renderer.js:880-883 | The stamp default is a legal name of at most 21 characters. |
| FolderNaming.ChooseBaseName | renderer.js:862-883 | The base is non-empty, legal and at most 100 long. It is the sanitised AI title when the title was requested and is non-empty. Otherwise it is the sanitised non-empty fallback. Otherwise it is the stamp of `now`. |
| FolderNaming.CandidateInjective | renderer.js:886-890 | The probe sequence `base`, `base 2`, `base 3`, ... never repeats a name. |
| FolderNaming.FirstFreeUnique | renderer.js:886-893 | At most one name is the first free name of the probe sequence. |
| FolderNaming.ResolveFolderName | renderer.js:885-893 | The loop ends for every finite set of existing names. It returns the first probe name that does not exist: `base` if free, else `base k` for the smallest free k ≥ 2. |
| FolderNaming.GetFolderName | renderer.js:861-894 | The folder name is the first free probe name for the chosen base name. |
| FolderNaming.ResolveRepeatedDrops | renderer.js:886-893 | With no probe name existing, n drops under one base create `base`, `base 2`, ..., `base n`, in that order. |
| Documents.PngOutputs | renderer.js:316 | The `.png` filter keeps exactly the outputs that end in `.png`, each as many times as it occurs, and drops every other output. |
| Documents.RasterPages | renderer.js:316 | The pages are a permutation of the `.png` outputs, sorted in JavaScript's order (by code point). |
| Documents.PageFileName | renderer.js:325-328 | Every page name ends in `.png`. |
| Documents.PageWrites | renderer.js:320-331 | There is one page per output, page i read from output i, and each is saved under a `.png` name. |
| Documents.PageFileNameInjective | renderer.js:325-328 | Two page names of a document are equal only for equal page numbers, whatever the stamps, on real drops and otherwise. |
| Documents.PageNamesDistinct | renderer.js:320-331 | The pages of one document never overwrite each other. |
| Documents.PagesFollowRasterOrder | renderer.js:315-322 | A document has one page per `.png` output of the rasteriser. Each page is read from such an output, and the pages follow the outputs in JavaScript's string order (by code point). |
| Documents.SavePages | renderer.js:320-331 | Page i (1-based) of N is read from the i-th sorted output. It is named `base i-N.png` on a real drop and `base_page_i_<stamp>.png` otherwise, with the stamp of the clock reading taken before it. |
| Documents.PdfFileName | renderer.js:311 | The stored PDF is named `base.pdf` on a real drop, otherwise `base_<stamp>.pdf`. It always ends in `.pdf`. |
| Documents.PdfRecordedDistinct | renderer.js:311-334 | The list recorded for a PDF, its own name followed by its pages, names no file twice. |
| Documents.ProcessPdf | renderer.js:288-345 | A failed rasteriser writes nothing. Otherwise the PDF is stored in the first free folder named after the document (the path's base name when the base name given is empty), and its pages are written from the sorted `.png` outputs in order. |
| Documents.OriginalName | renderer.js:392 | On a real drop the original keeps its file name; otherwise it is `base_<stamp>` followed by the original extension. |
| Documents.ProcessOffice | renderer.js:383-432 | The original is always stored in the first free folder named after the file. With an existing PDF and a working rasteriser, the PDF is stored and the pages are written from the sorted outputs. With any other conversion result only the original is recorded. A PDF copied before the rasteriser failed is left in the folder unrecorded. |
| Pipeline.KindOfTable | renderer.js:234-276 | Exactly the 11 supported extensions have a handler, each the handler of its kind. |
| Pipeline.ExtnameIgnoresCase | renderer.js:224 | The extension of the lower-cased name is the lower-cased extension. |
| Pipeline.DispatchIgnoresCase | renderer.js:224-239 | Dispatch does not depend on the case of the name. |
| Pipeline.SupportedNameHasStem | renderer.js:224-225 | A supported name has a non-empty extension and a non-empty base before it. |
| Pipeline.AsWrittenBaseNonEmpty | renderer.js:224-225 | The base name as written is non-empty for every supported file, so processPDF never falls back to the path's base name. |
| Pipeline.UpperCaseExtensionKept | renderer.js:224-225 | As written, `Photo.PNG` is accepted as an image, but its base name is `Photo.PNG` and does not give the name back with its extension. A real drop stores it as `Photo.PNG.png`. |
| Pipeline.UpperCasePdfKept | renderer.js:224-225 | As written, `Report.PDF` is accepted as a PDF, but its base name is `Report.PDF`. A real drop stores it as `Report.PDF.pdf` and names its pages `Report.PDF 1-2.png`, ...; with ProcessFile's contract, its folder is named after `Report.PDF` too. |
| Pipeline.BaseFileName | renderer.js:225 | The intended base name followed by the extension is the file name, and it is non-empty for every supported file. |
| Pipeline.BaseFileNameAgreesOnLowerCase | renderer.js:225 | On names with a lower-case extension, the written and the intended base names agree. |
| Pipeline.ResultOfCharacterised | renderer.js:233-277 | processFile returns `false` exactly for an extension outside the supported list, whatever its case. A supported file throws exactly when a step outside its handler's own catch throws. |
| Pipeline.CountsAddUp | renderer.js:204-211 | Without a throw, processed + skipped equals the number of files. |
| Pipeline.ProcessFiles | renderer.js:192-221 | An empty batch reports "nothing detected". The first throw aborts the batch. Otherwise the processed and skipped counts are exact and add up to the batch size. |
| Pipeline.BatchStatus | renderer.js:213-217 | The status is a success exactly when something was processed, and a counted batch always shows a status. |
| Pipeline.ImageFileName | renderer.js:786 | The stored image is `base.png` on a real drop, otherwise `base_<stamp>.png`. It is an image name either way. |
| Pipeline.DescriptionAfter | renderer.js:793-805 | With AI off nothing changes, and a non-empty description is never overwritten. Otherwise a generated description replaces what was there, and a failed generation leaves it. |
| Pipeline.SaveImage | renderer.js:773-815 | The image goes in the first free folder for the sanitised AI title when AI is on and the title is non-empty. Otherwise, including when the title service fails, the folder is named by the folder stamp of `now`. The file's own name never names the folder. The file is named per ImageFileName. On a fresh folder the description is written exactly when AI is on and the service returns one. Only the saved image is recorded. |
| Pipeline.UpperCaseSvgKept | renderer.js:351 | As written, `Logo.SVG` is accepted as an SVG, but its base name keeps `.SVG`. A real drop stores its PNG as `Logo.SVG.png`. |
| Pipeline.HandlerBaseNamesAgree | renderer.js:224-225 | On names whose extension is already lower-case, the base names processFile and processSVG compute as written are the intended ones. |
| Pipeline.StoreSvg | renderer.js:349-380 | Once the base name is chosen, the SVG is stored in the first free folder named after it. It is stored under the file name on a real drop, otherwise as `base_<stamp>.svg`. A PNG `base.png` or `base_<stamp>.png` is stored exactly when the renderer converts it. |
| Pipeline.ProcessSvg | renderer.js:347-381 | As written: the folder and the PNG are named after the file name with a literal `.svg` stripped. |
| Pipeline.HandleFile | renderer.js:233-276 | An unsupported file writes nothing. A throw outside a handler's catch propagates. Otherwise each kind's handler runs with the given base names, and its whole result is stated: the image's folder, file name, description and record; the SVG's folder, SVG name and PNG name; the PDF's failure, folder, name and pages (with processPDF's fallback); and the office file's folder, original, PDF, pages and stray PDF. |
| Pipeline.ProcessFile | renderer.js:223-277 | As written, with each handler's whole result stated as for HandleFile. An image's folder comes from the AI title or the folder stamp, as in SaveImage; its file is named after the name without its lower-cased extension. A PDF's folder, PDF and pages are named after the name without its lower-cased extension. An SVG's folder and PNG are named after the name without a literal `.svg`; the SVG keeps its full file name on a real drop. An office file's outputs are named after its stem. An unsupported file writes nothing, and a throw outside a handler's catch propagates. |
| Pipeline.ProcessFileIntended | renderer.js:223-277 | As intended, with the same whole result of each handler, but every base name is the name without its own extension, whatever the extension's case. That base names the image file, the SVG's folder and PNG, and the PDF's folder, PDF and pages. The image's folder still comes from the AI title or the stamp, and the SVG keeps its full file name on a real drop. |
| FolderListing.ImageFiles | main.js:160-162 | The image filter keeps every `.png`/`.jpg`/`.jpeg` occurrence (case-sensitive) and nothing else, so its length is the image count. |
| FolderListing.FolderOf | main.js:157-171 | A directory row has the entry's name, the joined path, the image count of its listing and its birth time. It is missing exactly when the listing or `stat` fails. |
| FolderListing.DirectoryFolders | main.js:156-173 | There is one row per directory entry, in listing order, and row k is the row of the k-th directory. Files are ignored, and any directory that cannot be read fails the listing. |
| FolderListing.DirectoryFoldersFailurePersists | main.js:179-182 | A failure on any entry fails the whole listing. |
| FolderListing.GetFolders | main.js:150-183 | On any error the result is empty. Otherwise it is a permutation of the directory rows, newest first, one per directory entry. |
| FolderListing.ImageInfos | main.js:192-201 | There is one entry per image file, in order, with its path and birth time. Any failing `stat` fails the listing. |
| FolderListing.ImageInfosFailurePersists | main.js:216-219 | A `stat` failure on any image fails the whole listing. |
| FolderListing.GetFolderImages | main.js:185-220 | On error the result is no images and no description. Otherwise it is a permutation of the image entries, newest first, with the description read as it is. |
| FolderListing.DeleteFolder | main.js:222-230 | Success removes exactly the folder and everything below it. With `force`, a folder with nothing in the tree never fails; otherwise a failing removal is rethrown. |
| FolderListing.DeleteFolderIdempotent | main.js:224 | After a successful deletion, deleting the same folder again succeeds and changes nothing, even when the removal of an existing folder would fail. |
| SnippetOverlay.NormalizeBounds | snippet-overlay-renderer.js:89-94 | The bounds span exactly from the smaller to the larger coordinate on each axis, with both drag points as corners and non-negative size. |
| SnippetOverlay.NormalizeBoundsSymmetric | snippet-overlay-renderer.js:89-94 | Dragging in any direction between the same corners gives the same bounds. |
| SnippetOverlay.NormalizeBoundsIdempotent | snippet-overlay-renderer.js:89-94 | Normalising the corners of a rectangle gives it back. |
| SnippetOverlay.ReleaseAction | snippet-overlay-renderer.js:99-106 | A region is captured exactly when both sides exceed 5; otherwise the overlay is closed. |
| SnippetOverlay.OnKeyDown | snippet-overlay-renderer.js:110-114 | Escape closes the overlay and any other key does nothing, in every state. |
| SnippetOverlay.Overlay.constructor | snippet-overlay-renderer.js:6-10 | The start point is (0, 0), not drawing and not ready. |
| SnippetOverlay.Overlay.MarkReady | snippet-overlay-renderer.js:26-29 | The timer sets `overlayReady` and changes nothing else. |
| SnippetOverlay.Overlay.MouseDown | snippet-overlay-renderer.js:34-43 | Before ready, nothing changes. After, drawing starts at the screen point minus the display origin. |
| SnippetOverlay.Overlay.MouseMove | snippet-overlay-renderer.js:46-78 | No state changes. A rectangle is shown exactly while drawing, and it is the normalised drag rectangle. |
| SnippetOverlay.Overlay.MouseUp | snippet-overlay-renderer.js:81-107 | When not drawing, nothing happens. Otherwise drawing stops and the normalised rectangle is captured or the overlay closed, per ReleaseAction. |
| SnippetOverlay.Select | snippet-overlay-renderer.js:34-107 | A press then a release on a ready overlay captures the rectangle between them exactly when it is more than 5 wide and high, in any direction. |

## Left out

- UI plumbing is not modelled: the status messages, IPC, windows, the DOM and the canvas drawing of mousemove. A batch's status is reduced to success, error or none.
- The `sharp`, poppler and PowerShell converters and the OpenAI calls are opaque inputs, as described above. `convertOfficeToPDF` and `copyPowerPointPNGs` (renderer.js:641-761) are not called by the modelled pipelines and are not part of this model.
- Documents.SavePages: a `sharp` failure inside a page loop is not modelled. The loop always stores every page, so a partly written document does not arise.
- Documents.ProcessOffice: a failing read of the original or a failing `mkdir` (the outer catch) is not modelled, because the file system is abstract.
- Pipeline.ProcessFile: `saveToTemp` (renderer.js:280-286), used for files without a path, is not modelled; only a throw from it is. A `HandlerThrew` result does not record what the handler wrote before it threw: an image's folder, or a PDF's files before the removal in its `finally` failed.
- Pipeline.ResultOf: which step throws outside a handler's catch is one flag per file. It covers the image steps, the SVG read (renderer.js:253), the PDF's temporary-folder `mkdir` and `rm` (renderer.js:290, 343) and `saveToTemp`. The model does not say which step it was.
- Strings.ToLower: ASCII only. Non-ASCII letters are not lowered, where `toLowerCase` lowers them and may change the length. No supported extension contains one.
- Pipeline.ProcessFiles: an aborted batch does not report how many files were handled before the throw. The source does not report it either.
- Pipeline.SaveImage: a failing write of `description.txt` is treated like a failed generation.
- Clipboard polling, the clipboard, screenshot and snippet entry points, the viewer and the settings window are not part of this model. `update-folder-structure` is not part of this model either; only the file lists handed to it are.
- The existence check races with concurrent drops; each call sees one fixed set of existing names.
- FolderNaming.Sanitize: counts characters, where `substring(0, 100)` counts UTF-16 code units. Names outside the Basic Multilingual Plane may be cut at a different place.
- Timestamps.FileTimestampOfIso: covers years 0 to 9999. It does not cover the signed six-digit years `toISOString` writes outside that range.
- Sorting.LexSort: compares characters by code point, where JavaScript's `sort()` compares UTF-16 code units. The orders differ only between characters outside the Basic Multilingual Plane and those in U+E000 to U+FFFF; the rasteriser's page names are ASCII.
- Sorting.SortDescending: does not state stability, i.e. that entries with equal `created` keep their listing order. The model's insertion sort is stable, but no contract says so.
- Settings.SettingsStore.GetSettings: has no contract of its own; it returns ReadSettings of the current store. The store is assumed to hold values of each setting's type (WellTyped).
- FolderListing.GetFolders: a failing `mkdir` and a failing read of the root folder are both the `None` listing. Birth times are integers.

## Findings

| source | as written | input that shows it | evidently intended | confidence | as-written member | corrected member |
|---|---|---|---|---|---|---|
| renderer.js:224-225 | The lower-cased extension is stripped from the original-case name. | `Photo.PNG`: accepted as an image, but the base stays `Photo.PNG`, so the real drop is stored as `Photo.PNG.png`. Likewise `Report.PDF` becomes `Report.PDF.pdf` with pages `Report.PDF 1-N.png` (Pipeline.UpperCasePdfKept). | Strip the file's own extension, giving `Photo.png`, as Pipeline.ProcessFileIntended does. | high (not executed) | Pipeline.UpperCaseExtensionKept | Pipeline.BaseFileName |
| renderer.js:351 | processSVG strips the literal `.svg`. | `Logo.SVG`: accepted as an SVG, but the base stays `Logo.SVG`, so the PNG is stored as `Logo.SVG.png`. | Strip the file's own extension, giving `Logo.png`, as Pipeline.ProcessFileIntended does. | high (not executed) | Pipeline.UpperCaseSvgKept | Pipeline.BaseFileName |
