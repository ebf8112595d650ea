# PdfConverter client workflow, in Dafny

This project models the client side of a small image and Word to PDF converter:
the React component `PdfConverter` (`my-react-app/src/PdfConverter.jsx`). The
user selects files. A conversion run does three things in order:

- It splits the selection into images and Word documents.
- It merges the images into one A4 PDF, one page per image, each image scaled to
  fit inside a 10 mm margin, and saves it as `merged-images.pdf`.
- It posts each Word document, one after the other, to a remote conversion
  service. Each successful answer is downloaded as `converted-<name>.pdf`.

The project is split into modules:

- `Sequences` (`sequences.dfy`): `Filter`, an order-preserving filter like
  JavaScript's `Array.prototype.filter`. It is proved to return the greatest
  subsequence whose elements satisfy the predicate.
- `Selection` (`selection.dfy`): a selected file is `SelectedFile(name, mimeType)`.
  This module holds `Contains` and `EndsWith`, which stand for `includes` and
  `endsWith`, plus the two classification predicates and the two lists.
- `Text` (`text.dfy`): decimal rendering of the counts shown in status messages.
- `Layout` (`layout.dfy`): fit-to-page scaling in exact real arithmetic.
- `Converter` (`converter.dfy`): the component state as the class `PdfConverter`.
  It has the methods `HandleFileChange`, `ProcessWord`, `RunImagePhase`,
  `RunWordPhase`, `GeneratePdf` and `Convert`. Beside it are the specification functions
  `WordDownloads`, `PagesBuilt` and `RunDownloads`, and lemmas about them.

Some parts of the environment are stood in for:

- The PDF document is represented by its page count (`pageCount`).
- Each browser download is one entry in the `downloads` log, holding its file name.
- Each post to the conversion service is one entry in the `uploads` log.
- `alert` is an entry in the `alerts` log.
- The service's answers are an oracle, `outcomes: seq<bool>`, one per Word
  document in order.
- An exception while processing an image is an oracle, `imageFailAt`: the index
  of the image whose processing throws, if any.
- The status line is the datatype `Status`. Its `Message` function gives the
  exact text the component shows.

## Model

| member | source | states |
|---|---|---|
| `Sequences.Filter` | my-react-app/src/PdfConverter.jsx:94-95 | the filtered list is no longer than the selection |
| `Sequences.FilterSatisfies` | my-react-app/src/PdfConverter.jsx:94-95 | every element of the filtered list satisfies the predicate |
| `Sequences.FilterCounts` | my-react-app/src/PdfConverter.jsx:94-95 | a file occurs in the filtered list exactly as often as in the selection if it satisfies the predicate, and never otherwise |
| `Sequences.FilterIsSubsequence` | my-react-app/src/PdfConverter.jsx:94-95 | the filtered list keeps the selection order (it is a subsequence) |
| `Sequences.FilterIsGreatest` | my-react-app/src/PdfConverter.jsx:94-95 | every subsequence of the selection made of matching files is a subsequence of the filtered list |
| `Sequences.FilterUnique` | my-react-app/src/PdfConverter.jsx:94-95 | the filtered list is the only matching subsequence that contains the filtered list |
| `Selection.Contains` | my-react-app/src/PdfConverter.jsx:94 | `includes`; no contract of its own, specified by `ContainsIff` |
| `Selection.EndsWith` | my-react-app/src/PdfConverter.jsx:95 | `endsWith`; no contract of its own, used by `IsWord` and `DocxIsWord` |
| `Selection.IsImage` | my-react-app/src/PdfConverter.jsx:94 | the image filter predicate; no contract of its own, specified through `ImageFilesSpec` and `Routing` |
| `Selection.IsWord` | my-react-app/src/PdfConverter.jsx:95 | the Word filter predicate; no contract of its own, specified through `WordFilesSpec`, `Routing` and `DocxIsWord` |
| `Selection.ImageFiles` | my-react-app/src/PdfConverter.jsx:94 | `imageFiles`; no contract of its own, specified by `ImageFilesSpec` and `Routing` |
| `Selection.WordFiles` | my-react-app/src/PdfConverter.jsx:95 | `wordFiles`; no contract of its own, specified by `WordFilesSpec` and `Routing` |
| `Selection.ContainsIff` | my-react-app/src/PdfConverter.jsx:94 | `includes` holds exactly when the substring occurs at some index, in both directions |
| `Selection.ImageFilesSpec` | my-react-app/src/PdfConverter.jsx:94 | `imageFiles` is the greatest subsequence of the selection whose MIME type contains "image", in selection order, with each file's multiplicity kept |
| `Selection.WordFilesSpec` | my-react-app/src/PdfConverter.jsx:95 | `wordFiles` is the greatest subsequence whose name ends with ".docx" or whose MIME type contains "word", in order, with multiplicities kept |
| `Selection.Routing` | my-react-app/src/PdfConverter.jsx:94-95 | a selected file is in the image list iff it is an image and in the Word list iff it is a Word document; a file that is neither is in neither list |
| `Selection.DocxIsWord` | my-react-app/src/PdfConverter.jsx:95 | a selected file named "*.docx" is always in the Word list, whatever its MIME type |
| `Selection.PartitionMayOverlap` | my-react-app/src/PdfConverter.jsx:94-95 | an "image/png" file named "scan.docx" is in both lists: nothing makes them disjoint |
| `Text.NatToString` | my-react-app/src/PdfConverter.jsx:14 | the rendered count is a non-empty string of decimal digits with no leading zero |
| `Text.NatToStringRoundTrip` | my-react-app/src/PdfConverter.jsx:14 | reading the rendered digits back gives the count |
| `Text.NatToStringInjective` | my-react-app/src/PdfConverter.jsx:100 | different counts render as different text |
| `Layout.MaxWidth` | my-react-app/src/PdfConverter.jsx:38 | printable width; no contract of its own, bounds the width in `FitToPage` and `FitsInsideMargins` |
| `Layout.MaxHeight` | my-react-app/src/PdfConverter.jsx:39 | printable height; no contract of its own, bounds the height in `FitToPage` and `FitsInsideMargins` |
| `Layout.FitRatio` | my-react-app/src/PdfConverter.jsx:45 | the ratio scales both sides within the printable area and makes one side meet its bound exactly |
| `Layout.FitToPage` | my-react-app/src/PdfConverter.jsx:37-49 | the image is placed at (margin, margin); the scaled width is at most page width - 20 and the height at most page height - 20; one of them is equal; the aspect ratio is kept (width * h == height * w) |
| `Layout.FitRatioIsGreatest` | my-react-app/src/PdfConverter.jsx:45 | no uniform scale larger than the ratio keeps the image inside the printable area |
| `Layout.FitsInsideMargins` | my-react-app/src/PdfConverter.jsx:37-49 | on a page with a positive printable area the placed image has a positive size and lies inside all four margins |
| `Layout.SmallImagesAreEnlarged` | my-react-app/src/PdfConverter.jsx:45-47 | the ratio is not capped at 1: an image smaller than the printable area is enlarged in both directions |
| `Layout.LandscapeImageOnA4` | my-react-app/src/PdfConverter.jsx:33-49 | an 800 x 600 image on a 210 x 297 page is drawn 190 x 142.5 at (10, 10) |
| `Converter.Status.Message` | my-react-app/src/PdfConverter.jsx:14-124 | the status texts set at lines 14, 58, 78, 91, 100, 109, 112 and 124; no contract of its own, the counts inside are specified by `Text.NatToStringRoundTrip` and `Text.NatToStringInjective` |
| `Converter.DownloadName` | my-react-app/src/PdfConverter.jsx:69 | the download name; no contract of its own, specified by `DownloadNameInjective` and `WordDownloadsNames` |
| `Converter.DownloadNameInjective` | my-react-app/src/PdfConverter.jsx:69 | two Word documents whose download names agree have the same file name |
| `Converter.WordDownloads` | my-react-app/src/PdfConverter.jsx:118-120 | specification of the Word loop; no contract of its own, specified by `WordDownloadsSplit`, `FailureIsIsolated`, `WordDownloadsCount` and `WordDownloadsNames`, and tied to the loop by `RunWordPhase` |
| `Converter.PagesBuilt` | my-react-app/src/PdfConverter.jsx:98-106 | specification of the pages of the image loop; no contract of its own, tied to the loop by `RunImagePhase` and `Convert` and used by `ImagesOnlyRun` |
| `Converter.ImagesSaved` | my-react-app/src/PdfConverter.jsx:98-109 | whether the image phase reaches `save`; no contract of its own, tied to the loop by `RunImagePhase` and used by `RunDownloadsCount` |
| `Converter.RunDownloads` | my-react-app/src/PdfConverter.jsx:98-121 | specification of all downloads of a run; no contract of its own, specified by `RunDownloadsCount`, `ImagesOnlyRun` and `ImageAndDocumentRun`, and tied to the method by `Convert` |
| `Converter.WordDownloadsStep` | my-react-app/src/PdfConverter.jsx:118-120 | loop helper for `RunWordPhase`: one more step of the definition of `WordDownloads`, which appends the next document's own downloads to those of the documents before it |
| `Converter.WordDownloadsAppend` | my-react-app/src/PdfConverter.jsx:118-120 | the downloads of two consecutive runs of uploads are those of the combined run |
| `Converter.WordDownloadsSplit` | my-react-app/src/PdfConverter.jsx:75-79 | per-file independence: the downloads are those of the files before i, then file i's own (one on success, none on failure), then those after i |
| `Converter.FailureIsIsolated` | my-react-app/src/PdfConverter.jsx:76-79 | making upload i fail removes only that file's download; the downloads before and after it are unchanged |
| `Converter.WordDownloadsCount` | my-react-app/src/PdfConverter.jsx:118-120 | there is exactly one Word download per successful upload |
| `Converter.WordDownloadsNames` | my-react-app/src/PdfConverter.jsx:69 | a name is among the Word downloads iff it is "converted-" + name + ".pdf" of some file whose upload succeeded |
| `Converter.RunDownloadsCount` | my-react-app/src/PdfConverter.jsx:98-121 | a run downloads the merged document when the image phase saves it, plus one file per successful upload, and nothing else |
| `Converter.ImagesOnlyRun` | my-react-app/src/PdfConverter.jsx:94-108 | a selection of images only, none failing: no Word uploads, one page per image, and the single download "merged-images.pdf" |
| `Converter.ImageAndDocumentRun` | my-react-app/src/PdfConverter.jsx:94-121 | one image and one Word document, both succeeding: a one-page merged document, then "converted-<name>.pdf" |
| `Converter.PdfConverter.constructor` | my-react-app/src/PdfConverter.jsx:6-8 | initial state: nothing selected, not converting, empty status, no downloads, uploads or alerts |
| `Converter.PdfConverter.HandleFileChange` | my-react-app/src/PdfConverter.jsx:11-15 | the new list replaces the whole selection and the status reports its length; nothing else changes |
| `Converter.PdfConverter.ProcessWord` | my-react-app/src/PdfConverter.jsx:53-81 | one post per call; it returns the service's answer; on success one download named "converted-" + name + ".pdf" is added and the uploading status stays; on failure no download is added and the failure status is set |
| `Converter.PdfConverter.RunImagePhase` | my-react-app/src/PdfConverter.jsx:98-114 | the document has one page per image reached (all of them when none fails); "merged-images.pdf" is downloaded only when no image failed; the status reports success or the caught error |
| `Converter.PdfConverter.RunWordPhase` | my-react-app/src/PdfConverter.jsx:117-121 | every Word document is posted exactly once, in order, whatever earlier posts returned; the downloads are `WordDownloads` of the outcomes |
| `Converter.PdfConverter.GeneratePdf` | my-react-app/src/PdfConverter.jsx:84-88 | empty selection: one alert and nothing else changes (no pages, no uploads, no downloads, `isConverting` unchanged); otherwise the outcome of `Convert` |
| `Converter.PdfConverter.Convert` | my-react-app/src/PdfConverter.jsx:90-124 | `pageCount` is the pages the image phase built; every Word file is posted once, in order; the downloads are `RunDownloads` (the merged document if saved, then one per successful upload); `isConverting` is false and the status is "All tasks completed.", whatever failed |

## Left out

- `my-react-app/src/server/server.cjs` (the conversion service) is not part of this model. It is Express, multer, file-system and external-converter plumbing. The client sees it only through the `outcomes` oracle.
- `readFileAsDataURL` (FileReader and Promise plumbing) is not modelled.
- The PDF library is not modelled. This covers the `jsPDF` constructor, `getImageProperties`, the page-size getters, `addImage` and `save`. The document is its page count. The page size is a parameter of `Layout.FitToPage`. `Layout.LandscapeImageOnA4` uses the nominal 210 x 297 mm A4 size, not the library's own unit conversion.
- Axios, `FormData`, `Blob`, object URLs and the download anchor are not modelled. They become the `outcomes` oracle and the `downloads` and `uploads` logs. The request URL is not modelled.
- `console.error` logging is not modelled.
- Converter.PdfConverter.RunImagePhase: the image loop does not compute each image's placement. Image dimensions come from the PDF library, which is not modelled. Placement is proved separately in `Layout.FitToPage`.
- Converter.PdfConverter.RunImagePhase: the only exception modelled in the image phase is one thrown while processing image `imageFailAt`. A failure of the document constructor, of `addPage` or of `save` is not told apart.
- Converter.PdfConverter.Convert: when the selection has no images, `pageCount` is set to 0 ("no document built"). The source builds no document at all in that case.
- Converter.PdfConverter.GeneratePdf: the run is treated as one atomic step. The source awaits between steps. During those awaits React may re-render, and the intermediate statuses and `isConverting == true` are visible. A second click is prevented only by the button's `disabled` attribute (line 156), which is part of the rendering and is not modelled.
- Converter.PdfConverter.GeneratePdf: `outcomes` must have one entry per Word document. This sizes the oracle; the source itself puts no such condition on its callers.
- Layout.FitRatio and Layout.FitToPage require a positive image width and height. The source divides without checking, and a zero side gives `Infinity` or `NaN` in JavaScript. Exact reals cannot represent those values.
- Layout: all arithmetic is exact real arithmetic. IEEE-754 rounding is not modelled.
- JSX rendering and styling (lines 127-178) are not modelled. This includes the "Image" / "Word Doc" label at line 146.
- The file size attribute is not part of `SelectedFile`. It is used only for display.
- `Selection.IsWord` recognises only the `.docx` extension and MIME types that contain "word" (`my-react-app/src/PdfConverter.jsx:95`). No other office extension is routed to the conversion service unless its MIME type contains "word".
- The conversion service's route is `/convert` (`my-react-app/src/server/server.cjs:17`). The client posts to the service root URL (`my-react-app/src/PdfConverter.jsx:61`). URLs are not modelled.
