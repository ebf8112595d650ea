/** The client workflow of the `PdfConverter` component
    (my-react-app/src/PdfConverter.jsx): file selection, the conversion run that
    merges the images into one PDF and sends each Word document to the conversion
    service, and the component state those steps update.

    The PDF library, the browser and the network are not modelled. The merged
    document is represented by its page count, each browser download by its file
    name, and the conversion service by an oracle: `outcomes[i]` says whether the
    upload of the i-th Word document succeeds. */
module Converter {
  import opened Sequences
  import opened Selection
  import Text

  datatype Option<T> = None | Some(value: T)

  /** The file name under which the merged image document is saved. */
  const MergedName: string := "merged-images.pdf"

  const NoFilesAlert: string := "Please select files first!"

  /** The status line the component shows. Each variant is one message the
      source sets; `Message` renders it as the text the user sees. */
  datatype Status =
    | NoStatus
    | FilesSelected(count: nat)
    | Starting
    | ProcessingImages(count: nat)
    | ImagesConverted
    | ImagesFailed
    | Uploading(fileName: string)
    | UploadFailed(fileName: string)
    | AllDone
  {
    function Message(): string
    {
      match this
      case NoStatus => ""
      case FilesSelected(n) => Text.NatToString(n) + " file(s) selected."
      case Starting => "Starting conversion process..."
      case ProcessingImages(n) => "Processing " + Text.NatToString(n) + " image(s)..."
      case ImagesConverted => "Images converted and downloaded."
      case ImagesFailed => "Error processing images."
      case Uploading(name) => "Uploading " + name + " to server..."
      case UploadFailed(name) => "Failed to convert " + name + ". Check backend connection."
      case AllDone => "All tasks completed."
    }
  }

  /** The status an upload leaves behind: the uploading notice on success (it is
      never replaced), the failure notice otherwise. */
  function UploadStatus(f: SelectedFile, ok: bool): Status
  {
    if ok then Uploading(f.name) else UploadFailed(f.name)
  }

  /** The download name of a converted Word document. */
  function DownloadName(f: SelectedFile): string
  {
    "converted-" + f.name + ".pdf"
  }

  /** Different Word documents are downloaded under different names. */
  lemma DownloadNameInjective(f: SelectedFile, g: SelectedFile)
    requires DownloadName(f) == DownloadName(g)
    ensures f.name == g.name
  {
    var s := DownloadName(f);
    assert f.name == s[10..|s| - 4];
    assert g.name == DownloadName(g)[10..|DownloadName(g)| - 4];
  }

  /** The downloads one upload adds: the converted file on success, none on failure. */
  function UploadDownloads(f: SelectedFile, ok: bool): seq<string>
  {
    if ok then [DownloadName(f)] else []
  }

  /** The downloads of the Word phase, attempting `words` in order with the
      given upload outcomes. */
  function WordDownloads(words: seq<SelectedFile>, outcomes: seq<bool>): seq<string>
    requires |words| == |outcomes|
    decreases |words|
  {
    if words == [] then []
    else WordDownloads(words[..|words| - 1], outcomes[..|outcomes| - 1])
         + UploadDownloads(words[|words| - 1], outcomes[|outcomes| - 1])
  }

  /** Pages of the merged document when `count` images are processed and the
      processing of image `failAt` (if any) throws: the document starts with one
      page and gains one before each later image reached. No images, no document. */
  function PagesBuilt(count: nat, failAt: Option<nat>): nat
  {
    if count == 0 then 0
    else if failAt.Some? && failAt.value < count then failAt.value + 1
    else count
  }

  /** The image phase runs and reaches `doc.save`. */
  predicate ImagesSaved(count: nat, failAt: Option<nat>)
  {
    count > 0 && !(failAt.Some? && failAt.value < count)
  }

  /** Every download of one conversion run over the selection `files`, in order. */
  function RunDownloads(files: seq<SelectedFile>, outcomes: seq<bool>, failAt: Option<nat>): seq<string>
    requires |outcomes| == |WordFiles(files)|
  {
    (if ImagesSaved(|ImageFiles(files)|, failAt) then [MergedName] else [])
    + WordDownloads(WordFiles(files), outcomes)
  }

  /** Word downloads of two consecutive runs of uploads are the downloads of the
      combined run. */
  lemma {:induction false} WordDownloadsAppend(w1: seq<SelectedFile>, o1: seq<bool>, w2: seq<SelectedFile>, o2: seq<bool>)
    requires |w1| == |o1| && |w2| == |o2|
    ensures WordDownloads(w1 + w2, o1 + o2) == WordDownloads(w1, o1) + WordDownloads(w2, o2)
    decreases |w2|
  {
    if w2 == [] {
      assert w1 + w2 == w1 && o1 + o2 == o1;
    } else {
      var w2', o2' := w2[..|w2| - 1], o2[..|o2| - 1];
      assert (w1 + w2)[..|w1 + w2| - 1] == w1 + w2';
      assert (o1 + o2)[..|o1 + o2| - 1] == o1 + o2';
      assert (w1 + w2)[|w1 + w2| - 1] == w2[|w2| - 1];
      assert (o1 + o2)[|o1 + o2| - 1] == o2[|o2| - 1];
      WordDownloadsAppend(w1, o1, w2', o2');
    }
  }

  /** Attempting one more file extends the downloads so far by what that file gives. */
  lemma WordDownloadsStep(before: seq<string>, words: seq<SelectedFile>, outcomes: seq<bool>, i: nat)
    requires |words| == |outcomes| && i < |words|
    ensures before + WordDownloads(words[..i], outcomes[..i]) + UploadDownloads(words[i], outcomes[i])
            == before + WordDownloads(words[..i + 1], outcomes[..i + 1])
  {
    assert words[..i + 1][..i] == words[..i];
    assert outcomes[..i + 1][..i] == outcomes[..i];
  }

  /** Per-file independence: the downloads are those before file `i`, then what
      file `i`'s own outcome gives, then those after it. No outcome affects what
      another file contributes. */
  lemma WordDownloadsSplit(words: seq<SelectedFile>, outcomes: seq<bool>, i: nat)
    requires |words| == |outcomes| && i < |words|
    ensures WordDownloads(words, outcomes)
            == WordDownloads(words[..i], outcomes[..i])
               + UploadDownloads(words[i], outcomes[i])
               + WordDownloads(words[i + 1..], outcomes[i + 1..])
  {
    assert words == words[..i] + [words[i]] + words[i + 1..];
    assert outcomes == outcomes[..i] + [outcomes[i]] + outcomes[i + 1..];
    WordDownloadsAppend(words[..i], outcomes[..i], [words[i]], [outcomes[i]]);
    WordDownloadsAppend(words[..i] + [words[i]], outcomes[..i] + [outcomes[i]], words[i + 1..], outcomes[i + 1..]);
    assert WordDownloads([words[i]], [outcomes[i]]) == UploadDownloads(words[i], outcomes[i]) by {
      assert [words[i]][..0] == [];
    }
  }

  /** One failed upload removes that file's download and nothing else. */
  lemma FailureIsIsolated(words: seq<SelectedFile>, outcomes: seq<bool>, i: nat)
    requires |words| == |outcomes| && i < |words|
    ensures WordDownloads(words, outcomes[i := false])
            == WordDownloads(words[..i], outcomes[..i]) + WordDownloads(words[i + 1..], outcomes[i + 1..])
  {
    var failed := outcomes[i := false];
    WordDownloadsSplit(words, failed, i);
    assert failed[..i] == outcomes[..i];
    assert failed[i + 1..] == outcomes[i + 1..];
  }

  /** There is one Word download per successful upload. */
  lemma {:induction false} WordDownloadsCount(words: seq<SelectedFile>, outcomes: seq<bool>)
    requires |words| == |outcomes|
    ensures |WordDownloads(words, outcomes)| == multiset(outcomes)[true]
    decreases |words|
  {
    if words != [] {
      var n := |outcomes|;
      WordDownloadsCount(words[..n - 1], outcomes[..n - 1]);
      assert outcomes == outcomes[..n - 1] + [outcomes[n - 1]];
    }
  }

  /** The Word downloads are exactly the download names of the files whose upload
      succeeded. */
  lemma {:induction false} WordDownloadsNames(words: seq<SelectedFile>, outcomes: seq<bool>, name: string)
    requires |words| == |outcomes|
    ensures name in WordDownloads(words, outcomes)
            <==> exists i :: 0 <= i < |words| && outcomes[i] && name == DownloadName(words[i])
    decreases |words|
  {
    if words != [] {
      var n := |words|;
      WordDownloadsNames(words[..n - 1], outcomes[..n - 1], name);
      var w', o' := words[..n - 1], outcomes[..n - 1];
      if name in WordDownloads(w', o') {
        var i :| 0 <= i < n - 1 && o'[i] && name == DownloadName(w'[i]);
        assert outcomes[i] && name == DownloadName(words[i]);
      }
      if i :| 0 <= i < n && outcomes[i] && name == DownloadName(words[i]) {
        if i < n - 1 {
          assert outcomes[..n - 1][i] && words[..n - 1][i] == words[i];
        }
      }
    }
  }

  /** A run downloads the merged document (when its image phase saves) and one
      file per successful upload, and nothing else. */
  lemma RunDownloadsCount(files: seq<SelectedFile>, outcomes: seq<bool>, failAt: Option<nat>)
    requires |outcomes| == |WordFiles(files)|
    ensures |RunDownloads(files, outcomes, failAt)|
            == (if ImagesSaved(|ImageFiles(files)|, failAt) then 1 else 0) + multiset(outcomes)[true]
  {
    WordDownloadsCount(WordFiles(files), outcomes);
  }

  /** A selection of images only, none failing, gives one merged document with
      one page per image and no other download. */
  lemma ImagesOnlyRun(files: seq<SelectedFile>)
    requires files != []
    requires forall i :: 0 <= i < |files| ==> IsImage(files[i]) && !IsWord(files[i])
    ensures |WordFiles(files)| == 0
    ensures PagesBuilt(|ImageFiles(files)|, None) == |files|
    ensures RunDownloads(files, [], None) == [MergedName]
  {
    FilterAll(IsImage, files);
    FilterNone(IsWord, files);
  }

  /** Selecting one image and one Word document, both succeeding, gives a
      one-page merged document followed by the converted document. */
  lemma ImageAndDocumentRun(image: SelectedFile, doc: SelectedFile)
    requires IsImage(image) && !IsWord(image)
    requires IsWord(doc) && !IsImage(doc)
    ensures ImageFiles([image, doc]) == [image] && WordFiles([image, doc]) == [doc]
    ensures PagesBuilt(1, None) == 1
    ensures RunDownloads([image, doc], [true], None) == [MergedName, DownloadName(doc)]
  {
    assert [image, doc][1..] == [doc] && [doc][1..] == [];
    assert Filter(IsImage, [doc]) == [] && Filter(IsWord, [doc]) == [doc];
    assert Filter(IsImage, [image, doc]) == [image] + Filter(IsImage, [doc]);
    assert Filter(IsWord, [image, doc]) == Filter(IsWord, [doc]);
    assert WordDownloads([doc], [true]) == [DownloadName(doc)] by {
      assert [doc][..0] == [];
    }
  }

  /** The state of the `PdfConverter` component. */
  class PdfConverter {
    var selectedFiles: seq<SelectedFile>
    var isConverting: bool
    var statusMessage: Status
    /** Pages of the merged document built by the latest run (0 when it built none). */
    var pageCount: nat
    /** Every browser download triggered, in order. */
    var downloads: seq<string>
    /** Every file posted to the conversion service, in order. */
    var uploads: seq<SelectedFile>
    /** Every blocking alert shown, in order. */
    var alerts: seq<string>

    /** The component's initial state: nothing selected, not converting, no status. */
    constructor ()
      ensures selectedFiles == [] && !isConverting && statusMessage == NoStatus
      ensures pageCount == 0 && downloads == [] && uploads == [] && alerts == []
    {
      selectedFiles := [];
      isConverting := false;
      statusMessage := NoStatus;
      pageCount := 0;
      downloads := [];
      uploads := [];
      alerts := [];
    }

    /** `handleFileChange`: the new list replaces the whole selection and the
        status reports how many files it has. */
    method HandleFileChange(files: seq<SelectedFile>)
      modifies this`selectedFiles, this`statusMessage
      ensures selectedFiles == files && statusMessage == FilesSelected(|files|)
    {
      selectedFiles := files;
      statusMessage := FilesSelected(|files|);
    }

    /** `processWordViaBackend`: posts one file; `ok` is the service's answer. A
        success downloads the converted file, a failure only reports it. */
    method ProcessWord(file: SelectedFile, ok: bool) returns (success: bool)
      modifies this`statusMessage, this`uploads, this`downloads
      ensures success == ok
      ensures uploads == old(uploads) + [file]
      ensures downloads == old(downloads) + UploadDownloads(file, ok)
      ensures statusMessage == UploadStatus(file, ok)
    {
      statusMessage := Uploading(file.name);
      uploads := uploads + [file];
      if ok {
        downloads := downloads + [DownloadName(file)];
        success := true;
      } else {
        statusMessage := UploadFailed(file.name);
        success := false;
      }
    }

    /** The image phase of `generatePDF`: a new document, a page added before
        every image but the first, then the save. `failAt` is the index of the
        image whose processing throws, if any; the error is caught and reported. */
    method RunImagePhase(images: seq<SelectedFile>, failAt: Option<nat>)
      requires images != []
      modifies this`statusMessage, this`pageCount, this`downloads
      ensures pageCount == PagesBuilt(|images|, failAt)
      ensures downloads == old(downloads) + (if ImagesSaved(|images|, failAt) then [MergedName] else [])
      ensures statusMessage == if ImagesSaved(|images|, failAt) then ImagesConverted else ImagesFailed
    {
      statusMessage := ProcessingImages(|images|);
      pageCount := 1;
      var i := 0;
      var failed := false;
      while i < |images| && !failed
        invariant 0 <= i <= |images|
        invariant failed ==> failAt == Some(i) && i < |images| && pageCount == i + 1
        invariant !failed ==> !(failAt.Some? && failAt.value < i) && pageCount == if i == 0 then 1 else i
        invariant downloads == old(downloads)
        decreases |images| - i, if failed then 0 else 1
      {
        if i > 0 {
          pageCount := pageCount + 1;
        }
        if failAt == Some(i) {
          failed := true;
        } else {
          i := i + 1;
        }
      }
      if failed {
        statusMessage := ImagesFailed;
      } else {
        downloads := downloads + [MergedName];
        statusMessage := ImagesConverted;
      }
    }

    /** The Word phase of `generatePDF`: every Word document is posted once, in
        order, whatever the earlier posts returned. */
    method RunWordPhase(words: seq<SelectedFile>, outcomes: seq<bool>)
      requires |words| == |outcomes|
      modifies this`statusMessage, this`uploads, this`downloads
      ensures uploads == old(uploads) + words
      ensures downloads == old(downloads) + WordDownloads(words, outcomes)
      ensures statusMessage == if words == [] then old(statusMessage)
                               else UploadStatus(words[|words| - 1], outcomes[|outcomes| - 1])
    {
      var i := 0;
      while i < |words|
        invariant 0 <= i <= |words|
        invariant uploads == old(uploads) + words[..i]
        invariant downloads == old(downloads) + WordDownloads(words[..i], outcomes[..i])
        invariant statusMessage == if i == 0 then old(statusMessage) else UploadStatus(words[i - 1], outcomes[i - 1])
      {
        var _ := ProcessWord(words[i], outcomes[i]);
        WordDownloadsStep(old(downloads), words, outcomes, i);
        ExtendPrefix(old(uploads), words, i);
        i := i + 1;
      }
      assert words[..i] == words && outcomes[..i] == outcomes;
    }

    /** `generatePDF`: with nothing selected, an alert and nothing else;
        otherwise the conversion run. */
    method GeneratePdf(outcomes: seq<bool>, imageFailAt: Option<nat>)
      requires |outcomes| == |WordFiles(selectedFiles)|
      modifies this`isConverting, this`statusMessage, this`pageCount, this`downloads, this`uploads, this`alerts
      ensures selectedFiles == [] ==>
                alerts == old(alerts) + [NoFilesAlert] && isConverting == old(isConverting)
                && statusMessage == old(statusMessage) && pageCount == old(pageCount)
                && downloads == old(downloads) && uploads == old(uploads)
      ensures selectedFiles != [] ==>
                alerts == old(alerts) && !isConverting && statusMessage == AllDone
                && pageCount == PagesBuilt(|ImageFiles(selectedFiles)|, imageFailAt)
                && uploads == old(uploads) + WordFiles(selectedFiles)
                && downloads == old(downloads) + RunDownloads(selectedFiles, outcomes, imageFailAt)
    {
      if |selectedFiles| == 0 {
        alerts := alerts + [NoFilesAlert];
        return;
      }
      Convert(outcomes, imageFailAt);
    }

    /** The body of `generatePDF` past the empty-selection check: the image
        phase, then the Word phase, then the terminal status with `isConverting`
        cleared, whatever failed on the way. */
    method Convert(outcomes: seq<bool>, imageFailAt: Option<nat>)
      requires selectedFiles != []
      requires |outcomes| == |WordFiles(selectedFiles)|
      modifies this`isConverting, this`statusMessage, this`pageCount, this`downloads, this`uploads
      ensures !isConverting && statusMessage == AllDone
      ensures pageCount == PagesBuilt(|ImageFiles(selectedFiles)|, imageFailAt)
      ensures uploads == old(uploads) + WordFiles(selectedFiles)
      ensures downloads == old(downloads) + RunDownloads(selectedFiles, outcomes, imageFailAt)
    {
      isConverting := true;
      statusMessage := Starting;
      var imageFiles := ImageFiles(selectedFiles);
      var wordFiles := WordFiles(selectedFiles);
      ghost var saved := if ImagesSaved(|imageFiles|, imageFailAt) then [MergedName] else [];
      ghost var wordDownloads := WordDownloads(wordFiles, outcomes);
      assert RunDownloads(selectedFiles, outcomes, imageFailAt) == saved + wordDownloads;
      if |imageFiles| > 0 {
        RunImagePhase(imageFiles, imageFailAt);
      } else {
        pageCount := 0;
      }
      assert downloads == old(downloads) + saved;
      RunWordPhase(wordFiles, outcomes);
      AppendAssociative(old(downloads), saved, wordDownloads);
      isConverting := false;
      statusMessage := AllDone;
    }
  }
}
