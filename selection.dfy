/** The files a user selects and the rule that splits a selection into the images
    merged client-side and the Word documents sent to the conversion service
    (my-react-app/src/PdfConverter.jsx, lines 94-95). */
module Selection {
  import opened Sequences

  /** A selected browser file: its name and its MIME type (the `type` property). */
  datatype SelectedFile = SelectedFile(name: string, mimeType: string)

  /** `sub` occurs in `s` starting at index `i`. */
  predicate OccursAt(s: string, sub: string, i: int)
  {
    0 <= i && i + |sub| <= |s| && s[i..i + |sub|] == sub
  }

  /** JavaScript's `s.includes(sub)`. */
  predicate Contains(s: string, sub: string)
    decreases |s|
  {
    |sub| <= |s| && (s[..|sub|] == sub || Contains(s[1..], sub))
  }

  /** JavaScript's `s.endsWith(suffix)`. */
  predicate EndsWith(s: string, suffix: string)
  {
    |suffix| <= |s| && s[|s| - |suffix|..] == suffix
  }

  /** `Contains` holds exactly when `sub` occurs somewhere in `s`. */
  lemma {:induction false} ContainsIff(s: string, sub: string)
    ensures Contains(s, sub) <==> exists i :: OccursAt(s, sub, i)
    decreases |s|
  {
    if |sub| <= |s| {
      if s[..|sub|] == sub {
        assert OccursAt(s, sub, 0);
      } else {
        ContainsIff(s[1..], sub);
        if Contains(s[1..], sub) {
          var i :| OccursAt(s[1..], sub, i);
          assert s[i + 1..i + 1 + |sub|] == s[1..][i..i + |sub|];
          assert OccursAt(s, sub, i + 1);
        }
        forall i | OccursAt(s, sub, i)
          ensures OccursAt(s[1..], sub, i - 1)
        {
          assert s[1..][i - 1..i - 1 + |sub|] == s[i..i + |sub|];
        }
      }
    }
  }

  /** An image for the merged document: the MIME type mentions "image". */
  predicate IsImage(f: SelectedFile)
  {
    Contains(f.mimeType, "image")
  }

  /** A Word document for the conversion service: the name ends with ".docx" or
      the MIME type mentions "word". */
  predicate IsWord(f: SelectedFile)
  {
    EndsWith(f.name, ".docx") || Contains(f.mimeType, "word")
  }

  /** `imageFiles` at line 94. */
  function ImageFiles(files: seq<SelectedFile>): seq<SelectedFile>
  {
    Filter(IsImage, files)
  }

  /** `wordFiles` at line 95. */
  function WordFiles(files: seq<SelectedFile>): seq<SelectedFile>
  {
    Filter(IsWord, files)
  }

  /** The image list is the greatest subsequence of the selection made of images:
      it keeps the selection order, holds only images, contains every other
      subsequence of images, and lists each file as often as the selection does. */
  lemma ImageFilesSpec(files: seq<SelectedFile>, f: SelectedFile)
    ensures IsSubsequence(ImageFiles(files), files)
    ensures forall i :: 0 <= i < |ImageFiles(files)| ==> IsImage(ImageFiles(files)[i])
    ensures forall r :: IsSubsequence(r, files) && (forall i :: 0 <= i < |r| ==> IsImage(r[i]))
                        ==> IsSubsequence(r, ImageFiles(files))
    ensures multiset(ImageFiles(files))[f] == if IsImage(f) then multiset(files)[f] else 0
  {
    FilterIsSubsequence(IsImage, files);
    FilterSatisfies(IsImage, files);
    FilterCounts(IsImage, files, f);
    forall r | IsSubsequence(r, files) && (forall i :: 0 <= i < |r| ==> IsImage(r[i]))
      ensures IsSubsequence(r, ImageFiles(files))
    {
      FilterIsGreatest(IsImage, r, files);
    }
  }

  /** The Word list is the greatest subsequence of the selection made of Word
      documents, in selection order, with each file as often as the selection has it. */
  lemma WordFilesSpec(files: seq<SelectedFile>, f: SelectedFile)
    ensures IsSubsequence(WordFiles(files), files)
    ensures forall i :: 0 <= i < |WordFiles(files)| ==> IsWord(WordFiles(files)[i])
    ensures forall r :: IsSubsequence(r, files) && (forall i :: 0 <= i < |r| ==> IsWord(r[i]))
                        ==> IsSubsequence(r, WordFiles(files))
    ensures multiset(WordFiles(files))[f] == if IsWord(f) then multiset(files)[f] else 0
  {
    FilterIsSubsequence(IsWord, files);
    FilterSatisfies(IsWord, files);
    FilterCounts(IsWord, files, f);
    forall r | IsSubsequence(r, files) && (forall i :: 0 <= i < |r| ==> IsWord(r[i]))
      ensures IsSubsequence(r, WordFiles(files))
    {
      FilterIsGreatest(IsWord, r, files);
    }
  }

  /** A selected file is routed to the image path exactly when it is an image, and
      to the Word path exactly when it is a Word document; a file that is neither
      is in neither list. */
  lemma Routing(files: seq<SelectedFile>, f: SelectedFile)
    requires f in files
    ensures f in ImageFiles(files) <==> IsImage(f)
    ensures f in WordFiles(files) <==> IsWord(f)
    ensures !IsImage(f) && !IsWord(f) ==> f !in ImageFiles(files) + WordFiles(files)
  {
    FilterCounts(IsImage, files, f);
    FilterCounts(IsWord, files, f);
  }

  /** A file named "*.docx" always takes the Word path, whatever its MIME type. */
  lemma DocxIsWord(files: seq<SelectedFile>, stem: string, mimeType: string)
    requires SelectedFile(stem + ".docx", mimeType) in files
    ensures SelectedFile(stem + ".docx", mimeType) in WordFiles(files)
  {
    var f := SelectedFile(stem + ".docx", mimeType);
    assert f.name[|f.name| - |".docx"|..] == ".docx";
    Routing(files, f);
  }

  /** Nothing keeps a file out of both lists: an image file named "*.docx" is in
      the image list and in the Word list. */
  lemma PartitionMayOverlap()
    ensures var f := SelectedFile("scan.docx", "image/png");
            ImageFiles([f]) == [f] && WordFiles([f]) == [f]
  {
    var f := SelectedFile("scan.docx", "image/png");
    assert f.mimeType[..5] == "image";
    assert f.name[|f.name| - 5..] == ".docx";
  }
}
