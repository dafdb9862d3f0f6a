/**
 * The pure string helpers of BlobManager: the search document's source-page
 * field and the blob name of an uploaded file. The blob upload and removal
 * loops are storage I/O and are not modelled.
 */
module BlobManager {
  import opened Text
  import opened Paths

  /** The file's extension, lower-cased, is ".pdf". */
  predicate IsPdf(filename: string)
  {
    ToLowerAscii(GetExtension(filename)) == ".pdf"
  }

  /**
   * BlobManager.SourcepageFromFilePage: the file-name part, followed for PDF
   * files by the anchor "#page=" and page + 1.
   */
  function SourcepageFromFilePage(filename: string, page: int := 0): (r: string)
    ensures |GetFileName(filename)| <= |r| && r[..|GetFileName(filename)|] == GetFileName(filename)
    ensures '/' !in r[..|GetFileName(filename)|]
    ensures |r| == |GetFileName(filename)| <==> !IsPdf(filename)
  {
    if IsPdf(filename) then GetFileName(filename) + "#page=" + IntToString(page + 1)
    else GetFileName(filename)
  }

  /** BlobManager.BlobNameFromFile: the name of the blob is the file-name part of the path. */
  function BlobNameFromFile(filename: string): (r: string)
    ensures IsSuffix(r, filename) && '/' !in r
    ensures |r| < |filename| ==> filename[|filename| - |r| - 1] == '/'
  {
    GetFileName(filename)
  }

  /**
   * The extension test, read on the path itself: a file is a PDF exactly
   * when its path ends in '.' followed by p, d, f, each in either case.
   */
  lemma IsPdfEnding(filename: string)
    ensures IsPdf(filename) <==> 4 <= |filename| && ToLowerAscii(filename[|filename| - 4..]) == ".pdf"
  {
    var name := GetFileName(filename);
    var d := DotSuffix(name);
    if IsPdf(filename) {
      var ext := GetExtension(filename);
      assert |ext| == 4;
      assert filename[|filename| - 4..] == name[|name| - 4..] == ext;
    }
    if 4 <= |filename| && ToLowerAscii(filename[|filename| - 4..]) == ".pdf" {
      PdfEndingIsExtension(filename);
    }
  }

  /** A path ending in ".pdf" in any case has that ending as its extension. */
  lemma PdfEndingIsExtension(filename: string)
    requires 4 <= |filename| && ToLowerAscii(filename[|filename| - 4..]) == ".pdf"
    ensures GetExtension(filename) == filename[|filename| - 4..]
  {
    var last4 := filename[|filename| - 4..];
    var name := GetFileName(filename);
    assert LowerChar(last4[0]) == '.' && LowerChar(last4[1]) == 'p' && LowerChar(last4[2]) == 'd' && LowerChar(last4[3]) == 'f';
    assert last4[0] == '.' && '.' !in last4[1..] && '/' !in last4;
    if |name| < 4 {
      assert false;
    }
    assert name[|name| - 4..] == last4;
    assert name[|name| - 4] == '.';
    var d := DotSuffix(name);
    if |d| > 4 {
      assert false;
    }
    if |d| < 4 {
      assert false;
    }
    assert d == last4;
  }

  /** Lower-casing a three-letter extension to "pdf" means each letter is p, d, f in either case. */
  lemma PdfLettersHaveNoSeparator(ext: string)
    requires ToLowerAscii(ext) == "pdf"
    ensures '.' !in ext && '/' !in ext && |ext| == 3
  {
    assert LowerChar(ext[0]) == 'p' && LowerChar(ext[1]) == 'd' && LowerChar(ext[2]) == 'f';
  }

  /**
   * Any path "dir/stem.ext" whose extension reads "pdf" in any letter case
   * gets the anchor: "stem.ext#page=" followed by page + 1; the directory is dropped.
   */
  lemma SourcepageOfPdfPath(dir: string, stem: string, ext: string, page: int)
    requires '/' !in stem && ToLowerAscii(ext) == "pdf"
    ensures SourcepageFromFilePage(dir + "/" + stem + "." + ext, page)
            == stem + "." + ext + "#page=" + IntToString(page + 1)
  {
    PdfLettersHaveNoSeparator(ext);
    var name := stem + "." + ext;
    var path := dir + "/" + name;
    assert dir + "/" + stem + "." + ext == path;
    FileNameOfJoin(dir, name);
    ExtensionOfName(stem, ext);
    LowerDotPdf(ext);
    assert GetExtension(path) == "." + ext;
    assert IsPdf(path);
  }

  lemma LowerDotPdf(ext: string)
    requires ToLowerAscii(ext) == "pdf"
    ensures ToLowerAscii("." + ext) == ".pdf"
  {
    assert ToLowerAscii("." + ext) == [LowerChar('.')] + ToLowerAscii(ext);
  }

  /** The same for a bare file name with no directory part. */
  lemma SourcepageOfPdfName(stem: string, ext: string, page: int)
    requires '/' !in stem && ToLowerAscii(ext) == "pdf"
    ensures SourcepageFromFilePage(stem + "." + ext, page) == stem + "." + ext + "#page=" + IntToString(page + 1)
  {
    PdfLettersHaveNoSeparator(ext);
    var name := stem + "." + ext;
    FileNameOfName(name);
    ExtensionOfName(stem, ext);
    LowerDotPdf(ext);
  }

  /** Any other file keeps its bare file name: "dir/name" gives "name". */
  lemma SourcepageOfOtherPath(dir: string, name: string, page: int)
    requires '/' !in name && !IsPdf(name)
    ensures SourcepageFromFilePage(dir + "/" + name, page) == name
  {
    FileNameOfJoin(dir, name);
    FileNameOfName(name);
  }

  /** A PDF file's source page is its bare file name, "#page=" and page + 1. */
  lemma SourcepageOfPdf(filename: string, page: int)
    requires IsPdf(filename)
    ensures SourcepageFromFilePage(filename, page) == GetFileName(filename) + "#page=" + IntToString(page + 1)
  {
  }

  /** Page 1 of a PDF gets the anchor "#page=2". */
  lemma SourcepageOfFirstPage(filename: string)
    requires IsPdf(filename)
    ensures SourcepageFromFilePage(filename, 1) == GetFileName(filename) + "#page=2"
  {
    var name := GetFileName(filename);
    assert IntToString(1 + 1) == "2" by { }
    assert "#page=" + "2" == "#page=2" by { }
    SourcepageOfPdf(filename, 1);
    AppendAssoc(name, "#page=", "2");
  }

  /** With the default page 0, a PDF's anchor is "#page=1". */
  lemma SourcepageDefaultPage(filename: string)
    requires IsPdf(filename)
    ensures SourcepageFromFilePage(filename) == GetFileName(filename) + "#page=1"
  {
    var name := GetFileName(filename);
    assert IntToString(0 + 1) == "1" by { }
    assert "#page=" + "1" == "#page=1" by { }
    SourcepageOfPdf(filename, 0);
    AppendAssoc(name, "#page=", "1");
  }
}
