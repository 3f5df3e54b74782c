/** Content-type classification and the names the upload handler derives
    from an uploaded object: the final object name, the thumbnail name and
    the two local paths in the working directory. */
module Naming {
  import opened Wrappers
  import opened Strings
  import opened Paths

  const JpegContentType := "image/jpeg"
  const PngContentType := "image/png"

  /** The width, in pixels, the thumbnail is resized to. */
  const ThumbWidth: nat := 64

  /** The prefix of every thumbnail name; it carries the resize width. */
  const ThumbPrefix := "thumb@64_"

  /** The extension an accepted content type is stored under; `None` for
      every type the handler does not process. */
  function ExtensionOf(contentType: string): (r: Option<string>)
    ensures r.Some? <==> contentType == JpegContentType || contentType == PngContentType
    ensures r == Some("jpg") <==> contentType == JpegContentType
    ensures r == Some("png") <==> contentType == PngContentType
  {
    if contentType == JpegContentType then Some("jpg")
    else if contentType == PngContentType then Some("png")
    else None
  }

  /** The handler's if / else-if chain over the content type: it starts
      from an empty extension and an invalid file and sets both only for a
      JPEG or a PNG. */
  method ClassifyContentType(contentType: string) returns (fileExtension: string, validFile: bool)
    ensures validFile <==> contentType == JpegContentType || contentType == PngContentType
    ensures contentType == JpegContentType ==> fileExtension == "jpg"
    ensures contentType == PngContentType ==> fileExtension == "png"
    ensures !validFile ==> fileExtension == ""
    ensures validFile == ExtensionOf(contentType).Some?
    ensures fileExtension == ExtensionOf(contentType).GetOr("")
  {
    fileExtension := "";
    validFile := false;
    if contentType == JpegContentType {
      fileExtension := "jpg";
      validFile := true;
    } else if contentType == PngContentType {
      fileExtension := "png";
      validFile := true;
    }
  }

  /** The name of the copy in the final bucket: `{generation}.{extension}`. */
  function FinalFileName(generation: string, fileExtension: string): (r: string)
    ensures |r| == |generation| + 1 + |fileExtension|
    ensures generation <= r && r[|generation|] == '.'
  {
    generation + "." + fileExtension
  }

  /** The name of the thumbnail: the thumbnail prefix, then the final name. */
  function ThumbName(finalFileName: string): (r: string)
    ensures ThumbPrefix <= r && |r| == |ThumbPrefix| + |finalFileName|
  {
    ThumbPrefix + finalFileName
  }

  /** The working directory `{tmp}/thumbs` on the function's machine. */
  function WorkingDir(tmp: string): (r: string)
    ensures Under(r, tmp)
  {
    Join(tmp, "thumbs")
  }

  /** Where the original is downloaded to. */
  function TempFilePath(tmp: string, finalFileName: string): (r: string)
    ensures Under(r, WorkingDir(tmp))
  {
    Join(WorkingDir(tmp), finalFileName)
  }

  /** Where the thumbnail is written to. */
  function ThumbPath(tmp: string, finalFileName: string): (r: string)
    ensures Under(r, WorkingDir(tmp))
  {
    Join(WorkingDir(tmp), ThumbName(finalFileName))
  }

  /** Reads a final name back as its generation and extension. */
  function ParseFinalFileName(name: string): Option<(string, string)> {
    var parts := Split(name, '.');
    if |parts| == 2 then Some((parts[0], parts[1])) else None
  }

  /** Removes the thumbnail prefix, giving the final name it was built from. */
  function ThumbSource(name: string): (r: Option<string>)
    ensures r.Some? ==> ThumbPrefix + r.value == name
  {
    if |ThumbPrefix| <= |name| && name[..|ThumbPrefix|] == ThumbPrefix
    then Some(name[|ThumbPrefix|..])
    else None
  }

  /** Every accepted content type's extension is free of dots and slashes. */
  lemma ExtensionPlain(contentType: string)
    requires ExtensionOf(contentType).Some?
    ensures '.' !in ExtensionOf(contentType).value
    ensures '/' !in ExtensionOf(contentType).value
  {
  }

  /** A final name is read back as the generation and extension it was made
      from, whenever the generation has no dot (storage generations are
      decimal numbers). */
  lemma FinalFileNameRoundTrip(generation: string, fileExtension: string)
    requires '.' !in generation && '.' !in fileExtension
    ensures ParseFinalFileName(FinalFileName(generation, fileExtension)) == Some((generation, fileExtension))
  {
    assert FinalFileName(generation, fileExtension) == JoinWith([generation, fileExtension], '.');
    SplitJoinWith([generation, fileExtension], '.');
  }

  /** The final name is determined by the generation and the content type,
      and different (dot-free) generations or different accepted content
      types never share a final name. */
  lemma FinalFileNameInjective(g1: string, ct1: string, g2: string, ct2: string)
    requires '.' !in g1 && '.' !in g2
    requires ExtensionOf(ct1).Some? && ExtensionOf(ct2).Some?
    ensures FinalFileName(g1, ExtensionOf(ct1).value) == FinalFileName(g2, ExtensionOf(ct2).value)
            <==> g1 == g2 && ct1 == ct2
  {
    var e1, e2 := ExtensionOf(ct1).value, ExtensionOf(ct2).value;
    FinalFileNameRoundTrip(g1, e1);
    FinalFileNameRoundTrip(g2, e2);
  }

  /** The thumbnail name starts with the prefix, ends with the final name,
      differs from it, and gives it back when the prefix is removed. */
  lemma ThumbNameShape(finalFileName: string)
    ensures ThumbName(finalFileName)[..|ThumbPrefix|] == ThumbPrefix
    ensures ThumbName(finalFileName)[|ThumbPrefix|..] == finalFileName
    ensures ThumbName(finalFileName) != finalFileName
    ensures ThumbSource(ThumbName(finalFileName)) == Some(finalFileName)
  {
    assert |ThumbName(finalFileName)| == |finalFileName| + 9;
  }

  /** The size written into the thumbnail prefix is the resize width. */
  lemma ThumbPrefixCarriesWidth()
    ensures ThumbPrefix == "thumb@" + Decimal(ThumbWidth) + "_"
  {
    assert Decimal(6) == "6";
    assert Decimal(ThumbWidth) == Decimal(6) + [Digit(4)];
  }

  /** The download path and the thumbnail path lie in the same working
      directory `{tmp}/thumbs`, and differ in their last component only:
      the final name and the thumbnail name. */
  lemma LocalPathsShareWorkingDir(tmp: string, generation: string, fileExtension: string)
    requires '/' !in generation && '/' !in fileExtension
    ensures var f := FinalFileName(generation, fileExtension);
      && Dir(TempFilePath(tmp, f)) == WorkingDir(tmp)
      && Dir(ThumbPath(tmp, f)) == WorkingDir(tmp)
      && Base(TempFilePath(tmp, f)) == f
      && Base(ThumbPath(tmp, f)) == ThumbName(f)
      && TempFilePath(tmp, f) != ThumbPath(tmp, f)
  {
    var f := FinalFileName(generation, fileExtension);
    assert '/' !in ThumbName(f);
    JoinParts(WorkingDir(tmp), f);
    JoinParts(WorkingDir(tmp), ThumbName(f));
    ThumbNameShape(f);
    JoinInjective(WorkingDir(tmp), f, ThumbName(f));
  }
}
