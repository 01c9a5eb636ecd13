/** The server's decisions about file names: which uploads it accepts and
    which stored files the moderation list shows as videos. */
module FileRules {
  import opened Wrappers
  import opened Strings

  const AllowedExtensions: set<string> := {"png", "jpg", "jpeg", "gif"}
  const VideoExtensions: set<string> := {"mp4", "mov", "avi", "m4v"}

  /** `allowed_file`: the name contains "." and the lower-cased text after
      its last "." is an allowed image extension. The same function appears
      in the three route files that accept uploads. */
  predicate AllowedFile(filename: string) {
    '.' in filename && AsciiLower(AfterLast(filename, '.')) in AllowedExtensions
  }

  /** `filename` is `front`, ".", then an extension without "." whose
      lower-case form is an allowed image extension. */
  predicate AllowedSplit(filename: string, front: string, ext: string) {
    filename == front + "." + ext && '.' !in ext && AsciiLower(ext) in AllowedExtensions
  }

  /** An allowed name splits at its last "." into an allowed extension. */
  lemma AllowedFileSplits(filename: string)
    requires AllowedFile(filename)
    ensures AllowedSplit(filename, filename[..|filename| - |AfterLast(filename, '.')| - 1], AfterLast(filename, '.'))
  {
    var ext := AfterLast(filename, '.');
    var front := filename[..|filename| - |ext| - 1];
    assert filename == front + "." + ext;
  }

  /** Any split into an allowed extension makes the name allowed. */
  lemma AllowedSplitAllowed(filename: string, front: string, ext: string)
    requires AllowedSplit(filename, front, ext)
    ensures AllowedFile(filename)
  {
    AfterLastOfJoin(front, '.', ext);
    assert filename[|front|] == '.';
  }

  /** Video files are never accepted as uploads: an extension that is a
      video extension in any letter case is refused. */
  lemma VideoNotAllowed(front: string, ext: string)
    requires '.' !in ext && AsciiLower(ext) in VideoExtensions
    ensures !AllowedFile(front + "." + ext)
  {
    AfterLastOfJoin(front, '.', ext);
    VideoExtensionsNotAllowed(AsciiLower(ext));
  }

  /** No video extension is an image extension. */
  lemma VideoExtensionsNotAllowed(x: string)
    requires x in VideoExtensions
    ensures x !in AllowedExtensions
  {
    assert x[0] == 'm' || x[0] == 'a';
    assert x[0] == 'a' ==> x == "avi";
  }

  datatype MediaKind = Image | Video

  /** The `media_type` the moderation list attaches to a report: Video when
      the lower-cased last extension is a video extension, else Image. A
      name without "." makes `rsplit('.', 1)[1]` raise, which is None here. */
  function MediaTypeOf(filename: string): (r: Option<MediaKind>)
    ensures r.None? <==> '.' !in filename
    ensures r == Some(Video) <==> '.' in filename && AsciiLower(AfterLast(filename, '.')) in VideoExtensions
  {
    if '.' !in filename then None
    else if AsciiLower(AfterLast(filename, '.')) in VideoExtensions then Some(Video)
    else Some(Image)
  }

  /** A stored name ending in a video extension is listed as a video; one
      ending in an image extension as an image. */
  lemma MediaTypeOfJoin(front: string, ext: string)
    requires '.' !in ext
    ensures MediaTypeOf(front + "." + ext)
         == Some(if AsciiLower(ext) in VideoExtensions then Video else Image)
  {
    AfterLastOfJoin(front, '.', ext);
    assert '.' in front + "." + ext by {
      assert (front + "." + ext)[|front|] == '.';
    }
  }
}
