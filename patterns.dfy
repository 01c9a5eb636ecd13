/** The regular expressions the screens test text against, written out as
    predicates, each with a lemma that says which texts it accepts:
    - `/^.+@.+\.com$/`, the e-mail pattern of the profile and sign-up forms;
    - `/\.(\w+)$/`, which picks the image sub-type from a file name. */
module Patterns {
  import opened Wrappers
  import opened Strings

  // ---------------------------------------------------------------------
  // /^.+@.+\.com$/
  // ---------------------------------------------------------------------

  /** The characters JavaScript's `.` does not match. */
  predicate IsLineTerminator(c: char) {
    c == '\n' || c == '\r' || c == '\U{2028}' || c == '\U{2029}'
  }

  /** What `.+` matches: one or more characters, none a line terminator. */
  predicate DotPlus(s: string) {
    |s| >= 1 && forall i :: 0 <= i < |s| ==> !IsLineTerminator(s[i])
  }

  /** The test the screens run. `.+` is greedy but may also match an `@`, so
      the text matches when some `@` after the first character leaves at least
      one character before the final ".com". */
  predicate MatchesEmail(s: string) {
    && |s| >= 7
    && EndsWith(s, ".com")
    && (forall i :: 0 <= i < |s| ==> !IsLineTerminator(s[i]))
    && exists i :: 1 <= i <= |s| - 6 && s[i] == '@'
  }

  /** The language of the pattern: a local part, "@", a domain, ".com". */
  ghost predicate EmailShape(s: string) {
    exists local, domain :: DotPlus(local) && DotPlus(domain) && s == local + "@" + domain + ".com"
  }

  /** The test accepts exactly the texts of the pattern's language. */
  lemma MatchesEmailSpec(s: string)
    ensures MatchesEmail(s) <==> EmailShape(s)
  {
    if MatchesEmail(s) {
      var i :| 1 <= i <= |s| - 6 && s[i] == '@';
      var local, domain := s[..i], s[i + 1..|s| - 4];
      assert s == local + "@" + domain + ".com";
      assert DotPlus(local) && DotPlus(domain);
    }
    if EmailShape(s) {
      var local, domain :| DotPlus(local) && DotPlus(domain) && s == local + "@" + domain + ".com";
      var i := |local|;
      assert s[i] == '@';
      assert s[|s| - 4..] == ".com";
      forall k | 0 <= k < |s| ensures !IsLineTerminator(s[k]) {
        if k < i {
          assert s[k] == local[k];
        } else if i < k < |s| - 4 {
          assert s[k] == domain[k - i - 1];
        }
      }
    }
  }

  /** The e-mail flag of the profile and sign-up forms: an empty field is
      not flagged, anything else must match the pattern. */
  predicate EmailFlag(text: string) {
    |text| == 0 || MatchesEmail(text)
  }

  /** The flag is raised exactly for a non-empty text outside the pattern's
      language. */
  lemma EmailFlagSpec(text: string)
    ensures EmailFlag(text) <==> text == "" || EmailShape(text)
  {
    MatchesEmailSpec(text);
  }

  // ---------------------------------------------------------------------
  // /\.(\w+)$/
  // ---------------------------------------------------------------------

  /** JavaScript's `\w`. */
  predicate IsWordChar(c: char) {
    ('a' <= c <= 'z') || ('A' <= c <= 'Z') || ('0' <= c <= '9') || c == '_'
  }

  predicate AllWordChars(s: string) {
    forall i :: 0 <= i < |s| ==> IsWordChar(s[i])
  }

  /** The longest run of word characters that ends `s`. */
  function WordSuffix(s: string): (r: string)
    ensures |r| <= |s| && r == s[|s| - |r|..] && AllWordChars(r)
    ensures |r| < |s| ==> !IsWordChar(s[|s| - |r| - 1])
  {
    if |s| == 0 || !IsWordChar(s[|s| - 1]) then ""
    else
      var r := WordSuffix(s[..|s| - 1]) + [s[|s| - 1]];
      assert s[..|s| - 1] + [s[|s| - 1]] == s;
      r
  }

  /** The group `(\w+)` captures, when `/\.(\w+)$/` matches at all. Because
      "." is not a word character the match, if any, starts right before the
      longest word-character suffix. */
  function CapturedExtension(s: string): Option<string> {
    var w := WordSuffix(s);
    if 0 < |w| < |s| && s[|s| - |w| - 1] == '.' then Some(w) else None
  }

  /** The pattern captures `ext` exactly when the text ends in "." followed
      by `ext` and `ext` is a non-empty run of word characters. */
  lemma CapturedExtensionSpec(s: string, ext: string)
    ensures CapturedExtension(s) == Some(ext) <==> |ext| >= 1 && AllWordChars(ext) && EndsWith(s, "." + ext)
  {
    var w := WordSuffix(s);
    if |ext| >= 1 && AllWordChars(ext) && EndsWith(s, "." + ext) {
      assert s[|s| - |ext| - 1] == '.';
      assert s[|s| - |ext|..] == ext;
    }
    if CapturedExtension(s) == Some(ext) {
      assert s[|s| - |w| - 1..] == "." + w;
    }
  }

  /** The part `type` of an image file picked on the device, as the profile
      and group forms compute it: "image/<ext>" when the pattern matches,
      otherwise plain "image". */
  function ImageMimeType(fileName: string): string {
    match CapturedExtension(fileName)
    case Some(ext) => "image/" + ext
    case None => "image"
  }

  /** The type is "image/" + ext exactly when the name ends in "." + ext with
      ext a non-empty run of word characters, and "image" when no such
      ending exists. */
  lemma ImageMimeTypeSpec(fileName: string, ext: string)
    ensures ImageMimeType(fileName) == "image/" + ext
        <==> |ext| >= 1 && AllWordChars(ext) && EndsWith(fileName, "." + ext)
    ensures ImageMimeType(fileName) == "image" <==> CapturedExtension(fileName).None?
  {
    CapturedExtensionSpec(fileName, ext);
    var t := ImageMimeType(fileName);
    if t == "image/" + ext {
      match CapturedExtension(fileName)
      case Some(e) =>
        assert "image/" + e == "image/" + ext;
        assert e == ("image/" + e)[6..] == ("image/" + ext)[6..] == ext;
      case None =>
    }
    if CapturedExtension(fileName).Some? {
      assert |t| >= 7;
    }
  }
}
