/**
 * The upload middleware of chat-backend/middleware/uploadMiddleware.js:
 * the image filter, the stored file name, the size limit and the mapping
 * of upload errors to replies. The file system (the upload directory and
 * the disk storage) is not modelled; the clock and the authenticated user
 * are parameters.
 */
module UploadMiddleware {
  import opened Models

  // ----------------------------------------------------------------------
  // path.extname

  /** The last position of `c` in `s`, or -1. */
  function LastIndexOf(s: string, c: char): (i: int)
    ensures -1 <= i < |s|
    ensures i == -1 <==> c !in s
    ensures 0 <= i ==> s[i] == c && forall k :: i < k < |s| ==> s[k] != c
  {
    if s == [] then -1
    else if s[|s| - 1] == c then |s| - 1
    else LastIndexOf(s[..|s| - 1], c)
  }

  /** `s` without its trailing slashes. */
  function StripTrailingSlashes(s: string): (r: string)
    ensures r <= s
    ensures r == [] || r[|r| - 1] != '/'
    ensures forall k :: |r| <= k < |s| ==> s[k] == '/'
  {
    if s != [] && s[|s| - 1] == '/' then StripTrailingSlashes(s[..|s| - 1]) else s
  }

  /** The last path segment: what follows the last slash, trailing slashes
      ignored. */
  function Basename(path: string): (b: string)
    ensures '/' !in b
  {
    var s := StripTrailingSlashes(path);
    s[LastIndexOf(s, '/') + 1..]
  }

  /** Node's POSIX `path.extname`: from the last dot of the last segment to
      its end; empty when the segment has no dot, when that dot is its
      first character (".bashrc"), and for the segment "..". */
  function ExtName(path: string): (e: string)
    ensures e == [] || (e[0] == '.' && '.' !in e[1..] && '/' !in e)
  {
    var b := Basename(path);
    var k := LastIndexOf(b, '.');
    if k <= 0 || b == ".." then [] else b[k..]
  }

  /** The extension is a suffix of the name. */
  lemma ExtNameIsSuffix(name: string)
    requires '/' !in name
    ensures ExtName(name) <= name[|name| - |ExtName(name)|..]
    ensures name[|name| - |ExtName(name)|..] == ExtName(name)
  {
    assert StripTrailingSlashes(name) == name;
    assert LastIndexOf(name, '/') == -1;
  }

  // ----------------------------------------------------------------------
  // The image filter

  /** `String.prototype.toLowerCase` on ASCII letters. Other characters are
      kept: no other character lower-cases to a sequence containing one of
      the four image names, so the filter's verdict is the same. */
  function ToLower(s: string): (r: string)
    ensures |r| == |s|
    ensures forall i :: 0 <= i < |s| ==>
              r[i] == if 'A' <= s[i] <= 'Z' then (s[i] as int + 32) as char else s[i]
  {
    if s == [] then [] else [if 'A' <= s[0] <= 'Z' then (s[0] as int + 32) as char else s[0]] + ToLower(s[1..])
  }

  /** What an unanchored regular expression for the literal `t` finds: an
      occurrence starting at the first position or at a later one. */
  predicate Matches(s: string, t: string) {
    t <= s || (s != [] && Matches(s[1..], t))
  }

  /** An occurrence of `t` at some position of `s`. */
  predicate ContainsAt(s: string, t: string, i: int) {
    0 <= i <= |s| - |t| && s[i..i + |t|] == t
  }

  /** The scanning match agrees with the declarative substring test. */
  lemma {:induction false} MatchesIff(s: string, t: string)
    ensures Matches(s, t) <==> exists i :: ContainsAt(s, t, i)
  {
    if t <= s {
      assert ContainsAt(s, t, 0);
    } else if s != [] {
      MatchesIff(s[1..], t);
      if exists i :: ContainsAt(s[1..], t, i) {
        var i :| ContainsAt(s[1..], t, i);
        assert s[1..][i..i + |t|] == s[i + 1..i + 1 + |t|];
        assert ContainsAt(s, t, i + 1);
      }
      if exists i :: ContainsAt(s, t, i) {
        var i :| ContainsAt(s, t, i);
        assert s[1..][i - 1..i - 1 + |t|] == s[i..i + |t|];
        assert ContainsAt(s[1..], t, i - 1);
      }
    }
  }

  /** A pattern whose first character does not occur in `s` never matches. */
  lemma {:induction false} FirstCharAbsent(s: string, t: string)
    requires t != [] && t[0] !in s
    ensures !Matches(s, t)
  {
    if s != [] {
      assert s[1..] <= s[1..] && forall c :: c in s[1..] ==> c in s;
      FirstCharAbsent(s[1..], t);
    }
  }

  /** `/jpeg|jpg|png|gif/.test(s)`. */
  predicate ImageTypeIn(s: string) {
    Matches(s, "jpeg") || Matches(s, "jpg") || Matches(s, "png") || Matches(s, "gif")
  }

  /** One of the four image names occurs somewhere in `s`. */
  ghost predicate NamesImage(s: string) {
    exists i :: ContainsAt(s, "jpeg", i) || ContainsAt(s, "jpg", i) || ContainsAt(s, "png", i) || ContainsAt(s, "gif", i)
  }

  lemma ImageTypeInIff(s: string)
    ensures ImageTypeIn(s) <==> NamesImage(s)
  {
    MatchesIff(s, "jpeg");
    MatchesIff(s, "jpg");
    MatchesIff(s, "png");
    MatchesIff(s, "gif");
  }

  /** A string with none of the letters 'j', 'p' and 'g' names no image. */
  lemma NoImageLetters(s: string)
    requires 'j' !in s && 'p' !in s && 'g' !in s
    ensures !ImageTypeIn(s)
  {
    FirstCharAbsent(s, "jpeg");
    FirstCharAbsent(s, "jpg");
    FirstCharAbsent(s, "png");
    FirstCharAbsent(s, "gif");
  }

  const ImagesOnly: string := "Error: Images Only! (jpeg, jpg, png, gif)"

  datatype FilterResult = Accept | Reject(error: string)

  /** `fileFilter`: the lower-cased extension and the MIME type as sent
      must each name an image type. */
  function FileFilter(originalname: string, mimetype: string): (r: FilterResult)
    ensures r.Reject? ==> r.error == ImagesOnly
  {
    if ImageTypeIn(mimetype) && ImageTypeIn(ToLower(ExtName(originalname))) then Accept
    else Reject(ImagesOnly)
  }

  /** The filter accepts exactly when both the lower-cased extension and the
      MIME type contain one of the image names somewhere. */
  lemma FileFilterIff(originalname: string, mimetype: string)
    ensures FileFilter(originalname, mimetype).Accept? <==>
              NamesImage(mimetype) && NamesImage(ToLower(ExtName(originalname)))
  {
    ImageTypeInIff(mimetype);
    ImageTypeInIff(ToLower(ExtName(originalname)));
  }

  /** A name without an extension is refused whatever its MIME type. */
  lemma NoExtensionRejected(originalname: string, mimetype: string)
    requires ExtName(originalname) == []
    ensures FileFilter(originalname, mimetype) == Reject(ImagesOnly)
  {
    assert ToLower([]) == [];
  }

  /** For a name without slashes, the extension starts at its last dot,
      unless that dot is the first character. */
  lemma ExtNameOfPlainName(name: string, k: nat)
    requires '/' !in name && name != ".." && 0 < k < |name| && name[k] == '.' && '.' !in name[k + 1..]
    ensures ExtName(name) == name[k..]
  {
    assert StripTrailingSlashes(name) == name;
    assert LastIndexOf(name, '/') == -1;
    assert Basename(name) == name[0..] == name;
    assert forall j :: k < j < |name| ==> name[j] == name[k + 1..][j - k - 1];
    assert LastIndexOf(name, '.') == k;
  }

  /** An occurrence of an image name makes the test succeed. */
  lemma ImageTypeAt(s: string, t: string, i: nat)
    requires t in {"jpeg", "jpg", "png", "gif"} && ContainsAt(s, t, i)
    ensures ImageTypeIn(s)
  {
    MatchesIff(s, t);
  }

  /** The extension's case does not matter: any plain name ending in
      ".PNG" sent as "image/png" is accepted. */
  lemma UpperCaseExtensionAccepted(base: string)
    requires base != [] && '/' !in base && '.' !in base
    ensures FileFilter(base + ".PNG", "image/png") == Accept
  {
    var name := base + ".PNG";
    assert name[|base|..] == ".PNG" && name[|base| + 1..] == "PNG";
    ExtNameOfPlainName(name, |base|);
    PngNamesImage();
  }

  lemma PngNamesImage()
    ensures ImageTypeIn(ToLower(".PNG")) && ImageTypeIn("image/png")
  {
    assert ToLower(".PNG") == ".png";
    ImageTypeAt(".png", "png", 1);
    ImageTypeAt("image/png", "png", 6);
  }

  /** The MIME type's case does: "IMAGE/PNG" is refused whatever the name. */
  lemma UpperCaseMimeTypeRejected(name: string)
    ensures FileFilter(name, "IMAGE/PNG") == Reject(ImagesOnly)
  {
    NoImageLetters("IMAGE/PNG");
  }

  /** A dot file has no extension, so ".png" is refused whatever its type. */
  lemma DotFileRejected(mimetype: string)
    ensures FileFilter(".png", mimetype) == Reject(ImagesOnly)
  {
    assert LastIndexOf(".png", '/') == -1;
    assert LastIndexOf(".png", '.') == 0;
    NoExtensionRejected(".png", mimetype);
  }

  /** The test is unanchored: an extension and a MIME type that merely
      contain an image name pass, as ".jpgz" with "application/x-png". */
  lemma UnanchoredMatchAccepted(base: string)
    requires base != [] && '/' !in base && '.' !in base
    ensures FileFilter(base + ".jpgz", "application/x-png") == Accept
  {
    var name := base + ".jpgz";
    assert name[|base|..] == ".jpgz" && name[|base| + 1..] == "jpgz";
    ExtNameOfPlainName(name, |base|);
    JpgzNamesImage();
  }

  lemma JpgzNamesImage()
    ensures ImageTypeIn(ToLower(".jpgz")) && ImageTypeIn("application/x-png")
  {
    assert ToLower(".jpgz") == ".jpgz";
    ImageTypeAt(".jpgz", "jpg", 1);
    ImageTypeAt("application/x-png", "png", 14);
  }

  // ----------------------------------------------------------------------
  // The stored file name and the size limit

  /** The decimal digits of `n`, as a template string prints a number. */
  function Decimal(n: nat): (s: string)
    ensures s != [] && forall i :: 0 <= i < |s| ==> '0' <= s[i] <= '9'
    decreases n
  {
    if n < 10 then [('0' as int + n) as char] else Decimal(n / 10) + [('0' as int + n % 10) as char]
  }

  /** The value of a string of decimal digits. */
  function DecimalValue(s: string): nat
    requires forall i :: 0 <= i < |s| ==> '0' <= s[i] <= '9'
  {
    if s == [] then 0 else DecimalValue(s[..|s| - 1]) * 10 + (s[|s| - 1] as int - '0' as int)
  }

  lemma {:induction false} DecimalRoundTrip(n: nat)
    ensures DecimalValue(Decimal(n)) == n
    decreases n
  {
    if n >= 10 {
      DecimalRoundTrip(n / 10);
      var s := Decimal(n);
      assert s[..|s| - 1] == Decimal(n / 10);
    }
  }

  /** The disk storage's `filename`. */
  function StoredFilename(user: Option<UserId>, now: Timestamp, originalname: string): string {
    var userId := if user.Some? then user.value else "anonymous";
    "avatar-" + userId + "-" + Decimal(now) + ExtName(originalname)
  }

  /** A stored name starts with "avatar-", the uploader's id or
      "anonymous" and a dash, and ends with the original name's extension,
      which is thus the one the filter checked. */
  lemma StoredFilenameParts(user: Option<UserId>, now: Timestamp, originalname: string)
    ensures var name := StoredFilename(user, now, originalname);
            var u := if user.Some? then user.value else "anonymous";
            var ext := ExtName(originalname);
            && "avatar-" + u + "-" <= name
            && |name| > 8 + |u| + |ext|
            && name[|name| - |ext|..] == ext
  {
    var u := if user.Some? then user.value else "anonymous";
    ConcatParts("avatar-" + u + "-", Decimal(now), ExtName(originalname));
  }

  lemma ConcatParts(head: string, middle: string, tail: string)
    ensures var s := head + middle + tail;
            head <= s && |s| == |head| + |middle| + |tail| && s[|head| + |middle|..] == tail
  {
  }

  /** Two uploads of the same user and extension at different times get
      different names; the extension the filter checked is the one kept. */
  lemma StoredFilenamesDistinct(user: Option<UserId>, t1: Timestamp, t2: Timestamp, originalname: string)
    requires t1 != t2
    ensures StoredFilename(user, t1, originalname) != StoredFilename(user, t2, originalname)
  {
    var prefix := "avatar-" + (if user.Some? then user.value else "anonymous") + "-";
    var ext := ExtName(originalname);
    var n1, n2 := StoredFilename(user, t1, originalname), StoredFilename(user, t2, originalname);
    assert n1 == prefix + Decimal(t1) + ext;
    assert n2 == prefix + Decimal(t2) + ext;
    if n1 == n2 {
      assert |Decimal(t1)| == |Decimal(t2)|;
      assert Decimal(t1) == n1[|prefix|..|n1| - |ext|];
      assert Decimal(t2) == n2[|prefix|..|n2| - |ext|];
      DecimalRoundTrip(t1);
      DecimalRoundTrip(t2);
    }
  }

  /** `limits: { fileSize: 2 * 1024 * 1024 }`, in bytes. */
  const MaxFileSize: nat := 2 * 1024 * 1024

  // ----------------------------------------------------------------------
  // handleMulterError

  /** An error reaching the handler: one of Multer's own, with its code, or
      any other error, with its message. */
  datatype UploadError = MulterError(code: string, message: string) | OtherError(message: string)

  datatype Outcome = Respond(status: nat, message: string) | Next

  function HandleMulterError(err: Option<UploadError>): (r: Outcome)
    ensures err.None? <==> r == Next
    ensures err.Some? && err.value.MulterError? ==> r.Respond? && r.status == 400
    ensures err.Some? && err.value.MulterError? && err.value.code == "LIMIT_FILE_SIZE" ==>
              r == Respond(400, "File too large. Maximum size is 2MB.")
    ensures err == Some(OtherError(ImagesOnly)) ==> r == Respond(400, ImagesOnly)
    ensures err.Some? && err.value.OtherError? && err.value.message != ImagesOnly ==>
              r == Respond(500, "An unknown error occurred during file upload.")
    ensures r.Respond? && r.status == 400 && err.value.MulterError? && err.value.code != "LIMIT_FILE_SIZE" ==>
              r.message == err.value.message
  {
    match err
    case None => Next
    case Some(MulterError(code, message)) =>
      if code == "LIMIT_FILE_SIZE" then Respond(400, "File too large. Maximum size is 2MB.")
      else Respond(400, message)
    case Some(OtherError(message)) =>
      if message == ImagesOnly then Respond(400, message)
      else Respond(500, "An unknown error occurred during file upload.")
  }

  /** What Multer passes on for one file: the filter's error first, then the
      size limit's, otherwise none. */
  function UploadCheck(originalname: string, mimetype: string, size: nat): (err: Option<UploadError>)
    ensures err.None? <==> FileFilter(originalname, mimetype).Accept? && size <= MaxFileSize
  {
    match FileFilter(originalname, mimetype)
    case Reject(e) => Some(OtherError(e))
    case Accept =>
      if size > MaxFileSize then Some(MulterError("LIMIT_FILE_SIZE", "File too large")) else None
  }

  /** End to end: a file the filter refuses, or one over 2 MB, is answered
      with 400 and never reaches the route; any other file goes on. */
  lemma UploadOutcome(originalname: string, mimetype: string, size: nat)
    ensures FileFilter(originalname, mimetype).Reject? ==>
              HandleMulterError(UploadCheck(originalname, mimetype, size)) == Respond(400, ImagesOnly)
    ensures FileFilter(originalname, mimetype).Accept? && size > MaxFileSize ==>
              HandleMulterError(UploadCheck(originalname, mimetype, size)) ==
                Respond(400, "File too large. Maximum size is 2MB.")
    ensures FileFilter(originalname, mimetype).Accept? && size <= MaxFileSize ==>
              HandleMulterError(UploadCheck(originalname, mimetype, size)) == Next
  {
  }
}
