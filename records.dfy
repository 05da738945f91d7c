/**
  * `parse_file_info` of generate_github.py and the two sort keys of
  * `generate_json_manifest`: what one archive file in one folder becomes in
  * the manifest, and the integer lists the records and the groups are
  * ordered by.
  *
  * The file system is not modelled: a file is an `Entry` carrying its name,
  * whether it is a regular file, its size and its SHA-256 digest, all given.
  */
module Records {
  import opened Wrappers
  import opened Text
  import opened Regex
  import opened Ordering

  /** One directory entry: name, `is_file()`, `stat().st_size` and the hex SHA-256 of its content. */
  datatype Entry = Entry(name: string, isFile: bool, size: nat, sha256: string)

  /** The `file_info` object of one file. */
  datatype FileInfo = FileInfo(
    subVersion: string,
    size: nat,
    path: string,
    fileFormat: string,
    illustrate: string,
    sha256: string)

  /** What `parse_file_info` returns: the main version the file is grouped under, and its `file_info`. */
  datatype Record = Record(mainVersion: string, info: FileInfo)

  const Unknown := "unknown"
  const NotOpenGLES := "NotOpenGLES"
  const GithubBase := "https://github.com/jxsm/SCVersionList/raw/main/"

  /** `tag` followed by the capture of the leftmost match of `p` in `name`, or "unknown". */
  function Tagged(tag: string, name: string, p: Pattern): (v: string)
    requires WellFormed(p)
    ensures NoMatch(name, p) ==> v == Unknown
    ensures !NoMatch(name, p) ==> exists c :: Leftmost(name, p, c) && v == tag + c
  {
    SearchMeaning(name, p);
    match Search(name, p)
    case Some(m) => tag + m.capture
    case None => Unknown
  }

  /** `main_version`: the leftmost `SCx<digits>.<digits>` capture, or "unknown". */
  function MainVersion(name: string): (v: string)
    ensures NoMatch(name, MainPattern) ==> v == Unknown
    ensures !NoMatch(name, MainPattern) ==> exists c :: Leftmost(name, MainPattern, c) && v == c
  {
    var v := Tagged("", name, MainPattern);
    assert forall c :: "" + c == c;
    v
  }

  /**
    * The "NotOpenGLES" marker appended to an API sub-version, present exactly
    * when the name holds it. It has no digit, so it never changes a sort key.
    */
  function OpenGLESSuffix(name: string): (m: string)
    ensures m == NotOpenGLES <==> Contains(name, NotOpenGLES)
    ensures m != NotOpenGLES ==> m == ""
    ensures forall k :: 0 <= k < |m| ==> !IsDigit(m[k])
  {
    if Contains(name, NotOpenGLES) then NotOpenGLES else ""
  }

  /** `sub_version`: depends on the folder; any folder other than the three known ones leaves "unknown". */
  function SubVersion(name: string, folder: string): (v: string)
    ensures folder == "API" && NoMatch(name, ApiPattern) ==> v == Unknown + OpenGLESSuffix(name)
    ensures folder == "API" && !NoMatch(name, ApiPattern) ==>
      exists c :: Leftmost(name, ApiPattern, c) && v == "API" + c + OpenGLESSuffix(name)
    ensures folder == "NET" && NoMatch(name, NetPattern) ==> v == Unknown
    ensures folder == "NET" && !NoMatch(name, NetPattern) ==>
      exists c :: Leftmost(name, NetPattern, c) && v == "NET" + c
    ensures folder == "Original" && NoMatch(name, OriginalPattern) ==> v == Unknown
    ensures folder == "Original" && !NoMatch(name, OriginalPattern) ==>
      exists c :: Leftmost(name, OriginalPattern, c) && v == "Original" + c
    ensures folder !in ["API", "NET", "Original"] ==> v == Unknown
  {
    if folder == "API" then Tagged("API", name, ApiPattern) + OpenGLESSuffix(name)
    else if folder == "NET" then Tagged("NET", name, NetPattern)
    else if folder == "Original" then Tagged("Original", name, OriginalPattern)
    else Unknown
  }

  /** `parse_file_info(file, folder)`; the size and the digest are the entry's own. */
  function ParseFileInfo(e: Entry, folder: string): (r: Record)
    ensures r.mainVersion == MainVersion(e.name)
    ensures r.info.subVersion == SubVersion(e.name, folder)
    ensures r.info.fileFormat == FileFormat(e.name)
    ensures r.info.path ==
      GithubBase + folder + "%2F" + r.mainVersion + "%20" + r.info.subVersion + "." + r.info.fileFormat
    ensures r.info.size == e.size && r.info.sha256 == e.sha256 && r.info.illustrate == ""
  {
    var main := MainVersion(e.name);
    var sub := SubVersion(e.name, folder);
    var format := FileFormat(e.name);
    Record(main, FileInfo(sub, e.size, GithubBase + folder + "%2F" + main + "%20" + sub + "." + format,
                          format, "", e.sha256))
  }

  // ---------------------------------------------------------------------
  // Sort keys
  // ---------------------------------------------------------------------

  /** `version_cmp`: the numbers in the sub-version, left to right, or `[0]` when there are none. */
  function SubKey(subVersion: string): (k: Key)
    ensures |k| >= 1 && forall i :: 0 <= i < |k| ==> k[i] >= 0
  {
    var runs := DigitRuns(subVersion);
    if runs == [] then [0]
    else seq(|runs|, i requires 0 <= i < |runs| => DecimalValue(runs[i]))
  }

  /** The key a file record is sorted by within its group: a non-empty list of non-negative numbers. */
  function FileKey(f: FileInfo): (k: Key)
    ensures |k| >= 1 && forall i :: 0 <= i < |k| ==> k[i] >= 0
  {
    SubKey(f.subVersion)
  }

  /** A main version `int()` can read piece by piece: dot-separated non-empty digit runs. */
  predicate ValidVersion(v: string) {
    var parts := Split(v, '.');
    forall k :: 0 <= k < |parts| ==> IsDigits(parts[k])
  }

  /** `main_version_cmp`: `[-1]` for "unknown", else the integers between the dots. */
  function MainKey(v: string): (k: Key)
    requires v == Unknown || ValidVersion(v)
    ensures v == Unknown ==> k == [-1]
    ensures v != Unknown ==> |k| == |Split(v, '.')| && forall i :: 0 <= i < |k| ==> k[i] >= 0
  {
    if v == Unknown then [-1]
    else
      var parts := Split(v, '.');
      seq(|parts|, i requires 0 <= i < |parts| => DecimalValue(parts[i]))
  }

  /**
    * The key the main versions are sorted by. `int()` would raise on any other
    * text; `MainVersionValid` shows no such main version is ever produced, so
    * the empty key below is never used. Only "unknown" gets a negative number.
    */
  function MainKeyOf(v: string): (k: Key)
    ensures k == [-1] <==> v == Unknown
    ensures v != Unknown ==> forall i :: 0 <= i < |k| ==> k[i] >= 0
  {
    if v == Unknown then MainKey(v)
    else if ValidVersion(v) then
      var k := MainKey(v);
      assert k[0] >= 0;
      k
    else []
  }

  // ---------------------------------------------------------------------
  // Properties
  // ---------------------------------------------------------------------

  /** Every main version `parse_file_info` produces is one `main_version_cmp` can convert. */
  lemma MainVersionValid(name: string)
    ensures MainVersion(name) == Unknown || ValidVersion(MainVersion(name))
    ensures MainKeyOf(MainVersion(name)) == MainKey(MainVersion(name))
  {
    var v := MainVersion(name);
    if !NoMatch(name, MainPattern) {
      var c :| Leftmost(name, MainPattern, c) && v == c;
      var i: nat :| CaptureAt(name, MainPattern, i, c) && forall k: nat, d :: CaptureAt(name, MainPattern, k, d) ==> i <= k;
      CaptureDotted(name, MainPattern, i, c);
    }
  }

  /** "unknown" sorts below every readable main version, so it comes last in descending order. */
  lemma UnknownLast(v: string)
    requires v != Unknown && ValidVersion(v)
    ensures Less(MainKey(Unknown), MainKey(v))
  {
    var k := MainKey(v);
    assert k[0] >= 0;
  }

  /** A sub-version with no digit sorts as `[0]`, like an explicit "0". */
  lemma SubKeyNoDigits(subVersion: string)
    requires forall k :: 0 <= k < |subVersion| ==> !IsDigit(subVersion[k])
    ensures SubKey(subVersion) == [0]
  {
    DigitRunsNone(subVersion);
  }

  /** Appending "NotOpenGLES" adds no digit, so such a file ties with the plain one. */
  lemma SubKeyOpenGLESTie(subVersion: string)
    ensures SubKey(subVersion + NotOpenGLES) == SubKey(subVersion)
  {
    var rest := NotOpenGLES[1..];
    assert subVersion + NotOpenGLES == subVersion + ['N'] + rest;
    DigitRunsSplit(subVersion, 'N', rest);
    DigitRunsNone(rest);
    assert DigitRuns(subVersion) + [] == DigitRuns(subVersion);
  }
}
