/** The local file being uploaded, as `java.io.File` presents it. */
module LocalFiles {
  import opened Text

  /** What opening the file for reading yields: its bytes, or the message of
      the `FileNotFoundException` raised when it cannot be opened, together
      with what `File.length()` reports for it all the same: 0 when nothing
      exists at the path, the size on disk when the file exists but is not
      readable. */
  datatype Contents =
    | Readable(data: seq<Byte>)
    | Unreadable(reportedLength: nat, reason: string)

  /** A path and what opening it yields. The contents are assumed not to
      change during an upload. */
  datatype LocalFile = LocalFile(path: string, contents: Contents)

  /** `File.length()`: the byte count of a readable file, and the reported
      length of one that cannot be opened. */
  function Length(f: LocalFile): nat {
    match f.contents
    case Readable(data) => |data|
    case Unreadable(n, _) => n
  }

  /** `File.getName()`: the part of the path after its last '/'. */
  function BaseName(path: string): (name: string)
    ensures |name| <= |path|
  {
    if |path| == 0 || path[|path| - 1] == '/' then []
    else BaseName(path[..|path| - 1]) + [path[|path| - 1]]
  }

  /** The name is a suffix of the path that contains no '/', and it is
      either the whole path or preceded by a '/': exactly the last segment. */
  lemma {:induction false} BaseNameIsLastSegment(path: string)
    ensures var name := BaseName(path);
            && '/' !in name
            && path[|path| - |name|..] == name
            && (|name| < |path| ==> path[|path| - |name| - 1] == '/')
  {
    if |path| > 0 && path[|path| - 1] != '/' {
      var init := path[..|path| - 1];
      BaseNameIsLastSegment(init);
      var name := BaseName(path);
      assert name == BaseName(init) + [path[|path| - 1]];
      assert path == init + [path[|path| - 1]];
    }
  }
}
