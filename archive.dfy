/** Release archives as the downloader sees them once the zip reader has parsed
    the central directory, the file records handed to the container builder,
    and Go's `path.Base`, which shapes the record names. */
module Archive {
  import opened Errors

  /** A `time.Time`, kept opaque: the model only copies and compares instants. */
  type Instant = int

  /** One `*zip.File` of `zip.Reader.File`, in central-directory order.
      `contents` is what `f.Open()` followed by `io.ReadAll` yields. */
  datatype ZipEntry = ZipEntry(name: string, isDir: bool, modified: Instant, contents: Result<seq<byte>>)

  /** A `psu.File`: the record handed to the container builder. */
  datatype File = File(name: string, created: Instant, modified: Instant, data: seq<byte>)

  /** `p` with every trailing '/' removed. */
  function StripTrailingSlashes(p: string): (r: string)
    ensures |r| <= |p| && r == p[..|r|]
    ensures r == "" || r[|r| - 1] != '/'
    ensures forall i :: |r| <= i < |p| ==> p[i] == '/'
  {
    if |p| > 0 && p[|p| - 1] == '/' then StripTrailingSlashes(p[..|p| - 1]) else p
  }

  /** The part of `p` after its last '/' (all of `p` when it has none). */
  function LastElement(p: string): (r: string)
    ensures '/' !in r
    ensures |r| <= |p| && r == p[|p| - |r|..]
    ensures |r| < |p| ==> p[|p| - |r| - 1] == '/'
    ensures |p| > 0 && p[|p| - 1] != '/' ==> |r| > 0
  {
    if |p| == 0 || p[|p| - 1] == '/' then "" else LastElement(p[..|p| - 1]) + [p[|p| - 1]]
  }

  /** `path.Base`: "." for the empty path, "/" for a path of slashes only,
      otherwise the last slash-separated element once trailing slashes are gone. */
  function Base(p: string): (r: string)
    ensures r != ""
    ensures r == "/" || '/' !in r
    ensures p == "" ==> r == "."
  {
    if p == "" then "."
    else
      var q := StripTrailingSlashes(p);
      if q == "" then "/" else LastElement(q)
  }

  /** After a '/' (or at the start), a slash-free name is its own last element. */
  lemma {:induction false} LastElementOfSuffix(dir: string, name: string)
    requires '/' !in name
    requires dir == "" || dir[|dir| - 1] == '/'
    ensures LastElement(dir + name) == name
  {
    if name != [] {
      var p, init, last := dir + name, name[..|name| - 1], name[|name| - 1];
      assert last in name;
      assert p[|p| - 1] == last != '/';
      assert p[..|p| - 1] == dir + init;
      assert '/' !in init by {
        assert forall i :: 0 <= i < |init| ==> init[i] == name[i];
      }
      LastElementOfSuffix(dir, init);
      assert LastElement(p) == LastElement(dir + init) + [last];
      assert init + [last] == name;
    } else {
      assert dir + name == dir;
    }
  }

  /** A name without directory components is its own base name. */
  lemma BaseOfPlainName(name: string)
    requires name != "" && '/' !in name
    ensures Base(name) == name
  {
    assert name[|name| - 1] in name;
    assert StripTrailingSlashes(name) == name;
    LastElementOfSuffix("", name);
    assert "" + name == name;
  }

  /** The base name of `dir/name` is `name`: directory segments are stripped. */
  lemma BaseStripsDirectories(dir: string, name: string)
    requires name != "" && '/' !in name
    ensures Base(dir + "/" + name) == name
  {
    var p := dir + "/" + name;
    assert p[|p| - 1] == name[|name| - 1] && name[|name| - 1] in name;
    assert StripTrailingSlashes(p) == p;
    var d := dir + "/";
    assert d[|d| - 1] == '/';
    LastElementOfSuffix(d, name);
    assert d + name == p;
  }
}
