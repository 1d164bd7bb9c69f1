/** The forge client of package gh (gh/gh.go): a Fetcher for one repository,
    optionally routing asset downloads through a CORS proxy, that resolves a
    release, lists tags and extracts named entries from a release archive. */
module Gh {
  import opened Errors
  import opened Archive
  import opened Remote

  /** The repository ("owner/name") and the prefix put in front of asset URLs. */
  datatype Fetcher = Fetcher(repo: string, corsProxy: string)

  /** One element of the tag-list response. */
  datatype Tag = Tag(name: string)

  /** What `fetch.Fetch` followed by `json.NewDecoder(body).Decode` yields for a
      metadata URL: the request failed, the body was empty (the decoder returns
      io.EOF), the body was not the expected JSON, or it decoded to a value. */
  datatype Lookup<+T> =
    | TransportFailed(error: Error)
    | EmptyBody
    | Malformed(error: Error)
    | Decoded(value: T)

  /** The forge as reached through the transport, keyed by request URL. */
  datatype Endpoints = Endpoints(
    release: string -> Lookup<Release>,
    tags: string -> Lookup<seq<Tag>>,
    asset: string -> Download)

  const ApiRepos := "https://api.github.com/repos/"

  /** The release-by-tag endpoint: the API prefix, the repository, then the tag last. */
  function ReleaseEndpoint(repo: string, tag: string): (r: string)
    ensures |r| == |ApiRepos| + |repo| + 15 + |tag|
    ensures r[..|ApiRepos|] == ApiRepos && r[|ApiRepos|..|ApiRepos| + |repo|] == repo
    ensures r[|ApiRepos| + |repo|..|r| - |tag|] == "/releases/tags/" && r[|r| - |tag|..] == tag
  {
    ApiRepos + repo + "/releases/tags/" + tag
  }

  /** The tag-list endpoint: the API prefix, the repository, then "/tags". */
  function TagsEndpoint(repo: string): (r: string)
    ensures |r| == |ApiRepos| + |repo| + 5
    ensures r[..|ApiRepos|] == ApiRepos && r[|ApiRepos|..|ApiRepos| + |repo|] == repo
    ensures r[|ApiRepos| + |repo|..] == "/tags"
  {
    ApiRepos + repo + "/tags"
  }

  // ---------------------------------------------------------------------------
  // Release resolution and tag listing

  /** getReleaseURL: the first asset's download URL of the release tagged `tag`.
      The response status is not inspected; an empty body is the decoder's io.EOF. */
  function GetReleaseURL(g: Fetcher, net: Endpoints, tag: string): (r: Result<string>)
    ensures var l := net.release(ReleaseEndpoint(g.repo, tag));
      && (r.Ok? <==> l.Decoded? && |l.value.assets| > 0)
      && (r.Ok? ==> r.value == l.value.assets[0].browserDownloadURL)
      && (l.Decoded? && |l.value.assets| == 0 ==> r == Err(NoAssets))
      && (l.EmptyBody? ==> r == Err(EndOfFile))
      && (l.TransportFailed? || l.Malformed? ==> r == Err(l.error))
  {
    match net.release(ReleaseEndpoint(g.repo, tag))
    case TransportFailed(e) => Err(e)
    case EmptyBody => Err(EndOfFile)
    case Malformed(e) => Err(e)
    case Decoded(release) =>
      if |release.assets| < 1 then Err(NoAssets) else Ok(release.assets[0].browserDownloadURL)
  }

  /** GetAllTags: the tag names in forge order. An empty body is an empty list;
      any other decoding error is returned. */
  method GetAllTags(g: Fetcher, net: Endpoints) returns (r: Result<seq<string>>)
    ensures var l := net.tags(TagsEndpoint(g.repo));
      && (r.Ok? <==> l.Decoded? || l.EmptyBody?)
      && (l.EmptyBody? ==> r == Ok([]))
      && (l.TransportFailed? || l.Malformed? ==> r == Err(l.error))
      && (l.Decoded? ==>
            && |r.value| == |l.value|
            && forall i :: 0 <= i < |l.value| ==> r.value[i] == l.value[i].name)
  {
    var l := net.tags(TagsEndpoint(g.repo));
    if l.TransportFailed? || l.Malformed? {
      return Err(l.error);
    }
    var tags: seq<Tag> := if l.Decoded? then l.value else [];
    var tagNames := new string[|tags|](_ => "");
    var i := 0;
    while i < |tags|
      invariant 0 <= i <= |tags|
      invariant forall k :: 0 <= k < i ==> tagNames[k] == tags[k].name
    {
      tagNames[i] := tags[i].name;
      i := i + 1;
    }
    return Ok(tagNames[..]);
  }

  // ---------------------------------------------------------------------------
  // Archive extraction

  /** The filter of GetFiles: a file (not a directory) whose full in-archive
      path is one of the targets. */
  function Selected(e: ZipEntry, targets: seq<string>): (r: bool)
    ensures r <==> !e.isDir && exists i :: 0 <= i < |targets| && targets[i] == e.name
  {
    !e.isDir && e.name in targets
  }

  /** The record GetFiles makes from an entry: base name, and the entry's
      modification time as both creation and modification time. */
  function Record(e: ZipEntry, data: seq<byte>): (r: File)
    ensures r.name != "" && (r.name == "/" || '/' !in r.name)
    ensures r.created == r.modified == e.modified && r.data == data
  {
    File(Base(e.name), e.modified, e.modified, data)
  }

  /** The selected entries, in archive order. */
  function Selection(entries: seq<ZipEntry>, targets: seq<string>): (sel: seq<ZipEntry>)
    ensures forall k :: 0 <= k < |sel| ==> Selected(sel[k], targets)
    ensures forall e :: e in entries && Selected(e, targets) ==> e in sel
  {
    if entries == [] then []
    else if Selected(entries[0], targets) then [entries[0]] + Selection(entries[1..], targets)
    else Selection(entries[1..], targets)
  }

  /** `prefix` in front of a list of records, or the error unchanged. */
  function Prepend(prefix: seq<File>, rest: Result<seq<File>>): Result<seq<File>>
  {
    if rest.Ok? then Ok(prefix + rest.value) else rest
  }

  lemma PrependNothing(rest: Result<seq<File>>)
    ensures Prepend([], rest) == rest
  {
    if rest.Ok? {
      assert [] + rest.value == rest.value;
    }
  }

  lemma PrependTwice(a: seq<File>, b: seq<File>, rest: Result<seq<File>>)
    ensures Prepend(a, Prepend(b, rest)) == Prepend(a + b, rest)
  {
    if rest.Ok? {
      assert a + (b + rest.value) == (a + b) + rest.value;
    }
  }

  /** The loop of GetFiles: every selected entry becomes a record, in archive
      order; the first selected entry that cannot be read aborts the scan. */
  function Collect(entries: seq<ZipEntry>, targets: seq<string>): (r: Result<seq<File>>)
    ensures r.Ok? ==> |r.value| <= |entries| && forall k :: 0 <= k < |r.value| ==> r.value[k].created == r.value[k].modified
    ensures r.Err? ==> exists k :: 0 <= k < |entries| && entries[k].contents == Err(r.error)
  {
    if entries == [] then Ok([])
    else if Selected(entries[0], targets) then
      match entries[0].contents
      case Err(e) => Err(e)
      case Ok(data) => Prepend([Record(entries[0], data)], Collect(entries[1..], targets))
    else Collect(entries[1..], targets)
  }

  /** The selection of a list that starts with a selected entry. */
  lemma SelectionCons(entries: seq<ZipEntry>, targets: seq<string>)
    requires entries != [] && Selected(entries[0], targets)
    ensures var sel, selRest := Selection(entries, targets), Selection(entries[1..], targets);
      && |sel| == |selRest| + 1
      && sel[0] == entries[0]
      && forall k :: 0 <= k < |selRest| ==> sel[k + 1] == selRest[k]
  {
    assert Selection(entries, targets) == [entries[0]] + Selection(entries[1..], targets);
  }

  /** Collect succeeds exactly when every selected entry is readable. */
  lemma {:induction false} CollectOkIff(entries: seq<ZipEntry>, targets: seq<string>)
    ensures var sel := Selection(entries, targets);
      Collect(entries, targets).Ok? <==> forall k :: 0 <= k < |sel| ==> sel[k].contents.Ok?
  {
    if entries != [] {
      CollectOkIff(entries[1..], targets);
      if Selected(entries[0], targets) {
        SelectionCons(entries, targets);
        var sel, selRest := Selection(entries, targets), Selection(entries[1..], targets);
        if forall k :: 0 <= k < |selRest| ==> selRest[k].contents.Ok? {
          assert forall k :: 1 <= k < |sel| ==> sel[k] == selRest[k - 1];
        }
      }
    }
  }

  /** A successful Collect holds one record per selected entry, in archive order. */
  lemma {:induction false} CollectRecords(entries: seq<ZipEntry>, targets: seq<string>)
    ensures var sel, c := Selection(entries, targets), Collect(entries, targets);
      c.Ok? ==>
        && |c.value| == |sel|
        && forall k :: 0 <= k < |sel| ==> sel[k].contents.Ok? && c.value[k] == Record(sel[k], sel[k].contents.value)
  {
    if entries != [] {
      CollectRecords(entries[1..], targets);
      var c, cRest := Collect(entries, targets), Collect(entries[1..], targets);
      if Selected(entries[0], targets) && c.Ok? {
        SelectionCons(entries, targets);
        var sel, selRest := Selection(entries, targets), Selection(entries[1..], targets);
        var head := Record(entries[0], entries[0].contents.value);
        assert c.value == [head] + cRest.value;
        forall k | 0 <= k < |sel|
          ensures sel[k].contents.Ok? && c.value[k] == Record(sel[k], sel[k].contents.value)
        {
          if k > 0 {
            assert sel[k] == selRest[k - 1] && c.value[k] == cRest.value[k - 1];
          }
        }
      }
    }
  }

  /** Entry k of `sel` is the first unreadable one, and `e` is its error. */
  predicate FirstErrorAt(sel: seq<ZipEntry>, k: int, e: Error)
  {
    && 0 <= k < |sel|
    && sel[k].contents == Err(e)
    && forall j :: 0 <= j < k ==> sel[j].contents.Ok?
  }

  /** A failed Collect reports the error of the first unreadable selected entry. */
  lemma {:induction false} CollectFirstError(entries: seq<ZipEntry>, targets: seq<string>)
    ensures var sel, c := Selection(entries, targets), Collect(entries, targets);
      c.Err? ==> exists k :: FirstErrorAt(sel, k, c.error)
  {
    if entries != [] {
      CollectFirstError(entries[1..], targets);
      var c, cRest := Collect(entries, targets), Collect(entries[1..], targets);
      if Selected(entries[0], targets) && c.Err? {
        SelectionCons(entries, targets);
        var sel, selRest := Selection(entries, targets), Selection(entries[1..], targets);
        if entries[0].contents.Err? {
          assert FirstErrorAt(sel, 0, c.error);
        } else {
          assert c == cRest;
          var k :| FirstErrorAt(selRest, k, cRest.error);
          assert forall j :: 1 <= j < k + 1 ==> sel[j] == selRest[j - 1];
          assert FirstErrorAt(sel, k + 1, c.error);
        }
      }
    }
  }

  /** Collect against an independent description: it succeeds exactly when every
      selected entry is readable, and then yields one record per selected entry,
      in archive order; otherwise it fails with the error of the first selected
      entry that cannot be read, and yields nothing. */
  lemma CollectIsSelection(entries: seq<ZipEntry>, targets: seq<string>)
    ensures var sel := Selection(entries, targets);
      Collect(entries, targets).Ok? <==> forall k :: 0 <= k < |sel| ==> sel[k].contents.Ok?
    ensures var sel, c := Selection(entries, targets), Collect(entries, targets);
      c.Ok? ==>
        && |c.value| == |sel|
        && forall k :: 0 <= k < |sel| ==> c.value[k] == Record(sel[k], sel[k].contents.value)
    ensures var sel, c := Selection(entries, targets), Collect(entries, targets);
      c.Err? ==> exists k :: FirstErrorAt(sel, k, c.error)
  {
    CollectOkIff(entries, targets);
    CollectRecords(entries, targets);
    CollectFirstError(entries, targets);
  }

  /** The outcome of the scan: no selected entry at all is "no files found",
      never an empty success. */
  function Extract(entries: seq<ZipEntry>, targets: seq<string>): (r: Result<seq<File>>)
    ensures r.Ok? ==> |r.value| > 0
  {
    var c := Collect(entries, targets);
    if c.Err? then c else if |c.value| == 0 then Err(NoFilesFound) else c
  }

  /** Extract in terms of the selection: it yields exactly the records of the
      selected entries when there is one and all are readable; it reports "no
      files found" when nothing is selected. */
  lemma ExtractIsSelection(entries: seq<ZipEntry>, targets: seq<string>)
    ensures var sel := Selection(entries, targets);
      |sel| == 0 ==> Extract(entries, targets) == Err(NoFilesFound)
    ensures var sel := Selection(entries, targets);
      Extract(entries, targets).Ok? <==> |sel| > 0 && forall k :: 0 <= k < |sel| ==> sel[k].contents.Ok?
    ensures var sel, r := Selection(entries, targets), Extract(entries, targets);
      r.Ok? ==>
        && |r.value| == |sel|
        && forall k :: 0 <= k < |sel| ==> r.value[k] == Record(sel[k], sel[k].contents.value)
  {
    CollectIsSelection(entries, targets);
  }

  /** An archive holding a directory `dir/`, a file `name` inside it and another
      file beside it (say apps/, apps/nhddl.elf and nhddl-standalone.elf): asking
      for the exact path of the file inside yields one record, named by its base
      name, stamped with its time and holding its bytes; the directory entry and
      the other file are skipped. */
  lemma ExtractScenario(dir: string, name: string, other: string, t1: Instant, t2: Instant, a: seq<byte>, b: seq<byte>)
    requires name != "" && '/' !in name
    requires other != dir + "/" + name
    ensures var path := dir + "/" + name;
      Extract([ZipEntry(dir + "/", true, t1, Ok([])), ZipEntry(path, false, t1, Ok(a)), ZipEntry(other, false, t2, Ok(b))], [path])
      == Ok([File(name, t1, t1, a)])
  {
    var path := dir + "/" + name;
    var e0, e1, e2 := ZipEntry(dir + "/", true, t1, Ok([])), ZipEntry(path, false, t1, Ok(a)), ZipEntry(other, false, t2, Ok(b));
    var targets := [path];
    BaseStripsDirectories(dir, name);
    assert !Selected(e2, targets) && Selected(e1, targets) && !Selected(e0, targets);
    assert [e0, e1, e2][1..] == [e1, e2] && [e1, e2][1..] == [e2] && [e2][1..] == [];
    assert Collect([e2], targets) == Ok([]);
    var f := File(name, t1, t1, a);
    assert Record(e1, a) == f;
    assert [f] + [] == [f];
    assert Collect([e1, e2], targets) == Prepend([f], Ok([])) == Ok([f]);
  }

  /** What GetFiles makes of the asset response: a transport error, then a status
      other than 200 (before any extraction), then an unreadable archive end it;
      otherwise the selected entries are extracted. */
  function FilesFromDownload(d: Download, targets: seq<string>): (r: Result<seq<File>>)
    ensures d.DownloadFailed? ==> r == Err(d.error)
    ensures d.Downloaded? && d.status != 200 ==> r == Err(InvalidStatus(d.status))
    ensures r.Ok? ==> d.Downloaded? && d.status == 200 && d.archive.Ok? && |r.value| > 0
    ensures d.Downloaded? && d.status == 200 && d.archive.Err? ==> r == Err(d.archive.error)
    ensures d.Downloaded? && d.status == 200 && d.archive.Ok? ==> r == Extract(d.archive.value, targets)
  {
    match d
    case DownloadFailed(e) => Err(e)
    case Downloaded(status, archive) =>
      if status != 200 then Err(InvalidStatus(status))
      else if archive.Err? then Err(archive.error)
      else Extract(archive.value, targets)
  }

  /** GetFiles: resolve the release, download its first asset through the CORS
      proxy (the proxy string is put verbatim in front of the URL), and return the
      records of the archive entries named in `targetFiles`. */
  method GetFiles(g: Fetcher, net: Endpoints, tag: string, targetFiles: seq<string>) returns (r: Result<seq<File>>)
    ensures GetReleaseURL(g, net, tag).Err? ==> r == Err(GetReleaseURL(g, net, tag).error)
    ensures GetReleaseURL(g, net, tag).Ok? ==>
      r == FilesFromDownload(net.asset(g.corsProxy + GetReleaseURL(g, net, tag).value), targetFiles)
    ensures g.corsProxy == "" && GetReleaseURL(g, net, tag).Ok? ==>
      r == FilesFromDownload(net.asset(GetReleaseURL(g, net, tag).value), targetFiles)
  {
    var rel := GetReleaseURL(g, net, tag);
    if rel.Err? {
      return Err(rel.error);
    }
    var url := g.corsProxy + rel.value;
    assert g.corsProxy == "" ==> url == rel.value;
    var resp := net.asset(url);
    if resp.DownloadFailed? {
      return Err(resp.error);
    }
    if resp.status != 200 {
      return Err(InvalidStatus(resp.status));
    }
    if resp.archive.Err? {
      return Err(resp.archive.error);
    }
    var files := resp.archive.value;
    var out: seq<File> := [];
    var i := 0;
    PrependNothing(Collect(files, targetFiles));
    while i < |files|
      invariant 0 <= i <= |files|
      invariant Collect(files, targetFiles) == Prepend(out, Collect(files[i..], targetFiles))
    {
      var f := files[i];
      assert files[i..][1..] == files[i + 1..];
      if !f.isDir && f.name in targetFiles {
        if f.contents.Err? {
          return Err(f.contents.error);
        }
        PrependTwice(out, [File(Base(f.name), f.modified, f.modified, f.contents.value)], Collect(files[i + 1..], targetFiles));
        out := out + [File(Base(f.name), f.modified, f.modified, f.contents.value)];
      }
      i := i + 1;
    }
    assert files[i..] == [];
    assert out + [] == out;
    if |out| == 0 {
      return Err(NoFilesFound);
    }
    return Ok(out);
  }
}
