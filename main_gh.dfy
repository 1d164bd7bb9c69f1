/** The downloader of the web build at the repository root (gh.go, in package
    main beside main.go, which builds only for `js && wasm`): it talks to
    the forge through a GitHub API client for the fixed repository pcm720/nhddl,
    lists its tags with "nightly" moved to the front, and extracts the NHDDL
    executable from a release archive. */
module MainGh {
  import opened Errors
  import opened Archive
  import opened Remote

  const Owner := "pcm720"
  const Repository := "nhddl"
  const Nightly := "nightly"
  const StandaloneELF := "nhddl-standalone.elf"
  const RegularELF := "nhddl.elf"

  /** A tag as the GitHub client decodes it: its name may be absent. */
  datatype RepositoryTag = RepositoryTag(name: Option<string>) {
    /** `GetName`: the name, or "" when it is absent. */
    function GetName(): string
    {
      if name.Some? then name.value else ""
    }
  }

  /** The collaborators gh.go calls: the GitHub client's two endpoints, keyed by
      their arguments, and the plain HTTP client (5-second timeout), keyed by URL. */
  datatype Client = Client(
    getReleaseByTag: (string, string, string) -> Result<Release>,
    listTags: (string, string) -> Result<seq<RepositoryTag>>,
    get: string -> Download)

  // ---------------------------------------------------------------------------
  // Tag listing

  /** The names of the tags, one per tag and in forge order. */
  function Names(tags: seq<RepositoryTag>): (r: seq<string>)
    ensures |r| == |tags|
    ensures forall i :: 0 <= i < |tags| ==> r[i] == tags[i].GetName()
  {
    seq(|tags|, i requires 0 <= i < |tags| => tags[i].GetName())
  }

  /** What the loop of getAllTags builds from the first |s| names: each "nightly"
      goes to the front, any other name goes to the end of what is there. */
  function NightlyFirst(s: seq<string>): (r: seq<string>)
    ensures |r| == |s|
  {
    if s == [] then []
    else if s[|s| - 1] == Nightly then [Nightly] + NightlyFirst(s[..|s| - 1])
    else NightlyFirst(s[..|s| - 1]) + [s[|s| - 1]]
  }

  /** The subsequence of `s` whose elements are "nightly" (nightly == true) or
      are not (nightly == false), in their order in `s`. */
  function Keep(s: seq<string>, nightly: bool): (r: seq<string>)
    ensures |r| <= |s|
    ensures forall i :: 0 <= i < |r| ==> (r[i] == Nightly) == nightly
  {
    if s == [] then []
    else Keep(s[..|s| - 1], nightly) + (if (s[|s| - 1] == Nightly) == nightly then [s[|s| - 1]] else [])
  }

  lemma {:induction false} KeepAppend(a: seq<string>, b: seq<string>, nightly: bool)
    ensures Keep(a + b, nightly) == Keep(a, nightly) + Keep(b, nightly)
    decreases |b|
  {
    if b == [] {
      assert a + b == a;
    } else {
      var b' := b[..|b| - 1];
      assert (a + b)[..|a + b| - 1] == a + b';
      KeepAppend(a, b', nightly);
    }
  }

  /** Keep of a sequence whose elements all agree with `nightly` is the whole
      sequence; of one whose elements all disagree, it is empty. */
  lemma {:induction false} KeepUniform(s: seq<string>, nightly: bool, keep: bool)
    requires forall i :: 0 <= i < |s| ==> (s[i] == Nightly) == nightly
    ensures Keep(s, keep) == if keep == nightly then s else []
  {
    if s != [] {
      KeepUniform(s[..|s| - 1], nightly, keep);
    }
  }

  /** A run of "nightly" names is unchanged by moving one more to its other end. */
  lemma NightlyRunCommutes(n: seq<string>)
    requires forall i :: 0 <= i < |n| ==> n[i] == Nightly
    ensures [Nightly] + n == n + [Nightly]
  {
    var a, b := [Nightly] + n, n + [Nightly];
    assert |a| == |b|;
    forall i | 0 <= i < |a|
      ensures a[i] == b[i]
    {
      assert a[i] == Nightly && b[i] == Nightly;
    }
  }

  /** The reordering is the stable partition of the tags: every "nightly" first,
      then the other tags in their original order. */
  lemma {:induction false} NightlyFirstIsPartition(s: seq<string>)
    ensures NightlyFirst(s) == Keep(s, true) + Keep(s, false)
  {
    if s != [] {
      var init, x := s[..|s| - 1], s[|s| - 1];
      NightlyFirstIsPartition(init);
      var n, o := Keep(init, true), Keep(init, false);
      assert NightlyFirst(init) == n + o;
      if x == Nightly {
        assert NightlyFirst(s) == [Nightly] + (n + o);
        assert Keep(s, true) == n + [Nightly] && Keep(s, false) == o + [];
        NightlyRunCommutes(n);
        assert [Nightly] + (n + o) == ([Nightly] + n) + o;
        assert (n + [Nightly]) + (o + []) == (n + [Nightly]) + o;
      } else {
        assert NightlyFirst(s) == (n + o) + [x];
        assert Keep(s, true) == n + [] && Keep(s, false) == o + [x];
        assert (n + o) + [x] == (n + []) + (o + [x]);
      }
    }
  }

  /** The reordered list holds the same tags, each as often as before. */
  lemma {:induction false} NightlyFirstIsPermutation(s: seq<string>)
    ensures multiset(NightlyFirst(s)) == multiset(s)
  {
    if s != [] {
      var init := s[..|s| - 1];
      NightlyFirstIsPermutation(init);
      assert s == init + [s[|s| - 1]];
    }
  }

  /** Without a "nightly" tag the forge order is kept exactly. */
  lemma {:induction false} NightlyFirstWithoutNightly(s: seq<string>)
    requires Nightly !in s
    ensures NightlyFirst(s) == s
  {
    if s != [] {
      var init := s[..|s| - 1];
      assert forall x :: x in init ==> x in s;
      NightlyFirstWithoutNightly(init);
    }
  }

  /** With a "nightly" tag it comes first, every "nightly" precedes every other
      tag, and both the "nightly" tags and the other tags keep their relative order. */
  lemma NightlyFirstMovesNightly(s: seq<string>)
    ensures Nightly in s ==> |NightlyFirst(s)| > 0 && NightlyFirst(s)[0] == Nightly
    ensures forall i, j :: 0 <= i < j < |s| && NightlyFirst(s)[j] == Nightly ==> NightlyFirst(s)[i] == Nightly
    ensures Keep(NightlyFirst(s), false) == Keep(s, false)
    ensures Keep(NightlyFirst(s), true) == Keep(s, true)
  {
    NightlyFirstIsPartition(s);
    var n, o := Keep(s, true), Keep(s, false);
    var r := NightlyFirst(s);
    if Nightly in s {
      NightlyFirstIsPermutation(s);
      assert Nightly in multiset(r);
      var k :| 0 <= k < |r| && r[k] == Nightly;
      assert k < |n|;
    }
    forall i, j | 0 <= i < j < |s| && r[j] == Nightly
      ensures r[i] == Nightly
    {
      assert j < |n|;
    }
    KeepAppend(n, o, false);
    KeepAppend(n, o, true);
    KeepUniform(n, true, false);
    KeepUniform(n, true, true);
    KeepUniform(o, false, false);
    KeepUniform(o, false, true);
  }

  /** The inner loop of getAllTags: put `name` in slot 0 and carry the old
      contents of slots 0..i-1 one slot to the right, through the variable `t`. */
  method ShiftIn(tagNames: array<string>, i: nat, name: string)
    requires i < tagNames.Length
    modifies tagNames
    ensures tagNames[..i + 1] == [name] + old(tagNames[..i])
    ensures forall k :: i < k < tagNames.Length ==> tagNames[k] == old(tagNames[k])
  {
    ghost var before := tagNames[..];
    var t := tagNames[0];
    tagNames[0] := name;
    var j := 1;
    while j <= i
      invariant 1 <= j <= i + 1
      invariant tagNames[0] == name
      invariant t == before[j - 1]
      invariant forall k :: 1 <= k < j ==> tagNames[k] == before[k - 1]
      invariant forall k :: j <= k < tagNames.Length ==> tagNames[k] == before[k]
    {
      tagNames[j], t := t, tagNames[j];
      j := j + 1;
    }
    assert tagNames[..i + 1] == [name] + before[..i];
  }

  /** One step of the reordering: the names so far, extended by one more. */
  lemma NightlyFirstStep(names: seq<string>, i: nat)
    requires i < |names|
    ensures NightlyFirst(names[..i + 1]) ==
      if names[i] == Nightly then [Nightly] + NightlyFirst(names[..i]) else NightlyFirst(names[..i]) + [names[i]]
  {
    assert names[..i + 1][..i] == names[..i];
  }

  /** getAllTags: list the tags of pcm720/nhddl and fill `tagNames` slot by slot;
      a "nightly" tag shifts the slots filled so far one place to the right and
      takes slot 0. */
  method GetAllTags(client: Client) returns (r: Result<seq<string>>)
    ensures client.listTags(Owner, Repository).Err? ==> r == Err(client.listTags(Owner, Repository).error)
    ensures client.listTags(Owner, Repository).Ok? ==>
      r == Ok(NightlyFirst(Names(client.listTags(Owner, Repository).value)))
  {
    var listed := client.listTags(Owner, Repository);
    if listed.Err? {
      return Err(listed.error);
    }
    var tags := listed.value;
    ghost var names := Names(tags);
    var n := |tags|;
    var tagNames := new string[n](_ => "");
    var i := 0;
    while i < n
      invariant 0 <= i <= n
      invariant tagNames[..i] == NightlyFirst(names[..i])
      invariant forall k :: i <= k < n ==> tagNames[k] == ""
    {
      var name := tags[i].GetName();
      NightlyFirstStep(names, i);
      if name == Nightly {
        ShiftIn(tagNames, i, name);
      } else {
        tagNames[i] := name;
        assert tagNames[..i + 1] == tagNames[..i] + [name];
      }
      i := i + 1;
    }
    assert names[..n] == names;
    assert tagNames[..] == tagNames[..n];
    return Ok(tagNames[..]);
  }

  // ---------------------------------------------------------------------------
  // Release resolution and executable download

  /** getReleaseURL: the download URL of the first asset of the release tagged `tag`. */
  function GetReleaseURL(client: Client, tag: string): (r: Result<string>)
    ensures client.getReleaseByTag(Owner, Repository, tag).Err? ==>
      r == Err(client.getReleaseByTag(Owner, Repository, tag).error)
    ensures client.getReleaseByTag(Owner, Repository, tag).Ok? ==>
      var assets := client.getReleaseByTag(Owner, Repository, tag).value.assets;
      (|assets| == 0 ==> r == Err(NoAssets)) && (|assets| > 0 ==> r == Ok(assets[0].browserDownloadURL))
  {
    var release := client.getReleaseByTag(Owner, Repository, tag);
    if release.Err? then Err(release.error)
    else if |release.value.assets| < 1 then Err(NoAssets)
    else Ok(release.value.assets[0].browserDownloadURL)
  }

  /** The entry downloadELF extracts: nhddl-standalone.elf or nhddl.elf. */
  function TargetName(isStandalone: bool): (name: string)
    ensures isStandalone <==> name == StandaloneELF
    ensures !isStandalone <==> name == RegularELF
  {
    if isStandalone then StandaloneELF else RegularELF
  }

  /** The record made from the matching entry: always named nhddl.elf, created
      and modified at the entry's modification time. */
  function ElfRecord(e: ZipEntry, data: seq<byte>): (r: File)
    ensures r.name == RegularELF
    ensures r.created == r.modified == e.modified && r.data == data
  {
    File(RegularELF, e.modified, e.modified, data)
  }

  /** The scan of the archive in downloadELF: the first entry named `target`
      decides the result; no such entry means "target file not found". */
  function FindTarget(entries: seq<ZipEntry>, target: string): (r: Result<File>)
    ensures r.Ok? ==> r.value.name == RegularELF && r.value.created == r.value.modified
  {
    if entries == [] then Err(TargetNotFound)
    else if entries[0].name == target then
      match entries[0].contents
      case Ok(data) => Ok(ElfRecord(entries[0], data))
      case Err(e) => Err(e)
    else FindTarget(entries[1..], target)
  }

  /** FindTarget against an independent description: with no entry named
      `target` the result is "target file not found"; otherwise the first such
      entry alone decides it (its data, renamed, or its read error). */
  lemma {:induction false} FindTargetIsFirstMatch(entries: seq<ZipEntry>, target: string)
    ensures (forall k :: 0 <= k < |entries| ==> entries[k].name != target) ==>
      FindTarget(entries, target) == Err(TargetNotFound)
    ensures forall k ::
      (0 <= k < |entries| && entries[k].name == target && forall j :: 0 <= j < k ==> entries[j].name != target)
      ==> FindTarget(entries, target) ==
          (if entries[k].contents.Ok? then Ok(ElfRecord(entries[k], entries[k].contents.value))
           else Err(entries[k].contents.error))
  {
    if entries != [] {
      FindTargetIsFirstMatch(entries[1..], target);
      forall k | 0 <= k < |entries| && entries[k].name == target &&
        (forall j :: 0 <= j < k ==> entries[j].name != target)
        ensures FindTarget(entries, target) ==
          (if entries[k].contents.Ok? then Ok(ElfRecord(entries[k], entries[k].contents.value))
           else Err(entries[k].contents.error))
      {
        if k > 0 {
          assert entries[1..][k - 1] == entries[k];
          assert forall j :: 0 <= j < k - 1 ==> entries[1..][j] == entries[j + 1];
        }
      }
    }
  }

  /** What downloadELF makes of the asset response: a transport error, then a
      status other than 200, then an unreadable archive end it; otherwise the
      archive is scanned for `target`. */
  function ElfFromDownload(d: Download, target: string): (r: Result<File>)
    ensures d.DownloadFailed? ==> r == Err(d.error)
    ensures d.Downloaded? && d.status != 200 ==> r == Err(InvalidStatus(d.status))
    ensures r.Ok? ==> d.Downloaded? && d.status == 200 && d.archive.Ok? && r.value.name == RegularELF
    ensures d.Downloaded? && d.status == 200 && d.archive.Err? ==> r == Err(d.archive.error)
    ensures d.Downloaded? && d.status == 200 && d.archive.Ok? ==> r == FindTarget(d.archive.value, target)
  {
    match d
    case DownloadFailed(e) => Err(e)
    case Downloaded(status, archive) =>
      if status != 200 then Err(InvalidStatus(status))
      else if archive.Err? then Err(archive.error)
      else FindTarget(archive.value, target)
  }

  /** downloadELF: resolve the release, GET its first asset, and return the
      archive entry named after the requested variant. */
  method DownloadELF(client: Client, tag: string, isStandalone: bool) returns (r: Result<File>)
    ensures GetReleaseURL(client, tag).Err? ==> r == Err(GetReleaseURL(client, tag).error)
    ensures GetReleaseURL(client, tag).Ok? ==>
      r == ElfFromDownload(client.get(GetReleaseURL(client, tag).value), TargetName(isStandalone))
  {
    var rel := GetReleaseURL(client, tag);
    if rel.Err? {
      return Err(rel.error);
    }
    var resp := client.get(rel.value);
    if resp.DownloadFailed? {
      return Err(resp.error);
    }
    if resp.status != 200 {
      return Err(InvalidStatus(resp.status));
    }
    if resp.archive.Err? {
      return Err(resp.archive.error);
    }
    var files := resp.archive.value;
    var targetName := RegularELF;
    if isStandalone {
      targetName := StandaloneELF;
    }
    var i := 0;
    while i < |files|
      invariant 0 <= i <= |files|
      invariant FindTarget(files, targetName) == FindTarget(files[i..], targetName)
    {
      var f := files[i];
      if f.name == targetName {
        if f.contents.Err? {
          return Err(f.contents.error);
        }
        return Ok(File(RegularELF, f.modified, f.modified, f.contents.value));
      }
      assert files[i..][1..] == files[i + 1..];
      i := i + 1;
    }
    return Err(TargetNotFound);
  }
}
