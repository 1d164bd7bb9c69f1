/** The nhddl.yaml configuration file written by the PSU builder
    (cmd/nhddl-psu/nhddl.go): a hand-written serializer that emits one entry
    per setting that differs from its default, values copied verbatim. */
module NhddlPsu {
  import opened Errors

  /** The device modes; the empty mode (all devices) is the default and is not written. */
  const ModeAll := ""
  const ModeATA := "ata"
  const ModeUSB := "usb"
  const ModeMX4SIO := "mx4sio"
  const ModeUDPBD := "udpbd"
  const ModeILink := "ilink"

  /** The video modes; only 480p is written. */
  const VModeDefault := "default"
  const VMode480p := "480p"

  datatype NHDDLConfig = NHDDLConfig(vMode: string, udpbdIP: string, mode: string)

  /** The configuration for which no file is needed. */
  const EmptyConfig := NHDDLConfig(VModeDefault, "", ModeAll)

  /** A "480p:" line exactly when the video mode is "480p". */
  function VideoModeEntry(c: NHDDLConfig): (r: string)
    ensures r != "" <==> c.vMode == VMode480p
    ensures r != "" ==> r[|r| - 1] == '\n' && forall i :: 0 <= i < |r| - 1 ==> r[i] != '\n'
  {
    if c.vMode == VMode480p then "480p:\n" else ""
  }

  /** A "mode: " line holding the mode verbatim exactly when a device mode is set. */
  function ModeEntry(c: NHDDLConfig): (r: string)
    ensures r != "" <==> c.mode != ModeAll
    ensures r != "" ==> StartsWith(r, "mode: ") && r[|r| - 1] == '\n' && r[6..|r| - 1] == c.mode
  {
    if c.mode != ModeAll then "mode: " + c.mode + "\n" else ""
  }

  /** The last entry has no line terminator: "udpbd_ip: " and the IP verbatim,
      exactly when an IP is set. */
  function UdpbdEntry(c: NHDDLConfig): (r: string)
    ensures r != "" <==> c.udpbdIP != ""
    ensures r != "" ==> StartsWith(r, "udpbd_ip: ") && r[10..] == c.udpbdIP
  {
    if c.udpbdIP != "" then "udpbd_ip: " + c.udpbdIP else ""
  }

  /** The file as a value: the entries in the fixed order video mode, mode, IP.
      It is empty exactly for the defaults: a video mode other than "480p" (any
      other value, "default" included, writes nothing), no mode and no IP. */
  function Yaml(c: NHDDLConfig): (r: string)
    ensures r == "" <==> c.vMode != VMode480p && c.mode == ModeAll && c.udpbdIP == ""
  {
    VideoModeEntry(c) + ModeEntry(c) + UdpbdEntry(c)
  }

  // ---------------------------------------------------------------------------
  // Reading the file back

  /** The settings a file determines: whether 480p is on, the mode, the IP. */
  datatype Settings = Settings(use480p: bool, mode: string, udpbdIP: string)

  predicate StartsWith(s: string, prefix: string)
  {
    |prefix| <= |s| && s[..|prefix|] == prefix
  }

  /** The index of the first line terminator of `s`, if there is one. */
  function FindNewline(s: string): (r: Option<nat>)
    ensures r.Some? ==> r.value < |s| && s[r.value] == '\n' && forall i :: 0 <= i < r.value ==> s[i] != '\n'
    ensures r.None? ==> forall i :: 0 <= i < |s| ==> s[i] != '\n'
  {
    if s == [] then None
    else if s[0] == '\n' then Some(0)
    else match FindNewline(s[1..])
      case None => None
      case Some(k) => Some(k + 1)
  }

  function ParseUdpbd(s: string): Option<string>
  {
    if s == "" then Some("")
    else if StartsWith(s, "udpbd_ip: ") && |s| > 10 then Some(s[10..])
    else None
  }

  /** The part after the optional "480p:" line: an optional "mode: " line, then
      an optional "udpbd_ip: " entry running to the end. */
  function ParseEntries(t: string): Option<(string, string)>
  {
    if StartsWith(t, "mode: ") then
      var line := t[6..];
      match FindNewline(line)
      case None => None
      case Some(k) =>
        match ParseUdpbd(line[k + 1..])
        case None => None
        case Some(ip) => Some((line[..k], ip))
    else
      match ParseUdpbd(t)
      case None => None
      case Some(ip) => Some(("", ip))
  }

  /** A reader for the files Yaml writes. */
  function ParseYaml(s: string): Option<Settings>
  {
    var use480p := StartsWith(s, "480p:\n");
    match ParseEntries(if use480p then s[6..] else s)
    case None => None
    case Some(entries) => Some(Settings(use480p, entries.0, entries.1))
  }

  lemma NewlineAfter(m: string, rest: string)
    requires '\n' !in m
    ensures FindNewline(m + "\n" + rest) == Some(|m|)
  {
    var s := m + "\n" + rest;
    assert s[|m|] == '\n';
    assert forall i :: 0 <= i < |m| ==> s[i] == m[i];
  }

  /** The "480p:" line is present exactly when the video mode is "480p", and the
      other entries follow it. */
  lemma VideoModeLine(c: NHDDLConfig)
    ensures var s := Yaml(c);
      && (StartsWith(s, "480p:\n") <==> c.vMode == VMode480p)
      && (if StartsWith(s, "480p:\n") then s[6..] else s) == ModeEntry(c) + UdpbdEntry(c)
  {
    var s, rest := Yaml(c), ModeEntry(c) + UdpbdEntry(c);
    if c.vMode == VMode480p {
      assert s == "480p:\n" + rest;
      assert s[..6] == "480p:\n" && s[6..] == rest;
    } else {
      assert s == rest;
      if |s| >= 6 {
        assert s[0] == 'm' || s[0] == 'u';
        assert s[..6][0] == s[0];
      }
    }
  }

  lemma EntriesRoundTrip(c: NHDDLConfig)
    requires '\n' !in c.mode
    ensures ParseEntries(ModeEntry(c) + UdpbdEntry(c)) == Some((c.mode, c.udpbdIP))
  {
    var u := UdpbdEntry(c);
    assert ParseUdpbd(u) == Some(c.udpbdIP) by {
      if c.udpbdIP != "" {
        assert u[..10] == "udpbd_ip: " && u[10..] == c.udpbdIP;
      }
    }
    var t := ModeEntry(c) + u;
    if c.mode != ModeAll {
      assert t == "mode: " + (c.mode + "\n" + u);
      assert t[..6] == "mode: ";
      var line := t[6..];
      assert line == c.mode + "\n" + u;
      NewlineAfter(c.mode, u);
      assert line[|c.mode| + 1..] == u && line[..|c.mode|] == c.mode;
    } else {
      assert t == u;
      if |u| >= 6 {
        assert u[0] == 'u' && u[..6][0] == u[0];
      }
    }
  }

  /** The file determines the settings: reading it back gives whether the video
      mode is "480p" (any other value, "default" included, writes nothing), the
      mode ("" when absent) and the IP ("" when absent), provided the mode holds
      no line terminator. */
  lemma YamlRoundTrip(c: NHDDLConfig)
    requires '\n' !in c.mode
    ensures ParseYaml(Yaml(c)) == Some(Settings(c.vMode == VMode480p, c.mode, c.udpbdIP))
  {
    VideoModeLine(c);
    EntriesRoundTrip(c);
  }

  /** The empty configuration, the one for which no file is written, has the
      default video mode, no device mode and no IP; its file is empty, and an
      empty file reads back as exactly those settings. */
  lemma EmptyConfigWritesNothing()
    ensures EmptyConfig.vMode != VMode480p && EmptyConfig.mode == ModeAll && EmptyConfig.udpbdIP == ""
    ensures Yaml(EmptyConfig) == ""
    ensures ParseYaml("") == Some(Settings(false, ModeAll, ""))
  {
    assert !StartsWith("", "480p:\n") && !StartsWith("", "mode: ");
  }

  /** Values are written verbatim, with no escaping: a mode that embeds a line
      terminator and an IP entry writes the same file as a different configuration. */
  lemma YamlIsNotEscaped(vMode: string, mode: string, ip: string)
    requires mode != ""
    ensures var injected := NHDDLConfig(vMode, "", mode + "\nudpbd_ip: " + ip);
      var plain := NHDDLConfig(vMode, ip + "\n", mode);
      injected != plain && Yaml(injected) == Yaml(plain)
  {
    var injected := NHDDLConfig(vMode, "", mode + "\nudpbd_ip: " + ip);
    var plain := NHDDLConfig(vMode, ip + "\n", mode);
    assert injected.udpbdIP != plain.udpbdIP;
    var key, nl := "udpbd_ip: ", "\n";
    assert "\nudpbd_ip: " == nl + key;
    var m1, m2 := ModeEntry(injected), ModeEntry(plain);
    assert m1 == "mode: " + mode + nl + key + ip + nl;
    assert m2 + UdpbdEntry(plain) == "mode: " + mode + nl + key + ip + nl;
    assert Yaml(injected) == VideoModeEntry(injected) + m1 + "";
    assert Yaml(plain) == VideoModeEntry(injected) + (m2 + UdpbdEntry(plain));
  }

  /** getYAML: append each entry whose setting differs from its default to a builder. */
  method GetYAML(c: NHDDLConfig) returns (s: string)
    ensures s == Yaml(c)
    ensures '\n' !in c.mode ==> ParseYaml(s) == Some(Settings(c.vMode == VMode480p, c.mode, c.udpbdIP))
    ensures c == EmptyConfig ==> s == ""
  {
    var b := "";
    if c.vMode == VMode480p {
      b := b + "480p:\n";
    }
    assert b == VideoModeEntry(c);
    if c.mode != ModeAll {
      b := b + ("mode: " + c.mode + "\n");
    }
    assert b == VideoModeEntry(c) + ModeEntry(c);
    if c.udpbdIP != "" {
      b := b + ("udpbd_ip: " + c.udpbdIP);
    }
    assert b == Yaml(c);
    s := b;
    if '\n' !in c.mode {
      YamlRoundTrip(c);
    }
  }
}
