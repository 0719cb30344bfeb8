/**
 * `get_peer_public_key` (backend/routes/peers.py): the public key of a peer,
 * looked up in three places in turn — the peer's `publickey-<name>` file, the
 * first `PublicKey` line of `<name>.conf`, and the peer's section of the server
 * configuration `wg0.conf`. Any exception on the way makes the answer `None`.
 */
module PeerLookup {
  import opened Wrappers
  import opened Text
  import opened Store
  import WireGuardService
  import ConfigService

  /** The outcome of one source: a key, nothing there, or an exception. */
  datatype Lookup = Found(key: string) | Missing | Raised

  /** The label every key line starts with. */
  const KeyLabel: string := "PublicKey"

  /**
   * `line.split('=')[1].strip()`: the text between the first and the second
   * `=`, stripped; a line without `=` raises IndexError.
   */
  function KeyField(line: string): (r: Lookup)
    ensures r != Missing
    ensures r.Raised? <==> '=' !in line
    ensures r.Found? ==> Strip(r.key) == r.key
  {
    var parts := Split(line, '=');
    SplitSecondPiece(line, '=');
    if |parts| < 2 then Raised
    else
      StripNoSpaceEnds(Strip(parts[1]));
      Found(Strip(parts[1]))
  }

  /**
   * `KeyField` on a `PublicKey = <key>` line: a base64 key loses its trailing
   * `=` padding, because the second `=` ends the field.
   */
  lemma KeyFieldDropsPadding(body: string, pad: string)
    requires '=' !in body && '\n' !in body
    requires body == [] || (!IsSpace(body[0]) && !IsSpace(body[|body| - 1]))
    requires forall i :: 0 <= i < |pad| ==> pad[i] == '='
    ensures KeyField(KeyLabel + " = " + body + pad + "\n") == Found(body)
  {
    var line := KeyLabel + " = " + body + pad + "\n";
    var rest := " " + body + pad + "\n";
    assert line == "PublicKey " + ['='] + rest;
    SplitFirstPieces("PublicKey ", rest, '=');
    PaddedValue(body, pad);
  }

  /** After the first `=`, the field is the body with its padding and newline cut off. */
  lemma PaddedValue(body: string, pad: string)
    requires '=' !in body && '\n' !in body
    requires body == [] || (!IsSpace(body[0]) && !IsSpace(body[|body| - 1]))
    requires forall i :: 0 <= i < |pad| ==> pad[i] == '='
    ensures |Split(" " + body + pad + "\n", '=')| >= 1
    ensures Strip(Split(" " + body + pad + "\n", '=')[0]) == body
  {
    var rest := " " + body + pad + "\n";
    if pad == [] {
      assert rest == " " + body + "\n";
      assert '=' !in rest;
      SplitNoSep(rest, '=');
      StripAround(" ", body, "\n");
    } else {
      assert rest == " " + body + ['='] + (pad[1..] + "\n");
      assert '=' !in " " + body;
      SplitFirstPieces(" " + body, pad[1..] + "\n", '=');
      assert " " + body == " " + body + [];
      StripAround(" ", body, []);
    }
  }

  /** Option 2's loop over `<name>.conf`: the first line whose stripped form starts with `PublicKey`. */
  function ScanConf(lines: seq<string>): (r: Lookup)
    ensures r.Found? ==> Strip(r.key) == r.key
  {
    if lines == [] then Missing
    else if StartsWith(Strip(lines[0]), KeyLabel) then KeyField(lines[0])
    else
      ScanConf(lines[1..])
  }

  /**
   * Option 3's loop over the lines of wg0.conf: a line holding `# <name>`
   * opens the peer's section; inside it the first `PublicKey` line answers, and
   * a `[Peer]` line ends the search.
   */
  function ScanServer(lines: seq<string>, name: string, inSection: bool): (r: Lookup)
    ensures r.Found? ==> Strip(r.key) == r.key
  {
    if lines == [] then Missing
    else
      var line := lines[0];
      if Contains(line, "# " + name) then ScanServer(lines[1..], name, true)
      else if inSection && StartsWith(Strip(line), KeyLabel) then KeyField(line)
      else if inSection && StartsWith(Strip(line), "[Peer]") then Missing
      else ScanServer(lines[1..], name, inSection)
  }

  /** Reading a whole file: `None` inside `Some` when the path exists but cannot be opened. */
  function FileLines(fs: FileStore, p: Path): Option<Option<seq<string>>>
    reads fs
  {
    if !fs.Exists(p) then None
    else if p in fs.files then Some(Some(ReadLines(fs.files[p])))
    else Some(None)
  }

  /** Option 1: `publickey-<name>` in the peer's directory, stripped. */
  function KeyFileLookup(fs: FileStore, name: string): (r: Lookup)
    reads fs
    ensures r.Found? ==> Strip(r.key) == r.key
  {
    var p := ConfigService.PublicKeyPath(name);
    if !fs.Exists(p) then Missing
    else if p in fs.files then
      StripNoSpaceEnds(Strip(fs.files[p]));
      Found(Strip(fs.files[p]))
    else Raised
  }

  /** Option 2: the downloadable `<name>.conf`. */
  function ConfLookup(fs: FileStore, name: string): (r: Lookup)
    reads fs
    ensures r.Found? ==> Strip(r.key) == r.key
  {
    match FileLines(fs, ConfigService.DownloadPath(name))
    case None => Missing
    case Some(None) => Raised
    case Some(Some(lines)) => ScanConf(lines)
  }

  /** Option 3: the server configuration. */
  function ServerLookup(fs: FileStore, name: string): (r: Lookup)
    reads fs
    ensures r.Found? ==> Strip(r.key) == r.key
  {
    match FileLines(fs, WireGuardService.ServerConfPath)
    case None => Missing
    case Some(None) => Raised
    case Some(Some(lines)) => ScanServer(lines, name, false)
  }

  /**
   * `get_peer_public_key`: the first source that answers decides; an
   * exception gives `None`, and so does finding nothing anywhere.
   */
  function PeerPublicKey(fs: FileStore, name: string): (r: Option<string>)
    reads fs
    ensures ConfigService.PublicKeyPath(name) in fs.files ==>
              r == Some(Strip(fs.files[ConfigService.PublicKeyPath(name)]))
    ensures KeyFileLookup(fs, name).Missing? && ConfLookup(fs, name).Missing? && ServerLookup(fs, name).Missing? ==>
              r.None?
    ensures r.Some? ==> r.value == Strip(r.value)
  {
    match KeyFileLookup(fs, name)
    case Found(k) => Some(k)
    case Raised => None
    case Missing =>
      match ConfLookup(fs, name)
      case Found(k) => Some(k)
      case Raised => None
      case Missing =>
        match ServerLookup(fs, name)
        case Found(k) => Some(k)
        case _ => None
  }

  /**
   * A line that starts with a non-space character and differs from `PublicKey`
   * at some position `k` before the label's end is not a key line.
   */
  lemma NotKeyLine(line: string, k: nat)
    requires |line| > 0 && !IsSpace(line[0])
    requires k < |KeyLabel| && k < |line| && line[k] != KeyLabel[k]
    ensures !StartsWith(Strip(line), KeyLabel)
  {
    StripKeepsPrefix(line[..1], line[1..]);
    assert line[..1] + line[1..] == line;
    var t := Strip(line);
    var r := RStrip(line);
    assert r[0] == line[0];
    assert LStrip(r) == r;
    if |KeyLabel| <= |t| {
      assert t[k] == line[k];
    }
  }

  /** A key line: its stripped form starts with `PublicKey`. */
  lemma KeyLineIsKeyLine(key: string)
    ensures StartsWith(Strip(KeyLabel + " = " + key + "\n"), KeyLabel)
  {
    StripKeepsPrefix(KeyLabel, " = " + key + "\n");
    assert KeyLabel + " = " + key + "\n" == KeyLabel + (" = " + key + "\n");
  }

  /** The lines of the downloadable configuration, as a file iteration yields them. */
  lemma DownloadConfReadLines(ip: string, privateKey: string, serverKey: string, presharedKey: string)
    requires '\n' !in ip && '\n' !in privateKey && '\n' !in serverKey && '\n' !in presharedKey
    ensures var d := ConfigService.DownloadConfLines(ip, privateKey, serverKey, presharedKey);
            ReadLines(ConfigService.DownloadConf(ip, privateKey, serverKey, presharedKey)) == WithNewlines(d[..|d| - 1])
  {
    ConfigService.DownloadConfSplit(ip, privateKey, serverKey, presharedKey);
  }

  /** None of the seven lines before the `[Peer]` key line of the downloadable configuration is a key line. */
  lemma DownloadConfHead(ip: string, privateKey: string, serverKey: string, presharedKey: string)
    ensures var d := ConfigService.DownloadConfLines(ip, privateKey, serverKey, presharedKey);
            var lines := WithNewlines(d[..|d| - 1]);
            forall i :: 0 <= i < 7 ==> !StartsWith(Strip(lines[i]), KeyLabel)
  {
    var d := ConfigService.DownloadConfLines(ip, privateKey, serverKey, presharedKey);
    var lines := WithNewlines(d[..|d| - 1]);
    forall i | 0 <= i < 7
      ensures !StartsWith(Strip(lines[i]), KeyLabel)
    {
      if i == 5 {
        assert lines[5] == "\n";
        RStripSpaces("\n");
      } else if i == 2 {
        assert lines[2][0] == 'P' && lines[2][1] == 'r';
        NotKeyLine(lines[2], 1);
      } else {
        assert lines[i][0] in "[ALD";
        NotKeyLine(lines[i], 0);
      }
    }
  }

  /** Lines that are not key lines are passed over. */
  lemma {:induction false} ScanConfSkips(pre: seq<string>, rest: seq<string>)
    requires forall i :: 0 <= i < |pre| ==> !StartsWith(Strip(pre[i]), KeyLabel)
    ensures ScanConf(pre + rest) == ScanConf(rest)
  {
    if pre == [] {
      assert pre + rest == rest;
    } else {
      assert (pre + rest)[0] == pre[0] && (pre + rest)[1..] == pre[1..] + rest;
      assert forall i :: 0 <= i < |pre[1..]| ==> pre[1..][i] == pre[i + 1];
      ScanConfSkips(pre[1..], rest);
    }
  }

  /** The eighth line of the downloadable configuration carries the server key. */
  lemma DownloadConfKeyLine(ip: string, privateKey: string, serverKey: string, presharedKey: string)
    ensures var d := ConfigService.DownloadConfLines(ip, privateKey, serverKey, presharedKey);
            WithNewlines(d[..|d| - 1])[7] == KeyLabel + " = " + serverKey + "\n"
  {
    var d := ConfigService.DownloadConfLines(ip, privateKey, serverKey, presharedKey);
    assert d[7] == "PublicKey = " + serverKey;
    assert KeyLabel + " = " == "PublicKey = ";
  }

  /**
   * In practice option 2 answers the SERVER's key: the first `PublicKey` line
   * of the downloadable `<name>.conf` is the one in its `[Peer]` section, which
   * holds the key of the server, not of the peer.
   */
  lemma ConfLookupFindsServerKey(ip: string, privateKey: string, serverKey: string, presharedKey: string)
    requires '\n' !in ip && '\n' !in privateKey && '\n' !in serverKey && '\n' !in presharedKey
    ensures ScanConf(ReadLines(ConfigService.DownloadConf(ip, privateKey, serverKey, presharedKey)))
      == KeyField(KeyLabel + " = " + serverKey + "\n")
  {
    var d := ConfigService.DownloadConfLines(ip, privateKey, serverKey, presharedKey);
    var lines := WithNewlines(d[..|d| - 1]);
    DownloadConfReadLines(ip, privateKey, serverKey, presharedKey);
    DownloadConfHead(ip, privateKey, serverKey, presharedKey);
    DownloadConfKeyLine(ip, privateKey, serverKey, presharedKey);
    var head, tail := lines[..7], lines[7..];
    assert lines == head + tail;
    assert forall i :: 0 <= i < |head| ==> head[i] == lines[i];
    ScanConfSkips(head, tail);
    assert tail[0] == lines[7];
    KeyLineIsKeyLine(serverKey);
  }

  /** While no line names the peer, the scan of wg0.conf moves on. */
  lemma {:induction false} ScanServerSkips(pre: seq<string>, rest: seq<string>, name: string)
    requires forall i :: 0 <= i < |pre| ==> !Contains(pre[i], "# " + name)
    ensures ScanServer(pre + rest, name, false) == ScanServer(rest, name, false)
  {
    if pre == [] {
      assert pre + rest == rest;
    } else {
      assert (pre + rest)[0] == pre[0] && (pre + rest)[1..] == pre[1..] + rest;
      assert forall i :: 0 <= i < |pre[1..]| ==> pre[1..][i] == pre[i + 1];
      ScanServerSkips(pre[1..], rest, name);
    }
  }

  /** The comment line of a peer block opens the section of every name it starts with. */
  lemma OpenerOpens(name: string, suffix: string)
    ensures Contains("# " + name + suffix + "\n", "# " + name)
  {
    var opener := "# " + name + suffix + "\n";
    var tag := "# " + name;
    assert opener[0..|tag|] == tag;
    assert OccursAt(opener, tag, 0);
  }

  /** A key line without `#` does not reopen a section. */
  lemma KeyLineNoTag(name: string, key: string)
    requires '#' !in key
    ensures !Contains(KeyLabel + " = " + key + "\n", "# " + name)
  {
    var keyLine := KeyLabel + " = " + key + "\n";
    assert '#' !in keyLine;
    assert ("# " + name)[0] == '#';
    ContainsChar(keyLine, "# " + name, '#');
  }

  /**
   * Option 3 answers the key on the line after the first line holding
   * `# <name>` — matched as a substring, so the section of a peer whose name
   * merely starts with `name` (`# alice2` for `alice`) answers just as well.
   */
  lemma ScanServerFindsKey(pre: seq<string>, name: string, suffix: string, key: string, post: seq<string>)
    requires forall i :: 0 <= i < |pre| ==> !Contains(pre[i], "# " + name)
    requires '#' !in key
    ensures ScanServer(pre + ["# " + name + suffix + "\n", KeyLabel + " = " + key + "\n"] + post, name, false)
      == KeyField(KeyLabel + " = " + key + "\n")
  {
    var opener := "# " + name + suffix + "\n";
    var keyLine := KeyLabel + " = " + key + "\n";
    var rest := [opener, keyLine] + post;
    assert pre + [opener, keyLine] + post == pre + rest;
    ScanServerSkips(pre, rest, name);
    OpenerOpens(name, suffix);
    ScanServerAtOpener(opener, keyLine, post, name);
    KeyLineNoTag(name, key);
    KeyLineIsKeyLine(key);
    ScanServerAtKey(keyLine, post, name);
  }

  /** The opener line opens the section. */
  lemma ScanServerAtOpener(opener: string, keyLine: string, post: seq<string>, name: string)
    requires Contains(opener, "# " + name)
    ensures ScanServer([opener, keyLine] + post, name, false) == ScanServer([keyLine] + post, name, true)
  {
    var lines := [opener, keyLine] + post;
    assert lines[0] == opener && lines[1..] == [keyLine] + post;
  }

  /** Inside the section, a key line answers. */
  lemma ScanServerAtKey(keyLine: string, post: seq<string>, name: string)
    requires !Contains(keyLine, "# " + name) && StartsWith(Strip(keyLine), KeyLabel)
    ensures ScanServer([keyLine] + post, name, true) == KeyField(keyLine)
  {
    assert ([keyLine] + post)[0] == keyLine;
  }

  /**
   * Option 3 gives up at the first `[Peer]` line of the peer's section: when
   * the lines after the opener hold neither a key line nor another opener
   * before it, the answer is `Missing`, whatever follows, a `PublicKey` line
   * of the next peer included.
   */
  lemma ScanServerStopsAtPeer(pre: seq<string>, opener: string, mid: seq<string>, peerLine: string,
                              post: seq<string>, name: string)
    requires forall i :: 0 <= i < |pre| ==> !Contains(pre[i], "# " + name)
    requires Contains(opener, "# " + name)
    requires forall i :: 0 <= i < |mid| ==> PassedOver(mid[i], name)
    requires !Contains(peerLine, "# " + name) && StartsWith(Strip(peerLine), "[Peer]")
    ensures ScanServer(pre + ([opener] + (mid + ([peerLine] + post))), name, false) == Missing
  {
    ScanServerSkips(pre, [opener] + (mid + ([peerLine] + post)), name);
    ScanServerInSection(opener, mid, peerLine, post, name);
  }

  /** From the opener on: past the passed-over lines to the `[Peer]` line. */
  lemma ScanServerInSection(opener: string, mid: seq<string>, peerLine: string, post: seq<string>, name: string)
    requires Contains(opener, "# " + name)
    requires forall i :: 0 <= i < |mid| ==> PassedOver(mid[i], name)
    requires !Contains(peerLine, "# " + name) && StartsWith(Strip(peerLine), "[Peer]")
    ensures ScanServer([opener] + (mid + ([peerLine] + post)), name, false) == Missing
  {
    ScanServerOpens(opener, mid + ([peerLine] + post), name);
    ScanServerPassesOver(mid, [peerLine] + post, name);
    ScanServerAtPeer(peerLine, post, name);
  }

  /** A line naming the peer opens the section. */
  lemma ScanServerOpens(opener: string, tail: seq<string>, name: string)
    requires Contains(opener, "# " + name)
    ensures ScanServer([opener] + tail, name, false) == ScanServer(tail, name, true)
  {
    assert ([opener] + tail)[0] == opener && ([opener] + tail)[1..] == tail;
  }

  /** Inside the section, a `[Peer]` line ends the scan. */
  lemma ScanServerAtPeer(peerLine: string, post: seq<string>, name: string)
    requires !Contains(peerLine, "# " + name) && StartsWith(Strip(peerLine), "[Peer]")
    ensures ScanServer([peerLine] + post, name, true) == Missing
  {
    PeerLineNoKey(peerLine);
    assert ([peerLine] + post)[0] == peerLine;
  }

  /** A line the scan passes over inside the section: no opener, no key line, no `[Peer]`. */
  predicate PassedOver(line: string, name: string) {
    && !Contains(line, "# " + name)
    && !StartsWith(Strip(line), KeyLabel)
    && !StartsWith(Strip(line), "[Peer]")
  }

  /** Inside the section, the scan moves past lines that neither open a section, answer nor stop. */
  lemma {:induction false} ScanServerPassesOver(mid: seq<string>, rest: seq<string>, name: string)
    requires forall i :: 0 <= i < |mid| ==> PassedOver(mid[i], name)
    ensures ScanServer(mid + rest, name, true) == ScanServer(rest, name, true)
  {
    if mid == [] {
      assert mid + rest == rest;
    } else {
      assert (mid + rest)[0] == mid[0] && (mid + rest)[1..] == mid[1..] + rest;
      assert forall i :: 0 <= i < |mid[1..]| ==> mid[1..][i] == mid[i + 1];
      ScanServerPassesOver(mid[1..], rest, name);
    }
  }

  /** A `[Peer]` line is no key line. */
  lemma PeerLineNoKey(line: string)
    requires StartsWith(Strip(line), "[Peer]")
    ensures !StartsWith(Strip(line), KeyLabel)
  {
    var stripped := Strip(line);
    assert stripped[0] == "[Peer]"[0] == '[';
    assert KeyLabel[0] == 'P';
  }

  /** Option 2's `for line in f` loop. */
  method ScanConfLines(lines: seq<string>) returns (r: Lookup)
    ensures r == ScanConf(lines)
  {
    var i := 0;
    while i < |lines|
      invariant 0 <= i <= |lines|
      invariant ScanConf(lines) == ScanConf(lines[i..])
    {
      assert lines[i..][0] == lines[i] && lines[i..][1..] == lines[i + 1..];
      var line := lines[i];
      if StartsWith(Strip(line), KeyLabel) {
        var parts := Split(line, '=');
        if |parts| < 2 {
          return Raised;
        }
        return Found(Strip(parts[1]));
      }
      i := i + 1;
    }
    return Missing;
  }

  /** Option 3's `for i, line in enumerate(lines)` loop with the `in_peer_section` flag. */
  method ScanServerLines(lines: seq<string>, name: string) returns (r: Lookup)
    ensures r == ScanServer(lines, name, false)
  {
    var inPeerSection := false;
    var i := 0;
    while i < |lines|
      invariant 0 <= i <= |lines|
      invariant ScanServer(lines, name, false) == ScanServer(lines[i..], name, inPeerSection)
    {
      assert lines[i..][0] == lines[i] && lines[i..][1..] == lines[i + 1..];
      var line := lines[i];
      if Contains(line, "# " + name) {
        inPeerSection := true;
        i := i + 1;
        continue;
      }
      if inPeerSection && StartsWith(Strip(line), KeyLabel) {
        var parts := Split(line, '=');
        if |parts| < 2 {
          return Raised;
        }
        return Found(Strip(parts[1]));
      }
      if inPeerSection && StartsWith(Strip(line), "[Peer]") {
        break;
      }
      i := i + 1;
    }
    return Missing;
  }

  /**
   * `get_peer_public_key` as the route runs it: option 1, then the scan of
   * `<name>.conf`, then the scan of wg0.conf; an exception or nothing found
   * gives `None`.
   */
  method GetPeerPublicKey(fs: FileStore, name: string) returns (key: Option<string>)
    ensures key == PeerPublicKey(fs, name)
  {
    var keyPath := ConfigService.PublicKeyPath(name);
    if fs.Exists(keyPath) {
      var text := fs.Read(keyPath);
      if text.None? {
        return None;
      }
      return Some(Strip(text.value));
    }
    var confPath := ConfigService.DownloadPath(name);
    if fs.Exists(confPath) {
      var text := fs.Read(confPath);
      if text.None? {
        return None;
      }
      var found := ScanConfLines(ReadLines(text.value));
      if found.Found? {
        return Some(found.key);
      } else if found.Raised? {
        return None;
      }
    }
    var serverPath := WireGuardService.ServerConfPath;
    if fs.Exists(serverPath) {
      var text := fs.Read(serverPath);
      if text.None? {
        return None;
      }
      var found := ScanServerLines(ReadLines(text.value), name);
      if found.Found? {
        return Some(found.key);
      }
    }
    return None;
  }
}
