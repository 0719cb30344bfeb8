/**
 * `ConfigService` (backend/services/config_service.py): the server's public key,
 * the per-peer directory with its key files and `peer.conf`, and the
 * downloadable `<name>.conf` at the top of WIREGUARD_PATH.
 */
module ConfigService {
  import opened Wrappers
  import opened Text
  import opened Store

  /** `os.path.join(WIREGUARD_PATH, "server", "publickey-server")`. */
  const ServerKeyPath: Path := ["server", "publickey-server"]

  /** What the service answers when the server key cannot be read. */
  const Placeholder: string := "SERVER_PUBLIC_KEY_PLACEHOLDER"

  /**
   * `get_server_public_key`: the stripped contents of `server/publickey-server`;
   * the placeholder when that path is missing, or is a directory (the `open`
   * raises and the `except` clause answers the placeholder).
   */
  function GetServerPublicKey(fs: FileStore): (key: string)
    reads fs
    ensures ServerKeyPath !in fs.files ==> key == Placeholder
    ensures ServerKeyPath in fs.files ==> key == Strip(fs.files[ServerKeyPath])
  {
    ServerKeyIn(fs.files)
  }

  /**
   * The answer on the file contents alone: a directory at the path is not in
   * `files`, and `open` on it raises like on a missing path.
   */
  function ServerKeyIn(files: map<Path, string>): (key: string)
    ensures ServerKeyPath !in files ==> key == Placeholder
    ensures ServerKeyPath in files ==> key == Strip(files[ServerKeyPath])
  {
    if ServerKeyPath in files then Strip(files[ServerKeyPath]) else Placeholder
  }

  /** The answer has no surrounding whitespace left to strip. */
  lemma ServerKeyStripped(fs: FileStore)
    ensures Strip(GetServerPublicKey(fs)) == GetServerPublicKey(fs)
  {
    if ServerKeyPath in fs.files {
      StripNoSpaceEnds(Strip(fs.files[ServerKeyPath]));
    } else {
      assert !IsSpace(Placeholder[0]) && !IsSpace(Placeholder[|Placeholder| - 1]);
      StripNoSpaceEnds(Placeholder);
    }
  }

  /** Writing any other path leaves the server key as it was. */
  lemma ServerKeyKept(files: map<Path, string>, p: Path, text: string)
    requires p != ServerKeyPath
    ensures ServerKeyIn(files[p := text]) == ServerKeyIn(files)
  {
    if ServerKeyPath in files {
      assert files[p := text][ServerKeyPath] == files[ServerKeyPath];
    }
  }

  /** A key written with surrounding whitespace (a trailing newline, say) reads back as the key. */
  lemma ServerKeyRoundTrip(fs: FileStore, key: string, before: string, after: string)
    requires ServerKeyPath in fs.files && fs.files[ServerKeyPath] == before + key + after
    requires key == [] || (!IsSpace(key[0]) && !IsSpace(key[|key| - 1]))
    requires forall i :: 0 <= i < |before| ==> IsSpace(before[i])
    requires forall i :: 0 <= i < |after| ==> IsSpace(after[i])
    ensures GetServerPublicKey(fs) == key
  {
    StripAround(before, key, after);
  }

  /** The lines of the `peer.conf` template (config_service.py, create_peer_directory_structure). */
  function PeerConfLines(ip: string, privateKey: string, serverKey: string, presharedKey: string): seq<string> {
    ["[Interface]", "Address = " + ip, "PrivateKey = " + privateKey, "ListenPort = 51820", "",
     "[Peer]", "PublicKey = " + serverKey, "PresharedKey = " + presharedKey,
     "Endpoint = 192.168.43.30:51820", "AllowedIPs = 0.0.0.0/0", ""]
  }

  /** The text of `peer.conf`. */
  function PeerConf(ip: string, privateKey: string, serverKey: string, presharedKey: string): string {
    Join(PeerConfLines(ip, privateKey, serverKey, presharedKey), '\n')
  }

  /** The line the downloadable configuration adds to `peer.conf`. */
  const DnsLine: string := "DNS = 8.8.8.8"

  /** The lines of the downloadable `<name>.conf` (create_peer_config_file). */
  function DownloadConfLines(ip: string, privateKey: string, serverKey: string, presharedKey: string): seq<string> {
    ["[Interface]", "Address = " + ip, "PrivateKey = " + privateKey, "ListenPort = 51820", DnsLine, "",
     "[Peer]", "PublicKey = " + serverKey, "PresharedKey = " + presharedKey,
     "Endpoint = 192.168.43.30:51820", "AllowedIPs = 0.0.0.0/0", ""]
  }

  /** The text of the downloadable `<name>.conf`. */
  function DownloadConf(ip: string, privateKey: string, serverKey: string, presharedKey: string): string {
    Join(DownloadConfLines(ip, privateKey, serverKey, presharedKey), '\n')
  }

  /**
   * The two templates agree line for line, except that the downloadable one
   * holds the DNS line at the end of its `[Interface]` section.
   */
  lemma DownloadConfAddsDns(ip: string, privateKey: string, serverKey: string, presharedKey: string)
    ensures var p := PeerConfLines(ip, privateKey, serverKey, presharedKey);
            DownloadConfLines(ip, privateKey, serverKey, presharedKey) == p[..4] + [DnsLine] + p[4..]
  {
    var p := PeerConfLines(ip, privateKey, serverKey, presharedKey);
    var d := DownloadConfLines(ip, privateKey, serverKey, presharedKey);
    assert |d| == |p[..4] + [DnsLine] + p[4..]|;
    forall i | 0 <= i < |d|
      ensures d[i] == (p[..4] + [DnsLine] + p[4..])[i]
    {
    }
  }

  /**
   * When no field holds a line break, the rendered `peer.conf` splits back into
   * exactly the template's lines: every field sits alone on its own line.
   */
  lemma PeerConfSplit(ip: string, privateKey: string, serverKey: string, presharedKey: string)
    requires '\n' !in ip && '\n' !in privateKey && '\n' !in serverKey && '\n' !in presharedKey
    ensures Split(PeerConf(ip, privateKey, serverKey, presharedKey), '\n')
      == PeerConfLines(ip, privateKey, serverKey, presharedKey)
  {
    FieldsUnbroken(ip, privateKey, serverKey, presharedKey);
    FixedLinesUnbroken();
    SplitJoin(PeerConfLines(ip, privateKey, serverKey, presharedKey), '\n');
  }

  /** Likewise for the downloadable configuration. */
  lemma DownloadConfSplit(ip: string, privateKey: string, serverKey: string, presharedKey: string)
    requires '\n' !in ip && '\n' !in privateKey && '\n' !in serverKey && '\n' !in presharedKey
    ensures Split(DownloadConf(ip, privateKey, serverKey, presharedKey), '\n')
      == DownloadConfLines(ip, privateKey, serverKey, presharedKey)
  {
    FieldsUnbroken(ip, privateKey, serverKey, presharedKey);
    FixedLinesUnbroken();
    assert '\n' !in DnsLine;
    SplitJoin(DownloadConfLines(ip, privateKey, serverKey, presharedKey), '\n');
  }

  /** The template's fixed lines hold no line break. */
  lemma FixedLinesUnbroken()
    ensures '\n' !in "[Interface]" && '\n' !in "ListenPort = 51820" && '\n' !in "" && '\n' !in "[Peer]"
    ensures '\n' !in "Endpoint = 192.168.43.30:51820" && '\n' !in "AllowedIPs = 0.0.0.0/0"
  {
    HeadLinesUnbroken();
    TailLinesUnbroken();
  }

  lemma HeadLinesUnbroken()
    ensures '\n' !in "[Interface]" && '\n' !in "ListenPort = 51820" && '\n' !in "" && '\n' !in "[Peer]"
  {
  }

  lemma TailLinesUnbroken()
    ensures '\n' !in "Endpoint = 192.168.43.30:51820" && '\n' !in "AllowedIPs = 0.0.0.0/0"
  {
  }

  /** The four field lines hold no line break when their values hold none. */
  lemma FieldsUnbroken(ip: string, privateKey: string, serverKey: string, presharedKey: string)
    requires '\n' !in ip && '\n' !in privateKey && '\n' !in serverKey && '\n' !in presharedKey
    ensures '\n' !in "Address = " + ip && '\n' !in "PrivateKey = " + privateKey
    ensures '\n' !in "PublicKey = " + serverKey && '\n' !in "PresharedKey = " + presharedKey
  {
    NoBreakAfter("Address = ", ip);
    NoBreakAfter("PrivateKey = ", privateKey);
    NoBreakAfter("PublicKey = ", serverKey);
    NoBreakAfter("PresharedKey = ", presharedKey);
  }

  lemma NoBreakAfter(head: string, value: string)
    requires '\n' !in head && '\n' !in value
    ensures '\n' !in head + value
  {
  }

  /** The text after the first `c` of `s`; empty when `s` holds no `c`. */
  function AfterFirst(s: string, c: char): (r: string)
    ensures |r| <= |s|
    ensures c !in s ==> r == []
  {
    if s == [] then []
    else if s[0] == c then s[1..]
    else AfterFirst(s[1..], c)
  }

  lemma {:induction false} AfterFirstSplits(p: string, c: char, q: string)
    requires c !in p
    ensures AfterFirst(p + [c] + q, c) == q
  {
    if p != [] {
      assert (p + [c] + q)[1..] == p[1..] + [c] + q;
      AfterFirstSplits(p[1..], c, q);
    } else {
      assert p + [c] + q == [c] + q;
    }
  }

  /**
   * Reading a peer's address back from its configuration: the first line whose
   * stripped form starts with `Address`, with the text after its first `=`
   * stripped.
   */
  function ScanAddress(lines: seq<string>): Option<string> {
    if lines == [] then None
    else if StartsWith(Strip(lines[0]), "Address") then Some(Strip(AfterFirst(lines[0], '=')))
    else ScanAddress(lines[1..])
  }

  /** A line `<tag> = <value>` still starts with its tag once stripped. */
  lemma FieldLineTag(tag: string, value: string)
    requires |tag| >= 1 && !IsSpace(tag[0]) && !IsSpace(tag[|tag| - 1])
    ensures StartsWith(Strip(tag + " = " + value), tag)
  {
    assert tag + " = " + value == tag + (" = " + value);
    StripKeepsPrefix(tag, " = " + value);
  }

  /** The first `=` of `<tag> = <value>` is the one after the tag. */
  lemma FieldLineParts(tag: string, value: string)
    ensures tag + " = " + value == (tag + " ") + ['='] + (" " + value)
  {
    var line := tag + " = " + value;
    var parts := (tag + " ") + ['='] + (" " + value);
    assert |line| == |parts|;
    forall i | 0 <= i < |line|
      ensures line[i] == parts[i]
    {
      if i < |tag| {
      } else if i < |tag| + 3 {
      } else {
        assert line[i] == value[i - |tag| - 3];
      }
    }
  }

  /** A line `<tag> = <value>` yields `value` back, whatever `value` holds. */
  lemma FieldLineValue(tag: string, value: string)
    requires '=' !in tag
    requires value == [] || (!IsSpace(value[0]) && !IsSpace(value[|value| - 1]))
    ensures Strip(AfterFirst(tag + " = " + value, '=')) == value
  {
    var pre, post := tag + " ", " " + value;
    FieldLineParts(tag, value);
    assert '=' !in pre by {
      assert forall i :: 0 <= i < |pre| ==> pre[i] == ' ' || pre[i] in tag;
    }
    AfterFirstSplits(pre, '=', post);
    StripOneSpace(value);
  }

  /** One leading space comes off. */
  lemma StripOneSpace(value: string)
    requires value == [] || (!IsSpace(value[0]) && !IsSpace(value[|value| - 1]))
    ensures Strip(" " + value) == value
  {
    StripAround(" ", value, []);
    assert " " + value + [] == " " + value;
  }

  lemma AddressTag()
    ensures "Address = " == "Address" + " = "
  {
  }

  /** The `[Interface]` header is not an address line. */
  lemma ScanAddressSkipsHeader(lines: seq<string>)
    requires |lines| >= 1 && lines[0] == "[Interface]"
    ensures ScanAddress(lines) == ScanAddress(lines[1..])
  {
    StripNoSpaceEnds("[Interface]");
    assert !StartsWith("[Interface]", "Address") by {
      assert "[Interface]"[0] != "Address"[0];
    }
  }

  /** The address line answers the scan. */
  lemma ScanAddressLine(lines: seq<string>, ip: string)
    requires |lines| >= 1 && lines[0] == "Address = " + ip
    requires ip == [] || (!IsSpace(ip[0]) && !IsSpace(ip[|ip| - 1]))
    ensures ScanAddress(lines) == Some(ip)
  {
    AddressTag();
    FieldLineTag("Address", ip);
    FieldLineValue("Address", ip);
    assert lines[0] == "Address" + " = " + ip;
  }

  /** Both templates open with `[Interface]` and the address line. */
  lemma ScanAddressHead(lines: seq<string>, ip: string)
    requires |lines| >= 2 && lines[0] == "[Interface]" && lines[1] == "Address = " + ip
    requires ip == [] || (!IsSpace(ip[0]) && !IsSpace(ip[|ip| - 1]))
    ensures ScanAddress(lines) == Some(ip)
  {
    ScanAddressSkipsHeader(lines);
    ScanAddressLine(lines[1..], ip);
  }

  /**
   * The address written into `peer.conf` and `<name>.conf` reads back as the
   * same text, provided it has no surrounding whitespace and no field holds a
   * line break.
   */
  lemma AddressRoundTrip(ip: string, privateKey: string, serverKey: string, presharedKey: string)
    requires '\n' !in ip && '\n' !in privateKey && '\n' !in serverKey && '\n' !in presharedKey
    requires ip == [] || (!IsSpace(ip[0]) && !IsSpace(ip[|ip| - 1]))
    ensures ScanAddress(Split(PeerConf(ip, privateKey, serverKey, presharedKey), '\n')) == Some(ip)
    ensures ScanAddress(Split(DownloadConf(ip, privateKey, serverKey, presharedKey), '\n')) == Some(ip)
  {
    PeerConfSplit(ip, privateKey, serverKey, presharedKey);
    DownloadConfSplit(ip, privateKey, serverKey, presharedKey);
    ScanAddressHead(PeerConfLines(ip, privateKey, serverKey, presharedKey), ip);
    ScanAddressHead(DownloadConfLines(ip, privateKey, serverKey, presharedKey), ip);
  }

  /** The directory of a peer: `os.path.join(WIREGUARD_PATH, peer_name)`. */
  function PeerDir(name: string): Path {
    PathOf([name])
  }

  /** `os.path.join(peer_dir, file)` for a non-empty file name. */
  function PeerFile(name: string, file: string): (p: Path)
    requires file != []
    ensures p != [] && Parent(p) == PeerDir(name) && Proper(p) && p[|p| - 1] == file
  {
    var p := PeerDir(name) + [file];
    assert p[..|p| - 1] == PeerDir(name);
    p
  }

  function PrivateKeyPath(name: string): Path { PeerFile(name, "privatekey-" + name) }
  function PublicKeyPath(name: string): Path { PeerFile(name, "publickey-" + name) }
  function PresharedKeyPath(name: string): Path { PeerFile(name, "presharedkey-" + name) }
  function PeerConfPath(name: string): Path { PeerFile(name, "peer.conf") }

  /**
   * `create_peer_directory_structure` succeeds when `makedirs` finds no file on
   * the way and none of the four files it opens for writing is a directory.
   */
  predicate CanCreatePeerDir(fs: FileStore, name: string)
    reads fs
  {
    CanCreatePeerDirIn(fs.files.Keys, fs.dirs, name)
  }

  /** The same condition on the paths of the files and of the directories. */
  predicate CanCreatePeerDirIn(files: set<Path>, dirs: set<Path>, name: string) {
    && PeerDirMakeable(files, name)
    && PrivateKeyPath(name) !in dirs && PublicKeyPath(name) !in dirs
    && PresharedKeyPath(name) !in dirs && PeerConfPath(name) !in dirs
  }

  /** `os.makedirs(peer_dir, exist_ok=True)` goes through: no file lies on the way to the peer directory. */
  predicate PeerDirMakeable(files: set<Path>, name: string) {
    forall k :: 0 <= k <= |PeerDir(name)| ==> PeerDir(name)[..k] !in files
  }

  /** The four files `create_peer_directory_structure` writes. */
  function PeerDirFiles(name: string): set<Path> {
    {PrivateKeyPath(name), PublicKeyPath(name), PresharedKeyPath(name), PeerConfPath(name)}
  }

  /**
   * The files after the four writes of `create_peer_directory_structure` into
   * an existing peer directory with directories `dirs`: the writes land in
   * order, and the first one whose path is a directory raises and ends the
   * sequence, keeping the writes before it. `peer.conf` carries the server key
   * as it reads after the three key files.
   */
  function DirFilesWritten(files: map<Path, string>, dirs: set<Path>, name: string, privateKey: string,
                           publicKey: string, presharedKey: string, ip: string): map<Path, string>
  {
    if PrivateKeyPath(name) in dirs then files
    else
      var f1 := files[PrivateKeyPath(name) := privateKey];
      if PublicKeyPath(name) in dirs then f1
      else
        var f2 := f1[PublicKeyPath(name) := publicKey];
        if PresharedKeyPath(name) in dirs then f2
        else
          var f3 := f2[PresharedKeyPath(name) := presharedKey];
          if PeerConfPath(name) in dirs then f3
          else f3[PeerConfPath(name) := PeerConf(ip, privateKey, ServerKeyIn(f3), presharedKey)]
  }

  /**
   * Whichever write fails, the four writes touch only the four peer-directory
   * files: every other file keeps its contents and no other path appears.
   */
  lemma DirFilesWrittenElsewhere(files: map<Path, string>, dirs: set<Path>, name: string, privateKey: string,
                                 publicKey: string, presharedKey: string, ip: string)
    ensures var r := DirFilesWritten(files, dirs, name, privateKey, publicKey, presharedKey, ip);
            && r.Keys <= files.Keys + PeerDirFiles(name)
            && forall p :: p in files && p !in PeerDirFiles(name) ==> p in r && r[p] == files[p]
  {
  }

  /** When all four writes land, all four files exist. */
  lemma DirFilesWrittenAll(files: map<Path, string>, dirs: set<Path>, name: string, privateKey: string,
                           publicKey: string, presharedKey: string, ip: string)
    requires PrivateKeyPath(name) !in dirs && PublicKeyPath(name) !in dirs
    requires PresharedKeyPath(name) !in dirs && PeerConfPath(name) !in dirs
    ensures DirFilesWritten(files, dirs, name, privateKey, publicKey, presharedKey, ip).Keys
              == files.Keys + PeerDirFiles(name)
  {
  }

  /** Only whether the four paths are directories matters to the writes. */
  lemma DirFilesWrittenDirs(files: map<Path, string>, dirs: set<Path>, dirs': set<Path>, name: string,
                            privateKey: string, publicKey: string, presharedKey: string, ip: string)
    requires forall p :: p in PeerDirFiles(name) ==> (p in dirs <==> p in dirs')
    ensures DirFilesWritten(files, dirs, name, privateKey, publicKey, presharedKey, ip)
         == DirFilesWritten(files, dirs', name, privateKey, publicKey, presharedKey, ip)
  {
    assert PrivateKeyPath(name) in PeerDirFiles(name) && PublicKeyPath(name) in PeerDirFiles(name);
    assert PresharedKeyPath(name) in PeerDirFiles(name) && PeerConfPath(name) in PeerDirFiles(name);
  }

  /**
   * `create_peer_directory_structure`: makes the peer directory and writes the
   * three key files and `peer.conf`, whose server key is read after the key
   * files are written (so a peer named `server` supplies its own key). On
   * success the answer is the directory; on failure the call raises (`None`).
   */
  method CreatePeerDirectoryStructure(fs: FileStore, name: string, privateKey: string, publicKey: string,
                                      presharedKey: string, ip: string)
    returns (dir: Option<Path>)
    requires fs.Valid()
    modifies fs
    ensures fs.Valid()
    ensures dir.Some? <==> old(CanCreatePeerDir(fs, name))
    ensures dir.Some? ==> dir.value == PeerDir(name) && dir.value in fs.dirs
    ensures dir.Some? ==> fs.dirs == old(fs.dirs) + Prefixes(PeerDir(name))
    ensures dir.Some? ==> fs.files == old(fs.files)[PrivateKeyPath(name) := privateKey]
                                         [PublicKeyPath(name) := publicKey]
                                         [PresharedKeyPath(name) := presharedKey]
                                         [PeerConfPath(name) := PeerConf(ip, privateKey, GetServerPublicKey(fs), presharedKey)]
    ensures fs.dirs == if old(PeerDirMakeable(fs.files.Keys, name)) then old(fs.dirs) + Prefixes(PeerDir(name))
                       else old(fs.dirs)
    ensures fs.files == if old(PeerDirMakeable(fs.files.Keys, name)) then
                          DirFilesWritten(old(fs.files), old(fs.dirs), name, privateKey, publicKey, presharedKey, ip)
                        else old(fs.files)
  {
    var peerDir := PeerDir(name);
    ghost var files0, dirs0 := fs.files, fs.dirs;
    var made := fs.MakeDirs(peerDir);
    if !made {
      return None;
    }
    assert peerDir in Prefixes(peerDir) by {
      assert peerDir[..|peerDir|] == peerDir;
    }
    PeerFilesNotPrefixes(name);
    DirFilesWrittenDirs(files0, dirs0, fs.dirs, name, privateKey, publicKey, presharedKey, ip);
    var ok := WritePeerDirFiles(fs, name, privateKey, publicKey, presharedKey, ip);
    if !ok {
      return None;
    }
    return Some(peerDir);
  }

  /**
   * The four writes of `create_peer_directory_structure` into the existing
   * peer directory; each fails when its path is a directory.
   */
  method WritePeerDirFiles(fs: FileStore, name: string, privateKey: string, publicKey: string,
                           presharedKey: string, ip: string)
    returns (ok: bool)
    requires fs.Valid() && PeerDir(name) in fs.dirs
    modifies fs
    ensures fs.Valid() && fs.dirs == old(fs.dirs)
    ensures ok <==> && PrivateKeyPath(name) !in fs.dirs && PublicKeyPath(name) !in fs.dirs
                    && PresharedKeyPath(name) !in fs.dirs && PeerConfPath(name) !in fs.dirs
    ensures ok ==> fs.files == old(fs.files)[PrivateKeyPath(name) := privateKey]
                                  [PublicKeyPath(name) := publicKey]
                                  [PresharedKeyPath(name) := presharedKey]
                                  [PeerConfPath(name) := PeerConf(ip, privateKey, GetServerPublicKey(fs), presharedKey)]
    ensures fs.files == DirFilesWritten(old(fs.files), fs.dirs, name, privateKey, publicKey, presharedKey, ip)
  {
    ok := fs.WriteFile(PrivateKeyPath(name), privateKey);
    if !ok {
      return;
    }
    ok := fs.WriteFile(PublicKeyPath(name), publicKey);
    if !ok {
      return;
    }
    ok := fs.WriteFile(PresharedKeyPath(name), presharedKey);
    if !ok {
      return;
    }
    ghost var files3 := fs.files;
    var serverKey := GetServerPublicKey(fs);
    var conf := PeerConf(ip, privateKey, serverKey, presharedKey);
    ok := fs.WriteFile(PeerConfPath(name), conf);
    if !ok {
      return;
    }
    assert PeerConfPath(name) != ServerKeyPath;
    ServerKeyKept(files3, PeerConfPath(name), conf);
  }

  /** Making the peer directory makes none of the four file paths a directory. */
  lemma PeerFilesNotPrefixes(name: string)
    ensures PrivateKeyPath(name) !in Prefixes(PeerDir(name)) && PublicKeyPath(name) !in Prefixes(PeerDir(name))
    ensures PresharedKeyPath(name) !in Prefixes(PeerDir(name)) && PeerConfPath(name) !in Prefixes(PeerDir(name))
  {
    var d := PeerDir(name);
    forall q | q in Prefixes(d)
      ensures |q| <= |d|
    {
      var k :| 0 <= k <= |d| && q == d[..k];
    }
  }

  /** `os.path.join(WIREGUARD_PATH, f"{peer_name}.conf")`. */
  function DownloadPath(name: string): Path {
    [name + ".conf"]
  }

  /**
   * `create_peer_config_file`: writes the downloadable configuration next to
   * the peer directories and answers its path; raises (`None`) when
   * WIREGUARD_PATH is missing or the path is a directory.
   */
  method CreatePeerConfigFile(fs: FileStore, name: string, ip: string, privateKey: string, presharedKey: string)
    returns (path: Option<Path>)
    requires fs.Valid()
    modifies fs
    ensures fs.Valid()
    ensures path.Some? <==> [] in old(fs.dirs) && DownloadPath(name) !in old(fs.dirs)
    ensures path.Some? ==> path.value == DownloadPath(name)
    ensures fs.dirs == old(fs.dirs)
    ensures fs.files == if path.Some? then
                          old(fs.files)[DownloadPath(name) := DownloadConf(ip, privateKey, old(GetServerPublicKey(fs)), presharedKey)]
                        else old(fs.files)
    ensures GetServerPublicKey(fs) == old(GetServerPublicKey(fs))
  {
    var serverKey := GetServerPublicKey(fs);
    var conf := DownloadConf(ip, privateKey, serverKey, presharedKey);
    var p := DownloadPath(name);
    assert p[..0] == [];
    var ok := fs.WriteFile(p, conf);
    if !ok {
      return None;
    }
    assert p != ServerKeyPath by { assert |p| != |ServerKeyPath|; }
    ServerKeyKept(old(fs.files), p, conf);
    return Some(p);
  }
}
