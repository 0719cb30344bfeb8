/**
 * The peer routes of backend/routes/peers.py without the HTTP layer: the steps
 * of `add_peer` and `delete_peer` in their order, and the `hours` clamp of
 * `get_peer_metrics`. Keys arrive as parameters (they are generated outside),
 * and a reply stands for the JSON body and status the route would send.
 */
module Peers {
  import opened Wrappers
  import opened Text
  import opened Store
  import opened Helpers
  import WireGuardService
  import ConfigService
  import PeerLookup

  /** `add_peer`'s answers: 200 with the peer's data, 400 with an error text, or 500 from an exception. */
  datatype AddReply =
    | Created(message: string, peerName: string, ipAddress: string, publicKey: string,
              configFile: string, directory: string)
    | BadRequest(error: string)
    | AddFailed

  /** `delete_peer`'s answers: 200 with a message, 500 with the removal's message, or 500 from an exception. */
  datatype DeleteReply =
    | Deleted(message: string)
    | RemovalFailed(error: string)
    | DeleteFailed

  /**
   * The three service calls of `add_peer` go through: WIREGUARD_PATH exists,
   * the peer directory and its files can be made, and `<name>.conf` is not a
   * directory.
   */
  predicate AddSucceeds(fs: FileStore, name: string)
    reads fs
  {
    [] in fs.dirs && ConfigService.CanCreatePeerDir(fs, name) && ConfigService.DownloadPath(name) !in fs.dirs
  }

  /** The files a successful `add_peer` writes. */
  function PeerFiles(name: string): set<Path> {
    {ConfigService.PrivateKeyPath(name), ConfigService.PublicKeyPath(name), ConfigService.PresharedKeyPath(name),
     ConfigService.PeerConfPath(name), ConfigService.DownloadPath(name)}
  }

  /**
   * `add_peer`. `rawName` is `request.json.get("name")` (`None` when absent).
   * The steps run in the source's order: the name check, sanitizing, the
   * existence check, then the server configuration (which fixes the address
   * from the peers that exist BEFORE this one), the peer directory and the
   * downloadable configuration. The restart thread is not modelled.
   */
  method AddPeer(fs: FileStore, rawName: Option<string>, privateKey: string, publicKey: string,
                 presharedKey: string)
    returns (reply: AddReply)
    requires fs.Valid()
    modifies fs
    ensures fs.Valid()
    ensures rawName.None? || rawName.value == [] ==>
              reply == BadRequest("peer name required") && unchanged(fs)
    ensures rawName.Some? && rawName.value != [] && old(PeerExists(fs, SanitizePeerName(rawName.value))) ==>
              reply == BadRequest("Peer " + SanitizePeerName(rawName.value) + " already exists") && unchanged(fs)
    ensures rawName.Some? && rawName.value != [] && !old(PeerExists(fs, SanitizePeerName(rawName.value))) ==>
              (reply.Created? <==> old(AddSucceeds(fs, SanitizePeerName(rawName.value))))
              && (reply.Created? || reply == AddFailed)
    ensures reply.Created? ==>
              var name := SanitizePeerName(rawName.value);
              && fs.dirs == old(fs.dirs) + Prefixes([name])
              && fs.files.Keys == old(fs.files).Keys + PeerFiles(name)
    ensures reply.Created? ==>
              rawName.Some? && !old(PeerExists(fs, SanitizePeerName(rawName.value)))
              && var name := SanitizePeerName(rawName.value);
              && name != []
              && reply == Created("Peer " + name + " created successfully", name,
                                  WireGuardService.PeerAddress(old(PeerCount(fs))), publicKey, name + ".conf", name)
              && PeerDirNames(fs) == old(PeerDirNames(fs)) + (if name in Reserved then {} else {name})
              && PeerLookup.PeerPublicKey(fs, name) == Some(Strip(publicKey))
    ensures reply.Created? ==>
              var name := SanitizePeerName(rawName.value);
              ConfigService.DownloadPath(name) in fs.files &&
              fs.files[ConfigService.DownloadPath(name)]
                 == ConfigService.DownloadConf(reply.ipAddress, privateKey, ConfigService.GetServerPublicKey(fs), presharedKey)
    ensures reply.Created? ==>
              var name := SanitizePeerName(rawName.value);
              var block := WireGuardService.PeerBlock(name, publicKey, presharedKey, reply.ipAddress);
              fs.files == AddedFiles(WireGuardService.WithBlock(old(fs.files), block),
                                     name, privateKey, publicKey, presharedKey, reply.ipAddress)
    ensures reply == AddFailed ==>
              rawName.Some? &&
              var name := SanitizePeerName(rawName.value);
              var address := WireGuardService.PeerAddress(old(PeerCount(fs)));
              && fs.dirs == (if old([] in fs.dirs && ConfigService.PeerDirMakeable(fs.files.Keys, name))
                             then old(fs.dirs) + Prefixes([name]) else old(fs.dirs))
              && fs.files == if [] !in old(fs.dirs) then old(fs.files)
                             else PeerFilesWritten(WireGuardService.WithBlock(old(fs.files),
                                                     WireGuardService.PeerBlock(name, publicKey, presharedKey, address)),
                                                   old(fs.dirs), name, privateKey, publicKey, presharedKey, address)
  {
    if rawName.None? || rawName.value == [] {
      return BadRequest("peer name required");
    }
    var name := SanitizePeerName(rawName.value);
    if PeerExists(fs, name) {
      return BadRequest("Peer " + name + " already exists");
    }
    PeerExistsCases(fs, name);
    var ip := CreatePeer(fs, name, privateKey, publicKey, presharedKey);
    if ip.None? {
      return AddFailed;
    }
    PeerNamesAdd(old(fs.dirs), name);
    return Created("Peer " + name + " created successfully", name, ip.value, publicKey, name + ".conf", name);
  }

  /**
   * The service calls of `add_peer` for a sanitized, non-empty name: the
   * server configuration, the peer directory, the downloadable configuration.
   * The answer is the address, or `None` when one of the calls raised; the
   * calls before it keep their effect (nothing is rolled back).
   */
  method CreatePeer(fs: FileStore, name: string, privateKey: string, publicKey: string, presharedKey: string)
    returns (ip: Option<string>)
    requires fs.Valid() && (name != [] || [] !in fs.dirs)
    modifies fs
    ensures fs.Valid()
    ensures ip.Some? <==> old(AddSucceeds(fs, name))
    ensures ip.Some? ==>
              && ip.value == WireGuardService.PeerAddress(old(PeerCount(fs)))
              && fs.dirs == old(fs.dirs) + Prefixes([name])
              && fs.files.Keys == old(fs.files).Keys + PeerFiles(name)
              && fs.files[ConfigService.PublicKeyPath(name)] == publicKey
    ensures ip.Some? ==>
              fs.files[ConfigService.DownloadPath(name)]
                == ConfigService.DownloadConf(ip.value, privateKey, ConfigService.GetServerPublicKey(fs), presharedKey)
    ensures ip.Some? ==>
              fs.files == AddedFiles(WireGuardService.WithBlock(old(fs.files), WireGuardService.PeerBlock(name, publicKey, presharedKey, ip.value)),
                                     name, privateKey, publicKey, presharedKey, ip.value)
    ensures fs.dirs == if old([] in fs.dirs && ConfigService.PeerDirMakeable(fs.files.Keys, name))
                       then old(fs.dirs) + Prefixes([name]) else old(fs.dirs)
    ensures fs.files == if [] !in old(fs.dirs) then old(fs.files)
                        else var address := WireGuardService.PeerAddress(old(PeerCount(fs)));
                             PeerFilesWritten(WireGuardService.WithBlock(old(fs.files),
                                                WireGuardService.PeerBlock(name, publicKey, presharedKey, address)),
                                              old(fs.dirs), name, privateKey, publicKey, presharedKey, address)
  {
    ghost var keys0 := fs.files.Keys;
    var address := WireGuardService.AddPeerToServerConfig(fs, name, publicKey, presharedKey);
    if address.None? {
      return None;
    }
    assert fs.files.Keys == keys0;
    var ok := WritePeerFiles(fs, name, privateKey, publicKey, presharedKey, address.value);
    if !ok {
      return None;
    }
    return address;
  }

  /**
   * The second and third service calls of `add_peer`: the peer directory with
   * its files, then the downloadable configuration.
   */
  method WritePeerFiles(fs: FileStore, name: string, privateKey: string, publicKey: string, presharedKey: string,
                        ip: string)
    returns (ok: bool)
    requires fs.Valid() && name != [] && [] in fs.dirs
    modifies fs
    ensures fs.Valid()
    ensures ok <==> old(ConfigService.CanCreatePeerDir(fs, name)) && ConfigService.DownloadPath(name) !in old(fs.dirs)
    ensures ok ==>
              && fs.dirs == old(fs.dirs) + Prefixes([name])
              && fs.files.Keys == old(fs.files).Keys + PeerFiles(name)
              && fs.files[ConfigService.PublicKeyPath(name)] == publicKey
    ensures ok ==>
              fs.files[ConfigService.DownloadPath(name)]
                == ConfigService.DownloadConf(ip, privateKey, ConfigService.GetServerPublicKey(fs), presharedKey)
    ensures ok ==> fs.files == AddedFiles(old(fs.files), name, privateKey, publicKey, presharedKey, ip)
    ensures fs.dirs == if old(ConfigService.PeerDirMakeable(fs.files.Keys, name)) then old(fs.dirs) + Prefixes([name])
                       else old(fs.dirs)
    ensures fs.files == PeerFilesWritten(old(fs.files), old(fs.dirs), name, privateKey, publicKey, presharedKey, ip)
  {
    assert PathOf([name]) == [name];
    ghost var files0, dirs0 := fs.files, fs.dirs;
    var dir := ConfigService.CreatePeerDirectoryStructure(fs, name, privateKey, publicKey, presharedKey, ip);
    if dir.None? {
      return false;
    }
    PrefixesOfOne(name);
    DownloadPathApart(name);
    var conf := ConfigService.CreatePeerConfigFile(fs, name, ip, privateKey, presharedKey);
    if conf.None? {
      return false;
    }
    AddedFilesWritten(files0, dirs0, name, privateKey, publicKey, presharedKey, ip);
    AddedFilesKeys(files0, name, privateKey, publicKey, presharedKey, ip);
    AddedFilesContents(files0, name, privateKey, publicKey, presharedKey, ip);
    return true;
  }

  /**
   * The files after the peer-file phase of a successful `add_peer`, from the
   * files before it: the three key files, `peer.conf` and `<name>.conf`, both
   * configurations carrying the server key as it reads once the key files are
   * written.
   */
  function AddedFiles(files: map<Path, string>, name: string, privateKey: string, publicKey: string,
                      presharedKey: string, ip: string): map<Path, string>
  {
    var keys := files[ConfigService.PrivateKeyPath(name) := privateKey][ConfigService.PublicKeyPath(name) := publicKey]
                     [ConfigService.PresharedKeyPath(name) := presharedKey];
    var serverKey := ConfigService.ServerKeyIn(keys);
    keys[ConfigService.PeerConfPath(name) := ConfigService.PeerConf(ip, privateKey, serverKey, presharedKey)]
        [ConfigService.DownloadPath(name) := ConfigService.DownloadConf(ip, privateKey, serverKey, presharedKey)]
  }

  /**
   * The files after the peer-file phase of `add_peer` whatever happens:
   * nothing when `makedirs` raises, the writes of the directory step up to the
   * one that raised, or all of them and then `<name>.conf` unless that path
   * is a directory.
   */
  function PeerFilesWritten(files: map<Path, string>, dirs: set<Path>, name: string, privateKey: string,
                            publicKey: string, presharedKey: string, ip: string): map<Path, string>
  {
    if !ConfigService.PeerDirMakeable(files.Keys, name) then files
    else
      var f := ConfigService.DirFilesWritten(files, dirs, name, privateKey, publicKey, presharedKey, ip);
      if !ConfigService.CanCreatePeerDirIn(files.Keys, dirs, name) || ConfigService.DownloadPath(name) in dirs then f
      else f[ConfigService.DownloadPath(name) := ConfigService.DownloadConf(ip, privateKey, ConfigService.ServerKeyIn(f), presharedKey)]
  }

  /** When every step goes through, the sequence of writes gives the files of a successful `add_peer`. */
  lemma AddedFilesWritten(files: map<Path, string>, dirs: set<Path>, name: string, privateKey: string,
                          publicKey: string, presharedKey: string, ip: string)
    requires ConfigService.CanCreatePeerDirIn(files.Keys, dirs, name) && ConfigService.DownloadPath(name) !in dirs
    ensures PeerFilesWritten(files, dirs, name, privateKey, publicKey, presharedKey, ip)
         == AddedFiles(files, name, privateKey, publicKey, presharedKey, ip)
  {
    var keys := files[ConfigService.PrivateKeyPath(name) := privateKey][ConfigService.PublicKeyPath(name) := publicKey]
                     [ConfigService.PresharedKeyPath(name) := presharedKey];
    var peerConf := ConfigService.PeerConf(ip, privateKey, ConfigService.ServerKeyIn(keys), presharedKey);
    assert ConfigService.PeerConfPath(name) != ConfigService.ServerKeyPath by {
      assert ConfigService.PeerConfPath(name)[|ConfigService.PeerConfPath(name)| - 1][0] == 'p';
    }
    ConfigService.ServerKeyKept(keys, ConfigService.PeerConfPath(name), peerConf);
  }

  /** A successful `add_peer` adds exactly the peer's five files. */
  lemma AddedFilesKeys(files: map<Path, string>, name: string, privateKey: string, publicKey: string,
                       presharedKey: string, ip: string)
    ensures AddedFiles(files, name, privateKey, publicKey, presharedKey, ip).Keys == files.Keys + PeerFiles(name)
  {
  }

  /**
   * The five files of a successful `add_peer` hold what was written: no later
   * write lands on an earlier path, and both configurations carry the server
   * key as it reads afterwards.
   */
  lemma AddedFilesContents(files: map<Path, string>, name: string, privateKey: string, publicKey: string,
                           presharedKey: string, ip: string)
    requires name != []
    ensures var r := AddedFiles(files, name, privateKey, publicKey, presharedKey, ip);
            && r[ConfigService.PrivateKeyPath(name)] == privateKey
            && r[ConfigService.PublicKeyPath(name)] == publicKey
            && r[ConfigService.PresharedKeyPath(name)] == presharedKey
            && r[ConfigService.PeerConfPath(name)]
                 == ConfigService.PeerConf(ip, privateKey, ConfigService.ServerKeyIn(r), presharedKey)
            && r[ConfigService.DownloadPath(name)]
                 == ConfigService.DownloadConf(ip, privateKey, ConfigService.ServerKeyIn(r), presharedKey)
  {
    AddedKeyFiles(files, name, privateKey, publicKey, presharedKey, ip);
    AddedServerKey(files, name, privateKey, publicKey, presharedKey, ip);
    AddedConfFiles(files, name, privateKey, publicKey, presharedKey, ip);
  }

  /** The three key files hold the keys: neither configuration lands on them. */
  lemma AddedKeyFiles(files: map<Path, string>, name: string, privateKey: string, publicKey: string,
                      presharedKey: string, ip: string)
    requires name != []
    ensures var r := AddedFiles(files, name, privateKey, publicKey, presharedKey, ip);
            && r[ConfigService.PrivateKeyPath(name)] == privateKey
            && r[ConfigService.PublicKeyPath(name)] == publicKey
            && r[ConfigService.PresharedKeyPath(name)] == presharedKey
  {
    var priv, pub := ConfigService.PrivateKeyPath(name), ConfigService.PublicKeyPath(name);
    var psk, peerConf := ConfigService.PresharedKeyPath(name), ConfigService.PeerConfPath(name);
    var download := ConfigService.DownloadPath(name);
    var keys := files[priv := privateKey][pub := publicKey][psk := presharedKey];
    var serverKey := ConfigService.ServerKeyIn(keys);
    var confText := ConfigService.PeerConf(ip, privateKey, serverKey, presharedKey);
    var downloadText := ConfigService.DownloadConf(ip, privateKey, serverKey, presharedKey);
    assert AddedFiles(files, name, privateKey, publicKey, presharedKey, ip) == keys[peerConf := confText][download := downloadText];
    PeerFilesApart(name);
    FiveWrites(files, priv, pub, psk, peerConf, download, privateKey, publicKey, presharedKey, confText, downloadText);
  }

  /** Five writes to five different paths: each path holds what was written to it. */
  lemma FiveWrites(files: map<Path, string>, a: Path, b: Path, c: Path, d: Path, e: Path,
                   va: string, vb: string, vc: string, vd: string, ve: string)
    requires a != b && a != c && a != d && a != e && b != c && b != d && b != e && c != d && c != e && d != e
    ensures var r := files[a := va][b := vb][c := vc][d := vd][e := ve];
            r[a] == va && r[b] == vb && r[c] == vc && r[d] == vd && r[e] == ve
  {
  }

  /** Both configurations carry the server key as it reads before they are written. */
  lemma AddedConfFiles(files: map<Path, string>, name: string, privateKey: string, publicKey: string,
                       presharedKey: string, ip: string)
    requires name != []
    ensures var keys := files[ConfigService.PrivateKeyPath(name) := privateKey]
                             [ConfigService.PublicKeyPath(name) := publicKey]
                             [ConfigService.PresharedKeyPath(name) := presharedKey];
            var serverKey := ConfigService.ServerKeyIn(keys);
            var r := AddedFiles(files, name, privateKey, publicKey, presharedKey, ip);
            && r[ConfigService.PeerConfPath(name)] == ConfigService.PeerConf(ip, privateKey, serverKey, presharedKey)
            && r[ConfigService.DownloadPath(name)] == ConfigService.DownloadConf(ip, privateKey, serverKey, presharedKey)
  {
    DownloadPathApart(name);
    assert |ConfigService.PeerConfPath(name)| == 2;
  }

  /** The server key reads the same before and after the two configurations are written. */
  lemma AddedServerKey(files: map<Path, string>, name: string, privateKey: string, publicKey: string,
                       presharedKey: string, ip: string)
    ensures var keys := files[ConfigService.PrivateKeyPath(name) := privateKey]
                             [ConfigService.PublicKeyPath(name) := publicKey]
                             [ConfigService.PresharedKeyPath(name) := presharedKey];
            ConfigService.ServerKeyIn(AddedFiles(files, name, privateKey, publicKey, presharedKey, ip))
              == ConfigService.ServerKeyIn(keys)
  {
    var keys := files[ConfigService.PrivateKeyPath(name) := privateKey][ConfigService.PublicKeyPath(name) := publicKey]
                     [ConfigService.PresharedKeyPath(name) := presharedKey];
    var serverKey := ConfigService.ServerKeyIn(keys);
    var peerConf := ConfigService.PeerConf(ip, privateKey, serverKey, presharedKey);
    var download := ConfigService.DownloadConf(ip, privateKey, serverKey, presharedKey);
    assert ConfigService.DownloadPath(name) != ConfigService.ServerKeyPath;
    assert ConfigService.PeerConfPath(name) != ConfigService.ServerKeyPath by {
      assert ConfigService.PeerConfPath(name)[|ConfigService.PeerConfPath(name)| - 1][0] == 'p';
    }
    ConfigService.ServerKeyKept(keys, ConfigService.PeerConfPath(name), peerConf);
    ConfigService.ServerKeyKept(keys[ConfigService.PeerConfPath(name) := peerConf], ConfigService.DownloadPath(name), download);
  }

  /** A successful `add_peer` leaves every file other than the peer's five as it was. */
  lemma AddedFilesElsewhere(files: map<Path, string>, name: string, privateKey: string, publicKey: string,
                            presharedKey: string, ip: string)
    ensures forall p :: p in files && p !in PeerFiles(name) ==>
              AddedFiles(files, name, privateKey, publicKey, presharedKey, ip)[p] == files[p]
  {
  }

  /**
   * After a successful `add_peer` wg0.conf holds the configuration the server
   * update produced: none of the peer's files is wg0.conf.
   */
  lemma AddedServerConf(files: map<Path, string>, name: string, privateKey: string, publicKey: string,
                        presharedKey: string, ip: string)
    requires WireGuardService.ServerConfPath in files
    ensures var block := WireGuardService.PeerBlock(name, publicKey, presharedKey, ip);
            AddedFiles(WireGuardService.WithBlock(files, block), name, privateKey, publicKey, presharedKey, ip)
                [WireGuardService.ServerConfPath]
              == WireGuardService.UpdatedConfig(files[WireGuardService.ServerConfPath], block)
  {
    var conf := WireGuardService.ServerConfPath;
    assert conf[1][0] == 'w';
    assert conf !in PeerFiles(name);
    AddedFilesElsewhere(WireGuardService.WithBlock(files, WireGuardService.PeerBlock(name, publicKey, presharedKey, ip)),
                        name, privateKey, publicKey, presharedKey, ip);
  }

  /** The peer's five paths are pairwise different. */
  lemma PeerFilesApart(name: string)
    requires name != []
    ensures var priv, pub := ConfigService.PrivateKeyPath(name), ConfigService.PublicKeyPath(name);
            var psk, peerConf := ConfigService.PresharedKeyPath(name), ConfigService.PeerConfPath(name);
            var download := ConfigService.DownloadPath(name);
            && priv != pub && priv != psk && priv != peerConf && priv != download
            && pub != psk && pub != peerConf && pub != download
            && psk != peerConf && psk != download && peerConf != download
  {
    var priv, pub := ConfigService.PrivateKeyPath(name), ConfigService.PublicKeyPath(name);
    var psk, peerConf := ConfigService.PresharedKeyPath(name), ConfigService.PeerConfPath(name);
    assert priv[1][1] == 'r' && priv[1][2] == 'i';
    assert pub[1][1] == 'u';
    assert psk[1][1] == 'r' && psk[1][2] == 'e';
    assert peerConf[1][1] == 'e';
    DownloadPathApart(name);
  }

  /** `<name>.conf` is none of the paths the peer directory step makes. */
  lemma DownloadPathApart(name: string)
    requires name != []
    ensures ConfigService.DownloadPath(name) != [name]
    ensures ConfigService.DownloadPath(name) != ConfigService.PublicKeyPath(name)
  {
    assert |name + ".conf"| != |name|;
    assert PathOf([name]) == [name];
    assert |ConfigService.PublicKeyPath(name)| == 2;
  }

  /**
   * `delete_peer` fails when `shutil.rmtree` meets a file where the peer
   * directory should be, or `os.remove` meets a directory where `<name>.conf`
   * should be (and the directory removal did not take it away already).
   */
  predicate DeleteRaises(fs: FileStore, name: string)
    reads fs
  {
    PathOf([name]) in fs.files || (name != [] && ConfigService.DownloadPath(name) in fs.dirs)
  }

  /**
   * `delete_peer`. `removed` and `removalMessage` are the answer of
   * `remove_peer_from_server_config`, which the route calls first; its effect
   * on wg0.conf is not part of this model. The peer directory and
   * `<name>.conf` are then removed when they exist.
   */
  method DeletePeer(fs: FileStore, rawName: string, removed: bool, removalMessage: string)
    returns (reply: DeleteReply)
    requires fs.Valid()
    modifies fs
    ensures fs.Valid()
    ensures !removed ==> reply == RemovalFailed(removalMessage) && unchanged(fs)
    ensures removed ==> !reply.RemovalFailed?
    ensures removed ==> (reply.DeleteFailed? <==> old(DeleteRaises(fs, SanitizePeerName(rawName))))
    ensures reply.Deleted? ==>
              var name := SanitizePeerName(rawName);
              var dir := PathOf([name]);
              && reply.message == "Peer " + name + " deleted successfully"
              && fs.dirs == (set q | q in old(fs.dirs) && !IsPrefix(dir, q))
              && fs.files == (map q | q in old(fs.files) && !IsPrefix(dir, q) && q != ConfigService.DownloadPath(name)
                                :: old(fs.files)[q])
    ensures reply.DeleteFailed? && old(PathOf([SanitizePeerName(rawName)]) in fs.files) ==>
              fs.files == old(fs.files) && fs.dirs == old(fs.dirs)
    ensures reply.DeleteFailed? && !old(PathOf([SanitizePeerName(rawName)]) in fs.files) ==>
              var dir := PathOf([SanitizePeerName(rawName)]);
              && fs.dirs == (set q | q in old(fs.dirs) && !IsPrefix(dir, q))
              && fs.files == (map q | q in old(fs.files) && !IsPrefix(dir, q) :: old(fs.files)[q])
  {
    var name := SanitizePeerName(rawName);
    if !removed {
      return RemovalFailed(removalMessage);
    }
    var dir := PathOf([name]);
    ghost var files0 := fs.files;
    if fs.Exists(dir) {
      var ok := fs.RemoveTree(dir);
      if !ok {
        return DeleteFailed;
      }
      assert dir !in files0;
    } else {
      forall q | q in fs.dirs || q in fs.files
        ensures !IsPrefix(dir, q)
      {
        NothingBelowMissing(fs, dir, q);
      }
      KeepAll(fs.files, dir);
    }
    ghost var kept := fs.files;
    var conf := ConfigService.DownloadPath(name);
    if fs.Exists(conf) {
      var ok := fs.RemoveFile(conf);
      if !ok {
        return DeleteFailed;
      }
    } else {
      assert kept - {conf} == kept;
    }
    DropBoth(files0, dir, conf);
    return Deleted("Peer " + name + " deleted successfully");
  }

  /** Keeping what lies outside `dir` keeps everything when nothing lies inside. */
  lemma KeepAll(files: map<Path, string>, dir: Path)
    requires forall q :: q in files ==> !IsPrefix(dir, q)
    ensures (map q | q in files && !IsPrefix(dir, q) :: files[q]) == files
  {
  }

  /** Removing the tree, then `<name>.conf`, keeps what lies outside both. */
  lemma DropBoth(files: map<Path, string>, dir: Path, conf: Path)
    ensures (map q | q in files && !IsPrefix(dir, q) :: files[q]) - {conf}
         == (map q | q in files && !IsPrefix(dir, q) && q != conf :: files[q])
  {
  }

  /** In a consistent store nothing lies below a path that does not exist. */
  lemma {:induction false} NothingBelowMissing(fs: FileStore, p: Path, q: Path)
    requires fs.Valid() && !fs.Exists(p) && (q in fs.dirs || q in fs.files)
    ensures !IsPrefix(p, q)
    decreases |q|
  {
    if q != [] && |q| > |p| {
      NothingBelowMissing(fs, p, Parent(q));
      assert Parent(q)[..|p|] == q[..|p|];
    } else {
      assert q[..|q|] == q;
    }
  }

  /**
   * The `hours` parameter of `get_peer_metrics`: 1 when absent or not an
   * integer, lowered to 24 when above it; zero and negative values pass.
   */
  function ClampHours(hours: Option<int>): (h: int)
    ensures h <= 24
    ensures hours.None? ==> h == 1
    ensures hours.Some? ==> (h == hours.value <==> hours.value <= 24)
    ensures hours.Some? && hours.value > 24 ==> h == 24
  {
    var requested := hours.GetOr(1);
    if requested > 24 then 24 else requested
  }

  /** Clamping is idempotent. */
  lemma ClampHoursIdempotent(hours: Option<int>)
    ensures ClampHours(Some(ClampHours(hours))) == ClampHours(hours)
  {
  }
}
