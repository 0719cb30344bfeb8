/**
 * Runs of the peer routes on a freshly deployed WireGuard directory (the top
 * directory and `wg_confs/` holding the server's `wg0.conf`), for peer names
 * the sanitizer leaves unchanged. They show how addresses are handed out: from
 * the number of peer directories at the time of the request, so an address
 * comes back into use once a peer is deleted.
 */
module Scenarios {
  import opened Wrappers
  import opened Text
  import opened Store
  import opened Helpers
  import WireGuardService
  import ConfigService
  import Peers

  /** A name `add_peer` keeps as it is and files as a peer. */
  predicate PlainName(name: string) {
    name != [] && name !in Reserved && forall i :: 0 <= i < |name| ==> IsNameChar(name[i])
  }

  /**
   * The shape of a directory the routes have only ever written to: directories
   * are WIREGUARD_PATH and its direct children, named without a dot, and every
   * file at the top is a `<name>.conf`, named with one.
   */
  ghost predicate Tidy(files: set<Path>, dirs: set<Path>) {
    && (forall p :: p in dirs ==> |p| <= 1)
    && (forall p :: p in dirs && |p| == 1 ==> '.' !in p[0])
    && (forall p :: p in files && |p| == 1 ==> '.' in p[0])
  }

  /** A fresh deployment: WIREGUARD_PATH, `wg_confs/` and the server configuration. */
  method Deploy(serverConf: string) returns (fs: FileStore)
    ensures fresh(fs) && fs.Valid() && Tidy(fs.files.Keys, fs.dirs)
    ensures [] in fs.dirs && PeerCount(fs) == 0
  {
    var wgConfs: Path := ["wg_confs"];
    assert Parent(WireGuardService.ServerConfPath) == wgConfs;
    fs := new FileStore(map[WireGuardService.ServerConfPath := serverConf], {[], wgConfs});
    assert PeerDirNames(fs) == {} by {
      forall p | p in fs.dirs && |p| == 1
        ensures p[0] in Reserved
      {
        assert p == wgConfs;
      }
    }
  }

  /** In a tidy directory a plain name exists exactly when it is a peer. */
  lemma TidyPeerExists(fs: FileStore, name: string)
    requires fs.Valid() && Tidy(fs.files.Keys, fs.dirs) && PlainName(name)
    ensures PeerExists(fs, name) <==> name in PeerDirNames(fs)
  {
    assert PathOf([name]) == [name];
    assert '.' !in name;
    if name in PeerDirNames(fs) {
      var p :| p in fs.dirs && |p| == 1 && p[0] !in Reserved && name == p[0];
      assert p == [name];
    }
    if [name] in fs.dirs {
      assert [name][0] == name;
    }
  }

  /** In a tidy directory with WIREGUARD_PATH present, `add_peer`'s service calls go through. */
  lemma TidyAddSucceeds(fs: FileStore, name: string)
    requires fs.Valid() && Tidy(fs.files.Keys, fs.dirs) && PlainName(name) && [] in fs.dirs
    ensures Peers.AddSucceeds(fs, name)
  {
    var dir := ConfigService.PeerDir(name);
    assert dir == [name];
    assert '.' !in name;
    assert dir[..0] == [] && dir[..1] == dir;
    assert '.' in ConfigService.DownloadPath(name)[0];
  }

  /** Adding a plain peer keeps the directory tidy. */
  lemma TidyAdd(files: set<Path>, dirs: set<Path>, name: string)
    requires Tidy(files, dirs) && PlainName(name)
    ensures Tidy(files + Peers.PeerFiles(name), dirs + Prefixes([name]))
  {
    PrefixesOfOne(name);
    assert '.' !in name;
    PlainPeerFiles(name);
  }

  /** Of a plain peer's files only `<name>.conf` lies in WIREGUARD_PATH itself, and it has a dot. */
  lemma PlainPeerFiles(name: string)
    requires PlainName(name)
    ensures forall p :: p in Peers.PeerFiles(name) && |p| == 1 ==> '.' in p[0]
  {
    assert PathOf([name]) == [name];
    assert '.' in ConfigService.DownloadPath(name)[0];
  }

  /** In a tidy directory, deleting a plain name raises nowhere. */
  lemma TidyDeletes(fs: FileStore, name: string)
    requires fs.Valid() && Tidy(fs.files.Keys, fs.dirs) && PlainName(name)
    ensures !Peers.DeleteRaises(fs, name)
  {
    assert PathOf([name]) == [name];
    assert '.' !in name;
    assert '.' in ConfigService.DownloadPath(name)[0];
  }

  /** Removing entries keeps a directory tidy. */
  lemma TidyShrinks(files: set<Path>, dirs: set<Path>, files': set<Path>, dirs': set<Path>)
    requires Tidy(files, dirs) && files' <= files && dirs' <= dirs
    ensures Tidy(files', dirs')
  {
  }

  /** Adding a plain, new peer to a tidy directory succeeds and files it. */
  method AddPlain(fs: FileStore, name: string, privateKey: string, publicKey: string, presharedKey: string)
    returns (reply: Peers.AddReply)
    requires fs.Valid() && Tidy(fs.files.Keys, fs.dirs) && [] in fs.dirs
    requires PlainName(name) && name !in PeerDirNames(fs)
    modifies fs
    ensures fs.Valid() && Tidy(fs.files.Keys, fs.dirs) && [] in fs.dirs
    ensures reply.Created? && reply.peerName == name
    ensures reply.ipAddress == WireGuardService.PeerAddress(old(PeerCount(fs)))
    ensures PeerDirNames(fs) == old(PeerDirNames(fs)) + {name}
  {
    SanitizeFixedPoint(name);
    TidyPeerExists(fs, name);
    TidyAddSucceeds(fs, name);
    TidyAdd(fs.files.Keys, fs.dirs, name);
    reply := Peers.AddPeer(fs, Some(name), privateKey, publicKey, presharedKey);
  }

  /** Deleting a plain name from a tidy directory succeeds and unfiles it. */
  method DeletePlain(fs: FileStore, name: string)
    returns (reply: Peers.DeleteReply)
    requires fs.Valid() && Tidy(fs.files.Keys, fs.dirs) && PlainName(name)
    modifies fs
    ensures fs.Valid() && Tidy(fs.files.Keys, fs.dirs) && ([] in old(fs.dirs) ==> [] in fs.dirs)
    ensures reply.Deleted?
    ensures PeerDirNames(fs) == old(PeerDirNames(fs)) - {name}
  {
    SanitizeFixedPoint(name);
    TidyDeletes(fs, name);
    ghost var dirs0 := fs.dirs;
    ghost var files0 := fs.files;
    reply := Peers.DeletePeer(fs, name, true, "");
    assert PathOf([name]) == [name];
    PeerNamesRemove(dirs0, name);
    assert !IsPrefix([name], []);
    assert fs.files.Keys <= files0.Keys by {
      forall q | q in fs.files
        ensures q in files0
      {
      }
    }
    TidyShrinks(files0.Keys, dirs0, fs.files.Keys, fs.dirs);
  }

  /** Two peers added one after the other receive 192.0.0.2 and 192.0.0.3. */
  method TwoPeers(serverConf: string, a: string, b: string, keys: seq<string>)
    returns (first: Peers.AddReply, second: Peers.AddReply)
    requires PlainName(a) && PlainName(b) && a != b && |keys| == 6
    ensures first.Created? && second.Created?
    ensures first.ipAddress == WireGuardService.PeerAddress(0) && second.ipAddress == WireGuardService.PeerAddress(1)
    ensures ParseNat(first.ipAddress[|WireGuardService.AddressPrefix|..]) == 2
    ensures ParseNat(second.ipAddress[|WireGuardService.AddressPrefix|..]) == 3
    ensures first.ipAddress != second.ipAddress
  {
    var fs := Deploy(serverConf);
    first := AddPlain(fs, a, keys[0], keys[1], keys[2]);
    second := AddPlain(fs, b, keys[3], keys[4], keys[5]);
    assert PeerCount(fs) == 2 by {
      assert {a} + {b} == {a, b};
    }
  }

  /**
   * Add `a` and `b`, delete `a`, add `c`: `c` receives the address `b` already
   * holds, because the allocator counts peers instead of looking at the
   * addresses in use.
   */
  method ReuseAfterDelete(serverConf: string, a: string, b: string, c: string, keys: seq<string>)
    returns (second: Peers.AddReply, third: Peers.AddReply)
    requires PlainName(a) && PlainName(b) && PlainName(c) && a != b && c != b && |keys| == 9
    ensures second.Created? && third.Created? && second.peerName != third.peerName
    ensures second.ipAddress == third.ipAddress
  {
    var fs := Deploy(serverConf);
    var first := AddPlain(fs, a, keys[0], keys[1], keys[2]);
    second := AddPlain(fs, b, keys[3], keys[4], keys[5]);
    var deleted := DeletePlain(fs, a);
    assert PeerDirNames(fs) == {b};
    third := AddPlain(fs, c, keys[6], keys[7], keys[8]);
  }

  /**
   * A name made only of characters the sanitizer drops (`"../"`) names
   * WIREGUARD_PATH itself, and `delete_peer` removes the whole directory: no
   * peer is left to list.
   */
  method DeleteUnnamed(serverConf: string, a: string, rawName: string, keys: seq<string>)
    returns (reply: Peers.DeleteReply, left: seq<string>)
    requires PlainName(a) && |keys| == 3
    requires forall i :: 0 <= i < |rawName| ==> !Kept(rawName[i])
    ensures reply.Deleted? && left == []
  {
    var fs := Deploy(serverConf);
    var added := AddPlain(fs, a, keys[0], keys[1], keys[2]);
    assert a in PeerDirNames(fs);
    SanitizeAllDropped(rawName);
    assert PathOf([""]) == [];
    assert !Peers.DeleteRaises(fs, []);
    reply := Peers.DeletePeer(fs, rawName, true, "");
    assert reply.Deleted?;
    assert IsPrefix([], []);
    assert [] !in fs.dirs;
    left := ListExistingPeers(fs);
  }
}
