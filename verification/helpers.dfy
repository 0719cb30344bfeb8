/**
 * The peer registry (backend/utils/helpers.py): every peer is a directory of
 * WIREGUARD_PATH named after it; names are sanitized before they reach a path.
 */
module Helpers {
  import opened Text
  import opened Store

  /** Root entries that are not peers: the server's keys, templates, generated configuration. */
  const Reserved: set<string> := {"server", "templates", "wg_confs"}

  /** `c.isalnum()` on ASCII characters. */
  predicate IsAlnum(c: char) {
    'a' <= c <= 'z' || 'A' <= c <= 'Z' || '0' <= c <= '9'
  }

  /** `c.lower()` on ASCII characters. */
  function Lower(c: char): char {
    if 'A' <= c <= 'Z' then (c as int + 32) as char else c
  }

  /** The characters `sanitize_peer_name` keeps. */
  predicate Kept(c: char) {
    IsAlnum(c) || c == '-' || c == '_'
  }

  /** The characters a sanitized name is made of. */
  predicate IsNameChar(c: char) {
    'a' <= c <= 'z' || '0' <= c <= '9' || c == '-' || c == '_'
  }

  /**
   * `sanitize_peer_name`: keeps the alphanumeric characters, `-` and `_`, and
   * lower-cases them. The result can hold neither `/` nor `.`, so it cannot
   * leave the WireGuard directory when joined to it.
   */
  function SanitizePeerName(name: string): (r: string)
    ensures |r| <= |name|
    ensures forall i :: 0 <= i < |r| ==> IsNameChar(r[i])
    ensures '/' !in r && '.' !in r
  {
    if name == [] then []
    else (if Kept(name[0]) then [Lower(name[0])] else []) + SanitizePeerName(name[1..])
  }

  /** Sanitizing works character by character, keeping the order. */
  lemma {:induction false} SanitizeAppend(a: string, b: string)
    ensures SanitizePeerName(a + b) == SanitizePeerName(a) + SanitizePeerName(b)
  {
    if a != [] {
      var head := if Kept(a[0]) then [Lower(a[0])] else [];
      assert (a + b)[0] == a[0] && (a + b)[1..] == a[1..] + b;
      assert SanitizePeerName(a + b) == head + SanitizePeerName(a[1..] + b);
      SanitizeAppend(a[1..], b);
      ConcatAssoc(head, SanitizePeerName(a[1..]), SanitizePeerName(b));
    } else {
      assert a + b == b;
    }
  }

  /** One character is kept lower-cased, or dropped. */
  lemma SanitizeChar(c: char)
    ensures SanitizePeerName([c]) == if Kept(c) then [Lower(c)] else []
  {
    assert [c][1..] == [];
  }

  /** A name is left unchanged exactly when it is already made of name characters. */
  lemma {:induction false} SanitizeFixedPoint(s: string)
    ensures SanitizePeerName(s) == s <==> forall i :: 0 <= i < |s| ==> IsNameChar(s[i])
  {
    if s != [] {
      SanitizeFixedPoint(s[1..]);
      if SanitizePeerName(s) == s {
        assert SanitizePeerName(s)[0] == Lower(s[0]);
        assert SanitizePeerName(s[1..]) == SanitizePeerName(s)[1..];
      }
      if forall i :: 0 <= i < |s| ==> IsNameChar(s[i]) {
        assert IsNameChar(s[0]);
        assert forall i :: 0 <= i < |s[1..]| ==> IsNameChar(s[1..][i]) by {
          forall i | 0 <= i < |s[1..]| ensures IsNameChar(s[1..][i]) {
            assert s[1..][i] == s[i + 1];
          }
        }
        assert s == [s[0]] + s[1..];
      }
    }
  }

  /** Sanitizing twice is sanitizing once. */
  lemma SanitizeIdempotent(s: string)
    ensures SanitizePeerName(SanitizePeerName(s)) == SanitizePeerName(s)
  {
    SanitizeFixedPoint(SanitizePeerName(s));
  }

  /**
   * A name made only of dropped characters (`"../"`, `"!!"`) sanitizes to the
   * empty name, which joins to WIREGUARD_PATH itself.
   */
  lemma {:induction false} SanitizeAllDropped(s: string)
    requires forall i :: 0 <= i < |s| ==> !Kept(s[i])
    ensures SanitizePeerName(s) == []
  {
    if s != [] {
      assert forall i :: 0 <= i < |s[1..]| ==> s[1..][i] == s[i + 1];
      SanitizeAllDropped(s[1..]);
    }
  }

  /**
   * `peer_exists`: `os.path.exists(os.path.join(WIREGUARD_PATH, name))`, true for
   * a file as well as a directory; the empty name joins to WIREGUARD_PATH itself.
   */
  predicate PeerExists(fs: FileStore, name: string)
    reads fs
  {
    fs.Exists(PathOf([name]))
  }

  lemma PeerExistsCases(fs: FileStore, name: string)
    requires fs.Valid()
    ensures name != [] ==> (PeerExists(fs, name) <==> [name] in fs.files || [name] in fs.dirs)
    ensures name == [] ==> (PeerExists(fs, name) <==> [] in fs.dirs)
  {
    if name == [] {
      assert [name][1..] == [];
      assert PathOf([name]) == [];
    }
  }

  /** The peer names of a directory set: its top-level directories other than the reserved ones. */
  function PeerNamesOf(dirs: set<Path>): set<string> {
    set p | p in dirs && |p| == 1 && p[0] !in Reserved :: p[0]
  }

  /** The peers of the store. */
  function PeerDirNames(fs: FileStore): set<string>
    reads fs
  {
    PeerNamesOf(fs.dirs)
  }

  /** Making a peer directory (and WIREGUARD_PATH) adds that one name, unless it is reserved. */
  lemma PeerNamesAdd(dirs: set<Path>, name: string)
    requires name != []
    ensures PeerNamesOf(dirs + Prefixes([name])) == PeerNamesOf(dirs) + (if name in Reserved then {} else {name})
  {
    var p: Path := [name];
    PrefixesOfOne(name);
    if name !in Reserved {
      assert p in dirs + Prefixes(p) && |p| == 1 && p[0] == name;
    }
  }

  /** Removing the tree below a top-level directory removes that one name. */
  lemma PeerNamesRemove(dirs: set<Path>, name: string)
    requires name != []
    ensures PeerNamesOf(set q | q in dirs && !IsPrefix([name], q)) == PeerNamesOf(dirs) - {name}
  {
    var kept := set q | q in dirs && !IsPrefix([name], q);
    forall x | x in PeerNamesOf(dirs) - {name}
      ensures x in PeerNamesOf(kept)
    {
      var q :| q in dirs && |q| == 1 && q[0] !in Reserved && x == q[0];
      assert q == [x];
      assert !IsPrefix([name], q);
    }
    forall x | x in PeerNamesOf(kept)
      ensures x in PeerNamesOf(dirs) - {name}
    {
      var q :| q in kept && |q| == 1 && q[0] !in Reserved && x == q[0];
      assert q == [x];
    }
  }

  /** The number of peer directories; the address allocator counts these. */
  function PeerCount(fs: FileStore): nat
    reads fs
  {
    |PeerDirNames(fs)|
  }

  /**
   * The list comprehension `[f for f in listing if os.path.isdir(...f) and
   * f not in [...]]` over one `os.listdir` result.
   */
  function PeerEntries(fs: FileStore, listing: seq<string>): seq<string>
    reads fs
  {
    if listing == [] then []
    else
      var f := listing[|listing| - 1];
      PeerEntries(fs, listing[..|listing| - 1]) + (if PathOf([f]) in fs.dirs && f !in Reserved then [f] else [])
  }

  /** The comprehension keeps exactly the peer directories of the listing, in listing order. */
  lemma {:induction false} PeerEntriesMembers(fs: FileStore, listing: seq<string>)
    requires fs.Valid()
    requires forall x :: x in listing ==> x != []
    ensures forall x :: x in PeerEntries(fs, listing) <==> x in listing && [x] in fs.dirs && x !in Reserved
    ensures Distinct(listing) ==> Distinct(PeerEntries(fs, listing))
  {
    if listing != [] {
      var init := listing[..|listing| - 1];
      var f := listing[|listing| - 1];
      assert listing == init + [f];
      assert forall x :: x in init ==> x in listing;
      PeerEntriesMembers(fs, init);
      assert f in listing && [f][0] == f;
      assert PathOf([f]) == [f];
      if Distinct(listing) {
        assert Distinct(init);
        assert f !in init;
      }
    }
  }

  lemma {:induction false} DistinctCard<T>(s: seq<T>)
    requires Distinct(s)
    ensures |set x | x in s| == |s|
  {
    if s != [] {
      var init := s[..|s| - 1];
      DistinctCard(init);
      assert (set x | x in s) == (set x | x in init) + {s[|s| - 1]};
      assert s[|s| - 1] !in init;
    }
  }

  /**
   * Over a complete, duplicate-free listing of WIREGUARD_PATH the comprehension
   * yields every peer directory once: its length is the peer count.
   */
  lemma PeerEntriesCount(fs: FileStore, listing: seq<string>)
    requires fs.Valid() && Distinct(listing)
    requires forall x :: x in listing <==> x in fs.RootEntries()
    ensures Distinct(PeerEntries(fs, listing))
    ensures forall x :: x in PeerEntries(fs, listing) <==> x in PeerDirNames(fs)
    ensures |PeerEntries(fs, listing)| == PeerCount(fs)
  {
    var es := PeerEntries(fs, listing);
    forall x | x in listing
      ensures x != []
    {
      assert x in fs.RootEntries();
    }
    PeerEntriesMembers(fs, listing);
    forall x | x in PeerDirNames(fs)
      ensures x in es
    {
      var p :| p in fs.dirs && |p| == 1 && p[0] !in Reserved && x == p[0];
      assert p == [x];
      assert x in fs.RootEntries();
    }
    forall x | x in es
      ensures x in PeerDirNames(fs)
    {
      assert [x] in fs.dirs && |[x]| == 1 && [x][0] == x;
    }
    assert (set x | x in es) == PeerDirNames(fs);
    DistinctCard(es);
  }

  /**
   * `list_existing_peers`: the peer directories of WIREGUARD_PATH, each once, in
   * the order `os.listdir` reports them; a missing WIREGUARD_PATH gives `[]`.
   */
  method ListExistingPeers(fs: FileStore) returns (peers: seq<string>)
    requires fs.Valid()
    ensures [] !in fs.dirs ==> peers == []
    ensures [] in fs.dirs ==> Distinct(peers) && |peers| == PeerCount(fs)
    ensures forall x :: x in peers <==> [] in fs.dirs && x in PeerDirNames(fs)
  {
    peers := [];
    var listing := fs.ListRoot();
    if listing.None? {
      return;
    }
    var entries := listing.value;
    for i := 0 to |entries|
      invariant peers == PeerEntries(fs, entries[..i])
    {
      var f := entries[i];
      if PathOf([f]) in fs.dirs && f !in Reserved {
        peers := peers + [f];
      }
      assert entries[..i + 1][..i] == entries[..i];
    }
    assert entries[..|entries|] == entries;
    PeerEntriesCount(fs, entries);
  }
}
