/**
 * `WireGuardService.add_peer_to_server_config` (backend/services/wireguard_service.py):
 * allocates the next address from the number of peer directories and splices a
 * `[Peer]` block into the server configuration `wg_confs/wg0.conf`.
 */
module WireGuardService {
  import opened Wrappers
  import opened Text
  import opened Store
  import opened Helpers

  /** `os.path.join(WIREGUARD_PATH, "wg_confs", "wg0.conf")`. */
  const ServerConfPath: Path := ["wg_confs", "wg0.conf"]

  /** The fixed part of every peer address. */
  const AddressPrefix: string := "192.0.0."

  /**
   * `f"192.0.0.{existing_peers + 2}"`: the last component is the decimal text of
   * the peer count plus two. Nothing bounds it by 255, so from 254 existing
   * peers on the text is not an IPv4 address any more.
   */
  function PeerAddress(count: nat): (ip: string)
    ensures |ip| > |AddressPrefix| && ip[..|AddressPrefix|] == AddressPrefix
    ensures forall i :: |AddressPrefix| <= i < |ip| ==> IsDigit(ip[i])
    ensures ParseNat(ip[|AddressPrefix|..]) == count + 2
  {
    ParseNatToString(count + 2);
    var host := NatToString(count + 2);
    assert (AddressPrefix + host)[|AddressPrefix|..] == host;
    AddressPrefix + host
  }

  /** Different peer counts give different addresses. */
  lemma PeerAddressInjective(a: nat, b: nat)
    requires PeerAddress(a) == PeerAddress(b)
    ensures a == b
  {
    assert ParseNat(PeerAddress(a)[|AddressPrefix|..]) == a + 2;
  }

  /**
   * The lines of the `peer_config` f-string: it opens with a newline, names the
   * peer in a comment, and ends with a newline.
   */
  function PeerBlockLines(name: string, publicKey: string, presharedKey: string, ip: string): seq<string> {
    ["", "[Peer]", "# " + name, "PublicKey = " + publicKey, "PresharedKey = " + presharedKey,
     "AllowedIPs = " + ip + "/32", ""]
  }

  /** The `peer_config` f-string: its lines joined by newlines. */
  function PeerBlock(name: string, publicKey: string, presharedKey: string, ip: string): (block: string)
    ensures |block| > 0 && block[0] == '\n'
  {
    var ls := PeerBlockLines(name, publicKey, presharedKey, ip);
    JoinCons(ls[0], ls[1..], '\n');
    assert ls == [ls[0]] + ls[1..];
    Join(ls, '\n')
  }

  /** Joining seven lines puts one separator between each two. */
  lemma Join7(a: string, b: string, c: string, d: string, e: string, f: string, g: string, sep: char)
    ensures Join([a, b, c, d, e, f, g], sep) == a + [sep] + b + [sep] + c + [sep] + d + [sep] + e + [sep] + f + [sep] + g
  {
    JoinCons(f, [g], sep);
    JoinCons(e, [f, g], sep);
    assert [e] + [f, g] == [e, f, g];
    JoinCons(d, [e, f, g], sep);
    assert [d] + [e, f, g] == [d, e, f, g];
    JoinCons(c, [d, e, f, g], sep);
    assert [c] + [d, e, f, g] == [c, d, e, f, g];
    JoinCons(b, [c, d, e, f, g], sep);
    assert [b] + [c, d, e, f, g] == [b, c, d, e, f, g];
    JoinCons(a, [b, c, d, e, f, g], sep);
    assert [a] + [b, c, d, e, f, g] == [a, b, c, d, e, f, g];
  }

  lemma PeerBlockLinesJoin(name: string, publicKey: string, presharedKey: string, ip: string)
    ensures PeerBlock(name, publicKey, presharedKey, ip)
      == Join(["", "[Peer]", "# " + name, "PublicKey = " + publicKey, "PresharedKey = " + presharedKey,
               "AllowedIPs = " + ip + "/32", ""], '\n')
  {
  }

  /**
   * The block character for character: a newline, the `[Peer]` header, the
   * name comment, the two keys, the address with its `/32` mask, a newline.
   */
  lemma PeerBlockText(name: string, publicKey: string, presharedKey: string, ip: string)
    ensures PeerBlock(name, publicKey, presharedKey, ip)
      == "\n[Peer]\n" + ("# " + name) + "\n" + ("PublicKey = " + publicKey) + "\n" + ("PresharedKey = " + presharedKey)
         + "\n" + ("AllowedIPs = " + ip + "/32") + "\n"
  {
    var c, d, e, f := "# " + name, "PublicKey = " + publicKey, "PresharedKey = " + presharedKey, "AllowedIPs = " + ip + "/32";
    PeerBlockLinesJoin(name, publicKey, presharedKey, ip);
    Join7("", "[Peer]", c, d, e, f, "", '\n');
    var nl: string := ['\n'];
    assert nl == "\n";
    assert "" + nl + "[Peer]" + nl == "\n[Peer]\n";
    var body := "\n[Peer]\n" + c + nl + d + nl + e + nl + f + nl;
    assert body + "" == body;
  }

  /** `line.strip() == ']'`: a closing bracket line. */
  predicate IsCloser(line: string) {
    Strip(line) == "]"
  }

  /**
   * The `for line in lines` loop: a closing line becomes the block followed by
   * `"]"` unless the block was already in the configuration (`present`); every
   * other line is copied.
   */
  function Spliced(lines: seq<string>, block: string, present: bool): seq<string> {
    if lines == [] then []
    else
      var last := lines[|lines| - 1];
      Spliced(lines[..|lines| - 1], block, present)
      + (if IsCloser(last) && !present then [block, "]"] else [last])
  }

  /** The new text of wg0.conf: splice before the closing lines, or append. */
  function UpdatedConfig(current: string, block: string): string {
    if EndsWith(Strip(current), ']') then
      Join(Spliced(Split(current, '\n'), block, Contains(current, block)), '\n')
    else
      current + block
  }

  /** The number of closing lines. */
  function Closers(lines: seq<string>): nat {
    if lines == [] then 0
    else Closers(lines[..|lines| - 1]) + (if IsCloser(lines[|lines| - 1]) then 1 else 0)
  }

  /** The loop adds two lines (the block and `]`) per closing line it replaces, and none when the block is present. */
  lemma {:induction false} SplicedLength(lines: seq<string>, block: string, present: bool)
    ensures |Spliced(lines, block, present)| == |lines| + (if present then 0 else Closers(lines))
  {
    if lines != [] {
      SplicedLength(lines[..|lines| - 1], block, present);
    }
  }

  /** The lines with every closing line written as the bare `"]"`. */
  function Normalized(lines: seq<string>): seq<string> {
    if lines == [] then []
    else
      var last := lines[|lines| - 1];
      Normalized(lines[..|lines| - 1]) + (if IsCloser(last) then ["]"] else [last])
  }

  /** The lines other than `block`, in order. */
  function Without(lines: seq<string>, block: string): seq<string> {
    if lines == [] then []
    else
      var last := lines[|lines| - 1];
      Without(lines[..|lines| - 1], block) + (if last == block then [] else [last])
  }

  lemma {:induction false} WithoutAppend(a: seq<string>, b: seq<string>, block: string)
    ensures Without(a + b, block) == Without(a, block) + Without(b, block)
  {
    if b == [] {
      assert a + b == a;
    } else {
      var init := b[..|b| - 1];
      assert (a + b)[..|a + b| - 1] == a + init;
      WithoutAppend(a, init, block);
    }
  }

  /** One more line: the loop's output grows by that line's contribution. */
  lemma SplicedSnoc(init: seq<string>, last: string, block: string, present: bool)
    ensures Spliced(init + [last], block, present)
      == Spliced(init, block, present) + (if IsCloser(last) && !present then [block, "]"] else [last])
    ensures Closers(init + [last]) == Closers(init) + (if IsCloser(last) then 1 else 0)
    ensures Normalized(init + [last]) == Normalized(init) + (if IsCloser(last) then ["]"] else [last])
  {
    var lines := init + [last];
    assert lines[..|lines| - 1] == init && lines[|lines| - 1] == last;
  }

  /** With the block already present, or no closing line, the loop copies every line. */
  lemma {:induction false} SplicedUnchanged(lines: seq<string>, block: string, present: bool)
    requires present || Closers(lines) == 0
    ensures Spliced(lines, block, present) == lines
  {
    if lines != [] {
      var init := lines[..|lines| - 1];
      var last := lines[|lines| - 1];
      assert lines == init + [last];
      SplicedSnoc(init, last, block, present);
      SplicedUnchanged(init, block, present);
    }
  }

  /**
   * With the block new, the loop inserts one copy of it before each closing
   * line and rewrites that line as `"]"`; removing the copies again gives the
   * original lines, in order, closers normalized.
   */
  lemma {:induction false} SplicedShape(lines: seq<string>, block: string)
    requires block != "]"
    requires forall i :: 0 <= i < |lines| ==> lines[i] != block
    ensures |Spliced(lines, block, false)| == |lines| + Closers(lines)
    ensures Without(Spliced(lines, block, false), block) == Normalized(lines)
  {
    if lines != [] {
      var init := lines[..|lines| - 1];
      var last := lines[|lines| - 1];
      assert lines == init + [last];
      assert forall i :: 0 <= i < |init| ==> init[i] == lines[i];
      SplicedShape(init, block);
      SplicedSnoc(init, last, block, false);
      var ext := if IsCloser(last) then [block, "]"] else [last];
      WithoutAppend(Spliced(init, block, false), ext, block);
      WithoutTail(ext, block);
    }
  }

  /** Removing the block from a closing pair or a single other line. */
  lemma WithoutTail(ext: seq<string>, block: string)
    requires block != "]"
    requires ext == [block, "]"] || (|ext| == 1 && ext[0] != block)
    ensures ext == [block, "]"] ==> Without(ext, block) == ["]"]
    ensures ext != [block, "]"] ==> Without(ext, block) == ext
  {
    if ext == [block, "]"] {
      assert ext[..1] == [block] && [block][..0] == [];
      assert Without([block], block) == [];
    } else {
      assert ext[..0] == [] && ext == [ext[0]];
    }
  }

  /** The block is inserted exactly when some line is a closing line. */
  lemma {:induction false} SplicedHasBlock(lines: seq<string>, block: string)
    requires block != "]"
    requires forall i :: 0 <= i < |lines| ==> lines[i] != block
    ensures block in Spliced(lines, block, false) <==> Closers(lines) > 0
  {
    if lines != [] {
      var init := lines[..|lines| - 1];
      var last := lines[|lines| - 1];
      assert forall i :: 0 <= i < |init| ==> init[i] == lines[i];
      SplicedHasBlock(init, block);
      var sp := Spliced(init, block, false);
      var ext := if IsCloser(last) then [block, "]"] else [last];
      assert Spliced(lines, block, false) == sp + ext;
      assert block in sp + ext <==> block in sp || block in ext;
      assert block in ext <==> IsCloser(last);
    }
  }

  /**
   * `peer_config in new_config`: after the update the block is in wg0.conf exactly
   * when the text was appended, the block was already there, or a closing line
   * received it. A configuration that ends in `]` without a bare `]` line (the
   * last line `[Peer]`, say) is written back unchanged and the peer is not added.
   */
  lemma UpdatedContainsBlock(current: string, block: string)
    requires |block| > 0 && block[0] == '\n'
    ensures Contains(UpdatedConfig(current, block), block)
        <==> !EndsWith(Strip(current), ']') || Contains(current, block)
             || Closers(Split(current, '\n')) > 0
  {
    var lines := Split(current, '\n');
    var present := Contains(current, block);
    var r := UpdatedConfig(current, block);
    if !EndsWith(Strip(current), ']') {
      ContainsSelf(block);
      ContainsConcat(current, block, block);
    } else if present || Closers(lines) == 0 {
      SplicedUnchanged(lines, block, present);
      JoinSplit(current, '\n');
    } else {
      forall i | 0 <= i < |lines|
        ensures lines[i] != block
      {
        assert '\n' in block;
      }
      assert block != "]";
      SplicedHasBlock(lines, block);
      var sp := Spliced(lines, block, false);
      var j :| 0 <= j < |sp| && sp[j] == block;
      assert sp[j] == block;
      JoinContains(sp, j, '\n');
    }
  }

  /**
   * In the splicing branch the update is idempotent on its own output:
   * `peer_config not in current_config` keeps a block from being inserted twice.
   */
  lemma UpdatedKnownBlock(current: string, block: string)
    requires EndsWith(Strip(current), ']') && Contains(current, block)
    ensures UpdatedConfig(current, block) == current
  {
    SplicedUnchanged(Split(current, '\n'), block, true);
    JoinSplit(current, '\n');
  }

  /**
   * In the appending branch nothing guards against a second copy: the text
   * grows by the block on every call.
   */
  lemma UpdatedAppends(current: string, block: string)
    requires !EndsWith(Strip(current), ']')
    ensures StartsWith(UpdatedConfig(current, block), current)
    ensures |UpdatedConfig(current, block)| == |current| + |block|
    ensures Contains(UpdatedConfig(current, block), block)
  {
    ContainsSelf(block);
    ContainsConcat(current, block, block);
    assert (current + block)[..|current|] == current;
  }

  /**
   * The store's files once `add_peer_to_server_config` has handed `block` to
   * wg0.conf: the updated text when wg0.conf is a file, otherwise nothing.
   */
  function WithBlock(files: map<Path, string>, block: string): (r: map<Path, string>)
    ensures r.Keys == files.Keys
    ensures forall p :: p in files && p != ServerConfPath ==> r[p] == files[p]
  {
    if ServerConfPath in files then files[ServerConfPath := UpdatedConfig(files[ServerConfPath], block)]
    else files
  }

  /**
   * `add_peer_to_server_config`. With WIREGUARD_PATH missing, `os.listdir`
   * raises before `existing_peers` is bound and the `except` clause itself
   * fails, so the call raises (`None`). Otherwise the answer is the address
   * for the current peer count, and wg0.conf, when it is a readable file,
   * receives the block; a missing wg0.conf is reported and left alone.
   */
  method AddPeerToServerConfig(fs: FileStore, name: string, publicKey: string, presharedKey: string)
    returns (ip: Option<string>)
    requires fs.Valid()
    modifies fs
    ensures fs.Valid()
    ensures ip.None? <==> [] !in old(fs.dirs)
    ensures ip.Some? ==> ip.value == PeerAddress(old(PeerCount(fs)))
    ensures fs.dirs == old(fs.dirs)
    ensures fs.files == if ip.Some? then WithBlock(old(fs.files), PeerBlock(name, publicKey, presharedKey, ip.value))
                        else old(fs.files)
  {
    var listing := fs.ListRoot();
    if listing.None? {
      return None;
    }
    PeerEntriesCount(fs, listing.value);
    var existing := |PeerEntries(fs, listing.value)|;
    var address := PeerAddress(existing);
    var block := PeerBlock(name, publicKey, presharedKey, address);
    var read := fs.Read(ServerConfPath);
    if read.None? {
      return Some(address);
    }
    var updated := SpliceBlock(read.value, block);
    var ok := fs.WriteFile(ServerConfPath, updated);
    return Some(address);
  }

  /**
   * The text `add_peer_to_server_config` writes back: the block spliced in
   * before the closing lines when the stripped text ends with `]`, otherwise
   * appended.
   */
  method SpliceBlock(current: string, block: string) returns (updated: string)
    ensures updated == UpdatedConfig(current, block)
  {
    if EndsWith(Strip(current), ']') {
      var newLines := SpliceLines(Split(current, '\n'), block, Contains(current, block));
      updated := Join(newLines, '\n');
    } else {
      updated := current + block;
    }
  }

  /** One more line through the loop. */
  lemma SplicedStep(lines: seq<string>, i: nat, block: string, present: bool)
    requires i < |lines|
    ensures Spliced(lines[..i + 1], block, present)
      == Spliced(lines[..i], block, present) + (if IsCloser(lines[i]) && !present then [block, "]"] else [lines[i]])
  {
    assert lines[..i + 1] == lines[..i] + [lines[i]];
    SplicedSnoc(lines[..i], lines[i], block, present);
  }

  /** The `for line in lines` loop of `add_peer_to_server_config`. */
  method SpliceLines(lines: seq<string>, block: string, present: bool) returns (newLines: seq<string>)
    ensures newLines == Spliced(lines, block, present)
  {
    newLines := [];
    for i := 0 to |lines|
      invariant newLines == Spliced(lines[..i], block, present)
    {
      var line := lines[i];
      SplicedStep(lines, i, block, present);
      if IsCloser(line) && !present {
        newLines := newLines + [block, "]"];
      } else {
        newLines := newLines + [line];
      }
    }
    assert lines[..|lines|] == lines;
  }
}
