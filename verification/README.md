# Lightway VPN peer management, modelled in Dafny

This project models the backend of a small WireGuard management service. The
service keeps its state in one directory, WIREGUARD_PATH. That directory holds
one sub-directory per peer, a downloadable `<name>.conf` per peer, and the
server configuration `wg_confs/wg0.conf`. The model covers:

- **The file store** (`store.dfy`). The directory is a class holding a map
  from path to text and a set of directories. Each method stands for one
  `os`/`shutil` call, and Python's exceptions become a `false` or `None`
  answer.
- **The peer registry** (`helpers.dfy`):
  - `sanitize_peer_name`;
  - `peer_exists`;
  - `list_existing_peers`, whose loop over `os.listdir` becomes a method with
    an invariant.
- **The server configuration mutator** (`wireguard_service.dfy`),
  `add_peer_to_server_config`. It allocates the address from the peer count,
  renders the `[Peer]` block, splices it in before the bare `]` lines or
  appends it, and applies the substring duplicate guard.
- **The peer artifacts** (`config_service.dfy`):
  - the server key with its placeholder fallback;
  - the `peer.conf` and `<name>.conf` templates;
  - the methods that write the peer directory and the downloadable
    configuration.
- **The peer routes** (`peers.dfy`, `peer_lookup.dfy`). The steps of
  `add_peer` and `delete_peer` run in the source's order. The three-source
  public-key lookup has its line scanners. The `hours` clamp comes from
  `get_peer_metrics`. HTTP replies become datatypes.
- **Scenarios** (`scenarios.dfy`). These are runs from a freshly deployed
  directory:
  - two peers receive `192.0.0.2` and `192.0.0.3`;
  - an address comes back into use after a delete, because the allocator
    counts peers instead of looking at the addresses in use;
  - a name made only of dropped characters deletes the whole directory.
- **The integer logic of the Prometheus service** (`prometheus_service.dfy`):
  - the handshake age and its text;
  - the active status;
  - the statistics record and its error paths;
  - the inactive-peer count;
  - the history timestamp merge;
  - the pairing of sent and received rates.

Keys, the current time and the answers of Prometheus are parameters.
`remove_peer_from_server_config` is called by `delete_peer` but defined nowhere
in the code, so the route as written always fails with a 500 before deleting
anything. `DeletePeer` models the route as if that method existed: it receives
the method's `(success, message)` answer as two parameters, and the method's
effect on wg0.conf is not modelled.

Some source behaviour is proved as it stands rather than corrected:

- The address allocator reuses addresses after a delete. It also goes past
  `.255` once 254 peers exist.
- A configuration that ends in `]` without a bare `]` line is written back
  unchanged, and the peer is silently not added to it.
- The appending branch of the mutator has no duplicate guard.
- Option 2 of the key lookup answers the server's key, not the peer's.
- Option 3 matches `# <name>` as a substring, so it also matches the section of
  a longer name.
- `split('=')[1]` drops base64 padding.
- A name that sanitizes to the empty string names WIREGUARD_PATH itself, and
  deleting it removes the whole directory.

## Model

| member | source | states |
|---|---|---|
| Store.PathOf | backend/utils/helpers.py:9 | joining components to WIREGUARD_PATH keeps exactly the non-empty components (so joining `""` gives WIREGUARD_PATH itself), and all of them in order when none is empty; a path has no empty component |
| Store.FileStore.Read | backend/services/config_service.py:12-13 | reading a path answers text exactly when the path is a file |
| Store.FileStore.ListRoot | backend/utils/helpers.py:16-21 | `os.listdir` fails exactly when WIREGUARD_PATH is missing; otherwise it lists every root entry once and nothing else |
| Store.FileStore.WriteFile | backend/services/config_service.py:31-38 | a write succeeds exactly when the parent directory exists and the path is not a directory; it replaces or creates that one file and keeps the store consistent |
| Store.FileStore.MakeDirs | backend/services/config_service.py:28 | `makedirs(exist_ok=True)` succeeds exactly when no prefix of the path is a file; it adds the path and all its ancestors and changes no file |
| Store.FileStore.RemoveTree | backend/routes/peers.py:251-253 | `rmtree` succeeds exactly when the path is a directory; it removes every directory and file below it and nothing else |
| Store.FileStore.RemoveFile | backend/routes/peers.py:256-258 | `os.remove` succeeds exactly when the path is a file and removes only that file |
| Text.JoinSplit | backend/services/wireguard_service.py:32-40 | joining the pieces of a split on the same separator gives the text back |
| Text.SplitJoin | backend/services/config_service.py:42-52 | splitting a join of separator-free lines gives the lines back |
| Text.StripAround | backend/services/config_service.py:13 | `strip` removes exactly the surrounding whitespace of a text |
| Text.ParseNatToString | backend/services/wireguard_service.py:15 | the decimal text of a number reads back as that number |
| Helpers.SanitizePeerName | backend/utils/helpers.py:3-5 | the sanitized name is no longer than the input, made only of lower-case letters, digits, `-` and `_`, and holds neither `/` nor `.` |
| Helpers.SanitizeAppend | backend/utils/helpers.py:5 | sanitizing works character by character and keeps the order of the kept characters |
| Helpers.SanitizeChar | backend/utils/helpers.py:5 | one character is kept lower-cased when alphanumeric, `-` or `_`, and is dropped otherwise |
| Helpers.SanitizeFixedPoint | backend/utils/helpers.py:5 | a name is left unchanged exactly when it is already made of name characters (both directions) |
| Helpers.SanitizeIdempotent | backend/utils/helpers.py:5 | sanitizing twice equals sanitizing once |
| Helpers.SanitizeAllDropped | backend/utils/helpers.py:3-5 | a name made only of dropped characters (`../`) sanitizes to the empty name |
| Helpers.PeerExists | backend/utils/helpers.py:7-10 | `peer_exists`: the joined path exists, as a file or as a directory (its cases are stated by PeerExistsCases) |
| Helpers.PeerExistsCases | backend/utils/helpers.py:7-10 | `peer_exists` holds for a file as well as a directory; for the empty name it tests WIREGUARD_PATH itself |
| Helpers.PeerNamesAdd | backend/services/config_service.py:27-28 | making a peer directory adds exactly that name to the peers, unless the name is reserved |
| Helpers.PeerNamesRemove | backend/routes/peers.py:251-253 | removing the tree of a top-level directory removes exactly that name from the peers |
| Helpers.PeerEntriesMembers | backend/utils/helpers.py:16-18 | the comprehension keeps exactly the listed entries that are directories and not `server`, `templates` or `wg_confs`, and a duplicate-free listing gives a duplicate-free answer |
| Helpers.PeerEntriesCount | backend/services/wireguard_service.py:13-14 | over a complete listing of WIREGUARD_PATH the comprehension yields each peer directory once, so its length is the peer count |
| Helpers.ListExistingPeers | backend/utils/helpers.py:12-21 | the answer is every peer directory once, and nothing else; a missing WIREGUARD_PATH gives `[]` |
| WireGuardService.PeerAddress | backend/services/wireguard_service.py:15 | the address is `192.0.0.` followed by decimal digits that read back as the peer count plus two |
| WireGuardService.PeerAddressInjective | backend/services/wireguard_service.py:13-15 | different peer counts give different addresses |
| WireGuardService.PeerBlock | backend/services/wireguard_service.py:18-24 | the peer block starts with a newline |
| WireGuardService.PeerBlockText | backend/services/wireguard_service.py:18-24 | the block is, character for character, a newline, `[Peer]`, `# <name>`, the public key, the preshared key and `AllowedIPs = <ip>/32`, each followed by a newline |
| WireGuardService.Spliced | backend/services/wireguard_service.py:33-39 | the `for line in lines` loop as a function: each closing line becomes the block and `]` unless the block was present, every other line is copied (SplicedLength, SplicedShape, SplicedHasBlock, SplicedUnchanged state its properties) |
| WireGuardService.SplicedLength | backend/services/wireguard_service.py:33-39 | the loop adds two lines per closing line when the block is new, and none when it is present |
| WireGuardService.UpdatedConfig | backend/services/wireguard_service.py:31-42 | the new wg0.conf text: the splice when the stripped text ends in `]`, the old text followed by the block otherwise (UpdatedContainsBlock, UpdatedKnownBlock, UpdatedAppends state its properties) |
| WireGuardService.SplicedUnchanged | backend/services/wireguard_service.py:31-40 | when the block is already present, or no line is a bare `]`, the loop copies every line unchanged |
| WireGuardService.SplicedShape | backend/services/wireguard_service.py:34-39 | with a new block the loop adds one copy per `]` line; removing those copies gives the original lines in order, with each closing line written as `]` |
| WireGuardService.SplicedHasBlock | backend/services/wireguard_service.py:34-39 | a new block is inserted exactly when some line is a closing line |
| WireGuardService.UpdatedContainsBlock | backend/services/wireguard_service.py:31-42 | after the update the block is in wg0.conf exactly when the text was appended, the block was already there, or a closing line received it |
| WireGuardService.UpdatedKnownBlock | backend/services/wireguard_service.py:31-40 | in the splicing branch, a configuration that already holds the block is written back unchanged |
| WireGuardService.UpdatedAppends | backend/services/wireguard_service.py:41-42 | in the appending branch the old text is a prefix of the new one, which is longer by exactly the block and contains it |
| WireGuardService.SpliceLines | backend/services/wireguard_service.py:33-39 | the loop builds exactly the line list `Spliced` describes, so SplicedUnchanged, SplicedShape and SplicedHasBlock hold of its result |
| WireGuardService.SpliceBlock | backend/services/wireguard_service.py:31-42 | the text written back is `UpdatedConfig` of the old text and the block, so UpdatedContainsBlock, UpdatedKnownBlock and UpdatedAppends hold of it |
| WireGuardService.WithBlock | backend/services/wireguard_service.py:26-46 | the store after wg0.conf receives a block: wg0.conf, when it is a file, holds the updated text; no path appears or disappears and every other file keeps its contents |
| WireGuardService.AddPeerToServerConfig | backend/services/wireguard_service.py:7-55 | the call fails exactly when WIREGUARD_PATH is missing; otherwise it answers the address for the peer count before the call, replaces wg0.conf (when it is a file) by the updated text, and changes nothing else |
| ConfigService.GetServerPublicKey | backend/services/config_service.py:6-20 | the answer is the stripped server key file, or the placeholder when that path is not a readable file; it never raises |
| ConfigService.ServerKeyRoundTrip | backend/services/config_service.py:11-14 | a key written with surrounding whitespace reads back as the key |
| ConfigService.ServerKeyStripped | backend/services/config_service.py:11-16 | the answer has no surrounding whitespace: stripping it again changes nothing |
| ConfigService.PeerConf | backend/services/config_service.py:42-52 | the `peer.conf` template, its lines joined by line breaks (PeerConfSplit and AddressRoundTrip read it back) |
| ConfigService.DownloadConf | backend/services/config_service.py:67-78 | the downloadable template, its lines joined by line breaks (DownloadConfSplit and AddressRoundTrip read it back) |
| ConfigService.DownloadConfAddsDns | backend/services/config_service.py:67-78 | the downloadable configuration is `peer.conf`'s lines with `DNS = 8.8.8.8` inserted after `ListenPort` |
| ConfigService.PeerConfSplit | backend/services/config_service.py:42-52 | `peer.conf` splits back into exactly its template lines when no field holds a line break |
| ConfigService.DownloadConfSplit | backend/services/config_service.py:67-78 | the same for the downloadable configuration |
| ConfigService.AddressRoundTrip | backend/services/config_service.py:43 | the first `Address` line of either configuration, with the text after its first `=` stripped, gives the peer's address back |
| ConfigService.CreatePeerDirectoryStructure | backend/services/config_service.py:22-61 | succeeds exactly when the peer directory can be made and none of the four files is a directory; then it adds the directory and writes the three keys and `peer.conf` (with the server key read after the key files), and nothing else; when `makedirs` raises nothing changes, and when a write raises the directory stays made and the writes before it stay done (DirFilesWritten) |
| ConfigService.WritePeerDirFiles | backend/services/config_service.py:31-55 | the four writes succeed exactly when none of the four paths is a directory; then they set the three key files and `peer.conf` (whose server key is read after the key files); whatever happens the files are DirFilesWritten of the old ones, and the directories stay as they were |
| ConfigService.DirFilesWritten | backend/services/config_service.py:31-55 | the four writes in order, each landing unless its path is a directory, the first failure ending the sequence |
| ConfigService.DirFilesWrittenElsewhere | backend/services/config_service.py:31-55 | whichever write fails, no path other than the four appears and every other file keeps its contents |
| ConfigService.DirFilesWrittenAll | backend/services/config_service.py:31-55 | when no write fails, exactly the four files are added |

| ConfigService.CreatePeerConfigFile | backend/services/config_service.py:63-84 | succeeds exactly when WIREGUARD_PATH exists and `<name>.conf` is not a directory; then it answers that path and writes the downloadable configuration there, and nothing else |
| PeerLookup.KeyFileLookup | backend/routes/peers.py:293-297 | option 1: a missing `publickey-<name>` gives no answer, a directory there raises, a file gives its stripped text |
| PeerLookup.ConfLookup | backend/routes/peers.py:299-306 | option 2: the first key line of `<name>.conf`, stripped; no answer when the file is missing or has no key line |
| PeerLookup.ServerLookup | backend/routes/peers.py:308-326 | option 3: the scan of wg0.conf, stripped; no answer when the file is missing |
| PeerLookup.KeyField | backend/routes/peers.py:306 | `split('=')[1].strip()` raises exactly when the line holds no `=`, and otherwise gives a stripped text |
| PeerLookup.KeyFieldDropsPadding | backend/routes/peers.py:322 | a `PublicKey = <key>==` line gives the key without its `=` padding |
| PeerLookup.ScanConf | backend/routes/peers.py:303-306 | a key found in `<name>.conf` is stripped |
| PeerLookup.ScanServer | backend/routes/peers.py:312-326 | a key found in wg0.conf is stripped |
| PeerLookup.PeerPublicKey | backend/routes/peers.py:287-332 | a readable key file decides the answer; with nothing found in all three places the answer is `None`; every key answered is stripped |
| PeerLookup.ConfLookupFindsServerKey | backend/routes/peers.py:299-306 | option 2 over a downloadable configuration answers the `PublicKey` line of its `[Peer]` section, the server's key |
| PeerLookup.ScanConfSkips | backend/routes/peers.py:303-304 | lines that are not key lines are passed over |
| PeerLookup.ScanServerSkips | backend/routes/peers.py:314-318 | lines that do not mention `# <name>` leave the section closed |
| PeerLookup.ScanServerFindsKey | backend/routes/peers.py:314-322 | the key on the line after the first line containing `# <name>` is answered, including for a longer name with the same start |
| PeerLookup.ScanServerStopsAtPeer | backend/routes/peers.py:314-326 | after the opener, lines that are neither key lines nor openers and then a `[Peer]` line give no answer, whatever follows (a later `PublicKey` line of another peer included) |
| PeerLookup.ScanServerPassesOver | backend/routes/peers.py:314-326 | inside the section, lines that neither open a section, hold a key nor start `[Peer]` are passed over |
| PeerLookup.ScanConfLines | backend/routes/peers.py:302-306 | the loop over `<name>.conf` answers what the scan function specifies |
| PeerLookup.ScanServerLines | backend/routes/peers.py:311-326 | the loop over wg0.conf with its `in_peer_section` flag answers what the scan function specifies |
| PeerLookup.GetPeerPublicKey | backend/routes/peers.py:287-332 | the three-step lookup answers what the lookup function specifies |
| Peers.AddPeer | backend/routes/peers.py:92-149 | a missing or empty name gives 400 and changes nothing; an existing sanitized name gives 400 "already exists" and changes nothing; otherwise the answer is 200 exactly when the service calls succeed, and then the reply carries the sanitized name and the address for the peer count before the call, the store gains the peer directory, the files are those of the wg0.conf update followed by the five peer files (AddedFiles), the lookup finds the stripped public key, and `<name>.conf` holds the downloadable configuration; a 500 leaves the writes done before the failing call (PeerFilesWritten) |
| Peers.CreatePeer | backend/routes/peers.py:112-118 | the three service calls succeed exactly when WIREGUARD_PATH exists and the peer's paths are free; on success they give the address, and the files are the wg0.conf update followed by the five peer files; whatever happens the new store is stated: unchanged when WIREGUARD_PATH is missing, otherwise the wg0.conf update followed by PeerFilesWritten |
| Peers.WritePeerFiles | backend/routes/peers.py:115-118 | the peer directory and the downloadable configuration are written exactly when their paths are free; the new files are PeerFilesWritten of the old ones, which on success is AddedFiles, and the directory is made exactly when `makedirs` goes through |
| Peers.AddedFiles | backend/routes/peers.py:115-118 | the files after a successful peer-file phase: the three keys, `peer.conf` and `<name>.conf`, both configurations with the server key read after the key files |
| Peers.PeerFilesWritten | backend/routes/peers.py:115-118 | the files after the peer-file phase whatever happens: nothing when `makedirs` raises, the directory writes up to the failing one, or all of them and then `<name>.conf` unless that path is a directory |
| Peers.AddedFilesWritten | backend/routes/peers.py:115-118 | when every step goes through, the sequence of writes gives AddedFiles |
| Peers.AddedFilesKeys | backend/routes/peers.py:115-118 | a successful peer-file phase adds exactly the peer's five paths |
| Peers.AddedFilesContents | backend/services/config_service.py:31-84 | each of the five files holds what was written to it; both configurations carry the server key as the store reads it afterwards |
| Peers.AddedFilesElsewhere | backend/routes/peers.py:115-118 | every file other than the peer's five keeps its contents |
| Peers.AddedServerConf | backend/routes/peers.py:112-118 | after a successful `add_peer` wg0.conf holds the updated configuration: no peer file overwrites it |

| Peers.DeleteRaises | backend/routes/peers.py:251-258 | `rmtree` or `os.remove` raises: a file stands where the peer directory should be, or a directory where `<name>.conf` should be |
| Peers.DeletePeer | backend/routes/peers.py:239-282 | a failed server-config removal gives 500 and touches nothing; otherwise the answer fails exactly when a file blocks the directory or a directory blocks `<name>.conf`; on success the peer's tree and `<name>.conf` are gone and everything else is kept; a failing `rmtree` changes nothing, and a failing `os.remove` leaves the tree already removed |
| Peers.NothingBelowMissing | backend/routes/peers.py:251-253 | in a consistent store nothing lies below a missing path, so skipping `rmtree` removes nothing |
| Peers.ClampHours | backend/routes/peers.py:214-216 | `hours` defaults to 1 and is lowered to 24 when above it; values up to 24 pass unchanged |
| Peers.ClampHoursIdempotent | backend/routes/peers.py:214-216 | clamping twice equals clamping once |
| Scenarios.TidyPeerExists | backend/utils/helpers.py:7-10 | in a directory the routes wrote, a plain name exists exactly when it is a peer |
| Scenarios.TidyAddSucceeds | backend/routes/peers.py:112-118 | in such a directory the service calls of `add_peer` succeed for a plain name |
| Scenarios.TidyAdd | backend/routes/peers.py:112-118 | adding a plain peer keeps the directory in that shape |
| Scenarios.TidyDeletes | backend/routes/peers.py:251-258 | in such a directory deleting a plain name never fails |
| Scenarios.AddPlain | backend/routes/peers.py:92-128 | a plain, new name is created with the address for the current count, and the peers gain that name |
| Scenarios.DeletePlain | backend/routes/peers.py:239-261 | a plain name is deleted and the peers lose that name |
| Scenarios.TwoPeers | backend/routes/peers.py:112-118 | from a fresh deployment two successive peers receive `192.0.0.2` and `192.0.0.3` |
| Scenarios.ReuseAfterDelete | backend/services/wireguard_service.py:13-15 | after adding `a` and `b` and deleting `a`, a new peer receives the address `b` holds |
| Scenarios.DeleteUnnamed | backend/routes/peers.py:243-258 | deleting a name made only of dropped characters succeeds and leaves no peer to list |
| PrometheusService.IsActive | backend/services/prometheus_service.py:104 | active exactly when a handshake is recorded (positive timestamp) less than 180 seconds before now |
| PrometheusService.Render | backend/services/prometheus_service.py:110-117 | the age text: `<s>s`, `<m>m <s>s` or `<h>h <m>m` (ParseRenderedAge reads it back) |
| PrometheusService.AgeOf | backend/services/prometheus_service.py:109-117 | below 60 the age stays seconds; below 3600 it is minutes and seconds, with seconds in 0..59 adding up to the age; otherwise it is hours and minutes, with minutes in 0..59, within a minute below the age |
| PrometheusService.TimeSince | backend/services/prometheus_service.py:107-117 | there is no text exactly when no handshake is recorded; otherwise the text is the rendered age |
| PrometheusService.ParseRenderedAge | backend/services/prometheus_service.py:110-117 | reading a rendered non-negative age back gives the split it was made from |
| PrometheusService.FutureHandshake | backend/services/prometheus_service.py:104-111 | a handshake in the future counts as active and renders as a negative number of seconds |
| PrometheusService.PeerStatsOf | backend/services/prometheus_service.py:84-134 | missing values default to 0; the total is sent plus received; active exactly when a handshake is recorded less than 180 seconds ago; the status follows that; without a handshake there is no age text |
| PrometheusService.GetPeerStats | backend/services/prometheus_service.py:65-136 | `None` exactly when the sent or received query failed or the sent status is not success; an unchecked failed handshake query raises; otherwise the statistics of the first results |
| PrometheusService.InactivePeers | backend/services/prometheus_service.py:264 | the count is never negative, is at least total minus active, and is either 0 or exactly that difference |
| PrometheusService.InactiveComplement | backend/services/prometheus_service.py:264 | with the active peers among the total, inactive plus active is the total |
| PrometheusService.InactiveAntitone | backend/services/prometheus_service.py:264 | more active peers never mean more inactive ones |
| PrometheusService.SeriesMapKeys | backend/services/prometheus_service.py:299-303 | the dictionary holds exactly the series' timestamps |
| PrometheusService.SeriesMapLastWins | backend/services/prometheus_service.py:301-303 | each timestamp maps to the value of its last sample |
| PrometheusService.FillSeries | backend/services/prometheus_service.py:299-310 | the loop builds the dictionary the function specifies, keyed by exactly the series' timestamps |
| PrometheusService.Insert | backend/services/prometheus_service.py:313 | inserting into a strictly increasing sequence keeps it strictly increasing and adds exactly that value |
| PrometheusService.SortedUnique | backend/services/prometheus_service.py:313 | `sorted(set(...))` is strictly increasing and holds exactly the input values |
| PrometheusService.GetPeerHistory | backend/services/prometheus_service.py:278-330 | `None` exactly when either range query failed; otherwise one entry per timestamp of either series, strictly increasing, each with that timestamp's sent and received value (0 when missing) |
| PrometheusService.ReceivedRate | backend/services/prometheus_service.py:163-168 | the first received result with the key gives the rate; 0 when no result has the key |
| PrometheusService.FindReceivedRate | backend/services/prometheus_service.py:163-168 | the inner loop with `break` answers what the function specifies |
| PrometheusService.BandwidthList | backend/services/prometheus_service.py:155-179 | one entry per sent result, in order, each pairing the sent rate with the matching received rate and their sum |
| PrometheusService.GetPeerBandwidth | backend/services/prometheus_service.py:139-188 | a non-empty key selects the single-peer answer; a failed query gives `None` or `[]`; a found entry is the first sent result with the key, with the received rate for that key and their sum; `None` means no sent result has the key; the list has one entry per sent result, in order, each pairing its sent rate with the received rate for its key and their sum |

## Left out

- HTTP and JSON plumbing are not modelled: Flask routing, request parsing and status codes. Replies are datatypes, and the routes in `metrics.py`, `server.py` and `wireguard.py` are not part of this model.
- `get_peer_config`, `list_peers` and the remaining steps of `get_peer_metrics` are left out. Only the `hours` clamp of `get_peer_metrics` is modelled.
- The background restart threads of `add_peer` and `delete_peer` are left out, because they are fire-and-forget concurrency.
- `reload_wireguard_config` and `restart_wireguard_container` are not modelled: they control an external process through Docker, and the reload is a no-op here.
- Key generation (`key_service.py`) is left out: the keys are parameters and are treated as opaque strings.
- The Prometheus HTTP requests are left out. Query answers are parameters, and so is the current time.
- `get_all_peers_metrics`, `get_active_peers` and `check_prometheus_health` are left out, because they only reshape query answers.
- Float values and `round` are not modelled. Byte counts, rates and timestamps are integers, and the MB, kbps and Mbps conversions are left out.
- `datetime.fromtimestamp(...).isoformat()` is left out.
- The fields `interface`, `allowed_ips` and `public_key` of the statistics record are left out.
- `remove_peer_from_server_config` is defined nowhere in the code. As written, `delete_peer` therefore raises `AttributeError` at backend/routes/peers.py:246, before it deletes anything, and always answers 500 from its `except` branch (lines 281-282). `DeletePeer` instead receives the `(success, message)` answer that method would give as two parameters and models the route as if the method existed. Its effect on wg0.conf is not modelled: that `DeletePeer` leaves wg0.conf alone follows only from taking that answer as a parameter.
- `app.py`, `ip.py` and the frontend are not part of this model.
- The real filesystem is not modelled: the store is in memory and sequential. Permissions, symbolic links, I/O errors other than those from the store's shape, and concurrent writers are left out.
- Helpers.SanitizePeerName: `isalnum` and `lower` are modelled over ASCII only. Python also keeps non-ASCII letters and digits.
- Python's universal-newline translation on reading (`\r\n` to `\n`) is not modelled.
- Exception message texts are not modelled: a raising service call becomes `AddFailed` or `DeleteFailed`, whose 500 reply text is `str(e)`.
- A JSON `name` that is not a string is not modelled.
- PrometheusService.ParseRenderedAge: covers non-negative ages only. A future handshake renders as a negative number of seconds; FutureHandshake states that case.
- PrometheusService.GetPeerStats: the received and handshake queries are read without checking their status flag, as in the source. A status other than success with a well-formed `data` is not distinguished from success.
- PrometheusService.GetPeerHistory: a series is read only when its status is success and its result list is not empty, otherwise it is empty. Timestamps are integers, where Prometheus gives floats.
- `get_summary`: only the inactive count is modelled. The other fields only copy or round query answers.
