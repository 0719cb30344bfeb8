/**
 * The integer logic of `PrometheusService` (backend/services/prometheus_service.py)
 * with the queries taken out: query answers arrive as values, the current time
 * as a whole number of seconds, and rates and byte counts as integers.
 */
module PrometheusService {
  import opened Wrappers
  import opened Text

  // ---------------------------------------------------------------------------
  // get_peer_stats: handshake age and status
  // ---------------------------------------------------------------------------

  /** A peer counts as active for three minutes after its last handshake. */
  const ActiveWindow: int := 180

  /**
   * `is_active`: a recorded handshake (a positive timestamp) less than three
   * minutes before `now`; a peer that never shook hands is inactive.
   */
  predicate IsActive(now: int, handshake: int) {
    handshake > 0 && now - handshake < ActiveWindow
  }

  /** How `time_since_handshake` splits an age in seconds. */
  datatype Age =
    | Seconds(age: int)
    | MinutesSeconds(minutes: nat, seconds: nat)
    | HoursMinutes(hours: nat, minutes: nat)

  /**
   * The three branches of the formatter: below a minute the seconds (negative
   * for a handshake in the future); below an hour whole minutes and the
   * seconds left; otherwise whole hours and the minutes left, the seconds
   * dropped.
   */
  function AgeOf(s: int): (a: Age)
    ensures a.Seconds? <==> s < 60
    ensures a.Seconds? ==> a.age == s
    ensures a.MinutesSeconds? <==> 60 <= s < 3600
    ensures a.MinutesSeconds? ==> 1 <= a.minutes < 60 && a.seconds < 60 && a.minutes * 60 + a.seconds == s
    ensures a.HoursMinutes? <==> s >= 3600
    ensures a.HoursMinutes? ==>
              a.hours >= 1 && a.minutes < 60
              && a.hours * 3600 + a.minutes * 60 <= s < a.hours * 3600 + a.minutes * 60 + 60
  {
    if s < 60 then Seconds(s)
    else if s < 3600 then MinutesSeconds(s / 60, s % 60)
    else HoursMinutes(s / 3600, (s % 3600) / 60)
  }

  /** The f-strings `"{s}s"`, `"{m}m {s}s"` and `"{h}h {m}m"`. */
  function Render(a: Age): string {
    match a
    case Seconds(s) => IntToString(s) + "s"
    case MinutesSeconds(m, s) => NatToString(m) + "m " + NatToString(s) + "s"
    case HoursMinutes(h, m) => NatToString(h) + "h " + NatToString(m) + "m"
  }

  /** `time_since_handshake`: `None` without a recorded handshake, else the rendered age. */
  function TimeSince(now: int, handshake: int): (r: Option<string>)
    ensures r.None? <==> handshake <= 0
    ensures r.Some? ==> r.value == Render(AgeOf(now - handshake))
  {
    if handshake > 0 then Some(Render(AgeOf(now - handshake))) else None
  }

  /** The numeric part of one `"<digits><unit>"` piece. */
  function Numeral(piece: string, unit: char): Option<nat> {
    if |piece| >= 2 && piece[|piece| - 1] == unit && forall i :: 0 <= i < |piece| - 1 ==> IsDigit(piece[i]) then
      Some(ParseNat(piece[..|piece| - 1]))
    else None
  }

  /** Reads a rendered age back (non-negative ages only). */
  function ParseAge(text: string): Option<Age> {
    var pieces := Split(text, ' ');
    if |pieces| == 1 then
      match Numeral(pieces[0], 's')
      case Some(s) => Some(Seconds(s))
      case None => None
    else if |pieces| == 2 then
      match (Numeral(pieces[0], 'm'), Numeral(pieces[1], 's'), Numeral(pieces[0], 'h'), Numeral(pieces[1], 'm'))
      case (Some(m), Some(s), _, _) => Some(MinutesSeconds(m, s))
      case (_, _, Some(h), Some(m)) => Some(HoursMinutes(h, m))
      case _ => None
    else None
  }

  lemma NumeralOf(n: nat, unit: char)
    requires !IsDigit(unit)
    ensures Numeral(NatToString(n) + [unit], unit) == Some(n)
  {
    var piece := NatToString(n) + [unit];
    assert piece[..|piece| - 1] == NatToString(n);
    ParseNatToString(n);
  }

  lemma NumeralWrongUnit(n: nat, unit: char, other: char)
    requires unit != other
    ensures Numeral(NatToString(n) + [unit], other) == None
  {
  }

  /** A rendered piece holds no blank. */
  lemma NoBlank(n: nat, unit: char)
    requires unit != ' '
    ensures ' ' !in NatToString(n) + [unit]
  {
    assert forall i :: 0 <= i < |NatToString(n)| ==> NatToString(n)[i] != ' ';
  }

  /**
   * The text of a non-negative age determines its split: reading it back gives
   * the minutes and seconds, or hours and minutes, it was made from.
   */
  lemma ParseRenderedAge(s: nat)
    ensures ParseAge(Render(AgeOf(s))) == Some(AgeOf(s))
  {
    match AgeOf(s)
    case Seconds(x) => ParseSeconds(s);
    case MinutesSeconds(m, x) => ParseMinutesSeconds(m, x);
    case HoursMinutes(h, m) => ParseHoursMinutes(h, m);
  }

  lemma ParseSeconds(s: nat)
    ensures ParseAge(Render(Seconds(s))) == Some(Seconds(s))
  {
    assert Render(Seconds(s)) == NatToString(s) + ['s'];
    NoBlank(s, 's');
    SplitNoSep(NatToString(s) + ['s'], ' ');
    NumeralOf(s, 's');
  }

  lemma ParseMinutesSeconds(m: nat, x: nat)
    ensures ParseAge(Render(MinutesSeconds(m, x))) == Some(MinutesSeconds(m, x))
  {
    assert Render(MinutesSeconds(m, x)) == NatToString(m) + ['m'] + " " + NatToString(x) + ['s'];
    TwoPieces(m, 'm', x, 's');
    NumeralOf(m, 'm');
    NumeralOf(x, 's');
  }

  lemma ParseHoursMinutes(h: nat, m: nat)
    ensures ParseAge(Render(HoursMinutes(h, m))) == Some(HoursMinutes(h, m))
  {
    assert Render(HoursMinutes(h, m)) == NatToString(h) + ['h'] + " " + NatToString(m) + ['m'];
    TwoPieces(h, 'h', m, 'm');
    NumeralOf(h, 'h');
    NumeralOf(m, 'm');
    NumeralWrongUnit(h, 'h', 'm');
  }

  lemma TwoPieces(a: nat, u: char, b: nat, v: char)
    requires u != ' ' && v != ' '
    ensures Split(NatToString(a) + [u] + " " + NatToString(b) + [v], ' ') == [NatToString(a) + [u], NatToString(b) + [v]]
  {
    var first := NatToString(a) + [u];
    var second := NatToString(b) + [v];
    NoBlank(a, u);
    NoBlank(b, v);
    assert NatToString(a) + [u] + " " + NatToString(b) + [v] == first + [' '] + second;
    SplitFirstPieces(first, second, ' ');
    SplitNoSep(second, ' ');
  }

  /** A handshake in the future renders as a negative number of seconds. */
  lemma FutureHandshake(now: int, handshake: int)
    requires 0 < now < handshake
    ensures IsActive(now, handshake)
    ensures var text := TimeSince(now, handshake).value; text[0] == '-' && text[|text| - 1] == 's'
  {
  }

  /** The part of `stats` this model keeps. */
  datatype PeerStats = PeerStats(
    sentBytes: int, receivedBytes: int, totalBytes: int,
    lastHandshakeTimestamp: int, timeSinceHandshake: Option<string>,
    isActive: bool, status: string)

  /**
   * `get_peer_stats` after its queries: each value is the first result of its
   * query, 0 when the query found nothing.
   */
  function PeerStatsOf(now: int, sent: Option<int>, received: Option<int>, handshake: Option<int>): (r: PeerStats)
    ensures r.sentBytes == sent.GetOr(0) && r.receivedBytes == received.GetOr(0)
    ensures r.totalBytes == r.sentBytes + r.receivedBytes
    ensures r.lastHandshakeTimestamp == handshake.GetOr(0)
    ensures r.isActive <==> r.lastHandshakeTimestamp > 0 && now - r.lastHandshakeTimestamp < 180
    ensures r.status == (if r.isActive then "active" else "inactive")
    ensures r.lastHandshakeTimestamp <= 0 ==> !r.isActive && r.timeSinceHandshake.None?
    ensures r.lastHandshakeTimestamp > 0 ==> r.timeSinceHandshake == Some(Render(AgeOf(now - r.lastHandshakeTimestamp)))
  {
    var s := sent.GetOr(0);
    var v := received.GetOr(0);
    var ts := handshake.GetOr(0);
    var active := IsActive(now, ts);
    PeerStats(s, v, s + v, ts, TimeSince(now, ts), active, if active then "active" else "inactive")
  }

  /**
   * The answer of an instant `query`: the error dictionary a failed request
   * turns into, or the status flag with the value of the first result (`None`
   * for an empty result list).
   */
  datatype InstantAnswer = InstantError | InstantOk(success: bool, first: Option<int>)

  /** `get_peer_stats`'s outcomes: no statistics (`None`), the statistics, or a raised `KeyError`. */
  datatype StatsAnswer = NoStats | Stats(stats: PeerStats) | StatsRaised

  /**
   * `get_peer_stats`. An error in the sent or received query, or a sent query
   * without success status, gives `None`. The handshake query is not checked:
   * its error dictionary has no `data`, and reading it raises.
   */
  function GetPeerStats(now: int, sent: InstantAnswer, received: InstantAnswer, handshake: InstantAnswer)
    : (r: StatsAnswer)
    ensures r.NoStats? <==> sent.InstantError? || received.InstantError? || !sent.success
    ensures r.StatsRaised? <==> !r.NoStats? && handshake.InstantError?
    ensures r.Stats? ==> r.stats == PeerStatsOf(now, sent.first, received.first, handshake.first)
  {
    if sent.InstantError? || received.InstantError? || !sent.success then NoStats
    else if handshake.InstantError? then StatsRaised
    else Stats(PeerStatsOf(now, sent.first, received.first, handshake.first))
  }

  // ---------------------------------------------------------------------------
  // get_summary: inactive peers
  // ---------------------------------------------------------------------------

  /** `max(0, total_peers - active_peers)`. */
  function InactivePeers(total: int, active: int): (r: nat)
    ensures r >= total - active
    ensures r == 0 || r == total - active
  {
    if total - active > 0 then total - active else 0
  }

  /** With the active peers among the total, active and inactive add up to the total. */
  lemma InactiveComplement(total: int, active: int)
    requires 0 <= active <= total
    ensures InactivePeers(total, active) + active == total
  {
  }

  /** More active peers never mean more inactive ones. */
  lemma InactiveAntitone(total: int, active: int, active': int)
    requires active <= active'
    ensures InactivePeers(total, active') <= InactivePeers(total, active)
  {
  }

  // ---------------------------------------------------------------------------
  // get_peer_history: the timestamp merge
  // ---------------------------------------------------------------------------

  /** One `[timestamp, value]` pair of a range series. */
  datatype Sample = Sample(timestamp: int, value: int)

  /**
   * The answer of `query_range`: an error, or a status flag with the result
   * list, each result given by its samples.
   */
  datatype RangeAnswer = RangeError | RangeOk(success: bool, results: seq<seq<Sample>>)

  /** The samples the history reads: the first result's, when the status is success. */
  function SamplesOf(answer: RangeAnswer): seq<Sample> {
    if answer.RangeOk? && answer.success && |answer.results| > 0 then answer.results[0] else []
  }

  /** The dictionary the `for value in ...` loop builds: a later sample overwrites an earlier one. */
  function SeriesMap(samples: seq<Sample>): map<int, int> {
    if samples == [] then map[]
    else
      var last := samples[|samples| - 1];
      SeriesMap(samples[..|samples| - 1])[last.timestamp := last.value]
  }

  /** The timestamps of a series, in sample order: `list(data.keys())` before deduplication. */
  function Timestamps(samples: seq<Sample>): (ts: seq<int>)
    ensures |ts| == |samples| && forall i :: 0 <= i < |samples| ==> ts[i] == samples[i].timestamp
  {
    seq(|samples|, i requires 0 <= i < |samples| => samples[i].timestamp)
  }

  /** The dictionary holds exactly the series' timestamps. */
  lemma {:induction false} SeriesMapKeys(samples: seq<Sample>)
    ensures forall t :: t in SeriesMap(samples) <==> t in Timestamps(samples)
  {
    if samples != [] {
      var init := samples[..|samples| - 1];
      SeriesMapKeys(init);
      assert Timestamps(samples) == Timestamps(init) + [samples[|samples| - 1].timestamp];
    }
  }

  /** Each timestamp maps to the value of its last sample. */
  lemma {:induction false} SeriesMapLastWins(samples: seq<Sample>, i: int)
    requires 0 <= i < |samples|
    requires forall j :: i < j < |samples| ==> samples[j].timestamp != samples[i].timestamp
    ensures samples[i].timestamp in SeriesMap(samples)
    ensures SeriesMap(samples)[samples[i].timestamp] == samples[i].value
  {
    if i < |samples| - 1 {
      var init := samples[..|samples| - 1];
      assert init[i] == samples[i];
      SeriesMapLastWins(init, i);
    }
  }

  /** The dictionary-filling loop. */
  method FillSeries(samples: seq<Sample>) returns (data: map<int, int>)
    ensures data == SeriesMap(samples)
    ensures forall t :: t in data <==> t in Timestamps(samples)
  {
    data := map[];
    for i := 0 to |samples|
      invariant data == SeriesMap(samples[..i])
    {
      data := data[samples[i].timestamp := samples[i].value];
      assert samples[..i + 1][..i] == samples[..i];
    }
    assert samples[..|samples|] == samples;
    SeriesMapKeys(samples);
  }

  predicate StrictlyIncreasing(s: seq<int>) {
    forall i, j :: 0 <= i < j < |s| ==> s[i] < s[j]
  }

  /** `x` put in its place in an increasing sequence, unless it is there already. */
  function Insert(ts: seq<int>, x: int): (r: seq<int>)
    requires StrictlyIncreasing(ts)
    ensures StrictlyIncreasing(r)
    ensures forall t :: t in r <==> t in ts || t == x
  {
    if ts == [] then [x]
    else if x < ts[0] then [x] + ts
    else if x == ts[0] then ts
    else
      var rest := Insert(ts[1..], x);
      assert forall i :: 0 <= i < |rest| ==> ts[0] < rest[i] by {
        forall i | 0 <= i < |rest|
          ensures ts[0] < rest[i]
        {
          assert rest[i] in rest;
          if rest[i] != x {
            var k :| 0 <= k < |ts[1..]| && ts[1..][k] == rest[i];
            assert ts[k + 1] == rest[i];
          }
        }
      }
      [ts[0]] + rest
  }

  /** `sorted(set(...))`: the values in increasing order, each once. */
  method SortedUnique(xs: seq<int>) returns (ts: seq<int>)
    ensures StrictlyIncreasing(ts)
    ensures forall t :: t in ts <==> t in xs
  {
    ts := [];
    for i := 0 to |xs|
      invariant StrictlyIncreasing(ts)
      invariant forall t :: t in ts <==> t in xs[..i]
    {
      ts := Insert(ts, xs[i]);
      assert xs[..i + 1] == xs[..i] + [xs[i]];
    }
    assert xs[..|xs|] == xs;
  }

  /** One history entry, without the float conversions. */
  datatype HistoryPoint = HistoryPoint(timestamp: int, sent: int, received: int)

  /** `dict.get(ts, 0)`. */
  function GetOrZero(data: map<int, int>, t: int): int {
    if t in data then data[t] else 0
  }

  /**
   * `get_peer_history` after its two range queries: `None` when either
   * answer is an error; otherwise one entry per timestamp of either series, in
   * increasing order, each with its sent and received value (0 where the
   * series has none, the last sample where it has several).
   */
  method GetPeerHistory(sentAnswer: RangeAnswer, receivedAnswer: RangeAnswer)
    returns (history: Option<seq<HistoryPoint>>)
    ensures history.None? <==> sentAnswer.RangeError? || receivedAnswer.RangeError?
    ensures history.Some? ==>
              var h := history.value;
              var sent := SeriesMap(SamplesOf(sentAnswer));
              var received := SeriesMap(SamplesOf(receivedAnswer));
              && (forall i, j :: 0 <= i < j < |h| ==> h[i].timestamp < h[j].timestamp)
              && (forall t :: (exists i :: 0 <= i < |h| && h[i].timestamp == t)
                               <==> t in Timestamps(SamplesOf(sentAnswer)) + Timestamps(SamplesOf(receivedAnswer)))
              && (forall i :: 0 <= i < |h| ==> h[i].sent == GetOrZero(sent, h[i].timestamp))
              && (forall i :: 0 <= i < |h| ==> h[i].received == GetOrZero(received, h[i].timestamp))
  {
    if sentAnswer.RangeError? || receivedAnswer.RangeError? {
      return None;
    }
    var sentData := FillSeries(SamplesOf(sentAnswer));
    var receivedData := FillSeries(SamplesOf(receivedAnswer));
    var all := SortedUnique(Timestamps(SamplesOf(sentAnswer)) + Timestamps(SamplesOf(receivedAnswer)));
    var h := [];
    for k := 0 to |all|
      invariant |h| == k
      invariant forall i :: 0 <= i < k ==> h[i] == HistoryPoint(all[i], GetOrZero(sentData, all[i]), GetOrZero(receivedData, all[i]))
    {
      h := h + [HistoryPoint(all[k], GetOrZero(sentData, all[k]), GetOrZero(receivedData, all[k]))];
    }
    forall t | t in all
      ensures exists i :: 0 <= i < |h| && h[i].timestamp == t
    {
      var i :| 0 <= i < |all| && all[i] == t;
      assert h[i].timestamp == t;
    }
    return Some(h);
  }

  // ---------------------------------------------------------------------------
  // get_peer_bandwidth: pairing the two rate series
  // ---------------------------------------------------------------------------

  /** One result of a rate query: the peer's key and its rate. */
  datatype Rate = Rate(publicKey: string, rate: int)

  /** One entry of `bandwidth_list`, without the unit conversions. */
  datatype Bandwidth = Bandwidth(publicKey: string, sent: int, received: int, total: int)

  /** The inner loop's answer: the rate of the first received result with the key, else 0. */
  function ReceivedRate(received: seq<Rate>, key: string): (r: int)
    ensures (forall i :: 0 <= i < |received| ==> received[i].publicKey != key) ==> r == 0
    ensures forall i :: (0 <= i < |received| && received[i].publicKey == key
                         && forall j :: 0 <= j < i ==> received[j].publicKey != key) ==> r == received[i].rate
  {
    if received == [] then 0
    else if received[0].publicKey == key then received[0].rate
    else
      var r := ReceivedRate(received[1..], key);
      assert forall i :: 1 <= i < |received| ==> received[i] == received[1..][i - 1];
      r
  }

  /** The inner `for recv_metric ...: if ...: ...; break` loop. */
  method FindReceivedRate(received: seq<Rate>, key: string) returns (r: int)
    ensures r == ReceivedRate(received, key)
  {
    r := 0;
    var i := 0;
    while i < |received|
      invariant 0 <= i <= |received|
      invariant ReceivedRate(received, key) == ReceivedRate(received[i..], key)
    {
      assert received[i..][1..] == received[i + 1..];
      if received[i].publicKey == key {
        r := received[i].rate;
        break;
      }
      i := i + 1;
    }
  }

  /** The outer loop: one entry per sent result, in order. */
  method BandwidthList(sent: seq<Rate>, received: seq<Rate>) returns (list: seq<Bandwidth>)
    ensures |list| == |sent|
    ensures forall i :: 0 <= i < |sent| ==>
              var r := ReceivedRate(received, sent[i].publicKey);
              list[i] == Bandwidth(sent[i].publicKey, sent[i].rate, r, sent[i].rate + r)
  {
    list := [];
    for i := 0 to |sent|
      invariant |list| == i
      invariant forall k :: 0 <= k < i ==>
                  var r := ReceivedRate(received, sent[k].publicKey);
                  list[k] == Bandwidth(sent[k].publicKey, sent[k].rate, r, sent[k].rate + r)
    {
      var r := FindReceivedRate(received, sent[i].publicKey);
      list := list + [Bandwidth(sent[i].publicKey, sent[i].rate, r, sent[i].rate + r)];
    }
  }

  /** `get_peer_bandwidth`'s two answer shapes: one peer's entry, or the whole list. */
  datatype BandwidthAnswer = ForPeer(entry: Option<Bandwidth>) | ForAll(list: seq<Bandwidth>)

  /**
   * `get_peer_bandwidth`. `sentAnswer`/`receivedAnswer` are the rate query
   * results, `None` for an error. With a key (a non-empty one, Python's
   * truthiness) the answer is the first entry for that key, or `None`;
   * without one, the list; an error gives `None` or `[]` accordingly.
   */
  method GetPeerBandwidth(sentAnswer: Option<seq<Rate>>, receivedAnswer: Option<seq<Rate>>, key: string)
    returns (answer: BandwidthAnswer)
    ensures key != [] <==> answer.ForPeer?
    ensures sentAnswer.None? || receivedAnswer.None? ==> answer == ForPeer(None) || answer == ForAll([])
    ensures answer.ForPeer? && answer.entry.Some? ==>
              sentAnswer.Some? && receivedAnswer.Some? && answer.entry.value.publicKey == key
              && answer.entry.value.received == ReceivedRate(receivedAnswer.value, key)
              && answer.entry.value.total == answer.entry.value.sent + answer.entry.value.received
              && exists i :: && 0 <= i < |sentAnswer.value| && sentAnswer.value[i] == Rate(key, answer.entry.value.sent)
                             && forall j :: 0 <= j < i ==> sentAnswer.value[j].publicKey != key
    ensures answer.ForPeer? && answer.entry.None? && sentAnswer.Some? && receivedAnswer.Some? ==>
              forall i :: 0 <= i < |sentAnswer.value| ==> sentAnswer.value[i].publicKey != key
    ensures answer.ForAll? && sentAnswer.Some? && receivedAnswer.Some? ==>
              && |answer.list| == |sentAnswer.value|
              && forall i :: 0 <= i < |sentAnswer.value| ==>
                   var sent := sentAnswer.value[i];
                   var received := ReceivedRate(receivedAnswer.value, sent.publicKey);
                   answer.list[i] == Bandwidth(sent.publicKey, sent.rate, received, sent.rate + received)
  {
    if sentAnswer.None? || receivedAnswer.None? {
      return if key != [] then ForPeer(None) else ForAll([]);
    }
    var list := BandwidthList(sentAnswer.value, receivedAnswer.value);
    if key != [] {
      for i := 0 to |list|
        invariant forall k :: 0 <= k < i ==> sentAnswer.value[k].publicKey != key
      {
        if list[i].publicKey == key {
          assert sentAnswer.value[i] == Rate(key, list[i].sent);
          return ForPeer(Some(list[i]));
        }
      }
      return ForPeer(None);
    }
    return ForAll(list);
  }
}
