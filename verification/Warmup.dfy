/**
 Refilling a dedup cache from the history of its partition (processors/warmup.py).
 Live calls use event times; the replay uses record timestamps.
 */
module Warmup {
  import opened Common
  import opened Events
  import opened Dedup

  datatype Replayer = Replayer(windowMs: int, maxRecords: int)

  /** A record timestamp, or the clock when the record has none. */
  function TimeOr(timestamp: int, now: int): int {
    if timestamp > 0 then timestamp else now
  }

  /** The first offset from low on whose record is not older than the cutoff; the end of the log if there is none. */
  function FirstSince(raw: RawLog, low: nat, cutoff: int): (o: nat)
    requires low <= |raw|
    ensures low <= o <= |raw|
    ensures o < |raw| ==> raw[o].timestamp >= cutoff
    ensures forall i :: low <= i < o ==> raw[i].timestamp < cutoff
    decreases |raw| - low
  {
    if low == |raw| || raw[low].timestamp >= cutoff then low else FirstSince(raw, low + 1, cutoff)
  }

  /**
   Where a replay up to until starts. Every record it leaves out is older than the window
   before the last committed record, or further back than the cap on records allows. The
   record it starts at is inside that window, unless the cap made it start later.
   */
  function StartOffset(w: Replayer, raw: RawLog, low: nat, until: nat, now: int): (start: Option<nat>)
    requires low <= |raw| && until <= |raw|
    ensures start.Some? ==> low <= start.value < until && until - start.value <= w.maxRecords
    ensures start.Some? ==>
              || until - start.value == w.maxRecords
              || var last := raw[until - 1].timestamp;
                 raw[start.value].timestamp >= (if last > 0 then last else now) - w.windowMs
    ensures forall i :: low <= i < (if start.Some? then start.value else until) ==>
              || (var last := raw[until - 1].timestamp;
                  raw[i].timestamp < (if last > 0 then last else now) - w.windowMs)
              || until - i > w.maxRecords
  {
    if until <= low then None
    else
      var cutoff := TimeOr(raw[until - 1].timestamp, now) - w.windowMs;
      var found := FirstSince(raw, low, cutoff);
      if found == |raw| then None
      else
        var start := Max(Max(found, low), until - w.maxRecords);
        if start < until then Some(start) else None
  }

  function Load(cfg: Config, c: Cache, record: RawRecord, now: int): Cache {
    match IdIn(record.payload)
    case None => c
    case Some(id) => AfterCall(cfg.maxIds, c, CallAt(cfg, id, TimeOr(record.timestamp, now)))
  }

  function LoadRange(cfg: Config, c: Cache, raw: RawLog, from: nat, to: nat, now: int): Cache
    requires from <= to <= |raw|
  {
    if from == to then c else Load(cfg, LoadRange(cfg, c, raw, from, to - 1, now), raw[to - 1], now)
  }

  /** The cache once [window start, until) has been replayed into it. */
  function Warmed(cfg: Config, c: Cache, w: Replayer, raw: RawLog, low: nat, until: nat, now: int): Cache
    requires low <= |raw| && until <= |raw|
  {
    match StartOffset(w, raw, low, until, now)
    case None => c
    case Some(start) => LoadRange(cfg, c, raw, start, until, now)
  }

  function Loadable(raw: RawLog, from: nat, to: nat): nat
    requires from <= to <= |raw|
  {
    if from == to then 0 else Loadable(raw, from, to - 1) + (if IdIn(raw[to - 1].payload).Some? then 1 else 0)
  }

  /** That is the number of records with a readable id. */
  lemma {:induction false} LoadableCounts(raw: RawLog, from: nat, to: nat)
    requires from <= to <= |raw|
    ensures Loadable(raw, from, to) == |set o: nat | from <= o < to && IdIn(raw[o].payload).Some?|
  {
    var readable := set o: nat | from <= o < to && IdIn(raw[o].payload).Some?;
    if from < to {
      LoadableCounts(raw, from, to - 1);
      var fewer := set o: nat | from <= o < to - 1 && IdIn(raw[o].payload).Some?;
      assert readable == fewer + if IdIn(raw[to - 1].payload).Some? then {to - 1} else {};
    } else {
      assert readable == {};
    }
  }

  datatype WarmupResult = WarmupResult(loaded: nat, skipped: nat, fromOffset: int, untilOffset: int)

  /** Replay into the cache, record by record, and account for each. */
  method Warm(cache: DedupCache, w: Replayer, raw: RawLog, low: nat, until: nat, now: int)
    returns (result: WarmupResult)
    requires low <= |raw| && until <= |raw|
    modifies cache
    ensures cache.Value() == Warmed(cache.cfg, old(cache.Value()), w, raw, low, until, now)
    ensures result.untilOffset == until
    ensures match StartOffset(w, raw, low, until, now)
            case None => result.loaded == result.skipped == 0 && result.fromOffset == -1
            case Some(start) =>
              && result.fromOffset == start && start <= until
              && result.loaded == Loadable(raw, start, until) && result.loaded + result.skipped == until - start
  {
    result := WarmupResult(0, 0, -1, until);
    if until <= 0 {
      return;
    }
    var start := StartOffset(w, raw, low, until, now);
    if start.None? {
      return;
    }
    result := result.(fromOffset := start.value);
    var offset := start.value;
    while offset < |raw|
      invariant start.value <= offset <= until
      invariant cache.Value() == LoadRange(cache.cfg, old(cache.Value()), raw, start.value, offset, now)
      invariant result.loaded == Loadable(raw, start.value, offset)
      invariant result.loaded + result.skipped == offset - start.value
      invariant result.fromOffset == start.value && result.untilOffset == until
    {
      if offset >= until {
        break;
      }
      var id := IdIn(raw[offset].payload);
      if id.Some? {
        var isNew := cache.IsNewId(id.value, TimeOr(raw[offset].timestamp, now));
        result := result.(loaded := result.loaded + 1);
      } else {
        result := result.(skipped := result.skipped + 1);
      }
      offset := offset + 1;
    }
  }
}

