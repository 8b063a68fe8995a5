/**
 The cleaner process for one raw partition (processors/cleaner.py and the batch of
 processors/transactional.py): each method is one step of the machine in Cleaner.
 */
module CleanerProcess {
  import opened Common
  import opened Events
  import opened Dedup
  import opened Warmup
  import opened Cleaner

  class CleanerProcess {
    const setup: Setup
    /** Kept by the broker: the group's offset and the committed records of the output topics. */
    var committed: Option<nat>
    var clean: seq<CleanEvent>
    var dead: seq<nat>
    /** Kept in memory. */
    var cache: DedupCache?
    var pos: nat
    var produced: nat
    var duplicates: nat
    var skipped: nat
    var rejected: nat
    ghost var evicted: bool
    ghost var highestLow: nat

    ghost predicate Valid()
      reads this, cache
    {
      cache != null ==> cache.cfg == setup.cache
    }

    ghost function AsState(): State
      reads this, cache
    {
      State(committed, clean, dead, if cache == null then None else Some(Owner(cache.Value(), pos)),
            evicted, highestLow)
    }

    function HandledCount(): nat
      reads this
    {
      produced + duplicates + skipped + rejected
    }

    constructor (setup: Setup, committed: Option<nat>, clean: seq<CleanEvent>, dead: seq<nat>)
      ensures Valid() && this.setup == setup && HandledCount() == 0
      ensures AsState() == State(committed, clean, dead, None, false, 0)
    {
      this.setup := setup;
      this.committed, this.clean, this.dead := committed, clean, dead;
      cache, pos := null, 0;
      produced, duplicates, skipped, rejected := 0, 0, 0, 0;
      evicted, highestLow := false, 0;
    }

    /** Take the partition: warm a new cache from below the committed offset. */
    method OnAssign(raw: RawLog, low: nat, now: int)
      requires Valid() && cache == null && low <= Position(AsState()) <= |raw|
      modifies this
      ensures Valid() && Next(setup, raw, old(AsState()), Take(low, now), AsState())
    {
      pos := if committed.Some? then committed.value else 0;
      var c := new DedupCache(setup.cache);
      if committed.Some? {
        var result := Warm(c, setup.replay, raw, low, committed.value, now);
      }
      cache := c;
      evicted := evicted || c.evictedEarly > 0;
      highestLow := Max(highestLow, low);
    }

    /** One message, given what the transaction has produced so far. */
    method Handle(raw: RawLog, o: nat, output: seq<CleanEvent>, deadOutput: seq<nat>)
      returns (output': seq<CleanEvent>, deadOutput': seq<nat>)
      requires Valid() && cache != null && o < |raw|
      modifies this`produced, this`duplicates, this`skipped, this`rejected, cache
      ensures Valid()
      ensures Work(cache.Value(), output', deadOutput') ==
              Handled(setup.cache, Work(old(cache.Value()), output, deadOutput), raw, o)
      ensures HandledCount() == old(HandledCount()) + 1
      ensures produced - old(produced) == |output'| - |output|
      ensures rejected - old(rejected) == |deadOutput'| - |deadOutput|
      ensures skipped - old(skipped) == if raw[o].payload.Canary? then 1 else 0
    {
      output', deadOutput' := output, deadOutput;
      var outcome := TransformInto(cache, raw[o].payload);
      match outcome
      case Clean(event) => output', produced := output + [event], produced + 1;
      case Duplicate(_) => duplicates := duplicates + 1;
      case Skipped => skipped := skipped + 1;
      case Rejected => deadOutput', rejected := deadOutput + [o], rejected + 1;
    }

    /** One transaction: handle every message, then commit the output and the offsets together. */
    method ProcessBatch(raw: RawLog, n: nat)
      requires Valid() && cache != null && n > 0 && pos + n <= |raw|
      modifies this, cache
      ensures Valid() && cache == old(cache)
      ensures Next(setup, raw, old(AsState()), Batch(n), AsState())
      ensures HandledCount() == old(HandledCount()) + n
      ensures produced - old(produced) == |clean| - |old(clean)| && rejected - old(rejected) == |dead| - |old(dead)|
      ensures pos == old(pos) + n && committed == Some(pos)
    {
      ghost var before := Work(cache.Value(), clean, dead);
      var output, deadOutput := clean, dead;
      for i := 0 to n
        invariant Valid() && cache == old(cache) && pos == old(pos)
        invariant committed == old(committed) && clean == old(clean) && dead == old(dead)
        invariant evicted == old(evicted) && highestLow == old(highestLow)
        invariant Work(cache.Value(), output, deadOutput) == HandledRange(setup.cache, before, raw, pos, pos + i)
        invariant HandledCount() == old(HandledCount()) + i
        invariant produced - old(produced) == |output| - |clean| && rejected - old(rejected) == |deadOutput| - |dead|
      {
        output, deadOutput := Handle(raw, pos + i, output, deadOutput);
      }
      clean, dead, committed, pos := output, deadOutput, Some(pos + n), pos + n;
      evicted := evicted || cache.evictedEarly > 0;
    }

    /** Give the partition up, and the cache with it. */
    method OnRevoke(raw: RawLog)
      requires Valid() && cache != null
      modifies this, cache
      ensures Valid() && Next(setup, raw, old(AsState()), Lose, AsState())
    {
      cache.Clear();
      cache := null;
    }
  }
}

