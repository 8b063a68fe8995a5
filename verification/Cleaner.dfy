/** Exactly-once cleaning over whole runs (processors/cleaner.py and transform.py). */
module Cleaner {
  import opened Common
  import opened Events
  import opened Dedup
  import opened Warmup

  datatype Setup = Setup(cache: Config, replay: Replayer)

  // ---- One raw record -------------------------------------------------------

  datatype Outcome = Clean(event: CleanEvent) | Duplicate(id: string) | Rejected | Skipped

  /** Which of the four outcomes a raw payload has, given the cache. */
  function Transform(c: Cache, call: Call, payload: Payload): Outcome {
    match payload
    case Garbage => Rejected
    case Canary(_) => Skipped
    case Invalid(_) => Rejected
    case Valid(e) => if IsNew(c, call) then Clean(e) else Duplicate(e.eventId)
  }

  /** Transform as the source runs it, updating the cache on the way. */
  method TransformInto(cache: DedupCache, payload: Payload) returns (outcome: Outcome)
    modifies cache
    ensures payload.Valid? ==>
              var call := CallAt(cache.cfg, payload.event.eventId, payload.event.timeMs);
              && outcome == Transform(old(cache.Value()), call, payload)
              && cache.Value() == AfterCall(cache.cfg.maxIds, old(cache.Value()), call)
    ensures !payload.Valid? ==> cache.Value() == old(cache.Value())
    ensures payload.Canary? ==> outcome == Skipped
    ensures payload.Garbage? || payload.Invalid? ==> outcome == Rejected
  {
    match payload
    case Garbage => return Rejected;
    case Canary(_) => return Skipped;
    case Invalid(_) => return Rejected;
    case Valid(e) =>
      var isNew := cache.IsNewId(e.eventId, e.timeMs);
      if !isNew {
        return Duplicate(e.eventId);
      }
      return Clean(e);
  }

  // ---- A batch --------------------------------------------------------------

  /** The cache, and what a transaction has produced to wiki.clean and to the dead letter topic. */
  datatype Work = Work(cache: Cache, clean: seq<CleanEvent>, dead: seq<nat>)

  function Handled(cfg: Config, w: Work, raw: RawLog, o: nat): Work
    requires o < |raw|
  {
    match raw[o].payload
    case Garbage => w.(dead := w.dead + [o])
    case Canary(_) => w
    case Invalid(_) => w.(dead := w.dead + [o])
    case Valid(e) =>
      var call := CallAt(cfg, e.eventId, e.timeMs);
      Work(AfterCall(cfg.maxIds, w.cache, call), if IsNew(w.cache, call) then w.clean + [e] else w.clean, w.dead)
  }

  function HandledRange(cfg: Config, w: Work, raw: RawLog, from: nat, to: nat): Work
    requires from <= to <= |raw|
  {
    if from == to then w else Handled(cfg, HandledRange(cfg, w, raw, from, to - 1), raw, to - 1)
  }

  /** Offsets below p of the records the cleaner rejects. */
  function RejectedBelow(raw: RawLog, p: nat): seq<nat>
    requires p <= |raw|
  {
    if p == 0 then []
    else RejectedBelow(raw, p - 1) +
         (if raw[p - 1].payload.Garbage? || raw[p - 1].payload.Invalid? then [p - 1] else [])
  }

  // ---- The machine, one raw partition ---------------------------------------

  datatype Owner = Owner(cache: Cache, pos: nat)

  /**
   committed, clean and dead outlive every process; owner is the memory of the
   current one. evicted and highestLow record whether a cache ever had to drop ids
   early and how far the log start had moved when a warm-up looked.
   */
  datatype State = State(
    committed: Option<nat>,
    clean: seq<CleanEvent>,
    dead: seq<nat>,
    owner: Option<Owner>,
    evicted: bool,
    highestLow: nat)

  const INIT := State(None, [], [], None, false, 0)

  function Position(s: State): nat {
    if s.committed.Some? then s.committed.value else 0
  }

  /**
   Output and offsets commit together, on the loop of transactional.py; the dedup cache is
   lost in a crash and refilled up to the committed offset.
   */
  datatype Step =
    | Take(low: nat, now: int)
    | Batch(n: nat)
    | Lose

  ghost predicate Next(setup: Setup, raw: RawLog, s: State, step: Step, s': State) {
    match step
    case Take(low, now) =>
      // A process is assigned the partition: warm up to the committed offset, then read from there.
      && s.owner.None? && low <= Position(s) <= |raw|
      && var cache := if s.committed.None? then EMPTY
                      else Warmed(setup.cache, EMPTY, setup.replay, raw, low, Position(s), now);
      && s' == s.(owner := Some(Owner(cache, Position(s))),
                  evicted := s.evicted || cache.evictedEarly > 0,
                  highestLow := Max(s.highestLow, low))
    case Batch(n) =>
      // One transaction: the output of n records and the offset after them commit together.
      && s.owner.Some? && n > 0 && s.owner.value.pos + n <= |raw|
      && var pos := s.owner.value.pos;
      var w := HandledRange(setup.cache, Work(s.owner.value.cache, s.clean, s.dead), raw, pos, pos + n);
      && s' == s.(committed := Some(pos + n), clean := w.clean, dead := w.dead,
                  owner := Some(Owner(w.cache, pos + n)),
                  evicted := s.evicted || w.cache.evictedEarly > 0)
    case Lose =>
      // The process dies, aborting an open transaction, or the partition is revoked.
      s.owner.Some? && s' == s.(owner := None)
  }

  ghost predicate CanFollow(setup: Setup, raw: RawLog, s: State, s': State) {
    exists step :: Next(setup, raw, s, step, s')
  }

  ghost predicate IsRun(setup: Setup, raw: RawLog, trace: seq<State>) {
    && |trace| > 0 && trace[0] == INIT
    && forall i :: 0 <= i < |trace| - 1 ==> CanFollow(setup, raw, trace[i], trace[i + 1])
  }

  // ---- What a cache may know ------------------------------------------------

  ghost predicate Appears(raw: RawLog, p: nat, id: string)
    requires p <= |raw|
  {
    exists i :: 0 <= i < p && IdIn(raw[i].payload) == Some(id)
  }

  /** The cache holds only ids from before offset p. */
  ghost predicate KnowsOnly(raw: RawLog, p: nat, c: Cache)
    requires p <= |raw|
  {
    && NoEmptyBucket(c.buckets)
    && forall id, b :: Holds(c.buckets, id, b) ==> Appears(raw, p, id)
  }

  lemma CallKnowsOnly(maxIds: int, c: Cache, call: Call, raw: RawLog, p: nat)
    requires p < |raw| && KnowsOnly(raw, p, c) && IdIn(raw[p].payload) == Some(call.id)
    ensures KnowsOnly(raw, p + 1, AfterCall(maxIds, c, call))
    ensures AfterCall(maxIds, c, call).evictedEarly >= c.evictedEarly
  {
    CallHolds(maxIds, c, call, "", 0);
    forall id, b | Holds(AfterCall(maxIds, c, call).buckets, id, b)
      ensures Appears(raw, p + 1, id)
    {
      CallHolds(maxIds, c, call, id, b);
      assert Holds(c.buckets, id, b) ==> Appears(raw, p, id);
    }
  }

  lemma KnowsOnlyLater(raw: RawLog, p: nat, q: nat, c: Cache)
    requires p <= q <= |raw| && KnowsOnly(raw, p, c)
    ensures KnowsOnly(raw, q, c)
  {
    forall id, b | Holds(c.buckets, id, b)
      ensures Appears(raw, q, id)
    {
      assert Appears(raw, p, id);
    }
  }

  lemma {:induction false} LoadRangeKnowsOnly(cfg: Config, raw: RawLog, from: nat, to: nat, now: int)
    requires from <= to <= |raw|
    ensures KnowsOnly(raw, to, LoadRange(cfg, EMPTY, raw, from, to, now))
  {
    if from < to {
      LoadRangeKnowsOnly(cfg, raw, from, to - 1, now);
      var c := LoadRange(cfg, EMPTY, raw, from, to - 1, now);
      KnowsOnlyLater(raw, to - 1, to, c);
      var id := IdIn(raw[to - 1].payload);
      if id.Some? {
        CallKnowsOnly(cfg.maxIds, c, CallAt(cfg, id.value, TimeOr(raw[to - 1].timestamp, now)), raw, to - 1);
      }
    }
  }

  /** Warm-up teaches the cache only ids from below the committed offset. */
  lemma WarmedKnowsOnly(setup: Setup, raw: RawLog, low: nat, until: nat, now: int)
    requires low <= |raw| && until <= |raw|
    ensures KnowsOnly(raw, until, Warmed(setup.cache, EMPTY, setup.replay, raw, low, until, now))
  {
    var start := StartOffset(setup.replay, raw, low, until, now);
    if start.Some? {
      LoadRangeKnowsOnly(setup.cache, raw, start.value, until, now);
    }
  }

  // ---- No event is lost -----------------------------------------------------

  ghost predicate HasId(clean: seq<CleanEvent>, id: string) {
    exists k :: 0 <= k < |clean| && clean[k].eventId == id
  }

  /** Every valid event below offset p is in the output. */
  ghost predicate Covers(raw: RawLog, p: nat, clean: seq<CleanEvent>)
    requires p <= |raw|
  {
    forall j :: 0 <= j < p && raw[j].payload.Valid? ==> HasId(clean, raw[j].payload.event.eventId)
  }

  /** Every output event is a valid event below offset p. */
  ghost predicate ComesFrom(raw: RawLog, p: nat, clean: seq<CleanEvent>)
    requires p <= |raw|
  {
    forall k :: 0 <= k < |clean| ==> exists j :: 0 <= j < p && raw[j].payload == Valid(clean[k])
  }

  /** An id whose first readable record is not a valid event never turns valid later. */
  ghost predicate FirstCopiesValid(raw: RawLog) {
    forall i, j :: 0 <= i < j < |raw| && raw[j].payload.Valid? && !raw[i].payload.Valid?
                   && IdIn(raw[i].payload) == Some(raw[j].payload.event.eventId) ==>
                   ValidBefore(raw, i, raw[j].payload.event.eventId)
  }

  ghost predicate ValidBefore(raw: RawLog, i: nat, id: string)
    requires i <= |raw|
  {
    exists k :: 0 <= k < i && raw[k].payload.Valid? && raw[k].payload.event.eventId == id
  }

  ghost predicate WorkOk(raw: RawLog, p: nat, w: Work)
    requires p <= |raw|
  {
    && KnowsOnly(raw, p, w.cache) && ComesFrom(raw, p, w.clean) && w.dead == RejectedBelow(raw, p)
    && (FirstCopiesValid(raw) ==> Covers(raw, p, w.clean))
  }

  lemma HandledKeepsWork(cfg: Config, w: Work, raw: RawLog, o: nat)
    requires o < |raw| && WorkOk(raw, o, w)
    ensures WorkOk(raw, o + 1, Handled(cfg, w, raw, o))
    ensures Handled(cfg, w, raw, o).cache.evictedEarly >= w.cache.evictedEarly
  {
    var w' := Handled(cfg, w, raw, o);
    KnowsOnlyLater(raw, o, o + 1, w.cache);
    assert ComesFrom(raw, o + 1, w'.clean) by {
      forall k | 0 <= k < |w'.clean|
        ensures exists j :: 0 <= j < o + 1 && raw[j].payload == Valid(w'.clean[k])
      {
        if k < |w.clean| {
          var j :| 0 <= j < o && raw[j].payload == Valid(w.clean[k]);
        } else {
          assert raw[o].payload == Valid(w'.clean[k]);
        }
      }
    }
    if raw[o].payload.Valid? {
      var e := raw[o].payload.event;
      CallKnowsOnly(cfg.maxIds, w.cache, CallAt(cfg, e.eventId, e.timeMs), raw, o);
    }
    if FirstCopiesValid(raw) {
      HandledCovers(cfg, w, raw, o);
    }
  }

  /** A valid record whose id is already known has that id in the output. */
  lemma KnownIsInOutput(w: Work, raw: RawLog, o: nat, call: Call)
    requires o < |raw| && WorkOk(raw, o, w) && FirstCopiesValid(raw)
    requires raw[o].payload.Valid? && call.id == raw[o].payload.event.eventId && !IsNew(w.cache, call)
    ensures HasId(w.clean, call.id)
  {
    DuplicateIffHeld(w.cache, call);
    var b :| Holds(w.cache.buckets, call.id, b);
    assert Appears(raw, o, call.id);
    var i :| 0 <= i < o && IdIn(raw[i].payload) == Some(call.id);
    if !raw[i].payload.Valid? {
      assert ValidBefore(raw, i, call.id);
    }
  }

  lemma HandledCovers(cfg: Config, w: Work, raw: RawLog, o: nat)
    requires o < |raw| && WorkOk(raw, o, w) && FirstCopiesValid(raw)
    ensures Covers(raw, o + 1, Handled(cfg, w, raw, o).clean)
  {
    var w' := Handled(cfg, w, raw, o);
    forall id | HasId(w.clean, id)
      ensures HasId(w'.clean, id)
    {
      var k :| 0 <= k < |w.clean| && w.clean[k].eventId == id;
      assert w'.clean[k] == w.clean[k];
    }
    if raw[o].payload.Valid? {
      var e := raw[o].payload.event;
      var call := CallAt(cfg, e.eventId, e.timeMs);
      if IsNew(w.cache, call) {
        assert w'.clean[|w.clean|] == e;
      } else {
        KnownIsInOutput(w, raw, o, call);
      }
    }
  }

  lemma {:induction false} RangeKeepsWork(cfg: Config, w: Work, raw: RawLog, from: nat, to: nat)
    requires from <= to <= |raw| && WorkOk(raw, from, w)
    ensures WorkOk(raw, to, HandledRange(cfg, w, raw, from, to))
    ensures HandledRange(cfg, w, raw, from, to).cache.evictedEarly >= w.cache.evictedEarly
  {
    if from < to {
      RangeKeepsWork(cfg, w, raw, from, to - 1);
      HandledKeepsWork(cfg, HandledRange(cfg, w, raw, from, to - 1), raw, to - 1);
    }
  }

  ghost predicate Inv(raw: RawLog, s: State) {
    && Position(s) <= |raw|
    && ComesFrom(raw, Position(s), s.clean) && s.dead == RejectedBelow(raw, Position(s))
    && (FirstCopiesValid(raw) ==> Covers(raw, Position(s), s.clean))
    && (s.owner.Some? ==>
          && s.owner.value.pos == Position(s) && KnowsOnly(raw, Position(s), s.owner.value.cache)
          && (s.owner.value.cache.evictedEarly > 0 ==> s.evicted))
  }

  lemma NextKeepsInv(setup: Setup, raw: RawLog, s: State, s': State)
    requires Inv(raw, s) && CanFollow(setup, raw, s, s')
    ensures Inv(raw, s')
    ensures Position(s) <= Position(s') && s.clean <= s'.clean
  {
    var step :| Next(setup, raw, s, step, s');
    match step
    case Take(low, now) =>
      if s.committed.Some? {
        WarmedKnowsOnly(setup, raw, low, Position(s), now);
      }
    case Batch(n) =>
      BatchKeepsInv(setup, raw, s, n, s');
    case Lose =>
  }

  lemma BatchKeepsInv(setup: Setup, raw: RawLog, s: State, n: nat, s': State)
    requires Inv(raw, s) && Next(setup, raw, s, Batch(n), s')
    ensures Inv(raw, s')
    ensures Position(s) <= Position(s') && s.clean <= s'.clean
  {
    var pos, w := s.owner.value.pos, Work(s.owner.value.cache, s.clean, s.dead);
    RangeKeepsWork(setup.cache, w, raw, pos, pos + n);
    RangeAppends(setup.cache, w, raw, pos, pos + n);
  }

  lemma {:induction false} RangeAppends(cfg: Config, w: Work, raw: RawLog, from: nat, to: nat)
    requires from <= to <= |raw|
    ensures w.clean <= HandledRange(cfg, w, raw, from, to).clean
  {
    if from < to {
      RangeAppends(cfg, w, raw, from, to - 1);
    }
  }

  lemma {:induction false} RunKeepsInv(setup: Setup, raw: RawLog, trace: seq<State>, i: nat)
    requires IsRun(setup, raw, trace) && i < |trace|
    ensures Inv(raw, trace[i])
  {
    if i > 0 {
      RunKeepsInv(setup, raw, trace, i - 1);
      assert CanFollow(setup, raw, trace[i - 1], trace[i - 1 + 1]);
      NextKeepsInv(setup, raw, trace[i - 1], trace[i]);
    }
  }

  /**
   In every run, for any window, bucket count, caps and order of times, every valid
   event below the committed offset is in the committed output.
   */
  lemma NothingCommittedIsLost(setup: Setup, raw: RawLog, trace: seq<State>, i: nat, j: nat)
    requires IsRun(setup, raw, trace) && i < |trace| && FirstCopiesValid(raw)
    requires j < |raw| && j < Position(trace[i]) && raw[j].payload.Valid?
    ensures HasId(trace[i].clean, raw[j].payload.event.eventId)
  {
    RunKeepsInv(setup, raw, trace, i);
  }

  /** And nothing else is: every output event is a valid raw event below the committed offset. */
  lemma NothingIsInvented(setup: Setup, raw: RawLog, trace: seq<State>, i: nat, k: nat)
    requires IsRun(setup, raw, trace) && i < |trace| && k < |trace[i].clean|
    ensures Position(trace[i]) <= |raw|
    ensures exists j :: 0 <= j < Position(trace[i]) && raw[j].payload == Valid(trace[i].clean[k])
  {
    RunKeepsInv(setup, raw, trace, i);
    var s := trace[i];
    assert ComesFrom(raw, Position(s), s.clean);
    var j :| 0 <= j < Position(s) && raw[j].payload == Valid(s.clean[k]);
  }

  /** The dead letter topic holds every rejected record below the committed offset once, in order. */
  lemma DeadLettersAreExact(setup: Setup, raw: RawLog, trace: seq<State>, i: nat)
    requires IsRun(setup, raw, trace) && i < |trace|
    ensures Position(trace[i]) <= |raw| && trace[i].dead == RejectedBelow(raw, Position(trace[i]))
  {
    RunKeepsInv(setup, raw, trace, i);
  }

  // ---- Exactly once inside the window ---------------------------------------

  function CountId(clean: seq<CleanEvent>, id: string): nat {
    if clean == [] then 0
    else CountId(clean[..|clean| - 1], id) + (if clean[|clean| - 1].eventId == id then 1 else 0)
  }

  lemma CountIdAppend(clean: seq<CleanEvent>, e: CleanEvent, id: string)
    ensures CountId(clean + [e], id) == CountId(clean, id) + (if e.eventId == id then 1 else 0)
  {
    assert (clean + [e])[..|clean|] == clean;
  }

  /** Between offset f and the copy at j, times and record counts stay within the two windows of the record at f. */
  ghost predicate CloseTo(setup: Setup, raw: RawLog, f: nat, j: nat)
    requires f <= j < |raw| && raw[f].payload.Valid?
  {
    && j - f <= setup.replay.maxRecords
    && forall o :: f <= o <= j ==>
         && 0 < raw[o].timestamp <= raw[f].timestamp + Min(setup.cache.windowMs, setup.replay.windowMs)
         && (raw[o].payload.Valid? ==>
               raw[o].payload.event.timeMs <= raw[f].payload.event.timeMs + setup.cache.windowMs)
  }

  /** The record at f is the first copy of its id, stamped no earlier than its event, and every copy is close to it. */
  ghost predicate InWindow(setup: Setup, raw: RawLog, f: nat) {
    && f < |raw| && raw[f].payload.Valid?
    && !Appears(raw, f, raw[f].payload.event.eventId)
    && raw[f].payload.event.timeMs <= raw[f].timestamp
    && forall j :: f < j < |raw| && IdIn(raw[j].payload) == Some(raw[f].payload.event.eventId) ==>
         CloseTo(setup, raw, f, j)
  }

  ghost predicate LaterCopy(raw: RawLog, p: nat, id: string) {
    exists j :: p <= j < |raw| && IdIn(raw[j].payload) == Some(id)
  }

  ghost predicate HeldBeyond(c: Cache, id: string, index: int) {
    exists b :: b >= index && Holds(c.buckets, id, b)
  }

  ghost predicate OnceOk(setup: Setup, raw: RawLog, f: nat, p: nat, w: Work)
    requires f < |raw| && raw[f].payload.Valid?
  {
    var e := raw[f].payload.event;
    && CountId(w.clean, e.eventId) == (if p > f then 1 else 0)
    && (f < p && LaterCopy(raw, p, e.eventId) ==> HeldBeyond(w.cache, e.eventId, IndexOf(setup.cache, e.timeMs)))
  }

  /** A call whose cutoff is at or below a held bucket keeps it, and finds its own id there. */
  lemma CallKeepsHeld(maxIds: int, c: Cache, call: Call, id: string, index: int)
    requires NoEmptyBucket(c.buckets) && HeldBeyond(c, id, index) && call.cutoff <= index
    requires AfterCall(maxIds, c, call).evictedEarly == c.evictedEarly
    ensures HeldBeyond(AfterCall(maxIds, c, call), id, index)
    ensures call.id == id ==> !IsNew(c, call)
  {
    var b :| b >= index && Holds(c.buckets, id, b);
    CallHolds(maxIds, c, call, id, b);
    DuplicateIffHeld(c, call);
  }

  /** A call for an id the cache cannot know records it in the bucket of its time. */
  lemma CallRecords(maxIds: int, c: Cache, call: Call, raw: RawLog, p: nat)
    requires p <= |raw| && KnowsOnly(raw, p, c) && !Appears(raw, p, call.id)
    requires AfterCall(maxIds, c, call).evictedEarly == c.evictedEarly
    ensures IsNew(c, call) && Holds(AfterCall(maxIds, c, call).buckets, call.id, call.index)
  {
    DuplicateIffHeld(c, call);
    CallHolds(maxIds, c, call, call.id, call.index);
  }

  lemma HandledKeepsOnce(setup: Setup, raw: RawLog, f: nat, o: nat, w: Work)
    requires o < |raw| && InWindow(setup, raw, f) && WorkOk(raw, o, w) && OnceOk(setup, raw, f, o, w)
    requires Handled(setup.cache, w, raw, o).cache.evictedEarly == w.cache.evictedEarly
    ensures OnceOk(setup, raw, f, o + 1, Handled(setup.cache, w, raw, o))
  {
    var x, w' := raw[f].payload.event, Handled(setup.cache, w, raw, o);
    var index := IndexOf(setup.cache, x.timeMs);
    if raw[o].payload.Valid? {
      var e := raw[o].payload.event;
      var call := CallAt(setup.cache, e.eventId, e.timeMs);
      CountIdAppend(w.clean, e, x.eventId);
      if o < f {
        assert IdIn(raw[o].payload) == Some(e.eventId);
        assert e.eventId != x.eventId;
      } else if o == f {
        CallRecords(setup.cache.maxIds, w.cache, call, raw, o);
      } else if LaterCopy(raw, o, x.eventId) {
        var j :| o <= j < |raw| && IdIn(raw[j].payload) == Some(x.eventId);
        assert CloseTo(setup, raw, f, j);
        WithinWindowIsKept(setup.cache, x.timeMs, e.timeMs);
        CallKeepsHeld(setup.cache.maxIds, w.cache, call, x.eventId, index);
      } else {
        assert IdIn(raw[o].payload) == Some(e.eventId);
      }
    } else {
      assert f < o && LaterCopy(raw, o + 1, x.eventId) ==> LaterCopy(raw, o, x.eventId);
    }
  }

  lemma {:induction false} RangeKeepsOnce(setup: Setup, raw: RawLog, f: nat, from: nat, to: nat, w: Work)
    requires from <= to <= |raw| && InWindow(setup, raw, f) && WorkOk(raw, from, w) && OnceOk(setup, raw, f, from, w)
    requires HandledRange(setup.cache, w, raw, from, to).cache.evictedEarly == w.cache.evictedEarly
    ensures OnceOk(setup, raw, f, to, HandledRange(setup.cache, w, raw, from, to))
  {
    if from < to {
      var before := HandledRange(setup.cache, w, raw, from, to - 1);
      RangeKeepsWork(setup.cache, w, raw, from, to - 1);
      HandledKeepsWork(setup.cache, before, raw, to - 1);
      RangeKeepsOnce(setup, raw, f, from, to - 1, w);
      HandledKeepsOnce(setup, raw, f, to - 1, before);
    }
  }

  /** A warm-up that starts at or before f and runs past it holds the id of f in the bucket of its timestamp. */
  lemma {:induction false} LoadRangeHolds(setup: Setup, raw: RawLog, f: nat, from: nat, to: nat, now: int)
    requires from <= f < to <= |raw| && InWindow(setup, raw, f) && LaterCopy(raw, to, raw[f].payload.event.eventId)
    requires LoadRange(setup.cache, EMPTY, raw, from, to, now).evictedEarly == 0
    ensures HeldBeyond(LoadRange(setup.cache, EMPTY, raw, from, to, now), raw[f].payload.event.eventId,
                       IndexOf(setup.cache, raw[f].timestamp))
  {
    var id, record := raw[f].payload.event.eventId, raw[to - 1];
    var before := LoadRange(setup.cache, EMPTY, raw, from, to - 1, now);
    var j :| to <= j < |raw| && IdIn(raw[j].payload) == Some(id);
    assert CloseTo(setup, raw, f, j);
    assert LaterCopy(raw, to - 1, id);
    LoadRangeKnowsOnly(setup.cache, raw, from, to - 1, now);
    if IdIn(record.payload).Some? {
      var call := CallAt(setup.cache, IdIn(record.payload).value, TimeOr(record.timestamp, now));
      CallHolds(setup.cache.maxIds, before, call, id, 0);
      if to - 1 == f {
        CallRecords(setup.cache.maxIds, before, call, raw, f);
      } else {
        LoadRangeHolds(setup, raw, f, from, to - 1, now);
        WithinWindowIsKept(setup.cache, raw[f].timestamp, record.timestamp);
        CallKeepsHeld(setup.cache.maxIds, before, call, id, IndexOf(setup.cache, raw[f].timestamp));
      }
    } else {
      LoadRangeHolds(setup, raw, f, from, to - 1, now);
    }
  }

  /** So does the warm-up of a process that takes over between two copies of the id. */
  lemma WarmedHolds(setup: Setup, raw: RawLog, f: nat, low: nat, until: nat, now: int)
    requires low <= f < until <= |raw| && InWindow(setup, raw, f)
    requires LaterCopy(raw, until, raw[f].payload.event.eventId)
    requires Warmed(setup.cache, EMPTY, setup.replay, raw, low, until, now).evictedEarly == 0
    ensures HeldBeyond(Warmed(setup.cache, EMPTY, setup.replay, raw, low, until, now), raw[f].payload.event.eventId,
                       IndexOf(setup.cache, raw[f].payload.event.timeMs))
  {
    var e := raw[f].payload.event;
    var j :| until <= j < |raw| && IdIn(raw[j].payload) == Some(e.eventId);
    assert CloseTo(setup, raw, f, j);
    var cutoff := raw[until - 1].timestamp - setup.replay.windowMs;
    var found := FirstSince(raw, low, cutoff);
    assert raw[f].timestamp >= cutoff;
    var start := StartOffset(setup.replay, raw, low, until, now);
    LoadRangeHolds(setup, raw, f, start.value, until, now);
    DivMonotone(e.timeMs, raw[f].timestamp, Span(setup.cache));
  }

  ghost predicate OnceInv(setup: Setup, raw: RawLog, f: nat, s: State)
    requires f < |raw| && raw[f].payload.Valid?
  {
    !s.evicted && s.highestLow <= f ==>
      && CountId(s.clean, raw[f].payload.event.eventId) == (if Position(s) > f then 1 else 0)
      && (s.owner.Some? ==> OnceOk(setup, raw, f, Position(s), Work(s.owner.value.cache, s.clean, s.dead)))
  }

  lemma NextKeepsOnce(setup: Setup, raw: RawLog, f: nat, s: State, s': State)
    requires InWindow(setup, raw, f) && Inv(raw, s) && OnceInv(setup, raw, f, s) && CanFollow(setup, raw, s, s')
    ensures OnceInv(setup, raw, f, s')
  {
    var step :| Next(setup, raw, s, step, s');
    if !s'.evicted && s'.highestLow <= f {
      match step
      case Take(low, now) =>
        if f < Position(s) && LaterCopy(raw, Position(s), raw[f].payload.event.eventId) {
          WarmedHolds(setup, raw, f, low, Position(s), now);
        }
      case Batch(n) =>
        var w := Work(s.owner.value.cache, s.clean, s.dead);
        RangeKeepsOnce(setup, raw, f, Position(s), Position(s) + n, w);
      case Lose =>
    }
  }

  lemma {:induction false} RunKeepsOnce(setup: Setup, raw: RawLog, f: nat, trace: seq<State>, i: nat)
    requires IsRun(setup, raw, trace) && i < |trace| && InWindow(setup, raw, f)
    ensures OnceInv(setup, raw, f, trace[i])
  {
    if i > 0 {
      RunKeepsOnce(setup, raw, f, trace, i - 1);
      RunKeepsInv(setup, raw, trace, i - 1);
      assert CanFollow(setup, raw, trace[i - 1], trace[i - 1 + 1]);
      NextKeepsOnce(setup, raw, f, trace[i - 1], trace[i]);
    }
  }

  /**
   If every copy of an id is close to its first one and neither the size cap nor the
   log start cut the memory short, the id is committed downstream exactly once,
   wherever crashes and warm-ups fall.
   */
  lemma ExactlyOnceInWindow(setup: Setup, raw: RawLog, f: nat, trace: seq<State>, i: nat)
    requires IsRun(setup, raw, trace) && i < |trace| && InWindow(setup, raw, f)
    requires !trace[i].evicted && trace[i].highestLow <= f
    ensures CountId(trace[i].clean, raw[f].payload.event.eventId) == (if Position(trace[i]) > f then 1 else 0)
  {
    RunKeepsOnce(setup, raw, f, trace, i);
  }
}

