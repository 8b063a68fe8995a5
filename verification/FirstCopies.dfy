/** When exactly the cleaner can lose an event (processors/warmup.py:166-173). */
module FirstCopies {
  import opened Common
  import opened Events
  import opened Dedup
  import opened Warmup
  import opened Cleaner

  // Warm-up loads the id of every readable record, also of records that were rejected or
  // skipped, while live cleaning records only the ids of valid events. A raw log is safe in
  // all runs if and only if no id is first seen in a record that is not a valid event.

  /** No run over this log, with any setup, commits past a valid event whose id is not in the output. */
  ghost predicate NeverLoses(raw: RawLog) {
    forall setup, trace: seq<State>, i, j ::
      IsRun(setup, raw, trace) && 0 <= i < |trace| && 0 <= j < |raw| && j < Position(trace[i])
      && raw[j].payload.Valid? ==>
        HasId(trace[i].clean, raw[j].payload.event.eventId)
  }

  /** Larger than every time in the log. */
  function Bound(raw: RawLog): (b: int)
    ensures b >= 1
  {
    if raw == [] then 1
    else
      var r := raw[|raw| - 1];
      var t := if r.payload.Valid? then r.payload.event.timeMs else 0;
      Max(Bound(raw[..|raw| - 1]), Max(Abs(t), Abs(r.timestamp)) + 1)
  }

  function Abs(x: int): int {
    if x < 0 then -x else x
  }

  lemma {:induction false} BoundCovers(raw: RawLog, o: nat)
    requires o < |raw|
    ensures Abs(raw[o].timestamp) < Bound(raw)
    ensures raw[o].payload.Valid? ==> Abs(raw[o].payload.event.timeMs) < Bound(raw)
  {
    if o < |raw| - 1 {
      BoundCovers(raw[..|raw| - 1], o);
    }
  }

  /** Windows and caps so wide that this log never expires or evicts anything. */
  function WideSetup(raw: RawLog): Setup {
    Setup(Config(Bound(raw), 1, |raw|), Replayer(2 * Bound(raw), |raw|))
  }

  lemma WideCalls(raw: RawLog, id: string, t: int)
    requires Abs(t) < Bound(raw)
    ensures var call := CallAt(WideSetup(raw).cache, id, t); call.cutoff <= -1 <= call.index
  {
    var b := Bound(raw);
    assert Span(WideSetup(raw).cache) == b;
    DivMonotone(-b, t, b);
    DivUnique(-b, b, -1, 0);
    DivMonotone(t - b, -1, b);
    DivUnique(-1, b, -1, b - 1);
  }

  /** Nothing was evicted, everything held is held for good, and there is room for what is still to come. */
  ghost predicate Wide(c: Cache, calls: nat) {
    && NoEmptyBucket(c.buckets) && c.evictedEarly == 0 && Size(c.buckets) <= calls
    && forall id, b :: Holds(c.buckets, id, b) ==> b >= -1
  }

  lemma {:induction false} ExpireSize(buckets: seq<Bucket>, cutoff: int)
    ensures Size(Expire(buckets, cutoff)) <= Size(buckets)
  {
    if buckets != [] {
      ExpireSize(buckets[1..], cutoff);
      if buckets[0].index >= cutoff {
        assert Expire(buckets, cutoff)[1..] == Expire(buckets[1..], cutoff);
      } else {
        assert Expire(buckets, cutoff) == Expire(buckets[1..], cutoff);
      }
    }
  }

  lemma {:induction false} RecordSize(buckets: seq<Bucket>, index: int, id: string)
    ensures Size(Record(buckets, index, id)) <= Size(buckets) + 1
  {
    var after := Record(buckets, index, id);
    if buckets != [] {
      if buckets[0].index == index {
        assert after[1..] == buckets[1..];
      } else {
        RecordSize(buckets[1..], index, id);
        assert after[1..] == Record(buckets[1..], index, id);
      }
    }
  }

  lemma WideCall(c: Cache, call: Call, maxIds: int, calls: nat)
    requires Wide(c, calls) && calls + 1 <= maxIds && call.cutoff <= -1 <= call.index
    ensures var c' := AfterCall(maxIds, c, call);
            && Wide(c', calls + 1) && HeldBeyond(c', call.id, -1)
            && (forall x :: HeldBeyond(c, x, -1) ==> HeldBeyond(c', x, -1))
  {
    var c' := AfterCall(maxIds, c, call);
    ExpireSize(c.buckets, call.cutoff);
    RecordSize(Expire(c.buckets, call.cutoff), call.index, call.id);
    CallHolds(maxIds, c, call, call.id, call.index);
    forall id, b | Holds(c'.buckets, id, b)
      ensures b >= -1
    {
      CallHolds(maxIds, c, call, id, b);
    }
    forall x | HeldBeyond(c, x, -1)
      ensures HeldBeyond(c', x, -1)
    {
      var b :| b >= -1 && Holds(c.buckets, x, b);
      CallHolds(maxIds, c, call, x, b);
    }
    if !IsNew(c, call) {
      DuplicateIffHeld(c, call);
      var b :| b >= call.cutoff && Holds(c.buckets, call.id, b);
      assert HeldBeyond(c, call.id, -1);
    }
  }

  lemma {:induction false} WideLoad(raw: RawLog, i: nat, q: nat)
    requires i < |raw| && q <= i + 1
    ensures var c := LoadRange(WideSetup(raw).cache, EMPTY, raw, 0, q, 0);
            && Wide(c, q)
            && (q == i + 1 && IdIn(raw[i].payload).Some? ==> HeldBeyond(c, IdIn(raw[i].payload).value, -1))
  {
    if q > 0 {
      WideLoad(raw, i, q - 1);
      var id := IdIn(raw[q - 1].payload);
      if id.Some? {
        BoundCovers(raw, q - 1);
        var t := TimeOr(raw[q - 1].timestamp, 0);
        WideCalls(raw, id.value, t);
        WideCall(LoadRange(WideSetup(raw).cache, EMPTY, raw, 0, q - 1, 0), CallAt(WideSetup(raw).cache, id.value, t),
                 |raw|, q - 1);
      }
    }
  }

  lemma WideWarm(raw: RawLog, i: nat)
    requires i < |raw|
    ensures Warmed(WideSetup(raw).cache, EMPTY, WideSetup(raw).replay, raw, 0, i + 1, 0) ==
            LoadRange(WideSetup(raw).cache, EMPTY, raw, 0, i + 1, 0)
  {
    BoundCovers(raw, i);
    BoundCovers(raw, 0);
    assert FirstSince(raw, 0, TimeOr(raw[i].timestamp, 0) - 2 * Bound(raw)) == 0;
    assert StartOffset(WideSetup(raw).replay, raw, 0, i + 1, 0) == Some(0);
  }

  /** Once the cache holds an id for good, no later record brings it into the output. */
  lemma {:induction false} WideBatch(raw: RawLog, w: Work, id: string, from: nat, q: nat)
    requires from <= q <= |raw| && Wide(w.cache, from) && HeldBeyond(w.cache, id, -1) && !HasId(w.clean, id)
    ensures var w' := HandledRange(WideSetup(raw).cache, w, raw, from, q);
            Wide(w'.cache, q) && HeldBeyond(w'.cache, id, -1) && !HasId(w'.clean, id)
  {
    if from < q {
      WideBatch(raw, w, id, from, q - 1);
      var before := HandledRange(WideSetup(raw).cache, w, raw, from, q - 1);
      if raw[q - 1].payload.Valid? {
        var e := raw[q - 1].payload.event;
        BoundCovers(raw, q - 1);
        WideCalls(raw, e.eventId, e.timeMs);
        var call := CallAt(WideSetup(raw).cache, e.eventId, e.timeMs);
        WideCall(before.cache, call, |raw|, q - 1);
        DuplicateIffHeld(before.cache, call);
      }
    }
  }

  ghost function Apply(raw: RawLog, s: State, step: Cleaner.Step): State
    requires step.Take? ==> s.owner.None? && step.low == 0 && Position(s) <= |raw|
    requires step.Batch? ==> s.owner.Some? && step.n > 0 && s.owner.value.pos + step.n <= |raw|
    requires step.Lose? ==> s.owner.Some?
    ensures Next(WideSetup(raw), raw, s, step, Apply(raw, s, step))
  {
    match step
    case Take(low, now) =>
      var cache := if s.committed.None? then EMPTY
                   else Warmed(WideSetup(raw).cache, EMPTY, WideSetup(raw).replay, raw, low, Position(s), now);
      s.(owner := Some(Owner(cache, Position(s))),
         evicted := s.evicted || cache.evictedEarly > 0,
         highestLow := Max(s.highestLow, low))
    case Batch(n) =>
      var pos := s.owner.value.pos;
      var w := HandledRange(WideSetup(raw).cache, Work(s.owner.value.cache, s.clean, s.dead), raw, pos, pos + n);
      s.(committed := Some(pos + n), clean := w.clean, dead := w.dead,
         owner := Some(Owner(w.cache, pos + n)), evicted := s.evicted || w.cache.evictedEarly > 0)
    case Lose => s.(owner := None)
  }

  /** Commit the first n records, die, and warm up again. */
  ghost function DieAfter(raw: RawLog, n: nat): (trace: seq<State>)
    requires 0 < n <= |raw|
    ensures |trace| == 5 && IsRun(WideSetup(raw), raw, trace)
    ensures trace[4].owner == Some(Owner(Warmed(WideSetup(raw).cache, EMPTY, WideSetup(raw).replay, raw, 0, n, 0), n))
    ensures Position(trace[4]) == n && trace[4].clean == trace[2].clean && Position(trace[2]) == n
  {
    var s1 := Apply(raw, INIT, Take(0, 0));
    var s2 := Apply(raw, s1, Batch(n));
    var s3 := Apply(raw, s2, Lose);
    var s4 := Apply(raw, s3, Take(0, 0));
    assert CanFollow(WideSetup(raw), raw, INIT, s1) && CanFollow(WideSetup(raw), raw, s1, s2)
           && CanFollow(WideSetup(raw), raw, s2, s3) && CanFollow(WideSetup(raw), raw, s3, s4);
    [INIT, s1, s2, s3, s4]
  }

  lemma NoCopyInOutput(raw: RawLog, i: nat, id: string)
    requires i < |raw| && !ValidBefore(raw, i, id) && !raw[i].payload.Valid?
    ensures !HasId(DieAfter(raw, i + 1)[2].clean, id)
  {
    var trace := DieAfter(raw, i + 1);
    if HasId(trace[2].clean, id) {
      var k :| 0 <= k < |trace[2].clean| && trace[2].clean[k].eventId == id;
      NothingIsInvented(WideSetup(raw), raw, trace, 2, k);
    }
  }

  /** Commit past the bad record, die, warm up, and read on: every valid copy is dropped as a duplicate. */
  lemma BadFirstCopyLoses(raw: RawLog, i: nat, j: nat)
    requires i < j < |raw| && raw[j].payload.Valid? && !raw[i].payload.Valid?
    requires IdIn(raw[i].payload) == Some(raw[j].payload.event.eventId)
    requires !ValidBefore(raw, i, raw[j].payload.event.eventId)
    ensures !NeverLoses(raw)
  {
    var id := raw[j].payload.event.eventId;
    var trace := DieAfter(raw, i + 1);
    var s4 := trace[4];
    var s5 := Apply(raw, s4, Batch(j - i));
    NoCopyInOutput(raw, i, id);
    WideWarm(raw, i);
    WideLoad(raw, i, i + 1);
    WideBatch(raw, Work(s4.owner.value.cache, s4.clean, s4.dead), id, i + 1, j + 1);
    LongerRun(raw, trace, s5, Batch(j - i));
    var longer := trace + [s5];
    assert longer[5] == s5 && Position(s5) == j + 1;
    assert !HasId(longer[5].clean, id);
  }

  lemma LongerRun(raw: RawLog, trace: seq<State>, next: State, step: Cleaner.Step)
    requires IsRun(WideSetup(raw), raw, trace) && Next(WideSetup(raw), raw, trace[|trace| - 1], step, next)
    ensures IsRun(WideSetup(raw), raw, trace + [next])
  {
    var longer := trace + [next];
    forall k | 0 <= k < |longer| - 1
      ensures CanFollow(WideSetup(raw), raw, longer[k], longer[k + 1])
    {
      if k < |trace| - 1 {
        assert CanFollow(WideSetup(raw), raw, trace[k], trace[k + 1]);
      }
    }
  }

  /** A raw log loses no event in any run if and only if no id's first readable record is an invalid one. */
  lemma NeverLosesIffFirstCopiesValid(raw: RawLog)
    ensures NeverLoses(raw) <==> FirstCopiesValid(raw)
  {
    if FirstCopiesValid(raw) {
      forall setup, trace: seq<State>, i, j |
        IsRun(setup, raw, trace) && 0 <= i < |trace| && 0 <= j < |raw| && j < Position(trace[i])
        && raw[j].payload.Valid?
        ensures HasId(trace[i].clean, raw[j].payload.event.eventId)
      {
        NothingCommittedIsLost(setup, raw, trace, i, j);
      }
    } else {
      var i, j :| 0 <= i < j < |raw| && raw[j].payload.Valid? && !raw[i].payload.Valid?
                  && IdIn(raw[i].payload) == Some(raw[j].payload.event.eventId)
                  && !ValidBefore(raw, i, raw[j].payload.event.eventId);
      BadFirstCopyLoses(raw, i, j);
    }
  }

  /** A heartbeat or a record the cleaner rejects, with the id of the good event behind it, is enough to lose it. */
  lemma OddFirstCopyLoses(e: CleanEvent, t: int, t': int)
    ensures !NeverLoses([RawRecord(Canary(Some(e.eventId)), t), RawRecord(Valid(e), t')])
    ensures !NeverLoses([RawRecord(Invalid(Some(e.eventId)), t), RawRecord(Valid(e), t')])
    ensures NeverLoses([RawRecord(Garbage, t), RawRecord(Valid(e), t')])
    ensures NeverLoses([RawRecord(Canary(None), t), RawRecord(Valid(e), t')])
  {
    var heartbeat := [RawRecord(Canary(Some(e.eventId)), t), RawRecord(Valid(e), t')];
    var rejected := [RawRecord(Invalid(Some(e.eventId)), t), RawRecord(Valid(e), t')];
    BadFirstCopyLoses(heartbeat, 0, 1);
    BadFirstCopyLoses(rejected, 0, 1);
    NeverLosesIffFirstCopiesValid([RawRecord(Garbage, t), RawRecord(Valid(e), t')]);
    NeverLosesIffFirstCopiesValid([RawRecord(Canary(None), t), RawRecord(Valid(e), t')]);
  }
}
