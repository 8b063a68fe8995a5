/** The bounded, bucketed set of recently seen ids (processors/dedup.py). */
module Dedup {
  import opened Common

  // The bucket arithmetic as functions on values, the class that updates the buckets in place,
  // and the sliding window the buckets amount to.

  type pos = n: nat | n > 0 witness 1

  datatype Config = Config(windowMs: int, buckets: pos, maxIds: int)

  datatype Bucket = Bucket(index: int, ids: set<string>)

  /** Buckets in insertion order, with the number of ids dropped to bound the size. */
  datatype Cache = Cache(buckets: seq<Bucket>, evictedEarly: nat)

  const EMPTY := Cache([], 0)

  function Span(cfg: Config): (span: int)
    ensures span >= 1
  {
    Max(cfg.windowMs / cfg.buckets, 1)
  }

  function IndexOf(cfg: Config, t: int): int {
    t / Span(cfg)
  }

  function CutoffOf(cfg: Config, now: int): int {
    (now - cfg.windowMs) / Span(cfg)
  }

  function Expire(buckets: seq<Bucket>, cutoff: int): seq<Bucket> {
    if buckets == [] then []
    else (if buckets[0].index < cutoff then [] else [buckets[0]]) + Expire(buckets[1..], cutoff)
  }

  predicate Has(buckets: seq<Bucket>, id: string) {
    exists b :: b in buckets && id in b.ids
  }

  function Record(buckets: seq<Bucket>, index: int, id: string): seq<Bucket> {
    if buckets == [] then [Bucket(index, {id})]
    else if buckets[0].index == index then [Bucket(index, buckets[0].ids + {id})] + buckets[1..]
    else [buckets[0]] + Record(buckets[1..], index, id)
  }

  function Size(buckets: seq<Bucket>): nat {
    if buckets == [] then 0 else |buckets[0].ids| + Size(buckets[1..])
  }

  function Trim(c: Cache, maxIds: int): Cache
    decreases |c.buckets|
  {
    if Size(c.buckets) > maxIds && |c.buckets| > 1
    then Trim(Cache(c.buckets[1..], c.evictedEarly + |c.buckets[0].ids|), maxIds)
    else c
  }

  /** A call for an id: the bucket its time falls in and the oldest bucket it keeps. */
  datatype Call = Call(id: string, index: int, cutoff: int)

  function CallAt(cfg: Config, id: string, t: int): Call {
    Call(id, IndexOf(cfg, t), CutoffOf(cfg, t))
  }

  predicate IsNew(c: Cache, call: Call) {
    !Has(Expire(c.buckets, call.cutoff), call.id)
  }

  function AfterCall(maxIds: int, c: Cache, call: Call): Cache {
    var kept := c.(buckets := Expire(c.buckets, call.cutoff));
    if Has(kept.buckets, call.id) then kept
    else Trim(kept.(buckets := Record(kept.buckets, call.index, call.id)), maxIds)
  }

  // ---- The class ------------------------------------------------------------

  class DedupCache {
    const cfg: Config
    var buckets: seq<Bucket>
    var evictedEarly: nat
    var seenCount: nat
    var duplicateCount: nat

    ghost function Value(): Cache
      reads this
    {
      Cache(buckets, evictedEarly)
    }

    constructor (cfg: Config)
      ensures this.cfg == cfg && Value() == EMPTY && seenCount == duplicateCount == 0
    {
      this.cfg := cfg;
      buckets, evictedEarly, seenCount, duplicateCount := [], 0, 0, 0;
    }

    /** True for an id not held; it is recorded then. Either way everything before the cutoff goes. */
    method IsNewId(id: string, eventTimeMs: int) returns (isNew: bool)
      modifies this
      ensures isNew == IsNew(old(Value()), CallAt(cfg, id, eventTimeMs))
      ensures Value() == AfterCall(cfg.maxIds, old(Value()), CallAt(cfg, id, eventTimeMs))
      ensures seenCount == old(seenCount) + 1
      ensures duplicateCount == old(duplicateCount) + (if isNew then 0 else 1)
    {
      var call := CallAt(cfg, id, eventTimeMs);
      seenCount := seenCount + 1;
      DropExpired(call.cutoff);
      var seen := Seen(id);
      if seen {
        duplicateCount := duplicateCount + 1;
        return false;
      }
      Store(call.index, id);
      EnforceSize();
      return true;
    }

    method Seen(id: string) returns (seen: bool)
      ensures seen == Has(buckets, id)
    {
      for i := 0 to |buckets|
        invariant forall b :: b in buckets[..i] ==> id !in b.ids
      {
        if id in buckets[i].ids {
          return true;
        }
      }
      assert buckets[..|buckets|] == buckets;
      return false;
    }

    method DropExpired(cutoff: int)
      modifies this`buckets
      ensures buckets == Expire(old(buckets), cutoff)
    {
      var kept := [];
      for i := 0 to |buckets|
        invariant buckets == old(buckets)
        invariant kept + Expire(buckets[i..], cutoff) == Expire(buckets, cutoff)
      {
        assert buckets[i..][1..] == buckets[i + 1..];
        if buckets[i].index >= cutoff {
          kept := kept + [buckets[i]];
        }
      }
      buckets := kept;
    }

    /** Add an id to the bucket with this index, creating it at the end if needed. */
    method Store(index: int, id: string)
      modifies this`buckets
      ensures buckets == Record(old(buckets), index, id)
    {
      for i := 0 to |buckets|
        invariant buckets == old(buckets)
        invariant Record(buckets, index, id) == buckets[..i] + Record(buckets[i..], index, id)
      {
        assert buckets[i..][1..] == buckets[i + 1..];
        if buckets[i].index == index {
          RecordHere(buckets, i, index, id);
          buckets := buckets[i := Bucket(index, buckets[i].ids + {id})];
          return;
        }
      }
      buckets := buckets + [Bucket(index, {id})];
    }

    /** Guard against memory growth: the oldest inserted buckets go first. */
    method EnforceSize()
      modifies this`buckets, this`evictedEarly
      ensures Value() == Trim(old(Value()), cfg.maxIds)
    {
      while Size(buckets) > cfg.maxIds && |buckets| > 1
        invariant Trim(Value(), cfg.maxIds) == Trim(old(Value()), cfg.maxIds)
        decreases |buckets|
      {
        evictedEarly := evictedEarly + |buckets[0].ids|;
        buckets := buckets[1..];
      }
    }

    method Clear()
      modifies this`buckets
      ensures Value() == old(Value()).(buckets := [])
    {
      buckets := [];
    }
  }

  lemma RecordHere(buckets: seq<Bucket>, i: nat, index: int, id: string)
    requires i < |buckets| && buckets[i].index == index
    requires Record(buckets, index, id) == buckets[..i] + Record(buckets[i..], index, id)
    ensures Record(buckets, index, id) == buckets[i := Bucket(index, buckets[i].ids + {id})]
  {
    var rest := buckets[i..];
    assert rest[0] == buckets[i] && rest[1..] == buckets[i + 1..];
    assert Record(rest, index, id) == [Bucket(index, rest[0].ids + {id})] + rest[1..];
  }

  // ---- Which ids are held in which bucket -----------------------------------

  ghost predicate Holds(buckets: seq<Bucket>, id: string, index: int) {
    exists i :: 0 <= i < |buckets| && buckets[i].index == index && id in buckets[i].ids
  }

  lemma HasIsHeld(buckets: seq<Bucket>, id: string)
    ensures Has(buckets, id) <==> exists b :: Holds(buckets, id, b)
  {
    if Has(buckets, id) {
      var b :| b in buckets && id in b.ids;
      assert Holds(buckets, id, b.index);
    }
  }

  lemma HoldsStep(buckets: seq<Bucket>, id: string, index: int)
    requires buckets != []
    ensures Holds(buckets, id, index) <==>
            (buckets[0].index == index && id in buckets[0].ids) || Holds(buckets[1..], id, index)
  {
    if Holds(buckets[1..], id, index) {
      var i :| 0 <= i < |buckets[1..]| && buckets[1..][i].index == index && id in buckets[1..][i].ids;
      assert buckets[i + 1] == buckets[1..][i];
    }
    if Holds(buckets, id, index) {
      var i :| 0 <= i < |buckets| && buckets[i].index == index && id in buckets[i].ids;
      assert i > 0 ==> buckets[1..][i - 1] == buckets[i];
    }
  }

  lemma {:induction false} ExpireHolds(buckets: seq<Bucket>, cutoff: int, id: string, index: int)
    ensures Holds(Expire(buckets, cutoff), id, index) <==> Holds(buckets, id, index) && index >= cutoff
  {
    if buckets != [] {
      ExpireHolds(buckets[1..], cutoff, id, index);
      HoldsStep(buckets, id, index);
      if buckets[0].index >= cutoff {
        var kept := Expire(buckets, cutoff);
        assert kept[1..] == Expire(buckets[1..], cutoff);
        HoldsStep(kept, id, index);
      } else {
        assert Expire(buckets, cutoff) == Expire(buckets[1..], cutoff);
      }
    }
  }

  lemma {:induction false} RecordHolds(buckets: seq<Bucket>, at: int, newId: string, id: string, index: int)
    ensures Holds(Record(buckets, at, newId), id, index) <==>
            Holds(buckets, id, index) || (id == newId && index == at)
  {
    var after := Record(buckets, at, newId);
    HoldsStep(after, id, index);
    if buckets != [] {
      HoldsStep(buckets, id, index);
      if buckets[0].index == at {
        assert after[1..] == buckets[1..];
      } else {
        assert after[1..] == Record(buckets[1..], at, newId);
        RecordHolds(buckets[1..], at, newId, id, index);
      }
    }
  }

  lemma {:induction false} TrimHolds(c: Cache, maxIds: int, id: string, index: int)
    ensures Holds(Trim(c, maxIds).buckets, id, index) ==> Holds(c.buckets, id, index)
    ensures Trim(c, maxIds).evictedEarly >= c.evictedEarly
    decreases |c.buckets|
  {
    if Size(c.buckets) > maxIds && |c.buckets| > 1 {
      TrimHolds(Cache(c.buckets[1..], c.evictedEarly + |c.buckets[0].ids|), maxIds, id, index);
      HoldsStep(c.buckets, id, index);
    }
  }

  /** No bucket is ever empty, so dropping one always shows in evictedEarly. */
  ghost predicate NoEmptyBucket(buckets: seq<Bucket>) {
    forall i :: 0 <= i < |buckets| ==> buckets[i].ids != {}
  }

  lemma {:induction false} ExpireKeepsNonEmpty(buckets: seq<Bucket>, cutoff: int)
    requires NoEmptyBucket(buckets)
    ensures NoEmptyBucket(Expire(buckets, cutoff))
  {
    if buckets != [] {
      ExpireKeepsNonEmpty(buckets[1..], cutoff);
    }
  }

  lemma {:induction false} RecordKeepsNonEmpty(buckets: seq<Bucket>, index: int, id: string)
    requires NoEmptyBucket(buckets)
    ensures NoEmptyBucket(Record(buckets, index, id))
  {
    if buckets != [] && buckets[0].index != index {
      RecordKeepsNonEmpty(buckets[1..], index, id);
    } else if buckets != [] {
      assert id in Record(buckets, index, id)[0].ids;
    } else {
      assert id in Record(buckets, index, id)[0].ids;
    }
  }

  lemma {:induction false} TrimKeepsNonEmpty(c: Cache, maxIds: int)
    requires NoEmptyBucket(c.buckets)
    ensures NoEmptyBucket(Trim(c, maxIds).buckets)
    ensures Trim(c, maxIds).evictedEarly == c.evictedEarly ==> Trim(c, maxIds) == c
    ensures Trim(c, maxIds).evictedEarly >= c.evictedEarly
    decreases |c.buckets|
  {
    if Size(c.buckets) > maxIds && |c.buckets| > 1 {
      assert |c.buckets[0].ids| > 0;
      TrimKeepsNonEmpty(Cache(c.buckets[1..], c.evictedEarly + |c.buckets[0].ids|), maxIds);
    }
  }

  /** One call, seen from one id and one bucket. */
  lemma CallHolds(maxIds: int, c: Cache, call: Call, x: string, index: int)
    requires NoEmptyBucket(c.buckets)
    ensures var c' := AfterCall(maxIds, c, call);
            var kept := Holds(c.buckets, x, index) && index >= call.cutoff;
            var added := IsNew(c, call) && x == call.id && index == call.index;
            && NoEmptyBucket(c'.buckets) && c'.evictedEarly >= c.evictedEarly
            && (Holds(c'.buckets, x, index) ==> kept || added)
            && (c'.evictedEarly == c.evictedEarly ==> (Holds(c'.buckets, x, index) <==> kept || added))
  {
    var kept := c.(buckets := Expire(c.buckets, call.cutoff));
    ExpireHolds(c.buckets, call.cutoff, x, index);
    ExpireKeepsNonEmpty(c.buckets, call.cutoff);
    if IsNew(c, call) {
      var grown := kept.(buckets := Record(kept.buckets, call.index, call.id));
      RecordHolds(kept.buckets, call.index, call.id, x, index);
      RecordKeepsNonEmpty(kept.buckets, call.index, call.id);
      TrimHolds(grown, maxIds, x, index);
      TrimKeepsNonEmpty(grown, maxIds);
    }
  }

  /** A call finds an id a duplicate exactly when some bucket at or past its cutoff holds it. */
  lemma DuplicateIffHeld(c: Cache, call: Call)
    ensures !IsNew(c, call) <==> exists b :: b >= call.cutoff && Holds(c.buckets, call.id, b)
  {
    var kept := Expire(c.buckets, call.cutoff);
    HasIsHeld(kept, call.id);
    forall b
      ensures Holds(kept, call.id, b) <==> Holds(c.buckets, call.id, b) && b >= call.cutoff
    {
      ExpireHolds(c.buckets, call.cutoff, call.id, b);
    }
  }

  // ---- Order and size of the buckets ----------------------------------------

  /** The first k buckets, and no more than must be, make way for the size limit. */
  ghost predicate DropsFirst(buckets: seq<Bucket>, maxIds: int, k: nat) {
    && k <= |buckets| && (Size(buckets[k..]) <= maxIds || |buckets| - k <= 1)
    && forall j :: 0 <= j < k ==> Size(buckets[j..]) > maxIds && |buckets| - j > 1
  }

  lemma DropsOneMore(buckets: seq<Bucket>, maxIds: int, k: nat)
    requires Size(buckets) > maxIds && |buckets| > 1 && DropsFirst(buckets[1..], maxIds, k)
    ensures DropsFirst(buckets, maxIds, k + 1)
  {
    TailOfTail(buckets, k + 1);
    forall j | 0 <= j < k + 1
      ensures Size(buckets[j..]) > maxIds && |buckets| - j > 1
    {
      TailOfTail(buckets, j);
    }
  }

  lemma TailOfTail(buckets: seq<Bucket>, j: nat)
    requires j <= |buckets|
    ensures buckets[j..] == if j > 0 then buckets[1..][j - 1..] else buckets
  {
  }

  /** r is what is left of c once the first k buckets, no more than must, made way and their ids were counted. */
  ghost predicate IsTrimmed(c: Cache, maxIds: int, r: Cache, k: nat) {
    DropsFirst(c.buckets, maxIds, k) && r == Cache(c.buckets[k..], c.evictedEarly + Size(c.buckets[..k]))
  }

  lemma TrimsOneMore(c: Cache, maxIds: int, r: Cache, k: nat)
    requires Size(c.buckets) > maxIds && |c.buckets| > 1
    requires IsTrimmed(Cache(c.buckets[1..], c.evictedEarly + |c.buckets[0].ids|), maxIds, r, k)
    ensures IsTrimmed(c, maxIds, r, k + 1)
  {
    DropsOneMore(c.buckets, maxIds, k);
    TailOfTail(c.buckets, k + 1);
    SizeOfFront(c.buckets, k);
  }

  lemma SizeOfFront(buckets: seq<Bucket>, k: nat)
    requires k < |buckets|
    ensures Size(buckets[..k + 1]) == |buckets[0].ids| + Size(buckets[1..][..k])
  {
    assert buckets[..k + 1][1..] == buckets[1..][..k];
  }

  lemma TrimStep(c: Cache, maxIds: int)
    requires Size(c.buckets) > maxIds && |c.buckets| > 1
    ensures Trim(c, maxIds) == Trim(Cache(c.buckets[1..], c.evictedEarly + |c.buckets[0].ids|), maxIds)
  {
  }

  lemma TrimsNone(c: Cache, maxIds: int)
    requires Size(c.buckets) <= maxIds || |c.buckets| <= 1
    ensures IsTrimmed(c, maxIds, c, 0)
  {
    assert c.buckets[0..] == c.buckets && c.buckets[..0] == [];
  }

  /** Size eviction drops buckets from the front, no more of them than it must, and counts their ids. */
  lemma {:induction false} TrimDropsOldest(c: Cache, maxIds: int)
    ensures exists k: nat :: IsTrimmed(c, maxIds, Trim(c, maxIds), k)
    decreases |c.buckets|
  {
    if Size(c.buckets) > maxIds && |c.buckets| > 1 {
      var fewer := Cache(c.buckets[1..], c.evictedEarly + |c.buckets[0].ids|);
      TrimDropsOldest(fewer, maxIds);
      var k: nat :| IsTrimmed(fewer, maxIds, Trim(fewer, maxIds), k);
      TrimsOneMore(c, maxIds, Trim(fewer, maxIds), k);
      TrimStep(c, maxIds);
      assert IsTrimmed(c, maxIds, Trim(c, maxIds), k + 1);
    } else {
      TrimsNone(c, maxIds);
      assert IsTrimmed(c, maxIds, Trim(c, maxIds), 0);
    }
  }

  /** A new id joins the bucket of its time where that bucket stands, or opens one behind all others. */
  lemma {:induction false} RecordKeepsOrder(buckets: seq<Bucket>, index: int, id: string)
    ensures (forall b :: b in buckets ==> b.index != index) ==>
              Record(buckets, index, id) == buckets + [Bucket(index, {id})]
    ensures (exists b :: b in buckets && b.index == index) ==>
              exists k :: 0 <= k < |buckets| && buckets[k].index == index
                          && Record(buckets, index, id) == buckets[k := Bucket(index, buckets[k].ids + {id})]
  {
    if buckets != [] && buckets[0].index != index {
      var rest := buckets[1..];
      RecordKeepsOrder(rest, index, id);
      assert buckets == [buckets[0]] + rest;
      if b :| b in buckets && b.index == index {
        assert b in rest;
        var k :| 0 <= k < |rest| && rest[k].index == index
                 && Record(rest, index, id) == rest[k := Bucket(index, rest[k].ids + {id})];
        assert buckets[k + 1].index == index;
        assert Record(buckets, index, id) == buckets[k + 1 := Bucket(index, buckets[k + 1].ids + {id})];
      }
    } else if buckets != [] {
      assert buckets[0] in buckets;
      assert Record(buckets, index, id) == buckets[0 := Bucket(index, buckets[0].ids + {id})];
    }
  }

  /** The ids held in any bucket. */
  function Ids(buckets: seq<Bucket>): (ids: set<string>)
    ensures forall id :: id in ids <==> Has(buckets, id)
  {
    if buckets == [] then {} else buckets[0].ids + Ids(buckets[1..])
  }

  /** No id is in two buckets. */
  ghost predicate Apart(buckets: seq<Bucket>) {
    buckets != [] ==> buckets[0].ids !! Ids(buckets[1..]) && Apart(buckets[1..])
  }

  lemma {:induction false} SizeOfApart(buckets: seq<Bucket>)
    requires Apart(buckets)
    ensures Size(buckets) == |Ids(buckets)|
  {
    if buckets != [] {
      SizeOfApart(buckets[1..]);
    }
  }

  lemma {:induction false} ExpireStaysApart(buckets: seq<Bucket>, cutoff: int)
    requires Apart(buckets)
    ensures Apart(Expire(buckets, cutoff)) && Ids(Expire(buckets, cutoff)) <= Ids(buckets)
    ensures Size(Expire(buckets, cutoff)) <= Size(buckets) && |Expire(buckets, cutoff)| <= |buckets|
  {
    if buckets != [] {
      var rest := Expire(buckets[1..], cutoff);
      ExpireStaysApart(buckets[1..], cutoff);
      if buckets[0].index < cutoff {
        assert Expire(buckets, cutoff) == rest;
      } else {
        assert Expire(buckets, cutoff)[1..] == rest;
      }
    }
  }

  lemma {:induction false} RecordStaysApart(buckets: seq<Bucket>, index: int, id: string)
    requires Apart(buckets) && id !in Ids(buckets)
    ensures Apart(Record(buckets, index, id)) && Ids(Record(buckets, index, id)) == Ids(buckets) + {id}
  {
    if buckets == [] {
      assert [Bucket(index, {id})][1..] == [];
    } else {
      var after := Record(buckets, index, id);
      if buckets[0].index == index {
        assert after[1..] == buckets[1..];
      } else {
        RecordStaysApart(buckets[1..], index, id);
        assert after[1..] == Record(buckets[1..], index, id);
      }
    }
  }

  lemma {:induction false} TailStaysApart(buckets: seq<Bucket>, k: nat)
    requires Apart(buckets) && k <= |buckets|
    ensures Apart(buckets[k..])
  {
    if k > 0 {
      TailStaysApart(buckets[1..], k - 1);
      assert buckets[1..][k - 1..] == buckets[k..];
    } else {
      assert buckets[0..] == buckets;
    }
  }

  ghost predicate Bounded(maxIds: int, buckets: seq<Bucket>) {
    Apart(buckets) && (Size(buckets) <= maxIds || |buckets| <= 1)
  }

  lemma CallStaysBounded(maxIds: int, c: Cache, call: Call)
    requires Bounded(maxIds, c.buckets)
    ensures Bounded(maxIds, AfterCall(maxIds, c, call).buckets)
  {
    var kept := Expire(c.buckets, call.cutoff);
    ExpireStaysApart(c.buckets, call.cutoff);
    if IsNew(c, call) {
      var grown := Cache(Record(kept, call.index, call.id), c.evictedEarly);
      RecordStaysApart(kept, call.index, call.id);
      TrimDropsOldest(grown, maxIds);
      var k: nat :| IsTrimmed(grown, maxIds, Trim(grown, maxIds), k);
      TailStaysApart(grown.buckets, k);
    }
  }

  // ---- Any sequence of calls since the last clear ---------------------------

  function Run(maxIds: int, calls: seq<Call>, n: nat): Cache
    requires n <= |calls|
  {
    if n == 0 then EMPTY else AfterCall(maxIds, Run(maxIds, calls, n - 1), calls[n - 1])
  }

  /** Call k recorded its id, that is, returned true. */
  predicate Recorded(maxIds: int, calls: seq<Call>, k: nat)
    requires k < |calls|
  {
    IsNew(Run(maxIds, calls, k), calls[k])
  }

  /** Call k recorded id in bucket index, and none of the calls after it and before n dropped that bucket. */
  ghost predicate HeldFrom(maxIds: int, calls: seq<Call>, n: nat, id: string, index: int, k: nat)
    requires n <= |calls|
  {
    && k < n && Recorded(maxIds, calls, k) && calls[k].id == id && calls[k].index == index
    && forall j :: k < j < n ==> calls[j].cutoff <= index
  }

  /** What call n - 1 does to one bucket and id. */
  lemma RunStep(maxIds: int, calls: seq<Call>, n: nat, id: string, index: int)
    requires 0 < n <= |calls| && Run(maxIds, calls, n).evictedEarly == 0
    ensures Run(maxIds, calls, n - 1).evictedEarly == 0
    ensures Holds(Run(maxIds, calls, n).buckets, id, index) <==>
            || (Holds(Run(maxIds, calls, n - 1).buckets, id, index) && calls[n - 1].cutoff <= index)
            || (Recorded(maxIds, calls, n - 1) && calls[n - 1].id == id && calls[n - 1].index == index)
  {
    RunIsSound(maxIds, calls, n - 1, id, index);
    CallHolds(maxIds, Run(maxIds, calls, n - 1), calls[n - 1], id, index);
  }

  lemma HeldNowOrBefore(maxIds: int, calls: seq<Call>, n: nat, id: string, index: int) returns (now: bool)
    requires n <= |calls| && Run(maxIds, calls, n).evictedEarly == 0
    requires Holds(Run(maxIds, calls, n).buckets, id, index)
    ensures 0 < n && Run(maxIds, calls, n - 1).evictedEarly == 0
    ensures now ==> HeldFrom(maxIds, calls, n, id, index, n - 1)
    ensures !now ==> Holds(Run(maxIds, calls, n - 1).buckets, id, index) && calls[n - 1].cutoff <= index
  {
    RunStep(maxIds, calls, n, id, index);
    now := Recorded(maxIds, calls, n - 1) && calls[n - 1].id == id && calls[n - 1].index == index;
  }

  lemma {:induction false} HeldIsRecorded(maxIds: int, calls: seq<Call>, n: nat, id: string, index: int)
    requires n <= |calls| && Run(maxIds, calls, n).evictedEarly == 0
    requires Holds(Run(maxIds, calls, n).buckets, id, index)
    ensures exists k: nat :: HeldFrom(maxIds, calls, n, id, index, k)
    decreases n
  {
    var now := HeldNowOrBefore(maxIds, calls, n, id, index);
    if !now {
      HeldIsRecorded(maxIds, calls, n - 1, id, index);
      var k: nat :| HeldFrom(maxIds, calls, n - 1, id, index, k);
      HeldOneMore(maxIds, calls, n, id, index, k);
    }
  }

  lemma HeldOneMore(maxIds: int, calls: seq<Call>, n: nat, id: string, index: int, k: nat)
    requires 0 < n <= |calls| && HeldFrom(maxIds, calls, n - 1, id, index, k) && calls[n - 1].cutoff <= index
    ensures HeldFrom(maxIds, calls, n, id, index, k)
  {
  }

  lemma {:induction false} RecordedIsHeld(maxIds: int, calls: seq<Call>, n: nat, id: string, index: int, k: nat)
    requires n <= |calls| && Run(maxIds, calls, n).evictedEarly == 0
    requires HeldFrom(maxIds, calls, n, id, index, k)
    ensures Holds(Run(maxIds, calls, n).buckets, id, index)
  {
    RunStep(maxIds, calls, n, id, index);
    if k < n - 1 {
      RecordedIsHeld(maxIds, calls, n - 1, id, index, k);
    }
  }

  /** Whatever was evicted, an id in the cache was recorded by an earlier call. */
  lemma {:induction false} RunIsSound(maxIds: int, calls: seq<Call>, n: nat, id: string, index: int)
    requires n <= |calls|
    ensures NoEmptyBucket(Run(maxIds, calls, n).buckets)
    ensures Holds(Run(maxIds, calls, n).buckets, id, index) ==>
              exists k: nat :: k < n && Recorded(maxIds, calls, k) && calls[k].id == id
  {
    if n > 0 {
      RunIsSound(maxIds, calls, n - 1, id, index);
      CallHolds(maxIds, Run(maxIds, calls, n - 1), calls[n - 1], id, index);
    }
  }

  /** Call k recorded the id of call n, and no call in (k, n] dropped its bucket. */
  ghost predicate KeptUntil(maxIds: int, calls: seq<Call>, k: nat, n: nat)
    requires k < n < |calls|
  {
    && Recorded(maxIds, calls, k) && calls[k].id == calls[n].id
    && forall j :: k < j <= n ==> calls[j].cutoff <= calls[k].index
  }

  lemma KeptMeansDuplicate(maxIds: int, calls: seq<Call>, k: nat, n: nat)
    requires k < n < |calls| && Run(maxIds, calls, n).evictedEarly == 0 && KeptUntil(maxIds, calls, k, n)
    ensures !Recorded(maxIds, calls, n)
  {
    RecordedIsHeld(maxIds, calls, n, calls[n].id, calls[k].index, k);
    DuplicateIffHeld(Run(maxIds, calls, n), calls[n]);
  }

  lemma HeldIsKept(maxIds: int, calls: seq<Call>, n: nat, index: int, k: nat)
    requires n < |calls| && HeldFrom(maxIds, calls, n, calls[n].id, index, k) && calls[n].cutoff <= index
    ensures KeptUntil(maxIds, calls, k, n)
  {
  }

  lemma DuplicateMeansKept(maxIds: int, calls: seq<Call>, n: nat)
    requires n < |calls| && Run(maxIds, calls, n).evictedEarly == 0 && !Recorded(maxIds, calls, n)
    ensures exists k: nat :: k < n && KeptUntil(maxIds, calls, k, n)
  {
    var c, id := Run(maxIds, calls, n), calls[n].id;
    DuplicateIffHeld(c, calls[n]);
    var b :| b >= calls[n].cutoff && Holds(c.buckets, id, b);
    HeldIsRecorded(maxIds, calls, n, id, b);
    var k: nat :| HeldFrom(maxIds, calls, n, id, b, k);
    HeldIsKept(maxIds, calls, n, b, k);
  }

  lemma RunUnrolls(maxIds: int, calls: seq<Call>, n: nat)
    requires 0 < n <= |calls|
    ensures Run(maxIds, calls, n) == AfterCall(maxIds, Run(maxIds, calls, n - 1), calls[n - 1])
  {
  }

  lemma {:induction false} RunStaysBounded(maxIds: int, calls: seq<Call>, n: nat)
    requires n <= |calls|
    ensures Bounded(maxIds, Run(maxIds, calls, n).buckets)
    decreases n
  {
    if n > 0 {
      RunStaysBounded(maxIds, calls, n - 1);
      CallStaysBounded(maxIds, Run(maxIds, calls, n - 1), calls[n - 1]);
      RunUnrolls(maxIds, calls, n);
    }
  }

  /** After any calls no id is held twice, and no more ids than the cap are, unless all are in one bucket. */
  lemma SizeIsBounded(maxIds: int, calls: seq<Call>, n: nat)
    requires n <= |calls|
    ensures var held := Run(maxIds, calls, n).buckets;
            Apart(held) && (|Ids(held)| <= maxIds || |held| <= 1)
  {
    RunStaysBounded(maxIds, calls, n);
    SizeOfApart(Run(maxIds, calls, n).buckets);
  }

  // ---- The theorems, in terms of the times the calls are made for -----------

  datatype Timed = Timed(id: string, time: int)

  function Calls(cfg: Config, history: seq<Timed>): (calls: seq<Call>)
    ensures |calls| == |history|
  {
    seq(|history|, i requires 0 <= i < |history| => CallAt(cfg, history[i].id, history[i].time))
  }

  /** The cache after the first n calls of a history. */
  function After(cfg: Config, history: seq<Timed>, n: nat): Cache
    requires n <= |history|
  {
    Run(cfg.maxIds, Calls(cfg, history), n)
  }

  /** is_new returned true for call k. */
  predicate WasNew(cfg: Config, history: seq<Timed>, k: nat)
    requires k < |history|
  {
    IsNew(After(cfg, history, k), CallAt(cfg, history[k].id, history[k].time))
  }

  /** s is the width of a bucket: the window shared out among the buckets, rounded down, and at least 1. */
  ghost predicate IsShare(cfg: Config, s: int) {
    s >= 1 && (s * cfg.buckets <= cfg.windowMs < (s + 1) * cfg.buckets || (s == 1 && cfg.windowMs < cfg.buckets))
  }

  lemma SpanIsShare(cfg: Config, s: int)
    ensures IsShare(cfg, s) <==> s == Span(cfg)
  {
    var q, r := cfg.windowMs / cfg.buckets, cfg.windowMs % cfg.buckets;
    assert cfg.windowMs == q * cfg.buckets + r;
    if s * cfg.buckets <= cfg.windowMs < (s + 1) * cfg.buckets {
      DivUnique(cfg.windowMs, cfg.buckets, s, cfg.windowMs - s * cfg.buckets);
    }
    if cfg.windowMs < cfg.buckets {
      assert q >= 1 ==> q * cfg.buckets >= cfg.buckets;
    } else {
      assert q <= 0 ==> q * cfg.buckets <= 0;
    }
  }

  /**
   No call in (k, n] was late enough to expire what call k recorded: the bucket of call k is
   never before the one in which the window of a later call begins.
   */
  ghost predicate StillInWindow(cfg: Config, history: seq<Timed>, k: nat, n: nat, s: int)
    requires k < n < |history| && s >= 1
  {
    forall j :: k < j <= n ==> (history[j].time - cfg.windowMs) / s <= history[k].time / s
  }

  lemma KeptIsInWindow(cfg: Config, history: seq<Timed>, k: nat, n: nat, s: int)
    requires k < n < |history| && s == Span(cfg)
    ensures var calls := Calls(cfg, history);
            KeptUntil(cfg.maxIds, calls, k, n) <==>
            Recorded(cfg.maxIds, calls, k) && history[k].id == history[n].id && StillInWindow(cfg, history, k, n, s)
  {
    var calls := Calls(cfg, history);
    assert calls[k].index == history[k].time / s;
    assert forall j :: k < j <= n ==> calls[j].cutoff == (history[j].time - cfg.windowMs) / s;
  }

  /**
   Without size eviction the buckets are a sliding window: a call returns false
   exactly when its id was recorded by an earlier call and no call since, this one
   included, had a cutoff past that call's bucket. s is the width of a bucket.
   */
  lemma DuplicateIffInWindow(cfg: Config, history: seq<Timed>, n: nat, s: int)
    requires n < |history| && After(cfg, history, n).evictedEarly == 0 && IsShare(cfg, s)
    ensures !WasNew(cfg, history, n) <==>
            exists k: nat :: k < n && WasNew(cfg, history, k) && history[k].id == history[n].id
                             && StillInWindow(cfg, history, k, n, s)
  {
    SpanIsShare(cfg, s);
    var calls := Calls(cfg, history);
    assert forall k: nat :: k < |history| ==> (WasNew(cfg, history, k) <==> Recorded(cfg.maxIds, calls, k));
    forall k: nat | k < n
      ensures KeptUntil(cfg.maxIds, calls, k, n) <==>
              WasNew(cfg, history, k) && history[k].id == history[n].id && StillInWindow(cfg, history, k, n, s)
    {
      KeptIsInWindow(cfg, history, k, n, s);
    }
    if !WasNew(cfg, history, n) {
      DuplicateMeansKept(cfg.maxIds, calls, n);
    } else if k: nat :| k < n && KeptUntil(cfg.maxIds, calls, k, n) {
      KeptMeansDuplicate(cfg.maxIds, calls, k, n);
    }
  }

  lemma DivMonotone(a: int, b: int, d: int)
    requires a <= b && d >= 1
    ensures a / d <= b / d
  {
    var qa, qb := a / d, b / d;
    assert a == qa * d + a % d && b == qb * d + b % d;
    assert qb < qa ==> (qb + 1) * d <= qa * d;
  }

  lemma WithinWindowIsKept(cfg: Config, t0: int, t: int)
    requires t <= t0 + cfg.windowMs
    ensures CutoffOf(cfg, t) <= IndexOf(cfg, t0)
  {
    DivMonotone(t - cfg.windowMs, t0, Span(cfg));
  }

  lemma SpanPastWindowIsDropped(cfg: Config, t0: int, t: int)
    requires t >= t0 + cfg.windowMs + Span(cfg)
    ensures CutoffOf(cfg, t) > IndexOf(cfg, t0)
  {
    var d := Span(cfg);
    DivMonotone(t0 + d, t - cfg.windowMs, d);
    var q, r := t0 / d, t0 % d;
    assert t0 == q * d + r;
    assert t0 + d == (q + 1) * d + r;
    DivUnique(t0 + d, d, q + 1, r);
  }

  lemma DivUnique(a: int, d: int, q: int, r: int)
    requires d >= 1 && 0 <= r < d && a == q * d + r
    ensures a / d == q
  {
    var q', r' := a / d, a % d;
    assert a == q' * d + r' && 0 <= r' < d;
    assert q' < q ==> (q' + 1) * d <= q * d;
    assert q < q' ==> (q + 1) * d <= q' * d;
  }

  /** A repeat is caught as long as no call since was more than the window after the first. */
  lemma RepeatWithinWindowIsCaught(cfg: Config, history: seq<Timed>, k: nat, n: nat)
    requires k < n < |history| && After(cfg, history, n).evictedEarly == 0
    requires WasNew(cfg, history, k) && history[k].id == history[n].id
    requires forall j :: k < j <= n ==> history[j].time <= history[k].time + cfg.windowMs
    ensures !WasNew(cfg, history, n)
  {
    forall j | k < j <= n
      ensures CutoffOf(cfg, history[j].time) <= IndexOf(cfg, history[k].time)
    {
      WithinWindowIsKept(cfg, history[k].time, history[j].time);
    }
    SpanIsShare(cfg, Span(cfg));
    assert StillInWindow(cfg, history, k, n, Span(cfg));
    DuplicateIffInWindow(cfg, history, n, Span(cfg));
  }

  /** Some call in (k, n] was made for a time a window and one bucket after call k's, or later. */
  ghost predicate LateCallAfter(cfg: Config, history: seq<Timed>, k: nat, n: nat)
    requires k < n < |history|
  {
    exists j :: k < j <= n && history[j].time >= history[k].time + cfg.windowMs + Max(cfg.windowMs / cfg.buckets, 1)
  }

  /**
   An id is new again once, after every time it was recorded, some call for any id was
   made for a time a window and one bucket later; that call may be the repeat itself.
   */
  lemma RepeatPastWindowIsForgotten(cfg: Config, history: seq<Timed>, n: nat)
    requires n < |history| && After(cfg, history, n).evictedEarly == 0
    requires forall k: nat :: k < n && WasNew(cfg, history, k) && history[k].id == history[n].id ==>
               LateCallAfter(cfg, history, k, n)
    ensures WasNew(cfg, history, n)
  {
    SpanIsShare(cfg, Span(cfg));
    DuplicateIffInWindow(cfg, history, n, Span(cfg));
    forall k: nat | k < n && WasNew(cfg, history, k) && history[k].id == history[n].id
      ensures !StillInWindow(cfg, history, k, n, Span(cfg))
    {
      LateCallDrops(cfg, history, k, n);
    }
  }

  lemma LateCallDrops(cfg: Config, history: seq<Timed>, k: nat, n: nat)
    requires k < n < |history| && LateCallAfter(cfg, history, k, n)
    ensures !StillInWindow(cfg, history, k, n, Span(cfg))
  {
    var j :| k < j <= n
             && history[j].time >= history[k].time + cfg.windowMs + Max(cfg.windowMs / cfg.buckets, 1);
    SpanPastWindowIsDropped(cfg, history[k].time, history[j].time);
  }

  /** With any amount of eviction, an id is called a duplicate only if an earlier call recorded it. */
  lemma NoFalseDuplicates(cfg: Config, history: seq<Timed>, n: nat)
    requires n < |history| && !WasNew(cfg, history, n)
    ensures exists k: nat :: k < n && WasNew(cfg, history, k) && history[k].id == history[n].id
  {
    var calls := Calls(cfg, history);
    DuplicateIffHeld(Run(cfg.maxIds, calls, n), calls[n]);
    var b :| Holds(Run(cfg.maxIds, calls, n).buckets, calls[n].id, b);
    RunIsSound(cfg.maxIds, calls, n, calls[n].id, b);
    var k: nat :| k < n && Recorded(cfg.maxIds, calls, k) && calls[k].id == calls[n].id;
    assert WasNew(cfg, history, k);
  }
}

