/** The whole path of an event: stream, wiki.raw, cleaner, wiki.clean, edits table. */
module EndToEnd {
  import opened Common
  import opened Events
  import Dedup
  import I = Ingestor
  import C = Cleaner
  import S = Sink

  /** How many partitions there are and which one a page key is sent to. Raw records may go anywhere. */
  datatype Net = Net(setup: C.Setup, rawCount: nat, cleanCount: nat, partitionOf: string -> nat)

  function CleanPartition(net: Net, e: CleanEvent): nat
    requires net.cleanCount > 0
  {
    net.partitionOf(PageKey(e)) % net.cleanCount
  }

  /**
   The machines of Ingestor, Cleaner and Sink run side by side, one cleaner for each raw
   partition and one sink owner for each clean partition, and every one of them may die at
   any step.
   */
  datatype State = State(
    ingest: I.State,
    raw: seq<RawLog>,
    cleaners: seq<C.State>,
    clean: seq<seq<CleanEvent>>,
    sinks: seq<S.State>,
    table: S.Table)

  function Init(net: Net): State {
    State(I.INIT, seq(net.rawCount, _ => []), seq(net.rawCount, _ => C.INIT),
          seq(net.cleanCount, _ => []), seq(net.cleanCount, _ => S.State(0, None)), [])
  }

  datatype Step =
    | Ingest(step: I.Step)
    | Arrive(event: nat, p: nat, timestamp: int)
    | Clean(p: nat, cleanStep: C.Step)
    | Store(q: nat, sinkStep: S.Step)

  /** The events of a transaction that go to clean partition q, in order. */
  function Routed(net: Net, events: seq<CleanEvent>, q: nat): seq<CleanEvent>
    requires net.cleanCount > 0
  {
    if events == [] then []
    else
      var last := events[|events| - 1];
      Routed(net, events[..|events| - 1], q) + (if CleanPartition(net, last) == q then [last] else [])
  }

  /** What has been added to an output since it was before. */
  function Since(before: seq<CleanEvent>, after: seq<CleanEvent>): seq<CleanEvent> {
    if |before| <= |after| then after[|before|..] else []
  }

  /** A copy of the payload is in wiki.raw. */
  ghost predicate InRaw(raw: seq<RawLog>, payload: Payload) {
    exists p, o :: RawAt(raw, p, o, payload)
  }

  ghost predicate RawAt(raw: seq<RawLog>, p: int, o: int, payload: Payload) {
    0 <= p < |raw| && 0 <= o < |raw[p]| && raw[p][o].payload == payload
  }

  ghost predicate Next(net: Net, source: I.Source, s: State, step: Step, s': State) {
    match step
    case Ingest(i) =>
      // A message is confirmed only once its record is in the log.
      && I.Next(source, s.ingest, i, s'.ingest) && s' == s.(ingest := s'.ingest)
      && (forall k :: k in s'.ingest.acked && k !in s.ingest.acked && k < |source| && source[k].payload.Valid? ==>
            InRaw(s.raw, source[k].payload))
    case Arrive(k, p, timestamp) =>
      // The broker appends a message, confirmed later or never, once or again.
      && k < |source| && !source[k].isError && p < |s.raw|
      && s' == s.(raw := s.raw[p := s.raw[p] + [RawRecord(source[k].payload, timestamp)]])
    case Clean(p, c) =>
      // What a cleaner transaction commits is appended to the partitions of wiki.clean.
      && p < |s.raw| == |s.cleaners| && net.cleanCount == |s.clean| > 0 && |s'.cleaners| == |s.cleaners|
      && C.Next(net.setup, s.raw[p], s.cleaners[p], c, s'.cleaners[p])
      && var added := Since(s.cleaners[p].clean, s'.cleaners[p].clean);
      && s' == s.(cleaners := s.cleaners[p := s'.cleaners[p]],
                  clean := seq(|s.clean|, q requires 0 <= q < |s.clean| => s.clean[q] + Routed(net, added, q)))
    case Store(q, k) =>
      && q < |s.clean| == |s.sinks| && |s'.sinks| == |s.sinks|
      && S.Next(s.clean[q], s.sinks[q], k, s'.sinks[q])
      && s' == s.(sinks := s.sinks[q := s'.sinks[q]], table := S.RowsAfter(s.table, s.clean[q], s.sinks[q], k))
  }

  ghost predicate CanFollow(net: Net, source: I.Source, s: State, s': State) {
    exists step :: Next(net, source, s, step, s')
  }

  ghost predicate Run(net: Net, source: I.Source, trace: seq<State>) {
    && |trace| > 0 && trace[0] == Init(net)
    && forall i :: 0 <= i < |trace| - 1 ==> CanFollow(net, source, trace[i], trace[i + 1])
  }

  /** Copies of an id carry the same payload. */
  ghost predicate SamePayloads(source: I.Source) {
    forall i, j | 0 <= i < |source| && 0 <= j < |source| && IdIn(source[i].payload).Some? ::
      IdIn(source[i].payload) == IdIn(source[j].payload) ==> source[i].payload == source[j].payload
  }

  // ---- What every state keeps -----------------------------------------------

  ghost predicate FromSource(source: I.Source, payload: Payload) {
    exists i :: 0 <= i < |source| && source[i].payload == payload
  }

  ghost predicate RawFromSource(source: I.Source, log: RawLog) {
    forall o :: 0 <= o < |log| ==> FromSource(source, log[o].payload)
  }

  ghost predicate CleanFromSource(source: I.Source, events: seq<CleanEvent>) {
    forall e :: e in events ==> FromSource(source, Valid(e))
  }

  /** Every confirmed good event is in wiki.raw. */
  ghost predicate AckedIsRaw(source: I.Source, s: State) {
    forall k :: k in s.ingest.acked && k < |source| && source[k].payload.Valid? ==> InRaw(s.raw, source[k].payload)
  }

  ghost predicate Published(clean: seq<seq<CleanEvent>>, e: CleanEvent) {
    exists q :: 0 <= q < |clean| && e in clean[q]
  }

  ghost predicate AllPublished(clean: seq<seq<CleanEvent>>, events: seq<CleanEvent>) {
    forall e :: e in events ==> Published(clean, e)
  }

  ghost predicate CleanerOk(source: I.Source, raw: RawLog, c: C.State, clean: seq<seq<CleanEvent>>) {
    RawFromSource(source, raw) && C.Inv(raw, c) && AllPublished(clean, c.clean)
  }

  ghost predicate RowsFromSource(source: I.Source, t: S.Table) {
    S.UniqueKeys(t) && forall r :: r in t ==> RowFromSource(source, r)
  }

  ghost predicate RowFromSource(source: I.Source, r: S.Row) {
    exists e :: FromSource(source, Valid(e)) && r == S.AsRow(e)
  }

  ghost predicate Inv(net: Net, source: I.Source, s: State) {
    && |s.raw| == |s.cleaners| == net.rawCount && |s.clean| == |s.sinks| == net.cleanCount
    && I.Inv(source, s.ingest) && AckedIsRaw(source, s)
    && (forall p :: 0 <= p < |s.raw| ==> CleanerOk(source, s.raw[p], s.cleaners[p], s.clean))
    && (forall q :: 0 <= q < |s.clean| ==> CleanFromSource(source, s.clean[q]) && S.Ok(s.table, s.clean[q], s.sinks[q]))
    && RowsFromSource(source, s.table)
  }

  // ---- Ingest and arrival ---------------------------------------------------

  lemma IngestKeepsInv(net: Net, source: I.Source, s: State, i: I.Step, s': State)
    requires I.UniqueIds(source) && Inv(net, source, s) && Next(net, source, s, Ingest(i), s')
    ensures Inv(net, source, s')
  {
    assert I.CanFollow(source, s.ingest, s'.ingest);
    I.NextKeepsInv(source, s.ingest, s'.ingest);
  }

  /** A cleaner does not notice that its log has grown. */
  lemma LaterLogKeepsInv(log: RawLog, log': RawLog, c: C.State)
    requires C.Inv(log, c) && log <= log'
    ensures C.Inv(log', c)
  {
    var n := C.Position(c);
    SameBelow(log, log', n);
    LaterLogKeepsOutput(log, log', n, c.clean);
    if C.FirstCopiesValid(log') {
      FirstCopiesOfPrefix(log, log');
    }
    if c.owner.Some? {
      LaterLogKeepsCache(log, log', n, c.owner.value.cache);
    }
  }

  lemma LaterLogKeepsCache(log: RawLog, log': RawLog, n: nat, cache: Dedup.Cache)
    requires n <= |log| && log <= log' && C.KnowsOnly(log, n, cache)
    ensures C.KnowsOnly(log', n, cache)
  {
    forall id, b | Dedup.Holds(cache.buckets, id, b)
      ensures C.Appears(log', n, id)
    {
      assert C.Appears(log, n, id);
      var i :| 0 <= i < n && IdIn(log[i].payload) == Some(id);
      assert log'[i] == log[i];
    }
  }

  lemma LaterLogKeepsOutput(log: RawLog, log': RawLog, n: nat, clean: seq<CleanEvent>)
    requires n <= |log| && log <= log' && C.ComesFrom(log, n, clean)
    ensures C.ComesFrom(log', n, clean) && (C.Covers(log, n, clean) ==> C.Covers(log', n, clean))
  {
    assert forall i :: 0 <= i < n ==> log'[i] == log[i];
    forall k | 0 <= k < |clean|
      ensures exists j :: 0 <= j < n && log'[j].payload == Valid(clean[k])
    {
      var j :| 0 <= j < n && log[j].payload == Valid(clean[k]);
      assert log'[j].payload == Valid(clean[k]);
    }
    if C.Covers(log, n, clean) {
      forall j | 0 <= j < n && log'[j].payload.Valid?
        ensures C.HasId(clean, log'[j].payload.event.eventId)
      {
        assert log[j] == log'[j];
      }
    }
  }

  lemma {:induction false} SameBelow(log: RawLog, log': RawLog, n: nat)
    requires n <= |log| && log <= log'
    ensures C.RejectedBelow(log', n) == C.RejectedBelow(log, n)
  {
    if n > 0 {
      SameBelow(log, log', n - 1);
    }
  }

  lemma FirstCopiesOfPrefix(log: RawLog, log': RawLog)
    requires log <= log' && C.FirstCopiesValid(log')
    ensures C.FirstCopiesValid(log)
  {
    forall i, j | 0 <= i < j < |log| && log[j].payload.Valid? && !log[i].payload.Valid?
                  && IdIn(log[i].payload) == Some(log[j].payload.event.eventId)
      ensures C.ValidBefore(log, i, log[j].payload.event.eventId)
    {
      assert C.ValidBefore(log', i, log'[j].payload.event.eventId);
    }
  }

  lemma ArriveKeepsInv(net: Net, source: I.Source, s: State, k: nat, p: nat, timestamp: int, s': State)
    requires Inv(net, source, s) && Next(net, source, s, Arrive(k, p, timestamp), s')
    ensures Inv(net, source, s')
  {
    assert s.raw[p] <= s'.raw[p];
    LaterLogKeepsInv(s.raw[p], s'.raw[p], s.cleaners[p]);
    assert CleanerOk(source, s.raw[p], s.cleaners[p], s.clean);
    assert FromSource(source, source[k].payload);
    forall payload | InRaw(s.raw, payload)
      ensures InRaw(s'.raw, payload)
    {
      var p0, o :| RawAt(s.raw, p0, o, payload);
      assert RawAt(s'.raw, p0, o, payload);
    }
  }

  // ---- Cleaning -------------------------------------------------------------

  lemma {:induction false} RoutedKeeps(net: Net, events: seq<CleanEvent>, e: CleanEvent)
    requires net.cleanCount > 0
    ensures e in Routed(net, events, CleanPartition(net, e)) <==> e in events
  {
    if events != [] {
      RoutedKeeps(net, events[..|events| - 1], e);
    }
  }

  lemma {:induction false} RoutedIsPart(net: Net, events: seq<CleanEvent>, q: nat)
    requires net.cleanCount > 0
    ensures forall e :: e in Routed(net, events, q) ==> e in events
  {
    if events != [] {
      RoutedIsPart(net, events[..|events| - 1], q);
    }
  }

  /** Whatever a cleaner has committed came from the stream. */
  lemma CleanerOutputFromSource(source: I.Source, raw: RawLog, c: C.State)
    requires RawFromSource(source, raw) && C.Inv(raw, c)
    ensures CleanFromSource(source, c.clean)
  {
    forall e | e in c.clean
      ensures FromSource(source, Valid(e))
    {
      var k :| 0 <= k < |c.clean| && c.clean[k] == e;
      var j :| 0 <= j < C.Position(c) && raw[j].payload == Valid(c.clean[k]);
      assert FromSource(source, raw[j].payload);
    }
  }

  lemma AppendPublishes(
    net: Net, clean: seq<seq<CleanEvent>>, clean': seq<seq<CleanEvent>>, before: seq<CleanEvent>, all: seq<CleanEvent>)
    requires |clean| == |clean'| == net.cleanCount > 0 && before <= all
    requires forall q :: 0 <= q < |clean| ==> clean'[q] == clean[q] + Routed(net, all[|before|..], q)
    requires AllPublished(clean, before)
    ensures AllPublished(clean', all)
  {
    forall e | e in all
      ensures Published(clean', e)
    {
      if e in before {
        var q :| 0 <= q < |clean| && e in clean[q];
        assert e in clean'[q];
      } else {
        assert all == before + all[|before|..];
        RoutedKeeps(net, all[|before|..], e);
        assert e in clean'[CleanPartition(net, e)];
      }
    }
  }

  lemma AppendKeepsPublished(clean: seq<seq<CleanEvent>>, clean': seq<seq<CleanEvent>>, events: seq<CleanEvent>)
    requires |clean| == |clean'| && (forall q :: 0 <= q < |clean| ==> clean[q] <= clean'[q])
    requires AllPublished(clean, events)
    ensures AllPublished(clean', events)
  {
    forall e | e in events
      ensures Published(clean', e)
    {
      var q :| 0 <= q < |clean| && e in clean[q];
      assert e in clean'[q];
    }
  }

  lemma LongerLogKeepsOk(t: S.Table, log: seq<CleanEvent>, log': seq<CleanEvent>, s: S.State)
    requires S.Ok(t, log, s) && log <= log'
    ensures S.Ok(t, log', s)
  {
  }

  lemma CleanKeepsInv(net: Net, source: I.Source, s: State, p: nat, c: C.Step, s': State)
    requires Inv(net, source, s) && Next(net, source, s, Clean(p, c), s')
    ensures Inv(net, source, s')
  {
    var raw, before, after := s.raw[p], s.cleaners[p], s'.cleaners[p];
    assert CleanerOk(source, raw, before, s.clean);
    assert C.CanFollow(net.setup, raw, before, after);
    C.NextKeepsInv(net.setup, raw, before, after);
    CleanerOutputFromSource(source, raw, after);
    AppendPublishes(net, s.clean, s'.clean, before.clean, after.clean);
    forall p0 | 0 <= p0 < |s.raw|
      ensures CleanerOk(source, s'.raw[p0], s'.cleaners[p0], s'.clean)
    {
      if p0 != p {
        assert CleanerOk(source, s.raw[p0], s.cleaners[p0], s.clean);
        AppendKeepsPublished(s.clean, s'.clean, s.cleaners[p0].clean);
      }
    }
    forall q | 0 <= q < |s.clean|
      ensures CleanFromSource(source, s'.clean[q]) && S.Ok(s'.table, s'.clean[q], s'.sinks[q])
    {
      LongerLogKeepsOk(s.table, s.clean[q], s'.clean[q], s.sinks[q]);
      NewFromSource(net, source, s.clean[q], after.clean, |before.clean|, q);
    }
  }

  lemma NewFromSource(net: Net, source: I.Source, log: seq<CleanEvent>, all: seq<CleanEvent>, from: nat, q: nat)
    requires net.cleanCount > 0 && from <= |all| && CleanFromSource(source, log) && CleanFromSource(source, all)
    ensures CleanFromSource(source, log + Routed(net, all[from..], q))
  {
    forall e | e in log + Routed(net, all[from..], q)
      ensures FromSource(source, Valid(e))
    {
      if e !in log {
        RoutedIsPart(net, all[from..], q);
        assert e in all;
      }
    }
  }

  // ---- Storing --------------------------------------------------------------

  lemma StoreKeepsTable(source: I.Source, t: S.Table, log: seq<CleanEvent>, s: S.State, k: S.Step)
    requires RowsFromSource(source, t) && CleanFromSource(source, log)
    ensures RowsFromSource(source, S.RowsAfter(t, log, s, k)) && t <= S.RowsAfter(t, log, s, k)
  {
    if k.Write? && s.pos.Some? && s.pos.value + k.n <= |log| {
      var batch := log[s.pos.value..s.pos.value + k.n];
      assert S.RowsAfter(t, log, s, k) == S.InsertedAll(t, batch);
      InsertKeepsTable(source, t, log, batch);
    }
  }

  lemma InsertKeepsTable(source: I.Source, t: S.Table, log: seq<CleanEvent>, batch: seq<CleanEvent>)
    requires RowsFromSource(source, t) && CleanFromSource(source, log)
    requires forall e :: e in batch ==> e in log
    ensures RowsFromSource(source, S.InsertedAll(t, batch)) && t <= S.InsertedAll(t, batch)
  {
    S.InsertAddsNewIds(t, batch);
    forall r | r in S.InsertedAll(t, batch)
      ensures RowFromSource(source, r)
    {
      if r !in t {
        var e :| e in batch && r == S.AsRow(e) && !S.HasRow(t, e.eventId);
        RowOfEvent(source, log, e);
      }
    }
  }

  lemma RowOfEvent(source: I.Source, log: seq<CleanEvent>, e: CleanEvent)
    requires CleanFromSource(source, log) && e in log
    ensures RowFromSource(source, S.AsRow(e))
  {
    assert FromSource(source, Valid(e));
  }

  lemma StoreKeepsInv(net: Net, source: I.Source, s: State, q: nat, k: S.Step, s': State)
    requires Inv(net, source, s) && Next(net, source, s, Store(q, k), s')
    ensures Inv(net, source, s')
  {
    StoreKeepsTable(source, s.table, s.clean[q], s.sinks[q], k);
    S.NextKeepsOk(s.table, s.clean[q], s.sinks[q], k, s'.sinks[q]);
    forall q0 | 0 <= q0 < |s.clean|
      ensures S.Ok(s'.table, s'.clean[q0], s'.sinks[q0])
    {
      if q0 != q {
        S.MoreRowsKeepOk(s.table, s'.table, s.clean[q0], s.sinks[q0]);
      }
    }
  }

  // ---- Runs -----------------------------------------------------------------

  lemma NextKeepsInv(net: Net, source: I.Source, s: State, s': State)
    requires I.UniqueIds(source) && Inv(net, source, s) && CanFollow(net, source, s, s')
    ensures Inv(net, source, s')
  {
    var step :| Next(net, source, s, step, s');
    match step
    case Ingest(i) => IngestKeepsInv(net, source, s, i, s');
    case Arrive(k, p, timestamp) => ArriveKeepsInv(net, source, s, k, p, timestamp, s');
    case Clean(p, c) => CleanKeepsInv(net, source, s, p, c, s');
    case Store(q, k) => StoreKeepsInv(net, source, s, q, k, s');
  }

  lemma InitIsOk(net: Net, source: I.Source)
    ensures Inv(net, source, Init(net))
  {
  }

  lemma {:induction false} RunKeepsInv(net: Net, source: I.Source, trace: seq<State>, i: nat)
    requires I.UniqueIds(source) && Run(net, source, trace) && i < |trace|
    ensures Inv(net, source, trace[i])
  {
    if i == 0 {
      InitIsOk(net, source);
    } else {
      RunKeepsInv(net, source, trace, i - 1);
      assert CanFollow(net, source, trace[i - 1], trace[i - 1 + 1]);
      NextKeepsInv(net, source, trace[i - 1], trace[i]);
    }
  }

  // ---- The theorem ----------------------------------------------------------

  /** With same payloads for same ids, no id is first seen in a bad record of a log. */
  lemma SamePayloadsGiveFirstCopies(source: I.Source, log: RawLog)
    requires SamePayloads(source) && RawFromSource(source, log)
    ensures C.FirstCopiesValid(log)
  {
    forall i, j | 0 <= i < j < |log| && log[j].payload.Valid?
                    && IdIn(log[i].payload) == Some(log[j].payload.event.eventId)
      ensures log[i].payload.Valid?
    {
      SameIdSamePayload(source, log[i].payload, log[j].payload);
    }
  }

  lemma SameIdSamePayload(source: I.Source, a: Payload, b: Payload)
    requires SamePayloads(source) && FromSource(source, a) && FromSource(source, b)
    requires IdIn(a).Some? && IdIn(a) == IdIn(b)
    ensures a == b
  {
    var i :| 0 <= i < |source| && source[i].payload == a;
    var j :| 0 <= j < |source| && source[j].payload == b;
  }

  ghost predicate CleanAt(s: State, q: int, c: int, e: CleanEvent) {
    0 <= q < |s.clean| && 0 <= c < |s.clean[q]| && s.clean[q][c] == e
  }

  ghost predicate BelowCleanerCommit(s: State, p: int, o: int) {
    0 <= p < |s.cleaners| && o < C.Position(s.cleaners[p])
  }

  ghost predicate BelowSinkCommit(s: State, q: int, c: int) {
    0 <= q < |s.sinks| && c < s.sinks[q].committed
  }

  /** Every stored column holds what the event says. */
  ghost predicate Describes(r: S.Row, e: CleanEvent) {
    && r.eventId == e.eventId && r.wiki == e.wiki && r.title == e.title && r.kind == e.kind && r.username == e.user
    && r.bot == e.bot && r.timeMs == e.timeMs && r.isRevert == e.isRevert && r.details == e.details
  }

  /** The table has one row for the event's id, and it describes the event. */
  ghost predicate StoredOnce(t: S.Table, e: CleanEvent) {
    exists i :: 0 <= i < |t| && Describes(t[i], e) && forall j :: 0 <= j < |t| && t[j].eventId == e.eventId ==> j == i
  }

  lemma CleanedIsPublished(net: Net, source: I.Source, s: State, p: nat, o: nat, e: CleanEvent)
    requires SamePayloads(source) && Inv(net, source, s)
    requires RawAt(s.raw, p, o, Valid(e)) && BelowCleanerCommit(s, p, o)
    ensures exists q, c :: CleanAt(s, q, c, e)
  {
    var cleaner := s.cleaners[p];
    assert CleanerOk(source, s.raw[p], cleaner, s.clean);
    SamePayloadsGiveFirstCopies(source, s.raw[p]);
    assert C.HasId(cleaner.clean, e.eventId);
    var k :| 0 <= k < |cleaner.clean| && cleaner.clean[k].eventId == e.eventId;
    CleanerOutputFromSource(source, s.raw[p], cleaner);
    assert FromSource(source, s.raw[p][o].payload) && cleaner.clean[k] in cleaner.clean;
    SameIdSamePayload(source, Valid(cleaner.clean[k]), Valid(e));
    var q :| 0 <= q < |s.clean| && e in s.clean[q];
    var c :| 0 <= c < |s.clean[q]| && s.clean[q][c] == e;
    assert CleanAt(s, q, c, e);
  }

  lemma CommittedIsStored(net: Net, source: I.Source, s: State, q: nat, c: nat, e: CleanEvent)
    requires SamePayloads(source) && Inv(net, source, s)
    requires CleanAt(s, q, c, e) && BelowSinkCommit(s, q, c)
    ensures StoredOnce(s.table, e)
  {
    var t := s.table;
    assert S.HasRow(t, s.clean[q][c].eventId);
    var r :| r in t && r.eventId == e.eventId;
    var i :| 0 <= i < |t| && t[i] == r;
    assert e in s.clean[q];
    assert RowFromSource(source, r);
    var x :| FromSource(source, Valid(x)) && r == S.AsRow(x);
    SameIdSamePayload(source, Valid(x), Valid(e));
    forall j | 0 <= j < |t| && t[j].eventId == e.eventId
      ensures j == i
    {
    }
  }

  /**
   Exactly once, end to end, in every run of the whole path and with no assumption on
   dedup windows: a good event at or before the saved checkpoint, unless a connection
   without a resume id passed over it unread, is in wiki.raw; once a
   raw copy is below the cleaner's commit it is in wiki.clean; and once a clean copy is
   below the sink's commit the edits table holds it in exactly one row.
   */
  lemma ExactlyOnceEndToEnd(net: Net, source: I.Source, trace: seq<State>, i: nat, k: nat, saved: nat, e: CleanEvent)
    requires I.UniqueIds(source) && SamePayloads(source) && Run(net, source, trace) && i < |trace|
    requires trace[i].ingest.saved.Some? && I.IdAt(source, trace[i].ingest.saved, saved)
    requires k <= saved && k !in trace[i].ingest.skipped && !source[k].isError && source[k].payload == Valid(e)
    ensures InRaw(trace[i].raw, Valid(e))
    ensures forall p: nat, o: nat :: RawAt(trace[i].raw, p, o, Valid(e)) && BelowCleanerCommit(trace[i], p, o) ==>
              exists q, c :: CleanAt(trace[i], q, c, e)
    ensures forall q: nat, c: nat :: CleanAt(trace[i], q, c, e) && BelowSinkCommit(trace[i], q, c) ==>
              StoredOnce(trace[i].table, e)
  {
    var s := trace[i];
    RunKeepsInv(net, source, trace, i);
    assert k in s.ingest.acked;
    forall p: nat, o: nat | RawAt(s.raw, p, o, Valid(e)) && BelowCleanerCommit(s, p, o)
      ensures exists q, c :: CleanAt(s, q, c, e)
    {
      CleanedIsPublished(net, source, s, p, o, e);
    }
    forall q: nat, c: nat | CleanAt(s, q, c, e) && BelowSinkCommit(s, q, c)
      ensures StoredOnce(s.table, e)
    {
      CommittedIsStored(net, source, s, q, c, e);
    }
  }
}

