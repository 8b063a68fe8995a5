/** The ingest checkpoint over whole runs (ingestor/main.py and ingestor/checkpoint.py). */
module Ingestor {
  import opened Common
  import opened Events
  import opened DeliveryTracker

  const SAVE_EVERY := 200

  // ---- The source stream ----------------------------------------------------

  /** One event of the stream. An error event is only logged; an event without an id field repeats the previous id. */
  datatype SourceEvent = SourceEvent(id: Option<string>, isError: bool, payload: Payload)

  type Source = seq<SourceEvent>

  /** The id the SSE parser reports for event i on a connection that began at start. */
  function ReportedId(source: Source, start: nat, i: nat): Option<string>
    requires start <= i < |source|
  {
    if source[i].id.Some? then source[i].id
    else if i == start then None
    else ReportedId(source, start, i - 1)
  }

  ghost predicate UniqueIds(source: Source) {
    forall i, j ::
      0 <= i < |source| && 0 <= j < |source| && Usable(source[i].id) && source[i].id == source[j].id ==> i == j
  }

  ghost predicate IdAt(source: Source, id: Option<string>, k: int) {
    0 <= k < |source| && source[k].id == id
  }

  lemma {:induction false} ReportedIdIsEarlier(source: Source, start: nat, i: nat) returns (k: nat)
    requires start <= i < |source| && ReportedId(source, start, i).Some?
    ensures start <= k <= i && IdAt(source, ReportedId(source, start, i), k)
    ensures forall j :: k < j <= i ==> source[j].id.None?
  {
    if source[i].id.Some? {
      k := i;
    } else {
      k := ReportedIdIsEarlier(source, start, i - 1);
    }
  }

  /** A connection that begins later, but no later than the id, reports the same. */
  lemma {:induction false} ReportedFromLater(source: Source, start: nat, i: nat, k: nat)
    requires start <= k <= i < |source| && source[k].id.Some? && forall j :: k < j <= i ==> source[j].id.None?
    ensures ReportedId(source, start, i) == source[k].id
  {
    if k < i {
      ReportedFromLater(source, start, i - 1, k);
    }
  }

  // ---- The machine ----------------------------------------------------------

  /** A connection that began at start and has delivered every event before next. */
  datatype Conn = Conn(start: nat, next: nat, open: bool)

  /**
   A running ingestor. at gives the source position of every message sent; reach is
   one past the last position read by this process or known from its checkpoint;
   conns and released count connections and released messages.
   */
  datatype Proc = Proc(
    last: Option<string>,
    unsaved: nat,
    pending: seq<Sent>,
    confirmed: set<nat>,
    seqNo: nat,
    running: bool,
    conn: Option<Conn>,
    at: map<nat, nat>,
    reach: nat,
    conns: nat,
    released: nat)

  /**
   saved is the checkpoint file and acked the source positions Kafka has confirmed.
   skipped collects the events a connection without a resume id passed over by starting
   past all its process knew of, while Kafka had not confirmed them.
   */
  datatype State = State(saved: Option<string>, acked: set<nat>, skipped: set<nat>, proc: Option<Proc>)

  const INIT := State(None, {}, {}, None)

  /**
   Sends are confirmed in any order, connections resume from the checkpoint in memory while
   old sends are still pending, and a new process resumes from the saved file.
   */
  datatype Step =
    | Launch
    | Connect(start: nat)
    | Read
    | QueueFull
    | Deliver(seqNo: nat)
    | Fail(seqNo: nat)
    | Save
    | Disconnect
    | Stop
    | Die

  /** What a successful delivery callback does to the tracker and the checkpoint in memory. */
  function Delivered(p: Proc, seqNo: nat): Proc {
    var count := ConfirmedPrefix(p.pending, p.confirmed + {seqNo});
    p.(pending := p.pending[count..],
       confirmed := p.confirmed + {seqNo} - SeqNos(p.pending[..count]),
       last := OrElse(LastId(p.pending, count), p.last),
       unsaved := p.unsaved + count,
       released := p.released + count)
  }

  /** A message for source position i, accepted by the producer and registered. */
  function Registered(p: Proc, id: Option<string>, i: nat): Proc {
    p.(seqNo := p.seqNo + 1, pending := p.pending + [Sent(p.seqNo + 1, id)], at := p.at[p.seqNo + 1 := i])
  }

  ghost predicate InFlight(p: Proc, seqNo: nat) {
    seqNo !in p.confirmed && exists i :: 0 <= i < |p.pending| && p.pending[i].seqNo == seqNo
  }

  function Launched(saved: Option<string>, reach: nat): Proc {
    Proc(saved, 0, [], {}, 0, true, None, map[], reach, 0, 0)
  }

  function Connected(p: Proc, start: nat): Proc {
    p.(conn := Some(Conn(start, start, true)), reach := Max(p.reach, start), conns := p.conns + 1)
  }

  /** The unconfirmed events between what the process knows of and where a connection starts. */
  function Gap(source: Source, acked: set<nat>, p: Proc, start: nat): set<nat>
    requires start <= |source|
  {
    set e: nat | p.reach <= e < start && !source[e].isError && e !in acked
  }

  function Passed(p: Proc, c: Conn): Proc {
    p.(conn := Some(c.(next := c.next + 1)), reach := Max(p.reach, c.next + 1))
  }

  /** The next event is sent and registered; an error event is only logged. */
  function AfterRead(source: Source, p: Proc, c: Conn): Proc
    requires c.start <= c.next < |source|
  {
    Passed(if source[c.next].isError then p else Registered(p, ReportedId(source, c.start, c.next), c.next), c)
  }

  /** The position of a checkpoint id; -1 for no checkpoint. */
  ghost predicate Known(source: Source, id: Option<string>, k: int) {
    if id.Some? then IdAt(source, id, k) else k == -1
  }

  ghost predicate Next(source: Source, s: State, step: Step, s': State) {
    if step.Launch? then
      // A process starts and loads the checkpoint file.
      && s.proc.None?
      && exists k: int :: Known(source, s.saved, k) && s' == s.(proc := Some(Launched(s.saved, k + 1)))
    else
      && s.proc.Some?
      && var p := s.proc.value;
      match step
      case Connect(start) =>
        // With a resume id the stream continues after that event; without one it may start anywhere.
        && p.running && start <= |source| && (p.conn.Some? ==> !p.conn.value.open)
        && (p.last.Some? ==> IdAt(source, p.last, start - 1))
        && s' == s.(skipped := s.skipped + Gap(source, s.acked, p, start), proc := Some(Connected(p, start)))
      case Read =>
        && p.conn.Some? && p.conn.value.open && p.conn.value.start <= p.conn.value.next < |source|
        && s' == s.(proc := Some(AfterRead(source, p, p.conn.value)))
      case Deliver(seqNo) =>
        && InFlight(p, seqNo) && seqNo in p.at
        && s' == s.(acked := s.acked + {p.at[seqNo]}, proc := Some(Delivered(p, seqNo)))
      case Fail(seqNo) =>
        // A failed delivery is never confirmed; the ingestor stops.
        InFlight(p, seqNo) && s' == s.(proc := Some(p.(running := false)))
      case QueueFull =>
        // The local queue stayed full: the event at hand is not sent and the ingestor stops.
        s' == s.(proc := Some(p.(running := false)))
      case Save =>
        p.unsaved > 0 && s' == s.(saved := p.last, proc := Some(p.(unsaved := 0)))
      case Disconnect =>
        p.conn.Some? && s' == s.(proc := Some(p.(conn := Some(p.conn.value.(open := false)))))
      case Stop =>
        s' == s.(proc := Some(p.(running := false)))
      case Die =>
        s' == s.(proc := None)
      case Launch => false
  }

  ghost predicate CanFollow(source: Source, s: State, s': State) {
    exists step :: Next(source, s, step, s')
  }

  ghost predicate Run(source: Source, trace: seq<State>) {
    && |trace| > 0 && trace[0] == INIT
    && forall i :: 0 <= i < |trace| - 1 ==> CanFollow(source, trace[i], trace[i + 1])
  }

  // ---- What every state keeps -----------------------------------------------

  /** Kafka has confirmed every event before position k that no connection skipped. */
  ghost predicate DoneBelow(source: Source, acked: set<nat>, skipped: set<nat>, k: int) {
    forall e: nat :: e < |source| && e < k && !source[e].isError && e !in skipped ==> e in acked
  }

  /**
   A checkpoint id is a usable id of an event below bound, and everything up to that event
   is confirmed or was skipped.
   */
  ghost predicate SafeId(source: Source, acked: set<nat>, skipped: set<nat>, id: Option<string>, bound: int) {
    id.Some? ==>
      Usable(id) && exists k: int :: IdAt(source, id, k) && k < bound && DoneBelow(source, acked, skipped, k + 1)
  }

  /** Position e is the position of one of the first n pending messages. */
  ghost predicate Pends(p: Proc, e: nat, n: nat)
    requires n <= |p.pending| && forall i :: 0 <= i < |p.pending| ==> p.pending[i].seqNo in p.at
  {
    exists i :: 0 <= i < n && p.at[p.pending[i].seqNo] == e
  }

  ghost predicate Numbered(source: Source, acked: set<nat>, p: Proc) {
    && Increasing(p.pending)
    && (forall i :: 0 <= i < |p.pending| ==> p.pending[i].seqNo <= p.seqNo && p.pending[i].seqNo in p.at)
    && (forall n :: n in p.at ==> n <= p.seqNo && p.at[n] < p.reach)
    && (forall n :: n in p.confirmed ==> n in p.at && p.at[n] in acked)
    && (p.pending != [] ==> p.pending[0].seqNo !in p.confirmed)
  }

  /** Source position e is confirmed or belongs to one of the first n pending messages. */
  ghost predicate Handed(acked: set<nat>, p: Proc, e: nat, n: nat)
    requires n <= |p.pending| && forall i :: 0 <= i < |p.pending| ==> p.pending[i].seqNo in p.at
  {
    e in acked || Pends(p, e, n)
  }

  /** A pending message carries no id, or one of an event no later than its own. */
  ghost predicate Tagged(source: Source, id: Option<string>, at: nat) {
    Usable(id) ==> exists k: nat :: IdAt(source, id, k) && k <= at
  }

  ghost predicate Ordered(source: Source, acked: set<nat>, skipped: set<nat>, p: Proc)
    requires Numbered(source, acked, p)
  {
    && (forall e: nat | e < |source| && e !in skipped && e < p.reach && !source[e].isError ::
          Handed(acked, p, e, |p.pending|))
    && (forall i, e: nat | 0 <= i < |p.pending| && e < |source| && e !in skipped
                           && e < p.at[p.pending[i].seqNo] && !source[e].isError ::
          Handed(acked, p, e, i))
    && (forall i | 0 <= i < |p.pending| :: Tagged(source, p.pending[i].streamId, p.at[p.pending[i].seqNo]))
  }

  ghost predicate ProcOk(source: Source, acked: set<nat>, skipped: set<nat>, p: Proc) {
    && p.reach <= |source|
    && Numbered(source, acked, p) && Ordered(source, acked, skipped, p)
    && SafeId(source, acked, skipped, p.last, p.reach)
    && (p.conn.Some? ==> p.conn.value.start <= p.conn.value.next <= p.reach)
  }

  ghost predicate Inv(source: Source, s: State) {
    && SafeId(source, s.acked, s.skipped, s.saved, |source|)
    && (s.proc.Some? ==> ProcOk(source, s.acked, s.skipped, s.proc.value))
    && (s.proc.Some? && s.proc.value.last.None? ==> s.saved.None?)
  }

  lemma MoreAckedKeepsSafeId(
    source: Source, acked: set<nat>, acked': set<nat>, skipped: set<nat>, id: Option<string>, bound: int)
    requires SafeId(source, acked, skipped, id, bound) && acked <= acked'
    ensures SafeId(source, acked', skipped, id, bound)
  {
  }

  lemma MoreSkippedKeepsSafeId(
    source: Source, acked: set<nat>, skipped: set<nat>, skipped': set<nat>, id: Option<string>, bound: int)
    requires SafeId(source, acked, skipped, id, bound) && skipped <= skipped'
    ensures SafeId(source, acked, skipped', id, bound)
  {
  }

  /** A message that is confirmed and at the head lets everything up to its position count as done. */
  lemma PrefixIsDone(source: Source, acked: set<nat>, skipped: set<nat>, p: Proc, count: nat, i: nat)
    requires Numbered(source, acked, p) && Ordered(source, acked, skipped, p)
    requires i < count <= |p.pending| && forall j :: 0 <= j < count ==> p.at[p.pending[j].seqNo] in acked
    ensures DoneBelow(source, acked, skipped, p.at[p.pending[i].seqNo] + 1)
  {
    forall e: nat | e < |source| && e !in skipped && e < p.at[p.pending[i].seqNo] + 1 && !source[e].isError
      ensures e in acked
    {
      if e < p.at[p.pending[i].seqNo] {
        assert Handed(acked, p, e, i);
      }
    }
  }

  lemma {:induction false} LastIdWitness(sent: seq<Sent>, n: nat) returns (i: nat)
    requires n <= |sent| && LastId(sent, n).Some?
    ensures i < n && sent[i].streamId == LastId(sent, n) && Usable(sent[i].streamId)
  {
    if Usable(sent[n - 1].streamId) {
      i := n - 1;
    } else {
      i := LastIdWitness(sent, n - 1);
    }
  }

  /** Dropping a confirmed prefix keeps the order of what is pending. */
  lemma DeliverKeepsOrder(source: Source, acked: set<nat>, skipped: set<nat>, p: Proc, count: nat, p': Proc)
    requires Numbered(source, acked, p) && Ordered(source, acked, skipped, p)
    requires count <= |p.pending| && forall j :: 0 <= j < count ==> p.at[p.pending[j].seqNo] in acked
    requires p'.pending == p.pending[count..] && p'.at == p.at && p'.seqNo == p.seqNo && p'.reach == p.reach
    requires forall n :: n in p'.confirmed ==> n in p.at && p.at[n] in acked
    requires p'.pending != [] ==> p'.pending[0].seqNo !in p'.confirmed
    ensures Numbered(source, acked, p') && Ordered(source, acked, skipped, p')
  {
    assert forall i :: 0 <= i < |p'.pending| ==> p'.pending[i] == p.pending[count + i];
    assert Numbered(source, acked, p');
    forall e: nat, n: nat | n <= |p'.pending| && Handed(acked, p, e, count + n)
      ensures Handed(acked, p', e, n)
    {
      if e !in acked {
        var i :| 0 <= i < count + n && p.at[p.pending[i].seqNo] == e;
        assert p'.pending[i - count] == p.pending[i];
      }
    }
    forall i, e: nat | 0 <= i < |p'.pending| && e < |source| && e !in skipped
                       && e < p'.at[p'.pending[i].seqNo] && !source[e].isError
      ensures Handed(acked, p', e, i)
    {
      assert Handed(acked, p, e, count + i);
    }
  }

  lemma MoreAckedKeepsOrder(source: Source, acked: set<nat>, acked': set<nat>, skipped: set<nat>, p: Proc)
    requires Numbered(source, acked, p) && Ordered(source, acked, skipped, p) && acked <= acked'
    ensures Numbered(source, acked', p) && Ordered(source, acked', skipped, p)
  {
    assert Numbered(source, acked', p);
    assert forall e: nat, n: nat :: n <= |p.pending| && Handed(acked, p, e, n) ==> Handed(acked', p, e, n);
  }

  lemma DeliverKeepsProc(source: Source, acked: set<nat>, skipped: set<nat>, p: Proc, seqNo: nat)
    requires ProcOk(source, acked, skipped, p) && seqNo in p.at
    ensures ProcOk(source, acked + {p.at[seqNo]}, skipped, Delivered(p, seqNo))
  {
    var acked', p' := acked + {p.at[seqNo]}, Delivered(p, seqNo);
    var count := ConfirmedPrefix(p.pending, p.confirmed + {seqNo});
    MoreAckedKeepsOrder(source, acked, acked', skipped, p);
    MoreAckedKeepsSafeId(source, acked, acked', skipped, p.last, p.reach);
    assert forall j :: 0 <= j < count ==> p.at[p.pending[j].seqNo] in acked';
    DeliverKeepsOrder(source, acked', skipped, p, count, p');
    ReleasedIsSafe(source, acked', skipped, p, count);
  }

  /** The id a confirmed prefix releases is safe to save. */
  lemma ReleasedIsSafe(source: Source, acked: set<nat>, skipped: set<nat>, p: Proc, count: nat)
    requires Numbered(source, acked, p) && Ordered(source, acked, skipped, p)
    requires count <= |p.pending| && forall j :: 0 <= j < count ==> p.at[p.pending[j].seqNo] in acked
    ensures SafeId(source, acked, skipped, LastId(p.pending, count), p.reach)
  {
    var released := LastId(p.pending, count);
    if released.Some? {
      var i := LastIdWitness(p.pending, count);
      assert p.pending[i].streamId == released;
      PrefixIsDone(source, acked, skipped, p, count, i);
      assert Tagged(source, released, p.at[p.pending[i].seqNo]);
      var k: nat :| IdAt(source, released, k) && k <= p.at[p.pending[i].seqNo];
    }
  }

  /** Passing over an error event keeps the order. */
  lemma PassKeepsOrder(source: Source, acked: set<nat>, skipped: set<nat>, p: Proc, c: Conn)
    requires Numbered(source, acked, p) && Ordered(source, acked, skipped, p)
    requires c.next < |source| && c.next <= p.reach && source[c.next].isError
    ensures Numbered(source, acked, Passed(p, c)) && Ordered(source, acked, skipped, Passed(p, c))
  {
    var p' := Passed(p, c);
    assert Numbered(source, acked, p');
    assert forall e: nat, n: nat :: n <= |p.pending| && Handed(acked, p, e, n) ==> Handed(acked, p', e, n);
  }

  lemma StillHanded(acked: set<nat>, p: Proc, p': Proc, e: nat, n: nat)
    requires forall j :: 0 <= j < |p.pending| ==> p.pending[j].seqNo in p.at
    requires forall j :: 0 <= j < |p'.pending| ==> p'.pending[j].seqNo in p'.at
    requires n <= |p.pending| <= |p'.pending| && Handed(acked, p, e, n)
    requires forall j :: 0 <= j < |p.pending| ==>
             p'.pending[j] == p.pending[j] && p'.at[p'.pending[j].seqNo] == p.at[p.pending[j].seqNo]
    ensures Handed(acked, p', e, n)
  {
    if e !in acked {
      var j :| 0 <= j < n && p.at[p.pending[j].seqNo] == e;
      assert p'.at[p'.pending[j].seqNo] == e;
    }
  }

  /** The message for the position just read goes last. */
  lemma RegisterKeepsOrder(source: Source, acked: set<nat>, skipped: set<nat>, p: Proc, id: Option<string>, c: Conn)
    requires Numbered(source, acked, p) && Ordered(source, acked, skipped, p)
    requires c.next < |source| && c.next <= p.reach && Tagged(source, id, c.next)
    ensures var p' := Passed(Registered(p, id, c.next), c);
            Numbered(source, acked, p') && Ordered(source, acked, skipped, p')
  {
    var p', last := Passed(Registered(p, id, c.next), c), |p.pending|;
    assert forall j :: 0 <= j < last ==>
           p'.pending[j] == p.pending[j] && p'.at[p'.pending[j].seqNo] == p.at[p.pending[j].seqNo];
    assert p'.pending[last].seqNo == p.seqNo + 1 && p'.at[p'.pending[last].seqNo] == c.next;
    assert Numbered(source, acked, p');
    forall e: nat | e < |source| && e !in skipped && e < p'.reach && !source[e].isError
      ensures (e < c.next ==> Handed(acked, p', e, last)) && Handed(acked, p', e, |p'.pending|)
    {
      if e < p.reach {
        StillHanded(acked, p, p', e, last);
      }
    }
    forall j, e: nat | 0 <= j < last && e < |source| && e !in skipped
                       && e < p'.at[p'.pending[j].seqNo] && !source[e].isError
      ensures Handed(acked, p', e, j)
    {
      StillHanded(acked, p, p', e, j);
    }
  }

  lemma ReadKeepsProc(source: Source, acked: set<nat>, skipped: set<nat>, p: Proc, c: Conn)
    requires ProcOk(source, acked, skipped, p) && p.conn == Some(c) && c.next < |source|
    ensures ProcOk(source, acked, skipped, AfterRead(source, p, c))
  {
    if source[c.next].isError {
      PassKeepsOrder(source, acked, skipped, p, c);
    } else {
      var id := ReportedId(source, c.start, c.next);
      if id.Some? {
        var k := ReportedIdIsEarlier(source, c.start, c.next);
      }
      RegisterKeepsOrder(source, acked, skipped, p, id, c);
    }
  }

  lemma ConnectKeepsOrder(source: Source, acked: set<nat>, skipped: set<nat>, p: Proc, start: nat)
    requires Numbered(source, acked, p) && Ordered(source, acked, skipped, p) && start <= |source|
    ensures Numbered(source, acked, Connected(p, start))
    ensures Ordered(source, acked, skipped + Gap(source, acked, p, start), Connected(p, start))
  {
    var p' := Connected(p, start);
    assert Numbered(source, acked, p');
    assert forall e: nat, n: nat :: n <= |p.pending| && Handed(acked, p, e, n) ==> Handed(acked, p', e, n);
  }

  /** With a resume id a connection never starts past the reach of the process. */
  lemma ResumeStaysInReach(source: Source, acked: set<nat>, skipped: set<nat>, p: Proc, start: nat)
    requires UniqueIds(source) && SafeId(source, acked, skipped, p.last, p.reach)
    requires p.last.Some? && IdAt(source, p.last, start - 1)
    ensures start <= p.reach
  {
  }

  lemma ConnectKeepsProc(source: Source, acked: set<nat>, skipped: set<nat>, p: Proc, start: nat)
    requires ProcOk(source, acked, skipped, p) && start <= |source|
    requires p.last.Some? ==> start <= p.reach
    ensures ProcOk(source, acked, skipped + Gap(source, acked, p, start), Connected(p, start))
  {
    ConnectKeepsOrder(source, acked, skipped, p, start);
  }

  lemma LaunchGivesProc(source: Source, acked: set<nat>, skipped: set<nat>, saved: Option<string>, k: int)
    requires UniqueIds(source) && SafeId(source, acked, skipped, saved, |source|)
    requires Known(source, saved, k)
    ensures ProcOk(source, acked, skipped, Launched(saved, k + 1))
  {
  }

  // ---- Every step -----------------------------------------------------------

  lemma LaunchKeepsInv(source: Source, s: State, s': State)
    requires UniqueIds(source) && Inv(source, s) && Next(source, s, Launch, s')
    ensures Inv(source, s')
  {
    var k: int :| Known(source, s.saved, k) && s' == s.(proc := Some(Launched(s.saved, k + 1)));
    LaunchGivesProc(source, s.acked, s.skipped, s.saved, k);
  }

  lemma ConnectKeepsInv(source: Source, s: State, start: nat, s': State)
    requires UniqueIds(source) && Inv(source, s) && Next(source, s, Connect(start), s')
    ensures Inv(source, s') && s.skipped <= s'.skipped
  {
    var p := s.proc.value;
    if p.last.Some? {
      ResumeStaysInReach(source, s.acked, s.skipped, p, start);
    }
    ConnectKeepsProc(source, s.acked, s.skipped, p, start);
    MoreSkippedKeepsSafeId(source, s.acked, s.skipped, s'.skipped, s.saved, |source|);
  }

  lemma DeliverKeepsInv(source: Source, s: State, seqNo: nat, s': State)
    requires Inv(source, s) && Next(source, s, Deliver(seqNo), s')
    ensures Inv(source, s') && s.acked <= s'.acked
  {
    DeliverKeepsProc(source, s.acked, s.skipped, s.proc.value, seqNo);
    MoreAckedKeepsSafeId(source, s.acked, s'.acked, s.skipped, s.saved, |source|);
  }

  /** Flags, an ended connection and the count of unsaved releases do not matter to safety. */
  lemma FlagsKeepProc(source: Source, acked: set<nat>, skipped: set<nat>, p: Proc, p': Proc)
    requires ProcOk(source, acked, skipped, p)
    requires p' == p.(running := p'.running, unsaved := p'.unsaved, conn := p'.conn)
    requires p'.conn.Some? ==> p'.conn.value.start <= p'.conn.value.next <= p.reach
    ensures ProcOk(source, acked, skipped, p')
  {
    assert Numbered(source, acked, p');
    assert forall e: nat, n: nat :: n <= |p.pending| && Handed(acked, p, e, n) ==> Handed(acked, p', e, n);
  }

  lemma ReadKeepsInv(source: Source, s: State, s': State)
    requires Inv(source, s) && Next(source, s, Read, s')
    ensures Inv(source, s')
  {
    ReadKeepsProc(source, s.acked, s.skipped, s.proc.value, s.proc.value.conn.value);
  }

  /** The process stops running or its connection ends. */
  lemma FlagsKeepInv(source: Source, s: State, s': State)
    requires Inv(source, s) && s.proc.Some? && s'.proc.Some? && s' == s.(proc := s'.proc)
    requires var p, p' := s.proc.value, s'.proc.value;
             && p' == p.(running := p'.running, conn := p'.conn)
             && (p'.conn.Some? ==> p.conn.Some? && p'.conn.value == p.conn.value.(open := p'.conn.value.open))
    ensures Inv(source, s')
  {
    FlagsKeepProc(source, s.acked, s.skipped, s.proc.value, s'.proc.value);
  }

  lemma SaveKeepsInv(source: Source, s: State, s': State)
    requires Inv(source, s) && Next(source, s, Save, s')
    ensures Inv(source, s')
  {
    FlagsKeepProc(source, s.acked, s.skipped, s.proc.value, s'.proc.value);
  }

  lemma NextKeepsInv(source: Source, s: State, s': State)
    requires UniqueIds(source) && Inv(source, s) && CanFollow(source, s, s')
    ensures Inv(source, s') && s.acked <= s'.acked && s.skipped <= s'.skipped
  {
    var step :| Next(source, s, step, s');
    match step
    case Launch => LaunchKeepsInv(source, s, s');
    case Connect(start) => ConnectKeepsInv(source, s, start, s');
    case Read => ReadKeepsInv(source, s, s');
    case Deliver(seqNo) => DeliverKeepsInv(source, s, seqNo, s');
    case QueueFull => FlagsKeepInv(source, s, s');
    case Fail(_) => FlagsKeepInv(source, s, s');
    case Save => SaveKeepsInv(source, s, s');
    case Disconnect => FlagsKeepInv(source, s, s');
    case Stop => FlagsKeepInv(source, s, s');
    case Die =>
  }

  lemma {:induction false} RunKeepsInv(source: Source, trace: seq<State>, i: nat)
    requires UniqueIds(source) && Run(source, trace) && i < |trace|
    ensures Inv(source, trace[i])
  {
    if i > 0 {
      RunKeepsInv(source, trace, i - 1);
      assert CanFollow(source, trace[i - 1], trace[i - 1 + 1]);
      NextKeepsInv(source, trace[i - 1], trace[i]);
    }
  }

  // ---- The theorems ---------------------------------------------------------

  /** Kafka has confirmed every event up to and including the one id names, except skipped ones. */
  ghost predicate Safe(source: Source, s: State, id: Option<string>) {
    id.Some? ==> exists k: int :: IdAt(source, id, k) && DoneBelow(source, s.acked, s.skipped, k + 1)
  }

  /**
   In every run, an unconfirmed event at or before the one that the checkpoint in memory
   or the saved one names was passed over by a connection without a resume id. Events
   read and still in flight are never among those.
   */
  lemma CheckpointIsSafe(source: Source, trace: seq<State>, i: nat)
    requires UniqueIds(source) && Run(source, trace) && i < |trace|
    ensures Safe(source, trace[i], trace[i].saved)
    ensures trace[i].proc.Some? ==> Safe(source, trace[i], trace[i].proc.value.last)
  {
    RunKeepsInv(source, trace, i);
  }

  /** The step opens a connection past everything its process knows of. */
  ghost predicate StartsPastReach(s: State, s': State) {
    && s.proc.Some? && s'.proc.Some? && s'.proc.value.conns == s.proc.value.conns + 1
    && s'.proc.value.conn.Some? && s'.proc.value.conn.value.start > s.proc.value.reach
  }

  /** And event e, not confirmed, lies between the two. */
  ghost predicate Skips(source: Source, s: State, s': State, e: nat) {
    && StartsPastReach(s, s') && s.proc.value.reach <= e < s'.proc.value.conn.value.start
    && e < |source| && !source[e].isError && e !in s.acked
  }

  lemma StepSkips(source: Source, s: State, s': State, e: nat)
    requires UniqueIds(source) && Inv(source, s) && CanFollow(source, s, s')
    ensures e in s'.skipped <==> e in s.skipped || Skips(source, s, s', e)
    ensures StartsPastReach(s, s') ==> s.proc.value.last.None?
  {
    var step :| Next(source, s, step, s');
    if step.Connect? && s.proc.value.last.Some? {
      ResumeStaysInReach(source, s.acked, s.skipped, s.proc.value, step.start);
    }
  }

  /** Step j of a run skips event e. */
  ghost predicate SkipsAt(source: Source, trace: seq<State>, j: nat, e: nat)
    requires j + 1 < |trace|
  {
    Skips(source, trace[j], trace[j + 1], e)
  }

  /** An event counts as skipped exactly when some connection without an id passed over it while it was unconfirmed. */
  lemma {:induction false} SkippedIsPassedOver(source: Source, trace: seq<State>, i: nat, e: nat)
    requires UniqueIds(source) && Run(source, trace) && i < |trace|
    ensures e in trace[i].skipped <==> exists j: nat :: j < i && SkipsAt(source, trace, j, e)
  {
    if i > 0 {
      SkippedIsPassedOver(source, trace, i - 1, e);
      StepOfRunSkips(source, trace, i - 1, e);
    }
  }

  lemma StepOfRunSkips(source: Source, trace: seq<State>, j: nat, e: nat)
    requires UniqueIds(source) && Run(source, trace) && j + 1 < |trace|
    ensures e in trace[j + 1].skipped <==> e in trace[j].skipped || SkipsAt(source, trace, j, e)
  {
    RunKeepsInv(source, trace, j);
    StepSkips(source, trace[j], trace[j + 1], e);
  }

  /** Every event of the stream up to the one id names is confirmed. */
  ghost predicate CoversStream(source: Source, acked: set<nat>, id: Option<string>) {
    id.Some? ==>
      exists k: int ::
        IdAt(source, id, k) && forall e: nat :: e < |source| && e <= k && !source[e].isError ==> e in acked
  }

  /** If no connection starts past what its process knows of, checkpoints cover the stream from its first event. */
  lemma CheckpointCoversStream(source: Source, trace: seq<State>, i: nat)
    requires UniqueIds(source) && Run(source, trace) && i < |trace|
    requires forall j :: 0 <= j < i ==> !StartsPastReach(trace[j], trace[j + 1])
    ensures CoversStream(source, trace[i].acked, trace[i].saved)
    ensures trace[i].proc.Some? ==> CoversStream(source, trace[i].acked, trace[i].proc.value.last)
  {
    CheckpointIsSafe(source, trace, i);
    forall e: nat
      ensures e !in trace[i].skipped
    {
      SkippedIsPassedOver(source, trace, i, e);
      assert forall j: nat :: j < i ==> !SkipsAt(source, trace, j, e);
    }
  }

  // ---- When exactly a connection without a resume id loses an event -----------

  /** Any step at all, or only one that a delivery callback causes. */
  ghost predicate Follows(source: Source, s: State, s': State, callbacks: bool) {
    exists step: Step :: Next(source, s, step, s') && (callbacks ==> step.Deliver? || step.Fail? || step.Save?)
  }

  ghost predicate IsPath(source: Source, trace: seq<State>, callbacks: bool) {
    |trace| > 0 && forall i :: 0 <= i < |trace| - 1 ==> Follows(source, trace[i], trace[i + 1], callbacks)
  }

  /** t can come after s, by steps of any kind or by callbacks alone. */
  ghost predicate Reaches(source: Source, s: State, t: State, callbacks: bool) {
    exists trace :: IsPath(source, trace, callbacks) && trace[0] == s && trace[|trace| - 1] == t
  }

  lemma ReachesItself(source: Source, s: State, callbacks: bool)
    ensures Reaches(source, s, s, callbacks)
  {
    assert IsPath(source, [s], callbacks);
  }

  lemma ReachesNext(source: Source, s: State, t: State, u: State, callbacks: bool)
    requires Reaches(source, s, t, callbacks) && Follows(source, t, u, callbacks)
    ensures Reaches(source, s, u, callbacks)
  {
    var trace :| IsPath(source, trace, callbacks) && trace[0] == s && trace[|trace| - 1] == t;
    var longer := trace + [u];
    forall i | 0 <= i < |longer| - 1
      ensures Follows(source, longer[i], longer[i + 1], callbacks)
    {
      if i < |trace| - 1 {
        assert longer[i] == trace[i] && longer[i + 1] == trace[i + 1];
      }
    }
    assert IsPath(source, longer, callbacks);
  }

  /** A running process without an id to resume from and without an open connection. */
  ghost predicate ConnectsHeaderless(s: State) {
    && s.proc.Some? && s.proc.value.running && s.proc.value.last.None?
    && (s.proc.value.conn.Some? ==> !s.proc.value.conn.value.open)
  }

  ghost function AfterConnect(source: Source, s: State, start: nat): State
    requires s.proc.Some? && start <= |source|
  {
    s.(skipped := s.skipped + Gap(source, s.acked, s.proc.value, start), proc := Some(Connected(s.proc.value, start)))
  }

  /** The id is the checkpoint in memory or the one on file. */
  predicate IsCheckpoint(t: State, id: Option<string>) {
    id.Some? && (t.saved == id || (t.proc.Some? && t.proc.value.last == id))
  }

  /** A checkpoint names an event after e, which is not confirmed. */
  ghost predicate Passes(source: Source, t: State, e: nat) {
    e !in t.acked && exists id: Option<string>, k: int :: IsCheckpoint(t, id) && IdAt(source, id, k) && e < k
  }

  /** Some message from position start on carries an id that is given from start on. */
  ghost predicate NamesLater(source: Source, start: nat) {
    exists m: nat :: start <= m < |source| && !source[m].isError && Usable(ReportedId(source, start, m))
  }

  /** No id but those of events up to e. */
  ghost predicate NamesUpTo(source: Source, e: nat, id: Option<string>) {
    Usable(id) ==> exists k: int :: IdAt(source, id, k) && k <= e
  }

  ghost predicate HoldsUpTo(source: Source, e: nat, s: State) {
    && NamesUpTo(source, e, s.saved)
    && (s.proc.Some? ==>
          && NamesUpTo(source, e, s.proc.value.last)
          && forall i :: 0 <= i < |s.proc.value.pending| ==> NamesUpTo(source, e, s.proc.value.pending[i].streamId))
  }

  /** Unless an id is given after e, no connection reports one from there. */
  lemma ReportsUpTo(source: Source, e: nat, start: nat, i: nat)
    requires !NamesLater(source, e + 1) && start <= i < |source| && !source[i].isError
    ensures NamesUpTo(source, e, ReportedId(source, start, i))
  {
    if Usable(ReportedId(source, start, i)) {
      var k := ReportedIdIsEarlier(source, start, i);
      if k > e {
        ReportedFromLater(source, e + 1, i, k);
      }
    }
  }

  lemma DeliverHoldsUpTo(source: Source, e: nat, s: State, seqNo: nat, s': State)
    requires HoldsUpTo(source, e, s) && Next(source, s, Deliver(seqNo), s')
    ensures HoldsUpTo(source, e, s')
  {
    var p := s.proc.value;
    var count, rest := ConfirmedPrefix(p.pending, p.confirmed + {seqNo}), Delivered(p, seqNo).pending;
    if LastId(p.pending, count).Some? {
      var i := LastIdWitness(p.pending, count);
      assert NamesUpTo(source, e, p.pending[i].streamId);
    }
    forall i | 0 <= i < |rest|
      ensures NamesUpTo(source, e, rest[i].streamId)
    {
      assert rest[i] == p.pending[count + i];
    }
  }

  lemma ReadHoldsUpTo(source: Source, e: nat, s: State, s': State)
    requires !NamesLater(source, e + 1) && HoldsUpTo(source, e, s) && Next(source, s, Read, s')
    ensures HoldsUpTo(source, e, s')
  {
    var c := s.proc.value.conn.value;
    if !source[c.next].isError {
      ReportsUpTo(source, e, c.start, c.next);
    }
  }

  lemma StepHoldsUpTo(source: Source, e: nat, s: State, s': State)
    requires !NamesLater(source, e + 1) && HoldsUpTo(source, e, s) && CanFollow(source, s, s')
    ensures HoldsUpTo(source, e, s')
  {
    var step :| Next(source, s, step, s');
    if step.Read? {
      ReadHoldsUpTo(source, e, s, s');
    } else if step.Deliver? {
      DeliverHoldsUpTo(source, e, s, step.seqNo, s');
    }
  }

  lemma {:induction false} PathHoldsUpTo(source: Source, e: nat, trace: seq<State>, i: nat)
    requires !NamesLater(source, e + 1) && IsPath(source, trace, false) && i < |trace| && HoldsUpTo(source, e, trace[0])
    ensures HoldsUpTo(source, e, trace[i])
  {
    if i > 0 {
      PathHoldsUpTo(source, e, trace, i - 1);
      assert Follows(source, trace[i - 1], trace[i - 1 + 1], false);
      assert CanFollow(source, trace[i - 1], trace[i]);
      StepHoldsUpTo(source, e, trace[i - 1], trace[i]);
    }
  }

  lemma {:induction false} PathKeepsInv(source: Source, trace: seq<State>, i: nat)
    requires UniqueIds(source) && IsPath(source, trace, false) && i < |trace| && Inv(source, trace[0])
    ensures Inv(source, trace[i]) && trace[0].acked <= trace[i].acked
  {
    if i > 0 {
      PathKeepsInv(source, trace, i - 1);
      assert Follows(source, trace[i - 1], trace[i - 1 + 1], false);
      assert CanFollow(source, trace[i - 1], trace[i]);
      NextKeepsInv(source, trace[i - 1], trace[i]);
    }
  }

  /** Before its first confirmed id, a process holds only ids of events it knows of. */
  lemma HeaderlessHoldsUpTo(source: Source, s: State, e: nat)
    requires Inv(source, s) && ConnectsHeaderless(s) && s.proc.value.reach <= e
    ensures HoldsUpTo(source, e, s)
  {
    var p := s.proc.value;
    forall i | 0 <= i < |p.pending|
      ensures NamesUpTo(source, e, p.pending[i].streamId)
    {
      assert Tagged(source, p.pending[i].streamId, p.at[p.pending[i].seqNo]);
    }
  }

  /** An event passed later was unconfirmed before, and an id after it is given. */
  lemma LosesOnlyIf(source: Source, s: State, start: nat, e: nat, t: State)
    requires UniqueIds(source) && Inv(source, s) && ConnectsHeaderless(s) && start <= |source|
    requires s.proc.value.reach <= e
    requires Reaches(source, AfterConnect(source, s, start), t, false) && Passes(source, t, e)
    ensures e !in s.acked && NamesLater(source, e + 1)
  {
    var first := AfterConnect(source, s, start);
    assert Next(source, s, Connect(start), first);
    assert CanFollow(source, s, first);
    NextKeepsInv(source, s, first);
    var trace :| IsPath(source, trace, false) && trace[0] == first && trace[|trace| - 1] == t;
    PathKeepsInv(source, trace, |trace| - 1);
    if !NamesLater(source, e + 1) {
      HeaderlessHoldsUpTo(source, s, e);
      PathHoldsUpTo(source, e, trace, |trace| - 1);
      NothingPasses(source, t, e);
    }
  }

  lemma NothingPasses(source: Source, t: State, e: nat)
    requires UniqueIds(source) && Inv(source, t) && HoldsUpTo(source, e, t)
    ensures !Passes(source, t, e)
  {
    forall id: Option<string>, k: int | IsCheckpoint(t, id) && IdAt(source, id, k)
      ensures k <= e
    {
      assert Usable(id) && NamesUpTo(source, e, id);
    }
  }

  // ---- The losing continuation: read up to the named event, then confirm everything ----

  /** No message is for a position in [lo, hi). */
  ghost predicate SentOutside(p: Proc, lo: nat, hi: nat) {
    forall n :: n in p.at ==> !(lo <= p.at[n] < hi)
  }

  /** A process on an open connection at start that has read up to next, all it ever sent outside [lo, start). */
  ghost predicate Reading(source: Source, s: State, lo: nat, start: nat, next: nat) {
    && Inv(source, s) && s.proc.Some? && s.proc.value.conn == Some(Conn(start, next, true)) && start <= next
    && SentOutside(s.proc.value, lo, start)
  }

  lemma {:induction false} ReadUpTo(source: Source, first: State, s: State, lo: nat, start: nat, next: nat, m: nat)
    returns (t: State)
    requires UniqueIds(source) && Reaches(source, first, s, false) && Reading(source, s, lo, start, next)
    requires next <= m < |source| && !source[m].isError
    ensures Reaches(source, first, t, false) && Reading(source, t, lo, start, m + 1) && t.acked == s.acked
    ensures var sent := t.proc.value.pending; sent != [] && sent[|sent| - 1].streamId == ReportedId(source, start, m)
    decreases m - next
  {
    t := s.(proc := Some(AfterRead(source, s.proc.value, s.proc.value.conn.value)));
    assert Next(source, s, Read, t);
    assert CanFollow(source, s, t) && Follows(source, s, t, false);
    NextKeepsInv(source, s, t);
    ReachesNext(source, first, s, t, false);
    if next < m {
      t := ReadUpTo(source, first, t, lo, start, next + 1, m);
    }
  }

  /** Confirming the head, again and again, releases everything and reports the last usable id. */
  lemma {:induction false} Drain(source: Source, first: State, s: State) returns (t: State)
    requires UniqueIds(source) && Reaches(source, first, s, false) && Inv(source, s) && s.proc.Some?
    ensures Reaches(source, first, t, false) && t.proc.Some?
    ensures t.proc.value.last == OrElse(LastId(s.proc.value.pending, |s.proc.value.pending|), s.proc.value.last)
    ensures forall e :: e in t.acked ==> e in s.acked || exists n :: n in s.proc.value.at && s.proc.value.at[n] == e
    decreases |s.proc.value.pending|
  {
    if s.proc.value.pending == [] {
      t := s;
    } else {
      var mid := ConfirmHead(source, s);
      ReachesNext(source, first, s, mid, false);
      t := Drain(source, first, mid);
    }
  }

  lemma ConfirmHead(source: Source, s: State) returns (t: State)
    requires UniqueIds(source) && Inv(source, s) && s.proc.Some? && s.proc.value.pending != []
    ensures Follows(source, s, t, false) && Inv(source, t) && t.proc.Some? && t.proc.value.at == s.proc.value.at
    ensures var p, q := s.proc.value, t.proc.value;
            && |q.pending| < |p.pending| && p.pending[0].seqNo in p.at
            && t.acked == s.acked + {p.at[p.pending[0].seqNo]}
            && OrElse(LastId(q.pending, |q.pending|), q.last) == OrElse(LastId(p.pending, |p.pending|), p.last)
  {
    var p, n := s.proc.value, s.proc.value.pending[0].seqNo;
    t := s.(acked := s.acked + {p.at[n]}, proc := Some(Delivered(p, n)));
    assert InFlight(p, n);
    assert Next(source, s, Deliver(n), t);
    assert CanFollow(source, s, t);
    NextKeepsInv(source, s, t);
    ReleaseReportsAlike(p, n);
  }

  /** Releasing the head now or together with all the rest reports the same id in the end. */
  lemma ReleaseReportsAlike(p: Proc, n: nat)
    requires p.pending != [] && p.pending[0].seqNo == n
    ensures var q := Delivered(p, n);
            && |q.pending| < |p.pending|
            && OrElse(LastId(q.pending, |q.pending|), q.last) == OrElse(LastId(p.pending, |p.pending|), p.last)
  {
    var count := ConfirmedPrefix(p.pending, p.confirmed + {n});
    LastIdInTwo(p.pending, count, |p.pending| - count);
  }

  /** Close the connection, open another right after the event, and confirm everything up to the next id. */
  lemma LosesIf(source: Source, s: State, start: nat, e: nat) returns (t: State)
    requires UniqueIds(source) && Inv(source, s) && ConnectsHeaderless(s) && start <= |source|
    requires e in Gap(source, s.acked, s.proc.value, start) && NamesLater(source, e + 1)
    ensures Reaches(source, AfterConnect(source, s, start), t, false) && Passes(source, t, e)
  {
    var first := AfterConnect(source, s, start);
    var m: nat :| e + 1 <= m < |source| && !source[m].isError && Usable(ReportedId(source, e + 1, m));
    var again := ConnectAgain(source, s, start, e);
    var full := ReadUpTo(source, first, again, e, e + 1, e + 1, m);
    t := Drain(source, first, full);
    var k := ReportedIdIsEarlier(source, e + 1, m);
    assert e !in t.acked && IsCheckpoint(t, t.proc.value.last) && IdAt(source, t.proc.value.last, k) && e < k;
  }

  lemma ConnectAgain(source: Source, s: State, start: nat, e: nat) returns (t: State)
    requires UniqueIds(source) && Inv(source, s) && ConnectsHeaderless(s) && start <= |source|
    requires e in Gap(source, s.acked, s.proc.value, start)
    ensures Reaches(source, AfterConnect(source, s, start), t, false) && Reading(source, t, e, e + 1, e + 1)
    ensures t.acked == s.acked
  {
    var first := AfterConnect(source, s, start);
    var p := first.proc.value;
    var closed := first.(proc := Some(p.(conn := Some(p.conn.value.(open := false)))));
    t := AfterConnect(source, closed, e + 1);
    assert Next(source, s, Connect(start), first);
    assert Next(source, first, Disconnect, closed);
    assert Next(source, closed, Connect(e + 1), t);
    assert CanFollow(source, s, first) && CanFollow(source, first, closed) && CanFollow(source, closed, t);
    NextKeepsInv(source, s, first);
    NextKeepsInv(source, first, closed);
    NextKeepsInv(source, closed, t);
    ReachesItself(source, first, false);
    ReachesNext(source, first, first, closed, false);
    ReachesNext(source, first, closed, t, false);
  }

  /**
   Take any event between what a process without an id to resume from knows of and where
   it opens a connection. Whatever is in flight, and whatever happens afterwards, other
   connections and restarts included, some continuation has a checkpoint in memory or on
   file that passes the event unconfirmed if and only if it is unconfirmed now and an id
   is given after it.
   */
  lemma LosesIff(source: Source, s: State, start: nat, e: nat)
    requires UniqueIds(source) && Inv(source, s) && ConnectsHeaderless(s) && start <= |source|
    requires s.proc.value.reach <= e < start && !source[e].isError
    ensures (exists t :: Reaches(source, AfterConnect(source, s, start), t, false) && Passes(source, t, e))
            <==> e !in s.acked && NamesLater(source, e + 1)
  {
    if e !in s.acked && NamesLater(source, e + 1) {
      var t := LosesIf(source, s, start, e);
    }
    if t: State :| Reaches(source, AfterConnect(source, s, start), t, false) && Passes(source, t, e) {
      LosesOnlyIf(source, s, start, e, t);
    }
  }

  function ThreeEvents(): Source {
    [SourceEvent(Some("a"), false, Garbage), SourceEvent(Some("b"), false, Garbage),
     SourceEvent(Some("c"), false, Garbage)]
  }

  /** A connection at the first event that dropped before anything was read. */
  ghost function Dropped(): State {
    State(None, {}, {}, Some(Connected(Launched(None, 0), 0).(conn := Some(Conn(0, 0, false)))))
  }

  lemma DropsFirst() returns (trace: seq<State>)
    ensures Run(ThreeEvents(), trace) && |trace| == 4 && trace[3] == Dropped()
  {
    var source := ThreeEvents();
    var launched := INIT.(proc := Some(Launched(None, 0)));
    var connected := launched.(proc := Some(Connected(Launched(None, 0), 0)));
    assert Known(source, None, -1);
    assert Next(source, INIT, Launch, launched);
    assert Gap(source, {}, Launched(None, 0), 0) == {};
    assert Next(source, launched, Connect(0), connected);
    assert Next(source, connected, Disconnect, Dropped());
    trace := [INIT, launched, connected, Dropped()];
  }

  /** The next connection, without an id, may start at the third event; a checkpoint can then pass the first. */
  lemma HeaderlessReconnectSkips() returns (trace: seq<State>, t: State)
    ensures Run(ThreeEvents(), trace) && trace[|trace| - 1] == Dropped()
    ensures Reaches(ThreeEvents(), AfterConnect(ThreeEvents(), Dropped(), 2), t, false) && Passes(ThreeEvents(), t, 0)
  {
    trace := DropsFirst();
    var source := ThreeEvents();
    assert UniqueIds(source);
    RunKeepsInv(source, trace, 3);
    assert !source[0].isError && 0 in Gap(source, {}, Dropped().proc.value, 2);
    assert Usable(ReportedId(source, 1, 1)) && !source[1].isError;
    t := LosesIf(source, Dropped(), 2, 0);
  }
}

