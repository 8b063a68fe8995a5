/**
 The ingestor process (ingestor/main.py) and its checkpoint (ingestor/checkpoint.py).
 Connecting, callbacks, sends and saves are proved to be steps of the machine in
 Ingestor. Times are in milliseconds of a clock the caller supplies.
 */
module IngestorProcess {
  import opened Common
  import opened Events
  import opened DeliveryTracker
  import opened Ingestor
  import Sse

  const SAVE_INTERVAL_MS := 5_000
  const QUEUE_FULL_GIVE_UP_MS := 60_000

  /** The ids a parser reports on one connection are those the machine reads. */
  lemma {:induction false} ParserReportsIds(
    source: Source, start: nat, from: nat, events: seq<Sse.SseEvent>, last: Option<string>, j: nat)
    requires start <= from && from + |events| <= |source| && j < |events|
    requires forall k :: 0 <= k < |events| ==> events[k].id == source[from + k].id
    requires last == if from == start then None else ReportedId(source, start, from - 1)
    ensures |Sse.Carried(events, last)| == |events|
    ensures Sse.Carried(events, last)[j].id == ReportedId(source, start, from + j)
    decreases |events|
  {
    assert source[from].id == events[0].id;
    if |events| > 1 {
      ParserReportsIds(source, start, from + 1, events[1..], ReportedId(source, start, from),
                       if j > 0 then j - 1 else 0);
    }
  }

  // ---- The checkpoint -------------------------------------------------------

  /** A checkpoint file: absent, not a JSON object, or an object whose two fields may be missing or of another type. */
  datatype Stored = Missing | Broken | Object(lastEventId: Option<string>, eventsConfirmed: Option<int>)

  function LoadedId(file: Stored): Option<string> {
    if file.Object? && Usable(file.lastEventId) then file.lastEventId else None
  }

  function LoadedCount(file: Stored): int {
    if file.Object? && file.eventsConfirmed.Some? then file.eventsConfirmed.value else 0
  }

  class Checkpoint {
    var file: Stored
    var lastEventId: Option<string>
    var eventsConfirmed: int

    constructor Load(file: Stored)
      ensures this.file == file
      ensures !file.Object? ==> lastEventId.None? && eventsConfirmed == 0
      ensures file.Object? && file.lastEventId.Some? && file.lastEventId.value != "" ==> lastEventId == file.lastEventId
      ensures file.Object? && (file.lastEventId.None? || file.lastEventId.value == "") ==> lastEventId.None?
      ensures file.Object? ==>
                match file.eventsConfirmed case Some(n) => eventsConfirmed == n case None => eventsConfirmed == 0
    {
      this.file := file;
      lastEventId, eventsConfirmed := LoadedId(file), LoadedCount(file);
    }

    /** Move the checkpoint in memory; the file is left alone. */
    method Advance(id: Option<string>, count: int)
      modifies this
      ensures file == old(file)
      ensures lastEventId == (if Usable(id) then id else old(lastEventId))
      ensures eventsConfirmed == old(eventsConfirmed) + count
    {
      if Usable(id) {
        lastEventId := id;
      }
      eventsConfirmed := eventsConfirmed + count;
    }

    /** Replace the file in one step; a load gives back what is in memory. */
    method Save()
      modifies this
      ensures lastEventId == old(lastEventId) && eventsConfirmed == old(eventsConfirmed)
      ensures file == Object(lastEventId, Some(eventsConfirmed))
      ensures (lastEventId.Some? ==> Usable(lastEventId)) ==>
                LoadedId(file) == lastEventId && LoadedCount(file) == eventsConfirmed
    {
      file := Object(lastEventId, Some(eventsConfirmed));
    }

    function ResumeHeader(): Option<string>
      reads this
    {
      if Usable(lastEventId) then lastEventId else None
    }
  }

  // ---- What callbacks and sends do ------------------------------------------

  /** A process with its checkpoint file; the number of events it has counted and the time of its last save. */
  datatype Memory = Memory(proc: Proc, file: Stored, counted: int, lastSave: int, failed: bool)

  datatype Callback = Callback(failed: bool, seqNo: nat, now: int)

  function MaybeSaved(m: Memory, now: int): Memory {
    if m.proc.unsaved > 0 && (m.proc.unsaved >= SAVE_EVERY || now - m.lastSave >= SAVE_INTERVAL_MS) then
      m.(proc := m.proc.(unsaved := 0), file := Object(m.proc.last, Some(m.counted)), lastSave := now)
    else
      m
  }

  function Called(m: Memory, c: Callback): Memory {
    if c.failed then
      m.(proc := m.proc.(running := false), failed := true)
    else
      MaybeSaved(Released(m, c.seqNo), c.now)
  }

  function CalledAll(m: Memory, cs: seq<Callback>): Memory {
    if cs == [] then m else Called(CalledAll(m, cs[..|cs| - 1]), cs[|cs| - 1])
  }

  /** The local queue was full at time now; the poll that followed served these callbacks. */
  datatype Full = Full(now: int, callbacks: seq<Callback>)

  predicate GivesUp(m: Memory, now: int, waitedSince: int) {
    now - waitedSince >= QUEUE_FULL_GIVE_UP_MS || !m.proc.running
  }

  datatype SendResult = SendResult(memory: Memory, accepted: bool)

  /** Retry while the queue is full, for a minute at most; register only once the producer has accepted. */
  function SendAll(m: Memory, fulls: seq<Full>, since: Option<int>, id: Option<string>, at: nat): SendResult
    decreases |fulls|
  {
    if fulls == [] then SendResult(m.(proc := Registered(m.proc, id, at)), true)
    else
      var now := fulls[0].now;
      var waitedSince := if since.Some? then since.value else now;
      if GivesUp(m, now, waitedSince) then
        SendResult(m.(proc := m.proc.(running := false), failed := true), false)
      else
        SendAll(CalledAll(m, fulls[0].callbacks), fulls[1..], Some(waitedSince), id, at)
  }

  lemma SendAllFrom(m: Memory, fulls: seq<Full>, i: nat, since: Option<int>, id: Option<string>, at: nat)
    requires i < |fulls|
    ensures var waitedSince := if since.Some? then since.value else fulls[i].now;
            SendAll(m, fulls[i..], since, id, at) ==
            if GivesUp(m, fulls[i].now, waitedSince)
            then SendResult(m.(proc := m.proc.(running := false), failed := true), false)
            else SendAll(CalledAll(m, fulls[i].callbacks), fulls[i + 1..], Some(waitedSince), id, at)
  {
    assert fulls[i..][1..] == fulls[i + 1..];
  }

  /** q is what remains of p's pending messages after some were released from the front. */
  ghost predicate IsRest(q: seq<Sent>, p: seq<Sent>) {
    |q| <= |p| && q == p[|p| - |q|..]
  }

  /** From m to m' messages were only released. */
  ghost predicate OnlyReleases(m: Memory, m': Memory) {
    IsRest(m'.proc.pending, m.proc.pending) && m'.proc.seqNo == m.proc.seqNo && m'.proc.at == m.proc.at
  }

  lemma CallbackOnlyReleases(m: Memory, c: Callback)
    ensures OnlyReleases(m, Called(m, c))
  {
    var p, q := m.proc.pending, Called(m, c).proc.pending;
    if !c.failed {
      var count := ConfirmedPrefix(p, m.proc.confirmed + {c.seqNo});
      assert q == p[count..] && |p| - |q| == count;
    }
  }

  lemma ReleasesTwice(m: Memory, m': Memory, m'': Memory)
    requires OnlyReleases(m, m') && OnlyReleases(m', m'')
    ensures OnlyReleases(m, m'')
  {
  }

  lemma {:induction false} CallbacksOnlyRelease(m: Memory, cs: seq<Callback>)
    ensures OnlyReleases(m, CalledAll(m, cs))
  {
    if cs != [] {
      var before, c := CalledAll(m, cs[..|cs| - 1]), cs[|cs| - 1];
      CallbacksOnlyRelease(m, cs[..|cs| - 1]);
      CallbackOnlyReleases(before, c);
      ReleasesTwice(m, before, Called(before, c));
    }
  }

  /** Accepted: released some, then registered under the next number, last. Given up: released some and stopped. */
  ghost predicate HasOutcome(m: Memory, sent: SendResult, id: Option<string>, at: nat) {
    var p, q := m.proc, sent.memory.proc;
    if sent.accepted then
      && q.seqNo == p.seqNo + 1 && q.at == p.at[p.seqNo + 1 := at]
      && q.pending != [] && q.pending[|q.pending| - 1] == Sent(p.seqNo + 1, id)
      && IsRest(q.pending[..|q.pending| - 1], p.pending)
    else
      q.seqNo == p.seqNo && q.at == p.at && IsRest(q.pending, p.pending) && !q.running && sent.memory.failed
  }

  lemma ReleasesThenOutcome(m: Memory, m': Memory, sent: SendResult, id: Option<string>, at: nat)
    requires OnlyReleases(m, m') && HasOutcome(m', sent, id, at)
    ensures HasOutcome(m, sent, id, at)
  {
  }

  /**
   A message joins the tracker, under the next number and behind all others, only if it
   was accepted. If the ingestor gives up it stops, and nothing was registered.
   */
  lemma {:induction false} SendOutcome(m: Memory, fulls: seq<Full>, since: Option<int>, id: Option<string>, at: nat)
    ensures HasOutcome(m, SendAll(m, fulls, since, id, at), id, at)
    decreases |fulls|
  {
    if fulls == [] {
      assert (m.proc.pending + [Sent(m.proc.seqNo + 1, id)])[..|m.proc.pending|] == m.proc.pending;
    } else {
      var waitedSince := if since.Some? then since.value else fulls[0].now;
      if !GivesUp(m, fulls[0].now, waitedSince) {
        var m' := CalledAll(m, fulls[0].callbacks);
        CallbacksOnlyRelease(m, fulls[0].callbacks);
        SendOutcome(m', fulls[1..], Some(waitedSince), id, at);
        ReleasesThenOutcome(m, m', SendAll(m', fulls[1..], Some(waitedSince), id, at), id, at);
      }
    }
  }

  /** What handling the event at position c.next does, the queue being full as given. */
  function Handling(source: Source, m: Memory, c: Conn, fulls: seq<Full>): Memory
    requires c.start <= c.next < |source|
  {
    if source[c.next].isError then m.(proc := Passed(m.proc, c))
    else
      var sent := SendAll(m, fulls, None, ReportedId(source, c.start, c.next), c.next);
      if sent.accepted then sent.memory.(proc := Passed(sent.memory.proc, c)) else sent.memory
  }

  /** Pending messages are in send order, the last one numbered at most seqNo. */
  ghost predicate InOrder(pending: seq<Sent>, seqNo: nat) {
    Increasing(pending) && forall i :: 0 <= i < |pending| ==> pending[i].seqNo <= seqNo
  }

  lemma TailInOrder(pending: seq<Sent>, seqNo: nat, count: nat)
    requires InOrder(pending, seqNo) && count <= |pending|
    ensures InOrder(pending[count..], seqNo)
  {
  }

  /** A delivered message released: the tracker, the checkpoint in memory and the count move together. */
  function Released(m: Memory, seqNo: nat): Memory {
    var proc := Delivered(m.proc, seqNo);
    m.(proc := proc, counted := m.counted + proc.released - m.proc.released)
  }

  class IngestorProcess {
    const checkpoint: Checkpoint
    const tracker: DeliveryTracker
    var seqNo: nat
    var unsaved: nat
    var lastSave: int
    var running: bool
    var failed: bool
    /** The source position of each message sent, and the connections that read them. */
    ghost var at: map<nat, nat>
    ghost var conn: Option<Conn>
    ghost var reach: nat
    ghost var conns: nat
    ghost var released: nat

    ghost function AsProc(): Proc
      reads this, checkpoint, tracker
    {
      Proc(checkpoint.lastEventId, unsaved, tracker.pending, tracker.confirmed, seqNo, running,
           conn, at, reach, conns, released)
    }

    ghost function Value(): Memory
      reads this, checkpoint, tracker
    {
      Memory(AsProc(), checkpoint.file, checkpoint.eventsConfirmed, lastSave, failed)
    }

    ghost predicate Valid()
      reads this, checkpoint, tracker
    {
      InOrder(tracker.pending, seqNo) && (checkpoint.lastEventId.Some? ==> Usable(checkpoint.lastEventId))
    }

    constructor (file: Stored, now: int, ghost reach: nat)
      ensures Valid() && fresh(checkpoint) && fresh(tracker)
      ensures Value() == Memory(Launched(LoadedId(file), reach), file, LoadedCount(file), now, false)
    {
      checkpoint := new Checkpoint.Load(file);
      tracker := new DeliveryTracker();
      seqNo, unsaved, lastSave, running, failed := 0, 0, now, true, false;
      at, conn, this.reach, conns, released := map[], None, reach, 0, 0;
    }

    method OnDelivery(c: Callback)
      requires Valid()
      modifies this, checkpoint, tracker
      ensures Valid() && Value() == Called(old(Value()), c)
      ensures c.failed ==> failed && !running && Value() == old(Value()).(proc := AsProc(), failed := true)
      ensures !c.failed ==> unsaved < 200
      ensures checkpoint.eventsConfirmed ==
              old(checkpoint.eventsConfirmed) + |old(tracker.pending)| - |tracker.pending|
    {
      if c.failed {
        failed, running := true, false;
        return;
      }
      Release(c.seqNo);
      MaybeSave(c.now);
    }

    method Release(seqNo: nat)
      requires Valid()
      modifies this, checkpoint, tracker
      ensures Valid() && Value() == Released(old(Value()), seqNo)
    {
      ghost var before, m := tracker.pending, Value();
      var id, count := tracker.Confirm(seqNo);
      TailInOrder(before, this.seqNo, count);
      Account(id, count);
      released := released + count;
      assert checkpoint.lastEventId == OrElse(LastId(before, count), m.proc.last);
      assert AsProc() == Delivered(m.proc, seqNo);
    }

    /** Move the checkpoint in memory past what was released. */
    method Account(id: Option<string>, count: nat)
      requires count == 0 ==> id.None?
      modifies this`unsaved, checkpoint
      ensures checkpoint.file == old(checkpoint.file) && unsaved == old(unsaved) + count
      ensures checkpoint.lastEventId == OrElse(id, old(checkpoint.lastEventId)) || !Usable(id)
      ensures !Usable(id) ==> checkpoint.lastEventId == old(checkpoint.lastEventId)
      ensures checkpoint.eventsConfirmed == old(checkpoint.eventsConfirmed) + count
    {
      if count > 0 {
        checkpoint.Advance(id, count);
        unsaved := unsaved + count;
      }
    }

    method MaybeSave(now: int)
      modifies this, checkpoint
      ensures Value() == MaybeSaved(old(Value()), now)
      ensures unsaved < 200
      ensures old(unsaved) >= 200 || (old(unsaved) > 0 && now - old(lastSave) >= 5_000) ==>
                && unsaved == 0 && lastSave == now
                && checkpoint.file == Object(old(checkpoint.lastEventId), Some(old(checkpoint.eventsConfirmed)))
      ensures old(unsaved) < 200 && (old(unsaved) == 0 || now - old(lastSave) < 5_000) ==> Value() == old(Value())
    {
      var due := unsaved >= SAVE_EVERY || now - lastSave >= SAVE_INTERVAL_MS;
      if unsaved > 0 && due {
        checkpoint.Save();
        unsaved, lastSave := 0, now;
      }
    }

    method Serve(callbacks: seq<Callback>)
      requires Valid()
      modifies this, checkpoint, tracker
      ensures Valid() && Value() == CalledAll(old(Value()), callbacks) && seqNo == old(seqNo)
    {
      for i := 0 to |callbacks|
        invariant Valid() && Value() == CalledAll(old(Value()), callbacks[..i]) && seqNo == old(seqNo)
      {
        OnDelivery(callbacks[i]);
        assert callbacks[..i + 1] == callbacks[..i] + [callbacks[i]];
      }
      assert callbacks[..|callbacks|] == callbacks;
    }

    /** Try to send one message, serving callbacks each time the queue turns out to be full. */
    method Send(fulls: seq<Full>, id: Option<string>, ghost position: nat) returns (accepted: bool)
      requires Valid()
      modifies this, checkpoint, tracker
      ensures Valid() && SendResult(Value(), accepted) == SendAll(old(Value()), fulls, None, id, position)
    {
      ghost var result := SendAll(Value(), fulls, None, id, position);
      var next, since, i := seqNo + 1, None, 0;
      assert fulls[0..] == fulls;
      while i < |fulls|
        invariant i <= |fulls| && Valid() && seqNo + 1 == next
        invariant SendAll(Value(), fulls[i..], since, id, position) == result
      {
        SendAllFrom(Value(), fulls, i, since, id, position);
        var now := fulls[i].now;
        since := Some(if since.Some? then since.value else now);
        if now - since.value >= QUEUE_FULL_GIVE_UP_MS || !running {
          failed, running := true, false;
          return false;
        }
        Serve(fulls[i].callbacks);
        i := i + 1;
      }
      assert SendResult(Value().(proc := Registered(AsProc(), id, position)), true) == result;
      Register(next, id, position);
      return true;
    }

    method Register(next: nat, id: Option<string>, ghost position: nat)
      requires Valid() && next == seqNo + 1
      modifies this, tracker
      ensures Valid() && Value() == old(Value()).(proc := Registered(old(AsProc()), id, position))
    {
      seqNo := next;
      tracker.Register(seqNo, id);
      at := at[seqNo := position];
    }

    /** An error event is only logged; any other event is sent, to wiki.raw or to the dead letter topic. */
    method Handle(ghost source: Source, event: SourceEvent, fulls: seq<Full>, id: Option<string>,
                  ghost acked: set<nat>, ghost skipped: set<nat>) returns (ghost mid: State, ghost acked': set<nat>)
      requires Valid() && conn.Some? && conn.value.open && conn.value.start <= conn.value.next < |source|
      requires event == source[conn.value.next] && id == ReportedId(source, conn.value.start, conn.value.next)
      requires Loaded(Value()) && ServedWell(Value(), fulls, None)
      modifies this, checkpoint, tracker
      ensures Valid() && Value() == Handling(source, old(Value()), old(conn.value), fulls)
      ensures event.isError ==> tracker.pending == old(tracker.pending) && seqNo == old(seqNo)
      ensures Reaches(source, old(AsState(Value(), acked, skipped)), mid, true)
      ensures Next(source, mid, Step.Read, AsState(Value(), acked', skipped)) ||
              Next(source, mid, Step.QueueFull, AsState(Value(), acked', skipped))
    {
      mid, acked' := HandleIsSteps(source, Value(), acked, skipped, fulls, conn.value);
      Dispatch(source, event, fulls, id);
    }

    /** Send the event and move on, or stay at it if the ingestor gave up. */
    method Dispatch(ghost source: Source, event: SourceEvent, fulls: seq<Full>, id: Option<string>)
      requires Valid() && conn.Some? && conn.value.start <= conn.value.next < |source|
      requires event == source[conn.value.next] && id == ReportedId(source, conn.value.start, conn.value.next)
      modifies this, checkpoint, tracker
      ensures Valid() && Value() == Handling(source, old(Value()), old(conn.value), fulls)
    {
      var accepted := true;
      if !event.isError {
        accepted := Send(fulls, id, conn.value.next);
      }
      if accepted {
        MoveOn(old(conn.value));
      }
    }

    /** The event at c.next has been dealt with. */
    ghost method MoveOn(c: Conn)
      modifies this
      ensures Value() == old(Value()).(proc := Passed(old(AsProc()), c)) && (old(Valid()) ==> Valid())
    {
      conn, reach := Some(c.(next := c.next + 1)), Max(reach, c.next + 1);
    }

    /** Open a connection with the header for where to resume; the server starts it at start. */
    method Connect(ghost source: Source, ghost acked: set<nat>, ghost skipped: set<nat>, ghost start: nat)
      returns (header: Option<string>)
      requires Valid() && running && start <= |source| && (conn.Some? ==> !conn.value.open)
      requires checkpoint.lastEventId.Some? ==>
               Usable(checkpoint.lastEventId) && IdAt(source, checkpoint.lastEventId, start - 1)
      modifies this
      ensures Valid() && header == checkpoint.lastEventId
      ensures Next(source, old(AsState(Value(), acked, skipped)), Step.Connect(start),
                   AsState(Value(), acked, skipped + Gap(source, acked, old(AsProc()), start)))
    {
      header := checkpoint.ResumeHeader();
      conn, reach, conns := Some(Conn(start, start, true)), Max(reach, start), conns + 1;
    }

    /** The stream closed or the connection was lost. */
    method Disconnect(ghost source: Source, ghost acked: set<nat>, ghost skipped: set<nat>)
      requires Valid() && conn.Some?
      modifies this
      ensures Valid()
      ensures Next(source, old(AsState(Value(), acked, skipped)), Step.Disconnect, AsState(Value(), acked, skipped))
    {
      conn := Some(conn.value.(open := false));
    }

    /** Serve the callbacks that still arrive, then save what they released. */
    method Shutdown(callbacks: seq<Callback>) returns (inFlight: nat)
      requires Valid()
      modifies this, checkpoint, tracker
      ensures Valid() && unsaved == 0
      ensures Value() == SavedAtExit(CalledAll(old(Value()), callbacks))
      ensures var m := CalledAll(old(Value()), callbacks);
              && checkpoint.lastEventId == m.proc.last && checkpoint.eventsConfirmed == m.counted
              && if m.proc.unsaved > 0
                 then LoadedId(checkpoint.file) == checkpoint.lastEventId
                      && LoadedCount(checkpoint.file) == checkpoint.eventsConfirmed
                 else checkpoint.file == m.file
      ensures inFlight == |Value().proc.pending|
    {
      Serve(callbacks);
      if unsaved > 0 {
        checkpoint.Save();
        unsaved := 0;
      }
      inFlight := tracker.InFlight();
    }
  }

  function SavedAtExit(m: Memory): Memory {
    if m.proc.unsaved > 0 then m.(proc := m.proc.(unsaved := 0), file := Object(m.proc.last, Some(m.counted))) else m
  }

  // ---- Refinement -----------------------------------------------------------

  /** The machine state of a process, given what Kafka has confirmed and what was skipped. */
  function AsState(m: Memory, acked: set<nat>, skipped: set<nat>): State {
    State(LoadedId(m.file), acked, skipped, Some(m.proc))
  }

  /** A checkpoint in memory is never an empty string. */
  predicate Loaded(m: Memory) {
    m.proc.last.Some? ==> Usable(m.proc.last)
  }

  function Acks(m: Memory, acked: set<nat>, c: Callback): set<nat>
    requires c.seqNo in m.proc.at
  {
    if c.failed then acked else acked + {m.proc.at[c.seqNo]}
  }

  /** A callback is a delivery, or a failed delivery, possibly followed by a save. */
  lemma CallbackIsSteps(source: Source, m: Memory, acked: set<nat>, skipped: set<nat>, c: Callback) returns (mid: State)
    requires InFlight(m.proc, c.seqNo) && c.seqNo in m.proc.at && Loaded(m)
    ensures var s' := AsState(Called(m, c), Acks(m, acked, c), skipped);
            Follows(source, AsState(m, acked, skipped), mid, true) && (mid == s' || Follows(source, mid, s', true))
    ensures Loaded(Called(m, c)) && Called(m, c).proc.at == m.proc.at && Called(m, c).proc.conn == m.proc.conn
  {
    var s, s' := AsState(m, acked, skipped), AsState(Called(m, c), Acks(m, acked, c), skipped);
    if c.failed {
      mid := s';
      assert Next(source, s, Fail(c.seqNo), mid);
    } else {
      mid := s.(acked := Acks(m, acked, c), proc := Some(Delivered(m.proc, c.seqNo)));
      assert Next(source, s, Deliver(c.seqNo), mid);
      assert mid == s' || Next(source, mid, Save, s');
    }
  }

  /** Every callback is for a message in flight when it is served. */
  ghost predicate InFlightAll(m: Memory, cs: seq<Callback>) {
    cs != [] ==>
      var before, c := cs[..|cs| - 1], cs[|cs| - 1];
      InFlightAll(m, before) && InFlight(CalledAll(m, before).proc, c.seqNo) && c.seqNo in m.proc.at
  }

  function AcksAll(m: Memory, acked: set<nat>, cs: seq<Callback>): set<nat> {
    if cs == [] then acked
    else
      var before, c := AcksAll(m, acked, cs[..|cs| - 1]), cs[|cs| - 1];
      if c.seqNo in m.proc.at then Acks(m, before, c) else before
  }

  lemma {:induction false} CallbacksAreSteps(
    source: Source, first: State, m: Memory, acked: set<nat>, skipped: set<nat>, cs: seq<Callback>)
    requires Reaches(source, first, AsState(m, acked, skipped), true) && InFlightAll(m, cs) && Loaded(m)
    ensures Reaches(source, first, AsState(CalledAll(m, cs), AcksAll(m, acked, cs), skipped), true)
    ensures Loaded(CalledAll(m, cs)) && CalledAll(m, cs).proc.at == m.proc.at
    ensures CalledAll(m, cs).proc.conn == m.proc.conn
  {
    if cs != [] {
      var before, c := cs[..|cs| - 1], cs[|cs| - 1];
      CallbacksAreSteps(source, first, m, acked, skipped, before);
      var m0, acked0 := CalledAll(m, before), AcksAll(m, acked, before);
      var mid := CallbackIsSteps(source, m0, acked0, skipped, c);
      var last := AsState(Called(m0, c), Acks(m0, acked0, c), skipped);
      ReachesNext(source, first, AsState(m0, acked0, skipped), mid, true);
      if mid != last {
        ReachesNext(source, first, mid, last, true);
      }
    }
  }

  /** Stopping is some callbacks, then a Save step if they left anything unsaved, else nothing. */
  lemma ShutdownIsSteps(source: Source, m: Memory, acked: set<nat>, skipped: set<nat>, cs: seq<Callback>)
    requires InFlightAll(m, cs) && Loaded(m)
    ensures var mid := AsState(CalledAll(m, cs), AcksAll(m, acked, cs), skipped);
            var last := AsState(SavedAtExit(CalledAll(m, cs)), AcksAll(m, acked, cs), skipped);
            && Reaches(source, AsState(m, acked, skipped), mid, true)
            && if CalledAll(m, cs).proc.unsaved > 0 then Next(source, mid, Save, last) else last == mid
  {
    ReachesItself(source, AsState(m, acked, skipped), true);
    CallbacksAreSteps(source, AsState(m, acked, skipped), m, acked, skipped, cs);
  }

  // ---- Waiting for room in the queue ----------------------------------------

  /** Finding the queue full for the i-th time, the ingestor keeps waiting. */
  ghost predicate KeepsWaiting(m: Memory, fulls: seq<Full>, first: int, i: nat)
    requires i < |fulls|
  {
    && fulls[i].now - first < 60_000 && m.proc.running
    && forall j, c :: 0 <= j < i && c in fulls[j].callbacks ==> !c.failed
  }

  lemma {:induction false} RunningAfter(m: Memory, cs: seq<Callback>)
    ensures CalledAll(m, cs).proc.running <==> m.proc.running && forall c :: c in cs ==> !c.failed
  {
    if cs != [] {
      var before, last := cs[..|cs| - 1], cs[|cs| - 1];
      RunningAfter(m, before);
      RunningAfterOne(CalledAll(m, before), last);
      assert forall c :: c in cs <==> c in before || c == last;
    }
  }

  lemma RunningAfterOne(m: Memory, c: Callback)
    ensures Called(m, c).proc.running <==> m.proc.running && !c.failed
  {
  }

  /**
   A message is taken in the end exactly when every time the queue was full less than a
   minute had passed since the first time and no delivery had failed by then.
   */
  lemma {:induction false} SendAcceptedIff(
    m: Memory, fulls: seq<Full>, since: Option<int>, first: int, id: Option<string>, at: nat)
    requires fulls != [] ==> first == if since.Some? then since.value else fulls[0].now
    ensures SendAll(m, fulls, since, id, at).accepted <==>
            forall i :: 0 <= i < |fulls| ==> KeepsWaiting(m, fulls, first, i)
    decreases |fulls|
  {
    if fulls != [] {
      var m' := CalledAll(m, fulls[0].callbacks);
      SendAcceptedIff(m', fulls[1..], Some(first), first, id, at);
      RunningAfter(m, fulls[0].callbacks);
      WaitsOneMore(m, m', fulls, first);
    }
  }

  lemma WaitsLater(m: Memory, m': Memory, fulls: seq<Full>, first: int, i: nat)
    requires 0 < i < |fulls|
    requires m'.proc.running <==> m.proc.running && forall c :: c in fulls[0].callbacks ==> !c.failed
    ensures KeepsWaiting(m, fulls, first, i) <==> KeepsWaiting(m', fulls[1..], first, i - 1)
  {
    if KeepsWaiting(m', fulls[1..], first, i - 1) {
      forall j, c | 0 <= j < i && c in fulls[j].callbacks
        ensures !c.failed
      {
        assert j > 0 ==> c in fulls[1..][j - 1].callbacks;
      }
    }
  }

  lemma WaitsOneMore(m: Memory, m': Memory, fulls: seq<Full>, first: int)
    requires fulls != []
    requires m'.proc.running <==> m.proc.running && forall c :: c in fulls[0].callbacks ==> !c.failed
    ensures (forall i :: 0 <= i < |fulls| ==> KeepsWaiting(m, fulls, first, i)) <==>
            && KeepsWaiting(m, fulls, first, 0)
            && forall i :: 0 <= i < |fulls[1..]| ==> KeepsWaiting(m', fulls[1..], first, i)
  {
    forall i | 0 < i < |fulls|
      ensures KeepsWaiting(m, fulls, first, i) <==> KeepsWaiting(m', fulls[1..], first, i - 1)
    {
      WaitsLater(m, m', fulls, first, i);
    }
    if forall i :: 0 <= i < |fulls| ==> KeepsWaiting(m, fulls, first, i) {
      forall i | 0 <= i < |fulls[1..]|
        ensures KeepsWaiting(m', fulls[1..], first, i)
      {
        assert KeepsWaiting(m, fulls, first, i + 1);
      }
    }
  }

  /** While the queue is full, only messages in flight are called back. */
  ghost predicate ServedWell(m: Memory, fulls: seq<Full>, since: Option<int>)
    decreases |fulls|
  {
    fulls != [] ==>
      var waitedSince := if since.Some? then since.value else fulls[0].now;
      GivesUp(m, fulls[0].now, waitedSince) ||
      (InFlightAll(m, fulls[0].callbacks)
       && ServedWell(CalledAll(m, fulls[0].callbacks), fulls[1..], Some(waitedSince)))
  }

  /**
   Sending the event at hand is: some callbacks, then one Read step of the machine if the
   producer accepted it, or one QueueFull step if the ingestor gave up.
   */
  lemma {:induction false} SendIsSteps(source: Source, first: State, m: Memory, acked: set<nat>, skipped: set<nat>,
                                       fulls: seq<Full>, since: Option<int>, c: Conn)
    returns (mid: State, acked': set<nat>)
    requires m.proc.conn == Some(c) && c.open && c.start <= c.next < |source| && !source[c.next].isError
    requires Reaches(source, first, AsState(m, acked, skipped), true) && Loaded(m) && ServedWell(m, fulls, since)
    ensures var sent := SendAll(m, fulls, since, ReportedId(source, c.start, c.next), c.next);
            && Reaches(source, first, mid, true)
            && if sent.accepted
               then Next(source, mid, Read, AsState(sent.memory.(proc := Passed(sent.memory.proc, c)), acked', skipped))
               else Next(source, mid, QueueFull, AsState(sent.memory, acked', skipped))
    decreases |fulls|
  {
    mid, acked' := AsState(m, acked, skipped), acked;
    if fulls != [] {
      var waitedSince := if since.Some? then since.value else fulls[0].now;
      if !GivesUp(m, fulls[0].now, waitedSince) {
        CallbacksAreSteps(source, first, m, acked, skipped, fulls[0].callbacks);
        mid, acked' := SendIsSteps(source, first, CalledAll(m, fulls[0].callbacks),
                                   AcksAll(m, acked, fulls[0].callbacks),
                                   skipped, fulls[1..], Some(waitedSince), c);
      }
    }
  }

  /** Handling an event of the stream leads to where the machine's Read step, or QueueFull, leads. */
  lemma HandleIsSteps(source: Source, m: Memory, acked: set<nat>, skipped: set<nat>, fulls: seq<Full>, c: Conn)
    returns (mid: State, acked': set<nat>)
    requires m.proc.conn == Some(c) && c.open && c.start <= c.next < |source| && Loaded(m) && ServedWell(m, fulls, None)
    ensures Reaches(source, AsState(m, acked, skipped), mid, true)
    ensures var after := AsState(Handling(source, m, c, fulls), acked', skipped);
            Next(source, mid, Read, after) || Next(source, mid, QueueFull, after)
  {
    ReachesItself(source, AsState(m, acked, skipped), true);
    if source[c.next].isError {
      mid, acked' := AsState(m, acked, skipped), acked;
    } else {
      mid, acked' := SendIsSteps(source, AsState(m, acked, skipped), m, acked, skipped, fulls, None, c);
    }
  }
}

