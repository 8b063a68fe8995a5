/**
 The edits table and its writer (sinks/postgres_sink.py and sinks/db.py): rows first,
 offsets second, with an insert that skips ids already stored.
 */
module Sink {
  import opened Common
  import opened Events

  /** The stored columns of an event. */
  datatype Row = Row(eventId: string, wiki: string, title: string, kind: string, username: string, bot: bool,
                     timeMs: int, isRevert: bool, details: string)

  type Table = seq<Row>

  function AsRow(e: CleanEvent): Row {
    Row(e.eventId, e.wiki, e.title, e.kind, e.user, e.bot, e.timeMs, e.isRevert, e.details)
  }

  predicate HasRow(t: Table, id: string) {
    exists r :: r in t && r.eventId == id
  }

  function Inserted(t: Table, e: CleanEvent): Table {
    if HasRow(t, e.eventId) then t else t + [AsRow(e)]
  }

  function InsertedAll(t: Table, events: seq<CleanEvent>): Table {
    if events == [] then t else Inserted(InsertedAll(t, events[..|events| - 1]), events[|events| - 1])
  }

  /** event_id is the primary key. */
  ghost predicate UniqueKeys(t: Table) {
    forall i, j :: 0 <= i < j < |t| ==> t[i].eventId != t[j].eventId
  }

  /** Inserting adds a row for every new id, keeps every row there was, and adds nothing else. */
  lemma {:induction false} InsertAddsNewIds(t: Table, events: seq<CleanEvent>)
    requires UniqueKeys(t)
    ensures var t' := InsertedAll(t, events);
            && UniqueKeys(t') && t <= t'
            && (forall e :: e in events ==> HasRow(t', e.eventId))
            && (forall r :: r in t' ==> r in t || exists e :: e in events && r == AsRow(e) && !HasRow(t, e.eventId))
  {
    if events != [] {
      var before, e := events[..|events| - 1], events[|events| - 1];
      InsertAddsNewIds(t, before);
      var mid, t' := InsertedAll(t, before), InsertedAll(t, events);
      assert mid <= t';
      forall x | x in events
        ensures HasRow(t', x.eventId)
      {
        if x == e {
          assert HasRow(mid, e.eventId) || AsRow(e) in t';
        } else {
          assert x in before;
          var r :| r in mid && r.eventId == x.eventId;
          assert r in t';
        }
      }
      if !HasRow(mid, e.eventId) {
        assert forall r :: r in t ==> r in mid;
      }
    }
  }

  lemma {:induction false} InsertPresentChangesNothing(t: Table, events: seq<CleanEvent>)
    requires forall e :: e in events ==> HasRow(t, e.eventId)
    ensures InsertedAll(t, events) == t
  {
    if events != [] {
      InsertPresentChangesNothing(t, events[..|events| - 1]);
    }
  }

  /** Writing a batch again, as after a crash between rows and offsets, changes nothing. */
  lemma ReplayChangesNothing(t: Table, events: seq<CleanEvent>)
    requires UniqueKeys(t)
    ensures InsertedAll(InsertedAll(t, events), events) == InsertedAll(t, events)
  {
    InsertAddsNewIds(t, events);
    InsertPresentChangesNothing(InsertedAll(t, events), events);
  }

  /** INSERT ... ON CONFLICT DO NOTHING, with the number of rows it inserted. */
  method InsertEdits(t: Table, events: seq<CleanEvent>) returns (t': Table, written: nat)
    ensures t' == InsertedAll(t, events) && |t'| == |t| + written && written <= |events|
  {
    t', written := t, 0;
    for i := 0 to |events|
      invariant t' == InsertedAll(t, events[..i]) && |t'| == |t| + written && written <= i
    {
      assert events[..i + 1][..i] == events[..i];
      if !HasRow(t', events[i].eventId) {
        t', written := t' + [AsRow(events[i])], written + 1;
      }
    }
    assert events[..|events|] == events;
  }

  // ---- One partition of wiki.clean ------------------------------------------

  /** committed is the group's offset; pos, while a process owns the partition, is where it has written up to. */
  datatype State = State(committed: nat, pos: Option<nat>)

  datatype Step =
    | Take
    | Write(n: nat)
    | Commit
    | Lose

  function RowsAfter(t: Table, log: seq<CleanEvent>, s: State, step: Step): Table {
    if step.Write? && s.pos.Some? && s.pos.value + step.n <= |log|
    then InsertedAll(t, log[s.pos.value..s.pos.value + step.n]) else t
  }

  ghost predicate Next(log: seq<CleanEvent>, s: State, step: Step, s': State) {
    match step
    case Take => s.pos.None? && s' == s.(pos := Some(s.committed))
    case Write(n) => s.pos.Some? && s.pos.value + n <= |log| && s' == s.(pos := Some(s.pos.value + n))
    case Commit => s.pos.Some? && s' == s.(committed := s.pos.value)
    case Lose => s.pos.Some? && s' == s.(pos := None)
  }

  ghost predicate Stored(t: Table, log: seq<CleanEvent>, n: nat)
    requires n <= |log|
  {
    forall c :: 0 <= c < n ==> HasRow(t, log[c].eventId)
  }

  /** Every record below the committed offset, or written by the current owner, has a row. */
  ghost predicate Ok(t: Table, log: seq<CleanEvent>, s: State) {
    && s.committed <= |log| && Stored(t, log, s.committed)
    && (s.pos.Some? ==> s.pos.value <= |log| && Stored(t, log, s.pos.value))
  }

  lemma MoreRowsKeepOk(t: Table, t': Table, log: seq<CleanEvent>, s: State)
    requires Ok(t, log, s) && t <= t'
    ensures Ok(t', log, s)
  {
    forall id | HasRow(t, id)
      ensures HasRow(t', id)
    {
      var r :| r in t && r.eventId == id;
      assert r in t';
    }
  }

  lemma NextKeepsOk(t: Table, log: seq<CleanEvent>, s: State, step: Step, s': State)
    requires UniqueKeys(t) && Ok(t, log, s) && Next(log, s, step, s')
    ensures Ok(RowsAfter(t, log, s, step), log, s')
  {
    if step.Write? {
      WriteStores(t, log, s, step.n);
    }
  }

  lemma WriteStores(t: Table, log: seq<CleanEvent>, s: State, n: nat)
    requires UniqueKeys(t) && Ok(t, log, s) && s.pos.Some? && s.pos.value + n <= |log|
    ensures Ok(RowsAfter(t, log, s, Write(n)), log, s.(pos := Some(s.pos.value + n)))
  {
    var from, to := s.pos.value, s.pos.value + n;
    var batch, t' := log[from..to], RowsAfter(t, log, s, Write(n));
    InsertAddsNewIds(t, batch);
    MoreRowsKeepOk(t, t', log, s);
    forall c | 0 <= c < to
      ensures HasRow(t', log[c].eventId)
    {
      if c >= from {
        assert batch[c - from] == log[c];
        assert log[c] in batch;
      }
    }
  }

  class PostgresSink {
    /** The database, and the group's offset kept by the broker. */
    var table: Table
    var committed: nat
    var pos: Option<nat>
    var inserted: nat
    var skipped: nat

    ghost function AsState(): State
      reads this
    {
      State(committed, pos)
    }

    constructor (table: Table, committed: nat)
      ensures this.table == table && AsState() == State(committed, None) && inserted == skipped == 0
    {
      this.table, this.committed, pos := table, committed, None;
      inserted, skipped := 0, 0;
    }

    method OnAssign(log: seq<CleanEvent>)
      requires pos.None?
      modifies this
      ensures table == old(table) && Next(log, old(AsState()), Take, AsState())
      ensures pos == Some(committed) && committed == old(committed)
    {
      pos := Some(committed);
    }

    /** Rows first, offsets second; a crash in between leaves the state that Write alone gives. */
    method WriteBatch(log: seq<CleanEvent>, n: nat) returns (ghost between: State)
      requires pos.Some? && pos.value + n <= |log|
      modifies this
      ensures Next(log, old(AsState()), Write(n), between) && Next(log, between, Commit, AsState())
      ensures table == RowsAfter(old(table), log, old(AsState()), Write(n))
      ensures inserted == old(inserted) + |table| - |old(table)|
      ensures inserted + skipped == old(inserted + skipped) + n
      ensures committed == old(pos).value + n && pos == Some(committed)
    {
      var events := log[pos.value..pos.value + n];
      var written: nat;
      table, written := InsertEdits(table, events);
      inserted := inserted + written;
      skipped := skipped + |events| - written;
      pos := Some(pos.value + n);
      between := AsState();
      committed := pos.value;
    }

    method OnRevoke(log: seq<CleanEvent>)
      requires pos.Some?
      modifies this
      ensures table == old(table) && Next(log, old(AsState()), Lose, AsState())
    {
      pos := None;
    }
  }
}

