/**
 The trending process itself (processors/trending.py): an object that reads,
 flushes in the order pop, write, commit, and gives partitions up. Each method is
 one step of the machine in module Trending.
 */
module TrendingProcess {
  import opened Common
  import opened Windows
  import opened Trending

  /** One row after the other: insert it, or raise the stored count to it. */
  method UpsertTrending(before: map<WindowKey, nat>, rows: seq<ClosedWindow>) returns (table: map<WindowKey, nat>)
    ensures IsUpsert(before, SetOf(rows), table)
  {
    table := before;
    for i := 0 to |rows|
      invariant IsUpsert(before, SetOf(rows[..i]), table)
    {
      var row := rows[i];
      assert SetOf(rows[..i + 1]) == SetOf(rows[..i]) + {row};
      UpsertStep(before, SetOf(rows[..i]), table, row);
      table := table[row.key := if row.key in table then Max(table[row.key], row.count) else row.count];
    }
    assert rows[..|rows|] == rows;
  }

  lemma UpsertStep(before: map<WindowKey, nat>, rows: set<ClosedWindow>, table: map<WindowKey, nat>, row: ClosedWindow)
    requires IsUpsert(before, rows, table)
    ensures IsUpsert(before, rows + {row},
                     table[row.key := if row.key in table then Max(table[row.key], row.count) else row.count])
  {
  }

  /** The upsert is a function of the table and the rows. */
  lemma UpsertIsDetermined(
    table: map<WindowKey, nat>, rows: set<ClosedWindow>, a: map<WindowKey, nat>, b: map<WindowKey, nat>)
    requires IsUpsert(table, rows, a) && IsUpsert(table, rows, b)
    ensures a == b
  {
    forall k | k in a
      ensures k in b && a[k] == b[k]
    {
      assert k in table || ClosedWindow(k, a[k]) in rows;
      assert k in b;
      assert (k in table && b[k] == table[k]) || ClosedWindow(k, b[k]) in rows;
    }
    forall k | k in b
      ensures k in a
    {
      assert k in table || ClosedWindow(k, b[k]) in rows;
    }
  }

  /** Writing the same rows again changes nothing, so a write may be retried when its outcome is unknown. */
  lemma UpsertAgainChangesNothing(
    table: map<WindowKey, nat>, rows: set<ClosedWindow>, once: map<WindowKey, nat>, twice: map<WindowKey, nat>)
    requires IsUpsert(table, rows, once) && IsUpsert(once, rows, twice)
    ensures twice == once
  {
    assert IsUpsert(once, rows, once) by {
      forall row | row in rows
        ensures row.key in once && row.count <= once[row.key]
      {
      }
    }
    UpsertIsDetermined(once, rows, once, twice);
  }

  /** What one attempt to write does: fail before or after the server committed, or succeed. */
  datatype Attempt = LostBefore | LostAfter | Succeeded

  /** Database.write: repeat one write over lost connections, up to its first success. */
  method WriteWithRetry(before: map<WindowKey, nat>, rows: seq<ClosedWindow>, attempts: seq<Attempt>)
    returns (table: map<WindowKey, nat>, done: bool)
    ensures done <==> Succeeded in attempts
    ensures done ==> IsUpsert(before, SetOf(rows), table)
    ensures if LostAfter in attempts || Succeeded in attempts then IsUpsert(before, SetOf(rows), table)
            else table == before
  {
    table, done := before, false;
    for i := 0 to |attempts|
      invariant Succeeded !in attempts[..i] && !done
      invariant if LostAfter in attempts[..i] then IsUpsert(before, SetOf(rows), table) else table == before
    {
      assert attempts[..i + 1] == attempts[..i] + [attempts[i]];
      if attempts[i] != LostBefore {
        var next := UpsertTrending(table, rows);
        if LostAfter in attempts[..i] {
          UpsertAgainChangesNothing(before, SetOf(rows), table, next);
        }
        table := next;
      }
      if attempts[i] == Succeeded {
        return table, true;
      }
    }
    assert attempts[..|attempts|] == attempts;
  }

  class TrendingProcess {
    const windows: MinuteWindows
    /** The rows of trending_minutes and the group's committed offsets, which outlive the process. */
    var table: map<WindowKey, nat>
    var committed: map<nat, nat>
    var writtenRows: nat
    ghost const logs: seq<Log>
    ghost var readers: map<nat, Reader>
    ghost var capped: bool

    ghost predicate Valid()
      reads this, windows
    {
      windows.Valid() && Tracks(windows.cfg, logs, windows.partitions, readers)
    }

    ghost function AsState(): State
      reads this
    {
      State(readers, table, committed, capped)
    }

    /** A new process owns no partition; the table and the commits are what earlier ones left. */
    constructor (latenessMs: int, maxWindows: nat, table: map<WindowKey, nat>, committed: map<nat, nat>,
                 ghost logs: seq<Log>)
      ensures Valid() && fresh(windows) && this.logs == logs
      ensures windows.cfg == Config(latenessMs, maxWindows)
      ensures AsState() == State(map[], table, committed, false)
    {
      windows := new MinuteWindows(latenessMs, maxWindows);
      this.table, this.committed, writtenRows := table, committed, 0;
      this.logs, readers, capped := logs, map[], false;
    }

    /** Take a free partition; reading starts at the committed offset. */
    method OnAssign(p: nat)
      requires Valid() && p < |logs| && p !in readers && Committed(AsState(), p) <= |logs[p]|
      modifies this
      ensures Valid() && Next(windows.cfg, logs, old(AsState()), Assign(p), AsState())
    {
      readers := readers[p := Reader(Committed(AsState(), p), Committed(AsState(), p), EMPTY_PART, map[], false)];
      FreshReader(windows.cfg, logs[p], table, readers[p].start);
    }

    method Handle(p: nat, offset: nat, entry: Entry)
      requires Valid() && p in readers
      requires offset == readers[p].pos < |logs[p]| && entry == logs[p][offset]
      modifies this, windows
      ensures Valid() && Next(windows.cfg, logs, old(AsState()), Read(p), AsState())
    {
      capped := capped || ForcesOut(windows.cfg, logs[p], readers[p]);
      ReadIsTracked(windows.cfg, logs, windows.partitions, readers, p);
      readers := readers[p := AfterRead(windows.cfg, logs[p], readers[p])];
      if entry.Edit? {
        var counted := windows.Add(p, offset, entry.wiki, entry.title, entry.time);
      }
    }

    /** Pop rows, store them, and only then commit. */
    method Flush(final: bool) returns (rows: nat)
      requires Valid()
      modifies this, windows
      ensures Valid() && readers.Keys == old(readers.Keys) && rows == writtenRows - old(writtenRows)
      ensures Next(windows.cfg, logs, old(AsState()), Step.Flush(old(readers.Keys), final), AsState())
    {
      ghost var before := AsState();
      var closed := Pop(final);
      Store(closed);
      Commit(before);
      FlushIsStep(windows.cfg, logs, before, AsState(), final);
      rows := |closed|;
    }

    method Pop(final: bool) returns (closed: seq<ClosedWindow>)
      requires Valid()
      modifies this`readers, windows
      ensures Valid() && readers == PopAll(windows.cfg, old(readers), old(readers.Keys), final)
      ensures SetOf(closed) == RowSet(windows.cfg, old(readers), old(readers.Keys), final)
    {
      ghost var partitions := windows.partitions;
      closed := windows.PopClosed(final);
      RowsOfAllPartitions(windows.cfg, logs, partitions, readers, final, closed);
      AllPopped(windows.cfg, logs, partitions, windows.partitions, readers, final);
      readers := PopAll(windows.cfg, readers, readers.Keys, final);
    }

    method Store(closed: seq<ClosedWindow>)
      modifies this`table, this`writtenRows
      ensures IsUpsert(old(table), SetOf(closed), table) && writtenRows == old(writtenRows) + |closed|
    {
      if |closed| > 0 {
        table := UpsertTrending(table, closed);
        writtenRows := writtenRows + |closed|;
      }
    }

    method Commit(ghost before: State)
      requires Valid() && before.committed == committed
      modifies this`committed
      ensures IsCommit(before, readers, readers.Keys, committed)
    {
      var offsets := windows.CommitOffsets();
      CommitsAreTracked(windows.cfg, logs, windows.partitions, readers, offsets);
      committed := committed + map p | p in offsets :: offsets[p] as nat;
    }

    /** A final flush of everything, then the revoked partitions are dropped. */
    method OnRevoke(revoked: set<nat>)
      requires Valid() && revoked <= readers.Keys
      modifies this, windows
      ensures Valid() && readers.Keys == old(readers.Keys) - revoked
      ensures exists flushed: State ::
                && Next(windows.cfg, logs, old(AsState()), Step.Flush(old(readers.Keys), true), flushed)
                && Next(windows.cfg, logs, flushed, Lose(revoked), AsState())
    {
      var rows := Flush(true);
      ghost var flushed := AsState();
      DropIsTracked(windows.cfg, logs, windows.partitions, readers, revoked);
      windows.Revoke(revoked);
      readers := readers - revoked;
      assert Next(windows.cfg, logs, flushed, Lose(revoked), AsState());
    }
  }

  /** Pop, write and commit, each as specified, make one Flush step. */
  lemma FlushIsStep(cfg: Config, logs: seq<Log>, s: State, s': State, final: bool)
    requires s'.readers == PopAll(cfg, s.readers, s.readers.Keys, final) && s'.capped == s.capped
    requires IsUpsert(s.table, RowSet(cfg, s.readers, s.readers.Keys, final), s'.table)
    requires IsCommit(s, s'.readers, s'.readers.Keys, s'.committed)
    ensures Next(cfg, logs, s, Step.Flush(s.readers.Keys, final), s')
  {
    assert s'.readers.Keys == s.readers.Keys;
  }

  function PartIn(partitions: map<nat, Part>, p: nat): Part {
    if p in partitions then partitions[p] else EMPTY_PART
  }

  /** The window state in memory is the part of every reader, and every reader is well. */
  ghost predicate Tracks(cfg: Config, logs: seq<Log>, partitions: map<nat, Part>, readers: map<nat, Reader>) {
    && partitions.Keys <= readers.Keys
    && (forall p :: p in readers ==> TracksOne(cfg, logs, PartIn(partitions, p), p, readers[p]))
  }

  ghost predicate TracksOne(cfg: Config, logs: seq<Log>, part: Part, p: nat, r: Reader) {
    p < |logs| && part == r.part && ReaderOk(cfg, logs[p], r)
  }

  lemma EmptyStaysEmpty(cfg: Config, final: bool)
    ensures Popped(cfg, EMPTY_PART, final) == EMPTY_PART && Rows(cfg, EMPTY_PART, final) == map[]
  {
    assert Done(cfg, EMPTY_PART, final) == {};
    assert OpenFirsts(cfg, EMPTY_PART, {}) == {};
  }

  lemma ReadIsTracked(cfg: Config, logs: seq<Log>, partitions: map<nat, Part>, readers: map<nat, Reader>, p: nat)
    requires Tracks(cfg, logs, partitions, readers) && p in readers && readers[p].pos < |logs[p]|
    ensures var r' := AfterRead(cfg, logs[p], readers[p]);
            && (logs[p][readers[p].pos].Edit? ==> Tracks(cfg, logs, partitions[p := r'.part], readers[p := r']))
            && (logs[p][readers[p].pos].Unreadable? ==> Tracks(cfg, logs, partitions, readers[p := r']))
  {
    var r' := AfterRead(cfg, logs[p], readers[p]);
    ReadKeepsReader(cfg, logs[p], readers[p]);
    assert TracksOne(cfg, logs, r'.part, p, r');
    forall q | q in readers && q != p
      ensures TracksOne(cfg, logs, PartIn(partitions[p := r'.part], q), q, readers[q])
    {
      assert TracksOne(cfg, logs, PartIn(partitions, q), q, readers[q]);
    }
  }

  lemma DropIsTracked(
    cfg: Config, logs: seq<Log>, partitions: map<nat, Part>, readers: map<nat, Reader>, revoked: set<nat>)
    requires Tracks(cfg, logs, partitions, readers)
    ensures Tracks(cfg, logs, partitions - revoked, readers - revoked)
  {
    forall p | p in readers - revoked
      ensures TracksOne(cfg, logs, PartIn(partitions - revoked, p), p, readers[p])
    {
      assert PartIn(partitions - revoked, p) == PartIn(partitions, p);
    }
  }

  /** The offsets to commit are those of the readers that have something to commit. */
  lemma CommitsAreTracked(
    cfg: Config, logs: seq<Log>, partitions: map<nat, Part>, readers: map<nat, Reader>, offsets: map<nat, int>)
    requires Tracks(cfg, logs, partitions, readers)
    requires forall p :: p in offsets <==> p in partitions && CommitPoint(partitions[p]).Some?
    requires forall p :: p in offsets ==> Some(offsets[p]) == CommitPoint(partitions[p])
    ensures forall p :: p in offsets <==> p in readers && CommitPoint(readers[p].part).Some?
    ensures forall p :: p in offsets ==> Some(offsets[p]) == CommitPoint(readers[p].part) && offsets[p] >= 0
  {
    assert CommitPoint(EMPTY_PART).None?;
    forall p | p in readers
      ensures PartIn(partitions, p) == readers[p].part && (p in offsets ==> offsets[p] >= 0)
    {
      assert TracksOne(cfg, logs, PartIn(partitions, p), p, readers[p]);
      if p in offsets {
        PointInRange(cfg, logs[p], readers[p]);
      }
    }
  }

  lemma AllPopped(
    cfg: Config, logs: seq<Log>, before: map<nat, Part>, after: map<nat, Part>, readers: map<nat, Reader>, final: bool)
    requires Tracks(cfg, logs, before, readers)
    requires after == map p | p in before :: Popped(cfg, before[p], final)
    ensures Tracks(cfg, logs, after, PopAll(cfg, readers, readers.Keys, final))
  {
    EmptyStaysEmpty(cfg, final);
    forall p | p in readers
      ensures TracksOne(cfg, logs, PartIn(after, p), p, AfterPop(cfg, readers[p], final))
    {
      assert TracksOne(cfg, logs, PartIn(before, p), p, readers[p]);
      PopKeepsReader(cfg, logs[p], readers[p], final);
    }
  }

  lemma RowsOfAllPartitions(
    cfg: Config, logs: seq<Log>, partitions: map<nat, Part>, readers: map<nat, Reader>, final: bool,
    closed: seq<ClosedWindow>)
    requires Tracks(cfg, logs, partitions, readers)
    requires forall row :: row in closed <==> exists p :: p in partitions && IsRow(row, Rows(cfg, partitions[p], final))
    ensures RowSet(cfg, readers, readers.Keys, final) == SetOf(closed)
  {
    EmptyStaysEmpty(cfg, final);
    forall row | row in RowSet(cfg, readers, readers.Keys, final)
      ensures row in closed
    {
      var p :| p in readers && row.key in Rows(cfg, readers[p].part, final)
               && row.count == Rows(cfg, readers[p].part, final)[row.key];
      assert PartIn(partitions, p) == readers[p].part;
      assert IsRow(row, Rows(cfg, partitions[p], final));
    }
    forall row | row in closed
      ensures row in RowSet(cfg, readers, readers.Keys, final)
    {
      var p :| p in partitions && IsRow(row, Rows(cfg, partitions[p], final));
      assert PartIn(partitions, p) == readers[p].part;
      assert row == ClosedWindow(row.key, Rows(cfg, readers[p].part, final)[row.key]);
    }
  }
}

