/**
 The page state processor for one partition (processors/page_state.py) and the reader
 of its output (web/pages.py): each method of the processor is one step of the machine
 in PageState, and the reader folds the topic into the table of PageTable.
 */
module PageProcess {
  import opened Common
  import opened Events
  import opened PageState
  import opened PageTable

  /** The guard, one record of the topic after the other. */
  method LoadApplied(topic: seq<Record>) returns (applied: Guard)
    ensures applied == GuardOf(topic)
  {
    applied := map[];
    for i := 0 to |topic|
      invariant applied == GuardOf(topic[..i])
    {
      assert topic[..i + 1][..i] == topic[..i];
      if topic[i].key.Some? {
        var key, t := topic[i].key.value, TimeOfRecord(topic[i]);
        if t > (if key in applied then applied[key] else -1) {
          applied := applied[key := t];
        }
      }
    }
    assert topic[..|topic|] == topic;
  }

  class PageProcess {
    /** Kept by the broker: the group's offset and every record committed to the output partition. */
    var committed: nat
    var out: seq<Record>
    /** Kept in memory. */
    var applied: Option<Guard>
    var pos: nat
    var updates: nat
    var tombstones: nat
    var stale: nat
    var ignored: nat
    var unreadable: nat

    ghost function AsState(): State
      reads this
    {
      State(committed, out, if applied.None? then None else Some(Owner(applied.value, pos)))
    }

    function Counted(): nat
      reads this
    {
      updates + tombstones + stale + ignored + unreadable
    }

    constructor (committed: nat, out: seq<Record>)
      ensures AsState() == State(committed, out, None) && Counted() == 0
    {
      this.committed, this.out, applied, pos := committed, out, None, 0;
      updates, tombstones, stale, ignored, unreadable := 0, 0, 0, 0, 0;
    }

    /** The partition is assigned: rebuild the guard from what compaction left of the output. */
    method OnAssign(log: CleanLog, ghost keep: seq<bool>, ghost stamps: seq<int>, topic: seq<Record>)
      requires applied.None? && KeepsNewest(out, keep)
      requires |stamps| == |Compact(out, keep)| && forall i :: 0 <= i < |stamps| ==> stamps[i] > 0
      requires topic == Stamped(Compact(out, keep), stamps)
      modifies this
      ensures Next(log, old(AsState()), Take(keep, stamps), AsState())
    {
      var guard := LoadApplied(topic);
      applied, pos := Some(guard), committed;
    }

    /** One input record, given what the transaction has produced so far. */
    method Handle(log: CleanLog, o: nat, produced: seq<Record>) returns (produced': seq<Record>)
      requires applied.Some? && o < |log|
      modifies this
      ensures applied.Some? && Work(applied.value, produced') == Handled(Work(old(applied).value, produced), log, o)
      ensures committed == old(committed) && out == old(out) && pos == old(pos)
      ensures Counted() == old(Counted()) + 1
      ensures updates + tombstones - old(updates + tombstones) == |produced'| - |produced|
      ensures tombstones > old(tombstones) <==> |produced'| > |produced| && produced'[|produced|].value.Tombstone?
      ensures unreadable > old(unreadable) <==> log[o].None?
      ensures ignored > old(ignored) <==>
                log[o].Some? && log[o].value.kind != "edit" && log[o].value.kind != "new" && !Deletes(log[o].value)
    {
      produced' := produced;
      if log[o].None? {
        unreadable := unreadable + 1;
        return;
      }
      var update := PageUpdate(log[o].value);
      if update.None? {
        ignored := ignored + 1;
        return;
      }
      var r, guard := update.value, applied.value;
      var key, t := r.key.value, r.timestamp;
      if t < (if key in guard then guard[key] else -1) {
        stale := stale + 1;
        return;
      }
      produced' := produced + [r];
      applied := Some(Remember(guard, key, t));
      if r.value.Tombstone? {
        tombstones := tombstones + 1;
      } else {
        updates := updates + 1;
      }
    }

    /** One transaction: handle every record, then commit the output and the offset together. */
    method ProcessBatch(log: CleanLog, n: nat)
      requires applied.Some? && pos + n <= |log|
      modifies this
      ensures Next(log, old(AsState()), Batch(n), AsState())
      ensures Counted() == old(Counted()) + n
      ensures updates + tombstones - old(updates + tombstones) == |out| - |old(out)|
      ensures pos == committed == old(pos) + n
    {
      ghost var before := Work(applied.value, out);
      var produced := out;
      for i := 0 to n
        invariant applied.Some? && pos == old(pos) && committed == old(committed) && out == old(out)
        invariant Work(applied.value, produced) == HandledRange(before, log, pos, pos + i)
        invariant Counted() == old(Counted()) + i
        invariant updates + tombstones - old(updates + tombstones) == |produced| - |out|
      {
        produced := Handle(log, pos + i, produced);
      }
      out, committed, pos := produced, pos + n, pos + n;
    }

    method OnRevoke(log: CleanLog)
      requires applied.Some?
      modifies this
      ensures Next(log, old(AsState()), Lose, AsState())
    {
      applied := None;
    }
  }

  /** The dashboard's copy of the page table. */
  class PageStore {
    var pages: Table
    var recordsRead: nat
    var tombstones: nat

    constructor ()
      ensures pages == map[] && recordsRead == tombstones == 0
    {
      pages, recordsRead, tombstones := map[], 0, 0;
    }

    method Apply(r: Record)
      modifies this
      ensures pages == ApplyRecord(old(pages), r)
      ensures recordsRead == old(recordsRead) + if r.key.Some? then 1 else 0
      ensures tombstones == old(tombstones) + if r.key.Some? && r.value.Tombstone? then 1 else 0
    {
      if r.key.None? {
        return;
      }
      recordsRead := recordsRead + 1;
      match r.value
      case Tombstone =>
        tombstones := tombstones + 1;
        pages := pages - {r.key.value};
      case Unreadable =>
      case Page(page) =>
        pages := pages[r.key.value := page];
    }

    /** Forget everything and read the topic from its beginning. */
    method Follow(topic: seq<Record>)
      modifies this
      ensures pages == TableOf(topic)
      ensures AllWritten(topic) ==> recordsRead == |topic|
    {
      pages, recordsRead, tombstones := map[], 0, 0;
      for i := 0 to |topic|
        invariant pages == TableOf(topic[..i])
        invariant recordsRead <= i && (AllWritten(topic) ==> recordsRead == i)
      {
        assert topic[..i + 1][..i] == topic[..i];
        assert topic[i] in topic;
        Apply(topic[i]);
      }
      assert topic[..|topic|] == topic;
    }
  }
}

