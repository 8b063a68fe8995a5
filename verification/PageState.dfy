/** The latest state of every page as a changelog-backed table (processors/page_state.py and page_latest.py). */
module PageState {
  import opened Common
  import opened Events

  // Updates older than what a page already shows are dropped, and the guard that decides this
  // is rebuilt from the compacted output.

  // ---- Records --------------------------------------------------------------

  datatype PageLatest = PageLatest(
    wiki: string, title: string, eventId: string, kind: string, user: string, bot: bool, isRevert: bool,
    timeMs: int, details: string)

  datatype Value = Tombstone | Unreadable | Page(page: PageLatest)

  /** A record of wiki.page-latest. */
  datatype Record = Record(key: Option<string>, value: Value, timestamp: int)

  function FromEvent(e: CleanEvent): PageLatest {
    PageLatest(e.wiki, e.title, e.eventId, e.kind, e.user, e.bot, e.isRevert, e.timeMs, e.details)
  }

  predicate IsDeletion(e: CleanEvent) {
    e.kind == "log" && e.logType == Some("delete") && e.logAction == Some("delete")
  }

  /** What to write for an event: a page, a tombstone, or nothing. The record is stamped with the event time. */
  function PageUpdate(e: CleanEvent): Option<Record> {
    if e.kind == "edit" || e.kind == "new" then Some(Record(Some(PageKey(e)), Page(FromEvent(e)), e.timeMs))
    else if IsDeletion(e) then Some(Record(Some(PageKey(e)), Tombstone, e.timeMs))
    else None
  }

  /** The time inside a page, or else the stamp on the record. */
  function TimeOfRecord(r: Record): int {
    if r.value.Page? then r.value.page.timeMs else r.timestamp
  }

  /** Records as this processor writes them. */
  predicate Written(r: Record) {
    r.key.Some? && !r.value.Unreadable? && TimeOfRecord(r) == r.timestamp
  }

  // ---- The guard ------------------------------------------------------------

  type Guard = map<string, int>

  function TimeApplied(g: Guard, key: string): int {
    if key in g then g[key] else -1
  }

  function Remember(g: Guard, key: string, t: int): Guard {
    if t > TimeApplied(g, key) then g[key := t] else g
  }

  predicate IsStale(g: Guard, key: string, t: int) {
    t < TimeApplied(g, key)
  }

  function GuardWith(g: Guard, r: Record): Guard {
    if r.key.Some? then Remember(g, r.key.value, TimeOfRecord(r)) else g
  }

  /** The guard rebuilt by reading a topic from its beginning. */
  function GuardOf(topic: seq<Record>): Guard {
    if topic == [] then map[] else GuardWith(GuardOf(topic[..|topic| - 1]), topic[|topic| - 1])
  }

  // ---- Handling updates -----------------------------------------------------

  datatype Work = Work(guard: Guard, out: seq<Record>)

  const NO_WORK := Work(map[], [])

  function Applied(w: Work, r: Record): Work
    requires Written(r)
  {
    if IsStale(w.guard, r.key.value, r.timestamp) then w
    else Work(Remember(w.guard, r.key.value, r.timestamp), w.out + [r])
  }

  /** One partition of wiki.clean; None is a record that cannot be read. */
  type CleanLog = seq<Option<CleanEvent>>

  function UpdateAt(log: CleanLog, o: nat): Option<Record>
    requires o < |log|
    ensures UpdateAt(log, o).Some? ==> Written(UpdateAt(log, o).value)
  {
    if log[o].Some? then PageUpdate(log[o].value) else None
  }

  function Handled(w: Work, log: CleanLog, o: nat): Work
    requires o < |log|
  {
    match UpdateAt(log, o)
    case None => w
    case Some(r) => Applied(w, r)
  }

  function HandledRange(w: Work, log: CleanLog, from: nat, to: nat): Work
    requires from <= to <= |log|
  {
    if from == to then w else Handled(HandledRange(w, log, from, to - 1), log, to - 1)
  }

  lemma {:induction false} HandledInTwo(w: Work, log: CleanLog, from: nat, mid: nat, to: nat)
    requires from <= mid <= to <= |log|
    ensures HandledRange(w, log, from, to) == HandledRange(HandledRange(w, log, from, mid), log, mid, to)
  {
    if mid < to {
      HandledInTwo(w, log, from, mid, to - 1);
    }
  }

  // ---- Compaction -----------------------------------------------------------

  /** What is left of a topic when the records not marked are removed. */
  function Compact(topic: seq<Record>, keep: seq<bool>): seq<Record>
    requires |keep| == |topic|
  {
    if topic == [] then []
    else Compact(topic[..|topic| - 1], keep[..|topic| - 1]) + (if keep[|topic| - 1] then [topic[|topic| - 1]] else [])
  }

  /** A record is removed only if a newer one of its key exists. */
  ghost predicate KeepsNewest(topic: seq<Record>, keep: seq<bool>) {
    |keep| == |topic| && forall key :: KeepsNewestOf(topic, keep, key)
  }

  ghost predicate KeepsNewestOf(topic: seq<Record>, keep: seq<bool>, key: Option<string>)
    requires |keep| == |topic|
  {
    forall i :: 0 <= i < |topic| && topic[i].key == key && !keep[i] ==> HasLater(topic, i, key)
  }

  ghost predicate HasLater(topic: seq<Record>, i: int, key: Option<string>)
    requires 0 <= i < |topic|
  {
    exists j :: i < j < |topic| && topic[j].key == key
  }

  /** The newest record of a key. */
  function LastOf(topic: seq<Record>, key: string): (last: Option<Record>)
    ensures last.Some? ==> last.value in topic && last.value.key == Some(key)
    ensures last.None? ==> forall r :: r in topic ==> r.key != Some(key)
  {
    if topic == [] then None
    else if topic[|topic| - 1].key == Some(key) then Some(topic[|topic| - 1])
    else LastOf(topic[..|topic| - 1], key)
  }

  lemma LastOfAppend(topic: seq<Record>, r: Record, key: string)
    ensures LastOf(topic + [r], key) == if r.key == Some(key) then Some(r) else LastOf(topic, key)
  {
    assert (topic + [r])[..|topic|] == topic;
  }

  lemma {:induction false} CompactionKeepsLast(topic: seq<Record>, keep: seq<bool>, key: string)
    requires |keep| == |topic| && KeepsNewestOf(topic, keep, Some(key))
    ensures LastOf(Compact(topic, keep), key) == LastOf(topic, key)
  {
    if topic != [] {
      var n := |topic| - 1;
      var rest, restKeep := topic[..n], keep[..n];
      LastOfAppend(Compact(rest, restKeep), topic[n], key);
      assert Compact(rest, restKeep) + [] == Compact(rest, restKeep);
      if topic[n].key != Some(key) {
        forall i | 0 <= i < n && rest[i].key == Some(key) && !restKeep[i]
          ensures HasLater(rest, i, Some(key))
        {
          assert HasLater(topic, i, Some(key));
          var j :| i < j < |topic| && topic[j].key == Some(key);
          assert rest[j] == topic[j];
        }
        CompactionKeepsLast(rest, restKeep, key);
      } else {
        assert !HasLater(topic, n, Some(key));
      }
    }
  }

  /** Per key, times never go back. */
  ghost predicate Ascending(topic: seq<Record>) {
    && (forall i :: 0 <= i < |topic| ==> Written(topic[i]) && topic[i].timestamp >= -1)
    && (forall i, j :: 0 <= i < j < |topic| && topic[i].key == topic[j].key ==>
          topic[i].timestamp <= topic[j].timestamp)
  }

  lemma {:induction false} CompactionIsPart(topic: seq<Record>, keep: seq<bool>)
    requires |keep| == |topic|
    ensures forall r :: r in Compact(topic, keep) ==> r in topic
  {
    if topic != [] {
      CompactionIsPart(topic[..|topic| - 1], keep[..|topic| - 1]);
    }
  }

  lemma {:induction false} CompactionStaysAscending(topic: seq<Record>, keep: seq<bool>)
    requires |keep| == |topic| && Ascending(topic)
    ensures Ascending(Compact(topic, keep))
  {
    if topic != [] {
      var n := |topic| - 1;
      CompactionStaysAscending(topic[..n], keep[..n]);
      CompactionIsPart(topic[..n], keep[..n]);
      var rest, all := Compact(topic[..n], keep[..n]), Compact(topic, keep);
      forall i | 0 <= i < |rest| && rest[i].key == topic[n].key
        ensures rest[i].timestamp <= topic[n].timestamp
      {
        assert rest[i] in topic[..n];
      }
    }
  }

  /** The time a guard must hold for a page whose newest record is known. */
  function LastTime(last: Option<Record>): int {
    if last.Some? then last.value.timestamp else -1
  }

  /** The guard read from a topic of ascending times holds exactly the time of each key's newest record. */
  lemma {:induction false} GuardIsLast(topic: seq<Record>, key: string)
    requires Ascending(topic)
    ensures TimeApplied(GuardOf(topic), key) == LastTime(LastOf(topic, key))
    ensures key in GuardOf(topic) <==> LastTime(LastOf(topic, key)) > -1
  {
    if topic != [] {
      var n := |topic| - 1;
      GuardIsLast(topic[..n], key);
      var before := LastOf(topic[..n], key);
      if topic[n].key == Some(key) && before.Some? {
        assert before.value in topic[..n];
      }
    }
  }

  /** A guard rebuilt from any compaction that keeps each key's newest record is the guard of the whole topic. */
  lemma GuardSurvivesCompaction(topic: seq<Record>, keep: seq<bool>)
    requires Ascending(topic) && KeepsNewest(topic, keep)
    ensures GuardOf(Compact(topic, keep)) == GuardOf(topic)
  {
    var compacted := Compact(topic, keep);
    CompactionStaysAscending(topic, keep);
    forall key
      ensures TimeApplied(GuardOf(compacted), key) == TimeApplied(GuardOf(topic), key)
      ensures key in GuardOf(compacted) <==> key in GuardOf(topic)
    {
      CompactionKeepsLast(topic, keep, key);
      GuardIsLast(compacted, key);
      GuardIsLast(topic, key);
    }
    SameGuard(GuardOf(compacted), GuardOf(topic));
  }

  lemma SameGuard(a: Guard, b: Guard)
    requires forall key :: TimeApplied(a, key) == TimeApplied(b, key) && (key in a <==> key in b)
    ensures a == b
  {
    forall key | key in a
      ensures a[key] == b[key]
    {
      assert TimeApplied(a, key) == TimeApplied(b, key);
    }
  }

  /** The output is ascending and the guard is what reading it back gives. */
  ghost predicate WorkOk(w: Work) {
    Ascending(w.out) && w.guard == GuardOf(w.out)
  }

  lemma AppliedKeepsOk(w: Work, r: Record)
    requires WorkOk(w) && Written(r)
    ensures WorkOk(Applied(w, r))
  {
    if !IsStale(w.guard, r.key.value, r.timestamp) {
      var out := w.out + [r];
      forall i | 0 <= i < |w.out| && w.out[i].key == r.key
        ensures w.out[i].timestamp <= r.timestamp
      {
        BelowLast(w.out, i, r.key.value);
        GuardIsLast(w.out, r.key.value);
      }
      GuardIsLast(w.out, r.key.value);
      assert out[..|w.out|] == w.out;
    }
  }

  lemma {:induction false} BelowLast(topic: seq<Record>, i: int, key: string)
    requires Ascending(topic) && 0 <= i < |topic| && topic[i].key == Some(key)
    ensures LastOf(topic, key).Some? && topic[i].timestamp <= LastOf(topic, key).value.timestamp
  {
    var n := |topic| - 1;
    if topic[n].key != Some(key) {
      BelowLast(topic[..n], i, key);
    }
  }

  lemma {:induction false} RangeKeepsOk(w: Work, log: CleanLog, from: nat, to: nat)
    requires from <= to <= |log| && WorkOk(w)
    ensures WorkOk(HandledRange(w, log, from, to))
  {
    if from < to {
      RangeKeepsOk(w, log, from, to - 1);
      if UpdateAt(log, to - 1).Some? {
        AppliedKeepsOk(HandledRange(w, log, from, to - 1), UpdateAt(log, to - 1).value);
      }
    }
  }

  // ---- Stamps ---------------------------------------------------------------

  /** The client takes a timestamp of zero for none and stamps the record with the time of day. */
  function StampedRecord(r: Record, now: int): Record {
    if r.timestamp == 0 then r.(timestamp := now) else r
  }

  function Stamped(topic: seq<Record>, stamps: seq<int>): (stamped: seq<Record>)
    requires |stamps| == |topic|
    ensures |stamped| == |topic| && forall i :: 0 <= i < |topic| ==> stamped[i] == StampedRecord(topic[i], stamps[i])
  {
    if topic == [] then []
    else
      var n := |topic| - 1;
      Stamped(topic[..n], stamps[..n]) + [StampedRecord(topic[n], stamps[n])]
  }

  /** A deletion dated exactly at the epoch: its only time is the stamp, and that is not its own. */
  predicate EpochTombstone(r: Record) {
    r.value.Tombstone? && r.timestamp == 0
  }

  ghost predicate NoEpochTombstone(topic: seq<Record>) {
    forall r :: r in topic ==> !EpochTombstone(r)
  }

  /** Otherwise stamps do not show in a guard. */
  lemma {:induction false} StampsDoNotShow(topic: seq<Record>, stamps: seq<int>)
    requires |stamps| == |topic| && NoEpochTombstone(topic) && forall r :: r in topic ==> Written(r)
    ensures GuardOf(Stamped(topic, stamps)) == GuardOf(topic)
  {
    if topic != [] {
      var n := |topic| - 1;
      StampsDoNotShow(topic[..n], stamps[..n]);
      assert Stamped(topic, stamps)[..n] == Stamped(topic[..n], stamps[..n]);
      assert topic[n] in topic;
    }
  }

  /** A guard is at least as late as every record it was read from. */
  lemma {:induction false} GuardAtLeast(topic: seq<Record>, i: nat, key: string)
    requires i < |topic| && topic[i].key == Some(key)
    ensures TimeApplied(GuardOf(topic), key) >= TimeOfRecord(topic[i])
  {
    if i < |topic| - 1 {
      GuardAtLeast(topic[..|topic| - 1], i, key);
    }
  }

  lemma {:induction false} CompactNothing(topic: seq<Record>, keep: seq<bool>)
    requires |keep| == |topic| && forall i :: 0 <= i < |keep| ==> keep[i]
    ensures Compact(topic, keep) == topic
  {
    if topic != [] {
      CompactNothing(topic[..|topic| - 1], keep[..|topic| - 1]);
    }
  }

  // ---- The machine, one partition -------------------------------------------

  datatype Owner = Owner(guard: Guard, pos: nat)

  /** committed is the offset committed together with out, all records ever committed to the output partition. */
  datatype State = State(committed: nat, out: seq<Record>, owner: Option<Owner>)

  const INIT := State(0, [], None)

  datatype Step =
    | Take(keep: seq<bool>, stamps: seq<int>)
    | Batch(n: nat)
    | Lose

  ghost predicate Next(log: CleanLog, s: State, step: Step, s': State) {
    match step
    case Take(keep, stamps) =>
      // The guard is rebuilt from whatever compaction has left of the output partition, as stamped.
      && s.owner.None? && KeepsNewest(s.out, keep)
      && |stamps| == |Compact(s.out, keep)| && (forall i :: 0 <= i < |stamps| ==> stamps[i] > 0)
      && s' == s.(owner := Some(Owner(GuardOf(Stamped(Compact(s.out, keep), stamps)), s.committed)))
    case Batch(n) =>
      // One transaction: the output of n records and the offset after them commit together.
      && s.owner.Some? && s.owner.value.pos + n <= |log|
      && var pos := s.owner.value.pos;
      var w := HandledRange(Work(s.owner.value.guard, s.out), log, pos, pos + n);
      && s' == State(pos + n, w.out, Some(Owner(w.guard, pos + n)))
    case Lose =>
      s.owner.Some? && s' == s.(owner := None)
  }

  ghost predicate CanFollow(log: CleanLog, s: State, s': State) {
    exists step :: Next(log, s, step, s')
  }

  ghost predicate IsRun(log: CleanLog, trace: seq<State>) {
    && |trace| > 0 && trace[0] == INIT
    && forall i :: 0 <= i < |trace| - 1 ==> CanFollow(log, trace[i], trace[i + 1])
  }

  /** What one uninterrupted process makes of the first n records. */
  function Straight(log: CleanLog, n: nat): Work
    requires n <= |log|
  {
    HandledRange(NO_WORK, log, 0, n)
  }

  ghost predicate Inv(log: CleanLog, s: State) {
    && s.committed <= |log|
    && s.out == Straight(log, s.committed).out
    && (s.owner.Some? ==> s.owner.value == Owner(Straight(log, s.committed).guard, s.committed))
  }

  lemma TakeKeepsInv(log: CleanLog, s: State, keep: seq<bool>, stamps: seq<int>, s': State)
    requires Inv(log, s) && NoEpochTombstone(s.out) && Next(log, s, Take(keep, stamps), s')
    ensures Inv(log, s')
  {
    RangeKeepsOk(NO_WORK, log, 0, s.committed);
    GuardSurvivesCompaction(s.out, keep);
    CompactionIsPart(s.out, keep);
    StampsDoNotShow(Compact(s.out, keep), stamps);
  }

  lemma NextKeepsInv(log: CleanLog, s: State, s': State)
    requires Inv(log, s) && NoEpochTombstone(s.out) && CanFollow(log, s, s')
    ensures Inv(log, s')
  {
    var step :| Next(log, s, step, s');
    match step
    case Take(keep, stamps) => TakeKeepsInv(log, s, keep, stamps, s');
    case Batch(n) => HandledInTwo(NO_WORK, log, 0, s.committed, s.committed + n);
    case Lose =>
  }

  lemma {:induction false} StraightAppends(log: CleanLog, n: nat)
    requires n <= |log|
    ensures Straight(log, n).out <= Straight(log, |log|).out
    decreases |log| - n
  {
    if n < |log| {
      StraightAppends(log, n + 1);
    }
  }

  /** Record o updates the page with this key at a time after the epoch. */
  predicate DatedUpdate(log: CleanLog, o: nat, key: Option<string>)
    requires o < |log|
  {
    UpdateAt(log, o).Some? && UpdateAt(log, o).value.key == key && UpdateAt(log, o).value.timestamp > 0
  }

  /** Record o is a deletion dated exactly at the epoch, and no earlier update of its page is dated after it. */
  ghost predicate EpochDeletion(log: CleanLog, o: nat)
    requires o < |log|
  {
    && UpdateAt(log, o).Some? && EpochTombstone(UpdateAt(log, o).value)
    && forall i :: 0 <= i < o ==> !DatedUpdate(log, i, UpdateAt(log, o).value.key)
  }

  /** The guard of a page is after the epoch exactly when some update of it was. */
  lemma {:induction false} GuardIsDated(log: CleanLog, n: nat, key: string)
    requires n <= |log|
    ensures TimeApplied(Straight(log, n).guard, key) > 0 <==> exists i :: 0 <= i < n && DatedUpdate(log, i, Some(key))
  {
    if n > 0 {
      GuardIsDated(log, n - 1, key);
      GuardOfOneMore(log, n, key);
      if i :| 0 <= i < n && DatedUpdate(log, i, Some(key)) {
        assert i < n - 1 || DatedUpdate(log, n - 1, Some(key));
      }
    }
  }

  lemma GuardOfOneMore(log: CleanLog, n: nat, key: string)
    requires 0 < n <= |log|
    ensures TimeApplied(Straight(log, n).guard, key) > 0 <==>
            TimeApplied(Straight(log, n - 1).guard, key) > 0 || DatedUpdate(log, n - 1, Some(key))
  {
    assert Straight(log, n) == Handled(Straight(log, n - 1), log, n - 1);
  }

  /** The output holds a deletion dated at the epoch exactly when the input has one that applies. */
  lemma {:induction false} OutputIsDated(log: CleanLog, n: nat)
    requires n <= |log|
    ensures NoEpochTombstone(Straight(log, n).out) <==> forall o :: 0 <= o < n ==> !EpochDeletion(log, o)
  {
    if n > 0 {
      OutputIsDated(log, n - 1);
      OneMoreHandled(log, n);
    }
  }

  lemma OneMoreHandled(log: CleanLog, n: nat)
    requires 0 < n <= |log|
    ensures NoEpochTombstone(Straight(log, n).out) <==>
            NoEpochTombstone(Straight(log, n - 1).out) && !EpochDeletion(log, n - 1)
  {
    var update, before := UpdateAt(log, n - 1), Straight(log, n - 1);
    assert Straight(log, n) == Handled(before, log, n - 1);
    if update.Some? {
      var r := update.value;
      GuardIsDated(log, n - 1, r.key.value);
      OneMoreTombstone(before.out, r);
      if EpochTombstone(r) {
        assert r.timestamp == 0 && r.key == Some(r.key.value);
        assert IsStale(before.guard, r.key.value, 0) <==> !EpochDeletion(log, n - 1);
      }
    }
  }

  lemma OneMoreTombstone(out: seq<Record>, r: Record)
    ensures NoEpochTombstone(out + [r]) <==> NoEpochTombstone(out) && !EpochTombstone(r)
  {
    assert forall x :: x in out + [r] <==> x in out || x == r;
  }

  /** No deletion dated exactly at the epoch applies. */
  ghost predicate NoEpochDeletion(log: CleanLog) {
    forall o :: 0 <= o < |log| ==> !EpochDeletion(log, o)
  }

  /**
   Crashes and restarts do not show: in every run, however the output was compacted and
   stamped before each restart, what is committed is what one uninterrupted process
   commits for the same input, and a running process holds that process's guard.
   */
  lemma {:induction false} CrashesAreInvisible(log: CleanLog, trace: seq<State>, i: nat)
    requires IsRun(log, trace) && i < |trace| && NoEpochDeletion(log)
    ensures Inv(log, trace[i])
  {
    OutputIsDated(log, |log|);
    if i > 0 {
      CrashesAreInvisible(log, trace, i - 1);
      assert CanFollow(log, trace[i - 1], trace[i - 1 + 1]);
      StraightAppends(log, trace[i - 1].committed);
      NextKeepsInv(log, trace[i - 1], trace[i]);
    }
  }

  ghost predicate NeverShows(log: CleanLog) {
    forall trace: seq<State>, i :: IsRun(log, trace) && 0 <= i < |trace| ==> Inv(log, trace[i])
  }

  /** Stamps later than any time the guard holds. */
  function LateStamps(w: Work, key: string): seq<int> {
    seq(|w.out|, _ => Max(1, TimeApplied(w.guard, key) + 1))
  }

  /** A guard rebuilt under these stamps is not the one in memory. */
  lemma LateGuardDiffers(w: Work, k: nat)
    requires WorkOk(w) && k < |w.out| && EpochTombstone(w.out[k])
    ensures GuardOf(Stamped(w.out, LateStamps(w, w.out[k].key.value))) != w.guard
  {
    var key := w.out[k].key.value;
    GuardAtLeast(Stamped(w.out, LateStamps(w, key)), k, key);
  }

  /** Commit everything and die. */
  ghost function Finished(log: CleanLog): State {
    State(|log|, Straight(log, |log|).out, None)
  }

  lemma FinishedIsReached(log: CleanLog) returns (trace: seq<State>)
    ensures IsRun(log, trace) && |trace| == 4 && trace[3] == Finished(log)
  {
    var w := Straight(log, |log|);
    var s1 := State(0, [], Some(Owner(map[], 0)));
    var s2 := State(|log|, w.out, Some(Owner(w.guard, |log|)));
    assert Next(log, INIT, Take([], []), s1);
    assert Next(log, s1, Batch(|log|), s2);
    assert Next(log, s2, Lose, Finished(log));
    trace := [INIT, s1, s2, Finished(log)];
  }

  lemma RunGoesOn(log: CleanLog, trace: seq<State>, s: State)
    requires IsRun(log, trace) && CanFollow(log, trace[|trace| - 1], s)
    ensures IsRun(log, trace + [s])
  {
    var longer := trace + [s];
    forall i | 0 <= i < |longer| - 1
      ensures CanFollow(log, longer[i], longer[i + 1])
    {
      if i < |trace| - 1 {
        assert CanFollow(log, trace[i], trace[i + 1]);
      }
    }
  }

  /** Commit everything, die, and rebuild the guard from the output as stamped. */
  lemma RebuildAsStamped(log: CleanLog, stamps: seq<int>) returns (trace: seq<State>)
    requires |stamps| == |Straight(log, |log|).out| && forall i :: 0 <= i < |stamps| ==> stamps[i] > 0
    ensures IsRun(log, trace) && |trace| == 5
    ensures trace[4] == Finished(log).(owner := Some(Owner(GuardOf(Stamped(Finished(log).out, stamps)), |log|)))
  {
    trace := FinishedIsReached(log);
    var last := TakeAll(log, Finished(log), stamps);
    RunGoesOn(log, trace, last);
    trace := trace + [last];
  }

  lemma EpochTombstoneShows(log: CleanLog, k: nat)
    requires k < |Straight(log, |log|).out| && EpochTombstone(Straight(log, |log|).out[k])
    ensures !NeverShows(log)
  {
    var w := Straight(log, |log|);
    RangeKeepsOk(NO_WORK, log, 0, |log|);
    LateGuardDiffers(w, k);
    var trace := RebuildAsStamped(log, LateStamps(w, w.out[k].key.value));
    assert !Inv(log, trace[4]);
  }

  lemma TakeAll(log: CleanLog, s: State, stamps: seq<int>) returns (s': State)
    requires s.owner.None? && |stamps| == |s.out| && forall i :: 0 <= i < |stamps| ==> stamps[i] > 0
    ensures CanFollow(log, s, s') && s' == s.(owner := Some(Owner(GuardOf(Stamped(s.out, stamps)), s.committed)))
  {
    var keep := seq(|s.out|, _ => true);
    CompactNothing(s.out, keep);
    s' := s.(owner := Some(Owner(GuardOf(Stamped(s.out, stamps)), s.committed)));
    assert Next(log, s, Take(keep, stamps), s');
  }

  /**
   Crashes never show, in any run, if and only if the input has no deletion dated exactly
   at the epoch whose page has no earlier update dated after the epoch.
   */
  lemma CrashesAreInvisibleIff(log: CleanLog)
    ensures NeverShows(log) <==> NoEpochDeletion(log)
  {
    var out := Straight(log, |log|).out;
    OutputIsDated(log, |log|);
    if NoEpochDeletion(log) {
      forall trace: seq<State>, i | IsRun(log, trace) && 0 <= i < |trace|
        ensures Inv(log, trace[i])
      {
        CrashesAreInvisible(log, trace, i);
      }
    } else {
      var r :| r in out && EpochTombstone(r);
      var k :| 0 <= k < |out| && out[k] == r;
      EpochTombstoneShows(log, k);
    }
  }
}

