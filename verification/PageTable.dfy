/** What a reader of wiki.page-latest ends up with (PageStore in web/pages.py). */
module PageTable {
  import opened Common
  import opened Events
  import opened PageState
  import opened Sorting

  // Folding the output of the page state processor gives, for every arrival order, the same
  // table as applying the updates stably sorted by event time.

  type Table = map<string, PageLatest>

  function ApplyRecord(t: Table, r: Record): Table {
    if r.key.None? then t
    else
      match r.value
      case Tombstone => t - {r.key.value}
      case Unreadable => t
      case Page(page) => t[r.key.value := page]
  }

  /** The table after reading a topic from its beginning. */
  function TableOf(topic: seq<Record>): Table {
    if topic == [] then map[] else ApplyRecord(TableOf(topic[..|topic| - 1]), topic[|topic| - 1])
  }

  ghost predicate Shows(t: Table, key: string, last: Option<Record>) {
    if last.Some? && last.value.value.Page? then key in t && t[key] == last.value.value.page else key !in t
  }

  ghost predicate AllWritten(topic: seq<Record>) {
    forall r :: r in topic ==> Written(r)
  }

  /** A record without a key, or one that cannot be read, leaves the table as it was. */
  lemma OddRecordsChangeNothing(t: Table, r: Record)
    ensures r.key.None? || r.value.Unreadable? ==> ApplyRecord(t, r) == t
    ensures r.key.Some? ==> ApplyRecord(t, r) - {r.key.value} == t - {r.key.value}
  {
  }

  /** A page shows its newest record. */
  lemma {:induction false} TableIsLast(topic: seq<Record>, key: string)
    requires AllWritten(topic)
    ensures Shows(TableOf(topic), key, LastOf(topic, key))
  {
    if topic != [] {
      TableIsLast(topic[..|topic| - 1], key);
    }
  }

  // ---- The reader does not notice compaction --------------------------------

  /** Compaction may also drop an aged tombstone, once everything older of its key is gone. */
  ghost predicate MayDrop(topic: seq<Record>, keep: seq<bool>, i: int)
    requires |keep| == |topic| && 0 <= i < |topic|
  {
    || HasLater(topic, i, topic[i].key)
    || (topic[i].value.Tombstone? && forall j :: 0 <= j < i && topic[j].key == topic[i].key ==> !keep[j])
  }

  ghost predicate CleanedUp(topic: seq<Record>, keep: seq<bool>) {
    |keep| == |topic| && forall i :: 0 <= i < |topic| && !keep[i] ==> MayDrop(topic, keep, i)
  }

  lemma {:induction false} NothingLeftOf(topic: seq<Record>, keep: seq<bool>, key: string)
    requires |keep| == |topic| && forall j :: 0 <= j < |topic| && topic[j].key == Some(key) ==> !keep[j]
    ensures LastOf(Compact(topic, keep), key).None?
  {
    if topic != [] {
      var n := |topic| - 1;
      NothingLeftOf(topic[..n], keep[..n], key);
      LastOfAppend(Compact(topic[..n], keep[..n]), topic[n], key);
      assert Compact(topic[..n], keep[..n]) + [] == Compact(topic[..n], keep[..n]);
    }
  }

  /** Either the newest record of the key is kept, or it was a tombstone and nothing of the key is left. */
  lemma CleanUpKeepsLast(topic: seq<Record>, keep: seq<bool>, key: string)
    requires CleanedUp(topic, keep)
    ensures var after := LastOf(Compact(topic, keep), key);
            || after == LastOf(topic, key)
            || (after.None? && LastOf(topic, key).Some? && LastOf(topic, key).value.value.Tombstone?)
  {
    if KeepsNewestOf(topic, keep, Some(key)) {
      CompactionKeepsLast(topic, keep, key);
    } else {
      var i :| 0 <= i < |topic| && topic[i].key == Some(key) && !keep[i] && !HasLater(topic, i, Some(key));
      assert MayDrop(topic, keep, i);
      NothingLeftOf(topic, keep, key);
      LastIsAt(topic, i, key);
    }
  }

  lemma {:induction false} LastIsAt(topic: seq<Record>, i: int, key: string)
    requires 0 <= i < |topic| && topic[i].key == Some(key) && !HasLater(topic, i, Some(key))
    ensures LastOf(topic, key) == Some(topic[i])
  {
    var n := |topic| - 1;
    if i < n {
      assert !(i < n && topic[n].key == Some(key));
      assert HasLater(topic[..n], i, Some(key)) ==> HasLater(topic, i, Some(key));
      LastIsAt(topic[..n], i, key);
    }
  }

  /** Reading what compaction left gives the table of the whole topic. */
  lemma CompactionKeepsTable(topic: seq<Record>, keep: seq<bool>)
    requires AllWritten(topic) && CleanedUp(topic, keep)
    ensures TableOf(Compact(topic, keep)) == TableOf(topic)
  {
    CompactionIsPart(topic, keep);
    forall key
      ensures Shows(TableOf(Compact(topic, keep)), key, LastOf(topic, key))
      ensures Shows(TableOf(topic), key, LastOf(topic, key))
    {
      TableIsLast(topic, key);
      TableIsLast(Compact(topic, keep), key);
      CleanUpKeepsLast(topic, keep, key);
    }
    SameTable(TableOf(Compact(topic, keep)), TableOf(topic), topic);
  }

  lemma SameTable(a: Table, b: Table, topic: seq<Record>)
    requires forall key :: Shows(a, key, LastOf(topic, key)) && Shows(b, key, LastOf(topic, key))
    ensures a == b
  {
    forall key | key in a
      ensures key in b && a[key] == b[key]
    {
      assert Shows(a, key, LastOf(topic, key));
    }
    forall key | key in b
      ensures key in a
    {
      assert Shows(b, key, LastOf(topic, key));
    }
  }

  // ---- Updates sorted by event time -----------------------------------------

  predicate NotNewer(r: Record, q: Record) {
    r.timestamp <= q.timestamp
  }

  ghost predicate Sorted(us: seq<Record>) {
    SortedBy(NotNewer, us)
  }

  function SortByTime(us: seq<Record>): seq<Record> {
    SortBy(NotNewer, us)
  }

  /** The updates of one time, in order. */
  function AtTime(us: seq<Record>, t: int): seq<Record> {
    if us == [] then []
    else AtTime(us[..|us| - 1], t) + (if us[|us| - 1].timestamp == t then [us[|us| - 1]] else [])
  }

  lemma AtTimeAppend(us: seq<Record>, r: Record, t: int)
    ensures AtTime(us + [r], t) == AtTime(us, t) + (if r.timestamp == t then [r] else [])
  {
    assert (us + [r])[..|us|] == us;
  }

  lemma {:induction false} InsertIsStable(us: seq<Record>, r: Record, t: int)
    requires Sorted(us)
    ensures AtTime(InsertBy(NotNewer, us, r), t) == AtTime(us + [r], t)
  {
    if us != [] && us[|us| - 1].timestamp > r.timestamp {
      var n := |us| - 1;
      InsertIsStable(us[..n], r, t);
      AtTimeAppend(us, r, t);
      AtTimeAppend(us[..n], r, t);
      AtTimeAppend(InsertBy(NotNewer, us[..n], r), us[n], t);
      if us[n].timestamp != t {
        assert AtTime(us, t) == AtTime(us[..n], t);
      }
    }
  }

  /** SortByTime sorts and permutes. */
  lemma SortSortsByTime(us: seq<Record>)
    ensures Sorted(SortByTime(us)) && multiset(SortByTime(us)) == multiset(us)
  {
    assert TotalPreorder(NotNewer);
    SortSorts(NotNewer, us);
  }

  /** And it is stable: updates of equal time keep their arrival order. */
  lemma {:induction false} SortIsStable(us: seq<Record>, t: int)
    ensures AtTime(SortByTime(us), t) == AtTime(us, t)
  {
    if us != [] {
      var n := |us| - 1;
      SortSortsByTime(us[..n]);
      SortIsStable(us[..n], t);
      InsertIsStable(SortByTime(us[..n]), us[n], t);
      AtTimeAppend(SortByTime(us[..n]), us[n], t);
    }
  }

  // ---- The table refines the sort -------------------------------------------

  /** The update of a page with the greatest event time, the later arrival on a tie. */
  function Newest(us: seq<Record>, key: string): (r: Option<Record>)
    ensures r.Some? ==> r.value in us && r.value.key == Some(key)
  {
    if us == [] then None
    else
      var n := |us| - 1;
      var before := Newest(us[..n], key);
      if us[n].key == Some(key) && (before.None? || before.value.timestamp <= us[n].timestamp)
      then Some(us[n]) else before
  }

  lemma {:induction false} LastOfInsert(us: seq<Record>, r: Record, key: string)
    requires Sorted(us)
    ensures var last := LastOf(us, key);
            LastOf(InsertBy(NotNewer, us, r), key) ==
            if r.key == Some(key) && (last.None? || last.value.timestamp <= r.timestamp) then Some(r) else last
  {
    if us == [] || us[|us| - 1].timestamp <= r.timestamp {
      LastOfAppend(us, r, key);
    } else {
      var n := |us| - 1;
      LastOfAppend(InsertBy(NotNewer, us[..n], r), us[n], key);
      LastOfInsert(us[..n], r, key);
    }
  }

  /** The last update of a page in the sorted order is its newest. */
  lemma {:induction false} LastSortedIsNewest(us: seq<Record>, key: string)
    ensures LastOf(SortByTime(us), key) == Newest(us, key)
  {
    if us != [] {
      var n := |us| - 1;
      LastSortedIsNewest(us[..n], key);
      SortSortsByTime(us[..n]);
      LastOfInsert(SortByTime(us[..n]), us[n], key);
    }
  }

  /** What the processor makes of a sequence of updates. */
  function AppliedAll(us: seq<Record>): Work
    requires AllWritten(us)
  {
    if us == [] then NO_WORK else Applied(AppliedAll(us[..|us| - 1]), us[|us| - 1])
  }

  lemma {:induction false} AppliedAllOk(us: seq<Record>)
    requires AllWritten(us)
    ensures WorkOk(AppliedAll(us))
  {
    if us != [] {
      AppliedAllOk(us[..|us| - 1]);
      AppliedKeepsOk(AppliedAll(us[..|us| - 1]), us[|us| - 1]);
    }
  }

  /** Its last record for a page is the newest update, unless that is dated before -1 and so was dropped. */
  lemma {:induction false} LastOutIsNewest(us: seq<Record>, key: string)
    requires AllWritten(us)
    ensures LastOf(AppliedAll(us).out, key) ==
            if Newest(us, key).Some? && Newest(us, key).value.timestamp >= -1 then Newest(us, key) else None
  {
    if us != [] {
      var n := |us| - 1;
      var w := AppliedAll(us[..n]);
      LastOutIsNewest(us[..n], key);
      AppliedAllOk(us[..n]);
      GuardIsLast(w.out, key);
      LastOfAppend(w.out, us[n], key);
    }
  }

  /** No page's newest update is an edit dated before -1, that is before 23:59:59.999 on 31 December 1969. */
  ghost predicate NewestEditsAreDated(us: seq<Record>) {
    forall key :: Newest(us, key).Some? && Newest(us, key).value.value.Page? ==> Newest(us, key).value.timestamp >= -1
  }

  /**
   For every arrival order, the table folded from the output is the result of applying
   the updates stably sorted by event time, exactly when the newest edits are dated.
   */
  lemma TableIsSortedIff(us: seq<Record>)
    requires AllWritten(us)
    ensures TableOf(AppliedAll(us).out) == TableOf(SortByTime(us)) <==> NewestEditsAreDated(us)
  {
    AppliedAllOk(us);
    SortSortsByTime(us);
    var out, sorted := AppliedAll(us).out, SortByTime(us);
    assert AllWritten(sorted) by {
      forall r | r in sorted
        ensures Written(r)
      {
        assert r in multiset(sorted);
      }
    }
    forall key
      ensures Shows(TableOf(sorted), key, Newest(us, key))
      ensures Shows(TableOf(out), key, LastOf(out, key))
      ensures LastOf(out, key) ==
              if Newest(us, key).Some? && Newest(us, key).value.timestamp >= -1 then Newest(us, key) else None
    {
      TableIsLast(sorted, key);
      TableIsLast(out, key);
      LastSortedIsNewest(us, key);
      LastOutIsNewest(us, key);
    }
    if NewestEditsAreDated(us) {
      forall key
        ensures Shows(TableOf(out), key, LastOf(sorted, key)) && Shows(TableOf(sorted), key, LastOf(sorted, key))
      {
        LastSortedIsNewest(us, key);
      }
      SameTable(TableOf(out), TableOf(sorted), sorted);
    }
  }

  /** An edit dated before -1 never shows, although it is the page's only update. */
  lemma EarlyEditIsDropped(page: PageLatest)
    requires page.timeMs < -1
    ensures var r := Record(Some("w:t"), Page(page), page.timeMs);
            AppliedAll([r]).out == [] && "w:t" in TableOf(SortByTime([r]))
  {
    var key, r := "w:t", Record(Some("w:t"), Page(page), page.timeMs);
    assert [r][..0] == [] && Newest([], key).None?;
    LastOutIsNewest([r], key);
    LastSortedIsNewest([r], key);
    SortSortsByTime([r]);
    assert forall x :: x in SortByTime([r]) ==> x in multiset([r]) && Written(x);
    TableIsLast(SortByTime([r]), key);
  }

  // ---- Over whole runs ------------------------------------------------------

  /** The updates in the first n records of the input, in arrival order. */
  function UpdatesOf(log: CleanLog, n: nat): (us: seq<Record>)
    requires n <= |log|
    ensures AllWritten(us)
  {
    if n == 0 then []
    else UpdatesOf(log, n - 1) + (if UpdateAt(log, n - 1).Some? then [UpdateAt(log, n - 1).value] else [])
  }

  lemma {:induction false} StraightApplies(log: CleanLog, n: nat)
    requires n <= |log|
    ensures Straight(log, n) == AppliedAll(UpdatesOf(log, n))
  {
    if n > 0 {
      StraightApplies(log, n - 1);
      var us := UpdatesOf(log, n - 1);
      if UpdateAt(log, n - 1).Some? {
        assert (us + [UpdateAt(log, n - 1).value])[..|us|] == us;
      } else {
        assert UpdatesOf(log, n) == us;
      }
    }
  }

  /**
   In every run, a reader of the output, however compacted, sees each page as its
   committed updates sorted by event time leave it.
   */
  lemma ReaderSeesSortedUpdates(log: CleanLog, trace: seq<State>, i: nat, keep: seq<bool>)
    requires IsRun(log, trace) && i < |trace| && CleanedUp(trace[i].out, keep) && NoEpochDeletion(log)
    requires trace[i].committed <= |log| ==> NewestEditsAreDated(UpdatesOf(log, trace[i].committed))
    ensures trace[i].committed <= |log|
    ensures TableOf(Compact(trace[i].out, keep)) == TableOf(SortByTime(UpdatesOf(log, trace[i].committed)))
  {
    CrashesAreInvisible(log, trace, i);
    var us := UpdatesOf(log, trace[i].committed);
    StraightApplies(log, trace[i].committed);
    AppliedAllOk(us);
    CompactionKeepsTable(trace[i].out, keep);
    TableIsSortedIff(us);
  }

  // ---- In terms of the events -----------------------------------------------

  /** Record o is an edit, a new page, or a deletion of the page with this key. */
  predicate Changes(log: CleanLog, o: nat, wiki: string, title: string)
    requires o < |log|
  {
    && log[o].Some? && log[o].value.wiki + ":" + log[o].value.title == wiki + ":" + title
    && (log[o].value.kind == "edit" || log[o].value.kind == "new" || Deletes(log[o].value))
  }

  predicate Deletes(e: CleanEvent) {
    e.kind == "log" && e.logType == Some("delete") && e.logAction == Some("delete")
  }

  /**
   Of the first n records, o is the page's newest change: none is dated later, and none of
   the same time arrived later.
   */
  ghost predicate IsNewestChange(log: CleanLog, n: nat, wiki: string, title: string, o: nat)
    requires n <= |log|
  {
    && o < n && Changes(log, o, wiki, title)
    && forall i :: 0 <= i < n && Changes(log, i, wiki, title) ==>
         log[i].value.timeMs < log[o].value.timeMs || (log[i].value.timeMs == log[o].value.timeMs && i <= o)
  }

  ghost predicate Describes(page: PageLatest, e: CleanEvent) {
    && page.wiki == e.wiki && page.title == e.title && page.eventId == e.eventId && page.kind == e.kind
    && page.user == e.user
    && page.bot == e.bot && page.isRevert == e.isRevert && page.timeMs == e.timeMs && page.details == e.details
  }

  /** What the newest update of a page is made from. */
  ghost predicate MadeFrom(r: Record, e: CleanEvent) {
    && r.timestamp == e.timeMs && (r.value.Tombstone? <==> Deletes(e))
    && (r.value.Page? ==> Describes(r.value.page, e)) && !r.value.Unreadable?
  }

  /** The newest update of a page is made from its newest change. */
  lemma {:induction false} NewestIsChange(log: CleanLog, n: nat, wiki: string, title: string) returns (o: nat)
    requires n <= |log|
    ensures match Newest(UpdatesOf(log, n), wiki + ":" + title)
            case None => forall i :: 0 <= i < n ==> !Changes(log, i, wiki, title)
            case Some(r) => IsNewestChange(log, n, wiki, title, o) && MadeFrom(r, log[o].value)
  {
    o := 0;
    if n > 0 {
      o := NewestIsChange(log, n - 1, wiki, title);
      NewestOfOneMore(log, n, wiki, title);
      var before := Newest(UpdatesOf(log, n - 1), wiki + ":" + title);
      if Changes(log, n - 1, wiki, title) && (before.None? || before.value.timestamp <= log[n - 1].value.timeMs) {
        o := n - 1;
      }
    }
  }

  /** One more record replaces the newest update exactly when it changes the page and is not older. */
  lemma NewestOfOneMore(log: CleanLog, n: nat, wiki: string, title: string)
    requires 0 < n <= |log|
    ensures var before := Newest(UpdatesOf(log, n - 1), wiki + ":" + title);
            var r := Newest(UpdatesOf(log, n), wiki + ":" + title);
            if Changes(log, n - 1, wiki, title) && (before.None? || before.value.timestamp <= log[n - 1].value.timeMs)
            then r.Some? && MadeFrom(r.value, log[n - 1].value)
            else r == before
  {
    var us, update := UpdatesOf(log, n - 1), UpdateAt(log, n - 1);
    if update.Some? {
      assert (us + [update.value])[..|us|] == us;
    } else {
      assert UpdatesOf(log, n) == us;
    }
  }

  lemma NewestIsOne(log: CleanLog, n: nat, wiki: string, title: string, o: nat, i: nat)
    requires n <= |log| && IsNewestChange(log, n, wiki, title, o) && IsNewestChange(log, n, wiki, title, i)
    ensures o == i
  {
  }

  /**
   After any part of the input, a page is in the table if its newest change by event
   time, ties to the later arrival, is not a deletion and not dated before -1, and then
   it shows what that event says; otherwise it is not in the table.
   */
  lemma TableShowsNewestChange(log: CleanLog, n: nat, wiki: string, title: string)
    requires n <= |log|
    ensures var table, key := TableOf(Straight(log, n).out), wiki + ":" + title;
            && ((forall i :: 0 <= i < n ==> !Changes(log, i, wiki, title)) ==> key !in table)
            && forall o: nat :: IsNewestChange(log, n, wiki, title, o) ==>
                 if Deletes(log[o].value) || log[o].value.timeMs < -1 then key !in table
                 else key in table && Describes(table[key], log[o].value)
  {
    var us, key := UpdatesOf(log, n), wiki + ":" + title;
    StraightApplies(log, n);
    AppliedAllOk(us);
    TableIsLast(AppliedAll(us).out, key);
    LastOutIsNewest(us, key);
    var newest := NewestIsChange(log, n, wiki, title);
    forall o: nat | IsNewestChange(log, n, wiki, title, o)
      ensures Newest(us, key).Some? && o == newest
    {
      assert Changes(log, o, wiki, title);
      NewestIsOne(log, n, wiki, title, o, newest);
    }
  }
}

