/** Trending counts over whole runs (processors/trending.py over windows.py, stored by sinks/db.py). */
module Trending {
  import opened Common
  import opened Windows

  // ---- The log and what one uninterrupted read of it would count -----------

  /** One offset of wiki.clean. Offsets that never reach the window state are Unreadable. */
  datatype Entry = Edit(wiki: string, title: string, time: int) | Unreadable

  /** The log of a partition; indices are the offsets. */
  type Log = seq<Entry>

  function KeyOf(e: Entry): WindowKey
    requires e.Edit?
  {
    WindowKey(e.wiki, e.title, MinuteStart(e.time))
  }

  /** Largest event time in log[start..pos], and at least 0. */
  function Watermark(log: Log, start: nat, pos: nat): int
    requires start <= pos <= |log|
  {
    if pos == start then 0
    else
      var before := Watermark(log, start, pos - 1);
      if log[pos - 1].Edit? then Max(before, log[pos - 1].time) else before
  }

  /** The edit at offset o is within the lateness allowance of a reader that started at start. */
  predicate OnTime(cfg: Config, log: Log, start: nat, o: nat)
    requires start <= o < |log|
  {
    log[o].Edit? && KeyOf(log[o]).minute >= CutoffAt(cfg, Watermark(log, start, o + 1))
  }

  /** Edits of one page minute in log[lo..hi]. */
  function CountIn(log: Log, key: WindowKey, lo: nat, hi: nat): nat
    requires lo <= hi <= |log|
  {
    if lo == hi then 0
    else CountIn(log, key, lo, hi - 1) + (if log[hi - 1].Edit? && KeyOf(log[hi - 1]) == key then 1 else 0)
  }

  /** Edits of one page minute in log[lo..hi] that a reader starting at start finds on time. */
  function OnTimeIn(cfg: Config, log: Log, key: WindowKey, start: nat, lo: nat, hi: nat): nat
    requires start <= lo <= hi <= |log|
  {
    if lo == hi then 0
    else
      OnTimeIn(cfg, log, key, start, lo, hi - 1) +
      (if OnTime(cfg, log, start, hi - 1) && KeyOf(log[hi - 1]) == key then 1 else 0)
  }

  lemma {:induction false} WatermarkLaterStart(log: Log, early: nat, late: nat, pos: nat)
    requires early <= late <= pos <= |log|
    ensures Watermark(log, late, pos) <= Watermark(log, early, pos)
    ensures Watermark(log, early, pos) >= 0
  {
    if pos > late {
      WatermarkLaterStart(log, early, late, pos - 1);
    } else if pos > early {
      WatermarkLaterStart(log, early, late - 1, pos - 1);
    }
  }

  lemma {:induction false} WatermarkGrows(log: Log, start: nat, p: nat, q: nat)
    requires start <= p <= q <= |log|
    ensures Watermark(log, start, p) <= Watermark(log, start, q)
  {
    if p < q {
      WatermarkGrows(log, start, p, q - 1);
    }
  }

  /** What the uninterrupted reader finds on time, a reader that started later finds on time too. */
  lemma OnTimeForLaterReader(cfg: Config, log: Log, start: nat, o: nat)
    requires start <= o < |log| && OnTime(cfg, log, 0, o)
    ensures OnTime(cfg, log, start, o)
  {
    WatermarkLaterStart(log, 0, start, o + 1);
    MinuteStartMonotone(Watermark(log, start, o + 1) - cfg.latenessMs, Watermark(log, 0, o + 1) - cfg.latenessMs);
  }

  lemma {:induction false} OnTimeInSplits(cfg: Config, log: Log, key: WindowKey, start: nat, lo: nat, mid: nat, hi: nat)
    requires start <= lo <= mid <= hi <= |log|
    ensures OnTimeIn(cfg, log, key, start, lo, hi) ==
            OnTimeIn(cfg, log, key, start, lo, mid) + OnTimeIn(cfg, log, key, start, mid, hi)
  {
    if mid < hi {
      OnTimeInSplits(cfg, log, key, start, lo, mid, hi - 1);
    }
  }

  lemma {:induction false} OnTimeAtMostAll(cfg: Config, log: Log, key: WindowKey, start: nat, lo: nat, hi: nat)
    requires start <= lo <= hi <= |log|
    ensures OnTimeIn(cfg, log, key, start, lo, hi) <= CountIn(log, key, lo, hi)
  {
    if lo < hi {
      OnTimeAtMostAll(cfg, log, key, start, lo, hi - 1);
    }
  }

  /** CountIn is how many edits of the page fall in the minute. */
  lemma {:induction false} CountInCounts(log: Log, key: WindowKey, lo: nat, hi: nat)
    requires lo <= hi <= |log|
    ensures CountIn(log, key, lo, hi) == |EditsIn(log, key, lo, hi)|
  {
    if lo < hi {
      CountInCounts(log, key, lo, hi - 1);
      assert EditsIn(log, key, lo, hi) ==
             EditsIn(log, key, lo, hi - 1) + if IsEditOf(log, key, hi - 1) then {hi - 1} else {};
    } else {
      assert EditsIn(log, key, lo, hi) == {};
    }
  }

  predicate IsEditOf(log: Log, key: WindowKey, o: nat)
    requires o < |log|
  {
    && log[o].Edit? && log[o].wiki == key.wiki && log[o].title == key.title
    && log[o].time - log[o].time % 60_000 == key.minute
  }

  ghost function EditsIn(log: Log, key: WindowKey, lo: nat, hi: nat): set<nat>
    requires lo <= hi <= |log|
  {
    set o: nat | lo <= o < hi && IsEditOf(log, key, o)
  }

  /** OnTimeIn is how many of them are on time. */
  lemma {:induction false} OnTimeInCounts(cfg: Config, log: Log, key: WindowKey, start: nat, lo: nat, hi: nat)
    requires start <= lo <= hi <= |log|
    ensures OnTimeIn(cfg, log, key, start, lo, hi) == |OnTimeEditsIn(cfg, log, key, start, lo, hi)|
  {
    if lo < hi {
      OnTimeInCounts(cfg, log, key, start, lo, hi - 1);
      OneMoreOnTime(cfg, log, key, start, lo, hi);
    } else {
      assert OnTimeEditsIn(cfg, log, key, start, lo, hi) == {};
    }
  }

  predicate IsOnTimeEditOf(cfg: Config, log: Log, key: WindowKey, start: nat, o: nat)
    requires start <= o < |log|
  {
    IsEditOf(log, key, o) && OnTime(cfg, log, start, o)
  }

  ghost function OnTimeEditsIn(cfg: Config, log: Log, key: WindowKey, start: nat, lo: nat, hi: nat): set<nat>
    requires start <= lo <= hi <= |log|
  {
    set o: nat | lo <= o < hi && IsOnTimeEditOf(cfg, log, key, start, o)
  }

  lemma OneMoreOnTime(cfg: Config, log: Log, key: WindowKey, start: nat, lo: nat, hi: nat)
    requires start <= lo < hi <= |log|
    ensures OnTimeEditsIn(cfg, log, key, start, lo, hi) ==
            OnTimeEditsIn(cfg, log, key, start, lo, hi - 1) +
            if IsOnTimeEditOf(cfg, log, key, start, hi - 1) then {hi - 1} else {}
  {
  }

  lemma {:induction false} CountInWider(log: Log, key: WindowKey, a: nat, lo: nat, hi: nat, b: nat)
    requires a <= lo <= hi <= b <= |log|
    ensures CountIn(log, key, lo, hi) <= CountIn(log, key, a, b)
  {
    if hi < b {
      CountInWider(log, key, a, lo, hi, b - 1);
    } else if lo < hi {
      CountInWider(log, key, a, lo, hi - 1, hi - 1);
    }
  }

  /** A positive on-time count has an on-time edit behind it. */
  lemma {:induction false} OnTimeWitness(cfg: Config, log: Log, key: WindowKey, start: nat, lo: nat, hi: nat)
    returns (o: nat)
    requires start <= lo <= hi <= |log| && OnTimeIn(cfg, log, key, start, lo, hi) > 0
    ensures lo <= o < hi && OnTime(cfg, log, start, o) && KeyOf(log[o]) == key
  {
    if OnTime(cfg, log, start, hi - 1) && KeyOf(log[hi - 1]) == key {
      o := hi - 1;
    } else {
      o := OnTimeWitness(cfg, log, key, start, lo, hi - 1);
    }
  }

  /** Once a reader's cutoff passes a minute, no later edit of that minute is on time for the uninterrupted read. */
  lemma {:induction false} NothingOnTimeAfterCutoff(
    cfg: Config, log: Log, key: WindowKey, start: nat, pos: nat, hi: nat)
    requires start <= pos <= hi <= |log|
    requires key.minute < CutoffAt(cfg, Watermark(log, start, pos))
    ensures OnTimeIn(cfg, log, key, 0, pos, hi) == 0
  {
    if pos < hi {
      NothingOnTimeAfterCutoff(cfg, log, key, start, pos, hi - 1);
      WatermarkGrows(log, start, pos, hi);
      WatermarkLaterStart(log, 0, start, hi);
      MinuteStartMonotone(Watermark(log, start, pos) - cfg.latenessMs, Watermark(log, 0, hi) - cfg.latenessMs);
    }
  }

  /** A positive watermark is the time of some edit read so far. */
  lemma {:induction false} WatermarkWitness(log: Log, start: nat, pos: nat) returns (o: nat)
    requires start <= pos <= |log| && Watermark(log, start, pos) > 0
    ensures start <= o < pos && log[o].Edit? && log[o].time == Watermark(log, start, pos)
  {
    if log[pos - 1].Edit? && log[pos - 1].time == Watermark(log, start, pos) {
      o := pos - 1;
    } else {
      o := WatermarkWitness(log, start, pos - 1);
    }
  }

  /** No edit before offset s is later in event time than the edit at s. */
  ghost predicate Peak(log: Log, s: nat) {
    s < |log| ==> Watermark(log, 0, s) == 0 || (log[s].Edit? && log[s].time >= Watermark(log, 0, s))
  }

  /** A reader that starts at a peak has the watermark of the uninterrupted reader from its first edit on. */
  lemma {:induction false} PeakAligns(log: Log, s: nat, pos: nat)
    requires s < pos <= |log| && Peak(log, s)
    ensures Watermark(log, s, pos) == Watermark(log, 0, pos)
  {
    WatermarkLaterStart(log, 0, s, s);
    if s + 1 < pos {
      PeakAligns(log, s, pos - 1);
    }
  }

  lemma {:induction false} PeakCountsAlike(cfg: Config, log: Log, key: WindowKey, s: nat, lo: nat, hi: nat)
    requires s <= lo <= hi <= |log| && Peak(log, s)
    ensures OnTimeIn(cfg, log, key, s, lo, hi) == OnTimeIn(cfg, log, key, 0, lo, hi)
  {
    if lo < hi {
      PeakCountsAlike(cfg, log, key, s, lo, hi - 1);
      PeakAligns(log, s, hi);
    }
  }

  // ---- The machine ----------------------------------------------------------

  /** One incarnation reading one partition. emitted and finals only record what it has written so far. */
  datatype Reader = Reader(start: nat, pos: nat, part: Part, emitted: map<WindowKey, nat>, finals: bool)

  /** capped records whether the cap on open windows ever forced a minute out. */
  datatype State = State(
    readers: map<nat, Reader>,
    table: map<WindowKey, nat>,
    committed: map<nat, nat>,
    capped: bool)

  const INIT := State(map[], map[], map[], false)

  /**
   A run interleaves reading, flushing, dying at any point of a flush, losing partitions and
   starting again at the committed offset.
   */
  datatype Step =
    | Assign(p: nat)
    | Read(p: nat)
    | Flush(parts: set<nat>, final: bool)
    | FlushAndDie(parts: set<nat>, final: bool, commits: set<nat>)
    | Lose(parts: set<nat>)

  function Stored(table: map<WindowKey, nat>, key: WindowKey): nat {
    if key in table then table[key] else 0
  }

  function Committed(s: State, p: nat): nat {
    if p in s.committed then s.committed[p] else 0
  }

  ghost function AfterRead(cfg: Config, log: Log, r: Reader): Reader
    requires r.pos < |log|
  {
    var e := log[r.pos];
    r.(pos := r.pos + 1,
       part := if e.Edit? then Added(cfg, r.part, r.pos, e.wiki, e.title, e.time) else r.part)
  }

  ghost predicate ForcesOut(cfg: Config, log: Log, r: Reader)
    requires r.pos < |log|
  {
    var e := log[r.pos];
    e.Edit? && |BeforeCap(cfg, r.part, r.pos, e.wiki, e.title, e.time).windows| > cfg.maxWindows
  }

  ghost function AfterPop(cfg: Config, r: Reader, final: bool): Reader {
    r.(part := Popped(cfg, r.part, final),
       emitted := r.emitted + Rows(cfg, r.part, final),
       finals := r.finals || final)
  }

  /** The rows one flush writes for the given partitions. */
  ghost function RowSet(cfg: Config, readers: map<nat, Reader>, parts: set<nat>, final: bool): set<ClosedWindow> {
    set p, k | p in parts && p in readers && k in Rows(cfg, readers[p].part, final) ::
      ClosedWindow(k, Rows(cfg, readers[p].part, final)[k])
  }

  /** The table after an upsert that keeps the greater count on conflict. */
  ghost predicate IsUpsert(table: map<WindowKey, nat>, rows: set<ClosedWindow>, table': map<WindowKey, nat>) {
    && (forall k :: k in table ==> k in table' && table[k] <= table'[k])
    && (forall row :: row in rows ==> row.key in table' && row.count <= table'[row.key])
    && (forall k :: k in table' ==> (k in table && table'[k] == table[k]) || ClosedWindow(k, table'[k]) in rows)
  }

  /** Offsets committed for parts, given the state the flush left behind. */
  ghost predicate IsCommit(s: State, readers: map<nat, Reader>, parts: set<nat>, committed': map<nat, nat>) {
    && (forall p :: p in parts && p in readers && CommitPoint(readers[p].part).Some? ==>
          p in committed' && committed'[p] == CommitPoint(readers[p].part).value)
    && (forall p :: !(p in parts && p in readers && CommitPoint(readers[p].part).Some?) ==>
          (p in committed' <==> p in s.committed) && (p in s.committed ==> committed'[p] == s.committed[p]))
  }

  ghost function PopAll(cfg: Config, readers: map<nat, Reader>, parts: set<nat>, final: bool): map<nat, Reader> {
    map p | p in readers :: if p in parts then AfterPop(cfg, readers[p], final) else readers[p]
  }

  ghost predicate Next(cfg: Config, logs: seq<Log>, s: State, step: Step, s': State) {
    match step
    case Assign(p) =>
      // An instance takes a free partition and starts at its committed offset.
      && p < |logs| && p !in s.readers
      && s' == s.(readers := s.readers[p := Reader(Committed(s, p), Committed(s, p), EMPTY_PART, map[], false)])
    case Read(p) =>
      && p in s.readers && p < |logs| && s.readers[p].pos < |logs[p]|
      && s' == s.(readers := s.readers[p := AfterRead(cfg, logs[p], s.readers[p])],
                  capped := s.capped || ForcesOut(cfg, logs[p], s.readers[p]))
    case Flush(parts, final) =>
      // Pop, write, commit.
      && parts <= s.readers.Keys
      && s'.readers == PopAll(cfg, s.readers, parts, final)
      && IsUpsert(s.table, RowSet(cfg, s.readers, parts, final), s'.table)
      && IsCommit(s, s'.readers, parts, s'.committed)
      && s'.capped == s.capped
    case FlushAndDie(parts, final, commits) =>
      // The rows are written, some of the offsets (perhaps none) are committed, then the process dies.
      && parts <= s.readers.Keys && commits <= parts
      && s'.readers == s.readers - parts
      && IsUpsert(s.table, RowSet(cfg, s.readers, parts, final), s'.table)
      && IsCommit(s, PopAll(cfg, s.readers, parts, final), commits, s'.committed)
      && s'.capped == s.capped
    case Lose(parts) =>
      // Partitions are revoked, or their process dies with nothing written.
      && parts <= s.readers.Keys
      && s' == s.(readers := s.readers - parts)
  }

  ghost predicate Run(cfg: Config, logs: seq<Log>, trace: seq<State>) {
    && |trace| > 0 && trace[0] == INIT
    && forall i :: 0 <= i < |trace| - 1 ==> CanFollow(cfg, logs, trace[i], trace[i + 1])
  }

  ghost predicate CanFollow(cfg: Config, logs: seq<Log>, s: State, s': State) {
    exists step :: Next(cfg, logs, s, step, s')
  }

  // ---- What a reader knows, with or without the cap -------------------------

  /** Where this reader's next commit would land; its start until it has something to commit. */
  ghost function Point(r: Reader): int {
    match CommitPoint(r.part)
    case Some(v) => v
    case None => r.start
  }

  ghost predicate ReaderOk(cfg: Config, log: Log, r: Reader) {
    && r.start <= r.pos <= |log|
    && r.part.watermark == Watermark(log, r.start, r.pos)
    && -1 <= r.part.lastOffset < r.pos
    && (r.part.lastOffset >= 0 ==> r.start <= r.part.lastOffset)
    && (r.part.partialFloor == -1 || r.start <= r.part.partialFloor <= r.part.lastOffset)
    && (forall k :: k in r.part.windows ==> WindowOk(cfg, log, r, k))
    && (forall k :: k in r.emitted ==> k !in r.part.windows && Rejects(cfg, r.part, k))
  }

  /** The window of k began with an edit of k and counts no more than the on-time edits read. */
  ghost predicate WindowOk(cfg: Config, log: Log, r: Reader, k: WindowKey)
    requires r.start <= r.pos <= |log| && r.part.lastOffset < r.pos && k in r.part.windows
  {
    && r.start <= r.part.windows[k].firstOffset <= r.part.lastOffset
    && log[r.part.windows[k].firstOffset].Edit? && KeyOf(log[r.part.windows[k].firstOffset]) == k
    && 1 <= r.part.windows[k].count <= OnTimeIn(cfg, log, k, r.start, r.start, r.pos)
  }

  /** Any further edit of this page minute is turned away. */
  ghost predicate Rejects(cfg: Config, p: Part, key: WindowKey) {
    key.minute < Cutoff(cfg, p) || key.minute in p.flushed
  }

  lemma CappedShrinks(maxWindows: nat, p: Part)
    ensures var r := Capped(maxWindows, p);
            && (forall k :: k in r.windows ==> k in p.windows && r.windows[k] == p.windows[k])
            && p.flushed <= r.flushed
            && r.lastOffset == p.lastOffset && r.watermark == p.watermark && r.partialFloor == p.partialFloor
            && (|p.windows| <= maxWindows ==> r == p)
  {
    var cut := CapKeepsNewestMinutes(maxWindows, p);
  }

  /** The reader after one offset, before the cap is looked at. */
  ghost function Uncapped(cfg: Config, log: Log, r: Reader): Reader
    requires r.pos < |log|
  {
    var e := log[r.pos];
    r.(pos := r.pos + 1,
       part := if e.Edit? then BeforeCap(cfg, r.part, r.pos, e.wiki, e.title, e.time) else r.part)
  }

  lemma WindowStaysOk(cfg: Config, log: Log, r: Reader, k: WindowKey)
    requires ReaderOk(cfg, log, r) && r.pos < |log| && log[r.pos].Edit? && k in Uncapped(cfg, log, r).part.windows
    ensures WindowOk(cfg, log, Uncapped(cfg, log, r), k)
  {
    var e, p := log[r.pos], Uncapped(cfg, log, r).part;
    assert k in r.part.windows ==> WindowOk(cfg, log, r, k);
    assert k != KeyOf(e) ==> k in r.part.windows && p.windows[k] == r.part.windows[k];
  }

  lemma EmittedStaysShut(cfg: Config, log: Log, r: Reader, k: WindowKey)
    requires ReaderOk(cfg, log, r) && r.pos < |log| && log[r.pos].Edit? && k in r.emitted
    ensures var p := Uncapped(cfg, log, r).part; k !in p.windows && Rejects(cfg, p, k)
  {
    MinuteStartMonotone(r.part.watermark - cfg.latenessMs, Uncapped(cfg, log, r).part.watermark - cfg.latenessMs);
    assert k !in r.part.windows && Rejects(cfg, r.part, k);
  }

  lemma UncappedKeepsReader(cfg: Config, log: Log, r: Reader)
    requires ReaderOk(cfg, log, r) && r.pos < |log|
    ensures ReaderOk(cfg, log, Uncapped(cfg, log, r))
  {
    if log[r.pos].Edit? {
      var r' := Uncapped(cfg, log, r);
      forall k | k in r.emitted
        ensures k !in r'.part.windows && Rejects(cfg, r'.part, k)
      {
        EmittedStaysShut(cfg, log, r, k);
      }
      forall k | k in r'.part.windows
        ensures WindowOk(cfg, log, r', k)
      {
        WindowStaysOk(cfg, log, r, k);
      }
    }
  }

  lemma ReadKeepsReader(cfg: Config, log: Log, r: Reader)
    requires ReaderOk(cfg, log, r) && r.pos < |log|
    ensures ReaderOk(cfg, log, AfterRead(cfg, log, r))
  {
    var u, r' := Uncapped(cfg, log, r), AfterRead(cfg, log, r);
    UncappedKeepsReader(cfg, log, r);
    CappedShrinks(cfg.maxWindows, u.part);
    assert r'.part == u.part || r'.part == Capped(cfg.maxWindows, u.part);
    assert forall k :: k in r'.emitted ==> k !in r'.part.windows && Rejects(cfg, r'.part, k);
  }

  lemma ReadMovesPoint(cfg: Config, log: Log, r: Reader)
    requires ReaderOk(cfg, log, r) && r.pos < |log|
    ensures Point(r) <= Point(AfterRead(cfg, log, r))
  {
    var u, r' := Uncapped(cfg, log, r), AfterRead(cfg, log, r);
    CappedShrinks(cfg.maxWindows, u.part);
    if log[r.pos].Edit? {
      PointBelow(r);
      forall k | k in r'.part.windows
        ensures Point(r) <= r'.part.windows[k].firstOffset
      {
        assert k in u.part.windows;
        assert k in r.part.windows || u.part.windows[k].firstOffset == r.pos;
      }
      PointAtLeast(r', Point(r));
    }
  }

  /** The commit point lies at or below everything the reader still needs. */
  lemma PointBelow(r: Reader)
    requires CommitPoint(r.part).Some? || r.start <= r.pos
    requires r.part.windows != map[] ==> CommitPoint(r.part).Some?
    ensures forall k :: k in r.part.windows ==> Point(r) <= r.part.windows[k].firstOffset
    ensures r.part.partialFloor >= 0 && CommitPoint(r.part).Some? ==> Point(r) <= r.part.partialFloor
    ensures CommitPoint(r.part).Some? && r.part.windows == map[] ==> Point(r) <= r.part.lastOffset + 1
  {
    if r.part.windows != map[] {
      FirstsNonEmpty(r.part.windows);
      assert forall k :: k in r.part.windows ==> r.part.windows[k].firstOffset in Firsts(r.part.windows);
    }
  }

  /** Anything at or below all of that is at or below the commit point. */
  lemma PointAtLeast(r: Reader, bound: int)
    requires forall k :: k in r.part.windows ==> bound <= r.part.windows[k].firstOffset
    requires r.part.partialFloor >= 0 ==> bound <= r.part.partialFloor
    requires r.part.lastOffset >= 0 ==> bound <= r.part.lastOffset + 1
    requires CommitPoint(r.part).None? ==> bound <= r.start
    ensures bound <= Point(r)
  {
    if r.part.windows != map[] {
      FirstsNonEmpty(r.part.windows);
    }
  }

  lemma PopKeepsReader(cfg: Config, log: Log, r: Reader, final: bool)
    requires ReaderOk(cfg, log, r)
    ensures ReaderOk(cfg, log, AfterPop(cfg, r, final))
    ensures Point(r) <= Point(AfterPop(cfg, r, final))
  {
    var r' := AfterPop(cfg, r, final);
    var done := Done(cfg, r.part, final);
    var opens := OpenFirsts(cfg, r.part, done);
    assert forall m :: m in opens ==> r.start <= m <= r.part.lastOffset;
    forall k | k in r'.emitted
      ensures k !in r'.part.windows && Rejects(cfg, r'.part, k)
    {
      if k in done {
        assert k.minute in PoppedKeys(cfg, r.part, final, done).flushed;
      }
    }
    PointBelow(r);
    PointAtLeast(r', Point(r));
  }

  lemma PointInRange(cfg: Config, log: Log, r: Reader)
    requires ReaderOk(cfg, log, r)
    ensures r.start <= Point(r) <= r.pos
  {
    PointBelow(r);
    PointAtLeast(r, r.start);
    if r.part.windows != map[] {
      FirstsNonEmpty(r.part.windows);
    }
  }

  // ---- Coverage, while the cap is not reached -------------------------------

  ghost predicate Complete(cfg: Config, log: Log, table: map<WindowKey, nat>, key: WindowKey) {
    Stored(table, key) >= OnTimeIn(cfg, log, key, 0, 0, |log|)
  }

  /** Every page minute with an on-time edit below c has its full on-time total stored. */
  ghost predicate SafeBelow(cfg: Config, log: Log, table: map<WindowKey, nat>, c: int) {
    forall o :: 0 <= o < |log| && o < c && OnTime(cfg, log, 0, o) ==> Complete(cfg, log, table, KeyOf(log[o]))
  }

  /**
   The on-time edit at o is safe for this reader: its window is open and holds all
   on-time edits read so far, or the floor is at or below it, or its minute is over
   and everything read of it is stored.
   */
  ghost predicate Covered(cfg: Config, log: Log, table: map<WindowKey, nat>, r: Reader, o: nat)
    requires r.start <= o < r.pos <= |log| && log[o].Edit?
  {
    var key := KeyOf(log[o]);
    var seen := OnTimeIn(cfg, log, key, 0, r.start, r.pos);
    || (key in r.part.windows && r.part.windows[key].firstOffset <= o && r.part.windows[key].count >= seen)
    || 0 <= r.part.partialFloor <= o
    || (key.minute < Cutoff(cfg, r.part) && Stored(table, key) >= seen)
  }

  /** Where an edit this reader has read went: an open window, behind the floor, or a minute that is over. */
  ghost predicate Settled(cfg: Config, log: Log, r: Reader, o: nat)
    requires o < |log| && log[o].Edit?
  {
    var key := KeyOf(log[o]);
    || (key in r.part.windows && r.part.windows[key].firstOffset <= o)
    || 0 <= r.part.partialFloor <= o
    || key.minute < Cutoff(cfg, r.part)
  }

  /** What the reader has counted or written for a page minute. */
  function Seen(r: Reader, key: WindowKey): nat {
    if key in r.part.windows then r.part.windows[key].count else Stored(r.emitted, key)
  }

  ghost predicate CapFree(cfg: Config, log: Log, table: map<WindowKey, nat>, r: Reader)
    requires r.start <= r.pos <= |log|
  {
    && SafeBelow(cfg, log, table, r.start)
    && (r.part.flushed != {} ==> r.part.partialFloor >= 0)
    && (forall o :: r.start <= o < r.pos && log[o].Edit? ==> Settled(cfg, log, r, o))
    && (cfg.latenessMs >= 0 ==>
          Peak(log, r.start) && (r.part.partialFloor >= 0 ==> Peak(log, r.part.partialFloor)))
    && (forall o :: r.start <= o < r.pos && OnTime(cfg, log, 0, o) ==> Covered(cfg, log, table, r, o))
    && (!r.finals ==> r.part.flushed == {} && Exact(cfg, log, r))
  }

  /** Counted plus written is what a reader starting here finds on time, however its flushes were timed. */
  ghost predicate Exact(cfg: Config, log: Log, r: Reader)
    requires r.start <= r.pos <= |log|
  {
    forall k :: Seen(r, k) == OnTimeIn(cfg, log, k, r.start, r.start, r.pos)
  }

  lemma ReadKeepsExact(cfg: Config, log: Log, r: Reader)
    requires ReaderOk(cfg, log, r) && r.pos < |log|
    requires r.part.flushed == {} && Exact(cfg, log, r)
    ensures Uncapped(cfg, log, r).part.flushed == {} && Exact(cfg, log, Uncapped(cfg, log, r))
  {
    var e, r' := log[r.pos], Uncapped(cfg, log, r);
    if e.Edit? {
      var key := KeyOf(e);
      assert Accepted(cfg, r.part, r.pos, e.wiki, e.title, e.time) <==> OnTime(cfg, log, r.start, r.pos);
      MinuteStartMonotone(r.part.watermark - cfg.latenessMs, r'.part.watermark - cfg.latenessMs);
      forall k
        ensures Seen(r', k) == OnTimeIn(cfg, log, k, r.start, r.start, r.pos + 1)
      {
        assert Seen(r, k) == OnTimeIn(cfg, log, k, r.start, r.start, r.pos);
        if k == key && OnTime(cfg, log, r.start, r.pos) {
          assert k in r.emitted ==> Rejects(cfg, r.part, k);
        }
      }
    } else {
      forall k
        ensures Seen(r', k) == OnTimeIn(cfg, log, k, r.start, r.start, r.pos + 1)
      {
        assert Seen(r, k) == OnTimeIn(cfg, log, k, r.start, r.start, r.pos);
      }
    }
  }

  /** A page minute that is open stays open and counts every edit of it that is on time. */
  lemma ReadKeepsCounting(cfg: Config, log: Log, r: Reader, key: WindowKey)
    requires ReaderOk(cfg, log, r) && r.pos < |log| && key in r.part.windows
    requires r.part.windows[key].count >= OnTimeIn(cfg, log, key, 0, r.start, r.pos)
    ensures var windows := Uncapped(cfg, log, r).part.windows;
            && key in windows && windows[key].firstOffset == r.part.windows[key].firstOffset
            && windows[key].count >= OnTimeIn(cfg, log, key, 0, r.start, r.pos + 1)
  {
    if OnTime(cfg, log, 0, r.pos) && KeyOf(log[r.pos]) == key {
      OnTimeForLaterReader(cfg, log, r.start, r.pos);
    }
  }

  /** Of a page minute that is over no edit is on time any more. */
  lemma ReadKeepsOver(cfg: Config, log: Log, r: Reader, key: WindowKey)
    requires ReaderOk(cfg, log, r) && r.pos < |log| && key.minute < Cutoff(cfg, r.part)
    ensures key.minute < Cutoff(cfg, Uncapped(cfg, log, r).part)
    ensures OnTimeIn(cfg, log, key, 0, r.start, r.pos + 1) == OnTimeIn(cfg, log, key, 0, r.start, r.pos)
  {
    MinuteStartMonotone(r.part.watermark - cfg.latenessMs, Uncapped(cfg, log, r).part.watermark - cfg.latenessMs);
    if OnTime(cfg, log, 0, r.pos) && KeyOf(log[r.pos]) == key {
      OnTimeForLaterReader(cfg, log, r.start, r.pos);
    }
  }

  lemma ReadKeepsCovered(cfg: Config, log: Log, table: map<WindowKey, nat>, r: Reader, o: nat)
    requires ReaderOk(cfg, log, r) && r.pos < |log|
    requires r.start <= o < r.pos && OnTime(cfg, log, 0, o) && Covered(cfg, log, table, r, o)
    ensures Covered(cfg, log, table, Uncapped(cfg, log, r), o)
  {
    var key := KeyOf(log[o]);
    if key in r.part.windows && r.part.windows[key].count >= OnTimeIn(cfg, log, key, 0, r.start, r.pos) {
      ReadKeepsCounting(cfg, log, r, key);
    }
    if key.minute < Cutoff(cfg, r.part) {
      ReadKeepsOver(cfg, log, r, key);
    }
  }

  lemma ReadIsCovered(cfg: Config, log: Log, table: map<WindowKey, nat>, r: Reader)
    requires ReaderOk(cfg, log, r) && r.pos < |log| && CapFree(cfg, log, table, r) && OnTime(cfg, log, 0, r.pos)
    ensures Covered(cfg, log, table, Uncapped(cfg, log, r), r.pos)
  {
    var key := KeyOf(log[r.pos]);
    if OnTimeIn(cfg, log, key, 0, r.start, r.pos) > 0 {
      var earlier := OnTimeWitness(cfg, log, key, 0, r.start, r.pos);
      ReadKeepsCovered(cfg, log, table, r, earlier);
    } else {
      assert r.part.flushed != {} ==> r.part.partialFloor >= 0;
      FirstIsCovered(cfg, log, table, r);
    }
  }

  lemma FirstIsCovered(cfg: Config, log: Log, table: map<WindowKey, nat>, r: Reader)
    requires ReaderOk(cfg, log, r) && r.pos < |log| && OnTime(cfg, log, 0, r.pos)
    requires r.part.flushed != {} ==> r.part.partialFloor >= 0
    requires OnTimeIn(cfg, log, KeyOf(log[r.pos]), 0, r.start, r.pos) == 0
    ensures Covered(cfg, log, table, Uncapped(cfg, log, r), r.pos)
  {
    OnTimeForLaterReader(cfg, log, r.start, r.pos);
  }

  lemma ReadKeepsCapFree(cfg: Config, log: Log, table: map<WindowKey, nat>, r: Reader)
    requires ReaderOk(cfg, log, r) && r.pos < |log| && CapFree(cfg, log, table, r)
    requires !ForcesOut(cfg, log, r)
    ensures CapFree(cfg, log, table, AfterRead(cfg, log, r))
  {
    var u := Uncapped(cfg, log, r);
    CappedShrinks(cfg.maxWindows, u.part);
    assert AfterRead(cfg, log, r) == u;
    if !r.finals {
      ReadKeepsExact(cfg, log, r);
    }
    forall o | r.start <= o < u.pos && OnTime(cfg, log, 0, o)
      ensures Covered(cfg, log, table, u, o)
    {
      if o < r.pos {
        ReadKeepsCovered(cfg, log, table, r, o);
      } else {
        ReadIsCovered(cfg, log, table, r);
      }
    }
    ReadKeepsSettled(cfg, log, table, r);
  }

  lemma ReadKeepsSettled(cfg: Config, log: Log, table: map<WindowKey, nat>, r: Reader)
    requires ReaderOk(cfg, log, r) && r.pos < |log| && CapFree(cfg, log, table, r)
    ensures forall o :: r.start <= o <= r.pos && log[o].Edit? ==> Settled(cfg, log, Uncapped(cfg, log, r), o)
  {
    var u := Uncapped(cfg, log, r);
    MinuteStartMonotone(r.part.watermark - cfg.latenessMs, u.part.watermark - cfg.latenessMs);
    forall o | r.start <= o <= r.pos && log[o].Edit?
      ensures Settled(cfg, log, u, o)
    {
      if o < r.pos {
        assert Settled(cfg, log, r, o);
      }
    }
  }

  /** The first offset among what is still open at the cutoff is a peak. */
  lemma OpenOffsetIsPeak(cfg: Config, log: Log, table: map<WindowKey, nat>, r: Reader, c: nat)
    requires ReaderOk(cfg, log, r) && CapFree(cfg, log, table, r) && cfg.latenessMs >= 0
    requires r.start <= c < r.pos && log[c].Edit? && KeyOf(log[c]).minute >= Cutoff(cfg, r.part)
    requires forall k :: k in r.part.windows && k.minute >= Cutoff(cfg, r.part) ==> c <= r.part.windows[k].firstOffset
    requires r.part.partialFloor >= 0 ==> c <= r.part.partialFloor
    ensures Peak(log, c)
  {
    if Watermark(log, 0, c) != 0 {
      WatermarkLaterStart(log, 0, 0, c);
      if c == r.start {
        return;
      }
      PeakAligns(log, r.start, c);
      var e := WatermarkWitness(log, r.start, c);
      assert Settled(cfg, log, r, e);
      if log[c].time < log[e].time {
        MinuteStartMonotone(log[c].time, log[e].time);
      }
    }
  }

  /** With no open window and no floor left, every time read so far was negative. */
  lemma NothingOpenIsPeak(cfg: Config, log: Log, table: map<WindowKey, nat>, r: Reader, c: nat)
    requires ReaderOk(cfg, log, r) && CapFree(cfg, log, table, r) && cfg.latenessMs >= 0
    requires r.start < c <= r.pos && r.part.partialFloor < 0
    requires forall k :: k in r.part.windows ==> k.minute < Cutoff(cfg, r.part)
    ensures Peak(log, c)
  {
    PeakAligns(log, r.start, c);
    WatermarkLaterStart(log, 0, r.start, c);
    WatermarkGrows(log, r.start, c, r.pos);
    if Watermark(log, r.start, r.pos) > 0 {
      var e := WatermarkWitness(log, r.start, r.pos);
      assert Settled(cfg, log, r, e);
      MinuteStartMonotone(r.part.watermark - cfg.latenessMs, r.part.watermark);
    }
  }

  ghost predicate Grows(table: map<WindowKey, nat>, table': map<WindowKey, nat>) {
    forall k :: Stored(table, k) <= Stored(table', k)
  }

  lemma GrowthKeepsCapFree(cfg: Config, log: Log, table: map<WindowKey, nat>, table': map<WindowKey, nat>, r: Reader)
    requires r.start <= r.pos <= |log| && CapFree(cfg, log, table, r) && Grows(table, table')
    ensures CapFree(cfg, log, table', r)
  {
    forall o | r.start <= o < r.pos && OnTime(cfg, log, 0, o)
      ensures Covered(cfg, log, table', r, o)
    {
      assert Covered(cfg, log, table, r, o);
      assert Stored(table, KeyOf(log[o])) <= Stored(table', KeyOf(log[o]));
    }
    GrowthKeepsSafe(cfg, log, table, table', r.start);
  }

  lemma GrowthKeepsSafe(cfg: Config, log: Log, table: map<WindowKey, nat>, table': map<WindowKey, nat>, c: int)
    requires SafeBelow(cfg, log, table, c) && Grows(table, table')
    ensures SafeBelow(cfg, log, table', c)
  {
    forall o | 0 <= o < |log| && o < c && OnTime(cfg, log, 0, o)
      ensures Complete(cfg, log, table', KeyOf(log[o]))
    {
      assert Stored(table, KeyOf(log[o])) <= Stored(table', KeyOf(log[o]));
    }
  }

  lemma PopKeepsSettled(cfg: Config, log: Log, table: map<WindowKey, nat>, r: Reader, final: bool)
    requires ReaderOk(cfg, log, r) && CapFree(cfg, log, table, r)
    ensures var r' := AfterPop(cfg, r, final);
            && (forall o :: r.start <= o < r.pos && log[o].Edit? ==> Settled(cfg, log, r', o))
            && (cfg.latenessMs >= 0 && r'.part.partialFloor >= 0 ==> Peak(log, r'.part.partialFloor))
  {
    var r' := AfterPop(cfg, r, final);
    var done := Done(cfg, r.part, final);
    var opens := OpenFirsts(cfg, r.part, done);
    assert forall k :: k in done && k.minute >= Cutoff(cfg, r.part) ==> r.part.windows[k].firstOffset in opens;
    forall o | r.start <= o < r.pos && log[o].Edit?
      ensures Settled(cfg, log, r', o)
    {
      assert Settled(cfg, log, r, o);
    }
    if cfg.latenessMs >= 0 && r'.part.partialFloor != r.part.partialFloor {
      OpenOffsetIsPeak(cfg, log, table, r, r'.part.partialFloor);
    }
  }

  /** Popping and writing moves coverage from open windows to the table or to the floor. */
  lemma PopKeepsCapFree(
    cfg: Config, log: Log, table: map<WindowKey, nat>, table': map<WindowKey, nat>, r: Reader, final: bool)
    requires ReaderOk(cfg, log, r) && CapFree(cfg, log, table, r) && Grows(table, table')
    requires forall k :: k in Rows(cfg, r.part, final) ==> Rows(cfg, r.part, final)[k] <= Stored(table', k)
    ensures CapFree(cfg, log, table', AfterPop(cfg, r, final))
  {
    var r' := AfterPop(cfg, r, final);
    var done := Done(cfg, r.part, final);
    GrowthKeepsCapFree(cfg, log, table, table', r);
    PopKeepsCovered(cfg, log, table', r, final);
    if r'.part.flushed != {} && r.part.flushed == {} {
      var m := Member(r'.part.flushed);
      var k :| k in done && k.minute == m;
      assert r.part.windows[k].firstOffset in OpenFirsts(cfg, r.part, done);
    }
    PopKeepsSettled(cfg, log, table, r, final);
    if !r'.finals {
      PopKeepsExact(cfg, log, r);
    }
  }

  lemma PopKeepsCovered(cfg: Config, log: Log, table: map<WindowKey, nat>, r: Reader, final: bool)
    requires ReaderOk(cfg, log, r) && CapFree(cfg, log, table, r)
    requires forall k :: k in Rows(cfg, r.part, final) ==> Rows(cfg, r.part, final)[k] <= Stored(table, k)
    ensures forall o :: r.start <= o < r.pos && OnTime(cfg, log, 0, o) ==>
                          Covered(cfg, log, table, AfterPop(cfg, r, final), o)
  {
    forall o | r.start <= o < r.pos && OnTime(cfg, log, 0, o)
      ensures Covered(cfg, log, table, AfterPop(cfg, r, final), o)
    {
      PopKeepsOneCovered(cfg, log, table, r, final, o);
    }
  }

  lemma PopKeepsOneCovered(cfg: Config, log: Log, table: map<WindowKey, nat>, r: Reader, final: bool, o: nat)
    requires ReaderOk(cfg, log, r) && r.start <= o < r.pos && log[o].Edit? && Covered(cfg, log, table, r, o)
    requires forall k :: k in Rows(cfg, r.part, final) ==> Rows(cfg, r.part, final)[k] <= Stored(table, k)
    ensures Covered(cfg, log, table, AfterPop(cfg, r, final), o)
  {
    var done, key := Done(cfg, r.part, final), KeyOf(log[o]);
    if key in done && key.minute >= Cutoff(cfg, r.part) {
      assert r.part.windows[key].firstOffset in OpenFirsts(cfg, r.part, done);
    }
  }

  lemma PopKeepsExact(cfg: Config, log: Log, r: Reader)
    requires ReaderOk(cfg, log, r) && r.part.flushed == {} && Exact(cfg, log, r)
    ensures AfterPop(cfg, r, false).part.flushed == {} && Exact(cfg, log, AfterPop(cfg, r, false))
  {
    var r' := AfterPop(cfg, r, false);
    forall k
      ensures Seen(r', k) == OnTimeIn(cfg, log, k, r.start, r.start, r.pos)
    {
      assert Seen(r, k) == OnTimeIn(cfg, log, k, r.start, r.start, r.pos);
    }
  }

  /** Wherever the reader would commit now, everything below it is complete. */
  lemma PointIsSafe(cfg: Config, log: Log, table: map<WindowKey, nat>, r: Reader)
    requires ReaderOk(cfg, log, r) && CapFree(cfg, log, table, r)
    ensures SafeBelow(cfg, log, table, Point(r))
  {
    PointInRange(cfg, log, r);
    PointBelow(r);
    forall o | 0 <= o < |log| && o < Point(r) && OnTime(cfg, log, 0, o)
      ensures Complete(cfg, log, table, KeyOf(log[o]))
    {
      var key := KeyOf(log[o]);
      if o >= r.start {
        assert Covered(cfg, log, table, r, o);
        NothingOnTimeAfterCutoff(cfg, log, key, r.start, r.pos, |log|);
        OnTimeInSplits(cfg, log, key, 0, 0, r.start, |log|);
        OnTimeInSplits(cfg, log, key, 0, r.start, r.pos, |log|);
        if OnTimeIn(cfg, log, key, 0, 0, r.start) > 0 {
          var earlier := OnTimeWitness(cfg, log, key, 0, 0, r.start);
        }
      }
    }
  }

  /** A flush commits only at peaks, so a reader restarted there sees lateness as the uninterrupted one does. */
  lemma FlushCommitsAtPeaks(cfg: Config, log: Log, table: map<WindowKey, nat>, r: Reader, final: bool)
    requires ReaderOk(cfg, log, r) && CapFree(cfg, log, table, r) && cfg.latenessMs >= 0
    requires ReaderOk(cfg, log, AfterPop(cfg, r, final)) && CapFree(cfg, log, table, AfterPop(cfg, r, final))
    requires CommitPoint(AfterPop(cfg, r, final).part).Some?
    ensures Peak(log, Point(AfterPop(cfg, r, final)))
  {
    var r' := AfterPop(cfg, r, final);
    PointInRange(cfg, log, r');
    PointBelow(r');
    if r'.part.partialFloor >= 0 && Point(r') == r'.part.partialFloor {
    } else if r'.part.windows != map[] {
      FirstsNonEmpty(r'.part.windows);
      assert Point(r') in Firsts(r'.part.windows);
      OpenOffsetIsPeak(cfg, log, table, r', Point(r'));
    } else if r'.part.partialFloor < 0 {
      NothingOpenIsPeak(cfg, log, table, r', Point(r'));
    } else {
      OpenFloorBelowLast(cfg, log, r');
    }
  }

  lemma OpenFloorBelowLast(cfg: Config, log: Log, r: Reader)
    requires ReaderOk(cfg, log, r) && r.part.partialFloor >= 0 && r.part.windows == map[]
    ensures Point(r) == r.part.partialFloor
  {
  }

  // ---- Every state of every run ---------------------------------------------

  ghost predicate Bounded(logs: seq<Log>, key: WindowKey, count: nat) {
    exists p: nat :: p < |logs| && count <= CountIn(logs[p], key, 0, |logs[p]|)
  }

  ghost predicate OnTimeBounded(cfg: Config, logs: seq<Log>, key: WindowKey, count: nat) {
    exists p: nat :: p < |logs| && count <= OnTimeIn(cfg, logs[p], key, 0, 0, |logs[p]|)
  }

  /** The reader is well, and what is committed lies between its start and its next commit. */
  ghost predicate IsWell(cfg: Config, log: Log, r: Reader, committed: nat) {
    ReaderOk(cfg, log, r) && r.start <= committed <= Point(r)
  }

  ghost predicate IsCapFree(cfg: Config, log: Log, table: map<WindowKey, nat>, r: Reader) {
    r.start <= r.pos <= |log| && CapFree(cfg, log, table, r)
  }

  /** What holds with or without the cap. */
  ghost predicate Basic(cfg: Config, logs: seq<Log>, s: State) {
    && (forall p :: p in s.readers ==>
          p < |logs| && IsWell(cfg, logs[p], s.readers[p], Committed(s, p)))
    && (forall p: nat :: p < |logs| ==> Committed(s, p) <= |logs[p]|)
    && (forall k :: k in s.table ==> Bounded(logs, k, s.table[k]))
  }

  /** What holds as long as the cap has forced nothing out. */
  ghost predicate Uncut(cfg: Config, logs: seq<Log>, s: State) {
    && (forall p: nat :: p < |logs| ==> SafeBelow(cfg, logs[p], s.table, Committed(s, p)))
    && (forall p :: p in s.readers ==> p < |logs| && IsCapFree(cfg, logs[p], s.table, s.readers[p]))
    && (cfg.latenessMs >= 0 ==> forall p: nat :: p < |logs| ==> Peak(logs[p], Committed(s, p)))
    && (cfg.latenessMs >= 0 ==> forall k :: k in s.table ==> OnTimeBounded(cfg, logs, k, s.table[k]))
  }

  ghost predicate Inv(cfg: Config, logs: seq<Log>, s: State) {
    Basic(cfg, logs, s) && (!s.capped ==> Uncut(cfg, logs, s))
  }

  lemma RowIsBounded(cfg: Config, logs: seq<Log>, p: nat, r: Reader, key: WindowKey)
    requires p < |logs| && ReaderOk(cfg, logs[p], r) && key in r.part.windows
    ensures Bounded(logs, key, r.part.windows[key].count)
    ensures Peak(logs[p], r.start) ==> OnTimeBounded(cfg, logs, key, r.part.windows[key].count)
  {
    var log := logs[p];
    OnTimeAtMostAll(cfg, log, key, r.start, r.start, r.pos);
    CountInWider(log, key, 0, r.start, r.pos, |log|);
    if Peak(log, r.start) {
      PeakCountsAlike(cfg, log, key, r.start, r.start, r.pos);
      OnTimeInSplits(cfg, log, key, 0, 0, r.start, |log|);
      OnTimeInSplits(cfg, log, key, 0, r.start, r.pos, |log|);
    }
  }

  lemma UpsertGrows(cfg: Config, logs: seq<Log>, s: State, parts: set<nat>, final: bool, table': map<WindowKey, nat>)
    requires Inv(cfg, logs, s) && parts <= s.readers.Keys
    requires IsUpsert(s.table, RowSet(cfg, s.readers, parts, final), table')
    ensures Grows(s.table, table')
    ensures forall k :: k in table' ==> Bounded(logs, k, table'[k])
    ensures !s.capped && cfg.latenessMs >= 0 ==> forall k :: k in table' ==> OnTimeBounded(cfg, logs, k, table'[k])
    ensures forall p, k :: p in parts && k in Rows(cfg, s.readers[p].part, final) ==>
              Rows(cfg, s.readers[p].part, final)[k] <= Stored(table', k)
  {
    forall k | k in table'
      ensures Bounded(logs, k, table'[k])
      ensures !s.capped && cfg.latenessMs >= 0 ==> OnTimeBounded(cfg, logs, k, table'[k])
    {
      if !(k in s.table && table'[k] == s.table[k]) {
        var row := ClosedWindow(k, table'[k]);
        assert row in RowSet(cfg, s.readers, parts, final);
        var p :| p in parts && p in s.readers && k in Rows(cfg, s.readers[p].part, final)
                 && table'[k] == Rows(cfg, s.readers[p].part, final)[k];
        RowIsBounded(cfg, logs, p, s.readers[p], k);
      }
    }
    forall p, k | p in parts && k in Rows(cfg, s.readers[p].part, final)
      ensures Rows(cfg, s.readers[p].part, final)[k] <= Stored(table', k)
    {
      assert ClosedWindow(k, Rows(cfg, s.readers[p].part, final)[k]) in RowSet(cfg, s.readers, parts, final);
    }
  }

  /** What one reader keeps through a flush, for the table the flush wrote. */
  ghost predicate FlushedWell(
    cfg: Config, log: Log, table': map<WindowKey, nat>, r: Reader, final: bool, capped: bool)
  {
    var r' := AfterPop(cfg, r, final);
    && ReaderOk(cfg, log, r') && r'.start <= Point(r') <= |log| && Point(r) <= Point(r')
    && (!capped ==>
          && CapFree(cfg, log, table', r') && SafeBelow(cfg, log, table', Point(r'))
          && (cfg.latenessMs >= 0 && CommitPoint(r'.part).Some? ==> Peak(log, Point(r'))))
  }

  lemma FlushOne(cfg: Config, log: Log, table: map<WindowKey, nat>, table': map<WindowKey, nat>, r: Reader, final: bool,
                 capped: bool)
    requires ReaderOk(cfg, log, r) && Grows(table, table')
    requires forall k :: k in Rows(cfg, r.part, final) ==> Rows(cfg, r.part, final)[k] <= Stored(table', k)
    requires !capped ==> CapFree(cfg, log, table, r)
    ensures FlushedWell(cfg, log, table', r, final, capped)
  {
    PopKeepsReader(cfg, log, r, final);
    PointInRange(cfg, log, AfterPop(cfg, r, final));
    if !capped {
      PopKeepsCapFree(cfg, log, table, table', r, final);
      PointIsSafe(cfg, log, table', AfterPop(cfg, r, final));
      GrowthKeepsCapFree(cfg, log, table, table', r);
      if cfg.latenessMs >= 0 && CommitPoint(AfterPop(cfg, r, final).part).Some? {
        FlushCommitsAtPeaks(cfg, log, table', r, final);
      }
    }
  }

  /** s' is s after a flush of parts that committed some of the offsets and kept some of the readers. */
  ghost predicate IsFlush(cfg: Config, s: State, parts: set<nat>, final: bool, commits: set<nat>, s': State) {
    && parts <= s.readers.Keys && commits <= parts
    && IsUpsert(s.table, RowSet(cfg, s.readers, parts, final), s'.table)
    && IsCommit(s, PopAll(cfg, s.readers, parts, final), commits, s'.committed)
    && s'.capped == s.capped
    && (forall p :: p in s'.readers ==> p in s.readers && s'.readers[p] == PopAll(cfg, s.readers, parts, final)[p])
  }

  lemma FlushMovesCommits(cfg: Config, s: State, parts: set<nat>, final: bool, commits: set<nat>, s': State, p: nat)
    requires IsFlush(cfg, s, parts, final, commits, s')
    ensures || Committed(s', p) == Committed(s, p)
            || (p in parts && CommitPoint(AfterPop(cfg, s.readers[p], final).part).Some?
                && Committed(s', p) == Point(AfterPop(cfg, s.readers[p], final)))
  {
  }

  lemma FlushKeepsInv(cfg: Config, logs: seq<Log>, s: State, parts: set<nat>, final: bool, commits: set<nat>, s': State)
    requires Inv(cfg, logs, s) && IsFlush(cfg, s, parts, final, commits, s')
    ensures Inv(cfg, logs, s')
    ensures forall p: nat :: Committed(s, p) <= Committed(s', p)
  {
    UpsertGrows(cfg, logs, s, parts, final, s'.table);
    forall p | p in parts
      ensures FlushedWell(cfg, logs[p], s'.table, s.readers[p], final, s.capped)
    {
      FlushOne(cfg, logs[p], s.table, s'.table, s.readers[p], final, s.capped);
    }
    forall p: nat
      ensures Committed(s, p) <= Committed(s', p)
      ensures p < |logs| ==> Committed(s', p) <= |logs[p]|
    {
      FlushMovesCommits(cfg, s, parts, final, commits, s', p);
    }
    forall p | p in s'.readers
      ensures p < |logs| && IsWell(cfg, logs[p], s'.readers[p], Committed(s', p))
    {
      FlushMovesCommits(cfg, s, parts, final, commits, s', p);
      assert p in parts ==> FlushedWell(cfg, logs[p], s'.table, s.readers[p], final, s.capped);
    }
    if !s.capped {
      FlushKeepsUncut(cfg, logs, s, parts, final, commits, s');
    }
  }

  lemma FlushKeepsUncut(
    cfg: Config, logs: seq<Log>, s: State, parts: set<nat>, final: bool, commits: set<nat>, s': State)
    requires Basic(cfg, logs, s) && Uncut(cfg, logs, s) && IsFlush(cfg, s, parts, final, commits, s')
    requires Grows(s.table, s'.table)
    requires cfg.latenessMs >= 0 ==> forall k :: k in s'.table ==> OnTimeBounded(cfg, logs, k, s'.table[k])
    requires forall p :: p in parts ==> FlushedWell(cfg, logs[p], s'.table, s.readers[p], final, false)
    ensures Uncut(cfg, logs, s')
  {
    forall p: nat | p < |logs|
      ensures SafeBelow(cfg, logs[p], s'.table, Committed(s', p))
      ensures cfg.latenessMs >= 0 ==> Peak(logs[p], Committed(s', p))
    {
      FlushCommitsSafely(cfg, logs[p], s, parts, final, commits, s', p);
    }
    forall p | p in s'.readers
      ensures IsCapFree(cfg, logs[p], s'.table, s'.readers[p])
    {
      FlushedIsCapFree(cfg, logs[p], s, parts, final, commits, s', p);
    }
  }

  lemma FlushCommitsSafely(
    cfg: Config, log: Log, s: State, parts: set<nat>, final: bool, commits: set<nat>, s': State, p: nat)
    requires IsFlush(cfg, s, parts, final, commits, s') && Grows(s.table, s'.table)
    requires SafeBelow(cfg, log, s.table, Committed(s, p)) && (cfg.latenessMs >= 0 ==> Peak(log, Committed(s, p)))
    requires p in parts ==> FlushedWell(cfg, log, s'.table, s.readers[p], final, false)
    ensures SafeBelow(cfg, log, s'.table, Committed(s', p)) && (cfg.latenessMs >= 0 ==> Peak(log, Committed(s', p)))
  {
    GrowthKeepsSafe(cfg, log, s.table, s'.table, Committed(s, p));
    FlushMovesCommits(cfg, s, parts, final, commits, s', p);
  }

  lemma FlushedIsCapFree(
    cfg: Config, log: Log, s: State, parts: set<nat>, final: bool, commits: set<nat>, s': State, p: nat)
    requires IsFlush(cfg, s, parts, final, commits, s') && Grows(s.table, s'.table) && p in s'.readers
    requires ReaderOk(cfg, log, s.readers[p]) && IsCapFree(cfg, log, s.table, s.readers[p])
    requires p in parts ==> FlushedWell(cfg, log, s'.table, s.readers[p], final, false)
    ensures IsCapFree(cfg, log, s'.table, s'.readers[p])
  {
    if p !in parts {
      GrowthKeepsCapFree(cfg, log, s.table, s'.table, s.readers[p]);
    }
  }

  lemma AssignKeepsInv(cfg: Config, logs: seq<Log>, s: State, p: nat, s': State)
    requires Inv(cfg, logs, s) && Next(cfg, logs, s, Assign(p), s')
    ensures Inv(cfg, logs, s')
  {
    var r := s'.readers[p];
    assert forall q: nat :: Committed(s', q) == Committed(s, q);
    FreshReader(cfg, logs[p], s.table, r.start);
    assert IsWell(cfg, logs[p], r, Committed(s, p));
  }

  lemma FreshReader(cfg: Config, log: Log, table: map<WindowKey, nat>, start: nat)
    requires start <= |log|
    ensures var r := Reader(start, start, EMPTY_PART, map[], false);
            && ReaderOk(cfg, log, r) && Point(r) == start
            && (SafeBelow(cfg, log, table, start) && (cfg.latenessMs >= 0 ==> Peak(log, start)) ==>
                  CapFree(cfg, log, table, r))
  {
    var r := Reader(start, start, EMPTY_PART, map[], false);
    assert forall k :: Seen(r, k) == 0 == OnTimeIn(cfg, log, k, start, start, start);
  }

  lemma ReadKeepsBasic(cfg: Config, logs: seq<Log>, s: State, p: nat, s': State)
    requires Basic(cfg, logs, s) && p in s.readers && s.readers[p].pos < |logs[p]|
    requires s'.readers == s.readers[p := AfterRead(cfg, logs[p], s.readers[p])]
    requires s'.table == s.table && s'.committed == s.committed
    ensures Basic(cfg, logs, s')
  {
    ReadKeepsReader(cfg, logs[p], s.readers[p]);
    ReadMovesPoint(cfg, logs[p], s.readers[p]);
    assert IsWell(cfg, logs[p], s'.readers[p], Committed(s, p));
    assert forall q: nat :: Committed(s', q) == Committed(s, q);
  }

  lemma ReadKeepsInv(cfg: Config, logs: seq<Log>, s: State, p: nat, s': State)
    requires Inv(cfg, logs, s) && Next(cfg, logs, s, Read(p), s')
    ensures Inv(cfg, logs, s')
  {
    ReadKeepsBasic(cfg, logs, s, p, s');
    if !s'.capped {
      ReadKeepsUncut(cfg, logs, s, p, s');
    }
  }

  lemma ReadKeepsUncut(cfg: Config, logs: seq<Log>, s: State, p: nat, s': State)
    requires Basic(cfg, logs, s) && Uncut(cfg, logs, s)
    requires p in s.readers && s.readers[p].pos < |logs[p]| && !ForcesOut(cfg, logs[p], s.readers[p])
    requires s'.readers == s.readers[p := AfterRead(cfg, logs[p], s.readers[p])]
    requires s'.table == s.table && s'.committed == s.committed
    ensures Uncut(cfg, logs, s')
  {
    ReadKeepsCapFree(cfg, logs[p], s.table, s.readers[p]);
    assert IsCapFree(cfg, logs[p], s'.table, s'.readers[p]);
    assert forall q: nat :: Committed(s', q) == Committed(s, q);
  }

  lemma FlushStepKeepsInv(cfg: Config, logs: seq<Log>, s: State, step: Step, s': State)
    requires Inv(cfg, logs, s) && (step.Flush? || step.FlushAndDie?) && Next(cfg, logs, s, step, s')
    ensures Inv(cfg, logs, s')
    ensures forall p: nat :: Committed(s, p) <= Committed(s', p)
  {
    FlushKeepsInv(cfg, logs, s, step.parts, step.final, if step.Flush? then step.parts else step.commits, s');
  }

  lemma LoseKeepsInv(cfg: Config, logs: seq<Log>, s: State, parts: set<nat>, s': State)
    requires Inv(cfg, logs, s) && Next(cfg, logs, s, Lose(parts), s')
    ensures Inv(cfg, logs, s')
  {
    assert forall q: nat :: Committed(s', q) == Committed(s, q);
  }

  lemma NextKeepsInv(cfg: Config, logs: seq<Log>, s: State, s': State)
    requires Inv(cfg, logs, s) && CanFollow(cfg, logs, s, s')
    ensures Inv(cfg, logs, s')
    ensures forall p: nat :: Committed(s, p) <= Committed(s', p)
  {
    var step :| Next(cfg, logs, s, step, s');
    match step
    case Assign(p) => AssignKeepsInv(cfg, logs, s, p, s');
    case Read(p) => ReadKeepsInv(cfg, logs, s, p, s');
    case Flush(_, _) => FlushStepKeepsInv(cfg, logs, s, step, s');
    case FlushAndDie(_, _, _) => FlushStepKeepsInv(cfg, logs, s, step, s');
    case Lose(parts) => LoseKeepsInv(cfg, logs, s, parts, s');
  }

  lemma {:induction false} RunKeepsInv(cfg: Config, logs: seq<Log>, trace: seq<State>, i: nat)
    requires Run(cfg, logs, trace) && i < |trace|
    ensures Inv(cfg, logs, trace[i])
  {
    if i == 0 {
      InitOk(cfg, logs);
    } else {
      RunKeepsInv(cfg, logs, trace, i - 1);
      assert CanFollow(cfg, logs, trace[i - 1], trace[i - 1 + 1]);
      NextKeepsInv(cfg, logs, trace[i - 1], trace[i]);
    }
  }

  lemma InitOk(cfg: Config, logs: seq<Log>)
    ensures Inv(cfg, logs, INIT)
  {
    assert forall p: nat :: Committed(INIT, p) == 0;
    assert forall p: nat :: p < |logs| ==> Peak(logs[p], 0) && SafeBelow(cfg, logs[p], map[], 0);
  }

  // ---- The theorems ---------------------------------------------------------

  /**
   A page minute whose first on-time edit has been committed past is completely
   stored, in every state of every run in which the window cap forced nothing out.
   */
  lemma NothingCommittedIsLost(cfg: Config, logs: seq<Log>, trace: seq<State>, i: nat, p: nat, o: nat)
    requires Run(cfg, logs, trace) && i < |trace| && !trace[i].capped
    requires p < |logs| && o < |logs[p]| && OnTime(cfg, logs[p], 0, o)
    ensures || Committed(trace[i], p) <= o
            || Stored(trace[i].table, KeyOf(logs[p][o])) >= OnTimeIn(cfg, logs[p], KeyOf(logs[p][o]), 0, 0, |logs[p]|)
  {
    RunKeepsInv(cfg, logs, trace, i);
  }

  /** No stored total exceeds the number of edits of that page minute in a log, cap or no cap. */
  lemma NothingIsCountedTwice(cfg: Config, logs: seq<Log>, trace: seq<State>, i: nat, key: WindowKey)
    requires Run(cfg, logs, trace) && i < |trace| && key in trace[i].table
    ensures exists p: nat :: p < |logs| && trace[i].table[key] <= CountIn(logs[p], key, 0, |logs[p]|)
  {
    RunKeepsInv(cfg, logs, trace, i);
    assert Bounded(logs, key, trace[i].table[key]);
  }

  /** Every edit of the page minute is on one partition, as the keying of wiki.clean arranges. */
  ghost predicate OnlyOn(logs: seq<Log>, key: WindowKey, p: nat) {
    forall q: nat :: q < |logs| && q != p ==> CountIn(logs[q], key, 0, |logs[q]|) == 0
  }

  /**
   Once committed past, a page minute is stored exactly as one uninterrupted read
   counts it: crashes, final flushes and recounts neither lose nor add an edit.
   */
  lemma CommittedMinutesAreExact(cfg: Config, logs: seq<Log>, trace: seq<State>, i: nat, p: nat, o: nat)
    requires Run(cfg, logs, trace) && i < |trace| && !trace[i].capped && cfg.latenessMs >= 0
    requires p < |logs| && o < Committed(trace[i], p) && o < |logs[p]| && OnTime(cfg, logs[p], 0, o)
    requires OnlyOn(logs, KeyOf(logs[p][o]), p)
    ensures Stored(trace[i].table, KeyOf(logs[p][o])) == OnTimeIn(cfg, logs[p], KeyOf(logs[p][o]), 0, 0, |logs[p]|)
  {
    var key := KeyOf(logs[p][o]);
    NothingCommittedIsLost(cfg, logs, trace, i, p, o);
    RunKeepsInv(cfg, logs, trace, i);
    if key in trace[i].table {
      assert OnTimeBounded(cfg, logs, key, trace[i].table[key]);
      var q: nat :| q < |logs| && trace[i].table[key] <= OnTimeIn(cfg, logs[q], key, 0, 0, |logs[q]|);
      OnTimeAtMostAll(cfg, logs[q], key, 0, 0, |logs[q]|);
    }
  }

  /** A reader restarted at a committed offset finds on time exactly what the uninterrupted reader does. */
  lemma RestartSeesTheSameLateness(cfg: Config, logs: seq<Log>, trace: seq<State>, i: nat, p: nat, o: nat)
    requires Run(cfg, logs, trace) && i < |trace| && !trace[i].capped && cfg.latenessMs >= 0
    requires p < |logs| && Committed(trace[i], p) <= o < |logs[p]|
    ensures OnTime(cfg, logs[p], Committed(trace[i], p), o) <==> OnTime(cfg, logs[p], 0, o)
  {
    RunKeepsInv(cfg, logs, trace, i);
    PeakAligns(logs[p], Committed(trace[i], p), o + 1);
  }

  /** Committed offsets never move back, within an incarnation or across restarts. */
  lemma {:induction false} CommitsNeverMoveBack(cfg: Config, logs: seq<Log>, trace: seq<State>, i: nat, j: nat, p: nat)
    requires Run(cfg, logs, trace) && i <= j < |trace|
    ensures Committed(trace[i], p) <= Committed(trace[j], p)
  {
    if i < j {
      CommitsNeverMoveBack(cfg, logs, trace, i, j - 1, p);
      StepMovesForward(cfg, logs, trace, j - 1, p);
    }
  }

  lemma StepMovesForward(cfg: Config, logs: seq<Log>, trace: seq<State>, i: nat, p: nat)
    requires Run(cfg, logs, trace) && i + 1 < |trace|
    ensures Committed(trace[i], p) <= Committed(trace[i + 1], p)
  {
    RunKeepsInv(cfg, logs, trace, i);
    NextKeepsInv(cfg, logs, trace[i], trace[i + 1]);
  }

  /** The offset a reader would commit is at least the committed one and at most its position. */
  lemma CommitPointInRange(cfg: Config, logs: seq<Log>, trace: seq<State>, i: nat, p: nat)
    requires Run(cfg, logs, trace) && i < |trace| && p in trace[i].readers
    requires CommitPoint(trace[i].readers[p].part).Some?
    ensures p < |logs|
    ensures trace[i].readers[p].start <= Committed(trace[i], p)
    ensures Committed(trace[i], p) <= CommitPoint(trace[i].readers[p].part).value
    ensures CommitPoint(trace[i].readers[p].part).value <= trace[i].readers[p].pos <= |logs[p]|
  {
    RunKeepsInv(cfg, logs, trace, i);
    PointInRange(cfg, logs[p], trace[i].readers[p]);
  }

  /** With normal flushes only, counted plus written is what the offsets read hold on time, for every page minute. */
  lemma NormalFlushesCountExactly(cfg: Config, logs: seq<Log>, trace: seq<State>, i: nat, p: nat, key: WindowKey)
    requires Run(cfg, logs, trace) && i < |trace| && !trace[i].capped && p in trace[i].readers
    requires !trace[i].readers[p].finals
    ensures p < |logs| && trace[i].readers[p].start <= trace[i].readers[p].pos <= |logs[p]|
    ensures Seen(trace[i].readers[p], key) ==
            OnTimeIn(cfg, logs[p], key, trace[i].readers[p].start, trace[i].readers[p].start, trace[i].readers[p].pos)
  {
    RunKeepsInv(cfg, logs, trace, i);
    assert Exact(cfg, logs[p], trace[i].readers[p]);
  }

  /**
   So two readers of the same offsets agree on every page minute, whatever the
   timing of their flushes and the other partitions, even in different runs.
   */
  lemma FlushScheduleIsIrrelevant(
    cfg: Config, logs: seq<Log>, logs': seq<Log>, trace: seq<State>, trace': seq<State>, i: nat, j: nat,
    p: nat, q: nat, key: WindowKey)
    requires Run(cfg, logs, trace) && i < |trace| && !trace[i].capped && p in trace[i].readers
    requires Run(cfg, logs', trace') && j < |trace'| && !trace'[j].capped && q in trace'[j].readers
    requires p < |logs| && q < |logs'| && logs[p] == logs'[q]
    requires trace[i].readers[p].start == trace'[j].readers[q].start
    requires trace[i].readers[p].pos == trace'[j].readers[q].pos
    requires !trace[i].readers[p].finals && !trace'[j].readers[q].finals
    ensures Seen(trace[i].readers[p], key) == Seen(trace'[j].readers[q], key)
  {
    NormalFlushesCountExactly(cfg, logs, trace, i, p, key);
    NormalFlushesCountExactly(cfg, logs', trace', j, q, key);
  }

  /** A reader writes each page minute at most once, final flushes included. */
  lemma EmittedOnce(cfg: Config, logs: seq<Log>, trace: seq<State>, i: nat, p: nat, final: bool)
    requires Run(cfg, logs, trace) && i < |trace| && p in trace[i].readers
    ensures trace[i].readers[p].emitted.Keys !! Rows(cfg, trace[i].readers[p].part, final).Keys
  {
    RunKeepsInv(cfg, logs, trace, i);
  }

  // ---- Lateness in plain arithmetic -----------------------------------------

  /** m is the largest event time in log[start..pos], or 0 if that is larger. */
  ghost predicate IsLatest(log: Log, start: nat, pos: nat, m: int)
    requires start <= pos <= |log|
  {
    && m >= 0 && (forall o :: start <= o < pos && log[o].Edit? ==> log[o].time <= m)
    && (m == 0 || exists o :: start <= o < pos && log[o].Edit? && log[o].time == m)
  }

  lemma WatermarkIsLatest(log: Log, start: nat, pos: nat, m: int)
    requires start <= pos <= |log| && IsLatest(log, start, pos, m)
    ensures Watermark(log, start, pos) == m
  {
    WatermarkLaterStart(log, start, start, pos);
    if m > 0 {
      var o :| start <= o < pos && log[o].Edit? && log[o].time == m;
      WatermarkCovers(log, start, pos, o);
    }
    if Watermark(log, start, pos) > 0 {
      var o := WatermarkWitness(log, start, pos);
    }
  }

  lemma {:induction false} WatermarkCovers(log: Log, start: nat, pos: nat, o: nat)
    requires start <= o < pos <= |log| && log[o].Edit?
    ensures log[o].time <= Watermark(log, start, pos)
  {
    if o < pos - 1 {
      WatermarkCovers(log, start, pos - 1, o);
    }
  }

  /** An edit is on time exactly when its minute is not before the one the allowance behind the latest time. */
  lemma OnTimeIff(cfg: Config, log: Log, start: nat, o: nat, m: int)
    requires start <= o < |log| && IsLatest(log, start, o + 1, m)
    ensures OnTime(cfg, log, start, o) <==>
            log[o].Edit? && log[o].time / 60_000 >= (m - cfg.latenessMs) / 60_000
  {
    WatermarkIsLatest(log, start, o + 1, m);
    if log[o].Edit? {
      MinutesCompare(log[o].time, m - cfg.latenessMs);
    }
  }

  /**
   In every run a reader refuses an edit exactly when its minute is before the minute that
   lies the allowance behind the latest time it has read, this edit included, or when that
   page minute is already written. It counts any other edit once, in the minute it falls in.
   */
  lemma ReaderCountsIff(cfg: Config, logs: seq<Log>, trace: seq<State>, i: nat, p: nat, m: int)
    requires Run(cfg, logs, trace) && i < |trace| && p in trace[i].readers
    requires var r := trace[i].readers[p];
             && p < |logs| && r.start <= r.pos < |logs[p]| && logs[p][r.pos].Edit?
             && IsLatest(logs[p], r.start, r.pos + 1, m)
    ensures var r, e := trace[i].readers[p], logs[p][trace[i].readers[p].pos];
            var key := WindowKey(e.wiki, e.title, e.time - e.time % 60_000);
            var late := e.time / 60_000 < (m - cfg.latenessMs) / 60_000;
            var written := key.minute in r.part.flushed && key !in r.part.windows;
            CountsOneMore(r.part.windows, Uncapped(cfg, logs[p], r).part.windows, key, r.pos, !late && !written)
  {
    ReaderIsOk(cfg, logs, trace, i, p);
    NextEditIsCountedIff(cfg, logs[p], trace[i].readers[p], m);
  }

  lemma ReaderIsOk(cfg: Config, logs: seq<Log>, trace: seq<State>, i: nat, p: nat)
    requires Run(cfg, logs, trace) && i < |trace| && p in trace[i].readers
    ensures p < |logs| && ReaderOk(cfg, logs[p], trace[i].readers[p])
  {
    RunKeepsInv(cfg, logs, trace, i);
    assert IsWell(cfg, logs[p], trace[i].readers[p], Committed(trace[i], p));
  }

  lemma NextEditIsCountedIff(cfg: Config, log: Log, r: Reader, m: int)
    requires ReaderOk(cfg, log, r) && r.pos < |log| && log[r.pos].Edit? && IsLatest(log, r.start, r.pos + 1, m)
    ensures var e := log[r.pos];
            var key := WindowKey(e.wiki, e.title, e.time - e.time % 60_000);
            var late := e.time / 60_000 < (m - cfg.latenessMs) / 60_000;
            var written := key.minute in r.part.flushed && key !in r.part.windows;
            CountsOneMore(r.part.windows, Uncapped(cfg, log, r).part.windows, key, r.pos, !late && !written)
  {
    var e := log[r.pos];
    WatermarkIsLatest(log, r.start, r.pos + 1, m);
    forall k | k in r.part.windows
      ensures r.part.windows[k].count >= 1 && r.part.windows[k].firstOffset >= 0
    {
      assert WindowOk(cfg, log, r, k);
    }
    EditIsCountedIff(cfg, r.part, r.pos, e.wiki, e.title, e.time);
  }

  /** In particular no edit within the allowance of every time read so far is refused as late. */
  lemma WithinLatenessIsOnTime(cfg: Config, log: Log, start: nat, o: nat)
    requires start <= o < |log| && log[o].Edit? && log[o].time >= -cfg.latenessMs
    requires forall j :: start <= j <= o && log[j].Edit? ==> log[o].time >= log[j].time - cfg.latenessMs
    ensures OnTime(cfg, log, start, o)
  {
    var m := Watermark(log, start, o + 1);
    WatermarkLaterStart(log, start, start, o + 1);
    if m > 0 {
      var j := WatermarkWitness(log, start, o + 1);
    }
    MinuteStartMonotone(m - cfg.latenessMs, log[o].time);
  }

  /** A flush that is not the final one writes exactly the windows whose minute ended the allowance ago or earlier. */
  lemma FlushWritesFinishedMinutes(
    cfg: Config, logs: seq<Log>, trace: seq<State>, i: nat, p: nat, m: int, key: WindowKey)
    requires Run(cfg, logs, trace) && i < |trace| && p in trace[i].readers
    requires var r := trace[i].readers[p];
             && p < |logs| && r.start <= r.pos <= |logs[p]| && IsLatest(logs[p], r.start, r.pos, m)
             && key in r.part.windows
    ensures key in Rows(cfg, trace[i].readers[p].part, false) <==> key.minute + 60_000 <= m - cfg.latenessMs
  {
    ReaderIsOk(cfg, logs, trace, i, p);
    WindowIsFinishedIff(cfg, logs[p], trace[i].readers[p], m, key);
  }

  lemma WindowIsFinishedIff(cfg: Config, log: Log, r: Reader, m: int, key: WindowKey)
    requires ReaderOk(cfg, log, r) && IsLatest(log, r.start, r.pos, m) && key in r.part.windows
    ensures key in Rows(cfg, r.part, false) <==> key.minute + 60_000 <= m - cfg.latenessMs
  {
    assert WindowOk(cfg, log, r, key);
    WatermarkIsLatest(log, r.start, r.pos, m);
    var e := log[r.part.windows[key].firstOffset];
    MinutesCompare(e.time, m - cfg.latenessMs);
    EndsBefore(key.minute, m - cfg.latenessMs);
  }

  /** A flush commits, for each of its partitions, the oldest offset still needed once its rows are written. */
  lemma FlushCommitsOldestNeeded(
    cfg: Config, logs: seq<Log>, s: State, parts: set<nat>, final: bool, s': State, p: nat)
    requires Basic(cfg, logs, s) && Next(cfg, logs, s, Flush(parts, final), s') && p in parts
    ensures var r := s'.readers[p];
            if r.part.windows == map[] && r.part.lastOffset < 0 then Committed(s', p) == Committed(s, p)
            else
              && (forall k :: k in r.part.windows ==> Committed(s', p) <= r.part.windows[k].firstOffset)
              && (|| (exists k :: k in r.part.windows && Committed(s', p) == r.part.windows[k].firstOffset)
                  || Committed(s', p) == r.part.partialFloor
                  || (r.part.windows == map[] && Committed(s', p) == r.part.lastOffset + 1))
  {
    CommitIsOldestNeeded(s'.readers[p].part);
  }

  lemma EndsBefore(minute: int, t: int)
    requires minute % 60_000 == 0
    ensures minute < MinuteStart(t) <==> minute + 60_000 <= t
  {
  }

  // ---- Why the cap must not be reached --------------------------------------

  /** Two pages, edited in two minutes, with the usual lateness of two minutes but room for one window. */
  const TWO_PAGES: Log := [Edit("w", "a", 0), Edit("w", "b", MINUTE_MS)]

  const ONE_WINDOW := Config(2 * MINUTE_MS, 1)

  const FIRST_KEY := WindowKey("w", "a", 0)

  const SECOND_KEY := WindowKey("w", "b", MINUTE_MS)

  const ONE_READ := Reader(0, 1, Part(map[FIRST_KEY := Window(1, 0)], 0, {}, 0, -1), map[], false)

  const BOTH_READ := Reader(0, 2, Part(map[SECOND_KEY := Window(1, 1)], 1, {0}, MINUTE_MS, -1), map[], false)

  lemma FirstIsRead()
    ensures AfterRead(ONE_WINDOW, TWO_PAGES, Reader(0, 0, EMPTY_PART, map[], false)) == ONE_READ
    ensures !ForcesOut(ONE_WINDOW, TWO_PAGES, Reader(0, 0, EMPTY_PART, map[], false))
    ensures OnTime(ONE_WINDOW, TWO_PAGES, 0, 0)
  {
    var counted := BeforeCap(ONE_WINDOW, EMPTY_PART, 0, "w", "a", 0);
    assert counted == ONE_READ.part;
    assert Watermark(TWO_PAGES, 0, 1) == 0;
  }

  lemma SecondForcesFirstOut()
    ensures AfterRead(ONE_WINDOW, TWO_PAGES, ONE_READ) == BOTH_READ && ForcesOut(ONE_WINDOW, TWO_PAGES, ONE_READ)
  {
    var both := map[FIRST_KEY := Window(1, 0), SECOND_KEY := Window(1, 1)];
    var counted := BeforeCap(ONE_WINDOW, ONE_READ.part, 1, "w", "b", MINUTE_MS);
    assert counted == Part(both, 1, {}, MINUTE_MS, -1);
    assert both.Keys == {FIRST_KEY, SECOND_KEY} && |both| == |both.Keys| == 2;
    assert FIRST_KEY in both && SECOND_KEY in both;
    assert Minutes(both) == {0, MINUTE_MS};
    assert LeastOf(Minutes(both)) == 0;
    assert Without(both, 0) == map[SECOND_KEY := Window(1, 1)];
    var smaller := Part(Without(both, 0), 1, {0}, MINUTE_MS, -1);
    assert |smaller.windows| == 1;
    assert Capped(1, counted) == Capped(1, smaller) == smaller;
  }

  /** Flushing then writes nothing and commits past the first edit. */
  lemma FlushCommitsPast(s: State, s': State)
    requires s == State(map[0 := BOTH_READ], map[], map[], true)
    requires s' == State(map[0 := AfterPop(ONE_WINDOW, BOTH_READ, false)], map[], map[0 := 1], true)
    ensures CanFollow(ONE_WINDOW, [TWO_PAGES], s, s')
  {
    assert Done(ONE_WINDOW, BOTH_READ.part, false) == {};
    var popped := AfterPop(ONE_WINDOW, BOTH_READ, false).part;
    assert popped.windows == BOTH_READ.part.windows;
    assert Firsts(popped.windows) == {1} by {
      assert SECOND_KEY in popped.windows;
    }
    assert CommitPoint(popped) == Some(1);
    assert RowSet(ONE_WINDOW, s.readers, {0}, false) == {};
    assert Next(ONE_WINDOW, [TWO_PAGES], s, Flush({0}, false), s');
  }

  /** Forced out by a later page, an edit that was on time is committed past and stored nowhere. */
  lemma CapCanLose() returns (trace: seq<State>)
    ensures Run(ONE_WINDOW, [TWO_PAGES], trace) && OnTime(ONE_WINDOW, TWO_PAGES, 0, 0)
    ensures var s := trace[|trace| - 1]; s.capped && Committed(s, 0) == 1 && s.table == map[]
  {
    FirstIsRead();
    SecondForcesFirstOut();
    var s1 := State(map[0 := Reader(0, 0, EMPTY_PART, map[], false)], map[], map[], false);
    var s2 := State(map[0 := ONE_READ], map[], map[], false);
    var s3 := State(map[0 := BOTH_READ], map[], map[], true);
    var s4 := State(map[0 := AfterPop(ONE_WINDOW, BOTH_READ, false)], map[], map[0 := 1], true);
    AssignFollows(s1);
    ReadFollows(s1, s2);
    ReadFollows(s2, s3);
    FlushCommitsPast(s3, s4);
    trace := FourSteps(ONE_WINDOW, [TWO_PAGES], s1, s2, s3, s4);
  }

  lemma FourSteps(cfg: Config, logs: seq<Log>, s1: State, s2: State, s3: State, s4: State)
    returns (trace: seq<State>)
    requires CanFollow(cfg, logs, INIT, s1) && CanFollow(cfg, logs, s1, s2)
    requires CanFollow(cfg, logs, s2, s3) && CanFollow(cfg, logs, s3, s4)
    ensures Run(cfg, logs, trace) && trace[|trace| - 1] == s4
  {
    trace := [INIT, s1, s2, s3, s4];
  }

  lemma AssignFollows(s: State)
    requires s == State(map[0 := Reader(0, 0, EMPTY_PART, map[], false)], map[], map[], false)
    ensures CanFollow(ONE_WINDOW, [TWO_PAGES], INIT, s)
  {
    assert Next(ONE_WINDOW, [TWO_PAGES], INIT, Assign(0), s);
  }

  lemma ReadFollows(s: State, s': State)
    requires s.readers.Keys == {0} && s.readers[0].pos < 2
    requires s' == State(map[0 := AfterRead(ONE_WINDOW, TWO_PAGES, s.readers[0])], s.table, s.committed,
                         s.capped || ForcesOut(ONE_WINDOW, TWO_PAGES, s.readers[0]))
    ensures CanFollow(ONE_WINDOW, [TWO_PAGES], s, s')
  {
    assert s'.readers == s.readers[0 := AfterRead(ONE_WINDOW, TWO_PAGES, s.readers[0])];
    assert Next(ONE_WINDOW, [TWO_PAGES], s, Read(0), s');
  }
}

