/**
 Minute windows per partition (processors/windows.py): what one edit, one flush
 and one commit do to the state of a partition, first as functions on values,
 then as the class that updates that state in place.
 */
module Windows {
  import opened Common

  const MINUTE_MS := 60_000

  datatype WindowKey = WindowKey(wiki: string, title: string, minute: int)

  datatype Window = Window(count: nat, firstOffset: int) {
    function Add(offset: int): Window {
      Window(count + 1, if firstOffset < 0 || offset < firstOffset then offset else firstOffset)
    }
  }

  const NEW_WINDOW := Window(0, -1)

  datatype ClosedWindow = ClosedWindow(key: WindowKey, count: nat)

  datatype Config = Config(latenessMs: int, maxWindows: nat)

  /** The value of one PartitionState. */
  datatype Part = Part(
    windows: map<WindowKey, Window>,
    lastOffset: int,
    flushed: set<int>,
    watermark: int,
    partialFloor: int)

  const EMPTY_PART := Part(map[], -1, {}, 0, -1)

  ghost predicate WellFormed(p: Part) {
    forall k :: k in p.windows ==> p.windows[k].count >= 1 && p.windows[k].firstOffset >= 0
  }

  function MinuteStart(t: int): int {
    t / MINUTE_MS * MINUTE_MS
  }

  lemma MinuteStartMonotone(a: int, b: int)
    requires a <= b
    ensures MinuteStart(a) <= MinuteStart(b)
  {
    assert a / MINUTE_MS <= b / MINUTE_MS;
  }

  function CutoffAt(cfg: Config, watermark: int): int {
    MinuteStart(watermark - cfg.latenessMs)
  }

  function Cutoff(cfg: Config, p: Part): int {
    CutoffAt(cfg, p.watermark)
  }

  // ---- One edit -------------------------------------------------------------

  function Arrive(p: Part, offset: int, t: int): Part {
    p.(lastOffset := Max(p.lastOffset, offset), watermark := Max(p.watermark, t))
  }

  predicate TooLate(cfg: Config, p: Part, key: WindowKey) {
    key.minute < Cutoff(cfg, p) || (key.minute in p.flushed && key !in p.windows)
  }

  function Open(p: Part, key: WindowKey): Window {
    if key in p.windows then p.windows[key] else NEW_WINDOW
  }

  function Counted(p: Part, key: WindowKey, offset: int): Part {
    p.(windows := p.windows[key := Open(p, key).Add(offset)])
  }

  /** The state after one edit, before the cap on open windows is looked at. */
  function BeforeCap(cfg: Config, p: Part, offset: int, wiki: string, title: string, t: int): Part {
    var arrived := Arrive(p, offset, t);
    var key := WindowKey(wiki, title, MinuteStart(t));
    if TooLate(cfg, arrived, key) then arrived else Counted(arrived, key, offset)
  }

  predicate Accepted(cfg: Config, p: Part, offset: int, wiki: string, title: string, t: int) {
    !TooLate(cfg, Arrive(p, offset, t), WindowKey(wiki, title, MinuteStart(t)))
  }

  /**
   An edit at t is refused exactly when its minute is before the minute that lies the
   allowance behind the latest time seen, or when that page minute is already written. If it
   is not, it adds one to the page minute that contains t, and to no other.
   */
  lemma EditIsCountedIff(cfg: Config, p: Part, offset: nat, wiki: string, title: string, t: int)
    requires WellFormed(p)
    ensures var latest, minute := if p.watermark > t then p.watermark else t, t - t % 60_000;
            var key := WindowKey(wiki, title, minute);
            var late := t / 60_000 < (latest - cfg.latenessMs) / 60_000;
            var refused := late || (minute in p.flushed && key !in p.windows);
            && (Accepted(cfg, p, offset, wiki, title, t) <==> !refused)
            && var after := BeforeCap(cfg, p, offset, wiki, title, t);
            && CountsOneMore(p.windows, after.windows, key, offset, !refused)
            && after.watermark == latest && after.lastOffset == (if p.lastOffset > offset then p.lastOffset else offset)
            && after.flushed == p.flushed && after.partialFloor == p.partialFloor
  {
    var latest := Max(p.watermark, t);
    MinutesCompare(t, latest - cfg.latenessMs);
    assert MinuteStart(t) == t - t % 60_000;
  }

  /** after is before with one more edit of key, or before itself if the edit is not counted. */
  ghost predicate CountsOneMore(
    before: map<WindowKey, Window>, after: map<WindowKey, Window>, key: WindowKey, offset: int, counted: bool)
  {
    if !counted then after == before
    else if key in before then
      && after.Keys == before.Keys && (forall k :: k in before && k != key ==> after[k] == before[k])
      && after[key].count == before[key].count + 1
      && (offset >= before[key].firstOffset ==> after[key].firstOffset == before[key].firstOffset)
    else
      && after.Keys == before.Keys + {key} && (forall k :: k in before ==> after[k] == before[k])
      && after[key].count == 1 && after[key].firstOffset == offset
  }

  lemma MinutesCompare(a: int, b: int)
    ensures MinuteStart(a) < MinuteStart(b) <==> a / 60_000 < b / 60_000
    ensures MinuteStart(a) <= a < MinuteStart(a) + 60_000 && MinuteStart(a) % 60_000 == 0
  {
  }

  // ---- The cap --------------------------------------------------------------

  function Minutes(windows: map<WindowKey, Window>): set<int> {
    set k | k in windows :: k.minute
  }

  function Without(windows: map<WindowKey, Window>, minute: int): map<WindowKey, Window> {
    map k | k in windows && k.minute != minute :: windows[k]
  }

  lemma WithoutShrinks(windows: map<WindowKey, Window>, minute: int)
    requires minute in Minutes(windows)
    ensures |Without(windows, minute)| < |windows|
  {
    var k :| k in windows && k.minute == minute;
    var rest := Without(windows, minute);
    assert rest.Keys < windows.Keys;
    StrictSubsetSmaller(rest.Keys, windows.Keys);
    assert |rest.Keys| == |rest| && |windows.Keys| == |windows|;
  }

  lemma StrictSubsetSmaller<T>(a: set<T>, b: set<T>)
    requires a < b
    ensures |a| < |b|
  {
    assert |b - a| + |a| == |b| by { assert (b - a) + a == b; }
    assert b - a != {};
  }

  lemma HasMinute(windows: map<WindowKey, Window>)
    requires |windows| > 0
    ensures Minutes(windows) != {}
  {
    assert |windows.Keys| == |windows|;
    var k :| k in windows.Keys;
    assert k.minute in Minutes(windows);
  }

  /** Whole minutes are forced out, oldest first, until the windows fit. */
  ghost function Capped(maxWindows: nat, p: Part): (r: Part)
    ensures |r.windows| <= maxWindows
    decreases |p.windows|
  {
    if |p.windows| <= maxWindows then p
    else
      HasMinute(p.windows);
      var oldest := LeastOf(Minutes(p.windows));
      WithoutShrinks(p.windows, oldest);
      Capped(maxWindows, p.(windows := Without(p.windows, oldest), flushed := p.flushed + {oldest}))
  }

  ghost function Added(cfg: Config, p: Part, offset: int, wiki: string, title: string, t: int): Part {
    if Accepted(cfg, p, offset, wiki, title, t)
    then Capped(cfg.maxWindows, BeforeCap(cfg, p, offset, wiki, title, t))
    else BeforeCap(cfg, p, offset, wiki, title, t)
  }

  function KeepFrom(p: Part, cut: int): Part {
    p.(windows := map k | k in p.windows && k.minute >= cut :: p.windows[k],
       flushed := p.flushed + (set k | k in p.windows && k.minute < cut :: k.minute))
  }

  /** To keep any older minute than those from cut on is to keep more windows than the cap allows. */
  ghost predicate KeepsMost(maxWindows: nat, p: Part, cut: int) {
    forall c :: c < cut && KeepFrom(p, c).windows != KeepFrom(p, cut).windows ==>
      |KeepFrom(p, c).windows| > maxWindows
  }

  /** The cap keeps exactly the newest minutes, as many as fit, unchanged, and remembers every minute it forced out. */
  lemma {:induction false} CapKeepsNewestMinutes(maxWindows: nat, p: Part) returns (cut: int)
    ensures Capped(maxWindows, p) == KeepFrom(p, cut) && KeepsMost(maxWindows, p, cut)
    decreases |p.windows|
  {
    if p.windows == map[] {
      cut := 0;
      assert KeepFrom(p, cut) == p;
    } else {
      FirstsNonEmpty(p.windows);
      HasMinute(p.windows);
      var oldest := LeastOf(Minutes(p.windows));
      assert forall k :: k in p.windows ==> k.minute in Minutes(p.windows);
      if |p.windows| <= maxWindows {
        cut := oldest;
        assert forall c :: c <= oldest ==> KeepFrom(p, c).windows == p.windows;
        assert KeepFrom(p, cut) == p;
      } else {
        WithoutShrinks(p.windows, oldest);
        var smaller := p.(windows := Without(p.windows, oldest), flushed := p.flushed + {oldest});
        cut := CapKeepsNewestMinutes(maxWindows, smaller);
        KeepFromStep(p, smaller, oldest, cut);
        KeepsMostStep(maxWindows, p, smaller, oldest, cut);
        cut := Max(cut, oldest + 1);
      }
    }
  }

  lemma KeepsMostStep(maxWindows: nat, p: Part, smaller: Part, oldest: int, cut: int)
    requires oldest in Minutes(p.windows) && forall m :: m in Minutes(p.windows) ==> oldest <= m
    requires smaller == p.(windows := Without(p.windows, oldest), flushed := p.flushed + {oldest})
    requires |p.windows| > maxWindows && KeepsMost(maxWindows, smaller, cut)
    ensures KeepsMost(maxWindows, p, Max(cut, oldest + 1))
  {
    var next := Max(cut, oldest + 1);
    KeepsAlike(p, smaller, oldest, next);
    assert forall k :: k in p.windows ==> k.minute in Minutes(p.windows);
    if cut <= oldest {
      KeepsAllFrom(smaller, oldest + 1, cut);
    }
    forall c | c < next && KeepFrom(p, c).windows != KeepFrom(p, next).windows
      ensures |KeepFrom(p, c).windows| > maxWindows
    {
      KeepsAlike(p, smaller, oldest, c);
    }
  }

  lemma KeepsAlike(p: Part, smaller: Part, oldest: int, c: int)
    requires forall m :: m in Minutes(p.windows) ==> oldest <= m
    requires smaller.windows == Without(p.windows, oldest)
    ensures KeepFrom(p, c).windows == if c <= oldest then p.windows else KeepFrom(smaller, c).windows
  {
    assert forall k :: k in p.windows ==> k.minute in Minutes(p.windows);
  }

  lemma KeepsAllFrom(p: Part, oldest: int, c: int)
    requires c <= oldest && forall k :: k in p.windows ==> k.minute >= oldest
    ensures KeepFrom(p, c).windows == KeepFrom(p, oldest).windows == p.windows
  {
  }

  lemma KeepFromStep(p: Part, smaller: Part, oldest: int, cut: int)
    requires oldest in Minutes(p.windows) && forall m :: m in Minutes(p.windows) ==> oldest <= m
    requires smaller == p.(windows := Without(p.windows, oldest), flushed := p.flushed + {oldest})
    ensures KeepFrom(smaller, cut) == KeepFrom(p, Max(cut, oldest + 1))
  {
    assert forall k :: k in p.windows ==> k.minute in Minutes(p.windows);
    var a, b := KeepFrom(smaller, cut), KeepFrom(p, Max(cut, oldest + 1));
    assert a.windows == b.windows;
    assert a.flushed <= b.flushed;
    forall m | m in b.flushed
      ensures m in a.flushed
    {
      if m !in p.flushed && m != oldest {
        var k :| k in p.windows && k.minute < Max(cut, oldest + 1) && k.minute == m;
        assert k in smaller.windows && k.minute < cut;
      }
    }
  }

  // ---- Flushing -------------------------------------------------------------

  function Done(cfg: Config, p: Part, final: bool): set<WindowKey> {
    set k | k in p.windows && (final || k.minute < Cutoff(cfg, p))
  }

  function Rows(cfg: Config, p: Part, final: bool): map<WindowKey, nat> {
    map k | k in Done(cfg, p, final) :: p.windows[k].count
  }

  /** First offsets of the given windows whose minute is still open. */
  function OpenFirsts(cfg: Config, p: Part, keys: set<WindowKey>): set<int> {
    set k | k in keys && k in p.windows && k.minute >= Cutoff(cfg, p) :: p.windows[k].firstOffset
  }

  ghost function LowerFloor(floor: int, offsets: set<int>): int {
    if offsets == {} then floor
    else if floor < 0 then LeastOf(offsets)
    else Min(floor, LeastOf(offsets))
  }

  /** The state once the windows in done are popped, before old minutes are forgotten. */
  ghost function PoppedKeys(cfg: Config, p: Part, final: bool, done: set<WindowKey>): Part {
    p.(windows := p.windows - done,
       flushed := p.flushed + (set k | k in done :: k.minute),
       partialFloor := if final then LowerFloor(p.partialFloor, OpenFirsts(cfg, p, done)) else p.partialFloor)
  }

  ghost function Popped(cfg: Config, p: Part, final: bool): Part {
    var popped := PoppedKeys(cfg, p, final, Done(cfg, p, final));
    popped.(flushed := set m | m in popped.flushed && m >= Cutoff(cfg, p))
  }

  /** A final flush writes every window and leaves none; any flush forgets the minutes that are refused as late. */
  lemma FlushForgetsFinished(cfg: Config, p: Part, final: bool)
    ensures Rows(cfg, p, true).Keys == p.windows.Keys && Popped(cfg, p, true).windows == map[]
    ensures Popped(cfg, p, final).windows.Keys == p.windows.Keys - Rows(cfg, p, final).Keys
    ensures forall m :: m in Popped(cfg, p, final).flushed <==>
                          && (m in p.flushed || exists k :: k in Rows(cfg, p, final) && k.minute == m)
                          && m >= (p.watermark - cfg.latenessMs) / 60_000 * 60_000
  {
    assert Rows(cfg, p, true).Keys == p.windows.Keys;
    assert Rows(cfg, p, final).Keys == Done(cfg, p, final);
    assert Cutoff(cfg, p) == (p.watermark - cfg.latenessMs) / 60_000 * 60_000;
  }

  // ---- Committing -----------------------------------------------------------

  function Firsts(windows: map<WindowKey, Window>): set<int> {
    set k | k in windows :: windows[k].firstOffset
  }

  lemma FirstsNonEmpty(windows: map<WindowKey, Window>)
    requires windows != map[]
    ensures Firsts(windows) != {}
  {
    assert windows.Keys != {};
    var k :| k in windows.Keys;
    assert windows[k].firstOffset in Firsts(windows);
  }

  ghost function CommitPoint(p: Part): Option<int> {
    if p.windows == map[] && p.lastOffset < 0 then None
    else
      var offset := if p.windows != map[] then FirstsNonEmpty(p.windows); LeastOf(Firsts(p.windows))
                    else p.lastOffset + 1;
      Some(if p.partialFloor >= 0 then Min(offset, p.partialFloor) else offset)
  }

  /**
   The offset to commit is the oldest one still needed: the first offset of an open window,
   or what a final flush cut short, or else the offset after the last edit.
   */
  lemma CommitIsOldestNeeded(p: Part)
    ensures CommitPoint(p).None? <==> p.windows == map[] && p.lastOffset < 0
    ensures CommitPoint(p).Some? ==>
              var v := CommitPoint(p).value;
              && (forall k :: k in p.windows ==> v <= p.windows[k].firstOffset)
              && (p.partialFloor >= 0 ==> v <= p.partialFloor) && (p.windows == map[] ==> v <= p.lastOffset + 1)
              && (|| (exists k :: k in p.windows && v == p.windows[k].firstOffset)
                  || v == p.partialFloor >= 0
                  || (p.windows == map[] && v == p.lastOffset + 1))
  {
    if p.windows != map[] {
      FirstsNonEmpty(p.windows);
      assert forall k :: k in p.windows ==> p.windows[k].firstOffset in Firsts(p.windows);
    }
  }

  // ---- The class ------------------------------------------------------------

  /** The least first offset of some open windows, found by looking at each of them. */
  method OldestOffset(windows: map<WindowKey, Window>) returns (oldest: int)
    requires windows != map[]
    ensures Firsts(windows) != {} && oldest == LeastOf(Firsts(windows))
  {
    FirstsNonEmpty(windows);
    var todo := windows.Keys;
    var k :| k in todo;
    oldest := windows[k].firstOffset;
    todo := todo - {k};
    while todo != {}
      invariant todo <= windows.Keys
      invariant oldest in Firsts(windows)
      invariant forall x :: x in windows && x !in todo ==> oldest <= windows[x].firstOffset
      decreases |todo|
    {
      k :| k in todo;
      oldest := Min(oldest, windows[k].firstOffset);
      todo := todo - {k};
    }
  }

  /** The oldest minute with an open window. */
  method OldestMinute(windows: map<WindowKey, Window>) returns (oldest: int)
    requires windows != map[]
    ensures Minutes(windows) != {} && oldest == LeastOf(Minutes(windows))
  {
    assert windows.Keys != {};
    var todo := windows.Keys;
    var k :| k in todo;
    oldest := k.minute;
    todo := todo - {k};
    while todo != {}
      invariant todo <= windows.Keys
      invariant oldest in Minutes(windows)
      invariant forall x :: x in windows && x !in todo ==> oldest <= x.minute
      decreases |todo|
    {
      k :| k in todo;
      oldest := Min(oldest, k.minute);
      todo := todo - {k};
    }
  }

  class MinuteWindows {
    const cfg: Config
    var partitions: map<nat, Part>
    var lateEvents: nat
    var counted: nat

    /** Every open window holds at least one edit and knows its first offset. */
    ghost predicate Valid()
      reads this
    {
      forall p :: p in partitions ==> WellFormed(partitions[p])
    }

    constructor (latenessMs: int, maxWindows: nat)
      ensures Valid() && partitions == map[] && cfg == Config(latenessMs, maxWindows)
      ensures lateEvents == counted == 0
    {
      cfg := Config(latenessMs, maxWindows);
      partitions, lateEvents, counted := map[], 0, 0;
    }

    /** The state of a partition, empty before its first edit. */
    function State(partition: nat): Part
      reads this
    {
      if partition in partitions then partitions[partition] else EMPTY_PART
    }

    /** One edit in place: counted in its page minute, or turned away as late. */
    method Add(partition: nat, offset: nat, wiki: string, title: string, eventTimeMs: int) returns (ok: bool)
      requires Valid()
      modifies this
      ensures Valid()
      ensures ok == Accepted(cfg, old(State(partition)), offset, wiki, title, eventTimeMs)
      ensures partitions ==
              old(partitions)[partition := Added(cfg, old(State(partition)), offset, wiki, title, eventTimeMs)]
      ensures counted == old(counted) + (if ok then 1 else 0)
      ensures lateEvents == old(lateEvents) + (if ok then 0 else 1)
    {
      var state;
      state, ok := AddTo(State(partition), offset, wiki, title, eventTimeMs);
      if ok {
        counted := counted + 1;
      } else {
        lateEvents := lateEvents + 1;
      }
      partitions := partitions[partition := state];
    }

    method AddTo(before: Part, offset: nat, wiki: string, title: string, eventTimeMs: int)
      returns (state: Part, ok: bool)
      requires WellFormed(before)
      ensures WellFormed(state)
      ensures ok == Accepted(cfg, before, offset, wiki, title, eventTimeMs)
      ensures state == Added(cfg, before, offset, wiki, title, eventTimeMs)
    {
      state := before.(
        lastOffset := Max(before.lastOffset, offset), watermark := Max(before.watermark, eventTimeMs));
      assert state == Arrive(before, offset, eventTimeMs);
      var minute := MinuteStart(eventTimeMs);
      var key := WindowKey(wiki, title, minute);
      var alreadyWritten := minute in state.flushed && key !in state.windows;
      if minute < MinuteStart(state.watermark - cfg.latenessMs) || alreadyWritten {
        return state, false;
      }
      var window := if key in state.windows then state.windows[key] else NEW_WINDOW;
      state := state.(windows := state.windows[key := window.Add(offset)]);
      assert state == BeforeCap(cfg, before, offset, wiki, title, eventTimeMs);
      state := EnforceCap(state);
      return state, true;
    }

    /** Force out the oldest minutes until the partition's windows fit the cap. */
    method EnforceCap(before: Part) returns (state: Part)
      requires WellFormed(before)
      ensures state == Capped(cfg.maxWindows, before)
      ensures WellFormed(state)
    {
      state := before;
      while |state.windows| > cfg.maxWindows
        invariant Capped(cfg.maxWindows, state) == Capped(cfg.maxWindows, before)
        invariant WellFormed(state)
        decreases |state.windows|
      {
        HasMinute(state.windows);
        var oldest := OldestMinute(state.windows);
        WithoutShrinks(state.windows, oldest);
        state := state.(
          windows := map k | k in state.windows && k.minute != oldest :: state.windows[k],
          flushed := state.flushed + {oldest});
      }
    }

    /** Remove the finished windows of every partition (all windows when final) and return them. */
    method PopClosed(final: bool) returns (closed: seq<ClosedWindow>)
      requires Valid()
      modifies this`partitions
      ensures Valid()
      ensures partitions == map p | p in old(partitions) :: Popped(cfg, old(partitions)[p], final)
      ensures forall row :: row in closed <==>
                exists p :: p in old(partitions) && IsRow(row, Rows(cfg, old(partitions)[p], final))
      ensures AreRowsOf(closed, cfg, old(partitions), old(partitions).Keys, final)
    {
      closed := [];
      var todo := partitions.Keys;
      ghost var before := partitions;
      NoneArePopped(cfg, before, final);
      while todo != {}
        invariant Valid() && ArePopped(cfg, before, todo, final, partitions, closed)
        decreases |todo|
      {
        ghost var some := Member(todo);
        var p :| p in todo;
        StillThere(cfg, before, todo, final, partitions, closed, p);
        var state, rows := PopPartition(partitions[p], final);
        OneMoreIsPopped(cfg, before, todo, final, partitions, closed, p, rows);
        closed, todo := closed + rows, todo - {p};
        partitions := partitions[p := state];
      }
      AllArePopped(cfg, before, final, partitions, closed);
    }

    method PopPartition(before: Part, final: bool) returns (state: Part, closed: seq<ClosedWindow>)
      requires WellFormed(before)
      ensures WellFormed(state)
      ensures state == Popped(cfg, before, final)
      ensures |closed| == |Rows(cfg, before, final)|
      ensures forall row :: multiset(closed)[row] == if IsRow(row, Rows(cfg, before, final)) then 1 else 0
    {
      state := before;
      var cutoff := Cutoff(cfg, state);
      var todo := set k | k in state.windows && (final || k.minute < cutoff);
      closed := [];
      NothingIsPopped(cfg, before, final);
      while todo != {}
        invariant IsPopped(cfg, before, todo, final, state, closed)
        decreases |todo|
      {
        var key :| key in todo;
        StillOpen(cfg, before, todo, final, state, closed, key);
        var count, partial := state.windows[key].count, final && key.minute >= cutoff;
        OneMoreKey(cfg, before, todo, final, state, closed, key);
        closed := closed + [ClosedWindow(key, count)];
        state := PopOne(state, key, partial);
        todo := todo - {key};
      }
      EverythingIsPopped(cfg, before, final, state, closed);
      state := state.(flushed := set m | m in state.flushed && m >= cutoff);
    }

    /** The commit point of every partition that has one. */
    method CommitOffsets() returns (offsets: map<nat, int>)
      requires Valid()
      ensures forall p :: p in offsets <==> p in partitions && CommitPoint(partitions[p]).Some?
      ensures forall p :: p in offsets ==> Some(offsets[p]) == CommitPoint(partitions[p])
    {
      offsets := map[];
      var todo := partitions.Keys;
      while todo != {}
        invariant todo <= partitions.Keys
        invariant forall p :: p in offsets <==> p in partitions && p !in todo && CommitPoint(partitions[p]).Some?
        invariant forall p :: p in offsets ==> Some(offsets[p]) == CommitPoint(partitions[p])
        decreases |todo|
      {
        ghost var some := Member(todo);
        var p :| p in todo;
        todo := todo - {p};
        var offset := CommitOffset(partitions[p]);
        if offset.Some? {
          offsets := offsets[p := offset.value];
        }
      }
    }

    method CommitOffset(state: Part) returns (r: Option<int>)
      ensures r == CommitPoint(state)
    {
      if |state.windows| == 0 && state.lastOffset < 0 {
        return None;
      }
      var offset := state.lastOffset + 1;
      if |state.windows| > 0 {
        offset := OldestOffset(state.windows);
      }
      return Some(if state.partialFloor >= 0 then Min(offset, state.partialFloor) else offset);
    }

    /** Forget the given partitions. */
    method Revoke(revoked: set<nat>)
      requires Valid()
      modifies this`partitions
      ensures Valid() && partitions == old(partitions) - revoked
    {
      partitions := partitions - revoked;
    }
  }

  ghost predicate IsRow(row: ClosedWindow, rows: map<WindowKey, nat>) {
    row.key in rows && rows[row.key] == row.count
  }

  /** closed holds one row for each of the given windows. */
  ghost predicate AreRows(closed: seq<ClosedWindow>, windows: map<WindowKey, Window>, done: set<WindowKey>) {
    forall row ::
      multiset(closed)[row] ==
      if row.key in done && row.key in windows && windows[row.key].count == row.count then 1 else 0
  }

  /** The given partitions whose popped windows give this row. */
  ghost function Having(
    cfg: Config, partitions: map<nat, Part>, parts: set<nat>, final: bool, row: ClosedWindow): set<nat>
  {
    set p | p in parts && p in partitions && IsRow(row, Rows(cfg, partitions[p], final))
  }

  /** closed holds exactly the popped windows of the given partitions, one row for each. */
  ghost predicate AreRowsOf(
    closed: seq<ClosedWindow>, cfg: Config, partitions: map<nat, Part>, parts: set<nat>, final: bool)
  {
    forall row :: multiset(closed)[row] == |Having(cfg, partitions, parts, final, row)|
  }

  /** The finished windows but those in todo have been taken out of a partition, one row for each. */
  ghost predicate IsPopped(
    cfg: Config, before: Part, todo: set<WindowKey>, final: bool, state: Part, closed: seq<ClosedWindow>)
  {
    var done := Done(cfg, before, final) - todo;
    && todo <= Done(cfg, before, final) && state == PoppedKeys(cfg, before, final, done)
    && |closed| == |done| && AreRows(closed, before.windows, done)
  }

  lemma NothingIsPopped(cfg: Config, before: Part, final: bool)
    ensures IsPopped(cfg, before, Done(cfg, before, final), final, before, [])
  {
    var done := Done(cfg, before, final) - Done(cfg, before, final);
    assert done == {};
    assert PoppedKeys(cfg, before, final, {}).windows == before.windows;
  }

  lemma StillOpen(
    cfg: Config, before: Part, todo: set<WindowKey>, final: bool, state: Part, closed: seq<ClosedWindow>,
    key: WindowKey)
    requires IsPopped(cfg, before, todo, final, state, closed) && key in todo
    ensures key in state.windows && state.windows[key] == before.windows[key]
  {
  }

  lemma OneMoreKey(
    cfg: Config, before: Part, todo: set<WindowKey>, final: bool, state: Part, closed: seq<ClosedWindow>,
    key: WindowKey)
    requires WellFormed(before) && IsPopped(cfg, before, todo, final, state, closed) && key in todo
    requires key in state.windows
    ensures IsPopped(cfg, before, todo - {key}, final,
                     PopOne(state, key, final && key.minute >= Cutoff(cfg, before)),
                     closed + [ClosedWindow(key, state.windows[key].count)])
  {
    var all := Done(cfg, before, final);
    var done := all - todo;
    assert all - (todo - {key}) == done + {key};
    PopStep(cfg, before, final, done, key);
    RowsStep(closed, before.windows, done, key);
  }

  lemma EverythingIsPopped(cfg: Config, before: Part, final: bool, state: Part, closed: seq<ClosedWindow>)
    requires WellFormed(before) && IsPopped(cfg, before, {}, final, state, closed)
    ensures WellFormed(state) && |closed| == |Rows(cfg, before, final)|
    ensures state == PoppedKeys(cfg, before, final, Done(cfg, before, final))
    ensures forall row :: multiset(closed)[row] == if IsRow(row, Rows(cfg, before, final)) then 1 else 0
  {
    assert Done(cfg, before, final) - {} == Done(cfg, before, final) == Rows(cfg, before, final).Keys;
  }

  /** All partitions but those in todo have been popped, with their rows. */
  ghost predicate ArePopped(
    cfg: Config, before: map<nat, Part>, todo: set<nat>, final: bool, partitions: map<nat, Part>,
    closed: seq<ClosedWindow>)
  {
    && todo <= before.Keys
    && partitions.Keys == before.Keys
    && (forall p :: p in before ==> partitions[p] == if p in todo then before[p] else Popped(cfg, before[p], final))
    && AreRowsOf(closed, cfg, before, before.Keys - todo, final)
  }

  lemma NoneArePopped(cfg: Config, before: map<nat, Part>, final: bool)
    ensures ArePopped(cfg, before, before.Keys, final, before, [])
  {
    assert before.Keys - before.Keys == {};
  }

  lemma StillThere(
    cfg: Config, before: map<nat, Part>, todo: set<nat>, final: bool, partitions: map<nat, Part>,
    closed: seq<ClosedWindow>, p: nat)
    requires ArePopped(cfg, before, todo, final, partitions, closed) && p in todo
    ensures p in before && p in partitions && partitions[p] == before[p]
  {
  }

  lemma OneMoreIsPopped(
    cfg: Config, before: map<nat, Part>, todo: set<nat>, final: bool, partitions: map<nat, Part>,
    closed: seq<ClosedWindow>, p: nat, rows: seq<ClosedWindow>)
    requires ArePopped(cfg, before, todo, final, partitions, closed) && p in todo
    requires forall row :: multiset(rows)[row] == if IsRow(row, Rows(cfg, before[p], final)) then 1 else 0
    ensures ArePopped(cfg, before, todo - {p}, final, partitions[p := Popped(cfg, before[p], final)], closed + rows)
  {
    RowsOfOneMore(closed, rows, cfg, before, before.Keys - todo, p, final);
    assert before.Keys - (todo - {p}) == before.Keys - todo + {p};
  }

  lemma AllArePopped(
    cfg: Config, before: map<nat, Part>, final: bool, partitions: map<nat, Part>, closed: seq<ClosedWindow>)
    requires ArePopped(cfg, before, {}, final, partitions, closed)
    ensures partitions == map p | p in before :: Popped(cfg, before[p], final)
    ensures forall row :: row in closed <==> exists p :: p in before && IsRow(row, Rows(cfg, before[p], final))
    ensures AreRowsOf(closed, cfg, before, before.Keys, final)
  {
    assert before.Keys - {} == before.Keys;
    forall row
      ensures row in closed <==> exists p :: p in before && IsRow(row, Rows(cfg, before[p], final))
    {
      var having := Having(cfg, before, before.Keys, final, row);
      assert row in closed <==> |having| > 0;
      assert |having| > 0 <==> having != {};
      if p :| p in before && IsRow(row, Rows(cfg, before[p], final)) {
        assert p in having;
      }
      if having != {} {
        var p :| p in having;
      }
    }
  }

  lemma RowsOfOneMore(
    closed: seq<ClosedWindow>, rows: seq<ClosedWindow>, cfg: Config, partitions: map<nat, Part>, parts: set<nat>,
    p: nat, final: bool)
    requires AreRowsOf(closed, cfg, partitions, parts, final) && p in partitions && p !in parts
    requires forall row :: multiset(rows)[row] == if IsRow(row, Rows(cfg, partitions[p], final)) then 1 else 0
    ensures AreRowsOf(closed + rows, cfg, partitions, parts + {p}, final)
  {
    assert multiset(closed + rows) == multiset(closed) + multiset(rows);
    forall row
      ensures multiset(closed + rows)[row] == |Having(cfg, partitions, parts + {p}, final, row)|
    {
      HavingOneMore(cfg, partitions, parts, p, final, row);
    }
  }

  lemma HavingOneMore(
    cfg: Config, partitions: map<nat, Part>, parts: set<nat>, p: nat, final: bool, row: ClosedWindow)
    requires p in partitions && p !in parts
    ensures |Having(cfg, partitions, parts + {p}, final, row)| ==
            |Having(cfg, partitions, parts, final, row)| +
            if IsRow(row, Rows(cfg, partitions[p], final)) then 1 else 0
  {
    var before, after := Having(cfg, partitions, parts, final, row), Having(cfg, partitions, parts + {p}, final, row);
    if IsRow(row, Rows(cfg, partitions[p], final)) {
      assert after == before + {p};
    } else {
      assert after == before;
    }
  }

  lemma RowsStep(closed: seq<ClosedWindow>, windows: map<WindowKey, Window>, done: set<WindowKey>, key: WindowKey)
    requires AreRows(closed, windows, done) && key in windows && key !in done
    ensures AreRows(closed + [ClosedWindow(key, windows[key].count)], windows, done + {key})
  {
    var longer := closed + [ClosedWindow(key, windows[key].count)];
    assert multiset(longer) == multiset(closed) + multiset{ClosedWindow(key, windows[key].count)};
  }

  /** Take out one window; if it is written while still open, the floor drops to its first offset. */
  function PopOne(p: Part, key: WindowKey, partial: bool): Part
    requires key in p.windows
  {
    var first := p.windows[key].firstOffset;
    p.(windows := p.windows - {key},
       flushed := p.flushed + {key.minute},
       partialFloor :=
         if !partial then p.partialFloor else if p.partialFloor < 0 then first else Min(p.partialFloor, first))
  }

  lemma PopStep(cfg: Config, p: Part, final: bool, done: set<WindowKey>, key: WindowKey)
    requires WellFormed(p) && key in p.windows && key !in done
    ensures key in PoppedKeys(cfg, p, final, done).windows
    ensures PoppedKeys(cfg, p, final, done).windows[key] == p.windows[key]
    ensures PoppedKeys(cfg, p, final, done + {key}) ==
            PopOne(PoppedKeys(cfg, p, final, done), key, final && key.minute >= Cutoff(cfg, p))
  {
    var before, after := OpenFirsts(cfg, p, done), OpenFirsts(cfg, p, done + {key});
    if key.minute < Cutoff(cfg, p) {
      assert after == before;
    } else {
      assert after == before + {p.windows[key].firstOffset};
    }
    assert p.windows - (done + {key}) == (p.windows - done) - {key};
    assert (set k | k in done + {key} :: k.minute) == (set k | k in done :: k.minute) + {key.minute};
  }
}

