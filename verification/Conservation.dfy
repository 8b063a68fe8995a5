/** Where counted edits go when the cap on open windows is reached (processors/windows.py). */
module Conservation {
  import opened Common
  import opened Windows
  import opened Trending

  // Every edit a reader counts is written, still open, or was forced out, and a page minute
  // is never in two of these places.

  /** A reader with what it has counted and what the cap has forced out of it, per page minute. */
  datatype Ledger = Ledger(reader: Reader, counted: map<WindowKey, nat>, forced: map<WindowKey, nat>)

  datatype Event = ReadNext | PopRows(final: bool)

  function OpenCount(r: Reader, key: WindowKey): nat {
    if key in r.part.windows then r.part.windows[key].count else 0
  }

  /** The windows the cap deletes when the next record is read. */
  ghost function ForcedNow(cfg: Config, log: Log, r: Reader): map<WindowKey, nat>
    requires r.pos < |log|
  {
    var before, after := Uncapped(cfg, log, r).part.windows, AfterRead(cfg, log, r).part.windows;
    map k | k in before && k !in after :: before[k].count
  }

  ghost predicate CountsNext(cfg: Config, log: Log, r: Reader)
    requires r.pos < |log|
  {
    var e := log[r.pos];
    e.Edit? && Accepted(cfg, r.part, r.pos, e.wiki, e.title, e.time)
  }

  function Sum(a: map<WindowKey, nat>, b: map<WindowKey, nat>): map<WindowKey, nat> {
    map k | k in a.Keys + b.Keys :: Stored(a, k) + Stored(b, k)
  }

  ghost function Kept(cfg: Config, log: Log, l: Ledger, event: Event): Ledger {
    match event
    case ReadNext =>
      if l.reader.pos >= |log| then l
      else
        var key := if CountsNext(cfg, log, l.reader) then map[KeyOf(log[l.reader.pos]) := 1] else map[];
        Ledger(AfterRead(cfg, log, l.reader), Sum(l.counted, key), Sum(l.forced, ForcedNow(cfg, log, l.reader)))
    case PopRows(final) => l.(reader := AfterPop(cfg, l.reader, final))
  }

  ghost function KeptAll(cfg: Config, log: Log, start: nat, events: seq<Event>): Ledger {
    if events == [] then Ledger(Reader(start, start, EMPTY_PART, map[], false), map[], map[])
    else Kept(cfg, log, KeptAll(cfg, log, start, events[..|events| - 1]), events[|events| - 1])
  }

  /** Counted is written plus open plus forced out. */
  ghost predicate Balanced(l: Ledger, key: WindowKey) {
    Stored(l.counted, key) == Stored(l.reader.emitted, key) + OpenCount(l.reader, key) + Stored(l.forced, key)
  }

  /** A page minute that was forced out is not open, was not written, and takes no further edit. */
  ghost predicate Gone(cfg: Config, l: Ledger, key: WindowKey) {
    key !in l.reader.part.windows && key !in l.reader.emitted && Rejects(cfg, l.reader.part, key)
  }

  ghost predicate LedgerOk(cfg: Config, log: Log, l: Ledger) {
    && ReaderOk(cfg, log, l.reader)
    && (forall key :: Balanced(l, key))
    && (forall key :: key in l.forced ==> Gone(cfg, l, key))
  }

  /** The cap only deletes windows, and forgets neither minutes nor the watermark. */
  lemma CapOnlyDeletes(cfg: Config, log: Log, r: Reader)
    requires r.pos < |log|
    ensures var u, p := Uncapped(cfg, log, r).part, AfterRead(cfg, log, r).part;
            && (forall k :: k in p.windows ==> k in u.windows && u.windows[k] == p.windows[k])
            && u.flushed <= p.flushed && u.watermark == p.watermark
  {
    CappedShrinks(cfg.maxWindows, Uncapped(cfg, log, r).part);
  }

  /** Before the cap is looked at, reading opens or grows one window if the record counts. */
  lemma ReadOpens(cfg: Config, log: Log, r: Reader, key: WindowKey)
    requires r.pos < |log|
    ensures OpenCount(Uncapped(cfg, log, r), key) ==
            OpenCount(r, key) + if CountsNext(cfg, log, r) && key == KeyOf(log[r.pos]) then 1 else 0
    ensures Uncapped(cfg, log, r).emitted == r.emitted == AfterRead(cfg, log, r).emitted
  {
  }

  lemma ReadBalances(cfg: Config, log: Log, l: Ledger, key: WindowKey)
    requires l.reader.pos < |log| && Balanced(l, key)
    ensures Balanced(Kept(cfg, log, l, ReadNext), key)
  {
    CapOnlyDeletes(cfg, log, l.reader);
    ReadOpens(cfg, log, l.reader, key);
    assert OpenCount(Uncapped(cfg, log, l.reader), key) ==
           OpenCount(AfterRead(cfg, log, l.reader), key) + Stored(ForcedNow(cfg, log, l.reader), key);
  }

  /** An edit of a minute that rejects it is not counted, and the minute goes on rejecting. */
  lemma RejectedStaysOut(cfg: Config, log: Log, r: Reader, key: WindowKey)
    requires r.pos < |log| && key !in r.part.windows && Rejects(cfg, r.part, key)
    ensures key !in Uncapped(cfg, log, r).part.windows && Rejects(cfg, Uncapped(cfg, log, r).part, key)
  {
    var u := Uncapped(cfg, log, r).part;
    MinuteStartMonotone(r.part.watermark - cfg.latenessMs, u.watermark - cfg.latenessMs);
  }

  lemma ReadKeepsGone(cfg: Config, log: Log, l: Ledger, key: WindowKey)
    requires l.reader.pos < |log| && Gone(cfg, l, key)
    ensures Gone(cfg, Kept(cfg, log, l, ReadNext), key)
  {
    RejectedStaysOut(cfg, log, l.reader, key);
    CapOnlyDeletes(cfg, log, l.reader);
    ReadOpens(cfg, log, l.reader, key);
  }

  /** What the cap deletes now is gone for good. */
  lemma ForcedIsGone(cfg: Config, log: Log, l: Ledger, key: WindowKey)
    requires ReaderOk(cfg, log, l.reader) && l.reader.pos < |log| && key in ForcedNow(cfg, log, l.reader)
    ensures Gone(cfg, Kept(cfg, log, l, ReadNext), key)
  {
    var u := Uncapped(cfg, log, l.reader).part;
    var cut := CapKeepsNewestMinutes(cfg.maxWindows, u);
    UncappedKeepsReader(cfg, log, l.reader);
    assert key in u.windows && key !in l.reader.emitted;
  }

  lemma PopBalances(cfg: Config, log: Log, l: Ledger, final: bool, key: WindowKey)
    requires ReaderOk(cfg, log, l.reader) && Balanced(l, key)
    ensures Balanced(Kept(cfg, log, l, PopRows(final)), key)
  {
  }

  lemma KeptIsOk(cfg: Config, log: Log, l: Ledger, event: Event)
    requires LedgerOk(cfg, log, l)
    ensures LedgerOk(cfg, log, Kept(cfg, log, l, event))
  {
    var l' := Kept(cfg, log, l, event);
    if event.PopRows? {
      PopKeepsReader(cfg, log, l.reader, event.final);
      forall key
        ensures Balanced(l', key)
      {
        PopBalances(cfg, log, l, event.final, key);
      }
    } else if l.reader.pos < |log| {
      ReadKeepsReader(cfg, log, l.reader);
      forall key
        ensures Balanced(l', key) && (key in l'.forced ==> Gone(cfg, l', key))
      {
        ReadBalances(cfg, log, l, key);
        if key in ForcedNow(cfg, log, l.reader) {
          ForcedIsGone(cfg, log, l, key);
        } else if key in l.forced {
          ReadKeepsGone(cfg, log, l, key);
        }
      }
    }
  }

  lemma {:induction false} KeptAllIsOk(cfg: Config, log: Log, start: nat, events: seq<Event>)
    requires start <= |log|
    ensures LedgerOk(cfg, log, KeptAll(cfg, log, start, events))
  {
    if events == [] {
      FreshReader(cfg, log, map[], start);
    } else {
      KeptAllIsOk(cfg, log, start, events[..|events| - 1]);
      KeptIsOk(cfg, log, KeptAll(cfg, log, start, events[..|events| - 1]), events[|events| - 1]);
    }
  }

  /**
   However reading, flushing and the cap interleave, the edits counted for a page minute
   are those written, plus those in its open window, plus those forced out; and only one
   of the three is not zero.
   */
  lemma CountedIsConserved(cfg: Config, log: Log, start: nat, events: seq<Event>, key: WindowKey)
    requires start <= |log|
    ensures var l := KeptAll(cfg, log, start, events);
            var written, open, forced := Stored(l.reader.emitted, key), OpenCount(l.reader, key), Stored(l.forced, key);
            && Stored(l.counted, key) == written + open + forced
            && (forced > 0 ==> written == open == 0) && (written > 0 ==> open == 0)
  {
    KeptAllIsOk(cfg, log, start, events);
    var l := KeptAll(cfg, log, start, events);
    assert Balanced(l, key);
  }
}

