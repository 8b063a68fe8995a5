/** When exactly calling expire can be noticed (processors/edit_war_detector.py). */
module Expiry {
  import opened Common
  import opened Events
  import opened EditWar
  import opened EditWarDetector

  // Event times may have any sign but never go back. A new page counts as alerted until -1, so
  // a page forgotten before the epoch may come back with its suppression moved.

  /** The time of the last event observed. */
  function Latest(ops: seq<Op>): Option<int> {
    if ops == [] then None
    else if ops[|ops| - 1].Observe? then Some(ops[|ops| - 1].timeMs)
    else Latest(ops[..|ops| - 1])
  }

  predicate NotBefore(latest: Option<int>, op: Op) {
    op.Observe? && latest.Some? ==> op.timeMs >= latest.value
  }

  ghost predicate InOrder(ops: seq<Op>) {
    ops != [] ==> InOrder(ops[..|ops| - 1]) && NotBefore(Latest(ops[..|ops| - 1]), ops[|ops| - 1])
  }

  /** A continuation after an event of the given time. */
  ghost predicate InOrderAfter(latest: Option<int>, more: seq<Op>)
    decreases |more|
  {
    more != [] ==>
      && NotBefore(latest, more[0])
      && InOrderAfter(if more[0].Observe? then Some(more[0].timeMs) else latest, more[1..])
  }

  /** The alerts of a continuation. */
  function AlertsFrom(cfg: Config, d: Detector, more: seq<Op>): seq<Alert>
    decreases |more|
  {
    if more == [] then []
    else
      var alert := AlertOf(cfg, d, more[0]);
      (if alert.Some? then [alert.value] else []) + AlertsFrom(cfg, Done(cfg, d, more[0]), more[1..])
  }

  /** Whether expire is called now or not, every continuation in order raises the same alerts. */
  ghost predicate InvisibleNow(cfg: Config, ops: seq<Op>) {
    forall more :: InOrderAfter(Latest(ops), more) ==>
      AlertsFrom(cfg, Done(cfg, Ran(cfg, ops), Expire), more) == AlertsFrom(cfg, Ran(cfg, ops), more)
  }

  function Expired(cfg: Config, p: Page, watermark: int): Page {
    if Forgettable(cfg, p, watermark) then NEW_PAGE else p
  }

  lemma ExpiredPage(cfg: Config, d: Detector, key: string)
    requires d.watermark >= 0
    ensures PageOf(Done(cfg, d, Expire), key) == Expired(cfg, PageOf(d, key), d.watermark)
  {
  }

  // ---- What a run in order keeps --------------------------------------------

  ghost predicate InOrderUpTo(p: Page, t: int) {
    Ordered(p.reverts) && forall r :: r in p.reverts ==> r.timeMs <= t
  }

  ghost predicate Sound(d: Detector, latest: Option<int>) {
    match latest
    case None => d == NEW_DETECTOR
    case Some(t) => d.watermark == Max(0, t) && forall key :: InOrderUpTo(PageOf(d, key), t)
  }

  lemma ObservedUpTo(cfg: Config, p: Page, r: Revert, t: int)
    requires InOrderUpTo(p, t) && r.timeMs >= t
    ensures InOrderUpTo(Observed(cfg, p, r), r.timeMs)
  {
    EvictKeepsOrder(p.reverts + [r], r.timeMs - cfg.windowMs);
  }

  lemma DoneIsSound(cfg: Config, d: Detector, latest: Option<int>, op: Op)
    requires Sound(d, latest) && NotBefore(latest, op)
    ensures Sound(Done(cfg, d, op), if op.Observe? then Some(op.timeMs) else latest)
  {
    if op.Observe? {
      forall key
        ensures InOrderUpTo(PageOf(Done(cfg, d, op), key), op.timeMs)
      {
        assert latest.None? ==> InOrderUpTo(PageOf(d, key), op.timeMs);
        assert latest.Some? ==> InOrderUpTo(PageOf(d, key), latest.value);
        if Counts(cfg, op.event) && key == PageKey(op.event) {
          ObservedUpTo(cfg, PageOf(d, key), RevertOf(op.event, op.timeMs),
                       if latest.Some? then latest.value else op.timeMs);
        }
      }
    } else if latest.Some? {
      forall key
        ensures InOrderUpTo(PageOf(Done(cfg, d, op), key), latest.value)
      {
        assert InOrderUpTo(PageOf(d, key), latest.value);
        ExpiredPage(cfg, d, key);
      }
    } else {
      assert StaleKeys(cfg, d) == {};
    }
  }

  lemma {:induction false} RanIsSound(cfg: Config, ops: seq<Op>)
    requires InOrder(ops)
    ensures Sound(Ran(cfg, ops), Latest(ops))
  {
    if ops != [] {
      RanIsSound(cfg, ops[..|ops| - 1]);
      DoneIsSound(cfg, Ran(cfg, ops[..|ops| - 1]), Latest(ops[..|ops| - 1]), ops[|ops| - 1]);
    }
  }

  // ---- Where it cannot be noticed -------------------------------------------

  /** Both pages are suppressed until the same time, and hold nothing that could still count after it. */
  ghost predicate Shadow(cfg: Config, p: Page, q: Page) {
    && p.alertedUntil == q.alertedUntil
    && (forall r :: r in p.reverts || r in q.reverts ==> r.timeMs <= p.alertedUntil - cfg.windowMs)
    && (SameLast(p, q) || p == NEW_PAGE || q == NEW_PAGE)
  }

  ghost predicate SameLast(p: Page, q: Page) {
    p.reverts != [] && q.reverts != [] && p.reverts[|p.reverts| - 1] == q.reverts[|q.reverts| - 1]
  }

  /** No continuation after time t, with or without expiries, can tell the pages apart. */
  ghost predicate Twins(cfg: Config, p: Page, q: Page, t: int) {
    && InOrderUpTo(p, t) && InOrderUpTo(q, t)
    && (p == q || (t >= 0 && Alike(cfg, p, q, t)) || Shadow(cfg, p, q))
  }

  lemma LastStays(cfg: Config, p: Page, r: Revert)
    ensures var rs := Joined(cfg, p, r);
            rs != [] && rs[|rs| - 1] == r && forall x :: x in rs ==> x in p.reverts || x == r
  {
    EvictIsPart(p.reverts + [r], r.timeMs - cfg.windowMs);
  }

  lemma {:induction false} EvictIsPart(rs: History, cutoff: int)
    ensures forall x :: x in Evict(rs, cutoff) ==> x in rs
    ensures Evict(rs, cutoff) != [] ==> Evict(rs, cutoff)[|Evict(rs, cutoff)| - 1] == rs[|rs| - 1]
  {
    if rs != [] && rs[0].timeMs < cutoff {
      EvictIsPart(rs[1..], cutoff);
    }
  }

  lemma ShadowStays(cfg: Config, p: Page, q: Page, r: Revert, t: int)
    requires InOrderUpTo(p, t) && InOrderUpTo(q, t) && Shadow(cfg, p, q) && r.timeMs >= t
    ensures Raises(cfg, p, r) == Raises(cfg, q, r) && (Raises(cfg, p, r) ==> Joined(cfg, p, r) == Joined(cfg, q, r))
    ensures Observed(cfg, p, r) == Observed(cfg, q, r) || Shadow(cfg, Observed(cfg, p, r), Observed(cfg, q, r))
  {
    if r.timeMs <= p.alertedUntil {
      LastStays(cfg, p, r);
      LastStays(cfg, q, r);
    } else {
      EvictAllOld(p.reverts, r, r.timeMs - cfg.windowMs);
      EvictAllOld(q.reverts, r, r.timeMs - cfg.windowMs);
    }
  }

  lemma TwinsObserve(cfg: Config, p: Page, q: Page, r: Revert, t: int)
    requires Twins(cfg, p, q, t) && r.timeMs >= t
    ensures Raises(cfg, p, r) == Raises(cfg, q, r) && (Raises(cfg, p, r) ==> Joined(cfg, p, r) == Joined(cfg, q, r))
    ensures Twins(cfg, Observed(cfg, p, r), Observed(cfg, q, r), r.timeMs)
  {
    ObservedUpTo(cfg, p, r, t);
    ObservedUpTo(cfg, q, r, t);
    if t >= 0 && Alike(cfg, p, q, t) {
      AlikeStays(cfg, p, q, r, t);
    } else if p != q {
      ShadowStays(cfg, p, q, r, t);
    }
  }

  lemma TwinsExpire(cfg: Config, p: Page, q: Page, t: int)
    requires Twins(cfg, p, q, t)
    ensures Twins(cfg, Expired(cfg, p, Max(0, t)), Expired(cfg, q, Max(0, t)), t)
  {
    if p != q && t >= 0 && Alike(cfg, p, q, t) {
      var p' := Expired(cfg, p, t);
      if Forgettable(cfg, p, t) {
        ForgottenIsAlike(cfg, p, q, t);
      }
      assert Alike(cfg, q, p', t);
      if Forgettable(cfg, q, t) {
        ForgottenIsAlike(cfg, q, p', t);
      }
    }
  }

  ghost predicate AllTwins(cfg: Config, d: Detector, e: Detector, t: int) {
    d.watermark == e.watermark == Max(0, t) && forall key :: Twins(cfg, PageOf(d, key), PageOf(e, key), t)
  }

  lemma TwinsDone(cfg: Config, d: Detector, e: Detector, t: int, op: Op)
    requires AllTwins(cfg, d, e, t) && NotBefore(Some(t), op)
    ensures AlertOf(cfg, d, op) == AlertOf(cfg, e, op)
    ensures AllTwins(cfg, Done(cfg, d, op), Done(cfg, e, op), if op.Observe? then op.timeMs else t)
  {
    if op.Observe? {
      TwinsObserved(cfg, d, e, t, op);
    } else {
      forall key
        ensures Twins(cfg, PageOf(Done(cfg, d, op), key), PageOf(Done(cfg, e, op), key), t)
      {
        TwinsExpire(cfg, PageOf(d, key), PageOf(e, key), t);
        ExpiredPage(cfg, d, key);
        ExpiredPage(cfg, e, key);
      }
    }
  }

  lemma TwinsObserved(cfg: Config, d: Detector, e: Detector, t: int, op: Op)
    requires AllTwins(cfg, d, e, t) && op.Observe? && op.timeMs >= t
    ensures AlertOf(cfg, d, op) == AlertOf(cfg, e, op) && AllTwins(cfg, Done(cfg, d, op), Done(cfg, e, op), op.timeMs)
  {
    var d', e', at := Done(cfg, d, op), Done(cfg, e, op), PageKey(op.event);
    assert Twins(cfg, PageOf(d, at), PageOf(e, at), t);
    TwinsObserve(cfg, PageOf(d, at), PageOf(e, at), RevertOf(op.event, op.timeMs), t);
    forall key
      ensures Twins(cfg, PageOf(d', key), PageOf(e', key), op.timeMs)
    {
      ObservedPage(cfg, d, op, key);
      ObservedPage(cfg, e, op, key);
      TwinsLater(cfg, PageOf(d, key), PageOf(e, key), t, op.timeMs);
    }
  }

  lemma ObservedPage(cfg: Config, d: Detector, op: Op, key: string)
    requires op.Observe?
    ensures PageOf(Done(cfg, d, op), key) ==
            if Counts(cfg, op.event) && key == PageKey(op.event)
            then Observed(cfg, PageOf(d, key), RevertOf(op.event, op.timeMs))
            else PageOf(d, key)
  {
  }

  lemma TwinsLater(cfg: Config, p: Page, q: Page, t: int, t': int)
    requires Twins(cfg, p, q, t) && t <= t'
    ensures Twins(cfg, p, q, t')
  {
  }

  lemma {:induction false} TwinsAlertAlike(cfg: Config, d: Detector, e: Detector, t: int, more: seq<Op>)
    requires AllTwins(cfg, d, e, t) && InOrderAfter(Some(t), more)
    ensures AlertsFrom(cfg, d, more) == AlertsFrom(cfg, e, more)
    decreases |more|
  {
    if more != [] {
      var op := more[0];
      TwinsDone(cfg, d, e, t, op);
      TwinsAlertAlike(cfg, Done(cfg, d, op), Done(cfg, e, op), if op.Observe? then op.timeMs else t, more[1..]);
    }
  }

  /** At or after the epoch, or if every forgotten page was suppressed up to -1, expire changes no page noticeably. */
  lemma ExpireGivesTwins(cfg: Config, d: Detector, t: int)
    requires Sound(d, Some(t))
    requires t >= 0 || forall key :: key in StaleKeys(cfg, d) ==> d.pages[key].alertedUntil == -1
    ensures AllTwins(cfg, Done(cfg, d, Expire), d, t)
  {
    forall key
      ensures Twins(cfg, PageOf(Done(cfg, d, Expire), key), PageOf(d, key), t)
    {
      var p := PageOf(d, key);
      assert InOrderUpTo(p, t);
      ExpiredPage(cfg, d, key);
      if Forgettable(cfg, p, d.watermark) && p != NEW_PAGE {
        if t >= 0 {
          ForgottenIsAlike(cfg, p, p, t);
        } else {
          assert key in StaleKeys(cfg, d);
          assert forall r :: r in p.reverts ==> r.timeMs <= p.reverts[|p.reverts| - 1].timeMs;
        }
      }
    }
  }

  // ---- Where it can ---------------------------------------------------------

  function Tally(j: nat): (name: string)
    ensures |name| == j
  {
    if j == 0 then "" else Tally(j - 1) + "x"
  }

  /** The same page reverted by person j. */
  function RevertBy(e: CleanEvent, j: nat): CleanEvent {
    e.(isRevert := true, bot := false, user := Tally(j))
  }

  /** Persons j to n - 1 revert the page, all at time t. */
  function Barrage(e: CleanEvent, t: int, j: nat, n: nat): seq<Op>
    requires j <= n
    decreases n - j
  {
    if j == n then [] else [Observe(RevertBy(e, j), t)] + Barrage(e, t, j + 1, n)
  }

  lemma {:induction false} BarrageIsInOrder(e: CleanEvent, t: int, j: nat, n: nat, latest: Option<int>)
    requires j <= n && (latest.Some? ==> latest.value <= t)
    ensures InOrderAfter(latest, Barrage(e, t, j, n))
    decreases n - j
  {
    if j < n {
      BarrageIsInOrder(e, t, j + 1, n, Some(t));
      assert Barrage(e, t, j, n)[1..] == Barrage(e, t, j + 1, n);
    }
  }

  /** A suppressed page stays silent. */
  lemma {:induction false} SuppressedIsSilent(cfg: Config, d: Detector, e: CleanEvent, t: int, j: nat, n: nat)
    requires j <= n && t <= PageOf(d, PageKey(e)).alertedUntil
    ensures AlertsFrom(cfg, d, Barrage(e, t, j, n)) == []
    decreases n - j
  {
    if j < n {
      var d' := Done(cfg, d, Observe(RevertBy(e, j), t));
      assert Barrage(e, t, j, n)[1..] == Barrage(e, t, j + 1, n);
      SuppressedIsSilent(cfg, d', e, t, j + 1, n);
    }
  }

  function RevertsBy(e: CleanEvent, t: int, j: nat): History {
    if j == 0 then [] else RevertsBy(e, t, j - 1) + [RevertOf(RevertBy(e, j - 1), t)]
  }

  lemma OneMoreUser(before: History, r: Revert)
    requires forall x :: x in before ==> x.user != r.user
    ensures |Users(before + [r])| == |Users(before)| + 1
  {
    var users := Users(before);
    assert r.user !in users;
    forall user
      ensures user in Users(before + [r]) <==> user in users + {r.user}
    {
      if user in users {
        var x :| x in before && x.user == user;
        assert x in before + [r];
      }
      assert r in before + [r];
    }
    assert Users(before + [r]) == users + {r.user};
  }

  lemma {:induction false} RevertsByPeople(e: CleanEvent, t: int, j: nat)
    ensures |RevertsBy(e, t, j)| == j == |Users(RevertsBy(e, t, j))|
    ensures forall r :: r in RevertsBy(e, t, j) ==> r.timeMs == t && |r.user| < j
  {
    if j > 0 {
      RevertsByPeople(e, t, j - 1);
      OneMoreUser(RevertsBy(e, t, j - 1), RevertOf(RevertBy(e, j - 1), t));
    }
  }

  lemma {:induction false} EvictStops(rs: History, tail: History, cutoff: int)
    requires tail != [] && tail[0].timeMs >= cutoff
    ensures Evict(rs + tail, cutoff) == Evict(rs, cutoff) + tail
  {
    if rs == [] {
      assert rs + tail == tail;
    } else if rs[0].timeMs < cutoff {
      assert (rs + tail)[1..] == rs[1..] + tail;
      EvictStops(rs[1..], tail, cutoff);
    }
  }

  /** The page after j persons' reverts on top of what it held before. */
  lemma JoinedBarrage(cfg: Config, e: CleanEvent, t: int, j: nat, base: History, p: Page)
    requires p.reverts == base + RevertsBy(e, t, j)
    ensures Joined(cfg, p, RevertOf(RevertBy(e, j), t)) == Evict(base, t - cfg.windowMs) + RevertsBy(e, t, j + 1)
  {
    var tail := RevertsBy(e, t, j + 1);
    RevertsByPeople(e, t, j + 1);
    assert p.reverts + [RevertOf(RevertBy(e, j), t)] == base + tail;
    assert tail[0] in tail;
    EvictStops(base, tail, t - cfg.windowMs);
  }

  lemma EnoughPeople(cfg: Config, e: CleanEvent, t: int, n: nat, base: History)
    requires n >= cfg.minReverts && n >= cfg.minUsers
    ensures EnoughFor(cfg, base + RevertsBy(e, t, n))
  {
    var tail := RevertsBy(e, t, n);
    RevertsByPeople(e, t, n);
    assert Users(tail) <= Users(base + tail) by {
      forall user | user in Users(tail)
        ensures user in Users(base + tail)
      {
        var r :| r in tail && r.user == user;
        assert r in base + tail;
      }
    }
    assert |Users(base + tail)| == |Users(tail)| + |Users(base + tail) - Users(tail)| by {
      assert Users(base + tail) == Users(tail) + (Users(base + tail) - Users(tail));
    }
  }

  /** A page that is not suppressed raises an alert by the time enough people have reverted it. */
  lemma {:induction false} BarrageIsHeard(
    cfg: Config, d: Detector, e: CleanEvent, t: int, j: nat, n: nat, base: History)
    requires j < n && n >= cfg.minReverts && n >= cfg.minUsers
    requires PageOf(d, PageKey(e)).reverts == base + RevertsBy(e, t, j) && PageOf(d, PageKey(e)).alertedUntil < t
    ensures AlertsFrom(cfg, d, Barrage(e, t, j, n)) != []
    decreases n - j
  {
    var p, op := PageOf(d, PageKey(e)), Observe(RevertBy(e, j), t);
    var r := RevertOf(RevertBy(e, j), t);
    JoinedBarrage(cfg, e, t, j, base, p);
    assert Barrage(e, t, j, n)[1..] == Barrage(e, t, j + 1, n);
    if !Raises(cfg, p, r) {
      if j + 1 == n {
        EnoughPeople(cfg, e, t, n, Evict(base, t - cfg.windowMs));
      } else {
        BarrageIsHeard(cfg, Done(cfg, d, op), e, t, j + 1, n, Evict(base, t - cfg.windowMs));
      }
    } else {
      assert AlertOf(cfg, d, op).Some?;
    }
  }

  lemma {:induction false} PageOfSomeEvent(cfg: Config, ops: seq<Op>, key: string) returns (e: CleanEvent)
    requires key in Ran(cfg, ops).pages
    ensures PageKey(e) == key
  {
    var op := ops[|ops| - 1];
    if op.Observe? && PageKey(op.event) == key {
      e := op.event;
    } else {
      e := PageOfSomeEvent(cfg, ops[..|ops| - 1], key);
    }
  }

  /** Before the epoch, a forgotten page not suppressed up to -1 can be made to miss an alert. */
  lemma ForgettingShows(cfg: Config, ops: seq<Op>, key: string) returns (more: seq<Op>)
    requires InOrder(ops) && Latest(ops).Some? && Latest(ops).value < 0
    requires key in StaleKeys(cfg, Ran(cfg, ops)) && Ran(cfg, ops).pages[key].alertedUntil != -1
    ensures InOrderAfter(Latest(ops), more)
    ensures AlertsFrom(cfg, Done(cfg, Ran(cfg, ops), Expire), more) == [] && AlertsFrom(cfg, Ran(cfg, ops), more) != []
  {
    RanIsSound(cfg, ops);
    var d, p := Ran(cfg, ops), Ran(cfg, ops).pages[key];
    var e := PageOfSomeEvent(cfg, ops, key);
    var t := Max(p.alertedUntil + 1, Latest(ops).value);
    var n: nat := Max(1, Max(cfg.minReverts, cfg.minUsers));
    more := Barrage(e, t, 0, n);
    BarrageIsInOrder(e, t, 0, n, Latest(ops));
    SuppressedIsSilent(cfg, Done(cfg, d, Expire), e, t, 0, n);
    assert p.reverts + RevertsBy(e, t, 0) == p.reverts;
    BarrageIsHeard(cfg, d, e, t, 0, n, p.reverts);
  }

  /**
   After any run in order, calling expire is unobservable to every continuation in order
   if and only if the last event is dated at the epoch or later, or every page it forgets
   was suppressed up to exactly -1, as a new page is.
   */
  lemma ExpiryIsInvisibleIff(cfg: Config, ops: seq<Op>)
    requires InOrder(ops)
    ensures InvisibleNow(cfg, ops) <==>
            || (Latest(ops).Some? && Latest(ops).value >= 0)
            || (forall key :: key in StaleKeys(cfg, Ran(cfg, ops)) ==> Ran(cfg, ops).pages[key].alertedUntil == -1)
  {
    var d := Ran(cfg, ops);
    RanIsSound(cfg, ops);
    if Latest(ops).None? {
      assert StaleKeys(cfg, d) == {} && Done(cfg, d, Expire) == d;
    } else if Latest(ops).value >= 0 || forall key :: key in StaleKeys(cfg, d) ==> d.pages[key].alertedUntil == -1 {
      ExpireGivesTwins(cfg, d, Latest(ops).value);
      forall more | InOrderAfter(Latest(ops), more)
        ensures AlertsFrom(cfg, Done(cfg, d, Expire), more) == AlertsFrom(cfg, d, more)
      {
        TwinsAlertAlike(cfg, Done(cfg, d, Expire), d, Latest(ops).value, more);
      }
    } else {
      var key :| key in StaleKeys(cfg, d) && d.pages[key].alertedUntil != -1;
      var more := ForgettingShows(cfg, ops, key);
    }
  }

  /** For every configuration there is a run after which it shows: one counted revert long before the epoch. */
  lemma ExpiryCanShow(cfg: Config, e: CleanEvent) returns (ops: seq<Op>)
    requires Counts(cfg, e)
    ensures InOrder(ops) && !InvisibleNow(cfg, ops)
  {
    var t := -2 * cfg.windowMs - 2;
    var r := RevertOf(e, t);
    ops := [Observe(e, t)];
    assert ops[..0] == [] && InOrder(ops[..0]);
    EvictAllOld([], r, t - cfg.windowMs);
    assert [] + [r] == [r];
    var d, p := Ran(cfg, ops), Page([r], t + cfg.windowMs);
    assert Observed(cfg, NEW_PAGE, r) == p;
    assert d == Done(cfg, Ran(cfg, ops[..0]), ops[0]);
    assert d == Detector(map[PageKey(e) := p], 0);
    assert PageKey(e) in StaleKeys(cfg, d);
    var more := ForgettingShows(cfg, ops, PageKey(e));
  }
}

