/** The edit war detector over all pages (processors/edit_war_detector.py). */
module EditWarDetector {
  import opened Common
  import opened Events
  import opened EditWar
  import opened Sorting

  // ---- Alerts ---------------------------------------------------------------

  /** The hashed id of an alert stands for these three strings. */
  datatype AlertId = AlertId(wiki: string, title: string, firstEventId: string)

  /** reverts lists the window by time and id; event ids, count and both ends of the window follow from it. */
  datatype Alert = Alert(id: AlertId, wiki: string, title: string, users: set<string>, reverts: History)

  /** Strings in lexicographic order. */
  predicate NotAfter(a: string, b: string) {
    a == "" || (b != "" && (a[0] < b[0] || (a[0] == b[0] && NotAfter(a[1..], b[1..]))))
  }

  /** One string is not after another if it is a prefix of it or has the smaller character where they first differ. */
  lemma {:induction false} NotAfterIff(a: string, b: string)
    ensures NotAfter(a, b) <==> a <= b || exists k :: DifferAt(a, b, k) && a[k] < b[k]
  {
    if a != [] && b != [] && a[0] == b[0] {
      NotAfterIff(a[1..], b[1..]);
      if k :| DifferAt(a[1..], b[1..], k) && a[1..][k] < b[1..][k] {
        assert a[..k + 1] == [a[0]] + a[1..][..k] && b[..k + 1] == [b[0]] + b[1..][..k];
        assert DifferAt(a, b, k + 1) && a[k + 1] < b[k + 1];
      }
      if k :| DifferAt(a, b, k) && a[k] < b[k] {
        assert k > 0 && a[..k][1..] == a[1..][..k - 1] && b[..k][1..] == b[1..][..k - 1];
        assert DifferAt(a[1..], b[1..], k - 1) && a[1..][k - 1] < b[1..][k - 1];
      }
    } else if a != [] && b != [] {
      assert a[..0] == b[..0] && DifferAt(a, b, 0);
      assert forall k :: DifferAt(a, b, k) && k != 0 ==> a[..k][0] == b[..k][0];
    }
  }

  /** The first place where two strings differ is k. */
  ghost predicate DifferAt(a: string, b: string, k: int) {
    0 <= k < |a| && k < |b| && a[..k] == b[..k] && a[k] != b[k]
  }

  predicate ComesFirst(r: Revert, q: Revert) {
    KeyFirst(KeyOf(r), KeyOf(q))
  }

  /** What reverts are sorted by. */
  datatype SortKey = SortKey(timeMs: int, eventId: string)

  function KeyOf(r: Revert): SortKey {
    SortKey(r.timeMs, r.eventId)
  }

  predicate KeyFirst(k: SortKey, l: SortKey) {
    k.timeMs < l.timeMs || (k.timeMs == l.timeMs && NotAfter(k.eventId, l.eventId))
  }

  lemma {:induction false} NotAfterIsTotal(a: string, b: string)
    ensures NotAfter(a, b) || NotAfter(b, a)
    ensures NotAfter(a, b) && NotAfter(b, a) ==> a == b
  {
    if a != "" && b != "" && a[0] == b[0] {
      NotAfterIsTotal(a[1..], b[1..]);
      assert a == [a[0]] + a[1..] && b == [b[0]] + b[1..];
    }
  }

  lemma {:induction false} NotAfterIsTransitive(a: string, b: string, c: string)
    requires NotAfter(a, b) && NotAfter(b, c)
    ensures NotAfter(a, c)
  {
    if a != "" && a[0] == b[0] == c[0] {
      NotAfterIsTransitive(a[1..], b[1..], c[1..]);
    }
  }

  lemma KeyFirstIsOrder()
    ensures TotalPreorder(KeyFirst) && TellsApart(KeyFirst) && TotalPreorder(ComesFirst)
  {
    forall k, l
      ensures KeyFirst(k, l) || KeyFirst(l, k)
      ensures KeyFirst(k, l) && KeyFirst(l, k) ==> k == l
    {
      NotAfterIsTotal(k.eventId, l.eventId);
    }
    forall j, k, l | KeyFirst(j, k) && KeyFirst(k, l)
      ensures KeyFirst(j, l)
    {
      if j.timeMs == k.timeMs == l.timeMs {
        NotAfterIsTransitive(j.eventId, k.eventId, l.eventId);
      }
    }
  }

  /** The reverts by time, then by event id. */
  function SortReverts(rs: History): (result: History)
    ensures |result| == |rs|
  {
    SortBy(ComesFirst, rs)
  }

  /** An alert lists exactly the reverts of its window, by time and then by event id. */
  lemma SortPermutes(rs: History)
    ensures SortedBy(ComesFirst, SortReverts(rs)) && multiset(SortReverts(rs)) == multiset(rs)
    ensures Ordered(SortReverts(rs))
    ensures forall i, j :: 0 <= i < j < |rs| && SortReverts(rs)[i].timeMs == SortReverts(rs)[j].timeMs ==>
              NotAfter(SortReverts(rs)[i].eventId, SortReverts(rs)[j].eventId)
  {
    KeyFirstIsOrder();
    SortSorts(ComesFirst, rs);
    assert forall i, j :: 0 <= i < j < |rs| ==> ComesFirst(SortReverts(rs)[i], SortReverts(rs)[j]);
  }

  function Keys(rs: History): (keys: seq<SortKey>)
    ensures |keys| == |rs| && forall i :: 0 <= i < |rs| ==> keys[i] == KeyOf(rs[i])
  {
    if rs == [] then [] else Keys(rs[..|rs| - 1]) + [KeyOf(rs[|rs| - 1])]
  }

  lemma {:induction false} KeysPermute(a: History, b: History)
    requires multiset(a) == multiset(b)
    ensures multiset(Keys(a)) == multiset(Keys(b))
  {
    if a == [] {
      assert |multiset(b)| == 0;
    } else {
      var r := a[|a| - 1];
      assert r in multiset(b);
      var j :| 0 <= j < |b| && b[j] == r;
      WithoutLast(a);
      KeysWithout(b, j);
      KeysPermute(a[..|a| - 1], b[..j] + b[j + 1..]);
    }
  }

  lemma KeysWithout(b: History, j: nat)
    requires j < |b|
    ensures var others := b[..j] + b[j + 1..];
            && multiset(others) == multiset(b) - multiset{b[j]}
            && multiset(Keys(b)) == multiset(Keys(others)) + multiset{KeyOf(b[j])}
  {
    var before, behind := b[..j], b[j + 1..];
    assert b == before + [b[j]] + behind;
    KeysOfParts(before, b[j], behind);
  }

  lemma KeysOfBoth(a: History, b: History)
    ensures Keys(a + b) == Keys(a) + Keys(b)
  {
    forall i | 0 <= i < |a + b|
      ensures Keys(a + b)[i] == (Keys(a) + Keys(b))[i]
    {
    }
  }

  lemma KeysOfParts(before: History, r: Revert, behind: History)
    ensures multiset(Keys(before + [r] + behind)) == multiset(Keys(before + behind)) + multiset{KeyOf(r)}
  {
    KeysOfBoth(before + [r], behind);
    KeysOfBoth(before, [r]);
    KeysOfBoth(before, behind);
    assert Keys([r]) == [KeyOf(r)];
  }

  /** However reverts of equal time arrived, they are listed under the same ids at the same places. */
  lemma ListingIgnoresArrival(a: History, b: History)
    requires multiset(a) == multiset(b)
    ensures Keys(SortReverts(a)) == Keys(SortReverts(b))
  {
    KeyFirstIsOrder();
    SortPermutes(a);
    SortPermutes(b);
    KeysPermute(SortReverts(a), SortReverts(b));
    KeysSorted(SortReverts(a));
    KeysSorted(SortReverts(b));
    SortedIsUnique(KeyFirst, Keys(SortReverts(a)), Keys(SortReverts(b)));
  }

  lemma KeysSorted(rs: History)
    requires SortedBy(ComesFirst, rs)
    ensures SortedBy(KeyFirst, Keys(rs))
  {
    forall i, j | 0 <= i < j < |rs|
      ensures KeyFirst(Keys(rs)[i], Keys(rs)[j])
    {
      assert ComesFirst(rs[i], rs[j]);
    }
  }

  function AlertFor(e: CleanEvent, reverts: History): Alert
    requires reverts != []
  {
    var sorted := SortReverts(reverts);
    Alert(AlertId(e.wiki, e.title, sorted[0].eventId), e.wiki, e.title, Users(reverts), sorted)
  }

  /** An alert counts its window, names its people, and runs from its first revert to its last. */
  lemma AlertDescribesWindow(e: CleanEvent, window: History)
    requires window != []
    ensures var a := AlertFor(e, window);
            && |a.reverts| == |window| && multiset(a.reverts) == multiset(window)
            && a.id == AlertId(e.wiki, e.title, a.reverts[0].eventId) && a.wiki == e.wiki && a.title == e.title
            && (forall user :: user in a.users <==> exists r :: r in window && r.user == user)
            && (forall r :: r in window ==> a.reverts[0].timeMs <= r.timeMs <= a.reverts[|window| - 1].timeMs)
  {
    var a := AlertFor(e, window);
    SortPermutes(window);
    forall r | r in window
      ensures a.reverts[0].timeMs <= r.timeMs <= a.reverts[|window| - 1].timeMs
    {
      assert r in multiset(a.reverts);
    }
  }

  /**
   The same war gives the same alert id, the same event ids and the same people, in
   whatever order its reverts arrived.
   */
  lemma AlertIgnoresArrival(e: CleanEvent, a: History, b: History)
    requires multiset(a) == multiset(b) && a != [] && b != []
    ensures AlertFor(e, a).id == AlertFor(e, b).id && AlertFor(e, a).users == AlertFor(e, b).users
    ensures Keys(AlertFor(e, a).reverts) == Keys(AlertFor(e, b).reverts)
  {
    ListingIgnoresArrival(a, b);
    assert Keys(SortReverts(a))[0] == Keys(SortReverts(b))[0];
    forall user
      ensures user in Users(a) <==> user in Users(b)
    {
      assert forall r :: r in a <==> r in multiset(a);
      assert forall r :: r in b <==> r in multiset(b);
    }
  }

  /** Two alerts of a page never share an id, so the alerts table never takes one war for another. */
  lemma AlertIdsDiffer(cfg: Config, h: History, a: nat, b: nat, e: CleanEvent, f: CleanEvent)
    requires Ordered(h) && DistinctIds(h) && a < b < |h| && Alerted(cfg, h, a) && Alerted(cfg, h, b)
    ensures AlertFor(e, Window(cfg, h, a)).id != AlertFor(f, Window(cfg, h, b)).id
  {
    var first, second := Window(cfg, h, a), Window(cfg, h, b);
    SortPermutes(first);
    SortPermutes(second);
    var r, q := SortReverts(first)[0], SortReverts(second)[0];
    assert r in multiset(first) && q in multiset(second);
    AlertsShareNoEvent(cfg, h, a, b, r, q);
  }

  // ---- The detector as a value ----------------------------------------------

  /** Forgetting quiet pages is unobservable, so every page follows its own history as in EditWar. */
  datatype Detector = Detector(pages: map<string, Page>, watermark: int)

  const NEW_DETECTOR := Detector(map[], 0)

  datatype Op = Observe(event: CleanEvent, timeMs: int) | Expire

  predicate Counts(cfg: Config, e: CleanEvent) {
    e.isRevert && !(cfg.ignoreBots && e.bot)
  }

  function RevertOf(e: CleanEvent, t: int): Revert {
    Revert(e.eventId, e.user, t)
  }

  function PageOf(d: Detector, key: string): Page {
    if key in d.pages then d.pages[key] else NEW_PAGE
  }

  predicate Forgettable(cfg: Config, p: Page, watermark: int) {
    && (p.reverts == [] || p.reverts[|p.reverts| - 1].timeMs < watermark - cfg.windowMs)
    && p.alertedUntil < watermark
  }

  function StaleKeys(cfg: Config, d: Detector): set<string> {
    set key | key in d.pages && Forgettable(cfg, d.pages[key], d.watermark)
  }

  function Done(cfg: Config, d: Detector, op: Op): Detector {
    match op
    case Observe(e, t) =>
      Detector(if Counts(cfg, e) then d.pages[PageKey(e) := Observed(cfg, PageOf(d, PageKey(e)), RevertOf(e, t))]
               else d.pages,
               Max(d.watermark, t))
    case Expire => Detector(d.pages - StaleKeys(cfg, d), d.watermark)
  }

  function AlertOf(cfg: Config, d: Detector, op: Op): Option<Alert> {
    match op
    case Expire => None
    case Observe(e, t) => AlertOn(cfg, PageOf(d, PageKey(e)), e, t)
  }

  function AlertOn(cfg: Config, p: Page, e: CleanEvent, t: int): Option<Alert> {
    var r := RevertOf(e, t);
    if Counts(cfg, e) && Raises(cfg, p, r) then Some(AlertFor(e, Joined(cfg, p, r))) else None
  }

  function Ran(cfg: Config, ops: seq<Op>): Detector {
    if ops == [] then NEW_DETECTOR else Done(cfg, Ran(cfg, ops[..|ops| - 1]), ops[|ops| - 1])
  }

  /** The alerts a run raises, in order. */
  function AlertsOf(cfg: Config, ops: seq<Op>): seq<Alert> {
    if ops == [] then []
    else
      var before := ops[..|ops| - 1];
      var alert := AlertOf(cfg, Ran(cfg, before), ops[|ops| - 1]);
      AlertsOf(cfg, before) + (if alert.Some? then [alert.value] else [])
  }

  /** The run without its expiries. */
  function ObservesOf(ops: seq<Op>): seq<Op> {
    if ops == [] then []
    else ObservesOf(ops[..|ops| - 1]) + (if ops[|ops| - 1].Expire? then [] else [ops[|ops| - 1]])
  }

  function Clock(ops: seq<Op>): int {
    if ops == [] then 0
    else
      var op, before := ops[|ops| - 1], Clock(ops[..|ops| - 1]);
      if op.Observe? then Max(before, op.timeMs) else before
  }

  /** Event times start at the epoch or later and never go back. */
  ghost predicate InTime(ops: seq<Op>) {
    ops != [] ==>
      && InTime(ops[..|ops| - 1])
      && (ops[|ops| - 1].Observe? ==> ops[|ops| - 1].timeMs >= Clock(ops[..|ops| - 1]))
  }

  // ---- Forgetting quiet pages is unobservable -------------------------------

  /** Reverts of every page are in order and not past the watermark. */
  ghost predicate PageInOrder(p: Page, watermark: int) {
    Ordered(p.reverts) && forall r :: r in p.reverts ==> r.timeMs <= watermark
  }

  ghost predicate AllInOrder(d: Detector) {
    d.watermark >= 0 && forall key :: PageInOrder(PageOf(d, key), d.watermark)
  }

  lemma {:induction false} EvictKeepsOrder(rs: History, cutoff: int)
    requires Ordered(rs)
    ensures Ordered(Evict(rs, cutoff)) && forall r :: r in Evict(rs, cutoff) ==> r in rs
  {
    if rs != [] && rs[0].timeMs < cutoff {
      EvictKeepsOrder(rs[1..], cutoff);
    }
  }

  lemma ObservedInOrder(cfg: Config, p: Page, r: Revert, watermark: int)
    requires PageInOrder(p, watermark) && r.timeMs >= watermark
    ensures PageInOrder(Observed(cfg, p, r), r.timeMs)
  {
    EvictKeepsOrder(p.reverts + [r], r.timeMs - cfg.windowMs);
  }

  lemma DoneInOrder(cfg: Config, d: Detector, op: Op)
    requires AllInOrder(d) && (op.Observe? ==> op.timeMs >= d.watermark)
    ensures AllInOrder(Done(cfg, d, op))
  {
    var d' := Done(cfg, d, op);
    forall key
      ensures PageInOrder(PageOf(d', key), d'.watermark)
    {
      assert PageInOrder(PageOf(d, key), d.watermark);
      if op.Observe? && Counts(cfg, op.event) && key == PageKey(op.event) {
        ObservedInOrder(cfg, PageOf(d, key), RevertOf(op.event, op.timeMs), d.watermark);
      }
    }
  }

  /** No observation from the watermark on can tell the two detectors apart. */
  ghost predicate AlikeAll(cfg: Config, d: Detector, e: Detector) {
    d.watermark == e.watermark && forall key :: Alike(cfg, PageOf(d, key), PageOf(e, key), d.watermark)
  }

  lemma ForgottenIsAlike(cfg: Config, p: Page, q: Page, watermark: int)
    requires watermark >= 0 && PageInOrder(p, watermark) && Forgettable(cfg, p, watermark)
    requires Alike(cfg, p, q, watermark)
    ensures Alike(cfg, NEW_PAGE, q, watermark)
  {
    forall r | r in p.reverts
      ensures r.timeMs < watermark - cfg.windowMs
    {
      assert r.timeMs <= p.reverts[|p.reverts| - 1].timeMs;
    }
  }

  lemma ExpireIsAlike(cfg: Config, d: Detector, e: Detector)
    requires AllInOrder(d) && AlikeAll(cfg, d, e)
    ensures AlikeAll(cfg, Done(cfg, d, Expire), e)
  {
    var d' := Done(cfg, d, Expire);
    forall key
      ensures Alike(cfg, PageOf(d', key), PageOf(e, key), d.watermark)
    {
      assert Alike(cfg, PageOf(d, key), PageOf(e, key), d.watermark);
      if key in d.pages && key !in d'.pages {
        assert PageInOrder(PageOf(d, key), d.watermark);
        ForgottenIsAlike(cfg, d.pages[key], PageOf(e, key), d.watermark);
      }
    }
  }

  lemma ObserveIsAlike(cfg: Config, d: Detector, e: Detector, op: Op)
    requires AlikeAll(cfg, d, e) && op.Observe? && op.timeMs >= d.watermark
    ensures AlikeAll(cfg, Done(cfg, d, op), Done(cfg, e, op)) && AlertOf(cfg, d, op) == AlertOf(cfg, e, op)
  {
    var d', e' := Done(cfg, d, op), Done(cfg, e, op);
    var at := PageKey(op.event);
    assert Alike(cfg, PageOf(d, at), PageOf(e, at), d.watermark);
    AlikeStays(cfg, PageOf(d, at), PageOf(e, at), RevertOf(op.event, op.timeMs), d.watermark);
    forall key
      ensures Alike(cfg, PageOf(d', key), PageOf(e', key), op.timeMs)
    {
      assert Alike(cfg, PageOf(d, key), PageOf(e, key), d.watermark);
    }
  }

  lemma {:induction false} RanAlike(cfg: Config, ops: seq<Op>)
    requires InTime(ops)
    ensures AllInOrder(Ran(cfg, ops)) && Ran(cfg, ops).watermark == Clock(ops)
    ensures AlikeAll(cfg, Ran(cfg, ops), Ran(cfg, ObservesOf(ops)))
    ensures AlertsOf(cfg, ops) == AlertsOf(cfg, ObservesOf(ops))
  {
    if ops != [] {
      var before, op := ops[..|ops| - 1], ops[|ops| - 1];
      RanAlike(cfg, before);
      DoneInOrder(cfg, Ran(cfg, before), op);
      if op.Expire? {
        ExpireIsAlike(cfg, Ran(cfg, before), Ran(cfg, ObservesOf(before)));
        assert ObservesOf(ops) == ObservesOf(before);
      } else {
        ObserveIsAlike(cfg, Ran(cfg, before), Ran(cfg, ObservesOf(before)), op);
        assert ObservesOf(ops)[..|ObservesOf(before)|] == ObservesOf(before);
      }
    }
  }

  /** With event times in order, calling expire anywhere leaves every alert as it is. */
  lemma ExpiryIsInvisible(cfg: Config, ops: seq<Op>)
    requires InTime(ops)
    ensures AlertsOf(cfg, ops) == AlertsOf(cfg, ObservesOf(ops))
  {
    RanAlike(cfg, ops);
  }

  // ---- Each page follows its own history ------------------------------------

  /** The counted reverts of one page in a run. */
  function HistoryOf(cfg: Config, ops: seq<Op>, key: string): History {
    if ops == [] then []
    else
      var op := ops[|ops| - 1];
      HistoryOf(cfg, ops[..|ops| - 1], key) +
      (if op.Observe? && Counts(cfg, op.event) && PageKey(op.event) == key then [RevertOf(op.event, op.timeMs)] else [])
  }

  lemma {:induction false} AtPrefix(cfg: Config, h: History, r: Revert, n: nat)
    requires n <= |h|
    ensures At(cfg, h + [r], n) == At(cfg, h, n)
  {
    if n > 0 {
      AtPrefix(cfg, h, r, n - 1);
    }
  }

  /** One observation puts the page of key where the history then leaves it. */
  lemma PageFollowsOne(cfg: Config, d: Detector, h: History, op: Op, key: string)
    requires op.Observe? && PageOf(d, key) == At(cfg, h, |h|)
    ensures var h' := h + (if Counts(cfg, op.event) && PageKey(op.event) == key then [RevertOf(op.event, op.timeMs)]
                           else []);
            PageOf(Done(cfg, d, op), key) == At(cfg, h', |h'|)
  {
    if Counts(cfg, op.event) && PageKey(op.event) == key {
      AtPrefix(cfg, h, RevertOf(op.event, op.timeMs), |h|);
    } else {
      assert h + [] == h;
    }
  }

  lemma {:induction false} PageFollowsHistory(cfg: Config, ops: seq<Op>, key: string)
    requires forall op :: op in ops ==> op.Observe?
    ensures PageOf(Ran(cfg, ops), key) == At(cfg, HistoryOf(cfg, ops, key), |HistoryOf(cfg, ops, key)|)
  {
    if ops != [] {
      var before, op := ops[..|ops| - 1], ops[|ops| - 1];
      PageFollowsHistory(cfg, before, key);
      assert op in ops;
      PageFollowsOne(cfg, Ran(cfg, before), HistoryOf(cfg, before, key), op, key);
    }
  }

  lemma {:induction false} ObservesObserve(ops: seq<Op>)
    ensures forall op :: op in ObservesOf(ops) ==> op.Observe?
  {
    if ops != [] {
      ObservesObserve(ops[..|ops| - 1]);
    }
  }

  /** On a page at the end of an ordered history, the alert is the one the longer history gives, for its window. */
  lemma AlertFollowsHistory(cfg: Config, h: History, e: CleanEvent, t: int)
    requires Ordered(h + [RevertOf(e, t)])
    ensures var longer := h + [RevertOf(e, t)];
            AlertOn(cfg, At(cfg, h, |h|), e, t) ==
            if Counts(cfg, e) && Alerted(cfg, longer, |h|) then Some(AlertFor(e, Window(cfg, longer, |h|))) else None
  {
    var r := RevertOf(e, t);
    AtPrefix(cfg, h, r, |h|);
    DequeIsWindow(cfg, h + [r], |h|);
  }

  lemma {:induction false} HistoryInOrder(cfg: Config, ops: seq<Op>, key: string)
    requires InTime(ops)
    ensures Ordered(HistoryOf(cfg, ops, key)) && forall r :: r in HistoryOf(cfg, ops, key) ==> r.timeMs <= Clock(ops)
  {
    if ops != [] {
      HistoryInOrder(cfg, ops[..|ops| - 1], key);
    }
  }

  lemma {:induction false} ObservesInTime(ops: seq<Op>)
    requires InTime(ops)
    ensures InTime(ObservesOf(ops)) && Clock(ObservesOf(ops)) == Clock(ops)
  {
    if ops != [] {
      var before := ObservesOf(ops[..|ops| - 1]);
      ObservesInTime(ops[..|ops| - 1]);
      if ops[|ops| - 1].Expire? {
        assert ObservesOf(ops) == before;
      } else {
        assert ObservesOf(ops)[..|before|] == before;
      }
    }
  }

  lemma LastIsInTime(ops: seq<Op>, e: CleanEvent, t: int)
    requires InTime(ops + [Observe(e, t)])
    ensures InTime(ops) && t >= Clock(ops)
  {
    assert (ops + [Observe(e, t)])[..|ops|] == ops;
  }

  lemma ExpiriesChangeNoAlert(cfg: Config, ops: seq<Op>, e: CleanEvent, t: int)
    requires InTime(ops) && t >= Clock(ops)
    ensures AlertOf(cfg, Ran(cfg, ops), Observe(e, t)) == AlertOf(cfg, Ran(cfg, ObservesOf(ops)), Observe(e, t))
  {
    RanAlike(cfg, ops);
    ObserveIsAlike(cfg, Ran(cfg, ops), Ran(cfg, ObservesOf(ops)), Observe(e, t));
  }

  lemma HistoryTakesNext(cfg: Config, ops: seq<Op>, e: CleanEvent, t: int)
    requires InTime(ops) && t >= Clock(ops)
    ensures Ordered(HistoryOf(cfg, ObservesOf(ops), PageKey(e)) + [RevertOf(e, t)])
  {
    ObservesInTime(ops);
    HistoryInOrder(cfg, ObservesOf(ops), PageKey(e));
  }

  /**
   In a run with expiries anywhere, an observation raises an alert exactly when it is a
   counted revert that raises one in its page's own history, and then for that window.
   */
  lemma AlertsFollowHistories(cfg: Config, ops: seq<Op>, e: CleanEvent, t: int)
    requires InTime(ops + [Observe(e, t)])
    ensures AlertOf(cfg, Ran(cfg, ops), Observe(e, t)) ==
            var h := HistoryOf(cfg, ObservesOf(ops), PageKey(e)) + [RevertOf(e, t)];
            if Counts(cfg, e) && Alerted(cfg, h, |h| - 1) then Some(AlertFor(e, Window(cfg, h, |h| - 1))) else None
  {
    var h := HistoryOf(cfg, ObservesOf(ops), PageKey(e));
    LastIsInTime(ops, e, t);
    ExpiriesChangeNoAlert(cfg, ops, e, t);
    ObservesObserve(ops);
    PageFollowsHistory(cfg, ObservesOf(ops), PageKey(e));
    HistoryTakesNext(cfg, ops, e, t);
    AlertFollowsHistory(cfg, h, e, t);
  }

  /**
   An event that is no revert, or a bot's where bots are ignored, raises nothing and moves
   only the clock. Any other joins its own page as the newest revert and touches no other page.
   */
  lemma OnlyRevertsCount(cfg: Config, d: Detector, e: CleanEvent, t: int)
    ensures var d' := Done(cfg, d, Observe(e, t));
            && d'.watermark == Max(d.watermark, t)
            && (!e.isRevert || (cfg.ignoreBots && e.bot) ==>
                  d'.pages == d.pages && AlertOf(cfg, d, Observe(e, t)).None?)
            && (e.isRevert && !(cfg.ignoreBots && e.bot) ==>
                  && d'.pages.Keys == d.pages.Keys + {PageKey(e)}
                  && (forall key :: key in d.pages && key != PageKey(e) ==> d'.pages[key] == d.pages[key])
                  && var before, after := PageOf(d, PageKey(e)).reverts, d'.pages[PageKey(e)].reverts;
                  EndsWith(before + [Revert(e.eventId, e.user, t)], after, t - cfg.windowMs))
  {
    EvictedIsTail(PageOf(d, PageKey(e)).reverts + [RevertOf(e, t)], t - cfg.windowMs);
  }

  /** kept is all from the first on that is not older than the cutoff. */
  ghost predicate EndsWith(all: History, kept: History, cutoff: int) {
    && |kept| <= |all| && kept == all[|all| - |kept|..]
    && (forall i :: 0 <= i < |all| - |kept| ==> all[i].timeMs < cutoff)
    && (kept != [] ==> kept[0].timeMs >= cutoff)
  }

  lemma {:induction false} EvictedIsTail(all: History, cutoff: int)
    ensures EndsWith(all, Evict(all, cutoff), cutoff)
  {
    if all != [] && all[0].timeMs < cutoff {
      EvictedIsTail(all[1..], cutoff);
    }
  }

  /** Whatever the times and expiries, every alert of a run names enough reverts by enough people. */
  lemma {:induction false} AlertsAreWars(cfg: Config, ops: seq<Op>)
    ensures forall a :: a in AlertsOf(cfg, ops) ==> |a.reverts| >= cfg.minReverts && |a.users| >= cfg.minUsers
  {
    if ops != [] {
      AlertsAreWars(cfg, ops[..|ops| - 1]);
    }
  }

  /**
   With event times in order, expiries anywhere, an event raises an alert exactly when it is
   a counted revert that completes a war on its page, unless earlier reverts there, each
   within the window of the one before it, connect it to an alert.
   */
  lemma AlertsIffWar(cfg: Config, ops: seq<Op>, e: CleanEvent, t: int)
    requires InTime(ops + [Observe(e, t)])
    ensures AlertOf(cfg, Ran(cfg, ops), Observe(e, t)).Some? <==>
            && e.isRevert && !(cfg.ignoreBots && e.bot)
            && var h := HistoryOf(cfg, ObservesOf(ops), PageKey(e)) + [RevertOf(e, t)];
            var i := |h| - 1;
            && IsWar(cfg, h, i)
            && !exists a :: 0 <= a < i && Alerted(cfg, h, a) && Chain(cfg, h, a, i)
  {
    AlertsFollowHistories(cfg, ops, e, t);
    LastIsInTime(ops, e, t);
    HistoryTakesNext(cfg, ops, e, t);
    NextFromEpoch(cfg, ops, e, t);
    var h := HistoryOf(cfg, ObservesOf(ops), PageKey(e)) + [RevertOf(e, t)];
    AlertedIff(cfg, h, |h| - 1);
  }

  lemma NextFromEpoch(cfg: Config, ops: seq<Op>, e: CleanEvent, t: int)
    requires InTime(ops) && t >= Clock(ops)
    ensures (HistoryOf(cfg, ObservesOf(ops), PageKey(e)) + [RevertOf(e, t)])[0].timeMs >= 0
  {
    ObservesInTime(ops);
    HistoryFromEpoch(cfg, ObservesOf(ops), PageKey(e));
    ClockFromEpoch(ops);
  }

  lemma {:induction false} ClockFromEpoch(ops: seq<Op>)
    ensures Clock(ops) >= 0
  {
    if ops != [] {
      ClockFromEpoch(ops[..|ops| - 1]);
    }
  }

  lemma {:induction false} HistoryFromEpoch(cfg: Config, ops: seq<Op>, key: string)
    requires InTime(ops)
    ensures forall r :: r in HistoryOf(cfg, ops, key) ==> r.timeMs >= 0
  {
    if ops != [] {
      HistoryFromEpoch(cfg, ops[..|ops| - 1], key);
      ClockFromEpoch(ops[..|ops| - 1]);
    }
  }

  lemma RemovedPages(pages: map<string, Page>, gone: set<string>)
    requires gone <= pages.Keys
    ensures |pages - gone| == |pages| - |gone|
  {
    assert (pages - gone).Keys == pages.Keys - gone;
  }

  /** Expiring keeps exactly the pages with a revert inside the window or an alert still on, as they are. */
  lemma ExpireKeepsActive(cfg: Config, d: Detector, key: string)
    ensures var d' := Done(cfg, d, Expire);
            && d'.watermark == d.watermark && (key in d'.pages ==> d'.pages[key] == PageOf(d, key))
            && (key in d'.pages <==>
                  && key in d.pages
                  && var p := d.pages[key];
                  || p.alertedUntil >= d.watermark
                  || (p.reverts != [] && p.reverts[|p.reverts| - 1].timeMs >= d.watermark - cfg.windowMs))
  {
  }

  // ---- The class ------------------------------------------------------------

  class EditWarDetector {
    const cfg: Config
    var pages: map<string, Page>
    var watermark: int
    var revertsSeen: nat
    var alertsRaised: nat

    ghost function Value(): Detector
      reads this
    {
      Detector(pages, watermark)
    }

    constructor (cfg: Config)
      ensures this.cfg == cfg && Value() == NEW_DETECTOR && revertsSeen == alertsRaised == 0
    {
      this.cfg := cfg;
      pages, watermark, revertsSeen, alertsRaised := map[], 0, 0, 0;
    }

    /** One event in place; an alert if it is a counted revert that raises one. */
    method Observe(e: CleanEvent, t: int) returns (alert: Option<Alert>)
      modifies this
      ensures Value() == Done(cfg, old(Value()), Op.Observe(e, t))
      ensures alert == AlertOf(cfg, old(Value()), Op.Observe(e, t))
      ensures revertsSeen == old(revertsSeen) + if Counts(cfg, e) then 1 else 0
      ensures alertsRaised == old(alertsRaised) + if alert.Some? then 1 else 0
    {
      watermark := Max(watermark, t);
      if !e.isRevert || (cfg.ignoreBots && e.bot) {
        return None;
      }
      revertsSeen := revertsSeen + 1;
      var key := PageKey(e);
      var page, raised := Join(if key in pages then pages[key] else NEW_PAGE, RevertOf(e, t));
      pages := pages[key := page];
      if !raised {
        return None;
      }
      alertsRaised := alertsRaised + 1;
      return Some(AlertFor(e, page.reverts));
    }

    /** A revert joins its page: the window moves, and the rule is looked at unless the page is already alerted. */
    method Join(state: Page, r: Revert) returns (page: Page, raised: bool)
      ensures page == Observed(cfg, state, r) && page.reverts == Joined(cfg, state, r) && page.reverts != []
      ensures raised == Raises(cfg, state, r)
    {
      var t := r.timeMs;
      var reverts := EvictOld(state.reverts + [r], t);
      if t <= state.alertedUntil {
        return Page(reverts, t + cfg.windowMs), false;
      }
      if |reverts| < cfg.minReverts || |Users(reverts)| < cfg.minUsers {
        return Page(reverts, state.alertedUntil), false;
      }
      return Page(reverts, t + cfg.windowMs), true;
    }

    method EvictOld(reverts: History, now: int) returns (kept: History)
      ensures kept == Evict(reverts, now - cfg.windowMs)
    {
      kept := reverts;
      while kept != [] && kept[0].timeMs < now - cfg.windowMs
        invariant Evict(kept, now - cfg.windowMs) == Evict(reverts, now - cfg.windowMs)
        decreases |kept|
      {
        kept := kept[1..];
      }
    }

    /** Remove the pages that are forgettable now. */
    method Expire() returns (forgotten: nat)
      modifies this
      ensures Value() == Done(cfg, old(Value()), Op.Expire)
      ensures forgotten == |old(pages)| - |pages|
      ensures revertsSeen == old(revertsSeen) && alertsRaised == old(alertsRaised)
    {
      var stale := StaleKeys(cfg, Detector(pages, watermark));
      forgotten := |stale|;
      var rest := stale;
      while rest != {}
        invariant rest <= stale && pages == old(pages) - (stale - rest)
        invariant watermark == old(watermark) && revertsSeen == old(revertsSeen) && alertsRaised == old(alertsRaised)
        decreases |rest|
      {
        var key :| key in rest;
        assert stale - (rest - {key}) == stale - rest + {key};
        pages := pages - {key};
        rest := rest - {key};
      }
      assert stale - rest == stale;
      RemovedPages(old(pages), stale);
    }
  }
}

