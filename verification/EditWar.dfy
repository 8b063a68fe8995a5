/** Edit war alerts on one page (processors/edit_war_detector.py). */
module EditWar {
  import opened Common

  datatype Config = Config(windowMs: nat, minReverts: int, minUsers: int, ignoreBots: bool)

  // A sliding window of reverts, an alert when the rule is first met, and suppression that
  // every further revert in time extends. Results hold for reverts in order of event time.

  datatype Revert = Revert(eventId: string, user: string, timeMs: int)

  type History = seq<Revert>

  datatype Page = Page(reverts: History, alertedUntil: int)

  const NEW_PAGE := Page([], -1)

  // ---- One revert -----------------------------------------------------------

  /** Drop from the front while older than the cutoff. */
  function Evict(reverts: History, cutoff: int): (kept: History)
    ensures |kept| <= |reverts|
    ensures reverts != [] && reverts[|reverts| - 1].timeMs >= cutoff ==> kept != []
  {
    if reverts != [] && reverts[0].timeMs < cutoff then Evict(reverts[1..], cutoff) else reverts
  }

  function Users(reverts: History): set<string> {
    set r | r in reverts :: r.user
  }

  predicate EnoughFor(cfg: Config, reverts: History) {
    |reverts| >= cfg.minReverts && |Users(reverts)| >= cfg.minUsers
  }

  /** The page's reverts once r has joined them. */
  function Joined(cfg: Config, p: Page, r: Revert): History {
    Evict(p.reverts + [r], r.timeMs - cfg.windowMs)
  }

  predicate Suppressed(p: Page, r: Revert) {
    r.timeMs <= p.alertedUntil
  }

  predicate Raises(cfg: Config, p: Page, r: Revert) {
    !Suppressed(p, r) && EnoughFor(cfg, Joined(cfg, p, r))
  }

  function Observed(cfg: Config, p: Page, r: Revert): Page {
    Page(Joined(cfg, p, r),
         if Suppressed(p, r) || Raises(cfg, p, r) then r.timeMs + cfg.windowMs else p.alertedUntil)
  }

  // ---- A history of counted reverts -----------------------------------------

  /** The page after the first n reverts. */
  function At(cfg: Config, h: History, n: nat): Page
    requires n <= |h|
  {
    if n == 0 then NEW_PAGE else Observed(cfg, At(cfg, h, n - 1), h[n - 1])
  }

  /** Revert i raises an alert. */
  predicate Alerted(cfg: Config, h: History, i: nat)
    requires i < |h|
  {
    Raises(cfg, At(cfg, h, i), h[i])
  }

  ghost predicate Ordered(h: History) {
    forall i, j :: 0 <= i < j < |h| ==> h[i].timeMs <= h[j].timeMs
  }

  /** First index of the reverts no older than the window that ends at revert i. */
  function WindowStart(cfg: Config, h: History, i: nat): (s: nat)
    requires i < |h|
    ensures s <= i && forall j :: s <= j < i ==> h[j].timeMs >= h[i].timeMs - cfg.windowMs
    ensures s > 0 ==> h[s - 1].timeMs < h[i].timeMs - cfg.windowMs
  {
    StartFrom(cfg, h, i, i)
  }

  function StartFrom(cfg: Config, h: History, i: nat, k: nat): (s: nat)
    requires k <= i < |h| && forall j :: k <= j < i ==> h[j].timeMs >= h[i].timeMs - cfg.windowMs
    ensures s <= k && forall j :: s <= j < i ==> h[j].timeMs >= h[i].timeMs - cfg.windowMs
    ensures s > 0 ==> h[s - 1].timeMs < h[i].timeMs - cfg.windowMs
  {
    if k > 0 && h[k - 1].timeMs >= h[i].timeMs - cfg.windowMs then StartFrom(cfg, h, i, k - 1) else k
  }

  /** The reverts in the window that ends at revert i. */
  function Window(cfg: Config, h: History, i: nat): History
    requires i < |h|
  {
    h[WindowStart(cfg, h, i)..i + 1]
  }

  /** For reverts in order, that is all of them in [time - W, time]. */
  lemma WindowIsExact(cfg: Config, h: History, i: nat, j: nat)
    requires Ordered(h) && i < |h| && j <= i
    ensures WindowStart(cfg, h, i) <= j <==> h[i].timeMs - cfg.windowMs <= h[j].timeMs <= h[i].timeMs
  {
    var s := WindowStart(cfg, h, i);
    if j < s && j < s - 1 {
      assert h[j].timeMs <= h[s - 1].timeMs;
    }
  }

  lemma {:induction false} EvictIsTail(h: History, from: nat, to: nat, cutoff: int, s: nat)
    requires from <= s <= to <= |h|
    requires forall j :: from <= j < s ==> h[j].timeMs < cutoff
    requires s < to ==> h[s].timeMs >= cutoff
    ensures Evict(h[from..to], cutoff) == h[s..to]
    decreases s - from
  {
    if from < s {
      assert h[from..to][1..] == h[from + 1..to];
      EvictIsTail(h, from + 1, to, cutoff, s);
    }
  }

  lemma WindowMovesOn(cfg: Config, h: History, i: nat)
    requires Ordered(h) && 0 < i < |h|
    ensures WindowStart(cfg, h, i - 1) <= WindowStart(cfg, h, i)
  {
  }

  lemma EvictToWindow(cfg: Config, h: History, i: nat, from: nat)
    requires Ordered(h) && i < |h| && from <= WindowStart(cfg, h, i)
    ensures Evict(h[from..i + 1], h[i].timeMs - cfg.windowMs) == Window(cfg, h, i)
  {
    var s := WindowStart(cfg, h, i);
    forall j | from <= j < s
      ensures h[j].timeMs < h[i].timeMs - cfg.windowMs
    {
      WindowIsExact(cfg, h, i, j);
    }
    EvictIsTail(h, from, i + 1, h[i].timeMs - cfg.windowMs, s);
  }

  /** The window as the detector sees it when revert i joins the deque. */
  lemma JoinedIsWindow(cfg: Config, h: History, i: nat, from: nat, p: Page)
    requires Ordered(h) && i < |h| && from <= WindowStart(cfg, h, i) && p.reverts == h[from..i]
    ensures Joined(cfg, p, h[i]) == Window(cfg, h, i)
  {
    assert p.reverts + [h[i]] == h[from..i + 1];
    assert Joined(cfg, p, h[i]) == Evict(h[from..i + 1], h[i].timeMs - cfg.windowMs);
    EvictToWindow(cfg, h, i, from);
  }

  /** The deque of a page is exactly its window. */
  lemma {:induction false} DequeIsWindow(cfg: Config, h: History, i: nat)
    requires Ordered(h) && i < |h|
    ensures Joined(cfg, At(cfg, h, i), h[i]) == Window(cfg, h, i)
  {
    if i == 0 {
      JoinedIsWindow(cfg, h, 0, 0, NEW_PAGE);
    } else {
      DequeIsWindow(cfg, h, i - 1);
      WindowMovesOn(cfg, h, i);
      var from, p := WindowStart(cfg, h, i - 1), At(cfg, h, i);
      assert p.reverts == h[from..i];
      JoinedIsWindow(cfg, h, i, from, p);
    }
  }

  // ---- Chains ---------------------------------------------------------------

  /** The rule itself: enough reverts by enough people in the window that ends at revert i. */
  predicate RuleHolds(cfg: Config, h: History, i: nat)
    requires i < |h|
  {
    EnoughFor(cfg, Window(cfg, h, i))
  }

  /** Revert j follows the one before it within the window. */
  predicate Follows(cfg: Config, h: History, j: nat)
    requires 0 < j < |h|
  {
    h[j].timeMs <= h[j - 1].timeMs + cfg.windowMs
  }

  /** Each revert from a + 1 to i follows the one before it within the window. */
  ghost predicate Chain(cfg: Config, h: History, a: nat, i: nat)
    requires a <= i < |h|
  {
    forall j :: a < j <= i ==> Follows(cfg, h, j)
  }

  /** Revert i is in a chain that an alert began. */
  ghost predicate Covered(cfg: Config, h: History, i: nat)
    requires i < |h|
  {
    exists a :: 0 <= a <= i && Alerted(cfg, h, a) && Chain(cfg, h, a, i)
  }

  /** Revert i is in the chain of a first revert dated before the epoch, which a new page takes for already alerted. */
  ghost predicate Silenced(cfg: Config, h: History, i: nat)
    requires i < |h|
  {
    h[0].timeMs <= -1 && Chain(cfg, h, 0, i)
  }

  /** Revert i moves the suppression on exactly when it is in a covered or silenced chain. */
  lemma {:induction false} SuppressionIsChain(cfg: Config, h: History, i: nat)
    requires Ordered(h) && i < |h|
    ensures if Covered(cfg, h, i) || Silenced(cfg, h, i)
            then At(cfg, h, i + 1).alertedUntil == h[i].timeMs + cfg.windowMs
            else At(cfg, h, i + 1).alertedUntil < h[i].timeMs
    ensures Silenced(cfg, h, i) ==> !Alerted(cfg, h, i)
  {
    var p := At(cfg, h, i);
    if i > 0 {
      SuppressionIsChain(cfg, h, i - 1);
      ChainGrows(cfg, h, i);
    }
    if Alerted(cfg, h, i) {
      assert Chain(cfg, h, i, i);
    }
  }

  lemma ChainGrows(cfg: Config, h: History, i: nat)
    requires 0 < i < |h|
    ensures Covered(cfg, h, i) <==>
            Alerted(cfg, h, i) || (Covered(cfg, h, i - 1) && Follows(cfg, h, i))
    ensures Silenced(cfg, h, i) <==> Silenced(cfg, h, i - 1) && Follows(cfg, h, i)
  {
    assert Chain(cfg, h, i, i);
    if Covered(cfg, h, i) && !Alerted(cfg, h, i) {
      var a :| 0 <= a <= i && Alerted(cfg, h, a) && Chain(cfg, h, a, i);
      assert Chain(cfg, h, a, i - 1) && Follows(cfg, h, i);
    }
    if Covered(cfg, h, i - 1) && Follows(cfg, h, i) {
      var a :| 0 <= a <= i - 1 && Alerted(cfg, h, a) && Chain(cfg, h, a, i - 1);
      assert Chain(cfg, h, a, i);
    }
  }

  // ---- The rule in plain terms ----------------------------------------------

  /** The reverts up to i dated no earlier than the window before revert i. */
  ghost function Recent(cfg: Config, h: History, i: nat): set<nat>
    requires i < |h|
  {
    set j: nat | j <= i && h[j].timeMs >= h[i].timeMs - cfg.windowMs
  }

  ghost function People(h: History, at: set<nat>): set<string>
    requires forall j :: j in at ==> j < |h|
  {
    set j | j in at :: h[j].user
  }

  /** At least minReverts recent reverts, by at least minUsers different people. */
  ghost predicate IsWar(cfg: Config, h: History, i: nat)
    requires i < |h|
  {
    |Recent(cfg, h, i)| >= cfg.minReverts && |People(h, Recent(cfg, h, i))| >= cfg.minUsers
  }

  function Range(lo: nat, hi: nat): (range: set<nat>)
    requires lo <= hi
    ensures |range| == hi - lo && forall j: nat :: j in range <==> lo <= j < hi
  {
    if lo == hi then {} else Range(lo, hi - 1) + {hi - 1}
  }

  /** For reverts in order, the rule the detector looks at is that. */
  lemma RuleIsWar(cfg: Config, h: History, i: nat)
    requires Ordered(h) && i < |h|
    ensures RuleHolds(cfg, h, i) <==> IsWar(cfg, h, i)
  {
    var s, recent := WindowStart(cfg, h, i), Recent(cfg, h, i);
    forall j: nat
      ensures j in recent <==> s <= j < i + 1
    {
      if j <= i {
        WindowIsExact(cfg, h, i, j);
      }
    }
    assert recent == Range(s, i + 1);
    PeopleOfWindow(cfg, h, i);
  }

  lemma PeopleOfWindow(cfg: Config, h: History, i: nat)
    requires i < |h|
    requires forall j: nat :: j in Recent(cfg, h, i) <==> WindowStart(cfg, h, i) <= j < i + 1
    ensures Users(Window(cfg, h, i)) == People(h, Recent(cfg, h, i))
  {
    var s, window := WindowStart(cfg, h, i), Window(cfg, h, i);
    forall user | user in People(h, Recent(cfg, h, i))
      ensures user in Users(window)
    {
      var j :| j in Recent(cfg, h, i) && h[j].user == user;
      assert window[j - s] == h[j];
    }
    forall user | user in Users(window)
      ensures user in People(h, Recent(cfg, h, i))
    {
      var r :| r in window && r.user == user;
      var k :| 0 <= k < |window| && window[k] == r;
      assert h[s + k] == r && s + k in Recent(cfg, h, i);
    }
  }

  /**
   A revert raises an alert exactly when it completes a war and neither an earlier alert
   nor a first revert dated before the epoch is connected to it by reverts within the window.
   */
  lemma AlertedIff(cfg: Config, h: History, i: nat)
    requires Ordered(h) && i < |h|
    ensures Alerted(cfg, h, i) <==>
            && IsWar(cfg, h, i)
            && !(exists a :: 0 <= a < i && Alerted(cfg, h, a) && Chain(cfg, h, a, i))
            && !(h[0].timeMs <= -1 && Chain(cfg, h, 0, i))
  {
    RuleIsWar(cfg, h, i);
    DequeIsWindow(cfg, h, i);
    if i > 0 {
      SuppressionIsChain(cfg, h, i - 1);
      ChainFromEarlier(cfg, h, i);
    }
  }

  lemma ChainFromEarlier(cfg: Config, h: History, i: nat)
    requires 0 < i < |h|
    ensures (exists a :: 0 <= a < i && Alerted(cfg, h, a) && Chain(cfg, h, a, i)) <==>
            Covered(cfg, h, i - 1) && Follows(cfg, h, i)
    ensures Silenced(cfg, h, i) <==> Silenced(cfg, h, i - 1) && Follows(cfg, h, i)
  {
    if a :| 0 <= a < i && Alerted(cfg, h, a) && Chain(cfg, h, a, i) {
      assert Chain(cfg, h, a, i - 1) && Follows(cfg, h, i);
    }
    if Covered(cfg, h, i - 1) && Follows(cfg, h, i) {
      var a :| 0 <= a <= i - 1 && Alerted(cfg, h, a) && Chain(cfg, h, a, i - 1);
      assert Chain(cfg, h, a, i);
    }
  }

  // ---- The theorems ---------------------------------------------------------

  /** An alert is raised only where the rule holds, over reverts that span at most the window. */
  lemma AlertsKeepTheRule(cfg: Config, h: History, i: nat)
    requires Ordered(h) && i < |h| && Alerted(cfg, h, i)
    ensures Joined(cfg, At(cfg, h, i), h[i]) == Window(cfg, h, i) && RuleHolds(cfg, h, i)
    ensures forall r :: r in Window(cfg, h, i) ==> h[i].timeMs - cfg.windowMs <= r.timeMs <= h[i].timeMs
  {
    DequeIsWindow(cfg, h, i);
    forall r | r in Window(cfg, h, i)
      ensures h[i].timeMs - cfg.windowMs <= r.timeMs <= h[i].timeMs
    {
      WindowBounds(cfg, h, i, r);
    }
  }

  lemma WindowBounds(cfg: Config, h: History, i: nat, r: Revert)
    requires Ordered(h) && i < |h| && r in Window(cfg, h, i)
    ensures h[i].timeMs - cfg.windowMs <= r.timeMs <= h[i].timeMs
  {
    InWindow(cfg, h, i, r);
  }

  /** Wherever the rule holds, the page is in a chain begun by an alert, unless the chain is silenced. */
  lemma NoMissedWar(cfg: Config, h: History, i: nat)
    requires Ordered(h) && i < |h| && RuleHolds(cfg, h, i) && !Silenced(cfg, h, i)
    ensures Covered(cfg, h, i)
  {
    DequeIsWindow(cfg, h, i);
    SuppressionIsChain(cfg, h, i);
    if Alerted(cfg, h, i) {
      assert Chain(cfg, h, i, i);
    } else if i > 0 {
      SuppressionIsChain(cfg, h, i - 1);
      ChainGrows(cfg, h, i);
    }
  }

  /** In a silenced chain there is no alert at all. */
  lemma SilencedIsNotCovered(cfg: Config, h: History, i: nat)
    requires Ordered(h) && i < |h| && Silenced(cfg, h, i)
    ensures !Covered(cfg, h, i)
  {
    forall a | 0 <= a <= i
      ensures !Alerted(cfg, h, a)
    {
      assert Chain(cfg, h, 0, a);
      SuppressionIsChain(cfg, h, a);
    }
  }

  ghost predicate MissesNoWar(cfg: Config, h: History) {
    forall i :: 0 <= i < |h| && RuleHolds(cfg, h, i) ==> Covered(cfg, h, i)
  }

  /**
   No war is missed exactly when the rule never holds in a chain whose first revert, the
   page's first, is dated before the epoch.
   */
  lemma MissesNoWarIff(cfg: Config, h: History)
    requires Ordered(h)
    ensures MissesNoWar(cfg, h) <==> forall i :: 0 <= i < |h| && RuleHolds(cfg, h, i) ==> !Silenced(cfg, h, i)
    ensures h != [] && h[0].timeMs >= 0 ==> MissesNoWar(cfg, h)
  {
    forall i | 0 <= i < |h| && RuleHolds(cfg, h, i)
      ensures Covered(cfg, h, i) <==> !Silenced(cfg, h, i)
    {
      if Silenced(cfg, h, i) {
        SilencedIsNotCovered(cfg, h, i);
      } else {
        NoMissedWar(cfg, h, i);
      }
    }
  }

  lemma NoAlertInChain(cfg: Config, h: History, a: nat, b: nat)
    requires Ordered(h) && a < b < |h| && Alerted(cfg, h, a) && Chain(cfg, h, a, b)
    ensures !Alerted(cfg, h, b)
  {
    assert Chain(cfg, h, a, b - 1);
    assert Covered(cfg, h, b - 1) && Follows(cfg, h, b);
    SuppressionIsChain(cfg, h, b - 1);
  }

  /**
   Two alerts are separated by a gap without reverts that is longer than the window, and
   the second one's reverts all come after it.
   */
  lemma AlertsAreApart(cfg: Config, h: History, a: nat, b: nat) returns (gap: nat)
    requires Ordered(h) && a < b < |h| && Alerted(cfg, h, a) && Alerted(cfg, h, b)
    ensures a < gap <= WindowStart(cfg, h, b) && h[gap].timeMs > h[gap - 1].timeMs + cfg.windowMs
  {
    if Chain(cfg, h, a, b) {
      NoAlertInChain(cfg, h, a, b);
    }
    gap :| a < gap <= b && !Follows(cfg, h, gap);
    assert h[gap].timeMs <= h[b].timeMs;
    WindowIsExact(cfg, h, b, gap - 1);
  }

  ghost predicate DistinctIds(h: History) {
    forall i, j :: 0 <= i < j < |h| ==> h[i].eventId != h[j].eventId
  }

  lemma AlertsShareNoEvent(cfg: Config, h: History, a: nat, b: nat, r: Revert, q: Revert)
    requires Ordered(h) && DistinctIds(h) && a < b < |h| && Alerted(cfg, h, a) && Alerted(cfg, h, b)
    requires r in Window(cfg, h, a) && q in Window(cfg, h, b)
    ensures r.eventId != q.eventId
  {
    var gap := AlertsAreApart(cfg, h, a, b);
    InWindow(cfg, h, a, r);
    InWindow(cfg, h, b, q);
  }

  lemma InWindow(cfg: Config, h: History, i: nat, r: Revert)
    requires i < |h| && r in Window(cfg, h, i)
    ensures exists j :: WindowStart(cfg, h, i) <= j <= i && h[j] == r
  {
    var w := Window(cfg, h, i);
    var k :| 0 <= k < |w| && w[k] == r;
    assert h[WindowStart(cfg, h, i) + k] == r;
  }

  // ---- Starting afresh after a quiet time -----------------------------------

  /** No revert of the page is in the window of one at time t. */
  ghost predicate AllOld(cfg: Config, p: Page, t: int) {
    forall r :: r in p.reverts ==> r.timeMs < t - cfg.windowMs
  }

  /** Two pages no revert at time t or later can tell apart. */
  ghost predicate Alike(cfg: Config, p: Page, q: Page, t: int) {
    && (p.reverts == q.reverts || (AllOld(cfg, p, t) && AllOld(cfg, q, t)))
    && (p.alertedUntil == q.alertedUntil || (p.alertedUntil < t && q.alertedUntil < t))
  }

  lemma {:induction false} EvictAllOld(past: History, r: Revert, cutoff: int)
    requires (forall x :: x in past ==> x.timeMs < cutoff) && r.timeMs >= cutoff
    ensures Evict(past + [r], cutoff) == [r]
  {
    if past == [] {
      assert past + [r] == [r];
    } else {
      assert (past + [r])[1..] == past[1..] + [r];
      EvictAllOld(past[1..], r, cutoff);
    }
  }

  lemma AlikeStays(cfg: Config, p: Page, q: Page, r: Revert, t: int)
    requires Alike(cfg, p, q, t) && r.timeMs >= t
    ensures Joined(cfg, p, r) == Joined(cfg, q, r) && Raises(cfg, p, r) == Raises(cfg, q, r)
    ensures Alike(cfg, Observed(cfg, p, r), Observed(cfg, q, r), r.timeMs)
  {
    if p.reverts != q.reverts {
      EvictAllOld(p.reverts, r, r.timeMs - cfg.windowMs);
      EvictAllOld(q.reverts, r, r.timeMs - cfg.windowMs);
    }
  }

  lemma AtHoldsWindow(cfg: Config, h: History, i: nat)
    requires Ordered(h) && i < |h|
    ensures At(cfg, h, i + 1).reverts == Window(cfg, h, i)
  {
    DequeIsWindow(cfg, h, i);
  }

  lemma WindowIsOld(cfg: Config, h: History, cut: nat, r: Revert)
    requires Ordered(h) && 0 < cut < |h| && !Follows(cfg, h, cut) && r in Window(cfg, h, cut - 1)
    ensures r.timeMs < h[cut].timeMs - cfg.windowMs
  {
    WindowBounds(cfg, h, cut - 1, r);
  }

  lemma QuietIsOld(cfg: Config, h: History, cut: nat)
    requires Ordered(h) && 0 < cut < |h| && !Follows(cfg, h, cut)
    ensures AllOld(cfg, At(cfg, h, cut), h[cut].timeMs)
  {
    AtHoldsWindow(cfg, h, cut - 1);
    forall r | r in At(cfg, h, cut).reverts
      ensures r.timeMs < h[cut].timeMs - cfg.windowMs
    {
      WindowIsOld(cfg, h, cut, r);
    }
  }

  /** After a gap longer than the window, a page is like a new one to a revert dated at the epoch or later. */
  lemma QuietIsNew(cfg: Config, h: History, cut: nat)
    requires Ordered(h) && 0 < cut < |h| && !Follows(cfg, h, cut) && h[cut].timeMs >= 0
    ensures Alike(cfg, At(cfg, h, cut), NEW_PAGE, h[cut].timeMs)
  {
    SuppressionIsChain(cfg, h, cut - 1);
    QuietIsOld(cfg, h, cut);
  }

  lemma {:induction false} SuffixStaysAlike(cfg: Config, h: History, cut: nat, i: nat)
    requires Ordered(h) && 0 < cut <= i < |h| && !Follows(cfg, h, cut) && h[cut].timeMs >= 0
    ensures Alike(cfg, At(cfg, h, i), At(cfg, h[cut..], i - cut), h[i].timeMs)
  {
    if i == cut {
      QuietIsNew(cfg, h, cut);
    } else {
      SuffixStaysAlike(cfg, h, cut, i - 1);
      AlikeStays(cfg, At(cfg, h, i - 1), At(cfg, h[cut..], i - 1 - cut), h[i - 1], h[i - 1].timeMs);
      assert h[cut..][i - 1 - cut] == h[i - 1];
      StillAlike(cfg, At(cfg, h, i), At(cfg, h[cut..], i - cut), h[i - 1].timeMs, h[i].timeMs);
    }
  }

  lemma StillAlike(cfg: Config, p: Page, q: Page, t: int, t': int)
    requires Alike(cfg, p, q, t) && t <= t'
    ensures Alike(cfg, p, q, t')
  {
  }

  /** The windows of reverts after a gap longer than the window do not reach back over it. */
  lemma WindowsAgree(cfg: Config, h: History, cut: nat, i: nat)
    requires Ordered(h) && 0 < cut <= i < |h| && !Follows(cfg, h, cut)
    ensures Window(cfg, h, i) == Window(cfg, h[cut..], i - cut)
  {
    StartsAgree(cfg, h, cut, i);
  }

  lemma StartsAgree(cfg: Config, h: History, cut: nat, i: nat)
    requires Ordered(h) && 0 < cut <= i < |h| && !Follows(cfg, h, cut)
    ensures WindowStart(cfg, h, i) == WindowStart(cfg, h[cut..], i - cut) + cut
  {
    var later := h[cut..];
    var s, s' := WindowStart(cfg, h, i), WindowStart(cfg, later, i - cut);
    StartPastGap(cfg, h, cut, i);
    WindowIsExact(cfg, h, i, s' + cut);
    WindowIsExact(cfg, later, i - cut, s - cut);
  }

  lemma StartPastGap(cfg: Config, h: History, cut: nat, i: nat)
    requires Ordered(h) && 0 < cut <= i < |h| && !Follows(cfg, h, cut)
    ensures WindowStart(cfg, h, i) >= cut
  {
    assert h[cut].timeMs <= h[i].timeMs;
    WindowIsExact(cfg, h, i, cut - 1);
  }

  /** Starting a page from nothing at the cut gives the same later alerts. */
  ghost predicate AlertsAgreeFrom(cfg: Config, h: History, cut: nat)
    requires cut <= |h|
  {
    forall i :: cut <= i < |h| ==> (Alerted(cfg, h, i) <==> Alerted(cfg, h[cut..], i - cut))
  }

  /** From the epoch on, starting afresh after a quiet time gives the same later alerts. */
  lemma QuietCutIsInvisible(cfg: Config, h: History, cut: nat)
    requires Ordered(h) && 0 < cut < |h| && !Follows(cfg, h, cut) && h[cut].timeMs >= 0
    ensures AlertsAgreeFrom(cfg, h, cut)
  {
    forall i | cut <= i < |h|
      ensures Alerted(cfg, h, i) <==> Alerted(cfg, h[cut..], i - cut)
    {
      SuffixStaysAlike(cfg, h, cut, i);
      assert h[cut..][i - cut] == h[i];
      AlikeStays(cfg, At(cfg, h, i), At(cfg, h[cut..], i - cut), h[i], h[i].timeMs);
    }
  }

  lemma SuffixFollows(cfg: Config, h: History, cut: nat, i: nat)
    requires cut < i < |h|
    ensures Follows(cfg, h, i) <==> Follows(cfg, h[cut..], i - cut)
  {
  }

  lemma SuffixChain(cfg: Config, h: History, cut: nat, i: nat)
    requires cut <= i < |h|
    ensures Chain(cfg, h, cut, i) <==> Chain(cfg, h[cut..], 0, i - cut)
  {
    forall j | cut < j <= i
      ensures Follows(cfg, h, j) <==> Follows(cfg, h[cut..], j - cut)
    {
      SuffixFollows(cfg, h, cut, j);
    }
    if Chain(cfg, h, cut, i) {
      forall j | 0 < j <= i - cut
        ensures Follows(cfg, h[cut..], j)
      {
        assert Follows(cfg, h, j + cut);
      }
    }
  }

  /** After a second gap, the page and the one started afresh are alike, whatever the times. */
  lemma GapMakesAlike(cfg: Config, h: History, cut: nat, i: nat)
    requires Ordered(h) && cut < i < |h| && !Follows(cfg, h, i)
    ensures Alike(cfg, At(cfg, h, i), At(cfg, h[cut..], i - cut), h[i].timeMs)
  {
    var later := h[cut..];
    assert later[i - cut] == h[i] && later[i - 1 - cut] == h[i - 1];
    QuietIsOld(cfg, h, i);
    QuietIsOld(cfg, later, i - cut);
    SuppressionIsChain(cfg, h, i - 1);
    SuppressionIsChain(cfg, later, i - 1 - cut);
  }

  /** Past the chain that begins at the cut, nothing tells the two pages apart. */
  lemma {:induction false} ChainOrAlike(cfg: Config, h: History, cut: nat, i: nat)
    requires Ordered(h) && cut <= i < |h|
    ensures Chain(cfg, h, cut, i) || Alike(cfg, At(cfg, h, i), At(cfg, h[cut..], i - cut), h[i].timeMs)
  {
    if i > cut {
      if Follows(cfg, h, i) {
        ChainOrAlike(cfg, h, cut, i - 1);
        if !Chain(cfg, h, cut, i - 1) {
          OneMoreAlike(cfg, h, cut, i);
        }
      } else {
        GapMakesAlike(cfg, h, cut, i);
      }
    }
  }

  lemma OneMoreAlike(cfg: Config, h: History, cut: nat, i: nat)
    requires Ordered(h) && cut < i < |h|
    requires Alike(cfg, At(cfg, h, i - 1), At(cfg, h[cut..], i - 1 - cut), h[i - 1].timeMs)
    ensures Alike(cfg, At(cfg, h, i), At(cfg, h[cut..], i - cut), h[i].timeMs)
  {
    assert h[cut..][i - 1 - cut] == h[i - 1];
    AlikeStays(cfg, At(cfg, h, i - 1), At(cfg, h[cut..], i - 1 - cut), h[i - 1], h[i - 1].timeMs);
    StillAlike(cfg, At(cfg, h, i), At(cfg, h[cut..], i - cut), h[i - 1].timeMs, h[i].timeMs);
  }

  /** A page started afresh by a revert dated before the epoch is silent for the whole chain. */
  lemma FreshChainIsSilent(cfg: Config, h: History, cut: nat, i: nat)
    requires Ordered(h) && cut <= i < |h| && Chain(cfg, h, cut, i) && h[cut].timeMs < 0
    ensures !Alerted(cfg, h[cut..], i - cut)
  {
    SuffixChain(cfg, h, cut, i);
    assert h[cut..][0] == h[cut];
    SuppressionIsChain(cfg, h[cut..], i - cut);
  }

  /** A chain that begins after a gap, and in which the rule holds once, holds an alert. */
  lemma ChainHoldsAlert(cfg: Config, h: History, cut: nat, i: nat) returns (a: nat)
    requires Ordered(h) && 0 < cut <= i < |h| && !Follows(cfg, h, cut) && Chain(cfg, h, cut, i) && RuleHolds(cfg, h, i)
    ensures cut <= a <= i && Alerted(cfg, h, a) && Chain(cfg, h, cut, a)
  {
    assert !Chain(cfg, h, 0, i);
    NoMissedWar(cfg, h, i);
    a :| 0 <= a <= i && Alerted(cfg, h, a) && Chain(cfg, h, a, i);
    assert forall j :: a < j <= i ==> Follows(cfg, h, j);
  }

  /**
   After a gap longer than the window, starting a page from nothing gives the same later
   alerts if and only if the next revert is dated at the epoch or later, or the rule never
   holds in the chain that revert begins.
   */
  lemma QuietCutIsInvisibleIff(cfg: Config, h: History, cut: nat)
    requires Ordered(h) && 0 < cut < |h| && !Follows(cfg, h, cut)
    ensures AlertsAgreeFrom(cfg, h, cut) <==>
            || h[cut].timeMs >= 0
            || forall i :: cut <= i < |h| && Chain(cfg, h, cut, i) ==> !RuleHolds(cfg, h, i)
  {
    if h[cut].timeMs >= 0 {
      QuietCutIsInvisible(cfg, h, cut);
    } else if i :| cut <= i < |h| && Chain(cfg, h, cut, i) && RuleHolds(cfg, h, i) {
      var a := ChainHoldsAlert(cfg, h, cut, i);
      FreshChainIsSilent(cfg, h, cut, a);
    } else {
      forall i | cut <= i < |h|
        ensures Alerted(cfg, h, i) <==> Alerted(cfg, h[cut..], i - cut)
      {
        AgreesWithoutRule(cfg, h, cut, i);
      }
    }
  }

  lemma AgreesWithoutRule(cfg: Config, h: History, cut: nat, i: nat)
    requires Ordered(h) && cut <= i < |h| && h[cut].timeMs < 0
    requires Chain(cfg, h, cut, i) ==> !RuleHolds(cfg, h, i)
    ensures Alerted(cfg, h, i) <==> Alerted(cfg, h[cut..], i - cut)
  {
    if Chain(cfg, h, cut, i) {
      FreshChainIsSilent(cfg, h, cut, i);
      DequeIsWindow(cfg, h, i);
    } else {
      ChainOrAlike(cfg, h, cut, i);
      assert h[cut..][i - cut] == h[i];
      AlikeStays(cfg, At(cfg, h, i), At(cfg, h[cut..], i - cut), h[i], h[i].timeMs);
    }
  }
}

