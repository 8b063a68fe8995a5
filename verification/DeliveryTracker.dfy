/**
 Releasing stream ids in produce order although confirmations arrive in any order
 (DeliveryTracker in ingestor/main.py).
 */
module DeliveryTracker {
  import opened Common

  datatype Sent = Sent(seqNo: nat, streamId: Option<string>)

  predicate Usable(id: Option<string>) {
    id.Some? && id.value != ""
  }

  /** Messages are numbered in the order they are sent. */
  ghost predicate Increasing(sent: seq<Sent>) {
    forall i, j :: 0 <= i < j < |sent| ==> sent[i].seqNo < sent[j].seqNo
  }

  function SeqNos(sent: seq<Sent>): set<nat> {
    set e | e in sent :: e.seqNo
  }

  /** Length of the longest prefix that is fully confirmed. */
  function ConfirmedPrefix(sent: seq<Sent>, confirmed: set<nat>): (r: nat)
    ensures r <= |sent|
    ensures forall i :: 0 <= i < r ==> sent[i].seqNo in confirmed
    ensures r < |sent| ==> sent[r].seqNo !in confirmed
  {
    if sent == [] || sent[0].seqNo !in confirmed then 0
    else
      var rest := ConfirmedPrefix(sent[1..], confirmed);
      assert forall i :: 1 <= i < rest + 1 ==> sent[i] == sent[1..][i - 1];
      rest + 1
  }

  lemma PrefixIsUnique(sent: seq<Sent>, confirmed: set<nat>, r: nat)
    requires r <= |sent| && forall i :: 0 <= i < r ==> sent[i].seqNo in confirmed
    requires r < |sent| ==> sent[r].seqNo !in confirmed
    ensures r == ConfirmedPrefix(sent, confirmed)
  {
  }

  /** The last id among the first n messages that is neither missing nor empty. */
  function LastId(sent: seq<Sent>, n: nat): (id: Option<string>)
    requires n <= |sent|
    ensures id.Some? ==> Usable(id)
  {
    if n == 0 then None
    else if Usable(sent[n - 1].streamId) then sent[n - 1].streamId
    else LastId(sent, n - 1)
  }

  function OrElse(a: Option<string>, b: Option<string>): Option<string> {
    if a.Some? then a else b
  }

  /** Releasing r messages and then more of the rest reports what releasing them together does. */
  lemma {:induction false} LastIdInTwo(sent: seq<Sent>, r: nat, more: nat)
    requires r + more <= |sent|
    ensures LastId(sent, r + more) == OrElse(LastId(sent[r..], more), LastId(sent, r))
  {
    if more > 0 {
      LastIdInTwo(sent, r, more - 1);
    }
  }

  lemma OneMoreSeqNo(sent: seq<Sent>, n: nat)
    requires n < |sent|
    ensures SeqNos(sent[..n + 1]) == SeqNos(sent[..n]) + {sent[n].seqNo}
  {
    assert sent[..n + 1] == sent[..n] + [sent[n]];
  }

  class DeliveryTracker {
    var pending: seq<Sent>
    var confirmed: set<nat>

    constructor ()
      ensures pending == [] && confirmed == {}
    {
      pending, confirmed := [], {};
    }

    method Register(seqNo: nat, streamId: Option<string>)
      modifies this
      ensures pending == old(pending) + [Sent(seqNo, streamId)] && confirmed == old(confirmed)
    {
      pending := pending + [Sent(seqNo, streamId)];
    }

    /** A delivery is confirmed: pop every confirmed message at the front, and say how many and which id came last. */
    method Confirm(seqNo: nat) returns (released: Option<string>, count: nat)
      requires Increasing(pending)
      modifies this
      ensures count == ConfirmedPrefix(old(pending), old(confirmed) + {seqNo})
      ensures pending == old(pending)[count..]
      ensures confirmed == old(confirmed) + {seqNo} - SeqNos(old(pending)[..count])
      ensures released == LastId(old(pending), count)
    {
      ghost var before, all := pending, confirmed + {seqNo};
      confirmed := confirmed + {seqNo};
      released, count := None, 0;
      while |pending| > 0 && pending[0].seqNo in confirmed
        invariant count <= |before| && pending == before[count..]
        invariant confirmed == all - SeqNos(before[..count])
        invariant forall i :: 0 <= i < count ==> before[i].seqNo in all
        invariant released == LastId(before, count)
        decreases |pending|
      {
        var done := pending[0];
        OneMoreSeqNo(before, count);
        pending, confirmed := pending[1..], confirmed - {done.seqNo};
        count := count + 1;
        if Usable(done.streamId) {
          released := done.streamId;
        }
      }
      PrefixIsUnique(before, all, count);
    }

    function InFlight(): nat
      reads this
    {
      |pending|
    }
  }

  // ---- Any order of confirmations -------------------------------------------

  /** The messages still pending, given all that were sent and every confirmation so far. */
  function Left(all: seq<Sent>, acked: set<nat>): seq<Sent> {
    all[ConfirmedPrefix(all, acked)..]
  }

  /** The confirmations still waiting for an earlier message. */
  function Waiting(all: seq<Sent>, acked: set<nat>): set<nat> {
    acked - SeqNos(all[..ConfirmedPrefix(all, acked)])
  }

  /** Registering one more message only adds it to the pending ones. */
  lemma RegisterAppends(all: seq<Sent>, acked: set<nat>, e: Sent)
    requires e.seqNo !in acked
    ensures Left(all + [e], acked) == Left(all, acked) + [e] && Waiting(all + [e], acked) == Waiting(all, acked)
  {
    var r := ConfirmedPrefix(all, acked);
    PrefixIsUnique(all + [e], acked, r);
    assert (all + [e])[..r] == all[..r];
  }

  /** What the pending messages release next extends the released prefix of all messages. */
  lemma PrefixGrows(all: seq<Sent>, acked: set<nat>, confirmed: set<nat>, seqNo: nat)
    requires Increasing(all) && seqNo !in acked
    requires confirmed == acked - SeqNos(all[..ConfirmedPrefix(all, acked)])
    ensures var r := ConfirmedPrefix(all, acked);
            ConfirmedPrefix(all, acked + {seqNo}) == r + ConfirmedPrefix(all[r..], confirmed + {seqNo})
  {
    var r := ConfirmedPrefix(all, acked);
    var pending := all[r..];
    var more := ConfirmedPrefix(pending, confirmed + {seqNo});
    forall i | 0 <= i < r + more
      ensures all[i].seqNo in acked + {seqNo}
    {
      if i >= r {
        assert all[i] == pending[i - r];
      }
    }
    if r + more < |all| {
      assert all[r + more] == pending[more];
      forall e | e in all[..r]
        ensures e.seqNo < all[r + more].seqNo
      {
      }
    }
    PrefixIsUnique(all, acked + {seqNo}, r + more);
  }

  lemma SeqNosOfConcat(a: seq<Sent>, b: seq<Sent>)
    ensures SeqNos(a + b) == SeqNos(a) + SeqNos(b)
  {
    forall e | e in a
      ensures e in a + b
    {
    }
    forall e | e in b
      ensures e in a + b
    {
    }
  }

  lemma ReleasedNotKept(all: seq<Sent>, r: nat, acked: set<nat>)
    requires r <= |all| && forall i :: 0 <= i < r ==> all[i].seqNo in acked
    ensures SeqNos(all[..r]) <= acked
  {
  }

  /** Confirming one more message releases exactly what the tracker pops. */
  lemma ConfirmReleases(all: seq<Sent>, acked: set<nat>, seqNo: nat)
    requires Increasing(all) && seqNo !in acked
    ensures var more := ConfirmedPrefix(Left(all, acked), Waiting(all, acked) + {seqNo});
            && Left(all, acked + {seqNo}) == Left(all, acked)[more..]
            && Waiting(all, acked + {seqNo}) == Waiting(all, acked) + {seqNo} - SeqNos(Left(all, acked)[..more])
  {
    var r := ConfirmedPrefix(all, acked);
    var more := ConfirmedPrefix(all[r..], Waiting(all, acked) + {seqNo});
    PrefixGrows(all, acked, Waiting(all, acked), seqNo);
    Slices(all, r, more);
    SeqNosOfConcat(all[..r], all[r..][..more]);
    ReleasedNotKept(all, r, acked);
    LeftOver(acked, seqNo, SeqNos(all[..r]), SeqNos(all[r..][..more]));
  }

  lemma Slices(all: seq<Sent>, r: nat, more: nat)
    requires r + more <= |all|
    ensures all[..r + more] == all[..r] + all[r..][..more] && all[r + more..] == all[r..][more..]
  {
  }

  lemma LeftOver(acked: set<nat>, seqNo: nat, released: set<nat>, more: set<nat>)
    requires released <= acked && seqNo !in acked
    ensures acked - released + {seqNo} - more == acked + {seqNo} - (released + more)
  {
  }

  /** pending, confirmed, and the reported id and counts accumulated over several confirmations. */
  datatype Progress = Progress(pending: seq<Sent>, confirmed: set<nat>, lastId: Option<string>, count: nat)

  function ConfirmOne(p: Progress, seqNo: nat): Progress {
    var more := ConfirmedPrefix(p.pending, p.confirmed + {seqNo});
    Progress(
      p.pending[more..],
      p.confirmed + {seqNo} - SeqNos(p.pending[..more]),
      OrElse(LastId(p.pending, more), p.lastId),
      p.count + more)
  }

  /** What a set of confirmations amounts to. */
  function Outcome(all: seq<Sent>, acked: set<nat>): Progress {
    var r := ConfirmedPrefix(all, acked);
    Progress(Left(all, acked), Waiting(all, acked), LastId(all, r), r)
  }

  /** How many more messages one confirmation releases, on top of the outcome for a set of them. */
  function More(all: seq<Sent>, acked: set<nat>, seqNo: nat): (more: nat)
    ensures more <= |Left(all, acked)|
  {
    ConfirmedPrefix(Left(all, acked), Waiting(all, acked) + {seqNo})
  }

  lemma {:induction false} CountOnTop(all: seq<Sent>, acked: set<nat>, seqNo: nat)
    requires Increasing(all) && seqNo !in acked
    ensures ConfirmedPrefix(all, acked) + More(all, acked, seqNo) == ConfirmedPrefix(all, acked + {seqNo})
  {
    PrefixGrows(all, acked, Waiting(all, acked), seqNo);
  }

  lemma {:induction false} LastIdOnTop(all: seq<Sent>, acked: set<nat>, seqNo: nat)
    requires Increasing(all) && seqNo !in acked
    ensures OrElse(LastId(Left(all, acked), More(all, acked, seqNo)), LastId(all, ConfirmedPrefix(all, acked))) ==
            LastId(all, ConfirmedPrefix(all, acked + {seqNo}))
  {
    CountOnTop(all, acked, seqNo);
    LastIdInTwo(all, ConfirmedPrefix(all, acked), More(all, acked, seqNo));
  }

  /** What happens to a tracker. */
  datatype Op = Registers(e: Sent) | Confirms(seqNo: nat)

  function PlayOne(p: Progress, op: Op): Progress {
    match op
    case Registers(e) => p.(pending := p.pending + [e])
    case Confirms(seqNo) => ConfirmOne(p, seqNo)
  }

  function Played(ops: seq<Op>): Progress {
    if ops == [] then Progress([], {}, None, 0) else PlayOne(Played(ops[..|ops| - 1]), ops[|ops| - 1])
  }

  function WithRegistered(all: seq<Sent>, op: Op): seq<Sent> {
    if op.Registers? then all + [op.e] else all
  }

  function WithConfirmed(acked: set<nat>, op: Op): set<nat> {
    if op.Confirms? then acked + {op.seqNo} else acked
  }

  function AllRegistered(ops: seq<Op>): seq<Sent> {
    if ops == [] then [] else WithRegistered(AllRegistered(ops[..|ops| - 1]), ops[|ops| - 1])
  }

  function AllConfirmed(ops: seq<Op>): set<nat> {
    if ops == [] then {} else WithConfirmed(AllConfirmed(ops[..|ops| - 1]), ops[|ops| - 1])
  }

  /** A message comes after all others and is not confirmed before; a confirmation is not repeated. */
  ghost predicate MayFollow(all: seq<Sent>, acked: set<nat>, op: Op) {
    match op
    case Registers(e) => e.seqNo !in acked && forall x :: x in all ==> x.seqNo < e.seqNo
    case Confirms(seqNo) => seqNo !in acked
  }

  /**
   Messages are registered in the order of their numbers, and confirmed at most once, not
   before they are registered.
   */
  ghost predicate InTurn(ops: seq<Op>) {
    ops != [] ==>
      var before, op := ops[..|ops| - 1], ops[|ops| - 1];
      InTurn(before) && MayFollow(AllRegistered(before), AllConfirmed(before), op)
  }

  lemma {:induction false} RegisteredInOrder(ops: seq<Op>)
    requires InTurn(ops)
    ensures Increasing(AllRegistered(ops))
  {
    if ops != [] {
      RegisteredInOrder(ops[..|ops| - 1]);
    }
  }

  /**
   However registers and the confirmations of a set of messages interleave and were
   ordered, the released part is the longest fully confirmed prefix, the id reported last
   is its last usable id, the counts add up to its length, and what is kept depends only
   on what was registered and confirmed.
   */
  lemma {:induction false} DeliveryOrderIsIrrelevant(ops: seq<Op>)
    requires InTurn(ops)
    ensures Played(ops) == Outcome(AllRegistered(ops), AllConfirmed(ops))
  {
    if ops == [] {
      PrefixIsUnique([], {}, 0);
    } else {
      var before, op := ops[..|ops| - 1], ops[|ops| - 1];
      DeliveryOrderIsIrrelevant(before);
      RegisteredInOrder(before);
      PlayedOnTop(AllRegistered(before), AllConfirmed(before), op);
    }
  }

  /** One more step on top of the outcome for what came before. */
  lemma {:induction false} PlayedOnTop(all: seq<Sent>, acked: set<nat>, op: Op)
    requires Increasing(all) && MayFollow(all, acked, op)
    ensures PlayOne(Outcome(all, acked), op) == Outcome(WithRegistered(all, op), WithConfirmed(acked, op))
  {
    match op
    case Registers(e) => RegisteredOnTop(all, acked, e);
    case Confirms(seqNo) =>
      ConfirmReleases(all, acked, seqNo);
      CountOnTop(all, acked, seqNo);
      LastIdOnTop(all, acked, seqNo);
  }

  /** One more message on top of the outcome for those before it. */
  lemma {:induction false} RegisteredOnTop(all: seq<Sent>, acked: set<nat>, e: Sent)
    requires e.seqNo !in acked
    ensures Outcome(all + [e], acked) == Outcome(all, acked).(pending := Outcome(all, acked).pending + [e])
  {
    var r := ConfirmedPrefix(all, acked);
    RegisterAppends(all, acked, e);
    PrefixIsUnique(all + [e], acked, r);
    LastIdOfPrefix(all, e, r);
  }

  lemma {:induction false} LastIdOfPrefix(all: seq<Sent>, e: Sent, n: nat)
    requires n <= |all|
    ensures LastId(all + [e], n) == LastId(all, n)
  {
    if n > 0 {
      LastIdOfPrefix(all, e, n - 1);
    }
  }
}

