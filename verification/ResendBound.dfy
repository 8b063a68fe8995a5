/**
 How much a crash makes the ingestor read again (ingestor/main.py): on one connection
 whose events all carry an id, exactly the released but unsaved messages and those
 still in flight.
 */
module ResendBound {
  import opened Common
  import opened DeliveryTracker
  import opened Ingestor

  ghost predicate AllIds(source: Source) {
    UniqueIds(source) && forall e :: 0 <= e < |source| ==> Usable(source[e].id) && !source[e].isError
  }

  /** The pending messages are those of the last positions read, in order. */
  ghost predicate PendingIsTail(source: Source, pending: seq<Sent>, next: nat) {
    && |pending| <= next <= |source|
    && forall i :: 0 <= i < |pending| ==> pending[i].streamId == source[next - |pending| + i].id
  }

  /**
   On its first connection, the process has released events up to next - |pending| and
   saved all but unsaved of them.
   */
  ghost predicate Accounted(source: Source, saved: Option<string>, p: Proc) {
    if p.conns == 0 then p.conn.None? && p.released == p.unsaved == 0 && p.pending == [] && p.last == saved
    else p.conns == 1 && p.conn.Some? && FirstConn(source, saved, p, p.conn.value)
  }

  ghost predicate FirstConn(source: Source, saved: Option<string>, p: Proc, c: Conn) {
    && PendingIsTail(source, p.pending, c.next)
    && c.next - c.start == |p.pending| + p.released && p.unsaved <= p.released
    && (p.released > 0 ==> p.last == source[c.next - |p.pending| - 1].id)
    && (p.released == 0 ==> p.last == saved)
    && (saved.Some? ==> IdAt(source, saved, c.next - |p.pending| - p.unsaved - 1))
    && (saved.None? ==> p.unsaved == p.released)
  }

  ghost predicate Inv1(source: Source, s: State) {
    s.proc.Some? && s.proc.value.conns <= 1 ==> Accounted(source, s.saved, s.proc.value)
  }

  lemma ReadKeepsFirstConn(source: Source, saved: Option<string>, p: Proc, c: Conn)
    requires AllIds(source) && FirstConn(source, saved, p, c) && p.conn == Some(c) && c.start <= c.next < |source|
    ensures var p' := AfterRead(source, p, c); FirstConn(source, saved, p', p'.conn.value)
  {
    var p' := AfterRead(source, p, c);
    assert forall i :: 0 <= i < |p.pending| ==> p'.pending[i] == p.pending[i];
  }

  /** Releasing a prefix leaves a tail and reports the id of the last position released. */
  lemma ReleaseLeavesTail(source: Source, pending: seq<Sent>, next: nat, count: nat)
    requires AllIds(source) && PendingIsTail(source, pending, next) && count <= |pending|
    ensures PendingIsTail(source, pending[count..], next)
    ensures if count > 0 then LastId(pending, count) == source[next - |pending| + count - 1].id
            else LastId(pending, count).None?
  {
    var rest := pending[count..];
    assert forall i :: 0 <= i < |rest| ==> rest[i] == pending[count + i];
    if count > 0 {
      assert pending[..count][count - 1] == pending[count - 1];
    }
  }

  lemma DeliverKeepsFirstConn(source: Source, saved: Option<string>, p: Proc, c: Conn, seqNo: nat, p': Proc)
    requires AllIds(source) && FirstConn(source, saved, p, c) && p' == Delivered(p, seqNo)
    ensures FirstConn(source, saved, p', c)
  {
    var count := ConfirmedPrefix(p.pending, p.confirmed + {seqNo});
    ReleaseLeavesTail(source, p.pending, c.next, count);
    assert |p'.pending| == |p.pending| - count && p'.released == p.released + count && p'.unsaved == p.unsaved + count;
    assert p'.last == if count > 0 then source[c.next - |p'.pending| - 1].id else p.last;
  }

  lemma SaveKeepsFirstConn(source: Source, saved: Option<string>, p: Proc, c: Conn)
    requires AllIds(source) && FirstConn(source, saved, p, c) && p.unsaved > 0
    ensures FirstConn(source, p.last, p.(unsaved := 0), c)
  {
  }

  lemma NextKeepsInv1(source: Source, s: State, s': State)
    requires AllIds(source) && Inv1(source, s) && CanFollow(source, s, s')
    ensures Inv1(source, s')
  {
    var step :| Next(source, s, step, s');
    if s.proc.Some? && s.proc.value.conns == 1 {
      FirstConnStays(source, s, step, s');
    }
  }

  lemma FirstConnStays(source: Source, s: State, step: Step, s': State)
    requires AllIds(source) && Inv1(source, s) && s.proc.Some? && s.proc.value.conns == 1 && Next(source, s, step, s')
    ensures Inv1(source, s')
  {
    var p, c := s.proc.value, s.proc.value.conn.value;
    if step.Read? {
      ReadKeepsFirstConn(source, s.saved, p, c);
    } else if step.Deliver? {
      DeliverKeepsFirstConn(source, s.saved, p, c, step.seqNo, s'.proc.value);
    } else if step.Save? {
      SaveKeepsFirstConn(source, s.saved, p, c);
    }
  }

  lemma {:induction false} RunKeepsInv1(source: Source, trace: seq<State>, i: nat)
    requires AllIds(source) && Run(source, trace) && i < |trace|
    ensures Inv1(source, trace[i])
  {
    if i > 0 {
      RunKeepsInv1(source, trace, i - 1);
      assert CanFollow(source, trace[i - 1], trace[i - 1 + 1]);
      NextKeepsInv1(source, trace[i - 1], trace[i]);
    }
  }

  /** Where a process started after a crash resumes: after the saved event, or where this connection began. */
  ghost predicate ResumesAt(source: Source, saved: Option<string>, c: Conn, start: nat) {
    if saved.Some? then IdAt(source, saved, start - 1) else start == c.start
  }

  /** The events sent on the only connection of a process that a crash would make the next one read again. */
  lemma ResendIsUnsavedPlusInFlight(source: Source, trace: seq<State>, i: nat, start: nat)
    requires AllIds(source) && Run(source, trace) && i < |trace|
    requires trace[i].proc.Some? && trace[i].proc.value.conns == 1 && trace[i].proc.value.conn.Some?
    requires ResumesAt(source, trace[i].saved, trace[i].proc.value.conn.value, start)
    ensures var p := trace[i].proc.value;
            p.conn.value.next - start == p.unsaved + |p.pending|
  {
    RunKeepsInv1(source, trace, i);
  }
}

