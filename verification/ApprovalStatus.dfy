/** What the status of a finished tool call tells: the mapping of gate outcomes in `runGate` and
    `dispatchToolCall` of backend/src/orchestration/orchestratorTools.ts. */
module ApprovalStatus {
  import opened Text
  import opened Faults
  import opened ApprovalGate

  /** A row was written for call `i`. */
  ghost predicate RowWritten<T>(trace: seq<Event<T>>, i: nat) {
    exists k :: 0 <= k < |trace| && trace[k].Wrote? && trace[k].call == i
  }

  /** A decision for the request of call `i` arrived, an approval or another one. */
  ghost predicate Told<T>(sys: System<T>, trace: seq<Event<T>>, i: nat, approved: bool)
    requires i < |sys.calls|
  {
    exists k :: 0 <= k < |trace| && trace[k].Arrived? && trace[k].requestId == sys.calls[i].requestId
                && (trace[k].decision == Approve <==> approved)
  }

  ghost predicate TimedOut<T>(trace: seq<Event<T>>, i: nat) {
    exists k :: 0 <= k < |trace| && trace[k] == Settled(i, true)
  }

  /** The k-th action is the write of call `i`, approved, which takes effect and then reports an
      error. */
  predicate WriteFailsAfter<T>(sys: System<T>, actions: seq<Action>, i: nat, k: nat) {
    && k < |actions| && actions[k] == Resume(i, FailsAfter)
    && WritePending(sys, Run(sys, actions[..k]), i)
  }

  predicate WritePending<T>(sys: System<T>, s: State<T>, i: nat) {
    && i < |sys.calls| && i < |s.phases| && s.phases[i].Decided?
    && s.phases[i].decision == Approve && !s.phases[i].draft.CommsDraft?
  }

  ghost predicate WriteLost<T>(sys: System<T>, actions: seq<Action>, i: nat) {
    exists k :: WriteFailsAfter(sys, actions, i, k)
  }

  /** What a status says of call `i`; `lost` tells whether its write took effect and then reported
      an error. */
  ghost predicate StatusTrue<T>(sys: System<T>, trace: seq<Event<T>>, i: nat, status: Status, lost: bool)
    requires i < |sys.calls|
  {
    match status
    case Done => Told(sys, trace, i, true) && (RowWritten(trace, i) <==> !sys.calls[i].Comms?) && !lost
    case Rejected => Told(sys, trace, i, false) && !RowWritten(trace, i) && !lost
    case Timeout => TimedOut(trace, i) && !RowWritten(trace, i) && !lost
    case Error => (RowWritten(trace, i) <==> lost) && (lost ==> Told(sys, trace, i, true))
  }

  ghost predicate AllTrue<T>(sys: System<T>, actions: seq<Action>, s: State<T>) {
    |s.phases| == |sys.calls|
    && forall i :: 0 <= i < |s.phases| ==>
      if s.phases[i].Finished? then StatusTrue(sys, s.trace, i, s.phases[i].status, WriteLost(sys, actions, i))
      else !WriteLost(sys, actions, i)
  }

  /** More of the trace, with no row for call `i` in it. */
  ghost predicate Grows<T>(trace: seq<Event<T>>, more: seq<Event<T>>, i: nat) {
    trace <= more && forall k :: |trace| <= k < |more| ==> !(more[k].Wrote? && more[k].call == i)
  }

  lemma StaysTrue<T>(sys: System<T>, trace: seq<Event<T>>, more: seq<Event<T>>, i: nat, status: Status, lost: bool)
    requires i < |sys.calls| && StatusTrue(sys, trace, i, status, lost) && Grows(trace, more, i)
    ensures StatusTrue(sys, more, i, status, lost)
  {
    WrittenOnlyBefore(trace, more, i);
    if Told(sys, trace, i, true) { ToldStays(sys, trace, more, i, true); }
    if Told(sys, trace, i, false) { ToldStays(sys, trace, more, i, false); }
    if TimedOut(trace, i) {
      var k :| 0 <= k < |trace| && trace[k] == Settled(i, true);
      assert more[k] == trace[k];
    }
  }

  lemma WrittenOnlyBefore<T>(trace: seq<Event<T>>, more: seq<Event<T>>, i: nat)
    requires Grows(trace, more, i)
    ensures RowWritten(more, i) <==> RowWritten(trace, i)
  {
    if RowWritten(trace, i) {
      var k :| 0 <= k < |trace| && trace[k].Wrote? && trace[k].call == i;
      assert more[k] == trace[k];
    }
    if RowWritten(more, i) {
      var k :| 0 <= k < |more| && more[k].Wrote? && more[k].call == i;
      assert more[k] == trace[k];
    }
  }

  lemma ToldStays<T>(sys: System<T>, trace: seq<Event<T>>, more: seq<Event<T>>, i: nat, approved: bool)
    requires i < |sys.calls| && Told(sys, trace, i, approved) && trace <= more
    ensures Told(sys, more, i, approved)
  {
    var k :| 0 <= k < |trace| && trace[k].Arrived? && trace[k].requestId == sys.calls[i].requestId
             && (trace[k].decision == Approve <==> approved);
    assert more[k] == trace[k];
  }

  /** No row is written for a call that has not finished. */
  lemma NothingWrittenYet<T>(sys: System<T>, s: State<T>, i: nat)
    requires Inv(sys, s) && i < |s.phases| && !s.phases[i].Finished?
    ensures !RowWritten(s.trace, i)
  {
    hide PhaseOk, Authorized;
    forall k | 0 <= k < |s.trace| && s.trace[k].Wrote? ensures s.trace[k].call != i {
      assert CallOf(s.trace[k]) == Some(s.trace[k].call) && EventRank(s.trace[k]) == 5;
    }
  }

  lemma {:induction false} NotifyAllGrows<T>(sys: System<T>, s: State<T>, snapshot: seq<nat>, id: Str, d: Decision, at: nat, i: nat)
    ensures Grows(s.trace, NotifyAll(sys, s, snapshot, id, d, at).trace, i)
    ensures |NotifyAll(sys, s, snapshot, id, d, at).phases| == |s.phases|
    decreases |snapshot|
  {
    if snapshot != [] {
      NotifyAllGrows(sys, Notify(sys, s, snapshot[0], id, d, at), snapshot[1..], id, d, at, i);
    }
  }

  /** A step by another call, or an arriving decision, writes no row for call `i` and does not
      finish it. */
  lemma OtherStep<T>(sys: System<T>, s: State<T>, a: Action, i: nat)
    requires |s.phases| == |sys.calls| && i < |s.phases| && (!a.Deliver? ==> a.call != i)
    ensures var t := Next(sys, s, a);
      && |t.phases| == |s.phases| && Grows(s.trace, t.trace, i)
      && (t.phases[i].Finished? || s.phases[i].Finished? ==> t.phases[i] == s.phases[i])
  {
    hide Build;
    if a.Deliver? {
      var arrived := s.(trace := s.trace + [Arrived(a.requestId, a.decision)]);
      NotifyAllGrows(sys, arrived, s.listeners, a.requestId, a.decision, |s.trace|, i);
      NotifiedPhase(sys, arrived, s.listeners, a.requestId, a.decision, |s.trace|, i);
    }
  }

  /** A step by call `i` itself that finishes it. */
  lemma OwnStep<T>(sys: System<T>, s: State<T>, a: Action)
    requires Inv(sys, s) && !a.Deliver? && a.call < |s.phases| && !s.phases[a.call].Finished?
    ensures var t := Next(sys, s, a);
      t.phases[a.call].Finished? ==>
        StatusTrue(sys, t.trace, a.call, t.phases[a.call].status, WritePending(sys, s, a.call) && a == Resume(a.call, FailsAfter))
  {
    hide Build, GatesOk, InOrder, Authorized, Without, StatusTrue;
    var i, t := a.call, Next(sys, s, a);
    if t.phases[i].Finished? {
      NothingWrittenYet(sys, s, i);
      match a
      case Allocate(_, _) => NotWritten(sys, s.trace, t.trace, i);
      case Ask(_, _) => NotWritten(sys, s.trace, t.trace, i);
      case Fire(_) =>
        assert t.trace[|s.trace|] == Settled(i, true);
        TimeoutIsTrue(sys, s.trace, t.trace, i);
      case Resume(_, fault) => ResumedStatus(sys, s, i, fault);
    }
  }

  lemma NotWritten<T>(sys: System<T>, trace: seq<Event<T>>, more: seq<Event<T>>, i: nat)
    requires i < |sys.calls| && !RowWritten(trace, i) && Grows(trace, more, i)
    ensures StatusTrue(sys, more, i, Error, false)
  {
    WrittenOnlyBefore(trace, more, i);
  }

  lemma TimeoutIsTrue<T>(sys: System<T>, trace: seq<Event<T>>, more: seq<Event<T>>, i: nat)
    requires i < |sys.calls| && !RowWritten(trace, i) && Grows(trace, more, i)
    requires |trace| < |more| && more[|trace|] == Settled(i, true)
    ensures StatusTrue(sys, more, i, Timeout, false)
  {
    WrittenOnlyBefore(trace, more, i);
  }

  lemma ResumedStatus<T>(sys: System<T>, s: State<T>, i: nat, fault: Fault)
    requires Inv(sys, s) && i < |s.phases| && s.phases[i].Decided? && !RowWritten(s.trace, i)
    ensures var t := Next(sys, s, Resume(i, fault));
      t.phases[i].Finished? && StatusTrue(sys, t.trace, i, t.phases[i].status, WritePending(sys, s, i) && fault == FailsAfter)
  {
    hide GatesOk, InOrder, Authorized, Build;
    var t, p := Next(sys, s, Resume(i, fault)), s.phases[i];
    assert PhaseOk(sys, s.trace, i, p, |s.trace|);
    assert s.trace[p.decided] == Arrived(sys.calls[i].requestId, p.decision);
    assert Told(sys, s.trace, i, p.decision == Approve);
    DraftKind(sys, s.trace, i, p.draft);
    if WritePending(sys, s, i) && fault != FailsBefore {
      assert t.trace == s.trace + [Wrote(i, p.draft)] && t.trace[|s.trace|].call == i;
      ToldStays(sys, s.trace, t.trace, i, true);
    } else {
      assert t.trace == s.trace;
    }
  }

  lemma DraftKind<T>(sys: System<T>, trace: seq<Event<T>>, i: nat, draft: Draft<T>)
    requires i < |sys.calls| && DraftOf(sys, trace, i, draft)
    ensures draft.CommsDraft? <==> sys.calls[i].Comms?
  {
  }

  /** One more action loses a write exactly if it is that write. */
  lemma LostStep<T>(sys: System<T>, actions: seq<Action>, a: Action, i: nat)
    ensures WriteLost(sys, actions + [a], i) <==>
      WriteLost(sys, actions, i) || (a == Resume(i, FailsAfter) && WritePending(sys, Run(sys, actions), i))
  {
    hide Run, WritePending;
    var more, n := actions + [a], |actions|;
    assert more[..n] == actions;
    forall k | 0 <= k < n ensures WriteFailsAfter(sys, more, i, k) <==> WriteFailsAfter(sys, actions, i, k) {
      assert more[..k] == actions[..k];
    }
    assert WriteFailsAfter(sys, more, i, n) <==> a == Resume(i, FailsAfter) && WritePending(sys, Run(sys, actions), i);
    if k :| WriteFailsAfter(sys, actions, i, k) { assert WriteFailsAfter(sys, more, i, k); }
  }

  lemma FinishedStays<T>(sys: System<T>, s: State<T>, a: Action)
    requires |s.phases| == |sys.calls| && !a.Deliver? && a.call < |s.phases| && s.phases[a.call].Finished?
    ensures Next(sys, s, a) == s && !WritePending(sys, s, a.call)
  {
    hide Build, Without;
  }

  /** In every reachable state a finished call tells the truth: done means its request was approved
      and, unless it is a message draft, its row written; rejected means another decision arrived
      for it and timed out that its gate did, with no row written; an error means that no row was
      written, unless the write itself took effect and then reported an error, and then exactly
      so. */
  lemma {:induction false} StatusesAreTrue<T>(sys: System<T>, actions: seq<Action>)
    ensures AllTrue(sys, actions, Run(sys, actions))
  {
    hide Next, Inv, StatusTrue, WriteLost, WritePending;
    if actions == [] {
      NothingFinished(sys);
    } else {
      var n := |actions| - 1;
      var rest, a := actions[..n], actions[n];
      assert actions == rest + [a];
      StatusesAreTrue(sys, rest);
      InvAlways(sys, rest);
      var s := Run(sys, rest);
      var t := Next(sys, s, a);
      SamePhases(sys, s, a);
      forall i | 0 <= i < |t.phases|
        ensures if t.phases[i].Finished? then StatusTrue(sys, t.trace, i, t.phases[i].status, WriteLost(sys, actions, i))
                else !WriteLost(sys, actions, i)
      {
        LostStep(sys, rest, a, i);
        if !a.Deliver? && a.call == i {
          if s.phases[i].Finished? { FinishedStays(sys, s, a); } else { OwnStep(sys, s, a); if WritePending(sys, s, i) { LossFinishes(sys, s, i); } }
        } else {
          OtherStep(sys, s, a, i);
          if s.phases[i].Finished? {
            StaysTrue(sys, s.trace, t.trace, i, s.phases[i].status, WriteLost(sys, rest, i));
          }
        }
      }
    }
  }

  lemma LossFinishes<T>(sys: System<T>, s: State<T>, i: nat)
    requires WritePending(sys, s, i)
    ensures i < |Next(sys, s, Resume(i, FailsAfter)).phases| && Next(sys, s, Resume(i, FailsAfter)).phases[i].Finished?
  {
  }

  lemma NothingFinished<T>(sys: System<T>)
    ensures AllTrue(sys, [], Run(sys, []))
  {
  }

  lemma SamePhases<T>(sys: System<T>, s: State<T>, a: Action)
    ensures |Next(sys, s, a).phases| == |s.phases|
  {
    hide Build;
    if a.Deliver? {
      NotifyAllGrows(sys, s.(trace := s.trace + [Arrived(a.requestId, a.decision)]), s.listeners, a.requestId, a.decision, |s.trace|, 0);
    }
  }
}
