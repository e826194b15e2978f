/** The numbers of purchase orders in any run of the approval-gated tool calls:
    backend/src/orchestration/tools/poSequence.ts under the po_generate arm of
    backend/src/orchestration/orchestratorTools.ts. */
module ApprovalNumbers {
  import opened Text
  import opened Faults
  import opened ApprovalGate
  import PO = PurchaseOrders

  function Capped(n: nat): nat {
    if n < 9_007_199_254_740_992 then n else 9_007_199_254_740_992
  }

  /** Allocations made for `user`. */
  function CountFor<T>(trace: seq<Event<T>>, user: Str): nat {
    if trace == [] then 0
    else
      var e := trace[|trace|-1];
      CountFor(trace[..|trace|-1], user) + if e.Allocated? && e.userId == user then 1 else 0
  }

  ghost predicate SafeSeed<T>(sys: System<T>) {
    forall u :: u in sys.seed ==> sys.seed[u] <= 9_007_199_254_740_992
  }

  ghost predicate EventOk<T>(sys: System<T>, trace: seq<Event<T>>, k: nat)
    requires k < |trace|
  {
    match trace[k]
    case Allocated(i, user, n) =>
      && i < |sys.calls| && sys.calls[i].Po? && sys.calls[i].userId == user
      && n == Capped(PO.Current(sys.seed, user) + CountFor(trace[..k+1], user))
    case _ => true
  }

  ghost predicate Ledger<T>(sys: System<T>, s: State<T>) {
    && |s.phases| == |sys.calls|
    && (forall u :: PO.Current(s.counters, u) == Capped(PO.Current(sys.seed, u) + CountFor(s.trace, u)))
    && (forall k :: 0 <= k < |s.trace| ==> EventOk(sys, s.trace, k))
  }

  lemma CountForGrows<T>(trace: seq<Event<T>>, e: Event<T>, user: Str)
    ensures CountFor(trace + [e], user) == CountFor(trace, user) + if e.Allocated? && e.userId == user then 1 else 0
  {
    assert (trace + [e])[..|trace|] == trace;
  }

  lemma LedgerGrows<T>(sys: System<T>, s: State<T>, s': State<T>, e: Event<T>)
    requires Ledger(sys, s) && |s'.phases| == |s.phases| && s'.trace == s.trace + [e]
    requires if e.Allocated? then s'.counters == s.counters[e.userId := e.sequence] else s'.counters == s.counters
    requires EventOk(sys, s'.trace, |s.trace|)
    ensures Ledger(sys, s')
  {
    hide CountFor;
    forall u ensures PO.Current(s'.counters, u) == Capped(PO.Current(sys.seed, u) + CountFor(s'.trace, u)) {
      CountForGrows(s.trace, e, u);
      assert s'.trace[..|s.trace|+1] == s'.trace;
    }
    forall k | 0 <= k < |s'.trace| ensures EventOk(sys, s'.trace, k) {
      if k < |s.trace| {
        assert s'.trace[..k+1] == s.trace[..k+1];
        assert EventOk(sys, s.trace, k);
      }
    }
  }

  lemma NotifyLedger<T>(sys: System<T>, s: State<T>, i: nat, id: Str, d: Decision, at: nat)
    requires Ledger(sys, s)
    ensures Ledger(sys, Notify(sys, s, i, id, d, at))
  {
    hide Ledger;
    var s' := Notify(sys, s, i, id, d, at);
    if s' != s { LedgerGrows(sys, s, s', Settled(i, false)); }
  }

  lemma {:induction false} NotifyAllLedger<T>(sys: System<T>, s: State<T>, snapshot: seq<nat>, id: Str, d: Decision, at: nat)
    requires Ledger(sys, s)
    ensures Ledger(sys, NotifyAll(sys, s, snapshot, id, d, at))
    decreases |snapshot|
  {
    hide Ledger, Notify;
    if snapshot != [] {
      NotifyLedger(sys, s, snapshot[0], id, d, at);
      NotifyAllLedger(sys, Notify(sys, s, snapshot[0], id, d, at), snapshot[1..], id, d, at);
    }
  }

  lemma DeliverLedger<T>(sys: System<T>, s: State<T>, id: Str, d: Decision)
    requires Ledger(sys, s)
    ensures Ledger(sys, Next(sys, s, Deliver(id, d)))
  {
    hide Ledger, NotifyAll;
    var arrived := s.(trace := s.trace + [Arrived(id, d)]);
    LedgerGrows(sys, s, arrived, Arrived(id, d));
    NotifyAllLedger(sys, arrived, s.listeners, id, d, |s.trace|);
  }

  lemma AllocateLedger<T>(sys: System<T>, s: State<T>, i: nat, fault: Fault)
    requires Ledger(sys, s) && SafeSeed(sys)
    ensures Ledger(sys, Next(sys, s, Allocate(i, fault)))
  {
    hide CountFor;
    var s' := Next(sys, s, Allocate(i, fault));
    if s' != s {
      if fault != FailsBefore {
        var user := sys.calls[i].userId;
        var e: Event<T> := s'.trace[|s.trace|];
        CountForGrows(s.trace, e, user);
        assert s'.trace[..|s.trace|+1] == s'.trace;
        LedgerGrows(sys, s, s', e);
      } else {
        assert s'.trace == s.trace;
      }
    }
  }

  lemma NextLedger<T>(sys: System<T>, s: State<T>, a: Action)
    requires Ledger(sys, s) && SafeSeed(sys)
    ensures Ledger(sys, Next(sys, s, a))
  {
    hide Build, CountFor;
    if a.Deliver? {
      DeliverLedger(sys, s, a.requestId, a.decision);
    } else if a.Allocate? {
      AllocateLedger(sys, s, a.call, a.fault);
    } else {
      var s' := Next(sys, s, a);
      if s'.trace == s.trace + [] {
        assert s'.trace == s.trace;
      } else {
        LedgerGrows(sys, s, s', s'.trace[|s.trace|]);
      }
    }
  }

  lemma {:induction false} LedgerAlways<T>(sys: System<T>, actions: seq<Action>)
    requires SafeSeed(sys)
    ensures Ledger(sys, Run(sys, actions))
  {
    if actions != [] {
      LedgerAlways(sys, actions[..|actions|-1]);
      NextLedger(sys, Run(sys, actions[..|actions|-1]), actions[|actions|-1]);
    }
  }

  /** The k-th number a user is given is the seed plus k, whatever other users do and however
      the gates end, as long as a JavaScript number can count that far. */
  lemma KthAllocation<T>(sys: System<T>, actions: seq<Action>, at: nat)
    requires SafeSeed(sys)
    requires at < |Run(sys, actions).trace| && Run(sys, actions).trace[at].Allocated?
    ensures var trace := Run(sys, actions).trace;
      var k := CountFor(trace[..at+1], trace[at].userId);
      k >= 1 && trace[at].sequence == Capped(PO.Current(sys.seed, trace[at].userId) + k)
  {
    LedgerAlways(sys, actions);
    var trace := Run(sys, actions).trace;
    assert EventOk(sys, trace, at);
    assert trace[..at+1] == trace[..at] + [trace[at]];
    CountForGrows(trace[..at], trace[at], trace[at].userId);
  }

  lemma {:induction false} CountForMonotone<T>(trace: seq<Event<T>>, j: nat, k: nat, user: Str)
    requires j <= k <= |trace|
    ensures CountFor(trace[..j], user) <= CountFor(trace[..k], user)
    decreases k - j
  {
    if j < k {
      assert trace[..k][..k-1] == trace[..k-1];
      CountForMonotone(trace, j, k - 1, user);
    }
  }

  /** Two allocations for one user give the same number exactly when the counter was already
      at its cap at the earlier one. */
  lemma SameNumberIffCapped<T>(sys: System<T>, actions: seq<Action>, j: nat, k: nat)
    requires SafeSeed(sys) && j < k < |Run(sys, actions).trace|
    requires var trace := Run(sys, actions).trace;
      trace[j].Allocated? && trace[k].Allocated? && trace[j].userId == trace[k].userId
    ensures var trace := Run(sys, actions).trace;
      var user := trace[j].userId;
      (trace[j].sequence == trace[k].sequence) <==>
      (PO.Current(sys.seed, user) + CountFor(trace[..j+1], user) >= 9_007_199_254_740_992)
  {
    var trace := Run(sys, actions).trace;
    var user := trace[j].userId;
    KthAllocation(sys, actions, j);
    KthAllocation(sys, actions, k);
    CountForMonotone(trace, j + 1, k, user);
    assert trace[..k+1] == trace[..k] + [trace[k]];
    CountForGrows(trace[..k], trace[k], user);
  }

  lemma NumbersDiffer<T>(sys: System<T>, actions: seq<Action>, j: nat, k: nat)
    requires SafeSeed(sys)
    requires var trace := Run(sys, actions).trace;
      && j < |trace| && k < |trace| && j != k
      && trace[j].Allocated? && trace[k].Allocated? && trace[j].userId == trace[k].userId
      && PO.Current(sys.seed, trace[j].userId) + CountFor(trace, trace[j].userId) <= 9_007_199_254_740_992
    ensures var trace := Run(sys, actions).trace;
      trace[j].sequence != trace[k].sequence
  {
    hide Run, CountFor, SafeSeed, PO.Current;
    var trace := Run(sys, actions).trace;
    var first, second := if j < k then j else k, if j < k then k else j;
    var user := trace[j].userId;
    SameNumberIffCapped(sys, actions, first, second);
    assert trace[..second+1] == trace[..second] + [trace[second]];
    CountForGrows(trace[..second], trace[second], user);
    CountForMonotone(trace, first + 1, second, user);
    CountForMonotone(trace, second + 1, |trace|, user);
    assert trace[..|trace|] == trace;
  }

  /** No two orders of one user share a PO number, while the user's count is below the cap. */
  lemma OrdersHaveDistinctNumbers<T>(sys: System<T>, actions: seq<Action>, j: nat, k: nat)
    requires SafeSeed(sys)
    requires var trace := Run(sys, actions).trace;
      && j < k < |trace| && trace[j].Wrote? && trace[k].Wrote?
      && trace[j].draft.PoDraft? && trace[k].draft.PoDraft? && trace[j].draft.userId == trace[k].draft.userId
      && PO.Current(sys.seed, trace[j].draft.userId) + CountFor(trace, trace[j].draft.userId) <= 9_007_199_254_740_992
    ensures var trace := Run(sys, actions).trace;
      trace[j].draft.poNumber != trace[k].draft.poNumber
  {
    hide Run, Authorized, CountFor, PO.GeneratePoNumber;
    var trace := Run(sys, actions).trace;
    GatesSettleOnce(sys, actions);
    WritesAreApproved(sys, actions, j);
    WritesAreApproved(sys, actions, k);
    var aj, nj := NumberOfOrder(sys, trace, j);
    var ak, nk := NumberOfOrder(sys, trace, k);
    assert trace[j].call != trace[k].call;
    NumbersDiffer(sys, actions, aj, ak);
    if trace[j].draft.poNumber == trace[k].draft.poNumber {
      PO.SamePoNumberSameSequence(sys.calls[trace[j].call].issuedDate, nj, sys.calls[trace[k].call].issuedDate, nk);
    }
  }

  lemma NumberOfOrder<T>(sys: System<T>, trace: seq<Event<T>>, k: nat) returns (at: nat, n: nat)
    requires Authorized(sys, trace, k) && trace[k].draft.PoDraft?
    ensures var i := trace[k].call;
      && i < |sys.calls| && sys.calls[i].Po? && trace[k].draft.userId == sys.calls[i].userId
      && At(trace, at, Allocated(i, trace[k].draft.userId, n))
      && trace[k].draft.poNumber == PO.GeneratePoNumber(sys.calls[i].issuedDate, n)
  {
    var i, draft := trace[k].call, trace[k].draft;
    assert DraftOf(sys, trace, i, draft);
    var call := sys.calls[i];
    at, n :| At(trace, at, Allocated(i, call.userId, n)) && n > 0
      && draft == PoDraft(PO.GeneratePoNumber(call.issuedDate, n), call.userId, call.body.value);
  }

  // ---------- two orders with one number ----------

  /** The steps of one order that is approved and written. */
  function OrderSteps(i: nat, requestId: Str): seq<Action> {
    [Allocate(i, Works), Ask(i, Works), Listen(i), Deliver(requestId, Approve), Resume(i, Works)]
  }

  function Steps<T>(sys: System<T>, s: State<T>, actions: seq<Action>): State<T>
    decreases |actions|
  {
    if actions == [] then s else Steps(sys, Next(sys, s, actions[0]), actions[1..])
  }

  lemma {:induction false} RunSteps<T>(sys: System<T>, a: seq<Action>, b: seq<Action>)
    ensures Run(sys, a + b) == Steps(sys, Run(sys, a), b)
    decreases |b|
  {
    hide Next;
    if b == [] {
      assert a + b == a;
    } else {
      var c := a + [b[0]];
      assert c[..|a|] == a && c + b[1..] == a + b;
      RunSteps(sys, c, b[1..]);
    }
  }

  /** One order from start to end, no other gate being pending. */
  lemma OneOrder<T>(sys: System<T>, s: State<T>, i: nat)
    requires i < |sys.calls| == |s.phases| && sys.calls[i].Po? && sys.calls[i].body.Some? && s.phases[i].Idle?
    requires s.listeners == [] && s.timers == {}
    ensures var call, n := sys.calls[i], PO.Increment(PO.Current(s.counters, sys.calls[i].userId));
      var draft := PoDraft(PO.GeneratePoNumber(call.issuedDate, n), call.userId, call.body.value);
      Steps(sys, s, OrderSteps(i, call.requestId)) ==
        State(s.phases[i := Finished(Done)], s.counters[call.userId := n], [], {},
              s.trace + [Allocated(i, call.userId, n), Sent(i, call.requestId, sys.render(draft)), Listening(i),
                         Arrived(call.requestId, Approve), Settled(i, false), Wrote(i, draft)])
  {
    hide PO.GeneratePoNumber, Steps, Run, NotifyAll, Without;
    var call, n := sys.calls[i], PO.Increment(PO.Current(s.counters, sys.calls[i].userId));
    var draft := PoDraft(PO.GeneratePoNumber(call.issuedDate, n), call.userId, call.body.value);
    var s1 := Next(sys, s, Allocate(i, Works));
    var s2 := Next(sys, s1, Ask(i, Works));
    var s3 := Next(sys, s2, Listen(i));
    var s4 := Next(sys, s3, Deliver(call.requestId, Approve));
    var s5 := Next(sys, s4, Resume(i, Works));
    FiveSteps(sys, s, i, call.requestId);
    assert s2.phases[i] == Asked(draft, |s.trace| + 1) && s2.trace == s.trace + [Allocated(i, call.userId, n), Sent(i, call.requestId, sys.render(draft))];
    assert s3.phases[i].Waiting? && s3.listeners == [i] && s3.timers == {i};
    OneListener(sys, s3, i, Approve);
    assert s5.phases == s.phases[i := Finished(Done)];
  }

  lemma FiveSteps<T>(sys: System<T>, s: State<T>, i: nat, id: Str)
    ensures Steps(sys, s, OrderSteps(i, id)) ==
      Next(sys, Next(sys, Next(sys, Next(sys, Next(sys, s, Allocate(i, Works)), Ask(i, Works)), Listen(i)), Deliver(id, Approve)), Resume(i, Works))
  {
    hide Next, Steps;
    var e := [Resume(i, Works)];
    var d := [Deliver(id, Approve)] + e;
    var c := [Listen(i)] + d;
    var b := [Ask(i, Works)] + c;
    assert OrderSteps(i, id) == [Allocate(i, Works)] + b && e == e + [];
    var s1 := Next(sys, s, Allocate(i, Works));
    var s2 := Next(sys, s1, Ask(i, Works));
    var s3 := Next(sys, s2, Listen(i));
    var s4 := Next(sys, s3, Deliver(id, Approve));
    StepFirst(sys, s, Allocate(i, Works), b);
    StepFirst(sys, s1, Ask(i, Works), c);
    StepFirst(sys, s2, Listen(i), d);
    StepFirst(sys, s3, Deliver(id, Approve), e);
    StepFirst(sys, s4, Resume(i, Works), []);
    NoSteps(sys, Next(sys, s4, Resume(i, Works)));
  }

  lemma StepFirst<T>(sys: System<T>, s: State<T>, a: Action, rest: seq<Action>)
    ensures Steps(sys, s, [a] + rest) == Steps(sys, Next(sys, s, a), rest)
  {
    hide Next;
    assert ([a] + rest)[1..] == rest;
  }

  lemma NoSteps<T>(sys: System<T>, s: State<T>)
    ensures Steps(sys, s, []) == s
  {
  }

  lemma OneListener<T>(sys: System<T>, s: State<T>, i: nat, d: Decision)
    requires i < |sys.calls| == |s.phases| && s.phases[i].Waiting? && s.listeners == [i] && s.timers == {i}
    ensures var p, id := s.phases[i], sys.calls[i].requestId;
      Next(sys, s, Deliver(id, d)) ==
        State(s.phases[i := Decided(p.draft, p.sent, p.listening, d, |s.trace|)], s.counters, [], {},
              s.trace + [Arrived(id, d), Settled(i, false)])
  {
    var id := sys.calls[i].requestId;
    var arrived := s.(trace := s.trace + [Arrived(id, d)]);
    var told := Notify(sys, arrived, i, id, d, |s.trace|);
    assert Without([i], i) == [] by { assert [i][1..] == []; }
    assert {i} - {i} == {};
    assert NotifyAll(sys, arrived, [i], id, d, |s.trace|) == told by { assert [i][1..] == []; }
    assert told.trace == s.trace + [Arrived(id, d), Settled(i, false)];
  }

  /** At the cap it fails: two approved orders of a user whose counter starts at 2^53 are written
      under one PO number. */
  lemma CappedOrdersCollide<T>(user: Str, date: Str, body: T, render: Draft<T> -> Str, id: Str, other: Str)
    ensures var sys := System([Po(id, Some(body), user, date), Po(other, Some(body), user, date)], render, map[user := 9_007_199_254_740_992]);
      var trace := Run(sys, OrderSteps(0, id) + OrderSteps(1, other)).trace;
      var order := PoDraft(PO.GeneratePoNumber(date, 9_007_199_254_740_992), user, body);
      SafeSeed(sys) && |trace| == 12 && trace[5] == Wrote(0, order) && trace[11] == Wrote(1, order)
  {
    hide PO.GeneratePoNumber, Run, Steps, Next;
    var sys := System([Po(id, Some(body), user, date), Po(other, Some(body), user, date)], render, map[user := 9_007_199_254_740_992]);
    var a, b := OrderSteps(0, id), OrderSteps(1, other);
    RunSteps(sys, [], a);
    RunSteps(sys, a, b);
    assert [] + a == a;
    NothingDone(sys);
    OneOrder(sys, Start(sys), 0);
    OneOrder(sys, Run(sys, a), 1);
  }

  lemma NothingDone<T>(sys: System<T>)
    ensures Run(sys, []) == Start(sys)
  {
  }
}
