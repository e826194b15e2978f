/** Approval-gated tool calls with any number in flight: dispatchToolCall and runGate of
    backend/src/orchestration/orchestratorTools.ts over waitForDecision of
    backend/src/orchestration/approvalGate/pure.ts. */
module ApprovalGate {
  import opened Text
  import opened Faults
  import PO = PurchaseOrders

  datatype Decision = Approve | Reject | Edit | TryAgain | UseAsIs | Drop | SendFeedback

  datatype Draft<T> = TodoDraft(todo: T) | CommsDraft(comms: T) | PoDraft(poNumber: Str, userId: Str, order: T)

  /** A tool call. `body` is what the draft builder makes of its input, absent if it refuses it. */
  datatype Call<T> =
    | Todo(requestId: Str, body: Option<T>)
    | Comms(requestId: Str, body: Option<T>)
    | Po(requestId: Str, body: Option<T>, userId: Str, issuedDate: Str)

  /** The draft of a call; `sequence` matters to purchase orders only. */
  function Build<T>(call: Call<T>, sequence: nat): Option<Draft<T>> {
    if call.body.None? then None
    else match call
      case Todo(_, b) => Some(TodoDraft(b.value))
      case Comms(_, b) => Some(CommsDraft(b.value))
      case Po(_, b, user, date) =>
        if sequence < 1 then None
        else Some(PoDraft(PO.GeneratePoNumber(date, sequence), user, b.value))
  }

  datatype Status = Done | Rejected | Timeout | Error

  /** Where one dispatch stands. The positions are those of its own events in the trace. */
  datatype Phase<T> =
    | Idle
    | Numbered(sequence: nat)
    | Asked(draft: Draft<T>, sent: nat)
    | Waiting(draft: Draft<T>, sent: nat, listening: nat)
    | Decided(draft: Draft<T>, sent: nat, listening: nat, decision: Decision, decided: nat)
    | Finished(status: Status)

  datatype Event<T> =
    | Allocated(call: nat, userId: Str, sequence: nat)
    | Sent(call: nat, requestId: Str, content: Str)
    | Listening(call: nat)
    | Arrived(requestId: Str, decision: Decision)
    | Settled(call: nat, byTimeout: bool)
    | Wrote(call: nat, draft: Draft<T>)

  /** `listeners` is the emitter's list for 'decision' events, in order of registration. */
  datatype State<T> = State(
    phases: seq<Phase<T>>, counters: map<Str, nat>, listeners: seq<nat>, timers: set<nat>, trace: seq<Event<T>>)

  /** The calls in flight and the rendering of drafts shown to the user. */
  datatype System<!T> = System(calls: seq<Call<T>>, render: Draft<T> -> Str, seed: map<Str, nat>)

  datatype Action =
    | Allocate(call: nat, fault: Fault)
    | Ask(call: nat, fault: Fault)
    | Listen(call: nat)
    | Deliver(requestId: Str, decision: Decision)
    | Fire(call: nat)
    | Resume(call: nat, fault: Fault)

  function Without(s: seq<nat>, x: nat): (r: seq<nat>)
    ensures forall y :: y in r <==> y in s && y != x
  {
    if s == [] then []
    else if s[0] == x then Without(s[1..], x)
    else [s[0]] + Without(s[1..], x)
  }

  function Move<T>(s: State<T>, i: nat, p: Phase<T>, log: seq<Event<T>>): State<T>
    requires i < |s.phases|
  {
    s.(phases := s.phases[i := p], trace := s.trace + log)
  }

  /** The cleanup of a gate: its listener off the emitter, its timer cleared. */
  function Cleanup<T>(s: State<T>, i: nat): State<T> {
    s.(listeners := Without(s.listeners, i), timers := s.timers - {i})
  }

  /** One listener called with a decision event that arrived at position `at` of the trace. */
  function Notify<T>(sys: System<T>, s: State<T>, i: nat, requestId: Str, d: Decision, at: nat): State<T> {
    if i < |sys.calls| && i < |s.phases| && s.phases[i].Waiting? && sys.calls[i].requestId == requestId then
      var p := s.phases[i];
      Move(Cleanup(s, i), i, Decided(p.draft, p.sent, p.listening, d, at), [Settled(i, false)])
    else s
  }

  function NotifyAll<T>(sys: System<T>, s: State<T>, snapshot: seq<nat>, requestId: Str, d: Decision, at: nat): State<T>
    decreases |snapshot|
  {
    if snapshot == [] then s
    else NotifyAll(sys, Notify(sys, s, snapshot[0], requestId, d, at), snapshot[1..], requestId, d, at)
  }

  /** One step; an action that is not possible in `s` changes nothing. */
  function Next<T>(sys: System<T>, s: State<T>, a: Action): State<T> {
    if !a.Deliver? && !(a.call < |sys.calls| && a.call < |s.phases|) then s
    else match a
      case Allocate(i, fault) =>
        if !(sys.calls[i].Po? && s.phases[i].Idle?) then s
        else if fault == FailsBefore then Move(s, i, Finished(Error), [])
        else
          var user := sys.calls[i].userId;
          var n := PO.Increment(PO.Current(s.counters, user));
          Move(s.(counters := s.counters[user := n]), i, if fault == Works then Numbered(n) else Finished(Error),
               [Allocated(i, user, n)])
      case Ask(i, fault) =>
        if !(if sys.calls[i].Po? then s.phases[i].Numbered? else s.phases[i].Idle?) then s
        else
          var draft := Build(sys.calls[i], if s.phases[i].Numbered? then s.phases[i].sequence else 0);
          if draft.None? || fault == FailsBefore then Move(s, i, Finished(Error), [])
          else Move(s, i, if fault == Works then Asked(draft.value, |s.trace|) else Finished(Error),
                    [Sent(i, sys.calls[i].requestId, sys.render(draft.value))])
      case Listen(i) =>
        if !s.phases[i].Asked? then s
        else
          var p := s.phases[i];
          Move(s.(listeners := s.listeners + [i], timers := s.timers + {i}),
               i, Waiting(p.draft, p.sent, |s.trace|), [Listening(i)])
      case Deliver(id, d) =>
        NotifyAll(sys, s.(trace := s.trace + [Arrived(id, d)]), s.listeners, id, d, |s.trace|)
      case Fire(i) =>
        if !(i in s.timers && s.phases[i].Waiting?) then s
        else Move(Cleanup(s, i), i, Finished(Timeout), [Settled(i, true)])
      case Resume(i, fault) =>
        if !s.phases[i].Decided? then s
        else if s.phases[i].decision != Approve then Move(s, i, Finished(Rejected), [])
        else if s.phases[i].draft.CommsDraft? then Move(s, i, Finished(Done), [])
        else if fault == FailsBefore then Move(s, i, Finished(Error), [])
        else Move(s, i, Finished(if fault == Works then Done else Error), [Wrote(i, s.phases[i].draft)])
  }

  function Start<T>(sys: System<T>): State<T> {
    State(seq(|sys.calls|, _ => Idle), sys.seed, [], {}, [])
  }

  function Run<T>(sys: System<T>, actions: seq<Action>): State<T> {
    if actions == [] then Start(sys)
    else Next(sys, Run(sys, actions[..|actions|-1]), actions[|actions|-1])
  }

  // ---------- the callbacks themselves ----------

  /** The orchestrator with its emitter, timers, counters and log. `history` is the list of
      callbacks run so far, so every result about `Run` below is a result about this object. */
  class Orchestrator<T> {
    const sys: System<T>
    var s: State<T>
    ghost var history: seq<Action>

    ghost predicate Valid()
      reads this
    {
      s == Run(sys, history)
    }

    constructor (sys: System<T>)
      ensures Valid() && this.sys == sys && history == []
    {
      this.sys := sys;
      s := Start(sys);
      history := [];
    }

    ghost method Record(a: Action)
      requires s == Next(sys, Run(sys, history), a)
      modifies this`history
      ensures Valid() && history == old(history) + [a]
    {
      history := history + [a];
      assert history[..|history|-1] == old(history);
    }

    /** `allocateNext` of a purchase-order call. */
    method AllocateNumber(i: nat, fault: Fault)
      requires Valid()
      modifies this
      ensures Valid() && history == old(history) + [Allocate(i, fault)]
    {
      assert s.trace + [] == s.trace;
      if i < |sys.calls| && i < |s.phases| && sys.calls[i].Po? && s.phases[i].Idle? {
        if fault != FailsBefore {
          var user := sys.calls[i].userId;
          var n := PO.Increment(if user in s.counters then s.counters[user] else 0);
          s := s.(counters := s.counters[user := n], phases := s.phases[i := Numbered(n)],
                  trace := s.trace + [Allocated(i, user, n)]);
        }
        if fault != Works {
          s := s.(phases := s.phases[i := Finished(Error)]);
        }
      }
      Record(Allocate(i, fault));
    }

    /** Building the draft and `sendApprovalRequest`. */
    method SendApprovalRequest(i: nat, fault: Fault)
      requires Valid()
      modifies this
      ensures Valid() && history == old(history) + [Ask(i, fault)]
    {
      assert s.trace + [] == s.trace;
      if i < |sys.calls| && i < |s.phases| && (if sys.calls[i].Po? then s.phases[i].Numbered? else s.phases[i].Idle?) {
        var draft := Build(sys.calls[i], if s.phases[i].Numbered? then s.phases[i].sequence else 0);
        if draft.Some? && fault != FailsBefore {
          s := s.(phases := s.phases[i := Asked(draft.value, |s.trace|)],
                  trace := s.trace + [Sent(i, sys.calls[i].requestId, sys.render(draft.value))]);
        }
        if draft.None? || fault != Works {
          s := s.(phases := s.phases[i := Finished(Error)]);
        }
      }
      Record(Ask(i, fault));
    }

    /** `waitForDecision`: the timer is set and the listener registered. */
    method WaitForDecision(i: nat)
      requires Valid()
      modifies this
      ensures Valid() && history == old(history) + [Listen(i)]
    {
      if i < |sys.calls| && i < |s.phases| && s.phases[i].Asked? {
        var p := s.phases[i];
        s := s.(timers := s.timers + {i}, listeners := s.listeners + [i]);
        s := s.(phases := s.phases[i := Waiting(p.draft, p.sent, |s.trace|)], trace := s.trace + [Listening(i)]);
      }
      Record(Listen(i));
    }

    /** `emit('decision', event)`: every listener registered when the event arrived is called. */
    method OnDecision(requestId: Str, d: Decision)
      requires Valid()
      modifies this
      ensures Valid() && history == old(history) + [Deliver(requestId, d)]
    {
      var at, snapshot := |s.trace|, s.listeners;
      s := s.(trace := s.trace + [Arrived(requestId, d)]);
      ghost var begin := s;
      var k := 0;
      while k < |snapshot|
        invariant k <= |snapshot| && history == old(history)
        invariant NotifyAll(sys, s, snapshot[k..], requestId, d, at) == NotifyAll(sys, begin, snapshot, requestId, d, at)
      {
        var i := snapshot[k];
        assert snapshot[k..][1..] == snapshot[k+1..];
        if i < |sys.calls| && i < |s.phases| && s.phases[i].Waiting? && sys.calls[i].requestId == requestId {
          var p := s.phases[i];
          s := s.(listeners := Without(s.listeners, i), timers := s.timers - {i});
          s := s.(phases := s.phases[i := Decided(p.draft, p.sent, p.listening, d, at)], trace := s.trace + [Settled(i, false)]);
        }
        k := k + 1;
      }
      Record(Deliver(requestId, d));
    }

    /** The timer of a pending gate goes off. */
    method OnTimeout(i: nat)
      requires Valid()
      modifies this
      ensures Valid() && history == old(history) + [Fire(i)]
    {
      if i < |sys.calls| && i < |s.phases| && i in s.timers && s.phases[i].Waiting? {
        s := s.(listeners := Without(s.listeners, i), timers := s.timers - {i});
        s := s.(phases := s.phases[i := Finished(Timeout)], trace := s.trace + [Settled(i, true)]);
      }
      Record(Fire(i));
    }

    /** The dispatch goes on after its gate: the write, if the gate was approved. */
    method AfterDecision(i: nat, fault: Fault)
      requires Valid()
      modifies this
      ensures Valid() && history == old(history) + [Resume(i, fault)]
    {
      assert s.trace + [] == s.trace;
      if i < |sys.calls| && i < |s.phases| && s.phases[i].Decided? {
        var p := s.phases[i];
        if p.decision != Approve {
          s := s.(phases := s.phases[i := Finished(Rejected)]);
        } else if p.draft.CommsDraft? {
          s := s.(phases := s.phases[i := Finished(Done)]);
        } else {
          if fault != FailsBefore {
            s := s.(trace := s.trace + [Wrote(i, p.draft)]);
          }
          s := s.(phases := s.phases[i := Finished(if fault == Works then Done else Error)]);
        }
      }
      Record(Resume(i, fault));
    }
  }

  // ---------- what holds in every reachable state ----------

  /** The call an event belongs to; arriving decisions belong to none. */
  function CallOf<T>(e: Event<T>): Option<nat> {
    match e
    case Allocated(i, _, _) => Some(i)
    case Sent(i, _, _) => Some(i)
    case Listening(i) => Some(i)
    case Arrived(_, _) => None
    case Settled(i, _) => Some(i)
    case Wrote(i, _) => Some(i)
  }

  function EventRank<T>(e: Event<T>): nat {
    match e
    case Allocated(_, _, _) => 1
    case Sent(_, _, _) => 2
    case Listening(_) => 3
    case Arrived(_, _) => 0
    case Settled(_, _) => 4
    case Wrote(_, _) => 5
  }

  function PhaseRank<T>(p: Phase<T>): nat {
    match p
    case Idle => 0
    case Numbered(_) => 1
    case Asked(_, _) => 2
    case Waiting(_, _, _) => 3
    case Decided(_, _, _, _, _) => 4
    case Finished(_) => 5
  }

  ghost predicate At<T>(trace: seq<Event<T>>, k: nat, e: Event<T>) {
    k < |trace| && trace[k] == e
  }

  /** Between the two positions call `i` is not settled and no decision for its id arrives. */
  ghost predicate Quiet<T>(sys: System<T>, trace: seq<Event<T>>, i: nat, from: nat, to: nat)
    requires i < |sys.calls|
  {
    forall m :: from < m < to && m < |trace| ==>
      !(trace[m].Settled? && trace[m].call == i)
      && !(trace[m].Arrived? && trace[m].requestId == sys.calls[i].requestId)
  }

  /** `draft` is the draft of call `i`, built from a sequence number allocated to that call. */
  /** The draft of a call, with what its builder made of the input; an order's has the number the
      call was given. */
  ghost predicate DraftOf<T>(sys: System<T>, trace: seq<Event<T>>, i: nat, draft: Draft<T>)
    requires i < |sys.calls|
  {
    match sys.calls[i]
    case Todo(_, b) => b.Some? && draft == TodoDraft(b.value)
    case Comms(_, b) => b.Some? && draft == CommsDraft(b.value)
    case Po(_, b, user, date) => b.Some? && Ordered(trace, i, user, date, b.value, draft)
  }

  ghost predicate Ordered<T>(trace: seq<Event<T>>, i: nat, user: Str, date: Str, order: T, draft: Draft<T>) {
    exists k: nat, n: nat ::
      At(trace, k, Allocated(i, user, n)) && n > 0 && draft == PoDraft(PO.GeneratePoNumber(date, n), user, order)
  }

  /** The user was shown this very draft at `sent`, the gate listened from `listening` on, and
      the first thing to reach it was decision `d` for its own request, at `decided`. */
  ghost predicate Answered<T>(sys: System<T>, trace: seq<Event<T>>, i: nat, draft: Draft<T>,
                              sent: nat, listening: nat, d: Decision, decided: nat)
    requires i < |sys.calls|
  {
    && sent < listening < decided
    && DraftOf(sys, trace, i, draft)
    && At(trace, sent, Sent(i, sys.calls[i].requestId, sys.render(draft)))
    && At(trace, listening, Listening(i))
    && At(trace, decided, Arrived(sys.calls[i].requestId, d))
    && Quiet(sys, trace, i, listening, decided)
  }

  /** What a phase says about the trace, a waiting gate being undisturbed up to `horizon`. */
  ghost predicate PhaseOk<T>(sys: System<T>, trace: seq<Event<T>>, i: nat, p: Phase<T>, horizon: nat)
    requires i < |sys.calls|
  {
    match p
    case Idle => true
    case Numbered(n) => sys.calls[i].Po? && exists k: nat :: At(trace, k, Allocated(i, sys.calls[i].userId, n))
    case Asked(draft, sent) =>
      DraftOf(sys, trace, i, draft) && At(trace, sent, Sent(i, sys.calls[i].requestId, sys.render(draft)))
    case Waiting(draft, sent, listening) =>
      && sent < listening < horizon && DraftOf(sys, trace, i, draft)
      && At(trace, sent, Sent(i, sys.calls[i].requestId, sys.render(draft)))
      && At(trace, listening, Listening(i)) && Quiet(sys, trace, i, listening, horizon)
    case Decided(draft, sent, listening, d, decided) => Answered(sys, trace, i, draft, sent, listening, d, decided)
    case Finished(_) => true
  }

  /** The write at position `k` was approved. */
  ghost predicate Authorized<T>(sys: System<T>, trace: seq<Event<T>>, k: nat) {
    k < |trace| && trace[k].Wrote? && trace[k].call < |sys.calls| && !trace[k].draft.CommsDraft? &&
    exists sent: nat, listening: nat, decided: nat ::
      decided < k && Answered(sys, trace, trace[k].call, trace[k].draft, sent, listening, Approve, decided)
  }

  ghost predicate Distinct(s: seq<nat>) {
    forall j, k :: 0 <= j < k < |s| ==> s[j] != s[k]
  }

  /** Listeners and timers are live for exactly the waiting gates, one of each. */
  ghost predicate GatesOk<T>(s: State<T>) {
    && (forall i: nat :: i in s.listeners <==> i < |s.phases| && s.phases[i].Waiting?)
    && (forall i :: i in s.timers <==> 0 <= i < |s.phases| && s.phases[i].Waiting?)
    && Distinct(s.listeners)
  }

  /** Each call's own events occur at most once each, in protocol order. */
  ghost predicate InOrder<T>(s: State<T>) {
    && (forall k :: 0 <= k < |s.trace| && CallOf(s.trace[k]).Some? ==>
          CallOf(s.trace[k]).value < |s.phases| && EventRank(s.trace[k]) <= PhaseRank(s.phases[CallOf(s.trace[k]).value]))
    && (forall j, k :: 0 <= j < k < |s.trace| && CallOf(s.trace[j]).Some? && CallOf(s.trace[j]) == CallOf(s.trace[k]) ==>
          EventRank(s.trace[j]) < EventRank(s.trace[k]))
  }

  /** The calls in `late` have still to be told of the decision that arrived at `at`. */
  ghost predicate Core<T>(sys: System<T>, s: State<T>, late: set<nat>, at: nat) {
    && |s.phases| == |sys.calls| && at <= |s.trace|
    && (forall i :: 0 <= i < |s.phases| ==> PhaseOk(sys, s.trace, i, s.phases[i], if i in late then at else |s.trace|))
    && (forall k :: 0 <= k < |s.trace| && s.trace[k].Wrote? ==> Authorized(sys, s.trace, k))
    && GatesOk(s) && InOrder(s)
  }

  ghost predicate Inv<T>(sys: System<T>, s: State<T>) {
    Core(sys, s, {}, 0)
  }

  lemma PhaseOkGrows<T>(sys: System<T>, trace: seq<Event<T>>, e: Event<T>, i: nat, p: Phase<T>, h: nat, h': nat)
    requires i < |sys.calls| && PhaseOk(sys, trace, i, p, h) && h <= |trace|
    requires h' == h || (h == |trace| && h' == |trace| + 1 &&
                         (p.Waiting? ==> CallOf(e) != Some(i) && !(e.Arrived? && e.requestId == sys.calls[i].requestId)))
    ensures PhaseOk(sys, trace + [e], i, p, h')
  {
    var t := trace + [e];
    assert forall k: nat, x :: At(trace, k, x) ==> At(t, k, x);
  }

  lemma AuthorizedGrows<T>(sys: System<T>, trace: seq<Event<T>>, e: Event<T>, k: nat)
    requires Authorized(sys, trace, k)
    ensures Authorized(sys, trace + [e], k)
  {
    var t := trace + [e];
    assert forall k: nat, x :: At(trace, k, x) ==> At(t, k, x);
    var sent: nat, listening: nat, decided: nat :|
      decided < k && Answered(sys, trace, trace[k].call, trace[k].draft, sent, listening, Approve, decided);
    assert Answered(sys, t, t[k].call, t[k].draft, sent, listening, Approve, decided);
  }

  /** One dispatch moves on, its own event, if any, going to the end of the trace. */
  lemma MoveKeeps<T>(sys: System<T>, s: State<T>, s': State<T>, i: nat, p: Phase<T>, log: seq<Event<T>>,
                     late: set<nat>, at: nat)
    requires Core(sys, s, late, at) && i < |s.phases|
    requires s'.phases == s.phases[i := p] && s'.trace == s.trace + log && |log| <= 1 && GatesOk(s')
    requires PhaseRank(s.phases[i]) < PhaseRank(p)
    requires log != [] ==> CallOf(log[0]) == Some(i) && PhaseRank(s.phases[i]) < EventRank(log[0]) <= PhaseRank(p)
    requires PhaseOk(sys, s'.trace, i, p, |s'.trace|)
    requires log != [] && log[0].Wrote? ==> Authorized(sys, s'.trace, |s.trace|)
    ensures Core(sys, s', late - {i}, at)
  {
    hide PhaseOk, Authorized, GatesOk;
    if log == [] { assert s'.trace == s.trace; }
    forall j | 0 <= j < |s'.phases|
      ensures PhaseOk(sys, s'.trace, j, s'.phases[j], if j in late - {i} then at else |s'.trace|)
    {
      if j != i && log != [] {
        assert log == [log[0]];
        PhaseOkGrows(sys, s.trace, log[0], j, s.phases[j],
                     if j in late then at else |s.trace|, if j in late then at else |s'.trace|);
      }
    }
    forall k | 0 <= k < |s'.trace| && s'.trace[k].Wrote?
      ensures Authorized(sys, s'.trace, k)
    {
      if k < |s.trace| && log != [] {
        assert log == [log[0]] && s.trace[k].Wrote?;
        AuthorizedGrows(sys, s.trace, log[0], k);
      }
    }
    assert InOrder(s');
  }

  lemma CleanupGates<T>(s: State<T>, i: nat, p: Phase<T>, log: seq<Event<T>>)
    requires GatesOk(s) && i < |s.phases| && !p.Waiting?
    ensures GatesOk(Move(Cleanup(s, i), i, p, log))
  {
    WithoutKeepsDistinct(s.listeners, i);
  }

  lemma {:induction false} WithoutKeepsDistinct(s: seq<nat>, x: nat)
    requires Distinct(s)
    ensures Distinct(Without(s, x))
  {
    if s != [] {
      var rest := Without(s[1..], x);
      WithoutKeepsDistinct(s[1..], x);
      if s[0] != x {
        assert s[0] !in rest by { assert s[0] !in s[1..]; }
        DistinctCons(s[0], rest);
      }
    }
  }

  lemma DistinctCons(x: nat, s: seq<nat>)
    requires Distinct(s) && x !in s
    ensures Distinct([x] + s)
  {
  }

  /** A gate that waited undisturbed up to the decision is decided by it. */
  lemma WaitingIsDecided<T>(sys: System<T>, trace: seq<Event<T>>, e: Event<T>, i: nat, p: Phase<T>, d: Decision, at: nat)
    requires i < |sys.calls| && p.Waiting? && PhaseOk(sys, trace, i, p, at)
    requires At(trace, at, Arrived(sys.calls[i].requestId, d))
    ensures PhaseOk(sys, trace + [e], i, Decided(p.draft, p.sent, p.listening, d, at), |trace| + 1)
  {
    hide DraftOf, Quiet, At;
    var next := Decided(p.draft, p.sent, p.listening, d, at);
    assert PhaseOk(sys, trace, i, next, |trace|);
    PhaseOkGrows(sys, trace, e, i, next, |trace|, |trace| + 1);
  }

  lemma NotifyKeeps<T>(sys: System<T>, s: State<T>, i: nat, id: Str, d: Decision, late: set<nat>, at: nat)
    requires Core(sys, s, late, at) && At(s.trace, at, Arrived(id, d))
    requires forall j: nat :: j in late <==> j < |s.phases| && s.phases[j].Waiting? && sys.calls[j].requestId == id
    ensures var s' := Notify(sys, s, i, id, d, at);
      && Core(sys, s', late - {i}, at) && At(s'.trace, at, Arrived(id, d))
      && (forall j: nat :: j in late - {i} <==> j < |s'.phases| && s'.phases[j].Waiting? && sys.calls[j].requestId == id)
  {
    hide PhaseOk, Authorized, InOrder, GatesOk;
    if i in late {
      var p, s' := s.phases[i], Notify(sys, s, i, id, d, at);
      var e: Event<T> := Settled(i, false);
      var next := Decided(p.draft, p.sent, p.listening, d, at);
      WaitingIsDecided(sys, s.trace, e, i, p, d, at);
      CleanupAndMove(sys, s, i, next, e, late, at);
    } else {
      assert late - {i} == late;
    }
  }

  /** A waiting gate is cleaned up and moves on. */
  lemma CleanupAndMove<T>(sys: System<T>, s: State<T>, i: nat, p: Phase<T>, e: Event<T>, late: set<nat>, at: nat)
    requires Core(sys, s, late, at) && i < |s.phases| && s.phases[i].Waiting?
    requires CallOf(e) == Some(i) && PhaseRank(s.phases[i]) < EventRank(e) <= PhaseRank(p) && !e.Wrote?
    requires PhaseOk(sys, s.trace + [e], i, p, |s.trace| + 1)
    ensures Core(sys, Move(Cleanup(s, i), i, p, [e]), late - {i}, at)
  {
    hide PhaseOk, Authorized, InOrder, GatesOk;
    CleanupGates(s, i, p, [e]);
    MoveKeeps(sys, s, Move(Cleanup(s, i), i, p, [e]), i, p, [e], late, at);
  }

  lemma {:induction false} NotifyAllKeeps<T>(sys: System<T>, s: State<T>, snapshot: seq<nat>, id: Str, d: Decision, late: set<nat>, at: nat)
    requires Core(sys, s, late, at) && At(s.trace, at, Arrived(id, d))
    requires forall j: nat :: j in late <==> j < |s.phases| && s.phases[j].Waiting? && sys.calls[j].requestId == id
    requires forall j :: j in late ==> j in snapshot
    ensures Inv(sys, NotifyAll(sys, s, snapshot, id, d, at))
    decreases |snapshot|
  {
    hide Core, Notify;
    if snapshot == [] {
      assert late == {};
      CoreWithoutLate(sys, s, at);
    } else {
      NotifyKeeps(sys, s, snapshot[0], id, d, late, at);
      NotifyAllKeeps(sys, Notify(sys, s, snapshot[0], id, d, at), snapshot[1..], id, d, late - {snapshot[0]}, at);
    }
  }

  lemma CoreWithoutLate<T>(sys: System<T>, s: State<T>, at: nat)
    requires Core(sys, s, {}, at)
    ensures Inv(sys, s)
  {
    hide PhaseOk, Authorized, GatesOk, InOrder;
  }

  lemma DeliverKeeps<T>(sys: System<T>, s: State<T>, id: Str, d: Decision)
    requires Inv(sys, s)
    ensures Inv(sys, Next(sys, s, Deliver(id, d)))
  {
    hide PhaseOk, Authorized, NotifyAll;
    var at, e: Event<T> := |s.trace|, Arrived(id, d);
    var late := set j | 0 <= j < |s.phases| && s.phases[j].Waiting? && sys.calls[j].requestId == id;
    var s' := s.(trace := s.trace + [e]);
    forall j | 0 <= j < |s'.phases|
      ensures PhaseOk(sys, s'.trace, j, s'.phases[j], if j in late then at else |s'.trace|)
    {
      PhaseOkGrows(sys, s.trace, e, j, s.phases[j], at, if j in late then at else at + 1);
    }
    forall k | 0 <= k < |s'.trace| && s'.trace[k].Wrote?
      ensures Authorized(sys, s'.trace, k)
    {
      assert s.trace[k].Wrote?;
      AuthorizedGrows(sys, s.trace, e, k);
    }
    assert InOrder(s');
    NotifyAllKeeps(sys, s', s.listeners, id, d, late, at);
  }

  /** A dispatch without a gate moves on to another phase without one. */
  lemma MoveOn<T>(sys: System<T>, s: State<T>, i: nat, p: Phase<T>, log: seq<Event<T>>)
    requires Inv(sys, s) && i < |s.phases| && !s.phases[i].Waiting? && !p.Waiting?
    requires |log| <= 1 && PhaseRank(s.phases[i]) < PhaseRank(p)
    requires log != [] ==> CallOf(log[0]) == Some(i) && PhaseRank(s.phases[i]) < EventRank(log[0]) <= PhaseRank(p)
    requires log != [] && log[0].Wrote? ==> Authorized(sys, s.trace + log, |s.trace|)
    requires PhaseOk(sys, s.trace + log, i, p, |s.trace| + |log|)
    ensures Inv(sys, Move(s, i, p, log))
  {
    hide PhaseOk, Authorized, InOrder;
    MoveKeeps(sys, s, Move(s, i, p, log), i, p, log, {}, 0);
  }

  lemma AskKeeps<T>(sys: System<T>, s: State<T>, i: nat, fault: Fault)
    requires Inv(sys, s)
    ensures Inv(sys, Next(sys, s, Ask(i, fault)))
  {
    hide Authorized, InOrder, GatesOk, Build, PhaseOk;
    var s' := Next(sys, s, Ask(i, fault));
    if s' != s {
      FinishedIsOk(sys, s'.trace, i, Finished(Error));
      var draft := Build(sys.calls[i], if s.phases[i].Numbered? then s.phases[i].sequence else 0);
      if draft.None? || fault == FailsBefore {
        MoveOn(sys, s, i, Finished(Error), []);
      } else {
        AskedIsOk(sys, s, i, draft.value);
        MoveOn(sys, s, i, s'.phases[i], [Sent(i, sys.calls[i].requestId, sys.render(draft.value))]);
      }
    }
  }

  lemma AskedIsOk<T>(sys: System<T>, s: State<T>, i: nat, draft: Draft<T>)
    requires Inv(sys, s) && i < |s.phases| && (if sys.calls[i].Po? then s.phases[i].Numbered? else s.phases[i].Idle?)
    requires Build(sys.calls[i], if s.phases[i].Numbered? then s.phases[i].sequence else 0) == Some(draft)
    ensures PhaseOk(sys, s.trace + [Sent(i, sys.calls[i].requestId, sys.render(draft))], i, Asked(draft, |s.trace|), |s.trace| + 1)
  {
    hide Build, DraftOf, InOrder, Authorized, GatesOk;
    AskedDraft(sys, s, i, Sent(i, sys.calls[i].requestId, sys.render(draft)));
  }

  /** The draft asked about is the draft of the call. */
  lemma AskedDraft<T>(sys: System<T>, s: State<T>, i: nat, e: Event<T>)
    requires Inv(sys, s) && i < |s.phases| && (if sys.calls[i].Po? then s.phases[i].Numbered? else s.phases[i].Idle?)
    requires Build(sys.calls[i], if s.phases[i].Numbered? then s.phases[i].sequence else 0).Some?
    ensures DraftOf(sys, s.trace + [e], i, Build(sys.calls[i], if s.phases[i].Numbered? then s.phases[i].sequence else 0).value)
  {
    hide Authorized, InOrder, GatesOk, PO.GeneratePoNumber;
    var call, trace := sys.calls[i], s.trace + [e];
    assert PhaseOk(sys, s.trace, i, s.phases[i], |s.trace|);
    if call.Po? {
      var n := s.phases[i].sequence;
      var k: nat :| At(s.trace, k, Allocated(i, call.userId, n));
      assert At(trace, k, Allocated(i, call.userId, n));
      assert Ordered(trace, i, call.userId, call.issuedDate, call.body.value, Build(call, n).value);
    }
  }

  lemma ListenGates<T>(s: State<T>, i: nat, p: Phase<T>)
    requires GatesOk(s) && i < |s.phases| && !s.phases[i].Waiting? && p.Waiting?
    ensures GatesOk(Move(s.(listeners := s.listeners + [i], timers := s.timers + {i}), i, p, [Listening(i)]))
  {
  }

  /** A gate that begins to listen is waiting, undisturbed so far. */
  lemma ListeningIsOk<T>(sys: System<T>, trace: seq<Event<T>>, i: nat, p: Phase<T>)
    requires i < |sys.calls| && p.Asked? && PhaseOk(sys, trace, i, p, |trace|)
    ensures PhaseOk(sys, trace + [Listening(i)], i, Waiting(p.draft, p.sent, |trace|), |trace| + 1)
  {
    hide DraftOf;
    PhaseOkGrows(sys, trace, Listening(i), i, p, |trace|, |trace|);
  }

  lemma ListenKeeps<T>(sys: System<T>, s: State<T>, i: nat)
    requires Inv(sys, s)
    ensures Inv(sys, Next(sys, s, Listen(i)))
  {
    hide GatesOk, InOrder, Authorized, PhaseOk;
    var s' := Next(sys, s, Listen(i));
    if s' != s {
      var p := s.phases[i];
      var next := Waiting(p.draft, p.sent, |s.trace|);
      ListeningIsOk(sys, s.trace, i, p);
      ListenGates(s, i, next);
      MoveKeeps(sys, s, s', i, next, [Listening(i)], {}, 0);
    }
  }

  lemma ResumeKeeps<T>(sys: System<T>, s: State<T>, i: nat, fault: Fault)
    requires Inv(sys, s)
    ensures Inv(sys, Next(sys, s, Resume(i, fault)))
  {
    hide InOrder, GatesOk, PhaseOk, Authorized;
    var s' := Next(sys, s, Resume(i, fault));
    if s' != s {
      var p := s.phases[i];
      FinishedIsOk(sys, s'.trace, i, s'.phases[i]);
      if p.decision == Approve && !p.draft.CommsDraft? && fault != FailsBefore {
        WriteIsAuthorized(sys, s, i);
        MoveOn(sys, s, i, s'.phases[i], [Wrote(i, p.draft)]);
      } else {
        MoveOn(sys, s, i, s'.phases[i], []);
      }
    }
  }

  lemma FinishedIsOk<T>(sys: System<T>, trace: seq<Event<T>>, i: nat, p: Phase<T>)
    requires i < |sys.calls| && p.Finished?
    ensures PhaseOk(sys, trace, i, p, |trace|)
  {
  }

  lemma WriteIsAuthorized<T>(sys: System<T>, s: State<T>, i: nat)
    requires Inv(sys, s) && i < |s.phases| && s.phases[i].Decided? && s.phases[i].decision == Approve
    requires !s.phases[i].draft.CommsDraft?
    ensures Authorized(sys, s.trace + [Wrote(i, s.phases[i].draft)], |s.trace|)
  {
    hide InOrder, GatesOk;
    var p, e := s.phases[i], Wrote(i, s.phases[i].draft);
    assert PhaseOk(sys, s.trace, i, p, |s.trace|);
    PhaseOkGrows(sys, s.trace, e, i, p, |s.trace|, |s.trace|);
    assert Answered(sys, s.trace + [e], i, p.draft, p.sent, p.listening, Approve, p.decided);
  }

  lemma AllocateKeeps<T>(sys: System<T>, s: State<T>, i: nat, fault: Fault)
    requires Inv(sys, s)
    ensures Inv(sys, Next(sys, s, Allocate(i, fault)))
  {
    hide InOrder, Authorized;
    var s' := Next(sys, s, Allocate(i, fault));
    if s' != s {
      if fault == FailsBefore {
        MoveKeeps(sys, s, s', i, Finished(Error), [], {}, 0);
      } else {
        var e := s'.trace[|s.trace|];
        assert At(s'.trace, |s.trace|, e);
        MoveKeeps(sys, s, s', i, s'.phases[i], [e], {}, 0);
      }
    }
  }

  lemma FireKeeps<T>(sys: System<T>, s: State<T>, i: nat)
    requires Inv(sys, s)
    ensures Inv(sys, Next(sys, s, Fire(i)))
  {
    hide InOrder, PhaseOk, Authorized, GatesOk, Without;
    if Next(sys, s, Fire(i)) != s {
      FinishedIsOk(sys, s.trace + [Settled(i, true)], i, Finished(Timeout));
      CleanupAndMove(sys, s, i, Finished(Timeout), Settled(i, true), {}, 0);
      assert {} - {i} == {};
    }
  }

  lemma {:induction false} InvAlways<T>(sys: System<T>, actions: seq<Action>)
    ensures Inv(sys, Run(sys, actions))
  {
    hide Next, Inv;
    if actions == [] {
      InvStart(sys);
    } else {
      var s := Run(sys, actions[..|actions|-1]);
      InvAlways(sys, actions[..|actions|-1]);
      match actions[|actions|-1]
      case Allocate(i, fault) => AllocateKeeps(sys, s, i, fault);
      case Ask(i, fault) => AskKeeps(sys, s, i, fault);
      case Listen(i) => ListenKeeps(sys, s, i);
      case Deliver(id, d) => DeliverKeeps(sys, s, id, d);
      case Fire(i) => FireKeeps(sys, s, i);
      case Resume(i, fault) => ResumeKeeps(sys, s, i, fault);
    }
  }

  lemma InvStart<T>(sys: System<T>)
    ensures Inv(sys, Start(sys))
  {
  }

  // ---------- the results ----------

  /** Every row written, in every interleaving of any number of calls, was approved: an approval
      request rendering that same draft, then the gate listening, then an approval of that
      request before the gate was settled in any other way. */
  lemma WritesAreApproved<T>(sys: System<T>, actions: seq<Action>, k: nat)
    requires k < |Run(sys, actions).trace| && Run(sys, actions).trace[k].Wrote?
    ensures Authorized(sys, Run(sys, actions).trace, k)
  {
    InvAlways(sys, actions);
  }

  /** Listeners and timers are live for exactly the pending gates, one of each per gate, and no
      gate is settled twice, no row written twice, no request sent twice for one call. */
  lemma GatesSettleOnce<T>(sys: System<T>, actions: seq<Action>)
    ensures var s := Run(sys, actions);
      && GatesOk(s)
      && forall j, k :: 0 <= j < k < |s.trace| && CallOf(s.trace[j]).Some? && CallOf(s.trace[j]) == CallOf(s.trace[k]) ==>
           EventRank(s.trace[j]) < EventRank(s.trace[k])
  {
    InvAlways(sys, actions);
  }

  /** What one emitted decision does: it settles every waiting gate with that request id, and
      moves no other dispatch. */
  lemma DecisionReachesItsGates<T>(sys: System<T>, actions: seq<Action>, id: Str, d: Decision, i: nat)
    requires i < |sys.calls|
    ensures var s := Run(sys, actions);
      var s' := Next(sys, s, Deliver(id, d));
      |s.phases| == |s'.phases| == |sys.calls| &&
      s'.phases[i] == if s.phases[i].Waiting? && sys.calls[i].requestId == id
                      then Decided(s.phases[i].draft, s.phases[i].sent, s.phases[i].listening, d, |s.trace|)
                      else s.phases[i]
  {
    InvAlways(sys, actions);
    var s := Run(sys, actions);
    NotifiedPhase(sys, s.(trace := s.trace + [Arrived(id, d)]), s.listeners, id, d, |s.trace|, i);
  }

  lemma {:induction false} NotifiedPhase<T>(sys: System<T>, s: State<T>, snapshot: seq<nat>, id: Str, d: Decision, at: nat, i: nat)
    requires i < |sys.calls| == |s.phases|
    ensures var s' := NotifyAll(sys, s, snapshot, id, d, at);
      |s'.phases| == |s.phases| &&
      s'.phases[i] == if i in snapshot && s.phases[i].Waiting? && sys.calls[i].requestId == id
                      then Decided(s.phases[i].draft, s.phases[i].sent, s.phases[i].listening, d, at)
                      else s.phases[i]
    decreases |snapshot|
  {
    if snapshot != [] {
      assert i in snapshot <==> i == snapshot[0] || i in snapshot[1..];
      NotifiedPhase(sys, Notify(sys, s, snapshot[0], id, d, at), snapshot[1..], id, d, at, i);
    }
  }

  ghost predicate DistinctIds<T>(sys: System<T>) {
    forall i, j :: 0 <= i < j < |sys.calls| ==> sys.calls[i].requestId != sys.calls[j].requestId
  }

  /** Every request sent carries the request id of its call. */
  ghost predicate Labelled<T>(sys: System<T>, trace: seq<Event<T>>) {
    forall k :: 0 <= k < |trace| && trace[k].Sent? ==>
      trace[k].call < |sys.calls| && trace[k].requestId == sys.calls[trace[k].call].requestId
  }

  lemma {:induction false} NotifyAllLabelled<T>(sys: System<T>, s: State<T>, snapshot: seq<nat>, id: Str, d: Decision, at: nat)
    requires Labelled(sys, s.trace)
    ensures Labelled(sys, NotifyAll(sys, s, snapshot, id, d, at).trace)
    decreases |snapshot|
  {
    if snapshot != [] { NotifyAllLabelled(sys, Notify(sys, s, snapshot[0], id, d, at), snapshot[1..], id, d, at); }
  }

  lemma NextLabelled<T>(sys: System<T>, s: State<T>, a: Action)
    requires Labelled(sys, s.trace)
    ensures Labelled(sys, Next(sys, s, a).trace)
  {
    hide Build, NotifyAll, Without;
    if a.Deliver? {
      NotifyAllLabelled(sys, s.(trace := s.trace + [Arrived(a.requestId, a.decision)]), s.listeners, a.requestId, a.decision, |s.trace|);
    }
  }

  lemma {:induction false} LabelledAlways<T>(sys: System<T>, actions: seq<Action>)
    ensures Labelled(sys, Run(sys, actions).trace)
  {
    hide Next, Labelled;
    if actions == [] {
      NothingSent(sys);
    } else {
      LabelledAlways(sys, actions[..|actions|-1]);
      NextLabelled(sys, Run(sys, actions[..|actions|-1]), actions[|actions|-1]);
    }
  }

  lemma NothingSent<T>(sys: System<T>)
    ensures Labelled(sys, Start(sys).trace)
  {
  }

  /** With distinct request ids, the only approval request ever sent under the id of a written
      row showed exactly what was written. */
  lemma OnlyTheWrittenDraftWasShown<T>(sys: System<T>, actions: seq<Action>, k: nat, m: nat)
    requires DistinctIds(sys)
    requires var trace := Run(sys, actions).trace;
      && k < |trace| && trace[k].Wrote? && m < |trace| && trace[m].Sent?
      && trace[k].call < |sys.calls| && trace[m].requestId == sys.calls[trace[k].call].requestId
    ensures var trace := Run(sys, actions).trace;
      trace[m].call == trace[k].call && trace[m].content == sys.render(trace[k].draft)
  {
    hide Run, GatesOk, PhaseOk;
    var s := Run(sys, actions);
    InvAlways(sys, actions);
    LabelledAlways(sys, actions);
    assert Authorized(sys, s.trace, k);
  }

  /** With distinct request ids one decision settles at most one gate; two gates that wait under
      the same id are both settled by it. */
  lemma OneDecisionOneGate<T>(sys: System<T>, actions: seq<Action>, id: Str, d: Decision, i: nat, j: nat)
    requires i < j < |sys.calls|
    requires var s := Run(sys, actions); |s.phases| == |sys.calls| && s.phases[i].Waiting? && s.phases[j].Waiting?
    requires sys.calls[i].requestId == id
    ensures var s' := Next(sys, Run(sys, actions), Deliver(id, d));
      |s'.phases| == |sys.calls| && s'.phases[i].Decided?
      && (s'.phases[j].Decided? <==> sys.calls[i].requestId == sys.calls[j].requestId)
  {
    DecisionReachesItsGates(sys, actions, id, d, i);
    DecisionReachesItsGates(sys, actions, id, d, j);
  }
}
