/** One gated call from its dispatch to its end, whatever the other calls do in between: what is
    asked, and what comes of every answer to it. */
module ApprovalCourse {
  import opened Text
  import opened Faults
  import opened ApprovalGate
  import PO = PurchaseOrders

  // ---------- asking ----------

  /** The call is to be asked about next: an order has its number, the others need none. */
  predicate Ready<T>(sys: System<T>, s: State<T>, i: nat) {
    i < |sys.calls| && i < |s.phases| && if sys.calls[i].Po? then s.phases[i].Numbered? else s.phases[i].Idle?
  }

  lemma {:induction false} NumbersArePositive<T>(sys: System<T>, actions: seq<Action>, i: nat)
    requires i < |sys.calls|
    ensures var s := Run(sys, actions); |s.phases| == |sys.calls| && (s.phases[i].Numbered? ==> s.phases[i].sequence > 0)
  {
    hide Build, NotifyAll, Inv;
    if actions != [] {
      var rest, a := actions[..|actions|-1], actions[|actions|-1];
      NumbersArePositive(sys, rest, i);
      if a.Deliver? { DecisionReachesItsGates(sys, rest, a.requestId, a.decision, i); }
    }
  }

  /** The draft a call with an acceptable body is asked about. */
  function DraftFor<T>(call: Call<T>, body: T, sequence: nat): Draft<T> {
    match call
    case Todo(_, _) => TodoDraft(body)
    case Comms(_, _) => CommsDraft(body)
    case Po(_, _, user, date) => PoDraft(PO.GeneratePoNumber(date, sequence), user, body)
  }

  /** A ready call whose input was accepted shows the user its draft and moves on, unless the request
      fails: then it ends in an error, the request sent or not. One whose input was refused ends in an
      error, and nothing is shown. */
  lemma Asks<T>(sys: System<T>, actions: seq<Action>, i: nat, fault: Fault)
    requires Ready(sys, Run(sys, actions), i)
    ensures var s, call := Run(sys, actions), sys.calls[i];
      var s', n := Next(sys, s, Ask(i, fault)), if call.Po? then s.phases[i].sequence else 0;
      match call.body
      case None => s' == s.(phases := s.phases[i := Finished(Error)])
      case Some(b) =>
        var draft := DraftFor(call, b, n);
        var sent := s.trace + [Sent(i, call.requestId, sys.render(draft))];
        match fault
        case Works => s' == s.(phases := s.phases[i := Asked(draft, |s.trace|)], trace := sent)
        case FailsBefore => s' == s.(phases := s.phases[i := Finished(Error)])
        case FailsAfter => s' == s.(phases := s.phases[i := Finished(Error)], trace := sent)
  {
    hide Run, PO.GeneratePoNumber;
    NumbersArePositive(sys, actions, i);
    var s := Run(sys, actions);
    assert s.trace + [] == s.trace;
  }

  /** An order is numbered first, with the next count of its user; if that fails it ends in an error,
      the number spent or not. */
  lemma Numbers<T>(sys: System<T>, s: State<T>, i: nat, fault: Fault)
    requires i < |sys.calls| && i < |s.phases| && sys.calls[i].Po? && s.phases[i].Idle?
    ensures var user := sys.calls[i].userId;
      var count := if user in s.counters then s.counters[user] else 0;
      var n := if count < 9_007_199_254_740_992 then count + 1 else count;
      var spent := s.(counters := s.counters[user := n], trace := s.trace + [Allocated(i, user, n)]);
      Next(sys, s, Allocate(i, fault)) ==
        match fault
        case Works => spent.(phases := s.phases[i := Numbered(n)])
        case FailsBefore => s.(phases := s.phases[i := Finished(Error)])
        case FailsAfter => spent.(phases := s.phases[i := Finished(Error)])
  {
    assert s.trace + [] == s.trace;
  }

  // ---------- in between ----------

  /** An action of another call, or a decision that arrives. */
  predicate Elsewhere(a: Action, i: nat) {
    a.Deliver? || a.call != i
  }

  /** A decision for the request id. */
  predicate Decides(a: Action, id: Str) {
    a.Deliver? && a.requestId == id
  }

  /** The phase of a call changes neither by what others do nor by decisions, except by one for its
      request id while it waits. */
  lemma StaysPut<T>(sys: System<T>, actions: seq<Action>, a: Action, i: nat)
    requires i < |sys.calls| && Elsewhere(a, i)
    requires var s := Run(sys, actions); i < |s.phases| && (s.phases[i].Waiting? ==> !Decides(a, sys.calls[i].requestId))
    ensures var s, s' := Run(sys, actions), Run(sys, actions + [a]);
      |s'.phases| == |s.phases| == |sys.calls| && s'.phases[i] == s.phases[i]
  {
    hide Build, NotifyAll, Inv;
    assert (actions + [a])[..|actions|] == actions;
    NumbersArePositive(sys, actions, i);
    if a.Deliver? { DecisionReachesItsGates(sys, actions, a.requestId, a.decision, i); }
  }

  lemma {:induction false} Meanwhile<T>(sys: System<T>, before: seq<Action>, others: seq<Action>, i: nat)
    requires i < |sys.calls|
    requires forall k :: 0 <= k < |others| ==> Elsewhere(others[k], i)
    requires i < |Run(sys, before).phases|
    requires Run(sys, before).phases[i].Waiting? ==>
      forall k :: 0 <= k < |others| ==> !Decides(others[k], sys.calls[i].requestId)
    ensures var s, s' := Run(sys, before), Run(sys, before + others);
      |s'.phases| == |s.phases| == |sys.calls| && s'.phases[i] == s.phases[i]
    decreases |others|
  {
    hide Run, Elsewhere, Decides;
    NumbersArePositive(sys, before, i);
    if others == [] {
      assert before + others == before;
    } else {
      var rest, a := others[..|others|-1], others[|others|-1];
      Meanwhile(sys, before, rest, i);
      assert before + others == (before + rest) + [a];
      assert Elsewhere(others[|others|-1], i);
      StaysPut(sys, before + rest, a, i);
    }
  }

  // ---------- each step of the course ----------

  lemma Acts<T>(sys: System<T>, actions: seq<Action>, a: Action)
    ensures Run(sys, actions + [a]) == Next(sys, Run(sys, actions), a)
  {
    hide Next;
    assert (actions + [a])[..|actions|] == actions;
  }

  /** The timer of a waiting gate ends it, and with it the call. */
  lemma TimesOut<T>(sys: System<T>, actions: seq<Action>, i: nat)
    requires i < |sys.calls|
    requires var s := Run(sys, actions); i < |s.phases| && s.phases[i].Waiting?
    ensures var s, s' := Run(sys, actions), Next(sys, Run(sys, actions), Fire(i));
      && |s'.phases| == |s.phases| && s'.phases[i] == Finished(Timeout) && s'.trace == s.trace + [Settled(i, true)]
      && i !in s'.listeners && i !in s'.timers
  {
    hide Run, Without;
    GatesSettleOnce(sys, actions);
  }

  /** An asked call waits for a decision, with its listener and its timer. */
  lemma Listens<T>(sys: System<T>, s: State<T>, i: nat)
    requires i < |sys.calls| && i < |s.phases| && s.phases[i].Asked?
    ensures var p, s' := s.phases[i], Next(sys, s, Listen(i));
      && |s'.phases| == |s.phases| && s'.phases[i] == Waiting(p.draft, p.sent, |s.trace|)
      && i in s'.listeners && i in s'.timers && s'.trace == s.trace + [Listening(i)]
  {
  }

  /** A decided call goes on: an approved draft is written unless it is a message, and any other
      decision ends the call as rejected, nothing being written. A write that fails ends it in an
      error, the row written or not. */
  lemma Resumes<T>(sys: System<T>, s: State<T>, i: nat, fault: Fault)
    requires i < |sys.calls| && i < |s.phases| && s.phases[i].Decided?
    ensures var p := s.phases[i];
      var writes := p.decision == Approve && !p.draft.CommsDraft?;
      Next(sys, s, Resume(i, fault)) == s.(
        phases := s.phases[i := Finished(if p.decision != Approve then Rejected
                                         else if writes && fault != Works then Error else Done)],
        trace := s.trace + (if writes && fault != FailsBefore then [Wrote(i, p.draft)] else []))
  {
  }

  // ---------- the course ----------

  predicate NeverWritten<T>(trace: seq<Event<T>>, i: nat) {
    forall k :: 0 <= k < |trace| && trace[k].Wrote? ==> trace[k].call != i
  }

  /** A call that is not finished has written nothing. */
  lemma NotYetWritten<T>(sys: System<T>, actions: seq<Action>, i: nat)
    requires i < |sys.calls|
    requires i < |Run(sys, actions).phases| && !Run(sys, actions).phases[i].Finished?
    ensures NeverWritten(Run(sys, actions).trace, i)
  {
    hide Run, GatesOk, PhaseOk, Authorized;
    InvAlways(sys, actions);
    var s := Run(sys, actions);
    assert InOrder(s);
    assert PhaseRank(s.phases[i]) < 5;
  }

  /** A call asked, listened for, decided and resumed, with others in between. */
  function Course(before: seq<Action>, i: nat, id: Str, d: Decision, x: seq<Action>, y: seq<Action>, z: seq<Action>): seq<Action> {
    before + [Ask(i, Works)] + x + [Listen(i)] + y + [Deliver(id, d)] + z + [Resume(i, Works)]
  }

  /** A ready call with an accepted input, asked about, listened for, decided and resumed, whatever
      others do in between, ends done or rejected as the decision was; done means that the very draft
      the user was shown has been written, a message draft aside, and in no other case is anything
      written for it. */
  lemma CourseEnds<T>(sys: System<T>, before: seq<Action>, i: nat, d: Decision, x: seq<Action>, y: seq<Action>, z: seq<Action>)
    requires Ready(sys, Run(sys, before), i) && sys.calls[i].body.Some?
    requires forall k :: 0 <= k < |x| ==> Elsewhere(x[k], i)
    requires forall k :: 0 <= k < |y| ==> Elsewhere(y[k], i) && !Decides(y[k], sys.calls[i].requestId)
    requires forall k :: 0 <= k < |z| ==> Elsewhere(z[k], i)
    ensures var call, end := sys.calls[i], Run(sys, Course(before, i, sys.calls[i].requestId, d, x, y, z));
      var draft := DraftFor(call, call.body.value, if call.Po? then Run(sys, before).phases[i].sequence else 0);
      && i < |end.phases| && end.phases[i] == Finished(if d == Approve then Done else Rejected)
      && (if d == Approve && !call.Comms? then |end.trace| > 0 && end.trace[|end.trace|-1] == Wrote(i, draft)
          else NeverWritten(end.trace, i))
  {
    hide Run, Next, Elsewhere, Decides;
    var id := sys.calls[i].requestId;
    NumbersArePositive(sys, before, i);
    Asks(sys, before, i, Works);
    var a := before + [Ask(i, Works)];
    Acts(sys, before, Ask(i, Works));
    Meanwhile(sys, a, x, i);
    var b := a + x + [Listen(i)];
    Listens(sys, Run(sys, a + x), i);
    Acts(sys, a + x, Listen(i));
    Meanwhile(sys, b, y, i);
    var c := b + y + [Deliver(id, d)];
    DecisionReachesItsGates(sys, b + y, id, d, i);
    Acts(sys, b + y, Deliver(id, d));
    Meanwhile(sys, c, z, i);
    Resumes(sys, Run(sys, c + z), i, Works);
    Acts(sys, c + z, Resume(i, Works));
    NotYetWritten(sys, c + z, i);
  }

  // ---------- errors without a fault ----------

  /** Nothing befalls what the call itself does. */
  predicate Working(a: Action, i: nat) {
    match a
    case Allocate(j, fault) => j == i ==> fault == Works
    case Ask(j, fault) => j == i ==> fault == Works
    case Resume(j, fault) => j == i ==> fault == Works
    case _ => true
  }

  /** A call nothing befalls ends in an error only if its input was refused, and if it was, it never
      comes to be asked about: it waits for its turn or has ended in an error. */
  lemma {:induction false} ErrorMeansRefused<T>(sys: System<T>, actions: seq<Action>, i: nat)
    requires i < |sys.calls| && forall k :: 0 <= k < |actions| ==> Working(actions[k], i)
    ensures |Run(sys, actions).phases| == |sys.calls|
    ensures Run(sys, actions).phases[i] == Finished(Error) ==> sys.calls[i].body.None?
    ensures sys.calls[i].body.None? ==>
      var p := Run(sys, actions).phases[i]; p.Idle? || p.Numbered? || p == Finished(Error)
  {
    hide Run, NotifyAll, Without, PO.GeneratePoNumber;
    if actions == [] {
      StartIsIdle(sys, i);
    } else {
      var rest, a := actions[..|actions|-1], actions[|actions|-1];
      ErrorMeansRefused(sys, rest, i);
      NumbersArePositive(sys, rest, i);
      Acts(sys, rest, a);
      assert rest + [a] == actions && Working(actions[|actions|-1], i);
      if Elsewhere(a, i) {
        if a.Deliver? {
          DecisionReachesItsGates(sys, rest, a.requestId, a.decision, i);
        } else {
          StaysPut(sys, rest, a, i);
        }
      }
    }
  }

  lemma StartIsIdle<T>(sys: System<T>, i: nat)
    requires i < |sys.calls|
    ensures Run(sys, []) == Start(sys) && Start(sys).phases[i] == Idle && |Start(sys).phases| == |sys.calls|
  {
  }
}
