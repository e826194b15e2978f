/** The idempotency gates of backend/src/comms/idempotencyChecker over the table
    idempotency_keys, and the pure rules of backend/src/db/mapping/dalConstraints.ts they have to
    meet. A database statement is atomic; a gate is at most two of them. */
module Idempotency {
  import opened Text
  import opened Faults
  import opened IsoTime
  import CH = ContentHash

  const DEDUP_WINDOW_MS := 600_000
  const PROVIDER_ID_KEY_TTL_MS := 7_776_000_000
  const CONTENT_HASH_KEY_TTL_MS := 86_400_000

  datatype Provider = Outlook | Yahoo | Twilio

  datatype KeyType = ProviderIdKey | ContentHashKey

  datatype KeyRow = KeyRow(
    id: Str, keyType: KeyType, provider: Provider, keyValue: Str,
    firstSeenAt: Str, expiresAt: Str, linkedMessageId: Option<Str>, isSynced: bool)

  // ---------- the planner ----------

  datatype Input = Input(provider: Provider, providerMessageId: Option<Str>, message: CH.Message)

  datatype Degradation = NoProviderMessageId | EmptyProviderMessageId

  datatype Plan =
    | ProviderPlan(provider: Provider, contentHash: Str, firstSeenAt: Str, expiresAt: Str, keyValue: Str)
    | HashPlan(provider: Provider, contentHash: Str, firstSeenAt: Str, expiresAt: Str, keyValue: Str,
               windowStartAt: Str, degradation: Degradation)

  /** `planIdempotencyCheck`; `None` is the RangeError of a date out of range. An empty provider
      message id counts as absent. */
  function PlanCheck(digest: seq<CH.Byte> -> Str, input: Input, now: int): Option<Plan> {
    var hash := CH.ComputeContentHash(digest, input.message);
    if !IsTime(now) then None
    else if input.providerMessageId.Some? && input.providerMessageId.value != [] then
      if !IsTime(now + PROVIDER_ID_KEY_TTL_MS) then None
      else Some(ProviderPlan(input.provider, hash, Iso(now), Iso(now + PROVIDER_ID_KEY_TTL_MS),
                             input.providerMessageId.value))
    else
      if !IsTime(now + CONTENT_HASH_KEY_TTL_MS) || !IsTime(now - DEDUP_WINDOW_MS) then None
      else Some(HashPlan(input.provider, hash, Iso(now), Iso(now + CONTENT_HASH_KEY_TTL_MS), hash,
                         Iso(now - DEDUP_WINDOW_MS),
                         if input.providerMessageId.None? then NoProviderMessageId else EmptyProviderMessageId))
  }

  function PlanKeyType(plan: Plan): KeyType {
    if plan.ProviderPlan? then ProviderIdKey else ContentHashKey
  }

  /** A plan being carried out with the id drawn for its row. */
  datatype Check = Check(plan: Plan, uuid: Str)

  function NewKeyRow(c: Check): KeyRow {
    KeyRow(c.uuid, PlanKeyType(c.plan), c.plan.provider, c.plan.keyValue, c.plan.firstSeenAt, c.plan.expiresAt,
           None, false)
  }

  // ---------- the statements ----------

  /** The row a provider id and message id are keyed by. */
  predicate IsKey(r: KeyRow, provider: Provider, value: Str) {
    r.keyType == ProviderIdKey && r.provider == provider && r.keyValue == value
  }

  function FindKey(rows: seq<KeyRow>, provider: Provider, value: Str): (r: Option<KeyRow>)
    ensures r.Some? ==> exists a :: 0 <= a < |rows| && rows[a] == r.value && IsKey(rows[a], provider, value)
    ensures r.None? ==> forall a :: 0 <= a < |rows| ==> !IsKey(rows[a], provider, value)
  {
    if rows == [] then None
    else if IsKey(rows[0], provider, value) then Some(rows[0])
    else
      var rest := FindKey(rows[1..], provider, value);
      assert forall a :: 1 <= a < |rows| ==> rows[a] == rows[1..][a-1];
      rest
  }

  predicate Taken(rows: seq<KeyRow>, id: Str) {
    exists a :: 0 <= a < |rows| && rows[a].id == id
  }

  predicate InWindow(r: KeyRow, hash: Str, from: Str, to: Str) {
    r.keyType == ContentHashKey && r.keyValue == hash && LexLe(from, r.firstSeenAt) && LexLe(r.firstSeenAt, to)
  }

  /** ORDER BY first_seen_at DESC, id. */
  predicate Precedes(r: KeyRow, s: KeyRow) {
    if r.firstSeenAt == s.firstSeenAt then LexLe(r.id, s.id) else LexLe(s.firstSeenAt, r.firstSeenAt)
  }

  function Ahead(r: KeyRow, m: Option<KeyRow>): KeyRow {
    if m.Some? && !Precedes(r, m.value) then m.value else r
  }

  /** The windowed SELECT … LIMIT 1. */
  function SelectWindow(rows: seq<KeyRow>, hash: Str, from: Str, to: Str): Option<KeyRow> {
    if rows == [] then None
    else
      var m := SelectWindow(rows[1..], hash, from, to);
      if InWindow(rows[0], hash, from, to) then Some(Ahead(rows[0], m)) else m
  }

  lemma AheadIsFirst(r: KeyRow, m: KeyRow, s: KeyRow)
    requires s == r || Precedes(m, s)
    ensures Precedes(Ahead(r, Some(m)), s)
  {
    hide LexLe;
    LexLeReflexive(r.id);
    LexLeTotal(r.id, m.id);
    LexLeTotal(r.firstSeenAt, m.firstSeenAt);
    if Precedes(r, m) && Precedes(m, s) {
      if LexLe(s.id, m.id) && LexLe(m.id, r.id) { LexLeTransitive(s.id, m.id, r.id); }
      if LexLe(r.id, m.id) && LexLe(m.id, s.id) { LexLeTransitive(r.id, m.id, s.id); }
      if LexLe(s.firstSeenAt, m.firstSeenAt) && LexLe(m.firstSeenAt, r.firstSeenAt) {
        LexLeTransitive(s.firstSeenAt, m.firstSeenAt, r.firstSeenAt);
        if s.firstSeenAt == r.firstSeenAt { LexLeAntisymmetric(m.firstSeenAt, r.firstSeenAt); }
      }
    }
  }

  /** The SELECT returns the most recent row of the window, the smaller id among the most recent,
      and nothing exactly when the window is empty. */
  lemma {:induction false} SelectWindowIsFirst(rows: seq<KeyRow>, hash: Str, from: Str, to: Str)
    ensures var m := SelectWindow(rows, hash, from, to);
      && (m.None? ==> forall a :: 0 <= a < |rows| ==> !InWindow(rows[a], hash, from, to))
      && (m.Some? ==> InWindow(m.value, hash, from, to) && exists a :: 0 <= a < |rows| && rows[a] == m.value)
      && (m.Some? ==> forall a :: 0 <= a < |rows| && InWindow(rows[a], hash, from, to) ==> Precedes(m.value, rows[a]))
  {
    hide LexLe, Precedes, InWindow;
    if rows != [] {
      SelectWindowIsFirst(rows[1..], hash, from, to);
      var m, rest := SelectWindow(rows, hash, from, to), SelectWindow(rows[1..], hash, from, to);
      assert forall a :: 1 <= a < |rows| ==> rows[a] == rows[1..][a-1];
      if m.Some? {
        forall a | 0 <= a < |rows| && InWindow(rows[a], hash, from, to) ensures Precedes(m.value, rows[a]) {
          if InWindow(rows[0], hash, from, to) {
            if rest.Some? { AheadIsFirst(rows[0], rest.value, rows[a]); } else { PrecedesItself(rows[0]); }
          }
        }
      }
    }
  }

  lemma PrecedesItself(r: KeyRow)
    ensures Precedes(r, r)
  {
    LexLeReflexive(r.id);
  }

  function SetLink(rows: seq<KeyRow>, keyId: Str, messageId: Str): (r: seq<KeyRow>)
    ensures |r| == |rows|
    ensures forall a :: 0 <= a < |rows| ==>
      r[a] == if rows[a].id == keyId then rows[a].(linkedMessageId := Some(messageId)) else rows[a]
  {
    if rows == [] then []
    else [if rows[0].id == keyId then rows[0].(linkedMessageId := Some(messageId)) else rows[0]]
         + SetLink(rows[1..], keyId, messageId)
  }

  // ---------- the gates, statement by statement ----------

  datatype Op = ProviderIdInsert | ProviderIdConflictFetch | ConflictRowMissing | ContentHashSelect | ContentHashInsert

  datatype Outcome =
    | Novel(contentHash: Str, keyId: Str)
    | Duplicate(contentHash: Str, matchedKeyId: Str, linkedMessageId: Option<Str>)
    | Error(contentHash: Str, op: Op)

  /** Where a check stands. `wrote` tells whether its row went into the table, which the caller of
      a gate that ends in an error is not told. */
  datatype Phase = Planned | Conflicted | Unmatched | Done(outcome: Outcome, wrote: bool)

  function Fail(c: Check, op: Op): Phase {
    Done(Error(c.plan.contentHash, op), false)
  }

  /** The INSERT of a check that no key stands in the way of. A row whose id is taken is refused. */
  function InsertRow(rows: seq<KeyRow>, c: Check, op: Op, fault: Fault): (seq<KeyRow>, Phase) {
    if fault == FailsBefore || Taken(rows, c.uuid) then (rows, Fail(c, op))
    else (rows + [NewKeyRow(c)],
          Done(if fault == Works then Novel(c.plan.contentHash, c.uuid) else Error(c.plan.contentHash, op), true))
  }

  /** The next statement of a gate. */
  function Advance(rows: seq<KeyRow>, c: Check, p: Phase, fault: Fault): (seq<KeyRow>, Phase) {
    var plan := c.plan;
    if plan.ProviderPlan? then
      if p.Planned? then
        if FindKey(rows, plan.provider, plan.keyValue).None? then InsertRow(rows, c, ProviderIdInsert, fault)
        else (rows, if fault == Works then Conflicted else Fail(c, ProviderIdInsert))
      else if p.Conflicted? then
        if fault != Works then (rows, Fail(c, ProviderIdConflictFetch))
        else match FindKey(rows, plan.provider, plan.keyValue)
          case None => (rows, Fail(c, ConflictRowMissing))
          case Some(r) => (rows, Done(Duplicate(plan.contentHash, r.id, r.linkedMessageId), false))
      else (rows, p)
    else
      if p.Planned? then
        if fault != Works then (rows, Fail(c, ContentHashSelect))
        else match SelectWindow(rows, plan.keyValue, plan.windowStartAt, plan.firstSeenAt)
          case None => (rows, Unmatched)
          case Some(r) => (rows, Done(Duplicate(plan.contentHash, r.id, r.linkedMessageId), false))
      else if p.Unmatched? then InsertRow(rows, c, ContentHashInsert, fault)
      else (rows, p)
  }

  /** A gate with no other statement between its own. */
  function Execute(rows: seq<KeyRow>, c: Check, first: Fault, second: Fault): (seq<KeyRow>, Phase) {
    var (after, p) := Advance(rows, c, Planned, first);
    if p.Done? then (after, p) else Advance(after, c, p, second)
  }

  datatype LinkResult = Linked | KeyNotFound | DbError

  /** The table with the code that writes it. */
  class KeyStore {
    var rows: seq<KeyRow>

    constructor ()
      ensures rows == []
    {
      rows := [];
    }

    /** An INSERT of one row as the database carries it out. */
    method Insert(row: KeyRow, fault: Fault) returns (ok: bool)
      modifies this
      ensures rows == if fault == FailsBefore || Taken(old(rows), row.id) then old(rows) else old(rows) + [row]
      ensures ok <==> fault == Works && !Taken(old(rows), row.id)
    {
      if fault == FailsBefore || Taken(rows, row.id) {
        return false;
      }
      rows := rows + [row];
      ok := fault == Works;
    }

    method ExecuteProviderIdGate(plan: Plan, uuid: Str, onInsert: Fault, onFetch: Fault)
      returns (outcome: Outcome, ghost wrote: bool)
      requires plan.ProviderPlan?
      modifies this
      ensures (rows, Done(outcome, wrote)) == Execute(old(rows), Check(plan, uuid), onInsert, onFetch)
    {
      var row := NewKeyRow(Check(plan, uuid));
      var existing := FindKey(rows, plan.provider, plan.keyValue);
      wrote := false;
      if existing.None? {
        wrote := onInsert != FailsBefore && !Taken(rows, uuid);
        var ok := Insert(row, onInsert);
        outcome := if ok then Novel(plan.contentHash, uuid) else Error(plan.contentHash, ProviderIdInsert);
        return;
      }
      if onInsert != Works {
        outcome := Error(plan.contentHash, ProviderIdInsert);
        return;
      }
      if onFetch != Works {
        outcome := Error(plan.contentHash, ProviderIdConflictFetch);
        return;
      }
      existing := FindKey(rows, plan.provider, plan.keyValue);
      outcome := Duplicate(plan.contentHash, existing.value.id, existing.value.linkedMessageId);
    }

    method ExecuteContentHashGate(plan: Plan, uuid: Str, onSelect: Fault, onInsert: Fault)
      returns (outcome: Outcome, ghost wrote: bool)
      requires plan.HashPlan?
      modifies this
      ensures (rows, Done(outcome, wrote)) == Execute(old(rows), Check(plan, uuid), onSelect, onInsert)
    {
      wrote := false;
      if onSelect != Works {
        outcome := Error(plan.contentHash, ContentHashSelect);
        return;
      }
      var found := SelectWindow(rows, plan.keyValue, plan.windowStartAt, plan.firstSeenAt);
      if found.Some? {
        outcome := Duplicate(plan.contentHash, found.value.id, found.value.linkedMessageId);
        return;
      }
      var row := NewKeyRow(Check(plan, uuid));
      wrote := onInsert != FailsBefore && !Taken(rows, uuid);
      var ok := Insert(row, onInsert);
      outcome := if ok then Novel(plan.contentHash, row.id) else Error(plan.contentHash, ContentHashInsert);
    }

    method LinkIdempotencyKey(keyId: Str, messageId: Str, fault: Fault) returns (result: LinkResult)
      modifies this
      ensures rows == if fault == FailsBefore then old(rows) else SetLink(old(rows), keyId, messageId)
      ensures result == if fault != Works then DbError else if Taken(old(rows), keyId) then Linked else KeyNotFound
    {
      if fault == FailsBefore {
        return DbError;
      }
      result := if fault == FailsAfter then DbError else if Taken(rows, keyId) then Linked else KeyNotFound;
      rows := SetLink(rows, keyId, messageId);
    }
  }

  // ---------- any number of checks at once ----------

  datatype System = System(rows: seq<KeyRow>, checks: seq<Check>)

  datatype State = State(rows: seq<KeyRow>, phases: seq<Phase>)

  /** One statement of one check, or a link. */
  datatype Action = Statement(check: nat, fault: Fault) | Link(keyId: Str, messageId: Str)

  function Next(sys: System, s: State, a: Action): State {
    match a
    case Link(key, message) => s.(rows := SetLink(s.rows, key, message))
    case Statement(i, fault) =>
      if i < |sys.checks| && i < |s.phases| then
        var (rows, p) := Advance(s.rows, sys.checks[i], s.phases[i], fault);
        State(rows, s.phases[i := p])
      else s
  }

  function Run(sys: System, actions: seq<Action>): State {
    if actions == [] then State(sys.rows, seq(|sys.checks|, _ => Planned))
    else Next(sys, Run(sys, actions[..|actions|-1]), actions[|actions|-1])
  }

  /** A link sets the message of the key with that id and touches nothing else. */
  lemma LinkSets(sys: System, s: State, key: Str, message: Str, a: nat)
    requires a < |s.rows|
    ensures var s' := Next(sys, s, Link(key, message));
      && |s'.rows| == |s.rows| && s'.phases == s.phases
      && s'.rows[a] == if s.rows[a].id == key then s.rows[a].(linkedMessageId := Some(message)) else s.rows[a]
  {
  }

  /** A row without its link. */
  function Core(r: KeyRow): KeyRow {
    r.(linkedMessageId := None)
  }

  /** Rows are added and linked, and nothing else happens to them. */
  predicate Extends(rows: seq<KeyRow>, more: seq<KeyRow>) {
    |rows| <= |more| && forall a :: 0 <= a < |rows| ==> Core(more[a]) == Core(rows[a])
  }

  /** The primary key and the partial unique index. */
  ghost predicate Unique(rows: seq<KeyRow>) {
    forall a, b :: 0 <= a < b < |rows| ==>
      rows[a].id != rows[b].id && !(IsKey(rows[a], rows[b].provider, rows[b].keyValue) && rows[b].keyType == ProviderIdKey)
  }

  predicate Matches(plan: Plan, r: KeyRow) {
    if plan.ProviderPlan? then IsKey(r, plan.provider, plan.keyValue)
    else InWindow(r, plan.keyValue, plan.windowStartAt, plan.firstSeenAt)
  }

  ghost predicate Stored(rows: seq<KeyRow>, core: KeyRow) {
    exists a :: 0 <= a < |rows| && Core(rows[a]) == core
  }

  ghost predicate MatchStored(rows: seq<KeyRow>, plan: Plan, id: Str) {
    exists a :: 0 <= a < |rows| && rows[a].id == id && Matches(plan, rows[a])
  }

  predicate IsNovel(p: Phase) {
    p.Done? && p.outcome.Novel?
  }

  predicate Wrote(p: Phase) {
    p.Done? && p.wrote
  }

  /** The caller was told of an error, and yet the row of the check is in the table. */
  predicate Lost(p: Phase) {
    p.Done? && p.outcome.Error? && p.wrote
  }

  /** The check ended in a way that says its message is stored. */
  predicate Decided(p: Phase) {
    p.Done? && (p.wrote || !p.outcome.Error?)
  }

  /** What the table holds for a check at each point of its gate. */
  ghost predicate PhaseHolds(rows: seq<KeyRow>, c: Check, p: Phase) {
    match p
    case Planned => true
    case Conflicted => c.plan.ProviderPlan? && exists a :: 0 <= a < |rows| && Matches(c.plan, rows[a])
    case Unmatched => c.plan.HashPlan?
    case Done(o, wrote) =>
      && (wrote ==> Stored(rows, NewKeyRow(c)))
      && (match o
          case Novel(_, id) => id == c.uuid && wrote
          case Duplicate(_, id, _) => !wrote && MatchStored(rows, c.plan, id)
          case Error(_, op) => op != ConflictRowMissing)
  }

  ghost predicate Origin(sys: System, s: State, a: nat)
    requires a < |s.rows| && |s.phases| == |sys.checks|
  {
    || (a < |sys.rows| && Core(sys.rows[a]) == Core(s.rows[a]))
    || exists i :: 0 <= i < |s.phases| && Wrote(s.phases[i]) && NewKeyRow(sys.checks[i]) == Core(s.rows[a])
  }

  ghost predicate Inv(sys: System, s: State) {
    && |s.phases| == |sys.checks|
    && Unique(s.rows)
    && (forall i :: 0 <= i < |s.phases| ==> PhaseHolds(s.rows, sys.checks[i], s.phases[i]))
    && (forall i, j :: 0 <= i < j < |s.phases| && Wrote(s.phases[i]) && Wrote(s.phases[j]) ==>
          sys.checks[i].uuid != sys.checks[j].uuid)
    && (forall a :: 0 <= a < |s.rows| ==> Origin(sys, s, a))
  }

  /** A statement writes the row of its check or nothing, and tells so in the phase. */
  lemma AdvanceWrites(rows: seq<KeyRow>, c: Check, p: Phase, fault: Fault)
    ensures var r := Advance(rows, c, p, fault);
      && (r.0 == rows || (r.0 == rows + [NewKeyRow(c)] && !Taken(rows, c.uuid)))
      && (r.0 != rows <==> !Wrote(p) && Wrote(r.1))
      && (Lost(r.1) && !Lost(p) <==> r.0 != rows && fault == FailsAfter)
      && (IsNovel(r.1) && !IsNovel(p) <==> r.0 != rows && fault == Works)
      && (p.Done? ==> r.1 == p)
  {
    hide SelectWindow, FindKey;
  }

  lemma AdvanceExtends(rows: seq<KeyRow>, c: Check, p: Phase, fault: Fault)
    requires Unique(rows)
    ensures var r := Advance(rows, c, p, fault); Extends(rows, r.0) && Unique(r.0)
  {
    hide SelectWindow;
  }

  lemma StaysTrue(rows: seq<KeyRow>, more: seq<KeyRow>, c: Check, p: Phase)
    requires Extends(rows, more) && PhaseHolds(rows, c, p)
    ensures PhaseHolds(more, c, p)
  {
    hide LexLe;
    forall a | 0 <= a < |rows| && Matches(c.plan, rows[a]) ensures Matches(c.plan, more[a]) {
      assert Core(rows[a]).firstSeenAt == rows[a].firstSeenAt;
    }
  }

  lemma AdvanceHolds(rows: seq<KeyRow>, c: Check, p: Phase, fault: Fault)
    requires PhaseHolds(rows, c, p)
    ensures var r := Advance(rows, c, p, fault); PhaseHolds(r.0, c, r.1)
  {
    hide LexLe, SelectWindow;
    if c.plan.HashPlan? && p.Planned? {
      SelectWindowIsFirst(rows, c.plan.keyValue, c.plan.windowStartAt, c.plan.firstSeenAt);
    }
    var r := Advance(rows, c, p, fault);
    if r.0 == rows + [NewKeyRow(c)] { assert r.0[|rows|] == NewKeyRow(c); }
  }

  lemma InvStatement(sys: System, s: State, i: nat, fault: Fault)
    requires Inv(sys, s)
    ensures Inv(sys, Next(sys, s, Statement(i, fault)))
  {
    hide PhaseHolds, Advance, Unique, FindKey, Extends, Lost, IsNovel;
    if i < |sys.checks| {
      var c, t := sys.checks[i], Next(sys, s, Statement(i, fault));
      AdvanceExtends(s.rows, c, s.phases[i], fault);
      AdvanceHolds(s.rows, c, s.phases[i], fault);
      AdvanceWrites(s.rows, c, s.phases[i], fault);
      forall j | 0 <= j < |t.phases| ensures PhaseHolds(t.rows, sys.checks[j], t.phases[j]) {
        if j != i { StaysTrue(s.rows, t.rows, sys.checks[j], s.phases[j]); }
      }
      forall j | 0 <= j < |t.phases| && j != i && Wrote(t.phases[j]) && Wrote(t.phases[i])
        ensures sys.checks[j].uuid != c.uuid
      {
        if !Wrote(s.phases[i]) { WriterTakesItsId(s.rows, sys.checks[j], s.phases[j]); }
      }
      forall a | 0 <= a < |t.rows| ensures Origin(sys, t, a) {
        OriginKept(sys, s, i, fault, a);
      }
    }
  }

  lemma WriterTakesItsId(rows: seq<KeyRow>, c: Check, p: Phase)
    requires PhaseHolds(rows, c, p) && Wrote(p)
    ensures Taken(rows, c.uuid)
  {
    var a :| 0 <= a < |rows| && Core(rows[a]) == NewKeyRow(c);
    assert rows[a].id == c.uuid;
  }

  lemma OriginKept(sys: System, s: State, i: nat, fault: Fault, a: nat)
    requires Inv(sys, s) && i < |sys.checks|
    requires a < |Next(sys, s, Statement(i, fault)).rows|
    ensures Origin(sys, Next(sys, s, Statement(i, fault)), a)
  {
    hide PhaseHolds, Advance, Unique, FindKey, Extends, Lost, IsNovel;
    var t := Next(sys, s, Statement(i, fault));
    AdvanceWrites(s.rows, sys.checks[i], s.phases[i], fault);
    if a < |s.rows| {
      assert Origin(sys, s, a);
      assert t.rows[a] == s.rows[a];
      if !(a < |sys.rows| && Core(sys.rows[a]) == Core(s.rows[a])) {
        var j :| 0 <= j < |s.phases| && Wrote(s.phases[j]) && NewKeyRow(sys.checks[j]) == Core(s.rows[a]);
        assert t.phases[j] == s.phases[j];
      }
    } else {
      assert t.rows[a] == NewKeyRow(sys.checks[i]) && Wrote(t.phases[i]);
    }
  }

  lemma InvLink(sys: System, s: State, key: Str, message: Str)
    requires Inv(sys, s)
    ensures Inv(sys, Next(sys, s, Link(key, message)))
  {
    hide PhaseHolds, FindKey, SetLink;
    var t := Next(sys, s, Link(key, message));
    LinkExtends(s.rows, key, message);
    forall j | 0 <= j < |t.phases| ensures PhaseHolds(t.rows, sys.checks[j], t.phases[j]) {
      StaysTrue(s.rows, t.rows, sys.checks[j], s.phases[j]);
    }
    forall a | 0 <= a < |t.rows| ensures Origin(sys, t, a) {
      assert Origin(sys, s, a);
    }
    forall a, b | 0 <= a < b < |t.rows|
      ensures t.rows[a].id != t.rows[b].id
      ensures !(IsKey(t.rows[a], t.rows[b].provider, t.rows[b].keyValue) && t.rows[b].keyType == ProviderIdKey)
    {
      assert Core(t.rows[a]) == Core(s.rows[a]) && Core(t.rows[b]) == Core(s.rows[b]);
    }
  }

  lemma LinkExtends(rows: seq<KeyRow>, key: Str, message: Str)
    ensures Extends(rows, SetLink(rows, key, message)) && |SetLink(rows, key, message)| == |rows|
  {
  }

  lemma {:induction false} InvAlways(sys: System, actions: seq<Action>)
    requires Unique(sys.rows)
    ensures Inv(sys, Run(sys, actions))
  {
    hide Advance, SetLink;
    if actions != [] {
      InvAlways(sys, actions[..|actions|-1]);
      var s := Run(sys, actions[..|actions|-1]);
      match actions[|actions|-1]
      case Link(key, message) => InvLink(sys, s, key, message);
      case Statement(i, fault) => InvStatement(sys, s, i, fault);
    }
  }

  // ---------- what every interleaving guarantees ----------

  /** Two checks of one provider and message id. */
  predicate SameMessage(c: Check, d: Check) {
    c.plan.ProviderPlan? && d.plan.ProviderPlan? && c.plan.provider == d.plan.provider && c.plan.keyValue == d.plan.keyValue
  }

  /** Two rows under one provider message id are one row. */
  lemma KeyIsUnique(rows: seq<KeyRow>, a: nat, b: nat, provider: Provider, value: Str)
    requires Unique(rows) && a < |rows| && b < |rows|
    requires IsKey(rows[a], provider, value) && IsKey(rows[b], provider, value)
    ensures a == b
  {
  }

  /** The row a check of a provider message id was decided by. */
  lemma DecidingRow(sys: System, s: State, k: nat) returns (a: nat)
    requires Inv(sys, s) && k < |sys.checks| && sys.checks[k].plan.ProviderPlan? && Decided(s.phases[k])
    ensures a < |s.rows| && IsKey(s.rows[a], sys.checks[k].plan.provider, sys.checks[k].plan.keyValue)
    ensures Wrote(s.phases[k]) ==> s.rows[a].id == sys.checks[k].uuid
    ensures s.phases[k].outcome.Duplicate? ==> s.rows[a].id == s.phases[k].outcome.matchedKeyId
  {
    hide Unique;
    assert PhaseHolds(s.rows, sys.checks[k], s.phases[k]);
    if Wrote(s.phases[k]) {
      a :| 0 <= a < |s.rows| && Core(s.rows[a]) == NewKeyRow(sys.checks[k]);
      assert Core(s.rows[a]).id == s.rows[a].id;
    } else {
      a :| 0 <= a < |s.rows| && s.rows[a].id == s.phases[k].outcome.matchedKeyId && Matches(sys.checks[k].plan, s.rows[a]);
    }
  }

  /** Two decided checks of one message were decided by one row, so they did not both write it and
      name the same key. */
  lemma OneRowDecides(sys: System, s: State, j: nat, k: nat)
    requires Inv(sys, s) && j < |sys.checks| && k < |sys.checks| && j != k
    requires SameMessage(sys.checks[j], sys.checks[k]) && Decided(s.phases[j]) && Decided(s.phases[k])
    ensures !(Wrote(s.phases[j]) && Wrote(s.phases[k]))
    ensures s.phases[j].outcome.Duplicate? && Wrote(s.phases[k]) ==> s.phases[j].outcome.matchedKeyId == sys.checks[k].uuid
  {
    hide Unique, PhaseHolds, Origin;
    var a := DecidingRow(sys, s, j);
    var b := DecidingRow(sys, s, k);
    KeyIsUnique(s.rows, a, b, sys.checks[k].plan.provider, sys.checks[k].plan.keyValue);
  }

  /** At most one check of a message is ever novel, whatever fails and however. */
  lemma AtMostOneNovel(sys: System, actions: seq<Action>, j: nat, k: nat)
    requires Unique(sys.rows) && j < |sys.checks| && k < |sys.checks| && j != k && SameMessage(sys.checks[j], sys.checks[k])
    ensures var p := Run(sys, actions).phases; |p| == |sys.checks| && !(IsNovel(p[j]) && IsNovel(p[k]))
  {
    hide Run, Unique, Origin;
    InvAlways(sys, actions);
    var s := Run(sys, actions);
    assert PhaseHolds(s.rows, sys.checks[j], s.phases[j]) && PhaseHolds(s.rows, sys.checks[k], s.phases[k]);
    if IsNovel(s.phases[j]) && IsNovel(s.phases[k]) { OneRowDecides(sys, s, j, k); }
  }

  /** Some check of a message not seen before has written its row once any of them is decided. */
  lemma SomeoneWrote(sys: System, s: State, k: nat) returns (i: nat)
    requires Inv(sys, s) && k < |sys.checks| && sys.checks[k].plan.ProviderPlan? && Decided(s.phases[k])
    requires FindKey(sys.rows, sys.checks[k].plan.provider, sys.checks[k].plan.keyValue).None?
    ensures i < |s.phases| && Wrote(s.phases[i]) && SameMessage(sys.checks[i], sys.checks[k])
  {
    hide Unique, PhaseHolds, FindKey;
    var plan := sys.checks[k].plan;
    var a := DecidingRow(sys, s, k);
    assert Origin(sys, s, a);
    if a < |sys.rows| && Core(sys.rows[a]) == Core(s.rows[a]) {
      assert false;
    }
    i :| 0 <= i < |s.phases| && Wrote(s.phases[i]) && NewKeyRow(sys.checks[i]) == Core(s.rows[a]);
    assert Core(s.rows[a]).keyType == ProviderIdKey && Core(s.rows[a]).keyValue == plan.keyValue;
  }

  /** Once any of the concurrent checks of a new message is decided, exactly one of them has
      written the key and every other that ends without an error is a duplicate naming it. That one
      is novel, and so one of them is, exactly if no INSERT for the message took effect and then
      reported an error; if one did, the message is a duplicate to every other check of it. */
  lemma ExactlyOneNovel(sys: System, actions: seq<Action>, k: nat) returns (i: nat)
    requires Unique(sys.rows) && k < |sys.checks| && sys.checks[k].plan.ProviderPlan?
    requires FindKey(sys.rows, sys.checks[k].plan.provider, sys.checks[k].plan.keyValue).None?
    requires var p := Run(sys, actions).phases; k < |p| && Decided(p[k])
    ensures var p := Run(sys, actions).phases;
      i < |p| == |sys.checks| && SameMessage(sys.checks[i], sys.checks[k]) && Wrote(p[i])
    ensures var p := Run(sys, actions).phases;
      forall j :: 0 <= j < |p| && j != i && SameMessage(sys.checks[j], sys.checks[k]) ==>
        !Wrote(p[j]) && !IsNovel(p[j]) && !Lost(p[j])
        && (Decided(p[j]) ==> p[j].outcome.Duplicate? && p[j].outcome.matchedKeyId == sys.checks[i].uuid)
    ensures var p := Run(sys, actions).phases;
      IsNovel(p[i]) <==> forall j :: 0 <= j < |p| && SameMessage(sys.checks[j], sys.checks[k]) ==> !Lost(p[j])
  {
    hide Run, Unique, PhaseHolds, Origin, FindKey;
    InvAlways(sys, actions);
    NovelHash(sys, actions);
    var s := Run(sys, actions);
    i := SomeoneWrote(sys, s, k);
    WriterIsNovelOrLost(sys, s, i);
    forall j | 0 <= j < |s.phases| && j != i && SameMessage(sys.checks[j], sys.checks[k])
      ensures !Wrote(s.phases[j]) && !IsNovel(s.phases[j])
      ensures Decided(s.phases[j]) ==> s.phases[j].outcome.Duplicate? && s.phases[j].outcome.matchedKeyId == sys.checks[i].uuid
    {
      WriterIsNovelOrLost(sys, s, j);
      if Decided(s.phases[j]) { OneRowDecides(sys, s, j, i); }
    }
  }

  lemma WriterIsNovelOrLost(sys: System, s: State, i: nat)
    requires Inv(sys, s) && i < |s.phases|
    ensures Wrote(s.phases[i]) <==> IsNovel(s.phases[i]) || Lost(s.phases[i])
    ensures !(IsNovel(s.phases[i]) && Lost(s.phases[i]))
  {
    hide Unique, Origin;
    assert PhaseHolds(s.rows, sys.checks[i], s.phases[i]);
  }

  /** The k-th action is an INSERT of check `i` that takes effect and then reports an error. */
  predicate FailsAfterEffect(sys: System, actions: seq<Action>, i: nat, k: nat) {
    k < |actions| && actions[k] == Statement(i, FailsAfter) && |Run(sys, actions[..k]).rows| < |Run(sys, actions[..k+1]).rows|
  }

  /** A check is lost exactly if one of its statements did that. */
  lemma {:induction false} LostIffFailedAfter(sys: System, actions: seq<Action>, i: nat)
    requires i < |sys.checks|
    ensures |Run(sys, actions).phases| == |sys.checks|
    ensures Lost(Run(sys, actions).phases[i]) <==> exists k :: FailsAfterEffect(sys, actions, i, k)
  {
    hide Next, Lost;
    if actions == [] {
      NothingRun(sys);
      NotLostYet();
    } else {
      var n := |actions| - 1;
      var rest := actions[..n];
      LostIffFailedAfter(sys, rest, i);
      LossStep(sys, Run(sys, rest), actions[n], i);
      assert actions[..n+1] == actions;
      forall k | 0 <= k < n ensures FailsAfterEffect(sys, actions, i, k) <==> FailsAfterEffect(sys, rest, i, k) {
        assert rest[..k] == actions[..k] && rest[..k+1] == actions[..k+1];
      }
      assert FailsAfterEffect(sys, actions, i, n) <==>
        actions[n] == Statement(i, FailsAfter) && |Run(sys, rest).rows| < |Run(sys, actions).rows|;
      if k :| FailsAfterEffect(sys, rest, i, k) { assert FailsAfterEffect(sys, actions, i, k); }
    }
  }

  lemma LossStep(sys: System, s: State, a: Action, i: nat)
    requires i < |sys.checks| == |s.phases|
    ensures var t := Next(sys, s, a);
      && |t.phases| == |s.phases|
      && (Lost(t.phases[i]) <==> Lost(s.phases[i]) || (a == Statement(i, FailsAfter) && |s.rows| < |t.rows|))
  {
    hide Advance;
    if a.Statement? && a.check == i { AdvanceWrites(s.rows, sys.checks[i], s.phases[i], a.fault); }
  }

  lemma NotLostYet()
    ensures !Lost(Planned)
  {
  }

  lemma {:induction false} RowsStay(sys: System, actions: seq<Action>)
    requires Unique(sys.rows)
    ensures Extends(sys.rows, Run(sys, actions).rows)
  {
    hide Advance, SetLink, Inv, Unique;
    if actions != [] {
      var rest := actions[..|actions|-1];
      RowsStay(sys, rest);
      InvAlways(sys, rest);
      RowsKept(sys, Run(sys, rest), actions[|actions|-1]);
    }
  }

  lemma RowsKept(sys: System, s: State, a: Action)
    requires Inv(sys, s)
    ensures Extends(s.rows, Next(sys, s, a).rows)
  {
    hide Advance, SetLink;
    match a
    case Link(key, message) => LinkExtends(s.rows, key, message);
    case Statement(i, fault) => if i < |sys.checks| { AdvanceExtends(s.rows, sys.checks[i], s.phases[i], fault); }
  }

  /** A message whose key is already stored is never novel again, and every check of it names
      that key. */
  lemma StoredKeyWins(sys: System, actions: seq<Action>, k: nat, a: nat)
    requires Unique(sys.rows) && k < |sys.checks| && sys.checks[k].plan.ProviderPlan?
    requires a < |sys.rows| && IsKey(sys.rows[a], sys.checks[k].plan.provider, sys.checks[k].plan.keyValue)
    requires !Taken(sys.rows, sys.checks[k].uuid)
    requires var p := Run(sys, actions).phases; k < |p| && Decided(p[k])
    ensures var o := Run(sys, actions).phases[k].outcome; o.Duplicate? && o.matchedKeyId == sys.rows[a].id
  {
    hide Run, Unique, Origin, SelectWindow;
    InvAlways(sys, actions);
    RowsStay(sys, actions);
    var s := Run(sys, actions);
    assert PhaseHolds(s.rows, sys.checks[k], s.phases[k]);
    var b := DecidingRow(sys, s, k);
    assert Core(s.rows[a]) == Core(sys.rows[a]);
    assert Core(s.rows[a]).id == s.rows[a].id && Core(s.rows[a]).keyValue == s.rows[a].keyValue;
    KeyIsUnique(s.rows, a, b, sys.checks[k].plan.provider, sys.checks[k].plan.keyValue);
  }

  predicate CarriesHash(c: Check, o: Outcome) {
    o.contentHash == c.plan.contentHash && (o.Novel? ==> o.keyId == c.uuid)
  }

  /** Outcomes carry the hash of their own plan, and a novel one its own id. */
  lemma {:induction false} NovelHash(sys: System, actions: seq<Action>)
    ensures var p := Run(sys, actions).phases;
      |p| == |sys.checks| && forall i :: 0 <= i < |p| && p[i].Done? ==> CarriesHash(sys.checks[i], p[i].outcome)
  {
    hide Advance, SetLink, CarriesHash;
    if actions != [] {
      var rest, a := actions[..|actions|-1], actions[|actions|-1];
      NovelHash(sys, rest);
      if a.Statement? && a.check < |sys.checks| {
        AdvanceCarries(Run(sys, rest).rows, sys.checks[a.check], Run(sys, rest).phases[a.check], a.fault);
      }
    }
  }

  lemma AdvanceCarries(rows: seq<KeyRow>, c: Check, p: Phase, fault: Fault)
    requires p.Done? ==> CarriesHash(c, p.outcome)
    ensures var q := Advance(rows, c, p, fault).1; q.Done? ==> CarriesHash(c, q.outcome)
  {
    hide FindKey, SelectWindow, Taken;
  }

  /** Two statements decide a check, and an error names the one that failed. */
  lemma StatementsDecide(rows: seq<KeyRow>, c: Check, p: Phase, fault: Fault)
    requires if c.plan.ProviderPlan? then p == Planned || p == Conflicted else p == Planned || p == Unmatched
    ensures var q := Advance(rows, c, p, fault).1;
      && (q.Done? || (p == Planned && q == if c.plan.ProviderPlan? then Conflicted else Unmatched))
      && (q.Done? && q.outcome.Error? ==>
            if c.plan.ProviderPlan? then
              if p == Planned then q.outcome.op == ProviderIdInsert
              else q.outcome.op == if fault == Works then ConflictRowMissing else ProviderIdConflictFetch
            else q.outcome.op == if p == Planned then ContentHashSelect else ContentHashInsert)
  {
    hide FindKey, SelectWindow, Taken;
  }

  /** Not a failing statement of check `i`. */
  predicate Faultless(a: Action, i: nat) {
    !(a.Statement? && a.check == i && a.fault != Works)
  }

  /** A check whose statements all work and whose id is its own never ends in an error: in
      particular the row behind a conflict is always there to be fetched. */
  lemma {:induction false} ErrorsComeFromTheDatabase(sys: System, actions: seq<Action>, i: nat)
    requires Unique(sys.rows) && i < |sys.checks|
    requires forall k :: 0 <= k < |actions| ==> Faultless(actions[k], i)
    requires !Taken(sys.rows, sys.checks[i].uuid)
    requires forall j :: 0 <= j < |sys.checks| && j != i ==> sys.checks[j].uuid != sys.checks[i].uuid
    ensures var p := Run(sys, actions).phases; |p| == |sys.checks| && (p[i].Done? ==> !p[i].outcome.Error?)
  {
    hide FindKey, SelectWindow, Taken, SetLink, Inv, InsertRow;
    if actions != [] {
      var rest := actions[..|actions|-1];
      forall k | 0 <= k < |rest| ensures Faultless(rest[k], i) {
        assert actions[k] == rest[k];
      }
      ErrorsComeFromTheDatabase(sys, rest, i);
      InvAlways(sys, rest);
      NovelHash(sys, actions);
      var s := Run(sys, rest);
      assert Faultless(actions[|actions|-1], i);
      if !s.phases[i].Done? {
        NoError(sys, s, i);
      }
    }
  }

  lemma NoError(sys: System, s: State, i: nat)
    requires Inv(sys, s) && i < |sys.checks| && !s.phases[i].Done?
    requires !Taken(sys.rows, sys.checks[i].uuid)
    requires forall j :: 0 <= j < |sys.checks| && j != i ==> sys.checks[j].uuid != sys.checks[i].uuid
    ensures !Taken(s.rows, sys.checks[i].uuid)
    ensures var p := Advance(s.rows, sys.checks[i], s.phases[i], Works).1; p.Done? ==> !p.outcome.Error?
  {
    hide SelectWindow, Unique;
    var c := sys.checks[i];
    forall a | 0 <= a < |s.rows| ensures s.rows[a].id != c.uuid {
      assert Origin(sys, s, a);
    }
    assert PhaseHolds(s.rows, c, s.phases[i]);
  }

  /** Whatever the interleaving and whatever fails, a message reported as a content-hash duplicate
      matches a stored key of the same hash first seen in the ten minutes up to it; that key was in
      the table before or was written by a check of the run. */
  lemma DuplicatesHaveAKey(sys: System, actions: seq<Action>, i: nat) returns (a: nat)
    requires Unique(sys.rows) && i < |sys.checks| && sys.checks[i].plan.HashPlan?
    requires var p := Run(sys, actions).phases; i < |p| && p[i].Done? && p[i].outcome.Duplicate?
    ensures var s, plan := Run(sys, actions), sys.checks[i].plan;
      && a < |s.rows| && |s.phases| == |sys.checks|
      && s.rows[a].id == s.phases[i].outcome.matchedKeyId
      && InWindow(s.rows[a], plan.keyValue, plan.windowStartAt, plan.firstSeenAt)
      && Origin(sys, s, a)
  {
    hide Run, Unique, Advance, InWindow, FindKey;
    InvAlways(sys, actions);
    var s, c := Run(sys, actions), sys.checks[i];
    assert PhaseHolds(s.rows, c, s.phases[i]);
    a :| 0 <= a < |s.rows| && s.rows[a].id == s.phases[i].outcome.matchedKeyId && Matches(c.plan, s.rows[a]);
  }

  /** A duplicate carries the id and the link its matched key has at that moment, whichever gate
      reports it. */
  lemma DuplicateCarriesTheLink(rows: seq<KeyRow>, c: Check, p: Phase, fault: Fault)
    requires !p.Done? && Advance(rows, c, p, fault).1.Done? && Advance(rows, c, p, fault).1.outcome.Duplicate?
    ensures var o := Advance(rows, c, p, fault).1.outcome;
      exists a :: 0 <= a < |rows| && Matches(c.plan, rows[a]) && rows[a].id == o.matchedKeyId
                  && rows[a].linkedMessageId == o.linkedMessageId
  {
    hide LexLe, SelectWindow;
    if c.plan.HashPlan? { SelectWindowIsFirst(rows, c.plan.keyValue, c.plan.windowStartAt, c.plan.firstSeenAt); }
  }

  // ---------- the race the content-hash gate accepts ----------

  /** Two checks of one hash with both SELECTs before either INSERT are both novel. */
  lemma HashRace(c: Check, d: Check)
    requires c.plan.HashPlan? && d.plan.HashPlan? && c.uuid != d.uuid
    ensures var s := Run(System([], [c, d]), [Statement(0, Works), Statement(1, Works), Statement(0, Works), Statement(1, Works)]);
      && s.phases == [Done(Novel(c.plan.contentHash, c.uuid), true), Done(Novel(d.plan.contentHash, d.uuid), true)]
      && s.rows == [NewKeyRow(c), NewKeyRow(d)]
  {
    hide FindKey, Run;
    var sys := System([], [c, d]);
    var x, y := Statement(0, Works), Statement(1, Works);
    LastStep(sys, [], x);
    LastStep(sys, [x], y);
    LastStep(sys, [x, y], x);
    LastStep(sys, [x, y, x], y);
    NothingRun(sys);
    assert [] + [x] == [x] && [x] + [y] == [x, y] && [x, y] + [x] == [x, y, x] && [x, y, x] + [y] == [x, y, x, y];
    assert Run(sys, []) == State([], [Planned, Planned]);
    assert Run(sys, [x, y]) == State([], [Unmatched, Unmatched]);
    assert Run(sys, [x, y, x]) == State([NewKeyRow(c)], [Done(Novel(c.plan.contentHash, c.uuid), true), Unmatched]);
  }

  lemma LastStep(sys: System, actions: seq<Action>, a: Action)
    ensures Run(sys, actions + [a]) == Next(sys, Run(sys, actions), a)
  {
    hide Next;
    assert (actions + [a])[..|actions|] == actions;
  }

  lemma NothingRun(sys: System)
    ensures Run(sys, []) == State(sys.rows, seq(|sys.checks|, _ => Planned))
  {
  }

  /** Action `k` is the SELECT of check `i`, and it matches nothing. */
  predicate SelectsAt(sys: System, actions: seq<Action>, i: nat, k: nat)
    requires i < |sys.checks|
  {
    && k < |actions| && actions[k].Statement? && actions[k].check == i
    && |Run(sys, actions[..k]).phases| == |Run(sys, actions[..k+1]).phases| == |sys.checks|
    && Run(sys, actions[..k]).phases[i].Planned? && Run(sys, actions[..k+1]).phases[i].Unmatched?
  }

  /** Action `k` is the INSERT of check `i`, and the row goes in. */
  predicate InsertsAt(sys: System, actions: seq<Action>, i: nat, k: nat)
    requires i < |sys.checks|
  {
    && k < |actions| && actions[k].Statement? && actions[k].check == i
    && |Run(sys, actions[..k]).phases| == |Run(sys, actions[..k+1]).phases| == |sys.checks|
    && Run(sys, actions[..k]).phases[i].Unmatched? && Wrote(Run(sys, actions[..k+1]).phases[i])
  }

  /** How the phase of a content-hash check moves on. */
  lemma HashSteps(sys: System, s: State, a: Action, i: nat)
    requires i < |sys.checks| == |s.phases| && sys.checks[i].plan.HashPlan?
    ensures var t := Next(sys, s, a);
      && |t.phases| == |sys.checks|
      && (t.phases[i].Unmatched? && !s.phases[i].Unmatched? ==> a.Statement? && a.check == i && s.phases[i].Planned?)
      && (Wrote(t.phases[i]) && !Wrote(s.phases[i]) ==> a.Statement? && a.check == i && s.phases[i].Unmatched?)
      && (Wrote(s.phases[i]) ==> t.phases[i] == s.phases[i])
  {
    hide SelectWindow, FindKey, SetLink, Taken;
  }

  lemma {:induction false} WhenSelected(sys: System, actions: seq<Action>, i: nat) returns (k: nat)
    requires i < |sys.checks| && sys.checks[i].plan.HashPlan?
    requires var p := Run(sys, actions).phases; i < |p| && p[i].Unmatched?
    ensures SelectsAt(sys, actions, i, k)
  {
    hide Advance, Next, Run;
    NovelHash(sys, actions);
    if actions == [] {
      NothingRun(sys);
    } else {
      var n := |actions| - 1;
      var rest := actions[..n];
      NovelHash(sys, rest);
      LastOf(sys, actions);
      HashSteps(sys, Run(sys, rest), actions[n], i);
      if Run(sys, rest).phases[i].Unmatched? {
        k := WhenSelected(sys, rest, i);
        assert rest[..k] == actions[..k] && rest[..k+1] == actions[..k+1];
      } else {
        k := n;
        assert actions[..n+1] == actions;
      }
    }
  }

  lemma LastOf(sys: System, actions: seq<Action>)
    requires actions != []
    ensures Run(sys, actions) == Next(sys, Run(sys, actions[..|actions|-1]), actions[|actions|-1])
  {
    hide Next;
  }

  /** The SELECT and the INSERT of a content-hash check whose row is in the table. */
  lemma {:induction false} WhenInserted(sys: System, actions: seq<Action>, i: nat) returns (k: nat, m: nat)
    requires i < |sys.checks| && sys.checks[i].plan.HashPlan?
    requires var p := Run(sys, actions).phases; i < |p| && Wrote(p[i])
    ensures k < m && SelectsAt(sys, actions, i, k) && InsertsAt(sys, actions, i, m)
  {
    hide Advance, Next, Run;
    NovelHash(sys, actions);
    if actions == [] {
      NothingRun(sys);
    } else {
      var n := |actions| - 1;
      var rest := actions[..n];
      NovelHash(sys, rest);
      LastOf(sys, actions);
      HashSteps(sys, Run(sys, rest), actions[n], i);
      if Wrote(Run(sys, rest).phases[i]) {
        k, m := WhenInserted(sys, rest, i);
        assert rest[..m] == actions[..m] && rest[..m+1] == actions[..m+1];
      } else {
        k := WhenSelected(sys, rest, i);
        m := n;
        assert actions[..n+1] == actions;
      }
      assert rest[..k] == actions[..k] && rest[..k+1] == actions[..k+1];
    }
  }

  lemma {:induction false} WroteStays(sys: System, actions: seq<Action>, i: nat, m: nat)
    requires i < |sys.checks| && sys.checks[i].plan.HashPlan? && m <= |actions|
    requires var p := Run(sys, actions[..m]).phases; i < |p| && Wrote(p[i])
    ensures var p := Run(sys, actions).phases; i < |p| && Wrote(p[i])
  {
    hide Advance, Next, Run;
    NovelHash(sys, actions);
    if m == |actions| {
      assert actions[..m] == actions;
    } else {
      var rest := actions[..|actions|-1];
      assert rest[..m] == actions[..m];
      WroteStays(sys, rest, i, m);
      NovelHash(sys, rest);
      LastOf(sys, actions);
      HashSteps(sys, Run(sys, rest), actions[|actions|-1], i);
    }
  }

  /** A SELECT that matches nothing comes before the INSERT of any row in its window. */
  lemma SelectComesFirst(sys: System, actions: seq<Action>, i: nat, k: nat, j: nat, m: nat)
    requires Unique(sys.rows) && i < |sys.checks| && j < |sys.checks| && i != j
    requires sys.checks[i].plan.HashPlan? && sys.checks[j].plan.HashPlan?
    requires SelectsAt(sys, actions, i, k) && InsertsAt(sys, actions, j, m)
    requires Matches(sys.checks[i].plan, NewKeyRow(sys.checks[j]))
    ensures k < m
  {
    hide Run, Unique, Origin, Matches, FindKey;
    if m < k {
      var before := actions[..k];
      assert before[..m+1] == actions[..m+1];
      WroteStays(sys, before, j, m + 1);
      InvAlways(sys, before);
      NothingInWindow(sys, actions, i, k);
      var s := Run(sys, before);
      assert PhaseHolds(s.rows, sys.checks[j], s.phases[j]);
      var a :| 0 <= a < |s.rows| && Core(s.rows[a]) == NewKeyRow(sys.checks[j]);
      CoreMatches(sys.checks[i].plan, s.rows[a]);
    }
  }

  lemma NothingInWindow(sys: System, actions: seq<Action>, i: nat, k: nat)
    requires i < |sys.checks| && sys.checks[i].plan.HashPlan? && SelectsAt(sys, actions, i, k)
    ensures var rows := Run(sys, actions[..k]).rows;
      forall a :: 0 <= a < |rows| ==> !Matches(sys.checks[i].plan, rows[a])
  {
    hide Run, InWindow;
    var s, plan := Run(sys, actions[..k]), sys.checks[i].plan;
    SelectWindowIsFirst(s.rows, plan.keyValue, plan.windowStartAt, plan.firstSeenAt);
    LastOf(sys, actions[..k+1]);
    assert actions[..k+1][..k] == actions[..k] && actions[..k+1][k] == actions[k];
  }

  lemma CoreMatches(plan: Plan, r: KeyRow)
    ensures Matches(plan, Core(r)) <==> Matches(plan, r)
  {
    hide LexLe;
  }

  /** Two checks of one hash, each inside the window of the other, both get their row into the table
      only if each one's SELECT comes before the other's INSERT. */
  lemma RaceNeedsOverlap(sys: System, actions: seq<Action>, i: nat, j: nat) returns (si: nat, ii: nat, sj: nat, ij: nat)
    requires Unique(sys.rows) && i < |sys.checks| && j < |sys.checks| && i != j
    requires sys.checks[i].plan.HashPlan? && sys.checks[j].plan.HashPlan?
    requires Matches(sys.checks[i].plan, NewKeyRow(sys.checks[j])) && Matches(sys.checks[j].plan, NewKeyRow(sys.checks[i]))
    requires var p := Run(sys, actions).phases; i < |p| && j < |p| && Wrote(p[i]) && Wrote(p[j])
    ensures SelectsAt(sys, actions, i, si) && InsertsAt(sys, actions, i, ii)
    ensures SelectsAt(sys, actions, j, sj) && InsertsAt(sys, actions, j, ij)
    ensures si < ij && sj < ii
  {
    hide Run, Unique, Matches, SelectsAt, InsertsAt;
    si, ii := WhenInserted(sys, actions, i);
    sj, ij := WhenInserted(sys, actions, j);
    SelectComesFirst(sys, actions, i, si, j, ij);
    SelectComesFirst(sys, actions, j, sj, i, ii);
  }
}
