/** The session log and its replay: `serializePayload`, `writeLogEntry`, `updateStateObject`,
    `replaySessionLog` and `openSession` of backend/src/orchestration/sessionPersistence.ts. The
    log is read back in the order it was written, and nothing is purged. */
module SessionLog {
  import opened Sequences
  import opened Text
  import opened Faults
  import opened Json
  import opened SessionCache

  const CURRENT_SCHEMA_VERSION := 1

  datatype EntryType =
    | SessionOpen | UserMessage | AssistantResponse | FlagRaised | FlagAcknowledged | ApprovalDecision | RouteResult
    | SessionClose | UnknownEntry

  datatype LogRow = LogRow(
    sessionId: Str, userId: Str, entryType: EntryType, payload: Str, schemaVersion: int, timestamp: Str)

  datatype Cause = WriteError | ReadError | ReplayError | InvalidPayload

  datatype Result<+T> = Ok(value: T) | Err(cause: Cause)

  // ---------- one entry ----------

  /** `flag.acknowledged = true` on the first flag with this id, if there is one. */
  function Acknowledge(flags: seq<ActiveFlag>, id: Str): (r: seq<ActiveFlag>)
    ensures |r| == |flags|
  {
    if flags == [] then []
    else if flags[0].flagId == id then [flags[0].(acknowledged := true)] + flags[1..]
    else [flags[0]] + Acknowledge(flags[1..], id)
  }

  predicate IsFirst(flags: seq<ActiveFlag>, id: Str, k: int) {
    0 <= k < |flags| && flags[k].flagId == id && forall j :: 0 <= j < k ==> flags[j].flagId != id
  }

  lemma FirstAfterHead(flags: seq<ActiveFlag>, id: Str, k: nat)
    requires 0 < k < |flags| && flags[0].flagId != id
    ensures IsFirst(flags, id, k) <==> IsFirst(flags[1..], id, k - 1)
  {
    var rest := flags[1..];
    if IsFirst(rest, id, k - 1) {
      forall j | 0 <= j < k ensures flags[j].flagId != id {
        if j > 0 { assert rest[j-1] == flags[j]; }
      }
    }
    if IsFirst(flags, id, k) {
      forall j | 0 <= j < k - 1 ensures rest[j].flagId != id {
        assert rest[j] == flags[j+1];
      }
    }
  }

  /** Exactly the first flag with the id is marked. */
  lemma {:induction false} AcknowledgeAt(flags: seq<ActiveFlag>, id: Str, k: nat)
    requires k < |flags|
    ensures Acknowledge(flags, id)[k] == if IsFirst(flags, id, k) then flags[k].(acknowledged := true) else flags[k]
  {
    if k > 0 && flags[0].flagId != id {
      AcknowledgeAt(flags[1..], id, k - 1);
      FirstAfterHead(flags, id, k);
    }
  }

  lemma AcknowledgeAtAll(flags: seq<ActiveFlag>, k: nat)
    requires k < |flags|
    ensures forall id :: Acknowledge(flags, id)[k] == if IsFirst(flags, id, k) then flags[k].(acknowledged := true) else flags[k]
  {
    hide Acknowledge, IsFirst;
    forall id ensures Acknowledge(flags, id)[k] == if IsFirst(flags, id, k) then flags[k].(acknowledged := true) else flags[k] {
      AcknowledgeAt(flags, id, k);
    }
  }

  /** The record a payload holds. */
  function Payload(row: LogRow): Option<seq<Member>> {
    match Parse(row.payload)
    case None => None
    case Some(v) => ToRecord(v)
  }

  function AddMessage(s: SessionState, role: Role, content: Option<Str>, at: Str): Result<SessionState> {
    match content
    case None => Err(InvalidPayload)
    case Some(c) =>
      Ok(s.(conversationHistory := s.conversationHistory + [Message(role, c, Some(at))], lastInteractionAt := at))
  }

  /** The flag a record describes. */
  function FlagOf(data: seq<Member>, at: Str): Option<ActiveFlag> {
    match (ExtractString(data, Lit("flagId")), ExtractString(data, Lit("type")), ExtractString(data, Lit("content")))
    case (Some(id), Some(t), Some(content)) =>
      if ParseFlagType(t).None? then None else Some(ActiveFlag(id, ParseFlagType(t).value, content, at, false))
    case (_, _, _) => None
  }

  function Apply(s: SessionState, row: LogRow, data: seq<Member>): Result<SessionState> {
    match row.entryType
    case SessionOpen =>
      (match (ExtractString(data, Lit("openedAt")), ExtractString(data, Lit("editionId")))
       case (Some(at), Some(edition)) => Ok(s.(editionId := edition, openedAt := at, lastInteractionAt := at))
       case (_, _) => Err(InvalidPayload))
    case UserMessage => AddMessage(s, User, ExtractString(data, Lit("content")), row.timestamp)
    case AssistantResponse => AddMessage(s, Assistant, ExtractString(data, Lit("content")), row.timestamp)
    case FlagRaised =>
      (match FlagOf(data, row.timestamp)
       case None => Err(InvalidPayload)
       case Some(f) => Ok(s.(activeFlags := s.activeFlags + [f])))
    case FlagAcknowledged =>
      (match ExtractString(data, Lit("flagId"))
       case None => Err(InvalidPayload)
       case Some(id) => Ok(s.(activeFlags := Acknowledge(s.activeFlags, id))))
    case ApprovalDecision => Ok(s.(lastInteractionAt := row.timestamp))
    case RouteResult => Ok(s.(lastInteractionAt := row.timestamp))
    case SessionClose => Ok(s.(lastInteractionAt := row.timestamp))
    case UnknownEntry => Ok(s)
  }

  predicate Recognized(row: LogRow) {
    row.schemaVersion == CURRENT_SCHEMA_VERSION
  }

  /** One round of the replay loop. */
  function Step(s: SessionState, row: LogRow): Result<SessionState> {
    if !Recognized(row) then Ok(s)
    else match Payload(row)
      case None => Err(InvalidPayload)
      case Some(data) => Apply(s, row, data)
  }

  // ---------- the replay ----------

  function Replay(s: SessionState, rows: seq<LogRow>): Result<SessionState> {
    if rows == [] then Ok(s)
    else match Replay(s, rows[..|rows|-1])
      case Err(e) => Err(e)
      case Ok(t) => Step(t, rows[|rows|-1])
  }

  function Empty(sessionId: Str, userId: Str): SessionState {
    SessionState(sessionId, userId, [], [], [], [], [], [], None, true)
  }

  function Rebuild(sessionId: Str, userId: Str, rows: seq<LogRow>): Result<SessionState> {
    if rows == [] then Err(ReplayError) else Replay(Empty(sessionId, userId), rows)
  }

  /** Replaying one log and then another is replaying the two together. */
  lemma {:induction false} ReplayAppend(s: SessionState, a: seq<LogRow>, b: seq<LogRow>)
    ensures Replay(s, a + b) == match Replay(s, a) { case Err(e) => Err(e) case Ok(t) => Replay(t, b) }
    decreases |b|
  {
    hide Step;
    if b == [] {
      assert a + b == a;
    } else {
      var n := |b| - 1;
      ReplayAppend(s, a, b[..n]);
      assert (a + b)[..|a| + n] == a + b[..n];
    }
  }

  /** `replaySessionLog`, given the rows the query returns. */
  method ReplaySessionLog(sessionId: Str, userId: Str, rows: seq<LogRow>, readOk: bool) returns (r: Result<SessionState>)
    ensures r == if readOk then Rebuild(sessionId, userId, rows) else Err(ReadError)
  {
    hide Step;
    if !readOk {
      return Err(ReadError);
    }
    if |rows| == 0 {
      return Err(ReplayError);
    }
    var state := Empty(sessionId, userId);
    for i := 0 to |rows|
      invariant Replay(Empty(sessionId, userId), rows[..i]) == Ok(state)
    {
      assert rows[..i+1][..i] == rows[..i];
      match Step(state, rows[i])
      case Err(e) =>
        ReplayAppend(Empty(sessionId, userId), rows[..i+1], rows[i+1..]);
        assert rows[..i+1] + rows[i+1..] == rows;
        return Err(e);
      case Ok(t) =>
        state := t;
    }
    assert rows[..|rows|] == rows;
    r := Ok(state);
  }

  // ---------- what a replay holds ----------

  /** The message an entry records. */
  function MessageOf(row: LogRow): seq<Message> {
    if !Recognized(row) || Payload(row).None? then []
    else
      var content := ExtractString(Payload(row).value, Lit("content"));
      if content.None? then []
      else if row.entryType == UserMessage then [Message(User, content.value, Some(row.timestamp))]
      else if row.entryType == AssistantResponse then [Message(Assistant, content.value, Some(row.timestamp))]
      else []
  }

  function Messages(rows: seq<LogRow>): seq<Message> {
    if rows == [] then [] else Messages(rows[..|rows|-1]) + MessageOf(rows[|rows|-1])
  }

  /** The flag an entry raises. */
  function Raise(row: LogRow): Option<ActiveFlag> {
    if Recognized(row) && row.entryType == FlagRaised && Payload(row).Some? then FlagOf(Payload(row).value, row.timestamp)
    else None
  }

  /** Whether an entry acknowledges a flag id. */
  predicate Acks(row: LogRow, id: Str) {
    Recognized(row) && row.entryType == FlagAcknowledged && Payload(row).Some?
    && ExtractString(Payload(row).value, Lit("flagId")) == Some(id)
  }

  lemma StepEffects(s: SessionState, row: LogRow)
    requires Step(s, row).Ok?
    ensures var t := Step(s, row).value;
      && t.conversationHistory == s.conversationHistory + MessageOf(row)
      && (Raise(row).Some? ==> t.activeFlags == s.activeFlags + [Raise(row).value])
      && (Raise(row).None? && Recognized(row) && row.entryType == FlagAcknowledged ==>
            exists id :: Acks(row, id) && t.activeFlags == Acknowledge(s.activeFlags, id))
      && (Raise(row).None? && !(Recognized(row) && row.entryType == FlagAcknowledged) ==> t.activeFlags == s.activeFlags)
      && (row.entryType != SessionOpen ==> t.openedAt == s.openedAt && t.editionId == s.editionId)
      && t.openItems == s.openItems && t.consistContext == s.consistContext && t.isFromLogReplay == s.isFromLogReplay
      && t.sessionId == s.sessionId && t.userId == s.userId
  {
    hide Parse, Get, Lit, ParseFlagType;
    if Recognized(row) && row.entryType == FlagAcknowledged {
      assert Acks(row, ExtractString(Payload(row).value, Lit("flagId")).value);
    }
  }

  /** The history is the messages of the log, in order. */
  lemma {:induction false} HistoryIsTheMessages(s: SessionState, rows: seq<LogRow>)
    requires Replay(s, rows).Ok?
    ensures Replay(s, rows).value.conversationHistory == s.conversationHistory + Messages(rows)
  {
    hide Step, MessageOf, Acknowledge;
    if rows != [] {
      var rest, row := rows[..|rows|-1], rows[|rows|-1];
      HistoryIsTheMessages(s, rest);
      StepEffects(Replay(s, rest).value, row);
      Associate(s.conversationHistory, Messages(rest), MessageOf(row));
    }
  }

  /** How many flags a log raises. */
  function Raised(rows: seq<LogRow>): nat {
    if rows == [] then 0
    else Raised(rows[..|rows|-1]) + if Raise(rows[|rows|-1]).Some? then 1 else 0
  }

  lemma {:induction false} RaisedGrows(rows: seq<LogRow>, p: nat)
    requires p <= |rows|
    ensures Raised(rows[..p]) <= Raised(rows)
    ensures p < |rows| && Raise(rows[p]).Some? ==> Raised(rows[..p]) < Raised(rows)
  {
    hide Raise;
    if p == |rows| {
      assert rows[..p] == rows;
    } else {
      var rest := rows[..|rows|-1];
      assert rest[..p] == rows[..p];
      RaisedGrows(rest, p);
    }
  }

  /** The p-th entry raises the first flag with its id. */
  predicate FirstRaised(rows: seq<LogRow>, p: nat)
    requires p < |rows| && Raise(rows[p]).Some?
  {
    forall o :: 0 <= o < p && Raise(rows[o]).Some? ==> Raise(rows[o]).value.flagId != Raise(rows[p]).value.flagId
  }

  predicate AckedAfter(rows: seq<LogRow>, p: nat, id: Str) {
    exists q :: p < q < |rows| && Acks(rows[q], id)
  }

  /** The flag of the p-th entry of a replayed log, before any acknowledgement. */
  lemma {:induction false} FlagInPlace(s: SessionState, rows: seq<LogRow>, p: nat)
    requires s.activeFlags == [] && Replay(s, rows).Ok? && p < |rows| && Raise(rows[p]).Some?
    ensures var flags, k := Replay(s, rows).value.activeFlags, Raised(rows[..p]);
      k < |flags| && flags[k].(acknowledged := false) == Raise(rows[p]).value
    ensures |Replay(s, rows).value.activeFlags| == Raised(rows)
  {
    hide Step, Raise, Acks, MessageOf;
    var rest, row := rows[..|rows|-1], rows[|rows|-1];
    FlagCount(s, rest);
    FlagCount(s, rows);
    StepEffects(Replay(s, rest).value, row);
    assert rest[..p] == rows[..p];
    if p < |rest| {
      FlagInPlace(s, rest, p);
      AcknowledgeAtAll(Replay(s, rest).value.activeFlags, Raised(rows[..p]));
    } else {
      assert rows[..p] == rest;
      RaiseIsNew(row);
    }
  }

  lemma RaiseIsNew(row: LogRow)
    requires Raise(row).Some?
    ensures !Raise(row).value.acknowledged && row.entryType == FlagRaised && Recognized(row)
  {
    hide Parse, Get, Lit, ParseFlagType;
  }

  lemma {:induction false} FlagCount(s: SessionState, rows: seq<LogRow>)
    requires s.activeFlags == [] && Replay(s, rows).Ok?
    ensures |Replay(s, rows).value.activeFlags| == Raised(rows)
  {
    hide Step, Raise, Acks, MessageOf;
    if rows != [] {
      FlagCount(s, rows[..|rows|-1]);
      StepEffects(Replay(s, rows[..|rows|-1]).value, rows[|rows|-1]);
    }
  }

  /** Each flag of a replayed log comes from an entry that raises it. */
  lemma {:induction false} FlagHasEntry(s: SessionState, rows: seq<LogRow>, k: nat) returns (o: nat)
    requires s.activeFlags == [] && Replay(s, rows).Ok? && k < Raised(rows)
    ensures o < |rows| && Raise(rows[o]).Some? && Raised(rows[..o]) == k
  {
    hide Step, Raise;
    var rest := rows[..|rows|-1];
    if k < Raised(rest) {
      o := FlagHasEntry(s, rest, k);
      assert rest[..o] == rows[..o];
    } else {
      o := |rest|;
      assert rows[..o] == rest;
    }
  }

  /** A flag earlier in the list comes from an earlier entry. */
  lemma EarlierRaise(rows: seq<LogRow>, p: nat, o: nat)
    requires p < |rows| && o < |rows| && Raise(rows[p]).Some? && Raised(rows[..o]) < Raised(rows[..p])
    ensures o < p
  {
    hide Raise, Raised;
    if p <= o {
      assert rows[..o][..p] == rows[..p];
      RaisedGrows(rows[..o], p);
    }
  }

  /** The flag of the p-th entry is the first of its id in the list exactly when the entry is the
      first to raise the id. */
  lemma FirstInList(s: SessionState, rows: seq<LogRow>, p: nat)
    requires s.activeFlags == [] && Replay(s, rows).Ok? && p < |rows| && Raise(rows[p]).Some?
    ensures IsFirst(Replay(s, rows).value.activeFlags, Raise(rows[p]).value.flagId, Raised(rows[..p])) <==> FirstRaised(rows, p)
  {
    hide Step, Raise, Replay, Raised;
    var flags, id, k := Replay(s, rows).value.activeFlags, Raise(rows[p]).value.flagId, Raised(rows[..p]);
    FlagInPlace(s, rows, p);
    assert flags[k].flagId == id;
    if FirstRaised(rows, p) {
      forall j | 0 <= j < k ensures flags[j].flagId != id {
        var o := FlagHasEntry(s, rows, j);
        FlagInPlace(s, rows, o);
        EarlierRaise(rows, p, o);
        assert flags[j].(acknowledged := false).flagId == flags[j].flagId;
      }
    }
    if IsFirst(flags, id, k) {
      forall o | 0 <= o < p && Raise(rows[o]).Some? ensures Raise(rows[o]).value.flagId != id {
        FlagInPlace(s, rows, o);
        RaisedGrows(rows[..p], o);
        assert rows[..p][..o] == rows[..o] && rows[..p][o] == rows[o];
        assert flags[Raised(rows[..o])].(acknowledged := false).flagId == flags[Raised(rows[..o])].flagId;
      }
    }
  }

  lemma {:induction false} MarkedIff(s: SessionState, rows: seq<LogRow>, p: nat)
    requires s.activeFlags == [] && Replay(s, rows).Ok? && p < |rows| && Raise(rows[p]).Some?
    ensures var flags, f, k := Replay(s, rows).value.activeFlags, Raise(rows[p]).value, Raised(rows[..p]);
      && k < |flags| && flags[k].(acknowledged := false) == f
      && (flags[k].acknowledged <==> FirstRaised(rows, p) && AckedAfter(rows, p, f.flagId))
  {
    hide Step, Raise, Acks, MessageOf, Raised, Acknowledge;
    FlagInPlace(s, rows, p);
    var rest, row, id := rows[..|rows|-1], rows[|rows|-1], Raise(rows[p]).value.flagId;
    StepEffects(Replay(s, rest).value, row);
    assert rest[..p] == rows[..p];
    if p < |rest| {
      MarkedIff(s, rest, p);
      FirstInList(s, rest, p);
      assert FirstRaised(rest, p) <==> FirstRaised(rows, p);
      AckedStep(rows, p, id);
      AcksOnlyOne(row);
      AcknowledgeAtAll(Replay(s, rest).value.activeFlags, Raised(rows[..p]));
    } else {
      RaiseIsNew(row);
      FlagCount(s, rest);
      assert rows[..p] == rest;
    }
  }

  lemma AckedStep(rows: seq<LogRow>, p: nat, id: Str)
    requires p < |rows| - 1
    ensures AckedAfter(rows, p, id) <==> AckedAfter(rows[..|rows|-1], p, id) || Acks(rows[|rows|-1], id)
  {
    hide Acks;
    var rest := rows[..|rows|-1];
    if AckedAfter(rest, p, id) {
      var q :| p < q < |rest| && Acks(rest[q], id);
      assert Acks(rows[q], id);
    }
    if AckedAfter(rows, p, id) {
      var q :| p < q < |rows| && Acks(rows[q], id);
      if q < |rest| { assert Acks(rest[q], id); }
    }
  }

  lemma AcksOnlyOne(row: LogRow)
    ensures forall id, other :: Acks(row, id) && Acks(row, other) ==> id == other
    ensures forall id :: Acks(row, id) ==> Recognized(row) && row.entryType == FlagAcknowledged && Raise(row).None?
  {
    hide Parse, Get, Lit, ParseFlagType;
  }

  // ---------- flags, by what the payloads say ----------

  /** The payload of an entry has this string under this name. */
  predicate Says(row: LogRow, name: Str, value: Str) {
    Payload(row).Some? && Get(Payload(row).value, name) == Some(String(value))
  }

  predicate Raises(row: LogRow) {
    row.schemaVersion == 1 && row.entryType == FlagRaised
  }

  predicate Acknowledges(row: LogRow, id: Str) {
    row.schemaVersion == 1 && row.entryType == FlagAcknowledged && Says(row, Lit("flagId"), id)
  }

  /** A flag is what the payload of the entry says, raised when the entry was written. */
  predicate Describes(row: LogRow, f: ActiveFlag) {
    && Says(row, Lit("flagId"), f.flagId) && Says(row, Lit("content"), f.content) && f.raisedAt == row.timestamp
    && (match f.flagType
        case SafetyFlag => Says(row, Lit("type"), Lit("safety"))
        case PushFlag => Says(row, Lit("type"), Lit("push"))
        case PullFlag => Says(row, Lit("type"), Lit("pull"))
        case AuditFlag => Says(row, Lit("type"), Lit("audit")))
  }

  lemma RaiseIsAsSaid(row: LogRow)
    ensures Raise(row).Some? ==>
      var f := Raise(row).value;
      Raises(row) && Describes(row, f) && Says(row, Lit("flagId"), f.flagId) && !f.acknowledged
  {
    hide Parse, Get, Lit;
  }

  /** An accepted entry that raises a flag appends the flag its payload describes, not yet
      acknowledged, and changes nothing else. */
  lemma FlagIsAsSaid(s: SessionState, row: LogRow)
    requires Raises(row) && Step(s, row).Ok?
    ensures var t := Step(s, row).value;
      && |t.activeFlags| == |s.activeFlags| + 1 && t == s.(activeFlags := s.activeFlags + [t.activeFlags[|s.activeFlags|]])
      && var f := t.activeFlags[|s.activeFlags|];
      && Describes(row, f) && !f.acknowledged
  {
    hide Parse, Get, Lit, ParseFlagType, Describes;
    RaiseIsAsSaid(row);
  }

  ghost predicate HasString(row: LogRow, name: Str) {
    exists v :: Says(row, name, v)
  }

  lemma HasStringIff(row: LogRow, name: Str)
    ensures HasString(row, name) <==> Payload(row).Some? && ExtractString(Payload(row).value, name).Some?
  {
    hide Payload, Get;
    if Payload(row).Some? && ExtractString(Payload(row).value, name).Some? {
      assert Says(row, name, ExtractString(Payload(row).value, name).value);
    }
  }

  predicate SaysType(row: LogRow) {
    || Says(row, Lit("type"), Lit("safety")) || Says(row, Lit("type"), Lit("push"))
    || Says(row, Lit("type"), Lit("pull")) || Says(row, Lit("type"), Lit("audit"))
  }

  /** A payload has a string under each name its kind of entry is read by. */
  ghost predicate Readable(row: LogRow) {
    match row.entryType
    case SessionOpen => HasString(row, Lit("openedAt")) && HasString(row, Lit("editionId"))
    case UserMessage => HasString(row, Lit("content"))
    case AssistantResponse => HasString(row, Lit("content"))
    case FlagRaised => HasString(row, Lit("flagId")) && HasString(row, Lit("content")) && SaysType(row)
    case FlagAcknowledged => HasString(row, Lit("flagId"))
    case _ => true
  }

  /** Entries of another schema version are passed over. One of this version is accepted exactly if
      its payload is a readable object. */
  lemma AcceptedIff(s: SessionState, row: LogRow)
    ensures row.schemaVersion != 1 ==> Step(s, row) == Ok(s)
    ensures row.schemaVersion == 1 ==> (Step(s, row).Ok? <==> Payload(row).Some? && Readable(row))
  {
    hide Parse, Get, Lit, HasString;
    HasStringIff(row, Lit("openedAt"));
    HasStringIff(row, Lit("editionId"));
    HasStringIff(row, Lit("content"));
    HasStringIff(row, Lit("flagId"));
  }

  /** The content of the payload joins the history as what `role` said when the entry was written. */
  ghost predicate Spoken(s: SessionState, row: LogRow, role: Role, t: SessionState) {
    exists c :: Says(row, Lit("content"), c) && t ==
      s.(conversationHistory := s.conversationHistory + [Message(role, c, Some(row.timestamp))], lastInteractionAt := row.timestamp)
  }

  ghost predicate Flagged(s: SessionState, row: LogRow, t: SessionState) {
    exists f :: Describes(row, f) && !f.acknowledged && t == s.(activeFlags := s.activeFlags + [f])
  }

  ghost predicate Marked(s: SessionState, row: LogRow, t: SessionState) {
    exists id :: Says(row, Lit("flagId"), id) && t == s.(activeFlags := Acknowledge(s.activeFlags, id))
  }

  /** What an accepted entry does, by what its payload says: an opening sets the times and the
      edition, a message joins the history, flags are raised and marked, and the rest only tell the
      time. */
  lemma EntryIsAsSaid(s: SessionState, row: LogRow)
    requires row.schemaVersion == 1 && Step(s, row).Ok?
    ensures var t := Step(s, row).value;
      match row.entryType
      case SessionOpen =>
        && Says(row, Lit("openedAt"), t.openedAt) && Says(row, Lit("editionId"), t.editionId)
        && t == s.(openedAt := t.openedAt, editionId := t.editionId, lastInteractionAt := t.openedAt)
      case UserMessage => Spoken(s, row, User, t)
      case AssistantResponse => Spoken(s, row, Assistant, t)
      case FlagRaised => Flagged(s, row, t)
      case FlagAcknowledged => Marked(s, row, t)
      case UnknownEntry => t == s
      case _ => t == s.(lastInteractionAt := row.timestamp)
  {
    hide Parse, Get, Lit, ParseFlagType, Describes;
    match row.entryType
    case UserMessage => assert Says(row, Lit("content"), ExtractString(Payload(row).value, Lit("content")).value);
    case AssistantResponse => assert Says(row, Lit("content"), ExtractString(Payload(row).value, Lit("content")).value);
    case FlagRaised => FlagIsAsSaid(s, row);
    case FlagAcknowledged => assert Says(row, Lit("flagId"), ExtractString(Payload(row).value, Lit("flagId")).value);
    case _ =>
  }

  /** How many of the entries raise a flag. */
  function Raisings(rows: seq<LogRow>): nat {
    if rows == [] then 0 else Raisings(rows[..|rows|-1]) + if Raises(rows[|rows|-1]) then 1 else 0
  }

  lemma {:induction false} RaisingsAreRaised(s: SessionState, rows: seq<LogRow>)
    requires Replay(s, rows).Ok?
    ensures Raisings(rows) == Raised(rows)
    ensures forall k :: 0 <= k < |rows| ==> (Raises(rows[k]) <==> Raise(rows[k]).Some?)
  {
    hide Step, Raise, Raises;
    if rows != [] {
      RaisingsAreRaised(s, rows[..|rows|-1]);
      RaiseIfAccepted(Replay(s, rows[..|rows|-1]).value, rows[|rows|-1]);
    }
  }

  lemma RaiseIfAccepted(s: SessionState, row: LogRow)
    requires Step(s, row).Ok?
    ensures Raises(row) <==> Raise(row).Some?
  {
    hide Parse, Get, Lit, ParseFlagType;
  }

  lemma {:induction false} PrefixReplays(s: SessionState, rows: seq<LogRow>, p: nat)
    requires Replay(s, rows).Ok? && p <= |rows|
    ensures Replay(s, rows[..p]).Ok?
  {
    hide Step;
    if p < |rows| {
      PrefixReplays(s, rows[..|rows|-1], p);
      assert rows[..|rows|-1][..p] == rows[..p];
    } else {
      assert rows[..p] == rows;
    }
  }

  /** The flag an entry of a replayed log raises stands where the entry stands among the raising
      ones. It ends acknowledged exactly when no entry before raises a flag with the same id and an
      acknowledgement of the id comes after it. */
  lemma AcknowledgedIff(s: SessionState, rows: seq<LogRow>, p: nat, id: Str)
    requires s.activeFlags == [] && Replay(s, rows).Ok?
    requires p < |rows| && Raises(rows[p]) && Says(rows[p], Lit("flagId"), id)
    ensures var flags, k := Replay(s, rows).value.activeFlags, Raisings(rows[..p]);
      && |flags| == Raisings(rows) && k < |flags| && Describes(rows[p], flags[k])
      && (flags[k].acknowledged <==>
            && (forall o :: 0 <= o < p && Raises(rows[o]) ==> !Says(rows[o], Lit("flagId"), id))
            && (exists q :: p < q < |rows| && Acknowledges(rows[q], id)))
  {
    hide Step, Raise, Raises, Payload, Raised, Raisings, Replay, Describes, Lit, Says, Acks;
    RaisingsAreRaised(s, rows);
    PrefixReplays(s, rows, p);
    RaisingsAreRaised(s, rows[..p]);
    FlagCount(s, rows);
    MarkedIff(s, rows, p);
    var f, k := Raise(rows[p]).value, Raised(rows[..p]);
    RaiseIsAsSaid(rows[p]);
    SaysOne(rows[p], f.flagId, id);
    DescribesAlike(rows[p], Replay(s, rows).value.activeFlags[k], f);
    forall o | 0 <= o < p && Raise(rows[o]).Some? ensures Says(rows[o], Lit("flagId"), id) <==> Raise(rows[o]).value.flagId == id {
      RaiseIsAsSaid(rows[o]);
      SaysOne(rows[o], Raise(rows[o]).value.flagId, id);
    }
    forall q | 0 <= q < |rows| ensures Acknowledges(rows[q], id) <==> Acks(rows[q], id) {
      AcksSays(rows[q], id);
    }
  }

  lemma SaysOne(row: LogRow, said: Str, id: Str)
    ensures Says(row, Lit("flagId"), said) ==> (Says(row, Lit("flagId"), id) <==> said == id)
  {
    hide Parse, Get, Lit;
  }

  lemma DescribesAlike(row: LogRow, f: ActiveFlag, g: ActiveFlag)
    requires f.(acknowledged := false) == g
    ensures Describes(row, f) <==> Describes(row, g)
  {
    hide Parse, Get, Lit, Says;
  }

  lemma AcksSays(row: LogRow, id: Str)
    ensures Acknowledges(row, id) <==> Acks(row, id)
  {
    hide Parse, Get, Lit;
  }

  /** The session_open a replay takes its times and edition from. */
  function OpenOf(row: LogRow): Option<(Str, Str)> {
    if !Recognized(row) || row.entryType != SessionOpen || Payload(row).None? then None
    else match (ExtractString(Payload(row).value, Lit("openedAt")), ExtractString(Payload(row).value, Lit("editionId")))
      case (Some(at), Some(edition)) => Some((at, edition))
      case (_, _) => None
  }

  /** An interaction: any recognized entry but an opening and the two kinds about flags. */
  predicate Interacts(row: LogRow) {
    Recognized(row) && row.entryType !in {SessionOpen, FlagRaised, FlagAcknowledged, UnknownEntry}
  }

  lemma TimesOfStep(s: SessionState, row: LogRow)
    requires Step(s, row).Ok?
    ensures var t := Step(s, row).value;
      if OpenOf(row).Some? then (t.openedAt, t.editionId) == OpenOf(row).value && t.lastInteractionAt == t.openedAt
      else (t.openedAt, t.editionId) == (s.openedAt, s.editionId)
           && t.lastInteractionAt == (if Interacts(row) then row.timestamp else s.lastInteractionAt)
  {
    hide Parse, Get, Lit, ParseFlagType;
  }

  /** The opening time and edition of a replayed state are those of the last opening in the log,
      and its last interaction is the later in the log of that opening and the last entry that
      interacts; `p` and `q` are the places of the two, past the end standing for none. */
  lemma {:induction false} TimesOfReplay(s: SessionState, rows: seq<LogRow>) returns (p: nat, q: nat)
    requires Replay(s, rows).Ok?
    ensures p <= |rows| && q <= |rows|
    ensures p < |rows| ==> OpenOf(rows[p]).Some?
    ensures q < |rows| ==> Interacts(rows[q])
    ensures forall k :: 0 <= k < |rows| && OpenOf(rows[k]).Some? ==> k <= p < |rows|
    ensures forall k :: 0 <= k < |rows| && Interacts(rows[k]) ==> k <= q < |rows|
    ensures var t := Replay(s, rows).value;
      && (t.openedAt, t.editionId) == (if p < |rows| then OpenOf(rows[p]).value else (s.openedAt, s.editionId))
      && t.lastInteractionAt ==
         if q < |rows| && (p < q || p == |rows|) then rows[q].timestamp
         else if p < |rows| then OpenOf(rows[p]).value.0
         else s.lastInteractionAt
  {
    hide Step, OpenOf, Recognized, MessageOf;
    if rows == [] {
      p, q := 0, 0;
    } else {
      var n := |rows| - 1;
      p, q := TimesOfReplay(s, rows[..n]);
      TimesOfStep(Replay(s, rows[..n]).value, rows[n]);
      NotBoth(rows[n]);
      p := if OpenOf(rows[n]).Some? then n else if p == n then n + 1 else p;
      q := if Interacts(rows[n]) then n else if q == n then n + 1 else q;
    }
  }

  lemma NotBoth(row: LogRow)
    ensures !(OpenOf(row).Some? && Interacts(row))
  {
    hide Parse, Get, Lit;
  }

  // ---------- the live state, the cache and the log ----------

  lemma MarkerIsInert(s: SessionState, row: LogRow, m: bool)
    ensures Step(s.(isFromLogReplay := m), row)
      == match Step(s, row) { case Err(e) => Err(e) case Ok(t) => Ok(t.(isFromLogReplay := m)) }
  {
    hide Parse, Get, Lit, ParseFlagType;
  }

  lemma {:induction false} MarkerStays(s: SessionState, rows: seq<LogRow>, m: bool)
    ensures Replay(s.(isFromLogReplay := m), rows)
      == match Replay(s, rows) { case Err(e) => Err(e) case Ok(t) => Ok(t.(isFromLogReplay := m)) }
  {
    hide Step;
    if rows != [] {
      MarkerStays(s, rows[..|rows|-1], m);
      if Replay(s, rows[..|rows|-1]).Ok? { MarkerIsInert(Replay(s, rows[..|rows|-1]).value, rows[|rows|-1], m); }
    }
  }

  /** A live state kept up to date entry by entry, saved and loaded again, is the state a replay
      of the whole log rebuilds, the replay marker apart. */
  lemma CacheAgreesWithLog(sessionId: Str, userId: Str, a: seq<LogRow>, b: seq<LogRow>, live: SessionState)
    requires Replay(Empty(sessionId, userId), a).Ok? && Replay(live, b).Ok?
    requires live.(isFromLogReplay := true) == Replay(Empty(sessionId, userId), a).value
    ensures var saved := Replay(live, b).value;
      && ParseCachedState(Serialize(saved)) == Some(saved)
      && Replay(Empty(sessionId, userId), a + b) == Ok(saved.(isFromLogReplay := true))
  {
    hide Replay, Serialize, ParseCachedState;
    ReplayAppend(Empty(sessionId, userId), a, b);
    MarkerStays(live, b, true);
    CacheRoundTrip(Replay(live, b).value);
  }

  // ---------- writing ----------

  /** The fields each entry type must carry. */
  function Required(t: EntryType): seq<Str> {
    match t
    case SessionOpen => [Lit("sessionId"), Lit("userId"), Lit("editionId"), Lit("openedAt")]
    case UserMessage => [Lit("content"), Lit("channel")]
    case AssistantResponse => [Lit("content"), Lit("inputTokens"), Lit("outputTokens"), Lit("model")]
    case FlagRaised => [Lit("flagId"), Lit("type"), Lit("content")]
    case FlagAcknowledged => [Lit("flagId")]
    case ApprovalDecision => [Lit("requestId"), Lit("decision")]
    case RouteResult => [Lit("channel"), Lit("success"), Lit("segmentCount")]
    case SessionClose => [Lit("closedAt"), Lit("turnCount")]
    case UnknownEntry => []
  }

  predicate Complete(t: EntryType, data: seq<Member>) {
    forall i :: 0 <= i < |Required(t)| ==> Get(data, Required(t)[i]).Some?
  }

  /** The text `serializePayload` makes of a record. The record is written as it was parsed; a
      repeated name would be written once, which no reader here can tell. */
  function SerializePayload(t: EntryType, data: seq<Member>): Option<Str> {
    if Complete(t, data) then Some(Print(Object(data))) else None
  }

  datatype Entry = Entry(sessionId: Str, userId: Str, entryType: EntryType, payload: Str, timestamp: Str, fault: Fault)

  /** `writeLogEntry`: the log afterwards, and what went wrong. */
  function WriteLogEntry(log: seq<LogRow>, e: Entry): (seq<LogRow>, Option<Cause>) {
    match Parse(e.payload)
    case None => (log, Some(InvalidPayload))
    case Some(v) =>
      match ToRecord(v)
      case None => (log, Some(InvalidPayload))
      case Some(data) =>
        match SerializePayload(e.entryType, data)
        case None => (log, Some(InvalidPayload))
        case Some(text) =>
          (if e.fault == FailsBefore then log
           else log + [LogRow(e.sessionId, e.userId, e.entryType, text, CURRENT_SCHEMA_VERSION, e.timestamp)],
           if e.fault == Works then None else Some(WriteError))
  }

  datatype Db = Db(log: seq<LogRow>, cache: map<Str, Str>)

  /** The rows of a session. */
  function RowsOf(log: seq<LogRow>, sessionId: Str): seq<LogRow> {
    if log == [] then []
    else RowsOf(log[..|log|-1], sessionId) + if log[|log|-1].sessionId == sessionId then [log[|log|-1]] else []
  }

  datatype Opening = Opening(
    sessionId: Str, userId: Str, editionId: Str, now: Str, timestamp: Str, cacheReadOk: bool, logReadOk: bool, onWrite: Fault)

  function Fresh(o: Opening): SessionState {
    SessionState(o.sessionId, o.userId, o.editionId, o.now, o.now, [], [], [], None, false)
  }

  /** The state an opening finds: from the cache, else from the log, else a fresh one. */
  function Load(db: Db, o: Opening): Result<SessionState> {
    if o.cacheReadOk && o.sessionId in db.cache && ParseCachedState(db.cache[o.sessionId]).Some? then
      Ok(ParseCachedState(db.cache[o.sessionId]).value.(isFromLogReplay := false))
    else if !o.logReadOk then Err(ReadError)
    else match Rebuild(o.sessionId, o.userId, RowsOf(db.log, o.sessionId))
      case Ok(s) => Ok(s)
      case Err(ReplayError) => Ok(Fresh(o))
      case Err(e) => Err(e)
  }

  function OpenMembers(o: Opening, openedAt: Str): seq<Member> {
    [Member(Lit("sessionId"), String(o.sessionId)), Member(Lit("userId"), String(o.userId)),
     Member(Lit("editionId"), String(o.editionId)), Member(Lit("openedAt"), String(openedAt))]
  }

  function OpenEntry(o: Opening, openedAt: Str): Entry {
    Entry(o.sessionId, o.userId, SessionOpen, Print(Object(OpenMembers(o, openedAt))), o.timestamp, o.onWrite)
  }

  /** `openSession`. */
  function OpenSession(db: Db, o: Opening): (Db, Result<SessionState>) {
    match Load(db, o)
    case Err(e) => (db, Err(e))
    case Ok(s) =>
      var (log, e) := WriteLogEntry(db.log, OpenEntry(o, s.openedAt));
      (db.(log := log), if e.Some? then Err(e.value) else Ok(s))
  }

  class SessionDb {
    var log: seq<LogRow>
    var cache: map<Str, Str>

    function Contents(): Db
      reads this
    {
      Db(log, cache)
    }

    constructor ()
      ensures log == [] && cache == map[]
    {
      log, cache := [], map[];
    }

    method AppendEntry(e: Entry) returns (error: Option<Cause>)
      modifies this`log
      ensures (log, error) == WriteLogEntry(old(log), e)
    {
      hide Parse, Print, Complete;
      var parsed := Parse(e.payload);
      if parsed.None? || !parsed.value.Object? || !Complete(e.entryType, parsed.value.members) {
        return Some(InvalidPayload);
      }
      if e.fault == FailsBefore {
        return Some(WriteError);
      }
      log := log + [LogRow(e.sessionId, e.userId, e.entryType, Print(parsed.value), CURRENT_SCHEMA_VERSION, e.timestamp)];
      error := if e.fault == Works then None else Some(WriteError);
    }

    method UpdateStateObject(state: SessionState, fault: Fault) returns (error: Option<Cause>)
      modifies this`cache
      ensures cache == if fault == FailsBefore then old(cache) else old(cache)[state.sessionId := Serialize(state)]
      ensures error == if fault == Works then None else Some(WriteError)
    {
      if fault == FailsBefore {
        return Some(WriteError);
      }
      cache := cache[state.sessionId := Serialize(state)];
      error := if fault == Works then None else Some(WriteError);
    }

    method Open(o: Opening) returns (r: Result<SessionState>)
      modifies this`log
      ensures (Contents(), r) == OpenSession(old(Contents()), o)
    {
      hide WriteLogEntry, ParseCachedState, RowsOf, OpenEntry, Rebuild;
      var state: Option<SessionState> := None;
      if o.cacheReadOk && o.sessionId in cache {
        var cached := ParseCachedState(cache[o.sessionId]);
        if cached.Some? {
          state := Some(cached.value.(isFromLogReplay := false));
        }
      }
      if state.None? {
        var replayed := ReplaySessionLog(o.sessionId, o.userId, RowsOf(log, o.sessionId), o.logReadOk);
        match replayed {
          case Ok(s) => state := Some(s);
          case Err(e) =>
            if e != ReplayError {
              return Err(e);
            }
            state := Some(Fresh(o));
        }
      }
      var writeErr := AppendEntry(OpenEntry(o, state.value.openedAt));
      r := if writeErr.Some? then Err(writeErr.value) else Ok(state.value);
    }
  }

  // ---------- what is written ----------

  predicate Named(data: seq<Member>, name: string) {
    Get(data, Lit(name)).Some?
  }

  /** A record has everything an entry of this kind must carry. */
  predicate Carries(t: EntryType, data: seq<Member>) {
    match t
    case SessionOpen => Named(data, "sessionId") && Named(data, "userId") && Named(data, "editionId") && Named(data, "openedAt")
    case UserMessage => Named(data, "content") && Named(data, "channel")
    case AssistantResponse =>
      Named(data, "content") && Named(data, "inputTokens") && Named(data, "outputTokens") && Named(data, "model")
    case FlagRaised => Named(data, "flagId") && Named(data, "type") && Named(data, "content")
    case FlagAcknowledged => Named(data, "flagId")
    case ApprovalDecision => Named(data, "requestId") && Named(data, "decision")
    case RouteResult => Named(data, "channel") && Named(data, "success") && Named(data, "segmentCount")
    case SessionClose => Named(data, "closedAt") && Named(data, "turnCount")
    case UnknownEntry => true
  }

  lemma CompleteIff(t: EntryType, data: seq<Member>)
    ensures Complete(t, data) <==> Carries(t, data)
  {
    hide Get, Lit;
    var r := Required(t);
    assert |r| > 0 ==> (Complete(t, data) ==> Get(data, r[0]).Some?);
    assert |r| > 1 ==> (Complete(t, data) ==> Get(data, r[1]).Some?);
    assert |r| > 2 ==> (Complete(t, data) ==> Get(data, r[2]).Some?);
    assert |r| > 3 ==> (Complete(t, data) ==> Get(data, r[3]).Some?);
  }

  predicate Acceptable(e: Entry) {
    Parse(e.payload).Some? && Parse(e.payload).value.Object? && Carries(e.entryType, Parse(e.payload).value.members)
  }

  predicate IsRowOf(row: LogRow, e: Entry)
    requires Acceptable(e)
  {
    && (row.sessionId, row.userId, row.entryType, row.timestamp) == (e.sessionId, e.userId, e.entryType, e.timestamp)
    && row.schemaVersion == 1 && Payload(row) == Some(Parse(e.payload).value.members)
  }

  /** An entry is written exactly if its payload is an object that carries what its kind must and
      the write takes effect; the row has the payload it was given. */
  lemma WrittenIff(log: seq<LogRow>, e: Entry)
    ensures var (after, error) := WriteLogEntry(log, e);
      && (after != log <==> e.fault != FailsBefore && Acceptable(e))
      && error == (if !Acceptable(e) then Some(InvalidPayload) else if e.fault == Works then None else Some(WriteError))
      && (after != log ==> |after| == |log| + 1 && after[..|log|] == log && IsRowOf(after[|log|], e))
  {
    hide Parse, Print, Complete, Carries;
    if Parse(e.payload).Some? && Parse(e.payload).value.Object? {
      var data := Parse(e.payload).value.members;
      CompleteIff(e.entryType, data);
      ParseOfPrint(Object(data));
    }
  }

  /** The names the replay reads as strings. */
  predicate ReadAsString(name: Str) {
    name == Lit("openedAt") || name == Lit("editionId") || name == Lit("content") || name == Lit("flagId")
  }

  /** A written entry is refused by a replay only for the type of what it carries: if what stands
      under the names the replay reads are strings, and the type of a flag one of the four, it is
      accepted. */
  lemma WrittenEntriesReplay(log: seq<LogRow>, e: Entry, s: SessionState)
    requires Acceptable(e) && WriteLogEntry(log, e).0 != log
    requires forall name | ReadAsString(name) ::
      var v := Get(Parse(e.payload).value.members, name); v.Some? ==> v.value.String?
    requires e.entryType == FlagRaised ==>
      exists f :: Get(Parse(e.payload).value.members, Lit("type")) == Some(String(FlagTypeName(f)))
    ensures |WriteLogEntry(log, e).0| == |log| + 1 && Step(s, WriteLogEntry(log, e).0[|log|]).Ok?
  {
    hide Parse, Print, Get, Lit, WriteLogEntry, ParseFlagType, FlagTypeName;
    WrittenIff(log, e);
    if e.entryType == FlagRaised {
      var f :| Get(Parse(e.payload).value.members, Lit("type")) == Some(String(FlagTypeName(f)));
      FlagTypeIsRead(f);
    }
    var data := Parse(e.payload).value.members;
    assert ReadAsString(Lit("openedAt")) && ReadAsString(Lit("editionId")) && ReadAsString(Lit("content")) && ReadAsString(Lit("flagId"));
  }

  /** Where an opening takes its state from. A saved state wins, whatever the log says and even if
      it cannot be read; without one the log is replayed; without either the session is new, and
      begins now. A cached text that is no state counts for nothing. */
  lemma LoadsFrom(db: Db, o: Opening, saved: SessionState)
    ensures o.cacheReadOk && o.sessionId in db.cache && db.cache[o.sessionId] == Serialize(saved) ==>
      Load(db, o) == Ok(saved.(isFromLogReplay := false))
    ensures !o.cacheReadOk || o.sessionId !in db.cache || ParseCachedState(db.cache[o.sessionId]).None? ==>
      var rows := RowsOf(db.log, o.sessionId);
      && (!o.logReadOk ==> Load(db, o) == Err(ReadError))
      && (o.logReadOk && rows == [] ==>
            Load(db, o) == Ok(SessionState(o.sessionId, o.userId, o.editionId, o.now, o.now, [], [], [], None, false)))
      && (o.logReadOk && rows != [] ==>
            Load(db, o) == Replay(SessionState(o.sessionId, o.userId, [], [], [], [], [], [], None, true), rows))
  {
    hide Serialize, ParseCachedState, RowsOf, Replay;
    CacheRoundTrip(saved);
    ReplayErrors(Empty(o.sessionId, o.userId), RowsOf(db.log, o.sessionId));
  }

  /** An opening that loads a state returns it and logs it, unless the write fails; one that does not
      leaves the log alone. */
  lemma OpensWith(db: Db, o: Opening)
    ensures Load(db, o).Err? ==> OpenSession(db, o) == (db, Load(db, o))
    ensures OpenSession(db, o).0.cache == db.cache
    ensures Load(db, o).Ok? ==> OpenSession(db, o).1 == if o.onWrite == Works then Load(db, o) else Err(WriteError)
    ensures Load(db, o).Ok? && o.onWrite == FailsBefore ==> OpenSession(db, o).0 == db
    ensures Load(db, o).Ok? && o.onWrite != FailsBefore ==>
      var log, n := OpenSession(db, o).0.log, |db.log|;
      |log| == n + 1 && log[..n] == db.log && IsOpening(log[n], o, Load(db, o).value.openedAt)
  {
    hide Load, WriteLogEntry, OpenEntry, IsOpening;
    if Load(db, o).Ok? {
      var at := Load(db, o).value.openedAt;
      OpeningIsWritten(db.log, o, at);
    }
  }

  /** The row of an opening: whose session it is, and when it was first opened. */
  predicate IsOpening(row: LogRow, o: Opening, openedAt: Str) {
    && (row.sessionId, row.userId, row.entryType, row.timestamp) == (o.sessionId, o.userId, SessionOpen, o.timestamp)
    && row.schemaVersion == 1
    && Says(row, Lit("sessionId"), o.sessionId) && Says(row, Lit("userId"), o.userId)
    && Says(row, Lit("editionId"), o.editionId) && Says(row, Lit("openedAt"), openedAt)
  }

  lemma OpeningIsWritten(log: seq<LogRow>, o: Opening, openedAt: Str)
    ensures var (after, error) := WriteLogEntry(log, OpenEntry(o, openedAt));
      && (error == if o.onWrite == Works then None else Some(WriteError))
      && (o.onWrite == FailsBefore ==> after == log)
      && (o.onWrite != FailsBefore ==> |after| == |log| + 1 && after[..|log|] == log && IsOpening(after[|log|], o, openedAt))
  {
    hide Parse, Print, Get, Lit;
    var r := OpenMembers(o, openedAt);
    ParseOfPrint(Object(r));
    OpenKeysDiffer(o, openedAt);
    GetAt(r, 0);
    GetAt(r, 1);
    GetAt(r, 2);
    GetAt(r, 3);
  }

  // ---------- reopening ----------

  /** The entry an opening writes is always accepted and replays. */
  lemma OpenEntryReplays(log: seq<LogRow>, o: Opening, openedAt: Str, s: SessionState)
    requires o.onWrite != FailsBefore
    ensures var (after, e) := WriteLogEntry(log, OpenEntry(o, openedAt));
      && (e == None <==> o.onWrite == Works) && |after| == |log| + 1 && after[..|log|] == log && after[|log|].sessionId == o.sessionId
      && Step(s, after[|log|]) == Ok(s.(editionId := o.editionId, openedAt := openedAt, lastInteractionAt := openedAt))
  {
    hide Parse, Print, Get, Lit;
    var r := OpenMembers(o, openedAt);
    ParseOfPrint(Object(r));
    OpenKeysDiffer(o, openedAt);
    GetAt(r, 0);
    GetAt(r, 1);
    GetAt(r, 2);
    GetAt(r, 3);
  }

  lemma OpenKeysDiffer(o: Opening, openedAt: Str)
    ensures DistinctKeys(OpenMembers(o, openedAt))
  {
    assert Lit("sessionId")[0] == 115 && Lit("editionId")[0] == 101;
  }

  lemma RowsOfAppend(log: seq<LogRow>, row: LogRow, sessionId: Str)
    ensures RowsOf(log + [row], sessionId) == RowsOf(log, sessionId) + if row.sessionId == sessionId then [row] else []
  {
    assert (log + [row])[..|log|] == log;
  }

  lemma ReplayOne(s: SessionState, rows: seq<LogRow>, row: LogRow)
    ensures Replay(s, rows + [row]) == match Replay(s, rows) { case Err(e) => Err(e) case Ok(t) => Step(t, row) }
  {
    hide Step;
    assert (rows + [row])[..|rows|] == rows;
  }

  datatype Op = Reopen(o: Opening) | Write(e: Entry) | Save(state: SessionState, fault: Fault)

  function Do(db: Db, op: Op): Db {
    match op
    case Reopen(o) => OpenSession(db, o).0
    case Write(e) => db.(log := WriteLogEntry(db.log, e).0)
    case Save(s, fault) => if fault == FailsBefore then db else db.(cache := db.cache[s.sessionId := Serialize(s)])
  }

  function DoAll(db: Db, ops: seq<Op>): Db {
    if ops == [] then db else Do(DoAll(db, ops[..|ops|-1]), ops[|ops|-1])
  }

  /** Reopening rewinds the last interaction: after a session is opened again, a replay gives the
      state it gave before with the last interaction set back to the first opening (and the
      edition of the reopening). It is the state before exactly when nothing had happened since. */
  lemma ReopeningRewinds(db: Db, o: Opening, t: SessionState)
    requires o.onWrite != FailsBefore && Replay(Empty(o.sessionId, o.userId), RowsOf(db.log, o.sessionId)) == Ok(t)
    requires Load(db, o).Ok? && Load(db, o).value.openedAt == t.openedAt
    ensures var u := Replay(Empty(o.sessionId, o.userId), RowsOf(OpenSession(db, o).0.log, o.sessionId));
      && u == Ok(t.(editionId := o.editionId, lastInteractionAt := t.openedAt))
      && (u == Ok(t) <==> t.editionId == o.editionId && t.lastInteractionAt == t.openedAt)
  {
    hide Step, WriteLogEntry, Load, RowsOf, OpenEntry, Replay;
    OpenEntryReplays(db.log, o, t.openedAt, t);
    var after := OpenSession(db, o).0.log;
    assert after == db.log + [after[|db.log|]];
    RowsOfAppend(db.log, after[|db.log|], o.sessionId);
    ReplayOne(Empty(o.sessionId, o.userId), RowsOf(db.log, o.sessionId), after[|db.log|]);
  }

  function MessageMembers(text: Str, channel: Str): seq<Member> {
    [Member(Lit("content"), String(text)), Member(Lit("channel"), String(channel))]
  }

  /** A user's message as an entry. */
  function MessageEntry(sessionId: Str, userId: Str, text: Str, channel: Str, at: Str): Entry {
    Entry(sessionId, userId, UserMessage, Print(Object(MessageMembers(text, channel))), at, Works)
  }

  lemma MessageEntryReplays(log: seq<LogRow>, e: Entry, text: Str, channel: Str, s: SessionState)
    requires e == MessageEntry(e.sessionId, e.userId, text, channel, e.timestamp)
    ensures var (after, error) := WriteLogEntry(log, e);
      && error == None && |after| == |log| + 1 && after[..|log|] == log && after[|log|].sessionId == e.sessionId
      && Step(s, after[|log|])
         == Ok(s.(conversationHistory := s.conversationHistory + [Message(User, text, Some(e.timestamp))],
                  lastInteractionAt := e.timestamp))
  {
    hide Parse, Print, Get, Lit;
    var r := MessageMembers(text, channel);
    ParseOfPrint(Object(r));
    assert DistinctKeys(r) by { MessageKeysDiffer(text, channel); }
    GetAt(r, 0);
    GetAt(r, 1);
  }

  lemma MessageKeysDiffer(text: Str, channel: Str)
    ensures DistinctKeys(MessageMembers(text, channel))
  {
    assert Lit("content")[1] == 111 && Lit("channel")[1] == 104;
  }

  /** What a replay of a session's log gives. */
  function Replayed(db: Db, o: Opening): Result<SessionState> {
    Replay(Empty(o.sessionId, o.userId), RowsOf(db.log, o.sessionId))
  }

  /** A session opened, spoken in once and opened again, everything working: until the second
      opening a replay knows when the message came, and after it the last interaction is the first
      opening, though the message is still in the history. */
  lemma ReopeningForgets(first: Opening, text: Str, channel: Str, at: Str, again: Opening)
    requires first.logReadOk && first.onWrite == Works && again.logReadOk && again.onWrite == Works
    requires again.sessionId == first.sessionId && again.userId == first.userId
    ensures var spoken := DoAll(Db([], map[]), [Reopen(first), Write(MessageEntry(first.sessionId, first.userId, text, channel, at))]);
      && Replayed(spoken, first).Ok? && Replayed(spoken, first).value.lastInteractionAt == at
      && var r := Replayed(Do(spoken, Reopen(again)), first);
      && r.Ok? && r.value.lastInteractionAt == first.now
      && r.value.conversationHistory == [Message(User, text, Some(at))]
  {
    hide Step, WriteLogEntry, OpenEntry, Replay, RowsOf, MessageEntry;
    var none, e := Db([], map[]), MessageEntry(first.sessionId, first.userId, text, channel, at);
    var empty := Empty(first.sessionId, first.userId);
    var start, spoken := Do(none, Reopen(first)), Do(Do(none, Reopen(first)), Write(e));
    NoRows(first.sessionId);
    NothingReplayed(empty);
    OpenEntryReplays([], first, first.now, empty);
    var s := empty.(editionId := first.editionId, openedAt := first.now, lastInteractionAt := first.now);
    AppendedRowReplays([], start.log, first, empty, s);
    EntryOfMessage(first, text, channel, at);
    MessageEntryReplays(start.log, e, text, channel, s);
    var t := s.(conversationHistory := s.conversationHistory + [Message(User, text, Some(at))], lastInteractionAt := at);
    AppendedRowReplays(start.log, spoken.log, first, s, t);
    TwoDone(none, Reopen(first), Write(e));
    ReopeningRewinds(spoken, again, t);
  }

  /** Opened at nine, spoken in at five past, opened again at ten past: a replay then puts the last
      interaction at nine, five minutes before the message it holds. */
  lemma MorningForgotten(nine: Str, message: Str, first: Opening, again: Opening)
    requires nine == Lit("2026-01-05T09:00:00.000Z") && message == Lit("2026-01-05T09:05:00.000Z")
    requires first == Opening(Lit("s1"), Lit("u1"), Lit("e1"), nine, nine, true, true, Works)
    requires again == first.(now := Lit("2026-01-05T09:10:00.000Z"), timestamp := Lit("2026-01-05T09:10:00.000Z"))
    ensures var spoken := DoAll(Db([], map[]), [Reopen(first), Write(MessageEntry(first.sessionId, first.userId, Lit("hello"), Lit("sms"), message))]);
      var before, after := Replayed(spoken, first), Replayed(Do(spoken, Reopen(again)), first);
      && before.Ok? && before.value.lastInteractionAt == message
      && after.Ok? && after.value.lastInteractionAt == nine && nine != message && LexLe(nine, message)
      && after.value.conversationHistory == [Message(User, Lit("hello"), Some(message))]
  {
    hide DoAll, Do, Replayed, LexLe;
    ReopeningForgets(first, Lit("hello"), Lit("sms"), message, again);
    LaterMinute(nine, message);
  }

  lemma LaterMinute(nine: Str, message: Str)
    requires nine == Lit("2026-01-05T09:00:00.000Z") && message == Lit("2026-01-05T09:05:00.000Z")
    ensures nine != message && LexLe(nine, message)
  {
    LexLePrefixed(nine[..15], message[..15], nine[15..], message[15..]);
    assert nine[15] == 48 && message[15] == 53;
    assert nine[..15] == message[..15];
    assert nine == nine[..15] + nine[15..] && message == message[..15] + message[15..];
    assert LexLe(nine[15..], message[15..]);
  }

  lemma TwoDone(db: Db, a: Op, b: Op)
    ensures DoAll(db, [a, b]) == Do(Do(db, a), b)
  {
    hide Do;
    assert [a, b][..1] == [a];
    assert DoAll(db, [a]) == Do(DoAll(db, []), a);
  }

  lemma NoRows(sessionId: Str)
    ensures RowsOf([], sessionId) == []
  {
  }

  lemma EntryOfMessage(o: Opening, text: Str, channel: Str, at: Str)
    ensures var e := MessageEntry(o.sessionId, o.userId, text, channel, at);
      e.sessionId == o.sessionId && e.timestamp == at && e == MessageEntry(e.sessionId, e.userId, text, channel, e.timestamp)
  {
  }

  lemma AppendedRowReplays(log: seq<LogRow>, after: seq<LogRow>, o: Opening, s: SessionState, t: SessionState)
    requires |after| == |log| + 1 && after[..|log|] == log && after[|log|].sessionId == o.sessionId
    requires Replay(Empty(o.sessionId, o.userId), RowsOf(log, o.sessionId)) == Ok(s) && Step(s, after[|log|]) == Ok(t)
    ensures RowsOf(after, o.sessionId) != [] && Replay(Empty(o.sessionId, o.userId), RowsOf(after, o.sessionId)) == Ok(t)
  {
    hide Step, Replay, RowsOf;
    assert after == log + [after[|log|]];
    RowsOfAppend(log, after[|log|], o.sessionId);
    ReplayOne(Empty(o.sessionId, o.userId), RowsOf(log, o.sessionId), after[|log|]);
  }

  /** A save that takes effect, reported or not, is what the next opening of the session loads; one
      that does not leaves everything as it was. */
  lemma SaveIsLoaded(db: Db, saved: SessionState, fault: Fault, o: Opening)
    requires o.sessionId == saved.sessionId && o.cacheReadOk
    ensures var after := Do(db, Save(saved, fault));
      if fault == FailsBefore then after == db
      else after.log == db.log && Load(after, o) == Ok(saved.(isFromLogReplay := false))
  {
    hide Serialize, ParseCachedState;
    CacheRoundTrip(saved);
  }

  /** Only openings write session_open entries, and the states saved for a session are states it
      was opened with. */
  predicate Proper(op: Op, sessionId: Str, openedAt: Str) {
    match op
    case Reopen(_) => true
    case Write(e) => e.sessionId == sessionId ==> e.entryType != SessionOpen
    case Save(s, _) => s.sessionId == sessionId ==> s.openedAt == openedAt
  }

  /** Wherever the state of a session can be loaded from, it was opened then. */
  ghost predicate OpenedAt(db: Db, sessionId: Str, at: Str) {
    && RowsOf(db.log, sessionId) != []
    && (forall user :: var r := Replay(Empty(sessionId, user), RowsOf(db.log, sessionId)); r.Ok? ==> r.value.openedAt == at)
    && (sessionId in db.cache ==>
          var c := ParseCachedState(db.cache[sessionId]); c.Some? ==> c.value.openedAt == at)
  }

  /** A replay fails only on a payload. */
  lemma {:induction false} ReplayErrors(s: SessionState, rows: seq<LogRow>)
    ensures Replay(s, rows).Err? ==> Replay(s, rows).cause == InvalidPayload
  {
    hide Parse, Get, Lit, ParseFlagType;
    if rows != [] { ReplayErrors(s, rows[..|rows|-1]); }
  }

  lemma LoadsOpenedAt(db: Db, o: Opening, at: Str)
    requires OpenedAt(db, o.sessionId, at) && Load(db, o).Ok?
    ensures Load(db, o).value.openedAt == at
  {
    hide ParseCachedState, RowsOf, Replay;
    var rows := RowsOf(db.log, o.sessionId);
    ReplayErrors(Empty(o.sessionId, o.userId), rows);
    assert Replay(Empty(o.sessionId, o.userId), rows).Ok? ==> Replay(Empty(o.sessionId, o.userId), rows).value.openedAt == at;
  }

  /** One more row of the session, of any kind but an opening elsewhere. */
  lemma RowKeepsOpenedAt(db: Db, row: LogRow, sessionId: Str, at: Str)
    requires OpenedAt(db, sessionId, at)
    requires row.sessionId == sessionId ==> forall s :: Step(s, row).Ok? && s.openedAt == at ==> Step(s, row).value.openedAt == at
    ensures OpenedAt(db.(log := db.log + [row]), sessionId, at)
  {
    hide ParseCachedState, Step, RowsOf, Replay;
    RowsOfAppend(db.log, row, sessionId);
    forall user
      ensures var r := Replay(Empty(sessionId, user), RowsOf(db.log + [row], sessionId)); r.Ok? ==> r.value.openedAt == at
    {
      ReplayOne(Empty(sessionId, user), RowsOf(db.log, sessionId), row);
      assert RowsOf(db.log, sessionId) + [] == RowsOf(db.log, sessionId);
    }
  }

  lemma WriteAppends(log: seq<LogRow>, e: Entry)
    ensures var after := WriteLogEntry(log, e).0;
      after == log || (|after| == |log| + 1 && after == log + [after[|log|]] && after[|log|].sessionId == e.sessionId
                       && after[|log|].entryType == e.entryType)
  {
    hide Parse, Print, Complete;
  }

  lemma OpKeepsOpenedAt(db: Db, op: Op, sessionId: Str, at: Str)
    requires OpenedAt(db, sessionId, at) && Proper(op, sessionId, at)
    ensures OpenedAt(Do(db, op), sessionId, at)
  {
    hide ParseCachedState, Step, RowsOf, Replay, WriteLogEntry, Load, OpenEntry, Serialize;
    match op
    case Save(s, _) =>
      CacheRoundTrip(s);
    case Write(e) =>
      WriteAppends(db.log, e);
      var after := WriteLogEntry(db.log, e).0;
      if after != db.log {
        var row := after[|db.log|];
        forall s | e.sessionId == sessionId && Step(s, row).Ok? && s.openedAt == at ensures Step(s, row).value.openedAt == at {
          StepEffects(s, row);
        }
        RowKeepsOpenedAt(db, row, sessionId, at);
      }
    case Reopen(o) =>
      if Load(db, o).Ok? { OpeningKeepsOpenedAt(db, o, sessionId, at); }
  }

  lemma OpeningKeepsOpenedAt(db: Db, o: Opening, sessionId: Str, at: Str)
    requires OpenedAt(db, sessionId, at) && Load(db, o).Ok?
    ensures OpenedAt(OpenSession(db, o).0, sessionId, at)
  {
    hide ParseCachedState, Step, RowsOf, Replay, WriteLogEntry, Load, OpenEntry, OpenedAt;
    var e := OpenEntry(o, Load(db, o).value.openedAt);
    if o.sessionId == sessionId { LoadsOpenedAt(db, o, at); }
    WriteAppends(db.log, e);
    EntryOf(o, Load(db, o).value.openedAt);
    var after := WriteLogEntry(db.log, e).0;
    if after != db.log {
      var row := after[|db.log|];
      WriteTakesEffect(db.log, e);
      forall s | o.sessionId == sessionId && Step(s, row).Ok? && s.openedAt == at ensures Step(s, row).value.openedAt == at {
        OpenEntryReplays(db.log, o, at, s);
      }
      RowKeepsOpenedAt(db, row, sessionId, at);
    }
  }

  lemma EntryOf(o: Opening, openedAt: Str)
    ensures var e := OpenEntry(o, openedAt); e.sessionId == o.sessionId && e.entryType == SessionOpen && e.fault == o.onWrite
  {
  }

  lemma WriteTakesEffect(log: seq<LogRow>, e: Entry)
    requires WriteLogEntry(log, e).0 != log
    ensures e.fault != FailsBefore
  {
    hide Parse, Print, Complete;
  }

  lemma {:induction false} OpsKeepOpenedAt(db: Db, ops: seq<Op>, sessionId: Str, at: Str)
    requires OpenedAt(db, sessionId, at) && forall i :: 0 <= i < |ops| ==> Proper(ops[i], sessionId, at)
    ensures OpenedAt(DoAll(db, ops), sessionId, at)
  {
    hide OpenedAt, Proper, Do;
    if ops != [] {
      OpsKeepOpenedAt(db, ops[..|ops|-1], sessionId, at);
      OpKeepsOpenedAt(DoAll(db, ops[..|ops|-1]), ops[|ops|-1], sessionId, at);
    }
  }

  /** The moment a session was first opened survives everything that follows: any entries, any
      saves of its state, any number of reopenings from the cache or from the log, with reads and
      writes failing anywhere, before or after their effect. That opening need only have written
      its entry, and may have reported an error; every later one that succeeds gives its moment. */
  lemma OpenedAtSurvives(db: Db, first: Opening, ops: seq<Op>, again: Opening)
    requires RowsOf(db.log, first.sessionId) == [] && first.sessionId !in db.cache && again.sessionId == first.sessionId
    requires OpenSession(db, first).0 != db
    requires forall i :: 0 <= i < |ops| ==> Proper(ops[i], first.sessionId, first.now)
    ensures var r := OpenSession(DoAll(OpenSession(db, first).0, ops), again).1; r.Ok? ==> r.value.openedAt == first.now
  {
    hide DoAll, ParseCachedState, WriteLogEntry, Proper, OpenedAt;
    var db1 := OpenSession(db, first).0;
    FirstOpening(db, first);
    OpsKeepOpenedAt(db1, ops, first.sessionId, first.now);
    var later := DoAll(db1, ops);
    if Load(later, again).Ok? { LoadsOpenedAt(later, again, first.now); }
  }

  lemma FirstOpening(db: Db, o: Opening)
    requires RowsOf(db.log, o.sessionId) == [] && o.sessionId !in db.cache && OpenSession(db, o).0 != db
    ensures OpenedAt(OpenSession(db, o).0, o.sessionId, o.now)
  {
    hide Step, WriteLogEntry, OpenEntry, RowsOf, Replay;
    var after := OpenSession(db, o).0.log;
    var e := OpenEntry(o, o.now);
    EntryOf(o, o.now);
    WriteTakesEffect(db.log, e);
    OpenEntryReplays(db.log, o, o.now, Empty(o.sessionId, o.userId));
    assert after == db.log + [after[|db.log|]];
    var row := after[|db.log|];
    RowsOfAppend(db.log, row, o.sessionId);
    forall user
      ensures var r := Replay(Empty(o.sessionId, user), RowsOf(after, o.sessionId)); r.Ok? ==> r.value.openedAt == o.now
    {
      OpenEntryReplays(db.log, o, o.now, Empty(o.sessionId, user));
      ReplayOne(Empty(o.sessionId, user), [], row);
      NothingReplayed(Empty(o.sessionId, user));
    }
  }

  lemma NothingReplayed(s: SessionState)
    ensures Replay(s, []) == Ok(s)
  {
  }
}
