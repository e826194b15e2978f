/** The comms_log table: the row mapper of backend/src/db/mapping (commsLog.ts, serializers.ts),
    the assembler and the inserter of backend/src/comms/commsLogWriter. */
module CommsLog {
  import opened Text
  import opened Json
  import opened Faults
  import opened IsoTime
  import CH = ContentHash
  import Keys = Idempotency

  // ---------- JSON in TEXT columns ----------

  datatype Reason = MalformedJson | WrongShape

  datatype MapResult<+T> = Ok(value: T) | Bad(reason: Reason)

  function StringsOf(items: seq<Json>): Option<seq<Str>> {
    if items == [] then Some([])
    else if !items[0].String? then None
    else match StringsOf(items[1..])
      case None => None
      case Some(rest) => Some([items[0].s] + rest)
  }

  function StringArray(text: Str): MapResult<seq<Str>> {
    match Parse(text)
    case None => Bad(MalformedJson)
    case Some(v) =>
      if !v.Array? then Bad(WrongShape)
      else match StringsOf(v.items) case None => Bad(WrongShape) case Some(items) => Ok(items)
  }

  /** `stringArrayFromDb`. */
  method StringArrayFromDb(text: Str) returns (r: MapResult<seq<Str>>)
    ensures r == StringArray(text)
  {
    hide Parse;
    var parsed := Parse(text);
    if parsed.None? {
      return Bad(MalformedJson);
    }
    if !parsed.value.Array? {
      return Bad(WrongShape);
    }
    var values := parsed.value.items;
    var items: seq<Str> := [];
    ghost var all := StringsOf(values);
    assert values[0..] == values && (all.Some? ==> items + all.value == all.value);
    for i := 0 to |values|
      invariant all == match StringsOf(values[i..]) { case None => None case Some(rest) => Some(items + rest) }
    {
      assert values[i..][1..] == values[i+1..];
      if !values[i].String? {
        return Bad(WrongShape);
      }
      ghost var rest := StringsOf(values[i+1..]);
      assert rest.Some? ==> items + ([values[i].s] + rest.value) == (items + [values[i].s]) + rest.value;
      items := items + [values[i].s];
    }
    assert values[|values|..] == [] && items + [] == items;
    r := Ok(items);
  }

  lemma {:induction false} StringsOfIff(items: seq<Json>, v: seq<Str>)
    ensures StringsOf(items) == Some(v) <==> items == CH.Strings(v)
  {
    if items != [] && v != [] {
      StringsOfIff(items[1..], v[1..]);
      assert items == CH.Strings(v) <==> items[0] == String(v[0]) && items[1..] == CH.Strings(v[1..]) by {
        assert CH.Strings(v)[1..] == CH.Strings(v[1..]);
        assert items == [items[0]] + items[1..] && CH.Strings(v) == [String(v[0])] + CH.Strings(v)[1..];
      }
      assert v == [v[0]] + v[1..];
      if StringsOf(items) == Some(v) { assert StringsOf(items[1..]).value == ([items[0].s] + StringsOf(items[1..]).value)[1..] == v[1..]; }
    }
  }

  /** A column reads as a list of strings exactly when its text is JSON for that list. */
  lemma StringArrayIff(text: Str, v: seq<Str>)
    ensures StringArray(text) == Ok(v) <==> Parse(text) == Some(Array(CH.Strings(v)))
    ensures StringArray(text) == Bad(MalformedJson) <==> Parse(text).None?
  {
    hide Parse, StringsOf;
    if Parse(text).Some? && Parse(text).value.Array? { StringsOfIff(Parse(text).value.items, v); }
  }

  // ---------- rows and records ----------

  datatype Bool01 = Zero | One

  datatype Channel = Email | Sms

  datatype Direction = Inbound | Outbound

  datatype Provenance = ProviderId | ContentHashFallback

  datatype TriageLabel = ActionRequired | DataToLog | AwarenessOnly | UnknownSender | UnclearReview

  datatype TimeSensitivity = Hard | Soft | NoSensitivity

  datatype DeliveryState = Queued | Sent | Delivered | Failed | FallbackUsed

  datatype FallbackLeg = SmsLeg | FcmLeg | EmailLeg

  datatype UserAction = RequestedDraftReply | MarkedInformational | Dismissed | NoAction

  datatype Row = Row(
    id: Str, created_at: Str, provider: Keys.Provider, channel: Channel, direction: Direction,
    provider_message_id: Option<Str>, idempotency_provenance: Provenance, content_hash: Str, thread_key: Str,
    from_identifier: Str, to_identifiers: Str, subject: Option<Str>, body: Str, provider_timestamp: Str,
    contact_id: Option<Str>, topic_tag: Option<Str>, triage_label: TriageLabel,
    time_sensitivity_flag: TimeSensitivity, delivery_state: Option<DeliveryState>, delivery_detail: Option<Str>,
    fallback_leg_used: Option<FallbackLeg>, is_synced: Bool01, user_acknowledged_at: Option<Str>,
    user_action_taken: Option<UserAction>)

  datatype Record = Record(
    id: Str, createdAt: Str, provider: Keys.Provider, channel: Channel, direction: Direction,
    providerMessageId: Option<Str>, idempotencyProvenance: Provenance, contentHash: Str, threadKey: Str,
    fromIdentifier: Str, toIdentifiers: seq<Str>, subject: Option<Str>, body: Str, providerTimestamp: Str,
    contactId: Option<Str>, topicTag: Option<Str>, triageLabel: TriageLabel,
    timeSensitivityFlag: TimeSensitivity, deliveryState: Option<DeliveryState>, deliveryDetail: Option<Str>,
    fallbackLegUsed: Option<FallbackLeg>, isSynced: bool, userAcknowledgedAt: Option<Str>,
    userActionTaken: Option<UserAction>)

  function BoolToDb(b: bool): Bool01 { if b then One else Zero }

  function BoolFromDb(b: Bool01): bool { b == One }

  function JsonToDb(v: seq<Str>): Str {
    Print(Array(CH.Strings(v)))
  }

  /** `commsLogToDb`. */
  function ToDb(d: Record): Row {
    Row(d.id, d.createdAt, d.provider, d.channel, d.direction, d.providerMessageId, d.idempotencyProvenance,
        d.contentHash, d.threadKey, d.fromIdentifier, JsonToDb(d.toIdentifiers), d.subject, d.body,
        d.providerTimestamp, d.contactId, d.topicTag, d.triageLabel, d.timeSensitivityFlag, d.deliveryState,
        d.deliveryDetail, d.fallbackLegUsed, BoolToDb(d.isSynced), d.userAcknowledgedAt, d.userActionTaken)
  }

  /** `commsLogFromDb`. */
  function FromDb(r: Row): MapResult<Record> {
    match StringArray(r.to_identifiers)
    case Bad(reason) => Bad(reason)
    case Ok(to) =>
      Ok(Record(
        r.id, r.created_at, r.provider, r.channel, r.direction, r.provider_message_id, r.idempotency_provenance,
        r.content_hash, r.thread_key, r.from_identifier, to, r.subject, r.body, r.provider_timestamp, r.contact_id,
        r.topic_tag, r.triage_label, r.time_sensitivity_flag, r.delivery_state, r.delivery_detail,
        r.fallback_leg_used, BoolFromDb(r.is_synced), r.user_acknowledged_at, r.user_action_taken))
  }

  /** Every record comes back from its row, whatever its recipients hold. */
  lemma RecordRoundTrip(d: Record)
    ensures FromDb(ToDb(d)) == Ok(d)
  {
    hide StringArray, Print, Parse;
    ParseOfPrint(Array(CH.Strings(d.toIdentifiers)));
    StringArrayIff(JsonToDb(d.toIdentifiers), d.toIdentifiers);
  }

  /** A row that reads as a record is the row of that record exactly when its recipients column is
      written compactly. */
  lemma RowRoundTrip(r: Row, d: Record)
    requires FromDb(r) == Ok(d)
    ensures ToDb(d) == r <==> r.to_identifiers == JsonToDb(d.toIdentifiers)
    ensures Parse(r.to_identifiers) == Some(Array(CH.Strings(d.toIdentifiers)))
  {
    hide StringArray, Print, Parse;
    StringArrayIff(r.to_identifiers, d.toIdentifiers);
  }

  // ---------- the assembler ----------

  datatype Base = Base(
    provider: Keys.Provider, providerMessageId: Option<Str>, channel: Channel, idempotencyProvenance: Provenance,
    contentHash: Str, threadKey: Str, fromIdentifier: Str, toIdentifiers: seq<Str>, subject: Option<Str>, body: Str,
    providerTimestamp: Option<Str>, contactId: Option<Str>, topicTag: Option<Str>, triageLabel: TriageLabel)

  datatype Input =
    | InboundWrite(base: Base, timeSensitivityFlag: TimeSensitivity)
    | OutboundWrite(base: Base, deliveryState: DeliveryState, deliveryDetail: Option<Str>, fallbackLegUsed: Option<FallbackLeg>)

  /** `assembleCommsLogRecord`. */
  function AssembleRecord(input: Input, id: Str, createdAt: Str): Record {
    var b := input.base;
    var stamp := if b.providerTimestamp.Some? then b.providerTimestamp.value else createdAt;
    match input
    case InboundWrite(_, flag) =>
      Record(id, createdAt, b.provider, b.channel, Inbound, b.providerMessageId, b.idempotencyProvenance, b.contentHash,
             b.threadKey, b.fromIdentifier, b.toIdentifiers, b.subject, b.body, stamp, b.contactId, b.topicTag,
             b.triageLabel, flag, None, None, None, false, None, None)
    case OutboundWrite(_, state, detail, leg) =>
      Record(id, createdAt, b.provider, b.channel, Outbound, b.providerMessageId, b.idempotencyProvenance, b.contentHash,
             b.threadKey, b.fromIdentifier, b.toIdentifiers, b.subject, b.body, stamp, b.contactId, b.topicTag,
             b.triageLabel, NoSensitivity, Some(state), detail, leg, false, None, None)
  }

  /** The input a record was assembled from, its provider timestamp filled in. */
  function Disassemble(d: Record): Input {
    var b := Base(d.provider, d.providerMessageId, d.channel, d.idempotencyProvenance, d.contentHash, d.threadKey,
                  d.fromIdentifier, d.toIdentifiers, d.subject, d.body, Some(d.providerTimestamp), d.contactId,
                  d.topicTag, d.triageLabel);
    if d.direction == Outbound && d.deliveryState.Some? then
      OutboundWrite(b, d.deliveryState.value, d.deliveryDetail, d.fallbackLegUsed)
    else InboundWrite(b, d.timeSensitivityFlag)
  }

  /** Assembling and storing keeps everything of the input: the row read back gives the input, a
      missing provider timestamp having become the creation time, and the fields the writer owns
      are as it stamps them. */
  lemma NothingIsLostInStorage(input: Input, id: Str, createdAt: Str)
    ensures var r := FromDb(ToDb(AssembleRecord(input, id, createdAt)));
      && r.Ok? && Disassemble(r.value) == Timed(input, createdAt)
      && r.value.id == id && r.value.createdAt == createdAt && !r.value.isSynced
      && r.value.userAcknowledgedAt.None? && r.value.userActionTaken.None?
      && (r.value.direction == Inbound <==> input.InboundWrite?)
      && (r.value.direction == Inbound ==> r.value.deliveryState.None? && r.value.deliveryDetail.None? && r.value.fallbackLegUsed.None?)
      && (r.value.direction == Outbound ==> r.value.timeSensitivityFlag == NoSensitivity)
  {
    hide FromDb, ToDb;
    RecordRoundTrip(AssembleRecord(input, id, createdAt));
  }

  function Timed(input: Input, createdAt: Str): Input {
    if input.base.providerTimestamp.Some? then input
    else input.(base := input.base.(providerTimestamp := Some(createdAt)))
  }

  // ---------- the table ----------

  /** The table's CHECK on direction and delivery state. */
  predicate Paired(r: Row) {
    r.direction == Inbound <==> r.delivery_state.None?
  }

  /** The table's CHECK on provenance. */
  predicate Keyed(r: Row) {
    r.idempotency_provenance == ContentHashFallback || r.provider_message_id.Some?
  }

  /** Two rows the partial unique index keeps apart. */
  predicate SameMessage(r: Row, s: Row) {
    r.provider_message_id.Some? && r.provider == s.provider && r.provider_message_id == s.provider_message_id
  }

  predicate Conflicts(rows: seq<Row>, r: Row) {
    exists a :: 0 <= a < |rows| && SameMessage(rows[a], r)
  }

  predicate Taken(rows: seq<Row>, id: Str) {
    exists a :: 0 <= a < |rows| && rows[a].id == id
  }

  datatype Inserted = Returned(id: Str) | NoRow | Throws

  /** INSERT … ON CONFLICT (provider, provider_message_id) … DO NOTHING RETURNING id: checks are
      made first, the named conflict is absorbed, a taken id is refused. */
  function Insert(rows: seq<Row>, r: Row, fault: Fault): (seq<Row>, Inserted) {
    if fault == FailsBefore || !Paired(r) || !Keyed(r) then (rows, Throws)
    else if Conflicts(rows, r) then (rows, if fault == Works then NoRow else Throws)
    else if Taken(rows, r.id) then (rows, Throws)
    else (rows + [r], if fault == Works then Returned(r.id) else Throws)
  }

  datatype WriteResult =
    | Stored(id: Str)
    | Duplicate(provider: Keys.Provider, providerMessageId: Str)
    | InsertFailed
    | InsertRowMissing
    | BadClock

  datatype Call = Call(input: Input, uuid: Str, now: int, fault: Fault)

  /** `storeCommsLog` as a function of the table; an instant that is no date throws. */
  function Store(rows: seq<Row>, c: Call): (seq<Row>, WriteResult) {
    if !IsTime(c.now) then (rows, BadClock)
    else
      var (after, inserted) := Insert(rows, ToDb(AssembleRecord(c.input, c.uuid, Iso(c.now))), c.fault);
      var id := c.input.base.providerMessageId;
      (after, match inserted
              case Throws => InsertFailed
              case Returned(key) => Stored(key)
              case NoRow => if id.None? then InsertRowMissing else Duplicate(c.input.base.provider, id.value))
  }

  class CommsStore {
    var rows: seq<Row>

    constructor ()
      ensures rows == []
    {
      rows := [];
    }

    /** The INSERT, or an exception. */
    method RunInsert(r: Row, fault: Fault) returns (inserted: Inserted)
      modifies this
      ensures (rows, inserted) == Insert(old(rows), r, fault)
    {
      if fault == FailsBefore || !Paired(r) || !Keyed(r) {
        return Throws;
      }
      if Conflicts(rows, r) {
        return if fault == Works then NoRow else Throws;
      }
      if Taken(rows, r.id) {
        return Throws;
      }
      rows := rows + [r];
      inserted := if fault == Works then Returned(r.id) else Throws;
    }

    method StoreCommsLog(input: Input, uuid: Str, now: int, fault: Fault) returns (result: WriteResult)
      modifies this
      ensures (rows, result) == Store(old(rows), Call(input, uuid, now, fault))
    {
      hide Insert, ToDb, AssembleRecord, Iso;
      if !IsTime(now) {
        return BadClock;
      }
      var row := ToDb(AssembleRecord(input, uuid, Iso(now)));
      var inserted := RunInsert(row, fault);
      if inserted.Throws? {
        return InsertFailed;
      }
      if inserted.Returned? {
        return Stored(inserted.id);
      }
      if input.base.providerMessageId.None? {
        return InsertRowMissing;
      }
      result := Duplicate(input.base.provider, input.base.providerMessageId.value);
    }
  }

  function After(calls: seq<Call>): seq<Row> {
    if calls == [] then [] else Store(After(calls[..|calls|-1]), calls[|calls|-1]).0
  }

  /** What the k-th call of a run returns. */
  function Result(calls: seq<Call>, k: nat): WriteResult
    requires k < |calls|
  {
    Store(After(calls[..k]), calls[k]).1
  }

  // ---------- every reachable table ----------

  ghost predicate Sound(rows: seq<Row>) {
    && (forall a, b :: 0 <= a < b < |rows| ==> !SameMessage(rows[a], rows[b]) && rows[a].id != rows[b].id)
    && (forall a :: 0 <= a < |rows| ==> Paired(rows[a]) && Keyed(rows[a]) && FromDb(rows[a]).Ok?)
  }

  predicate Adds(rows: seq<Row>, after: seq<Row>, c: Call) {
    && IsTime(c.now) && |after| == |rows| + 1 && after[..|rows|] == rows
    && FromDb(after[|rows|]) == Ok(AssembleRecord(c.input, c.uuid, Iso(c.now)))
    && after[|rows|].provider == c.input.base.provider
    && after[|rows|].provider_message_id == c.input.base.providerMessageId
  }

  /** What one call does to the table: nothing, or it adds the row that reads back as its record.
      A stored result is reported exactly for a row added on a working database; a failure is
      reported with the row added exactly if the INSERT failed after its effect where it would
      have stored the row. */
  lemma StoreAdds(rows: seq<Row>, c: Call)
    ensures var (after, r) := Store(rows, c);
      && r != InsertRowMissing && (after == rows || Adds(rows, after, c))
      && (r.Stored? <==> after != rows && c.fault == Works) && (r.Stored? ==> r.id == c.uuid)
      && (r == BadClock <==> !IsTime(c.now))
      && (r == InsertFailed && after != rows <==> c.fault == FailsAfter && Store(rows, c.(fault := Works)).1.Stored?)
  {
    hide FromDb, JsonToDb, Iso;
    if IsTime(c.now) { RecordRoundTrip(AssembleRecord(c.input, c.uuid, Iso(c.now))); }
  }

  lemma StoreKeepsSound(rows: seq<Row>, c: Call)
    requires Sound(rows)
    ensures Sound(Store(rows, c).0)
  {
    hide FromDb, JsonToDb, Iso, AssembleRecord, ToDb, Paired, Keyed;
    StoreAdds(rows, c);
    var after := Store(rows, c).0;
    if after != rows {
      var row := ToDb(AssembleRecord(c.input, c.uuid, Iso(c.now)));
      assert after == rows + [row] && !Conflicts(rows, row) && !Taken(rows, row.id);
      forall a | 0 <= a < |rows| ensures !SameMessage(rows[a], row) && rows[a].id != row.id {
      }
    }
  }

  /** In every reachable table at most one row exists per provider and message id, every row
      pairs its direction with its delivery state, and every row reads back as a record. */
  lemma {:induction false} TableIsSound(calls: seq<Call>)
    ensures Sound(After(calls))
  {
    hide Sound, Store;
    if calls == [] {
      NothingStored();
    } else {
      TableIsSound(calls[..|calls|-1]);
      StoreKeepsSound(After(calls[..|calls|-1]), calls[|calls|-1]);
    }
  }

  lemma NothingStored()
    ensures Sound([])
  {
  }

  /** A write whose message has no provider id, made under an id of its own on a working database,
      adds its row exactly when its provenance is the content hash; claimed to be keyed on the
      provider id, it is refused. */
  lemma NullIdStored(rows: seq<Row>, c: Call)
    requires c.input.base.providerMessageId.None? && c.fault == Works && IsTime(c.now) && !Taken(rows, c.uuid)
    ensures Store(rows, c).1 == if c.input.base.idempotencyProvenance == ContentHashFallback then Stored(c.uuid) else InsertFailed
    ensures |Store(rows, c).0| == |rows| + if c.input.base.idempotencyProvenance == ContentHashFallback then 1 else 0
  {
    hide Iso, JsonToDb, Taken;
    var row := ToDb(AssembleRecord(c.input, c.uuid, Iso(c.now)));
    assert forall a :: 0 <= a < |rows| ==> !SameMessage(rows[a], row);
  }

  /** A write is a duplicate exactly when the database works and the table already holds its
      provider and message id, and it is reported under them. */
  lemma DuplicateIff(rows: seq<Row>, c: Call)
    ensures var r := Store(rows, c).1;
      r.Duplicate? ==> r.provider == c.input.base.provider && Some(r.providerMessageId) == c.input.base.providerMessageId
    ensures Store(rows, c).1.Duplicate? <==>
      && c.fault == Works && IsTime(c.now) && c.input.base.providerMessageId.Some?
      && exists a :: 0 <= a < |rows| && rows[a].provider == c.input.base.provider
                     && rows[a].provider_message_id == c.input.base.providerMessageId
  {
    hide Iso, JsonToDb;
    if IsTime(c.now) {
      var row := ToDb(AssembleRecord(c.input, c.uuid, Iso(c.now)));
      if c.input.base.providerMessageId.Some? {
        assert forall a :: 0 <= a < |rows| ==>
          (SameMessage(rows[a], row) <==>
            rows[a].provider == c.input.base.provider && rows[a].provider_message_id == c.input.base.providerMessageId);
      }
    }
  }

  lemma {:induction false} RowsStay(calls: seq<Call>, j: nat)
    requires j <= |calls|
    ensures |After(calls[..j])| <= |After(calls)| && After(calls)[..|After(calls[..j])|] == After(calls[..j])
  {
    hide Store;
    if j == |calls| {
      assert calls[..j] == calls;
    } else {
      var rest := calls[..|calls|-1];
      RowsStay(rest, j);
      assert rest[..j] == calls[..j];
      StoreAdds(After(rest), calls[|calls|-1]);
    }
  }

  /** A row of the table after a call was there before or is what the call added. */
  lemma RowOrigin(rows: seq<Row>, c: Call, a: nat)
    requires a < |Store(rows, c).0|
    ensures a < |rows| ==> Store(rows, c).0[a] == rows[a]
    ensures a >= |rows| ==> Store(rows, c).0 != rows
    ensures a >= |rows| ==> Store(rows, c).0[a].provider == c.input.base.provider
    ensures a >= |rows| ==> Store(rows, c).0[a].provider_message_id == c.input.base.providerMessageId
  {
    hide Store, FromDb, AssembleRecord;
    StoreAdds(rows, c);
    if a < |rows| { assert Store(rows, c).0[..|rows|][a] == rows[a]; }
  }

  /** The j-th call of a run adds its row. */
  predicate Writes(calls: seq<Call>, j: nat) {
    j < |calls| && Store(After(calls[..j]), calls[j]).0 != After(calls[..j])
  }

  /** Each row was added by a call of the run for that message. */
  lemma {:induction false} RowHasCall(calls: seq<Call>, a: nat) returns (j: nat)
    requires a < |After(calls)|
    ensures Writes(calls, j)
    ensures calls[j].input.base.provider == After(calls)[a].provider
    ensures calls[j].input.base.providerMessageId == After(calls)[a].provider_message_id
  {
    hide Store;
    var rest := calls[..|calls|-1];
    RowOrigin(After(rest), calls[|calls|-1], a);
    if a < |After(rest)| {
      j := RowHasCall(rest, a);
      assert rest[..j] == calls[..j];
    } else {
      j := |rest|;
      assert calls[..j] == rest;
    }
  }

  /** In every run a write on a working database is a duplicate exactly when an earlier write for its
      message added its row, whether or not that one was reported stored. */
  lemma StoredOnce(calls: seq<Call>, k: nat)
    requires k < |calls| && calls[k].input.base.providerMessageId.Some? && calls[k].fault == Works && IsTime(calls[k].now)
    ensures Result(calls, k).Duplicate? <==>
      exists j :: 0 <= j < k && Writes(calls, j) && ForSameMessage(calls[j], calls[k])
  {
    hide Store;
    var rows := After(calls[..k]);
    DuplicateIff(rows, calls[k]);
    if Result(calls, k).Duplicate? {
      var a :| 0 <= a < |rows| && rows[a].provider == calls[k].input.base.provider
               && rows[a].provider_message_id == calls[k].input.base.providerMessageId;
      var j := RowHasCall(calls[..k], a);
      assert calls[..k][..j] == calls[..j];
      assert Writes(calls, j) && ForSameMessage(calls[j], calls[k]);
    }
    if j :| 0 <= j < k && Writes(calls, j) && ForSameMessage(calls[j], calls[k]) {
      AddedRowStays(calls, j, k);
    }
  }

  predicate ForSameMessage(c: Call, d: Call) {
    c.input.base.provider == d.input.base.provider && c.input.base.providerMessageId == d.input.base.providerMessageId
  }

  lemma AddedRowStays(calls: seq<Call>, j: nat, k: nat)
    requires j < k <= |calls| && Writes(calls, j)
    ensures var rows, a := After(calls[..k]), |After(calls[..j])|;
      a < |rows| && rows[a].provider == calls[j].input.base.provider
      && rows[a].provider_message_id == calls[j].input.base.providerMessageId
  {
    hide Store;
    var a := |After(calls[..j])|;
    assert calls[..j+1][..j] == calls[..j];
    StoreAdds(After(calls[..j]), calls[j]);
    RowsStay(calls[..k], j + 1);
    assert calls[..k][..j+1] == calls[..j+1];
    assert After(calls[..k])[a] == After(calls[..k])[..|After(calls[..j+1])|][a];
  }

  // ---------- the log behind the idempotency gate ----------

  /** Every row of the log with a provider message id that is not empty has its key. */
  ghost predicate Covered(keys: seq<Keys.KeyRow>, rows: seq<Row>) {
    forall a :: 0 <= a < |rows| && rows[a].provider_message_id.Some? && rows[a].provider_message_id.value != [] ==>
      HasKey(keys, rows[a].provider, rows[a].provider_message_id.value)
  }

  ghost predicate HasKey(keys: seq<Keys.KeyRow>, provider: Keys.Provider, id: Str) {
    exists b :: 0 <= b < |keys| && Keys.IsKey(keys[b], provider, id)
  }

  /** A message at the gate and the same message handed to the writer. */
  predicate SameInput(m: Keys.Input, c: Call) {
    m.provider == c.input.base.provider && m.providerMessageId == c.input.base.providerMessageId
  }

  /** The check of a message at the gate, if its plan does not throw. */
  function Gate(digest: seq<CH.Byte> -> Str, keys: seq<Keys.KeyRow>, m: Keys.Input, now: int, uuid: Str)
    : Option<(seq<Keys.KeyRow>, Keys.Phase)>
  {
    match Keys.PlanCheck(digest, m, now)
    case None => None
    case Some(plan) => Some(Keys.Execute(keys, Keys.Check(plan, uuid), Works, Works))
  }

  predicate FoundNovel(r: Option<(seq<Keys.KeyRow>, Keys.Phase)>) {
    r.Some? && Keys.IsNovel(r.value.1)
  }

  /** The gate comes to a verdict whenever the times it plans with are dates. */
  lemma GateRuns(digest: seq<CH.Byte> -> Str, keys: seq<Keys.KeyRow>, m: Keys.Input, now: int, uuid: Str)
    requires IsTime(now) && IsTime(now - 600_000) && IsTime(now + 7_776_000_000)
    ensures var r := Gate(digest, keys, m, now, uuid);
      r.Some? && r.value.1.Done?
  {
    hide Keys.SelectWindow, Keys.FindKey, Keys.Taken, Iso, CH.ComputeContentHash;
  }

  /** A message the gate finds novel has no key, unless its provider message id is empty. */
  lemma NovelHasNoKey(digest: seq<CH.Byte> -> Str, keys: seq<Keys.KeyRow>, m: Keys.Input, now: int, uuid: Str)
    requires m.providerMessageId.Some? && m.providerMessageId.value != []
    ensures FoundNovel(Gate(digest, keys, m, now, uuid)) ==>
      && !HasKey(keys, m.provider, m.providerMessageId.value)
      && HasKey(Gate(digest, keys, m, now, uuid).value.0, m.provider, m.providerMessageId.value)
  {
    hide Keys.SelectWindow, Keys.Taken, Iso, CH.ComputeContentHash;
    var r := Gate(digest, keys, m, now, uuid);
    if FoundNovel(r) { assert Keys.IsKey(r.value.0[|keys|], m.provider, m.providerMessageId.value); }
  }

  /** Storing only what the gate found novel keeps the log covered, whatever befalls the write. */
  lemma GateKeepsCovered(digest: seq<CH.Byte> -> Str, keys: seq<Keys.KeyRow>, rows: seq<Row>, m: Keys.Input, now: int,
                         uuid: Str, c: Call)
    requires Covered(keys, rows) && SameInput(m, c)
    ensures FoundNovel(Gate(digest, keys, m, now, uuid)) ==>
      Covered(Gate(digest, keys, m, now, uuid).value.0, Store(rows, c).0)
  {
    hide Gate, Store, FromDb, AssembleRecord, Keys.IsNovel;
    var r := Gate(digest, keys, m, now, uuid);
    if FoundNovel(r) {
      GateAdds(digest, keys, m, now, uuid);
      var more, after := r.value.0, Store(rows, c).0;
      if m.providerMessageId.Some? && m.providerMessageId.value != [] { NovelHasNoKey(digest, keys, m, now, uuid); }
      forall a | 0 <= a < |after| && after[a].provider_message_id.Some? && after[a].provider_message_id.value != []
        ensures HasKey(more, after[a].provider, after[a].provider_message_id.value)
      {
        RowOrigin(rows, c, a);
        if a < |rows| { KeyStays(keys, more, rows[a].provider, rows[a].provider_message_id.value); }
      }
    }
  }

  lemma KeyStays(keys: seq<Keys.KeyRow>, more: seq<Keys.KeyRow>, provider: Keys.Provider, id: Str)
    requires HasKey(keys, provider, id) && keys <= more
    ensures HasKey(more, provider, id)
  {
    var b :| 0 <= b < |keys| && Keys.IsKey(keys[b], provider, id);
    assert more[b] == keys[b];
  }

  lemma GateAdds(digest: seq<CH.Byte> -> Str, keys: seq<Keys.KeyRow>, m: Keys.Input, now: int, uuid: Str)
    ensures var r := Gate(digest, keys, m, now, uuid); r.Some? ==> keys <= r.value.0
  {
    hide Keys.SelectWindow, Keys.FindKey, Keys.Taken, Keys.PlanCheck;
  }

  /** The writer takes an empty provider message id for an identity, where the gate takes it for
      none. So on a working database a message the gate has found novel is dropped by the log as a
      duplicate exactly if its provider message id is empty and a row of that provider has an empty
      one. */
  lemma EmptyIdIsDropped(digest: seq<CH.Byte> -> Str, keys: seq<Keys.KeyRow>, rows: seq<Row>, m: Keys.Input, now: int,
                          uuid: Str, c: Call)
    requires Covered(keys, rows) && SameInput(m, c) && c.fault == Works && IsTime(c.now)
    ensures FoundNovel(Gate(digest, keys, m, now, uuid)) ==>
      (Store(rows, c).1.Duplicate? <==>
        && m.providerMessageId == Some([])
        && exists a :: 0 <= a < |rows| && rows[a].provider == m.provider && rows[a].provider_message_id == Some([]))
  {
    hide Gate, Store;
    DuplicateIff(rows, c);
    if m.providerMessageId.Some? && m.providerMessageId.value != [] { NovelHasNoKey(digest, keys, m, now, uuid); }
  }

  /** Two different messages of one provider, both with an empty provider message id, on empty
      tables: the gate finds both novel, and the log stores the first and drops the second. */
  lemma SecondEmptyIdIsDropped(digest: seq<CH.Byte> -> Str, m: Keys.Input, n: Keys.Input, now: int, later: int,
                               uuid: Str, other: Str, c: Call, d: Call)
    requires m.providerMessageId == Some([]) && n.providerMessageId == Some([]) && m.provider == n.provider
    requires CH.ComputeContentHash(digest, m.message) != CH.ComputeContentHash(digest, n.message) && uuid != other
    requires SameInput(m, c) && SameInput(n, d) && c.fault == Works && d.fault == Works && IsTime(c.now) && IsTime(d.now)
    requires IsTime(now) && IsTime(now - 600_000) && IsTime(now + 7_776_000_000)
    requires IsTime(later) && IsTime(later - 600_000) && IsTime(later + 7_776_000_000)
    ensures var first := Gate(digest, [], m, now, uuid);
      first.Some? &&
        var second := Gate(digest, first.value.0, n, later, other);
        && FoundNovel(first) && FoundNovel(second)
        && Store([], c).1 == Stored(c.uuid)
        && Store(Store([], c).0, d).1 == Duplicate(m.provider, [])
  {
    hide Gate, Iso, JsonToDb, CH.ComputeContentHash;
    GateRuns(digest, [], m, now, uuid);
    var first := Gate(digest, [], m, now, uuid);
    GateRuns(digest, first.value.0, n, later, other);
    NovelAmongOthers(digest, [], m, now, uuid);
    NovelAmongOthers(digest, first.value.0, n, later, other);
    FirstIsStored(c);
    DuplicateIff(Store([], c).0, d);
    EmptyIdIsDropped(digest, first.value.0, Store([], c).0, n, later, other, d);
  }

  lemma FirstIsStored(c: Call)
    requires c.input.base.providerMessageId == Some([]) && c.fault == Works && IsTime(c.now)
    ensures var (rows, r) := Store([], c);
      r == Stored(c.uuid) && |rows| == 1 && rows[0].provider == c.input.base.provider && rows[0].provider_message_id == Some([])
  {
    hide Iso, JsonToDb;
  }

  /** A message without provider id is novel among keys of other hashes, and adds its own. */
  lemma NovelAmongOthers(digest: seq<CH.Byte> -> Str, keys: seq<Keys.KeyRow>, m: Keys.Input, now: int, uuid: Str)
    requires m.providerMessageId == Some([]) && !Keys.Taken(keys, uuid)
    requires forall b :: 0 <= b < |keys| ==> keys[b].keyValue != CH.ComputeContentHash(digest, m.message)
    ensures var r := Gate(digest, keys, m, now, uuid);
      r.Some? ==> && FoundNovel(r) && |r.value.0| == |keys| + 1 && keys == r.value.0[..|keys|]
                  && r.value.0[|keys|].keyValue == CH.ComputeContentHash(digest, m.message)
                  && r.value.0[|keys|].id == uuid
  {
    hide Iso, CH.ComputeContentHash, Keys.SelectWindow, LexLe;
    var plan := Keys.PlanCheck(digest, m, now);
    if plan.Some? {
      Keys.SelectWindowIsFirst(keys, plan.value.keyValue, plan.value.windowStartAt, plan.value.firstSeenAt);
    }
  }
}
