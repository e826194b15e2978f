/** The session state of backend/src/orchestration/types.ts and its cache text: written with
    JSON.stringify, read back field by field by `parseCachedState` of
    backend/src/orchestration/sessionPersistence.ts. */
module SessionCache {
  import opened Sequences
  import opened Text
  import opened Json

  datatype Role = User | Assistant

  datatype Message = Message(role: Role, content: Str, timestamp: Option<Str>)

  datatype FlagType = SafetyFlag | PushFlag | PullFlag | AuditFlag

  datatype ActiveFlag = ActiveFlag(flagId: Str, flagType: FlagType, content: Str, raisedAt: Str, acknowledged: bool)

  datatype Category = SafetyItem | MachineItem | PartsItem | ComplianceItem | ContactItem

  datatype OpenItem = OpenItem(itemId: Str, category: Category, content: Str, priority: int, isPush: bool)

  datatype MachineRef = MachineRef(position: int, name: Str, serialNumber: Option<Str>)

  datatype ConsistContext = ConsistContext(consistId: Str, relevantMachines: seq<MachineRef>)

  datatype SessionState = SessionState(
    sessionId: Str, userId: Str, editionId: Str, openedAt: Str, lastInteractionAt: Str,
    conversationHistory: seq<Message>, activeFlags: seq<ActiveFlag>, openItems: seq<OpenItem>,
    consistContext: Option<ConsistContext>, isFromLogReplay: bool)

  // ---------- reading fields ----------

  /** A property of a parsed object; of two with one name the later is the one that counts. */
  function Get(members: seq<Member>, key: Str): Option<Json> {
    if members == [] then None
    else
      var later := Get(members[1..], key);
      if later.Some? then later else if members[0].key == key then Some(members[0].value) else None
  }

  function ToRecord(v: Json): Option<seq<Member>> {
    if v.Object? then Some(v.members) else None
  }

  function ExtractString(members: seq<Member>, key: Str): Option<Str> {
    match Get(members, key)
    case Some(String(s)) => Some(s)
    case _ => None
  }

  function ExtractNumber(members: seq<Member>, key: Str): Option<int> {
    match Get(members, key)
    case Some(Num(n)) => Some(n)
    case _ => None
  }

  function ExtractBoolean(members: seq<Member>, key: Str): Option<bool> {
    match Get(members, key)
    case Some(Bool(b)) => Some(b)
    case _ => None
  }

  function ExtractArray(members: seq<Member>, key: Str): Option<seq<Json>> {
    match Get(members, key)
    case Some(Array(items)) => Some(items)
    case _ => None
  }

  function ParseAll<T>(values: seq<Json>, parse: Json -> Option<T>): Option<seq<T>> {
    if values == [] then Some([])
    else match (parse(values[0]), ParseAll(values[1..], parse))
      case (Some(x), Some(rest)) => Some([x] + rest)
      case (_, _) => None
  }

  /** `parseAll`: the parsed values, or nothing as soon as one does not parse. */
  method ParseAllInto<T>(values: seq<Json>, parse: Json -> Option<T>) returns (out: Option<seq<T>>)
    ensures out == ParseAll(values, parse)
  {
    var parsed: seq<T> := [];
    ghost var all := ParseAll(values, parse);
    assert values[0..] == values && (all.Some? ==> parsed + all.value == all.value);
    for i := 0 to |values|
      invariant ParseAll(values, parse) == Prefixed(parsed, ParseAll(values[i..], parse))
    {
      assert values[i..][1..] == values[i+1..];
      match parse(values[i])
      case None => return None;
      case Some(x) =>
        ghost var rest := ParseAll(values[i+1..], parse);
        assert rest.Some? ==> parsed + ([x] + rest.value) == (parsed + [x]) + rest.value;
        parsed := parsed + [x];
    }
    assert values[|values|..] == [] && parsed + [] == parsed;
    out := Some(parsed);
  }

  function Prefixed<T>(head: seq<T>, r: Option<seq<T>>): Option<seq<T>> {
    match r
    case None => None
    case Some(rest) => Some(head + rest)
  }

  // ---------- the vocabularies ----------

  function RoleName(r: Role): Str {
    match r case User => Lit("user") case Assistant => Lit("assistant")
  }

  function ParseRole(t: Str): Option<Role> {
    if t == RoleName(User) then Some(User) else if t == RoleName(Assistant) then Some(Assistant) else None
  }

  function FlagTypeName(f: FlagType): Str {
    match f
    case SafetyFlag => Lit("safety")
    case PushFlag => Lit("push")
    case PullFlag => Lit("pull")
    case AuditFlag => Lit("audit")
  }

  function ParseFlagType(t: Str): Option<FlagType> {
    if t == FlagTypeName(SafetyFlag) then Some(SafetyFlag)
    else if t == FlagTypeName(PushFlag) then Some(PushFlag)
    else if t == FlagTypeName(PullFlag) then Some(PullFlag)
    else if t == FlagTypeName(AuditFlag) then Some(AuditFlag)
    else None
  }

  function CategoryName(c: Category): Str {
    match c
    case SafetyItem => Lit("safety")
    case MachineItem => Lit("machine")
    case PartsItem => Lit("parts")
    case ComplianceItem => Lit("compliance")
    case ContactItem => Lit("contact")
  }

  function ParseCategory(t: Str): Option<Category> {
    if t == CategoryName(SafetyItem) then Some(SafetyItem)
    else if t == CategoryName(MachineItem) then Some(MachineItem)
    else if t == CategoryName(PartsItem) then Some(PartsItem)
    else if t == CategoryName(ComplianceItem) then Some(ComplianceItem)
    else if t == CategoryName(ContactItem) then Some(ContactItem)
    else None
  }

  lemma RoleIsRead(r: Role)
    ensures ParseRole(RoleName(r)) == Some(r)
  {
  }

  lemma FlagTypeIsRead(f: FlagType)
    ensures ParseFlagType(FlagTypeName(f)) == Some(f)
  {
    assert Lit("push")[2] != Lit("pull")[2];
  }

  lemma CategoryIsRead(c: Category)
    ensures ParseCategory(CategoryName(c)) == Some(c)
  {
    assert Lit("machine")[0] != Lit("contact")[0];
  }

  // ---------- writing ----------

  function OptionalField(key: Str, value: Option<Str>): seq<Member> {
    match value
    case None => []
    case Some(s) => [Member(key, String(s))]
  }

  function MessageJson(m: Message): Json {
    Object([Member(Lit("role"), String(RoleName(m.role))), Member(Lit("content"), String(m.content))]
           + OptionalField(Lit("timestamp"), m.timestamp))
  }

  function FlagJson(f: ActiveFlag): Json {
    Object([Member(Lit("flagId"), String(f.flagId)), Member(Lit("type"), String(FlagTypeName(f.flagType))),
            Member(Lit("content"), String(f.content)), Member(Lit("raisedAt"), String(f.raisedAt)),
            Member(Lit("acknowledged"), Bool(f.acknowledged))])
  }

  function ItemJson(i: OpenItem): Json {
    Object([Member(Lit("itemId"), String(i.itemId)), Member(Lit("category"), String(CategoryName(i.category))),
            Member(Lit("content"), String(i.content)), Member(Lit("priority"), Num(i.priority)),
            Member(Lit("isPush"), Bool(i.isPush))])
  }

  function MachineJson(m: MachineRef): Json {
    Object([Member(Lit("position"), Num(m.position)), Member(Lit("name"), String(m.name))]
           + OptionalField(Lit("serialNumber"), m.serialNumber))
  }

  function ConsistJson(c: Option<ConsistContext>): Json {
    match c
    case None => Null
    case Some(x) =>
      Object([Member(Lit("consistId"), String(x.consistId)),
              Member(Lit("relevantMachines"), Array(Map(x.relevantMachines, MachineJson)))])
  }

  function StateMembers(s: SessionState): seq<Member> {
    [Member(Lit("sessionId"), String(s.sessionId)),
     Member(Lit("userId"), String(s.userId)),
     Member(Lit("editionId"), String(s.editionId)),
     Member(Lit("openedAt"), String(s.openedAt)),
     Member(Lit("lastInteractionAt"), String(s.lastInteractionAt)),
     Member(Lit("conversationHistory"), Array(Map(s.conversationHistory, MessageJson))),
     Member(Lit("activeFlags"), Array(Map(s.activeFlags, FlagJson))),
     Member(Lit("openItems"), Array(Map(s.openItems, ItemJson))),
     Member(Lit("consistContext"), ConsistJson(s.consistContext)),
     Member(Lit("isFromLogReplay"), Bool(s.isFromLogReplay))]
  }

  /** The state_json that `updateStateObject` stores. */
  function Serialize(s: SessionState): Str {
    Print(Object(StateMembers(s)))
  }

  // ---------- the validating reader ----------

  function ParseMessage(v: Json): Option<Message> {
    match ToRecord(v)
    case None => None
    case Some(r) =>
      match (ExtractString(r, Lit("role")), ExtractString(r, Lit("content")))
      case (Some(role), Some(content)) =>
        if ParseRole(role).None? then None
        else Some(Message(ParseRole(role).value, content, ExtractString(r, Lit("timestamp"))))
      case (_, _) => None
  }

  function ParseActiveFlag(v: Json): Option<ActiveFlag> {
    match ToRecord(v)
    case None => None
    case Some(r) =>
      match (ExtractString(r, Lit("flagId")), ExtractString(r, Lit("type")), ExtractString(r, Lit("content")),
             ExtractString(r, Lit("raisedAt")), ExtractBoolean(r, Lit("acknowledged")))
      case (Some(id), Some(t), Some(content), Some(at), Some(ack)) =>
        if ParseFlagType(t).None? then None else Some(ActiveFlag(id, ParseFlagType(t).value, content, at, ack))
      case (_, _, _, _, _) => None
  }

  function ParseOpenItem(v: Json): Option<OpenItem> {
    match ToRecord(v)
    case None => None
    case Some(r) =>
      match (ExtractString(r, Lit("itemId")), ExtractString(r, Lit("category")), ExtractString(r, Lit("content")),
             ExtractNumber(r, Lit("priority")), ExtractBoolean(r, Lit("isPush")))
      case (Some(id), Some(c), Some(content), Some(priority), Some(push)) =>
        if ParseCategory(c).None? then None else Some(OpenItem(id, ParseCategory(c).value, content, priority, push))
      case (_, _, _, _, _) => None
  }

  function ParseMachineRef(v: Json): Option<MachineRef> {
    match ToRecord(v)
    case None => None
    case Some(r) =>
      match (ExtractNumber(r, Lit("position")), ExtractString(r, Lit("name")))
      case (Some(position), Some(name)) => Some(MachineRef(position, name, ExtractString(r, Lit("serialNumber"))))
      case (_, _) => None
  }

  /** `null` reads as no consist; anything malformed as `None`. */
  function ParseConsistContext(v: Json): Option<Option<ConsistContext>> {
    if v.Null? then Some(None)
    else match ToRecord(v)
      case None => None
      case Some(r) =>
        match (ExtractString(r, Lit("consistId")), ExtractArray(r, Lit("relevantMachines")))
        case (Some(id), Some(values)) =>
          (match ParseAll(values, ParseMachineRef)
           case None => None
           case Some(machines) => Some(Some(ConsistContext(id, machines))))
        case (_, _) => None
  }

  function ParseList<T>(members: seq<Member>, key: Str, parse: Json -> Option<T>): Option<seq<T>> {
    match ExtractArray(members, key)
    case None => None
    case Some(values) => ParseAll(values, parse)
  }

  function ParseConsistField(members: seq<Member>): Option<Option<ConsistContext>> {
    match Get(members, Lit("consistContext"))
    case None => None
    case Some(v) => ParseConsistContext(v)
  }

  function ParseState(r: seq<Member>): Option<SessionState> {
    var id, user, edition := ExtractString(r, Lit("sessionId")), ExtractString(r, Lit("userId")), ExtractString(r, Lit("editionId"));
    var openedAt, last := ExtractString(r, Lit("openedAt")), ExtractString(r, Lit("lastInteractionAt"));
    var history := ParseList(r, Lit("conversationHistory"), ParseMessage);
    var flags := ParseList(r, Lit("activeFlags"), ParseActiveFlag);
    var items := ParseList(r, Lit("openItems"), ParseOpenItem);
    var consist := ParseConsistField(r);
    var replay := ExtractBoolean(r, Lit("isFromLogReplay"));
    if id.None? || user.None? || edition.None? || openedAt.None? || last.None? || history.None? || flags.None?
       || items.None? || consist.None? || replay.None? then None
    else Some(SessionState(id.value, user.value, edition.value, openedAt.value, last.value, history.value, flags.value,
                           items.value, consist.value, replay.value))
  }

  /** `parseCachedState`; `None` is a cache miss. */
  function ParseCachedState(stateJson: Str): Option<SessionState> {
    match Parse(stateJson)
    case None => None
    case Some(v) => match ToRecord(v) case None => None case Some(r) => ParseState(r)
  }

  // ---------- what is written is read back ----------

  predicate DistinctKeys(members: seq<Member>) {
    forall i, j :: 0 <= i < j < |members| ==> members[i].key != members[j].key
  }

  lemma {:induction false} GetAbsent(members: seq<Member>, key: Str)
    requires forall i :: 0 <= i < |members| ==> members[i].key != key
    ensures Get(members, key) == None
  {
    if members != [] { GetAbsent(members[1..], key); }
  }

  lemma {:induction false} GetAt(members: seq<Member>, i: nat)
    requires DistinctKeys(members) && i < |members|
    ensures Get(members, members[i].key) == Some(members[i].value)
  {
    if i == 0 {
      GetAbsent(members[1..], members[0].key);
    } else {
      GetAt(members[1..], i - 1);
    }
  }

  lemma {:induction false} ParseAllReads<T>(values: seq<Json>, items: seq<T>, parse: Json -> Option<T>)
    requires |values| == |items| && forall i :: 0 <= i < |items| ==> parse(values[i]) == Some(items[i])
    ensures ParseAll(values, parse) == Some(items)
  {
    if values != [] {
      ParseAllReads(values[1..], items[1..], parse);
      assert [items[0]] + items[1..] == items;
    }
  }

  lemma MessageIsRead(m: Message)
    ensures ParseMessage(MessageJson(m)) == Some(m)
  {
    hide Get, Lit, RoleName, ParseRole;
    RoleIsRead(m.role);
    var r := MessageJson(m).members;
    MessageKeys();
    assert r[0].key == Lit("role") && r[1].key == Lit("content");
    GetAt(r, 0);
    GetAt(r, 1);
    if m.timestamp.Some? { GetAt(r, 2); } else { GetAbsent(r, Lit("timestamp")); }
  }

  lemma MessageKeys()
    ensures |Lit("role")| == 4 && |Lit("content")| == 7 && |Lit("timestamp")| == 9
  {
  }

  lemma FlagIsRead(f: ActiveFlag)
    ensures ParseActiveFlag(FlagJson(f)) == Some(f)
  {
    hide Get, FlagTypeName, ParseFlagType;
    FlagTypeIsRead(f.flagType);
    var r := FlagJson(f).members;
    GetAt(r, 0);
    GetAt(r, 1);
    GetAt(r, 2);
    GetAt(r, 3);
    GetAt(r, 4);
  }

  lemma ItemKeysDiffer(i: OpenItem)
    ensures DistinctKeys(ItemJson(i).members)
  {
    hide CategoryName;
    assert Lit("itemId")[1] == 116 && Lit("isPush")[1] == 115;
    assert Lit("category")[0] == 99 && Lit("priority")[0] == 112;
  }

  lemma ItemIsRead(i: OpenItem)
    ensures ParseOpenItem(ItemJson(i)) == Some(i)
  {
    hide Get, CategoryName, ParseCategory, Lit, DistinctKeys;
    CategoryIsRead(i.category);
    ItemKeysDiffer(i);
    var r := ItemJson(i).members;
    GetAt(r, 0);
    GetAt(r, 1);
    GetAt(r, 2);
    GetAt(r, 3);
    GetAt(r, 4);
  }

  lemma MachineIsRead(m: MachineRef)
    ensures ParseMachineRef(MachineJson(m)) == Some(m)
  {
    hide Get;
    var r := MachineJson(m).members;
    GetAt(r, 0);
    GetAt(r, 1);
    if m.serialNumber.Some? { GetAt(r, 2); } else { GetAbsent(r, Lit("serialNumber")); }
  }

  lemma ConsistIsRead(c: Option<ConsistContext>)
    ensures ParseConsistContext(ConsistJson(c)) == Some(c)
  {
    hide Get, ParseMachineRef, MachineJson;
    if c.Some? {
      var r := ConsistJson(c).members;
      GetAt(r, 0);
      GetAt(r, 1);
      var machines := c.value.relevantMachines;
      forall i | 0 <= i < |machines| ensures ParseMachineRef(Map(machines, MachineJson)[i]) == Some(machines[i]) {
        MachineIsRead(machines[i]);
      }
      ParseAllReads(Map(machines, MachineJson), machines, ParseMachineRef);
    }
  }

  lemma StateKeysDiffer(s: SessionState)
    ensures DistinctKeys(StateMembers(s))
  {
    hide Map, MessageJson, FlagJson, ItemJson, ConsistJson;
    assert Lit("sessionId")[0] == 115 && Lit("editionId")[0] == 101 && Lit("openItems")[0] == 111;
  }

  lemma FieldsAreRead(s: SessionState)
    ensures var r := StateMembers(s);
      && Get(r, Lit("sessionId")) == Some(String(s.sessionId))
      && Get(r, Lit("userId")) == Some(String(s.userId))
      && Get(r, Lit("editionId")) == Some(String(s.editionId))
      && Get(r, Lit("openedAt")) == Some(String(s.openedAt))
      && Get(r, Lit("lastInteractionAt")) == Some(String(s.lastInteractionAt))
      && Get(r, Lit("conversationHistory")) == Some(Array(Map(s.conversationHistory, MessageJson)))
      && Get(r, Lit("activeFlags")) == Some(Array(Map(s.activeFlags, FlagJson)))
      && Get(r, Lit("openItems")) == Some(Array(Map(s.openItems, ItemJson)))
      && Get(r, Lit("consistContext")) == Some(ConsistJson(s.consistContext))
      && Get(r, Lit("isFromLogReplay")) == Some(Bool(s.isFromLogReplay))
  {
    hide Get, MessageJson, FlagJson, ItemJson, ConsistJson, Map, DistinctKeys, Lit;
    var r := StateMembers(s);
    StateKeysDiffer(s);
    GetAt(r, 0);
    GetAt(r, 1);
    GetAt(r, 2);
    GetAt(r, 3);
    GetAt(r, 4);
    GetAt(r, 5);
    GetAt(r, 6);
    GetAt(r, 7);
    GetAt(r, 8);
    GetAt(r, 9);
  }

  lemma ListIsRead<T>(members: seq<Member>, key: Str, items: seq<T>, json: T -> Json, parse: Json -> Option<T>)
    requires Get(members, key) == Some(Array(Map(items, json)))
    requires forall i :: 0 <= i < |items| ==> parse(json(items[i])) == Some(items[i])
    ensures ParseList(members, key, parse) == Some(items)
  {
    hide Get;
    ParseAllReads(Map(items, json), items, parse);
  }

  /** A state saved to the cache is loaded as it was, whatever texts it holds and whichever
      optional fields are absent. */
  lemma CacheRoundTrip(s: SessionState)
    ensures ParseCachedState(Serialize(s)) == Some(s)
  {
    hide Get, StateMembers, Lit, MessageJson, FlagJson, ItemJson, ConsistJson, ParseMessage, ParseActiveFlag,
      ParseOpenItem, ParseConsistContext, ParseList, Print, Parse;
    var r := StateMembers(s);
    ParseOfPrint(Object(r));
    FieldsAreRead(s);
    forall i | 0 <= i < |s.conversationHistory|
      ensures ParseMessage(MessageJson(s.conversationHistory[i])) == Some(s.conversationHistory[i])
    {
      MessageIsRead(s.conversationHistory[i]);
    }
    ListIsRead(r, Lit("conversationHistory"), s.conversationHistory, MessageJson, ParseMessage);
    forall i | 0 <= i < |s.activeFlags| ensures ParseActiveFlag(FlagJson(s.activeFlags[i])) == Some(s.activeFlags[i]) {
      FlagIsRead(s.activeFlags[i]);
    }
    ListIsRead(r, Lit("activeFlags"), s.activeFlags, FlagJson, ParseActiveFlag);
    forall i | 0 <= i < |s.openItems| ensures ParseOpenItem(ItemJson(s.openItems[i])) == Some(s.openItems[i]) {
      ItemIsRead(s.openItems[i]);
    }
    ListIsRead(r, Lit("openItems"), s.openItems, ItemJson, ParseOpenItem);
    ConsistIsRead(s.consistContext);
  }

  /** Two states are cached alike only when they are the same. */
  lemma CacheTellsStatesApart(s: SessionState, t: SessionState)
    requires Serialize(s) == Serialize(t)
    ensures s == t
  {
    hide Serialize, ParseCachedState;
    CacheRoundTrip(s);
    CacheRoundTrip(t);
  }
}
