/** The pure rules of backend/src/db/mapping/dalConstraints.ts on deduplication and key expiry,
    and how the gates meet them when they run one after another. */
module DedupRules {
  import opened Text
  import opened Faults
  import opened IsoTime
  import opened Idempotency
  import CH = ContentHash

  // ---------- decideDedup ----------

  datatype Candidate = Candidate(contentHash: Str, createdAt: Str)

  datatype Decision = Store | Suppress(duplicateOf: Candidate)

  /** The scan of `decideDedup`; `None` is its throw on a timestamp it cannot parse. */
  function Search(hash: Str, ms: int, existing: seq<Candidate>): Option<Decision> {
    if existing == [] then Some(Store)
    else if existing[0].contentHash != hash then Search(hash, ms, existing[1..])
    else match ParseIso(existing[0].createdAt)
      case None => None
      case Some(t) =>
        if 0 <= ms - t <= DEDUP_WINDOW_MS then Some(Suppress(existing[0])) else Search(hash, ms, existing[1..])
  }

  function DecideDedup(incoming: Candidate, existing: seq<Candidate>): Option<Decision> {
    match ParseIso(incoming.createdAt)
    case None => None
    case Some(ms) => Search(incoming.contentHash, ms, existing)
  }

  /** The content-hash keys of a table as candidates. */
  function Candidates(rows: seq<KeyRow>): seq<Candidate> {
    if rows == [] then []
    else if rows[0].keyType == ContentHashKey then
      [Candidate(rows[0].keyValue, rows[0].firstSeenAt)] + Candidates(rows[1..])
    else Candidates(rows[1..])
  }

  /** The instant a text written by the gates stands for. */
  function TimeOf(text: Str): int {
    match ParseIso(text)
    case None => 0
    case Some(t) => t
  }

  /** A text of `toISOString` in the years 0 to 9999. */
  predicate Stamp(text: Str) {
    ParseIso(text).Some? && IsTime(TimeOf(text)) && FourDigit(Year(TimeOf(text))) && text == Iso(TimeOf(text))
  }

  predicate Stamped(rows: seq<KeyRow>) {
    forall a :: 0 <= a < |rows| ==> Stamp(rows[a].firstSeenAt)
  }

  lemma StampOfIso(t: int)
    requires IsTime(t) && FourDigit(Year(t))
    ensures Stamp(Iso(t)) && TimeOf(Iso(t)) == t
  {
    hide Iso, ParseIso, Year;
    ParseOfIso(t);
  }

  /** Text order and time order agree when the second instant is in the years 0 to 9999 and the
      first not beyond them. */
  lemma TextCompare(s: int, t: int)
    requires IsTime(s) && IsTime(t) && FourDigit(Year(t)) && Year(s) <= 9999
    ensures LexLe(Iso(s), Iso(t)) <==> s <= t
  {
    hide LexLe, Iso, Year;
    LexLeReflexive(Iso(s));
    if s < t {
      TextOrder(s, t);
    } else if t < s {
      TextOrder(t, s);
      YearIsMonotone(t, s);
    }
  }

  /** Whether a key is of this hash and at most ten minutes older than `now`. */
  predicate Recent(r: KeyRow, hash: Str, now: int) {
    r.keyType == ContentHashKey && r.keyValue == hash && 0 <= now - TimeOf(r.firstSeenAt) <= DEDUP_WINDOW_MS
  }

  /** The window of the SELECT, compared as text, is the window of `decideDedup`, compared in
      milliseconds. */
  lemma WindowIsRecent(r: KeyRow, hash: Str, now: int)
    requires IsTime(now) && IsTime(now - DEDUP_WINDOW_MS) && FourDigit(Year(now))
    ensures Stamp(r.firstSeenAt) ==> (InWindow(r, hash, Iso(now - DEDUP_WINDOW_MS), Iso(now)) <==> Recent(r, hash, now))
  {
    hide LexLe, Iso, Year, ParseIso;
    if !Stamp(r.firstSeenAt) { return; }
    var t := TimeOf(r.firstSeenAt);
    YearIsMonotone(now - DEDUP_WINDOW_MS, now);
    TextCompare(now - DEDUP_WINDOW_MS, t);
    TextCompare(t, now);
  }

  predicate Names(d: Decision, r: KeyRow, hash: Str, now: int) {
    d == Suppress(Candidate(hash, r.firstSeenAt)) && Recent(r, hash, now)
  }

  lemma {:induction false} SearchFinds(rows: seq<KeyRow>, hash: Str, now: int)
    requires Stamped(rows)
    ensures var d := Search(hash, now, Candidates(rows));
      && d.Some?
      && (d.value.Store? ==> forall a :: 0 <= a < |rows| ==> !Recent(rows[a], hash, now))
      && (d.value.Suppress? ==> exists a :: 0 <= a < |rows| && Names(d.value, rows[a], hash, now))
  {
    hide ParseIso, Iso, Year;
    if rows != [] {
      var rest, r := rows[1..], rows[0];
      assert forall a :: 1 <= a < |rows| ==> rows[a] == rest[a-1];
      assert Stamped(rest) by {
        forall a | 0 <= a < |rest| ensures Stamp(rest[a].firstSeenAt) {
          assert rest[a] == rows[a+1];
        }
      }
      SearchFinds(rest, hash, now);
      if r.keyType == ContentHashKey {
        var c := Candidate(r.keyValue, r.firstSeenAt);
        assert Candidates(rows)[0] == c && Candidates(rows)[1..] == Candidates(rest);
      }
      if Recent(r, hash, now) {
        assert Names(Search(hash, now, Candidates(rows)).value, rows[0], hash, now);
      } else {
        assert Search(hash, now, Candidates(rows)) == Search(hash, now, Candidates(rest));
      }
    }
  }

  /** A content-hash check planned at `now`. */
  function PlannedAt(c: Check, now: int): Check
    requires c.plan.HashPlan? && IsTime(now) && IsTime(now - DEDUP_WINDOW_MS)
  {
    c.(plan := c.plan.(firstSeenAt := Iso(now), windowStartAt := Iso(now - DEDUP_WINDOW_MS)))
  }

  /** What `decideDedup` says of the message of a check, and what its gate does, agree. */
  predicate Agree(d: Option<Decision>, p: Phase) {
    d.Some? && p.Done? && (p.outcome.Duplicate? <==> d.value.Suppress?) && (p.outcome.Novel? <==> d.value.Store?)
  }

  /** Run with no statement in between, the content-hash gate suppresses a message exactly when
      `decideDedup` does, on any table whose stamps are in the years 0 to 9999; and `decideDedup`
      throws on none of them. */
  lemma GateRefinesDecideDedup(rows: seq<KeyRow>, c: Check, now: int)
    requires c.plan.HashPlan? && IsTime(now) && IsTime(now - DEDUP_WINDOW_MS) && FourDigit(Year(now))
    ensures Stamped(rows) && !Taken(rows, c.uuid) ==>
      Agree(DecideDedup(Candidate(c.plan.keyValue, Iso(now)), Candidates(rows)), Execute(rows, PlannedAt(c, now), Works, Works).1)
  {
    hide InWindow, SelectWindow, Iso, ParseIso, Year, Search;
    var plan := PlannedAt(c, now).plan;
    if Stamped(rows) {
      StampOfIso(now);
      SearchFinds(rows, plan.keyValue, now);
      SelectWindowIsFirst(rows, plan.keyValue, plan.windowStartAt, plan.firstSeenAt);
      forall a | 0 <= a < |rows|
        ensures InWindow(rows[a], plan.keyValue, plan.windowStartAt, plan.firstSeenAt) <==> Recent(rows[a], plan.keyValue, now)
      {
        WindowIsRecent(rows[a], plan.keyValue, now);
      }
    }
  }

  /** If a race left more than one key of a hash in the window, the latest one absorbs the
      duplicate, the smallest id among several of one instant. */
  lemma MostRecentAbsorbs(rows: seq<KeyRow>, hash: Str, now: int, a: nat)
    requires IsTime(now) && IsTime(now - DEDUP_WINDOW_MS) && FourDigit(Year(now)) && a < |rows|
    ensures Stamped(rows) && Recent(rows[a], hash, now) ==>
      var m := SelectWindow(rows, hash, Iso(now - DEDUP_WINDOW_MS), Iso(now));
      && m.Some? && Recent(m.value, hash, now) && TimeOf(rows[a].firstSeenAt) <= TimeOf(m.value.firstSeenAt)
      && (TimeOf(rows[a].firstSeenAt) == TimeOf(m.value.firstSeenAt) ==> LexLe(m.value.id, rows[a].id))
  {
    hide InWindow, SelectWindow, Iso, ParseIso, Year, LexLe, TimeOf;
    var from, to := Iso(now - DEDUP_WINDOW_MS), Iso(now);
    if Stamped(rows) && Recent(rows[a], hash, now) {
      SelectWindowIsFirst(rows, hash, from, to);
      WindowIsRecent(rows[a], hash, now);
      var m := SelectWindow(rows, hash, from, to).value;
      var b :| 0 <= b < |rows| && rows[b] == m;
      WindowIsRecent(rows[b], hash, now);
      YearIsMonotone(TimeOf(m.firstSeenAt), now);
      TextCompare(TimeOf(rows[a].firstSeenAt), TimeOf(m.firstSeenAt));
    }
  }

  // ---------- the clocks the text comparison is right for ----------

  /** The window of the SELECT at `now` holds a key exactly when it is recent, whenever the key was
      first seen. */
  ghost predicate ExactAt(r: KeyRow, now: int)
    requires IsTime(now) && IsTime(now - DEDUP_WINDOW_MS)
  {
    forall t :: IsTime(t) ==> RightFor(r, now, t)
  }

  predicate RightFor(r: KeyRow, now: int, t: int)
    requires IsTime(now) && IsTime(now - DEDUP_WINDOW_MS) && IsTime(t)
  {
    InWindow(r.(firstSeenAt := Iso(t)), r.keyValue, Iso(now - DEDUP_WINDOW_MS), Iso(now))
    <==> Recent(r.(firstSeenAt := Iso(t)), r.keyValue, now)
  }

  /** The whole window lies in one year, in the years 0 to 9999, or beyond them. */
  predicate GoodClock(now: int)
    requires IsTime(now) && IsTime(now - DEDUP_WINDOW_MS)
  {
    var y, z := Year(now - DEDUP_WINDOW_MS), Year(now);
    y == z || (FourDigit(y) && FourDigit(z)) || (y > 9999 && z > 9999)
  }

  /** The text of `t` lies between those of two instants. */
  predicate Between(from: int, t: int, to: int)
    requires IsTime(from) && IsTime(t) && IsTime(to)
  {
    LexLe(Iso(from), Iso(t)) && LexLe(Iso(t), Iso(to))
  }

  lemma RightForIff(r: KeyRow, now: int, t: int)
    requires IsTime(now) && IsTime(now - DEDUP_WINDOW_MS) && IsTime(t) && r.keyType == ContentHashKey
    ensures RightFor(r, now, t) <==> (Between(now - DEDUP_WINDOW_MS, t, now) <==> now - DEDUP_WINDOW_MS <= t <= now)
  {
    hide LexLe, Iso, ParseIso;
    ParseOfIso(t);
  }

  /** How the texts of two instants compare, from their years alone. */
  lemma LexLeIff(a: int, b: int)
    requires IsTime(a) && IsTime(b)
    ensures LexLe(Iso(a), Iso(b)) <==>
      a == b || (if a < b then FourDigit(Year(b)) || Year(a) > 9999 || Year(a) == Year(b)
                 else !(FourDigit(Year(a)) || Year(b) > 9999 || Year(a) == Year(b)))
  {
    hide LexLe, Iso, Year;
    LexLeReflexive(Iso(a));
    if a < b { TextOrder(a, b); }
    if b < a { TextOrder(b, a); }
  }

  lemma GoodClockIsRight(now: int, t: int)
    requires IsTime(now) && IsTime(now - DEDUP_WINDOW_MS) && IsTime(t) && GoodClock(now)
    ensures Between(now - DEDUP_WINDOW_MS, t, now) <==> now - DEDUP_WINDOW_MS <= t <= now
  {
    hide LexLe, Iso, Year;
    var from := now - DEDUP_WINDOW_MS;
    LexLeIff(from, t);
    LexLeIff(t, now);
    YearIsMonotone(from, now);
    if t <= from { YearIsMonotone(t, from); } else { YearIsMonotone(from, t); }
    if t <= now { YearIsMonotone(t, now); } else { YearIsMonotone(now, t); }
  }

  /** An instant more than a year back falls in an earlier year. */
  lemma YearBack(a: int)
    requires IsTime(a) && IsTime(a - 366 * DAY_MS)
    ensures Year(a - 366 * DAY_MS) < Year(a)
  {
    hide YearFrom, DayFromYear;
    var b := a - 366 * DAY_MS;
    assert b / DAY_MS == a / DAY_MS - 366;
    if Year(b) >= Year(a) {
      YearIsMonotone(b, a);
      assert false;
    }
  }

  /** At any other clock some key is taken wrongly: if the window reaches back from year 0, one
      more than a year older; else the one at its start. */
  lemma BadClockIsWrong(now: int) returns (t: int)
    requires IsTime(now) && IsTime(now - DEDUP_WINDOW_MS) && !GoodClock(now)
    ensures IsTime(t) && !(Between(now - DEDUP_WINDOW_MS, t, now) <==> now - DEDUP_WINDOW_MS <= t <= now)
  {
    hide LexLe, Iso, Year;
    var from := now - DEDUP_WINDOW_MS;
    YearIsMonotone(from, now);
    t := from;
    if FourDigit(Year(now)) {
      NotTheFirstYear(from, now);
      t := from - 366 * DAY_MS;
      YearBack(from);
    }
    LexLeIff(from, t);
    LexLeIff(t, now);
  }

  lemma NotTheFirstYear(from: int, now: int)
    requires IsTime(from) && IsTime(now) && from == now - DEDUP_WINDOW_MS && Year(now) >= 0
    ensures IsTime(from - 366 * DAY_MS)
  {
    hide YearFrom;
    YearsAscend(0, Year(now));
  }

  /** The text window is the time window for keys first seen at any instant exactly at the clocks
      whose ten minutes lie in one year, within the years 0 to 9999, or beyond them. */
  lemma ExactClocks(r: KeyRow, now: int)
    requires IsTime(now) && IsTime(now - DEDUP_WINDOW_MS) && r.keyType == ContentHashKey
    ensures ExactAt(r, now) <==> GoodClock(now)
  {
    hide Between, RightFor, GoodClock;
    if GoodClock(now) {
      forall t | IsTime(t) ensures RightFor(r, now, t) {
        GoodClockIsRight(now, t);
        RightForIff(r, now, t);
      }
    } else {
      var t := BadClockIsWrong(now);
      RightForIff(r, now, t);
    }
  }

  /** The gate at `now` and `decideDedup` agree on a table of one key of the hash first seen at `t`. */
  predicate AgreeOn(c: Check, r: KeyRow, now: int, t: int)
    requires c.plan.HashPlan? && IsTime(now) && IsTime(now - DEDUP_WINDOW_MS) && IsTime(t)
  {
    var row := r.(firstSeenAt := Iso(t));
    Agree(DecideDedup(Candidate(c.plan.keyValue, Iso(now)), Candidates([row])),
          Execute([row], PlannedAt(c, now), Works, Works).1)
  }

  lemma AgreeOnIff(c: Check, r: KeyRow, now: int, t: int)
    requires c.plan.HashPlan? && IsTime(now) && IsTime(now - DEDUP_WINDOW_MS) && IsTime(t)
    requires r.keyType == ContentHashKey && r.keyValue == c.plan.keyValue && r.id != c.uuid
    ensures AgreeOn(c, r, now, t) <==> RightFor(r, now, t)
  {
    hide Iso, ParseIso, LexLe;
    ParseOfIso(t);
    ParseOfIso(now);
    var row, plan := r.(firstSeenAt := Iso(t)), PlannedAt(c, now).plan;
    assert [row][1..] == [];
    assert !Taken([row], c.uuid);
    assert SelectWindow([row], plan.keyValue, plan.windowStartAt, plan.firstSeenAt).Some?
      <==> InWindow(row, plan.keyValue, plan.windowStartAt, plan.firstSeenAt);
    var k := Candidate(row.keyValue, row.firstSeenAt);
    assert Candidates([row]) == [k] && [k][1..] == [];
    assert Search(c.plan.keyValue, now, []) == Some(Store) && TimeOf(Iso(t)) == t;
    assert Search(c.plan.keyValue, now, [k])
      == Some(if Recent(row, row.keyValue, now) then Suppress(k) else Store);
    var p := Execute([row], PlannedAt(c, now), Works, Works).1;
    assert p.Done? && !p.outcome.Error? && (p.outcome.Duplicate? <==> SelectWindow([row], plan.keyValue, plan.windowStartAt, plan.firstSeenAt).Some?);
  }

  /** So the gate keeps to `decideDedup`, for a key first seen at any instant, exactly at those
      clocks. */
  lemma GateExactClocks(c: Check, r: KeyRow, now: int)
    requires c.plan.HashPlan? && IsTime(now) && IsTime(now - DEDUP_WINDOW_MS)
    requires r.keyType == ContentHashKey && r.keyValue == c.plan.keyValue && r.id != c.uuid
    ensures (forall t :: IsTime(t) ==> AgreeOn(c, r, now, t)) <==> GoodClock(now)
  {
    hide AgreeOn, RightFor, GoodClock;
    ExactClocks(r, now);
    forall t | IsTime(t) ensures AgreeOn(c, r, now, t) <==> RightFor(r, now, t) {
      AgreeOnIff(c, r, now, t);
    }
  }

  // ---------- one message after another ----------

  /** A message checked at `now` with the id drawn for it, and linked if `message` is there; what
      befalls the two statements of its gate. */
  datatype Visit = Visit(input: Input, now: int, uuid: Str, message: Option<Str>, first: Fault, second: Fault)

  /** A visit whose plan throws leaves the table alone. */
  function Handle(digest: seq<CH.Byte> -> Str, rows: seq<KeyRow>, v: Visit): seq<KeyRow> {
    match PlanCheck(digest, v.input, v.now)
    case None => rows
    case Some(plan) =>
      var (after, p) := Execute(rows, Check(plan, v.uuid), v.first, v.second);
      if IsNovel(p) && v.message.Some? then SetLink(after, v.uuid, v.message.value) else after
  }

  function After(digest: seq<CH.Byte> -> Str, history: seq<Visit>): seq<KeyRow> {
    if history == [] then []
    else Handle(digest, After(digest, history[..|history|-1]), history[|history|-1])
  }

  predicate Dated(history: seq<Visit>) {
    forall a :: 0 <= a < |history| ==> IsTime(history[a].now) && FourDigit(Year(history[a].now))
  }

  /** A gate adds its row or nothing, and a content-hash gate only if its SELECT found none. */
  lemma ExecuteAdds(rows: seq<KeyRow>, c: Check, first: Fault, second: Fault)
    ensures var after := Execute(rows, c, first, second).0;
      || after == rows
      || (after == rows + [NewKeyRow(c)]
          && (c.plan.HashPlan? ==> SelectWindow(rows, c.plan.keyValue, c.plan.windowStartAt, c.plan.firstSeenAt).None?))
  {
    hide SelectWindow, FindKey, NewKeyRow, Taken;
  }

  lemma PlannedRow(digest: seq<CH.Byte> -> Str, v: Visit)
    ensures var plan := PlanCheck(digest, v.input, v.now);
      plan.Some? ==>
        var r := NewKeyRow(Check(plan.value, v.uuid));
        && IsTime(v.now) && r.firstSeenAt == Iso(v.now)
        && (r.keyType == ContentHashKey <==> plan.value.HashPlan?) && r.keyValue == plan.value.keyValue
  {
    hide Iso, CH.ComputeContentHash;
  }

  /** What a visit adds: nothing, or the new row of its plan. Links aside. */
  lemma HandleAdds(digest: seq<CH.Byte> -> Str, rows: seq<KeyRow>, v: Visit)
    ensures var more := Handle(digest, rows, v);
      Extends(rows, more) && (|more| == |rows| || (|more| == |rows| + 1 && IsTime(v.now) && more[|rows|].firstSeenAt == Iso(v.now)))
    ensures var more := Handle(digest, rows, v);
      |more| == |rows| + 1 && more[|rows|].keyType == ContentHashKey ==>
        var plan := PlanCheck(digest, v.input, v.now).value;
        && plan.HashPlan? && more[|rows|].keyValue == plan.keyValue
        && SelectWindow(rows, plan.keyValue, plan.windowStartAt, plan.firstSeenAt).None?
  {
    hide SelectWindow, Execute, NewKeyRow, PlanCheck, Iso;
    PlannedRow(digest, v);
    var plan := PlanCheck(digest, v.input, v.now);
    if plan.Some? { ExecuteAdds(rows, Check(plan.value, v.uuid), v.first, v.second); }
  }

  /** A novel message that is linked leaves its new row pointing at it. */
  lemma NovelIsLinked(digest: seq<CH.Byte> -> Str, rows: seq<KeyRow>, v: Visit)
    ensures var more, plan := Handle(digest, rows, v), PlanCheck(digest, v.input, v.now);
      plan.Some? && v.message.Some? && IsNovel(Execute(rows, Check(plan.value, v.uuid), v.first, v.second).1) ==>
        |more| == |rows| + 1 && more[|rows|].id == v.uuid && more[|rows|].linkedMessageId == v.message
  {
    hide SelectWindow, FindKey, Taken, PlanCheck;
  }

  lemma {:induction false} EveryStampIsWritten(digest: seq<CH.Byte> -> Str, history: seq<Visit>)
    requires Dated(history)
    ensures Stamped(After(digest, history))
  {
    hide Handle, Stamp, Iso, Year;
    if history != [] {
      var rest, v := history[..|history|-1], history[|history|-1];
      EveryStampIsWritten(digest, rest);
      var rows, more := After(digest, rest), After(digest, history);
      HandleAdds(digest, rows, v);
      StampOfIso(v.now);
      forall a | 0 <= a < |more| ensures Stamp(more[a].firstSeenAt) {
        if a < |rows| { assert Core(more[a]).firstSeenAt == Core(rows[a]).firstSeenAt; }
      }
    }
  }

  /** After any history of messages, whatever the clock did, the gate's verdict on the next one
      without a provider message id is that of `decideDedup` on the keys stored so far. */
  lemma EveryHistoryRefines(digest: seq<CH.Byte> -> Str, history: seq<Visit>, v: Visit)
    requires Dated(history + [v])
    ensures var rows, plan := After(digest, history), PlanCheck(digest, v.input, v.now);
      plan.Some? && plan.value.HashPlan? && !Taken(rows, v.uuid) ==>
        Agree(DecideDedup(Candidate(plan.value.contentHash, Iso(v.now)), Candidates(rows)),
              Execute(rows, Check(plan.value, v.uuid), Works, Works).1)
  {
    hide DecideDedup, Execute, After, Iso, Year, PlanCheck, Taken, Agree;
    DatedParts(history, v);
    EveryStampIsWritten(digest, history);
    HashPlanTimes(digest, v.input, v.now);
    var plan := PlanCheck(digest, v.input, v.now);
    if plan.Some? && plan.value.HashPlan? {
      GateRefinesDecideDedup(After(digest, history), Check(plan.value, v.uuid), v.now);
    }
  }

  lemma DatedParts(history: seq<Visit>, v: Visit)
    requires Dated(history + [v])
    ensures Dated(history) && IsTime(v.now) && FourDigit(Year(v.now))
  {
    hide Year;
    assert (history + [v])[|history|] == v;
    forall a | 0 <= a < |history| ensures IsTime(history[a].now) && FourDigit(Year(history[a].now)) {
      assert (history + [v])[a] == history[a];
    }
  }

  /** The times of a content-hash plan. */
  lemma HashPlanTimes(digest: seq<CH.Byte> -> Str, input: Input, now: int)
    ensures var r := PlanCheck(digest, input, now);
      r.Some? && r.value.HashPlan? ==>
        var plan := r.value;
        && IsTime(now) && IsTime(now - DEDUP_WINDOW_MS) && plan.keyValue == plan.contentHash
        && plan.firstSeenAt == Iso(now) && plan.windowStartAt == Iso(now - DEDUP_WINDOW_MS)
  {
    hide Iso, CH.ComputeContentHash;
  }

  // ---------- a clock that does not go back ----------

  /** The clock never goes back, and has not passed `now`. */
  predicate Ascending(history: seq<Visit>, now: int) {
    && (forall a, b :: 0 <= a < b < |history| ==> history[a].now <= history[b].now)
    && (forall a :: 0 <= a < |history| ==> history[a].now <= now)
  }

  /** Two content-hash keys of one hash are more than ten minutes apart. */
  predicate Spaced(rows: seq<KeyRow>) {
    forall a, b :: 0 <= a < b < |rows| && rows[a].keyType == rows[b].keyType == ContentHashKey && rows[a].keyValue == rows[b].keyValue ==>
      TimeOf(rows[a].firstSeenAt) + DEDUP_WINDOW_MS < TimeOf(rows[b].firstSeenAt)
  }

  predicate Until(rows: seq<KeyRow>, now: int) {
    forall a :: 0 <= a < |rows| ==> TimeOf(rows[a].firstSeenAt) <= now
  }

  lemma SpacedStep(digest: seq<CH.Byte> -> Str, rows: seq<KeyRow>, v: Visit)
    requires Stamped(rows) && Spaced(rows) && Until(rows, v.now) && IsTime(v.now) && FourDigit(Year(v.now))
    ensures Spaced(Handle(digest, rows, v)) && Until(Handle(digest, rows, v), v.now)
  {
    hide Handle, Stamp, Iso, Year, SelectWindow, InWindow, TimeOf, CH.ComputeContentHash;
    var more := Handle(digest, rows, v);
    HandleAdds(digest, rows, v);
    StampOfIso(v.now);
    forall a | 0 <= a < |rows|
      ensures more[a].firstSeenAt == rows[a].firstSeenAt && more[a].keyType == rows[a].keyType && more[a].keyValue == rows[a].keyValue
    {
      assert Core(more[a]).firstSeenAt == Core(rows[a]).firstSeenAt && Core(more[a]).keyType == Core(rows[a]).keyType;
      assert Core(more[a]).keyValue == Core(rows[a]).keyValue;
    }
    if |more| == |rows| + 1 && more[|rows|].keyType == ContentHashKey {
      var plan := PlanCheck(digest, v.input, v.now).value;
      SelectWindowIsFirst(rows, plan.keyValue, plan.windowStartAt, plan.firstSeenAt);
      forall a | 0 <= a < |rows| && rows[a].keyType == ContentHashKey && rows[a].keyValue == plan.keyValue
        ensures TimeOf(rows[a].firstSeenAt) + DEDUP_WINDOW_MS < v.now
      {
        WindowIsRecent(rows[a], plan.keyValue, v.now);
      }
    }
  }

  /** With a clock that never goes back, two stored keys of one hash are always more than ten
      minutes apart. */
  lemma {:induction false} StoredKeysAreSpaced(digest: seq<CH.Byte> -> Str, history: seq<Visit>, now: int)
    requires Dated(history) && Ascending(history, now)
    ensures Spaced(After(digest, history)) && Until(After(digest, history), now)
  {
    hide Handle, Stamp, TimeOf, Iso, Year;
    if history != [] {
      var rest, v := history[..|history|-1], history[|history|-1];
      StoredKeysAreSpaced(digest, rest, v.now);
      EveryStampIsWritten(digest, rest);
      SpacedStep(digest, After(digest, rest), v);
    }
  }

  /** The gate, run after `history`, reports the message of `v` a content-hash duplicate of `id`. */
  predicate Duplicates(digest: seq<CH.Byte> -> Str, rows: seq<KeyRow>, v: Visit, id: Str) {
    var plan := PlanCheck(digest, v.input, v.now);
    plan.Some? && plan.value.HashPlan? &&
    var p := Execute(rows, Check(plan.value, v.uuid), Works, Works).1;
    p.Done? && p.outcome.Duplicate? && p.outcome.matchedKeyId == id
  }

  lemma DuplicateIsSelected(rows: seq<KeyRow>, c: Check)
    requires c.plan.HashPlan? && Execute(rows, c, Works, Works).1.Done? && Execute(rows, c, Works, Works).1.outcome.Duplicate?
    ensures var m := SelectWindow(rows, c.plan.keyValue, c.plan.windowStartAt, c.plan.firstSeenAt);
      m.Some? && m.value.id == Execute(rows, c, Works, Works).1.outcome.matchedKeyId
  {
    hide SelectWindow;
  }

  /** What the SELECT finds in a table of well-spaced keys is the only recent key of the hash and
      the one `decideDedup` names. */
  lemma SelectedIsTheSuppressor(rows: seq<KeyRow>, hash: Str, now: int, m: KeyRow) returns (a: nat)
    requires Stamped(rows) && Spaced(rows) && IsTime(now) && IsTime(now - DEDUP_WINDOW_MS) && FourDigit(Year(now))
    requires SelectWindow(rows, hash, Iso(now - DEDUP_WINDOW_MS), Iso(now)) == Some(m)
    ensures a < |rows| && rows[a] == m
    ensures DecideDedup(Candidate(hash, Iso(now)), Candidates(rows)) == Some(Suppress(Candidate(m.keyValue, m.firstSeenAt)))
    ensures forall b :: 0 <= b < |rows| && Recent(rows[b], hash, now) ==> b == a
  {
    hide Iso, Year, Search, SelectWindow, InWindow, Stamp, TimeOf, Spaced, Precedes;
    SelectWindowIsFirst(rows, hash, Iso(now - DEDUP_WINDOW_MS), Iso(now));
    SearchFinds(rows, hash, now);
    ParseOfIso(now);
    a :| 0 <= a < |rows| && rows[a] == m;
    WindowIsRecent(rows[a], hash, now);
    forall b | 0 <= b < |rows| && Recent(rows[b], hash, now) ensures b == a {
      OnlyOneRecent(rows, a, b, hash, now);
    }
  }

  /** Then the key a duplicate is matched with is the very one `decideDedup` names, and the only one
      of its hash in the ten minutes before. */
  lemma MatchIsTheSuppressor(digest: seq<CH.Byte> -> Str, history: seq<Visit>, v: Visit, id: Str) returns (a: nat)
    requires Dated(history + [v]) && Ascending(history, v.now)
    ensures var rows, plan := After(digest, history), PlanCheck(digest, v.input, v.now);
      Duplicates(digest, rows, v, id) ==>
        && a < |rows| && rows[a].id == id
        && DecideDedup(Candidate(plan.value.contentHash, Iso(v.now)), Candidates(rows))
           == Some(Suppress(Candidate(rows[a].keyValue, rows[a].firstSeenAt)))
        && forall b :: 0 <= b < |rows| && Recent(rows[b], plan.value.contentHash, v.now) ==> b == a
  {
    hide After, Iso, Year, PlanCheck, DecideDedup, SelectWindow, Stamped, Recent, Execute, Spaced;
    a := 0;
    var rows := After(digest, history);
    if Duplicates(digest, rows, v, id) {
      HashPlanTimes(digest, v.input, v.now);
      DatedParts(history, v);
      var plan := PlanCheck(digest, v.input, v.now).value;
      EveryStampIsWritten(digest, history);
      StoredKeysAreSpaced(digest, history, v.now);
      DuplicateIsSelected(rows, Check(plan, v.uuid));
      var m := SelectWindow(rows, plan.keyValue, plan.windowStartAt, plan.firstSeenAt).value;
      a := SelectedIsTheSuppressor(rows, plan.keyValue, v.now, m);
    }
  }

  lemma OnlyOneRecent(rows: seq<KeyRow>, a: nat, b: nat, hash: Str, now: int)
    requires Spaced(rows) && a < |rows| && b < |rows| && Recent(rows[a], hash, now) && Recent(rows[b], hash, now)
    ensures a == b
  {
    hide TimeOf;
  }

  /** Across the end of year 9999 the gate and `decideDedup` part: a message seen again one minute
      later is stored again. */
  lemma GateMissesAcrossYear10000(c: Check, r: KeyRow, t: int, now: int)
    requires t == 253402300740000 && now == t + 60000
    requires c.plan.HashPlan? && r.keyType == ContentHashKey && r.keyValue == c.plan.keyValue && c.uuid != r.id
    ensures var first, again := r.(firstSeenAt := Iso(t)), PlannedAt(c, now);
      && Execute([first], again, Works, Works).1 == Done(Novel(c.plan.contentHash, c.uuid), true)
      && DecideDedup(Candidate(c.plan.keyValue, again.plan.firstSeenAt), Candidates([first]))
         == Some(Suppress(Candidate(r.keyValue, first.firstSeenAt)))
  {
    hide Iso, ParseIso, LexLe, YearFrom;
    var first, again := r.(firstSeenAt := Iso(t)), PlannedAt(c, now);
    assert [first][1..] == [];
    ParseOfIso(t);
    ParseOfIso(now);
    InYear(t, 9999);
    InYear(now, 10000);
    TextOrder(t, now);
    assert !InWindow(first, again.plan.keyValue, again.plan.windowStartAt, again.plan.firstSeenAt);
    assert SelectWindow([first], again.plan.keyValue, again.plan.windowStartAt, again.plan.firstSeenAt).None?;
    assert !Taken([first], c.uuid);
  }

  // ---------- ten minutes, ninety days, one day ----------

  lemma OneRow(r: KeyRow, hash: Str, from: Str, to: Str)
    ensures SelectWindow([r], hash, from, to) == (if InWindow(r, hash, from, to) then Some(r) else None)
  {
    hide InWindow, Precedes;
    assert [r][1..] == [];
  }

  lemma OneCandidate(r: KeyRow, now: int)
    requires r.keyType == ContentHashKey && ParseIso(r.firstSeenAt).Some?
    ensures var age := now - ParseIso(r.firstSeenAt).value;
      Search(r.keyValue, now, Candidates([r]))
      == Some(if 0 <= age <= 600_000 then Suppress(Candidate(r.keyValue, r.firstSeenAt)) else Store)
  {
    hide ParseIso;
    var k := Candidate(r.keyValue, r.firstSeenAt);
    assert [r][1..] == [];
    assert Candidates([r]) == [k] && [k][1..] == [];
    assert Search(r.keyValue, now, []) == Some(Store);
  }

  /** A message without a provider message id and one stored key of its hash: the gate and
      `decideDedup` suppress it exactly if the key is up to 600,000 milliseconds old. */
  lemma TenMinutes(digest: seq<CH.Byte> -> Str, input: Input, now: int, uuid: Str, r: KeyRow, t: int)
    requires IsTime(now) && IsTime(t) && FourDigit(Year(now)) && FourDigit(Year(t))
    requires r.keyType == ContentHashKey && r.firstSeenAt == Iso(t) && r.id != uuid
    requires r.keyValue == CH.ComputeContentHash(digest, input.message)
    ensures var plan := PlanCheck(digest, input, now);
      plan.Some? && plan.value.HashPlan? ==>
        var p := Execute([r], Check(plan.value, uuid), Works, Works).1;
        && p == Done(if 0 <= now - t <= 600_000 then Duplicate(r.keyValue, r.id, r.linkedMessageId) else Novel(r.keyValue, uuid),
                     !(0 <= now - t <= 600_000))
        && DecideDedup(Candidate(r.keyValue, Iso(now)), Candidates([r]))
           == Some(if 0 <= now - t <= 600_000 then Suppress(Candidate(r.keyValue, Iso(t))) else Store)
  {
    hide Iso, ParseIso, Year, LexLe, CH.ComputeContentHash, SelectWindow, InWindow, Candidates;
    var plan := PlanCheck(digest, input, now);
    if plan.Some? && plan.value.HashPlan? {
      StampOfIso(t);
      ParseOfIso(now);
      ParseOfIso(t);
      WindowIsRecent(r, r.keyValue, now);
      OneRow(r, r.keyValue, plan.value.windowStartAt, plan.value.firstSeenAt);
      OneCandidate(r, now);
      assert !Taken([r], uuid);
    }
  }

  /** A plan keyed on the content says whether the provider message id was missing or empty. */
  lemma DegradedWhy(digest: seq<CH.Byte> -> Str, input: Input, now: int)
    ensures var plan := PlanCheck(digest, input, now);
      plan.Some? && plan.value.HashPlan? ==>
        && (plan.value.degradation == NoProviderMessageId <==> input.providerMessageId == None)
        && (plan.value.degradation == EmptyProviderMessageId <==> input.providerMessageId == Some([]))
  {
    hide Iso, CH.ComputeContentHash;
  }

  /** A key of a provider message id is to expire 90 days after it was first seen, one of a content
      hash after 24 hours. */
  lemma KeysLive(digest: seq<CH.Byte> -> Str, input: Input, now: int, uuid: Str)
    ensures IsTime(now) && IsTime(now - 600_000) && IsTime(now + 7_776_000_000) ==> PlanCheck(digest, input, now).Some?
    ensures PlanCheck(digest, input, now).Some? ==>
      var r := NewKeyRow(Check(PlanCheck(digest, input, now).value, uuid));
      var byId := input.providerMessageId.Some? && input.providerMessageId.value != [];
      && (r.keyType == ProviderIdKey <==> byId) && r.keyValue
         == (if byId then input.providerMessageId.value else CH.ComputeContentHash(digest, input.message))
      && TimeOf(r.firstSeenAt) == now
      && TimeOf(r.expiresAt) - now == (if byId then 7_776_000_000 else 86_400_000)
  {
    hide Iso, ParseIso, CH.ComputeContentHash;
    if PlanCheck(digest, input, now).Some? {
      ParseOfIso(now);
      var byId := input.providerMessageId.Some? && input.providerMessageId.value != [];
      ParseOfIso(now + if byId then 7_776_000_000 else 86_400_000);
    }
  }

  // ---------- expiry ----------

  datatype ExpiryCheck = Ok | ExpiryMismatch | UnparseableTimestamp

  function Ttl(keyType: KeyType): int {
    if keyType == ProviderIdKey then PROVIDER_ID_KEY_TTL_MS else CONTENT_HASH_KEY_TTL_MS
  }

  /** `checkIdempotencyExpiry`. */
  function CheckExpiry(keyType: KeyType, firstSeenAt: Str, expiresAt: Str): ExpiryCheck {
    match (ParseIso(firstSeenAt), ParseIso(expiresAt))
    case (Some(first), Some(expires)) => if expires == first + Ttl(keyType) then Ok else ExpiryMismatch
    case (_, _) => UnparseableTimestamp
  }

  /** What the check says of any two texts. */
  lemma ExpiryVerdicts(keyType: KeyType, firstSeenAt: Str, expiresAt: Str)
    ensures var first, expires := ParseIso(firstSeenAt), ParseIso(expiresAt);
      var days := if keyType == ProviderIdKey then 90 else 1;
      && (CheckExpiry(keyType, firstSeenAt, expiresAt) == UnparseableTimestamp <==> first.None? || expires.None?)
      && (CheckExpiry(keyType, firstSeenAt, expiresAt) == Ok <==>
            first.Some? && expires.Some? && expires.value - first.value == days * 24 * 60 * 60 * 1000)
  {
    hide ParseIso;
  }

  /** Every row a plan writes passes the expiry check, and would not with any other expiry. */
  lemma PlannedExpiryPasses(digest: seq<CH.Byte> -> Str, input: Input, now: int, uuid: Str, other: int)
    requires IsTime(other)
    ensures PlanCheck(digest, input, now).Some? ==>
      var r := NewKeyRow(Check(PlanCheck(digest, input, now).value, uuid));
      && CheckExpiry(r.keyType, r.firstSeenAt, r.expiresAt) == Ok
      && (CheckExpiry(r.keyType, r.firstSeenAt, Iso(other)) == Ok <==> Iso(other) == r.expiresAt)
  {
    hide Iso, ParseIso, CH.ComputeContentHash;
    if PlanCheck(digest, input, now).Some? {
      ParseOfIso(now);
      ParseOfIso(other);
      var r := NewKeyRow(Check(PlanCheck(digest, input, now).value, uuid));
      ParseOfIso(now + Ttl(r.keyType));
    }
  }
}
