/** JavaScript timestamps: `toISOString` (section 21.4.4.36 of ECMA-262, 2021 edition),
    `Date.parse` on the form it writes (section 21.4.1.15), and how the order of two such texts
    relates to the order of the instants. Instants are milliseconds since 1970. */
module IsoTime {
  import opened Sequences
  import opened Text
  import opened Decimal

  /** Instants further from 1970 than this are not dates. */
  const MAX_TIME := 8_640_000_000_000_000

  const DAY_MS := 86_400_000

  predicate IsTime(t: int) {
    -MAX_TIME <= t <= MAX_TIME
  }

  // ---------- the calendar ----------

  predicate Leap(y: int) {
    y % 4 == 0 && (y % 100 != 0 || y % 400 == 0)
  }

  /** The day on which year `y` begins, counted from 1 January 1970. */
  function DayFromYear(y: int): int {
    365 * (y - 1970) + (y - 1969) / 4 - (y - 1901) / 100 + (y - 1601) / 400
  }

  function YearLength(y: int): nat {
    if Leap(y) then 366 else 365
  }

  lemma EveryFourth(y: int)
    ensures (y - 1968) / 4 == (y - 1969) / 4 + if y % 4 == 0 then 1 else 0
  {
  }

  lemma EveryHundredth(y: int)
    ensures (y - 1900) / 100 == (y - 1901) / 100 + if y % 100 == 0 then 1 else 0
  {
  }

  lemma EveryFourHundredth(y: int)
    ensures (y - 1600) / 400 == (y - 1601) / 400 + if y % 400 == 0 then 1 else 0
  {
  }

  lemma RulesAreNested(y: int)
    ensures y % 400 == 0 ==> y % 100 == 0
    ensures y % 100 == 0 ==> y % 4 == 0
  {
  }

  lemma YearsFollow(y: int)
    ensures DayFromYear(y + 1) == DayFromYear(y) + YearLength(y)
  {
    EveryFourth(y);
    EveryHundredth(y);
    EveryFourHundredth(y);
    RulesAreNested(y);
  }

  const FIRST_YEAR := -271821

  /** The year a day falls in, searching upwards from `y`. */
  function YearFrom(y: int, day: int): (r: int)
    requires DayFromYear(y) <= day
    ensures y <= r && DayFromYear(r) <= day < DayFromYear(r) + YearLength(r)
    decreases day - DayFromYear(y)
  {
    YearsFollow(y);
    if DayFromYear(y + 1) <= day then YearFrom(y + 1, day) else y
  }

  function MonthStart(m: int, leap: bool): int {
    var l := if leap then 1 else 0;
    if m <= 1 then 0
    else if m == 2 then 31
    else if m == 3 then 59 + l
    else if m == 4 then 90 + l
    else if m == 5 then 120 + l
    else if m == 6 then 151 + l
    else if m == 7 then 181 + l
    else if m == 8 then 212 + l
    else if m == 9 then 243 + l
    else if m == 10 then 273 + l
    else if m == 11 then 304 + l
    else if m == 12 then 334 + l
    else 365 + l
  }

  /** The month, 1 to 12, of a day counted from the start of its year. */
  function MonthOf(d: int, leap: bool): (m: int)
    requires 0 <= d < if leap then 366 else 365
    ensures 1 <= m <= 12 && MonthStart(m, leap) <= d < MonthStart(m + 1, leap)
  {
    if d < MonthStart(2, leap) then 1
    else if d < MonthStart(3, leap) then 2
    else if d < MonthStart(4, leap) then 3
    else if d < MonthStart(5, leap) then 4
    else if d < MonthStart(6, leap) then 5
    else if d < MonthStart(7, leap) then 6
    else if d < MonthStart(8, leap) then 7
    else if d < MonthStart(9, leap) then 8
    else if d < MonthStart(10, leap) then 9
    else if d < MonthStart(11, leap) then 10
    else if d < MonthStart(12, leap) then 11
    else 12
  }

  /** Thirty days have April, June, September and November. */
  lemma MonthLengths(m: int, leap: bool)
    requires 1 <= m <= 12
    ensures MonthStart(m + 1, leap) - MonthStart(m, leap)
      == if m == 2 then if leap then 29 else 28 else if m in {4, 6, 9, 11} then 30 else 31
    ensures MonthStart(1, leap) == 0 && MonthStart(13, leap) == if leap then 366 else 365
  {
  }

  datatype Parts = Parts(year: int, month: nat, day: nat, hour: nat, minute: nat, second: nat, milli: nat)

  lemma FirstYearCovers()
    ensures DayFromYear(FIRST_YEAR) <= -MAX_TIME / DAY_MS
  {
  }

  function Year(t: int): (y: int)
    requires IsTime(t)
    ensures FIRST_YEAR <= y && DayFromYear(y) <= t / DAY_MS < DayFromYear(y) + YearLength(y)
  {
    FirstYearCovers();
    YearFrom(FIRST_YEAR, t / DAY_MS)
  }

  /** Calendar date and time of day of an instant. */
  function Split(t: int): Parts
    requires IsTime(t)
  {
    var y := Year(t);
    var d := t / DAY_MS - DayFromYear(y);
    var m := MonthOf(d, Leap(y));
    var ms := t % DAY_MS;
    Parts(y, m, d - MonthStart(m, Leap(y)) + 1, ms / 3600000, ms / 60000 % 60, ms / 1000 % 60, ms % 1000)
  }

  /** The instant of a calendar date and time of day, if they denote one. */
  function Compose(p: Parts): Option<int> {
    var start := MonthStart(p.month, Leap(p.year));
    if !(1 <= p.month <= 12) || !(1 <= p.day <= MonthStart(p.month + 1, Leap(p.year)) - start) then None
    else if p.minute >= 60 || p.second >= 60 || p.milli >= 1000 then None
    else if p.hour > 24 || (p.hour == 24 && p.minute + p.second + p.milli > 0) then None
    else
      var day := DayFromYear(p.year) + start + p.day - 1;
      var t := day * DAY_MS + p.hour * 3600000 + p.minute * 60000 + p.second * 1000 + p.milli;
      if IsTime(t) then Some(t) else None
  }

  /** A date of the calendar with a time of day; midnight is also the end of the day before. */
  predicate OnTheCalendar(p: Parts) {
    && 1 <= p.month <= 12 && 1 <= p.day <= DaysIn(p.month, Leap(p.year))
    && p.minute < 60 && p.second < 60 && p.milli < 1000
    && (p.hour < 24 || (p.hour == 24 && p.minute == p.second == p.milli == 0))
  }

  function DaysIn(month: nat, leap: bool): nat {
    if month == 2 then if leap then 29 else 28
    else if month == 4 || month == 6 || month == 9 || month == 11 then 30
    else 31
  }

  /** What the fields have to be for there to be an instant. */
  lemma ComposeIff(p: Parts)
    ensures Compose(p).Some? ==> OnTheCalendar(p) && -8_640_000_000_000_000 <= Compose(p).value <= 8_640_000_000_000_000
    ensures OnTheCalendar(p) && -271_820 <= p.year <= 275_759 ==> Compose(p).Some?
  {
    hide DayFromYear, Leap;
    if OnTheCalendar(p) && -271_820 <= p.year <= 275_759 { YearsInRange(p.year); }
  }

  lemma YearsInRange(y: int)
    requires -271_820 <= y <= 275_759
    ensures -100_000_000 <= DayFromYear(y) && DayFromYear(y) + 366 < 100_000_000
  {
  }

  lemma TimeOfDay(ms: int)
    requires 0 <= ms < DAY_MS
    ensures ms / 3600000 < 24
    ensures ms == ms / 3600000 * 3600000 + ms / 60000 % 60 * 60000 + ms / 1000 % 60 * 1000 + ms % 1000
  {
    assert ms / 60000 == ms / 1000 / 60;
    assert ms / 3600000 == ms / 60000 / 60;
  }

  lemma ComposeOfSplit(t: int)
    requires IsTime(t)
    ensures Compose(Split(t)) == Some(t)
  {
    hide DayFromYear, YearFrom, Leap, MonthStart, MonthOf, Year;
    TimeOfDay(t % DAY_MS);
  }

  // ---------- fixed-width fields ----------

  /** A field of so many digits and the mark that follows it. */
  datatype Slot = Slot(width: nat, mark: CodeUnit)

  predicate Fits(shape: seq<Slot>, values: seq<nat>) {
    |shape| == |values| && forall i :: 0 <= i < |shape| ==> values[i] < Pow10(shape[i].width)
  }

  function Render(shape: seq<Slot>, values: seq<nat>): Str
    requires |shape| == |values|
  {
    if shape == [] then []
    else Fixed(values[0], shape[0].width) + ([shape[0].mark] + Render(shape[1..], values[1..]))
  }

  function Scan(shape: seq<Slot>, t: Str): Option<seq<nat>> {
    if shape == [] then if t == [] then Some([]) else None
    else
      var w := shape[0].width;
      if |t| <= w || !Decimal.AllDigits(t[..w]) || t[w] != shape[0].mark then None
      else match Scan(shape[1..], t[w+1..])
        case None => None
        case Some(values) => Some([Decimal.Value(t[..w])] + values)
  }

  lemma {:induction false} ScanOfRender(shape: seq<Slot>, values: seq<nat>)
    requires Fits(shape, values)
    ensures Scan(shape, Render(shape, values)) == Some(values)
  {
    hide Fixed, Decimal.Value, Pow10;
    if shape != [] {
      var head, tail := Fixed(values[0], shape[0].width), Render(shape[1..], values[1..]);
      FixedValue(values[0], shape[0].width);
      ScanOfRender(shape[1..], values[1..]);
      PutAround(head, shape[0].mark, tail);
      assert [values[0]] + values[1..] == values;
    }
  }

  /** Two rows of fields compare as texts the way their first difference does. */
  lemma {:induction false} RenderOrder(shape: seq<Slot>, a: seq<nat>, b: seq<nat>, k: nat)
    requires Fits(shape, a) && Fits(shape, b) && k < |a|
    requires a[..k] == b[..k] && a[k] < b[k]
    ensures LexLe(Render(shape, a), Render(shape, b)) && Render(shape, a) != Render(shape, b)
    decreases |shape|
  {
    hide Fixed, Pow10;
    var w, m := shape[0].width, [shape[0].mark];
    var s, t := Render(shape[1..], a[1..]), Render(shape[1..], b[1..]);
    LexLePrefixed(Fixed(a[0], w), Fixed(b[0], w), m + s, m + t);
    LexLePrefixed(m, m, s, t);
    if k == 0 {
      FixedOrder(a[0], b[0], w);
      assert Render(shape, a)[..w] == Fixed(a[0], w) && Render(shape, b)[..w] == Fixed(b[0], w);
    } else {
      assert a[..k][0] == b[..k][0];
      assert a[1..][..k-1] == a[..k][1..] == b[..k][1..] == b[1..][..k-1];
      RenderOrder(shape[1..], a[1..], b[1..], k - 1);
      assert Render(shape, a)[w+1..] == s && Render(shape, b)[w+1..] == t;
    }
  }

  // ---------- toISOString and Date.parse ----------

  const PLUS: CodeUnit := 43
  const MINUS: CodeUnit := 45

  function Shape(yearWidth: nat): seq<Slot> {
    [Slot(yearWidth, MINUS), Slot(2, MINUS), Slot(2, 84), Slot(2, 58), Slot(2, 58), Slot(2, 46), Slot(3, 90)]
  }

  function Values(year: nat, p: Parts): seq<nat> {
    [year, p.month, p.day, p.hour, p.minute, p.second, p.milli]
  }

  /** The years whose timestamps have no sign. */
  predicate FourDigit(y: int) {
    0 <= y <= 9999
  }

  /** `toISOString`; an instant out of range throws there. */
  function Iso(t: int): Str
    requires IsTime(t)
  {
    var p := Split(t);
    if FourDigit(p.year) then Render(Shape(4), Values(p.year, p))
    else if p.year < 0 then [MINUS] + Render(Shape(6), Values(-p.year, p))
    else [PLUS] + Render(Shape(6), Values(p.year, p))
  }

  function Assemble(year: int, v: seq<nat>): Option<int>
    requires |v| == 7
  {
    Compose(Parts(year, v[1], v[2], v[3], v[4], v[5], v[6]))
  }

  /** `Date.parse` on the date-time form with milliseconds and `Z`; `None` is NaN. */
  function ParseIso(t: Str): Option<int> {
    if t == [] then None
    else if t[0] == 43 || t[0] == 45 then
      match Scan(Shape(6), t[1..])
      case None => None
      case Some(v) =>
        if |v| != 7 || (t[0] == 45 && v[0] == 0) then None
        else
          var y: int := v[0];
          Assemble(if t[0] == 45 then 0 - y else y, v)
    else match Scan(Shape(4), t)
      case None => None
      case Some(v) => if |v| != 7 then None else Assemble(v[0], v)
  }

  /** The year zero has no minus sign. */
  lemma NoMinusZero(v: seq<nat>)
    requires |v| == 7 && v[0] == 0 && Fits(Shape(6), v)
    ensures ParseIso([45] + Render(Shape(6), v)) == None
  {
    hide Render, Scan, Compose;
    var t := [45] + Render(Shape(6), v);
    assert t[1..] == Render(Shape(6), v);
    ScanOfRender(Shape(6), v);
  }

  lemma YearBound(t: int)
    requires IsTime(t)
    ensures -1_000_000 < Year(t) < 1_000_000
  {
    hide YearFrom;
  }

  lemma Powers()
    ensures Pow10(2) == 100 && Pow10(3) == 1000 && Pow10(4) == 10000 && Pow10(6) == 1000000
  {
    assert Pow10(1) == 10;
    assert Pow10(5) == 100000;
  }

  lemma SplitFits(t: int, w: nat, year: nat)
    requires IsTime(t) && (w == 4 || w == 6) && year < Pow10(w)
    ensures Fits(Shape(w), Values(year, Split(t)))
  {
    hide Year, Pow10, YearFrom, DayFromYear;
    Powers();
    TimeOfDay(t % DAY_MS);
  }

  /** Reading back the text of any instant gives the instant. */
  lemma ParseOfIso(t: int)
    requires IsTime(t)
    ensures ParseIso(Iso(t)) == Some(t)
  {
    hide Scan, Render, Split, Compose, Pow10;
    var p := Split(t);
    SplitYear(t);
    ComposeOfSplit(t);
    YearBound(t);
    Powers();
    var w := if FourDigit(p.year) then 4 else 6;
    var y := if p.year < 0 then -p.year else p.year;
    SplitFits(t, w, y);
    ScanOfRender(Shape(w), Values(y, p));
    RenderStarts(t, y);
    if w == 6 { assert Iso(t)[1..] == Render(Shape(6), Values(y, p)); }
  }

  lemma SplitYear(t: int)
    requires IsTime(t)
    ensures Split(t).year == Year(t)
  {
  }

  /** A row of fields begins with a digit. */
  lemma RenderStarts(t: int, y: nat)
    requires IsTime(t)
    ensures var s := Render(Shape(4), Values(y, Split(t))); s != [] && Decimal.IsDigit(s[0])
  {
    hide Fixed, Split;
  }

  lemma IsoIsInjective(a: int, b: int)
    requires IsTime(a) && IsTime(b)
    ensures Iso(a) == Iso(b) ==> a == b
  {
    hide Iso, ParseIso;
    ParseOfIso(a);
    ParseOfIso(b);
  }

  /** Two known instants: the epoch, and a moment on the leap day of the year 2000. */
  lemma KnownInstants(s: int, t: int)
    requires s == 0 && t == 951_825_599_999
    ensures Split(s) == Parts(1970, 1, 1, 0, 0, 0, 0)
    ensures Split(t) == Parts(2000, 2, 29, 11, 59, 59, 999)
  {
    hide Year, YearFrom, DayFromYear, Leap, MonthOf, MonthStart;
    KnownDays();
    InYear(s, 1970);
    InYear(t, 2000);
  }

  lemma KnownDays()
    ensures DayFromYear(1970) == 0 && YearLength(1970) == 365 && MonthOf(0, Leap(1970)) == 1 && MonthStart(1, Leap(1970)) == 0
    ensures DayFromYear(2000) == 10957 && YearLength(2000) == 366 && MonthOf(59, Leap(2000)) == 2 && MonthStart(2, Leap(2000)) == 31
  {
  }

  /** Where the k-th field begins. */
  function Offset(shape: seq<Slot>, k: nat): nat
    requires k <= |shape|
  {
    if k == 0 then 0 else Offset(shape, k - 1) + shape[k-1].width + 1
  }

  lemma {:induction false} OffsetInTail(shape: seq<Slot>, k: nat)
    requires 0 < k <= |shape|
    ensures Offset(shape, k) == shape[0].width + 1 + Offset(shape[1..], k - 1)
  {
    if k > 1 { OffsetInTail(shape, k - 1); }
  }

  lemma {:induction false} FieldAt(shape: seq<Slot>, values: seq<nat>, k: nat)
    requires |values| == |shape| && k < |shape|
    ensures |Render(shape, values)| == Offset(shape, |shape|)
    ensures var at, w := Offset(shape, k), shape[k].width;
      at + w < |Render(shape, values)|
      && Render(shape, values)[at..at+w] == Fixed(values[k], w) && Render(shape, values)[at+w] == shape[k].mark
  {
    hide Fixed, Render;
    var rest, t := Render(shape[1..], values[1..]), Render(shape, values);
    var head := Fixed(values[0], shape[0].width) + [shape[0].mark];
    RenderStep(shape, values);
    OffsetInTail(shape, |shape|);
    if |shape| > 1 { FieldAt(shape[1..], values[1..], if k == 0 then 0 else k - 1); }
    if k > 0 {
      OffsetInTail(shape, k);
      var at, w := Offset(shape[1..], k - 1), shape[k].width;
      assert t[|head|+at..|head|+at+w] == rest[at..at+w];
    } else {
      assert t[..shape[0].width] == Fixed(values[0], shape[0].width);
    }
  }

  lemma RenderStep(shape: seq<Slot>, values: seq<nat>)
    requires |values| == |shape| > 0
    ensures var head, rest := Fixed(values[0], shape[0].width) + [shape[0].mark], Render(shape[1..], values[1..]);
      Render(shape, values) == head + rest && (|shape| == 1 ==> rest == [])
  {
    hide Fixed;
    PutAround(Fixed(values[0], shape[0].width), shape[0].mark, Render(shape[1..], values[1..]));
  }

  /** The form YYYY-MM-DDTHH:mm:ss.sssZ: each field of the date and time at its place. */
  lemma IsoLayout(t: int)
    requires IsTime(t) && FourDigit(Year(t))
    ensures var s, p := Iso(t), Split(t);
      && |s| == 24 && s[..4] == Fixed(Year(t), 4) && s[5..7] == Fixed(p.month, 2) && s[8..10] == Fixed(p.day, 2)
      && s[11..13] == Fixed(p.hour, 2) && s[14..16] == Fixed(p.minute, 2) && s[17..19] == Fixed(p.second, 2)
      && s[20..23] == Fixed(p.milli, 3)
      && s[4] == s[7] == MINUS && s[10] == 84 && s[13] == s[16] == 58 && s[19] == 46 && s[23] == 90
  {
    hide Fixed, Render, Split, Year;
    SplitYear(t);
    var shape, v := Shape(4), Values(Year(t), Split(t));
    Offsets();
    FieldAt(shape, v, 0);
    FieldAt(shape, v, 1);
    FieldAt(shape, v, 2);
    FieldAt(shape, v, 3);
    FieldAt(shape, v, 4);
    FieldAt(shape, v, 5);
    FieldAt(shape, v, 6);
  }

  lemma Offsets()
    ensures var s := Shape(4);
      && Offset(s, 0) == 0 && Offset(s, 1) == 5 && Offset(s, 2) == 8 && Offset(s, 3) == 11 && Offset(s, 4) == 14
      && Offset(s, 5) == 17 && Offset(s, 6) == 20 && Offset(s, 7) == 24
  {
    var s := Shape(4);
    assert Offset(s, 1) == 5;
    assert Offset(s, 3) == 11;
    assert Offset(s, 5) == 17;
  }

  // ---------- order ----------

  lemma {:induction false} YearsAscend(y: int, z: int)
    requires y <= z
    ensures DayFromYear(y) <= DayFromYear(z)
    decreases z - y
  {
    if y < z {
      YearsFollow(y);
      YearsAscend(y + 1, z);
    }
  }

  lemma YearIsMonotone(a: int, b: int)
    requires IsTime(a) && IsTime(b) && a <= b
    ensures Year(a) <= Year(b)
  {
    if Year(a) > Year(b) {
      YearsFollow(Year(b));
      YearsAscend(Year(b) + 1, Year(a));
    }
  }

  lemma MonthIsMonotone(d: int, e: int, leap: bool)
    requires 0 <= d <= e < if leap then 366 else 365
    ensures MonthOf(d, leap) <= MonthOf(e, leap)
  {
  }

  lemma TimeOfDayAscends(a: int, b: int)
    requires 0 <= a < b
    ensures a / 3600000 <= b / 3600000
    ensures a / 3600000 == b / 3600000 ==> a / 60000 % 60 <= b / 60000 % 60
    ensures a / 60000 == b / 60000 ==> a / 1000 % 60 <= b / 1000 % 60
    ensures a / 1000 == b / 1000 ==> a % 1000 < b % 1000
    ensures a / 3600000 == b / 3600000 && a / 60000 % 60 == b / 60000 % 60 ==> a / 60000 == b / 60000
    ensures a / 60000 == b / 60000 && a / 1000 % 60 == b / 1000 % 60 ==> a / 1000 == b / 1000
  {
    assert a / 60000 == a / 1000 / 60 && b / 60000 == b / 1000 / 60;
    assert a / 3600000 == a / 60000 / 60 && b / 3600000 == b / 60000 / 60;
  }

  /** Of two instants in one year the earlier has the smaller field where they first differ. */
  lemma FieldsAscend(a: int, b: int, year: nat) returns (k: nat)
    requires IsTime(a) && IsTime(b) && a < b && Year(a) == Year(b)
    ensures var v, w := Values(year, Split(a)), Values(year, Split(b));
      k < 7 && v[..k] == w[..k] && v[k] < w[k]
  {
    hide YearFrom, DayFromYear, Year, Leap, MonthOf, MonthStart;
    var p, q, y := Split(a), Split(b), Year(a);
    var v, w := Values(year, p), Values(year, q);
    MonthIsMonotone(a / DAY_MS - DayFromYear(y), b / DAY_MS - DayFromYear(y), Leap(y));
    if a / DAY_MS == b / DAY_MS { TimeOfDayAscends(a % DAY_MS, b % DAY_MS); }
    if p.month < q.month { k := 1; }
    else if p.day < q.day { k := 2; }
    else if p.hour < q.hour { k := 3; }
    else if p.minute < q.minute { k := 4; }
    else if p.second < q.second { k := 5; }
    else { k := 6; }
  }

  /** The text order of two timestamps is the order of the instants exactly when the later one
      falls in the years 0 to 9999, or the earlier one beyond them, or both in one year. Elsewhere
      it is the reverse. */
  lemma TextOrder(a: int, b: int)
    requires IsTime(a) && IsTime(b) && a < b
    ensures LexLe(Iso(a), Iso(b)) <==> FourDigit(Year(b)) || Year(a) > 9999 || Year(a) == Year(b)
    ensures LexLe(Iso(b), Iso(a)) <==> !LexLe(Iso(a), Iso(b))
  {
    hide LexLe, Iso, Year;
    LexLeTotal(Iso(a), Iso(b));
    if LexLe(Iso(b), Iso(a)) && LexLe(Iso(a), Iso(b)) {
      LexLeAntisymmetric(Iso(a), Iso(b));
      IsoIsInjective(a, b);
    }
    IsoOrder(a, b);
  }

  lemma IsoOrder(a: int, b: int)
    requires IsTime(a) && IsTime(b) && a < b
    ensures if FourDigit(Year(b)) || Year(a) > 9999 || Year(a) == Year(b)
      then LexLe(Iso(a), Iso(b)) else LexLe(Iso(b), Iso(a))
  {
    hide Render, Year, Split, LexLe, Fits, Pow10;
    var y, z, p, q := Year(a), Year(b), Split(a), Split(b);
    SplitYear(a);
    SplitYear(b);
    YearIsMonotone(a, b);
    YearBound(a);
    YearBound(b);
    Powers();
    var m, n := if y < 0 then -y else y, if z < 0 then -z else z;
    var w := if FourDigit(z) then 4 else 6;
    if (FourDigit(y) <==> FourDigit(z)) && (y < 0 <==> z < 0) {
      SameSign(a, b, w, m, n);
      var s, t := Render(Shape(w), Values(m, p)), Render(Shape(w), Values(n, q));
      LexLePrefixed([PLUS], [PLUS], s, t);
      LexLePrefixed([MINUS], [MINUS], s, t);
      LexLePrefixed([MINUS], [MINUS], t, s);
    } else {
      Signs(a, b);
    }
  }

  /** Two rows of fields of years with one sign and one width. */
  lemma SameSign(a: int, b: int, w: nat, m: nat, n: nat)
    requires IsTime(a) && IsTime(b) && a < b && (w == 4 || w == 6)
    requires m < Pow10(w) && n < Pow10(w)
    requires m == n ==> Year(a) == Year(b)
    ensures var s, t := Render(Shape(w), Values(m, Split(a))), Render(Shape(w), Values(n, Split(b)));
      if m <= n then LexLe(s, t) else LexLe(t, s)
  {
    hide Render, Year, Split, LexLe, Pow10;
    var v, u := Values(m, Split(a)), Values(n, Split(b));
    SplitFits(a, w, m);
    SplitFits(b, w, n);
    if m < n {
      RenderOrder(Shape(w), v, u, 0);
    } else if m > n {
      RenderOrder(Shape(w), u, v, 0);
    } else {
      var k := FieldsAscend(a, b, m);
      RenderOrder(Shape(w), v, u, k);
    }
  }

  /** Between a signed and an unsigned year, or two signs, the first code unit decides. */
  lemma Signs(a: int, b: int)
    requires IsTime(a) && IsTime(b)
    ensures Iso(a) != [] && Iso(b) != []
    ensures Iso(a)[0] < Iso(b)[0] ==> LexLe(Iso(a), Iso(b))
    ensures Iso(b)[0] < Iso(a)[0] ==> LexLe(Iso(b), Iso(a))
    ensures FourDigit(Year(a)) ==> Decimal.IsDigit(Iso(a)[0])
    ensures FourDigit(Year(b)) ==> Decimal.IsDigit(Iso(b)[0])
  {
    hide Render, Split, Year;
    SplitYear(a);
    SplitYear(b);
    if FourDigit(Year(a)) { RenderStarts(a, Year(a)); }
    if FourDigit(Year(b)) { RenderStarts(b, Year(b)); }
  }

  /** The last second of year 9999 and the first instant of year 10000: the texts are in the
      opposite order. */
  lemma OrderBreaksInYear10000(a: int, b: int)
    requires a == 253402300799000 && b == 253402300800000
    ensures IsTime(a) && IsTime(b) && a < b && !LexLe(Iso(a), Iso(b))
  {
    hide Iso, LexLe, YearFrom;
    InYear(a, 9999);
    InYear(b, 10000);
    TextOrder(a, b);
  }

  lemma InYear(t: int, y: int)
    requires IsTime(t)
    ensures DayFromYear(y) <= t / DAY_MS < DayFromYear(y) + YearLength(y) ==> Year(t) == y
  {
    hide YearFrom, DayFromYear;
    if Year(t) < y {
      YearsFollow(Year(t));
      YearsAscend(Year(t) + 1, y);
    } else if Year(t) > y {
      YearsFollow(y);
      YearsAscend(y + 1, Year(t));
    }
  }
}
