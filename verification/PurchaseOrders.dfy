/** Purchase-order numbering and totals: backend/src/orchestration/tools/poSequence.ts and
    backend/src/orchestration/tools/poGenerator.ts. */
module PurchaseOrders {
  import opened Sequences
  import opened Text
  import Decimal

  // ---------- the sequence store ----------

  /** Above this value a JavaScript number no longer tells an integer from its successor. */
  const MAX_COUNT := 0x20_0000_0000_0000

  /** Adding one in double precision: at 2^53 the sum rounds back to 2^53. */
  function Increment(n: nat): nat {
    if n < MAX_COUNT then n + 1 else n
  }

  function Current(counters: map<Str, nat>, user: Str): nat {
    if user in counters then counters[user] else 0
  }

  class PoSequenceStore {
    var counters: map<Str, nat>

    constructor (seed: map<Str, nat>)
      ensures counters == seed
    {
      counters := seed;
    }

    method AllocateNext(user: Str) returns (next: nat)
      modifies this
      ensures next == Increment(Current(old(counters), user))
      ensures counters == old(counters)[user := next]
    {
      var current := if user in counters then counters[user] else 0;
      next := if current < MAX_COUNT then current + 1 else current;
      counters := counters[user := next];
    }
  }

  // ---------- the PO number ----------

  const DASH: CodeUnit := 45

  function WithoutDashes(s: Str): (t: Str)
    ensures DASH !in t
  {
    if s == [] then []
    else if s[0] == DASH then WithoutDashes(s[1..])
    else [s[0]] + WithoutDashes(s[1..])
  }

  function DatePart(issuedDate: Str): (d: Str)
    ensures DASH !in d && |d| <= 8
  {
    var d := WithoutDashes(issuedDate);
    if |d| <= 8 then d else d[..8]
  }

  function GeneratePoNumber(issuedDate: Str, sequence: nat): Str {
    Lit("PO-") + (DatePart(issuedDate) + ([DASH] + Decimal.PadStart(Decimal.Print(sequence), 4)))
  }

  function UpToDash(s: Str): (k: nat)
    ensures k <= |s|
  {
    if s == [] || s[0] == DASH then 0 else 1 + UpToDash(s[1..])
  }

  lemma {:induction false} UpToDashSplits(a: Str, b: Str)
    requires DASH !in a
    ensures UpToDash(a + ([DASH] + b)) == |a|
  {
    if a == [] {
      assert a + ([DASH] + b) == [DASH] + b;
    } else {
      DropWithin(a, [DASH] + b, 1);
      assert DASH !in a[1..];
      UpToDashSplits(a[1..], b);
    }
  }

  /** Reads a printed PO number back: everything after the prefix up to the next dash, and the
      number after that dash. */
  function Decode(po: Str): Option<(Str, nat)> {
    if |po| < 3 then None
    else
      var rest := po[3..];
      var k := UpToDash(rest);
      if k < |rest| && Decimal.AllDigits(rest[k+1..]) then Some((rest[..k], Decimal.Value(rest[k+1..])))
      else None
  }

  /** The printed number determines its date part and its sequence, at any size of either. */
  lemma PoNumberDecodes(issuedDate: Str, sequence: nat)
    ensures Decode(GeneratePoNumber(issuedDate, sequence)) == Some((DatePart(issuedDate), sequence))
  {
    var date, digits := DatePart(issuedDate), Decimal.PadStart(Decimal.Print(sequence), 4);
    var rest := date + ([DASH] + digits);
    assert GeneratePoNumber(issuedDate, sequence)[3..] == rest;
    UpToDashSplits(date, digits);
    assert rest[..|date|] == date && rest[|date|+1..] == digits;
    Decimal.ValueOfPadded(sequence, 4);
  }

  lemma SamePoNumberSameSequence(date1: Str, n1: nat, date2: Str, n2: nat)
    requires GeneratePoNumber(date1, n1) == GeneratePoNumber(date2, n2)
    ensures n1 == n2 && DatePart(date1) == DatePart(date2)
  {
    PoNumberDecodes(date1, n1);
    PoNumberDecodes(date2, n2);
  }

  /** Up to 9999 the number has the form PO-YYYYMMDD-NNNN. */
  lemma PoNumberShape(issuedDate: Str, sequence: nat)
    requires |WithoutDashes(issuedDate)| >= 8 && sequence <= 9999
    ensures var po := GeneratePoNumber(issuedDate, sequence);
      && |po| == 16 && po[..3] == Lit("PO-") && po[3..11] == WithoutDashes(issuedDate)[..8] && po[11] == DASH
      && Decimal.AllDigits(po[12..]) && Decimal.Value(po[12..]) == sequence
  {
    hide WithoutDashes, Decimal.Print, Decimal.Value, Decimal.PadStart, DatePart, Lit;
    var date, digits := DatePart(issuedDate), Decimal.PadStart(Decimal.Print(sequence), 4);
    assert date == WithoutDashes(issuedDate)[..8] by { EightOfDate(issuedDate); }
    FourDigits(sequence);
    Decimal.ValueOfPadded(sequence, 4);
    InThree(Lit("PO-"), date, digits);
  }

  lemma EightOfDate(issuedDate: Str)
    requires |WithoutDashes(issuedDate)| >= 8
    ensures DatePart(issuedDate) == WithoutDashes(issuedDate)[..8]
  {
    hide WithoutDashes;
  }

  lemma FourDigits(sequence: nat)
    requires sequence <= 9999
    ensures |Decimal.PadStart(Decimal.Print(sequence), 4)| == 4
  {
    AtMostFourDigits(sequence);
  }

  lemma InThree(a: Str, b: Str, c: Str)
    requires |a| == 3 && |b| == 8
    ensures var t := a + (b + ([DASH] + c));
      |t| == 12 + |c| && t[..3] == a && t[3..11] == b && t[11] == DASH && t[12..] == c
  {
  }

  lemma AtMostFourDigits(n: nat)
    requires n <= 9999
    ensures |Decimal.Print(n)| <= 4
  {
    assert n / 10 >= 10 ==> n / 10 / 10 <= 99;
    assert |Decimal.Print(n / 10 / 10)| <= 2;
    assert |Decimal.Print(n / 10)| <= 3;
  }

  // ---------- totals ----------

  datatype LineItem = LineItem(quantity: nat, unitPrice: real)

  /** `Math.round`: to the nearest integer, halves upward. */
  function Round(x: real): int {
    (x + 0.5).Floor
  }

  function Total(item: LineItem): real {
    item.quantity as real * item.unitPrice
  }

  function SumOfTotals(items: seq<LineItem>): real {
    if items == [] then 0.0 else SumOfTotals(items[..|items|-1]) + Total(items[|items|-1])
  }

  /** The subtotal in cents. */
  method ComputeSubtotal(items: seq<LineItem>) returns (cents: int)
    ensures cents == Round(SumOfTotals(items) * 100.0)
  {
    var sum := 0.0;
    for i := 0 to |items|
      invariant sum == SumOfTotals(items[..i])
    {
      assert items[..i+1][..i] == items[..i];
      sum := sum + items[i].quantity as real * items[i].unitPrice;
    }
    assert items[..|items|] == items;
    cents := (sum * 100.0 + 0.5).Floor;
  }

  /** The line totals printed on the document, added up in cents. */
  function SumOfPrinted(items: seq<LineItem>): int {
    if items == [] then 0 else SumOfPrinted(items[..|items|-1]) + Round(Total(items[|items|-1]) * 100.0)
  }

  lemma {:induction false} PrintedDrift(items: seq<LineItem>)
    ensures var drift := 2.0 * (SumOfPrinted(items) as real - SumOfTotals(items) * 100.0);
      -(|items| as real) <= drift <= |items| as real
  {
    if items != [] {
      PrintedDrift(items[..|items|-1]);
    }
  }

  /** The subtotal and the sum of the printed line totals differ by at most (n + 1) / 2 cents. */
  lemma SubtotalNearPrinted(items: seq<LineItem>)
    ensures var gap := 2 * (Round(SumOfTotals(items) * 100.0) - SumOfPrinted(items));
      -(|items| + 1) <= gap <= |items| + 1
  {
    PrintedDrift(items);
  }

  predicate WholeCents(item: LineItem) {
    item.unitPrice * 100.0 == (item.unitPrice * 100.0).Floor as real
  }

  lemma WholeTotal(item: LineItem)
    requires WholeCents(item)
    ensures var t := item.quantity * (item.unitPrice * 100.0).Floor;
      Total(item) * 100.0 == t as real && Round(Total(item) * 100.0) == t
  {
    var q, p, c := item.quantity as real, item.unitPrice, (item.unitPrice * 100.0).Floor;
    assert (q * p) * 100.0 == q * (p * 100.0) == q * c as real == (item.quantity * c) as real;
  }

  /** When every unit price is a whole number of cents they are equal. */
  lemma {:induction false} SubtotalIsPrinted(items: seq<LineItem>)
    requires forall i :: 0 <= i < |items| ==> WholeCents(items[i])
    ensures SumOfTotals(items) * 100.0 == SumOfPrinted(items) as real
    ensures Round(SumOfTotals(items) * 100.0) == SumOfPrinted(items)
  {
    if items != [] {
      SubtotalIsPrinted(items[..|items|-1]);
      WholeTotal(items[|items|-1]);
    }
  }
}
