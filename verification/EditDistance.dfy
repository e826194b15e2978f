/** The word-error-rate aligner of tools/wer/score_wer.py: an edit-distance table
    filled with a match shortcut, and a traceback that counts the edits. */
module EditDistance {

  /** An edit script, last step outermost. */
  datatype Script =
    | Start
    | Match(prev: Script)
    | Substitute(prev: Script)
    | Delete(prev: Script)
    | Insert(prev: Script)

  /** `s` turns the first `i` tokens of `ref` into the first `j` tokens of `hyp`. */
  ghost predicate Edits<T>(s: Script, ref: seq<T>, hyp: seq<T>, i: nat, j: nat)
    requires i <= |ref| && j <= |hyp|
  {
    match s
    case Start => i == 0 && j == 0
    case Match(p) => i > 0 && j > 0 && ref[i-1] == hyp[j-1] && Edits(p, ref, hyp, i-1, j-1)
    case Substitute(p) => i > 0 && j > 0 && Edits(p, ref, hyp, i-1, j-1)
    case Delete(p) => i > 0 && Edits(p, ref, hyp, i-1, j)
    case Insert(p) => j > 0 && Edits(p, ref, hyp, i, j-1)
  }

  datatype Counts = Counts(s: nat, d: nat, ins: nat)

  function Tally(s: Script): Counts {
    match s
    case Start => Counts(0, 0, 0)
    case Match(p) => Tally(p)
    case Substitute(p) => var c := Tally(p); c.(s := c.s + 1)
    case Delete(p) => var c := Tally(p); c.(d := c.d + 1)
    case Insert(p) => var c := Tally(p); c.(ins := c.ins + 1)
  }

  function Cost(s: Script): nat {
    Tally(s).s + Tally(s).d + Tally(s).ins
  }

  /** `s` is a cheapest script among all scripts for the same pair of prefixes. */
  ghost predicate Optimal<T(!new)>(s: Script, ref: seq<T>, hyp: seq<T>, i: nat, j: nat)
    requires i <= |ref| && j <= |hyp|
  {
    && Edits(s, ref, hyp, i, j)
    && forall other :: Edits(other, ref, hyp, i, j) ==> Cost(s) <= Cost(other)
  }

  /** `n` is the least cost of any script for the two prefixes. */
  ghost predicate LeastCost<T(!new)>(n: nat, ref: seq<T>, hyp: seq<T>, i: nat, j: nat)
    requires i <= |ref| && j <= |hyp|
  {
    exists s :: Optimal(s, ref, hyp, i, j) && Cost(s) == n
  }

  function Min3(a: nat, b: nat, c: nat): nat {
    if a <= b && a <= c then a else if b <= c then b else c
  }

  /** The recurrence of the table: on equal tokens the diagonal is copied, no minimum taken. */
  function Cell<T(==)>(ref: seq<T>, hyp: seq<T>, i: nat, j: nat): nat
    requires i <= |ref| && j <= |hyp|
  {
    if i == 0 then j
    else if j == 0 then i
    else if ref[i-1] == hyp[j-1] then Cell(ref, hyp, i-1, j-1)
    else 1 + Min3(Cell(ref, hyp, i-1, j-1), Cell(ref, hyp, i-1, j), Cell(ref, hyp, i, j-1))
  }

  /** The script the traceback walks, chosen with the traceback's own branch order. */
  function Trace<T(==)>(ref: seq<T>, hyp: seq<T>, i: nat, j: nat): Script
    requires i <= |ref| && j <= |hyp|
    decreases i + j
  {
    if i == 0 && j == 0 then Start
    else if i > 0 && j > 0 && ref[i-1] == hyp[j-1] && Cell(ref, hyp, i, j) == Cell(ref, hyp, i-1, j-1) then
      Match(Trace(ref, hyp, i-1, j-1))
    else if i > 0 && j > 0 && Cell(ref, hyp, i, j) == Cell(ref, hyp, i-1, j-1) + 1 then
      Substitute(Trace(ref, hyp, i-1, j-1))
    else if i > 0 && Cell(ref, hyp, i, j) == Cell(ref, hyp, i-1, j) + 1 then
      Delete(Trace(ref, hyp, i-1, j))
    else if j > 0 then Insert(Trace(ref, hyp, i, j-1))
    else Start
  }

  lemma CellOnEdge<T>(ref: seq<T>, hyp: seq<T>, i: nat, j: nat)
    requires i <= |ref| && j <= |hyp| && (i == 0 || j == 0)
    ensures Cell(ref, hyp, i, j) == i + j
  {
  }

  lemma CellInside<T>(ref: seq<T>, hyp: seq<T>, i: nat, j: nat)
    requires 0 < i <= |ref| && 0 < j <= |hyp|
    ensures Cell(ref, hyp, i, j) ==
      if ref[i-1] == hyp[j-1] then Cell(ref, hyp, i-1, j-1)
      else 1 + Min3(Cell(ref, hyp, i-1, j-1), Cell(ref, hyp, i-1, j), Cell(ref, hyp, i, j-1))
  {
  }

  /** Neighbouring cells differ by at most one: the fact that makes the match shortcut safe. */
  lemma {:induction false} NeighboursDifferByAtMostOne<T>(ref: seq<T>, hyp: seq<T>, i: nat, j: nat)
    requires i <= |ref| && j <= |hyp|
    ensures i > 0 ==> -1 <= Cell(ref, hyp, i, j) - Cell(ref, hyp, i-1, j) <= 1
    ensures j > 0 ==> -1 <= Cell(ref, hyp, i, j) - Cell(ref, hyp, i, j-1) <= 1
    decreases i + j
  {
    hide Cell;
    if i > 0 && j > 0 {
      CellInside(ref, hyp, i, j);
      NeighboursDifferByAtMostOne(ref, hyp, i-1, j);
      NeighboursDifferByAtMostOne(ref, hyp, i, j-1);
    } else {
      CellOnEdge(ref, hyp, i, j);
      if i > 0 { CellOnEdge(ref, hyp, i-1, j); }
      if j > 0 { CellOnEdge(ref, hyp, i, j-1); }
    }
  }

  /** No script beats the table. */
  lemma {:induction false} CellIsLowerBound<T>(s: Script, ref: seq<T>, hyp: seq<T>, i: nat, j: nat)
    requires i <= |ref| && j <= |hyp|
    requires Edits(s, ref, hyp, i, j)
    ensures Cell(ref, hyp, i, j) <= Cost(s)
    decreases s
  {
    match s
    case Start =>
    case Match(p) => CellIsLowerBound(p, ref, hyp, i-1, j-1);
    case Substitute(p) => CellIsLowerBound(p, ref, hyp, i-1, j-1);
    case Delete(p) =>
      CellIsLowerBound(p, ref, hyp, i-1, j);
      NeighboursDifferByAtMostOne(ref, hyp, i, j);
    case Insert(p) =>
      CellIsLowerBound(p, ref, hyp, i, j-1);
      NeighboursDifferByAtMostOne(ref, hyp, i, j);
  }

  /** Where neither a match nor a substitution nor a deletion explains a cell, an insertion does. */
  lemma SomeMoveExplains<T>(ref: seq<T>, hyp: seq<T>, i: nat, j: nat)
    requires i <= |ref| && j <= |hyp|
    ensures i == 0 && j == 0 ==> Cell(ref, hyp, i, j) == 0
    ensures i > 0 && j > 0 && ref[i-1] == hyp[j-1] ==> Cell(ref, hyp, i, j) == Cell(ref, hyp, i-1, j-1)
    ensures
      || (i == 0 && j == 0)
      || (i > 0 && j > 0 && ref[i-1] == hyp[j-1])
      || (i > 0 && j > 0 && Cell(ref, hyp, i, j) == Cell(ref, hyp, i-1, j-1) + 1)
      || (i > 0 && Cell(ref, hyp, i, j) == Cell(ref, hyp, i-1, j) + 1)
      || (j > 0 && Cell(ref, hyp, i, j) == Cell(ref, hyp, i, j-1) + 1)
  {
  }

  /** The traceback's script is a real one and costs exactly what the table says. */
  lemma {:induction false} TraceIsScript<T>(ref: seq<T>, hyp: seq<T>, i: nat, j: nat)
    requires i <= |ref| && j <= |hyp|
    ensures Edits(Trace(ref, hyp, i, j), ref, hyp, i, j)
    ensures Cost(Trace(ref, hyp, i, j)) == Cell(ref, hyp, i, j)
    decreases i + j
  {
    hide Cell;
    SomeMoveExplains(ref, hyp, i, j);
    var c := Cell(ref, hyp, i, j);
    if i == 0 && j == 0 {
    } else if i > 0 && j > 0 && ref[i-1] == hyp[j-1] {
      TraceIsScript(ref, hyp, i-1, j-1);
    } else if i > 0 && j > 0 && c == Cell(ref, hyp, i-1, j-1) + 1 {
      TraceIsScript(ref, hyp, i-1, j-1);
    } else if i > 0 && c == Cell(ref, hyp, i-1, j) + 1 {
      TraceIsScript(ref, hyp, i-1, j);
    } else {
      TraceIsScript(ref, hyp, i, j-1);
    }
  }

  /** Every cell is the least cost over all edit scripts for its two prefixes. */
  lemma CellIsLeastCost<T(!new)>(ref: seq<T>, hyp: seq<T>, i: nat, j: nat)
    requires i <= |ref| && j <= |hyp|
    ensures Optimal(Trace(ref, hyp, i, j), ref, hyp, i, j)
    ensures LeastCost(Cell(ref, hyp, i, j), ref, hyp, i, j)
  {
    TraceIsScript(ref, hyp, i, j);
    forall other | Edits(other, ref, hyp, i, j)
      ensures Cost(Trace(ref, hyp, i, j)) <= Cost(other)
    {
      CellIsLowerBound(other, ref, hyp, i, j);
    }
  }

  method FillTable<T(==)>(ref: seq<T>, hyp: seq<T>) returns (cost: array2<nat>)
    ensures cost.Length0 == |ref| + 1 && cost.Length1 == |hyp| + 1
    ensures forall i, j {:trigger cost[i, j]} :: 0 <= i <= |ref| && 0 <= j <= |hyp| ==> cost[i, j] == Cell(ref, hyp, i, j)
  {
    var rows, cols := |ref| + 1, |hyp| + 1;
    cost := new nat[rows, cols];
    for i := 0 to rows
      invariant forall a :: 0 <= a < i ==> cost[a, 0] == a
    {
      cost[i, 0] := i;
    }
    for j := 0 to cols
      invariant forall a :: 0 <= a < rows ==> cost[a, 0] == a
      invariant forall b :: 0 <= b < j ==> cost[0, b] == b
    {
      cost[0, j] := j;
    }
    for i := 1 to rows
      invariant forall a :: 0 <= a < rows ==> cost[a, 0] == a
      invariant forall a, b {:trigger cost[a, b]} :: 0 <= a < i && 0 <= b < cols ==> cost[a, b] == Cell(ref, hyp, a, b)
    {
      for j := 1 to cols
        invariant forall a :: 0 <= a < rows ==> cost[a, 0] == a
        invariant forall a, b {:trigger cost[a, b]} :: 0 <= a < i && 0 <= b < cols ==> cost[a, b] == Cell(ref, hyp, a, b)
        invariant forall b {:trigger cost[i, b]} :: 0 <= b < j ==> cost[i, b] == Cell(ref, hyp, i, b)
      {
        var c := if ref[i-1] == hyp[j-1] then cost[i-1, j-1]
                 else 1 + Min3(cost[i-1, j-1], cost[i-1, j], cost[i, j-1]);
        assert c == Cell(ref, hyp, i, j);
        cost[i, j] := c;
      }
    }
  }

  /** What one turn of the traceback loop does to the counts still to be collected. */
  lemma TraceStep<T>(ref: seq<T>, hyp: seq<T>, i: nat, j: nat)
    requires i <= |ref| && j <= |hyp| && i + j > 0
    ensures var c, whole := Cell(ref, hyp, i, j), Tally(Trace(ref, hyp, i, j));
      if i > 0 && j > 0 && ref[i-1] == hyp[j-1] && c == Cell(ref, hyp, i-1, j-1) then
        whole == Tally(Trace(ref, hyp, i-1, j-1))
      else if i > 0 && j > 0 && c == Cell(ref, hyp, i-1, j-1) + 1 then
        var t := Tally(Trace(ref, hyp, i-1, j-1)); whole == t.(s := t.s + 1)
      else if i > 0 && c == Cell(ref, hyp, i-1, j) + 1 then
        var t := Tally(Trace(ref, hyp, i-1, j)); whole == t.(d := t.d + 1)
      else
        j > 0 && var t := Tally(Trace(ref, hyp, i, j-1)); whole == t.(ins := t.ins + 1)
  {
  }

  lemma NothingToWalk<T>(ref: seq<T>, hyp: seq<T>, i: nat, j: nat)
    requires i == 0 && j == 0
    ensures Tally(Trace(ref, hyp, i, j)) == Counts(0, 0, 0)
  {
  }

  /** Walks back from the corner of a filled table, counting the edits on the way. */
  method CountEdits<T(==)>(ref: seq<T>, hyp: seq<T>, cost: array2<nat>) returns (s: nat, d: nat, ins: nat)
    requires cost.Length0 == |ref| + 1 && cost.Length1 == |hyp| + 1
    requires forall i, j {:trigger cost[i, j]} :: 0 <= i <= |ref| && 0 <= j <= |hyp| ==> cost[i, j] == Cell(ref, hyp, i, j)
    ensures Tally(Trace(ref, hyp, |ref|, |hyp|)) == Counts(s, d, ins)
  {
    hide Cell, Trace, Tally;
    s, d, ins := 0, 0, 0;
    var i, j := |ref|, |hyp|;
    ghost var whole := Tally(Trace(ref, hyp, i, j));
    ghost var left := whole;
    while i > 0 || j > 0
      invariant 0 <= i <= |ref| && 0 <= j <= |hyp|
      invariant left == Tally(Trace(ref, hyp, i, j))
      invariant s + left.s == whole.s && d + left.d == whole.d && ins + left.ins == whole.ins
      decreases i + j
    {
      TraceStep(ref, hyp, i, j);
      if i > 0 && j > 0 && ref[i-1] == hyp[j-1] && cost[i, j] == cost[i-1, j-1] {
        i, j := i - 1, j - 1;
      } else if i > 0 && j > 0 && cost[i, j] == cost[i-1, j-1] + 1 {
        s := s + 1;
        i, j := i - 1, j - 1;
      } else if i > 0 && cost[i, j] == cost[i-1, j] + 1 {
        d := d + 1;
        i := i - 1;
      } else {
        ins := ins + 1;
        j := j - 1;
      }
      left := Tally(Trace(ref, hyp, i, j));
    }
    NothingToWalk(ref, hyp, i, j);
  }

  /** Word-level alignment. The counts returned are those of one real script, no script is
      cheaper, and deletions less insertions account for the difference in length. */
  method LevenshteinSdi<T(==,!new)>(ref: seq<T>, hyp: seq<T>) returns (s: nat, d: nat, ins: nat)
    ensures exists script :: Optimal(script, ref, hyp, |ref|, |hyp|) && Tally(script) == Counts(s, d, ins)
    ensures d - ins == |ref| - |hyp|
  {
    var cost := FillTable(ref, hyp);
    s, d, ins := CountEdits(ref, hyp, cost);
    CellIsLeastCost(ref, hyp, |ref|, |hyp|);
    LengthBalance(Trace(ref, hyp, |ref|, |hyp|), ref, hyp, |ref|, |hyp|);
  }

  lemma {:induction false} LengthBalance<T>(s: Script, ref: seq<T>, hyp: seq<T>, i: nat, j: nat)
    requires i <= |ref| && j <= |hyp|
    requires Edits(s, ref, hyp, i, j)
    ensures Tally(s).d - Tally(s).ins == i - j
    ensures Cost(s) >= i - j && Cost(s) >= j - i
    decreases s
  {
    match s
    case Start =>
    case Match(p) => LengthBalance(p, ref, hyp, i-1, j-1);
    case Substitute(p) => LengthBalance(p, ref, hyp, i-1, j-1);
    case Delete(p) => LengthBalance(p, ref, hyp, i-1, j);
    case Insert(p) => LengthBalance(p, ref, hyp, i, j-1);
  }

  // ---------- the total S + D + I is a metric on token lists ----------

  function Distance<T(==)>(ref: seq<T>, hyp: seq<T>): nat {
    Cell(ref, hyp, |ref|, |hyp|)
  }

  function Flip(s: Script): Script {
    match s
    case Start => Start
    case Match(p) => Match(Flip(p))
    case Substitute(p) => Substitute(Flip(p))
    case Delete(p) => Insert(Flip(p))
    case Insert(p) => Delete(Flip(p))
  }

  lemma {:induction false} FlipEdits<T>(s: Script, ref: seq<T>, hyp: seq<T>, i: nat, j: nat)
    requires i <= |ref| && j <= |hyp|
    requires Edits(s, ref, hyp, i, j)
    ensures Edits(Flip(s), hyp, ref, j, i)
    ensures Cost(Flip(s)) == Cost(s)
    decreases s
  {
    match s
    case Start =>
    case Match(p) => FlipEdits(p, ref, hyp, i-1, j-1);
    case Substitute(p) => FlipEdits(p, ref, hyp, i-1, j-1);
    case Delete(p) => FlipEdits(p, ref, hyp, i-1, j);
    case Insert(p) => FlipEdits(p, ref, hyp, i, j-1);
  }

  lemma DistanceAtMost<T>(a: seq<T>, b: seq<T>)
    ensures Distance(b, a) <= Distance(a, b)
  {
    TraceIsScript(a, b, |a|, |b|);
    FlipEdits(Trace(a, b, |a|, |b|), a, b, |a|, |b|);
    CellIsLowerBound(Flip(Trace(a, b, |a|, |b|)), b, a, |b|, |a|);
  }

  lemma DistanceIsSymmetric<T>(a: seq<T>, b: seq<T>)
    ensures Distance(a, b) == Distance(b, a)
  {
    DistanceAtMost(a, b);
    DistanceAtMost(b, a);
  }

  /** Runs `s` and then `t`, merging the steps that meet on the middle list. */
  function Compose(s: Script, t: Script): Script
    decreases s, t
  {
    if t.Insert? then Insert(Compose(s, t.prev))
    else match s
      case Delete(p) => Delete(Compose(p, t))
      case Start => Start
      case Insert(p) =>
        (match t
         case Delete(q) => Compose(p, q)
         case Match(q) => Insert(Compose(p, q))
         case Substitute(q) => Insert(Compose(p, q))
         case _ => Start)
      case Match(p) =>
        (match t
         case Delete(q) => Delete(Compose(p, q))
         case Match(q) => Match(Compose(p, q))
         case Substitute(q) => Substitute(Compose(p, q))
         case _ => Start)
      case Substitute(p) =>
        (match t
         case Delete(q) => Delete(Compose(p, q))
         case Match(q) => Substitute(Compose(p, q))
         case Substitute(q) => Substitute(Compose(p, q))
         case _ => Start)
  }

  lemma {:induction false} ComposeEdits<T>(s: Script, t: Script, a: seq<T>, b: seq<T>, c: seq<T>, i: nat, j: nat, k: nat)
    requires i <= |a| && j <= |b| && k <= |c|
    requires Edits(s, a, b, i, j) && Edits(t, b, c, j, k)
    ensures Edits(Compose(s, t), a, c, i, k)
    ensures Cost(Compose(s, t)) <= Cost(s) + Cost(t)
    decreases s, t
  {
    if t.Insert? {
      ComposeEdits(s, t.prev, a, b, c, i, j, k-1);
    } else if s.Delete? {
      ComposeEdits(s.prev, t, a, b, c, i-1, j, k);
    } else if !s.Start? {
      ComposeEdits(s.prev, t.prev, a, b, c,
                   if s.Insert? then i else i-1, j-1, if t.Delete? then k else k-1);
    }
  }

  lemma TriangleInequality<T>(a: seq<T>, b: seq<T>, c: seq<T>)
    ensures Distance(a, c) <= Distance(a, b) + Distance(b, c)
  {
    var s, t := Trace(a, b, |a|, |b|), Trace(b, c, |b|, |c|);
    TraceIsScript(a, b, |a|, |b|);
    TraceIsScript(b, c, |b|, |c|);
    ComposeEdits(s, t, a, b, c, |a|, |b|, |c|);
    CellIsLowerBound(Compose(s, t), a, c, |a|, |c|);
  }

  lemma {:induction false} ZeroCostMeansEqual<T>(s: Script, a: seq<T>, b: seq<T>, i: nat, j: nat)
    requires i <= |a| && j <= |b|
    requires Edits(s, a, b, i, j) && Cost(s) == 0
    ensures i == j && a[..i] == b[..j]
    decreases s
  {
    match s
    case Start =>
    case Match(p) =>
      ZeroCostMeansEqual(p, a, b, i-1, j-1);
      assert a[..i] == a[..i-1] + [a[i-1]] && b[..j] == b[..j-1] + [b[j-1]];
    case Substitute(p) =>
    case Delete(p) =>
    case Insert(p) =>
  }

  lemma {:induction false} SelfDistance<T>(a: seq<T>, i: nat)
    requires i <= |a|
    ensures Cell(a, a, i, i) == 0
  {
    if i > 0 { SelfDistance(a, i-1); }
  }

  lemma DistanceZeroIffEqual<T>(a: seq<T>, b: seq<T>)
    ensures Distance(a, b) == 0 <==> a == b
  {
    if Distance(a, b) == 0 {
      TraceIsScript(a, b, |a|, |b|);
      ZeroCostMeansEqual(Trace(a, b, |a|, |b|), a, b, |a|, |b|);
      assert a[..|a|] == a && b[..|b|] == b;
    }
    if a == b { SelfDistance(a, |a|); }
  }

  lemma {:induction false} CellAtMostLonger<T>(a: seq<T>, b: seq<T>, i: nat, j: nat)
    requires i <= |a| && j <= |b|
    ensures Cell(a, b, i, j) <= if i >= j then i else j
    decreases i + j
  {
    if i > 0 && j > 0 { CellAtMostLonger(a, b, i-1, j-1); }
  }

  lemma DistanceBounds<T>(a: seq<T>, b: seq<T>)
    ensures |a| - |b| <= Distance(a, b) && |b| - |a| <= Distance(a, b)
    ensures Distance(a, b) <= if |a| >= |b| then |a| else |b|
  {
    TraceIsScript(a, b, |a|, |b|);
    LengthBalance(Trace(a, b, |a|, |b|), a, b, |a|, |b|);
    CellAtMostLonger(a, b, |a|, |b|);
  }

  // ---------- the fabrication flags of score_session ----------

  const FLAG_LENGTH_RATIO := 1.5
  const FLAG_WER := 1.0

  /** The two figures of a recording and what is flagged about them. */
  datatype Report = Report(wer: real, ratio: real, longFlag: bool, werFlag: bool)

  function Score(edits: nat, refTokens: nat, hypTokens: nat): Report {
    var wer := if refTokens != 0 then edits as real / refTokens as real else 0.0;
    var ratio := if refTokens != 0 then hypTokens as real / refTokens as real else 0.0;
    Report(wer, ratio, ratio > FLAG_LENGTH_RATIO, wer > FLAG_WER)
  }

  lemma QuotientAbove(x: nat, n: nat, bound: real)
    requires n > 0
    ensures x as real / n as real > bound <==> x as real > bound * n as real
  {
    var q := x as real / n as real;
    assert q * n as real == x as real;
    if q > bound { assert (q - bound) * n as real > 0.0; }
    if q <= bound { assert (bound - q) * n as real >= 0.0; }
  }

  lemma QuotientTimes(x: nat, n: nat)
    requires n > 0
    ensures (x as real / n as real) * n as real == x as real
  {
  }

  /** The figures are quotients by the length of the reference, and each flag is an exact condition
      on the counts. */
  lemma ScoreMeans(edits: nat, n: nat, m: nat)
    requires n > 0
    ensures var f := Score(edits, n, m);
      f.wer * n as real == edits as real && f.ratio * n as real == m as real
    ensures Score(edits, n, m).werFlag <==> edits > n
    ensures Score(edits, n, m).longFlag <==> 2 * m > 3 * n
  {
    QuotientTimes(edits, n);
    QuotientTimes(m, n);
    QuotientAbove(edits, n, FLAG_WER);
    QuotientAbove(m, n, FLAG_LENGTH_RATIO);
  }

  /** The WER flag fires only on a hypothesis longer than its reference, a length-ratio flag
      implies a word error rate above one half, and an empty reference scores nothing and is never
      flagged, however long the text the recogniser made up for it. */
  lemma FlagMeaning<T>(ref: seq<T>, hyp: seq<T>)
    ensures var f := Score(Distance(ref, hyp), |ref|, |hyp|);
      && (f.werFlag ==> |hyp| > |ref|)
      && (f.longFlag ==> 2 * Distance(ref, hyp) > |ref|)
      && (ref == [] ==> f == Report(0.0, 0.0, false, false))
      && (ref != [] ==> (f.werFlag <==> Distance(ref, hyp) > |ref|))
      && (ref != [] ==> (f.longFlag <==> 2 * |hyp| > 3 * |ref|))
  {
    hide Score, Distance;
    DistanceBounds(ref, hyp);
    if ref == [] {
      NothingScored(Distance(ref, hyp), |hyp|);
    } else {
      ScoreMeans(Distance(ref, hyp), |ref|, |hyp|);
    }
  }

  lemma NothingScored(edits: nat, m: nat)
    ensures Score(edits, 0, m) == Report(0.0, 0.0, false, false)
  {
  }
}
