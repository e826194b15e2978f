/** The statement splitter of backend/src/db/migrationRunner.ts. */
module SqlSplitter {
  import opened Sequences
  import opened Text

  const NEWLINE: CodeUnit := 10
  const DOUBLE_QUOTE: CodeUnit := 34
  const SINGLE_QUOTE: CodeUnit := 39
  const DASH: CodeUnit := 45
  const SEMICOLON: CodeUnit := 59

  datatype Mode = Normal | Single | Double | Comment

  /** The mode after the first character of `text`, which may look one character ahead. */
  function Step(mode: Mode, text: Str): Mode
    requires text != []
  {
    match mode
    case Comment => if text[0] == NEWLINE then Normal else Comment
    case Single => if text[0] == SINGLE_QUOTE then Normal else Single
    case Double => if text[0] == DOUBLE_QUOTE then Normal else Double
    case Normal =>
      if text[0] == DASH && |text| > 1 && text[1] == DASH then Comment
      else if text[0] == SINGLE_QUOTE then Single
      else if text[0] == DOUBLE_QUOTE then Double
      else Normal
  }

  /** The mode in which character `i` is read, starting from `mode`. */
  function ModeAt(mode: Mode, text: Str, i: nat): Mode
    requires i <= |text|
    decreases i
  {
    if i == 0 then mode else ModeAt(Step(mode, text), text[1..], i - 1)
  }

  function After(mode: Mode, text: Str): Mode {
    ModeAt(mode, text, |text|)
  }

  /** A semicolon outside every quote and comment. */
  predicate Cut(mode: Mode, text: Str, i: nat)
    requires i < |text|
  {
    text[i] == SEMICOLON && ModeAt(mode, text, i) == Normal
  }

  /** Number of characters before the first cut. */
  function FirstCut(mode: Mode, text: Str): (k: nat)
    ensures k <= |text|
    decreases |text|
  {
    if text == [] || (mode == Normal && text[0] == SEMICOLON) then 0
    else 1 + FirstCut(Step(mode, text), text[1..])
  }

  /** Something besides white space and comments comes before the first cut. */
  predicate HasContent(mode: Mode, text: Str)
    decreases |text|
  {
    text != [] &&
    match mode
    case Comment => HasContent(Step(mode, text), text[1..])
    case Single => true
    case Double => true
    case Normal =>
      if Step(mode, text) == Comment then HasContent(Comment, text[1..])
      else text[0] != SEMICOLON && (!IsSpace(text[0]) || HasContent(Normal, text[1..]))
  }

  /** The statement before the first cut, if there is one. */
  function FirstStatement(text: Str): seq<Str> {
    if HasContent(Normal, text) then [Trim(text[..FirstCut(Normal, text)])] else []
  }

  function Statements(text: Str): seq<Str>
    decreases |text|
  {
    var k := FirstCut(Normal, text);
    if k == |text| then FirstStatement(text) else FirstStatement(text) + Statements(text[k+1..])
  }

  ghost function Finish(out: seq<Str>, text: Str): seq<Str> {
    out + Statements(text)
  }

  lemma NextStatement(out: seq<Str>, text: Str, k: nat)
    requires k == FirstCut(Normal, text) < |text|
    ensures Finish(out + FirstStatement(text), text[k+1..]) == Finish(out, text)
  {
    hide FirstCut, FirstStatement;
    Associate(out, FirstStatement(text), Statements(text[k+1..]));
  }

  lemma LastStatement(out: seq<Str>, sql: Str, b: nat, mode: Mode, hasContent: bool)
    requires Scanning(sql, b, |sql|, mode, hasContent)
    ensures Finish(out, sql[b..]) == if hasContent then out + [Trim(sql[b..])] else out
  {
    hide Trim;
    assert sql[b..][..|sql|-b] == sql[b..];
  }

  /** The scanner stands at `i` in `mode`, in a segment that started at `b`. */
  ghost predicate Scanning(sql: Str, b: nat, i: nat, mode: Mode, hasContent: bool) {
    && b <= i <= |sql|
    && FirstCut(Normal, sql[b..]) == i - b + FirstCut(mode, sql[i..])
    && HasContent(Normal, sql[b..]) == (hasContent || HasContent(mode, sql[i..]))
    && (mode == Single || mode == Double ==> hasContent)
  }

  lemma ScanOne(sql: Str, b: nat, i: nat, mode: Mode, hasContent: bool)
    requires i < |sql| && Scanning(sql, b, i, mode, hasContent)
    requires !(mode == Normal && sql[i] == SEMICOLON)
    ensures var mode' := Step(mode, sql[i..]);
      Scanning(sql, b, i + 1, mode',
               hasContent || mode' == Single || mode' == Double ||
               (mode == Normal && mode' == Normal && !IsSpace(sql[i])))
    ensures sql[b..i] + [sql[i]] == sql[b..i+1]
  {
    assert sql[i..][1..] == sql[i+1..];
  }

  lemma ScanCut(sql: Str, b: nat, i: nat, hasContent: bool, out: seq<Str>)
    requires i < |sql| && Scanning(sql, b, i, Normal, hasContent) && sql[i] == SEMICOLON
    ensures Scanning(sql, i + 1, i + 1, Normal, false)
    ensures Finish(if hasContent then out + [Trim(sql[b..i])] else out, sql[i+1..]) == Finish(out, sql[b..])
  {
    hide Trim, Statements;
    assert sql[b..][..i-b] == sql[b..i] && sql[b..][i-b+1..] == sql[i+1..];
    assert FirstStatement(sql[b..]) == if hasContent then [Trim(sql[b..i])] else [];
    assert out + [] == out;
    NextStatement(out, sql[b..], i - b);
  }

  method SplitSqlStatements(sql: Str) returns (statements: seq<Str>)
    ensures statements == Statements(sql)
  {
    hide FirstCut, HasContent, FirstStatement, Statements, Trim, Finish;
    statements := [];
    var current: Str := [];
    var hasContent := false;
    var mode := Normal;
    ghost var b := 0;
    for i := 0 to |sql|
      invariant Scanning(sql, b, i, mode, hasContent) && current == sql[b..i]
      invariant Finish(statements, sql[b..]) == Finish([], sql[0..])
    {
      var ch := sql[i];
      if mode == Normal && ch == SEMICOLON {
        ScanCut(sql, b, i, hasContent, statements);
      } else {
        ScanOne(sql, b, i, mode, hasContent);
      }
      if mode == Comment {
        current := current + [ch];
        if ch == NEWLINE { mode := Normal; }
      } else if mode == Single {
        current := current + [ch];
        hasContent := true;
        if ch == SINGLE_QUOTE { mode := Normal; }
      } else if mode == Double {
        current := current + [ch];
        hasContent := true;
        if ch == DOUBLE_QUOTE { mode := Normal; }
      } else if ch == DASH && i + 1 < |sql| && sql[i+1] == DASH {
        mode := Comment;
        current := current + [ch];
      } else if ch == SEMICOLON {
        if hasContent { statements := statements + [Trim(current)]; }
        current := [];
        hasContent := false;
        b := i + 1;
      } else {
        current := current + [ch];
        if ch == SINGLE_QUOTE { mode := Single; hasContent := true; }
        else if ch == DOUBLE_QUOTE { mode := Double; hasContent := true; }
        else if !IsSpace(ch) { hasContent := true; }
      }
    }
    LastStatement(statements, sql, b, mode, hasContent);
    assert current == sql[b..];
    if hasContent { statements := statements + [Trim(current)]; }
    FinishFromStart(sql);
  }

  lemma FinishFromStart(sql: Str)
    ensures Finish([], sql[0..]) == Statements(sql)
  {
    hide Statements;
    assert sql[0..] == sql;
  }

  // ---------- scanning a text in pieces ----------

  lemma StepInside(mode: Mode, a: Str, b: Str)
    requires a != [] && (b == [] || b[0] != DASH)
    ensures Step(mode, a + b) == Step(mode, a)
    ensures (a + b)[0] == a[0] && (a + b)[1..] == a[1..] + b
  {
    if |a| > 1 { assert (a + b)[1] == a[1]; }
  }

  lemma AfterHead(mode: Mode, text: Str)
    requires text != []
    ensures After(mode, text) == After(Step(mode, text), text[1..])
  {
    hide Step;
  }

  /** What the first character contributes to the content of a text it does not cut. */
  predicate Contributes(mode: Mode, text: Str)
    requires text != []
  {
    mode == Single || mode == Double || (mode == Normal && Step(mode, text) != Comment && !IsSpace(text[0]))
  }

  lemma ContentHead(mode: Mode, text: Str)
    requires text != [] && !(mode == Normal && text[0] == SEMICOLON)
    ensures HasContent(mode, text) == (Contributes(mode, text) || HasContent(Step(mode, text), text[1..]))
  {
  }

  /** Scanning `a` and then `b` is scanning `a + b`, unless a dash pair straddles the join. */
  lemma {:induction false} ScanAppend(mode: Mode, a: Str, b: Str)
    requires FirstCut(mode, a) == |a|
    requires b == [] || b[0] != DASH
    ensures FirstCut(mode, a + b) == |a| + FirstCut(After(mode, a), b)
    ensures HasContent(mode, a + b) == (HasContent(mode, a) || HasContent(After(mode, a), b))
    ensures After(mode, a + b) == After(After(mode, a), b)
    decreases |a|
  {
    hide Step, IsSpace;
    if a == [] {
      assert a + b == b;
    } else {
      hide After, ModeAt, HasContent;
      StepInside(mode, a, b);
      ContentHead(mode, a);
      ContentHead(mode, a + b);
      AfterHead(mode, a);
      AfterHead(mode, a + b);
      ScanAppend(Step(mode, a), a[1..], b);
    }
  }

  lemma {:induction false} CutStays(mode: Mode, a: Str, b: Str)
    requires FirstCut(mode, a) < |a|
    requires b == [] || b[0] != DASH
    ensures FirstCut(mode, a + b) == FirstCut(mode, a)
    decreases |a|
  {
    if !(mode == Normal && a[0] == SEMICOLON) {
      DropWithin(a, b, 1);
      CutStays(Step(mode, a), a[1..], b);
    }
  }

  /** The text before the first cut has no cut, has content if the whole does, and ends in
      normal mode when a cut follows it. */
  lemma {:induction false} BeforeCut(mode: Mode, text: Str)
    ensures var k := FirstCut(mode, text);
      && FirstCut(mode, text[..k]) == k
      && HasContent(mode, text[..k]) == HasContent(mode, text)
      && (k < |text| ==> text[k] == SEMICOLON && After(mode, text[..k]) == Normal)
    decreases |text|
  {
    var k := FirstCut(mode, text);
    if k > 0 {
      BeforeCut(Step(mode, text), text[1..]);
      assert text[..k][1..] == text[1..][..k-1];
    }
  }

  // ---------- the cuts are exactly the free semicolons ----------

  lemma {:induction false} ModeAtCompose(mode: Mode, text: Str, i: nat, j: nat)
    requires i + j <= |text|
    ensures ModeAt(mode, text, i + j) == ModeAt(ModeAt(mode, text, i), text[i..], j)
    decreases i
  {
    if i > 0 {
      ModeAtCompose(Step(mode, text), text[1..], i - 1, j);
      assert text[1..][i-1..] == text[i..];
    } else {
      assert text[0..] == text;
    }
  }

  lemma {:induction false} FirstCutIsFirst(mode: Mode, text: Str)
    ensures forall i :: 0 <= i < FirstCut(mode, text) ==> !Cut(mode, text, i)
    ensures FirstCut(mode, text) < |text| ==> Cut(mode, text, FirstCut(mode, text))
    decreases |text|
  {
    if text != [] && !(mode == Normal && text[0] == SEMICOLON) {
      FirstCutIsFirst(Step(mode, text), text[1..]);
      forall i | 0 <= i < FirstCut(mode, text) ensures !Cut(mode, text, i) {
        if i > 0 { assert !Cut(Step(mode, text), text[1..], i - 1); }
      }
    }
  }

  /** The text cut at every cut, nothing else removed. */
  function Segments(text: Str): (segments: seq<Str>)
    ensures segments != []
    decreases |text|
  {
    var k := FirstCut(Normal, text);
    if k == |text| then [text] else [text[..k]] + Segments(text[k+1..])
  }

  /** The segments with content, trimmed. */
  function Keep(segments: seq<Str>): seq<Str> {
    if segments == [] then []
    else if HasContent(Normal, segments[0]) then [Trim(segments[0])] + Keep(segments[1..])
    else Keep(segments[1..])
  }

  /** The statements are the segments that hold more than white space and comments, trimmed. */
  lemma {:induction false} StatementsAreTrimmedSegments(text: Str)
    ensures Statements(text) == Keep(Segments(text))
    decreases |text|
  {
    var k := FirstCut(Normal, text);
    BeforeCut(Normal, text);
    if k < |text| {
      StatementsAreTrimmedSegments(text[k+1..]);
      assert Segments(text)[1..] == Segments(text[k+1..]);
    } else {
      assert text[..k] == text;
    }
  }

  /** Where the separators go when the segments are put back together, counting from `from`. */
  function Separators(segments: seq<Str>, from: nat): set<nat> {
    if |segments| <= 1 then {}
    else {from + |segments[0]|} + Separators(segments[1..], from + |segments[0]| + 1)
  }

  lemma {:induction false} SeparatorsShift(segments: seq<Str>, from: nat, shift: nat, i: nat)
    ensures i + shift in Separators(segments, from + shift) <==> i in Separators(segments, from)
    decreases |segments|
  {
    if |segments| > 1 { SeparatorsShift(segments[1..], from + |segments[0]| + 1, shift, i); }
  }

  lemma {:induction false} SeparatorsStart(segments: seq<Str>, from: nat, i: nat)
    requires i in Separators(segments, from)
    ensures i >= from
    decreases |segments|
  {
    if |segments| > 1 && i != from + |segments[0]| {
      SeparatorsStart(segments[1..], from + |segments[0]| + 1, i);
    }
  }

  lemma CutShift(text: Str, k: nat, i: nat)
    requires k < i < |text| && Cut(Normal, text, k)
    ensures Cut(Normal, text, i) <==> Cut(Normal, text[k+1..], i - k - 1)
  {
    ModeAtCompose(Normal, text, k, 1);
    ModeAtCompose(Normal, text, k + 1, i - k - 1);
    assert ModeAt(Normal, text, k + 1) == ModeAt(Step(Normal, text[k..]), text[k..][1..], 0) == Normal;
  }

  /** The segments rejoined with semicolons are the input, and the semicolons put between them
      are exactly those of the input that lie outside quotes and comments. */
  lemma {:induction false} CutsAreTheFreeSemicolons(text: Str)
    ensures Join(Segments(text), [SEMICOLON]) == text
    ensures forall i :: 0 <= i < |text| ==> (i in Separators(Segments(text), 0) <==> Cut(Normal, text, i))
    decreases |text|
  {
    var k := FirstCut(Normal, text);
    FirstCutIsFirst(Normal, text);
    if k < |text| {
      var rest := text[k+1..];
      CutsAreTheFreeSemicolons(rest);
      assert Segments(text)[1..] == Segments(rest);
      assert text == text[..k] + ([SEMICOLON] + rest);
      forall i | 0 <= i < |text|
        ensures i in Separators(Segments(text), 0) <==> Cut(Normal, text, i)
      {
        FreeSemicolonAt(text, k, i);
      }
    }
  }

  lemma FreeSemicolonAt(text: Str, k: nat, i: nat)
    requires k == FirstCut(Normal, text) < |text| && i < |text|
    requires Cut(Normal, text, k) && (i < k ==> !Cut(Normal, text, i))
    requires i > k ==> (i - k - 1 in Separators(Segments(text[k+1..]), 0) <==> Cut(Normal, text[k+1..], i - k - 1))
    ensures i in Separators(Segments(text), 0) <==> Cut(Normal, text, i)
  {
    hide FirstCut, Cut, Separators;
    var tail := Segments(text[k+1..]);
    SeparatorsCons(text[..k], tail);
    if i > k {
      CutShift(text, k, i);
      SeparatorsShift(tail, 0, k + 1, i - k - 1);
    } else if i in Separators(tail, k + 1) {
      SeparatorsStart(tail, k + 1, i);
    }
  }

  lemma SeparatorsCons(first: Str, tail: seq<Str>)
    requires tail != []
    ensures Separators([first] + tail, 0) == {|first|} + Separators(tail, |first| + 1)
  {
    assert ([first] + tail)[1..] == tail;
  }

  // ---------- splitting what the splitter returned ----------

  /** A text the splitter gives back untouched. */
  ghost predicate Statement(st: Str) {
    FirstCut(Normal, st) == |st| && HasContent(Normal, st) && Trimmed(st)
  }

  /** A new line after `st` leaves the scanner in normal mode: no quote is left open. */
  ghost predicate Closed(st: Str) {
    After(Normal, st) == Normal || After(Normal, st) == Comment
  }

  ghost predicate StatementList(list: seq<Str>) {
    && (forall i :: 0 <= i < |list| ==> Statement(list[i]))
    && (forall i :: 0 <= i < |list| - 1 ==> Closed(list[i]))
  }

  lemma {:induction false} SpacesScan(mode: Mode, s: Str)
    requires AllSpace(s)
    ensures FirstCut(mode, s) == |s|
    ensures mode == Normal ==> After(mode, s) == Normal && !HasContent(mode, s)
    ensures mode == Single || mode == Double ==> After(mode, s) == mode
    ensures mode == Comment ==> !HasContent(mode, s)
    decreases |s|
  {
    if s != [] { SpacesScan(Step(mode, s), s[1..]); }
  }

  lemma {:induction false} OpenQuoteIsContent(mode: Mode, s: Str)
    requires FirstCut(mode, s) == |s|
    requires mode == Normal || mode == Comment
    requires After(mode, s) == Single || After(mode, s) == Double
    ensures HasContent(mode, s)
    decreases |s|
  {
    if s != [] && Step(mode, s) != Single && Step(mode, s) != Double {
      OpenQuoteIsContent(Step(mode, s), s[1..]);
    }
  }

  lemma {:induction false} ScanAfterSpaces(lead: Str, t: Str)
    requires AllSpace(lead)
    ensures FirstCut(Normal, lead + t) == |lead| + FirstCut(Normal, t)
    ensures HasContent(Normal, lead + t) == HasContent(Normal, t)
    ensures After(Normal, lead + t) == After(Normal, t)
  {
    if lead == [] {
      assert lead + t == t;
    } else {
      DropWithin(lead, t, 1);
      ScanAfterSpaces(lead[1..], t);
    }
  }

  lemma TrimmedSegment(seg: Str)
    requires FirstCut(Normal, seg) == |seg| && HasContent(Normal, seg)
    ensures Statement(Trim(seg))
    ensures After(Normal, seg) == Normal ==> Closed(Trim(seg))
  {
    var lead, trail := TrimSplits(seg);
    var st := Trim(seg);
    Associate(lead, st, trail);
    ScanAfterSpaces(lead, st + trail);
    if FirstCut(Normal, st) < |st| { CutStays(Normal, st, trail); }
    ScanAppend(Normal, st, trail);
    SpacesScan(After(Normal, st), trail);
    if After(Normal, st) == Single || After(Normal, st) == Double { OpenQuoteIsContent(Normal, st); }
  }

  lemma {:induction false} StatementsAreStatements(text: Str)
    ensures StatementList(Statements(text))
    decreases |text|
  {
    var k := FirstCut(Normal, text);
    BeforeCut(Normal, text);
    if HasContent(Normal, text) { TrimmedSegment(text[..k]); }
    if k < |text| { StatementsAreStatements(text[k+1..]); }
  }

  /** The separator ends a closed statement and adds nothing to it. */
  lemma SeparatorCuts(mode: Mode, tail: Str)
    requires (mode == Normal || mode == Comment) && |tail| >= 2 && tail[0] == NEWLINE && tail[1] == SEMICOLON
    ensures FirstCut(mode, tail) == 1
  {
    var rest := tail[1..];
    assert rest[0] == SEMICOLON && FirstCut(Normal, rest) == 0;
  }

  lemma ScanJoined(st: Str, rest: Str)
    requires Statement(st) && Closed(st)
    ensures var text := st + ([NEWLINE, SEMICOLON] + rest);
      && FirstCut(Normal, text) == |st| + 1 && text[|st| + 2..] == rest
      && FirstStatement(text) == [st]
  {
    hide FirstCut, HasContent, Trim, After;
    var tail := [NEWLINE, SEMICOLON] + rest;
    var text := st + tail;
    ScanAppend(Normal, st, tail);
    SeparatorCuts(After(Normal, st), tail);
    TrimPadded([], st, [NEWLINE]);
    assert tail[..1] == [NEWLINE] && tail[2..] == rest;
    DropBeyond(st, tail, 2);
    assert text[..|st| + 1] == st + tail[..1] == [] + st + [NEWLINE];
  }

  lemma {:induction false} RejoinedListSplitsBack(list: seq<Str>)
    requires StatementList(list)
    ensures Statements(Join(list, [NEWLINE, SEMICOLON])) == list
    decreases |list|
  {
    if list == [] {
    } else if |list| == 1 {
      var st := list[0];
      TrimOfTrimmed(st);
      assert st[..|st|] == st;
    } else {
      RejoinedListSplitsBack(list[1..]);
      ScanJoined(list[0], Join(list[1..], [NEWLINE, SEMICOLON]));
    }
  }

  /** For every input: each returned statement splits to just itself, and the statements joined
      by a new line and a semicolon split back to the same list. */
  lemma SplittingIsStable(sql: Str)
    ensures forall st | st in Statements(sql) :: Statements(st) == [st]
    ensures Statements(Join(Statements(sql), [NEWLINE, SEMICOLON])) == Statements(sql)
  {
    StatementsAreStatements(sql);
    RejoinedListSplitsBack(Statements(sql));
    forall st | st in Statements(sql) ensures Statements(st) == [st] {
      RejoinedListSplitsBack([st]);
    }
  }
}
