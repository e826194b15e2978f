/** SQL text as a list of tokens, and the statement splitter of backend/src/db/migrationRunner.ts
    against it: what it returns is what the tokens say, without a scanner. */
module SqlTokens {
  import opened Sequences
  import opened Text
  import opened SqlSplitter

  /** A quoted run or a comment is `closed` unless the text ends within it. */
  datatype Token =
    | Plain(c: CodeUnit)
    | Semi
    | LineComment(body: Str, closed: bool)
    | Quoted(quote: CodeUnit, body: Str, closed: bool)

  predicate Fits(t: Token) {
    match t
    case Plain(c) => c != 34 && c != 39 && c != 59
    case Semi => true
    case LineComment(body, _) => 10 !in body
    case Quoted(q, body, _) => (q == 34 || q == 39) && q !in body
  }

  predicate Open(t: Token) {
    (t.LineComment? || t.Quoted?) && !t.closed
  }

  /** Two dashes never come apart: a dash is followed by none. */
  predicate Follows(t: Token, next: Token) {
    !Open(t) && (t == Plain(45) ==> next != Plain(45) && !next.LineComment?)
  }

  predicate Sql(ts: seq<Token>) {
    && (forall k :: 0 <= k < |ts| ==> Fits(ts[k]))
    && (forall k :: 0 <= k < |ts| - 1 ==> Follows(ts[k], ts[k+1]))
  }

  function Show(t: Token): (s: Str)
    ensures s != []
  {
    match t
    case Plain(c) => [c]
    case Semi => [59]
    case LineComment(body, closed) => [45, 45] + (body + if closed then [10] else [])
    case Quoted(q, body, closed) => [q] + (body + if closed then [q] else [])
  }

  function ShowAll(ts: seq<Token>): Str {
    if ts == [] then [] else Show(ts[0]) + ShowAll(ts[1..])
  }

  /** A token that makes its statement worth running. */
  predicate Counts(t: Token) {
    t.Quoted? || (t.Plain? && !IsSpace(t.c))
  }

  predicate HasOne(ts: seq<Token>) {
    exists k :: 0 <= k < |ts| && Counts(ts[k])
  }

  /** The number of tokens before the first semicolon. */
  function Upto(ts: seq<Token>): (k: nat)
    ensures k <= |ts|
    ensures k < |ts| ==> ts[k] == Semi
    ensures Semi !in ts[..k]
  {
    if ts == [] || ts[0] == Semi then 0 else 1 + Upto(ts[1..])
  }

  /** The texts between the semicolons that hold more than white space and comments, trimmed. */
  function Meant(ts: seq<Token>): seq<Str>
    decreases |ts|
  {
    var k := Upto(ts);
    var first := if HasOne(ts[..k]) then [Trim(ShowAll(ts[..k]))] else [];
    if k == |ts| then first else first + Meant(ts[k+1..])
  }

  // ---------- one token ----------

  lemma {:induction false} CommentRuns(body: Str, closed: bool, u: Str)
    requires 10 !in body && (!closed ==> u == [])
    ensures var text := body + (if closed then [10] else []) + u;
      && FirstCut(Comment, text) == |text| - |u| + FirstCut(Normal, u)
      && HasContent(Comment, text) == HasContent(Normal, u)
      && (closed ==> ModeAt(Comment, text, |body| + 1) == Normal)
  {
    var text := body + (if closed then [10] else []) + u;
    if body != [] {
      assert text[1..] == body[1..] + (if closed then [10] else []) + u;
      CommentRuns(body[1..], closed, u);
    } else if closed {
      assert text[1..] == u;
    }
  }

  lemma {:induction false} QuoteRuns(mode: Mode, q: CodeUnit, body: Str, closed: bool, u: Str)
    requires (mode == Single && q == 39) || (mode == Double && q == 34)
    requires q !in body && (!closed ==> u == [])
    ensures var text := body + (if closed then [q] else []) + u;
      && FirstCut(mode, text) == |text| - |u| + FirstCut(Normal, u)
      && (closed ==> ModeAt(mode, text, |body| + 1) == Normal)
  {
    var text := body + (if closed then [q] else []) + u;
    if body != [] {
      assert text[1..] == body[1..] + (if closed then [q] else []) + u;
      QuoteRuns(mode, q, body[1..], closed, u);
    } else if closed {
      assert text[1..] == u;
    }
  }

  /** What can come after a token. */
  predicate Fitting(t: Token, u: Str) {
    (Open(t) ==> u == []) && (t == Plain(45) ==> u == [] || u[0] != 45)
  }

  lemma OneStep(mode: Mode, text: Str)
    requires text != [] && !(mode == Normal && text[0] == 59)
    ensures FirstCut(mode, text) == 1 + FirstCut(Step(mode, text), text[1..])
    ensures HasContent(mode, text) == (Contributes(mode, text) || HasContent(Step(mode, text), text[1..]))
    ensures forall k :: 1 <= k <= |text| ==> ModeAt(mode, text, k) == ModeAt(Step(mode, text), text[1..], k - 1)
  {
    hide Step, IsSpace;
    ContentHead(mode, text);
  }

  lemma PlainRuns(t: Token, u: Str)
    requires t.Plain? && Fits(t) && Fitting(t, u)
    ensures FirstCut(Normal, [t.c] + u) == 1 + FirstCut(Normal, u)
    ensures HasContent(Normal, [t.c] + u) == (Counts(t) || HasContent(Normal, u))
    ensures ModeAt(Normal, [t.c] + u, 1) == Normal
  {
    hide IsSpace;
    var text := [t.c] + u;
    assert text[1..] == u;
    assert Step(Normal, text) == Normal;
  }

  lemma CommentTokenRuns(t: Token, u: Str)
    requires t.LineComment? && Fits(t) && Fitting(t, u)
    ensures FirstCut(Normal, Show(t) + u) == |Show(t)| + FirstCut(Normal, u)
    ensures HasContent(Normal, Show(t) + u) == HasContent(Normal, u)
    ensures !Open(t) ==> ModeAt(Normal, Show(t) + u, |Show(t)|) == Normal
  {
    hide FirstCut, HasContent, ModeAt, IsSpace;
    var body := t.body + (if t.closed then [10] else []) + u;
    var text, inner := Show(t) + u, [45] + body;
    CommentRuns(t.body, t.closed, u);
    assert text[1..] == inner && inner[1..] == body;
    OneStep(Normal, text);
    OneStep(Comment, inner);
  }

  lemma QuoteOpens(text: Str)
    requires text != [] && (text[0] == 34 || text[0] == 39)
    ensures Step(Normal, text) == (if text[0] == 39 then Single else Double) && Contributes(Normal, text)
  {
  }

  lemma QuotedRuns(t: Token, u: Str)
    requires t.Quoted? && Fits(t) && Fitting(t, u)
    ensures FirstCut(Normal, Show(t) + u) == |Show(t)| + FirstCut(Normal, u)
    ensures HasContent(Normal, Show(t) + u)
    ensures !Open(t) ==> ModeAt(Normal, Show(t) + u, |Show(t)|) == Normal
  {
    hide FirstCut, HasContent, ModeAt, Step, Contributes, IsSpace;
    var text, body := Show(t) + u, t.body + (if t.closed then [t.quote] else []) + u;
    var mode := if t.quote == 39 then Single else Double;
    QuoteRuns(mode, t.quote, t.body, t.closed, u);
    assert text[1..] == body;
    QuoteOpens(text);
    OneStep(Normal, text);
  }

  lemma TokenRuns(t: Token, u: Str)
    requires Fits(t) && t != Semi && Fitting(t, u)
    ensures FirstCut(Normal, Show(t) + u) == |Show(t)| + FirstCut(Normal, u)
    ensures HasContent(Normal, Show(t) + u) == (Counts(t) || HasContent(Normal, u))
    ensures !Open(t) ==> ModeAt(Normal, Show(t) + u, |Show(t)|) == Normal
  {
    hide FirstCut, HasContent, ModeAt, IsSpace;
    match t
    case Plain(c) => PlainRuns(t, u);
    case LineComment(_, _) => CommentTokenRuns(t, u);
    case Quoted(_, _, _) => QuotedRuns(t, u);
  }

  // ---------- a list of tokens ----------

  lemma {:induction false} ShowAppend(a: seq<Token>, b: seq<Token>)
    ensures ShowAll(a + b) == ShowAll(a) + ShowAll(b)
  {
    hide Show;
    if a == [] {
      assert a + b == b;
    } else {
      DropWithin(a, b, 1);
      ShowAppend(a[1..], b);
      Associate(Show(a[0]), ShowAll(a[1..]), ShowAll(b));
    }
  }

  lemma TailIsSql(ts: seq<Token>, k: nat)
    requires Sql(ts) && k <= |ts|
    ensures Sql(ts[k..])
  {
    hide Fits, Follows;
  }

  /** The text after the first token is one that can follow it. */
  lemma TailFits(ts: seq<Token>)
    requires Sql(ts) && ts != []
    ensures Fitting(ts[0], ShowAll(ts[1..])) && Fits(ts[0]) && Sql(ts[1..])
  {
    TailIsSql(ts, 1);
    if |ts| > 1 {
      assert Follows(ts[0], ts[1]) && ts[1] == ts[1..][0];
      if ts[0] == Plain(45) { FirstUnit(ts[1], ShowAll(ts[1..][1..])); }
    }
  }

  lemma FirstUnit(t: Token, u: Str)
    requires Fits(t) && t != Plain(45) && !t.LineComment?
    ensures (Show(t) + u)[0] != 45
  {
  }

  /** Up to its first semicolon a text has no cut, and content if one of the tokens has. */
  lemma {:induction false} GroupScan(ts: seq<Token>)
    requires Sql(ts)
    ensures FirstCut(Normal, ShowAll(ts)) == |ShowAll(ts[..Upto(ts)])|
    ensures HasContent(Normal, ShowAll(ts)) == HasOne(ts[..Upto(ts)])
  {
    hide FirstCut, HasContent, Show, ShowAll, HasOne, Upto, Sql, Fits, Fitting;
    var k := Upto(ts);
    if ts == [] {
      NoText();
    } else {
      ShowHead(ts);
      UptoHead(ts);
      if ts[0] == Semi {
        SemicolonFirst(ShowAll(ts[1..]));
        NoText();
      } else {
        TailFits(ts);
        GroupScan(ts[1..]);
        TokenRuns(ts[0], ShowAll(ts[1..]));
        CutBehind(ts, 1, k);
        ShowHead(ts[..k]);
        HasOneHead(ts[..k]);
      }
    }
  }

  lemma ShowHead(ts: seq<Token>)
    requires ts != []
    ensures ShowAll(ts) == Show(ts[0]) + ShowAll(ts[1..])
  {
  }

  lemma UptoHead(ts: seq<Token>)
    requires ts != []
    ensures Upto(ts) == if ts[0] == Semi then 0 else 1 + Upto(ts[1..])
  {
  }

  lemma NoText()
    ensures FirstCut(Normal, []) == 0 && !HasContent(Normal, []) && ShowAll([]) == [] && !HasOne([]) && Upto([]) == 0
  {
  }

  lemma SemicolonFirst(u: Str)
    ensures FirstCut(Normal, Show(Semi) + u) == 0 && !HasContent(Normal, Show(Semi) + u)
  {
  }

  lemma HasOneHead(ts: seq<Token>)
    requires ts != []
    ensures HasOne(ts) == (Counts(ts[0]) || HasOne(ts[1..]))
  {
    hide Counts;
    if HasOne(ts[1..]) {
      var k :| 0 <= k < |ts[1..]| && Counts(ts[1..][k]);
      assert Counts(ts[k+1]);
    }
    if HasOne(ts) {
      var k :| 0 <= k < |ts| && Counts(ts[k]);
      assert k > 0 ==> Counts(ts[1..][k-1]);
    }
  }

  /** The statements of any SQL text are the ones its tokens mean. */
  lemma {:induction false} StatementsAreMeant(ts: seq<Token>)
    requires Sql(ts)
    ensures Statements(ShowAll(ts)) == Meant(ts)
    decreases |ts|
  {
    hide FirstCut, HasContent, Show, Trim, HasOne, Upto;
    var k, text := Upto(ts), ShowAll(ts);
    GroupScan(ts);
    ShowAppend(ts[..k], ts[k..]);
    assert ts[..k] + ts[k..] == ts;
    if k == |ts| {
      assert ts[..k] == ts && text[..|text|] == text;
    } else {
      SemicolonShown(ts, k);
      TailIsSql(ts, k + 1);
      StatementsAreMeant(ts[k+1..]);
    }
  }

  /** The text from a semicolon token on. */
  lemma SemicolonShown(ts: seq<Token>, k: nat)
    requires k < |ts| && ts[k] == Semi
    ensures var text, n := ShowAll(ts), |ShowAll(ts[..k])|;
      n < |text| && text[n] == 59 && text[..n] == ShowAll(ts[..k]) && text[n+1..] == ShowAll(ts[k+1..])
  {
    ShowAppend(ts[..k], ts[k..]);
    assert ts[..k] + ts[k..] == ts && ts[k..][1..] == ts[k+1..];
    DropBeyond(ShowAll(ts[..k]), ShowAll(ts[k..]), 1);
  }

  /** A semicolon token is shown at `i`. */
  predicate SemicolonAt(ts: seq<Token>, i: nat) {
    exists k :: 0 <= k < |ts| && ts[k] == Semi && |ShowAll(ts[..k])| == i
  }

  /** The cuts of any SQL text are exactly its semicolon tokens: no semicolon inside a quoted run
      or a comment cuts, and every other does. */
  lemma {:induction false} CutsAreSemicolonTokens(ts: seq<Token>, i: nat)
    requires Sql(ts) && i < |ShowAll(ts)|
    ensures Cut(Normal, ShowAll(ts), i) <==> SemicolonAt(ts, i)
    decreases |ts|
  {
    hide FirstCut, Show, Cut, Upto;
    var k, text := Upto(ts), ShowAll(ts);
    var n := |ShowAll(ts[..k])|;
    GroupScan(ts);
    FirstCutIsFirst(Normal, text);
    assert k == |ts| ==> ts[..k] == ts;
    if i > n {
      SemicolonShown(ts, k);
      TailIsSql(ts, k + 1);
      CutShift(text, n, i);
      CutsAreSemicolonTokens(ts[k+1..], i - n - 1);
      LaterSemicolon(ts, k, i);
    } else {
      EarlierSemicolon(ts, k, i);
    }
  }

  lemma PlaceInRest(ts: seq<Token>, k: nat, m: nat)
    requires k < m < |ts| && ts[k] == Semi
    ensures ts[m] == ts[k+1..][m-k-1]
    ensures |ShowAll(ts[..m])| == |ShowAll(ts[..k])| + 1 + |ShowAll(ts[k+1..][..m-k-1])|
  {
    hide ShowAll;
    SemicolonShown(ts[..m], k);
    assert ts[..m][..k] == ts[..k] && ts[..m][k+1..] == ts[k+1..][..m-k-1];
  }

  lemma LaterSemicolon(ts: seq<Token>, k: nat, i: nat)
    requires k < |ts| && ts[k] == Semi && Semi !in ts[..k] && i > |ShowAll(ts[..k])|
    ensures SemicolonAt(ts, i) <==> SemicolonAt(ts[k+1..], i - |ShowAll(ts[..k])| - 1)
  {
    hide ShowAll;
    var rest, j := ts[k+1..], i - |ShowAll(ts[..k])| - 1;
    if SemicolonAt(ts, i) {
      var m :| 0 <= m < |ts| && ts[m] == Semi && |ShowAll(ts[..m])| == i;
      NotBefore(ts, k, m);
      PlaceInRest(ts, k, m);
      assert rest[m-k-1] == Semi;
    }
    if SemicolonAt(rest, j) {
      var m :| 0 <= m < |rest| && rest[m] == Semi && |ShowAll(rest[..m])| == j;
      PlaceInRest(ts, k, m + k + 1);
      assert ts[m+k+1] == Semi;
    }
  }

  lemma NotBefore(ts: seq<Token>, k: nat, m: nat)
    requires k <= |ts| && Semi !in ts[..k] && m < |ts| && ts[m] == Semi
    ensures m >= k
  {
    assert forall j :: 0 <= j < k ==> ts[..k][j] == ts[j];
  }

  lemma EarlierSemicolon(ts: seq<Token>, k: nat, i: nat)
    requires k <= |ts| && (k < |ts| ==> ts[k] == Semi) && Semi !in ts[..k]
    requires i <= |ShowAll(ts[..k])|
    ensures SemicolonAt(ts, i) <==> k < |ts| && i == |ShowAll(ts[..k])|
  {
    hide ShowAll;
    if SemicolonAt(ts, i) {
      var m :| 0 <= m < |ts| && ts[m] == Semi && |ShowAll(ts[..m])| == i;
      NotBefore(ts, k, m);
      if m > k { PlaceInRest(ts, k, m); }
    }
  }

  // ---------- every text is SQL text ----------

  /** Every text is a list of tokens. */
  lemma {:induction false} EveryTextIsSql(text: Str) returns (ts: seq<Token>)
    ensures Sql(ts) && ShowAll(ts) == text
    decreases |text|
  {
    if text == [] {
      ts := [];
    } else {
      var t, u := FirstToken(text);
      var rest := EveryTextIsSql(u);
      ts := [t] + rest;
      assert ts[1..] == rest;
      if rest != [] { FollowsFirst(t, rest); }
    }
  }

  lemma FollowsFirst(t: Token, rest: seq<Token>)
    requires rest != [] && Fits(t) && Fitting(t, ShowAll(rest))
    ensures Follows(t, rest[0])
  {
  }

  /** The token a text begins with. */
  lemma FirstToken(text: Str) returns (t: Token, u: Str)
    requires text != []
    ensures Fits(t) && Fitting(t, u) && Show(t) + u == text && |u| < |text|
  {
    if text[0] == 59 {
      t, u := Semi, text[1..];
    } else if text[0] == 34 || text[0] == 39 {
      var k := FirstOf(text[0], text[1..]);
      var inside := text[1..];
      t, u := Quoted(text[0], inside[..k], k < |inside|), if k < |inside| then inside[k+1..] else [];
      assert [text[0]] + inside == text && inside == inside[..k] + (if k < |inside| then [inside[k]] else []) + u;
    } else if |text| > 1 && text[0] == 45 && text[1] == 45 {
      var inside := text[2..];
      var k := FirstOf(10, inside);
      t, u := LineComment(inside[..k], k < |inside|), if k < |inside| then inside[k+1..] else [];
      assert [45, 45] + inside == text && inside == inside[..k] + (if k < |inside| then [inside[k]] else []) + u;
    } else {
      t, u := Plain(text[0]), text[1..];
    }
  }

  lemma {:induction false} FirstOf(c: CodeUnit, s: Str) returns (k: nat)
    ensures k <= |s| && c !in s[..k] && (k < |s| ==> s[k] == c)
  {
    if s == [] || s[0] == c {
      k := 0;
    } else {
      k := FirstOf(c, s[1..]);
      k := k + 1;
      assert s[..k] == [s[0]] + s[1..][..k-1];
    }
  }

  /** So for every text there are tokens it shows, and they tell what the splitter returns. */
  lemma SplitsAsMeant(text: Str) returns (ts: seq<Token>)
    ensures Sql(ts) && ShowAll(ts) == text && Statements(text) == Meant(ts)
  {
    ts := EveryTextIsSql(text);
    StatementsAreMeant(ts);
  }
}
