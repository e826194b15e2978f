/** JSON text as `JSON.stringify` writes it and `JSON.parse` reads it (section 25.5 of ECMA-262,
    2021 edition; RFC 8259), on values whose numbers are integers. */
module Json {
  import opened Sequences
  import opened Text
  import Decimal

  datatype Json =
    | Null
    | Bool(b: bool)
    | Num(n: int)
    | String(s: Str)
    | Array(items: seq<Json>)
    | Object(members: seq<Member>)

  datatype Member = Member(key: Str, value: Json)

  const QUOTE: CodeUnit := 34
  const COMMA: CodeUnit := 44
  const MINUS: CodeUnit := 45
  const COLON: CodeUnit := 58
  const OPEN_BRACKET: CodeUnit := 91
  const BACKSLASH: CodeUnit := 92
  const CLOSE_BRACKET: CodeUnit := 93
  const LOWER_U: CodeUnit := 117
  const OPEN_BRACE: CodeUnit := 123
  const CLOSE_BRACE: CodeUnit := 125

  // ---------- strings ----------

  predicate High(c: CodeUnit) { 0xD800 <= c <= 0xDBFF }

  predicate Low(c: CodeUnit) { 0xDC00 <= c <= 0xDFFF }

  function HexDigit(n: nat): CodeUnit
    requires n < 16
  {
    if n < 10 then 48 + n else 87 + n
  }

  function HexValue(c: CodeUnit): Option<nat> {
    if 48 <= c <= 57 then Some(c - 48)
    else if 97 <= c <= 102 then Some(c - 87)
    else if 65 <= c <= 70 then Some(c - 55)
    else None
  }

  /** The letter after the backslash of a short escape. */
  function ShortEscape(c: CodeUnit): Option<CodeUnit> {
    if c == 8 then Some(98)
    else if c == 9 then Some(116)
    else if c == 10 then Some(110)
    else if c == 12 then Some(102)
    else if c == 13 then Some(114)
    else if c == QUOTE || c == BACKSLASH then Some(c)
    else None
  }

  function ShortEscaped(e: CodeUnit): Option<CodeUnit> {
    if e == 98 then Some(8)
    else if e == 116 then Some(9)
    else if e == 110 then Some(10)
    else if e == 102 then Some(12)
    else if e == 114 then Some(13)
    else if e == 34 || e == 92 || e == 47 then Some(e)
    else None
  }

  function Hex4(c: CodeUnit): Str {
    [LOWER_U, HexDigit(c / 16 / 16 / 16), HexDigit(c / 16 / 16 % 16), HexDigit(c / 16 % 16), HexDigit(c % 16)]
  }

  /** One code unit that is not half of a surrogate pair. */
  function Escape(c: CodeUnit): (t: Str)
    ensures t != []
  {
    if ShortEscape(c).Some? then [BACKSLASH, ShortEscape(c).value]
    else if c < 0x20 || High(c) || Low(c) then [BACKSLASH] + Hex4(c)
    else [c]
  }

  /** The two blocks of surrogates. */
  lemma SurrogateBlocks(c: CodeUnit)
    ensures High(c) <==> c / 1024 == 54
    ensures Low(c) <==> c / 1024 == 55
  {
  }

  /** How a code unit that is not half of a pair is written: a few by a letter, control characters
      and lone surrogates by number, all others as they are. */
  lemma EscapeIs(c: CodeUnit)
    ensures Escape(c) ==
      if c == 8 then Lit("\\b") else if c == 9 then Lit("\\t") else if c == 10 then Lit("\\n")
      else if c == 12 then Lit("\\f") else if c == 13 then Lit("\\r")
      else if c == 34 || c == 92 then [92, c]
      else if c < 32 || c / 2048 == 27 then [92] + Hex4(c)
      else [c]
  {
    hide Hex4;
    SurrogateBlocks(c);
  }

  predicate Pair(s: Str) {
    |s| >= 2 && High(s[0]) && Low(s[1])
  }

  function QuoteBody(s: Str): Str {
    if s == [] then []
    else if Pair(s) then s[..2] + QuoteBody(s[2..])
    else Escape(s[0]) + QuoteBody(s[1..])
  }

  /** `JSON.stringify` of a string. */
  function Quote(s: Str): Str {
    [QUOTE] + (QuoteBody(s) + [QUOTE])
  }

  /** The code unit a backslash begins, and the text after it. */
  function Unescape(t: Str): (r: Option<(CodeUnit, Str)>)
    ensures r.Some? ==> |r.value.1| < |t|
  {
    if t == [] then None
    else if ShortEscaped(t[0]).Some? then Some((ShortEscaped(t[0]).value, t[1..]))
    else if t[0] == 117 && |t| >= 5 then
      var a, b, c, d := HexValue(t[1]), HexValue(t[2]), HexValue(t[3]), HexValue(t[4]);
      if a.Some? && b.Some? && c.Some? && d.Some? && a.value < 16 && b.value < 16 && c.value < 16 && d.value < 16 then
        Some((a.value * 0x1000 + b.value * 0x100 + c.value * 0x10 + d.value, t[5..]))
      else None
    else None
  }

  /** A string from just after its opening quote, and the text after its closing quote. */
  function ParseBody(t: Str): (r: Option<(Str, Str)>)
    ensures r.Some? ==> |r.value.1| < |t|
    decreases |t|
  {
    if t == [] || t[0] < 0x20 then None
    else if t[0] == 34 then Some(([], t[1..]))
    else if t[0] == 92 then
      match Unescape(t[1..])
      case None => None
      case Some((c, u)) => Put([c], ParseBody(u))
    else Put([t[0]], ParseBody(t[1..]))
  }

  function Put(head: Str, r: Option<(Str, Str)>): Option<(Str, Str)> {
    match r
    case None => None
    case Some((s, rest)) => Some((head + s, rest))
  }

  lemma HexDigits(c: CodeUnit)
    ensures var a, b, d, e := c / 16 / 16 / 16, c / 16 / 16 % 16, c / 16 % 16, c % 16;
      a < 16 && c == a * 0x1000 + b * 0x100 + d * 0x10 + e
  {
  }

  lemma HexValueOfDigit(n: nat)
    requires n < 16
    ensures HexValue(HexDigit(n)) == Some(n)
  {
  }

  /** Both cases of a hexadecimal digit are read; only the lower is written. */
  lemma HexValueIff(c: CodeUnit, n: nat)
    ensures HexValue(c) == Some(n) <==> n < 16 && (c == HexDigit(n) || (n >= 10 && c == HexDigit(n) - 32))
    ensures n < 16 ==> HexDigit(n) == if n < 10 then 48 + n else 97 + (n - 10)
  {
  }

  /** A slash is read with a backslash before it, though it is never written so. */
  lemma SlashIsRead(t: Str)
    ensures Unescape([47] + t) == Some((47, t))
  {
    assert ([47] + t)[1..] == t;
  }

  lemma UnescapeHex(c: CodeUnit, u: Str)
    ensures Unescape(Hex4(c) + u) == Some((c, u))
  {
    hide HexDigit, HexValue;
    HexDigits(c);
    HexValueOfDigit(c / 16 / 16 / 16);
    HexValueOfDigit(c / 16 / 16 % 16);
    HexValueOfDigit(c / 16 % 16);
    HexValueOfDigit(c % 16);
    assert (Hex4(c) + u)[5..] == u;
  }

  lemma ParseEscape(c: CodeUnit, u: Str)
    ensures ParseBody(Escape(c) + u) == Put([c], ParseBody(u))
  {
    hide ParseBody, Put, ShortEscape, Hex4;
    if ShortEscape(c).Some? {
      ParseShortEscape(c, u);
    } else if c < 0x20 || High(c) || Low(c) {
      ParseLongEscape(c, u);
    } else {
      ParseUnescaped(c, u);
    }
  }

  lemma ParseShortEscape(c: CodeUnit, u: Str)
    requires ShortEscape(c).Some?
    ensures ParseBody([BACKSLASH, ShortEscape(c).value] + u) == Put([c], ParseBody(u))
  {
    hide Put;
    var t := [BACKSLASH, ShortEscape(c).value] + u;
    assert t[1..] == [ShortEscape(c).value] + u && t[1..][1..] == u;
  }

  lemma ParseUnescaped(c: CodeUnit, u: Str)
    requires ShortEscape(c).None? && c >= 0x20
    ensures ParseBody([c] + u) == Put([c], ParseBody(u))
  {
    hide Put, Unescape;
    assert ([c] + u)[1..] == u;
  }

  lemma ParseLongEscape(c: CodeUnit, u: Str)
    ensures ParseBody([BACKSLASH] + Hex4(c) + u) == Put([c], ParseBody(u))
  {
    hide Unescape, Hex4, Put;
    var t := [BACKSLASH] + Hex4(c) + u;
    UnescapeHex(c, u);
    assert t[1..] == Hex4(c) + u;
  }

  lemma ParsePair(h: CodeUnit, l: CodeUnit, u: Str)
    requires High(h) && Low(l)
    ensures ParseBody([h, l] + u) == Put([h, l], ParseBody(u))
  {
    hide Unescape;
    assert ([h, l] + u)[1..] == [l] + u && ([l] + u)[1..] == u;
    assert ParseBody([l] + u) == Put([l], ParseBody(u));
    match ParseBody(u)
    case None =>
    case Some((s, rest)) => assert [h] + ([l] + s) == [h, l] + s;
  }

  /** Reading back what quoting wrote. */
  lemma {:induction false} ParseQuoted(s: Str, rest: Str)
    ensures ParseBody(QuoteBody(s) + ([QUOTE] + rest)) == Some((s, rest))
    decreases |s|
  {
    hide ParseBody, Escape;
    var tail := [QUOTE] + rest;
    if s == [] {
      CloseQuote(rest);
      assert [] + tail == tail;
    } else if Pair(s) {
      ParseQuoted(s[2..], rest);
      Associate(s[..2], QuoteBody(s[2..]), tail);
      assert s[..2] == [s[0], s[1]];
      ParsePair(s[0], s[1], QuoteBody(s[2..]) + tail);
      assert [s[0], s[1]] + s[2..] == s;
    } else {
      ParseQuoted(s[1..], rest);
      Associate(Escape(s[0]), QuoteBody(s[1..]), tail);
      ParseEscape(s[0], QuoteBody(s[1..]) + tail);
      assert [s[0]] + s[1..] == s;
    }
  }

  lemma CloseQuote(rest: Str)
    ensures ParseBody([QUOTE] + rest) == Some(([], rest))
  {
    assert ([QUOTE] + rest)[1..] == rest;
  }

  // ---------- values ----------

  function PrintInt(n: int): (t: Str)
    ensures t != []
  {
    if n < 0 then [MINUS] + Decimal.Print(-n) else Decimal.Print(n)
  }

  /** `JSON.stringify`. */
  function Print(v: Json): (t: Str)
    decreases v, 0
  {
    match v
    case Null => Lit("null")
    case Bool(b) => if b then Lit("true") else Lit("false")
    case Num(n) => PrintInt(n)
    case String(s) => Quote(s)
    case Array(items) => [OPEN_BRACKET] + (PrintItems(items) + [CLOSE_BRACKET])
    case Object(members) => [OPEN_BRACE] + (PrintMembers(members) + [CLOSE_BRACE])
  }

  function PrintItems(items: seq<Json>): Str
    decreases items, 1
  {
    if items == [] then []
    else Print(items[0]) + if |items| == 1 then [] else [COMMA] + PrintItems(items[1..])
  }

  function PrintMembers(members: seq<Member>): Str
    decreases members, 1
  {
    if members == [] then []
    else (Quote(members[0].key) + ([COLON] + Print(members[0].value)))
         + if |members| == 1 then [] else [COMMA] + PrintMembers(members[1..])
  }

  predicate Blank(c: CodeUnit) {
    c == 32 || c == 9 || c == 10 || c == 13
  }

  lemma BlanksListed(c: CodeUnit)
    ensures Blank(c) <==> c in {9, 10, 13, 32}
  {
  }

  function Skip(t: Str): (u: Str)
    ensures |u| <= |t|
    ensures u == t || (u != [] ==> !Blank(u[0]))
  {
    if t != [] && Blank(t[0]) then Skip(t[1..]) else t
  }

  /** The digits at the front of `t`. */
  function Digits(t: Str): (k: nat)
    ensures k <= |t| && Decimal.AllDigits(t[..k])
  {
    if t == [] || !Decimal.IsDigit(t[0]) then 0
    else
      var k := Digits(t[1..]);
      assert t[..1+k] == [t[0]] + t[1..][..k];
      1 + k
  }

  /** An integer; a fraction or an exponent is not read. */
  function ParseNat(t: Str): (r: Option<(nat, Str)>)
    ensures r.Some? ==> |r.value.1| < |t|
  {
    var k := Digits(t);
    if k == 0 || (k > 1 && t[0] == Decimal.ZERO) then None
    else if k < |t| && (t[k] == 46 || t[k] == 69 || t[k] == 101) then None
    else Some((Decimal.Value(t[..k]), t[k..]))
  }

  function ParseInt(t: Str): (r: Option<(int, Str)>)
    ensures r.Some? ==> |r.value.1| < |t|
  {
    if t != [] && t[0] == 45 then
      match ParseNat(t[1..])
      case None => None
      case Some((n, rest)) => Some((0 - n, rest))
    else match ParseNat(t)
      case None => None
      case Some((n, rest)) => Some((n, rest))
  }

  function ParseWord(t: Str, word: Str, v: Json): (r: Option<(Json, Str)>)
    requires word != []
    ensures r.Some? ==> |r.value.1| < |t|
  {
    if word <= t then Some((v, t[|word|..])) else None
  }

  /** A value at the front of `t`, and the text after it. */
  function ParseValue(t: Str): (r: Option<(Json, Str)>)
    ensures r.Some? ==> |r.value.1| < |t|
    decreases |t|, 0
  {
    var u := Skip(t);
    if u == [] then None
    else if u[0] == 34 then
      match ParseBody(u[1..])
      case None => None
      case Some((s, rest)) => Some((String(s), rest))
    else if u[0] == 91 then
      var w := Skip(u[1..]);
      if w != [] && w[0] == 93 then Some((Array([]), w[1..]))
      else match ParseItems(w)
        case None => None
        case Some((items, rest)) => Some((Array(items), rest))
    else if u[0] == 123 then
      var w := Skip(u[1..]);
      if w != [] && w[0] == 125 then Some((Object([]), w[1..]))
      else match ParseMembers(w)
        case None => None
        case Some((members, rest)) => Some((Object(members), rest))
    else if u[0] == 110 then ParseWord(u, Lit("null"), Null)
    else if u[0] == 116 then ParseWord(u, Lit("true"), Bool(true))
    else if u[0] == 102 then ParseWord(u, Lit("false"), Bool(false))
    else match ParseInt(u)
      case None => None
      case Some((n, rest)) => Some((Num(n), rest))
  }

  /** Items up to the closing bracket. */
  function ParseItems(t: Str): (r: Option<(seq<Json>, Str)>)
    ensures r.Some? ==> |r.value.1| < |t|
    decreases |t|, 1
  {
    match ParseValue(t)
    case None => None
    case Some((v, after)) =>
      var u := Skip(after);
      if u != [] && u[0] == 93 then Some(([v], u[1..]))
      else if u != [] && u[0] == 44 then
        match ParseItems(u[1..])
        case None => None
        case Some((items, rest)) => Some(([v] + items, rest))
      else None
  }

  /** A key, a colon and a value. */
  function ParseMember(t: Str): (r: Option<(Member, Str)>)
    ensures r.Some? ==> |r.value.1| < |t|
    decreases |t|, 1
  {
    var u := Skip(t);
    if u == [] || u[0] != 34 then None
    else match ParseBody(u[1..])
      case None => None
      case Some((key, after)) =>
        var w := Skip(after);
        if w == [] || w[0] != 58 then None
        else match ParseValue(w[1..])
          case None => None
          case Some((v, rest)) => Some((Member(key, v), rest))
  }

  /** Members up to the closing brace. */
  function ParseMembers(t: Str): (r: Option<(seq<Member>, Str)>)
    ensures r.Some? ==> |r.value.1| < |t|
    decreases |t|, 2
  {
    match ParseMember(t)
    case None => None
    case Some((m, after)) =>
      var u := Skip(after);
      if u != [] && u[0] == 125 then Some(([m], u[1..]))
      else if u != [] && u[0] == 44 then
        match ParseMembers(u[1..])
        case None => None
        case Some((members, rest)) => Some(([m] + members, rest))
      else None
  }

  /** `JSON.parse`; `None` is a SyntaxError. */
  function Parse(t: Str): Option<Json> {
    match ParseValue(t)
    case None => None
    case Some((v, rest)) => if Skip(rest) == [] then Some(v) else None
  }

  // ---------- reading back what was written ----------

  /** Text that cannot continue a number. */
  predicate Stop(rest: Str) {
    rest == [] || !(Decimal.IsDigit(rest[0]) || rest[0] == 46 || rest[0] == 69 || rest[0] == 101)
  }

  lemma {:induction false} DigitsOf(s: Str, rest: Str)
    requires Decimal.AllDigits(s) && Stop(rest)
    ensures Digits(s + rest) == |s|
  {
    if s == [] {
      assert s + rest == rest;
    } else {
      DropWithin(s, rest, 1);
      DigitsOf(s[1..], rest);
    }
  }

  lemma ParseDecimal(n: nat, rest: Str)
    requires Stop(rest)
    ensures ParseNat(Decimal.Print(n) + rest) == Some((n, rest))
  {
    var s := Decimal.Print(n);
    DigitsOf(s, rest);
    Decimal.ValueOfPrint(n);
    assert (s + rest)[..|s|] == s && (s + rest)[|s|..] == rest;
    if n >= 10 { assert s[0] != Decimal.ZERO; }
  }

  lemma ParsePrintedInt(n: int, rest: Str)
    requires Stop(rest)
    ensures ParseInt(PrintInt(n) + rest) == Some((n, rest))
  {
    hide ParseNat;
    if n < 0 {
      var s := Decimal.Print(-n);
      assert (([MINUS] + s) + rest)[1..] == s + rest;
      ParseDecimal(-n, rest);
    } else {
      ParseDecimal(n, rest);
    }
  }

  /** What a printed value begins with: never a blank, a comma or a closing bracket. */
  predicate Opens(t: Str) {
    t != [] && (t[0] == QUOTE || t[0] == OPEN_BRACKET || t[0] == OPEN_BRACE || t[0] == MINUS
                || Decimal.IsDigit(t[0]) || t[0] == 110 || t[0] == 116 || t[0] == 102)
  }

  lemma PrintOpens(v: Json, rest: Str)
    ensures Opens(Print(v) + rest) && Skip(Print(v) + rest) == Print(v) + rest
    ensures Print(v) != []
  {
  }

  lemma SkipNothing(c: CodeUnit, rest: Str)
    requires !Blank(c)
    ensures Skip([c] + rest) == [c] + rest && ([c] + rest)[1..] == rest
  {
  }

  lemma ParseLiteral(v: Json, rest: Str)
    requires v.Null? || v.Bool? || v.Num?
    requires v.Num? ==> Stop(rest)
    ensures ParseValue(Print(v) + rest) == Some((v, rest))
  {
    hide ParseInt, PrintInt, ParseItems, ParseMembers, ParseBody;
    PrintOpens(v, rest);
    match v
    case Null => assert (Lit("null") + rest)[4..] == rest;
    case Bool(b) =>
      if b { assert (Lit("true") + rest)[4..] == rest; } else { assert (Lit("false") + rest)[5..] == rest; }
    case Num(n) =>
      ParsePrintedInt(n, rest);
      NumberOpens(n, rest);
  }

  lemma NumberOpens(n: int, rest: Str)
    ensures var t := PrintInt(n) + rest; t != [] && (t[0] == MINUS || Decimal.IsDigit(t[0]))
  {
  }

  lemma ParseQuotedValue(s: Str, rest: Str)
    ensures ParseValue(Quote(s) + rest) == Some((String(s), rest))
  {
    hide ParseBody, QuoteBody, ParseItems, ParseMembers, ParseInt;
    QuotePlusRest(s, rest);
    SkipNothing(QUOTE, QuoteBody(s) + ([QUOTE] + rest));
    ParseQuoted(s, rest);
  }

  lemma QuotePlusRest(s: Str, rest: Str)
    ensures Quote(s) + rest == [QUOTE] + (QuoteBody(s) + ([QUOTE] + rest))
  {
    hide QuoteBody;
    Associate([QUOTE], QuoteBody(s) + [QUOTE], rest);
    Associate(QuoteBody(s), [QUOTE], rest);
  }

  /** Reading back what was printed, followed by any text that cannot continue a number. */
  lemma {:induction false} ParsePrinted(v: Json, rest: Str)
    requires Stop(rest)
    ensures ParseValue(Print(v) + rest) == Some((v, rest))
    decreases v, 0
  {
    hide ParseValue;
    match v
    case Null => ParseLiteral(v, rest);
    case Bool(b) => ParseLiteral(v, rest);
    case Num(n) => ParseLiteral(v, rest);
    case String(s) => ParseQuotedValue(s, rest);
    case Array(items) =>
      if items != [] { ParsePrintedItems(items, rest); }
      ParseArray(items, rest);
    case Object(members) =>
      if members != [] { ParsePrintedMembers(members, rest); }
      ParseObject(members, rest);
  }

  lemma ParseArray(items: seq<Json>, rest: Str)
    requires items != [] ==> ParseItems(PrintItems(items) + ([CLOSE_BRACKET] + rest)) == Some((items, rest))
    ensures ParseValue(Print(Array(items)) + rest) == Some((Array(items), rest))
  {
    hide ParseItems, ParseMembers, ParseBody, ParseInt, PrintItems;
    var tail := [CLOSE_BRACKET] + rest;
    var body := PrintItems(items) + tail;
    Associate([OPEN_BRACKET], PrintItems(items) + [CLOSE_BRACKET], rest);
    Associate(PrintItems(items), [CLOSE_BRACKET], rest);
    SkipNothing(OPEN_BRACKET, body);
    if items == [] {
      NoItems();
      assert body == tail;
      SkipNothing(CLOSE_BRACKET, rest);
    } else {
      ItemsOpen(items, tail);
    }
  }

  lemma NoItems()
    ensures PrintItems([]) == [] && PrintMembers([]) == []
  {
  }

  lemma ItemsOpen(items: seq<Json>, tail: Str)
    requires items != []
    ensures Opens(PrintItems(items) + tail) && Skip(PrintItems(items) + tail) == PrintItems(items) + tail
  {
    hide Print, Skip;
    var more := if |items| == 1 then [] else [COMMA] + PrintItems(items[1..]);
    Associate(Print(items[0]), more, tail);
    PrintOpens(items[0], more + tail);
  }

  lemma {:induction false} ParsePrintedItems(items: seq<Json>, rest: Str)
    requires items != []
    ensures ParseItems(PrintItems(items) + ([CLOSE_BRACKET] + rest)) == Some((items, rest))
    decreases items, 1
  {
    hide ParseValue, Print, Skip;
    var tail := [CLOSE_BRACKET] + rest;
    if |items| == 1 {
      assert Print(items[0]) + [] == Print(items[0]);
      ParsePrinted(items[0], tail);
      SkipNothing(CLOSE_BRACKET, rest);
      assert [items[0]] == items;
    } else {
      var more := PrintItems(items[1..]);
      Associate(Print(items[0]), [COMMA] + more, tail);
      Associate([COMMA], more, tail);
      ParsePrinted(items[0], [COMMA] + (more + tail));
      SkipNothing(COMMA, more + tail);
      ParsePrintedItems(items[1..], rest);
      assert [items[0]] + items[1..] == items;
    }
  }

  lemma ParseObject(members: seq<Member>, rest: Str)
    requires members != [] ==> ParseMembers(PrintMembers(members) + ([CLOSE_BRACE] + rest)) == Some((members, rest))
    ensures ParseValue(Print(Object(members)) + rest) == Some((Object(members), rest))
  {
    hide ParseItems, ParseMembers, ParseBody, ParseInt, PrintMembers;
    var tail := [CLOSE_BRACE] + rest;
    var body := PrintMembers(members) + tail;
    Associate([OPEN_BRACE], PrintMembers(members) + [CLOSE_BRACE], rest);
    Associate(PrintMembers(members), [CLOSE_BRACE], rest);
    SkipNothing(OPEN_BRACE, body);
    if members == [] {
      NoItems();
      assert body == tail;
      SkipNothing(CLOSE_BRACE, rest);
    } else {
      MembersOpen(members, tail);
    }
  }

  lemma MembersOpen(members: seq<Member>, tail: Str)
    requires members != []
    ensures var t := PrintMembers(members) + tail; t != [] && t[0] == QUOTE && Skip(t) == t
  {
    hide Print, QuoteBody;
  }

  lemma ParsePrintedMember(m: Member, rest: Str)
    requires ParseValue(Print(m.value) + rest) == Some((m.value, rest))
    ensures ParseMember((Quote(m.key) + ([COLON] + Print(m.value))) + rest) == Some((m, rest))
  {
    hide ParseValue, Print, Skip, ParseBody, QuoteBody, Quote;
    var value := Print(m.value) + rest;
    Associate(Quote(m.key), [COLON] + Print(m.value), rest);
    Associate([COLON], Print(m.value), rest);
    QuotePlusRest(m.key, [COLON] + value);
    SkipNothing(QUOTE, QuoteBody(m.key) + ([QUOTE] + ([COLON] + value)));
    ParseQuoted(m.key, [COLON] + value);
    SkipNothing(COLON, value);
  }

  lemma {:induction false} ParsePrintedMembers(members: seq<Member>, rest: Str)
    requires members != []
    ensures ParseMembers(PrintMembers(members) + ([CLOSE_BRACE] + rest)) == Some((members, rest))
    decreases members, 1
  {
    hide ParseValue, Print, Skip, ParseMember, Quote;
    var tail, m := [CLOSE_BRACE] + rest, members[0];
    var first := Quote(m.key) + ([COLON] + Print(m.value));
    if |members| == 1 {
      assert first + [] == first;
      ParsePrinted(m.value, tail);
      ParsePrintedMember(m, tail);
      SkipNothing(CLOSE_BRACE, rest);
      assert [m] == members;
    } else {
      var more := PrintMembers(members[1..]);
      Associate(first, [COMMA] + more, tail);
      Associate([COMMA], more, tail);
      ParsePrinted(m.value, [COMMA] + (more + tail));
      ParsePrintedMember(m, [COMMA] + (more + tail));
      SkipNothing(COMMA, more + tail);
      ParsePrintedMembers(members[1..], rest);
      assert [m] + members[1..] == members;
    }
  }

  /** Parsing undoes printing, for every value. */
  lemma ParseOfPrint(v: Json)
    ensures Parse(Print(v)) == Some(v)
  {
    hide ParseValue, Print;
    ParsePrinted(v, []);
    assert Print(v) + [] == Print(v);
  }

  /** Two values print alike only when they are the same. */
  lemma PrintIsInjective(v: Json, w: Json)
    requires Print(v) == Print(w)
    ensures v == w
  {
    hide Parse, Print;
    ParseOfPrint(v);
    ParseOfPrint(w);
  }
}
