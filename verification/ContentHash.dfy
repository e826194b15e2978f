/** The canonical content hash of backend/src/comms/contentHash.ts, with the digest left
    abstract: everything here is about the bytes it is given. */
module ContentHash {
  import opened Sequences
  import opened Text
  import opened Json

  // ---------- sorting by code unit ----------

  predicate Sorted(s: seq<Str>) {
    forall i, j :: 0 <= i < j < |s| ==> LexLe(s[i], s[j])
  }

  function Insert(x: Str, s: seq<Str>): seq<Str> {
    if s == [] || LexLe(x, s[0]) then [x] + s else [s[0]] + Insert(x, s[1..])
  }

  /** `[...recipients].sort()`. */
  function Sort(s: seq<Str>): seq<Str> {
    if s == [] then [] else Insert(s[0], Sort(s[1..]))
  }

  lemma {:induction false} InsertSorts(x: Str, s: seq<Str>)
    requires Sorted(s)
    ensures Sorted(Insert(x, s)) && multiset(Insert(x, s)) == multiset(s) + multiset{x}
  {
    hide LexLe;
    if s == [] {
    } else if LexLe(x, s[0]) {
      forall j | 0 <= j < |s| ensures LexLe(x, s[j]) {
        if j > 0 { LexLeTransitive(x, s[0], s[j]); }
      }
    } else {
      var rest := Insert(x, s[1..]);
      InsertSorts(x, s[1..]);
      LexLeTotal(x, s[0]);
      assert s == [s[0]] + s[1..];
      forall j | 0 <= j < |rest| ensures LexLe(s[0], rest[j]) {
        assert rest[j] in multiset(rest);
        if rest[j] != x {
          assert rest[j] in multiset(s[1..]);
          assert rest[j] in s[1..];
        }
      }
    }
  }

  lemma {:induction false} SortSorts(s: seq<Str>)
    ensures Sorted(Sort(s)) && multiset(Sort(s)) == multiset(s)
  {
    if s != [] {
      SortSorts(s[1..]);
      InsertSorts(s[0], Sort(s[1..]));
      assert s == [s[0]] + s[1..];
    }
  }

  lemma LeastFirst(a: seq<Str>, b: seq<Str>)
    requires a != [] && Sorted(a) && Sorted(b) && multiset(a) == multiset(b)
    ensures b != [] && a[0] == b[0]
  {
    hide LexLe;
    assert a[0] in multiset(a) && a[0] in b;
    assert b[0] in multiset(b) && b[0] in a;
    var i :| 0 <= i < |b| && b[i] == a[0];
    var j :| 0 <= j < |a| && a[j] == b[0];
    if i > 0 && j > 0 { LexLeAntisymmetric(a[0], b[0]); }
  }

  lemma MultisetOfRest(a: seq<Str>)
    requires a != []
    ensures multiset(a[1..]) == multiset(a) - multiset{a[0]}
  {
    assert a == [a[0]] + a[1..];
  }

  lemma {:induction false} SortedIsUnique(a: seq<Str>, b: seq<Str>)
    requires Sorted(a) && Sorted(b) && multiset(a) == multiset(b)
    ensures a == b
  {
    hide LexLe;
    if a == [] {
      assert |multiset(b)| == |b|;
    } else {
      LeastFirst(a, b);
      MultisetOfRest(a);
      MultisetOfRest(b);
      SortedIsUnique(a[1..], b[1..]);
      assert a == [a[0]] + a[1..] && b == [b[0]] + b[1..];
    }
  }

  // ---------- the canonical text ----------

  datatype Message = Message(from: Str, to: seq<Str>, body: Str)

  function Strings(s: seq<Str>): (r: seq<Json>)
    ensures |r| == |s| && forall i :: 0 <= i < |s| ==> r[i] == String(s[i])
  {
    seq(|s|, i requires 0 <= i < |s| => String(s[i]))
  }

  /** JSON.stringify([from, [...to].sort(), body]). */
  function Canonical(m: Message): Str {
    Print(Array([String(m.from), Array(Strings(Sort(m.to))), String(m.body)]))
  }

  ghost predicate SameContent(a: Message, b: Message) {
    a.from == b.from && multiset(a.to) == multiset(b.to) && a.body == b.body
  }

  /** Two messages have the same canonical text exactly when sender and body are equal and the
      recipients are equal up to order, counted with multiplicity. */
  lemma CanonicalIffSameContent(a: Message, b: Message)
    ensures Canonical(a) == Canonical(b) <==> SameContent(a, b)
  {
    hide Print, Sort;
    SortSorts(a.to);
    SortSorts(b.to);
    if Canonical(a) == Canonical(b) {
      var v := Array([String(a.from), Array(Strings(Sort(a.to))), String(a.body)]);
      var w := Array([String(b.from), Array(Strings(Sort(b.to))), String(b.body)]);
      PrintIsInjective(v, w);
      assert v.items[0] == w.items[0] && v.items[1] == w.items[1] && v.items[2] == w.items[2];
      var s, t := Sort(a.to), Sort(b.to);
      assert Strings(s) == Strings(t);
      assert |s| == |t| && forall i :: 0 <= i < |s| ==> Strings(s)[i] == Strings(t)[i] && s[i] == t[i];
      assert s == t;
    }
    if SameContent(a, b) { SortedIsUnique(Sort(a.to), Sort(b.to)); }
  }

  // ---------- the bytes given to the digest ----------

  type Byte = n: int | 0 <= n < 256

  /** Every surrogate is half of a pair. */
  predicate WellFormed(t: Str) {
    t == [] || (if Pair(t) then WellFormed(t[2..]) else !High(t[0]) && !Low(t[0]) && WellFormed(t[1..]))
  }

  function EncodeUnit(c: CodeUnit): (b: seq<Byte>)
    ensures b != []
  {
    if c < 0x80 then [c]
    else if c < 0x800 then [0xC0 + c / 64, 0x80 + c % 64]
    else [0xE0 + c / 64 / 64, 0x80 + c / 64 % 64, 0x80 + c % 64]
  }

  function EncodePair(h: CodeUnit, l: CodeUnit): (b: seq<Byte>)
    requires High(h) && Low(l)
    ensures |b| == 4
  {
    var p := 0x10000 + (h - 0xD800) * 0x400 + (l - 0xDC00);
    [0xF0 + p / 64 / 64 / 64, 0x80 + p / 64 / 64 % 64, 0x80 + p / 64 % 64, 0x80 + p % 64]
  }

  /** The UTF-8 of a text; an unpaired surrogate becomes the replacement character. */
  function Utf8(t: Str): seq<Byte> {
    if t == [] then []
    else if Pair(t) then EncodePair(t[0], t[1]) + Utf8(t[2..])
    else if High(t[0]) || Low(t[0]) then [0xEF, 0xBF, 0xBD] + Utf8(t[1..])
    else EncodeUnit(t[0]) + Utf8(t[1..])
  }

  function Unit(n: int): CodeUnit {
    if 0 <= n < 0x10000 then n else 0xFFFD
  }

  /** The six bits of a byte after the first. */
  function Tail(b: int): int {
    b - 0x80
  }

  /** The text of one encoded code point at the front of `b`, and its length. */
  function DecodeOne(b: seq<Byte>): (r: (Str, nat))
    requires b != []
    ensures 0 < r.1 <= |b|
  {
    var lead: int := b[0];
    if lead < 0x80 then ([lead], 1)
    else if lead < 0xE0 && |b| >= 2 then ([Unit((lead - 0xC0) * 64 + Tail(b[1]))], 2)
    else if lead < 0xF0 && |b| >= 3 then ([Unit((lead - 0xE0) * 4096 + Tail(b[1]) * 64 + Tail(b[2]))], 3)
    else if |b| >= 4 then
      var v := (lead - 0xF0) * 262144 + Tail(b[1]) * 4096 + Tail(b[2]) * 64 + Tail(b[3]) - 0x10000;
      ([Unit(0xD800 + v / 0x400), Unit(0xDC00 + v % 0x400)], 4)
    else ([0xFFFD], 1)
  }

  function Decode(b: seq<Byte>): Str
    decreases |b|
  {
    if b == [] then [] else DecodeOne(b).0 + Decode(b[DecodeOne(b).1..])
  }

  lemma DecodeUnit(c: CodeUnit, rest: seq<Byte>)
    requires !High(c) && !Low(c)
    ensures DecodeOne(EncodeUnit(c) + rest) == ([c], |EncodeUnit(c)|)
  {
    assert c == c / 64 * 64 + c % 64 && c / 64 == c / 64 / 64 * 64 + c / 64 % 64;
  }

  lemma SplitPoint(p: int)
    requires 0x10000 <= p < 0x110000
    ensures p == p / 64 / 64 / 64 * 262144 + p / 64 / 64 % 64 * 4096 + p / 64 % 64 * 64 + p % 64
    ensures 0 <= p / 64 / 64 / 64 < 5
  {
  }

  lemma DecodePair(h: CodeUnit, l: CodeUnit, rest: seq<Byte>)
    requires High(h) && Low(l)
    ensures DecodeOne(EncodePair(h, l) + rest) == ([h, l], 4)
  {
    var p := 0x10000 + (h - 0xD800) * 0x400 + (l - 0xDC00);
    SplitPoint(p);
    var low: int := l - 0xDC00;
    assert p - 0x10000 == (h - 0xD800) * 0x400 + low && 0 <= low < 0x400;
  }

  lemma {:induction false} DecodeOfUtf8(t: Str)
    requires WellFormed(t)
    ensures Decode(Utf8(t)) == t
    decreases |t|
  {
    hide DecodeOne, EncodeUnit, EncodePair;
    if t == [] {
    } else if Pair(t) {
      DecodeOfUtf8(t[2..]);
      DecodePair(t[0], t[1], Utf8(t[2..]));
      DropBeyond(EncodePair(t[0], t[1]), Utf8(t[2..]), 0);
      assert [t[0], t[1]] + t[2..] == t;
    } else {
      DecodeOfUtf8(t[1..]);
      DecodeUnit(t[0], Utf8(t[1..]));
      DropBeyond(EncodeUnit(t[0]), Utf8(t[1..]), 0);
      assert [t[0]] + t[1..] == t;
    }
  }

  /** On arbitrary text UTF-8 encoding loses information: an unpaired surrogate and the
      replacement character share their bytes. */
  lemma Utf8IsNotInjective()
    ensures Utf8([0xD800]) == Utf8([0xFFFD])
  {
  }

  // ---------- JSON text is always well formed ----------

  lemma {:induction false} WellFormedAppend(a: Str, b: Str)
    requires WellFormed(a) && WellFormed(b)
    ensures WellFormed(a + b)
    decreases |a|
  {
    if a == [] {
      assert a + b == b;
    } else if Pair(a) {
      DropWithin(a, b, 2);
      WellFormedAppend(a[2..], b);
    } else {
      DropWithin(a, b, 1);
      WellFormedAppend(a[1..], b);
    }
  }

  /** Cutting a well-formed text leaves both parts so, unless the cut halves a pair; then neither
      is. */
  lemma {:induction false} SplitWellFormed(t: Str, k: nat)
    requires WellFormed(t) && k <= |t|
    ensures var halved := 0 < k < |t| && High(t[k-1]) && Low(t[k]);
      WellFormed(t[..k]) == WellFormed(t[k..]) == !halved
    decreases |t|
  {
    if k == 0 {
      assert t[0..] == t;
    } else if Pair(t) {
      if k > 1 {
        SplitWellFormed(t[2..], k - 2);
        CutBehind(t, 2, k);
      }
    } else {
      SplitWellFormed(t[1..], k - 1);
      CutBehind(t, 1, k);
    }
  }

  lemma {:induction false} PlainIsWellFormed(t: Str)
    requires forall i :: 0 <= i < |t| ==> !High(t[i]) && !Low(t[i])
    ensures WellFormed(t)
  {
    if t != [] { PlainIsWellFormed(t[1..]); }
  }

  lemma EscapeIsWellFormed(c: CodeUnit)
    ensures WellFormed(Escape(c))
  {
    PlainIsWellFormed(Escape(c));
  }

  lemma {:induction false} QuoteBodyIsWellFormed(s: Str)
    ensures WellFormed(QuoteBody(s))
    decreases |s|
  {
    hide Escape;
    if s == [] {
    } else if Pair(s) {
      QuoteBodyIsWellFormed(s[2..]);
      assert s[..2][2..] == [];
      WellFormedAppend(s[..2], QuoteBody(s[2..]));
    } else {
      QuoteBodyIsWellFormed(s[1..]);
      EscapeIsWellFormed(s[0]);
      WellFormedAppend(Escape(s[0]), QuoteBody(s[1..]));
    }
  }

  lemma QuoteIsWellFormed(s: Str)
    ensures WellFormed(Quote(s))
  {
    hide QuoteBody, WellFormed;
    QuoteBodyIsWellFormed(s);
    PlainIsWellFormed([QUOTE]);
    WellFormedAppend(QuoteBody(s), [QUOTE]);
    WellFormedAppend([QUOTE], QuoteBody(s) + [QUOTE]);
  }

  /** What JSON.stringify writes has no unpaired surrogate, whatever the strings in it hold. */
  lemma {:induction false} PrintIsWellFormed(v: Json)
    ensures WellFormed(Print(v))
    decreases v, 0
  {
    hide WellFormed, Quote;
    match v
    case Null => PlainIsWellFormed(Print(v));
    case Bool(b) => PlainIsWellFormed(Print(v));
    case Num(n) => PlainIsWellFormed(Print(v));
    case String(s) => QuoteIsWellFormed(s);
    case Array(items) =>
      ItemsAreWellFormed(items);
      Bracketed(OPEN_BRACKET, PrintItems(items), CLOSE_BRACKET);
    case Object(members) =>
      MembersAreWellFormed(members);
      Bracketed(OPEN_BRACE, PrintMembers(members), CLOSE_BRACE);
  }

  lemma Bracketed(open: CodeUnit, t: Str, close: CodeUnit)
    requires WellFormed(t) && open < 0x80 && close < 0x80
    ensures WellFormed([open] + (t + [close]))
  {
    hide WellFormed;
    PlainIsWellFormed([open]);
    PlainIsWellFormed([close]);
    WellFormedAppend(t, [close]);
    WellFormedAppend([open], t + [close]);
  }

  lemma {:induction false} ItemsAreWellFormed(items: seq<Json>)
    ensures WellFormed(PrintItems(items))
    decreases items, 1
  {
    hide WellFormed, Print;
    PlainIsWellFormed([]);
    if items != [] {
      PrintIsWellFormed(items[0]);
      ItemsAreWellFormed(items[1..]);
      PlainIsWellFormed([COMMA]);
      WellFormedAppend([COMMA], PrintItems(items[1..]));
      WellFormedAppend(Print(items[0]), if |items| == 1 then [] else [COMMA] + PrintItems(items[1..]));
    }
  }

  lemma {:induction false} MembersAreWellFormed(members: seq<Member>)
    ensures WellFormed(PrintMembers(members))
    decreases members, 1
  {
    hide WellFormed, Print, Quote;
    PlainIsWellFormed([]);
    if members != [] {
      var m := members[0];
      PrintIsWellFormed(m.value);
      QuoteIsWellFormed(m.key);
      PlainIsWellFormed([COLON]);
      WellFormedAppend([COLON], Print(m.value));
      WellFormedAppend(Quote(m.key), [COLON] + Print(m.value));
      MembersAreWellFormed(members[1..]);
      PlainIsWellFormed([COMMA]);
      WellFormedAppend([COMMA], PrintMembers(members[1..]));
      WellFormedAppend(Quote(m.key) + ([COLON] + Print(m.value)),
                       if |members| == 1 then [] else [COMMA] + PrintMembers(members[1..]));
    }
  }

  // ---------- the hash ----------

  /** `computeContentHash` over an arbitrary digest. */
  function ComputeContentHash(digest: seq<Byte> -> Str, m: Message): Str {
    digest(Utf8(Canonical(m)))
  }

  /** The bytes the digest is given are equal exactly for messages with the same content, so
      the hash identifies same content, and confuses two messages only by a digest collision. */
  lemma HashedBytesIffSameContent(a: Message, b: Message)
    ensures Utf8(Canonical(a)) == Utf8(Canonical(b)) <==> SameContent(a, b)
  {
    hide Print, Utf8, Decode, WellFormed, SameContent;
    CanonicalIffSameContent(a, b);
    PrintIsWellFormed(Array([String(a.from), Array(Strings(Sort(a.to))), String(a.body)]));
    PrintIsWellFormed(Array([String(b.from), Array(Strings(Sort(b.to))), String(b.body)]));
    DecodeOfUtf8(Canonical(a));
    DecodeOfUtf8(Canonical(b));
  }
}
