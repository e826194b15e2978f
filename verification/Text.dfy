/** JavaScript strings as sequences of 16-bit code units, with the parts of the string
    library the backend uses. */
module Text {
  import opened Sequences

  type CodeUnit = n: int | 0 <= n < 0x10000
  type Str = seq<CodeUnit>

  datatype Option<+T> = None | Some(value: T)

  /** The code units of a literal; the literals of this project are all ASCII. */
  function Lit(s: string): (t: Str)
    ensures |t| == |s|
    ensures forall i :: 0 <= i < |s| && s[i] as int < 128 ==> t[i] == s[i] as int
  {
    seq(|s|, i requires 0 <= i < |s| => (s[i] as int) % 0x10000)
  }

  /** White space and line terminators as `trim` and the pattern \s read them
      (sections 12.2 and 12.3 of ECMA-262, 2021 edition). */
  predicate IsSpace(c: CodeUnit) {
    || 9 <= c <= 13
    || c == 32 || c == 0xA0 || c == 0x1680 || 0x2000 <= c <= 0x200A
    || c == 0x2028 || c == 0x2029 || c == 0x202F || c == 0x205F || c == 0x3000 || c == 0xFEFF
  }

  /** The 25 code units they are. */
  lemma SpacesListed(c: CodeUnit)
    ensures IsSpace(c) <==> c in {
      9, 10, 11, 12, 13, 32, 160, 5760, 8192, 8193, 8194, 8195, 8196, 8197, 8198, 8199, 8200, 8201, 8202,
      8232, 8233, 8239, 8287, 12288, 65279}
  {
  }

  predicate AllSpace(s: Str) {
    forall i :: 0 <= i < |s| ==> IsSpace(s[i])
  }

  /** Neither end is white space. */
  predicate Trimmed(s: Str) {
    s == [] || (!IsSpace(s[0]) && !IsSpace(s[|s|-1]))
  }

  function TrimStart(s: Str): Str {
    if s != [] && IsSpace(s[0]) then TrimStart(s[1..]) else s
  }

  function TrimEnd(s: Str): Str {
    if s != [] && IsSpace(s[|s|-1]) then TrimEnd(s[..|s|-1]) else s
  }

  function Trim(s: Str): Str {
    TrimEnd(TrimStart(s))
  }

  lemma {:induction false} TrimStartSplits(s: Str) returns (lead: Str)
    ensures s == lead + TrimStart(s) && AllSpace(lead)
    ensures TrimStart(s) != [] ==> !IsSpace(TrimStart(s)[0])
  {
    if s != [] && IsSpace(s[0]) {
      lead := TrimStartSplits(s[1..]);
      lead := [s[0]] + lead;
    } else {
      lead := [];
    }
  }

  lemma {:induction false} TrimEndSplits(s: Str) returns (trail: Str)
    ensures s == TrimEnd(s) + trail && AllSpace(trail)
    ensures TrimEnd(s) != [] ==> !IsSpace(TrimEnd(s)[|TrimEnd(s)|-1])
    ensures TrimEnd(s) != [] ==> TrimEnd(s)[0] == s[0]
  {
    if s != [] && IsSpace(s[|s|-1]) {
      trail := TrimEndSplits(s[..|s|-1]);
      trail := trail + [s[|s|-1]];
    } else {
      trail := [];
    }
  }

  /** Trimming takes off a white prefix and a white suffix, as much of each as there is. */
  lemma TrimSplits(s: Str) returns (lead: Str, trail: Str)
    ensures s == lead + Trim(s) + trail
    ensures AllSpace(lead) && AllSpace(trail) && Trimmed(Trim(s))
  {
    lead := TrimStartSplits(s);
    trail := TrimEndSplits(TrimStart(s));
    Associate(lead, Trim(s), trail);
  }

  lemma TrimIsEmptyIff(s: Str)
    ensures Trim(s) == [] <==> AllSpace(s)
  {
    hide IsSpace, Trim;
    var lead, trail := TrimSplits(s);
    if Trim(s) != [] { assert s[|lead|] == Trim(s)[0]; }
    assert Trim(s) == [] ==> s == lead + trail;
  }

  lemma {:induction false} TrimStartPadded(lead: Str, t: Str)
    requires AllSpace(lead)
    ensures TrimStart(lead + t) == TrimStart(t)
  {
    if lead == [] {
      assert lead + t == t;
    } else {
      DropWithin(lead, t, 1);
      TrimStartPadded(lead[1..], t);
    }
  }

  lemma {:induction false} TrimEndPadded(t: Str, trail: Str)
    requires AllSpace(trail)
    ensures TrimEnd(t + trail) == TrimEnd(t)
  {
    if trail == [] {
      assert t + trail == t;
    } else {
      var n := |trail| - 1;
      assert (t + trail)[..|t| + n] == t + trail[..n];
      TrimEndPadded(t, trail[..n]);
    }
  }

  /** Padding a trimmed text with white space and trimming again gives it back. */
  lemma TrimPadded(lead: Str, t: Str, trail: Str)
    requires AllSpace(lead) && AllSpace(trail) && Trimmed(t)
    ensures Trim(lead + t + trail) == t
  {
    Associate(lead, t, trail);
    TrimStartPadded(lead, t + trail);
    if t == [] {
      TrimStartPadded(trail, []);
      assert trail + [] == trail == t + trail;
    } else {
      TrimEndPadded(t, trail);
    }
  }

  lemma TrimOfTrimmed(t: Str)
    requires Trimmed(t)
    ensures Trim(t) == t
  {
  }

  function Join(parts: seq<Str>, sep: Str): Str {
    if parts == [] then []
    else if |parts| == 1 then parts[0]
    else parts[0] + (sep + Join(parts[1..], sep))
  }

  /** Order of two texts by code unit, the shorter first when one begins the other: the order
      of `sort` on strings, and of SQLite's binary collation on ASCII text. */
  predicate LexLe(a: Str, b: Str) {
    a == [] || (b != [] && (a[0] < b[0] || (a[0] == b[0] && LexLe(a[1..], b[1..]))))
  }

  lemma {:induction false} LexLeReflexive(a: Str)
    ensures LexLe(a, a)
  {
    if a != [] { LexLeReflexive(a[1..]); }
  }

  lemma {:induction false} LexLeTotal(a: Str, b: Str)
    ensures LexLe(a, b) || LexLe(b, a)
  {
    if a != [] && b != [] { LexLeTotal(a[1..], b[1..]); }
  }

  lemma {:induction false} LexLeTransitive(a: Str, b: Str, c: Str)
    requires LexLe(a, b) && LexLe(b, c)
    ensures LexLe(a, c)
  {
    if a != [] && a[0] == b[0] && b[0] == c[0] { LexLeTransitive(a[1..], b[1..], c[1..]); }
  }

  lemma {:induction false} LexLeAntisymmetric(a: Str, b: Str)
    requires LexLe(a, b) && LexLe(b, a)
    ensures a == b
  {
    if a != [] {
      LexLeAntisymmetric(a[1..], b[1..]);
      assert a == [a[0]] + a[1..] && b == [b[0]] + b[1..];
    }
  }

  /** Two texts with beginnings of one length compare by the beginnings, and then by the rest. */
  lemma {:induction false} LexLePrefixed(a: Str, b: Str, x: Str, y: Str)
    requires |a| == |b|
    ensures LexLe(a + x, b + y) == if a == b then LexLe(x, y) else LexLe(a, b)
  {
    if a == [] {
      assert a + x == x && b + y == y;
    } else {
      DropWithin(a, x, 1);
      DropWithin(b, y, 1);
      LexLePrefixed(a[1..], b[1..], x, y);
      assert a == [a[0]] + a[1..] && b == [b[0]] + b[1..];
    }
  }
}
