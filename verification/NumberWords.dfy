/** The number-word merger of tools/wer/score_wer.py: spelled numbers below one thousand
    become digit tokens, every other token is kept. */
module NumberWords {
  import opened Sequences
  import opened Decimal

  /** The words the merger knows: three dictionaries and the word for one hundred; `write` is
      the conversion of a value to a token. Tokens are compared only for equality, so the
      merger is stated for any type of token and applied to English strings at the end. */
  datatype Lexicon<!T(==)> = Lexicon(
    units: map<T, nat>, teens: map<T, nat>, tens: map<T, nat>, hundred: T, write: nat -> T)
  {
    predicate NumberWord(tok: T) {
      tok in units || tok in teens || tok in tens
    }

    /** A token that can stand between two spelled numbers without touching either. */
    predicate Ordinary(tok: T) {
      !NumberWord(tok) && tok != hundred
    }
  }

  // ---------- the merger ----------

  /** Value of what follows "hundred", and the number of tokens it takes. */
  function Tail<T(==)>(x: Lexicon<T>, t: seq<T>, at: nat): (r: (nat, nat))
    requires at <= |t|
    ensures r.1 <= 2 && at + r.1 <= |t|
  {
    if at < |t| && t[at] in x.teens then (x.teens[t[at]], 1)
    else if at < |t| && t[at] in x.tens then
      if at + 1 < |t| && t[at+1] in x.units then (x.tens[t[at]] + x.units[t[at+1]], 2) else (x.tens[t[at]], 1)
    else if at < |t| && t[at] in x.units then (x.units[t[at]], 1)
    else (0, 0)
  }

  /** The phrase starting at a token: a number and the tokens it spans, or anything else. */
  datatype Phrase = Number(value: nat, span: nat) | Other

  function PhraseAt<T(==)>(x: Lexicon<T>, t: seq<T>, at: nat): (p: Phrase)
    requires at < |t|
    ensures p.Number? <==> x.NumberWord(t[at])
    ensures p.Number? ==> 1 <= p.span <= 4 && at + p.span <= |t|
  {
    if t[at] in x.units && at + 1 < |t| && t[at+1] == x.hundred then
      var (v, k) := Tail(x, t, at + 2);
      Number(x.units[t[at]] * 100 + v, 2 + k)
    else if t[at] in x.tens then
      if at + 1 < |t| && t[at+1] in x.units then Number(x.tens[t[at]] + x.units[t[at+1]], 2)
      else Number(x.tens[t[at]], 1)
    else if t[at] in x.teens then Number(x.teens[t[at]], 1)
    else if t[at] in x.units then Number(x.units[t[at]], 1)
    else Other
  }

  function Span<T(==)>(x: Lexicon<T>, t: seq<T>, at: nat): (k: nat)
    requires at < |t|
    ensures 1 <= k <= 4 && at + k <= |t|
  {
    match PhraseAt(x, t, at) case Number(_, k) => k case Other => 1
  }

  function Token<T(==)>(x: Lexicon<T>, t: seq<T>, at: nat): T
    requires at < |t|
  {
    match PhraseAt(x, t, at) case Number(v, _) => x.write(v) case Other => t[at]
  }

  /** What the loop computes, phrase by phrase. */
  function Merge<T(==)>(x: Lexicon<T>, t: seq<T>): seq<T> {
    if t == [] then [] else [Token(x, t, 0)] + Merge(x, t[Span(x, t, 0)..])
  }

  lemma PhraseOfSuffix<T>(x: Lexicon<T>, t: seq<T>, at: nat)
    requires at < |t|
    ensures PhraseAt(x, t, at) == PhraseAt(x, t[at..], 0)
  {
    assert forall k :: 0 <= k < |t| - at ==> t[at..][k] == t[at + k];
  }

  /** The merge finished from position `at`, given what has been put out so far. */
  ghost function Finish<T>(x: Lexicon<T>, t: seq<T>, at: nat, out: seq<T>): seq<T>
    requires at <= |t|
  {
    out + Merge(x, t[at..])
  }

  lemma NextPhrase<T>(x: Lexicon<T>, t: seq<T>, at: nat, out: seq<T>)
    requires at < |t|
    ensures Finish(x, t, at + Span(x, t, at), out + [Token(x, t, at)]) == Finish(x, t, at, out)
  {
    PhraseOfSuffix(x, t, at);
    assert t[at..][Span(x, t, at)..] == t[at + Span(x, t, at)..];
  }

  /** One turn of the loop: the token put out, and the position it moves on to. */
  method ReadPhrase<T(==)>(x: Lexicon<T>, tokens: seq<T>, at: nat) returns (word: T, i: nat)
    requires at < |tokens|
    ensures word == Token(x, tokens, at) && i == at + Span(x, tokens, at)
  {
    i := at;
    var tok := tokens[i];
    if tok in x.units && i + 1 < |tokens| && tokens[i+1] == x.hundred {
      var value := x.units[tok] * 100;
      i := i + 2;
      if i < |tokens| && tokens[i] in x.teens {
        value := value + x.teens[tokens[i]];
        i := i + 1;
      } else if i < |tokens| && tokens[i] in x.tens {
        value := value + x.tens[tokens[i]];
        i := i + 1;
        if i < |tokens| && tokens[i] in x.units {
          value := value + x.units[tokens[i]];
          i := i + 1;
        }
      } else if i < |tokens| && tokens[i] in x.units {
        value := value + x.units[tokens[i]];
        i := i + 1;
      }
      assert PhraseAt(x, tokens, at) == Number(value, i - at);
      word := x.write(value);
    } else if tok in x.tens {
      var value := x.tens[tok];
      i := i + 1;
      if i < |tokens| && tokens[i] in x.units {
        value := value + x.units[tokens[i]];
        i := i + 1;
      }
      assert PhraseAt(x, tokens, at) == Number(value, i - at);
      word := x.write(value);
    } else if tok in x.teens {
      word := x.write(x.teens[tok]);
      i := i + 1;
    } else if tok in x.units {
      word := x.write(x.units[tok]);
      i := i + 1;
    } else {
      word := tok;
      i := i + 1;
    }
  }

  method MergeNumberWords<T(==)>(x: Lexicon<T>, tokens: seq<T>) returns (out: seq<T>)
    ensures out == Merge(x, tokens)
  {
    out := [];
    var i := 0;
    while i < |tokens|
      invariant 0 <= i <= |tokens|
      invariant Finish(x, tokens, i, out) == Merge(x, tokens)
    {
      NextPhrase(x, tokens, i, out);
      var word;
      word, i := ReadPhrase(x, tokens, i);
      out := out + [word];
    }
  }

  // ---------- length and idempotence ----------

  lemma {:induction false} MergeLength<T>(x: Lexicon<T>, t: seq<T>)
    ensures |Merge(x, t)| <= |t| <= 4 * |Merge(x, t)|
  {
    if t != [] { MergeLength(x, t[Span(x, t, 0)..]); }
  }

  /** No written number is itself a number word. */
  ghost predicate Fresh<T>(x: Lexicon<T>) {
    forall n: nat :: !x.NumberWord(x.write(n))
  }

  lemma {:induction false} MergeLeavesNoNumberWord<T>(x: Lexicon<T>, t: seq<T>)
    requires Fresh(x)
    ensures forall i :: 0 <= i < |Merge(x, t)| ==> !x.NumberWord(Merge(x, t)[i])
  {
    if t != [] { MergeLeavesNoNumberWord(x, t[Span(x, t, 0)..]); }
  }

  lemma {:induction false} MergeFixed<T>(x: Lexicon<T>, t: seq<T>)
    requires forall i :: 0 <= i < |t| ==> !x.NumberWord(t[i])
    ensures Merge(x, t) == t
  {
    if t != [] { MergeFixed(x, t[1..]); }
  }

  /** Merging a second time changes nothing. */
  lemma MergeIsIdempotent<T>(x: Lexicon<T>, t: seq<T>)
    requires Fresh(x)
    ensures Merge(x, Merge(x, t)) == Merge(x, t)
  {
    MergeLeavesNoNumberWord(x, t);
    MergeFixed(x, Merge(x, t));
  }

  // ---------- distribution over a separator ----------

  lemma PhraseStopsAtSeparator<T>(x: Lexicon<T>, a: seq<T>, sep: T, b: seq<T>)
    requires a != [] && x.Ordinary(sep)
    ensures PhraseAt(x, a + ([sep] + b), 0) == PhraseAt(x, a, 0)
  {
    var t := a + ([sep] + b);
    assert t[|a|] == sep;
    assert forall i :: 0 <= i < |a| ==> t[i] == a[i];
  }

  lemma {:induction false} MergeSplitsAt<T>(x: Lexicon<T>, a: seq<T>, sep: T, b: seq<T>)
    requires x.Ordinary(sep)
    ensures Merge(x, a + ([sep] + b)) == Merge(x, a) + ([sep] + Merge(x, b))
  {
    var s, t := [sep] + b, a + ([sep] + b);
    if a == [] {
      assert t == s && s[1..] == b;
    } else {
      PhraseStopsAtSeparator(x, a, sep, b);
      var k, w := Span(x, a, 0), [Token(x, a, 0)];
      MergeSplitsAt(x, a[k..], sep, b);
      DropWithin(a, s, k);
      Associate(w, Merge(x, a[k..]), [sep] + Merge(x, b));
    }
  }

  /** Merging works on each side of `sep` alone. */
  ghost predicate Separates<T(!new)>(x: Lexicon<T>, sep: T) {
    forall a, b :: Merge(x, a + ([sep] + b)) == Merge(x, a) + ([sep] + Merge(x, b))
  }

  // ---------- spelled numbers ----------

  /** `w` lists the words of `x`: zero to nineteen, the tens from twenty to ninety, and the
      word for one hundred. */
  ghost predicate Spells<T>(x: Lexicon<T>, w: seq<T>) {
    && |w| == 29
    && (forall i {:trigger w[i]} :: 0 <= i < 29 ==>
         && (w[i] in x.units <==> i < 10) && (i < 10 ==> x.units[w[i]] == i)
         && (w[i] in x.teens <==> 10 <= i < 20) && (10 <= i < 20 ==> x.teens[w[i]] == i)
         && (w[i] in x.tens <==> 20 <= i < 28) && (20 <= i < 28 ==> x.tens[w[i]] == 10 * (i - 18))
         && (w[i] == x.hundred <==> i == 28))
  }

  /** How a number below one hundred is spelled. */
  function SpellSmall<T>(w: seq<T>, n: nat): seq<T>
    requires |w| == 29 && n < 100
  {
    if n < 20 then [w[n]]
    else if n % 10 == 0 then [w[18 + n / 10]]
    else [w[18 + n / 10], w[n % 10]]
  }

  /** How a number below one thousand is spelled. */
  function Spell<T>(w: seq<T>, n: nat): seq<T>
    requires |w| == 29 && n < 1000
  {
    if n < 100 then SpellSmall(w, n)
    else if n % 100 == 0 then [w[n / 100], w[28]]
    else [w[n / 100], w[28]] + SpellSmall(w, n % 100)
  }

  lemma SpelledNumberIsOnePhrase<T>(x: Lexicon<T>, w: seq<T>, n: nat)
    requires Spells(x, w) && n < 1000
    ensures PhraseAt(x, Spell(w, n), 0) == Number(n, |Spell(w, n)|)
  {
    if n >= 100 && n % 100 != 0 {
      var t := Spell(w, n);
      assert t[2] == if n % 100 < 20 then w[n % 100] else w[18 + n % 100 / 10];
      assert |t| == 4 ==> t[3] == w[n % 100 % 10];
      assert Tail(x, t, 2) == (n % 100, |t| - 2);
    }
  }

  lemma SpelledNumberMerges<T>(x: Lexicon<T>, w: seq<T>, n: nat)
    requires Spells(x, w) && n < 1000
    ensures Merge(x, Spell(w, n)) == [x.write(n)]
  {
    SpelledNumberIsOnePhrase(x, w, n);
    assert Spell(w, n)[|Spell(w, n)|..] == [];
  }

  datatype Piece<T> = Spoken(n: nat) | Word(text: T)

  /** A sentence: numbers below one thousand, no two in a row, among ordinary words. */
  ghost predicate Sentence<T>(x: Lexicon<T>, p: seq<Piece<T>>) {
    && (forall i :: 0 <= i < |p| && p[i].Spoken? ==> p[i].n < 1000)
    && (forall i :: 0 <= i < |p| && p[i].Word? ==> x.Ordinary(p[i].text))
    && (forall i :: 0 <= i < |p| - 1 ==> p[i].Word? || p[i+1].Word?)
  }

  ghost function Tokens<T>(x: Lexicon<T>, w: seq<T>, p: seq<Piece<T>>): seq<T>
    requires |w| == 29 && Sentence(x, p)
    decreases |p|
  {
    if p == [] then []
    else (match p[0] case Spoken(n) => Spell(w, n) case Word(t) => [t]) + Tokens(x, w, p[1..])
  }

  function Written<T>(x: Lexicon<T>, p: seq<Piece<T>>): seq<T> {
    if p == [] then []
    else [match p[0] case Spoken(n) => x.write(n) case Word(t) => t] + Written(x, p[1..])
  }

  /** In a sentence of spelled numbers set apart by ordinary words, each number becomes its
      decimal form and every other word stays as it is. */
  lemma {:induction false} SentenceMerges<T>(x: Lexicon<T>, w: seq<T>, p: seq<Piece<T>>)
    requires Spells(x, w) && Sentence(x, p)
    ensures Merge(x, Tokens(x, w, p)) == Written(x, p)
    decreases |p|
  {
    if p == [] {
    } else if p[0].Word? {
      SentenceMerges(x, w, p[1..]);
      MergeSplitsAt(x, [], p[0].text, Tokens(x, w, p[1..]));
      assert [] + ([p[0].text] + Tokens(x, w, p[1..])) == Tokens(x, w, p);
    } else {
      var spelled := Spell(w, p[0].n);
      SpelledNumberMerges(x, w, p[0].n);
      if |p| == 1 {
        assert Tokens(x, w, p) == spelled;
      } else {
        assert p[1].Word? && p[1..][1..] == p[2..];
        SentenceMerges(x, w, p[2..]);
        MergeSplitsAt(x, spelled, p[1].text, Tokens(x, w, p[2..]));
        assert Tokens(x, w, p) == spelled + ([p[1].text] + Tokens(x, w, p[2..]));
      }
    }
  }

  /** The tokens that can be put between any two token lists without joining them are exactly
      those that are neither a number word nor the word for one hundred. */
  lemma SeparatorsAreTheOrdinaryTokens<T(!new)>(x: Lexicon<T>, w: seq<T>, sep: T)
    requires Spells(x, w) && Fresh(x)
    ensures Separates(x, sep) <==> x.Ordinary(sep)
  {
    if x.Ordinary(sep) {
      forall a, b { MergeSplitsAt(x, a, sep, b); }
    } else if sep == x.hundred {
      SpelledNumberMerges(x, w, 100);
      assert w[28] == sep && [w[1]] + ([sep] + []) == Spell(w, 100);
      assert |Merge(x, [w[1]] + ([sep] + []))| == 1;
    } else {
      var t := [] + ([sep] + []);
      assert t == [sep];
      assert Merge(x, t)[0] == x.write(PhraseAt(x, t, 0).value) != sep;
    }
  }

  // ---------- English ----------

  /** Python's `str` on a non-negative integer. */
  function Numeral(n: nat): (s: string)
    ensures s != [] && '0' <= s[0] <= '9'
  {
    var digits := Print(n);
    seq(|digits|, i requires 0 <= i < |digits| => digits[i] as char)
  }

  const WORDS := [
    "zero", "one", "two", "three", "four", "five", "six", "seven", "eight", "nine",
    "ten", "eleven", "twelve", "thirteen", "fourteen",
    "fifteen", "sixteen", "seventeen", "eighteen", "nineteen",
    "twenty", "thirty", "forty", "fifty", "sixty", "seventy", "eighty", "ninety",
    "hundred"]

  predicate Apart(w: seq<string>) {
    forall i, j :: 0 <= i < j < |w| ==> w[i] != w[j]
  }

  /** The place of a word in the list, from its length, its first two letters and its last. */
  function Place(w: string): nat
    requires |w| >= 3
  {
    match w[|w|-1]
    case 'o' => if w[0] == 'z' then 0 else 2
    case 'e' =>
      if w[0] == 'o' then 1 else if w[0] == 'f' then 5 else if w[0] == 'n' then 9 else if w[1] == 'h' then 3 else 12
    case 'r' => 4
    case 'x' => 6
    case 't' => 8
    case 'y' =>
      (match w[0]
       case 't' => if w[1] == 'w' then 20 else 21
       case 'f' => if w[1] == 'o' then 22 else 23
       case 's' => if w[1] == 'i' then 24 else 25
       case 'e' => 26
       case _ => 27)
    case 'n' =>
      (match w[0]
       case 's' => if w[1] == 'i' then 16 else if |w| == 5 then 7 else 17
       case 't' => if w[1] == 'e' then 10 else 13
       case 'f' => if w[1] == 'o' then 14 else 15
       case 'e' => if w[1] == 'l' then 11 else 18
       case _ => 19)
    case _ => 28
  }

  lemma PlacesOfWords()
    ensures forall i :: 0 <= i < |WORDS| ==> |WORDS[i]| >= 3 && Place(WORDS[i]) == i && 'a' <= WORDS[i][0]
  {
  }

  lemma WordsApart()
    ensures Apart(WORDS)
  {
    hide Place;
    PlacesOfWords();
    forall i, j | 0 <= i < j < |WORDS| ensures WORDS[i] != WORDS[j] {
      assert Place(WORDS[i]) == i && Place(WORDS[j]) == j;
    }
  }

  /** The words at positions `from` up to `to`, with the numbers they stand for. */
  function Dictionary(w: seq<string>, from: nat, to: nat, value: nat -> nat): map<string, nat>
    requires from <= to <= |w| && Apart(w)
  {
    map i | from <= i < to :: w[i] := value(i)
  }

  function LexiconOf(w: seq<string>): Lexicon<string>
    requires |w| == 29 && Apart(w)
  {
    Lexicon(Dictionary(w, 0, 10, i => i), Dictionary(w, 10, 20, i => i),
            Dictionary(w, 20, 28, i => if i < 18 then 0 else 10 * (i - 18)), w[28], Numeral)
  }

  function English(): Lexicon<string> {
    WordsApart();
    LexiconOf(WORDS)
  }

  lemma LexiconOfSpells(w: seq<string>)
    requires |w| == 29 && Apart(w)
    ensures Spells(LexiconOf(w), w)
  {
  }

  lemma LexiconOfIsFresh(w: seq<string>)
    requires |w| == 29 && Apart(w)
    requires forall i :: 0 <= i < 29 ==> w[i] != [] && 'a' <= w[i][0]
    ensures Fresh(LexiconOf(w))
  {
    forall n: nat ensures !LexiconOf(w).NumberWord(Numeral(n)) {
      assert Numeral(n)[0] < 'a';
    }
  }

  /** The English words spell the numbers the results above speak of. */
  lemma EnglishSpells()
    ensures Spells(English(), [
      "zero", "one", "two", "three", "four", "five", "six", "seven", "eight", "nine",
      "ten", "eleven", "twelve", "thirteen", "fourteen", "fifteen", "sixteen", "seventeen", "eighteen", "nineteen",
      "twenty", "thirty", "forty", "fifty", "sixty", "seventy", "eighty", "ninety", "hundred"])
  {
    hide Spells, English;
    EnglishWords();
    assert WORDS == [
      "zero", "one", "two", "three", "four", "five", "six", "seven", "eight", "nine",
      "ten", "eleven", "twelve", "thirteen", "fourteen", "fifteen", "sixteen", "seventeen", "eighteen", "nineteen",
      "twenty", "thirty", "forty", "fifty", "sixty", "seventy", "eighty", "ninety", "hundred"];
  }

  lemma EnglishWords()
    ensures Spells(English(), WORDS)
  {
    WordsApart();
    LexiconOfSpells(WORDS);
  }

  lemma EnglishIsFresh()
    ensures Fresh(English())
  {
    WordsApart();
    PlacesOfWords();
    LexiconOfIsFresh(WORDS);
  }
}
