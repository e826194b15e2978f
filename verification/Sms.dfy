/** SMS segmentation and delivery of backend/src/orchestration/outputRouter.ts, from the text with
    its markdown already taken out. */
module Sms {
  import opened Sequences
  import opened Text
  import Json
  import CH = ContentHash

  const SMS_MAX_CHARS := 1600

  const ELLIPSIS: CodeUnit := 0x2026

  // ---------- sentence boundaries ----------

  /** One of `.`, `?` and `!`. */
  predicate IsPunctuation(c: CodeUnit) {
    c == 46 || c == 63 || c == 33
  }

  /** Punctuation followed by a space or a line feed. */
  predicate IsBoundary(w: Str, i: int) {
    0 <= i < |w| - 1 && IsPunctuation(w[i]) && (w[i+1] == 32 || w[i+1] == 10)
  }

  /** `lastIndexOf` of a two-character text. */
  function LastIndexOf(w: Str, a: CodeUnit, b: CodeUnit): (i: int)
    ensures -1 <= i < |w|
    ensures i >= 0 ==> i + 1 < |w| && w[i] == a && w[i+1] == b
    ensures forall j :: i < j < |w| - 1 ==> !(w[j] == a && w[j+1] == b)
  {
    if |w| < 2 then -1
    else if w[|w|-2] == a && w[|w|-1] == b then |w| - 2
    else LastIndexOf(w[..|w|-1], a, b)
  }

  function Max(a: int, b: int): int { if a < b then b else a }

  function LastBoundary(w: Str): (i: int)
    ensures i == -1 || IsBoundary(w, i)
    ensures forall j :: i < j ==> !IsBoundary(w, j)
  {
    Max(LastIndexOf(w, 46, 32), Max(LastIndexOf(w, 63, 32), Max(LastIndexOf(w, 33, 32),
      Max(LastIndexOf(w, 46, 10), Max(LastIndexOf(w, 63, 10), LastIndexOf(w, 33, 10))))))
  }

  // ---------- segmentation ----------

  /** The text of a segment before any ellipsis, and whether it was cut at the limit. */
  datatype Piece = Piece(text: Str, hard: bool)

  function Segment(p: Piece): Str {
    if p.hard then p.text + [ELLIPSIS] else p.text
  }

  /** How much of a long text the next segment takes, and whether that is a cut at the limit. */
  function CutPoint(r: Str): (c: (nat, bool))
    requires |r| > SMS_MAX_CHARS
    ensures 0 < c.0 <= SMS_MAX_CHARS
    ensures !c.1 ==> IsPunctuation(r[c.0-1]) && c.0 > 1
  {
    var b := LastBoundary(r[..SMS_MAX_CHARS]);
    if b > 0 then (b + 1, false) else (SMS_MAX_CHARS, true)
  }

  /** A long text is cut after the last sentence boundary of its first 1600 characters, its first
      character aside, and at the limit only when there is none. */
  lemma CutIsLastBoundary(r: Str)
    requires |r| > SMS_MAX_CHARS
    ensures var w, (cut, hard) := r[..SMS_MAX_CHARS], CutPoint(r);
      if hard then cut == SMS_MAX_CHARS && forall j :: j > 0 ==> !IsBoundary(w, j)
      else IsBoundary(w, cut - 1) && forall j :: j >= cut ==> !IsBoundary(w, j)
  {
    hide LastIndexOf;
  }

  function Pieces(r: Str): seq<Piece>
    decreases |r|
  {
    if r == [] then []
    else if |r| <= SMS_MAX_CHARS then [Piece(Trim(r), false)]
    else
      var (cut, hard) := CutPoint(r);
      TrimIsShorter(r[cut..]);
      [Piece(Trim(r[..cut]), hard)] + Pieces(Trim(r[cut..]))
  }

  function Segments(pieces: seq<Piece>): (s: seq<Str>)
    ensures |s| == |pieces| && forall i :: 0 <= i < |s| ==> s[i] == Segment(pieces[i])
  {
    seq(|pieces|, i requires 0 <= i < |pieces| => Segment(pieces[i]))
  }

  lemma TrimIsShorter(s: Str)
    ensures |Trim(s)| <= |s| && Trimmed(Trim(s))
  {
    hide Trim;
    var lead, trail := TrimSplits(s);
  }

  /** Trimming the front part of a trimmed text leaves its first character. */
  lemma FrontSurvives(r: Str, cut: nat)
    requires Trimmed(r) && 0 < cut <= |r|
    ensures Trim(r[..cut]) != []
    ensures IsPunctuation(r[cut-1]) ==> Trim(r[..cut]) == r[..cut]
    ensures !IsSpace(r[cut-1]) <==> |Trim(r[..cut])| == cut
  {
    hide Trim;
    var front := r[..cut];
    var lead, trail := TrimSplits(front);
    if !IsSpace(r[cut-1]) { TrimOfTrimmed(front); }
    if |Trim(front)| == cut { assert Trim(front) == front; }
  }

  function NonEmpty(s: seq<Str>): seq<Str> {
    if s == [] then [] else (if |s[0]| > 0 then [s[0]] else []) + NonEmpty(s[1..])
  }

  lemma {:induction false} NothingToFilter(s: seq<Str>)
    requires forall i :: 0 <= i < |s| ==> s[i] != []
    ensures NonEmpty(s) == s
  {
    if s != [] {
      NothingToFilter(s[1..]);
      assert [s[0]] + s[1..] == s;
    }
  }

  /** No segment is empty, so the final filter drops none. */
  lemma {:induction false} PiecesAreNotEmpty(r: Str)
    requires Trimmed(r)
    ensures forall i :: 0 <= i < |Pieces(r)| ==> Pieces(r)[i].text != []
    decreases |r|
  {
    hide Trim, CutPoint;
    if r == [] {
    } else if |r| <= SMS_MAX_CHARS {
      TrimOfTrimmed(r);
    } else {
      var cut := CutPoint(r).0;
      FrontSurvives(r, cut);
      TrimIsShorter(r[cut..]);
      PiecesAreNotEmpty(Trim(r[cut..]));
    }
  }

  /** `formatForSms` after the markdown is stripped. */
  method FormatForSms(plain: Str) returns (segments: seq<Str>)
    ensures segments == Segments(Pieces(Trim(plain)))
  {
    hide Trim, LastBoundary, IsBoundary, Segment;
    var remaining := Trim(plain);
    TrimIsShorter(plain);
    segments := [];
    ghost var done: seq<Piece> := [];
    assert [] + Pieces(remaining) == Pieces(remaining);
    while |remaining| > 0
      invariant Trimmed(remaining)
      invariant Pieces(Trim(plain)) == done + Pieces(remaining)
      invariant segments == Segments(done)
      decreases |remaining|
    {
      ghost var before, was := done, remaining;
      if |remaining| <= SMS_MAX_CHARS {
        segments := segments + [Trim(remaining)];
        done := done + [Piece(Trim(remaining), false)];
        OneMore(before, Piece(Trim(was), false));
        remaining := [];
        assert done + [] == done;
        break;
      }
      var lastBoundary := LastBoundary(remaining[..SMS_MAX_CHARS]);
      ghost var p: Piece;
      if lastBoundary > 0 {
        var cutPoint := lastBoundary + 1;
        p := Piece(Trim(remaining[..cutPoint]), false);
        segments := segments + [Trim(remaining[..cutPoint])];
        remaining := Trim(remaining[cutPoint..]);
        TrimIsShorter(was[cutPoint..]);
      } else {
        p := Piece(Trim(remaining[..SMS_MAX_CHARS]), true);
        segments := segments + [Trim(remaining[..SMS_MAX_CHARS]) + [ELLIPSIS]];
        remaining := Trim(remaining[SMS_MAX_CHARS..]);
        TrimIsShorter(was[SMS_MAX_CHARS..]);
      }
      OneMore(before, p);
      Associate(before, [p], Pieces(remaining));
      done := done + [p];
    }
    assert done + [] == done;
    PiecesAreNotEmpty(Trim(plain));
    SegmentsAreNotEmpty(done);
    NothingToFilter(segments);
    segments := NonEmpty(segments);
  }

  lemma SegmentsAreNotEmpty(pieces: seq<Piece>)
    requires forall i :: 0 <= i < |pieces| ==> pieces[i].text != []
    ensures forall i :: 0 <= i < |Segments(pieces)| ==> Segments(pieces)[i] != []
  {
    forall i | 0 <= i < |pieces| ensures Segments(pieces)[i] != [] {
      assert Segments(pieces)[i] == Segment(pieces[i]);
    }
  }

  lemma OneMore(pieces: seq<Piece>, p: Piece)
    ensures Segments(pieces + [p]) == Segments(pieces) + [Segment(p)]
    ensures Segment(p) == if p.hard then p.text + [ELLIPSIS] else p.text
  {
  }

  // ---------- nothing is lost ----------

  /** The characters of a text that are not white space. */
  function Ink(s: Str): Str {
    if s == [] then [] else (if IsSpace(s[0]) then [] else [s[0]]) + Ink(s[1..])
  }

  lemma {:induction false} InkAppend(a: Str, b: Str)
    ensures Ink(a + b) == Ink(a) + Ink(b)
  {
    hide IsSpace;
    if a == [] {
      assert a + b == b;
    } else {
      DropWithin(a, b, 1);
      InkAppend(a[1..], b);
    }
  }

  lemma {:induction false} InkOfSpace(s: Str)
    requires AllSpace(s)
    ensures Ink(s) == []
  {
    if s != [] { InkOfSpace(s[1..]); }
  }

  lemma InkOfTrim(s: Str)
    ensures Ink(Trim(s)) == Ink(s)
  {
    hide Ink, Trim;
    var lead, trail := TrimSplits(s);
    InkAppend(lead + Trim(s), trail);
    InkAppend(lead, Trim(s));
    InkOfSpace(lead);
    InkOfSpace(trail);
  }

  function InkOfPieces(pieces: seq<Piece>): Str {
    if pieces == [] then [] else Ink(pieces[0].text) + InkOfPieces(pieces[1..])
  }

  lemma {:induction false} PiecesKeepInk(r: Str)
    ensures InkOfPieces(Pieces(r)) == Ink(r)
    decreases |r|
  {
    hide Trim, Ink, CutPoint;
    if r == [] {
      NoInk();
    } else if |r| <= SMS_MAX_CHARS {
      InkOfTrim(r);
      assert [Piece(Trim(r), false)][1..] == [];
      assert Ink(Trim(r)) + [] == Ink(r);
    } else {
      var (cut, hard) := CutPoint(r);
      InkOfTrim(r[..cut]);
      InkOfTrim(r[cut..]);
      TrimIsShorter(r[cut..]);
      PiecesKeepInk(Trim(r[cut..]));
      InkAppend(r[..cut], r[cut..]);
      assert r[..cut] + r[cut..] == r;
      assert ([Piece(Trim(r[..cut]), hard)] + Pieces(Trim(r[cut..])))[1..] == Pieces(Trim(r[cut..]));
    }
  }

  lemma NoInk()
    ensures Ink([]) == []
  {
  }

  /** The segments, their ellipses aside, carry the non-white characters of the text in order,
      each exactly once. */
  lemma NothingIsLost(plain: Str)
    ensures InkOfPieces(Pieces(Trim(plain))) == Ink(plain)
  {
    hide Trim, Ink, Pieces;
    PiecesKeepInk(Trim(plain));
    InkOfTrim(plain);
  }

  /** Trimming takes off no half of a pair. */
  lemma TrimKeepsWellFormed(s: Str)
    ensures CH.WellFormed(Trim(s)) <==> CH.WellFormed(s)
  {
    hide Trim, CH.WellFormed;
    var lead, trail := TrimSplits(s);
    CH.PlainIsWellFormed(lead);
    CH.PlainIsWellFormed(trail);
    var t := Trim(s) + trail;
    assert s == lead + t;
    if CH.WellFormed(Trim(s)) {
      CH.WellFormedAppend(Trim(s), trail);
      CH.WellFormedAppend(lead, t);
    }
    if CH.WellFormed(s) {
      CH.SplitWellFormed(s, |lead|);
      assert s[|lead|..] == t;
      CH.SplitWellFormed(t, |Trim(s)|);
      assert t[..|Trim(s)|] == Trim(s);
    }
  }

  /** A cut of well-formed text halves a surrogate pair exactly if it is at the limit, between the
      two halves; then neither the segment nor the rest is well formed, and else both are. */
  lemma PairIsHalvedIff(r: Str)
    requires Trimmed(r) && |r| > SMS_MAX_CHARS && CH.WellFormed(r)
    ensures var (cut, hard) := CutPoint(r);
      var halved := hard && Json.High(r[SMS_MAX_CHARS-1]) && Json.Low(r[SMS_MAX_CHARS]);
      && (CH.WellFormed(Trim(r[..cut])) <==> !halved)
      && (CH.WellFormed(Trim(r[cut..])) <==> !halved)
  {
    hide Trim, LastBoundary, CH.WellFormed;
    var (cut, hard) := CutPoint(r);
    CH.SplitWellFormed(r, cut);
    TrimKeepsWellFormed(r[..cut]);
    TrimKeepsWellFormed(r[cut..]);
  }

  /** 1599 letters and then an emoji: its halves end up in different segments. */
  lemma EmojiIsHalved(plain: Str)
    requires |plain| == 1601 && (forall i :: 0 <= i < 1599 ==> plain[i] == 97)
    requires plain[1599] == 0xD83D && plain[1600] == 0xDE00
    ensures var s := Segments(Pieces(Trim(plain)));
      |s| == 2 && s[0] == plain[..1600] + [0x2026] && s[1] == [0xDE00]
  {
    hide Trim, LastBoundary;
    TrimOfTrimmed(plain);
    var w := plain[..SMS_MAX_CHARS];
    assert forall j :: !IsBoundary(w, j);
    HardCut(plain);
    FrontSurvives(plain, 1600);
    TrimOfTrimmed(w);
    var rest := plain[1600..];
    assert rest == [0xDE00];
    TrimOfTrimmed(rest);
    assert Pieces(plain) == [Piece(w, true), Piece(rest, false)];
  }

  lemma HardCut(r: Str)
    requires |r| > SMS_MAX_CHARS && forall j :: j > 0 ==> !IsBoundary(r[..SMS_MAX_CHARS], j)
    ensures CutPoint(r) == (SMS_MAX_CHARS, true)
  {
    hide LastIndexOf;
  }

  // ---------- size and ends ----------

  predicate EndsWell(s: Str) {
    s != [] && (IsPunctuation(s[|s|-1]) || s[|s|-1] == ELLIPSIS)
  }

  /** A segment that ran to the limit has 1600 characters and the ellipsis besides. */
  lemma {:induction false} SegmentShapes(r: Str)
    requires Trimmed(r)
    ensures forall i :: 0 <= i < |Pieces(r)| ==>
      |Pieces(r)[i].text| <= SMS_MAX_CHARS && (i < |Pieces(r)| - 1 ==> EndsWell(Segment(Pieces(r)[i])))
    decreases |r|
  {
    hide Trim, LastBoundary;
    if r == [] {
    } else if |r| <= SMS_MAX_CHARS {
      TrimIsShorter(r);
    } else {
      var (cut, hard) := CutPoint(r);
      TrimIsShorter(r[..cut]);
      TrimIsShorter(r[cut..]);
      FrontSurvives(r, cut);
      SegmentShapes(Trim(r[cut..]));
    }
  }

  /** Every segment has at most 1600 characters, or 1601 with the ellipsis, and every segment but
      the last ends in sentence punctuation or the ellipsis. */
  lemma SegmentsAreSized(plain: Str)
    ensures var s, p := Segments(Pieces(Trim(plain))), Pieces(Trim(plain));
      forall i :: 0 <= i < |s| ==>
        s[i] != [] && |s[i]| <= SMS_MAX_CHARS + 1 && (|s[i]| > SMS_MAX_CHARS ==> p[i].hard) && (i < |s| - 1 ==> EndsWell(s[i]))
  {
    hide Trim, Pieces, EndsWell;
    TrimIsShorter(plain);
    SegmentShapes(Trim(plain));
    PiecesAreNotEmpty(Trim(plain));
  }

  /** Somewhere the text has to be cut at the limit with a non-white character at its 1600th
      place. */
  predicate Overruns(r: Str)
    decreases |r|
  {
    if |r| <= SMS_MAX_CHARS then false
    else
      var (cut, hard) := CutPoint(r);
      TrimIsShorter(r[cut..]);
      (hard && !IsSpace(r[SMS_MAX_CHARS-1])) || Overruns(Trim(r[cut..]))
  }

  lemma {:induction false} OverrunsIff(r: Str)
    requires Trimmed(r)
    ensures Overruns(r) <==> exists i :: 0 <= i < |Pieces(r)| && |Segment(Pieces(r)[i])| > SMS_MAX_CHARS
    decreases |r|
  {
    hide Trim, CutPoint, IsSpace;
    if r == [] {
    } else if |r| <= SMS_MAX_CHARS {
      TrimIsShorter(r);
      assert Pieces(r) == [Piece(Trim(r), false)];
    } else {
      var (cut, hard) := CutPoint(r);
      CutAtLimit(r);
      FrontSurvives(r, cut);
      TrimIsShorter(r[..cut]);
      TrimIsShorter(r[cut..]);
      var rest := Trim(r[cut..]);
      OverrunsIff(rest);
      var first := Piece(Trim(r[..cut]), hard);
      assert Pieces(r) == [first] + Pieces(rest);
      assert Pieces(r)[0] == first && forall i :: 0 <= i < |Pieces(rest)| ==> Pieces(r)[i+1] == Pieces(rest)[i];
      assert |Segment(first)| > SMS_MAX_CHARS <==> hard && !IsSpace(r[SMS_MAX_CHARS-1]);
    }
  }

  lemma CutAtLimit(r: Str)
    requires |r| > SMS_MAX_CHARS
    ensures CutPoint(r).1 ==> CutPoint(r).0 == SMS_MAX_CHARS
  {
    hide LastBoundary;
  }

  /** The promised limit of 1600 characters is kept exactly by the texts that do not overrun it. */
  lemma LimitKeptIff(plain: Str)
    ensures (forall i :: 0 <= i < |Segments(Pieces(Trim(plain)))| ==> |Segments(Pieces(Trim(plain)))[i]| <= SMS_MAX_CHARS)
      <==> !Overruns(Trim(plain))
  {
    hide Trim, Pieces, Overruns, Segment;
    TrimIsShorter(plain);
    var p := Pieces(Trim(plain));
    OverrunsIff(Trim(plain));
    assert forall i :: 0 <= i < |p| ==> Segments(p)[i] == Segment(p[i]);
    if Overruns(Trim(plain)) {
      var i :| 0 <= i < |p| && |Segment(p[i])| > SMS_MAX_CHARS;
      assert |Segments(p)[i]| > SMS_MAX_CHARS;
    }
  }

  /** 1601 letters with no sentence boundary break it. */
  lemma LongWordOverruns(plain: Str)
    requires |plain| == 1601 && forall i :: 0 <= i < |plain| ==> plain[i] == 97
    ensures exists i :: 0 <= i < |Segments(Pieces(Trim(plain)))| && |Segments(Pieces(Trim(plain)))[i]| == 1601
  {
    hide Trim, LastBoundary;
    TrimOfTrimmed(plain);
    var (cut, hard) := CutPoint(plain);
    HardCut(plain);
    FrontSurvives(plain, cut);
    TrimIsShorter(plain[cut..]);
    assert Pieces(plain)[0] == Piece(Trim(plain[..cut]), true);
    assert |Segments(Pieces(Trim(plain)))[0]| == 1601;
  }

  /** The 1600 units from `a` on have a sentence boundary past their first character, or end in
      white space. */
  predicate Breaks(t: Str, a: nat)
    requires a + SMS_MAX_CHARS <= |t|
  {
    HasBoundary(t[a..a+SMS_MAX_CHARS]) || IsSpace(t[a+SMS_MAX_CHARS-1])
  }

  predicate HasBoundary(w: Str) {
    exists j :: 0 < j < |w| && IsBoundary(w, j)
  }

  /** Wherever 1600 units begin with a character that is not white and more text follows them. */
  ghost predicate BreaksEverywhere(t: Str) {
    forall a: nat :: a + SMS_MAX_CHARS < |t| && !IsSpace(t[a]) ==> Breaks(t, a)
  }

  /** The rest of a text after a cut has no windows of its own. */
  lemma RestBreaks(r: Str, cut: nat)
    requires BreaksEverywhere(r) && cut <= |r|
    ensures BreaksEverywhere(Trim(r[cut..]))
  {
    hide Trim, IsSpace, HasBoundary;
    var lead, trail := TrimSplits(r[cut..]);
    var rest, o := Trim(r[cut..]), cut + |lead|;
    assert r[cut..] == lead + rest + trail;
    forall a: nat | a + SMS_MAX_CHARS < |rest| && !IsSpace(rest[a]) ensures Breaks(rest, a) {
      assert r[o+a..o+a+SMS_MAX_CHARS] == rest[a..a+SMS_MAX_CHARS];
      assert rest[a] == r[cut..][|lead|+a] == r[o+a];
      assert rest[a+SMS_MAX_CHARS-1] == r[cut..][|lead|+a+SMS_MAX_CHARS-1] == r[o+a+SMS_MAX_CHARS-1];
      assert Breaks(r, o + a);
    }
  }

  lemma {:induction false} BreaksMeansNoOverrun(r: Str)
    requires Trimmed(r) && BreaksEverywhere(r)
    ensures !Overruns(r)
    decreases |r|
  {
    hide Trim, CutPoint, IsBoundary;
    if |r| > SMS_MAX_CHARS {
      var (cut, hard) := CutPoint(r);
      CutIsLastBoundary(r);
      assert r[0..SMS_MAX_CHARS] == r[..SMS_MAX_CHARS];
      assert Breaks(r, 0);
      TrimIsShorter(r[cut..]);
      RestBreaks(r, cut);
      BreaksMeansNoOverrun(Trim(r[cut..]));
    }
  }

  /** What a caller can see in the text: if every 1600 units that begin with a character and have
      text after them break, no segment exceeds 1600 characters. If the first 1600 do not, one
      does. */
  lemma WindowsDecide(plain: Str)
    ensures BreaksEverywhere(Trim(plain)) ==>
      forall i :: 0 <= i < |Segments(Pieces(Trim(plain)))| ==> |Segments(Pieces(Trim(plain)))[i]| <= SMS_MAX_CHARS
    ensures |Trim(plain)| > SMS_MAX_CHARS && !Breaks(Trim(plain), 0) ==>
      exists i :: 0 <= i < |Segments(Pieces(Trim(plain)))| && |Segments(Pieces(Trim(plain)))[i]| > SMS_MAX_CHARS
  {
    hide Trim, Pieces, Segment, Overruns, Breaks, BreaksEverywhere;
    var r := Trim(plain);
    TrimIsShorter(plain);
    LimitKeptIff(plain);
    if BreaksEverywhere(r) { BreaksMeansNoOverrun(r); }
    if |r| > SMS_MAX_CHARS && !Breaks(r, 0) { FirstWindowOverruns(r); }
  }

  lemma SoftCutHasBoundary(r: Str)
    requires |r| > SMS_MAX_CHARS
    ensures !CutPoint(r).1 ==> HasBoundary(r[..SMS_MAX_CHARS])
  {
    hide CutPoint, IsBoundary;
    CutIsLastBoundary(r);
    var (cut, hard) := CutPoint(r);
    assert !hard ==> IsBoundary(r[..SMS_MAX_CHARS], cut - 1);
  }

  lemma FirstWindowOverruns(r: Str)
    requires |r| > SMS_MAX_CHARS && !Breaks(r, 0)
    ensures Overruns(r)
  {
    hide Trim, CutPoint, IsBoundary, HasBoundary;
    SoftCutHasBoundary(r);
    assert r[0..SMS_MAX_CHARS] == r[..SMS_MAX_CHARS];
  }

  // ---------- delivery ----------

  datatype FailedRecipient = FailedRecipient(recipient: Str, reason: Str)

  datatype RouteResult =
    | NoRecipients
    | Routed(success: bool, delivered: seq<Str>, failed: seq<FailedRecipient>, segmentCount: nat)

  /** One call of the sender. */
  datatype Attempt = Attempt(recipient: nat, segment: nat)

  /** What the sender does: `None` sends, `Some(reason)` throws. */
  type Sender = (nat, nat) -> Option<Str>

  /** The number of segments that reach a recipient before the first that fails. */
  function Sent(send: Sender, i: nat, k: nat, n: nat): (m: nat)
    requires k <= n
    ensures k <= m <= n
    ensures forall j :: k <= j < m ==> send(i, j).None?
    ensures m < n ==> send(i, m).Some?
    decreases n - k
  {
    if k == n || send(i, k).Some? then k else Sent(send, i, k + 1, n)
  }

  predicate Reaches(send: Sender, i: nat, n: nat) {
    Sent(send, i, 0, n) == n
  }

  function Delivered(recipients: seq<Str>, send: Sender, n: nat): seq<Str> {
    if recipients == [] then []
    else
      var i := |recipients| - 1;
      Delivered(recipients[..i], send, n) + if Reaches(send, i, n) then [recipients[i]] else []
  }

  function Failed(recipients: seq<Str>, send: Sender, n: nat): seq<FailedRecipient> {
    if recipients == [] then []
    else
      var i := |recipients| - 1;
      var m := Sent(send, i, 0, n);
      Failed(recipients[..i], send, n) + if m < n then [FailedRecipient(recipients[i], send(i, m).value)] else []
  }

  /** The first `m` segments, in order, to one recipient. */
  function Attempts(i: nat, m: nat): seq<Attempt> {
    seq(m, k requires 0 <= k < m => Attempt(i, k))
  }

  /** Each recipient gets the segments from the first up to the first that fails. */
  function AllAttempts(count: nat, send: Sender, n: nat): seq<Attempt> {
    if count == 0 then []
    else
      var m := Sent(send, count - 1, 0, n);
      AllAttempts(count - 1, send, n) + Attempts(count - 1, if m < n then m + 1 else n)
  }

  /** `routeToSms`, with the calls it makes to the sender. */
  method RouteToSms(plain: Str, recipients: seq<Str>, send: Sender) returns (r: RouteResult, calls: seq<Attempt>)
    ensures recipients == [] <==> r == NoRecipients
    ensures r == NoRecipients ==> calls == []
    ensures r.Routed? ==> r.segmentCount == |Pieces(Trim(plain))|
    ensures r.Routed? ==> r.delivered == Delivered(recipients, send, r.segmentCount) && r.failed == Failed(recipients, send, r.segmentCount)
    ensures r.Routed? ==> calls == AllAttempts(|recipients|, send, r.segmentCount) && (r.success <==> r.failed == [])
  {
    hide Pieces, Trim, Sent;
    calls := [];
    if |recipients| == 0 {
      return NoRecipients, calls;
    }
    var segments := FormatForSms(plain);
    var n := |segments|;
    var delivered: seq<Str>, failed: seq<FailedRecipient> := [], [];
    for i := 0 to |recipients|
      invariant delivered == Delivered(recipients[..i], send, n)
      invariant failed == Failed(recipients[..i], send, n)
      invariant calls == AllAttempts(i, send, n)
    {
      var recipientFailed := false;
      ghost var before := calls;
      var k := 0;
      while k < n
        invariant 0 <= k <= n
        invariant calls == before + Attempts(i, k)
        invariant Sent(send, i, 0, n) == Sent(send, i, k, n)
        invariant !recipientFailed && failed == Failed(recipients[..i], send, n)
      {
        SentStep(send, i, k, n);
        calls := calls + [Attempt(i, k)];
        assert Attempts(i, k + 1) == Attempts(i, k) + [Attempt(i, k)];
        Associate(before, Attempts(i, k), [Attempt(i, k)]);
        if send(i, k).Some? {
          failed := failed + [FailedRecipient(recipients[i], send(i, k).value)];
          recipientFailed := true;
          break;
        }
        k := k + 1;
      }
      if !recipientFailed {
        SentAll(send, i, n);
        delivered := delivered + [recipients[i]];
      }
      assert recipients[..i+1][..i] == recipients[..i];
    }
    assert recipients[..|recipients|] == recipients;
    r := Routed(|failed| == 0, delivered, failed, n);
  }

  lemma SentStep(send: Sender, i: nat, k: nat, n: nat)
    requires k < n
    ensures Sent(send, i, k, n) == if send(i, k).Some? then k else Sent(send, i, k + 1, n)
  {
  }

  lemma SentAll(send: Sender, i: nat, n: nat)
    ensures Sent(send, i, n, n) == n
  {
  }

  function Names(failed: seq<FailedRecipient>): (r: seq<Str>)
    ensures |r| == |failed| && forall i :: 0 <= i < |failed| ==> r[i] == failed[i].recipient
  {
    seq(|failed|, i requires 0 <= i < |failed| => failed[i].recipient)
  }

  /** Delivered and failed recipients together are the recipients, none lost and none twice. */
  lemma {:induction false} RecipientsArePartitioned(recipients: seq<Str>, send: Sender, n: nat)
    ensures multiset(Delivered(recipients, send, n)) + multiset(Names(Failed(recipients, send, n))) == multiset(recipients)
  {
    hide Sent;
    if recipients != [] {
      var i := |recipients| - 1;
      RecipientsArePartitioned(recipients[..i], send, n);
      assert recipients == recipients[..i] + [recipients[i]];
      NamesAppend(Failed(recipients[..i], send, n), Failed(recipients, send, n));
    }
  }

  lemma NamesAppend(a: seq<FailedRecipient>, b: seq<FailedRecipient>)
    requires |b| == |a| || (|b| == |a| + 1)
    requires a <= b
    ensures Names(b) == Names(a) + if |b| == |a| then [] else [b[|a|].recipient]
  {
  }

  /** The segments sent to one recipient, in order. */
  function SegmentsTo(calls: seq<Attempt>, i: nat): seq<nat> {
    if calls == [] then []
    else SegmentsTo(calls[..|calls|-1], i) + if calls[|calls|-1].recipient == i then [calls[|calls|-1].segment] else []
  }

  lemma {:induction false} SegmentsToAppend(a: seq<Attempt>, b: seq<Attempt>, i: nat)
    ensures SegmentsTo(a + b, i) == SegmentsTo(a, i) + SegmentsTo(b, i)
    decreases |b|
  {
    if b == [] {
      assert a + b == a;
    } else {
      var n := |b| - 1;
      SegmentsToAppend(a, b[..n], i);
      assert (a + b)[..|a|+n] == a + b[..n];
    }
  }

  lemma {:induction false} SegmentsToOne(i: nat, j: nat, m: nat)
    ensures SegmentsTo(Attempts(i, m), j) == if i == j then seq(m, k => k) else []
  {
    if m > 0 {
      SegmentsToOne(i, j, m - 1);
      assert Attempts(i, m)[..m-1] == Attempts(i, m - 1);
      assert seq(m, k => k) == seq(m - 1, k => k) + [m - 1];
    }
  }

  /** A recipient is sent the segments from the first on, in order, and nothing past the first
      that fails; all of them exactly if it is reported delivered. */
  lemma {:induction false} PrefixIsAttempted(count: nat, send: Sender, n: nat, i: nat)
    ensures SegmentsTo(AllAttempts(count, send, n), i)
      == if i >= count then [] else if Reaches(send, i, n) then seq(n, k => k) else seq(Sent(send, i, 0, n) + 1, k => k)
  {
    hide Sent, SegmentsTo;
    if count == 0 {
      NoCalls(i);
    } else {
      var m := Sent(send, count - 1, 0, n);
      PrefixIsAttempted(count - 1, send, n, i);
      SegmentsToAppend(AllAttempts(count - 1, send, n), Attempts(count - 1, if m < n then m + 1 else n), i);
      SegmentsToOne(count - 1, i, if m < n then m + 1 else n);
    }
  }

  lemma NoCalls(i: nat)
    ensures SegmentsTo([], i) == []
  {
  }

  lemma {:induction false} NothingToSend(recipients: seq<Str>, send: Sender)
    ensures Delivered(recipients, send, 0) == recipients && AllAttempts(|recipients|, send, 0) == []
  {
    if recipients != [] {
      var i := |recipients| - 1;
      NothingToSend(recipients[..i], send);
      assert recipients == recipients[..i] + [recipients[i]];
    }
  }

  /** A text has no segments exactly if it is all white space. */
  lemma NoPiecesIff(plain: Str)
    ensures Pieces(Trim(plain)) == [] <==> AllSpace(plain)
  {
    hide Trim, CutPoint;
    var lead, trail := TrimSplits(plain);
    if AllSpace(plain) {
      TrimPadded(plain, [], []);
      assert plain + [] + [] == plain;
    }
  }

  /** A recipient is reported delivered with nothing sent to it exactly if the text is all white
      space; then all of them are. */
  lemma BlankTextIsDelivered(plain: Str, recipients: seq<Str>, send: Sender, i: nat)
    requires i < |recipients|
    ensures var n := |Pieces(Trim(plain))|;
      && (Reaches(send, i, n) && SegmentsTo(AllAttempts(|recipients|, send, n), i) == [] <==> AllSpace(plain))
      && (AllSpace(plain) ==> Delivered(recipients, send, n) == recipients && AllAttempts(|recipients|, send, n) == [])
  {
    hide Trim, Pieces, SegmentsTo, AllAttempts, Delivered;
    NoPiecesIff(plain);
    NothingToSend(recipients, send);
    PrefixIsAttempted(|recipients|, send, |Pieces(Trim(plain))|, i);
  }
}
