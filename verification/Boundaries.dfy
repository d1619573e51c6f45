// Where a text is cut: paragraphs and sentences laid out with any of their separators are
// returned as they were, and no piece returned could be cut further.
module Boundaries {
  import opened Text
  import opened Splitting

  // ----- runs of whitespace ----------------------------------------------------------------------

  lemma {:induction false} RunEndIs(text: string, i: nat, n: nat)
    requires i <= n <= |text| && Blank(text[i..n]) && (n < |text| ==> !IsSpace(text[n]))
    ensures RunEnd(text, i) == n
    decreases n - i
  {
    if i < n {
      assert text[i..n][0] == text[i];
      BlankPart(text, i, i + 1, n);
      RunEndIs(text, i + 1, n);
    }
  }

  lemma LeadIs(t: string, m: nat)
    requires m < |t| && Blank(t[..m]) && !IsSpace(t[m])
    ensures LeadingSpace(t) == m
  {
    var n := LeadingSpace(t);
    BlankChars(t, 0, m);
    BlankChars(t, 0, n);
  }

  lemma TrailIs(t: string, n: nat)
    requires 0 < n <= |t| && Blank(t[n..]) && !IsSpace(t[n - 1])
    ensures TrailingStart(t) == n
  {
    var m := TrailingStart(t);
    BlankChars(t, n, |t|);
    BlankChars(t, m, |t|);
  }

  /** Whitespace round a trimmed text is what str.strip takes off. */
  lemma StripAround(before: string, s: string, after: string)
    requires Blank(before) && Trimmed(s) && Blank(after)
    ensures Strip(before + s + after) == s
  {
    var t, m := before + s + after, |before|;
    var rest := s + after;
    assert t[..m] == before && t[m] == s[0] && t[m..] == rest;
    LeadIs(t, m);
    LeftStripIs(t);
    assert rest[|s|..] == after && rest[|s| - 1] == s[|s| - 1] && rest[..|s|] == s;
    TrailIs(rest, |s|);
    RightStripIs(rest);
  }

  /** Pieces with something between each and the next. */
  function Spaced(pieces: seq<string>, gaps: seq<string>): string
    requires |gaps| + 1 == |pieces|
  {
    if gaps == [] then pieces[0] else pieces[0] + gaps[0] + Spaced(pieces[1..], gaps[1..])
  }

  // ----- paragraphs ------------------------------------------------------------------------------

  /** Two newlines with nothing but whitespace from the one to the other. */
  predicate BreakAt(text: string, i: nat, j: nat) {
    i < j < |text| && text[i] == '\n' && text[j] == '\n' && Blank(text[i..j])
  }

  predicate Unbroken(text: string) {
    forall i, j :: 0 <= i < j < |text| ==> !BreakAt(text, i, j)
  }

  predicate ParagraphGapAt(text: string, i: nat) {
    i < |text| && text[i] == '\n' && AfterLastNewline(text, i + 1, RunEnd(text, i + 1)) > i + 1
  }

  lemma {:induction false} AfterLastIs(text: string, i: nat, j: nat)
    requires i <= j <= |text|
    ensures var k := AfterLastNewline(text, i, j);
            && (k > i ==> text[k - 1] == '\n') && forall m :: k <= m < j ==> text[m] != '\n'
    decreases j - i
  {
    if i < j && text[j - 1] != '\n' { AfterLastIs(text, i, j - 1); }
  }

  lemma BlankChars(text: string, i: nat, j: nat)
    requires i <= j <= |text| && Blank(text[i..j])
    ensures forall k :: i <= k < j ==> IsSpace(text[k])
  {
    assert forall k :: i <= k < j ==> text[i..j][k - i] == text[k];
  }

  lemma SliceOfSlice(text: string, a: nat, b: nat, i: nat, j: nat)
    requires a <= b <= |text| && i <= j <= b - a
    ensures text[a..b][i..j] == text[a + i..a + j]
  {
    var t, u := text[a..b][i..j], text[a + i..a + j];
    assert |t| == |u| && forall k :: 0 <= k < |t| ==> t[k] == u[k];
  }

  lemma BlankPart(text: string, i: nat, k: nat, j: nat)
    requires i <= k <= j <= |text| && Blank(text[i..j])
    ensures Blank(text[i..k]) && Blank(text[k..j])
  {
    assert forall m :: 0 <= m < k - i ==> text[i..k][m] == text[i..j][m];
    assert forall m :: 0 <= m < j - k ==> text[k..j][m] == text[i..j][m + (k - i)];
  }

  /** A gap begins where a break does. */
  lemma GapIsBreak(text: string, i: nat)
    ensures ParagraphGapAt(text, i) <==> exists j :: BreakAt(text, i, j)
  {
    if i < |text| && text[i] == '\n' {
      var run := RunEnd(text, i + 1);
      var k := AfterLastNewline(text, i + 1, run);
      AfterLastIs(text, i + 1, run);
      if k > i + 1 {
        BlankPart(text, i + 1, k - 1, run);
        assert text[i..k - 1] == [text[i]] + text[i + 1..k - 1];
        assert BreakAt(text, i, k - 1);
      }
      if j :| BreakAt(text, i, j) {
        BreakInRun(text, i, j);
      }
    }
  }

  lemma BreakInRun(text: string, i: nat, j: nat)
    requires BreakAt(text, i, j)
    ensures j < RunEnd(text, i + 1) && AfterLastNewline(text, i + 1, RunEnd(text, i + 1)) > j
  {
    var run := RunEnd(text, i + 1);
    BlankChars(text, i, j);
    AfterLastIs(text, i + 1, run);
  }

  lemma {:induction false} GapsSkip(text: string, from: nat, to: nat)
    requires from <= to <= |text| && forall i :: from <= i < to ==> !ParagraphGapAt(text, i)
    ensures ParagraphGaps(text, from) == ParagraphGaps(text, to)
    decreases |text| - from
  {
    if from < to {
      assert !ParagraphGapAt(text, from);
      GapsSkip(text, from + 1, to);
    }
  }

  /** A break that begins in a piece that ends in no whitespace is a break of the piece. */
  lemma BreakInside(text: string, at: nat, piece: string, i: nat, j: nat)
    requires at + |piece| <= |text| && text[at..at + |piece|] == piece && Trimmed(piece)
    requires at <= i < at + |piece| && BreakAt(text, i, j)
    ensures j < at + |piece| && BreakAt(piece, i - at, j - at)
  {
    var end := at + |piece|;
    BlankChars(text, i, j);
    assert text[end - 1] == piece[|piece| - 1];
    SliceOfSlice(text, at, end, i - at, j - at);
    assert piece[i - at] == text[i] && piece[j - at] == text[j];
  }

  /** No paragraph gap begins inside an unbroken piece that ends in no whitespace. */
  lemma NoGapInside(text: string, at: nat, piece: string, i: nat)
    requires at + |piece| <= |text| && text[at..at + |piece|] == piece && Trimmed(piece) && Unbroken(piece)
    requires at <= i < at + |piece|
    ensures !ParagraphGapAt(text, i)
  {
    GapIsBreak(text, i);
    forall j: nat ensures !BreakAt(text, i, j) {
      if BreakAt(text, i, j) {
        BreakInside(text, at, piece, i, j);
      }
    }
  }

  /** A separator of paragraphs: whitespace with two newlines or more. */
  predicate IsBreak(gap: string) {
    Blank(gap) && exists i, j :: 0 <= i < j < |gap| && gap[i] == '\n' && gap[j] == '\n'
  }

  /** The first newline of a separator, and the last. */
  lemma {:induction false} FirstNewline(gap: string) returns (a: nat)
    requires exists i :: 0 <= i < |gap| && gap[i] == '\n'
    ensures a < |gap| && gap[a] == '\n' && forall k :: 0 <= k < a ==> gap[k] != '\n'
    decreases |gap|
  {
    if gap[0] == '\n' {
      a := 0;
    } else {
      var i :| 0 <= i < |gap| && gap[i] == '\n';
      assert gap[1..][i - 1] == '\n';
      a := FirstNewline(gap[1..]);
      a := a + 1;
      assert forall k :: 1 <= k < |gap| ==> gap[k] == gap[1..][k - 1];
    }
  }

  /** Where the first newline of a separator in the text is, and past the last. */
  lemma BreakSpan(text: string, e: nat, f: nat) returns (a: nat, z: nat)
    requires e < f <= |text| && IsBreak(text[e..f])
    ensures e <= a && a + 1 < z <= f && z == AfterLastNewline(text, a + 1, f) && text[a] == '\n'
    ensures (forall k :: e <= k < a ==> text[k] != '\n') && forall k :: z <= k < f ==> text[k] != '\n'
  {
    var gap := text[e..f];
    var m := FirstNewline(gap);
    a := e + m;
    assert forall k :: e <= k < f ==> gap[k - e] == text[k];
    AfterLastIs(text, a + 1, f);
    z := AfterLastNewline(text, a + 1, f);
    var i, j :| 0 <= i < j < |gap| && gap[i] == '\n' && gap[j] == '\n';
    assert text[e + j] == '\n' && e + j > a;
  }

  lemma NoNewlineNoGap(text: string, from: nat, to: nat)
    requires from <= to <= |text| && forall k :: from <= k < to ==> text[k] != '\n'
    ensures ParagraphGaps(text, from) == ParagraphGaps(text, to)
  {
    GapsSkip(text, from, to);
  }

  /** A separator that stands in the text after a piece and before something that is not
      whitespace is one gap, from its first newline to past its last. */
  lemma GapOfBreak(text: string, e: nat, f: nat) returns (a: nat, z: nat)
    requires e < f < |text| && IsBreak(text[e..f]) && !IsSpace(text[f])
    ensures e <= a < z <= f && Blank(text[e..a]) && Blank(text[z..f])
    ensures ParagraphGaps(text, e) == [Gap(a, z)] + ParagraphGaps(text, f)
  {
    a, z := BreakSpan(text, e, f);
    RunEndOfPart(text, e, a + 1, f);
    BlankPart(text, e, a, f);
    BlankPart(text, e, z, f);
    NoNewlineNoGap(text, e, a);
    NoNewlineNoGap(text, z, f);
  }

  lemma RunEndOfPart(text: string, e: nat, i: nat, f: nat)
    requires e <= i <= f < |text| && Blank(text[e..f]) && !IsSpace(text[f])
    ensures RunEnd(text, i) == f
  {
    BlankPart(text, e, i, f);
    RunEndIs(text, i, f);
  }

  /** Paragraphs and separators laid out one after the other. */
  ghost predicate Laid(pieces: seq<string>, gaps: seq<string>) {
    && |gaps| + 1 == |pieces|
    && (forall i :: 0 <= i < |pieces| ==> Trimmed(pieces[i]) && Unbroken(pieces[i]))
    && forall i :: 0 <= i < |gaps| ==> IsBreak(gaps[i])
  }

  lemma LaidRest(pieces: seq<string>, gaps: seq<string>)
    requires Laid(pieces, gaps) && gaps != []
    ensures Laid(pieces[1..], gaps[1..]) && Spaced(pieces[1..], gaps[1..]) != "" && !IsSpace(Spaced(pieces[1..], gaps[1..])[0])
  {
    assert Trimmed(pieces[1]) && pieces[1..][0] == pieces[1];
  }

  /** From the start of a piece, and from a little before it in the cut. */
  lemma {:induction false} LaidCut(text: string, pieces: seq<string>, gaps: seq<string>, at: nat, last: nat)
    requires Laid(pieces, gaps) && last <= at <= |text| && Blank(text[last..at]) && text[at..] == Spaced(pieces, gaps)
    requires GapsIn(text, ParagraphGaps(text, at), last)
    ensures Tidy(Cut(text, ParagraphGaps(text, at), last, KeepsEveryGap)) == pieces
    decreases |pieces|
  {
    var piece, e := pieces[0], at + |pieces[0]|;
    assert text[at..][..|piece|] == piece && text[at..][..|piece|] == text[at..e];
    forall i: nat | at <= i < e ensures !ParagraphGapAt(text, i) {
      NoGapInside(text, at, piece, i);
    }
    GapsSkip(text, at, e);
    if gaps == [] {
      assert e == |text| && text[last..] == text[last..at] + piece + "";
      StripAround(text[last..at], piece, "");
      assert Cut(text, [], last, KeepsEveryGap) == [text[last..]];
      TidyCons(text[last..], []);
      assert pieces == [piece] && [text[last..]] + [] == [text[last..]];
    } else {
      LaidRest(pieces, gaps);
      var f := e + |gaps[0]|;
      LaidStep(text, pieces, gaps, at, e, f);
      var a, z := GapOfBreak(text, e, f);
      LaidPiece(text, piece, at, last, e, a);
      LaidCut(text, pieces[1..], gaps[1..], f, z);
      TidyCons(text[last..a], Cut(text, ParagraphGaps(text, f), z, KeepsEveryGap));
      assert [piece] + pieces[1..] == pieces;
    }
  }

  lemma LaidStep(text: string, pieces: seq<string>, gaps: seq<string>, at: nat, e: nat, f: nat)
    requires |gaps| + 1 == |pieces| && gaps != [] && at <= |text| && text[at..] == Spaced(pieces, gaps)
    requires e == at + |pieces[0]| && f == e + |gaps[0]|
    ensures f <= |text| && text[e..f] == gaps[0] && text[f..] == Spaced(pieces[1..], gaps[1..])
  {
    var rest := Spaced(pieces[1..], gaps[1..]);
    assert text[at..] == pieces[0] + gaps[0] + rest;
    assert text[e..f] == text[at..][|pieces[0]|..|pieces[0]| + |gaps[0]|];
    assert text[f..] == text[at..][|pieces[0]| + |gaps[0]|..];
  }

  lemma LaidPiece(text: string, piece: string, at: nat, last: nat, e: nat, a: nat)
    requires last <= at <= e <= a <= |text| && text[at..e] == piece && Trimmed(piece)
    requires Blank(text[last..at]) && Blank(text[e..a])
    ensures Strip(text[last..a]) == piece
  {
    assert text[last..a] == text[last..at] + piece + text[e..a];
    StripAround(text[last..at], piece, text[e..a]);
  }

  /** Paragraphs laid out with any separators are returned as they were. */
  lemma ParagraphsReturn(paragraphs: seq<string>, gaps: seq<string>)
    requires Laid(paragraphs, gaps)
    ensures Paragraphs(Spaced(paragraphs, gaps)) == paragraphs
  {
    var text := Spaced(paragraphs, gaps);
    assert text[0..] == text;
    LaidCut(text, paragraphs, gaps, 0, 0);
  }

  predicate AllUnbroken(pieces: seq<string>) {
    forall k :: 0 <= k < |pieces| ==> Unbroken(pieces[k])
  }

  lemma StripUnbroken(s: string)
    requires Unbroken(s)
    ensures Unbroken(Strip(s))
  {
    var from, to := StripSpan(s);
    var t := Strip(s);
    forall i: nat, j: nat | i < j < |t| ensures !BreakAt(t, i, j) {
      SliceOfSlice(s, from, to, i, j);
      assert !BreakAt(s, from + i, from + j);
    }
  }

  lemma {:induction false} TidyUnbroken(parts: seq<string>)
    requires AllUnbroken(parts)
    ensures AllUnbroken(Tidy(parts))
  {
    if parts != [] {
      TidyUnbroken(parts[1..]);
      StripUnbroken(parts[0]);
    }
  }

  /** Up to here no gap begins in the open piece, so it holds no break. */
  lemma OpenUnbroken(text: string, last: nat, from: nat)
    requires last <= from <= |text| && forall i: nat :: last <= i < from ==> !ParagraphGapAt(text, i)
    ensures Unbroken(text[last..from])
  {
    var t := text[last..from];
    forall i: nat, j: nat | i < j < |t| ensures !BreakAt(t, i, j) {
      GapIsBreak(text, last + i);
      SliceOfSlice(text, last, from, i, j);
      assert !BreakAt(text, last + i, last + j);
    }
  }

  lemma {:induction false} CutUnbroken(text: string, from: nat, last: nat)
    requires last <= from <= |text| && GapsIn(text, ParagraphGaps(text, from), last)
    requires forall i: nat :: last <= i < from ==> !ParagraphGapAt(text, i)
    ensures AllUnbroken(Cut(text, ParagraphGaps(text, from), last, KeepsEveryGap))
    decreases |text| - from
  {
    OpenUnbroken(text, last, from);
    if from == |text| {
      assert text[last..] == text[last..from];
    } else if ParagraphGapAt(text, from) {
      var j := AfterLastNewline(text, from + 1, RunEnd(text, from + 1));
      CutUnbroken(text, j, j);
      var rest := Cut(text, ParagraphGaps(text, j), j, KeepsEveryGap);
      assert Cut(text, ParagraphGaps(text, from), last, KeepsEveryGap) == [text[last..from]] + rest;
    } else {
      GapsSkip(text, from, from + 1);
      CutUnbroken(text, from + 1, last);
    }
  }

  /** No paragraph returned holds a break. */
  lemma ParagraphsUnbroken(text: string)
    ensures AllUnbroken(Paragraphs(text))
  {
    CutUnbroken(text, 0, 0);
    TidyUnbroken(Cut(text, ParagraphGaps(text, 0), 0, KeepsEveryGap));
  }

  // ----- sentences -------------------------------------------------------------------------------

  predicate Closes(c: char) {
    c in ".!?"
  }

  predicate Opens(c: char) {
    'A' <= c <= 'Z' || c in "\"'(["
  }

  /** End punctuation, whitespace and an opening character stand here. */
  predicate Cuttable(sentence: string, i: nat, j: nat) {
    0 < i < j < |sentence| && Closes(sentence[i - 1]) && Blank(sentence[i..j]) && Opens(sentence[j])
  }

  /** Wherever they do, what stands to the left of the whitespace ends in an abbreviation. */
  predicate Whole(sentence: string, abbreviated: string -> bool) {
    forall i, j :: 0 <= i < j < |sentence| && Cuttable(sentence, i, j) ==> abbreviated(sentence[..i])
  }

  lemma WholeAt(sentence: string, abbreviated: string -> bool, i: nat)
    requires Whole(sentence, abbreviated) && SentenceGapAt(sentence, i)
    ensures abbreviated(sentence[..i])
  {
    assert Cuttable(sentence, i, RunEnd(sentence, i));
  }

  /** One sentence ends here and another opens. */
  predicate EndsBefore(sentence: string, next: string, abbreviated: string -> bool) {
    && sentence != "" && Closes(sentence[|sentence| - 1]) && !abbreviated(sentence)
    && next != "" && Opens(next[0])
  }

  /** Sentences and the whitespace between them, laid out one after the other. */
  ghost predicate SentencesLaid(pieces: seq<string>, gaps: seq<string>, abbreviated: string -> bool) {
    && |gaps| + 1 == |pieces|
    && (forall i :: 0 <= i < |pieces| ==> Trimmed(pieces[i]) && Whole(pieces[i], abbreviated))
    && forall i :: 0 <= i < |gaps| ==> gaps[i] != "" && Blank(gaps[i]) && EndsBefore(pieces[i], pieces[i + 1], abbreviated)
  }

  /** A run of whitespace that begins inside a piece ends inside it. */
  lemma RunInside(text: string, at: nat, piece: string, i: nat)
    requires at + |piece| <= |text| && text[at..at + |piece|] == piece && Trimmed(piece)
    requires at <= i < at + |piece|
    ensures RunEnd(text, i) < at + |piece| && RunEnd(text, i) == at + RunEnd(piece, i - at)
  {
    var end, run := at + |piece|, RunEnd(piece, i - at);
    assert forall k :: 0 <= k < |piece| ==> piece[k] == text[at + k];
    if run == |piece| {
      BlankChars(piece, i - at, |piece|);
      assert false;
    }
    SliceOfSlice(text, at, end, i - at, run);
    RunEndIs(text, i, at + run);
  }

  /** A candidate boundary past the start of a piece is one of the piece's own. */
  lemma BoundaryInside(text: string, at: nat, piece: string, i: nat)
    requires at + |piece| <= |text| && text[at..at + |piece|] == piece && Trimmed(piece)
    requires at <= i < at + |piece|
    ensures SentenceGapAt(text, i) <==> i > at && SentenceGapAt(piece, i - at)
  {
    assert forall k :: 0 <= k < |piece| ==> piece[k] == text[at + k];
    RunInside(text, at, piece, i);
  }

  /** The piece of the text, and the gaps of the text as the cut at its start sees them. */
  ghost predicate Stands(text: string, at: nat, piece: string) {
    at + |piece| <= |text| && text[at..at + |piece|] == piece && Trimmed(piece)
  }

  function CutFrom(text: string, from: nat, at: nat, abbreviated: string -> bool): seq<string>
    requires at <= from <= |text|
  {
    GapsFrom(text, SentenceGaps(text, from), from, at);
    Cut(text, SentenceGaps(text, from), at, abbreviated)
  }

  /** A boundary taken back, or no boundary: the cut goes on. */
  lemma {:induction false} InsideStep(text: string, at: nat, piece: string, from: nat, abbreviated: string -> bool) returns (next: nat)
    requires Stands(text, at, piece) && Whole(piece, abbreviated) && at <= from < at + |piece|
    ensures from < next <= at + |piece| && CutFrom(text, from, at, abbreviated) == CutFrom(text, next, at, abbreviated)
  {
    BoundaryInside(text, at, piece, from);
    if SentenceGapAt(text, from) {
      next := RunEnd(text, from);
      WholeAt(piece, abbreviated, from - at);
      RunInside(text, at, piece, from);
      SliceOfSlice(text, at, at + |piece|, 0, from - at);
      GapsFrom(text, SentenceGaps(text, next), next, at);
      GapsFrom(text, SentenceGaps(text, from), from, at);
      TakenBack(text, at, from, abbreviated);
    } else {
      next := from + 1;
    }
  }

  /** Boundaries taken back inside a whole sentence leave the cut where it stands. */
  lemma {:induction false} WholeCut(text: string, at: nat, piece: string, from: nat, abbreviated: string -> bool)
    requires Stands(text, at, piece) && Whole(piece, abbreviated) && at <= from <= at + |piece|
    ensures CutFrom(text, from, at, abbreviated) == CutFrom(text, at + |piece|, at, abbreviated)
    decreases |text| - from
  {
    if from < at + |piece| {
      var next := InsideStep(text, at, piece, from, abbreviated);
      WholeCut(text, at, piece, next, abbreviated);
    }
  }

  lemma TakenBack(text: string, at: nat, from: nat, abbreviated: string -> bool)
    requires at <= from < |text| && SentenceGapAt(text, from) && abbreviated(text[at..from])
    requires GapsIn(text, SentenceGaps(text, from), at) && GapsIn(text, SentenceGaps(text, RunEnd(text, from)), at)
    ensures Cut(text, SentenceGaps(text, from), at, abbreviated) == Cut(text, SentenceGaps(text, RunEnd(text, from)), at, abbreviated)
  {
    var j := RunEnd(text, from);
    assert SentenceGaps(text, from) == [Gap(from, j)] + SentenceGaps(text, j);
    assert SentenceGaps(text, from)[1..] == SentenceGaps(text, j);
  }

  /** The whitespace after a sentence is its boundary. */
  lemma NextSentence(text: string, at: nat, e: nat, f: nat, abbreviated: string -> bool)
    requires at < e < f < |text| && Blank(text[e..f]) && !IsSpace(text[f]) && OpensSentence(text[f])
    requires EndsSentence(text[e - 1]) && !abbreviated(text[at..e]) && GapsIn(text, SentenceGaps(text, e), at)
    ensures Cut(text, SentenceGaps(text, e), at, abbreviated) == [text[at..e]] + Cut(text, SentenceGaps(text, f), f, abbreviated)
  {
    BlankChars(text, e, f);
    RunEndIs(text, e, f);
    assert SentenceGaps(text, e) == [Gap(e, f)] + SentenceGaps(text, f);
    assert SentenceGaps(text, e)[1..] == SentenceGaps(text, f);
  }

  /** As far as the end of the first sentence. */
  lemma FirstSentence(text: string, pieces: seq<string>, gaps: seq<string>, at: nat, abbreviated: string -> bool)
    requires SentencesLaid(pieces, gaps, abbreviated) && at <= |text| && text[at..] == Spaced(pieces, gaps)
    ensures var e := at + |pieces[0]|;
            && at < e <= |text| && text[at..e] == pieces[0]
            && CutFrom(text, at, at, abbreviated) == CutFrom(text, e, at, abbreviated)
  {
    var piece := pieces[0];
    assert text[at..][..|piece|] == piece && text[at..][..|piece|] == text[at..at + |piece|];
    WholeCut(text, at, piece, at, abbreviated);
  }

  lemma {:induction false} SentencesCut(text: string, pieces: seq<string>, gaps: seq<string>, at: nat, abbreviated: string -> bool)
    requires SentencesLaid(pieces, gaps, abbreviated) && at <= |text| && text[at..] == Spaced(pieces, gaps)
    ensures CutFrom(text, at, at, abbreviated) == pieces
    decreases |pieces|
  {
    var e := at + |pieces[0]|;
    FirstSentence(text, pieces, gaps, at, abbreviated);
    if gaps == [] {
      assert e == |text| && pieces == [pieces[0]];
    } else {
      var f := OneSentence(text, pieces, gaps, at, abbreviated);
      SentencesCut(text, pieces[1..], gaps[1..], f, abbreviated);
      assert [pieces[0]] + pieces[1..] == pieces;
    }
  }

  /** The first sentence is cut off, and the cut goes on where the second begins. */
  lemma {:induction false} OneSentence(text: string, pieces: seq<string>, gaps: seq<string>, at: nat, abbreviated: string -> bool)
    returns (f: nat)
    requires SentencesLaid(pieces, gaps, abbreviated) && at <= |text| && text[at..] == Spaced(pieces, gaps) && gaps != []
    ensures f <= |text| && text[f..] == Spaced(pieces[1..], gaps[1..]) && SentencesLaid(pieces[1..], gaps[1..], abbreviated)
    ensures at + |pieces[0]| <= |text|
    ensures CutFrom(text, at + |pieces[0]|, at, abbreviated) == [pieces[0]] + CutFrom(text, f, f, abbreviated)
  {
    var e := at + |pieces[0]|;
    f := e + |gaps[0]|;
    LaidStep(text, pieces, gaps, at, e, f);
    SentencesRest(pieces, gaps, abbreviated);
    GapsFrom(text, SentenceGaps(text, e), e, at);
    GapsFrom(text, SentenceGaps(text, f), f, f);
    SentenceThen(text, pieces, gaps, at, e, f, abbreviated);
  }

  lemma {:induction false} SentenceThen(text: string, pieces: seq<string>, gaps: seq<string>, at: nat, e: nat, f: nat, abbreviated: string -> bool)
    requires |pieces| >= 2 && gaps != [] && at <= e <= f < |text|
    requires gaps[0] != "" && Blank(gaps[0]) && EndsBefore(pieces[0], pieces[1], abbreviated)
    requires text[at..e] == pieces[0] && text[e..f] == gaps[0] && text[f] == pieces[1][0] && !IsSpace(text[f])
    requires GapsIn(text, SentenceGaps(text, e), at)
    ensures Cut(text, SentenceGaps(text, e), at, abbreviated) == [pieces[0]] + Cut(text, SentenceGaps(text, f), f, abbreviated)
  {
    assert text[e - 1] == text[at..e][e - 1 - at];
    NextSentence(text, at, e, f, abbreviated);
  }

  lemma {:induction false} SentencesRest(pieces: seq<string>, gaps: seq<string>, abbreviated: string -> bool)
    requires SentencesLaid(pieces, gaps, abbreviated) && gaps != []
    ensures SentencesLaid(pieces[1..], gaps[1..], abbreviated)
    ensures var rest := Spaced(pieces[1..], gaps[1..]); rest != "" && rest[0] == pieces[1][0] && !IsSpace(rest[0])
    ensures gaps[0] != "" && Blank(gaps[0]) && EndsBefore(pieces[0], pieces[1], abbreviated)
  {
    var rest, more := pieces[1..], gaps[1..];
    assert rest[0] == pieces[1] && Trimmed(pieces[1]) && EndsBefore(pieces[0], pieces[0 + 1], abbreviated);
    forall i | 0 <= i < |more|
      ensures more[i] != "" && Blank(more[i]) && EndsBefore(rest[i], rest[i + 1], abbreviated)
    {
      assert more[i] == gaps[i + 1] && EndsBefore(pieces[i + 1], pieces[i + 1 + 1], abbreviated);
    }
  }

  lemma {:induction false} TidyTrimmed(parts: seq<string>)
    requires AllTrimmed(parts)
    ensures Tidy(parts) == parts
  {
    if parts != [] {
      TidyTrimmed(parts[1..]);
      StripAround("", parts[0], "");
      assert "" + parts[0] + "" == parts[0];
      assert [parts[0]] + parts[1..] == parts;
    }
  }

  /** Sentences laid out with any whitespace between them are returned as they were: cut
      after end punctuation and before an opening, but not after an abbreviation, and
      nowhere else. */
  lemma SentencesReturn(sentences: seq<string>, gaps: seq<string>, abbreviated: string -> bool)
    requires SentencesLaid(sentences, gaps, abbreviated)
    ensures Sentences(Spaced(sentences, gaps), abbreviated) == sentences
  {
    var text := Spaced(sentences, gaps);
    assert text[0..] == text;
    SentencesCut(text, sentences, gaps, 0, abbreviated);
    TidyTrimmed(sentences);
  }
}
