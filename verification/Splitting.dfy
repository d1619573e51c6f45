// Splitting a text at its own boundaries: sentence ends and blank lines.
module Splitting {
  import opened Text

  /** A run of characters a splitter drops, as the half-open range a regex match reports. */
  datatype Gap = Gap(start: nat, end: nat)

  /** End of the whitespace run that begins at i. */
  function RunEnd(text: string, i: nat): (j: nat)
    requires i <= |text|
    ensures i <= j <= |text| && Blank(text[i..j])
    ensures j < |text| ==> !IsSpace(text[j])
    decreases |text| - i
  {
    if i < |text| && IsSpace(text[i]) then
      var j := RunEnd(text, i + 1);
      assert text[i..j] == [text[i]] + text[i + 1..j];
      j
    else i
  }

  predicate EndsSentence(c: char) {
    c == '.' || c == '!' || c == '?'
  }

  predicate OpensSentence(c: char) {
    'A' <= c <= 'Z' || c == '"' || c == '\'' || c == '(' || c == '['
  }

  /** A whitespace run after end punctuation and before something that can open a
      sentence. */
  predicate SentenceGapAt(text: string, i: nat) {
    && 0 < i < |text|
    && EndsSentence(text[i - 1])
    && IsSpace(text[i])
    && var j := RunEnd(text, i); j < |text| && OpensSentence(text[j])
  }

  /** Every candidate sentence boundary at or after `from`, left to right. */
  function SentenceGaps(text: string, from: nat): (gaps: seq<Gap>)
    requires from <= |text|
    ensures GapsIn(text, gaps, from)
    decreases |text| - from
  {
    if from == |text| then []
    else if SentenceGapAt(text, from) then
      var j := RunEnd(text, from);
      [Gap(from, j)] + SentenceGaps(text, j)
    else
      var gaps := SentenceGaps(text, from + 1);
      gaps
  }

  /** One past the last newline in text[i..j], or i when it holds none. */
  function AfterLastNewline(text: string, i: nat, j: nat): (k: nat)
    requires i <= j <= |text|
    ensures i <= k <= j
    decreases j - i
  {
    if i == j then i
    else if text[j - 1] == '\n' then j
    else AfterLastNewline(text, i, j - 1)
  }

  /** Every paragraph break at or after `from`: a newline, whitespace, a newline, taken as
      long as it can be. */
  function ParagraphGaps(text: string, from: nat): (gaps: seq<Gap>)
    requires from <= |text|
    ensures GapsIn(text, gaps, from)
    decreases |text| - from
  {
    if from == |text| then []
    else if text[from] == '\n' && AfterLastNewline(text, from + 1, RunEnd(text, from + 1)) > from + 1 then
      var run := RunEnd(text, from + 1);
      var j := AfterLastNewline(text, from + 1, run);
      assert text[from..j] == [text[from]] + text[from + 1..run][..j - from - 1];
      [Gap(from, j)] + ParagraphGaps(text, j)
    else
      var gaps := ParagraphGaps(text, from + 1);
      gaps
  }

  /** The gaps are non-empty whitespace runs of the text, ascending and disjoint. */
  predicate GapsIn(text: string, gaps: seq<Gap>, from: nat) {
    gaps != [] ==>
      && from <= gaps[0].start < gaps[0].end <= |text|
      && Blank(text[gaps[0].start..gaps[0].end])
      && GapsIn(text, gaps[1..], gaps[0].end)
  }

  /** The pieces between the gaps that are not rejected. A gap is rejected when the piece
      it would close is one `rejects` claims, such as one ending in an abbreviation. */
  function Cut(text: string, gaps: seq<Gap>, last: nat, rejects: string -> bool): seq<string>
    requires last <= |text| && GapsIn(text, gaps, last)
    decreases |gaps|
  {
    if gaps == [] then [text[last..]]
    else
      var head := text[last..gaps[0].start];
      GapsFrom(text, gaps[1..], gaps[0].end, last);
      if rejects(head) then Cut(text, gaps[1..], last, rejects)
      else [head] + Cut(text, gaps[1..], gaps[0].end, rejects)
  }

  predicate KeepsEveryGap(head: string) {
    false
  }

  lemma GapsFrom(text: string, gaps: seq<Gap>, from: nat, earlier: nat)
    requires GapsIn(text, gaps, from) && earlier <= from
    ensures GapsIn(text, gaps, earlier)
  {
  }

  /** [p.strip() for p in parts if p.strip()] */
  function Tidy(parts: seq<string>): (r: seq<string>)
    ensures AllTrimmed(r)
  {
    if parts == [] then []
    else
      var rest := Tidy(parts[1..]);
      var p := Strip(parts[0]);
      if p == "" then rest
      else
        StripTrimmed(parts[0]);
        [p] + rest
  }

  lemma TidyCons(head: string, tail: seq<string>)
    ensures Tidy([head]) == if Strip(head) == "" then [] else [Strip(head)]
    ensures Tidy([head] + tail) == Tidy([head]) + Tidy(tail)
  {
    assert [head][1..] == [];
    assert ([head] + tail)[1..] == tail;
  }

  predicate AllTrimmed(pieces: seq<string>) {
    forall i :: 0 <= i < |pieces| ==> Trimmed(pieces[i])
  }

  /** The sentences of a text, for any test of what ends in an abbreviation. */
  function Sentences(text: string, abbreviated: string -> bool): (r: seq<string>)
    ensures AllTrimmed(r)
  {
    Tidy(Cut(text, SentenceGaps(text, 0), 0, abbreviated))
  }

  function Paragraphs(text: string): (r: seq<string>)
    ensures AllTrimmed(r)
  {
    Tidy(Cut(text, ParagraphGaps(text, 0), 0, KeepsEveryGap))
  }

  /** The first gap, taken or rejected, and the rest. */
  lemma CutStep(text: string, gaps: seq<Gap>, k: nat, last: nat, rejects: string -> bool)
    requires last <= |text| && k < |gaps| && GapsIn(text, gaps[k..], last)
    ensures last <= gaps[k].start <= gaps[k].end <= |text|
    ensures GapsIn(text, gaps[k + 1..], last) && GapsIn(text, gaps[k + 1..], gaps[k].end)
    ensures var head := text[last..gaps[k].start];
            Cut(text, gaps[k..], last, rejects) ==
            if rejects(head) then Cut(text, gaps[k + 1..], last, rejects)
            else [head] + Cut(text, gaps[k + 1..], gaps[k].end, rejects)
  {
    assert gaps[k..][1..] == gaps[k + 1..] && gaps[k..][0] == gaps[k];
    GapsFrom(text, gaps[k + 1..], gaps[k].end, last);
  }

  method SplitSentences(text: string, abbreviated: string -> bool) returns (sentences: seq<string>)
    ensures sentences == Sentences(text, abbreviated)
  {
    var parts: seq<string> := [];
    var last: nat := 0;
    var gaps := SentenceGaps(text, 0);
    for k := 0 to |gaps|
      invariant last <= |text| && GapsIn(text, gaps[k..], last)
      invariant parts + Cut(text, gaps[k..], last, abbreviated) == Cut(text, gaps, 0, abbreviated)
    {
      var gap := gaps[k];
      CutStep(text, gaps, k, last, abbreviated);
      var head := text[last..gap.start];
      Associate(parts, [head], Cut(text, gaps[k + 1..], gap.end, abbreviated));
      if !abbreviated(head) {
        parts := parts + [head];
        last := gap.end;
      }
    }
    parts := parts + [text[last..]];
    sentences := Tidy(parts);
  }

  // ----- what splitting keeps ------------------------------------------------------

  /** The pieces hold the text's ink in order, and with one separator apiece they are no
      longer than the text. */
  predicate Carries(pieces: seq<string>, text: string) {
    Ink(Concat(pieces)) == Ink(text) && Weight(pieces) <= |text| + 1
  }

  lemma CarriesAcross(head: string, gap: string, tail: string, pieces: seq<string>)
    requires gap != "" && Blank(gap) && Carries(pieces, tail)
    ensures Carries([head] + pieces, head + gap + tail)
  {
    InkAppend(head + gap, tail);
    InkAppend(head, gap);
    InkOfBlank(gap);
    InkAppend(head, Concat(pieces));
    assert ([head] + pieces)[1..] == pieces;
  }

  lemma {:induction false} CutKeeps(text: string, gaps: seq<Gap>, last: nat, rejects: string -> bool)
    requires last <= |text| && GapsIn(text, gaps, last)
    ensures Carries(Cut(text, gaps, last, rejects), text[last..])
    decreases |gaps|
  {
    if gaps == [] {
      assert Concat([text[last..]]) == text[last..];
    } else {
      var head, end := text[last..gaps[0].start], gaps[0].end;
      GapsFrom(text, gaps[1..], end, last);
      if rejects(head) {
        CutKeeps(text, gaps[1..], last, rejects);
      } else {
        CutKeeps(text, gaps[1..], end, rejects);
        var gap := text[gaps[0].start..end];
        CarriesAcross(head, gap, text[end..], Cut(text, gaps[1..], end, rejects));
        assert text[last..] == head + gap + text[end..];
      }
    }
  }

  lemma {:induction false} TidyKeeps(parts: seq<string>)
    ensures Ink(Concat(Tidy(parts))) == Ink(Concat(parts))
    ensures Weight(Tidy(parts)) <= Weight(parts)
  {
    if parts != [] {
      TidyKeeps(parts[1..]);
      StripKeepsInk(parts[0]);
      var p, rest := Strip(parts[0]), Tidy(parts[1..]);
      InkAppend(parts[0], Concat(parts[1..]));
      InkAppend(p, Concat(rest));
      assert ([p] + rest)[1..] == rest;
    }
  }

  lemma SentencesKeep(text: string, abbreviated: string -> bool)
    ensures Carries(Sentences(text, abbreviated), text)
  {
    CutKeeps(text, SentenceGaps(text, 0), 0, abbreviated);
    TidyKeeps(Cut(text, SentenceGaps(text, 0), 0, abbreviated));
    assert text[0..] == text;
  }

  lemma ParagraphsKeep(text: string)
    ensures Carries(Paragraphs(text), text)
  {
    CutKeeps(text, ParagraphGaps(text, 0), 0, KeepsEveryGap);
    TidyKeeps(Cut(text, ParagraphGaps(text, 0), 0, KeepsEveryGap));
    assert text[0..] == text;
  }
}
