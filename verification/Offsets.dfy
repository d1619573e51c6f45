// When the forward search for each chunk recovers where the chunk came from.
module Offsets {
  import opened Text
  import opened Splitting
  import opened Capping
  import opened Chunker

  /** Each piece stands in the text at its position, after the one before it, with only
      whitespace in between. */
  ghost predicate Verbatim(text: string, pieces: seq<string>, at: seq<nat>, from: nat) {
    && |at| == |pieces|
    && (pieces != [] ==>
          && from <= at[0] && OccursAt(text, pieces[0], at[0]) && Blank(text[from..at[0]])
          && Verbatim(text, pieces[1..], at[1..], at[0] + |pieces[0]|))
  }

  function Placed(pieces: seq<string>, at: seq<nat>, index: nat): seq<Chunk>
    requires |at| == |pieces|
  {
    if pieces == [] then []
    else [Chunk(pieces[0], index, at[0], at[0] + |pieces[0]|)] + Placed(pieces[1..], at[1..], index + 1)
  }

  function End(pieces: seq<string>, at: seq<nat>, from: nat): nat
    requires |at| == |pieces|
  {
    if pieces == [] then from else End(pieces[1..], at[1..], at[0] + |pieces[0]|)
  }

  /** The first occurrence after the previous chunk is the true one: an earlier one would
      have to begin in whitespace, and no chunk does. */
  lemma FindSkipsBlank(text: string, piece: string, from: nat, at: nat)
    requires Trimmed(piece) && from <= at && OccursAt(text, piece, at) && Blank(text[from..at])
    ensures Find(text, piece, from) == Some(at)
  {
    var p := Find(text, piece, from).value;
    assert text[p] == text[p..p + |piece|][0];
    assert forall i :: from <= i < at ==> text[i] == text[from..at][i - from];
  }

  lemma {:induction false} LocateRecovers(text: string, pieces: seq<string>, at: seq<nat>, index: nat, from: nat)
    requires AllTrimmed(pieces) && Verbatim(text, pieces, at, from)
    ensures Locate(text, pieces, index, from) == Placed(pieces, at, index)
    decreases |pieces|
  {
    if pieces != [] {
      FindSkipsBlank(text, pieces[0], from, at[0]);
      LocateRecovers(text, pieces[1..], at[1..], index + 1, at[0] + |pieces[0]|);
    }
  }

  lemma {:induction false} VerbatimInside(text: string, pieces: seq<string>, at: seq<nat>, from: nat)
    requires Verbatim(text, pieces, at, from) && from <= |text|
    ensures End(pieces, at, from) <= |text|
    decreases |pieces|
  {
    if pieces != [] {
      VerbatimInside(text, pieces[1..], at[1..], at[0] + |pieces[0]|);
    }
  }

  lemma InkOfThree(gap: string, piece: string, tail: string)
    requires Blank(gap)
    ensures Ink(gap + piece + tail) == Ink(piece) + Ink(tail)
  {
    InkOfBlank(gap);
    InkAppend(gap, piece);
    assert "" + Ink(piece) == Ink(piece);
    InkAppend(gap + piece, tail);
  }

  lemma ThreeParts(text: string, from: nat, at: nat, end: nat)
    requires from <= at <= end <= |text|
    ensures text[from..] == text[from..at] + text[at..end] + text[end..]
  {
  }

  lemma {:induction false} VerbatimInk(text: string, pieces: seq<string>, at: seq<nat>, from: nat)
    requires Verbatim(text, pieces, at, from) && from <= |text|
    requires End(pieces, at, from) <= |text|
    ensures |Ink(text[from..])| == |Ink(Concat(pieces))| + |Ink(text[End(pieces, at, from)..])|
    decreases |pieces|
  {
    if pieces != [] {
      var end := at[0] + |pieces[0]|;
      VerbatimInk(text, pieces[1..], at[1..], end);
      ThreeParts(text, from, at[0], end);
      InkOfThree(text[from..at[0]], pieces[0], text[end..]);
      InkAppend(pieces[0], Concat(pieces[1..]));
    }
  }

  /** Whenever the chunks of a call that repeats no word stand verbatim in the text, separated by
      whitespace only, the reported offsets are exactly their positions and nothing but
      whitespace is left uncovered. */
  lemma OffsetsExact(text: string, c: Config, at: seq<nat>)
    requires Callable(c) && Unrepeated(c) && Chunks(text, c).Ok?
    requires Verbatim(text, Texts(Chunks(text, c).value), at, 0)
    ensures var chunks := Chunks(text, c).value;
            && chunks == Placed(Texts(chunks), at, 0)
            && End(Texts(chunks), at, 0) <= |text|
            && Blank(text[End(Texts(chunks), at, 0)..])
  {
    var chunks := Chunks(text, c).value;
    var pieces := FittedChunks(text, c).value;
    ChunksSound(text, c);
    LocateOrdered(text, pieces, 0, 0);
    LocateRecovers(text, pieces, at, 0, 0);
    VerbatimInside(text, pieces, at, 0);
    VerbatimInk(text, pieces, at, 0);
    assert text[0..] == text;
    InkEmptyIffBlank(text[End(pieces, at, 0)..]);
  }

  // ----- the boundary strategies always qualify ------------------------------------------------

  /** Where the search resumes after the piece text[last..stop], given where it stood. */
  function Resume(text: string, last: nat, stop: nat, from: nat): nat
    requires last <= stop <= |text|
  {
    var head := text[last..stop];
    if Strip(head) == "" then from else last + StripEnd(head)
  }

  lemma SliceOfSlice(text: string, a: nat, b: nat, i: nat, j: nat)
    requires a <= b <= |text| && i <= j <= b - a
    ensures text[a..b][i..j] == text[a + i..a + j]
  {
    assert forall k :: 0 <= k < j - i ==> text[a..b][i..j][k] == text[a..b][i + k] == text[a + i + k];
  }

  lemma BlankJoin(text: string, a: nat, b: nat, c: nat)
    requires a <= b <= c <= |text| && Blank(text[a..b]) && Blank(text[b..c])
    ensures Blank(text[a..c])
  {
    assert text[a..c] == text[a..b] + text[b..c];
  }

  /** What stripping keeps of a slice, as a slice of the text. */
  lemma StripSlice(text: string, last: nat, stop: nat) returns (i: nat, j: nat)
    requires last <= stop <= |text|
    ensures j == StripEnd(text[last..stop])
    ensures i <= j <= stop - last && Strip(text[last..stop]) == text[last + i..last + j]
    ensures Blank(text[last..last + i]) && Blank(text[last + j..stop])
  {
    var head := text[last..stop];
    i, j := StripSpan(head);
    SliceOfSlice(text, last, stop, i, j);
    SliceOfSlice(text, last, stop, 0, i);
    SliceOfSlice(text, last, stop, j, |head|);
    assert head[0..i] == head[..i] && head[j..|head|] == head[j..];
  }

  /** Where a stripped piece stands. */
  lemma StrippedAt(text: string, from: nat, last: nat, stop: nat) returns (at: nat)
    requires from <= last <= stop <= |text| && Blank(text[from..last])
    requires Strip(text[last..stop]) != ""
    ensures from <= at && OccursAt(text, Strip(text[last..stop]), at) && Blank(text[from..at])
    ensures at + |Strip(text[last..stop])| == Resume(text, last, stop, from)
  {
    var i, j := StripSlice(text, last, stop);
    at := last + i;
    BlankJoin(text, from, last, at);
  }

  lemma VerbatimCons(text: string, piece: string, at: nat, pieces: seq<string>, rest: seq<nat>, from: nat)
    requires from <= at && OccursAt(text, piece, at) && Blank(text[from..at])
    requires Verbatim(text, pieces, rest, at + |piece|)
    ensures Verbatim(text, [piece] + pieces, [at] + rest, from)
  {
    assert ([piece] + pieces)[1..] == pieces && ([at] + rest)[1..] == rest;
  }

  /** A piece, stripped, in front of pieces that are verbatim from where it ends. */
  lemma PieceVerbatim(text: string, from: nat, last: nat, stop: nat, pieces: seq<string>, rest: seq<nat>)
    returns (at: seq<nat>)
    requires from <= last <= stop <= |text| && Blank(text[from..last])
    requires Verbatim(text, pieces, rest, Resume(text, last, stop, from))
    ensures Verbatim(text, Tidy([text[last..stop]]) + pieces, at, from)
  {
    var head := text[last..stop];
    TidyCons(head, []);
    if Strip(head) == "" {
      at := rest;
      assert [] + pieces == pieces;
    } else {
      var start := StrippedAt(text, from, last, stop);
      VerbatimCons(text, Strip(head), start, pieces, rest, from);
      at := [start] + rest;
    }
  }

  lemma ResumeBlank(text: string, from: nat, last: nat, stop: nat, next: nat)
    requires from <= last <= stop <= next <= |text| && Blank(text[from..last]) && Blank(text[stop..next])
    ensures Resume(text, last, stop, from) <= next && Blank(text[Resume(text, last, stop, from)..next])
  {
    var head := text[last..stop];
    if Strip(head) == "" {
      StripKeepsInk(head);
      BlankJoin(text, from, last, stop);
      BlankJoin(text, from, stop, next);
    } else {
      var i, j := StripSlice(text, last, stop);
      BlankJoin(text, last + j, stop, next);
    }
  }

  /** A gap that is taken: the piece before it, then the pieces after it. */
  lemma GapVerbatim(text: string, from: nat, last: nat, stop: nat, tail: seq<string>, rest: seq<nat>)
    returns (at: seq<nat>)
    requires from <= last <= stop <= |text| && Blank(text[from..last])
    requires Verbatim(text, Tidy(tail), rest, Resume(text, last, stop, from))
    ensures Verbatim(text, Tidy([text[last..stop]] + tail), at, from)
  {
    at := PieceVerbatim(text, from, last, stop, Tidy(tail), rest);
    TidyCons(text[last..stop], tail);
  }

  /** Sentences and paragraphs are verbatim, whatever gaps are rejected. */
  lemma KeptVerbatim(text: string, gaps: seq<Gap>, last: nat, rejects: string -> bool, from: nat, rest: seq<nat>)
    returns (at: seq<nat>)
    requires from <= last <= |text| && gaps != [] && GapsIn(text, gaps, last) && Blank(text[from..last])
    requires !rejects(text[last..gaps[0].start]) && GapsIn(text, gaps[1..], gaps[0].end)
    requires Verbatim(text, Tidy(Cut(text, gaps[1..], gaps[0].end, rejects)), rest, Resume(text, last, gaps[0].start, from))
    ensures Verbatim(text, Tidy(Cut(text, gaps, last, rejects)), at, from)
  {
    at := GapVerbatim(text, from, last, gaps[0].start, Cut(text, gaps[1..], gaps[0].end, rejects), rest);
  }

  lemma {:induction false} CutVerbatim(text: string, gaps: seq<Gap>, last: nat, rejects: string -> bool, from: nat)
    returns (at: seq<nat>)
    requires from <= last <= |text| && GapsIn(text, gaps, last) && Blank(text[from..last])
    ensures Verbatim(text, Tidy(Cut(text, gaps, last, rejects)), at, from)
    decreases |gaps|
  {
    if gaps == [] {
      at := PieceVerbatim(text, from, last, |text|, [], []);
      assert text[last..|text|] == text[last..];
    } else {
      var stop, end := gaps[0].start, gaps[0].end;
      var head := text[last..stop];
      GapsFrom(text, gaps[1..], end, last);
      if rejects(head) {
        at := CutVerbatim(text, gaps[1..], last, rejects, from);
      } else {
        ResumeBlank(text, from, last, stop, end);
        var rest := CutVerbatim(text, gaps[1..], end, rejects, Resume(text, last, stop, from));
        at := KeptVerbatim(text, gaps, last, rejects, from, rest);
      }
    }
  }

  /** With nothing to cap, merge or fit, the sentence and paragraph strategies report the
      exact position of every chunk. */
  lemma {:induction false} BoundaryStrategyOffsets(text: string, c: Config) returns (at: seq<nat>)
    requires Callable(c) && !Blank(text) && c.maxChars > 0
    requires (c.strategy.Sentence? || c.strategy.Paragraph?)
    requires c.minChunkLength <= 1 && c.fits.None? && Within(RawChunks(text, c), c.maxChars)
    ensures Chunks(text, c).Ok?
    ensures var chunks := Chunks(text, c).value;
            && Verbatim(text, Texts(chunks), at, 0)
            && chunks == Placed(Texts(chunks), at, 0)
            && End(Texts(chunks), at, 0) <= |text|
            && Blank(text[End(Texts(chunks), at, 0)..])
  {
    var raw := RawChunks(text, c);
    CapAllIdentity(raw, c.maxChars);
    ChunksSound(text, c);
    LocateOrdered(text, raw, 0, 0);
    if c.strategy.Sentence? {
      at := CutVerbatim(text, SentenceGaps(text, 0), 0, c.abbreviated, 0);
    } else {
      at := CutVerbatim(text, ParagraphGaps(text, 0), 0, KeepsEveryGap, 0);
    }
    OffsetsExact(text, c, at);
  }

  lemma {:induction false} CapAllIdentity(chunks: seq<string>, maxChars: nat)
    requires maxChars > 0 && Within(chunks, maxChars)
    ensures CapAll(chunks, maxChars) == chunks
  {
    if chunks != [] {
      CapAllIdentity(chunks[1..], maxChars);
      assert [chunks[0]] + chunks[1..] == chunks;
    }
  }
}
