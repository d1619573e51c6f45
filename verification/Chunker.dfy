// chunk_text: split by a strategy, cap in characters, merge short chunks, split to the
// measured window, and locate every chunk in the source.
module Chunker {
  import opened Text
  import opened Splitting
  import opened Packing
  import opened Windows
  import opened Capping
  import opened Fitting

  datatype Strategy = Sentence | SentencePacked | ParagraphPacked | Paragraph | TokenCount | SentenceWindow

  /** The arguments of one call. `fits` measures the window; `abbreviated` says whether a
      piece ends in an abbreviation rather than a sentence. */
  datatype Config = Config(
    strategy: Strategy,
    maxWords: nat,
    overlap: int,
    minChunkLength: int,
    maxChars: int,
    fits: Option<string -> bool>,
    abbreviated: string -> bool)

  datatype Chunk = Chunk(text: string, index: nat, charStart: nat, charEnd: nat)

  datatype ChunkError =
    | EmptyText
    | BadMaxChars
    | NeedsFits
    | DoesNotFit(piece: string)
    | NoChunks

  /** What every caller passes: option layering (jmfts_core/ingest_options.py:349) and the
      chunk request (jmfts-client/jmfts_client/contracts/document.py:468-470) both refuse a
      word count below one. */
  predicate Callable(c: Config) {
    c.maxWords > 0
  }

  /** No word is asked for twice: only the token windows read the overlap. */
  predicate Unrepeated(c: Config) {
    c.strategy.TokenCount? ==> c.overlap == 0
  }

  // ----- the stages ----------------------------------------------------------------------

  function RawChunks(text: string, c: Config): seq<string>
    requires Callable(c) && (c.strategy.SentenceWindow? ==> c.fits.Some?)
  {
    match c.strategy
    case Sentence => Sentences(text, c.abbreviated)
    case SentencePacked => PackedToWords(Sentences(text, c.abbreviated), c.maxWords)
    case ParagraphPacked => PackedParagraphs(Paragraphs(text), c.maxWords, c.abbreviated)
    case Paragraph => Paragraphs(text)
    case TokenCount => WordWindows(text, c.maxWords, c.overlap)
    case SentenceWindow => PackedToFit(Sentences(text, c.abbreviated), c.maxChars, c.fits.value)
  }

  function CapAll(chunks: seq<string>, maxChars: nat): seq<string>
    requires maxChars > 0
  {
    if chunks == [] then [] else Capped(chunks[0], maxChars) + CapAll(chunks[1..], maxChars)
  }

  /** `open` is the last merged chunk so far; a short chunk joins it while the cap allows. */
  function MergeInto(open: string, rest: seq<string>, minLength: int, maxChars: nat): seq<string>
    decreases |rest|
  {
    if rest == [] then [open]
    else if |rest[0]| < minLength && |open| + 1 + |rest[0]| <= maxChars then
      MergeInto(open + " " + rest[0], rest[1..], minLength, maxChars)
    else
      [open] + MergeInto(rest[0], rest[1..], minLength, maxChars)
  }

  function Merged(chunks: seq<string>, minLength: int, maxChars: nat): seq<string> {
    if minLength > 1 && |chunks| > 1 then MergeInto(chunks[0], chunks[1..], minLength, maxChars)
    else chunks
  }

  /** Everything before the window is measured. */
  function MergedChunks(text: string, c: Config): seq<string>
    requires Callable(c) && (c.strategy.SentenceWindow? ==> c.fits.Some?) && c.maxChars > 0
  {
    Merged(CapAll(RawChunks(text, c), c.maxChars), c.minChunkLength, c.maxChars)
  }

  function FittedChunks(text: string, c: Config): Result<seq<string>, string>
    requires Callable(c) && (c.strategy.SentenceWindow? ==> c.fits.Some?) && c.maxChars > 0
  {
    if c.fits.Some? then FitAll(MergedChunks(text, c), c.maxChars, c.fits.value)
    else Ok(MergedChunks(text, c))
  }

  predicate OccursAt(text: string, part: string, at: nat) {
    at + |part| <= |text| && text[at..at + |part|] == part
  }

  /** str.find: the first occurrence at or after `from`. */
  function Find(text: string, part: string, from: nat): (at: Option<nat>)
    ensures at.Some? ==> from <= at.value && OccursAt(text, part, at.value)
    ensures forall p: nat :: from <= p && OccursAt(text, part, p) ==> at.Some? && at.value <= p
    decreases |text| - from
  {
    if from + |part| > |text| then None
    else if OccursAt(text, part, from) then Some(from)
    else Find(text, part, from + 1)
  }

  function PlaceOf(text: string, piece: string, from: nat): nat {
    match Find(text, piece, from)
    case Some(at) => at
    case None => from
  }

  /** Walk forward through the text, finding each chunk after the one before it. A chunk
      that is not found is placed where the walk stands. */
  function Locate(text: string, pieces: seq<string>, index: nat, from: nat): seq<Chunk>
    decreases |pieces|
  {
    if pieces == [] then []
    else
      var piece := pieces[0];
      var start := PlaceOf(text, piece, from);
      [Chunk(piece, index, start, start + |piece|)]
      + Locate(text, pieces[1..], index + 1, start + |piece|)
  }

  function Chunks(text: string, c: Config): Result<seq<Chunk>, ChunkError>
    requires Callable(c)
  {
    if Blank(text) then Err(EmptyText)
    else if c.maxChars < 1 then Err(BadMaxChars)
    else if c.strategy.SentenceWindow? && c.fits.None? then Err(NeedsFits)
    else
      match FittedChunks(text, c)
      case Err(piece) => Err(DoesNotFit(piece))
      case Ok(pieces) => if pieces == [] then Err(NoChunks) else Ok(Locate(text, pieces, 0, 0))
  }

  // ----- the call ------------------------------------------------------------------------

  method MergeShort(chunks: seq<string>, minLength: int, maxChars: nat) returns (merged: seq<string>)
    ensures merged == Merged(chunks, minLength, maxChars)
  {
    if minLength <= 1 || |chunks| <= 1 {
      return chunks;
    }
    merged := [chunks[0]];
    for k := 1 to |chunks|
      invariant merged != []
      invariant merged[..|merged| - 1] + MergeInto(merged[|merged| - 1], chunks[k..], minLength, maxChars)
             == Merged(chunks, minLength, maxChars)
    {
      var chunk, last := chunks[k], merged[|merged| - 1];
      assert chunks[k..][1..] == chunks[k + 1..];
      if |chunk| < minLength && |last| + 1 + |chunk| <= maxChars {
        merged := merged[|merged| - 1 := last + " " + chunk];
      } else {
        assert merged == merged[..|merged| - 1] + [last];
        merged := merged + [chunk];
      }
    }
    assert merged == merged[..|merged| - 1] + [merged[|merged| - 1]];
  }

  /** One piece of the walk. */
  lemma LocateStep(text: string, pieces: seq<string>, i: nat, from: nat)
    requires i < |pieces|
    ensures var start := PlaceOf(text, pieces[i], from);
            Locate(text, pieces[i..], i, from) ==
            [Chunk(pieces[i], i, start, start + |pieces[i]|)]
            + Locate(text, pieces[i + 1..], i + 1, start + |pieces[i]|)
  {
    assert pieces[i..][1..] == pieces[i + 1..];
  }

  /** Placing one more piece, with what was placed before it. */
  lemma {:induction false} LocateNext(text: string, pieces: seq<string>, i: nat, from: nat, placed: seq<Chunk>)
    requires i < |pieces|
    ensures var start := PlaceOf(text, pieces[i], from);
            var chunk := Chunk(pieces[i], i, start, start + |pieces[i]|);
            placed + Locate(text, pieces[i..], i, from) ==
            (placed + [chunk]) + Locate(text, pieces[i + 1..], i + 1, chunk.charEnd)
  {
    LocateStep(text, pieces, i, from);
    var start := PlaceOf(text, pieces[i], from);
    var end := start + |pieces[i]|;
    Associate(placed, [Chunk(pieces[i], i, start, end)], Locate(text, pieces[i + 1..], i + 1, end));
  }

  method LocateAll(text: string, pieces: seq<string>) returns (chunks: seq<Chunk>)
    ensures chunks == Locate(text, pieces, 0, 0)
  {
    chunks := [];
    var searchStart: nat := 0;
    for i := 0 to |pieces|
      invariant chunks + Locate(text, pieces[i..], i, searchStart) == Locate(text, pieces, 0, 0)
    {
      LocateNext(text, pieces, i, searchStart, chunks);
      var position := Find(text, pieces[i], searchStart);
      var charStart := if position.Some? then position.value else searchStart;
      assert charStart == PlaceOf(text, pieces[i], searchStart);
      var charEnd := charStart + |pieces[i]|;
      searchStart := charEnd;
      chunks := chunks + [Chunk(pieces[i], i, charStart, charEnd)];
    }
  }

  method SplitRaw(text: string, c: Config) returns (raw: seq<string>)
    requires Callable(c) && (c.strategy.SentenceWindow? ==> c.fits.Some?)
    ensures raw == RawChunks(text, c)
  {
    match c.strategy {
      case Sentence => raw := SplitSentences(text, c.abbreviated);
      case SentencePacked => raw := SplitSentencesPacked(text, c.maxWords, c.abbreviated);
      case ParagraphPacked => raw := SplitParagraphsPacked(text, c.maxWords, c.abbreviated);
      case Paragraph => raw := Paragraphs(text);
      case TokenCount => raw := SplitTokenCount(text, c.maxWords, c.overlap);
      case SentenceWindow => raw := SplitSentencesToFit(text, c.maxChars, c.fits.value, c.abbreviated);
    }
  }

  method CapEach(chunks: seq<string>, maxChars: nat) returns (capped: seq<string>)
    requires maxChars > 0
    ensures capped == CapAll(chunks, maxChars)
  {
    capped := [];
    for k := 0 to |chunks|
      invariant capped + CapAll(chunks[k..], maxChars) == CapAll(chunks, maxChars)
    {
      assert chunks[k..][1..] == chunks[k + 1..];
      var pieces := EnforceMaxChars(chunks[k], maxChars);
      Associate(capped, pieces, CapAll(chunks[k + 1..], maxChars));
      capped := capped + pieces;
    }
  }

  method ChunkText(text: string, c: Config) returns (r: Result<seq<Chunk>, ChunkError>)
    requires Callable(c)
    ensures r == Chunks(text, c)
  {
    if Blank(text) { return Err(EmptyText); }
    if c.maxChars < 1 { return Err(BadMaxChars); }
    if c.strategy.SentenceWindow? && c.fits.None? { return Err(NeedsFits); }
    var raw := SplitRaw(text, c);
    var capped := CapEach(raw, c.maxChars);
    var chunks := MergeShort(capped, c.minChunkLength, c.maxChars);
    if c.fits.Some? {
      var fitted := FitEach(chunks, c.maxChars, c.fits.value);
      if fitted.Err? { return Err(DoesNotFit(fitted.error)); }
      chunks := fitted.value;
    }
    if chunks == [] { return Err(NoChunks); }
    var located := LocateAll(text, chunks);
    r := Ok(located);
  }

  // ----- what the stages keep ----------------------------------------------------------------

  /** Splitting by any strategy gives trimmed pieces and at least one of them; without
      overlap they carry the text. */
  lemma RawKeeps(text: string, c: Config)
    requires Callable(c) && (c.strategy.SentenceWindow? ==> c.fits.Some?) && !Blank(text)
    ensures AllTrimmed(RawChunks(text, c)) && RawChunks(text, c) != []
    ensures Unrepeated(c) ==> Carries(RawChunks(text, c), text)
  {
    SentencesKeep(text, c.abbreviated);
    ParagraphsKeep(text);
    InkEmptyIffBlank(text);
    match c.strategy {
      case Sentence =>
      case SentencePacked => GreedyKeeps(Sentences(text, c.abbreviated), WithinWords(c.maxWords));
      case ParagraphPacked => PackedParagraphsKeep(Paragraphs(text), c.maxWords, c.abbreviated);
      case Paragraph =>
      case TokenCount =>
        WordsKeepInk(text);
        WindowsTrimmed(Words(text), 0, c.maxWords, Step(c.maxWords, c.overlap));
        if c.overlap == 0 { WindowsKeep(text, c.maxWords); }
      case SentenceWindow =>
        GreedyKeeps(Sentences(text, c.abbreviated), WithinWindow(c.maxChars, c.fits.value));
    }
  }

  lemma {:induction false} CapAllKeeps(chunks: seq<string>, maxChars: nat)
    requires maxChars > 0 && AllTrimmed(chunks)
    ensures var r := CapAll(chunks, maxChars);
            && Within(r, maxChars) && AllTrimmed(r)
            && Ink(Concat(r)) == Ink(Concat(chunks)) && Spans(r, maxChars) <= Weight(chunks)
  {
    if chunks != [] {
      var head, tail := Capped(chunks[0], maxChars), CapAll(chunks[1..], maxChars);
      CappedKeeps(chunks[0], maxChars);
      CapAllKeeps(chunks[1..], maxChars);
      ConcatAppend(head, tail);
      InkAppend(Concat(head), Concat(tail));
      InkAppend(chunks[0], Concat(chunks[1..]));
      SpansAppend(head, tail, maxChars);
    }
  }

  /** Any two neighbours together hold at least `total` characters. */
  predicate Paired(chunks: seq<string>, total: int) {
    forall i :: 0 <= i < |chunks| - 1 ==> |chunks[i]| + |chunks[i + 1]| >= total
  }

  function Smaller(a: int, b: int): int {
    if a < b then a else b
  }

  lemma {:induction false} MergeIntoKeeps(open: string, rest: seq<string>, minLength: int, maxChars: nat)
    requires AllTrimmed([open] + rest) && Within([open] + rest, maxChars)
    ensures var r := MergeInto(open, rest, minLength, maxChars);
            && r != [] && |r[0]| >= |open|
            && Within(r, maxChars) && AllTrimmed(r) && Paired(r, Smaller(minLength, maxChars))
            && Spans(r, maxChars) <= Span(open, maxChars) + Spans(rest, maxChars)
    decreases |rest|
  {
    var all := [open] + rest;
    assert all[0] == open;
    if rest == [] {
      assert Spans([open], maxChars) == Span(open, maxChars) + Spans([], maxChars);
    } else {
      var chunk := rest[0];
      assert all[1] == chunk;
      assert forall i :: 0 <= i < |rest| ==> rest[i] == all[i + 1];
      if |chunk| < minLength && |open| + 1 + |chunk| <= maxChars {
        var joined := open + " " + chunk;
        assert joined[|open|] == ' ';
        MergeIntoKeeps(joined, rest[1..], minLength, maxChars);
      } else {
        assert [chunk] + rest[1..] == rest;
        MergeIntoKeeps(chunk, rest[1..], minLength, maxChars);
        var tail := MergeInto(chunk, rest[1..], minLength, maxChars);
        assert ([open] + tail)[1..] == tail;
      }
    }
  }

  lemma {:induction false} MergeIntoKeepsInk(open: string, rest: seq<string>, minLength: int, maxChars: nat)
    ensures Ink(Concat(MergeInto(open, rest, minLength, maxChars))) == Ink(open) + Ink(Concat(rest))
    decreases |rest|
  {
    if rest == [] {
      ConcatCons(open, []);
    } else {
      InkAppend(rest[0], Concat(rest[1..]));
      if |rest[0]| < minLength && |open| + 1 + |rest[0]| <= maxChars {
        MergeIntoKeepsInk(open + " " + rest[0], rest[1..], minLength, maxChars);
        InkAcrossSpace(open, rest[0]);
        assert Ink(open) + (Ink(rest[0]) + Ink(Concat(rest[1..]))) == Ink(open) + Ink(rest[0]) + Ink(Concat(rest[1..]));
      } else {
        MergeIntoKeepsInk(rest[0], rest[1..], minLength, maxChars);
        var tail := MergeInto(rest[0], rest[1..], minLength, maxChars);
        ConcatCons(open, tail);
        InkAppend(open, Concat(tail));
      }
    }
  }

  /** What the pipeline has in hand before the window is measured. */
  ghost predicate Prepared(chunks: seq<string>, text: string, c: Config)
    requires c.maxChars > 0
  {
    && chunks != [] && AllTrimmed(chunks) && Within(chunks, c.maxChars)
    && (c.minChunkLength > 1 ==> Paired(chunks, Smaller(c.minChunkLength, c.maxChars)))
    && (Unrepeated(c) ==>
          Ink(Concat(chunks)) == Ink(text) && Spans(chunks, c.maxChars) <= |text| + 1)
  }

  lemma MergedChunksPrepared(text: string, c: Config)
    requires Callable(c) && (c.strategy.SentenceWindow? ==> c.fits.Some?) && c.maxChars > 0 && !Blank(text)
    ensures Prepared(MergedChunks(text, c), text, c)
  {
    var raw := RawChunks(text, c);
    RawKeeps(text, c);
    CapAllKeeps(raw, c.maxChars);
    var capped := CapAll(raw, c.maxChars);
    assert capped != [] by {
      InkOfTrimmed(raw[0]);
      InkAppend(raw[0], Concat(raw[1..]));
    }
    if c.minChunkLength > 1 && |capped| > 1 {
      assert [capped[0]] + capped[1..] == capped;
      MergeIntoKeeps(capped[0], capped[1..], c.minChunkLength, c.maxChars);
      MergeIntoKeepsInk(capped[0], capped[1..], c.minChunkLength, c.maxChars);
      InkAppend(capped[0], Concat(capped[1..]));
    }
  }

  lemma InkOfTrimmed(s: string)
    requires Trimmed(s)
    ensures Ink(s) != ""
  {
    InkEmptyIffBlank(s);
  }

  // ----- the guarantees of a call ------------------------------------------------------------

  function Texts(chunks: seq<Chunk>): (r: seq<string>)
    ensures |r| == |chunks| && forall i :: 0 <= i < |r| ==> r[i] == chunks[i].text
  {
    if chunks == [] then [] else [chunks[0].text] + Texts(chunks[1..])
  }

  /** Offsets ascend without overlapping and each range is as long as its chunk. */
  predicate Ordered(chunks: seq<Chunk>, index: nat, from: nat) {
    chunks != [] ==>
      && chunks[0].index == index && from <= chunks[0].charStart
      && chunks[0].charEnd == chunks[0].charStart + |chunks[0].text|
      && Ordered(chunks[1..], index + 1, chunks[0].charEnd)
  }

  lemma {:induction false} LocateOrdered(text: string, pieces: seq<string>, index: nat, from: nat)
    ensures var r := Locate(text, pieces, index, from); Ordered(r, index, from) && Texts(r) == pieces
    decreases |pieces|
  {
    if pieces != [] {
      var start := match Find(text, pieces[0], from) case Some(at) => at case None => from;
      LocateOrdered(text, pieces[1..], index + 1, start + |pieces[0]|);
      var r := Locate(text, pieces, index, from);
      assert r[1..] == Locate(text, pieces[1..], index + 1, start + |pieces[0]|);
    }
  }

  /** A call that returns gives trimmed, non-empty chunks inside the cap that the window
      accepts, at ordered offsets, and unless words are repeated they hold every non-whitespace
      character of the text once and in order. A call fails only for the reason it names:
      in particular a rejected piece is at most 64 characters, and no text that has ink
      ever produces no chunks. */
  lemma ChunksSound(text: string, c: Config)
    requires Callable(c)
    ensures match Chunks(text, c)
            case Ok(chunks) =>
              && chunks != [] && Ordered(chunks, 0, 0)
              && AllTrimmed(Texts(chunks)) && Within(Texts(chunks), if c.maxChars < 0 then 0 else c.maxChars)
              && (c.fits.Some? ==> AllFit(Texts(chunks), c.fits.value))
              && (Unrepeated(c) ==> Ink(Concat(Texts(chunks))) == Ink(text))
            case Err(EmptyText) => Blank(text)
            case Err(BadMaxChars) => c.maxChars < 1
            case Err(NeedsFits) => c.strategy.SentenceWindow? && c.fits.None?
            case Err(DoesNotFit(piece)) => c.fits.Some? && |piece| <= MIN_FIT_CHARS && !c.fits.value(piece)
            case Err(NoChunks) => false
  {
    if !Blank(text) && c.maxChars > 0 && !(c.strategy.SentenceWindow? && c.fits.None?) {
      var merged := MergedChunks(text, c);
      MergedChunksPrepared(text, c);
      if c.fits.Some? {
        FitAllSound(merged, c.maxChars, c.fits.value);
      }
      var r := FittedChunks(text, c);
      if r.Ok? {
        LocateOrdered(text, r.value, 0, 0);
        InkOfTrimmed(merged[0]);
        InkAppend(merged[0], Concat(merged[1..]));
      }
    }
  }
}
