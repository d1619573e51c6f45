// The stated ceiling on how many chunks any number of chunk_text calls can return.
module Ceiling {
  import opened Text
  import opened Splitting
  import opened Capping
  import opened Fitting
  import opened Chunker

  function Effective(minChunkLength: int, maxChars: int): (e: int)
    ensures e >= 1
  {
    var m := Smaller(minChunkLength, maxChars);
    if m > 1 then m else 1
  }

  function ChunkCountCeiling(characters: int, minChunkLength: int, maxChars: int, calls: int): int {
    if characters <= 0 || calls <= 0 then 0
    else
      var merged := 2 * characters / Effective(minChunkLength, maxChars);
      var fitSplit := 3 * characters / MIN_FIT_CHARS;
      Smaller(characters, merged + fitSplit + 2 * calls)
  }

  function ChunkCount(text: string, c: Config): nat
    requires Callable(c)
  {
    var r := Chunks(text, c);
    if r.Ok? then |r.value| else 0
  }

  // ----- each chunk holds a character ------------------------------------------------------

  lemma {:induction false} AtLeastOneEach(pieces: seq<string>)
    requires AllTrimmed(pieces)
    ensures |pieces| <= |Ink(Concat(pieces))|
  {
    if pieces != [] {
      AtLeastOneEach(pieces[1..]);
      InkOfTrimmed(pieces[0]);
      InkAppend(pieces[0], Concat(pieces[1..]));
    }
  }

  /** A call that repeats no word returns no more chunks than its text has characters that are
      not whitespace. */
  lemma CountWithinInk(text: string, c: Config)
    requires Callable(c) && Unrepeated(c)
    ensures ChunkCount(text, c) <= |Ink(text)| <= |text|
  {
    ChunksSound(text, c);
    if Chunks(text, c).Ok? {
      AtLeastOneEach(Texts(Chunks(text, c).value));
    }
  }

  // ----- charging neighbours -------------------------------------------------------------------

  /** Parts per character, as the fraction rate.per / rate.of: what a pair of neighbouring
      chunks may be charged for every character it accounts for. */
  datatype Rate = Rate(per: nat, of: nat)

  ghost predicate PairsPay(chunks: seq<string>, counts: seq<nat>, b: nat, rate: Rate)
    requires |counts| == |chunks|
  {
    && (forall i :: 0 <= i < |chunks| - 1 ==>
          rate.of * (counts[i] + counts[i + 1]) <= rate.per * (Span(chunks[i], b) + Span(chunks[i + 1], b)))
    && (forall i :: 0 <= i < |chunks| ==>
          rate.of * counts[i] + rate.per <= rate.per * Span(chunks[i], b) + rate.of)
  }

  lemma PairsPayRest(chunks: seq<string>, counts: seq<nat>, b: nat, rate: Rate)
    requires |counts| == |chunks| >= 2 && PairsPay(chunks, counts, b, rate)
    ensures PairsPay(chunks[2..], counts[2..], b, rate)
  {
    forall i | 0 <= i < |chunks[2..]| - 1
      ensures rate.of * (counts[2..][i] + counts[2..][i + 1])
           <= rate.per * (Span(chunks[2..][i], b) + Span(chunks[2..][i + 1], b))
    {
      assert chunks[2..][i] == chunks[i + 2] && chunks[2..][i + 1] == chunks[i + 3];
      assert counts[2..][i] == counts[i + 2] && counts[2..][i + 1] == counts[i + 3];
    }
  }

  lemma Distribute(k: int, a: int, b: int)
    ensures k * (a + b) == k * a + k * b
  {
  }

  lemma Monotone(k: int, a: int, b: int)
    requires k >= 0 && a <= b
    ensures k * a <= k * b
  {
  }

  /** The first two chunks and the rest. */
  lemma FirstPair(chunks: seq<string>, counts: seq<nat>, b: nat)
    requires |counts| == |chunks| >= 2
    ensures Sum(counts) == counts[0] + counts[1] + Sum(counts[2..])
    ensures Spans(chunks, b) == Span(chunks[0], b) + Span(chunks[1], b) + Spans(chunks[2..], b)
  {
    assert counts[1..][1..] == counts[2..] && chunks[1..][1..] == chunks[2..];
  }

  lemma OneAlone(chunks: seq<string>, counts: seq<nat>, b: nat)
    requires |counts| == |chunks| == 1
    ensures Sum(counts) == counts[0] && Spans(chunks, b) == Span(chunks[0], b)
  {
    assert counts[1..] == [] && chunks[1..] == [];
  }

  /** The rest of the counts paid for by the rest of the spans, but for `spare`. */
  lemma AddPair(rate: Rate, n: int, s: int, counts: int, spans: int, spare: int, allCounts: int, allSpans: int)
    requires rate.of * n <= rate.per * s && rate.of * counts <= rate.per * spans + spare
    requires allCounts == n + counts && allSpans == s + spans
    ensures rate.of * allCounts <= rate.per * allSpans + spare
  {
    Distribute(rate.of, n, counts);
    Distribute(rate.per, s, spans);
  }

  /** What the one odd chunk out may cost beyond what it spans. */
  function Spare(chunks: seq<string>, rate: Rate): int {
    if |chunks| % 2 == 0 then 0 else rate.of - rate.per
  }

  lemma FirstPays(chunks: seq<string>, counts: seq<nat>, b: nat, rate: Rate)
    requires |counts| == |chunks| >= 2 && PairsPay(chunks, counts, b, rate)
    ensures rate.of * (counts[0] + counts[1]) <= rate.per * (Span(chunks[0], b) + Span(chunks[1], b))
  {
    assert counts[0 + 1] == counts[1];
  }

  lemma {:induction false} PairOnTop(chunks: seq<string>, counts: seq<nat>, b: nat, rate: Rate)
    requires |counts| == |chunks| >= 2
    requires rate.of * (counts[0] + counts[1]) <= rate.per * (Span(chunks[0], b) + Span(chunks[1], b))
    requires rate.of * Sum(counts[2..]) <= rate.per * Spans(chunks[2..], b) + Spare(chunks[2..], rate)
    ensures rate.of * Sum(counts) <= rate.per * Spans(chunks, b) + Spare(chunks, rate)
  {
    FirstPair(chunks, counts, b);
    AddPair(rate, counts[0] + counts[1], Span(chunks[0], b) + Span(chunks[1], b),
            Sum(counts[2..]), Spans(chunks[2..], b), Spare(chunks, rate), Sum(counts), Spans(chunks, b));
  }

  /** Charge neighbours in pairs from the left; an odd chunk out is paid for by the one
      chunk the ceiling allows on top. */
  lemma {:induction false} PairUp(chunks: seq<string>, counts: seq<nat>, b: nat, rate: Rate)
    requires |counts| == |chunks| && PairsPay(chunks, counts, b, rate)
    ensures rate.of * Sum(counts) <= rate.per * Spans(chunks, b) + Spare(chunks, rate)
    decreases |chunks|
  {
    if |chunks| == 1 {
      OneAlone(chunks, counts, b);
    } else if |chunks| >= 2 {
      PairsPayRest(chunks, counts, b, rate);
      PairUp(chunks[2..], counts[2..], b, rate);
      FirstPays(chunks, counts, b, rate);
      PairOnTop(chunks, counts, b, rate);
    }
  }

  /** Two floors lose less than two. */
  lemma FloorSum(characters: nat, effective: nat, per: nat, of: nat, count: int)
    requires effective > 0 && of > 0
    requires effective * of * (count - 1) <= (2 * of + per * effective) * characters
    ensures count <= 2 * characters / effective + per * characters / of + 2
  {
    var a, q := 2 * characters / effective, per * characters / of;
    var x, y := 2 * characters, per * characters;
    FloorBound(x, effective);
    FloorBound(y, of);
    Monotone(of, x, effective * a + effective - 1);
    Monotone(effective, y, of * q + of - 1);
    FloorExpand(characters, effective, per, of, a, q);
    Cancel(effective * of, count - 1, a + q + 2);
  }

  lemma FloorBound(x: nat, k: nat)
    requires k > 0
    ensures x <= k * (x / k) + k - 1
  {
  }

  lemma FloorExpand(characters: int, effective: int, per: int, of: int, a: int, q: int)
    ensures (2 * of + per * effective) * characters == of * (2 * characters) + effective * (per * characters)
    ensures of * (effective * a + effective - 1) + effective * (of * q + of - 1)
         == effective * of * (a + q + 2) - of - effective
  {
  }

  lemma Cancel(k: int, x: int, y: int)
    requires k > 0 && k * x < k * y
    ensures x < y
  {
  }

  // ----- what one call can return ----------------------------------------------------------------

  lemma Scale(rate: Rate, parts: int, length: int)
    requires 72 * parts <= 5 * length && length >= 0 && 5 * rate.of <= 72 * rate.per
    ensures rate.of * parts <= rate.per * length
  {
    Monotone(rate.of, 72 * parts, 5 * length);
    Monotone(length, 5 * rate.of, 72 * rate.per);
    assert rate.of * (72 * parts) == 72 * (rate.of * parts);
    assert rate.of * (5 * length) == length * (5 * rate.of);
    assert length * (72 * rate.per) == 72 * (rate.per * length);
  }

  /** A rate that pays two chunks per `e` characters and five parts per seventy-two. */
  predicate Pays(rate: Rate, e: int) {
    && e > 0 && 2 * rate.of <= rate.per * e && 5 * rate.of <= 72 * rate.per
  }

  lemma PairPays(x: string, nx: nat, y: string, ny: nat, b: nat, e: int, rate: Rate)
    requires Rated(x, nx) && Rated(y, ny) && x != "" && y != "" && |x| <= b && |y| <= b
    requires |x| + |y| >= e && Pays(rate, e)
    ensures rate.of * (nx + ny) <= rate.per * (Span(x, b) + Span(y, b))
  {
    var spans := Span(x, b) + Span(y, b);
    if |x| <= MIN_FIT_CHARS && |y| <= MIN_FIT_CHARS {
      Monotone(rate.of, nx + ny, 2);
      Monotone(rate.per, e, spans);
    } else {
      assert 72 * (nx + ny) <= 5 * spans;
      Scale(rate, nx + ny, spans);
    }
  }

  lemma OnePays(x: string, n: nat, b: nat, e: int, rate: Rate)
    requires Rated(x, n) && x != "" && |x| <= b && Pays(rate, e)
    ensures rate.of * n + rate.per <= rate.per * Span(x, b) + rate.of
  {
    var spare := Span(x, b) - 1;
    assert 72 * (n - 1) <= 5 * spare;
    Scale(rate, n - 1, spare);
    Distribute(rate.of, n - 1, 1);
    Distribute(rate.per, spare, 1);
  }

  /** Merged chunks whose counts keep to the fitting rate are paid for in pairs. */
  lemma RatedPay(chunks: seq<string>, counts: seq<nat>, b: nat, e: int, rate: Rate)
    requires AllTrimmed(chunks) && Within(chunks, b) && Paired(chunks, e)
    requires AllRated(chunks, counts) && Pays(rate, e)
    ensures PairsPay(chunks, counts, b, rate)
  {
    forall i | 0 <= i < |chunks| - 1
      ensures rate.of * (counts[i] + counts[i + 1])
           <= rate.per * (Span(chunks[i], b) + Span(chunks[i + 1], b))
    {
      PairPays(chunks[i], counts[i], chunks[i + 1], counts[i + 1], b, e, rate);
    }
    forall i | 0 <= i < |chunks|
      ensures rate.of * counts[i] + rate.per <= rate.per * Span(chunks[i], b) + rate.of
    {
      OnePays(chunks[i], counts[i], b, e, rate);
    }
  }

  /** Chunks that are not split further. */
  lemma {:induction false} OnesPay(chunks: seq<string>, counts: seq<nat>, b: nat, e: int)
    requires AllTrimmed(chunks) && Paired(chunks, e) && e > 0
    requires |counts| == |chunks| && forall i :: 0 <= i < |counts| ==> counts[i] == 1
    ensures PairsPay(chunks, counts, b, Rate(2, e))
  {
  }

  lemma {:induction false} SumOfOnes(n: nat) returns (ones: seq<nat>)
    ensures |ones| == n && (forall i :: 0 <= i < n ==> ones[i] == 1) && Sum(ones) == n
  {
    ones := [];
    if n > 0 {
      var rest := SumOfOnes(n - 1);
      ones := [1] + rest;
      assert ones[1..] == rest;
    }
  }

  lemma PairsBound(chunks: seq<string>, counts: seq<nat>, b: nat, characters: nat, rate: Rate)
    requires |counts| == |chunks| && PairsPay(chunks, counts, b, rate)
    requires Spans(chunks, b) <= characters + 1 && rate.per <= rate.of
    ensures rate.of * (Sum(counts) - 1) <= rate.per * characters
  {
    PairUp(chunks, counts, b, rate);
    Distribute(rate.of, Sum(counts) - 1, 1);
    Monotone(rate.per, Spans(chunks, b), characters + 1);
    Distribute(rate.per, characters, 1);
  }

  /** From pairs to the two divisions of the ceiling. */
  lemma CountFromPairs(chunks: seq<string>, counts: seq<nat>, b: nat, characters: nat, e: nat, per: nat, of: nat)
    requires chunks != [] && |counts| == |chunks| && Spans(chunks, b) <= characters + 1
    requires e > 0 && of > 0 && 2 * of + per * e <= of * e
    requires PairsPay(chunks, counts, b, Rate(2 * of + per * e, of * e))
    ensures Sum(counts) <= 2 * characters / e + per * characters / of + 2
  {
    PairsBound(chunks, counts, b, characters, Rate(2 * of + per * e, of * e));
    assert e * of == of * e;
    FloorSum(characters, e, per, of, Sum(counts));
  }

  /** The two terms of the ceiling, with `per / of` charged per character for fitting. */
  function CallCeiling(characters: nat, e: nat, per: nat, of: nat): nat
    requires e > 0 && of > 0
  {
    2 * characters / e + per * characters / of + 2
  }

  /** A call that returns, returns one chunk per fitted piece of what was merged. */
  lemma CountIs(text: string, c: Config)
    requires Callable(c) && Chunks(text, c).Ok?
    ensures !Blank(text) && c.maxChars > 0 && (c.strategy.SentenceWindow? ==> c.fits.Some?)
    ensures FittedChunks(text, c).Ok? && ChunkCount(text, c) == |FittedChunks(text, c).value|
    ensures c.fits.None? ==> ChunkCount(text, c) == |MergedChunks(text, c)|
    ensures Prepared(MergedChunks(text, c), text, c)
  {
    MergedChunksPrepared(text, c);
    LocateOrdered(text, FittedChunks(text, c).value, 0, 0);
  }

  lemma TwiceOverSmall(characters: nat, e: nat)
    requires e == 1 || e == 2
    ensures characters <= 2 * characters / e
  {
    if e == 1 {
      assert 2 * characters / 1 == 2 * characters;
    } else {
      assert 2 * characters / 2 == characters;
    }
  }

  lemma {:induction false} UnfittedMerged(chunks: seq<string>, b: nat, e: nat, characters: nat)
    requires chunks != [] && AllTrimmed(chunks) && Paired(chunks, e) && Spans(chunks, b) <= characters + 1
    requires e >= 3
    ensures |chunks| <= CallCeiling(characters, e, 0, 1)
  {
    var ones := SumOfOnes(|chunks|);
    OnesPay(chunks, ones, b, e);
    assert Rate(2 * 1 + 0 * e, 1 * e) == Rate(2, e);
    CountFromPairs(chunks, ones, b, characters, e, 0, 1);
  }

  /** Without a measured window nothing is charged for fitting. */
  lemma UnfittedCall(text: string, c: Config)
    requires Callable(c) && Unrepeated(c) && c.fits.None?
    ensures ChunkCount(text, c) <= CallCeiling(|text|, Effective(c.minChunkLength, c.maxChars), 0, 1)
  {
    var e := Effective(c.minChunkLength, c.maxChars);
    CountWithinInk(text, c);
    if e < 3 {
      TwiceOverSmall(|text|, e);
    } else if Chunks(text, c).Ok? {
      CountIs(text, c);
      UnfittedMerged(MergedChunks(text, c), c.maxChars, e, |text|);
    }
  }

  /** The slopes under which fitting is paid for: the stated 3/64 while the effective
      minimum is at most 88, and 5/72 whatever it is. */
  predicate SlopePays(e: nat, per: nat, of: nat) {
    (per == 3 && of == 64 && e <= 88) || (per == 5 && of == 72)
  }

  lemma CountsRated(chunks: seq<string>, b: nat, fits: string -> bool)
    requires b > 0 && AllTrimmed(chunks) && Within(chunks, b) && FitAll(chunks, b, fits).Ok?
    ensures var counts := Counts(chunks, b, fits);
            |counts| == |chunks| && forall i :: 0 <= i < |chunks| ==> Rated(chunks[i], counts[i])
  {
    CountsAdd(chunks, b, fits);
    var counts := Counts(chunks, b, fits);
    forall i | 0 <= i < |chunks| ensures Rated(chunks[i], counts[i]) {
      FitSplitRate(chunks[i], b, fits);
    }
  }

  lemma FittedMerged(chunks: seq<string>, b: nat, fits: string -> bool, e: nat, characters: nat, per: nat, of: nat)
    requires b > 0 && chunks != [] && AllTrimmed(chunks) && Within(chunks, b) && Paired(chunks, e)
    requires Spans(chunks, b) <= characters + 1 && FitAll(chunks, b, fits).Ok?
    requires e >= 3 && SlopePays(e, per, of)
    ensures |FitAll(chunks, b, fits).value| <= CallCeiling(characters, e, per, of)
  {
    CountsAdd(chunks, b, fits);
    var counts := Counts(chunks, b, fits);
    CountsRated(chunks, b, fits);
    RatedPay(chunks, counts, b, e, Rate(2 * of + per * e, of * e));
    CountFromPairs(chunks, counts, b, characters, e, per, of);
  }

  lemma FittedCall(text: string, c: Config, per: nat, of: nat)
    requires Callable(c) && Unrepeated(c) && c.fits.Some?
    requires SlopePays(Effective(c.minChunkLength, c.maxChars), per, of)
    ensures ChunkCount(text, c) <= CallCeiling(|text|, Effective(c.minChunkLength, c.maxChars), per, of)
  {
    var e := Effective(c.minChunkLength, c.maxChars);
    CountWithinInk(text, c);
    if e < 3 {
      TwiceOverSmall(|text|, e);
    } else if Chunks(text, c).Ok? {
      CountIs(text, c);
      FittedMerged(MergedChunks(text, c), c.maxChars, c.fits.value, e, |text|, per, of);
    }
  }

  // ----- any number of calls ----------------------------------------------------------------------

  datatype Call = Call(text: string, config: Config)

  function Characters(calls: seq<Call>): nat {
    if calls == [] then 0 else |calls[0].text| + Characters(calls[1..])
  }

  function Returned(calls: seq<Call>): nat
    requires forall i :: 0 <= i < |calls| ==> Callable(calls[i].config)
  {
    if calls == [] then 0 else ChunkCount(calls[0].text, calls[0].config) + Returned(calls[1..])
  }

  /** Calls made with one pair of limits and no overlap, by any strategy. */
  predicate SameLimits(calls: seq<Call>, minChunkLength: int, maxChars: int) {
    forall i :: 0 <= i < |calls| ==>
      var c := calls[i].config;
      && Callable(c) && Unrepeated(c)
      && c.minChunkLength == minChunkLength && c.maxChars == maxChars
  }

  lemma {:induction false} FloorsAdd(a: nat, b: nat, k: nat)
    requires k > 0
    ensures a / k + b / k <= (a + b) / k
  {
    FloorBound(a + b, k);
    Distribute(k, a / k, b / k);
    Monotone(k, 0, a / k);
    assert k * (a / k + b / k) <= a + b < k * ((a + b) / k + 1) by {
      Distribute(k, (a + b) / k, 1);
    }
    Cancel(k, a / k + b / k, (a + b) / k + 1);
  }

  lemma {:induction false} CallsAdd(calls: seq<Call>, e: nat, per: nat, of: nat)
    requires e > 0 && of > 0
    requires forall i :: 0 <= i < |calls| ==> Callable(calls[i].config)
    requires forall i :: 0 <= i < |calls| ==>
      ChunkCount(calls[i].text, calls[i].config) <= CallCeiling(|calls[i].text|, e, per, of)
    requires forall i :: 0 <= i < |calls| ==>
      ChunkCount(calls[i].text, calls[i].config) <= |calls[i].text|
    ensures Returned(calls) <= Characters(calls)
    ensures Returned(calls) <= 2 * Characters(calls) / e + per * Characters(calls) / of + 2 * |calls|
  {
    if calls != [] {
      var n, rest := |calls[0].text|, Characters(calls[1..]);
      CallsAdd(calls[1..], e, per, of);
      FloorsAdd(2 * n, 2 * rest, e);
      Distribute(per, n, rest);
      FloorsAdd(per * n, per * rest, of);
    }
  }

  /** The ceiling is an upper bound over any number of calls: at every pair of limits when
      no window is measured, and with any measured windows while the smaller limit is at
      most 88. */
  lemma CeilingHolds(calls: seq<Call>, minChunkLength: int, maxChars: int)
    requires SameLimits(calls, minChunkLength, maxChars)
    requires Effective(minChunkLength, maxChars) <= 88
          || forall i :: 0 <= i < |calls| ==> calls[i].config.fits.None?
    ensures Returned(calls) <= ChunkCountCeiling(Characters(calls), minChunkLength, maxChars, |calls|)
  {
    var e := Effective(minChunkLength, maxChars);
    forall i | 0 <= i < |calls|
      ensures ChunkCount(calls[i].text, calls[i].config) <= CallCeiling(|calls[i].text|, e, 3, 64)
      ensures ChunkCount(calls[i].text, calls[i].config) <= |calls[i].text|
    {
      var call := calls[i];
      CountWithinInk(call.text, call.config);
      if call.config.fits.None? {
        UnfittedCall(call.text, call.config);
      } else {
        FittedCall(call.text, call.config, 3, 64);
      }
    }
    CallsAdd(calls, e, 3, 64);
  }

  /** The same ceiling with five parts per seventy-two characters charged for fitting. */
  function WideCeiling(characters: int, minChunkLength: int, maxChars: int, calls: int): int {
    if characters <= 0 || calls <= 0 then 0
    else
      Smaller(characters, 2 * characters / Effective(minChunkLength, maxChars) + 5 * characters / 72 + 2 * calls)
  }

  /** With that slope the bound holds at every pair of limits and for any windows. */
  lemma WideCeilingHolds(calls: seq<Call>, minChunkLength: int, maxChars: int)
    requires SameLimits(calls, minChunkLength, maxChars)
    ensures Returned(calls) <= WideCeiling(Characters(calls), minChunkLength, maxChars, |calls|)
  {
    var e := Effective(minChunkLength, maxChars);
    forall i | 0 <= i < |calls|
      ensures ChunkCount(calls[i].text, calls[i].config) <= CallCeiling(|calls[i].text|, e, 5, 72)
      ensures ChunkCount(calls[i].text, calls[i].config) <= |calls[i].text|
    {
      var call := calls[i];
      CountWithinInk(call.text, call.config);
      if call.config.fits.None? {
        UnfittedCall(call.text, call.config);
      } else {
        FittedCall(call.text, call.config, 5, 72);
      }
    }
    CallsAdd(calls, e, 5, 72);
  }
}
