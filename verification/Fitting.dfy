// Splitting a piece until every part of it fits a measured window, and how many parts
// that can take.
module Fitting {
  import opened Text
  import opened Splitting
  import opened Capping

  /** Below this character budget, halving is given up. */
  const MIN_FIT_CHARS: nat := 64

  /** Half of whichever is smaller of the budget and the text, and never below the floor. */
  function Budget(length: nat, maxChars: nat): (b: nat)
    requires maxChars > MIN_FIT_CHARS
    ensures MIN_FIT_CHARS <= b < maxChars
  {
    var half := (if maxChars < length then maxChars else length) / 2;
    if half > MIN_FIT_CHARS then half else MIN_FIT_CHARS
  }

  /** The parts of a text that fit, or the part that does not and is past halving. */
  function FitSplit(text: string, maxChars: nat, fits: string -> bool): Result<seq<string>, string>
    requires maxChars > 0
    decreases maxChars, 0
  {
    if fits(text) then Ok([text])
    else if maxChars <= MIN_FIT_CHARS then Err(text)
    else
      var budget := Budget(|text|, maxChars);
      FitAll(Capped(text, budget), budget, fits)
  }

  function FitAll(pieces: seq<string>, maxChars: nat, fits: string -> bool): Result<seq<string>, string>
    requires maxChars > 0
    decreases maxChars, |pieces| + 1
  {
    if pieces == [] then Ok([])
    else
      match FitSplit(pieces[0], maxChars, fits)
      case Err(piece) => Err(piece)
      case Ok(head) => After(head, FitAll(pieces[1..], maxChars, fits))
  }

  function After(head: seq<string>, rest: Result<seq<string>, string>): Result<seq<string>, string> {
    match rest
    case Err(piece) => Err(piece)
    case Ok(tail) => Ok(head + tail)
  }

  lemma AfterAfter(a: seq<string>, b: seq<string>, rest: Result<seq<string>, string>)
    ensures After(a, After(b, rest)) == After(a + b, rest)
    ensures After([], rest) == rest
  {
    if rest.Ok? {
      assert a + (b + rest.value) == (a + b) + rest.value;
      assert [] + rest.value == rest.value;
    }
  }

  method EnforceFit(text: string, maxChars: nat, fits: string -> bool) returns (r: Result<seq<string>, string>)
    requires maxChars > 0
    ensures r == FitSplit(text, maxChars, fits)
    decreases maxChars, 0
  {
    if fits(text) {
      return Ok([text]);
    }
    if maxChars <= MIN_FIT_CHARS {
      return Err(text);
    }
    var budget := Budget(|text|, maxChars);
    var parts := EnforceMaxChars(text, budget);
    r := FitEach(parts, budget, fits);
  }

  /** Fit every piece in turn; the first that cannot be fitted is the answer. */
  method FitEach(parts: seq<string>, maxChars: nat, fits: string -> bool) returns (r: Result<seq<string>, string>)
    requires maxChars > 0
    ensures r == FitAll(parts, maxChars, fits)
    decreases maxChars, 1
  {
    var pieces: seq<string> := [];
    AfterAfter([], [], FitAll(parts, maxChars, fits));
    for k := 0 to |parts|
      invariant FitAll(parts, maxChars, fits) == After(pieces, FitAll(parts[k..], maxChars, fits))
    {
      assert parts[k..][1..] == parts[k + 1..];
      var split := EnforceFit(parts[k], maxChars, fits);
      if split.Err? {
        return split;
      }
      AfterAfter(pieces, split.value, FitAll(parts[k + 1..], maxChars, fits));
      pieces := pieces + split.value;
    }
    assert pieces + [] == pieces;
    r := Ok(pieces);
  }

  // ----- what fitting keeps ------------------------------------------------------------

  predicate AllFit(pieces: seq<string>, fits: string -> bool) {
    forall i :: 0 <= i < |pieces| ==> fits(pieces[i])
  }

  /** What a caller may rely on. A split that succeeds gives trimmed parts that fit, no
      longer than the budget, holding the text's ink in order; one that fails names a part
      of at most 64 characters that the window rejects. */
  ghost predicate SoundSplit(r: Result<seq<string>, string>, ink: string, maxChars: nat, fits: string -> bool) {
    match r
    case Ok(pieces) =>
      && AllFit(pieces, fits) && AllTrimmed(pieces) && Within(pieces, maxChars)
      && Ink(Concat(pieces)) == ink
    case Err(piece) => |piece| <= MIN_FIT_CHARS && !fits(piece)
  }

  lemma {:induction false} FitSplitSound(text: string, maxChars: nat, fits: string -> bool)
    requires maxChars > 0 && Trimmed(text) && |text| <= maxChars
    ensures SoundSplit(FitSplit(text, maxChars, fits), Ink(text), maxChars, fits)
    decreases maxChars, 0
  {
    if fits(text) {
      ConcatCons(text, []);
    } else if maxChars > MIN_FIT_CHARS {
      var budget := Budget(|text|, maxChars);
      CappedKeeps(text, budget);
      FitAllSound(Capped(text, budget), budget, fits);
    }
  }

  lemma {:induction false} FitAllSound(pieces: seq<string>, maxChars: nat, fits: string -> bool)
    requires maxChars > 0 && AllTrimmed(pieces) && Within(pieces, maxChars)
    ensures SoundSplit(FitAll(pieces, maxChars, fits), Ink(Concat(pieces)), maxChars, fits)
    decreases maxChars, |pieces| + 1
  {
    if pieces != [] {
      FitSplitSound(pieces[0], maxChars, fits);
      FitAllSound(pieces[1..], maxChars, fits);
      InkAppend(pieces[0], Concat(pieces[1..]));
      var head, tail := FitSplit(pieces[0], maxChars, fits), FitAll(pieces[1..], maxChars, fits);
      if head.Ok? && tail.Ok? {
        ConcatAppend(head.value, tail.value);
        InkAppend(Concat(head.value), Concat(tail.value));
      }
    }
  }

  // ----- how many parts ------------------------------------------------------------------

  /** A bound on the parts a text of `length` characters ends in: one while the floor
      holds it, and past that five for every 72 characters, less one. Texts of 69 and of 141 characters reach it
      (TightCeiling.FourParts and TightCeiling.NineParts). */
  predicate InRate(length: int, parts: int) {
    && (length <= MIN_FIT_CHARS ==> parts <= 1)
    && (length > MIN_FIT_CHARS ==> 72 * (parts + 1) <= 5 * (length + 3))
  }

  /** A text without whitespace can only be sliced, and gives fewer. */
  predicate InSliceRate(length: int, parts: int) {
    && (length <= MIN_FIT_CHARS ==> parts <= 1)
    && (length > MIN_FIT_CHARS ==> 22 * (parts + 1) <= length + 1)
  }

  predicate Rated(text: string, parts: int) {
    InRate(|text|, parts) && (NoSpace(text) ==> InSliceRate(|text|, parts))
  }

  /** Parts each piece of a successful split ends in. */
  function Counts(pieces: seq<string>, maxChars: nat, fits: string -> bool): (counts: seq<nat>)
    requires maxChars > 0 && FitAll(pieces, maxChars, fits).Ok?
    ensures |counts| == |pieces|
  {
    if pieces == [] then []
    else [|FitSplit(pieces[0], maxChars, fits).value|] + Counts(pieces[1..], maxChars, fits)
  }

  function Sum(counts: seq<nat>): nat {
    if counts == [] then 0 else counts[0] + Sum(counts[1..])
  }

  lemma {:induction false} CountsAdd(pieces: seq<string>, maxChars: nat, fits: string -> bool)
    requires maxChars > 0 && FitAll(pieces, maxChars, fits).Ok?
    ensures |FitAll(pieces, maxChars, fits).value| == Sum(Counts(pieces, maxChars, fits))
    ensures forall i :: 0 <= i < |pieces| ==>
      && FitSplit(pieces[i], maxChars, fits).Ok?
      && Counts(pieces, maxChars, fits)[i] == |FitSplit(pieces[i], maxChars, fits).value|
  {
    if pieces != [] {
      CountsAdd(pieces[1..], maxChars, fits);
    }
  }

  /** Every successful split keeps to the rate. */
  lemma {:induction false} FitSplitRate(text: string, maxChars: nat, fits: string -> bool)
    requires maxChars > 0 && |text| <= maxChars
    ensures FitSplit(text, maxChars, fits).Ok? ==> Rated(text, |FitSplit(text, maxChars, fits).value|)
    decreases maxChars
  {
    if fits(text) || maxChars <= MIN_FIT_CHARS {
    } else if |text| <= MIN_FIT_CHARS {
      assert FitSplit(text, MIN_FIT_CHARS, fits).Err?;
      assert Capped(text, MIN_FIT_CHARS) == [text];
    } else if FitSplit(text, maxChars, fits).Ok? {
      var b := Budget(|text|, maxChars);
      var pieces := Cap(Words(text), "", b);
      CapBounds(Words(text), "", b);
      CountsAdd(pieces, b, fits);
      var counts := Counts(pieces, b, fits);
      forall i | 0 <= i < |pieces| ensures Rated(pieces[i], counts[i]) {
        FitSplitRate(pieces[i], b, fits);
      }
      SplitRate(text, counts, b);
    }
  }

  predicate AllRated(pieces: seq<string>, counts: seq<nat>) {
    |pieces| == |counts| && forall i :: 0 <= i < |pieces| ==> Rated(pieces[i], counts[i])
  }

  /** One split keeps to the rate when every piece of it does. */
  lemma SplitRate(text: string, counts: seq<nat>, b: nat)
    requires Halved(|text|, b) && AllRated(Cap(Words(text), "", b), counts)
    ensures Rated(text, Sum(counts))
  {
    var words := Words(text);
    var pieces := Cap(words, "", b);
    CapBounds(words, "", b);
    WordsWeight(text);
    var shape := SplitShape(words, "", b);
    match shape {
      case Packed => PackedRate(pieces, counts, |text|, b);
      case Sliced(before, word, after) =>
        assert forall i :: 0 <= i < |before| ==> before[i] == pieces[i];
        assert forall i :: 0 <= i < |after| ==> after[i] == pieces[|pieces| - |after| + i];
        SlicedRate(counts, before, word, after, |text|, b);
    }
    if NoSpace(text) { WordSplitRate(text, counts, b); }
  }

  lemma WordSplitRate(text: string, counts: seq<nat>, b: nat)
    requires Halved(|text|, b) && NoSpace(text) && AllRated(Cap(Words(text), "", b), counts)
    ensures InSliceRate(|text|, Sum(counts))
  {
    WordsOfWord(text);
    assert Cap(Words(text), "", b) == Slices(text, b) + Cap([], "", b);
    WordRate(text, counts, b);
  }

  /** The budget a text over the floor is split at. */
  predicate Halved(length: nat, b: nat) {
    length > MIN_FIT_CHARS && b == (if length / 2 > MIN_FIT_CHARS then length / 2 else MIN_FIT_CHARS)
  }

  lemma SumUpToThree(counts: seq<nat>)
    ensures |counts| == 0 ==> Sum(counts) == 0
    ensures |counts| == 1 ==> Sum(counts) == counts[0]
    ensures |counts| == 2 ==> Sum(counts) == counts[0] + counts[1]
    ensures |counts| == 3 ==> Sum(counts) == counts[0] + counts[1] + counts[2]
  {
    if |counts| == 3 { assert Sum(counts[1..]) == counts[1] + Sum(counts[2..]); }
  }

  lemma WeightUpToThree(pieces: seq<string>)
    ensures |pieces| == 0 ==> Weight(pieces) == 0
    ensures |pieces| == 1 ==> Weight(pieces) == |pieces[0]| + 1
    ensures |pieces| == 2 ==> Weight(pieces) == |pieces[0]| + |pieces[1]| + 2
    ensures |pieces| == 3 ==> Weight(pieces) == |pieces[0]| + |pieces[1]| + |pieces[2]| + 3
  {
    if |pieces| == 3 { assert Weight(pieces[1..]) == |pieces[1]| + 1 + Weight(pieces[2..]); }
  }

  /** One, two or three pieces packed from a text, none of them over its budget. */
  lemma PackedArithmetic(length: nat, b: nat, pieces: nat, l1: nat, n1: nat, l2: nat, n2: nat, l3: nat, n3: nat)
    requires Halved(length, b) && pieces <= 3
    requires l1 <= b && l2 <= b && l3 <= b && l1 + l2 + l3 + pieces <= length + 1
    requires InRate(l1, n1) && InRate(l2, n2) && InRate(l3, n3)
    requires if pieces < 3 then n3 == 0 else l3 > 0 && l2 > 0 && l1 > 0
    requires (pieces < 2 ==> n2 == 0) && (pieces < 1 ==> n1 == 0)
    ensures InRate(length, n1 + n2 + n3)
  {
  }

  lemma PackedRate(pieces: seq<string>, counts: seq<nat>, length: nat, b: nat)
    requires Halved(length, b) && AllRated(pieces, counts) && Within(pieces, b) && AllTrimmed(pieces)
    requires |pieces| <= 3 && Weight(pieces) <= length + 1
    ensures InRate(length, Sum(counts))
  {
    SumUpToThree(counts);
    WeightUpToThree(pieces);
    var n := |pieces|;
    PackedArithmetic(length, b, n,
                     if n > 0 then |pieces[0]| else 0, if n > 0 then counts[0] else 0,
                     if n > 1 then |pieces[1]| else 0, if n > 1 then counts[1] else 0,
                     if n > 2 then |pieces[2]| else 0, if n > 2 then counts[2] else 0);
  }

  lemma {:induction false} SumAppend(a: seq<nat>, c: seq<nat>)
    ensures Sum(a + c) == Sum(a) + Sum(c)
  {
    if a == [] {
      assert a + c == c;
    } else {
      SumAppend(a[1..], c);
      assert (a + c)[1..] == a[1..] + c;
    }
  }

  /** A word over the budget and inside twice it is one full slice, then one or two more. */
  lemma SlicesOfLongWord(word: string, b: nat)
    requires b < |word| <= 2 * b + 1 && NoSpace(word) && b > 1
    ensures |word| <= 2 * b ==> Slices(word, b) == [word[..b], word[b..]]
    ensures |word| == 2 * b + 1 ==> Slices(word, b) == [word[..b], word[b..2 * b], word[2 * b..]]
  {
    var tail := word[b..];
    if |word| <= 2 * b {
      assert Slices(tail, b) == [tail];
    } else {
      assert tail[..b] == word[b..2 * b] && tail[b..] == word[2 * b..];
      assert Slices(tail, b) == [tail[..b]] + Slices(tail[b..], b);
    }
  }

  /** A sliced word with a piece on either side: `full` is the first slice, `tail` the second. */
  lemma SlicedArithmetic(length: nat, b: nat, full: nat, tailLength: nat, tail: nat,
                         beforeLength: nat, before: nat, afterLength: nat, after: nat)
    requires Halved(length, b) && InSliceRate(b, full) && InRate(tailLength, tail) && tailLength > 0
    requires if beforeLength == 0 then before == 0 else InRate(beforeLength, before)
    requires if afterLength == 0 then after == 0 else InRate(afterLength, after)
    requires b + tailLength + (if beforeLength == 0 then 0 else beforeLength + 1)
                            + (if afterLength == 0 then 0 else afterLength + 1) <= length
    ensures InRate(length, before + full + tail + after)
  {
  }

  /** Counts of pieces laid out as some before, some in the middle and some after. */
  lemma RatedParts(before: seq<string>, mid: seq<string>, after: seq<string>, counts: seq<nat>)
    returns (first: seq<nat>, middle: seq<nat>, last: seq<nat>)
    requires AllRated(before + mid + after, counts)
    ensures AllRated(before, first) && AllRated(mid, middle) && AllRated(after, last)
    ensures Sum(counts) == Sum(first) + Sum(middle) + Sum(last)
  {
    var pieces, n, m := before + mid + after, |before|, |before| + |mid|;
    first, middle, last := counts[..n], counts[n..m], counts[m..];
    assert counts == first + middle + last;
    SumAppend(first + middle, last);
    SumAppend(first, middle);
    assert forall i :: 0 <= i < |before| ==> before[i] == pieces[i];
    assert forall i :: 0 <= i < |mid| ==> mid[i] == pieces[n + i];
    assert forall i :: 0 <= i < |after| ==> after[i] == pieces[m + i];
  }

  lemma {:induction false} SlicedRate(counts: seq<nat>, before: seq<string>, word: string,
                   after: seq<string>, length: nat, b: nat)
    requires Halved(length, b) && AllTrimmed(before) && AllTrimmed(after)
    requires HasShape(before + Slices(word, b) + after, Sliced(before, word, after), b, length + 1)
    requires AllRated(before + Slices(word, b) + after, counts)
    ensures InRate(length, Sum(counts))
  {
    SlicesOfLongWord(word, b);
    var first, mid, last := RatedParts(before, Slices(word, b), after, counts);
    SumUpToThree(first);
    SumUpToThree(mid);
    SumUpToThree(last);
    WeightUpToThree(before);
    WeightUpToThree(after);
    assert Rated(Slices(word, b)[0], mid[0]) && Rated(Slices(word, b)[1], mid[1]);
    if |word| <= 2 * b {
      SlicedArithmetic(length, b, mid[0], |word| - b, mid[1],
                       if before == [] then 0 else |before[0]|, Sum(first),
                       if after == [] then 0 else |after[0]|, Sum(last));
    } else {
      assert Rated(Slices(word, b)[2], mid[2]);
      WordArithmetic(length, b, mid[0], mid[1], mid[2]);
    }
  }

  /** A word of 2b + 1 characters and nothing else. */
  lemma WordArithmetic(length: nat, b: nat, first: nat, second: nat, third: nat)
    requires Halved(length, b) && length == 2 * b + 1
    requires InSliceRate(b, first) && InSliceRate(b, second) && InSliceRate(1, third)
    ensures InRate(length, first + second + third) && InSliceRate(length, first + second + third)
  {
  }

  lemma WordRate(word: string, counts: seq<nat>, b: nat)
    requires Halved(|word|, b) && NoSpace(word)
    requires AllRated(Slices(word, b), counts)
    ensures InSliceRate(|word|, Sum(counts))
  {
    SlicesOfLongWord(word, b);
    SumUpToThree(counts);
    var slices := Slices(word, b);
    if |word| == 2 * b + 1 {
      WordArithmetic(|word|, b, counts[0], counts[1], counts[2]);
    } else {
      assert Rated(slices[0], counts[0]) && Rated(slices[1], counts[1]);
    }
  }
}
