// What each stage of the chunker changes, and what it leaves alone.
module Stages {
  import opened Text
  import opened Splitting
  import opened Packing
  import opened Windows
  import opened Capping
  import opened Fitting
  import opened Chunker

  // ----- the measured window -----------------------------------------------------------------

  /** A piece within the cap comes back as it is exactly when the window accepts it. */
  lemma FitSplitExactly(text: string, maxChars: nat, fits: string -> bool)
    requires maxChars > 0 && Trimmed(text) && |text| <= maxChars
    ensures FitSplit(text, maxChars, fits) == Ok([text]) <==> fits(text)
  {
    FitSplitSound(text, maxChars, fits);
    if FitSplit(text, maxChars, fits) == Ok([text]) {
      assert [text][0] == text;
    }
  }

  lemma {:induction false} AllFitStay(pieces: seq<string>, maxChars: nat, fits: string -> bool)
    requires maxChars > 0 && AllTrimmed(pieces) && Within(pieces, maxChars) && AllFit(pieces, fits)
    ensures FitAll(pieces, maxChars, fits) == Ok(pieces)
  {
    if pieces != [] {
      FitSplitExactly(pieces[0], maxChars, fits);
      AllFitStay(pieces[1..], maxChars, fits);
      assert [pieces[0]] + pieces[1..] == pieces;
    }
  }

  /** Fitting changes nothing exactly when the window accepts every piece. */
  lemma FitAllExactly(pieces: seq<string>, maxChars: nat, fits: string -> bool)
    requires maxChars > 0 && AllTrimmed(pieces) && Within(pieces, maxChars)
    ensures FitAll(pieces, maxChars, fits) == Ok(pieces) <==> AllFit(pieces, fits)
  {
    FitAllSound(pieces, maxChars, fits);
    if AllFit(pieces, fits) { AllFitStay(pieces, maxChars, fits); }
  }

  function FlattenParts(parts: seq<seq<string>>): seq<string> {
    if parts == [] then [] else parts[0] + FlattenParts(parts[1..])
  }

  /** The parts of each piece, in order; a piece the window accepts is its own only part. */
  ghost predicate PartsOf(parts: seq<seq<string>>, pieces: seq<string>, maxChars: nat, fits: string -> bool)
    requires maxChars > 0
  {
    && |parts| == |pieces|
    && forall i :: 0 <= i < |pieces| ==>
         FitSplit(pieces[i], maxChars, fits) == Ok(parts[i]) && (parts[i] == [pieces[i]] <==> fits(pieces[i]))
  }

  /** Only what the window rejects is cut, whatever stands beside it. */
  lemma {:induction false} OnlyRejectedCut(pieces: seq<string>, maxChars: nat, fits: string -> bool) returns (parts: seq<seq<string>>)
    requires maxChars > 0 && AllTrimmed(pieces) && Within(pieces, maxChars) && FitAll(pieces, maxChars, fits).Ok?
    ensures PartsOf(parts, pieces, maxChars, fits) && FlattenParts(parts) == FitAll(pieces, maxChars, fits).value
  {
    if pieces == [] {
      parts := [];
    } else {
      FitSplitExactly(pieces[0], maxChars, fits);
      var rest := OnlyRejectedCut(pieces[1..], maxChars, fits);
      parts := [FitSplit(pieces[0], maxChars, fits).value] + rest;
      assert parts[1..] == rest;
    }
  }

  /** A window that accepts every chunk changes nothing, and one that rejects some chunk
      changes the answer. */
  lemma WindowChangesNothingExactly(text: string, c: Config, fits: string -> bool)
    requires Callable(c) && !c.strategy.SentenceWindow? && c.fits == Some(fits)
    ensures var free := Chunks(text, c.(fits := None));
            Chunks(text, c) == free <==> (free.Ok? ==> AllFit(Texts(free.value), fits))
  {
    var unmeasured := c.(fits := None);
    if !Blank(text) && c.maxChars > 0 {
      var merged := MergedChunks(text, c);
      assert RawChunks(text, unmeasured) == RawChunks(text, c);
      MergedChunksPrepared(text, c);
      FitAllExactly(merged, c.maxChars, fits);
      LocateOrdered(text, merged, 0, 0);
      var r := FitAll(merged, c.maxChars, fits);
      if r.Ok? { LocateOrdered(text, r.value, 0, 0); }
    }
  }

  // ----- the cap -------------------------------------------------------------------------------

  lemma {:induction false} WithinStay(chunks: seq<string>, maxChars: nat)
    requires maxChars > 0 && Within(chunks, maxChars)
    ensures CapAll(chunks, maxChars) == chunks
  {
    if chunks != [] {
      WithinStay(chunks[1..], maxChars);
      assert [chunks[0]] + chunks[1..] == chunks;
    }
  }

  /** Capping changes nothing exactly when every chunk is within the cap already. */
  lemma CapAllExactly(chunks: seq<string>, maxChars: nat)
    requires maxChars > 0 && AllTrimmed(chunks)
    ensures CapAll(chunks, maxChars) == chunks <==> Within(chunks, maxChars)
  {
    CapAllKeeps(chunks, maxChars);
    if Within(chunks, maxChars) { WithinStay(chunks, maxChars); }
  }

  /** The words of the pieces, in order. */
  function WordsOfAll(pieces: seq<string>): seq<string> {
    if pieces == [] then [] else Words(pieces[0]) + WordsOfAll(pieces[1..])
  }

  lemma {:induction false} WordsOfAllAppend(a: seq<string>, b: seq<string>)
    ensures WordsOfAll(a + b) == WordsOfAll(a) + WordsOfAll(b)
  {
    if a == [] {
      assert a + b == b;
    } else {
      WordsOfAllAppend(a[1..], b);
      assert (a + b)[1..] == a[1..] + b;
      Associate(Words(a[0]), WordsOfAll(a[1..]), WordsOfAll(b));
    }
  }

  /** Every word over the cap in slices, and every other word whole. */
  function Sliced(words: seq<string>, b: nat): seq<string>
    requires b > 0
  {
    if words == [] then [] else (if |words[0]| > b then Slices(words[0], b) else [words[0]]) + Sliced(words[1..], b)
  }

  lemma {:induction false} SlicedWhole(words: seq<string>, b: nat)
    requires b > 0 && forall i :: 0 <= i < |words| ==> |words[i]| <= b
    ensures Sliced(words, b) == words
  {
    if words != [] {
      SlicedWhole(words[1..], b);
      assert [words[0]] + words[1..] == words;
    }
  }

  lemma {:induction false} WordsOfSlices(word: string, b: nat)
    requires b > 0 && NoSpace(word)
    ensures WordsOfAll(Slices(word, b)) == Slices(word, b)
    decreases |word|
  {
    if |word| > b {
      WordsOfSlices(word[b..], b);
      WordsOfWord(word[..b]);
      assert Slices(word, b)[1..] == Slices(word[b..], b);
    } else if word != "" {
      WordsOfWord(word);
      assert [word][1..] == [];
    }
  }

  lemma WordsOfOne(piece: string)
    ensures WordsOfAll([piece]) == Words(piece)
  {
    assert [piece][1..] == [] && Words(piece) + [] == Words(piece);
  }

  /** The cap cuts no word but those over it, and loses, adds and reorders none. */
  lemma {:induction false} CapWords(words: seq<string>, current: string, b: nat)
    requires b > 0 && AllWords(words)
    ensures WordsOfAll(Cap(words, current, b)) == Words(current) + Sliced(words, b)
    decreases |words|
  {
    WordsOfOne(current);
    if words == [] {
      assert Words(current) + [] == Words(current);
    } else {
      var word, rest := words[0], words[1..];
      WordsOfWord(word);
      if |word| > b {
        CapWords(rest, "", b);
        LongWordCapped(word, rest, current, b);
      } else if current == "" {
        CapWords(rest, word, b);
        assert [] + ([word] + Sliced(rest, b)) == [word] + Sliced(rest, b);
      } else if |current| + 1 + |word| <= b {
        CapWords(rest, current + " " + word, b);
        WordsAcrossSpace(current, ' ', word);
        Associate(Words(current), [word], Sliced(rest, b));
      } else {
        CapWords(rest, word, b);
        WordsOfAllAppend([current], Cap(rest, word, b));
      }
    }
  }

  lemma WordsOfClosed(current: string)
    ensures WordsOfAll(if current == "" then [] else [current]) == Words(current)
  {
    WordsOfOne(current);
  }

  lemma LongWordCapped(word: string, rest: seq<string>, current: string, b: nat)
    requires b > 0 && |word| > b && IsWord(word)
    requires WordsOfAll(Cap(rest, "", b)) == [] + Sliced(rest, b)
    ensures WordsOfAll(Cap([word] + rest, current, b)) == Words(current) + Sliced([word] + rest, b)
  {
    var closed, slices, tail := if current == "" then [] else [current], Slices(word, b), Cap(rest, "", b);
    assert ([word] + rest)[1..] == rest;
    assert Cap([word] + rest, current, b) == closed + slices + tail;
    WordsOfClosed(current);
    WordsOfSlices(word, b);
    ThreeParts(closed, slices, tail);
    assert [] + Sliced(rest, b) == Sliced(rest, b);
    Associate(Words(current), slices, Sliced(rest, b));
  }

  lemma ThreeParts(a: seq<string>, b: seq<string>, c: seq<string>)
    ensures WordsOfAll(a + b + c) == WordsOfAll(a) + WordsOfAll(b) + WordsOfAll(c)
  {
    WordsOfAllAppend(a + b, c);
    WordsOfAllAppend(a, b);
  }

  /** A capped text has the words of the text, those over the cap in slices of it. */
  lemma CappedWords(text: string, b: nat)
    requires b > 0
    ensures WordsOfAll(Capped(text, b)) == Sliced(Words(text), b)
  {
    if |text| <= b {
      WordsOfOne(text);
      WordsFitText(text);
      SlicedWhole(Words(text), b);
    } else {
      CapWords(Words(text), "", b);
      assert [] + Sliced(Words(text), b) == Sliced(Words(text), b);
    }
  }

  lemma {:induction false} WordsFitText(text: string)
    ensures forall i :: 0 <= i < |Words(text)| ==> |Words(text)[i]| <= |text|
    decreases |text|
  {
    if text == "" {
    } else if IsSpace(text[0]) {
      WordsFitText(text[1..]);
    } else {
      var n := WordLength(text);
      WordsFitText(text[n..]);
      assert forall i :: 0 < i < |Words(text)| ==> Words(text)[i] == Words(text[n..])[i - 1];
    }
  }

  function SliceStart(b: nat, k: nat): nat {
    if k == 0 then 0 else b + SliceStart(b, k - 1)
  }

  lemma {:induction false} SliceStartIs(b: nat, k: nat)
    ensures SliceStart(b, k) == b * k
  {
    if k > 0 {
      SliceStartIs(b, k - 1);
      assert b * k == b + b * (k - 1);
    }
  }

  function CutAt(word: string, from: nat, b: nat): string
    requires from <= |word|
  {
    word[from..if from + b < |word| then from + b else |word|]
  }

  lemma CutLater(word: string, b: nat, from: nat)
    requires b <= |word| && from <= |word| - b
    ensures CutAt(word[b..], from, b) == CutAt(word, b + from, b)
  {
  }

  lemma {:induction false} SliceFrom(word: string, b: nat, k: nat)
    requires b > 0 && k < |Slices(word, b)|
    ensures SliceStart(b, k) < |word| && Slices(word, b)[k] == CutAt(word, SliceStart(b, k), b)
    decreases |word|
  {
    if |word| > b && k > 0 {
      SliceFrom(word[b..], b, k - 1);
      CutLater(word, b, SliceStart(b, k - 1));
      assert Slices(word, b)[k] == Slices(word[b..], b)[k - 1];
    }
  }

  /** A slice is the cap's length but for the last one. */
  lemma {:induction false} SliceIs(word: string, b: nat, k: nat)
    requires b > 0 && k < |Slices(word, b)|
    ensures b * k < |word| && Slices(word, b)[k] == word[b * k..if b * k + b < |word| then b * k + b else |word|]
  {
    SliceFrom(word, b, k);
    SliceStartIs(b, k);
  }

  predicate NoneOver(words: seq<string>, b: nat) {
    forall i :: 0 <= i < |words| ==> |words[i]| <= b
  }

  function WithinChars(b: nat): Group -> bool {
    (g: Group) => |Join(g)| <= b
  }

  /** Without a word over the cap, capping is the greedy grouping of the words. */
  lemma {:induction false} CapIsGreedy(words: seq<string>, open: Group, b: nat)
    requires b > 0 && AllWords(words) && AllWords(open) && NoneOver(words, b)
    ensures Cap(words, Join(open), b) == JoinAll(Greedy(words, open, WithinChars(b)))
    decreases |words|
  {
    if open != [] { JoinTrimmed(open); }
    if words == [] {
      JoinAllCons(open, []);
    } else {
      var word, rest := words[0], words[1..];
      assert Join([word]) == word;
      if open == [] {
        assert [] + [word] == [word];
        CapIsGreedy(rest, [word], b);
      } else {
        JoinSnoc(open, word);
        CapIsGreedy(rest, open + [word], b);
        CapIsGreedy(rest, [word], b);
        JoinAllCons(open, Greedy(rest, [word], WithinChars(b)));
      }
    }
  }

  lemma CharsShrink(b: nat)
    ensures Hereditary(WithinChars(b))
  {
    forall g: Group ensures Shrinks(g, WithinChars(b)) {
      if |g| > 1 {
        JoinLength(g);
        JoinLength(g[1..]);
        JoinLength(g[..|g| - 1]);
        WeightAppend(g[..|g| - 1], [g[|g| - 1]]);
        assert g[..|g| - 1] + [g[|g| - 1]] == g;
      }
    }
  }

  /** No other way of dividing the words of a text over the cap into consecutive pieces
      within it uses fewer. */
  lemma CappedFewest(text: string, b: nat, groups: seq<Group>)
    requires b > 0 && |text| > b && NoneOver(Words(text), b) && Grouping(groups, Words(text), WithinChars(b))
    ensures exists best :: Grouping(best, Words(text), WithinChars(b)) && Capped(text, b) == JoinAll(best) && |best| <= |groups|
  {
    var words, admits := Words(text), WithinChars(b);
    CharsShrink(b);
    CapIsGreedy(words, [], b);
    GreedyGroups(words, [], admits);
    assert [] + words == words;
    GreedyFewest(words, groups, admits);
    assert Grouping(Greedy(words, [], admits), words, admits);
  }

  // ----- the merge -----------------------------------------------------------------------------

  /** A chunk joins the one before it when it is short and the two fit the cap. */
  predicate Joins(open: string, chunk: string, minLength: int, maxChars: nat) {
    |chunk| < minLength && |open| + 1 + |chunk| <= maxChars
  }

  /** Consecutive chunks joined with spaces: each after the first of its group joined what
      stood before it, and the first of the next group did not. */
  ghost predicate MergedBy(groups: seq<Group>, chunks: seq<string>, minLength: int, maxChars: nat) {
    && Flatten(groups) == chunks
    && (forall i :: 0 <= i < |groups| ==> groups[i] != [] && Chained(groups[i], minLength, maxChars))
    && forall i :: 0 <= i < |groups| - 1 ==> !Joins(Join(groups[i]), groups[i + 1][0], minLength, maxChars)
  }

  ghost predicate Chained(group: Group, minLength: int, maxChars: nat) {
    forall j :: 0 < j < |group| ==> Joins(Join(group[..j]), group[j], minLength, maxChars)
  }

  lemma {:induction false} MergeAbsorbs(open: Group, more: Group, rest: seq<string>, minLength: int, maxChars: nat)
    requires open != [] && Chained(open + more, minLength, maxChars)
    ensures MergeInto(Join(open), more + rest, minLength, maxChars) == MergeInto(Join(open + more), rest, minLength, maxChars)
    decreases |more|
  {
    if more == [] {
      assert open + more == open && more + rest == rest;
    } else {
      var j := |open|;
      assert (open + more)[..j] == open && (open + more)[j] == more[0];
      assert open + [more[0]] + more[1..] == open + more && (more + rest)[1..] == more[1..] + rest;
      JoinSnoc(open, more[0]);
      MergeAbsorbs(open + [more[0]], more[1..], rest, minLength, maxChars);
    }
  }

  /** Merging gives the groups joined, whichever groups meet the rule. */
  lemma {:induction false} MergeIs(groups: seq<Group>, chunks: seq<string>, minLength: int, maxChars: nat)
    requires groups != [] && MergedBy(groups, chunks, minLength, maxChars)
    ensures chunks != [] && MergeInto(chunks[0], chunks[1..], minLength, maxChars) == JoinAll(groups)
    decreases |groups|
  {
    var g, more := groups[0], groups[1..];
    var rest := Flatten(more);
    assert chunks[1..] == g[1..] + rest && [chunks[0]] + g[1..] == g;
    assert Join([chunks[0]]) == chunks[0];
    MergeAbsorbs([chunks[0]], g[1..], rest, minLength, maxChars);
    if more != [] {
      assert forall i :: 0 <= i < |more| ==> more[i] == groups[i + 1];
      MergeIs(more, rest, minLength, maxChars);
      assert rest[0] == groups[1][0];
    }
  }

  /** Some groups do: those the merge makes. */
  lemma {:induction false} MergeGroups(open: Group, rest: seq<string>, minLength: int, maxChars: nat) returns (groups: seq<Group>)
    requires open != [] && Chained(open, minLength, maxChars)
    ensures MergedBy(groups, open + rest, minLength, maxChars) && groups != [] && open <= groups[0]
    decreases |rest|
  {
    if rest == [] {
      groups := [open];
      assert Flatten(groups) == open + Flatten([]) && open + rest == open;
    } else if Joins(Join(open), rest[0], minLength, maxChars) {
      var longer := open + [rest[0]];
      assert forall j :: 0 < j < |open| ==> longer[..j] == open[..j];
      assert longer[..|open|] == open;
      groups := MergeGroups(longer, rest[1..], minLength, maxChars);
      assert longer + rest[1..] == open + rest;
    } else {
      var more := MergeGroups([rest[0]], rest[1..], minLength, maxChars);
      groups := [open] + more;
      assert groups[1..] == more && [rest[0]] + rest[1..] == rest;
      assert more[0][0] == rest[0];
    }
  }

  /** The merge joins runs of neighbours, each chunk after the first of its run being short
      and fitting, and the one after the run not; and there is one such division. */
  lemma MergedExactly(chunks: seq<string>, minLength: int, maxChars: nat, merged: seq<string>)
    requires minLength > 1 && chunks != []
    ensures merged == Merged(chunks, minLength, maxChars)
       <==> exists groups :: MergedBy(groups, chunks, minLength, maxChars) && merged == JoinAll(groups)
  {
    assert [chunks[0]] + chunks[1..] == chunks;
    var groups := MergeGroups([chunks[0]], chunks[1..], minLength, maxChars);
    MergeIs(groups, chunks, minLength, maxChars);
    if |chunks| == 1 { assert MergeInto(chunks[0], chunks[1..], minLength, maxChars) == chunks; }
    forall other | MergedBy(other, chunks, minLength, maxChars) ensures JoinAll(other) == Merged(chunks, minLength, maxChars) {
      assert other != [];
      MergeIs(other, chunks, minLength, maxChars);
    }
  }

  // ----- windows of words --------------------------------------------------------------------------

  /** Window k begins k steps in, holds `size` words, and is the last exactly when those
      reach the end. */
  ghost predicate WindowAt(windows: seq<Group>, k: nat, words: seq<string>, start: nat, size: nat, step: nat)
    requires k < |windows|
  {
    var from := start + step * k;
    && from < |words|
    && windows[k] == words[from..if from + size < |words| then from + size else |words|]
    && (from + size >= |words| <==> k == |windows| - 1)
  }

  lemma {:induction false} WindowsAre(words: seq<string>, start: nat, size: nat, step: nat)
    requires start < |words| && 0 < step <= size
    ensures var w := WindowsFrom(words, start, size, step);
            w != [] && forall k :: 0 <= k < |w| ==> WindowAt(w, k, words, start, size, step)
    decreases |words| - start
  {
    var w := WindowsFrom(words, start, size, step);
    if start + size < |words| {
      WindowsAre(words, start + step, size, step);
      forall k | 0 <= k < |w| ensures WindowAt(w, k, words, start, size, step) {
        if k > 0 {
          assert WindowAt(w[1..], k - 1, words, start + step, size, step);
          NextWindow(step, k);
        }
      }
    }
  }

  lemma NextWindow(step: nat, k: nat)
    requires k > 0
    ensures step + step * (k - 1) == step * k
  {
  }

  /** One chunk: `size` words from where its window begins, or what is left of them, and then
      it is the last. */
  ghost predicate WindowChunk(chunks: seq<string>, k: nat, words: seq<string>, size: nat, step: nat)
    requires k < |chunks|
  {
    var from := step * k;
    && from < |words|
    && Words(chunks[k]) == words[from..if from + size < |words| then from + size else |words|]
    && |Words(chunks[k])| <= size && (k < |chunks| - 1 ==> |Words(chunks[k])| == size)
    && (from + size >= |words| <==> k == |chunks| - 1)
  }

  lemma WindowJoined(w: seq<Group>, k: nat, words: seq<string>, size: nat, step: nat)
    requires k < |w| && WindowAt(w, k, words, 0, size, step) && AllWords(words)
    ensures |JoinAll(w)| == |w| && WindowChunk(JoinAll(w), k, words, size, step)
  {
    JoinAllAt(w, k);
    WordsOfJoin(w[k]);
  }

  /** A token-window call gives one chunk for each window, none of more than `maxWords`
      words, and each but the last of just that many. */
  lemma WordWindowsAre(text: string, maxWords: nat, overlap: nat)
    requires maxWords > 0 && !Blank(text)
    ensures var r := WordWindows(text, maxWords, overlap);
            r != [] && forall k :: 0 <= k < |r| ==> WindowChunk(r, k, Words(text), maxWords, Step(maxWords, overlap))
  {
    var words, step := Words(text), Step(maxWords, overlap);
    InkEmptyIffBlank(text);
    WordsKeepInk(text);
    var w := WindowsFrom(words, 0, maxWords, step);
    WindowsAre(words, 0, maxWords, step);
    JoinAllAt(w, 0);
    forall k | 0 <= k < |JoinAll(w)| ensures WindowChunk(JoinAll(w), k, words, maxWords, step) {
      assert WindowAt(w, k, words, 0, maxWords, step);
      WindowJoined(w, k, words, maxWords, step);
    }
  }

  lemma {:induction false} JoinAllAt(groups: seq<Group>, k: nat)
    requires k < |groups|
    ensures |JoinAll(groups)| == |groups| && JoinAll(groups)[k] == Join(groups[k])
  {
    if |groups| > 1 { JoinAllAt(groups[1..], if k > 0 then k - 1 else 0); }
  }

  // ----- where chunks are located -------------------------------------------------------------------

  /** A chunk stands at the first place it occurs from where the one before it ended, or, if
      it occurs nowhere after that, right there. */
  ghost predicate PlacedAt(text: string, chunk: Chunk, from: nat) {
    && from <= chunk.charStart && chunk.charEnd == chunk.charStart + |chunk.text|
    && (OccursAt(text, chunk.text, chunk.charStart) || chunk.charStart == from)
    && forall p: nat :: from <= p && OccursAt(text, chunk.text, p) ==> OccursAt(text, chunk.text, chunk.charStart) && chunk.charStart <= p
  }

  /** Chunk i is piece i, placed after the one before it. */
  ghost predicate LocatedAt(r: seq<Chunk>, i: nat, text: string, pieces: seq<string>, index: nat, from: nat)
    requires i < |r| == |pieces|
  {
    r[i].text == pieces[i] && r[i].index == index + i && PlacedAt(text, r[i], if i == 0 then from else r[i - 1].charEnd)
  }

  lemma {:induction false} LocatedFirst(text: string, pieces: seq<string>, index: nat, from: nat)
    ensures var r := Locate(text, pieces, index, from);
            |r| == |pieces| && forall i :: 0 <= i < |r| ==> LocatedAt(r, i, text, pieces, index, from)
    decreases |pieces|
  {
    if pieces != [] {
      var start := PlaceOf(text, pieces[0], from);
      var r := Locate(text, pieces, index, from);
      var rest := Locate(text, pieces[1..], index + 1, start + |pieces[0]|);
      LocatedFirst(text, pieces[1..], index + 1, start + |pieces[0]|);
      assert PlacedAt(text, r[0], from);
      forall i | 0 <= i < |r| ensures LocatedAt(r, i, text, pieces, index, from) {
        if i > 0 {
          assert LocatedAt(rest, i - 1, text, pieces[1..], index + 1, start + |pieces[0]|);
          assert r[i] == rest[i - 1] && (i > 1 ==> r[i - 1] == rest[i - 2]);
        }
      }
    }
  }
}
