// Fixed-size word windows, with or without overlap.
module Windows {
  import opened Text
  import opened Splitting
  import opened Packing

  /** The windows of `size` words that start every `step` words, stopping at the first that
      reaches the end. */
  function WindowsFrom(words: seq<string>, start: nat, size: nat, step: nat): seq<Group>
    requires size > 0 && step > 0
    decreases |words| - start
  {
    if start >= |words| then []
    else if start + size >= |words| then [words[start..]]
    else [words[start..start + size]] + WindowsFrom(words, start + step, size, step)
  }

  function Step(maxWords: int, overlap: int): (step: nat)
    ensures step > 0
  {
    if maxWords - overlap > 1 then maxWords - overlap else 1
  }

  function WordWindows(text: string, maxWords: nat, overlap: int): seq<string>
    requires maxWords > 0
  {
    JoinAll(WindowsFrom(Words(text), 0, maxWords, Step(maxWords, overlap)))
  }

  method SplitTokenCount(text: string, maxWords: nat, overlap: int) returns (chunks: seq<string>)
    requires maxWords > 0
    ensures chunks == WordWindows(text, maxWords, overlap)
  {
    var words := Words(text);
    chunks := [];
    if words == [] { return; }
    var step := Step(maxWords, overlap);
    var start: nat := 0;
    while start < |words|
      invariant chunks + JoinAll(WindowsFrom(words, start, maxWords, step))
             == JoinAll(WindowsFrom(words, 0, maxWords, step))
    {
      var end := if start + maxWords < |words| then start + maxWords else |words|;
      JoinAllCons(words[start..end], WindowsFrom(words, start + step, maxWords, step));
      chunks := chunks + [Join(words[start..end])];
      if end >= |words| {
        assert words[start..end] == words[start..];
        return;
      }
      start := start + step;
    }
  }

  function Drop(words: seq<string>, n: nat): seq<string> {
    if n <= |words| then words[n..] else []
  }

  /** The words of the first chunk, then those of each later chunk past the overlap. */
  function Stitch(chunks: seq<string>, overlap: nat): seq<string> {
    if chunks == [] then [] else Words(chunks[0]) + StitchRest(chunks[1..], overlap)
  }

  function StitchRest(chunks: seq<string>, overlap: nat): seq<string> {
    if chunks == [] then [] else Drop(Words(chunks[0]), overlap) + StitchRest(chunks[1..], overlap)
  }

  function Tails(windows: seq<Group>, overlap: nat): seq<string> {
    if windows == [] then [] else Drop(windows[0], overlap) + Tails(windows[1..], overlap)
  }

  predicate WordGroups(groups: seq<Group>) {
    groups == [] || (groups[0] != [] && AllWords(groups[0]) && WordGroups(groups[1..]))
  }

  lemma {:induction false} StitchRestIsTails(windows: seq<Group>, overlap: nat)
    requires WordGroups(windows)
    ensures StitchRest(JoinAll(windows), overlap) == Tails(windows, overlap)
  {
    if windows != [] {
      WordsOfJoin(windows[0]);
      StitchRestIsTails(windows[1..], overlap);
      assert JoinAll(windows)[1..] == JoinAll(windows[1..]);
    }
  }

  lemma {:induction false} WindowsHoldWords(words: seq<string>, start: nat, size: nat, step: nat)
    requires size > 0 && step > 0 && AllWords(words)
    ensures WordGroups(WindowsFrom(words, start, size, step))
    decreases |words| - start
  {
    if start + size < |words| {
      WindowsHoldWords(words, start + step, size, step);
    }
  }

  /** Past their overlap, the windows from `start` on hold the words from start + overlap. */
  lemma {:induction false} TailsOfWindows(words: seq<string>, start: nat, size: nat, overlap: nat)
    requires overlap < size && start + overlap < |words|
    ensures Tails(WindowsFrom(words, start, size, size - overlap), overlap) == words[start + overlap..]
    decreases |words| - start
  {
    var w := WindowsFrom(words, start, size, size - overlap);
    if start + size >= |words| {
      assert w == [words[start..]] && w[1..] == [];
      assert words[start..][overlap..] == words[start + overlap..];
    } else {
      var next := start + size - overlap;
      TailsOfWindows(words, next, size, overlap);
      assert w[1..] == WindowsFrom(words, next, size, size - overlap);
      assert words[start..start + size][overlap..] + words[start + size..] == words[start + overlap..];
    }
  }

  lemma StitchJoined(windows: seq<Group>, overlap: nat)
    requires WordGroups(windows) && windows != []
    ensures Stitch(JoinAll(windows), overlap) == windows[0] + Tails(windows[1..], overlap)
  {
    WordsOfJoin(windows[0]);
    StitchRestIsTails(windows[1..], overlap);
    assert JoinAll(windows)[1..] == JoinAll(windows[1..]);
  }

  /** Dropping the first `overlap` words of every later window rebuilds the text's words:
      nothing is lost, repeated or reordered beyond the overlap asked for. */
  lemma WindowsRebuild(text: string, maxWords: nat, overlap: nat)
    requires overlap < maxWords
    ensures Stitch(WordWindows(text, maxWords, overlap), overlap) == Words(text)
  {
    assert Step(maxWords, overlap) == maxWords - overlap;
    RebuildWords(Words(text), maxWords, overlap);
  }

  lemma RebuildWords(words: seq<string>, size: nat, overlap: nat)
    requires overlap < size && AllWords(words)
    ensures Stitch(JoinAll(WindowsFrom(words, 0, size, size - overlap)), overlap) == words
  {
    if words != [] {
      WindowsHoldWords(words, 0, size, size - overlap);
      FirstAndTails(words, size, overlap);
      StitchJoined(WindowsFrom(words, 0, size, size - overlap), overlap);
    }
  }

  /** The first window, then the others past their overlap. */
  lemma FirstAndTails(words: seq<string>, size: nat, overlap: nat)
    requires overlap < size && words != []
    ensures var w := WindowsFrom(words, 0, size, size - overlap);
            w != [] && w[0] + Tails(w[1..], overlap) == words
  {
    var w := WindowsFrom(words, 0, size, size - overlap);
    if size < |words| {
      TailsOfWindows(words, size - overlap, size, overlap);
      assert w[0] == words[..size] && w[1..] == WindowsFrom(words, size - overlap, size, size - overlap);
      assert words[..size] + words[size..] == words;
    } else {
      assert w == [words] && w[1..] == [];
    }
  }

  /** Without overlap the windows partition the words. */
  lemma {:induction false} WindowsPartition(words: seq<string>, start: nat, size: nat)
    requires size > 0 && start <= |words|
    ensures var w := WindowsFrom(words, start, size, size);
            Flatten(w) == words[start..] && forall i :: 0 <= i < |w| ==> w[i] != []
    decreases |words| - start
  {
    if start + size < |words| {
      WindowsPartition(words, start + size, size);
      assert words[start..] == words[start..start + size] + words[start + size..];
    } else if start < |words| {
      assert Flatten([words[start..]]) == words[start..] + [];
    }
  }

  lemma WordsTrimmed(words: seq<string>)
    requires AllWords(words)
    ensures AllTrimmed(words)
  {
  }

  lemma WindowsKeep(text: string, maxWords: nat)
    requires maxWords > 0
    ensures var r := WordWindows(text, maxWords, 0); AllTrimmed(r) && Carries(r, text)
  {
    var words := Words(text);
    var w := WindowsFrom(words, 0, maxWords, maxWords);
    WindowsPartition(words, 0, maxWords);
    assert words[0..] == words;
    WordsTrimmed(words);
    FlattenTrimmed(w);
    JoinAllKeeps(w);
    WordsKeepInk(text);
    WordsWeight(text);
    InkOfNoSpace(Concat(words));
  }

  lemma {:induction false} WindowsTrimmed(words: seq<string>, start: nat, size: nat, step: nat)
    requires size > 0 && step > 0 && AllWords(words)
    ensures AllTrimmed(JoinAll(WindowsFrom(words, start, size, step)))
    decreases |words| - start
  {
    if start >= |words| {
    } else if start + size >= |words| {
      JoinTrimmed(words[start..]);
      assert JoinAll([words[start..]]) == [Join(words[start..])];
    } else {
      JoinTrimmed(words[start..start + size]);
      WindowsTrimmed(words, start + step, size, step);
    }
  }
}
