// Filling chunks with consecutive sentences, to a word budget or to a measured window.
module Packing {
  import opened Text
  import opened Splitting

  // ----- grouping: one greedy walk serves both packers ------------------------------

  type Group = seq<string>

  /** Extend the open group while the longer group is admissible, else start a new one. */
  function Greedy(items: seq<string>, open: Group, admits: Group -> bool): seq<Group>
    decreases |items|
  {
    if items == [] then (if open == [] then [] else [open])
    else if open == [] || admits(open + [items[0]]) then Greedy(items[1..], open + [items[0]], admits)
    else [open] + Greedy(items[1..], [items[0]], admits)
  }

  function Flatten(groups: seq<Group>): seq<string> {
    if groups == [] then [] else groups[0] + Flatten(groups[1..])
  }

  /** A way of cutting the items into consecutive groups, each a single item or admissible. */
  ghost predicate Grouping(groups: seq<Group>, items: seq<string>, admits: Group -> bool) {
    && Flatten(groups) == items
    && forall i :: 0 <= i < |groups| ==> groups[i] != [] && Allowed(groups[i], admits)
  }

  ghost predicate Allowed(group: Group, admits: Group -> bool) {
    |group| == 1 || admits(group)
  }

  /** An admissible group stays admissible when an item is dropped from either end. */
  ghost predicate Hereditary(admits: Group -> bool) {
    forall g: Group :: Shrinks(g, admits)
  }

  ghost predicate Shrinks(g: Group, admits: Group -> bool) {
    |g| > 1 && admits(g) ==> Allowed(g[1..], admits) && Allowed(g[..|g| - 1], admits)
  }

  lemma {:induction false} GreedyGroups(items: seq<string>, open: Group, admits: Group -> bool)
    requires open != [] ==> Allowed(open, admits)
    ensures Grouping(Greedy(items, open, admits), open + items, admits)
    decreases |items|
  {
    if items == [] {
      if open != [] {
        assert Flatten([open]) == open + Flatten([]);
        assert open + items == open;
      }
    } else if open == [] || admits(open + [items[0]]) {
      GreedyGroups(items[1..], open + [items[0]], admits);
      assert open + [items[0]] + items[1..] == open + items;
    } else {
      GreedyGroups(items[1..], [items[0]], admits);
      var rest := Greedy(items[1..], [items[0]], admits);
      assert ([open] + rest)[1..] == rest;
      assert [items[0]] + items[1..] == items;
    }
  }

  /** How many groups the walk makes from here, when the next item joins the open group and
      when it does not. */
  lemma GreedyCount(items: seq<string>, open: Group, admits: Group -> bool)
    requires items != [] && open != []
    ensures |Greedy(items, open, admits)| ==
            if admits(open + [items[0]]) then |Greedy(items[1..], open + [items[0]], admits)|
            else 1 + |Greedy(items[1..], [items[0]], admits)|
  {
  }

  /** The greedy walk never falls behind: closing the open group here and restarting with
      any allowed remainder of it cannot give fewer groups. */
  lemma {:induction false} GreedyAhead(items: seq<string>, closed: Group, less: Group, admits: Group -> bool)
    requires Hereditary(admits) && less != [] && Allowed(closed + less, admits)
    ensures |Greedy(items, less, admits)| <= |Greedy(items, closed + less, admits)|
    decreases |items|
  {
    if items != [] {
      var x, rest := items[0], items[1..];
      GreedyCount(items, less, admits);
      GreedyCount(items, closed + less, admits);
      assert closed + less + [x] == closed + (less + [x]);
      if admits(closed + less + [x]) {
        SuffixAllowed(closed, less + [x], admits);
        GreedyAhead(rest, closed, less + [x], admits);
      } else if admits(less + [x]) {
        // The shorter group still takes x, the longer one has just been closed.
        GreedyOneMore(rest, less, [x], admits);
      }
    }
  }

  /** A longer open group costs at most one group more than the end of it. */
  lemma {:induction false} GreedyOneMore(items: seq<string>, closed: Group, less: Group, admits: Group -> bool)
    requires Hereditary(admits) && less != [] && Allowed(closed + less, admits)
    ensures |Greedy(items, closed + less, admits)| <= 1 + |Greedy(items, less, admits)|
    decreases |items|
  {
    if items != [] {
      var x, rest := items[0], items[1..];
      GreedyCount(items, less, admits);
      GreedyCount(items, closed + less, admits);
      assert closed + less + [x] == closed + (less + [x]);
      if admits(closed + less + [x]) {
        SuffixAllowed(closed, less + [x], admits);
        GreedyOneMore(rest, closed, less + [x], admits);
      } else if admits(less + [x]) {
        GreedyAhead(rest, less, [x], admits);
      }
    }
  }

  lemma {:induction false} SuffixAllowed(closed: Group, tail: Group, admits: Group -> bool)
    requires Hereditary(admits) && tail != [] && Allowed(closed + tail, admits)
    ensures Allowed(tail, admits)
    decreases |closed|
  {
    if closed == [] {
      assert closed + tail == tail;
    } else {
      assert Shrinks(closed + tail, admits);
      assert (closed + tail)[1..] == closed[1..] + tail;
      SuffixAllowed(closed[1..], tail, admits);
    }
  }

  lemma {:induction false} PrefixAllowed(g: Group, head: Group, admits: Group -> bool)
    requires Hereditary(admits) && Allowed(g, admits)
    requires head != [] && |head| <= |g| && head == g[..|head|]
    ensures Allowed(head, admits)
    decreases |g|
  {
    if |head| < |g| {
      assert Shrinks(g, admits);
      assert head == g[..|g| - 1][..|head|];
      PrefixAllowed(g[..|g| - 1], head, admits);
    } else {
      assert head == g;
    }
  }

  lemma {:induction false} GreedyAbsorbs(open: Group, mid: Group, rest: seq<string>, admits: Group -> bool)
    requires Hereditary(admits)
    requires open + mid != [] && Allowed(open + mid, admits)
    ensures Greedy(mid + rest, open, admits) == Greedy(rest, open + mid, admits)
    decreases |mid|
  {
    if mid == [] {
      assert mid + rest == rest && open + mid == open;
    } else {
      var next := open + [mid[0]];
      PrefixAllowed(open + mid, next, admits);
      assert (mid + rest)[1..] == mid[1..] + rest;
      assert next + mid[1..] == open + mid;
      GreedyAbsorbs(next, mid[1..], rest, admits);
    }
  }

  /** No other way of cutting the items into allowed consecutive groups uses fewer. */
  lemma {:induction false} GreedyFewest(items: seq<string>, groups: seq<Group>, admits: Group -> bool)
    requires Hereditary(admits)
    requires Grouping(groups, items, admits)
    ensures |Greedy(items, [], admits)| <= |groups|
    decreases |groups|
  {
    if groups != [] {
      var g, rest := groups[0], Flatten(groups[1..]);
      GreedyFewest(rest, groups[1..], admits);
      assert [] + g == g;
      GreedyAbsorbs([], g, rest, admits);
      if rest != [] && admits(g + [rest[0]]) {
        GreedyOneMore(rest[1..], g, [rest[0]], admits);
      }
      assert rest != [] ==> [] + [rest[0]] == [rest[0]];
    }
  }

  // ----- the two packers -----------------------------------------------------------

  function JoinAll(groups: seq<Group>): seq<string> {
    if groups == [] then [] else [Join(groups[0])] + JoinAll(groups[1..])
  }

  lemma JoinAllCons(group: Group, rest: seq<Group>)
    ensures JoinAll([group]) == [Join(group)]
    ensures JoinAll([group] + rest) == [Join(group)] + JoinAll(rest)
  {
    assert [group][1..] == [];
    assert ([group] + rest)[1..] == rest;
  }

  function TotalWords(group: Group): nat {
    if group == [] then 0 else |Words(group[0])| + TotalWords(group[1..])
  }

  lemma {:induction false} TotalWordsAppend(a: Group, b: Group)
    ensures TotalWords(a + b) == TotalWords(a) + TotalWords(b)
  {
    if a == [] {
      assert a + b == b;
    } else {
      TotalWordsAppend(a[1..], b);
      assert (a + b)[1..] == a[1..] + b;
    }
  }

  lemma TotalWordsSnoc(group: Group, sentence: string)
    ensures TotalWords(group + [sentence]) == TotalWords(group) + |Words(sentence)|
  {
    TotalWordsAppend(group, [sentence]);
    assert [sentence][1..] == [];
  }

  function WithinWords(maxWords: int): Group -> bool {
    (g: Group) => TotalWords(g) <= maxWords
  }

  function WithinWindow(maxChars: int, fits: string -> bool): Group -> bool {
    (g: Group) => |Join(g)| <= maxChars && fits(Join(g))
  }

  /** Whole sentences packed up to a word budget. */
  function PackedToWords(sentences: seq<string>, maxWords: int): seq<string> {
    JoinAll(Greedy(sentences, [], WithinWords(maxWords)))
  }

  /** Whole sentences packed while the packed piece is short enough and fits. */
  function PackedToFit(sentences: seq<string>, maxChars: int, fits: string -> bool): seq<string> {
    JoinAll(Greedy(sentences, [], WithinWindow(maxChars, fits)))
  }

  /** One item on: it joins the open group, or closes it and opens the next. */
  lemma PackStep(items: seq<string>, k: nat, open: Group, admits: Group -> bool)
    requires k < |items|
    ensures var longer := open + [items[k]];
            JoinAll(Greedy(items[k..], open, admits)) ==
            if open == [] || admits(longer) then JoinAll(Greedy(items[k + 1..], longer, admits))
            else [Join(open)] + JoinAll(Greedy(items[k + 1..], [items[k]], admits))
  {
    assert items[k..][1..] == items[k + 1..];
    JoinAllCons(open, Greedy(items[k + 1..], [items[k]], admits));
  }

  method SplitSentencesPacked(text: string, maxWords: int, abbreviated: string -> bool)
    returns (packed: seq<string>)
    ensures packed == PackedToWords(Sentences(text, abbreviated), maxWords)
  {
    packed := [];
    var current: Group := [];
    var words := 0;
    var sentences := SplitSentences(text, abbreviated);
    var admits := WithinWords(maxWords);
    for k := 0 to |sentences|
      invariant words == TotalWords(current)
      invariant packed + JoinAll(Greedy(sentences[k..], current, admits)) == PackedToWords(sentences, maxWords)
    {
      var sentence := sentences[k];
      PackStep(sentences, k, current, admits);
      var length := |Words(sentence)|;
      TotalWordsSnoc(current, sentence);
      Associate(packed, [Join(current)], JoinAll(Greedy(sentences[k + 1..], [sentence], admits)));
      if current != [] && words + length > maxWords {
        packed := packed + [Join(current)];
        current, words := [], 0;
        TotalWordsSnoc([], sentence);
        assert current + [sentence] == [sentence];
      }
      current := current + [sentence];
      words := words + length;
    }
    if current != [] {
      packed := packed + [Join(current)];
    }
  }

  /** Sentences are packed within a paragraph and never across one. */
  function PackedParagraphs(paragraphs: seq<string>, maxWords: int, abbreviated: string -> bool): seq<string> {
    if paragraphs == [] then []
    else
      PackedToWords(Sentences(paragraphs[0], abbreviated), maxWords)
      + PackedParagraphs(paragraphs[1..], maxWords, abbreviated)
  }

  method SplitParagraphsPacked(text: string, maxWords: int, abbreviated: string -> bool)
    returns (packed: seq<string>)
    ensures packed == PackedParagraphs(Paragraphs(text), maxWords, abbreviated)
  {
    packed := [];
    var paragraphs := Paragraphs(text);
    for k := 0 to |paragraphs|
      invariant packed + PackedParagraphs(paragraphs[k..], maxWords, abbreviated)
             == PackedParagraphs(paragraphs, maxWords, abbreviated)
    {
      assert paragraphs[k..][1..] == paragraphs[k + 1..];
      var pieces := SplitSentencesPacked(paragraphs[k], maxWords, abbreviated);
      Associate(packed, pieces, PackedParagraphs(paragraphs[k + 1..], maxWords, abbreviated));
      packed := packed + pieces;
    }
  }

  method SplitSentencesToFit(text: string, maxChars: int, fits: string -> bool, abbreviated: string -> bool)
    returns (packed: seq<string>)
    ensures packed == PackedToFit(Sentences(text, abbreviated), maxChars, fits)
  {
    packed := [];
    var current := "";
    ghost var open: Group := [];
    var sentences := SplitSentences(text, abbreviated);
    ghost var admits := WithinWindow(maxChars, fits);
    for k := 0 to |sentences|
      invariant current == Join(open) && (current == "" <==> open == [])
      invariant packed + JoinAll(Greedy(sentences[k..], open, admits)) == PackedToFit(sentences, maxChars, fits)
    {
      var sentence := sentences[k];
      PackStep(sentences, k, open, admits);
      if current == "" {
        assert open + [sentence] == [sentence];
        current, open := sentence, [sentence];
      } else {
        JoinSnoc(open, sentence);
        var candidate := current + " " + sentence;
        if |candidate| <= maxChars && fits(candidate) {
          current, open := candidate, open + [sentence];
        } else {
          packed := packed + [current];
          current, open := sentence, [sentence];
        }
      }
    }
    if current != "" {
      packed := packed + [current];
    }
  }

  // ----- the packers use the fewest chunks -------------------------------------------

  lemma WordBudgetShrinks(maxWords: int)
    ensures Hereditary(WithinWords(maxWords))
  {
    forall g: Group ensures Shrinks(g, WithinWords(maxWords)) {
      if |g| > 1 {
        TotalWordsAppend([g[0]], g[1..]);
        assert [g[0]] + g[1..] == g;
        TotalWordsAppend(g[..|g| - 1], [g[|g| - 1]]);
        assert g[..|g| - 1] + [g[|g| - 1]] == g;
      }
    }
  }

  /** Packing to a word budget never cuts a sentence, keeps every group to the budget or to
      one sentence, and no other consecutive grouping that does so is shorter. */
  lemma PackedToWordsFewest(sentences: seq<string>, maxWords: int, groups: seq<Group>)
    requires Grouping(groups, sentences, WithinWords(maxWords))
    ensures exists best :: && Grouping(best, sentences, WithinWords(maxWords))
                           && PackedToWords(sentences, maxWords) == JoinAll(best)
                           && |best| <= |groups|
  {
    WordBudgetShrinks(maxWords);
    var best := Greedy(sentences, [], WithinWords(maxWords));
    GreedyGroups(sentences, [], WithinWords(maxWords));
    assert [] + sentences == sentences;
    GreedyFewest(sentences, groups, WithinWords(maxWords));
  }

  /** A measure is inherited when every contiguous part of a fitting run of sentences fits. */
  ghost predicate FitInherited(fits: string -> bool) {
    forall g: Group :: FitShrinks(g, fits)
  }

  ghost predicate FitShrinks(g: Group, fits: string -> bool) {
    |g| > 1 && fits(Join(g)) ==> fits(Join(g[1..])) && fits(Join(g[..|g| - 1]))
  }

  lemma WindowShrinks(maxChars: int, fits: string -> bool)
    requires FitInherited(fits)
    ensures Hereditary(WithinWindow(maxChars, fits))
  {
    forall g: Group ensures Shrinks(g, WithinWindow(maxChars, fits)) {
      if |g| > 1 {
        assert FitShrinks(g, fits);
        JoinLength(g);
        JoinLength(g[1..]);
        JoinLength(g[..|g| - 1]);
        WeightAppend(g[..|g| - 1], [g[|g| - 1]]);
        assert g[..|g| - 1] + [g[|g| - 1]] == g;
      }
    }
  }

  /** Packing to a measured window uses the fewest pieces too, when the measure is
      inherited by contiguous runs. */
  lemma PackedToFitFewest(sentences: seq<string>, maxChars: int, fits: string -> bool, groups: seq<Group>)
    requires FitInherited(fits)
    requires Grouping(groups, sentences, WithinWindow(maxChars, fits))
    ensures exists best :: && Grouping(best, sentences, WithinWindow(maxChars, fits))
                           && PackedToFit(sentences, maxChars, fits) == JoinAll(best)
                           && |best| <= |groups|
  {
    WindowShrinks(maxChars, fits);
    var best := Greedy(sentences, [], WithinWindow(maxChars, fits));
    GreedyGroups(sentences, [], WithinWindow(maxChars, fits));
    assert [] + sentences == sentences;
    GreedyFewest(sentences, groups, WithinWindow(maxChars, fits));
  }

  // ----- what packing keeps ----------------------------------------------------------

  lemma {:induction false} JoinAllKeeps(groups: seq<Group>)
    requires forall i :: 0 <= i < |groups| ==> groups[i] != [] && AllTrimmed(groups[i])
    ensures Ink(Concat(JoinAll(groups))) == Ink(Concat(Flatten(groups)))
    ensures Weight(JoinAll(groups)) == Weight(Flatten(groups))
    ensures AllTrimmed(JoinAll(groups))
  {
    if groups != [] {
      var g, rest := groups[0], groups[1..];
      JoinAllKeeps(rest);
      JoinInk(g);
      JoinLength(g);
      JoinTrimmed(g);
      ConcatAppend(g, Flatten(rest));
      WeightAppend(g, Flatten(rest));
      InkAppend(Concat(g), Concat(Flatten(rest)));
      InkAppend(Join(g), Concat(JoinAll(rest)));
      assert ([Join(g)] + JoinAll(rest))[1..] == JoinAll(rest);
    }
  }

  lemma {:induction false} FlattenTrimmed(groups: seq<Group>)
    requires AllTrimmed(Flatten(groups))
    ensures forall i :: 0 <= i < |groups| ==> AllTrimmed(groups[i])
  {
    if groups != [] {
      var all := Flatten(groups);
      assert forall j :: 0 <= j < |groups[0]| ==> groups[0][j] == all[j];
      assert forall j :: 0 <= j < |Flatten(groups[1..])| ==> Flatten(groups[1..])[j] == all[|groups[0]| + j];
      FlattenTrimmed(groups[1..]);
    }
  }

  /** Greedy packing of trimmed sentences keeps the ink, the length and the trimming. */
  lemma GreedyKeeps(sentences: seq<string>, admits: Group -> bool)
    requires AllTrimmed(sentences)
    ensures var r := JoinAll(Greedy(sentences, [], admits));
            && AllTrimmed(r) && Weight(r) == Weight(sentences)
            && Ink(Concat(r)) == Ink(Concat(sentences))
  {
    var groups := Greedy(sentences, [], admits);
    GreedyGroups(sentences, [], admits);
    assert [] + sentences == sentences;
    FlattenTrimmed(groups);
    JoinAllKeeps(groups);
  }

  lemma {:induction false} PackedParagraphsKeep(paragraphs: seq<string>, maxWords: int, abbreviated: string -> bool)
    ensures var r := PackedParagraphs(paragraphs, maxWords, abbreviated);
            && AllTrimmed(r) && Weight(r) <= Weight(paragraphs)
            && Ink(Concat(r)) == Ink(Concat(paragraphs))
  {
    if paragraphs != [] {
      PackedParagraphsKeep(paragraphs[1..], maxWords, abbreviated);
      SentencesKeep(paragraphs[0], abbreviated);
      GreedyKeeps(Sentences(paragraphs[0], abbreviated), WithinWords(maxWords));
      var a := PackedToWords(Sentences(paragraphs[0], abbreviated), maxWords);
      var b := PackedParagraphs(paragraphs[1..], maxWords, abbreviated);
      ConcatAppend(a, b);
      WeightAppend(a, b);
      InkAppend(Concat(a), Concat(b));
      InkAppend(paragraphs[0], Concat(paragraphs[1..]));
    }
  }
}
