// What each strategy's chunks are, on texts whose paragraphs and sentences are known, when
// nothing is left for the cap, the merge and the window to do.
module Strategies {
  import opened Text
  import opened Splitting
  import opened Packing
  import opened Windows
  import opened Capping
  import opened Fitting
  import opened Chunker
  import opened Stages
  import opened Boundaries

  // ----- the greedy grouping is determined ---------------------------------------------------------

  /** A group every shorter beginning of which could take its next item. */
  ghost predicate Chain(group: Group, admits: Group -> bool) {
    group != [] && forall n :: 1 < n <= |group| ==> admits(group[..n])
  }

  /** Consecutive groups, none of which could take the item after it. */
  ghost predicate Full(groups: seq<Group>, items: seq<string>, admits: Group -> bool) {
    && Flatten(groups) == items
    && (forall i :: 0 <= i < |groups| ==> Chain(groups[i], admits))
    && forall i :: 0 <= i < |groups| - 1 ==> Refuses(groups, i, admits)
  }

  ghost predicate Refuses(groups: seq<Group>, i: nat, admits: Group -> bool)
    requires i + 1 < |groups|
  {
    groups[i + 1] != [] && !admits(groups[i] + [groups[i + 1][0]])
  }

  lemma {:induction false} FullCons(group: Group, rest: seq<Group>, items: seq<string>, admits: Group -> bool)
    requires Chain(group, admits) && Full(rest, items, admits) && items != []
    requires !admits(group + [items[0]])
    ensures Full([group] + rest, group + items, admits)
  {
    var groups := [group] + rest;
    assert groups[1..] == rest;
    assert rest[0][0] == items[0];
    forall i | 0 <= i < |groups| - 1 ensures Refuses(groups, i, admits) {
      if i > 0 { assert Refuses(rest, i - 1, admits); }
    }
  }

  lemma {:induction false} ChainSnoc(open: Group, item: string, admits: Group -> bool)
    requires open == [] || (Chain(open, admits) && admits(open + [item]))
    ensures Chain(open + [item], admits)
  {
    var longer := open + [item];
    forall n | 1 < n <= |longer| ensures admits(longer[..n]) {
      if n <= |open| { assert longer[..n] == open[..n]; } else { assert longer[..n] == longer; }
    }
  }

  lemma {:induction false} GreedyFull(items: seq<string>, open: Group, admits: Group -> bool)
    requires open != [] ==> Chain(open, admits)
    ensures Full(Greedy(items, open, admits), open + items, admits)
    decreases |items|
  {
    if items == [] {
      assert Flatten([open]) == open + Flatten([]);
      assert open + items == open;
    } else if open == [] || admits(open + [items[0]]) {
      ChainSnoc(open, items[0], admits);
      GreedyFull(items[1..], open + [items[0]], admits);
      assert open + [items[0]] + items[1..] == open + items;
    } else {
      ChainSnoc([], items[0], admits);
      assert [] + [items[0]] == [items[0]];
      GreedyFull(items[1..], [items[0]], admits);
      assert [items[0]] + items[1..] == items;
      FullCons(open, Greedy(items[1..], [items[0]], admits), items, admits);
    }
  }

  lemma {:induction false} FirstStops(groups: seq<Group>, items: seq<string>, admits: Group -> bool)
    requires Full(groups, items, admits) && groups != [] && |groups[0]| < |items|
    ensures !admits(items[..|groups[0]| + 1])
  {
    var g := groups[0];
    assert items == g + Flatten(groups[1..]);
    assert |groups| > 1 && Refuses(groups, 0, admits);
    assert Flatten(groups[1..]) == groups[1] + Flatten(groups[1..][1..]);
    assert items[..|g| + 1] == g + [groups[1][0]];
  }

  lemma {:induction false} FirstTakes(groups: seq<Group>, items: seq<string>, n: nat, admits: Group -> bool)
    requires Full(groups, items, admits) && groups != [] && 1 < n <= |groups[0]|
    ensures n <= |items| && admits(items[..n])
  {
    assert items == groups[0] + Flatten(groups[1..]);
    assert items[..n] == groups[0][..n] && Chain(groups[0], admits);
  }

  /** Two such groupings begin with the same group: the shorter would have taken one more. */
  lemma {:induction false} NoShorter(a: seq<Group>, b: seq<Group>, items: seq<string>, admits: Group -> bool)
    requires Full(a, items, admits) && Full(b, items, admits) && a != [] && b != []
    ensures |b[0]| <= |a[0]|
  {
    assert Chain(a[0], admits);
    assert items == b[0] + Flatten(b[1..]);
    if |a[0]| < |b[0]| {
      FirstStops(a, items, admits);
      FirstTakes(b, items, |a[0]| + 1, admits);
    }
  }

  lemma {:induction false} FullRest(groups: seq<Group>, items: seq<string>, admits: Group -> bool)
    requires Full(groups, items, admits) && groups != []
    ensures Full(groups[1..], items[|groups[0]|..], admits)
  {
    assert items == groups[0] + Flatten(groups[1..]);
    assert items[|groups[0]|..] == Flatten(groups[1..]);
    forall i | 0 <= i < |groups[1..]| - 1 ensures Refuses(groups[1..], i, admits) {
      assert Refuses(groups, i + 1, admits);
    }
  }

  lemma {:induction false} FullIsOne(a: seq<Group>, b: seq<Group>, items: seq<string>, admits: Group -> bool)
    requires Full(a, items, admits) && Full(b, items, admits)
    ensures a == b
    decreases |a|
  {
    if a != [] && b != [] {
      NoShorter(a, b, items, admits);
      NoShorter(b, a, items, admits);
      assert a[0] == items[..|a[0]|] && b[0] == items[..|b[0]|];
      FullRest(a, items, admits);
      FullRest(b, items, admits);
      FullIsOne(a[1..], b[1..], items[|a[0]|..], admits);
      assert a == [a[0]] + a[1..] && b == [b[0]] + b[1..];
    } else {
      SomeItem(a, items, admits);
      SomeItem(b, items, admits);
    }
  }

  lemma {:induction false} SomeItem(groups: seq<Group>, items: seq<string>, admits: Group -> bool)
    requires Full(groups, items, admits)
    ensures groups == [] <==> items == []
  {
    if groups != [] { assert Chain(groups[0], admits); }
  }

  /** Packing makes the one division of the items into groups that are each filled before
      the next is begun. */
  lemma GreedyExactly(groups: seq<Group>, items: seq<string>, admits: Group -> bool)
    ensures groups == Greedy(items, [], admits) <==> Full(groups, items, admits)
  {
    GreedyFull(items, [], admits);
    assert [] + items == items;
    if Full(groups, items, admits) {
      FullIsOne(groups, Greedy(items, [], admits), items, admits);
    }
  }

  // ----- when the later stages have nothing to do ---------------------------------------------------

  /** No piece but the first is short enough to join the one before. */
  predicate NoneShort(pieces: seq<string>, minLength: int) {
    minLength <= 1 || forall i :: 0 < i < |pieces| ==> |pieces[i]| >= minLength
  }

  lemma {:induction false} NoneMerged(open: string, rest: seq<string>, minLength: int, maxChars: nat)
    requires forall i :: 0 <= i < |rest| ==> |rest[i]| >= minLength
    ensures MergeInto(open, rest, minLength, maxChars) == [open] + rest
    decreases |rest|
  {
    if rest == [] {
      assert [open] + rest == [open];
    } else {
      NoneMerged(rest[0], rest[1..], minLength, maxChars);
      assert [rest[0]] + rest[1..] == rest;
    }
  }

  /** The call's own conditions, and nothing left for the stages after the strategy. */
  predicate Plain(c: Config, pieces: seq<string>) {
    && c.maxChars > 0 && Within(pieces, c.maxChars) && NoneShort(pieces, c.minChunkLength)
    && (c.strategy.SentenceWindow? ==> c.fits.Some?) && (c.fits.Some? ==> AllFit(pieces, c.fits.value))
  }

  lemma {:induction false} PlainChunks(text: string, c: Config)
    requires Callable(c) && !Blank(text) && (c.strategy.SentenceWindow? ==> c.fits.Some?)
    requires Plain(c, RawChunks(text, c))
    ensures Chunks(text, c).Ok? && Texts(Chunks(text, c).value) == RawChunks(text, c)
  {
    var raw := RawChunks(text, c);
    RawKeeps(text, c);
    CapAllExactly(raw, c.maxChars);
    if c.minChunkLength > 1 && |raw| > 1 {
      assert forall i :: 0 <= i < |raw[1..]| ==> raw[1..][i] == raw[i + 1];
      NoneMerged(raw[0], raw[1..], c.minChunkLength, c.maxChars);
      assert [raw[0]] + raw[1..] == raw;
    }
    assert MergedChunks(text, c) == raw;
    if c.fits.Some? { FitAllExactly(raw, c.maxChars, c.fits.value); }
    LocateOrdered(text, raw, 0, 0);
  }

  /** The call gives these texts, in this order. */
  ghost predicate Gives(text: string, c: Config, pieces: seq<string>)
    requires Callable(c)
  {
    Chunks(text, c).Ok? && Texts(Chunks(text, c).value) == pieces
  }

  // ----- each strategy -----------------------------------------------------------------------------------

  lemma SpacedNotBlank(pieces: seq<string>, gaps: seq<string>)
    requires |gaps| + 1 == |pieces| && Trimmed(pieces[0])
    ensures !Blank(Spaced(pieces, gaps))
  {
    var text := Spaced(pieces, gaps);
    assert text[0] == pieces[0][0];
  }

  /** The paragraph strategy gives the paragraphs. */
  lemma ParagraphStrategy(paragraphs: seq<string>, gaps: seq<string>, c: Config)
    requires Callable(c) && c.strategy == Paragraph && Laid(paragraphs, gaps)
    requires Plain(c, paragraphs)
    ensures Gives(Spaced(paragraphs, gaps), c, paragraphs)
  {
    SpacedNotBlank(paragraphs, gaps);
    ParagraphsReturn(paragraphs, gaps);
    PlainChunks(Spaced(paragraphs, gaps), c);
  }

  /** The sentence strategy gives the sentences. */
  lemma SentenceStrategy(sentences: seq<string>, gaps: seq<string>, c: Config)
    requires Callable(c) && c.strategy == Sentence && SentencesLaid(sentences, gaps, c.abbreviated)
    requires Plain(c, sentences)
    ensures Gives(Spaced(sentences, gaps), c, sentences)
  {
    SpacedNotBlank(sentences, gaps);
    SentencesReturn(sentences, gaps, c.abbreviated);
    PlainChunks(Spaced(sentences, gaps), c);
  }

  /** The packing strategies give whole sentences, each chunk taking the next while the
      budget of words, or the window, lets it. */
  lemma PackedStrategy(sentences: seq<string>, gaps: seq<string>, groups: seq<Group>, c: Config)
    requires Callable(c) && SentencesLaid(sentences, gaps, c.abbreviated)
    requires c.strategy == SentencePacked || (c.strategy == SentenceWindow && c.fits.Some?)
    requires Full(groups, sentences,
                  if c.strategy == SentencePacked then WithinWords(c.maxWords) else WithinWindow(c.maxChars, c.fits.value))
    requires Plain(c, JoinAll(groups))
    ensures Gives(Spaced(sentences, gaps), c, JoinAll(groups))
  {
    SpacedNotBlank(sentences, gaps);
    SentencesReturn(sentences, gaps, c.abbreviated);
    GreedyExactly(groups, sentences,
                  if c.strategy == SentencePacked then WithinWords(c.maxWords) else WithinWindow(c.maxChars, c.fits.value));
    PlainChunks(Spaced(sentences, gaps), c);
  }

  /** The groups of one paragraph's sentences, filled to the budget. */
  ghost predicate PacksOne(paragraph: string, groups: seq<Group>, c: Config) {
    exists sentences, gaps ::
      && SentencesLaid(sentences, gaps, c.abbreviated) && Spaced(sentences, gaps) == paragraph
      && Full(groups, sentences, WithinWords(c.maxWords))
  }

  function JoinEach(packs: seq<seq<Group>>): seq<string> {
    if packs == [] then [] else JoinAll(packs[0]) + JoinEach(packs[1..])
  }

  lemma {:induction false} PackedEach(paragraphs: seq<string>, packs: seq<seq<Group>>, c: Config)
    requires |packs| == |paragraphs| && forall i :: 0 <= i < |packs| ==> PacksOne(paragraphs[i], packs[i], c)
    ensures PackedParagraphs(paragraphs, c.maxWords, c.abbreviated) == JoinEach(packs)
    decreases |packs|
  {
    if packs != [] {
      var sentences, gaps :|
        && SentencesLaid(sentences, gaps, c.abbreviated) && Spaced(sentences, gaps) == paragraphs[0]
        && Full(packs[0], sentences, WithinWords(c.maxWords));
      SentencesReturn(sentences, gaps, c.abbreviated);
      GreedyExactly(packs[0], sentences, WithinWords(c.maxWords));
      assert forall i :: 0 <= i < |packs[1..]| ==> PacksOne(paragraphs[1..][i], packs[1..][i], c);
      PackedEach(paragraphs[1..], packs[1..], c);
    }
  }

  /** The packed-paragraph strategy packs the sentences of each paragraph, and no chunk runs
      from one paragraph into the next. */
  lemma ParagraphPackedStrategy(paragraphs: seq<string>, gaps: seq<string>, packs: seq<seq<Group>>, c: Config)
    requires Callable(c) && c.strategy == ParagraphPacked && Laid(paragraphs, gaps)
    requires |packs| == |paragraphs| && forall i :: 0 <= i < |packs| ==> PacksOne(paragraphs[i], packs[i], c)
    requires Plain(c, JoinEach(packs))
    ensures Gives(Spaced(paragraphs, gaps), c, JoinEach(packs))
  {
    SpacedNotBlank(paragraphs, gaps);
    ParagraphsReturn(paragraphs, gaps);
    PackedEach(paragraphs, packs, c);
    PlainChunks(Spaced(paragraphs, gaps), c);
  }

  /** The token strategy gives the windows of the words. */
  lemma TokenStrategy(text: string, c: Config)
    requires Callable(c) && c.strategy == TokenCount && c.overlap >= 0 && !Blank(text)
    requires Plain(c, RawChunks(text, c))
    ensures Chunks(text, c).Ok?
    ensures var r := Texts(Chunks(text, c).value);
            r != [] && forall k :: 0 <= k < |r| ==> WindowChunk(r, k, Words(text), c.maxWords, Step(c.maxWords, c.overlap))
  {
    PlainChunks(text, c);
    WordWindowsAre(text, c.maxWords, c.overlap);
  }
}
